/**
 The mu-law codec of python/RtpUtils_mod.c, after tables 2a and 2b of ITU-T G.711: the scalar conversions,
 the tables filled from them, and the bulk conversions that use the tables.
 */
module MuLaw {
  import opened Common

  const BIAS := 0x84
  const CLIP := 32635

  type pcm16 = s: int | -32768 <= s < 32768

  function Abs(x: int): nat {
    if x < 0 then -x else x
  }

  function Clip(x: int): int {
    if x > CLIP then CLIP else if x < -CLIP then -CLIP else x
  }

  /** 2 to the power of a segment number. */
  function Scale(e: nat): (r: nat)
    requires e <= 7
    ensures 1 <= r <= 128
  {
    match e
    case 0 => 1
    case 1 => 2
    case 2 => 4
    case 3 => 8
    case 4 => 16
    case 5 => 32
    case 6 => 64
    case 7 => 128
  }

  /** The segment of a biased magnitude: the one whose range, from 128 * 2^e up to 256 * 2^e, it lies in. */
  function Segment(m: nat): (e: nat)
    requires 132 <= m < 32768
    ensures e <= 7 && 128 * Scale(e) <= m < 256 * Scale(e)
  {
    if m >= 16384 then 7
    else if m >= 8192 then 6
    else if m >= 4096 then 5
    else if m >= 2048 then 4
    else if m >= 1024 then 3
    else if m >= 512 then 2
    else if m >= 256 then 1
    else 0
  }

  function Biased(sample: int): (m: nat)
    ensures 132 <= m < 32768
  {
    (if Abs(sample) > CLIP then CLIP else Abs(sample)) + BIAS
  }

  function SegmentOf(sample: int): (e: nat)
    ensures e <= 7
  {
    Segment(Biased(sample))
  }

  function Mantissa(m: nat, e: nat): (r: nat)
    requires e <= 7
    ensures r < 16
  {
    m / (8 * Scale(e)) % 16
  }

  /** The code of a sample: sign, segment and mantissa, all bits inverted. */
  function Encode(sample: int): byte {
    var m := Biased(sample);
    var e := Segment(m);
    255 - ((if sample < 0 then 128 else 0) + 16 * e + Mantissa(m, e))
  }

  function Decode(code: byte): (sample: pcm16)
    ensures -32124 <= sample <= 32124
  {
    var v := 255 - code;
    var e := v / 16 % 8;
    var magnitude: int := Level(e, v % 16);
    if v / 128 != 0 then -magnitude else magnitude
  }

  /** The magnitude a segment and mantissa stand for. */
  function Level(e: nat, mantissa: nat): (r: nat)
    requires e <= 7 && mantissa < 16
    ensures r <= 32124
  {
    assert 132 <= mantissa * 8 + BIAS <= 252;
    ScaledBounds(mantissa * 8 + BIAS, e);
    (mantissa * 8 + BIAS) * Scale(e) - BIAS
  }

  lemma ScaledBounds(x: nat, e: nat)
    requires 132 <= x <= 252 && e <= 7
    ensures 132 <= x * Scale(e) <= 32256
  {
  }

  lemma DecodeLevel(s: nat, e: nat, mantissa: nat)
    requires s <= 1 && e <= 7 && mantissa < 16
    ensures 0 <= 255 - (128 * s + 16 * e + mantissa) < 256
    ensures Decode(255 - (128 * s + 16 * e + mantissa)) == if s == 1 then -(Level(e, mantissa) as int) else Level(e, mantissa)
  {
    Unpack(s, e, mantissa);
  }

  /** The levels start at 0, sixteen to a segment, evenly spaced, the spacing doubling from one segment to the next; the
      negative codes are the mirror image of the positive ones. */
  lemma DecodeSteps(e: nat, mantissa: nat)
    requires e <= 7 && mantissa < 16
    ensures var code := 255 - (16 * e + mantissa);
            && 128 <= code < 256 && Decode(255) == 0 && Decode(code - 128) == -Decode(code)
            && (mantissa < 15 ==> Decode(code - 1) - Decode(code) == 8 * Scale(e))
            && (mantissa == 15 && e < 7 ==> Decode(code - 1) - Decode(code) == 12 * Scale(e))
  {
    hide Decode, Level;
    DecodeLevel(0, 0, 0);
    DecodeLevel(0, e, mantissa);
    DecodeLevel(1, e, mantissa);
    NextLevel(e, mantissa);
    if mantissa < 15 {
      DecodeLevel(0, e, mantissa + 1);
    } else if e < 7 {
      DecodeLevel(0, e + 1, 0);
    }
  }

  lemma NextLevel(e: nat, mantissa: nat)
    requires e <= 7 && mantissa < 16
    ensures mantissa < 15 ==> Level(e, mantissa + 1) - Level(e, mantissa) == 8 * Scale(e)
    ensures e < 7 ==> Level(e + 1, 0) - Level(e, 15) == 12 * Scale(e)
    ensures Level(0, 0) == 0
  {
  }

  // ----- the scalar encoder as it runs -----

  predicate BitSet(m: nat, mask: nat)
    requires mask > 0
  {
    m / mask % 2 == 1
  }

  /** The search for the highest set bit, from the top segment down. */
  method LinearToUlawScalar(sample: int) returns (code: byte)
    ensures code == Encode(sample)
  {
    var sign := if sample < 0 then 0x80 else 0;
    var exponent: nat := 7;
    var mask: nat := 0x4000;
    var mag := sample;
    if mag < 0 {
      mag := -mag;
    }
    if mag > CLIP {
      mag := CLIP;
    }
    mag := mag + BIAS;
    while exponent > 0 && !BitSet(mag, mask)
      invariant 0 <= exponent <= 7 && mask == 128 * Scale(exponent) && mag == Biased(sample)
      invariant mag < 2 * mask
    {
      BitBelow(mag, exponent);
      exponent := exponent - 1;
      mask := mask / 2;
    }
    if exponent > 0 {
      BitBelow(mag, exponent);
    }
    SegmentUnique(mag, exponent);
    var mantissa := Mantissa(mag, exponent);
    code := 255 - (sign + 16 * exponent + mantissa);
  }

  /** Below twice the mask, the masked bit is set exactly from the mask on. */
  lemma BitBelow(m: nat, e: nat)
    requires 1 <= e <= 7 && m < 256 * Scale(e)
    ensures BitSet(m, 128 * Scale(e)) <==> m >= 128 * Scale(e)
    ensures 128 * Scale(e) / 2 == 128 * Scale(e - 1)
  {
  }

  lemma SegmentUnique(m: nat, e: nat)
    requires 132 <= m < 32768 && e <= 7 && m < 256 * Scale(e) && (e > 0 ==> 128 * Scale(e) <= m)
    ensures e == Segment(m)
  {
  }

  // ----- the quantiser -----

  function Quantise(sample: int): int {
    Decode(Encode(sample))
  }

  /** The quantiser on magnitudes: the middle of the step that the biased magnitude lies in. */
  function Middle(m: nat): int
    requires 132 <= m < 32768
  {
    var e := Segment(m);
    8 * Scale(e) * (m / (8 * Scale(e))) + 4 * Scale(e) - BIAS
  }

  lemma EncodeFields(sample: int)
    ensures var v := 255 - Encode(sample);
            var m := Biased(sample);
            && v / 128 == (if sample < 0 then 1 else 0) && v / 16 % 8 == Segment(m) && v % 16 == Mantissa(m, Segment(m))
  {
    Unpack(if sample < 0 then 1 else 0, SegmentOf(sample), Mantissa(Biased(sample), SegmentOf(sample)));
  }

  lemma Unpack(s: nat, e: nat, mantissa: nat)
    requires s <= 1 && e <= 7 && mantissa < 16
    ensures var v := 128 * s + 16 * e + mantissa; v / 128 == s && v / 16 % 8 == e && v % 16 == mantissa
  {
  }

  lemma LevelIsMiddle(m: nat)
    requires 132 <= m < 32768
    ensures Level(Segment(m), Mantissa(m, Segment(m))) == Middle(m)
  {
    var e := Segment(m);
    var q := m / (8 * Scale(e));
    StepRange(m, e);
    assert Mantissa(m, e) == q - 16;
    Products(q, e);
  }

  lemma StepRange(m: nat, e: nat)
    requires e <= 7 && 128 * Scale(e) <= m < 256 * Scale(e)
    ensures 16 <= m / (8 * Scale(e)) < 32
  {
  }

  lemma Products(q: nat, e: nat)
    requires 16 <= q < 32 && e <= 7
    ensures ((q - 16) * 8 + BIAS) * Scale(e) == 8 * Scale(e) * q + 4 * Scale(e)
  {
  }

  /** Decoding an encoded sample gives its sign and the middle of its step. */
  lemma QuantiseIs(sample: int)
    ensures Quantise(sample) == if sample < 0 then -Middle(Biased(sample)) else Middle(Biased(sample))
  {
    hide Encode, Level, Middle, Mantissa;
    EncodeFields(sample);
    LevelIsMiddle(Biased(sample));
  }

  /** The middle of a step is at most half a step away. */
  lemma MiddleClose(m: nat)
    requires 132 <= m < 32768
    ensures Abs(Middle(m) - (m - BIAS)) <= 4 * Scale(Segment(m))
    ensures 0 <= Middle(m) <= 32124
  {
    var e := Segment(m);
    DivBounds(m, e);
    LevelIsMiddle(m);
  }

  lemma DivBounds(m: nat, e: nat)
    requires e <= 7
    ensures 8 * Scale(e) * (m / (8 * Scale(e))) <= m < 8 * Scale(e) * (m / (8 * Scale(e))) + 8 * Scale(e)
  {
  }

  /** Decoding an encoded sample is within 4 * 2^e of the clipped sample, where e is its segment. */
  lemma QuantiseClose(sample: int)
    ensures Abs(Quantise(sample) - Clip(sample)) <= 4 * Scale(SegmentOf(sample))
  {
    hide Quantise, Middle;
    QuantiseIs(sample);
    MiddleClose(Biased(sample));
  }

  /** The middle stays in its own segment and step. */
  lemma MiddleInStep(m: nat)
    requires 132 <= m < 32768
    ensures var b := Middle(m) + BIAS; 132 <= b < 32768 && Segment(b) == Segment(m) && Middle(b) == Middle(m)
  {
    var e := Segment(m);
    var b := Middle(m) + BIAS;
    var q := m / (8 * Scale(e));
    StepRange(m, e);
    assert b == 8 * Scale(e) * q + 4 * Scale(e);
    MiddleRange(q, e);
    SegmentUnique(b, e);
    SameStep(q, e);
  }

  lemma MiddleRange(q: nat, e: nat)
    requires 16 <= q < 32 && e <= 7
    ensures 132 <= 128 * Scale(e) + 4 * Scale(e) <= 8 * Scale(e) * q + 4 * Scale(e) <= 256 * Scale(e) - 4 * Scale(e)
    ensures 256 * Scale(e) <= 32768
  {
  }

  lemma SameStep(q: nat, e: nat)
    requires 16 <= q < 32 && e <= 7
    ensures (8 * Scale(e) * q + 4 * Scale(e)) / (8 * Scale(e)) == q
  {
  }

  lemma BiasedMiddle(m: nat, negative: bool)
    requires 132 <= m < 32768
    ensures Biased(if negative then -Middle(m) else Middle(m)) == Middle(m) + BIAS
  {
    hide Middle;
    MiddleClose(m);
  }

  /** Quantising twice is quantising once. */
  lemma QuantiseIdempotent(sample: int)
    ensures Quantise(Quantise(sample)) == Quantise(sample)
  {
    hide Quantise, Middle, Segment, Biased;
    var m := Biased(sample);
    var q := Quantise(sample);
    QuantiseIs(sample);
    QuantiseIs(q);
    MiddleClose(m);
    MiddleInStep(m);
    BiasedMiddle(m, sample < 0);
  }

  /** Larger magnitudes have no smaller middles. */
  lemma MiddleMonotone(m: nat, n: nat)
    requires 132 <= m <= n < 32768
    ensures Middle(m) <= Middle(n)
  {
    var e, f := Segment(m), Segment(n);
    var p, q := m / (8 * Scale(e)), n / (8 * Scale(f));
    StepRange(m, e);
    StepRange(n, f);
    MiddleRange(p, e);
    MiddleRange(q, f);
    SegmentMonotone(m, n);
    if e == f {
      DivMonotone(m, n, e);
    } else {
      ScaleDoubles(e, f);
    }
  }

  lemma SegmentMonotone(m: nat, n: nat)
    requires 132 <= m <= n < 32768
    ensures Segment(m) <= Segment(n)
  {
  }

  lemma DivMonotone(m: nat, n: nat, e: nat)
    requires m <= n && e <= 7
    ensures m / (8 * Scale(e)) <= n / (8 * Scale(e))
    ensures 8 * Scale(e) * (m / (8 * Scale(e))) <= 8 * Scale(e) * (n / (8 * Scale(e)))
  {
  }

  lemma ScaleDoubles(e: nat, f: nat)
    requires e < f <= 7
    ensures 2 * Scale(e) <= Scale(f)
  {
  }

  /** The quantiser keeps the order of samples. */
  lemma QuantiseMonotone(s: int, t: int)
    requires s <= t
    ensures Quantise(s) <= Quantise(t)
  {
    hide Quantise, Middle;
    QuantiseIs(s);
    QuantiseIs(t);
    MiddleClose(Biased(s));
    MiddleClose(Biased(t));
    if 0 <= s {
      MiddleMonotone(Biased(s), Biased(t));
    } else if t < 0 {
      MiddleMonotone(Biased(t), Biased(s));
    }
  }

  /** A level lies in its own segment and step. */
  lemma LevelFields(e: nat, mantissa: nat)
    requires e <= 7 && mantissa < 16
    ensures var b := Level(e, mantissa) + BIAS;
            && 132 <= b < 32768 && Level(e, mantissa) <= CLIP
            && Segment(b) == e && Mantissa(b, e) == mantissa
            && (Level(e, mantissa) == 0 <==> e == 0 && mantissa == 0)
  {
    var b := Level(e, mantissa) + BIAS;
    Products(mantissa + 16, e);
    MiddleRange(mantissa + 16, e);
    SegmentUnique(b, e);
    SameStep(mantissa + 16, e);
  }

  lemma Repack(v: nat)
    requires v < 256
    ensures v == 128 * (v / 128) + 16 * (v / 16 % 8) + v % 16 && v / 128 <= 1
  {
  }

  /** Encoding a decoded code gives it back, except for the code of negative zero. */
  lemma DecodeEncode(code: byte)
    ensures Encode(Decode(code)) == code <==> code != 0x7F
  {
    hide Level, Segment, Mantissa;
    var v := 255 - code;
    LevelFields(v / 16 % 8, v % 16);
    Repack(v);
  }

  // ----- tables and bulk conversion -----

  /** The two tables and the flag that says they are filled. */
  class Tables {
    const toUlaw: array<byte>
    const toPcm: array<pcm16>
    var ready: bool

    ghost predicate Valid()
      reads this, toUlaw, toPcm
    {
      && toUlaw.Length == 65536 && toPcm.Length == 256
      && (ready ==> Filled())
    }

    ghost predicate Filled()
      requires toUlaw.Length == 65536 && toPcm.Length == 256
      reads this, toUlaw, toPcm
    {
      && (forall i :: 0 <= i < 65536 ==> toUlaw[i] == Encode(i - 32768))
      && (forall i :: 0 <= i < 256 ==> toPcm[i] == Decode(i))
    }

    constructor ()
      ensures Valid() && fresh(toUlaw) && fresh(toPcm) && !ready
    {
      toUlaw := new byte[65536](i => 0);
      toPcm := new pcm16[256](i => 0);
      ready := false;
    }

    /** ensure_tables: fills both tables once. */
    method EnsureTables()
      requires Valid()
      modifies this`ready, toUlaw, toPcm
      ensures Valid() && ready
    {
      hide Encode, Decode;
      if ready {
        return;
      }
      var i := -32768;
      while i <= 32767
        invariant -32768 <= i <= 32768
        invariant forall j :: 0 <= j < i + 32768 ==> toUlaw[j] == Encode(j - 32768)
      {
        var code := LinearToUlawScalar(i);
        toUlaw[i + 32768] := code;
        i := i + 1;
      }
      i := 0;
      while i < 256
        invariant 0 <= i <= 256
        invariant forall j :: 0 <= j < 65536 ==> toUlaw[j] == Encode(j - 32768)
        invariant forall j :: 0 <= j < i ==> toPcm[j] == Decode(j)
      {
        toPcm[i] := Decode(i);
        i := i + 1;
      }
      ready := true;
    }

    /** Bulk encoding through the table is the scalar encoding of every sample. */
    method LinearToUlaw(samples: seq<pcm16>) returns (out: seq<byte>)
      requires Valid()
      modifies this`ready, toUlaw, toPcm
      ensures Valid() && |out| == |samples| && forall i :: 0 <= i < |samples| ==> out[i] == Encode(samples[i])
    {
      hide Encode, Decode;
      EnsureTables();
      out := [];
      var i := 0;
      while i < |samples|
        invariant 0 <= i <= |samples| && |out| == i
        invariant forall j :: 0 <= j < i ==> out[j] == Encode(samples[j])
      {
        out := out + [toUlaw[samples[i] + 32768]];
        i := i + 1;
      }
    }

    /** Bulk decoding through the table is the scalar decoding of every code. */
    method UlawToLinear(codes: seq<byte>) returns (out: seq<pcm16>)
      requires Valid()
      modifies this`ready, toUlaw, toPcm
      ensures Valid() && |out| == |codes| && forall i :: 0 <= i < |codes| ==> out[i] == Decode(codes[i])
    {
      hide Encode, Decode;
      EnsureTables();
      out := [];
      var i := 0;
      while i < |codes|
        invariant 0 <= i <= |codes| && |out| == i
        invariant forall j :: 0 <= j < i ==> out[j] == Decode(codes[j])
      {
        out := out + [toPcm[codes[i]]];
        i := i + 1;
      }
    }
  }
}
