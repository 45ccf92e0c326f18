/**
 The RTP packet parser (src/rtp.c): the byte layout of sections 5.1 and 5.3.1 of RFC 3550, the error
 codes in the order in which the parser tests for them, and an independent specification encoder that
 the parser inverts.
 */
module Rtp {
  import opened Common

  const HEADER_LEN := 12
  const EXT_HEADER_LEN := 4
  const NSAMPLES_UNKNOWN := -1

  const PCMU := 0
  const GSM := 3
  const G723 := 4
  const PCMA := 8
  const G722 := 9
  const G729 := 18

  datatype ParseError =
    | TooShort            // RTP_PARSER_PTOOSHRT
    | BadVersion          // RTP_PARSER_IHDRVER
    | TooShortExtHeader   // RTP_PARSER_PTOOSHRTXS
    | TooShortExt         // RTP_PARSER_PTOOSHRTXH
    | TooShortPadSize     // RTP_PARSER_PTOOSHRTPS
    | TooShortPadding     // RTP_PARSER_PTOOSHRTP
    | BadPadSize          // RTP_PARSER_IPS

  /** What the parser fills in; the profile pointer is the index into the profile table. */
  datatype Info = Info(
    dataSize: nat,
    dataOffset: nat,
    nsamples: int,
    ts: nat,
    seqno: nat,
    ssrc: nat,
    appendable: bool,
    profile: nat)

  datatype ParseResult = Parsed(info: Info) | Malformed(error: ParseError)

  // ----- big-endian fields -----

  function Be16(b: seq<byte>, k: nat): (r: nat)
    requires k + 2 <= |b|
    ensures r < 0x1_0000
  {
    256 * (b[k] as int) + b[k + 1]
  }

  function Be32(b: seq<byte>, k: nat): (r: nat)
    requires k + 4 <= |b|
    ensures r < 0x1_0000_0000
  {
    0x1_0000 * Be16(b, k) + Be16(b, k + 2)
  }

  function Put16(v: nat): (r: seq<byte>)
    requires v < 0x1_0000
    ensures |r| == 2 && Be16(r, 0) == v
  {
    [v / 256, v % 256]
  }

  function Put32(v: nat): (r: seq<byte>)
    requires v < 0x1_0000_0000
    ensures |r| == 4 && Be32(r, 0) == v
  {
    Put16(v / 0x1_0000) + Put16(v % 0x1_0000)
  }

  // ----- the bit fields of the first two octets -----

  function Version(b0: byte): nat { b0 / 64 }
  function PadBit(b0: byte): nat { b0 / 32 % 2 }
  function ExtBit(b0: byte): nat { b0 / 16 % 2 }
  function CsrcCount(b0: byte): nat { b0 % 16 }
  function PayloadType(b1: byte): (pt: nat)
    ensures pt < 128
  {
    b1 % 128
  }

  // ----- samples per payload -----

  /** The length of a G.723 frame by its first octet; none for the reserved code. */
  function G723FrameLen(ch: byte): int {
    match ch % 4
    case 2 => 4
    case 0 => 24
    case 1 => 20
    case _ => NSAMPLES_UNKNOWN
  }

  /** The samples counted by a walk over G.723 frames from pos on: unknown as soon as it meets a reserved code. */
  function G723Samples(data: seq<byte>, pos: nat): (samples: int)
    ensures samples == NSAMPLES_UNKNOWN || samples >= 0
    decreases |data| - pos
  {
    if pos >= |data| then 0
    else
      var n := G723FrameLen(data[pos]);
      if n == NSAMPLES_UNKNOWN then NSAMPLES_UNKNOWN
      else
        var rest := G723Samples(data, pos + n);
        if rest == NSAMPLES_UNKNOWN then NSAMPLES_UNKNOWN else 240 + rest
  }

  method CountG723Samples(data: seq<byte>) returns (samples: int)
    ensures samples == G723Samples(data, 0)
  {
    var pos := 0;
    samples := 0;
    while pos < |data|
      invariant 0 <= pos && samples >= 0
      invariant var rest := G723Samples(data, pos);
                G723Samples(data, 0) == if rest == NSAMPLES_UNKNOWN then NSAMPLES_UNKNOWN else samples + rest
      decreases |data| - pos
    {
      samples := samples + 240;
      var n := G723FrameLen(data[pos]);
      if n == NSAMPLES_UNKNOWN {
        return NSAMPLES_UNKNOWN;
      }
      pos := pos + n;
    }
  }

  /** A partition of the payload into frames: consecutive header offsets, each inside the payload. */
  ghost predicate G723Frames(data: seq<byte>, starts: seq<nat>) {
    && (forall i :: 0 <= i < |starts| ==> starts[i] < |data| && G723FrameLen(data[starts[i]]) != NSAMPLES_UNKNOWN)
    && (forall i :: 0 <= i < |starts| - 1 ==> starts[i + 1] == starts[i] + G723FrameLen(data[starts[i]]))
  }

  /** A known count is 240 for each frame of a partition that runs from pos past the end of the payload. */
  lemma {:induction false} G723SamplesCountFrames(data: seq<byte>, pos: nat) returns (starts: seq<nat>)
    requires G723Samples(data, pos) != NSAMPLES_UNKNOWN
    ensures G723Frames(data, starts)
    ensures G723Samples(data, pos) == 240 * |starts|
    ensures pos < |data| <==> starts != []
    ensures starts != [] ==>
              var last := starts[|starts| - 1];
              starts[0] == pos && last + G723FrameLen(data[last]) >= |data|
    decreases |data| - pos
  {
    if pos >= |data| {
      starts := [];
    } else {
      var rest := G723SamplesCountFrames(data, pos + G723FrameLen(data[pos]));
      starts := [pos] + rest;
    }
  }

  function CalcSamples(codec: nat, data: seq<byte>): int {
    if codec == PCMU || codec == PCMA then |data|
    else if codec == G729 then |data| / 10 * 80 + (if |data| % 10 == 0 then 0 else 80)
    else if codec == GSM then 160 * (|data| / 33)
    else if codec == G723 then G723Samples(data, 0)
    else if codec == G722 then |data|
    else NSAMPLES_UNKNOWN
  }

  // ----- the parser -----

  /** Where the payload begins: the fixed header, the CSRC list and, if present, the extension. */
  function PayloadOffset(b: seq<byte>): nat
    requires |b| >= HEADER_LEN
    requires ExtBit(b[0]) != 0 ==> |b| >= HEADER_LEN + 4 * CsrcCount(b[0]) + EXT_HEADER_LEN
  {
    var fixedLen := HEADER_LEN + 4 * CsrcCount(b[0]);
    if ExtBit(b[0]) != 0 then fixedLen + EXT_HEADER_LEN + 4 * Be16(b, fixedLen + 2) else fixedLen
  }

  function PaddingSize(b: seq<byte>): nat
    requires |b| >= HEADER_LEN
  {
    if PadBit(b[0]) != 0 then b[|b| - 1] else 0
  }

  function InfoAt(b: seq<byte>, offset: nat, size: nat): Info
    requires HEADER_LEN <= offset && offset + size <= |b|
  {
    var pt := PayloadType(b[1]);
    Info(
      size,
      offset,
      if size == 0 then NSAMPLES_UNKNOWN else CalcSamples(pt, b[offset..offset + size]),
      Be32(b, 4),
      Be16(b, 2),
      Be32(b, 8),
      !(size != 0 && pt == G729 && size % 10 != 0),
      pt)
  }

  function Parse(b: seq<byte>): ParseResult {
    if |b| < HEADER_LEN then Malformed(TooShort)
    else if Version(b[0]) != 2 then Malformed(BadVersion)
    else if ExtBit(b[0]) != 0 && |b| < HEADER_LEN + 4 * CsrcCount(b[0]) + EXT_HEADER_LEN then Malformed(TooShortExtHeader)
    else
      var offset := PayloadOffset(b);
      if |b| < offset then Malformed(TooShortExt)
      else if PadBit(b[0]) != 0 && offset == |b| then Malformed(TooShortPadSize)
      else if PadBit(b[0]) != 0 && b[|b| - 1] == 0 then Malformed(BadPadSize)
      else if |b| < offset + PaddingSize(b) then Malformed(TooShortPadding)
      else Parsed(InfoAt(b, offset, |b| - offset - PaddingSize(b)))
  }

  /** The closing part of the parser, once header, extension and padding are known to fit. */
  method FillInfo(buf: seq<byte>, offset: nat, paddingSize: nat) returns (info: Info)
    requires HEADER_LEN <= offset && offset + paddingSize <= |buf|
    ensures info == InfoAt(buf, offset, |buf| - offset - paddingSize)
  {
    var pt := PayloadType(buf[1]);
    var size := |buf| - offset - paddingSize;
    info := Info(size, offset, NSAMPLES_UNKNOWN, Be32(buf, 4), Be16(buf, 2), Be32(buf, 8), true, pt);
    if size == 0 {
      return;
    }
    var payload := buf[offset..offset + size];
    if pt == G723 {
      var samples := CountG723Samples(payload);
      info := info.(nsamples := samples);
    } else {
      info := info.(nsamples := CalcSamples(pt, payload));
    }
    if pt == G729 && size % 10 != 0 {
      info := info.(appendable := false);
    }
  }

  /** The parser as it runs, filling the record field by field; every read is in bounds. */
  method ParseRaw(buf: seq<byte>) returns (r: ParseResult)
    ensures r == Parse(buf)
  {
    var paddingSize := 0;
    var info := Info(0, 0, NSAMPLES_UNKNOWN, 0, 0, 0, true, 0);
    if |buf| < HEADER_LEN {
      return Malformed(TooShort);
    }
    if Version(buf[0]) != 2 {
      return Malformed(BadVersion);
    }
    info := info.(dataOffset := HEADER_LEN + 4 * CsrcCount(buf[0]));
    if ExtBit(buf[0]) != 0 {
      if |buf| < info.dataOffset + EXT_HEADER_LEN {
        return Malformed(TooShortExtHeader);
      }
      var words := Be16(buf, info.dataOffset + 2);
      info := info.(dataOffset := info.dataOffset + EXT_HEADER_LEN + words * 4);
    }
    if |buf| < info.dataOffset {
      return Malformed(TooShortExt);
    }
    if PadBit(buf[0]) != 0 {
      if info.dataOffset == |buf| {
        return Malformed(TooShortPadSize);
      }
      paddingSize := buf[|buf| - 1];
      if paddingSize == 0 {
        return Malformed(BadPadSize);
      }
    }
    if |buf| < info.dataOffset + paddingSize {
      return Malformed(TooShortPadding);
    }
    info := FillInfo(buf, info.dataOffset, paddingSize);
    return Parsed(info);
  }

  // ----- the specification encoder -----

  datatype Extension = NoExt | Ext(defined: nat, body: seq<byte>)

  /** An RTP packet by its fields. The CSRC list and the extension body are octets, four to an entry. */
  datatype Packet = Packet(
    marker: bool,
    pt: nat,
    seqno: nat,
    ts: nat,
    ssrc: nat,
    csrc: seq<byte>,
    ext: Extension,
    payload: seq<byte>,
    padding: seq<byte>)

  /** The ranges of the fields; padding, if any, ends in an octet that counts it, itself included. */
  predicate ValidPacket(p: Packet) {
    && p.pt < 128
    && p.seqno < 0x1_0000
    && p.ts < 0x1_0000_0000
    && p.ssrc < 0x1_0000_0000
    && |p.csrc| % 4 == 0 && |p.csrc| < 64
    && (p.ext.Ext? ==> p.ext.defined < 0x1_0000 && |p.ext.body| % 4 == 0 && |p.ext.body| / 4 < 0x1_0000)
    && (p.padding != [] ==> p.padding[|p.padding| - 1] == |p.padding|)
  }

  function FirstOctet(p: Packet): byte
    requires ValidPacket(p)
  {
    128 + (if p.padding != [] then 32 else 0) + (if p.ext.Ext? then 16 else 0) + |p.csrc| / 4
  }

  function FixedHeader(p: Packet): (h: seq<byte>)
    requires ValidPacket(p)
    ensures |h| == HEADER_LEN
  {
    [FirstOctet(p), (if p.marker then 128 else 0) + p.pt] + Put16(p.seqno) + Put32(p.ts) + Put32(p.ssrc)
  }

  function EncodeExt(x: Extension): seq<byte>
    requires x.Ext? ==> x.defined < 0x1_0000 && |x.body| / 4 < 0x1_0000
  {
    match x
    case NoExt => []
    case Ext(defined, body) => Put16(defined) + Put16(|body| / 4) + body
  }

  function Encode(p: Packet): seq<byte>
    requires ValidPacket(p)
  {
    FixedHeader(p) + p.csrc + EncodeExt(p.ext) + p.payload + p.padding
  }

  function OffsetOf(p: Packet): nat
    requires ValidPacket(p)
  {
    HEADER_LEN + |p.csrc| + |EncodeExt(p.ext)|
  }

  function InfoOf(p: Packet): Info
    requires ValidPacket(p)
  {
    Info(
      |p.payload|,
      OffsetOf(p),
      if p.payload == [] then NSAMPLES_UNKNOWN else CalcSamples(p.pt, p.payload),
      p.ts,
      p.seqno,
      p.ssrc,
      !(p.payload != [] && p.pt == G729 && |p.payload| % 10 != 0),
      p.pt)
  }

  lemma EncodeLayout(p: Packet)
    requires ValidPacket(p)
    ensures var b := Encode(p);
            var offset := OffsetOf(p);
            && |b| == offset + |p.payload| + |p.padding|
            && b[..HEADER_LEN] == FixedHeader(p)
            && b[HEADER_LEN..HEADER_LEN + |p.csrc|] == p.csrc
            && b[HEADER_LEN + |p.csrc|..offset] == EncodeExt(p.ext)
            && b[offset..offset + |p.payload|] == p.payload
            && b[offset + |p.payload|..] == p.padding
  {
  }

  lemma Be16Slice(b: seq<byte>, lo: nat, hi: nat, k: nat)
    requires lo <= hi <= |b| && k + 2 <= hi - lo
    ensures Be16(b[lo..hi], k) == Be16(b, lo + k)
  {
  }

  /** The bit fields of the first octet, packed and unpacked. */
  lemma OctetFields(pad: bool, ext: bool, cc: nat)
    requires cc < 16
    ensures var o := 128 + (if pad then 32 else 0) + (if ext then 16 else 0) + cc;
            && 0 <= o < 256 && Version(o) == 2 && CsrcCount(o) == cc
            && (ExtBit(o) != 0 <==> ext) && (PadBit(o) != 0 <==> pad)
  {
  }

  lemma Be32Slice(b: seq<byte>, lo: nat, hi: nat, k: nat)
    requires lo <= hi <= |b| && k + 4 <= hi - lo
    ensures Be32(b[lo..hi], k) == Be32(b, lo + k)
  {
    Be16Slice(b, lo, hi, k);
    Be16Slice(b, lo, hi, k + 2);
  }

  lemma FixedHeaderFields(p: Packet)
    requires ValidPacket(p)
    ensures var h := FixedHeader(p);
            && h[0] == FirstOctet(p) && h[1] == (if p.marker then 128 else 0) + p.pt
            && Be16(h, 2) == p.seqno && Be32(h, 4) == p.ts && Be32(h, 8) == p.ssrc
  {
    var h := FixedHeader(p);
    assert h[2..4] == Put16(p.seqno) && h[4..8] == Put32(p.ts) && h[8..12] == Put32(p.ssrc);
    Be16Slice(h, 2, 4, 0);
    Be32Slice(h, 4, 8, 0);
    Be32Slice(h, 8, 12, 0);
  }

  lemma HeaderFields(p: Packet)
    requires ValidPacket(p)
    ensures var b := Encode(p);
            && |b| >= HEADER_LEN
            && b[0] == FirstOctet(p)
            && PayloadType(b[1]) == p.pt
            && Be16(b, 2) == p.seqno && Be32(b, 4) == p.ts && Be32(b, 8) == p.ssrc
  {
    var b := Encode(p);
    EncodeLayout(p);
    FixedHeaderFields(p);
    Be16Slice(b, 0, HEADER_LEN, 2);
    Be32Slice(b, 0, HEADER_LEN, 4);
    Be32Slice(b, 0, HEADER_LEN, 8);
    assert b[..HEADER_LEN][0] == b[0] && b[..HEADER_LEN][1] == b[1];
  }

  lemma EncodedOffset(p: Packet)
    requires ValidPacket(p)
    requires |Encode(p)| >= HEADER_LEN && Encode(p)[0] == FirstOctet(p)
    ensures var b := Encode(p);
            && Version(b[0]) == 2
            && (ExtBit(b[0]) != 0 ==> |b| >= HEADER_LEN + 4 * CsrcCount(b[0]) + EXT_HEADER_LEN)
            && PayloadOffset(b) == OffsetOf(p)
  {
    var b := Encode(p);
    EncodeLayout(p);
    OctetFields(p.padding != [], p.ext.Ext?, |p.csrc| / 4);
    var fixedLen := HEADER_LEN + |p.csrc|;
    if p.ext.Ext? {
      var x := EncodeExt(p.ext);
      assert x[2..4] == Put16(|p.ext.body| / 4);
      Be16Slice(x, 2, 4, 0);
      Be16Slice(b, fixedLen, OffsetOf(p), 2);
    }
  }

  lemma EncodedPadding(p: Packet)
    requires ValidPacket(p)
    requires |Encode(p)| >= HEADER_LEN && Encode(p)[0] == FirstOctet(p)
    ensures (PadBit(Encode(p)[0]) != 0 <==> p.padding != []) && PaddingSize(Encode(p)) == |p.padding|
  {
    var b := Encode(p);
    EncodeLayout(p);
    OctetFields(p.padding != [], p.ext.Ext?, |p.csrc| / 4);
    if p.padding != [] {
      assert b[|b| - |p.padding|..][|p.padding| - 1] == b[|b| - 1];
    }
  }

  /** The parser recovers every field of an encoded packet. */
  lemma ParseEncode(p: Packet)
    requires ValidPacket(p)
    ensures Parse(Encode(p)) == Parsed(InfoOf(p))
  {
    EncodeLayout(p);
    HeaderFields(p);
    EncodedOffset(p);
    EncodedPadding(p);
  }

  /** Reads the fields back out of an accepted byte string. */
  function Decode(b: seq<byte>): Packet
    requires Parse(b).Parsed?
  {
    var info := Parse(b).info;
    var fixedLen := HEADER_LEN + 4 * CsrcCount(b[0]);
    Packet(
      b[1] / 128 == 1,
      PayloadType(b[1]),
      Be16(b, 2),
      Be32(b, 4),
      Be32(b, 8),
      b[HEADER_LEN..fixedLen],
      if ExtBit(b[0]) != 0 then Ext(Be16(b, fixedLen), b[fixedLen + EXT_HEADER_LEN..info.dataOffset]) else NoExt,
      b[info.dataOffset..info.dataOffset + info.dataSize],
      b[info.dataOffset + info.dataSize..])
  }

  lemma Put16Be16(b: seq<byte>, k: nat)
    requires k + 2 <= |b|
    ensures Put16(Be16(b, k)) == b[k..k + 2]
  {
  }

  lemma Put32Be32(b: seq<byte>, k: nat)
    requires k + 4 <= |b|
    ensures Put32(Be32(b, k)) == b[k..k + 4]
  {
    Put16Be16(b, k);
    Put16Be16(b, k + 2);
    assert b[k..k + 4] == b[k..k + 2] + b[k + 2..k + 4];
  }

  lemma DecodeValid(b: seq<byte>)
    requires Parse(b).Parsed?
    ensures ValidPacket(Decode(b))
    ensures |Decode(b).padding| == PaddingSize(b)
  {
    var p := Decode(b);
    assert |p.padding| == PaddingSize(b);
    if p.padding != [] {
      assert p.padding[|p.padding| - 1] == b[|b| - 1];
    }
  }

  lemma OctetRebuilt(o: byte)
    requires Version(o) == 2
    ensures o == 128 + (if PadBit(o) != 0 then 32 else 0) + (if ExtBit(o) != 0 then 16 else 0) + CsrcCount(o)
  {
  }

  lemma DecodeHeader(b: seq<byte>)
    requires Parse(b).Parsed?
    ensures ValidPacket(Decode(b)) && FixedHeader(Decode(b)) == b[..HEADER_LEN]
  {
    DecodeValid(b);
    OctetRebuilt(b[0]);
    Put16Be16(b, 2);
    Put32Be32(b, 4);
    Put32Be32(b, 8);
    assert b[..HEADER_LEN] == [b[0], b[1]] + b[2..4] + b[4..8] + b[8..12];
  }

  lemma DecodeExt(b: seq<byte>)
    requires Parse(b).Parsed?
    ensures ValidPacket(Decode(b))
    ensures EncodeExt(Decode(b).ext) == b[HEADER_LEN + 4 * CsrcCount(b[0])..Parse(b).info.dataOffset]
  {
    DecodeValid(b);
    var fixedLen := HEADER_LEN + 4 * CsrcCount(b[0]);
    var offset := Parse(b).info.dataOffset;
    if ExtBit(b[0]) != 0 {
      Put16Be16(b, fixedLen);
      Put16Be16(b, fixedLen + 2);
      assert b[fixedLen..offset] == b[fixedLen..fixedLen + 2] + b[fixedLen + 2..fixedLen + 4] + b[fixedLen + 4..offset];
    }
  }

  lemma FiveSlices(b: seq<byte>, i: nat, j: nat, k: nat, l: nat)
    requires i <= j <= k <= l <= |b|
    ensures b == b[..i] + b[i..j] + b[j..k] + b[k..l] + b[l..]
  {
  }

  /** Every accepted byte string is the encoding of a packet with fields in range. */
  lemma EncodeDecode(b: seq<byte>)
    requires Parse(b).Parsed?
    ensures ValidPacket(Decode(b)) && Encode(Decode(b)) == b
  {
    DecodeHeader(b);
    DecodeExt(b);
    var info := Parse(b).info;
    var fixedLen := HEADER_LEN + 4 * CsrcCount(b[0]);
    var cut := info.dataOffset + info.dataSize;
    FiveSlices(b, HEADER_LEN, fixedLen, info.dataOffset, cut);
  }

  /** The parser accepts exactly the encodings of well-formed packets. */
  lemma ParserAcceptsExactly(b: seq<byte>)
    ensures Parse(b).Parsed? <==> exists p :: ValidPacket(p) && Encode(p) == b
  {
    if Parse(b).Parsed? {
      EncodeDecode(b);
    }
    forall p | ValidPacket(p) && Encode(p) == b
      ensures Parse(b).Parsed?
    {
      ParseEncode(p);
    }
  }

  /** Header, payload and padding fill an accepted packet exactly, and the fields fit their widths. */
  lemma ParsedExtent(b: seq<byte>)
    requires Parse(b).Parsed?
    ensures var info := Parse(b).info;
            && HEADER_LEN <= info.dataOffset
            && info.dataOffset + info.dataSize + |Decode(b).padding| == |b|
            && info.seqno < 0x1_0000 && info.ts < 0x1_0000_0000
            && Decode(b).payload == b[info.dataOffset..info.dataOffset + info.dataSize]
  {
    DecodeValid(b);
  }

  // ----- samples, spelled out -----

  /** The frames of G.723 by the two low bits of their first octet: 24, 20 or 4 octets, and one code that is reserved. */
  lemma G723Lengths(ch: byte)
    ensures ch % 4 == 0 ==> G723FrameLen(ch) == 24
    ensures ch % 4 == 1 ==> G723FrameLen(ch) == 20
    ensures ch % 4 == 2 ==> G723FrameLen(ch) == 4
    ensures ch % 4 == 3 <==> G723FrameLen(ch) == -1
  {
  }

  /** A count is unknown exactly because the walk comes to a frame with the reserved code. */
  lemma {:induction false} G723UnknownMeetsReserved(data: seq<byte>, pos: nat) returns (starts: seq<nat>, at: nat)
    requires G723Samples(data, pos) == NSAMPLES_UNKNOWN
    ensures G723Frames(data, starts) && at < |data| && data[at] % 4 == 3
    ensures if starts == [] then at == pos
            else starts[0] == pos && at == starts[|starts| - 1] + G723FrameLen(data[starts[|starts| - 1]])
    decreases |data| - pos
  {
    if G723FrameLen(data[pos]) == NSAMPLES_UNKNOWN {
      starts, at := [], pos;
    } else {
      var rest;
      rest, at := G723UnknownMeetsReserved(data, pos + G723FrameLen(data[pos]));
      starts := [pos] + rest;
    }
  }

  /** The number of samples and the other derived fields of a parsed packet, by its payload type: an octet each for G.711
      and G.722; 80 for every frame of 10 octets begun in G.729; 160 for every whole frame of 33 octets in GSM; the frame
      walk for G.723; otherwise, and for an empty payload, unknown. */
  lemma ParsedSamples(p: Packet)
    requires ValidPacket(p)
    ensures Parse(Encode(p)).Parsed?
    ensures var info := Parse(Encode(p)).info;
            var n := info.nsamples;
            var size := |p.payload|;
            && (size == 0 ==> n == -1)
            && (size > 0 && p.pt in {0, 8, 9} ==> n == size)
            && (size > 0 && p.pt == 18 ==> n % 80 == 0 && 10 * (n / 80) >= size > 10 * (n / 80 - 1))
            && (size > 0 && p.pt == 3 ==> n % 160 == 0 && 33 * (n / 160) <= size < 33 * (n / 160 + 1))
            && (size > 0 && p.pt == 4 ==> n == G723Samples(p.payload, 0))
            && (p.pt !in {0, 3, 4, 8, 9, 18} ==> n == -1)
            && (info.appendable <==> p.pt != 18 || size % 10 == 0)
            && info.profile == p.pt
  {
    hide Parse, Encode, G723Samples;
    ParseEncode(p);
    G729Count(|p.payload|);
    GsmCount(|p.payload|);
  }

  lemma G729Count(size: nat)
    ensures var n := size / 10 * 80 + (if size % 10 == 0 then 0 else 80);
            n % 80 == 0 && 10 * (n / 80) >= size > 10 * (n / 80 - 1)
  {
  }

  lemma GsmCount(size: nat)
    ensures var n := 160 * (size / 33); n % 160 == 0 && 33 * (n / 160) <= size < 33 * (n / 160 + 1)
  {
  }

  // ----- errors, spelled out -----

  /** Where header, CSRC list and extension end, by the octets. */
  function HeaderEnd(b: seq<byte>): nat
    requires |b| >= 12
    requires b[0] / 16 % 2 == 1 ==> |b| >= 16 + 4 * (b[0] % 16)
  {
    var csrcEnd := 12 + 4 * (b[0] % 16);
    if b[0] / 16 % 2 == 1 then csrcEnd + 4 + 4 * (256 * b[csrcEnd + 2] as int + b[csrcEnd + 3]) else csrcEnd
  }

  /** Why a byte string is rejected, by its octets: each error has its own condition, and exactly one of the conditions or
      acceptance holds. */
  lemma ParseErrorIff(b: seq<byte>)
    ensures var r := Parse(b);
            var complete := |b| >= 12 && b[0] / 64 == 2;
            var extended := complete && (b[0] / 16 % 2 == 1 ==> |b| >= 16 + 4 * (b[0] % 16));
            var whole := extended && |b| >= HeaderEnd(b);
            var padded := whole && b[0] / 32 % 2 == 1;
            && (r == Malformed(TooShort) <==> |b| < 12)
            && (r == Malformed(BadVersion) <==> |b| >= 12 && b[0] / 64 != 2)
            && (r == Malformed(TooShortExtHeader) <==> complete && !extended)
            && (r == Malformed(TooShortExt) <==> extended && !whole)
            && (r == Malformed(TooShortPadSize) <==> padded && |b| == HeaderEnd(b))
            && (r == Malformed(BadPadSize) <==> padded && |b| > HeaderEnd(b) && b[|b| - 1] == 0)
            && (r == Malformed(TooShortPadding) <==>
                  padded && HeaderEnd(b) < |b| < HeaderEnd(b) + b[|b| - 1] && b[|b| - 1] != 0)
            && (r.Parsed? <==> whole && (padded ==> 0 < b[|b| - 1] && |b| > HeaderEnd(b) && |b| >= HeaderEnd(b) + b[|b| - 1]))
  {
    hide CalcSamples;
  }
}
