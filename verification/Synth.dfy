/**
 The packet generator (src/rtpsynth.c): a model header and counters that advance with every packet.
 */
module Synth {
  import opened Common
  import opened Rtp

  /** The counters are 64-bit; the header takes their low 16 and 32 bits. The SSRC is the value as it stands in the header. */
  datatype Counters = Counters(seqno: nat, ts: nat, tsInc: int, marker: bool, ssrc: nat)

  predicate Valid(c: Counters) {
    c.seqno < TWO64 && c.ts < TWO64 && c.ssrc < 0x1_0000_0000
  }

  /** The packet the generator makes next for a payload. */
  function NextPacket(c: Counters, payload: seq<byte>, pt: int): (p: Packet)
    requires Valid(c)
    ensures ValidPacket(p) && p.payload == payload
  {
    Packet(c.marker, pt % 128, c.seqno % 0x1_0000, c.ts % 0x1_0000_0000, c.ssrc, [], NoExt, payload, [])
  }

  function Advance(c: Counters): (r: Counters)
    requires Valid(c)
    ensures Valid(r)
  {
    c.(marker := false,
       seqno := (c.seqno + 1) % 0x1_0000_0000_0000_0000,
       ts := (c.ts + c.tsInc) % 0x1_0000_0000_0000_0000)
  }

  function SkipTicks(c: Counters, n: int): (r: Counters)
    requires Valid(c)
    ensures Valid(r)
  {
    c.(ts := (c.ts + c.tsInc * n) % 0x1_0000_0000_0000_0000)
  }

  datatype Call = Next(payload: seq<byte>, pt: int) | Skip(n: int) | SetMarker(on: bool)

  /** The packets made by any sequence of calls. */
  function Packets(c: Counters, calls: seq<Call>): (ps: seq<Packet>)
    requires Valid(c)
    ensures forall i :: 0 <= i < |ps| ==> ValidPacket(ps[i])
    decreases |calls|
  {
    if calls == [] then []
    else
      match calls[0]
      case Next(payload, pt) => [NextPacket(c, payload, pt)] + Packets(Advance(c), calls[1..])
      case Skip(n) => Packets(SkipTicks(c, n), calls[1..])
      case SetMarker(on) => Packets(c.(marker := on), calls[1..])
  }

  /** The payloads asked for, in order. */
  function Payloads(calls: seq<Call>): seq<seq<byte>> {
    if calls == [] then []
    else (if calls[0].Next? then [calls[0].payload] else []) + Payloads(calls[1..])
  }

  /** The sequence number and the timestamp that stand a number of steps ahead. */
  function SeqnoAt(c: Counters, i: int): int {
    (c.seqno + i) % 0x1_0000
  }

  function TsAt(c: Counters, n: int): int {
    (c.ts + c.tsInc * n) % 0x1_0000_0000
  }

  lemma PacketsUnfold(c: Counters, calls: seq<Call>)
    requires Valid(c) && calls != []
    ensures var rest := Packets(After(c, calls[0]), calls[1..]);
            Packets(c, calls) == if calls[0].Next? then [NextPacket(c, calls[0].payload, calls[0].pt)] + rest else rest
  {
  }

  /** The counters after a call. */
  function After(c: Counters, call: Call): (r: Counters)
    requires Valid(c)
    ensures Valid(r)
  {
    match call
    case Next(_, _) => Advance(c)
    case Skip(n) => SkipTicks(c, n)
    case SetMarker(on) => c.(marker := on)
  }

  lemma WrappedSum(a: int, b: int)
    ensures (a % 0x1_0000_0000_0000_0000 + b) % 0x1_0000_0000 == (a + b) % 0x1_0000_0000
  {
  }

  lemma Factor(inc: int, n: int, x: int)
    ensures inc * n + inc * x == inc * (n + x)
  {
  }

  /** What a call adds to the timestamps of the packets after it. */
  lemma TsAfter(c: Counters, call: Call, n: int)
    requires Valid(c)
    ensures TsAt(After(c, call), n) == TsAt(c, (if call.Next? then 1 else if call.Skip? then call.n else 0) + n)
  {
    match call
    case Next(_, _) =>
      WrappedSum(c.ts + c.tsInc, c.tsInc * n);
      Factor(c.tsInc, 1, n);
    case Skip(m) =>
      WrappedSum(c.ts + c.tsInc * m, c.tsInc * n);
      Factor(c.tsInc, m, n);
    case SetMarker(_) =>
  }

  /** What a call adds to their numbers, and what it does to the rest. */
  lemma SeqnoAfter(c: Counters, call: Call, i: int)
    requires Valid(c)
    ensures var r := After(c, call);
            && SeqnoAt(r, i) == SeqnoAt(c, (if call.Next? then 1 else 0) + i)
            && r.ssrc == c.ssrc && r.marker == MarkAfter(c.marker, call)
  {
  }

  lemma FirstPacket(c: Counters, payload: seq<byte>, pt: int)
    requires Valid(c)
    ensures var p := NextPacket(c, payload, pt);
            && p.seqno == SeqnoAt(c, 0) && p.ts == TsAt(c, 0) && p.payload == payload && p.pt == pt % 128
            && p.ssrc == c.ssrc && p.marker == c.marker && p.csrc == [] && p.ext == NoExt && p.padding == []
  {
  }

  /** Whatever else is called in between, the packets carry consecutive sequence numbers and the payloads asked for. */
  lemma {:induction false} PacketsConsecutive(c: Counters, calls: seq<Call>)
    requires Valid(c)
    ensures var ps := Packets(c, calls);
            && |ps| == |Payloads(calls)|
            && forall i :: 0 <= i < |ps| ==> ps[i].payload == Payloads(calls)[i] && ps[i].seqno == (c.seqno + i) % 0x1_0000
    decreases |calls|
  {
    NumberedInOrder(c, calls);
  }

  lemma {:induction false} NumberedInOrder(c: Counters, calls: seq<Call>)
    requires Valid(c)
    ensures var ps := Packets(c, calls);
            && |ps| == |Payloads(calls)|
            && forall i :: 0 <= i < |ps| ==> ps[i].payload == Payloads(calls)[i] && ps[i].seqno == SeqnoAt(c, i)
    decreases |calls|
  {
    if calls != [] {
      PacketsUnfold(c, calls);
      hide Packets, After, NextPacket, SeqnoAt, Valid;
      var call, rest := calls[0], calls[1..];
      NumberedInOrder(After(c, call), rest);
      var ps := Packets(c, calls);
      if call.Next? {
        FirstPacket(c, call.payload, call.pt);
      }
      forall i | 0 <= i < |ps|
        ensures ps[i].payload == Payloads(calls)[i] && ps[i].seqno == SeqnoAt(c, i)
      {
        SeqnoAfter(c, call, if call.Next? then i - 1 else i);
      }
    }
  }

  // ----- the packet of each call -----

  /** How many packets were asked for. */
  function Asked(calls: seq<Call>): nat {
    if calls == [] then 0 else (if calls[0].Next? then 1 else 0) + Asked(calls[1..])
  }

  /** How many packets were skipped in all. */
  function Skipped(calls: seq<Call>): int {
    if calls == [] then 0 else (if calls[0].Skip? then calls[0].n else 0) + Skipped(calls[1..])
  }

  /** The call at k finds the marker set: a call set it, or it was set from the start, and nothing but skips came since. */
  ghost predicate Marked(initial: bool, calls: seq<Call>, k: nat)
    requires k <= |calls|
  {
    || (initial && forall j :: 0 <= j < k ==> calls[j].Skip?)
    || exists m :: 0 <= m < k && calls[m] == SetMarker(true) && forall j :: m < j < k ==> calls[j].Skip?
  }

  /** Whether the marker is set after a call. */
  function MarkAfter(mark: bool, call: Call): bool {
    match call
    case Next(_, _) => false
    case Skip(_) => mark
    case SetMarker(on) => on
  }

  lemma MarkedStep(initial: bool, calls: seq<Call>, k: nat)
    requires 0 < k <= |calls|
    ensures Marked(initial, calls, k) <==> Marked(MarkAfter(initial, calls[0]), calls[1..], k - 1)
  {
    var rest := calls[1..];
    var mark := MarkAfter(initial, calls[0]);
    assert forall j :: 0 < j < |calls| ==> calls[j] == rest[j - 1];
    if Marked(mark, rest, k - 1) {
      if m :| 0 <= m < k - 1 && rest[m] == SetMarker(true) && forall j :: m < j < k - 1 ==> rest[j].Skip? {
        assert calls[m + 1] == SetMarker(true);
      } else {
        assert forall j :: 0 < j < k ==> calls[j].Skip?;
      }
    }
    if Marked(initial, calls, k) {
      if m :| 0 <= m < k && calls[m] == SetMarker(true) && forall j :: m < j < k ==> calls[j].Skip? {
        if m > 0 {
          assert rest[m - 1] == SetMarker(true);
        } else {
          assert forall j :: 0 <= j < k - 1 ==> rest[j] == calls[j + 1];
        }
      } else {
        assert forall j :: 0 <= j < k - 1 ==> rest[j] == calls[j + 1];
      }
    }
  }

  /** The packet of the call at k: numbered and stamped by what came before, otherwise as asked. */
  ghost predicate AsAsked(p: Packet, c: Counters, calls: seq<Call>, k: nat)
    requires k < |calls| && calls[k].Next?
  {
    var i := Asked(calls[..k]);
    && p.seqno == SeqnoAt(c, i) && p.ts == TsAt(c, i + Skipped(calls[..k]))
    && p.payload == calls[k].payload && p.pt == calls[k].pt % 128 && p.ssrc == c.ssrc
    && p.csrc == [] && p.ext == NoExt && p.padding == []
    && (p.marker <==> Marked(c.marker, calls, k))
  }

  lemma AsAskedStep(p: Packet, c: Counters, calls: seq<Call>, k: nat)
    requires Valid(c) && 0 < k < |calls| && calls[k].Next?
    requires AsAsked(p, After(c, calls[0]), calls[1..], k - 1)
    ensures AsAsked(p, c, calls, k)
  {
    hide Marked, After, SeqnoAt, TsAt, Valid;
    var first, rest := calls[0], calls[1..];
    assert calls[..k][1..] == rest[..k - 1] && calls[..k][0] == first && calls[k] == rest[k - 1];
    var i, n := Asked(rest[..k - 1]), Skipped(rest[..k - 1]);
    MarkedStep(c.marker, calls, k);
    SeqnoAfter(c, first, i);
    TsAfter(c, first, i + n);
  }

  lemma {:induction false} PacketAsAsked(c: Counters, calls: seq<Call>, k: nat)
    requires Valid(c) && k < |calls| && calls[k].Next?
    ensures Asked(calls[..k]) < |Packets(c, calls)| && AsAsked(Packets(c, calls)[Asked(calls[..k])], c, calls, k)
    decreases |calls|
  {
    PacketsUnfold(c, calls);
    hide Packets, After, NextPacket, SeqnoAt, TsAt, Valid;
    if k == 0 {
      assert calls[..0] == [];
      FirstPacket(c, calls[0].payload, calls[0].pt);
    } else {
      hide AsAsked;
      assert calls[..k][1..] == calls[1..][..k - 1] && calls[..k][0] == calls[0];
      PacketAsAsked(After(c, calls[0]), calls[1..], k - 1);
      AsAskedStep(Packets(c, calls)[Asked(calls[..k])], c, calls, k);
    }
  }

  /** Every packet, by the call that asked for it: the i-th one has the i-th number, the timestamp of as many steps as
      packets were made and skipped before it, the payload and type asked for, the generator's own source identifier, and
      the marker exactly if it was set since the packet before, or from the start if there is none. */
  lemma PacketOfCall(c: Counters, calls: seq<Call>, k: nat)
    requires Valid(c) && k < |calls| && calls[k].Next?
    ensures var i := Asked(calls[..k]);
            && i < |Packets(c, calls)|
            && var p := Packets(c, calls)[i];
               && p.seqno == (c.seqno + i) % 0x1_0000
               && p.ts == (c.ts + c.tsInc * (i + Skipped(calls[..k]))) % 0x1_0000_0000
               && p.payload == calls[k].payload && p.pt == calls[k].pt % 128 && p.ssrc == c.ssrc
               && p.csrc == [] && p.ext == NoExt && p.padding == []
               && (p.marker <==> Marked(c.marker, calls, k))
  {
    hide Packets, Asked, Skipped, Marked;
    PacketAsAsked(c, calls, k);
  }

  class Generator {
    const srate: int
    const ptime: int
    var seqno: nat
    var ts: nat
    const tsInc: int
    var marker: bool
    const ssrc: nat

    ghost function View(): Counters
      reads this
    {
      Counters(seqno, ts, tsInc, marker, ssrc)
    }

    /** The three values drawn from the random function are parameters. */
    constructor (srate: int, ptime: int, rand0: nat, rand1: nat, rand2: nat)
      requires rand0 < 0x1_0000_0000 && rand1 < 0x1_0000_0000 && rand2 < 0x1_0000_0000
      ensures Valid(View()) && marker && ssrc == rand0 && tsInc == 8 * ptime
      ensures seqno == rand2 % 0x1_0000 && ts == rand1 - rand1 % 2
    {
      this.srate, this.ptime := srate, ptime;
      tsInc := 80 * ptime / 10;
      marker := true;
      ssrc := rand0;
      ts := rand1 - rand1 % 2;
      seqno := rand2 % 0x1_0000;
    }

    /** rsynth_next_pkt_pa: builds the packet in the caller's buffer, moving a payload already there behind the header. */
    method NextPktPa(plen: nat, pt: int, buf: array<byte>, filled: bool) returns (rs: int)
      requires Valid(View())
      modifies this, buf
      ensures Valid(View())
      ensures HEADER_LEN + plen > buf.Length ==> rs == -1 && View() == old(View()) && buf[..] == old(buf[..])
      ensures HEADER_LEN + plen <= buf.Length ==>
                var payload := if filled then old(buf[..plen]) else Zeros(plen);
                && rs == HEADER_LEN + plen
                && buf[..rs] == Encode(NextPacket(old(View()), payload, pt))
                && buf[rs..] == Zeros(buf.Length - rs)
                && View() == Advance(old(View()))
    {
      hide FixedHeader, Encode, Zeros;
      rs := HEADER_LEN + plen;
      if rs > buf.Length {
        return -1;
      }
      PlacePayload(buf, plen, filled);
      ghost var payload := if filled then old(buf[..plen]) else Zeros(plen);
      ghost var p := NextPacket(View(), payload, pt);
      var header := FixedHeader(Packet(marker, pt % 128, seqno % 0x1_0000, ts % 0x1_0000_0000, ssrc, [], NoExt, [], []));
      HeaderIgnoresPayload(p);
      WriteHeader(buf, header, rs);
      SplitPacket(buf[..rs], header, p);
      marker := false;
      seqno := (seqno + 1) % 0x1_0000_0000_0000_0000;
      ts := (ts + tsInc) % 0x1_0000_0000_0000_0000;
    }

    method SkipPackets(npkts: int)
      requires Valid(View())
      modifies this`ts
      ensures View() == SkipTicks(old(View()), npkts)
    {
      ts := (ts + tsInc * npkts) % 0x1_0000_0000_0000_0000;
    }

    /** rsynth_set_mbt; the bit field keeps only the lowest bit. */
    method SetMbt(newState: nat) returns (oldState: nat)
      modifies this`marker
      ensures marker == (newState % 2 == 1) && oldState == if old(marker) then 1 else 0
    {
      oldState := if marker then 1 else 0;
      marker := newState % 2 == 1;
    }
  }

  function Zeros(n: nat): (z: seq<byte>)
    ensures |z| == n && forall i :: 0 <= i < n ==> z[i] == 0
  {
    seq(n, i => 0)
  }

  /** memset from an offset to the end of the buffer. */
  method ClearFrom(buf: array<byte>, from: nat)
    requires from <= buf.Length
    modifies buf
    ensures buf[..from] == old(buf[..from]) && buf[from..] == Zeros(buf.Length - from)
  {
    var i := from;
    while i < buf.Length
      invariant from <= i <= buf.Length
      invariant buf[..from] == old(buf[..from])
      invariant forall j :: from <= j < i ==> buf[j] == 0
    {
      buf[i] := 0;
      i := i + 1;
    }
  }

  /** memmove of the payload by the length of the header: the regions overlap, so it copies from the end. */
  method MoveBehindHeader(buf: array<byte>, plen: nat)
    requires HEADER_LEN + plen <= buf.Length
    modifies buf
    ensures buf[HEADER_LEN..HEADER_LEN + plen] == old(buf[..plen])
  {
    var i := plen;
    while i > 0
      invariant 0 <= i <= plen
      invariant forall j :: 0 <= j < i ==> buf[j] == old(buf[j])
      invariant forall j :: i <= j < plen ==> buf[HEADER_LEN + j] == old(buf[j])
    {
      i := i - 1;
      buf[HEADER_LEN + i] := buf[i];
    }
  }

  /** The payload in place behind the header, and zeros behind it. */
  method PlacePayload(buf: array<byte>, plen: nat, filled: bool)
    requires HEADER_LEN + plen <= buf.Length
    modifies buf
    ensures buf[HEADER_LEN..HEADER_LEN + plen] == if filled then old(buf[..plen]) else Zeros(plen)
    ensures buf[HEADER_LEN + plen..] == Zeros(buf.Length - HEADER_LEN - plen)
  {
    if !filled {
      ClearFrom(buf, HEADER_LEN);
      ghost var b := buf[..];
      assert b[HEADER_LEN..] == Zeros(buf.Length - HEADER_LEN);
      ZerosSlice(b, HEADER_LEN, HEADER_LEN + plen);
    } else {
      MoveBehindHeader(buf, plen);
      ghost var b := buf[..];
      ClearFrom(buf, HEADER_LEN + plen);
      assert buf[..HEADER_LEN + plen][HEADER_LEN..] == b[..HEADER_LEN + plen][HEADER_LEN..];
    }
  }

  lemma ZerosSlice(b: seq<byte>, lo: nat, hi: nat)
    requires lo <= hi <= |b| && b[lo..] == Zeros(|b| - lo)
    ensures b[lo..hi] == Zeros(hi - lo) && b[hi..] == Zeros(|b| - hi)
  {
    assert forall i :: lo <= i < |b| ==> b[i] == b[lo..][i - lo];
  }

  method WriteHeader(buf: array<byte>, header: seq<byte>, rs: nat)
    requires |header| == HEADER_LEN <= rs <= buf.Length
    modifies buf
    ensures buf[..rs] == header + old(buf[HEADER_LEN..rs]) && buf[rs..] == old(buf[rs..])
  {
    var i := 0;
    while i < HEADER_LEN
      invariant 0 <= i <= HEADER_LEN
      invariant forall j :: 0 <= j < i ==> buf[j] == header[j]
      invariant forall j :: HEADER_LEN <= j < buf.Length ==> buf[j] == old(buf[j])
    {
      buf[i] := header[i];
      i := i + 1;
    }
  }

  lemma HeaderIgnoresPayload(p: Packet)
    requires ValidPacket(p)
    ensures FixedHeader(p.(payload := [])) == FixedHeader(p)
  {
  }

  lemma SplitPacket(bytes: seq<byte>, header: seq<byte>, p: Packet)
    requires ValidPacket(p) && p.csrc == [] && p.ext == NoExt && p.padding == [] && header == FixedHeader(p)
    requires bytes == header + p.payload
    ensures bytes == Encode(p)
  {
  }
}
