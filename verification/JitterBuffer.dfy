/**
 The jitter buffer (src/rtpjbuf.c) as a function of its state: what one call of rtpjbuf_udp_in or
 rtpjbuf_flush does to the buffer and what it hands back. The class in JitterClass.dfy performs the
 same calls in place and is proved against these functions.
 */
module JitterBuffer {
  import opened Common
  import opened Rtp

  const EPOCH: int := 0x1_0000

  /** LRS_DEFAULT and LMS_DEFAULT: the all-ones word that stands for "no number yet". */
  const LSEQ_NONE: int := UINT64_MAX

  function Inc64(x: nat): nat {
    if x == LSEQ_NONE then 0 else x + 1
  }

  function Sub64(x: nat, y: nat): nat
    requires y <= TWO64
  {
    if y <= x then x - y else x + TWO64 - y
  }

  function Sub32(x: nat, y: nat): nat
    requires y <= TWO32
  {
    if y <= x then x - y else x + TWO32 - y
  }

  /** A received datagram: the address it lies at, and its octets. */
  datatype Datagram = Datagram(ptr: nat, bytes: seq<byte>)

  datatype RtpFrame = RtpFrame(info: Info, lseq: nat, jbcnt: nat, data: Datagram)

  /** What the ready list holds: packets, and erasures that stand for missing packets. */
  datatype Frame =
    | Rtp(pkt: RtpFrame)
    | Ers(lseqStart: nat, lseqEnd: nat, tsDiff: nat)

  datatype Stats = Stats(dup: nat, late: nat, perror: nat, seqWup: nat)

  datatype State = State(
    lastLseq: nat,
    lastTs: nat,
    lastMax: nat,
    mask: nat,
    frames: seq<RtpFrame>,
    size: int,
    capacity: nat,
    stats: Stats)
  {
    predicate WarmUp() {
      lastLseq == LSEQ_NONE
    }
  }

  datatype Outcome = Outcome(state: State, error: Option<ParseError>, ready: seq<Frame>, drop: seq<RtpFrame>)

  function Init(capacity: nat): State {
    State(LSEQ_NONE, 0, LSEQ_NONE, 0, [], 0, capacity, Stats(0, 0, 0, 0))
  }

  /** The first step of every udp_in: a full buffer ages its tail, and drops it when it has aged enough. */
  function PurgeStaleTail(s: State): (State, seq<RtpFrame>) {
    if s.frames == [] || s.size < Sub32(s.capacity, 1) then (s, [])
    else
      var n := |s.frames| - 1;
      var tail := s.frames[n].(jbcnt := s.frames[n].jbcnt + 1);
      if tail.jbcnt < s.capacity then (s.(frames := s.frames[..n] + [tail]), [])
      else
        var newMax :=
          if s.lastMax != tail.lseq then s.lastMax
          else if n > 0 then s.frames[n - 1].lseq
          else LSEQ_NONE;
        (s.(frames := s.frames[..n], size := s.size - 1, lastMax := newMax), [tail])
  }

  /** A sequence number that looks like it was sent before the wrap that has already been seen. */
  predicate PreWrap(lastMax: nat, seqno: nat) {
    lastMax % 0x1_0000 < 536 && seqno > 65000
  }

  /** Extends a 16-bit sequence number: the new epoch base and the logical number. */
  function Unwrap(mask: nat, lastMax: nat, seqno: nat): (nat, nat) {
    var lseq := mask + seqno;
    if PreWrap(lastMax, seqno) then (mask, Sub64(lseq, EPOCH))
    else if lastMax > 65000 && lseq < lastMax - 65000 then (mask + EPOCH, lseq + EPOCH)
    else (mask, lseq)
  }

  /** The erasure before fp, if fp does not directly follow the last number handed out. */
  function ErasureBefore(s: State, fp: RtpFrame): seq<Frame> {
    if Inc64(s.lastLseq) == fp.lseq then []
    else
      var start := Inc64(s.lastLseq);
      var end := Sub64(fp.lseq, 1);
      [Ers(start, end, ErasureTs(s.lastTs, fp.info.ts, start, end))]
  }

  /** The timestamp span of an erasure, in the 32-bit arithmetic of the source. A divisor that wraps to 0 gives 0 here. */
  function ErasureTs(lastTs: nat, ts: nat, start: nat, end: nat): nat {
    var tsDiff := (if lastTs > ts then TWO32 + ts - lastTs else ts - lastTs) % 0x1_0000_0000;
    var lseqDiff := (end - start + 1) % 0x1_0000_0000;
    Quotient(tsDiff * lseqDiff % 0x1_0000_0000, (lseqDiff + 1) % 0x1_0000_0000)
  }

  function Quotient(x: nat, y: nat): nat {
    if y == 0 then 0 else x / y
  }

  function SaveLast(s: State, fp: RtpFrame): State {
    s.(lastLseq := fp.lseq, lastTs := fp.info.ts)
  }

  /** The length of the run of consecutive numbers at the head. */
  function RunLength(frames: seq<RtpFrame>): (k: nat)
    ensures k <= |frames| && (frames != [] ==> k > 0)
  {
    if |frames| <= 1 then |frames|
    else if frames[0].lseq + 1 != frames[1].lseq then 1
    else 1 + RunLength(frames[1..])
  }

  function Wrapped(frames: seq<RtpFrame>): (r: seq<Frame>)
    ensures |r| == |frames| && forall i :: 0 <= i < |r| ==> r[i] == Rtp(frames[i])
  {
    seq(|frames|, i requires 0 <= i < |frames| => Rtp(frames[i]))
  }

  /** A packet that arrives at an empty buffer. */
  function AdmitToEmpty(s: State, fp: RtpFrame, purged: seq<RtpFrame>): Outcome {
    var s1 := s.(lastMax := fp.lseq);
    if (!s.WarmUp() && s.lastLseq == Sub64(fp.lseq, 1)) || (s.WarmUp() && fp.lseq == 0) then
      Outcome(SaveLast(s1, fp), None, [Rtp(fp)], purged)
    else
      Outcome(s1.(frames := [fp], size := 1), None, [], purged)
  }

  /** How many buffered frames have a smaller number. */
  function InsertPos(frames: seq<RtpFrame>, lseq: nat): (k: nat)
    ensures k <= |frames|
  {
    if frames == [] || frames[0].lseq >= lseq then 0 else 1 + InsertPos(frames[1..], lseq)
  }

  function Spliced(frames: seq<RtpFrame>, fp: RtpFrame, k: nat): (r: seq<RtpFrame>)
    requires k <= |frames|
    ensures |r| == |frames| + 1
  {
    frames[..k] + [fp] + frames[k..]
  }

  function Insert(s: State, fp: RtpFrame, k: nat): State
    requires k <= |s.frames|
  {
    s.(frames := Spliced(s.frames, fp, k),
       lastMax := if k == |s.frames| then fp.lseq else s.lastMax,
       size := s.size + 1)
  }

  /** Hands out the run at the head, preceded by an erasure unless nothing was handed out before. */
  function Release(s: State): (State, seq<Frame>)
    requires s.frames != []
  {
    var k := RunLength(s.frames);
    var s1 := s.(frames := s.frames[k..], size := s.size - k);
    (SaveLast(s1, s.frames[k - 1]),
     (if s.WarmUp() then [] else ErasureBefore(s, s.frames[0])) + Wrapped(s.frames[..k]))
  }

  predicate MustRelease(s: State)
    requires s.frames != []
  {
    s.size == s.capacity || (!s.WarmUp() && s.frames[0].lseq == s.lastLseq + 1)
  }

  /** After an insertion: hand out the head run if the buffer is full or the head is the next number. */
  function Settle(s: State, purged: seq<RtpFrame>): Outcome
    requires s.frames != []
  {
    if MustRelease(s) then Outcome(Release(s).0, None, Release(s).1, purged) else Outcome(s, None, [], purged)
  }

  function DropDup(s: State, fp: RtpFrame, purged: seq<RtpFrame>): Outcome {
    Outcome(s.(stats := s.stats.(dup := s.stats.dup + 1)), None, [], [fp] + purged)
  }

  function DropLate(s: State, fp: RtpFrame, purged: seq<RtpFrame>): Outcome {
    Outcome(s.(stats := s.stats.(late := s.stats.late + 1)), None, [], [fp] + purged)
  }

  /** A packet that arrives at a buffer that holds something: duplicate, or inserted in order. */
  function AdmitInOrder(s: State, fp: RtpFrame, purged: seq<RtpFrame>): Outcome
    requires s.frames != []
  {
    var k := InsertPos(s.frames, fp.lseq);
    if k < |s.frames| && s.frames[k].lseq == fp.lseq then DropDup(s, fp, purged)
    else Settle(Insert(s, fp, k), purged)
  }

  /** The late check, then the buffer. The source narrows the distance to a 32-bit int before testing it for 0. */
  function Admit(s: State, fp: RtpFrame, purged: seq<RtpFrame>): Outcome {
    if !s.WarmUp() && fp.lseq <= s.lastLseq then
      if (s.lastLseq - fp.lseq) % 0x1_0000_0000 == 0 then DropDup(s, fp, purged) else DropLate(s, fp, purged)
    else if s.frames == [] then AdmitToEmpty(s, fp, purged)
    else AdmitInOrder(s, fp, purged)
  }

  /** A parsed packet, after the purge: extend its number, then admit it. */
  function Receive(s: State, info: Info, d: Datagram, purged: seq<RtpFrame>): Outcome {
    if s.lastMax == LSEQ_NONE then AdmitToEmpty(s, RtpFrame(info, s.mask + info.seqno, 0, d), purged)
    else
      var (mask, lseq) := Unwrap(s.mask, s.lastMax, info.seqno);
      Admit(Bumped(s, mask), RtpFrame(info, lseq, 0, d), purged)
  }

  function Bumped(s: State, mask: nat): State {
    s.(mask := mask, stats := s.stats.(seqWup := s.stats.seqWup + if mask != s.mask then 1 else 0))
  }

  /** rtpjbuf_udp_in. */
  function UdpIn(s: State, d: Datagram): Outcome {
    var (s1, purged) := PurgeStaleTail(s);
    match Parse(d.bytes)
    case Malformed(e) =>
      Outcome(s1.(stats := s1.stats.(perror := s1.stats.perror + 1)), Some(e), [], purged)
    case Parsed(info) =>
      Receive(s1, info, d, purged)
  }

  /** The split made by flush: the last run, and the earlier runs, each put in front of those before it. */
  function FlushSplit(frames: seq<RtpFrame>, dropped: seq<RtpFrame>): (r: (seq<RtpFrame>, seq<RtpFrame>))
    requires frames != []
    ensures r.0 != []
    decreases |frames|
  {
    var k := RunLength(frames);
    if k == |frames| then (frames, dropped) else FlushSplit(frames[k..], frames[..k] + dropped)
  }

  /** rtpjbuf_flush. */
  function Flush(s: State): Outcome {
    if s.frames == [] then Outcome(s, None, [], [])
    else
      var (run, dropped) := FlushSplit(s.frames, []);
      Outcome(
        SaveLast(s.(frames := [], size := 0), run[|run| - 1]),
        None,
        ErasureBefore(s, run[0]) + Wrapped(run),
        dropped)
  }
}
