/**
 How far the numbers of the jitter buffer can spread (src/rtpjbuf.c:69-95 and 191-286): purging the tail can
 leave the epoch base ahead of the largest number, but never by more than one epoch, and neighbours in the
 buffer are never more than one epoch apart. So an erasure is short for the size of the buffer.
 */
module JitterDrift {
  import opened Common
  import opened Rtp
  import opened JitterBuffer
  import opened JitterInvariant
  import opened JitterRuns

  function Epoch(x: nat): nat {
    x / 0x1_0000
  }

  ghost predicate Chained(frames: seq<RtpFrame>) {
    forall i :: 0 <= i < |frames| - 1 ==> Epoch(frames[i + 1].lseq) <= Epoch(frames[i].lseq) + 1
  }

  /** The epoch base is ahead of the largest number. */
  predicate Stale(mask: nat, lastMax: nat) {
    Epoch(mask) > Epoch(lastMax)
  }

  /** The last two frames lie in one epoch. */
  predicate TailPaired(frames: seq<RtpFrame>) {
    var n := |frames|;
    n >= 2 && Epoch(frames[n - 2].lseq) == Epoch(frames[n - 1].lseq)
  }

  ghost predicate HeadNear(s: State) {
    s.frames != [] ==>
      if s.WarmUp() then s.frames[0].lseq < EPOCH else Epoch(s.frames[0].lseq) <= Epoch(s.lastLseq) + 1
  }

  ghost predicate Near(s: State) {
    && (s.lastMax == LSEQ_NONE ==> s.mask == 0)
    && (s.lastMax != LSEQ_NONE ==> Epoch(s.mask) <= Epoch(s.lastMax) + 1)
    && Chained(s.frames) && HeadNear(s)
  }

  /** The epoch base is ahead only while a purge would not put it further ahead. */
  ghost predicate Steady(s: State) {
    && Near(s)
    && (s.lastMax != LSEQ_NONE && Stale(s.mask, s.lastMax) ==> |s.frames| < Sub32(s.capacity, 1) || TailPaired(s.frames))
  }

  /** The size field counts up to the place where the purge sets in, and no further. */
  ghost predicate Drift(s: State) {
    Steady(s) && |s.frames| <= Sub32(s.capacity, 1)
  }

  lemma InitDrift(capacity: nat)
    requires Usable(capacity)
    ensures Drift(Init(capacity))
  {
  }

  // ----- the purge -----

  lemma ChainedPrefix(frames: seq<RtpFrame>, n: nat)
    requires n <= |frames| && Chained(frames)
    ensures Chained(frames[..n])
  {
  }

  lemma ChainedAged(frames: seq<RtpFrame>, tail: RtpFrame)
    requires frames != [] && Chained(frames) && tail.lseq == frames[|frames| - 1].lseq
    ensures var aged := frames[..|frames| - 1] + [tail];
            && Chained(aged) && |aged| == |frames| && aged[0].lseq == frames[0].lseq
            && (TailPaired(frames) ==> TailPaired(aged))
  {
  }

  lemma EpochInside(mask: nat, x: nat)
    requires mask % 0x1_0000 == 0 && x < mask + EPOCH
    ensures Epoch(x) <= Epoch(mask)
  {
  }

  lemma PurgeDrift(s: State)
    requires Inv(s) && Drift(s)
    ensures Steady(PurgeStaleTail(s).0)
  {
    hide Sorted, FramesOk, Epoch, Chained, TailPaired;
    InvMarks(s);
    PurgeKeeps(s);
    InvMarks(PurgeStaleTail(s).0);
    if s.frames != [] && s.size >= Sub32(s.capacity, 1) {
      var n := |s.frames| - 1;
      var tail := s.frames[n].(jbcnt := s.frames[n].jbcnt + 1);
      if tail.jbcnt < s.capacity {
        ChainedAged(s.frames, tail);
      } else {
        ChainedPrefix(s.frames, n);
        TailEpochs(s.frames);
        EpochInside(s.mask, s.lastMax);
        assert s.frames[..n][0] == s.frames[0];
      }
    }
  }

  lemma TailEpochs(frames: seq<RtpFrame>)
    requires |frames| >= 2 && Chained(frames)
    ensures var n := |frames| - 1;
            && Epoch(frames[n].lseq) <= Epoch(frames[n - 1].lseq) + 1
            && (TailPaired(frames) ==> Epoch(frames[n].lseq) == Epoch(frames[n - 1].lseq))
  {
    var n := |frames| - 1;
    assert Epoch(frames[(n - 1) + 1].lseq) <= Epoch(frames[n - 1].lseq) + 1;
  }

  // ----- extension -----

  /** A number beyond the largest lands at most one epoch further; the base stays ahead only if it lands in the same. */
  lemma UnwrapDrift(mask: nat, lastMax: nat, seqno: nat)
    requires mask % 0x1_0000 == 0 && lastMax < mask + EPOCH && seqno < EPOCH && Epoch(mask) <= Epoch(lastMax) + 1
    requires !(mask == 0 && PreWrap(lastMax, seqno))
    ensures var (m, l) := Unwrap(mask, lastMax, seqno);
            && (l > lastMax ==>
                  && Epoch(l) <= Epoch(lastMax) + 1 && Epoch(m) <= Epoch(l) + 1
                  && (Stale(m, l) ==> Epoch(l) == Epoch(lastMax)))
            && (l <= lastMax ==> m == mask && !Stale(mask, lastMax))
  {
  }

  // ----- admission -----

  /** A state in which the packet fp may now be admitted. */
  ghost predicate Admissible(s: State, t: State, fp: RtpFrame) {
    && t.frames == s.frames && t.lastMax == s.lastMax && t.lastLseq == s.lastLseq && t.capacity == s.capacity
    && (fp.lseq > s.lastMax ==>
          && Epoch(fp.lseq) <= Epoch(s.lastMax) + 1 && Epoch(t.mask) <= Epoch(fp.lseq) + 1
          && (Stale(t.mask, fp.lseq) ==> Epoch(fp.lseq) == Epoch(s.lastMax)))
    && (fp.lseq <= s.lastMax ==> t.mask == s.mask && !Stale(s.mask, s.lastMax))
  }

  lemma EpochMono(x: nat, y: nat)
    requires x <= y
    ensures Epoch(x) <= Epoch(y)
  {
  }

  lemma InsertChained(frames: seq<RtpFrame>, fp: RtpFrame, k: nat)
    requires Chained(frames) && Sorted(frames) && FitsAt(frames, fp, k) && frames != []
    requires k == |frames| ==> Epoch(fp.lseq) <= Epoch(frames[k - 1].lseq) + 1
    requires k == 0 ==> Epoch(frames[0].lseq) <= Epoch(fp.lseq) + 1
    ensures Chained(Spliced(frames, fp, k))
  {
    var r := Spliced(frames, fp, k);
    forall i | 0 <= i < |r| - 1
      ensures Epoch(r[i + 1].lseq) <= Epoch(r[i].lseq) + 1
    {
      if i + 1 < k {
        assert r[i] == frames[i] && r[i + 1] == frames[i + 1];
      } else if i + 1 == k {
        assert r[i] == frames[k - 1] && r[i + 1] == fp;
        if k < |frames| {
          EpochMono(fp.lseq, frames[k].lseq);
          assert Epoch(frames[(k - 1) + 1].lseq) <= Epoch(frames[k - 1].lseq) + 1;
        }
      } else if i == k {
        assert r[i] == fp && r[i + 1] == frames[k];
        if k > 0 {
          EpochMono(frames[k - 1].lseq, fp.lseq);
          assert Epoch(frames[(k - 1) + 1].lseq) <= Epoch(frames[k - 1].lseq) + 1;
        }
      } else {
        assert r[i] == frames[i - 1] && r[i + 1] == frames[i];
        assert Epoch(frames[(i - 1) + 1].lseq) <= Epoch(frames[i - 1].lseq) + 1;
      }
    }
  }

  lemma InsertPaired(frames: seq<RtpFrame>, fp: RtpFrame)
    requires frames != [] && Epoch(fp.lseq) == Epoch(frames[|frames| - 1].lseq)
    ensures TailPaired(Spliced(frames, fp, |frames|))
  {
    var r := Spliced(frames, fp, |frames|);
    assert r[|frames| - 1] == frames[|frames| - 1] && r[|frames|] == fp;
  }

  /** After an insertion, before anything is handed out. */
  ghost predicate Inserted(s: State) {
    && Usable(s.capacity) && s.frames != [] && s.lastMax != LSEQ_NONE && Near(s)
    && (Stale(s.mask, s.lastMax) ==> TailPaired(s.frames))
  }

  lemma InsertDrift(s: State, t: State, fp: RtpFrame, k: nat)
    requires Inv(s) && Near(s) && Admissible(s, t, fp) && s.frames != [] && FitsAt(s.frames, fp, k)
    requires s.WarmUp() || s.lastLseq < fp.lseq
    requires fp.lseq < LSEQ_NONE
    ensures Inserted(Insert(t, fp, k))
  {
    hide FramesOk, Epoch, Chained, TailPaired, Spliced;
    InvMarks(s);
    FitsEnds(s.frames, fp, k);
    HeadEpochs(s, fp, k);
    InsertChained(s.frames, fp, k);
    SplicedEnds(s.frames, fp, k);
    if k == |s.frames| {
      if Stale(t.mask, fp.lseq) {
        InsertPaired(s.frames, fp);
      }
    }
  }

  lemma FitsEnds(frames: seq<RtpFrame>, fp: RtpFrame, k: nat)
    requires frames != [] && FitsAt(frames, fp, k)
    ensures k == |frames| <==> frames[|frames| - 1].lseq < fp.lseq
    ensures k == 0 <==> fp.lseq < frames[0].lseq
    ensures fp.lseq != frames[|frames| - 1].lseq
  {
  }

  lemma HeadEpochs(s: State, fp: RtpFrame, k: nat)
    requires HeadNear(s) && s.frames != [] && (k == 0 ==> fp.lseq < s.frames[0].lseq)
    requires s.WarmUp() || s.lastLseq < fp.lseq
    ensures k == 0 ==> Epoch(s.frames[0].lseq) <= Epoch(fp.lseq) + 1
    ensures k == 0 && s.WarmUp() ==> fp.lseq < EPOCH
    ensures k == 0 && !s.WarmUp() ==> Epoch(fp.lseq) <= Epoch(s.lastLseq) + 1
  {
  }

  lemma SuffixChained(frames: seq<RtpFrame>, k: nat)
    requires 0 < k <= |frames| && Chained(frames)
    ensures Chained(frames[k..])
    ensures k < |frames| ==> Epoch(frames[k].lseq) <= Epoch(frames[k - 1].lseq) + 1 && frames[k..][0] == frames[k]
    ensures TailPaired(frames) && |frames| - k >= 2 ==> TailPaired(frames[k..])
  {
    var fs := frames[k..];
    forall i | 0 <= i < |fs| - 1
      ensures Epoch(fs[i + 1].lseq) <= Epoch(fs[i].lseq) + 1
    {
      assert fs[i] == frames[k + i] && fs[i + 1] == frames[(k + i) + 1];
    }
    if k < |frames| {
      assert Epoch(frames[(k - 1) + 1].lseq) <= Epoch(frames[k - 1].lseq) + 1;
    }
    if |fs| >= 2 {
      var n := |frames|;
      assert fs[|fs| - 1] == frames[n - 1] && fs[|fs| - 2] == frames[n - 2];
    }
  }

  lemma SettleDrift(s: State, purged: seq<RtpFrame>)
    requires AlmostInv(s) && Inserted(s)
    ensures Steady(Settle(s, purged).state)
  {
    hide Sorted, FramesOk, Epoch, Chained, TailPaired, RunLength, ErasureBefore;
    if MustRelease(s) {
      RunLengthRun(s.frames);
      var k := RunLength(s.frames);
      SuffixChained(s.frames, k);
      FramesBelow(s.frames, s.mask, s.capacity);
    }
  }

  lemma AdmitDrift(s: State, t: State, fp: RtpFrame, purged: seq<RtpFrame>)
    requires Inv(s) && Inv(t) && Steady(s) && Admissible(s, t, fp) && s.lastMax != LSEQ_NONE && Fresh(t, fp)
    ensures Steady(Admit(t, fp, purged).state)
  {
    hide Sorted, FramesOk, Epoch, Chained, TailPaired, Settle, FitsAt, InsertPos, Insert, FrameOk;
    InvMarks(s);
    InvMarks(t);
    FreshBelow(t, fp);
    if !t.WarmUp() && fp.lseq <= t.lastLseq {
      LastBelowMax(s);
    } else if t.frames == [] {
      OneChained(fp);
    } else {
      var k := InsertPos(t.frames, fp.lseq);
      if k < |t.frames| && t.frames[k].lseq == fp.lseq {
        BelowMax(s, k);
      } else {
        InsertPosFits(t.frames, fp);
        InsertKeeps(t, fp, k);
        InsertDrift(s, t, fp, k);
        SettleDrift(Insert(t, fp, k), purged);
      }
    }
  }

  lemma FreshBelow(t: State, fp: RtpFrame)
    requires Inv(t) && Fresh(t, fp)
    ensures fp.lseq < LSEQ_NONE
  {
  }

  lemma OneChained(fp: RtpFrame)
    ensures Chained([fp]) && Chained([])
  {
  }

  lemma LastBelowMax(s: State)
    requires Inv(s) && !s.WarmUp()
    ensures s.lastLseq <= s.lastMax
  {
    InvMarks(s);
    if s.frames != [] {
      assert s.frames[0].lseq <= s.frames[|s.frames| - 1].lseq;
    }
  }

  lemma BelowMax(s: State, k: nat)
    requires Inv(s) && k < |s.frames|
    ensures s.frames[k].lseq <= s.lastMax
  {
    hide FramesOk;
    InvMarks(s);
    if k < |s.frames| - 1 {
      assert s.frames[k].lseq < s.frames[|s.frames| - 1].lseq;
    }
  }

  // ----- every step, every run -----

  lemma FirstDrift(s: State, fp: RtpFrame, purged: seq<RtpFrame>)
    requires Inv(s) && s.lastMax == LSEQ_NONE && s.mask == 0 && fp.lseq < EPOCH
    ensures Steady(AdmitToEmpty(s, fp, purged).state)
  {
    InvMarks(s);
    assert Epoch(0) == 0 && Epoch(fp.lseq) == 0;
  }

  lemma UdpInDrift(s: State, d: Datagram)
    requires Inv(s) && Room(s) && !Underflow(s, d) && Drift(s)
    ensures Drift(UdpIn(s, d).state)
  {
    hide Steady, Inv, UdpIn, Underflow;
    UdpInSteady(s, d);
    InvMarks(s);
    UdpInKeeps(s, d);
    UdpInFits(s, d);
    SizeLimit(UdpIn(s, d).state);
    UdpInCapacity(s, d);
  }

  lemma SizeLimit(s: State)
    requires Inv(s) && |s.frames| < TWO32
    ensures |s.frames| <= Sub32(s.capacity, 1)
  {
  }

  lemma UdpInCapacity(s: State, d: Datagram)
    ensures UdpIn(s, d).state.capacity == s.capacity
  {
    hide Parse, InsertPos, RunLength, ErasureBefore;
  }

  lemma UdpInSteady(s: State, d: Datagram)
    requires Inv(s) && Room(s) && !Underflow(s, d) && Drift(s)
    ensures Steady(UdpIn(s, d).state)
  {
    hide Inv, Parse, PurgeStaleTail, Admit, AdmitToEmpty, Unwrap, Epoch, Chained, TailPaired;
    PurgeKeeps(s);
    PurgeDrift(s);
    var (s1, purged) := PurgeStaleTail(s);
    InvMarks(s1);
    if Parse(d.bytes).Parsed? {
      ParsedExtent(d.bytes);
      var info := Parse(d.bytes).info;
      if s1.lastMax == LSEQ_NONE {
        FirstDrift(s1, RtpFrame(info, s1.mask + info.seqno, 0, d), purged);
      } else {
        UnwrapInEpoch(s1.mask, s1.lastMax, info.seqno);
        UnwrapDrift(s1.mask, s1.lastMax, info.seqno);
        var (mask, lseq) := Unwrap(s1.mask, s1.lastMax, info.seqno);
        BumpedKeeps(s1, mask);
        FreshFrame(Bumped(s1, mask), info, lseq, d);
        AdmitDrift(s1, Bumped(s1, mask), RtpFrame(info, lseq, 0, d), purged);
      }
    }
  }

  lemma FreshFrame(t: State, info: Info, lseq: nat, d: Datagram)
    requires Inv(t) && Parse(d.bytes) == Parsed(info) && info.seqno < EPOCH && lseq % 0x1_0000 == info.seqno && lseq < t.mask + EPOCH
    ensures Fresh(t, RtpFrame(info, lseq, 0, d))
  {
  }

  lemma StepDrift(s: State, op: Op)
    requires Inv(s) && StepOk(s, op) && Drift(s)
    ensures Drift(Step(s, op).state)
  {
    hide Inv, UdpIn, Underflow;
    match op {
      case In(d) => UdpInDrift(s, d);
      case DoFlush =>
        InvMarks(s);
        if s.frames != [] {
          FlushEmpties(s);
          OneChained(s.frames[0]);
        }
    }
  }

  /** In every run the epoch base is at most one epoch ahead of the largest number, and neighbours at most one apart. */
  lemma {:induction false} RunDrift(s: State, ops: seq<Op>)
    requires Inv(s) && RunOk(s, ops) && Drift(s)
    ensures Drift(Run(s, ops).state)
    decreases |ops|
  {
    hide Inv, Step, StepOk, Drift;
    if ops != [] {
      StepKeeps(s, ops[0]);
      StepDrift(s, ops[0]);
      RunDrift(Step(s, ops[0]).state, ops[1..]);
    }
  }

  // ----- erasures are short -----

  /** How many numbers an erasure stands for. */
  function Length(f: Frame): int {
    if f.Ers? then f.lseqEnd - f.lseqStart + 1 else 0
  }

  /** What the timestamp span of an erasure is divided by: one more than its length, in 32 bits. */
  function Divisor(f: Frame): int {
    (Length(f) % 0x1_0000_0000 + 1) % 0x1_0000_0000
  }

  ghost predicate DivisorsNonzero(fs: seq<Frame>) {
    forall i :: 0 <= i < |fs| && fs[i].Ers? ==> Divisor(fs[i]) != 0
  }

  ghost predicate AllShort(fs: seq<Frame>, bound: nat) {
    forall i :: 0 <= i < |fs| ==> Length(fs[i]) < bound
  }

  lemma ErasureShort(s: State, fp: RtpFrame, run: seq<RtpFrame>, n: nat)
    requires s.WarmUp() || s.lastLseq < fp.lseq
    requires s.lastLseq <= LSEQ_NONE
    requires if s.WarmUp() then Epoch(fp.lseq) < n else Epoch(fp.lseq) <= Epoch(s.lastLseq) + n
    ensures AllShort(ErasureBefore(s, fp) + Wrapped(run), (n + 1) * 0x1_0000 - 1)
    ensures AllShort([] + Wrapped(run), (n + 1) * 0x1_0000 - 1)
  {
    var e := ErasureBefore(s, fp);
    var fs := e + Wrapped(run);
    EpochGap(if s.WarmUp() then 0 else s.lastLseq, fp.lseq, if s.WarmUp() then n - 1 else n);
    forall i | 0 <= i < |fs|
      ensures Length(fs[i]) < (n + 1) * 0x1_0000 - 1
    {
      if i >= |e| {
        assert fs[i] == Wrapped(run)[i - |e|];
      }
    }
  }

  lemma EpochGap(x: nat, y: nat, n: nat)
    requires Epoch(y) <= Epoch(x) + n
    ensures y - x < (n + 1) * 0x1_0000
  {
  }

  lemma SettleShort(s: State, purged: seq<RtpFrame>)
    requires AlmostInv(s) && HeadNear(s)
    ensures AllShort(Settle(s, purged).ready, 0x1_FFFF)
  {
    hide Sorted, FramesOk, RunLength, ErasureBefore, Wrapped, AllShort;
    if MustRelease(s) {
      LastInRange(s);
      WarmHead(s);
      ErasureShort(s, s.frames[0], s.frames[..RunLength(s.frames)], 1);
    } else {
      NoneShort();
    }
  }

  lemma NoneShort()
    ensures AllShort([], 0x1_FFFF)
  {
  }

  lemma LastInRange(s: State)
    requires AlmostInv(s)
    ensures s.lastLseq <= LSEQ_NONE && (s.WarmUp() || s.lastLseq < s.frames[0].lseq)
  {
  }

  lemma WarmHead(s: State)
    requires HeadNear(s) && s.frames != []
    ensures if s.WarmUp() then Epoch(s.frames[0].lseq) == 0 else Epoch(s.frames[0].lseq) <= Epoch(s.lastLseq) + 1
  {
  }

  lemma AdmitShort(s: State, t: State, fp: RtpFrame, purged: seq<RtpFrame>)
    requires Inv(s) && Inv(t) && Steady(s) && Admissible(s, t, fp) && s.lastMax != LSEQ_NONE && Fresh(t, fp)
    ensures AllShort(Admit(t, fp, purged).ready, 0x1_FFFF)
  {
    hide Sorted, FramesOk, Epoch, Chained, TailPaired, Settle, FitsAt, InsertPos, Insert, FrameOk;
    InvMarks(t);
    FreshBelow(t, fp);
    if !(!t.WarmUp() && fp.lseq <= t.lastLseq) && t.frames != [] {
      var k := InsertPos(t.frames, fp.lseq);
      if !(k < |t.frames| && t.frames[k].lseq == fp.lseq) {
        InsertPosFits(t.frames, fp);
        InsertKeeps(t, fp, k);
        InsertDrift(s, t, fp, k);
        SettleShort(Insert(t, fp, k), purged);
      }
    }
  }

  /** An erasure made by udp_in stands for fewer than 2^17 - 1 numbers. */
  lemma UdpInErasuresShort(s: State, d: Datagram)
    requires Inv(s) && Room(s) && !Underflow(s, d) && Drift(s)
    ensures AllShort(UdpIn(s, d).ready, 0x1_FFFF)
  {
    hide Inv, Parse, PurgeStaleTail, Admit, Unwrap, Epoch, Chained, TailPaired;
    PurgeKeeps(s);
    PurgeDrift(s);
    var (s1, purged) := PurgeStaleTail(s);
    InvMarks(s1);
    if Parse(d.bytes).Parsed? {
      ParsedExtent(d.bytes);
      var info := Parse(d.bytes).info;
      if s1.lastMax != LSEQ_NONE {
        UnwrapInEpoch(s1.mask, s1.lastMax, info.seqno);
        UnwrapDrift(s1.mask, s1.lastMax, info.seqno);
        var (mask, lseq) := Unwrap(s1.mask, s1.lastMax, info.seqno);
        BumpedKeeps(s1, mask);
        FreshFrame(Bumped(s1, mask), info, lseq, d);
        AdmitShort(s1, Bumped(s1, mask), RtpFrame(info, lseq, 0, d), purged);
      }
    }
  }

  lemma {:induction false} ChainedEpochs(frames: seq<RtpFrame>, k: nat)
    requires Chained(frames) && k < |frames|
    ensures Epoch(frames[k].lseq) <= Epoch(frames[0].lseq) + k
    decreases k
  {
    if k > 0 {
      ChainedEpochs(frames, k - 1);
      assert Epoch(frames[(k - 1) + 1].lseq) <= Epoch(frames[k - 1].lseq) + 1;
    }
  }

  /** An erasure made by flush stands for fewer numbers than there are in one epoch for every place of the buffer. */
  lemma FlushErasuresShort(s: State)
    requires Inv(s) && Drift(s) && s.capacity >= 3
    ensures AllShort(Flush(s).ready, s.capacity * 0x1_0000 - 1)
  {
    hide Sorted, FramesOk, Epoch, Chained, TailPaired, FlushSplit, ErasureBefore, Consecutive, Wrapped, AllShort;
    if s.frames == [] {
      EmptyShort(s.capacity * 0x1_0000 - 1);
    } else {
      InvMarks(s);
      var k := FlushSplitRun(s.frames, []);
      ChainedEpochs(s.frames, k);
      WarmHead(s);
      HeadBelow(s, k);
      assert k <= s.capacity - 2;
      ErasureShort(s, s.frames[k], s.frames[k..], s.capacity - 1);
    }
  }

  lemma EmptyShort(bound: nat)
    ensures AllShort([], bound)
  {
  }

  lemma HeadBelow(s: State, k: nat)
    requires Inv(s) && k < |s.frames|
    ensures s.WarmUp() || s.lastLseq < s.frames[k].lseq
  {
    InvMarks(s);
    if k > 0 {
      assert s.frames[0].lseq < s.frames[k].lseq;
    }
  }

  lemma ShortConcat(fs: seq<Frame>, gs: seq<Frame>, bound: nat)
    requires AllShort(fs, bound) && AllShort(gs, bound)
    ensures AllShort(fs + gs, bound)
  {
  }

  lemma ShortWeaken(fs: seq<Frame>, a: nat, b: nat)
    requires AllShort(fs, a) && a <= b
    ensures AllShort(fs, b)
  {
  }

  lemma StepShort(s: State, op: Op)
    requires Inv(s) && StepOk(s, op) && Drift(s) && 3 <= s.capacity <= 65536
    ensures AllShort(Step(s, op).ready, TWO32 - 1)
  {
    hide Inv, UdpIn, Flush, Underflow, Drift, AllShort;
    match op
    case In(d) =>
      UdpInErasuresShort(s, d);
      ShortWeaken(UdpIn(s, d).ready, 0x1_FFFF, TWO32 - 1);
    case DoFlush =>
      FlushErasuresShort(s);
      ShortWeaken(Flush(s).ready, s.capacity * 0x1_0000 - 1, TWO32 - 1);
  }

  /** With a capacity from 3 to 65536, no erasure of any run is so long that the divisor of its timestamp span wraps to 0. */
  lemma RunDivisorsNonzero(s: State, ops: seq<Op>)
    requires Inv(s) && RunOk(s, ops) && Drift(s) && 3 <= s.capacity <= 65536
    ensures DivisorsNonzero(Run(s, ops).ready)
    ensures AllShort(Run(s, ops).ready, TWO32 - 1)
  {
    hide Run, Inv, Drift, Tiled;
    RunShort(s, ops);
    RunTiles(s, ops);
    LengthsPositive(s, Run(s, ops).ready, Run(s, ops).state);
  }

  lemma LengthsPositive(s: State, ready: seq<Frame>, t: State)
    requires Tiled(s, ready, t)
    ensures forall i :: 0 <= i < |ready| && ready[i].Ers? ==> Length(ready[i]) > 0
  {
    forall i | 0 <= i < |ready| && ready[i].Ers?
      ensures Length(ready[i]) > 0
    {
      assert Lo(ready[i]) <= Hi(ready[i]);
    }
  }

  lemma {:induction false} RunShort(s: State, ops: seq<Op>)
    requires Inv(s) && RunOk(s, ops) && Drift(s) && 3 <= s.capacity <= 65536
    ensures AllShort(Run(s, ops).ready, TWO32 - 1)
    decreases |ops|
  {
    hide Inv, Step, StepOk, Drift, AllShort;
    if ops == [] {
      EmptyShort(TWO32 - 1);
    } else {
      var o := Step(s, ops[0]);
      StepKeeps(s, ops[0]);
      StepDrift(s, ops[0]);
      StepShort(s, ops[0]);
      SameCapacity(s, ops[0]);
      RunShort(o.state, ops[1..]);
      ShortConcat(o.ready, Run(o.state, ops[1..]).ready, TWO32 - 1);
    }
  }

  lemma SameCapacity(s: State, op: Op)
    ensures Step(s, op).state.capacity == s.capacity
  {
    hide Parse, InsertPos, RunLength, ErasureBefore, FlushSplit;
  }
}
