/**
 The numbers of the jitter buffer (src/rtpjbuf.c:134-154 and 191-211): exactly which 16-bit sequence numbers are
 extended to the sender's own count, and exactly when an erasure on a stream with evenly spaced timestamps spans the
 time of the packets it stands for.
 */
module JitterNumbers {
  import opened Common
  import opened Rtp
  import opened JitterBuffer
  import opened JitterInvariant
  import opened JitterRuns

  /** The epoch base is the one of the largest number accepted. */
  predicate EpochExact(s: State) {
    s.lastMax == LSEQ_NONE || s.mask <= s.lastMax < s.mask + EPOCH
  }

  /** In an exact epoch, an extended number keeps its low 16 bits and lands within 65000 of the largest. */
  lemma UnwrapNear(mask: nat, lastMax: nat, seqno: nat)
    requires mask % 0x1_0000 == 0 && mask <= lastMax < mask + EPOCH && seqno < EPOCH
    requires !(mask == 0 && PreWrap(lastMax, seqno))
    ensures var (m, lseq) := Unwrap(mask, lastMax, seqno);
            && lseq % 0x1_0000 == seqno
            && lastMax - 65000 <= lseq <= lastMax + 65000
            && (lseq > lastMax ==> m <= lseq < m + EPOCH)
            && (lseq <= lastMax ==> m == mask)
  {
  }

  lemma CongruentClose(x: nat, y: nat)
    requires x % 0x1_0000 == y % 0x1_0000 && -0x1_0000 < x - y < 0x1_0000
    ensures x == y
  {
  }

  /** The lowest number that comes out right: just after a wrap 535 below the epoch base, late in the epoch 65000 below
      the largest number, and otherwise the epoch base itself. */
  function WindowLow(mask: nat, lastMax: nat): int {
    if lastMax % 0x1_0000 < 536 then mask - 535
    else if lastMax > mask + 65000 then lastMax - 65000
    else mask
  }

  predicate InWindow(mask: nat, lastMax: nat, truth: nat) {
    WindowLow(mask, lastMax) <= truth < WindowLow(mask, lastMax) + EPOCH
  }

  /** Away from the underflow, extension lands in the window. */
  lemma UnwrapLands(mask: nat, lastMax: nat, seqno: nat)
    requires mask % 0x1_0000 == 0 && lastMax < mask + EPOCH && seqno < EPOCH
    requires !(mask == 0 && PreWrap(lastMax, seqno))
    ensures var lseq := Unwrap(mask, lastMax, seqno).1; lseq % 0x1_0000 == seqno && InWindow(mask, lastMax, lseq)
  {
    UnwrapInEpoch(mask, lastMax, seqno);
  }

  lemma UnderflowOutside(lastMax: nat, truth: nat)
    requires lastMax < EPOCH && PreWrap(lastMax, truth % 0x1_0000)
    ensures !InWindow(0, lastMax, truth) && Unwrap(0, lastMax, truth % 0x1_0000).1 >= TWO64 - EPOCH
  {
  }

  /** Extension is exact on a window of 65536 numbers, and only there, wherever the epoch base stands. */
  lemma UnwrapExactIff(mask: nat, lastMax: nat, truth: nat)
    requires mask % 0x1_0000 == 0 && lastMax < mask + EPOCH && truth < TWO64 - EPOCH
    ensures Unwrap(mask, lastMax, truth % 0x1_0000).1 == truth <==> InWindow(mask, lastMax, truth)
    ensures InWindow(mask, lastMax, truth) ==> !(mask == 0 && PreWrap(lastMax, truth % 0x1_0000))
  {
    hide Unwrap, WindowLow, PreWrap;
    if mask == 0 && PreWrap(lastMax, truth % 0x1_0000) {
      UnderflowOutside(lastMax, truth);
    } else {
      UnwrapLands(mask, lastMax, truth % 0x1_0000);
      var lseq := Unwrap(mask, lastMax, truth % 0x1_0000).1;
      if InWindow(mask, lastMax, truth) {
        CongruentClose(lseq, truth);
      }
    }
  }

  /** A number within 535 of the largest lies in the window exactly if the epoch base is not ahead of both. */
  lemma NearInWindow(mask: nat, lastMax: nat, truth: nat)
    requires mask % 0x1_0000 == 0 && lastMax < mask + EPOCH
    requires lastMax - 535 <= truth <= lastMax + 535
    ensures InWindow(mask, lastMax, truth) <==> mask <= lastMax || mask <= truth
  {
  }

  /** A packet whose true number is within 535 of the largest gets exactly that number in an exact epoch. */
  lemma UnwrapExact(mask: nat, lastMax: nat, truth: nat)
    requires mask % 0x1_0000 == 0 && mask <= lastMax < mask + EPOCH
    requires lastMax - 535 <= truth <= lastMax + 535
    ensures !(mask == 0 && PreWrap(lastMax, truth % 0x1_0000))
    ensures Unwrap(mask, lastMax, truth % 0x1_0000).1 == truth
  {
    UnwrapNear(mask, lastMax, truth % 0x1_0000);
    CongruentClose(Unwrap(mask, lastMax, truth % 0x1_0000).1, truth);
  }

  // ----- which steps keep the epoch exact -----

  /** The purge drops the tail and the frame before it lies in an earlier epoch. */
  predicate PurgeCrosses(s: State) {
    var n := |s.frames| - 1;
    && n >= 1 && s.size >= Sub32(s.capacity, 1)
    && s.frames[n].jbcnt + 1 >= s.capacity
    && s.frames[n - 1].lseq < s.mask
  }

  /** A purge keeps the epoch exact precisely when it does not cross into an earlier one. */
  lemma PurgeKeepsEpochIff(s: State)
    requires Inv(s) && EpochExact(s)
    ensures EpochExact(PurgeStaleTail(s).0) <==> !PurgeCrosses(s)
  {
    InvMarks(s);
    if s.frames != [] && s.size >= Sub32(s.capacity, 1) {
      var n := |s.frames| - 1;
      assert n > 0 && s.frames[n - 1].lseq < s.frames[n].lseq;
      FramesBelow(s.frames, s.mask, s.capacity);
    }
  }

  /** Admission moves the largest number only to the number admitted, and only upwards. */
  lemma AdmitMax(s: State, fp: RtpFrame, purged: seq<RtpFrame>)
    requires Inv(s) && s.lastMax != LSEQ_NONE
    ensures var t := Admit(s, fp, purged).state;
            t.mask == s.mask && t.lastMax == if fp.lseq > s.lastMax then fp.lseq else s.lastMax
  {
    InvMarks(s);
    if !(!s.WarmUp() && fp.lseq <= s.lastLseq) && s.frames != [] {
      var k := InsertPos(s.frames, fp.lseq);
      InsertPosSplits(s.frames, fp.lseq);
      assert s.frames[|s.frames| - 1].lseq == s.lastMax;
      assert k == |s.frames| <==> fp.lseq > s.lastMax;
      hide Inv, InsertPos, RunLength, Spliced, ErasureBefore;
    }
  }

  /** After a purge that leaves the epoch exact, the rest of a udp_in keeps it exact. */
  lemma UdpInKeepsEpoch(s: State, d: Datagram)
    requires Inv(s) && Room(s) && !Underflow(s, d)
    requires EpochExact(PurgeStaleTail(s).0)
    ensures EpochExact(UdpIn(s, d).state)
  {
    hide Inv, Parse, PurgeStaleTail, Admit;
    PurgeKeeps(s);
    var (s1, purged) := PurgeStaleTail(s);
    InvMarks(s1);
    if Parse(d.bytes).Parsed? {
      ParsedExtent(d.bytes);
      var info := Parse(d.bytes).info;
      if s1.lastMax != LSEQ_NONE {
        UnwrapNear(s1.mask, s1.lastMax, info.seqno);
        UnwrapInEpoch(s1.mask, s1.lastMax, info.seqno);
        var (mask, lseq) := Unwrap(s1.mask, s1.lastMax, info.seqno);
        BumpedKeeps(s1, mask);
        AdmitMax(Bumped(s1, mask), RtpFrame(info, lseq, 0, d), purged);
      }
    }
  }

  // ----- whole runs -----

  /** The number a parsed packet is given. */
  function Assigned(s: State, d: Datagram): nat
    requires Parse(d.bytes).Parsed?
  {
    var s1 := PurgeStaleTail(s).0;
    var seqno := Parse(d.bytes).info.seqno;
    if s1.lastMax == LSEQ_NONE then s1.mask + seqno else Unwrap(s1.mask, s1.lastMax, seqno).1
  }

  /** A fresh buffer numbers from the first epoch. */
  ghost predicate FreshMask(s: State) {
    s.lastMax == LSEQ_NONE ==> s.mask == 0
  }

  /** The numbers a buffer in this state, its purge done, gets right. */
  predicate ComesOutRight(s: State, truth: nat) {
    if s.lastMax == LSEQ_NONE then truth < EPOCH else InWindow(s.mask, s.lastMax, truth)
  }

  /** A packet whose sequence number is the low half of the sender's own count. */
  predicate Counts(d: Datagram, truth: nat) {
    Parse(d.bytes).Parsed? ==> truth % 0x1_0000 == Parse(d.bytes).info.seqno && truth < TWO64 - EPOCH
  }

  /** A packet gets the sender's own number exactly when that number lies in the window of the purged buffer. */
  lemma AssignedIff(s: State, d: Datagram, truth: nat)
    requires Inv(s) && FreshMask(s) && Parse(d.bytes).Parsed? && Counts(d, truth)
    ensures Assigned(s, d) == truth <==> ComesOutRight(PurgeStaleTail(s).0, truth)
    ensures ComesOutRight(PurgeStaleTail(s).0, truth) ==> !Underflow(s, d)
  {
    hide Inv, Parse, PurgeStaleTail, Unwrap, InWindow;
    PurgeKeeps(s);
    var s1 := PurgeStaleTail(s).0;
    InvMarks(s);
    InvMarks(s1);
    if s1.lastMax != LSEQ_NONE {
      UnwrapExactIff(s1.mask, s1.lastMax, truth);
    }
  }

  /** Within 535 of the largest number, after a call that found the epoch exact, a packet is misnumbered exactly when the
      purge crossed into an earlier epoch and the packet belongs there too. */
  lemma AssignedNearIff(s: State, d: Datagram, truth: nat)
    requires Inv(s) && EpochExact(s) && Parse(d.bytes).Parsed? && Counts(d, truth)
    requires var lastMax := PurgeStaleTail(s).0.lastMax;
             lastMax != LSEQ_NONE && lastMax - 535 <= truth <= lastMax + 535
    ensures Assigned(s, d) == truth <==> !PurgeCrosses(s) || s.mask <= truth
  {
    hide Inv, Parse, PurgeStaleTail, Unwrap, InWindow, PurgeCrosses;
    PurgeKeepsEpochIff(s);
    PurgeKeeps(s);
    var s1 := PurgeStaleTail(s).0;
    InvMarks(s);
    InvMarks(s1);
    NearInWindow(s1.mask, s1.lastMax, truth);
    AssignedIff(s, d, truth);
  }

  predicate WindowStep(s: State, op: Op, truth: nat) {
    op.In? ==>
      && Room(s) && Counts(op.d, truth)
      && (Parse(op.d.bytes).Parsed? ==> ComesOutRight(PurgeStaleTail(s).0, truth))
  }

  /** A run in which every packet's true number, given by its place in the run, lies in the window when it arrives. */
  predicate WindowRun(s: State, ops: seq<Op>, truth: seq<nat>)
    requires |truth| == |ops|
    decreases |ops|
  {
    ops == [] || (WindowStep(s, ops[0], truth[0]) && WindowRun(Step(s, ops[0]).state, ops[1..], truth[1..]))
  }

  lemma WindowStepKeeps(s: State, op: Op, truth: nat)
    requires Inv(s) && FreshMask(s) && WindowStep(s, op, truth)
    ensures StepOk(s, op) && FreshMask(Step(s, op).state)
    ensures op.In? && Parse(op.d.bytes).Parsed? ==> Assigned(s, op.d) == truth
  {
    hide Inv, UdpIn, PurgeStaleTail, ComesOutRight, Assigned, Parse;
    match op {
      case In(d) =>
        if Parse(d.bytes).Parsed? {
          AssignedIff(s, d, truth);
        }
        UdpInKeepsFresh(s, d);
      case DoFlush =>
        FlushKeepsFresh(s);
    }
  }

  lemma FlushKeepsFresh(s: State)
    requires Inv(s) && FreshMask(s)
    ensures FreshMask(Flush(s).state)
  {
    if s.frames != [] {
      InvMarks(s);
      FlushEmpties(s);
    }
  }

  /** A run inside the window takes only safe steps, so it keeps the invariant. */
  lemma {:induction false} WindowRunKeeps(s: State, ops: seq<Op>, truth: seq<nat>)
    requires |truth| == |ops| && Inv(s) && FreshMask(s) && WindowRun(s, ops, truth)
    ensures RunOk(s, ops)
    ensures var t := Run(s, ops).state; Inv(t) && FreshMask(t)
    decreases |ops|
  {
    hide Inv, FreshMask, Step, StepOk, WindowStep;
    if ops != [] {
      WindowStepKeeps(s, ops[0], truth[0]);
      StepKeeps(s, ops[0]);
      WindowRunKeeps(Step(s, ops[0]).state, ops[1..], truth[1..]);
    }
  }

  /** Every packet of a run is given the number that stands at its place. */
  predicate AllAssigned(s: State, ops: seq<Op>, truth: seq<nat>)
    requires |truth| == |ops|
    decreases |ops|
  {
    ops == [] ||
    (&& (ops[0].In? && Parse(ops[0].d.bytes).Parsed? ==> Assigned(s, ops[0].d) == truth[0])
     && AllAssigned(Step(s, ops[0]).state, ops[1..], truth[1..]))
  }

  predicate AllCount(ops: seq<Op>, truth: seq<nat>)
    requires |truth| == |ops|
  {
    forall i :: 0 <= i < |ops| && ops[i].In? ==> Counts(ops[i].d, truth[i])
  }

  /** Over any run, every packet gets the sender's own number if and only if each lies in the window when it arrives. */
  lemma {:induction false} RunNumbersTrueIff(s: State, ops: seq<Op>, truth: seq<nat>)
    requires |truth| == |ops| && Inv(s) && FreshMask(s) && RunOk(s, ops) && AllCount(ops, truth)
    ensures AllAssigned(s, ops, truth) <==> WindowRun(s, ops, truth)
    decreases |ops|
  {
    if ops != [] {
      hide Inv, FreshMask, Step, Assigned, Parse, ComesOutRight, Counts, Underflow;
      StepTrueIff(s, ops[0], truth[0]);
      StepKeeps(s, ops[0]);
      StepKeepsFresh(s, ops[0]);
      AllCountTail(ops, truth);
      RunNumbersTrueIff(Step(s, ops[0]).state, ops[1..], truth[1..]);
    }
  }

  lemma AllCountTail(ops: seq<Op>, truth: seq<nat>)
    requires ops != [] && |truth| == |ops| && AllCount(ops, truth)
    ensures AllCount(ops[1..], truth[1..])
  {
    hide Counts;
  }

  lemma StepTrueIff(s: State, op: Op, truth: nat)
    requires Inv(s) && FreshMask(s) && StepOk(s, op) && (op.In? ==> Counts(op.d, truth))
    ensures (op.In? && Parse(op.d.bytes).Parsed? ==> Assigned(s, op.d) == truth) <==> WindowStep(s, op, truth)
  {
    hide Inv, Assigned, Parse, ComesOutRight, Underflow, FreshMask;
    if op.In? && Parse(op.d.bytes).Parsed? {
      AssignedIff(s, op.d, truth);
    }
  }

  lemma StepKeepsFresh(s: State, op: Op)
    requires Inv(s) && FreshMask(s) && StepOk(s, op)
    ensures FreshMask(Step(s, op).state)
  {
    hide Inv, UdpIn, Flush, Underflow, FreshMask;
    match op
    case In(d) => UdpInKeepsFresh(s, d);
    case DoFlush => FlushKeepsFresh(s);
  }

  lemma UdpInKeepsFresh(s: State, d: Datagram)
    requires Inv(s) && Room(s) && !Underflow(s, d) && FreshMask(s)
    ensures FreshMask(UdpIn(s, d).state)
  {
    hide Inv, Parse, PurgeStaleTail, Admit;
    PurgeKeeps(s);
    var (s1, purged) := PurgeStaleTail(s);
    InvMarks(s);
    InvMarks(s1);
    if Parse(d.bytes).Parsed? && s1.lastMax != LSEQ_NONE {
      ParsedExtent(d.bytes);
      var info := Parse(d.bytes).info;
      UnwrapInEpoch(s1.mask, s1.lastMax, info.seqno);
      var (mask, lseq) := Unwrap(s1.mask, s1.lastMax, info.seqno);
      BumpedKeeps(s1, mask);
      AdmitMax(Bumped(s1, mask), RtpFrame(info, lseq, 0, d), purged);
    }
  }

  // ----- which packets are dropped -----

  ghost predicate Buffered(frames: seq<RtpFrame>, lseq: nat) {
    exists i :: 0 <= i < |frames| && frames[i].lseq == lseq
  }

  lemma PosFindsDuplicate(frames: seq<RtpFrame>, lseq: nat)
    requires Sorted(frames)
    ensures var k := InsertPos(frames, lseq); k < |frames| && frames[k].lseq == lseq <==> Buffered(frames, lseq)
  {
    InsertPosSplits(frames, lseq);
  }

  /** A packet with a number is dropped exactly when that number was passed already or is in the buffer; the counters tell
      which, and nothing else is dropped along with it. */
  lemma AdmitDropsExactly(s: State, fp: RtpFrame, purged: seq<RtpFrame>)
    requires Inv(s)
    ensures var o := Admit(s, fp, purged);
            var passed := !s.WarmUp() && fp.lseq <= s.lastLseq;
            && o.drop == (if passed || Buffered(s.frames, fp.lseq) then [fp] + purged else purged)
            && (passed && s.lastLseq - fp.lseq < TWO32 ==>
                  o.state.stats == if fp.lseq == s.lastLseq then s.stats.(dup := s.stats.dup + 1)
                                   else s.stats.(late := s.stats.late + 1))
            && (!passed ==> o.state.stats == if Buffered(s.frames, fp.lseq) then s.stats.(dup := s.stats.dup + 1) else s.stats)
  {
    hide FramesOk, RunLength, ErasureBefore, Spliced, InsertPos;
    PosFindsDuplicate(s.frames, fp.lseq);
    if !s.WarmUp() && s.lastLseq - fp.lseq < TWO32 && fp.lseq <= s.lastLseq {
      SmallMod(s.lastLseq - fp.lseq);
    }
  }

  /** No packet is numbered so far back that the distance would not fit an int. */
  lemma AssignedNotFarBack(s: State, d: Datagram)
    requires Inv(s) && !Underflow(s, d) && Parse(d.bytes).Parsed? && !s.WarmUp()
    ensures s.lastLseq - Assigned(s, d) < 2 * EPOCH
  {
    hide Inv, Parse, PurgeStaleTail;
    PurgeKeeps(s);
    InvMarks(s);
    InvMarks(PurgeStaleTail(s).0);
    ParsedExtent(d.bytes);
  }

  /** What udp_in counts and drops: the packet it takes in exactly when its number was passed already or is in the buffer,
      as a duplicate exactly when it is the last number handed out or in the buffer, and besides it only what was purged. */
  lemma UdpInDropsExactly(s: State, d: Datagram)
    requires Inv(s) && Room(s) && !Underflow(s, d) && Parse(d.bytes).Parsed?
    ensures var (s1, purged) := PurgeStaleTail(s);
            var l := Assigned(s, d);
            var o := UdpIn(s, d);
            var passed := !s.WarmUp() && l <= s.lastLseq;
            var dup := if passed then l == s.lastLseq else Buffered(s1.frames, l);
            && o.drop == (if passed || dup then [RtpFrame(Parse(d.bytes).info, l, 0, d)] + purged else purged)
            && o.state.stats.dup == s.stats.dup + (if dup then 1 else 0)
            && o.state.stats.late == s.stats.late + (if passed && !dup then 1 else 0)
            && o.state.stats.perror == s.stats.perror
  {
    hide Inv, Parse, PurgeStaleTail, Admit, Unwrap, Underflow, Assigned;
    PurgeKeeps(s);
    PurgeKeepsStats(s);
    var (s1, purged) := PurgeStaleTail(s);
    InvMarks(s1);
    ParsedExtent(d.bytes);
    if !s.WarmUp() {
      AssignedNotFarBack(s, d);
    }
    AssignedIs(s, d);
    if s1.lastMax != LSEQ_NONE {
      var (mask, lseq) := Unwrap(s1.mask, s1.lastMax, Parse(d.bytes).info.seqno);
      assert mask <= TWO64 - 2 * EPOCH && s1.mask <= mask && mask % 0x1_0000 == 0 by {
        NoUnderflow(s, d);
        UnwrapInEpoch(s1.mask, s1.lastMax, Parse(d.bytes).info.seqno);
      }
      BumpedKeeps(s1, mask);
      AdmitDropsExactly(Bumped(s1, mask), RtpFrame(Parse(d.bytes).info, lseq, 0, d), purged);
    }
  }

  lemma PurgeKeepsStats(s: State)
    ensures PurgeStaleTail(s).0.stats == s.stats
  {
  }

  lemma NoUnderflow(s: State, d: Datagram)
    requires !Underflow(s, d) && Parse(d.bytes).Parsed? && PurgeStaleTail(s).0.lastMax != LSEQ_NONE
    ensures !(s.mask == 0 && PreWrap(PurgeStaleTail(s).0.lastMax, Parse(d.bytes).info.seqno))
  {
  }

  lemma AssignedIs(s: State, d: Datagram)
    requires Parse(d.bytes).Parsed?
    ensures var s1 := PurgeStaleTail(s).0;
            var seqno := Parse(d.bytes).info.seqno;
            Assigned(s, d) == if s1.lastMax == LSEQ_NONE then s1.mask + seqno else Unwrap(s1.mask, s1.lastMax, seqno).1
  {
  }

  /** A datagram that does not parse is counted and reported; of the buffer only the purge is seen. */
  lemma UdpInMalformed(s: State, d: Datagram)
    requires Parse(d.bytes).Malformed?
    ensures var o := UdpIn(s, d);
            && o.error == Some(Parse(d.bytes).error) && o.ready == [] && o.drop == PurgeStaleTail(s).1
            && o.state.stats == s.stats.(perror := s.stats.perror + 1)
            && o.state == PurgeStaleTail(s).0.(stats := o.state.stats)
  {
    PurgeKeepsStats(s);
  }

  /** The epoch base counts the wraps. */
  predicate WrapsCounted(s: State) {
    s.mask == EPOCH * s.stats.seqWup
  }

  lemma AdmitKeepsWraps(s: State, fp: RtpFrame, purged: seq<RtpFrame>)
    ensures var t := Admit(s, fp, purged).state; t.mask == s.mask && t.stats.seqWup == s.stats.seqWup
  {
    hide InsertPos, RunLength, ErasureBefore;
  }

  lemma StepCountsWraps(s: State, op: Op)
    requires WrapsCounted(s)
    ensures WrapsCounted(Step(s, op).state)
  {
    hide Parse, Admit, InsertPos, RunLength, ErasureBefore, FlushSplit;
    if op.In? && Parse(op.d.bytes).Parsed? {
      var (s1, purged) := PurgeStaleTail(s);
      PurgeKeepsStats(s);
      if s1.lastMax != LSEQ_NONE {
        var (mask, lseq) := Unwrap(s1.mask, s1.lastMax, Parse(op.d.bytes).info.seqno);
        AdmitKeepsWraps(Bumped(s1, mask), RtpFrame(Parse(op.d.bytes).info, lseq, 0, op.d), purged);
      }
    }
  }

  /** Over every run the epoch base is 65536 times the number of wraps counted. */
  lemma {:induction false} RunCountsWraps(s: State, ops: seq<Op>)
    requires WrapsCounted(s)
    ensures WrapsCounted(Run(s, ops).state)
    decreases |ops|
  {
    hide Step, WrapsCounted;
    if ops != [] {
      StepCountsWraps(s, ops[0]);
      RunCountsWraps(Step(s, ops[0]).state, ops[1..]);
    }
  }

  // ----- what holds of every packet of a run -----

  /** A property of a packet that does not look at its age in the buffer. */
  type PacketProperty = (nat, Info, Datagram) -> bool

  ghost predicate Each(fs: seq<RtpFrame>, p: PacketProperty) {
    forall i :: 0 <= i < |fs| ==> p(fs[i].lseq, fs[i].info, fs[i].data)
  }

  ghost predicate EachReady(fs: seq<Frame>, p: PacketProperty) {
    forall i :: 0 <= i < |fs| && fs[i].Rtp? ==> p(fs[i].pkt.lseq, fs[i].pkt.info, fs[i].pkt.data)
  }

  lemma EachConcat(fs: seq<RtpFrame>, gs: seq<RtpFrame>, p: PacketProperty)
    requires Each(fs, p) && Each(gs, p)
    ensures Each(fs + gs, p)
  {
  }

  lemma EachSlice(fs: seq<RtpFrame>, k: nat, p: PacketProperty)
    requires k <= |fs| && Each(fs, p)
    ensures Each(fs[..k], p) && Each(fs[k..], p)
  {
  }

  lemma EachReadyConcat(fs: seq<Frame>, gs: seq<Frame>, p: PacketProperty)
    requires EachReady(fs, p) && EachReady(gs, p)
    ensures EachReady(fs + gs, p)
  {
  }

  lemma EachHandedOut(s: State, fp: RtpFrame, run: seq<RtpFrame>, p: PacketProperty)
    requires Each(run, p)
    ensures EachReady(ErasureBefore(s, fp) + Wrapped(run), p) && EachReady([] + Wrapped(run), p)
  {
  }

  lemma EachPurge(s: State, p: PacketProperty)
    requires Each(s.frames, p)
    ensures var (s1, purged) := PurgeStaleTail(s); Each(s1.frames, p) && Each(purged, p)
  {
  }

  lemma EachSettle(s: State, purged: seq<RtpFrame>, p: PacketProperty)
    requires s.frames != [] && Each(s.frames, p)
    ensures var o := Settle(s, purged); Each(o.state.frames, p) && EachReady(o.ready, p)
  {
    hide Each, ErasureBefore, RunLength;
    var k := RunLength(s.frames);
    EachSlice(s.frames, k, p);
    EachHandedOut(s, s.frames[0], s.frames[..k], p);
  }

  lemma EachAdmit(s: State, fp: RtpFrame, purged: seq<RtpFrame>, p: PacketProperty)
    requires Each(s.frames, p) && Each(purged, p) && p(fp.lseq, fp.info, fp.data)
    ensures var o := Admit(s, fp, purged); Each(o.state.frames, p) && EachReady(o.ready, p) && Each(o.drop, p)
  {
    EachConcat([fp], purged, p);
    if !(!s.WarmUp() && fp.lseq <= s.lastLseq) && s.frames != [] {
      hide Each, Settle, InsertPos;
      var k := InsertPos(s.frames, fp.lseq);
      EachSlice(s.frames, k, p);
      EachConcat(s.frames[..k], [fp], p);
      EachConcat(s.frames[..k] + [fp], s.frames[k..], p);
      EachSettle(Insert(s, fp, k), purged, p);
    }
  }

  /** If the packets held have a property and the packet taken in gets it with its number, all packets involved have it. */
  lemma EachUdpIn(s: State, d: Datagram, p: PacketProperty)
    requires Each(s.frames, p)
    requires Parse(d.bytes).Parsed? ==> p(Assigned(s, d), Parse(d.bytes).info, d)
    ensures var o := UdpIn(s, d); Each(o.state.frames, p) && EachReady(o.ready, p) && Each(o.drop, p)
  {
    hide PurgeStaleTail, Parse, Admit, Unwrap;
    EachPurge(s, p);
    var (s1, purged) := PurgeStaleTail(s);
    if Parse(d.bytes).Parsed? {
      var info := Parse(d.bytes).info;
      if s1.lastMax != LSEQ_NONE {
        var (mask, lseq) := Unwrap(s1.mask, s1.lastMax, info.seqno);
        EachAdmit(Bumped(s1, mask), RtpFrame(info, lseq, 0, d), purged, p);
      }
    }
  }

  lemma {:induction false} EachFlushSplit(frames: seq<RtpFrame>, dropped: seq<RtpFrame>, p: PacketProperty)
    requires frames != [] && Each(frames, p) && Each(dropped, p)
    ensures var (run, drop) := FlushSplit(frames, dropped); Each(run, p) && Each(drop, p)
    decreases |frames|
  {
    hide Each, RunLength;
    var k := RunLength(frames);
    if k != |frames| {
      EachSlice(frames, k, p);
      EachConcat(frames[..k], dropped, p);
      EachFlushSplit(frames[k..], frames[..k] + dropped, p);
    }
  }

  lemma EachFlush(s: State, p: PacketProperty)
    requires Each(s.frames, p)
    ensures var o := Flush(s); Each(o.state.frames, p) && EachReady(o.ready, p) && Each(o.drop, p)
  {
    if s.frames != [] {
      EachFlushSplit(s.frames, [], p);
      var run := FlushSplit(s.frames, []).0;
      EachHandedOut(s, run[0], run, p);
    }
  }

  /** Every packet the run takes in has the property together with the number it is given. */
  predicate EachTaken(s: State, ops: seq<Op>, p: PacketProperty)
    decreases |ops|
  {
    ops == [] ||
    (&& (ops[0].In? && Parse(ops[0].d.bytes).Parsed? ==>
           p(Assigned(s, ops[0].d), Parse(ops[0].d.bytes).info, ops[0].d))
     && EachTaken(Step(s, ops[0]).state, ops[1..], p))
  }

  lemma EachStep(s: State, op: Op, p: PacketProperty)
    requires Each(s.frames, p)
    requires op.In? && Parse(op.d.bytes).Parsed? ==> p(Assigned(s, op.d), Parse(op.d.bytes).info, op.d)
    ensures var o := Step(s, op); Each(o.state.frames, p) && EachReady(o.ready, p) && Each(o.drop, p)
  {
    hide Each, EachReady, UdpIn, Flush, Assigned, Parse;
    match op
    case In(d) => EachUdpIn(s, d, p);
    case DoFlush => EachFlush(s, p);
  }

  lemma {:induction false} EachRun(s: State, ops: seq<Op>, p: PacketProperty)
    requires Each(s.frames, p) && EachTaken(s, ops, p)
    ensures var t := Run(s, ops); Each(t.state.frames, p) && EachReady(t.ready, p) && Each(t.drop, p)
    decreases |ops|
  {
    if ops != [] {
      hide Each, EachReady, Step, Assigned, Parse;
      var o := Step(s, ops[0]);
      EachStep(s, ops[0], p);
      EachRun(o.state, ops[1..], p);
      var rest := Run(o.state, ops[1..]);
      EachReadyConcat(o.ready, rest.ready, p);
      EachConcat(o.drop, rest.drop, p);
    }
  }

  /** A property that every packet has together with its true number is one it has with the number it is given. */
  lemma {:induction false} WindowRunTaken(s: State, ops: seq<Op>, truth: seq<nat>, p: PacketProperty)
    requires |truth| == |ops| && Inv(s) && FreshMask(s) && WindowRun(s, ops, truth)
    requires forall i :: 0 <= i < |ops| && ops[i].In? && Parse(ops[i].d.bytes).Parsed? ==>
               p(truth[i], Parse(ops[i].d.bytes).info, ops[i].d)
    ensures EachTaken(s, ops, p)
    decreases |ops|
  {
    hide Inv, FreshMask, Step, StepOk, WindowStep, Assigned, Parse;
    if ops != [] {
      WindowStepKeeps(s, ops[0], truth[0]);
      StepKeeps(s, ops[0]);
      WindowRunTaken(Step(s, ops[0]).state, ops[1..], truth[1..], p);
    }
  }

  /** The datagram arrived at a place of the run where the sender's own number is lseq. */
  predicate Arrived(ops: seq<Op>, truth: seq<nat>, lseq: nat, d: Datagram)
    requires |truth| == |ops|
  {
    exists i :: 0 <= i < |ops| && ops[i] == In(d) && truth[i] == lseq
  }

  function HasArrived(ops: seq<Op>, truth: seq<nat>): PacketProperty
    requires |truth| == |ops|
  {
    (lseq: nat, info: Info, d: Datagram) => Arrived(ops, truth, lseq, d)
  }

  /** Over a run inside the window, every packet held, handed out or dropped bears the sender's own number. */
  lemma RunNumbersAreTrue(capacity: nat, ops: seq<Op>, truth: seq<nat>)
    requires |truth| == |ops| && Usable(capacity) && WindowRun(Init(capacity), ops, truth)
    ensures var t := Run(Init(capacity), ops);
            && RunOk(Init(capacity), ops)
            && (forall i :: 0 <= i < |t.state.frames| ==> Arrived(ops, truth, t.state.frames[i].lseq, t.state.frames[i].data))
            && (forall i :: 0 <= i < |t.ready| && t.ready[i].Rtp? ==> Arrived(ops, truth, t.ready[i].pkt.lseq, t.ready[i].pkt.data))
            && (forall i :: 0 <= i < |t.drop| ==> Arrived(ops, truth, t.drop[i].lseq, t.drop[i].data))
  {
    hide Parse, Run, WindowRun, RunOk, EachTaken;
    var s := Init(capacity);
    var p := HasArrived(ops, truth);
    InitInv(capacity);
    WindowRunKeeps(s, ops, truth);
    WindowRunTaken(s, ops, truth, p);
    EachRun(s, ops, p);
  }

  // ----- erasure timestamps -----

  /** The timestamp a stream with a fixed step gives to a number. */
  function StreamTs(base: nat, step: nat, lseq: nat): nat {
    (base + step * lseq) % 0x1_0000_0000
  }

  lemma WrappedDiff(a: nat, d: nat)
    requires d < TWO32
    ensures var x := a % 0x1_0000_0000;
            var y := (a + d) % 0x1_0000_0000;
            (if x > y then TWO32 + y - x else y - x) == d
  {
  }

  lemma NoMultipleBelow(k: int, y: int)
    requires 0 <= k * y < y
    ensures k == 0
  {
    MulMono(if k > 0 then 1 else k, if k > 0 then k else if k < 0 then -1 else 0, if k == 0 then 0 else y);
  }

  lemma DivExact(x: nat, y: nat)
    requires y > 0
    ensures x * y / y == x
  {
    var q := x * y / y;
    var r := x * y % y;
    assert x * y == q * y + r && 0 <= r < y;
    assert (x - q) * y == x * y - q * y;
    NoMultipleBelow(x - q, y);
  }

  /** With the difference and the gap in range, the 32-bit arithmetic of the source is plain arithmetic. */
  lemma ErasureTsPlain(lastTs: nat, ts: nat, last: nat, gap: nat, d: nat)
    requires gap < TWO32 - 1 && d < TWO32 && d * gap < TWO32
    requires d == if lastTs > ts then TWO32 + ts - lastTs else ts - lastTs
    ensures ErasureTs(lastTs, ts, last + 1, last + gap) == d * gap / (gap + 1)
  {
    assert (last + gap) - (last + 1) + 1 == gap;
    assert d % 0x1_0000_0000 == d && gap % 0x1_0000_0000 == gap && (gap + 1) % 0x1_0000_0000 == gap + 1;
    SmallMod(d * gap);
  }

  lemma SmallMod(x: nat)
    requires x < TWO32
    ensures x % 0x1_0000_0000 == x
  {
  }

  /** Where the 32-bit product does not overflow, the division by one more than the gap is exact. */
  lemma ErasureTsFits(base: nat, step: nat, last: nat, gap: nat)
    requires step >= 1 && gap >= 1 && step * (gap + 1) * gap < TWO32
    ensures ErasureTs(StreamTs(base, step, last), StreamTs(base, step, last + gap + 1), last + 1, last + gap) == step * gap
  {
    hide ErasureTs;
    var d := step * (gap + 1);
    Products(step, gap);
    Distribute(step, last, gap + 1);
    WrappedDiff(base + step * last, d);
    ErasureTsPlain(StreamTs(base, step, last), StreamTs(base, step, last + gap + 1), last, gap, d);
    Regroup(step, gap);
    DivExact(step * gap, gap + 1);
  }

  lemma QuotientBounds(x: nat, y: nat)
    ensures Quotient(x, y) * y <= x && Quotient(x, y) <= x
  {
    if y > 0 {
      var q := x / y;
      assert x == q * y + x % y;
      MulMono(1, y, q);
    }
  }

  /** No span, times one more than the gap, reaches 2^32; and no span of 2^32 - 1 numbers or more reaches their count. */
  lemma ErasureTsBounds(lastTs: nat, ts: nat, last: nat, gap: nat)
    requires gap >= 1
    ensures var e := ErasureTs(lastTs, ts, last + 1, last + gap);
            if gap + 1 < TWO32 then e * (gap + 1) < TWO32 else e < gap
  {
    var x := ErasureTsForm(lastTs, ts, last, gap);
    hide ErasureTs, Quotient;
    DivisorOf(gap);
    QuotientBounds(x, (gap % 0x1_0000_0000 + 1) % 0x1_0000_0000);
    NoQuotient(x);
  }

  /** A span is a 32-bit number divided by one more than the gap, in 32 bits. */
  lemma ErasureTsForm(lastTs: nat, ts: nat, last: nat, gap: nat) returns (x: nat)
    ensures x < TWO32
    ensures ErasureTs(lastTs, ts, last + 1, last + gap) == Quotient(x, (gap % 0x1_0000_0000 + 1) % 0x1_0000_0000)
  {
    hide Quotient;
    var tsDiff := (if lastTs > ts then TWO32 + ts - lastTs else ts - lastTs) % 0x1_0000_0000;
    assert (last + gap) - (last + 1) + 1 == gap;
    x := tsDiff * (gap % 0x1_0000_0000) % 0x1_0000_0000;
  }

  lemma DivisorOf(gap: nat)
    ensures gap + 1 < TWO32 ==> (gap % 0x1_0000_0000 + 1) % 0x1_0000_0000 == gap + 1
    ensures gap + 1 == TWO32 ==> (gap % 0x1_0000_0000 + 1) % 0x1_0000_0000 == 0
  {
  }

  lemma NoQuotient(x: nat)
    ensures Quotient(x, 0) == 0
  {
  }

  lemma ConstantTs(base: nat, last: nat, next: nat, gap: nat)
    ensures ErasureTs(StreamTs(base, 0, last), StreamTs(base, 0, next), last + 1, last + gap) == 0
  {
  }

  /** On a stream with evenly spaced timestamps an erasure spans the time of the packets it stands for exactly when the
      32-bit product of the source does not overflow. */
  lemma ErasureTsIff(base: nat, step: nat, last: nat, gap: nat)
    requires gap >= 1
    ensures ErasureTs(StreamTs(base, step, last), StreamTs(base, step, last + gap + 1), last + 1, last + gap) == step * gap
            <==> step * (gap + 1) * gap < TWO32
  {
    hide ErasureTs, StreamTs;
    ErasureTsBounds(StreamTs(base, step, last), StreamTs(base, step, last + gap + 1), last, gap);
    if step == 0 {
      ConstantTs(base, last, last + gap + 1, gap);
    } else {
      if step * (gap + 1) * gap < TWO32 {
        ErasureTsFits(base, step, last, gap);
      }
      Regroup(step, gap);
      Products(step, gap);
      MulMono(1, step, gap);
    }
  }

  lemma Products(step: nat, gap: nat)
    requires step >= 1 && gap >= 1
    ensures step * (gap + 1) <= step * (gap + 1) * gap && gap + 1 <= step * (gap + 1)
  {
    MulMono(1, gap, step * (gap + 1));
    MulMono(1, step, gap + 1);
  }

  lemma Distribute(a: nat, b: nat, c: nat)
    ensures a * (b + c) == a * b + a * c
  {
  }

  lemma Regroup(step: nat, gap: nat)
    ensures step * (gap + 1) * gap == step * gap * (gap + 1)
  {
  }

  /** An erasure of g numbers spans step * g exactly when the product of the source fits 32 bits. */
  predicate SpansGap(e: Frame, step: nat) {
    e.Ers? && e.lseqStart <= e.lseqEnd ==>
      var g := e.lseqEnd - e.lseqStart + 1;
      e.tsDiff == step * g <==> step * (g + 1) * g < TWO32
  }

  function OnStream(base: nat, step: nat): PacketProperty {
    (lseq: nat, info: Info, d: Datagram) => info.ts == StreamTs(base, step, lseq)
  }

  ghost predicate LastOnStream(s: State, base: nat, step: nat) {
    !s.WarmUp() ==> s.lastTs == StreamTs(base, step, s.lastLseq)
  }

  lemma ErasureSpans(s: State, fp: RtpFrame, base: nat, step: nat)
    requires !s.WarmUp() && s.lastLseq < fp.lseq && LastOnStream(s, base, step)
    requires fp.info.ts == StreamTs(base, step, fp.lseq)
    ensures forall e :: e in ErasureBefore(s, fp) ==> SpansGap(e, step)
  {
    if s.lastLseq + 1 < fp.lseq {
      var gap := fp.lseq - 1 - s.lastLseq;
      hide StreamTs, ErasureTs;
      ErasureTsIff(base, step, s.lastLseq, gap);
    }
  }

  /** Every erasure of a ready list spans its gap, save the first frame of one that opens during warm-up. */
  predicate AllSpanGaps(warmUp: bool, ready: seq<Frame>, step: nat) {
    forall i :: 0 <= i < |ready| && !(i == 0 && warmUp) ==> SpansGap(ready[i], step)
  }

  /** A step after warm-up makes only erasures that span their gap, and leaves the last timestamp on the stream. */
  ghost predicate StreamStep(s: State, ready: seq<Frame>, t: State, base: nat, step: nat) {
    && LastOnStream(t, base, step)
    && AllSpanGaps(s.WarmUp(), ready, step)
  }

  lemma HandOutStream(s: State, fp: RtpFrame, run: seq<RtpFrame>, t: State, base: nat, step: nat)
    requires run != [] && fp == run[0] && LastOnStream(s, base, step)
    requires s.WarmUp() || s.lastLseq < fp.lseq
    requires Each(run, OnStream(base, step))
    requires t.lastLseq == run[|run| - 1].lseq && t.lastTs == run[|run| - 1].info.ts
    ensures StreamStep(s, ErasureBefore(s, fp) + Wrapped(run), t, base, step)
    ensures s.WarmUp() ==> StreamStep(s, [] + Wrapped(run), t, base, step)
  {
    hide StreamTs, SpansGap;
    var e := ErasureBefore(s, fp);
    assert forall f: RtpFrame :: SpansGap(Rtp(f), step) by {
      RtpSpans(step);
    }
    if !s.WarmUp() {
      assert OnStream(base, step)(run[0].lseq, run[0].info, run[0].data);
      ErasureSpans(s, fp, base, step);
    }
    assert OnStream(base, step)(run[|run| - 1].lseq, run[|run| - 1].info, run[|run| - 1].data);
    assert |e| <= 1;
  }

  lemma RtpSpans(step: nat)
    ensures forall f: RtpFrame :: SpansGap(Rtp(f), step)
  {
  }

  lemma SettleStream(s: State, purged: seq<RtpFrame>, base: nat, step: nat)
    requires AlmostInv(s) && LastOnStream(s, base, step) && Each(s.frames, OnStream(base, step))
    ensures StreamStep(s, Settle(s, purged).ready, Settle(s, purged).state, base, step)
  {
    hide Sorted, FramesOk, LastOnStream, ErasureBefore, RunLength, OnStream, Each, SpansGap;
    if MustRelease(s) {
      var k := RunLength(s.frames);
      EachSlice(s.frames, k, OnStream(base, step));
      HandOutStream(s, s.frames[0], s.frames[..k], Release(s).0, base, step);
    } else {
      SameLast(s, s, base, step);
    }
  }

  lemma SameLast(s: State, t: State, base: nat, step: nat)
    requires LastOnStream(s, base, step) && t.lastLseq == s.lastLseq && t.lastTs == s.lastTs
    ensures LastOnStream(t, base, step)
  {
  }

  lemma AdmitToEmptyStream(s: State, fp: RtpFrame, purged: seq<RtpFrame>, base: nat, step: nat)
    requires LastOnStream(s, base, step) && OnStream(base, step)(fp.lseq, fp.info, fp.data)
    ensures StreamStep(s, AdmitToEmpty(s, fp, purged).ready, AdmitToEmpty(s, fp, purged).state, base, step)
  {
    hide StreamTs;
  }

  lemma AdmitStream(s: State, fp: RtpFrame, purged: seq<RtpFrame>, base: nat, step: nat)
    requires Inv(s) && Fresh(s, fp) && LastOnStream(s, base, step)
    requires Each(s.frames, OnStream(base, step)) && OnStream(base, step)(fp.lseq, fp.info, fp.data)
    ensures StreamStep(s, Admit(s, fp, purged).ready, Admit(s, fp, purged).state, base, step)
  {
    hide Sorted, FramesOk, Settle, AdmitToEmpty, FitsAt, OnStream, SpansGap, StreamTs;
    InvMarks(s);
    if !s.WarmUp() && fp.lseq <= s.lastLseq {
    } else if s.frames == [] {
      AdmitToEmptyStream(s, fp, purged, base, step);
    } else {
      var k := InsertPos(s.frames, fp.lseq);
      if !(k < |s.frames| && s.frames[k].lseq == fp.lseq) {
        InsertPosFits(s.frames, fp);
        InsertKeeps(s, fp, k);
        EachSpliced(s.frames, fp, k, OnStream(base, step));
        SettleStream(Insert(s, fp, k), purged, base, step);
      }
    }
  }

  lemma EachSpliced(frames: seq<RtpFrame>, fp: RtpFrame, k: nat, p: PacketProperty)
    requires k <= |frames| && Each(frames, p) && p(fp.lseq, fp.info, fp.data)
    ensures Each(Spliced(frames, fp, k), p)
  {
  }

  lemma UdpInStream(s: State, d: Datagram, base: nat, step: nat)
    requires Inv(s) && Room(s) && !Underflow(s, d) && LastOnStream(s, base, step)
    requires Each(s.frames, OnStream(base, step))
    requires Parse(d.bytes).Parsed? ==> OnStream(base, step)(Assigned(s, d), Parse(d.bytes).info, d)
    ensures StreamStep(s, UdpIn(s, d).ready, UdpIn(s, d).state, base, step)
  {
    hide Inv, Parse, PurgeStaleTail, Admit, AdmitToEmpty, OnStream, SpansGap, StreamTs, Each;
    PurgeKeeps(s);
    EachPurge(s, OnStream(base, step));
    var (s1, purged) := PurgeStaleTail(s);
    InvMarks(s1);
    if Parse(d.bytes).Parsed? {
      ParsedExtent(d.bytes);
      var info := Parse(d.bytes).info;
      if s1.lastMax == LSEQ_NONE {
        AdmitToEmptyStream(s1, RtpFrame(info, s1.mask + info.seqno, 0, d), purged, base, step);
      } else {
        UnwrapInEpoch(s1.mask, s1.lastMax, info.seqno);
        var (mask, lseq) := Unwrap(s1.mask, s1.lastMax, info.seqno);
        BumpedKeeps(s1, mask);
        AdmitStream(Bumped(s1, mask), RtpFrame(info, lseq, 0, d), purged, base, step);
      }
    }
  }

  lemma SortedAt(frames: seq<RtpFrame>, i: nat, j: nat)
    requires Sorted(frames) && i <= j < |frames|
    ensures frames[i].lseq <= frames[j].lseq
  {
  }

  /** What flush does, by the place where the last run starts. */
  lemma FlushFrom(s: State, k: nat)
    requires k < |s.frames| && FlushSplit(s.frames, []).0 == s.frames[k..]
    ensures var last := s.frames[|s.frames| - 1];
            && Flush(s).ready == ErasureBefore(s, s.frames[k]) + Wrapped(s.frames[k..])
            && Flush(s).state.lastLseq == last.lseq && Flush(s).state.lastTs == last.info.ts
  {
    hide FlushSplit, ErasureBefore, Wrapped;
    var run := s.frames[k..];
    assert run[0] == s.frames[k] && run[|run| - 1] == s.frames[|s.frames| - 1];
  }

  lemma FlushStream(s: State, base: nat, step: nat)
    requires Inv(s) && LastOnStream(s, base, step) && Each(s.frames, OnStream(base, step))
    ensures StreamStep(s, Flush(s).ready, Flush(s).state, base, step)
  {
    if s.frames != [] {
      hide Inv, Sorted, Consecutive, FlushSplit, LastOnStream, ErasureBefore, OnStream, Each, AllSpanGaps, Flush, Wrapped, StreamStep;
      InvMarks(s);
      var k := FlushSplitRun(s.frames, []);
      EachSlice(s.frames, k, OnStream(base, step));
      var run := s.frames[k..];
      assert run[0] == s.frames[k] && run[|run| - 1] == s.frames[|s.frames| - 1];
      HeadNoLater(s, k);
      FlushFrom(s, k);
      HandOutStream(s, run[0], run, Flush(s).state, base, step);
    }
  }

  lemma HeadNoLater(s: State, k: nat)
    requires Inv(s) && k < |s.frames|
    ensures s.frames[0].lseq <= s.frames[k].lseq
  {
    SortedAt(s.frames, 0, k);
  }

  lemma StepStream(s: State, op: Op, base: nat, step: nat)
    requires Inv(s) && StepOk(s, op) && LastOnStream(s, base, step)
    requires Each(s.frames, OnStream(base, step))
    requires op.In? && Parse(op.d.bytes).Parsed? ==> OnStream(base, step)(Assigned(s, op.d), Parse(op.d.bytes).info, op.d)
    ensures StreamStep(s, Step(s, op).ready, Step(s, op).state, base, step)
  {
    hide Inv, UdpIn, Flush, StreamStep, Each, OnStream, Underflow, Assigned, Parse;
    match op
    case In(d) => UdpInStream(s, d, base, step);
    case DoFlush => FlushStream(s, base, step);
  }

  /** On an evenly spaced stream, an erasure of a run spans its gap exactly when the product of the source fits 32 bits;
      only one that opens the run during warm-up is left out. */
  lemma {:induction false} RunErasuresSpanGaps(s: State, ops: seq<Op>, base: nat, step: nat)
    requires Inv(s) && RunOk(s, ops) && LastOnStream(s, base, step)
    requires Each(s.frames, OnStream(base, step)) && EachTaken(s, ops, OnStream(base, step))
    ensures AllSpanGaps(s.WarmUp(), Run(s, ops).ready, step)
    decreases |ops|
  {
    if ops != [] {
      hide Inv, Step, StepOk, LastOnStream, Each, OnStream, AllSpanGaps, Assigned, Parse, Tiled;
      var o := Step(s, ops[0]);
      StepKeeps(s, ops[0]);
      StepTiled(s, ops[0]);
      EachStep(s, ops[0], OnStream(base, step));
      StepStream(s, ops[0], base, step);
      RunErasuresSpanGaps(o.state, ops[1..], base, step);
      WarmUpEnds(s, o);
      JoinSpans(s.WarmUp(), o.state.WarmUp(), o.ready, Run(o.state, ops[1..]).ready, step);
    }
  }

  lemma WarmUpEnds(s: State, o: Outcome)
    requires Tiled(s, o.ready, o.state)
    ensures o.ready != [] ==> !o.state.WarmUp()
    ensures o.ready == [] ==> o.state.WarmUp() == s.WarmUp()
  {
  }

  lemma JoinSpans(warmUp: bool, stillWarmUp: bool, fs: seq<Frame>, gs: seq<Frame>, step: nat)
    requires if fs == [] then stillWarmUp == warmUp else !stillWarmUp
    requires AllSpanGaps(warmUp, fs, step) && AllSpanGaps(stillWarmUp, gs, step)
    ensures AllSpanGaps(warmUp, fs + gs, step)
  {
    hide SpansGap;
    if fs == [] {
      assert fs + gs == gs;
    }
  }
}
