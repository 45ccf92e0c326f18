/**
 What every call of the jitter buffer keeps (src/rtpjbuf.c), for a capacity of 0 or of at least 3: the buffer is
 strictly ascending, its size field counts it and stays below the capacity, the largest number is the tail's, and
 what is buffered lies at least two beyond what was handed out. The assertions in the source are consequences.
 */
module JitterInvariant {
  import opened Common
  import opened Rtp
  import opened JitterBuffer

  ghost predicate Sorted(frames: seq<RtpFrame>) {
    forall i, j :: 0 <= i < j < |frames| ==> frames[i].lseq < frames[j].lseq
  }

  /** The capacities the buffer works with: 0 means that it is never full. */
  predicate Usable(capacity: nat) {
    capacity == 0 || 3 <= capacity < TWO32
  }

  /** At most n of a buffer's places are taken; a buffer of capacity 0 has no limit of its own. */
  predicate AtMost(capacity: nat, used: int, n: int) {
    capacity == 0 || used <= n
  }

  /** A buffered frame is what its datagram parses to, numbered in step with its sequence number. */
  ghost predicate FrameOk(f: RtpFrame, mask: nat, capacity: nat) {
    && Parse(f.data.bytes) == Parsed(f.info)
    && f.info.seqno < EPOCH
    && f.lseq % 0x1_0000 == f.info.seqno
    && f.lseq < mask + EPOCH
    && (capacity == 0 || f.jbcnt < capacity)
  }

  ghost predicate FramesOk(frames: seq<RtpFrame>, mask: nat, capacity: nat) {
    forall i :: 0 <= i < |frames| ==> FrameOk(frames[i], mask, capacity)
  }

  /** The two marks: the largest number accepted and the last number handed out. */
  ghost predicate Anchored(s: State) {
    && (s.frames == [] ==> s.lastMax == s.lastLseq)
    && (s.frames != [] ==> s.lastMax == s.frames[|s.frames| - 1].lseq)
    && (s.frames != [] && !s.WarmUp() ==> s.frames[0].lseq >= s.lastLseq + 2)
    && (!s.WarmUp() ==> s.lastLseq < s.mask + EPOCH)
  }

  ghost predicate Inv(s: State) {
    && Usable(s.capacity)
    && s.size == |s.frames| && AtMost(s.capacity, s.size, s.capacity - 1)
    && s.mask % 0x1_0000 == 0 && s.mask <= TWO64 - 2 * EPOCH
    && Sorted(s.frames)
    && FramesOk(s.frames, s.mask, s.capacity)
    && Anchored(s)
  }

  /** Logical numbers stay well under 2^64: there is room for one more epoch. */
  predicate Room(s: State) {
    s.mask <= TWO64 - 3 * EPOCH
  }

  /** The pre-wrap branch is taken in the first epoch, where its subtraction wraps below 0. */
  predicate Underflow(s: State, d: Datagram) {
    && s.mask == 0
    && Parse(d.bytes).Parsed?
    && PurgeStaleTail(s).0.lastMax != LSEQ_NONE
    && PreWrap(PurgeStaleTail(s).0.lastMax, Parse(d.bytes).info.seqno)
  }

  lemma InitInv(capacity: nat)
    requires Usable(capacity)
    ensures Inv(Init(capacity))
  {
  }

  /** The parts of the invariant that do not speak of every frame. */
  lemma InvMarks(s: State)
    requires Inv(s)
    ensures s.mask % 0x1_0000 == 0 && s.mask <= TWO64 - 2 * EPOCH && Usable(s.capacity)
    ensures s.lastMax == LSEQ_NONE <==> s.frames == [] && s.WarmUp()
    ensures s.frames == [] ==> s.lastMax == s.lastLseq
    ensures s.frames != [] ==> s.lastMax == s.frames[|s.frames| - 1].lseq
    ensures s.lastMax == LSEQ_NONE || s.lastMax < s.mask + EPOCH
    ensures s.WarmUp() || s.lastLseq < s.mask + EPOCH
    ensures s.frames != [] && !s.WarmUp() ==> s.lastLseq + 2 <= s.frames[0].lseq
    ensures s.lastLseq <= LSEQ_NONE
  {
    if s.frames != [] {
      assert FrameOk(s.frames[|s.frames| - 1], s.mask, s.capacity);
    }
  }

  // ----- runs and positions -----

  ghost predicate Consecutive(run: seq<RtpFrame>) {
    forall i :: 0 <= i < |run| ==> run[i].lseq == run[0].lseq + i
  }

  lemma ConsecutiveCons(run: seq<RtpFrame>)
    requires |run| > 1 && Consecutive(run[1..]) && run[0].lseq + 1 == run[1].lseq
    ensures Consecutive(run)
  {
    forall i | 0 <= i < |run|
      ensures run[i].lseq == run[0].lseq + i
    {
      if i > 0 {
        assert run[i] == run[1..][i - 1];
      }
    }
  }

  /** The run at the head is the longest prefix of consecutive numbers. */
  lemma {:induction false} RunLengthRun(frames: seq<RtpFrame>)
    requires frames != []
    ensures var k := RunLength(frames);
            && 0 < k <= |frames|
            && Consecutive(frames[..k])
            && frames[k - 1].lseq == frames[0].lseq + (k - 1)
            && (k < |frames| ==> frames[k - 1].lseq + 1 != frames[k].lseq)
  {
    if |frames| > 1 && frames[0].lseq + 1 == frames[1].lseq {
      var rest := frames[1..];
      var k := RunLength(frames);
      RunLengthRun(rest);
      assert frames[..k][1..] == rest[..k - 1];
      hide Consecutive;
      ConsecutiveCons(frames[..k]);
    }
  }

  lemma {:induction false} InsertPosSplits(frames: seq<RtpFrame>, lseq: nat)
    requires Sorted(frames)
    ensures var k := InsertPos(frames, lseq);
            && (forall i :: 0 <= i < k ==> frames[i].lseq < lseq)
            && (forall i :: k <= i < |frames| ==> lseq <= frames[i].lseq)
            && (forall i :: k < i < |frames| ==> lseq < frames[i].lseq)
  {
    if frames != [] && frames[0].lseq < lseq {
      InsertPosSplits(frames[1..], lseq);
    }
  }

  // ----- the purge -----

  lemma PrefixKeeps(frames: seq<RtpFrame>, n: nat, mask: nat, capacity: nat)
    requires n <= |frames| && Sorted(frames) && FramesOk(frames, mask, capacity)
    ensures Sorted(frames[..n]) && FramesOk(frames[..n], mask, capacity)
  {
  }

  lemma AgedTailKeeps(frames: seq<RtpFrame>, tail: RtpFrame, mask: nat, capacity: nat)
    requires frames != [] && Sorted(frames) && FramesOk(frames, mask, capacity)
    requires tail == frames[|frames| - 1].(jbcnt := tail.jbcnt) && tail.jbcnt < capacity
    ensures var aged := frames[..|frames| - 1] + [tail];
            && |aged| == |frames| && aged[|frames| - 1] == tail && aged[0].lseq == frames[0].lseq
            && Sorted(aged) && FramesOk(aged, mask, capacity)
  {
  }

  lemma AgedKeeps(s: State, tail: RtpFrame)
    requires Inv(s) && s.frames != []
    requires tail == s.frames[|s.frames| - 1].(jbcnt := tail.jbcnt) && tail.jbcnt < s.capacity
    ensures Inv(s.(frames := s.frames[..|s.frames| - 1] + [tail]))
  {
    hide Sorted, FramesOk;
    AgedTailKeeps(s.frames, tail, s.mask, s.capacity);
  }

  lemma TailDroppedKeeps(s: State, n: nat)
    requires Inv(s) && |s.frames| == n + 1 && n > 0
    ensures Inv(s.(frames := s.frames[..n], size := n, lastMax := s.frames[n - 1].lseq))
  {
    hide Sorted, FramesOk;
    PrefixKeeps(s.frames, n, s.mask, s.capacity);
    assert s.frames[..n][n - 1] == s.frames[n - 1] && s.frames[..n][0] == s.frames[0];
  }

  lemma PurgeKeeps(s: State)
    requires Inv(s)
    ensures var (s1, purged) := PurgeStaleTail(s);
            && Inv(s1)
            && s1.mask == s.mask && s1.lastLseq == s.lastLseq && s1.capacity == s.capacity && s1.lastTs == s.lastTs
            && |purged| <= 1
            && (s.frames == [] <==> s1.frames == [])
  {
    hide Sorted, FramesOk, Anchored;
    InvMarks(s);
    if s.frames != [] && s.size >= Sub32(s.capacity, 1) {
      var n := |s.frames| - 1;
      assert n > 0;
      var tail := s.frames[n].(jbcnt := s.frames[n].jbcnt + 1);
      if tail.jbcnt < s.capacity {
        AgedKeeps(s, tail);
      } else {
        TailDroppedKeeps(s, n);
      }
    }
  }

  // ----- admission -----

  ghost predicate Fresh(s: State, fp: RtpFrame) {
    FrameOk(fp, s.mask, s.capacity)
  }

  lemma AdmitToEmptyKeeps(s: State, fp: RtpFrame, purged: seq<RtpFrame>)
    requires Inv(s) && Fresh(s, fp) && s.frames == []
    requires s.WarmUp() || s.lastLseq < fp.lseq
    ensures Inv(AdmitToEmpty(s, fp, purged).state)
  {
  }

  ghost predicate AlmostInv(s: State) {
    && Usable(s.capacity)
    && s.size == |s.frames| && AtMost(s.capacity, s.size, s.capacity)
    && s.mask % 0x1_0000 == 0 && s.mask <= TWO64 - 2 * EPOCH
    && Sorted(s.frames)
    && FramesOk(s.frames, s.mask, s.capacity)
    && s.frames != []
    && s.lastMax == s.frames[|s.frames| - 1].lseq
    && (!s.WarmUp() ==> s.lastLseq < s.frames[0].lseq)
    && (!s.WarmUp() ==> s.lastLseq < s.mask + EPOCH)
  }

  /** A packet that is neither a duplicate nor late goes strictly between its neighbours. */
  ghost predicate FitsAt(frames: seq<RtpFrame>, fp: RtpFrame, k: nat) {
    && k <= |frames|
    && (forall i :: 0 <= i < k ==> frames[i].lseq < fp.lseq)
    && (forall i :: k <= i < |frames| ==> fp.lseq < frames[i].lseq)
  }

  lemma InsertSorted(frames: seq<RtpFrame>, fp: RtpFrame, k: nat)
    requires Sorted(frames) && FitsAt(frames, fp, k)
    ensures Sorted(Spliced(frames, fp, k))
  {
  }

  lemma InsertFramesOk(frames: seq<RtpFrame>, fp: RtpFrame, k: nat, mask: nat, capacity: nat)
    requires k <= |frames| && FramesOk(frames, mask, capacity) && FrameOk(fp, mask, capacity)
    ensures FramesOk(Spliced(frames, fp, k), mask, capacity)
  {
  }

  lemma SplicedEnds(frames: seq<RtpFrame>, fp: RtpFrame, k: nat)
    requires frames != [] && k <= |frames|
    ensures var r := Spliced(frames, fp, k);
            && r[0] == (if k == 0 then fp else frames[0])
            && r[|r| - 1] == (if k == |frames| then fp else frames[|frames| - 1])
  {
  }

  lemma InsertPosFits(frames: seq<RtpFrame>, fp: RtpFrame)
    requires Sorted(frames)
    requires var k := InsertPos(frames, fp.lseq); !(k < |frames| && frames[k].lseq == fp.lseq)
    ensures FitsAt(frames, fp, InsertPos(frames, fp.lseq))
  {
    InsertPosSplits(frames, fp.lseq);
  }

  lemma InsertKeeps(s: State, fp: RtpFrame, k: nat)
    requires Inv(s) && Fresh(s, fp) && s.frames != []
    requires s.WarmUp() || s.lastLseq < fp.lseq
    requires FitsAt(s.frames, fp, k)
    ensures AlmostInv(Insert(s, fp, k))
  {
    hide Sorted, FramesOk, Spliced;
    InsertSorted(s.frames, fp, k);
    InsertFramesOk(s.frames, fp, k, s.mask, s.capacity);
    SplicedEnds(s.frames, fp, k);
  }

  lemma ReleaseKeeps(s: State)
    requires AlmostInv(s)
    ensures Inv(Release(s).0)
  {
    hide Sorted, FramesOk, Consecutive, RunLength, ErasureBefore, Wrapped;
    RunLengthRun(s.frames);
    SuffixKeeps(s.frames, RunLength(s.frames), s.mask, s.capacity);
  }

  lemma SuffixKeeps(frames: seq<RtpFrame>, k: nat, mask: nat, capacity: nat)
    requires 0 < k <= |frames| && Sorted(frames) && FramesOk(frames, mask, capacity)
    ensures Sorted(frames[k..]) && FramesOk(frames[k..], mask, capacity)
    ensures frames[k - 1].lseq < mask + EPOCH
    ensures k < |frames| ==> frames[k - 1].lseq < frames[k].lseq && frames[k..][|frames| - k - 1] == frames[|frames| - 1]
  {
    assert FrameOk(frames[k - 1], mask, capacity);
  }

  lemma SettleKeeps(s: State, purged: seq<RtpFrame>)
    requires AlmostInv(s)
    ensures Inv(Settle(s, purged).state)
  {
    if MustRelease(s) {
      ReleaseKeeps(s);
    }
  }

  lemma StatsKeep(s: State, stats: Stats)
    requires Inv(s)
    ensures Inv(s.(stats := stats))
  {
    hide Sorted, FramesOk;
  }

  lemma AdmitInOrderKeeps(s: State, fp: RtpFrame, purged: seq<RtpFrame>)
    requires Inv(s) && Fresh(s, fp) && s.frames != []
    requires s.WarmUp() || s.lastLseq < fp.lseq
    ensures Inv(AdmitInOrder(s, fp, purged).state)
  {
    hide Sorted, FramesOk, Insert, Settle;
    var k := InsertPos(s.frames, fp.lseq);
    if k < |s.frames| && s.frames[k].lseq == fp.lseq {
      StatsKeep(s, s.stats.(dup := s.stats.dup + 1));
    } else {
      InsertPosFits(s.frames, fp);
      InsertKeeps(s, fp, k);
      SettleKeeps(Insert(s, fp, k), purged);
    }
  }

  lemma AdmitKeeps(s: State, fp: RtpFrame, purged: seq<RtpFrame>)
    requires Inv(s) && Fresh(s, fp)
    ensures Inv(Admit(s, fp, purged).state)
  {
    if !s.WarmUp() && fp.lseq <= s.lastLseq {
      StatsKeep(s, s.stats.(dup := s.stats.dup + 1));
      StatsKeep(s, s.stats.(late := s.stats.late + 1));
    } else if s.frames == [] {
      AdmitToEmptyKeeps(s, fp, purged);
    } else {
      AdmitInOrderKeeps(s, fp, purged);
    }
  }

  /** Away from the underflow, extension keeps the low 16 bits and stays below the end of the new epoch. */
  lemma UnwrapInEpoch(mask: nat, lastMax: nat, seqno: nat)
    requires mask % 0x1_0000 == 0 && seqno < EPOCH
    requires !(mask == 0 && PreWrap(lastMax, seqno))
    ensures var (m, lseq) := Unwrap(mask, lastMax, seqno);
            && m % 0x1_0000 == 0 && mask <= m <= mask + EPOCH
            && lseq % 0x1_0000 == seqno && lseq < m + EPOCH
  {
  }

  lemma BumpedKeeps(s: State, mask: nat)
    requires Inv(s) && s.mask <= mask <= TWO64 - 2 * EPOCH && mask % 0x1_0000 == 0
    ensures Inv(Bumped(s, mask))
  {
    hide Sorted;
  }

  lemma ReceiveKeeps(s: State, info: Info, d: Datagram, purged: seq<RtpFrame>)
    requires Inv(s) && Room(s)
    requires Parse(d.bytes) == Parsed(info) && info.seqno < EPOCH
    requires s.lastMax != LSEQ_NONE ==> !(s.mask == 0 && PreWrap(s.lastMax, info.seqno))
    ensures Inv(Receive(s, info, d, purged).state)
  {
    InvMarks(s);
    hide Inv, Admit, AdmitToEmpty;
    if s.lastMax == LSEQ_NONE {
      AdmitToEmptyKeeps(s, RtpFrame(info, s.mask + info.seqno, 0, d), purged);
    } else {
      UnwrapInEpoch(s.mask, s.lastMax, info.seqno);
      var (mask, lseq) := Unwrap(s.mask, s.lastMax, info.seqno);
      BumpedKeeps(s, mask);
      AdmitKeeps(Bumped(s, mask), RtpFrame(info, lseq, 0, d), purged);
    }
  }

  /** Away from the underflow, every udp_in keeps the invariant. */
  lemma UdpInKeeps(s: State, d: Datagram)
    requires Inv(s) && Room(s) && !Underflow(s, d)
    ensures Inv(UdpIn(s, d).state)
  {
    hide Inv, PurgeStaleTail, Receive, Parse;
    PurgeKeeps(s);
    var (s1, purged) := PurgeStaleTail(s);
    if Parse(d.bytes).Parsed? {
      ParsedExtent(d.bytes);
      ReceiveKeeps(s1, Parse(d.bytes).info, d, purged);
    } else {
      StatsKeep(s1, s1.stats.(perror := s1.stats.perror + 1));
    }
  }

  // ----- flush -----

  /** Flush keeps the longest suffix of consecutive numbers. */
  lemma {:induction false} FlushSplitRun(frames: seq<RtpFrame>, dropped: seq<RtpFrame>) returns (k: nat)
    requires frames != []
    ensures k < |frames|
    ensures FlushSplit(frames, dropped).0 == frames[k..]
    ensures Consecutive(frames[k..])
    ensures k > 0 ==> frames[k - 1].lseq + 1 != frames[k].lseq
    decreases |frames|
  {
    hide Consecutive;
    RunLengthRun(frames);
    var r := RunLength(frames);
    if r == |frames| {
      k := 0;
      assert frames[..r] == frames[0..];
    } else {
      var rest := frames[r..];
      var k' := FlushSplitRun(rest, frames[..r] + dropped);
      k := r + k';
      assert rest[k'..] == frames[k..];
    }
  }

  /** Flush empties the buffer, and the tail's number becomes the last one handed out. */
  lemma FlushEmpties(s: State)
    requires Inv(s) && s.frames != []
    ensures var t := Flush(s).state;
            && t.frames == [] && t.size == 0 && t.lastLseq == s.frames[|s.frames| - 1].lseq
            && t.mask == s.mask && t.capacity == s.capacity && t.lastMax == s.lastMax && !t.WarmUp()
  {
    hide Sorted, FramesOk;
    InvMarks(s);
    var k := FlushSplitRun(s.frames, []);
    var run := FlushSplit(s.frames, []).0;
    assert run[|run| - 1] == s.frames[|s.frames| - 1];
  }

  lemma FlushKeeps(s: State)
    requires Inv(s)
    ensures Inv(Flush(s).state) && Flush(s).state.frames == []
  {
    if s.frames != [] {
      InvMarks(s);
      FlushEmpties(s);
      hide Flush;
    }
  }

  // ----- the underflow -----

  /** A number beyond every buffered one enters the buffer as its tail and stays there. */
  lemma FarTailStays(s: State, fp: RtpFrame, purged: seq<RtpFrame>)
    requires |s.frames| > 1 && s.frames[|s.frames| - 1] == fp
    requires s.frames[|s.frames| - 2].lseq + 1 != fp.lseq
    ensures var t := Settle(s, purged).state;
            && t.mask == s.mask && t.frames != [] && t.frames[|t.frames| - 1] == fp
            && t.lastMax == s.lastMax && t.capacity == s.capacity
  {
    RunLengthRun(s.frames);
    assert RunLength(s.frames) < |s.frames|;
  }

  /** In the first epoch the pre-wrap branch yields a number near 2^64, and the buffer takes it in. */
  lemma UnderflowAdmits(s: State, fp: RtpFrame, purged: seq<RtpFrame>)
    requires Inv(s) && s.mask == 0 && s.lastMax != LSEQ_NONE
    requires fp.lseq >= TWO64 - EPOCH
    ensures var t := Admit(s, fp, purged).state;
            && t.mask == 0 && t.frames != [] && t.frames[|t.frames| - 1] == fp
            && t.lastMax == fp.lseq && t.capacity == s.capacity
  {
    InvMarks(s);
    if s.frames != [] {
      var n := |s.frames|;
      InsertPosSplits(s.frames, fp.lseq);
      assert s.frames[n - 1].lseq < fp.lseq;
      assert InsertPos(s.frames, fp.lseq) == n by {
        FramesBelow(s.frames, s.mask, s.capacity);
      }
      hide Sorted, FramesOk;
      SplicedEnds(s.frames, fp, n);
      assert Spliced(s.frames, fp, n)[n - 1] == s.frames[n - 1];
      FarTailStays(Insert(s, fp, n), fp, purged);
    }
  }

  lemma FramesBelow(frames: seq<RtpFrame>, mask: nat, capacity: nat)
    requires FramesOk(frames, mask, capacity)
    ensures forall i :: 0 <= i < |frames| ==> frames[i].lseq < mask + EPOCH
  {
  }

  /** What an underflow leaves: a tail numbered near 2^64, which is also the largest number. */
  lemma UnderflowLeaves(s: State, d: Datagram)
    requires Inv(s) && Underflow(s, d)
    ensures var t := UdpIn(s, d).state;
            var lseq := TWO64 - EPOCH + Parse(d.bytes).info.seqno;
            && t.mask == 0 && t.capacity == s.capacity && t.lastMax == lseq
            && t.frames != [] && t.frames[|t.frames| - 1] == RtpFrame(Parse(d.bytes).info, lseq, 0, d)
  {
    hide Inv, PurgeStaleTail, Parse, Admit;
    InvMarks(s);
    PurgeKeeps(s);
    ParsedExtent(d.bytes);
    var (s1, purged) := PurgeStaleTail(s);
    var info := Parse(d.bytes).info;
    var lseq := Unwrap(s1.mask, s1.lastMax, info.seqno).1;
    BumpedKeeps(s1, s1.mask);
    UnderflowAdmits(Bumped(s1, s1.mask), RtpFrame(info, lseq, 0, d), purged);
  }

  /** With room for another epoch, one udp_in keeps the invariant exactly when it does not underflow. */
  lemma UdpInKeepsIff(s: State, d: Datagram)
    requires Inv(s) && Room(s)
    ensures Inv(UdpIn(s, d).state) <==> !Underflow(s, d)
  {
    hide Inv, UdpIn, Parse;
    if Underflow(s, d) {
      UnderflowLeaves(s, d);
      var t := UdpIn(s, d).state;
      BeyondEpoch(t, t.frames[|t.frames| - 1]);
    } else {
      UdpInKeeps(s, d);
    }
  }

  lemma BeyondEpoch(t: State, fp: RtpFrame)
    requires t.frames != [] && t.frames[|t.frames| - 1] == fp && fp.lseq >= t.mask + EPOCH
    ensures !Inv(t)
  {
    assert !FrameOk(fp, t.mask, t.capacity);
  }

  // ----- the size field -----

  lemma AdmitGrowsByOne(s: State, fp: RtpFrame, purged: seq<RtpFrame>)
    ensures |Admit(s, fp, purged).state.frames| <= |s.frames| + 1
  {
    hide RunLength, InsertPos, ErasureBefore;
  }

  /** The size field fits its 32 bits, whatever the capacity. */
  lemma UdpInFits(s: State, d: Datagram)
    requires Inv(s) && |s.frames| < TWO32
    ensures |UdpIn(s, d).state.frames| < TWO32
  {
    hide Sorted, FramesOk, Anchored, Parse, Admit, Unwrap;
    InvMarks(s);
    var (s1, purged) := PurgeStaleTail(s);
    PurgeKeeps(s);
    assert |s1.frames| < TWO32 - 1;
    if Parse(d.bytes).Parsed? && s1.lastMax != LSEQ_NONE {
      var (mask, lseq) := Unwrap(s1.mask, s1.lastMax, Parse(d.bytes).info.seqno);
      AdmitGrowsByOne(Bumped(s1, mask), RtpFrame(Parse(d.bytes).info, lseq, 0, d), purged);
    }
  }
}
