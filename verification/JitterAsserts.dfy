/**
 The assertions of rtpjbuf_udp_in (src/rtpjbuf.c:165-292, and 160 in save_last), collected: they hold in every good
 state, and after a packet that underflowed they fail on the next call exactly when that packet was number 65535.
 Left out are those that hold whatever the state: 146, 230, 252 and 275.
 */
module JitterAsserts {
  import opened Common
  import opened Rtp
  import opened JitterBuffer
  import opened JitterInvariant

  /** Line 160: the last number handed out only moves upwards. */
  predicate MaySave(s: State, lseq: nat) {
    s.WarmUp() || s.lastLseq < lseq
  }

  /** Line 160, by way of 227. */
  predicate EmptyAsserts(s: State, lseq: nat) {
    !s.WarmUp() && s.lastLseq == Sub64(lseq, 1) ==> MaySave(s, lseq)
  }

  /** Lines 274, 160 by way of 278, and 281-284. */
  predicate ReleaseAsserts(s: State)
    requires s.frames != []
  {
    var k := RunLength(s.frames);
    && (s.WarmUp() || s.lastLseq < s.frames[0].lseq)
    && MaySave(s, s.frames[k - 1].lseq)
    && (if k == |s.frames| then s.size - k == 0 else s.size - k > 0)
  }

  /** Line 260, then those of a release if there is one. */
  predicate InsertAsserts(s: State, fp: RtpFrame)
    requires s.frames != []
  {
    var k := InsertPos(s.frames, fp.lseq);
    || (k < |s.frames| && s.frames[k].lseq == fp.lseq)
    || (&& (k == |s.frames| ==> s.lastMax < fp.lseq)
        && (MustRelease(Insert(s, fp, k)) ==> ReleaseAsserts(Insert(s, fp, k))))
  }

  /** Lines 222 and 223, or those of an insertion. */
  predicate AdmitAsserts(s: State, fp: RtpFrame) {
    || (!s.WarmUp() && fp.lseq <= s.lastLseq)
    || (if s.frames == [] then s.size == 0 && s.lastMax < fp.lseq && EmptyAsserts(s, fp.lseq) else InsertAsserts(s, fp))
  }

  /** Lines 198 and 202, and those that follow. */
  predicate UdpInAsserts(s: State, d: Datagram) {
    var s1 := PurgeStaleTail(s).0;
    match Parse(d.bytes)
    case Malformed(_) => true
    case Parsed(info) =>
      if s1.lastMax == LSEQ_NONE then s1.frames == [] && EmptyAsserts(s1, s1.mask + info.seqno)
      else
        var (mask, lseq) := Unwrap(s1.mask, s1.lastMax, info.seqno);
        && (s1.frames == [] || s1.WarmUp() || Sub64(s1.frames[0].lseq, 1) > s1.lastLseq)
        && AdmitAsserts(Bumped(s1, mask), RtpFrame(info, lseq, 0, d))
  }

  // ----- what they need -----

  /** The part of the invariant that does not speak of the epoch: an underflow keeps it. */
  ghost predicate Ordered(s: State) {
    && s.size == |s.frames| && Sorted(s.frames) && s.lastLseq <= LSEQ_NONE
    && (s.frames == [] ==> s.lastMax == s.lastLseq)
    && (s.frames != [] ==> s.lastMax == s.frames[|s.frames| - 1].lseq)
    && (s.frames != [] && !s.WarmUp() ==> s.frames[0].lseq >= s.lastLseq + 2)
  }

  lemma InvOrdered(s: State)
    requires Inv(s)
    ensures Ordered(s) && (s.lastMax == LSEQ_NONE ==> s.frames == [])
  {
    InvMarks(s);
  }

  /** The state after an insertion, before anything is handed out. */
  ghost predicate OrderedBeyond(s: State) {
    && s.frames != [] && s.size == |s.frames| && Sorted(s.frames) && s.lastLseq <= LSEQ_NONE
    && s.lastMax == s.frames[|s.frames| - 1].lseq
    && (s.WarmUp() || s.lastLseq < s.frames[0].lseq)
  }

  lemma InsertOrdered(s: State, fp: RtpFrame, k: nat)
    requires Ordered(s) && s.frames != [] && FitsAt(s.frames, fp, k) && (s.WarmUp() || s.lastLseq < fp.lseq)
    ensures OrderedBeyond(Insert(s, fp, k)) && (k == |s.frames| ==> s.lastMax < fp.lseq)
  {
    InsertSorted(s.frames, fp, k);
    SplicedEnds(s.frames, fp, k);
    hide Sorted, Spliced;
  }

  lemma SortedFirst(frames: seq<RtpFrame>, k: nat)
    requires Sorted(frames) && k < |frames|
    ensures frames[0].lseq <= frames[k].lseq
  {
  }

  lemma OrderedRelease(s: State)
    requires OrderedBeyond(s)
    ensures ReleaseAsserts(s)
  {
    hide Sorted, RunLength, Consecutive;
    RunLengthRun(s.frames);
    SortedFirst(s.frames, RunLength(s.frames) - 1);
  }

  lemma OrderedInsert(s: State, fp: RtpFrame)
    requires Ordered(s) && s.frames != [] && (s.WarmUp() || s.lastLseq < fp.lseq)
    ensures InsertAsserts(s, fp)
  {
    var k := InsertPos(s.frames, fp.lseq);
    if !(k < |s.frames| && s.frames[k].lseq == fp.lseq) {
      InsertPosFits(s.frames, fp);
      InsertOrdered(s, fp, k);
      OrderedRelease(Insert(s, fp, k));
      hide ReleaseAsserts, Insert, FitsAt, Sorted;
    }
  }

  lemma OrderedAdmit(s: State, fp: RtpFrame)
    requires Ordered(s) && s.lastMax != LSEQ_NONE
    ensures AdmitAsserts(s, fp)
  {
    if !(!s.WarmUp() && fp.lseq <= s.lastLseq) && s.frames != [] {
      OrderedInsert(s, fp);
      hide InsertAsserts, Sorted;
    }
  }

  lemma OrderedBumped(s: State, mask: nat)
    requires Ordered(s)
    ensures Ordered(Bumped(s, mask)) && Bumped(s, mask).lastMax == s.lastMax
  {
    hide Sorted;
  }

  /** If the buffer is in order after the purge, every assertion holds. */
  lemma OrderedAsserts(s: State, d: Datagram)
    requires Ordered(PurgeStaleTail(s).0)
    requires PurgeStaleTail(s).0.lastMax == LSEQ_NONE ==> PurgeStaleTail(s).0.frames == []
    ensures UdpInAsserts(s, d)
  {
    hide PurgeStaleTail, Parse, Unwrap, AdmitAsserts, Sorted, Bumped;
    var s1 := PurgeStaleTail(s).0;
    if Parse(d.bytes).Parsed? && s1.lastMax != LSEQ_NONE {
      var info := Parse(d.bytes).info;
      var (mask, lseq) := Unwrap(s1.mask, s1.lastMax, info.seqno);
      OrderedBumped(s1, mask);
      OrderedAdmit(Bumped(s1, mask), RtpFrame(info, lseq, 0, d));
    }
  }

  /** In a good state no assertion of udp_in fails, whatever the packet. */
  lemma AssertsHold(s: State, d: Datagram)
    requires Inv(s)
    ensures UdpInAsserts(s, d)
  {
    hide Inv, PurgeStaleTail, UdpInAsserts, Ordered;
    PurgeKeeps(s);
    InvOrdered(PurgeStaleTail(s).0);
    OrderedAsserts(s, d);
  }

  // ----- after an underflow -----

  lemma ReleaseOrdered(s: State)
    requires OrderedBeyond(s)
    ensures var t := Release(s).0; s.frames[RunLength(s.frames) - 1].lseq < LSEQ_NONE ==> Ordered(t)
  {
    hide Sorted, RunLength, Consecutive, ErasureBefore, Wrapped;
    RunLengthRun(s.frames);
    SuffixSorted(s.frames, RunLength(s.frames));
  }

  lemma SuffixSorted(frames: seq<RtpFrame>, k: nat)
    requires 0 < k <= |frames| && Sorted(frames)
    ensures Sorted(frames[k..])
    ensures k < |frames| ==> frames[k - 1].lseq < frames[k].lseq && frames[k..][|frames| - k - 1] == frames[|frames| - 1]
  {
  }

  lemma SettleOrdered(s: State, purged: seq<RtpFrame>)
    requires OrderedBeyond(s) && s.lastMax < LSEQ_NONE
    ensures Ordered(Settle(s, purged).state)
  {
    hide RunLength, Sorted, Release;
    if MustRelease(s) {
      SortedLast(s.frames, RunLength(s.frames) - 1);
      ReleaseOrdered(s);
    }
  }

  lemma SortedLast(frames: seq<RtpFrame>, k: nat)
    requires Sorted(frames) && k < |frames|
    ensures frames[k].lseq <= frames[|frames| - 1].lseq
  {
  }

  /** A packet with any number but the mark leaves the buffer in order. */
  lemma AdmitOrdered(s: State, fp: RtpFrame, purged: seq<RtpFrame>)
    requires Ordered(s) && s.lastMax < fp.lseq < LSEQ_NONE
    ensures Ordered(Admit(s, fp, purged).state)
  {
    if !(!s.WarmUp() && fp.lseq <= s.lastLseq) && s.frames != [] {
      var k := InsertPos(s.frames, fp.lseq);
      InsertPosSplits(s.frames, fp.lseq);
      assert k == |s.frames|;
      InsertPosFits(s.frames, fp);
      InsertOrdered(s, fp, k);
      assert Insert(s, fp, k).lastMax < LSEQ_NONE;
      SettleOrdered(Insert(s, fp, k), purged);
      hide Settle, Insert, FitsAt, Sorted;
    }
  }

  /** An underflow that does not hit the mark leaves the buffer in order. */
  lemma UnderflowOrdered(s: State, d: Datagram)
    requires Inv(s) && Underflow(s, d) && Parse(d.bytes).info.seqno < 65535
    ensures Ordered(UdpIn(s, d).state)
  {
    hide Inv, PurgeStaleTail, Parse, Admit, Ordered;
    PurgeKeeps(s);
    ParsedExtent(d.bytes);
    var (s1, purged) := PurgeStaleTail(s);
    InvMarks(s1);
    InvOrdered(s1);
    var info := Parse(d.bytes).info;
    var lseq := Unwrap(s1.mask, s1.lastMax, info.seqno).1;
    OrderedBumped(s1, s1.mask);
    AdmitOrdered(Bumped(s1, s1.mask), RtpFrame(info, lseq, 0, d), purged);
  }

  /** A tail that has just come in is not purged. */
  lemma YoungTailStays(t: State)
    requires t.capacity >= 3 && t.frames != [] && t.frames[|t.frames| - 1].jbcnt == 0
    ensures var t1 := PurgeStaleTail(t).0;
            t1.lastMax == t.lastMax && t1.frames != [] && (Ordered(t) ==> Ordered(t1))
  {
  }

  /** After an underflow the next packet, whatever it is, makes the source abort exactly when the packet that underflowed
      had sequence number 65535, whose number is the mark for "no number yet". */
  lemma UnderflowAborts(s: State, d: Datagram, e: Datagram)
    requires Inv(s) && s.capacity >= 3 && Underflow(s, d) && Parse(e.bytes).Parsed?
    ensures !UdpInAsserts(UdpIn(s, d).state, e) <==> Parse(d.bytes).info.seqno == 65535
  {
    hide Inv, UdpIn, Parse, PurgeStaleTail, Ordered;
    UnderflowLeaves(s, d);
    var t := UdpIn(s, d).state;
    YoungTailStays(t);
    ParsedExtent(d.bytes);
    if Parse(d.bytes).info.seqno < 65535 {
      UnderflowOrdered(s, d);
      OrderedAsserts(t, e);
    }
  }
}
