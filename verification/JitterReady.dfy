/**
 When the jitter buffer hands packets out (src/rtpjbuf.c:221-285): a packet beyond a gap waits until the gap is filled
 or the buffer is full, and an erasure is made only in the latter case.
 */
module JitterReady {
  import opened Common
  import opened Rtp
  import opened JitterBuffer
  import opened JitterInvariant
  import opened JitterRuns
  import opened JitterNumbers

  /** Only the first frame of a ready list may be an erasure. */
  ghost predicate ErasureOnlyFirst(ready: seq<Frame>) {
    forall i :: 0 < i < |ready| ==> ready[i].Rtp?
  }

  predicate StartsWithErasure(ready: seq<Frame>) {
    ready != [] && ready[0].Ers?
  }

  /** What is handed out when a packet with number l, neither passed nor buffered, comes to a buffer of so many frames. */
  ghost predicate ReadyWhenDue(s: State, held: nat, l: nat, ready: seq<Frame>) {
    var next := !s.WarmUp() && l == s.lastLseq + 1;
    var first := s.WarmUp() && held == 0 && l == 0;
    var fills := held + 1 == s.capacity;
    && (ready != [] <==> next || first || fills)
    && (StartsWithErasure(ready) <==> fills && !next && !s.WarmUp())
    && ErasureOnlyFirst(ready)
  }

  lemma ReleaseReady(s: State)
    requires s.frames != [] && s.lastLseq <= LSEQ_NONE
    ensures Release(s).1 != [] && ErasureOnlyFirst(Release(s).1)
    ensures StartsWithErasure(Release(s).1) <==> !s.WarmUp() && s.frames[0].lseq != s.lastLseq + 1
  {
    hide RunLength, ErasureTs;
  }

  lemma InsertReady(s: State, fp: RtpFrame, purged: seq<RtpFrame>)
    requires Inv(s) && s.frames != [] && (s.WarmUp() || s.lastLseq < fp.lseq) && !Buffered(s.frames, fp.lseq)
    ensures ReadyWhenDue(s, |s.frames|, fp.lseq, AdmitInOrder(s, fp, purged).ready)
  {
    var k := InsertPos(s.frames, fp.lseq);
    PosOf(s, fp);
    InvMarks(s);
    SplicedEnds(s.frames, fp, k);
    var t := Insert(s, fp, k);
    assert t.frames[0] == (if k == 0 then fp else s.frames[0]);
    InvSize(s);
    hide Inv, InsertPos, Spliced, Release, Buffered;
    ReleaseReady(t);
  }

  lemma InvSize(s: State)
    requires Inv(s)
    ensures s.size == |s.frames|
  {
  }

  /** A new packet goes to the front exactly if its number is below the head's. */
  lemma PosOf(s: State, fp: RtpFrame)
    requires Inv(s) && s.frames != [] && !Buffered(s.frames, fp.lseq)
    ensures var k := InsertPos(s.frames, fp.lseq);
            !(k < |s.frames| && s.frames[k].lseq == fp.lseq) && (k == 0 <==> fp.lseq < s.frames[0].lseq)
  {
    PosFindsDuplicate(s.frames, fp.lseq);
    InsertPosSplits(s.frames, fp.lseq);
  }

  lemma EmptyReady(s: State, fp: RtpFrame, purged: seq<RtpFrame>)
    requires Inv(s) && s.frames == [] && (s.WarmUp() || s.lastLseq < fp.lseq)
    ensures ReadyWhenDue(s, 0, fp.lseq, AdmitToEmpty(s, fp, purged).ready)
  {
    InvMarks(s);
  }

  /** The packet at hand is handed out, or makes others be, exactly when it is the next number, or number 0 before any
      other, or fills the buffer; an erasure comes first exactly when it fills the buffer and is not the next number. A packet
      whose number was passed or is buffered hands nothing out. */
  lemma UdpInReadyExactly(s: State, d: Datagram)
    requires Inv(s) && Room(s) && !Underflow(s, d) && Parse(d.bytes).Parsed?
    ensures var s1 := PurgeStaleTail(s).0;
            var l := Assigned(s, d);
            var ready := UdpIn(s, d).ready;
            if (!s.WarmUp() && l <= s.lastLseq) || Buffered(s1.frames, l) then ready == []
            else ReadyWhenDue(s, |s1.frames|, l, ready)
  {
    hide Inv, Parse, PurgeStaleTail, Unwrap, Underflow, Assigned, Admit, AdmitToEmpty, ReadyWhenDue, Buffered;
    PurgeKeeps(s);
    var (s1, purged) := PurgeStaleTail(s);
    InvMarks(s1);
    ParsedExtent(d.bytes);
    AssignedIs(s, d);
    var info := Parse(d.bytes).info;
    if s1.lastMax == LSEQ_NONE {
      NoneBuffered(s1.mask + info.seqno);
      EmptyReady(s1, RtpFrame(info, s1.mask + info.seqno, 0, d), purged);
      SameDue(s, s1, 0, s1.mask + info.seqno, UdpIn(s, d).ready);
    } else {
      NoUnderflow(s, d);
      UnwrapInEpoch(s1.mask, s1.lastMax, info.seqno);
      var (mask, lseq) := Unwrap(s1.mask, s1.lastMax, info.seqno);
      BumpedKeeps(s1, mask);
      var s2 := Bumped(s1, mask);
      AdmitReady(s2, RtpFrame(info, lseq, 0, d), purged);
      SameDue(s, s2, |s1.frames|, lseq, UdpIn(s, d).ready);
    }
  }

  lemma NoneBuffered(l: nat)
    ensures !Buffered([], l)
  {
  }

  lemma SameDue(s: State, t: State, held: nat, l: nat, ready: seq<Frame>)
    requires t.lastLseq == s.lastLseq && t.capacity == s.capacity
    ensures ReadyWhenDue(t, held, l, ready) <==> ReadyWhenDue(s, held, l, ready)
  {
  }

  lemma AdmitReady(s: State, fp: RtpFrame, purged: seq<RtpFrame>)
    requires Inv(s) && s.lastMax != LSEQ_NONE
    ensures var ready := Admit(s, fp, purged).ready;
            if (!s.WarmUp() && fp.lseq <= s.lastLseq) || Buffered(s.frames, fp.lseq) then ready == []
            else ReadyWhenDue(s, |s.frames|, fp.lseq, ready)
  {
    if !s.WarmUp() && fp.lseq <= s.lastLseq {
    } else if s.frames == [] {
      NoneBuffered(fp.lseq);
      EmptyReady(s, fp, purged);
      hide AdmitToEmpty, Inv, Buffered, ReadyWhenDue;
    } else if Buffered(s.frames, fp.lseq) {
      PosFindsDuplicate(s.frames, fp.lseq);
      hide Inv, InsertPos, Settle;
    } else {
      InsertReady(s, fp, purged);
      hide AdmitInOrder, Inv, ReadyWhenDue, Buffered;
    }
  }
}
