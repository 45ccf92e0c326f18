/**
 The jitter buffer in place: the instance fields of src/rtpjbuf.c, the loops over its list, and the
 assertions of the source as assertions here. Each method is proved against the function of the same name.
 */
module JitterClass {
  import opened Common
  import opened Rtp
  import opened JitterBuffer
  import opened JitterInvariant

  class Buffer {
    var lastLseq: nat
    var lastTs: nat
    var lastMax: nat
    var mask: nat
    var frames: seq<RtpFrame>
    var size: int
    const capacity: nat
    var stats: Stats

    ghost function View(): State
      reads this
    {
      State(lastLseq, lastTs, lastMax, mask, frames, size, capacity, stats)
    }

    constructor (capacity: nat)
      ensures View() == Init(capacity)
      ensures lastLseq == lastMax == LSEQ_NONE && lastTs == 0 && mask == 0 && frames == [] && size == 0
      ensures this.capacity == capacity && stats == Stats(0, 0, 0, 0)
    {
      this.capacity := capacity;
      lastLseq, lastTs, lastMax, mask := LSEQ_NONE, 0, LSEQ_NONE, 0;
      frames, size, stats := [], 0, Stats(0, 0, 0, 0);
    }

    method PurgeStaleTail() returns (purged: seq<RtpFrame>)
      requires capacity < TWO32
      modifies this`frames, this`size, this`lastMax
      ensures (View(), purged) == JitterBuffer.PurgeStaleTail(old(View()))
    {
      if frames == [] || size < Sub32(capacity, 1) {
        return [];
      }
      var n := 0;
      while n + 1 < |frames|
        invariant n < |frames|
      {
        n := n + 1;
      }
      frames := frames[n := frames[n].(jbcnt := frames[n].jbcnt + 1)];
      assert frames[..n] == old(frames)[..n];
      var tail := frames[n];
      if tail.jbcnt < capacity {
        assert frames == old(frames)[..n] + [tail];
        return [];
      }
      frames := frames[..n];
      size := size - 1;
      if lastMax == tail.lseq {
        lastMax := if n > 0 then frames[n - 1].lseq else LSEQ_NONE;
      }
      return [tail];
    }

    method InsertErsFrame(fp: RtpFrame) returns (fs: seq<Frame>)
      ensures fs == ErasureBefore(View(), fp)
    {
      if Inc64(lastLseq) == fp.lseq {
        return [];
      }
      var start := Inc64(lastLseq);
      var end := Sub64(fp.lseq, 1);
      if lastTs > fp.info.ts {
        assert TWO32 + fp.info.ts - lastTs < TWO32;
      }
      return [Ers(start, end, ErasureTs(lastTs, fp.info.ts, start, end))];
    }

    method SaveLast(fp: RtpFrame)
      requires lastLseq == LSEQ_NONE || lastLseq < fp.lseq
      modifies this`lastLseq, this`lastTs
      ensures View() == JitterBuffer.SaveLast(old(View()), fp)
    {
      lastLseq := fp.lseq;
      lastTs := fp.info.ts;
    }

    /** The part of udp_in that takes a packet into an empty buffer. */
    method AdmitToEmpty(fp: RtpFrame, ghost purged: seq<RtpFrame>) returns (ready: seq<Frame>)
      requires frames == [] && size == 0
      modifies this
      ensures var o := JitterBuffer.AdmitToEmpty(old(View()), fp, purged);
              View() == o.state && None == o.error && ready == o.ready && purged == o.drop
    {
      var warmUp := lastLseq == LSEQ_NONE;
      lastMax := fp.lseq;
      if !warmUp && lastLseq == Sub64(fp.lseq, 1) {
        assert lastLseq < fp.lseq;
        SaveLast(fp);
        ready := [Rtp(fp)];
      } else if warmUp && fp.lseq == 0 {
        assert lastLseq == LSEQ_NONE;
        SaveLast(fp);
        ready := [Rtp(fp)];
      } else {
        frames := [fp];
        size := 1;
        ready := [];
      }
    }

    /** The scan for the place of a packet, which stops early at a packet with the same number. */
    method FindPlace(lseq: nat) returns (k: nat, dup: bool)
      ensures k == InsertPos(frames, lseq)
      ensures dup <==> k < |frames| && frames[k].lseq == lseq
    {
      k, dup := 0, false;
      assert frames[0..] == frames;
      while k < |frames|
        invariant k <= |frames|
        invariant k + InsertPos(frames[k..], lseq) == InsertPos(frames, lseq)
        invariant !dup
      {
        if frames[k].lseq < lseq {
          assert frames[k..][1..] == frames[k + 1..];
          k := k + 1;
          continue;
        }
        if frames[k].lseq == lseq {
          dup := true;
        }
        break;
      }
    }

    /** Walks the run at the head, uncounting its frames. */
    method WalkHeadRun() returns (last: nat)
      requires frames != []
      modifies this`size
      ensures last + 1 == RunLength(frames) && size == old(size) - RunLength(frames)
    {
      last := 0;
      size := size - 1;
      assert frames[0..] == frames;
      while last + 1 < |frames|
        invariant last < |frames|
        invariant last + RunLength(frames[last..]) == RunLength(frames)
        invariant size == old(size) - 1 - last
      {
        assert frames[last..][1..] == frames[last + 1..];
        if frames[last].lseq + 1 != frames[last + 1].lseq {
          break;
        }
        size := size - 1;
        last := last + 1;
      }
    }

    /** Hands out the run at the head. */
    method Release() returns (ready: seq<Frame>)
      requires frames != [] && size == |frames|
      requires lastLseq == LSEQ_NONE || lastLseq < frames[0].lseq
      modifies this`frames, this`size, this`lastLseq, this`lastTs
      ensures (View(), ready) == JitterBuffer.Release(old(View()))
      ensures size == |frames|
    {
      hide Consecutive, RunLength, ErasureTs;
      var warmUp := lastLseq == LSEQ_NONE;
      RunLengthRun(frames);
      var last := WalkHeadRun();
      var run := frames[..last + 1];
      assert warmUp || lastLseq < run[0].lseq;
      if warmUp {
        ready := [];
      } else {
        ready := InsertErsFrame(run[0]);
      }
      frames := frames[last + 1..];
      SaveLast(run[last]);
      ready := ready + Wrapped(run);
      assert if frames == [] then size == 0 else size > 0;
    }

    /** Inserts a packet that is not a duplicate, and hands out the head run when it is due. */
    method InsertFrame(fp: RtpFrame, k: nat) returns (ready: seq<Frame>)
      requires frames != [] && k <= |frames|
      requires AlmostInv(Insert(View(), fp, k))
      requires k == |frames| ==> lastMax < fp.lseq
      modifies this
      ensures var o := Settle(Insert(old(View()), fp, k), []); View() == o.state && ready == o.ready
    {
      hide Sorted, FramesOk, JitterBuffer.Release;
      var warmUp := lastLseq == LSEQ_NONE;
      if k == |frames| {
        assert lastMax < fp.lseq;
        lastMax := fp.lseq;
      }
      frames := frames[..k] + [fp] + frames[k..];
      size := size + 1;
      assert View() == Insert(old(View()), fp, k);
      var flush := !warmUp && frames[0].lseq == lastLseq + 1;
      if size == capacity || flush {
        ready := Release();
      } else {
        ready := [];
      }
    }

    /** The late and duplicate checks, then the buffer. */
    method Admit(fp: RtpFrame, purged: seq<RtpFrame>) returns (ready: seq<Frame>, drop: seq<RtpFrame>)
      requires Inv(View()) && FrameOk(fp, mask, capacity) && lastMax != LSEQ_NONE
      modifies this
      ensures var o := JitterBuffer.Admit(old(View()), fp, purged); 
              View() == o.state && None == o.error && ready == o.ready && drop == o.drop
    {
      hide Sorted, FramesOk, FrameOk, FitsAt, InsertPos, JitterBuffer.Release, Spliced;
      InvMarks(View());
      var warmUp := lastLseq == LSEQ_NONE;
      assert frames == [] || warmUp || (frames[0].lseq >= 1 && frames[0].lseq - 1 > lastLseq);
      if !warmUp && fp.lseq <= lastLseq {
        var ldist := (lastLseq - fp.lseq) % 0x1_0000_0000;
        if ldist == 0 {
          stats := stats.(dup := stats.dup + 1);
        } else {
          stats := stats.(late := stats.late + 1);
        }
        return [], [fp] + purged;
      }
      if frames == [] {
        assert size == 0;
        assert lastMax < fp.lseq;
        ready := AdmitToEmpty(fp, purged);
        return ready, purged;
      }
      var k, dup := FindPlace(fp.lseq);
      if dup {
        stats := stats.(dup := stats.dup + 1);
        return [], [fp] + purged;
      }
      InsertPosFits(frames, fp);
      InsertKeeps(View(), fp, k);
      TailBelow(View(), fp, k);
      ready := InsertFrame(fp, k);
      return ready, purged;
    }

    /** rtpjbuf_udp_in. */
    method UdpIn(d: Datagram) returns (error: Option<ParseError>, ready: seq<Frame>, drop: seq<RtpFrame>)
      requires Inv(View()) && Room(View()) && !Underflow(View(), d)
      modifies this
      ensures Outcome(View(), error, ready, drop) == JitterBuffer.UdpIn(old(View()), d)
      ensures Inv(View())
    {
      hide Inv, Parse, JitterBuffer.PurgeStaleTail, JitterBuffer.Admit, JitterBuffer.AdmitToEmpty;
      InvMarks(View());
      PurgeKeeps(View());
      UdpInKeeps(View(), d);
      assert capacity < TWO32 by {
        InvCapacity(View());
      }
      var purged := PurgeStaleTail();
      ghost var s1 := View();
      InvMarks(s1);
      var parsed := ParseRaw(d.bytes);
      if parsed.Malformed? {
        stats := stats.(perror := stats.perror + 1);
        return Some(parsed.error), [], purged;
      }
      ParsedExtent(d.bytes);
      var info := parsed.info;
      if lastMax == LSEQ_NONE {
        assert frames == [];
        InvCapacity(s1);
        ready := AdmitToEmpty(RtpFrame(info, mask + info.seqno, 0, d), purged);
        return None, ready, purged;
      }
      UnwrapInEpoch(mask, lastMax, info.seqno);
      BumpedKeeps(s1, Unwrap(mask, lastMax, info.seqno).0);
      InvCapacity(s1);
      var lseq := ExtendSeq(info.seqno);
      hide Unwrap, Bumped;
      ready, drop := Admit(RtpFrame(info, lseq, 0, d), purged);
      return None, ready, drop;
    }

    /** The check for a wrap of the sequence number: the logical number, and the epoch base moved on if need be. */
    method ExtendSeq(seqno: nat) returns (lseq: nat)
      modifies this`mask, this`stats
      ensures var (m, l) := Unwrap(old(mask), lastMax, seqno); View() == Bumped(old(View()), m) && lseq == l
    {
      lseq := mask + seqno;
      if lastMax % 0x1_0000 < 536 && seqno > 65000 {
        lseq := Sub64(lseq, EPOCH);
      } else if lastMax > 65000 && lseq < lastMax - 65000 {
        mask := mask + EPOCH;
        lseq := lseq + EPOCH;
        stats := stats.(seqWup := stats.seqWup + 1);
      }
    }

    /** Walks the whole list once, turning each run that ends in a gap into drops. */
    method SplitRuns() returns (first: nat, drop: seq<RtpFrame>)
      requires frames != []
      ensures first < |frames| && (frames[first..], drop) == FlushSplit(frames, [])
    {
      hide FlushSplit, RunLength;
      first, drop := 0, [];
      var last := 0;
      assert frames[0..] == frames;
      while last + 1 < |frames|
        invariant 0 <= first <= last < |frames|
        invariant FlushSplit(frames, []) == FlushSplit(frames[first..], drop)
        invariant RunLength(frames[first..]) == (last - first) + RunLength(frames[last..])
      {
        RunLengthStep(frames, last);
        if frames[last].lseq + 1 != frames[last + 1].lseq {
          NextRun(frames, first, last + 1, drop);
          drop := frames[first..last + 1] + drop;
          last := last + 1;
          first := last;
        } else {
          last := last + 1;
        }
      }
      LastRun(frames, first, drop);
    }

    /** rtpjbuf_flush. */
    method Flush() returns (ready: seq<Frame>, drop: seq<RtpFrame>)
      requires Inv(View())
      modifies this
      ensures Outcome(View(), None, ready, drop) == JitterBuffer.Flush(old(View()))
      ensures Inv(View()) && frames == []
    {
      hide Inv, ErasureBefore, FlushSplit;
      ready, drop := [], [];
      FlushKeeps(View());
      if frames == [] {
        return;
      }
      InvMarks(View());
      assert lastLseq == LSEQ_NONE || (frames[0].lseq >= 1 && frames[0].lseq - 1 > lastLseq);
      var first;
      first, drop := SplitRuns();
      var run := frames[first..];
      LastAbove(View());
      ready := InsertErsFrame(run[0]);
      ready := ready + Wrapped(run);
      SaveLast(run[|run| - 1]);
      frames := [];
      size := 0;
    }
  }

  lemma RunLengthStep(frames: seq<RtpFrame>, i: nat)
    requires i < |frames|
    ensures i + 1 == |frames| ==> RunLength(frames[i..]) == 1
    ensures i + 1 < |frames| ==>
              RunLength(frames[i..]) ==
              if frames[i].lseq + 1 != frames[i + 1].lseq then 1 else 1 + RunLength(frames[i + 1..])
  {
    assert i + 1 < |frames| ==> frames[i..][1..] == frames[i + 1..];
  }

  lemma LastRun(frames: seq<RtpFrame>, first: nat, drop: seq<RtpFrame>)
    requires first < |frames| && RunLength(frames[first..]) == |frames| - 1 - first + RunLength(frames[|frames| - 1..])
    ensures FlushSplit(frames[first..], drop) == (frames[first..], drop)
  {
  }

  lemma NextRun(frames: seq<RtpFrame>, first: nat, next: nat, drop: seq<RtpFrame>)
    requires first < next < |frames| && RunLength(frames[first..]) == next - first
    ensures FlushSplit(frames[first..], drop) == FlushSplit(frames[next..], frames[first..next] + drop)
  {
    var fs := frames[first..];
    assert fs[..next - first] == frames[first..next] && fs[next - first..] == frames[next..];
  }

  lemma InvCapacity(s: State)
    requires Inv(s)
    ensures s.capacity < TWO32 && s.size == |s.frames|
  {
  }

  /** A packet placed at the end is beyond the largest number so far. */
  lemma TailBelow(s: State, fp: RtpFrame, k: nat)
    requires Inv(s) && s.frames != [] && FitsAt(s.frames, fp, k)
    ensures k == |s.frames| ==> s.lastMax < fp.lseq
  {
    InvMarks(s);
  }

  lemma LastAbove(s: State)
    requires Inv(s) && s.frames != []
    ensures s.WarmUp() || s.lastLseq < s.frames[|s.frames| - 1].lseq
  {
    InvMarks(s);
    assert s.frames[0].lseq <= s.frames[|s.frames| - 1].lseq;
  }
}
