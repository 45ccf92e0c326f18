/**
 Reordered feeds: packets that arrive out of order come out of the jitter buffer in order, with no drop and no erasure
 before the flush, as long as no packet is overtaken by more than capacity - 2 others.
 */
module Reorder {
  import opened Common
  import opened Rtp
  import opened JitterBuffer
  import opened JitterInvariant
  import opened JitterRuns
  import opened JitterNumbers
  import opened JitterReady
  import opened EndToEnd

  // ----- what a reordering is -----

  /** The numbers from base on, each once, in some order. */
  ghost predicate Rearranged(truth: seq<nat>, base: nat) {
    Distinct(truth) && forall x :: base <= x < base + |truth| <==> x in truth
  }

  /** The packets with a larger number that arrive before the one at j. */
  function Overtaking(truth: seq<nat>, j: nat): set<nat>
    requires j < |truth|
  {
    set i | 0 <= i < j && truth[i] > truth[j] :: truth[i]
  }

  /** No packet is overtaken by more than depth others. */
  ghost predicate DepthAtMost(truth: seq<nat>, depth: nat) {
    forall j :: 0 <= j < |truth| ==> |Overtaking(truth, j)| <= depth
  }

  /** Each packet is at most 535 behind every earlier one and at most 535 ahead of some earlier one. */
  ghost predicate Close(truth: seq<nat>) {
    && (truth != [] ==> truth[0] < EPOCH)
    && (forall i, j :: 0 <= i < j < |truth| ==> truth[i] <= truth[j] + 535)
    && (forall j :: 0 < j < |truth| ==> exists i :: 0 <= i < j && truth[j] <= truth[i] + 535)
  }

  /** Datagrams that parse, with the low 16 bits of these numbers. */
  ghost predicate Numbered(ds: seq<Datagram>, truth: seq<nat>) {
    && |ds| == |truth|
    && forall i :: 0 <= i < |ds| ==> Parse(ds[i].bytes).Parsed? && Parse(ds[i].bytes).info.seqno == truth[i] % 0x1_0000
  }

  // ----- numbers as sets -----

  function Numbers(frames: seq<RtpFrame>): set<nat> {
    set i | 0 <= i < |frames| :: frames[i].lseq
  }

  function RtpNumbers(ready: seq<Frame>): set<nat> {
    set i | 0 <= i < |ready| && ready[i].Rtp? :: ready[i].pkt.lseq
  }

  function Seen(truth: seq<nat>, k: nat): set<nat>
    requires k <= |truth|
  {
    set i | 0 <= i < k :: truth[i]
  }

  function Range(a: nat, b: nat): (r: set<nat>)
    ensures forall x :: x in r <==> a <= x <= b
    decreases b
  {
    if a > b then {} else if b == 0 then {0} else Range(a, b - 1) + {b}
  }

  lemma NumbersConcat(fs: seq<RtpFrame>, gs: seq<RtpFrame>)
    ensures Numbers(fs + gs) == Numbers(fs) + Numbers(gs)
  {
    var hs := fs + gs;
    assert forall i :: 0 <= i < |fs| ==> hs[i] == fs[i];
    assert forall i :: 0 <= i < |gs| ==> hs[|fs| + i] == gs[i];
    forall x | x in Numbers(gs)
      ensures x in Numbers(hs)
    {
      var i :| 0 <= i < |gs| && gs[i].lseq == x;
      assert hs[|fs| + i].lseq == x;
    }
    forall x | x in Numbers(fs)
      ensures x in Numbers(hs)
    {
      var i :| 0 <= i < |fs| && fs[i].lseq == x;
      assert hs[i].lseq == x;
    }
  }

  lemma NumbersOne(f: RtpFrame)
    ensures Numbers([f]) == {f.lseq}
  {
    assert [f][0] == f;
  }

  lemma NumbersSpliced(frames: seq<RtpFrame>, fp: RtpFrame, k: nat)
    requires k <= |frames|
    ensures Numbers(Spliced(frames, fp, k)) == Numbers(frames) + {fp.lseq}
  {
    hide Numbers;
    assert frames == frames[..k] + frames[k..];
    NumbersConcat(frames[..k], frames[k..]);
    NumbersOne(fp);
    NumbersConcat(frames[..k], [fp]);
    NumbersConcat(frames[..k] + [fp], frames[k..]);
  }

  lemma RtpNumbersHandedOut(s: State, fp: RtpFrame, run: seq<RtpFrame>)
    ensures RtpNumbers(ErasureBefore(s, fp) + Wrapped(run)) == Numbers(run) == RtpNumbers([] + Wrapped(run))
  {
    hide ErasureTs;
    var e := ErasureBefore(s, fp);
    var fs := e + Wrapped(run);
    assert forall i :: 0 <= i < |run| ==> fs[|e| + i] == Rtp(run[i]);
    forall x | x in Numbers(run)
      ensures x in RtpNumbers(fs) && x in RtpNumbers([] + Wrapped(run))
    {
      var i :| 0 <= i < |run| && run[i].lseq == x;
      assert fs[|e| + i].pkt.lseq == x;
      assert ([] + Wrapped(run))[i].pkt.lseq == x;
    }
  }

  /** What a release does to the numbers: some stay, the others are handed out. */
  lemma SettleNumbers(s: State, purged: seq<RtpFrame>)
    requires s.frames != []
    ensures var o := Settle(s, purged); Numbers(s.frames) == Numbers(o.state.frames) + RtpNumbers(o.ready)
  {
    if MustRelease(s) {
      hide RunLength, ErasureBefore, Numbers, RtpNumbers;
      var k := RunLength(s.frames);
      assert s.frames == s.frames[..k] + s.frames[k..];
      NumbersConcat(s.frames[..k], s.frames[k..]);
      RtpNumbersHandedOut(s, s.frames[0], s.frames[..k]);
    }
  }

  lemma EmptyNumbers(s: State, fp: RtpFrame, purged: seq<RtpFrame>)
    requires s.frames == []
    ensures var o := AdmitToEmpty(s, fp, purged); {fp.lseq} == Numbers(o.state.frames) + RtpNumbers(o.ready)
  {
    NumbersOne(fp);
    var o := AdmitToEmpty(s, fp, purged);
    if o.ready != [] {
      assert o.ready == [Rtp(fp)];
      assert o.ready[0].pkt.lseq == fp.lseq;
    }
  }

  lemma AdmitNumbers(s: State, fp: RtpFrame, purged: seq<RtpFrame>)
    requires Inv(s) && (s.WarmUp() || s.lastLseq < fp.lseq) && !Buffered(s.frames, fp.lseq)
    ensures var o := Admit(s, fp, purged); Numbers(s.frames) + {fp.lseq} == Numbers(o.state.frames) + RtpNumbers(o.ready)
  {
    if s.frames == [] {
      EmptyNumbers(s, fp, purged);
      hide AdmitToEmpty;
    } else {
      PosOf(s, fp);
      hide Inv, Numbers, RtpNumbers, Settle, InsertPos, Spliced, Buffered;
      var k := InsertPos(s.frames, fp.lseq);
      NumbersSpliced(s.frames, fp, k);
      SettleNumbers(Insert(s, fp, k), purged);
    }
  }

  /** A packet that is neither passed nor buffered joins the numbers; some are held and the others handed out. */
  lemma UdpInNumbers(s: State, d: Datagram)
    requires Inv(s) && Room(s) && !Underflow(s, d) && Parse(d.bytes).Parsed?
    requires var l := Assigned(s, d); (s.WarmUp() || s.lastLseq < l) && !Buffered(PurgeStaleTail(s).0.frames, l)
    ensures var o := UdpIn(s, d);
            Numbers(PurgeStaleTail(s).0.frames) + {Assigned(s, d)} == Numbers(o.state.frames) + RtpNumbers(o.ready)
  {
    AssignedIs(s, d);
    hide Inv, Parse, PurgeStaleTail, Unwrap, Underflow, Assigned, Admit, AdmitToEmpty, Numbers, RtpNumbers, Buffered;
    PurgeKeeps(s);
    var (s1, purged) := PurgeStaleTail(s);
    InvMarks(s1);
    ParsedExtent(d.bytes);
    var info := Parse(d.bytes).info;
    if s1.lastMax == LSEQ_NONE {
      EmptyNumbers(s1, RtpFrame(info, s1.mask + info.seqno, 0, d), purged);
      assert Numbers([]) == {} by {
        NoNumbers();
      }
    } else {
      NoUnderflow(s, d);
      UnwrapInEpoch(s1.mask, s1.lastMax, info.seqno);
      var (mask, lseq) := Unwrap(s1.mask, s1.lastMax, info.seqno);
      BumpedKeeps(s1, mask);
      AdmitNumbers(Bumped(s1, mask), RtpFrame(info, lseq, 0, d), purged);
    }
  }

  lemma NoNumbers()
    ensures Numbers([]) == {} && RtpNumbers([]) == {}
  {
  }

  /** Distinct numbers are as many as the frames. */
  lemma {:induction false} NumbersCount(frames: seq<RtpFrame>)
    requires Sorted(frames)
    ensures |Numbers(frames)| == |frames|
    decreases |frames|
  {
    if frames != [] {
      var n := |frames| - 1;
      var init := frames[..n];
      assert forall i :: 0 <= i < n ==> init[i] == frames[i];
      NumbersCount(init);
      assert frames == init + [frames[n]];
      NumbersConcat(init, [frames[n]]);
      NumbersOne(frames[n]);
      assert frames[n].lseq !in Numbers(init);
    }
  }

  /** Packets alone that tile a range bear exactly its numbers, in order. */
  lemma {:induction false} TileNumbers(fs: seq<Frame>, a: nat, b: nat)
    requires Tiles(fs, a, b) && NoErasure(fs)
    ensures b == a + |fs| && forall i :: 0 <= i < |fs| ==> fs[i].pkt.lseq == a + i
    decreases |fs|
  {
    if fs != [] {
      var n := |fs| - 1;
      var init := fs[..n];
      assert forall i :: 0 <= i < n ==> init[i] == fs[i];
      TileNumbers(init, a, fs[n].pkt.lseq);
    }
  }

  lemma TileRange(fs: seq<Frame>, a: nat, b: nat)
    requires Tiles(fs, a, b) && NoErasure(fs) && fs != []
    ensures RtpNumbers(fs) == Range(a, b - 1)
  {
    TileNumbers(fs, a, b);
    hide Tiles;
    forall x | x in Range(a, b - 1)
      ensures x in RtpNumbers(fs)
    {
      assert fs[x - a].pkt.lseq == x;
    }
  }

  // ----- the state after k arrivals -----

  ghost predicate Young(frames: seq<RtpFrame>) {
    forall i :: 0 <= i < |frames| ==> frames[i].jbcnt == 0
  }

  /** Everything that arrived is held, or, once output has started, has been handed out up to the last number; what is
      then held is few enough for neither the purge nor a full buffer to come about. */
  ghost predicate Kept(s: State, truth: seq<nat>, base: nat, k: nat)
    requires k <= |truth|
  {
    && Inv(s) && EpochExact(s) && FreshMask(s) && s.capacity >= 3
    && (if s.WarmUp() then Numbers(s.frames) == Seen(truth, k) && |s.frames| == k < s.capacity && Young(s.frames)
        else base <= s.lastLseq && Seen(truth, k) == Range(base, s.lastLseq) + Numbers(s.frames)
             && |s.frames| <= s.capacity - 2)
  }

  /** The largest number is the largest seen. */
  lemma LargestSeen(s: State, truth: seq<nat>, base: nat, k: nat)
    requires k <= |truth| && Kept(s, truth, base, k) && k > 0
    ensures s.lastMax != LSEQ_NONE && s.lastMax in Seen(truth, k)
    ensures forall x :: x in Seen(truth, k) ==> x <= s.lastMax
  {
    InvMarks(s);
    if s.frames == [] {
      assert !s.WarmUp();
      NoNumbers();
      assert s.lastLseq in Range(base, s.lastLseq);
    } else {
      LargestHeld(s);
    }
  }

  lemma LargestHeld(s: State)
    requires Inv(s) && s.frames != []
    ensures s.lastMax in Numbers(s.frames) && (forall x :: x in Numbers(s.frames) ==> x <= s.lastMax)
    ensures !s.WarmUp() ==> s.lastLseq < s.lastMax && forall x :: x in Numbers(s.frames) ==> x >= s.lastLseq + 2
  {
    InvMarks(s);
    var n := |s.frames| - 1;
    assert s.frames[n].lseq == s.lastMax;
    assert s.frames[0].lseq <= s.frames[n].lseq;
  }

  // ----- the depth -----

  /** Numbers that all lie beyond one that is still to come overtake it. */
  lemma DepthBounds(truth: seq<nat>, base: nat, k: nat, y: nat, held: set<nat>, depth: nat)
    requires k <= |truth| && Rearranged(truth, base) && DepthAtMost(truth, depth)
    requires base <= y < base + |truth| && y !in Seen(truth, k)
    requires held <= Seen(truth, k) && forall x :: x in held ==> x > y
    ensures |held| <= depth
  {
    assert y in truth;
    var j :| 0 <= j < |truth| && truth[j] == y;
    assert j >= k;
    forall x | x in held
      ensures x in Overtaking(truth, j)
    {
      var i :| 0 <= i < k && truth[i] == x;
    }
    Subset(held, Overtaking(truth, j));
  }

  lemma {:induction false} Subset(a: set<nat>, b: set<nat>)
    requires a <= b
    ensures |a| <= |b|
    decreases |a|
  {
    if a != {} {
      var x :| x in a;
      Subset(a - {x}, b - {x});
    }
  }

  lemma SeenNext(truth: seq<nat>, k: nat)
    requires k < |truth| && Distinct(truth)
    ensures Seen(truth, k + 1) == Seen(truth, k) + {truth[k]} && truth[k] !in Seen(truth, k)
  {
  }

  lemma {:induction false} SeenCount(truth: seq<nat>, k: nat)
    requires k <= |truth| && Distinct(truth)
    ensures |Seen(truth, k)| == k
    decreases k
  {
    if k > 0 {
      SeenNext(truth, k - 1);
      SeenCount(truth, k - 1);
    }
  }

  // ----- one arrival -----

  /** Neither few frames nor a young tail are purged. */
  lemma PurgeQuiet(s: State)
    requires Inv(s) && s.capacity >= 3 && (|s.frames| <= s.capacity - 2 || Young(s.frames))
    ensures var (s1, purged) := PurgeStaleTail(s);
            && purged == [] && |s1.frames| == |s.frames| && Numbers(s1.frames) == Numbers(s.frames)
            && s1.lastMax == s.lastMax && s1.mask == s.mask
            && (|s.frames| <= s.capacity - 2 ==> s1 == s)
  {
    InvSize(s);
    hide Inv, Numbers;
    if |s.frames| <= s.capacity - 2 {
      PurgeNone(s);
    } else {
      PurgeYoung(s);
    }
  }

  lemma PurgeNone(s: State)
    requires s.size == |s.frames| <= s.capacity - 2
    ensures PurgeStaleTail(s) == (s, [])
  {
  }

  lemma PurgeYoung(s: State)
    requires s.size == |s.frames| > s.capacity - 2 >= 1 && Young(s.frames)
    ensures var (s1, purged) := PurgeStaleTail(s);
            && purged == [] && |s1.frames| == |s.frames| && Numbers(s1.frames) == Numbers(s.frames)
            && s1.lastMax == s.lastMax && s1.mask == s.mask
  {
    var n := |s.frames| - 1;
    assert s.frames[n].jbcnt == 0;
    hide Young, Numbers;
    var aged := s.frames[..n] + [s.frames[n].(jbcnt := 1)];
    SameNumbers(s.frames, aged);
  }

  lemma SameNumbers(fs: seq<RtpFrame>, gs: seq<RtpFrame>)
    requires |gs| == |fs| && forall i :: 0 <= i < |fs| ==> gs[i].lseq == fs[i].lseq
    ensures Numbers(gs) == Numbers(fs)
  {
    forall x | x in Numbers(fs)
      ensures x in Numbers(gs)
    {
      var i :| 0 <= i < |fs| && fs[i].lseq == x;
      assert gs[i].lseq == x;
    }
    forall x | x in Numbers(gs)
      ensures x in Numbers(fs)
    {
      var i :| 0 <= i < |gs| && gs[i].lseq == x;
      assert fs[i].lseq == x;
    }
  }

  lemma BufferedIsNumber(frames: seq<RtpFrame>, l: nat)
    ensures Buffered(frames, l) <==> l in Numbers(frames)
  {
  }

  /** While nothing is handed out frames stay young. */
  lemma UdpInYoung(s: State, d: Datagram)
    requires Young(s.frames) && PurgeStaleTail(s).0 == s && (s.lastMax == LSEQ_NONE ==> s.frames == [])
    ensures Young(UdpIn(s, d).state.frames)
  {
    hide PurgeStaleTail, Parse, Unwrap, Admit, AdmitToEmpty, Young;
    if Parse(d.bytes).Parsed? {
      var info := Parse(d.bytes).info;
      var purged := PurgeStaleTail(s).1;
      if s.lastMax == LSEQ_NONE {
        AdmitToEmptyYoung(s, RtpFrame(info, s.mask + info.seqno, 0, d), purged);
      } else {
        var (mask, lseq) := Unwrap(s.mask, s.lastMax, info.seqno);
        AdmitYoung(Bumped(s, mask), RtpFrame(info, lseq, 0, d), purged);
      }
    }
  }

  lemma AdmitToEmptyYoung(s: State, fp: RtpFrame, purged: seq<RtpFrame>)
    requires s.frames == [] && fp.jbcnt == 0
    ensures Young(AdmitToEmpty(s, fp, purged).state.frames)
  {
  }

  lemma AdmitYoung(s: State, fp: RtpFrame, purged: seq<RtpFrame>)
    requires Young(s.frames) && fp.jbcnt == 0
    ensures Young(Admit(s, fp, purged).state.frames)
  {
    hide InsertPos, RunLength, ErasureBefore, Young, AdmitToEmpty, Spliced, Wrapped;
    if s.frames == [] {
      AdmitToEmptyYoung(s, fp, purged);
    } else {
      var k := InsertPos(s.frames, fp.lseq);
      YoungSpliced(s.frames, fp, k);
      var more := Spliced(s.frames, fp, k);
      YoungSuffix(more, RunLength(more));
    }
  }

  lemma YoungSpliced(frames: seq<RtpFrame>, fp: RtpFrame, k: nat)
    requires k <= |frames| && Young(frames) && fp.jbcnt == 0
    ensures Young(Spliced(frames, fp, k))
  {
  }

  lemma YoungSuffix(frames: seq<RtpFrame>, k: nat)
    requires k <= |frames| && Young(frames)
    ensures Young(frames[k..])
  {
  }

  /** A packet close to the largest number gets its own number; with room, the call is safe. */
  lemma ArrivalNumbered(s: State, truth: seq<nat>, base: nat, k: nat, d: Datagram)
    requires k < |truth| && Kept(s, truth, base, k) && Close(truth) && Rearranged(truth, base)
    requires base + |truth| <= TWO64 - 3 * EPOCH
    requires Parse(d.bytes).Parsed? && Parse(d.bytes).info.seqno == truth[k] % 0x1_0000
    requires PurgeStaleTail(s).0.lastMax == s.lastMax && PurgeStaleTail(s).0.mask == s.mask
    ensures Room(s) && !Underflow(s, d) && Assigned(s, d) == truth[k]
    ensures ComesOutRight(PurgeStaleTail(s).0, truth[k]) && Counts(d, truth[k])
  {
    hide Parse, PurgeStaleTail, Young, Numbers, Range, Assigned;
    InvMarks(s);
    var x := truth[k];
    assert x in truth;
    if k > 0 {
      LargestSeen(s, truth, base, k);
      CloseToLargest(truth, k, s.lastMax);
      SeenInRange(truth, base, k, s.lastMax);
      NearInWindow(s.mask, s.lastMax, x);
    } else {
      StartIsFresh(s, truth, base);
    }
    hide Inv, Close, Distinct;
    assert Counts(d, x);
    RoomBelow(s);
    AssignedIff(s, d, x);
  }

  lemma StartIsFresh(s: State, truth: seq<nat>, base: nat)
    requires Kept(s, truth, base, 0)
    ensures s.lastMax == LSEQ_NONE
  {
    InvMarks(s);
    assert s.WarmUp();
  }

  lemma RoomBelow(s: State)
    requires EpochExact(s) && FreshMask(s) && (s.lastMax == LSEQ_NONE || s.lastMax <= TWO64 - 3 * EPOCH)
    ensures Room(s)
  {
  }

  lemma SeenInRange(truth: seq<nat>, base: nat, k: nat, x: nat)
    requires k <= |truth| && Rearranged(truth, base) && x in Seen(truth, k)
    ensures base <= x < base + |truth|
  {
    assert x in truth;
  }

  /** Unless base is seen, everything seen lies beyond it. */
  lemma SeenBeyond(truth: seq<nat>, base: nat, k: nat)
    requires k <= |truth| && Rearranged(truth, base) && base !in Seen(truth, k)
    ensures forall x :: x in Seen(truth, k) ==> x > base
  {
    assert forall i :: 0 <= i < k ==> truth[i] in truth;
  }

  lemma CloseToLargest(truth: seq<nat>, k: nat, largest: nat)
    requires 0 < k < |truth| && Close(truth)
    requires largest in Seen(truth, k) && forall x :: x in Seen(truth, k) ==> x <= largest
    ensures largest - 535 <= truth[k] <= largest + 535
  {
    var i :| 0 <= i < k && truth[k] <= truth[i] + 535;
    assert truth[i] in Seen(truth, k);
    var j :| 0 <= j < k && truth[j] == largest;
  }

  /** A new number is neither passed nor buffered. */
  lemma ArrivalNew(s: State, truth: seq<nat>, base: nat, k: nat)
    requires k < |truth| && Kept(s, truth, base, k) && Rearranged(truth, base)
    ensures s.WarmUp() || s.lastLseq < truth[k]
    ensures truth[k] !in Numbers(s.frames)
  {
    SeenNext(truth, k);
    assert truth[k] in truth;
    hide Inv, Numbers, Young;
  }

  /** What one arrival does: nothing is dropped, no erasure is made, and the first packet handed out is number base. */
  ghost predicate GoodStep(s: State, truth: seq<nat>, base: nat, k: nat, o: Outcome)
    requires k < |truth|
  {
    && Kept(o.state, truth, base, k + 1) && o.state.capacity == s.capacity
    && o.drop == [] && NoErasure(o.ready)
    && (s.WarmUp() && o.ready != [] ==> Lo(o.ready[0]) == base)
  }

  /** What is known of one arrival before its effect on the held numbers is worked out. */
  ghost predicate Arrival(s: State, truth: seq<nat>, base: nat, k: nat, o: Outcome)
    requires k < |truth|
  {
    var x := truth[k];
    && Inv(o.state) && EpochExact(o.state) && FreshMask(o.state) && o.state.capacity == s.capacity
    && o.drop == [] && NoErasure(o.ready) && Tiled(s, o.ready, o.state)
    && Numbers(s.frames) + {x} == Numbers(o.state.frames) + RtpNumbers(o.ready)
    && (o.ready != [] <==> (!s.WarmUp() && x == s.lastLseq + 1) || (s.WarmUp() && s.frames == [] && x == 0)
                            || |s.frames| + 1 == s.capacity)
    && (s.WarmUp() && |s.frames| <= s.capacity - 2 ==> Young(o.state.frames))
  }

  lemma ArrivalHolds(s: State, truth: seq<nat>, base: nat, k: nat, d: Datagram)
    requires k < |truth| && Kept(s, truth, base, k) && Close(truth) && Rearranged(truth, base)
    requires base + |truth| <= TWO64 - 3 * EPOCH
    requires Parse(d.bytes).Parsed? && Parse(d.bytes).info.seqno == truth[k] % 0x1_0000
    ensures StepOk(s, In(d)) && WindowStep(s, In(d), truth[k]) && Arrival(s, truth, base, k, UdpIn(s, d))
  {
    PurgeQuiet(s);
    ArrivalNumbered(s, truth, base, k, d);
    ArrivalNew(s, truth, base, k);
    var x := truth[k];
    var (s1, purged) := PurgeStaleTail(s);
    BufferedIsNumber(s1.frames, x);
    EpochSame(s, s1);
    if s.WarmUp() && |s.frames| <= s.capacity - 2 {
      InvMarks(s);
      UdpInYoung(s, d);
    }
    hide Parse, PurgeStaleTail, Numbers, RtpNumbers, Young, Buffered, Assigned, UdpIn, Underflow, Tiled, Range, Seen, Inv, Close,
         Rearranged, ComesOutRight;
    UdpInKeeps(s, d);
    UdpInKeepsEpoch(s, d);
    UdpInKeepsFresh(s, d);
    UdpInDropsExactly(s, d);
    UdpInReadyExactly(s, d);
    UdpInNumbers(s, d);
    UdpInTiled(s, d);
    CapacityKept(s, d);
    NoErasureAtAll(s, UdpIn(s, d).ready);
  }

  lemma EpochSame(s: State, t: State)
    requires EpochExact(s) && t.lastMax == s.lastMax && t.mask == s.mask
    ensures EpochExact(t)
  {
  }

  lemma CapacityKept(s: State, d: Datagram)
    ensures UdpIn(s, d).state.capacity == s.capacity
  {
    hide Parse, InsertPos, RunLength, ErasureBefore;
  }

  lemma NoErasureAtAll(s: State, ready: seq<Frame>)
    requires ErasureOnlyFirst(ready) && !StartsWithErasure(ready)
    ensures NoErasure(ready)
  {
  }

  /** Still nothing handed out at all: one more number is held. */
  lemma ArrivalFills(s: State, truth: seq<nat>, base: nat, k: nat, o: Outcome)
    requires k < |truth| && Rearranged(truth, base) && Kept(s, truth, base, k) && Arrival(s, truth, base, k, o)
    requires o.ready == [] && s.WarmUp()
    ensures GoodStep(s, truth, base, k, o)
  {
    var t := o.state;
    NoNumbers();
    SeenNext(truth, k);
    hide Young, Numbers, RtpNumbers, Seen, Tiles, EpochExact, FreshMask, NoErasure, Rearranged, Inv, Range;
    assert Numbers(t.frames) == Numbers(s.frames) + {truth[k]};
    assert t.WarmUp() && |s.frames| + 1 != s.capacity;
    hide Kept;
    KeptFilling(t, truth, base, k + 1);
  }

  /** The parts of a good state in which nothing was handed out yet. */
  lemma KeptFilling(t: State, truth: seq<nat>, base: nat, k: nat)
    requires k <= |truth| && Rearranged(truth, base) && 3 <= t.capacity && k < t.capacity
    requires Inv(t) && EpochExact(t) && FreshMask(t) && t.WarmUp() && Numbers(t.frames) == Seen(truth, k) && Young(t.frames)
    ensures Kept(t, truth, base, k)
  {
    HeldCountIs(t);
    SeenCount(truth, k);
  }

  /** Nothing handed out since output has started: one more number is held. */
  lemma ArrivalWaits(s: State, truth: seq<nat>, base: nat, k: nat, o: Outcome)
    requires k < |truth| && Rearranged(truth, base) && Kept(s, truth, base, k) && Arrival(s, truth, base, k, o)
    requires DepthAtMost(truth, s.capacity - 2) && o.ready == [] && !s.WarmUp()
    ensures GoodStep(s, truth, base, k, o)
  {
    var t := o.state;
    NoNumbers();
    SeenNext(truth, k);
    hide Young, Numbers, RtpNumbers, Seen, Tiles, EpochExact, FreshMask, NoErasure, Rearranged, Inv, DepthAtMost;
    assert Numbers(t.frames) == Numbers(s.frames) + {truth[k]};
    assert Seen(truth, k + 1) == Range(base, t.lastLseq) + Numbers(t.frames);
    HeldWithin(t, truth, base, k + 1);
  }

  lemma HeldCountIs(s: State)
    requires Inv(s)
    ensures |Numbers(s.frames)| == |s.frames|
  {
    NumbersCount(s.frames);
  }

  /** Once output has started, what is held overtakes the next number. */
  lemma HeldWithin(t: State, truth: seq<nat>, base: nat, k: nat)
    requires t.capacity >= 3 && k <= |truth| && Rearranged(truth, base) && DepthAtMost(truth, t.capacity - 2)
    requires Inv(t) && !t.WarmUp() && base <= t.lastLseq && Seen(truth, k) == Range(base, t.lastLseq) + Numbers(t.frames)
    ensures |t.frames| <= t.capacity - 2
  {
    if t.frames != [] {
      LargestHeld(t);
      HeldCountIs(t);
      SeenInRange(truth, base, k, t.lastMax);
      var y := t.lastLseq + 1;
      assert y !in Numbers(t.frames);
      DepthBounds(truth, base, k, y, Numbers(t.frames), t.capacity - 2);
    }
  }

  lemma ContinueSets(seen: set<nat>, x: nat, held: set<nat>, held': set<nat>, base: nat, last: nat, last': nat)
    requires base <= last <= last' && seen == Range(base, last) + held && held + {x} == held' + Range(last + 1, last')
    ensures seen + {x} == Range(base, last') + held'
  {
    assert Range(base, last') == Range(base, last) + Range(last + 1, last');
    hide Range;
    assert seen + {x} == Range(base, last) + (held + {x});
  }

  /** The parts of a good state in which output has started. */
  lemma KeptRunning(t: State, truth: seq<nat>, base: nat, k: nat)
    requires t.capacity >= 3 && k <= |truth| && Rearranged(truth, base) && DepthAtMost(truth, t.capacity - 2)
    requires Inv(t) && EpochExact(t) && FreshMask(t) && !t.WarmUp()
    requires base <= t.lastLseq && Seen(truth, k) == Range(base, t.lastLseq) + Numbers(t.frames)
    ensures Kept(t, truth, base, k)
  {
    HeldWithin(t, truth, base, k);
    hide Inv, EpochExact, FreshMask, Rearranged, DepthAtMost, Seen, Numbers, Young;
  }

  /** Something handed out after output has started. */
  lemma ArrivalContinues(s: State, truth: seq<nat>, base: nat, k: nat, o: Outcome)
    requires k < |truth| && Rearranged(truth, base) && Kept(s, truth, base, k) && Arrival(s, truth, base, k, o)
    requires DepthAtMost(truth, s.capacity - 2) && o.ready != [] && !s.WarmUp()
    ensures GoodStep(s, truth, base, k, o)
  {
    var t := o.state;
    SeenNext(truth, k);
    hide Inv, Young, Numbers, RtpNumbers, Seen, Range, Tiles, EpochExact, FreshMask, Rearranged, DepthAtMost, NoErasure;
    TileRange(o.ready, s.lastLseq + 1, t.lastLseq + 1);
    TileForward(o.ready, s.lastLseq + 1, t.lastLseq + 1);
    ContinueSets(Seen(truth, k), truth[k], Numbers(s.frames), Numbers(t.frames), base, s.lastLseq, t.lastLseq);
    hide Kept;
    KeptRunning(t, truth, base, k + 1);
  }

  lemma HeldBeyond(t: State)
    requires Inv(t) && !t.WarmUp()
    ensures forall x :: x in Numbers(t.frames) ==> x > t.lastLseq
  {
    if t.frames != [] {
      LargestHeld(t);
    }
  }

  lemma TileForward(fs: seq<Frame>, a: nat, b: nat)
    requires Tiles(fs, a, b) && NoErasure(fs) && fs != []
    ensures a < b && Lo(fs[0]) == a
  {
    TileNumbers(fs, a, b);
  }

  /** The first packets handed out start at base: had it not arrived, the full buffer would overtake it. */
  lemma ArrivalStarts(s: State, truth: seq<nat>, base: nat, k: nat, o: Outcome)
    requires k < |truth| && Rearranged(truth, base) && Kept(s, truth, base, k) && Arrival(s, truth, base, k, o)
    requires DepthAtMost(truth, s.capacity - 2) && o.ready != [] && s.WarmUp()
    ensures GoodStep(s, truth, base, k, o)
  {
    var t := o.state;
    var a := Lo(o.ready[0]);
    SeenNext(truth, k);
    BaseArrived(s, truth, base, k);
    hide Young, Numbers, RtpNumbers, Seen, Range, Tiles, EpochExact, FreshMask, Rearranged, Inv, DepthAtMost, NoErasure;
    TileRange(o.ready, a, t.lastLseq + 1);
    TileForward(o.ready, a, t.lastLseq + 1);
    assert Seen(truth, k + 1) == Range(a, t.lastLseq) + Numbers(t.frames);
    hide Kept;
    StartsAtBase(t, truth, base, k + 1, a);
    KeptRunning(t, truth, base, k + 1);
  }

  /** What was handed out starts with the smallest number seen. */
  lemma StartsAtBase(t: State, truth: seq<nat>, base: nat, k: nat, a: nat)
    requires k <= |truth| && Rearranged(truth, base) && base in Seen(truth, k)
    requires Inv(t) && !t.WarmUp() && a <= t.lastLseq && Seen(truth, k) == Range(a, t.lastLseq) + Numbers(t.frames)
    ensures a == base
  {
    hide Inv, Numbers, Seen, Rearranged;
    assert a in Seen(truth, k);
    SeenInRange(truth, base, k, a);
    HeldBeyond(t);
    assert base in Range(a, t.lastLseq);
  }

  lemma BaseArrived(s: State, truth: seq<nat>, base: nat, k: nat)
    requires s.capacity >= 3 && k < |truth| && Rearranged(truth, base) && DepthAtMost(truth, s.capacity - 2)
    requires Numbers(s.frames) == Seen(truth, k) && |s.frames| == k
    requires (s.frames == [] && truth[k] == 0) || k + 1 == s.capacity
    ensures base in Seen(truth, k + 1)
  {
    SeenNext(truth, k);
    if k + 1 == s.capacity {
      SeenCount(truth, k + 1);
      if base !in Seen(truth, k + 1) {
        SeenBeyond(truth, base, k + 1);
        DepthBounds(truth, base, k + 1, base, Seen(truth, k + 1), s.capacity - 2);
        assert false;
      }
    } else {
      assert truth[k] in truth;
    }
  }

  /** Every arrival of a reordered feed goes well. */
  lemma ArrivalGood(s: State, truth: seq<nat>, base: nat, k: nat, d: Datagram)
    requires k < |truth| && Kept(s, truth, base, k) && Close(truth) && Rearranged(truth, base)
    requires DepthAtMost(truth, s.capacity - 2) && base + |truth| <= TWO64 - 3 * EPOCH
    requires Parse(d.bytes).Parsed? && Parse(d.bytes).info.seqno == truth[k] % 0x1_0000
    ensures StepOk(s, In(d)) && WindowStep(s, In(d), truth[k]) && GoodStep(s, truth, base, k, UdpIn(s, d))
  {
    ArrivalHolds(s, truth, base, k, d);
    hide Kept, Arrival, GoodStep, Parse, UdpIn, WindowStep, StepOk, Close, Rearranged, DepthAtMost;
    var o := UdpIn(s, d);
    if o.ready == [] && s.WarmUp() {
      ArrivalFills(s, truth, base, k, o);
    } else if o.ready == [] {
      ArrivalWaits(s, truth, base, k, o);
    } else if s.WarmUp() {
      ArrivalStarts(s, truth, base, k, o);
    } else {
      ArrivalContinues(s, truth, base, k, o);
    }
  }

  // ----- the whole feed -----

  /** The feed from the k-th arrival on. */
  lemma {:induction false} ReorderRun(s: State, ds: seq<Datagram>, truth: seq<nat>, base: nat, k: nat)
    requires s.capacity >= 3 && k <= |truth| && Numbered(ds, truth) && Kept(s, truth, base, k)
    requires Close(truth) && Rearranged(truth, base) && DepthAtMost(truth, s.capacity - 2)
    requires base + |truth| <= TWO64 - 3 * EPOCH
    ensures RunOk(s, Feed(ds)[k..]) && WindowRun(s, Feed(ds)[k..], truth[k..])
    ensures var t := Run(s, Feed(ds)[k..]);
            && Kept(t.state, truth, base, |truth|) && t.drop == [] && NoErasure(t.ready) && Tiled(s, t.ready, t.state)
            && (s.WarmUp() && t.ready != [] ==> Lo(t.ready[0]) == base)
    decreases |truth| - k
  {
    hide Kept, Parse, Close, Rearranged, DepthAtMost, Step, StepOk, WindowStep, Tiled, Numbered, NoErasure, Lo;
    NumberedSize(ds, truth);
    var ops := Feed(ds)[k..];
    if k == |truth| {
      TiledNothing(s);
      NoneErased();
    } else {
      NumberedAt(ds, truth, k);
      ArrivalGood(s, truth, base, k, ds[k]);
      assert ops[0] == In(ds[k]) && ops[1..] == Feed(ds)[k + 1..] && truth[k..][1..] == truth[k + 1..];
      StepIsUdpIn(s, ds[k]);
      var o := Step(s, ops[0]);
      KeptInv(s, truth, base, k);
      StepTiled(s, ops[0]);
      ReorderRun(o.state, ds, truth, base, k + 1);
      var rest := Run(o.state, ops[1..]);
      JoinRuns(s, o, rest, base);
    }
  }

  /** One arrival and the rest of the feed, put together. */
  lemma JoinRuns(s: State, o: Outcome, rest: Trace, base: nat)
    requires Tiled(s, o.ready, o.state) && Tiled(o.state, rest.ready, rest.state)
    requires NoErasure(o.ready) && NoErasure(rest.ready) && o.drop == [] && rest.drop == []
    requires s.WarmUp() && o.ready != [] ==> Lo(o.ready[0]) == base
    requires o.state.WarmUp() && rest.ready != [] ==> Lo(rest.ready[0]) == base
    ensures var ready := o.ready + rest.ready;
            && Tiled(s, ready, rest.state) && NoErasure(ready) && o.drop + rest.drop == []
            && (s.WarmUp() && ready != [] ==> Lo(ready[0]) == base)
  {
    hide NoErasure, Lo, Tiled;
    TiledConcat(s, o.ready, o.state, rest.ready, rest.state);
    WarmUpEnds(s, o);
    JoinReady(o.ready, rest.ready);
  }

  lemma NumberedSize(ds: seq<Datagram>, truth: seq<nat>)
    requires Numbered(ds, truth)
    ensures |ds| == |truth|
  {
  }

  lemma NumberedAt(ds: seq<Datagram>, truth: seq<nat>, k: nat)
    requires Numbered(ds, truth) && k < |truth|
    ensures Parse(ds[k].bytes).Parsed? && Parse(ds[k].bytes).info.seqno == truth[k] % 0x1_0000
  {
  }

  lemma KeptInv(s: State, truth: seq<nat>, base: nat, k: nat)
    requires k <= |truth| && Kept(s, truth, base, k)
    ensures Inv(s) && FreshMask(s)
  {
  }

  lemma NoneErased()
    ensures NoErasure([])
  {
  }

  lemma JoinReady(fs: seq<Frame>, gs: seq<Frame>)
    requires NoErasure(fs) && NoErasure(gs)
    ensures NoErasure(fs + gs) && (fs != [] ==> (fs + gs)[0] == fs[0]) && (fs == [] ==> fs + gs == gs)
  {
  }

  lemma StartKept(capacity: nat, truth: seq<nat>, base: nat)
    requires 3 <= capacity < TWO32
    ensures Kept(Init(capacity), truth, base, 0)
  {
    InitInv(capacity);
  }

  // ----- what comes out -----

  /** The i-th frame bears the i-th number. */
  ghost predicate InOrder(fs: seq<RtpFrame>, base: nat) {
    forall i :: 0 <= i < |fs| ==> fs[i].lseq == base + i
  }

  /** Sorted numbers that fit a range exactly are its numbers in order. */
  lemma {:induction false} SortedFits(frames: seq<RtpFrame>, base: nat, n: nat)
    requires Sorted(frames) && |frames| == n && forall i :: 0 <= i < n ==> base <= frames[i].lseq < base + n
    ensures InOrder(frames, base)
  {
    forall i | 0 <= i < n
      ensures frames[i].lseq == base + i
    {
      SortedGap(frames, 0, i);
      SortedGap(frames, i, n - 1);
    }
  }

  lemma {:induction false} SortedGap(frames: seq<RtpFrame>, i: nat, j: nat)
    requires Sorted(frames) && i <= j < |frames|
    ensures frames[j].lseq >= frames[i].lseq + (j - i)
    decreases j
  {
    if i < j {
      SortedGap(frames, i, j - 1);
      assert frames[j - 1].lseq < frames[j].lseq;
    }
  }

  lemma AllSeen(truth: seq<nat>, base: nat, x: nat)
    requires Rearranged(truth, base) && base <= x < base + |truth|
    ensures x in Seen(truth, |truth|)
  {
    assert x in truth;
  }

  /** At the end of the feed either everything was handed out, or nothing was and the buffer holds it all in order. */
  lemma KeptAtEnd(s: State, truth: seq<nat>, base: nat)
    requires Kept(s, truth, base, |truth|) && Rearranged(truth, base) && truth != []
    ensures if s.WarmUp() then |s.frames| == |truth| && InOrder(s.frames, base)
            else s.frames == [] && s.lastLseq == base + |truth| - 1
  {
    var n := |truth|;
    if s.WarmUp() {
      forall i | 0 <= i < |s.frames|
        ensures base <= s.frames[i].lseq < base + n
      {
        assert s.frames[i].lseq in Numbers(s.frames);
        SeenInRange(truth, base, n, s.frames[i].lseq);
      }
      SortedFits(s.frames, base, n);
    } else {
      EndReached(s, truth, base);
    }
  }

  lemma EndReached(s: State, truth: seq<nat>, base: nat)
    requires Kept(s, truth, base, |truth|) && Rearranged(truth, base) && truth != [] && !s.WarmUp()
    ensures s.frames == [] && s.lastLseq == base + |truth| - 1
  {
    var n := |truth|;
    assert s.lastLseq in Seen(truth, n);
    SeenInRange(truth, base, n, s.lastLseq);
    hide Young, Seen, EpochExact, FreshMask;
    var y := s.lastLseq + 1;
    if s.frames != [] {
      LargestHeld(s);
      SeenInRange(truth, base, n, s.lastMax);
      assert y !in Numbers(s.frames);
      AllSeen(truth, base, y);
      assert false;
    }
    NoNumbers();
    if y < base + n {
      AllSeen(truth, base, y);
      assert false;
    }
  }

  /** Flushing at the end hands out what is held, in order, and drops nothing. */
  lemma FlushAtEnd(s: State, base: nat)
    requires s.frames == [] || InOrder(s.frames, base)
    ensures var f := Flush(s); f.drop == [] && f.state.frames == [] && RtpFrames(f.ready) == s.frames
  {
    if s.frames != [] {
      FillingRun(s.frames, base);
      SplitOneRun(s.frames);
      HandedOutFrames(s, s.frames);
      hide ErasureBefore, Wrapped, FlushSplit;
    }
  }

  lemma {:induction false} PacketsOf(fs: seq<Frame>)
    requires NoErasure(fs)
    ensures |RtpFrames(fs)| == |fs| && forall i :: 0 <= i < |fs| ==> RtpFrames(fs)[i] == fs[i].pkt
    decreases |fs|
  {
    if fs != [] {
      PacketsOf(fs[1..]);
    }
  }

  /** A frame is what arrived under its number. */
  ghost predicate AsArrived(ds: seq<Datagram>, truth: seq<nat>, f: RtpFrame)
    requires |ds| == |truth|
  {
    exists i :: 0 <= i < |ds| && truth[i] == f.lseq && ds[i] == f.data && Parse(ds[i].bytes) == Parsed(f.info)
  }

  /** The numbers handed out, before and by the flush. */
  lemma NumbersInOrder(capacity: nat, t: Trace, truth: seq<nat>, base: nat)
    requires truth != [] && Rearranged(truth, base) && Kept(t.state, truth, base, |truth|)
    requires NoErasure(t.ready) && Tiled(Init(capacity), t.ready, t.state) && (t.ready != [] ==> Lo(t.ready[0]) == base)
    ensures var f := Flush(t.state);
            var out := RtpFrames(t.ready + f.ready);
            && f.drop == [] && f.state.frames == [] && |out| == |truth| && InOrder(out, base)
            && out == RtpFrames(t.ready) + t.state.frames
  {
    KeptAtEnd(t.state, truth, base);
    FlushAtEnd(t.state, base);
    RtpFramesConcat(t.ready, Flush(t.state).ready);
    PacketsOf(t.ready);
    hide Kept, Flush, RtpFrames, Rearranged, Tiles, NoErasure;
    if t.ready != [] {
      TileNumbers(t.ready, base, t.state.lastLseq + 1);
      assert t.state.frames == [];
      assert RtpFrames(t.ready) + [] == RtpFrames(t.ready);
    } else {
      NothingYet(capacity);
      assert RtpFrames(t.ready) + t.state.frames == t.state.frames;
    }
  }

  lemma NothingYet(capacity: nat)
    ensures Init(capacity).WarmUp()
  {
  }

  /** A feed in which no packet is overtaken by more than capacity - 2 others comes out in order: nothing is dropped, no
      erasure is made before the flush, and the i-th packet handed out is the one that arrived under the i-th number. */
  lemma ReorderedDelivery(capacity: nat, ds: seq<Datagram>, truth: seq<nat>, base: nat)
    requires 3 <= capacity < TWO32 && Numbered(ds, truth) && Rearranged(truth, base) && Close(truth)
    requires DepthAtMost(truth, capacity - 2) && base + |truth| <= TWO64 - 3 * EPOCH
    ensures RunOk(Init(capacity), Feed(ds))
    ensures var t := Run(Init(capacity), Feed(ds));
            var f := Flush(t.state);
            var out := RtpFrames(t.ready + f.ready);
            && t.drop == [] && f.drop == [] && NoErasure(t.ready) && f.state.frames == []
            && |out| == |ds|
            && forall i :: 0 <= i < |out| ==> out[i].lseq == base + i && AsArrived(ds, truth, out[i])
  {
    var s := Init(capacity);
    StartKept(capacity, truth, base);
    ReorderRun(s, ds, truth, base, 0);
    assert Feed(ds)[0..] == Feed(ds) && truth[0..] == truth;
    var t := Run(s, Feed(ds));
    if truth != [] {
      hide Run, RunOk, Kept, Parse, Close, DepthAtMost, Tiled, WindowRun, Flush, RtpFrames, Rearranged;
      NumbersInOrder(capacity, t, truth, base);
      KeptInv(s, truth, base, 0);
      FramesAsArrived(s, ds, truth);
      AllAsArrived(t, ds, truth);
    } else {
      hide Kept, Parse, Close, DepthAtMost, Tiled, WindowRun, Rearranged;
      assert Feed(ds) == [];
    }
  }

  function CameIn(ds: seq<Datagram>, truth: seq<nat>): PacketProperty
    requires |ds| == |truth|
  {
    (lseq: nat, info: Info, d: Datagram) =>
      exists i :: 0 <= i < |ds| && truth[i] == lseq && ds[i] == d && Parse(ds[i].bytes) == Parsed(info)
  }

  lemma FramesAsArrived(s: State, ds: seq<Datagram>, truth: seq<nat>)
    requires Numbered(ds, truth) && Inv(s) && FreshMask(s) && s.frames == [] && |Feed(ds)| == |truth|
    requires WindowRun(s, Feed(ds), truth)
    ensures var t := Run(s, Feed(ds)); Each(t.state.frames, CameIn(ds, truth)) && EachReady(t.ready, CameIn(ds, truth))
  {
    var p := CameIn(ds, truth);
    var ops := Feed(ds);
    forall i | 0 <= i < |ops| && ops[i].In? && Parse(ops[i].d.bytes).Parsed?
      ensures p(truth[i], Parse(ops[i].d.bytes).info, ops[i].d)
    {
      assert ops[i] == In(ds[i]);
    }
    hide Parse, WindowRun, Run, Inv, FreshMask;
    WindowRunTaken(s, ops, truth, p);
    EachRun(s, ops, p);
  }

  lemma AllAsArrived(t: Trace, ds: seq<Datagram>, truth: seq<nat>)
    requires |ds| == |truth| && NoErasure(t.ready)
    requires Each(t.state.frames, CameIn(ds, truth)) && EachReady(t.ready, CameIn(ds, truth))
    ensures var out := RtpFrames(t.ready) + t.state.frames; forall i :: 0 <= i < |out| ==> AsArrived(ds, truth, out[i])
  {
    hide Parse;
    PacketsOf(t.ready);
    var out := RtpFrames(t.ready) + t.state.frames;
    forall i | 0 <= i < |out|
      ensures AsArrived(ds, truth, out[i])
    {
      if i < |t.ready| {
        assert out[i] == t.ready[i].pkt;
        assert CameIn(ds, truth)(out[i].lseq, out[i].info, out[i].data);
      } else {
        assert out[i] == t.state.frames[i - |t.ready|];
        assert CameIn(ds, truth)(out[i].lseq, out[i].info, out[i].data);
      }
    }
  }
}
