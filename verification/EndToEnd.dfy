/**
 The generator and the jitter buffer together: packets made one after the other and fed in order come out
 in order with their payloads, from any starting sequence number and across any number of 16-bit wraps.
 */
module EndToEnd {
  import opened Common
  import opened Rtp
  import opened JitterBuffer
  import opened JitterInvariant
  import opened JitterRuns
  import opened JitterNumbers
  import Synth

  /** Datagrams that parse, numbered consecutively from base modulo 65536. */
  ghost predicate InOrderFeed(ds: seq<Datagram>, base: nat) {
    forall i :: 0 <= i < |ds| ==>
      Parse(ds[i].bytes).Parsed? && Parse(ds[i].bytes).info.seqno == (base + i) % 0x1_0000
  }

  function Feed(ds: seq<Datagram>): (ops: seq<Op>)
    ensures |ops| == |ds| && forall i :: 0 <= i < |ds| ==> ops[i] == In(ds[i])
  {
    seq(|ds|, i requires 0 <= i < |ds| => In(ds[i]))
  }

  predicate NoErasure(fs: seq<Frame>) {
    forall i :: 0 <= i < |fs| ==> fs[i].Rtp?
  }

  /** The state after k packets of an in-order feed: still filling up, or handing out each packet as it comes. */
  ghost predicate Fed(s: State, k: nat, base: nat) {
    && k > 0 && Usable(s.capacity)
    && s.lastMax == base + k - 1 && s.mask % 0x1_0000 == 0 && s.mask <= s.lastMax < s.mask + EPOCH
    && s.size == |s.frames|
    && (if s.WarmUp() then |s.frames| == k && (s.capacity == 0 || k < s.capacity) && Filling(s.frames, base)
        else s.frames == [] && s.lastLseq == s.lastMax)
  }

  /** There is room for n packets in all: a buffer of capacity 0 that is filling up ends where its size field does. */
  predicate RoomFor(s: State, n: nat) {
    s.capacity == 0 && s.WarmUp() ==> n < TWO32
  }

  ghost predicate Filling(frames: seq<RtpFrame>, base: nat) {
    forall i :: 0 <= i < |frames| ==> frames[i].lseq == base + i && frames[i].jbcnt == 0
  }

  function Expected(d: Datagram, lseq: nat): RtpFrame
    requires Parse(d.bytes).Parsed?
  {
    RtpFrame(Parse(d.bytes).info, lseq, 0, d)
  }

  /** The frames with their age in the buffer set aside. */
  function Plain(fs: seq<RtpFrame>): (r: seq<RtpFrame>)
    ensures |r| == |fs| && forall i :: 0 <= i < |fs| ==> r[i] == fs[i].(jbcnt := 0)
  {
    seq(|fs|, i requires 0 <= i < |fs| => fs[i].(jbcnt := 0))
  }

  lemma {:induction false} RtpFramesWrapped(run: seq<RtpFrame>)
    ensures RtpFrames(Wrapped(run)) == run
    decreases |run|
  {
    if run != [] {
      assert Wrapped(run)[1..] == Wrapped(run[1..]);
      RtpFramesWrapped(run[1..]);
    }
  }

  lemma {:induction false} RtpFramesConcat(fs: seq<Frame>, gs: seq<Frame>)
    ensures RtpFrames(fs + gs) == RtpFrames(fs) + RtpFrames(gs)
    decreases |fs|
  {
    if fs == [] {
      assert fs + gs == gs;
    } else {
      var head := if fs[0].Rtp? then [fs[0].pkt] else [];
      assert (fs + gs)[1..] == fs[1..] + gs;
      RtpFramesConcat(fs[1..], gs);
      Assoc(head, RtpFrames(fs[1..]), RtpFrames(gs));
    }
  }

  /** A whole buffer of consecutive numbers is one run. */
  lemma {:induction false} FillingRun(frames: seq<RtpFrame>, base: nat)
    requires frames != [] && forall i :: 0 <= i < |frames| ==> frames[i].lseq == base + i
    ensures RunLength(frames) == |frames|
    decreases |frames|
  {
    if |frames| > 1 {
      FillingRun(frames[1..], base + 1);
    }
  }

  lemma {:induction false} FillingPos(frames: seq<RtpFrame>, base: nat)
    requires forall i :: 0 <= i < |frames| ==> frames[i].lseq == base + i
    ensures InsertPos(frames, base + |frames|) == |frames|
    decreases |frames|
  {
    if frames != [] {
      FillingPos(frames[1..], base + 1);
    }
  }

  // ----- one packet -----

  lemma FeedFirst(capacity: nat, d: Datagram, base: nat)
    requires Usable(capacity) && base < EPOCH && Parse(d.bytes).Parsed? && Parse(d.bytes).info.seqno == base
    ensures var o := Step(Init(capacity), In(d));
            && StepOk(Init(capacity), In(d)) && Fed(o.state, 1, base) && o.state.capacity == capacity && (o.state.WarmUp() <==> base != 0)
            && o.drop == [] && NoErasure(o.ready)
            && Plain(RtpFrames(o.ready)) + Plain(o.state.frames) == [Expected(d, base)]
  {
    hide Parse;
    RtpFramesWrapped([Expected(d, base)]);
    assert Wrapped([Expected(d, base)]) == [Rtp(Expected(d, base))];
  }

  /** The purge leaves a filling buffer as it is, but for the age of its tail. */
  lemma FedPurge(s: State, k: nat, base: nat)
    requires Fed(s, k, base) && RoomFor(s, k + 1)
    ensures var (s1, purged) := PurgeStaleTail(s);
            && purged == [] && Plain(s1.frames) == Plain(s.frames)
            && (s.size < Sub32(s.capacity, 1) ==> s1 == s)
            && s1 == s.(frames := s1.frames) && |s1.frames| == |s.frames|
            && (s.WarmUp() ==> forall i :: 0 <= i < k ==> s1.frames[i].lseq == base + i)
  {
  }

  lemma FedNumber(s: State, k: nat, base: nat, seqno: nat)
    requires s.lastMax == base + k - 1 && s.mask % 0x1_0000 == 0 && s.mask <= s.lastMax < s.mask + EPOCH
    requires seqno == (base + k) % 0x1_0000
    ensures var (m, lseq) := Unwrap(s.mask, s.lastMax, seqno);
            && lseq == base + k && m % 0x1_0000 == 0 && m <= lseq < m + EPOCH
            && !(s.mask == 0 && PreWrap(s.lastMax, seqno))
  {
    UnwrapExact(s.mask, s.lastMax, base + k);
    UnwrapNear(s.mask, s.lastMax, seqno);
    UnwrapInEpoch(s.mask, s.lastMax, seqno);
  }

  /** A packet that follows the last one handed out is handed out at once. */
  lemma AdmitRunning(s: State, fp: RtpFrame)
    requires !s.WarmUp() && s.frames == [] && fp.lseq == s.lastLseq + 1
    ensures Admit(s, fp, []) == Outcome(SaveLast(s.(lastMax := fp.lseq), fp), None, [Rtp(fp)], [])
  {
  }

  lemma SplicedEnd(frames: seq<RtpFrame>, fp: RtpFrame)
    ensures Spliced(frames, fp, |frames|) == frames + [fp]
  {
  }

  /** A packet that follows a filling buffer is appended; when that fills it, everything is handed out. */
  lemma AdmitFilling(s: State, fp: RtpFrame, base: nat)
    requires s.WarmUp() && s.frames != [] && s.size == |s.frames|
    requires forall i :: 0 <= i < |s.frames| ==> s.frames[i].lseq == base + i
    requires fp.lseq == base + |s.frames|
    ensures var o := Admit(s, fp, []);
            var all := s.frames + [fp];
            if |all| == s.capacity then
              o == Outcome(SaveLast(s.(frames := [], size := 0, lastMax := fp.lseq), fp), None, Wrapped(all), [])
            else
              o == Outcome(s.(frames := all, size := |all|, lastMax := fp.lseq), None, [], [])
  {
    hide Spliced, Settle, InsertPos;
    FillingPos(s.frames, base);
    SplicedEnd(s.frames, fp);
    SettleFilled(Insert(s, fp, |s.frames|), base);
  }

  lemma SettleFilled(s: State, base: nat)
    requires s.WarmUp() && s.frames != [] && s.size == |s.frames|
    requires forall i :: 0 <= i < |s.frames| ==> s.frames[i].lseq == base + i
    ensures Settle(s, []) ==
            if |s.frames| == s.capacity then
              Outcome(SaveLast(s.(frames := [], size := 0), s.frames[|s.frames| - 1]), None, Wrapped(s.frames), [])
            else
              Outcome(s, None, [], [])
  {
    hide Release;
    FillingRun(s.frames, base);
    ReleaseAll(s);
  }

  lemma Whole<T>(a: seq<T>)
    ensures a[..|a|] == a && a[|a|..] == [] && [] + a == a
  {
  }

  lemma ReleaseAll(s: State)
    requires s.WarmUp() && s.frames != [] && s.size == |s.frames| && RunLength(s.frames) == |s.frames|
    ensures Release(s) == (SaveLast(s.(frames := [], size := 0), s.frames[|s.frames| - 1]), Wrapped(s.frames))
  {
    hide RunLength, Wrapped, ErasureBefore;
    Whole(s.frames);
    Whole(Wrapped(s.frames));
  }

  // ----- the feed -----

  lemma FeedNext(s: State, k: nat, base: nat, d: Datagram)
    requires Fed(s, k, base) && Room(s) && RoomFor(s, k + 1)
    requires Parse(d.bytes).Parsed? && Parse(d.bytes).info.seqno == (base + k) % 0x1_0000
    requires base + k < LSEQ_NONE
    ensures var o := Step(s, In(d));
            && StepOk(s, In(d)) && Fed(o.state, k + 1, base) && o.state.capacity == s.capacity
            && (o.state.WarmUp() ==> s.WarmUp()) && (s.capacity == 0 && s.WarmUp() ==> o.state.WarmUp())
            && o.drop == [] && NoErasure(o.ready)
            && Plain(RtpFrames(o.ready)) + Plain(o.state.frames) == Plain(s.frames) + [Expected(d, base + k)]
  {
    hide Parse, PurgeStaleTail, Admit, Unwrap, PreWrap;
    var info := Parse(d.bytes).info;
    FedPurge(s, k, base);
    var s1 := PurgeStaleTail(s).0;
    FedNumber(s1, k, base, info.seqno);
    var (mask, lseq) := Unwrap(s1.mask, s1.lastMax, info.seqno);
    var s2 := Bumped(s1, mask);
    var fp := Expected(d, base + k);
    var o := Step(s, In(d));
    assert o == Admit(s2, fp, []);
    PlainConcat(s1.frames, [fp]);
    if s.WarmUp() {
      AdmitFilling(s2, fp, base);
      RtpFramesWrapped(s2.frames + [fp]);
      FedFilling(s, s2, fp, k, base);
    } else {
      AdmitRunning(s2, fp);
      RtpFramesWrapped([fp]);
      assert Wrapped([fp]) == [Rtp(fp)];
    }
  }

  lemma PlainConcat(fs: seq<RtpFrame>, gs: seq<RtpFrame>)
    ensures Plain(fs + gs) == Plain(fs) + Plain(gs)
  {
  }

  /** Below the last free place, appending keeps the buffer filling. */
  lemma FedFilling(s: State, s2: State, fp: RtpFrame, k: nat, base: nat)
    requires Fed(s, k, base) && s.WarmUp() && fp.lseq == base + k && fp.jbcnt == 0
    requires |s2.frames| == k && (k < Sub32(s.capacity, 1) ==> s2.frames == s.frames)
    requires RoomFor(s, k + 1)
    ensures s.capacity == 0 || k + 1 < s.capacity ==> Filling(s2.frames + [fp], base)
  {
  }

  /** The frames an in-order feed should yield: each packet as parsed, numbered from base on. */
  function ExpectedAll(ds: seq<Datagram>, base: nat): (r: seq<RtpFrame>)
    requires InOrderFeed(ds, base)
    ensures |r| == |ds| && forall i :: 0 <= i < |ds| ==> r[i] == Expected(ds[i], base + i)
  {
    seq(|ds|, i requires 0 <= i < |ds| => Expected(ds[i], base + i))
  }

  lemma FeedSplit(ds: seq<Datagram>, base: nat)
    requires ds != [] && InOrderFeed(ds, base)
    ensures Feed(ds)[0] == In(ds[0]) && Feed(ds)[1..] == Feed(ds[1..])
    ensures Parse(ds[0].bytes).Parsed? && Parse(ds[0].bytes).info.seqno == base % 0x1_0000
    ensures InOrderFeed(ds[1..], base + 1)
    ensures ExpectedAll(ds, base) == [Expected(ds[0], base)] + ExpectedAll(ds[1..], base + 1)
  {
    hide Parse;
  }

  /** What is handed out followed by what is held is what was held before followed by the feed. */
  ghost predicate Delivered(before: seq<RtpFrame>, fed: seq<RtpFrame>, t: Trace) {
    && t.drop == [] && NoErasure(t.ready)
    && Plain(RtpFrames(t.ready)) + Plain(t.state.frames) == before + fed
  }

  lemma DeliveredCons(before: seq<RtpFrame>, fp: RtpFrame, o: Outcome, fed: seq<RtpFrame>, rest: Trace)
    requires o.drop == [] && NoErasure(o.ready)
    requires Plain(RtpFrames(o.ready)) + Plain(o.state.frames) == before + [fp]
    requires Delivered(Plain(o.state.frames), fed, rest)
    ensures Delivered(before, [fp] + fed, Trace(rest.state, o.ready + rest.ready, o.drop + rest.drop))
  {
    hide Plain, RtpFrames;
    RtpFramesConcat(o.ready, rest.ready);
    PlainConcat(RtpFrames(o.ready), RtpFrames(rest.ready));
    var a, b := Plain(RtpFrames(o.ready)), Plain(RtpFrames(rest.ready));
    Assoc(a, b, Plain(rest.state.frames));
    Assoc(a, Plain(o.state.frames), fed);
    Assoc(before, [fp], fed);
  }

  /** Feeding in order delivers in order, from any point of the feed on. */
  lemma {:induction false} FeedRun(s: State, k: nat, base: nat, ds: seq<Datagram>)
    requires Fed(s, k, base) && InOrderFeed(ds, base + k) && RoomFor(s, k + |ds|)
    requires base + k + |ds| <= TWO64 - 3 * EPOCH
    ensures RunOk(s, Feed(ds))
    ensures var t := Run(s, Feed(ds));
            && Fed(t.state, k + |ds|, base) && t.state.capacity == s.capacity
            && (s.capacity == 0 && s.WarmUp() ==> t.state.WarmUp())
            && Delivered(Plain(s.frames), ExpectedAll(ds, base + k), t)
    decreases |ds|
  {
    hide Fed, Parse, Step, StepOk, Delivered, Plain, RtpFrames, NoErasure, InOrderFeed;
    if ds == [] {
      FeedNothing(s, base + k);
    } else {
      FeedSplit(ds, base + k);
      FedRoom(s, k, base);
      FeedNext(s, k, base, ds[0]);
      var o := Step(s, In(ds[0]));
      FeedRun(o.state, k + 1, base, ds[1..]);
      var rest := Run(o.state, Feed(ds[1..]));
      DeliveredCons(Plain(s.frames), Expected(ds[0], base + k), o, ExpectedAll(ds[1..], base + k + 1), rest);
    }
  }

  lemma FeedNothing(s: State, base: nat)
    ensures InOrderFeed([], base) && Delivered(Plain(s.frames), ExpectedAll([], base), Trace(s, [], []))
  {
    Whole(Plain(s.frames));
  }

  lemma FedRoom(s: State, k: nat, base: nat)
    requires Fed(s, k, base) && base + k <= TWO64 - 3 * EPOCH
    ensures Room(s)
  {
  }

  /** Flushing after an in-order feed hands out the rest and drops nothing. */
  lemma FlushFed(s: State, k: nat, base: nat)
    requires Fed(s, k, base)
    ensures var o := Flush(s); o.drop == [] && o.state.frames == [] && RtpFrames(o.ready) == s.frames
  {
    hide ErasureBefore, Wrapped, FlushSplit;
    if s.frames != [] {
      FillingRun(s.frames, base);
      SplitOneRun(s.frames);
      HandedOutFrames(s, s.frames);
    }
  }

  lemma SplitOneRun(frames: seq<RtpFrame>)
    requires frames != [] && RunLength(frames) == |frames|
    ensures FlushSplit(frames, []) == (frames, [])
  {
  }

  lemma HandedOutFrames(s: State, run: seq<RtpFrame>)
    requires run != []
    ensures RtpFrames(ErasureBefore(s, run[0]) + Wrapped(run)) == run
  {
    var e := ErasureBefore(s, run[0]);
    assert RtpFrames(e) == [] by {
      assert e != [] ==> e[1..] == [];
    }
    RtpFramesConcat(e, Wrapped(run));
    RtpFramesWrapped(run);
  }

  /** When a feed of n packets that starts at base fits: always, unless the buffer has capacity 0 and has to fill up. */
  predicate Deliverable(capacity: nat, base: nat, n: nat) {
    capacity == 0 && base != 0 ==> n < TWO32
  }

  /** The whole feed from a new buffer on. */
  lemma FeedAll(capacity: nat, ds: seq<Datagram>, base: nat)
    requires Usable(capacity) && base < EPOCH && InOrderFeed(ds, base) && base + |ds| <= TWO64 - 3 * EPOCH
    requires Deliverable(capacity, base, |ds|) && ds != []
    ensures RunOk(Init(capacity), Feed(ds))
    ensures var t := Run(Init(capacity), Feed(ds));
            && Fed(t.state, |ds|, base) && t.state.capacity == capacity && Delivered([], ExpectedAll(ds, base), t)
            && (capacity == 0 && base != 0 ==> t.state.WarmUp())
  {
    hide Fed, Parse, Step, StepOk, Plain, RtpFrames, Delivered, NoErasure, InOrderFeed;
    var s := Init(capacity);
    FeedSplit(ds, base);
    FeedFirst(capacity, ds[0], base);
    var o := Step(s, In(ds[0]));
    FeedRun(o.state, 1, base, ds[1..]);
    var rest := Run(o.state, Feed(ds[1..]));
    Whole([Expected(ds[0], base)]);
    DeliveredCons([], Expected(ds[0], base), o, ExpectedAll(ds[1..], base + 1), rest);
  }

  /** Packets numbered consecutively, fed in order: each comes out once, in order, as parsed, with no drop and no
      erasure before the final flush. */
  lemma InOrderDelivery(capacity: nat, ds: seq<Datagram>, base: nat)
    requires Usable(capacity) && base < EPOCH && InOrderFeed(ds, base) && base + |ds| <= TWO64 - 3 * EPOCH
    requires Deliverable(capacity, base, |ds|)
    ensures RunOk(Init(capacity), Feed(ds))
    ensures var t := Run(Init(capacity), Feed(ds));
            var f := Flush(t.state);
            && t.drop == [] && f.drop == [] && NoErasure(t.ready) && f.state.frames == []
            && Plain(RtpFrames(t.ready + f.ready)) == ExpectedAll(ds, base)
  {
    if ds != [] {
      hide Fed, Parse, Plain, RtpFrames, Flush, Run, RunOk, Feed, InOrderFeed;
      FeedAll(capacity, ds, base);
      var t := Run(Init(capacity), Feed(ds));
      FlushFed(t.state, |ds|, base);
      RtpFramesConcat(t.ready, Flush(t.state).ready);
      PlainConcat(RtpFrames(t.ready), t.state.frames);
      Whole(ExpectedAll(ds, base));
    }
  }

  lemma PurgedIsDropped(s: State, d: Datagram)
    requires PurgeStaleTail(s).1 != []
    ensures UdpIn(s, d).drop != []
  {
    hide PurgeStaleTail, Parse, Unwrap, InsertPos, RunLength, ErasureBefore;
  }

  /** A buffer of capacity 0 that holds as many frames as its size field can count drops its tail. */
  lemma OverflowDrops(s: State, d: Datagram)
    requires s.capacity == 0 && |s.frames| == s.size == TWO32 - 1
    ensures UdpIn(s, d).drop != []
  {
    PurgedIsDropped(s, d);
  }

  lemma FeedParts(ds: seq<Datagram>, base: nat, k: nat)
    requires InOrderFeed(ds, base) && k < |ds|
    ensures InOrderFeed(ds[..k], base) && Feed(ds) == Feed(ds[..k]) + ([In(ds[k])] + Feed(ds[k + 1..]))
  {
    hide Parse;
  }

  lemma FirstDrops(s: State, op: Op, ops: seq<Op>)
    requires Step(s, op).drop != []
    ensures Run(s, [op] + ops).drop != []
  {
    hide Step;
    assert ([op] + ops)[1..] == ops;
  }

  /** With capacity 0 a feed that has to fill the buffer, and is longer than its size field can count, loses a packet. */
  lemma LongFeedDrops(ds: seq<Datagram>, base: nat)
    requires 0 < base < EPOCH && InOrderFeed(ds, base) && |ds| >= TWO32 && base + |ds| <= TWO64 - 3 * EPOCH
    ensures Run(Init(0), Feed(ds)).drop != []
  {
    hide Parse, Step, StepOk, Plain, RtpFrames, Run, RunOk, Delivered, NoErasure, UdpIn;
    var k := TWO32 - 1;
    FeedParts(ds, base, k);
    var first := ds[..k];
    var t := FillUp(first, base);
    OverflowDrops(t, ds[k]);
    StepIsUdpIn(t, ds[k]);
    FirstDrops(t, In(ds[k]), Feed(ds[k + 1..]));
    RunSplit(Init(0), Feed(first), [In(ds[k])] + Feed(ds[k + 1..]));
  }

  lemma StepIsUdpIn(s: State, d: Datagram)
    ensures Step(s, In(d)) == UdpIn(s, d)
  {
  }

  /** The state of a buffer of capacity 0 after a feed that fits: every packet is still held. */
  lemma FillUp(ds: seq<Datagram>, base: nat) returns (t: State)
    requires 0 < base < EPOCH && ds != [] && InOrderFeed(ds, base) && |ds| < TWO32 && base + |ds| <= TWO64 - 3 * EPOCH
    ensures t == Run(Init(0), Feed(ds)).state && t.capacity == 0 && |t.frames| == t.size == |ds|
  {
    hide Parse, Run, RunOk, Delivered, Filling, InOrderFeed;
    FeedAll(0, ds, base);
    t := Run(Init(0), Feed(ds)).state;
  }

  /** Nothing is dropped from an in-order feed exactly when it fits. */
  lemma InOrderDeliveryIff(capacity: nat, ds: seq<Datagram>, base: nat)
    requires Usable(capacity) && base < EPOCH && InOrderFeed(ds, base) && base + |ds| <= TWO64 - 3 * EPOCH
    ensures Run(Init(capacity), Feed(ds)).drop == [] <==> Deliverable(capacity, base, |ds|)
  {
    hide Run, RunOk, Parse, Plain, RtpFrames;
    if Deliverable(capacity, base, |ds|) {
      InOrderDelivery(capacity, ds, base);
    } else {
      LongFeedDrops(ds, base);
    }
  }

  /** End to end: whatever the calls made to the generator, feeding its packets in order and flushing yields exactly
      those packets, in order, each with the payload that was asked for. */
  lemma GeneratedStreamDelivered(capacity: nat, c: Synth.Counters, calls: seq<Synth.Call>, ds: seq<Datagram>)
    requires Usable(capacity) && Synth.Valid(c) && Deliverable(capacity, c.seqno % 0x1_0000, |ds|)
    requires var ps := Synth.Packets(c, calls);
             |ds| == |ps| <= TWO64 - 4 * EPOCH && forall i :: 0 <= i < |ps| ==> ds[i].bytes == Encode(ps[i])
    ensures RunOk(Init(capacity), Feed(ds))
    ensures var t := Run(Init(capacity), Feed(ds));
            var f := Flush(t.state);
            var out := Plain(RtpFrames(t.ready + f.ready));
            && t.drop == [] && f.drop == [] && NoErasure(t.ready) && f.state.frames == []
            && |out| == |ds| == |Synth.Payloads(calls)|
            && (forall i :: 0 <= i < |out| ==> out[i].data == ds[i] && out[i].lseq == c.seqno % 0x1_0000 + i)
            && (forall i :: 0 <= i < |out| ==> PayloadOf(out[i]) == Synth.Payloads(calls)[i])
  {
    hide Parse, Encode, Synth.Packets, Synth.Payloads, Run, Flush, Plain, RtpFrames, RunOk, PayloadOf, InOrderFeed, NoErasure;
    Synth.PacketsConsecutive(c, calls);
    GeneratedFeed(c, calls, ds);
    InOrderDelivery(capacity, ds, c.seqno % 0x1_0000);
  }

  lemma GeneratedFeed(c: Synth.Counters, calls: seq<Synth.Call>, ds: seq<Datagram>)
    requires Synth.Valid(c)
    requires var ps := Synth.Packets(c, calls); |ds| == |ps| && forall i :: 0 <= i < |ps| ==> ds[i].bytes == Encode(ps[i])
    ensures var base := c.seqno % 0x1_0000;
            && InOrderFeed(ds, base)
            && |ds| == |Synth.Payloads(calls)|
            && forall i :: 0 <= i < |ds| ==> PayloadOf(ExpectedAll(ds, base)[i]) == Synth.Payloads(calls)[i]
  {
    hide Parse, Encode, Synth.Packets, Synth.Payloads, PayloadOf;
    var ps := Synth.Packets(c, calls);
    var base := c.seqno % 0x1_0000;
    Synth.PacketsConsecutive(c, calls);
    forall i | 0 <= i < |ds|
      ensures && Parse(ds[i].bytes).Parsed? && Parse(ds[i].bytes).info.seqno == (base + i) % 0x1_0000
              && PayloadOf(Expected(ds[i], base + i)) == Synth.Payloads(calls)[i]
    {
      GeneratedParses(ps[i], ds[i], base + i);
    }
  }

  /** The octets of a frame's payload. */
  function PayloadOf(f: RtpFrame): seq<byte> {
    var lo, hi := f.info.dataOffset, f.info.dataOffset + f.info.dataSize;
    if hi <= |f.data.bytes| then f.data.bytes[lo..hi] else []
  }

  lemma GeneratedParses(p: Packet, d: Datagram, lseq: nat)
    requires ValidPacket(p) && d.bytes == Encode(p)
    ensures Parse(d.bytes).Parsed? && Parse(d.bytes).info.seqno == p.seqno
    ensures PayloadOf(Expected(d, lseq)) == p.payload
  {
    ParseEncode(p);
    EncodeLayout(p);
  }
}
