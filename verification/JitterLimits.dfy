/**
 Where the guarantees of the jitter buffer end, with a run for each case. With capacity 1 or 2 the purge can empty the
 buffer and forget the largest number, after which the late check is skipped (src/rtpjbuf.c:75-92 and 197-200). In the
 first epoch a pre-wrap packet is numbered near 2^64 (204-206). A purge can leave the epoch base ahead of the largest
 number (91-92), and a long gap makes the product of a timestamp span overflow (151-152).
 */
module JitterLimits {
  import opened Common
  import opened Rtp
  import opened JitterBuffer
  import opened JitterInvariant
  import opened JitterAsserts
  import opened JitterRuns
  import opened JitterNumbers
  import opened JitterShapes

  /** What was handed out stays below what is buffered. */
  ghost predicate NothingLate(s: State) {
    s.frames != [] && !s.WarmUp() ==> s.lastLseq < s.frames[0].lseq
  }

  /** The packets 0 and 5, then enough repeats of 0 to purge 5: the last repeat is buffered although it was handed out. */
  function LateRun(capacity: nat): seq<Op>
  {
    if capacity == 1 then [In(Probe(0, 0)), In(Probe(5, 0)), In(Probe(0, 0))]
    else [In(Probe(0, 0)), In(Probe(5, 0)), In(Probe(0, 0)), In(Probe(0, 0))]
  }

  lemma FirstZero(capacity: nat)
    ensures var s := Step(Init(capacity), In(Probe(0, 0))).state;
            && StepOk(Init(capacity), In(Probe(0, 0)))
            && s.lastLseq == 0 && s.lastMax == 0 && s.mask == 0 && s.frames == [] && s.capacity == capacity
  {
    hide Parse, Encode;
    ProbeParses(0, 0);
  }

  lemma ThenFive(s: State)
    requires s.capacity >= 1 && s.lastLseq == 0 && s.lastMax == 0 && s.mask == 0 && s.frames == []
    ensures var t := Step(s, In(Probe(5, 0))).state;
            && StepOk(s, In(Probe(5, 0)))
            && t.lastLseq == 0 && t.lastMax == 5 && t.mask == 0 && t.capacity == s.capacity && t.size == 1
            && |t.frames| == 1 && t.frames[0].lseq == 5 && t.frames[0].jbcnt == 0
  {
    hide Parse, Encode;
    ProbeParses(5, 0);
  }

  lemma ZeroAges(s: State)
    requires s.capacity == 2 && s.lastLseq == 0 && s.lastMax == 5 && s.mask == 0 && s.size == 1
    requires |s.frames| == 1 && s.frames[0].lseq == 5 && s.frames[0].jbcnt == 0
    ensures var t := Step(s, In(Probe(0, 0))).state;
            && StepOk(s, In(Probe(0, 0)))
            && t.lastLseq == 0 && t.lastMax == 5 && t.mask == 0 && t.capacity == 2 && t.size == 1
            && |t.frames| == 1 && t.frames[0].lseq == 5 && t.frames[0].jbcnt == 1
  {
    hide Parse, Encode;
    ProbeParses(0, 0);
  }

  lemma ZeroPurges(s: State)
    requires s.lastLseq == 0 && s.lastMax == 5 && s.mask == 0 && s.size == 1 && 1 <= s.capacity <= 2
    requires |s.frames| == 1 && s.frames[0].lseq == 5 && s.frames[0].jbcnt + 1 == s.capacity
    ensures StepOk(s, In(Probe(0, 0))) && !NothingLate(Step(s, In(Probe(0, 0))).state)
  {
    hide Parse, Encode;
    ProbeParses(0, 0);
  }

  lemma Run3(s: State, a: Op, b: Op, c: Op)
    requires StepOk(s, a)
    requires var t := Step(s, a).state; StepOk(t, b) && StepOk(Step(t, b).state, c)
    ensures RunOk(s, [a, b, c]) && Run(s, [a, b, c]).state == Step(Step(Step(s, a).state, b).state, c).state
  {
    hide Step, StepOk;
    var t := Step(s, a).state;
    var u := Step(t, b).state;
    assert [a, b, c][1..] == [b, c] && [b, c][1..] == [c] && [c][1..] == [];
    assert RunOk(u, [c]) && Run(u, [c]).state == Step(u, c).state;
    assert RunOk(t, [b, c]) && Run(t, [b, c]).state == Step(u, c).state;
  }

  lemma RunCons(s: State, a: Op, ops: seq<Op>)
    requires StepOk(s, a) && RunOk(Step(s, a).state, ops)
    ensures RunOk(s, [a] + ops) && Run(s, [a] + ops).state == Run(Step(s, a).state, ops).state
  {
    hide Step, StepOk;
    assert ([a] + ops)[1..] == ops;
  }

  /** With capacity 1 or 2 a run without any underflow buffers a packet that was already handed out. */
  lemma SmallCapacityFails(capacity: nat)
    requires 1 <= capacity <= 2
    ensures RunOk(Init(capacity), LateRun(capacity)) && !NothingLate(Run(Init(capacity), LateRun(capacity)).state)
  {
    hide Step, StepOk, Encode;
    var s := Init(capacity);
    var zero, five := In(Probe(0, 0)), In(Probe(5, 0));
    FirstZero(capacity);
    var s1 := Step(s, zero).state;
    ThenFive(s1);
    var s2 := Step(s1, five).state;
    if capacity == 1 {
      ZeroPurges(s2);
      Run3(s, zero, five, zero);
    } else {
      ZeroAges(s2);
      ZeroPurges(Step(s2, zero).state);
      Run3(s1, five, zero, zero);
      RunCons(s, zero, [five, zero, zero]);
      assert LateRun(2) == [zero] + [five, zero, zero];
    }
  }

  lemma InvNothingLate(s: State)
    requires Inv(s)
    ensures NothingLate(s)
  {
    InvMarks(s);
  }

  /** Every run without underflow keeps what is buffered beyond what was handed out exactly with a capacity of 0, which
      never fills, or of at least 3. */
  lemma CapacityBound(capacity: nat)
    requires capacity < TWO32
    ensures capacity == 0 || capacity >= 3 <==> forall ops :: RunOk(Init(capacity), ops) ==> NothingLate(Run(Init(capacity), ops).state)
  {
    if capacity == 0 || capacity >= 3 {
      forall ops | RunOk(Init(capacity), ops)
        ensures NothingLate(Run(Init(capacity), ops).state)
      {
        InitInv(capacity);
        RunKeeps(Init(capacity), ops);
        InvNothingLate(Run(Init(capacity), ops).state);
      }
    } else {
      SmallCapacityFails(capacity);
    }
  }

  /** The underflow happens: after packet 0, a packet 65535 is numbered 2^64 - 1, the mark for "no number yet", and the
      next packet makes the source abort. */
  lemma UnderflowHappens(capacity: nat, e: Datagram)
    requires 3 <= capacity < TWO32 && Parse(e.bytes).Parsed?
    ensures var s := Step(Init(capacity), In(Probe(0, 0))).state;
            var d := Probe(65535, 0);
            && Inv(s) && Room(s) && Underflow(s, d)
            && !Inv(UdpIn(s, d).state) && !UdpInAsserts(UdpIn(s, d).state, e)
  {
    hide Inv, Step, UdpIn, Parse, Encode;
    FirstZero(capacity);
    InitInv(capacity);
    StepKeeps(Init(capacity), In(Probe(0, 0)));
    var s := Step(Init(capacity), In(Probe(0, 0))).state;
    ProbeParses(65535, 0);
    UdpInKeepsIff(s, Probe(65535, 0));
    UnderflowAborts(s, Probe(65535, 0), e);
  }

  // ----- a purge across an epoch boundary -----

  /** The packets 65400 and 10, and 10 twice more: the tail is now due to be purged. */
  function CrossingRun(): seq<Op> {
    [In(Probe(65400, 0))] + [In(Probe(10, 0))] + [In(Probe(10, 0))] + [In(Probe(10, 0))]
  }

  lemma CrossingShape()
    ensures RunOk(Init(3), CrossingRun())
    ensures var s := Run(Init(3), CrossingRun()).state; Shape(s, LSEQ_NONE, 65536, [65400, 65546], 2) && s.capacity == 3
  {
    hide Run, RunOk, Step, StepOk, Shape, Encode, Parse;
    var s := Init(3);
    var ten := In(Probe(10, 0));
    var first := [In(Probe(65400, 0))];
    StepFirst(3, 65400);
    RunOne(s, first[0]);
    var s1 := Run(s, first).state;
    StepWraps(s1);
    RunSnoc(s, first, ten);
    var s2 := Step(s1, ten).state;
    var nums := [65400, 65546];
    assert Base(65546) == 65536;
    StepRepeats(s2, LSEQ_NONE, nums, 0);
    RunSnoc(s, first + [ten], ten);
    var s3 := Step(s2, ten).state;
    StepRepeats(s3, LSEQ_NONE, nums, 1);
    RunSnoc(s, first + [ten] + [ten], ten);
  }

  /** Packet 10 after packet 65400 belongs to the next epoch. */
  lemma StepWraps(s: State)
    requires Shape(s, LSEQ_NONE, 0, [65400], 0) && s.capacity == 3
    ensures var t := Step(s, In(Probe(10, 0))).state;
            StepOk(s, In(Probe(10, 0))) && Shape(t, LSEQ_NONE, 65536, [65400, 65546], 0) && t.capacity == 3
  {
    hide Parse, Encode, PurgeStaleTail, Admit, Step, StepOk;
    var d := Probe(10, 0);
    ProbeParses(10, 0);
    PurgeIdle(s, LSEQ_NONE, 0, [65400], 0);
    ReceiveNumbered(s, d, s, [], 65536, 65546);
    ShapeBumped(s, LSEQ_NONE, 0, [65400], 0, 65536);
    AdmitAppends(Bumped(s, 65536), LSEQ_NONE, 65536, [65400], 0, RtpFrame(Parse(d.bytes).info, 65546, 0, d), []);
    assert [65400] + [65546] == [65400, 65546];
  }

  /** A purge does cross an epoch boundary: packet 65401, one beyond the largest number left, is then numbered 130937. */
  lemma CrossingHappens()
    ensures RunOk(Init(3), CrossingRun())
    ensures var s := Run(Init(3), CrossingRun()).state;
            && Inv(s) && EpochExact(s) && PurgeCrosses(s)
            && PurgeStaleTail(s).0.lastMax == 65400 && Parse(Probe(65401, 0).bytes).Parsed?
            && Assigned(s, Probe(65401, 0)) == 130937
  {
    hide Run, RunOk, Inv, Parse, Encode;
    CrossingShape();
    ProbeParses(65401, 0);
    InitInv(3);
    RunKeeps(Init(3), CrossingRun());
    var s := Run(Init(3), CrossingRun()).state;
    var nums := [65400, 65546];
    assert s.frames[0].lseq == nums[0] && s.frames[1].lseq == nums[1];
  }

  // ----- an erasure that does not span its gap -----

  /** On a stream with a step of 160, an erasure of 5181 packets spans 135 ticks instead of 828960. */
  lemma LongGapMisspans(capacity: nat)
    requires 3 <= capacity < TWO32
    ensures var ops := [In(Probe(0, 0)), In(Probe(5182, 160 * 5182)), DoFlush];
            && RunOk(Init(capacity), ops) && |Run(Init(capacity), ops).ready| == 3
            && Run(Init(capacity), ops).ready[1] == Ers(1, 5181, 135)
  {
    hide Parse, Encode, Step, StepOk;
    var s := Init(capacity);
    var a, b := In(Probe(0, 0)), In(Probe(5182, 160 * 5182));
    StartsAtZero(capacity);
    var s1 := Step(s, a).state;
    BuffersAfterGap(s1);
    var s2 := Step(s1, b).state;
    FlushesGap(s2);
    RunOne(s, a);
    RunOne(s1, b);
    RunOne(s2, DoFlush);
    RunConcat(s, [a], [b]);
    RunConcat(s, [a] + [b], [DoFlush]);
    assert [a] + [b] + [DoFlush] == [a, b, DoFlush];
  }

  lemma StartsAtZero(capacity: nat)
    ensures var s := Init(capacity);
            var o := Step(s, In(Probe(0, 0)));
            && StepOk(s, In(Probe(0, 0))) && |o.ready| == 1
            && o.state.lastLseq == 0 && o.state.lastTs == 0 && o.state.lastMax == 0 && o.state.mask == 0 && o.state.frames == []
            && o.state.capacity == capacity
  {
    hide Parse, Encode;
    ProbeParses(0, 0);
  }

  lemma BuffersAfterGap(s: State)
    requires s.lastLseq == 0 && s.lastTs == 0 && s.lastMax == 0 && s.mask == 0 && s.frames == []
    ensures var d := Probe(5182, 160 * 5182);
            var o := Step(s, In(d));
            && StepOk(s, In(d)) && o.ready == []
            && o.state.lastLseq == 0 && o.state.lastTs == 0
            && |o.state.frames| == 1 && o.state.frames[0].lseq == 5182 && o.state.frames[0].info.ts == 160 * 5182
  {
    hide Parse, Encode;
    ProbeParses(5182, 160 * 5182);
  }

  lemma FlushesGap(s: State)
    requires s.lastLseq == 0 && s.lastTs == 0 && |s.frames| == 1 && s.frames[0].lseq == 5182 && s.frames[0].info.ts == 160 * 5182
    ensures var o := Step(s, DoFlush); StepOk(s, DoFlush) && |o.ready| == 2 && o.ready[0] == Ers(1, 5181, 135)
  {
    assert ErasureTs(0, 160 * 5182, 1, 5181) == 135;
    hide ErasureTs;
  }
}
