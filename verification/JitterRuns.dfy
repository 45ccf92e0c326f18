/**
 Whole runs of the jitter buffer: any interleaving of udp_in and flush. The ready lists, put together,
 tile the line of logical numbers, and every parsed packet ends up in exactly one place.
 */
module JitterRuns {
  import opened Common
  import opened Rtp
  import opened JitterBuffer
  import opened JitterInvariant

  datatype Op = In(d: Datagram) | DoFlush

  function Step(s: State, op: Op): Outcome {
    match op
    case In(d) => UdpIn(s, d)
    case DoFlush => Flush(s)
  }

  /** What a call asks for: room below 2^64, and no pre-wrap packet in the first epoch. */
  predicate StepOk(s: State, op: Op) {
    op.In? ==> Room(s) && !Underflow(s, op.d)
  }

  predicate RunOk(s: State, ops: seq<Op>)
    decreases |ops|
  {
    ops == [] || (StepOk(s, ops[0]) && RunOk(Step(s, ops[0]).state, ops[1..]))
  }

  datatype Trace = Trace(state: State, ready: seq<Frame>, drop: seq<RtpFrame>)

  /** The final state and all that was handed out and dropped, in order. */
  function Run(s: State, ops: seq<Op>): Trace
    decreases |ops|
  {
    if ops == [] then Trace(s, [], [])
    else
      var o := Step(s, ops[0]);
      var rest := Run(o.state, ops[1..]);
      Trace(rest.state, o.ready + rest.ready, o.drop + rest.drop)
  }

  lemma StepKeeps(s: State, op: Op)
    requires Inv(s) && StepOk(s, op)
    ensures Inv(Step(s, op).state)
  {
    match op
    case In(d) => UdpInKeeps(s, d);
    case DoFlush => FlushKeeps(s);
  }

  /** Every run keeps the invariant. */
  lemma {:induction false} RunKeeps(s: State, ops: seq<Op>)
    requires Inv(s) && RunOk(s, ops)
    ensures Inv(Run(s, ops).state)
    decreases |ops|
  {
    hide Inv, Step, StepOk;
    if ops != [] {
      StepKeeps(s, ops[0]);
      RunKeeps(Step(s, ops[0]).state, ops[1..]);
    }
  }

  /** A run is the run of its first part followed by the run of its second. */
  lemma {:induction false} RunSplit(s: State, a: seq<Op>, b: seq<Op>)
    ensures var t, u := Run(s, a), Run(Run(s, a).state, b);
            Run(s, a + b) == Trace(u.state, t.ready + u.ready, t.drop + u.drop)
    decreases |a|
  {
    hide Step;
    if a == [] {
      assert a + b == b;
      var u := Run(s, b);
      assert [] + u.ready == u.ready && [] + u.drop == u.drop;
    } else {
      var o := Step(s, a[0]);
      assert (a + b)[0] == a[0] && (a + b)[1..] == a[1..] + b;
      RunSplit(o.state, a[1..], b);
      var t, u := Run(o.state, a[1..]), Run(Run(s, a).state, b);
      Assoc(o.ready, t.ready, u.ready);
      Assoc(o.drop, t.drop, u.drop);
    }
  }

  lemma {:induction false} RunOkConcat(s: State, a: seq<Op>, b: seq<Op>)
    requires RunOk(s, a) && RunOk(Run(s, a).state, b)
    ensures RunOk(s, a + b)
    decreases |a|
  {
    hide Step, StepOk;
    if a == [] {
      assert a + b == b;
    } else {
      assert (a + b)[0] == a[0] && (a + b)[1..] == a[1..] + b;
      RunOkConcat(Step(s, a[0]).state, a[1..], b);
    }
  }

  lemma RunConcat(s: State, a: seq<Op>, b: seq<Op>)
    requires RunOk(s, a) && RunOk(Run(s, a).state, b)
    ensures RunOk(s, a + b)
    ensures var t, u := Run(s, a), Run(Run(s, a).state, b);
            Run(s, a + b) == Trace(u.state, t.ready + u.ready, t.drop + u.drop)
  {
    hide Run, RunOk;
    RunSplit(s, a, b);
    RunOkConcat(s, a, b);
  }

  lemma RunOne(s: State, op: Op)
    requires StepOk(s, op)
    ensures RunOk(s, [op]) && Run(s, [op]) == Trace(Step(s, op).state, Step(s, op).ready, Step(s, op).drop)
  {
    hide Step, StepOk;
    var o := Step(s, op);
    assert [op][1..] == [];
    assert Run(o.state, []) == Trace(o.state, [], []);
    assert o.ready + [] == o.ready && o.drop + [] == o.drop;
  }

  /** A run to which one more step is added. */
  lemma RunSnoc(s: State, ops: seq<Op>, op: Op)
    requires RunOk(s, ops) && StepOk(Run(s, ops).state, op)
    ensures RunOk(s, ops + [op]) && Run(s, ops + [op]).state == Step(Run(s, ops).state, op).state
  {
    hide Run, RunOk, Step, StepOk;
    RunOne(Run(s, ops).state, op);
    RunConcat(s, ops, [op]);
  }

  // ----- tiling -----

  function Lo(f: Frame): nat {
    if f.Rtp? then f.pkt.lseq else f.lseqStart
  }

  function Hi(f: Frame): nat {
    if f.Rtp? then f.pkt.lseq else f.lseqEnd
  }

  /** The frames cover the numbers from a up to, not including, b: in order, without hole or overlap. */
  ghost predicate Tiles(fs: seq<Frame>, a: nat, b: nat) {
    && (fs == [] ==> a == b)
    && (fs != [] ==> Lo(fs[0]) == a && Hi(fs[|fs| - 1]) + 1 == b)
    && (forall i :: 0 <= i < |fs| ==> Lo(fs[i]) <= Hi(fs[i]))
    && (forall i :: 0 < i < |fs| ==> Lo(fs[i]) == Hi(fs[i - 1]) + 1)
  }

  lemma TilesConcat(fs: seq<Frame>, gs: seq<Frame>, a: nat, b: nat, c: nat)
    requires Tiles(fs, a, b) && Tiles(gs, b, c)
    ensures Tiles(fs + gs, a, c)
  {
    var hs := fs + gs;
    forall i | 0 < i < |hs|
      ensures Lo(hs[i]) == Hi(hs[i - 1]) + 1
    {
      if i < |fs| {
        assert hs[i] == fs[i] && hs[i - 1] == fs[i - 1];
      } else if i > |fs| {
        assert hs[i] == gs[i - |fs|] && hs[i - 1] == gs[i - |fs| - 1];
      }
    }
  }

  /** Each number of the range is covered by one frame, and by no other. */
  lemma {:induction false} TilesCover(fs: seq<Frame>, a: nat, b: nat, n: nat) returns (k: nat)
    requires Tiles(fs, a, b) && a <= n < b
    ensures k < |fs| && Lo(fs[k]) <= n <= Hi(fs[k])
    ensures forall i :: 0 <= i < |fs| && Lo(fs[i]) <= n <= Hi(fs[i]) ==> i == k
    decreases |fs|
  {
    var m := |fs| - 1;
    TilesAscend(fs, a, b);
    if Lo(fs[m]) <= n {
      k := m;
    } else {
      var init := fs[..m];
      assert m > 0;
      k := TilesCover(init, a, Lo(fs[m]), n);
      assert forall i :: 0 <= i < m ==> init[i] == fs[i];
    }
  }

  lemma {:induction false} TilesAscend(fs: seq<Frame>, a: nat, b: nat)
    requires Tiles(fs, a, b)
    ensures forall i, j :: 0 <= i < j < |fs| ==> Hi(fs[i]) < Lo(fs[j])
    decreases |fs|
  {
    if |fs| > 1 {
      var m := |fs| - 1;
      var init := fs[..m];
      assert forall i :: 0 <= i < m ==> init[i] == fs[i];
      TilesAscend(init, a, Lo(fs[m]));
    }
  }

  /** How the marks move when ready is handed out on the way from s to t. */
  ghost predicate Tiled(s: State, ready: seq<Frame>, t: State) {
    && (ready == [] ==> t.lastLseq == s.lastLseq)
    && (ready != [] ==>
          && !t.WarmUp()
          && (if s.WarmUp() then Tiles(ready, Lo(ready[0]), t.lastLseq + 1)
              else Tiles(ready, s.lastLseq + 1, t.lastLseq + 1)))
  }

  lemma RunTile(run: seq<RtpFrame>)
    requires run != [] && Consecutive(run)
    ensures Tiles(Wrapped(run), run[0].lseq, run[|run| - 1].lseq + 1)
  {
  }

  lemma ErasureTile(s: State, fp: RtpFrame)
    requires s.WarmUp() || s.lastLseq < fp.lseq
    requires s.lastLseq <= LSEQ_NONE
    ensures Tiles(ErasureBefore(s, fp), Inc64(s.lastLseq), fp.lseq)
  {
  }

  /** An erasure, if one is needed, and a run tile the line from the last number handed out. */
  lemma ErasureRunTile(s: State, run: seq<RtpFrame>)
    requires run != [] && Consecutive(run)
    requires s.WarmUp() || s.lastLseq < run[0].lseq
    requires s.lastLseq <= LSEQ_NONE
    ensures Tiles(ErasureBefore(s, run[0]) + Wrapped(run), Inc64(s.lastLseq), run[|run| - 1].lseq + 1)
  {
    hide Tiles, ErasureBefore, Consecutive;
    RunTile(run);
    ErasureTile(s, run[0]);
    TilesConcat(ErasureBefore(s, run[0]), Wrapped(run), Inc64(s.lastLseq), run[0].lseq, run[|run| - 1].lseq + 1);
  }

  lemma HandOutTiled(s: State, run: seq<RtpFrame>, t: State)
    requires run != [] && Consecutive(run) && run[|run| - 1].lseq < LSEQ_NONE
    requires s.WarmUp() || s.lastLseq < run[0].lseq
    requires s.lastLseq <= LSEQ_NONE
    requires t.lastLseq == run[|run| - 1].lseq
    ensures Tiled(s, ErasureBefore(s, run[0]) + Wrapped(run), t)
    ensures s.WarmUp() ==> Tiled(s, [] + Wrapped(run), t)
  {
    hide Tiles, Consecutive, ErasureBefore, Lo, Wrapped;
    ErasureRunTile(s, run);
    TiledFrom(s, ErasureBefore(s, run[0]) + Wrapped(run), t);
    if s.WarmUp() {
      RunTile(run);
      assert [] + Wrapped(run) == Wrapped(run);
      TilesFirst(Wrapped(run), run[0].lseq, run[|run| - 1].lseq + 1);
    }
  }

  lemma TiledFrom(s: State, ready: seq<Frame>, t: State)
    requires ready != [] && t.lastLseq < LSEQ_NONE && s.lastLseq <= LSEQ_NONE
    requires Tiles(ready, Inc64(s.lastLseq), t.lastLseq + 1)
    ensures Tiled(s, ready, t)
  {
    hide Tiles, Lo;
    TilesFirst(ready, Inc64(s.lastLseq), t.lastLseq + 1);
  }

  lemma TilesFirst(fs: seq<Frame>, a: nat, b: nat)
    requires Tiles(fs, a, b) && fs != []
    ensures Lo(fs[0]) == a
  {
  }

  lemma ReleaseTiled(s: State)
    requires AlmostInv(s)
    ensures Tiled(s, Release(s).1, Release(s).0)
  {
    hide Sorted, FramesOk, Tiled, ErasureBefore, Consecutive, RunLength;
    var k := RunLength(s.frames);
    RunLengthRun(s.frames);
    FramesBelow(s.frames, s.mask, s.capacity);
    HandOutTiled(s, s.frames[..k], Release(s).0);
  }

  lemma SettleTiled(s: State, purged: seq<RtpFrame>)
    requires AlmostInv(s)
    ensures var o := Settle(s, purged); Tiled(s, o.ready, o.state)
  {
    hide Sorted, FramesOk, Release, Tiles;
    if MustRelease(s) {
      ReleaseTiled(s);
    }
  }

  lemma AdmitToEmptyTiled(s: State, fp: RtpFrame, purged: seq<RtpFrame>)
    requires fp.lseq < LSEQ_NONE
    ensures var o := AdmitToEmpty(s, fp, purged); Tiled(s, o.ready, o.state)
  {
  }

  lemma AdmitTiled(s: State, fp: RtpFrame, purged: seq<RtpFrame>)
    requires Inv(s) && Fresh(s, fp)
    ensures var o := Admit(s, fp, purged); Tiled(s, o.ready, o.state)
  {
    hide Sorted, FramesOk, Settle, Tiles, FitsAt, Spliced;
    InvMarks(s);
    if !s.WarmUp() && fp.lseq <= s.lastLseq {
    } else if s.frames == [] {
      AdmitToEmptyTiled(s, fp, purged);
    } else {
      var k := InsertPos(s.frames, fp.lseq);
      if !(k < |s.frames| && s.frames[k].lseq == fp.lseq) {
        InsertPosFits(s.frames, fp);
        InsertKeeps(s, fp, k);
        SettleTiled(Insert(s, fp, k), purged);
      }
    }
  }

  lemma UdpInTiled(s: State, d: Datagram)
    requires Inv(s) && Room(s) && !Underflow(s, d)
    ensures var o := UdpIn(s, d); Tiled(s, o.ready, o.state)
  {
    hide Inv, Parse, Admit, PurgeStaleTail, AdmitToEmpty, Tiles;
    PurgeKeeps(s);
    var (s1, purged) := PurgeStaleTail(s);
    if Parse(d.bytes).Parsed? {
      ParsedExtent(d.bytes);
      var info := Parse(d.bytes).info;
      if s1.lastMax == LSEQ_NONE {
        AdmitToEmptyTiled(s1, RtpFrame(info, s1.mask + info.seqno, 0, d), purged);
      } else {
        InvMarks(s1);
        UnwrapInEpoch(s1.mask, s1.lastMax, info.seqno);
        var (mask, lseq) := Unwrap(s1.mask, s1.lastMax, info.seqno);
        BumpedKeeps(s1, mask);
        InvMarks(Bumped(s1, mask));
        AdmitTiled(Bumped(s1, mask), RtpFrame(info, lseq, 0, d), purged);
      }
    }
  }

  lemma FlushTiled(s: State)
    requires Inv(s)
    ensures var o := Flush(s); Tiled(s, o.ready, o.state)
  {
    if s.frames == [] {
      TiledNothing(s);
    } else {
      hide FramesOk, Tiled, ErasureBefore, Consecutive, FlushSplit;
      InvMarks(s);
      FlushEmpties(s);
      var k := FlushSplitRun(s.frames, []);
      var run := s.frames[k..];
      assert s.frames[0].lseq <= run[0].lseq;
      HandOutTiled(s, run, Flush(s).state);
    }
  }

  lemma TiledNothing(s: State)
    ensures Tiled(s, [], s)
  {
  }

  lemma TiledConcat(s: State, r1: seq<Frame>, t: State, r2: seq<Frame>, u: State)
    requires Tiled(s, r1, t) && Tiled(t, r2, u)
    ensures Tiled(s, r1 + r2, u)
  {
    hide Tiles, Lo;
    if r1 == [] {
      assert r1 + r2 == r2;
    } else if r2 == [] {
      assert r1 + r2 == r1;
    } else {
      assert (r1 + r2)[0] == r1[0];
      TilesConcat(r1, r2, if s.WarmUp() then Lo(r1[0]) else s.lastLseq + 1, t.lastLseq + 1, u.lastLseq + 1);
    }
  }

  lemma StepTiled(s: State, op: Op)
    requires Inv(s) && StepOk(s, op)
    ensures var o := Step(s, op); Tiled(s, o.ready, o.state)
  {
    hide Inv, Tiled;
    match op
    case In(d) => UdpInTiled(s, d);
    case DoFlush => FlushTiled(s);
  }

  /** The ready lists of any run, put together, tile the line of numbers up to the last one handed out. */
  lemma {:induction false} RunTiles(s: State, ops: seq<Op>)
    requires Inv(s) && RunOk(s, ops)
    ensures var t := Run(s, ops); Tiled(s, t.ready, t.state)
    decreases |ops|
  {
    hide Inv, Step, StepOk, Tiled;
    if ops == [] {
      TiledNothing(s);
    } else {
      var o := Step(s, ops[0]);
      StepKeeps(s, ops[0]);
      StepTiled(s, ops[0]);
      RunTiles(o.state, ops[1..]);
      var rest := Run(o.state, ops[1..]);
      TiledConcat(s, o.ready, o.state, rest.ready, rest.state);
    }
  }

  // ----- conservation -----

  /** The datagrams held by a list of packets, counted. */
  function Held(fs: seq<RtpFrame>): multiset<Datagram> {
    if fs == [] then multiset{} else multiset{fs[0].data} + Held(fs[1..])
  }

  /** The datagrams carried by a ready list; erasures carry none. */
  function Carried(fs: seq<Frame>): multiset<Datagram> {
    if fs == [] then multiset{}
    else (if fs[0].Rtp? then multiset{fs[0].pkt.data} else multiset{}) + Carried(fs[1..])
  }

  /** The packets of a ready list, in order. */
  function RtpFrames(fs: seq<Frame>): seq<RtpFrame> {
    if fs == [] then [] else (if fs[0].Rtp? then [fs[0].pkt] else []) + RtpFrames(fs[1..])
  }

  lemma {:induction false} HeldConcat(fs: seq<RtpFrame>, gs: seq<RtpFrame>)
    ensures Held(fs + gs) == Held(fs) + Held(gs)
    decreases |fs|
  {
    if fs == [] {
      assert fs + gs == gs;
    } else {
      assert (fs + gs)[1..] == fs[1..] + gs;
      HeldConcat(fs[1..], gs);
    }
  }

  lemma HeldSplit(fs: seq<RtpFrame>, k: nat)
    requires k <= |fs|
    ensures Held(fs) == Held(fs[..k]) + Held(fs[k..])
  {
    assert fs == fs[..k] + fs[k..];
    HeldConcat(fs[..k], fs[k..]);
  }

  lemma HeldOne(f: RtpFrame)
    ensures Held([f]) == multiset{f.data}
  {
    assert [f][1..] == [];
  }

  lemma {:induction false} CarriedConcat(fs: seq<Frame>, gs: seq<Frame>)
    ensures Carried(fs + gs) == Carried(fs) + Carried(gs)
    decreases |fs|
  {
    if fs == [] {
      assert fs + gs == gs;
    } else {
      assert (fs + gs)[1..] == fs[1..] + gs;
      CarriedConcat(fs[1..], gs);
    }
  }

  lemma {:induction false} CarriedWrapped(run: seq<RtpFrame>)
    ensures Carried(Wrapped(run)) == Held(run)
    decreases |run|
  {
    if run != [] {
      assert Wrapped(run)[1..] == Wrapped(run[1..]);
      CarriedWrapped(run[1..]);
    }
  }

  lemma CarriedErasure(s: State, fp: RtpFrame, run: seq<RtpFrame>)
    ensures Carried(ErasureBefore(s, fp) + Wrapped(run)) == Held(run)
    ensures Carried([] + Wrapped(run)) == Held(run)
  {
    var e := ErasureBefore(s, fp);
    assert Carried(e) == multiset{} by {
      if e != [] {
        assert e[1..] == [];
      }
    }
    CarriedConcat(e, Wrapped(run));
    CarriedWrapped(run);
    assert [] + Wrapped(run) == Wrapped(run);
  }

  /** What goes in and what was held equals what is held, handed out and dropped. */
  ghost predicate Conserved(before: State, input: multiset<Datagram>, o: Outcome) {
    Held(before.frames) + input == Held(o.state.frames) + Carried(o.ready) + Held(o.drop)
  }

  lemma LastHeld(frames: seq<RtpFrame>, tail: RtpFrame)
    requires frames != [] && tail.data == frames[|frames| - 1].data
    ensures var n := |frames| - 1;
            Held(frames) == Held(frames[..n]) + Held([tail]) == Held(frames[..n] + [tail])
  {
    hide Held;
    var n := |frames| - 1;
    HeldSplit(frames, n);
    assert frames[n..] == [frames[n]];
    HeldOne(frames[n]);
    HeldOne(tail);
    HeldConcat(frames[..n], [tail]);
  }

  lemma PurgeConserves(s: State)
    ensures var (s1, purged) := PurgeStaleTail(s); Held(s.frames) == Held(s1.frames) + Held(purged)
  {
    hide Held;
    HeldNothing();
    if s.frames != [] {
      var n := |s.frames| - 1;
      LastHeld(s.frames, s.frames[n].(jbcnt := s.frames[n].jbcnt + 1));
    }
  }

  lemma HeldNothing()
    ensures Held([]) == multiset{} && Carried([]) == multiset{}
  {
  }

  lemma SplicedHeld(frames: seq<RtpFrame>, fp: RtpFrame, k: nat)
    requires k <= |frames|
    ensures Held(Spliced(frames, fp, k)) == Held(frames) + multiset{fp.data}
  {
    hide Held;
    HeldSplit(frames, k);
    HeldOne(fp);
    HeldConcat(frames[..k], [fp]);
    HeldConcat(frames[..k] + [fp], frames[k..]);
  }

  lemma ReleaseConserves(s: State)
    requires s.frames != []
    ensures Held(s.frames) == Held(Release(s).0.frames) + Carried(Release(s).1)
  {
    hide Held, Carried, ErasureBefore, RunLength;
    var k := RunLength(s.frames);
    HeldSplit(s.frames, k);
    CarriedErasure(s, s.frames[0], s.frames[..k]);
  }

  lemma DropHeld(fp: RtpFrame, purged: seq<RtpFrame>)
    ensures Held([fp] + purged) == multiset{fp.data} + Held(purged)
  {
    HeldOne(fp);
    HeldConcat([fp], purged);
  }

  lemma AdmitToEmptyConserves(s: State, fp: RtpFrame, purged: seq<RtpFrame>)
    requires s.frames == []
    ensures Conserved(s, multiset{fp.data} + Held(purged), AdmitToEmpty(s, fp, purged))
  {
    HeldOne(fp);
    CarriedWrapped([fp]);
    assert Wrapped([fp]) == [Rtp(fp)];
    hide Held, Carried;
    HeldNothing();
  }

  lemma AdmitConserves(s: State, fp: RtpFrame, purged: seq<RtpFrame>)
    ensures Conserved(s, multiset{fp.data} + Held(purged), Admit(s, fp, purged))
  {
    hide Held, Carried, Release, AdmitToEmpty, InsertPos, Spliced;
    HeldNothing();
    DropHeld(fp, purged);
    if !(!s.WarmUp() && fp.lseq <= s.lastLseq) {
      if s.frames == [] {
        AdmitToEmptyConserves(s, fp, purged);
      } else {
        var k := InsertPos(s.frames, fp.lseq);
        SplicedHeld(s.frames, fp, k);
        ReleaseConserves(Insert(s, fp, k));
      }
    }
  }

  /** The packet a call takes in, if it parses. */
  function Taken(op: Op): multiset<Datagram> {
    if op.In? && Parse(op.d.bytes).Parsed? then multiset{op.d} else multiset{}
  }

  lemma UdpInConserves(s: State, d: Datagram)
    requires s.lastMax == LSEQ_NONE ==> s.frames == []
    requires PurgeStaleTail(s).0.lastMax == LSEQ_NONE ==> PurgeStaleTail(s).0.frames == []
    ensures Conserved(s, Taken(In(d)), UdpIn(s, d))
  {
    hide Held, Carried, PurgeStaleTail, Parse, Admit, AdmitToEmpty, Unwrap;
    HeldNothing();
    PurgeConserves(s);
    var (s1, purged) := PurgeStaleTail(s);
    if Parse(d.bytes).Parsed? {
      var info := Parse(d.bytes).info;
      if s1.lastMax == LSEQ_NONE {
        AdmitToEmptyConserves(s1, RtpFrame(info, s1.mask + info.seqno, 0, d), purged);
      } else {
        var (mask, lseq) := Unwrap(s1.mask, s1.lastMax, info.seqno);
        AdmitConserves(Bumped(s1, mask), RtpFrame(info, lseq, 0, d), purged);
      }
    }
  }

  lemma {:induction false} FlushSplitConserves(frames: seq<RtpFrame>, dropped: seq<RtpFrame>)
    requires frames != []
    ensures var (run, drop) := FlushSplit(frames, dropped); Held(frames) + Held(dropped) == Held(run) + Held(drop)
    decreases |frames|
  {
    hide Held, RunLength;
    var k := RunLength(frames);
    if k != |frames| {
      HeldSplit(frames, k);
      HeldConcat(frames[..k], dropped);
      FlushSplitConserves(frames[k..], frames[..k] + dropped);
    }
  }

  lemma FlushConserves(s: State)
    ensures Conserved(s, multiset{}, Flush(s))
  {
    hide Held, Carried, FlushSplit, ErasureBefore;
    HeldNothing();
    if s.frames != [] {
      FlushSplitConserves(s.frames, []);
      var run := FlushSplit(s.frames, []).0;
      CarriedErasure(s, run[0], run);
    }
  }

  lemma StepConserves(s: State, op: Op)
    requires Inv(s)
    ensures Conserved(s, Taken(op), Step(s, op))
  {
    hide Inv, Conserved, PurgeStaleTail, UdpIn, Flush;
    match op
    case In(d) =>
      InvMarks(s);
      PurgeKeeps(s);
      InvMarks(PurgeStaleTail(s).0);
      UdpInConserves(s, d);
    case DoFlush =>
      FlushConserves(s);
  }

  lemma Chain<T>(a: multiset<T>, i: multiset<T>, b: multiset<T>, r: multiset<T>, d: multiset<T>,
                 j: multiset<T>, c: multiset<T>, r': multiset<T>, d': multiset<T>)
    requires a + i == b + r + d && b + j == c + r' + d'
    ensures a + (i + j) == c + (r + r') + (d + d')
  {
    assert a + (i + j) == (a + i) + j;
    assert b + r + d + j == (b + j) + (r + d);
  }

  function TakenAll(ops: seq<Op>): multiset<Datagram> {
    if ops == [] then multiset{} else Taken(ops[0]) + TakenAll(ops[1..])
  }

  /** Over any run each parsed packet is in exactly one place: still buffered, handed out, or dropped. */
  lemma {:induction false} RunConserves(s: State, ops: seq<Op>)
    requires Inv(s) && RunOk(s, ops)
    ensures var t := Run(s, ops);
            Held(s.frames) + TakenAll(ops) == Held(t.state.frames) + Carried(t.ready) + Held(t.drop)
    decreases |ops|
  {
    hide Inv, Step, StepOk, Taken, Held, Carried;
    HeldNothing();
    if ops != [] {
      var o := Step(s, ops[0]);
      StepKeeps(s, ops[0]);
      StepConserves(s, ops[0]);
      RunConserves(o.state, ops[1..]);
      var rest := Run(o.state, ops[1..]);
      CarriedConcat(o.ready, rest.ready);
      HeldConcat(o.drop, rest.drop);
      Chain(Held(s.frames), Taken(ops[0]), Held(o.state.frames), Carried(o.ready), Held(o.drop),
            TakenAll(ops[1..]), Held(rest.state.frames), Carried(rest.ready), Held(rest.drop));
    }
  }

  // ----- flush -----

  lemma Cancel<T>(a: multiset<T>, b: multiset<T>, c: multiset<T>)
    requires a + b == c + a
    ensures b == c
  {
    assert b == (a + b) - a && c == (c + a) - a;
  }

  lemma SplitDrops(frames: seq<RtpFrame>, k: nat)
    requires frames != [] && k <= |frames| && FlushSplit(frames, []).0 == frames[k..]
    ensures Held(FlushSplit(frames, []).1) == Held(frames[..k])
  {
    hide Held, FlushSplit;
    FlushSplitConserves(frames, []);
    HeldNothing();
    HeldSplit(frames, k);
    Cancel(Held(frames[k..]), Held(FlushSplit(frames, []).1), Held(frames[..k]));
  }

  /** The frames before the last run, the latest run first. */
  function RunsBackwards(frames: seq<RtpFrame>): seq<RtpFrame>
    decreases |frames|
  {
    var k := RunLength(frames);
    if k == |frames| then [] else RunsBackwards(frames[k..]) + frames[..k]
  }

  lemma {:induction false} SplitOrder(frames: seq<RtpFrame>, dropped: seq<RtpFrame>)
    requires frames != []
    ensures FlushSplit(frames, dropped).1 == RunsBackwards(frames) + dropped
    decreases |frames|
  {
    hide RunLength;
    var k := RunLength(frames);
    if k != |frames| {
      SplitOrder(frames[k..], frames[..k] + dropped);
      Assoc(RunsBackwards(frames[k..]), frames[..k], dropped);
    } else {
      assert [] + dropped == dropped;
    }
  }

  /** Flush hands out the longest consecutive suffix of the buffer, drops exactly the frames before it, and empties it. */
  lemma FlushReturnsSuffix(s: State) returns (k: nat)
    requires Inv(s) && s.frames != []
    ensures k < |s.frames| && Consecutive(s.frames[k..])
    ensures k > 0 ==> s.frames[k - 1].lseq + 1 != s.frames[k].lseq
    ensures Flush(s).state.frames == [] && Flush(s).state.size == 0
    ensures Flush(s).ready == ErasureBefore(s, s.frames[k]) + Wrapped(s.frames[k..])
    ensures Held(Flush(s).drop) == Held(s.frames[..k]) && Flush(s).drop == RunsBackwards(s.frames)
  {
    SplitOrder(s.frames, []);
    assert RunsBackwards(s.frames) + [] == RunsBackwards(s.frames);
    hide Inv, Consecutive, Held, FlushSplit, ErasureBefore, RunsBackwards;
    k := FlushSplitRun(s.frames, []);
    SplitDrops(s.frames, k);
  }
}
