/**
 What a successful close means (python/RtpProc_mod.c:1128-1199). A close whose command was answered is final. One that
 was refused, because shutdown had been requested, is reported as a success as well: the channel is not removed, and
 its callback may be called again. The exact condition is given, and a run in which it happens.
 */
module ProcClose {
  import opened Common
  import opened ProcSystem
  import CP = CommandProtocol
  import PR = ProcRuns

  /** The callback of a channel is not called any more, whatever happens. */
  ghost predicate Final(s: State, id: nat) {
    forall after, j ::
      AllowedRun(s, after) && |s.m.log| <= j < |Run(s, after).m.log| && Run(s, after).m.log[j].id == id ==>
        Run(s, after).m.log[j].Removed?
  }

  /** close reported success: its command was answered, or it was refused because shutdown had been requested. */
  predicate CloseSucceeded(pc: CP.Client, id: nat) {
    || (pc.Answered? && pc.cmd.kind == CP.RemoveChannel(id) && pc.status == 0)
    || pc == CP.Refused(CP.RemoveChannel(id))
  }

  /** A command that keeps a channel from running once the detached commands are done. */
  predicate Stops(kind: CP.Kind, id: nat) {
    kind == CP.Shutdown || kind == CP.RemoveChannel(id)
  }

  /** The worker is not yet past its due channels, the channel has a deadline, and nothing detached takes it away. */
  predicate MayRunAgain(s: State, id: nat) {
    && s.phase != Between && !s.p.shutdownSeen
    && Scheduled(s.m, id)
    && forall i :: 0 <= i < |s.p.detached| ==> !Stops(s.p.detached[i].kind, id)
  }

  /** Shutdown was requested and the channel, which exists, will not run again. */
  ghost predicate Settled(s: State, id: nat) {
    s.p.shutdownQueued && Known(s.m, id) && !MayRunAgain(s, id)
  }

  /** The shutdown command is the last one on its way, so that detaching the queue takes it along. */
  lemma ShutdownOnItsWay(p: CP.State)
    requires CP.Inv(p) && p.shutdownQueued && !p.shutdownSeen
    ensures CP.Live(p) != [] && CP.Live(p)[|CP.Live(p)| - 1].kind == CP.Shutdown
  {
    hide CP.Holding;
    var live := CP.Live(p);
    assert p.accepted[|p.accepted| - 1] == live[|live| - 1];
  }

  lemma NotExited(p: CP.State)
    requires CP.Inv(p) && !p.shutdownSeen
    ensures !p.exited
  {
  }

  lemma DetachSettles(s: State, id: nat)
    requires Inv(s) && InStep(s) && Settled(s, id) && s.phase == Between
    ensures Settled(Next(s, Detach), id) && NoCall(s, Next(s, Detach), id)
  {
    var t := Next(s, Detach);
    if !s.p.shutdownSeen {
      ShutdownOnItsWay(s.p);
      NotExited(s.p);
      assert CP.Live(s.p) == s.p.queue;
    }
    hide Known, Inv;
    if !s.p.shutdownSeen {
      assert t.p.detached[|t.p.detached| - 1].kind == CP.Shutdown;
    }
  }

  /** An identifier on its way to be added is not that of an existing channel. */
  lemma NewIsOther(s: State, id: nat)
    requires Inv(s) && s.p.detached != [] && Known(s.m, id)
    ensures s.p.detached[0].kind != CP.AddChannel(id)
  {
    hide CP.Inv, GoodMachine, Known, ClientsSound, IdsBelow, AllWitnessed;
    CP.LiveHead(s.p);
    assert Sound(s, CP.Live(s.p)[0].kind);
  }

  /** The event a move adds to the log, if any. */
  ghost predicate NoCall(s: State, t: State, id: nat) {
    && s.m.log <= t.m.log
    && forall j :: |s.m.log| <= j < |t.m.log| && t.m.log[j].id == id ==> t.m.log[j].Removed?
  }

  /** What processing does to the channels: another one may be added, or one taken away. */
  lemma ProcessChannels(s: State, id: nat, now: nat, result: PR.CbResult, hasSlot: bool)
    requires s.p.detached != [] && s.p.detached[0].kind != CP.AddChannel(id)
    ensures var t := Next(s, ProcessOne(now, result, hasSlot));
            NoCall(s, t, id) && (Scheduled(t.m, id) ==> Scheduled(s.m, id) && s.p.detached[0].kind != CP.RemoveChannel(id))
  {
    hide CP.Apply;
  }

  lemma ProcessSettles(s: State, id: nat, now: nat, result: PR.CbResult, hasSlot: bool)
    requires Inv(s) && InStep(s) && Settled(s, id) && s.p.detached != []
    ensures var t := Next(s, ProcessOne(now, result, hasSlot)); Settled(t, id) && NoCall(s, t, id)
  {
    NewIsOther(s, id);
    hide Inv, Known, Next, Scheduled;
    var t := Next(s, ProcessOne(now, result, hasSlot));
    ProcessChannels(s, id, now, result, hasSlot);
    ProcessPhase(s, now, result, hasSlot);
    KnownGrows(s.m, t.m, id);
    if MayRunAgain(t, id) {
      assert !Stops(s.p.detached[0].kind, id);
      forall i | 0 <= i < |s.p.detached|
        ensures !Stops(s.p.detached[i].kind, id)
      {
        assert i > 0 ==> s.p.detached[i] == t.p.detached[i - 1];
      }
    }
  }

  lemma KnownGrows(m: PR.Machine, n: PR.Machine, id: nat)
    requires Known(m, id) && m.log <= n.log
    ensures Known(n, id)
  {
    var i := PR.LastEvent(m.log, id).value;
    assert n.log[i].id == id;
  }

  /** A move that leaves the worker, its detached commands and the channels as they are. */
  lemma InertSettles(s: State, t: State, id: nat)
    requires Settled(s, id) && t.m == s.m && t.phase == s.phase && t.p.detached == s.p.detached
    requires t.p.shutdownSeen == s.p.shutdownSeen && t.p.shutdownQueued
    ensures Settled(t, id) && NoCall(s, t, id)
  {
    hide Known;
  }

  lemma ClientSettles(s: State, t: State, a: CP.Action, id: nat)
    requires Inv(s) && Settled(s, id)
    requires a.Acquire? || a.Reset? || a.Enqueue? || a.ReadStatus? || a.Release? || a.RequestShutdown? || a.EnqueueAsync?
    requires t == s.(p := CP.Apply(s.p, a), nextId := t.nextId)
    ensures Settled(t, id) && NoCall(s, t, id)
  {
    AcceptingIff(s.p);
    hide CP.Apply, Inv, Known;
    WorkerUntouched(s.p, a);
    InertSettles(s, t, id);
  }

  lemma RunDueSettles(s: State, id: nat, x: nat, now: nat, result: PR.CbResult)
    requires InStep(s) && Settled(s, id) && Allowed(s, RunDue(x, now, result))
    ensures var t := Next(s, RunDue(x, now, result)); Settled(t, id) && NoCall(s, t, id)
  {
    var t := Next(s, RunDue(x, now, result));
    assert x != id;
    KnownGrows(s.m, t.m, id);
    hide Known;
  }

  /** Once settled, a channel stays so and is not called. */
  lemma NextSettled(s: State, v: Move, id: nat)
    requires Inv(s) && InStep(s) && Settled(s, id) && Allowed(s, v)
    ensures Settled(Next(s, v), id) && NoCall(s, Next(s, v), id)
  {
    hide Inv, InStep, Settled, CP.Apply, PR.Next, Known, NoCall, Process;
    var t := Next(s, v);
    match v
    case Create(c) => ClientSettles(s, t, CP.Acquire(c, CP.AddChannel(s.nextId)), id);
    case Close(c, x) => ClientSettles(s, t, CP.Acquire(c, CP.RemoveChannel(x)), id);
    case Discard(x) => ClientSettles(s, t, CP.EnqueueAsync(CP.RemoveChannel(x)), id);
    case Other(a) => ClientSettles(s, t, a, id);
    case Detach => DetachSettles(s, id);
    case ProcessOne(now, result, hasSlot) => ProcessSettles(s, id, now, result, hasSlot);
    case RunDue(x, now, result) => RunDueSettles(s, id, x, now, result);
    case EndDue(now) => EndDueSettles(s, id, now);
    case Exit => ExitSettles(s, id);
  }

  lemma EndDueSettles(s: State, id: nat, now: nat)
    requires Settled(s, id)
    ensures var t := Next(s, EndDue(now)); Settled(t, id) && NoCall(s, t, id)
  {
    hide Known;
  }

  lemma ExitSettles(s: State, id: nat)
    requires Inv(s) && InStep(s) && Settled(s, id) && s.phase == Handling && s.p.detached == []
    ensures Settled(Next(s, Exit), id) && NoCall(s, Next(s, Exit), id)
  {
    hide Inv, Known;
    assert Next(s, Exit).m.log == s.m.log;
    KnownSame(s.m, Next(s, Exit).m, id);
  }

  lemma KnownSame(m: PR.Machine, n: PR.Machine, id: nat)
    requires Known(m, id) && n.log == m.log
    ensures Known(n, id)
  {
  }

  lemma {:induction false} RunSettled(s: State, moves: seq<Move>, id: nat)
    requires Inv(s) && InStep(s) && Settled(s, id) && AllowedRun(s, moves)
    ensures NoCall(s, Run(s, moves), id)
    decreases |moves|
  {
    hide Inv, InStep, Settled, Next, Allowed;
    if moves != [] {
      var t := Next(s, moves[0]);
      NextKeeps(s, moves[0]);
      NextInStep(s, moves[0]);
      NextSettled(s, moves[0], id);
      RunSettled(t, moves[1..], id);
    }
  }

  // ----- a channel that does run again -----

  /** The channels with a deadline. */
  function Waiting(m: PR.Machine): set<nat> {
    set id | id in m.chans && m.chans[id].Some?
  }

  /** Among channels with a deadline one is due before the others. */
  lemma {:induction false} EarliestOf(m: PR.Machine, ids: set<nat>) returns (id: nat)
    requires ids != {} && ids <= Waiting(m)
    ensures id in ids && forall other :: other in ids ==> m.chans[id].value <= m.chans[other].value
    decreases |ids|
  {
    var some :| some in ids;
    var rest := ids - {some};
    id := some;
    if rest != {} {
      var first := EarliestOf(m, rest);
      id := if m.chans[first].value < m.chans[some].value then first else some;
    }
    forall other | other in ids
      ensures m.chans[id].value <= m.chans[other].value
    {
      assert other == some || other in rest;
    }
  }

  lemma DueNow(s: State, id: nat, now: nat)
    requires id in Waiting(s.m) && now >= s.m.chans[id].value
    requires forall other :: other in Waiting(s.m) ==> s.m.chans[id].value <= s.m.chans[other].value
    ensures PR.Enabled(s.m, PR.RunDue(id, now, PR.Finished))
  {
    forall other | other in s.m.chans && s.m.chans[other].Some?
      ensures s.m.chans[id].value <= s.m.chans[other].value
    {
      assert other in Waiting(s.m);
    }
  }

  /** The log of t has a call of the channel that s had not seen. */
  ghost predicate CalledSince(s: State, t: State, id: nat) {
    s.m.log <= t.m.log && exists j :: |s.m.log| <= j < |t.m.log| && t.m.log[j].Called? && t.m.log[j].id == id
  }

  lemma CalledLater(s: State, v: Move, t: State, id: nat)
    requires CalledSince(Next(s, v), t, id)
    ensures CalledSince(s, t, id)
  {
    LogGrows(s, v);
  }

  lemma FirstMove(s: State, v: Move, rest: seq<Move>)
    requires Allowed(s, v) && AllowedRun(Next(s, v), rest)
    ensures AllowedRun(s, [v] + rest) && Run(s, [v] + rest) == Run(Next(s, v), rest)
  {
    hide Next, Allowed;
    assert ([v] + rest)[1..] == rest;
  }

  /** From its due channels on, the worker can get to any that has a deadline, by running those that come before it. */
  lemma {:induction false} RunUpTo(s: State, id: nat) returns (moves: seq<Move>)
    requires s.phase == Running && Scheduled(s.m, id)
    ensures AllowedRun(s, moves) && CalledSince(s, Run(s, moves), id)
    decreases |Waiting(s.m)|
  {
    assert id in Waiting(s.m);
    var first := EarliestOf(s.m, Waiting(s.m));
    var due := s.m.chans[first].value;
    var now := if due < s.clock then s.clock else due;
    DueNow(s, first, now);
    var v := RunDue(first, now, PR.Finished);
    var t := Next(s, v);
    assert t.m.log == s.m.log + [PR.Called(first, now, due, PR.Finished)];
    var rest: seq<Move>;
    if first == id {
      rest := [];
      assert t.m.log[|s.m.log|].id == id;
    } else {
      RunShrinks(s, first, now);
      rest := RunUpTo(t, id);
      CalledLater(s, v, Run(t, rest), id);
    }
    FirstMove(s, v, rest);
    moves := [v] + rest;
  }

  lemma RunShrinks(s: State, first: nat, now: nat)
    requires first in Waiting(s.m)
    ensures var m := Next(s, RunDue(first, now, PR.Finished)).m;
            |Waiting(m)| < |Waiting(s.m)| && forall id :: id != first && Scheduled(s.m, id) ==> Scheduled(m, id)
  {
    var m := Next(s, RunDue(first, now, PR.Finished)).m;
    assert Waiting(m) == Waiting(s.m) - {first};
  }

  /** Whatever is detached first, unless it stops the channel, is done and leaves the channel its deadline. */
  lemma {:induction false} DrainUpTo(s: State, id: nat) returns (moves: seq<Move>)
    requires InStep(s) && MayRunAgain(s, id)
    ensures AllowedRun(s, moves) && CalledSince(s, Run(s, moves), id)
    decreases |s.p.detached|
  {
    if s.p.detached == [] {
      moves := RunUpTo(s, id);
    } else {
      var v := ProcessOne(s.clock, PR.Finished, false);
      DrainStep(s, id);
      var t := Next(s, v);
      var rest := DrainUpTo(t, id);
      CalledLater(s, v, Run(t, rest), id);
      FirstMove(s, v, rest);
      moves := [v] + rest;
    }
  }

  lemma DrainStep(s: State, id: nat)
    requires InStep(s) && MayRunAgain(s, id) && s.p.detached != []
    ensures var t := Next(s, ProcessOne(s.clock, PR.Finished, false));
            InStep(t) && MayRunAgain(t, id) && |t.p.detached| == |s.p.detached| - 1
  {
    var t := Next(s, ProcessOne(s.clock, PR.Finished, false));
    assert !Stops(s.p.detached[0].kind, id);
    DrainKeepsDeadline(s, id);
    hide Next, Scheduled;
    ProcessPhase(s, s.clock, PR.Finished, false);
    assert forall i :: 0 <= i < |t.p.detached| ==> t.p.detached[i] == s.p.detached[i + 1];
  }

  lemma DrainKeepsDeadline(s: State, id: nat)
    requires s.p.detached != [] && Scheduled(s.m, id) && s.p.detached[0].kind != CP.RemoveChannel(id)
    ensures Scheduled(Next(s, ProcessOne(s.clock, PR.Finished, false)).m, id)
  {
    hide CP.Apply;
  }

  // ----- what success means -----

  /** A removal that was answered took the channel away. */
  lemma AnsweredGone(s: State, c: nat, id: nat)
    requires Inv(s) && c < |s.p.clients|
    requires s.p.clients[c].Answered? && s.p.clients[c].cmd.kind == CP.RemoveChannel(id)
    ensures exists i :: 0 <= i < |s.m.log| && s.m.log[i] == PR.Removed(id)
    ensures !Scheduled(s.m, id)
  {
    hide PR.GoodLog;
    CP.HolderAnswered(s.p, c);
    assert Witnessed(s.m.log, CP.Done(s.p.clients[c].cmd, s.p.clients[c].status));
    var i :| 0 <= i < |s.m.log| && s.m.log[i] == PR.Removed(id);
    if Scheduled(s.m, id) {
      NotAfterRemoval(s.m, i, id);
    }
  }

  /** The latest event of a channel that has a deadline is a call; none comes after a removal. */
  lemma NotAfterRemoval(m: PR.Machine, i: nat, id: nat)
    requires GoodMachine(m) && i < |m.log| && m.log[i] == PR.Removed(id)
    ensures id !in m.chans
  {
    if id in m.chans {
      var last := PR.LastEvent(m.log, id).value;
      assert m.log[last].Called?;
      PR.NeverAgain(m.log, i, last);
    }
  }

  /** Once close was answered, the callback is never called again. */
  lemma CloseIsFinal(s: State, c: nat, id: nat)
    requires Inv(s) && InStep(s) && c < |s.p.clients|
    requires s.p.clients[c].Answered? && s.p.clients[c].cmd.kind == CP.RemoveChannel(id)
    ensures Final(s, id)
  {
    AnsweredGone(s, c, id);
    var i :| 0 <= i < |s.m.log| && s.m.log[i] == PR.Removed(id);
    forall after, j |
      AllowedRun(s, after) && |s.m.log| <= j < |Run(s, after).m.log| && Run(s, after).m.log[j].id == id
      ensures Run(s, after).m.log[j].Removed?
    {
      hide Run, AllowedRun, PR.Remembers, PR.GoodLog;
      RunKeeps(s, after);
      assert Run(s, after).m.log[i] == s.m.log[i];
      PR.NeverAgain(Run(s, after).m.log, i, j);
    }
  }

  lemma RefusedKnown(s: State, c: nat, id: nat)
    requires Inv(s) && InStep(s) && c < |s.p.clients| && s.p.clients[c] == CP.Refused(CP.RemoveChannel(id))
    ensures s.p.shutdownQueued && Known(s.m, id)
  {
    hide CP.Inv, GoodMachine, Known, LiveSound, IdsBelow, AllWitnessed;
    assert Intent(s.p.clients[c]) == Some(CP.RemoveChannel(id));
    assert Sound(s, CP.RemoveChannel(id));
  }

  lemma SettledIsFinal(s: State, id: nat)
    requires Inv(s) && InStep(s) && Settled(s, id)
    ensures Final(s, id)
  {
    hide Inv, InStep, Settled, Run, AllowedRun;
    forall after, j |
      AllowedRun(s, after) && |s.m.log| <= j < |Run(s, after).m.log| && Run(s, after).m.log[j].id == id
      ensures Run(s, after).m.log[j].Removed?
    {
      RunSettled(s, after, id);
    }
  }

  /** In every reachable state: after a close that reported success, the callback is never called again if and only if the
      worker is past its due channels, or the channel has no deadline, or a detached command takes it away. */
  lemma CloseFinalIff(clients: nat, before: seq<Move>, c: nat, id: nat)
    requires AllowedRun(Start(clients), before)
    requires var s := Run(Start(clients), before); c < |s.p.clients| && CloseSucceeded(s.p.clients[c], id)
    ensures var s := Run(Start(clients), before); Final(s, id) <==> !MayRunAgain(s, id)
  {
    hide Run, AllowedRun, Inv, InStep, Final, Known;
    StartInv(clients);
    RunKeeps(Start(clients), before);
    var s := Run(Start(clients), before);
    if s.p.clients[c].Answered? {
      CloseIsFinal(s, c, id);
      AnsweredGone(s, c, id);
    } else if MayRunAgain(s, id) {
      var after := DrainUpTo(s, id);
      CalledNotFinal(s, after, id);
    } else {
      RefusedKnown(s, c, id);
      SettledIsFinal(s, id);
    }
  }

  lemma CalledNotFinal(s: State, after: seq<Move>, id: nat)
    requires AllowedRun(s, after) && CalledSince(s, Run(s, after), id)
    ensures !Final(s, id)
  {
    hide Run, AllowedRun;
    var log := Run(s, after).m.log;
    var j :| |s.m.log| <= j < |log| && log[j].Called? && log[j].id == id;
  }

  // ----- a close that is not final -----

  const ADD := CP.Command(0, CP.AddChannel(1), Some(0))
  const SHUTDOWN := CP.Command(1, CP.Shutdown, None)
  const FIRST_CALL := PR.Called(1, 5, 0, PR.NextAt(7))

  /** One client sends a command to create a channel. */
  function Sending(): seq<Move> {
    [Create(0), Other(CP.Reset(0)), Other(CP.Enqueue(0)), Detach]
  }

  function Sent(): State {
    State(
      CP.State([], [ADD], true, false, true, false, 0, false, false, [CP.Waiting(ADD)], [ADD], [], []),
      PR.START, 2, Handling, 0)
  }

  /** The worker adds the channel, whose callback, called at 5, asks for 7; the client is answered. */
  function Creating(): seq<Move> {
    [ProcessOne(5, PR.NextAt(7), true), Other(CP.ReadStatus(0)), Other(CP.Release(0))]
  }

  function Created(): State {
    State(
      CP.State([], [], true, false, false, true, 0, false, false, [CP.Idle], [ADD], [CP.Done(ADD, 0)], []),
      PR.Machine(map[1 := Some(7)], [FIRST_CALL]), 2, Running, 5)
  }

  /** Another thread requests shutdown; the first then closes its channel and is refused. */
  function Closing(): seq<Move> {
    [Other(CP.RequestShutdown), Close(0, 1), Other(CP.Reset(0)), Other(CP.Enqueue(0))]
  }

  function ClosedTooLate(): State {
    State(
      CP.State([SHUTDOWN], [], false, true, true, false, 0, false, false, [CP.Refused(CP.RemoveChannel(1))],
               [ADD, SHUTDOWN], [CP.Done(ADD, 0)], []),
      PR.Machine(map[1 := Some(7)], [FIRST_CALL]), 2, Running, 5)
  }

  /** The run of a non-empty list of moves, one move at a time. */
  lemma RunFrom(s: State, v: Move, t: State, moves: seq<Move>)
    requires moves != [] && moves[0] == v && Allowed(s, v) && Next(s, v) == t && AllowedRun(t, moves[1..])
    ensures AllowedRun(s, moves) && Run(s, moves) == Run(t, moves[1..])
  {
    hide Next, Allowed;
  }

  lemma SendingRuns()
    ensures AllowedRun(Start(1), Sending()) && Run(Start(1), Sending()) == Sent()
  {
    var ms := Sending();
    var s0 := Start(1);
    var s1 := Next(s0, ms[0]);
    var s2 := Next(s1, ms[1]);
    var s3 := Next(s2, ms[2]);
    assert s3.p == CP.Start(1).(busy := true, queue := [ADD], accepted := [ADD], clients := [CP.Waiting(ADD)]);
    var s4 := Next(s3, ms[3]);
    assert s4 == Sent();
    hide Next;
    assert AllowedRun(s4, ms[4..]);
    RunFrom(s3, ms[3], s4, ms[3..]);
    RunFrom(s2, ms[2], s3, ms[2..]);
    RunFrom(s1, ms[1], s2, ms[1..]);
    RunFrom(s0, ms[0], s1, ms);
  }

  lemma CreatingRuns()
    ensures AllowedRun(Sent(), Creating()) && Run(Sent(), Creating()) == Created()
  {
    var ms := Creating();
    var s0 := Sent();
    var s1 := Next(s0, ms[0]);
    assert s1.p == s0.p.(detached := [], processed := [CP.Done(ADD, 0)], done := true);
    assert s1.m == Created().m;
    var s2 := Next(s1, ms[1]);
    var s3 := Next(s2, ms[2]);
    assert s3 == Created();
    hide Next;
    assert AllowedRun(s3, ms[3..]);
    RunFrom(s2, ms[2], s3, ms[2..]);
    RunFrom(s1, ms[1], s2, ms[1..]);
    RunFrom(s0, ms[0], s1, ms);
  }

  lemma ClosingRuns()
    ensures AllowedRun(Created(), Closing()) && Run(Created(), Closing()) == ClosedTooLate()
  {
    var ms := Closing();
    var s0 := Created();
    assert s0.m.log[0].id == 1;
    var s1 := Next(s0, ms[0]);
    assert s1.p.queue == [SHUTDOWN] && s1.p.accepted == [ADD, SHUTDOWN];
    var s2 := Next(s1, ms[1]);
    var s3 := Next(s2, ms[2]);
    var s4 := Next(s3, ms[3]);
    assert s4 == ClosedTooLate();
    hide Next;
    assert AllowedRun(s4, ms[4..]);
    RunFrom(s3, ms[3], s4, ms[3..]);
    RunFrom(s2, ms[2], s3, ms[2..]);
    RunFrom(s1, ms[1], s2, ms[1..]);
    RunFrom(s0, ms[0], s1, ms);
  }

  /** A close that reported success is followed by a call: refused after shutdown was requested, the channel is still due. */
  lemma RefusedCloseRunsAgain()
    ensures var before := Sending() + Creating() + Closing();
            var again := [RunDue(1, 9, PR.Finished)];
            && AllowedRun(Start(1), before)
            && var s := Run(Start(1), before);
               && |s.p.clients| == 1 && CloseSucceeded(s.p.clients[0], 1) && AllowedRun(s, again)
               && s.m.log == [FIRST_CALL] && Run(s, again).m.log == [FIRST_CALL, PR.Called(1, 9, 7, PR.Finished)]
  {
    SendingRuns();
    CreatingRuns();
    ClosingRuns();
    hide Run, AllowedRun, Sending, Creating, Closing;
    RunConcat(Start(1), Sending(), Creating());
    RunConcat(Start(1), Sending() + Creating(), Closing());
    LastCall();
  }

  lemma LastCall()
    ensures var s := ClosedTooLate();
            var again := [RunDue(1, 9, PR.Finished)];
            AllowedRun(s, again) && Run(s, again).m.log == [FIRST_CALL, PR.Called(1, 9, 7, PR.Finished)]
  {
    var s := ClosedTooLate();
    var v := RunDue(1, 9, PR.Finished);
    assert Allowed(s, v);
    assert Next(s, v).m.log == [FIRST_CALL, PR.Called(1, 9, 7, PR.Finished)];
    hide Next, Allowed;
    assert AllowedRun(Next(s, v), [v][1..]);
    RunFrom(s, v, Next(s, v), [v]);
  }
}
