/**
 What the status of a completed command tells (python/RtpProc_mod.c:726-790): an add succeeds exactly if its channel
 gets its initial call, now and for ever after, and fails only for lack of memory; removals and shutdown always succeed.
 */
module ProcStatus {
  import opened Common
  import opened ProcSystem
  import CP = CommandProtocol
  import PR = ProcRuns

  /** An identifier that was tried once is not on its way again. */
  ghost predicate Spent(s: State, id: nat) {
    && id < s.nextId
    && (forall i :: 0 <= i < |CP.Live(s.p)| ==> CP.Live(s.p)[i].kind != CP.AddChannel(id))
    && (forall c :: 0 <= c < |s.p.clients| ==> Intent(s.p.clients[c]) != Some(CP.AddChannel(id)))
  }

  /** Every add that was completed is spent, and one that failed left no event. */
  ghost predicate AddsSpent(s: State) {
    forall d :: d in s.p.processed && d.cmd.kind.AddChannel? ==>
      Spent(s, d.cmd.kind.id) && (d.status != 0 ==> !Known(s.m, d.cmd.kind.id))
  }

  // ----- identifiers stay spent -----

  /** A client's action brings no identifier on its way but one that the client had, or a new one. */
  lemma ClientSpends(s: State, t: State, a: CP.Action, id: nat)
    requires Spent(s, id) && t == s.(p := CP.Apply(s.p, a), nextId := t.nextId) && t.nextId >= s.nextId
    requires a.Acquire? || a.Reset? || a.Enqueue? || a.ReadStatus? || a.Release?
    requires a.Acquire? ==> a.kind != CP.AddChannel(id)
    ensures Spent(t, id)
  {
    if a.c < |s.p.clients| {
      IntentFrom(s.p, a);
      LiveFrom(s.p, a);
      hide CP.Apply, CP.Live;
      forall c | 0 <= c < |t.p.clients|
        ensures Intent(t.p.clients[c]) != Some(CP.AddChannel(id))
      {
      }
    }
  }

  lemma IntentFrom(p: CP.State, a: CP.Action)
    requires a.Acquire? || a.Reset? || a.Enqueue? || a.ReadStatus? || a.Release?
    requires a.c < |p.clients|
    ensures var q := CP.Apply(p, a);
            && |q.clients| == |p.clients|
            && forall c :: 0 <= c < |p.clients| ==>
                 || Intent(q.clients[c]).None?
                 || Intent(q.clients[c]) == Intent(p.clients[c])
                 || (a.Acquire? && Intent(q.clients[c]) == Some(a.kind))
  {
  }

  /** Commands join the queue only from a client's intent. */
  lemma LiveFrom(p: CP.State, a: CP.Action)
    requires a.Acquire? || a.Reset? || a.Enqueue? || a.ReadStatus? || a.Release?
    requires a.c < |p.clients|
    ensures var live, more := CP.Live(p), CP.Live(CP.Apply(p, a));
            || more == live
            || (Intent(p.clients[a.c]).Some? && |more| == |live| + 1 && more[..|live|] == live &&
                more[|live|].kind == Intent(p.clients[a.c]).value)
  {
    if a.Enqueue? && p.clients[a.c].Prepared? && p.accepting {
      var kind := p.clients[a.c].kind;
      PushLive(p, kind, Some(a.c));
      assert CP.Live(CP.Apply(p, a)) == CP.Live(CP.Push(p, kind, Some(a.c)));
    } else {
      assert CP.Live(CP.Apply(p, a)) == CP.Live(p);
    }
  }

  /** The same on the client's side, and on its way only what was, or something that is no add. */
  lemma OthersSpend(s: State, t: State, id: nat)
    requires Spent(s, id) && t.nextId >= s.nextId && t.p.clients == s.p.clients
    requires forall i :: 0 <= i < |CP.Live(t.p)| ==> CP.Live(t.p)[i] in CP.Live(s.p) || !CP.Live(t.p)[i].kind.AddChannel?
    ensures Spent(t, id)
  {
    hide CP.Live;
    forall i | 0 <= i < |CP.Live(t.p)|
      ensures CP.Live(t.p)[i].kind != CP.AddChannel(id)
    {
      if CP.Live(t.p)[i] in CP.Live(s.p) {
        var j :| 0 <= j < |CP.Live(s.p)| && CP.Live(s.p)[j] == CP.Live(t.p)[i];
      }
    }
  }

  lemma QueueSpends(s: State, a: CP.Action, id: nat)
    requires Spent(s, id) && (a.RequestShutdown? || (a.EnqueueAsync? && a.kind.RemoveChannel?))
    ensures Spent(s.(p := CP.Apply(s.p, a)), id)
  {
    var kind := if a.RequestShutdown? then CP.Shutdown else a.kind;
    var t := s.(p := CP.Apply(s.p, a));
    PushLive(s.p, kind, None);
    var live := CP.Live(s.p);
    if t.p.accepted != s.p.accepted {
      assert CP.Live(t.p) == live + [CP.Command(|s.p.accepted|, kind, None)];
    } else {
      assert CP.Live(t.p) == live;
    }
    hide CP.Live, CP.Apply;
    forall i | 0 <= i < |CP.Live(t.p)|
      ensures CP.Live(t.p)[i] in live || !CP.Live(t.p)[i].kind.AddChannel?
    {
      assert i < |live| ==> CP.Live(t.p)[i] == live[i];
    }
    OthersSpend(s, t, id);
  }

  lemma DetachSpends(s: State, id: nat)
    requires Spent(s, id)
    ensures Spent(s.(p := CP.Apply(s.p, CP.Detach)), id)
  {
    assert CP.Live(CP.Apply(s.p, CP.Detach)) == CP.Live(s.p);
  }

  lemma ExitSpends(s: State, m: PR.Machine, id: nat)
    requires Inv(s) && Spent(s, id)
    ensures Spent(s.(p := CP.Apply(s.p, CP.Exit), m := m), id)
  {
    ExitLive(s.p);
  }

  /** Processing takes one command off the way. */
  lemma ProcessSpends(s: State, t: State, status: int, id: nat)
    requires Inv(s) && Spent(s, id) && s.p.detached != []
    requires t.p == CP.Apply(s.p, CP.Process(status)) && t.nextId == s.nextId
    ensures Spent(t, id)
  {
    AccountedOf(s.p);
    CP.ProcessAccounted(s.p, status);
    ProcessEffect(s.p, status);
    hide Inv, CP.Live, CP.Apply, CP.Accounted;
    forall i | 0 <= i < |CP.Live(t.p)|
      ensures CP.Live(t.p)[i].kind != CP.AddChannel(id)
    {
      assert CP.Live(t.p)[i] == CP.Live(s.p)[i + 1];
    }
  }

  /** The add that is being completed is spent from now on. */
  lemma HeadSpent(s: State, t: State, status: int)
    requires Inv(s) && s.p.detached != [] && s.p.detached[0].kind.AddChannel?
    requires t.p == CP.Apply(s.p, CP.Process(status)) && t.nextId == s.nextId
    ensures Spent(t, s.p.detached[0].kind.id)
  {
    OnlyAdd(s);
    CP.LiveHead(s.p);
    HeadBelow(s);
    AccountedOf(s.p);
    CP.ProcessAccounted(s.p, status);
    ProcessEffect(s.p, status);
    hide Inv, CP.Live, CP.Apply, CP.Accounted;
    forall i | 0 <= i < |CP.Live(t.p)|
      ensures !CP.Live(t.p)[i].kind.AddChannel?
    {
      assert CP.Live(t.p)[i] == CP.Live(s.p)[i + 1];
    }
  }

  /** The add at hand has an identifier that was given out and has no event yet. */
  lemma HeadBelow(s: State)
    requires Inv(s) && s.p.detached != [] && s.p.detached[0].kind.AddChannel?
    ensures s.p.detached[0].kind.id < s.nextId && !Known(s.m, s.p.detached[0].kind.id)
  {
    hide CP.Inv, GoodMachine, Known, ClientsSound, IdsBelow, AllWitnessed;
    CP.LiveHead(s.p);
    assert Sound(s, CP.Live(s.p)[0].kind);
  }

  // ----- one move -----

  /** Nothing was completed and no event of an unknown channel came: spent stays spent. */
  lemma NoneCompleted(s: State, t: State)
    requires AddsSpent(s) && t.p.processed == s.p.processed
    requires forall id :: Spent(s, id) ==> Spent(t, id)
    requires forall id :: Known(t.m, id) ==> Known(s.m, id)
    ensures AddsSpent(t)
  {
    hide Spent, Known;
  }

  lemma KnownNoMore(m: PR.Machine, n: PR.Machine, e: PR.Event)
    requires n.log == m.log + [e] && Known(m, e.id)
    ensures forall id :: Known(n, id) ==> Known(m, id)
  {
    forall id | Known(n, id)
      ensures Known(m, id)
    {
      KnownMore(m, n, e, id);
    }
  }

  lemma ClientMove(s: State, t: State, a: CP.Action)
    requires Inv(s) && AddsSpent(s) && t == s.(p := CP.Apply(s.p, a), nextId := t.nextId) && t.nextId >= s.nextId
    requires a.Acquire? || a.Reset? || a.Enqueue? || a.ReadStatus? || a.Release?
    requires a.Acquire? && a.kind.AddChannel? ==> a.kind.id >= s.nextId
    ensures AddsSpent(t)
  {
    ProcessedKept(s.p, a);
    hide Inv, CP.Apply, Known;
    forall id | Spent(s, id)
      ensures Spent(t, id)
    {
      ClientSpends(s, t, a, id);
    }
    NoneCompleted(s, t);
  }

  lemma ProcessedKept(p: CP.State, a: CP.Action)
    requires !a.Process?
    ensures CP.Apply(p, a).processed == p.processed
  {
    if CP.ByClient(a) {
      if a.c < |p.clients| {
        ClientProcessed(p, a.c, a);
      }
      hide CP.ClientAct;
    } else {
      hide CP.ClientAct;
    }
  }

  lemma ClientProcessed(p: CP.State, c: nat, a: CP.Action)
    requires c < |p.clients|
    ensures CP.ClientAct(p, c, a).processed == p.processed
  {
    hide CP.Push;
    PushProcessed(p);
  }

  lemma PushProcessed(p: CP.State)
    ensures forall kind, waiter {:trigger CP.Push(p, kind, waiter)} :: CP.Push(p, kind, waiter).processed == p.processed
  {
  }

  lemma QueueMove(s: State, a: CP.Action)
    requires AddsSpent(s) && (a.RequestShutdown? || (a.EnqueueAsync? && a.kind.RemoveChannel?))
    ensures AddsSpent(s.(p := CP.Apply(s.p, a)))
  {
    var t := s.(p := CP.Apply(s.p, a));
    ProcessedKept(s.p, a);
    hide CP.Apply, Known;
    forall id | Spent(s, id)
      ensures Spent(t, id)
    {
      QueueSpends(s, a, id);
    }
    NoneCompleted(s, t);
  }

  /** A command is completed: an add that fails is unknown, and the event of one that succeeds is its own. */
  lemma CompletedMove(s: State, t: State, status: int)
    requires Inv(s) && AddsSpent(s) && s.p.detached != []
    requires t.p == CP.Apply(s.p, CP.Process(status)) && t.nextId == s.nextId
    requires forall id :: Known(t.m, id) ==> Known(s.m, id) || (s.p.detached[0].kind == CP.AddChannel(id) && status == 0)
    ensures AddsSpent(t)
  {
    var head := s.p.detached[0];
    CP.LiveHead(s.p);
    assert t.p.processed == s.p.processed + [CP.Done(head, status)];
    if head.kind.AddChannel? {
      HeadSpent(s, t, status);
      HeadBelow(s);
    }
    forall d | d in t.p.processed && d.cmd.kind.AddChannel?
      ensures Spent(t, d.cmd.kind.id) && (d.status != 0 ==> !Known(t.m, d.cmd.kind.id))
    {
      if d in s.p.processed {
        ProcessSpends(s, t, status, d.cmd.kind.id);
        assert CP.Live(s.p)[0].kind != CP.AddChannel(d.cmd.kind.id);
      }
      hide Inv, CP.Apply, Known, Spent;
    }
  }

  lemma ProcessMove(s: State, now: nat, result: PR.CbResult, hasSlot: bool)
    requires Inv(s) && AddsSpent(s) && s.p.detached != []
    ensures AddsSpent(Process(s, now, result, hasSlot))
  {
    var t := Process(s, now, result, hasSlot);
    hide Inv, AddsSpent, CP.Apply, Known;
    match s.p.detached[0].kind
    case AddChannel(id) =>
      if hasSlot {
        AddKnows(s.m, t.m, PR.Called(id, now, 0, result));
        CompletedMove(s, t, 0);
      } else {
        CompletedMove(s, t, PR.ENOMEM);
      }
    case RemoveChannel(id) =>
      HeadKnown(s, id);
      KnownNoMore(s.m, t.m, PR.Removed(id));
      CompletedMove(s, t, 0);
    case Shutdown =>
      CompletedMove(s, t, 0);
  }

  lemma AddKnows(m: PR.Machine, n: PR.Machine, e: PR.Event)
    requires n.log == m.log + [e]
    ensures forall id :: Known(n, id) ==> Known(m, id) || id == e.id
  {
    forall id | Known(n, id)
      ensures Known(m, id) || id == e.id
    {
      KnownMore(m, n, e, id);
    }
  }

  lemma HeadKnown(s: State, id: nat)
    requires Inv(s) && s.p.detached != [] && s.p.detached[0].kind == CP.RemoveChannel(id)
    ensures Known(s.m, id)
  {
    hide CP.Inv, GoodMachine, Known, ClientsSound, IdsBelow, AllWitnessed;
    CP.LiveHead(s.p);
    assert Sound(s, CP.Live(s.p)[0].kind);
  }

  lemma RunDueMove(s: State, id: nat, now: nat, result: PR.CbResult)
    requires Inv(s) && AddsSpent(s) && PR.Enabled(s.m, PR.RunDue(id, now, result))
    ensures AddsSpent(Next(s, RunDue(id, now, result)))
  {
    var t := Next(s, RunDue(id, now, result));
    assert Known(s.m, id);
    KnownNoMore(s.m, t.m, PR.Called(id, now, s.m.chans[id].value, result));
    hide Inv, Known;
    NoneCompleted(s, t);
  }

  /** Every move keeps identifiers spent. */
  lemma NextSpent(s: State, v: Move)
    requires Inv(s) && Allowed(s, v) && AddsSpent(s)
    ensures AddsSpent(Next(s, v))
  {
    hide Inv, AddsSpent, CP.Apply, PR.Next, Process;
    var t := Next(s, v);
    match v
    case Create(c) => ClientMove(s, t, CP.Acquire(c, CP.AddChannel(s.nextId)));
    case Close(c, id) => ClientMove(s, t, CP.Acquire(c, CP.RemoveChannel(id)));
    case Discard(id) => QueueMove(s, CP.EnqueueAsync(CP.RemoveChannel(id)));
    case Other(a) => if a.RequestShutdown? { QueueMove(s, a); } else { ClientMove(s, t, a); }
    case Detach => DetachMove(s);
    case ProcessOne(now, result, hasSlot) =>
      ProcessMove(s, now, result, hasSlot);
      PhaseMove(Process(s, now, result, hasSlot), t);
    case RunDue(id, now, result) => RunDueMove(s, id, now, result);
    case EndDue(now) => PhaseMove(s, t);
    case Exit => ExitMove(s);
  }

  lemma PhaseMove(s: State, t: State)
    requires AddsSpent(s) && t == s.(phase := t.phase, clock := t.clock)
    ensures AddsSpent(t)
  {
    hide Known;
  }

  lemma DetachMove(s: State)
    requires AddsSpent(s)
    ensures AddsSpent(Next(s, Detach))
  {
    ProcessedKept(s.p, CP.Detach);
    hide CP.Apply, Known;
    var t := s.(p := CP.Apply(s.p, CP.Detach));
    forall id | Spent(s, id)
      ensures Spent(t, id)
    {
      DetachSpends(s, id);
    }
    NoneCompleted(s, t);
    PhaseMove(t, Next(s, Detach));
  }

  lemma ExitMove(s: State)
    requires Inv(s) && AddsSpent(s)
    ensures AddsSpent(Next(s, Exit))
  {
    ProcessedKept(s.p, CP.Exit);
    hide CP.Apply, Known, Inv;
    var t := Next(s, Exit);
    forall id | Spent(s, id)
      ensures Spent(t, id)
    {
      ExitSpends(s, t.m, id);
    }
    assert t.m.log == s.m.log;
    SameKnown(s.m, t.m);
    NoneCompleted(s, t);
  }

  lemma SameKnown(m: PR.Machine, n: PR.Machine)
    requires n.log == m.log
    ensures forall id :: Known(n, id) ==> Known(m, id)
  {
  }

  // ----- every run -----

  lemma {:induction false} RunSpent(s: State, moves: seq<Move>)
    requires Inv(s) && InStep(s) && AddsSpent(s) && AllowedRun(s, moves)
    ensures AddsSpent(Run(s, moves))
    decreases |moves|
  {
    hide Inv, InStep, AddsSpent, Next, Allowed;
    if moves != [] {
      NextKeeps(s, moves[0]);
      NextInStep(s, moves[0]);
      NextSpent(s, moves[0]);
      RunSpent(Next(s, moves[0]), moves[1..]);
    }
  }

  /** In every reachable state, what a completed command's status says: a removal or a shutdown has status 0; an add has
      status 0 if and only if its channel's initial call is in the log, and otherwise ENOMEM. */
  lemma StatusExact(clients: nat, moves: seq<Move>, d: CP.Done)
    requires AllowedRun(Start(clients), moves) && d in Run(Start(clients), moves).p.processed
    ensures var log := Run(Start(clients), moves).m.log;
            match d.cmd.kind
            case AddChannel(id) => d.status == if InitialCall(log, id) then 0 else PR.ENOMEM
            case RemoveChannel(id) => d.status == 0 && exists i :: 0 <= i < |log| && log[i] == PR.Removed(id)
            case Shutdown => d.status == 0
  {
    hide Run, AllowedRun, CP.Inv, GoodMachine, PR.LastEvent, LiveSound, ClientsSound, IdsBelow;
    StartInv(clients);
    RunKeeps(Start(clients), moves);
    RunSpent(Start(clients), moves);
    var s := Run(Start(clients), moves);
    assert Witnessed(s.m.log, d);
    if d.cmd.kind.AddChannel? && d.status != 0 && InitialCall(s.m.log, d.cmd.kind.id) {
      CallKnown(s.m, d.cmd.kind.id);
      assert false;
    }
  }

  lemma CallKnown(m: PR.Machine, id: nat)
    requires InitialCall(m.log, id)
    ensures Known(m, id)
  {
  }
}
