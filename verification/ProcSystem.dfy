/**
 Clients, command protocol and scheduler together (python/RtpProc_mod.c): what a client may conclude from the outcome
 of create_channel and of close. A client closes only channels it has, that is, whose creation was answered.
 */
module ProcSystem {
  import opened Common
  import CP = CommandProtocol
  import PR = ProcRuns

  /** Where the worker stands: about to look for commands, going through those it detached, or running due channels. */
  datatype Phase = Between | Handling | Running

  /** The protocol, the channels with their log of events, the identifier of the next channel, the worker, the clock. */
  datatype State = State(p: CP.State, m: PR.Machine, nextId: nat, phase: Phase, clock: nat)

  datatype Move =
    | Create(c: nat)                                          // create_channel takes an identifier and the waiter
    | Close(c: nat, id: nat)                                  // close takes the waiter
    | Discard(id: nat)                                        // a channel object goes away: a removal nobody waits for
    | Other(a: CP.Action)                                     // the rest of a client's call, and shutdown
    | Detach
    | ProcessOne(now: nat, result: PR.CbResult, hasSlot: bool)
    | RunDue(id: nat, now: nat, result: PR.CbResult)
    | EndDue(now: nat)                                        // no channel is due any more
    | Exit

  function Start(clients: nat): State {
    State(CP.Start(clients), PR.START, 1, Between, 0)
  }

  ghost predicate Known(m: PR.Machine, id: nat) {
    PR.LastEvent(m.log, id).Some?
  }

  /** The channel has a deadline. */
  predicate Scheduled(m: PR.Machine, id: nat) {
    id in m.chans && m.chans[id].Some?
  }

  /** What the program does at all: clients close only what they have, the worker keeps to its loop, the clock does not
      go back, and a channel runs only when it is due and none is due before it. */
  ghost predicate Allowed(s: State, v: Move) {
    match v
    case Create(_) => true
    case Close(_, id) => Known(s.m, id)
    case Discard(id) => Known(s.m, id)
    case Other(a) => a.Reset? || a.Enqueue? || a.ReadStatus? || a.Release? || a.RequestShutdown?
    case Detach => s.phase == Between
    case ProcessOne(now, _, _) => s.p.detached != [] && now >= s.clock
    case RunDue(id, now, result) => s.phase == Running && now >= s.clock && PR.Enabled(s.m, PR.RunDue(id, now, result))
    case EndDue(now) =>
      s.phase == Running && now >= s.clock && forall id :: Scheduled(s.m, id) ==> s.m.chans[id].value > now
    case Exit => s.phase == Handling && s.p.detached == []
  }

  /** The worker's handling of the first detached command. */
  function Process(s: State, now: nat, result: PR.CbResult, hasSlot: bool): State
    requires s.p.detached != []
  {
    match s.p.detached[0].kind
    case AddChannel(id) =>
      if hasSlot then s.(p := CP.Apply(s.p, CP.Process(0)), m := PR.Next(s.m, PR.Add(id, now, result)))
      else s.(p := CP.Apply(s.p, CP.Process(PR.ENOMEM)))
    case RemoveChannel(id) =>
      s.(p := CP.Apply(s.p, CP.Process(0)), m := PR.Next(s.m, PR.Remove(id)))
    case Shutdown =>
      s.(p := CP.Apply(s.p, CP.Process(0)))
  }

  /** When the last detached command is done the worker runs due channels, unless it was told to stop. */
  function AfterCommands(p: CP.State): Phase {
    if p.detached == [] && !p.shutdownSeen then Running else Handling
  }

  function Next(s: State, v: Move): State {
    match v
    case Create(c) => s.(p := CP.Apply(s.p, CP.Acquire(c, CP.AddChannel(s.nextId))), nextId := s.nextId + 1)
    case Close(c, id) => s.(p := CP.Apply(s.p, CP.Acquire(c, CP.RemoveChannel(id))))
    case Discard(id) => s.(p := CP.Apply(s.p, CP.EnqueueAsync(CP.RemoveChannel(id))))
    case Other(a) => s.(p := CP.Apply(s.p, a))
    case Detach =>
      var p := CP.Apply(s.p, CP.Detach);
      s.(p := p, phase := AfterCommands(p))
    case ProcessOne(now, result, hasSlot) =>
      if s.p.detached == [] then s
      else
        var t := Process(s, now, result, hasSlot);
        t.(phase := AfterCommands(t.p), clock := now)
    case RunDue(id, now, result) => s.(m := PR.Next(s.m, PR.RunDue(id, now, result)), clock := now)
    case EndDue(now) => s.(phase := Between, clock := now)
    case Exit => s.(p := CP.Apply(s.p, CP.Exit), m := PR.Next(s.m, PR.Stop))
  }

  // ----- the invariant -----

  /** What a request in the making or on its way stands for: an add has a new identifier, a removal a known one. */
  ghost predicate Sound(s: State, kind: CP.Kind) {
    match kind
    case AddChannel(id) => id < s.nextId && !Known(s.m, id)
    case RemoveChannel(id) => Known(s.m, id)
    case Shutdown => true
  }

  ghost predicate LiveSound(s: State) {
    forall i :: 0 <= i < |CP.Live(s.p)| ==>
      var cmd := CP.Live(s.p)[i];
      Sound(s, cmd.kind) && (cmd.kind.AddChannel? ==> cmd.waiter.Some?)
  }

  /** The kind of command a client is about to send, or was refused. */
  function Intent(pc: CP.Client): Option<CP.Kind> {
    if pc.Acquired? || pc.Prepared? || pc.Refused? then Some(pc.kind) else None
  }

  ghost predicate ClientsSound(s: State) {
    forall c :: 0 <= c < |s.p.clients| && Intent(s.p.clients[c]).Some? ==> Sound(s, Intent(s.p.clients[c]).value)
  }

  ghost predicate IdsBelow(s: State) {
    forall i :: 0 <= i < |s.m.log| ==> s.m.log[i].id < s.nextId
  }

  /** The initial call of a channel is in the log. */
  ghost predicate InitialCall(log: seq<PR.Event>, id: nat) {
    exists i :: 0 <= i < |log| && log[i].Called? && log[i].id == id && log[i].deadline == 0
  }

  /** A completed command's status and what it left in the log: an add that succeeded the initial call of its channel, or
      else there was no memory for it; a removal and a shutdown always succeed. */
  ghost predicate Witnessed(log: seq<PR.Event>, d: CP.Done) {
    match d.cmd.kind
    case AddChannel(id) => (d.status == 0 ==> InitialCall(log, id)) && (d.status == 0 || d.status == PR.ENOMEM)
    case RemoveChannel(id) => d.status == 0 && exists i :: 0 <= i < |log| && log[i] == PR.Removed(id)
    case Shutdown => d.status == 0
  }

  ghost predicate AllWitnessed(s: State) {
    forall d :: d in s.p.processed ==> Witnessed(s.m.log, d)
  }

  ghost predicate GoodMachine(m: PR.Machine) {
    PR.Remembers(m) && PR.GoodLog(m.log)
  }

  ghost predicate Inv(s: State) {
    CP.Inv(s.p) && GoodMachine(s.m) && LiveSound(s) && ClientsSound(s) && IdsBelow(s) && AllWitnessed(s)
  }

  /** The worker is going through commands exactly while there are some or it was told to stop; commands are refused only
      after shutdown was requested. */
  ghost predicate InStep(s: State) {
    && (s.phase == Handling <==> s.p.detached != [] || s.p.shutdownSeen)
    && forall c :: 0 <= c < |s.p.clients| && s.p.clients[c].Refused? ==> s.p.shutdownQueued
  }

  lemma StartInv(clients: nat)
    ensures Inv(Start(clients)) && InStep(Start(clients))
  {
    CP.StartInv(clients);
  }

  // ----- the protocol's side of a step -----

  lemma SoundLater(s: State, t: State, kind: CP.Kind)
    requires Sound(s, kind) && t.m == s.m && t.nextId >= s.nextId
    ensures Sound(t, kind)
  {
  }

  /** The same commands are on their way, and clients intend what they did, save one with a sound intent. */
  lemma SameLive(s: State, t: State)
    requires LiveSound(s) && CP.Live(t.p) == CP.Live(s.p) && t.m == s.m && t.nextId >= s.nextId
    ensures LiveSound(t)
  {
  }

  lemma OneClient(s: State, t: State, c: nat)
    requires ClientsSound(s) && t.m == s.m && t.nextId >= s.nextId && c < |s.p.clients|
    requires |t.p.clients| == |s.p.clients| && t.p.clients == s.p.clients[c := t.p.clients[c]]
    requires Intent(t.p.clients[c]).Some? ==> Sound(t, Intent(t.p.clients[c]).value)
    ensures ClientsSound(t)
  {
    forall d | 0 <= d < |t.p.clients| && Intent(t.p.clients[d]).Some?
      ensures Sound(t, Intent(t.p.clients[d]).value)
    {
      if d != c {
        SoundLater(s, t, Intent(s.p.clients[d]).value);
      }
    }
  }

  lemma AcquireKeeps(s: State, c: nat, kind: CP.Kind, nextId: nat)
    requires Inv(s) && nextId >= s.nextId
    requires Sound(s.(nextId := nextId), kind)
    ensures Inv(s.(p := CP.Apply(s.p, CP.Acquire(c, kind)), nextId := nextId))
  {
    hide CP.Inv, Sound, GoodMachine, AllWitnessed;
    var t := s.(p := CP.Apply(s.p, CP.Acquire(c, kind)), nextId := nextId);
    CP.ApplyKeeps(s.p, CP.Acquire(c, kind));
    assert CP.Live(t.p) == CP.Live(s.p);
    SoundMore(s, t);
    if c < |s.p.clients| {
      SoundAt(s.(nextId := nextId), t, kind);
      OneClient(s, t, c);
    }
    WitnessedSame(s, t);
  }

  lemma SoundAt(s: State, t: State, kind: CP.Kind)
    requires Sound(s, kind) && t.m == s.m && t.nextId == s.nextId
    ensures Sound(t, kind)
  {
  }

  lemma SoundMore(s: State, t: State)
    requires LiveSound(s) && ClientsSound(s) && t.m == s.m && t.nextId >= s.nextId && CP.Live(t.p) == CP.Live(s.p)
    ensures LiveSound(t) && (t.p.clients == s.p.clients ==> ClientsSound(t))
  {
  }

  lemma WitnessedSame(s: State, t: State)
    requires AllWitnessed(s) && t.m.log == s.m.log && t.p.processed == s.p.processed
    ensures AllWitnessed(t)
  {
  }

  /** A sound command joins the queue. */
  lemma LiveAppended(s: State, t: State, cmd: CP.Command)
    requires LiveSound(s) && t.m == s.m && t.nextId == s.nextId && CP.Live(t.p) == CP.Live(s.p) + [cmd]
    requires Sound(s, cmd.kind) && (cmd.kind.AddChannel? ==> cmd.waiter.Some?)
    ensures LiveSound(t)
  {
    hide Sound;
    forall i | 0 <= i < |CP.Live(t.p)|
      ensures var e := CP.Live(t.p)[i]; Sound(t, e.kind) && (e.kind.AddChannel? ==> e.waiter.Some?)
    {
      var e := CP.Live(t.p)[i];
      if i < |CP.Live(s.p)| {
        assert e == CP.Live(s.p)[i];
      }
      SoundAt(s, t, e.kind);
    }
  }

  lemma PushLive(s: CP.State, kind: CP.Kind, waiter: Option<nat>)
    ensures CP.Live(CP.Push(s, kind, waiter)) == CP.Live(s) + [CP.Command(|s.accepted|, kind, waiter)]
  {
    var cmd := CP.Command(|s.accepted|, kind, waiter);
    assert s.detached + (s.queue + [cmd]) == s.detached + s.queue + [cmd];
  }

  lemma EnqueueKeeps(s: State, c: nat)
    requires Inv(s)
    ensures Inv(s.(p := CP.Apply(s.p, CP.Enqueue(c))))
  {
    hide CP.Inv, Sound, GoodMachine, AllWitnessed, LiveSound;
    var t := s.(p := CP.Apply(s.p, CP.Enqueue(c)));
    CP.ApplyKeeps(s.p, CP.Enqueue(c));
    WitnessedSame(s, t);
    if c < |s.p.clients| && s.p.clients[c].Prepared? {
      var kind := s.p.clients[c].kind;
      assert Intent(s.p.clients[c]) == Some(kind);
      SoundAt(s, t, kind);
      OneClient(s, t, c);
      if s.p.accepting {
        PushLive(s.p, kind, Some(c));
        LiveAppended(s, t, CP.Command(|s.p.accepted|, kind, Some(c)));
      } else {
        SameLive(s, t);
      }
    }
  }

  lemma QueueKeeps(s: State, kind: CP.Kind, a: CP.Action)
    requires Inv(s) && Sound(s, kind) && !kind.AddChannel?
    requires a == CP.EnqueueAsync(kind) || (a == CP.RequestShutdown && kind == CP.Shutdown)
    ensures Inv(s.(p := CP.Apply(s.p, a)))
  {
    hide CP.Inv, Sound, GoodMachine, AllWitnessed, LiveSound;
    var t := s.(p := CP.Apply(s.p, a));
    CP.ApplyKeeps(s.p, a);
    WitnessedSame(s, t);
    SameClients(s, t);
    PushLive(s.p, kind, None);
    if t.p.accepted != s.p.accepted {
      assert CP.Live(t.p) == CP.Live(CP.Push(s.p, kind, None));
      LiveAppended(s, t, CP.Command(|s.p.accepted|, kind, None));
    } else {
      SameLive(s, t);
    }
  }

  lemma SameClients(s: State, t: State)
    requires ClientsSound(s) && t.p.clients == s.p.clients && t.m == s.m && t.nextId == s.nextId
    ensures ClientsSound(t)
  {
  }

  /** Steps that neither queue nor complete a command. */
  lemma QuietKeeps(s: State, a: CP.Action)
    requires Inv(s) && (a.Reset? || a.ReadStatus? || a.Release? || a.Detach?)
    ensures Inv(s.(p := CP.Apply(s.p, a)))
  {
    hide CP.Inv, Sound, GoodMachine, AllWitnessed, LiveSound;
    var t := s.(p := CP.Apply(s.p, a));
    CP.ApplyKeeps(s.p, a);
    WitnessedSame(s, t);
    assert CP.Live(t.p) == CP.Live(s.p);
    SameLive(s, t);
    if a.Detach? {
      SameClients(s, t);
    } else if a.c < |s.p.clients| {
      assert Intent(t.p.clients[a.c]).Some? ==> Intent(t.p.clients[a.c]) == Intent(s.p.clients[a.c]);
      if Intent(t.p.clients[a.c]).Some? {
        SoundAt(s, t, Intent(t.p.clients[a.c]).value);
      }
      OneClient(s, t, a.c);
    }
  }

  // ----- the worker's side of a step -----

  /** The log grew by one event, of a channel that is known or is not waited for any more. */
  lemma KnownMore(m: PR.Machine, n: PR.Machine, e: PR.Event, id: nat)
    requires n.log == m.log + [e]
    ensures Known(n, id) <==> Known(m, id) || e.id == id
  {
    PR.LastEventAppend(m.log, e, id);
  }

  lemma SoundAfter(s: State, t: State, e: PR.Event, kind: CP.Kind)
    requires Sound(s, kind) && t.m.log == s.m.log + [e] && t.nextId == s.nextId
    requires kind == CP.AddChannel(e.id) ==> Known(s.m, e.id)
    ensures Sound(t, kind)
  {
    match kind
    case AddChannel(id) => KnownMore(s.m, t.m, e, id);
    case RemoveChannel(id) => KnownMore(s.m, t.m, e, id);
    case Shutdown =>
  }

  lemma WitnessedMore(log: seq<PR.Event>, e: PR.Event, d: CP.Done)
    requires Witnessed(log, d)
    ensures Witnessed(log + [e], d)
  {
    var more := log + [e];
    match d.cmd.kind
    case AddChannel(id) =>
      if d.status == 0 {
        var i :| 0 <= i < |log| && log[i].Called? && log[i].id == id && log[i].deadline == 0;
        assert more[i] == log[i];
      }
    case RemoveChannel(id) =>
      var i :| 0 <= i < |log| && log[i] == PR.Removed(id);
      assert more[i] == log[i];
    case Shutdown =>
  }

  /** An event of a known channel keeps everything that speaks of the log. */
  lemma EventKeeps(s: State, t: State, e: PR.Event)
    requires Inv(s) && t.p == s.p && t.nextId == s.nextId && t.m.log == s.m.log + [e] && Known(s.m, e.id)
    requires GoodMachine(t.m)
    ensures Inv(t)
  {
    hide CP.Inv, Sound, GoodMachine, Witnessed, Known;
    forall i | 0 <= i < |CP.Live(t.p)|
      ensures Sound(t, CP.Live(t.p)[i].kind)
    {
      SoundAfter(s, t, e, CP.Live(s.p)[i].kind);
    }
    forall c | 0 <= c < |t.p.clients| && Intent(t.p.clients[c]).Some?
      ensures Sound(t, Intent(t.p.clients[c]).value)
    {
      SoundAfter(s, t, e, Intent(s.p.clients[c]).value);
    }
    forall d | d in t.p.processed
      ensures Witnessed(t.m.log, d)
    {
      WitnessedMore(s.m.log, e, d);
    }
    KnownBelow(s, e.id);
  }

  lemma KnownBelow(s: State, id: nat)
    requires IdsBelow(s) && Known(s.m, id)
    ensures id < s.nextId
  {
    var i := PR.LastEvent(s.m.log, id).value;
    assert s.m.log[i].id < s.nextId;
  }

  lemma RunDueKeeps(s: State, id: nat, now: nat, result: PR.CbResult)
    requires Inv(s) && PR.Enabled(s.m, PR.RunDue(id, now, result))
    ensures Inv(s.(m := PR.Next(s.m, PR.RunDue(id, now, result))))
  {
    hide CP.Inv, LiveSound, ClientsSound, IdsBelow, AllWitnessed;
    var t := s.(m := PR.Next(s.m, PR.RunDue(id, now, result)));
    PR.NextKeeps(s.m, PR.RunDue(id, now, result));
    assert Known(s.m, id);
    EventKeeps(s, t, PR.Called(id, now, s.m.chans[id].value, result));
  }

  lemma StopKeeps(s: State)
    requires Inv(s)
    ensures Inv(s.(p := CP.Apply(s.p, CP.Exit), m := PR.Next(s.m, PR.Stop)))
  {
    hide CP.Inv, PR.Remembers, PR.GoodLog;
    var t := s.(p := CP.Apply(s.p, CP.Exit), m := PR.Next(s.m, PR.Stop));
    CP.ApplyKeeps(s.p, CP.Exit);
    PR.NextKeeps(s.m, PR.Stop);
    ExitLive(s.p);
    assert t.m.log == s.m.log;
  }

  /** When the worker exits nothing is on its way. */
  lemma ExitLive(p: CP.State)
    requires CP.Inv(p)
    ensures CP.Live(CP.Apply(p, CP.Exit)) == CP.Live(p)
  {
    hide CP.Holding, CP.Accounted;
  }

  /** While an add is first on its way, no other is intended or on its way: it carries the one waiter. */
  lemma OnlyAdd(s: State)
    requires Inv(s) && s.p.detached != [] && s.p.detached[0].kind.AddChannel?
    ensures forall i :: 0 < i < |CP.Live(s.p)| ==> !CP.Live(s.p)[i].kind.AddChannel?
    ensures forall c :: 0 <= c < |s.p.clients| ==> Intent(s.p.clients[c]).None?
  {
    hide CP.Accounted, CP.ShutdownLast, GoodMachine, IdsBelow, AllWitnessed, ClientsSound, Sound;
    CP.LiveHead(s.p);
    assert CP.Live(s.p)[0].waiter.Some?;
    WaiterHeld(s.p);
  }

  lemma WaiterHeld(p: CP.State)
    requires CP.Holding(p) && CP.Live(p) != [] && CP.Live(p)[0].waiter.Some?
    ensures forall i :: 0 < i < |CP.Live(p)| ==> CP.Live(p)[i].waiter.None?
    ensures forall c :: 0 <= c < |p.clients| ==> Intent(p.clients[c]).None?
  {
    hide CP.Live;
    assert !CP.NoWaiter(CP.Live(p));
    var h :| 0 <= h < |p.clients| && CP.HolderInv(p, h, p.clients[h]) && CP.OthersIdle(p.clients, h);
    assert p.clients[h].Waiting? && !p.done;
    FirstWaits(CP.Live(p), p.clients[h].cmd);
  }

  lemma FirstWaits(cmds: seq<CP.Command>, cmd: CP.Command)
    requires CP.OneWaiter(cmds, cmd) && cmds != [] && cmds[0].waiter.Some?
    ensures forall i :: 0 < i < |cmds| ==> cmds[i].waiter.None?
  {
    var k :| 0 <= k < |cmds| && cmds[k] == cmd && cmd.waiter.Some? && CP.OnlyAt(cmds, k);
    assert k == 0;
  }

  /** Completing a command without any event. */
  lemma CompleteKeeps(s: State, status: int)
    requires Inv(s) && s.p.detached != [] && Witnessed(s.m.log, CP.Done(s.p.detached[0], status))
    ensures Inv(s.(p := CP.Apply(s.p, CP.Process(status))))
  {
    hide GoodMachine, Sound, Witnessed;
    var t := s.(p := CP.Apply(s.p, CP.Process(status)));
    CP.ApplyKeeps(s.p, CP.Process(status));
    CP.ProcessAccounted(s.p, status);
    hide CP.Inv, CP.Live, CP.Accounted;
    forall i | 0 <= i < |CP.Live(t.p)|
      ensures var cmd := CP.Live(t.p)[i]; Sound(t, cmd.kind) && (cmd.kind.AddChannel? ==> cmd.waiter.Some?)
    {
      assert CP.Live(t.p)[i] == CP.Live(s.p)[i + 1];
      SoundAt(s, t, CP.Live(t.p)[i].kind);
    }
    SameClients(s, t);
  }

  /** The removal is logged, then the command completed. */
  lemma RemoveKeeps(s: State, now: nat, result: PR.CbResult, hasSlot: bool)
    requires Inv(s) && s.p.detached != [] && s.p.detached[0].kind.RemoveChannel?
    ensures Inv(Process(s, now, result, hasSlot))
  {
    hide CP.Inv, GoodMachine, Sound, ClientsSound, IdsBelow, AllWitnessed, Known, PR.Remembers, PR.GoodLog;
    var id := s.p.detached[0].kind.id;
    var t := s.(m := PR.Next(s.m, PR.Remove(id)));
    CP.LiveHead(s.p);
    assert Sound(s, s.p.detached[0].kind);
    RemovalKnown(s, id);
    MachineKeeps(s.m, PR.Remove(id));
    EventKeeps(s, t, PR.Removed(id));
    assert t.m.log[|s.m.log|] == PR.Removed(id);
    CompleteKeeps(t, 0);
  }

  lemma RemovalKnown(s: State, id: nat)
    requires Sound(s, CP.RemoveChannel(id))
    ensures Known(s.m, id)
  {
  }

  lemma MachineKeeps(m: PR.Machine, step: PR.Step)
    requires GoodMachine(m) && PR.Enabled(m, step)
    ensures GoodMachine(PR.Next(m, step))
  {
    PR.NextKeeps(m, step);
  }

  /** The command completed, then its channel's initial call: nothing else waits for that identifier. */
  lemma AddKeeps(s: State, now: nat, result: PR.CbResult)
    requires Inv(s) && s.p.detached != [] && s.p.detached[0].kind.AddChannel?
    ensures Inv(Process(s, now, result, true))
  {
    hide CP.Inv, GoodMachine, Sound, Known, Witnessed, PR.Remembers, PR.GoodLog;
    var cmd := s.p.detached[0];
    var id := cmd.kind.id;
    var e := PR.Called(id, now, 0, result);
    var t := Process(s, now, result, true);
    CP.LiveHead(s.p);
    OnlyAdd(s);
    assert Sound(s, cmd.kind);
    AddUnknown(s, id);
    MachineKeeps(s.m, PR.Add(id, now, result));
    CP.ApplyKeeps(s.p, CP.Process(0));
    AccountedOf(s.p);
    CP.ProcessAccounted(s.p, 0);
    hide CP.Live, CP.Accounted;
    forall i | 0 <= i < |CP.Live(t.p)|
      ensures var f := CP.Live(t.p)[i]; Sound(t, f.kind) && (f.kind.AddChannel? ==> f.waiter.Some?)
    {
      assert CP.Live(t.p)[i] == CP.Live(s.p)[i + 1];
      SoundAfter(s, t, e, CP.Live(t.p)[i].kind);
    }
    assert forall c :: 0 <= c < |t.p.clients| ==> Intent(t.p.clients[c]).None?;
    assert Witnessed(t.m.log, CP.Done(cmd, 0)) by {
      CallWitnessed(s.m.log, e, cmd);
    }
    forall d | d in t.p.processed
      ensures Witnessed(t.m.log, d)
    {
      if d in s.p.processed {
        WitnessedMore(s.m.log, e, d);
      }
    }
  }

  lemma AddUnknown(s: State, id: nat)
    requires Sound(s, CP.AddChannel(id))
    ensures id < s.nextId && PR.LastEvent(s.m.log, id).None?
  {
  }

  lemma AccountedOf(p: CP.State)
    requires CP.Inv(p)
    ensures CP.Accounted(p)
  {
  }

  lemma CallWitnessed(log: seq<PR.Event>, e: PR.Event, cmd: CP.Command)
    requires e.Called? && e.deadline == 0 && cmd.kind == CP.AddChannel(e.id)
    ensures Witnessed(log + [e], CP.Done(cmd, 0))
  {
    assert (log + [e])[|log|] == e;
  }

  lemma ProcessKeeps(s: State, now: nat, result: PR.CbResult, hasSlot: bool)
    requires Inv(s) && s.p.detached != []
    ensures Inv(Process(s, now, result, hasSlot))
  {
    hide Inv, PR.Next, CP.Apply;
    match s.p.detached[0].kind
    case AddChannel(id) =>
      if hasSlot {
        AddKeeps(s, now, result);
      } else {
        CompleteKeeps(s, PR.ENOMEM);
      }
    case RemoveChannel(id) => RemoveKeeps(s, now, result, hasSlot);
    case Shutdown => CompleteKeeps(s, 0);
  }

  lemma NewIdentifier(s: State)
    requires Inv(s)
    ensures Sound(s.(nextId := s.nextId + 1), CP.AddChannel(s.nextId))
  {
    if Known(s.m, s.nextId) {
      KnownBelow(s, s.nextId);
    }
  }

  /** The invariant does not speak of the worker's phase or of the clock. */
  lemma PhaseFree(s: State, t: State)
    requires Inv(s) && t == s.(phase := t.phase, clock := t.clock)
    ensures Inv(t)
  {
    hide CP.Inv, GoodMachine, Known;
  }

  /** Every allowed move keeps the invariant. */
  lemma NextKeeps(s: State, v: Move)
    requires Inv(s) && Allowed(s, v)
    ensures Inv(Next(s, v))
  {
    hide Inv, CP.Apply, PR.Next, Process;
    var t := Next(s, v);
    match v
    case Create(c) =>
      NewIdentifier(s);
      AcquireKeeps(s, c, CP.AddChannel(s.nextId), s.nextId + 1);
    case Close(c, id) =>
      AcquireKeeps(s, c, CP.RemoveChannel(id), s.nextId);
    case Discard(id) =>
      QueueKeeps(s, CP.RemoveChannel(id), CP.EnqueueAsync(CP.RemoveChannel(id)));
    case Other(a) =>
      OtherKeeps(s, a);
    case Detach =>
      QuietKeeps(s, CP.Detach);
      PhaseFree(s.(p := CP.Apply(s.p, CP.Detach)), t);
    case ProcessOne(now, result, hasSlot) =>
      ProcessKeeps(s, now, result, hasSlot);
      PhaseFree(Process(s, now, result, hasSlot), t);
    case RunDue(id, now, result) =>
      RunDueKeeps(s, id, now, result);
      PhaseFree(s.(m := PR.Next(s.m, PR.RunDue(id, now, result))), t);
    case EndDue(now) =>
      PhaseFree(s, t);
    case Exit =>
      StopKeeps(s);
  }

  lemma OtherKeeps(s: State, a: CP.Action)
    requires Inv(s) && Allowed(s, Other(a))
    ensures Inv(s.(p := CP.Apply(s.p, a)))
  {
    hide Inv, CP.Apply;
    if a.Enqueue? {
      EnqueueKeeps(s, a.c);
    } else if a.RequestShutdown? {
      QueueKeeps(s, CP.Shutdown, a);
    } else {
      QuietKeeps(s, a);
    }
  }

  /** What a client's action, or a command sent by no client in particular, leaves alone. */
  lemma WorkerUntouched(p: CP.State, a: CP.Action)
    requires a.Acquire? || a.Reset? || a.Enqueue? || a.ReadStatus? || a.Release? || a.RequestShutdown? || a.EnqueueAsync?
    requires p.accepting <==> !p.shutdownQueued
    ensures var q := CP.Apply(p, a);
            && q.detached == p.detached && q.shutdownSeen == p.shutdownSeen && q.exited == p.exited
            && (p.shutdownQueued ==> q.shutdownQueued && q.queue == p.queue)
            && |q.clients| == |p.clients|
            && forall c :: 0 <= c < |q.clients| && q.clients[c].Refused? ==> p.clients[c].Refused? || p.shutdownQueued
  {
  }

  /** What processing a command does to the worker's side of the protocol. */
  lemma ProcessEffect(p: CP.State, status: int)
    requires p.detached != []
    ensures var q := CP.Apply(p, CP.Process(status));
            && q.detached == p.detached[1..] && q.clients == p.clients && q.shutdownQueued == p.shutdownQueued
            && (q.shutdownSeen <==> p.shutdownSeen || p.detached[0].kind == CP.Shutdown)
  {
  }

  lemma ProcessPhase(s: State, now: nat, result: PR.CbResult, hasSlot: bool)
    requires s.p.detached != []
    ensures var t := Next(s, ProcessOne(now, result, hasSlot));
            && t.p.detached == s.p.detached[1..] && t.p.clients == s.p.clients && t.p.shutdownQueued == s.p.shutdownQueued
            && (t.p.shutdownSeen <==> s.p.shutdownSeen || s.p.detached[0].kind == CP.Shutdown)
            && t.phase == AfterCommands(t.p)
  {
    hide CP.Apply, PR.Next;
    ProcessEffect(s.p, 0);
    ProcessEffect(s.p, PR.ENOMEM);
  }

  lemma AcceptingIff(p: CP.State)
    requires CP.Inv(p)
    ensures p.accepting <==> !p.shutdownQueued
  {
  }

  /** Every allowed move keeps the worker in step with its commands. */
  lemma NextInStep(s: State, v: Move)
    requires Inv(s) && InStep(s) && Allowed(s, v)
    ensures InStep(Next(s, v))
  {
    AcceptingIff(s.p);
    hide Inv, PR.Next, PR.Enabled, Known;
    match v
    case Create(c) =>
      WorkerUntouched(s.p, CP.Acquire(c, CP.AddChannel(s.nextId)));
      hide CP.Apply;
    case Close(c, id) =>
      WorkerUntouched(s.p, CP.Acquire(c, CP.RemoveChannel(id)));
      hide CP.Apply;
    case Discard(id) =>
      WorkerUntouched(s.p, CP.EnqueueAsync(CP.RemoveChannel(id)));
      hide CP.Apply;
    case Other(a) =>
      WorkerUntouched(s.p, a);
      hide CP.Apply;
    case ProcessOne(now, result, hasSlot) =>
      ProcessPhase(s, now, result, hasSlot);
      hide Next;
    case _ =>
  }

  // ----- runs -----

  ghost predicate AllowedRun(s: State, moves: seq<Move>)
    decreases |moves|
  {
    moves == [] || (Allowed(s, moves[0]) && AllowedRun(Next(s, moves[0]), moves[1..]))
  }

  function Run(s: State, moves: seq<Move>): State
    decreases |moves|
  {
    if moves == [] then s else Run(Next(s, moves[0]), moves[1..])
  }

  lemma LogGrows(s: State, v: Move)
    ensures s.m.log <= Next(s, v).m.log
  {
  }

  /** Every run keeps the invariant, and the log only grows. */
  lemma {:induction false} RunKeeps(s: State, moves: seq<Move>)
    requires Inv(s) && InStep(s) && AllowedRun(s, moves)
    ensures Inv(Run(s, moves)) && InStep(Run(s, moves)) && s.m.log <= Run(s, moves).m.log
    decreases |moves|
  {
    hide Inv, InStep, Next, Allowed;
    if moves != [] {
      NextKeeps(s, moves[0]);
      NextInStep(s, moves[0]);
      LogGrows(s, moves[0]);
      RunKeeps(Next(s, moves[0]), moves[1..]);
    }
  }

  lemma {:induction false} RunConcat(s: State, a: seq<Move>, b: seq<Move>)
    requires AllowedRun(s, a) && AllowedRun(Run(s, a), b)
    ensures AllowedRun(s, a + b) && Run(s, a + b) == Run(Run(s, a), b)
    decreases |a|
  {
    hide Next, Allowed;
    if a == [] {
      assert a + b == b;
    } else {
      assert (a + b)[0] == a[0] && (a + b)[1..] == a[1..] + b;
      RunConcat(Next(s, a[0]), a[1..], b);
    }
  }

  /** Once create_channel was answered with success, the callback has had its initial call. */
  lemma CreateHasCalled(clients: nat, moves: seq<Move>, c: nat, id: nat)
    requires AllowedRun(Start(clients), moves)
    requires var s := Run(Start(clients), moves);
             c < |s.p.clients| && s.p.clients[c].Answered? && s.p.clients[c].cmd.kind == CP.AddChannel(id) && s.p.clients[c].status == 0
    ensures var log := Run(Start(clients), moves).m.log;
            PR.GoodLog(log) && exists i :: 0 <= i < |log| && log[i].Called? && log[i].id == id && log[i].deadline == 0
  {
    hide Run, AllowedRun, PR.Remembers, PR.GoodLog, PR.LastEvent;
    StartInv(clients);
    RunKeeps(Start(clients), moves);
    var s := Run(Start(clients), moves);
    CP.HolderAnswered(s.p, c);
    assert Witnessed(s.m.log, CP.Done(s.p.clients[c].cmd, 0));
  }
}
