/**
 The command protocol between client threads and the worker (python/RtpProc_mod.c with src/rtp_sync.c) as a
 transition system: every section under the command lock and every access to the shared waiter is one action.
 */
module CommandProtocol {
  import opened Common

  /** What a command asks for; channels go by their identifiers. */
  datatype Kind = AddChannel(id: nat) | RemoveChannel(id: nat) | Shutdown

  /** A command, with the client that waits for it, if any. Commands bear distinct serial numbers. */
  datatype Command = Command(serial: nat, kind: Kind, waiter: Option<nat>)

  datatype Done = Done(cmd: Command, status: int)

  /** Where a client stands in a synchronous call. */
  datatype Client =
    | Idle
    | Acquired(kind: Kind)
    | Prepared(kind: Kind)
    | Waiting(cmd: Command)
    | Refused(kind: Kind)
    | Answered(cmd: Command, status: int)

  datatype State = State(
    queue: seq<Command>,
    detached: seq<Command>,
    accepting: bool,
    shutdownQueued: bool,
    busy: bool,
    done: bool,
    status: int,
    shutdownSeen: bool,
    exited: bool,
    clients: seq<Client>,
    accepted: seq<Command>,
    processed: seq<Done>,
    freed: seq<Command>)

  datatype Action =
    | Acquire(c: nat, kind: Kind)
    | Reset(c: nat)
    | Enqueue(c: nat)
    | EnqueueAsync(kind: Kind)
    | ReadStatus(c: nat)
    | Release(c: nat)
    | RequestShutdown
    | Detach
    | Process(result: int)
    | Exit

  function Push(s: State, kind: Kind, waiter: Option<nat>): State {
    var cmd := Command(|s.accepted|, kind, waiter);
    s.(queue := s.queue + [cmd], accepted := s.accepted + [cmd])
  }

  function At(s: State, c: nat, pc: Client): State
    requires c < |s.clients|
  {
    s.(clients := s.clients[c := pc])
  }

  function ClientAct(s: State, c: nat, a: Action): State
    requires c < |s.clients|
  {
    var pc := s.clients[c];
    match a
    case Acquire(_, kind) =>
      if pc == Idle && !s.busy && kind != Shutdown then At(s.(busy := true), c, Acquired(kind)) else s
    case Reset(_) =>
      if pc.Acquired? then At(s.(done := false, status := 0), c, Prepared(pc.kind)) else s
    case Enqueue(_) =>
      if !pc.Prepared? then s
      else if !s.accepting then At(s, c, Refused(pc.kind))
      else At(Push(s, pc.kind, Some(c)), c, Waiting(Command(|s.accepted|, pc.kind, Some(c))))
    case ReadStatus(_) =>
      if pc.Waiting? && s.done then At(s, c, Answered(pc.cmd, s.status)) else s
    case Release(_) =>
      if pc.Refused? || pc.Answered? then At(s.(busy := false), c, Idle) else s
    case _ => s
  }

  predicate ByClient(a: Action) {
    a.Acquire? || a.Reset? || a.Enqueue? || a.ReadStatus? || a.Release?
  }

  function Apply(s: State, a: Action): State {
    if ByClient(a) then
      if a.c < |s.clients| then ClientAct(s, a.c, a) else s
    else
      match a
      case EnqueueAsync(kind) =>
        if s.accepting && kind != Shutdown then Push(s, kind, None) else s
      case RequestShutdown =>
        if s.shutdownQueued then s else Push(s, Shutdown, None).(shutdownQueued := true, accepting := false)
      case Detach =>
        if s.detached == [] && !s.shutdownSeen && !s.exited then s.(detached := s.queue, queue := []) else s
      case Process(result) =>
        if s.detached == [] then s
        else
          var cmd := s.detached[0];
          var s1 := s.(detached := s.detached[1..],
                       processed := s.processed + [Done(cmd, result)],
                       shutdownSeen := s.shutdownSeen || cmd.kind == Shutdown);
          if cmd.waiter.Some? then s1.(done := true, status := result) else s1
      case Exit =>
        if s.detached == [] && s.shutdownSeen && !s.exited then s.(exited := true, freed := s.queue, queue := []) else s
      case _ => s
  }

  // ----- the invariant -----

  function Live(s: State): seq<Command> {
    s.detached + s.queue
  }

  function Commands(ds: seq<Done>): (r: seq<Command>)
    ensures |r| == |ds| && forall i :: 0 <= i < |ds| ==> r[i] == ds[i].cmd
  {
    seq(|ds|, i requires 0 <= i < |ds| => ds[i].cmd)
  }

  /** Every accepted command was processed, or is still on its way: each once, in the order of acceptance. */
  ghost predicate Accounted(s: State) {
    s.accepted == Commands(s.processed) + Live(s) && Numbered(s.accepted)
  }

  ghost predicate Numbered(cmds: seq<Command>) {
    forall i :: 0 <= i < |cmds| ==> cmds[i].serial == i
  }

  /** Until shutdown is requested there is no such command; then it is the last one ever accepted, and on its way until
      the worker has seen it. */
  ghost predicate ShutdownLast(s: State) {
    && (s.accepting <==> !s.shutdownQueued)
    && (forall i :: 0 <= i < |s.accepted| && s.accepted[i].kind == Shutdown ==> s.shutdownQueued && i == |s.accepted| - 1)
    && (s.shutdownQueued ==> s.accepted != [] && s.accepted[|s.accepted| - 1].kind == Shutdown)
    && (s.shutdownSeen ==> s.shutdownQueued && Live(s) == [])
    && (s.shutdownQueued && !s.shutdownSeen ==> Live(s) != [])
    && (s.exited ==> s.shutdownSeen) && s.freed == []
  }

  ghost predicate NoWaiter(cmds: seq<Command>) {
    forall i :: 0 <= i < |cmds| ==> cmds[i].waiter.None?
  }

  /** Exactly one of the commands carries the waiter. */
  ghost predicate OneWaiter(cmds: seq<Command>, cmd: Command) {
    exists k :: 0 <= k < |cmds| && cmds[k] == cmd && cmd.waiter.Some? && OnlyAt(cmds, k)
  }

  ghost predicate OnlyAt(cmds: seq<Command>, k: nat) {
    forall i :: 0 <= i < |cmds| && i != k ==> cmds[i].waiter.None?
  }

  /** What the holder of the waiter may rely on. */
  ghost predicate HolderInv(s: State, c: nat, pc: Client) {
    match pc
    case Idle => false
    case Acquired(kind) => kind != Shutdown && NoWaiter(Live(s))
    case Prepared(kind) => kind != Shutdown && NoWaiter(Live(s)) && !s.done
    case Waiting(cmd) =>
      && cmd.waiter == Some(c)
      && (if s.done then NoWaiter(Live(s)) && Done(cmd, s.status) in s.processed else OneWaiter(Live(s), cmd))
    case Refused(_) => NoWaiter(Live(s))
    case Answered(cmd, status) => NoWaiter(Live(s)) && cmd.waiter == Some(c) && Done(cmd, status) in s.processed
  }

  /** The waiter is busy exactly while one client is inside a synchronous call. */
  ghost predicate Holding(s: State) {
    if s.busy then
      exists c :: 0 <= c < |s.clients| && HolderInv(s, c, s.clients[c]) && OthersIdle(s.clients, c)
    else
      NoWaiter(Live(s)) && forall c :: 0 <= c < |s.clients| ==> s.clients[c] == Idle
  }

  ghost predicate OthersIdle(clients: seq<Client>, c: nat) {
    forall d :: 0 <= d < |clients| && d != c ==> clients[d] == Idle
  }

  ghost predicate Inv(s: State) {
    Accounted(s) && ShutdownLast(s) && Holding(s)
  }

  function Start(clients: nat): State {
    State([], [], true, false, false, false, 0, false, false, seq(clients, i => Idle), [], [], [])
  }

  lemma StartInv(clients: nat)
    ensures Inv(Start(clients))
  {
  }

  // ----- accounting and shutdown -----

  lemma CommandsAppend(ds: seq<Done>, d: Done)
    ensures Commands(ds + [d]) == Commands(ds) + [d.cmd]
  {
  }

  lemma PushKeeps(s: State, kind: Kind, waiter: Option<nat>)
    requires Accounted(s)
    ensures Accounted(Push(s, kind, waiter)) && Live(Push(s, kind, waiter)) == Live(s) + [Command(|s.accepted|, kind, waiter)]
  {
    var cmd := Command(|s.accepted|, kind, waiter);
    assert s.detached + (s.queue + [cmd]) == s.detached + s.queue + [cmd];
    assert Commands(s.processed) + (Live(s) + [cmd]) == Commands(s.processed) + Live(s) + [cmd];
  }

  lemma PushShutdownLast(s: State, kind: Kind, waiter: Option<nat>)
    requires Accounted(s) && ShutdownLast(s) && s.accepting && kind != Shutdown
    ensures ShutdownLast(Push(s, kind, waiter))
  {
    PushKeeps(s, kind, waiter);
  }

  lemma ProcessAccounted(s: State, result: int)
    requires Accounted(s) && s.detached != []
    ensures Accounted(Apply(s, Process(result))) && Live(Apply(s, Process(result))) == Live(s)[1..]
  {
    var d := Done(s.detached[0], result);
    CommandsAppend(s.processed, d);
    assert s.detached == [s.detached[0]] + s.detached[1..];
    assert Live(s)[1..] == s.detached[1..] + s.queue;
    assert Commands(s.processed) + Live(s) == Commands(s.processed) + [d.cmd] + Live(s)[1..];
  }

  /** The shutdown command is the last one accepted, so nothing is left behind it when it is processed. */
  lemma ProcessShutdownLast(s: State, result: int)
    requires Accounted(s) && ShutdownLast(s) && s.detached != []
    ensures ShutdownLast(Apply(s, Process(result)))
  {
    ProcessAccounted(s, result);
    var k := |s.processed|;
    assert s.accepted[k] == Live(s)[0] == s.detached[0];
    assert |s.accepted| == k + |Live(s)|;
  }

  // ----- the waiter -----

  lemma AppendAsync(cmds: seq<Command>, e: Command, cmd: Command)
    requires e.waiter.None?
    ensures NoWaiter(cmds) ==> NoWaiter(cmds + [e])
    ensures OneWaiter(cmds, cmd) ==> OneWaiter(cmds + [e], cmd)
  {
    if OneWaiter(cmds, cmd) {
      var k :| 0 <= k < |cmds| && cmds[k] == cmd && cmd.waiter.Some? && OnlyAt(cmds, k);
      assert (cmds + [e])[k] == cmd && OnlyAt(cmds + [e], k);
    }
  }

  lemma AppendWaiter(cmds: seq<Command>, cmd: Command)
    requires NoWaiter(cmds) && cmd.waiter.Some?
    ensures OneWaiter(cmds + [cmd], cmd)
  {
    assert (cmds + [cmd])[|cmds|] == cmd && OnlyAt(cmds + [cmd], |cmds|);
  }

  lemma DropHead(cmds: seq<Command>, cmd: Command)
    requires cmds != [] && OneWaiter(cmds, cmd)
    ensures cmds[0].waiter.Some? ==> cmds[0] == cmd && NoWaiter(cmds[1..])
    ensures cmds[0].waiter.None? ==> OneWaiter(cmds[1..], cmd)
  {
    var k :| 0 <= k < |cmds| && cmds[k] == cmd && cmd.waiter.Some? && OnlyAt(cmds, k);
    if k > 0 {
      assert cmds[1..][k - 1] == cmd && OnlyAt(cmds[1..], k - 1);
    }
  }

  /** A command without waiter joins the queue: no client notices. */
  lemma AsyncHolds(s: State, t: State, e: Command)
    requires Holding(s) && e.waiter.None? && Live(t) == Live(s) + [e]
    requires t.busy == s.busy && t.done == s.done && t.status == s.status && t.clients == s.clients && t.processed == s.processed
    ensures Holding(t)
  {
    hide NoWaiter, OneWaiter, Live;
    AppendAsync(Live(s), e, e);
    if s.busy {
      var c :| 0 <= c < |s.clients| && HolderInv(s, c, s.clients[c]) && OthersIdle(s.clients, c);
      if s.clients[c].Waiting? {
        AppendAsync(Live(s), e, s.clients[c].cmd);
      }
      assert HolderInv(t, c, t.clients[c]);
    }
  }

  lemma SameHolds(s: State, t: State)
    requires Holding(s) && Live(t) == Live(s)
    requires t.busy == s.busy && t.done == s.done && t.status == s.status && t.clients == s.clients && t.processed == s.processed
    ensures Holding(t)
  {
    hide NoWaiter, OneWaiter, Live;
    if s.busy {
      var c :| 0 <= c < |s.clients| && HolderInv(s, c, s.clients[c]) && OthersIdle(s.clients, c);
      assert HolderInv(t, c, t.clients[c]);
    }
  }

  /** The worker completes a command: if it carries the waiter, its owner's answer is now in place. */
  lemma ProcessHolds(s: State, result: int)
    requires Accounted(s) && Holding(s) && s.detached != []
    ensures Holding(Apply(s, Process(result)))
  {
    hide NoWaiter, OneWaiter, Live;
    var t := Apply(s, Process(result));
    ProcessAccounted(s, result);
    LiveHead(s);
    NoWaiterTail(Live(s));
    if s.busy {
      var c :| 0 <= c < |s.clients| && HolderInv(s, c, s.clients[c]) && OthersIdle(s.clients, c);
      var pc := s.clients[c];
      if pc.Waiting? && !s.done {
        DropHead(Live(s), pc.cmd);
      }
      assert forall d :: d in s.processed ==> d in t.processed;
      assert Done(s.detached[0], result) in t.processed by {
        assert t.processed[|s.processed|] == Done(s.detached[0], result);
      }
      assert HolderInv(t, c, t.clients[c]);
    }
  }

  lemma LiveHead(s: State)
    requires s.detached != []
    ensures Live(s) != [] && Live(s)[0] == s.detached[0]
  {
  }

  lemma NoWaiterTail(cmds: seq<Command>)
    requires cmds != []
    ensures NoWaiter(cmds) ==> cmds[0].waiter.None? && NoWaiter(cmds[1..])
  {
  }

  /** While one client holds the waiter, an action of any other client changes nothing. */
  lemma ClientHolds(s: State, c: nat, a: Action)
    requires Accounted(s) && ShutdownLast(s) && Holding(s) && c < |s.clients|
    ensures Holding(ClientAct(s, c, a))
  {
    hide NoWaiter, OneWaiter, Live, Accounted, ShutdownLast;
    var t := ClientAct(s, c, a);
    if t == s {
    } else if !s.busy {
      assert HolderInv(t, c, t.clients[c]) by {
        LiveIs(s, t);
      }
      assert OthersIdle(t.clients, c);
    } else {
      var h :| 0 <= h < |s.clients| && HolderInv(s, h, s.clients[h]) && OthersIdle(s.clients, h);
      assert h == c;
      OthersKept(s.clients, t.clients, c);
      if a.Enqueue? && s.accepting {
        EnqueueHolds(s, c);
      } else {
        LiveIs(s, t);
        if a.Release? {
          assert forall d :: 0 <= d < |t.clients| ==> t.clients[d] == Idle;
        } else {
          assert HolderInv(t, c, t.clients[c]);
        }
      }
    }
  }

  lemma LiveIs(s: State, t: State)
    requires t.detached == s.detached && t.queue == s.queue
    ensures Live(t) == Live(s)
  {
  }

  lemma OthersKept(cs: seq<Client>, ds: seq<Client>, c: nat)
    requires c < |cs| && |ds| == |cs| && ds == cs[c := ds[c]] && OthersIdle(cs, c)
    ensures OthersIdle(ds, c)
  {
  }

  lemma EnqueueHolds(s: State, c: nat)
    requires Accounted(s) && c < |s.clients| && s.clients[c].Prepared? && s.accepting
    requires HolderInv(s, c, s.clients[c])
    ensures var t := ClientAct(s, c, Enqueue(c)); HolderInv(t, c, t.clients[c]) && t.busy == s.busy
  {
    hide NoWaiter, OneWaiter;
    var cmd := Command(|s.accepted|, s.clients[c].kind, Some(c));
    PushKeeps(s, cmd.kind, cmd.waiter);
    AppendWaiter(Live(s), cmd);
    var t := ClientAct(s, c, Enqueue(c));
    assert Live(t) == Live(s) + [cmd];
  }

  lemma ClientAccounted(s: State, c: nat, a: Action)
    requires Accounted(s) && ShutdownLast(s) && c < |s.clients|
    requires s.clients[c].Prepared? ==> s.clients[c].kind != Shutdown
    ensures Accounted(ClientAct(s, c, a)) && ShutdownLast(ClientAct(s, c, a))
  {
    var pc := s.clients[c];
    if a.Enqueue? && pc.Prepared? && s.accepting {
      PushKeeps(s, pc.kind, Some(c));
      PushShutdownLast(s, pc.kind, Some(c));
    }
  }

  lemma PreparedKind(s: State, c: nat)
    requires Holding(s) && c < |s.clients| && s.clients[c].Prepared?
    ensures s.clients[c].kind != Shutdown
  {
    hide NoWaiter, OneWaiter;
    var h :| 0 <= h < |s.clients| && HolderInv(s, h, s.clients[h]) && OthersIdle(s.clients, h);
    assert h == c;
  }

  /** Every action keeps the protocol's invariant. */
  lemma ApplyKeeps(s: State, a: Action)
    requires Inv(s)
    ensures Inv(Apply(s, a))
  {
    if ByClient(a) {
      if a.c < |s.clients| {
        hide Accounted, ShutdownLast, Holding, ClientAct;
        if s.clients[a.c].Prepared? {
          PreparedKind(s, a.c);
        }
        ClientAccounted(s, a.c, a);
        ClientHolds(s, a.c, a);
      }
    } else {
      WorkerKeeps(s, a);
    }
  }

  lemma WorkerKeeps(s: State, a: Action)
    requires Inv(s) && !ByClient(a)
    ensures Inv(Apply(s, a))
  {
    match a
    case EnqueueAsync(kind) =>
      if s.accepting && kind != Shutdown {
        PushKeeps(s, kind, None);
        PushShutdownLast(s, kind, None);
        hide Accounted, ShutdownLast, Holding;
        AsyncHolds(s, Push(s, kind, None), Command(|s.accepted|, kind, None));
      }
    case RequestShutdown =>
      if !s.shutdownQueued {
        ShutdownKeeps(s);
      }
    case Detach =>
      DetachKeeps(s);
    case Process(result) =>
      if s.detached != [] {
        hide Accounted, ShutdownLast, Holding;
        ProcessAccounted(s, result);
        ProcessShutdownLast(s, result);
        ProcessHolds(s, result);
      }
    case Exit =>
      ExitKeeps(s);
    case _ =>
  }

  lemma ShutdownKeeps(s: State)
    requires Inv(s) && !s.shutdownQueued
    ensures Inv(Apply(s, RequestShutdown))
  {
    hide Holding;
    var cmd := Command(|s.accepted|, Shutdown, None);
    var t := Apply(s, RequestShutdown);
    PushKeeps(s, Shutdown, None);
    assert Live(t) == Live(s) + [cmd];
    AsyncHolds(s, t, cmd);
  }

  lemma DetachKeeps(s: State)
    requires Inv(s)
    ensures Inv(Apply(s, Detach))
  {
    hide Holding;
    var t := Apply(s, Detach);
    assert Live(t) == Live(s);
    SameHolds(s, t);
  }

  lemma ExitKeeps(s: State)
    requires Inv(s)
    ensures Inv(Apply(s, Exit))
  {
    hide Holding;
    var t := Apply(s, Exit);
    assert Live(t) == Live(s);
    SameHolds(s, t);
  }

  /** The commands on their way bear consecutive serial numbers, which end where the next one begins. */
  lemma LiveSerials(s: State)
    requires Accounted(s)
    ensures |s.processed| + |Live(s)| == |s.accepted|
    ensures forall i :: 0 <= i < |Live(s)| ==> Live(s)[i].serial == |s.processed| + i
  {
    var k := |s.processed|;
    forall i | 0 <= i < |Live(s)|
      ensures Live(s)[i].serial == k + i
    {
      assert s.accepted[k + i] == Live(s)[i];
    }
  }

  function Run(s: State, acts: seq<Action>): State
    decreases |acts|
  {
    if acts == [] then s else Run(Apply(s, acts[0]), acts[1..])
  }

  lemma {:induction false} RunKeeps(s: State, acts: seq<Action>)
    requires Inv(s)
    ensures Inv(Run(s, acts))
    decreases |acts|
  {
    hide Inv, Apply;
    if acts != [] {
      ApplyKeeps(s, acts[0]);
      RunKeeps(Apply(s, acts[0]), acts[1..]);
    }
  }

  /** What a client inside a synchronous call asked for. */
  function Asked(pc: Client): Option<Kind> {
    match pc
    case Idle => None
    case Acquired(kind) => Some(kind)
    case Prepared(kind) => Some(kind)
    case Waiting(cmd) => Some(cmd.kind)
    case Refused(kind) => Some(kind)
    case Answered(cmd, _) => Some(cmd.kind)
  }

  /** A client is about what it asked for from the time it takes the waiter until it gives it back, and it asks anew only
      by taking the waiter while it is free. */
  lemma ClientCarriesKind(s: State, a: Action, c: nat)
    requires c < |s.clients|
    ensures |Apply(s, a).clients| == |s.clients|
    ensures var pc, pc' := s.clients[c], Apply(s, a).clients[c];
            || pc' == Idle
            || Asked(pc') == Asked(pc)
            || (a == Acquire(c, Asked(pc').value) && pc == Idle && !s.busy)
  {
    if ByClient(a) && a.c < |s.clients| {
      OwnKind(s, a.c, a);
      hide ClientAct;
    }
  }

  lemma OwnKind(s: State, c: nat, a: Action)
    requires c < |s.clients| && ByClient(a) && a.c == c
    ensures var t := ClientAct(s, c, a);
            && |t.clients| == |s.clients| && t.clients == s.clients[c := t.clients[c]]
            && (t.clients[c] == Idle || Asked(t.clients[c]) == Asked(s.clients[c])
                || (a == Acquire(c, Asked(t.clients[c]).value) && s.clients[c] == Idle && !s.busy))
  {
    hide Push;
    var t := ClientAct(s, c, a);
    match a
    case Enqueue(_) =>
      if s.clients[c].Prepared? {
        PushClients(s, s.clients[c].kind, Some(c));
        assert t.clients == s.clients[c := t.clients[c]];
      }
    case Acquire(_, kind) =>
      assert t.clients == s.clients[c := t.clients[c]];
    case Reset(_) =>
      assert t.clients == s.clients[c := t.clients[c]];
    case ReadStatus(_) =>
      assert t.clients == s.clients[c := t.clients[c]];
    case Release(_) =>
      assert t.clients == s.clients[c := t.clients[c]];
  }

  lemma PushClients(s: State, kind: Kind, waiter: Option<nat>)
    ensures Push(s, kind, waiter).clients == s.clients
  {
  }

  /** An accepted command asks for what its client asked for, at the end of the queue. */
  lemma EnqueuedAsAsked(s: State, c: nat)
    requires c < |s.clients| && s.clients[c].Prepared?
    ensures var t := Apply(s, Enqueue(c));
            if s.accepting then
              && t.clients[c].Waiting? && t.queue == s.queue + [t.clients[c].cmd]
              && t.clients[c].cmd.kind == s.clients[c].kind && t.clients[c].cmd.waiter == Some(c)
            else t.clients[c] == Refused(s.clients[c].kind) && t.queue == s.queue
  {
  }

  // ----- what it gives -----

  /** In every run: the commands processed so far are a prefix of those accepted, in that order and each once; the rest
      is on its way; nothing is accepted after a shutdown command; and the worker's exit frees no command unprocessed. */
  lemma CommandsProcessedInOrder(clients: nat, acts: seq<Action>)
    ensures var s := Run(Start(clients), acts);
            && s.accepted == Commands(s.processed) + s.detached + s.queue
            && (forall i, j :: 0 <= i < j < |s.accepted| ==> s.accepted[i] != s.accepted[j])
            && (forall i :: 0 <= i < |s.accepted| && s.accepted[i].kind == Shutdown ==> i == |s.accepted| - 1)
            && (s.exited ==> s.detached == [] && s.queue == [] && s.accepted == Commands(s.processed))
            && s.freed == []
  {
    hide Run, Holding;
    StartInv(clients);
    RunKeeps(Start(clients), acts);
    var s := Run(Start(clients), acts);
    assert Commands(s.processed) + (s.detached + s.queue) == Commands(s.processed) + s.detached + s.queue;
    assert s.exited ==> |s.detached + s.queue| == 0;
    assert Commands(s.processed) + [] == Commands(s.processed);
  }

  /** In every run, a client that waits has its command queued, detached or completed; at most one command on its way
      carries the waiter; and a client that was answered got the status of its own command. */
  lemma WaitersAnswered(clients: nat, acts: seq<Action>, c: nat)
    requires c < |Run(Start(clients), acts).clients|
    ensures var s := Run(Start(clients), acts);
            var pc := s.clients[c];
            && (pc.Waiting? ==>
                  && pc.cmd.waiter == Some(c)
                  && (if s.done then Done(pc.cmd, s.status) in s.processed else pc.cmd in s.detached + s.queue))
            && (pc.Answered? ==> pc.cmd.waiter == Some(c) && Done(pc.cmd, pc.status) in s.processed)
    ensures AtMostOneWaiter(Live(Run(Start(clients), acts)))
  {
    hide Run, Accounted, ShutdownLast;
    StartInv(clients);
    RunKeeps(Start(clients), acts);
    HolderAnswered(Run(Start(clients), acts), c);
  }

  ghost predicate AtMostOneWaiter(cmds: seq<Command>) {
    forall i, j :: 0 <= i < j < |cmds| ==> cmds[i].waiter.None? || cmds[j].waiter.None?
  }

  lemma HolderAnswered(s: State, c: nat)
    requires Holding(s) && c < |s.clients|
    ensures var pc := s.clients[c];
            && (pc.Waiting? ==>
                  && pc.cmd.waiter == Some(c)
                  && (if s.done then Done(pc.cmd, s.status) in s.processed else pc.cmd in Live(s)))
            && (pc.Answered? ==> pc.cmd.waiter == Some(c) && Done(pc.cmd, pc.status) in s.processed)
    ensures AtMostOneWaiter(Live(s))
  {
    if s.busy {
      var h :| 0 <= h < |s.clients| && HolderInv(s, h, s.clients[h]) && OthersIdle(s.clients, h);
      if s.clients[h].Waiting? && !s.done {
        OneIsAtMostOne(Live(s), s.clients[h].cmd);
      }
    }
  }

  lemma OneIsAtMostOne(cmds: seq<Command>, cmd: Command)
    requires OneWaiter(cmds, cmd)
    ensures cmd in cmds && AtMostOneWaiter(cmds)
  {
  }
}
