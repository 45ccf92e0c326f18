/**
 The command queue of src/rtp_sync.c: an intrusive singly linked list with head and tail pointers, the link of each
 command kept inside the command. A detached list is walked by the worker while clients go on pushing, and both
 lists thread through the same links. Each operation here performs one action of the command protocol.
 */
module Sync {
  import opened Common
  import opened CommandProtocol

  /** A pointer to a command, which goes by its serial number. */
  datatype Ptr = Null | To(cmd: nat)

  /** Following the links from p visits exactly these commands and ends. */
  ghost predicate Chain(p: Ptr, next: map<nat, Ptr>, cmds: seq<nat>)
    decreases |cmds|
  {
    if cmds == [] then p == Null
    else p == To(cmds[0]) && cmds[0] in next && Chain(next[cmds[0]], next, cmds[1..])
  }

  function Serials(cmds: seq<Command>): (r: seq<nat>)
    ensures |r| == |cmds| && forall i :: 0 <= i < |cmds| ==> r[i] == cmds[i].serial
  {
    seq(|cmds|, i requires 0 <= i < |cmds| => cmds[i].serial)
  }

  /** The links of these commands are the same in both. */
  ghost predicate SameLinks(next: map<nat, Ptr>, next': map<nat, Ptr>, cmds: seq<nat>) {
    forall c :: c in cmds && c in next ==> c in next' && next'[c] == next[c]
  }

  /** A chain none of whose links changed is still the same chain. */
  lemma {:induction false} ChainKept(p: Ptr, next: map<nat, Ptr>, next': map<nat, Ptr>, cmds: seq<nat>)
    requires Chain(p, next, cmds) && SameLinks(next, next', cmds)
    ensures Chain(p, next', cmds)
    decreases |cmds|
  {
    if cmds != [] {
      assert cmds[0] in cmds;
      ChainKept(next[cmds[0]], next, next', cmds[1..]);
    }
  }

  /** An action by which the queue receives a command. */
  predicate Accepts(s: State, a: Action) {
    match a
    case Enqueue(c) => c < |s.clients| && s.clients[c].Prepared? && s.accepting
    case EnqueueAsync(kind) => s.accepting && kind != Shutdown
    case RequestShutdown => !s.shutdownQueued
    case _ => false
  }

  lemma PushQueue(s: State, kind: Kind, waiter: Option<nat>)
    ensures var t := CommandProtocol.Push(s, kind, waiter);
            && |t.queue| == |s.queue| + 1 && t.queue[..|s.queue|] == s.queue && t.queue[|s.queue|].serial == |s.accepted|
            && t.detached == s.detached
  {
  }

  lemma AcceptsPushes(s: State, a: Action)
    requires Accepts(s, a)
    ensures var t := Apply(s, a);
            && |t.queue| == |s.queue| + 1 && t.queue[..|s.queue|] == s.queue && t.queue[|s.queue|].serial == |s.accepted|
            && t.detached == s.detached
  {
    hide CommandProtocol.Push;
    match a
    case Enqueue(c) => PushQueue(s, s.clients[c].kind, Some(c));
    case EnqueueAsync(kind) => PushQueue(s, kind, None);
    case RequestShutdown => PushQueue(s, Shutdown, None);
  }

  class CommandQueue {
    var head: Ptr
    var tail: Ptr
    /** The links inside the commands that are allocated. */
    var next: map<nat, Ptr>
    /** Where the worker stands in the list it detached. */
    var walk: Ptr
    ghost var state: State

    ghost predicate Valid()
      reads this
    {
      Inv(state) && Threads(head, tail, walk, next, Serials(state.queue), Serials(state.detached))
    }

    constructor (clients: nat)
      ensures Valid() && state == Start(clients)
    {
      head, tail, next, walk, state := Null, Null, map[], Null, Start(clients);
      StartInv(clients);
    }

    /** rtp_sync_cmdq_push. Only the links of the new command and of the old tail are written, so the list the worker is
        walking stays what it is. */
    method Push(cmd: nat, ghost a: Action)
      requires Valid() && Accepts(state, a) && cmd == |state.accepted|
      modifies this
      ensures Valid() && state == Apply(old(state), a) && walk == old(walk)
      ensures forall c :: c in old(next) && c != cmd && old(tail) != To(c) ==> c in next && next[c] == old(next)[c]
    {
      hide Inv, Apply, Threads;
      ApplyKeeps(state, a);
      AcceptsPushes(state, a);
      SerialsApart(state);
      SerialsAppend(state.queue, Apply(state, a).queue);
      PushThreads(head, tail, walk, next, Serials(state.queue), Serials(state.detached), cmd);
      next := next[cmd := Null];
      if tail != Null {
        next := next[tail.cmd := To(cmd)];
        tail := To(cmd);
      } else {
        head := To(cmd);
        tail := To(cmd);
      }
      state := Apply(state, a);
    }

    /** rtp_sync_cmdq_detach_all: the whole chain is handed over at once and the queue is empty. */
    method DetachAll()
      requires Valid() && walk == Null && !state.shutdownSeen && !state.exited
      modifies this`head, this`tail, this`walk, this`state
      ensures Valid() && state == Apply(old(state), Detach) && state.detached == old(state).queue && head == Null
    {
      hide Inv;
      assert Serials([]) == [];
      ApplyKeeps(state, Detach);
      walk := head;
      head, tail := Null, Null;
      state := Apply(state, Detach);
    }

    /** One turn of the worker's loop over the detached list: reads the link, completes the command, frees it, moves on. */
    method TakeNext(ghost result: int) returns (cmd: nat)
      requires Valid() && walk != Null
      modifies this`next, this`walk, this`state
      ensures Valid() && state == Apply(old(state), Process(result))
      ensures old(state).detached != [] && cmd == old(state).detached[0].serial
    {
      hide Inv;
      hide Threads;
      ApplyKeeps(state, Process(result));
      SerialsApart(state);
      TakeThreads(head, tail, walk, next, Serials(state.queue), Serials(state.detached));
      SerialsTail(state.detached);
      cmd := walk.cmd;
      walk := next[cmd];
      next := next - {cmd};
      state := Apply(state, Process(result));
    }
  }

  /** The chain from head is the queue, up to tail, and the chain from walk is what the worker has still to do. */
  ghost predicate Threads(head: Ptr, tail: Ptr, walk: Ptr, next: map<nat, Ptr>, queued: seq<nat>, detached: seq<nat>) {
    && Chain(head, next, queued) && Chain(walk, next, detached)
    && tail == (if queued == [] then Null else To(queued[|queued| - 1]))
  }

  /** Pushing writes two links, neither of which is in the detached chain. */
  lemma PushThreads(head: Ptr, tail: Ptr, walk: Ptr, next: map<nat, Ptr>, queued: seq<nat>, detached: seq<nat>, cmd: nat)
    requires Threads(head, tail, walk, next, queued, detached) && Distinct(queued) && cmd !in queued && cmd !in detached
    requires forall c :: c in queued ==> c !in detached
    ensures var ended := next[cmd := Null];
            if tail == Null then Threads(To(cmd), To(cmd), walk, ended, queued + [cmd], detached)
            else Threads(head, To(cmd), walk, ended[tail.cmd := To(cmd)], queued + [cmd], detached)
  {
    hide Chain;
    var ended := next[cmd := Null];
    if queued == [] {
      ChainOne(ended, cmd);
      ChainKept(walk, next, ended, detached);
      assert queued + [cmd] == [cmd];
    } else {
      ChainAppend(head, next, queued, cmd);
      assert tail.cmd in queued;
      ChainKept(walk, next, ended[tail.cmd := To(cmd)], detached);
    }
  }

  /** Freeing the head of the detached chain leaves its rest and the queue. */
  lemma TakeThreads(head: Ptr, tail: Ptr, walk: Ptr, next: map<nat, Ptr>, queued: seq<nat>, detached: seq<nat>)
    requires Threads(head, tail, walk, next, queued, detached) && walk != Null
    requires Distinct(detached) && forall c :: c in queued ==> c !in detached
    ensures detached != [] && walk == To(detached[0]) && walk.cmd in next
    ensures Threads(head, tail, next[walk.cmd], next - {walk.cmd}, queued, detached[1..])
  {
    var c := walk.cmd;
    assert detached[0] in detached;
    hide Chain;
    ChainKept(head, next, next - {c}, queued);
    ChainKept(next[c], next, next - {c}, detached[1..]);
  }

  lemma SerialsTail(cmds: seq<Command>)
    requires cmds != []
    ensures Serials(cmds[1..]) == Serials(cmds)[1..]
  {
  }

  lemma ChainOne(next: map<nat, Ptr>, cmd: nat)
    requires cmd in next && next[cmd] == Null
    ensures Chain(To(cmd), next, [cmd])
  {
    assert [cmd][1..] == [];
  }

  lemma SerialsAppend(cmds: seq<Command>, more: seq<Command>)
    requires |more| == |cmds| + 1 && more[..|cmds|] == cmds
    ensures Serials(more) == Serials(cmds) + [more[|cmds|].serial]
  {
    assert forall i :: 0 <= i < |cmds| ==> more[i] == more[..|cmds|][i];
  }

  /** Queued and detached commands are distinct, and none of them is the next one to be accepted. */
  lemma SerialsApart(s: State)
    requires Inv(s)
    ensures Distinct(Serials(s.queue)) && Distinct(Serials(s.detached))
    ensures forall c :: c in Serials(s.queue) ==> c !in Serials(s.detached) && c < |s.accepted|
    ensures forall c :: c in Serials(s.detached) ==> c < |s.accepted|
  {
    hide Holding, ShutdownLast;
    LiveSerials(s);
    hide Accounted;
    var n := |s.detached|;
    assert forall i :: 0 <= i < n ==> Live(s)[i] == s.detached[i];
    assert forall i :: 0 <= i < |s.queue| ==> Live(s)[n + i] == s.queue[i];
  }

  /** Ending the new command and pointing the old tail at it appends it to the chain. */
  lemma {:induction false} ChainAppend(p: Ptr, next: map<nat, Ptr>, cmds: seq<nat>, cmd: nat)
    requires cmds != [] && Chain(p, next, cmds) && cmd !in cmds && Distinct(cmds)
    ensures Chain(p, next[cmd := Null][cmds[|cmds| - 1] := To(cmd)], cmds + [cmd])
    decreases |cmds|
  {
    var last := cmds[|cmds| - 1];
    var more := next[cmd := Null][last := To(cmd)];
    var rest := cmds[1..];
    assert (cmds + [cmd])[1..] == rest + [cmd];
    if rest == [] {
      assert Chain(Null, more, []);
      assert Chain(To(cmd), more, [cmd]) by {
        assert [cmd][1..] == [];
      }
      assert rest + [cmd] == [cmd];
    } else {
      assert rest[|rest| - 1] == last;
      ChainAppend(next[cmds[0]], next, rest, cmd);
      assert cmds[0] != last && cmds[0] != cmd;
    }
  }
}
