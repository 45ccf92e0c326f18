/**
 The scheduler state of python/RtpProc_mod.c in place: a growable array of channel slots with an intrusive
 list of deadlines threaded through it, and the worker's handling of commands and due channels.
 */
module ProcSchedule {
  import opened Common
  import opened ProcList
  import opened ProcRuns
  import CP = CommandProtocol
  import ProcSystem

  function CountActive(cs: seq<Channel>): nat {
    if cs == [] then 0 else CountActive(cs[..|cs| - 1]) + if cs[|cs| - 1].active then 1 else 0
  }

  /** The slots hold exactly the channels of the machine: one slot each, with its deadline. */
  ghost predicate Mirrors(cs: seq<Channel>, chans: map<nat, Option<nat>>) {
    && (forall i :: 0 <= i < |cs| && cs[i].active ==>
          cs[i].id in chans && chans[cs[i].id] == DeadlineOf(cs[i]))
    && (forall i, j :: 0 <= i < j < |cs| && cs[i].active && cs[j].active ==> cs[i].id != cs[j].id)
    && (forall id :: id in chans ==> Holds(cs, id))
  }

  ghost predicate Holds(cs: seq<Channel>, id: nat) {
    exists i :: 0 <= i < |cs| && cs[i].active && cs[i].id == id
  }

  function DeadlineOf(c: Channel): Option<nat> {
    if c.scheduled then Some(c.nextRun) else None
  }

  class Scheduler {
    var channels: seq<Channel>
    var block: nat
    var schedHead: Ptr
    var channelsActive: nat
    ghost var order: seq<nat>
    ghost var machine: Machine

    ghost predicate ListValid()
      reads this
    {
      ListInv(channels, block, schedHead, order)
    }

    ghost predicate Valid()
      reads this
    {
      && ListValid()
      && channelsActive == CountActive(channels)
      && Mirrors(channels, machine.chans)
      && Remembers(machine) && GoodLog(machine.log)
    }

    constructor ()
      ensures Valid() && machine == START
    {
      hide ListInv, Mirrors, CountActive;
      channels, block, schedHead, channelsActive := [], 0, Null, 0;
      order, machine := [], START;
      EmptyValid([], 0, []);
      EmptyMirrors([], map[]);
    }

    /** The walk along the list to the place of a deadline: behind every channel due no later. */
    method FindPlace(t: nat) returns (prev: Ptr, ghost k: nat)
      requires Linked(channels, block, schedHead, order)
      ensures InRange(order, |channels|) && PlaceFor(channels, order, t, k)
      ensures prev == if k == 0 then Null else At(block, order[k - 1])
    {
      hide Linked;
      LinkedRange(channels, block, schedHead, order);
      prev, k := Null, 0;
      var it := schedHead;
      LinkAt(channels, block, schedHead, order, 0);
      while it != Null && channels[it.slot].nextRun <= t
        invariant 0 <= k <= |order|
        invariant it == PtrAt(block, order, k) && (it != Null ==> it.slot < |channels|)
        invariant prev == if k == 0 then Null else At(block, order[k - 1])
        invariant forall m :: 0 <= m < k ==> channels[order[m]].nextRun <= t
        decreases |order| - k
      {
        LinkAt(channels, block, schedHead, order, k);
        prev := it;
        it := channels[it.slot].schedNext;
        k := k + 1;
      }
    }

    /** Links slot i in behind prev, or at the head. */
    method LinkBehind(prev: Ptr, i: nat, ghost k: nat)
      requires Linked(channels, block, schedHead, order) && k <= |order| && i < |channels| && i !in order
      requires prev == if k == 0 then Null else At(block, order[k - 1])
      modifies this`channels, this`schedHead
      ensures channels == LinkIn(old(channels), block, order, k, i)
      ensures schedHead == if k == 0 then At(block, i) else old(schedHead)
    {
      if prev == Null {
        channels := channels[i := channels[i].(schedNext := schedHead)];
        schedHead := At(block, i);
      } else {
        assert order[k - 1] in order;
        assert channels[order[k - 1]].schedNext == PtrAt(block, order, k);
        channels := channels[i := channels[i].(schedNext := channels[prev.slot].schedNext)];
        channels := channels[prev.slot := channels[prev.slot].(schedNext := At(block, i))];
      }
    }

    /** The walk along the list to a given slot. */
    method FindSlot(i: nat) returns (prev: Ptr, ghost k: nat)
      requires Linked(channels, block, schedHead, order) && i in order
      ensures k < |order| && order[k] == i
      ensures prev == if k == 0 then Null else At(block, order[k - 1])
    {
      hide Linked;
      prev, k := Null, 0;
      var it := schedHead;
      LinkAt(channels, block, schedHead, order, 0);
      while it != Null && it != At(block, i)
        invariant 0 <= k <= |order|
        invariant it == PtrAt(block, order, k)
        invariant prev == if k == 0 then Null else At(block, order[k - 1])
        invariant forall m :: 0 <= m < k ==> order[m] != i
        decreases |order| - k
      {
        LinkAt(channels, block, schedHead, order, k);
        prev := it;
        it := channels[it.slot].schedNext;
        k := k + 1;
      }
    }

    method Unschedule(i: nat)
      requires ListValid() && i < |channels|
      modifies this`channels, this`schedHead, this`order
      ensures ListValid()
      ensures Agree(old(channels)[i := old(channels)[i].(scheduled := false)], channels)
      ensures channels[i].schedNext == Null
    {
      hide Linked, SortedBy, Exact, Quiet, LinkOut, RemoveAt, Agree;
      SlotListed(channels, block, schedHead, order, i);
      if !channels[i].scheduled {
        return;
      }
      var prev, k := FindSlot(i);
      LinkedRange(channels, block, schedHead, order);
      UnscheduleKeeps(channels, block, schedHead, order, k);
      LinkOutAgrees(channels, order, k);
      UnlinkBehind(prev, i, k);
      order := RemoveAt(order, k);
    }

    /** Takes slot i out from behind prev, or from the head. */
    method UnlinkBehind(prev: Ptr, i: nat, ghost k: nat)
      requires k < |order| && InRange(order, |channels|) && order[k] == i
      requires prev == if k == 0 then Null else At(block, order[k - 1])
      modifies this`channels, this`schedHead
      ensures channels == LinkOut(old(channels), order, k) && |channels| == |old(channels)| && channels[i].schedNext == Null
      ensures schedHead == if k == 0 then old(channels)[i].schedNext else old(schedHead)
    {
      if prev == Null {
        schedHead := channels[i].schedNext;
      } else {
        channels := channels[prev.slot := channels[prev.slot].(schedNext := channels[i].schedNext)];
      }
      channels := channels[i := channels[i].(scheduled := false, schedNext := Null)];
    }

    method Schedule(i: nat, t: nat)
      requires ListValid() && i < |channels| && channels[i].active
      modifies this`channels, this`schedHead, this`order
      ensures ListValid()
      ensures Agree(old(channels)[i := old(channels)[i].(nextRun := t, scheduled := true)], channels)
    {
      hide Linked, SortedBy, Exact, PlaceFor, LinkIn, InsertAt;
      if channels[i].scheduled {
        Unschedule(i);
      }
      ghost var cs := channels;
      NotListed(channels, block, schedHead, order, i);
      var prev, k := FindPlace(t);
      ScheduleKeeps(channels, block, schedHead, order, k, i, t);
      ghost var cs1 := cs[i := cs[i].(nextRun := t, scheduled := true)];
      LinkedElsewhere(cs, block, schedHead, order, i, cs1[i]);
      channels := channels[i := channels[i].(nextRun := t, scheduled := true)];
      PlaceRange(cs, order, t, k);
      LinkBehind(prev, i, k);
      LinkInAgrees(cs1, block, order, k, i);
      order := InsertAt(order, k, i);
    }

    /** Takes the head of the list if it is due; its deadline is the smallest of all. */
    method PopDue(now: nat) returns (r: Option<nat>)
      requires ListValid()
      modifies this`channels, this`schedHead, this`order
      ensures ListValid() && |channels| == |old(channels)|
      ensures r.None? ==> channels == old(channels) && NothingDue(channels, now)
      ensures r.Some? ==>
                var i := r.value;
                && i < |channels| && old(channels)[i].active && old(channels)[i].scheduled && old(channels)[i].nextRun <= now
                && Earliest(old(channels), i)
                && Agree(old(channels)[i := old(channels)[i].(scheduled := false)], channels)
    {
      hide ListInv, LinkOut, RemoveAt, Agree;
      HeadIsEarliest(channels, block, schedHead, order);
      if schedHead == Null {
        return None;
      }
      var i := schedHead.slot;
      if channels[i].nextRun > now {
        return None;
      }
      UnscheduleKeeps(channels, block, schedHead, order, 0);
      LinkOutAgrees(channels, order, 0);
      LinkOutHead(channels, order);
      AgreeLength(channels, LinkOut(channels, order, 0), i);
      schedHead := channels[i].schedNext;
      channels := channels[i := channels[i].(scheduled := false, schedNext := Null)];
      order := RemoveAt(order, 0);
      return Some(i);
    }

    /** Builds the list afresh from the slots alone; whatever the links say is ignored. */
    method Rebuild()
      requires FreeUnscheduled(channels)
      modifies this`channels, this`schedHead, this`order
      ensures ListValid() && Agree(old(channels), channels)
    {
      hide Agree, Linked, SortedBy, BuiltUpTo, PlaceFor, LinkIn, InsertAt, ListInv, FreeUnscheduled;
      schedHead := Null;
      order := [];
      StartBuild(channels, block);
      var i := 0;
      while i < |channels|
        invariant 0 <= i <= |channels|
        invariant Agree(old(channels), channels)
        invariant Linked(channels, block, schedHead, order) && InRange(order, |channels|) && SortedBy(channels, order)
        invariant BuiltUpTo(channels, order, i)
      {
        var ch := channels[i];
        AgreeUnlink(channels, i);
        AgreeTrans(old(channels), channels, channels[i := ch.(schedNext := Null)]);
        if !ch.active || !ch.scheduled {
          BuiltSkip(channels, order, i);
          LinkedElsewhere(channels, block, schedHead, order, i, ch.(schedNext := Null));
          channels := channels[i := ch.(schedNext := Null)];
        } else {
          BuiltFresh(channels, order, i);
          LinkedElsewhere(channels, block, schedHead, order, i, ch.(schedNext := Null));
          channels := channels[i := ch.(schedNext := Null)];
          var prev, k := FindPlace(ch.nextRun);
          PlaceRange(channels, order, ch.nextRun, k);
          BuiltLink(channels, block, order, k, i);
          LinkInKeeps(channels, block, schedHead, order, k, i);
          ghost var before := channels;
          LinkBehind(prev, i, k);
          AgreeTrans(old(channels), before, channels);
          order := InsertAt(order, k, i);
          LinkedRange(channels, block, schedHead, order);
        }
        AgreeSize(old(channels), channels);
        i := i + 1;
      }
      FreeAgrees(old(channels), channels);
      BuiltAll(channels, block, schedHead, order);
    }

    /** Doubles the array until it is large enough. A reallocation may fail, and may move the array, after which no
        pointer into it is good until the list is rebuilt. */
    method EnsureCapacity(need: nat, moves: bool, hasMemory: bool) returns (ok: bool)
      requires ListValid()
      modifies this`channels, this`schedHead, this`order, this`block
      ensures ListValid()
      ensures !ok ==> channels == old(channels) && need > |channels| && (!hasMemory || need > SIZE_MAX / 2)
      ensures !hasMemory && need > |old(channels)| ==> !ok
      ensures ok && need > |old(channels)| ==> |channels| == Doubled(FirstCap(|old(channels)|), need)
      ensures ok ==> |channels| >= need && |channels| >= |old(channels)|
                     && Agree(old(channels) + EmptySlots(|channels| - |old(channels)|), channels)
    {
      hide Agree, ListInv;
      if need <= |channels| {
        AgreeSelf(channels);
        assert channels + EmptySlots(0) == channels;
        return true;
      }
      var newCap := FirstCap(|channels|);
      while newCap < need
        invariant newCap >= 1 && newCap >= |channels|
        invariant Doubled(newCap, need) == Doubled(FirstCap(|channels|), need)
        decreases need - newCap
      {
        if newCap > SIZE_MAX / 2 {
          return false;
        }
        newCap := newCap * 2;
      }
      if !hasMemory {
        return false;
      }
      GrowKeeps(channels, block, schedHead, order, newCap - |channels|);
      channels := channels + EmptySlots(newCap - |channels|);
      AgreeSelf(channels);
      ghost var grown := channels;
      if moves {
        if schedHead == Null {
          MoveEmpty(channels, block, order, block + 1);
          block := block + 1;
        } else {
          ListFree(channels, block, schedHead, order);
          block := block + 1;
          Rebuild();
          AgreeSize(grown, channels);
        }
      }
      return true;
    }

    /** The first free slot, growing the array when there is none. */
    method AllocSlot(moves: bool, hasMemory: bool) returns (slot: Option<nat>)
      requires ListValid()
      modifies this`channels, this`schedHead, this`order, this`block
      ensures ListValid()
      ensures |channels| >= |old(channels)| && Agree(old(channels) + EmptySlots(|channels| - |old(channels)|), channels)
      ensures slot.Some? ==> slot.value < |channels| && !channels[slot.value].active
      ensures |channels| == |old(channels)| || |channels| == if |old(channels)| == 0 then 4 else 2 * |old(channels)|
      ensures slot.Some? ==> forall i :: 0 <= i < slot.value ==> channels[i].active
      ensures slot.None? ==> AllActive(old(channels)) && (!hasMemory || 2 * |old(channels)| > SIZE_MAX / 2)
    {
      hide ListInv, Agree;
      AgreeSelf(channels);
      assert channels + EmptySlots(0) == channels;
      var i := 0;
      while i < |channels|
        invariant 0 <= i <= |channels|
        invariant forall j :: 0 <= j < i ==> channels[j].active
      {
        if !channels[i].active {
          return Some(i);
        }
        i := i + 1;
      }
      var oldCap := |channels|;
      var ok := EnsureCapacity(if oldCap == 0 then 4 else oldCap * 2, moves, hasMemory);
      if !ok {
        return None;
      }
      GrownSlots(old(channels), channels);
      return Some(oldCap);
    }

    method FindChannel(id: nat) returns (r: Option<nat>)
      ensures r.Some? ==> r.value < |channels| && channels[r.value].active && channels[r.value].id == id
      ensures r.None? ==> !Holds(channels, id)
    {
      var i := 0;
      while i < |channels|
        invariant 0 <= i <= |channels|
        invariant forall j :: 0 <= j < i ==> !(channels[j].active && channels[j].id == id)
      {
        if channels[i].active && channels[i].id == id {
          return Some(i);
        }
        i := i + 1;
      }
      return None;
    }

    /** Frees a slot, taking it out of the list first; a slot that is free already is left alone. */
    method ReleaseSlot(i: nat)
      requires ListValid() && i < |channels|
      modifies this`channels, this`schedHead, this`order
      ensures ListValid() && |channels| == |old(channels)|
      ensures if old(channels)[i].active then Agree(old(channels)[i := EMPTY_SLOT], channels) else channels == old(channels)
    {
      hide ListInv;
      if !channels[i].active {
        return;
      }
      Unschedule(i);
      ReleasedSlot(old(channels), channels, i);
      ReplaceQuiet(channels, block, schedHead, order, i, channels[i].(id := 0, active := false, nextRun := 0, schedNext := Null));
      channels := channels[i := channels[i].(id := 0, active := false, nextRun := 0, schedNext := Null)];
    }

    /** The worker's handling of an add command: a slot, the initial call with deadline 0, and the first deadline.
        Fails when no slot could be had. */
    method ProcessAdd(id: nat, now: nat, cb: (nat, nat, nat) -> CbResult, moves: bool, hasMemory: bool) returns (status: int)
      requires Valid() && LastEvent(machine.log, id).None?
      modifies this
      ensures Valid()
      ensures status == 0 || status == ENOMEM
      ensures status == 0 ==> machine == Next(old(machine), Add(id, now, cb(id, now, 0)))
      ensures status != 0 ==> machine == old(machine) && channelsActive == old(channelsActive)
      ensures status != 0 ==> AllActive(old(channels)) && (!hasMemory || 2 * |old(channels)| > SIZE_MAX / 2)
    {
      hide ListInv, Mirrors, Agree, CountActive, Remembers, GoodLog, LastEvent;
      var slot := AllocSlot(moves, hasMemory);
      ghost var chans := machine.chans;
      CountGrown(old(channels), |channels| - |old(channels)|);
      MirrorsGrown(old(channels), |channels| - |old(channels)|, chans);
      Transfer(old(channels) + EmptySlots(|channels| - |old(channels)|), channels, chans);
      if slot.None? {
        return ENOMEM;
      }
      var i := slot.value;
      ghost var before := channels;
      QuietSlot(channels, block, schedHead, order, i);
      FreshId(machine, id);
      var fresh0 := channels[i].(active := true, scheduled := false, id := id, nextRun := 0, schedNext := Null);
      ReplaceQuiet(channels, block, schedHead, order, i, fresh0);
      CountUpdate(channels, i, fresh0);
      channels := channels[i := fresh0];
      channelsActive := channelsActive + 1;
      var result := cb(id, now, 0);
      ghost var c := fresh0;
      if result.NextAt? {
        var t := if result.t < now then now else result.t;
        c := fresh0.(nextRun := t, scheduled := true);
        Schedule(i, t);
      } else {
        AgreeSelf(channels);
      }
      assert before[i := c] == before[i := fresh0][i := c];
      MirrorsSet(before, i, c, chans);
      CountUpdate(before, i, c);
      Transfer(before[i := c], channels, chans[id := DeadlineOf(c)]);
      NextKeeps(machine, Add(id, now, result));
      machine := Next(machine, Add(id, now, result));
      return 0;
    }

    /** The worker's handling of a remove command; an unknown channel is not an error. */
    method ProcessRemove(id: nat)
      requires Valid()
      modifies this
      ensures Valid() && machine == Next(old(machine), Remove(id))
    {
      hide ListInv, Mirrors, Agree, CountActive, Remembers, GoodLog, LastEvent;
      ghost var chans := machine.chans;
      NextKeeps(machine, Remove(id));
      machine := Next(machine, Remove(id));
      var r := FindChannel(id);
      if r.None? {
        NotHeld(channels, chans, id);
        return;
      }
      var i := r.value;
      ghost var before := channels;
      CountUpdate(before, i, EMPTY_SLOT);
      MirrorsRemove(before, i, chans);
      ReleaseSlot(i);
      Transfer(before[i := EMPTY_SLOT], channels, chans - {id});
      if channelsActive > 0 {
        channelsActive := channelsActive - 1;
      }
    }

    /** The worker's handling of one command, up to the status its waiter is given. */
    method ProcessCommand(kind: CP.Kind, now: nat, cb: (nat, nat, nat) -> CbResult, moves: bool, hasMemory: bool,
                          ghost s: ProcSystem.State) returns (status: int)
      requires Valid() && s.m == machine && s.p.detached != [] && s.p.detached[0].kind == kind
      requires kind.AddChannel? ==> LastEvent(machine.log, kind.id).None?
      modifies this
      ensures Valid()
      ensures var result := if kind.AddChannel? then cb(kind.id, now, 0) else Finished;
              var t := ProcSystem.Process(s, now, result, status == 0);
              machine == t.m && t.p == CP.Apply(s.p, CP.Process(status))
      ensures !kind.AddChannel? ==> status == 0
    {
      hide Valid, CP.Apply, Next, LastEvent;
      status := 0;
      match kind
      case AddChannel(id) =>
        status := ProcessAdd(id, now, cb, moves, hasMemory);
      case RemoveChannel(id) =>
        ProcessRemove(id);
      case Shutdown =>
    }

    /** One turn of the worker's inner loop: the earliest due channel, if any, is called with its own deadline and
        scheduled again for the time it asks for. */
    method RunOneDue(now: nat, cb: (nat, nat, nat) -> CbResult) returns (ran: Option<nat>)
      requires Valid()
      modifies this
      ensures Valid()
      ensures ran.None? ==> machine == old(machine) && NothingDue(channels, now)
      ensures ran.Some? ==>
                && ran.value in old(machine).chans && old(machine).chans[ran.value].Some?
                && var s := RunDue(ran.value, now, cb(ran.value, now, old(machine).chans[ran.value].value));
                   Enabled(old(machine), s) && machine == Next(old(machine), s)
    {
      hide ListInv, Mirrors, Agree, CountActive, Remembers, GoodLog, LastEvent, Earliest, NothingDue;
      ghost var before := channels;
      ghost var chans := machine.chans;
      var popped := PopDue(now);
      if popped.None? {
        return None;
      }
      var i := popped.value;
      DueEnabled(before, chans, i);
      var id := channels[i].id;
      var deadline := channels[i].nextRun;
      PoppedSlot(before, channels, i);
      ghost var c := before[i].(scheduled := false);
      var result := cb(id, now, deadline);
      if result.NextAt? {
        ghost var mid := channels;
        Schedule(i, result.t);
        c := before[i].(nextRun := result.t, scheduled := true);
        Rescheduled(before, mid, channels, i, result.t);
      }
      MirrorsSet(before, i, c, chans);
      CountUpdate(before, i, c);
      Transfer(before[i := c], channels, chans[id := DeadlineOf(c)]);
      ghost var s := RunDue(id, now, result);
      EnabledDue(machine, id, now, result);
      NextKeeps(machine, s);
      machine := Next(machine, s);
      return Some(id);
    }

    /** What the worker does on its way out: every channel is released. */
    method ClearChannels()
      requires Valid()
      modifies this
      ensures Valid() && machine == Next(old(machine), Stop) && channels == [] && schedHead == Null && channelsActive == 0
    {
      hide ListInv, Mirrors, Agree, CountActive, Remembers, GoodLog, LastEvent;
      var i := 0;
      while i < |channels|
        invariant 0 <= i <= |channels| == |old(channels)|
        invariant ListValid() && machine == old(machine)
      {
        ReleaseSlot(i);
        i := i + 1;
      }
      NextKeeps(machine, Stop);
      machine := Next(machine, Stop);
      channels, channelsActive, schedHead, order := [], 0, Null, [];
      EmptyValid([], block, []);
      EmptyMirrors([], map[]);
    }
  }

  ghost predicate AllActive(cs: seq<Channel>) {
    forall i :: 0 <= i < |cs| ==> cs[i].active
  }

  /** After growth the old slots are as active as before and the first new one is free. */
  lemma GrownSlots(cs: seq<Channel>, ds: seq<Channel>)
    requires |cs| < |ds| && Agree(cs + EmptySlots(|ds| - |cs|), ds)
    ensures forall i :: 0 <= i < |cs| ==> ds[i].active == cs[i].active
    ensures !ds[|cs|].active
  {
    var grown := cs + EmptySlots(|ds| - |cs|);
    assert grown[|cs|] == EMPTY_SLOT && forall i :: 0 <= i < |cs| ==> grown[i] == cs[i];
  }

  lemma AgreeSelf(cs: seq<Channel>)
    ensures Agree(cs, cs)
  {
  }

  lemma ListFree(cs: seq<Channel>, block: nat, head: Ptr, order: seq<nat>)
    requires ListInv(cs, block, head, order)
    ensures FreeUnscheduled(cs)
  {
  }

  lemma ReleasedSlot(cs: seq<Channel>, ds: seq<Channel>, i: nat)
    requires i < |cs| && Agree(cs[i := cs[i].(scheduled := false)], ds)
    ensures |ds| == |cs| && !ds[i].scheduled
    ensures Agree(cs[i := EMPTY_SLOT], ds[i := ds[i].(id := 0, active := false, nextRun := 0, schedNext := Null)])
  {
  }

  // ----- counting and mirroring -----

  lemma {:induction false} CountUpdate(cs: seq<Channel>, i: nat, c: Channel)
    requires i < |cs|
    ensures CountActive(cs[i := c]) ==
            CountActive(cs) - (if cs[i].active then 1 else 0) + (if c.active then 1 else 0)
    ensures cs[i].active ==> CountActive(cs) > 0
    decreases |cs|
  {
    var n := |cs| - 1;
    if i < n {
      CountUpdate(cs[..n], i, c);
      assert cs[i := c][..n] == cs[..n][i := c];
    } else {
      assert cs[i := c][..n] == cs[..n];
    }
  }

  lemma {:induction false} CountAgrees(cs: seq<Channel>, ds: seq<Channel>)
    requires Agree(cs, ds)
    ensures CountActive(ds) == CountActive(cs)
    decreases |cs|
  {
    if cs != [] {
      var n := |cs| - 1;
      CountAgrees(cs[..n], ds[..n]);
    }
  }

  lemma {:induction false} CountGrown(cs: seq<Channel>, n: nat)
    ensures CountActive(cs + EmptySlots(n)) == CountActive(cs)
    decreases n
  {
    if n == 0 {
      assert cs + EmptySlots(0) == cs;
    } else {
      CountGrown(cs, n - 1);
      var ds := cs + EmptySlots(n);
      assert ds[..|ds| - 1] == cs + EmptySlots(n - 1);
    }
  }

  lemma MirrorsAgrees(cs: seq<Channel>, ds: seq<Channel>, chans: map<nat, Option<nat>>)
    requires Agree(cs, ds) && Mirrors(cs, chans)
    ensures Mirrors(ds, chans)
  {
    forall id | id in chans
      ensures Holds(ds, id)
    {
      var i :| 0 <= i < |cs| && cs[i].active && cs[i].id == id;
      assert ds[i].active && ds[i].id == id;
    }
  }

  lemma MirrorsGrown(cs: seq<Channel>, n: nat, chans: map<nat, Option<nat>>)
    requires Mirrors(cs, chans)
    ensures Mirrors(cs + EmptySlots(n), chans)
  {
    var ds := cs + EmptySlots(n);
    assert forall i :: 0 <= i < |ds| && ds[i].active ==> i < |cs| && ds[i] == cs[i];
    forall id | id in chans
      ensures Holds(ds, id)
    {
      var i :| 0 <= i < |cs| && cs[i].active && cs[i].id == id;
      assert ds[i].active && ds[i].id == id;
    }
  }

  /** A channel enters a free slot, or changes its schedule in its own. */
  lemma MirrorsSet(cs: seq<Channel>, i: nat, c: Channel, chans: map<nat, Option<nat>>)
    requires Mirrors(cs, chans) && i < |cs| && c.active
    requires if cs[i].active then c.id == cs[i].id else c.id !in chans
    ensures Mirrors(cs[i := c], chans[c.id := DeadlineOf(c)])
  {
    var ds := cs[i := c];
    assert forall j :: 0 <= j < |cs| && j != i && cs[j].active ==> cs[j].id != c.id;
    forall id | id in chans || id == c.id
      ensures Holds(ds, id)
    {
      if id == c.id {
        assert ds[i].id == id;
      } else {
        var j :| 0 <= j < |cs| && cs[j].active && cs[j].id == id;
        assert ds[j].active && ds[j].id == id;
      }
    }
  }

  lemma MirrorsRemove(cs: seq<Channel>, i: nat, chans: map<nat, Option<nat>>)
    requires Mirrors(cs, chans) && i < |cs| && cs[i].active
    ensures Mirrors(cs[i := EMPTY_SLOT], chans - {cs[i].id})
  {
    var ds := cs[i := EMPTY_SLOT];
    assert forall j :: 0 <= j < |ds| && ds[j].active ==> j != i && ds[j] == cs[j] && cs[j].id != cs[i].id;
    forall id | id in chans - {cs[i].id}
      ensures Holds(ds, id)
    {
      var j :| 0 <= j < |cs| && cs[j].active && cs[j].id == id;
      assert ds[j].active && ds[j].id == id;
    }
  }

  /** Links aside, equal slots count and mirror alike. */
  lemma Transfer(cs: seq<Channel>, ds: seq<Channel>, chans: map<nat, Option<nat>>)
    requires Agree(cs, ds) && Mirrors(cs, chans)
    ensures CountActive(ds) == CountActive(cs) && Mirrors(ds, chans)
  {
    CountAgrees(cs, ds);
    MirrorsAgrees(cs, ds, chans);
  }

  lemma QuietSlot(cs: seq<Channel>, block: nat, head: Ptr, order: seq<nat>, i: nat)
    requires ListInv(cs, block, head, order) && i < |cs| && !cs[i].active
    ensures !cs[i].scheduled
  {
  }

  lemma FreshId(m: Machine, id: nat)
    requires Remembers(m) && LastEvent(m.log, id).None?
    ensures id !in m.chans
  {
  }

  lemma NotHeld(cs: seq<Channel>, chans: map<nat, Option<nat>>, id: nat)
    requires Mirrors(cs, chans) && !Holds(cs, id)
    ensures id !in chans && chans - {id} == chans
  {
  }

  lemma DueEnabled(cs: seq<Channel>, chans: map<nat, Option<nat>>, i: nat)
    requires Mirrors(cs, chans) && i < |cs| && cs[i].active && cs[i].scheduled && Earliest(cs, i)
    ensures cs[i].id in chans && chans[cs[i].id] == Some(cs[i].nextRun)
    ensures forall other :: other in chans && chans[other].Some? ==> cs[i].nextRun <= chans[other].value
  {
    forall other | other in chans && chans[other].Some?
      ensures cs[i].nextRun <= chans[other].value
    {
      assert Holds(cs, other);
      var j :| 0 <= j < |cs| && cs[j].active && cs[j].id == other;
    }
  }

  lemma EnabledDue(m: Machine, id: nat, now: nat, result: CbResult)
    requires id in m.chans && m.chans[id].Some? && m.chans[id].value <= now
    requires forall other :: other in m.chans && m.chans[other].Some? ==> m.chans[id].value <= m.chans[other].value
    ensures Enabled(m, RunDue(id, now, result))
  {
  }

  lemma PoppedSlot(cs: seq<Channel>, ds: seq<Channel>, i: nat)
    requires i < |cs| && Agree(cs[i := cs[i].(scheduled := false)], ds)
    ensures |ds| == |cs| && ds[i].active == cs[i].active && ds[i].id == cs[i].id && ds[i].nextRun == cs[i].nextRun
  {
  }

  lemma Rescheduled(cs: seq<Channel>, mid: seq<Channel>, ds: seq<Channel>, i: nat, t: nat)
    requires i < |cs| && Agree(cs[i := cs[i].(scheduled := false)], mid)
    requires |mid| == |cs| && Agree(mid[i := mid[i].(nextRun := t, scheduled := true)], ds)
    ensures Agree(cs[i := cs[i].(nextRun := t, scheduled := true)], ds)
  {
  }

  lemma StartBuild(cs: seq<Channel>, block: nat)
    ensures Agree(cs, cs) && Linked(cs, block, Null, []) && InRange([], |cs|) && SortedBy(cs, []) && BuiltUpTo(cs, [], 0)
  {
  }

  lemma BuiltFresh(cs: seq<Channel>, order: seq<nat>, n: nat)
    requires BuiltUpTo(cs, order, n) && n < |cs|
    ensures n !in order && BuiltUpTo(cs[n := cs[n].(schedNext := Null)], order, n)
  {
  }

  lemma AgreeSize(cs: seq<Channel>, ds: seq<Channel>)
    requires Agree(cs, ds)
    ensures |ds| == |cs|
  {
  }

  /** No active scheduled channel is due. */
  ghost predicate NothingDue(cs: seq<Channel>, now: nat) {
    forall i :: 0 <= i < |cs| && cs[i].active && cs[i].scheduled ==> cs[i].nextRun > now
  }

  /** No active scheduled channel has an earlier deadline. */
  ghost predicate Earliest(cs: seq<Channel>, i: nat)
    requires i < |cs|
  {
    forall j :: 0 <= j < |cs| && cs[j].active && cs[j].scheduled ==> cs[i].nextRun <= cs[j].nextRun
  }

  lemma HeadIsEarliest(cs: seq<Channel>, block: nat, head: Ptr, order: seq<nat>)
    requires ListInv(cs, block, head, order)
    ensures InRange(order, |cs|)
    ensures head == Null <==> order == []
    ensures head == Null ==> forall i :: 0 <= i < |cs| ==> !(cs[i].active && cs[i].scheduled)
    ensures head != Null ==>
              && head == At(block, order[0]) && head.slot < |cs|
              && cs[head.slot].active && cs[head.slot].scheduled && Earliest(cs, head.slot)
  {
    if order != [] {
      assert order[0] in order;
      forall j | 0 <= j < |cs| && cs[j].active && cs[j].scheduled
        ensures cs[order[0]].nextRun <= cs[j].nextRun
      {
        assert j in order;
      }
    }
  }

  lemma NotListed(cs: seq<Channel>, block: nat, head: Ptr, order: seq<nat>, i: nat)
    requires ListInv(cs, block, head, order) && i < |cs| && !cs[i].scheduled
    ensures i !in order && Linked(cs, block, head, order) && SortedBy(cs, order) && InRange(order, |cs|)
  {
  }

  lemma SlotListed(cs: seq<Channel>, block: nat, head: Ptr, order: seq<nat>, i: nat)
    requires ListInv(cs, block, head, order) && i < |cs|
    ensures cs[i].scheduled ==> i in order
    ensures !cs[i].scheduled ==> cs[i].schedNext == Null && cs[i := cs[i].(scheduled := false)] == cs
    ensures Agree(cs, cs)
  {
  }

  lemma LinkOutHead(cs: seq<Channel>, order: seq<nat>)
    requires order != [] && InRange(order, |cs|)
    ensures LinkOut(cs, order, 0) == cs[order[0] := cs[order[0]].(scheduled := false, schedNext := Null)]
  {
  }

  lemma AgreeLength(cs: seq<Channel>, ds: seq<Channel>, i: nat)
    requires i < |cs| && Agree(cs[i := cs[i].(scheduled := false)], ds)
    ensures |ds| == |cs|
  {
  }

  lemma EmptyValid(cs: seq<Channel>, block: nat, order: seq<nat>)
    requires |cs| == 0 && |order| == 0
    ensures ListInv(cs, block, Null, order) && CountActive(cs) == 0
  {
  }

  lemma EmptyMirrors(cs: seq<Channel>, chans: map<nat, Option<nat>>)
    requires |cs| == 0 && |chans| == 0
    ensures Mirrors(cs, chans)
  {
  }
}
