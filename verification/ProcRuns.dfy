/**
 Runs of the deadline scheduler (python/RtpProc_mod.c) as its callbacks see them: which calls each channel
 gets, and when. Callbacks are arbitrary; the clock value of each call is arbitrary.
 */
module ProcRuns {
  import opened Common

  /** What a callback does: asks for its next time, stops, or raises. */
  datatype CbResult = NextAt(t: nat) | Finished | Raised

  datatype Event =
    | Called(id: nat, now: nat, deadline: nat, result: CbResult)
    | Removed(id: nat)

  /** The channels the worker knows, each with its next deadline if it has one, and everything that happened. */
  datatype Machine = Machine(chans: map<nat, Option<nat>>, log: seq<Event>)

  datatype Step =
    | Add(id: nat, now: nat, result: CbResult)
    | Remove(id: nat)
    | RunDue(id: nat, now: nat, result: CbResult)
    | Stop

  const START := Machine(map[], [])

  /** The status of a command for which there was no memory. */
  const ENOMEM := 12

  /** The first deadline is raised to the time of the initial call. */
  function FirstDeadline(now: nat, result: CbResult): Option<nat> {
    match result
    case NextAt(t) => Some(if t < now then now else t)
    case _ => None
  }

  function NextDeadline(result: CbResult): Option<nat> {
    match result
    case NextAt(t) => Some(t)
    case _ => None
  }

  /** The position of the latest event of a channel. */
  function LastEvent(log: seq<Event>, id: nat): (r: Option<nat>)
    ensures r.Some? ==> r.value < |log| && log[r.value].id == id
    ensures r.Some? ==> forall j :: r.value < j < |log| ==> log[j].id != id
    ensures r.None? ==> forall j :: 0 <= j < |log| ==> log[j].id != id
  {
    if log == [] then None
    else if log[|log| - 1].id == id then Some(|log| - 1)
    else LastEvent(log[..|log| - 1], id)
  }

  /** Identifiers are handed out once; a channel runs only when its deadline has come and none is earlier. */
  ghost predicate Enabled(m: Machine, s: Step) {
    match s
    case Add(id, _, _) => LastEvent(m.log, id).None?
    case Remove(_) => true
    case RunDue(id, now, _) =>
      && id in m.chans && m.chans[id].Some? && m.chans[id].value <= now
      && forall other :: other in m.chans && m.chans[other].Some? ==> m.chans[id].value <= m.chans[other].value
    case Stop => true
  }

  function Next(m: Machine, s: Step): Machine {
    match s
    case Add(id, now, result) =>
      Machine(m.chans[id := FirstDeadline(now, result)], m.log + [Called(id, now, 0, result)])
    case Remove(id) =>
      Machine(m.chans - {id}, m.log + [Removed(id)])
    case RunDue(id, now, result) =>
      if id in m.chans && m.chans[id].Some? then
        Machine(m.chans[id := NextDeadline(result)], m.log + [Called(id, now, m.chans[id].value, result)])
      else m
    case Stop =>
      m.(chans := map[])
  }

  ghost predicate EnabledRun(m: Machine, steps: seq<Step>)
    decreases |steps|
  {
    steps == [] || (Enabled(m, steps[0]) && EnabledRun(Next(m, steps[0]), steps[1..]))
  }

  function Run(m: Machine, steps: seq<Step>): Machine
    decreases |steps|
  {
    if steps == [] then m else Run(Next(m, steps[0]), steps[1..])
  }

  // ----- what a log must look like -----

  /** The deadline the event at i gives its channel: none unless it is a call that asked for a time; the answer to a
      channel's initial call is raised to the time of that call. */
  function DeadlineAfter(log: seq<Event>, i: nat): Option<nat>
    requires i < |log|
  {
    match log[i]
    case Removed(_) => None
    case Called(id, now, _, result) =>
      if LastEvent(log[..i], id).None? then FirstDeadline(now, result) else NextDeadline(result)
  }

  /** A call is either its channel's first event, with deadline 0, or comes no earlier than, and with exactly, the
      deadline that its channel's previous event left. In particular it never follows a removal, an exception or a stop. */
  ghost predicate GoodCall(log: seq<Event>, j: nat)
    requires j < |log|
  {
    log[j].Called? ==>
      match LastEvent(log[..j], log[j].id)
      case None => log[j].deadline == 0
      case Some(i) =>
        && DeadlineAfter(log[..j], i) == Some(log[j].deadline)
        && log[j].deadline <= log[j].now
  }

  ghost predicate GoodLog(log: seq<Event>) {
    forall j :: 0 <= j < |log| ==> GoodCall(log, j)
  }

  /** The machine remembers, for each channel, exactly the deadline its latest event left. */
  ghost predicate Remembers(m: Machine) {
    forall id :: id in m.chans ==>
      var last := LastEvent(m.log, id);
      last.Some? && m.log[last.value].Called? && m.chans[id] == DeadlineAfter(m.log, last.value)
  }

  lemma LastEventAppend(log: seq<Event>, e: Event, id: nat)
    ensures LastEvent(log + [e], id) == if e.id == id then Some(|log|) else LastEvent(log, id)
  {
    assert (log + [e])[..|log|] == log;
  }

  lemma DeadlineAfterAppend(log: seq<Event>, e: Event, i: nat)
    requires i < |log|
    ensures DeadlineAfter(log + [e], i) == DeadlineAfter(log, i)
  {
    assert (log + [e])[..i] == log[..i];
  }

  lemma GoodLogAppend(log: seq<Event>, e: Event)
    requires GoodLog(log)
    requires e.Called? ==>
               match LastEvent(log, e.id)
               case None => e.deadline == 0
               case Some(i) => DeadlineAfter(log, i) == Some(e.deadline) && e.deadline <= e.now
    ensures GoodLog(log + [e])
  {
    hide LastEvent, DeadlineAfter;
    var more := log + [e];
    forall j | 0 <= j < |more|
      ensures GoodCall(more, j)
    {
      assert more[..j] == log[..j];
      if j < |log| {
        assert GoodCall(log, j);
      } else {
        assert log[..j] == log;
      }
    }
  }

  lemma RemembersAppend(m: Machine, e: Event, chans: map<nat, Option<nat>>)
    requires Remembers(m)
    requires forall id :: id in chans && id != e.id ==> id in m.chans && chans[id] == m.chans[id]
    requires e.id in chans ==> e.Called? && chans[e.id] == DeadlineAfter(m.log + [e], |m.log|)
    ensures Remembers(Machine(chans, m.log + [e]))
  {
    hide LastEvent, DeadlineAfter;
    forall id | id in chans
      ensures var last := LastEvent(m.log + [e], id);
              && last.Some? && last.value < |m.log| + 1 && (m.log + [e])[last.value].Called?
              && chans[id] == DeadlineAfter(m.log + [e], last.value)
    {
      LastEventAppend(m.log, e, id);
      if id != e.id {
        DeadlineAfterAppend(m.log, e, LastEvent(m.log, id).value);
      }
    }
  }

  lemma OwnDeadline(log: seq<Event>, e: Event)
    requires e.Called?
    ensures DeadlineAfter(log + [e], |log|) ==
            if LastEvent(log, e.id).None? then FirstDeadline(e.now, e.result) else NextDeadline(e.result)
  {
    assert (log + [e])[..|log|] == log;
  }

  lemma NextKeeps(m: Machine, s: Step)
    requires Remembers(m) && GoodLog(m.log) && Enabled(m, s)
    ensures Remembers(Next(m, s)) && GoodLog(Next(m, s).log)
  {
    hide LastEvent, DeadlineAfter, GoodLog;
    match s
    case Add(id, now, result) =>
      var e := Called(id, now, 0, result);
      GoodLogAppend(m.log, e);
      OwnDeadline(m.log, e);
      RemembersAppend(m, e, Next(m, s).chans);
    case Remove(id) =>
      GoodLogAppend(m.log, Removed(id));
      RemembersAppend(m, Removed(id), Next(m, s).chans);
    case RunDue(id, now, result) =>
      var e := Called(id, now, m.chans[id].value, result);
      GoodLogAppend(m.log, e);
      OwnDeadline(m.log, e);
      RemembersAppend(m, e, Next(m, s).chans);
    case Stop =>
  }

  lemma {:induction false} RunKeeps(m: Machine, steps: seq<Step>)
    requires Remembers(m) && GoodLog(m.log) && EnabledRun(m, steps)
    ensures Remembers(Run(m, steps)) && GoodLog(Run(m, steps).log)
    decreases |steps|
  {
    hide Remembers, GoodLog, Enabled, Next;
    if steps != [] {
      NextKeeps(m, steps[0]);
      RunKeeps(Next(m, steps[0]), steps[1..]);
    }
  }

  /** Over every run from the start: each channel is called first with deadline 0, then only with, and not before, the
      time it asked for last, and never again once it stopped, raised or was removed. */
  lemma RunsAreGood(steps: seq<Step>)
    requires EnabledRun(START, steps)
    ensures GoodLog(Run(START, steps).log)
  {
    RunKeeps(START, steps);
  }

  /** Spelled out: once a channel stopped, raised or was removed, no later event of it is a call. */
  lemma {:induction false} NeverAgain(log: seq<Event>, i: nat, j: nat)
    requires GoodLog(log) && i < j < |log| && log[j].id == log[i].id
    requires log[i].Removed? || !log[i].result.NextAt?
    ensures log[j].Removed?
    decreases j
  {
    var before := log[..j];
    assert forall k :: 0 <= k < j ==> before[k] == log[k];
    assert before[i].id == log[i].id;
    var k := LastEvent(before, log[i].id).value;
    if k > i {
      NeverAgain(log, i, k);
    }
    assert GoodCall(log, j);
    assert DeadlineAfter(before, k) == None;
  }

  /** Neighbouring events of a channel. */
  ghost predicate Follows(log: seq<Event>, i: nat, j: nat) {
    && i < j < |log| && log[i].id == log[j].id
    && forall k :: i < k < j ==> log[k].id != log[i].id
  }

  /** The first event of a channel. */
  ghost predicate IsFirst(log: seq<Event>, i: nat) {
    i < |log| && forall k :: 0 <= k < i ==> log[k].id != log[i].id
  }

  /** Spelled out: the first call of a channel has deadline 0. Every later one comes after a call that asked for a time t,
      has that time as its deadline, raised to the time of the call that asked if that was the first, and is not early. */
  lemma CallFollows(log: seq<Event>, i: nat, j: nat)
    requires GoodLog(log) && j < |log| && log[j].Called?
    ensures IsFirst(log, j) ==> log[j].deadline == 0
    ensures Follows(log, i, j) ==>
              && log[i].Called? && log[i].result.NextAt? && log[j].now >= log[j].deadline
              && log[j].deadline == (if IsFirst(log, i) && log[i].result.t < log[i].now then log[i].now else log[i].result.t)
  {
    var before := log[..j];
    assert forall k :: 0 <= k < j ==> before[k] == log[k];
    assert GoodCall(log, j);
    var last := LastEvent(before, log[j].id);
    if IsFirst(log, j) {
      assert last.None?;
    }
    if Follows(log, i, j) {
      assert before[i].id == log[j].id;
      assert last == Some(i);
      assert before[..i] == log[..i];
      var earlier := LastEvent(log[..i], log[i].id);
      assert forall k :: 0 <= k < i ==> log[..i][k] == log[k];
      assert earlier.None? <==> IsFirst(log, i);
    }
  }
}
