/**
 The tick arithmetic of the server's worker (python/RtpServer_mod.c): after a round of I/O the next tick is
 moved past the present by whole periods, so that all ticks lie on one grid.
 */
module TickClock {
  import opened Common

  /** The first point after now on the grid through next. */
  function NextTick(next: nat, now: nat, tick: nat): nat
    requires tick > 0 && next <= now
  {
    next + tick * ((now - next) / tick + 1)
  }

  lemma Steps(d: nat, tick: nat)
    requires tick > 0
    ensures tick * (d / tick) <= d < tick * (d / tick) + tick
  {
  }

  lemma Expand(tick: nat, k: nat)
    ensures tick * (k + 1) == tick * k + tick
  {
  }

  /** A point of the grid through a, k periods on. */
  ghost predicate OnGrid(a: nat, b: nat, tick: nat) {
    exists k: nat :: b == a + tick * k
  }

  /** The next tick lies within one period after now, and on the grid. */
  lemma NextTickWithin(next: nat, now: nat, tick: nat)
    requires tick > 0 && next <= now
    ensures now < NextTick(next, now, tick) <= now + tick && OnGrid(next, NextTick(next, now, tick), tick)
  {
    var k := (now - next) / tick;
    Steps(now - next, tick);
    Expand(tick, k);
    assert NextTick(next, now, tick) == next + tick * (k + 1);
  }

  /** It is the only such point. */
  lemma NextTickUnique(next: nat, now: nat, tick: nat, t: nat)
    requires tick > 0 && next <= now && now < t <= now + tick && OnGrid(next, t, tick)
    ensures t == NextTick(next, now, tick)
  {
    NextTickWithin(next, now, tick);
    var u := NextTick(next, now, tick);
    var j: nat :| t == next + tick * j;
    var k: nat :| u == next + tick * k;
    SamePoint(tick, j, k);
  }

  lemma SamePoint(tick: nat, j: nat, k: nat)
    requires tick > 0 && tick * j < tick * k + tick && tick * k < tick * j + tick
    ensures j == k
  {
    if j < k {
      MulMono(j + 1, k, tick);
    } else if k < j {
      MulMono(k + 1, j, tick);
    }
  }

  /** One more period leads to the same next tick as long as it does not pass it. */
  lemma OnePeriodOn(next: nat, now: nat, tick: nat)
    requires tick > 0 && next <= now
    ensures next + tick <= now ==> NextTick(next + tick, now, tick) == NextTick(next, now, tick)
    ensures next + tick > now ==> NextTick(next, now, tick) == next + tick
  {
    NextTickWithin(next, now, tick);
    if next + tick <= now {
      NextTickWithin(next + tick, now, tick);
      var t := NextTick(next + tick, now, tick);
      var k: nat :| t == next + tick + tick * k;
      Expand(tick, k);
      assert t == next + tick * (k + 1);
      NextTickUnique(next, now, tick, t);
    } else {
      assert next + tick == next + tick * 1;
      NextTickUnique(next, now, tick, next + tick);
    }
  }

  /** The catch-up loop: the next tick on the grid, or the present when that would not fit 64 bits. */
  method CatchUp(start: nat, now: nat, tick: nat) returns (next: nat)
    requires 0 < tick && start <= now <= UINT64_MAX
    ensures next == if NextTick(start, now, tick) <= UINT64_MAX then NextTick(start, now, tick) else now
  {
    next := start;
    OnePeriodOn(next, now, tick);
    NextTickWithin(next, now, tick);
    if UINT64_MAX - next < tick {
      return now;
    }
    next := next + tick;
    while next <= now
      invariant next <= UINT64_MAX
      invariant if next <= now then NextTick(next, now, tick) == NextTick(start, now, tick)
                else next == NextTick(start, now, tick)
      decreases now - next
    {
      OnePeriodOn(next, now, tick);
      NextTickWithin(next, now, tick);
      if UINT64_MAX - next < tick {
        return now;
      }
      next := next + tick;
    }
  }

  /** The period set from a frequency: at least one nanosecond. */
  function TickNs(hz: nat): (tick: nat)
    requires hz > 0
    ensures tick > 0
    ensures if hz <= 1000000000 then tick * hz <= 1000000000 < (tick + 1) * hz else tick == 1
  {
    if 1000000000 / hz == 0 then 1 else 1000000000 / hz
  }

  // ----- runs between idle resets -----

  /** One look at the clock with channels active: the times of I/O rounds so far and the tick that is next. */
  datatype Clock = Clock(next: nat, rounds: seq<nat>)

  function Look(c: Clock, now: nat, tick: nat): Clock
    requires tick > 0
  {
    var next := if c.next == 0 then now else c.next;
    if now < next then c.(next := next) else Clock(NextTick(next, now, tick), c.rounds + [now])
  }

  function Looks(c: Clock, nows: seq<nat>, tick: nat): Clock
    requires tick > 0
    decreases |nows|
  {
    if nows == [] then c else Looks(Look(c, nows[0], tick), nows[1..], tick)
  }

  /** The period of the grid through base in which a time falls. */
  function Period(base: nat, t: nat, tick: nat): int
    requires tick > 0
  {
    (t - base) / tick
  }

  /** All ticks on the grid through base; every round before the next tick; rounds in ever later periods. */
  ghost predicate Drifted(c: Clock, base: nat, tick: nat)
    requires tick > 0
  {
    && OnGrid(base, c.next, tick) && c.next > 0
    && (forall i :: 0 <= i < |c.rounds| ==> base <= c.rounds[i] < c.next)
    && (forall i, j :: 0 <= i < j < |c.rounds| ==> Period(base, c.rounds[i], tick) < Period(base, c.rounds[j], tick))
  }

  lemma PeriodBelow(base: nat, t: nat, next: nat, now: nat, tick: nat)
    requires tick > 0 && base <= t < next <= now && OnGrid(base, next, tick)
    ensures Period(base, t, tick) < Period(base, now, tick)
  {
    var k: nat :| next == base + tick * k;
    var p, q := Period(base, t, tick), Period(base, now, tick);
    Steps(t - base, tick);
    Steps(now - base, tick);
    if p >= k {
      MulMono(k, p, tick);
      assert false;
    }
    if q < k {
      Expand(tick, q);
      MulMono(q + 1, k, tick);
      assert false;
    }
  }

  lemma GridTrans(a: nat, b: nat, c: nat, tick: nat)
    requires OnGrid(a, b, tick) && OnGrid(b, c, tick)
    ensures OnGrid(a, c, tick)
  {
    var j: nat :| b == a + tick * j;
    var k: nat :| c == b + tick * k;
    assert c == a + tick * (j + k) by {
      assert tick * (j + k) == tick * j + tick * k;
    }
  }

  lemma LookKeeps(c: Clock, now: nat, base: nat, tick: nat)
    requires tick > 0 && Drifted(c, base, tick)
    ensures Drifted(Look(c, now, tick), base, tick)
  {
    hide Period, NextTick, OnGrid;
    if now >= c.next {
      var d := Look(c, now, tick);
      NextTickWithin(c.next, now, tick);
      GridTrans(base, c.next, d.next, tick);
      forall i | 0 <= i < |c.rounds|
        ensures Period(base, c.rounds[i], tick) < Period(base, now, tick)
      {
        PeriodBelow(base, c.rounds[i], c.next, now, tick);
      }
      GridAbove(base, c.next, tick);
    }
  }

  lemma GridAbove(a: nat, b: nat, tick: nat)
    requires OnGrid(a, b, tick)
    ensures a <= b
  {
  }

  lemma {:induction false} LooksKeep(c: Clock, nows: seq<nat>, base: nat, tick: nat)
    requires tick > 0 && Drifted(c, base, tick)
    ensures Drifted(Looks(c, nows, tick), base, tick)
    decreases |nows|
  {
    if nows != [] {
      LookKeeps(c, nows[0], base, tick);
      LooksKeep(Look(c, nows[0], tick), nows[1..], base, tick);
    }
  }

  /** From an idle reset on, whatever the clock shows: ticks never leave the grid of the first round, and no period
      sees two rounds. */
  lemma TicksStayOnGrid(nows: seq<nat>, tick: nat)
    requires tick > 0 && nows != []
    ensures var c := Looks(Clock(0, []), nows, tick);
            && OnGrid(nows[0], c.next, tick)
            && |c.rounds| >= 1 && c.rounds[0] == nows[0]
            && forall i, j :: 0 <= i < j < |c.rounds| ==> Period(nows[0], c.rounds[i], tick) < Period(nows[0], c.rounds[j], tick)
  {
    var c := Look(Clock(0, []), nows[0], tick);
    NextTickWithin(nows[0], nows[0], tick);
    LooksKeep(c, nows[1..], nows[0], tick);
    RoundsGrow(c, nows[1..], tick);
  }

  lemma {:induction false} RoundsGrow(c: Clock, nows: seq<nat>, tick: nat)
    requires tick > 0
    ensures c.rounds <= Looks(c, nows, tick).rounds
    decreases |nows|
  {
    if nows != [] {
      RoundsGrow(Look(c, nows[0], tick), nows[1..], tick);
    }
  }

  /** A look at or after the next tick, or the first one after an idle reset, performs a round; an earlier one does not. */
  lemma LookPerformsRound(c: Clock, now: nat, tick: nat)
    requires tick > 0
    ensures var d := Look(c, now, tick);
            if c.next == 0 || now >= c.next then d.rounds == c.rounds + [now] && now < d.next <= now + tick
            else d == c
  {
    hide NextTick;
    NextTickWithin(if c.next == 0 then now else if c.next <= now then c.next else now, now, tick);
  }

  /** At any time the next tick lies within one period after the latest round, so that a look which performs no round comes
      less than a period after one that did. */
  lemma {:induction false} NeverLongWithoutRound(nows: seq<nat>, tick: nat)
    requires tick > 0 && nows != []
    ensures var c := Looks(Clock(0, []), nows, tick);
            c.rounds != [] && c.rounds[|c.rounds| - 1] < c.next <= c.rounds[|c.rounds| - 1] + tick
    decreases |nows|
  {
    LookPerformsRound(Clock(0, []), nows[0], tick);
    LooksStayRecent(Look(Clock(0, []), nows[0], tick), nows[1..], tick);
  }

  lemma {:induction false} LooksStayRecent(c: Clock, nows: seq<nat>, tick: nat)
    requires tick > 0 && c.rounds != [] && c.rounds[|c.rounds| - 1] < c.next <= c.rounds[|c.rounds| - 1] + tick
    ensures var d := Looks(c, nows, tick);
            d.rounds != [] && d.rounds[|d.rounds| - 1] < d.next <= d.rounds[|d.rounds| - 1] + tick
    decreases |nows|
  {
    if nows != [] {
      LookPerformsRound(c, nows[0], tick);
      hide Look;
      LooksStayRecent(Look(c, nows[0], tick), nows[1..], tick);
    }
  }
}
