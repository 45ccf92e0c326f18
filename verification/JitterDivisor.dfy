/**
 When the timestamp span of an erasure divides by zero (src/rtpjbuf.c:151-152): the divisor is one more than the
 number of missing packets, in 32 bits. From a capacity of 3 up to 65536 no run gets there; from 65537 on a run does,
 by purging one tail per epoch until the buffer holds one number of each of 65536 epochs. With a capacity of 0, where
 the buffer has no limit of its own, it is enough to fill it with three numbers of each epoch.
 */
module JitterDivisor {
  import opened Common
  import opened Rtp
  import opened JitterBuffer
  import opened JitterInvariant
  import opened JitterRuns
  import opened JitterNumbers
  import opened JitterDrift
  import opened JitterShapes

  // ----- the numbers of the run -----

  /** The first number: odd, so that the buffer fills up to the last number of an epoch in steps of two. */
  function FirstNumber(capacity: nat): (x: nat)
    requires capacity >= 3
    ensures 0 < x < EPOCH && (x + 2 * (capacity - 2)) % 0x1_0000 == 65535
  {
    65535 - 2 * (capacity - 2) % 0x1_0000
  }

  /** The numbers in the order in which they stay in the buffer: capacity - 1 of them in steps of two, then one at the end
      of each epoch, capacity - 1 of these, then consecutive ones. */
  function Number(capacity: nat, i: nat): nat
    requires capacity >= 3
  {
    var m := capacity - 1;
    var x := FirstNumber(capacity);
    if i < m then x + 2 * i
    else if i < 2 * m then x + 2 * (m - 1) + 0x1_0000 * (i - m + 1)
    else x + 2 * (m - 1) + 0x1_0000 * m + (i - 2 * m + 1)
  }

  /** The numbers in the buffer after n slides. */
  function Window(capacity: nat, n: nat): (w: seq<nat>)
    requires capacity >= 3
    ensures |w| == capacity - 1 && forall i :: 0 <= i < |w| ==> w[i] == Number(capacity, n + i)
  {
    seq<nat>(capacity - 1, i requires 0 <= i => Number(capacity, n + i))
  }

  /** The last number handed out after n slides. */
  function Last(capacity: nat, n: nat): nat
    requires capacity >= 3
  {
    if n == 0 then LSEQ_NONE else Number(capacity, n - 1)
  }

  lemma NumberGaps(capacity: nat, i: nat)
    requires 3 <= capacity < TWO32 && i + 1 < 3 * capacity
    ensures Number(capacity, i) < Number(capacity, i + 1) < TWO64 - 4 * EPOCH
    ensures i + 1 < 2 * (capacity - 1) ==> Number(capacity, i) + 2 <= Number(capacity, i + 1)
  {
  }

  lemma {:induction false} NumbersAscend(capacity: nat, i: nat, j: nat)
    requires 3 <= capacity < TWO32 && i < j < 3 * capacity
    ensures Number(capacity, i) < Number(capacity, j)
    decreases j
  {
    NumberGaps(capacity, j - 1);
    if i < j - 1 {
      NumbersAscend(capacity, i, j - 1);
    }
  }

  lemma WindowAscends(capacity: nat, n: nat)
    requires 3 <= capacity < TWO32 && n + capacity - 1 <= 3 * capacity
    ensures Ascending(Window(capacity, n))
  {
    hide Number;
    var w := Window(capacity, n);
    forall i, j | 0 <= i < j < |w|
      ensures w[i] < w[j]
    {
      NumbersAscend(capacity, n + i, n + j);
    }
  }

  /** While the head is not among the consecutive numbers, it waits and is a run of its own. */
  lemma WindowHead(capacity: nat, n: nat)
    requires 3 <= capacity < TWO32 && n + 1 < 2 * (capacity - 1)
    ensures var w := Window(capacity, n); HeadWaits(Last(capacity, n), w) && w[0] + 1 != w[1]
  {
    hide Number;
    NumberGaps(capacity, n);
    if n > 0 {
      NumberGaps(capacity, n - 1);
    }
  }

  /** Dropping the head and appending the next number is the next window. */
  lemma WindowSlides(capacity: nat, n: nat)
    requires capacity >= 3
    ensures Window(capacity, n)[1..] + [Number(capacity, n + capacity - 1)] == Window(capacity, n + 1)
    ensures (Window(capacity, n) + [Number(capacity, n + capacity - 1)])[1..] == Window(capacity, n + 1)
    ensures Window(capacity, n)[capacity - 2] == Number(capacity, n + capacity - 2)
    ensures Last(capacity, n + 1) == Window(capacity, n)[0]
  {
    hide Number;
  }

  /** The state after n slides. */
  ghost predicate Slid(s: State, capacity: nat, n: nat)
    requires capacity >= 3
  {
    && s.capacity == capacity
    && Shape(s, Last(capacity, n), Base(Number(capacity, n + capacity - 2)), Window(capacity, n), 0)
  }

  // ----- filling the buffer -----

  function Filled(capacity: nat, k: nat): (w: seq<nat>)
    requires capacity >= 3
    ensures |w| == k && forall i :: 0 <= i < k ==> w[i] == Number(capacity, i)
  {
    seq<nat>(k, i requires 0 <= i => Number(capacity, i))
  }

  lemma FilledAscends(capacity: nat, k: nat)
    requires 3 <= capacity < TWO32 && k <= capacity
    ensures Ascending(Filled(capacity, k))
  {
    hide Number;
    var w := Filled(capacity, k);
    forall i, j | 0 <= i < j < |w|
      ensures w[i] < w[j]
    {
      NumbersAscend(capacity, i, j);
    }
  }

  lemma FillStep(capacity: nat, k: nat)
    requires capacity >= 3 && 0 < k < capacity - 1
    ensures Number(capacity, k) == Number(capacity, k - 1) + 2
    ensures Filled(capacity, k)[k - 1] == Number(capacity, k - 1)
    ensures Filled(capacity, k) + [Number(capacity, k)] == Filled(capacity, k + 1)
  {
  }

  lemma {:induction false} Fill(capacity: nat, k: nat) returns (ops: seq<Op>)
    requires 3 <= capacity < TWO32 && 0 < k <= capacity - 1
    ensures RunOk(Init(capacity), ops)
    ensures var s := Run(Init(capacity), ops).state;
            s.capacity == capacity && Shape(s, LSEQ_NONE, Base(Number(capacity, k - 1)), Filled(capacity, k), 0)
    decreases k
  {
    hide Run, RunOk, Step, StepOk, Shape, Encode, Number, Base, InWindow;
    var s := Init(capacity);
    if k == 1 {
      FillFirst(capacity);
      StepFirst(capacity, Number(capacity, 0));
      ops := [In(Probe(Number(capacity, 0), 0))];
      RunOne(s, ops[0]);
    } else {
      var before := Fill(capacity, k - 1);
      var t := Run(s, before).state;
      FillStep(capacity, k - 1);
      FilledAscends(capacity, k - 1);
      NumberGaps(capacity, k - 2);
      var truth := Number(capacity, k - 1);
      NearAhead(Number(capacity, k - 2), truth);
      StepAppends(t, LSEQ_NONE, Filled(capacity, k - 1), 0, truth);
      RunSnoc(s, before, In(Probe(truth % 0x1_0000, 0)));
      ops := before + [In(Probe(truth % 0x1_0000, 0))];
    }
  }

  lemma FillFirst(capacity: nat)
    requires capacity >= 3
    ensures 0 < Number(capacity, 0) < EPOCH && Base(Number(capacity, 0)) == 0
    ensures Filled(capacity, 1) == [Number(capacity, 0)]
  {
  }

  lemma FilledIsWindow(capacity: nat)
    requires capacity >= 3
    ensures Filled(capacity, capacity - 1) == Window(capacity, 0)
  {
    hide Number;
  }

  // ----- one epoch -----

  /** The tail ends its epoch, and so does the number that will follow it. */
  lemma EpochEnds(capacity: nat, n: nat)
    requires 3 <= capacity < TWO32 && n < capacity - 1
    ensures var tail := Number(capacity, n + capacity - 2);
            && tail % 0x1_0000 == 65535 && Number(capacity, n + capacity - 1) == tail + EPOCH
            && Base(tail + EPOCH) == tail + 1 == Base(tail + 1) && tail < TWO64 - 6 * EPOCH
  {
    var m := capacity - 1;
    var x := FirstNumber(capacity);
    var end := x + 2 * (m - 1);
    assert Number(capacity, n + m - 1) == end + 0x1_0000 * n;
    assert Number(capacity, n + m) == end + 0x1_0000 * (n + 1);
    assert (end + 0x1_0000 * n) % 0x1_0000 == 65535;
  }

  function Repeats(op: Op, k: nat): (ops: seq<Op>)
    ensures |ops| == k && (k > 0 ==> ops == Repeats(op, k - 1) + [op])
  {
    if k == 0 then [] else Repeats(op, k - 1) + [op]
  }

  /** Repeats of the tail age it up to the limit. */
  lemma {:induction false} Age(s: State, last: nat, nums: seq<nat>, k: nat)
    requires nums != [] && Shape(s, last, Base(nums[|nums| - 1]), nums, 0)
    requires Ascending(nums) && |nums| == s.capacity - 1 && k < s.capacity
    requires last == LSEQ_NONE || last < nums[|nums| - 1]
    ensures var ops := Repeats(In(Probe(nums[|nums| - 1] % 0x1_0000, 0)), k);
            && RunOk(s, ops)
            && var t := Run(s, ops).state; t.capacity == s.capacity && Shape(t, last, Base(nums[|nums| - 1]), nums, k)
    decreases k
  {
    if k > 0 {
      hide Run, RunOk, Step, StepOk, Shape, Encode, Base, Ascending;
      var op := In(Probe(nums[|nums| - 1] % 0x1_0000, 0));
      Age(s, last, nums, k - 1);
      var t := Run(s, Repeats(op, k - 1)).state;
      StepRepeats(t, last, nums, k - 1);
      RunSnoc(s, Repeats(op, k - 1), op);
    }
  }

  /** Dropping an aged tail leaves the epoch base ahead, so that the last sequence number of an epoch jumps a whole epoch. */
  lemma StepJumps(s: State, last: nat, nums: seq<nat>, tail: nat)
    requires tail % 0x1_0000 == 65535 && tail < TWO64 - 6 * EPOCH
    requires Ascending(nums + [tail] + [tail + 1]) && HeadWaits(last, nums + [tail])
    requires |nums| + 2 == s.capacity - 1 && Shape(s, last, tail + 1, nums + [tail] + [tail + 1], s.capacity - 1)
    ensures var t := Step(s, In(Probe(65535, 0))).state;
            && StepOk(s, In(Probe(65535, 0)))
            && Shape(t, last, tail + 1, nums + [tail] + [tail + EPOCH], 0) && t.capacity == s.capacity
  {
    hide Shape, Ascending, Parse, Encode, PurgeStaleTail, Admit, PreWrap, Step, StepOk, Room, Bumped, HeadWaits;
    var d := Probe(65535, 0);
    var all := nums + [tail] + [tail + 1];
    var kept := nums + [tail];
    assert all[..|all| - 1] == kept;
    ProbeParses(65535, 0);
    PurgeDrops(s, last, tail + 1, all, s.capacity - 1);
    var (s1, purged) := PurgeStaleTail(s);
    var age := s1.frames[|kept| - 1].jbcnt;
    ShapeMarks(s, last, tail + 1, all, s.capacity - 1);
    ShapeMarks(s1, last, tail + 1, kept, age);
    JumpNumber(tail);
    ReceiveNumbered(s, d, s1, purged, tail + 1, tail + EPOCH);
    ShapeBumped(s1, last, tail + 1, kept, age, tail + 1);
    AscendingPrefix(all, |kept|);
    AdmitAppends(Bumped(s1, tail + 1), last, tail + 1, kept, age, RtpFrame(Parse(d.bytes).info, tail + EPOCH, 0, d), purged);
  }

  lemma AscendingPrefix(nums: seq<nat>, k: nat)
    requires Ascending(nums) && k <= |nums|
    ensures Ascending(nums[..k])
  {
  }

  lemma JumpNumber(tail: nat)
    requires tail % 0x1_0000 == 65535
    ensures Unwrap(tail + 1, tail, 65535) == (tail + 1, tail + EPOCH) && !PreWrap(tail, 65535)
    ensures (tail + 1) % 0x1_0000 == 0
  {
  }

  /** The packets of one epoch: the first number of the next epoch, repeated until it is purged, then the last. */
  function EpochOps(capacity: nat): seq<Op> {
    [In(Probe(0, 0))] + Repeats(In(Probe(0, 0)), if capacity > 0 then capacity - 1 else 0) + [In(Probe(65535, 0))]
  }

  /** One epoch slides the window by one. */
  lemma SlideEpoch(s: State, capacity: nat, n: nat)
    requires 3 <= capacity < TWO32 && n < capacity - 1 && Slid(s, capacity, n)
    ensures RunOk(s, EpochOps(capacity)) && Slid(Run(s, EpochOps(capacity)).state, capacity, n + 1)
  {
    hide Run, RunOk, Step, StepOk, Shape, Encode, Base, Number, Ascending, HeadWaits, Last;
    var w := Window(capacity, n);
    var tail := Number(capacity, n + capacity - 2);
    EpochEnds(capacity, n);
    WindowAscends(capacity, n);
    WindowHead(capacity, n);
    WindowSlides(capacity, n);
    var zero := In(Probe(0, 0));
    assert (tail + 1) % 0x1_0000 == 0;
    StepSlides(s, Last(capacity, n), w, 0, tail + 1);
    RunOne(s, zero);
    var s1 := Run(s, [zero]).state;
    var nums := (w + [tail + 1])[1..];
    SlideTail(capacity, n, tail + 1);
    Age(s1, w[0], nums, capacity - 1);
    var rest := Repeats(zero, capacity - 1);
    RunConcat(s, [zero], rest);
    var s2 := Run(s1, rest).state;
    StepJumps(s2, w[0], w[1..capacity - 2], tail);
    RunSnoc(s, [zero] + rest, In(Probe(65535, 0)));
  }

  /** The window without its head, with a number beyond its tail. */
  lemma SlideTail(capacity: nat, n: nat, m: nat)
    requires 3 <= capacity < TWO32 && n < capacity - 1 && m == Number(capacity, n + capacity - 2) + 1
    ensures var w := Window(capacity, n);
            var tail := Number(capacity, n + capacity - 2);
            var kept := w[1..capacity - 2] + [tail];
            && (w + [m])[1..] == kept + [m] && kept == w[1..]
            && Ascending(kept + [m]) && HeadWaits(w[0], kept) && w[0] < m && Last(capacity, n + 1) == w[0]
            && kept + [Number(capacity, n + capacity - 1)] == Window(capacity, n + 1)
  {
    hide Number;
    var w := Window(capacity, n);
    WindowAscends(capacity, n);
    NumberGaps(capacity, n);
    WindowSlides(capacity, n);
    var kept := w[1..capacity - 2] + [w[capacity - 2]];
    assert kept == w[1..];
    if capacity == 3 {
      assert kept == [w[1]];
    } else {
      assert kept[0] == w[1];
    }
    assert w[1] == Number(capacity, n + 1);
  }

  lemma {:induction false} SlideEpochs(capacity: nat, n: nat) returns (ops: seq<Op>)
    requires 3 <= capacity < TWO32 && n <= capacity - 1
    ensures RunOk(Init(capacity), ops) && Slid(Run(Init(capacity), ops).state, capacity, n)
    decreases n
  {
    hide Run, RunOk, Shape, Base, Number, Slid, EpochOps;
    if n == 0 {
      ops := Fill(capacity, capacity - 1);
      FilledSlid(capacity, Run(Init(capacity), ops).state);
    } else {
      var before := SlideEpochs(capacity, n - 1);
      SlideEpoch(Run(Init(capacity), before).state, capacity, n - 1);
      RunConcat(Init(capacity), before, EpochOps(capacity));
      ops := before + EpochOps(capacity);
    }
  }

  lemma FilledSlid(capacity: nat, s: State)
    requires capacity >= 3 && s.capacity == capacity
    requires Shape(s, LSEQ_NONE, Base(Number(capacity, capacity - 2)), Filled(capacity, capacity - 1), 0)
    ensures Slid(s, capacity, 0)
  {
    hide Shape, Number, Base;
    FilledIsWindow(capacity);
  }

  // ----- the consecutive numbers at the end -----

  lemma {:induction false} SlideOn(capacity: nat, j: nat) returns (ops: seq<Op>)
    requires 3 <= capacity < TWO32 && j < capacity - 2
    ensures RunOk(Init(capacity), ops) && Slid(Run(Init(capacity), ops).state, capacity, capacity - 1 + j)
    decreases j
  {
    hide Run, RunOk, Step, StepOk, Shape, Base, Number, Ascending, HeadWaits, Last, Encode;
    if j == 0 {
      ops := SlideEpochs(capacity, capacity - 1);
    } else {
      var n := capacity - 2 + j;
      var before := SlideOn(capacity, j - 1);
      var s := Run(Init(capacity), before).state;
      WindowAscends(capacity, n);
      WindowHead(capacity, n);
      WindowSlides(capacity, n);
      NumberGaps(capacity, n + capacity - 2);
      NextConsecutive(capacity, n);
      var truth := Number(capacity, n + capacity - 1);
      StepSlides(s, Last(capacity, n), Window(capacity, n), 0, truth);
      RunSnoc(Init(capacity), before, In(Probe(truth % 0x1_0000, 0)));
      ops := before + [In(Probe(truth % 0x1_0000, 0))];
    }
  }

  lemma NextConsecutive(capacity: nat, n: nat)
    requires capacity >= 3 && n >= capacity - 1
    ensures Number(capacity, n + capacity - 1) == Number(capacity, n + capacity - 2) + 1
  {
  }

  // ----- the flush -----

  /** From place k on the numbers are consecutive. */
  ghost predicate RunFrom(nums: seq<nat>, k: nat) {
    k < |nums| && forall i :: k <= i < |nums| ==> nums[i] == nums[k] + (i - k)
  }

  lemma RunFromStep(nums: seq<nat>, k: nat, i: nat)
    requires RunFrom(nums, k) && k < i < |nums|
    ensures nums[i - 1] + 1 == nums[i]
  {
  }

  /** The longest consecutive suffix starts in one place only. */
  lemma LastRunStart(nums: seq<nat>, k: nat, p: nat)
    requires RunFrom(nums, k) && RunFrom(nums, p)
    requires k > 0 ==> nums[k - 1] + 1 != nums[k]
    requires p > 0 ==> nums[p - 1] + 1 != nums[p]
    ensures k == p
  {
    hide RunFrom;
    RunFromBelow(nums, k);
    RunFromBelow(nums, p);
    if k < p {
      RunFromStep(nums, k, p);
      assert false;
    } else if p < k {
      RunFromStep(nums, p, k);
      assert false;
    }
  }

  lemma ShapeRun(s: State, last: nat, mask: nat, nums: seq<nat>, age: nat, k: nat)
    requires Shape(s, last, mask, nums, age) && k < |nums| && Consecutive(s.frames[k..])
    ensures RunFrom(nums, k)
  {
    var run := s.frames[k..];
    forall i | k <= i < |nums|
      ensures nums[i] == nums[k] + (i - k)
    {
      assert run[i - k].lseq == run[0].lseq + (i - k);
    }
  }

  lemma FlushReady(s: State, k: nat)
    requires k < |s.frames| && FlushSplit(s.frames, []).0 == s.frames[k..] && Inc64(s.lastLseq) < s.frames[k].lseq
    ensures var ready := Flush(s).ready;
            ready != [] && ready[0].Ers? && ready[0].lseqStart == Inc64(s.lastLseq) && ready[0].lseqEnd == s.frames[k].lseq - 1
  {
    hide FlushSplit, ErasureTs, Wrapped;
    assert s.frames[k..][0] == s.frames[k];
  }

  /** Flush puts one erasure before the last run of consecutive numbers. */
  lemma FlushGap(s: State, last: nat, mask: nat, nums: seq<nat>, age: nat, p: nat)
    requires Shape(s, last, mask, nums, age) && RunFrom(nums, p) && Inc64(last) < nums[p]
    requires p > 0 ==> nums[p - 1] + 1 != nums[p]
    ensures var ready := Flush(s).ready;
            ready != [] && ready[0].Ers? && ready[0].lseqStart == Inc64(last) && ready[0].lseqEnd == nums[p] - 1
  {
    hide FlushSplit, Flush, Consecutive, RunFrom;
    var k := FlushSplitRun(s.frames, []);
    ShapeRun(s, last, mask, nums, age, k);
    RunFromBelow(nums, p);
    LastRunStart(nums, k, p);
    FlushReady(s, k);
  }

  lemma RunFromBelow(nums: seq<nat>, k: nat)
    requires RunFrom(nums, k)
    ensures k < |nums|
  {
  }

  /** The last run of the window starts 2^32 beyond the last number handed out. */
  lemma WindowGap(capacity: nat)
    requires 65537 <= capacity < TWO32
    ensures var n := 2 * capacity - 65538;
            var w := Window(capacity, n);
            && RunFrom(w, 65535) && w[65534] + 1 != w[65535]
            && w[65535] == Last(capacity, n) + TWO32 && Last(capacity, n) < LSEQ_NONE
  {
    var n := 2 * capacity - 65538;
    var w := Window(capacity, n);
    var m := capacity - 1;
    assert n + 65535 == 2 * m - 1;
    forall i | 65535 <= i < |w|
      ensures w[i] == w[65535] + (i - 65535)
    {
      assert n + i >= 2 * m - 1;
    }
    NumberGaps(capacity, n + 65534);
  }

  /** From a capacity of 65537 on, a run makes the divisor 0. */
  lemma DivisorVanishes(capacity: nat) returns (ops: seq<Op>)
    requires 65537 <= capacity < TWO32
    ensures RunOk(Init(capacity), ops) && !DivisorsNonzero(Run(Init(capacity), ops).ready)
  {
    hide Run, RunOk, Step, StepOk, Shape, Base, Number, Last, Flush;
    var n := 2 * capacity - 65538;
    var before := SlideOn(capacity, capacity - 65537);
    var t := Run(Init(capacity), before);
    WindowGap(capacity);
    FlushGap(t.state, Last(capacity, n), Base(Number(capacity, n + capacity - 2)), Window(capacity, n), 0, 65535);
    ops := FlushAtEnd(capacity, before);
  }

  /** A run whose flush makes the divisor 0. */
  lemma FlushAtEnd(capacity: nat, before: seq<Op>) returns (ops: seq<Op>)
    requires RunOk(Init(capacity), before)
    requires var ready := Flush(Run(Init(capacity), before).state).ready; ready != [] && ready[0].Ers? && Divisor(ready[0]) == 0
    ensures RunOk(Init(capacity), ops) && !DivisorsNonzero(Run(Init(capacity), ops).ready)
  {
    hide Run, RunOk, Step, StepOk, Flush;
    var t := Run(Init(capacity), before);
    FlushStep(t.state);
    RunOne(t.state, DoFlush);
    RunConcat(Init(capacity), before, [DoFlush]);
    ops := before + [DoFlush];
    assert Run(Init(capacity), ops).ready[|t.ready|] == Flush(t.state).ready[0];
  }

  lemma FlushStep(s: State)
    ensures StepOk(s, DoFlush) && Step(s, DoFlush) == Flush(s)
  {
  }

  // ----- a buffer that is never full -----

  /** Three numbers to an epoch, each inside the window of the one before, the last of them the last of the epoch. */
  function Spread(i: nat): nat {
    0x1_0000 * (i / 3) + if i % 3 == 0 then 534 else if i % 3 == 1 then 600 else 65535
  }

  function SpreadUpTo(k: nat): (w: seq<nat>)
    ensures |w| == k && forall i :: 0 <= i < k ==> w[i] == Spread(i)
  {
    seq<nat>(k, i requires 0 <= i => Spread(i))
  }

  lemma SpreadBase(i: nat)
    ensures Base(Spread(i)) == 0x1_0000 * (i / 3) && Spread(i) % 0x1_0000 == Spread(i) - 0x1_0000 * (i / 3)
  {
    BaseOf(i / 3, Spread(i) - 0x1_0000 * (i / 3));
  }

  lemma BaseOf(e: nat, r: nat)
    requires r < EPOCH
    ensures Base(0x1_0000 * e + r) == 0x1_0000 * e && (0x1_0000 * e + r) % 0x1_0000 == r
  {
  }

  lemma SpreadStep(i: nat)
    requires i < 3 * EPOCH
    ensures Spread(i) < Spread(i + 1) < TWO64 - 3 * EPOCH && InWindow(Base(Spread(i)), Spread(i), Spread(i + 1))
  {
    SpreadBase(i);
    hide Base;
    assert (i + 1) / 3 == if i % 3 == 2 then i / 3 + 1 else i / 3;
  }

  lemma {:induction false} SpreadAscends(i: nat, j: nat)
    requires i < j <= 3 * EPOCH
    ensures Spread(i) < Spread(j)
    decreases j
  {
    SpreadStep(j - 1);
    if i < j - 1 {
      SpreadAscends(i, j - 1);
    }
  }

  lemma SpreadUpToAscends(k: nat)
    requires k <= 3 * EPOCH
    ensures Ascending(SpreadUpTo(k))
  {
    hide Spread;
    var w := SpreadUpTo(k);
    forall i, j | 0 <= i < j < |w|
      ensures w[i] < w[j]
    {
      SpreadAscends(i, j);
    }
  }

  lemma {:induction false} SpreadFill(k: nat) returns (ops: seq<Op>)
    requires 0 < k <= 3 * EPOCH
    ensures RunOk(Init(0), ops)
    ensures var s := Run(Init(0), ops).state;
            s.capacity == 0 && Shape(s, LSEQ_NONE, Base(Spread(k - 1)), SpreadUpTo(k), 0)
    decreases k
  {
    hide Run, RunOk, Step, StepOk, Shape, Encode, Spread, Base, InWindow;
    var s := Init(0);
    if k == 1 {
      SpreadFirst();
      StepFirst(0, 534);
      ops := [In(Probe(534, 0))];
      RunOne(s, ops[0]);
    } else {
      var before := SpreadFill(k - 1);
      var t := Run(s, before).state;
      SpreadUpToAscends(k - 1);
      SpreadStep(k - 2);
      var truth := Spread(k - 1);
      StepAppends(t, LSEQ_NONE, SpreadUpTo(k - 1), 0, truth);
      assert SpreadUpTo(k - 1) + [truth] == SpreadUpTo(k);
      RunSnoc(s, before, In(Probe(truth % 0x1_0000, 0)));
      ops := before + [In(Probe(truth % 0x1_0000, 0))];
    }
  }

  lemma SpreadFirst()
    ensures Spread(0) == 534 && Base(534) == 0 && SpreadUpTo(1) == [534]
  {
  }

  lemma SpreadEnds()
    ensures Spread(3 * EPOCH - 1) == TWO32 - 1 && Spread(3 * EPOCH - 2) + 1 != TWO32 - 1
  {
  }

  /** Without a limit of its own, the buffer takes in numbers up to 2^32 - 1 before anything is handed out. */
  lemma DivisorVanishesUnbounded() returns (ops: seq<Op>)
    ensures RunOk(Init(0), ops) && !DivisorsNonzero(Run(Init(0), ops).ready)
  {
    hide Run, RunOk, Step, StepOk, Shape, Base, Spread, Flush;
    var k := 3 * EPOCH;
    var before := SpreadFill(k);
    var s := Run(Init(0), before).state;
    SpreadEnds();
    var w := SpreadUpTo(k);
    assert w[k - 1] == TWO32 - 1 && w[k - 2] + 1 != w[k - 1];
    FlushGap(s, LSEQ_NONE, Base(Spread(k - 1)), w, 0, k - 1);
    ops := FlushAtEnd(0, before);
  }

  /** No run ever divides by zero exactly for capacities from 3 up to 65536. */
  lemma DivisorBound(capacity: nat)
    requires Usable(capacity)
    ensures 3 <= capacity <= 65536 <==> forall ops :: RunOk(Init(capacity), ops) ==> DivisorsNonzero(Run(Init(capacity), ops).ready)
  {
    hide Run, RunOk, DivisorsNonzero;
    if 3 <= capacity <= 65536 {
      forall ops | RunOk(Init(capacity), ops)
        ensures DivisorsNonzero(Run(Init(capacity), ops).ready)
      {
        InitInv(capacity);
        InitDrift(capacity);
        RunDivisorsNonzero(Init(capacity), ops);
      }
    } else if capacity == 0 {
      var ops := DivisorVanishesUnbounded();
    } else {
      var ops := DivisorVanishes(capacity);
    }
  }
}
