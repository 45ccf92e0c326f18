/**
 The lock-free ring of src/SPMCQueue.c as a transition system: one producer, any number of consumers, and
 one action for every atomic load, store, compare-and-swap or slot access. Memory is sequentially
 consistent; the weak compare-and-swap may fail for no reason. Indices are unbounded, so they never wrap.
 */
module SpmcQueue {
  import opened Common
  import opened BitMask

  type Value = int

  /** The queue itself, and the history of what was pushed and handed out. */
  datatype Ring = Ring(
    capacity: nat,
    writeIdx: nat,
    readIdxCache: nat,
    readIdx: nat,
    writeIdxCache: nat,
    slots: seq<Value>,
    pushed: seq<Value>,
    popped: seq<Value>)

  /** Where the producer stands inside try_push; w is the index it loaded. */
  datatype Producer =
    | Ready
    | Checking(v: Value, w: nat)
    | Reloading(v: Value, w: nat)
    | Writing(v: Value, w: nat)
    | Publishing(v: Value, w: nat)

  /** try_pop, or try_pop_many for at most howmany values. */
  datatype PopCall = PopOne | PopMany(howmany: nat)

  /** Where a consumer stands inside a pop: r and w are the indices it loaded, n the index it wants to move to. */
  datatype Consumer =
    | Resting
    | AtTop(call: PopCall)
    | LoadedRead(call: PopCall, r: nat)
    | CacheStale(call: PopCall, r: nat)
    | LoadedWrite(call: PopCall, r: nat, w: nat, wasEmpty: bool)
    | Bounded(call: PopCall, r: nat, w: nat)
    | Copying(call: PopCall, r: nat, w: nat, n: nat, got: seq<Value>)

  datatype State = State(ring: Ring, producer: Producer, consumers: seq<Consumer>)

  datatype Action =
    | PushStart(v: Value)
    | PushCheck
    | PushReload
    | PushWrite
    | PushPublish
    | PopStart(c: nat, call: PopCall)
    | PopLoadRead(c: nat)
    | PopLoadCache(c: nat)
    | PopLoadWrite(c: nat)
    | PopStoreCache(c: nat)
    | PopChoose(c: nat)
    | PopCopy(c: nat)
    | PopSwap(c: nat, spurious: bool)

  /** The slot of an index: index & mask. */
  function Slot(i: nat, capacity: nat): nat
    requires capacity >= 1
  {
    And(i, capacity - 1)
  }

  // ----- try_push -----

  function Produce(q: Ring, p: Producer, a: Action): (Ring, Producer)
    requires q.capacity >= 1
  {
    match a
    case PushStart(v) =>
      if p.Ready? then (q, Checking(v, q.writeIdx)) else (q, p)
    case PushCheck =>
      if !p.Checking? then (q, p)
      else if p.w + 1 - q.readIdxCache <= q.capacity then (q, Writing(p.v, p.w))
      else (q, Reloading(p.v, p.w))
    case PushReload =>
      if !p.Reloading? then (q, p)
      else
        var q1 := q.(readIdxCache := q.readIdx);
        if p.w + 1 - q1.readIdxCache <= q.capacity then (q1, Writing(p.v, p.w)) else (q1, Ready)
    case PushWrite =>
      if !(p.Writing? && Slot(p.w, q.capacity) < |q.slots|) then (q, p)
      else (q.(slots := q.slots[Slot(p.w, q.capacity) := p.v]), Publishing(p.v, p.w))
    case PushPublish =>
      if !p.Publishing? then (q, p)
      else (q.(writeIdx := p.w + 1, pushed := q.pushed + [p.v]), Ready)
    case _ => (q, p)
  }

  // ----- try_pop and try_pop_many -----

  /** The index a pop wants to move to. */
  function Target(call: PopCall, r: nat, w: nat): nat {
    match call
    case PopOne => r + 1
    case PopMany(howmany) => if r + howmany > w then w else r + howmany
  }

  function Consume(q: Ring, c: Consumer, a: Action): (Ring, Consumer)
    requires q.capacity >= 1
  {
    match a
    case PopStart(_, call) =>
      if c.Resting? then (q, AtTop(call)) else (q, c)
    case PopLoadRead(_) =>
      if c.AtTop? then (q, LoadedRead(c.call, q.readIdx)) else (q, c)
    case PopLoadCache(_) =>
      if !c.LoadedRead? then (q, c)
      else if c.r >= q.writeIdxCache then (q, CacheStale(c.call, c.r))
      else (q, Bounded(c.call, c.r, q.writeIdxCache))
    case PopLoadWrite(_) =>
      if c.CacheStale? then (q, LoadedWrite(c.call, c.r, q.writeIdx, q.readIdx == q.writeIdx)) else (q, c)
    case PopStoreCache(_) =>
      if !c.LoadedWrite? then (q, c)
      else
        var q1 := q.(writeIdxCache := c.w);
        if c.r == c.w then (q1, Resting) else (q1, Bounded(c.call, c.r, c.w))
    case PopChoose(_) =>
      if c.Bounded? then (q, Copying(c.call, c.r, c.w, Target(c.call, c.r, c.w), [])) else (q, c)
    case PopCopy(_) =>
      if c.Copying? && c.r + |c.got| < c.n && Slot(c.r + |c.got|, q.capacity) < |q.slots|
      then (q, c.(got := c.got + [q.slots[Slot(c.r + |c.got|, q.capacity)]]))
      else (q, c)
    case PopSwap(_, spurious) =>
      if !(c.Copying? && c.r + |c.got| >= c.n) then (q, c)
      else if q.readIdx != c.r || spurious then (q, AtTop(c.call))
      else (q.(readIdx := c.n, popped := q.popped + c.got), Resting)
    case _ => (q, c)
  }

  predicate ByProducer(a: Action) {
    a.PushStart? || a.PushCheck? || a.PushReload? || a.PushWrite? || a.PushPublish?
  }

  function Apply(s: State, a: Action): State
    requires s.ring.capacity >= 1
  {
    if ByProducer(a) then
      var (q, p) := Produce(s.ring, s.producer, a);
      s.(ring := q, producer := p)
    else if a.c < |s.consumers| then
      var (q, c) := Consume(s.ring, s.consumers[a.c], a);
      s.(ring := q, consumers := s.consumers[a.c := c])
    else s
  }

  // ----- the invariant -----

  ghost predicate RingInv(q: Ring) {
    && q.capacity >= 1 && IsPow2(q.capacity) && |q.slots| == q.capacity
    && q.readIdxCache <= q.readIdx <= q.writeIdx <= q.readIdxCache + q.capacity
    && q.writeIdxCache <= q.writeIdx
    && |q.pushed| == q.writeIdx
    && q.popped == q.pushed[..q.readIdx]
    && Intact(q)
  }

  /** Every value not yet known to be consumed is still in its slot. */
  ghost predicate Intact(q: Ring)
    requires q.capacity >= 1 && |q.slots| == q.capacity && |q.pushed| == q.writeIdx
  {
    forall i {:trigger q.pushed[i]} :: q.readIdxCache <= i < q.writeIdx ==> q.slots[i % q.capacity] == q.pushed[i]
  }

  ghost predicate ProducerInv(q: Ring, p: Producer)
    requires q.capacity >= 1 && |q.slots| == q.capacity
  {
    match p
    case Ready => true
    case Checking(v, w) => w == q.writeIdx
    case Reloading(v, w) => w == q.writeIdx
    case Writing(v, w) => w == q.writeIdx && w + 1 <= q.readIdxCache + q.capacity
    case Publishing(v, w) => w == q.writeIdx && w + 1 <= q.readIdxCache + q.capacity && q.slots[w % q.capacity] == v
  }

  ghost predicate ConsumerInv(q: Ring, c: Consumer)
    requires |q.pushed| == q.writeIdx
  {
    match c
    case Resting => true
    case AtTop(_) => true
    case LoadedRead(_, r) => r <= q.readIdx
    case CacheStale(_, r) => r <= q.readIdx
    case LoadedWrite(_, r, w, wasEmpty) => r <= q.readIdx && r <= w <= q.writeIdx && (r == w ==> wasEmpty)
    case Bounded(_, r, w) => r <= q.readIdx && r < w <= q.writeIdx
    case Copying(_, r, w, n, got) =>
      && r <= q.readIdx && r < w <= q.writeIdx && r <= n <= w && r + |got| <= n
      && (r == q.readIdx ==> got == q.pushed[r..r + |got|])
      && (c.call.PopOne? ==> n == r + 1)
      && (c.call.PopMany? ==> n - r == Min(c.call.howmany, w - r))
  }

  function Min(x: nat, y: nat): nat {
    if x < y then x else y
  }

  ghost predicate Inv(s: State) {
    && RingInv(s.ring)
    && ProducerInv(s.ring, s.producer)
    && forall k :: 0 <= k < |s.consumers| ==> ConsumerInv(s.ring, s.consumers[k])
  }

  /** What no step does: indices going down, or the history of pushes changing. */
  ghost predicate Grows(q: Ring, t: Ring) {
    q.readIdx <= t.readIdx && q.writeIdx <= t.writeIdx && q.pushed <= t.pushed
  }

  lemma ConsumerStable(q: Ring, t: Ring, c: Consumer)
    requires |q.pushed| == q.writeIdx && |t.pushed| == t.writeIdx && t.readIdx <= t.writeIdx
    requires ConsumerInv(q, c) && Grows(q, t)
    ensures ConsumerInv(t, c)
  {
    if c.Copying? && c.r == t.readIdx {
      assert t.pushed[..q.writeIdx] == q.pushed;
      assert t.pushed[c.r..c.r + |c.got|] == q.pushed[c.r..c.r + |c.got|];
    }
  }

  lemma SlotIsMod(i: nat, capacity: nat)
    requires capacity >= 1 && IsPow2(capacity)
    ensures Slot(i, capacity) == i % capacity < capacity
  {
    var k: nat :| capacity == Pow2(k);
    AndMask(i, k);
  }

  // ----- the producer keeps it -----

  lemma WriteKeepsIntact(q: Ring, w: nat, v: Value)
    requires RingInv(q) && w == q.writeIdx && w + 1 <= q.readIdxCache + q.capacity
    ensures var t := q.(slots := q.slots[w % q.capacity := v]); RingInv(t) && t.slots[w % q.capacity] == v
  {
    var t := q.(slots := q.slots[w % q.capacity := v]);
    forall i {:trigger t.pushed[i]} | q.readIdxCache <= i < q.writeIdx
      ensures t.slots[i % q.capacity] == t.pushed[i]
    {
      assert q.slots[i % q.capacity] == q.pushed[i];
      if i % q.capacity == w % q.capacity {
        WindowDistinct(i, w, q.capacity);
      }
    }
  }

  lemma PublishKeeps(q: Ring, v: Value)
    requires RingInv(q) && q.writeIdx + 1 <= q.readIdxCache + q.capacity
    requires q.slots[q.writeIdx % q.capacity] == v
    ensures RingInv(q.(writeIdx := q.writeIdx + 1, pushed := q.pushed + [v]))
  {
    var t := q.(writeIdx := q.writeIdx + 1, pushed := q.pushed + [v]);
    forall i {:trigger t.pushed[i]} | t.readIdxCache <= i < t.writeIdx
      ensures t.slots[i % t.capacity] == t.pushed[i]
    {
      if i < q.writeIdx {
        assert t.pushed[i] == q.pushed[i];
      }
    }
    assert t.popped == t.pushed[..t.readIdx];
  }

  lemma ReloadKeeps(q: Ring)
    requires RingInv(q)
    ensures RingInv(q.(readIdxCache := q.readIdx))
  {
    var t := q.(readIdxCache := q.readIdx);
    forall i {:trigger t.pushed[i]} | t.readIdxCache <= i < t.writeIdx
      ensures t.slots[i % t.capacity] == t.pushed[i]
    {
      assert q.slots[i % q.capacity] == q.pushed[i];
    }
  }

  lemma ProduceKeeps(q: Ring, p: Producer, a: Action)
    requires RingInv(q) && ProducerInv(q, p)
    ensures var (t, p') := Produce(q, p, a); RingInv(t) && ProducerInv(t, p') && Grows(q, t)
  {
    hide Intact, IsPow2, Slot;
    match a
    case PushReload =>
      ReloadKeeps(q);
    case PushWrite =>
      if p.Writing? {
        SlotIsMod(p.w, q.capacity);
        WriteKeepsIntact(q, p.w, p.v);
      }
    case PushPublish =>
      if p.Publishing? {
        PublishKeeps(q, p.v);
      }
    case _ =>
  }

  // ----- a consumer keeps it -----

  lemma CopyReads(q: Ring, r: nat, got: seq<Value>)
    requires RingInv(q) && r == q.readIdx && r + |got| < q.writeIdx && got == q.pushed[r..r + |got|]
    ensures got + [q.slots[(r + |got|) % q.capacity]] == q.pushed[r..r + |got| + 1]
  {
    var i := r + |got|;
    assert q.slots[i % q.capacity] == q.pushed[i];
  }

  lemma SwapKeeps(q: Ring, n: nat, got: seq<Value>)
    requires RingInv(q) && q.readIdx <= n <= q.writeIdx && got == q.pushed[q.readIdx..n]
    ensures RingInv(q.(readIdx := n, popped := q.popped + got))
  {
    var t := q.(readIdx := n, popped := q.popped + got);
    assert t.popped == t.pushed[..n];
    assert Intact(t) by {
      forall i {:trigger t.pushed[i]} | t.readIdxCache <= i < t.writeIdx
        ensures t.slots[i % t.capacity] == t.pushed[i]
      {
        assert q.slots[i % q.capacity] == q.pushed[i];
      }
    }
  }

  lemma CopyStep(q: Ring, c: Consumer)
    requires RingInv(q) && ConsumerInv(q, c) && c.Copying? && c.r + |c.got| < c.n
    ensures Slot(c.r + |c.got|, q.capacity) < |q.slots|
    ensures ConsumerInv(q, c.(got := c.got + [q.slots[Slot(c.r + |c.got|, q.capacity)]]))
  {
    hide Intact, IsPow2, Slot;
    SlotIsMod(c.r + |c.got|, q.capacity);
    if c.r == q.readIdx {
      CopyReads(q, c.r, c.got);
    }
  }

  lemma CacheKeeps(q: Ring, w: nat)
    requires RingInv(q) && w <= q.writeIdx
    ensures RingInv(q.(writeIdxCache := w))
  {
    var t := q.(writeIdxCache := w);
    forall i {:trigger t.pushed[i]} | t.readIdxCache <= i < t.writeIdx
      ensures t.slots[i % t.capacity] == t.pushed[i]
    {
      assert q.slots[i % q.capacity] == q.pushed[i];
    }
  }

  /** The steps of a pop that only read the ring. */
  lemma ReadKeeps(q: Ring, c: Consumer, a: Action)
    requires RingInv(q) && ConsumerInv(q, c) && !a.PopStoreCache? && !a.PopSwap?
    ensures var (t, c') := Consume(q, c, a); t == q && ConsumerInv(q, c')
  {
    hide Intact, IsPow2, Slot, Target;
    match a
    case PopChoose(_) =>
      if c.Bounded? {
        TargetWithin(c.call, c.r, c.w);
      }
    case PopCopy(_) =>
      if c.Copying? && c.r + |c.got| < c.n {
        CopyStep(q, c);
      }
    case _ =>
  }

  lemma ConsumeKeeps(q: Ring, p: Producer, c: Consumer, a: Action)
    requires RingInv(q) && ProducerInv(q, p) && ConsumerInv(q, c)
    ensures var (t, c') := Consume(q, c, a); RingInv(t) && ProducerInv(t, p) && ConsumerInv(t, c') && Grows(q, t)
  {
    hide Intact, IsPow2, Slot, Target;
    match a
    case PopStoreCache(_) =>
      if c.LoadedWrite? {
        CacheKeeps(q, c.w);
      }
    case PopSwap(_, spurious) =>
      if c.Copying? && c.r + |c.got| >= c.n && q.readIdx == c.r {
        SwapKeeps(q, c.n, c.got);
      }
    case _ =>
      ReadKeeps(q, c, a);
      hide Consume, ConsumerInv;
  }

  lemma TargetWithin(call: PopCall, r: nat, w: nat)
    requires r < w
    ensures r <= Target(call, r, w) <= w
    ensures call.PopOne? ==> Target(call, r, w) == r + 1
    ensures call.PopMany? ==> Target(call, r, w) - r == Min(call.howmany, w - r)
  {
  }

  // ----- every step, every run -----

  /** Every action of every thread keeps the invariant. */
  lemma ApplyKeeps(s: State, a: Action)
    requires Inv(s)
    ensures Inv(Apply(s, a)) && Grows(s.ring, Apply(s, a).ring)
  {
    hide RingInv, ConsumerInv, Produce, Consume;
    RingBounds(s.ring);
    var t := Apply(s, a);
    if ByProducer(a) {
      ProduceKeeps(s.ring, s.producer, a);
    } else if a.c < |s.consumers| {
      ConsumeKeeps(s.ring, s.producer, s.consumers[a.c], a);
    } else {
      assert Grows(s.ring, t.ring);
    }
    RingBounds(t.ring);
    forall k | 0 <= k < |t.consumers|
      ensures ConsumerInv(t.ring, t.consumers[k])
    {
      if ByProducer(a) || k != a.c {
        ConsumerStable(s.ring, t.ring, s.consumers[k]);
      }
    }
  }

  lemma RingBounds(q: Ring)
    requires RingInv(q)
    ensures q.capacity >= 1 && |q.slots| == q.capacity && |q.pushed| == q.writeIdx && q.readIdx <= q.writeIdx
  {
  }

  /** create_queue: a capacity that is a power of two and leaves room for the header, and memory to be had. */
  method CreateQueue(capacity: nat, maxSlots: nat, initial: seq<Value>, hasMemory: bool) returns (q: Option<Ring>)
    requires |initial| == capacity
    ensures q.Some? <==> capacity > 0 && IsPow2(capacity) && capacity <= maxSlots && hasMemory
    ensures q.Some? ==> RingInv(q.value) && q.value.capacity == capacity && q.value.pushed == []
  {
    if capacity == 0 {
      return None;
    }
    PowerOfTwoTest(capacity);
    if And(capacity, capacity - 1) != 0 {
      return None;
    }
    if capacity > maxSlots || !hasMemory {
      return None;
    }
    return Some(Ring(capacity, 0, 0, 0, 0, initial, [], []));
  }

  /** A queue just created, an idle producer and idle consumers. */
  ghost predicate Initial(s: State) {
    && s.ring.capacity >= 1 && IsPow2(s.ring.capacity) && |s.ring.slots| == s.ring.capacity
    && s.ring == Ring(s.ring.capacity, 0, 0, 0, 0, s.ring.slots, [], [])
    && s.producer == Ready
    && forall k :: 0 <= k < |s.consumers| ==> s.consumers[k] == Resting
  }

  lemma InitialInv(s: State)
    requires Initial(s)
    ensures Inv(s)
  {
  }

  function Run(s: State, acts: seq<Action>): State
    decreases |acts|
  {
    if acts == [] || s.ring.capacity < 1 then s else Run(Apply(s, acts[0]), acts[1..])
  }

  /** In every interleaving: the order of the indices, the caches, and what every thread knows. */
  lemma {:induction false} RunKeeps(s: State, acts: seq<Action>)
    requires Inv(s)
    ensures Inv(Run(s, acts)) && Grows(s.ring, Run(s, acts).ring)
    decreases |acts|
  {
    hide Inv, Apply;
    if acts == [] || s.ring.capacity < 1 {
    } else {
      ApplyKeeps(s, acts[0]);
      RunKeeps(Apply(s, acts[0]), acts[1..]);
    }
  }

  /** The value a push accepts at this action: it returns true. */
  function Accepted(s: State, a: Action): seq<Value> {
    if a.PushPublish? && s.producer.Publishing? then [s.producer.v] else []
  }

  /** The values a pop returns at this action: its compare-and-swap succeeds. */
  function Returned(s: State, a: Action): seq<Value> {
    if a.PopSwap? && a.c < |s.consumers| && s.consumers[a.c].Copying? &&
       s.consumers[a.c].r + |s.consumers[a.c].got| >= s.consumers[a.c].n && s.ring.readIdx == s.consumers[a.c].r && !a.spurious
    then s.consumers[a.c].got
    else []
  }

  function AllAccepted(s: State, acts: seq<Action>): seq<Value>
    decreases |acts|
  {
    if acts == [] || s.ring.capacity < 1 then []
    else Accepted(s, acts[0]) + AllAccepted(Apply(s, acts[0]), acts[1..])
  }

  function AllReturned(s: State, acts: seq<Action>): seq<Value>
    decreases |acts|
  {
    if acts == [] || s.ring.capacity < 1 then []
    else Returned(s, acts[0]) + AllReturned(Apply(s, acts[0]), acts[1..])
  }

  lemma HistoryStep(s: State, a: Action)
    requires s.ring.capacity >= 1
    ensures Apply(s, a).ring.pushed == s.ring.pushed + Accepted(s, a)
    ensures Apply(s, a).ring.popped == s.ring.popped + Returned(s, a)
    ensures Apply(s, a).ring.capacity == s.ring.capacity
  {
    hide Slot, Target;
  }

  lemma {:induction false} HistoryRun(s: State, acts: seq<Action>)
    requires s.ring.capacity >= 1
    ensures Run(s, acts).ring.pushed == s.ring.pushed + AllAccepted(s, acts)
    ensures Run(s, acts).ring.popped == s.ring.popped + AllReturned(s, acts)
    decreases |acts|
  {
    hide Apply, Accepted, Returned;
    if acts != [] {
      HistoryStep(s, acts[0]);
      var t := Apply(s, acts[0]);
      HistoryRun(t, acts[1..]);
      Assoc(s.ring.pushed, Accepted(s, acts[0]), AllAccepted(t, acts[1..]));
      Assoc(s.ring.popped, Returned(s, acts[0]), AllReturned(t, acts[1..]));
    }
  }

  /** In every interleaving, the values returned by pops, in the order of their swaps, are a prefix of the values
      accepted by pushes: none lost, repeated, reordered or read from an overwritten slot. */
  lemma PopsArePrefixOfPushes(s: State, acts: seq<Action>)
    requires Initial(s)
    ensures AllReturned(s, acts) <= AllAccepted(s, acts)
    ensures |AllReturned(s, acts)| == Run(s, acts).ring.readIdx && |AllAccepted(s, acts)| == Run(s, acts).ring.writeIdx
  {
    hide Run, AllReturned, AllAccepted, Intact;
    InitialInv(s);
    RunKeeps(s, acts);
    HistoryRun(s, acts);
    assert [] + AllReturned(s, acts) == AllReturned(s, acts) && [] + AllAccepted(s, acts) == AllAccepted(s, acts);
  }

  /** Every index relation the code relies on, in every reachable state. */
  lemma ReachableBounds(s: State, acts: seq<Action>)
    requires Initial(s)
    ensures var q := Run(s, acts).ring;
            && q.readIdxCache <= q.readIdx <= q.writeIdx <= q.readIdxCache + q.capacity
            && q.writeIdxCache <= q.writeIdx
  {
    hide Run, Intact;
    InitialInv(s);
    RunKeeps(s, acts);
  }

  /** A push is refused only when the ring is full at the moment it loads the read index. */
  lemma PushRefusedOnlyWhenFull(s: State)
    requires Inv(s) && s.producer.Reloading?
    ensures Apply(s, PushReload).producer == Ready <==> s.ring.writeIdx - s.ring.readIdx == s.ring.capacity
  {
    hide Intact;
  }

  /** A pop that has loaded the write index never finds it below its read index, and reports empty only if the ring
      was empty when it loaded the write index. */
  lemma PopRefusedOnlyWhenEmpty(s: State, c: nat)
    requires Inv(s) && c < |s.consumers| && s.consumers[c].LoadedWrite?
    ensures var k := s.consumers[c];
            var k' := Apply(s, PopStoreCache(c)).consumers[c];
            && (k' == Resting ==> k.wasEmpty)
            && (k' != Resting ==> k.r < k.w && k' == Bounded(k.call, k.r, k.w))
  {
    hide Intact;
    assert ConsumerInv(s.ring, s.consumers[c]);
  }

  /** A pop that succeeds returns the next values pushed: one, or as many as were asked for and were there when it loaded
      the write index w. */
  lemma PopReturnsCount(s: State, c: nat)
    requires Inv(s) && c < |s.consumers| && s.consumers[c].Copying?
    requires Apply(s, PopSwap(c, false)).consumers[c] == Resting
    ensures var k := s.consumers[c];
            var got := Returned(s, PopSwap(c, false));
            && k.r == s.ring.readIdx && got == s.ring.pushed[k.r..k.r + |got|]
            && k.r < k.w <= s.ring.writeIdx
            && |got| == (if k.call.PopOne? then 1 else Min(k.call.howmany, k.w - k.r))
  {
    hide Intact;
    assert ConsumerInv(s.ring, s.consumers[c]);
  }

  /** The indices a pop works with are those of the ring when it loads them: r is the read index, and w is the write index,
      or what was cached of it, which lies beyond r. */
  lemma LoadsAreCurrent(s: State, c: nat)
    requires s.ring.capacity >= 1 && c < |s.consumers|
    ensures var k := s.consumers[c];
            && (k.AtTop? ==> Apply(s, PopLoadRead(c)).consumers[c] == LoadedRead(k.call, s.ring.readIdx))
            && (k.LoadedRead? ==>
                  Apply(s, PopLoadCache(c)).consumers[c] ==
                  if k.r < s.ring.writeIdxCache then Bounded(k.call, k.r, s.ring.writeIdxCache) else CacheStale(k.call, k.r))
            && (k.CacheStale? ==>
                  var l := Apply(s, PopLoadWrite(c)).consumers[c];
                  l.LoadedWrite? && l.r == k.r && l.w == s.ring.writeIdx && (l.wasEmpty <==> s.ring.readIdx == s.ring.writeIdx))
  {
  }

  // ----- calls and their arguments -----

  /** A push carries the value it was called with until it returns. */
  lemma PushCarriesValue(s: State, a: Action)
    requires s.ring.capacity >= 1
    ensures var p, p' := s.producer, Apply(s, a).producer;
            || p'.Ready?
            || (p.Ready? && a.PushStart? && p'.v == a.v)
            || (!p.Ready? && p'.v == p.v)
  {
    hide Slot, Target;
  }

  /** A pop carries its call until it returns, and no step of one consumer touches another. */
  lemma PopCarriesCall(s: State, a: Action, c: nat)
    requires s.ring.capacity >= 1 && c < |s.consumers|
    ensures |Apply(s, a).consumers| == |s.consumers|
    ensures var k, k' := s.consumers[c], Apply(s, a).consumers[c];
            || k' == k
            || (!ByProducer(a) && a.c == c &&
                (k'.Resting? || (k.Resting? && a.PopStart? && k' == AtTop(a.call)) || (!k.Resting? && k'.call == k.call)))
  {
    hide Slot, Target;
  }

  /** The value of the latest call of push that the producer took up. */
  function Argument(s: State, acts: seq<Action>, v: Value): Value
    decreases |acts|
  {
    if acts == [] || s.ring.capacity < 1 then v
    else Argument(Apply(s, acts[0]), acts[1..], if s.producer.Ready? && acts[0].PushStart? then acts[0].v else v)
  }

  /** At the end of any run, a push under way is about the value it was called with, so that is what it publishes. */
  lemma {:induction false} PushesTheArgument(s: State, acts: seq<Action>, v: Value)
    requires s.ring.capacity >= 1 && (!s.producer.Ready? ==> s.producer.v == v)
    ensures var t := Run(s, acts); !t.producer.Ready? ==> t.producer.v == Argument(s, acts, v)
    decreases |acts|
  {
    if acts != [] {
      PushCarriesValue(s, acts[0]);
      HistoryStep(s, acts[0]);
      hide Apply;
      PushesTheArgument(Apply(s, acts[0]), acts[1..], if s.producer.Ready? && acts[0].PushStart? then acts[0].v else v);
    }
  }
}
