/**
 The intrusive schedule list of python/RtpProc_mod.c: links kept inside the channel slots. The lemmas here
 say what relinking one place does to the whole list; the class in ProcSchedule.dfy performs it.
 */
module ProcList {
  import opened Common

  /** A pointer into the channel array: which allocation of the array, and which slot of it. */
  datatype Ptr = Null | At(block: nat, slot: nat)

  datatype Channel = Channel(
    active: bool,
    scheduled: bool,
    id: nat,
    nextRun: nat,
    schedNext: Ptr)

  const EMPTY_SLOT := Channel(false, false, 0, 0, Null)

  /** The pointer to place k of the list, or to its end. */
  function PtrAt(block: nat, order: seq<nat>, k: nat): Ptr {
    if k < |order| then At(block, order[k]) else Null
  }

  ghost predicate InRange(order: seq<nat>, n: nat) {
    forall k :: 0 <= k < |order| ==> order[k] < n
  }

  /** Following the links from head visits exactly the slots of order and ends. */
  ghost predicate Linked(cs: seq<Channel>, block: nat, head: Ptr, order: seq<nat>) {
    && Distinct(order) && InRange(order, |cs|)
    && head == PtrAt(block, order, 0)
    && forall k :: 0 <= k < |order| ==> cs[order[k]].schedNext == PtrAt(block, order, k + 1)
  }

  /** Deadlines never decrease along the list. */
  ghost predicate SortedBy(cs: seq<Channel>, order: seq<nat>)
    requires InRange(order, |cs|)
  {
    forall i, j :: 0 <= i < j < |order| ==> cs[order[i]].nextRun <= cs[order[j]].nextRun
  }

  /** The list holds each active scheduled channel, and nothing else. */
  ghost predicate Exact(cs: seq<Channel>, order: seq<nat>) {
    forall i :: 0 <= i < |cs| ==> (i in order <==> cs[i].active && cs[i].scheduled)
  }

  function InsertAt(order: seq<nat>, k: nat, i: nat): (r: seq<nat>)
    requires k <= |order|
    ensures |r| == |order| + 1
  {
    order[..k] + [i] + order[k..]
  }

  function RemoveAt(order: seq<nat>, k: nat): (r: seq<nat>)
    requires k < |order|
    ensures |r| == |order| - 1
  {
    order[..k] + order[k + 1..]
  }

  // ----- insertion -----

  /** The slots and head after slot i is linked in before place k. */
  function LinkIn(cs: seq<Channel>, block: nat, order: seq<nat>, k: nat, i: nat): seq<Channel>
    requires k <= |order| && i < |cs| && (k > 0 ==> order[k - 1] < |cs|)
  {
    var cs1 := cs[i := cs[i].(schedNext := PtrAt(block, order, k))];
    if k == 0 then cs1 else cs1[order[k - 1] := cs1[order[k - 1]].(schedNext := At(block, i))]
  }

  lemma InsertDistinct(order: seq<nat>, k: nat, i: nat)
    requires k <= |order| && Distinct(order) && i !in order
    ensures Distinct(InsertAt(order, k, i))
  {
  }

  lemma InsertIndex(order: seq<nat>, k: nat, i: nat, m: nat)
    requires k <= |order| && m <= |order|
    ensures InsertAt(order, k, i)[m] == if m < k then order[m] else if m == k then i else order[m - 1]
  {
  }

  lemma InsertLinked(cs: seq<Channel>, block: nat, head: Ptr, order: seq<nat>, k: nat, i: nat)
    requires Linked(cs, block, head, order) && k <= |order| && i < |cs| && i !in order
    ensures Linked(LinkIn(cs, block, order, k, i), block, if k == 0 then At(block, i) else head, InsertAt(order, k, i))
  {
    var more := InsertAt(order, k, i);
    var cs' := LinkIn(cs, block, order, k, i);
    InsertDistinct(order, k, i);
    hide Distinct, InsertAt;
    forall m | 0 <= m < |more|
      ensures more[m] < |cs'| && cs'[more[m]].schedNext == PtrAt(block, more, m + 1)
    {
      InsertLinkAt(cs, block, head, order, k, i, m);
    }
    InsertIndex(order, k, i, 0);
  }

  lemma InsertLinkAt(cs: seq<Channel>, block: nat, head: Ptr, order: seq<nat>, k: nat, i: nat, m: nat)
    requires Linked(cs, block, head, order) && k <= |order| && i < |cs| && i !in order && m <= |order|
    ensures var more := InsertAt(order, k, i);
            var cs' := LinkIn(cs, block, order, k, i);
            more[m] < |cs'| && cs'[more[m]].schedNext == PtrAt(block, more, m + 1)
  {
    hide InsertAt;
    InsertIndex(order, k, i, m);
    if m < |order| {
      InsertIndex(order, k, i, m + 1);
    }
    if m < k {
      assert order[m] in order;
      assert cs[order[m]].schedNext == PtrAt(block, order, m + 1);
    } else if m > k {
      assert order[m - 1] in order;
      assert cs[order[m - 1]].schedNext == PtrAt(block, order, m);
    }
  }

  // ----- removal -----

  function LinkOut(cs: seq<Channel>, order: seq<nat>, k: nat): seq<Channel>
    requires k < |order| && InRange(order, |cs|)
  {
    var i := order[k];
    var cs1 := if k == 0 then cs else cs[order[k - 1] := cs[order[k - 1]].(schedNext := cs[i].schedNext)];
    cs1[i := cs1[i].(scheduled := false, schedNext := Null)]
  }

  lemma RemoveIndex(order: seq<nat>, k: nat, m: nat)
    requires k < |order| && m < |order| - 1
    ensures RemoveAt(order, k)[m] == if m < k then order[m] else order[m + 1]
  {
  }

  lemma RemoveDistinct(order: seq<nat>, k: nat)
    requires k < |order| && Distinct(order)
    ensures Distinct(RemoveAt(order, k)) && order[k] !in RemoveAt(order, k)
    ensures forall x :: x in RemoveAt(order, k) <==> x in order && x != order[k]
  {
    var less := RemoveAt(order, k);
    forall x | x in order && x != order[k]
      ensures x in less
    {
      var m :| 0 <= m < |order| && order[m] == x;
      assert less[if m < k then m else m - 1] == x;
    }
  }

  lemma RemoveLinked(cs: seq<Channel>, block: nat, head: Ptr, order: seq<nat>, k: nat)
    requires Linked(cs, block, head, order) && k < |order|
    ensures Linked(LinkOut(cs, order, k), block, if k == 0 then cs[order[0]].schedNext else head, RemoveAt(order, k))
  {
    var less := RemoveAt(order, k);
    var cs' := LinkOut(cs, order, k);
    RemoveDistinct(order, k);
    hide RemoveAt;
    forall m | 0 <= m < |less|
      ensures less[m] < |cs'| && cs'[less[m]].schedNext == PtrAt(block, less, m + 1)
    {
      RemoveLinkAt(cs, block, head, order, k, m);
    }
    if less != [] {
      RemoveIndex(order, k, 0);
    }
  }

  lemma RemoveLinkAt(cs: seq<Channel>, block: nat, head: Ptr, order: seq<nat>, k: nat, m: nat)
    requires Linked(cs, block, head, order) && k < |order| && m < |order| - 1
    ensures var less := RemoveAt(order, k);
            var cs' := LinkOut(cs, order, k);
            less[m] < |cs'| && cs'[less[m]].schedNext == PtrAt(block, less, m + 1)
  {
    hide RemoveAt;
    RemoveIndex(order, k, m);
    if m + 1 < |order| - 1 {
      RemoveIndex(order, k, m + 1);
    }
    assert cs[order[m]].schedNext == PtrAt(block, order, m + 1);
    assert cs[order[m + 1]].schedNext == PtrAt(block, order, m + 2);
    assert order[m] != order[m + 1];
    if m < k - 1 {
      assert order[m] != order[k - 1] && order[m] != order[k];
    } else if m >= k {
      assert order[m + 1] != order[k];
      assert k > 0 ==> order[m + 1] != order[k - 1];
    }
  }

  // ----- order and contents -----

  lemma InsertSorted(cs: seq<Channel>, order: seq<nat>, k: nat, i: nat)
    requires InRange(order, |cs|) && SortedBy(cs, order) && k <= |order| && i < |cs|
    requires forall m :: 0 <= m < k ==> cs[order[m]].nextRun <= cs[i].nextRun
    requires k < |order| ==> cs[i].nextRun < cs[order[k]].nextRun
    ensures InRange(InsertAt(order, k, i), |cs|) && SortedBy(cs, InsertAt(order, k, i))
  {
    var more := InsertAt(order, k, i);
    forall m | 0 <= m < |more|
      ensures more[m] < |cs|
    {
      InsertIndex(order, k, i, m);
    }
    hide InsertAt;
    forall a, b | 0 <= a < b < |more|
      ensures cs[more[a]].nextRun <= cs[more[b]].nextRun
    {
      InsertIndex(order, k, i, a);
      InsertIndex(order, k, i, b);
    }
  }

  lemma RemoveSorted(cs: seq<Channel>, order: seq<nat>, k: nat)
    requires InRange(order, |cs|) && SortedBy(cs, order) && k < |order|
    ensures InRange(RemoveAt(order, k), |cs|) && SortedBy(cs, RemoveAt(order, k))
  {
    var less := RemoveAt(order, k);
    forall m | 0 <= m < |less|
      ensures less[m] < |cs|
    {
      RemoveIndex(order, k, m);
    }
    hide RemoveAt;
    forall a, b | 0 <= a < b < |less|
      ensures cs[less[a]].nextRun <= cs[less[b]].nextRun
    {
      RemoveIndex(order, k, a);
      RemoveIndex(order, k, b);
    }
  }

  lemma InsertMembers(order: seq<nat>, k: nat, i: nat)
    requires k <= |order|
    ensures forall x :: x in InsertAt(order, k, i) <==> x in order || x == i
  {
    var more := InsertAt(order, k, i);
    assert more[k] == i;
    forall x | x in order
      ensures x in more
    {
      var m :| 0 <= m < |order| && order[m] == x;
      assert more[if m < k then m else m + 1] == x;
    }
  }

  /** A slot that is not scheduled has no link, and a free slot is not scheduled. */
  ghost predicate Quiet(cs: seq<Channel>) {
    forall i :: 0 <= i < |cs| ==>
      && (!cs[i].active ==> !cs[i].scheduled)
      && (!cs[i].scheduled ==> cs[i].schedNext == Null)
  }

  ghost predicate ListInv(cs: seq<Channel>, block: nat, head: Ptr, order: seq<nat>) {
    Linked(cs, block, head, order) && SortedBy(cs, order) && Exact(cs, order) && Quiet(cs)
  }

  /** Everything but the links is the same. */
  ghost predicate Agree(cs: seq<Channel>, ds: seq<Channel>) {
    |ds| == |cs| && forall j :: 0 <= j < |cs| ==> ds[j] == cs[j].(schedNext := ds[j].schedNext)
  }

  /** A place for deadline t: everything before it is due no later, everything from it on is due later. */
  ghost predicate PlaceFor(cs: seq<Channel>, order: seq<nat>, t: nat, k: nat)
    requires InRange(order, |cs|)
  {
    && k <= |order|
    && (forall m :: 0 <= m < k ==> cs[order[m]].nextRun <= t)
    && (k < |order| ==> t < cs[order[k]].nextRun)
  }

  lemma LinkInAgrees(cs: seq<Channel>, block: nat, order: seq<nat>, k: nat, i: nat)
    requires k <= |order| && i < |cs| && (k > 0 ==> order[k - 1] < |cs|)
    ensures Agree(cs, LinkIn(cs, block, order, k, i))
  {
  }

  lemma LinkOutAgrees(cs: seq<Channel>, order: seq<nat>, k: nat)
    requires k < |order| && InRange(order, |cs|)
    ensures var i := order[k]; Agree(cs[i := cs[i].(scheduled := false)], LinkOut(cs, order, k))
  {
  }

  lemma SortedAgrees(cs: seq<Channel>, ds: seq<Channel>, order: seq<nat>)
    requires Agree(cs, ds) && InRange(order, |cs|) && SortedBy(cs, order)
    ensures SortedBy(ds, order)
  {
  }

  /** Slots that are not in the list may change freely as far as links and order go. */
  lemma LinkedElsewhere(cs: seq<Channel>, block: nat, head: Ptr, order: seq<nat>, i: nat, c: Channel)
    requires Linked(cs, block, head, order) && SortedBy(cs, order) && i < |cs| && i !in order
    ensures Linked(cs[i := c], block, head, order) && SortedBy(cs[i := c], order)
  {
    var ds := cs[i := c];
    forall k | 0 <= k < |order|
      ensures ds[order[k]] == cs[order[k]]
    {
      assert order[k] in order;
    }
  }

  /** Linking a newly scheduled channel in at its place. */
  lemma LinkInKeeps(cs: seq<Channel>, block: nat, head: Ptr, order: seq<nat>, k: nat, i: nat)
    requires Linked(cs, block, head, order) && SortedBy(cs, order) && i < |cs| && i !in order
    requires PlaceFor(cs, order, cs[i].nextRun, k)
    ensures var ds := LinkIn(cs, block, order, k, i);
            var more := InsertAt(order, k, i);
            Linked(ds, block, if k == 0 then At(block, i) else head, more) && SortedBy(ds, more) && Agree(cs, ds)
  {
    hide Distinct, InsertAt, LinkIn;
    InsertLinked(cs, block, head, order, k, i);
    InsertSorted(cs, order, k, i);
    LinkInAgrees(cs, block, order, k, i);
    SortedAgrees(cs, LinkIn(cs, block, order, k, i), InsertAt(order, k, i));
  }

  /** The slots after channel i is given deadline t and linked in at place k. */
  function Scheduled(cs: seq<Channel>, block: nat, order: seq<nat>, k: nat, i: nat, t: nat): seq<Channel>
    requires k <= |order| && i < |cs| && (k > 0 ==> order[k - 1] < |cs|)
  {
    LinkIn(cs[i := cs[i].(nextRun := t, scheduled := true)], block, order, k, i)
  }

  lemma ScheduledQuiet(cs: seq<Channel>, block: nat, order: seq<nat>, k: nat, i: nat, t: nat)
    requires k <= |order| && InRange(order, |cs|) && Exact(cs, order) && Quiet(cs)
    requires i < |cs| && cs[i].active
    requires forall x :: x in InsertAt(order, k, i) <==> x in order || x == i
    requires k > 0 ==> order[k - 1] in order
    ensures var ds := Scheduled(cs, block, order, k, i, t); Quiet(ds) && Exact(ds, InsertAt(order, k, i))
  {
    hide InsertAt;
  }

  lemma ScheduleKeeps(cs: seq<Channel>, block: nat, head: Ptr, order: seq<nat>, k: nat, i: nat, t: nat)
    requires ListInv(cs, block, head, order) && i < |cs| && cs[i].active && !cs[i].scheduled
    requires PlaceFor(cs, order, t, k)
    ensures ListInv(Scheduled(cs, block, order, k, i, t), block, if k == 0 then At(block, i) else head, InsertAt(order, k, i))
  {
    var cs1 := cs[i := cs[i].(nextRun := t, scheduled := true)];
    assert i !in order;
    hide Linked, SortedBy, PlaceFor, InsertAt, Exact, Quiet, LinkIn;
    LinkedRange(cs, block, head, order);
    PlaceRange(cs, order, t, k);
    LinkedElsewhere(cs, block, head, order, i, cs1[i]);
    PlaceElsewhere(cs, order, t, k, i, cs1[i]);
    LinkInKeeps(cs1, block, head, order, k, i);
    InsertMembers(order, k, i);
    ScheduledQuiet(cs, block, order, k, i, t);
  }

  lemma LinkedRange(cs: seq<Channel>, block: nat, head: Ptr, order: seq<nat>)
    requires Linked(cs, block, head, order)
    ensures InRange(order, |cs|)
  {
  }

  lemma PlaceRange(cs: seq<Channel>, order: seq<nat>, t: nat, k: nat)
    requires InRange(order, |cs|) && PlaceFor(cs, order, t, k)
    ensures k <= |order| && (k > 0 ==> order[k - 1] < |cs| && order[k - 1] in order)
  {
  }

  /** One link of the list. */
  lemma LinkAt(cs: seq<Channel>, block: nat, head: Ptr, order: seq<nat>, k: nat)
    requires Linked(cs, block, head, order)
    ensures head == PtrAt(block, order, 0)
    ensures k < |order| ==> order[k] < |cs| && cs[order[k]].schedNext == PtrAt(block, order, k + 1)
  {
  }

  lemma PlaceElsewhere(cs: seq<Channel>, order: seq<nat>, t: nat, k: nat, i: nat, c: Channel)
    requires InRange(order, |cs|) && PlaceFor(cs, order, t, k) && i < |cs| && i !in order
    ensures PlaceFor(cs[i := c], order, t, k)
  {
    var ds := cs[i := c];
    forall m | 0 <= m < |order|
      ensures ds[order[m]] == cs[order[m]]
    {
      assert order[m] in order;
    }
  }

  /** Unlinking place k. */
  lemma UnscheduleKeeps(cs: seq<Channel>, block: nat, head: Ptr, order: seq<nat>, k: nat)
    requires ListInv(cs, block, head, order) && k < |order|
    ensures ListInv(LinkOut(cs, order, k), block, if k == 0 then cs[order[0]].schedNext else head, RemoveAt(order, k))
  {
    var i := order[k];
    var cs1 := cs[i := cs[i].(scheduled := false)];
    var ds := LinkOut(cs, order, k);
    RemoveLinked(cs, block, head, order, k);
    RemoveDistinct(order, k);
    LinkOutAgrees(cs, order, k);
    assert SortedBy(ds, RemoveAt(order, k)) by {
      hide Linked, Distinct, LinkOut, RemoveAt;
      RemoveSorted(cs, order, k);
      SortedUnscheduled(cs, RemoveAt(order, k), i);
      SortedAgrees(cs1, ds, RemoveAt(order, k));
    }
    assert Quiet(ds) && Exact(ds, RemoveAt(order, k)) by {
      hide Linked, SortedBy, RemoveAt;
      UnlinkedQuiet(cs, order, k);
    }
    hide Linked, SortedBy, LinkOut, RemoveAt;
  }

  lemma SortedUnscheduled(cs: seq<Channel>, order: seq<nat>, i: nat)
    requires InRange(order, |cs|) && SortedBy(cs, order) && i < |cs|
    ensures SortedBy(cs[i := cs[i].(scheduled := false)], order)
  {
  }

  lemma UnlinkedQuiet(cs: seq<Channel>, order: seq<nat>, k: nat)
    requires k < |order| && InRange(order, |cs|) && Distinct(order) && Exact(cs, order) && Quiet(cs)
    requires forall x :: x in RemoveAt(order, k) <==> x in order && x != order[k]
    requires k > 0 ==> order[k - 1] in order
    ensures Quiet(LinkOut(cs, order, k)) && Exact(LinkOut(cs, order, k), RemoveAt(order, k))
  {
    hide RemoveAt;
  }

  // ----- rebuilding -----

  /** A free slot is not scheduled. */
  ghost predicate FreeUnscheduled(cs: seq<Channel>) {
    forall i :: 0 <= i < |cs| ==> (!cs[i].active ==> !cs[i].scheduled)
  }

  /** Of the first n slots, the list holds the active scheduled ones and the others have no link. */
  ghost predicate BuiltUpTo(cs: seq<Channel>, order: seq<nat>, n: nat) {
    && (forall x :: x in order ==> x < n)
    && (forall i :: 0 <= i < n && i < |cs| ==>
          && (i in order <==> cs[i].active && cs[i].scheduled)
          && (!cs[i].scheduled ==> cs[i].schedNext == Null))
  }

  lemma BuiltSkip(cs: seq<Channel>, order: seq<nat>, n: nat)
    requires BuiltUpTo(cs, order, n) && n < |cs| && !(cs[n].active && cs[n].scheduled)
    ensures n !in order && BuiltUpTo(cs[n := cs[n].(schedNext := Null)], order, n + 1)
  {
  }

  lemma BuiltLink(cs: seq<Channel>, block: nat, order: seq<nat>, k: nat, n: nat)
    requires BuiltUpTo(cs, order, n) && n < |cs| && cs[n].active && cs[n].scheduled
    requires k <= |order| && InRange(order, |cs|)
    ensures n !in order
    ensures BuiltUpTo(LinkIn(cs, block, order, k, n), InsertAt(order, k, n), n + 1)
  {
    InsertMembers(order, k, n);
    if k > 0 {
      assert order[k - 1] in order;
    }
    hide InsertAt;
  }

  lemma BuiltAll(cs: seq<Channel>, block: nat, head: Ptr, order: seq<nat>)
    requires Linked(cs, block, head, order) && SortedBy(cs, order) && BuiltUpTo(cs, order, |cs|) && FreeUnscheduled(cs)
    ensures ListInv(cs, block, head, order)
  {
    hide Linked, SortedBy;
  }

  lemma AgreeTrans(a: seq<Channel>, b: seq<Channel>, c: seq<Channel>)
    requires Agree(a, b) && Agree(b, c)
    ensures Agree(a, c)
  {
  }

  lemma AgreeUnlink(cs: seq<Channel>, i: nat)
    requires i < |cs|
    ensures Agree(cs, cs[i := cs[i].(schedNext := Null)])
  {
  }

  lemma FreeAgrees(cs: seq<Channel>, ds: seq<Channel>)
    requires Agree(cs, ds) && FreeUnscheduled(cs)
    ensures FreeUnscheduled(ds)
  {
  }

  // ----- growth and free slots -----

  function EmptySlots(n: nat): (r: seq<Channel>)
    ensures |r| == n && forall i :: 0 <= i < n ==> r[i] == EMPTY_SLOT
  {
    seq(n, i => EMPTY_SLOT)
  }

  /** In the same allocation, free slots at the end leave the list as it is. */
  lemma GrowKeeps(cs: seq<Channel>, block: nat, head: Ptr, order: seq<nat>, n: nat)
    requires ListInv(cs, block, head, order)
    ensures ListInv(cs + EmptySlots(n), block, head, order)
  {
    var ds := cs + EmptySlots(n);
    assert Linked(ds, block, head, order) && SortedBy(ds, order) by {
      forall k | 0 <= k < |order|
        ensures ds[order[k]] == cs[order[k]]
      {
      }
    }
    hide Linked, SortedBy;
    assert forall x :: x in order ==> x < |cs|;
  }

  /** With an empty list a move of the array leaves no stale pointer. */
  lemma MoveEmpty(cs: seq<Channel>, block: nat, order: seq<nat>, block': nat)
    requires ListInv(cs, block, Null, order)
    ensures ListInv(cs, block', Null, order)
  {
    assert order == [];
  }

  /** A slot that is not scheduled may be replaced by another such. */
  lemma ReplaceQuiet(cs: seq<Channel>, block: nat, head: Ptr, order: seq<nat>, i: nat, c: Channel)
    requires ListInv(cs, block, head, order) && i < |cs| && !cs[i].scheduled && !c.scheduled && c.schedNext == Null
    ensures ListInv(cs[i := c], block, head, order)
  {
    assert i !in order;
    hide Linked, SortedBy;
    LinkedElsewhere(cs, block, head, order, i, c);
  }
}
