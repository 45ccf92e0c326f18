/**
 The channel table and the poll cache of the server (python/RtpServer_mod.c): the cache is rebuilt when it is
 dirty, and must then list exactly the channels of the table.
 */
module PollCache {
  import opened Common

  datatype Channel = Channel(ptr: nat, fd: int)

  /** The channels of a table, in slot order. */
  function Listed(table: seq<Option<Channel>>): seq<Channel> {
    if table == [] then []
    else
      var n := |table| - 1;
      Listed(table[..n]) + if table[n].Some? then [table[n].value] else []
  }

  lemma {:induction false} ListedPrefix(table: seq<Option<Channel>>, j: nat)
    requires j <= |table|
    ensures Listed(table[..j]) <= Listed(table)
    decreases |table|
  {
    var n := |table| - 1;
    if j <= n {
      ListedPrefix(table[..n], j);
      assert table[..n][..j] == table[..j];
    } else {
      assert table[..j] == table;
    }
  }

  lemma ListedNext(table: seq<Option<Channel>>, j: nat)
    requires j < |table|
    ensures Listed(table[..j + 1]) == Listed(table[..j]) + if table[j].Some? then [table[j].value] else []
    ensures table[j].Some? ==> |Listed(table[..j])| < |Listed(table)|
  {
    assert table[..j + 1][..j] == table[..j];
    ListedPrefix(table, j + 1);
  }

  /** Filling a free slot adds one channel; emptying a slot takes one away. */
  lemma {:induction false} ListedSet(table: seq<Option<Channel>>, i: nat, c: Option<Channel>)
    requires i < |table|
    ensures |Listed(table[i := c])| == |Listed(table)| - (if table[i].Some? then 1 else 0) + (if c.Some? then 1 else 0)
    decreases |table|
  {
    var n := |table| - 1;
    if i < n {
      ListedSet(table[..n], i, c);
      assert table[i := c][..n] == table[..n][i := c];
    } else {
      assert table[i := c][..n] == table[..n];
    }
  }

  function FreeSlots(n: nat): (r: seq<Option<Channel>>)
    ensures |r| == n && forall i :: 0 <= i < n ==> r[i] == None
  {
    seq(n, i => None)
  }

  lemma {:induction false} ListedGrown(table: seq<Option<Channel>>, n: nat)
    ensures Listed(table + FreeSlots(n)) == Listed(table)
    decreases n
  {
    if n == 0 {
      assert table + FreeSlots(0) == table;
    } else {
      var grown := table + FreeSlots(n);
      assert grown[..|grown| - 1] == table + FreeSlots(n - 1);
      ListedGrown(table, n - 1);
    }
  }

  /** The list names the channels at these slots, in ascending order, and these are all that hold a channel. */
  ghost predicate SlotsOf(table: seq<Option<Channel>>, list: seq<Channel>, at: seq<nat>) {
    && |at| == |list|
    && (forall k :: 0 <= k < |at| ==> at[k] < |table| && table[at[k]] == Some(list[k]))
    && (forall k, m :: 0 <= k < m < |at| ==> at[k] < at[m])
    && (forall i :: 0 <= i < |table| && table[i].Some? ==> i in at)
  }

  lemma SlotsSkip(table: seq<Option<Channel>>, list: seq<Channel>, at: seq<nat>)
    requires table != [] && table[|table| - 1].None? && SlotsOf(table[..|table| - 1], list, at)
    ensures SlotsOf(table, list, at)
  {
    var init := table[..|table| - 1];
    assert forall i :: 0 <= i < |init| ==> init[i] == table[i];
  }

  lemma SlotsExtend(table: seq<Option<Channel>>, list: seq<Channel>, at: seq<nat>)
    requires table != [] && table[|table| - 1].Some? && SlotsOf(table[..|table| - 1], list, at)
    ensures SlotsOf(table, list + [table[|table| - 1].value], at + [|table| - 1])
  {
    var n := |table| - 1;
    var init := table[..n];
    var more := at + [n];
    assert forall i :: 0 <= i < n ==> init[i] == table[i];
    forall i | 0 <= i < |table| && table[i].Some?
      ensures i in more
    {
      if i == n {
        assert more[|at|] == n;
      } else {
        var k :| 0 <= k < |at| && at[k] == i;
        assert more[k] == i;
      }
    }
  }

  /** Spelled out: the listing names the slots that hold a channel, each once, in slot order. */
  lemma {:induction false} ListedSlots(table: seq<Option<Channel>>) returns (at: seq<nat>)
    ensures SlotsOf(table, Listed(table), at)
    decreases |table|
  {
    if table == [] {
      at := [];
    } else {
      hide SlotsOf;
      var n := |table| - 1;
      at := ListedSlots(table[..n]);
      if table[n].Some? {
        SlotsExtend(table, Listed(table[..n]), at);
        at := at + [n];
      } else {
        SlotsSkip(table, Listed(table[..n]), at);
        assert Listed(table[..n]) + [] == Listed(table[..n]);
      }
    }
  }

  /** What realloc leaves: the old contents as far as they fit, then whatever is there. */
  function Resized<T>(old_: seq<T>, need: nat, junk: T): (r: seq<T>)
    ensures |r| == need
  {
    if need <= |old_| then old_[..need] else old_ + seq(need - |old_|, i => junk)
  }

  class Server {
    var channels: seq<Option<Channel>>
    var channelsActive: nat
    var pollFds: seq<int>
    var pollIndex: seq<Channel>
    var pollLen: nat
    var pollCap: nat
    var dirty: bool

    /** The count is right, both arrays are at least as large as the capacity says, and a clean cache lists the table. */
    ghost predicate Valid()
      reads this
    {
      && channelsActive == |Listed(channels)|
      && pollLen <= pollCap <= |pollFds| && pollCap <= |pollIndex|
      && (!dirty ==> Fresh(channels))
    }

    ghost predicate Fresh(table: seq<Option<Channel>>)
      requires pollLen <= |pollFds| && pollLen <= |pollIndex|
      reads this
    {
      && pollIndex[..pollLen] == Listed(table)
      && forall k :: 0 <= k < pollLen ==> pollFds[k] == pollIndex[k].fd
    }

    constructor ()
      ensures Valid() && channels == [] && dirty
    {
      channels, channelsActive := [], 0;
      pollFds, pollIndex, pollLen, pollCap, dirty := [], [], 0, 0, true;
    }

    method EnsureCapacity(need: nat, hasMemory: bool) returns (ok: bool)
      requires Valid()
      modifies this`channels, this`dirty
      ensures Valid()
      ensures Listed(channels) == old(Listed(channels))
      ensures !ok ==> channels == old(channels) && dirty == old(dirty)
      ensures !ok ==> need > |channels| && (!hasMemory || need > SIZE_MAX / 2)
      ensures !hasMemory && need > |old(channels)| ==> !ok
      ensures ok && need > |old(channels)| ==> |channels| == Doubled(FirstCap(|old(channels)|), need)
      ensures ok ==> |channels| >= need && |channels| >= |old(channels)|
                     && channels == old(channels) + FreeSlots(|channels| - |old(channels)|)
    {
      if need <= |channels| {
        assert channels == channels + FreeSlots(0);
        return true;
      }
      var newCap := FirstCap(|channels|);
      while newCap < need
        invariant newCap >= 1 && newCap >= |channels|
        invariant Doubled(newCap, need) == Doubled(FirstCap(|channels|), need)
        decreases need - newCap
      {
        if newCap > SIZE_MAX / 2 {
          return false;
        }
        newCap := newCap * 2;
      }
      if !hasMemory {
        return false;
      }
      ListedGrown(channels, newCap - |channels|);
      channels := channels + FreeSlots(newCap - |channels|);
      dirty := true;
      return true;
    }

    method AllocSlot(hasMemory: bool) returns (slot: Option<nat>)
      requires Valid()
      modifies this`channels, this`dirty
      ensures Valid() && Listed(channels) == old(Listed(channels))
      ensures |channels| >= |old(channels)| && channels == old(channels) + FreeSlots(|channels| - |old(channels)|)
      ensures slot.Some? ==> slot.value < |channels| && channels[slot.value] == None
      ensures |channels| == |old(channels)| || |channels| == if |old(channels)| == 0 then 4 else 2 * |old(channels)|
      ensures slot.Some? ==> forall i :: 0 <= i < slot.value ==> channels[i].Some?
      ensures slot.None? ==> forall i :: 0 <= i < |old(channels)| ==> old(channels)[i].Some?
      ensures slot.None? ==> !hasMemory || 2 * |old(channels)| > SIZE_MAX / 2
    {
      hide Listed;
      assert channels == channels + FreeSlots(0);
      var i := 0;
      while i < |channels|
        invariant 0 <= i <= |channels|
        invariant forall j :: 0 <= j < i ==> channels[j].Some?
      {
        if channels[i] == None {
          return Some(i);
        }
        i := i + 1;
      }
      var oldCap := |channels|;
      if oldCap > SIZE_MAX / 2 {
        return None;
      }
      var ok := EnsureCapacity(if oldCap == 0 then 4 else oldCap * 2, hasMemory);
      if !ok {
        return None;
      }
      assert channels[oldCap] == FreeSlots(|channels| - oldCap)[0];
      return Some(oldCap);
    }

    /** The add command; false when no slot could be had. */
    method Add(c: Channel, hasMemory: bool) returns (ok: bool, ghost at: nat)
      requires Valid()
      modifies this`channels, this`channelsActive, this`dirty
      ensures Valid() && |channels| >= |old(channels)|
      ensures var grown := old(channels) + FreeSlots(|channels| - |old(channels)|);
              if ok then at < |channels| && grown[at] == None && channels == grown[at := Some(c)] else channels == grown
      ensures ok ==> channelsActive == old(channelsActive) + 1 && dirty
      ensures !ok ==> channelsActive == old(channelsActive) && forall i :: 0 <= i < |old(channels)| ==> old(channels)[i].Some?
      ensures !ok ==> !hasMemory || 2 * |old(channels)| > SIZE_MAX / 2
    {
      var slot := AllocSlot(hasMemory);
      if slot.None? {
        return false, 0;
      }
      ListedSet(channels, slot.value, Some(c));
      channels := channels[slot.value := Some(c)];
      channelsActive := channelsActive + 1;
      dirty := true;
      return true, slot.value;
    }

    method Find(ptr: nat) returns (r: Option<nat>)
      ensures r.Some? ==> r.value < |channels| && channels[r.value].Some? && channels[r.value].value.ptr == ptr
      ensures r.None? ==> forall i :: 0 <= i < |channels| && channels[i].Some? ==> channels[i].value.ptr != ptr
    {
      var i := 0;
      while i < |channels|
        invariant 0 <= i <= |channels|
        invariant forall j :: 0 <= j < i && channels[j].Some? ==> channels[j].value.ptr != ptr
      {
        if channels[i].Some? && channels[i].value.ptr == ptr {
          return Some(i);
        }
        i := i + 1;
      }
      return None;
    }

    /** The remove command. */
    method Remove(ptr: nat) returns (removed: bool, ghost at: nat)
      requires Valid()
      modifies this`channels, this`channelsActive, this`dirty
      ensures Valid()
      ensures removed ==> at < |old(channels)| && old(channels)[at].Some? && old(channels)[at].value.ptr == ptr
      ensures removed ==> channels == old(channels)[at := None] && channelsActive == old(channelsActive) - 1 && dirty
      ensures !removed ==> channels == old(channels) && channelsActive == old(channelsActive) && dirty == old(dirty)
      ensures !removed ==> forall i :: 0 <= i < |channels| && channels[i].Some? ==> channels[i].value.ptr != ptr
    {
      var r := Find(ptr);
      if r.None? {
        return false, 0;
      }
      ListedSet(channels, r.value, None);
      channels := channels[r.value := None];
      if channelsActive > 0 {
        channelsActive := channelsActive - 1;
      }
      dirty := true;
      return true, r.value;
    }

    /** The drop command: clear_channels and clear_poll_cache. */
    method DropAll()
      requires Valid()
      modifies this
      ensures Valid() && channels == [] && channelsActive == 0 && pollLen == 0 && !dirty
    {
      channels, channelsActive := [], 0;
      pollFds, pollIndex, pollLen, pollCap, dirty := [], [], 0, 0, false;
    }

    /** refresh_poll_cache; either reallocation may fail, and then the cache stays dirty. */
    method Refresh(firstFits: bool, secondFits: bool, junkFd: int, junk: Channel) returns (ok: bool)
      requires Valid()
      modifies this`pollFds, this`pollIndex, this`pollLen, this`pollCap, this`dirty
      ensures Valid()
      ensures ok ==> !dirty && pollIndex[..pollLen] == Listed(channels)
      ensures !ok ==> dirty && pollLen == old(pollLen) && pollCap == old(pollCap)
      ensures !ok ==> !(firstFits && secondFits)
    {
      if !dirty {
        return true;
      }
      var need := channelsActive;
      if need == 0 {
        pollLen, dirty := 0, false;
        return true;
      }
      if need > pollCap {
        if !firstFits {
          return false;
        }
        pollFds := Resized(pollFds, need, junkFd);
        if !secondFits {
          return false;
        }
        pollIndex := Resized(pollIndex, need, junk);
        pollCap := need;
      }
      Rebuild();
      return true;
    }

    method Rebuild()
      requires channelsActive == |Listed(channels)| <= pollCap <= |pollFds| && pollCap <= |pollIndex|
      modifies this`pollFds, this`pollIndex, this`pollLen, this`dirty
      ensures Valid() && !dirty
    {
      var i, j := 0, 0;
      while j < |channels|
        invariant 0 <= j <= |channels|
        invariant |pollFds| == |old(pollFds)| && |pollIndex| == |old(pollIndex)|
        invariant i == |Listed(channels[..j])| <= |Listed(channels)|
        invariant pollIndex[..i] == Listed(channels[..j])
        invariant forall k :: 0 <= k < i ==> pollFds[k] == pollIndex[k].fd
      {
        ListedNext(channels, j);
        ListedPrefix(channels, j + 1);
        if channels[j].Some? {
          pollFds := pollFds[i := channels[j].value.fd];
          pollIndex := pollIndex[i := channels[j].value];
          i := i + 1;
        }
        j := j + 1;
      }
      assert channels[..j] == channels;
      pollLen, dirty := i, false;
    }
  }
}
