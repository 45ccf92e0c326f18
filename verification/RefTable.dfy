/**
 The reference table beside the jitter buffer (python/RtpJBuf_mod.c): the buffer keeps bare pointers, the
 table keeps the objects behind them alive. It must hold exactly the datagrams that are buffered.
 */
module RefTable {
  import opened Common
  import opened Rtp
  import opened JitterBuffer
  import opened JitterInvariant
  import opened JitterRuns
  import JitterClass

  /** One slot of the table: the datagram kept alive, by its address and bytes, and the caller's tag. */
  datatype Slot = Free | Ref(d: Datagram, tag: int)

  /** What the caller receives for a ready frame. */
  datatype Wrapper = RtpWrapper(pkt: RtpFrame, ref: Option<Slot>) | ErsWrapper(ers: Frame)

  /** The address given for "no input" when flushing. */
  const NO_INPUT_PTR := 1

  function SlotData(slots: seq<Slot>): multiset<Datagram> {
    if slots == [] then multiset{}
    else (if slots[0].Ref? then multiset{slots[0].d} else multiset{}) + SlotData(slots[1..])
  }

  lemma {:induction false} SlotSet(slots: seq<Slot>, i: nat, r: Slot)
    requires i < |slots| && slots[i].Free? && r.Ref?
    ensures SlotData(slots[i := r]) == SlotData(slots) + multiset{r.d}
    decreases |slots|
  {
    if i == 0 {
      assert slots[0 := r][1..] == slots[1..];
    } else {
      SlotSet(slots[1..], i - 1, r);
      assert slots[i := r][1..] == slots[1..][i - 1 := r];
    }
  }

  lemma SlotClear(slots: seq<Slot>, i: nat)
    requires i < |slots| && slots[i].Ref?
    ensures SlotData(slots) == SlotData(slots[i := Free]) + multiset{slots[i].d}
  {
    SlotSet(slots[i := Free], i, slots[i]);
    assert slots[i := Free][i := slots[i]] == slots;
  }

  lemma {:induction false} SlotFind(slots: seq<Slot>, d: Datagram) returns (i: nat)
    requires d in SlotData(slots)
    ensures i < |slots| && slots[i].Ref? && slots[i].d == d
    decreases |slots|
  {
    if slots[0].Ref? && slots[0].d == d {
      i := 0;
    } else {
      var k := SlotFind(slots[1..], d);
      i := k + 1;
    }
  }

  lemma {:induction false} SlotIn(slots: seq<Slot>, i: nat)
    requires i < |slots| && slots[i].Ref?
    ensures slots[i].d in SlotData(slots)
    decreases |slots|
  {
    if i > 0 {
      SlotIn(slots[1..], i - 1);
    }
  }

  lemma {:induction false} SlotCount(slots: seq<Slot>)
    ensures |SlotData(slots)| <= |slots|
    ensures (forall i :: 0 <= i < |slots| ==> slots[i].Ref?) ==> |SlotData(slots)| == |slots|
    decreases |slots|
  {
    if slots != [] {
      SlotCount(slots[1..]);
    }
  }

  lemma {:induction false} HeldCount(fs: seq<RtpFrame>)
    ensures |Held(fs)| == |fs|
    decreases |fs|
  {
    if fs != [] {
      HeldCount(fs[1..]);
    }
  }

  /** No two datagrams at the same address. */
  ghost predicate DistinctPtrs(ms: multiset<Datagram>) {
    && (forall a, b :: a in ms && b in ms && a.ptr == b.ptr ==> a == b)
    && (forall a :: a in ms ==> ms[a] == 1)
  }

  /** Each slot's tag is the one its datagram came with. */
  ghost predicate Tagged(slots: seq<Slot>, given: map<Datagram, int>) {
    forall i :: 0 <= i < |slots| && slots[i].Ref? ==> slots[i].d in given && given[slots[i].d] == slots[i].tag
  }

  /** The datagrams of the packets in a list, leaving out the one at a given address. */
  function Others(fs: seq<RtpFrame>, ptr: nat): multiset<Datagram> {
    if fs == [] then multiset{}
    else (if fs[0].data.ptr != ptr then multiset{fs[0].data} else multiset{}) + Others(fs[1..], ptr)
  }

  lemma {:induction false} RtpFramesHeld(fs: seq<Frame>)
    ensures Held(RtpFrames(fs)) == Carried(fs)
    decreases |fs|
  {
    if fs != [] {
      RtpFramesHeld(fs[1..]);
      var head := if fs[0].Rtp? then [fs[0].pkt] else [];
      HeldConcat(head, RtpFrames(fs[1..]));
      if fs[0].Rtp? {
        HeldOne(fs[0].pkt);
      }
    }
  }

  predicate HasPtr(fs: seq<RtpFrame>, ptr: nat) {
    exists i :: 0 <= i < |fs| && fs[i].data.ptr == ptr
  }

  /** How often a datagram is among the others. */
  lemma {:induction false} OthersCount(fs: seq<RtpFrame>, ptr: nat, x: Datagram)
    ensures Others(fs, ptr)[x] == if x.ptr == ptr then 0 else Held(fs)[x]
    decreases |fs|
  {
    if fs != [] {
      OthersCount(fs[1..], ptr, x);
    }
  }

  lemma {:induction false} HeldHasPtr(fs: seq<RtpFrame>, ptr: nat)
    ensures HasPtr(fs, ptr) <==> exists x :: x in Held(fs) && x.ptr == ptr
    decreases |fs|
  {
    if fs != [] {
      var rest := fs[1..];
      HeldHasPtr(rest, ptr);
      assert HasPtr(fs, ptr) <==> fs[0].data.ptr == ptr || HasPtr(rest, ptr) by {
        if i :| 0 <= i < |rest| && rest[i].data.ptr == ptr {
          assert fs[i + 1].data.ptr == ptr;
        }
      }
      assert fs[0].data in Held(fs);
    }
  }

  /** Among datagrams at distinct addresses, a list names the input's address exactly if it holds the input. */
  lemma NamesInput(before: multiset<Datagram>, d: Datagram, fs: seq<RtpFrame>)
    requires Held(fs) <= before + multiset{d} && forall x :: x in before ==> x.ptr != d.ptr
    ensures HasPtr(fs, d.ptr) <==> d in Held(fs)
  {
    hide Held, HasPtr;
    HeldHasPtr(fs, d.ptr);
    forall x | x in Held(fs) && x.ptr == d.ptr
      ensures x == d
    {
      assert x in before + multiset{d};
    }
  }

  function Retained(d: Datagram, ready: seq<RtpFrame>, drop: seq<RtpFrame>): bool {
    !HasPtr(ready, d.ptr) && !HasPtr(drop, d.ptr)
  }

  function Full(before: multiset<Datagram>, d: Datagram, retained: bool): multiset<Datagram> {
    if retained then before + multiset{d} else before
  }

  /** The counts of one datagram. */
  lemma TableCount(before: multiset<Datagram>, d: Datagram, after: multiset<Datagram>, ready: seq<RtpFrame>, drop: seq<RtpFrame>,
                   x: Datagram)
    requires before + multiset{d} == after + Held(ready) + Held(drop)
    requires forall y :: y in before ==> y.ptr != d.ptr
    requires Retained(d, ready, drop) <==> d !in Held(ready) && d !in Held(drop)
    ensures Full(before, d, Retained(d, ready, drop))[x] == after[x] + Others(ready, d.ptr)[x] + Others(drop, d.ptr)[x]
  {
    hide Held, Others, HasPtr;
    OthersCount(ready, d.ptr, x);
    OthersCount(drop, d.ptr, x);
    assert (before + multiset{d})[x] == after[x] + Held(ready)[x] + Held(drop)[x];
    assert x.ptr == d.ptr ==> before[x] == 0;
  }

  /** The bookkeeping of one udp_in: what was buffered, with the input if neither list names it, is what is buffered now
      and all that the lists name besides the input. */
  lemma TableAfter(before: multiset<Datagram>, d: Datagram, after: multiset<Datagram>, ready: seq<RtpFrame>, drop: seq<RtpFrame>)
    requires before + multiset{d} == after + Held(ready) + Held(drop)
    requires forall x :: x in before ==> x.ptr != d.ptr
    ensures Full(before, d, Retained(d, ready, drop)) == after + Others(ready, d.ptr) + Others(drop, d.ptr)
    ensures Retained(d, ready, drop) ==> d in after
  {
    hide Held, Others, HasPtr, Full;
    assert Held(ready) <= before + multiset{d} && Held(drop) <= before + multiset{d};
    NamesInput(before, d, ready);
    NamesInput(before, d, drop);
    forall x
      ensures Full(before, d, Retained(d, ready, drop))[x] == (after + Others(ready, d.ptr) + Others(drop, d.ptr))[x]
    {
      TableCount(before, d, after, ready, drop, x);
    }
    assert d in before + multiset{d};
  }

  lemma DistinctPart(all: multiset<Datagram>, part: multiset<Datagram>)
    requires DistinctPtrs(all) && part <= all
    ensures DistinctPtrs(part)
  {
    forall a | a in part
      ensures a in all && part[a] == 1
    {
      assert part[a] <= all[a];
    }
  }

  lemma DistinctWith(before: multiset<Datagram>, d: Datagram)
    requires DistinctPtrs(before) && forall x :: x in before ==> x.ptr != d.ptr
    ensures DistinctPtrs(before + multiset{d})
  {
  }

  /** Addresses of real objects lie beyond the one that stands for "no input". */
  ghost predicate RealAddresses(ms: multiset<Datagram>) {
    forall x :: x in ms ==> x.ptr > NO_INPUT_PTR
  }

  // ----- the table in place -----

  class Table {
    const jb: JitterClass.Buffer
    const refs: array<Slot>
    var dropped: nat
    ghost var given: map<Datagram, int>

    /** The table holds exactly what is buffered, at distinct addresses, each with the tag it came with. */
    ghost predicate Valid()
      reads this, jb, refs
    {
      && Inv(jb.View()) && refs.Length == jb.capacity
      && SlotData(refs[..]) == Held(jb.frames) && DistinctPtrs(Held(jb.frames))
      && RealAddresses(Held(jb.frames))
      && Tagged(refs[..], given)
    }

    constructor (capacity: nat)
      requires capacity < TWO32
      ensures Usable(capacity) ==> Valid()
      ensures refs.Length == capacity && SlotData(refs[..]) == multiset{} && fresh(jb) && fresh(refs) && jb.View() == Init(capacity) && dropped == 0
    {
      jb := new JitterClass.Buffer(capacity);
      refs := new Slot[capacity](i => Free);
      dropped, given := 0, map[];
      new;
      if Usable(capacity) {
        InitInv(capacity);
      }
      AllFree(refs[..]);
    }

    /** store_data_ref: the first free slot takes the reference; false when there is none. */
    method StoreDataRef(r: Slot) returns (ok: bool, ghost at: nat)
      requires r.Ref?
      modifies refs
      ensures ok <==> exists i :: 0 <= i < refs.Length && old(refs[i]).Free?
      ensures ok ==> at < refs.Length && old(refs[..])[at].Free? && refs[..] == old(refs[..])[at := r]
      ensures !ok ==> refs[..] == old(refs[..])
    {
      var i := 0;
      while i < refs.Length
        invariant 0 <= i <= refs.Length
        invariant forall j :: 0 <= j < i ==> refs[j].Ref?
        invariant refs[..] == old(refs[..])
      {
        if refs[i].Free? {
          refs[i] := r;
          assert refs[..] == old(refs[..])[i := r];
          return true, i;
        }
        i := i + 1;
      }
      return false, 0;
    }

    /** fetch_cached_ref: takes the reference with a given address out of the table. */
    method FetchCachedRef(ptr: nat) returns (r: Option<Slot>, ghost at: nat)
      modifies refs
      ensures r.None? ==> refs[..] == old(refs[..]) && forall i :: 0 <= i < refs.Length && refs[i].Ref? ==> refs[i].d.ptr != ptr
      ensures r.Some? ==> r.value.Ref? && r.value.d.ptr == ptr
      ensures r.Some? ==> at < refs.Length && old(refs[..])[at] == r.value && refs[..] == old(refs[..])[at := Free]
    {
      var i := 0;
      while i < refs.Length
        invariant 0 <= i <= refs.Length
        invariant forall j :: 0 <= j < i && refs[j].Ref? ==> refs[j].d.ptr != ptr
        invariant refs[..] == old(refs[..])
      {
        if refs[i].Ref? && refs[i].d.ptr == ptr {
          var found := refs[i];
          refs[i] := Free;
          assert refs[..] == old(refs[..])[i := Free];
          return Some(found), i;
        }
        i := i + 1;
      }
      return None, 0;
    }

    /** Fetching the reference of a datagram that is in the table yields it, with its tag, and takes it out. */
    method TakeRef(x: Datagram) returns (r: Option<Slot>)
      requires x in SlotData(refs[..]) && DistinctPtrs(SlotData(refs[..])) && Tagged(refs[..], given)
      modifies refs
      ensures x in given && r == Some(Ref(x, given[x]))
      ensures old(SlotData(refs[..])) == SlotData(refs[..]) + multiset{x} && Tagged(refs[..], given)
    {
      hide SlotData, DistinctPtrs, Tagged;
      ghost var before := refs[..];
      ghost var k := SlotFind(before, x);
      ghost var at;
      r, at := FetchCachedRef(x.ptr);
      assert r.Some? by {
        assert before[k].d.ptr == x.ptr;
      }
      SameAddress(before, at, x);
      SlotClear(before, at);
      TaggedAt(before, at, given);
    }

    /** process_ready_list: each packet gets its own reference, the input's from the caller and the others from the table. */
    method ProcessReadyList(ready: seq<Frame>, input: Slot, inputPtr: nat) returns (out: seq<Wrapper>)
      requires DistinctPtrs(SlotData(refs[..])) && Tagged(refs[..], given)
      requires Others(RtpFrames(ready), inputPtr) <= SlotData(refs[..])
      modifies refs
      ensures old(SlotData(refs[..])) == SlotData(refs[..]) + Others(RtpFrames(ready), inputPtr)
      ensures Tagged(refs[..], given)
      ensures |out| == |ready| && forall k :: 0 <= k < |ready| ==> WrapperFor(ready[k], out[k], input, inputPtr, given)
    {
      hide SlotData, Others, Tagged, DistinctPtrs;
      out := [];
      var k := 0;
      ghost var all := Others(RtpFrames(ready), inputPtr);
      ghost var start := SlotData(refs[..]);
      assert ready[0..] == ready;
      while k < |ready|
        invariant 0 <= k <= |ready| == k + |ready[k..]|
        invariant SlotData(refs[..]) + all == start + Others(RtpFrames(ready[k..]), inputPtr)
        invariant SlotData(refs[..]) <= start
        invariant Tagged(refs[..], given)
        invariant |out| == k && forall j :: 0 <= j < k ==> WrapperFor(ready[j], out[j], input, inputPtr, given)
      {
        OthersStep(ready, k, inputPtr);
        if ready[k].Rtp? {
          var x := ready[k].pkt.data;
          if x.ptr == inputPtr {
            out := out + [RtpWrapper(ready[k].pkt, Some(input))];
          } else {
            ghost var now, rest := SlotData(refs[..]), Others(RtpFrames(ready[k + 1..]), inputPtr);
            StillThere(now, all, start, rest, x);
            DistinctPart(start, now);
            var r := TakeRef(x);
            TakenOff(now, SlotData(refs[..]), all, start, rest, x);
            out := out + [RtpWrapper(ready[k].pkt, r)];
          }
        } else {
          out := out + [ErsWrapper(ready[k])];
        }
        k := k + 1;
      }
      assert Others(RtpFrames(ready[k..]), inputPtr) == multiset{} by {
        NoOthers(inputPtr);
      }
    }

    /** process_drop_list: counts the drops and lets go of their references. */
    method ProcessDropList(drop: seq<RtpFrame>, inputPtr: nat)
      requires DistinctPtrs(SlotData(refs[..])) && Tagged(refs[..], given)
      requires Others(drop, inputPtr) <= SlotData(refs[..])
      modifies refs, this`dropped
      ensures old(SlotData(refs[..])) == SlotData(refs[..]) + Others(drop, inputPtr)
      ensures Tagged(refs[..], given) && dropped == old(dropped) + |drop|
    {
      hide SlotData, Others, Tagged, DistinctPtrs;
      var k := 0;
      ghost var all := Others(drop, inputPtr);
      ghost var start := SlotData(refs[..]);
      assert drop[0..] == drop;
      while k < |drop|
        invariant 0 <= k <= |drop| == k + |drop[k..]|
        invariant SlotData(refs[..]) + all == start + Others(drop[k..], inputPtr)
        invariant SlotData(refs[..]) <= start
        invariant Tagged(refs[..], given) && dropped == old(dropped) + k
      {
        OthersDropStep(drop, k, inputPtr);
        dropped := dropped + 1;
        var x := drop[k].data;
        if x.ptr != inputPtr {
          ghost var now, rest := SlotData(refs[..]), Others(drop[k + 1..], inputPtr);
          StillThere(now, all, start, rest, x);
          DistinctPart(start, now);
          var r := TakeRef(x);
          TakenOff(now, SlotData(refs[..]), all, start, rest, x);
        }
        k := k + 1;
      }
      assert Others(drop[k..], inputPtr) == multiset{} by {
        NoOthers(inputPtr);
      }
    }

    /** list_has_data_ptr on a ready list, where erasures are passed over. */
    method ReadyHasDataPtr(fs: seq<Frame>, ptr: nat) returns (has: bool)
      ensures has == HasPtr(RtpFrames(fs), ptr)
    {
      hide RtpFrames, HasPtr;
      RtpFramesHasPtr(fs, ptr);
      var k := 0;
      while k < |fs|
        invariant 0 <= k <= |fs|
        invariant forall j :: 0 <= j < k ==> !(fs[j].Rtp? && fs[j].pkt.data.ptr == ptr)
      {
        if fs[k].Rtp? && fs[k].pkt.data.ptr == ptr {
          return true;
        }
        k := k + 1;
      }
      return false;
    }

    /** list_has_data_ptr on a drop list. */
    method DropHasDataPtr(fs: seq<RtpFrame>, ptr: nat) returns (has: bool)
      ensures has == HasPtr(fs, ptr)
    {
      var k := 0;
      while k < |fs|
        invariant 0 <= k <= |fs|
        invariant forall j :: 0 <= j < k ==> fs[j].data.ptr != ptr
      {
        if fs[k].data.ptr == ptr {
          return true;
        }
        k := k + 1;
      }
      return false;
    }

    /** How both wrappers end: the ready list is processed, then the drop list, and what is buffered stays in the table. */
    method HandOut(ready: seq<Frame>, drop: seq<RtpFrame>, input: Slot, inputPtr: nat, ghost after: multiset<Datagram>)
      returns (out: seq<Wrapper>)
      requires DistinctPtrs(SlotData(refs[..])) && Tagged(refs[..], given)
      requires SlotData(refs[..]) == after + Others(RtpFrames(ready), inputPtr) + Others(drop, inputPtr)
      modifies refs, this`dropped
      ensures SlotData(refs[..]) == after && Tagged(refs[..], given) && dropped == old(dropped) + |drop|
      ensures |out| == |ready| && forall k :: 0 <= k < |ready| ==> WrapperFor(ready[k], out[k], input, inputPtr, given)
    {
      hide SlotData, Others, Tagged, DistinctPtrs, RtpFrames;
      ghost var full := SlotData(refs[..]);
      ghost var others := Others(RtpFrames(ready), inputPtr);
      Parts(full, after, others, Others(drop, inputPtr));
      out := ProcessReadyList(ready, input, inputPtr);
      Parts2(full, SlotData(refs[..]), after, others, Others(drop, inputPtr));
      DistinctPart(full, SlotData(refs[..]));
      ProcessDropList(drop, inputPtr);
      CancelLast(SlotData(refs[..]), after, Others(drop, inputPtr));
    }

    /** The input is stored when neither list names it; false when it should be and there is no free slot. */
    method KeepInput(d: Datagram, tag: int, ready: seq<Frame>, drop: seq<RtpFrame>) returns (ok: bool, ghost kept: bool)
      requires Tagged(refs[..], given) && d in given && given[d] == tag
      modifies refs
      ensures kept == Retained(d, RtpFrames(ready), drop) && Tagged(refs[..], given)
      ensures ok ==> SlotData(refs[..]) == Full(old(SlotData(refs[..])), d, kept)
      ensures !ok <==> kept && forall i :: 0 <= i < refs.Length ==> old(refs[i]).Ref?
      ensures !ok ==> refs[..] == old(refs[..])
    {
      hide SlotData, Tagged, RtpFrames, HasPtr;
      var inReady := ReadyHasDataPtr(ready, d.ptr);
      var inDrop := DropHasDataPtr(drop, d.ptr);
      kept := !inReady && !inDrop;
      ok := true;
      if !inReady && !inDrop {
        ghost var slots := refs[..];
        ghost var at;
        ok, at := StoreDataRef(Ref(d, tag));
        if ok {
          SlotSet(slots, at, Ref(d, tag));
          TaggedStore(slots, at, d, tag, given);
        }
      }
    }

    /** The udp_in wrapper. An address that is not already retained keeps the table in step with the buffer. The table is
        exhausted only if it has no slots at all, as soon as the buffer keeps a packet. */
    method UdpIn(d: Datagram, tag: int) returns (r: Result)
      requires Valid() && Room(jb.View()) && !Underflow(jb.View(), d)
      requires d.ptr > NO_INPUT_PTR && forall x :: x in Held(jb.frames) ==> x.ptr != d.ptr
      modifies this, jb, refs
      ensures !r.Exhausted? ==> Valid()
      ensures jb.View() == JitterBuffer.UdpIn(old(jb.View()), d).state
      ensures given == old(given)[d := tag]
      ensures var o := JitterBuffer.UdpIn(old(jb.View()), d);
              && dropped == old(dropped) + |o.drop|
              && (o.error.Some? ==> r == ParseFailed(o.error.value))
              && (r.Exhausted? <==> jb.capacity == 0 && o.error.None? && jb.frames != [])
              && (o.error.None? && !r.Exhausted? ==>
                    && r.Ready? && |r.out| == |o.ready|
                    && (forall k :: 0 <= k < |o.ready| ==> WrapperFor(o.ready[k], r.out[k], Ref(d, tag), d.ptr, given)))
    {
      hide Inv, JitterBuffer.UdpIn, SlotData, Held, Others, Tagged, DistinctPtrs, Carried, RtpFrames, HasPtr, Full, Retained, RealAddresses;
      ghost var s := jb.View();
      ghost var before := Held(jb.frames);
      ghost var o := JitterBuffer.UdpIn(s, d);
      StepConserves(s, In(d));
      RoomOrNone(s, refs[..]);
      TaggedMore(refs[..], given, d, tag);
      given := given[d := tag];
      var error, ready, drop := jb.UdpIn(d);
      ghost var after := Held(jb.frames);
      if error.Some? {
        MalformedConserves(s, d);
        NotNamed(before, after, drop, d.ptr);
        ProcessDropList(drop, d.ptr);
        CancelLast(SlotData(refs[..]), after, Held(drop));
        DistinctPart(before, after);
        RealPart(before, d, after);
        return ParseFailed(error.value);
      }
      ParsedConserves(s, d, ready);
      r := TakeParsed(d, tag, ready, drop, after);
      RealPart(before, d, after);
      HeldNone(jb.frames);
    }

    /** The part of the udp_in wrapper for a packet that parses. */
    method TakeParsed(d: Datagram, tag: int, ready: seq<Frame>, drop: seq<RtpFrame>, ghost after: multiset<Datagram>)
      returns (r: Result)
      requires DistinctPtrs(SlotData(refs[..])) && Tagged(refs[..], given) && d in given && given[d] == tag
      requires SlotData(refs[..]) + multiset{d} == after + Held(RtpFrames(ready)) + Held(drop)
      requires forall x :: x in SlotData(refs[..]) ==> x.ptr != d.ptr
      requires if refs.Length == 0 then SlotData(refs[..]) == multiset{} else exists i :: 0 <= i < refs.Length && refs[i].Free?
      modifies refs, this`dropped
      ensures !r.ParseFailed? && dropped == old(dropped) + |drop|
      ensures r.Exhausted? <==> refs.Length == 0 && after != multiset{}
      ensures r.Ready? ==>
                && SlotData(refs[..]) == after && DistinctPtrs(after) && Tagged(refs[..], given)
                && |r.out| == |ready|
                && forall k :: 0 <= k < |ready| ==> WrapperFor(ready[k], r.out[k], Ref(d, tag), d.ptr, given)
    {
      hide SlotData, Held, Others, Tagged, DistinctPtrs, RtpFrames, HasPtr, Full, Retained;
      ghost var before := SlotData(refs[..]);
      ghost var packets := RtpFrames(ready);
      TableAfter(before, d, after, packets, drop);
      DistinctWith(before, d);
      var ok;
      ghost var kept;
      ok, kept := KeepInput(d, tag, ready, drop);
      if !ok {
        NothingElse(d, after, packets, drop);
        ProcessDropList(RtpFrames(ready), d.ptr);
        ProcessDropList(drop, d.ptr);
        return Exhausted;
      }
      FullIs(before, d, kept);
      ghost var full := SlotData(refs[..]);
      DistinctPart(before + multiset{d}, full);
      Parts(full, after, Others(packets, d.ptr), Others(drop, d.ptr));
      var out := HandOut(ready, drop, Ref(d, tag), d.ptr, after);
      PartOf(full, after, Others(packets, d.ptr), Others(drop, d.ptr));
      DistinctPart(full, after);
      return Ready(out);
    }

    /** The flush wrapper. */
    method Flush() returns (out: seq<Wrapper>)
      requires Valid()
      modifies this, jb, refs
      ensures Valid() && jb.frames == [] && given == old(given)
      ensures var o := JitterBuffer.Flush(old(jb.View()));
              && jb.View() == o.state && dropped == old(dropped) + |o.drop|
              && |out| == |o.ready|
              && forall k :: 0 <= k < |o.ready| ==> WrapperFor(o.ready[k], out[k], Free, NO_INPUT_PTR, given)
    {
      hide Inv, JitterBuffer.Flush, SlotData, Held, Others, Tagged, DistinctPtrs, Carried, RtpFrames;
      ghost var s := jb.View();
      ghost var before := Held(jb.frames);
      FlushConserves(s);
      ghost var o := JitterBuffer.Flush(s);
      var ready, drop := jb.Flush();
      ghost var after := Held(jb.frames);
      FlushParts(before, after, ready, drop, NO_INPUT_PTR);
      Parts(before, after, Others(RtpFrames(ready), NO_INPUT_PTR), Others(drop, NO_INPUT_PTR));
      out := HandOut(ready, drop, Free, NO_INPUT_PTR, after);
      DistinctPart(before, after);
    }
  }

  datatype Result = ParseFailed(error: ParseError) | Exhausted | Ready(out: seq<Wrapper>)

  /** The packets of a ready list name an address exactly if one of its frames is a packet at that address. */
  lemma {:induction false} RtpFramesHasPtr(fs: seq<Frame>, ptr: nat)
    ensures HasPtr(RtpFrames(fs), ptr) <==> exists k :: 0 <= k < |fs| && fs[k].Rtp? && fs[k].pkt.data.ptr == ptr
    decreases |fs|
  {
    if fs != [] {
      var rest := fs[1..];
      RtpFramesHasPtr(rest, ptr);
      var head := if fs[0].Rtp? then [fs[0].pkt] else [];
      HasPtrConcat(head, RtpFrames(rest), ptr);
      if k :| 0 <= k < |rest| && rest[k].Rtp? && rest[k].pkt.data.ptr == ptr {
        assert fs[k + 1] == rest[k];
      }
    }
  }

  lemma HasPtrConcat(fs: seq<RtpFrame>, gs: seq<RtpFrame>, ptr: nat)
    ensures HasPtr(fs + gs, ptr) <==> HasPtr(fs, ptr) || HasPtr(gs, ptr)
  {
    if i :| 0 <= i < |fs| && fs[i].data.ptr == ptr {
      assert (fs + gs)[i].data.ptr == ptr;
    }
    if i :| 0 <= i < |gs| && gs[i].data.ptr == ptr {
      assert (fs + gs)[|fs| + i].data.ptr == ptr;
    }
  }

  lemma RealPart(before: multiset<Datagram>, d: Datagram, after: multiset<Datagram>)
    requires RealAddresses(before) && d.ptr > NO_INPUT_PTR && after <= before + multiset{d}
    ensures RealAddresses(after)
  {
    forall x | x in after
      ensures x.ptr > NO_INPUT_PTR
    {
      assert x in before + multiset{d};
    }
  }

  /** The table has a free slot, unless it has none at all, and then nothing is buffered. */
  lemma RoomOrNone(s: State, slots: seq<Slot>)
    requires Inv(s) && |slots| == s.capacity && SlotData(slots) == Held(s.frames)
    ensures if s.capacity == 0 then s.frames == [] && Held(s.frames) == multiset{}
            else exists i :: 0 <= i < |slots| && slots[i].Free?
  {
    HeldCount(s.frames);
    SlotCount(slots);
    if s.capacity != 0 {
      assert |s.frames| < |slots|;
    }
  }

  lemma HeldNone(fs: seq<RtpFrame>)
    ensures Held(fs) == multiset{} <==> fs == []
  {
    HeldCount(fs);
  }

  /** If a packet taken into an empty buffer stays there, nothing is handed out or dropped. */
  lemma NothingElse(d: Datagram, after: multiset<Datagram>, packets: seq<RtpFrame>, drop: seq<RtpFrame>)
    requires multiset{} + multiset{d} == after + Held(packets) + Held(drop) && d in after
    ensures packets == [] && drop == [] && after != multiset{}
    ensures Others(packets, d.ptr) == multiset{} && Others(drop, d.ptr) == multiset{}
  {
    hide Held;
    HeldNone(packets);
    HeldNone(drop);
    var all := after + Held(packets) + Held(drop);
    assert all == multiset{d};
    forall x
      ensures x !in Held(packets) && x !in Held(drop)
    {
      assert all[x] == multiset{d}[x];
    }
  }

  lemma TaggedMore(slots: seq<Slot>, given: map<Datagram, int>, d: Datagram, tag: int)
    requires Tagged(slots, given) && forall x :: x in SlotData(slots) ==> x.ptr != d.ptr
    ensures Tagged(slots, given[d := tag])
  {
    forall i | 0 <= i < |slots| && slots[i].Ref?
      ensures slots[i].d != d
    {
      SlotIn(slots, i);
    }
  }

  lemma TaggedStore(slots: seq<Slot>, at: nat, d: Datagram, tag: int, given: map<Datagram, int>)
    requires at < |slots| && Tagged(slots, given) && d in given && given[d] == tag
    ensures Tagged(slots[at := Ref(d, tag)], given)
  {
  }

  lemma FullIs(before: multiset<Datagram>, d: Datagram, kept: bool)
    ensures Full(before, d, kept) == (if kept then before + multiset{d} else before)
    ensures Full(before, d, kept) <= before + multiset{d}
  {
  }

  lemma MalformedConserves(s: State, d: Datagram)
    requires Conserved(s, Taken(In(d)), JitterBuffer.UdpIn(s, d)) && JitterBuffer.UdpIn(s, d).error.Some?
    ensures Held(s.frames) == Held(JitterBuffer.UdpIn(s, d).state.frames) + Held(JitterBuffer.UdpIn(s, d).drop)
  {
    hide Held, Carried, JitterBuffer.UdpIn;
    ErrorIffMalformed(s, d);
    HeldNothing();
    var o := JitterBuffer.UdpIn(s, d);
    assert Held(s.frames) + multiset{} == Held(s.frames);
    assert Held(o.state.frames) + multiset{} + Held(o.drop) == Held(o.state.frames) + Held(o.drop);
  }

  lemma ErrorIffMalformed(s: State, d: Datagram)
    ensures JitterBuffer.UdpIn(s, d).error.Some? <==> Parse(d.bytes).Malformed?
    ensures JitterBuffer.UdpIn(s, d).error.Some? ==> JitterBuffer.UdpIn(s, d).ready == []
  {
    hide PurgeStaleTail, Parse, InsertPos, RunLength, ErasureBefore;
  }

  lemma ParsedConserves(s: State, d: Datagram, ready: seq<Frame>)
    requires Conserved(s, Taken(In(d)), JitterBuffer.UdpIn(s, d)) && JitterBuffer.UdpIn(s, d).error.None?
    requires ready == JitterBuffer.UdpIn(s, d).ready
    ensures Held(s.frames) + multiset{d} ==
            Held(JitterBuffer.UdpIn(s, d).state.frames) + Held(RtpFrames(ready)) + Held(JitterBuffer.UdpIn(s, d).drop)
  {
    hide Held, RtpFrames, JitterBuffer.UdpIn;
    ErrorIffMalformed(s, d);
    RtpFramesHeld(ready);
  }

  lemma NotNamed(before: multiset<Datagram>, after: multiset<Datagram>, fs: seq<RtpFrame>, ptr: nat)
    requires before == after + Held(fs) && forall x :: x in before ==> x.ptr != ptr
    ensures Others(fs, ptr) == Held(fs) && Others(fs, ptr) <= before
  {
    hide Held, Others;
    forall x
      ensures Others(fs, ptr)[x] == Held(fs)[x]
    {
      OthersCount(fs, ptr, x);
      assert x in Held(fs) ==> x in before;
    }
  }

  lemma FlushParts(before: multiset<Datagram>, after: multiset<Datagram>, ready: seq<Frame>, drop: seq<RtpFrame>, ptr: nat)
    requires before + multiset{} == after + Carried(ready) + Held(drop) && forall x :: x in before ==> x.ptr > ptr
    ensures before == after + Others(RtpFrames(ready), ptr) + Others(drop, ptr)
  {
    hide Held, Others, Carried, RtpFrames;
    RtpFramesHeld(ready);
    assert before == before + multiset{};
    var packets := RtpFrames(ready);
    NotNamed(before, after + Held(drop), packets, ptr);
    NotNamed(before, after + Held(packets), drop, ptr);
  }

  lemma Parts<T>(full: multiset<T>, after: multiset<T>, r: multiset<T>, d: multiset<T>)
    requires full == after + r + d
    ensures r <= full && (full == multiset{} ==> after == multiset{})
  {
  }

  lemma PartOf<T>(full: multiset<T>, after: multiset<T>, r: multiset<T>, d: multiset<T>)
    requires full == after + r + d
    ensures after <= full
  {
  }

  lemma Parts2<T>(full: multiset<T>, now: multiset<T>, after: multiset<T>, r: multiset<T>, d: multiset<T>)
    requires full == after + r + d && full == now + r
    ensures now == after + d && d <= now && now <= full
  {
    assert now == full - r && after + d == (after + r + d) - r;
  }

  lemma CancelLast<T>(now: multiset<T>, after: multiset<T>, d: multiset<T>)
    requires now + d == after + d
    ensures now == after
  {
    assert now == (now + d) - d && after == (after + d) - d;
  }

  /** What the caller gets for a ready frame: the frame, and for a packet its own datagram and tag. */
  ghost predicate WrapperFor(f: Frame, w: Wrapper, input: Slot, inputPtr: nat, given: map<Datagram, int>) {
    match f
    case Ers(_, _, _) => w == ErsWrapper(f)
    case Rtp(pkt) =>
      if pkt.data.ptr == inputPtr then w == RtpWrapper(pkt, Some(input))
      else pkt.data in given && w == RtpWrapper(pkt, Some(Ref(pkt.data, given[pkt.data])))
  }

  lemma SameAddress(slots: seq<Slot>, at: nat, x: Datagram)
    requires at < |slots| && slots[at].Ref? && slots[at].d.ptr == x.ptr
    requires x in SlotData(slots) && DistinctPtrs(SlotData(slots))
    ensures slots[at].d == x
  {
    SlotIn(slots, at);
  }

  lemma TaggedAt(slots: seq<Slot>, at: nat, given: map<Datagram, int>)
    requires at < |slots| && slots[at].Ref? && Tagged(slots, given)
    ensures slots[at].d in given && given[slots[at].d] == slots[at].tag && Tagged(slots[at := Free], given)
  {
  }

  lemma OthersStep(ready: seq<Frame>, k: nat, ptr: nat)
    requires k < |ready|
    ensures Others(RtpFrames(ready[k..]), ptr) ==
            (if ready[k].Rtp? && ready[k].pkt.data.ptr != ptr then multiset{ready[k].pkt.data} else multiset{})
            + Others(RtpFrames(ready[k + 1..]), ptr)
  {
    var fs := ready[k..];
    assert fs[1..] == ready[k + 1..];
    if ready[k].Rtp? {
      assert RtpFrames(fs)[1..] == RtpFrames(fs[1..]);
    } else {
      assert RtpFrames(fs) == RtpFrames(fs[1..]);
    }
  }

  lemma OthersDropStep(drop: seq<RtpFrame>, k: nat, ptr: nat)
    requires k < |drop|
    ensures Others(drop[k..], ptr) ==
            (if drop[k].data.ptr != ptr then multiset{drop[k].data} else multiset{}) + Others(drop[k + 1..], ptr)
  {
    assert drop[k..][1..] == drop[k + 1..];
  }

  lemma StillThere(now: multiset<Datagram>, all: multiset<Datagram>, start: multiset<Datagram>, rest: multiset<Datagram>, x: Datagram)
    requires all <= start && now + all == start + (multiset{x} + rest)
    ensures x in now
  {
    var l, r := now + all, start + (multiset{x} + rest);
    assert l[x] == r[x];
  }

  /** Taking x out of the table and off the list keeps the account. */
  lemma TakenOff(now: multiset<Datagram>, later: multiset<Datagram>, all: multiset<Datagram>, start: multiset<Datagram>,
                 rest: multiset<Datagram>, x: Datagram)
    requires now + all == start + (multiset{x} + rest) && now == later + multiset{x}
    ensures later + all == start + rest
  {
    assert later + all == (now + all) - multiset{x};
    assert start + rest == (start + (multiset{x} + rest)) - multiset{x};
  }

  lemma NoOthers(ptr: nat)
    ensures Others([], ptr) == multiset{} && RtpFrames([]) == []
  {
  }

  lemma {:induction false} AllFree(slots: seq<Slot>)
    requires forall i :: 0 <= i < |slots| ==> slots[i].Free?
    ensures SlotData(slots) == multiset{}
    decreases |slots|
  {
    if slots != [] {
      AllFree(slots[1..]);
    }
  }
}
