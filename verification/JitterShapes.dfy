/**
 Concrete runs of the jitter buffer, followed by the numbers it holds: what one packet does to a buffer whose
 numbers are known. The runs that show where the guarantees end are put together from these steps.
 */
module JitterShapes {
  import opened Common
  import opened Rtp
  import opened JitterBuffer
  import opened JitterInvariant
  import opened JitterRuns
  import opened JitterNumbers

  /** A minimal packet with the given sequence number and timestamp. */
  function Probe(seqno: nat, ts: nat): Datagram
    requires seqno < EPOCH && ts < TWO32
  {
    Datagram(1, Encode(Packet(false, PCMU, seqno, ts, 0, [], NoExt, [], [])))
  }

  lemma ProbeParses(seqno: nat, ts: nat)
    requires seqno < EPOCH && ts < TWO32
    ensures var r := Parse(Probe(seqno, ts).bytes); r.Parsed? && r.info.seqno == seqno && r.info.ts == ts
  {
    ParseEncode(Packet(false, PCMU, seqno, ts, 0, [], NoExt, [], []));
  }

  /** The buffer holds exactly these numbers, its tail has the given age, and the marks are as they should be. */
  ghost predicate Shape(s: State, last: nat, mask: nat, nums: seq<nat>, age: nat) {
    && s.lastLseq == last && s.mask == mask && mask % 0x1_0000 == 0 && mask <= TWO64 - 3 * EPOCH
    && nums != [] && s.size == |nums| == |s.frames|
    && (forall i :: 0 <= i < |nums| ==> s.frames[i].lseq == nums[i])
    && s.lastMax == nums[|nums| - 1] < mask + EPOCH
    && s.frames[|nums| - 1].jbcnt == age
  }

  ghost predicate Ascending(nums: seq<nat>) {
    forall i, j :: 0 <= i < j < |nums| ==> nums[i] < nums[j]
  }

  /** Nothing is due: the head does not follow the last number handed out. */
  predicate HeadWaits(last: nat, nums: seq<nat>)
    requires nums != []
  {
    last == LSEQ_NONE || last + 2 <= nums[0]
  }

  // ----- the purge -----

  lemma PurgeIdle(s: State, last: nat, mask: nat, nums: seq<nat>, age: nat)
    requires Shape(s, last, mask, nums, age) && |nums| < Sub32(s.capacity, 1)
    ensures PurgeStaleTail(s) == (s, [])
  {
  }

  lemma PurgeAges(s: State, last: nat, mask: nat, nums: seq<nat>, age: nat)
    requires Shape(s, last, mask, nums, age) && |nums| == s.capacity - 1 && age + 1 < s.capacity
    ensures var (s1, purged) := PurgeStaleTail(s);
            purged == [] && Shape(s1, last, mask, nums, age + 1) && s1.capacity == s.capacity
  {
  }

  /** A tail that has aged enough is dropped; the epoch base stays where it is. */
  lemma PurgeDrops(s: State, last: nat, mask: nat, nums: seq<nat>, age: nat)
    requires Shape(s, last, mask, nums, age) && |nums| == s.capacity - 1 >= 2 && age + 1 >= s.capacity && Ascending(nums)
    ensures var s1 := PurgeStaleTail(s).0;
            var n := |nums| - 1;
            && Shape(s1, last, mask, nums[..n], s1.frames[n - 1].jbcnt) && s1.capacity == s.capacity
  {
  }

  // ----- admission -----

  lemma {:induction false} PosBehind(frames: seq<RtpFrame>, nums: seq<nat>, lseq: nat)
    requires |frames| == |nums| && forall i :: 0 <= i < |nums| ==> frames[i].lseq == nums[i] < lseq
    ensures InsertPos(frames, lseq) == |frames|
    decreases |frames|
  {
    if frames != [] {
      PosBehind(frames[1..], nums[1..], lseq);
    }
  }

  lemma {:induction false} PosAtTail(frames: seq<RtpFrame>, nums: seq<nat>)
    requires |frames| == |nums| > 0 && Ascending(nums) && forall i :: 0 <= i < |nums| ==> frames[i].lseq == nums[i]
    ensures InsertPos(frames, nums[|nums| - 1]) == |frames| - 1
    decreases |frames|
  {
    if |frames| > 1 {
      PosAtTail(frames[1..], nums[1..]);
    }
  }

  lemma AdmitDup(s: State, last: nat, mask: nat, nums: seq<nat>, age: nat, fp: RtpFrame, purged: seq<RtpFrame>)
    requires Shape(s, last, mask, nums, age) && Ascending(nums)
    requires fp.lseq == nums[|nums| - 1] && (last == LSEQ_NONE || last < fp.lseq)
    ensures var t := Admit(s, fp, purged).state; Shape(t, last, mask, nums, age) && t.capacity == s.capacity
  {
    hide InsertPos, Ascending;
    PosAtTail(s.frames, nums);
  }

  lemma TailAppended(s: State, last: nat, mask: nat, nums: seq<nat>, age: nat, fp: RtpFrame)
    requires Shape(s, last, mask, nums, age) && fp.lseq < mask + EPOCH && fp.jbcnt == 0
    ensures Shape(Insert(s, fp, |s.frames|), last, mask, nums + [fp.lseq], 0)
  {
  }

  lemma AllBelow(nums: seq<nat>, n: nat)
    requires nums != [] && Ascending(nums) && nums[|nums| - 1] < n
    ensures forall i :: 0 <= i < |nums| ==> nums[i] < n
    ensures Ascending(nums + [n])
  {
  }

  lemma AdmitTail(s: State, last: nat, mask: nat, nums: seq<nat>, age: nat, fp: RtpFrame, purged: seq<RtpFrame>)
    requires Shape(s, last, mask, nums, age) && Ascending(nums) && HeadWaits(last, nums)
    requires nums[|nums| - 1] < fp.lseq
    ensures Admit(s, fp, purged) == Settle(Insert(s, fp, |s.frames|), purged)
  {
    hide Settle, InsertPos, Spliced;
    AllBelow(nums, fp.lseq);
    hide Ascending;
    PosBehind(s.frames, nums, fp.lseq);
    assert last == LSEQ_NONE || last < fp.lseq;
  }

  /** Below the capacity a packet beyond the tail is appended. */
  lemma AdmitAppends(s: State, last: nat, mask: nat, nums: seq<nat>, age: nat, fp: RtpFrame, purged: seq<RtpFrame>)
    requires Shape(s, last, mask, nums, age) && Ascending(nums) && HeadWaits(last, nums) && |nums| + 1 != s.capacity
    requires nums[|nums| - 1] < fp.lseq < mask + EPOCH && fp.jbcnt == 0
    ensures var t := Admit(s, fp, purged).state; Shape(t, last, mask, nums + [fp.lseq], 0) && t.capacity == s.capacity
  {
    hide Shape, Ascending, Insert, Admit;
    AdmitTail(s, last, mask, nums, age, fp, purged);
    TailAppended(s, last, mask, nums, age, fp);
    InsertCapacity(s, fp);
    ShapeMarks(s, last, mask, nums, age);
    assert (nums + [fp.lseq])[0] == nums[0];
    SettleWaits(Insert(s, fp, |s.frames|), last, mask, nums + [fp.lseq], 0, purged);
  }

  lemma InsertCapacity(s: State, fp: RtpFrame)
    ensures Insert(s, fp, |s.frames|).capacity == s.capacity
  {
  }

  lemma SettleWaits(s: State, last: nat, mask: nat, nums: seq<nat>, age: nat, purged: seq<RtpFrame>)
    requires Shape(s, last, mask, nums, age) && HeadWaits(last, nums) && |nums| != s.capacity
    ensures Settle(s, purged).state == s
  {
  }

  /** A full buffer hands out its head, if that is a run of its own. */
  lemma SettleFull(s: State, last: nat, mask: nat, nums: seq<nat>, age: nat, purged: seq<RtpFrame>)
    requires Shape(s, last, mask, nums, age) && |nums| == s.capacity && |nums| >= 2 && nums[0] + 1 != nums[1]
    ensures var t := Settle(s, purged).state; Shape(t, nums[0], mask, nums[1..], age) && t.capacity == s.capacity
  {
    hide ErasureBefore;
    assert RunLength(s.frames) == 1;
  }

  lemma AdmitFull(s: State, last: nat, mask: nat, nums: seq<nat>, age: nat, fp: RtpFrame, purged: seq<RtpFrame>)
    requires Shape(s, last, mask, nums, age) && Ascending(nums) && HeadWaits(last, nums) && |nums| + 1 == s.capacity
    requires nums[|nums| - 1] < fp.lseq < mask + EPOCH && fp.jbcnt == 0
    requires |nums| >= 2 && nums[0] + 1 != nums[1]
    ensures var t := Admit(s, fp, purged).state;
            Shape(t, nums[0], mask, (nums + [fp.lseq])[1..], 0) && t.capacity == s.capacity
  {
    hide Shape, Ascending, Insert, Admit;
    AdmitTail(s, last, mask, nums, age, fp, purged);
    TailAppended(s, last, mask, nums, age, fp);
    InsertCapacity(s, fp);
    SettleFull(Insert(s, fp, |s.frames|), last, mask, nums + [fp.lseq], 0, purged);
  }

  // ----- one packet -----

  /** The state in which a parsed packet is admitted, and the frame it becomes. */
  lemma ReceiveNumbered(s: State, d: Datagram, s1: State, purged: seq<RtpFrame>, mask: nat, lseq: nat)
    requires PurgeStaleTail(s) == (s1, purged) && s1.lastMax != LSEQ_NONE && Room(s)
    requires Parse(d.bytes).Parsed? && Unwrap(s1.mask, s1.lastMax, Parse(d.bytes).info.seqno) == (mask, lseq)
    requires !(s.mask == 0 && PreWrap(s1.lastMax, Parse(d.bytes).info.seqno))
    ensures StepOk(s, In(d))
    ensures Step(s, In(d)) == Admit(Bumped(s1, mask), RtpFrame(Parse(d.bytes).info, lseq, 0, d), purged)
  {
    hide Parse, PurgeStaleTail, Admit, Unwrap, PreWrap;
  }

  lemma ShapeBumped(s: State, last: nat, mask: nat, nums: seq<nat>, age: nat, mask': nat)
    requires Shape(s, last, mask, nums, age)
    requires mask <= mask' <= TWO64 - 3 * EPOCH && mask' % 0x1_0000 == 0
    ensures Shape(Bumped(s, mask'), last, mask', nums, age) && Bumped(s, mask').capacity == s.capacity
  {
  }

  lemma ShapeMarks(s: State, last: nat, mask: nat, nums: seq<nat>, age: nat)
    requires Shape(s, last, mask, nums, age)
    ensures nums != [] && s.mask == mask && s.lastMax == nums[|nums| - 1] != LSEQ_NONE && Room(s) && |s.frames| == |nums|
  {
  }

  /** The epoch base of a number. */
  function Base(x: nat): (b: nat)
    ensures b % 0x1_0000 == 0 && b <= x < b + EPOCH
  {
    x / 0x1_0000 * 0x1_0000
  }

  /** A number beyond the largest, inside the window, is extended exactly, and the epoch base follows. */
  lemma NextNumber(lastMax: nat, truth: nat)
    requires lastMax < truth < TWO64 - EPOCH && InWindow(Base(lastMax), lastMax, truth)
    ensures Unwrap(Base(lastMax), lastMax, truth % 0x1_0000) == (Base(truth), truth)
    ensures !(Base(lastMax) == 0 && PreWrap(lastMax, truth % 0x1_0000))
  {
    UnwrapExactIff(Base(lastMax), lastMax, truth);
    UnwrapNear(Base(lastMax), lastMax, truth % 0x1_0000);
    UnwrapInEpoch(Base(lastMax), lastMax, truth % 0x1_0000);
  }

  lemma NearAhead(lastMax: nat, truth: nat)
    requires lastMax <= truth <= lastMax + 535
    ensures InWindow(Base(lastMax), lastMax, truth)
  {
    NearInWindow(Base(lastMax), lastMax, truth);
  }

  /** The first packet of all, unless it is number 0, waits in the buffer. */
  lemma StepFirst(capacity: nat, seqno: nat)
    requires 0 < seqno < EPOCH
    ensures var s := Init(capacity);
            var t := Step(s, In(Probe(seqno, 0))).state;
            StepOk(s, In(Probe(seqno, 0))) && Shape(t, LSEQ_NONE, 0, [seqno], 0) && t.capacity == capacity
  {
    hide Parse, Encode;
    ProbeParses(seqno, 0);
  }

  /** A packet beyond the tail of a buffer that neither is full nor becomes so. */
  lemma StepAppends(s: State, last: nat, nums: seq<nat>, age: nat, truth: nat)
    requires nums != [] && Shape(s, last, Base(nums[|nums| - 1]), nums, age)
    requires Ascending(nums) && HeadWaits(last, nums) && |nums| < Sub32(s.capacity, 1)
    requires nums[|nums| - 1] < truth < TWO64 - 3 * EPOCH && InWindow(Base(nums[|nums| - 1]), nums[|nums| - 1], truth)
    ensures var d := Probe(truth % 0x1_0000, 0);
            var t := Step(s, In(d)).state;
            StepOk(s, In(d)) && Shape(t, last, Base(truth), nums + [truth], 0) && t.capacity == s.capacity
  {
    hide Shape, Ascending, Parse, Encode, PurgeStaleTail, Admit, Unwrap, PreWrap, Step, StepOk, Base, Room, Bumped, InWindow;
    var d := Probe(truth % 0x1_0000, 0);
    var tail := nums[|nums| - 1];
    ProbeParses(truth % 0x1_0000, 0);
    PurgeIdle(s, last, Base(tail), nums, age);
    ShapeMarks(s, last, Base(tail), nums, age);
    NextNumber(tail, truth);
    BaseGrows(tail, truth);
    ReceiveNumbered(s, d, s, [], Base(truth), truth);
    ShapeBumped(s, last, Base(tail), nums, age, Base(truth));
    AdmitAppends(Bumped(s, Base(truth)), last, Base(truth), nums, age, RtpFrame(Parse(d.bytes).info, truth, 0, d), []);
  }

  lemma BaseGrows(x: nat, y: nat)
    requires x <= y
    ensures Base(x) <= Base(y)
  {
  }

  /** A packet beyond the tail of a buffer with one free place: the head is handed out. */
  lemma StepSlides(s: State, last: nat, nums: seq<nat>, age: nat, truth: nat)
    requires nums != [] && Shape(s, last, Base(nums[|nums| - 1]), nums, age)
    requires Ascending(nums) && HeadWaits(last, nums) && 2 <= |nums| == s.capacity - 1 && age + 1 < s.capacity
    requires nums[|nums| - 1] < truth <= nums[|nums| - 1] + 535 && truth < TWO64 - 3 * EPOCH
    requires nums[0] + 1 != nums[1]
    ensures var d := Probe(truth % 0x1_0000, 0);
            var t := Step(s, In(d)).state;
            StepOk(s, In(d)) && Shape(t, nums[0], Base(truth), (nums + [truth])[1..], 0) && t.capacity == s.capacity
  {
    hide Shape, Ascending, Parse, Encode, PurgeStaleTail, Admit, Unwrap, PreWrap, Step, StepOk, Base, Room, Bumped, InWindow;
    var d := Probe(truth % 0x1_0000, 0);
    var tail := nums[|nums| - 1];
    ProbeParses(truth % 0x1_0000, 0);
    PurgeAges(s, last, Base(tail), nums, age);
    var s1 := PurgeStaleTail(s).0;
    ShapeMarks(s, last, Base(tail), nums, age);
    ShapeMarks(s1, last, Base(tail), nums, age + 1);
    NearAhead(tail, truth);
    NextNumber(tail, truth);
    BaseGrows(tail, truth);
    ReceiveNumbered(s, d, s1, [], Base(truth), truth);
    ShapeBumped(s1, last, Base(tail), nums, age + 1, Base(truth));
    AdmitFull(Bumped(s1, Base(truth)), last, Base(truth), nums, age + 1, RtpFrame(Parse(d.bytes).info, truth, 0, d), []);
  }

  /** A repeat of the tail only ages it. */
  lemma StepRepeats(s: State, last: nat, nums: seq<nat>, age: nat)
    requires nums != [] && Shape(s, last, Base(nums[|nums| - 1]), nums, age)
    requires Ascending(nums) && |nums| == s.capacity - 1 && age + 1 < s.capacity
    requires last == LSEQ_NONE || last < nums[|nums| - 1]
    ensures var tail := nums[|nums| - 1];
            var d := Probe(tail % 0x1_0000, 0);
            var t := Step(s, In(d)).state;
            StepOk(s, In(d)) && Shape(t, last, Base(tail), nums, age + 1) && t.capacity == s.capacity
  {
    hide Shape, Ascending, Parse, Encode, PurgeStaleTail, Admit, Unwrap, PreWrap, Step, StepOk, Base, Room, Bumped, InWindow;
    var tail := nums[|nums| - 1];
    var d := Probe(tail % 0x1_0000, 0);
    ProbeParses(tail % 0x1_0000, 0);
    PurgeAges(s, last, Base(tail), nums, age);
    var s1 := PurgeStaleTail(s).0;
    ShapeMarks(s, last, Base(tail), nums, age);
    ShapeMarks(s1, last, Base(tail), nums, age + 1);
    SameNumber(tail);
    ReceiveNumbered(s, d, s1, [], Base(tail), tail);
    BaseFits(s, last, nums, age);
    ShapeBumped(s1, last, Base(tail), nums, age + 1, Base(tail));
    AdmitDup(Bumped(s1, Base(tail)), last, Base(tail), nums, age + 1, RtpFrame(Parse(d.bytes).info, tail, 0, d), []);
  }

  lemma BaseFits(s: State, last: nat, nums: seq<nat>, age: nat)
    requires nums != [] && Shape(s, last, Base(nums[|nums| - 1]), nums, age)
    ensures Base(nums[|nums| - 1]) <= TWO64 - 3 * EPOCH
  {
  }

  lemma SameNumber(x: nat)
    ensures Unwrap(Base(x), x, x % 0x1_0000) == (Base(x), x)
    ensures !(Base(x) == 0 && PreWrap(x, x % 0x1_0000))
  {
    UnwrapExact(Base(x), x, x);
    UnwrapNear(Base(x), x, x % 0x1_0000);
  }
}
