/** What several components share: optional values, octets and the sizes of machine words. */
module Common {

  datatype Option<T> = None | Some(value: T)

  type byte = b: int | 0 <= b < 256

  const TWO32: int := 0x1_0000_0000
  const TWO64: int := 0x1_0000_0000_0000_0000
  const UINT64_MAX: nat := 0xFFFF_FFFF_FFFF_FFFF
  const SIZE_MAX: nat := UINT64_MAX

  /** Where the doubling of a table starts. */
  function FirstCap(cap: nat): (r: nat)
    ensures r > 0
  {
    if cap == 0 then 4 else cap
  }

  /** A capacity doubled until it is large enough. */
  function Doubled(cap: nat, need: nat): nat
    requires cap > 0
    decreases need - cap
  {
    if cap >= need then cap else Doubled(2 * cap, need)
  }

  /** It is large enough, and either as it was or less than twice what is needed. */
  lemma {:induction false} DoubledFits(cap: nat, need: nat)
    requires cap > 0
    ensures Doubled(cap, need) >= need && Doubled(cap, need) >= cap && (Doubled(cap, need) == cap || Doubled(cap, need) < 2 * need)
    decreases need - cap
  {
    if cap < need {
      DoubledFits(2 * cap, need);
    }
  }

  /** No value stands in two places. */
  ghost predicate Distinct(xs: seq<nat>) {
    forall i, j :: 0 <= i < j < |xs| ==> xs[i] != xs[j]
  }

  lemma MulMono(a: int, b: int, y: int)
    requires a <= b && 0 <= y
    ensures a * y <= b * y
  {
  }

  lemma Assoc<T>(a: seq<T>, b: seq<T>, c: seq<T>)
    ensures a + (b + c) == a + b + c
  {
  }
}
