/** Bitwise "and" on naturals, as far as the ring buffer needs it: masks of the form 2^k - 1. */
module BitMask {
  import opened Common

  function Pow2(k: nat): (r: nat)
    ensures r >= 1
  {
    if k == 0 then 1 else 2 * Pow2(k - 1)
  }

  ghost predicate IsPow2(c: nat) {
    exists k: nat :: c == Pow2(k)
  }

  function And(x: nat, y: nat): nat {
    if x == 0 || y == 0 then 0
    else (if x % 2 == 1 && y % 2 == 1 then 1 else 0) + 2 * And(x / 2, y / 2)
  }

  lemma HalveMod(x: nat, m: nat)
    requires m >= 1
    ensures x % (2 * m) == x % 2 + 2 * (x / 2 % m)
  {
    var q, r := x / 2 / m, x / 2 % m;
    assert x / 2 == q * m + r;
    var low := x % 2 + 2 * r;
    assert x == q * (2 * m) + low by {
      assert x == 2 * (x / 2) + x % 2;
      assert q * (2 * m) == 2 * (q * m);
    }
    ModUnique(x, 2 * m, q, low);
  }

  lemma ModUnique(x: nat, m: nat, q: nat, r: nat)
    requires m >= 1 && r < m && x == q * m + r
    ensures x % m == r
  {
    var k := x / m - q;
    assert x == (x / m) * m + x % m;
    assert k * m == r - x % m by {
      assert k * m == (x / m) * m - q * m;
    }
    MultipleWithin(k, m);
  }

  lemma MultipleWithin(k: int, m: int)
    requires -m < k * m < m
    ensures k == 0
  {
    assert k > 0 ==> k * m >= m by {
      if k > 0 {
        MulMono(1, k, m);
      }
    }
    assert k < 0 ==> k * m <= -m by {
      if k < 0 {
        MulMono(k, -1, m);
      }
    }
  }

  /** Masking with 2^k - 1 is the remainder by 2^k. */
  lemma {:induction false} AndMask(x: nat, k: nat)
    ensures And(x, Pow2(k) - 1) == x % Pow2(k)
    decreases k
  {
    if k > 0 {
      var m := Pow2(k - 1);
      HalveMod(x, m);
      AndMask(x / 2, k - 1);
      assert (2 * m - 1) / 2 == m - 1;
      if m == 1 {
        assert And(x / 2, 0) == 0;
      }
    }
  }

  /** The test capacity & (capacity - 1) recognises exactly the powers of two. */
  lemma {:induction false} PowerOfTwoTest(c: nat)
    requires c > 0
    ensures And(c, c - 1) == 0 <==> IsPow2(c)
    decreases c
  {
    if c == 1 {
      assert c == Pow2(0);
    } else if c % 2 == 1 {
      assert And(c, c - 1) == 2 * And(c / 2, c / 2);
      AndSelf(c / 2);
      forall k: nat
        ensures c != Pow2(k)
      {
        assert k > 0 ==> Pow2(k) == 2 * Pow2(k - 1);
      }
    } else {
      var h := c / 2;
      assert (c - 1) / 2 == h - 1;
      assert And(c, c - 1) == 2 * And(h, h - 1);
      PowerOfTwoTest(h);
      if IsPow2(h) {
        var k: nat :| h == Pow2(k);
        assert c == Pow2(k + 1);
      }
      if IsPow2(c) {
        var k: nat :| c == Pow2(k);
        assert h == Pow2(k - 1);
      }
    }
  }

  lemma {:induction false} AndSelf(x: nat)
    ensures And(x, x) == x
    decreases x
  {
    if x > 0 {
      AndSelf(x / 2);
    }
  }

  /** Two indices less than the capacity apart share a slot only if they are equal. */
  lemma WindowDistinct(i: nat, j: nat, c: nat)
    requires c >= 1 && i < j + c && j < i + c && i % c == j % c
    ensures i == j
  {
    var k := i / c - j / c;
    assert i == (i / c) * c + i % c && j == (j / c) * c + j % c;
    assert k * c == i - j by {
      assert k * c == (i / c) * c - (j / c) * c;
    }
    MultipleWithin(k, c);
  }
}
