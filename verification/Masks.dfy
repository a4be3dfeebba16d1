/** Powers of two and the bitwise and, on numbers. */
module Masks {
  function Pow2(k: nat): nat { if k == 0 then 1 else 2 * Pow2(k - 1) }

  ghost predicate IsPowerOfTwo(n: nat) { exists k: nat :: Pow2(k) == n }

  lemma {:induction false} Positive(j: nat)
    ensures Pow2(j) >= 1
  {
    if j > 0 {
      Positive(j - 1);
    }
  }

  /** x & m. */
  function Masked(x: nat, m: nat): nat {
    if x == 0 || m == 0 then 0
    else 2 * Masked(x / 2, m / 2) + (if x % 2 == 1 && m % 2 == 1 then 1 else 0)
  }

  lemma Rebuilt(x: nat, p: nat)
    requires p >= 1
    ensures x % (2 * p) == 2 * (x / 2 % p) + x % 2
  {
    var q, r := x / 2 / p, x / 2 % p;
    assert x / 2 == p * q + r;
    assert x == 2 * p * q + (2 * r + x % 2) by {
      assert 2 * (p * q) == 2 * p * q;
    }
    Remainder(x, 2 * p, q, 2 * r + x % 2);
  }

  lemma FarProduct(a: nat, d: int)
    requires a > 0
    ensures d == 0 || a * d >= a || a * d <= 0 - a
  {
  }

  lemma Remainder(x: nat, a: nat, q: nat, r: nat)
    requires a > 0 && r < a && x == a * q + r
    ensures x % a == r
  {
    var d := x / a - q;
    assert x == a * (x / a) + x % a;
    assert a * (x / a) - a * q == a * d;
    FarProduct(a, d);
  }

  /** Under a mask of ones: what the test for alignment rests on. */
  lemma {:induction false} MaskIsRemainder(x: nat, k: nat)
    ensures Pow2(k) >= 1 && Masked(x, Pow2(k) - 1) == x % Pow2(k)
    decreases k
  {
    Positive(k);
    if k > 0 {
      MaskIsRemainder(x / 2, k - 1);
      Rebuilt(x, Pow2(k - 1));
      assert (Pow2(k) - 1) / 2 == Pow2(k - 1) - 1 && (Pow2(k) - 1) % 2 == 1;
    }
  }

  /** A multiple of a power of two has no bit in common with anything below it. */
  lemma {:induction false} MultipleIsClear(x: nat, m: nat, k: nat)
    requires Pow2(k) >= 1 && m < Pow2(k) && x % Pow2(k) == 0
    ensures Masked(x, m) == 0
    decreases k
  {
    if k > 0 {
      Positive(k - 1);
      Rebuilt(x, Pow2(k - 1));
      MultipleIsClear(x / 2, m / 2, k - 1);
    }
  }

  lemma {:induction false} MaskSelf(n: nat)
    ensures Masked(n, n) == n
  {
    if n > 0 {
      MaskSelf(n / 2);
    }
  }

  /** n & (n - 1) is zero for powers of two only. */
  lemma {:induction false} ClearBelowItself(n: nat)
    requires n >= 1 && Masked(n, n - 1) == 0
    ensures IsPowerOfTwo(n)
  {
    if n == 1 {
      assert Pow2(0) == n;
    } else if n % 2 == 1 {
      MaskSelf(n / 2);
    } else {
      assert (n - 1) / 2 == n / 2 - 1;
      ClearBelowItself(n / 2);
      var k: nat :| Pow2(k) == n / 2;
      assert Pow2(k + 1) == n;
    }
  }

  ghost predicate TestsMultiples(a: nat)
    requires a >= 1
  {
    forall x: nat :: Masked(x, a - 1) == 0 <==> x % a == 0
  }

  lemma OwnMultiple(a: nat)
    requires a >= 1
    ensures a % a == 0
  {
    Remainder(a, a, 1, 0);
  }

  /** The test for alignment asks for a multiple exactly if the alignment is a power of two. */
  lemma TestsMultiplesIff(a: nat)
    requires a >= 1
    ensures TestsMultiples(a) <==> IsPowerOfTwo(a)
  {
    if IsPowerOfTwo(a) {
      var k: nat :| Pow2(k) == a;
      forall x: nat ensures Masked(x, a - 1) == 0 <==> x % a == 0 {
        MaskIsRemainder(x, k);
      }
    }
    if TestsMultiples(a) {
      OwnMultiple(a);
      ClearBelowItself(a);
    }
  }

  /** The smallest power of two that is a multiple of p and no smaller than a. */
  function PowerAbove(a: nat, p: nat): (r: nat)
    requires p >= 1
    ensures r >= a && r >= p && (p % 4 == 0 ==> r % 4 == 0)
    decreases a - p
  {
    if p >= a then p else PowerAbove(a, p + p)
  }

  lemma {:induction false} PowerAboveIsPower(a: nat, k: nat) returns (j: nat)
    requires Pow2(k) >= 1
    ensures Pow2(j) == PowerAbove(a, Pow2(k))
    decreases a - Pow2(k)
  {
    j := k;
    if Pow2(k) < a {
      j := PowerAboveIsPower(a, k + 1);
    }
  }

  /** The place where every alignment up to a is sure to be reached. */
  function Ceiling(a: nat): (r: nat)
    ensures r >= 4 && r % 4 == 0 && r >= a
  {
    PowerAbove(a, 4)
  }

  lemma CeilingIsClear(x: nat, a: nat)
    requires a >= 1 && x % Ceiling(a) == 0
    ensures Masked(x, a - 1) == 0
  {
    assert Pow2(2) == 4;
    var k := PowerAboveIsPower(a, 2);
    MultipleIsClear(x, a - 1, k);
  }
}
