/** Polynomials over the two-element field, as numbers: bit k is the coefficient of x^k. */
module Polynomials {
  import opened Masks

  /** The sum: coefficients are added modulo two. */
  function Plus(a: nat, b: nat): nat {
    if a == 0 && b == 0 then 0
    else 2 * Plus(a / 2, b / 2) + (if a % 2 == b % 2 then 0 else 1)
  }

  /** p times x^k. */
  function Shifted(p: nat, k: nat): nat { if k == 0 then p else 2 * Shifted(p, k - 1) }

  /** The product. */
  function Times(q: nat, g: nat): nat {
    if q == 0 then 0 else Plus(if q % 2 == 1 then g else 0, 2 * Times(q / 2, g))
  }

  // The sum.

  lemma PlusParts(a: nat, b: nat)
    ensures Plus(a, b) / 2 == Plus(a / 2, b / 2) && (Plus(a, b) % 2 == if a % 2 == b % 2 then 0 else 1)
  {
  }

  lemma {:induction false} PlusZero(a: nat)
    ensures Plus(a, 0) == a && Plus(0, a) == a
  {
    if a > 0 {
      PlusZero(a / 2);
    }
  }

  lemma {:induction false} PlusSelf(a: nat)
    ensures Plus(a, a) == 0
  {
    if a > 0 {
      PlusSelf(a / 2);
    }
  }

  lemma {:induction false} PlusCommutes(a: nat, b: nat)
    ensures Plus(a, b) == Plus(b, a)
    decreases a + b
  {
    if a > 0 || b > 0 {
      PlusCommutes(a / 2, b / 2);
    }
  }

  lemma {:induction false} PlusAssociates(a: nat, b: nat, c: nat)
    ensures Plus(Plus(a, b), c) == Plus(a, Plus(b, c))
    decreases a + b + c
  {
    if a > 0 || b > 0 || c > 0 {
      PlusAssociates(a / 2, b / 2, c / 2);
      PlusParts(a, b);
      PlusParts(b, c);
      PlusParts(Plus(a, b), c);
      PlusParts(a, Plus(b, c));
    }
  }

  /** Two sums of two, paired the other way. */
  lemma PlusPaired(a: nat, b: nat, c: nat, d: nat)
    ensures Plus(Plus(a, b), Plus(c, d)) == Plus(Plus(a, c), Plus(b, d))
  {
    PlusAssociates(a, b, Plus(c, d));
    PlusAssociates(b, c, d);
    PlusCommutes(b, c);
    PlusAssociates(c, b, d);
    PlusAssociates(a, c, Plus(b, d));
  }

  lemma PlusDoubles(a: nat, b: nat)
    ensures Plus(2 * a, 2 * b) == 2 * Plus(a, b)
  {
    PlusParts(2 * a, 2 * b);
  }

  // Degrees.

  lemma {:induction false} PlusBelow(a: nat, b: nat, k: nat)
    requires a < Pow2(k) && b < Pow2(k)
    ensures Plus(a, b) < Pow2(k)
    decreases k
  {
    if k > 0 {
      PlusBelow(a / 2, b / 2, k - 1);
    }
  }

  lemma {:induction false} PlusAbove(a: nat, b: nat, k: nat)
    requires a < Pow2(k) <= b
    ensures Plus(a, b) >= Pow2(k) && Plus(b, a) >= Pow2(k)
    decreases k
  {
    if k == 0 {
      PlusZero(b);
    } else {
      PlusAbove(a / 2, b / 2, k - 1);
    }
  }

  /** Leading terms of the same power cancel. */
  lemma {:induction false} PlusCancels(a: nat, b: nat, k: nat)
    requires Pow2(k) <= a < Pow2(k + 1) && Pow2(k) <= b < Pow2(k + 1)
    ensures Plus(a, b) < Pow2(k)
    decreases k
  {
    if k > 0 {
      PlusCancels(a / 2, b / 2, k - 1);
    } else {
      assert a == 1 && b == 1;
    }
  }

  // Shifts.

  lemma {:induction false} ShiftedPlus(a: nat, b: nat, k: nat)
    ensures Shifted(Plus(a, b), k) == Plus(Shifted(a, k), Shifted(b, k))
    decreases k
  {
    if k > 0 {
      ShiftedPlus(a, b, k - 1);
      PlusDoubles(Shifted(a, k - 1), Shifted(b, k - 1));
    }
  }

  lemma {:induction false} ShiftedTwice(p: nat, j: nat, k: nat)
    ensures Shifted(Shifted(p, j), k) == Shifted(p, j + k)
    decreases k
  {
    if k > 0 {
      ShiftedTwice(p, j, k - 1);
    }
  }

  lemma {:induction false} ShiftedZero(k: nat)
    ensures Shifted(0, k) == 0
    decreases k
  {
    if k > 0 {
      ShiftedZero(k - 1);
    }
  }

  lemma {:induction false} ShiftedOne(k: nat)
    ensures Shifted(1, k) == Pow2(k)
    decreases k
  {
    if k > 0 {
      ShiftedOne(k - 1);
    }
  }

  // The product.

  lemma TimesDigit(q: nat, digit: bool, g: nat)
    ensures Times(2 * q + Digit(digit), g) == Plus(if digit then g else 0, 2 * Times(q, g))
  {
    var p := 2 * q + Digit(digit);
    assert p / 2 == q;
    if p == 0 {
      PlusZero(0);
    }
  }

  /** Sums of two products with one more digit each, given those without. */
  lemma DigitsPlus(a: nat, b: nat, u: nat, v: nat, i: bool, j: bool, g: nat)
    requires a == Plus(if i then g else 0, 2 * u) && b == Plus(if j then g else 0, 2 * v)
    ensures Plus(a, b) == Plus(if i != j then g else 0, 2 * Plus(u, v))
  {
    PlusPaired(if i then g else 0, 2 * u, if j then g else 0, 2 * v);
    PlusDoubles(u, v);
    DigitSum(i, j, g);
  }

  function Digit(bit: bool): nat { if bit then 1 else 0 }

  lemma PlusDigits(p: nat, q: nat)
    ensures Plus(p, q) == 2 * Plus(p / 2, q / 2) + Digit((p % 2 == 1) != (q % 2 == 1))
  {
  }

  lemma {:induction false} TimesPlus(p: nat, q: nat, g: nat)
    ensures Times(Plus(p, q), g) == Plus(Times(p, g), Times(q, g))
    decreases p + q
  {
    if p > 0 || q > 0 {
      var i, j := p % 2 == 1, q % 2 == 1;
      TimesPlus(p / 2, q / 2, g);
      TimesHalf(p, i, g);
      TimesHalf(q, j, g);
      DigitsPlus(Times(p, g), Times(q, g), Times(p / 2, g), Times(q / 2, g), i, j, g);
      PlusDigits(p, q);
      TimesDigit(Plus(p / 2, q / 2), i != j, g);
    } else {
      PlusZero(0);
    }
  }

  lemma TimesHalf(q: nat, digit: bool, g: nat)
    requires digit == (q % 2 == 1)
    ensures Times(q, g) == Plus(if digit then g else 0, 2 * Times(q / 2, g))
  {
    TimesDigit(q / 2, digit, g);
  }

  lemma DigitSum(i: bool, j: bool, g: nat)
    ensures Plus(if i then g else 0, if j then g else 0) == if i != j then g else 0
  {
    PlusZero(g);
    PlusSelf(g);
    PlusZero(0);
  }

  /** A multiple of g, but for zero, has no lower degree than g. */
  lemma {:induction false} TimesAbove(q: nat, g: nat, k: nat)
    requires q > 0 && Pow2(k) <= g < Pow2(k + 1)
    ensures Times(q, g) >= Pow2(k)
    decreases q
  {
    var a := if q % 2 == 1 then g else 0;
    if q / 2 > 0 {
      TimesAbove(q / 2, g, k);
      Positive(k);
      PlusAbove(a, 2 * Times(q / 2, g), k + 1);
    } else {
      PlusZero(g);
    }
  }

  // Division.

  /** Division of d by g, of degree k, leaves q and r. */
  predicate DividesTo(d: nat, g: nat, k: nat, q: nat, r: nat) {
    r < Pow2(k) && d == Plus(Times(q, g), r)
  }

  lemma SumIsZero(a: nat, b: nat)
    requires Plus(a, b) == 0
    ensures a == b
  {
    PlusAssociates(a, b, b);
    PlusSelf(b);
    PlusZero(a);
    PlusZero(b);
  }

  /** Quotient and remainder are the only ones. */
  lemma DivisionIsUnique(d: nat, g: nat, k: nat, q: nat, r: nat, q': nat, r': nat)
    requires Pow2(k) <= g < Pow2(k + 1)
    requires DividesTo(d, g, k, q, r) && DividesTo(d, g, k, q', r')
    ensures q == q' && r == r'
  {
    PlusSelf(d);
    PlusPaired(Times(q, g), r, Times(q', g), r');
    TimesPlus(q, q', g);
    PlusBelow(r, r', k);
    SumIsZero(Times(Plus(q, q'), g), Plus(r, r'));
    if Plus(q, q') > 0 {
      TimesAbove(Plus(q, q'), g, k);
    }
    SumIsZero(q, q');
    SumIsZero(r, r');
  }

  // Long division.

  function Reduced(x: nat, g: nat, k: nat): nat { if x < Pow2(k) then x else Plus(x, g) }

  /** One step of it: the next coefficient joins at x^k, and the divisor is taken off if
      that leaves the leading term. */
  function NextRemainder(r: nat, bit: bool, g: nat, k: nat): nat {
    Reduced(Plus(2 * r, if bit then Pow2(k) else 0), g, k)
  }

  lemma JoinedBelow(r: nat, bit: bool, k: nat)
    requires r < Pow2(k)
    ensures Plus(2 * r, if bit then Pow2(k) else 0) < Pow2(k + 1)
  {
    PlusBelow(2 * r, if bit then Pow2(k) else 0, k + 1);
  }

  lemma TakeOff(t: nat, x: nat, g: nat)
    ensures Plus(Plus(g, t), Plus(x, g)) == Plus(t, x)
  {
    PlusCommutes(x, g);
    PlusPaired(g, t, g, x);
    PlusSelf(g);
    PlusZero(Plus(t, x));
  }

  /** The dividend with its next coefficient, as twice the multiple so far and the rest. */
  lemma NextDividend(d: nat, g: nat, k: nat, q: nat, r: nat, b: nat)
    requires DividesTo(d, g, k, q, r)
    ensures Plus(2 * d, b) == Plus(2 * Times(q, g), Plus(2 * r, b))
  {
    PlusDoubles(Times(q, g), r);
    PlusAssociates(2 * Times(q, g), 2 * r, b);
  }

  lemma NextDivides(d: nat, g: nat, k: nat, q: nat, r: nat, bit: bool) returns (q': nat)
    requires Pow2(k) <= g < Pow2(k + 1) && DividesTo(d, g, k, q, r)
    ensures DividesTo(Plus(2 * d, if bit then Pow2(k) else 0), g, k, q', NextRemainder(r, bit, g, k))
  {
    var b := if bit then Pow2(k) else 0;
    var t, x := 2 * Times(q, g), Plus(2 * r, b);
    NextDividend(d, g, k, q, r, b);
    JoinedBelow(r, bit, k);
    if x < Pow2(k) {
      TimesDigit(q, false, g);
      PlusZero(t);
      q' := 2 * q;
    } else {
      TimesDigit(q, true, g);
      TakeOff(t, x, g);
      PlusCancels(x, g, k);
      q' := 2 * q + 1;
    }
  }

  /** The polynomial with these coefficients, highest power first. */
  function Polynomial(bits: seq<bool>): nat
    decreases |bits|
  {
    if bits == [] then 0
    else Plus(if bits[0] then Pow2(|bits| - 1) else 0, Polynomial(bits[1..]))
  }

  /** Coefficients joining one after the other, highest power first. */
  function Joined(d: nat, bits: seq<bool>, k: nat): nat
    decreases |bits|
  {
    if bits == [] then d else Joined(Plus(2 * d, if bits[0] then Pow2(k) else 0), bits[1..], k)
  }

  lemma ShiftedDouble(d: nat, n: nat)
    ensures Shifted(2 * d, n) == Shifted(d, n + 1)
  {
    assert Shifted(d, 1) == 2 * Shifted(d, 0);
    ShiftedTwice(d, 1, n);
  }

  lemma ShiftedPower(j: nat, k: nat)
    ensures Shifted(Pow2(j), k) == Pow2(j + k)
  {
    ShiftedOne(j);
    ShiftedTwice(1, j, k);
    ShiftedOne(j + k);
  }

  lemma ShiftedDigit(bit: bool, k: nat, n: nat)
    ensures Shifted(if bit then Pow2(k) else 0, n) == Shifted(if bit then Pow2(n) else 0, k)
  {
    ShiftedPower(k, n);
    ShiftedPower(n, k);
    ShiftedZero(n);
    ShiftedZero(k);
  }

  /** All of them together: the start moves up, the new ones stand at x^k. */
  lemma {:induction false} JoinedIs(d: nat, bits: seq<bool>, k: nat)
    ensures Joined(d, bits, k) == Plus(Shifted(Polynomial(bits), k), Shifted(d, |bits|))
    decreases |bits|
  {
    if bits == [] {
      ShiftedZero(k);
      PlusZero(d);
    } else {
      var n, rest := |bits| - 1, Polynomial(bits[1..]);
      JoinedIs(Plus(2 * d, if bits[0] then Pow2(k) else 0), bits[1..], k);
      JoinedStep(d, bits[0], rest, k, n);
    }
  }

  lemma JoinedStep(d: nat, bit: bool, rest: nat, k: nat, n: nat)
    ensures Plus(Shifted(rest, k), Shifted(Plus(2 * d, if bit then Pow2(k) else 0), n))
            == Plus(Shifted(Plus(if bit then Pow2(n) else 0, rest), k), Shifted(d, n + 1))
  {
    var u, v, w := Shifted(rest, k), Shifted(d, n + 1), Shifted(if bit then Pow2(n) else 0, k);
    ShiftedPlus(2 * d, if bit then Pow2(k) else 0, n);
    ShiftedDouble(d, n);
    ShiftedDigit(bit, k, n);
    ShiftedPlus(if bit then Pow2(n) else 0, rest, k);
    PlusCommutes(v, w);
    PlusAssociates(u, w, v);
    PlusCommutes(u, w);
  }
}
