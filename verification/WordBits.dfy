/** Registers hold numbers, immediates are found by bit operations: the two views agree.
    Or, clear and rotation are defined on numbers digit by digit, and shown to be what the
    bit-vector operations compute on their bits. */
module WordBits {
  import opened ArmEncoding
  import opened Immediates
  import opened Masks

  /** A digit put behind the others. */
  function Put(y: bv32, digit: bool): bv32 { if digit then (y << 1) | 1 else y << 1 }

  /** The low 32 bits of a number. */
  function Bits(n: nat): bv32 {
    if n == 0 then 0 else Put(Bits(n / 2), n % 2 == 1)
  }

  function Or(x: bv32, y: bv32): bv32 { x | y }
  function Clear(x: bv32, y: bv32): bv32 { x & !y }

  function OrWords(a: nat, b: nat): nat {
    if a == 0 && b == 0 then 0
    else 2 * OrWords(a / 2, b / 2) + (if a % 2 == 1 || b % 2 == 1 then 1 else 0)
  }

  /** The bits of a that b does not have. */
  function ClearWords(a: nat, b: nat): nat {
    if a == 0 then 0
    else 2 * ClearWords(a / 2, b / 2) + (if a % 2 == 1 && b % 2 == 0 then 1 else 0)
  }

  /** A number below 2^32 turned right by two bits. */
  function TurnWord(n: nat): nat { n / 4 + n % 4 * 0x40000000 }

  function RorWord(n: nat, k: nat): nat { if k == 0 then n else TurnWord(RorWord(n, k - 1)) }

  /** The value of an immediate operand: its byte rotated right by twice its top four bits. */
  function ImmWord(low: nat): nat { RorWord(low % 0x100, low / 0x100) }

  lemma PowerTable()
    ensures Pow2(30) == 0x40000000 && Pow2(31) == 0x80000000 && Pow2(32) == WORD_LIMIT
  {
    assert Pow2(8) == 0x100;
    assert Pow2(16) == 0x10000;
    assert Pow2(24) == 0x1000000;
  }

  lemma {:induction false} OrBelow(a: nat, b: nat, k: nat)
    requires a < Pow2(k) && b < Pow2(k)
    ensures OrWords(a, b) < Pow2(k)
  {
    if k > 0 {
      OrBelow(a / 2, b / 2, k - 1);
    }
  }

  lemma {:induction false} ClearBelow(a: nat, b: nat)
    ensures ClearWords(a, b) <= a
  {
    if a > 0 {
      ClearBelow(a / 2, b / 2);
    }
  }

  lemma TurnBelow(n: Word)
    ensures TurnWord(n) < WORD_LIMIT
  {
  }

  lemma {:induction false} RorBelow(n: Word, k: nat)
    ensures RorWord(n, k) < WORD_LIMIT
  {
    if k > 0 {
      RorBelow(n, k - 1);
      TurnBelow(RorWord(n, k - 1));
    }
  }

  // The inductions are over any representation of numbers by their digits, so that no bit
  // of a vector is looked at but in the laws themselves.

  datatype Digits<!V> = Digits(
    rep: nat -> V, put: (V, bool) -> V,
    or: (V, V) -> V, clear: (V, V) -> V,
    half: V -> V, isOdd: V -> bool, turn: V -> V, ones: nat -> V, within: (V, nat) -> bool)

  predicate ByDigit<V(==)>(d: Digits<V>, n: nat) { d.rep(n) == d.put(d.rep(n / 2), n % 2 == 1) }

  ghost predicate Represents<V(!new)>(d: Digits<V>) { forall n: nat :: ByDigit(d, n) }

  lemma Pieces<V(!new)>(d: Digits<V>, n: nat, digit: bool)
    requires Represents(d)
    ensures d.rep(2 * n + if digit then 1 else 0) == d.put(d.rep(n), digit)
  {
    var m := 2 * n + if digit then 1 else 0;
    assert ByDigit(d, m);
    assert m / 2 == n && m % 2 == if digit then 1 else 0;
  }

  ghost predicate OrLaws<V(!new)>(d: Digits<V>) {
    && d.or(d.rep(0), d.rep(0)) == d.rep(0)
    && forall h, g, p, q {:trigger d.or(d.put(h, p), d.put(g, q))} ::
         d.or(d.put(h, p), d.put(g, q)) == d.put(d.or(h, g), p || q)
  }

  lemma OrStep<V(!new)>(d: Digits<V>, a: nat, b: nat, c: nat, p: bool, q: bool)
    requires Represents(d) && OrLaws(d) && d.or(d.rep(a / 2), d.rep(b / 2)) == d.rep(c)
    requires p == (a % 2 == 1) && q == (b % 2 == 1)
    ensures d.or(d.rep(a), d.rep(b)) == d.rep(2 * c + if p || q then 1 else 0)
  {
    assert ByDigit(d, a) && ByDigit(d, b);
    Pieces(d, c, p || q);
  }

  lemma {:induction false} OrByDigits<V(!new)>(d: Digits<V>, a: nat, b: nat)
    requires Represents(d) && OrLaws(d)
    ensures d.or(d.rep(a), d.rep(b)) == d.rep(OrWords(a, b))
    decreases a + b
  {
    if a > 0 || b > 0 {
      OrByDigits(d, a / 2, b / 2);
      OrStep(d, a, b, OrWords(a / 2, b / 2), a % 2 == 1, b % 2 == 1);
    }
  }

  ghost predicate ClearLaws<V(!new)>(d: Digits<V>) {
    && (forall y :: d.clear(d.rep(0), y) == d.rep(0))
    && forall h, g, p, q {:trigger d.clear(d.put(h, p), d.put(g, q))} ::
         d.clear(d.put(h, p), d.put(g, q)) == d.put(d.clear(h, g), p && !q)
  }

  lemma {:induction false} ClearByDigits<V(!new)>(d: Digits<V>, a: nat, b: nat)
    requires Represents(d) && ClearLaws(d)
    ensures d.clear(d.rep(a), d.rep(b)) == d.rep(ClearWords(a, b))
    decreases a
  {
    if a > 0 {
      ClearByDigits(d, a / 2, b / 2);
      assert ByDigit(d, a) && ByDigit(d, b);
      Pieces(d, ClearWords(a / 2, b / 2), a % 2 == 1 && b % 2 == 0);
    }
  }

  ghost predicate OnesLaws<V(!new)>(d: Digits<V>) {
    d.ones(0) == d.rep(0) && forall k: nat :: d.ones(k + 1) == d.put(d.ones(k), true)
  }

  lemma {:induction false} OnesByDigits<V(!new)>(d: Digits<V>, k: nat)
    requires Represents(d) && OnesLaws(d)
    ensures Pow2(k) >= 1 && d.rep(Pow2(k) - 1) == d.ones(k)
  {
    if k > 0 {
      OnesByDigits(d, k - 1);
      Pieces(d, Pow2(k - 1) - 1, true);
      assert d.ones(k - 1 + 1) == d.put(d.ones(k - 1), true);
    }
  }

  lemma {:induction false} ClearOnes(k: nat, j: nat)
    ensures Pow2(k + j) >= Pow2(k) >= 1
    ensures ClearWords(Pow2(k + j) - 1, Pow2(k) - 1) == Pow2(k + j) - Pow2(k)
  {
    if k == 0 {
      Positive(j);
      ClearNone(Pow2(j) - 1);
    } else {
      ClearOnes(k - 1, j);
      assert (Pow2(k + j) - 1) / 2 == Pow2(k - 1 + j) - 1 && (Pow2(k) - 1) / 2 == Pow2(k - 1) - 1;
    }
  }

  lemma {:induction false} ClearNone(a: nat)
    ensures ClearWords(a, 0) == a
  {
    if a > 0 {
      ClearNone(a / 2);
    }
  }

  lemma RunByDigits<V(!new)>(d: Digits<V>, k: nat, j: nat)
    requires Represents(d) && OnesLaws(d) && ClearLaws(d)
    ensures Pow2(k + j) >= Pow2(k) && d.rep(Pow2(k + j) - Pow2(k)) == d.clear(d.ones(k + j), d.ones(k))
  {
    OnesByDigits(d, k + j);
    OnesByDigits(d, k);
    ClearOnes(k, j);
    ClearTo(d, Pow2(k + j) - 1, Pow2(k) - 1, Pow2(k + j) - Pow2(k));
  }

  lemma ClearTo<V(!new)>(d: Digits<V>, a: nat, b: nat, c: nat)
    requires Represents(d) && ClearLaws(d) && ClearWords(a, b) == c
    ensures d.rep(c) == d.clear(d.rep(a), d.rep(b))
  {
    ClearByDigits(d, a, b);
  }

  ghost predicate WithinLaws<V(!new)>(d: Digits<V>) {
    && d.within(d.rep(0), 0)
    && forall y, p, k: nat :: d.within(y, k) ==> d.within(d.put(y, p), k + 1)
  }

  lemma {:induction false} WithinByDigits<V(!new)>(d: Digits<V>, n: nat, k: nat)
    requires Represents(d) && WithinLaws(d) && n < Pow2(k)
    ensures d.within(d.rep(n), k)
  {
    if k > 0 {
      WithinByDigits(d, n / 2, k - 1);
      assert ByDigit(d, n);
    }
  }

  ghost predicate HalfLaws<V(!new)>(d: Digits<V>) {
    forall y, p :: d.within(y, 31) ==> d.half(d.put(y, p)) == y && d.isOdd(d.put(y, p)) == p
  }

  /** No two numbers below 2^32 have the same digits. */
  lemma {:induction false} SameByDigits<V(!new)>(d: Digits<V>, a: Word, b: Word)
    requires Represents(d) && WithinLaws(d) && HalfLaws(d) && d.rep(a) == d.rep(b)
    ensures a == b
    decreases a + b
  {
    if a > 0 || b > 0 {
      PowerTable();
      WithinByDigits(d, a / 2, 31);
      WithinByDigits(d, b / 2, 31);
      assert ByDigit(d, a) && ByDigit(d, b);
      SameByDigits(d, a / 2, b / 2);
    }
  }

  function Top(p: bool, q: bool): nat { ((if p then 2 else 0) + (if q then 1 else 0)) * 0x40000000 }

  ghost predicate TurnLaws<V(!new)>(d: Digits<V>) {
    forall y, p, q :: d.within(y, 30) ==> d.turn(d.put(d.put(y, p), q)) == d.or(y, d.rep(Top(p, q)))
  }

  lemma {:induction false} OrIsSum(n: nat, k: nat, r: nat)
    requires n < Pow2(k)
    ensures OrWords(n, Pow2(k) * r) == n + Pow2(k) * r
  {
    if k == 0 {
      OrOfZero(r);
    } else {
      HalfOfSum(Pow2(k - 1), r);
      OrIsSum(n / 2, k - 1, r);
    }
  }

  lemma {:induction false} OrOfZero(r: nat)
    ensures OrWords(0, r) == r
  {
    if r > 0 {
      OrOfZero(r / 2);
    }
  }

  lemma HalfOfSum(p: nat, r: nat)
    ensures 2 * p * r / 2 == p * r && 2 * p * r % 2 == 0
  {
    assert 2 * p * r == 2 * (p * r);
  }

  lemma TurnByDigits<V(!new)>(d: Digits<V>, n: Word)
    requires Represents(d) && OrLaws(d) && WithinLaws(d) && TurnLaws(d)
    ensures d.turn(d.rep(n)) == d.rep(TurnWord(n))
  {
    var y, p, q := n / 4, n / 2 % 2 == 1, n % 2 == 1;
    PowerTable();
    WithinByDigits(d, y, 30);
    TwoDigits(d, n);
    OrByDigits(d, y, Top(p, q));
    TurnIsOr(n);
  }

  lemma TurnIsOr(n: Word)
    ensures OrWords(n / 4, Top(n / 2 % 2 == 1, n % 2 == 1)) == TurnWord(n)
  {
    PowerTable();
    TopIs(n);
    OrIsSum(n / 4, 30, n % 4);
  }

  lemma TopIs(n: nat)
    ensures Top(n / 2 % 2 == 1, n % 2 == 1) == 0x40000000 * (n % 4)
  {
    assert n % 4 == 2 * (n / 2 % 2) + n % 2;
  }

  lemma TwoDigits<V(!new)>(d: Digits<V>, n: nat)
    requires Represents(d)
    ensures d.rep(n) == d.put(d.put(d.rep(n / 4), n / 2 % 2 == 1), n % 2 == 1)
  {
    assert ByDigit(d, n) && ByDigit(d, n / 2);
    assert n / 2 / 2 == n / 4;
  }

  // The laws hold of 32-bit vectors.

  function HalfOf(x: bv32): bv32 { x >> 1 }
  predicate IsOdd(x: bv32) { x & 1 == 1 }
  function Ones(k: nat): bv32 { if k == 0 then 0 else Put(Ones(k - 1), true) }
  predicate Within(y: bv32, k: nat) { Clear(y, Ones(k)) == 0 }

  const BITS: Digits<bv32> := Digits(Bits, Put, Or, Clear, HalfOf, IsOdd, Right1, Ones, Within)

  lemma BitsRepresent()
    ensures Represents(BITS)
  {
    assert Put(0, false) == 0;
    forall n: nat ensures ByDigit(BITS, n) {
      assert Bits(n) == if n == 0 then 0 else Put(Bits(n / 2), n % 2 == 1);
    }
  }

  predicate OrLaw(h: bv32, g: bv32, p: bool, q: bool) { Or(Put(h, p), Put(g, q)) == Put(Or(h, g), p || q) }

  lemma OrEven(h: bv32, g: bv32, q: bool)
    ensures OrLaw(h, g, false, q)
  {
  }

  lemma OrOdd(h: bv32, g: bv32, q: bool)
    ensures OrLaw(h, g, true, q)
  {
  }

  lemma OrPut(h: bv32, g: bv32, p: bool, q: bool)
    ensures OrLaw(h, g, p, q)
  {
    if p { OrOdd(h, g, q); } else { OrEven(h, g, q); }
  }

  lemma OrZero()
    ensures Or(0, 0) == 0
  {
  }

  lemma BitsOr()
    ensures OrLaws(BITS)
  {
    OrZero();
    forall h, g, p, q ensures Or(Put(h, p), Put(g, q)) == Put(Or(h, g), p || q) {
      OrPut(h, g, p, q);
    }
  }

  predicate ClearLaw(h: bv32, g: bv32, p: bool, q: bool) { Clear(Put(h, p), Put(g, q)) == Put(Clear(h, g), p && !q) }

  lemma ClearEven(h: bv32, g: bv32, q: bool)
    ensures ClearLaw(h, g, false, q)
  {
  }

  lemma ClearOdd(h: bv32, g: bv32, q: bool)
    ensures ClearLaw(h, g, true, q)
  {
  }

  lemma ClearPut(h: bv32, g: bv32, p: bool, q: bool)
    ensures ClearLaw(h, g, p, q)
  {
    if p { ClearOdd(h, g, q); } else { ClearEven(h, g, q); }
  }

  lemma ClearZero(y: bv32)
    ensures Clear(0, y) == 0
  {
  }

  lemma BitsClear()
    ensures ClearLaws(BITS)
  {
    forall y ensures Clear(0, y) == 0 {
      ClearZero(y);
    }
    forall h, g, p, q ensures Clear(Put(h, p), Put(g, q)) == Put(Clear(h, g), p && !q) {
      ClearPut(h, g, p, q);
    }
  }

  lemma PutWithin(y: bv32, p: bool, ones: bv32)
    requires Clear(y, ones) == 0
    ensures Clear(Put(y, p), Put(ones, true)) == 0
  {
  }

  lemma BitsWithin()
    ensures WithinLaws(BITS)
  {
    ClearZero(0);
    forall y, p, k: nat | Within(y, k) ensures Within(Put(y, p), k + 1) {
      PutWithin(y, p, Ones(k));
    }
  }

  lemma OnesTable()
    ensures Ones(30) == 0x3fffffff && Ones(31) == 0x7fffffff && Ones(32) == 0xffffffff
  {
    assert Ones(8) == 0xff;
    assert Ones(16) == 0xffff;
    assert Ones(24) == 0xffffff;
    assert Ones(28) == 0xfffffff;
  }

  lemma Halved(y: bv32, p: bool)
    requires Clear(y, 0x7fffffff) == 0
    ensures HalfOf(Put(y, p)) == y && IsOdd(Put(y, p)) == p
  {
  }

  lemma BitsHalf()
    ensures HalfLaws(BITS)
  {
    OnesTable();
    forall y, p | Within(y, 31) ensures HalfOf(Put(y, p)) == y && IsOdd(Put(y, p)) == p {
      Halved(y, p);
    }
  }

  lemma BitsOnes()
    ensures OnesLaws(BITS)
  {
  }

  lemma TopTable()
    ensures Bits(0x40000000) == 0x40000000 && Bits(0x80000000) == 0x80000000 && Bits(0xc0000000) == 0xc0000000
  {
    OnesTable();
    TopRun(30, 1);
    TopRun(31, 1);
    TopRun(30, 2);
    PowerTable();
  }

  /** A run of ones from bit k on. */
  lemma TopRun(k: nat, j: nat)
    ensures Pow2(k + j) >= Pow2(k) && Bits(Pow2(k + j) - Pow2(k)) == Clear(Ones(k + j), Ones(k))
  {
    BitsRepresent();
    BitsClear();
    BitsOnes();
    RunByDigits(BITS, k, j);
  }

  lemma AllOnes()
    ensures Bits(0xffffffff) == 0xffffffff
  {
    BitsRepresent();
    BitsOnes();
    OnesByDigits(BITS, 32);
    PowerTable();
    OnesTable();
  }

  lemma Turned(h: bv32, p: bool, q: bool)
    requires Clear(h, 0x3fffffff) == 0
    ensures Right1(Put(Put(h, p), q)) == Or(h, if p then if q then 0xc0000000 else 0x80000000 else if q then 0x40000000 else 0)
  {
    if {
      case !p && !q => Turned0(h);
      case !p && q => Turned1(h);
      case p && !q => Turned2(h);
      case p && q => Turned3(h);
    }
  }

  lemma Turned0(h: bv32)
    requires Clear(h, 0x3fffffff) == 0
    ensures Right1(Put(Put(h, false), false)) == Or(h, 0)
  {
  }

  lemma Turned1(h: bv32)
    requires Clear(h, 0x3fffffff) == 0
    ensures Right1(Put(Put(h, false), true)) == Or(h, 0x40000000)
  {
  }

  lemma Turned2(h: bv32)
    requires Clear(h, 0x3fffffff) == 0
    ensures Right1(Put(Put(h, true), false)) == Or(h, 0x80000000)
  {
  }

  lemma Turned3(h: bv32)
    requires Clear(h, 0x3fffffff) == 0
    ensures Right1(Put(Put(h, true), true)) == Or(h, 0xc0000000)
  {
  }

  lemma TopBits(p: bool, q: bool)
    ensures Bits(Top(p, q)) == if p then if q then 0xc0000000 else 0x80000000 else if q then 0x40000000 else 0
  {
    TopTable();
  }

  lemma TurnedAt(y: bv32, p: bool, q: bool, top: bv32)
    requires Clear(y, 0x3fffffff) == 0 && top == Bits(Top(p, q))
    ensures Right1(Put(Put(y, p), q)) == Or(y, top)
  {
    TopBits(p, q);
    Turned(y, p, q);
  }

  lemma BitsTurn()
    ensures TurnLaws(BITS)
  {
    OnesTable();
    forall y, p, q | Within(y, 30) ensures Right1(Put(Put(y, p), q)) == Or(y, Bits(Top(p, q))) {
      TurnedAt(y, p, q, Bits(Top(p, q)));
    }
  }

  /** Or on numbers is or on their bits. */
  lemma OrIs(a: nat, b: nat)
    ensures Or(Bits(a), Bits(b)) == Bits(OrWords(a, b))
  {
    BitsRepresent();
    BitsOr();
    OrByDigits(BITS, a, b);
  }

  /** Clearing bits of numbers is clearing bits. */
  lemma ClearIs(a: nat, b: nat)
    ensures Clear(Bits(a), Bits(b)) == Bits(ClearWords(a, b))
  {
    BitsRepresent();
    BitsClear();
    ClearByDigits(BITS, a, b);
  }

  /** No two numbers below 2^32 have the same bits. */
  lemma SameBits(a: Word, b: Word)
    requires Bits(a) == Bits(b)
    ensures a == b
  {
    BitsRepresent();
    BitsWithin();
    BitsHalf();
    SameByDigits(BITS, a, b);
  }

  lemma TurnIs(n: Word)
    ensures Right1(Bits(n)) == Bits(TurnWord(n))
  {
    BitsRepresent();
    BitsOr();
    BitsWithin();
    BitsTurn();
    TurnByDigits(BITS, n);
  }

  /** Rotating a number is rotating its bits. */
  lemma {:induction false} RorIs(n: Word, k: bv4, i: nat)
    requires k as nat == i
    ensures Ror(Bits(n), k) == Bits(RorWord(n, i))
    decreases i
  {
    if i == 0 {
      RorZero(Bits(n));
    } else {
      RorIs(n, k - 1, i - 1);
      RorBelow(n, i - 1);
      TurnIs(RorWord(n, i - 1));
      RorOne(Bits(n), k - 1);
      RightIsRor(Ror(Bits(n), k - 1));
    }
  }

  // Immediate operands.

  lemma Doubled12(h: bv12, n: nat)
    requires h as nat == n && n < 0x800
    ensures h < 0x800 && (h << 1) as nat == 2 * n && ((h << 1) | 1) as nat == 2 * n + 1
  {
  }

  lemma WidenedEven(h: bv12)
    requires h < 0x800
    ensures (h << 1) as bv32 == Put(h as bv32, false)
  {
  }

  lemma WidenedOdd(h: bv12)
    requires h < 0x800
    ensures ((h << 1) | 1) as bv32 == Put(h as bv32, true)
  {
  }

  lemma {:induction false} Represent12(n: nat) returns (y: bv12)
    requires n < 0x1000
    ensures y as nat == n && y as bv32 == Bits(n)
  {
    if n == 0 { return 0; }
    var half := Represent12(n / 2);
    Doubled12(half, n / 2);
    if n % 2 == 0 {
      WidenedEven(half);
      return half << 1;
    }
    WidenedOdd(half);
    return (half << 1) | 1;
  }

  lemma {:induction false} Represent4(n: nat) returns (y: bv4)
    requires n < 16
    ensures y as nat == n
  {
    if n == 0 { return 0; }
    var half := Represent4(n / 2);
    y := if n % 2 == 0 then half << 1 else (half << 1) | 1;
  }

  lemma SameBits12(x: bv12, y: bv12)
    requires x as nat == y as nat
    ensures x == y
  {
    assert (x as nat) as bv12 == x;
    assert (y as nat) as bv12 == y;
  }

  /** A byte with a rotation above it. */
  lemma Composed(b: bv12, n: nat, k: bv4, i: nat)
    requires b as nat == n && n <= 0xff && k as nat == i
    ensures b <= 0xff && (b | ((k as bv12) << 8)) as nat == n + 0x100 * i
  {
  }

  lemma ComposedValue(b: bv12, k: bv4, y: bv12)
    requires b <= 0xff && y == b | ((k as bv12) << 8)
    ensures ImmValue(y) == Ror(b as bv32, k)
  {
  }

  lemma ImmOf(b: bv12, n: nat, k: bv4, i: nat, y: bv12)
    requires n <= 0xff && k as nat == i && b <= 0xff && b as bv32 == Bits(n) && y == b | ((k as bv12) << 8)
    ensures ImmValue(y) == Bits(RorWord(n, i))
  {
    ComposedValue(b, k, y);
    RorIs(n, k, i);
  }

  /** Every twelve-bit number is that of an operand with the value the number stands for. */
  lemma Operand12(low: nat) returns (y: bv12)
    requires low < 0x1000
    ensures y as nat == low && ImmValue(y) == Bits(ImmWord(low))
  {
    var n, i := low % 0x100, low / 0x100;
    var b := Represent12(n);
    var k := Represent4(i);
    Composed(b, n, k, i);
    y := b | ((k as bv12) << 8);
    ImmOf(b, n, k, i, y);
  }

  lemma ImmIs(y: bv12, low: nat)
    requires y as nat == low
    ensures ImmValue(y) == Bits(ImmWord(low))
  {
    var x := Operand12(low);
    SameBits12(x, y);
  }
}
