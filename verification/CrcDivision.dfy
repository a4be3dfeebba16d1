/** The checksum as a remainder: what the reflected register of the pixel dumps computes,
    read in a mirror, is the long division of RFC 2083 section 3.4, and long division
    leaves the remainder of the polynomial of the message. */
module CrcDivision {
  import opened ArmEncoding
  import opened Masks
  import opened Polynomials
  import opened WordBits
  import opened Crc

  /** x^32+x^26+x^23+x^22+x^16+x^12+x^11+x^10+x^8+x^7+x^5+x^4+x^2+x+1 without its leading
      term, highest power first. */
  const GENERATOR: bv32 := 0x04c11db7

  /** The register read the other way round: bit k becomes bit 31 - k. */
  function Mirror(x: bv32): bv32 {
    ((x & 1) << 31) | (((x >> 1) & 1) << 30) | (((x >> 2) & 1) << 29) | (((x >> 3) & 1) << 28) |
    (((x >> 4) & 1) << 27) | (((x >> 5) & 1) << 26) | (((x >> 6) & 1) << 25) | (((x >> 7) & 1) << 24) |
    (((x >> 8) & 1) << 23) | (((x >> 9) & 1) << 22) | (((x >> 10) & 1) << 21) | (((x >> 11) & 1) << 20) |
    (((x >> 12) & 1) << 19) | (((x >> 13) & 1) << 18) | (((x >> 14) & 1) << 17) | (((x >> 15) & 1) << 16) |
    (((x >> 16) & 1) << 15) | (((x >> 17) & 1) << 14) | (((x >> 18) & 1) << 13) | (((x >> 19) & 1) << 12) |
    (((x >> 20) & 1) << 11) | (((x >> 21) & 1) << 10) | (((x >> 22) & 1) << 9) | (((x >> 23) & 1) << 8) |
    (((x >> 24) & 1) << 7) | (((x >> 25) & 1) << 6) | (((x >> 26) & 1) << 5) | (((x >> 27) & 1) << 4) |
    (((x >> 28) & 1) << 3) | (((x >> 29) & 1) << 2) | (((x >> 30) & 1) << 1) | ((x >> 31) & 1)
  }

  /** One step of division by the generator, highest power first: the remainder times x
      plus the next bit of the message times x^32, reduced. */
  function DivideStep(r: bv32, bit: bool): bv32 {
    if (r & 0x80000000 != 0) == bit then r << 1 else (r << 1) ^ GENERATOR
  }

  lemma HalfMirrored(x: bv32)
    ensures Mirror(x >> 1) == Mirror(x) << 1
  {
  }

  lemma MirrorHalf(x: bv32)
    ensures MirrorsHalf(MIRROR, x)
  {
    HalfMirrored(x);
  }

  lemma MirrorHalfReduced(x: bv32)
    ensures MirrorsHalfReduced(MIRROR, x)
  {
  }

  lemma MirrorTop(c: bv32)
    ensures MirrorsOdd(MIRROR, c)
  {
  }

  // A register and the one it is mirrored in.

  datatype Mirroring<!V> = Mirroring(
    step: (V, bool) -> V, half: V -> V, reduced: V -> V, odd: V -> bool,
    divide: (V, bool) -> V, double: V -> V, folded: V -> V, top: V -> bool,
    mirror: V -> V)

  ghost predicate StepLaw<V(!new)>(r: Mirroring<V>) {
    forall c, bit :: r.step(c, bit) == if r.odd(c) == bit then r.half(c) else r.reduced(c)
  }

  ghost predicate DivideLaw<V(!new)>(r: Mirroring<V>) {
    forall c, bit :: r.divide(c, bit) == if r.top(c) == bit then r.double(c) else r.folded(c)
  }

  ghost predicate MirrorLaws<V(!new)>(r: Mirroring<V>) {
    forall c :: MirrorsHalf(r, c) && MirrorsHalfReduced(r, c) && MirrorsOdd(r, c)
  }

  predicate MirrorsHalf<V(==)>(r: Mirroring<V>, c: V) { r.mirror(r.half(c)) == r.double(r.mirror(c)) }
  predicate MirrorsHalfReduced<V(==)>(r: Mirroring<V>, c: V) { r.mirror(r.reduced(c)) == r.folded(r.mirror(c)) }
  predicate MirrorsOdd<V>(r: Mirroring<V>, c: V) { r.top(r.mirror(c)) == r.odd(c) }

  lemma Mirrored<V(!new)>(r: Mirroring<V>, c: V, bit: bool)
    requires StepLaw(r) && DivideLaw(r) && MirrorLaws(r)
    ensures r.mirror(r.step(c, bit)) == r.divide(r.mirror(c), bit)
  {
    assert MirrorsHalf(r, c) && MirrorsHalfReduced(r, c) && MirrorsOdd(r, c);
  }

  function Step(c: bv32, bit: bool): bv32 { Shift(c ^ (if bit then 1 else 0)) }
  function HalfReduced(c: bv32): bv32 { POLYNOMIAL ^ (c >> 1) }
  function Double(r: bv32): bv32 { r << 1 }
  function Folded(r: bv32): bv32 { (r << 1) ^ GENERATOR }
  predicate Odd(c: bv32) { c & 1 == 1 }
  predicate Top(r: bv32) { r & 0x80000000 != 0 }

  const MIRROR: Mirroring<bv32> := Mirroring(Step, Half, HalfReduced, Odd, DivideStep, Double, Folded, Top, Mirror)

  lemma StepsTrue(c: bv32)
    ensures Step(c, true) == if Odd(c) then Half(c) else HalfReduced(c)
  {
  }

  lemma StepsFalse(c: bv32)
    ensures Step(c, false) == if Odd(c) then HalfReduced(c) else Half(c)
  {
  }

  lemma HasStepLaw()
    ensures StepLaw(MIRROR)
  {
    forall c, bit ensures Step(c, bit) == if Odd(c) == bit then Half(c) else HalfReduced(c) {
      if bit { StepsTrue(c); } else { StepsFalse(c); }
    }
  }

  lemma HasDivideLaw()
    ensures DivideLaw(MIRROR)
  {
  }

  lemma HasMirrorLaws()
    ensures MirrorLaws(MIRROR)
  {
    forall c ensures MirrorsHalf(MIRROR, c) && MirrorsHalfReduced(MIRROR, c) && MirrorsOdd(MIRROR, c) {
      MirrorHalf(c);
      MirrorHalfReduced(c);
      MirrorTop(c);
    }
  }

  /** Seen in the mirror, a step of the reflected register is a step of the division of
      the message, times x^32, by the generator polynomial of RFC 2083. */
  lemma StepMirrored(c: bv32, bit: bool)
    ensures Mirror(Step(c, bit)) == DivideStep(Mirror(c), bit)
  {
    HasStepLaw();
    HasDivideLaw();
    HasMirrorLaws();
    Mirrored(MIRROR, c, bit);
  }

  /** The low n bits of a byte in the order they are sent. */
  function LowBits(b: bv32, n: nat): seq<bool>
    decreases n
  {
    if n == 0 then [] else [Odd(b)] + LowBits(Half(b), n - 1)
  }

  function MessageBits(buffer: seq<bv8>): seq<bool>
    decreases |buffer|
  {
    if buffer == [] then [] else LowBits(Wide(buffer[0]), 8) + MessageBits(buffer[1..])
  }

  /** Long division, bit after bit. */
  function Divide(r: bv32, bits: seq<bool>): bv32
    decreases |bits|
  {
    if bits == [] then r else Divide(DivideStep(r, bits[0]), bits[1..])
  }

  lemma LowIs(b: bv32)
    ensures Low(b) == if Odd(b) then 1 else 0
  {
    OddOrEven(b);
  }

  lemma StepIs(c: bv32, low: bv32, bit: bool)
    requires low == if bit then 1 else 0
    ensures Shift(Xor(c, low)) == Step(c, bit)
  {
    assert Xor(c, low) == c ^ low;
  }

  lemma LowIsBit(c: bv32, b: bv32)
    ensures Shift(Xor(c, Low(b))) == Step(c, Odd(b))
  {
    LowIs(b);
    StepIs(c, Low(b), Odd(b));
  }

  lemma DivideFirst(r: bv32, bit: bool, bits: seq<bool>, next: bv32)
    requires next == DivideStep(r, bit)
    ensures Divide(r, [bit] + bits) == Divide(next, bits)
  {
    assert ([bit] + bits)[1..] == bits;
  }

  lemma {:induction false} FeedIsDivision(c: bv32, b: bv32, n: nat)
    ensures Mirror(FeedN(CRC32, c, b, n)) == Divide(Mirror(c), LowBits(b, n))
    decreases n
  {
    if n > 0 {
      LowIsBit(c, b);
      StepMirrored(c, Odd(b));
      FeedIsDivision(Step(c, Odd(b)), Half(b), n - 1);
      DivideFirst(Mirror(c), Odd(b), LowBits(Half(b), n - 1), Mirror(Step(c, Odd(b))));
    }
  }

  lemma {:induction false} DivideConcat(r: bv32, s: seq<bool>, t: seq<bool>)
    ensures Divide(r, s + t) == Divide(Divide(r, s), t)
    decreases |s|
  {
    if s == [] {
      assert s + t == t;
    } else {
      assert (s + t)[1..] == s[1..] + t;
      DivideConcat(DivideStep(r, s[0]), s[1..], t);
    }
  }

  lemma {:induction false} FeedAllIsDivision(c: bv32, buffer: seq<bv8>)
    ensures Mirror(FeedAll(c, buffer)) == Divide(Mirror(c), MessageBits(buffer))
    decreases |buffer|
  {
    if buffer != [] {
      var next := FeedN(CRC32, c, Wide(buffer[0]), 8);
      FeedIsDivision(c, Wide(buffer[0]), 8);
      FeedAllIsDivision(next, buffer[1..]);
      DivideConcat(Mirror(c), LowBits(Wide(buffer[0]), 8), MessageBits(buffer[1..]));
    }
  }

  lemma MirrorTwice(x: bv32)
    ensures Mirror(Mirror(x)) == x
  {
  }

  lemma MirrorOnes()
    ensures Mirror(0xffffffff) == 0xffffffff
  {
  }

  lemma CrcIsDivide(buffer: seq<bv8>)
    ensures SerialCrc(buffer) == Xor(Mirror(Divide(0xffffffff, MessageBits(buffer))), 0xffffffff)
  {
    MirrorOnes();
    FeedAllIsDivision(0xffffffff, buffer);
    MirrorTwice(FeedAll(0xffffffff, buffer));
  }

  // The register as a polynomial.

  /** The generator of RFC 2083 with its leading term. */
  const GENERATOR_POLYNOMIAL: nat := 0x1_04c1_1db7

  predicate XorLaw(x: bv32, y: bv32, p: bool, q: bool) { Xor(Put(x, p), Put(y, q)) == Put(Xor(x, y), p != q) }

  lemma XorEven(x: bv32, y: bv32, q: bool)
    ensures XorLaw(x, y, false, q)
  {
  }

  lemma XorOdd(x: bv32, y: bv32, q: bool)
    ensures XorLaw(x, y, true, q)
  {
  }

  lemma XorPut(x: bv32, y: bv32, p: bool, q: bool)
    ensures XorLaw(x, y, p, q)
  {
    if p { XorOdd(x, y, q); } else { XorEven(x, y, q); }
  }

  lemma XorPutAt(x: bv32, y: bv32, p: bool, q: bool, digit: bool, u: bv32, v: bv32, w: bv32)
    requires u == Put(x, p) && v == Put(y, q) && w == Put(Xor(x, y), digit) && digit == (p != q)
    ensures Xor(u, v) == w
  {
    XorPut(x, y, p, q);
  }

  lemma PutNothing()
    ensures Put(0, false) == 0
  {
  }

  lemma BitsOf(n: nat, half: nat, digit: bool)
    requires half == n / 2 && digit == (n % 2 == 1)
    ensures Bits(n) == Put(Bits(half), digit)
  {
    PutNothing();
  }

  lemma Halves(n: nat, digit: bool)
    ensures (2 * n + Digit(digit)) / 2 == n && ((2 * n + Digit(digit)) % 2 == 1) == digit
  {
  }

  lemma BitsNext(n: nat, digit: bool, m: nat)
    requires m == 2 * n + Digit(digit)
    ensures Bits(m) == Put(Bits(n), digit)
  {
    Halves(n, digit);
    BitsOf(m, n, digit);
  }

  lemma XorZeros()
    ensures Xor(0, 0) == 0
  {
  }

  /** The sum of polynomials is exclusive or of their coefficients. */
  lemma {:induction false} BitsPlus(a: nat, b: nat)
    ensures Xor(Bits(a), Bits(b)) == Bits(Plus(a, b))
    decreases a + b
  {
    if a > 0 || b > 0 {
      var h, g, p, q := a / 2, b / 2, a % 2 == 1, b % 2 == 1;
      BitsPlus(h, g);
      PlusDigits(a, b);
      BitsOf(a, h, p);
      BitsOf(b, g, q);
      BitsNext(Plus(h, g), p != q, Plus(a, b));
      XorPutAt(Bits(h), Bits(g), p, q, p != q, Bits(a), Bits(b), Bits(Plus(a, b)));
    } else {
      XorZeros();
    }
  }

  lemma PutIsDouble(x: bv32)
    ensures Put(x, false) == Double(x)
  {
  }

  lemma BitsDouble(n: nat)
    ensures Bits(2 * n) == Double(Bits(n))
  {
    BitsNext(n, false, 2 * n);
    PutIsDouble(Bits(n));
  }

  // The leading coefficient.

  lemma LowHasNoTop(x: bv32)
    requires Clear(x, 0x7fffffff) == 0
    ensures !Top(x) && Top(Or(x, 0x80000000))
  {
  }

  lemma BelowTop(r: nat)
    requires r < 0x80000000
    ensures Clear(Bits(r), 0x7fffffff) == 0
  {
    PowerTable();
    BitsRepresent();
    BitsWithin();
    WithinByDigits(BITS, r, 31);
    OnesTable();
  }

  lemma TopBit(r: Word)
    ensures Top(Bits(r)) <==> r >= 0x80000000
  {
    if r < 0x80000000 {
      BelowTop(r);
      LowHasNoTop(Bits(r));
    } else {
      var low := r - 0x80000000;
      BelowTop(low);
      LowHasNoTop(Bits(low));
      WithTop(low, r);
    }
  }

  lemma WithTop(low: nat, r: Word)
    requires low < 0x80000000 && r == low + 0x80000000
    ensures Bits(r) == Or(Bits(low), 0x80000000)
  {
    PowerTable();
    OrIsSum(low, 31, 1);
    OrIs(low, 0x80000000);
    TopTable();
  }

  // The constants.

  function PutFour(x: bv32, p: bool, q: bool, u: bool, v: bool): bv32 { Put(Put(Put(Put(x, p), q), u), v) }

  lemma Nibble(n: nat, p: bool, q: bool, u: bool, v: bool, m: nat)
    requires m == 16 * n + 8 * Digit(p) + 4 * Digit(q) + 2 * Digit(u) + Digit(v)
    ensures Bits(m) == PutFour(Bits(n), p, q, u, v)
  {
    var n1 := 2 * n + Digit(p);
    var n2 := 2 * n1 + Digit(q);
    var n3 := 2 * n2 + Digit(u);
    BitsNext(n, p, n1);
    BitsNext(n1, q, n2);
    BitsNext(n2, u, n3);
    BitsNext(n3, v, m);
  }

  lemma GeneratorBits()
    ensures Bits(GENERATOR_POLYNOMIAL) == GENERATOR
  {
    Nibble(0, false, false, false, true, 0x1);
    Nibble(0x1, false, false, false, false, 0x10);
    Nibble(0x10, false, true, false, false, 0x104);
    Nibble(0x104, true, true, false, false, 0x104c);
    Nibble(0x104c, false, false, false, true, 0x104c1);
    Nibble(0x104c1, false, false, false, true, 0x104c11);
    Nibble(0x104c11, true, true, false, true, 0x104c11d);
    Nibble(0x104c11d, true, false, true, true, 0x104c11db);
    Nibble(0x104c11db, false, true, true, true, 0x104c11db7);
  }

  lemma PastTheTop()
    ensures Bits(WORD_LIMIT) == 0
  {
    TopTable();
    BitsDouble(0x80000000);
  }

  // One step.

  /** The terms of the generator, as section 3.4 of RFC 2083 lists them. */
  lemma GeneratorTerms()
    ensures GENERATOR_POLYNOMIAL
            == Pow2(32) + Pow2(26) + Pow2(23) + Pow2(22) + Pow2(16) + Pow2(12) + Pow2(11) + Pow2(10)
               + Pow2(8) + Pow2(7) + Pow2(5) + Pow2(4) + Pow2(2) + Pow2(1) + Pow2(0)
  {
    PowerTable();
    assert Pow2(8) == 0x100;
    assert Pow2(16) == 0x1_0000;
  }

  lemma GeneratorDegree()
    ensures Pow2(32) == WORD_LIMIT && Pow2(32) <= GENERATOR_POLYNOMIAL < Pow2(33)
  {
    PowerTable();
  }

  /** The leading term is left exactly if the register's top differs from the new bit. */
  lemma LeadingTerm(r: Word, bit: bool)
    ensures Plus(2 * r, if bit then WORD_LIMIT else 0) >= WORD_LIMIT <==> ((r >= 0x80000000) != bit)
  {
    PowerTable();
    PlusZero(2 * r);
    if bit {
      if r >= 0x80000000 {
        PlusCancels(2 * r, WORD_LIMIT, 32);
      } else {
        PlusAbove(2 * r, WORD_LIMIT, 32);
      }
    }
  }

  lemma JoinedBits(r: Word, bit: bool)
    ensures Bits(Plus(2 * r, if bit then WORD_LIMIT else 0)) == Double(Bits(r))
  {
    BitsDouble(r);
    if bit {
      PastTheTop();
      BitsPlus(2 * r, WORD_LIMIT);
      XorZero(Bits(2 * r));
    } else {
      PlusZero(2 * r);
    }
  }

  function Remaining(r: nat, bit: bool): nat { NextRemainder(r, bit, GENERATOR_POLYNOMIAL, 32) }

  lemma RemainingBelow(r: Word, bit: bool)
    ensures Remaining(r, bit) < WORD_LIMIT
  {
    GeneratorDegree();
    JoinedBelow(r, bit, 32);
    var x := Plus(2 * r, if bit then Pow2(32) else 0);
    if x >= Pow2(32) {
      PlusCancels(x, GENERATOR_POLYNOMIAL, 32);
    }
  }

  lemma DivideCases(x: bv32, bit: bool)
    ensures DivideStep(x, bit) == if Top(x) == bit then Double(x) else Xor(Double(x), GENERATOR)
  {
  }

  /** A step of the register is a step of the long division of polynomials. */
  lemma StepDivides(r: Word, bit: bool)
    ensures Bits(Remaining(r, bit)) == DivideStep(Bits(r), bit)
  {
    GeneratorDegree();
    var x := Plus(2 * r, if bit then WORD_LIMIT else 0);
    TopBit(r);
    LeadingTerm(r, bit);
    JoinedBits(r, bit);
    DivideCases(Bits(r), bit);
    if x >= WORD_LIMIT {
      BitsPlus(x, GENERATOR_POLYNOMIAL);
      GeneratorBits();
    }
  }

  // The whole message.

  lemma {:induction false} DivideRemains(d: nat, q: nat, r: Word, bits: seq<bool>) returns (q': nat, r': Word)
    requires DividesTo(d, GENERATOR_POLYNOMIAL, 32, q, r)
    ensures DividesTo(Joined(d, bits, 32), GENERATOR_POLYNOMIAL, 32, q', r')
    ensures Divide(Bits(r), bits) == Bits(r')
    decreases |bits|
  {
    if bits == [] { return q, r; }
    GeneratorDegree();
    var next := NextDivides(d, GENERATOR_POLYNOMIAL, 32, q, r, bits[0]);
    RemainingBelow(r, bits[0]);
    StepDivides(r, bits[0]);
    q', r' := DivideRemains(Plus(2 * d, if bits[0] then Pow2(32) else 0), next, Remaining(r, bits[0]), bits[1..]);
  }

  /** What RFC 2083 section 3.4 divides: the message times x^32, the register preset to ones. */
  function Dividend(bits: seq<bool>): nat { Plus(Shifted(Polynomial(bits), 32), Shifted(0xffffffff, |bits|)) }

  lemma PresetRemains()
    ensures DividesTo(0xffffffff, GENERATOR_POLYNOMIAL, 32, 0, 0xffffffff)
  {
    GeneratorDegree();
    PlusZero(0xffffffff);
  }

  /** The checksum is the remainder of the dividend by the generator, read backwards and
      complemented. */
  lemma CrcIsDivision(buffer: seq<bv8>) returns (q: nat, r: Word)
    ensures DividesTo(Dividend(MessageBits(buffer)), GENERATOR_POLYNOMIAL, 32, q, r)
    ensures SerialCrc(buffer) == Xor(Mirror(Bits(r)), 0xffffffff)
  {
    var bits := MessageBits(buffer);
    PresetRemains();
    q, r := DivideRemains(0xffffffff, 0, 0xffffffff, bits);
    JoinedIs(0xffffffff, bits, 32);
    AllOnes();
    CrcIsDivide(buffer);
  }

  /** Whatever quotient and remainder there are, they are these. */
  lemma RemainderIsCrc(buffer: seq<bv8>, q: nat, r: Word)
    requires DividesTo(Dividend(MessageBits(buffer)), GENERATOR_POLYNOMIAL, 32, q, r)
    ensures SerialCrc(buffer) == Xor(Mirror(Bits(r)), 0xffffffff)
  {
    var q', r' := CrcIsDivision(buffer);
    GeneratorDegree();
    DivisionIsUnique(Dividend(MessageBits(buffer)), GENERATOR_POLYNOMIAL, 32, q, r, q', r');
  }
}
