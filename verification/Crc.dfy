/** CRC-32 as the pixel dumps compute it: a table of 256 words and one lookup a byte. It is
    proved to be the bit-serial computation of RFC 2083 section 3.4, and to notice any
    change of a single byte. */
module Crc {
  const POLYNOMIAL: bv32 := 0xedb88320

  // Registers in general: what the inductions need of a shift and an exclusive or.

  datatype Register<!V> = Register(
    shift: V -> V, xor: (V, V) -> V,
    low: V -> V, upper: V -> V, half: V -> V, isZero: (V, nat) -> bool)

  ghost predicate Linear<V(!new)>(r: Register<V>) {
    forall a, b :: r.shift(r.xor(a, b)) == r.xor(r.shift(a), r.shift(b))
  }

  /** One bit fed in, the others xored in once they have moved down. */
  ghost predicate FeedsBit<V(!new)>(r: Register<V>) {
    forall c, b :: r.shift(r.xor(c, b)) == r.xor(r.shift(r.xor(c, r.low(b))), r.half(b))
  }

  /** The lowest bit and the others, which move down as they are. */
  ghost predicate Splits<V(!new)>(r: Register<V>) {
    && (forall c, b {:trigger r.xor(c, r.low(b))} :: r.xor(c, b) == r.xor(r.xor(c, r.low(b)), r.upper(b)))
    && (forall b :: r.shift(r.upper(b)) == r.half(b))
  }

  lemma SplitsFeed<V(!new)>(r: Register<V>)
    requires Linear(r) && Splits(r)
    ensures FeedsBit(r)
  {
    forall c, b ensures r.shift(r.xor(c, b)) == r.xor(r.shift(r.xor(c, r.low(b))), r.half(b)) {
      assert r.xor(c, b) == r.xor(r.xor(c, r.low(b)), r.upper(b));
    }
  }

  ghost predicate ShiftsZeros<V(!new)>(r: Register<V>) {
    forall y, n: nat :: r.isZero(y, n + 1) ==> r.shift(y) == r.half(y) && r.isZero(r.half(y), n)
  }

  ghost predicate Reversible<V(!new)>(r: Register<V>) {
    forall a, b :: r.shift(a) == r.shift(b) ==> a == b
  }

  function ShiftN<V>(r: Register<V>, c: V, n: nat): V
    decreases n
  {
    if n == 0 then c else ShiftN(r, r.shift(c), n - 1)
  }

  /** The low n bits of b fed into the register, lowest first. */
  function FeedN<V>(r: Register<V>, c: V, b: V, n: nat): V
    decreases n
  {
    if n == 0 then c else FeedN(r, r.shift(r.xor(c, r.low(b))), r.half(b), n - 1)
  }

  function HalfN<V>(r: Register<V>, b: V, n: nat): V
    decreases n
  {
    if n == 0 then b else HalfN(r, r.half(b), n - 1)
  }

  lemma {:induction false} ShiftsAreLinear<V(!new)>(r: Register<V>, a: V, b: V, n: nat)
    requires Linear(r)
    ensures ShiftN(r, r.xor(a, b), n) == r.xor(ShiftN(r, a, n), ShiftN(r, b, n))
    decreases n
  {
    if n > 0 {
      ShiftsAreLinear(r, r.shift(a), r.shift(b), n - 1);
    }
  }

  /** Feeding bits one by one is xoring them in at once and then shifting. */
  lemma {:induction false} FeedIsShift<V(!new)>(r: Register<V>, c: V, b: V, n: nat)
    requires FeedsBit(r)
    ensures r.xor(FeedN(r, c, b, n), HalfN(r, b, n)) == ShiftN(r, r.xor(c, b), n)
    decreases n
  {
    if n > 0 {
      FeedIsShift(r, r.shift(r.xor(c, r.low(b))), r.half(b), n - 1);
      assert r.shift(r.xor(c, b)) == r.xor(r.shift(r.xor(c, r.low(b))), r.half(b));
    }
  }

  lemma {:induction false} ZerosShiftOut<V(!new)>(r: Register<V>, y: V, n: nat)
    requires ShiftsZeros(r) && r.isZero(y, n)
    ensures ShiftN(r, y, n) == HalfN(r, y, n)
    decreases n
  {
    if n > 0 {
      assert r.isZero(y, (n - 1) + 1);
      ZerosShiftOut(r, r.half(y), n - 1);
    }
  }

  /** A register that falls apart into a small part and one whose low bits are zero. */
  lemma FeedInParts<V(!new)>(r: Register<V>, c: V, b: V, n: nat, small: V, high: V, top: V)
    requires Linear(r) && FeedN(r, c, b, n) == ShiftN(r, r.xor(c, b), n)
    requires r.xor(c, b) == r.xor(small, high) && ShiftN(r, high, n) == top
    ensures FeedN(r, c, b, n) == r.xor(ShiftN(r, small, n), top)
  {
    ShiftsAreLinear(r, small, high, n);
  }

  lemma {:induction false} ShiftsAreReversible<V(!new)>(r: Register<V>, a: V, b: V, n: nat)
    requires Reversible(r) && ShiftN(r, a, n) == ShiftN(r, b, n)
    ensures a == b
    decreases n
  {
    if n > 0 {
      ShiftsAreReversible(r, r.shift(a), r.shift(b), n - 1);
    }
  }

  // The register of CRC-32.

  function Shift(c: bv32): bv32 { if c & 1 == 1 then POLYNOMIAL ^ ((c >> 1) & 0x7fffffff) else c >> 1 }
  function Xor(a: bv32, b: bv32): bv32 { a ^ b }
  function Low(b: bv32): bv32 { b & 1 }
  function Upper(b: bv32): bv32 { b & !1 }
  function Half(b: bv32): bv32 { b >> 1 }
  function Ones(n: nat): bv32 { if n == 0 then 0 else (Ones(n - 1) << 1) | 1 }
  predicate IsZero(y: bv32, n: nat) { y & Ones(n) == 0 }

  const CRC32: Register<bv32> := Register(Shift, Xor, Low, Upper, Half, IsZero)

  lemma Shift11(a: bv32, b: bv32)
    requires a & 1 == 1 && b & 1 == 1
    ensures Shift(a ^ b) == Shift(a) ^ Shift(b)
  {
    assert (a ^ b) & 1 == 0;
    assert (a ^ b) >> 1 == (POLYNOMIAL ^ ((a >> 1) & 0x7fffffff)) ^ (POLYNOMIAL ^ ((b >> 1) & 0x7fffffff));
  }

  lemma Shift10(a: bv32, b: bv32)
    requires a & 1 == 1 && b & 1 == 0
    ensures Shift(a ^ b) == Shift(a) ^ Shift(b) && Shift(b ^ a) == Shift(b) ^ Shift(a)
  {
    assert (a ^ b) & 1 == 1 && b ^ a == a ^ b;
    assert POLYNOMIAL ^ (((a ^ b) >> 1) & 0x7fffffff) == (POLYNOMIAL ^ ((a >> 1) & 0x7fffffff)) ^ (b >> 1);
  }

  lemma Shift00(a: bv32, b: bv32)
    requires a & 1 == 0 && b & 1 == 0
    ensures Shift(a ^ b) == Shift(a) ^ Shift(b)
  {
    assert (a ^ b) & 1 == 0 && (a ^ b) >> 1 == (a >> 1) ^ (b >> 1);
  }

  lemma OddOrEven(a: bv32)
    ensures a & 1 == 1 || a & 1 == 0
  {
  }

  lemma ShiftXor(a: bv32, b: bv32)
    ensures Shift(Xor(a, b)) == Xor(Shift(a), Shift(b))
  {
    OddOrEven(a);
    OddOrEven(b);
    if {
      case a & 1 == 1 && b & 1 == 1 => Shift11(a, b);
      case a & 1 == 1 && b & 1 == 0 => Shift10(a, b);
      case a & 1 == 0 && b & 1 == 1 => Shift10(b, a);
      case a & 1 == 0 && b & 1 == 0 => Shift00(a, b);
    }
  }

  lemma IsLinear()
    ensures Linear(CRC32)
  {
    forall a, b ensures Shift(Xor(a, b)) == Xor(Shift(a), Shift(b)) {
      ShiftXor(a, b);
    }
  }

  lemma LowestBit(c: bv32, b: bv32)
    ensures c ^ b == (c ^ (b & 1)) ^ (b & !1)
  {
  }

  lemma UpperMoves(b: bv32)
    ensures Shift(Upper(b)) == Half(b)
  {
  }

  lemma IsSplit()
    ensures Splits(CRC32)
  {
    forall c, b ensures Xor(c, b) == Xor(Xor(c, Low(b)), Upper(b)) {
      LowestBit(c, b);
    }
    forall b ensures Shift(Upper(b)) == Half(b) {
      UpperMoves(b);
    }
  }

  lemma IsFed()
    ensures FeedsBit(CRC32)
  {
    IsLinear();
    IsSplit();
    SplitsFeed(CRC32);
  }

  lemma ZerosMove(y: bv32, ones: bv32)
    requires y & ((ones << 1) | 1) == 0
    ensures Shift(y) == y >> 1 && (y >> 1) & ones == 0
  {
  }

  lemma ZeroStep(y: bv32, n: nat)
    requires IsZero(y, n + 1)
    ensures Shift(y) == Half(y) && IsZero(Half(y), n)
  {
    ZerosMove(y, Ones(n));
  }

  lemma ShiftsOutZeros()
    ensures ShiftsZeros(CRC32)
  {
    forall y, n: nat | IsZero(y, n + 1) ensures Shift(y) == Half(y) && IsZero(Half(y), n) {
      ZeroStep(y, n);
    }
  }

  /** The top bit of the polynomial tells which way the register came. */
  lemma Back(a: bv32)
    ensures a == if Shift(a) & 0x80000000 != 0 then ((Shift(a) ^ POLYNOMIAL) << 1) | 1 else Shift(a) << 1
  {
    OddOrEven(a);
    if a & 1 == 1 { BackOdd(a); } else { BackEven(a); }
  }

  lemma BackOdd(a: bv32)
    requires a & 1 == 1
    ensures Shift(a) & 0x80000000 != 0 && a == ((Shift(a) ^ POLYNOMIAL) << 1) | 1
  {
  }

  lemma BackEven(a: bv32)
    requires a & 1 == 0
    ensures Shift(a) & 0x80000000 == 0 && a == Shift(a) << 1
  {
  }

  function Undone(c: bv32): bv32 { if c & 0x80000000 != 0 then ((c ^ POLYNOMIAL) << 1) | 1 else c << 1 }

  lemma Undo(a: bv32, c: bv32)
    requires c == Shift(a)
    ensures a == Undone(c)
  {
    Back(a);
  }

  lemma IsReversible()
    ensures Reversible(CRC32)
  {
    forall a, b | Shift(a) == Shift(b) ensures a == b {
      Undo(a, Shift(a));
      Undo(b, Shift(a));
    }
  }

  // Bytes.

  function Wide(b: bv8): bv32 { b as bv32 }

  function FeedAll(c: bv32, buffer: seq<bv8>): bv32
    decreases |buffer|
  {
    if buffer == [] then c else FeedAll(FeedN(CRC32, c, Wide(buffer[0]), 8), buffer[1..])
  }

  /** The checksum of RFC 2083: register preset to ones, bits fed lowest first, result
      complemented. */
  function SerialCrc(buffer: seq<bv8>): bv32 { Xor(FeedAll(0xffffffff, buffer), 0xffffffff) }

  function TableEntry(i: bv8): bv32 { ShiftN(CRC32, Wide(i), 8) }

  /** One lookup. */
  function Lookup(c: bv32, b: bv8): bv32 { Xor(TableEntry(Index(c, b)), Rest(c)) }

  function Rest(c: bv32): bv32 { (c >> 8) & 0x00ffffff }

  function Index(c: bv32, b: bv8): bv8 { ((c ^ (b as bv32)) & 0xff) as bv8 }

  lemma ByteRunsOut(b: bv8)
    ensures HalfN(CRC32, Wide(b), 8) == 0
  {
    var h1 := Half(Wide(b));
    var h2 := Half(h1);
    var h3 := Half(h2);
    var h4 := Half(h3);
    var h5 := Half(h4);
    var h6 := Half(h5);
    var h7 := Half(h6);
    assert HalfN(CRC32, h4, 4) == Half(h7);
    assert HalfN(CRC32, Wide(b), 8) == HalfN(CRC32, h4, 4);
  }

  lemma HalfEight(y: bv32)
    ensures HalfN(CRC32, y, 8) == y >> 8
  {
    var h4 := Half(Half(Half(Half(y))));
    assert HalfN(CRC32, y, 8) == HalfN(CRC32, h4, 4);
    assert HalfN(CRC32, h4, 4) == Half(Half(Half(Half(h4))));
  }

  lemma XorZero(a: bv32)
    ensures Xor(a, 0) == a
  {
  }

  /** Eight bits at once. */
  lemma FeedByte(c: bv32, b: bv8)
    ensures FeedN(CRC32, c, Wide(b), 8) == ShiftN(CRC32, Xor(c, Wide(b)), 8)
  {
    IsFed();
    FeedIsShift(CRC32, c, Wide(b), 8);
    ByteRunsOut(b);
    XorZero(FeedN(CRC32, c, Wide(b), 8));
  }

  function HighPart(c: bv32, b: bv8): bv32 { (c ^ (b as bv32)) & 0xffffff00 }

  lemma SplitByte(c: bv32, b: bv8)
    ensures Xor(c, Wide(b)) == Xor(Wide(Index(c, b)), HighPart(c, b))
  {
  }

  lemma HighIsTop(c: bv32, b: bv8)
    ensures HighPart(c, b) & 0xff == 0 && HighPart(c, b) >> 8 == (c >> 8) & 0x00ffffff
  {
  }

  lemma EightOnes()
    ensures Ones(8) == 0xff
  {
  }

  lemma HighShifts(c: bv32, b: bv8)
    ensures ShiftN(CRC32, HighPart(c, b), 8) == (c >> 8) & 0x00ffffff
  {
    HighIsTop(c, b);
    HighByteShifts(HighPart(c, b));
  }

  /** One table lookup is eight shifts. */
  lemma LookupIsFeed(c: bv32, b: bv8)
    ensures Lookup(c, b) == FeedN(CRC32, c, Wide(b), 8)
  {
    FeedByte(c, b);
    SplitByte(c, b);
    IsLinear();
    HighShifts(c, b);
    FeedInParts(CRC32, c, Wide(b), 8, Wide(Index(c, b)), HighPart(c, b), (c >> 8) & 0x00ffffff);
  }

  lemma HighByteShifts(high: bv32)
    requires high & 0xff == 0
    ensures ShiftN(CRC32, high, 8) == high >> 8
  {
    EightOnes();
    ShiftsOutZeros();
    ZerosShiftOut(CRC32, high, 8);
    HalfEight(high);
  }

  // The code.

  ghost predicate IsTable(table: seq<bv32>) {
    |table| == 256 && forall j: bv8 :: table[j as nat] == TableEntry(j)
  }

  /** The inner loop of makeCrcTable. */
  method EightShifts(c0: bv32) returns (c: bv32)
    ensures c == ShiftN(CRC32, c0, 8)
  {
    c := c0;
    for k := 0 to 8
      invariant ShiftN(CRC32, c, 8 - k) == ShiftN(CRC32, c0, 8)
    {
      if c & 1 == 1 {
        c := POLYNOMIAL ^ ((c >> 1) & 0x7fffffff);
      } else {
        c := c >> 1;
      }
    }
  }

  /** makeCrcTable. */
  method MakeCrcTable(crcTable: array<bv32>)
    requires crcTable.Length == 256
    modifies crcTable
    ensures IsTable(crcTable[..])
  {
    for i := 0 to 256
      invariant forall j: bv8 :: j as nat < i ==> crcTable[j as nat] == TableEntry(j)
    {
      var c := EightShifts(Wide(i as bv8));
      crcTable[i] := c;
    }
  }

  lemma FeedNext(c: bv32, buffer: seq<bv8>, i: nat)
    requires i < |buffer|
    ensures FeedAll(c, buffer[i..]) == FeedAll(Lookup(c, buffer[i]), buffer[i + 1..])
  {
    LookupIsFeed(c, buffer[i]);
    assert buffer[i..][1..] == buffer[i + 1..];
  }

  lemma TableAt(table: seq<bv32>, i: bv8)
    requires IsTable(table)
    ensures i as nat < 256 && table[i as nat] == TableEntry(i)
  {
  }

  method NextCrc(crcTable: array<bv32>, crc: bv32, b: bv8) returns (next: bv32)
    requires IsTable(crcTable[..])
    ensures next == Lookup(crc, b)
  {
    var index := Index(crc, b);
    TableAt(crcTable[..], index);
    next := Xor(crcTable[index as nat], Rest(crc));
  }

  method UpdateCrc(crcTable: array<bv32>, crc0: bv32, buffer: seq<bv8>) returns (crc: bv32)
    requires IsTable(crcTable[..])
    ensures crc == FeedAll(crc0, buffer)
  {
    crc := crc0;
    for i := 0 to |buffer|
      invariant FeedAll(crc, buffer[i..]) == FeedAll(crc0, buffer)
    {
      FeedNext(crc, buffer, i);
      crc := NextCrc(crcTable, crc, buffer[i]);
    }
  }

  /** computeCrc agrees with the bit-serial checksum on every buffer. */
  method ComputeCrc(buffer: seq<bv8>) returns (crc: bv32)
    ensures crc == SerialCrc(buffer)
  {
    var crcTable := new bv32[256];
    MakeCrcTable(crcTable);
    crc := UpdateCrc(crcTable, 0xffffffff, buffer);
    crc := Xor(crc, 0xffffffff);
  }

  // What the checksum is good for.

  /** Going over a concatenation is going over its parts in turn. */
  lemma {:induction false} FeedConcat(c: bv32, s: seq<bv8>, t: seq<bv8>)
    ensures FeedAll(c, s + t) == FeedAll(FeedAll(c, s), t)
    decreases |s|
  {
    if s == [] {
      assert s + t == t;
    } else {
      assert (s + t)[1..] == s[1..] + t;
      FeedConcat(FeedN(CRC32, c, Wide(s[0]), 8), s[1..], t);
    }
  }

  lemma XorSame(c: bv32, x: bv32, y: bv32)
    requires Xor(c, x) == Xor(c, y)
    ensures x == y
  {
  }

  lemma XorSameLeft(x: bv32, y: bv32, b: bv32)
    requires Xor(x, b) == Xor(y, b)
    ensures x == y
  {
  }

  lemma WideSame(x: bv8, y: bv8)
    requires Wide(x) == Wide(y)
    ensures x == y
  {
  }

  /** Different bytes leave different registers. */
  lemma ByteTells(c: bv32, x: bv8, y: bv8)
    requires FeedN(CRC32, c, Wide(x), 8) == FeedN(CRC32, c, Wide(y), 8)
    ensures x == y
  {
    FeedByte(c, x);
    FeedByte(c, y);
    IsReversible();
    ShiftsAreReversible(CRC32, Xor(c, Wide(x)), Xor(c, Wide(y)), 8);
    XorSame(c, Wide(x), Wide(y));
    WideSame(x, y);
  }

  /** Different registers stay different. */
  lemma {:induction false} RegisterTells(c: bv32, d: bv32, s: seq<bv8>)
    requires FeedAll(c, s) == FeedAll(d, s)
    ensures c == d
    decreases |s|
  {
    if s != [] {
      var b := Wide(s[0]);
      RegisterTells(FeedN(CRC32, c, b, 8), FeedN(CRC32, d, b, 8), s[1..]);
      FeedByte(c, s[0]);
      FeedByte(d, s[0]);
      IsReversible();
      ShiftsAreReversible(CRC32, Xor(c, b), Xor(d, b), 8);
      XorSameLeft(c, d, b);
    }
  }

  lemma FeedAround(before: seq<bv8>, b: bv8, after: seq<bv8>, c: bv32)
    requires c == FeedAll(0xffffffff, before)
    ensures FeedAll(0xffffffff, before + ([b] + after)) == FeedAll(FeedN(CRC32, c, Wide(b), 8), after)
  {
    FeedConcat(0xffffffff, before, [b] + after);
    FeedFirst(c, b, after);
  }

  lemma SameCrcSameByte(before: seq<bv8>, x: bv8, y: bv8, after: seq<bv8>)
    requires SerialCrc(before + ([x] + after)) == SerialCrc(before + ([y] + after))
    ensures x == y
  {
    var c := FeedAll(0xffffffff, before);
    FeedAround(before, x, after, c);
    FeedAround(before, y, after, c);
    XorSameLeft(FeedAll(0xffffffff, before + ([x] + after)), FeedAll(0xffffffff, before + ([y] + after)), 0xffffffff);
    RegisterTells(FeedN(CRC32, c, Wide(x), 8), FeedN(CRC32, c, Wide(y), 8), after);
    ByteTells(c, x, y);
  }

  lemma Around(buffer: seq<bv8>, i: nat, b: bv8)
    requires i < |buffer|
    ensures buffer[i := b] == buffer[..i] + ([b] + buffer[i + 1..])
  {
  }

  /** A change of one byte, whichever and to whatever, changes the checksum. */
  lemma OneByteChangeShows(buffer: seq<bv8>, i: nat, b: bv8)
    requires i < |buffer| && SerialCrc(buffer[i := b]) == SerialCrc(buffer)
    ensures buffer[i] == b
  {
    var before, after := buffer[..i], buffer[i + 1..];
    Around(buffer, i, buffer[i]);
    Around(buffer, i, b);
    assert buffer[i := buffer[i]] == buffer;
    SameCrcSameByte(before, buffer[i], b, after);
  }

  lemma FeedFirst(c: bv32, b: bv8, rest: seq<bv8>)
    ensures FeedAll(c, [b] + rest) == FeedAll(FeedN(CRC32, c, Wide(b), 8), rest)
  {
    assert ([b] + rest)[1..] == rest;
  }
}
