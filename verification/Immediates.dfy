/** Immediate operands: one byte under an even rotation (ARM DDI 0100: section A5.1.3),
    the search for such an encoding, and the search for two of them that make a word. */
module Immediates {
  const OP2_IMM: bv32 := 0x02000000
  const INVALID_IMM: bv32 := 0xf0000000

  // Rotation by pairs of bits.

  function Ror(x: bv32, k: bv4): bv32 {
    var n := (k as bv32) << 1;
    (x >> n) | (x << (32 - n))
  }

  /** The value of a 12-bit immediate operand: low byte, rotated right by twice the top
      four bits. */
  function ImmValue(y: bv12): bv32 { Ror((y & 0xff) as bv32, (y >> 8) as bv4) }

  /** The operand field of an encoded operand. */
  function Op2Field(op2: bv32): bv12 { (op2 & 0xfff) as bv12 }

  predicate IsImmOp2(op2: bv32) { op2 & 0xfffff000 == OP2_IMM }

  /** A rotated byte makes this word. */
  ghost predicate OneByte(word: bv32) { exists y: bv12 :: ImmValue(y) == word }

  predicate PairOf(word: bv32, v: bv32, w: bv32) { word == v | w }

  /** The operands y and z together make the word. */
  predicate Makes(word: bv32, y: bv12, z: bv12) { PairOf(word, ImmValue(y), ImmValue(z)) }

  /** No two bytes, each under an even rotation, make this word. */
  ghost predicate NoPair(word: bv32) { forall y: bv12, z: bv12 :: !Makes(word, y, z) }

  // Step 1 of genInt looks for a byte window, at an even position, that is free.

  function Right1(x: bv32): bv32 { (x >> 2) | (x << 30) }
  /** The byte windows at even positions: k pairs of bits down from the top. */
  function Window(k: nat): bv32 { if k == 0 then 0xff000000 else Right1(Window(k - 1)) }

  predicate Busy(word: bv32, k: nat) { word & Window(k) != 0 }

  predicate BusyBelow(word: bv32, n: nat) { forall k :: 0 <= k < n ==> Busy(word, k) }

  // The windows as the loops spell them out.

  predicate TableBusy(word: bv32) {
    && word & 0xff000000 != 0
    && word & 0x3fc00000 != 0
    && word & 0x0ff00000 != 0
    && word & 0x03fc0000 != 0
    && word & 0x00ff0000 != 0
    && word & 0x003fc000 != 0
    && word & 0x000ff000 != 0
    && word & 0x0003fc00 != 0
    && word & 0x0000ff00 != 0
    && word & 0x00003fc0 != 0
    && word & 0x00000ff0 != 0
    && word & 0x000003fc != 0
    && word & 0x000000ff != 0
    && word & 0xc000003f != 0
    && word & 0xf000000f != 0
    && word & 0xfc000003 != 0
  }

  lemma WindowTable()
    ensures Window(0) == 0xff000000
    ensures Window(1) == 0x3fc00000
    ensures Window(2) == 0x0ff00000
    ensures Window(3) == 0x03fc0000
    ensures Window(4) == 0x00ff0000
    ensures Window(5) == 0x003fc000
    ensures Window(6) == 0x000ff000
    ensures Window(7) == 0x0003fc00
    ensures Window(8) == 0x0000ff00
    ensures Window(9) == 0x00003fc0
    ensures Window(10) == 0x00000ff0
    ensures Window(11) == 0x000003fc
    ensures Window(12) == 0x000000ff
    ensures Window(13) == 0xc000003f
    ensures Window(14) == 0xf000000f
    ensures Window(15) == 0xfc000003
  {
    assert Window(1) == 0x3fc00000;
    assert Window(2) == 0x0ff00000;
    assert Window(3) == 0x03fc0000;
    assert Window(4) == 0x00ff0000;
    assert Window(5) == 0x003fc000;
    assert Window(6) == 0x000ff000;
    assert Window(7) == 0x0003fc00;
    assert Window(8) == 0x0000ff00;
    assert Window(9) == 0x00003fc0;
    assert Window(10) == 0x00000ff0;
    assert Window(11) == 0x000003fc;
    assert Window(12) == 0x000000ff;
    assert Window(13) == 0xc000003f;
    assert Window(14) == 0xf000000f;
    assert Window(15) == 0xfc000003;
  }

  /** A word all of whose windows are busy is not made of two bytes. */
  lemma BusyIsNoPair(word: bv32)
    requires BusyBelow(word, 16)
    ensures NoPair(word)
  {
    WindowTable();
    assert TableBusy(word) by {
      assert Busy(word, 0) && Busy(word, 1) && Busy(word, 2) && Busy(word, 3) && Busy(word, 4) && Busy(word, 5) && Busy(word, 6) && Busy(word, 7);
      assert Busy(word, 8) && Busy(word, 9) && Busy(word, 10) && Busy(word, 11) && Busy(word, 12) && Busy(word, 13) && Busy(word, 14) && Busy(word, 15);
    }
    forall y: bv12, z: bv12 ensures !Makes(word, y, z) {
      if Makes(word, y, z) {
        PairLeavesGap(word, y, z, (y >> 8) as bv4);
      }
    }
  }

  lemma BusyTurned(word: bv32)
    requires TableBusy(word)
    ensures TableBusy(Right1(word))
  {
  }

  lemma RightIsRor(x: bv32)
    ensures Right1(x) == Ror(x, 1)
  {
  }

  function TurnN<V>(turn: V -> V, x: V, n: nat): V { if n == 0 then x else turn(TurnN(turn, x, n - 1)) }

  /** What one turn keeps, any number of turns keeps. */
  lemma {:induction false} KeptByTurns<V(!new)>(p: V -> bool, turn: V -> V, x: V, n: nat)
    requires p(x) && forall y :: p(y) ==> p(turn(y))
    ensures p(TurnN(turn, x, n))
  {
    if n > 0 {
      KeptByTurns(p, turn, x, n - 1);
    }
  }

  lemma {:induction false} RorIsTurns(word: bv32, k: bv4, n: nat)
    requires k as nat == n
    ensures Ror(word, k) == TurnN(Right1, word, n)
    decreases n
  {
    if n == 0 {
      RorZero(word);
    } else {
      RorIsTurns(word, k - 1, n - 1);
      RorOne(word, k - 1);
      RightIsRor(Ror(word, k - 1));
    }
  }

  /** Turning a word only exchanges its windows. */
  lemma BusyAllTheWay(word: bv32, k: bv4, turned: bv32)
    requires TableBusy(word) && turned == Ror(word, k)
    ensures TableBusy(turned)
  {
    forall x | TableBusy(x) ensures TableBusy(Right1(x)) {
      BusyTurned(x);
    }
    RorIsTurns(word, k, k as nat);
    KeptByTurns(TableBusy, Right1, word, k as nat);
  }

  lemma ByteLeavesGap(word: bv32, b: bv32, w: bv32, z: bv12)
    requires b <= 0xff && word == b | w && w == ImmValue(z)
    ensures !TableBusy(word)
  {
  }

  /** A pair can be turned so that its first byte is the lowest of the word. */
  lemma FirstByteDown(word: bv32, y: bv12, z: bv12, i: bv4, u: bv32) returns (b: bv32, w: bv32, z': bv12)
    requires Makes(word, y, z) && i == (y >> 8) as bv4 && u == Ror(word, -i)
    ensures b <= 0xff && u == b | w && w == ImmValue(z')
  {
    b := (y & 0xff) as bv32;
    w := Ror(ImmValue(z), -i);
    RorBack(b, i, ImmValue(y), Ror(ImmValue(y), -i));
    z' := TurnOperand(z, -i, ImmValue(z), w);
    RorOrOf(word, ImmValue(y), ImmValue(z), -i, u, b, w);
  }

  lemma PairLeavesGap(word: bv32, y: bv12, z: bv12, i: bv4)
    requires Makes(word, y, z) && i == (y >> 8) as bv4
    ensures !TableBusy(word)
  {
    var u := Ror(word, -i);
    var b, w, z' := FirstByteDown(word, y, z, i, u);
    ByteLeavesGap(u, b, w, z');
    NotBusyBefore(word, -i, u);
  }

  lemma NotBusyBefore(word: bv32, k: bv4, turned: bv32)
    requires turned == Ror(word, k) && !TableBusy(turned)
    ensures !TableBusy(word)
  {
    if TableBusy(word) {
      BusyAllTheWay(word, k, turned);
    }
  }

  // The loop counters: n windows have been tested.

  function FirstRol(n: nat): bv32 { if n == 0 then 8 else FirstRol(n - 1) + 2 }

  /** In the second loop n counts all windows, so it starts at 12. */
  function SecondRol(n: nat): bv32 { if n <= 12 then 24 else SecondRol(n - 1) + 2 }
  function SecondMask(n: nat): bv32 { if n <= 12 then 0xff00 else SecondMask(n - 1) >> 2 }

  lemma FirstRound(word: bv32, n: nat, mask: bv32)
    requires n < 12 && mask == Window(n)
    ensures word & mask == 0 <==> !Busy(word, n)
    ensures mask >> 2 == Window(n + 1)
    ensures (mask >> 2) & 0x3 != 0 <==> n == 11
  {
    WindowTable();
    if {
      case n == 0 => {} case n == 1 => {} case n == 2 => {} case n == 3 => {}
      case n == 4 => {} case n == 5 => {} case n == 6 => {} case n == 7 => {}
      case n == 8 => {} case n == 9 => {} case n == 10 => {} case n == 11 => {}
    }
  }

  lemma SecondTable()
    ensures SecondMask(12) == 0xff00 && SecondMask(13) == 0x3fc0 && SecondMask(14) == 0x0ff0 && SecondMask(15) == 0x03fc
  {
    assert SecondMask(13) == 0x3fc0;
    assert SecondMask(14) == 0x0ff0;
  }

  lemma SecondRound(word: bv32, imm: bv32, n: nat, mask: bv32)
    requires 12 <= n < 16 && imm == (word << 8) | (word >> 24) && mask == SecondMask(n)
    ensures imm & mask == 0 <==> !Busy(word, n)
    ensures (mask >> 2) & 0x3 != 0 <==> n == 15
  {
    WindowTable();
    SecondTable();
    if {
      case n == 12 => {} case n == 13 => {} case n == 14 => {} case n == 15 => {}
    }
  }

  /** What step 1 leaves behind: the word turned so that its free byte is at the bottom;
      a byte at the top of `imm` needs the rotation field `rol`. */
  predicate RotatedOut(word: bv32, imm: bv32, rol: bv32) {
    imm & 0xff == 0 && 4 <= rol < 20 && Ror(imm, ((rol - 4) & 0xf) as bv4) == word
  }

  /** The first loop has found n windows busy and is to test the next. */
  predicate FirstState(word: bv32, rol: bv32, mask: bv32, n: nat) {
    n < 12 && rol == FirstRol(n) && mask == Window(n) && BusyBelow(word, n)
  }

  lemma FirstFree(word: bv32, rol: bv32, mask: bv32, n: nat)
    requires FirstState(word, rol, mask, n) && word & mask == 0
    ensures rol == FirstRol(n) && !Busy(word, n)
  {
    FirstRound(word, n, mask);
  }

  lemma FirstBusy(word: bv32, rol: bv32, mask: bv32, n: nat, next: bv32)
    requires FirstState(word, rol, mask, n) && word & mask != 0 && next == mask >> 2
    ensures if next & 0x3 != 0 then BusyBelow(word, 12) else FirstState(word, rol + 2, next, n + 1)
  {
    FirstRound(word, n, mask);
    assert BusyBelow(word, n + 1);
  }

  /** The first loop: twelve windows, from the top down. */
  method SearchWindows(word: bv32) returns (found: bool, rol: bv32, ghost n: nat)
    ensures n < 12 && rol == FirstRol(n)
    ensures found ==> !Busy(word, n)
    ensures !found ==> BusyBelow(word, 12)
  {
    var mask: bv32 := 0xff000000;
    rol, n := 8, 0;
    while true
      invariant FirstState(word, rol, mask, n)
      decreases 12 - n
    {
      if word & mask == 0 {
        FirstFree(word, rol, mask, n);
        return true, rol, n;
      }
      FirstBusy(word, rol, mask, n, mask >> 2);
      mask := mask >> 2;
      if mask & 0x3 != 0 {
        return false, rol, n;
      }
      rol, n := rol + 2, n + 1;
    }
  }

  /** The inner loop: the four windows that reach around the end of the word. */
  method SearchLastWindows(word: bv32, imm: bv32) returns (found: bool, rol: bv32, ghost n: nat)
    requires imm == (word << 8) | (word >> 24) && BusyBelow(word, 12)
    ensures 12 <= n < 16 && rol == SecondRol(n)
    ensures found ==> !Busy(word, n)
    ensures !found ==> BusyBelow(word, 16)
  {
    var mask: bv32 := 0xff00;
    rol, n := 24, 12;
    while true
      invariant 12 <= n < 16 && rol == SecondRol(n) && mask == SecondMask(n) && BusyBelow(word, n)
      decreases 16 - n
    {
      SecondRound(word, imm, n, mask);
      if imm & mask == 0 {
        return true, rol, n;
      }
      mask := mask >> 2;
      if mask & 0x3 != 0 {
        return false, rol, n;
      }
      rol, n := rol + 2, n + 1;
    }
  }

  // Turning the free window to the bottom.

  /** The word turned left by rol bits. */
  function Left(word: bv32, rol: bv32): bv32 requires rol <= 32 { (word << rol) | (word >> (32 - rol)) }

  lemma RolTable()
    ensures FirstRol(0) == 8 && FirstRol(1) == 10 && FirstRol(2) == 12 && FirstRol(3) == 14 && FirstRol(4) == 16 && FirstRol(5) == 18
    ensures FirstRol(6) == 20 && FirstRol(7) == 22 && FirstRol(8) == 24 && FirstRol(9) == 26 && FirstRol(10) == 28 && FirstRol(11) == 30
    ensures SecondRol(12) == 24 && SecondRol(13) == 26 && SecondRol(14) == 28 && SecondRol(15) == 30
  {
    assert FirstRol(1) == 10;
    assert FirstRol(2) == 12;
    assert FirstRol(3) == 14;
    assert FirstRol(4) == 16;
    assert FirstRol(5) == 18;
    assert FirstRol(6) == 20;
    assert FirstRol(7) == 22;
    assert FirstRol(8) == 24;
    assert FirstRol(9) == 26;
    assert FirstRol(10) == 28;
    assert FirstRol(11) == 30;
    assert SecondRol(12) == 24;
    assert SecondRol(13) == 26;
    assert SecondRol(14) == 28;
    assert SecondRol(15) == 30;
  }

  lemma FirstFound(word: bv32, n: nat, rol: bv32)
    requires n < 12 && !Busy(word, n) && rol == FirstRol(n)
    ensures rol < 32 && RotatedOut(word, Left(word, rol), 4 + (rol >> 1))
  {
    WindowTable();
    RolTable();
    if {
      case n == 0 => {} case n == 1 => {} case n == 2 => {} case n == 3 => {}
      case n == 4 => {} case n == 5 => {} case n == 6 => {} case n == 7 => {}
      case n == 8 => {} case n == 9 => {} case n == 10 => {} case n == 11 => {}
    }
  }

  lemma SecondFound(word: bv32, imm: bv32, n: nat, rol: bv32)
    requires 12 <= n < 16 && !Busy(word, n) && rol == SecondRol(n) && imm == (word << 8) | (word >> 24)
    ensures rol < 32 && RotatedOut(word, Left(imm, rol), (rol >> 1) - 8)
  {
    WindowTable();
    RolTable();
    if {
      case n == 12 => {} case n == 13 => {} case n == 14 => {} case n == 15 => {}
    }
  }

  /** Step 1 of genInt: rotate a free byte window to the bottom, or find there is none. */
  method RotateOutWindow(word: bv32) returns (found: bool, imm: bv32, rol: bv32)
    ensures !found ==> BusyBelow(word, 16)
    ensures found ==> RotatedOut(word, imm, rol)
  {
    imm := word;
    ghost var n;
    found, rol, n := SearchWindows(imm);
    if found {
      FirstFound(word, n, rol);
      return true, Left(imm, rol), 4 + (rol >> 1);
    }
    imm := (imm << 8) | (imm >> 24);
    found, rol, n := SearchLastWindows(word, imm);
    if found {
      SecondFound(word, imm, n, rol);
      return true, Left(imm, rol), (rol >> 1) - 8;
    }
  }

  // The laws of rotation, stated on the values so that the solver need not unfold them.

  lemma RorOne(x: bv32, k: bv4)
    ensures Ror(Ror(x, k), 1) == Ror(x, k + 1)
  {
    if {
      case k == 0 => {} case k == 1 => {} case k == 2 => {} case k == 3 => {}
      case k == 4 => {} case k == 5 => {} case k == 6 => {} case k == 7 => {}
      case k == 8 => {} case k == 9 => {} case k == 10 => {} case k == 11 => {}
      case k == 12 => {} case k == 13 => {} case k == 14 => {} case k == 15 => {}
    }
  }

  lemma RorZero(x: bv32)
    ensures Ror(x, 0) == x
  {
  }

  lemma {:induction false} RorRor(x: bv32, i: bv4, j: bv4)
    ensures Ror(Ror(x, i), j) == Ror(x, i + j)
    decreases j
  {
    if j == 0 {
      RorZero(Ror(x, i));
    } else {
      RorRor(x, i, j - 1);
      RorOne(Ror(x, i), j - 1);
      RorOne(x, i + j - 1);
    }
  }

  lemma RorOr(x: bv32, y: bv32, k: bv4)
    ensures Ror(x | y, k) == Ror(x, k) | Ror(y, k)
  {
  }

  lemma RorOrOf(u: bv32, x: bv32, y: bv32, k: bv4, u': bv32, x': bv32, y': bv32)
    requires u == x | y && u' == Ror(u, k) && x' == Ror(x, k) && y' == Ror(y, k)
    ensures u' == x' | y'
  {
    RorOr(x, y, k);
  }

  lemma RorBack(x: bv32, k: bv4, y: bv32, z: bv32)
    requires y == Ror(x, k) && z == Ror(y, -k)
    ensures z == x
  {
    RorRor(x, k, -k);
    RorZero(x);
  }

  lemma ImmValueParts(y: bv12, b: bv32, k: bv4)
    requires b == (y & 0xff) as bv32 && k == (y >> 8) as bv4
    ensures ImmValue(y) == Ror(b, k)
  {
  }

  /** Turning an operand's value is the same as adding to its rotation field. */
  lemma TurnOperand(y: bv12, r: bv4, v: bv32, w: bv32) returns (y': bv12)
    requires v == ImmValue(y) && w == Ror(v, r)
    ensures w == ImmValue(y')
  {
    var b, k := (y & 0xff) as bv32, (y >> 8) as bv4;
    y' := y + ((r as bv12) << 8);
    TurnedFields(y, r, y');
    ImmValueParts(y, b, k);
    ImmValueParts(y', b, k + r);
    RorRor(b, k, r);
  }

  lemma TurnedFields(y: bv12, r: bv4, y': bv12)
    requires y' == y + ((r as bv12) << 8)
    ensures y' & 0xff == y & 0xff && (y' >> 8) as bv4 == (y >> 8) as bv4 + r
  {
  }

  // Step 2: splitting the rest into two bytes. Only the low four bits of the counter
  // `rol` are ever encoded, so step 2 counts modulo 16.

  /** Operand for byte b under rotation field rot. */
  function Operand(b: bv32, rot: bv4): bv32 { OP2_IMM | b | ((rot as bv32) << 8) }

  lemma OperandValue(b: bv32, rot: bv4, op2: bv32)
    requires b <= 0xff && op2 == Operand(b, rot)
    ensures IsImmOp2(op2) && ImmValue(Op2Field(op2)) == Ror(b, rot)
  {
    OperandFields(b, rot, op2);
    ImmValueParts(Op2Field(op2), b, rot);
  }

  lemma OperandFields(b: bv32, rot: bv4, op2: bv32)
    requires b <= 0xff && op2 == Operand(b, rot)
    ensures IsImmOp2(op2)
    ensures (Op2Field(op2) & 0xff) as bv32 == b && (Op2Field(op2) >> 8) as bv4 == rot
  {
  }

  // Bringing the first set pair of bits to the top, as getOp2 and genInt both do.

  lemma UpByFour(imm: bv32)
    requires imm & 0xff000000 == 0
    ensures Ror(imm << 8, 4) == imm
  {
  }

  lemma UpByTwo(imm: bv32)
    requires imm & 0xf0000000 == 0
    ensures Ror(imm << 4, 2) == imm
  {
  }

  lemma UpByOne(imm: bv32)
    requires imm & 0xc0000000 == 0
    ensures Ror(imm << 2, 1) == imm
  {
  }

  /** From x up by a byte to y, by two pairs to z and by one to w, wherever only zeros
      would be lost. */
  predicate GoesUp(wide: bool, x: bv32, y: bv32, z: bv32, w: bv32) {
    && y == (if wide && x & 0xff000000 == 0 then x << 8 else x)
    && z == (if y & 0xf0000000 == 0 then y << 4 else y)
    && w == (if z & 0xc0000000 == 0 then z << 2 else z)
  }

  lemma UpMore(x: bv32, imm: bv32, d: bv4, next: bv32, e: bv4)
    requires x == Ror(imm, d) && Ror(next, e) == imm
    ensures x == Ror(next, d + e)
  {
    RorRor(next, e, d);
  }

  method FirstPairUp(x: bv32, rot0: bv4, wide: bool) returns (imm: bv32, rot: bv4, ghost d: bv4, ghost y: bv32, ghost z: bv32)
    ensures x == Ror(imm, d) && rot == rot0 + d && d <= 7 && GoesUp(wide, x, y, z, imm)
  {
    imm, rot, d := x, rot0, 0;
    RorZero(x);
    if wide && imm & 0xff000000 == 0 {
      UpByFour(imm);
      UpMore(x, imm, d, imm << 8, 4);
      imm := imm << 8;
      rot, d := rot + 4, d + 4;
    }
    y := imm;
    if imm & 0xf0000000 == 0 {
      UpByTwo(imm);
      UpMore(x, imm, d, imm << 4, 2);
      imm := imm << 4;
      rot, d := rot + 2, d + 2;
    }
    z := imm;
    if imm & 0xc0000000 == 0 {
      UpByOne(imm);
      UpMore(x, imm, d, imm << 2, 1);
      imm := imm << 2;
      rot, d := rot + 1, d + 1;
    }
  }

  predicate NarrowedTo(imm0: bv32, imm: bv32, d: bv4) {
    imm0 == Ror(imm, d) && imm & 0xc0000000 != 0 && imm & 0x3ff == 0
  }

  lemma NarrowedByOne(imm0: bv32, imm: bv32)
    requires imm0 & 0xff == 0 && imm0 & 0xf0000000 != 0 && imm0 & 0xc0000000 == 0 && imm == imm0 << 2
    ensures NarrowedTo(imm0, imm, 1)
  {
  }

  lemma NarrowedByTwo(imm0: bv32, imm: bv32)
    requires imm0 & 0xff == 0 && imm0 & 0xf0000000 == 0 && imm == imm0 << 4 && imm & 0xc0000000 != 0
    ensures NarrowedTo(imm0, imm, 2)
  {
  }

  lemma NarrowedByThree(imm0: bv32, imm: bv32)
    requires imm0 & 0xff == 0 && imm0 & 0xff000000 != 0 && imm0 & 0xfc000000 == 0 && imm == imm0 << 6
    ensures NarrowedTo(imm0, imm, 3)
  {
  }

  lemma HalfNarrowed(imm0: bv32)
    requires imm0 & 0xf0000000 == 0 && (imm0 << 4) & 0xc0000000 == 0
    ensures imm0 & 0xfc000000 == 0 && (imm0 << 4) << 2 == imm0 << 6
  {
  }

  /** The third branch first brings the top byte's first set pair of bits to the top. */
  method NarrowTop(imm0: bv32, rot0: bv4) returns (imm: bv32, rot: bv4, ghost d: bv4)
    requires imm0 & 0xff == 0 && imm0 & 0xff000000 != 0 && imm0 & 0xc0000000 == 0
    ensures NarrowedTo(imm0, imm, d) && rot == rot0 + d
  {
    imm, rot := imm0, rot0;
    if imm & 0xf0000000 == 0 {
      imm := imm << 4;
      rot := rot + 2;
      if imm & 0xc0000000 == 0 {
        HalfNarrowed(imm0);
        imm := imm << 2;
        rot := rot + 1;
        d := 3;
        NarrowedByThree(imm0, imm);
      } else {
        d := 2;
        NarrowedByTwo(imm0, imm);
      }
    } else {
      imm := imm << 2;
      rot := rot + 1;
      d := 1;
      NarrowedByOne(imm0, imm);
    }
  }

  // One operand.

  /** Below 2^24: brought up, the word has zeros behind it. */
  lemma NoByteLow(word: bv32, y: bv32, z: bv32, imm: bv32)
    requires word & 0xff000000 == 0 && word > 0xff && GoesUp(true, word << 8, y, z, imm) && imm & 0x00ffffff != 0
    ensures imm & 0xc0000000 != 0 && imm & 0x00ffff00 != 0
  {
  }

  /** Otherwise its lowest byte has been turned to the top, its highest byte follows. */
  lemma NoByteHigh(x: bv32, y: bv32, z: bv32, imm: bv32)
    requires x & 0x00ff0000 != 0 && GoesUp(true, x, y, z, imm) && imm & 0x00ffffff != 0
    ensures imm & 0xc0000000 != 0
    ensures || imm & 0x00ffff00 != 0 || (imm & 0x3f == 0 && imm & 0xc0 != 0)
            || (imm & 0x0f000000 != 0 && imm & 0x30 != 0) || (imm & 0x03000000 != 0 && imm & 0x3c != 0)
  {
  }

  lemma TooWide(imm: bv32, y: bv12)
    requires imm & 0xc0000000 != 0
    requires || imm & 0x00ffff00 != 0 || (imm & 0x3f == 0 && imm & 0xc0 != 0)
             || (imm & 0x0f000000 != 0 && imm & 0x30 != 0) || (imm & 0x03000000 != 0 && imm & 0x3c != 0)
    ensures ImmValue(y) != imm
  {
  }

  lemma OneByteTurned(word: bv32, imm: bv32, r: bv4, y: bv12) returns (z: bv12)
    requires word == Ror(imm, r) && ImmValue(y) == word
    ensures ImmValue(z) == imm
  {
    RorBack(imm, r, word, Ror(word, -r));
    z := TurnOperand(y, -r, word, imm);
  }

  lemma NothingMakes(word: bv32, imm: bv32, r: bv4)
    requires word == Ror(imm, r) && imm & 0xc0000000 != 0
    requires || imm & 0x00ffff00 != 0 || (imm & 0x3f == 0 && imm & 0xc0 != 0)
             || (imm & 0x0f000000 != 0 && imm & 0x30 != 0) || (imm & 0x03000000 != 0 && imm & 0x3c != 0)
    ensures !OneByte(word)
  {
    if OneByte(word) {
      var y: bv12 :| ImmValue(y) == word;
      var z := OneByteTurned(word, imm, r, y);
      TooWide(imm, z);
    }
  }

  lemma ShiftedUp(word: bv32, x: bv32)
    requires word & 0xff000000 == 0 && x == word << 8
    ensures word == Ror(x, 4)
  {
  }

  lemma TurnedUp(word: bv32, x: bv32)
    requires word & 0xff000000 != 0 && x == (word << 24) | (word >> 8)
    ensures word == Ror(x, 12) && x & 0x00ff0000 != 0
  {
  }

  lemma ByteOnTop(word: bv32, x: bv32, s: bv4, imm: bv32, d: bv4, b: bv32, k: bv4, rol: bv4)
    requires word == Ror(x, s) && x == Ror(imm, d) && imm & 0x00ffffff == 0 && b == imm >> 24
    requires k == d + 4 && rol == s + k
    ensures b <= 0xff && word == Ror(b, rol)
  {
    ByteIsLeft(imm, b);
    TwoTurns(x, d, imm, 4, b, k);
    TwoTurns(word, s, x, k, b, rol);
  }

  lemma Counted(rol0: bv4, s: bv4, d: bv4, rol: bv4)
    requires s == rol0 - 4 && rol == rol0 + d
    ensures rol == s + (d + 4)
  {
  }

  lemma FoundOp2(word: bv32, b: bv32, rol: bv4, op2: bv32)
    requires b <= 0xff && word == Ror(b, rol) && op2 == Operand(b, rol)
    ensures IsImmOp2(op2) && op2 != INVALID_IMM && ImmValue(Op2Field(op2)) == word && OneByte(word)
  {
    OperandValue(b, rol, op2);
    NotInvalid(b, rol, op2);
  }

  lemma NotInvalid(b: bv32, rol: bv4, op2: bv32)
    requires b <= 0xff && op2 == Operand(b, rol)
    ensures op2 != INVALID_IMM
  {
  }

  /** The word as getOp2 starts on it: its top byte empty, or its lowest byte turned up. */
  predicate StartsOn(word: bv32, x: bv32) {
    (word & 0xff000000 == 0 && word > 0xff && x == word << 8) || x & 0x00ff0000 != 0
  }

  lemma NotFound(word: bv32, x: bv32, s: bv4, imm: bv32, d: bv4, y: bv32, z: bv32)
    requires word == Ror(x, s) && x == Ror(imm, d) && StartsOn(word, x)
    requires GoesUp(true, x, y, z, imm) && imm & 0x00ffffff != 0
    ensures !OneByte(word)
  {
    TwoTurns(word, s, x, d, imm, s + d);
    if x & 0x00ff0000 != 0 {
      NoByteHigh(x, y, z, imm);
    } else {
      NoByteLow(word, y, z, imm);
    }
    NothingMakes(word, imm, s + d);
  }

  method EncodeUp(word: bv32, x: bv32, rol0: bv4, ghost s: bv4) returns (op2: bv32)
    requires word == Ror(x, s) && s == rol0 - 4 && StartsOn(word, x)
    ensures op2 == INVALID_IMM || IsImmOp2(op2)
    ensures op2 != INVALID_IMM ==> ImmValue(Op2Field(op2)) == word
    ensures op2 == INVALID_IMM <==> !OneByte(word)
  {
    var imm, rol;
    ghost var d, y, z;
    imm, rol, d, y, z := FirstPairUp(x, rol0, true);
    if imm & 0x00ffffff == 0 {
      var b := imm >> 24;
      Counted(rol0, s, d, rol);
      ByteOnTop(word, x, s, imm, d, b, d + 4, rol);
      op2 := Operand(b, rol);
      FoundOp2(word, b, rol, op2);
      return;
    }
    NotFound(word, x, s, imm, d, y, z);
    return INVALID_IMM;
  }

  /** getOp2 is sound and complete: the operand it returns has the value of the word, and
      it gives up only on words no rotated byte can make. Only the low four bits of the
      counter `rol` are ever encoded, so it counts modulo 16. */
  method GetOp2(word: bv32) returns (op2: bv32)
    ensures op2 == INVALID_IMM || IsImmOp2(op2)
    ensures op2 != INVALID_IMM ==> ImmValue(Op2Field(op2)) == word
    ensures op2 == INVALID_IMM <==> !OneByte(word)
  {
    if word <= 0xff {
      RorZero(word);
      op2 := Operand(word, 0);
      FoundOp2(word, word, 0, op2);
      return;
    }
    if word & 0xff000000 == 0 {
      ShiftedUp(word, word << 8);
      op2 := EncodeUp(word, word << 8, 8, 4);
    } else {
      TurnedUp(word, (word << 24) | (word >> 8));
      op2 := EncodeUp(word, (word << 24) | (word >> 8), 0, 12);
    }
  }

  // Two operands: splitting the rest.

  /** What is left of a word below its top byte, brought up by g pairs of bits. */
  predicate Lowered(top: bv32, imm: bv32, g: bv4) { top & 0x00ffffff == Ror(imm, g) }

  lemma LoweredFirst(top: bv32, imm: bv32)
    requires imm == top << 8
    ensures Lowered(top, imm, 4)
  {
  }

  lemma LoweredMore(top: bv32, imm: bv32, g: bv4, next: bv32, d: bv4)
    requires Lowered(top, imm, g) && Ror(next, d) == imm
    ensures Lowered(top, next, g + d)
  {
    RorRor(next, d, g);
  }

  /** The top pair is set then, or a byte is all there is. */
  lemma PairOnTop(wide: bool, x: bv32, y: bv32, z: bv32, imm: bv32)
    requires x & 0xffff == 0 && (wide || x & 0x3ffff == 0) && GoesUp(wide, x, y, z, imm)
    ensures (imm & 0xc0000000 != 0 || imm & 0x00ffffff == 0) && imm & 0xffff == 0
  {
  }

  /** The shifts that bring what is below the top byte to the top. */
  method BringUp(top: bv32, rot0: bv4, wide: bool) returns (imm: bv32, rot: bv4, ghost g: bv4)
    requires top & 0xff == 0 && (wide || top & 0x3ff == 0)
    ensures Lowered(top, imm, g) && rot == rot0 + g && 4 <= g <= 11
    ensures (imm & 0xc0000000 != 0 || imm & 0x00ffffff == 0) && imm & 0xffff == 0
  {
    LoweredFirst(top, top << 8);
    ghost var d, y, z;
    imm, rot, d, y, z := FirstPairUp(top << 8, rot0 + 4, wide);
    g := 4 + d;
    LoweredMore(top, top << 8, 4, imm, d);
    PairOnTop(wide, top << 8, y, z, imm);
  }

  /** Top byte and one more byte. */
  lemma TwoBytes(top: bv32, imm: bv32, g: bv4, b: bv32)
    requires Lowered(top, imm, g) && top & 0xff == 0 && imm & 0x00ffffff == 0 && b == imm >> 24
    ensures b <= 0xff && top == Ror((top >> 24) & 0xff, 4) | Ror(b, 4 + g)
  {
    ByteIsLeft(imm, b);
    RorRor(b, 4, g);
    TopAndRest(top, Ror(imm, g));
  }

  lemma ByteIsLeft(imm: bv32, b: bv32)
    requires imm & 0x00ffffff == 0 && b == imm >> 24
    ensures b <= 0xff && imm == Ror(b, 4)
  {
  }

  lemma TopAndRest(top: bv32, rest: bv32)
    requires top & 0x00ffffff == rest
    ensures top == Ror((top >> 24) & 0xff, 4) | rest
  {
  }

  /** Three pairs of bits, each at least a byte away from the others, set in a word: the top
      one, one g pairs below it, and one among those a byte below that. */
  predicate ThreePairs(word: bv32, g: bv4) {
    && word & 0xc0000000 != 0
    && (g == 4 ==> word & 0x00c00000 != 0 && word & 0x0000ff00 != 0)
    && (g == 5 ==> word & 0x00300000 != 0 && word & 0x00003f00 != 0)
    && (g == 6 ==> word & 0x000c0000 != 0 && word & 0x00000f00 != 0)
    && (g == 7 ==> word & 0x00030000 != 0 && word & 0x00000300 != 0)
  }

  lemma MoreThanAByte(top: bv32, imm: bv32, g: bv4)
    requires Lowered(top, imm, g) && top & 0xff == 0 && top & 0xc0000000 != 0 && 4 <= g <= 11
    requires imm & 0xc0000000 != 0 && imm & 0x00ffffff != 0 && imm & 0xffff == 0
    ensures g <= 7 && ThreePairs(top, g)
  {
    if {
      case g == 4 => {} case g == 5 => {} case g == 6 => {} case g == 7 => {}
      case g == 8 => {} case g == 9 => {} case g == 10 => {} case g == 11 => {}
    }
  }

  /** No two bytes cover three pairs so far apart. */
  lemma ThreePairsAreNoPair(word: bv32, g: bv4)
    requires ThreePairs(word, g) && 4 <= g <= 7
    ensures NoPair(word)
  {
    forall y: bv12, z: bv12 ensures !Makes(word, y, z) {
      if Makes(word, y, z) {
        PairIsNotThree(word, y, z, (y >> 8) as bv4, g);
      }
    }
  }

  lemma PairIsNotThree(word: bv32, y: bv12, z: bv12, i: bv4, g: bv4)
    requires Makes(word, y, z) && i == (y >> 8) as bv4 && 4 <= g <= 7
    ensures !ThreePairs(word, g)
  {
    if {
      case g == 4 => NotThree4(word, y, z, i);
      case g == 5 => NotThree5(word, y, z, i);
      case g == 6 => NotThree6(word, y, z, i);
      case g == 7 => NotThree7(word, y, z, i);
    }
  }

  lemma NotThree4(word: bv32, y: bv12, z: bv12, i: bv4)
    requires Makes(word, y, z) && i == (y >> 8) as bv4
    ensures !ThreePairs(word, 4)
  {
  }

  lemma NotThree5(word: bv32, y: bv12, z: bv12, i: bv4)
    requires Makes(word, y, z) && i == (y >> 8) as bv4
    ensures !ThreePairs(word, 5)
  {
  }

  lemma NotThree6(word: bv32, y: bv12, z: bv12, i: bv4)
    requires Makes(word, y, z) && i == (y >> 8) as bv4
    ensures !ThreePairs(word, 6)
  {
  }

  lemma NotThree7(word: bv32, y: bv12, z: bv12, i: bv4)
    requires Makes(word, y, z) && i == (y >> 8) as bv4
    ensures !ThreePairs(word, 7)
  {
  }

  /** One byte from the top, one from what is left; `wide` is the second branch, whose
      top pair of bits was set from the start. */
  method SplitTop(top: bv32, rot0: bv4, wide: bool) returns (ok: bool, imm1: bv32, imm2: bv32, ghost b: bv32, ghost g: bv4)
    requires top & 0xff == 0 && top & 0xc0000000 != 0 && (wide || top & 0x3ff == 0)
    ensures ok ==> b <= 0xff && imm1 == Operand((top >> 24) & 0xff, rot0) && imm2 == Operand(b, rot0 + g)
    ensures ok ==> top == Ror((top >> 24) & 0xff, 4) | Ror(b, 4 + g)
    ensures !ok ==> NoPair(top)
  {
    imm1 := Operand((top >> 24) & 0xff, rot0);
    imm2 := 0;
    var imm, rot;
    imm, rot, g := BringUp(top, rot0, wide);
    b := imm >> 24;
    ok := imm & 0x00ffffff == 0;
    if ok {
      TwoBytes(top, imm, g, b);
      imm2 := Operand(imm >> 24, rot);
    } else {
      MoreThanAByte(top, imm, g);
      ThreePairsAreNoPair(top, g);
    }
  }

  /** The first branch: everything lies in the two middle bytes. */
  method SplitMiddle(imm: bv32, rot: bv4) returns (imm1: bv32, imm2: bv32, ghost b1: bv32, ghost b2: bv32)
    requires imm & 0xff == 0 && imm & 0xff000000 == 0
    ensures b1 <= 0xff && b2 <= 0xff && imm1 == Operand(b1, rot + 4) && imm2 == Operand(b2, rot + 8)
    ensures imm == Ror(b1, 8) | Ror(b2, 12)
  {
    imm1 := Operand((imm >> 16) & 0xff, rot + 4);
    imm2 := Operand((imm >> 8) & 0xff, rot + 8);
    b1, b2 := (imm >> 16) & 0xff, (imm >> 8) & 0xff;
  }

  // Back from the turned word to the word.

  lemma TwoTurns(v: bv32, i: bv4, a: bv32, j: bv4, b: bv32, k: bv4)
    requires v == Ror(a, i) && a == Ror(b, j) && k == i + j
    ensures v == Ror(b, k)
  {
    RorRor(b, j, i);
  }

  /** A word turned back by r that is two bytes turned back by i and j. */
  lemma BothTurned(word: bv32, imm: bv32, r: bv4, b1: bv32, i: bv4, b2: bv32, j: bv4, p: bv32, q: bv32, k: bv4, l: bv4)
      returns (v1: bv32, v2: bv32)
    requires word == Ror(imm, r) && p == Ror(b1, i) && q == Ror(b2, j) && imm == p | q
    requires k == r + i && l == r + j
    ensures v1 == Ror(b1, k) && v2 == Ror(b2, l) && word == v1 | v2
  {
    v1, v2 := Ror(p, r), Ror(q, r);
    TwoTurns(v1, r, p, i, b1, k);
    TwoTurns(v2, r, q, j, b2, l);
    RorOrOf(imm, p, q, r, word, v1, v2);
  }

  /** A pair of bytes making a turned word is a pair of bytes making the word. */
  lemma PairTurned(word: bv32, imm: bv32, r: bv4, y: bv12, z: bv12, v: bv32, w: bv32) returns (y': bv12, z': bv12)
    requires word == Ror(imm, r)
    requires v == ImmValue(y) && w == ImmValue(z) && PairOf(word, v, w)
    ensures Makes(imm, y', z')
  {
    var v', w' := Ror(v, -r), Ror(w, -r);
    var u' := Ror(word, -r);
    RorBack(imm, r, word, u');
    RorOrOf(word, v, w, -r, u', v', w');
    y' := TurnOperand(y, -r, v, v');
    z' := TurnOperand(z, -r, w, w');
    MakesUp(imm, v', w', y', z');
  }

  lemma MakesUp(imm: bv32, v: bv32, w: bv32, y: bv12, z: bv12)
    requires PairOf(imm, v, w) && v == ImmValue(y) && w == ImmValue(z)
    ensures Makes(imm, y, z)
  {
  }

  lemma NoPairTurned(word: bv32, imm: bv32, r: bv4)
    requires word == Ror(imm, r) && NoPair(imm)
    ensures NoPair(word)
  {
    forall y: bv12, z: bv12 ensures !Makes(word, y, z) {
      if Makes(word, y, z) {
        var y', z' := PairTurned(word, imm, r, y, z, ImmValue(y), ImmValue(z));
      }
    }
  }

  /** An operand field and the value it has. */
  predicate Means(op2: bv32, v: bv32) { IsImmOp2(op2) && v == ImmValue(Op2Field(op2)) }

  lemma OperandsMean(op1: bv32, b1: bv32, k: bv4, v1: bv32, op2: bv32, b2: bv32, l: bv4, v2: bv32)
    requires b1 <= 0xff && op1 == Operand(b1, k) && v1 == Ror(b1, k)
    requires b2 <= 0xff && op2 == Operand(b2, l) && v2 == Ror(b2, l)
    ensures Means(op1, v1) && Means(op2, v2)
  {
    OperandValue(b1, k, op1);
    OperandValue(b2, l, op2);
  }

  /** Two operands and values that make the word. */
  predicate Solves(word: bv32, op1: bv32, v1: bv32, op2: bv32, v2: bv32) {
    Means(op1, v1) && Means(op2, v2) && PairOf(word, v1, v2)
  }

  /** The word is `imm` with its top byte under rotation field rot. */
  predicate TurnedBy(word: bv32, imm: bv32, rot: bv4) { word == Ror(imm, rot - 4) }

  lemma SolvedBy(word: bv32, imm: bv32, rot: bv4, op1: bv32, b1: bv32, i: bv4, op2: bv32, b2: bv32, j: bv4, p: bv32, q: bv32)
      returns (v1: bv32, v2: bv32)
    requires TurnedBy(word, imm, rot)
    requires b1 <= 0xff && op1 == Operand(b1, rot + i) && p == Ror(b1, 4 + i)
    requires b2 <= 0xff && op2 == Operand(b2, rot + j) && q == Ror(b2, 4 + j)
    requires imm == p | q
    ensures Solves(word, op1, v1, op2, v2)
  {
    var k, l := rot + i, rot + j;
    v1, v2 := BothTurned(word, imm, rot - 4, b1, 4 + i, b2, 4 + j, p, q, k, l);
    OperandsMean(op1, b1, k, v1, op2, b2, l, v2);
  }

  method MiddleOperands(word: bv32, imm: bv32, rot: bv4) returns (imm1: bv32, imm2: bv32, ghost v1: bv32, ghost v2: bv32)
    requires TurnedBy(word, imm, rot) && imm & 0xff == 0 && imm & 0xff000000 == 0
    ensures Solves(word, imm1, v1, imm2, v2)
  {
    ghost var b1, b2;
    imm1, imm2, b1, b2 := SplitMiddle(imm, rot);
    v1, v2 := SolvedBy(word, imm, rot, imm1, b1, 4, imm2, b2, 8, Ror(b1, 8), Ror(b2, 12));
  }

  method TopOperands(word: bv32, top: bv32, rot: bv4, wide: bool)
      returns (ok: bool, imm1: bv32, imm2: bv32, ghost v1: bv32, ghost v2: bv32)
    requires TurnedBy(word, top, rot)
    requires top & 0xff == 0 && top & 0xc0000000 != 0 && (wide || top & 0x3ff == 0)
    ensures ok ==> Solves(word, imm1, v1, imm2, v2)
    ensures !ok ==> NoPair(word)
  {
    ghost var b, g;
    ok, imm1, imm2, b, g := SplitTop(top, rot, wide);
    v1, v2 := 0, 0;
    if ok {
      ghost var t := (top >> 24) & 0xff;
      v1, v2 := SolvedBy(word, top, rot, imm1, t, 0, imm2, b, g, Ror(t, 4), Ror(b, 4 + g));
    } else {
      NoPairTurned(word, top, rot - 4);
    }
  }

  lemma RotOfRol(word: bv32, imm: bv32, rol: bv32, rot: bv4)
    requires RotatedOut(word, imm, rol) && rot == (rol & 0xf) as bv4
    ensures TurnedBy(word, imm, rot)
  {
    assert ((rol - 4) & 0xf) as bv4 == rot - 4;
  }

  lemma TurnedFurther(word: bv32, imm: bv32, rot: bv4, top: bv32, d: bv4, rot': bv4)
    requires TurnedBy(word, imm, rot) && imm == Ror(top, d) && rot' == rot + d
    ensures TurnedBy(word, top, rot')
  {
    TwoTurns(word, rot - 4, imm, d, top, rot' - 4);
  }

  method SplitOperands(word: bv32, imm: bv32, rot: bv4) returns (ok: bool, imm1: bv32, imm2: bv32, ghost v1: bv32, ghost v2: bv32)
    requires TurnedBy(word, imm, rot) && imm & 0xff == 0
    ensures ok ==> Solves(word, imm1, v1, imm2, v2)
    ensures !ok ==> NoPair(word)
  {
    if imm & 0xff000000 == 0 {
      imm1, imm2, v1, v2 := MiddleOperands(word, imm, rot);
      ok := true;
    } else if imm & 0xc0000000 != 0 {
      ok, imm1, imm2, v1, v2 := TopOperands(word, imm, rot, true);
    } else {
      var top, rot', d := NarrowTop(imm, rot);
      TurnedFurther(word, imm, rot, top, d, rot');
      ok, imm1, imm2, v1, v2 := TopOperands(word, top, rot', false);
    }
  }

  lemma SolvedIsMade(word: bv32, op1: bv32, v1: bv32, op2: bv32, v2: bv32)
    requires Solves(word, op1, v1, op2, v2)
    ensures !NoPair(word)
  {
    MakesUp(word, v1, v2, Op2Field(op1), Op2Field(op2));
  }

  /** genInt is sound and complete: it succeeds exactly on the words that are two evenly
      rotated bytes, and then its two operands together have the value of the word. */
  method GenInt(word: bv32) returns (ok: bool, imm1: bv32, imm2: bv32, ghost v1: bv32, ghost v2: bv32)
    ensures ok ==> Solves(word, imm1, v1, imm2, v2)
    ensures ok <==> !NoPair(word)
  {
    imm1, imm2, v1, v2 := 0, 0, 0, 0;
    var found, imm, rol := RotateOutWindow(word);
    if !found {
      BusyIsNoPair(word);
      return false, imm1, imm2, v1, v2;
    }
    var rot := (rol & 0xf) as bv4;
    RotOfRol(word, imm, rol, rot);
    ok, imm1, imm2, v1, v2 := SplitOperands(word, imm, rot);
    if ok {
      SolvedIsMade(word, imm1, v1, imm2, v2);
    }
  }
}
