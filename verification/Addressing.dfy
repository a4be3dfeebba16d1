/** Address synthesis: word, byte and double transfers at base plus offset and at base
    plus scaled index plus offset, for every signed 32-bit offset, whichever of the range
    splits the offset falls in. Addresses wrap at 2^32. */
module Addressing {
  import opened ArmEncoding
  import opened Session
  import opened Execution
  import opened Masks
  import opened WordBits
  import opened ArmMachine
  import opened MacroOps

  const MIN_OFFSET: int := -0x8000_0000

  type Offset = d: int | MIN_OFFSET <= d < 0x8000_0000

  function Wrap(a: int): Word { a % WORD_LIMIT }

  function Signed(up: bool, amount: nat): int { if up then amount as int else -(amount as int) }

  /** One memory access is made, and only the scratch register S0 may change besides. */
  ghost predicate OneAccess(m: Machine, m': Machine, isLoad: bool, size: Size, rd: Reg, address: Word) {
    && m'.accesses == m.accesses + [Access(isLoad, size, rd, address, if isLoad || size == DoubleSize then 0 else m.regs[rd])]
    && forall r: Reg :: r != S0 ==> m'.regs[r] == m.regs[r]
  }

  /** Whatever the machine holds, these calls make one access at base + offset. */
  ghost predicate AccessesAt(cpu: Cpu<Machine>, calls: seq<Call>, isLoad: bool, size: Size, rd: Reg, base: Reg, offset: int) {
    && AllStraight(calls)
    && forall m {:trigger Meaning(cpu, calls, m)} :: OneAccess(m, Meaning(cpu, calls, m), isLoad, size, rd, Wrap(m.regs[base] as int + offset))
  }

  /** The same with an index register, multiplied by a factor. */
  ghost predicate AccessesIndexed(cpu: Cpu<Machine>, calls: seq<Call>, isLoad: bool, size: Size, rd: Reg,
                                  base: Reg, index: Reg, factor: nat, offset: int)
  {
    && AllStraight(calls)
    && forall m {:trigger Meaning(cpu, calls, m)} :: OneAccess(m, Meaning(cpu, calls, m), isLoad, size, rd,
                             Wrap(m.regs[base] as int + m.regs[index] * factor + offset))
  }

  /** No register changes, not even S0; what a load puts into its register is not modelled. */
  ghost predicate KeepsRegisters(cpu: Cpu<Machine>, calls: seq<Call>) {
    forall m {:trigger Meaning(cpu, calls, m)} :: Meaning(cpu, calls, m).regs == m.regs
  }

  function SizeOf(byte: bool): Size { if byte then ByteSize else WordSize }

  // What single calls do.

  ghost predicate Transfers(cpu: Cpu<Machine>, c: Call, isLoad: bool, size: Size, rd: Reg, rn: Reg, offset: int) {
    && IsStraight(c)
    && forall m {:trigger MeaningOf(cpu, c, m)} :: OneAccess(m, MeaningOf(cpu, c, m), isLoad, size, rd, Wrap(m.regs[rn] as int + offset))
  }

  ghost predicate TransfersBy(cpu: Cpu<Machine>, c: Call, isLoad: bool, size: Size, rd: Reg, rn: Reg, rm: Reg) {
    && IsStraight(c)
    && forall m {:trigger MeaningOf(cpu, c, m)} :: OneAccess(m, MeaningOf(cpu, c, m), isLoad, size, rd, Wrap(m.regs[rn] as int + m.regs[rm]))
  }

  ghost predicate Adds(cpu: Cpu<Machine>, c: Call, rd: Reg, rn: Reg, offset: int) {
    IsStraight(c) && forall m {:trigger MeaningOf(cpu, c, m)} :: MeaningOf(cpu, c, m) == SetReg(m, rd, Wrap(m.regs[rn] as int + offset))
  }

  ghost predicate AddsScaled(cpu: Cpu<Machine>, c: Call, rd: Reg, rn: Reg, rm: Reg, factor: nat) {
    IsStraight(c) && forall m {:trigger MeaningOf(cpu, c, m)} :: MeaningOf(cpu, c, m) == SetReg(m, rd, Wrap(m.regs[rn] + m.regs[rm] * factor))
  }

  // Emitters.

  function TransferImm(isLoad: bool, byte: bool, up: bool, rd: Reg, rn: Reg, offset: nat): Call
    requires offset < 0x1000
  {
    EmitPlain(TransferWord(isLoad, byte, up, false, rd, rn, offset))
  }

  function TransferReg(isLoad: bool, byte: bool, rd: Reg, rn: Reg, rm: Reg): Call {
    EmitPlain(TransferWord(isLoad, byte, true, true, rd, rn, rm))
  }

  function DoubleImm(isLoad: bool, up: bool, rd: Reg, rn: Reg, words: nat): Call
    requires words <= 0xff
  {
    EmitPlain(DoubleWord(isLoad, up, rd, rn, words))
  }

  /** add or sub with an immediate operand, given by its rotation and its byte. */
  function AddImm(up: bool, rd: Reg, rn: Reg, rot: nat, byte: nat): Call
    requires rot < 16 && byte <= 0xff
  {
    EmitPlain(DataWord(if up then ADD else SUB, true, rd, rn, rot * 0x100 + byte))
  }

  function Factor(scale: nat): (f: nat)
    requires scale <= 3
    ensures 1 <= f <= 8
  {
    if scale == 0 then 1 else if scale == 1 then 2 else if scale == 2 then 4 else 8
  }

  /** A shift by so many places multiplies by that power of two. */
  lemma FactorIsPower(scale: nat)
    requires scale <= 3
    ensures Factor(scale) == Pow2(scale)
  {
    assert Pow2(1) == 2 && Pow2(2) == 4 && Pow2(3) == 8;
  }

  /** add with a register shifted left. */
  function AddShifted(rd: Reg, rn: Reg, rm: Reg, scale: nat): Call
    requires scale <= 3
  {
    EmitPlain(DataWord(ADD, false, rd, rn, rm + scale * 0x80))
  }

  lemma TransferImmAt(isLoad: bool, byte: bool, up: bool, rd: Reg, rn: Reg, offset: nat, w: Word, m: Machine)
    requires rn != PC && offset < 0x1000 && w == TransferWord(isLoad, byte, up, false, rd, rn, offset)
    ensures IsPlain(w) && !IsReturn(w)
    ensures OneAccess(m, ArmPlain(w, m).state, isLoad, SizeOf(byte), rd, Wrap(m.regs[rn] as int + Signed(up, offset)))
    ensures ArmPlain(w, m).state.regs == m.regs
  {
    TransferDoes(isLoad, byte, up, false, rd, rn, offset, m, w);
    TransferFields(isLoad, byte, up, false, rd, rn, offset, w);
  }

  lemma TransferImmDoes(isLoad: bool, byte: bool, up: bool, rd: Reg, rn: Reg, offset: nat)
    requires rn != PC && offset < 0x1000
    ensures Transfers(ArmCpu(), TransferImm(isLoad, byte, up, rd, rn, offset), isLoad, SizeOf(byte), rd, rn, Signed(up, offset))
  {
    var w := TransferWord(isLoad, byte, up, false, rd, rn, offset);
    forall m: Machine
      ensures IsPlain(w) && !IsReturn(w)
      ensures OneAccess(m, ArmPlain(w, m).state, isLoad, SizeOf(byte), rd, Wrap(m.regs[rn] as int + Signed(up, offset)))
    {
      TransferImmAt(isLoad, byte, up, rd, rn, offset, w, m);
    }
  }

  lemma TransferImmKeeps(isLoad: bool, byte: bool, up: bool, rd: Reg, rn: Reg, offset: nat)
    requires rn != PC && offset < 0x1000
    ensures KeepsRegisters(ArmCpu(), [TransferImm(isLoad, byte, up, rd, rn, offset)])
  {
    var w := TransferWord(isLoad, byte, up, false, rd, rn, offset);
    forall m: Machine ensures Meaning(ArmCpu(), [EmitPlain(w)], m).regs == m.regs {
      TransferImmAt(isLoad, byte, up, rd, rn, offset, w, m);
      MeaningOfOne(ArmCpu(), EmitPlain(w), m);
    }
  }

  lemma DoubleImmKeeps(isLoad: bool, up: bool, rd: Reg, rn: Reg, words: nat)
    requires words <= 0xff
    ensures KeepsRegisters(ArmCpu(), [DoubleImm(isLoad, up, rd, rn, words)])
  {
    var w := DoubleWord(isLoad, up, rd, rn, words);
    forall m: Machine ensures Meaning(ArmCpu(), [EmitPlain(w)], m).regs == m.regs {
      DoubleDoes(isLoad, up, rd, rn, words, m);
      MeaningOfOne(ArmCpu(), EmitPlain(w), m);
    }
  }

  lemma UnshiftedOffset(regs: Regs, rm: Reg)
    ensures TransferOffset(regs, true, rm) == regs[rm]
  {
  }

  lemma TransferRegAt(isLoad: bool, byte: bool, rd: Reg, rn: Reg, rm: Reg, w: Word, m: Machine)
    requires rn != PC && w == TransferWord(isLoad, byte, true, true, rd, rn, rm)
    ensures IsPlain(w) && !IsReturn(w)
    ensures OneAccess(m, ArmPlain(w, m).state, isLoad, SizeOf(byte), rd, Wrap(m.regs[rn] as int + m.regs[rm]))
  {
    TransferDoes(isLoad, byte, true, true, rd, rn, rm, m, w);
    TransferFields(isLoad, byte, true, true, rd, rn, rm, w);
    UnshiftedOffset(m.regs, rm);
  }

  lemma TransferRegDoes(isLoad: bool, byte: bool, rd: Reg, rn: Reg, rm: Reg)
    requires rn != PC
    ensures TransfersBy(ArmCpu(), TransferReg(isLoad, byte, rd, rn, rm), isLoad, SizeOf(byte), rd, rn, rm)
  {
    var w := TransferWord(isLoad, byte, true, true, rd, rn, rm);
    forall m: Machine
      ensures IsPlain(w) && !IsReturn(w)
      ensures OneAccess(m, ArmPlain(w, m).state, isLoad, SizeOf(byte), rd, Wrap(m.regs[rn] as int + m.regs[rm]))
    {
      TransferRegAt(isLoad, byte, rd, rn, rm, w, m);
    }
  }

  lemma DoubleImmDoes(isLoad: bool, up: bool, rd: Reg, rn: Reg, words: nat)
    requires words <= 0xff
    ensures Transfers(ArmCpu(), DoubleImm(isLoad, up, rd, rn, words), isLoad, DoubleSize, rd, rn, Signed(up, 4 * words))
  {
    var w := DoubleWord(isLoad, up, rd, rn, words);
    forall m: Machine
      ensures OneAccess(m, MeaningOf(ArmCpu(), EmitPlain(w), m), isLoad, DoubleSize, rd,
                        Wrap(m.regs[rn] as int + Signed(up, 4 * words)))
    {
      DoubleDoes(isLoad, up, rd, rn, words, m);
    }
    DoubleFields(isLoad, up, rd, rn, words, w);
  }

  lemma AddImmDoes(up: bool, rd: Reg, rn: Reg, rot: nat, byte: nat, amount: nat)
    requires rot < 16 && byte <= 0xff && amount == Immediate(rot * 0x100 + byte)
    ensures Adds(ArmCpu(), AddImm(up, rd, rn, rot, byte), rd, rn, Signed(up, amount))
  {
    var opcode, low := if up then ADD else SUB, rot * 0x100 + byte;
    var w := DataWord(opcode, true, rd, rn, low);
    forall m: Machine
      ensures MeaningOf(ArmCpu(), EmitPlain(w), m) == SetReg(m, rd, Wrap(m.regs[rn] as int + Signed(up, amount)))
    {
      DataDoes(opcode, true, rd, rn, low, m);
      AluAdds(up, m.regs[rn], amount);
    }
    DataFields(opcode, true, rd, rn, low, w);
  }

  lemma AluAdds(up: bool, a: Word, b: Word)
    ensures Alu(if up then ADD else SUB, a, b) == Wrap(a as int + Signed(up, b))
  {
  }

  lemma AddShiftedDoes(rd: Reg, rn: Reg, rm: Reg, scale: nat)
    requires scale <= 3
    ensures AddsScaled(ArmCpu(), AddShifted(rd, rn, rm, scale), rd, rn, rm, Factor(scale))
  {
    var low := rm + scale * 0x80;
    var w := DataWord(ADD, false, rd, rn, low);
    forall m: Machine
      ensures MeaningOf(ArmCpu(), EmitPlain(w), m) == SetReg(m, rd, Wrap(m.regs[rn] + m.regs[rm] * Factor(scale)))
    {
      DataDoes(ADD, false, rd, rn, low, m);
      ShiftedIs(m.regs, rm, scale);
      WrapSum(m.regs[rm] * Factor(scale), m.regs[rn]);
    }
    DataFields(ADD, false, rd, rn, low, w);
  }

  lemma ShiftedIs(regs: Regs, rm: Reg, scale: nat)
    requires scale <= 3
    ensures ShiftedReg(regs, rm + scale * 0x80) == Wrap(regs[rm] * Factor(scale))
  {
    var low := rm + scale * 0x80;
    assert low / 0x80 == scale && low % 16 == rm && (low / 16) % 8 == 0;
  }

  // Immediate operands that stand for pages.

  lemma TurnDigit(x: nat, k: nat, q: nat, r: nat, y: nat)
    requires RorWord(x, k) == 4 * q + r && r < 4 && y == q + r * 0x40000000
    ensures RorWord(x, k + 1) == y
  {
  }

  lemma FourDigits(n: nat, a: nat, b: nat, c: nat, d: nat)
    requires a < 4 && b < 4 && c < 4 && d < 4 && n == 64 * a + 16 * b + 4 * c + d
    ensures RorWord(n, 4) == 0x1000000 * n
  {
    var q1 := 16 * a + 4 * b + c;
    var q2 := 4 * a + b + 0x10000000 * d;
    var q3 := a + 0x4000000 * d + 0x10000000 * c;
    var q4 := 0x1000000 * d + 0x4000000 * c + 0x10000000 * b;
    TurnDigit(n, 0, q1, d, 4 * q2 + c);
    TurnDigit(n, 1, q2, c, 4 * q3 + b);
    TurnDigit(n, 2, q3, b, 4 * q4 + a);
    TurnDigit(n, 3, q4, a, 0x1000000 * n);
  }

  lemma DigitsOf(n: nat)
    requires n <= 0xff
    ensures n / 64 < 4 && n == 64 * (n / 64) + 16 * (n / 16 % 4) + 4 * (n / 4 % 4) + n % 4
  {
    assert n / 4 == 4 * (n / 16) + n / 4 % 4;
    assert n / 16 == 4 * (n / 64) + n / 16 % 4;
  }

  lemma FourTurns(n: nat)
    requires n <= 0xff
    ensures RorWord(n, 4) == 0x1000000 * n
  {
    DigitsOf(n);
    FourDigits(n, n / 64, n / 16 % 4, n / 4 % 4, n % 4);
  }

  lemma {:induction false} MoreTurns(n: nat, m: nat, k: nat)
    requires n <= 0xff && m < 0x40000000 && RorWord(n, k) == 4 * m
    ensures RorWord(n, k + 1) == m
  {
  }

  /** A byte under rotation 10 counts pages of 2^12 bytes, under rotation 11 of 2^10. */
  lemma PageValue(n: nat)
    requires n <= 0xff
    ensures Immediate(0xa00 + n) == 0x1000 * n && Immediate(0xb00 + n) == 0x400 * n
  {
    FourTurns(n);
    MoreTurns(n, 0x400000 * n, 4);
    MoreTurns(n, 0x100000 * n, 5);
    MoreTurns(n, 0x40000 * n, 6);
    MoreTurns(n, 0x10000 * n, 7);
    MoreTurns(n, 0x4000 * n, 8);
    MoreTurns(n, 0x1000 * n, 9);
    MoreTurns(n, 0x400 * n, 10);
  }

  // Arithmetic modulo 2^32.

  lemma WrapSum(a: int, b: int)
    ensures Wrap(Wrap(a) as int + b) == Wrap(a + b)
  {
    var q := a / WORD_LIMIT;
    assert a == WORD_LIMIT * q + Wrap(a);
    var s := Wrap(a) as int + b;
    Residue(a + b, q + s / WORD_LIMIT, Wrap(s));
  }

  lemma Residue(a: int, q: int, r: int)
    requires a == WORD_LIMIT * q + r && 0 <= r < WORD_LIMIT
    ensures Wrap(a) == r
  {
  }

  // Putting calls together, for any processor.

  lemma One(cpu: Cpu<Machine>, c: Call, isLoad: bool, size: Size, rd: Reg, base: Reg, offset: int)
    requires Transfers(cpu, c, isLoad, size, rd, base, offset)
    ensures AccessesAt(cpu, [c], isLoad, size, rd, base, offset)
  {
    forall m: Machine
      ensures OneAccess(m, Meaning(cpu, [c], m), isLoad, size, rd, Wrap(m.regs[base] as int + offset))
    {
      MeaningOfOne(cpu, c, m);
    }
  }

  /** A transfer after S0 has been set is a transfer from the machine before. */
  lemma AfterScratch(m: Machine, v: Word, m2: Machine, isLoad: bool, size: Size, rd: Reg, address: Word, address': Word)
    requires OneAccess(SetReg(m, S0, v), m2, isLoad, size, rd, address)
    requires address == address' && (isLoad || size == DoubleSize || rd != S0)
    ensures OneAccess(m, m2, isLoad, size, rd, address')
  {
  }

  lemma ScratchPlus(m: Machine, m1: Machine, m2: Machine, isLoad: bool, size: Size, rd: Reg, sum: int, low: int)
    requires m1 == SetReg(m, S0, Wrap(sum)) && OneAccess(m1, m2, isLoad, size, rd, Wrap(m1.regs[S0] as int + low))
    requires isLoad || size == DoubleSize || rd != S0
    ensures OneAccess(m, m2, isLoad, size, rd, Wrap(sum + low))
  {
    WrapSum(sum, low);
    AfterScratch(m, Wrap(sum), m2, isLoad, size, rd, Wrap(m1.regs[S0] as int + low), Wrap(sum + low));
  }

  lemma AddThenTransferAt(cpu: Cpu<Machine>, c: Call, d: Call, isLoad: bool, size: Size, rd: Reg, base: Reg,
                          high: int, low: int, m: Machine)
    requires Adds(cpu, c, S0, base, high) && Transfers(cpu, d, isLoad, size, rd, S0, low)
    requires isLoad || size == DoubleSize || rd != S0
    ensures OneAccess(m, Meaning(cpu, [c, d], m), isLoad, size, rd, Wrap(m.regs[base] as int + high + low))
  {
    MeaningOfTwo(cpu, c, d, m);
    var m1 := MeaningOf(cpu, c, m);
    var m2 := MeaningOf(cpu, d, m1);
    ScratchPlus(m, m1, m2, isLoad, size, rd, m.regs[base] as int + high, low);
  }

  lemma AddThenTransfer(cpu: Cpu<Machine>, c: Call, d: Call, isLoad: bool, size: Size, rd: Reg, base: Reg, high: int,
                        low: int, offset: int)
    requires Adds(cpu, c, S0, base, high) && Transfers(cpu, d, isLoad, size, rd, S0, low) && offset == high + low
    requires isLoad || size == DoubleSize || rd != S0
    ensures AccessesAt(cpu, [c, d], isLoad, size, rd, base, offset)
  {
    forall m: Machine
      ensures OneAccess(m, Meaning(cpu, [c, d], m), isLoad, size, rd, Wrap(m.regs[base] as int + offset))
    {
      AddThenTransferAt(cpu, c, d, isLoad, size, rd, base, high, low, m);
    }
  }

  lemma MeaningThen(cpu: Cpu<Machine>, calls: seq<Call>, c: Call, m: Machine)
    ensures Meaning(cpu, calls + [c], m) == MeaningOf(cpu, c, Meaning(cpu, calls, m))
  {
    MeaningAppend(cpu, calls, [c], m);
    MeaningOfOne(cpu, c, Meaning(cpu, calls, m));
  }

  lemma MoveThenTransfer(cpu: Cpu<Machine>, calls: seq<Call>, d: Call, isLoad: bool, size: Size, rd: Reg, base: Reg, offset: int)
    requires Moves(cpu, calls, S0, Wrap(offset)) && TransfersBy(cpu, d, isLoad, size, rd, base, S0)
    requires base != S0 && (isLoad || size == DoubleSize || rd != S0)
    ensures AccessesAt(cpu, calls + [d], isLoad, size, rd, base, offset)
  {
    forall m: Machine
      ensures OneAccess(m, Meaning(cpu, calls + [d], m), isLoad, size, rd, Wrap(m.regs[base] as int + offset))
    {
      var v := Wrap(offset);
      MeaningThen(cpu, calls, d, m);
      WrapSum(offset, m.regs[base]);
      AfterScratch(m, v, Meaning(cpu, calls + [d], m), isLoad, size, rd, Wrap(m.regs[base] as int + v), Wrap(m.regs[base] as int + offset));
    }
  }

  lemma ScaleThenTransfer(cpu: Cpu<Machine>, c: Call, d: Call, isLoad: bool, size: Size, rd: Reg, base: Reg,
                          index: Reg, factor: nat, offset: int)
    requires AddsScaled(cpu, c, S0, base, index, factor) && Transfers(cpu, d, isLoad, size, rd, S0, offset)
    requires isLoad || size == DoubleSize || rd != S0
    ensures AccessesIndexed(cpu, [c, d], isLoad, size, rd, base, index, factor, offset)
  {
    forall m: Machine
      ensures OneAccess(m, Meaning(cpu, [c, d], m), isLoad, size, rd,
                        Wrap(m.regs[base] as int + m.regs[index] * factor + offset))
    {
      var sum := m.regs[base] + m.regs[index] * factor;
      var v := Wrap(sum);
      MeaningOfTwo(cpu, c, d, m);
      WrapSum(sum, offset);
      AfterScratch(m, v, Meaning(cpu, [c, d], m), isLoad, size, rd, Wrap(v as int + offset), Wrap(sum as int + offset));
    }
  }

  /** A constant in S0 with a scaled register added. */
  lemma LoadThenScale(cpu: Cpu<Machine>, b: Call, c: Call, index: Reg, factor: nat, offset: int, m: Machine)
    requires Sets(cpu, b, S0, Wrap(offset)) && AddsScaled(cpu, c, S0, S0, index, factor) && index != S0
    ensures Meaning(cpu, [b, c], m) == SetReg(m, S0, Wrap(offset + m.regs[index] * factor))
  {
    MeaningOfTwo(cpu, b, c, m);
    var m1 := SetReg(m, S0, Wrap(offset));
    assert m1.regs[S0] == Wrap(offset) && m1.regs[index] == m.regs[index];
    WrapSum(offset, m.regs[index] * factor);
    SetTwice(m, S0, Wrap(offset), Wrap(offset + m.regs[index] * factor));
  }

  lemma FarIndexed(cpu: Cpu<Machine>, b: Call, c: Call, d: Call, isLoad: bool, size: Size, rd: Reg, base: Reg,
                   index: Reg, factor: nat, offset: int)
    requires Sets(cpu, b, S0, Wrap(offset)) && AddsScaled(cpu, c, S0, S0, index, factor)
    requires TransfersBy(cpu, d, isLoad, size, rd, base, S0)
    requires base != S0 && index != S0 && (isLoad || size == DoubleSize || rd != S0)
    ensures AccessesIndexed(cpu, [b, c] + [d], isLoad, size, rd, base, index, factor, offset)
  {
    forall m: Machine
      ensures OneAccess(m, Meaning(cpu, [b, c] + [d], m), isLoad, size, rd,
                        Wrap(m.regs[base] as int + m.regs[index] * factor + offset))
    {
      LoadThenScale(cpu, b, c, index, factor, offset, m);
      MeaningThen(cpu, [b, c], d, m);
      ScratchIndex(m, Meaning(cpu, [b, c], m), Meaning(cpu, [b, c] + [d], m), isLoad, size, rd, base, m.regs[index] * factor, offset);
    }
  }

  lemma ScratchIndex(m: Machine, m1: Machine, m2: Machine, isLoad: bool, size: Size, rd: Reg, base: Reg, scaled: int, offset: int)
    requires m1 == SetReg(m, S0, Wrap(offset + scaled))
    requires OneAccess(m1, m2, isLoad, size, rd, Wrap(m1.regs[base] as int + m1.regs[S0]))
    requires base != S0 && (isLoad || size == DoubleSize || rd != S0)
    ensures OneAccess(m, m2, isLoad, size, rd, Wrap(m.regs[base] as int + scaled + offset))
  {
    WrapSum(offset + scaled, m.regs[base]);
    AfterScratch(m, Wrap(offset + scaled), m2, isLoad, size, rd,
                 Wrap(m1.regs[base] as int + m1.regs[S0]), Wrap(m.regs[base] as int + scaled + offset));
  }

  lemma FarDoubleAt(cpu: Cpu<Machine>, d: Call, isLoad: bool, rd: Reg, base: Reg, offset: int, m: Machine, m1: Machine)
    requires Transfers(cpu, d, isLoad, DoubleSize, rd, S0, 0) && m1 == SetReg(m, S0, Wrap(offset + m.regs[base]))
    ensures OneAccess(m, MeaningOf(cpu, d, m1), isLoad, DoubleSize, rd, Wrap(m.regs[base] as int + offset))
  {
    ScratchPlus(m, m1, MeaningOf(cpu, d, m1), isLoad, DoubleSize, rd, offset + m.regs[base], 0);
  }

  lemma FarDoubleOne(cpu: Cpu<Machine>, b: Call, c: Call, d: Call, isLoad: bool, rd: Reg, base: Reg, offset: int, m: Machine)
    requires Sets(cpu, b, S0, Wrap(offset)) && AddsScaled(cpu, c, S0, S0, base, 1)
    requires Transfers(cpu, d, isLoad, DoubleSize, rd, S0, 0) && base != S0
    ensures OneAccess(m, Meaning(cpu, [b, c] + [d], m), isLoad, DoubleSize, rd, Wrap(m.regs[base] as int + offset))
  {
    LoadThenScale(cpu, b, c, base, 1, offset, m);
    MeaningThen(cpu, [b, c], d, m);
    FarDoubleAt(cpu, d, isLoad, rd, base, offset, m, Meaning(cpu, [b, c], m));
  }

  lemma FarDouble(cpu: Cpu<Machine>, b: Call, c: Call, d: Call, isLoad: bool, rd: Reg, base: Reg, offset: int)
    requires Sets(cpu, b, S0, Wrap(offset)) && AddsScaled(cpu, c, S0, S0, base, 1)
    requires Transfers(cpu, d, isLoad, DoubleSize, rd, S0, 0) && base != S0
    ensures AccessesAt(cpu, [b, c] + [d], isLoad, DoubleSize, rd, base, offset)
  {
    forall m: Machine
      ensures OneAccess(m, Meaning(cpu, [b, c] + [d], m), isLoad, DoubleSize, rd, Wrap(m.regs[base] as int + offset))
    {
      FarDoubleOne(cpu, b, c, d, isLoad, rd, base, offset, m);
    }
  }

  // Where S0 is in use, the far forms overwrite it. `Uniform` machines show it.

  function Uniform(v: Word): Machine { Machine(seq(16, _ => v), []) }

  lemma WrapDiffers(a: Word, x: Word, y: Word)
    requires x != y
    ensures Wrap(a as int + x) != Wrap(a as int + y)
  {
  }

  function Next32(v: Word): (w: Word)
    ensures w != v
  {
    Wrap(v as int + 1)
  }

  lemma Misses(cpu: Cpu<Machine>, calls: seq<Call>, isLoad: bool, size: Size, rd: Reg, base: Reg, offset: int, m: Machine)
    requires !OneAccess(m, Meaning(cpu, calls, m), isLoad, size, rd, Wrap(m.regs[base] as int + offset))
    ensures !AccessesAt(cpu, calls, isLoad, size, rd, base, offset)
  {
  }

  lemma MissesIndexed(cpu: Cpu<Machine>, calls: seq<Call>, isLoad: bool, size: Size, rd: Reg, base: Reg, index: Reg,
                      factor: nat, offset: int, m: Machine)
    requires !OneAccess(m, Meaning(cpu, calls, m), isLoad, size, rd, Wrap(m.regs[base] as int + m.regs[index] * factor + offset))
    ensures !AccessesIndexed(cpu, calls, isLoad, size, rd, base, index, factor, offset)
  {
  }

  /** An access at another address, or one that stores another value, is not the one. */
  lemma OtherAccess(m: Machine, m1: Machine, m2: Machine, isLoad: bool, size: Size, rd: Reg, address: Word, address': Word)
    requires m1.accesses == m.accesses && OneAccess(m1, m2, isLoad, size, rd, address)
    requires address != address' || (!isLoad && size != DoubleSize && m1.regs[rd] != m.regs[rd])
    ensures !OneAccess(m, m2, isLoad, size, rd, address')
  {
    assert m2.accesses[|m.accesses|].address == address;
  }

  lemma FarMisses(cpu: Cpu<Machine>, calls: seq<Call>, d: Call, isLoad: bool, size: Size, rd: Reg, base: Reg, offset: int)
    requires Moves(cpu, calls, S0, Wrap(offset)) && TransfersBy(cpu, d, isLoad, size, rd, base, S0)
    requires base == S0 || (!isLoad && size != DoubleSize && rd == S0)
    ensures !AccessesAt(cpu, calls + [d], isLoad, size, rd, base, offset)
  {
    var v := Wrap(offset);
    var m := Uniform(Next32(v));
    var m1 := SetReg(m, S0, v);
    MeaningThen(cpu, calls, d, m);
    WrapSum(offset, Next32(v));
    WrapDiffers(v, v, Next32(v));
    OtherAccess(m, m1, MeaningOf(cpu, d, m1), isLoad, size, rd, Wrap(m1.regs[base] as int + v), Wrap(Next32(v) as int + offset));
    Misses(cpu, calls + [d], isLoad, size, rd, base, offset, m);
  }

  lemma AddMisses(cpu: Cpu<Machine>, c: Call, d: Call, size: Size, base: Reg, high: int, low: int, offset: int)
    requires Adds(cpu, c, S0, base, high) && Transfers(cpu, d, false, size, S0, S0, low)
    requires size != DoubleSize && Wrap(high) != 0
    ensures !AccessesAt(cpu, [c, d], false, size, S0, base, offset)
  {
    var m := Uniform(0);
    var m1 := MeaningOf(cpu, c, m);
    MeaningOfTwo(cpu, c, d, m);
    OtherAccess(m, m1, MeaningOf(cpu, d, m1), false, size, S0, Wrap(m1.regs[S0] as int + low), Wrap(offset));
    Misses(cpu, [c, d], false, size, S0, base, offset, m);
  }

  lemma ScaleMisses(cpu: Cpu<Machine>, c: Call, d: Call, size: Size, base: Reg, index: Reg, factor: nat, offset: int)
    requires AddsScaled(cpu, c, S0, base, index, factor) && Transfers(cpu, d, false, size, S0, S0, offset)
    requires size != DoubleSize && 1 <= factor <= 8
    ensures !AccessesIndexed(cpu, [c, d], false, size, S0, base, index, factor, offset)
  {
    var m := Uniform(1);
    var m1 := MeaningOf(cpu, c, m);
    MeaningOfTwo(cpu, c, d, m);
    OtherAccess(m, m1, MeaningOf(cpu, d, m1), false, size, S0, Wrap(m1.regs[S0] as int + offset), Wrap(1 + 1 * factor + offset));
    MissesIndexed(cpu, [c, d], false, size, S0, base, index, factor, offset, m);
  }

  /** What the constant and the scaled register leave in S0 if the register is S0. */
  lemma LoadThenScaleItself(cpu: Cpu<Machine>, b: Call, c: Call, factor: nat, v: Word, m: Machine)
    requires Sets(cpu, b, S0, v) && AddsScaled(cpu, c, S0, S0, S0, factor)
    ensures Meaning(cpu, [b, c], m) == SetReg(m, S0, Wrap(v as int + v * factor))
  {
    MeaningOfTwo(cpu, b, c, m);
    SetTwice(m, S0, v, Wrap(v as int + v * factor));
  }

  lemma FarDoubleMisses(cpu: Cpu<Machine>, b: Call, c: Call, d: Call, isLoad: bool, rd: Reg, offset: int)
    requires Sets(cpu, b, S0, Wrap(offset)) && AddsScaled(cpu, c, S0, S0, S0, 1)
    requires Transfers(cpu, d, isLoad, DoubleSize, rd, S0, 0)
    ensures !AccessesAt(cpu, [b, c] + [d], isLoad, DoubleSize, rd, S0, offset)
  {
    var v := Wrap(offset);
    var m := Uniform(Next32(v));
    var m1 := SetReg(m, S0, Wrap(v as int + v));
    LoadThenScaleItself(cpu, b, c, 1, v, m);
    MeaningThen(cpu, [b, c], d, m);
    WrapSum(offset, Next32(v));
    WrapDiffers(v, v, Next32(v));
    OtherAccess(m, m1, MeaningOf(cpu, d, m1), isLoad, DoubleSize, rd, Wrap(m1.regs[S0] as int + 0), Wrap(Next32(v) as int + offset));
    Misses(cpu, [b, c] + [d], isLoad, DoubleSize, rd, S0, offset, m);
  }

  /** Base or stored register S0, and another index. */
  lemma FarIndexedMisses(cpu: Cpu<Machine>, b: Call, c: Call, d: Call, isLoad: bool, size: Size, rd: Reg, base: Reg,
                         index: Reg, factor: nat, offset: int)
    requires Sets(cpu, b, S0, Wrap(offset)) && AddsScaled(cpu, c, S0, S0, index, factor)
    requires TransfersBy(cpu, d, isLoad, size, rd, base, S0)
    requires index != S0 && (base == S0 || (!isLoad && size != DoubleSize && rd == S0))
    ensures !AccessesIndexed(cpu, [b, c] + [d], isLoad, size, rd, base, index, factor, offset)
  {
    var v := Wrap(offset);
    var m := SetReg(Uniform(0), S0, Next32(v));
    LoadThenScale(cpu, b, c, index, factor, offset, m);
    var m1 := Meaning(cpu, [b, c], m);
    assert m.regs[index] * factor == 0 && m1 == SetReg(m, S0, v);
    MeaningThen(cpu, [b, c], d, m);
    WrapSum(offset, Next32(v));
    WrapDiffers(v, v, Next32(v));
    OtherAccess(m, m1, MeaningOf(cpu, d, m1), isLoad, size, rd, Wrap(m1.regs[base] as int + m1.regs[S0]), Wrap(m.regs[base] as int + 0 + offset));
    MissesIndexed(cpu, [b, c] + [d], isLoad, size, rd, base, index, factor, offset, m);
  }

  lemma WrapMoves(v: Word, d: int)
    requires 0 < d < WORD_LIMIT
    ensures Wrap(v as int + d) != v
  {
  }

  /** Registers of zero or of one tell the two addresses apart. */
  lemma TellApart(v: Word, k: Word, isBase: bool, factor: nat) returns (x: Word)
    requires 1 <= factor <= 8
    ensures Wrap((if isBase then k else x) as int + k) != Wrap(v as int + x + x * factor)
  {
    x := 0;
    if Wrap((if isBase then k else 0) as int + k) == v {
      x := 1;
      if isBase {
        WrapMoves(v, 1 + factor);
      } else {
        WrapDiffers(v, 1, 1 + factor);
      }
    }
  }

  /** Index S0: on one of two machines the address is wrong. */
  lemma FarIndexLost(cpu: Cpu<Machine>, b: Call, c: Call, d: Call, isLoad: bool, size: Size, rd: Reg, base: Reg,
                     factor: nat, offset: int)
    requires Sets(cpu, b, S0, Wrap(offset)) && AddsScaled(cpu, c, S0, S0, S0, factor)
    requires TransfersBy(cpu, d, isLoad, size, rd, base, S0) && 1 <= factor <= 8
    ensures !AccessesIndexed(cpu, [b, c] + [d], isLoad, size, rd, base, S0, factor, offset)
  {
    var v := Wrap(offset);
    var k := Wrap(v as int + v * factor);
    var x := TellApart(v, k, base == S0, factor);
    var m := Uniform(x);
    var m1 := SetReg(m, S0, k);
    LoadThenScaleItself(cpu, b, c, factor, v, m);
    MeaningThen(cpu, [b, c], d, m);
    WrapSum(offset, x + x * factor);
    OtherAccess(m, m1, MeaningOf(cpu, d, m1), isLoad, size, rd, Wrap(m1.regs[base] as int + k), Wrap(x as int + x * factor + offset));
    MissesIndexed(cpu, [b, c] + [d], isLoad, size, rd, base, S0, factor, offset, m);
  }

  // The source's operations. `amount` is the magnitude of an offset.

  predicate IsNear(offset: int) { -0xfff <= offset <= 0xfff }
  predicate IsPaged(offset: int) { -0xfffff <= offset <= 0xfffff }

  method NearTransfer(isLoad: bool, srcDst: Reg, base: Reg, up: bool, amount: nat, byte: bool) returns (calls: seq<Call>)
    requires base != PC && amount <= 0xfff
    ensures AccessesAt(ArmCpu(), calls, isLoad, SizeOf(byte), srcDst, base, Signed(up, amount))
    ensures KeepsRegisters(ArmCpu(), calls)
  {
    var c := TransferImm(isLoad, byte, up, srcDst, base, amount);
    TransferImmKeeps(isLoad, byte, up, srcDst, base, amount);
    TransferImmDoes(isLoad, byte, up, srcDst, base, amount);
    One(ArmCpu(), c, isLoad, SizeOf(byte), srcDst, base, Signed(up, amount));
    calls := [c];
  }

  lemma PageIsNotNone(up: bool, page: nat)
    requires 1 <= page <= 0xff
    ensures Wrap(Signed(up, 0x1000 * page)) != 0
  {
  }

  method PageTransfer(isLoad: bool, srcDst: Reg, base: Reg, up: bool, amount: nat, byte: bool) returns (calls: seq<Call>)
    requires 0xfff < amount <= 0xfffff
    ensures AllStraight(calls)
    ensures AccessesAt(ArmCpu(), calls, isLoad, SizeOf(byte), srcDst, base, Signed(up, amount)) <==> (isLoad || srcDst != S0)
  {
    var page, rest := amount / 0x1000, amount % 0x1000;
    var c, d := AddImm(up, S0, base, 10, page), TransferImm(isLoad, byte, up, srcDst, S0, rest);
    PageValue(page);
    AddImmDoes(up, S0, base, 10, page, 0x1000 * page);
    TransferImmDoes(isLoad, byte, up, srcDst, S0, rest);
    if isLoad || srcDst != S0 {
      AddThenTransfer(ArmCpu(), c, d, isLoad, SizeOf(byte), srcDst, base,
                      Signed(up, 0x1000 * page), Signed(up, rest), Signed(up, amount));
    } else {
      PageIsNotNone(up, page);
      AddMisses(ArmCpu(), c, d, SizeOf(byte), base, Signed(up, 0x1000 * page), Signed(up, rest), Signed(up, amount));
    }
    calls := [c, d];
  }

  method FarTransfer(isLoad: bool, srcDst: Reg, base: Reg, offset: Offset, byte: bool, armv7: bool) returns (calls: seq<Call>)
    requires base != PC
    ensures AllStraight(calls)
    ensures AccessesAt(ArmCpu(), calls, isLoad, SizeOf(byte), srcDst, base, offset)
            <==> base != S0 && (isLoad || srcDst != S0)
  {
    var moves := MoveImm(Wrap(offset), S0, armv7);
    var d := TransferReg(isLoad, byte, srcDst, base, S0);
    TransferRegDoes(isLoad, byte, srcDst, base, S0);
    if base != S0 && (isLoad || srcDst != S0) {
      MoveThenTransfer(ArmCpu(), moves, d, isLoad, SizeOf(byte), srcDst, base, offset);
    } else {
      FarMisses(ArmCpu(), moves, d, isLoad, SizeOf(byte), srcDst, base, offset);
    }
    calls := moves + [d];
  }

  /** The scratch register is free for the form of transfer this offset takes. */
  predicate S0IsFree(isLoad: bool, srcDst: Reg, base: Reg, offset: Offset) {
    IsNear(offset) || ((isLoad || srcDst != S0) && (IsPaged(offset) || base != S0))
  }

  /** dataTransfer32: one access at base + offset for every offset, exactly if S0 is not
      needed otherwise; a near one leaves S0 alone. */
  method DataTransfer32(isLoad: bool, srcDst: Reg, base: Reg, offset: Offset, byte: bool, armv7: bool) returns (calls: seq<Call>)
    requires base != PC && srcDst != PC
    ensures AllStraight(calls)
    ensures AccessesAt(ArmCpu(), calls, isLoad, SizeOf(byte), srcDst, base, offset) <==> S0IsFree(isLoad, srcDst, base, offset)
    ensures IsNear(offset) ==> KeepsRegisters(ArmCpu(), calls)
  {
    if offset >= 0 {
      if offset <= 0xfff {
        calls := NearTransfer(isLoad, srcDst, base, true, offset, byte);
      } else if offset <= 0xfffff {
        calls := PageTransfer(isLoad, srcDst, base, true, offset, byte);
      } else {
        calls := FarTransfer(isLoad, srcDst, base, offset, byte, armv7);
      }
    } else {
      if offset >= -0xfff {
        calls := NearTransfer(isLoad, srcDst, base, false, -offset, byte);
      } else if offset >= -0xfffff {
        calls := PageTransfer(isLoad, srcDst, base, false, -offset, byte);
      } else {
        calls := FarTransfer(isLoad, srcDst, base, offset, byte, armv7);
      }
    }
  }

  method NearIndexedTransfer(isLoad: bool, srcDst: Reg, base: Reg, index: Reg, scale: nat, up: bool, amount: nat,
                             byte: bool) returns (calls: seq<Call>)
    requires scale <= 3 && amount <= 0xfff
    ensures AllStraight(calls)
    ensures AccessesIndexed(ArmCpu(), calls, isLoad, SizeOf(byte), srcDst, base, index, Factor(scale), Signed(up, amount))
            <==> (isLoad || srcDst != S0)
  {
    var c, d := AddShifted(S0, base, index, scale), TransferImm(isLoad, byte, up, srcDst, S0, amount);
    AddShiftedDoes(S0, base, index, scale);
    TransferImmDoes(isLoad, byte, up, srcDst, S0, amount);
    if isLoad || srcDst != S0 {
      ScaleThenTransfer(ArmCpu(), c, d, isLoad, SizeOf(byte), srcDst, base, index, Factor(scale), Signed(up, amount));
    } else {
      ScaleMisses(ArmCpu(), c, d, SizeOf(byte), base, index, Factor(scale), Signed(up, amount));
    }
    calls := [c, d];
  }

  method FarIndexedTransfer(isLoad: bool, srcDst: Reg, base: Reg, index: Reg, scale: nat, offset: Offset, byte: bool)
      returns (calls: seq<Call>)
    requires scale <= 3 && base != PC
    ensures AllStraight(calls)
    ensures AccessesIndexed(ArmCpu(), calls, isLoad, SizeOf(byte), srcDst, base, index, Factor(scale), offset)
            <==> base != S0 && index != S0 && (isLoad || srcDst != S0)
  {
    var b, c := LoadConstant(S0, Wrap(offset), false), AddShifted(S0, S0, index, scale);
    var d := TransferReg(isLoad, byte, srcDst, base, S0);
    LoadSets(S0, Wrap(offset), false);
    AddShiftedDoes(S0, S0, index, scale);
    TransferRegDoes(isLoad, byte, srcDst, base, S0);
    if index == S0 {
      FarIndexLost(ArmCpu(), b, c, d, isLoad, SizeOf(byte), srcDst, base, Factor(scale), offset);
    } else if base != S0 && (isLoad || srcDst != S0) {
      FarIndexed(ArmCpu(), b, c, d, isLoad, SizeOf(byte), srcDst, base, index, Factor(scale), offset);
    } else {
      FarIndexedMisses(ArmCpu(), b, c, d, isLoad, SizeOf(byte), srcDst, base, index, Factor(scale), offset);
    }
    calls := [b, c] + [d];
  }

  /** baseIndexTransfer32: one access at base + (index << scale) + offset for every offset,
      exactly if S0 is not needed otherwise. */
  method BaseIndexTransfer32(isLoad: bool, srcDst: Reg, base: Reg, index: Reg, scale: nat, offset: Offset, byte: bool)
      returns (calls: seq<Call>)
    requires scale <= 3 && base != PC && index != PC && srcDst != PC
    ensures AllStraight(calls)
    ensures AccessesIndexed(ArmCpu(), calls, isLoad, SizeOf(byte), srcDst, base, index, Factor(scale), offset)
            <==> (isLoad || srcDst != S0) && (IsNear(offset) || (base != S0 && index != S0))
  {
    if offset >= 0 && offset <= 0xfff {
      calls := NearIndexedTransfer(isLoad, srcDst, base, index, scale, true, offset, byte);
      return;
    }
    if offset <= 0 && offset >= -0xfff {
      calls := NearIndexedTransfer(isLoad, srcDst, base, index, scale, false, -offset, byte);
      return;
    }
    calls := FarIndexedTransfer(isLoad, srcDst, base, index, scale, offset, byte);
  }

  // Doubles.

  method NearDouble(isLoad: bool, srcDst: Reg, base: Reg, up: bool, amount: nat) returns (calls: seq<Call>)
    requires amount <= 0x3ff && amount % 4 == 0
    ensures AccessesAt(ArmCpu(), calls, isLoad, DoubleSize, srcDst, base, Signed(up, amount))
    ensures KeepsRegisters(ArmCpu(), calls)
  {
    var c := DoubleImm(isLoad, up, srcDst, base, amount / 4);
    DoubleImmKeeps(isLoad, up, srcDst, base, amount / 4);
    DoubleImmDoes(isLoad, up, srcDst, base, amount / 4);
    One(ArmCpu(), c, isLoad, DoubleSize, srcDst, base, Signed(up, amount));
    calls := [c];
  }

  lemma PageWords(amount: nat)
    requires amount <= 0x3ffff && amount % 4 == 0
    ensures amount / 0x400 <= 0xff && amount == 0x400 * (amount / 0x400) + 4 * (amount / 4 % 0x100)
  {
  }

  method PageDouble(isLoad: bool, srcDst: Reg, base: Reg, up: bool, amount: nat) returns (calls: seq<Call>)
    requires amount <= 0x3ffff && amount % 4 == 0
    ensures AccessesAt(ArmCpu(), calls, isLoad, DoubleSize, srcDst, base, Signed(up, amount))
  {
    PageWords(amount);
    var page, words := amount / 0x400, amount / 4 % 0x100;
    var c, d := AddImm(up, S0, base, 11, page), DoubleImm(isLoad, up, srcDst, S0, words);
    PageValue(page);
    AddImmDoes(up, S0, base, 11, page, 0x400 * page);
    DoubleImmDoes(isLoad, up, srcDst, S0, words);
    AddThenTransfer(ArmCpu(), c, d, isLoad, DoubleSize, srcDst, base,
                    Signed(up, 0x400 * page), Signed(up, 4 * words), Signed(up, amount));
    calls := [c, d];
  }

  method FarDoubleTransfer(isLoad: bool, srcDst: Reg, base: Reg, offset: Offset) returns (calls: seq<Call>)
    ensures AllStraight(calls)
    ensures AccessesAt(ArmCpu(), calls, isLoad, DoubleSize, srcDst, base, offset) <==> base != S0
  {
    var b, c := LoadConstant(S0, Wrap(offset), false), AddShifted(S0, S0, base, 0);
    var d := DoubleImm(isLoad, true, srcDst, S0, 0);
    LoadSets(S0, Wrap(offset), false);
    AddShiftedDoes(S0, S0, base, 0);
    DoubleImmDoes(isLoad, true, srcDst, S0, 0);
    if base != S0 {
      FarDouble(ArmCpu(), b, c, d, isLoad, srcDst, base, offset);
    } else {
      FarDoubleMisses(ArmCpu(), b, c, d, isLoad, srcDst, offset);
    }
    calls := [b, c] + [d];
  }

  /** The offsets that need no constant: whole words of up to eighteen bits. */
  predicate IsDoublePaged(offset: int) { offset % 4 == 0 && -0x3ffff <= offset <= 0x3ffff }

  /** doubleTransfer: one double access at base + offset for every offset that can be
      negated, exactly if S0 is not needed otherwise; a near one leaves S0 alone. */
  method DoubleTransfer(isLoad: bool, srcDst: Reg, base: Reg, offset0: Offset) returns (calls: seq<Call>)
    requires base != PC && offset0 != MIN_OFFSET
    ensures AllStraight(calls)
    ensures AccessesAt(ArmCpu(), calls, isLoad, DoubleSize, srcDst, base, offset0) <==> base != S0 || IsDoublePaged(offset0)
    ensures offset0 % 4 == 0 && -0x3ff <= offset0 <= 0x3ff ==> KeepsRegisters(ArmCpu(), calls)
  {
    var offset: Offset := offset0;
    if offset % 4 == 0 {
      if offset <= 0x3ff && offset >= 0 {
        calls := NearDouble(isLoad, srcDst, base, true, offset);
        return;
      }
      if offset <= 0x3ffff && offset >= 0 {
        calls := PageDouble(isLoad, srcDst, base, true, offset);
        return;
      }
      offset := -offset;
      if offset <= 0x3ff && offset >= 0 {
        calls := NearDouble(isLoad, srcDst, base, false, offset);
        return;
      }
      if offset <= 0x3ffff && offset >= 0 {
        calls := PageDouble(isLoad, srcDst, base, false, offset);
        return;
      }
      offset := -offset;
    }
    calls := FarDoubleTransfer(isLoad, srcDst, base, offset);
  }
}
