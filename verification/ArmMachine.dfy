/** A concrete processor for the instructions the macro operations emit: sixteen
    registers and a record of the memory accesses made (ARM DDI 0100: section A3.4
    encoding of data-processing instructions, section A5.1 Addressing Mode 1, section
    A5.2 Addressing Mode 2, section A5.5 coprocessor transfers). */
module ArmMachine {
  import opened ArmEncoding
  import opened Execution
  import opened WordBits

  type Regs = s: seq<Word> | |s| == 16 witness seq(16, _ => 0)

  datatype Size = WordSize | ByteSize | DoubleSize

  /** One access: `reg` is the transferred register, of the size's own file; `stored` is
      what a store from a general register writes. */
  datatype Access = Access(isLoad: bool, size: Size, reg: nat, address: Word, stored: Word)

  datatype Machine = Machine(regs: Regs, accesses: seq<Access>)

  // Instruction words.

  const SUB: nat := 0x2
  const ADD: nat := 0x4
  const ORR: nat := 0xc
  const MOV: nat := 0xd
  const BIC: nat := 0xe
  const MVN: nat := 0xf

  /** Data processing under AL, flags untouched; `imm` is the operand-is-immediate bit. */
  function DataWord(opcode: nat, imm: bool, rd: Reg, rn: Reg, low: nat): Word
    requires opcode < 16 && low < 0x1000
  {
    0xe0000000 + (if imm then 0x02000000 else 0) + opcode * 0x200000 + rn * 0x10000 + rd * 0x1000 + low
  }

  /** movw and movt: sixteen bits, the top four of them in the rn field. */
  function HalfWord(top: bool, rd: Reg, half: nat): Word
    requires half < 0x10000
  {
    0xe3000000 + (if top then 0x400000 else 0) + (half / 0x1000) * 0x10000 + rd * 0x1000 + half % 0x1000
  }

  /** ldr, str, ldrb, strb with an offset or an offset register. */
  function TransferWord(isLoad: bool, byte: bool, up: bool, byReg: bool, rd: Reg, rn: Reg, low: nat): Word
    requires low < 0x1000
  {
    0xe5000000 + (if byReg then 0x02000000 else 0) + (if up then 0x800000 else 0) + (if byte then 0x400000 else 0)
    + (if isLoad then 0x100000 else 0) + rn * 0x10000 + rd * 0x1000 + low
  }

  /** fldd, fstd: the offset counts words. */
  function DoubleWord(isLoad: bool, up: bool, rd: Reg, rn: Reg, offset: nat): Word
    requires offset <= 0xff
  {
    0xed000b00 + (if up then 0x800000 else 0) + (if isLoad then 0x100000 else 0) + rn * 0x10000 + rd * 0x1000 + offset
  }

  // Decoding and execution.

  function RnField(w: Word): Reg { (w / 0x10000) % 16 }

  function Ored(a: Word, b: Word): Word {
    PowerTable();
    OrBelow(a, b, 32);
    OrWords(a, b)
  }

  function Cleared(a: Word, b: Word): Word {
    ClearBelow(a, b);
    ClearWords(a, b)
  }

  function Complement(b: Word): Word { Cleared(0xffffffff, b) }

  /** The operations by their numbers in section A3.4. */
  function Alu(opcode: nat, a: Word, b: Word): Word {
    if opcode == 2 then (a - b) % WORD_LIMIT
    else if opcode == 4 then (a + b) % WORD_LIMIT
    else if opcode == 12 then Ored(a, b)
    else if opcode == 13 then b
    else if opcode == 14 then Cleared(a, b)
    else if opcode == 15 then Complement(b)
    else a
  }

  function Immediate(low: nat): Word
    requires low < 0x1000
  {
    RorBelow(low % 0x100, low / 0x100);
    ImmWord(low)
  }

  /** A value shifted left by up to three places. */
  function Scaled(v: Word, scale: nat): Word
    requires scale <= 3
  {
    v * (if scale == 0 then 1 else if scale == 1 then 2 else if scale == 2 then 4 else 8) % WORD_LIMIT
  }

  /** A register operand shifted left by an immediate (section A5.1.5); other shifts are
      not modelled. */
  function ShiftedReg(regs: Regs, low: nat): Word
    requires low < 0x1000
  {
    if (low / 16) % 8 == 0 && low / 0x80 <= 3 then Scaled(regs[low % 16], low / 0x80) else 0
  }

  function ExecData(w: Word, m: Machine): Machine {
    var imm, opcode, rd, rn, low := (w / 0x2000000) % 2 == 1, (w / 0x200000) % 16, RdField(w), RnField(w), Low12(w);
    var operand := if imm then Immediate(low) else ShiftedReg(m.regs, low);
    m.(regs := m.regs[rd := Alu(opcode, m.regs[rn], operand)])
  }

  /** A register after movw, or after movt. */
  function WithHalf(top: bool, r: Word, half: nat): Word
    requires half < 0x10000
  {
    if top then half * 0x10000 + r % 0x10000 else half
  }

  function ExecHalf(w: Word, m: Machine): Machine {
    var rd := RdField(w);
    m.(regs := m.regs[rd := WithHalf((w / 0x400000) % 2 == 1, m.regs[rd], RnField(w) * 0x1000 + Low12(w))])
  }

  function OffsetAddress(up: bool, base: Word, offset: nat): Word {
    if up then (base + offset) % WORD_LIMIT else (base - offset) % WORD_LIMIT
  }

  function TransferOffset(regs: Regs, byReg: bool, low: nat): Word
    requires low < 0x1000
  {
    if byReg then ShiftedReg(regs, low) else low
  }

  function Transferred(m: Machine, isLoad: bool, byte: bool, up: bool, byReg: bool, rd: Reg, rn: Reg, low: nat): Machine
    requires low < 0x1000
  {
    var address := OffsetAddress(up, m.regs[rn], TransferOffset(m.regs, byReg, low));
    m.(accesses := m.accesses
       + [Access(isLoad, if byte then ByteSize else WordSize, rd, address, if isLoad then 0 else m.regs[rd])])
  }

  function ExecTransfer(w: Word, m: Machine): Machine {
    Transferred(m, (w / 0x100000) % 2 == 1, (w / 0x400000) % 2 == 1, IsUp(w), (w / 0x2000000) % 2 == 1,
                RdField(w), RnField(w), Low12(w))
  }

  function DoubleTransferred(m: Machine, isLoad: bool, up: bool, rd: Reg, rn: Reg, offset: nat): Machine
    requires offset <= 0xff
  {
    var address := OffsetAddress(up, m.regs[rn], 4 * offset);
    m.(accesses := m.accesses + [Access(isLoad, DoubleSize, rd, address, 0)])
  }

  function ExecDouble(w: Word, m: Machine): Machine {
    DoubleTransferred(m, (w / 0x100000) % 2 == 1, IsUp(w), RdField(w), RnField(w), w % 0x100)
  }

  // Which words are modelled.

  /** Executed under the condition that always holds. */
  predicate IsAlways(w: Word) { w / 0x10000000 == 14 }

  /** The bit that would update the flags is clear. */
  predicate KeepsFlags(w: Word) { (w / 0x100000) % 2 == 0 }

  /** movw or movt. */
  predicate IsHalf(w: Word) { (w / 0x100000) % 256 == 0x30 || (w / 0x100000) % 256 == 0x34 }

  /** A base register with an offset, not written back. */
  predicate IsOffset(w: Word) { (w / 0x1000000) % 2 == 1 && (w / 0x200000) % 2 == 0 }

  /** Coprocessor 11 transfers doubles; the register number has no fifth bit here. */
  predicate IsDouble(w: Word) { (w / 0x1000000) % 16 == 0xd && (w / 0x100) % 16 == 0xb && (w / 0x400000) % 2 == 0 }

  /** What an instruction word does; words outside the modelled set change nothing. */
  function Exec(w: Word, m: Machine): Machine {
    if !IsAlways(w) then m
    else if (w / 0x4000000) % 4 == 0 && IsHalf(w) then ExecHalf(w, m)
    else if (w / 0x4000000) % 4 == 0 && KeepsFlags(w) then ExecData(w, m)
    else if (w / 0x4000000) % 4 == 1 && IsOffset(w) then ExecTransfer(w, m)
    else if IsDouble(w) && IsOffset(w) then ExecDouble(w, m)
    else m
  }

  function ArmPlain(w: Word, m: Machine): Effect<Machine> {
    if IsReturn(w) then Leave(m) else Next(Exec(w, m))
  }

  /** The processor; flags are not modelled, so only AL is known to hold. */
  function ArmCpu(): Cpu<Machine> {
    Cpu(ArmPlain, (cc: Cond, m: Machine) => cc == AL, (rd: Reg, value: Word, m: Machine) => m.(regs := m.regs[rd := value]))
  }

  // What each word does.

  predicate IsModelled(opcode: nat) {
    opcode == SUB || opcode == ADD || opcode == ORR || opcode == MOV || opcode == BIC || opcode == MVN
  }

  lemma DataFields(opcode: nat, imm: bool, rd: Reg, rn: Reg, low: nat, w: Word)
    requires IsModelled(opcode) && low < 0x1000 && w == DataWord(opcode, imm, rd, rn, low)
    ensures (w / 0x4000000) % 4 == 0 && ((w / 0x2000000) % 2 == 1 <==> imm) && (w / 0x200000) % 16 == opcode
    ensures RdField(w) == rd && RnField(w) == rn && Low12(w) == low
    ensures IsAlways(w) && !IsHalf(w) && KeepsFlags(w)
    ensures IsPlain(w) && !IsReturn(w)
  {
    var i := if imm then 1 else 0;
    assert w / 0x1000 == 0xe0000 + i * 0x2000 + opcode * 0x200 + rn * 16 + rd;
    assert w / 0x10000 == 0xe000 + i * 0x200 + opcode * 0x20 + rn;
    assert w / 0x100000 == 0xe00 + i * 0x20 + opcode * 2;
    assert w / 0x200000 == 0x700 + i * 0x10 + opcode;
    assert w / 0x2000000 == 0x70 + i;
    assert w / 0x4000000 == 0x38;
  }

  /** A data-processing word sets one register to the operation on its two operands. */
  lemma DataDoes(opcode: nat, imm: bool, rd: Reg, rn: Reg, low: nat, m: Machine)
    requires IsModelled(opcode) && low < 0x1000
    ensures var w := DataWord(opcode, imm, rd, rn, low);
            && IsPlain(w)
            && ArmPlain(w, m) ==
               Next(m.(regs := m.regs[rd := Alu(opcode, m.regs[rn], if imm then Immediate(low) else ShiftedReg(m.regs, low))]))
  {
    DataFields(opcode, imm, rd, rn, low, DataWord(opcode, imm, rd, rn, low));
  }

  lemma HalfFields(top: bool, rd: Reg, half: nat, w: Word)
    requires half < 0x10000 && w == HalfWord(top, rd, half)
    ensures (w / 0x4000000) % 4 == 0 && ((w / 0x400000) % 2 == 1 <==> top)
    ensures IsAlways(w) && IsHalf(w)
    ensures RdField(w) == rd && RnField(w) * 0x1000 + Low12(w) == half
    ensures IsPlain(w) && !IsReturn(w)
  {
    var t := if top then 1 else 0;
    assert w / 0x1000 == 0xe3000 + t * 0x400 + (half / 0x1000) * 16 + rd;
    assert w / 0x10000 == 0xe300 + t * 0x40 + half / 0x1000;
    assert w / 0x100000 == 0xe30 + t * 4;
    assert w / 0x400000 == 0x38c + t;
    assert w / 0x4000000 == 0x38;
  }

  /** movw sets a register to sixteen bits; movt replaces its upper half. */
  lemma HalfDoes(top: bool, rd: Reg, half: nat, m: Machine)
    requires half < 0x10000
    ensures var w := HalfWord(top, rd, half);
            && IsPlain(w)
            && ArmPlain(w, m) ==
               Next(m.(regs := m.regs[rd := WithHalf(top, m.regs[rd], half)]))
  {
    HalfFields(top, rd, half, HalfWord(top, rd, half));
  }

  lemma TransferDigits(r: nat, u: nat, b: nat, l: nat, rd: Reg, rn: Reg, low: nat, w: Word)
    requires r <= 1 && u <= 1 && b <= 1 && l <= 1 && low < 0x1000
    requires w == 0xe5000000 + r * 0x02000000 + u * 0x800000 + b * 0x400000 + l * 0x100000 + rn * 0x10000 + rd * 0x1000 + low
    ensures w % 0x1000 == low && (w / 0x1000) % 16 == rd
    ensures w / 0x10000 == 0xe500 + r * 0x200 + u * 0x80 + b * 0x40 + l * 16 + rn
    ensures w / 0x100000 == 0xe50 + r * 0x20 + u * 8 + b * 4 + l
    ensures w / 0x200000 == 0x728 + r * 16 + u * 4 + b * 2
    ensures w / 0x400000 == 0x394 + r * 8 + u * 2 + b
    ensures w / 0x800000 == 0x1ca + r * 4 + u
    ensures w / 0x1000000 == 0xe5 + r * 2
    ensures w / 0x2000000 == 0x72 + r && w / 0x4000000 == 0x39
  {
  }

  lemma TransferFlags(r: nat, u: nat, b: nat, l: nat, rd: Reg, rn: Reg, low: nat, w: Word)
    requires r <= 1 && u <= 1 && b <= 1 && l <= 1 && low < 0x1000
    requires w == 0xe5000000 + r * 0x02000000 + u * 0x800000 + b * 0x400000 + l * 0x100000 + rn * 0x10000 + rd * 0x1000 + low
    ensures (w / 0x4000000) % 4 == 1 && (w / 0x2000000) % 2 == r && (w / 0x800000) % 2 == u
    ensures (w / 0x400000) % 2 == b && (w / 0x100000) % 2 == l
  {
    TransferDigits(r, u, b, l, rd, rn, low, w);
  }

  lemma TransferKind(r: nat, u: nat, b: nat, l: nat, rd: Reg, rn: Reg, low: nat, w: Word)
    requires r <= 1 && u <= 1 && b <= 1 && l <= 1 && low < 0x1000
    requires w == 0xe5000000 + r * 0x02000000 + u * 0x800000 + b * 0x400000 + l * 0x100000 + rn * 0x10000 + rd * 0x1000 + low
    ensures RdField(w) == rd && RnField(w) == rn && Low12(w) == low
    ensures rn != PC ==> IsPlain(w)
    ensures !IsReturn(w) && IsAlways(w) && IsOffset(w)
  {
    TransferDigits(r, u, b, l, rd, rn, low, w);
  }

  lemma TransferFields(isLoad: bool, byte: bool, up: bool, byReg: bool, rd: Reg, rn: Reg, low: nat, w: Word)
    requires low < 0x1000 && w == TransferWord(isLoad, byte, up, byReg, rd, rn, low)
    ensures (w / 0x4000000) % 4 == 1 && ((w / 0x2000000) % 2 == 1 <==> byReg) && (IsUp(w) <==> up)
    ensures ((w / 0x400000) % 2 == 1 <==> byte) && ((w / 0x100000) % 2 == 1 <==> isLoad)
    ensures RdField(w) == rd && RnField(w) == rn && Low12(w) == low
    ensures rn != PC ==> IsPlain(w)
    ensures !IsReturn(w) && IsAlways(w) && IsOffset(w)
  {
    var r, u, b, l := if byReg then 1 else 0, if up then 1 else 0, if byte then 1 else 0, if isLoad then 1 else 0;
    TransferFlags(r, u, b, l, rd, rn, low, w);
    TransferKind(r, u, b, l, rd, rn, low, w);
  }

  /** A transfer accesses base plus or minus its offset and touches no register (what is
      loaded is not modelled). */
  lemma TransferDoes(isLoad: bool, byte: bool, up: bool, byReg: bool, rd: Reg, rn: Reg, low: nat, m: Machine, w: Word)
    requires low < 0x1000 && rn != PC && w == TransferWord(isLoad, byte, up, byReg, rd, rn, low)
    ensures IsPlain(w)
    ensures ArmPlain(w, m) == Next(Transferred(m, isLoad, byte, up, byReg, rd, rn, low))
  {
    TransferFields(isLoad, byte, up, byReg, rd, rn, low, w);
  }

  lemma DoubleFields(isLoad: bool, up: bool, rd: Reg, rn: Reg, offset: nat, w: Word)
    requires offset <= 0xff && w == DoubleWord(isLoad, up, rd, rn, offset)
    ensures (w / 0x4000000) % 4 == 3 && (w / 0x1000000) % 16 == 0xd && (IsUp(w) <==> up)
    ensures (w / 0x100000) % 2 == 1 <==> isLoad
    ensures IsAlways(w) && IsOffset(w) && IsDouble(w)
    ensures RdField(w) == rd && RnField(w) == rn && w % 0x100 == offset
    ensures IsPlain(w) && !IsReturn(w)
  {
    var u, l := if up then 1 else 0, if isLoad then 1 else 0;
    assert w / 0x100 == 0xed0000 + u * 0x8000 + l * 0x1000 + rn * 0x100 + rd * 16 + 0xb;
    assert w / 0x1000 == 0xed000 + u * 0x800 + l * 0x100 + rn * 16 + rd;
    assert w / 0x10000 == 0xed00 + u * 0x80 + l * 16 + rn;
    assert w / 0x100000 == 0xed0 + u * 8 + l;
    assert w / 0x200000 == 0x768 + u * 4;
    assert w / 0x400000 == 0x3b4 + u * 2;
    assert w / 0x800000 == 0x1da + u;
    assert w / 0x1000000 == 0xed;
    assert w / 0x4000000 == 0x3b;
  }

  lemma DoubleDoes(isLoad: bool, up: bool, rd: Reg, rn: Reg, offset: nat, m: Machine)
    requires offset <= 0xff
    ensures var w := DoubleWord(isLoad, up, rd, rn, offset);
            && IsPlain(w)
            && ArmPlain(w, m) ==
               Next(DoubleTransferred(m, isLoad, up, rd, rn, offset))
  {
    DoubleFields(isLoad, up, rd, rn, offset, DoubleWord(isLoad, up, rd, rn, offset));
  }
}
