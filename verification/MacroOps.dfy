/** The macro operations of the assembler: loading an immediate and accessing memory at a
    computed address. Each returns the calls it makes, in order; `Meaning` runs them on
    the concrete processor. */
module MacroOps {
  import opened ArmEncoding
  import opened Session
  import opened Execution
  import opened Immediates
  import opened WordBits
  import opened ArmMachine

  // Straight-line code.

  predicate IsStraight(call: Call) {
    match call
    case EmitPlain(w) => IsPlain(w) && !IsReturn(w)
    case EmitConstant(cc, rd, _, _) => cc == AL && rd != PC
    case _ => false
  }

  predicate AllStraight(calls: seq<Call>) { forall i :: 0 <= i < |calls| ==> IsStraight(calls[i]) }

  /** What one straight call, and a sequence of them, does on a processor. */
  function MeaningOf<S>(cpu: Cpu<S>, call: Call, s: S): S {
    match call
    case EmitPlain(w) => cpu.plain(w, s).state
    case EmitConstant(_, rd, value, _) => cpu.write(rd, value, s)
    case _ => s
  }

  function Meaning<S>(cpu: Cpu<S>, calls: seq<Call>, s: S): S
    decreases |calls|
  {
    if calls == [] then s else Meaning(cpu, calls[1..], MeaningOf(cpu, calls[0], s))
  }

  lemma MeaningOfOne<S>(cpu: Cpu<S>, c: Call, s: S)
    ensures Meaning(cpu, [c], s) == MeaningOf(cpu, c, s)
  {
  }

  lemma MeaningOfTwo<S>(cpu: Cpu<S>, c: Call, d: Call, s: S)
    ensures Meaning(cpu, [c, d], s) == MeaningOf(cpu, d, MeaningOf(cpu, c, s))
  {
    assert [c, d] == [c] + [d];
    MeaningAppend(cpu, [c], [d], s);
    MeaningOfOne(cpu, c, s);
    MeaningOfOne(cpu, d, MeaningOf(cpu, c, s));
  }

  lemma {:induction false} MeaningAppend<S>(cpu: Cpu<S>, a: seq<Call>, b: seq<Call>, s: S)
    ensures Meaning(cpu, a + b, s) == Meaning(cpu, b, Meaning(cpu, a, s))
    decreases |a|
  {
    if a == [] {
      assert a + b == b;
    } else {
      assert (a + b)[1..] == a[1..] + b;
      MeaningAppend(cpu, a[1..], b, MeaningOf(cpu, a[0], s));
    }
  }

  function SetReg(m: Machine, rd: Reg, v: Word): Machine { m.(regs := m.regs[rd := v]) }

  /** The calls leave the value in the register and everything else as it was. */
  ghost predicate Moves(cpu: Cpu<Machine>, calls: seq<Call>, rd: Reg, v: Word) {
    AllStraight(calls) && forall m {:trigger Meaning(cpu, calls, m)} :: Meaning(cpu, calls, m) == SetReg(m, rd, v)
  }

  predicate UsesPool(calls: seq<Call>) { exists i :: 0 <= i < |calls| && calls[i].EmitConstant? }

  /** One call that sets the register, whatever it held. */
  ghost predicate Sets(cpu: Cpu<Machine>, c: Call, rd: Reg, v: Word) {
    IsStraight(c) && forall m {:trigger MeaningOf(cpu, c, m)} :: MeaningOf(cpu, c, m) == SetReg(m, rd, v)
  }

  /** One call that turns value v in the register into w. */
  ghost predicate Turns(cpu: Cpu<Machine>, c: Call, rd: Reg, v: Word, w: Word) {
    IsStraight(c) && forall m: Machine {:trigger MeaningOf(cpu, c, m)} :: m.regs[rd] == v ==> MeaningOf(cpu, c, m) == SetReg(m, rd, w)
  }

  lemma OneMoves(cpu: Cpu<Machine>, c: Call, rd: Reg, v: Word)
    requires Sets(cpu, c, rd, v)
    ensures Moves(cpu, [c], rd, v)
  {
    forall m ensures Meaning(cpu, [c], m) == SetReg(m, rd, v) {
      MeaningOfOne(cpu, c, m);
    }
  }

  lemma TwoMove(cpu: Cpu<Machine>, c: Call, d: Call, rd: Reg, v: Word, w: Word)
    requires Sets(cpu, c, rd, v) && Turns(cpu, d, rd, v, w)
    ensures Moves(cpu, [c, d], rd, w)
  {
    forall m ensures Meaning(cpu, [c, d], m) == SetReg(m, rd, w) {
      MeaningOfTwo(cpu, c, d, m);
      SetTwice(m, rd, v, w);
    }
  }

  lemma SetTwice(m: Machine, rd: Reg, v: Word, w: Word)
    ensures SetReg(SetReg(m, rd, v), rd, w) == SetReg(m, rd, w) && SetReg(m, rd, v).regs[rd] == v
  {
  }

  // Emitters.

  /** The operand field of an encoded operand, as a number. */
  function Field12(op2: bv32): (n: nat)
    ensures n < 0x1000
  {
    Op2Field(op2) as nat
  }

  /** A data-processing instruction with an encoded immediate operand. */
  function DataImm(opcode: nat, rd: Reg, rn: Reg, low: nat): Call
    requires opcode < 16 && low < 0x1000
  {
    EmitPlain(DataWord(opcode, true, rd, rn, low))
  }

  lemma DataImmDoes(opcode: nat, rd: Reg, rn: Reg, low: nat, m: Machine)
    requires IsModelled(opcode) && low < 0x1000
    ensures IsStraight(DataImm(opcode, rd, rn, low))
    ensures MeaningOf(ArmCpu(), DataImm(opcode, rd, rn, low), m)
            == SetReg(m, rd, Alu(opcode, m.regs[rn], Immediate(low)))
  {
    DataDoes(opcode, true, rd, rn, low, m);
    DataFields(opcode, true, rd, rn, low, DataWord(opcode, true, rd, rn, low));
  }

  /** What a data-processing call does to any machine. */
  ghost predicate Computes(cpu: Cpu<Machine>, c: Call, opcode: nat, rd: Reg, rn: Reg, v: Word) {
    && IsStraight(c)
    && forall m {:trigger MeaningOf(cpu, c, m)} :: MeaningOf(cpu, c, m) == SetReg(m, rd, Alu(opcode, m.regs[rn], v))
  }

  lemma DataImmComputes(opcode: nat, rd: Reg, rn: Reg, low: nat)
    requires IsModelled(opcode) && low < 0x1000
    ensures Computes(ArmCpu(), DataImm(opcode, rd, rn, low), opcode, rd, rn, Immediate(low))
  {
    forall m: Machine
      ensures MeaningOf(ArmCpu(), DataImm(opcode, rd, rn, low), m)
              == SetReg(m, rd, Alu(opcode, m.regs[rn], Immediate(low)))
    {
      DataImmDoes(opcode, rd, rn, low, m);
    }
    DataFields(opcode, true, rd, rn, low, DataWord(opcode, true, rd, rn, low));
  }

  lemma MovSetsFor(cpu: Cpu<Machine>, c: Call, rd: Reg, v: Word)
    requires Computes(cpu, c, MOV, rd, 0, v)
    ensures Sets(cpu, c, rd, v)
  {
  }

  lemma MvnSetsFor(cpu: Cpu<Machine>, c: Call, rd: Reg, v: Word)
    requires Computes(cpu, c, MVN, rd, 0, v)
    ensures Sets(cpu, c, rd, Complement(v))
  {
  }

  lemma OrrTurnsFor(cpu: Cpu<Machine>, c: Call, rd: Reg, v: Word, w: Word)
    requires Computes(cpu, c, ORR, rd, rd, w)
    ensures Turns(cpu, c, rd, v, Ored(v, w))
  {
  }

  lemma BicTurnsFor(cpu: Cpu<Machine>, c: Call, rd: Reg, v: Word, w: Word)
    requires Computes(cpu, c, BIC, rd, rd, w)
    ensures Turns(cpu, c, rd, v, Cleared(v, w))
  {
  }

  lemma MovSets(rd: Reg, low: nat)
    requires low < 0x1000
    ensures Sets(ArmCpu(), DataImm(MOV, rd, 0, low), rd, Immediate(low))
  {
    DataImmComputes(MOV, rd, 0, low);
    MovSetsFor(ArmCpu(), DataImm(MOV, rd, 0, low), rd, Immediate(low));
  }

  lemma MvnSets(rd: Reg, low: nat)
    requires low < 0x1000
    ensures Sets(ArmCpu(), DataImm(MVN, rd, 0, low), rd, Complement(Immediate(low)))
  {
    DataImmComputes(MVN, rd, 0, low);
    MvnSetsFor(ArmCpu(), DataImm(MVN, rd, 0, low), rd, Immediate(low));
  }

  lemma OrrTurns(rd: Reg, low: nat, v: Word)
    requires low < 0x1000
    ensures Turns(ArmCpu(), DataImm(ORR, rd, rd, low), rd, v, Ored(v, Immediate(low)))
  {
    DataImmComputes(ORR, rd, rd, low);
    OrrTurnsFor(ArmCpu(), DataImm(ORR, rd, rd, low), rd, v, Immediate(low));
  }

  lemma BicTurns(rd: Reg, low: nat, v: Word)
    requires low < 0x1000
    ensures Turns(ArmCpu(), DataImm(BIC, rd, rd, low), rd, v, Cleared(v, Immediate(low)))
  {
    DataImmComputes(BIC, rd, rd, low);
    BicTurnsFor(ArmCpu(), DataImm(BIC, rd, rd, low), rd, v, Immediate(low));
  }

  /** Where a constant of the pool lies is the assembler's business: the load yields it. */
  function LoadConstant(rd: Reg, v: Word, reusable: bool): Call { EmitConstant(AL, rd, v, reusable) }

  lemma LoadSets(rd: Reg, v: Word, reusable: bool)
    requires rd != PC
    ensures Sets(ArmCpu(), LoadConstant(rd, v, reusable), rd, v)
  {
  }

  function MovHalf(top: bool, rd: Reg, half: nat): Call
    requires half < 0x10000
  {
    EmitPlain(HalfWord(top, rd, half))
  }

  lemma MovHalfDoes(top: bool, rd: Reg, half: nat, m: Machine)
    requires half < 0x10000
    ensures IsStraight(MovHalf(top, rd, half))
    ensures MeaningOf(ArmCpu(), MovHalf(top, rd, half), m) == SetReg(m, rd, WithHalf(top, m.regs[rd], half))
  {
    HalfDoes(top, rd, half, m);
    HalfFields(top, rd, half, HalfWord(top, rd, half));
  }

  lemma MovwSets(rd: Reg, half: nat)
    requires half < 0x10000
    ensures Sets(ArmCpu(), MovHalf(false, rd, half), rd, half)
  {
    var c := MovHalf(false, rd, half);
    forall m ensures IsStraight(c) && MeaningOf(ArmCpu(), c, m) == SetReg(m, rd, half) {
      MovHalfDoes(false, rd, half, m);
    }
  }

  lemma MovtTurns(rd: Reg, half: nat, v: Word, w: Word)
    requires half < 0x10000 && w == WithHalf(true, v, half)
    ensures Turns(ArmCpu(), MovHalf(true, rd, half), rd, v, w)
  {
    var c := MovHalf(true, rd, half);
    forall m: Machine ensures IsStraight(c) && (m.regs[rd] == v ==> MeaningOf(ArmCpu(), c, m) == SetReg(m, rd, w)) {
      MovHalfDoes(true, rd, half, m);
    }
  }

  // moveImm.

  /** An operand that decodes to a value, found among 32-bit vectors, holds that value. */
  lemma OperandHolds(op2: bv32, v: bv32)
    requires v == ImmValue(Op2Field(op2))
    ensures Bits(Immediate(Field12(op2))) == v
  {
    ImmIs(Op2Field(op2), Field12(op2));
  }

  lemma PairIsOr(word: bv32, v: bv32, w: bv32)
    requires PairOf(word, v, w)
    ensures Or(v, w) == word
  {
  }

  lemma PairGives(word: bv32, v: bv32, w: bv32, a: Word, b: Word, imm: Word)
    requires PairOf(word, v, w) && Bits(imm) == word && Bits(a) == v && Bits(b) == w
    ensures Ored(a, b) == imm
  {
    OrIs(a, b);
    PairIsOr(word, v, w);
    SameBits(Ored(a, b), imm);
  }

  lemma ClearAll(v: bv32, word: bv32)
    requires word == !v
    ensures Clear(0xffffffff, v) == word
  {
  }

  lemma ComplementIs(a: Word, v: bv32, word: bv32)
    requires Bits(a) == v && word == !v
    ensures Bits(Complement(a)) == word
  {
    AllOnes();
    ClearIs(0xffffffff, a);
    ClearAll(v, word);
  }

  /** The complement of the first operand with the bits of the second cleared. */
  lemma Complements(word: bv32, not: bv32, v: bv32, w: bv32, u: bv32)
    requires word == !not && PairOf(not, v, w) && u == !v
    ensures word == u & !w
  {
  }

  lemma ComplementGives(word: bv32, not: bv32, v: bv32, w: bv32, a: Word, b: Word, imm: Word)
    requires not == !word && PairOf(not, v, w) && Bits(imm) == word && Bits(a) == v && Bits(b) == w
    ensures Cleared(Complement(a), b) == imm
  {
    var u := !v;
    ComplementIs(a, v, u);
    NotNot(word, not);
    Complements(word, not, v, w, u);
    ClearedGives(word, u, w, Complement(a), b, imm);
  }

  lemma ClearedGives(word: bv32, u: bv32, w: bv32, a: Word, b: Word, imm: Word)
    requires word == u & !w && Bits(a) == u && Bits(b) == w && Bits(imm) == word
    ensures Cleared(a, b) == imm
  {
    ClearIs(a, b);
    SameBits(Cleared(a, b), imm);
  }

  lemma NotNot(word: bv32, not: bv32)
    requires not == !word
    ensures word == !not
  {
  }

  lemma MvnGives(word: bv32, not: bv32, a: Word, imm: Word)
    requires not == !word && Bits(a) == not && Bits(imm) == word
    ensures Complement(a) == imm
  {
    NotNot(word, not);
    ComplementIs(a, not, word);
    SameBits(Complement(a), imm);
  }

  lemma SameIsPair(word: bv32, y: bv12)
    requires word == ImmValue(y)
    ensures !NoPair(word)
  {
    assert PairOf(word, word, word);
    MakesUp(word, word, word, y, y);
  }

  /** movw and movt. */
  method MoveHalves(imm: Word, dest: Reg) returns (calls: seq<Call>)
    ensures Moves(ArmCpu(), calls, dest, imm) && |calls| == (if imm < 0x10000 then 1 else 2) && !UsesPool(calls)
  {
    if imm <= 0xffff {
      MovwSets(dest, imm);
      OneMoves(ArmCpu(), MovHalf(false, dest, imm), dest, imm);
      return [MovHalf(false, dest, imm)];
    }
    var low, high := imm % 0x10000, imm / 0x10000;
    MovwSets(dest, low);
    MovtTurns(dest, high, low, imm);
    TwoMove(ArmCpu(), MovHalf(false, dest, low), MovHalf(true, dest, high), dest, low, imm);
    return [MovHalf(false, dest, low), MovHalf(true, dest, high)];
  }

  /** genInt with its instructions: mov and orr, or mvn and bic for the complement. */
  method GenIntCalls(ghost imm: Word, word: bv32, dest: Reg, positive: bool) returns (ok: bool, calls: seq<Call>)
    requires Bits(imm) == word
    ensures ok <==> !NoPair(if positive then word else !word)
    ensures ok ==> Moves(ArmCpu(), calls, dest, imm) && |calls| <= 2 && !UsesPool(calls)
  {
    var ok', op1, op2;
    ghost var v, w;
    var sought := if positive then word else !word;
    ok', op1, op2, v, w := GenInt(sought);
    ok, calls := ok', [];
    if ok {
      var low1, low2 := Field12(op1), Field12(op2);
      OperandHolds(op1, v);
      OperandHolds(op2, w);
      if positive {
        PairGives(word, v, w, Immediate(low1), Immediate(low2), imm);
        calls := PairCalls(low1, low2, dest, imm);
      } else {
        ComplementGives(word, sought, v, w, Immediate(low1), Immediate(low2), imm);
        calls := ComplementCalls(low1, low2, dest, imm);
      }
    }
  }

  method PairCalls(low1: nat, low2: nat, dest: Reg, ghost imm: Word) returns (calls: seq<Call>)
    requires low1 < 0x1000 && low2 < 0x1000 && Ored(Immediate(low1), Immediate(low2)) == imm
    ensures Moves(ArmCpu(), calls, dest, imm) && |calls| <= 2 && !UsesPool(calls)
  {
    var c, d := DataImm(MOV, dest, 0, low1), DataImm(ORR, dest, dest, low2);
    MovSets(dest, low1);
    OrrTurns(dest, low2, Immediate(low1));
    TwoMove(ArmCpu(), c, d, dest, Immediate(low1), imm);
    calls := [c, d];
  }

  method ComplementCalls(low1: nat, low2: nat, dest: Reg, ghost imm: Word) returns (calls: seq<Call>)
    requires low1 < 0x1000 && low2 < 0x1000 && Cleared(Complement(Immediate(low1)), Immediate(low2)) == imm
    ensures Moves(ArmCpu(), calls, dest, imm) && |calls| <= 2 && !UsesPool(calls)
  {
    var c, d := DataImm(MVN, dest, 0, low1), DataImm(BIC, dest, dest, low2);
    MvnSets(dest, low1);
    BicTurns(dest, low2, Complement(Immediate(low1)));
    TwoMove(ArmCpu(), c, d, dest, Complement(Immediate(low1)), imm);
    calls := [c, d];
  }

  /** Neither the word nor its complement is two rotated bytes. */
  ghost predicate Unpaired(word: bv32) { NoPair(word) && NoPair(!word) }

  ghost predicate NeedsPool(imm: Word) { Unpaired(Bits(imm)) }

  /** encodeComplexImm: movw and movt where there are such; else two instructions, or the
      constant pool when neither the immediate nor its complement is two rotated bytes. */
  method EncodeComplexImm(imm: Word, dest: Reg, armv7: bool) returns (calls: seq<Call>)
    requires dest != PC
    ensures Moves(ArmCpu(), calls, dest, imm) && |calls| <= 2
    ensures UsesPool(calls) <==> !armv7 && NeedsPool(imm)
    ensures UsesPool(calls) ==> calls == [EmitConstant(14, dest, imm, true)]
  {
    if armv7 {
      calls := MoveHalves(imm, dest);
      return;
    }
    var word := Bits(imm);
    var ok;
    ok, calls := GenIntCalls(imm, word, dest, true);
    if ok { return; }
    ok, calls := GenIntCalls(imm, word, dest, false);
    if ok { return; }
    calls := LoadImm(imm, dest);
  }

  /** The last resort: the constant pool. */
  method LoadImm(imm: Word, dest: Reg) returns (calls: seq<Call>)
    requires dest != PC
    ensures Moves(ArmCpu(), calls, dest, imm) && UsesPool(calls)
    ensures calls == [EmitConstant(14, dest, imm, true)]
  {
    LoadSets(dest, imm, true);
    OneMoves(ArmCpu(), LoadConstant(dest, imm, true), dest, imm);
    calls := [LoadConstant(dest, imm, true)];
    assert calls[0].EmitConstant?;
  }

  lemma Found(word: bv32, op2: bv32)
    requires ImmValue(Op2Field(op2)) == word
    ensures OneByte(word) && !NoPair(word)
  {
    SameIsPair(word, Op2Field(op2));
  }

  /** mvn of the complement. */
  method InvertedCall(ghost imm: Word, low: nat, dest: Reg) returns (calls: seq<Call>)
    requires low < 0x1000 && Complement(Immediate(low)) == imm
    ensures Moves(ArmCpu(), calls, dest, imm) && |calls| == 1 && !UsesPool(calls)
  {
    MvnSets(dest, low);
    OneMoves(ArmCpu(), DataImm(MVN, dest, 0, low), dest, imm);
    calls := [DataImm(MVN, dest, 0, low)];
  }

  /** One instruction if there is one: mov, or mvn of the complement. */
  method OneCall(imm: Word, word: bv32, dest: Reg) returns (ok: bool, calls: seq<Call>)
    requires Bits(imm) == word
    ensures ok <==> OneByte(word) || OneByte(!word)
    ensures ok ==> Moves(ArmCpu(), calls, dest, imm) && |calls| == 1 && !UsesPool(calls) && !Unpaired(word)
  {
    var op2 := GetOp2(word);
    if op2 != INVALID_IMM {
      Found(word, op2);
      OperandHolds(op2, word);
      SameBits(Immediate(Field12(op2)), imm);
      MovSets(dest, Field12(op2));
      OneMoves(ArmCpu(), DataImm(MOV, dest, 0, Field12(op2)), dest, imm);
      return true, [DataImm(MOV, dest, 0, Field12(op2))];
    }
    var not := !word;
    op2 := GetOp2(not);
    if op2 != INVALID_IMM {
      Found(not, op2);
      OperandHolds(op2, not);
      MvnGives(word, not, Immediate(Field12(op2)), imm);
      calls := InvertedCall(imm, Field12(op2), dest);
      return true, calls;
    }
    return false, [];
  }

  /** moveImm is correct for every immediate and both processor variants, and goes to the
      constant pool only for the words no two instructions of its kind can make. */
  method MoveImm(imm: Word, dest: Reg, armv7: bool) returns (calls: seq<Call>)
    requires dest != PC
    ensures Moves(ArmCpu(), calls, dest, imm) && |calls| <= 2
    ensures OneByte(Bits(imm)) || OneByte(!Bits(imm)) ==> |calls| == 1
    ensures UsesPool(calls) <==> !armv7 && NeedsPool(imm)
    ensures UsesPool(calls) ==> calls == [EmitConstant(14, dest, imm, true)]
  {
    var ok;
    ok, calls := OneCall(imm, Bits(imm), dest);
    if !ok {
      calls := EncodeComplexImm(imm, dest, armv7);
    }
  }

  /** What getImm hands back: an immediate operand, one that stands for the complement, or
      the scratch register with the value moved into it. */
  datatype Operand2 = Plainly(low: nat) | Inverted(low: nat) | InRegister(reg: Reg)

  /** The part of getImm behind the search for a plain operand. */
  method GetOther(imm: Word, not: bv32, tmpReg: Reg, invert: bool, armv7: bool) returns (op: Operand2, calls: seq<Call>)
    requires tmpReg != PC && not == !Bits(imm)
    ensures op.Inverted? <==> invert && OneByte(not)
    ensures op.Inverted? ==> op.low < 0x1000 && Complement(Immediate(op.low)) == imm && calls == []
    ensures !op.Inverted? ==> op == InRegister(tmpReg) && Moves(ArmCpu(), calls, tmpReg, imm)
  {
    var op2 := GetOp2(not);
    if op2 != INVALID_IMM {
      Found(not, op2);
      OperandHolds(op2, not);
      MvnGives(Bits(imm), not, Immediate(Field12(op2)), imm);
      if invert {
        return Inverted(Field12(op2)), [];
      }
      calls := InvertedCall(imm, Field12(op2), tmpReg);
      return InRegister(tmpReg), calls;
    }
    calls := EncodeComplexImm(imm, tmpReg, armv7);
    op := InRegister(tmpReg);
  }

  /** getImm: whichever form it returns, the operand has the value of the immediate once
      the calls have been made; plain if it can be, inverted if it has to be and may. */
  method GetImm(imm: Word, tmpReg: Reg, invert: bool, armv7: bool) returns (op: Operand2, calls: seq<Call>)
    requires tmpReg != PC
    ensures op.Plainly? ==> op.low < 0x1000 && Immediate(op.low) == imm && calls == []
    ensures op.Inverted? ==> op.low < 0x1000 && Complement(Immediate(op.low)) == imm && calls == []
    ensures op.InRegister? ==> op.reg == tmpReg && Moves(ArmCpu(), calls, tmpReg, imm)
    ensures op.Plainly? <==> OneByte(Bits(imm))
    ensures op.Inverted? <==> invert && !OneByte(Bits(imm)) && OneByte(!Bits(imm))
  {
    var word := Bits(imm);
    var op2 := GetOp2(word);
    if op2 != INVALID_IMM {
      Found(word, op2);
      OperandHolds(op2, word);
      SameBits(Immediate(Field12(op2)), imm);
      return Plainly(Field12(op2)), [];
    }
    op, calls := GetOther(imm, !word, tmpReg, invert, armv7);
  }
}
