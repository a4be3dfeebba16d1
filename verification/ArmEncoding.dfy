/** The instruction words of the constant pool machinery, as 32-bit numbers, and the bit
    fields read back from them (ARM DDI 0100: section A3.2 for the condition field,
    section A4.1.5 for B, section A5.2 for literal loads). A field of bits hi..lo of w
    is (w / 2^lo) % 2^(hi-lo+1). */
module ArmEncoding {
  const WORD_LIMIT: nat := 0x1_0000_0000

  type Word = w: nat | w < WORD_LIMIT
  type Reg = r: nat | r < 16
  /** Condition field; 15 is not a condition. */
  type Cond = c: nat | c < 15

  const S0: Reg := 3
  const PC: Reg := 15
  const AL: Cond := 14

  const DT_UP: nat := 0x00800000

  const INVALID_BRANCH_TARGET: Word := 0xffffffff
  const PAD_FOR_ALIGN32: Word := 0xe12fff7f
  const BKPT0: Word := 0xe1200070
  const MOV_R0_R0: Word := 0xe1a00000

  // Fields.

  function CondField(w: Word): nat { w / 0x10000000 }
  function RdField(w: Word): Reg { (w / 0x1000) % 16 }
  function Low12(w: Word): nat { w % 0x1000 }
  predicate IsUp(w: Word) { (w / DT_UP) % 2 == 1 }

  /** (w & 0x0f7f0000) == 0x051f0000: a load through pc, of either direction. */
  predicate IsLiteralLoad(w: Word) {
    (w / 0x1000000) % 16 == 5 && (w / 0x10000) % 128 == 0x1f
  }

  predicate IsBranch(w: Word) { (w / 0x1000000) % 16 == 0xa }

  /** Any other instruction: no branch and no load through pc. */
  predicate IsPlain(w: Word) { !IsBranch(w) && !IsLiteralLoad(w) }

  /** bx rm under condition AL: control does not come back. */
  predicate IsReturn(w: Word) { w / 16 == 0xe12fff1 }

  // Literal loads.

  /** ldr<cc> rd, [pc, #+offset] or, with up clear, [pc, #-offset]. */
  function LiteralLoad(cc: Cond, up: bool, rd: Reg, offset: nat): Word
    requires offset <= 0xfff
  {
    cc * 0x10000000 + 0x05000000 + (if up then DT_UP else 0) + 0x1f0000 + rd * 0x1000 + offset
  }

  lemma LiteralLoadFields(cc: Cond, up: bool, rd: Reg, offset: nat)
    requires offset <= 0xfff
    ensures var w := LiteralLoad(cc, up, rd, offset);
            && IsLiteralLoad(w) && !IsBranch(w)
            && CondField(w) == cc && RdField(w) == rd && IsUp(w) == up && Low12(w) == offset
  {
    var w := LiteralLoad(cc, up, rd, offset);
    var u := if up then 1 else 0;
    assert w / 0x10000000 == cc;
    assert w / 0x1000000 == cc * 16 + 5;
    assert w / DT_UP == cc * 32 + 10 + u;
    assert w / 0x10000 == (cc * 32 + 10 + u) * 128 + 0x1f;
    assert w / 0x1000 == ((cc * 32 + 10 + u) * 128 + 0x1f) * 16 + rd;
  }

  /** The provisional form of a load: its slot in the pending pool and a low one bit. */
  function TagLoad(load: Word, index: nat): Word
    requires index < 0x800
  {
    load - Low12(load) + 2 * index + 1
  }

  predicate IsTagged(w: Word) { w % 2 == 1 }

  function TagIndex(w: Word): nat { Low12(w) / 2 }

  /** The assertions of the patching code: the pool is behind the load, and the offset
      fits the 12-bit field. */
  predicate InReach(load: Word, diff: int) {
    diff >= 1 && (diff + TagIndex(load) - 2) * 4 <= 0xfff
  }

  /** The final form of a load whose pool starts diff words after it. */
  function PatchLoad(load: Word, diff: int): Word
    requires InReach(load, diff)
  {
    var index := TagIndex(load);
    if diff >= 2 || index > 0 then
      load - Low12(load) + (diff + index - 2) * 4
    else
      load - Low12(load) - (if IsUp(load) then DT_UP else 0) + 4
  }

  /** How many bytes ahead of the load itself it reads; pc is two words ahead. */
  function LiteralDistance(w: Word): int {
    if IsUp(w) then 8 + Low12(w) else 8 - Low12(w)
  }

  /** A load as it stands once its slot is placed, distance words after it. */
  function PlacedLoad(cc: Cond, rd: Reg, distance: nat): Word
    requires 1 <= distance <= 1025
  {
    if distance >= 2 then LiteralLoad(cc, true, rd, (distance - 2) * 4)
    else LiteralLoad(cc, false, rd, 4)
  }

  function TaggedLoad(cc: Cond, rd: Reg, index: nat): Word
    requires index < 0x800
  {
    LiteralLoad(cc, true, rd, 2 * index + 1)
  }

  lemma TagThenIndex(cc: Cond, rd: Reg, index: nat)
    requires index < 0x800
    ensures TagLoad(LiteralLoad(cc, true, rd, 0), index) == TaggedLoad(cc, rd, index)
    ensures TagIndex(TaggedLoad(cc, rd, index)) == index && IsTagged(TaggedLoad(cc, rd, index))
  {
    LiteralLoadFields(cc, true, rd, 0);
    LiteralLoadFields(cc, true, rd, 2 * index + 1);
  }

  /** Patching and reading undo each other: a load tagged with a slot and patched against
      a pool diff words away reads exactly that slot, also one word ahead, where the
      offset is negative; condition and destination are untouched. */
  lemma PatchThenRead(cc: Cond, rd: Reg, index: nat, diff: int)
    requires index < 0x800 && InReach(TaggedLoad(cc, rd, index), diff)
    ensures 1 <= diff + index <= 1025
    ensures var w := PatchLoad(TaggedLoad(cc, rd, index), diff);
            && w == PlacedLoad(cc, rd, diff + index)
            && IsLiteralLoad(w) && CondField(w) == cc && RdField(w) == rd
            && !IsTagged(w) && LiteralDistance(w) == 4 * (diff + index)
  {
    TagThenIndex(cc, rd, index);
    LiteralLoadFields(cc, true, rd, 2 * index + 1);
    PlacedLoadFields(cc, rd, diff + index);
  }

  lemma PlacedLoadFields(cc: Cond, rd: Reg, distance: nat)
    requires 1 <= distance <= 1025
    ensures var w := PlacedLoad(cc, rd, distance);
            && IsLiteralLoad(w) && !IsBranch(w) && CondField(w) == cc && RdField(w) == rd
            && !IsTagged(w) && LiteralDistance(w) == 4 * distance
  {
    if distance >= 2 {
      LiteralLoadFields(cc, true, rd, (distance - 2) * 4);
    } else {
      LiteralLoadFields(cc, false, rd, 4);
    }
  }

  // Branches.

  predicate BranchReaches(distance: int) { -0x800000 <= distance - 2 <= 0x7fffff }

  /** b<cc> to the word `distance` words after the branch. */
  function Branch(cc: Cond, distance: int): Word
    requires BranchReaches(distance)
  {
    cc * 0x10000000 + 0x0a000000 + (distance - 2) % 0x1000000
  }

  /** Where a branch goes, in words from itself: 24 bits, sign-extended. */
  function BranchDistance(w: Word): int {
    var field := w % 0x1000000;
    2 + (if field < 0x800000 then field else field - 0x1000000)
  }

  /** Exactly the distances some branch word has. */
  lemma ReachIsExact(distance: int)
    ensures BranchReaches(distance) <==> exists w: Word :: IsBranch(w) && BranchDistance(w) == distance
  {
    if BranchReaches(distance) {
      BranchFields(AL, distance);
    }
  }

  lemma BranchFields(cc: Cond, distance: int)
    requires BranchReaches(distance)
    ensures var w := Branch(cc, distance);
            && IsBranch(w) && !IsLiteralLoad(w) && CondField(w) == cc && BranchDistance(w) == distance
  {
    var w := Branch(cc, distance);
    assert w / 0x1000000 == cc * 16 + 0xa;
    var field := if distance >= 2 then distance - 2 else distance - 2 + 0x1000000;
    assert w == (cc * 16 + 0xa) * 0x1000000 + field;
  }

  /** The jump protecting a pool of poolBytes bytes, padding included. */
  function ConstantPoolBarrier(poolBytes: nat): Word
    requires 4 <= poolBytes < 0x1000000
  {
    Branch(AL, (poolBytes - 4) / 4 + 2)
  }
}
