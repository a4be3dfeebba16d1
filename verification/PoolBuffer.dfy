/** The buffer with its constant pool as the source has it: arrays written in place, loops
    over the waiting loads and over the pool. Every method is proved to do what the
    function of the same name in ConstantPool does to the buffer's value. */
module PoolBuffer {
  import opened ArmEncoding
  import opened ConstantPool
  import opened Masks
  import opened AssemblerBuffer

  const POOL_CAPACITY := 512

  datatype Entry = UniqueConst | ReusableConst | UnusedEntry

  function IsReusable(mask: seq<Entry>): (r: seq<bool>)
    ensures |r| == |mask| && forall i :: 0 <= i < |mask| ==> r[i] == (mask[i] == ReusableConst)
  {
    seq(|mask|, i requires 0 <= i < |mask| => mask[i] == ReusableConst)
  }

  /** Offsets are bytes in the source, word positions in a buffer's value. */
  function InWords(offsets: seq<nat>): (r: seq<nat>)
    ensures |r| == |offsets| && forall i :: 0 <= i < |offsets| ==> r[i] == offsets[i] / 4
  {
    seq(|offsets|, i requires 0 <= i < |offsets| => offsets[i] / 4)
  }

  class PooledBuffer {
    const buffer: CodeBuffer
    const pool: array<Word>
    const mask: array<Entry>
    var loadOffsets: seq<nat>
    var numConsts: nat
    var maxDistance: int
    var lastConstDelta: int

    ghost predicate Separate()
      reads this, buffer, pool, mask
    {
      && pool.Length == POOL_CAPACITY && mask.Length == POOL_CAPACITY
      && numConsts <= POOL_CAPACITY
      && buffer.storage != pool
    }

    ghost function View(): Buffer
      requires Separate() && buffer.Valid()
      reads this, buffer, buffer.storage, pool, mask
    {
      Buffer(buffer.Code(), pool[..numConsts], IsReusable(mask[..numConsts]), InWords(loadOffsets), maxDistance, lastConstDelta)
    }

    ghost predicate Sound()
      reads this, buffer, buffer.storage, pool, mask
    {
      Separate() && buffer.Valid() && Valid(View())
    }

    constructor ()
      ensures Sound() && View() == EMPTY
      ensures fresh(buffer) && fresh(buffer.storage) && fresh(pool) && fresh(mask)
    {
      buffer := new CodeBuffer();
      pool := new Word[POOL_CAPACITY];
      mask := new Entry[POOL_CAPACITY];
      loadOffsets := [];
      numConsts := 0;
      maxDistance := MAX_POOL_SIZE;
      lastConstDelta := 0;
    }

    method CorrectBy(insnSize: nat)
      modifies this`maxDistance, this`lastConstDelta
      ensures maxDistance == old(maxDistance) - insnSize
      ensures lastConstDelta == if old(lastConstDelta) < insnSize then 0 else old(lastConstDelta) - insnSize
    {
      maxDistance := maxDistance - insnSize;
      lastConstDelta := lastConstDelta - insnSize;
      if lastConstDelta < 0 {
        lastConstDelta := 0;
      }
    }

    method CorrectForConstant(insnSize: nat, constSize: nat)
      modifies this`maxDistance, this`lastConstDelta
      ensures lastConstDelta == constSize
      ensures maxDistance == old(maxDistance) - insnSize - (if old(lastConstDelta) < insnSize then 0 else old(lastConstDelta) - insnSize)
    {
      CorrectBy(insnSize);
      maxDistance := maxDistance - lastConstDelta;
      lastConstDelta := constSize;
    }

    /** The loop of flushConstantPool over the waiting loads. */
    method PatchWaitingLoads(start: nat)
      requires Separate() && buffer.Valid() && Patchable(buffer.Code(), InWords(loadOffsets), start)
      requires forall i, j :: 0 <= i < j < |loadOffsets| ==> InWords(loadOffsets)[i] < InWords(loadOffsets)[j]
      modifies buffer.storage
      ensures buffer.Valid() && buffer.Code() == PatchLoads(old(buffer.Code()), InWords(loadOffsets), start)
    {
      ghost var code := buffer.Code();
      ghost var loads := InWords(loadOffsets);
      for n := 0 to |loadOffsets|
        invariant buffer.Valid() && |buffer.Code()| == |code|
        invariant forall i :: 0 <= i < |code| && i !in loads[..n] ==> buffer.Code()[i] == code[i]
        invariant forall i :: i in loads[..n] ==>
                    i < |code| && InReach(code[i], start - i) && buffer.Code()[i] == PatchLoad(code[i], start - i)
      {
        var at := loadOffsets[n] / 4;
        assert at == loads[n] && loads[n] in loads;
        assert at !in loads[..n];
        buffer.Patch(at, PatchLoad(buffer.storage[at], start - at));
        assert loads[..n + 1] == loads[..n] + [at];
      }
      assert loads[..|loads|] == loads;
      assert buffer.Code() == PatchLoads(code, loads, start);
    }

    /** Bytes of padding in front of a pool placed here. */
    method PoolPadding(useBarrier: bool) returns (alignPool: nat)
      requires buffer.Valid()
      ensures alignPool == 4 * ((|buffer.Code()| + if useBarrier then 1 else 0) % 2)
    {
      alignPool := (buffer.index + if useBarrier then BARRIER_SIZE else 0) % 8;
      if alignPool != 0 {
        alignPool := 8 - alignPool;
      }
      PadBytes(buffer.index, buffer.index / 4, useBarrier);
    }

    method PlaceFront(useBarrier: bool, alignPool: nat)
      requires Separate() && buffer.Valid() && 0 < numConsts <= 510 && alignPool <= 4
      modifies buffer, buffer.storage
      ensures Separate() && buffer.Valid() && (buffer.storage == old(buffer.storage) || fresh(buffer.storage))
      ensures buffer.Code() == old(buffer.Code())
                               + (if useBarrier then [ConstantPoolBarrier(4 * numConsts + alignPool)] else [])
                               + (if alignPool != 0 then [PAD_FOR_ALIGN32] else [])
    {
      if useBarrier {
        buffer.PutWord(ConstantPoolBarrier(4 * numConsts + alignPool));
      }
      if alignPool != 0 {
        buffer.PutWord(PAD_FOR_ALIGN32);
      }
    }

    /** The part of flushConstantPool that emits: barrier, padding, pool. */
    method PlacePool(useBarrier: bool) returns (start: nat)
      requires Separate() && buffer.Valid() && 0 < numConsts <= 510
      modifies buffer, buffer.storage
      ensures Separate() && buffer.Valid() && (buffer.storage == old(buffer.storage) || fresh(buffer.storage))
      ensures buffer.Code() == WithPool(old(View()), useBarrier) && start == PoolStart(old(View()), useBarrier)
    {
      var alignPool := PoolPadding(useBarrier);
      PlaceFront(useBarrier, alignPool);
      start := buffer.index / 4;
      buffer.Append(pool, numConsts);
    }

    method EmptyPool()
      requires Separate() && buffer.Valid()
      modifies this`loadOffsets, this`numConsts
      ensures Separate() && View() == old(View()).(pool := [], reusable := [], loads := [])
    {
      loadOffsets := [];
      numConsts := 0;
    }

    /** The flush of a pool that is not empty. */
    method FlushPending(useBarrier: bool)
      requires Sound() && numConsts > 0
      modifies this`loadOffsets, this`numConsts, buffer, buffer.storage
      ensures Sound() && View() == Flush(old(View()), useBarrier)
      ensures buffer.storage == old(buffer.storage) || fresh(buffer.storage)
    {
      ghost var b := View();
      DeadlineSafety(b, useBarrier);
      var start := PlacePool(useBarrier);
      PatchWaitingLoads(start);
      EmptyPool();
    }

    method FlushConstantPool(useBarrier: bool)
      requires Sound()
      modifies this`loadOffsets, this`numConsts, buffer, buffer.storage
      ensures Sound() && View() == Flush(old(View()), useBarrier)
      ensures buffer.storage == old(buffer.storage) || fresh(buffer.storage)
      ensures IsFlushed(old(View()), View(), useBarrier)
    {
      FlushCases(View(), useBarrier);
      if numConsts == 0 { return; }
      FlushPending(useBarrier);
    }

    method FlushIfNoSpaceForInsn(nextInsnSize: nat)
      requires Sound()
      modifies this`loadOffsets, this`numConsts, buffer, buffer.storage
      ensures Sound() && View() == FlushIfNoSpaceFor(old(View()), nextInsnSize)
      ensures buffer.storage == old(buffer.storage) || fresh(buffer.storage)
    {
      if numConsts == 0 { return; }
      var delta := if lastConstDelta > nextInsnSize then lastConstDelta - nextInsnSize else 0;
      if maxDistance < nextInsnSize + delta + BARRIER_SIZE + 4 {
        FlushConstantPool(true);
      }
    }

    method FlushIfNoSpaceForBoth(nextInsnSize: nat, nextConstSize: nat)
      requires Sound()
      modifies this`loadOffsets, this`numConsts, buffer, buffer.storage
      ensures Sound() && View() == ConstantPool.EnsureSpace(old(View()), nextInsnSize, nextConstSize)
      ensures buffer.storage == old(buffer.storage) || fresh(buffer.storage)
    {
      if numConsts == 0 { return; }
      if || maxDistance < nextInsnSize + lastConstDelta + nextConstSize + BARRIER_SIZE + 4
         || numConsts * 4 + nextConstSize >= MAX_POOL_SIZE
      {
        FlushConstantPool(true);
      }
    }

    method EnsureSpace(insnSpace: nat, constSpace: nat)
      requires Sound()
      modifies this`loadOffsets, this`numConsts, buffer, buffer.storage
      ensures Sound() && View() == ConstantPool.EnsureSpace(old(View()), insnSpace, constSpace)
      ensures buffer.storage == old(buffer.storage) || fresh(buffer.storage)
    {
      FlushIfNoSpaceForBoth(insnSpace, constSpace);
      buffer.EnsureSpace(insnSpace);
    }

    method EnsureSpaceForAnyOneInstruction()
      requires Sound()
      modifies this`loadOffsets, this`numConsts, buffer, buffer.storage
      ensures Sound() && View() == ConstantPool.EnsureSpace(old(View()), MAX_INSTRUCTION_SIZE, 8)
      ensures buffer.storage == old(buffer.storage) || fresh(buffer.storage)
    {
      FlushIfNoSpaceForBoth(MAX_INSTRUCTION_SIZE, 8);
    }

    /** May flush, and then answers for the code with the pool in it. */
    method IsAligned(alignment: nat) returns (aligned: bool)
      requires Sound() && alignment > 0
      modifies this`loadOffsets, this`numConsts, buffer, buffer.storage
      ensures Sound() && View() == FlushIfNoSpaceFor(old(View()), alignment)
      ensures buffer.storage == old(buffer.storage) || fresh(buffer.storage)
      ensures aligned <==> Masked(4 * |View().code|, alignment - 1) == 0
    {
      FlushIfNoSpaceForInsn(alignment);
      aligned := buffer.IsAligned(alignment);
      WholeWords(buffer.index);
    }

    method PutInt(value: Word)
      requires Sound()
      modifies this`loadOffsets, this`numConsts, this`maxDistance, this`lastConstDelta, buffer, buffer.storage
      ensures Sound() && View() == ConstantPool.PutInt(old(View()), value)
      ensures buffer.storage == old(buffer.storage) || fresh(buffer.storage)
    {
      FlushIfNoSpaceForInsn(4);
      ghost var b := View();
      AppendKeepsValid(b, value);
      buffer.PutWord(value);
      CorrectBy(4);
      assert View() == CorrectDeltas(Append(b, value), 4);
    }

    /** Not for use but behind an unconditional jump. */
    method FlushWithoutBarrier(isForced: bool)
      requires Sound()
      modifies this`loadOffsets, this`numConsts, buffer, buffer.storage
      ensures Sound() && View() == ConstantPool.FlushWithoutBarrier(old(View()), isForced)
      ensures buffer.storage == old(buffer.storage) || fresh(buffer.storage)
    {
      if isForced || 5 * numConsts > 3 * MAX_POOL_SIZE / 4 {
        FlushConstantPool(false);
      }
    }

    /** The search loop of putIntegralWithConstantInt: an equal reusable entry, or numConsts. */
    method FindEntry(constant: Word) returns (k: nat)
      requires Separate() && buffer.Valid()
      ensures k == FindReusable(pool[..numConsts], IsReusable(mask[..numConsts]), constant, 0)
    {
      for i := 0 to numConsts
        invariant FindReusable(pool[..numConsts], IsReusable(mask[..numConsts]), constant, 0)
                  == FindReusable(pool[..numConsts], IsReusable(mask[..numConsts]), constant, i)
      {
        if mask[i] == ReusableConst && pool[i] == constant {
          return i;
        }
      }
      return numConsts;
    }

    /** The reset test. */
    method ResetIfEmpty()
      requires Sound()
      modifies this`maxDistance
      ensures Sound() && View() == ResetDistance(old(View()))
    {
      if numConsts == 0 {
        maxDistance := MAX_POOL_SIZE;
      }
      assert View() == ResetDistance(old(View()));
    }

    /** The search and the emission. */
    method PutWithConstant(insn: Word, constant: Word, isReusable: bool)
      requires Sound() && numConsts <= 510 && Valid(PutLoad(View(), insn, constant, isReusable))
      modifies this, buffer, buffer.storage, pool, mask
      ensures Sound() && View() == PutLoad(old(View()), insn, constant, isReusable)
      ensures buffer.storage == old(buffer.storage) || fresh(buffer.storage)
    {
      ghost var b := View();
      var k := numConsts;
      if isReusable {
        k := FindEntry(constant);
      }
      SharedOrFresh(b, insn, constant, isReusable, k);
      if k < numConsts {
        PutShared(insn, k);
      } else {
        PutFresh(insn, constant, isReusable);
      }
    }

    method PutIntWithConstantInt(insn: Word, constant: Word, isReusable: bool)
      requires Sound() && IsUp(insn)
      modifies this, buffer, buffer.storage, pool, mask
      ensures Sound() && View() == ConstantPool.PutIntWithConstantInt(old(View()), insn, constant, isReusable)
      ensures buffer.storage == old(buffer.storage) || fresh(buffer.storage)
    {
      ghost var b0 := View();
      ResetIfEmpty();
      FlushIfNoSpaceForBoth(4, 4);
      assert View() == BeforeConstant(b0);
      PutLoadKeepsValid(b0, insn, constant, isReusable);
      PutWithConstant(insn, constant, isReusable);
    }

    /** A load that shares an entry. */
    method PutShared(insn: Word, k: nat)
      requires Sound() && k < numConsts && numConsts <= 510
      modifies this`loadOffsets, this`maxDistance, this`lastConstDelta, buffer, buffer.storage
      ensures Separate() && buffer.Valid()
      ensures View() == CorrectDeltas(WithLoad(old(View()), insn, k), 4)
      ensures buffer.storage == old(buffer.storage) || fresh(buffer.storage)
    {
      ghost var b := View();
      loadOffsets := loadOffsets + [buffer.index];
      buffer.PutWord(TagLoad(insn, k));
      CorrectBy(4);
      assert InWords(loadOffsets) == b.loads + [|b.code|];
    }

    /** A new entry behind the others. */
    method AddEntry(constant: Word, isReusable: bool)
      requires Separate() && numConsts < POOL_CAPACITY
      modifies this`numConsts, pool, mask
      ensures Separate()
      ensures pool[..numConsts] == old(pool[..numConsts]) + [constant]
      ensures IsReusable(mask[..numConsts]) == IsReusable(old(mask[..numConsts])) + [isReusable]
    {
      pool[numConsts] := constant;
      mask[numConsts] := if isReusable then ReusableConst else UniqueConst;
      numConsts := numConsts + 1;
      assert mask[..numConsts] == old(mask[..numConsts]) + [if isReusable then ReusableConst else UniqueConst];
    }

    /** A load with an entry of its own. */
    method PutFresh(insn: Word, constant: Word, isReusable: bool)
      requires Sound() && numConsts <= 510
      modifies this, buffer, buffer.storage, pool, mask
      ensures Separate() && buffer.Valid()
      ensures var b := old(View());
              View() == CorrectDeltasForConstant(WithEntry(WithLoad(b, insn, |b.pool|), constant, isReusable), 4, 4)
      ensures buffer.storage == old(buffer.storage) || fresh(buffer.storage)
    {
      ghost var b := View();
      loadOffsets := loadOffsets + [buffer.index];
      buffer.PutWord(TagLoad(insn, numConsts));
      AddEntry(constant, isReusable);
      CorrectForConstant(4, 4);
      assert InWords(loadOffsets) == b.loads + [|b.code|];
    }
  }

  function WithLoad(b: Buffer, insn: Word, k: nat): Buffer
    requires k < 0x800
  {
    Append(b, TagLoad(insn, k)).(loads := b.loads + [|b.code|])
  }

  function WithEntry(b: Buffer, constant: Word, isReusable: bool): Buffer {
    b.(pool := b.pool + [constant], reusable := b.reusable + [isReusable])
  }

  lemma SharedOrFresh(b: Buffer, insn: Word, constant: Word, isReusable: bool, k: nat)
    requires Valid(b) && |b.pool| <= 510 && k == SlotFor(b, constant, isReusable)
    ensures k < |b.pool| ==> PutLoad(b, insn, constant, isReusable) == CorrectDeltas(WithLoad(b, insn, k), 4)
    ensures k == |b.pool| ==>
              PutLoad(b, insn, constant, isReusable)
              == CorrectDeltasForConstant(WithEntry(WithLoad(b, insn, k), constant, isReusable), 4, 4)
  {
  }

  lemma PadBytes(index: nat, words: nat, useBarrier: bool)
    requires index % 4 == 0 && words == index / 4
    ensures var rest := (index + if useBarrier then BARRIER_SIZE else 0) % 8;
            (if rest == 0 then 0 else 8 - rest) == 4 * ((words + if useBarrier then 1 else 0) % 2)
  {
  }

  lemma WholeWords(index: nat)
    requires index % 4 == 0
    ensures index == 4 * (index / 4)
  {
  }
}
