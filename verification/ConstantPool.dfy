/** The assembler buffer with an inline constant pool, as a value: what each operation
    turns a buffer into. The imperative class of PoolBuffer.dfy is proved to follow these
    functions. Code is counted in 4-byte words, distances are kept in bytes. */
module ConstantPool {
  import opened ArmEncoding

  const MAX_POOL_SIZE := 2048
  const BARRIER_SIZE := 4
  const MAX_INSTRUCTION_SIZE := 4

  /** `pool` and `reusable` are the used parts of m_pool and m_mask; `loads` holds the
      word positions of the loads still waiting for their pool. */
  datatype Buffer = Buffer(
    code: seq<Word>,
    pool: seq<Word>,
    reusable: seq<bool>,
    loads: seq<nat>,
    maxDistance: int,
    lastConstDelta: int)

  const EMPTY := Buffer([], [], [], [], MAX_POOL_SIZE, 0)

  // What is true of a buffer between any two operations.

  /** Every waiting load carries the tag of a slot of the pending pool. */
  predicate WaitingLoad(b: Buffer, p: nat) {
    && p < |b.code|
    && IsTagged(b.code[p]) && TagIndex(b.code[p]) < |b.pool|
    && IsUp(b.code[p])
  }

  /** The distance bookkeeping. m_maxDistance may be far too small (a flush inside a
      put of a constant leaves it stale, and a run of such puts drives it below zero),
      so it bounds the code since the first waiting load from one side only; the second
      bound is what keeps loads in reach. */
  predicate InTime(b: Buffer) {
    && (b.lastConstDelta == 0 || b.lastConstDelta == 4)
    && b.maxDistance <= MAX_POOL_SIZE
    && (b.loads != [] ==>
          && b.loads[0] < |b.code|
          && 4 * (|b.code| - b.loads[0]) <= MAX_POOL_SIZE - b.maxDistance
          && 4 * (|b.code| - b.loads[0]) <= MAX_POOL_SIZE - 8
          && |b.pool| <= |b.code| - b.loads[0])
  }

  predicate Valid(b: Buffer) {
    && |b.reusable| == |b.pool|
    && (b.pool == [] <==> b.loads == [])
    && (forall i, j :: 0 <= i < j < |b.loads| ==> b.loads[i] < b.loads[j])
    && (forall p :: p in b.loads ==> WaitingLoad(b, p))
    && InTime(b)
  }

  // Appending and bookkeeping.

  function CorrectDeltas(b: Buffer, insnSize: nat): Buffer {
    b.(maxDistance := b.maxDistance - insnSize,
       lastConstDelta := if b.lastConstDelta - insnSize < 0 then 0 else b.lastConstDelta - insnSize)
  }

  function CorrectDeltasForConstant(b: Buffer, insnSize: nat, constSize: nat): Buffer {
    var c := CorrectDeltas(b, insnSize);
    c.(maxDistance := c.maxDistance - c.lastConstDelta, lastConstDelta := constSize)
  }

  function Append(b: Buffer, w: Word): Buffer {
    b.(code := b.code + [w])
  }

  // Flushing.

  /** Words of padding that put the pool on an 8-byte boundary. */
  function PadWords(b: Buffer, useBarrier: bool): nat {
    (|b.code| + (if useBarrier then 1 else 0)) % 2
  }

  function PoolStart(b: Buffer, useBarrier: bool): nat {
    |b.code| + (if useBarrier then 1 else 0) + PadWords(b, useBarrier)
  }

  function Barrier(b: Buffer): Word
    requires 0 < |b.pool| <= 0x10000
  {
    ConstantPoolBarrier(4 * |b.pool| + 4 * PadWords(b, true))
  }

  /** The code with the pending pool behind it, loads not yet patched. */
  function WithPool(b: Buffer, useBarrier: bool): (code: seq<Word>)
    requires 0 < |b.pool| <= 0x10000
    ensures |code| == PoolStart(b, useBarrier) + |b.pool|
    ensures code[..|b.code|] == b.code
    ensures code[PoolStart(b, useBarrier)..] == b.pool
    ensures useBarrier ==> code[|b.code|] == Barrier(b)
  {
    b.code
    + (if useBarrier then [Barrier(b)] else [])
    + (if PadWords(b, useBarrier) == 1 then [PAD_FOR_ALIGN32] else [])
    + b.pool
  }

  /** Every listed load can be patched against a pool starting at `start`. */
  predicate Patchable(code: seq<Word>, loads: seq<nat>, start: nat) {
    forall p :: p in loads ==> p < |code| && InReach(code[p], start - p)
  }

  predicate LoadsPatched(code: seq<Word>, loads: seq<nat>, start: nat, patched: seq<Word>)
    requires Patchable(code, loads, start)
  {
    && |patched| == |code|
    && (forall i :: 0 <= i < |code| && i !in loads ==> patched[i] == code[i])
    && (forall i :: i in loads ==> patched[i] == PatchLoad(code[i], start - i))
  }

  function PatchLoads(code: seq<Word>, loads: seq<nat>, start: nat): (patched: seq<Word>)
    requires Patchable(code, loads, start)
    ensures LoadsPatched(code, loads, start, patched)
  {
    seq(|code|, i requires 0 <= i < |code| => if i in loads then PatchLoad(code[i], start - i) else code[i])
  }

  /** Deadline safety: in every valid state, stale or negative m_maxDistance included, a
      flush finds every waiting load within its 12-bit reach. */
  lemma DeadlineSafety(b: Buffer, useBarrier: bool)
    requires Valid(b) && b.pool != []
    ensures |b.pool| <= 510
    ensures Patchable(WithPool(b, useBarrier), b.loads, PoolStart(b, useBarrier))
  {
    var code, start := WithPool(b, useBarrier), PoolStart(b, useBarrier);
    forall p | p in b.loads
      ensures p < |code| && InReach(code[p], start - p)
    {
      assert WaitingLoad(b, p);
      assert code[p] == code[..|b.code|][p] == b.code[p];
      assert b.loads[0] <= p;
    }
  }

  function Flush(b: Buffer, useBarrier: bool): (r: Buffer)
    requires Valid(b)
    ensures Valid(r) && r.pool == []
  {
    if b.pool == [] then b
    else
      DeadlineSafety(b, useBarrier);
      b.(code := PatchLoads(WithPool(b, useBarrier), b.loads, PoolStart(b, useBarrier)),
         pool := [], reusable := [], loads := [])
  }

  /** A buffer and what a flush made of it, by lengths and words alone: the pool ends the
      code, on an even word, at most one word of padding behind the code and the barrier;
      the barrier jumps to the end; words that do not wait stay, and so do the counters. */
  predicate PoolPlaced(b: Buffer, r: Buffer, useBarrier: bool) {
    var front := |b.code| + (if useBarrier then 1 else 0);
    var start := |r.code| - |b.pool|;
    && start % 2 == 0 && front <= start <= front + 1
    && r.code[start..] == b.pool
    && (start == front + 1 ==> r.code[front] == 0xe12fff7f)
    && (useBarrier ==>
          var w := r.code[|b.code|];
          IsBranch(w) && CondField(w) == 0xe && |b.code| + BranchDistance(w) == |r.code|)
    && (forall i :: 0 <= i < |b.code| && i !in b.loads ==> r.code[i] == b.code[i])
    && r == Buffer(r.code, [], [], [], b.maxDistance, b.lastConstDelta)
  }

  lemma LoadsInside(b: Buffer)
    requires Valid(b)
    ensures forall p :: p in b.loads ==> p < |b.code|
  {
    forall p | p in b.loads ensures p < |b.code| {
      assert WaitingLoad(b, p);
    }
  }

  lemma PatchedPlaces(b: Buffer, code: seq<Word>, start: nat, patched: seq<Word>)
    requires Valid(b) && |b.code| <= start <= |code| && code[..|b.code|] == b.code && code[start..] == b.pool
    requires Patchable(code, b.loads, start) && LoadsPatched(code, b.loads, start, patched)
    ensures patched[start..] == b.pool
    ensures forall i :: |b.code| <= i < start ==> patched[i] == code[i]
    ensures forall i :: 0 <= i < |b.code| && i !in b.loads ==> patched[i] == b.code[i]
  {
    LoadsInside(b);
    assert patched[start..] == code[start..];
    forall i | 0 <= i < |b.code| && i !in b.loads ensures patched[i] == b.code[i] {
      assert code[i] == code[..|b.code|][i];
    }
  }

  /** The words between the code and the pool. */
  predicate Fronted(b: Buffer, code: seq<Word>, start: nat, useBarrier: bool) {
    var front := |b.code| + (if useBarrier then 1 else 0);
    && start % 2 == 0 && front <= start <= front + 1 && |code| == start + |b.pool| > start
    && (start == front + 1 ==> code[front] == 0xe12fff7f)
    && (useBarrier ==>
          var w := code[|b.code|];
          IsBranch(w) && CondField(w) == 0xe && |b.code| + BranchDistance(w) == |code|)
  }

  lemma StartIsEven(front: nat, start: nat)
    requires start == front + front % 2
    ensures start % 2 == 0 && front <= start <= front + 1
  {
  }

  lemma WithPoolIsFronted(b: Buffer, useBarrier: bool)
    requires 0 < |b.pool| <= 510
    ensures Fronted(b, WithPool(b, useBarrier), PoolStart(b, useBarrier), useBarrier)
  {
    var code, start := WithPool(b, useBarrier), PoolStart(b, useBarrier);
    StartIsEven(|b.code| + (if useBarrier then 1 else 0), start);
    if useBarrier {
      BranchFields(AL, |code| - |b.code|);
    }
  }

  lemma PlacedFrom(b: Buffer, code: seq<Word>, start: nat, r: Buffer, useBarrier: bool)
    requires Valid(b) && Fronted(b, code, start, useBarrier) && code[..|b.code|] == b.code && code[start..] == b.pool
    requires Patchable(code, b.loads, start) && LoadsPatched(code, b.loads, start, r.code)
    requires r == b.(code := r.code, pool := [], reusable := [], loads := [])
    ensures PoolPlaced(b, r, useBarrier)
  {
    PatchedPlaces(b, code, start, r.code);
  }

  /** Wherever a pool is flushed, it lies on an 8-byte boundary right behind the code. */
  lemma FlushPlaces(b: Buffer, useBarrier: bool)
    requires Valid(b) && b.pool != []
    ensures PoolPlaced(b, Flush(b, useBarrier), useBarrier)
  {
    DeadlineSafety(b, useBarrier);
    WithPoolIsFronted(b, useBarrier);
    PlacedFrom(b, WithPool(b, useBarrier), PoolStart(b, useBarrier), Flush(b, useBarrier), useBarrier);
  }

  predicate IsFlushed(b: Buffer, r: Buffer, useBarrier: bool) {
    if b.pool == [] then r == b else PoolPlaced(b, r, useBarrier)
  }

  lemma FlushCases(b: Buffer, useBarrier: bool)
    requires Valid(b)
    ensures IsFlushed(b, Flush(b, useBarrier), useBarrier)
  {
    if b.pool != [] {
      FlushPlaces(b, useBarrier);
    }
  }

  predicate NoSpaceFor(b: Buffer, insnSize: nat) {
    var delta := if b.lastConstDelta > insnSize then b.lastConstDelta - insnSize else 0;
    b.pool != [] && b.maxDistance < insnSize + delta + BARRIER_SIZE + 4
  }

  predicate NoSpaceForConstant(b: Buffer, insnSize: nat, constSize: nat) {
    b.pool != [] &&
    (|| b.maxDistance < insnSize + b.lastConstDelta + constSize + BARRIER_SIZE + 4
     || 4 * |b.pool| + constSize >= MAX_POOL_SIZE)
  }

  function FlushWhen(b: Buffer, full: bool): (r: Buffer)
    requires Valid(b)
    ensures Valid(r)
    ensures full ==> r.pool == []
    ensures !full ==> r == b
  {
    if full then Flush(b, true) else b
  }

  function FlushIfNoSpaceFor(b: Buffer, insnSize: nat): (r: Buffer)
    requires Valid(b)
    ensures Valid(r) && !NoSpaceFor(r, insnSize)
  {
    FlushWhen(b, NoSpaceFor(b, insnSize))
  }

  function EnsureSpace(b: Buffer, insnSize: nat, constSize: nat): (r: Buffer)
    requires Valid(b)
    ensures Valid(r) && !NoSpaceForConstant(r, insnSize, constSize)
  {
    FlushWhen(b, NoSpaceForConstant(b, insnSize, constSize))
  }

  /** The non-barrier flush for use behind an unconditional jump: only when the pool is
      more than 60% full, or when forced. */
  predicate WorthFlushing(b: Buffer, isForced: bool) {
    isForced || 5 * |b.pool| > 3 * MAX_POOL_SIZE / 4
  }

  /** That is: the constants fill more than 60 of 100 parts of the 2048 bytes. */
  lemma WorthFlushingIff(b: Buffer, isForced: bool)
    requires Valid(b)
    ensures FlushWithoutBarrier(b, isForced)
            == if isForced || 100 * (4 * |b.pool|) > 60 * 2048 then Flush(b, false) else b
  {
  }

  function FlushWithoutBarrier(b: Buffer, isForced: bool): (r: Buffer)
    requires Valid(b)
    ensures Valid(r)
  {
    if WorthFlushing(b, isForced) then Flush(b, false) else b
  }

  // Emission.

  function PutInt(b: Buffer, w: Word): (r: Buffer)
    requires Valid(b)
    ensures Valid(r)
  {
    var c := FlushIfNoSpaceFor(b, 4);
    AppendKeepsValid(c, w);
    CorrectDeltas(Append(c, w), 4)
  }

  lemma AppendKeepsValid(b: Buffer, w: Word)
    requires Valid(b) && !NoSpaceFor(b, 4)
    ensures Valid(CorrectDeltas(Append(b, w), 4))
  {
    var r := CorrectDeltas(Append(b, w), 4);
    forall p | p in r.loads ensures WaitingLoad(r, p) {
      assert WaitingLoad(b, p);
    }
  }

  /** Index of the first reusable slot from i on that holds the constant, or |pool|. */
  function FindReusable(pool: seq<Word>, reusable: seq<bool>, constant: Word, i: nat): (k: nat)
    requires |reusable| == |pool| && i <= |pool|
    ensures i <= k <= |pool|
    ensures k < |pool| ==> reusable[k] && pool[k] == constant
    ensures forall j :: i <= j < k ==> !(reusable[j] && pool[j] == constant)
    decreases |pool| - i
  {
    if i == |pool| || (reusable[i] && pool[i] == constant) then i
    else FindReusable(pool, reusable, constant, i + 1)
  }

  /** The slot a load of this constant gets: an equal reusable one, or a fresh one. */
  function SlotFor(b: Buffer, constant: Word, isReusable: bool): (k: nat)
    requires Valid(b)
    ensures k <= |b.pool|
  {
    if isReusable then FindReusable(b.pool, b.reusable, constant, 0) else |b.pool|
  }

  /** The reset that precedes the flush test: a pool that starts here has its full distance. */
  function ResetDistance(b: Buffer): (r: Buffer)
    ensures Valid(b) ==> Valid(r)
  {
    if b.pool == [] then b.(maxDistance := MAX_POOL_SIZE) else b
  }

  function BeforeConstant(b: Buffer): (r: Buffer)
    requires Valid(b)
    ensures Valid(r) && |r.pool| <= 510 && !NoSpaceForConstant(r, 4, 4)
  {
    var r := EnsureSpace(ResetDistance(b), 4, 4);
    r
  }

  function PutLoad(b: Buffer, load: Word, constant: Word, isReusable: bool): (r: Buffer)
    requires Valid(b) && |b.pool| <= 510
  {
    var k := SlotFor(b, constant, isReusable);
    var c := Append(b, TagLoad(load, k)).(loads := b.loads + [|b.code|]);
    if k < |b.pool| then CorrectDeltas(c, 4)
    else
      CorrectDeltasForConstant(c.(pool := b.pool + [constant], reusable := b.reusable + [isReusable]), 4, 4)
  }

  function PutIntWithConstantInt(b: Buffer, load: Word, constant: Word, isReusable: bool): (r: Buffer)
    requires Valid(b) && IsUp(load)
    ensures Valid(r)
  {
    PutLoadKeepsValid(b, load, constant, isReusable);
    PutLoad(BeforeConstant(b), load, constant, isReusable)
  }

  lemma TagFields(load: Word, index: nat)
    requires IsUp(load) && index < 0x800
    ensures IsTagged(TagLoad(load, index)) && TagIndex(TagLoad(load, index)) == index && IsUp(TagLoad(load, index))
  {
    var w := TagLoad(load, index);
    assert w / 0x1000 == load / 0x1000;
    assert w / DT_UP == load / 0x1000 / 0x800;
  }

  /** A waiting load still waits when code and pool have grown. */
  predicate Grown(b: Buffer, r: Buffer) {
    && |b.code| <= |r.code| && r.code[..|b.code|] == b.code
    && |b.pool| <= |r.pool|
  }

  lemma StillWaits(b: Buffer, r: Buffer, p: nat)
    requires Grown(b, r) && WaitingLoad(b, p)
    ensures WaitingLoad(r, p)
  {
    assert r.code[p] == r.code[..|b.code|][p];
  }

  /** The new load, and those before it, carry the tags of their slots. */
  lemma AllWait(b: Buffer, r: Buffer, w: Word, k: nat)
    requires Valid(b) && Grown(b, r) && r.code == b.code + [w] && r.loads == b.loads + [|b.code|]
    requires IsTagged(w) && TagIndex(w) == k && IsUp(w) && k < |r.pool|
    ensures forall p :: p in r.loads ==> WaitingLoad(r, p)
    ensures forall i, j :: 0 <= i < j < |r.loads| ==> r.loads[i] < r.loads[j]
  {
    forall p | p in r.loads ensures WaitingLoad(r, p) {
      if p != |b.code| {
        StillWaits(b, r, p);
      }
    }
    forall i | 0 <= i < |b.loads| ensures b.loads[i] < |b.code| {
      assert WaitingLoad(b, b.loads[i]);
    }
  }

  lemma LoadKeepsValid(b: Buffer, load: Word, constant: Word, isReusable: bool)
    requires Valid(b) && |b.pool| <= 510 && IsUp(load) && !NoSpaceForConstant(b, 4, 4)
    ensures Valid(PutLoad(b, load, constant, isReusable))
  {
    var k := SlotFor(b, constant, isReusable);
    var r := PutLoad(b, load, constant, isReusable);
    TagFields(load, k);
    AllWait(b, r, TagLoad(load, k), k);
  }

  lemma PutLoadKeepsValid(b0: Buffer, load: Word, constant: Word, isReusable: bool)
    requires Valid(b0) && IsUp(load)
    ensures Valid(PutLoad(BeforeConstant(b0), load, constant, isReusable))
  {
    LoadKeepsValid(BeforeConstant(b0), load, constant, isReusable);
  }
}
