/** What the caller asked for, beside what stands in the buffer. A trace lists the
    instructions in program order, where each was put, which slot each constant load
    reads, and what every word of the code is. `Inv` ties it to the buffer; each
    operation on the buffer has a lemma saying that it keeps the tie. */
module Trace {
  import opened ArmEncoding
  import opened ConstantPool

  datatype Option<T> = None | Some(value: T)

  /** A place handed out by label(): word `at` of the code, standing for instruction
      `index` of the program. */
  datatype Label = Label(at: nat, index: nat)

  datatype Item =
    | Plain(word: Word)
    | Load(cc: Cond, rd: Reg, value: Word, reusable: bool, target: Option<Label>)

  datatype Slot = NoSlot | InPool(index: nat) | InCode(at: nat)

  datatype Kind = Insn | Barrier | Pad | Data

  datatype Trace = Trace(prog: seq<Item>, pos: seq<nat>, slot: seq<Slot>, kinds: seq<Kind>)

  const START := Trace([], [], [], [])

  /** The number a load must find in its slot: the offset of its target once linked. */
  function SlotValue(item: Item): Word
    requires item.Load?
  {
    match item.target
    case None => item.value
    case Some(dest) => 4 * dest.at % WORD_LIMIT
  }

  /** Control never falls from this instruction into the next word. */
  predicate Transfers(item: Item) {
    match item
    case Plain(w) => IsReturn(w)
    case Load(cc, rd, _, _, _) => cc == AL && rd == PC
  }

  // The tie.

  predicate Shape(b: Buffer, t: Trace) {
    && |t.pos| == |t.slot| == |t.prog|
    && |t.kinds| == |b.code|
    && (forall k :: 0 <= k < |t.pos| ==> t.pos[k] < |b.code|)
  }

  predicate InOrder(t: Trace) {
    forall j, k :: 0 <= j < k < |t.pos| ==> t.pos[j] < t.pos[k]
  }

  predicate OnInsn(b: Buffer, t: Trace)
    requires Shape(b, t)
  {
    && (forall k :: 0 <= k < |t.pos| ==> t.kinds[t.pos[k]] == Insn)
    && (forall p :: p in b.loads ==> p < |b.code| && t.kinds[p] == Insn)
  }

  /** Instruction k stands in the code, and if it is a constant load then the slot it
      reads, still pending or already placed, holds its constant. */
  predicate ItemInPlace(b: Buffer, t: Trace, k: nat)
    requires Shape(b, t) && k < |t.prog|
  {
    var p := t.pos[k];
    match t.prog[k]
    case Plain(w) => IsPlain(w) && b.code[p] == w && t.slot[k] == NoSlot && p !in b.loads
    case Load(cc, rd, value, reusable, target) =>
      match t.slot[k]
      case NoSlot => false
      case InPool(i) =>
        && p in b.loads && i < |b.pool| && i < 0x800 && |b.reusable| == |b.pool|
        && b.pool[i] == SlotValue(t.prog[k]) && b.reusable[i] == reusable
        && b.code[p] == TaggedLoad(cc, rd, i)
      case InCode(a) =>
        && p !in b.loads && p < a < |b.code| && a - p <= 1025
        && t.kinds[a] == Data && b.code[a] == SlotValue(t.prog[k])
        && b.code[p] == PlacedLoad(cc, rd, a - p)
  }

  predicate AllInPlace(b: Buffer, t: Trace)
    requires Shape(b, t)
  {
    forall k :: 0 <= k < |t.prog| ==> ItemInPlace(b, t, k)
  }

  /** Only reusable loads share a slot, and those are never linked. */
  predicate Sharing(t: Trace) {
    && (forall j, k :: 0 <= j < k < |t.prog| && j < |t.slot| && k < |t.slot| && t.slot[j] == t.slot[k] && t.slot[j] != NoSlot ==>
          && t.prog[j].Load? && t.prog[j].reusable && t.prog[k].Load? && t.prog[k].reusable)
    && (forall k :: 0 <= k < |t.prog| && t.prog[k].Load? && t.prog[k].reusable ==> t.prog[k].target == None)
  }

  function Pos(b: Buffer, t: Trace, k: nat): nat {
    if k < |t.pos| then t.pos[k] else |b.code|
  }

  /** Word c is a barrier that jumps to word d, the first one behind its pool. */
  predicate Hops(b: Buffer, t: Trace, c: nat, d: nat) {
    && c < |b.code| == |t.kinds| && t.kinds[c] == Barrier
    && c + 2 <= d <= |b.code| && BranchReaches(d - c)
    && b.code[c] == Branch(AL, d - c)
    && t.kinds[d - 1] == Data
  }

  /** Control arriving at word c goes on with instruction k, directly or over one pool. */
  predicate Falls(b: Buffer, t: Trace, c: nat, k: nat) {
    k <= |t.prog| && (c == Pos(b, t, k) || Hops(b, t, c, Pos(b, t, k)))
  }

  predicate FlowsOn(b: Buffer, t: Trace, k: nat)
    requires Shape(b, t) && k < |t.prog|
  {
    Transfers(t.prog[k]) || Falls(b, t, t.pos[k] + 1, k + 1)
  }

  predicate Flow(b: Buffer, t: Trace)
    requires Shape(b, t)
  {
    Falls(b, t, 0, 0) && forall k :: 0 <= k < |t.prog| ==> FlowsOn(b, t, k)
  }

  predicate LabelsHold(b: Buffer, t: Trace, labels: set<Label>) {
    && (forall l :: l in labels ==> Falls(b, t, l.at, l.index))
    && (forall k :: 0 <= k < |t.prog| && t.prog[k].Load? && t.prog[k].target.Some? ==> t.prog[k].target.value in labels)
  }

  /** While constants are pending, the last word is an instruction. */
  predicate TailIsInsn(b: Buffer, t: Trace) {
    b.pool != [] ==> |t.pos| > 0 && t.pos[|t.pos| - 1] == |b.code| - 1
  }

  predicate Inv(b: Buffer, t: Trace, labels: set<Label>) {
    && Valid(b)
    && Shape(b, t) && InOrder(t) && OnInsn(b, t)
    && AllInPlace(b, t) && Sharing(t)
    && Flow(b, t) && LabelsHold(b, t, labels) && TailIsInsn(b, t)
  }

  // Flushing.

  function PlaceSlot(slot: Slot, start: nat): Slot {
    if slot.InPool? then InCode(start + slot.index) else slot
  }

  function TraceFlush(b: Buffer, t: Trace, useBarrier: bool): Trace {
    if b.pool == [] then t
    else
      Trace(
        t.prog, t.pos,
        seq(|t.slot|, k requires 0 <= k < |t.slot| => PlaceSlot(t.slot[k], PoolStart(b, useBarrier))),
        t.kinds
        + (if useBarrier then [Barrier] else [])
        + (if PadWords(b, useBarrier) == 1 then [Pad] else [])
        + seq(|b.pool|, _ => Data))
  }

  /** What a flush does to the buffer and to the trace, word by word and slot by slot. */
  predicate CodeFlushed(b: Buffer, b': Buffer, start: nat, useBarrier: bool) {
    && |b.code| <= start && |b'.code| == start + |b.pool|
    && b'.pool == [] && b'.loads == []
    && (forall i :: 0 <= i < |b.code| && i !in b.loads ==> b'.code[i] == b.code[i])
    && (forall i :: i in b.loads ==> i < |b.code| && InReach(b.code[i], start - i) && b'.code[i] == PatchLoad(b.code[i], start - i))
    && (forall i {:trigger b.pool[i]} :: 0 <= i < |b.pool| ==> b'.code[start + i] == b.pool[i])
    && (useBarrier ==>
          && |b.code| < start && BranchReaches(|b'.code| - |b.code|)
          && b'.code[|b.code|] == Branch(AL, |b'.code| - |b.code|))
  }

  predicate TraceFlushed(b: Buffer, t: Trace, t': Trace, start: nat, useBarrier: bool) {
    && t'.prog == t.prog && t'.pos == t.pos
    && |t'.slot| == |t.slot| && (forall k :: 0 <= k < |t.slot| ==> t'.slot[k] == PlaceSlot(t.slot[k], start))
    && |t.kinds| == |b.code| <= start && |t'.kinds| == start + |b.pool|
    && (forall i {:trigger t.kinds[i]} {:trigger t'.kinds[i]} :: 0 <= i < |t.kinds| ==> t'.kinds[i] == t.kinds[i])
    && (forall a {:trigger t'.kinds[a]} :: start <= a < |t'.kinds| ==> t'.kinds[a] == Data)
    && (useBarrier ==> |b.code| < start && t'.kinds[|b.code|] == Barrier)
  }

  predicate PoolAppended(b: Buffer, code: seq<Word>, start: nat, useBarrier: bool) {
    && |b.code| <= start && |code| == start + |b.pool|
    && (forall i :: 0 <= i < |b.code| ==> code[i] == b.code[i])
    && (forall i {:trigger b.pool[i]} :: 0 <= i < |b.pool| ==> code[start + i] == b.pool[i])
    && (useBarrier ==>
          && |b.code| < start && BranchReaches(|code| - |b.code|)
          && code[|b.code|] == Branch(AL, |code| - |b.code|))
  }

  lemma WithPoolWords(b: Buffer, useBarrier: bool)
    requires 0 < |b.pool| <= 510
    ensures PoolAppended(b, WithPool(b, useBarrier), PoolStart(b, useBarrier), useBarrier)
  {
    var code, start := WithPool(b, useBarrier), PoolStart(b, useBarrier);
    SamePrefix(code, b.code);
    SameSuffix(code, start, b.pool);
  }

  lemma SamePrefix(code: seq<Word>, front: seq<Word>)
    requires |front| <= |code| && code[..|front|] == front
    ensures forall i :: 0 <= i < |front| ==> code[i] == front[i]
  {
    forall i | 0 <= i < |front| ensures code[i] == front[i] {
      assert code[i] == code[..|front|][i];
    }
  }

  lemma SameSuffix(code: seq<Word>, start: nat, pool: seq<Word>)
    requires start <= |code| && code[start..] == pool
    ensures forall i {:trigger pool[i]} :: 0 <= i < |pool| ==> code[start + i] == pool[i]
  {
    forall i {:trigger pool[i]} | 0 <= i < |pool| ensures code[start + i] == pool[i] {
      assert code[start + i] == code[start..][i];
    }
  }

  lemma PatchedWords(b: Buffer, code: seq<Word>, b': Buffer, start: nat, useBarrier: bool)
    requires Valid(b) && PoolAppended(b, code, start, useBarrier)
    requires Patchable(code, b.loads, start) && LoadsPatched(code, b.loads, start, b'.code)
    requires b'.pool == [] && b'.loads == []
    ensures CodeFlushed(b, b', start, useBarrier)
  {
    LoadsInside(b);
  }

  lemma FlushedCode(b: Buffer, useBarrier: bool)
    requires Valid(b) && b.pool != []
    ensures CodeFlushed(b, Flush(b, useBarrier), PoolStart(b, useBarrier), useBarrier)
  {
    DeadlineSafety(b, useBarrier);
    WithPoolWords(b, useBarrier);
    var b' := Flush(b, useBarrier);
    PatchedWords(b, WithPool(b, useBarrier), b', PoolStart(b, useBarrier), useBarrier);
  }

  lemma FlushedTrace(b: Buffer, t: Trace, useBarrier: bool)
    requires b.pool != [] && Shape(b, t)
    ensures TraceFlushed(b, t, TraceFlush(b, t, useBarrier), PoolStart(b, useBarrier), useBarrier)
  {
  }

  lemma FlushKeepsItem(b: Buffer, t: Trace, b': Buffer, t': Trace, start: nat, useBarrier: bool, k: nat)
    requires CodeFlushed(b, b', start, useBarrier) && TraceFlushed(b, t, t', start, useBarrier)
    requires Shape(b, t) && OnInsn(b, t) && Shape(b', t')
    requires k < |t.prog| && ItemInPlace(b, t, k)
    ensures ItemInPlace(b', t', k)
  {
    var p := t.pos[k];
    if t.prog[k].Load? {
      assert t'.slot[k] == PlaceSlot(t.slot[k], start);
      if t.slot[k].InPool? {
        PatchThenRead(t.prog[k].cc, t.prog[k].rd, t.slot[k].index, start - p);
        assert b'.code[start + t.slot[k].index] == b.pool[t.slot[k].index];
      }
    }
  }

  lemma FlushKeepsSharing(b: Buffer, t: Trace, t': Trace, start: nat, useBarrier: bool)
    requires TraceFlushed(b, t, t', start, useBarrier)
    requires Shape(b, t) && AllInPlace(b, t) && Sharing(t)
    ensures Sharing(t')
  {
    forall j, k | 0 <= j < k < |t'.prog| && t'.slot[j] == t'.slot[k] && t'.slot[j] != NoSlot
      ensures t.prog[j].Load? && t.prog[j].reusable && t.prog[k].Load? && t.prog[k].reusable
    {
      assert ItemInPlace(b, t, j) && ItemInPlace(b, t, k);
      assert t.slot[j] == t.slot[k];
    }
  }

  /** A barrier moves the end of the code, and everything that fell off it, behind the
      pool; places inside the code are not disturbed. */
  lemma FlushKeepsFalls(b: Buffer, t: Trace, b': Buffer, t': Trace, start: nat, useBarrier: bool, c: nat, k: nat)
    requires CodeFlushed(b, b', start, useBarrier) && TraceFlushed(b, t, t', start, useBarrier)
    requires Shape(b, t) && OnInsn(b, t) && TailIsInsn(b, t) && b.pool != []
    requires Falls(b, t, c, k) && (useBarrier || k < |t.prog|)
    ensures Falls(b', t', c, k)
  {
    assert t.kinds[|b.code| - 1] == Insn;
    if c == |b.code| {
      assert t'.kinds[|b'.code| - 1] == Data;
    }
  }

  /** A flush without barrier is harmless where control cannot arrive at the end. */
  predicate EndUnreachable(t: Trace, labels: set<Label>) {
    |t.prog| > 0 && Transfers(t.prog[|t.prog| - 1]) && forall l :: l in labels ==> l.index < |t.prog|
  }

  lemma FlushKeepsFlow(b: Buffer, t: Trace, b': Buffer, t': Trace, labels: set<Label>, start: nat, useBarrier: bool)
    requires CodeFlushed(b, b', start, useBarrier) && TraceFlushed(b, t, t', start, useBarrier)
    requires Shape(b, t) && Shape(b', t') && OnInsn(b, t) && TailIsInsn(b, t) && b.pool != []
    requires Flow(b, t) && LabelsHold(b, t, labels)
    requires useBarrier || EndUnreachable(t, labels)
    ensures Flow(b', t') && LabelsHold(b', t', labels)
  {
    FlushKeepsFalls(b, t, b', t', start, useBarrier, 0, 0);
    forall k | 0 <= k < |t.prog| ensures FlowsOn(b', t', k) {
      assert FlowsOn(b, t, k);
      if !Transfers(t.prog[k]) {
        FlushKeepsFalls(b, t, b', t', start, useBarrier, t.pos[k] + 1, k + 1);
      }
    }
    forall l | l in labels ensures Falls(b', t', l.at, l.index) {
      FlushKeepsFalls(b, t, b', t', start, useBarrier, l.at, l.index);
    }
  }

  lemma FlushKeepsInv(b: Buffer, t: Trace, labels: set<Label>, useBarrier: bool)
    requires Inv(b, t, labels)
    requires useBarrier || b.pool == [] || EndUnreachable(t, labels)
    ensures Inv(Flush(b, useBarrier), TraceFlush(b, t, useBarrier), labels)
  {
    if b.pool != [] {
      var b', t', start := Flush(b, useBarrier), TraceFlush(b, t, useBarrier), PoolStart(b, useBarrier);
      FlushedCode(b, useBarrier);
      FlushedTrace(b, t, useBarrier);
      FlushRelKeepsInv(b, t, b', t', labels, start, useBarrier);
    }
  }

  lemma FlushRelKeepsInv(b: Buffer, t: Trace, b': Buffer, t': Trace, labels: set<Label>, start: nat, useBarrier: bool)
    requires CodeFlushed(b, b', start, useBarrier) && TraceFlushed(b, t, t', start, useBarrier)
    requires Inv(b, t, labels) && Valid(b') && b.pool != []
    requires useBarrier || EndUnreachable(t, labels)
    ensures Inv(b', t', labels)
  {
    assert Shape(b', t') && OnInsn(b', t');
    forall k | 0 <= k < |t.prog| ensures ItemInPlace(b', t', k) {
      assert ItemInPlace(b, t, k);
      FlushKeepsItem(b, t, b', t', start, useBarrier, k);
    }
    FlushKeepsSharing(b, t, t', start, useBarrier);
    FlushKeepsFlow(b, t, b', t', labels, start, useBarrier);
  }

  // Appending an instruction.

  function TraceAppend(t: Trace, at: nat, item: Item, slot: Slot): Trace {
    Trace(t.prog + [item], t.pos + [at], t.slot + [slot], t.kinds + [Insn])
  }

  /** One more word; the pending pool and the list of waiting loads may grow with it. */
  predicate CodeAppended(b: Buffer, b': Buffer) {
    && |b'.code| == |b.code| + 1 && b'.code[..|b.code|] == b.code
    && |b.pool| <= |b'.pool| && b'.pool[..|b.pool|] == b.pool
    && |b.reusable| <= |b'.reusable| && b'.reusable[..|b.reusable|] == b.reusable
    && (forall p :: p in b.loads ==> p in b'.loads)
    && (forall p :: p in b'.loads ==> p in b.loads || p == |b.code|)
  }

  predicate MayShare(t: Trace, item: Item, slot: Slot) {
    && (item.Load? ==> item.target == None)
    && (slot != NoSlot ==> item.Load?)
    && (forall j :: 0 <= j < |t.prog| && j < |t.slot| && t.slot[j] == slot && slot != NoSlot ==>
          item.Load? && item.reusable && t.prog[j].Load? && t.prog[j].reusable)
  }

  lemma AppendKeepsItem(b: Buffer, t: Trace, b': Buffer, item: Item, slot: Slot, k: nat)
    requires CodeAppended(b, b') && Shape(b, t) && |b.reusable| == |b.pool| && |b'.reusable| == |b'.pool|
    requires k < |t.prog| && ItemInPlace(b, t, k)
    ensures Shape(b', TraceAppend(t, |b.code|, item, slot))
    ensures ItemInPlace(b', TraceAppend(t, |b.code|, item, slot), k)
  {
    assert forall i :: 0 <= i < |b.code| ==> b'.code[i] == b'.code[..|b.code|][i];
    assert forall i :: 0 <= i < |b.pool| ==> b'.pool[i] == b'.pool[..|b.pool|][i];
    assert forall i :: 0 <= i < |b.reusable| ==> b'.reusable[i] == b'.reusable[..|b.reusable|][i];
  }

  lemma AppendKeepsFalls(b: Buffer, t: Trace, b': Buffer, item: Item, slot: Slot, c: nat, k: nat)
    requires CodeAppended(b, b') && Shape(b, t) && Falls(b, t, c, k)
    ensures Falls(b', TraceAppend(t, |b.code|, item, slot), c, k)
  {
    assert forall i :: 0 <= i < |b.code| ==> b'.code[i] == b'.code[..|b.code|][i];
  }

  lemma AppendKeepsFlow(b: Buffer, t: Trace, b': Buffer, labels: set<Label>, item: Item, slot: Slot)
    requires CodeAppended(b, b') && Shape(b, t) && Shape(b', TraceAppend(t, |b.code|, item, slot))
    requires Flow(b, t) && LabelsHold(b, t, labels) && MayShare(t, item, slot)
    ensures Flow(b', TraceAppend(t, |b.code|, item, slot))
    ensures LabelsHold(b', TraceAppend(t, |b.code|, item, slot), labels)
  {
    var t' := TraceAppend(t, |b.code|, item, slot);
    AppendKeepsFalls(b, t, b', item, slot, 0, 0);
    forall k | 0 <= k < |t'.prog| ensures FlowsOn(b', t', k) {
      if k < |t.prog| {
        assert FlowsOn(b, t, k);
        if !Transfers(t.prog[k]) {
          AppendKeepsFalls(b, t, b', item, slot, t.pos[k] + 1, k + 1);
        }
      } else {
        assert Pos(b', t', k + 1) == |b'.code|;
      }
    }
    forall l | l in labels ensures Falls(b', t', l.at, l.index) {
      AppendKeepsFalls(b, t, b', item, slot, l.at, l.index);
    }
  }

  lemma AppendKeepsItems(b: Buffer, t: Trace, b': Buffer, item: Item, slot: Slot)
    requires CodeAppended(b, b') && Shape(b, t) && |b.reusable| == |b.pool| && |b'.reusable| == |b'.pool| && AllInPlace(b, t)
    requires Shape(b', TraceAppend(t, |b.code|, item, slot))
    requires ItemInPlace(b', TraceAppend(t, |b.code|, item, slot), |t.prog|)
    ensures AllInPlace(b', TraceAppend(t, |b.code|, item, slot))
  {
    var t' := TraceAppend(t, |b.code|, item, slot);
    forall k | 0 <= k < |t'.prog| ensures ItemInPlace(b', t', k) {
      if k < |t.prog| {
        assert ItemInPlace(b, t, k);
        AppendKeepsItem(b, t, b', item, slot, k);
      }
    }
  }

  lemma AppendKeepsSharing(t: Trace, at: nat, item: Item, slot: Slot)
    requires Sharing(t) && |t.slot| == |t.prog| && MayShare(t, item, slot)
    ensures Sharing(TraceAppend(t, at, item, slot))
  {
  }

  lemma AppendKeepsInv(b: Buffer, t: Trace, b': Buffer, labels: set<Label>, item: Item, slot: Slot)
    requires Inv(b, t, labels) && Valid(b') && CodeAppended(b, b') && MayShare(t, item, slot)
    requires Shape(b', TraceAppend(t, |b.code|, item, slot))
    requires ItemInPlace(b', TraceAppend(t, |b.code|, item, slot), |t.prog|)
    ensures Inv(b', TraceAppend(t, |b.code|, item, slot), labels)
  {
    AppendKeepsItems(b, t, b', item, slot);
    AppendKeepsFlow(b, t, b', labels, item, slot);
    AppendKeepsSharing(t, |b.code|, item, slot);
  }

  // Handing out a label.

  lemma LabelKeepsInv(b: Buffer, t: Trace, labels: set<Label>)
    requires Inv(b, t, labels)
    ensures Inv(b, t, labels + {Label(|b.code|, |t.prog|)})
  {
  }

  // Linking.

  /** The slot of a load that is given a target. */
  function WriteSlot(b: Buffer, slot: Slot, value: Word): Buffer
    requires match slot
             case NoSlot => false
             case InPool(i) => i < |b.pool|
             case InCode(a) => a < |b.code|
  {
    match slot
    case InPool(i) => b.(pool := b.pool[i := value])
    case InCode(a) => b.(code := b.code[a := value])
  }

  predicate Linkable(b: Buffer, t: Trace, k: nat)
    requires Shape(b, t)
  {
    k < |t.prog| && t.prog[k].Load? && !t.prog[k].reusable && ItemInPlace(b, t, k)
  }

  function TraceLink(t: Trace, k: nat, dest: Label): Trace
    requires k < |t.prog| && t.prog[k].Load?
  {
    t.(prog := t.prog[k := t.prog[k].(target := Some(dest))])
  }

  function LinkItem(b: Buffer, t: Trace, k: nat, dest: Label): Buffer
    requires Shape(b, t) && Linkable(b, t, k)
  {
    WriteSlot(b, t.slot[k], 4 * dest.at % WORD_LIMIT)
  }

  /** Linking one load leaves every other load with the slot and the value it had. */
  lemma LinkKeepsItem(b: Buffer, t: Trace, k: nat, dest: Label, j: nat)
    requires Shape(b, t) && OnInsn(b, t) && Sharing(t) && Linkable(b, t, k)
    requires j < |t.prog| && ItemInPlace(b, t, j)
    ensures Shape(LinkItem(b, t, k, dest), TraceLink(t, k, dest))
    ensures ItemInPlace(LinkItem(b, t, k, dest), TraceLink(t, k, dest), j)
  {
    assert t.kinds[t.pos[j]] == Insn;
    if j != k && t.slot[j] != NoSlot {
      assert t.slot[j] != t.slot[k];
    }
  }

  lemma LinkKeepsFalls(b: Buffer, t: Trace, k: nat, dest: Label, c: nat, i: nat)
    requires Shape(b, t) && OnInsn(b, t) && Linkable(b, t, k) && Falls(b, t, c, i)
    ensures Falls(LinkItem(b, t, k, dest), TraceLink(t, k, dest), c, i)
  {
  }

  lemma LinkKeepsValid(b: Buffer, t: Trace, k: nat, dest: Label)
    requires Valid(b) && Shape(b, t) && OnInsn(b, t) && Linkable(b, t, k)
    ensures Valid(LinkItem(b, t, k, dest))
  {
    var b' := LinkItem(b, t, k, dest);
    forall p | p in b'.loads ensures WaitingLoad(b', p) {
      assert WaitingLoad(b, p);
    }
  }

  lemma LinkKeepsFlow(b: Buffer, t: Trace, k: nat, dest: Label, labels: set<Label>)
    requires Shape(b, t) && OnInsn(b, t) && Linkable(b, t, k)
    requires Shape(LinkItem(b, t, k, dest), TraceLink(t, k, dest))
    requires Flow(b, t) && LabelsHold(b, t, labels) && dest in labels
    ensures Flow(LinkItem(b, t, k, dest), TraceLink(t, k, dest))
    ensures LabelsHold(LinkItem(b, t, k, dest), TraceLink(t, k, dest), labels)
  {
    var b', t' := LinkItem(b, t, k, dest), TraceLink(t, k, dest);
    LinkKeepsFalls(b, t, k, dest, 0, 0);
    forall i | 0 <= i < |t.prog| ensures FlowsOn(b', t', i) {
      assert FlowsOn(b, t, i);
      if !Transfers(t.prog[i]) {
        LinkKeepsFalls(b, t, k, dest, t.pos[i] + 1, i + 1);
      }
    }
    forall l | l in labels ensures Falls(b', t', l.at, l.index) {
      LinkKeepsFalls(b, t, k, dest, l.at, l.index);
    }
  }

  lemma LinkKeepsItems(b: Buffer, t: Trace, k: nat, dest: Label)
    requires Shape(b, t) && OnInsn(b, t) && Sharing(t) && Linkable(b, t, k) && AllInPlace(b, t)
    ensures Shape(LinkItem(b, t, k, dest), TraceLink(t, k, dest))
    ensures AllInPlace(LinkItem(b, t, k, dest), TraceLink(t, k, dest))
  {
    LinkKeepsItem(b, t, k, dest, k);
    forall j | 0 <= j < |t.prog| ensures ItemInPlace(LinkItem(b, t, k, dest), TraceLink(t, k, dest), j) {
      assert ItemInPlace(b, t, j);
      LinkKeepsItem(b, t, k, dest, j);
    }
  }

  lemma LinkKeepsOrder(b: Buffer, t: Trace, k: nat, dest: Label)
    requires Shape(b, t) && InOrder(t) && OnInsn(b, t) && Sharing(t) && TailIsInsn(b, t) && Linkable(b, t, k)
    ensures InOrder(TraceLink(t, k, dest)) && Sharing(TraceLink(t, k, dest))
    ensures OnInsn(LinkItem(b, t, k, dest), TraceLink(t, k, dest))
    ensures TailIsInsn(LinkItem(b, t, k, dest), TraceLink(t, k, dest))
  {
  }

  lemma LinkKeepsInv(b: Buffer, t: Trace, k: nat, dest: Label, labels: set<Label>)
    requires Inv(b, t, labels) && Linkable(b, t, k) && dest in labels
    ensures Inv(LinkItem(b, t, k, dest), TraceLink(t, k, dest), labels)
  {
    LinkKeepsValid(b, t, k, dest);
    LinkKeepsItems(b, t, k, dest);
    LinkKeepsOrder(b, t, k, dest);
    LinkKeepsFlow(b, t, k, dest, labels);
  }
}
