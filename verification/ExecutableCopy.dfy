/** The final pass: the pending pool is flushed, the code is copied to its address, and
    every linked jump is turned into a direct branch or into a load of an absolute
    address. `Resolved` says what then stands in the image for each instruction. */
module ExecutableCopy {
  import opened ArmEncoding
  import opened ConstantPool
  import opened Trace
  import opened Session

  /** The code handed to the copy: last pool without barrier, padded to 8 bytes. */
  function FinishedCode(b: Buffer): seq<Word>
    requires Valid(b)
  {
    PaddedCode(FlushWithoutBarrier(b, true).code)
  }

  function PaddedCode(code: seq<Word>): seq<Word> { if |code| % 2 == 1 then code + [BKPT0] else code }

  lemma CodeIsPadded(code: seq<Word>)
    ensures IsPadded(PaddedCode(code), code)
  {
  }

  /** The code after its last flush, and at most one breakpoint behind it, so that the size
      is a multiple of eight bytes. */
  lemma FinishedIsPadded(b: Buffer)
    requires Valid(b)
    ensures IsPadded(FinishedCode(b), FlushWithoutBarrier(b, true).code)
  {
    CodeIsPadded(FlushWithoutBarrier(b, true).code);
  }

  predicate IsPadded(image: seq<Word>, code: seq<Word>) {
    && |image| % 2 == 0
    && |code| <= |image| <= |code| + 1 && image[..|code|] == code
    && (|image| > |code| ==> image[|code|] == 0xe1200070)
  }

  /** What the reading code asserts: the word is a literal load with its slot in the image. */
  predicate ReadsSlot(image: seq<Word>, p: nat) {
    p < |image| && CondField(image[p]) < 15 && 0 <= LiteralWord(image, p) < |image|
  }

  function RelocateOne(image: seq<Word>, base: nat, jump: Jump): (r: seq<Word>)
    ensures |r| == |image|
  {
    if !ReadsSlot(image, jump.at) then image
    else
      var a := LiteralWord(image, jump.at);
      if image[a] == INVALID_BRANCH_TARGET then image
      else
        var distance := image[a] / 4 - jump.at;
        if !jump.usePool && BranchReaches(distance) then
          image[jump.at := Branch(CondField(image[jump.at]), distance)]
        else
          image[a := (base + image[a]) % WORD_LIMIT]
  }

  /** The loop over m_jumps after its first n rounds. */
  function Relocate(image: seq<Word>, base: nat, jumps: seq<Jump>, n: nat): (r: seq<Word>)
    requires n <= |jumps|
    ensures |r| == |image|
  {
    if n == 0 then image else RelocateOne(Relocate(image, base, jumps, n - 1), base, jumps[n - 1])
  }

  function Image(s: Session, base: nat): seq<Word>
    requires Valid(s.buf)
  {
    Relocate(FinishedCode(s.buf), base, s.jumps, |s.jumps|)
  }

  // What the image holds.

  /** A literal load at p for this item, reading `value` from a data word of its own pool. */
  predicate LoadsValue(image: seq<Word>, t: Trace, k: nat, value: nat) {
    && k < |t.prog| && |t.pos| == |t.slot| == |t.prog| && t.prog[k].Load? && t.slot[k].InCode?
    && var p, a := t.pos[k], t.slot[k].at;
    && p < a < |image| && a - p <= 1025
    && image[p] == PlacedLoad(t.prog[k].cc, t.prog[k].rd, a - p)
    && image[a] == value
  }

  /** A branch stands in place of this item, straight to word `at`. */
  predicate HoldsBranch(image: seq<Word>, t: Trace, k: nat, at: nat) {
    && k < |t.prog| == |t.pos| && t.prog[k].Load?
    && t.pos[k] < |image| && BranchReaches(at - t.pos[k])
    && image[t.pos[k]] == Branch(t.prog[k].cc, at - t.pos[k])
  }

  /** And it does what the item asks for, which is a load of pc. */
  predicate BranchesTo(image: seq<Word>, t: Trace, k: nat, at: nat) {
    HoldsBranch(image, t, k, at) && t.prog[k].rd == PC
  }

  /** How instruction k stands in the image; `done` once its jump has been relocated. */
  predicate Resolved(image: seq<Word>, base: nat, t: Trace, k: nat, done: bool) {
    && k < |t.prog| == |t.pos| && t.pos[k] < |image|
    && match t.prog[k]
       case Plain(w) => IsPlain(w) && image[t.pos[k]] == w
       case Load(_, _, value, _, target) =>
         match target
         case None => LoadsValue(image, t, k, value)
         case Some(dest) =>
           if done then BranchesTo(image, t, k, dest.at) || LoadsValue(image, t, k, base + 4 * dest.at)
           else LoadsValue(image, t, k, 4 * dest.at)
  }

  predicate HopsIn(image: seq<Word>, t: Trace, c: nat, d: nat) {
    c < |t.kinds| <= |image| && t.kinds[c] == Barrier && BranchReaches(d - c) && image[c] == Branch(AL, d - c)
  }

  /** Control arriving at word c of the image goes on with instruction k. */
  predicate FallsIn(image: seq<Word>, t: Trace, c: nat, k: nat) {
    k < |t.prog| == |t.pos| && c < |image| && (c == t.pos[k] || HopsIn(image, t, c, t.pos[k]))
  }

  /** The end of the program is not a place: nothing is said about running off it. */
  predicate FlowsIn(image: seq<Word>, t: Trace, k: nat) {
    && k < |t.prog| == |t.pos|
    && (Transfers(t.prog[k]) || k + 1 == |t.prog| || FallsIn(image, t, t.pos[k] + 1, k + 1))
    && (t.prog[k].Load? && t.prog[k].target.Some? ==>
          var dest := t.prog[k].target.value;
          dest.at <= |image| && (dest.index == |t.prog| || FallsIn(image, t, dest.at, dest.index)))
  }

  predicate Places(image: seq<Word>, t: Trace) {
    && |t.pos| == |t.slot| == |t.prog| && |t.kinds| <= |image|
    && (forall k :: 0 <= k < |t.pos| ==> t.pos[k] < |t.kinds| && t.kinds[t.pos[k]] == Insn)
    && (forall j, k :: 0 <= j < k < |t.pos| ==> t.pos[j] < t.pos[k])
    && (forall k :: 0 <= k < |t.slot| && t.slot[k].InCode? ==> t.slot[k].at < |t.kinds| && t.kinds[t.slot[k].at] == Data)
    && (forall j, k :: 0 <= j < k < |t.prog| && t.slot[j] == t.slot[k] && t.slot[j] != NoSlot ==>
          t.prog[j].Load? && t.prog[j].target == None && t.prog[j].reusable
          && t.prog[k].Load? && t.prog[k].target == None && t.prog[k].reusable)
  }

  /** A linked jump without the pool bit whose target is within the 24 bits of a branch,
      counted from two words behind it. */
  predicate IsNearJump(item: Item, jump: Jump) {
    item.Load? && item.target.Some? && !jump.usePool && -0x800000 <= item.target.value.at - (jump.at + 2) <= 0x7fffff
  }

  /** A linked jump that has been relocated is a branch if it is near, else a load of the
      absolute address of its target; anything else is as it was. */
  predicate Stands(image: seq<Word>, base: nat, t: Trace, k: nat, done: bool, near: bool) {
    if done && k < |t.prog| && t.prog[k].Load? && t.prog[k].target.Some? then
      var at := t.prog[k].target.value.at;
      if near then HoldsBranch(image, t, k, at) else LoadsValue(image, t, k, base + 4 * at)
    else Resolved(image, base, t, k, false)
  }

  /** What one pass works on: the trace of the code, the jumps with their owners and those
      of them that are near, where control may enter, and what stands behind the code. */
  datatype Pass = Pass(base: nat, t: Trace, jumps: seq<Jump>, owners: seq<nat>, near: set<nat>,
                       entries: set<Label>, tail: seq<Word>)

  /** The jump record points at the load of its owner. */
  predicate Owns(t: Trace, jump: Jump, k: nat) {
    && k < |t.prog| == |t.pos| && t.pos[k] == jump.at
    && t.prog[k].Load? && !t.prog[k].reusable && t.prog[k].value == INVALID_BRANCH_TARGET
  }

  /** Each jump is the record of its own load, in order. */
  predicate Recorded(p: Pass) {
    && |p.owners| == |p.jumps|
    && (forall j :: 0 <= j < |p.jumps| ==> JumpRecorded(p, j))
    && (forall i, j :: 0 <= i < j < |p.owners| ==> p.owners[i] < p.owners[j])
  }

  predicate JumpRecorded(p: Pass, j: nat) {
    && j < |p.owners| && j < |p.jumps| && Owns(p.t, p.jumps[j], p.owners[j])
    && (p.owners[j] in p.near <==> IsNearJump(p.t.prog[p.owners[j]], p.jumps[j]))
  }

  /** After n rounds: the relocated jumps stand as they should, control entering at an entry
      comes to the instruction it stands for, and nothing behind the code has changed. */
  predicate Finished(image: seq<Word>, p: Pass, n: nat) {
    && n <= |p.owners| && p.base + 4 * |image| < WORD_LIMIT
    && Places(image, p.t) && image[|p.t.kinds|..] == p.tail
    && (forall l :: l in p.entries && l.index < |p.t.prog| ==> FallsIn(image, p.t, l.at, l.index))
    && (forall k :: 0 <= k < |p.t.prog| ==> Stands(image, p.base, p.t, k, k in p.owners[..n], k in p.near))
    && (forall k :: 0 <= k < |p.t.prog| ==> FlowsIn(image, p.t, k))
  }

  // From the last buffer to the image.

  function FinalTrace(b: Buffer, t: Trace): Trace { TraceFlush(b, t, false) }

  lemma FinalItem(b: Buffer, t: Trace, k: nat, image: seq<Word>, base: nat)
    requires Shape(b, t) && k < |t.prog| && ItemInPlace(b, t, k) && b.pool == []
    requires 4 * |b.code| < WORD_LIMIT
    requires |b.code| <= |image| && forall i :: 0 <= i < |b.code| ==> image[i] == b.code[i]
    requires t.prog[k].Load? && t.prog[k].target.Some? ==> t.prog[k].target.value.at <= |b.code|
    ensures Resolved(image, base, t, k, false)
  {
  }

  lemma FinalFalls(b: Buffer, t: Trace, image: seq<Word>, c: nat, k: nat)
    requires Shape(b, t) && Falls(b, t, c, k) && k < |t.prog|
    requires |b.code| <= |image| && forall i :: 0 <= i < |b.code| ==> image[i] == b.code[i]
    ensures FallsIn(image, t, c, k) && c < |b.code|
  {
  }

  /** The flow of control after the last flush, which puts no barrier before the pool. */
  predicate OpenFlow(b: Buffer, t: Trace, entries: set<Label>)
    requires Shape(b, t)
  {
    && (forall l :: l in entries && l.index < |t.prog| ==> Falls(b, t, l.at, l.index))
    && (forall k :: 0 <= k < |t.prog| ==> OpenFlowsOn(b, t, k))
  }

  predicate OpenFlowsOn(b: Buffer, t: Trace, k: nat)
    requires Shape(b, t) && k < |t.prog|
  {
    && (Transfers(t.prog[k]) || k + 1 == |t.prog| || Falls(b, t, t.pos[k] + 1, k + 1))
    && (t.prog[k].Load? && t.prog[k].target.Some? ==>
          var dest := t.prog[k].target.value;
          dest.at <= |b.code| && (dest.index == |t.prog| || Falls(b, t, dest.at, dest.index)))
  }

  predicate Settled(b: Buffer, t: Trace, entries: set<Label>) {
    && b.pool == [] && Shape(b, t) && InOrder(t) && OnInsn(b, t)
    && AllInPlace(b, t) && Sharing(t) && OpenFlow(b, t, entries)
  }

  /** Where control may enter: the first word, and every label handed out. */
  function Entries(labels: set<Label>): set<Label> { labels + {Label(0, 0)} }

  lemma OpenFlowFromInv(b: Buffer, t: Trace, labels: set<Label>)
    requires Shape(b, t) && Flow(b, t) && LabelsHold(b, t, labels)
    ensures OpenFlow(b, t, Entries(labels))
  {
    forall k | 0 <= k < |t.prog| ensures OpenFlowsOn(b, t, k) {
      assert FlowsOn(b, t, k);
    }
  }

  lemma FlushKeepsOpenFlow(b: Buffer, t: Trace, b': Buffer, t': Trace, entries: set<Label>, start: nat)
    requires CodeFlushed(b, b', start, false) && TraceFlushed(b, t, t', start, false)
    requires Shape(b, t) && Shape(b', t') && OnInsn(b, t) && TailIsInsn(b, t) && b.pool != []
    requires OpenFlow(b, t, entries)
    ensures OpenFlow(b', t', entries)
  {
    forall l | l in entries && l.index < |t.prog| ensures Falls(b', t', l.at, l.index) {
      FlushKeepsFalls(b, t, b', t', start, false, l.at, l.index);
    }
    forall k | 0 <= k < |t.prog| ensures OpenFlowsOn(b', t', k) {
      assert OpenFlowsOn(b, t, k);
      if !Transfers(t.prog[k]) && k + 1 < |t.prog| {
        FlushKeepsFalls(b, t, b', t', start, false, t.pos[k] + 1, k + 1);
      }
      if t.prog[k].Load? && t.prog[k].target.Some? && t.prog[k].target.value.index < |t.prog| {
        FlushKeepsFalls(b, t, b', t', start, false, t.prog[k].target.value.at, t.prog[k].target.value.index);
      }
    }
  }

  lemma FlushRelSettles(b: Buffer, t: Trace, b': Buffer, t': Trace, labels: set<Label>, start: nat)
    requires CodeFlushed(b, b', start, false) && TraceFlushed(b, t, t', start, false)
    requires Inv(b, t, labels) && b.pool != []
    ensures Settled(b', t', Entries(labels))
  {
    assert Shape(b', t') && OnInsn(b', t');
    forall k | 0 <= k < |t.prog| ensures ItemInPlace(b', t', k) {
      assert ItemInPlace(b, t, k);
      FlushKeepsItem(b, t, b', t', start, false, k);
    }
    FlushKeepsSharing(b, t, t', start, false);
    OpenFlowFromInv(b, t, labels);
    FlushKeepsOpenFlow(b, t, b', t', Entries(labels), start);
  }

  lemma LastFlushSettles(b: Buffer, t: Trace, labels: set<Label>)
    requires Inv(b, t, labels)
    ensures Settled(FlushWithoutBarrier(b, true), FinalTrace(b, t), Entries(labels))
  {
    OpenFlowFromInv(b, t, labels);
    if b.pool != [] {
      FlushedCode(b, false);
      FlushedTrace(b, t, false);
      FlushRelSettles(b, t, Flush(b, false), TraceFlush(b, t, false), labels, PoolStart(b, false));
    }
  }

  lemma SettledPlaces(b: Buffer, t: Trace, entries: set<Label>, image: seq<Word>)
    requires Settled(b, t, entries) && |b.code| <= |image|
    ensures Places(image, t)
  {
    forall k | 0 <= k < |t.slot| && t.slot[k].InCode?
      ensures t.slot[k].at < |t.kinds| && t.kinds[t.slot[k].at] == Data
    {
      assert ItemInPlace(b, t, k);
    }
  }

  lemma SettledIsFinished(b: Buffer, image: seq<Word>, p: Pass)
    requires Settled(b, p.t, p.entries) && p.base + 4 * |image| < WORD_LIMIT
    requires |b.code| <= |image| && image[..|b.code|] == b.code && p.tail == image[|b.code|..]
    ensures Finished(image, p, 0)
  {
    var base, t, entries := p.base, p.t, p.entries;
    SettledPlaces(b, t, entries, image);
    SameFront(image, b.code);
    forall l | l in entries && l.index < |t.prog| ensures FallsIn(image, t, l.at, l.index) {
      FinalFalls(b, t, image, l.at, l.index);
    }
    forall k | 0 <= k < |t.prog|
      ensures Resolved(image, base, t, k, false) && FlowsIn(image, t, k)
    {
      assert ItemInPlace(b, t, k);
      assert OpenFlowsOn(b, t, k);
      FinalItem(b, t, k, image, base);
      if !Transfers(t.prog[k]) && k + 1 < |t.prog| {
        FinalFalls(b, t, image, t.pos[k] + 1, k + 1);
      }
      if t.prog[k].Load? && t.prog[k].target.Some? && t.prog[k].target.value.index < |t.prog| {
        FinalFalls(b, t, image, t.prog[k].target.value.at, t.prog[k].target.value.index);
      }
    }
  }

  lemma SameFront(image: seq<Word>, code: seq<Word>)
    requires |code| <= |image| && image[..|code|] == code
    ensures forall i :: 0 <= i < |code| ==> image[i] == code[i]
  {
    forall i | 0 <= i < |code| ensures image[i] == code[i] {
      assert image[i] == image[..|code|][i];
    }
  }

  // One round of the loop.

  /** If linked, the jump loads pc, asks for the pool, or is out of a branch's range. */
  predicate Redirects(item: Item, jump: Jump) { item.Load? && IsNearJump(item, jump) ==> item.rd == PC }

  lemma JumpReads(image: seq<Word>, t: Trace, k: nat, value: nat)
    requires LoadsValue(image, t, k, value)
    ensures ReadsSlot(image, t.pos[k]) && LiteralWord(image, t.pos[k]) == t.slot[k].at
    ensures CondField(image[t.pos[k]]) == t.prog[k].cc
  {
    PlacedLoadFields(t.prog[k].cc, t.prog[k].rd, t.slot[k].at - t.pos[k]);
  }

  /** The two words one round may write: the jump's own instruction and its own slot. */
  predicate OnlyWrites(image: seq<Word>, image': seq<Word>, t: Trace, k: nat) {
    && k < |t.pos| == |t.slot| && |image'| == |image|
    && forall i {:trigger image'[i]} :: 0 <= i < |image| && i != t.pos[k] && t.slot[k] != InCode(i) ==> image'[i] == image[i]
  }

  lemma RelocateUnlinked(image: seq<Word>, base: nat, t: Trace, jump: Jump, k: nat)
    requires Resolved(image, base, t, k, false) && Owns(t, jump, k) && t.prog[k].target == None
    ensures RelocateOne(image, base, jump) == image
  {
    JumpReads(image, t, k, INVALID_BRANCH_TARGET);
  }

  /** What the loop does to a linked jump: one word is written. */
  lemma RelocateLinked(image: seq<Word>, base: nat, t: Trace, jump: Jump, k: nat, dest: Label)
    requires Resolved(image, base, t, k, false) && Owns(t, jump, k) && t.prog[k].target == Some(dest)
    requires base + 4 * |image| < WORD_LIMIT && dest.at <= |image|
    ensures LoadsValue(image, t, k, 4 * dest.at)
    ensures RelocateOne(image, base, jump)
            == if !jump.usePool && BranchReaches(dest.at - jump.at) then
                 image[jump.at := Branch(t.prog[k].cc, dest.at - jump.at)]
               else image[t.slot[k].at := base + 4 * dest.at]
  {
    JumpReads(image, t, k, 4 * dest.at);
    assert 4 * dest.at != INVALID_BRANCH_TARGET;
  }

  lemma SlotWritten(image: seq<Word>, base: nat, t: Trace, k: nat, dest: Label, image': seq<Word>)
    requires k < |t.prog| == |t.pos| && t.prog[k].Load? && t.prog[k].target == Some(dest)
    requires LoadsValue(image, t, k, 4 * dest.at) && base + 4 * dest.at < WORD_LIMIT
    requires image' == image[t.slot[k].at := base + 4 * dest.at]
    ensures Stands(image', base, t, k, true, false) && OnlyWrites(image, image', t, k)
  {
  }

  lemma BranchWritten(image: seq<Word>, base: nat, t: Trace, k: nat, dest: Label, image': seq<Word>)
    requires k < |t.prog| == |t.pos| == |t.slot| && t.prog[k].Load? && t.prog[k].target == Some(dest)
    requires t.pos[k] < |image| && BranchReaches(dest.at - t.pos[k])
    requires image' == image[t.pos[k] := Branch(t.prog[k].cc, dest.at - t.pos[k])]
    ensures Stands(image', base, t, k, true, true) && OnlyWrites(image, image', t, k)
  {
  }

  /** A branch is no load: in place of a load of another register it is not resolved. */
  lemma BranchIsUnresolved(image: seq<Word>, base: nat, t: Trace, k: nat, at: nat)
    requires HoldsBranch(image, t, k, at) && t.prog[k].target.Some? && t.prog[k].rd != PC
    ensures !Resolved(image, base, t, k, true)
  {
    BranchFields(t.prog[k].cc, at - t.pos[k]);
    if Resolved(image, base, t, k, true) {
      PlacedLoadFields(t.prog[k].cc, t.prog[k].rd, t.slot[k].at - t.pos[k]);
      assert false;
    }
  }

  lemma StandsIsResolved(image: seq<Word>, base: nat, t: Trace, jump: Jump, k: nat)
    requires Owns(t, jump, k) && Stands(image, base, t, k, true, IsNearJump(t.prog[k], jump))
    requires Resolved(image, base, t, k, false) || t.prog[k].target.Some?
    ensures Resolved(image, base, t, k, true) <==> Redirects(t.prog[k], jump)
  {
    if t.prog[k].target.Some? && IsNearJump(t.prog[k], jump) && t.prog[k].rd != PC {
      BranchIsUnresolved(image, base, t, k, t.prog[k].target.value.at);
    }
  }

  /** A linked jump becomes a branch with the same condition if it is near, and else a load
      of the absolute address of its target; an unlinked one is left alone. */
  lemma RelocateStands(image: seq<Word>, base: nat, t: Trace, jump: Jump, k: nat)
    requires Places(image, t) && Resolved(image, base, t, k, false) && Owns(t, jump, k)
    requires base + 4 * |image| < WORD_LIMIT
    requires t.prog[k].target.Some? ==> t.prog[k].target.value.at <= |image|
    ensures Stands(RelocateOne(image, base, jump), base, t, k, true, IsNearJump(t.prog[k], jump))
    ensures OnlyWrites(image, RelocateOne(image, base, jump), t, k)
  {
    var image' := RelocateOne(image, base, jump);
    match t.prog[k].target
    case None => RelocateUnlinked(image, base, t, jump, k);
    case Some(dest) =>
      RelocateLinked(image, base, t, jump, k, dest);
      if IsNearJump(t.prog[k], jump) {
        BranchWritten(image, base, t, k, dest, image');
      } else {
        SlotWritten(image, base, t, k, dest, image');
      }
  }

  /** So it ends up at code base plus target offset exactly if it loads pc, asks for the pool
      or is out of a branch's range. */
  lemma RelocateOwner(image: seq<Word>, base: nat, t: Trace, jump: Jump, k: nat)
    requires Places(image, t) && Resolved(image, base, t, k, false) && Owns(t, jump, k)
    requires base + 4 * |image| < WORD_LIMIT
    requires t.prog[k].target.Some? ==> t.prog[k].target.value.at <= |image|
    ensures Resolved(RelocateOne(image, base, jump), base, t, k, true) <==> Redirects(t.prog[k], jump)
  {
    RelocateStands(image, base, t, jump, k);
    StandsIsResolved(RelocateOne(image, base, jump), base, t, jump, k);
  }

  /** A near load of r0 without the pool bit, the input on which it fails: its target is
      lost, as the load becomes a branch. */
  lemma OtherLoadBecomesBranch(base: nat)
    requires base + 12 < WORD_LIMIT
    ensures var image: seq<Word> := [PlacedLoad(AL, 0, 2), BKPT0, 0];
            var t := Trace([Load(AL, 0, INVALID_BRANCH_TARGET, false, Some(Label(0, 0)))], [0], [InCode(2)], [Insn, Pad, Data]);
            && Places(image, t) && Owns(t, Jump(0, false), 0) && Resolved(image, base, t, 0, false)
            && !Resolved(RelocateOne(image, base, Jump(0, false)), base, t, 0, true)
  {
    var image: seq<Word> := [PlacedLoad(AL, 0, 2), BKPT0, 0];
    var t := Trace([Load(AL, 0, INVALID_BRANCH_TARGET, false, Some(Label(0, 0)))], [0], [InCode(2)], [Insn, Pad, Data]);
    RelocateOwner(image, base, t, Jump(0, false), 0);
  }

  lemma RelocateOther(image: seq<Word>, image': seq<Word>, base: nat, t: Trace, k: nat, j: nat, done: bool, near: bool)
    requires Places(image, t) && OnlyWrites(image, image', t, k) && j != k && j < |t.prog|
    requires t.prog[k].Load? && !t.prog[k].reusable && t.slot[k].InCode?
    requires Stands(image, base, t, j, done, near)
    ensures Stands(image', base, t, j, done, near)
  {
    assert t.kinds[t.pos[j]] == Insn;
    if t.slot[j] != NoSlot {
      assert t.slot[j] != t.slot[k];
    }
  }

  lemma RelocateFalls(image: seq<Word>, image': seq<Word>, t: Trace, k: nat, c: nat, i: nat)
    requires Places(image, t) && OnlyWrites(image, image', t, k) && FallsIn(image, t, c, i)
    ensures FallsIn(image', t, c, i)
  {
  }

  lemma RelocateFlows(image: seq<Word>, image': seq<Word>, t: Trace, k: nat, j: nat)
    requires Places(image, t) && OnlyWrites(image, image', t, k) && FlowsIn(image, t, j)
    ensures FlowsIn(image', t, j)
  {
    if !Transfers(t.prog[j]) && j + 1 < |t.prog| {
      RelocateFalls(image, image', t, k, t.pos[j] + 1, j + 1);
    }
    if t.prog[j].Load? && t.prog[j].target.Some? && t.prog[j].target.value.index < |t.prog| {
      RelocateFalls(image, image', t, k, t.prog[j].target.value.at, t.prog[j].target.value.index);
    }
  }

  /** The relocated jump stands as it should, all others stand as they stood. */
  lemma RelocateResolves(image: seq<Word>, base: nat, t: Trace, jump: Jump, k: nat, j: nat, done: bool, near: bool)
    requires Places(image, t) && Owns(t, jump, k) && Resolved(image, base, t, k, false)
    requires t.prog[k].target.Some? ==> t.prog[k].target.value.at <= |image|
    requires base + 4 * |image| < WORD_LIMIT
    requires j < |t.prog| && Stands(image, base, t, j, done, near)
    requires j == k ==> (near <==> IsNearJump(t.prog[k], jump))
    ensures Stands(RelocateOne(image, base, jump), base, t, j, done || j == k, near)
    ensures OnlyWrites(image, RelocateOne(image, base, jump), t, k)
  {
    RelocateStands(image, base, t, jump, k);
    if j != k {
      RelocateOther(image, RelocateOne(image, base, jump), base, t, k, j, done, near);
    }
  }

  lemma RelocateKeepsTail(image: seq<Word>, image': seq<Word>, t: Trace, k: nat)
    requires Places(image, t) && k < |t.prog| && OnlyWrites(image, image', t, k)
    ensures image'[|t.kinds|..] == image[|t.kinds|..]
  {
  }

  /** What one more round does to the image. */
  predicate NextRound(image: seq<Word>, image': seq<Word>, p: Pass, n: nat) {
    n < |p.jumps| && image' == RelocateOne(image, p.base, p.jumps[n])
  }

  /** What the round for jump n starts from. */
  lemma RoundStarts(image: seq<Word>, p: Pass, n: nat)
    requires n < |p.owners| && Finished(image, p, n) && Recorded(p)
    ensures var k := p.owners[n];
            && Owns(p.t, p.jumps[n], k) && (k in p.near <==> IsNearJump(p.t.prog[k], p.jumps[n]))
            && Resolved(image, p.base, p.t, k, false) && FlowsIn(image, p.t, k) && k !in p.owners[..n]
  {
    var k := p.owners[n];
    FreshOwner(p.owners, n);
    assert JumpRecorded(p, n);
    assert Stands(image, p.base, p.t, k, false, k in p.near) && FlowsIn(image, p.t, k);
  }

  lemma RoundFinishes(image: seq<Word>, image': seq<Word>, p: Pass, n: nat)
    requires n < |p.owners| && Finished(image, p, n) && Recorded(p) && NextRound(image, image', p, n)
    ensures Finished(image', p, n + 1)
  {
    var base, t, jump, k := p.base, p.t, p.jumps[n], p.owners[n];
    var before, after := p.owners[..n], p.owners[..n + 1];
    RoundStarts(image, p, n);
    assert after == before + [k];
    forall j | 0 <= j < |t.prog|
      ensures Stands(image', base, t, j, j in after, j in p.near) && FlowsIn(image', t, j)
    {
      assert FlowsIn(image, t, j) && Stands(image, base, t, j, j in before, j in p.near);
      RelocateResolves(image, base, t, jump, k, j, j in before, j in p.near);
      RelocateFlows(image, image', t, k, j);
    }
    RelocateStands(image, base, t, jump, k);
    RelocateKeepsTail(image, image', t, k);
    forall l | l in p.entries && l.index < |t.prog| ensures FallsIn(image', t, l.at, l.index) {
      RelocateFalls(image, image', t, k, l.at, l.index);
    }
  }

  lemma RelocateNext(image: seq<Word>, p: Pass, n: nat)
    requires n < |p.jumps|
    ensures NextRound(Relocate(image, p.base, p.jumps, n), Relocate(image, p.base, p.jumps, n + 1), p, n)
  {
  }

  lemma {:induction false} RelocateAll(image: seq<Word>, p: Pass, n: nat)
    requires Recorded(p) && n <= |p.jumps| && Finished(image, p, 0)
    ensures Finished(Relocate(image, p.base, p.jumps, n), p, n)
    decreases n
  {
    if n > 0 {
      var i := n - 1;
      RelocateAll(image, p, i);
      RelocateNext(image, p, i);
      RoundFinishes(Relocate(image, p.base, p.jumps, i), Relocate(image, p.base, p.jumps, i + 1), p, i);
    }
  }

  // The whole pass.

  /** Everything the image promises to a machine that runs it. */
  predicate Layout(image: seq<Word>, base: nat, t: Trace) {
    && Places(image, t)
    && (|t.prog| > 0 ==> FallsIn(image, t, 0, 0))
    && (forall k :: 0 <= k < |t.prog| ==> Resolved(image, base, t, k, true))
    && (forall k :: 0 <= k < |t.prog| ==> FlowsIn(image, t, k))
    && (forall k :: 0 <= k < |t.prog| ==> PcLoadIsJump(t.prog[k]))
  }

  predicate PcLoadIsJump(item: Item) {
    item.Load? && item.rd == PC && item.target == None ==> item.value == INVALID_BRANCH_TARGET
  }

  /** Jump j of the session, as its own load and record have it. */
  predicate JumpIsNear(s: Session, j: nat) {
    j < |s.jumps| && j < |s.owners| && s.owners[j] < |s.trace.prog| && IsNearJump(s.trace.prog[s.owners[j]], s.jumps[j])
  }

  predicate JumpRedirects(s: Session, j: nat) {
    j < |s.jumps| && j < |s.owners| && s.owners[j] < |s.trace.prog| ==> Redirects(s.trace.prog[s.owners[j]], s.jumps[j])
  }

  function NearOwners(s: Session): set<nat> {
    set j | 0 <= j < |s.jumps| && j < |s.owners| && JumpIsNear(s, j) :: s.owners[j]
  }

  /** Every linked jump of the session loads pc, asks for the pool, or is out of a branch's
      range. */
  predicate AllRedirect(s: Session) {
    forall j :: 0 <= j < |s.jumps| ==> JumpRedirects(s, j)
  }

  lemma NearOwnersAre(s: Session, j: nat)
    requires RunInv(s) && j < |s.jumps|
    ensures s.owners[j] in NearOwners(s) <==> JumpIsNear(s, j)
  {
    if s.owners[j] in NearOwners(s) {
      var i :| 0 <= i < |s.jumps| && JumpIsNear(s, i) && s.owners[i] == s.owners[j];
      assert i == j;
    }
  }

  /** The pass over a session's code. */
  function PassOf(s: Session, base: nat): Pass
    requires Valid(s.buf)
  {
    Pass(base, FinalTrace(s.buf, s.trace), s.jumps, s.owners, NearOwners(s), Entries(s.labels),
         FinishedCode(s.buf)[|FlushWithoutBarrier(s.buf, true).code|..])
  }

  lemma OwnersOwn(s: Session, base: nat)
    requires RunInv(s)
    ensures Recorded(PassOf(s, base))
  {
    forall j | 0 <= j < |s.jumps| ensures JumpRecorded(PassOf(s, base), j) {
      assert OwnerHolds(s, j);
      NearOwnersAre(s, j);
    }
  }

  lemma PcLoadsAreJumps(s: Session)
    requires RunInv(s)
    ensures forall k :: 0 <= k < |s.trace.prog| ==> PcLoadIsJump(s.trace.prog[k])
  {
    forall k | 0 <= k < |s.trace.prog| && MustBeJump(s.trace.prog[k])
      ensures s.trace.prog[k].value == INVALID_BRANCH_TARGET
    {
      var j :| 0 <= j < |s.owners| && s.owners[j] == k;
      assert OwnerHolds(s, j);
    }
  }

  /** The image of any session after n rounds. */
  lemma ImageIsFinished(s: Session, base: nat, n: nat)
    requires RunInv(s) && base + 4 * |Image(s, base)| < WORD_LIMIT && n <= |s.jumps|
    ensures Recorded(PassOf(s, base))
    ensures Finished(Relocate(FinishedCode(s.buf), base, s.jumps, n), PassOf(s, base), n)
  {
    var b := FlushWithoutBarrier(s.buf, true);
    LastFlushSettles(s.buf, s.trace, s.labels);
    FinishedIsPadded(s.buf);
    SettledIsFinished(b, FinishedCode(s.buf), PassOf(s, base));
    OwnersOwn(s, base);
    RelocateAll(FinishedCode(s.buf), PassOf(s, base), n);
  }

  /** Which linked jumps of a run have become branches in the image, and what the others
      load. */
  lemma JumpInImage(s: Session, base: nat, j: nat)
    requires RunInv(s) && base + 4 * |Image(s, base)| < WORD_LIMIT && j < |s.jumps|
    ensures var k := s.owners[j];
            k < |s.trace.prog| && Stands(Image(s, base), base, FinalTrace(s.buf, s.trace), k, true, JumpIsNear(s, j))
  {
    var k := s.owners[j];
    ImageIsFinished(s, base, |s.jumps|);
    NearOwnersAre(s, j);
    assert JumpRecorded(PassOf(s, base), j);
    assert k in s.owners[..|s.owners|];
    assert Stands(Image(s, base), base, FinalTrace(s.buf, s.trace), k, k in s.owners[..|s.owners|], k in NearOwners(s));
  }

  lemma JumpIsResolved(s: Session, base: nat, j: nat)
    requires RunInv(s) && base + 4 * |Image(s, base)| < WORD_LIMIT && j < |s.jumps|
    ensures s.owners[j] < |s.trace.prog|
    ensures Resolved(Image(s, base), base, FinalTrace(s.buf, s.trace), s.owners[j], true) <==> JumpRedirects(s, j)
  {
    JumpInImage(s, base, j);
    assert OwnerHolds(s, j);
    StandsIsResolved(Image(s, base), base, FinalTrace(s.buf, s.trace), s.jumps[j], s.owners[j]);
  }

  lemma OtherIsResolved(s: Session, base: nat, k: nat)
    requires RunInv(s) && base + 4 * |Image(s, base)| < WORD_LIMIT && k < |s.trace.prog| && k !in s.owners
    ensures Resolved(Image(s, base), base, FinalTrace(s.buf, s.trace), k, true)
  {
    ImageIsFinished(s, base, |s.jumps|);
    assert s.owners[..|s.owners|] == s.owners;
    assert Stands(Image(s, base), base, FinalTrace(s.buf, s.trace), k, k in s.owners[..|s.owners|], k in NearOwners(s));
    assert !MustBeJump(s.trace.prog[k]);
  }

  /** executableCopy resolves every linked jump of a run, and keeps everything else, exactly
      if every linked jump loads pc, asks for the pool, or is out of a branch's range. */
  lemma ImageHolds(s: Session, base: nat)
    requires RunInv(s) && base + 4 * |Image(s, base)| < WORD_LIMIT
    ensures Layout(Image(s, base), base, FinalTrace(s.buf, s.trace)) <==> AllRedirect(s)
  {
    var image, t := Image(s, base), FinalTrace(s.buf, s.trace);
    ImageIsFinished(s, base, |s.jumps|);
    PcLoadsAreJumps(s);
    if AllRedirect(s) {
      forall k | 0 <= k < |t.prog| ensures Resolved(image, base, t, k, true) {
        ItemIsResolved(s, base, k);
      }
    } else {
      var j :| 0 <= j < |s.jumps| && !JumpRedirects(s, j);
      JumpIsResolved(s, base, j);
    }
  }

  lemma ItemIsResolved(s: Session, base: nat, k: nat)
    requires RunInv(s) && base + 4 * |Image(s, base)| < WORD_LIMIT && k < |s.trace.prog| && AllRedirect(s)
    ensures Resolved(Image(s, base), base, FinalTrace(s.buf, s.trace), k, true)
  {
    if k in s.owners {
      var j :| 0 <= j < |s.owners| && s.owners[j] == k;
      JumpIsResolved(s, base, j);
    } else {
      OtherIsResolved(s, base, k);
    }
  }

  /** In the image an entry still leads to the instruction it stands for. */
  lemma EntryInImage(s: Session, base: nat, l: Label)
    requires RunInv(s) && base + 4 * |Image(s, base)| < WORD_LIMIT
    requires l in Entries(s.labels) && l.index < |s.trace.prog|
    ensures FallsIn(Image(s, base), FinalTrace(s.buf, s.trace), l.at, l.index)
  {
    ImageIsFinished(s, base, |s.jumps|);
  }

  /** The image is of a multiple of eight bytes: the flushed code, with its jumps relocated,
      and at most one breakpoint, which the loop leaves alone. */
  lemma ImageIsPadded(s: Session, base: nat)
    requires RunInv(s) && base + 4 * |Image(s, base)| < WORD_LIMIT
    ensures var image, code := Image(s, base), FlushWithoutBarrier(s.buf, true).code;
            && |image| % 2 == 0 && |code| <= |image| <= |code| + 1
            && (|image| > |code| ==> image[|code|] == 0xe1200070)
  {
    var image, code := Image(s, base), FlushWithoutBarrier(s.buf, true).code;
    ImageIsFinished(s, base, |s.jumps|);
    FinishedIsPadded(s.buf);
    LastFlushSettles(s.buf, s.trace, s.labels);
    assert image[|code|..] == FinishedCode(s.buf)[|code|..];
    if |image| > |code| {
      assert image[|code|] == image[|code|..][0];
    }
  }

  /** An unlinked jump loads the number that stands for no target. */
  lemma UnlinkedInImage(s: Session, base: nat, j: nat)
    requires RunInv(s) && base + 4 * |Image(s, base)| < WORD_LIMIT && j < |s.jumps|
    ensures var k := s.owners[j];
            k < |s.trace.prog| && s.trace.prog[k].Load?
            && (s.trace.prog[k].target == None ==> LoadsValue(Image(s, base), FinalTrace(s.buf, s.trace), k, 0xffffffff))
  {
    assert OwnerHolds(s, j);
    JumpInImage(s, base, j);
  }

  lemma UnresolvedReads(image: seq<Word>, base: nat, t: Trace, k: nat)
    requires Resolved(image, base, t, k, false) && t.prog[k].Load?
    ensures ReadsSlot(image, t.pos[k])
  {
    match t.prog[k].target
    case None => JumpReads(image, t, k, t.prog[k].value);
    case Some(dest) => JumpReads(image, t, k, 4 * dest.at);
  }

  /** In every round of every run's final pass, the jump at hand is a literal load whose
      slot lies in the image: what the reading code asserts. */
  lemma JumpIsReadable(s: Session, base: nat, n: nat)
    requires RunInv(s) && n < |s.jumps| && base + 4 * |Image(s, base)| < WORD_LIMIT
    ensures ReadsSlot(Relocate(FinishedCode(s.buf), base, s.jumps, n), s.jumps[n].at)
  {
    var image, p := Relocate(FinishedCode(s.buf), base, s.jumps, n), PassOf(s, base);
    ImageIsFinished(s, base, n);
    RoundStarts(image, p, n);
    UnresolvedReads(image, base, p.t, s.owners[n]);
  }

  lemma FreshOwner(owners: seq<nat>, n: nat)
    requires n < |owners| && forall i, j :: 0 <= i < j < |owners| ==> owners[i] < owners[j]
    ensures owners[n] !in owners[..n]
  {
  }
}
