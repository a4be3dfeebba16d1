/** Whole runs of the assembler: the calls a code generator makes, what each does to the
    buffer, to the list of jumps and to the trace, and the invariant every run keeps. */
module Session {
  import opened ArmEncoding
  import opened ConstantPool
  import opened Trace

  /** An entry of m_jumps: the position of a branch load, and the low bit that asks for
      the target to stay in the constant pool. */
  datatype Jump = Jump(at: nat, usePool: bool)

  /** `owners[j]` is the instruction that jump j belongs to. */
  datatype Session = Session(buf: Buffer, jumps: seq<Jump>, trace: Trace, owners: seq<nat>, labels: set<Label>)

  const FRESH := Session(EMPTY, [], START, [], {})

  datatype Call =
    | EmitPlain(word: Word)
    | EmitConstant(cc: Cond, rd: Reg, value: Word, reusable: bool)
    | EmitBranch(cc: Cond, rd: Reg, usePool: bool)
    | TakeLabel
    | LinkJumpTo(jump: nat, dest: Label)
    | Reserve(insnSpace: nat, constSpace: nat)
    | CheckAligned(alignment: nat)
    | FlushBehindJump(isForced: bool)

  // Operations of the assembler on the buffer.

  function LoadTemplate(cc: Cond, rd: Reg): (load: Word)
    ensures IsUp(load)
  {
    LiteralLoadFields(cc, true, rd, 0);
    LiteralLoad(cc, true, rd, 0)
  }

  /** The word index of the slot a load reads, once it is placed. */
  function LiteralWord(code: seq<Word>, p: nat): int
    requires p < |code|
  {
    p + LiteralDistance(code[p]) / 4
  }

  /** The load at p has a slot that can be written, in the pool or in the code. */
  predicate HasSlot(b: Buffer, p: nat) {
    p < |b.code| &&
    if IsTagged(b.code[p]) then TagIndex(b.code[p]) < |b.pool|
    else 0 <= LiteralWord(b.code, p) < |b.code|
  }

  /** linkJump: the low bit of the load tells a pending slot from a placed one. */
  function LinkJump(b: Buffer, p: nat, offset: Word): Buffer
    requires HasSlot(b, p)
  {
    if IsTagged(b.code[p]) then
      b.(pool := b.pool[TagIndex(b.code[p]) := offset])
    else
      b.(code := b.code[LiteralWord(b.code, p) := offset])
  }

  // Flushes with their traces.

  function TraceFlushWhen(b: Buffer, t: Trace, full: bool): Trace {
    if full then TraceFlush(b, t, true) else t
  }

  lemma FlushWhenKeepsInv(b: Buffer, t: Trace, labels: set<Label>, full: bool)
    requires Inv(b, t, labels)
    ensures Inv(FlushWhen(b, full), TraceFlushWhen(b, t, full), labels)
    ensures TraceFlushWhen(b, t, full).prog == t.prog && TraceFlushWhen(b, t, full).pos == t.pos
  {
    FlushKeepsInv(b, t, labels, true);
  }

  // Calls.

  function DoPlain(s: Session, w: Word): Session
    requires Valid(s.buf)
  {
    var c := FlushIfNoSpaceFor(s.buf, 4);
    var t := TraceFlushWhen(s.buf, s.trace, NoSpaceFor(s.buf, 4));
    s.(buf := PutInt(s.buf, w), trace := TraceAppend(t, |c.code|, Plain(w), NoSlot))
  }

  function DoConstant(s: Session, cc: Cond, rd: Reg, value: Word, reusable: bool): Session
    requires Valid(s.buf)
  {
    var b := ResetDistance(s.buf);
    var c := BeforeConstant(s.buf);
    var t := TraceFlushWhen(b, s.trace, NoSpaceForConstant(b, 4, 4));
    s.(buf := PutIntWithConstantInt(s.buf, LoadTemplate(cc, rd), value, reusable),
       trace := TraceAppend(t, |c.code|, Load(cc, rd, value, reusable, None), InPool(SlotFor(c, value, reusable))))
  }

  function DoReserve(s: Session, insnSpace: nat, constSpace: nat): Session
    requires Valid(s.buf)
  {
    s.(buf := EnsureSpace(s.buf, insnSpace, constSpace),
       trace := TraceFlushWhen(s.buf, s.trace, NoSpaceForConstant(s.buf, insnSpace, constSpace)))
  }

  /** loadBranchTarget: reserve, record the jump, load a value yet unknown. */
  function DoBranch(s: Session, cc: Cond, rd: Reg, usePool: bool): Session
    requires Valid(s.buf)
  {
    var r := DoReserve(s, 4, 4);
    var c := DoConstant(r, cc, rd, INVALID_BRANCH_TARGET, false);
    c.(jumps := r.jumps + [Jump(|r.buf.code|, usePool)], owners := r.owners + [|r.trace.prog|])
  }

  function DoLabel(s: Session): Session
    requires Valid(s.buf)
  {
    var r := DoReserve(s, MAX_INSTRUCTION_SIZE, 8);
    r.(labels := r.labels + {Label(|r.buf.code|, |r.trace.prog|)})
  }

  function DoLink(s: Session, j: nat, dest: Label): Session
    requires j < |s.jumps| == |s.owners| && s.owners[j] < |s.trace.prog| && s.trace.prog[s.owners[j]].Load?
    requires HasSlot(s.buf, s.jumps[j].at)
  {
    s.(buf := LinkJump(s.buf, s.jumps[j].at, 4 * dest.at % WORD_LIMIT),
       trace := TraceLink(s.trace, s.owners[j], dest))
  }

  function DoCheckAligned(s: Session, alignment: nat): Session
    requires Valid(s.buf)
  {
    s.(buf := FlushIfNoSpaceFor(s.buf, alignment),
       trace := TraceFlushWhen(s.buf, s.trace, NoSpaceFor(s.buf, alignment)))
  }

  function DoFlushBehindJump(s: Session, isForced: bool): Session
    requires Valid(s.buf)
  {
    s.(buf := FlushWithoutBarrier(s.buf, isForced),
       trace := if WorthFlushing(s.buf, isForced) then TraceFlush(s.buf, s.trace, false) else s.trace)
  }

  // The invariant of a run.

  /** Recorded jumps are the loads of branch targets, in order; nothing else is ever
      linked or loaded into pc. */
  predicate JumpsHold(s: Session) {
    && |s.owners| == |s.jumps|
    && (forall j :: 0 <= j < |s.jumps| ==> OwnerHolds(s, j))
    && (forall i, j :: 0 <= i < j < |s.owners| ==> s.owners[i] < s.owners[j])
    && (forall k :: 0 <= k < |s.trace.prog| && MustBeJump(s.trace.prog[k]) ==> k in s.owners)
  }

  predicate MustBeJump(item: Item) {
    item.Load? && (item.target.Some? || item.rd == PC)
  }

  predicate OwnerHolds(s: Session, j: nat)
    requires j < |s.jumps| == |s.owners|
  {
    var k := s.owners[j];
    && k < |s.trace.prog| == |s.trace.pos| && s.trace.pos[k] == s.jumps[j].at
    && s.trace.prog[k].Load? && !s.trace.prog[k].reusable
    && s.trace.prog[k].value == INVALID_BRANCH_TARGET
  }

  predicate RunInv(s: Session) {
    Inv(s.buf, s.trace, s.labels) && JumpsHold(s)
  }

  // What the assembler demands of its callers.

  predicate Allowed(s: Session, call: Call) {
    match call
    case EmitPlain(w) => IsPlain(w)
    case EmitConstant(_, rd, _, _) => rd != PC
    case EmitBranch(_, _, _) => true
    case TakeLabel => true
    case LinkJumpTo(j, dest) =>
      && j < |s.jumps| == |s.owners| && dest in s.labels
      && s.owners[j] < |s.trace.prog| && s.trace.prog[s.owners[j]].Load?
    case Reserve(_, _) => true
    case CheckAligned(_) => true
    case FlushBehindJump(isForced) => EndUnreachable(s.trace, s.labels)
  }

  lemma LinkJumpHitsSlot(b: Buffer, t: Trace, k: nat, dest: Label)
    requires Shape(b, t) && Linkable(b, t, k)
    ensures HasSlot(b, t.pos[k])
    ensures LinkJump(b, t.pos[k], 4 * dest.at % WORD_LIMIT) == LinkItem(b, t, k, dest)
  {
    var item := t.prog[k];
    match t.slot[k]
    case InPool(i) => TagThenIndex(item.cc, item.rd, i);
    case InCode(a) => PlacedLoadFields(item.cc, item.rd, a - t.pos[k]);
  }

  lemma JumpHasSlot(s: Session, j: nat)
    requires RunInv(s) && j < |s.jumps|
    ensures s.owners[j] < |s.trace.prog| && Linkable(s.buf, s.trace, s.owners[j])
    ensures HasSlot(s.buf, s.jumps[j].at)
  {
    assert OwnerHolds(s, j);
    assert ItemInPlace(s.buf, s.trace, s.owners[j]);
    LinkJumpHitsSlot(s.buf, s.trace, s.owners[j], Label(0, 0));
  }

  // Each call keeps the invariant.

  /** Appending an instruction, or moving slots, does not disturb the jump records. */
  lemma JumpsKept(s: Session, r: Session)
    requires JumpsHold(s) && r.jumps == s.jumps && r.owners == s.owners
    requires |s.trace.pos| == |s.trace.prog| && |r.trace.pos| == |r.trace.prog|
    requires |s.trace.prog| <= |r.trace.prog|
    requires r.trace.prog[..|s.trace.prog|] == s.trace.prog && r.trace.pos[..|s.trace.pos|] == s.trace.pos
    requires forall k :: |s.trace.prog| <= k < |r.trace.prog| && r.trace.prog[k].Load? ==>
               r.trace.prog[k].target == None && r.trace.prog[k].rd != PC
    ensures JumpsHold(r)
  {
    assert forall k :: 0 <= k < |s.trace.prog| ==> r.trace.prog[k] == r.trace.prog[..|s.trace.prog|][k];
    assert forall k :: 0 <= k < |s.trace.pos| ==> r.trace.pos[k] == r.trace.pos[..|s.trace.pos|][k];
    forall j | 0 <= j < |r.jumps| ensures OwnerHolds(r, j) {
      assert OwnerHolds(s, j);
    }
  }

  lemma PlainKeepsInv(b: Buffer, t: Trace, labels: set<Label>, w: Word)
    requires Inv(b, t, labels) && IsPlain(w) && !NoSpaceFor(b, 4)
    ensures Inv(CorrectDeltas(Append(b, w), 4), TraceAppend(t, |b.code|, Plain(w), NoSlot), labels)
  {
    AppendKeepsValid(b, w);
    LoadsInside(b);
    AppendKeepsInv(b, t, CorrectDeltas(Append(b, w), 4), labels, Plain(w), NoSlot);
  }

  lemma DoPlainKeepsInv(s: Session, w: Word)
    requires Inv(s.buf, s.trace, s.labels) && IsPlain(w)
    ensures var r := DoPlain(s, w);
            && Inv(r.buf, r.trace, r.labels)
            && r.trace.prog == s.trace.prog + [Plain(w)]
            && r.trace.pos == s.trace.pos + [|FlushIfNoSpaceFor(s.buf, 4).code|]
  {
    var full := NoSpaceFor(s.buf, 4);
    FlushWhenKeepsInv(s.buf, s.trace, s.labels, full);
    PlainKeepsInv(FlushWhen(s.buf, full), TraceFlushWhen(s.buf, s.trace, full), s.labels, w);
  }

  lemma DoPlainKeeps(s: Session, w: Word)
    requires RunInv(s) && IsPlain(w)
    ensures RunInv(DoPlain(s, w))
  {
    DoPlainKeepsInv(s, w);
    JumpsKept(s, DoPlain(s, w));
  }

  lemma ResetKeepsInv(b: Buffer, t: Trace, labels: set<Label>)
    requires Inv(b, t, labels)
    ensures Inv(ResetDistance(b), t, labels)
  {
    var r := ResetDistance(b);
    forall k | 0 <= k < |t.prog| ensures ItemInPlace(r, t, k) {
      assert ItemInPlace(b, t, k);
    }
    assert Falls(b, t, 0, 0);
    forall k | 0 <= k < |t.prog| ensures FlowsOn(r, t, k) {
      assert FlowsOn(b, t, k);
    }
    forall l | l in labels ensures Falls(r, t, l.at, l.index) {
      assert Falls(b, t, l.at, l.index);
    }
  }

  /** A constant load is put with a slot of its own, or shares one of equal value. */
  lemma LoadKeepsInv(b: Buffer, t: Trace, labels: set<Label>, cc: Cond, rd: Reg, value: Word, reusable: bool)
    requires Inv(b, t, labels) && |b.pool| <= 510
    requires Valid(PutLoad(b, LoadTemplate(cc, rd), value, reusable))
    ensures Inv(PutLoad(b, LoadTemplate(cc, rd), value, reusable),
                TraceAppend(t, |b.code|, Load(cc, rd, value, reusable, None), InPool(SlotFor(b, value, reusable))),
                labels)
  {
    var i := SlotFor(b, value, reusable);
    var b' := PutLoad(b, LoadTemplate(cc, rd), value, reusable);
    var item, slot := Load(cc, rd, value, reusable, None), InPool(i);
    TagThenIndex(cc, rd, i);
    LoadsInside(b);
    forall j | 0 <= j < |t.prog| && t.slot[j] == slot
      ensures reusable && t.prog[j].Load? && t.prog[j].reusable
    {
      assert ItemInPlace(b, t, j);
    }
    AppendKeepsInv(b, t, b', labels, item, slot);
  }

  lemma DoConstantKeepsInv(s: Session, cc: Cond, rd: Reg, value: Word, reusable: bool)
    requires Inv(s.buf, s.trace, s.labels)
    ensures var r := DoConstant(s, cc, rd, value, reusable);
            && Inv(r.buf, r.trace, r.labels)
            && r.trace.prog == s.trace.prog + [Load(cc, rd, value, reusable, None)]
            && r.trace.pos == s.trace.pos + [|BeforeConstant(s.buf).code|]
  {
    var b := ResetDistance(s.buf);
    var full := NoSpaceForConstant(b, 4, 4);
    ResetKeepsInv(s.buf, s.trace, s.labels);
    FlushWhenKeepsInv(b, s.trace, s.labels, full);
    PutLoadKeepsValid(s.buf, LoadTemplate(cc, rd), value, reusable);
    LoadKeepsInv(BeforeConstant(s.buf), TraceFlushWhen(b, s.trace, full), s.labels, cc, rd, value, reusable);
  }

  lemma DoReserveKeeps(s: Session, n: nat, c: nat)
    requires RunInv(s)
    ensures RunInv(DoReserve(s, n, c))
    ensures var r := DoReserve(s, n, c);
            r.trace.prog == s.trace.prog && r.trace.pos == s.trace.pos && r.jumps == s.jumps && r.owners == s.owners && r.labels == s.labels
  {
    FlushWhenKeepsInv(s.buf, s.trace, s.labels, NoSpaceForConstant(s.buf, n, c));
    JumpsKept(s, DoReserve(s, n, c));
  }

  /** After the reservation of loadBranchTarget the load itself cannot flush, so the
      position recorded for the jump is the position of its load. */
  lemma ReservedLoadStays(b: Buffer)
    requires Valid(b)
    ensures var r := EnsureSpace(b, 4, 4); BeforeConstant(r) == ResetDistance(r)
  {
  }

  lemma DoBranchKeeps(s: Session, cc: Cond, rd: Reg, usePool: bool)
    requires RunInv(s)
    ensures RunInv(DoBranch(s, cc, rd, usePool))
  {
    var r := DoReserve(s, 4, 4);
    DoReserveKeeps(s, 4, 4);
    DoConstantKeepsInv(r, cc, rd, INVALID_BRANCH_TARGET, false);
    ReservedLoadStays(s.buf);
    BranchRecorded(r, DoBranch(s, cc, rd, usePool), cc, rd, usePool);
  }

  lemma BranchRecorded(s: Session, r: Session, cc: Cond, rd: Reg, usePool: bool)
    requires JumpsHold(s) && |s.trace.pos| == |s.trace.prog|
    requires r.trace.prog == s.trace.prog + [Load(cc, rd, INVALID_BRANCH_TARGET, false, None)]
    requires r.trace.pos == s.trace.pos + [|s.buf.code|]
    requires r.jumps == s.jumps + [Jump(|s.buf.code|, usePool)] && r.owners == s.owners + [|s.trace.prog|]
    ensures JumpsHold(r)
  {
    forall j | 0 <= j < |r.jumps| ensures OwnerHolds(r, j) {
      if j < |s.jumps| {
        assert OwnerHolds(s, j);
      }
    }
    forall i, j | 0 <= i < j < |r.owners| ensures r.owners[i] < r.owners[j] {
      assert OwnerHolds(s, i);
    }
    assert r.owners[|s.owners|] == |s.trace.prog|;
    forall k | 0 <= k < |s.trace.prog| && k in s.owners ensures k in r.owners {
    }
  }

  lemma DoLinkKeeps(s: Session, j: nat, dest: Label)
    requires RunInv(s) && Allowed(s, LinkJumpTo(j, dest))
    requires HasSlot(s.buf, s.jumps[j].at)
    ensures RunInv(DoLink(s, j, dest))
  {
    var k := s.owners[j];
    JumpHasSlot(s, j);
    assert OwnerHolds(s, j);
    LinkJumpHitsSlot(s.buf, s.trace, k, dest);
    LinkKeepsInv(s.buf, s.trace, k, dest, s.labels);
    var r := DoLink(s, j, dest);
    forall i | 0 <= i < |r.jumps| ensures OwnerHolds(r, i) {
      assert OwnerHolds(s, i);
    }
  }

  lemma DoConstantKeeps(s: Session, cc: Cond, rd: Reg, value: Word, reusable: bool)
    requires RunInv(s) && rd != PC
    ensures RunInv(DoConstant(s, cc, rd, value, reusable))
  {
    DoConstantKeepsInv(s, cc, rd, value, reusable);
    JumpsKept(s, DoConstant(s, cc, rd, value, reusable));
  }

  lemma DoLabelKeeps(s: Session)
    requires RunInv(s)
    ensures RunInv(DoLabel(s))
  {
    var r := DoReserve(s, MAX_INSTRUCTION_SIZE, 8);
    DoReserveKeeps(s, MAX_INSTRUCTION_SIZE, 8);
    LabelKeepsInv(r.buf, r.trace, r.labels);
    JumpsKept(s, DoLabel(s));
  }

  lemma DoCheckAlignedKeeps(s: Session, alignment: nat)
    requires RunInv(s)
    ensures RunInv(DoCheckAligned(s, alignment))
  {
    FlushWhenKeepsInv(s.buf, s.trace, s.labels, NoSpaceFor(s.buf, alignment));
    JumpsKept(s, DoCheckAligned(s, alignment));
  }

  lemma FlushBehindKeepsInv(s: Session, isForced: bool)
    requires Inv(s.buf, s.trace, s.labels) && EndUnreachable(s.trace, s.labels)
    ensures var r := DoFlushBehindJump(s, isForced);
            && Inv(r.buf, r.trace, r.labels)
            && r.trace.prog == s.trace.prog && r.trace.pos == s.trace.pos
  {
    FlushKeepsInv(s.buf, s.trace, s.labels, false);
  }

  lemma DoFlushBehindJumpKeeps(s: Session, isForced: bool)
    requires RunInv(s) && EndUnreachable(s.trace, s.labels)
    ensures RunInv(DoFlushBehindJump(s, isForced))
  {
    FlushBehindKeepsInv(s, isForced);
    JumpsKept(s, DoFlushBehindJump(s, isForced));
  }

  // Runs.

  /** A session some run can be in: the invariant holds. */
  type Live = s: Session | RunInv(s) witness FRESH

  /** One call; whatever is called, the invariant is kept. */
  function Do(s: Live, call: Call): Live
    requires Allowed(s, call)
  {
    match call
    case EmitPlain(w) => DoPlainKeeps(s, w); DoPlain(s, w)
    case EmitConstant(cc, rd, value, reusable) =>
      DoConstantKeeps(s, cc, rd, value, reusable); DoConstant(s, cc, rd, value, reusable)
    case EmitBranch(cc, rd, usePool) => DoBranchKeeps(s, cc, rd, usePool); DoBranch(s, cc, rd, usePool)
    case TakeLabel => DoLabelKeeps(s); DoLabel(s)
    case LinkJumpTo(j, dest) => JumpHasSlot(s, j); DoLinkKeeps(s, j, dest); DoLink(s, j, dest)
    case Reserve(n, c) => DoReserveKeeps(s, n, c); DoReserve(s, n, c)
    case CheckAligned(a) => DoCheckAlignedKeeps(s, a); DoCheckAligned(s, a)
    case FlushBehindJump(isForced) => DoFlushBehindJumpKeeps(s, isForced); DoFlushBehindJump(s, isForced)
  }

  predicate AllowedRun(s: Live, calls: seq<Call>)
    decreases |calls|
  {
    calls == [] || (Allowed(s, calls[0]) && AllowedRun(Do(s, calls[0]), calls[1..]))
  }

  function Run(s: Live, calls: seq<Call>): Live
    requires AllowedRun(s, calls)
    decreases |calls|
  {
    if calls == [] then s else Run(Do(s, calls[0]), calls[1..])
  }
}
