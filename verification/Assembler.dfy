/** The ARM assembler as an object: the pooled buffer and the list m_jumps. Every method
    is proved to do to the object's value what a call of Session does to a session, so the
    theorems about whole runs are about this object. */
module Assembler {
  import opened ArmEncoding
  import opened ConstantPool
  import opened Masks
  import opened AssemblerBuffer
  import opened PoolBuffer
  import opened Trace
  import opened Session
  import opened ExecutableCopy
  import opened PoolProperties

  /** The value of an assembler. */
  datatype State = State(buf: Buffer, jumps: seq<Jump>)

  /** An entry of m_jumps: the byte position of the load, its low bit for the pool. */
  function JumpOf(entry: nat): Jump { Jump(entry / 4, entry % 2 == 1) }

  function JumpsOf(entries: seq<nat>): (r: seq<Jump>)
    ensures |r| == |entries| && forall i :: 0 <= i < |entries| ==> r[i] == JumpOf(entries[i])
  {
    seq(|entries|, i requires 0 <= i < |entries| => JumpOf(entries[i]))
  }

  lemma EntryOf(words: nat, index: nat, bit: nat)
    requires index == 4 * words && bit <= 1
    ensures JumpOf(index + bit) == Jump(words, bit == 1)
  {
    Quarter(index + bit, words, bit);
    Parity(index + bit, 2 * words, bit);
  }

  lemma Quarter(x: nat, q: nat, r: nat)
    requires x == 4 * q + r && r < 4
    ensures x / 4 == q
  {
  }

  lemma Parity(x: nat, q: nat, r: nat)
    requires x == 2 * q + r && r < 2
    ensures x % 2 == r
  {
  }

  lemma JumpsAppend(entries: seq<nat>, entry: nat)
    ensures JumpsOf(entries + [entry]) == JumpsOf(entries) + [JumpOf(entry)]
  {
  }

  // Calls, as far as the value of the assembler goes.

  predicate CanApply(a: State, call: Call) {
    && Valid(a.buf)
    && (call.LinkJumpTo? ==>
          call.jump < |a.jumps| && CanLink(a.buf, a.jumps[call.jump].at, 4 * call.dest.at % WORD_LIMIT))
  }

  /** The load has a slot, and writing it disturbs no waiting load. */
  predicate CanLink(b: Buffer, p: nat, to: Word) { HasSlot(b, p) && Valid(LinkJump(b, p, to)) }

  function Apply(a: State, call: Call): State
    requires CanApply(a, call)
  {
    match call
    case EmitPlain(w) => a.(buf := PutInt(a.buf, w))
    case EmitConstant(cc, rd, value, reusable) =>
      a.(buf := PutIntWithConstantInt(a.buf, LoadTemplate(cc, rd), value, reusable))
    case EmitBranch(cc, rd, usePool) =>
      var b := EnsureSpace(a.buf, 4, 4);
      State(PutIntWithConstantInt(b, LoadTemplate(cc, rd), INVALID_BRANCH_TARGET, false),
            a.jumps + [Jump(|b.code|, usePool)])
    case TakeLabel => a.(buf := EnsureSpace(a.buf, MAX_INSTRUCTION_SIZE, 8))
    case LinkJumpTo(j, dest) => a.(buf := LinkJump(a.buf, a.jumps[j].at, 4 * dest.at % WORD_LIMIT))
    case Reserve(n, c) => a.(buf := EnsureSpace(a.buf, n, c))
    case CheckAligned(alignment) => a.(buf := FlushIfNoSpaceFor(a.buf, alignment))
    case FlushBehindJump(isForced) => a.(buf := FlushWithoutBarrier(a.buf, isForced))
  }

  function StateOf(s: Session): State { State(s.buf, s.jumps) }

  lemma LinkApplies(s: Live, j: nat, dest: Label)
    requires Allowed(s, LinkJumpTo(j, dest))
    ensures CanLink(s.buf, s.jumps[j].at, 4 * dest.at % WORD_LIMIT)
  {
    JumpHasSlot(s, j);
    DoLinkKeeps(s, j, dest);
  }

  lemma OtherApplies(s: Live, call: Call)
    requires Allowed(s, call) && !call.LinkJumpTo?
    ensures CanApply(StateOf(s), call) && StateOf(Do(s, call)) == Apply(StateOf(s), call)
  {
  }

  /** A call of a session, seen from the assembler: whatever a session is allowed, the
      assembler can do, and it does the same to its buffer and its jumps. */
  lemma CallApplies(s: Live, call: Call)
    requires Allowed(s, call)
    ensures CanApply(StateOf(s), call) && StateOf(Do(s, call)) == Apply(StateOf(s), call)
  {
    if call.LinkJumpTo? {
      LinkApplies(s, call.jump, call.dest);
    } else {
      OtherApplies(s, call);
    }
  }

  predicate CanApplyAll(a: State, calls: seq<Call>)
    decreases |calls|
  {
    calls == [] || (CanApply(a, calls[0]) && CanApplyAll(Apply(a, calls[0]), calls[1..]))
  }

  function ApplyAll(a: State, calls: seq<Call>): State
    requires CanApplyAll(a, calls)
    decreases |calls|
  {
    if calls == [] then a else ApplyAll(Apply(a, calls[0]), calls[1..])
  }

  /** So every run of a session is a run of the assembler, to the same buffer and jumps. */
  lemma {:induction false} RunApplies(s: Live, calls: seq<Call>, a: State)
    requires AllowedRun(s, calls) && a == StateOf(s)
    ensures CanApplyAll(a, calls) && ApplyAll(a, calls) == StateOf(Run(s, calls))
    decreases |calls|
  {
    if calls != [] {
      CallApplies(s, calls[0]);
      RunApplies(Do(s, calls[0]), calls[1..], Apply(a, calls[0]));
    }
  }

  /** The flush behind a jump: forced, or with more than 60% of the 2048 bytes in use, the
      pool goes behind the code without a barrier; else nothing happens. */
  lemma FlushBehindPlaces(a: State, isForced: bool)
    requires Valid(a.buf)
    ensures var r := Apply(a, FlushBehindJump(isForced));
            && r.jumps == a.jumps
            && if isForced || 100 * (4 * |a.buf.pool|) > 60 * 2048 then IsFlushed(a.buf, r.buf, false) else r == a
  {
    WorthFlushingIff(a.buf, isForced);
    FlushCases(a.buf, false);
  }

  predicate IsEmission(call: Call) { call.EmitPlain? || call.EmitConstant? }

  function PutOf(call: Call): (put: Put)
    requires IsEmission(call)
    ensures IsPut(put)
  {
    match call
    case EmitPlain(w) => Put.Insn(w)
    case EmitConstant(cc, rd, value, reusable) => Constant(LoadTemplate(cc, rd), value, reusable)
  }

  function PutsOf(calls: seq<Call>): (puts: seq<Put>)
    requires forall i :: 0 <= i < |calls| ==> IsEmission(calls[i])
    ensures WellFormed(puts) && |puts| == |calls|
  {
    seq(|calls|, i requires 0 <= i < |calls| => PutOf(calls[i]))
  }

  lemma {:induction false} EmissionsApply(a: State, calls: seq<Call>)
    requires Valid(a.buf) && forall i :: 0 <= i < |calls| ==> IsEmission(calls[i])
    ensures CanApplyAll(a, calls) && ApplyAll(a, calls) == a.(buf := PutAll(a.buf, PutsOf(calls)))
    decreases |calls|
  {
    if calls != [] {
      assert PutsOf(calls)[1..] == PutsOf(calls[1..]);
      assert Apply(a, calls[0]).buf == PutOne(a.buf, PutOf(calls[0]));
      EmissionsApply(Apply(a, calls[0]), calls[1..]);
    }
  }

  lemma ReservedPuts(b: Buffer, n: nat, c: nat, r: State, calls: seq<Call>, puts: seq<Put>)
    requires Valid(b) && Reservable(n, c) && forall i :: 0 <= i < |calls| ==> IsEmission(calls[i])
    requires puts == PutsOf(calls) && FitsIn(puts, n, c) && r.buf == EnsureSpace(b, n, c)
    ensures CanApplyAll(r, calls) && Contiguous(r.buf, puts, ApplyAll(r, calls).buf)
  {
    EmissionsApply(r, calls);
    Reservation(b, n, c, puts);
  }

  /** After a call of ensureSpace(n, c), whatever is emitted within it lies together. */
  lemma ReservedCalls(a: State, n: nat, c: nat, r: State, calls: seq<Call>)
    requires Valid(a.buf) && Reservable(n, c) && forall i :: 0 <= i < |calls| ==> IsEmission(calls[i])
    requires FitsIn(PutsOf(calls), n, c) && r == Apply(a, Reserve(n, c))
    ensures CanApplyAll(r, calls) && Contiguous(r.buf, PutsOf(calls), ApplyAll(r, calls).buf)
  {
    ReservedPuts(a.buf, n, c, r, calls, PutsOf(calls));
  }

  /** The calls align() makes, the last one for the label. */
  function AlignCalls(b: Buffer, alignment: nat): seq<Call>
    requires Valid(b) && alignment > 0
    decreases if b.pool == [] then 0 else 1, WordsTo(|b.code|, alignment)
  {
    var c := FlushIfNoSpaceFor(b, alignment);
    if IsAligned(|c.code|, alignment) then [CheckAligned(alignment), TakeLabel]
    else
      PadSteps(c, alignment);
      [CheckAligned(alignment), EmitPlain(MOV_R0_R0)] + AlignCalls(PutInt(c, MOV_R0_R0), alignment)
  }

  predicate IsAlignCall(call: Call) { call.CheckAligned? || call == EmitPlain(MOV_R0_R0) || call == TakeLabel }

  lemma OneThenRest(a: State, c: Call, rest: seq<Call>)
    requires CanApply(a, c) && CanApplyAll(Apply(a, c), rest)
    ensures CanApplyAll(a, [c] + rest) && ApplyAll(a, [c] + rest) == ApplyAll(Apply(a, c), rest)
  {
    assert ([c] + rest)[1..] == rest;
  }

  lemma {:induction false} TwoThenRest(a: State, c: Call, d: Call, rest: seq<Call>)
    requires CanApply(a, c) && CanApply(Apply(a, c), d) && CanApplyAll(Apply(Apply(a, c), d), rest)
    ensures CanApplyAll(a, [c, d] + rest) && ApplyAll(a, [c, d] + rest) == ApplyAll(Apply(Apply(a, c), d), rest)
  {
    OneThenRest(Apply(a, c), d, rest);
    OneThenRest(a, c, [d] + rest);
    assert [c, d] + rest == [c] + ([d] + rest);
  }

  /** align() is a run of checks, moves of r0 to itself, and one label. */
  lemma {:induction false} AlignIsRun(a: State, alignment: nat)
    requires Valid(a.buf) && alignment > 0
    ensures CanApplyAll(a, AlignCalls(a.buf, alignment))
    ensures ApplyAll(a, AlignCalls(a.buf, alignment))
            == a.(buf := EnsureSpace(AlignLoop(a.buf, alignment), MAX_INSTRUCTION_SIZE, 8))
    decreases if a.buf.pool == [] then 0 else 1, WordsTo(|a.buf.code|, alignment)
  {
    var c := Apply(a, CheckAligned(alignment));
    if IsAligned(|c.buf.code|, alignment) {
      assert [CheckAligned(alignment), TakeLabel] + [] == AlignCalls(a.buf, alignment);
      TwoThenRest(a, CheckAligned(alignment), TakeLabel, []);
    } else {
      PadSteps(c.buf, alignment);
      var d := Apply(c, EmitPlain(MOV_R0_R0));
      AlignIsRun(d, alignment);
      TwoThenRest(a, CheckAligned(alignment), EmitPlain(MOV_R0_R0), AlignCalls(d.buf, alignment));
    }
  }

  /** Such a run is allowed at any point of any session. */
  lemma {:induction false} AlignIsAllowed(s: Live, calls: seq<Call>)
    requires forall i :: 0 <= i < |calls| ==> IsAlignCall(calls[i])
    ensures AllowedRun(s, calls)
    decreases |calls|
  {
    if calls != [] {
      assert IsAlignCall(calls[0]) && Allowed(s, calls[0]);
      AlignIsAllowed(Do(s, calls[0]), calls[1..]);
    }
  }

  /** The recorded jump is the load itself, and the label handed out, the end of the code,
      is just behind it: the reservation keeps a pool from coming in between. */
  lemma BranchLabel(a: State, cc: Cond, rd: Reg, usePool: bool)
    requires Valid(a.buf)
    ensures var r := Apply(a, EmitBranch(cc, rd, usePool));
            && |r.jumps| == |a.jumps| + 1
            && 4 * |r.buf.code| == 4 * r.jumps[|a.jumps|].at + 4
  {
    BranchIsOneWord(a.buf, LoadTemplate(cc, rd));
  }

  /** In every round of the final pass the jump at hand is a load with its slot in the code. */
  predicate JumpsReadable(code: seq<Word>, base: nat, jumps: seq<Jump>) {
    forall n :: 0 <= n < |jumps| ==> RoundReads(code, base, jumps, n)
  }

  predicate RoundReads(code: seq<Word>, base: nat, jumps: seq<Jump>, n: nat) {
    n < |jumps| && ReadsSlot(Relocate(code, base, jumps, n), jumps[n].at)
  }

  lemma ReadableAt(code: seq<Word>, base: nat, jumps: seq<Jump>, n: nat)
    requires JumpsReadable(code, base, jumps) && n < |jumps|
    ensures ReadsSlot(Relocate(code, base, jumps, n), jumps[n].at)
    ensures Relocate(code, base, jumps, n + 1) == RelocateOne(Relocate(code, base, jumps, n), base, jumps[n])
  {
    assert RoundReads(code, base, jumps, n);
  }

  lemma RelocateCases(image: seq<Word>, base: nat, entry: nat)
    requires ReadsSlot(image, JumpOf(entry).at)
    ensures var p := entry / 4;
            var a := p + LiteralDistance(image[p]) / 4;
            var diff := image[a] / 4 - (p + 2);
            RelocateOne(image, base, JumpOf(entry))
            == if image[a] == INVALID_BRANCH_TARGET then image
               else if entry % 2 == 0 && -0x800000 <= diff <= 0x7fffff then image[p := Branch(CondField(image[p]), diff + 2)]
               else image[a := (base + image[a]) % WORD_LIMIT]
  {
  }

  lemma SessionReadable(s: Live, base: nat)
    requires base + 4 * |Image(s, base)| < WORD_LIMIT
    ensures JumpsReadable(FinishedCode(s.buf), base, s.jumps)
  {
    forall n | 0 <= n < |s.jumps| ensures RoundReads(FinishedCode(s.buf), base, s.jumps, n) {
      JumpIsReadable(s, base, n);
    }
  }

  lemma BranchIsOneWord(b: Buffer, load: Word)
    requires Valid(b) && IsUp(load)
    ensures var r := EnsureSpace(b, 4, 4);
            |PutIntWithConstantInt(r, load, INVALID_BRANCH_TARGET, false).code| == |r.code| + 1
  {
    ReservedLoadStays(b);
  }

  class ArmAssembler {
    const buffer: PooledBuffer
    var jumps: seq<nat>

    ghost function Memory(): set<object>
      reads buffer.buffer
    {
      {buffer, buffer.buffer, buffer.buffer.storage, buffer.pool, buffer.mask}
    }

    ghost predicate Sound()
      reads buffer, buffer.buffer, buffer.buffer.storage, buffer.pool, buffer.mask
    {
      buffer.Sound()
    }

    ghost function View(): State
      requires Sound()
      reads this, buffer, buffer.buffer, buffer.buffer.storage, buffer.pool, buffer.mask
    {
      State(buffer.View(), JumpsOf(jumps))
    }

    constructor ()
      ensures Sound() && View() == StateOf(FRESH) && fresh(Memory())
    {
      buffer := new PooledBuffer();
      jumps := [];
    }

    method EmitInst(w: Word)
      requires Sound()
      modifies Memory()
      ensures Sound() && (buffer.buffer.storage == old(buffer.buffer.storage) || fresh(buffer.buffer.storage))
      ensures View() == Apply(old(View()), EmitPlain(w))
    {
      buffer.PutInt(w);
    }

    method LdrImm(rd: Reg, imm: Word, cc: Cond)
      requires Sound()
      modifies Memory()
      ensures Sound() && (buffer.buffer.storage == old(buffer.buffer.storage) || fresh(buffer.buffer.storage))
      ensures View() == Apply(old(View()), EmitConstant(cc, rd, imm, true))
    {
      buffer.PutIntWithConstantInt(LoadTemplate(cc, rd), imm, true);
    }

    method LdrUnImm(rd: Reg, imm: Word, cc: Cond)
      requires Sound()
      modifies Memory()
      ensures Sound() && (buffer.buffer.storage == old(buffer.buffer.storage) || fresh(buffer.buffer.storage))
      ensures View() == Apply(old(View()), EmitConstant(cc, rd, imm, false))
    {
      buffer.PutIntWithConstantInt(LoadTemplate(cc, rd), imm, false);
    }

    method ReserveSpace(insnSpace: nat, constSpace: nat)
      requires Sound()
      modifies Memory()
      ensures Sound() && (buffer.buffer.storage == old(buffer.buffer.storage) || fresh(buffer.buffer.storage))
      ensures View() == Apply(old(View()), Reserve(insnSpace, constSpace))
    {
      buffer.EnsureSpace(insnSpace, constSpace);
    }

    method CodeSize() returns (size: nat)
      requires buffer.buffer.Valid()
      ensures size == 4 * |buffer.buffer.Code()|
    {
      size := buffer.buffer.index;
      WholeWords(size);
    }

    /** Reserve, then note where the load is going to be. */
    method NoteJump(bit: nat)
      requires Sound() && bit <= 1
      modifies this, Memory()
      ensures Sound() && (buffer.buffer.storage == old(buffer.buffer.storage) || fresh(buffer.buffer.storage))
      ensures |jumps| == |old(jumps)| + 1
      ensures var b := EnsureSpace(old(View()).buf, 4, 4);
              View() == State(b, old(View()).jumps + [Jump(|b.code|, bit == 1)])
    {
      ghost var b := EnsureSpace(View().buf, 4, 4);
      buffer.EnsureSpace(4, 4);
      assert View() == State(b, old(View()).jumps);
      var size := CodeSize();
      EntryOf(|b.code|, size, bit);
      Record(size + bit);
    }

    method Record(entry: nat)
      requires Sound()
      modifies this`jumps
      ensures Sound() && jumps == old(jumps) + [entry]
      ensures View() == old(View()).(jumps := old(View()).jumps + [JumpOf(entry)])
    {
      JumpsAppend(jumps, entry);
      jumps := jumps + [entry];
    }

    method LoadBranchTarget(rd: Reg, cc: Cond, useConstantPool: nat) returns (at: nat)
      requires Sound()
      modifies this, Memory()
      ensures Sound() && (buffer.buffer.storage == old(buffer.buffer.storage) || fresh(buffer.buffer.storage))
      ensures View() == Apply(old(View()), EmitBranch(cc, rd, useConstantPool % 2 == 1))
      ensures at == 4 * |View().buf.code|
    {
      NoteJump(useConstantPool % 2);
      LdrUnImm(rd, INVALID_BRANCH_TARGET, cc);
      at := CodeSize();
    }

    method Jmp(cc: Cond, useConstantPool: nat) returns (at: nat)
      requires Sound()
      modifies this, Memory()
      ensures Sound() && (buffer.buffer.storage == old(buffer.buffer.storage) || fresh(buffer.buffer.storage))
      ensures View() == Apply(old(View()), EmitBranch(cc, PC, useConstantPool % 2 == 1))
      ensures at == 4 * |View().buf.code|
    {
      at := LoadBranchTarget(PC, cc, useConstantPool);
    }

    method MakeLabel() returns (at: nat)
      requires Sound()
      modifies Memory()
      ensures Sound() && (buffer.buffer.storage == old(buffer.buffer.storage) || fresh(buffer.buffer.storage))
      ensures View() == Apply(old(View()), TakeLabel) && at == 4 * |View().buf.code|
    {
      buffer.EnsureSpaceForAnyOneInstruction();
      at := CodeSize();
    }

    /** align: ends, although the check, the moves and the label may each flush; from 16
        bytes on, the label passes the test for alignment. */
    method Align(alignment: nat) returns (at: nat)
      requires Sound() && alignment > 0
      modifies Memory()
      ensures Sound() && (buffer.buffer.storage == old(buffer.buffer.storage) || fresh(buffer.buffer.storage))
      ensures View() == old(View()).(buf := EnsureSpace(AlignLoop(old(View()).buf, alignment), MAX_INSTRUCTION_SIZE, 8))
      ensures at == 4 * |View().buf.code|
      ensures alignment >= 16 ==> Masked(at, alignment - 1) == 0
      ensures alignment >= 16 && IsPowerOfTwo(alignment) ==> at % alignment == 0
    {
      AlignCode(alignment);
      LabelAligned(old(View()).buf, alignment);
      at := MakeLabel();
    }

    method AlignCode(alignment: nat)
      requires Sound() && alignment > 0
      modifies Memory()
      ensures Sound() && (buffer.buffer.storage == old(buffer.buffer.storage) || fresh(buffer.buffer.storage))
      ensures buffer.View() == AlignLoop(old(buffer.View()), alignment)
    {
      AlignStart(buffer.View(), alignment);
      var aligned := buffer.IsAligned(alignment);
      while !aligned
        invariant Sound() && (buffer.buffer.storage == old(buffer.buffer.storage) || fresh(buffer.buffer.storage))
        invariant !NoSpaceFor(buffer.View(), alignment)
        invariant AlignLoop(buffer.View(), alignment) == AlignLoop(old(buffer.View()), alignment)
        invariant aligned <==> IsAligned(|buffer.View().code|, alignment)
        decreases if buffer.View().pool == [] then 0 else 1, WordsTo(|buffer.View().code|, alignment)
      {
        aligned := PadOnce(alignment);
      }
      AlignEnd(buffer.View(), alignment);
    }

    method PadOnce(alignment: nat) returns (aligned: bool)
      requires Sound() && alignment > 0
      requires !NoSpaceFor(buffer.View(), alignment) && !IsAligned(|buffer.View().code|, alignment)
      modifies Memory()
      ensures Sound() && (buffer.buffer.storage == old(buffer.buffer.storage) || fresh(buffer.buffer.storage))
      ensures !NoSpaceFor(buffer.View(), alignment)
      ensures aligned <==> IsAligned(|buffer.View().code|, alignment)
      ensures AlignLoop(old(buffer.View()), alignment) == AlignLoop(buffer.View(), alignment)
      ensures Closer(buffer.View(), old(buffer.View()), alignment)
    {
      AlignRound(buffer.View(), alignment);
      buffer.PutInt(MOV_R0_R0);
      aligned := buffer.IsAligned(alignment);
    }

    method FlushBehind(isForced: bool)
      requires Sound()
      modifies Memory()
      ensures Sound() && (buffer.buffer.storage == old(buffer.buffer.storage) || fresh(buffer.buffer.storage))
      ensures View() == Apply(old(View()), FlushBehindJump(isForced))
    {
      buffer.FlushWithoutBarrier(isForced);
    }

    /** linkJump: writes the slot of the load just before the label `from`. */
    method LinkTo(from: nat, to: Word)
      requires Sound() && from >= 4 && from % 4 == 0 && CanLink(View().buf, from / 4 - 1, to)
      modifies Memory()
      ensures Sound() && buffer.buffer.storage == old(buffer.buffer.storage)
      ensures View() == old(View()).(buf := LinkJump(old(View()).buf, from / 4 - 1, to))
    {
      ghost var b := buffer.View();
      var p := from / 4 - 1;
      var insn := buffer.buffer.storage[p];
      if IsTagged(insn) {
        buffer.pool[TagIndex(insn)] := to;
      } else {
        buffer.buffer.Patch(p + LiteralDistance(insn) / 4, to);
      }
      assert buffer.View() == LinkJump(b, p, to);
    }

    /** One round of the loop of executableCopy. */
    static method RelocateJump(data: array<Word>, base: nat, entry: nat)
      requires ReadsSlot(data[..], JumpOf(entry).at)
      modifies data
      ensures data[..] == RelocateOne(old(data[..]), base, JumpOf(entry))
    {
      RelocateCases(data[..], base, entry);
      var ldr := entry / 4;
      var addr := ldr + LiteralDistance(data[ldr]) / 4;
      if data[addr] != INVALID_BRANCH_TARGET {
        if entry % 2 == 0 {
          var diff := data[addr] / 4 - (ldr + 2);
          if -0x800000 <= diff <= 0x7fffff {
            data[ldr] := Branch(CondField(data[ldr]), diff + 2);
            return;
          }
        }
        data[addr] := (base + data[addr]) % WORD_LIMIT;
      }
    }

    static method RelocateJumps(data: array<Word>, base: nat, entries: seq<nat>)
      requires JumpsReadable(data[..], base, JumpsOf(entries))
      modifies data
      ensures data[..] == Relocate(old(data[..]), base, JumpsOf(entries), |entries|)
    {
      ghost var code, js := data[..], JumpsOf(entries);
      for n := 0 to |entries|
        invariant data[..] == Relocate(code, base, js, n)
      {
        ReadableAt(code, base, js, n);
        RelocateJump(data, base, entries[n]);
      }
    }

    /** The last pool and padding to eight bytes. */
    method Finish()
      requires Sound()
      modifies Memory()
      ensures Sound() && (buffer.buffer.storage == old(buffer.buffer.storage) || fresh(buffer.buffer.storage))
      ensures buffer.View().code == FinishedCode(old(buffer.View())) && buffer.View().pool == []
    {
      buffer.FlushWithoutBarrier(true);
      EightBytes(buffer.buffer.index);
      if buffer.buffer.index % 8 != 0 {
        buffer.PutInt(BKPT0);
      }
    }

    method CopyFinished() returns (data: array<Word>)
      requires Sound()
      modifies Memory()
      ensures fresh(data) && data[..] == FinishedCode(old(buffer.View()))
      ensures IsPadded(data[..], FlushWithoutBarrier(old(buffer.View()), true).code)
    {
      FinishedIsPadded(buffer.View());
      Finish();
      buffer.FlushConstantPool(false);
      data := buffer.buffer.Copy();
    }

    /** executableCopy: the last pool, padding, the copy, and the relocation of the jumps. */
    method MakeExecutable(base: nat) returns (data: array<Word>)
      requires Sound() && |FinishedCode(buffer.View())| > 0
      requires JumpsReadable(FinishedCode(buffer.View()), base, JumpsOf(jumps))
      modifies Memory()
      ensures data[..] == Relocate(FinishedCode(old(buffer.View())), base, JumpsOf(old(jumps)), |old(jumps)|)
      ensures data.Length % 2 == 0
      ensures var n := |FlushWithoutBarrier(old(buffer.View()), true).code|; n <= data.Length <= n + 1
    {
      var entries := jumps;
      FinishedIsPadded(buffer.View());
      data := CopyFinished();
      RelocateJumps(data, base, entries);
    }
  }

  lemma EightBytes(index: nat)
    requires index % 4 == 0
    ensures index % 8 != 0 <==> index / 4 % 2 == 1
  {
  }

  lemma LabelAligned(b: Buffer, alignment: nat)
    requires Valid(b) && alignment > 0
    ensures var r := EnsureSpace(AlignLoop(b, alignment), MAX_INSTRUCTION_SIZE, 8);
            && (alignment >= 16 ==> IsAligned(|r.code|, alignment))
            && (alignment >= 16 && IsPowerOfTwo(alignment) ==> 4 * |r.code| % alignment == 0)
  {
    if alignment >= 16 {
      AlignedLabel(b, alignment);
    }
  }
}
