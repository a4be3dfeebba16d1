/** The main results about the assembler, for every sequence of calls from a fresh one. */
module WholeRun {
  import opened ArmEncoding
  import opened ConstantPool
  import opened Trace
  import opened Session
  import opened ExecutableCopy
  import opened Execution

  // The program a sequence of calls asks for, read off the calls alone.

  /** `branches` are the jumps among the instructions, `inPool` tells which of them asked
      for the pool. */
  datatype Source = Source(insns: seq<Asked>, branches: seq<nat>, inPool: seq<bool>)

  datatype Asked = AskPlain(word: Word) | AskLoad(cc: Cond, rd: Reg, value: Word, target: Option<nat>)

  function Ask(p: Source, call: Call): Source {
    match call
    case EmitPlain(w) => p.(insns := p.insns + [AskPlain(w)])
    case EmitConstant(cc, rd, value, _) => p.(insns := p.insns + [AskLoad(cc, rd, value, None)])
    case EmitBranch(cc, rd, usePool) =>
      Source(p.insns + [AskLoad(cc, rd, INVALID_BRANCH_TARGET, None)], p.branches + [|p.insns|], p.inPool + [usePool])
    case LinkJumpTo(j, dest) =>
      if j < |p.branches| && p.branches[j] < |p.insns| && p.insns[p.branches[j]].AskLoad? then
        p.(insns := p.insns[p.branches[j] := p.insns[p.branches[j]].(target := Some(dest.index))])
      else p
    case _ => p
  }

  function AskAll(p: Source, calls: seq<Call>): Source
    decreases |calls|
  {
    if calls == [] then p else AskAll(Ask(p, calls[0]), calls[1..])
  }

  /** An instruction without its place: where a target lies in the code is forgotten. */
  function Erase(item: Item): Asked {
    match item
    case Plain(w) => AskPlain(w)
    case Load(cc, rd, value, _, target) =>
      AskLoad(cc, rd, value, if target.Some? then Some(target.value.index) else None)
  }

  predicate IsSource(s: Session, p: Source) {
    && s.owners == p.branches
    && |p.inPool| == |s.jumps| && (forall j :: 0 <= j < |s.jumps| ==> s.jumps[j].usePool == p.inPool[j])
    && |p.insns| == |s.trace.prog|
    && forall k :: 0 <= k < |p.insns| ==> p.insns[k] == Erase(s.trace.prog[k])
  }

  lemma DoPlainProgram(s: Session, w: Word)
    requires RunInv(s)
    ensures DoPlain(s, w).trace.prog == s.trace.prog + [Plain(w)]
  {
    FlushWhenKeepsInv(s.buf, s.trace, s.labels, NoSpaceFor(s.buf, 4));
  }

  lemma DoBranchProgram(s: Session, cc: Cond, rd: Reg, usePool: bool)
    requires RunInv(s)
    ensures var r := DoBranch(s, cc, rd, usePool);
            && r.trace.prog == s.trace.prog + [Load(cc, rd, INVALID_BRANCH_TARGET, false, None)]
            && r.owners == s.owners + [|s.trace.prog|]
            && OneMoreJump(s, r, usePool)
  {
    DoReserveKeeps(s, 4, 4);
    DoConstantKeepsInv(DoReserve(s, 4, 4), cc, rd, INVALID_BRANCH_TARGET, false);
  }

  lemma DoFlushProgram(s: Session, isForced: bool)
    requires RunInv(s)
    ensures DoFlushBehindJump(s, isForced).trace.prog == s.trace.prog
  {
  }

  lemma DoCheckProgram(s: Session, alignment: nat)
    requires RunInv(s)
    ensures DoCheckAligned(s, alignment).trace.prog == s.trace.prog
  {
  }

  predicate OneMoreJump(s: Session, r: Session, usePool: bool) {
    && |r.jumps| == |s.jumps| + 1 && r.jumps[..|s.jumps|] == s.jumps
    && r.jumps[|s.jumps|].usePool == usePool
  }

  predicate ProgramFollows(s: Session, call: Call, r: Session) {
    InstructionsFollow(s, call, r) && if call.EmitBranch? then OneMoreJump(s, r, call.usePool) else r.jumps == s.jumps
  }

  predicate InstructionsFollow(s: Session, call: Call, r: Session) {
    match call
    case EmitPlain(w) => r.trace.prog == s.trace.prog + [Plain(w)] && r.owners == s.owners
    case EmitConstant(cc, rd, value, reusable) =>
      r.trace.prog == s.trace.prog + [Load(cc, rd, value, reusable, None)] && r.owners == s.owners
    case EmitBranch(cc, rd, _) =>
      && r.trace.prog == s.trace.prog + [Load(cc, rd, INVALID_BRANCH_TARGET, false, None)]
      && r.owners == s.owners + [|s.trace.prog|]
    case LinkJumpTo(j, dest) =>
      && j < |s.owners| && s.owners[j] < |s.trace.prog| && s.trace.prog[s.owners[j]].Load?
      && r.trace.prog == TraceLink(s.trace, s.owners[j], dest).prog && r.owners == s.owners
    case _ => r.trace.prog == s.trace.prog && r.owners == s.owners
  }

  lemma DoFollows(s: Live, call: Call)
    requires Allowed(s, call)
    ensures ProgramFollows(s, call, Do(s, call))
  {
    match call
    case EmitPlain(w) => DoPlainProgram(s, w);
    case EmitConstant(cc, rd, value, reusable) => DoConstantKeepsInv(s, cc, rd, value, reusable);
    case EmitBranch(cc, rd, usePool) => DoBranchProgram(s, cc, rd, usePool);
    case TakeLabel => DoReserveKeeps(s, MAX_INSTRUCTION_SIZE, 8);
    case LinkJumpTo(j, dest) => JumpHasSlot(s, j);
    case Reserve(n, c) => DoReserveKeeps(s, n, c);
    case CheckAligned(a) => DoCheckProgram(s, a);
    case FlushBehindJump(isForced) => DoFlushProgram(s, isForced);
  }

  lemma FollowsIsAsked(s: Session, call: Call, r: Session, p: Source)
    requires ProgramFollows(s, call, r) && IsSource(s, p)
    ensures IsSource(r, Ask(p, call))
  {
    if call.EmitBranch? {
      forall j | 0 <= j < |s.jumps| ensures r.jumps[j] == s.jumps[j] {
        assert r.jumps[j] == r.jumps[..|s.jumps|][j];
      }
    }
  }

  /** The trace of a run holds exactly the program its calls ask for. */
  lemma {:induction false} TraceIsSource(s: Live, calls: seq<Call>, p: Source)
    requires AllowedRun(s, calls) && IsSource(s, p)
    ensures IsSource(Run(s, calls), AskAll(p, calls))
    decreases |calls|
  {
    if calls != [] {
      DoFollows(s, calls[0]);
      FollowsIsAsked(s, calls[0], Do(s, calls[0]), p);
      TraceIsSource(Do(s, calls[0]), calls[1..], Ask(p, calls[0]));
    }
  }

  /** A fresh assembler holds the empty program, so from there the trace of a run holds
      exactly what its calls ask for. */
  lemma FreshIsEmpty()
    ensures RunInv(FRESH) && IsSource(FRESH, Source([], [], []))
  {
  }

  // Meaning preservation, for a session s at the end of any run (any run of a fresh
  // assembler ends in a Live session, by the type of Run).

  function Map(s: Live): Trace { FinalTrace(s.buf, s.trace) }

  predicate Loadable(image: seq<Word>, base: nat) { base % 4 == 0 && base + 4 * |image| < WORD_LIMIT }

  /** Entered at l, program and machine start out in agreement. */
  lemma RunIsSet<S(!new)>(cpu: Cpu<S>, s: Live, base: nat, l: Label, x: S)
    requires Loadable(Image(s, base), base) && AllRedirect(s) && WellBehaved(cpu) && l in Entries(s.labels)
    ensures Map(s).prog == s.trace.prog
    ensures Setting(cpu, Image(s, base), base, Map(s))
    ensures Agrees(Image(s, base), Map(s), Running(l.index, x), Running(l.at, x))
  {
    ImageHolds(s, base);
    if l.index < |s.trace.prog| {
      EntryInImage(s, base, l);
    }
  }

  /** Whatever was called, whatever the processor, address and start state, entered at its
      first word or at any label: as long as the program asked for is defined, the
      finished code does what it does. */
  lemma MeaningPreserved<S(!new)>(cpu: Cpu<S>, s: Live, base: nat, l: Label, x: S, n: nat) returns (m: nat)
    requires Loadable(Image(s, base), base) && AllRedirect(s) && WellBehaved(cpu) && l in Entries(s.labels)
    requires forall i :: 0 <= i < n ==> OnTrack(s.trace.prog, ProgramSteps(cpu, s.trace.prog, base, Running(l.index, x), i))
    ensures m <= 2 * n
    ensures Agrees(Image(s, base), Map(s),
                   ProgramSteps(cpu, s.trace.prog, base, Running(l.index, x), n),
                   Steps(cpu, Image(s, base), base, Running(l.at, x), m))
  {
    RunIsSet(cpu, s, base, l, x);
    m := Forwards(cpu, Image(s, base), base, Map(s), Running(l.index, x), Running(l.at, x), n);
  }

  /** And it does nothing else: as long as the program has not run off its end, every place
      the machine reaches belongs to a state of the program, and is an instruction or a
      barrier, never padding or a pool. */
  lemma NothingElseExecuted<S(!new)>(cpu: Cpu<S>, s: Live, base: nat, l: Label, x: S, m: nat) returns (n: nat)
    requires Loadable(Image(s, base), base) && AllRedirect(s) && WellBehaved(cpu) && l in Entries(s.labels)
    requires forall i :: 0 <= i <= m ==> OnTrack(s.trace.prog, ProgramSteps(cpu, s.trace.prog, base, Running(l.index, x), i))
    ensures n <= m
    ensures OnCode(Map(s), Steps(cpu, Image(s, base), base, Running(l.at, x), m))
    ensures Agrees(Image(s, base), Map(s),
                   ProgramSteps(cpu, s.trace.prog, base, Running(l.index, x), n),
                   Steps(cpu, Image(s, base), base, Running(l.at, x), m))
  {
    RunIsSet(cpu, s, base, l, x);
    n := Backwards(cpu, Image(s, base), base, Map(s), Running(l.index, x), Running(l.at, x), m);
    LockStep(cpu, Image(s, base), base, Map(s),
             ProgramSteps(cpu, s.trace.prog, base, Running(l.index, x), n),
             Steps(cpu, Image(s, base), base, Running(l.at, x), m));
  }
}
