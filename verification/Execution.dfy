/** Meaning. A machine steps over the words of an image, branches and literal loads being
    executed word by word as the ARM manual describes them (ARM DDI 0100: section A4.1.5
    B, section A4.1.23 LDR, section A5.2.2 immediate offset); every other instruction has
    whatever meaning the processor gives it. Beside it, the program the caller asked for
    is stepped instruction by instruction, each constant load simply yielding its
    constant. The two are proved to agree on every run. */
module Execution {
  import opened ArmEncoding
  import opened ConstantPool
  import opened Trace
  import opened Session
  import opened ExecutableCopy

  datatype Effect<S> = Next(state: S) | Leave(state: S)

  /** A processor: what plain instructions do, when conditions hold, how a register is
      set. Theorems quantify over all of them. */
  datatype Cpu<!S> = Cpu(
    plain: (Word, S) -> Effect<S>,
    holds: (Cond, S) -> bool,
    write: (Reg, Word, S) -> S)

  ghost predicate WellBehaved<S(!new)>(cpu: Cpu<S>) {
    && (forall s :: cpu.holds(AL, s))
    && (forall w, s :: IsReturn(w) ==> cpu.plain(w, s).Leave?)
  }

  /** Running at a place, gone by a plain instruction, gone to an address outside, or
      somewhere no instruction is defined. */
  datatype Status<S> = Running(pc: int, state: S) | Gone(state: S) | GoneTo(address: Word, state: S) | Stuck

  // The machine.

  /** A value put into pc: an aligned address inside the image, or anything else. */
  function Goto<S>(size: nat, base: nat, value: Word, s: S): Status<S> {
    if base <= value < base + 4 * size && (value - base) % 4 == 0 then Running((value - base) / 4, s)
    else GoneTo(value, s)
  }

  function Step<S>(cpu: Cpu<S>, image: seq<Word>, base: nat, st: Status<S>): Status<S> {
    if !st.Running? then st
    else if !(0 <= st.pc < |image|) then Stuck
    else
      var pc, s, w := st.pc, st.state, image[st.pc];
      if IsBranch(w) && CondField(w) < 15 then
        if cpu.holds(CondField(w), s) then Running(pc + BranchDistance(w), s) else Running(pc + 1, s)
      else if IsLiteralLoad(w) && CondField(w) < 15 then
        if !cpu.holds(CondField(w), s) then Running(pc + 1, s)
        else
          var address := 4 * pc + LiteralDistance(w);
          if address % 4 != 0 || !(0 <= address < 4 * |image|) then Stuck
          else
            var value := image[address / 4];
            if RdField(w) == PC then Goto(|image|, base, value, s)
            else Running(pc + 1, cpu.write(RdField(w), value, s))
      else
        match cpu.plain(w, s)
        case Next(s') => Running(pc + 1, s')
        case Leave(s') => Gone(s')
  }

  function Steps<S>(cpu: Cpu<S>, image: seq<Word>, base: nat, st: Status<S>, n: nat): Status<S> {
    if n == 0 then st else Step(cpu, image, base, Steps(cpu, image, base, st, n - 1))
  }

  // The program.

  function ProgramStep<S>(cpu: Cpu<S>, prog: seq<Item>, base: nat, st: Status<S>): Status<S> {
    if !st.Running? then st
    else if !(0 <= st.pc < |prog|) then Stuck
    else
      var k, s := st.pc, st.state;
      match prog[k]
      case Plain(w) =>
        (match cpu.plain(w, s)
         case Next(s') => Running(k + 1, s')
         case Leave(s') => Gone(s'))
      case Load(cc, rd, value, _, target) =>
        if !cpu.holds(cc, s) then Running(k + 1, s)
        else
          match target
          case None =>
            if rd == PC then GoneTo(value, s) else Running(k + 1, cpu.write(rd, value, s))
          case Some(dest) =>
            if rd == PC then Running(dest.index, s)
            else Running(k + 1, cpu.write(rd, (base + 4 * dest.at) % WORD_LIMIT, s))
  }

  function ProgramSteps<S>(cpu: Cpu<S>, prog: seq<Item>, base: nat, st: Status<S>, n: nat): Status<S> {
    if n == 0 then st else ProgramStep(cpu, prog, base, ProgramSteps(cpu, prog, base, st, n - 1))
  }

  // Agreement.

  /** The machine is where the program is, or on the barrier that leads there; once the
      program has run off its end nothing is claimed. */
  predicate Agrees<S(==)>(image: seq<Word>, t: Trace, p: Status<S>, m: Status<S>) {
    match p
    case Running(k, s) =>
      0 <= k && (k < |t.prog| ==> m.Running? && m.state == s && 0 <= m.pc && FallsIn(image, t, m.pc, k))
    case Gone(_) => m == p
    case GoneTo(_, _) => m == p
    case Stuck => true
  }

  /** The program is at a real instruction, or has properly left. */
  predicate OnTrack<S>(prog: seq<Item>, p: Status<S>) {
    match p
    case Running(k, _) => 0 <= k < |prog|
    case Stuck => false
    case _ => true
  }

  /** The machine stands on an instruction or a barrier, never on padding or data. */
  predicate OnCode<S>(t: Trace, m: Status<S>) {
    m.Running? ==> 0 <= m.pc < |t.kinds| && (t.kinds[m.pc] == Insn || t.kinds[m.pc] == Barrier)
  }

  predicate AtBarrier<S>(t: Trace, m: Status<S>) {
    m.Running? && 0 <= m.pc < |t.kinds| && t.kinds[m.pc] == Barrier
  }

  // One step.

  ghost predicate Setting<S(!new)>(cpu: Cpu<S>, image: seq<Word>, base: nat, t: Trace) {
    WellBehaved(cpu) && Layout(image, base, t) && base % 4 == 0 && base + 4 * |image| < WORD_LIMIT
  }

  lemma HopStep<S(!new)>(cpu: Cpu<S>, image: seq<Word>, base: nat, t: Trace, p: Status<S>, m: Status<S>)
    requires Setting(cpu, image, base, t) && OnTrack(t.prog, p) && Agrees(image, t, p, m) && AtBarrier(t, m)
    requires p.Running?
    ensures Agrees(image, t, p, Step(cpu, image, base, m)) && !AtBarrier(t, Step(cpu, image, base, m))
  {
    BranchFields(AL, t.pos[p.pc] - m.pc);
    assert t.kinds[t.pos[p.pc]] == Insn;
  }

  /** Reading a literal: what the machine does at a placed load. */
  lemma LiteralStep<S>(cpu: Cpu<S>, image: seq<Word>, base: nat, t: Trace, k: nat, value: Word, s: S)
    requires LoadsValue(image, t, k, value)
    ensures var item, p := t.prog[k], t.pos[k];
            Step(cpu, image, base, Running(p, s)) ==
              if !cpu.holds(item.cc, s) then Running(p + 1, s)
              else if item.rd == PC then Goto(|image|, base, value, s)
              else Running(p + 1, cpu.write(item.rd, value, s))
  {
    var p, a := t.pos[k], t.slot[k].at;
    PlacedLoadFields(t.prog[k].cc, t.prog[k].rd, a - p);
    assert 4 * p + LiteralDistance(image[p]) == 4 * a;
  }

  lemma BranchStep<S>(cpu: Cpu<S>, image: seq<Word>, base: nat, t: Trace, k: nat, at: nat, s: S)
    requires BranchesTo(image, t, k, at)
    ensures Step(cpu, image, base, Running(t.pos[k], s)) ==
              if cpu.holds(t.prog[k].cc, s) then Running(at, s) else Running(t.pos[k] + 1, s)
  {
    BranchFields(t.prog[k].cc, at - t.pos[k]);
  }

  lemma GotoAligned<S>(size: nat, base: nat, at: nat, s: S)
    requires base + 4 * size < WORD_LIMIT && at < size
    ensures Goto(size, base, base + 4 * at, s) == Running(at, s)
  {
  }

  lemma UnlinkedGoto<S>(size: nat, base: nat, s: S)
    requires base % 4 == 0
    ensures Goto(size, base, INVALID_BRANCH_TARGET, s) == GoneTo(INVALID_BRANCH_TARGET, s)
  {
  }

  lemma UnlinkedStep<S(!new)>(cpu: Cpu<S>, image: seq<Word>, base: nat, t: Trace, k: nat, s: S)
    requires WellBehaved(cpu) && base % 4 == 0 && base + 4 * |image| < WORD_LIMIT
    requires k < |t.prog| && t.prog[k].Load? && t.prog[k].target == None
    requires Resolved(image, base, t, k, true) && FlowsIn(image, t, k) && PcLoadIsJump(t.prog[k])
    ensures Agrees(image, t, ProgramStep(cpu, t.prog, base, Running(k, s)), Step(cpu, image, base, Running(t.pos[k], s)))
  {
    LiteralStep(cpu, image, base, t, k, t.prog[k].value, s);
    UnlinkedGoto(|image|, base, s);
  }

  /** A linked jump rewritten as a branch. */
  lemma BranchedStep<S(!new)>(cpu: Cpu<S>, image: seq<Word>, base: nat, t: Trace, k: nat, s: S, dest: Label)
    requires k < |t.prog| && t.prog[k].Load? && t.prog[k].target == Some(dest)
    requires WellBehaved(cpu) && BranchesTo(image, t, k, dest.at) && FlowsIn(image, t, k)
    ensures Agrees(image, t, ProgramStep(cpu, t.prog, base, Running(k, s)), Step(cpu, image, base, Running(t.pos[k], s)))
  {
    BranchStep(cpu, image, base, t, k, dest.at, s);
  }

  /** A linked load that is still one: of the absolute address, into pc or not. */
  lemma LoadedStep<S(!new)>(cpu: Cpu<S>, image: seq<Word>, base: nat, t: Trace, k: nat, s: S, dest: Label)
    requires base + 4 * |image| < WORD_LIMIT && k < |t.prog| && t.prog[k].Load? && t.prog[k].target == Some(dest)
    requires WellBehaved(cpu) && LoadsValue(image, t, k, base + 4 * dest.at) && FlowsIn(image, t, k)
    ensures Agrees(image, t, ProgramStep(cpu, t.prog, base, Running(k, s)), Step(cpu, image, base, Running(t.pos[k], s)))
  {
    LiteralStep(cpu, image, base, t, k, base + 4 * dest.at, s);
    var st := Step(cpu, image, base, Running(t.pos[k], s));
    if t.prog[k].rd == PC {
      LoadedJump(cpu, image, base, t, k, s, dest, st);
    } else {
      LoadedAddress(cpu, image, base, t, k, s, dest, st);
    }
  }

  lemma LoadedJump<S(!new)>(cpu: Cpu<S>, image: seq<Word>, base: nat, t: Trace, k: nat, s: S, dest: Label, st: Status<S>)
    requires base + 4 * |image| < WORD_LIMIT && k < |t.prog| && t.prog[k].Load? && t.prog[k].target == Some(dest)
    requires WellBehaved(cpu) && FlowsIn(image, t, k) && t.prog[k].rd == PC
    requires st == if cpu.holds(t.prog[k].cc, s) then Goto(|image|, base, base + 4 * dest.at, s) else Running(t.pos[k] + 1, s)
    ensures Agrees(image, t, ProgramStep(cpu, t.prog, base, Running(k, s)), st)
  {
    if dest.at < |image| {
      GotoAligned(|image|, base, dest.at, s);
    }
  }

  lemma LoadedAddress<S(!new)>(cpu: Cpu<S>, image: seq<Word>, base: nat, t: Trace, k: nat, s: S, dest: Label, st: Status<S>)
    requires base + 4 * dest.at < WORD_LIMIT && k < |t.prog| && t.prog[k].Load? && t.prog[k].target == Some(dest)
    requires FlowsIn(image, t, k) && t.prog[k].rd != PC
    requires st == Running(t.pos[k] + 1, if cpu.holds(t.prog[k].cc, s) then cpu.write(t.prog[k].rd, base + 4 * dest.at, s) else s)
    ensures Agrees(image, t, ProgramStep(cpu, t.prog, base, Running(k, s)), st)
  {
  }

  lemma LinkedStep<S(!new)>(cpu: Cpu<S>, image: seq<Word>, base: nat, t: Trace, k: nat, s: S, dest: Label)
    requires WellBehaved(cpu) && base + 4 * |image| < WORD_LIMIT
    requires k < |t.prog| && t.prog[k].Load? && t.prog[k].target == Some(dest)
    requires Resolved(image, base, t, k, true) && FlowsIn(image, t, k)
    ensures Agrees(image, t, ProgramStep(cpu, t.prog, base, Running(k, s)), Step(cpu, image, base, Running(t.pos[k], s)))
  {
    if BranchesTo(image, t, k, dest.at) {
      BranchedStep(cpu, image, base, t, k, s, dest);
    } else {
      LoadedStep(cpu, image, base, t, k, s, dest);
    }
  }

  lemma LoadStep<S(!new)>(cpu: Cpu<S>, image: seq<Word>, base: nat, t: Trace, k: nat, s: S)
    requires WellBehaved(cpu) && base % 4 == 0 && base + 4 * |image| < WORD_LIMIT
    requires k < |t.prog| && t.prog[k].Load?
    requires Resolved(image, base, t, k, true) && FlowsIn(image, t, k) && PcLoadIsJump(t.prog[k])
    ensures Agrees(image, t, ProgramStep(cpu, t.prog, base, Running(k, s)), Step(cpu, image, base, Running(t.pos[k], s)))
  {
    match t.prog[k].target
    case None => UnlinkedStep(cpu, image, base, t, k, s);
    case Some(dest) => LinkedStep(cpu, image, base, t, k, s, dest);
  }

  lemma PlainStep<S(!new)>(cpu: Cpu<S>, image: seq<Word>, base: nat, t: Trace, k: nat, s: S)
    requires WellBehaved(cpu)
    requires k < |t.prog| && t.prog[k].Plain?
    requires Resolved(image, base, t, k, true) && FlowsIn(image, t, k)
    ensures Agrees(image, t, ProgramStep(cpu, t.prog, base, Running(k, s)), Step(cpu, image, base, Running(t.pos[k], s)))
  {
  }

  lemma ItemStep<S(!new)>(cpu: Cpu<S>, image: seq<Word>, base: nat, t: Trace, k: nat, s: S)
    requires Setting(cpu, image, base, t) && k < |t.prog|
    ensures Agrees(image, t, ProgramStep(cpu, t.prog, base, Running(k, s)), Step(cpu, image, base, Running(t.pos[k], s)))
  {
    assert Resolved(image, base, t, k, true) && FlowsIn(image, t, k) && PcLoadIsJump(t.prog[k]);
    if t.prog[k].Plain? {
      PlainStep(cpu, image, base, t, k, s);
    } else {
      LoadStep(cpu, image, base, t, k, s);
    }
  }

  /** Lockstep: on a barrier the machine moves and the program waits; anywhere else both
      take the same step. Either way they agree again. */
  lemma LockStep<S(!new)>(cpu: Cpu<S>, image: seq<Word>, base: nat, t: Trace, p: Status<S>, m: Status<S>)
    requires Setting(cpu, image, base, t) && OnTrack(t.prog, p) && Agrees(image, t, p, m)
    ensures OnCode(t, m)
    ensures var m' := Step(cpu, image, base, m);
            if AtBarrier(t, m) then Agrees(image, t, p, m') && !AtBarrier(t, m')
            else Agrees(image, t, ProgramStep(cpu, t.prog, base, p), m')
  {
    if p.Running? {
      assert t.kinds[t.pos[p.pc]] == Insn;
      if AtBarrier(t, m) {
        HopStep(cpu, image, base, t, p, m);
      } else {
        ItemStep(cpu, image, base, t, p.pc, p.state);
      }
    }
  }

  // Whole runs of the machine.

  lemma {:induction false} StepsAdd<S>(cpu: Cpu<S>, image: seq<Word>, base: nat, m: Status<S>, i: nat, d: nat)
    ensures Steps(cpu, image, base, Steps(cpu, image, base, m, i), d) == Steps(cpu, image, base, m, i + d)
  {
    if d > 0 {
      StepsAdd(cpu, image, base, m, i, d - 1);
    }
  }

  /** One step of the program is one or two of the machine. */
  lemma ForwardStep<S(!new)>(cpu: Cpu<S>, image: seq<Word>, base: nat, t: Trace, p: Status<S>, m: Status<S>) returns (d: nat)
    requires Setting(cpu, image, base, t) && OnTrack(t.prog, p) && Agrees(image, t, p, m)
    ensures 1 <= d <= 2
    ensures Agrees(image, t, ProgramStep(cpu, t.prog, base, p), Steps(cpu, image, base, m, d))
  {
    LockStep(cpu, image, base, t, p, m);
    var m' := Step(cpu, image, base, m);
    assert Steps(cpu, image, base, m, 1) == m';
    d := 1;
    if AtBarrier(t, m) {
      LockStep(cpu, image, base, t, p, m');
      d := 2;
    }
  }

  /** Forwards: every run of the program is a run of the machine, in at most twice as
      many steps. */
  lemma {:induction false} Forwards<S(!new)>(cpu: Cpu<S>, image: seq<Word>, base: nat, t: Trace, p0: Status<S>, m0: Status<S>, n: nat) returns (m: nat)
    requires Setting(cpu, image, base, t) && Agrees(image, t, p0, m0)
    requires forall i :: 0 <= i < n ==> OnTrack(t.prog, ProgramSteps(cpu, t.prog, base, p0, i))
    ensures m <= 2 * n
    ensures Agrees(image, t, ProgramSteps(cpu, t.prog, base, p0, n), Steps(cpu, image, base, m0, m))
  {
    m := 0;
    if n > 0 {
      var i := Forwards(cpu, image, base, t, p0, m0, n - 1);
      var d := ForwardStep(cpu, image, base, t, ProgramSteps(cpu, t.prog, base, p0, n - 1), Steps(cpu, image, base, m0, i));
      StepsAdd(cpu, image, base, m0, i, d);
      m := i + d;
    }
  }

  /** One step of the machine is one or none of the program. */
  lemma BackwardStep<S(!new)>(cpu: Cpu<S>, image: seq<Word>, base: nat, t: Trace, p0: Status<S>, n: nat, m: Status<S>) returns (n': nat)
    requires Setting(cpu, image, base, t)
    requires OnTrack(t.prog, ProgramSteps(cpu, t.prog, base, p0, n)) && Agrees(image, t, ProgramSteps(cpu, t.prog, base, p0, n), m)
    ensures n <= n' <= n + 1
    ensures Agrees(image, t, ProgramSteps(cpu, t.prog, base, p0, n'), Step(cpu, image, base, m))
  {
    LockStep(cpu, image, base, t, ProgramSteps(cpu, t.prog, base, p0, n), m);
    n' := if AtBarrier(t, m) then n else n + 1;
  }

  /** Backwards: wherever the machine gets, it is where the program is after some of its
      steps; unless the program ran off its end before. */
  lemma {:induction false} Backwards<S(!new)>(cpu: Cpu<S>, image: seq<Word>, base: nat, t: Trace, p0: Status<S>, m0: Status<S>, m: nat) returns (n: nat)
    requires Setting(cpu, image, base, t) && Agrees(image, t, p0, m0)
    requires forall i :: 0 <= i < m ==> OnTrack(t.prog, ProgramSteps(cpu, t.prog, base, p0, i))
    ensures n <= m
    ensures Agrees(image, t, ProgramSteps(cpu, t.prog, base, p0, n), Steps(cpu, image, base, m0, m))
  {
    if m == 0 { return 0; }
    var i := Backwards(cpu, image, base, t, p0, m0, m - 1);
    n := BackwardStep(cpu, image, base, t, p0, i, Steps(cpu, image, base, m0, m - 1));
  }
}
