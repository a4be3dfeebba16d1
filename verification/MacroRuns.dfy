/** Macro operations inside whole runs: the calls of a straight piece of code, wherever
    they are made, extend the program by that many instructions, no later call changes
    them, and the finished machine code carries them out in turn, pools and barriers in
    between or not. */
module MacroRuns {
  import opened ArmEncoding
  import opened Trace
  import opened Session
  import opened ExecutableCopy
  import opened Execution
  import opened WholeRun
  import opened ArmMachine
  import opened MacroOps
  import opened Addressing

  function ItemOf(call: Call): Item
    requires IsStraight(call)
  {
    match call
    case EmitPlain(w) => Plain(w)
    case EmitConstant(cc, rd, value, reusable) => Load(cc, rd, value, reusable, None)
  }

  function Items(calls: seq<Call>): (items: seq<Item>)
    requires AllStraight(calls)
    ensures |items| == |calls|
    decreases |calls|
  {
    if calls == [] then [] else [ItemOf(calls[0])] + Items(calls[1..])
  }

  lemma StraightOne(s: Live, c: Call)
    requires IsStraight(c)
    ensures Allowed(s, c) && Do(s, c).trace.prog == s.trace.prog + [ItemOf(c)]
  {
    DoFollows(s, c);
  }

  /** Straight calls are always allowed, and append exactly their instructions. */
  lemma {:induction false} StraightAppends(s: Live, calls: seq<Call>)
    requires AllStraight(calls)
    ensures AllowedRun(s, calls) && Run(s, calls).trace.prog == s.trace.prog + Items(calls)
    decreases |calls|
  {
    if calls == [] {
      assert s.trace.prog + [] == s.trace.prog;
    } else {
      StraightOne(s, calls[0]);
      StraightAppends(Do(s, calls[0]), calls[1..]);
      Joined(s.trace.prog, ItemOf(calls[0]), Items(calls[1..]));
    }
  }

  lemma Joined(prog: seq<Item>, item: Item, items: seq<Item>)
    ensures (prog + [item]) + items == prog + ([item] + items)
  {
  }

  lemma {:induction false} ProgramStepsFirst<S>(cpu: Cpu<S>, prog: seq<Item>, base: nat, st: Status<S>, n: nat)
    ensures ProgramSteps(cpu, prog, base, st, n + 1) == ProgramSteps(cpu, prog, base, ProgramStep(cpu, prog, base, st), n)
  {
    if n > 0 {
      ProgramStepsFirst(cpu, prog, base, st, n - 1);
    }
  }

  /** The instruction of one straight call does what the call means. */
  lemma StraightStep(prog: seq<Item>, base: nat, k: nat, c: Call, m: Machine)
    requires IsStraight(c) && k < |prog| && prog[k] == ItemOf(c)
    ensures ProgramStep(ArmCpu(), prog, base, Running(k, m)) == Running(k + 1, MeaningOf(ArmCpu(), c, m))
  {
  }

  /** The program has these straight calls from instruction k on. */
  predicate HasCode(prog: seq<Item>, k: nat, calls: seq<Call>) {
    AllStraight(calls) && k + |calls| <= |prog| && prog[k..k + |calls|] == Items(calls)
  }

  /** So it runs through them to their meaning. */
  lemma {:induction false} StraightSteps(prog: seq<Item>, base: nat, k: nat, calls: seq<Call>, m: Machine)
    requires HasCode(prog, k, calls)
    ensures ProgramSteps(ArmCpu(), prog, base, Running(k, m), |calls|) == Running(k + |calls|, Meaning(ArmCpu(), calls, m))
    decreases |calls|
  {
    if calls != [] {
      var c := calls[0];
      assert prog[k] == prog[k..k + |calls|][0];
      StraightStep(prog, base, k, c, m);
      ProgramStepsFirst(ArmCpu(), prog, base, Running(k, m), |calls| - 1);
      assert prog[k + 1..k + 1 + |calls[1..]|] == prog[k..k + |calls|][1..];
      StraightSteps(prog, base, k + 1, calls[1..], MeaningOf(ArmCpu(), c, m));
    }
  }

  // Whatever is called later.

  /** Only recorded jumps are ever changed by later calls. */
  lemma DoKeepsItem(s: Live, call: Call, k: nat)
    requires Allowed(s, call) && k < |s.trace.prog| && k !in s.owners
    ensures var r := Do(s, call);
            k < |r.trace.prog| && r.trace.prog[k] == s.trace.prog[k] && k !in r.owners
  {
    DoFollows(s, call);
  }

  lemma {:induction false} RunKeepsItem(s: Live, calls: seq<Call>, k: nat)
    requires AllowedRun(s, calls) && k < |s.trace.prog| && k !in s.owners
    ensures var r := Run(s, calls);
            k < |r.trace.prog| && r.trace.prog[k] == s.trace.prog[k] && k !in r.owners
    decreases |calls|
  {
    if calls != [] {
      DoKeepsItem(s, calls[0], k);
      RunKeepsItem(Do(s, calls[0]), calls[1..], k);
    }
  }

  /** Straight calls record no jump. */
  lemma {:induction false} StraightOwnsNothing(s: Live, calls: seq<Call>)
    requires AllStraight(calls) && AllowedRun(s, calls)
    ensures Run(s, calls).owners == s.owners
    decreases |calls|
  {
    if calls != [] {
      DoFollows(s, calls[0]);
      StraightOwnsNothing(Do(s, calls[0]), calls[1..]);
    }
  }

  lemma OwnersInside(s: Live)
    ensures forall k :: k in s.owners ==> k < |s.trace.prog|
  {
    forall k | k in s.owners ensures k < |s.trace.prog| {
      var j :| 0 <= j < |s.owners| && s.owners[j] == k;
      assert OwnerHolds(s, j);
    }
  }

  lemma {:induction false} RunGrows(s: Live, calls: seq<Call>)
    requires AllowedRun(s, calls)
    ensures |s.trace.prog| <= |Run(s, calls).trace.prog|
    decreases |calls|
  {
    if calls != [] {
      DoFollows(s, calls[0]);
      RunGrows(Do(s, calls[0]), calls[1..]);
    }
  }

  /** The two programs agree on this stretch. */
  predicate SameOn(p: seq<Item>, q: seq<Item>, lo: nat, hi: nat) {
    lo <= hi <= |p| && hi <= |q| && forall i :: lo <= i < hi ==> q[i] == p[i]
  }

  lemma SameCode(p: seq<Item>, q: seq<Item>, k: nat, calls: seq<Call>)
    requires HasCode(p, k, calls) && SameOn(p, q, k, k + |calls|)
    ensures HasCode(q, k, calls)
  {
    assert q[k..k + |calls|] == p[k..k + |calls|];
  }

  lemma CodeAppended(prog: seq<Item>, calls: seq<Call>)
    requires AllStraight(calls)
    ensures HasCode(prog + Items(calls), |prog|, calls)
  {
  }

  /** Instructions none of which is a jump stay what they are. */
  lemma RunKeepsItems(r: Live, later: seq<Call>, lo: nat, hi: nat)
    requires AllowedRun(r, later) && lo <= hi <= |r.trace.prog| && forall i :: lo <= i < hi ==> i !in r.owners
    ensures SameOn(r.trace.prog, Run(r, later).trace.prog, lo, hi)
  {
    RunGrows(r, later);
    var prog := Run(r, later).trace.prog;
    forall i | lo <= i < hi ensures prog[i] == r.trace.prog[i] {
      RunKeepsItem(r, later, i);
    }
  }

  /** A run of these calls leads from one session to the other. */
  predicate Leads(s: Live, calls: seq<Call>, r: Live) { AllowedRun(s, calls) && Run(s, calls) == r }

  lemma StraightOwners(s: Live, calls: seq<Call>, r: Live)
    requires AllStraight(calls) && Leads(s, calls, r)
    ensures forall i :: |s.trace.prog| <= i ==> i !in r.owners
  {
    StraightOwnsNothing(s, calls);
    OwnersInside(s);
  }

  lemma StraightEnd(s: Live, calls: seq<Call>, r: Live)
    requires AllStraight(calls) && Leads(s, calls, r)
    ensures HasCode(r.trace.prog, |s.trace.prog|, calls)
  {
    StraightAppends(s, calls);
    CodeAppended(s.trace.prog, calls);
  }

  lemma CodeStays(r: Live, later: seq<Call>, f: Live, k: nat, calls: seq<Call>)
    requires Leads(r, later, f) && HasCode(r.trace.prog, k, calls) && forall i :: k <= i ==> i !in r.owners
    ensures HasCode(f.trace.prog, k, calls)
  {
    RunKeepsItems(r, later, k, k + |calls|);
    SameCode(r.trace.prog, f.trace.prog, k, calls);
  }

  /** Straight code emitted at any point of any run is in the program for good, whatever is
      called afterwards. */
  lemma StraightStays(s: Live, calls: seq<Call>, r: Live, later: seq<Call>, f: Live, k: nat)
    requires AllStraight(calls) && Leads(s, calls, r) && Leads(r, later, f) && k == |s.trace.prog|
    ensures HasCode(f.trace.prog, k, calls)
  {
    StraightEnd(s, calls, r);
    StraightOwners(s, calls, r);
    CodeStays(r, later, f, k, calls);
  }

  /** So the finished program carries it out, in as many steps as there were calls. */
  lemma StraightRuns(s: Live, calls: seq<Call>, r: Live, later: seq<Call>, f: Live, k: nat, base: nat, m: Machine)
    requires AllStraight(calls)
    requires Leads(s, calls, r) && Leads(r, later, f) && k == |s.trace.prog|
    ensures k + |calls| <= |f.trace.prog|
    ensures ProgramSteps(ArmCpu(), f.trace.prog, base, Running(k, m), |calls|) == Running(k + |calls|, Meaning(ArmCpu(), calls, m))
  {
    StraightStays(s, calls, r, later, f, k);
    StraightSteps(f.trace.prog, base, k, calls, m);
  }

  /** A move leaves the immediate in the register and changes nothing else. */
  lemma MoveRuns(s: Live, calls: seq<Call>, rd: Reg, imm: Word, r: Live, later: seq<Call>, f: Live, k: nat, base: nat, m: Machine)
    requires Moves(ArmCpu(), calls, rd, imm)
    requires Leads(s, calls, r) && Leads(r, later, f) && k == |s.trace.prog|
    ensures k + |calls| <= |f.trace.prog|
    ensures ProgramSteps(ArmCpu(), f.trace.prog, base, Running(k, m), |calls|) == Running(k + |calls|, SetReg(m, rd, imm))
  {
    StraightRuns(s, calls, r, later, f, k, base, m);
  }

  // The machine.

  lemma ArmBehaves()
    ensures WellBehaved(ArmCpu())
  {
  }

  /** A program that is running has not been off its track. */
  lemma {:induction false} StayedOnTrack<S>(cpu: Cpu<S>, prog: seq<Item>, base: nat, p: Status<S>, n: nat)
    requires ProgramSteps(cpu, prog, base, p, n).Running?
    ensures forall i :: 0 <= i < n ==> OnTrack(prog, ProgramSteps(cpu, prog, base, p, i))
    decreases n
  {
    if n > 0 {
      StayedOnTrack(cpu, prog, base, p, n - 1);
    }
  }

  lemma ImageIsSet(f: Live, base: nat)
    requires Loadable(Image(f, base), base) && AllRedirect(f)
    ensures Setting(ArmCpu(), Image(f, base), base, Map(f)) && Map(f).prog == f.trace.prog
  {
    ArmBehaves();
    ImageHolds(f, base);
  }

  /** The machine stands at instruction k, or on the barrier before it. */
  predicate StandsAt(image: seq<Word>, t: Trace, st: Status<Machine>, k: nat) {
    st.Running? && 0 <= st.pc && FallsIn(image, t, st.pc, k)
  }

  lemma StraightForwards(image: seq<Word>, base: nat, t: Trace, k: nat, calls: seq<Call>, st: Status<Machine>) returns (d: nat)
    requires Setting(ArmCpu(), image, base, t) && HasCode(t.prog, k, calls) && k + |calls| < |t.prog|
    requires StandsAt(image, t, st, k)
    ensures d <= 2 * |calls|
    ensures var st' := Steps(ArmCpu(), image, base, st, d);
            StandsAt(image, t, st', k + |calls|) && st'.state == Meaning(ArmCpu(), calls, st.state)
  {
    StraightSteps(t.prog, base, k, calls, st.state);
    StayedOnTrack(ArmCpu(), t.prog, base, Running(k, st.state), |calls|);
    d := Forwards(ArmCpu(), image, base, t, Running(k, st.state), st, |calls|);
  }

  /** Wherever the machine comes to straight code of a finished run. */
  lemma CodeExecutes(f: Live, k: nat, calls: seq<Call>, base: nat, st: Status<Machine>) returns (d: nat)
    requires HasCode(f.trace.prog, k, calls) && k + |calls| < |f.trace.prog|
    requires Loadable(Image(f, base), base) && AllRedirect(f) && StandsAt(Image(f, base), Map(f), st, k)
    ensures d <= 2 * |calls|
    ensures var st' := Steps(ArmCpu(), Image(f, base), base, st, d);
            && StandsAt(Image(f, base), Map(f), st', k + |calls|)
            && st'.state == Meaning(ArmCpu(), calls, st.state)
  {
    ImageIsSet(f, base);
    var image, t := Image(f, base), Map(f);
    d := StraightForwards(image, base, t, k, calls, st);
  }

  /** The finished code of a run that went on: wherever the machine comes to straight code
      that something follows, some steps later it stands behind it, having done what the
      calls mean. Pools and barriers may lie in between. */
  lemma StraightExecutes(s: Live, calls: seq<Call>, r: Live, later: seq<Call>, f: Live, k: nat, base: nat,
                         st: Status<Machine>) returns (d: nat)
    requires AllStraight(calls)
    requires Leads(s, calls, r) && Leads(r, later, f) && k == |s.trace.prog|
    requires Loadable(Image(f, base), base) && AllRedirect(f) && k + |calls| < |f.trace.prog|
    requires StandsAt(Image(f, base), Map(f), st, k)
    ensures d <= 2 * |calls|
    ensures var st' := Steps(ArmCpu(), Image(f, base), base, st, d);
            && StandsAt(Image(f, base), Map(f), st', k + |calls|)
            && st'.state == Meaning(ArmCpu(), calls, st.state)
  {
    StraightStays(s, calls, r, later, f, k);
    d := CodeExecutes(f, k, calls, base, st);
  }

  // The macro operations in finished code.

  /** A move made at any point of any run, whatever follows: where the machine goes on, the
      register holds the immediate and nothing else has changed. */
  lemma MoveExecutes(s: Live, calls: seq<Call>, rd: Reg, imm: Word, r: Live, later: seq<Call>, f: Live, k: nat,
                     base: nat, st: Status<Machine>) returns (d: nat)
    requires Moves(ArmCpu(), calls, rd, imm)
    requires Leads(s, calls, r) && Leads(r, later, f) && k == |s.trace.prog|
    requires Loadable(Image(f, base), base) && AllRedirect(f) && k + |calls| < |f.trace.prog|
    requires StandsAt(Image(f, base), Map(f), st, k)
    ensures d <= 2 * |calls|
    ensures var st' := Steps(ArmCpu(), Image(f, base), base, st, d);
            && StandsAt(Image(f, base), Map(f), st', k + |calls|)
            && st'.state == SetReg(st.state, rd, imm)
  {
    d := StraightExecutes(s, calls, r, later, f, k, base, st);
  }

  /** A transfer: the machine goes on having made one access, at base + offset. */
  lemma TransferExecutes(s: Live, calls: seq<Call>, isLoad: bool, size: Size, rd: Reg, rn: Reg, offset: int,
                         r: Live, later: seq<Call>, f: Live, k: nat, base: nat, st: Status<Machine>) returns (d: nat)
    requires AccessesAt(ArmCpu(), calls, isLoad, size, rd, rn, offset)
    requires Leads(s, calls, r) && Leads(r, later, f) && k == |s.trace.prog|
    requires Loadable(Image(f, base), base) && AllRedirect(f) && k + |calls| < |f.trace.prog|
    requires StandsAt(Image(f, base), Map(f), st, k)
    ensures d <= 2 * |calls|
    ensures var st' := Steps(ArmCpu(), Image(f, base), base, st, d);
            && StandsAt(Image(f, base), Map(f), st', k + |calls|)
            && OneAccess(st.state, st'.state, isLoad, size, rd, Wrap(st.state.regs[rn] as int + offset))
  {
    d := StraightExecutes(s, calls, r, later, f, k, base, st);
    AccessMade(ArmCpu(), calls, isLoad, size, rd, rn, offset, st.state);
  }

  lemma AccessMade(cpu: Cpu<Machine>, calls: seq<Call>, isLoad: bool, size: Size, rd: Reg, rn: Reg, offset: int, m: Machine)
    requires AccessesAt(cpu, calls, isLoad, size, rd, rn, offset)
    ensures OneAccess(m, Meaning(cpu, calls, m), isLoad, size, rd, Wrap(m.regs[rn] as int + offset))
  {
  }

  /** The same with a scaled index. */
  lemma IndexedTransferExecutes(s: Live, calls: seq<Call>, isLoad: bool, size: Size, rd: Reg, rn: Reg, index: Reg,
                                factor: nat, offset: int,
                                r: Live, later: seq<Call>, f: Live, k: nat, base: nat, st: Status<Machine>) returns (d: nat)
    requires AccessesIndexed(ArmCpu(), calls, isLoad, size, rd, rn, index, factor, offset)
    requires Leads(s, calls, r) && Leads(r, later, f) && k == |s.trace.prog|
    requires Loadable(Image(f, base), base) && AllRedirect(f) && k + |calls| < |f.trace.prog|
    requires StandsAt(Image(f, base), Map(f), st, k)
    ensures d <= 2 * |calls|
    ensures var st' := Steps(ArmCpu(), Image(f, base), base, st, d);
            && StandsAt(Image(f, base), Map(f), st', k + |calls|)
            && OneAccess(st.state, st'.state, isLoad, size, rd,
                         Wrap(st.state.regs[rn] as int + st.state.regs[index] * factor + offset))
  {
    d := StraightExecutes(s, calls, r, later, f, k, base, st);
    IndexedAccessMade(ArmCpu(), calls, isLoad, size, rd, rn, index, factor, offset, st.state);
  }

  lemma IndexedAccessMade(cpu: Cpu<Machine>, calls: seq<Call>, isLoad: bool, size: Size, rd: Reg, rn: Reg, index: Reg,
                          factor: nat, offset: int, m: Machine)
    requires AccessesIndexed(cpu, calls, isLoad, size, rd, rn, index, factor, offset)
    ensures OneAccess(m, Meaning(cpu, calls, m), isLoad, size, rd, Wrap(m.regs[rn] as int + m.regs[index] * factor + offset))
  {
  }
}
