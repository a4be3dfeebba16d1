/** Alignment inside whole runs: the padding changes nothing, and a finished machine passes
    over it. */
module AlignRuns {
  import opened ArmEncoding
  import opened ConstantPool
  import opened Trace
  import opened Session
  import opened ExecutableCopy
  import opened Execution
  import opened WholeRun
  import opened PoolProperties
  import opened Assembler
  import opened ArmMachine
  import opened MacroOps
  import opened MacroRuns

  /** The word align pads with leaves every machine as it was. */
  lemma PaddingDoesNothing(m: Machine)
    ensures IsStraight(EmitPlain(MOV_R0_R0)) && MeaningOf(ArmCpu(), EmitPlain(MOV_R0_R0), m) == m
  {
    DataDoes(MOV, false, 0, 0, 0, m);
    DataFields(MOV, false, 0, 0, 0, MOV_R0_R0);
    assert m.regs[0 := m.regs[0]] == m.regs;
  }

  /** Calls of alignments: checks, moves of r0 to itself, labels. */
  predicate OnlyAligns(calls: seq<Call>) { forall i :: 0 <= i < |calls| ==> IsAlignCall(calls[i]) }

  lemma OneRoundAligns(alignment: nat, rest: seq<Call>)
    requires OnlyAligns(rest)
    ensures OnlyAligns([CheckAligned(alignment), EmitPlain(MOV_R0_R0)] + rest)
  {
  }

  lemma {:induction false} AlignCallsAre(b: Buffer, alignment: nat)
    requires Valid(b) && alignment > 0
    ensures OnlyAligns(AlignCalls(b, alignment))
    decreases if b.pool == [] then 0 else 1, WordsTo(|b.code|, alignment)
  {
    var c := FlushIfNoSpaceFor(b, alignment);
    if !IsAligned(|c.code|, alignment) {
      PadSteps(c, alignment);
      AlignCallsAre(PutInt(c, MOV_R0_R0), alignment);
      OneRoundAligns(alignment, AlignCalls(PutInt(c, MOV_R0_R0), alignment));
    }
  }

  /** All the instructions of alignments, taken together, are the identity. */
  lemma {:induction false} AlignsMeanNothing(calls: seq<Call>, m: Machine)
    requires OnlyAligns(calls)
    ensures Meaning(ArmCpu(), calls, m) == m
    decreases |calls|
  {
    if calls != [] {
      assert IsAlignCall(calls[0]);
      PaddingDoesNothing(m);
      AlignsMeanNothing(calls[1..], m);
    }
  }

  /** So is what one align() emits, whatever the state it finds. */
  lemma AlignMeansNothing(b: Buffer, alignment: nat, m: Machine)
    requires Valid(b) && alignment > 0
    ensures Meaning(ArmCpu(), AlignCalls(b, alignment), m) == m
  {
    AlignCallsAre(b, alignment);
    AlignsMeanNothing(AlignCalls(b, alignment), m);
  }

  // In finished code.

  /** The program is the old one with padding behind it. */
  predicate Padded(prog: seq<Item>, prog': seq<Item>) {
    && |prog| <= |prog'| && prog'[..|prog|] == prog
    && forall i :: |prog| <= i < |prog'| ==> prog'[i] == Plain(MOV_R0_R0)
  }

  lemma PaddedFurther(p: seq<Item>, q: seq<Item>, r: seq<Item>)
    requires Padded(p, q) && Padded(q, r)
    ensures Padded(p, r)
  {
    assert r[..|p|] == r[..|q|][..|p|];
    forall i | |p| <= i < |r| ensures r[i] == Plain(MOV_R0_R0) {
      if i < |q| {
        assert r[i] == r[..|q|][i];
      }
    }
  }

  /** One call: at most one move of r0 to itself, and no jump is recorded. */
  predicate OnePad(s: Session, r: Session) {
    && r.owners == s.owners
    && (r.trace.prog == s.trace.prog || r.trace.prog == s.trace.prog + [Plain(MOV_R0_R0)])
  }

  lemma OnePadThen(s: Session, r: Session, q: Session)
    requires OnePad(s, r) && r.owners == q.owners && Padded(r.trace.prog, q.trace.prog)
    ensures s.owners == q.owners && Padded(s.trace.prog, q.trace.prog)
  {
    PaddedFurther(s.trace.prog, r.trace.prog, q.trace.prog);
  }

  lemma {:induction false} AlignPads(s: Live, calls: seq<Call>)
    requires OnlyAligns(calls)
    ensures AllowedRun(s, calls) && Run(s, calls).owners == s.owners
    ensures Padded(s.trace.prog, Run(s, calls).trace.prog)
    decreases |calls|
  {
    if calls != [] {
      var r := AlignFirst(s, calls[0]);
      AlignPads(r, calls[1..]);
      OnePadThen(s, r, Run(r, calls[1..]));
    }
  }

  lemma AlignFirst(s: Live, call: Call) returns (r: Live)
    requires IsAlignCall(call)
    ensures Allowed(s, call) && r == Do(s, call) && OnePad(s, r)
  {
    assert Allowed(s, call);
    r := Do(s, call);
    DoFollows(s, call);
  }

  /** n moves of r0 to itself. */
  function Moves0(n: nat): (calls: seq<Call>)
    ensures |calls| == n && forall i :: 0 <= i < n ==> calls[i] == EmitPlain(MOV_R0_R0)
  {
    seq(n, _ => EmitPlain(MOV_R0_R0))
  }

  lemma {:induction false} MovesAreItems(n: nat)
    ensures AllStraight(Moves0(n)) && Items(Moves0(n)) == seq(n, _ => Plain(MOV_R0_R0))
    decreases n
  {
    PaddingDoesNothing(Machine(seq(16, _ => 0), []));
    if n > 0 {
      MovesAreItems(n - 1);
      assert Moves0(n)[1..] == Moves0(n - 1);
    }
  }

  lemma PaddedHasCode(prog: seq<Item>, prog': seq<Item>)
    requires Padded(prog, prog')
    ensures HasCode(prog', |prog|, Moves0(|prog'| - |prog|))
  {
    var n := |prog'| - |prog|;
    MovesAreItems(n);
    assert prog'[|prog|..|prog| + n] == seq(n, _ => Plain(MOV_R0_R0));
  }

  lemma AlignStays(s: Live, calls: seq<Call>, r: Live, later: seq<Call>, f: Live, k: nat, end: nat)
    requires OnlyAligns(calls) && Leads(s, calls, r) && Leads(r, later, f)
    requires k == |s.trace.prog| && end == |r.trace.prog|
    ensures k <= end && HasCode(f.trace.prog, k, Moves0(end - k))
  {
    AlignPads(s, calls);
    PaddedHasCode(s.trace.prog, r.trace.prog);
    OwnersInside(s);
    CodeStays(r, later, f, k, Moves0(end - k));
  }

  lemma PaddingExecutes(f: Live, k: nat, calls: seq<Call>, end: nat, base: nat, st: Status<Machine>) returns (d: nat)
    requires OnlyAligns(calls) && HasCode(f.trace.prog, k, calls) && end == k + |calls| < |f.trace.prog|
    requires Loadable(Image(f, base), base) && AllRedirect(f) && StandsAt(Image(f, base), Map(f), st, k)
    ensures d <= 2 * |calls|
    ensures var st' := Steps(ArmCpu(), Image(f, base), base, st, d);
            StandsAt(Image(f, base), Map(f), st', end) && st'.state == st.state
  {
    AlignsMeanNothing(calls, st.state);
    d := CodeExecutes(f, k, calls, base, st);
  }

  /** The finished code of a run that went on behind an alignment, or several: the machine
      that comes to it gets to what follows, nothing changed. */
  lemma AlignExecutes(s: Live, calls: seq<Call>, r: Live, later: seq<Call>, f: Live, k: nat, end: nat, base: nat,
                      st: Status<Machine>) returns (d: nat)
    requires OnlyAligns(calls) && Leads(s, calls, r) && Leads(r, later, f)
    requires k == |s.trace.prog| && end == |r.trace.prog| < |f.trace.prog|
    requires Loadable(Image(f, base), base) && AllRedirect(f) && StandsAt(Image(f, base), Map(f), st, k)
    ensures k <= end && d <= 2 * (end - k)
    ensures var st' := Steps(ArmCpu(), Image(f, base), base, st, d);
            StandsAt(Image(f, base), Map(f), st', end) && st'.state == st.state
  {
    AlignStays(s, calls, r, later, f, k, end);
    d := PaddingExecutes(f, k, Moves0(end - k), end, base, st);
  }
}
