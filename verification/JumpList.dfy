/** Lists of jumps to be linked to one destination: the loops of JumpList::link and
    JumpList::linkTo. */
module JumpLists {
  import opened ArmEncoding
  import opened ConstantPool
  import opened Trace
  import opened Session
  import opened ExecutableCopy
  import opened Assembler

  /** A jump is known by the label just behind its load. */
  predicate IsJumpLabel(from: nat) { from >= 4 && from % 4 == 0 }

  predicate CanLinkAll(b: Buffer, froms: seq<nat>, to: Word)
    decreases |froms|
  {
    froms == [] ||
    (IsJumpLabel(froms[0]) && CanLink(b, froms[0] / 4 - 1, to)
     && CanLinkAll(LinkJump(b, froms[0] / 4 - 1, to), froms[1..], to))
  }

  /** All the loads before these labels read the one destination. */
  function LinkAll(b: Buffer, froms: seq<nat>, to: Word): Buffer
    requires CanLinkAll(b, froms, to)
    decreases |froms|
  {
    if froms == [] then b else LinkAll(LinkJump(b, froms[0] / 4 - 1, to), froms[1..], to)
  }

  lemma LinkNext(b: Buffer, froms: seq<nat>, i: nat, to: Word)
    requires i < |froms| && CanLinkAll(b, froms[i..], to)
    ensures IsJumpLabel(froms[i]) && CanLink(b, froms[i] / 4 - 1, to)
    ensures var r := LinkJump(b, froms[i] / 4 - 1, to);
            CanLinkAll(r, froms[i + 1..], to) && LinkAll(r, froms[i + 1..], to) == LinkAll(b, froms[i..], to)
  {
    assert froms[i..][0] == froms[i] && froms[i..][1..] == froms[i + 1..];
  }

  function LabelHere(b: Buffer): Buffer
    requires Valid(b)
  {
    EnsureSpace(b, MAX_INSTRUCTION_SIZE, 8)
  }

  /** Once there is room for a label, linking does not take it away: all the labels that
      link() asks for are the same. */
  lemma LabelStays(b: Buffer, from: nat, to: Word)
    requires Valid(b) && LabelHere(b) == b && IsJumpLabel(from) && CanLink(b, from / 4 - 1, to)
    ensures var r := LinkJump(b, from / 4 - 1, to);
            LabelHere(r) == r && |r.code| == |b.code|
  {
  }

  lemma LabelTwice(b: Buffer)
    requires Valid(b)
    ensures LabelHere(LabelHere(b)) == LabelHere(b)
  {
  }

  /** There is room for any one instruction, and for the constant it may load. */
  lemma LabelHasRoom(b: Buffer)
    requires Valid(b)
    ensures var r := LabelHere(b);
            && FlushIfNoSpaceFor(r, 4) == r && EnsureSpace(r, 4, 4) == r
            && BeforeConstant(r).code == r.code
  {
  }

  // In a session.

  predicate Emits(call: Call) { call.EmitPlain? || call.EmitConstant? || call.EmitBranch? }

  /** A label is the very place of the instruction emitted next, whichever it is. */
  lemma LabelIsNext(s: Live, call: Call)
    requires Emits(call) && Allowed(s, call)
    ensures var k, r := |s.trace.prog|, Do(s, TakeLabel);
            && Label(|r.buf.code|, k) in r.labels && Allowed(r, call)
            && var q := Do(r, call);
               |q.trace.pos| == |q.trace.prog| == k + 1 && q.trace.pos[k] == |r.buf.code|
  {
    DoReserveKeeps(s, MAX_INSTRUCTION_SIZE, 8);
    LabelHasRoom(s.buf);
    NextIsHere(Do(s, TakeLabel), call);
  }

  lemma NextIsHere(r: Live, call: Call)
    requires Emits(call) && Allowed(r, call)
    requires FlushIfNoSpaceFor(r.buf, 4) == r.buf && EnsureSpace(r.buf, 4, 4) == r.buf && BeforeConstant(r.buf).code == r.buf.code
    ensures var k, q := |r.trace.prog|, Do(r, call);
            |q.trace.pos| == |q.trace.prog| == k + 1 && q.trace.pos[k] == |r.buf.code|
  {
    match call
    case EmitPlain(w) => DoPlainKeepsInv(r, w);
    case EmitConstant(cc, rd, value, reusable) => DoConstantKeepsInv(r, cc, rd, value, reusable);
    case EmitBranch(cc, rd, usePool) =>
      DoReserveKeeps(r, 4, 4);
      DoConstantKeepsInv(DoReserve(r, 4, 4), cc, rd, INVALID_BRANCH_TARGET, false);
  }

  function LinkCalls(js: seq<nat>, dest: Label): (calls: seq<Call>)
    ensures |calls| == |js|
  {
    seq(|js|, i requires 0 <= i < |js| => LinkJumpTo(js[i], dest))
  }

  lemma LinkKeepsAllowed(s: Live, j: nat, k: nat, dest: Label)
    requires Allowed(s, LinkJumpTo(j, dest)) && Allowed(s, LinkJumpTo(k, dest))
    ensures Allowed(Do(s, LinkJumpTo(j, dest)), LinkJumpTo(k, dest))
  {
  }

  /** The labels the jumps of a session were given. */
  function JumpLabels(jumps: seq<Jump>, js: seq<nat>): (froms: seq<nat>)
    requires forall i :: 0 <= i < |js| ==> js[i] < |jumps|
    ensures |froms| == |js| && forall i :: 0 <= i < |js| ==> froms[i] == 4 * jumps[js[i]].at + 4
  {
    seq(|js|, i requires 0 <= i < |js| => 4 * jumps[js[i]].at + 4)
  }

  predicate AllAllowed(s: Session, js: seq<nat>, dest: Label) {
    forall i :: 0 <= i < |js| ==> Allowed(s, LinkJumpTo(js[i], dest))
  }

  lemma FirstLinked(s: Live, js: seq<nat>, dest: Label)
    requires js != [] && AllAllowed(s, js, dest)
    ensures var r := Do(s, LinkJumpTo(js[0], dest));
            && AllAllowed(r, js[1..], dest) && r.jumps == s.jumps
            && CanLink(s.buf, s.jumps[js[0]].at, 4 * dest.at % WORD_LIMIT)
            && r.buf == LinkJump(s.buf, s.jumps[js[0]].at, 4 * dest.at % WORD_LIMIT)
  {
    assert Allowed(s, LinkJumpTo(js[0], dest));
    CallApplies(s, LinkJumpTo(js[0], dest));
    forall i | 0 <= i < |js[1..]| ensures Allowed(Do(s, LinkJumpTo(js[0], dest)), LinkJumpTo(js[1..][i], dest)) {
      assert Allowed(s, LinkJumpTo(js[i + 1], dest));
      LinkKeepsAllowed(s, js[0], js[i + 1], dest);
    }
  }

  lemma RestOfCalls(js: seq<nat>, dest: Label)
    requires js != []
    ensures LinkCalls(js, dest)[0] == LinkJumpTo(js[0], dest) && LinkCalls(js, dest)[1..] == LinkCalls(js[1..], dest)
  {
  }

  /** A list whose jumps may be linked one by one may be linked as a whole, at any point of
      a run. */
  lemma {:induction false} ListIsAllowed(s: Live, js: seq<nat>, dest: Label)
    requires AllAllowed(s, js, dest)
    ensures AllowedRun(s, LinkCalls(js, dest))
    decreases |js|
  {
    if js != [] {
      FirstLinked(s, js, dest);
      ListIsAllowed(Do(s, LinkJumpTo(js[0], dest)), js[1..], dest);
      RestOfCalls(js, dest);
      assert Allowed(s, LinkJumpTo(js[0], dest));
    }
  }

  lemma FirstThenRest(b: Buffer, r: Buffer, froms: seq<nat>, to: Word)
    requires froms != [] && IsJumpLabel(froms[0]) && CanLink(b, froms[0] / 4 - 1, to)
    requires r == LinkJump(b, froms[0] / 4 - 1, to) && CanLinkAll(r, froms[1..], to)
    ensures CanLinkAll(b, froms, to) && LinkAll(b, froms, to) == LinkAll(r, froms[1..], to)
  {
  }

  predicate AllJumps(jumps: seq<Jump>, js: seq<nat>) { forall i :: 0 <= i < |js| ==> js[i] < |jumps| }

  lemma FirstApplied(a: State, js: seq<nat>, dest: Label, to: Word)
    requires js != [] && CanApplyAll(a, LinkCalls(js, dest)) && AllJumps(a.jumps, js) && to == 4 * dest.at % WORD_LIMIT
    ensures CanLink(a.buf, a.jumps[js[0]].at, to)
    ensures var r := State(LinkJump(a.buf, a.jumps[js[0]].at, to), a.jumps);
            && CanApplyAll(r, LinkCalls(js[1..], dest))
            && ApplyAll(a, LinkCalls(js, dest)) == ApplyAll(r, LinkCalls(js[1..], dest))
  {
    RestOfCalls(js, dest);
  }

  lemma LabelsFirst(b: Buffer, jumps: seq<Jump>, js: seq<nat>, to: Word)
    requires js != [] && AllJumps(jumps, js) && CanLink(b, jumps[js[0]].at, to)
    requires CanLinkAll(LinkJump(b, jumps[js[0]].at, to), JumpLabels(jumps, js[1..]), to)
    ensures CanLinkAll(b, JumpLabels(jumps, js), to)
    ensures LinkAll(b, JumpLabels(jumps, js), to) == LinkAll(LinkJump(b, jumps[js[0]].at, to), JumpLabels(jumps, js[1..]), to)
  {
    assert JumpLabels(jumps, js)[1..] == JumpLabels(jumps, js[1..]);
    FirstThenRest(b, LinkJump(b, jumps[js[0]].at, to), JumpLabels(jumps, js), to);
  }

  /** And that is what the loop of linkTo does. */
  lemma {:induction false} ListIsLinked(a: State, js: seq<nat>, dest: Label, to: Word)
    requires CanApplyAll(a, LinkCalls(js, dest)) && AllJumps(a.jumps, js) && to == 4 * dest.at % WORD_LIMIT
    ensures CanLinkAll(a.buf, JumpLabels(a.jumps, js), to)
    ensures ApplyAll(a, LinkCalls(js, dest)) == State(LinkAll(a.buf, JumpLabels(a.jumps, js), to), a.jumps)
    decreases |js|
  {
    if js != [] {
      FirstApplied(a, js, dest, to);
      ListIsLinked(State(LinkJump(a.buf, a.jumps[js[0]].at, to), a.jumps), js[1..], dest, to);
      LabelsFirst(a.buf, a.jumps, js, to);
    }
  }

  class JumpList {
    var jumps: seq<nat>

    constructor ()
      ensures jumps == []
    {
      jumps := [];
    }

    method Add(jump: nat)
      modifies this
      ensures jumps == old(jumps) + [jump]
    {
      jumps := jumps + [jump];
    }

    method AddAll(other: JumpList)
      modifies this
      ensures jumps == old(jumps) + old(other.jumps)
    {
      jumps := jumps + other.jumps;
    }

    /** One round of linkTo(). */
    static method LinkNth(froms: seq<nat>, i: nat, to: Word, masm: ArmAssembler)
      requires i < |froms| && masm.Sound() && CanLinkAll(masm.buffer.View(), froms[i..], to)
      modifies masm.Memory()
      ensures masm.Sound() && masm.buffer.buffer.storage == old(masm.buffer.buffer.storage)
      ensures CanLinkAll(masm.buffer.View(), froms[i + 1..], to)
      ensures LinkAll(masm.buffer.View(), froms[i + 1..], to) == LinkAll(old(masm.buffer.View()), froms[i..], to)
    {
      LinkNext(masm.buffer.View(), froms, i, to);
      masm.LinkTo(froms[i], to);
    }

    static method LinkEach(froms: seq<nat>, to: Word, masm: ArmAssembler)
      requires masm.Sound() && CanLinkAll(masm.buffer.View(), froms, to)
      modifies masm.Memory()
      ensures masm.Sound() && masm.buffer.View() == LinkAll(old(masm.buffer.View()), froms, to)
    {
      ghost var final := LinkAll(masm.buffer.View(), froms, to);
      ghost var now := masm.buffer.View();
      for i := 0 to |froms|
        invariant masm.Sound() && masm.buffer.buffer.storage == old(masm.buffer.buffer.storage)
        invariant now == masm.buffer.View()
        invariant CanLinkAll(now, froms[i..], to) && LinkAll(now, froms[i..], to) == final
      {
        LinkNth(froms, i, to, masm);
        now := masm.buffer.View();
      }
    }

    /** linkTo: every jump to the label; then the list is empty. */
    method LinkTo(to: Word, masm: ArmAssembler)
      requires masm.Sound() && CanLinkAll(masm.buffer.View(), jumps, to)
      modifies this, masm.Memory()
      ensures jumps == [] && masm.Sound()
      ensures masm.buffer.View() == LinkAll(old(masm.buffer.View()), old(jumps), to)
    {
      LinkEach(jumps, to, masm);
      jumps := [];
    }

    /** One round of link(). */
    static method LinkHere(from: nat, masm: ArmAssembler)
      requires masm.Sound() && IsJumpLabel(from)
      requires var b := LabelHere(masm.buffer.View());
               4 * |b.code| < WORD_LIMIT && CanLink(b, from / 4 - 1, 4 * |b.code|)
      modifies masm.Memory()
      ensures masm.Sound()
      ensures masm.buffer.buffer.storage == old(masm.buffer.buffer.storage) || fresh(masm.buffer.buffer.storage)
      ensures var b := LabelHere(old(masm.buffer.View()));
              && masm.buffer.View() == LinkJump(b, from / 4 - 1, 4 * |b.code|)
              && LabelHere(masm.buffer.View()) == masm.buffer.View() && |masm.buffer.View().code| == |b.code|
    {
      LabelTwice(masm.buffer.View());
      var here := masm.MakeLabel();
      LabelStays(masm.buffer.View(), from, here);
      masm.LinkTo(from, here);
    }

    static method LinkNthHere(froms: seq<nat>, i: nat, ghost to: Word, masm: ArmAssembler)
      requires i < |froms| && masm.Sound() && 4 * |LabelHere(masm.buffer.View()).code| == to
      requires CanLinkAll(LabelHere(masm.buffer.View()), froms[i..], to)
      modifies masm.Memory()
      ensures masm.Sound() && (masm.buffer.buffer.storage == old(masm.buffer.buffer.storage) || fresh(masm.buffer.buffer.storage))
      ensures LabelHere(masm.buffer.View()) == masm.buffer.View() && 4 * |masm.buffer.View().code| == to
      ensures CanLinkAll(masm.buffer.View(), froms[i + 1..], to)
      ensures LinkAll(masm.buffer.View(), froms[i + 1..], to) == LinkAll(LabelHere(old(masm.buffer.View())), froms[i..], to)
    {
      LinkNext(LabelHere(masm.buffer.View()), froms, i, to);
      LinkHere(froms[i], masm);
    }

    static method LinkEachHere(froms: seq<nat>, masm: ArmAssembler)
      requires masm.Sound() && froms != []
      requires var b := LabelHere(masm.buffer.View());
               4 * |b.code| < WORD_LIMIT && CanLinkAll(b, froms, 4 * |b.code|)
      modifies masm.Memory()
      ensures masm.Sound()
      ensures var b := LabelHere(old(masm.buffer.View()));
              masm.buffer.View() == LinkAll(b, froms, 4 * |b.code|)
    {
      ghost var now := LabelHere(masm.buffer.View());
      ghost var to: Word := 4 * |now.code|;
      ghost var final := LinkAll(now, froms, to);
      for i := 0 to |froms|
        invariant masm.Sound()
        invariant masm.buffer.buffer.storage == old(masm.buffer.buffer.storage) || fresh(masm.buffer.buffer.storage)
        invariant now == LabelHere(masm.buffer.View()) && 4 * |now.code| == to
        invariant i > 0 ==> masm.buffer.View() == now
        invariant CanLinkAll(now, froms[i..], to) && LinkAll(now, froms[i..], to) == final
      {
        LinkNthHere(froms, i, to, masm);
        now := masm.buffer.View();
      }
    }

    /** link: to here. Each jump asks for a label of its own, and all get the same one;
        an empty list asks for none. */
    method Link(masm: ArmAssembler)
      requires masm.Sound()
      requires var b := LabelHere(masm.buffer.View());
               4 * |b.code| < WORD_LIMIT && CanLinkAll(b, jumps, 4 * |b.code|)
      modifies this, masm.Memory()
      ensures jumps == [] && masm.Sound()
      ensures old(jumps) == [] ==> masm.buffer.View() == old(masm.buffer.View())
      ensures old(jumps) != [] ==>
                var b := LabelHere(old(masm.buffer.View()));
                masm.buffer.View() == LinkAll(b, old(jumps), 4 * |b.code|)
    {
      if jumps != [] {
        LinkEachHere(jumps, masm);
      }
      jumps := [];
    }
  }
}
