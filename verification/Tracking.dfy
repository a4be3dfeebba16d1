/** When the distance kept by the buffer is the true one. The pool's own reset comes before
    the space test of the same put, so a put that flushes starts a pool with an old
    distance; every other operation keeps the distance true. */
module Tracking {
  import opened ArmEncoding
  import opened ConstantPool
  import opened Trace
  import opened Session
  import opened Assembler

  /** Bytes of code since the first waiting load, itself included. */
  function Elapsed(b: Buffer): int
    requires b.loads != []
  {
    4 * (|b.code| - b.loads[0])
  }

  /** The distance left is what the pending pool's first load has really left. */
  predicate Tracked(b: Buffer)
    requires Valid(b)
  {
    b.pool != [] ==> b.maxDistance == MAX_POOL_SIZE - Elapsed(b)
  }

  /** The test as documented (lines 50-51 of the header): no room is left for the instruction and its constant. */
  predicate NoRoomLeft(b: Buffer, insnSize: nat, constSize: nat)
    requires Valid(b)
  {
    b.pool != [] &&
    (|| MAX_POOL_SIZE - Elapsed(b) < insnSize + b.lastConstDelta + constSize + BARRIER_SIZE + 4
     || 4 * |b.pool| + constSize >= MAX_POOL_SIZE)
  }

  /** The code's test never comes late, and while the distance is true it is the documented
      one. */
  lemma TestIsEarly(b: Buffer, insnSize: nat, constSize: nat)
    requires Valid(b)
    ensures NoRoomLeft(b, insnSize, constSize) ==> NoSpaceForConstant(b, insnSize, constSize)
    ensures Tracked(b) ==> (NoSpaceForConstant(b, insnSize, constSize) <==> NoRoomLeft(b, insnSize, constSize))
  {
  }

  /** The test before an instruction without a constant: no room for it, for the rest of the
      last constant's share, and for a barrier and a word. */
  lemma InsnTestIsEarly(b: Buffer, insnSize: nat)
    requires Valid(b) && b.pool != []
    ensures var left, share := 2048 - Elapsed(b), if b.lastConstDelta > insnSize then b.lastConstDelta - insnSize else 0;
            && (left < insnSize + share + 8 ==> NoSpaceFor(b, insnSize))
            && (Tracked(b) ==> (NoSpaceFor(b, insnSize) <==> left < insnSize + share + 8))
  {
  }

  // What each operation does to the distance.

  /** Putting a constant: the distance is true afterwards exactly if the pool was empty, or
      it was true before and the put did not have to flush. */
  lemma PutConstantTracks(b: Buffer, load: Word, constant: Word, isReusable: bool)
    requires Valid(b) && IsUp(load)
    ensures Tracked(PutIntWithConstantInt(b, load, constant, isReusable))
            <==> b.pool == [] || (!NoSpaceForConstant(b, 4, 4) && Tracked(b))
  {
    var c := BeforeConstant(b);
    var r := PutIntWithConstantInt(b, load, constant, isReusable);
    assert r == PutLoad(c, load, constant, isReusable);
    LoadTracks(c, load, constant, isReusable);
  }

  /** The load itself: a pool that starts with it is true if the distance was reset. */
  lemma LoadTracks(b: Buffer, load: Word, constant: Word, isReusable: bool)
    requires Valid(b) && |b.pool| <= 510 && Valid(PutLoad(b, load, constant, isReusable))
    ensures Tracked(PutLoad(b, load, constant, isReusable))
            <==> if b.pool == [] then b.maxDistance == MAX_POOL_SIZE else Tracked(b)
  {
  }

  /** A put that had to flush leaves so little distance that the next put of a constant
      flushes again, for one waiting load. */
  lemma StaleFlushesAgain(b: Buffer, load: Word, constant: Word, isReusable: bool)
    requires Valid(b) && IsUp(load) && NoSpaceForConstant(b, 4, 4)
    ensures var r := PutIntWithConstantInt(b, load, constant, isReusable);
            !Tracked(r) && |r.loads| == 1 && NoSpaceForConstant(r, 4, 4) && !NoRoomLeft(r, 4, 4)
  {
    var c := BeforeConstant(b);
    assert c.pool == [] && c.maxDistance == b.maxDistance;
    DeadlineSafety(b, true);
    assert PutIntWithConstantInt(b, load, constant, isReusable) == PutLoad(c, load, constant, isReusable);
  }

  /** A put behind a reservation cannot flush, so it leaves the distance as true as it was:
      loadBranchTarget works like that. */
  lemma ReservedPutTracks(b: Buffer, load: Word, constant: Word, isReusable: bool)
    requires Valid(b) && IsUp(load)
    ensures Tracked(PutIntWithConstantInt(EnsureSpace(b, 4, 4), load, constant, isReusable))
            <==> NoSpaceForConstant(b, 4, 4) || Tracked(b)
  {
    PutConstantTracks(EnsureSpace(b, 4, 4), load, constant, isReusable);
  }

  lemma PutTracks(b: Buffer, w: Word)
    requires Valid(b)
    ensures Tracked(PutInt(b, w)) <==> NoSpaceFor(b, 4) || Tracked(b)
  {
  }

  lemma LinkTracks(b: Buffer, p: nat, to: Word)
    requires Valid(b) && HasSlot(b, p) && Valid(LinkJump(b, p, to))
    ensures Tracked(LinkJump(b, p, to)) <==> Tracked(b)
  {
  }

  /** Whether the distance is true after a call, told from the buffer before it. */
  predicate LeavesTracked(b: Buffer, call: Call)
    requires Valid(b)
  {
    match call
    case EmitPlain(_) => NoSpaceFor(b, 4) || Tracked(b)
    case EmitConstant(_, _, _, _) => b.pool == [] || (!NoSpaceForConstant(b, 4, 4) && Tracked(b))
    case EmitBranch(_, _, _) => NoSpaceForConstant(b, 4, 4) || Tracked(b)
    case TakeLabel => NoSpaceForConstant(b, MAX_INSTRUCTION_SIZE, 8) || Tracked(b)
    case LinkJumpTo(_, _) => Tracked(b)
    case Reserve(n, c) => NoSpaceForConstant(b, n, c) || Tracked(b)
    case CheckAligned(alignment) => NoSpaceFor(b, alignment) || Tracked(b)
    case FlushBehindJump(isForced) => WorthFlushing(b, isForced) || Tracked(b)
  }

  lemma ApplyTracks(a: State, call: Call)
    requires CanApply(a, call) && Valid(Apply(a, call).buf)
    ensures Tracked(Apply(a, call).buf) <==> LeavesTracked(a.buf, call)
  {
    match call
    case EmitPlain(w) => PutTracks(a.buf, w);
    case EmitConstant(cc, rd, value, reusable) => PutConstantTracks(a.buf, LoadTemplate(cc, rd), value, reusable);
    case EmitBranch(cc, rd, _) => ReservedPutTracks(a.buf, LoadTemplate(cc, rd), INVALID_BRANCH_TARGET, false);
    case LinkJumpTo(j, dest) => LinkTracks(a.buf, a.jumps[j].at, 4 * dest.at % WORD_LIMIT);
    case _ =>
  }

  lemma CallTracks(s: Live, call: Call)
    requires Allowed(s, call)
    ensures Tracked(Do(s, call).buf) <==> LeavesTracked(s.buf, call)
  {
    CallApplies(s, call);
    ApplyTracks(StateOf(s), call);
  }

  // Whole runs.

  /** No constant is put while the pool is full. */
  predicate NeverPutsFull(s: Live, calls: seq<Call>)
    requires AllowedRun(s, calls)
    decreases |calls|
  {
    calls == [] ||
    ((calls[0].EmitConstant? ==> !NoSpaceForConstant(s.buf, 4, 4)) && NeverPutsFull(Do(s, calls[0]), calls[1..]))
  }

  predicate AlwaysTracked(s: Live, calls: seq<Call>)
    requires AllowedRun(s, calls)
    decreases |calls|
  {
    Tracked(s.buf) && (calls == [] || AlwaysTracked(Do(s, calls[0]), calls[1..]))
  }

  /** The distance is true all through a run exactly if no constant of the run is put while
      the pool is full. */
  lemma {:induction false} TrackedIffNeverFull(s: Live, calls: seq<Call>)
    requires AllowedRun(s, calls) && Tracked(s.buf)
    ensures AlwaysTracked(s, calls) <==> NeverPutsFull(s, calls)
    decreases |calls|
  {
    if calls != [] {
      CallTracks(s, calls[0]);
      if Tracked(Do(s, calls[0]).buf) {
        TrackedIffNeverFull(Do(s, calls[0]), calls[1..]);
      }
    }
  }
}
