/** Which loads share a pool entry: what a put of a constant does to the pool, and that no
    run ever puts two equal reusable constants into one pool. */
module Sharing {
  import opened ArmEncoding
  import opened ConstantPool
  import opened Trace
  import opened Session

  /** Entry k of the pending pool is open to other loads of this constant. */
  predicate IsShareable(b: Buffer, k: nat, constant: Word) {
    k < |b.pool| && k < |b.reusable| && b.reusable[k] && b.pool[k] == constant
  }

  predicate HasShareable(b: Buffer, constant: Word) {
    exists k: nat :: k < |b.pool| && IsShareable(b, k, constant)
  }

  /** The pool is full for one more load of a constant. */
  predicate IsFull(b: Buffer) { b.pool != [] && (b.maxDistance < b.lastConstDelta + 16 || |b.pool| >= 511) }

  /** The pool the put finds is the pending one, unless that is full. */
  predicate FindsPool(b: Buffer, c: Buffer) {
    && c.pool == (if IsFull(b) then [] else b.pool)
    && c.reusable == (if IsFull(b) then [] else b.reusable)
    && (!IsFull(b) ==> c.code == b.code && c.loads == b.loads)
  }

  lemma PoolFound(b: Buffer)
    requires Valid(b)
    ensures FindsPool(b, BeforeConstant(b))
  {
  }

  /** One more load, which waits with this tag. */
  predicate LoadAdded(c: Buffer, load: Word, k: nat, r: Buffer) {
    && |r.code| == |c.code| + 1 && r.code[..|c.code|] == c.code && r.loads == c.loads + [|c.code|]
    && var w := r.code[|c.code|];
       w / 0x1000 == load / 0x1000 && IsTagged(w) && TagIndex(w) == k
  }

  /** A reusable constant that is in the pool is not put there again: the load shares such
      an entry. Any other gets the next entry, which is the only change to the pool. */
  predicate SharesOrAdds(c: Buffer, load: Word, constant: Word, isReusable: bool, r: Buffer) {
    if isReusable && HasShareable(c, constant) then
      && r.pool == c.pool && r.reusable == c.reusable
      && exists k: nat :: k < |c.pool| && IsShareable(c, k, constant) && LoadAdded(c, load, k, r)
    else
      && r.pool == c.pool + [constant] && r.reusable == c.reusable + [isReusable]
      && LoadAdded(c, load, |c.pool|, r)
  }

  lemma SlotIsShared(b: Buffer, constant: Word, isReusable: bool)
    requires Valid(b)
    ensures var k := SlotFor(b, constant, isReusable);
            if isReusable && HasShareable(b, constant) then IsShareable(b, k, constant) else k == |b.pool|
  {
    var k := SlotFor(b, constant, isReusable);
    if isReusable && k < |b.pool| {
      assert IsShareable(b, k, constant);
    }
  }

  lemma TagAdded(load: Word, k: nat)
    requires k < 0x800
    ensures var w := TagLoad(load, k); w / 0x1000 == load / 0x1000 && IsTagged(w) && TagIndex(w) == k
  {
  }

  lemma LoadShares(c: Buffer, load: Word, constant: Word, isReusable: bool)
    requires Valid(c) && |c.pool| <= 510
    ensures SharesOrAdds(c, load, constant, isReusable, PutLoad(c, load, constant, isReusable))
  {
    var k := SlotFor(c, constant, isReusable);
    SlotIsShared(c, constant, isReusable);
    TagAdded(load, k);
    assert LoadAdded(c, load, k, PutLoad(c, load, constant, isReusable));
  }

  /** What a put of a constant does, in any state. */
  lemma PutShares(b: Buffer, load: Word, constant: Word, isReusable: bool) returns (c: Buffer)
    requires Valid(b) && IsUp(load)
    ensures FindsPool(b, c)
    ensures SharesOrAdds(c, load, constant, isReusable, PutIntWithConstantInt(b, load, constant, isReusable))
  {
    c := BeforeConstant(b);
    PoolFound(b);
    LoadShares(c, load, constant, isReusable);
  }

  // Over whole runs.

  /** No two reusable entries of the pending pool hold the same value. */
  predicate Distinct(b: Buffer) {
    forall i, j :: 0 <= i < j < |b.pool| && i < |b.reusable| && j < |b.reusable| && b.reusable[i] && b.reusable[j] ==>
      b.pool[i] != b.pool[j]
  }

  lemma PutKeepsDistinct(c: Buffer, load: Word, constant: Word, isReusable: bool, r: Buffer)
    requires |c.reusable| == |c.pool| && Distinct(c) && SharesOrAdds(c, load, constant, isReusable, r)
    ensures Distinct(r)
  {
    if isReusable && !HasShareable(c, constant) {
      forall i | 0 <= i < |c.pool| && c.reusable[i] ensures c.pool[i] != constant {
        assert !IsShareable(c, i, constant);
      }
    }
  }

  lemma ConstantKeepsDistinct(b: Buffer, load: Word, constant: Word, isReusable: bool)
    requires Valid(b) && IsUp(load) && Distinct(b)
    ensures Distinct(PutIntWithConstantInt(b, load, constant, isReusable))
  {
    var c := PutShares(b, load, constant, isReusable);
    PutKeepsDistinct(c, load, constant, isReusable, PutIntWithConstantInt(b, load, constant, isReusable));
  }

  /** Linking writes an entry of the jump's own. */
  lemma LinkKeepsDistinct(s: Live, j: nat, dest: Label)
    requires Allowed(s, LinkJumpTo(j, dest)) && Distinct(s.buf)
    ensures Distinct(Do(s, LinkJumpTo(j, dest)).buf)
  {
    var k := s.owners[j];
    JumpHasSlot(s, j);
    assert OwnerHolds(s, j);
    LinkJumpHitsSlot(s.buf, s.trace, k, dest);
    assert ItemInPlace(s.buf, s.trace, k);
  }

  lemma CallKeepsDistinct(s: Live, call: Call)
    requires Allowed(s, call) && Distinct(s.buf)
    ensures Distinct(Do(s, call).buf)
  {
    match call
    case EmitConstant(cc, rd, value, reusable) => ConstantKeepsDistinct(s.buf, LoadTemplate(cc, rd), value, reusable);
    case EmitBranch(cc, rd, _) =>
      ConstantKeepsDistinct(EnsureSpace(s.buf, 4, 4), LoadTemplate(cc, rd), INVALID_BRANCH_TARGET, false);
    case LinkJumpTo(j, dest) => LinkKeepsDistinct(s, j, dest);
    case _ =>
  }

  lemma {:induction false} RunKeepsDistinct(s: Live, calls: seq<Call>)
    requires AllowedRun(s, calls) && Distinct(s.buf)
    ensures Distinct(Run(s, calls).buf)
    decreases |calls|
  {
    if calls != [] {
      CallKeepsDistinct(s, calls[0]);
      RunKeepsDistinct(Do(s, calls[0]), calls[1..]);
    }
  }

  /** Whatever is called, from an empty buffer on: a reusable constant waits in the pool at
      most once. */
  lemma RunIsDistinct(s: Live, calls: seq<Call>)
    requires s.buf == EMPTY && AllowedRun(s, calls)
    ensures Distinct(Run(s, calls).buf)
  {
    RunKeepsDistinct(s, calls);
  }
}
