/** Properties of the pool that span many operations: reservations, alignment, and the
    distance that goes stale. */
module PoolProperties {
  import opened ArmEncoding
  import opened ConstantPool
  import opened Masks

  // Sequences of emissions.

  datatype Put = Insn(word: Word) | Constant(load: Word, value: Word, reusable: bool)

  predicate IsPut(put: Put) { put.Constant? ==> IsUp(put.load) }

  predicate WellFormed(puts: seq<Put>) { forall i :: 0 <= i < |puts| ==> IsPut(puts[i]) }

  function PutOne(b: Buffer, put: Put): (r: Buffer)
    requires Valid(b) && IsPut(put)
    ensures Valid(r)
  {
    match put
    case Insn(w) => PutInt(b, w)
    case Constant(load, value, reusable) => PutIntWithConstantInt(b, load, value, reusable)
  }

  function PutAll(b: Buffer, puts: seq<Put>): (r: Buffer)
    requires Valid(b) && WellFormed(puts)
    ensures Valid(r)
    decreases |puts|
  {
    if puts == [] then b else PutAll(PutOne(b, puts[0]), puts[1..])
  }

  function Constants(puts: seq<Put>): nat
    decreases |puts|
  {
    if puts == [] then 0 else (if puts[0].Constant? then 1 else 0) + Constants(puts[1..])
  }

  // Reservations.

  /** The puts need no more than n bytes of code and c bytes of constants. */
  predicate FitsIn(puts: seq<Put>, n: nat, c: nat) { 4 * |puts| <= n && 4 * Constants(puts) <= c }

  /** Reservations that a single pool can always serve. */
  predicate Reservable(n: nat, c: nat) {
    c < 4 || n < 2036 || (c < 12 && n < 2040) || (c < 8 && n < 2044)
  }

  /** The word an emission leaves: the instruction, or the load with some tag. */
  predicate IsEmitted(put: Put, w: Word) {
    match put
    case Insn(word) => w == word
    case Constant(load, _, _) => w / 0x1000 == load / 0x1000 && IsTagged(w)
  }

  /** Everything emitted lies word after word behind the code, which is untouched. */
  predicate Contiguous(b: Buffer, puts: seq<Put>, r: Buffer) {
    && |r.code| == |b.code| + |puts|
    && r.code[..|b.code|] == b.code
    && forall i :: 0 <= i < |puts| ==> IsEmitted(puts[i], r.code[|b.code| + i])
  }

  /** Enough is left for some words of code, some of them loads of constants: whatever
      their order, none of them finds the pool full. */
  predicate Room(b: Buffer, words: nat, consts: nat) {
    words == 0 ||
    if b.pool == [] then consts == 0 || words <= 508 || (consts <= 2 && words <= 509) || (consts <= 1 && words <= 510)
    else
      && b.maxDistance >= 4 * words + 8 + (if consts >= 2 then 8 else 4 * consts)
      && (consts > 0 ==> b.maxDistance >= 16 + b.lastConstDelta)
      && 4 * |b.pool| + 4 * (if consts < words then consts else words) < MAX_POOL_SIZE
  }

  lemma ReservedRoom(b: Buffer, n: nat, c: nat)
    requires Valid(b) && Reservable(n, c)
    ensures Room(EnsureSpace(b, n, c), n / 4, c / 4)
  {
    var r := EnsureSpace(b, n, c);
    if r.pool != [] {
      assert r.maxDistance >= n + r.lastConstDelta + c + 8;
    }
  }

  lemma TagKeeps(load: Word, k: nat)
    requires k < 0x800
    ensures TagLoad(load, k) / 0x1000 == load / 0x1000 && IsTagged(TagLoad(load, k))
  {
  }

  lemma InsnInRoom(b: Buffer, w: Word, words: nat, consts: nat)
    requires Valid(b) && Room(b, words, consts) && words >= 1
    ensures PutInt(b, w).code == b.code + [w] && Room(PutInt(b, w), words - 1, consts)
  {
    assert !NoSpaceFor(b, 4);
  }

  lemma ConstantInRoom(b: Buffer, load: Word, value: Word, reusable: bool, words: nat, consts: nat)
    requires Valid(b) && IsUp(load) && Room(b, words, consts) && words >= 1 && consts >= 1
    ensures var r := PutIntWithConstantInt(b, load, value, reusable);
            && |r.code| == |b.code| + 1 && r.code[..|b.code|] == b.code
            && IsEmitted(Constant(load, value, reusable), r.code[|b.code|])
            && Room(r, words - 1, consts - 1)
  {
    var c := ResetDistance(b);
    assert BeforeConstant(b) == c;
    LoadInRoom(c, load, value, reusable, words, consts);
  }

  lemma LoadInRoom(b: Buffer, load: Word, value: Word, reusable: bool, words: nat, consts: nat)
    requires Valid(b) && IsUp(load) && Room(b, words, consts) && words >= 1 && consts >= 1 && |b.pool| <= 510
    requires b.pool == [] ==> b.maxDistance == MAX_POOL_SIZE
    ensures var r := PutLoad(b, load, value, reusable);
            && |r.code| == |b.code| + 1 && r.code[..|b.code|] == b.code
            && IsEmitted(Constant(load, value, reusable), r.code[|b.code|])
            && Room(r, words - 1, consts - 1)
  {
    TagKeeps(load, SlotFor(b, value, reusable));
  }

  function Cost(put: Put): nat { if put.Constant? then 1 else 0 }

  lemma OneInRoom(b: Buffer, put: Put, words: nat, consts: nat)
    requires Valid(b) && IsPut(put) && Room(b, words, consts) && words >= 1 && consts >= Cost(put)
    ensures Contiguous(b, [put], PutOne(b, put)) && Room(PutOne(b, put), words - 1, consts - Cost(put))
  {
    match put
    case Insn(w) => InsnInRoom(b, w, words, consts);
    case Constant(load, value, reusable) => ConstantInRoom(b, load, value, reusable, words, consts);
  }

  lemma {:induction false} RoomIsContiguous(b: Buffer, words: nat, consts: nat, puts: seq<Put>)
    requires Valid(b) && WellFormed(puts) && Room(b, words, consts) && |puts| <= words && Constants(puts) <= consts
    ensures Contiguous(b, puts, PutAll(b, puts))
    decreases |puts|
  {
    if puts != [] {
      var r := PutOne(b, puts[0]);
      OneInRoom(b, puts[0], words, consts);
      RoomIsContiguous(r, words - 1, consts - Cost(puts[0]), puts[1..]);
      FirstThenRest(b, puts, r, PutAll(r, puts[1..]));
    }
  }

  lemma FirstThenRest(b: Buffer, puts: seq<Put>, r: Buffer, q: Buffer)
    requires puts != [] && Contiguous(b, [puts[0]], r) && Contiguous(r, puts[1..], q)
    ensures Contiguous(b, puts, q)
  {
    assert q.code[..|b.code|] == q.code[..|r.code|][..|b.code|];
    forall i | 0 <= i < |puts| ensures IsEmitted(puts[i], q.code[|b.code| + i]) {
      if i == 0 {
        assert q.code[|b.code|] == q.code[..|r.code|][|b.code|] == r.code[|b.code|];
        assert IsEmitted([puts[0]][0], r.code[|b.code| + 0]);
      } else {
        assert IsEmitted(puts[1..][i - 1], q.code[|r.code| + (i - 1)]);
      }
    }
  }

  /** After ensureSpace(n, c), whatever is emitted within the reservation is contiguous: no
      pool comes in between, in whatever state the buffer was. */
  lemma Reservation(b: Buffer, n: nat, c: nat, puts: seq<Put>)
    requires Valid(b) && WellFormed(puts) && Reservable(n, c) && FitsIn(puts, n, c)
    ensures Contiguous(EnsureSpace(b, n, c), puts, PutAll(EnsureSpace(b, n, c), puts))
  {
    ReservedRoom(b, n, c);
    RoomIsContiguous(EnsureSpace(b, n, c), n / 4, c / 4, puts);
  }

  // No larger reservation can be relied on.

  lemma {:induction false} PutAllThen(b: Buffer, puts: seq<Put>, put: Put)
    requires Valid(b) && WellFormed(puts) && IsPut(put)
    ensures WellFormed(puts + [put]) && PutAll(b, puts + [put]) == PutOne(PutAll(b, puts), put)
    decreases |puts|
  {
    if puts == [] {
      assert PutAll(PutOne(b, put), []) == PutOne(b, put);
    } else {
      assert (puts + [put])[1..] == puts[1..] + [put];
      PutAllThen(PutOne(b, puts[0]), puts[1..], put);
    }
  }

  lemma {:induction false} ConstantsThen(puts: seq<Put>, put: Put)
    ensures Constants(puts + [put]) == Constants(puts) + Cost(put)
    decreases |puts|
  {
    if puts == [] {
      assert (puts + [put])[1..] == [];
    } else {
      assert (puts + [put])[1..] == puts[1..] + [put];
      ConstantsThen(puts[1..], put);
    }
  }

  /** One load of a constant, and k moves behind it. */
  function LoadAndMoves(load: Word, value: Word, k: nat): (puts: seq<Put>)
    requires IsUp(load)
    ensures |puts| == k + 1 && WellFormed(puts)
  {
    if k == 0 then [Constant(load, value, false)] else LoadAndMoves(load, value, k - 1) + [Insn(MOV_R0_R0)]
  }

  /** The state of a buffer that put them and has not flushed. */
  predicate Filled(b: Buffer, k: nat) {
    && |b.code| == k + 1 && |b.pool| == 1
    && b.maxDistance == 2044 - 4 * k && b.lastConstDelta == if k == 0 then 4 else 0
  }

  lemma FirstFills(load: Word, value: Word)
    requires IsUp(load)
    ensures Filled(PutOne(EMPTY, Constant(load, value, false)), 0)
  {
    assert BeforeConstant(EMPTY) == EMPTY;
  }

  lemma MoveFills(b: Buffer, k: nat)
    requires Valid(b) && Filled(b, k) && k < 509
    ensures Filled(PutInt(b, MOV_R0_R0), k + 1)
  {
    assert !NoSpaceFor(b, 4);
  }

  lemma {:induction false} FillsUp(load: Word, value: Word, k: nat)
    requires IsUp(load) && k <= 509
    ensures Filled(PutAll(EMPTY, LoadAndMoves(load, value, k)), k)
    ensures Constants(LoadAndMoves(load, value, k)) == 1
    decreases k
  {
    if k == 0 {
      FirstFills(load, value);
      assert PutAll(PutOne(EMPTY, Constant(load, value, false)), []) == PutOne(EMPTY, Constant(load, value, false));
    } else {
      var puts := LoadAndMoves(load, value, k - 1);
      FillsUp(load, value, k - 1);
      PutAllThen(EMPTY, puts, Insn(MOV_R0_R0));
      ConstantsThen(puts, Insn(MOV_R0_R0));
      MoveFills(PutAll(EMPTY, puts), k - 1);
    }
  }

  /** A put that finds the pool full leaves more than one word. */
  lemma FullPutSplits(b: Buffer, put: Put)
    requires Valid(b) && IsPut(put)
    requires if put.Constant? then NoSpaceForConstant(b, 4, 4) else NoSpaceFor(b, 4)
    ensures |PutOne(b, put).code| > |b.code| + 1
  {
    DeadlineSafety(b, true);
    if put.Constant? {
      assert BeforeConstant(b) == Flush(b, true);
    }
  }

  /** So it does not fit behind puts that have kept together. */
  lemma Overflows(puts: seq<Put>, put: Put, n: nat, c: nat)
    requires WellFormed(puts) && IsPut(put) && |PutAll(EMPTY, puts).code| == |puts|
    requires if put.Constant? then NoSpaceForConstant(PutAll(EMPTY, puts), 4, 4) else NoSpaceFor(PutAll(EMPTY, puts), 4)
    requires 4 * |puts| + 4 <= n && 4 * Constants(puts) + 4 * Cost(put) <= c
    ensures Splits(puts + [put], n, c)
  {
    PutAllThen(EMPTY, puts, put);
    ConstantsThen(puts, put);
    FullPutSplits(PutAll(EMPTY, puts), put);
  }

  /** A fresh buffer cannot keep these puts together, although they keep to a reservation. */
  predicate Splits(puts: seq<Put>, n: nat, c: nat) {
    WellFormed(puts) && FitsIn(puts, n, c) && !Contiguous(EMPTY, puts, PutAll(EMPTY, puts))
  }

  /** One load, then moves: the 511th word is too much. */
  lemma TooManyMoves(load: Word, value: Word) returns (puts: seq<Put>)
    requires IsUp(load)
    ensures Splits(puts, 2044, 4)
  {
    var front := LoadAndMoves(load, value, 509);
    FillsUp(load, value, 509);
    Overflows(front, Insn(MOV_R0_R0), 2044, 4);
    puts := front + [Insn(MOV_R0_R0)];
  }

  /** Two loads, the second as the 510th word. */
  lemma LoadTooLate(load: Word, value: Word) returns (puts: seq<Put>)
    requires IsUp(load)
    ensures Splits(puts, 2040, 8)
  {
    var front, put := LoadAndMoves(load, value, 508), Constant(load, value, false);
    FillsUp(load, value, 508);
    Overflows(front, put, 2040, 8);
    puts := front + [put];
  }

  lemma SecondLoad(b: Buffer, put: Put)
    requires Valid(b) && Filled(b, 506) && put.Constant? && IsPut(put) && !put.reusable
    ensures |PutOne(b, put).code| == 508 && NoSpaceForConstant(PutOne(b, put), 4, 4)
  {
    assert BeforeConstant(b) == b;
  }

  /** Three loads, two of them as the 508th and 509th word. */
  lemma LoadBehindLoad(load: Word, value: Word) returns (puts: seq<Put>)
    requires IsUp(load)
    ensures Splits(puts, 2036, 12)
  {
    var front, put := LoadAndMoves(load, value, 506), Constant(load, value, false);
    FillsUp(load, value, 506);
    PutAllThen(EMPTY, front, put);
    ConstantsThen(front, put);
    SecondLoad(PutAll(EMPTY, front), put);
    Overflows(front + [put], put, 2036, 12);
    puts := front + [put] + [put];
  }

  /** In whatever state, whatever is put: the reservation keeps it together. */
  ghost predicate IsReliable(n: nat, c: nat) {
    forall b, puts :: Valid(b) && WellFormed(puts) && FitsIn(puts, n, c) ==>
      Contiguous(EnsureSpace(b, n, c), puts, PutAll(EnsureSpace(b, n, c), puts))
  }

  lemma Unreliable(n: nat, c: nat, puts: seq<Put>)
    requires Splits(puts, n, c)
    ensures !IsReliable(n, c)
  {
    assert EnsureSpace(EMPTY, n, c) == EMPTY;
  }

  /** The exact extent of a reservation that can be relied on. */
  lemma ReservationIff(n: nat, c: nat)
    ensures IsReliable(n, c) <==> Reservable(n, c)
  {
    if Reservable(n, c) {
      forall b, puts | Valid(b) && WellFormed(puts) && FitsIn(puts, n, c)
        ensures Contiguous(EnsureSpace(b, n, c), puts, PutAll(EnsureSpace(b, n, c), puts))
      {
        Reservation(b, n, c, puts);
      }
    } else {
      var puts := TooLarge(n, c);
      Unreliable(n, c, puts);
    }
  }

  /** Outside of it there are puts that a fresh buffer cannot keep together. */
  lemma TooLarge(n: nat, c: nat) returns (puts: seq<Put>)
    requires !Reservable(n, c)
    ensures Splits(puts, n, c)
  {
    var load: Word := DT_UP;
    if c >= 12 {
      puts := LoadBehindLoad(load, 0);
    } else if c >= 8 {
      puts := LoadTooLate(load, 0);
    } else {
      puts := TooManyMoves(load, 0);
    }
  }

  // The stale distance.

  /** n loads of constants that are not shared, from a fresh buffer. */
  function Unshared(load: Word, value: Word, n: nat): (r: Buffer)
    requires IsUp(load)
    ensures Valid(r)
  {
    if n == 0 then EMPTY else PutIntWithConstantInt(Unshared(load, value, n - 1), load, value, false)
  }

  /** The state after n of them. */
  predicate Stale(b: Buffer, n: nat) {
    && b.maxDistance == MAX_POOL_SIZE - 4 * n
    && b.lastConstDelta == 4
    && |b.pool| == (if n <= 508 then n else 1)
  }

  /** The flush inside a put comes after the reset test, so the distance is never reset:
      it falls by four with every load and goes negative, and from the 509th on every
      load flushes the pool of the one before it. */
  lemma {:induction false} DistanceGoesStale(load: Word, value: Word, n: nat)
    requires IsUp(load) && n >= 1
    ensures Stale(Unshared(load, value, n), n)
    decreases n
  {
    if n > 1 {
      DistanceGoesStale(load, value, n - 1);
      StaleStep(Unshared(load, value, n - 1), load, value, n - 1);
    } else {
      assert Unshared(load, value, 0) == EMPTY;
      FirstStale(load, value);
    }
  }

  lemma FirstStale(load: Word, value: Word)
    requires IsUp(load)
    ensures Stale(PutIntWithConstantInt(EMPTY, load, value, false), 1)
  {
    assert BeforeConstant(EMPTY) == EMPTY;
  }

  lemma StaleStep(b: Buffer, load: Word, value: Word, n: nat)
    requires Valid(b) && IsUp(load) && n >= 1 && Stale(b, n)
    ensures Stale(PutIntWithConstantInt(b, load, value, false), n + 1)
  {
    var c := BeforeConstant(b);
    assert c == if n >= 508 then Flush(b, true) else b;
  }

  // Alignment.

  /** isAligned of the plain buffer, for a code of so many words. */
  predicate IsAligned(words: nat, alignment: nat)
    requires alignment > 0
  {
    Masked(4 * words, alignment - 1) == 0
  }

  /** Words missing to the next place that is aligned in any case. */
  function WordsTo(words: nat, alignment: nat): nat {
    if 4 * words % Ceiling(alignment) == 0 then 0 else (Ceiling(alignment) - 4 * words % Ceiling(alignment))
  }

  lemma NextWord(x: nat, a: nat, q: nat, r: nat)
    requires a > 0 && a % 4 == 0 && r % 4 == 0 && r < a && x == a * q + r
    ensures (x + 4) % a == if r + 4 < a then r + 4 else 0
  {
    if r + 4 < a {
      Remainder(x + 4, a, q, r + 4);
    } else {
      assert a * (q + 1) == a * q + a;
      Remainder(x + 4, a, q + 1, 0);
    }
  }

  lemma Split(x: nat, a: nat) returns (q: nat, r: nat)
    requires a > 0
    ensures x == a * q + r && r < a && x % a == r
  {
    q, r := x / a, x % a;
  }

  lemma MultipleOfFour(a: nat, q: nat, words: nat, r: int)
    requires a % 4 == 0 && 4 * words == a * q + r
    ensures r % 4 == 0
  {
    var p := (a / 4) * q;
    assert a * q == 4 * p;
  }

  lemma ResidueOfNext(words: nat, a: nat) returns (r: nat)
    requires a > 0 && a % 4 == 0
    ensures 4 * words % a == r && r % 4 == 0
    ensures (4 * words + 4) % a == if r + 4 < a then r + 4 else 0
  {
    var q;
    q, r := Split(4 * words, a);
    MultipleOfFour(a, q, words, r);
    NextWord(4 * words, a, q, r);
  }

  lemma OneWordCloser(words: nat, alignment: nat)
    requires alignment > 0 && !IsAligned(words, alignment)
    ensures WordsTo(words + 1, alignment) < WordsTo(words, alignment)
  {
    if 4 * words % Ceiling(alignment) == 0 {
      CeilingIsClear(4 * words, alignment);
    }
    var r := ResidueOfNext(words, Ceiling(alignment));
    assert 4 * (words + 1) == 4 * words + 4;
  }

  /** The loop of align: isAligned may flush, and so may the moves; each at most once in
      all, so the loop ends, whatever the alignment. */
  function AlignLoop(b: Buffer, alignment: nat): (r: Buffer)
    requires Valid(b) && alignment > 0
    ensures Valid(r) && IsAligned(|r.code|, alignment) && !NoSpaceFor(r, alignment)
    decreases if b.pool == [] then 0 else 1, WordsTo(|b.code|, alignment)
  {
    var c := FlushIfNoSpaceFor(b, alignment);
    if IsAligned(|c.code|, alignment) then c
    else
      OneWordCloser(|c.code|, alignment);
      PadSteps(c, alignment);
      AlignLoop(PutInt(c, MOV_R0_R0), alignment)
  }

  predicate Closer(r: Buffer, b: Buffer, alignment: nat) {
    || (r.pool == [] && b.pool != [])
    || ((r.pool == []) == (b.pool == []) && WordsTo(|r.code|, alignment) < WordsTo(|b.code|, alignment))
  }

  lemma CheckSteps(b: Buffer, alignment: nat)
    requires Valid(b)
    ensures var r := FlushIfNoSpaceFor(b, alignment); r == b || (r.pool == [] && b.pool != [])
  {
  }

  lemma PadSteps(b: Buffer, alignment: nat)
    requires Valid(b) && alignment > 0 && !IsAligned(|b.code|, alignment)
    ensures Closer(PutInt(b, MOV_R0_R0), b, alignment)
  {
    CheckSteps(b, 4);
    OneWordCloser(|b.code|, alignment);
  }

  lemma AlignStart(b: Buffer, alignment: nat)
    requires Valid(b) && alignment > 0
    ensures AlignLoop(b, alignment) == AlignLoop(FlushIfNoSpaceFor(b, alignment), alignment)
  {
  }

  lemma AlignEnd(b: Buffer, alignment: nat)
    requires Valid(b) && alignment > 0
    requires !NoSpaceFor(b, alignment) && IsAligned(|b.code|, alignment)
    ensures AlignLoop(b, alignment) == b
  {
  }

  lemma AlignNext(b: Buffer, alignment: nat)
    requires Valid(b) && alignment > 0
    requires !NoSpaceFor(b, alignment) && !IsAligned(|b.code|, alignment)
    ensures AlignLoop(b, alignment) == AlignLoop(PutInt(b, MOV_R0_R0), alignment)
  {
  }

  /** One round of the loop: a move, then the check. */
  lemma AlignRound(b: Buffer, alignment: nat)
    requires Valid(b) && alignment > 0
    requires !NoSpaceFor(b, alignment) && !IsAligned(|b.code|, alignment)
    ensures var r := FlushIfNoSpaceFor(PutInt(b, MOV_R0_R0), alignment);
            && AlignLoop(b, alignment) == AlignLoop(r, alignment)
            && !NoSpaceFor(r, alignment) && Closer(r, b, alignment)
  {
    var c := PutInt(b, MOV_R0_R0);
    AlignNext(b, alignment);
    AlignStart(c, alignment);
    PadSteps(b, alignment);
    CheckSteps(c, alignment);
  }

  /** The buffer with padding behind it, up to the first place that is aligned. */
  predicate PaddedTo(b: Buffer, r: Buffer, alignment: nat)
    requires alignment > 0
  {
    && |b.code| <= |r.code| && r.code[..|b.code|] == b.code
    && forall i :: |b.code| <= i < |r.code| ==> r.code[i] == 0xe1a00000 && !IsAligned(i, alignment)
  }

  lemma PaddedOnce(b: Buffer, d: Buffer, r: Buffer, alignment: nat)
    requires alignment > 0 && !IsAligned(|b.code|, alignment)
    requires d.code == b.code + [MOV_R0_R0] && PaddedTo(d, r, alignment)
    ensures PaddedTo(b, r, alignment)
  {
    assert r.code[..|b.code|] == r.code[..|d.code|][..|b.code|];
    assert r.code[|b.code|] == r.code[..|d.code|][|b.code|];
  }

  lemma PutIntCases(b: Buffer, w: Word)
    requires Valid(b)
    ensures var d := PutInt(b, w); if d.pool == b.pool then d.code == b.code + [w] else b.pool != [] && d.pool == []
  {
    CheckSteps(b, 4);
  }

  /** As long as the pool is not flushed on the way, align pads no further than it must. */
  lemma {:induction false} AlignIsLeast(b: Buffer, alignment: nat)
    requires Valid(b) && alignment > 0
    ensures var r := AlignLoop(b, alignment); if r.pool == b.pool then PaddedTo(b, r, alignment) else r.pool == []
    decreases if b.pool == [] then 0 else 1, WordsTo(|b.code|, alignment)
  {
    var c := FlushIfNoSpaceFor(b, alignment);
    CheckSteps(b, alignment);
    if !IsAligned(|c.code|, alignment) {
      var d := PutInt(c, MOV_R0_R0);
      PadSteps(c, alignment);
      PutIntCases(c, MOV_R0_R0);
      AlignIsLeast(d, alignment);
      if AlignLoop(b, alignment).pool == b.pool {
        PaddedOnce(c, d, AlignLoop(d, alignment), alignment);
      }
    }
  }

  /** The label after align(16) needs no flush of its own, since the alignment check left
      it enough room; so it passes the test, and is a multiple of 16. The same goes for
      larger alignments, if they are powers of two. */
  lemma AlignedLabel(b: Buffer, alignment: nat)
    requires Valid(b) && alignment >= 16
    ensures var r := EnsureSpace(AlignLoop(b, alignment), MAX_INSTRUCTION_SIZE, 8);
            && r == AlignLoop(b, alignment) && IsAligned(|r.code|, alignment)
            && (IsPowerOfTwo(alignment) ==> 4 * |r.code| % alignment == 0)
  {
    TestsMultiplesIff(alignment);
  }
}
