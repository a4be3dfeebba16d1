/** The keyword lookup generator as a compiler: the code it prints for a trie returns what
    a plain search of the keyword table returns, for every keyword list and every input. */
module KeywordLookup {
  import opened KeywordTrie
  import opened KeywordOrder
  import opened KeywordCode

  // Printing.

  /** The address and the characters of a test: a label of three is backed up by the one
      character before it, so that four can be compared at once. */
  function TestBase(full: Text, edge: Text): nat { if |full| > 0 && |edge| == 3 then |full| - 1 else |full| }

  function TestChars(full: Text, edge: Text): Text {
    if |full| > 0 && |edge| == 3 then [(full + edge)[|full| - 1]] + edge else edge
  }

  /** The test is of what the child's full prefix spells from its address to its end, and it
      is one of three characters at the very beginning only. */
  lemma TestIs(full: Text, edge: Text)
    requires edge != []
    ensures var base, chars := TestBase(full, edge), TestChars(full, edge);
            && base <= |full| && chars == (full + edge)[base..]
            && |full| - base == (if |full| > 0 && |edge| == 3 then 1 else 0)
            && (|chars| == 3 ==> base == 0)
  {
  }

  /** No three characters are compared in the middle of the input. */
  predicate ThreeAtStart(code: Code)
    decreases code
  {
    forall i :: 0 <= i < |code.branches| ==>
      (|code.branches[i].chars| == 3 ==> code.branches[i].base == 0) && ThreeAtStart(code.branches[i].body)
  }

  /** printSubTreeAsC for a node whose labels from the root spell `full`. */
  function PrintSubTree(t: Trie, full: Text): (code: Code)
    ensures |code.branches| == |t.children|
    decreases t
  {
    Code(if t.value.Some? then Some(Accept(|full|, t.value.value)) else None,
         seq(|t.children|, i requires 0 <= i < |t.children| =>
           Branch(TestBase(full, t.children[i].prefix), TestChars(full, t.children[i].prefix),
                  PrintSubTree(t.children[i], full + t.children[i].prefix))))
  }

  lemma {:induction false} PrintsThreeAtStart(t: Trie, full: Text)
    requires WellFormed(t)
    ensures ThreeAtStart(PrintSubTree(t, full))
    decreases t
  {
    forall i | 0 <= i < |t.children|
      ensures |TestChars(full, t.children[i].prefix)| == 3 ==> TestBase(full, t.children[i].prefix) == 0
      ensures ThreeAtStart(PrintSubTree(t.children[i], full + t.children[i].prefix))
    {
      TestIs(full, t.children[i].prefix);
      PrintsThreeAtStart(t.children[i], full + t.children[i].prefix);
    }
  }

  /** The printing loop over the children. */
  method Print(t: Trie, full: Text) returns (code: Code)
    ensures code == PrintSubTree(t, full)
    decreases t
  {
    var branches: seq<Branch> := [];
    for i := 0 to |t.children|
      invariant branches == PrintSubTree(t, full).branches[..i]
    {
      var k := t.children[i].prefix;
      var baseIndex := |full|;
      var child := full + k;
      if baseIndex > 0 && |k| == 3 {
        baseIndex := baseIndex - 1;
        k := [child[baseIndex]] + k;
      }
      var body := Print(t.children[i], child);
      branches := branches + [Branch(baseIndex, k, body)];
    }
    code := Code(if t.value.Some? then Some(Accept(|full|, t.value.value)) else None, branches);
  }

  /** The length of the longest keyword below a node. */
  function LongestFrom(t: Trie, full: Text, i: nat): (max: nat)
    requires i <= |t.children|
    ensures max >= |full|
    decreases t, |t.children| - i
  {
    if i == |t.children| then |full|
    else
      var l := Longest(t.children[i], full + t.children[i].prefix);
      var rest := LongestFrom(t, full, i + 1);
      if l > rest then l else rest
  }

  function Longest(t: Trie, full: Text): (max: nat)
    ensures max >= |full|
    decreases t, |t.children| + 1
  {
    LongestFrom(t, full, 0)
  }

  lemma {:induction false} LongestChild(t: Trie, full: Text, i: nat, k: nat)
    requires i <= k < |t.children|
    ensures Longest(t.children[k], full + t.children[k].prefix) <= LongestFrom(t, full, i)
    decreases |t.children| - i
  {
    if i < k {
      LongestChild(t, full, i + 1, k);
    }
  }

  /** No keyword is longer. */
  lemma {:induction false} KeysFit(t: Trie, full: Text, w: Text)
    requires Lookup(t, w).Some?
    ensures |full| + |w| <= Longest(t, full)
    decreases t
  {
    if w != [] {
      var k := ChildFor(t.children, w);
      var c := t.children[k];
      KeysFit(c, full + c.prefix, w[|c.prefix|..]);
      LongestChild(t, full, 0, k);
    }
  }

  lemma {:induction false} LongestIsChild(t: Trie, full: Text, i: nat) returns (k: nat)
    requires WellFormed(t) && i < |t.children|
    ensures i <= k < |t.children|
    ensures Longest(t.children[k], full + t.children[k].prefix) == LongestFrom(t, full, i)
    decreases |t.children| - i
  {
    k := i;
    if i + 1 < |t.children| {
      var j := LongestIsChild(t, full, i + 1);
      if Longest(t.children[i], full + t.children[i].prefix) <= LongestFrom(t, full, i + 1) {
        k := j;
      }
    }
  }

  /** And some keyword is that long, where no branch ends without one. */
  lemma {:induction false} LongestAttained(t: Trie, full: Text) returns (w: Text)
    requires WellFormed(t) && Normal(t) && (t.value.Some? || t.children != [])
    ensures Lookup(t, w).Some? && |full| + |w| == Longest(t, full)
    decreases t
  {
    w := [];
    if t.children != [] {
      var k := LongestIsChild(t, full, 0);
      var c := t.children[k];
      var rest := LongestAttained(c, full + c.prefix);
      w := c.prefix + rest;
      assert w[|c.prefix|..] == rest;
      LookupThrough(t, w, k, rest);
    }
  }

  /** maxLength with its loop over the children. */
  method MaxLength(t: Trie, full: Text) returns (max: nat)
    ensures max == Longest(t, full)
    decreases t
  {
    max := |full|;
    var i := |t.children|;
    while i > 0
      invariant 0 <= i <= |t.children| && max == LongestFrom(t, full, i)
    {
      i := i - 1;
      var l := MaxLength(t.children[i], full + t.children[i].prefix);
      if l > max {
        max := l;
      }
    }
  }

  // Which code compiles, and what it reads.

  predicate ShortLabels(t: Trie)
    decreases t
  {
    forall i :: 0 <= i < |t.children| ==> |t.children[i].prefix| <= 8 && ShortLabels(t.children[i])
  }

  /** The code uses only macros that are defined exactly if no label is longer than eight. */
  lemma {:induction false} CompilesIffShort(t: Trie, full: Text)
    requires WellFormed(t)
    ensures Compiles(PrintSubTree(t, full)) <==> ShortLabels(t)
    decreases t
  {
    var code := PrintSubTree(t, full);
    forall i | 0 <= i < |t.children|
      ensures HasMacro(code.branches[i].chars) <==> |t.children[i].prefix| <= 8
      ensures Compiles(code.branches[i].body) <==> ShortLabels(t.children[i])
    {
      CompilesIffShort(t.children[i], full + t.children[i].prefix);
    }
  }

  /** Every unit the code looks at lies below the printed maxTokenLength. */
  lemma {:induction false} ReadsBelowMax(t: Trie, full: Text, n: nat)
    requires WellFormed(t) && Longest(t, full) < n
    ensures ReadsWithin(PrintSubTree(t, full), n)
    decreases t
  {
    forall i | 0 <= i < |t.children|
      ensures |full| + |t.children[i].prefix| < n && ReadsWithin(PrintSubTree(t.children[i], full + t.children[i].prefix), n)
    {
      LongestChild(t, full, 0, i);
      ReadsBelowMax(t.children[i], full + t.children[i].prefix, n);
    }
  }

  // The plain search.

  /** The shortest text below a node, from length n on, that is a keyword and is followed
      by no identifier part. */
  function Search(s: Setting, t: Trie, full: Text, input: Text, n: nat): Option<Match>
    requires |full| <= n
    decreases |input| - n
  {
    if n >= |input| then None
    else
      var found := Lookup(t, input[|full|..n]);
      if found.Some? && !IsIdentPart(s, input[n]) then Some(Match(found.value, n))
      else Search(s, t, full, input, n + 1)
  }

  lemma PrefixOfSlice(full: Text, input: Text, p: Text, n: nat)
    requires |full| <= n <= |input| && p <= input[|full|..]
    ensures p <= input[|full|..n] <==> |full| + |p| <= n
    ensures |full| + |p| <= n ==> input[|full|..n][|p|..] == input[|full| + |p|..n]
  {
    if |full| + |p| <= n {
      assert input[|full|..n][..|p|] == input[|full|..][..|p|];
    }
  }

  lemma LookupThrough(t: Trie, w: Text, k: nat, rest: Text)
    requires Distinct(t.children) && k < |t.children| && t.children[k].prefix <= w && rest == w[|t.children[k].prefix|..]
    ensures Lookup(t, w) == Lookup(t.children[k], rest)
  {
    LookupChild(t, w, k);
  }

  /** A text that stops inside a child's label is in no table. */
  lemma LookupShort(t: Trie, w: Text, k: nat)
    requires Distinct(t.children) && k < |t.children|
    requires w != [] && |w| < |t.children[k].prefix| && w[0] == t.children[k].prefix[0]
    ensures Lookup(t, w) == None
  {
    forall i | 0 <= i < |t.children| ensures !(t.children[i].prefix <= w) {
      if i != k {
        assert t.children[i].prefix[0] != t.children[k].prefix[0];
      }
    }
    NoChild(t.children, w);
  }

  /** Texts longer than the node's own label go through the one child that matches. */
  lemma LookupBelow(t: Trie, full: Text, input: Text, k: nat, n: nat)
    requires WellFormed(t) && k < |t.children| && |full| < n <= |input|
    requires t.children[k].prefix <= input[|full|..]
    ensures var c := t.children[k];
            Lookup(t, input[|full|..n])
            == if |full| + |c.prefix| <= n then Lookup(c, input[|full| + |c.prefix|..n]) else None
  {
    var p, w := t.children[k].prefix, input[|full|..n];
    PrefixOfSlice(full, input, p, n);
    if |full| + |p| <= n {
      LookupThrough(t, w, k, input[|full| + |p|..n]);
    } else {
      assert w[0] == input[|full|..][0] == p[0];
      LookupShort(t, w, k);
    }
  }

  lemma SearchStep(s: Setting, t: Trie, full: Text, input: Text, n: nat, found: Option<Token>)
    requires |full| <= n < |input| && found == Lookup(t, input[|full|..n])
    ensures Search(s, t, full, input, n)
            == if found.Some? && !IsIdentPart(s, input[n]) then Some(Match(found.value, n))
               else Search(s, t, full, input, n + 1)
  {
  }

  /** What the table below t says of the first n units is what it says below c. */
  predicate Agree(t: Trie, full: Text, c: Trie, child: Text, input: Text, n: nat) {
    |full| <= n <= |input| && |child| <= n && Lookup(t, input[|full|..n]) == Lookup(c, input[|child|..n])
  }

  lemma {:induction false} SearchBeyond(s: Setting, t: Trie, full: Text, c: Trie, child: Text, input: Text, n: nat)
    requires |full| <= n && |child| <= n
    requires forall i: nat :: n <= i < |input| ==> Agree(t, full, c, child, input, i)
    ensures Search(s, t, full, input, n) == Search(s, c, child, input, n)
    decreases |input| - n
  {
    if n < |input| {
      assert Agree(t, full, c, child, input, n);
      SearchBeyond(s, t, full, c, child, input, n + 1);
      SameStep(s, t, full, c, child, input, n);
    }
  }

  lemma SameStep(s: Setting, t: Trie, full: Text, c: Trie, child: Text, input: Text, n: nat)
    requires |full| <= n < |input| && |child| <= n
    requires Lookup(t, input[|full|..n]) == Lookup(c, input[|child|..n])
    requires Search(s, t, full, input, n + 1) == Search(s, c, child, input, n + 1)
    ensures Search(s, t, full, input, n) == Search(s, c, child, input, n)
  {
    var found := Lookup(c, input[|child|..n]);
    SearchStep(s, t, full, input, n, found);
    SearchStep(s, c, child, input, n, found);
  }

  predicate Silent(t: Trie, full: Text, input: Text, n: nat) {
    |full| <= n <= |input| && Lookup(t, input[|full|..n]) == None
  }

  lemma {:induction false} SearchSkips(s: Setting, t: Trie, full: Text, input: Text, n: nat, m: nat)
    requires |full| <= n <= m <= |input| && forall i: nat :: n <= i < m ==> Silent(t, full, input, i)
    ensures Search(s, t, full, input, n) == Search(s, t, full, input, m)
    decreases m - n
  {
    if n < m {
      assert Silent(t, full, input, n);
      SearchStep(s, t, full, input, n, None);
      SearchSkips(s, t, full, input, n + 1, m);
    }
  }

  lemma SilentBefore(t: Trie, full: Text, input: Text, k: nat, i: nat, child: Text)
    requires WellFormed(t) && k < |t.children| && |full| < |input| && t.children[k].prefix <= input[|full|..]
    requires child == full + t.children[k].prefix && |full| < i < |child| && i <= |input|
    ensures Silent(t, full, input, i)
  {
    LookupBelow(t, full, input, k, i);
  }

  lemma AgreeBehind(t: Trie, full: Text, input: Text, k: nat, i: nat, child: Text)
    requires WellFormed(t) && k < |t.children| && |full| < |input| && t.children[k].prefix <= input[|full|..]
    requires child == full + t.children[k].prefix && |full| < |child| <= i <= |input|
    ensures Agree(t, full, t.children[k], child, input, i)
  {
    LookupBelow(t, full, input, k, i);
  }

  /** The search goes on below the child that matches, behind its label. */
  lemma SearchChild(s: Setting, t: Trie, full: Text, input: Text, k: nat)
    requires WellFormed(t) && k < |t.children| && |full| < |input| && t.children[k].prefix <= input[|full|..]
    ensures var c := t.children[k];
            Search(s, t, full, input, |full| + 1) == Search(s, c, full + c.prefix, input, |full + c.prefix|)
  {
    var c := t.children[k];
    var child := full + c.prefix;
    forall i: nat | |full| < i < |child| ensures Silent(t, full, input, i) {
      SilentBefore(t, full, input, k, i, child);
    }
    SearchSkips(s, t, full, input, |full| + 1, |child|);
    forall i: nat | |child| <= i < |input| ensures Agree(t, full, c, child, input, i) {
      AgreeBehind(t, full, input, k, i, child);
    }
    SearchBeyond(s, t, full, c, child, input, |child|);
  }

  lemma {:induction false} SearchNowhere(s: Setting, t: Trie, full: Text, input: Text, n: nat)
    requires |full| < n && |full| <= |input|
    requires forall i :: 0 <= i < |t.children| ==> !(t.children[i].prefix <= input[|full|..])
    ensures Search(s, t, full, input, n) == None
    decreases |input| - n
  {
    if n < |input| {
      var w := input[|full|..n];
      forall i | 0 <= i < |t.children| ensures !(t.children[i].prefix <= w) {
        LongerStill(t.children[i].prefix, input, |full|, n);
      }
      NoChild(t.children, w);
      SearchNowhere(s, t, full, input, n + 1);
    }
  }

  lemma Shorter2(p: Text, q: Text, w: Text)
    requires q <= w
    ensures p <= q ==> p <= w
  {
  }

  lemma LongerStill(p: Text, input: Text, from: nat, n: nat)
    requires from <= n <= |input| && !(p <= input[from..])
    ensures !(p <= input[from..n])
  {
    assert input[from..n] <= input[from..];
    Shorter2(p, input[from..n], input[from..]);
  }

  // Running the code is searching.

  /** A branch is taken exactly if the child's label comes next in the input, also when the
      test is backed up by one. */
  lemma TakenIff(s: Setting, full: Text, edge: Text, body: Code, input: Text)
    requires full <= input && edge != [] && |edge| <= 8 && |full| + |edge| <= |input|
    requires Units(edge, s.limit) && Units(input, s.limit)
    ensures var b := Branch(TestBase(full, edge), TestChars(full, edge), body);
            && HasMacro(b.chars) && b.base + |b.chars| <= |input|
            && (Taken(s, b, input) <==> edge <= input[|full|..])
  {
    var base, chars := TestBase(full, edge), TestChars(full, edge);
    assert Units(chars, s.limit) by {
      assert |full| > 0 ==> (full + edge)[|full| - 1] == input[|full| - 1];
    }
    assert Units(input[base..], s.limit);
    ComparisonIs(s.arch, s.limit, chars, input[base..]);
    if base < |full| {
      BackedUp(full, edge, input);
    }
  }

  lemma BackedUp(full: Text, edge: Text, input: Text)
    requires 0 < |full| <= |input| && full <= input
    ensures [(full + edge)[|full| - 1]] + edge <= input[|full| - 1..] <==> edge <= input[|full|..]
  {
    assert input[|full| - 1..] == [input[|full| - 1]] + input[|full|..];
    assert (full + edge)[|full| - 1] == input[|full| - 1];
  }

  /** Labels of the trie are made of units. */
  predicate UnitLabels(t: Trie, limit: nat)
    decreases t
  {
    forall i :: 0 <= i < |t.children| ==> Units(t.children[i].prefix, limit) && UnitLabels(t.children[i], limit)
  }

  predicate Runnable(s: Setting, t: Trie, full: Text, input: Text) {
    && WellFormed(t) && ShortLabels(t) && UnitLabels(t, s.limit)
    && full <= input && Longest(t, full) < |input| && Units(input, s.limit)
  }

  lemma BranchesAre(s: Setting, t: Trie, full: Text, input: Text)
    requires Runnable(s, t, full, input)
    ensures var bs := PrintSubTree(t, full).branches;
            && CanTest(bs, input)
            && forall i :: 0 <= i < |bs| ==> Answers(s, bs, input)[i] == (t.children[i].prefix <= input[|full|..])
  {
    var bs := PrintSubTree(t, full).branches;
    forall i | 0 <= i < |bs|
      ensures HasMacro(bs[i].chars) && bs[i].base + |bs[i].chars| <= |input|
      ensures Taken(s, bs[i], input) <==> t.children[i].prefix <= input[|full|..]
    {
      LongestChild(t, full, 0, i);
      TakenIff(s, full, t.children[i].prefix, bs[i].body, input);
    }
  }

  lemma SearchHere(s: Setting, t: Trie, full: Text, input: Text)
    requires |full| < |input|
    ensures Search(s, t, full, input, |full|)
            == if t.value.Some? && !IsIdentPart(s, input[|full|]) then Some(Match(t.value.value, |full|))
               else Search(s, t, full, input, |full| + 1)
  {
    assert input[|full|..|full|] == [];
    SearchStep(s, t, full, input, |full|, t.value);
  }

  lemma ExecHere(s: Setting, t: Trie, full: Text, input: Text)
    requires Runnable(s, t, full, input)
    ensures var code := PrintSubTree(t, full);
            && Compiles(code) && ReadsWithin(code, |input|)
            && var k := FirstTrue(Answers(s, code.branches, input));
               Exec(s, code, input)
               == if t.value.Some? && !IsIdentPart(s, input[|full|]) then Some(Match(t.value.value, |full|))
                  else if k < |t.children| then Exec(s, code.branches[k].body, input)
                  else None
  {
    CompilesIffShort(t, full);
    ReadsBelowMax(t, full, |input|);
  }

  /** Running the printed code is searching the table, from any node. */
  lemma {:induction false} ExecIsSearch(s: Setting, t: Trie, full: Text, input: Text)
    requires Runnable(s, t, full, input)
    ensures var code := PrintSubTree(t, full);
            && Compiles(code) && ReadsWithin(code, |input|)
            && Exec(s, code, input) == Search(s, t, full, input, |full|)
    decreases t
  {
    ExecHere(s, t, full, input);
    BranchesAre(s, t, full, input);
    SearchHere(s, t, full, input);
    var bs := PrintSubTree(t, full).branches;
    var k := FirstTrue(Answers(s, bs, input));
    if k < |t.children| {
      ChildRunnable(s, t, full, input, k);
      ExecIsSearch(s, t.children[k], full + t.children[k].prefix, input);
      SearchChild(s, t, full, input, k);
    } else {
      SearchNowhere(s, t, full, input, |full| + 1);
    }
  }

  lemma ChildRunnable(s: Setting, t: Trie, full: Text, input: Text, k: nat)
    requires Runnable(s, t, full, input) && k < |t.children| && t.children[k].prefix <= input[|full|..]
    ensures Runnable(s, t.children[k], full + t.children[k].prefix, input)
  {
    LongestChild(t, full, 0, k);
    JoinedPrefix(full, t.children[k].prefix, input);
  }

  lemma JoinedPrefix(full: Text, p: Text, input: Text)
    requires full <= input && p <= input[|full|..]
    ensures full + p <= input
  {
    assert input == full + input[|full|..];
  }

  // The whole generator.

  /** The trie the code is printed from: built, coalesced below the root, ordered. */
  function Prepared(keywords: seq<Keyword>, weights: Weights): Trie {
    FillOut(CoalesceChildren(Built(keywords)), [], weights).node
  }

  /** The plain search of a keyword table: the shortest keyword the input starts with that
      is followed by no identifier part. */
  function FirstKeyword(s: Setting, table: map<Text, Token>, input: Text, n: nat): Option<Match>
    decreases |input| - n
  {
    if n >= |input| then None
    else if input[..n] in table && !IsIdentPart(s, input[n]) then Some(Match(table[input[..n]], n))
    else FirstKeyword(s, table, input, n + 1)
  }

  lemma {:induction false} SearchIsFirst(s: Setting, t: Trie, table: map<Text, Token>, input: Text, n: nat)
    requires forall w :: Lookup(t, w) == Entry(table, w)
    ensures Search(s, t, [], input, n) == FirstKeyword(s, table, input, n)
    decreases |input| - n
  {
    if n < |input| {
      assert input[0..n] == input[..n];
      SearchIsFirst(s, t, table, input, n + 1);
    }
  }

  predicate UnitKeys(keywords: seq<Keyword>, limit: nat) {
    forall i :: 0 <= i < |keywords| ==> Units(keywords[i].key, limit)
  }

  lemma {:induction false} InsertUnits(t: Trie, key: Text, token: Token, limit: nat)
    requires UnitLabels(t, limit) && Units(key, limit)
    ensures UnitLabels(Insert(t, key, token), limit)
    decreases |key|
  {
    if key != [] {
      var i := KeyOf(t.children, key[0]);
      InsertUnits(if i < |t.children| then t.children[i] else Trie([key[0]], None, []), key[1..], token, limit);
    }
  }

  lemma {:induction false} BuiltUnits(keywords: seq<Keyword>, limit: nat)
    requires UnitKeys(keywords, limit)
    ensures UnitLabels(Built(keywords), limit)
    decreases |keywords|
  {
    if keywords != [] {
      var last := keywords[|keywords| - 1];
      BuiltUnits(keywords[..|keywords| - 1], limit);
      InsertUnits(Built(keywords[..|keywords| - 1]), last.key, last.token, limit);
    }
  }

  lemma {:induction false} CoalesceUnits(t: Trie, limit: nat)
    requires UnitLabels(t, limit) && Units(t.prefix, limit)
    ensures UnitLabels(CoalesceChildren(t), limit)
    ensures UnitLabels(Coalesce(t), limit) && Units(Coalesce(t).prefix, limit)
    decreases t
  {
    var r := CoalesceChildren(t);
    forall i | 0 <= i < |t.children|
      ensures UnitLabels(r.children[i], limit) && Units(r.children[i].prefix, limit)
    {
      CoalesceUnits(t.children[i], limit);
    }
  }

  lemma {:induction false} FillOutUnits(t: Trie, prefix: Text, weights: Weights, limit: nat)
    requires WellFormed(t) && UnitLabels(t, limit)
    ensures UnitLabels(FillOut(t, prefix, weights).node, limit)
    decreases t
  {
    var cs := FilledChildren(t, prefix + t.prefix, weights);
    var s := SortByWeight(cs);
    assert FillOut(t, prefix, weights).node.children == Nodes(s);
    forall i | 0 <= i < |cs| ensures Units(cs[i].node.prefix, limit) && UnitLabels(cs[i].node, limit) {
      FillOutShape(t.children[i], prefix + t.prefix, weights);
      FillOutUnits(t.children[i], prefix + t.prefix, weights, limit);
    }
    forall j | 0 <= j < |s| ensures Units(s[j].node.prefix, limit) && UnitLabels(s[j].node, limit) {
      assert s[j] in s;
    }
  }

  /** The prepared trie stands for the keyword table, whatever the weights. */
  lemma PreparedIsTable(keywords: seq<Keyword>, weights: Weights)
    ensures WellFormed(Prepared(keywords, weights))
    ensures forall w :: Lookup(Prepared(keywords, weights), w) == Entry(Table(keywords), w)
  {
    var t := Built(keywords);
    BuiltIsTable(keywords);
    CoalesceShape(t);
    FillOutShape(CoalesceChildren(t), [], weights);
    forall w ensures Lookup(Prepared(keywords, weights), w) == Entry(Table(keywords), w) {
      CoalesceKeepsTable(t, w);
      FillOutKeepsTable(CoalesceChildren(t), [], weights, w);
    }
  }

  lemma {:induction false} InTable(keywords: seq<Keyword>, w: Text)
    ensures w in Table(keywords) <==> exists i :: 0 <= i < |keywords| && keywords[i].key == w
    decreases |keywords|
  {
    if keywords != [] {
      var n := |keywords| - 1;
      InTable(keywords[..n], w);
      assert forall i :: 0 <= i < n ==> keywords[..n][i] == keywords[i];
    }
  }

  predicate IsKeyLength(keywords: seq<Keyword>, i: nat, n: nat) { i < |keywords| && |keywords[i].key| == n }

  /** The trie of any keywords has an end to each of its branches. */
  lemma PreparedIsNormal(keywords: seq<Keyword>, weights: Weights)
    ensures var t := Prepared(keywords, weights);
            WellFormed(t) && Normal(t) && (keywords != [] ==> t.value.Some? || t.children != [])
  {
    var t := Built(keywords);
    BuiltIsTable(keywords);
    CoalesceShape(t);
    FillOutShape(CoalesceChildren(t), [], weights);
    FillOutKeepsNormal(CoalesceChildren(t), [], weights);
    if keywords != [] {
      var last := keywords[|keywords| - 1];
      BuiltIsTable(keywords[..|keywords| - 1]);
      InsertKeeps(Built(keywords[..|keywords| - 1]), last.key, last.token);
    }
  }

  /** The length the printed maxTokenLength exceeds by one is that of the longest keyword. */
  lemma LongestIsLength(keywords: seq<Keyword>, weights: Weights)
    ensures var max := Longest(Prepared(keywords, weights), []);
            && (forall i :: 0 <= i < |keywords| ==> |keywords[i].key| <= max)
            && if keywords == [] then max == 0 else exists i :: 0 <= i < |keywords| && IsKeyLength(keywords, i, max)
  {
    var t := Prepared(keywords, weights);
    PreparedIsTable(keywords, weights);
    PreparedIsNormal(keywords, weights);
    forall i | 0 <= i < |keywords| ensures |keywords[i].key| <= Longest(t, []) {
      InTable(keywords, keywords[i].key);
      KeysFit(t, [], keywords[i].key);
    }
    if keywords != [] {
      var w := LongestAttained(t, []);
      InTable(keywords, w);
      var i :| 0 <= i < |keywords| && keywords[i].key == w;
      assert IsKeyLength(keywords, i, Longest(t, []));
    }
  }

  /** The generated code, on any processor and for either text width, returns what the
      plain search returns: for every keyword list whose code compiles, whatever weights
      order the children, and every input long enough to need no bounds checks. */
  lemma GeneratedCodeIsSearch(s: Setting, keywords: seq<Keyword>, weights: Weights, input: Text)
    requires UnitKeys(keywords, s.limit) && Units(input, s.limit)
    requires Compiles(PrintSubTree(Prepared(keywords, weights), []))
    requires |input| >= Longest(Prepared(keywords, weights), []) + 1
    ensures var code := PrintSubTree(Prepared(keywords, weights), []);
            && ReadsWithin(code, |input|)
            && Exec(s, code, input) == FirstKeyword(s, Table(keywords), input, 0)
  {
    var t := Prepared(keywords, weights);
    BuiltIsTable(keywords);
    BuiltUnits(keywords, s.limit);
    CoalesceUnits(Built(keywords), s.limit);
    CoalesceShape(Built(keywords));
    FillOutUnits(CoalesceChildren(Built(keywords)), [], weights, s.limit);
    PreparedIsTable(keywords, weights);
    CompilesIffShort(t, []);
    ExecIsSearch(s, t, [], input);
    SearchIsFirst(s, t, Table(keywords), input, 0);
  }

  // Keywords made of identifier parts.

  /** The input starts with this keyword as a whole word. */
  predicate IsWord(s: Setting, table: map<Text, Token>, input: Text, m: Match) {
    && m.length < |input| && input[..m.length] in table
    && table[input[..m.length]] == m.token && !IsIdentPart(s, input[m.length])
  }

  lemma {:induction false} FirstIsWord(s: Setting, table: map<Text, Token>, input: Text, m: Match, n: nat)
    requires forall k :: k in table ==> forall i :: 0 <= i < |k| ==> IsIdentPart(s, k[i])
    ensures FirstKeyword(s, table, input, n) == Some(m) <==> n <= m.length && IsWord(s, table, input, m)
    decreases |input| - n
  {
    if n < |input| {
      FirstIsWord(s, table, input, m, n + 1);
      if n < m.length && IsWord(s, table, input, m) {
        assert input[n] == input[..m.length][n];
      }
    }
  }

  lemma {:induction false} TableKeys(keywords: seq<Keyword>, k: Text)
    requires k in Table(keywords)
    ensures exists i :: 0 <= i < |keywords| && keywords[i].key == k
    decreases |keywords|
  {
    var last := |keywords| - 1;
    if keywords[last].key != k {
      TableKeys(keywords[..last], k);
    }
  }

  /** For keywords made of identifier parts, the code returns a keyword's token exactly
      when the input starts with that keyword and goes on with no identifier part. */
  lemma GeneratedCodeFindsWords(s: Setting, keywords: seq<Keyword>, weights: Weights, input: Text, m: Match)
    requires UnitKeys(keywords, s.limit) && Units(input, s.limit)
    requires Compiles(PrintSubTree(Prepared(keywords, weights), []))
    requires |input| >= Longest(Prepared(keywords, weights), []) + 1
    requires forall i, j :: 0 <= i < |keywords| && 0 <= j < |keywords[i].key| ==> IsIdentPart(s, keywords[i].key[j])
    ensures var code := PrintSubTree(Prepared(keywords, weights), []);
            && ReadsWithin(code, |input|)
            && (Exec(s, code, input) == Some(m) <==> IsWord(s, Table(keywords), input, m))
  {
    GeneratedCodeIsSearch(s, keywords, weights, input);
    forall k | k in Table(keywords) ensures forall i :: 0 <= i < |k| ==> IsIdentPart(s, k[i]) {
      TableKeys(keywords, k);
    }
    FirstIsWord(s, Table(keywords), input, m, 0);
  }
}
