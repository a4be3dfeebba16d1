/** The keyword trie of the lookup generator: insertion, coalescing of single-child chains,
    and what both mean for the table of keywords. A dictionary of children is a sequence in
    insertion order. */
module KeywordTrie {
  /** A code unit. */
  type Char = nat
  type Text = seq<Char>
  type Token = seq<nat>

  datatype Option<T> = None | Some(value: T)

  datatype Trie = Trie(prefix: Text, value: Option<Token>, children: seq<Trie>)

  datatype Keyword = Keyword(key: Text, token: Token)

  // The table a trie stands for.

  /** The first child whose label the text starts with, or the number of children. */
  function ChildFor(cs: seq<Trie>, w: Text): (i: nat)
    ensures i <= |cs|
    ensures i < |cs| ==> cs[i].prefix <= w
    ensures forall j :: 0 <= j < i ==> !(cs[j].prefix <= w)
    decreases |cs|
  {
    if cs == [] || cs[0].prefix <= w then 0 else 1 + ChildFor(cs[1..], w)
  }

  /** The token of a text below a node, the node's own label left out. */
  function Lookup(t: Trie, w: Text): Option<Token>
    decreases t
  {
    if w == [] then t.value
    else
      var i := ChildFor(t.children, w);
      if i < |t.children| then Lookup(t.children[i], w[|t.children[i].prefix|..]) else None
  }

  /** The same with the label read first. */
  function Reach(t: Trie, w: Text): Option<Token> {
    if t.prefix <= w then Lookup(t, w[|t.prefix|..]) else None
  }

  /** Labels of children are not empty and begin with different characters. */
  predicate Distinct(cs: seq<Trie>) {
    && (forall i :: 0 <= i < |cs| ==> cs[i].prefix != [])
    && (forall i, j :: 0 <= i < j < |cs| ==> cs[i].prefix[0] != cs[j].prefix[0])
  }

  predicate WellFormed(t: Trie)
    decreases t
  {
    Distinct(t.children) && forall i :: 0 <= i < |t.children| ==> WellFormed(t.children[i])
  }

  /** Before coalescing every label is one character. */
  predicate OneCharacter(t: Trie)
    decreases t
  {
    forall i :: 0 <= i < |t.children| ==> |t.children[i].prefix| == 1 && OneCharacter(t.children[i])
  }

  /** No branch ends without a value. */
  predicate EndsInValues(t: Trie)
    decreases t
  {
    forall i :: 0 <= i < |t.children| ==>
      (t.children[i].value.Some? || t.children[i].children != []) && EndsInValues(t.children[i])
  }

  /** Only one child can match: any that does is the one found. */
  lemma OnlyChild(cs: seq<Trie>, w: Text, i: nat)
    requires Distinct(cs) && i < |cs| && cs[i].prefix <= w
    ensures ChildFor(cs, w) == i
  {
    var k := ChildFor(cs, w);
    assert cs[k].prefix[0] == w[0] == cs[i].prefix[0];
  }

  lemma NoChild(cs: seq<Trie>, w: Text)
    requires forall i :: 0 <= i < |cs| ==> !(cs[i].prefix <= w)
    ensures ChildFor(cs, w) == |cs|
  {
  }

  /** So a table lookup goes through whichever child matches. */
  lemma LookupChild(t: Trie, w: Text, i: nat)
    requires Distinct(t.children) && i < |t.children| && t.children[i].prefix <= w
    ensures Lookup(t, w) == Reach(t.children[i], w)
  {
    OnlyChild(t.children, w, i);
  }

  // Insertion.

  /** The child under a character, or the number of children: the dictionary test. */
  function KeyOf(cs: seq<Trie>, c: Char): (i: nat)
    ensures i <= |cs|
    ensures i < |cs| ==> cs[i].prefix == [c]
    ensures forall j :: 0 <= j < i ==> cs[j].prefix != [c]
    decreases |cs|
  {
    if cs == [] || cs[0].prefix == [c] then 0 else 1 + KeyOf(cs[1..], c)
  }

  function Insert(t: Trie, key: Text, token: Token): (r: Trie)
    ensures r.prefix == t.prefix
    decreases |key|
  {
    if key == [] then t.(value := Some(token))
    else
      var i := KeyOf(t.children, key[0]);
      if i < |t.children| then t.(children := t.children[i := Insert(t.children[i], key[1..], token)])
      else t.(children := t.children + [Insert(Trie([key[0]], None, []), key[1..], token)])
  }

  predicate Growing(t: Trie) { WellFormed(t) && OneCharacter(t) && EndsInValues(t) }

  lemma {:induction false} InsertKeeps(t: Trie, key: Text, token: Token)
    requires Growing(t)
    ensures Growing(Insert(t, key, token))
    ensures key != [] ==> Insert(t, key, token).children != []
    ensures key == [] ==> Insert(t, key, token).value.Some?
    decreases |key|
  {
    if key != [] {
      var i := KeyOf(t.children, key[0]);
      if i < |t.children| {
        InsertKeeps(t.children[i], key[1..], token);
      } else {
        InsertKeeps(Trie([key[0]], None, []), key[1..], token);
      }
    }
  }

  /** Insertion changes the table at the key and nowhere else. */
  lemma {:induction false} InsertLookup(t: Trie, key: Text, token: Token, w: Text)
    requires Growing(t)
    ensures Lookup(Insert(t, key, token), w) == if w == key then Some(token) else Lookup(t, w)
    decreases |key|
  {
    if key != [] && w != [] {
      var r := Insert(t, key, token);
      var i := KeyOf(t.children, key[0]);
      InsertKeeps(t, key, token);
      if key[0] == w[0] {
        assert r.children[i].prefix == [w[0]] && r.children[i].prefix <= w;
        LookupChild(r, w, i);
        if i < |t.children| {
          LookupChild(t, w, i);
          InsertLookup(t.children[i], key[1..], token, w[1..]);
        } else {
          NoChild(t.children, w);
          InsertLookup(Trie([key[0]], None, []), key[1..], token, w[1..]);
          assert Lookup(Trie([key[0]], None, []), w[1..]) == None;
        }
      } else {
        OtherChild(t, r, w, i);
      }
    }
  }

  /** A text that begins differently sees none of it. */
  lemma OtherChild(t: Trie, r: Trie, w: Text, i: nat)
    requires WellFormed(t) && WellFormed(r) && w != []
    requires i < |r.children| && |t.children| <= |r.children| <= |t.children| + 1
    requires r.children[i].prefix[0] != w[0]
    requires forall j :: 0 <= j < |t.children| && j != i ==> r.children[j] == t.children[j]
    requires i < |t.children| ==> r.children[i].prefix == t.children[i].prefix
    requires |t.children| < |r.children| ==> i == |t.children|
    ensures Lookup(r, w) == Lookup(t, w)
  {
    var k := ChildFor(t.children, w);
    if k < |t.children| {
      assert t.children[k].prefix[0] == w[0];
      assert r.children[k] == t.children[k];
      LookupChild(r, w, k);
    } else {
      forall j | 0 <= j < |r.children| ensures !(r.children[j].prefix <= w) {
        if j != i {
          assert r.children[j] == t.children[j];
        }
      }
      NoChild(r.children, w);
    }
  }

  // Building.

  const EMPTY := Trie([], None, [])

  /** The keywords put in, one after the other. */
  function Built(keywords: seq<Keyword>): Trie
    decreases |keywords|
  {
    if keywords == [] then EMPTY
    else
      var last := keywords[|keywords| - 1];
      Insert(Built(keywords[..|keywords| - 1]), last.key, last.token)
  }

  /** The table of a keyword list: the last entry for a key counts. */
  function Table(keywords: seq<Keyword>): map<Text, Token>
    decreases |keywords|
  {
    if keywords == [] then map[]
    else
      var last := keywords[|keywords| - 1];
      Table(keywords[..|keywords| - 1])[last.key := last.token]
  }

  function Entry(table: map<Text, Token>, w: Text): Option<Token> { if w in table then Some(table[w]) else None }

  /** The trie built from a list stands for its table. */
  lemma {:induction false} BuiltIsTable(keywords: seq<Keyword>)
    ensures Growing(Built(keywords)) && Built(keywords).prefix == []
    ensures forall w :: Lookup(Built(keywords), w) == Entry(Table(keywords), w)
    decreases |keywords|
  {
    if keywords != [] {
      var last := keywords[|keywords| - 1];
      var t := Built(keywords[..|keywords| - 1]);
      BuiltIsTable(keywords[..|keywords| - 1]);
      InsertKeeps(t, last.key, last.token);
      forall w ensures Lookup(Built(keywords), w) == Entry(Table(keywords), w) {
        InsertLookup(t, last.key, last.token, w);
      }
    }
  }

  // Coalescing.

  /** A node with its children coalesced; a chain through a single child becomes one edge. */
  function Coalesce(t: Trie): Trie
    decreases t
  {
    var r := CoalesceChildren(t);
    if t.value.Some? || |r.children| != 1 then r
    else Trie(t.prefix + r.children[0].prefix, r.children[0].value, r.children[0].children)
  }

  /** What is left in the root: the node its own call returns is thrown away. */
  function CoalesceChildren(t: Trie): (r: Trie)
    ensures r.prefix == t.prefix && r.value == t.value && |r.children| == |t.children|
    decreases t, 0
  {
    t.(children := seq(|t.children|, i requires 0 <= i < |t.children| => Coalesce(t.children[i])))
  }

  predicate NormalNode(t: Trie) { t.value.Some? || |t.children| >= 2 }

  /** Every node below has a value or at least two children. */
  predicate Normal(t: Trie)
    decreases t
  {
    forall i :: 0 <= i < |t.children| ==> NormalNode(t.children[i]) && Normal(t.children[i])
  }

  lemma DistinctStays(cs: seq<Trie>, ds: seq<Trie>)
    requires Distinct(cs) && |ds| == |cs| && forall i :: 0 <= i < |cs| ==> cs[i].prefix <= ds[i].prefix
    ensures Distinct(ds)
  {
    forall i | 0 <= i < |cs| ensures ds[i].prefix != [] && ds[i].prefix[0] == cs[i].prefix[0] {
      assert cs[i].prefix <= ds[i].prefix;
    }
  }

  /** Coalescing lengthens labels at their end only, so siblings still begin differently;
      it reaches the normal form below the node, and at the node too unless that is a
      root without keywords. */
  lemma {:induction false} CoalesceShape(t: Trie)
    requires WellFormed(t) && EndsInValues(t)
    ensures WellFormed(Coalesce(t)) && Normal(Coalesce(t)) && t.prefix <= Coalesce(t).prefix
    ensures WellFormed(CoalesceChildren(t)) && Normal(CoalesceChildren(t))
    ensures t.value.Some? || t.children != [] ==> NormalNode(Coalesce(t))
    decreases t
  {
    var r := CoalesceChildren(t);
    forall i | 0 <= i < |t.children|
      ensures WellFormed(r.children[i]) && Normal(r.children[i]) && NormalNode(r.children[i])
      ensures t.children[i].prefix <= r.children[i].prefix
    {
      CoalesceShape(t.children[i]);
    }
    DistinctStays(t.children, r.children);
  }

  lemma Shorter(p: Text, q: Text, w: Text)
    requires p <= q
    ensures q <= w ==> p <= w
  {
  }

  /** A text reaches through coalesced children what it reached through the children. */
  lemma ReachThrough(t: Trie, r: Trie, w: Text)
    requires WellFormed(t) && WellFormed(r) && r.value == t.value && |r.children| == |t.children|
    requires forall i :: 0 <= i < |t.children| ==> t.children[i].prefix <= r.children[i].prefix
    requires forall i :: 0 <= i < |t.children| ==> Reach(r.children[i], w) == Reach(t.children[i], w)
    ensures Lookup(r, w) == Lookup(t, w)
  {
    if w != [] {
      var k := ChildFor(t.children, w);
      if k < |t.children| {
        LookupChild(t, w, k);
        assert Reach(r.children[k], w) == Reach(t.children[k], w);
        if r.children[k].prefix <= w {
          LookupChild(r, w, k);
        } else {
          OthersDiffer(t, r, w, k);
        }
      } else {
        forall i | 0 <= i < |r.children| ensures !(r.children[i].prefix <= w) {
          Shorter(t.children[i].prefix, r.children[i].prefix, w);
        }
        NoChild(r.children, w);
      }
    }
  }

  lemma OthersDiffer(t: Trie, r: Trie, w: Text, k: nat)
    requires WellFormed(t) && WellFormed(r) && |r.children| == |t.children| && k < |t.children|
    requires forall i :: 0 <= i < |t.children| ==> t.children[i].prefix <= r.children[i].prefix
    requires t.children[k].prefix <= w && !(r.children[k].prefix <= w)
    ensures w != [] ==> Lookup(r, w) == None
  {
    if w != [] {
      forall i | 0 <= i < |r.children| ensures !(r.children[i].prefix <= w) {
        assert w[0] == t.children[k].prefix[0] == r.children[k].prefix[0];
        assert i != k ==> r.children[i].prefix[0] != r.children[k].prefix[0];
      }
      NoChild(r.children, w);
    }
  }

  /** Reading two labels in turn is reading the joined one. */
  lemma ReachJoined(p: Text, q: Text, t: Trie, w: Text)
    requires t.prefix == q
    ensures p + q <= w <==> p <= w && q <= w[|p|..]
    ensures p + q <= w ==> w[|p + q|..] == w[|p|..][|q|..]
  {
    if p <= w && q <= w[|p|..] {
      assert w == p + (q + w[|p|..][|q|..]);
    }
  }

  /** coalesce keeps the table, for every text: through the node it returns, and through
      the node itself, which is all that is used of the root. */
  lemma {:induction false} CoalesceKeepsTable(t: Trie, w: Text)
    requires WellFormed(t) && EndsInValues(t)
    ensures Lookup(CoalesceChildren(t), w) == Lookup(t, w)
    decreases t, 0
  {
    var r := CoalesceChildren(t);
    CoalesceShape(t);
    forall i | 0 <= i < |t.children|
      ensures t.children[i].prefix <= r.children[i].prefix && Reach(r.children[i], w) == Reach(t.children[i], w)
    {
      CoalesceShape(t.children[i]);
      CoalesceKeepsReach(t.children[i], w);
    }
    ReachThrough(t, r, w);
  }

  lemma {:induction false} CoalesceKeepsReach(t: Trie, w: Text)
    requires WellFormed(t) && EndsInValues(t)
    ensures Reach(Coalesce(t), w) == Reach(t, w)
    decreases t, 1
  {
    var r := CoalesceChildren(t);
    CoalesceShape(t);
    if t.prefix <= w {
      CoalesceKeepsTable(t, w[|t.prefix|..]);
    }
    if !t.value.Some? && |r.children| == 1 {
      var c := r.children[0];
      ReachJoined(t.prefix, c.prefix, c, w);
      if t.prefix <= w {
        SingleChild(r, w[|t.prefix|..]);
      }
    }
  }

  /** A node without value and with one child passes every text on to the child. */
  lemma SingleChild(r: Trie, w: Text)
    requires WellFormed(r) && r.value == None && |r.children| == 1
    ensures Lookup(r, w) == Reach(r.children[0], w)
  {
    if w != [] {
      if r.children[0].prefix <= w {
        LookupChild(r, w, 0);
      } else {
        NoChild(r.children, w);
      }
    }
  }
}
