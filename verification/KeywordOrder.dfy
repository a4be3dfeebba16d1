/** The order in which the generated code tries the children of a node: by weight, heaviest
    first. The order has no effect on the table. */
module KeywordOrder {
  import opened KeywordTrie

  type Weights = map<Text, real>

  datatype Weighed = Weighed(node: Trie, weight: real)

  /** A stable sort: an element goes before the first that is not heavier. */
  function InsertByWeight(x: Weighed, s: seq<Weighed>): (r: seq<Weighed>)
    ensures |r| == |s| + 1 && forall y :: y in r <==> y == x || y in s
    decreases |s|
  {
    if s == [] || s[0].weight <= x.weight then [x] + s else [s[0]] + InsertByWeight(x, s[1..])
  }

  function SortByWeight(s: seq<Weighed>): (r: seq<Weighed>)
    ensures |r| == |s| && forall y :: y in r <==> y in s
    decreases |s|
  {
    if s == [] then [] else InsertByWeight(s[0], SortByWeight(s[1..]))
  }

  predicate Descending(s: seq<Weighed>) { forall i, j :: 0 <= i < j < |s| ==> s[i].weight >= s[j].weight }

  lemma {:induction false} InsertIsSorted(x: Weighed, s: seq<Weighed>)
    requires Descending(s)
    ensures Descending(InsertByWeight(x, s))
    decreases |s|
  {
    if s != [] && s[0].weight > x.weight {
      InsertIsSorted(x, s[1..]);
      HeaviestFirst(s[0], InsertByWeight(x, s[1..]));
    } else {
      LighterFollow(x, s);
    }
  }

  lemma LighterFollow(x: Weighed, s: seq<Weighed>)
    requires Descending(s) && (s == [] || s[0].weight <= x.weight)
    ensures Descending([x] + s)
  {
    forall i | 0 <= i < |s| ensures s[i].weight <= x.weight {
      assert i > 0 ==> s[0].weight >= s[i].weight;
    }
    HeaviestFirst(x, s);
  }

  lemma HeaviestFirst(x: Weighed, s: seq<Weighed>)
    requires Descending(s) && forall y :: y in s ==> y.weight <= x.weight
    ensures Descending([x] + s)
  {
    forall i, j | 0 <= i < j < |s| + 1 ensures ([x] + s)[i].weight >= ([x] + s)[j].weight {
      assert s[j - 1] in s;
    }
  }

  lemma {:induction false} InsertIsPermutation(x: Weighed, s: seq<Weighed>)
    ensures multiset(InsertByWeight(x, s)) == multiset([x] + s)
    decreases |s|
  {
    if s != [] && s[0].weight > x.weight {
      InsertIsPermutation(x, s[1..]);
      assert s == [s[0]] + s[1..];
    }
  }

  /** The children are tried heaviest first, all of them, each once. */
  lemma {:induction false} SortIsSorted(s: seq<Weighed>)
    ensures Descending(SortByWeight(s)) && multiset(SortByWeight(s)) == multiset(s)
    decreases |s|
  {
    if s != [] {
      SortIsSorted(s[1..]);
      InsertIsSorted(s[0], SortByWeight(s[1..]));
      InsertIsPermutation(s[0], SortByWeight(s[1..]));
      assert s == [s[0]] + s[1..];
    }
  }

  /** Those of one weight, in their order. */
  function OfWeight(s: seq<Weighed>, weight: real): seq<Weighed>
    decreases |s|
  {
    if s == [] then []
    else (if s[0].weight == weight then [s[0]] else []) + OfWeight(s[1..], weight)
  }

  lemma {:induction false} InsertIsStable(x: Weighed, s: seq<Weighed>, weight: real)
    ensures OfWeight(InsertByWeight(x, s), weight) == OfWeight([x] + s, weight)
    decreases |s|
  {
    assert ([x] + s)[1..] == s;
    if s != [] && s[0].weight > x.weight {
      InsertIsStable(x, s[1..], weight);
      assert ([x] + s[1..])[1..] == s[1..];
      assert ([s[0]] + InsertByWeight(x, s[1..]))[1..] == InsertByWeight(x, s[1..]);
    }
  }

  /** Children of equal weight stay in the order they had. */
  lemma {:induction false} SortIsStable(s: seq<Weighed>, weight: real)
    ensures OfWeight(SortByWeight(s), weight) == OfWeight(s, weight)
    decreases |s|
  {
    if s != [] {
      InsertIsStable(s[0], SortByWeight(s[1..]), weight);
      SortIsStable(s[1..], weight);
      assert ([s[0]] + SortByWeight(s[1..]))[1..] == SortByWeight(s[1..]);
    }
  }

  function Nodes(s: seq<Weighed>): (r: seq<Trie>)
    ensures |r| == |s| && forall i :: 0 <= i < |s| ==> r[i] == s[i].node
  {
    seq(|s|, i requires 0 <= i < |s| => s[i].node)
  }

  function Sum(s: seq<Weighed>): real
    decreases |s|
  {
    if s == [] then 0.0 else s[0].weight + Sum(s[1..])
  }

  /** fillOut: weights from the leaves up, children sorted by them. */
  function FillOut(t: Trie, prefix: Text, weights: Weights): Weighed
    decreases t
  {
    var full := prefix + t.prefix;
    var own := if full in weights then weights[full] else 0.0;
    var cs := seq(|t.children|, i requires 0 <= i < |t.children| => FillOut(t.children[i], full, weights));
    Weighed(t.(children := Nodes(SortByWeight(cs))), own + Sum(cs))
  }

  // Sorting keeps siblings distinct.

  predicate Apart(x: Trie, cs: seq<Trie>) {
    x.prefix != [] && forall i :: 0 <= i < |cs| ==> cs[i].prefix != [] && cs[i].prefix[0] != x.prefix[0]
  }

  lemma {:induction false} InsertKeepsDistinct(x: Weighed, s: seq<Weighed>)
    requires Distinct(Nodes(s)) && Apart(x.node, Nodes(s))
    ensures Distinct(Nodes(InsertByWeight(x, s)))
    decreases |s|
  {
    if s != [] && s[0].weight > x.weight {
      assert forall i :: 0 <= i < |s[1..]| ==> Nodes(s[1..])[i] == Nodes(s)[i + 1];
      InsertKeepsDistinct(x, s[1..]);
      var r := InsertByWeight(x, s[1..]);
      forall i | 0 <= i < |r| ensures Nodes(r)[i].prefix[0] != s[0].node.prefix[0] {
        assert r[i] in r;
        if r[i] != x {
          var j :| 0 <= j < |s[1..]| && s[1..][j] == r[i];
          assert Nodes(s)[0].prefix[0] != Nodes(s)[j + 1].prefix[0];
        }
      }
    }
  }

  lemma {:induction false} SortKeepsDistinct(s: seq<Weighed>)
    requires Distinct(Nodes(s))
    ensures Distinct(Nodes(SortByWeight(s)))
    decreases |s|
  {
    if s != [] {
      assert forall i :: 0 <= i < |s[1..]| ==> Nodes(s[1..])[i] == Nodes(s)[i + 1];
      SortKeepsDistinct(s[1..]);
      var r := SortByWeight(s[1..]);
      forall i | 0 <= i < |r| ensures Nodes(r)[i].prefix != [] && Nodes(r)[i].prefix[0] != s[0].node.prefix[0] {
        assert r[i] in r;
        var j :| 0 <= j < |s[1..]| && s[1..][j] == r[i];
        assert Nodes(s)[0].prefix[0] != Nodes(s)[j + 1].prefix[0];
      }
      InsertKeepsDistinct(s[0], r);
    }
  }

  // The table does not depend on the order.

  /** The same children as far as lookups go, in any order. */
  ghost predicate Reordered(t: Trie, r: Trie, w: Text) {
    && r.value == t.value
    && (forall i :: 0 <= i < |t.children| ==> HasCopy(t, i, r, w))
    && (forall j :: 0 <= j < |r.children| ==> IsCopy(t, r, j, w))
  }

  ghost predicate HasCopy(t: Trie, i: nat, r: Trie, w: Text) { exists j :: SameChild(t, i, r, j, w) }
  ghost predicate IsCopy(t: Trie, r: Trie, j: nat, w: Text) { exists i :: SameChild(t, i, r, j, w) }

  predicate SameChild(t: Trie, i: int, r: Trie, j: int, w: Text) {
    && 0 <= i < |t.children| && 0 <= j < |r.children|
    && r.children[j].prefix == t.children[i].prefix && Reach(r.children[j], w) == Reach(t.children[i], w)
  }

  /** Whatever the order of the children, the node stands for the same table. */
  lemma AnyOrder(t: Trie, r: Trie, w: Text)
    requires Distinct(t.children) && Distinct(r.children) && Reordered(t, r, w)
    ensures Lookup(r, w) == Lookup(t, w)
  {
    if w != [] {
      var k := ChildFor(t.children, w);
      if k < |t.children| {
        assert HasCopy(t, k, r, w);
        var j :| SameChild(t, k, r, j, w);
        LookupChild(t, w, k);
        LookupChild(r, w, j);
      } else {
        forall j | 0 <= j < |r.children| ensures !(r.children[j].prefix <= w) {
          assert IsCopy(t, r, j, w);
          var i :| SameChild(t, i, r, j, w);
        }
        NoChild(r.children, w);
      }
    }
  }

  function FilledChildren(t: Trie, full: Text, weights: Weights): (cs: seq<Weighed>)
    ensures |cs| == |t.children|
    ensures forall i :: 0 <= i < |cs| ==> cs[i] == FillOut(t.children[i], full, weights)
  {
    seq(|t.children|, i requires 0 <= i < |t.children| => FillOut(t.children[i], full, weights))
  }

  /** fillOut keeps the shape of the trie and its table, whatever the weights. */
  lemma {:induction false} FillOutShape(t: Trie, prefix: Text, weights: Weights)
    requires WellFormed(t)
    ensures var r := FillOut(t, prefix, weights).node;
            WellFormed(r) && r.prefix == t.prefix && r.value == t.value && |r.children| == |t.children|
    decreases t
  {
    var full := prefix + t.prefix;
    var cs := FilledChildren(t, full, weights);
    assert FillOut(t, prefix, weights).node.children == Nodes(SortByWeight(cs));
    forall i | 0 <= i < |cs| ensures WellFormed(cs[i].node) && cs[i].node.prefix == t.children[i].prefix {
      FillOutShape(t.children[i], full, weights);
    }
    SortKeepsDistinct(cs);
    var s := SortByWeight(cs);
    forall j | 0 <= j < |s| ensures WellFormed(s[j].node) {
      assert s[j] in s;
    }
  }

  /** And its normal form. */
  lemma {:induction false} FillOutKeepsNormal(t: Trie, prefix: Text, weights: Weights)
    requires Normal(t)
    ensures Normal(FillOut(t, prefix, weights).node)
    ensures NormalNode(t) ==> NormalNode(FillOut(t, prefix, weights).node)
    decreases t
  {
    var full := prefix + t.prefix;
    var cs := FilledChildren(t, full, weights);
    assert FillOut(t, prefix, weights).node == t.(children := Nodes(SortByWeight(cs)));
    forall i | 0 <= i < |cs| ensures NormalNode(cs[i].node) && Normal(cs[i].node) {
      FillOutKeepsNormal(t.children[i], full, weights);
    }
    var s := SortByWeight(cs);
    forall j | 0 <= j < |s| ensures NormalNode(s[j].node) && Normal(s[j].node) {
      assert s[j] in cs;
    }
  }

  lemma {:induction false} FillOutKeepsTable(t: Trie, prefix: Text, weights: Weights, w: Text)
    requires WellFormed(t)
    ensures Lookup(FillOut(t, prefix, weights).node, w) == Lookup(t, w)
    decreases t
  {
    var full := prefix + t.prefix;
    var r := FillOut(t, prefix, weights).node;
    var cs := FilledChildren(t, full, weights);
    var s := SortByWeight(cs);
    assert r.children == Nodes(s);
    FillOutShape(t, prefix, weights);
    forall i | 0 <= i < |t.children|
      ensures cs[i].node.prefix == t.children[i].prefix && Reach(cs[i].node, w) == Reach(t.children[i], w)
    {
      FillOutShape(t.children[i], full, weights);
      if t.children[i].prefix <= w {
        FillOutKeepsTable(t.children[i], full, weights, w[|t.children[i].prefix|..]);
      }
    }
    forall i | 0 <= i < |t.children| ensures HasCopy(t, i, r, w) {
      assert cs[i] in s;
      var j :| 0 <= j < |s| && s[j] == cs[i];
      assert SameChild(t, i, r, j, w);
    }
    forall j | 0 <= j < |r.children| ensures IsCopy(t, r, j, w) {
      assert s[j] in cs;
      var i :| 0 <= i < |cs| && cs[i] == s[j];
      assert SameChild(t, i, r, j, w);
    }
    AnyOrder(t, r, w);
  }

  // The weights, and the order of the whole trie.

  /** The full prefixes of a node and of all nodes below it. */
  function Paths(t: Trie, prefix: Text): seq<Text>
    decreases t, |t.children| + 2
  {
    [prefix + t.prefix] + PathsBelow(t, prefix + t.prefix, 0)
  }

  /** Those below the children of a node from the i-th on. */
  function PathsBelow(t: Trie, full: Text, i: nat): seq<Text>
    requires i <= |t.children|
    decreases t, |t.children| - i + 1
  {
    if i == |t.children| then [] else Paths(t.children[i], full) + PathsBelow(t, full, i + 1)
  }

  function WeightOf(paths: seq<Text>, weights: Weights): real
    decreases |paths|
  {
    if paths == [] then 0.0
    else (if paths[0] in weights then weights[paths[0]] else 0.0) + WeightOf(paths[1..], weights)
  }

  lemma {:induction false} WeightsAdd(p: seq<Text>, q: seq<Text>, weights: Weights)
    ensures WeightOf(p + q, weights) == WeightOf(p, weights) + WeightOf(q, weights)
    decreases |p|
  {
    if p == [] {
      assert p + q == q;
    } else {
      assert (p + q)[1..] == p[1..] + q;
      WeightsAdd(p[1..], q, weights);
    }
  }

  /** A node with these children in this order, each weighing what is given with it. */
  predicate Carries(t: Trie, full: Text, s: seq<Weighed>, weights: Weights) {
    && |t.children| == |s|
    && forall i :: 0 <= i < |s| ==> WeightOf(Paths(t.children[i], full), weights) == s[i].weight
  }

  lemma {:induction false} CarriedSum(t: Trie, full: Text, s: seq<Weighed>, weights: Weights, i: nat)
    requires Carries(t, full, s, weights) && i <= |s|
    ensures WeightOf(PathsBelow(t, full, i), weights) == Sum(s[i..])
    decreases |s| - i
  {
    if i < |s| {
      WeightsAdd(Paths(t.children[i], full), PathsBelow(t, full, i + 1), weights);
      CarriedSum(t, full, s, weights, i + 1);
      assert s[i..][1..] == s[i + 1..];
    }
  }

  /** So it weighs its own and theirs. */
  lemma CarriedWeight(t: Trie, prefix: Text, s: seq<Weighed>, weights: Weights)
    requires Carries(t, prefix + t.prefix, s, weights)
    ensures var full := prefix + t.prefix;
            WeightOf(Paths(t, prefix), weights) == (if full in weights then weights[full] else 0.0) + Sum(s)
  {
    var full := prefix + t.prefix;
    CarriedSum(t, full, s, weights, 0);
    assert s[0..] == s;
    assert Paths(t, prefix)[1..] == PathsBelow(t, full, 0);
  }

  lemma {:induction false} SumOfInsert(x: Weighed, s: seq<Weighed>)
    ensures Sum(InsertByWeight(x, s)) == x.weight + Sum(s)
    decreases |s|
  {
    if s != [] && s[0].weight > x.weight {
      SumOfInsert(x, s[1..]);
      assert ([s[0]] + InsertByWeight(x, s[1..]))[1..] == InsertByWeight(x, s[1..]);
    } else {
      assert ([x] + s)[1..] == s;
    }
  }

  lemma {:induction false} SumOfSort(s: seq<Weighed>)
    ensures Sum(SortByWeight(s)) == Sum(s)
    decreases |s|
  {
    if s != [] {
      SumOfInsert(s[0], SortByWeight(s[1..]));
      SumOfSort(s[1..]);
    }
  }

  /** At this node and at all below it the children stand by falling weight, the weight of a
      child being that of all paths from it. */
  predicate Ordered(t: Trie, prefix: Text, weights: Weights)
    decreases t
  {
    var full := prefix + t.prefix;
    && (forall i, j :: 0 <= i < j < |t.children| ==>
          WeightOf(Paths(t.children[i], full), weights) >= WeightOf(Paths(t.children[j], full), weights))
    && (forall i :: 0 <= i < |t.children| ==> Ordered(t.children[i], full, weights))
  }

  /** What fillOut gives for a node: its weight, before and after the children are sorted,
      and an ordered trie. */
  predicate FilledOut(t: Trie, prefix: Text, weights: Weights, r: Weighed) {
    && r.weight == WeightOf(Paths(t, prefix), weights) == WeightOf(Paths(r.node, prefix), weights)
    && r.node.prefix == t.prefix && Ordered(r.node, prefix, weights)
  }

  lemma SortedCarries(t: Trie, full: Text, cs: seq<Weighed>, r: Trie, weights: Weights)
    requires |cs| == |t.children| && forall i :: 0 <= i < |cs| ==> FilledOut(t.children[i], full, weights, cs[i])
    requires r.children == Nodes(SortByWeight(cs))
    ensures Carries(t, full, cs, weights) && Carries(r, full, SortByWeight(cs), weights)
    ensures forall j :: 0 <= j < |r.children| ==> Ordered(r.children[j], full, weights)
  {
    var s := SortByWeight(cs);
    forall j | 0 <= j < |s|
      ensures WeightOf(Paths(s[j].node, full), weights) == s[j].weight && Ordered(s[j].node, full, weights)
    {
      assert s[j] in cs;
    }
  }

  lemma {:induction false} FillOutOrders(t: Trie, prefix: Text, weights: Weights)
    ensures FilledOut(t, prefix, weights, FillOut(t, prefix, weights))
    decreases t
  {
    var full, r := prefix + t.prefix, FillOut(t, prefix, weights);
    var cs := FilledChildren(t, full, weights);
    assert r.node == t.(children := Nodes(SortByWeight(cs)));
    forall i | 0 <= i < |cs| ensures FilledOut(t.children[i], full, weights, cs[i]) {
      FillOutOrders(t.children[i], full, weights);
    }
    SortedCarries(t, full, cs, r.node, weights);
    CarriedWeight(t, prefix, cs, weights);
    CarriedWeight(r.node, prefix, SortByWeight(cs), weights);
    SumOfSort(cs);
    SortIsSorted(cs);
  }
}
