/** The trie as the generator keeps it: node objects whose dictionaries and values are
    assigned in place. Each method is proved to do to the node's value what the function of
    the same name does. */
module KeywordNodes {
  import opened KeywordTrie

  class Node {
    var prefix: Text
    var value: Option<Token>
    var keys: seq<Node>
    ghost var repr: set<Node>

    /** The nodes form a tree. */
    ghost predicate Valid()
      reads this, repr
      decreases repr
    {
      && this in repr
      && (forall i :: 0 <= i < |keys| ==> keys[i] in repr && keys[i].repr <= repr && this !in keys[i].repr)
      && (forall i :: 0 <= i < |keys| ==> keys[i].Valid())
      && (forall i, j :: 0 <= i < j < |keys| ==> keys[i].repr !! keys[j].repr)
    }

    ghost function View(): (t: Trie)
      requires Valid()
      reads this, repr
      ensures |t.children| == |keys|
      decreases repr, |keys| + 1
    {
      Trie(prefix, value, Children(|keys|))
    }

    ghost function Children(n: nat): (cs: seq<Trie>)
      requires Valid() && n <= |keys|
      reads this, repr
      ensures |cs| == n
      decreases repr, n
    {
      if n == 0 then [] else Children(n - 1) + [keys[n - 1].View()]
    }

    lemma ChildAt(n: nat, i: nat)
      requires Valid() && i < n <= |keys|
      ensures Children(n)[i] == keys[i].View()
    {
      if i < n - 1 {
        ChildAt(n - 1, i);
      }
    }

    lemma ViewChild(i: nat)
      requires Valid() && i < |keys|
      ensures View().children[i] == keys[i].View()
    {
      ChildAt(|keys|, i);
    }

    /** The other children, when the one at i is being dealt with. */
    ghost predicate OthersHold(i: nat, cs: seq<Trie>)
      reads this, repr
    {
      && this in repr && i < |keys| == |cs|
      && (forall j :: 0 <= j < |keys| && j != i ==>
            keys[j] in repr && keys[j].repr <= repr && this !in keys[j].repr && keys[j].Valid() && keys[j].View() == cs[j])
      && (forall j, l :: 0 <= j < l < |keys| && j != i && l != i ==> keys[j].repr !! keys[l].repr)
    }

    lemma OthersDo(i: nat)
      requires Valid() && i < |keys|
      ensures OthersHold(i, View().children)
    {
      forall j | 0 <= j < |keys| ensures keys[j].View() == View().children[j] {
        ViewChild(j);
      }
    }

    /** Child i put in place again, changed or exchanged. */
    method PutChild(i: nat, child: Node, ghost cs: seq<Trie>)
      requires OthersHold(i, cs) && child.Valid() && this !in child.repr
      requires forall j :: 0 <= j < |keys| && j != i ==> keys[j].repr !! child.repr
      modifies this
      ensures Valid() && repr == old(repr) + old(child.repr) && |keys| == |old(keys)|
      ensures View() == Trie(old(prefix), old(value), cs[i := old(child.View())])
    {
      ghost var t := Trie(prefix, value, cs[i := child.View()]);
      keys := keys[i := child];
      repr := repr + child.repr;
      ViewIs(t);
    }

    /** A node whose parts are those of a trie has it for its value. */
    lemma ViewIs(t: Trie)
      requires Valid() && t.prefix == prefix && t.value == value && |t.children| == |keys|
      requires forall i :: 0 <= i < |keys| ==> keys[i].View() == t.children[i]
      ensures View() == t
    {
      forall i | 0 <= i < |keys| ensures View().children[i] == t.children[i] {
        ViewChild(i);
      }
    }

    constructor (prefix: Text)
      ensures Valid() && fresh(repr) && View() == Trie(prefix, None, [])
    {
      this.prefix := prefix;
      value := None;
      keys := [];
      repr := {this};
    }

    /** The dictionary test. */
    method Find(c: Char) returns (i: nat)
      requires Valid()
      ensures i <= |keys| && i == KeyOf(View().children, c)
    {
      i := 0;
      while i < |keys| && keys[i].prefix != [c]
        invariant i <= |keys| && forall j :: 0 <= j < i ==> keys[j].prefix != [c]
      {
        i := i + 1;
      }
      ghost var cs := View().children;
      forall j | 0 <= j < |keys| ensures cs[j].prefix == keys[j].prefix {
        ViewChild(j);
      }
      FirstKey(cs, c, i);
    }

    /** One more node in the dictionary. */
    method Adopt(child: Node)
      requires Valid() && child.Valid() && child.repr !! repr
      modifies this
      ensures Valid() && repr == old(repr) + child.repr && keys == old(keys) + [child]
      ensures View().prefix == old(View()).prefix && View().value == old(View()).value
      ensures View().children == old(View()).children + [old(child.View())]
    {
      ghost var before, added := View(), child.View();
      forall i | 0 <= i < |keys| ensures keys[i].View() == before.children[i] {
        ViewChild(i);
      }
      keys := keys + [child];
      repr := repr + child.repr;
      ViewIs(before.(children := before.children + [added]));
    }

    method AddChild(c: Char)
      requires Valid()
      modifies this
      ensures Valid() && fresh(repr - old(repr)) && |keys| == |old(keys)| + 1
      ensures View() == old(View()).(children := old(View()).children + [Trie([c], None, [])])
    {
      var child := new Node([c]);
      Adopt(child);
    }

    /** Insertion below one child leaves the others alone. */
    method InsertBelow(i: nat, key: Text, token: Token)
      requires Valid() && i < |keys|
      modifies repr
      ensures Valid() && fresh(repr - old(repr))
      ensures View() == old(View()).(children := old(View()).children[i := KeywordTrie.Insert(old(View()).children[i], key, token)])
      decreases |key|, 2
    {
      ghost var cs := View().children;
      OthersDo(i);
      ViewChild(i);
      keys[i].Insert(key, token);
      PutChild(i, keys[i], cs);
    }

    /** The child for a character, added if there is none. */
    method ChildIndex(c: Char) returns (i: nat)
      requires Valid()
      modifies this
      ensures Valid() && fresh(repr - old(repr)) && i < |keys| && i == KeyOf(old(View()).children, c)
      ensures View() == old(View()).(children := WithKey(old(View()).children, c))
    {
      i := Find(c);
      if i == |keys| {
        AddChild(c);
      }
    }

    method SetValue(token: Token)
      requires Valid()
      modifies this
      ensures Valid() && repr == old(repr) && View() == old(View()).(value := Some(token))
    {
      ghost var before := View();
      forall j | 0 <= j < |keys| ensures keys[j].View() == before.children[j] {
        ViewChild(j);
      }
      value := Some(token);
      ViewIs(before.(value := Some(token)));
    }

    method Insert(key: Text, token: Token)
      requires Valid()
      modifies repr
      ensures Valid() && fresh(repr - old(repr))
      ensures View() == KeywordTrie.Insert(old(View()), key, token)
      decreases |key|, 1
    {
      if key == [] {
        SetValue(token);
        return;
      }
      ghost var before := View();
      var i := ChildIndex(key[0]);
      InsertBelow(i, key[1..], token);
      InsertIs(before, key, token, i);
    }

    /** One child coalesced and put back under its new label. */
    method CoalesceKey(i: nat, ghost c: Trie)
      requires Valid() && i < |keys| && c == View().children[i]
      modifies repr
      ensures Valid() && fresh(repr - old(repr)) && |keys| == |old(keys)|
      ensures View() == old(View()).(children := old(View()).children[i := KeywordTrie.Coalesce(c)])
      decreases c, 3
    {
      ghost var cs := View().children;
      OthersDo(i);
      ViewChild(i);
      var t := keys[i].Coalesce(c);
      PutChild(i, t, cs);
    }

    /** The state after n rounds of the loop. */
    ghost predicate CoalescedTo(n: nat, t: Trie)
      reads this, repr
    {
      Valid() && n <= |keys| == |t.children| && View() == Partly(t, n)
    }

    /** One round of the loop. */
    method CoalesceNext(i: nat, ghost t: Trie)
      requires CoalescedTo(i, t) && i < |keys|
      modifies repr
      ensures CoalescedTo(i + 1, t) && fresh(repr - old(repr))
      decreases t, 0
    {
      PartlyAt(t, i);
      CoalesceKey(i, t.children[i]);
    }

    /** The loop of coalesce over the dictionary. (Entry by entry: the source fills a new
        dictionary, which is not looked at before it replaces the old one.) */
    method CoalesceKeys(ghost t: Trie)
      requires Valid() && t == View()
      modifies repr
      ensures Valid() && fresh(repr - old(repr))
      ensures View() == CoalesceChildren(t)
      decreases t, 1
    {
      AllStill(t);
      for i := 0 to |keys|
        invariant CoalescedTo(i, t) && fresh(repr - old(repr))
      {
        CoalesceNext(i, t);
      }
      AllDone(t);
    }

    /** The node to be used in this one's place: itself, or a new one that joins it with
        its single child and takes over the child's dictionary. */
    method Coalesce(ghost t: Trie) returns (res: Node)
      requires Valid() && t == View()
      modifies repr
      ensures Valid() && fresh(repr - old(repr)) && View() == CoalesceChildren(t)
      ensures res.Valid() && fresh(res.repr - old(repr)) && res.View() == KeywordTrie.Coalesce(t)
      decreases t, 2
    {
      CoalesceKeys(t);
      if value.Some? || |keys| != 1 {
        return this;
      }
      ViewChild(0);
      var suffix := keys[0];
      res := Joined(suffix);
    }

    method Joined(suffix: Node) returns (res: Node)
      requires suffix.Valid()
      ensures res.Valid() && res.repr == {res} + suffix.repr && fresh(res)
      ensures res.View() == suffix.View().(prefix := prefix + suffix.prefix)
    {
      ghost var before := suffix.View();
      forall j | 0 <= j < |suffix.keys| ensures suffix.keys[j].View() == before.children[j] {
        suffix.ViewChild(j);
      }
      res := new Node(prefix + suffix.prefix);
      res.value := suffix.value;
      res.keys := suffix.keys;
      res.repr := {res} + suffix.repr;
      res.ViewIs(before.(prefix := prefix + suffix.prefix));
    }
  }

  /** The main program: all keywords put in, then chains joined. What coalescing the root
      returns is dropped; the root itself is used further. */
  method BuildTrie(keywords: seq<Keyword>) returns (root: Node)
    ensures fresh(root) && root.Valid() && fresh(root.repr)
    ensures root.View() == CoalesceChildren(Built(keywords))
  {
    root := new Node([]);
    for i := 0 to |keywords|
      invariant root.Valid() && fresh(root.repr) && root.View() == Built(keywords[..i])
    {
      root.Insert(keywords[i].key, keywords[i].token);
      var next := keywords[..i + 1];
      assert next[..i] == keywords[..i];
    }
    assert keywords[..|keywords|] == keywords;
    var _ := root.Coalesce(root.View());
  }

  /** The first n children coalesced. */
  function Partly(t: Trie, n: nat): (r: Trie)
    requires n <= |t.children|
    ensures |r.children| == |t.children|
  {
    t.(children := CoalesceChildren(t).children[..n] + t.children[n..])
  }

  lemma AllStill(t: Trie)
    ensures Partly(t, 0) == t
  {
    assert CoalesceChildren(t).children[..0] + t.children == t.children;
  }

  lemma AllDone(t: Trie)
    ensures Partly(t, |t.children|) == CoalesceChildren(t)
  {
    var rs := CoalesceChildren(t).children;
    assert rs[..|rs|] + t.children[|rs|..] == rs;
  }

  lemma OneMore<T>(rs: seq<T>, cs: seq<T>, i: nat, r: T)
    requires |rs| == |cs| && i < |cs| && r == rs[i]
    ensures (rs[..i] + cs[i..])[i] == cs[i]
    ensures rs[..i + 1] + cs[i + 1..] == (rs[..i] + cs[i..])[i := r]
  {
  }

  lemma PartlyAt(t: Trie, i: nat)
    requires i < |t.children|
    ensures Partly(t, i).children[i] == t.children[i]
    ensures Partly(t, i + 1) == Partly(t, i).(children := Partly(t, i).children[i := KeywordTrie.Coalesce(t.children[i])])
  {
    OneMore(CoalesceChildren(t).children, t.children, i, KeywordTrie.Coalesce(t.children[i]));
  }

  function WithKey(cs: seq<Trie>, c: Char): (r: seq<Trie>)
    ensures |r| >= |cs| && KeyOf(cs, c) < |r|
  {
    if KeyOf(cs, c) < |cs| then cs else cs + [Trie([c], None, [])]
  }

  lemma InsertIs(t: Trie, key: Text, token: Token, i: nat)
    requires key != [] && i == KeyOf(t.children, key[0])
    ensures var cs := WithKey(t.children, key[0]);
            KeywordTrie.Insert(t, key, token) == t.(children := cs[i := KeywordTrie.Insert(cs[i], key[1..], token)])
  {
  }

  lemma FirstKey(cs: seq<Trie>, c: Char, i: nat)
    requires i <= |cs| && (forall j :: 0 <= j < i ==> cs[j].prefix != [c])
    requires i < |cs| ==> cs[i].prefix == [c]
    ensures KeyOf(cs, c) == i
  {
    var k := KeyOf(cs, c);
    assert k < |cs| ==> cs[k].prefix == [c];
  }
}
