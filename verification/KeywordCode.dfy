/** The printed lookup code as a syntax tree, its comparison macros on the three kinds of
    little-endian or alignment-bound processor, and what running it does. */
module KeywordCode {
  import opened KeywordTrie

  /** How COMPARE_2 and COMPARE_4 are defined: unit by unit, with 64-bit loads to hand, or
      with pair loads only. */
  datatype Arch = NeedsAlignedAccess | X86_64 | OtherLittleEndian

  /** All characters are code units below the limit: 2^8 for LChar text, 2^16 for UChar. */
  predicate Units(w: Text, limit: nat) { forall i :: 0 <= i < |w| ==> w[i] < limit }

  // Comparison macros.

  /** One load compared with one constant, at an offset from the address. */
  datatype Test =
    | One(at: nat, c: Char)
    | Pair(at: nat, packed: nat)
    | Quad(at: nat, packed: nat)

  function Pack2(limit: nat, a: Char, b: Char): nat { b * limit + a }

  function Pack4(limit: nat, a: Char, b: Char, c: Char, d: Char): nat {
    Pack2(limit, c, d) * (limit * limit) + Pack2(limit, a, b)
  }

  function Compare2(arch: Arch, limit: nat, at: nat, a: Char, b: Char): seq<Test> {
    if arch == NeedsAlignedAccess then [One(at, a), One(at + 1, b)] else [Pair(at, Pack2(limit, a, b))]
  }

  function Compare4(arch: Arch, limit: nat, at: nat, a: Char, b: Char, c: Char, d: Char): seq<Test> {
    if arch == X86_64 then [Quad(at, Pack4(limit, a, b, c, d))]
    else Compare2(arch, limit, at, a, b) + Compare2(arch, limit, at + 2, c, d)
  }

  /** There are macros for two to eight characters; a single one is compared directly. */
  predicate HasMacro(chars: Text) { 1 <= |chars| <= 8 }

  /** Seven characters are compared as two overlapping fours. */
  function Comparison(arch: Arch, limit: nat, k: Text): seq<Test>
    requires HasMacro(k)
  {
    match |k|
    case 1 => [One(0, k[0])]
    case 2 => Compare2(arch, limit, 0, k[0], k[1])
    case 3 => Compare2(arch, limit, 0, k[0], k[1]) + [One(2, k[2])]
    case 4 => Compare4(arch, limit, 0, k[0], k[1], k[2], k[3])
    case 5 => Compare4(arch, limit, 0, k[0], k[1], k[2], k[3]) + [One(4, k[4])]
    case 6 => Compare4(arch, limit, 0, k[0], k[1], k[2], k[3]) + Compare2(arch, limit, 4, k[4], k[5])
    case 7 => Compare4(arch, limit, 0, k[0], k[1], k[2], k[3]) + Compare4(arch, limit, 3, k[3], k[4], k[5], k[6])
    case _ => Compare4(arch, limit, 0, k[0], k[1], k[2], k[3]) + Compare4(arch, limit, 4, k[4], k[5], k[6], k[7])
  }

  function Width(t: Test): nat { match t case One(_, _) => 1 case Pair(_, _) => 2 case Quad(_, _) => 4 }

  predicate CanLoad(t: Test, text: Text) { t.at + Width(t) <= |text| }

  /** What a load reads from these units on a little-endian processor: the first one is the
      lowest digit. */
  function LittleEndian(limit: nat, units: Text): nat
    decreases |units|
  {
    if units == [] then 0 else units[0] + limit * LittleEndian(limit, units[1..])
  }

  /** A load compared with the packed constant. */
  predicate Holds(limit: nat, t: Test, text: Text)
    requires CanLoad(t, text)
  {
    match t
    case One(at, c) => text[at] == c
    case Pair(at, packed) => LittleEndian(limit, text[at..at + 2]) == packed
    case Quad(at, packed) => LittleEndian(limit, text[at..at + 4]) == packed
  }

  predicate AllHold(limit: nat, tests: seq<Test>, text: Text) {
    forall i :: 0 <= i < |tests| ==> CanLoad(tests[i], text) && Holds(limit, tests[i], text)
  }

  lemma LoadOfTwo(limit: nat, u: Text)
    requires |u| == 2
    ensures LittleEndian(limit, u) == Pack2(limit, u[0], u[1])
  {
    assert u[1..] == [u[1]] && u[1..][1..] == [];
    assert LittleEndian(limit, u[1..]) == u[1];
    assert limit * u[1] == u[1] * limit;
  }

  lemma Nested(limit: nat, a: nat, b: nat, x: nat)
    ensures a + limit * (b + limit * x) == x * (limit * limit) + (b * limit + a)
  {
    assert limit * (b + limit * x) == limit * b + limit * (limit * x);
    assert limit * (limit * x) == limit * limit * x;
  }

  lemma LoadOfFour(limit: nat, u: Text)
    requires |u| == 4
    ensures LittleEndian(limit, u) == Pack4(limit, u[0], u[1], u[2], u[3])
  {
    var rest := u[2..];
    assert u[1..][1..] == rest;
    assert LittleEndian(limit, u) == u[0] + limit * (u[1] + limit * LittleEndian(limit, rest));
    LoadOfTwo(limit, rest);
    Nested(limit, u[0], u[1], LittleEndian(limit, rest));
  }

  lemma Pack2Injective(limit: nat, a: Char, b: Char, c: Char, d: Char)
    requires a < limit && b < limit && c < limit && d < limit
    ensures Pack2(limit, a, b) == Pack2(limit, c, d) <==> a == c && b == d
    ensures Pack2(limit, a, b) < limit * limit
  {
    Digits(limit, b, a, d, c);
    ProductGrows(b + 1, limit, limit);
    assert (b + 1) * limit == b * limit + limit;
  }

  lemma ProductGrows(x: nat, y: nat, z: nat)
    requires x <= y
    ensures x * z <= y * z
  {
  }

  lemma Digits(base: nat, h: nat, l: nat, h': nat, l': nat)
    requires l < base && l' < base
    ensures h * base + l == h' * base + l' <==> h == h' && l == l'
  {
    if h < h' {
      ProductGrows(h + 1, h', base);
      assert (h + 1) * base == h * base + base;
    } else if h' < h {
      ProductGrows(h' + 1, h, base);
      assert (h' + 1) * base == h' * base + base;
    }
  }

  lemma Pack4Injective(limit: nat, u: Text, v: Text)
    requires |u| == 4 && |v| == 4 && Units(u, limit) && Units(v, limit)
    ensures Pack4(limit, u[0], u[1], u[2], u[3]) == Pack4(limit, v[0], v[1], v[2], v[3]) <==> u == v
  {
    Pack2Injective(limit, u[0], u[1], v[0], v[1]);
    Pack2Injective(limit, v[0], v[1], u[0], u[1]);
    Pack2Injective(limit, u[2], u[3], v[2], v[3]);
    Digits(limit * limit, Pack2(limit, u[2], u[3]), Pack2(limit, u[0], u[1]),
           Pack2(limit, v[2], v[3]), Pack2(limit, v[0], v[1]));
    assert u == [u[0], u[1], u[2], u[3]] && v == [v[0], v[1], v[2], v[3]];
  }

  lemma Compare2Is(arch: Arch, limit: nat, at: nat, a: Char, b: Char, text: Text)
    requires at + 2 <= |text| && Units(text, limit) && a < limit && b < limit
    ensures AllHold(limit, Compare2(arch, limit, at, a, b), text) <==> text[at] == a && text[at + 1] == b
  {
    var tests := Compare2(arch, limit, at, a, b);
    if arch == NeedsAlignedAccess {
      TwoTests(limit, tests, text);
    } else {
      LoadOfTwo(limit, text[at..at + 2]);
      Pack2Injective(limit, text[at], text[at + 1], a, b);
      OneTest(limit, tests, text);
    }
  }

  lemma OneTest(limit: nat, tests: seq<Test>, text: Text)
    requires |tests| == 1
    ensures AllHold(limit, tests, text) <==> CanLoad(tests[0], text) && Holds(limit, tests[0], text)
  {
  }

  lemma TwoTests(limit: nat, tests: seq<Test>, text: Text)
    requires |tests| == 2
    ensures AllHold(limit, tests, text) <==>
              && CanLoad(tests[0], text) && Holds(limit, tests[0], text)
              && CanLoad(tests[1], text) && Holds(limit, tests[1], text)
  {
  }

  lemma Both(limit: nat, s: seq<Test>, t: seq<Test>, text: Text)
    ensures AllHold(limit, s + t, text) <==> AllHold(limit, s, text) && AllHold(limit, t, text)
  {
    if AllHold(limit, s + t, text) {
      forall i | 0 <= i < |s| ensures CanLoad(s[i], text) && Holds(limit, s[i], text) {
        assert (s + t)[i] == s[i];
      }
      forall i | 0 <= i < |t| ensures CanLoad(t[i], text) && Holds(limit, t[i], text) {
        assert (s + t)[|s| + i] == t[i];
      }
    }
  }

  lemma Compare4Is(arch: Arch, limit: nat, at: nat, a: Char, b: Char, c: Char, d: Char, text: Text)
    requires at + 4 <= |text| && Units(text, limit) && Units([a, b, c, d], limit)
    ensures AllHold(limit, Compare4(arch, limit, at, a, b, c, d), text)
            <==> text[at] == a && text[at + 1] == b && text[at + 2] == c && text[at + 3] == d
  {
    var u, v := text[at..at + 4], [a, b, c, d];
    assert u == [text[at], text[at + 1], text[at + 2], text[at + 3]];
    if arch == X86_64 {
      LoadOfFour(limit, u);
      Pack4Injective(limit, u, v);
      OneTest(limit, Compare4(arch, limit, at, a, b, c, d), text);
    } else {
      assert v[0] < limit && v[1] < limit && v[2] < limit && v[3] < limit;
      Both(limit, Compare2(arch, limit, at, a, b), Compare2(arch, limit, at + 2, c, d), text);
      Compare2Is(arch, limit, at, a, b, text);
      Compare2Is(arch, limit, at + 2, c, d, text);
    }
  }

  /** The fast comparisons refine character-by-character matching: packed, and overlapping
      for seven characters, on each kind of processor and for both text widths. */
  lemma ComparisonIs(arch: Arch, limit: nat, k: Text, text: Text)
    requires HasMacro(k) && |k| <= |text| && Units(k, limit) && Units(text, limit)
    ensures AllHold(limit, Comparison(arch, limit, k), text) <==> k <= text
  {
    if {
      case |k| == 1 => OneTest(limit, Comparison(arch, limit, k), text);
      case |k| == 2 => Compare2Is(arch, limit, 0, k[0], k[1], text);
      case |k| == 3 =>
        Compare2Is(arch, limit, 0, k[0], k[1], text);
        Both(limit, Compare2(arch, limit, 0, k[0], k[1]), [One(2, k[2])], text);
        OneTest(limit, [One(2, k[2])], text);
      case |k| > 3 => LongComparison(arch, limit, k, text);
    }
  }

  lemma LongComparison(arch: Arch, limit: nat, k: Text, text: Text)
    requires 4 <= |k| <= 8 && |k| <= |text| && Units(k, limit) && Units(text, limit)
    ensures AllHold(limit, Comparison(arch, limit, k), text) <==> k <= text
  {
    if {
      case |k| == 4 => Compare4Is(arch, limit, 0, k[0], k[1], k[2], k[3], text);
      case |k| == 5 => FiveAsFour(arch, limit, k, text);
      case |k| == 6 => SixAsFour(arch, limit, k, text);
      case |k| == 7 => SevenAsFours(arch, limit, k, text);
      case |k| == 8 => EightAsFours(arch, limit, k, text);
    }
  }

  lemma FiveAsFour(arch: Arch, limit: nat, k: Text, text: Text)
    requires |k| == 5 && |k| <= |text| && Units(k, limit) && Units(text, limit)
    ensures AllHold(limit, Comparison(arch, limit, k), text) <==> k <= text
  {
    FourAndMore(arch, limit, k, text, [One(4, k[4])]);
    OneTest(limit, [One(4, k[4])], text);
  }

  lemma SixAsFour(arch: Arch, limit: nat, k: Text, text: Text)
    requires |k| == 6 && |k| <= |text| && Units(k, limit) && Units(text, limit)
    ensures AllHold(limit, Comparison(arch, limit, k), text) <==> k <= text
  {
    FourAndMore(arch, limit, k, text, Compare2(arch, limit, 4, k[4], k[5]));
    Compare2Is(arch, limit, 4, k[4], k[5], text);
  }

  lemma EightAsFours(arch: Arch, limit: nat, k: Text, text: Text)
    requires |k| == 8 && |k| <= |text| && Units(k, limit) && Units(text, limit)
    ensures AllHold(limit, Comparison(arch, limit, k), text) <==> k <= text
  {
    FourAndMore(arch, limit, k, text, Compare4(arch, limit, 4, k[4], k[5], k[6], k[7]));
    Compare4Is(arch, limit, 4, k[4], k[5], k[6], k[7], text);
  }

  lemma FourAndMore(arch: Arch, limit: nat, k: Text, text: Text, more: seq<Test>)
    requires |k| >= 4 && |text| >= 4 && Units(k, limit) && Units(text, limit)
    ensures AllHold(limit, Compare4(arch, limit, 0, k[0], k[1], k[2], k[3]) + more, text)
            <==> k[..4] <= text && AllHold(limit, more, text)
  {
    Compare4Is(arch, limit, 0, k[0], k[1], k[2], k[3], text);
    Both(limit, Compare4(arch, limit, 0, k[0], k[1], k[2], k[3]), more, text);
    assert k[..4] == [k[0], k[1], k[2], k[3]] && text[..4] == [text[0], text[1], text[2], text[3]];
  }

  lemma SevenAsFours(arch: Arch, limit: nat, k: Text, text: Text)
    requires |k| == 7 && |k| <= |text| && Units(k, limit) && Units(text, limit)
    ensures AllHold(limit, Comparison(arch, limit, k), text) <==> k <= text
  {
    FourAndMore(arch, limit, k, text, Compare4(arch, limit, 3, k[3], k[4], k[5], k[6]));
    Compare4Is(arch, limit, 3, k[3], k[4], k[5], k[6], text);
  }

  predicate ReadsBelow(t: Test, n: nat) { t.at + Width(t) <= n }

  predicate AllReadBelow(ts: seq<Test>, n: nat) { forall i :: 0 <= i < |ts| ==> ReadsBelow(ts[i], n) }

  lemma Compare2Reads(arch: Arch, limit: nat, at: nat, a: Char, b: Char)
    ensures AllReadBelow(Compare2(arch, limit, at, a, b), at + 2)
  {
  }

  lemma Compare4Reads(arch: Arch, limit: nat, at: nat, a: Char, b: Char, c: Char, d: Char)
    ensures AllReadBelow(Compare4(arch, limit, at, a, b, c, d), at + 4)
  {
    Compare2Reads(arch, limit, at, a, b);
    Compare2Reads(arch, limit, at + 2, c, d);
  }

  lemma BothRead(s: seq<Test>, t: seq<Test>, m: nat, n: nat)
    requires AllReadBelow(s, m) && AllReadBelow(t, n) && m <= n
    ensures AllReadBelow(s + t, n)
  {
  }

  /** No comparison looks past the characters it compares. */
  lemma ComparisonReads(arch: Arch, limit: nat, k: Text)
    requires HasMacro(k)
    ensures AllReadBelow(Comparison(arch, limit, k), |k|)
  {
    if |k| == 2 || |k| == 3 {
      Compare2Reads(arch, limit, 0, k[0], k[1]);
    }
    if |k| == 3 {
      BothRead(Compare2(arch, limit, 0, k[0], k[1]), [One(2, k[2])], 2, 3);
    }
    if |k| >= 4 {
      LongComparisonReads(arch, limit, k);
    }
  }

  lemma LongComparisonReads(arch: Arch, limit: nat, k: Text)
    requires 4 <= |k| <= 8
    ensures AllReadBelow(Comparison(arch, limit, k), |k|)
  {
    var first := Compare4(arch, limit, 0, k[0], k[1], k[2], k[3]);
    Compare4Reads(arch, limit, 0, k[0], k[1], k[2], k[3]);
    if {
      case |k| == 4 => {}
      case |k| == 5 => BothRead(first, [One(4, k[4])], 4, 5);
      case |k| == 6 =>
        Compare2Reads(arch, limit, 4, k[4], k[5]);
        BothRead(first, Compare2(arch, limit, 4, k[4], k[5]), 4, 6);
      case |k| == 7 =>
        Compare4Reads(arch, limit, 3, k[3], k[4], k[5], k[6]);
        BothRead(first, Compare4(arch, limit, 3, k[3], k[4], k[5], k[6]), 4, 7);
      case |k| == 8 =>
        Compare4Reads(arch, limit, 4, k[4], k[5], k[6], k[7]);
        BothRead(first, Compare4(arch, limit, 4, k[4], k[5], k[6], k[7]), 4, 8);
    }
  }

  // The code.

  /** if (!isIdentPart(code[at])) return token, shifting by `at`. */
  datatype Accept = Accept(at: nat, token: Token)

  /** An optional return, then a chain of if and else-if. */
  datatype Code = Code(accept: Option<Accept>, branches: seq<Branch>)

  datatype Branch = Branch(base: nat, chars: Text, body: Code)

  /** What the whole function returns: a keyword token and its length, or IDENT. */
  datatype Match = Match(token: Token, length: nat)

  /** Every macro used is defined. */
  predicate Compiles(code: Code)
    decreases code
  {
    forall i :: 0 <= i < |code.branches| ==> HasMacro(code.branches[i].chars) && Compiles(code.branches[i].body)
  }

  /** Every unit the code may look at lies in the first n. */
  predicate ReadsWithin(code: Code, n: nat)
    decreases code
  {
    && (code.accept.Some? ==> code.accept.value.at < n)
    && forall i :: 0 <= i < |code.branches| ==>
         code.branches[i].base + |code.branches[i].chars| <= n && ReadsWithin(code.branches[i].body, n)
  }

  datatype Setting = Setting(arch: Arch, limit: nat, identParts: set<Char>)

  predicate IsIdentPart(s: Setting, c: Char) { c in s.identParts }

  predicate Taken(s: Setting, b: Branch, input: Text)
    requires HasMacro(b.chars) && b.base + |b.chars| <= |input|
  {
    AllHold(s.limit, Comparison(s.arch, s.limit, b.chars), input[b.base..])
  }

  predicate CanTest(bs: seq<Branch>, input: Text) {
    forall j :: 0 <= j < |bs| ==> HasMacro(bs[j].chars) && bs[j].base + |bs[j].chars| <= |input|
  }

  function Answers(s: Setting, bs: seq<Branch>, input: Text): (r: seq<bool>)
    requires CanTest(bs, input)
    ensures |r| == |bs| && forall j :: 0 <= j < |bs| ==> r[j] == Taken(s, bs[j], input)
  {
    seq(|bs|, j requires 0 <= j < |bs| => Taken(s, bs[j], input))
  }

  /** The first true answer, or the number of answers. */
  function FirstTrue(r: seq<bool>): (i: nat)
    ensures i <= |r|
    ensures i < |r| ==> r[i]
    ensures forall j :: 0 <= j < i ==> !r[j]
    decreases |r|
  {
    if r == [] || r[0] then 0 else 1 + FirstTrue(r[1..])
  }

  /** Running the code. Behind a chain nothing is left but returning IDENT. */
  function Exec(s: Setting, code: Code, input: Text): Option<Match>
    requires Compiles(code) && ReadsWithin(code, |input|)
    decreases code
  {
    if code.accept.Some? && !IsIdentPart(s, input[code.accept.value.at]) then
      Some(Match(code.accept.value.token, code.accept.value.at))
    else
      var i := FirstTrue(Answers(s, code.branches, input));
      if i < |code.branches| then Exec(s, code.branches[i].body, input) else None
  }
}
