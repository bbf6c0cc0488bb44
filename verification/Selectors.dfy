/** Selector matching and querying of internal/dom/selector.go. */
module Selectors {
  import opened Options
  import opened Dom
  import W = Words
  import B = Builtins

  datatype Combinator = NoCombinator | Descendant | Child | Adjacent | GeneralSibling

  datatype Nth = Nth(a: int, b: int)

  datatype Attribute = Attribute(name: string, operator: string, value: string)

  datatype Pseudo = Pseudo(name: string, nth: Option<Nth>, negation: Option<Compound>)

  datatype Compound = Compound(
    typeName: string, id: string, classes: seq<string>, attributes: seq<Attribute>, pseudos: seq<Pseudo>)

  datatype Part = Part(combinator: Combinator, compound: Compound)

  /** Library functions: strings.EqualFold and strings.ToLower. */
  datatype Strings = Strings(equalFold: (string, string) -> bool, lower: string -> string)

  // ---------- An+B ----------

  /** Go's integer division truncates toward zero, and the remainder has the dividend's sign. */
  function Quotient(x: int, y: int): int
    requires y != 0
  {
    if x >= 0 then x / y else -((-x) / y)
  }

  function Remainder(x: int, y: int): int
    requires y != 0
  {
    x - y * Quotient(x, y)
  }

  /** NthExpression.matches. */
  predicate NthMatches(e: Nth, position: int) {
    if position <= 0 then false
    else if e.a == 0 then position == e.b
    else
      var difference := position - e.b;
      Remainder(difference, e.a) == 0 && Quotient(difference, e.a) >= 0
  }

  /** Section 6.6.5.2 of Selectors Level 3: the position is A*n+B for some n that is not negative. */
  ghost predicate Chosen(e: Nth, position: int) {
    exists n: nat :: e.a * n + e.b == position
  }

  lemma {:induction false} MultipleDivides(x: int, y: int, n: int)
    requires y != 0 && x == y * n
    ensures Quotient(x, y) == n && Remainder(x, y) == 0
  {
    if x >= 0 {
      EuclideanUnique(x, y, n);
    } else {
      assert -x == y * (-n);
      EuclideanUnique(-x, y, -n);
    }
  }

  lemma {:induction false} EuclideanUnique(x: int, y: int, n: int)
    requires y != 0 && x == y * n
    ensures x / y == n
  {
    var q, r := x / y, x % y;
    assert y * q + r == x;
    var size := if y > 0 then y else -y;
    var k := if y > 0 then n - q else q - n;
    assert size * k == r by { Distribute(y, n, q); }
    Stretch(size, k);
  }

  lemma {:induction false} Distribute(y: int, n: int, q: int)
    ensures y * (n - q) == y * n - y * q && (-y) * (q - n) == y * n - y * q
  {}

  lemma {:induction false} Stretch(size: int, k: int)
    requires size > 0
    ensures (k >= 1 ==> size * k >= size) && (k <= -1 ==> size * k < 0)
  {}

  lemma {:induction false} NthMeaning(e: Nth, position: int)
    ensures NthMatches(e, position) <==> position >= 1 && Chosen(e, position)
  {
    if position >= 1 {
      if e.a == 0 {
        if position == e.b {
          assert e.a * 0 + e.b == position;
        }
      } else {
        var d := position - e.b;
        if NthMatches(e, position) {
          assert e.a * Quotient(d, e.a) + e.b == position;
        }
        if Chosen(e, position) {
          var n: nat :| e.a * n + e.b == position;
          MultipleDivides(d, e.a, n);
        }
      }
    }
  }

  // ---------- simple selectors ----------

  function Attr(lib: Strings, n: Node, name: string): Option<string> {
    if n.kind.ElementNode? && lib.lower(name) in n.attrs then Some(n.attrs[lib.lower(name)]) else None
  }

  predicate HasSuffix(s: string, t: string) {
    |t| <= |s| && s[|s| - |t|..] == t
  }

  /** matchAttribute. */
  predicate AttributeMatches(actual: Option<string>, a: Attribute) {
    if a.operator == "" then actual.Some?
    else if actual.None? then false
    else if a.operator == "=" then actual.value == a.value
    else if a.operator == "~=" then a.value in B.Fields(actual.value)
    else if a.operator == "|=" then actual.value == a.value || a.value + "-" <= actual.value
    else if a.operator == "^=" then a.value <= actual.value
    else if a.operator == "$=" then HasSuffix(actual.value, a.value)
    else if a.operator == "*=" then a.value == "" || B.Contains(actual.value, a.value)
    else false
  }

  function ReverseTypePosition(n: Node): int
    reads n, n.parent
  {
    if n.parent == null then 0 else Count(n.parent.typeCounts, n.tag) - n.typeIndex + 1
  }

  /** matchPseudo, on the cached positions. */
  predicate PseudoMatches(lib: Strings, n: Node, p: Pseudo)
    reads n, n.parent
    decreases p
  {
    if p.name == "first-child" then n.elementIndex == 1
    else if p.name == "last-child" then n.parent != null && n.elementIndex == n.parent.elementCount
    else if p.name == "only-child" then n.parent != null && n.parent.elementCount == 1
    else if p.name == "empty" then n.HasNoContent()
    else if p.name == "first-of-type" then n.typeIndex == 1
    else if p.name == "last-of-type" then ReverseTypePosition(n) == 1
    else if p.name == "only-of-type" then n.parent != null && Count(n.parent.typeCounts, n.tag) == 1
    else if p.name == "nth-child" then p.nth.Some? && NthMatches(p.nth.value, n.elementIndex)
    else if p.name == "nth-last-child" then
      p.nth.Some? && n.parent != null && NthMatches(p.nth.value, n.parent.elementCount - n.elementIndex + 1)
    else if p.name == "nth-of-type" then p.nth.Some? && NthMatches(p.nth.value, n.typeIndex)
    else if p.name == "nth-last-of-type" then p.nth.Some? && NthMatches(p.nth.value, ReverseTypePosition(n))
    else if p.name == "not" then p.negation.Some? && !CompoundMatches(lib, n, p.negation.value)
    else false
  }

  /** The parts of a compound selector other than its pseudo-classes. */
  predicate SimpleMatches(lib: Strings, n: Node, c: Compound) {
    && (c.typeName != "" ==> lib.equalFold(n.tag, c.typeName))
    && (c.id != "" ==> Attr(lib, n, "id") == Some(c.id))
    && (forall i | 0 <= i < |c.classes| :: c.classes[i] in B.Fields(Attr(lib, n, "class").GetOr("")))
    && (forall i | 0 <= i < |c.attributes| :: AttributeMatches(Attr(lib, n, c.attributes[i].name), c.attributes[i]))
  }

  predicate CompoundMatches(lib: Strings, n: Node, c: Compound)
    reads n, n.parent
    decreases c
  {
    SimpleMatches(lib, n, c) && forall i | 0 <= i < |c.pseudos| :: PseudoMatches(lib, n, c.pseudos[i])
  }

  method FindClass(classes: seq<string>, wanted: string) returns (found: bool)
    ensures found == (wanted in classes)
  {
    found := false;
    for i := 0 to |classes|
      invariant !found && wanted !in classes[..i]
    {
      if classes[i] == wanted {
        return true;
      }
      assert classes[..i + 1] == classes[..i] + [classes[i]];
    }
    assert classes[..|classes|] == classes;
  }

  /** matchesCompound, with its search loops. */
  method MatchCompound(lib: Strings, n: Node, c: Compound) returns (matches: bool)
    ensures matches == CompoundMatches(lib, n, c)
  {
    hide AttributeMatches, PseudoMatches, Attr;
    if c.typeName != "" && !lib.equalFold(n.tag, c.typeName) {
      return false;
    }
    if c.id != "" && Attr(lib, n, "id") != Some(c.id) {
      return false;
    }
    if |c.classes| > 0 {
      var classes := B.Fields(Attr(lib, n, "class").GetOr(""));
      for i := 0 to |c.classes|
        invariant forall k | 0 <= k < i :: c.classes[k] in classes
      {
        var found := FindClass(classes, c.classes[i]);
        if !found {
          return false;
        }
      }
    }
    for i := 0 to |c.attributes|
      invariant forall k | 0 <= k < i :: AttributeMatches(Attr(lib, n, c.attributes[k].name), c.attributes[k])
    {
      if !AttributeMatches(Attr(lib, n, c.attributes[i].name), c.attributes[i]) {
        return false;
      }
    }
    for i := 0 to |c.pseudos|
      invariant forall k | 0 <= k < i :: PseudoMatches(lib, n, c.pseudos[k])
    {
      if !PseudoMatches(lib, n, c.pseudos[i]) {
        return false;
      }
    }
    return true;
  }

  // ---------- what simple selectors mean ----------

  /** `w` is one of the longest pieces of `s` without spaces. */
  ghost predicate HasWord(s: string, w: string) {
    exists i :: 0 <= i <= |s| && W.StandsAt(s, w, i)
  }

  /** Section 6.3 of Selectors Level 3: the operators, for the value an attribute has. */
  ghost predicate OperatorHolds(actual: string, operator: string, value: string) {
    match operator
    case "=" => actual == value
    case "~=" => HasWord(actual, value)
    case "|=" => actual == value || exists t: string :: actual == value + "-" + t
    case "^=" => exists t: string :: actual == value + t
    case "$=" => exists t: string :: actual == t + value
    case "*=" => exists before: string, t: string :: actual == before + value + t
    case _ => false
  }

  /** The element has the attribute and, with an operator, a value for which that holds. */
  ghost predicate AttributeHolds(lib: Strings, n: Node, a: Attribute) {
    n.kind.ElementNode? && lib.lower(a.name) in n.attrs &&
    (a.operator == "" || OperatorHolds(n.attrs[lib.lower(a.name)], a.operator, a.value))
  }

  lemma {:induction false} ContainsMeaning(s: string, t: string)
    requires t != ""
    ensures B.Contains(s, t) <==> exists before: string, after: string :: s == before + t + after
  {
    var i := B.FindText(s, t);
    if i < |s| {
      assert s == s[..i] + t + s[i + |t|..];
    }
    forall before: string, after: string | s == before + t + after ensures B.Contains(s, t) {
      FoundBy(s, before, t, after);
    }
  }

  lemma {:induction false} FoundBy(s: string, before: string, t: string, after: string)
    requires t != "" && s == before + t + after
    ensures B.FindText(s, t) < |s|
  {
    if before == "" {
      assert t <= s;
    } else {
      assert s[1..] == before[1..] + t + after;
      FoundBy(s[1..], before[1..], t, after);
    }
  }

  lemma {:induction false} PrefixMeaning(s: string, t: string)
    ensures t <= s <==> exists rest: string :: s == t + rest
  {
    if t <= s {
      assert s == t + s[|t|..];
    }
  }

  lemma {:induction false} SuffixMeaning(s: string, t: string)
    ensures HasSuffix(s, t) <==> exists rest: string :: s == rest + t
  {
    if HasSuffix(s, t) {
      assert s == s[..|s| - |t|] + t;
    }
  }

  /** matchAttribute decides every operator. */
  lemma {:induction false} AttributeMeaning(lib: Strings, n: Node, a: Attribute)
    ensures AttributeMatches(Attr(lib, n, a.name), a) <==> AttributeHolds(lib, n, a)
  {
    hide HasSuffix, B.Contains, B.Fields, HasWord;
    var actual := Attr(lib, n, a.name);
    if actual.Some? {
      var s := actual.value;
      WordMeaning(s, a.value);
      PrefixMeaning(s, a.value);
      PrefixMeaning(s, a.value + "-");
      SuffixMeaning(s, a.value);
      if a.value != "" {
        ContainsMeaning(s, a.value);
      } else {
        assert s == "" + a.value + s;
      }
    }
  }

  lemma {:induction false} WordMeaning(s: string, w: string)
    ensures w in B.Fields(s) <==> HasWord(s, w)
  {
    hide W.StandsAt;
    W.FieldsMeaning(s, w);
  }

  /** Type, id, classes and attributes of a compound selector, as section 6 of Selectors Level 3 has them. */
  ghost predicate SimpleHolds(lib: Strings, n: Node, c: Compound) {
    && (c.typeName != "" ==> lib.equalFold(n.tag, c.typeName))
    && (c.id != "" ==> AttributeHolds(lib, n, Attribute("id", "=", c.id)))
    && (forall i | 0 <= i < |c.classes| :: AttributeHolds(lib, n, Attribute("class", "~=", c.classes[i])))
    && (forall i | 0 <= i < |c.attributes| :: AttributeHolds(lib, n, c.attributes[i]))
  }

  lemma {:induction false} SimpleMeaning(lib: Strings, n: Node, c: Compound)
    ensures SimpleMatches(lib, n, c) <==> SimpleHolds(lib, n, c)
  {
    hide AttributeMatches, AttributeHolds, Attr;
    IdMeaning(lib, n, c.id);
    forall i | 0 <= i < |c.classes|
      ensures c.classes[i] in B.Fields(Attr(lib, n, "class").GetOr("")) <==> AttributeHolds(lib, n, Attribute("class", "~=", c.classes[i]))
    {
      ClassMeaning(lib, n, c.classes[i]);
    }
    forall i | 0 <= i < |c.attributes|
      ensures AttributeMatches(Attr(lib, n, c.attributes[i].name), c.attributes[i]) <==> AttributeHolds(lib, n, c.attributes[i])
    {
      AttributeMeaning(lib, n, c.attributes[i]);
    }
  }

  lemma {:induction false} IdMeaning(lib: Strings, n: Node, id: string)
    ensures Attr(lib, n, "id") == Some(id) <==> AttributeHolds(lib, n, Attribute("id", "=", id))
  {}

  lemma {:induction false} ClassMeaning(lib: Strings, n: Node, name: string)
    ensures name in B.Fields(Attr(lib, n, "class").GetOr("")) <==> AttributeHolds(lib, n, Attribute("class", "~=", name))
  {
    hide B.Fields, HasWord;
    if Attr(lib, n, "class").Some? {
      WordMeaning(Attr(lib, n, "class").value, name);
    } else {
      NoWords(name);
    }
  }

  lemma {:induction false} NoWords(name: string)
    ensures name !in B.Fields("")
  {}

  // ---------- the structural pseudo-classes ----------

  /** Section 6.6.5 of Selectors Level 3, for the i-th child of p: what is before it and after it. */
  ghost predicate Structural(lib: Strings, p: Node, i: nat, s: Pseudo)
    requires i < |p.children|
    reads p, p.children
    decreases s
  {
    var n := p.children[i];
    var before, after := p.children[..i], p.children[i + 1..];
    if s.name == "first-child" then Elements(before) == []
    else if s.name == "last-child" then Elements(after) == []
    else if s.name == "only-child" then Elements(before) == [] && Elements(after) == []
    else if s.name == "empty" then n.HasNoContent()
    else if s.name == "first-of-type" then OfType(before, n.tag) == []
    else if s.name == "last-of-type" then OfType(after, n.tag) == []
    else if s.name == "only-of-type" then OfType(before, n.tag) == [] && OfType(after, n.tag) == []
    else if s.name == "nth-child" then s.nth.Some? && Chosen(s.nth.value, |Elements(before)| + 1)
    else if s.name == "nth-last-child" then s.nth.Some? && Chosen(s.nth.value, |Elements(after)| + 1)
    else if s.name == "nth-of-type" then s.nth.Some? && Chosen(s.nth.value, |OfType(before, n.tag)| + 1)
    else if s.name == "nth-last-of-type" then s.nth.Some? && Chosen(s.nth.value, |OfType(after, n.tag)| + 1)
    else if s.name == "not" then
      s.negation.Some? &&
      !(SimpleHolds(lib, n, s.negation.value) &&
        forall k | 0 <= k < |s.negation.value.pseudos| :: Structural(lib, p, i, s.negation.value.pseudos[k]))
    else false
  }

  /** How the children of a type and of any type split at the i-th. */
  lemma {:induction false} SplitAt(nodes: seq<Node>, i: nat, t: string)
    requires i < |nodes| && nodes[i].kind.ElementNode? && nodes[i].tag == t
    ensures |Elements(nodes)| == |Elements(nodes[..i])| + 1 + |Elements(nodes[i + 1..])|
    ensures |OfType(nodes, t)| == |OfType(nodes[..i], t)| + 1 + |OfType(nodes[i + 1..], t)|
  {
    hide Elements, OfType;
    assert nodes == (nodes[..i] + [nodes[i]]) + nodes[i + 1..];
    ElementsJoin(nodes[..i] + [nodes[i]], nodes[i + 1..]);
    ElementsSnoc(nodes[..i], nodes[i]);
    OfTypeJoin(nodes[..i] + [nodes[i]], nodes[i + 1..], t);
    OfTypeSnoc(nodes[..i], nodes[i], t);
  }

  /** Reading the cached positions decides every pseudo-class as it is defined. */
  lemma {:induction false} PseudoMeaning(lib: Strings, p: Node, i: nat, s: Pseudo)
    requires p.Indexed() && i < |p.children| && p.children[i].kind.ElementNode?
    ensures PseudoMatches(lib, p.children[i], s) <==> Structural(lib, p, i, s)
    decreases s
  {
    hide Elements, OfType, SimpleMatches, SimpleHolds, NthMatches, Chosen;
    var n := p.children[i];
    assert p.ChildIndexed(i);
    SplitAt(p.children, i, n.tag);
    assert Count(p.typeCounts, n.tag) == |OfType(p.children, n.tag)|;
    if s.nth.Some? {
      NthMeaning(s.nth.value, n.elementIndex);
      NthMeaning(s.nth.value, p.elementCount - n.elementIndex + 1);
      NthMeaning(s.nth.value, n.typeIndex);
      NthMeaning(s.nth.value, ReverseTypePosition(n));
    }
    if s.negation.Some? {
      SimpleMeaning(lib, n, s.negation.value);
      forall k | 0 <= k < |s.negation.value.pseudos|
        ensures PseudoMatches(lib, n, s.negation.value.pseudos[k]) <==> Structural(lib, p, i, s.negation.value.pseudos[k])
      {
        PseudoMeaning(lib, p, i, s.negation.value.pseudos[k]);
      }
    }
  }
}
