/** Matching complex selectors and collecting their matches: internal/dom/selector.go. */
module Matching {
  import opened Dom
  import opened Selectors

  // ---------- trees ----------

  /** An interval for every node of a tree, in document order: a node's interval begins before those of
      its children, contains them, and they follow each other. */
  type Spans = map<Node, (nat, nat)>

  ghost predicate Spaced(spans: Spans, n: Node)
    requires n in spans
    reads n`children
  {
    && spans[n].0 <= spans[n].1
    && (forall i | 0 <= i < |n.children| ::
          n.children[i] in spans && spans[n].0 < spans[n.children[i]].0 && spans[n.children[i]].1 <= spans[n].1)
    && (forall i, j | 0 <= i < j < |n.children| :: spans[n.children[i]].1 < spans[n.children[j]].0)
  }

  ghost predicate NodeValid(spans: Spans, n: Node)
    requires n in spans
    reads spans.Keys
  {
    && Spaced(spans, n)
    && n.Indexed()
    && (n.parent != null ==> n.parent in spans && n in n.parent.children)
    && (n.parent == null ==> n.Detached())
  }

  /** A tree whose every node is well placed and well indexed. */
  ghost predicate Valid(spans: Spans)
    reads spans.Keys
  {
    forall n | n in spans :: NodeValid(spans, n)
  }

  /** Where a node stands among the children of its parent. */
  lemma {:induction false} PlaceOf(spans: Spans, n: Node) returns (i: nat)
    requires Valid(spans) && n in spans && n.parent != null
    ensures n.parent in spans && i < |n.parent.children| && n.parent.children[i] == n && n.parent.ChildIndexed(i)
    ensures spans[n.parent].0 < spans[n].0
  {
    assert NodeValid(spans, n) && NodeValid(spans, n.parent);
    i :| 0 <= i < |n.parent.children| && n.parent.children[i] == n;
  }

  predicate IsLast(nodes: seq<Node>, i: nat) {
    i < |nodes| && nodes[i].kind.ElementNode? && forall k | i < k < |nodes| :: !nodes[k].kind.ElementNode?
  }

  lemma {:induction false} LastOfElements(nodes: seq<Node>) returns (i: nat)
    ensures Last(Elements(nodes)) == null ==> forall k | 0 <= k < |nodes| :: !nodes[k].kind.ElementNode?
    ensures Last(Elements(nodes)) != null ==> IsLast(nodes, i) && nodes[i] == Last(Elements(nodes))
  {
    hide Elements;
    i := 0;
    NoNodes();
    if nodes != [] {
      var front, last := nodes[..|nodes| - 1], nodes[|nodes| - 1];
      assert nodes == front + [last];
      ElementsSnoc(front, last);
      i := LastOfElements(front);
      if last.kind.ElementNode? {
        i := |front|;
      } else {
        assert Elements(front) + [] == Elements(front);
      }
    }
  }

  // ---------- the four combinators ----------

  /** `a` is the node or an ancestor of it, below the document. */
  ghost predicate AtOrAbove(spans: Spans, n: Node?, a: Node)
    requires Valid(spans) && (n != null ==> n in spans)
    reads spans.Keys
    decreases if n == null then 0 else spans[n].0 + 1
  {
    n != null && !n.kind.DocumentNode? &&
    (n == a || (n.parent != null && (ParentValid(spans, n); AtOrAbove(spans, n.parent, a))))
  }

  lemma {:induction false} ParentValid(spans: Spans, n: Node)
    requires Valid(spans) && n in spans
    ensures n.parent != null ==> n.parent in spans && spans[n.parent].0 < spans[n].0
  {
    if n.parent != null {
      var i := PlaceOf(spans, n);
    }
  }

  /** `a` and `n` are elements under one parent, at places i and j. */
  ghost predicate Placed(spans: Spans, a: Node, n: Node, i: nat, j: nat)
    requires Valid(spans) && n in spans
    reads spans.Keys
  {
    n.parent != null && (ParentValid(spans, n);
    i < j < |n.parent.children| && n.parent.children[i] == a && n.parent.children[j] == n)
  }

  /** Section 8 of Selectors Level 3. */
  ghost predicate Related(spans: Spans, a: Node, n: Node, combinator: Combinator)
    requires Valid(spans) && n in spans && a in spans
    reads spans.Keys
  {
    match combinator
    case NoCombinator => false
    case Child => n.parent == a
    case Descendant => n.parent != null && (ParentValid(spans, n); AtOrAbove(spans, n.parent, a))
    case Adjacent => exists i, j :: Placed(spans, a, n, i, j) && NoneBetween(spans, n, i, j)
    case GeneralSibling => exists i, j :: Placed(spans, a, n, i, j)
  }

  ghost predicate NoneBetween(spans: Spans, n: Node, i: nat, j: nat)
    requires Valid(spans) && n in spans
    reads spans.Keys
  {
    n.parent != null && (ParentValid(spans, n);
    forall k | i < k < j && k < |n.parent.children| :: !n.parent.children[k].kind.ElementNode?)
  }

  /** The node matches the k-th compound, and the parts to its left can be assigned, one element each. */
  ghost predicate Assigned(lib: Strings, spans: Spans, n: Node, parts: seq<Part>, k: nat)
    requires Valid(spans) && n in spans && k < |parts|
    reads spans.Keys
    decreases k
  {
    n.kind.ElementNode? && (ParentValid(spans, n); CompoundMatches(lib, n, parts[k].compound)) &&
    (k == 0 || exists a | a in spans :: Related(spans, a, n, parts[k].combinator) && Assigned(lib, spans, a, parts, k - 1))
  }

  /** The parents from a node up to an ancestor, all below the document. */
  ghost predicate IsLineage(line: seq<Node>)
    reads line
  {
    |line| >= 2 && forall k, l | 0 <= k < l < |line| && l == k + 1 :: Up(line[k], line[l])
  }

  predicate Up(n: Node, p: Node)
    reads n
  {
    n.parent == p && !p.kind.DocumentNode?
  }

  lemma {:induction false} LineageUp(spans: Spans, n: Node, a: Node)
    requires Valid(spans) && n in spans
    ensures (n.parent != null && (ParentValid(spans, n); AtOrAbove(spans, n.parent, a))) <==>
      exists line: seq<Node> :: IsLineage(line) && line[0] == n && line[|line| - 1] == a
    decreases spans[n].0
  {
    hide Valid, NodeValid;
    ParentValid(spans, n);
    var p := n.parent;
    if p != null {
      LineageUp(spans, p, a);
      if AtOrAbove(spans, p, a) {
        if p == a {
          assert Up([n, p][0], [n, p][1]) && IsLineage([n, p]);
        } else {
          var line: seq<Node> :| IsLineage(line) && line[0] == p && line[|line| - 1] == a;
          LongerLine(n, line);
        }
      }
    }
    forall line: seq<Node> | IsLineage(line) && line[0] == n && line[|line| - 1] == a ensures p != null && AtOrAbove(spans, p, a) {
      assert Up(line[0], line[1]);
      if |line| > 2 {
        ShorterLine(line);
      }
    }
  }

  lemma {:induction false} LongerLine(n: Node, line: seq<Node>)
    requires IsLineage(line) && n.parent == line[0] && !line[0].kind.DocumentNode?
    ensures IsLineage([n] + line)
  {
    var longer := [n] + line;
    forall k, l | 0 <= k < l < |longer| && l == k + 1 ensures Up(longer[k], longer[l]) {
      assert longer[l] == line[l - 1];
      if k > 0 {
        assert longer[k] == line[k - 1];
      }
    }
  }

  lemma {:induction false} ShorterLine(line: seq<Node>)
    requires IsLineage(line) && |line| > 2
    ensures IsLineage(line[1..])
  {
    var rest := line[1..];
    forall k, l | 0 <= k < l < |rest| && l == k + 1 ensures Up(rest[k], rest[l]) {
      assert rest[k] == line[k + 1] && rest[l] == line[l + 1];
    }
  }

  /** Two children of one node, the first before the second. */
  ghost predicate UnderOne(p: Node, i: int, j: int, a: Node, n: Node)
    reads p
  {
    0 <= i < j < |p.children| && p.children[i] == a && p.children[j] == n
  }

  lemma {:induction false} UnderOneIsPlaced(spans: Spans, a: Node, n: Node, p: Node, i: nat, j: nat)
    requires Valid(spans) && a in spans && n in spans && p in spans
    ensures UnderOne(p, i, j, a, n) <==> n.parent == p && Placed(spans, a, n, i, j)
  {
    hide Node.Indexed;
    ParentValid(spans, n);
    assert NodeValid(spans, p);
    if UnderOne(p, i, j, a, n) {
      ParentIs(p, j);
    }
  }

  lemma {:induction false} ChildMeaning(spans: Spans, a: Node, n: Node)
    requires Valid(spans) && a in spans && n in spans
    ensures Related(spans, a, n, Child) <==> n in a.children
  {
    hide Node.Indexed;
    assert NodeValid(spans, a) && NodeValid(spans, n);
    if n in a.children {
      var i :| 0 <= i < |a.children| && a.children[i] == n;
      ParentIs(a, i);
    }
  }

  /** The combinators of section 8 of Selectors Level 3, by children and parents: a child is among the
      children, a descendant below by a line of parents, an adjacent sibling is after with no element
      between, a general sibling is after. */
  lemma {:induction false} CombinatorMeaning(spans: Spans, a: Node, n: Node)
    requires Valid(spans) && a in spans && n in spans
    ensures Related(spans, a, n, Child) <==> n in a.children
    ensures Related(spans, a, n, Descendant) <==> exists line: seq<Node> :: IsLineage(line) && line[0] == n && line[|line| - 1] == a
    ensures Related(spans, a, n, GeneralSibling) <==> exists p: Node, i, j :: p in spans && UnderOne(p, i, j, a, n)
    ensures Related(spans, a, n, Adjacent) <==>
      exists p: Node, i, j :: p in spans && UnderOne(p, i, j, a, n) && forall k | i < k < j :: !p.children[k].kind.ElementNode?
    ensures !Related(spans, a, n, NoCombinator)
  {
    hide Valid, AtOrAbove, IsLineage, Placed, NoneBetween;
    ChildMeaning(spans, a, n);
    LineageUp(spans, n, a);
    SiblingMeaning(spans, a, n);
  }

  lemma {:induction false} SiblingMeaning(spans: Spans, a: Node, n: Node)
    requires Valid(spans) && a in spans && n in spans
    ensures Related(spans, a, n, GeneralSibling) <==> exists p: Node, i, j :: p in spans && UnderOne(p, i, j, a, n)
    ensures Related(spans, a, n, Adjacent) <==>
      exists p: Node, i, j :: p in spans && UnderOne(p, i, j, a, n) && forall k | i < k < j :: !p.children[k].kind.ElementNode?
  {
    hide Valid, AtOrAbove;
    ParentValid(spans, n);
    forall i: nat, j: nat | Placed(spans, a, n, i, j) ensures n.parent != null && n.parent in spans && UnderOne(n.parent, i, j, a, n) {
      UnderOneIsPlaced(spans, a, n, n.parent, i, j);
    }
    forall p: Node, i, j | p in spans && UnderOne(p, i, j, a, n) ensures n.parent == p && Placed(spans, a, n, i, j) {
      UnderOneIsPlaced(spans, a, n, p, i, j);
    }
  }

  // ---------- what the links mean ----------

  lemma {:induction false} SameIndex(p: Node, x: nat, y: nat)
    requires p.Indexed() && x < |p.children| && y < |p.children| && p.children[x] == p.children[y]
    ensures x == y
  {}

  lemma {:induction false} ParentIs(p: Node, i: nat)
    requires p.Indexed() && i < |p.children|
    ensures p.children[i].parent == p
  {
    assert p.ChildIndexed(i);
  }

  /** The last element before the j-th child is what the child remembers. */
  lemma {:induction false} PreviousOf(p: Node, j: nat) returns (i: nat)
    requires p.Indexed() && j < |p.children| && p.children[j].kind.ElementNode?
    ensures var q := p.children[j].previousElement;
      if q == null then forall k | 0 <= k < j :: !p.children[k].kind.ElementNode?
      else i < j && p.children[i] == q && q.kind.ElementNode? && forall k | i < k < j :: !p.children[k].kind.ElementNode?
  {
    hide Elements, OfType;
    assert p.ChildIndexed(j);
    var before := p.children[..j];
    i := LastOfElements(before);
    assert forall k | 0 <= k < j :: before[k] == p.children[k];
  }

  /** The previous element is the nearest element before, under the same parent. */
  lemma {:induction false} PreviousMeaning(spans: Spans, n: Node) returns (i: nat, j: nat)
    requires Valid(spans) && n in spans && n.kind.ElementNode?
    ensures n.previousElement == null ==> forall a, x, y | a in spans && Placed(spans, a, n, x, y) :: !a.kind.ElementNode?
    ensures n.previousElement != null ==>
      && n.previousElement in spans && n.previousElement.kind.ElementNode? && spans[n.previousElement].0 < spans[n].0
      && Placed(spans, n.previousElement, n, i, j) && NoneBetween(spans, n, i, j)
  {
    hide Node.Indexed;
    i, j := 0, 0;
    assert NodeValid(spans, n);
    if n.parent != null {
      j := PlaceOf(spans, n);
      var p := n.parent;
      assert NodeValid(spans, p);
      i := PreviousOf(p, j);
      if n.previousElement != null {
        assert spans[p.children[i]].0 <= spans[p.children[i]].1 by { assert NodeValid(spans, p.children[i]); }
      } else {
        forall a, x, y | a in spans && Placed(spans, a, n, x, y) ensures !a.kind.ElementNode? {
          SameIndex(p, y, j);
        }
      }
    }
  }

  /** `a` is the node or found by following previous elements from it. */
  ghost predicate AtOrBefore(spans: Spans, n: Node?, a: Node)
    requires Valid(spans) && (n != null ==> n in spans)
    reads spans.Keys
    decreases if n == null then 0 else spans[n].0 + 1
  {
    n != null && (n == a ||
      (n.kind.ElementNode? && (PreviousIsThere(spans, n); AtOrBefore(spans, n.previousElement, a))))
  }

  lemma {:induction false} PreviousIsThere(spans: Spans, n: Node)
    requires Valid(spans) && n in spans && n.kind.ElementNode?
    ensures n.previousElement != null ==>
      n.previousElement in spans && n.previousElement.kind.ElementNode? && spans[n.previousElement].0 < spans[n].0
  {
    var i, j := PreviousMeaning(spans, n);
  }

  /** Following previous elements reaches exactly the elements before, under the same parent. */
  lemma {:induction false} BeforeMeaning(spans: Spans, n: Node, a: Node)
    requires Valid(spans) && n in spans && n.kind.ElementNode? && a in spans && a.kind.ElementNode?
    ensures (PreviousIsThere(spans, n); AtOrBefore(spans, n.previousElement, a)) <==> Related(spans, a, n, GeneralSibling)
    decreases spans[n].0
  {
    hide Valid;
    PreviousIsThere(spans, n);
    var i, j := PreviousMeaning(spans, n);
    var q := n.previousElement;
    if q == null {
      assert !Related(spans, a, n, GeneralSibling);
    } else {
      BeforeMeaning(spans, q, a);
      if Related(spans, a, q, GeneralSibling) {
        var x, y :| Placed(spans, a, q, x, y);
        SamePlace(spans, q, n, i, j, y);
        assert Placed(spans, a, n, x, j);
      }
      if q == a {
        assert Related(spans, a, n, GeneralSibling);
      }
      if Related(spans, a, n, GeneralSibling) && q != a {
        var x, y :| Placed(spans, a, n, x, y);
        Between(spans, a, q, n, x, y, i, j);
      }
    }
  }

  lemma {:induction false} SamePlace(spans: Spans, q: Node, n: Node, i: nat, j: nat, y: nat)
    requires Valid(spans) && n in spans && q in spans && Placed(spans, q, n, i, j)
    requires q.parent != null && (ParentValid(spans, q); y < |q.parent.children| && q.parent.children[y] == q)
    ensures q.parent == n.parent && y == i
  {
    ParentValid(spans, n);
    assert NodeValid(spans, n.parent) && n.parent.ChildIndexed(i);
    SameIndex(n.parent, y, i);
  }

  /** The nearest element before n is not before another one. */
  lemma {:induction false} Between(spans: Spans, a: Node, q: Node, n: Node, x: nat, y: nat, i: nat, j: nat)
    requires Valid(spans) && n in spans && q in spans && a in spans && a.kind.ElementNode? && a != q
    requires Placed(spans, a, n, x, y) && Placed(spans, q, n, i, j) && NoneBetween(spans, n, i, j)
    ensures Related(spans, a, q, GeneralSibling)
  {
    hide Node.Indexed;
    ParentValid(spans, n);
    var p := n.parent;
    assert NodeValid(spans, p);
    ParentIs(p, i);
    SameIndex(p, y, j);
    assert x < i;
    assert Placed(spans, a, q, x, i);
  }

  // ---------- the matcher ----------

  /** matchesComplex: right to left, with the search loops. It agrees with the existence of an
      assignment, on every finite tree. */
  method MatchComplex(lib: Strings, ghost spans: Spans, n: Node?, parts: seq<Part>, index: int) returns (matches: bool)
    requires Valid(spans) && (n != null ==> n in spans) && index < |parts|
    ensures matches == (index >= 0 && n != null && Assigned(lib, spans, n, parts, index))
    decreases index, 1
  {
    hide Valid, Related, CompoundMatches;
    if index < 0 || n == null || !n.kind.ElementNode? {
      return false;
    }
    ParentValid(spans, n);
    matches := MatchCompound(lib, n, parts[index].compound);
    if !matches || index == 0 {
      return;
    }
    match parts[index].combinator {
      case NoCombinator =>
        NoneRelated(spans, n);
        matches := false;
      case Child => matches := MatchParent(lib, spans, n, parts, index);
      case Descendant => matches := MatchAncestors(lib, spans, n, parts, index);
      case Adjacent => matches := MatchPrevious(lib, spans, n, parts, index);
      case GeneralSibling => matches := MatchSiblings(lib, spans, n, parts, index);
    }
  }

  lemma {:induction false} NoneRelated(spans: Spans, n: Node)
    requires Valid(spans) && n in spans
    ensures forall a | a in spans :: !Related(spans, a, n, NoCombinator)
  {}

  /** What is left to find after the node itself has matched. */
  ghost predicate Continues(lib: Strings, spans: Spans, n: Node, parts: seq<Part>, k: nat, combinator: Combinator)
    requires Valid(spans) && n in spans && 0 < k < |parts|
    reads spans.Keys
  {
    exists a | a in spans :: Related(spans, a, n, combinator) && Assigned(lib, spans, a, parts, k - 1)
  }

  method MatchParent(lib: Strings, ghost spans: Spans, n: Node, parts: seq<Part>, index: nat) returns (matches: bool)
    requires Valid(spans) && n in spans && 0 < index < |parts|
    ensures matches == Continues(lib, spans, n, parts, index, Child)
    decreases index, 0
  {
    hide Valid, CompoundMatches;
    ParentValid(spans, n);
    var parent := n.parent;
    if parent != null && parent.kind.DocumentNode? {
      return false;
    }
    matches := MatchComplex(lib, spans, parent, parts, index - 1);
  }

  method MatchAncestors(lib: Strings, ghost spans: Spans, n: Node, parts: seq<Part>, index: nat) returns (matches: bool)
    requires Valid(spans) && n in spans && 0 < index < |parts|
    ensures matches == Continues(lib, spans, n, parts, index, Descendant)
    decreases index, 0
  {
    hide Valid, Assigned;
    ParentValid(spans, n);
    var parent := n.parent;
    while parent != null && !parent.kind.DocumentNode?
      invariant parent != null ==> parent in spans
      invariant forall a | a in spans && Related(spans, a, n, Descendant) && Assigned(lib, spans, a, parts, index - 1) ::
        AtOrAbove(spans, parent, a)
      invariant forall a | a in spans && AtOrAbove(spans, parent, a) :: Related(spans, a, n, Descendant)
      decreases if parent == null then 0 else spans[parent].0 + 1
    {
      var found := MatchComplex(lib, spans, parent, parts, index - 1);
      if found {
        assert AtOrAbove(spans, parent, parent);
        return true;
      }
      ParentValid(spans, parent);
      parent := parent.parent;
    }
    return false;
  }

  method MatchPrevious(lib: Strings, ghost spans: Spans, n: Node, parts: seq<Part>, index: nat) returns (matches: bool)
    requires Valid(spans) && n in spans && 0 < index < |parts| && n.kind.ElementNode?
    ensures matches == Continues(lib, spans, n, parts, index, Adjacent)
    decreases index, 0
  {
    hide Valid, CompoundMatches;
    PreviousIsThere(spans, n);
    matches := MatchComplex(lib, spans, n.previousElement, parts, index - 1);
    AdjacentMeaning(spans, n);
  }

  /** The previous element is the only one adjacent. */
  lemma {:induction false} AdjacentMeaning(spans: Spans, n: Node)
    requires Valid(spans) && n in spans && n.kind.ElementNode?
    ensures forall a | a in spans && a.kind.ElementNode? :: Related(spans, a, n, Adjacent) <==> n.previousElement == a
  {
    hide Valid;
    var i, j := PreviousMeaning(spans, n);
    forall a | a in spans && a.kind.ElementNode? ensures Related(spans, a, n, Adjacent) <==> n.previousElement == a {
      if Related(spans, a, n, Adjacent) {
        var x, y :| Placed(spans, a, n, x, y) && NoneBetween(spans, n, x, y);
        if n.previousElement != a {
          OnlyOneAdjacent(spans, a, n.previousElement, n, x, y, i, j);
        }
      }
    }
  }

  lemma {:induction false} OnlyOneAdjacent(spans: Spans, a: Node, b: Node, n: Node, x: nat, y: nat, i: nat, j: nat)
    requires Valid(spans) && n in spans && a in spans && b in spans && a.kind.ElementNode? && b.kind.ElementNode?
    requires Placed(spans, a, n, x, y) && NoneBetween(spans, n, x, y) && Placed(spans, b, n, i, j) && NoneBetween(spans, n, i, j)
    ensures a == b
  {
    hide Node.Indexed;
    ParentValid(spans, n);
    var p := n.parent;
    assert NodeValid(spans, p);
    SameIndex(p, y, j);
  }

  method MatchSiblings(lib: Strings, ghost spans: Spans, n: Node, parts: seq<Part>, index: nat) returns (matches: bool)
    requires Valid(spans) && n in spans && 0 < index < |parts| && n.kind.ElementNode?
    ensures matches == Continues(lib, spans, n, parts, index, GeneralSibling)
    decreases index, 0
  {
    hide Valid, Assigned, Related;
    PreviousIsThere(spans, n);
    forall a | a in spans && a.kind.ElementNode?
      ensures AtOrBefore(spans, n.previousElement, a) <==> Related(spans, a, n, GeneralSibling)
    {
      BeforeMeaning(spans, n, a);
    }
    AssignedAreElements(lib, spans, parts, index - 1);
    var sibling := n.previousElement;
    while sibling != null
      invariant sibling != null ==> sibling in spans && sibling.kind.ElementNode?
      invariant forall a | a in spans && Related(spans, a, n, GeneralSibling) && Assigned(lib, spans, a, parts, index - 1) ::
        AtOrBefore(spans, sibling, a)
      invariant forall a | a in spans && AtOrBefore(spans, sibling, a) :: AtOrBefore(spans, n.previousElement, a)
      decreases if sibling == null then 0 else spans[sibling].0 + 1
    {
      var found := MatchComplex(lib, spans, sibling, parts, index - 1);
      if found {
        assert AtOrBefore(spans, sibling, sibling);
        return true;
      }
      PreviousIsThere(spans, sibling);
      sibling := sibling.previousElement;
    }
    return false;
  }

  lemma {:induction false} AssignedAreElements(lib: Strings, spans: Spans, parts: seq<Part>, k: nat)
    requires Valid(spans) && k < |parts|
    ensures forall a | a in spans && Assigned(lib, spans, a, parts, k) :: a.kind.ElementNode?
  {}

  /** Elements for the parts up to the k-th, each matching its compound and related to the next. */
  ghost predicate Assignment(lib: Strings, spans: Spans, es: seq<Node>, parts: seq<Part>)
    requires Valid(spans) && |es| <= |parts|
    reads spans.Keys
  {
    && (forall i | 0 <= i < |es| ::
          es[i] in spans && es[i].kind.ElementNode? && (ParentValid(spans, es[i]); CompoundMatches(lib, es[i], parts[i].compound)))
    && forall i, j | 0 <= i < j < |es| && j == i + 1 ::
         es[i] in spans && es[j] in spans && Related(spans, es[i], es[j], parts[j].combinator)
  }

  /** Matching right to left finds exactly the elements that end some assignment of all parts. */
  lemma {:induction false} AssignedIff(lib: Strings, spans: Spans, n: Node, parts: seq<Part>, k: nat)
    requires Valid(spans) && n in spans && k < |parts|
    ensures Assigned(lib, spans, n, parts, k) <==>
      exists es: seq<Node> :: |es| == k + 1 && es[k] == n && Assignment(lib, spans, es, parts)
  {
    hide Valid, Related, CompoundMatches;
    if Assigned(lib, spans, n, parts, k) {
      var es := AssignmentOf(lib, spans, n, parts, k);
    }
    if es: seq<Node> :| |es| == k + 1 && es[k] == n && Assignment(lib, spans, es, parts) {
      AssignmentGives(lib, spans, es, parts, k);
    }
  }

  lemma {:induction false} AssignmentOf(lib: Strings, spans: Spans, n: Node, parts: seq<Part>, k: nat) returns (es: seq<Node>)
    requires Valid(spans) && n in spans && k < |parts| && Assigned(lib, spans, n, parts, k)
    ensures |es| == k + 1 && es[k] == n && Assignment(lib, spans, es, parts)
    decreases k
  {
    hide Valid, Related, CompoundMatches;
    if k == 0 {
      es := [n];
    } else {
      var a :| a in spans && Related(spans, a, n, parts[k].combinator) && Assigned(lib, spans, a, parts, k - 1);
      var front := AssignmentOf(lib, spans, a, parts, k - 1);
      es := front + [n];
    }
  }

  lemma {:induction false} AssignmentGives(lib: Strings, spans: Spans, es: seq<Node>, parts: seq<Part>, k: nat)
    requires Valid(spans) && |es| <= |parts| && Assignment(lib, spans, es, parts) && k < |es|
    ensures es[k] in spans && Assigned(lib, spans, es[k], parts, k)
    decreases k
  {
    hide Valid, Related, CompoundMatches;
    if k > 0 {
      AssignmentGives(lib, spans, es, parts, k - 1);
      assert Related(spans, es[k - 1], es[k], parts[k].combinator);
    }
  }

  /** In a tree, matching a compound selector on the cached positions is matching its simple selectors
      and, as section 6.6.5 defines them, its structural pseudo-classes. */
  lemma {:induction false} CompoundMeaning(lib: Strings, spans: Spans, n: Node, c: Compound) returns (i: nat)
    requires Valid(spans) && n in spans && n.kind.ElementNode? && n.parent != null
    ensures n.parent in spans && i < |n.parent.children| && n.parent.children[i] == n
    ensures CompoundMatches(lib, n, c) <==>
      SimpleHolds(lib, n, c) && forall k | 0 <= k < |c.pseudos| :: Structural(lib, n.parent, i, c.pseudos[k])
  {
    hide SimpleMatches, SimpleHolds, Structural, PseudoMatches;
    SimpleMeaning(lib, n, c);
    i := PlaceOf(spans, n);
    assert NodeValid(spans, n.parent);
    forall k | 0 <= k < |c.pseudos| ensures PseudoMatches(lib, n, c.pseudos[k]) <==> Structural(lib, n.parent, i, c.pseudos[k]) {
      PseudoMeaning(lib, n.parent, i, c.pseudos[k]);
    }
  }
}
