/** QueryLimit and QueryAll of internal/dom/selector.go, and what readOutputField makes of them. */
module Querying {
  import opened Dom
  import opened Selectors
  import opened Matching

  // ---------- document order ----------

  /** The elements below the children of n from the i-th on, in document order. */
  ghost function BelowFrom(spans: Spans, n: Node, i: nat): (r: seq<Node>)
    requires Valid(spans) && n in spans && i <= |n.children|
    reads spans.Keys
    ensures forall x | x in r :: x in spans
    decreases spans[n].1 - spans[n].0, |n.children| - i
  {
    if i == |n.children| then [] else
    assert NodeValid(spans, n);
    var c := n.children[i];
    assert NodeValid(spans, c);
    (if c.kind.ElementNode? then [c] + BelowFrom(spans, c, 0) else []) + BelowFrom(spans, n, i + 1)
  }

  /** All element descendants. */
  ghost function Below(spans: Spans, n: Node): (r: seq<Node>)
    requires Valid(spans) && n in spans
    reads spans.Keys
    ensures forall x | x in r :: x in spans
  {
    BelowFrom(spans, n, 0)
  }

  /** Every node begins after the one before it. */
  predicate Ordered(spans: Spans, nodes: seq<Node>) {
    (forall x | x in nodes :: x in spans) &&
    forall i, j | 0 <= i < j < |nodes| :: spans[nodes[i]].0 < spans[nodes[j]].0
  }

  /** The descendants come in document order, so none comes twice. */
  lemma {:induction false} BelowIsOrdered(spans: Spans, n: Node, i: nat)
    requires Valid(spans) && n in spans && i <= |n.children|
    ensures Ordered(spans, BelowFrom(spans, n, i))
    ensures forall x | x in BelowFrom(spans, n, i) ::
      spans[n].0 < spans[x].0 <= spans[n].1 && (i < |n.children| && n.children[i] in spans ==> spans[n.children[i]].0 <= spans[x].0)
    decreases spans[n].1 - spans[n].0, |n.children| - i
  {
    hide Node.Indexed;
    if i < |n.children| {
      assert NodeValid(spans, n);
      var c := n.children[i];
      assert NodeValid(spans, c);
      BelowIsOrdered(spans, n, i + 1);
      if i + 1 < |n.children| {
        assert spans[c].1 < spans[n.children[i + 1]].0;
      }
      if c.kind.ElementNode? {
        BelowIsOrdered(spans, c, 0);
        Follows(spans, c, BelowFrom(spans, c, 0), BelowFrom(spans, n, i + 1));
      }
    }
  }

  lemma {:induction false} Follows(spans: Spans, c: Node, inside: seq<Node>, after: seq<Node>)
    requires c in spans && Ordered(spans, inside) && Ordered(spans, after)
    requires forall x | x in inside :: spans[c].0 < spans[x].0 <= spans[c].1
    requires forall x | x in after :: spans[c].1 < spans[x].0 && spans[c].0 < spans[x].0
    ensures Ordered(spans, [c] + inside + after)
  {
    var all := [c] + inside + after;
    forall i, j | 0 <= i < j < |all| ensures spans[all[i]].0 < spans[all[j]].0 {
      var m := 1 + |inside|;
      if i == 0 {
        assert all[j] in inside || all[j] in after;
      } else if j < m {
        assert all[i] == inside[i - 1] && all[j] == inside[j - 1];
      } else if i < m {
        assert all[i] in inside && all[j] in after;
      } else {
        assert all[i] == after[i - m] && all[j] == after[j - m];
      }
    }
  }

  // ---------- the matches ----------

  /** Some group of the selector list matches. */
  ghost predicate Selects(lib: Strings, spans: Spans, n: Node, groups: seq<seq<Part>>)
    requires Valid(spans) && n in spans
    reads spans.Keys
  {
    exists g | 0 <= g < |groups| :: groups[g] != [] && Assigned(lib, spans, n, groups[g], |groups[g]| - 1)
  }

  ghost function Hits(lib: Strings, spans: Spans, nodes: seq<Node>, groups: seq<seq<Part>>): seq<Node>
    requires Valid(spans) && forall x | x in nodes :: x in spans
    reads spans.Keys
  {
    if nodes == [] then []
    else (if Selects(lib, spans, nodes[0], groups) then [nodes[0]] else []) + Hits(lib, spans, nodes[1..], groups)
  }

  lemma {:induction false} HitsMeaning(lib: Strings, spans: Spans, nodes: seq<Node>, groups: seq<seq<Part>>, x: Node)
    requires Valid(spans) && forall x | x in nodes :: x in spans
    ensures x in Hits(lib, spans, nodes, groups) <==> x in nodes && Selects(lib, spans, x, groups)
  {
    hide Valid, Selects;
    if nodes != [] {
      HitsMeaning(lib, spans, nodes[1..], groups, x);
    }
  }

  lemma {:induction false} HitsAreOrdered(lib: Strings, spans: Spans, nodes: seq<Node>, groups: seq<seq<Part>>)
    requires Valid(spans) && Ordered(spans, nodes)
    ensures Ordered(spans, Hits(lib, spans, nodes, groups))
  {
    hide Valid, Selects;
    if nodes != [] {
      HitsAreOrdered(lib, spans, nodes[1..], groups);
      forall x | x in Hits(lib, spans, nodes[1..], groups) ensures spans[nodes[0]].0 < spans[x].0 {
        HitsMeaning(lib, spans, nodes[1..], groups, x);
        var k :| 0 <= k < |nodes[1..]| && nodes[1..][k] == x;
        assert nodes[k + 1] == x;
      }
    }
  }

  lemma {:induction false} HitsJoin(lib: Strings, spans: Spans, a: seq<Node>, b: seq<Node>, groups: seq<seq<Part>>)
    requires Valid(spans) && (forall x | x in a :: x in spans) && (forall x | x in b :: x in spans)
    ensures Hits(lib, spans, a + b, groups) == Hits(lib, spans, a, groups) + Hits(lib, spans, b, groups)
  {
    hide Valid, Selects, Hits;
    NoHits(lib, spans, groups);
    if a == [] {
      assert a + b == b;
    } else {
      assert (a + b)[1..] == a[1..] + b && (a + b)[0] == a[0];
      HitsJoin(lib, spans, a[1..], b, groups);
      FirstHit(lib, spans, a, groups);
      FirstHit(lib, spans, a + b, groups);
    }
  }

  lemma {:induction false} FirstHit(lib: Strings, spans: Spans, nodes: seq<Node>, groups: seq<seq<Part>>)
    requires Valid(spans) && (forall x | x in nodes :: x in spans) && nodes != []
    ensures Hits(lib, spans, nodes, groups) ==
      (if Selects(lib, spans, nodes[0], groups) then [nodes[0]] else []) + Hits(lib, spans, nodes[1..], groups)
  {
    hide Valid, Selects;
  }

  /** The first `limit` items, or all when there is no limit. */
  function Take<T>(items: seq<T>, limit: int): seq<T> {
    if 0 < limit < |items| then items[..limit] else items
  }

  // ---------- the query ----------

  class Query {
    const lib: Strings
    const groups: seq<seq<Part>>
    const limit: int
    var seen: set<Node>
    var result: seq<Node>

    constructor (lib: Strings, groups: seq<seq<Part>>, limit: int)
      ensures this.lib == lib && this.groups == groups && this.limit == limit
      ensures seen == {} && result == []
    {
      this.lib, this.groups, this.limit := lib, groups, limit;
      seen, result := {}, [];
    }

    ghost predicate Consistent()
      reads this
    {
      seen == (set x | x in result) && (limit > 0 ==> |result| <= limit)
    }

    ghost predicate Full()
      reads this
    {
      limit > 0 && |result| >= limit
    }

    /** Neither the node nor anything below it has been seen, nor is it below itself. */
    ghost predicate NotSeen(spans: Spans, n: Node)
      requires Valid(spans) && n in spans
      reads this`seen, spans.Keys
    {
      n !in seen && n !in Below(spans, n) && forall x | x in Below(spans, n) :: x !in seen
    }

    method SelectsNode(ghost spans: Spans, n: Node) returns (found: bool)
      requires Valid(spans) && n in spans
      ensures found == Selects(lib, spans, n, groups)
    {
      hide Valid, Assigned;
      for g := 0 to |groups|
        invariant forall k | 0 <= k < g :: !(groups[k] != [] && Assigned(lib, spans, n, groups[k], |groups[k]| - 1))
      {
        var matches := MatchComplex(lib, spans, n, groups[g], |groups[g]| - 1);
        if matches {
          return true;
        }
      }
      return false;
    }

    /** Records a match; true when the limit is reached. */
    method Visit(ghost spans: Spans, child: Node) returns (full: bool)
      requires Valid(spans) && child in spans && Consistent() && !Full() && child !in seen
      modifies this`seen, this`result
      ensures Consistent() && full == Full() && (seen == old(seen) || seen == old(seen) + {child})
      ensures result == old(result) + Hits(lib, spans, [child], groups)
    {
      hide Valid, Selects;
      NoHits(lib, spans, groups);
      var selected := SelectsNode(spans, child);
      assert [child][1..] == [];
      if selected && child !in seen {
        seen := seen + {child};
        result := result + [child];
      }
      return limit > 0 && |result| >= limit;
    }

    /** An element child and what is below it; true when that stopped early. */
    method WalkChild(ghost spans: Spans, child: Node) returns (stopped: bool)
      requires Valid(spans) && child in spans && Consistent() && !Full()
      requires NotSeen(spans, child)
      modifies this`seen, this`result
      ensures Consistent() && stopped == Full()
      ensures result == Take(old(result) + Hits(lib, spans, [child] + Below(spans, child), groups), limit)
      ensures forall x | x in seen && x !in old(seen) :: x == child || x in Below(spans, child)
      decreases spans[child].1 - spans[child].0, 1
    {
      hide Valid, Hits, BelowFrom;
      ghost var below := Below(spans, child);
      ghost var all := old(result) + Hits(lib, spans, [child] + below, groups);
      HitsJoin(lib, spans, [child], below, groups);
      HitsMeaning(lib, spans, [child], groups, child);
      stopped := Visit(spans, child);
      assert all == result + Hits(lib, spans, below, groups);
      if stopped {
        TakeFull(result, Hits(lib, spans, below, groups), limit);
        return;
      }
      stopped := Walk(spans, child);
    }

    /** The recursive walk; true when it stopped early. */
    method Walk(ghost spans: Spans, n: Node) returns (stopped: bool)
      requires Valid(spans) && n in spans && Consistent() && !Full()
      requires forall x | x in Below(spans, n) :: x !in seen
      modifies this`seen, this`result
      ensures Consistent() && stopped == Full()
      ensures result == Take(old(result) + Hits(lib, spans, Below(spans, n), groups), limit)
      ensures forall x | x in seen && x !in old(seen) :: x in Below(spans, n)
      decreases spans[n].1 - spans[n].0, 0
    {
      hide Valid, Hits, Ordered, BelowFrom;
      ghost var all := BelowFrom(spans, n, 0);
      ghost var done: seq<Node> := [];
      NoHits(lib, spans, groups);
      for i := 0 to |n.children|
        invariant Consistent() && !Full() && forall x | x in done :: x in spans
        invariant all == done + BelowFrom(spans, n, i)
        invariant result == old(result) + Hits(lib, spans, done, groups)
        invariant forall x | x in BelowFrom(spans, n, i) :: x !in seen
        invariant forall x | x in seen && x !in old(seen) :: x in done
      {
        var child := n.children[i];
        ghost var rest := BelowFrom(spans, n, i + 1);
        ChildIsThere(spans, n, i);
        NextBelow(spans, n, i);
        if child.kind.ElementNode? {
          ghost var family := [child] + Below(spans, child);
          ghost var before := result;
          stopped := WalkChild(spans, child);
          HitsJoin(lib, spans, done, family, groups);
          assert all == (done + family) + rest;
          assert before + Hits(lib, spans, family, groups) == old(result) + Hits(lib, spans, done + family, groups);
          if stopped {
            HitsJoin(lib, spans, done + family, rest, groups);
            StoppedShort(old(result) + Hits(lib, spans, done + family, groups), Hits(lib, spans, rest, groups), limit, result);
            assert old(result) + Hits(lib, spans, all, groups) == old(result) + Hits(lib, spans, done + family, groups) + Hits(lib, spans, rest, groups);
            return;
          }
          TakeAll(before + Hits(lib, spans, family, groups), limit, result);
          done := done + family;
        }
      }
      AllDone(spans, n);
      assert done + [] == done;
      TakeWhole(result, limit);
      return false;
    }
  }

  lemma {:induction false} AllDone(spans: Spans, n: Node)
    requires Valid(spans) && n in spans
    ensures BelowFrom(spans, n, |n.children|) == []
  {}

  /** The list of the i-th child on, taken apart: its parts have nothing in common. */
  lemma {:induction false} NextBelow(spans: Spans, n: Node, i: nat)
    requires Valid(spans) && n in spans && i < |n.children|
    ensures n.children[i] in spans
    ensures var c, rest := n.children[i], BelowFrom(spans, n, i + 1);
      if c.kind.ElementNode? then
        && BelowFrom(spans, n, i) == ([c] + Below(spans, c)) + rest
        && c !in Below(spans, c) && c !in rest && forall x | x in Below(spans, c) :: x !in rest
      else BelowFrom(spans, n, i) == rest
  {
    hide Valid, Ordered;
    ChildIsThere(spans, n, i);
    var c := n.children[i];
    BelowIsOrdered(spans, n, i);
    if c.kind.ElementNode? {
      Apart(spans, c, Below(spans, c), BelowFrom(spans, n, i + 1));
    } else {
      assert [] + BelowFrom(spans, n, i + 1) == BelowFrom(spans, n, i + 1);
    }
  }

  lemma {:induction false} TakeFull<T>(items: seq<T>, more: seq<T>, limit: int)
    requires limit > 0 && |items| == limit
    ensures Take(items + more, limit) == items
  {}

  lemma {:induction false} StoppedShort<T>(items: seq<T>, more: seq<T>, limit: int, result: seq<T>)
    requires limit > 0 && result == Take(items, limit) && |result| >= limit
    ensures Take(items + more, limit) == result
  {}

  lemma {:induction false} TakeAll<T>(items: seq<T>, limit: int, result: seq<T>)
    requires result == Take(items, limit) && !(limit > 0 && |result| >= limit)
    ensures result == items
  {}

  lemma {:induction false} TakeWhole<T>(items: seq<T>, limit: int)
    requires limit > 0 ==> |items| <= limit
    ensures Take(items, limit) == items
  {}

  lemma {:induction false} NoHits(lib: Strings, spans: Spans, groups: seq<seq<Part>>)
    requires Valid(spans)
    ensures Hits(lib, spans, [], groups) == []
  {}

  lemma {:induction false} ChildIsThere(spans: Spans, n: Node, i: nat)
    requires Valid(spans) && n in spans && i < |n.children|
    ensures var c := n.children[i]; c in spans && spans[n].0 < spans[c].0 && spans[c].1 <= spans[n].1 && spans[c].0 <= spans[c].1
  {
    hide Node.Indexed;
    assert NodeValid(spans, n);
    assert NodeValid(spans, n.children[i]);
  }

  /** In an ordered list the parts have nothing in common. */
  lemma {:induction false} Apart(spans: Spans, c: Node, inside: seq<Node>, rest: seq<Node>)
    requires Ordered(spans, [c] + inside + rest)
    ensures c !in inside && c !in rest && forall x | x in inside :: x !in rest
  {
    var all := [c] + inside + rest;
    assert c == all[0];
    forall k | 0 <= k < |inside| ensures inside[k] == all[1 + k] {}
    forall k | 0 <= k < |rest| ensures rest[k] == all[1 + |inside| + k] {}
  }

  /** QueryLimit: the first `limit` matching descendants in document order, or all of them. */
  method QueryLimit(lib: Strings, ghost spans: Spans, root: Node?, groups: seq<seq<Part>>, limit: int) returns (result: seq<Node>)
    requires Valid(spans) && (root != null ==> root in spans)
    ensures result == if root == null then [] else Take(Hits(lib, spans, Below(spans, root), groups), limit)
  {
    hide Valid, Hits, BelowFrom;
    if root == null {
      return [];
    }
    var query := new Query(lib, groups, limit);
    var _ := query.Walk(spans, root);
    assert [] + Hits(lib, spans, Below(spans, root), groups) == Hits(lib, spans, Below(spans, root), groups);
    return query.result;
  }

  ghost predicate Rises(n: Node, p: Node)
    reads n
  {
    n.kind.ElementNode? && n.parent == p
  }

  /** From a node up to one above it, by elements. */
  ghost predicate IsDescent(line: seq<Node>, x: Node, n: Node)
    reads line
  {
    |line| >= 2 && line[0] == x && line[|line| - 1] == n && forall k | 0 <= k < |line| - 1 :: Rises(line[k], line[k + 1])
  }

  lemma {:induction false} DescentGrows(line: seq<Node>, x: Node, c: Node, n: Node)
    requires IsDescent(line, x, c) && Rises(c, n)
    ensures IsDescent(line + [n], x, n)
  {
    var longer := line + [n];
    forall k | 0 <= k < |longer| - 1 ensures Rises(longer[k], longer[k + 1]) {
      assert longer[k] == line[k];
      if k + 1 < |line| {
        assert Rises(line[k], line[k + 1]);
      }
    }
  }

  lemma {:induction false} DescentShrinks(line: seq<Node>, x: Node, n: Node)
    requires IsDescent(line, x, n) && |line| > 2
    ensures IsDescent(line[..|line| - 1], x, line[|line| - 2])
  {
    var front := line[..|line| - 1];
    forall k | 0 <= k < |front| - 1 ensures Rises(front[k], front[k + 1]) {
      assert Rises(line[k], line[k + 1]);
    }
  }

  /** The node is an element child, or below one. */
  ghost predicate UnderChild(spans: Spans, n: Node, i: nat, x: Node)
    requires Valid(spans) && n in spans
    reads spans.Keys
  {
    i < |n.children| && n.children[i] in spans && Rises(n.children[i], n) &&
      (x == n.children[i] || x in Below(spans, n.children[i]))
  }

  lemma {:induction false} BelowFromMeaning(spans: Spans, n: Node, i: nat, x: Node)
    requires Valid(spans) && n in spans && i <= |n.children|
    ensures x in BelowFrom(spans, n, i) <==> exists j: nat :: i <= j < |n.children| && UnderChild(spans, n, j, x)
    decreases |n.children| - i
  {
    hide Valid, BelowFrom;
    if i < |n.children| {
      BelowFromMeaning(spans, n, i + 1, x);
      NextBelow(spans, n, i);
      ChildRises(spans, n, i);
      assert x in BelowFrom(spans, n, i) <==> UnderChild(spans, n, i, x) || x in BelowFrom(spans, n, i + 1);
    } else {
      AllDone(spans, n);
    }
  }

  lemma {:induction false} ChildRises(spans: Spans, n: Node, i: nat)
    requires Valid(spans) && n in spans && i < |n.children|
    ensures n.children[i] in spans && n.children[i].parent == n
    ensures n.children[i].kind.ElementNode? <==> Rises(n.children[i], n)
  {
    hide BelowFrom, Node.Indexed, Spaced;
    ChildIsThere(spans, n, i);
    assert NodeValid(spans, n);
    ParentIs(n, i);
  }

  lemma {:induction false} RisesFromChild(spans: Spans, n: Node, c: Node)
    requires Valid(spans) && n in spans && c in spans && Rises(c, n)
    ensures exists i: nat :: i < |n.children| && n.children[i] == c
  {
    hide BelowFrom, Node.Indexed, Spaced;
    assert NodeValid(spans, c);
  }

  /** The elements below a node are those that lead up to it by elements. */
  lemma {:induction false} BelowMeaning(spans: Spans, n: Node, x: Node)
    requires Valid(spans) && n in spans && x in spans
    ensures x in Below(spans, n) <==> exists line: seq<Node> :: IsDescent(line, x, n)
    decreases spans[n].1 - spans[n].0, 1
  {
    hide Valid, BelowFrom, IsDescent, UnderChild;
    BelowFromMeaning(spans, n, 0, x);
    forall i: nat | i < |n.children| && UnderChild(spans, n, i, x) ensures exists line: seq<Node> :: IsDescent(line, x, n) {
      ChildLeadsUp(spans, n, i, x);
    }
    forall line: seq<Node> | IsDescent(line, x, n) ensures exists i: nat :: 0 <= i < |n.children| && UnderChild(spans, n, i, x) {
      LineLeadsDown(spans, n, line, x);
    }
  }

  lemma {:induction false} ChildLeadsUp(spans: Spans, n: Node, i: nat, x: Node)
    requires Valid(spans) && n in spans && x in spans && i < |n.children| && UnderChild(spans, n, i, x)
    ensures exists line: seq<Node> :: IsDescent(line, x, n)
    decreases spans[n].1 - spans[n].0, 0
  {
    hide Valid, BelowFrom;
    var c := n.children[i];
    ChildIsThere(spans, n, i);
    if x == c {
      assert IsDescent([x, n], x, n);
    } else {
      BelowMeaning(spans, c, x);
      var line: seq<Node> :| IsDescent(line, x, c);
      DescentGrows(line, x, c, n);
    }
  }

  lemma {:induction false} LineLeadsDown(spans: Spans, n: Node, line: seq<Node>, x: Node)
    requires Valid(spans) && n in spans && x in spans && IsDescent(line, x, n)
    ensures exists i: nat :: 0 <= i < |n.children| && UnderChild(spans, n, i, x)
    decreases spans[n].1 - spans[n].0, 0
  {
    hide Valid, BelowFrom;
    var c := line[|line| - 2];
    assert Rises(line[|line| - 2], line[|line| - 1]);
    LineStays(spans, line, x, n, |line| - 2);
    RisesFromChild(spans, n, c);
    var i: nat :| i < |n.children| && n.children[i] == c;
    ChildIsThere(spans, n, i);
    if |line| > 2 {
      DescentShrinks(line, x, n);
      BelowMeaning(spans, c, x);
    }
    assert UnderChild(spans, n, i, x);
  }

  lemma {:induction false} LineStays(spans: Spans, line: seq<Node>, x: Node, n: Node, k: nat)
    requires Valid(spans) && IsDescent(line, x, n) && x in spans && k < |line|
    ensures line[k] in spans
  {
    hide BelowFrom, Node.Indexed;
    if k > 0 {
      LineStays(spans, line, x, n, k - 1);
      assert NodeValid(spans, line[k - 1]);
      assert Rises(line[k - 1], line[k - 1 + 1]);
    }
  }

  // ---------- what a field makes of its matches ----------

  datatype Verdict<+T> = Missing | Ambiguous | Unique(found: T)

  function VerdictOf<T>(mode: string, matches: seq<T>): Verdict<T> {
    if matches == [] then Missing else if mode == "one" && |matches| != 1 then Ambiguous else Unique(matches[0])
  }

  function LimitOf(mode: string): int {
    if mode == "one" then 2 else 1
  }

  /** Looking for one match, or for two when there must be one, decides as looking for all does. */
  lemma {:induction false} LimitsSuffice<T>(mode: string, all: seq<T>)
    ensures VerdictOf(mode, Take(all, LimitOf(mode))) == VerdictOf(mode, all)
    ensures LimitOf(mode) > 0 && (mode != "one" || LimitOf(mode) > 1)
    ensures VerdictOf(mode, all) == Missing <==> all == []
    ensures VerdictOf(mode, all) == Ambiguous <==> mode == "one" && |all| > 1
    ensures forall x :: VerdictOf(mode, all) == Unique(x) <==> all != [] && all[0] == x && (mode == "one" ==> |all| == 1)
  {}

  /** The selection of readOutputField. */
  method SelectElement(lib: Strings, ghost spans: Spans, scope: Node, groups: seq<seq<Part>>, mode: string) returns (verdict: Verdict<Node>)
    requires Valid(spans) && scope in spans
    ensures verdict == VerdictOf(mode, Hits(lib, spans, Below(spans, scope), groups))
  {
    hide Valid, Hits, Below, Take;
    var matches := QueryLimit(lib, spans, scope, groups, LimitOf(mode));
    LimitsSuffice(mode, Hits(lib, spans, Below(spans, scope), groups));
    if |matches| == 0 {
      return Missing;
    }
    if mode == "one" && |matches| != 1 {
      return Ambiguous;
    }
    return Unique(matches[0]);
  }

  /** An unlimited query finds exactly the descendants that some group selects, each once and in
      document order. */
  lemma {:induction false} QueryAllIsExact(lib: Strings, spans: Spans, root: Node, groups: seq<seq<Part>>)
    requires Valid(spans) && root in spans
    ensures var hits := Hits(lib, spans, Below(spans, root), groups);
      && Ordered(spans, hits) && Take(hits, 0) == hits
      && forall x :: x in hits <==> x in Below(spans, root) && Selects(lib, spans, x, groups)
  {
    hide Valid, Hits, BelowFrom, Selects;
    BelowIsOrdered(spans, root, 0);
    HitsAreOrdered(lib, spans, Below(spans, root), groups);
    forall x ensures x in Hits(lib, spans, Below(spans, root), groups) <==> x in Below(spans, root) && Selects(lib, spans, x, groups) {
      HitsMeaning(lib, spans, Below(spans, root), groups, x);
    }
  }
}
