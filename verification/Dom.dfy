/** The mutable tree of internal/dom/node.go with its cached positions, and the one-pass positions
    of packages/scrape-kdl/src/dom.ts. */
module Dom {

  datatype Kind = DocumentNode | ElementNode | TextNode | CommentNode

  class Node {
    const kind: Kind
    const tag: string
    const data: string
    const attrs: map<string, string>
    var parent: Node?
    var children: seq<Node>
    var previousElement: Node?
    var lastElement: Node?
    var elementIndex: nat
    var typeIndex: nat
    var elementCount: nat
    var typeCounts: map<string, nat>

    constructor (kind: Kind, tag: string, data: string, attrs: map<string, string>)
      ensures this.kind == kind && this.tag == tag && this.data == data && this.attrs == attrs
      ensures Detached() && children == [] && Indexed()
    {
      this.kind, this.tag, this.data, this.attrs := kind, tag, data, attrs;
      parent, children, previousElement, lastElement := null, [], null, null;
      elementIndex, typeIndex, elementCount, typeCounts := 0, 0, 0, map[];
    }

    ghost predicate Detached()
      reads this
    {
      parent == null && previousElement == null && elementIndex == 0 && typeIndex == 0
    }

    /** Every cached position is what it stands for: a count of children. */
    ghost predicate Indexed()
      reads this`children, this`lastElement, this`elementCount, this`typeCounts, children
    {
      && elementCount == |Elements(children)|
      && (forall t :: Count(typeCounts, t) == |OfType(children, t)|)
      && lastElement == Last(Elements(children))
      && (forall i, j | 0 <= i < j < |children| :: children[i] != children[j])
      && forall i | 0 <= i < |children| :: ChildIndexed(i)
    }

    ghost predicate ChildIndexed(i: nat)
      requires i < |children|
      reads this`children, children
    {
      PlacedAfter(this, children[i], children[..i])
    }

    /** appendChild. */
    method AppendChild(child: Node)
      requires Indexed() && child.Detached() && child != this && child !in children
      modifies this`children, this`lastElement, this`elementCount, this`typeCounts
      modifies child`parent, child`previousElement, child`elementIndex, child`typeIndex
      ensures Indexed() && children == old(children) + [child] && child.parent == this
    {
      hide Elements, OfType, PlacedAfter;
      child.parent := this;
      ElementsSnoc(children, child);
      if child.kind.ElementNode? {
        child.previousElement := lastElement;
        lastElement := child;
        elementCount := elementCount + 1;
        child.elementIndex := elementCount;
        typeCounts := typeCounts[child.tag := Count(typeCounts, child.tag) + 1];
        child.typeIndex := typeCounts[child.tag];
      }
      ghost var before := children;
      children := children + [child];
      forall t ensures Count(typeCounts, t) == |OfType(children, t)| {
        OfTypeSnoc(before, child, t);
      }
      NewlyPlaced(this, child, before);
      forall i | 0 <= i < |children| ensures ChildIndexed(i) {
        if i < |before| {
          assert old(ChildIndexed(i));
          assert before[i] != child && before[..i] == old(children[..i]);
          assert PlacedAfter(this, before[i], before[..i]);
          assert children[..i] == before[..i];
        } else {
          assert children[..i] == before;
        }
      }
    }

    /** IsEmpty: no element and no text but the empty one. */
    method IsEmpty() returns (empty: bool)
      ensures empty == HasNoContent()
    {
      for i := 0 to |children|
        invariant forall k | 0 <= k < i :: !children[k].kind.ElementNode? && (children[k].kind.TextNode? ==> children[k].data == "")
      {
        if children[i].kind.ElementNode? {
          return false;
        }
        if children[i].kind.TextNode? && children[i].data != "" {
          return false;
        }
      }
      return true;
    }

    predicate HasNoContent()
      reads this
    {
      forall k | 0 <= k < |children| :: !children[k].kind.ElementNode? && (children[k].kind.TextNode? ==> children[k].data == "")
    }
  }

  /** A child of p remembers its parent, and an element what comes before it. */
  ghost predicate PlacedAfter(p: Node, c: Node, before: seq<Node>)
    reads c`parent, c`elementIndex, c`typeIndex, c`previousElement
  {
    c.parent == p && (c.kind.ElementNode? ==>
      && c.elementIndex == |Elements(before)| + 1
      && c.typeIndex == |OfType(before, c.tag)| + 1
      && c.previousElement == Last(Elements(before)))
  }

  lemma {:induction false} NewlyPlaced(p: Node, c: Node, before: seq<Node>)
    requires c.parent == p
    requires c.kind.ElementNode? ==> c.elementIndex == |Elements(before)| + 1 && c.typeIndex == |OfType(before, c.tag)| + 1
    requires c.kind.ElementNode? ==> c.previousElement == Last(Elements(before))
    ensures PlacedAfter(p, c, before)
  {}

  function Count(counts: map<string, nat>, t: string): nat {
    if t in counts then counts[t] else 0
  }

  function Last(nodes: seq<Node>): Node? {
    if nodes == [] then null else nodes[|nodes| - 1]
  }

  /** The element nodes among the children, in order. */
  function Elements(nodes: seq<Node>): (r: seq<Node>)
    ensures forall n | n in r :: n in nodes && n.kind.ElementNode?
  {
    if nodes == [] then [] else
    var last := nodes[|nodes| - 1];
    Elements(nodes[..|nodes| - 1]) + if last.kind.ElementNode? then [last] else []
  }

  /** The elements of one tag. */
  function OfType(nodes: seq<Node>, t: string): (r: seq<Node>)
    ensures forall n | n in r :: n in nodes && n.kind.ElementNode? && n.tag == t
  {
    if nodes == [] then [] else
    var last := nodes[|nodes| - 1];
    OfType(nodes[..|nodes| - 1], t) + if last.kind.ElementNode? && last.tag == t then [last] else []
  }

  lemma {:induction false} ElementsSnoc(nodes: seq<Node>, n: Node)
    ensures Elements(nodes + [n]) == Elements(nodes) + if n.kind.ElementNode? then [n] else []
  {
    assert (nodes + [n])[..|nodes|] == nodes;
  }

  lemma {:induction false} OfTypeSnoc(nodes: seq<Node>, n: Node, t: string)
    ensures OfType(nodes + [n], t) == OfType(nodes, t) + if n.kind.ElementNode? && n.tag == t then [n] else []
  {
    assert (nodes + [n])[..|nodes|] == nodes;
  }

  lemma {:induction false} NoNodes()
    ensures Elements([]) == [] && forall t :: OfType([], t) == []
  {}

  lemma {:induction false} ElementsJoin(a: seq<Node>, b: seq<Node>)
    ensures Elements(a + b) == Elements(a) + Elements(b)
  {
    hide Elements;
    NoNodes();
    if b == [] {
      assert a + b == a;
    } else {
      var front, last := b[..|b| - 1], b[|b| - 1];
      assert a + b == (a + front) + [last] && b == front + [last];
      ElementsSnoc(a + front, last);
      ElementsSnoc(front, last);
      ElementsJoin(a, front);
    }
  }

  lemma {:induction false} OfTypeJoin(a: seq<Node>, b: seq<Node>, t: string)
    ensures OfType(a + b, t) == OfType(a, t) + OfType(b, t)
  {
    hide OfType;
    NoNodes();
    if b == [] {
      assert a + b == a;
    } else {
      var front, last := b[..|b| - 1], b[|b| - 1];
      assert a + b == (a + front) + [last] && b == front + [last];
      OfTypeSnoc(a + front, last, t);
      OfTypeSnoc(front, last, t);
      OfTypeJoin(a, front, t);
    }
  }

  // ---------- the one-pass metadata of the TypeScript engine ----------

  datatype Metadata = Metadata(
    elements: seq<Node>, indexes: map<Node, nat>, typeIndexes: map<Node, nat>, typeCounts: map<string, nat>)

  /** The elements whose lower-cased tag is `t`. */
  function OfLower(lower: string -> string, nodes: seq<Node>, t: string): seq<Node> {
    if nodes == [] then [] else
    var last := nodes[|nodes| - 1];
    OfLower(lower, nodes[..|nodes| - 1], t) + if last.kind.ElementNode? && lower(last.tag) == t then [last] else []
  }

  /** What the metadata of a list of children says: positions among all elements, and among those of
      the same lower-cased tag. */
  ghost predicate Describes(m: Metadata, lower: string -> string, nodes: seq<Node>) {
    && m.elements == Elements(nodes)
    && m.indexes.Keys == (set n | n in nodes && n.kind.ElementNode?) && m.typeIndexes.Keys == m.indexes.Keys
    && (forall i | 0 <= i < |nodes| && nodes[i].kind.ElementNode? :: ElementDescribed(m, lower, nodes, i))
    && forall t :: Count(m.typeCounts, t) == |OfLower(lower, nodes, t)|
  }

  predicate ElementDescribed(m: Metadata, lower: string -> string, nodes: seq<Node>, i: nat)
    requires i < |nodes|
  {
    && nodes[i] in m.indexes && m.indexes[nodes[i]] == |Elements(nodes[..i])| + 1
    && nodes[i] in m.typeIndexes && m.typeIndexes[nodes[i]] == |OfLower(lower, nodes[..i], lower(nodes[i].tag))| + 1
  }

  /** metadataFor, for a parent with these children. */
  method MetadataFor(lower: string -> string, nodes: seq<Node>) returns (m: Metadata)
    requires forall i, j | 0 <= i < j < |nodes| :: nodes[i] != nodes[j]
    ensures Describes(m, lower, nodes)
  {
    hide Describes;
    m := Metadata([], map[], map[], map[]);
    NoMetadata(lower);
    assert nodes[..0] == [];
    for i := 0 to |nodes|
      invariant Describes(m, lower, nodes[..i])
    {
      var n := nodes[i];
      assert nodes[..i + 1] == nodes[..i] + [n];
      OneMoreDescribed(m, lower, nodes[..i], n);
      if n.kind.ElementNode? {
        var typeIndex := Count(m.typeCounts, lower(n.tag)) + 1;
        m := Metadata(m.elements + [n], m.indexes[n := |m.elements| + 1], m.typeIndexes[n := typeIndex], m.typeCounts[lower(n.tag) := typeIndex]);
      }
    }
    assert nodes[..|nodes|] == nodes;
  }

  lemma {:induction false} NoMetadata(lower: string -> string)
    ensures Describes(Metadata([], map[], map[], map[]), lower, [])
  {}

  lemma {:induction false} OneMoreDescribed(m: Metadata, lower: string -> string, nodes: seq<Node>, n: Node)
    requires Describes(m, lower, nodes) && n !in nodes
    ensures var typeIndex := Count(m.typeCounts, lower(n.tag)) + 1;
      Describes(if n.kind.ElementNode? then Metadata(m.elements + [n], m.indexes[n := |m.elements| + 1],
        m.typeIndexes[n := typeIndex], m.typeCounts[lower(n.tag) := typeIndex]) else m, lower, nodes + [n])
  {
    hide Elements, OfLower, ElementDescribed;
    ElementsSnoc(nodes, n);
    var more := nodes + [n];
    forall t ensures OfLower(lower, more, t) == OfLower(lower, nodes, t) + if n.kind.ElementNode? && lower(n.tag) == t then [n] else [] {
      OfLowerSnoc(lower, nodes, n, t);
    }
    var typeIndex := Count(m.typeCounts, lower(n.tag)) + 1;
    var next := if n.kind.ElementNode? then Metadata(m.elements + [n], m.indexes[n := |m.elements| + 1],
        m.typeIndexes[n := typeIndex], m.typeCounts[lower(n.tag) := typeIndex]) else m;
    forall i | 0 <= i < |more| && more[i].kind.ElementNode? ensures ElementDescribed(next, lower, more, i) {
      StillDescribed(m, lower, nodes, n, i);
    }
  }

  lemma {:induction false} StillDescribed(m: Metadata, lower: string -> string, nodes: seq<Node>, n: Node, i: nat)
    requires Describes(m, lower, nodes) && n !in nodes && i <= |nodes| && (nodes + [n])[i].kind.ElementNode?
    ensures var typeIndex := Count(m.typeCounts, lower(n.tag)) + 1;
      ElementDescribed(if n.kind.ElementNode? then Metadata(m.elements + [n], m.indexes[n := |m.elements| + 1],
        m.typeIndexes[n := typeIndex], m.typeCounts[lower(n.tag) := typeIndex]) else m, lower, nodes + [n], i)
  {
    hide Elements, OfLower;
    var more := nodes + [n];
    assert more[..i] == nodes[..i];
    if i < |nodes| {
      assert ElementDescribed(m, lower, nodes, i);
    } else {
      assert nodes[..i] == nodes;
    }
  }

  lemma {:induction false} OfLowerSnoc(lower: string -> string, nodes: seq<Node>, n: Node, t: string)
    ensures OfLower(lower, nodes + [n], t) == OfLower(lower, nodes, t) + if n.kind.ElementNode? && lower(n.tag) == t then [n] else []
  {
    assert (nodes + [n])[..|nodes|] == nodes;
  }

  /** Lower-casing keeps the tags of these children apart. */
  predicate TellsApart(lower: string -> string, nodes: seq<Node>) {
    forall i, j | 0 <= i < |nodes| && 0 <= j < |nodes| && nodes[i].kind.ElementNode? && nodes[j].kind.ElementNode? ::
      lower(nodes[i].tag) == lower(nodes[j].tag) ==> nodes[i].tag == nodes[j].tag
  }

  lemma {:induction false} SameTypes(lower: string -> string, nodes: seq<Node>, i: nat, n: Node)
    requires i <= |nodes| && n in nodes && n.kind.ElementNode? && TellsApart(lower, nodes)
    ensures OfLower(lower, nodes[..i], lower(n.tag)) == OfType(nodes[..i], n.tag)
  {
    if i > 0 {
      assert nodes[..i][..i - 1] == nodes[..i - 1];
      SameTypes(lower, nodes, i - 1, n);
      var k :| 0 <= k < |nodes| && nodes[k] == n;
      assert nodes[i - 1].kind.ElementNode? && lower(nodes[i - 1].tag) == lower(nodes[k].tag) ==> nodes[i - 1].tag == nodes[k].tag;
    }
  }

  /** The two engines give an element the same position among its siblings, and, when lower-casing
      keeps the sibling tags apart, the same position and count among those of its type. */
  lemma {:induction false} EnginesAgree(m: Metadata, lower: string -> string, p: Node, i: nat)
    requires p.Indexed() && Describes(m, lower, p.children) && i < |p.children| && p.children[i].kind.ElementNode?
    ensures var c := p.children[i];
      && c in m.indexes && m.indexes[c] == c.elementIndex && |m.elements| == p.elementCount
      && (TellsApart(lower, p.children) ==>
           c in m.typeIndexes && m.typeIndexes[c] == c.typeIndex && Count(m.typeCounts, lower(c.tag)) == Count(p.typeCounts, c.tag))
  {
    hide Elements, OfLower, OfType;
    assert p.ChildIndexed(i) && ElementDescribed(m, lower, p.children, i);
    if TellsApart(lower, p.children) {
      SameTypes(lower, p.children, i, p.children[i]);
      SameTypes(lower, p.children, |p.children|, p.children[i]);
      assert p.children[..|p.children|] == p.children;
    }
  }

  /** ... and the type counts of all children agree only then. */
  lemma {:induction false} EnginesAgreeOnlyThen(m: Metadata, lower: string -> string, p: Node)
    requires p.Indexed() && Describes(m, lower, p.children)
    requires forall i | 0 <= i < |p.children| && p.children[i].kind.ElementNode? ::
      Count(m.typeCounts, lower(p.children[i].tag)) == Count(p.typeCounts, p.children[i].tag)
    ensures TellsApart(lower, p.children)
  {
    hide Elements, OfLower, OfType, Node.ChildIndexed;
    var nodes := p.children;
    assert nodes[..|nodes|] == nodes;
    forall i, j | 0 <= i < |nodes| && 0 <= j < |nodes| && nodes[i].kind.ElementNode? && nodes[j].kind.ElementNode? &&
      lower(nodes[i].tag) == lower(nodes[j].tag) ensures nodes[i].tag == nodes[j].tag
    {
      if nodes[i].tag != nodes[j].tag {
        MoreThanOneType(lower, nodes, |nodes|, nodes[i], nodes[j]);
      }
    }
  }

  /** Two tags that lower-casing confuses make its class larger than either. */
  lemma {:induction false} MoreThanOneType(lower: string -> string, nodes: seq<Node>, k: nat, a: Node, b: Node)
    requires k <= |nodes| && a.kind.ElementNode? && b.kind.ElementNode? && lower(a.tag) == lower(b.tag) && a.tag != b.tag
    ensures |OfLower(lower, nodes[..k], lower(a.tag))| >= |OfType(nodes[..k], a.tag)| + |OfType(nodes[..k], b.tag)|
    ensures b in nodes[..k] ==> |OfType(nodes[..k], b.tag)| >= 1
  {
    if k > 0 {
      assert nodes[..k][..k - 1] == nodes[..k - 1];
      assert nodes[..k] == nodes[..k - 1] + [nodes[k - 1]];
      MoreThanOneType(lower, nodes, k - 1, a, b);
    }
  }
}
