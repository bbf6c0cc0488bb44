/** Building the tree from a parsed HTML document: convertHTMLNode of internal/dom/parser.go. */
module Building {
  import opened Options
  import opened Dom
  import opened Matching

  /** A node of the HTML library; no kind is a doctype or anything else that is dropped. An attribute is
      a namespace, a name and a value. */
  datatype Source = Source(
    kind: Option<Kind>, tag: string, data: string, attributes: seq<(string, string, string)>, children: seq<Source>)

  /** The last attribute of a name wins; names without a namespace are lower-cased. */
  function AttributesOf(lower: string -> string, attributes: seq<(string, string, string)>): map<string, string> {
    if attributes == [] then map[] else
    var last := attributes[|attributes| - 1];
    AttributesOf(lower, attributes[..|attributes| - 1])[(if last.0 == "" then lower(last.1) else last.1) := last.2]
  }

  function Shifted(spans: Spans, offset: nat): (r: Spans)
    ensures r.Keys == spans.Keys
    ensures forall n | n in spans :: r[n] == (spans[n].0 + offset, spans[n].1 + offset)
  {
    map n | n in spans :: (spans[n].0 + offset, spans[n].1 + offset)
  }

  /** A tree hanging from one detached node, whose interval contains all others. */
  ghost predicate Rooted(spans: Spans, root: Node)
    reads spans.Keys
  {
    && Valid(spans) && root in spans && root.Detached()
    && (forall n | n in spans :: spans[root].0 <= spans[n].0 && spans[n].1 <= spans[root].1)
    && forall n | n in spans && n != root :: n.parent != null
  }

  /** The spans of a tree after another one has been hung below its root, behind all it has. */
  function Joined(spans: Spans, root: Node, more: Spans, child: Node): (r: Spans)
    requires root in spans && child in more && spans.Keys !! more.Keys
    ensures r.Keys == spans.Keys + more.Keys
  {
    spans[root := (spans[root].0, spans[root].1 + 1 + more[child].1)] + Shifted(more, spans[root].1 + 1)
  }

  ghost predicate NobodysChild(spans: Spans, root: Node)
    reads spans.Keys
  {
    forall n | n in spans :: root !in n.children
  }

  /** Children of nodes of the tree are in the tree. */
  ghost predicate Closed(spans: Spans)
    reads spans.Keys
  {
    forall n | n in spans :: forall c | c in n.children :: c in spans
  }

  /** In a rooted tree the root is nobody's child. */
  lemma {:induction false} RootIsNoChild(spans: Spans, root: Node)
    requires Rooted(spans, root)
    ensures NobodysChild(spans, root)
  {
    forall n, i | n in spans && 0 <= i < |n.children| ensures n.children[i] != root {
      assert NodeValid(spans, n);
      assert n.ChildIndexed(i);
    }
  }

  lemma {:induction false} ChildrenAreThere(spans: Spans)
    requires Valid(spans)
    ensures Closed(spans)
  {
    forall n, c | n in spans && c in n.children ensures c in spans {
      assert NodeValid(spans, n);
    }
  }

  /** appendChild on the root of one tree and the root of another. */
  method Attach(root: Node, ghost spans: Spans, child: Node, ghost more: Spans)
    requires Rooted(spans, root) && Rooted(more, child) && spans.Keys !! more.Keys
    modifies root`children, root`lastElement, root`elementCount, root`typeCounts
    modifies child`parent, child`previousElement, child`elementIndex, child`typeIndex
    ensures root.children == old(root.children) + [child]
    ensures Rooted(Joined(spans, root, more, child), root)
  {
    hide Node.Indexed, Joined, Spaced, Rooted, Inner, NobodysChild, Closed;
    BeforeJoining(spans, root, more, child);
    ghost var before := root.children;
    root.AppendChild(child);
    forall n | n in spans && n != root ensures Kept(spans, n) {
      assert old(Kept(spans, n)) && old(Away(n, root, child));
    }
    forall n | n in more && n != child ensures Kept(more, n) {
      assert old(Kept(more, n)) && old(Away(n, root, child));
    }
    assert root.children[..|root.children| - 1] == before;
    TreesJoin(spans, root, more, child);
  }

  /** Neither the node nor a child of it is one of the two roots. */
  ghost predicate Away(n: Node, root: Node, child: Node)
    reads n
  {
    n != root && n != child && root !in n.children && child !in n.children
  }

  lemma {:induction false} BeforeJoining(spans: Spans, root: Node, more: Spans, child: Node)
    requires Rooted(spans, root) && Rooted(more, child) && spans.Keys !! more.Keys
    ensures root in spans && child in more && root.Detached() && child.Detached() && root.Indexed() && child.Indexed()
    ensures forall n | n in spans && n != root :: Kept(spans, n) && Away(n, root, child)
    ensures forall n | n in more && n != child :: Kept(more, n) && Away(n, root, child)
    ensures child !in root.children && root !in child.children && child !in child.children
    ensures RootSpaced(spans, root, root.children) && Spaced(more, child)
    ensures forall n | n in spans :: spans[root].0 <= spans[n].0 && spans[n].1 <= spans[root].1
    ensures forall n | n in more :: more[child].0 <= more[n].0 && more[n].1 <= more[child].1
  {
    hide Node.Indexed;
    RootIsNoChild(spans, root);
    RootIsNoChild(more, child);
    ChildrenAreThere(spans);
    ChildrenAreThere(more);
    assert NodeValid(spans, root) && NodeValid(more, child);
    forall n | n in spans && n != root ensures Kept(spans, n) {
      assert NodeValid(spans, n);
    }
    forall n | n in more && n != child ensures Kept(more, n) {
      assert NodeValid(more, n);
    }
  }

  ghost predicate Inner(spans: Spans, n: Node)
    requires n in spans
    reads n, n.children
  {
    Spaced(spans, n) && n.Indexed()
  }

  /** A node below the root, well placed and well indexed. */
  ghost predicate Kept(spans: Spans, n: Node)
    requires n in spans
    reads n, n.children, n.parent
  {
    Inner(spans, n) && n.parent != null && n.parent in spans && n in n.parent.children
  }

  lemma {:induction false} TreesJoin(spans: Spans, root: Node, more: Spans, child: Node)
    requires root in spans && child in more && spans.Keys !! more.Keys
    requires forall n | n in spans && n != root :: Kept(spans, n)
    requires forall n | n in more && n != child :: Kept(more, n)
    requires root.Detached() && root.Indexed() && child.parent == root && child.Indexed() && Spaced(more, child)
    requires root.children != [] && root.children[|root.children| - 1] == child && RootSpaced(spans, root, root.children[..|root.children| - 1])
    requires forall n | n in spans :: spans[root].0 <= spans[n].0 && spans[n].1 <= spans[root].1
    requires forall n | n in more :: more[child].0 <= more[n].0 && more[n].1 <= more[child].1
    ensures Rooted(Joined(spans, root, more, child), root)
  {
    hide Node.Indexed, NodeValid, Spaced;
    var all := Joined(spans, root, more, child);
    forall n | n in all ensures NodeValid(all, n) && (n != root ==> n.parent != null) {
      if n == root {
        RootFits(spans, root, more, child);
      } else if n in spans {
        assert Kept(spans, n);
        OldFits(spans, root, more, child, n);
      } else {
        assert n == child || Kept(more, n);
        NewFits(spans, root, more, child, n);
      }
    }
    forall n | n in all ensures all[root].0 <= all[n].0 && all[n].1 <= all[root].1 {
      if n in more {
        assert all[n] == (more[n].0 + spans[root].1 + 1, more[n].1 + spans[root].1 + 1);
      }
    }
  }

  lemma {:induction false} RootFits(spans: Spans, root: Node, more: Spans, child: Node)
    requires root in spans && child in more && spans.Keys !! more.Keys
    requires root.Detached() && root.Indexed() && Spaced(more, child)
    requires root.children != [] && root.children[|root.children| - 1] == child && RootSpaced(spans, root, root.children[..|root.children| - 1])
    ensures NodeValid(Joined(spans, root, more, child), root)
  {
    hide Node.Indexed;
    var all, last := Joined(spans, root, more, child), |root.children| - 1;
    var before := root.children[..last];
    assert root.children == before + [child];
    forall i | 0 <= i < last ensures root.children[i] == before[i] && root.children[i] in all && all[root.children[i]] == spans[before[i]] {
      SpansApart(spans, root, before[i]);
    }
  }

  lemma {:induction false} SpansApart(spans: Spans, root: Node, n: Node)
    requires root in spans && n in spans && spans[root].0 < spans[n].0
    ensures n != root
  {}

  lemma {:induction false} OldFits(spans: Spans, root: Node, more: Spans, child: Node, n: Node)
    requires root in spans && child in more && spans.Keys !! more.Keys
    requires n in spans && n != root && Kept(spans, n)
    requires forall n | n in spans :: spans[root].0 <= spans[n].0 && spans[n].1 <= spans[root].1
    ensures NodeValid(Joined(spans, root, more, child), n)
  {
    hide Node.Indexed;
  }

  lemma {:induction false} NewFits(spans: Spans, root: Node, more: Spans, child: Node, n: Node)
    requires root in spans && child in more && spans.Keys !! more.Keys
    requires n in more && Spaced(more, n) && n.Indexed()
    requires if n == child then n.parent == root && child in root.children else Kept(more, n)
    ensures NodeValid(Joined(spans, root, more, child), n)
  {
    hide Node.Indexed;
  }

  /** The intervals of children of the root. */
  predicate RootSpaced(spans: Spans, root: Node, before: seq<Node>)
    requires root in spans
  {
    && spans[root].0 <= spans[root].1
    && (forall i | 0 <= i < |before| :: before[i] in spans && spans[root].0 < spans[before[i]].0 && spans[before[i]].1 <= spans[root].1)
    && forall i, j | 0 <= i < j < |before| :: spans[before[i]].1 < spans[before[j]].0
  }

  // ---------- what the tree shows ----------

  /** A tree as a value. */
  datatype Shape = Shape(kind: Kind, tag: string, data: string, attrs: map<string, string>, children: seq<Shape>)

  /** The source without what is dropped; elements keep tag and attributes, text and comments their data. */
  function ShapeOf(lower: string -> string, source: Source): Shape
    requires source.kind.Some?
    decreases source, 0
  {
    Shape(source.kind.value, TagOf(source), DataOf(source), AttrsOf(lower, source), ShapesOf(lower, source.children))
  }

  function ShapesOf(lower: string -> string, sources: seq<Source>): seq<Shape>
    decreases sources, 1
  {
    if sources == [] then [] else
    var last := sources[|sources| - 1];
    ShapesOf(lower, sources[..|sources| - 1]) + if last.kind.Some? then [ShapeOf(lower, last)] else []
  }

  function TagOf(source: Source): string {
    if source.kind == Some(ElementNode) then source.tag else ""
  }

  function DataOf(source: Source): string {
    if source.kind == Some(TextNode) || source.kind == Some(CommentNode) then source.data else ""
  }

  function AttrsOf(lower: string -> string, source: Source): map<string, string> {
    if source.kind == Some(ElementNode) then AttributesOf(lower, source.attributes) else map[]
  }

  lemma {:induction false} ShapeParts(lower: string -> string, source: Source)
    requires source.kind.Some?
    ensures ShapeOf(lower, source) ==
      Shape(source.kind.value, TagOf(source), DataOf(source), AttrsOf(lower, source), ShapesOf(lower, source.children))
  {}

  /** The tree below a node, within some nodes, has that shape. */
  ghost predicate Shows(keys: set<Node>, n: Node, s: Shape)
    reads keys`children
    decreases s
  {
    && n in keys && n.kind == s.kind && n.tag == s.tag && n.data == s.data && n.attrs == s.attrs
    && |n.children| == |s.children|
    && forall i | 0 <= i < |n.children| :: Shows(keys, n.children[i], s.children[i])
  }

  lemma {:induction false} ShowsMore(keys: set<Node>, more: set<Node>, n: Node, s: Shape)
    requires keys <= more && Shows(keys, n, s)
    ensures Shows(more, n, s)
    decreases s
  {
    forall i | 0 <= i < |n.children| ensures Shows(more, n.children[i], s.children[i]) {
      ShowsMore(keys, more, n.children[i], s.children[i]);
    }
  }

  /** The children of the root, one by one, without looking at the root. */
  ghost predicate ChildrenShow(spans: Spans, root: Node, shapes: seq<Shape>)
    requires root in spans
    reads root`children, spans.Keys`children
  {
    |root.children| == |shapes| && forall i | 0 <= i < |shapes| :: Shows(spans.Keys - {root}, root.children[i], shapes[i])
  }

  /** convertHTMLNode: whatever the source, the tree built from it is valid at every node and shows the
      source without what is dropped. */
  method Convert(lower: string -> string, source: Source) returns (node: Node?, ghost spans: Spans)
    ensures node == null <==> source.kind.None?
    ensures node != null ==> node in spans && fresh(spans.Keys) && Rooted(spans, node) && Shows(spans.Keys, node, ShapeOf(lower, source))
    decreases source
  {
    hide Rooted, Joined, Shows, AttributesOf, ShapeOf, TagOf, DataOf, AttrsOf, Node.Indexed;
    if source.kind.None? {
      return null, map[];
    }
    var n := new Node(source.kind.value, TagOf(source), DataOf(source), AttrsOf(lower, source));
    spans := map[n := (0, 0)];
    OneNode(spans, n);
    ghost var shapes: seq<Shape> := [];
    for i := 0 to |source.children|
      invariant fresh(n) && fresh(spans.Keys) && n in spans && Rooted(spans, n)
      invariant shapes == ShapesOf(lower, source.children[..i]) && ChildrenShow(spans, n, shapes)
    {
      assert source.children[..i + 1][..i] == source.children[..i];
      var child, more := Convert(lower, source.children[i]);
      if child != null {
        ghost var below := spans.Keys - {n};
        ghost var shape := ShapeOf(lower, source.children[i]);
        assert forall k | 0 <= k < |shapes| :: Shows(below, n.children[k], shapes[k]);
        Attach(n, spans, child, more);
        spans := Joined(spans, n, more, child);
        OneMoreShown(below, n, shapes, more, child, shape, spans);
        shapes := shapes + [shape];
      }
    }
    assert source.children[..|source.children|] == source.children;
    ShapeParts(lower, source);
    RootShows(spans, n, ShapeOf(lower, source));
    node := n;
  }

  lemma {:induction false} OneMoreShown(below: set<Node>, root: Node, shapes: seq<Shape>, more: Spans, child: Node, shape: Shape, spans: Spans)
    requires root in spans && |root.children| == |shapes| + 1 && root.children[|shapes|] == child
    requires below <= spans.Keys - {root} && more.Keys <= spans.Keys - {root}
    requires forall k | 0 <= k < |shapes| :: Shows(below, root.children[k], shapes[k])
    requires Shows(more.Keys, child, shape)
    ensures ChildrenShow(spans, root, shapes + [shape])
  {
    hide Shows;
    forall k | 0 <= k < |shapes| ensures Shows(spans.Keys - {root}, root.children[k], shapes[k]) {
      ShowsMore(below, spans.Keys - {root}, root.children[k], shapes[k]);
    }
    ShowsMore(more.Keys, spans.Keys - {root}, child, shape);
  }

  lemma {:induction false} RootShows(spans: Spans, root: Node, s: Shape)
    requires root in spans && ChildrenShow(spans, root, s.children)
    requires root.kind == s.kind && root.tag == s.tag && root.data == s.data && root.attrs == s.attrs
    ensures Shows(spans.Keys, root, s)
  {
    forall i | 0 <= i < |s.children| ensures Shows(spans.Keys, root.children[i], s.children[i]) {
      ShowsMore(spans.Keys - {root}, spans.Keys, root.children[i], s.children[i]);
    }
  }

  lemma {:induction false} OneNode(spans: Spans, n: Node)
    requires spans == map[n := (0, 0)] && n.Detached() && n.Indexed() && n.children == []
    ensures Rooted(spans, n)
  {}
}
