/** The order in which declared transforms are compiled: compileReachableTransforms of
    internal/compiler/transforms.go, over the documents that were loaded. */
module Reachable {
  import opened Text
  import opened Sorting
  import opened Documents
  import opened Imports

  // ---------- symbols ----------

  /** The symbol of a transform: the document's display path and the transform's name. */
  function Symbol(display: string -> string, path: string, name: string): string {
    display(path) + "#transform:" + name
  }

  /** The last colon of a text. */
  predicate LastColon(s: string, i: nat) {
    i < |s| && s[i] == ':' && forall k | i < k < |s| :: s[k] != ':'
  }

  lemma {:induction false} ColonBeforeName(x: string, m: string)
    requires Identifier(m)
    ensures LastColon(x + ":" + m, |x|)
  {
    var s := x + ":" + m;
    forall k | |x| < k < |s| ensures s[k] != ':' {
      assert s[k] == m[k - |x| - 1];
    }
  }

  lemma {:induction false} OneLastColon(s: string, i: nat, j: nat)
    requires LastColon(s, i) && LastColon(s, j)
    ensures i == j
  {}

  /** Names hold no colon, so a symbol tells both its parts. */
  lemma {:induction false} SymbolsApart(display: string -> string, a: string, b: string, m: string, n: string)
    requires Identifier(m) && Identifier(n) && Symbol(display, a, m) == Symbol(display, b, n)
    ensures m == n && display(a) == display(b)
  {
    hide Identifier, LastColon;
    var x, y := display(a) + "#transform", display(b) + "#transform";
    var s := x + ":" + m;
    assert Symbol(display, a, m) == s;
    assert Symbol(display, b, n) == y + ":" + n;
    ColonBeforeName(x, m);
    ColonBeforeName(y, n);
    OneLastColon(s, |x|, |y|);
    assert m == s[|x| + 1..] && n == (y + ":" + n)[|y| + 1..];
    assert x == s[..|x|] && y == (y + ":" + n)[..|y|];
    assert display(a) == x[..|display(a)|] && display(b) == y[..|display(b)|];
  }

  // ---------- documents and what they declare ----------

  /** The loaded documents. */
  datatype World = World(files: Files, documents: map<string, Loaded>) {

    /** The names of the transforms a document declares, in source order. */
    function Declared(path: string): seq<string> {
      if path in documents then NamesOf(documents[path].transforms) else []
    }
  }

  function NamesOf(declared: seq<Declared>): (r: seq<string>)
    ensures |r| == |declared| && forall i | 0 <= i < |r| :: r[i] == declared[i].name
  {
    seq(|declared|, i requires 0 <= i < |declared| => declared[i].name)
  }

  /** Names are identifiers and different within a document; display paths are different. */
  ghost predicate Named(w: World) {
    && (forall p, i | p in w.documents && 0 <= i < |w.Declared(p)| :: Identifier(w.Declared(p)[i]))
    && (forall p | p in w.documents :: NoRepeats(w.Declared(p)))
    && (forall p, q | p in w.documents && q in w.documents && w.files.display(p) == w.files.display(q) :: p == q)
  }

  /** All imports have been loaded, and the documents can be put in an order with imports first. */
  ghost predicate Acyclic(w: World, order: seq<string>) {
    && Imports.Ordered(w.files, order)
    && forall p | p in w.documents ::
         && p in order && w.documents[p].imports == ImportsOf(w.files, p)
         && forall i | 0 <= i < |ImportsOf(w.files, p)| :: ImportsOf(w.files, p)[i].1 in w.documents
  }

  function First(order: seq<string>, x: string): (i: nat)
    requires x in order
    ensures i < |order| && order[i] == x && forall k | 0 <= k < i :: order[k] != x
  {
    if order[0] == x then 0 else
    var i := First(order[1..], x);
    assert forall k | 0 < k < i + 1 :: order[k] == order[1..][k - 1];
    i + 1
  }

  /** An import comes before its importer. */
  lemma {:induction false} ImportIsLower(w: World, order: seq<string>, p: string, i: nat)
    requires Acyclic(w, order) && p in w.documents && i < |ImportsOf(w.files, p)|
    ensures var q := ImportsOf(w.files, p)[i].1; q in order && First(order, q) < First(order, p)
  {
    hide ImportsOf;
    var q := ImportsOf(w.files, p)[i].1;
    var k := First(order, p);
    assert q in order[..k];
    var j :| 0 <= j < k && order[j] == q;
  }

  // ---------- the list of transforms ----------

  /** A name per document, in a given order of documents. */
  function Flatten(names: map<string, seq<string>>, order: seq<string>): seq<(string, string)>
    requires forall p | p in order :: p in names
  {
    if order == [] then [] else
    Flatten(names, order[..|order| - 1]) + Of(order[|order| - 1], names[order[|order| - 1]])
  }

  function Of(path: string, names: seq<string>): (r: seq<(string, string)>)
    ensures |r| == |names| && forall i | 0 <= i < |r| :: r[i] == (path, names[i])
  {
    seq(|names|, i requires 0 <= i < |names| => (path, names[i]))
  }

  lemma {:induction false} FlattenSnoc(names: map<string, seq<string>>, order: seq<string>, p: string)
    requires forall q | q in order :: q in names
    requires p in names
    ensures Flatten(names, order + [p]) == Flatten(names, order) + Of(p, names[p])
  {
    assert (order + [p])[..|order|] == order;
  }

  lemma {:induction false} FlattenSame(names: map<string, seq<string>>, more: map<string, seq<string>>, order: seq<string>)
    requires forall q | q in order :: q in names && q in more && names[q] == more[q]
    ensures Flatten(names, order) == Flatten(more, order)
  {
    if order != [] {
      FlattenSame(names, more, order[..|order| - 1]);
    }
  }

  /** Each entry is of a document in the order and a name of it. */
  lemma {:induction false} FlattenHolds(names: map<string, seq<string>>, order: seq<string>, x: (string, string))
    requires forall q | q in order :: q in names
    ensures x in Flatten(names, order) <==> x.0 in order && x.1 in names[x.0]
  {
    if order != [] {
      var front, p := order[..|order| - 1], order[|order| - 1];
      FlattenHolds(names, front, x);
      assert order == front + [p];
      if x.0 == p && x.1 in names[p] {
        var i :| 0 <= i < |names[p]| && names[p][i] == x.1;
        assert Of(p, names[p])[i] == x;
      }
    }
  }

  predicate AllDifferent(s: seq<(string, string)>) {
    forall i, j | 0 <= i < j < |s| :: s[i] != s[j]
  }

  /** Nothing comes twice. */
  lemma {:induction false} FlattenDiffers(names: map<string, seq<string>>, order: seq<string>)
    requires NoRepeats(order) && forall q | q in order :: q in names && NoRepeats(names[q])
    ensures AllDifferent(Flatten(names, order))
  {
    if order != [] {
      var front, p := order[..|order| - 1], order[|order| - 1];
      FlattenDiffers(names, front);
      var a, b := Flatten(names, front), Of(p, names[p]);
      forall i, j | 0 <= i < |a| && 0 <= j < |b| ensures a[i] != b[j] {
        FlattenHolds(names, front, a[i]);
        assert a[i] in a;
      }
      JoinDiffers(a, b);
    }
  }

  lemma {:induction false} JoinDiffers(a: seq<(string, string)>, b: seq<(string, string)>)
    requires AllDifferent(a) && AllDifferent(b) && forall i, j | 0 <= i < |a| && 0 <= j < |b| :: a[i] != b[j]
    ensures AllDifferent(a + b)
  {}

  /** The entries of earlier documents come earlier. */
  lemma {:induction false} FlattenOrders(names: map<string, seq<string>>, order: seq<string>, i: nat, j: nat, p: string, k: nat)
    requires (forall q | q in order :: q in names) && NoRepeats(order)
    requires i < |Flatten(names, order)| && j < |Flatten(names, order)|
    requires k < |order| && order[k] == p && Flatten(names, order)[i].0 in order[..k] && Flatten(names, order)[j].0 == p
    ensures i < j
  {
    var front, last := order[..|order| - 1], order[|order| - 1];
    var all, head := Flatten(names, order), Flatten(names, front);
    assert all == head + Of(last, names[last]);
    assert forall t | |head| <= t < |all| :: all[t].0 == last;
    assert last !in front && order[..k] == front[..k];
    forall t | 0 <= t < |head| ensures all[t].0 in front {
      FlattenHolds(names, front, head[t]);
      assert head[t] in head;
    }
    if k < |front| && j < |head| {
      assert front[k] == p;
      FlattenOrders(names, front, i, j, p, k);
    }
  }

  // ---------- what holds while collecting ----------

  /** The same names, in byte order. */
  ghost predicate Lists(sorted: seq<string>, names: seq<string>) {
    Increasing(sorted) && forall x :: x in sorted <==> x in names
  }

  /** The k-th document comes after all it imports. */
  predicate After(w: World, order: seq<string>, k: nat)
    requires k < |order|
  {
    order[k] in w.documents &&
    forall i | 0 <= i < |w.documents[order[k]].imports| :: w.documents[order[k]].imports[i].1 in order[..k]
  }

  predicate Placed(w: World, order: seq<string>) {
    forall k | 0 <= k < |order| :: After(w, order, k)
  }

  lemma {:induction false} PlacedGrows(w: World, order: seq<string>, p: string)
    requires Placed(w, order) && p in w.documents
    requires forall i | 0 <= i < |w.documents[p].imports| :: w.documents[p].imports[i].1 in order
    ensures Placed(w, order + [p])
  {
    var more := order + [p];
    forall k | 0 <= k < |more| ensures After(w, more, k) {
      if k < |order| {
        assert After(w, order, k) && more[..k] == order[..k];
      } else {
        assert more[..k] == order;
      }
    }
  }

  /** What has been listed is what the finished documents declare, each name once. */
  ghost predicate Consistent(w: World, visited: set<string>, order: seq<string>, names: map<string, seq<string>>) {
    && NoRepeats(order) && Placed(w, order)
    && (forall p | p in order :: p in names && p in visited)
    && forall p | p in names :: p in w.documents && Lists(names[p], w.Declared(p))
  }

  predicate Listed(w: World, out: seq<(string, string)>, seen: set<string>) {
    seen == (set i | 0 <= i < |out| :: Symbol(w.files.display, out[i].0, out[i].1)) &&
    forall i | 0 <= i < |out| :: out[i].0 in w.documents && out[i].1 in w.Declared(out[i].0)
  }

  /** A name not listed yet has a symbol not seen yet. */
  lemma {:induction false} NewSymbol(w: World, out: seq<(string, string)>, seen: set<string>, path: string, name: string)
    requires Named(w) && Listed(w, out, seen) && path in w.documents && name in w.Declared(path) && (path, name) !in out
    ensures Symbol(w.files.display, path, name) !in seen
  {
    hide Symbol, Identifier;
    forall i | 0 <= i < |out| ensures Symbol(w.files.display, out[i].0, out[i].1) != Symbol(w.files.display, path, name) {
      assert out[i] in out && out[i] == (out[i].0, out[i].1);
      Identifiers(w, out[i].0, out[i].1);
      Identifiers(w, path, name);
      if Symbol(w.files.display, out[i].0, out[i].1) == Symbol(w.files.display, path, name) {
        SymbolsApart(w.files.display, out[i].0, path, out[i].1, name);
      }
    }
  }

  lemma {:induction false} Identifiers(w: World, path: string, name: string)
    requires Named(w) && path in w.documents && name in w.Declared(path)
    ensures Identifier(name)
  {
    var i :| 0 <= i < |w.Declared(path)| && w.Declared(path)[i] == name;
  }

  lemma {:induction false} ListedGrows(w: World, out: seq<(string, string)>, seen: set<string>, path: string, name: string)
    requires Listed(w, out, seen) && path in w.documents && name in w.Declared(path)
    ensures Listed(w, out + [(path, name)], seen + {Symbol(w.files.display, path, name)})
  {
    hide Symbol;
    var more := out + [(path, name)];
    forall i | 0 <= i < |out| ensures more[i] == out[i] {}
    assert more[|out|] == (path, name);
  }

  lemma {:induction false} Prepend(files: Files, a: string, b: string, c: string)
    requires Edge(files, a, b) && Reaches(files, b, c)
    ensures Reaches(files, a, c)
  {
    hide Edge;
    var path :| IsPath(files, path) && path[0] == b && path[|path| - 1] == c;
    var longer := [a] + path;
    assert IsPath(files, longer) && longer[0] == a && longer[|longer| - 1] == c;
  }

  /** Whatever has been visited and not finished lies at least so far above the document. */
  predicate AllAbove(visited: set<string>, order: seq<string>, place: seq<string>, path: string, distance: nat) {
    path in place && forall x | x in visited && x !in order :: x in place && First(place, path) + distance <= First(place, x)
  }

  lemma {:induction false} VisitedIsFinished(visited: set<string>, order: seq<string>, place: seq<string>, path: string)
    requires AllAbove(visited, order, place, path, 1)
    ensures path in visited ==> path in order
  {
    hide First;
  }

  lemma {:induction false} ImportsAllAbove(visited: set<string>, order: seq<string>, place: seq<string>, path: string, imported: string)
    requires AllAbove(visited, order, place, path, 0) && imported in place && First(place, imported) < First(place, path)
    ensures AllAbove(visited, order, place, imported, 1)
  {
    hide First;
  }

  lemma {:induction false} StillAbove(visited: set<string>, order: seq<string>, more: set<string>, longer: seq<string>, place: seq<string>, path: string)
    requires AllAbove(visited, order, place, path, 0) && order <= longer && forall x | x in more && x !in visited :: x in longer
    ensures AllAbove(more, longer, place, path, 0)
  {
    hide First;
  }

  lemma {:induction false} ImportsAreThere(w: World, place: seq<string>, path: string)
    requires Acyclic(w, place) && path in w.documents
    ensures w.documents[path].imports == ImportsOf(w.files, path)
    ensures forall i | 0 <= i < |w.documents[path].imports| :: w.documents[path].imports[i].1 in w.documents
  {
    hide ImportsOf;
  }

  // ---------- the collector ----------

  class Collector {
    const w: World
    var visited: set<string>
    var seen: set<string>
    var out: seq<(string, string)>
    /** Documents in the order in which they were finished, and their names as listed. */
    ghost var order: seq<string>
    ghost var names: map<string, seq<string>>

    constructor (w: World)
      ensures this.w == w && Valid() && visited == {} && seen == {} && out == [] && order == [] && names == map[]
    {
      this.w := w;
      visited, seen, out, order, names := {}, {}, [], [], map[];
    }

    ghost predicate Valid()
      reads this
    {
      Consistent(w, visited, order, names) && out == Flatten(names, order) && Listed(w, out, seen)
    }

    /** Whatever has been visited since is finished, and reached from the document. */
    twostate predicate Reached(path: string)
      reads this
    {
      && old(order) <= order && old(visited) <= visited
      && (forall x | x in order && x !in old(order) :: x !in old(visited))
      && forall x | x in visited && x !in old(visited) :: x in order && Reaches(w.files, path, x)
    }

    method Visit(path: string, ghost place: seq<string>)
      requires Valid() && Named(w) && Acyclic(w, place) && path in w.documents && AllAbove(visited, order, place, path, 1)
      modifies this
      ensures Valid() && Reached(path) && path in order
      decreases |w.documents.Keys - visited|, 1
    {
      hide Reaches, Edge, ImportsOf, Named, First, Acyclic, Collector.Valid, NoRepeats;
      VisitedIsFinished(visited, order, place, path);
      if path in visited {
        return;
      }
      Begin(path, place);
      ImportsAreThere(w, place, path);
      Stay(w.files, path);
      Fewer(w.documents.Keys, old(visited), visited, path);
      VisitImports(path, place);
      ListModule(path);
    }

    method VisitImports(path: string, ghost place: seq<string>)
      requires Valid() && Named(w) && Acyclic(w, place) && path in w.documents && path in visited && path !in order
      requires AllAbove(visited, order, place, path, 0)
      modifies this
      ensures Valid() && Reached(path) && path !in order
      ensures forall k | 0 <= k < |w.documents[path].imports| :: w.documents[path].imports[k].1 in order
      decreases |w.documents.Keys - visited|, 2
    {
      hide Reaches, Edge, ImportsOf, Named, First, Acyclic, Collector.Valid, NoRepeats, AllAbove;
      ImportsAreThere(w, place, path);
      var imports := w.documents[path].imports;
      for i := 0 to |imports|
        invariant Valid() && Reached(path) && path !in order && AllAbove(visited, order, place, path, 0)
        invariant forall k | 0 <= k < i :: imports[k].1 in order
      {
        ImportIsLower(w, place, path, i);
        ImportsAllAbove(visited, order, place, path, imports[i].1);
        Subset(w.documents.Keys - visited, w.documents.Keys - old(visited));
        ghost var before := visited;
        ghost var finished := order;
        Visit(imports[i].1, place);
        ImportIsEdge(w, path, i);
        forall x | x in visited && x !in before ensures Reaches(w.files, path, x) {
          Prepend(w.files, path, imports[i].1, x);
        }
        StillAbove(before, finished, visited, order, place, path);
      }
    }

    method Begin(path: string, ghost place: seq<string>)
      requires Valid() && Acyclic(w, place) && path in w.documents && path !in visited && AllAbove(visited, order, place, path, 1)
      modifies this`visited
      ensures Valid() && visited == old(visited) + {path} && path !in order
      ensures AllAbove(visited, order, place, path, 0)
    {
      hide Flatten, Listed, Lists, Placed, First;
      visited := visited + {path};
    }

    /** The imports of the root, which itself is not visited. */
    method VisitRoots(root: string, ghost place: seq<string>)
      requires Valid() && Named(w) && Acyclic(w, place) && root in w.documents && visited == {} && order == []
      modifies this
      ensures Valid() && forall x | x in order :: x in w.documents && Needed(w, root, x)
      ensures forall k | 0 <= k < |w.documents[root].imports| :: w.documents[root].imports[k].1 in order
    {
      hide Reaches, Edge, ImportsOf, Named, First, Acyclic, Collector.Valid, NoRepeats;
      ImportsAreThere(w, place, root);
      RootIsPlaced(w, place, root);
      var imports := w.documents[root].imports;
      for i := 0 to |imports|
        invariant Valid() && forall x | x in visited :: x in order && Needed(w, root, x)
        invariant forall k | 0 <= k < i :: imports[k].1 in order
      {
        ImportIsLower(w, place, root, i);
        Visit(imports[i].1, place);
      }
      OrderIsVisited();
    }

    lemma {:induction false} OrderIsVisited()
      requires Valid()
      ensures forall x | x in order :: x in visited && x in w.documents
    {
      hide Flatten, Listed, Lists, Placed;
    }

    /** One name, unless its symbol has been seen: it never has. */
    method ListName(path: string, name: string)
      requires Named(w) && Listed(w, out, seen) && path in w.documents && name in w.Declared(path) && (path, name) !in out
      modifies this`out, this`seen
      ensures Listed(w, out, seen) && out == old(out) + [(path, name)]
    {
      hide Listed, Symbol, Named;
      NewSymbol(w, out, seen, path, name);
      ListedGrows(w, out, seen, path, name);
      var symbol := Symbol(w.files.display, path, name);
      if symbol in seen {
        return;
      }
      seen := seen + {symbol};
      out := out + [(path, name)];
    }

    /** The names of a module in byte order, without symbols already seen. */
    method ListModule(path: string)
      requires Valid() && Named(w) && path in w.documents && path in visited && path !in order
      requires forall i | 0 <= i < |w.documents[path].imports| :: w.documents[path].imports[i].1 in order
      modifies this`out, this`seen, this`order, this`names
      ensures Valid() && order == old(order) + [path]
    {
      hide Listed, Symbol, Placed, Named, Increasing, NoRepeats, Flatten;
      var sorted := SortKeys(set name | name in w.Declared(path));
      IncreasingDiffers(sorted);
      ListNames(path, sorted);
      Finish(path, sorted);
    }

    /** Some names of one document, in the order given. */
    method ListNames(path: string, list: seq<string>)
      requires Named(w) && Listed(w, out, seen) && path in w.documents && NoRepeats(list)
      requires forall p | p in order :: p in names
      requires out == Flatten(names, order) && path !in order && forall name | name in list :: name in w.Declared(path)
      modifies this`out, this`seen
      ensures Listed(w, out, seen) && out == Flatten(names, order) + Of(path, list)
    {
      hide Listed, Symbol, Named, Flatten;
      ghost var before := out;
      assert before + Of(path, list[..0]) == before;
      for i := 0 to |list|
        invariant out == before + Of(path, list[..i]) && Listed(w, out, seen)
      {
        assert list[i] in list;
        NotListedYet(w, names, order, path, list, i);
        ListName(path, list[i]);
        assert before + Of(path, list[..i]) + [(path, list[i])] == before + Of(path, list[..i + 1]);
      }
      assert list[..|list|] == list;
    }

    /** All names of a module are listed. */
    ghost method Finish(path: string, sorted: seq<string>)
      requires Consistent(w, visited, order, names) && Listed(w, out, seen) && path in w.documents && path in visited && path !in order
      requires forall i | 0 <= i < |w.documents[path].imports| :: w.documents[path].imports[i].1 in order
      requires out == Flatten(names, order) + Of(path, sorted) && Lists(sorted, w.Declared(path))
      modifies this`order, this`names
      ensures Valid() && order == old(order) + [path]
    {
      hide Listed, Symbol, Placed, Lists, Flatten;
      PlacedGrows(w, order, path);
      FlattenSame(names, names[path := sorted], order);
      names := names[path := sorted];
      FlattenSnoc(names, order, path);
      order := order + [path];
    }
  }

  lemma {:induction false} IncreasingDiffers(keys: seq<string>)
    requires Increasing(keys)
    ensures NoRepeats(keys)
  {
    hide Before;
    forall i, j | 0 <= i < j < |keys| ensures keys[i] != keys[j] {
      BeforeTotal(keys[i], keys[j]);
    }
  }

  lemma {:induction false} ImportIsEdge(w: World, path: string, i: nat)
    requires path in w.documents && i < |w.documents[path].imports| && w.documents[path].imports == ImportsOf(w.files, path)
    ensures Edge(w.files, path, w.documents[path].imports[i].1)
  {
    hide ImportsOf;
  }

  lemma {:induction false} Fewer(all: set<string>, before: set<string>, visited: set<string>, path: string)
    requires path in all && path !in before && before + {path} <= visited
    ensures |all - visited| < |all - before|
  {
    assert all - visited <= (all - before) - {path};
    Subset(all - visited, (all - before) - {path});
  }

  lemma {:induction false} Subset(a: set<string>, b: set<string>)
    requires a <= b
    ensures |a| <= |b|
  {
    assert b == a + (b - a);
  }

  /** The i-th name of a document that is not finished has not been listed. */
  lemma {:induction false} NotListedYet(w: World, names: map<string, seq<string>>, order: seq<string>, path: string, list: seq<string>, i: nat)
    requires (forall q | q in order :: q in names) && path !in order && NoRepeats(list) && i < |list|
    ensures (path, list[i]) !in Flatten(names, order) + Of(path, list[..i])
  {
    FlattenHolds(names, order, (path, list[i]));
  }

  // ---------- the whole list ----------

  /** A document is reached from some import of the root. */
  ghost predicate Needed(w: World, root: string, p: string)
    requires root in w.documents
  {
    exists i | 0 <= i < |w.documents[root].imports| :: Reaches(w.files, w.documents[root].imports[i].1, p)
  }

  /** The documents reached from the root's imports, each after all it imports and its names in byte
      order; then the root's own names in source order. */
  ghost predicate Arranged(w: World, root: string, out: seq<(string, string)>, order: seq<string>, names: map<string, seq<string>>)
    requires root in w.documents
  {
    && (forall p | p in order :: p in names && Lists(names[p], w.Declared(p))) && NoRepeats(order) && Placed(w, order)
    && root !in order && (forall p | p in w.documents :: p in order <==> Needed(w, root, p))
    && out == Flatten(names, order) + Of(root, w.Declared(root))
  }

  /** compileReachableTransforms. */
  method CompileReachable(w: World, root: string, ghost place: seq<string>) returns (out: seq<(string, string)>)
    requires Named(w) && Acyclic(w, place) && root in w.documents
    ensures exists order, names :: Arranged(w, root, out, order, names)
  {
    hide Needed, Acyclic, Named, Flatten, Lists, Listed, NoRepeats, AllAbove, Placed;
    var c := new Collector(w);
    ImportsAreThere(w, place, root);
    RootIsPlaced(w, place, root);
    c.VisitRoots(root, place);
    AllNeededAreListed(w, place, root, c.order);
    RootIsNotNeeded(w, place, root);
    var list := w.Declared(root);
    NamesDiffer(w, root);
    c.ListNames(root, list);
    out := c.out;
    assert Arranged(w, root, out, c.order, c.names);
  }

  lemma {:induction false} NamesDiffer(w: World, root: string)
    requires Named(w) && root in w.documents
    ensures NoRepeats(w.Declared(root))
  {}

  lemma {:induction false} RootIsPlaced(w: World, place: seq<string>, root: string)
    requires Acyclic(w, place) && root in w.documents
    ensures root in place
  {}

  /** Whatever an import of the root reaches has been listed, since all listed documents have their imports listed. */
  lemma {:induction false} AllNeededAreListed(w: World, place: seq<string>, root: string, order: seq<string>)
    requires root in w.documents && Placed(w, order)
    requires forall k | 0 <= k < |w.documents[root].imports| :: w.documents[root].imports[k].1 in order
    requires Acyclic(w, place)
    ensures forall p | Needed(w, root, p) :: p in order
  {
    hide ImportsOf;
    var inside := set x | x in order;
    forall a, b | a in inside && Edge(w.files, a, b) ensures b in inside {
      var k :| 0 <= k < |order| && order[k] == a;
      assert After(w, order, k);
    }
    forall p | Needed(w, root, p) ensures p in order {
      var i :| 0 <= i < |w.documents[root].imports| && Reaches(w.files, w.documents[root].imports[i].1, p);
      var path :| IsPath(w.files, path) && path[0] == w.documents[root].imports[i].1 && path[|path| - 1] == p;
      ClosedHoldsAll(w.files, inside, path, |path| - 1);
    }
  }

  /** The root would have to come before itself. */
  lemma {:induction false} RootIsNotNeeded(w: World, place: seq<string>, root: string)
    requires Acyclic(w, place) && root in w.documents
    ensures !Needed(w, root, root)
  {
    hide ImportsOf;
    forall i | 0 <= i < |w.documents[root].imports| ensures !Reaches(w.files, w.documents[root].imports[i].1, root) {
      ImportIsLower(w, place, root, i);
      var q := w.documents[root].imports[i].1;
      if Reaches(w.files, q, root) {
        var path :| IsPath(w.files, path) && path[0] == q && path[|path| - 1] == root;
        var j := PathGoesDown(w.files, place, path, |path| - 1, First(place, q));
      }
    }
  }

  /** Every transform a needed document or the root declares is in the list, and exactly once. */
  lemma {:induction false} EachExactlyOnce(w: World, root: string, out: seq<(string, string)>, order: seq<string>, names: map<string, seq<string>>, x: (string, string))
    requires Named(w) && root in w.documents && Arranged(w, root, out, order, names)
    ensures AllDifferent(out)
    ensures x.0 in w.documents ==> (x in out <==> (Needed(w, root, x.0) || x.0 == root) && x.1 in w.Declared(x.0))
  {
    hide Needed;
    OrderIsLoaded(w, order);
    hide Increasing;
    var a, b := Flatten(names, order), Of(root, w.Declared(root));
    forall p | p in order ensures NoRepeats(names[p]) {
      IncreasingDiffers(names[p]);
    }
    FlattenDiffers(names, order);
    assert NoRepeats(w.Declared(root));
    forall i, j | 0 <= i < |a| && 0 <= j < |b| ensures a[i] != b[j] {
      FlattenHolds(names, order, a[i]);
      assert a[i] in a;
    }
    JoinDiffers(a, b);
    FlattenHolds(names, order, x);
    if x.0 == root && x.1 in w.Declared(root) {
      var i :| 0 <= i < |w.Declared(root)| && w.Declared(root)[i] == x.1;
      assert b[i] == x;
    }
  }

  lemma {:induction false} OrderIsLoaded(w: World, order: seq<string>)
    requires Placed(w, order)
    ensures forall p | p in order :: p in w.documents
  {
    forall p | p in order ensures p in w.documents {
      var k :| 0 <= k < |order| && order[k] == p;
      assert After(w, order, k);
    }
  }

  /** The transforms of an imported document come before those of its importers, the root included. */
  lemma {:induction false} ImportedComesFirst(w: World, root: string, out: seq<(string, string)>, order: seq<string>, names: map<string, seq<string>>, i: nat, j: nat, e: nat)
    requires Named(w) && root in w.documents && Arranged(w, root, out, order, names)
    requires i < |out| && j < |out| && out[j].0 in w.documents && e < |w.documents[out[j].0].imports|
    requires out[i].0 == w.documents[out[j].0].imports[e].1 && out[i].0 != root && out[i].0 != out[j].0
    ensures i < j
  {
    hide Flatten, Lists, Needed, Named;
    var all := Flatten(names, order);
    if i < |all| && j < |all| {
      FlattenHolds(names, order, all[j]);
      assert all[j] in all;
      var k :| 0 <= k < |order| && order[k] == all[j].0;
      assert After(w, order, k);
      FlattenOrders(names, order, i, j, order[k], k);
    }
  }
}
