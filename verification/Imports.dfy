/** Loading the import graph: loadDocument and what it calls in internal/compiler/compiler.go. */
module Imports {
  import opened Options
  import opened Text
  import opened Types
  import opened Contract
  import opened Builtins
  import opened Compiler
  import opened Documents
  import K = KDLTree

  // ---------- the import graph ----------

  lemma {:induction false} AcceptedIsEdge(files: Files, from: string, nodes: seq<K.Node>, i: nat)
    requires from in files.parsed && files.parsed[from] == (nodes, true) && i < |nodes|
    ensures var more := Accepted(files, from, Followed(files, from, nodes[..i]), nodes[i]);
      more.Some? ==> Edge(files, from, more.value.1)
  {
    hide Accepted, Followed;
    var before := Followed(files, from, nodes[..i]);
    var more := Accepted(files, from, before, nodes[i]);
    assert nodes[..i + 1] == nodes[..i] + [nodes[i]];
    FollowedSnoc(files, from, nodes[..i], nodes[i]);
    FollowedStays(files, from, nodes, i + 1);
    if more.Some? {
      assert ImportsOf(files, from)[|before|] == more.value;
    }
  }

  predicate Edge(files: Files, a: string, b: string) {
    exists i | 0 <= i < |ImportsOf(files, a)| :: ImportsOf(files, a)[i].1 == b
  }

  ghost predicate IsPath(files: Files, path: seq<string>) {
    path != [] && forall i, j | 0 <= i < j < |path| && j == i + 1 :: Edge(files, path[i], path[j])
  }

  ghost predicate Reaches(files: Files, a: string, b: string) {
    exists path :: IsPath(files, path) && path[0] == a && path[|path| - 1] == b
  }

  /** A file that imports itself, directly or through others, is reachable from the entry. */
  ghost predicate CycleFrom(files: Files, entry: string) {
    exists a, b :: Reaches(files, entry, a) && Edge(files, a, b) && Reaches(files, b, a)
  }

  lemma {:induction false} Extend(files: Files, a: string, b: string, c: string)
    requires Reaches(files, a, b) && Edge(files, b, c)
    ensures Reaches(files, a, c)
  {
    hide Edge;
    var path :| IsPath(files, path) && path[0] == a && path[|path| - 1] == b;
    var longer := path + [c];
    assert IsPath(files, longer) && longer[0] == a && longer[|longer| - 1] == c;
  }

  lemma {:induction false} Stay(files: Files, a: string)
    ensures Reaches(files, a, a)
  {
    assert IsPath(files, [a]) && [a][0] == a;
  }

  /** Whatever is closed under edges and holds the start holds all that is reachable. */
  lemma {:induction false} ClosedHoldsAll(files: Files, inside: set<string>, path: seq<string>, k: nat)
    requires IsPath(files, path) && k < |path| && path[0] in inside
    requires forall a, b | a in inside && Edge(files, a, b) :: b in inside
    ensures path[k] in inside
  {
    hide Edge;
    if k > 0 {
      ClosedHoldsAll(files, inside, path, k - 1);
      assert Edge(files, path[k - 1], path[k]);
    }
  }

  // ---------- the order in which documents are finished ----------

  /** Files in an order in which every one comes after all it imports. */
  ghost predicate Ordered(files: Files, order: seq<string>) {
    forall k | 0 <= k < |order| :: forall i | 0 <= i < |ImportsOf(files, order[k])| ::
      ImportsOf(files, order[k])[i].1 in order[..k]
  }

  /** Along a path of imports the place in such an order only goes down. */
  lemma {:induction false} PathGoesDown(files: Files, order: seq<string>, path: seq<string>, k: nat, i: nat) returns (j: nat)
    requires Ordered(files, order) && IsPath(files, path) && k < |path| && i < |order| && order[i] == path[0]
    ensures j <= i && order[j] == path[k] && (k > 0 ==> j < i)
    decreases k
  {
    if k == 0 {
      j := i;
    } else {
      var m := PathGoesDown(files, order, path, k - 1, i);
      assert Edge(files, path[k - 1], path[k]);
      var e :| 0 <= e < |ImportsOf(files, path[k - 1])| && ImportsOf(files, path[k - 1])[e].1 == path[k];
      assert ImportsOf(files, order[m])[e].1 in order[..m];
      j :| 0 <= j < m && order[j] == path[k];
    }
  }

  lemma {:induction false} FirstPlace(order: seq<string>, x: string) returns (i: nat)
    requires x in order
    ensures i < |order| && order[i] == x && forall k | 0 <= k < i :: order[k] != x
  {
    if order[0] == x {
      i := 0;
    } else {
      var j := FirstPlace(order[1..], x);
      i := j + 1;
      assert forall k | 0 < k < i :: order[k] == order[1..][k - 1];
    }
  }

  /** An order like that leaves no room for a cycle. */
  lemma {:induction false} OrderedHasNoCycle(files: Files, order: seq<string>, entry: string)
    requires Ordered(files, order) && entry in order
    ensures !CycleFrom(files, entry)
  {
    hide Edge, Ordered;
    forall a, b | Reaches(files, entry, a) && Edge(files, a, b) ensures !Reaches(files, b, a) {
      var down :| IsPath(files, down) && down[0] == entry && down[|down| - 1] == a;
      var i := FirstPlace(order, entry);
      var j := PathGoesDown(files, order, down, |down| - 1, i);
      assert a in order;
      var first := FirstPlace(order, a);
      if Reaches(files, b, a) {
        var back :| IsPath(files, back) && back[0] == b && back[|back| - 1] == a;
        var loop := [a] + back;
        assert IsPath(files, loop);
        var again := PathGoesDown(files, order, loop, |loop| - 1, first);
      }
    }
  }

  // ---------- the loader ----------

  // ---------- what loading is about ----------

  /** The document has the kind asked of it, an extractor for the entry and a module for all others,
      and passes the checks of its own. */
  predicate Right(files: Files, entry: string, path: string) {
    DocumentOK(files, path, KindOf(entry, path))
  }

  function KindOf(entry: string, path: string): string {
    if path == entry then "extractor" else "module"
  }

  /** Something reachable is reported on. */
  ghost predicate Trouble(files: Files, entry: string) {
    CycleFrom(files, entry) || exists p :: Reaches(files, entry, p) && !Right(files, entry, p)
  }

  /** Something reachable cannot be read. */
  ghost predicate Missing(files: Files, entry: string) {
    exists p :: Reaches(files, entry, p) && p !in files.parsed
  }

  const CYCLE := "E_IMPORT_CYCLE"

  predicate NoRepeats(s: seq<string>) {
    forall i, j | 0 <= i < j < |s| :: s[i] != s[j]
  }

  // ---------- what holds while loading ----------

  /** The documents being loaded form one chain of imports, and all that is asked for is reachable. */
  ghost predicate StackOK(files: Files, entry: string, loading: set<string>, stack: seq<string>, visited: set<string>) {
    && (stack != [] ==> stack[0] == entry)
    && loading == (set x | x in stack) && NoRepeats(stack) && loading <= visited
    && (forall i, j | 0 <= i < j < |stack| && j == i + 1 :: Edge(files, stack[i], stack[j]))
    && forall x | x in visited :: Reaches(files, entry, x)
  }

  /** Every document is recorded once. */
  ghost predicate RecordOK(files: Files, documents: map<string, Loaded>, recorded: seq<string>, visited: set<string>) {
    && NoRepeats(recorded) && documents.Keys == (set x | x in recorded)
    && forall x | x in documents :: x in visited && x in files.parsed && files.parsed[x].1
  }

  predicate Explored(files: Files, visited: set<string>, documents: map<string, Loaded>, x: string) {
    && (forall i | 0 <= i < |ImportsOf(files, x)| :: ImportsOf(files, x)[i].1 in visited)
    && (x in documents ==> x in files.parsed && documents[x] == Content(files, x))
  }

  /** What is known of documents that are no longer being loaded. */
  ghost predicate GraphOK(files: Files, visited: set<string>, documents: map<string, Loaded>, stack: seq<string>, finished: seq<string>, cycle: bool) {
    && (forall x | x in visited :: x in files.parsed && (files.parsed[x].1 ==> x in documents))
    && (forall x | x in visited && x !in stack :: Explored(files, visited, documents, x))
    && (!cycle ==> Ordered(files, finished) && forall x | x in visited && x !in stack :: x in finished)
  }

  /** Without reports, what is no longer being loaded is right. */
  ghost predicate AllRight(files: Files, entry: string, visited: set<string>, stack: seq<string>) {
    forall x | x in visited && x !in stack :: Right(files, entry, x)
  }

  lemma {:induction false} RightEnter(files: Files, entry: string, visited: set<string>, stack: seq<string>, path: string)
    requires AllRight(files, entry, visited, stack)
    ensures AllRight(files, entry, visited + {path}, stack + [path])
  {
    hide Right;
    forall x | x in visited + {path} && x !in stack + [path] ensures Right(files, entry, x) {
      InFront(stack, path, x);
    }
  }

  lemma {:induction false} RightLeave(files: Files, entry: string, visited: set<string>, stack: seq<string>, last: string)
    requires AllRight(files, entry, visited, stack) && stack != [] && last == stack[|stack| - 1] && Right(files, entry, last)
    ensures AllRight(files, entry, visited, stack[..|stack| - 1])
  {
    hide Right;
    assert stack == stack[..|stack| - 1] + [last];
  }

  /** The imports of a document followed so far have been visited and, without a cycle, finished. */
  predicate Done(imports: seq<(string, string)>, visited: set<string>, finished: seq<string>, cycle: bool) {
    && (forall i | 0 <= i < |imports| :: imports[i].1 in visited)
    && (!cycle ==> forall i | 0 <= i < |imports| :: imports[i].1 in finished)
  }

  lemma {:induction false} ExploredGrows(files: Files, visited: set<string>, more: set<string>, documents: map<string, Loaded>, next: map<string, Loaded>, x: string)
    requires Explored(files, visited, documents, x) && visited <= more
    requires x in next ==> x in documents && next[x] == documents[x]
    ensures Explored(files, more, next, x)
  {
    hide ImportsOf, Content;
  }

  lemma {:induction false} GraphEnter(files: Files, visited: set<string>, documents: map<string, Loaded>, stack: seq<string>, finished: seq<string>, cycle: bool, path: string)
    requires GraphOK(files, visited, documents, stack, finished, cycle) && path !in documents
    requires path in files.parsed && files.parsed[path].1
    ensures GraphOK(files, visited + {path}, documents[path := Loaded([], None, [])], stack + [path], finished, cycle)
  {
    hide Ordered, Explored;
    var more, next := visited + {path}, documents[path := Loaded([], None, [])];
    forall x | x in more && x !in stack + [path] ensures Explored(files, more, next, x) {
      assert x != path && x in visited && x !in stack by { InFront(stack, path, x); }
      ExploredGrows(files, visited, more, documents, next, x);
    }
    forall x | x in more && x !in stack + [path] ensures x in visited && x !in stack {
      InFront(stack, path, x);
    }
  }

  lemma {:induction false} InFront(stack: seq<string>, path: string, x: string)
    requires x !in stack + [path]
    ensures x !in stack && x != path
  {
    assert forall i | 0 <= i < |stack| :: (stack + [path])[i] == stack[i];
    assert (stack + [path])[|stack|] == path;
  }

  lemma {:induction false} StackEnter(files: Files, entry: string, loading: set<string>, stack: seq<string>, visited: set<string>, path: string)
    requires StackOK(files, entry, loading, stack, visited) && path !in loading && Reaches(files, entry, path)
    requires if stack == [] then path == entry else Edge(files, stack[|stack| - 1], path)
    ensures StackOK(files, entry, loading + {path}, stack + [path], visited + {path})
  {
    hide Edge, Reaches;
  }

  lemma {:induction false} RecordEnter(files: Files, documents: map<string, Loaded>, recorded: seq<string>, visited: set<string>, path: string)
    requires RecordOK(files, documents, recorded, visited) && path !in documents && path in files.parsed && files.parsed[path].1
    ensures RecordOK(files, documents[path := Loaded([], None, [])], recorded + [path], visited + {path})
  {}

  lemma {:induction false} StackLeave(files: Files, entry: string, loading: set<string>, stack: seq<string>, visited: set<string>)
    requires StackOK(files, entry, loading, stack, visited) && stack != []
    ensures StackOK(files, entry, loading - {stack[|stack| - 1]}, stack[..|stack| - 1], visited)
  {
    hide Edge, Reaches;
    var front, last := stack[..|stack| - 1], stack[|stack| - 1];
    assert stack == front + [last];
    assert last !in front;
  }

  lemma {:induction false} GraphLeave(files: Files, visited: set<string>, documents: map<string, Loaded>, stack: seq<string>, finished: seq<string>, cycle: bool, last: string)
    requires GraphOK(files, visited, documents, stack, finished, cycle) && stack != [] && last == stack[|stack| - 1]
    requires Explored(files, visited, documents, last)
    requires !cycle ==> forall i | 0 <= i < |ImportsOf(files, last)| :: ImportsOf(files, last)[i].1 in finished
    ensures GraphOK(files, visited, documents, stack[..|stack| - 1], finished + [last], cycle)
  {
    hide Ordered, Explored, ImportsOf;
    var front := stack[..|stack| - 1];
    assert stack == front + [last];
    if !cycle {
      OrderGrows(files, finished, last);
    }
  }

  lemma {:induction false} GraphRecord(files: Files, visited: set<string>, documents: map<string, Loaded>, stack: seq<string>, finished: seq<string>, cycle: bool, path: string, d: Loaded)
    requires GraphOK(files, visited, documents, stack, finished, cycle) && path in stack && path in documents
    ensures GraphOK(files, visited, documents[path := d], stack, finished, cycle)
  {
    hide Ordered, Explored;
    var next := documents[path := d];
    forall x | x in visited && x !in stack ensures Explored(files, visited, next, x) {
      ExploredGrows(files, visited, visited, documents, next, x);
    }
  }

  /** A file that does not parse imports nothing, so it is finished at once. */
  lemma {:induction false} GraphUnparsable(files: Files, visited: set<string>, documents: map<string, Loaded>, stack: seq<string>, finished: seq<string>, cycle: bool, path: string)
    requires GraphOK(files, visited, documents, stack, finished, cycle)
    requires path in files.parsed && !files.parsed[path].1 && path !in documents
    ensures GraphOK(files, visited + {path}, documents, stack, finished + [path], cycle)
  {
    hide Ordered, Explored;
    var more := visited + {path};
    forall x | x in more && x !in stack ensures Explored(files, more, documents, x) {
      if x == path {
        NothingExplored(files, more, documents, x);
      } else {
        ExploredGrows(files, visited, more, documents, documents, x);
      }
    }
    if !cycle {
      OrderGrows(files, finished, path);
    }
  }

  lemma {:induction false} NothingExplored(files: Files, visited: set<string>, documents: map<string, Loaded>, x: string)
    requires x in files.parsed && !files.parsed[x].1 && x !in documents
    ensures Explored(files, visited, documents, x)
  {}

  lemma {:induction false} LoadingIsVisited(files: Files, entry: string, loading: set<string>, stack: seq<string>, visited: set<string>, path: string)
    requires StackOK(files, entry, loading, stack, visited) && path in loading
    ensures path in visited && stack != []
  {}

  lemma {:induction false} TopIsReached(files: Files, entry: string, loading: set<string>, stack: seq<string>, visited: set<string>)
    requires StackOK(files, entry, loading, stack, visited) && stack != []
    ensures stack[|stack| - 1] in stack && Reaches(files, entry, stack[|stack| - 1])
  {}

  lemma {:induction false} NotLoading(files: Files, entry: string, loading: set<string>, stack: seq<string>, visited: set<string>, path: string)
    requires StackOK(files, entry, loading, stack, visited) && path !in loading
    ensures path !in stack
  {}

  lemma {:induction false} LoadedIsFinished(files: Files, visited: set<string>, documents: map<string, Loaded>, recorded: seq<string>, stack: seq<string>, finished: seq<string>, cycle: bool, path: string)
    requires RecordOK(files, documents, recorded, visited) && GraphOK(files, visited, documents, stack, finished, cycle)
    ensures path in documents ==> path in visited && (!cycle && path !in stack ==> path in finished)
  {}

  class Loader {
    const files: Files
    const entry: string
    var loading: set<string>
    var documents: map<string, Loaded>
    var recorded: seq<string>
    var diags: seq<string>
    /** A file could not be read. */
    var failed: bool
    /** The documents being loaded, outermost first. */
    ghost var stack: seq<string>
    /** Everything ever asked for, and what was finished before any cycle was met, in that order. */
    ghost var visited: set<string>
    ghost var finished: seq<string>

    constructor (files: Files, entry: string)
      ensures this.files == files && this.entry == entry && Valid() && Blamed()
      ensures stack == [] && !failed && diags == [] && visited == {} && documents == map[]
    {
      this.files, this.entry := files, entry;
      loading, documents, recorded, diags, failed := {}, map[], [], [], false;
      stack, visited, finished := [], {}, [];
      new;
    }

    ghost predicate Valid()
      reads this
    {
      && StackOK(files, entry, loading, stack, visited) && RecordOK(files, documents, recorded, visited)
      && (!failed ==> GraphOK(files, visited, documents, stack, finished, CYCLE in diags))
      && (!failed && diags == [] ==> AllRight(files, entry, visited, stack))
      && (CYCLE in diags ==> CycleFrom(files, entry))
    }

    /** Whatever has been reported has a reason, and so has giving up. */
    ghost predicate Blamed()
      reads this`diags, this`failed
    {
      (diags != [] ==> Trouble(files, entry)) && (failed ==> Missing(files, entry))
    }

    method Report(code: string)
      requires Valid() && code != CYCLE
      modifies this`diags
      ensures Valid() && diags == old(diags) + [code] && (CYCLE in diags <==> CYCLE in old(diags))
    {
      hide Edge, Reaches, CycleFrom, StackOK, RecordOK, GraphOK, AllRight;
      diags := diags + [code];
    }

    /** Meeting a document that is being loaded: the chain of imports has closed. */
    method ReportCycle(path: string)
      requires Valid() && Blamed() && path in loading && stack != [] && Edge(files, stack[|stack| - 1], path)
      modifies this`diags
      ensures Valid() && Blamed() && diags == old(diags) + [CYCLE]
    {
      hide AllRight, Right;
      ClosedChain(path);
      diags := diags + [CYCLE];
    }

    lemma {:induction false} ClosedChain(path: string)
      requires StackOK(files, entry, loading, stack, visited) && path in loading && stack != [] && Edge(files, stack[|stack| - 1], path)
      ensures CycleFrom(files, entry)
    {
      hide Edge;
      var i :| 0 <= i < |stack| && stack[i] == path;
      var chain := stack[i..];
      assert IsPath(files, chain) && chain[0] == path && chain[|chain| - 1] == stack[|stack| - 1];
      assert Reaches(files, path, stack[|stack| - 1]);
    }

    /** What a load leaves as it was and what it promises; `path` is what was loaded. */
    twostate predicate Loads(path: string)
      reads this
    {
      && stack == old(stack) && loading == old(loading) && old(diags) <= diags && (old(failed) ==> failed) && old(visited) <= visited
      && (!failed ==> path in visited && (CYCLE !in diags ==> path in finished && forall x | x in old(finished) :: x in finished))
      && forall x | x in stack && x in old(documents) :: x in documents && documents[x] == old(documents[x])
    }

    /** The entry is asked for first and as an extractor, everything else by an import and as a module. */
    ghost predicate AskedFor(path: string, expected: string)
      reads this
    {
      Reaches(files, entry, path) &&
      if stack == [] then path == entry && expected == "extractor" && documents == map[]
      else Edge(files, stack[|stack| - 1], path) && expected == "module"
    }

    /** loadDocument. */
    method LoadDocument(path: string, expected: string)
      requires Valid() && Blamed() && AskedFor(path, expected)
      modifies this
      ensures Valid() && Blamed() && Loads(path)
      decreases Room(), 3
    {
      hide Edge, Reaches, CycleFrom, Followed, Ordered, StackOK, RecordOK, GraphOK, AllRight, Trouble, Missing;
      if failed {
        return;
      }
      if path in loading {
        LoadingIsVisited(files, entry, loading, stack, visited, path);
        ReportCycle(path);
        return;
      }
      LoadedIsFinished(files, visited, documents, recorded, stack, finished, CYCLE in diags, path);
      NotLoading(files, entry, loading, stack, visited, path);
      if path in documents {
        CheckKind(path, expected);
        return;
      }
      if path !in files.parsed {
        NotThere(files, entry, path);
        failed := true;
        return;
      }
      if !files.parsed[path].1 {
        Unparsable(path);
        return;
      }
      LoadContent(path, expected);
    }

    /** How many more documents can be loaded inside each other. */
    ghost function Room(): nat
      reads this`loading
    {
      |files.parsed.Keys - loading|
    }

    /** Loading adds to what is being loaded, and only files that exist. */
    lemma {:induction false} Smaller(path: string)
      requires path in files.parsed && path !in loading
      ensures |files.parsed.Keys - (loading + {path})| < |files.parsed.Keys - loading|
    {
      assert files.parsed.Keys - loading == (files.parsed.Keys - (loading + {path})) + {path};
    }

    /** A document loaded before must be a module. */
    method CheckKind(path: string, expected: string)
      requires Valid() && Blamed() && !failed && AskedFor(path, expected) && path in documents && path !in stack
      modifies this`diags
      ensures Valid() && Blamed() && old(diags) <= diags && (CYCLE in diags <==> CYCLE in old(diags))
    {
      hide Edge, Reaches, CycleFrom, RecordOK, AllRight, Right, Loader.Valid, Ordered;
      if expected == "module" && !(documents[path].root.Some? && documents[path].root.value.name == "module") {
        assert path != entry && documents[path] == Content(files, path) by { LoadedContent(path); }
        NotAModule(files, entry, path);
        Report("E_IMPORT_KIND");
      }
    }

    lemma {:induction false} LoadedContent(path: string)
      requires Valid() && !failed && path in documents && path !in stack && stack != []
      ensures path != entry && path in files.parsed && documents[path] == Content(files, path)
    {
      hide AllRight, Ordered, Content;
    }

    method Unparsable(path: string)
      requires Valid() && Blamed() && !failed && Reaches(files, entry, path) && path !in documents
      requires path in files.parsed && !files.parsed[path].1
      modifies this`diags, this`visited, this`finished
      ensures Valid() && Blamed() && Loads(path)
    {
      hide Edge, Reaches, CycleFrom, Followed, Ordered, GraphOK, AllRight;
      GraphUnparsable(files, visited, documents, stack, finished, CYCLE in diags, path);
      IsTrouble(files, entry, path);
      diags := diags + ["E_KDL_SYNTAX"];
      visited := visited + {path};
      finished := finished + [path];
    }

    method LoadContent(path: string, expected: string)
      requires Valid() && Blamed() && !failed && AskedFor(path, expected)
      requires path !in loading && path !in documents && path in files.parsed && files.parsed[path].1
      modifies this
      ensures Valid() && Blamed() && Loads(path)
      decreases Room(), 2
    {
      hide Edge, Reaches, CycleFrom, ImportsOf, Loader.Valid, Loader.Room, Done, Content, ImportsOK, RootPart, DocumentOK, Trouble, Missing;
      KindIsExpected(path, expected);
      Enter(path, expected);
      var nodes := files.parsed[path].0;
      FollowImports(path, nodes);
      if !failed {
        LoadRoot(path, nodes, expected);
        RightWhenClean(path, expected);
      }
      Leave(path);
    }

    lemma {:induction false} KindIsExpected(path: string, expected: string)
      requires Valid() && AskedFor(path, expected) && path !in loading
      ensures expected == KindOf(entry, path)
    {
      hide Edge, Reaches, GraphOK, RecordOK, AllRight, CycleFrom;
    }

    method Enter(path: string, expected: string)
      requires Valid() && !failed && AskedFor(path, expected)
      requires path !in loading && path !in documents && path in files.parsed && files.parsed[path].1
      modifies this`loading, this`documents, this`recorded, this`stack, this`visited
      ensures Valid() && stack == old(stack) + [path] && loading == old(loading) + {path} && visited == old(visited) + {path}
      ensures documents == old(documents)[path := Loaded([], None, [])] && Room() < old(Room())
    {
      hide Edge, Reaches, CycleFrom, Followed, Ordered, StackOK, GraphOK, ImportsOf, AllRight, RecordOK;
      Smaller(path);
      RecordEnter(files, documents, recorded, visited, path);
      GraphEnter(files, visited, documents, stack, finished, CYCLE in diags, path);
      StackEnter(files, entry, loading, stack, visited, path);
      if diags == [] {
        RightEnter(files, entry, visited, stack, path);
      }
      loading := loading + {path};
      documents := documents[path := Loaded([], None, [])];
      recorded := recorded + [path];
      stack := stack + [path];
      visited := visited + {path};
    }

    method FollowImports(path: string, nodes: seq<K.Node>)
      requires Valid() && Blamed() && !failed && stack != [] && stack[|stack| - 1] == path && Reaches(files, entry, path)
      requires path in documents && documents[path] == Loaded([], None, [])
      requires path in files.parsed && files.parsed[path] == (nodes, true)
      modifies this
      ensures Valid() && Blamed() && stack == old(stack) && loading == old(loading) && old(diags) <= diags && old(visited) <= visited
      ensures forall x | x in stack && x in old(documents) && x != path :: x in documents && documents[x] == old(documents[x])
      ensures path in documents && (!failed ==>
        documents[path] == Loaded(ImportsOf(files, path), None, []) && Done(ImportsOf(files, path), visited, finished, CYCLE in diags))
      ensures !failed && CYCLE !in diags ==> forall x | x in old(finished) :: x in finished
      ensures !failed && diags == [] ==> ImportsOK(files, path, nodes)
      decreases Room(), 5
    {
      hide Edge, Reaches, CycleFrom, Followed, Ordered, StackOK, RecordOK, GraphOK, AllRight, ImportOK, Trouble, Missing, Accepted;
      NothingFollowed(files, path);
      assert nodes[..0] == [];
      for i := 0 to |nodes|
        invariant Valid() && Blamed() && stack == old(stack) && loading == old(loading) && old(diags) <= diags && old(visited) <= visited
        invariant forall x | x in stack && x in old(documents) && x != path :: x in documents && documents[x] == old(documents[x])
        invariant !failed && path in documents && documents[path] == Loaded(Followed(files, path, nodes[..i]), None, [])
        invariant Done(documents[path].imports, visited, finished, CYCLE in diags)
        invariant CYCLE !in diags ==> forall x | x in old(finished) :: x in finished
        invariant diags == [] ==> forall k | 0 <= k < i && nodes[k].name == "import" :: ImportOK(files, path, Followed(files, path, nodes[..k]), nodes[k])
      {
        assert nodes[..i + 1] == nodes[..i] + [nodes[i]];
        FollowedSnoc(files, path, nodes[..i], nodes[i]);
        AcceptedIsEdge(files, path, nodes, i);
        OnlyImports(files, path, Followed(files, path, nodes[..i]), nodes[i]);
        if nodes[i].name == "import" {
          BadImport(files, entry, path, nodes, i);
          FollowImport(path, nodes[i]);
          if failed {
            return;
          }
        }
      }
      assert nodes[..|nodes|] == nodes;
    }

    /** compileImportHeader, for an import that is followed or one that is only reported on. */
    method FollowImport(path: string, n: K.Node)
      requires Valid() && Blamed() && !failed && stack != [] && stack[|stack| - 1] == path && path in documents && Done(documents[path].imports, visited, finished, CYCLE in diags)
      requires n.name == "import"
      requires var more := Accepted(files, path, documents[path].imports, n); more.Some? ==> Edge(files, path, more.value.1)
      requires !ImportOK(files, path, documents[path].imports, n) ==> Trouble(files, entry)
      modifies this
      ensures Valid() && Blamed() && stack == old(stack) && loading == old(loading) && old(diags) <= diags && old(visited) <= visited
      ensures forall x | x in stack && x in old(documents) && x != path :: x in documents && documents[x] == old(documents[x])
      ensures path in documents && (!failed ==>
        var more := Accepted(files, path, old(documents[path].imports), n);
        documents[path] == old(documents[path]).(imports := if more.Some? then old(documents[path].imports) + [more.value] else old(documents[path].imports)))
      ensures !failed ==> Done(documents[path].imports, visited, finished, CYCLE in diags)
      ensures !failed && CYCLE !in diags ==> forall x | x in old(finished) :: x in finished
      ensures diags == [] ==> ImportOK(files, path, old(documents[path].imports), n)
      decreases Room(), 4
    {
      hide Edge, Reaches, CycleFrom, Followed, Ordered, GraphOK, RecordOK, StackOK, ImportsOf, Loader.Room, Accepted, AllRight, ImportOK, Trouble, Missing;
      var before := documents[path].imports;
      var more := CheckHeader(path, n, before);
      if more.None? {
        return;
      }
      TopIsReached(files, entry, loading, stack, visited);
      Extend(files, entry, path, more.value.1);
      LoadDocument(more.value.1, "module");
      Remember(path, documents[path].(imports := before + [more.value]));
    }

    /** The checks of an import header; none, when it is not followed. */
    method CheckHeader(path: string, n: K.Node, before: seq<(string, string)>) returns (more: Option<(string, string)>)
      requires Valid() && n.name == "import"
      modifies this`diags
      ensures Valid() && old(diags) <= diags && (CYCLE in diags <==> CYCLE in old(diags))
      ensures more == Accepted(files, path, before, n)
      ensures diags == old(diags) <==> ImportOK(files, path, before, n)
    {
      hide Edge, Reaches, CycleFrom, Ordered, Loader.Valid, NodeOK, Identifier, TakesAlias;
      if !NodeOK(n, 1, Some(1), map["as" := ExpectString]) {
        Report("E_TYPE_MISMATCH");
      }
      if n.StringArgument(0).None? {
        Report("E_TYPE_MISMATCH");
        return None;
      }
      var alias := n.GetString("as");
      if alias.GetOr("") == "" {
        Report("E_IMPORT_ALIAS_REQUIRED");
        return None;
      }
      if !Identifier(alias.value) {
        Report("E_IDENTIFIER_INVALID");
      }
      if TakesAlias(before, alias.value) {
        Report("E_DUPLICATE_SYMBOL");
        return None;
      }
      if files.remote(n.StringArgument(0).value) {
        Report("E_REMOTE_IMPORT_UNSUPPORTED");
        return None;
      }
      return Some((alias.value, files.resolve(path, n.StringArgument(0).value)));
    }

    /** Writes down more about a document that is being loaded. */
    method Remember(path: string, document: Loaded)
      requires Valid() && path in documents && (path in stack || documents[path] == document)
      modifies this`documents
      ensures Valid() && documents == old(documents)[path := document]
    {
      hide Edge, Reaches, CycleFrom, Followed, Ordered, StackOK, GraphOK, AllRight;
      if !failed && path in stack {
        GraphRecord(files, visited, documents, stack, finished, CYCLE in diags, path, document);
      }
      assert path !in stack ==> documents == documents[path := document];
      documents := documents[path := document];
    }

    /** The root of a document that is being loaded, with its header, and the transforms declared. */
    method LoadRoot(path: string, nodes: seq<K.Node>, expected: string)
      requires Valid() && Blamed() && !failed && path in stack && path in documents && documents[path] == Loaded(ImportsOf(files, path), None, [])
      requires path in files.parsed && files.parsed[path] == (nodes, true) && Reaches(files, entry, path) && expected == KindOf(entry, path)
      requires Done(ImportsOf(files, path), visited, finished, CYCLE in diags)
      modifies this`documents, this`diags
      ensures Valid() && Blamed() && old(diags) <= diags && (CYCLE in diags <==> CYCLE in old(diags))
      ensures documents == old(documents)[path := Content(files, path)]
      ensures diags == [] ==> RootPart(nodes, expected)
    {
      hide Edge, Reaches, CycleFrom, Ordered, ImportsOf, Loader.Valid, RootHeaderOK, DeclarationsOK, LayoutOK, Done, Right, Trouble, Missing;
      BadRoot(files, entry, path, nodes);
      var root := CheckRoot(nodes, expected);
      if root.Some? {
        Remember(path, documents[path].(root := root));
        CheckRootHeader(root.value);
        CollectImports(path);
        CollectTransforms(path);
      }
    }

    /** The nodes that can be a document's root, with reports on all that is out of place. */
    method Roots(nodes: seq<K.Node>) returns (roots: seq<K.Node>)
      requires Valid()
      modifies this`diags
      ensures Valid() && old(diags) <= diags && (CYCLE in diags <==> CYCLE in old(diags))
      ensures roots == RootNodes(nodes) && (diags == old(diags) <==> LayoutOK(nodes))
    {
      hide Loader.Valid, LayoutOK, OnlyImportNodes, RootNodes;
      NoLayout();
      roots := [];
      assert nodes[..0] == [];
      var seenRoot := false;
      for i := 0 to |nodes|
        invariant Valid() && old(diags) <= diags && (CYCLE in diags <==> CYCLE in old(diags))
        invariant roots == RootNodes(nodes[..i])
        invariant seenRoot <==> !OnlyImportNodes(nodes[..i])
        invariant diags == old(diags) <==> LayoutOK(nodes[..i])
      {
        assert nodes[..i + 1] == nodes[..i] + [nodes[i]];
        RootsSnoc(nodes[..i], nodes[i]);
        LayoutSnoc(nodes[..i], nodes[i]);
        if nodes[i].name == "import" {
          if seenRoot {
            Report("E_DOCUMENT_ROOT");
          }
        } else {
          seenRoot := true;
          if IsRoot(nodes[i]) {
            roots := roots + [nodes[i]];
          } else {
            Report("E_UNKNOWN_NODE");
          }
        }
      }
      assert nodes[..|nodes|] == nodes;
    }

    /** The document's one root, and its kind. */
    method CheckRoot(nodes: seq<K.Node>, expected: string) returns (root: Option<K.Node>)
      requires Valid() && (expected == "module" || expected == "extractor")
      modifies this`diags
      ensures Valid() && old(diags) <= diags && (CYCLE in diags <==> CYCLE in old(diags))
      ensures root == RootOf(nodes)
      ensures diags == old(diags) <==> LayoutOK(nodes) && root.Some? && root.value.name == expected
    {
      hide Loader.Valid, LayoutOK, RootNodes;
      var roots := Roots(nodes);
      if |roots| != 1 {
        Report("E_DOCUMENT_ROOT");
        return None;
      }
      if roots[0].name != expected {
        Report(if expected == "module" then "E_IMPORT_KIND" else "E_DOCUMENT_ROOT");
      }
      return Some(roots[0]);
    }

    /** compileRootHeader. */
    method CheckRootHeader(root: K.Node)
      requires Valid()
      modifies this`diags
      ensures Valid() && old(diags) <= diags && (CYCLE in diags <==> CYCLE in old(diags))
      ensures diags == old(diags) <==> RootHeaderOK(root)
    {
      hide Loader.Valid, NodeOK, RootName, DateIdentifier;
      if !NodeOK(root, 1, Some(1), map["version" := ExpectScalar, "language-version" := ExpectScalar]) {
        Report("E_TYPE_MISMATCH");
      }
      var name := root.StringArgument(0);
      if name.None? {
        Report("E_TYPE_MISMATCH");
        return;
      }
      if !RootName(name.value) {
        Report("E_IDENTIFIER_INVALID");
      }
      CheckVersion(root);
      CheckLanguage(root);
      if root.name == "module" {
        CheckModule(root.children);
      }
    }

    /** documentVersion. */
    method CheckVersion(root: K.Node)
      requires Valid()
      modifies this`diags
      ensures Valid() && old(diags) <= diags && (CYCLE in diags <==> CYCLE in old(diags))
      ensures diags == old(diags) <==> VersionOK(root)
    {
      hide Loader.Valid, DateIdentifier;
      if root.Get("version").None? {
        Report("E_DOCUMENT_VERSION_REQUIRED");
        return;
      }
      var version := root.GetString("version");
      if version.None? || !DateIdentifier(version.value) {
        Report("E_DOCUMENT_VERSION_INVALID");
      }
    }

    /** languageVersion: the one supported is a date. */
    method CheckLanguage(root: K.Node)
      requires Valid()
      modifies this`diags
      ensures Valid() && old(diags) <= diags && (CYCLE in diags <==> CYCLE in old(diags))
      ensures diags == old(diags) <==> LanguageOK(root)
    {
      hide Loader.Valid, DateIdentifier;
      if root.Get("language-version").None? {
        Report("E_LANGUAGE_VERSION_REQUIRED");
        return;
      }
      var version := root.GetString("language-version");
      assert DateIdentifier(LANGUAGE_VERSION) by { SupportedIsDate(); }
      if version.None? || !DateIdentifier(version.value) {
        Report("E_LANGUAGE_VERSION_INVALID");
        return;
      }
      if version.value != LANGUAGE_VERSION {
        Report("E_LANGUAGE_VERSION_UNSUPPORTED");
      }
    }

    /** A module holds nothing but transforms. */
    method CheckModule(nodes: seq<K.Node>)
      requires Valid()
      modifies this`diags
      ensures Valid() && old(diags) <= diags && (CYCLE in diags <==> CYCLE in old(diags))
      ensures diags == old(diags) <==> K.Named(nodes, "transform") == nodes
    {
      hide Loader.Valid, K.Named;
      for i := 0 to |nodes|
        invariant Valid() && old(diags) <= diags && (CYCLE in diags <==> CYCLE in old(diags))
        invariant diags == old(diags) <==> forall k | 0 <= k < i :: nodes[k].name == "transform"
      {
        if nodes[i].name != "transform" {
          Report("E_UNKNOWN_NODE");
        }
      }
      AllNamed(nodes, "transform");
    }

    /** The transforms of all imports that were loaded, those of an import without any once more. */
    method CollectImports(path: string)
      requires Valid() && Blamed() && !failed && path in stack && path in documents && Done(documents[path].imports, visited, finished, CYCLE in diags)
      modifies this`documents, this`diags
      ensures Valid() && Blamed() && old(diags) <= diags && (CYCLE in diags <==> CYCLE in old(diags)) && documents == old(documents)
    {
      hide Edge, Reaches, CycleFrom, Ordered, Loader.Valid, Trouble, Missing, Right, Content, DeclarationsOK;
      var imports := documents[path].imports;
      for i := 0 to |imports|
        invariant Valid() && Blamed() && old(diags) <= diags && (CYCLE in diags <==> CYCLE in old(diags)) && documents == old(documents)
      {
        var imported := imports[i].1;
        if imported in documents && imported !in loading {
          LoadedIsSettled(imported);
          CollectTransforms(imported);
        }
      }
    }

    /** What has been loaded has its transforms, so nothing is added by collecting them again. */
    lemma {:induction false} LoadedIsSettled(path: string)
      requires Valid() && !failed && path in visited && path in documents && path !in loading
      ensures path in files.parsed && documents[path] == Content(files, path) && documents[path] == WithTransforms(documents[path])
      ensures !CollectsCleanly(documents[path]) ==> Trouble(files, entry)
    {
      hide Edge, Reaches, CycleFrom, Ordered, AllRight, ImportsOf, RootNodes, LayoutOK, RootHeaderOK, ImportsOK, DeclarationsOK, Trouble;
      assert path !in stack;
      assert Explored(files, visited, documents, path);
      assert Reaches(files, entry, path);
      if !CollectsCleanly(documents[path]) {
        assert !DocumentOK(files, path, KindOf(entry, path));
        IsTrouble(files, entry, path);
      }
    }

    /** collectTransformDecls. */
    method CollectTransforms(path: string)
      requires Valid() && path in documents && (path in stack || documents[path] == WithTransforms(documents[path]))
      requires Blamed() && (!CollectsCleanly(documents[path]) ==> Trouble(files, entry))
      modifies this`documents, this`diags
      ensures Valid() && Blamed() && old(diags) <= diags && (CYCLE in diags <==> CYCLE in old(diags))
      ensures documents == old(documents)[path := WithTransforms(old(documents[path]))]
      ensures diags == old(diags) <==> CollectsCleanly(old(documents[path]))
    {
      hide Edge, Reaches, CycleFrom, Ordered, Loader.Valid, Trouble, Missing, DeclarationsOK, Collected;
      var d := documents[path];
      if d.root.None? || |d.transforms| > 0 {
        return;
      }
      var transforms := Collect(d.root.value.children);
      Remember(path, d.(transforms := transforms));
    }

    method Collect(nodes: seq<K.Node>) returns (transforms: seq<Declared>)
      requires Valid()
      modifies this`diags
      ensures Valid() && old(diags) <= diags && (CYCLE in diags <==> CYCLE in old(diags))
      ensures transforms == Collected(nodes) && (diags == old(diags) <==> DeclarationsOK(nodes))
    {
      hide Loader.Valid, DeclarationOK, Declares, Collected;
      NothingCollected();
      transforms := [];
      assert nodes[..0] == [];
      for i := 0 to |nodes|
        invariant Valid() && old(diags) <= diags && (CYCLE in diags <==> CYCLE in old(diags))
        invariant transforms == Collected(nodes[..i])
        invariant diags == old(diags) <==>
          forall k | 0 <= k < i && nodes[k].name == "transform" :: DeclarationOK(Collected(nodes[..k]), nodes[k])
      {
        assert nodes[..i + 1] == nodes[..i] + [nodes[i]];
        CollectedSnoc(nodes[..i], nodes[i]);
        if nodes[i].name == "transform" {
          var more := CheckDeclaration(transforms, nodes[i]);
          if more.Some? {
            transforms := transforms + [more.value];
          }
        } else {
          OnlyTransforms(transforms, nodes[i]);
        }
      }
      assert nodes[..|nodes|] == nodes;
    }

    /** One `transform` node. */
    method CheckDeclaration(before: seq<Declared>, n: K.Node) returns (more: Option<Declared>)
      requires Valid() && n.name == "transform"
      modifies this`diags
      ensures Valid() && old(diags) <= diags && (CYCLE in diags <==> CYCLE in old(diags))
      ensures more == Declares(before, n) && (diags == old(diags) <==> DeclarationOK(before, n))
    {
      hide Loader.Valid, NodeOK, Identifier, Lookup, TakesName, TypesOf, K.Find, Meets;
      if !NodeOK(n, 1, Some(1), map["input" := ExpectString, "output" := ExpectString]) {
        Report("E_TYPE_MISMATCH");
      }
      var name := n.StringArgument(0);
      if name.None? {
        Report("E_TYPE_MISMATCH");
        return None;
      }
      if !Identifier(name.value) {
        Report("E_IDENTIFIER_INVALID");
      }
      if Lookup(name.value).Some? {
        Report("E_TRANSFORM_SHADOWS_BUILTIN");
      }
      if TakesName(before, name.value) {
        Report("E_DUPLICATE_SYMBOL");
        return None;
      }
      var types := CheckTypes(n);
      return if types.None? then None else Some(Declared(name.value, n, types.value.0, types.value.1));
    }

    /** The types a `transform` node declares. */
    method CheckTypes(n: K.Node) returns (types: Option<(Type, Type)>)
      requires Valid()
      modifies this`diags
      ensures Valid() && old(diags) <= diags && (CYCLE in diags <==> CYCLE in old(diags))
      ensures types == TypesOf(n) && (diags == old(diags) <==> types.Some?)
    {
      hide Loader.Valid, Parse, K.Find;
      var from, to := n.GetString("input"), n.GetString("output");
      if from.None? || to.None? {
        Report("E_TYPE_UNKNOWN");
        return None;
      }
      var input := ParseText(from.value);
      if input.None? {
        Report("E_TYPE_UNKNOWN");
        return None;
      }
      var output := ParseText(to.value);
      if output.None? {
        Report("E_TYPE_UNKNOWN");
        return None;
      }
      return Some((input.value, output.value));
    }

    lemma {:induction false} RightWhenClean(path: string, expected: string)
      requires path in files.parsed && files.parsed[path].1 && expected == KindOf(entry, path)
      requires diags == [] ==> ImportsOK(files, path, files.parsed[path].0) && RootPart(files.parsed[path].0, expected)
      ensures diags == [] ==> Right(files, entry, path)
    {
      hide ImportsOK, LayoutOK, RootHeaderOK, DeclarationsOK, RootOf;
    }

    method Leave(path: string)
      requires Valid() && stack != [] && stack[|stack| - 1] == path && path in documents && path in files.parsed
      requires !failed ==> documents[path] == Content(files, path) && Done(ImportsOf(files, path), visited, finished, CYCLE in diags)
      requires !failed && diags == [] ==> Right(files, entry, path)
      modifies this`loading, this`stack, this`finished
      ensures Valid() && stack == old(stack)[..|old(stack)| - 1] && loading == old(loading) - {path} && finished == old(finished) + [path]
    {
      hide Edge, Reaches, CycleFrom, Followed, Ordered, ImportsOf, StackOK, GraphOK, AllRight, Right, Content;
      StackLeave(files, entry, loading, stack, visited);
      if !failed {
        GraphLeave(files, visited, documents, stack, finished, CYCLE in diags, path);
        if diags == [] {
          RightLeave(files, entry, visited, stack, path);
        }
      }
      loading := loading - {path};
      stack := stack[..|stack| - 1];
      finished := finished + [path];
    }
  }

  // ---------- reasons for reports ----------

  lemma {:induction false} IsTrouble(files: Files, entry: string, path: string)
    requires Reaches(files, entry, path) && !Right(files, entry, path)
    ensures Trouble(files, entry)
  {}

  lemma {:induction false} NotThere(files: Files, entry: string, path: string)
    requires Reaches(files, entry, path) && path !in files.parsed
    ensures Missing(files, entry)
  {}

  lemma {:induction false} NotAModule(files: Files, entry: string, path: string)
    requires Reaches(files, entry, path) && path != entry && path in files.parsed
    requires var root := Content(files, path).root; !(root.Some? && root.value.name == "module")
    ensures Trouble(files, entry)
  {
    hide ImportsOK, LayoutOK, RootHeaderOK, DeclarationsOK, RootNodes, Reaches;
    IsTrouble(files, entry, path);
  }

  lemma {:induction false} BadImport(files: Files, entry: string, path: string, nodes: seq<K.Node>, i: nat)
    requires Reaches(files, entry, path) && path in files.parsed && files.parsed[path] == (nodes, true)
    requires i < |nodes| && nodes[i].name == "import"
    ensures !ImportOK(files, path, Followed(files, path, nodes[..i]), nodes[i]) ==> Trouble(files, entry)
  {
    hide ImportOK, LayoutOK, RootHeaderOK, DeclarationsOK, RootNodes, Reaches, Trouble;
    if !ImportOK(files, path, Followed(files, path, nodes[..i]), nodes[i]) {
      assert !ImportsOK(files, path, nodes);
      IsTrouble(files, entry, path);
    }
  }

  predicate OnlyImportNodes(nodes: seq<K.Node>) {
    forall k | 0 <= k < |nodes| :: nodes[k].name == "import"
  }

  lemma {:induction false} LayoutSnoc(nodes: seq<K.Node>, n: K.Node)
    ensures OnlyImportNodes(nodes + [n]) <==> OnlyImportNodes(nodes) && n.name == "import"
    ensures LayoutOK(nodes + [n]) <==> LayoutOK(nodes) && if n.name == "import" then OnlyImportNodes(nodes) else IsRoot(n)
  {
    var more := nodes + [n];
    assert more[|nodes|] == n && forall k | 0 <= k < |nodes| :: more[k] == nodes[k];
  }

  lemma {:induction false} NoLayout()
    ensures LayoutOK([]) && OnlyImportNodes([]) && RootNodes([]) == []
  {}

  /** What loading checks about the root. */
  predicate RootPart(nodes: seq<K.Node>, kind: string) {
    var root := RootOf(nodes);
    LayoutOK(nodes) && root.Some? && root.value.name == kind && RootHeaderOK(root.value) && DeclarationsOK(root.value.children)
  }

  lemma {:induction false} BadRoot(files: Files, entry: string, path: string, nodes: seq<K.Node>)
    requires Reaches(files, entry, path) && path in files.parsed && files.parsed[path] == (nodes, true)
    ensures !RootPart(nodes, KindOf(entry, path)) ==> Trouble(files, entry)
  {
    hide ImportsOK, LayoutOK, RootHeaderOK, DeclarationsOK, RootOf, Reaches, Trouble;
    if !RootPart(nodes, KindOf(entry, path)) {
      IsTrouble(files, entry, path);
    }
  }

  lemma {:induction false} SupportedIsDate()
    ensures DateIdentifier(LANGUAGE_VERSION)
  {
    var s := LANGUAGE_VERSION;
    assert s[5..7] == "07" && s[8..] == "15";
    assert s[5..7][..1] == "0" && s[8..][..1] == "1";
    assert NatValue("0") == 0 && NatValue("1") == 1;
  }

  lemma {:induction false} OnlyImports(files: Files, from: string, before: seq<(string, string)>, n: K.Node)
    ensures n.name != "import" ==> Accepted(files, from, before, n).None?
  {}

  lemma {:induction false} OnlyTransforms(before: seq<Declared>, n: K.Node)
    ensures n.name != "transform" ==> Declares(before, n).None?
  {}

  /** A document after collecting its transforms, which is done once, unless there are none. */
  function WithTransforms(d: Loaded): Loaded {
    if d.root.None? || |d.transforms| > 0 then d else d.(transforms := Collected(d.root.value.children))
  }

  predicate CollectsCleanly(d: Loaded) {
    d.root.None? || |d.transforms| > 0 || DeclarationsOK(d.root.value.children)
  }

  // ---------- loading as a whole ----------

  /** Loading from the entry document: it fails exactly when something reachable cannot be read, and
      reports nothing exactly when everything reachable is right and there is no cycle. */
  method Load(files: Files, entry: string) returns (loader: Loader)
    ensures fresh(loader) && loader.files == files && loader.entry == entry
    ensures loader.failed <==> Missing(files, entry)
    ensures !loader.failed ==> (loader.diags == [] <==> !Trouble(files, entry))
    ensures !loader.failed ==> (CYCLE in loader.diags <==> CycleFrom(files, entry))
    ensures forall p | p in loader.documents :: Reaches(files, entry, p) && p in files.parsed && files.parsed[p].1
    ensures !loader.failed ==> forall p | Reaches(files, entry, p) && p in files.parsed && files.parsed[p].1 ::
      p in loader.documents && loader.documents[p] == Content(files, p)
    ensures NoRepeats(loader.recorded) && loader.documents.Keys == (set p | p in loader.recorded)
    ensures !loader.failed && CYCLE !in loader.diags ==>
      Ordered(files, loader.finished) && forall p | p in loader.documents :: p in loader.finished
  {
    hide Edge, Reaches, CycleFrom, StackOK, GraphOK, RecordOK, AllRight, Trouble, Missing, Content;
    loader := new Loader(files, entry);
    Stay(files, entry);
    loader.LoadDocument(entry, "extractor");
    WhatIsLoaded(files, entry, loader.loading, loader.visited, loader.documents, loader.recorded);
    if !loader.failed {
      AllIsVisited(files, entry, loader.visited, loader.documents, loader.finished, CYCLE in loader.diags);
      if loader.diags == [] {
        NoTrouble(files, entry, loader.visited);
      }
    }
  }

  lemma {:induction false} WhatIsLoaded(files: Files, entry: string, loading: set<string>, visited: set<string>, documents: map<string, Loaded>, recorded: seq<string>)
    requires StackOK(files, entry, loading, [], visited) && RecordOK(files, documents, recorded, visited)
    ensures forall p | p in documents :: Reaches(files, entry, p) && p in files.parsed && files.parsed[p].1
    ensures NoRepeats(recorded) && documents.Keys == (set p | p in recorded)
  {
    hide Reaches;
  }

  /** When nothing is being loaded any more, all that is reachable has been visited. */
  lemma {:induction false} AllIsVisited(files: Files, entry: string, visited: set<string>, documents: map<string, Loaded>, finished: seq<string>, cycle: bool)
    requires GraphOK(files, visited, documents, [], finished, cycle) && entry in visited
    requires !cycle ==> entry in finished
    ensures forall p | Reaches(files, entry, p) :: p in visited
    ensures !Missing(files, entry)
    ensures forall p | Reaches(files, entry, p) && p in files.parsed && files.parsed[p].1 ::
      p in documents && documents[p] == Content(files, p)
    ensures CycleFrom(files, entry) ==> cycle
    ensures !cycle ==> Ordered(files, finished) && forall p | Reaches(files, entry, p) :: p in finished
  {
    hide Ordered, ImportsOf, CycleFrom, Content;
    forall p | Reaches(files, entry, p) ensures p in visited {
      var path :| IsPath(files, path) && path[0] == entry && path[|path| - 1] == p;
      forall a, b | a in visited && Edge(files, a, b) ensures b in visited {
        assert Explored(files, visited, documents, a);
      }
      ClosedHoldsAll(files, visited, path, |path| - 1);
    }
    forall p | p in visited ensures Explored(files, visited, documents, p) {}
    if !cycle {
      OrderedHasNoCycle(files, finished, entry);
    }
  }

  lemma {:induction false} NoTrouble(files: Files, entry: string, visited: set<string>)
    requires AllRight(files, entry, visited, []) && (forall p | Reaches(files, entry, p) :: p in visited) && !CycleFrom(files, entry)
    ensures !Trouble(files, entry)
  {
    hide Right, Reaches, CycleFrom;
  }

  lemma {:induction false} OrderGrows(files: Files, order: seq<string>, path: string)
    requires Ordered(files, order)
    requires forall i | 0 <= i < |ImportsOf(files, path)| :: ImportsOf(files, path)[i].1 in order
    ensures Ordered(files, order + [path])
  {
    hide ImportsOf;
    var more := order + [path];
    forall k | 0 <= k < |more| ensures forall i | 0 <= i < |ImportsOf(files, more[k])| :: ImportsOf(files, more[k])[i].1 in more[..k] {
      if k < |order| {
        assert more[..k] == order[..k];
      } else {
        assert more[..k] == order;
      }
    }
  }
}
