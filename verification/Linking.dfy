/** From files to a program: `compile` of internal/compiler/compiler.go, which loads the documents,
    lists their transforms and compiles the root. */
module Linking {
  import opened Options
  import opened Text
  import opened Types
  import opened Values
  import opened IR
  import opened Builtins
  import opened Contract
  import opened Naming
  import opened Transforms
  import opened Preflight
  import opened Emission
  import opened Compiler
  import opened Documents
  import opened Imports
  import opened Reachable
  import Frontend
  import Printing
  import Readers
  import W = Walker
  import C = Conformance
  import Parsing
  import K = KDLTree

  // ---------- what is assumed of the files ----------

  /** Every literal in the files is one the lexer can deliver. */
  ghost predicate TreesValid(h: Host, files: Files) {
    forall p | p in files.parsed :: NodesValid(h, files.parsed[p].0)
  }

  ghost predicate NodesValid(h: Host, nodes: seq<K.Node>) {
    forall i | 0 <= i < |nodes| :: ValidTree(h, nodes[i])
  }

  /** Different files are shown differently, as filepath.Rel does with clean paths. */
  ghost predicate DisplaysApart(files: Files) {
    forall p, q | p in files.parsed && q in files.parsed && files.display(p) == files.display(q) :: p == q
  }

  /** Files that were parsed from texts are as assumed. */
  lemma {:induction false} ParsedFilesAreValid(h: Host, files: Files, texts: map<string, string>)
    requires Frontend.FloatsAreRepresentable(h)
    requires forall p | p in files.parsed :: p in texts && files.parsed[p].0 == Parsing.Parse(h, texts[p]).0
    ensures TreesValid(h, files)
  {
    hide Parsing.Parse, Frontend.FloatsAreRepresentable, ValidTree;
    forall p | p in files.parsed ensures NodesValid(h, files.parsed[p].0) {
      Frontend.ParsedTreesAreValid(h, texts[p]);
    }
  }

  // ---------- what loading without reports gives ----------

  /** Exactly the reachable documents, all right, with their contents, and an order with imports first. */
  ghost predicate LoadedCleanly(w: World, entry: string, order: seq<string>) {
    && (forall p :: p in w.documents <==> Reaches(w.files, entry, p))
    && (forall p | p in w.documents :: Right(w.files, entry, p) && p in order)
    && (forall p | p in w.documents :: p in w.files.parsed && w.documents[p] == Content(w.files, p))
    && Ordered(w.files, order)
  }

  lemma {:induction false} NoTroubleMeans(files: Files, entry: string, p: string)
    requires !Trouble(files, entry) && Reaches(files, entry, p)
    ensures Right(files, entry, p) && p in files.parsed && files.parsed[p].1 && !CycleFrom(files, entry)
  {
    hide Reaches, CycleFrom, ImportsOK, LayoutOK, RootHeaderOK, DeclarationsOK;
  }

  /** The list of transforms can be made: all imports are loaded, and can be put in an order. */
  lemma {:induction false} LoadedIsAcyclic(w: World, entry: string, order: seq<string>)
    requires LoadedCleanly(w, entry, order)
    ensures Acyclic(w, order)
  {
    hide Reaches, Right, Ordered, Content;
    forall p | p in w.documents
      ensures w.documents[p].imports == ImportsOf(w.files, p)
      ensures forall i | 0 <= i < |ImportsOf(w.files, p)| :: ImportsOf(w.files, p)[i].1 in w.documents
    {
      ContentHasImports(w.files, p);
      forall i | 0 <= i < |ImportsOf(w.files, p)| ensures ImportsOf(w.files, p)[i].1 in w.documents {
        assert Edge(w.files, p, ImportsOf(w.files, p)[i].1);
        Extend(w.files, entry, p, ImportsOf(w.files, p)[i].1);
      }
    }
  }

  lemma {:induction false} ContentHasImports(files: Files, p: string)
    requires p in files.parsed
    ensures Content(files, p).imports == ImportsOf(files, p)
  {
    hide ImportsOf;
  }

  /** What is right about one document, for those that use it. */
  lemma {:induction false} RightDocument(w: World, entry: string, order: seq<string>, p: string)
    requires LoadedCleanly(w, entry, order) && p in w.documents
    ensures AliasesApart(w.documents[p].imports)
    ensures w.documents[p].root.Some? && w.documents[p].root.value in w.files.parsed[p].0
    ensures w.documents[p].transforms == Collected(w.documents[p].root.value.children)
    ensures DeclarationsOK(w.documents[p].root.value.children)
  {
    hide Reaches, Ordered, ImportsOK, LayoutOK, RootHeaderOK, DeclarationsOK, Collected, Followed;
    AliasesDiffer(w.files, p, w.files.parsed[p].0);
    assert Right(w.files, entry, p);
  }

  /** Names and symbols can be told apart. */
  lemma {:induction false} LoadedIsNamed(w: World, entry: string, order: seq<string>)
    requires LoadedCleanly(w, entry, order) && DisplaysApart(w.files)
    ensures Named(w)
  {
    hide LoadedCleanly, Identifier;
    forall p | p in w.documents ensures NoRepeats(w.Declared(p)) && forall i | 0 <= i < |w.Declared(p)| :: Identifier(w.Declared(p)[i]) {
      RightDocument(w, entry, order, p);
      DeclaredAreNamed(w.documents[p].root.value.children);
    }
    forall p, q | p in w.documents && q in w.documents && w.files.display(p) == w.files.display(q) ensures p == q {
      LoadedIsParsed(w, entry, order, p);
      LoadedIsParsed(w, entry, order, q);
    }
  }

  lemma {:induction false} LoadedIsParsed(w: World, entry: string, order: seq<string>, p: string)
    requires LoadedCleanly(w, entry, order) && p in w.documents
    ensures p in w.files.parsed
  {
    hide Reaches, Ordered, Right, Content;
  }

  lemma {:induction false} DeclaredAreNamed(nodes: seq<K.Node>)
    requires DeclarationsOK(nodes)
    ensures var names := NamesOf(Collected(nodes)); NoRepeats(names) && forall i | 0 <= i < |names| :: Identifier(names[i])
  {
    hide Identifier, Collected, DeclarationsOK;
    CollectedMeaning(nodes);
    DeclaredNames(nodes, |nodes|);
    assert nodes[..|nodes|] == nodes;
  }

  // ---------- scopes and declarations ----------

  /** The symbols of a document's own names. */
  function LocalNames(w: World, path: string): map<string, string> {
    map name | name in w.Declared(path) :: Symbol(w.files.display, path, name)
  }

  /** What a document can name: its own transforms, and by alias those of its imports. */
  function ScopeOf(w: World, path: string): Scope
    requires path in w.documents && AliasesApart(w.documents[path].imports)
  {
    var imports := w.documents[path].imports;
    Scope(LocalNames(w, path), map i: int | 0 <= i < |imports| :: imports[i].0 := LocalNames(w, imports[i].1))
  }

  function Find(declared: seq<Declared>, name: string): (d: Declared)
    requires name in NamesOf(declared)
    ensures d in declared && d.name == name
  {
    if declared[0].name == name then declared[0] else
    assert NamesOf(declared)[1..] == NamesOf(declared[1..]);
    Find(declared[1..], name)
  }

  /** The declaration of a transform by its document and name. */
  function DeclOf(w: World, x: (string, string)): Decl
    requires x.0 in w.documents && x.1 in w.Declared(x.0) && AliasesApart(w.documents[x.0].imports)
  {
    var d := Find(w.documents[x.0].transforms, x.1);
    Decl(Symbol(w.files.display, x.0, x.1), d.node, d.input, d.output, ScopeOf(w, x.0))
  }

  ghost predicate IsDeclared(w: World, d: Decl) {
    exists x: (string, string) ::
      x.0 in w.documents && x.1 in w.Declared(x.0) && AliasesApart(w.documents[x.0].imports) && d == DeclOf(w, x)
  }

  /** Every transform of every loaded document, once, and the signatures of all of them. */
  ghost predicate Linked(w: World, decls: seq<Decl>, g: Signatures) {
    (forall d :: d in decls <==> IsDeclared(w, d)) && DeclaresAll(g, decls)
  }

  predicate Declares(w: World, out: seq<(string, string)>) {
    forall i | 0 <= i < |out| :: out[i].0 in w.documents && out[i].1 in w.Declared(out[i].0) && AliasesApart(w.documents[out[i].0].imports)
  }

  function DeclsOf(w: World, out: seq<(string, string)>): (decls: seq<Decl>)
    requires Declares(w, out)
    ensures |decls| == |out| && forall i | 0 <= i < |out| :: decls[i] == DeclOf(w, out[i])
  {
    seq(|out|, i requires 0 <= i < |out| => DeclOf(w, out[i]))
  }

  predicate SymbolsDiffer(decls: seq<Decl>) {
    forall i, j | 0 <= i < j < |decls| :: decls[i].symbol != decls[j].symbol
  }

  function SignaturesFor(decls: seq<Decl>): (g: Signatures)
    requires SymbolsDiffer(decls)
    ensures DeclaresAll(g, decls)
  {
    map i: int | 0 <= i < |decls| :: decls[i].symbol := (decls[i].input, decls[i].output)
  }

  // ---------- the list is complete ----------

  /** Whatever the entry reaches is the entry itself or needed by it. */
  lemma {:induction false} ReachedIsNeeded(w: World, entry: string, p: string)
    requires entry in w.documents && w.documents[entry].imports == ImportsOf(w.files, entry) && Reaches(w.files, entry, p) && p != entry
    ensures Needed(w, entry, p)
  {
    hide ImportsOf;
    var path :| IsPath(w.files, path) && path[0] == entry && path[|path| - 1] == p;
    assert Edge(w.files, path[0], path[1]);
    var i :| 0 <= i < |ImportsOf(w.files, entry)| && ImportsOf(w.files, entry)[i].1 == path[1];
    var rest := path[1..];
    assert IsPath(w.files, rest) && rest[0] == path[1] && rest[|rest| - 1] == p;
    assert Reaches(w.files, w.documents[entry].imports[i].1, p);
  }

  /** The list of transforms holds every transform of every loaded document. */
  lemma {:induction false} ListIsComplete(w: World, entry: string, place: seq<string>, out: seq<(string, string)>, order: seq<string>, names: map<string, seq<string>>, x: (string, string))
    requires LoadedCleanly(w, entry, place) && Named(w) && Acyclic(w, place) && entry in w.documents && Arranged(w, entry, out, order, names)
    ensures AllDifferent(out) && (x in out <==> x.0 in w.documents && x.1 in w.Declared(x.0))
  {
    hide Reaches, Needed, Named, Right, Content, Arranged, Ordered, ImportsOf;
    EachExactlyOnce(w, entry, out, order, names, x);
    if x.0 in w.documents && x.0 != entry {
      ImportsAreThere(w, place, entry);
      ReachedIsNeeded(w, entry, x.0);
    }
    if x in out && x.0 !in w.documents {
      ListedAreLoaded(w, entry, out, order, names, x);
    }
  }

  lemma {:induction false} ListedAreLoaded(w: World, entry: string, out: seq<(string, string)>, order: seq<string>, names: map<string, seq<string>>, x: (string, string))
    requires entry in w.documents && Arranged(w, entry, out, order, names) && x in out
    ensures x.0 in w.documents
  {
    hide Needed, Lists, Placed;
    OrderIsLoaded(w, order);
    var a, b := Flatten(names, order), Of(entry, w.Declared(entry));
    FlattenHolds(names, order, x);
    if x !in a {
      assert x in b;
    }
  }

  /** Listed transforms have different symbols. */
  lemma {:induction false} ListedDiffer(w: World, out: seq<(string, string)>)
    requires Named(w) && AllDifferent(out) && Declares(w, out)
    ensures SymbolsDiffer(DeclsOf(w, out))
  {
    hide Named, Symbol, Identifier, ScopeOf;
    var decls := DeclsOf(w, out);
    forall i, j | 0 <= i < j < |decls| ensures decls[i].symbol != decls[j].symbol {
      if decls[i].symbol == decls[j].symbol {
        SameSymbol(w, out[i], out[j]);
      }
    }
  }

  lemma {:induction false} SameSymbol(w: World, x: (string, string), y: (string, string))
    requires Named(w) && x.0 in w.documents && x.1 in w.Declared(x.0) && y.0 in w.documents && y.1 in w.Declared(y.0)
    requires Symbol(w.files.display, x.0, x.1) == Symbol(w.files.display, y.0, y.1)
    ensures x == y
  {
    hide Symbol, Identifier;
    Identifiers(w, x.0, x.1);
    Identifiers(w, y.0, y.1);
    SymbolsApart(w.files.display, x.0, y.0, x.1, y.1);
  }

  /** Listing without omissions makes the declarations of the world. */
  lemma {:induction false} ListIsLinked(w: World, out: seq<(string, string)>)
    requires Named(w) && AllDifferent(out) && Declares(w, out)
    requires forall x :: x in out <==> x.0 in w.documents && x.1 in w.Declared(x.0)
    ensures SymbolsDiffer(DeclsOf(w, out)) && Linked(w, DeclsOf(w, out), SignaturesFor(DeclsOf(w, out)))
  {
    hide Named, DeclOf, DeclaresAll;
    ListedDiffer(w, out);
    var decls := DeclsOf(w, out);
    forall d ensures d in decls <==> IsDeclared(w, d) {
      if d in decls {
        var i :| 0 <= i < |decls| && decls[i] == d;
        assert d == DeclOf(w, out[i]);
      }
      if IsDeclared(w, d) {
        var x: (string, string) :|
          x.0 in w.documents && x.1 in w.Declared(x.0) && AliasesApart(w.documents[x.0].imports) && d == DeclOf(w, x);
        var i :| 0 <= i < |out| && out[i] == x;
        assert decls[i] == d;
      }
    }
  }

  // ---------- no dangling symbols ----------

  /** Every name that some loaded document can use has a signature. */
  lemma {:induction false} ScopeIsClosed(w: World, place: seq<string>, decls: seq<Decl>, g: Signatures, path: string)
    requires Acyclic(w, place) && Linked(w, decls, g) && path in w.documents
    requires forall p | p in w.documents :: AliasesApart(w.documents[p].imports)
    ensures ScopeOK(ScopeOf(w, path), g)
  {
    hide Acyclic, Linked, ImportsOf, LocalNames;
    NamesAreKnown(w, decls, g, path);
    ImportsAreThere(w, place, path);
    var imports := w.documents[path].imports;
    var scope := ScopeOf(w, path);
    forall alias | alias in scope.imports ensures forall name | name in scope.imports[alias] :: scope.imports[alias][name] in g {
      var i :| 0 <= i < |imports| && imports[i].0 == alias;
      NamesAreKnown(w, decls, g, imports[i].1);
    }
  }

  lemma {:induction false} NamesAreKnown(w: World, decls: seq<Decl>, g: Signatures, path: string)
    requires Linked(w, decls, g) && path in w.documents && AliasesApart(w.documents[path].imports)
    ensures forall name | name in LocalNames(w, path) :: LocalNames(w, path)[name] in g
  {
    hide ScopeOf, Symbol;
    forall name | name in LocalNames(w, path) ensures LocalNames(w, path)[name] in g {
      var x := (path, name);
      assert x.0 in w.documents && x.1 in w.Declared(x.0) && DeclOf(w, x) == DeclOf(w, (path, name));
      assert IsDeclared(w, DeclOf(w, x));
    }
  }

  /** What the checking compiler relies on holds of all that was loaded. */
  lemma {:induction false} LinkedIsOK(h: Host, w: World, entry: string, place: seq<string>, decls: seq<Decl>, g: Signatures)
    requires LoadedCleanly(w, entry, place) && Linked(w, decls, g) && TreesValid(h, w.files)
    ensures forall p | p in w.documents :: AliasesApart(w.documents[p].imports) && ScopeOK(ScopeOf(w, p), g)
    ensures forall d | d in decls :: DeclOK(h, g, d)
    ensures SignaturesOK(g)
  {
    hide LoadedCleanly, Linked, ScopeOK, ScopeOf, ValidTree, WellFormed, Collected, NodesValid;
    LoadedIsAcyclic(w, entry, place);
    forall p | p in w.documents ensures AliasesApart(w.documents[p].imports) {
      RightDocument(w, entry, place, p);
    }
    forall p | p in w.documents ensures ScopeOK(ScopeOf(w, p), g) {
      ScopeIsClosed(w, place, decls, g, p);
    }
    forall d | d in decls ensures DeclOK(h, g, d) {
      LinkedAreDeclared(w, decls, g, d);
      var x: (string, string) :| x.0 in w.documents && x.1 in w.Declared(x.0) && AliasesApart(w.documents[x.0].imports) && d == DeclOf(w, x);
      RightDocument(w, entry, place, x.0);
      LoadedIsParsed(w, entry, place, x.0);
      DeclaredIsProper(h, w, x);
    }
    SignaturesAreOK(h, w, decls, g);
  }

  lemma {:induction false} LinkedAreDeclared(w: World, decls: seq<Decl>, g: Signatures, d: Decl)
    requires Linked(w, decls, g) && d in decls
    ensures IsDeclared(w, d)
  {
    hide IsDeclared, DeclaresAll;
  }

  lemma {:induction false} SignaturesAreOK(h: Host, w: World, decls: seq<Decl>, g: Signatures)
    requires Linked(w, decls, g) && forall d | d in decls :: DeclOK(h, g, d)
    ensures SignaturesOK(g)
  {
    hide IsDeclared, ScopeOK, ValidTree, WellFormed;
    forall s | s in g ensures WellFormed(g[s].0) && WellFormed(g[s].1) {
      var d :| d in decls && d.symbol == s;
      assert DeclOK(h, g, d);
    }
  }

  lemma {:induction false} DeclaredIsProper(h: Host, w: World, x: (string, string))
    requires x.0 in w.documents && x.1 in w.Declared(x.0) && AliasesApart(w.documents[x.0].imports)
    requires x.0 in w.files.parsed && NodesValid(h, w.files.parsed[x.0].0)
    requires var d := w.documents[x.0]; d.root.Some? && d.root.value in w.files.parsed[x.0].0 && d.transforms == Collected(d.root.value.children)
    ensures var d := DeclOf(w, x); ValidTree(h, d.node) && WellFormed(d.input) && WellFormed(d.output)
  {
    hide ScopeOf, WellFormed, Collected;
    var root := w.documents[x.0].root.value;
    CollectedMeaning(root.children);
    assert ValidTree(h, root);
    var d := Find(w.documents[x.0].transforms, x.1);
    assert Proper(d, root.children);
  }

  /** There is only one way to link. */
  lemma {:induction false} LinkedOnce(w: World, decls: seq<Decl>, g: Signatures, others: seq<Decl>, other: Signatures)
    requires Linked(w, decls, g) && Linked(w, others, other)
    ensures g == other && forall d :: d in decls <==> d in others
  {
    hide IsDeclared;
    forall s | s in g ensures s in other && other[s] == g[s] {
      var d :| d in decls && d.symbol == s;
      assert d in others;
    }
    forall s | s in other ensures s in g {
      var d :| d in others && d.symbol == s;
      assert d in decls;
    }
  }

  // ---------- what names refer to ----------

  predicate ImportsAs(w: World, path: string, alias: string, imported: string)
    requires path in w.documents
  {
    exists i | 0 <= i < |w.documents[path].imports| :: w.documents[path].imports[i] == (alias, imported)
  }

  /** In a document a plain name refers to a transform the document declares, and `alias.name` to one
      declared by the document it imports under that alias. */
  ghost predicate Refers(w: World, path: string, name: string, symbol: string)
    requires path in w.documents
  {
    || ('.' !in name && name in w.Declared(path) && symbol == Symbol(w.files.display, path, name))
    || exists alias, imported, m ::
         && ImportsAs(w, path, alias, imported) && m in w.Declared(imported)
         && name == alias + "." + m && '.' !in alias && '.' !in m
         && symbol == Symbol(w.files.display, imported, m)
  }

  lemma {:induction false} LocalNamesMeaning(w: World, path: string, m: string, symbol: string)
    ensures m in LocalNames(w, path) && LocalNames(w, path)[m] == symbol <==> m in w.Declared(path) && symbol == Symbol(w.files.display, path, m)
  {
    hide Symbol, NamesOf;
  }

  lemma {:induction false} QualifiedRefers(w: World, path: string, alias: string, m: string, symbol: string)
    requires path in w.documents && AliasesApart(w.documents[path].imports)
    ensures Qualified(ScopeOf(w, path), alias, m, symbol) <==>
      '.' !in alias && '.' !in m &&
      exists imported :: ImportsAs(w, path, alias, imported) && m in w.Declared(imported) && symbol == Symbol(w.files.display, imported, m)
  {
    hide Symbol, LocalNames, NamesOf;
    var scope, imports := ScopeOf(w, path), w.documents[path].imports;
    if alias in scope.imports {
      var i :| 0 <= i < |imports| && imports[i].0 == alias;
      assert scope.imports[imports[i].0] == LocalNames(w, imports[i].1);
      LocalNamesMeaning(w, imports[i].1, m, symbol);
      assert ImportsAs(w, path, alias, imports[i].1);
      forall imported | ImportsAs(w, path, alias, imported) ensures imported == imports[i].1 {}
    } else {
      forall imported ensures !ImportsAs(w, path, alias, imported) {}
    }
  }

  /** Names stand for what they refer to, and for nothing else. */
  lemma {:induction false} NamesRefer(w: World, path: string, name: string, symbol: string)
    requires path in w.documents && AliasesApart(w.documents[path].imports)
    ensures Names(ScopeOf(w, path), name, symbol) <==> Refers(w, path, name, symbol)
  {
    hide Symbol, ImportsAs, Qualified, AliasesApart;
    var scope := ScopeOf(w, path);
    forall k | 0 <= k < |name| && name[k] == '.' && Qualified(scope, name[..k], name[k + 1..], symbol) ensures Refers(w, path, name, symbol) {
      QualifiedRefers(w, path, name[..k], name[k + 1..], symbol);
      assert name == name[..k] + "." + name[k + 1..];
    }
    forall alias, imported, m
      | ImportsAs(w, path, alias, imported) && m in w.Declared(imported) && name == alias + "." + m && '.' !in alias && '.' !in m &&
        symbol == Symbol(w.files.display, imported, m)
      ensures Names(scope, name, symbol)
    {
      QualifiedRefers(w, path, alias, m, symbol);
      assert name[|alias|] == '.' && name[..|alias|] == alias && name[|alias| + 1..] == m;
    }
  }

  lemma {:induction false} SomeNamed(nodes: seq<K.Node>, n: K.Node, name: string)
    ensures n in nodes && n.name == name <==> n in K.Named(nodes, name)
  {
    if nodes != [] {
      SomeNamed(nodes[1..], n, name);
    }
  }

  /** Aliases and names are those of the document's own nodes. */
  lemma {:induction false} ImportsAreAsked(w: World, entry: string, order: seq<string>, path: string, alias: string, imported: string)
    requires LoadedCleanly(w, entry, order) && path in w.documents
    ensures path in w.files.parsed
    ensures ImportsAs(w, path, alias, imported) <==> exists n :: n in w.files.parsed[path].0 && Asks(w.files, path, n, alias, imported)
  {
    hide Reaches, Ordered, LayoutOK, RootHeaderOK, DeclarationsOK, Collected, RootOf, Followed, Asks, K.Named, ImportsOK;
    assert Right(w.files, entry, path);
    var nodes := w.files.parsed[path].0;
    var followed := Followed(w.files, path, nodes);
    assert w.documents[path].imports == followed && nodes[..|nodes|] == nodes;
    FollowedMeaning(w.files, path, nodes, alias, imported);
    AllAreFollowed(w.files, path, nodes, |nodes|);
    var imports := K.Named(nodes, "import");
    forall n | n in nodes && Asks(w.files, path, n, alias, imported) ensures ImportsAs(w, path, alias, imported) {
      AsksOnce(w.files, path, n, alias, imported, "", "");
      SomeNamed(nodes, n, "import");
      var i :| 0 <= i < |imports| && imports[i] == n;
      AsksOnce(w.files, path, n, alias, imported, followed[i].0, followed[i].1);
      assert w.documents[path].imports[i] == (alias, imported);
    }
    if ImportsAs(w, path, alias, imported) {
      var i: nat :| AsksFirst(w.files, path, nodes, i, alias, imported);
      assert nodes[i] in nodes;
    }
  }

  lemma {:induction false} AsksOnce(files: Files, from: string, n: K.Node, alias: string, target: string, other: string, place: string)
    requires Asks(files, from, n, alias, target)
    ensures n.name == "import" && (Asks(files, from, n, other, place) ==> other == alias && place == target)
  {}

  lemma {:induction false} DeclaredAreWritten(w: World, entry: string, order: seq<string>, path: string, name: string)
    requires LoadedCleanly(w, entry, order) && path in w.documents
    ensures w.documents[path].root.Some?
    ensures name in w.Declared(path) <==>
      exists n :: n in w.documents[path].root.value.children && n.name == "transform" && n.StringArgument(0) == Some(name)
  {
    hide LoadedCleanly, Collected, DeclarationsOK;
    RightDocument(w, entry, order, path);
    CollectedNames(w.documents[path].root.value.children, name);
    var declared := w.documents[path].transforms;
    forall i | 0 <= i < |declared| ensures w.Declared(path)[i] == declared[i].name {}
  }

  lemma {:induction false} CollectedNames(nodes: seq<K.Node>, name: string)
    requires DeclarationsOK(nodes)
    ensures TakesName(Collected(nodes), name) <==> exists n :: n in nodes && n.name == "transform" && n.StringArgument(0) == Some(name)
  {
    hide Collected, K.Named, DeclarationsOK;
    assert nodes[..|nodes|] == nodes;
    AllAreCollected(nodes, |nodes|);
    var transforms, declared := K.Named(nodes, "transform"), Collected(nodes);
    forall n | n in nodes && n.name == "transform" && n.StringArgument(0) == Some(name) ensures TakesName(declared, name) {
      SomeNamed(nodes, n, "transform");
      var i :| 0 <= i < |transforms| && transforms[i] == n;
      assert declared[i].name == name;
    }
    if TakesName(declared, name) {
      var i :| 0 <= i < |declared| && declared[i].name == name;
      SomeNamed(nodes, transforms[i], "transform");
    }
  }

  /** The target of a call is the built-in of that name, or what the name refers to in its document. */
  ghost predicate CallRefers(w: World, path: string, n: K.Node, call: Call)
    requires path in w.documents
  {
    var name := n.StringArgument(0);
    name.Some? &&
    if Lookup(name.value).Some? then call.target == BuiltinTarget(name.value)
    else call.target.DeclaredTarget? && Refers(w, path, name.value, call.target.symbol)
  }

  ghost predicate CallsRefer(w: World, path: string, applies: seq<K.Node>, calls: seq<Call>)
    requires path in w.documents
  {
    |calls| == |applies| && forall i | 0 <= i < |calls| :: CallRefers(w, path, applies[i], calls[i])
  }

  /** So it is for all fields of an object, at every depth. */
  ghost predicate ObjectRefers(w: World, path: string, nodes: seq<K.Node>, o: OutputObject)
    requires path in w.documents
    decreases o
  {
    |o.members| == |nodes| &&
    forall i | 0 <= i < |nodes| ::
      match o.members[i]
      case FieldMember(f) => CallsRefer(w, path, K.Named(nodes[i].children, "apply"), f.calls)
      case CollectionMember(c) => ObjectRefers(w, path, MemberNodes(nodes[i].children), c.row)
  }

  lemma {:induction false} MirroredCallRefers(h: Host, w: World, path: string, n: K.Node, call: Call)
    requires path in w.documents && AliasesApart(w.documents[path].imports) && Mirrors(h, ScopeOf(w, path), n, call)
    ensures CallRefers(w, path, n, call)
  {
    hide Names, Refers, ScopeOf, RawArguments, NamedArguments, Lookup;
    if call.target.DeclaredTarget? {
      NamesRefer(w, path, n.arguments[0].s, call.target.symbol);
    }
  }

  lemma {:induction false} MirroredObjectRefers(h: Host, w: World, path: string, nodes: seq<K.Node>, o: OutputObject)
    requires path in w.documents && AliasesApart(w.documents[path].imports) && ObjectMirrors(h, ScopeOf(w, path), nodes, o)
    ensures ObjectRefers(w, path, nodes, o)
    decreases o
  {
    hide Mirrors, CallRefers, ScopeOf, MemberNodes, K.Named, ValueMirrors, SelectionMirrors, PolicyOf, FlagOf, RawOf, Parse, CollectionMirrors, AliasesApart;
    forall i | 0 <= i < |nodes| ensures
      match o.members[i]
      case FieldMember(f) => CallsRefer(w, path, K.Named(nodes[i].children, "apply"), f.calls)
      case CollectionMember(c) => ObjectRefers(w, path, MemberNodes(nodes[i].children), c.row)
    {
      assert MemberMirrors(h, ScopeOf(w, path), nodes[i], o.members[i]);
      match o.members[i] {
        case FieldMember(f) =>
          var applies := K.Named(nodes[i].children, "apply");
          assert FieldMirrors(h, ScopeOf(w, path), nodes[i], f);
          forall k | 0 <= k < |f.calls| ensures CallRefers(w, path, applies[k], f.calls[k]) {
            MirroredCallRefers(h, w, path, applies[k], f.calls[k]);
          }
        case CollectionMember(c) => MirroredObjectRefers(h, w, path, MemberNodes(nodes[i].children), c.row);
      }
    }
  }

  /** The transform of a declaration: what its pipeline names, it names in the document that declares it. */
  ghost predicate TransformRefers(w: World, d: Decl, t: Transform) {
    t.Pipeline? ==>
      exists x: (string, string) ::
        && x.0 in w.documents && x.1 in w.Declared(x.0) && AliasesApart(w.documents[x.0].imports) && d == DeclOf(w, x)
        && d.node.children != [] && CallsRefer(w, x.0, d.node.children[0].children, t.calls)
  }

  lemma {:induction false} MirroredTransformRefers(h: Host, w: World, d: Decl, t: Transform)
    requires IsDeclared(w, d) && TransformMirrors(h, d, t)
    ensures TransformRefers(w, d, t)
  {
    hide Mirrors, CallRefers, ScopeOf, Find, Symbol, AliasesApart;
    var x: (string, string) :| x.0 in w.documents && x.1 in w.Declared(x.0) && AliasesApart(w.documents[x.0].imports) && d == DeclOf(w, x);
    if t.Pipeline? {
      var applies := d.node.children[0].children;
      assert d.scope == ScopeOf(w, x.0);
      forall k | 0 <= k < |t.calls| ensures CallRefers(w, x.0, applies[k], t.calls[k]) {
        MirroredCallRefers(h, w, x.0, applies[k], t.calls[k]);
      }
    }
  }

  /** And every other name is reported: a call of a transform is accepted exactly when its name refers to
      one, there are no other arguments, and the input fits. */
  lemma {:induction false} AcceptedNamesRefer(w: World, g: Signatures, path: string, name: string, input: Type, n: K.Node)
    requires path in w.documents && AliasesApart(w.documents[path].imports) && ScopeOK(ScopeOf(w, path), g)
    ensures DeclaredOutput(g, ScopeOf(w, path), name, input, n).Some? <==>
      |n.arguments| == 1 && n.properties == [] && exists symbol :: Refers(w, path, name, symbol) && symbol in g && IsAssignable(input, g[symbol].0)
  {
    hide Names, Refers, ScopeOf, IsAssignable, AliasesApart, Resolve;
    forall symbol ensures Names(ScopeOf(w, path), name, symbol) <==> Refers(w, path, name, symbol) {
      NamesRefer(w, path, name, symbol);
    }
    var symbol := Resolve(ScopeOf(w, path), name);
    if symbol.Some? {
      ResolvedIsKnown(ScopeOf(w, path), g, name);
      assert Names(ScopeOf(w, path), name, symbol.value);
    }
  }

  lemma {:induction false} ResolvedIsKnown(s: Scope, g: Signatures, name: string)
    requires ScopeOK(s, g) && Resolve(s, name).Some?
    ensures Resolve(s, name).value in g
  {
    hide SplitBy;
  }

  // ---------- compiling files ----------

  /** `Panicked` when the Go code slices past the end of an empty argument list. */
  datatype Outcome = Unreadable | Panicked | Rejected(diags: seq<string>) | Compiled(program: Program)

  /** The documents a program is made of. */
  ghost function WorldOf(files: Files, entry: string): World {
    World(files, map p | p in files.parsed && Reaches(files, entry, p) :: Content(files, p))
  }

  /** What the compiler asks of the loaded documents together. */
  ghost predicate WorldAccepted(h: Host, c: Checks, w: World, entry: string, decls: seq<Decl>, g: Signatures) {
    && Linked(w, decls, g) && entry in w.documents && w.documents[entry].root.Some? && AliasesApart(w.documents[entry].imports)
    && ScopeOK(ScopeOf(w, entry), g) && ProgramAccepted(h, c, g, w.documents[entry].root.value, ScopeOf(w, entry), decls)
  }

  /** The compiler comes to an `apply` without arguments in the root or in a transform of some document. */
  ghost predicate WorldPanics(w: World, entry: string, decls: seq<Decl>, g: Signatures) {
    Linked(w, decls, g) && entry in w.documents && w.documents[entry].root.Some? && ProgramPanics(w.documents[entry].root.value, decls)
  }

  ghost predicate FilesPanic(files: Files, entry: string) {
    !Missing(files, entry) && !Trouble(files, entry) && exists decls, g :: WorldPanics(WorldOf(files, entry), entry, decls, g)
  }

  /** What the compiler asks of files: all can be read, each is right, no cycle, and an accepted program. */
  ghost predicate FilesAccepted(h: Host, c: Checks, files: Files, entry: string) {
    !Missing(files, entry) && !Trouble(files, entry) && exists decls, g :: WorldAccepted(h, c, WorldOf(files, entry), entry, decls, g)
  }

  /** A compiled program: everything the executor checks before running it holds, its capabilities are
      those the executor derives, and it says what the documents say. */
  ghost predicate ProgramIsSound(h: Host, c: Checks, w: World, entry: string, decls: seq<Decl>, p: Program) {
    && StaticOK(h, p.transforms, p.output) && StructureOK(h, p.output)
    && p.capabilities == DerivedCapabilities(p.mode, p.steps, p.transforms, p.output)
    && entry in w.documents && w.documents[entry].root.Some? && AliasesApart(w.documents[entry].imports)
    && var root := w.documents[entry].root.value;
       && ProgramMade(h, c, root, p)
       && ObjectMirrors(h, ScopeOf(w, entry), MemberNodes(root.children), p.output)
       && ObjectRefers(w, entry, MemberNodes(root.children), p.output)
       && |p.transforms| == |decls| && (forall d :: d in decls <==> IsDeclared(w, d))
       && forall i | 0 <= i < |decls| ::
            p.transforms[i].symbol == decls[i].symbol && TransformMirrors(h, decls[i], p.transforms[i].body) &&
            TransformRefers(w, decls[i], p.transforms[i].body)
  }

  lemma {:induction false} LoadedWorld(files: Files, entry: string, documents: map<string, Loaded>)
    requires !Trouble(files, entry)
    requires forall p | p in documents :: Reaches(files, entry, p) && p in files.parsed && files.parsed[p].1
    requires forall p | Reaches(files, entry, p) && p in files.parsed && files.parsed[p].1 :: p in documents && documents[p] == Content(files, p)
    ensures World(files, documents) == WorldOf(files, entry)
    ensures entry in documents && forall p :: p in documents <==> Reaches(files, entry, p)
    ensures forall p | p in documents :: Right(files, entry, p) && p in files.parsed && documents[p] == Content(files, p)
  {
    hide Reaches, Right, Content, Trouble;
    Stay(files, entry);
    forall p | Reaches(files, entry, p) ensures Right(files, entry, p) && p in files.parsed && files.parsed[p].1 {
      NoTroubleMeans(files, entry, p);
    }
    assert documents == WorldOf(files, entry).documents;
  }

  lemma {:induction false} AcceptedOnce(h: Host, c: Checks, w: World, entry: string, decls: seq<Decl>, g: Signatures, others: seq<Decl>, other: Signatures)
    requires Linked(w, decls, g) && WorldAccepted(h, c, w, entry, others, other)
    ensures WorldAccepted(h, c, w, entry, decls, g)
  {
    hide InputsAccepted, SourceAccepted, ObjectAccepted, TransformAccepted, Linked, ScopeOf, ScopeOK;
    LinkedOnce(w, decls, g, others, other);
  }

  lemma {:induction false} PanicsOnce(w: World, entry: string, decls: seq<Decl>, g: Signatures, others: seq<Decl>, other: Signatures)
    requires Linked(w, decls, g) && WorldPanics(w, entry, others, other)
    ensures WorldPanics(w, entry, decls, g)
  {
    hide TransformPanics, ObjectPanics, Linked;
    LinkedOnce(w, decls, g, others, other);
  }

  /** compile: what becomes of the files, for every outcome exactly when. */
  method CompileFiles(h: Host, checks: Checks, files: Files, entry: string) returns (r: Outcome)
    requires h.Lawful() && TreesValid(h, files) && DisplaysApart(files)
    ensures r.Unreadable? <==> Missing(files, entry)
    ensures r.Panicked? <==> FilesPanic(files, entry)
    ensures r.Compiled? <==> FilesAccepted(h, checks, files, entry)
    ensures r.Compiled? ==> exists decls :: ProgramIsSound(h, checks, WorldOf(files, entry), entry, decls, r.program)
  {
    hide Missing, Trouble, WorldAccepted, WorldPanics, ProgramIsSound, WorldOf, TreesValid, DisplaysApart, Right, Content, Reaches, CycleFrom, Ordered, Host.Lawful, Arranged;
    var loader := Load(files, entry);
    if loader.failed {
      return Unreadable;
    }
    if loader.diags != [] {
      return Rejected(loader.diags);
    }
    ghost var place := loader.finished;
    LoadedWorld(files, entry, loader.documents);
    assert !CycleFrom(files, entry) by { NoTroubleMeans(files, entry, entry); }
    var w := World(files, loader.documents);
    assert LoadedCleanly(w, entry, place);
    r := CompileWorld(h, checks, w, entry, place);
  }

  method CompileWorld(h: Host, checks: Checks, w: World, entry: string, ghost place: seq<string>) returns (r: Outcome)
    requires h.Lawful() && TreesValid(h, w.files) && DisplaysApart(w.files) && LoadedCleanly(w, entry, place) && entry in w.documents
    ensures !r.Unreadable? && (r.Panicked? <==> exists decls, g :: WorldPanics(w, entry, decls, g))
    ensures r.Compiled? <==> exists decls, g :: WorldAccepted(h, checks, w, entry, decls, g)
    ensures r.Compiled? ==> exists decls :: ProgramIsSound(h, checks, w, entry, decls, r.program)
  {
    hide LoadedCleanly, Linked, TreesValid, DisplaysApart, Named, Acyclic, Arranged, ScopeOf, ScopeOK, DeclOK, Host.Lawful, DeclaresAll, Declares, Symbol,
      ProgramAccepted, ProgramMade, DerivedCapabilities, StaticOK, StructureOK, TransformMirrors, ObjectMirrors, DeclOf, AliasesApart, SymbolsDiffer, SignaturesFor, ProgramPanics, TransformRefers, ObjectRefers,
      IsDeclared, MemberNodes;
    LoadedIsAcyclic(w, entry, place);
    LoadedIsNamed(w, entry, place);
    var out := CompileReachable(w, entry, place);
    ListLinks(w, entry, place, out);
    var decls := DeclsOf(w, out);
    var g := SignaturesFor(decls);
    LinkedIsOK(h, w, entry, place, decls, g);
    RightDocument(w, entry, place, entry);
    RootIsValid(h, w, entry, place);
    var root := w.documents[entry].root.value;
    var c := new Compiler(h, checks, g);
    assert DeclaresAll(g, decls) by { LinkedDeclares(w, decls, g); }
    var p := c.CompileProgram(root, ScopeOf(w, entry), decls);
    if c.panicked {
      assert WorldPanics(w, entry, decls, g);
    } else {
      forall others, other | WorldPanics(w, entry, others, other) ensures false {
        PanicsOnce(w, entry, decls, g, others, other);
      }
    }
    if c.diags != [] {
      forall others, other | WorldAccepted(h, checks, w, entry, others, other) ensures false {
        AcceptedOnce(h, checks, w, entry, decls, g, others, other);
      }
      return if c.panicked then Panicked else Rejected(c.diags);
    }
    assert WorldAccepted(h, checks, w, entry, decls, g);
    MadePasses(h, checks, root, p);
    assert forall d :: d in decls <==> IsDeclared(w, d) by { LinkedDeclares(w, decls, g); }
    MirroredObjectRefers(h, w, entry, MemberNodes(root.children), p.output);
    forall i | 0 <= i < |decls| ensures TransformRefers(w, decls[i], p.transforms[i].body) {
      assert decls[i] in decls;
      MirroredTransformRefers(h, w, decls[i], p.transforms[i].body);
    }
    assert ProgramIsSound(h, checks, w, entry, decls, p);
    return Compiled(p);
  }

  lemma {:induction false} ListLinks(w: World, entry: string, place: seq<string>, out: seq<(string, string)>)
    requires LoadedCleanly(w, entry, place) && Named(w) && Acyclic(w, place) && entry in w.documents
    requires exists order, names :: Arranged(w, entry, out, order, names)
    ensures Declares(w, out) && SymbolsDiffer(DeclsOf(w, out)) && Linked(w, DeclsOf(w, out), SignaturesFor(DeclsOf(w, out)))
  {
    hide LoadedCleanly, Named, Acyclic, Arranged, AllDifferent, Linked, DeclsOf, SymbolsDiffer, AliasesApart;
    var order, names :| Arranged(w, entry, out, order, names);
    forall x: (string, string) ensures AllDifferent(out) && (x in out <==> x.0 in w.documents && x.1 in w.Declared(x.0)) {
      ListIsComplete(w, entry, place, out, order, names, x);
    }
    assert AllDifferent(out) by { ListIsComplete(w, entry, place, out, order, names, ("", "")); }
    forall i | 0 <= i < |out| ensures out[i].0 in w.documents && out[i].1 in w.Declared(out[i].0) && AliasesApart(w.documents[out[i].0].imports) {
      assert out[i] in out;
      RightDocument(w, entry, place, out[i].0);
    }
    ListIsLinked(w, out);
  }

  lemma {:induction false} LinkedDeclares(w: World, decls: seq<Decl>, g: Signatures)
    requires Linked(w, decls, g)
    ensures DeclaresAll(g, decls) && forall d :: d in decls <==> IsDeclared(w, d)
  {
    hide IsDeclared, DeclaresAll;
  }

  lemma {:induction false} RootIsValid(h: Host, w: World, entry: string, place: seq<string>)
    requires LoadedCleanly(w, entry, place) && TreesValid(h, w.files) && entry in w.documents
    ensures w.documents[entry].root.Some? && ValidTree(h, w.documents[entry].root.value)
  {
    hide LoadedCleanly, ValidTree;
    RightDocument(w, entry, place, entry);
    LoadedIsParsed(w, entry, place, entry);
    assert NodesValid(h, w.files.parsed[entry].0);
  }

  lemma {:induction false} MadePasses(h: Host, c: Checks, root: K.Node, p: Program)
    requires ProgramMade(h, c, root, p)
    ensures StaticOK(h, p.transforms, p.output) && StructureOK(h, p.output)
  {
    hide ProgramEmitted, StaticOK, StructureOK, SourceCompiled, SourceMirrors, SelectorsOK, K.Named;
    PreflightsAccept(h, p.transforms, p.output);
  }

  /** End to end: a program compiled from files, run over whatever page, yields exactly what it declares
      if it succeeds, provided that external transforms return JSON-compatible values. */
  lemma {:induction false} CompiledFilesConform<Scope(!new), Element>(env: W.Env<Scope>, page: Readers.Page<Scope, Element>, scope: Scope,
      c: Checks, files: Files, entry: string, decls: seq<Decl>, p: Program)
    requires ProgramIsSound(env.h, c, WorldOf(files, entry), entry, decls, p)
    requires env.rt.declared == DeclaredOf(p.transforms) && ExternalsJSON(env.h, env.rt)
    requires forall scope, f, path :: env.read(scope, f, path) == Readers.ReadField(env.h, page, scope, f)
    requires W.ExecObject(env, scope, p.output, "output").result.Ok?
    ensures C.Conforms(env.h, W.ExecObject(env, scope, p.output, "output").result.value, p.output)
  {
    hide ProgramEmitted, W.ExecObject, C.Conforms, ExternalsJSON, C.ReaderTyped, Readers.ReadField, StaticOK, StructureOK, DerivedCapabilities,
      SourceCompiled, SourceMirrors, SelectorsOK, ObjectMirrors, TransformMirrors, IsDeclared, ScopeOf, WorldOf, AliasesApart;
    Readers.PageReaderIsTyped(env, page);
    CompiledRunConforms(env, scope, p.transforms, p.output);
  }

  // ---------- where compiling goes wrong ----------

  const APPLY := K.Node("apply", [], [], [])

  /** A document that declares a transform whose pipeline applies nothing. */
  const BARE := K.Node("extractor", [K.KString("x")],
    [K.Property("version", K.KString(LANGUAGE_VERSION)), K.Property("language-version", K.KString(LANGUAGE_VERSION))],
    [K.Node("transform", [K.KString("t")], [K.Property("input", K.KString("string")), K.Property("output", K.KString("string"))],
      [K.Node("pipeline", [], [], [APPLY])])])

  lemma {:induction false} BareIsPrintable(h: Host)
    ensures Printing.Printable(h, BARE)
  {
    hide Printing.PlainName;
    BareNamesArePlain();
    assert Printing.Printable(h, APPLY);
    var transform := BARE.children[0];
    assert Printing.Printable(h, transform.children[0]);
    assert Printing.Printable(h, transform);
  }

  lemma {:induction false} BareNamesArePlain()
    ensures forall name | name in ["extractor", "version", "language-version", "transform", "input", "output", "pipeline", "apply"] :: Printing.PlainName(name)
  {}

  lemma {:induction false} BareHeader()
    ensures RootHeaderOK(BARE)
  {
    hide DateIdentifier;
    SupportedIsDate();
  }

  lemma {:induction false} BareDeclares()
    ensures DeclarationsOK(BARE.children)
    ensures Collected(BARE.children) == [Documents.Declared("t", BARE.children[0], STRING, STRING)]
  {
    hide Parse, Lookup, NodeOK;
    ParseShow(STRING);
    assert Parse("string") == Some(STRING);
    NotABuiltin();
    var t := BARE.children[0];
    assert BARE.children[..0] == [] && Collected([]) == [];
    assert Documents.Declares([], t) == Some(Documents.Declared("t", t, STRING, STRING));
    BareTransformIsOK();
  }

  lemma {:induction false} BareTransformIsOK()
    ensures NodeOK(BARE.children[0], 1, Some(1), map["input" := ExpectString, "output" := ExpectString])
  {}

  lemma {:induction false} NotABuiltin()
    ensures Lookup("t").None?
  {}

  /** An extractor alone in its file imports nothing. */
  lemma {:induction false} AloneInFile(files: Files, entry: string, n: K.Node)
    requires n.name == "extractor"
    ensures ImportsOK(files, entry, [n]) && Followed(files, entry, [n]) == [] && LayoutOK([n]) && RootOf([n]) == Some(n)
  {
    assert [n][..0] == [] && Followed(files, entry, []) == [] && RootNodes([]) == [] && RootNodes([n]) == [n];
  }

  lemma {:induction false} BareIsRight(files: Files, entry: string)
    requires files.parsed == map[entry := ([BARE], true)]
    ensures DocumentOK(files, entry, "extractor") && ImportsOf(files, entry) == [] && RootOf([BARE]) == Some(BARE)
  {
    hide RootHeaderOK, DeclarationsOK, LayoutOK, ImportsOK, RootOf, Followed;
    BareHeader();
    BareDeclares();
    AloneInFile(files, entry, BARE);
  }

  lemma {:induction false} NoEdge(files: Files, a: string, b: string)
    requires ImportsOf(files, a) == []
    ensures !Edge(files, a, b)
  {}

  lemma {:induction false} OnlyEntry(files: Files, entry: string, p: string)
    requires ImportsOf(files, entry) == [] && Reaches(files, entry, p)
    ensures p == entry
  {
    hide ImportsOf, Edge;
    var path :| IsPath(files, path) && path[0] == entry && path[|path| - 1] == p;
    if |path| > 1 {
      NoEdge(files, entry, path[1]);
    }
  }

  lemma {:induction false} BarePanics(d: Decl)
    requires d.node == BARE.children[0]
    ensures TransformPanics(d)
  {
    var pipeline := d.node.children[0];
    assert d.node.children[..0] == [] && BodiesOf([]) == [] && BodiesOf(d.node.children) == [pipeline];
    assert pipeline.children[1..] == [] && K.Named(pipeline.children, "apply") == [APPLY];
    assert [APPLY][0].arguments == [];
  }

  /** Its text is parsed and loaded without reports, so the compiler comes to the `apply`, whose
      argument list is empty: there it slices past the end. */
  lemma {:induction false} BareApplyPanics(h: Host, files: Files, entry: string)
    requires Printing.FloatsReadBack(h)
    requires var parsed := Parsing.Parse(h, Printing.NodesText(h, 0, [BARE])); files.parsed == map[entry := (parsed.0, parsed.1 == [])]
    ensures FilesPanic(files, entry)
  {
    hide Parsing.Parse, Printing.NodesText, Printing.FloatsReadBack, DocumentOK, Reaches, ImportsOf, Printing.Printable, Collected, WorldPanics;
    BareIsPrintable(h);
    Printing.PrintThenParse(h, [BARE]);
    BareIsRight(files, entry);
    Stay(files, entry);
    forall p | Reaches(files, entry, p) ensures p == entry {
      OnlyEntry(files, entry, p);
    }
    forall b | Edge(files, entry, b) ensures false {
      NoEdge(files, entry, b);
    }
    assert !CycleFrom(files, entry);
    BareWorldPanics(files, entry);
  }

  lemma {:induction false} BareWorldPanics(files: Files, entry: string)
    requires files.parsed == map[entry := ([BARE], true)] && Reaches(files, entry, entry)
    ensures exists decls, g :: WorldPanics(WorldOf(files, entry), entry, decls, g)
  {
    hide Reaches, Named, Linked, TransformPanics, ObjectPanics, DeclOf, WorldOf, AliasesApart, Content;
    BareWorld(files, entry);
    var w, x := WorldOf(files, entry), (entry, "t");
    BareIsLinked(w, entry);
    var decls := DeclsOf(w, [x]);
    BareDecl(w, entry);
    assert decls[0] in decls;
    BarePanics(decls[0]);
    assert WorldPanics(w, entry, decls, SignaturesFor(decls));
  }

  /** The world of that document: one document with one transform. */
  ghost predicate IsBareWorld(w: World, entry: string) {
    w.documents == map[entry := Loaded([], Some(BARE), [Documents.Declared("t", BARE.children[0], STRING, STRING)])]
  }

  lemma {:induction false} BareWorld(files: Files, entry: string)
    requires files.parsed == map[entry := ([BARE], true)] && Reaches(files, entry, entry)
    ensures IsBareWorld(WorldOf(files, entry), entry)
  {
    hide Reaches, Collected, ImportsOf, RootOf;
    BareIsRight(files, entry);
    BareDeclares();
    assert WorldOf(files, entry).documents == map[entry := Content(files, entry)];
  }

  lemma {:induction false} BareIsLinked(w: World, entry: string)
    requires IsBareWorld(w, entry)
    ensures var out := [(entry, "t")];
      Declares(w, out) && SymbolsDiffer(DeclsOf(w, out)) && Linked(w, DeclsOf(w, out), SignaturesFor(DeclsOf(w, out)))
  {
    hide Linked, DeclsOf, SignaturesFor, SymbolsDiffer;
    assert w.Declared(entry) == ["t"];
    assert Named(w);
    ListIsLinked(w, [(entry, "t")]);
  }

  lemma {:induction false} BareDecl(w: World, entry: string)
    requires IsBareWorld(w, entry)
    ensures var out := [(entry, "t")]; Declares(w, out) && DeclOf(w, out[0]).node == BARE.children[0]
  {
    hide ScopeOf;
    assert w.Declared(entry) == ["t"];
  }
}
