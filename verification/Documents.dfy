/** One file of a program: the header checks of internal/compiler/compiler.go, and what a file that
    passes them contains. */
module Documents {
  import opened Options
  import opened Text
  import opened Types
  import opened Builtins
  import opened Contract
  import opened Compiler
  import K = KDLTree

  /** The file system as the loader sees it: the parsed nodes of a file and whether parsing reported
      nothing, how an import path is resolved against the importing file, which paths are not
      relative, and how a path is shown. A path that is not in the map cannot be read. */
  datatype Files = Files(
    parsed: map<string, (seq<K.Node>, bool)>,
    resolve: (string, string) -> string,
    remote: string -> bool,
    display: string -> string)

  // ---------- imports ----------

  /** The alias and path of an import header, when it has both. */
  function Header(n: K.Node): Option<(string, string)> {
    var path :- n.StringArgument(0);
    var alias :- n.GetString("as");
    if alias == "" then None else Some((alias, path))
  }

  predicate TakesAlias(imports: seq<(string, string)>, alias: string) {
    exists i | 0 <= i < |imports| :: imports[i].0 == alias
  }

  /** The import a node adds to those already followed: its header is complete and not remote, and its
      alias not yet taken. */
  function Accepted(files: Files, from: string, before: seq<(string, string)>, n: K.Node): Option<(string, string)> {
    if n.name != "import" then None else
    var header :- Header(n);
    if TakesAlias(before, header.0) || files.remote(header.1) then None else Some((header.0, files.resolve(from, header.1)))
  }

  /** The imports followed, in order. */
  function Followed(files: Files, from: string, nodes: seq<K.Node>): seq<(string, string)> {
    if nodes == [] then [] else
    var before := Followed(files, from, nodes[..|nodes| - 1]);
    var more := Accepted(files, from, before, nodes[|nodes| - 1]);
    if more.Some? then before + [more.value] else before
  }

  lemma {:induction false} FollowedSnoc(files: Files, from: string, nodes: seq<K.Node>, n: K.Node)
    ensures var before := Followed(files, from, nodes);
      var more := Accepted(files, from, before, n);
      Followed(files, from, nodes + [n]) == if more.Some? then before + [more.value] else before
  {
    assert (nodes + [n])[..|nodes|] == nodes;
  }

  lemma {:induction false} NothingFollowed(files: Files, from: string)
    ensures Followed(files, from, []) == []
  {}

  lemma {:induction false} FollowedStays(files: Files, from: string, nodes: seq<K.Node>, k: nat)
    requires k <= |nodes|
    ensures Followed(files, from, nodes[..k]) <= Followed(files, from, nodes)
    decreases |nodes| - k
  {
    hide Accepted;
    if k < |nodes| {
      assert nodes[..k + 1][..k] == nodes[..k];
      FollowedStays(files, from, nodes, k + 1);
    } else {
      assert nodes[..k] == nodes;
    }
  }

  lemma {:induction false} AcceptedIsNew(files: Files, from: string, before: seq<(string, string)>, n: K.Node)
    requires Accepted(files, from, before, n).Some?
    ensures !TakesAlias(before, Accepted(files, from, before, n).value.0)
  {}

  predicate AliasesApart(imports: seq<(string, string)>) {
    forall i, j | 0 <= i < j < |imports| :: imports[i].0 != imports[j].0
  }

  /** No alias is followed twice. */
  lemma {:induction false} AliasesDiffer(files: Files, from: string, nodes: seq<K.Node>)
    ensures AliasesApart(Followed(files, from, nodes))
  {
    hide Accepted;
    if nodes != [] {
      var front, last := nodes[..|nodes| - 1], nodes[|nodes| - 1];
      AliasesDiffer(files, from, front);
      var before := Followed(files, from, front);
      if Accepted(files, from, before, last).Some? {
        AcceptedIsNew(files, from, before, last);
      }
    }
  }

  /** The node asks for that file under that alias, and the file is not remote. */
  predicate Asks(files: Files, from: string, n: K.Node, alias: string, target: string) {
    && n.name == "import" && n.GetString("as") == Some(alias) && alias != "" && n.StringArgument(0).Some?
    && !files.remote(n.StringArgument(0).value) && files.resolve(from, n.StringArgument(0).value) == target
  }

  ghost predicate AsksFirst(files: Files, from: string, nodes: seq<K.Node>, i: nat, alias: string, target: string) {
    i < |nodes| && Asks(files, from, nodes[i], alias, target) && forall j, other | 0 <= j < i :: !Asks(files, from, nodes[j], alias, other)
  }

  /** Of the local imports under one alias the first is followed, and no others. */
  lemma {:induction false} FollowedMeaning(files: Files, from: string, nodes: seq<K.Node>, alias: string, target: string)
    ensures (alias, target) in Followed(files, from, nodes) <==> exists i: nat :: AsksFirst(files, from, nodes, i, alias, target)
    ensures TakesAlias(Followed(files, from, nodes), alias) <==> AskedFor(files, from, nodes, alias)
  {
    hide Asks;
    if nodes != [] {
      var front, last := nodes[..|nodes| - 1], nodes[|nodes| - 1];
      assert nodes == front + [last];
      var before := Followed(files, from, front);
      FollowedMeaning(files, from, front, alias, target);
      AcceptedAsks(files, from, before, last, alias, target);
      forall i: nat | i < |front| ensures AsksFirst(files, from, nodes, i, alias, target) <==> AsksFirst(files, from, front, i, alias, target) {}
      assert AsksFirst(files, from, nodes, |front|, alias, target) <==>
        Asks(files, from, last, alias, target) && !TakesAlias(before, alias);
      AskedSnoc(files, from, front, last, alias);
      AcceptedTakes(files, from, before, last, alias);
    }
  }

  ghost predicate AskedFor(files: Files, from: string, nodes: seq<K.Node>, alias: string) {
    exists i: nat, other :: i < |nodes| && Asks(files, from, nodes[i], alias, other)
  }

  lemma {:induction false} AskedSnoc(files: Files, from: string, nodes: seq<K.Node>, n: K.Node, alias: string)
    ensures AskedFor(files, from, nodes + [n], alias) <==> AskedFor(files, from, nodes, alias) || exists other :: Asks(files, from, n, alias, other)
  {
    hide Asks;
    var more := nodes + [n];
    assert more[|nodes|] == n;
    forall i: nat, other | i < |nodes| && Asks(files, from, nodes[i], alias, other) ensures i < |more| && Asks(files, from, more[i], alias, other) {}
  }

  lemma {:induction false} AcceptedTakes(files: Files, from: string, before: seq<(string, string)>, n: K.Node, alias: string)
    ensures var more := Accepted(files, from, before, n);
      TakesAlias(if more.Some? then before + [more.value] else before, alias) <==>
        TakesAlias(before, alias) || exists other :: Asks(files, from, n, alias, other)
  {
    hide Asks;
    var more := Accepted(files, from, before, n);
    if more.Some? {
      AcceptedAsks(files, from, before, n, more.value.0, more.value.1);
      var longer := before + [more.value];
      assert longer[|before|] == more.value && forall i | 0 <= i < |before| :: longer[i] == before[i];
    }
    AcceptedAsks(files, from, before, n, alias, "");
  }

  lemma {:induction false} AcceptedAsks(files: Files, from: string, before: seq<(string, string)>, n: K.Node, alias: string, target: string)
    ensures Accepted(files, from, before, n) == Some((alias, target)) <==> Asks(files, from, n, alias, target) && !TakesAlias(before, alias)
    ensures (Accepted(files, from, before, n).Some? && Accepted(files, from, before, n).value.0 == alias) || TakesAlias(before, alias) <==>
      TakesAlias(before, alias) || exists other :: Asks(files, from, n, alias, other)
  {
    if n.StringArgument(0).Some? {
      var other := files.resolve(from, n.StringArgument(0).value);
      assert Asks(files, from, n, alias, other) || !Asks(files, from, n, alias, other);
    }
  }

  /** In a document without reports every import is followed, in order. */
  lemma {:induction false} AllAreFollowed(files: Files, from: string, nodes: seq<K.Node>, k: nat)
    requires ImportsOK(files, from, nodes) && k <= |nodes|
    ensures var imports, followed := K.Named(nodes[..k], "import"), Followed(files, from, nodes[..k]);
      |followed| == |imports| && forall i | 0 <= i < |imports| :: Asks(files, from, imports[i], followed[i].0, followed[i].1)
  {
    hide K.Named, NodeOK, Identifier, Asks, Accepted;
    if k > 0 {
      AllAreFollowed(files, from, nodes, k - 1);
      var front, last := nodes[..k - 1], nodes[k - 1];
      assert nodes[..k] == front + [last];
      NamedSnoc(front, last, "import");
      FollowedSnoc(files, from, front, last);
      if last.name == "import" {
        assert ImportOK(files, from, Followed(files, from, front), last);
        var more := Accepted(files, from, Followed(files, from, front), last).value;
        AcceptedAsks(files, from, Followed(files, from, front), last, more.0, more.1);
      } else {
        NotAnImport(files, from, Followed(files, from, front), last);
      }
    } else {
      assert nodes[..0] == [];
      NoneNamed();
    }
  }

  lemma {:induction false} NotAnImport(files: Files, from: string, before: seq<(string, string)>, n: K.Node)
    requires n.name != "import"
    ensures Accepted(files, from, before, n).None?
  {}

  lemma {:induction false} NoneNamed()
    ensures forall name :: K.Named([], name) == []
  {}

  /** What a file imports; a file that does not parse imports nothing. */
  function ImportsOf(files: Files, path: string): seq<(string, string)> {
    if path in files.parsed && files.parsed[path].1 then Followed(files, path, files.parsed[path].0) else []
  }

  /** compileImportHeader reports nothing. */
  predicate ImportOK(files: Files, from: string, before: seq<(string, string)>, n: K.Node) {
    && NodeOK(n, 1, Some(1), map["as" := ExpectString])
    && var more := Accepted(files, from, before, n); more.Some? && Identifier(more.value.0)
  }

  predicate ImportsOK(files: Files, from: string, nodes: seq<K.Node>) {
    forall i | 0 <= i < |nodes| && nodes[i].name == "import" :: ImportOK(files, from, Followed(files, from, nodes[..i]), nodes[i])
  }

  // ---------- the root and its header ----------

  /** rootNamePattern of internal/compiler/helpers.go. */
  predicate RootName(name: string) {
    name != "" && 'a' <= name[0] <= 'z' &&
    forall i | 0 <= i < |name| :: 'a' <= name[i] <= 'z' || '0' <= name[i] <= '9' || name[i] == '-'
  }

  predicate IsRoot(n: K.Node) {
    n.name == "extractor" || n.name == "module"
  }

  function RootNodes(nodes: seq<K.Node>): (r: seq<K.Node>)
    ensures forall n | n in r :: n in nodes && IsRoot(n)
  {
    if nodes == [] then [] else
    var last := nodes[|nodes| - 1];
    RootNodes(nodes[..|nodes| - 1]) + if IsRoot(last) then [last] else []
  }

  lemma {:induction false} RootsSnoc(nodes: seq<K.Node>, n: K.Node)
    ensures RootNodes([]) == [] && RootNodes(nodes + [n]) == RootNodes(nodes) + if IsRoot(n) then [n] else []
  {
    assert (nodes + [n])[..|nodes|] == nodes;
  }

  function RootOf(nodes: seq<K.Node>): (r: Option<K.Node>)
    ensures r.Some? ==> r.value in nodes && IsRoot(r.value)
  {
    var roots := RootNodes(nodes);
    if |roots| == 1 then Some(roots[0]) else None
  }

  /** Nothing but imports and roots, and no import after a root. */
  predicate LayoutOK(nodes: seq<K.Node>) {
    && (forall i | 0 <= i < |nodes| :: nodes[i].name == "import" || IsRoot(nodes[i]))
    && (forall i, j | 0 <= i < j < |nodes| && nodes[j].name == "import" :: nodes[i].name == "import")
  }

  predicate IsLeap(year: nat) {
    year % 4 == 0 && (year % 100 != 0 || year % 400 == 0)
  }

  function DaysIn(month: nat, year: nat): nat {
    if month == 2 then (if IsLeap(year) then 29 else 28)
    else if month in {4, 6, 9, 11} then 30 else 31
  }

  /** IsDateIdentifier of internal/compatibility/versions.go: a real calendar date. */
  predicate DateIdentifier(s: string) {
    |s| == 10 && s[4] == '-' && s[7] == '-' && AllDigits(s[..4]) && AllDigits(s[5..7]) && AllDigits(s[8..]) &&
    var month := NatValue(s[5..7]);
    1 <= month <= 12 && 1 <= NatValue(s[8..]) <= DaysIn(month, NatValue(s[..4]))
  }

  const LANGUAGE_VERSION := "2026-07-15"

  predicate VersionOK(root: K.Node) {
    root.GetString("version").Some? && DateIdentifier(root.GetString("version").value)
  }

  predicate LanguageOK(root: K.Node) {
    root.GetString("language-version") == Some(LANGUAGE_VERSION)
  }

  /** compileRootHeader reports nothing. */
  predicate RootHeaderOK(root: K.Node) {
    && NodeOK(root, 1, Some(1), map["version" := ExpectScalar, "language-version" := ExpectScalar])
    && root.StringArgument(0).Some? && RootName(root.StringArgument(0).value)
    && VersionOK(root) && LanguageOK(root)
    && (root.name == "module" ==> K.Named(root.children, "transform") == root.children)
  }

  // ---------- declared transforms ----------

  /** A declared transform, as its header says. */
  datatype Declared = Declared(name: string, node: K.Node, input: Type, output: Type)

  predicate TakesName(declared: seq<Declared>, name: string) {
    exists i | 0 <= i < |declared| :: declared[i].name == name
  }

  /** The types a node declares, when both are types of the language. */
  function TypesOf(n: K.Node): Option<(Type, Type)> {
    var from :- n.GetString("input");
    var to :- n.GetString("output");
    var input :- Parse(from);
    var output :- Parse(to);
    Some((input, output))
  }

  /** The transform a node declares after those before it; none when it is only reported on. */
  function Declares(before: seq<Declared>, n: K.Node): Option<Declared> {
    if n.name != "transform" then None else
    var name :- n.StringArgument(0);
    var types :- TypesOf(n);
    if TakesName(before, name) then None else Some(Declared(name, n, types.0, types.1))
  }

  function Collected(nodes: seq<K.Node>): seq<Declared> {
    if nodes == [] then [] else
    var before := Collected(nodes[..|nodes| - 1]);
    var more := Declares(before, nodes[|nodes| - 1]);
    if more.Some? then before + [more.value] else before
  }

  lemma {:induction false} CollectedSnoc(nodes: seq<K.Node>, n: K.Node)
    ensures var before := Collected(nodes);
      var more := Declares(before, n);
      Collected(nodes + [n]) == if more.Some? then before + [more.value] else before
  {
    assert (nodes + [n])[..|nodes|] == nodes;
  }

  lemma {:induction false} NothingCollected()
    ensures Collected([]) == []
  {}

  /** collectTransformDecls reports nothing on the node. */
  predicate DeclarationOK(before: seq<Declared>, n: K.Node) {
    && NodeOK(n, 1, Some(1), map["input" := ExpectString, "output" := ExpectString])
    && var more := Declares(before, n); more.Some? && Identifier(more.value.name) && Lookup(more.value.name).None?
  }

  predicate DeclarationsOK(nodes: seq<K.Node>) {
    forall i | 0 <= i < |nodes| && nodes[i].name == "transform" :: DeclarationOK(Collected(nodes[..i]), nodes[i])
  }

  lemma {:induction false} DeclaresMeaning(before: seq<Declared>, n: K.Node)
    requires Declares(before, n).Some?
    ensures var d := Declares(before, n).value;
      n.name == "transform" && d.node == n && WellFormed(d.input) && WellFormed(d.output) && !TakesName(before, d.name)
  {
    hide WellFormed, Parse;
  }

  predicate Proper(d: Declared, nodes: seq<K.Node>) {
    d.node in nodes && WellFormed(d.input) && WellFormed(d.output)
  }

  predicate NamesApart(declared: seq<Declared>) {
    forall i, j | 0 <= i < j < |declared| :: declared[i].name != declared[j].name
  }

  predicate AllProper(declared: seq<Declared>, nodes: seq<K.Node>) {
    forall d | d in declared :: Proper(d, nodes)
  }

  /** Names differ, types are types of the language, and nodes are nodes of the document. */
  lemma {:induction false} CollectedMeaning(nodes: seq<K.Node>)
    ensures NamesApart(Collected(nodes)) && AllProper(Collected(nodes), nodes)
  {
    hide WellFormed, Declares;
    if nodes != [] {
      var front, last := nodes[..|nodes| - 1], nodes[|nodes| - 1];
      CollectedMeaning(front);
      assert nodes == front + [last];
      if Declares(Collected(front), last).Some? {
        DeclaresMeaning(Collected(front), last);
      }
    }
  }

  /** The node declares a transform of that name, with those types. */
  predicate Says(n: K.Node, d: Declared) {
    && n.name == "transform" && d.node == n && n.StringArgument(0) == Some(d.name)
    && n.GetString("input").Some? && Parse(n.GetString("input").value) == Some(d.input)
    && n.GetString("output").Some? && Parse(n.GetString("output").value) == Some(d.output)
  }

  lemma {:induction false} DeclaresSays(before: seq<Declared>, n: K.Node, d: Declared)
    ensures Declares(before, n) == Some(d) <==> Says(n, d) && !TakesName(before, d.name)
    ensures n.name != "transform" ==> Declares(before, n).None?
  {
    hide Parse;
  }

  /** In a document without reports every transform is collected, in order, as its header says. */
  lemma {:induction false} AllAreCollected(nodes: seq<K.Node>, k: nat)
    requires DeclarationsOK(nodes) && k <= |nodes|
    ensures var transforms, collected := K.Named(nodes[..k], "transform"), Collected(nodes[..k]);
      |collected| == |transforms| && forall i | 0 <= i < |transforms| :: Says(transforms[i], collected[i])
  {
    hide K.Named, NodeOK, Identifier, Lookup, Says, Declares;
    if k > 0 {
      AllAreCollected(nodes, k - 1);
      var front, last := nodes[..k - 1], nodes[k - 1];
      assert nodes[..k] == front + [last];
      NamedSnoc(front, last, "transform");
      CollectedSnoc(front, last);
      var before := Collected(front);
      if last.name == "transform" {
        assert DeclarationOK(before, last);
        DeclaresSays(before, last, Declares(before, last).value);
      } else {
        DeclaresSays(before, last, Declared("", last, UNKNOWN, UNKNOWN));
      }
    } else {
      assert nodes[..0] == [];
      NoneNamed();
    }
  }

  /** In a document without reports every declared name is an identifier and no built-in. */
  lemma {:induction false} DeclaredNames(nodes: seq<K.Node>, k: nat)
    requires DeclarationsOK(nodes) && k <= |nodes|
    ensures var c := Collected(nodes[..k]); forall i | 0 <= i < |c| :: Identifier(c[i].name) && Lookup(c[i].name).None?
  {
    hide Identifier, Lookup, NodeOK, Declares;
    if k > 0 {
      DeclaredNames(nodes, k - 1);
      assert nodes[..k] == nodes[..k - 1] + [nodes[k - 1]];
      CollectedSnoc(nodes[..k - 1], nodes[k - 1]);
      if Declares(Collected(nodes[..k - 1]), nodes[k - 1]).Some? {
        DeclaresMeaning(Collected(nodes[..k - 1]), nodes[k - 1]);
        assert DeclarationOK(Collected(nodes[..k - 1]), nodes[k - 1]);
      }
    }
  }

  // ---------- a whole document ----------

  /** A document as loaded: the imports followed so far, its root, and the transforms collected. */
  datatype Loaded = Loaded(imports: seq<(string, string)>, root: Option<K.Node>, transforms: seq<Declared>)

  /** What loading makes of a file, whether or not it is reported on. */
  function Content(files: Files, path: string): Loaded
    requires path in files.parsed
  {
    var root := RootOf(files.parsed[path].0);
    Loaded(ImportsOf(files, path), root, if root.Some? then Collected(root.value.children) else [])
  }

  /** The checks that loading makes of one file and that have nothing to do with other files. */
  predicate DocumentOK(files: Files, path: string, kind: string) {
    path in files.parsed && files.parsed[path].1 &&
    var nodes := files.parsed[path].0;
    var root := RootOf(nodes);
    && ImportsOK(files, path, nodes) && LayoutOK(nodes)
    && root.Some? && root.value.name == kind && RootHeaderOK(root.value) && DeclarationsOK(root.value.children)
  }
}
