/** From text to the tree the compiler works on: what the parser delivers meets what the compiler
    relies on, and what the writer accepts meets what the compiler checks. */
module Frontend {
  import opened Options
  import opened Floats
  import opened Builtins
  import opened Contract
  import opened Lexing
  import opened Parsing
  import opened Printing
  import opened Emission
  import opened Compiler
  import A = Authoring
  import V = Values
  import K = KDLTree

  // ---------- literals are those of the lexer ----------

  /** What is assumed of strconv.ParseFloat: its results are binary64 numbers. */
  ghost predicate FloatsAreRepresentable(h: V.Host) {
    forall t :: h.parseFloat(false, t).Some? && h.parseFloat(false, t).value.Finite? ==> h.Representable(h.parseFloat(false, t).value.value)
  }

  predicate GoodToken(h: V.Host, t: Token) {
    (t.TInt? ==> V.InRange(V.I64, t.n)) && (t.TFloat? ==> h.Representable(t.r))
  }

  predicate GoodTokens(h: V.Host, ts: seq<Token>) {
    forall i | 0 <= i < |ts| :: GoodToken(h, ts[i])
  }

  lemma {:induction false} QuotedIsText(s: string, read: string)
    ensures var t := Quoted(s, read).token; t.TString? || t.Invalid?
    decreases |s|
  {
    hide Escape;
    if s != "" && s[0] == '\\' && |s| > 1 {
      var e := Escape(s[1..]);
      if e.0.Some? {
        QuotedIsText(s[1 + e.1..], read + [e.0.value]);
      }
    } else if s != "" && s[0] != '\"' && s[0] != '\n' && s[0] != '\r' && s[0] != '\\' {
      QuotedIsText(s[1..], read + [s[0]]);
    }
  }

  lemma {:induction false} StartingIsGood(h: V.Host, s: string)
    requires s != "" && FloatsAreRepresentable(h)
    ensures GoodToken(h, Starting(h, s).token)
  {
    hide Quoted, DecimalLengths, Clean, V.Host.Representable, V.InRange, Repeats, RawLength, HashLength, Keyword, Lexing.WordLength, Lexing.Run;
    if s[0] == '\"' {
      QuotedIsText(s[1..], "");
    }
  }

  lemma {:induction false} NextIsGood(h: V.Host, s: string)
    requires FloatsAreRepresentable(h)
    ensures GoodToken(h, Next(h, s).token)
    decreases |s|
  {
    hide Starting, Ignored, FloatsAreRepresentable, V.Host.Representable, V.InRange;
    if s != "" {
      if Ignored(s).0 > 0 {
        NextIsGood(h, s[Ignored(s).0..]);
      } else {
        StartingIsGood(h, s);
      }
    }
  }

  lemma {:induction false} TokensAreGood(h: V.Host, s: string)
    requires FloatsAreRepresentable(h)
    ensures GoodTokens(h, Tokens(h, s))
    decreases |s|
  {
    hide Next, GoodToken, FloatsAreRepresentable;
    NextIsGood(h, s);
    if !Next(h, s).token.EOF? {
      TokensAreGood(h, s[Next(h, s).size..]);
    }
  }

  // ---------- trees are built from those tokens ----------

  lemma {:induction false} ValueIsValid(h: V.Host, ts: seq<Token>, k: nat)
    requires GoodTokens(h, ts)
    ensures ValueOf(At(ts, k)).Some? ==> ValidLiteral(h, ValueOf(At(ts, k)).value)
  {}

  lemma {:induction false} EntryIsValid(h: V.Host, ts: seq<Token>, k: nat, n: K.Node)
    requires GoodTokens(h, ts) && k < |ts| && ValidTree(h, n)
    ensures ValidTree(h, EntryAt(ts, k, n).value)
  {
    hide ComponentSkipped, AnnotationEnd, ValidLiteral, GoodToken, ValueOf;
    ValueIsValid(h, ts, k);
    ValueIsValid(h, ts, k + 2);
  }

  lemma {:induction false} NodeIsValid(h: V.Host, ts: seq<Token>, k: nat)
    requires GoodTokens(h, ts) && k <= |ts|
    ensures NodeAt(ts, k).value.Some? ==> ValidTree(h, NodeAt(ts, k).value.value)
    decreases |ts| - k, 4
  {
    hide EntriesAt, AnnotationEnd, RecoveryEnd, GoodTokens;
    var i := if At(ts, k).LParen? then AnnotationEnd(ts, k, 0) else k;
    if StartsNode(At(ts, i)) {
      EntriesAreValid(h, ts, i + 1, K.Node(Parsing.NameOf(ts[i]), [], [], []));
    }
  }

  lemma {:induction false} EntriesAreValid(h: V.Host, ts: seq<Token>, k: nat, n: K.Node)
    requires GoodTokens(h, ts) && k <= |ts| && ValidTree(h, n)
    ensures ValidTree(h, EntriesAt(ts, k, n).value)
    decreases |ts| - k, 3
  {
    hide EntryAt, ChildrenAt, GoodTokens, ValidLiteral;
    var t := At(ts, k);
    if t.LBrace? {
      ChildrenAreValid(h, ts, k + 1);
    } else if !t.EOF? && !t.RBrace? && !Ends(t) {
      EntryIsValid(h, ts, k, n);
      EntriesAreValid(h, ts, EntryAt(ts, k, n).k, EntryAt(ts, k, n).value);
    }
  }

  lemma {:induction false} ChildrenAreValid(h: V.Host, ts: seq<Token>, k: nat)
    requires GoodTokens(h, ts) && k <= |ts|
    ensures forall i | 0 <= i < |ChildrenAt(ts, k).value| :: ValidTree(h, ChildrenAt(ts, k).value[i])
    decreases |ts| - k, 6
  {
    hide ItemAt, GoodTokens, ValidTree;
    var t := At(ts, k);
    if !t.EOF? && !t.RBrace? {
      ItemIsValid(h, ts, k);
      ChildrenAreValid(h, ts, ItemAt(ts, k).k);
    }
  }

  lemma {:induction false} ItemIsValid(h: V.Host, ts: seq<Token>, k: nat)
    requires GoodTokens(h, ts) && k < |ts| && !ts[k].RBrace?
    ensures forall i | 0 <= i < |ItemAt(ts, k).value| :: ValidTree(h, ItemAt(ts, k).value[i])
    decreases |ts| - k, 5
  {
    hide NodeAt, NodeSkipped, GoodTokens, ValidTree;
    NodeIsValid(h, ts, k);
  }

  lemma {:induction false} DocumentIsValid(h: V.Host, ts: seq<Token>, k: nat)
    requires GoodTokens(h, ts) && k <= |ts|
    ensures forall i | 0 <= i < |DocumentAt(ts, k).value| :: ValidTree(h, DocumentAt(ts, k).value[i])
    decreases |ts| - k
  {
    hide ItemAt, GoodTokens, ValidTree;
    if k < |ts| {
      if !ts[k].RBrace? {
        ItemIsValid(h, ts, k);
      }
      DocumentIsValid(h, ts, TopItemAt(ts, k).k);
    }
  }

  /** Every tree the parser delivers, from any text, has only literals the compiler can rely on. */
  lemma {:induction false} ParsedTreesAreValid(h: V.Host, text: string)
    requires FloatsAreRepresentable(h)
    ensures var nodes := Parse(h, text).0; forall i | 0 <= i < |nodes| :: ValidTree(h, nodes[i])
  {
    hide Tokens, Reports, DocumentAt, GoodTokens, FloatsAreRepresentable, ValidTree;
    TokensAreGood(h, text);
    DocumentIsValid(h, Tokens(h, text), 0);
  }

  // ---------- slashdash ----------

  /** A slashdash in front of a node drops exactly that node, children and all. */
  lemma {:induction false} SlashdashDropsNode(ts: seq<Token>, k: nat, n: K.Node)
    requires Stands(ts, k, [Slashdash] + NodeTokens(n))
    ensures k < |ts| && ItemAt(ts, k) == Parsed([], k + 1 + |NodeTokens(n)|, [])
  {
    hide NodeTokens, NodeAt, Stands;
    StandsSplit(ts, k, [Slashdash], NodeTokens(n));
    StandsAt(ts, k, [Slashdash] + NodeTokens(n), 0);
    NodeParses(ts, k + 1, n);
    NodeStarts(ts, k + 1, n);
  }

  lemma {:induction false} NodeStarts(ts: seq<Token>, k: nat, n: K.Node)
    requires Stands(ts, k, NodeTokens(n))
    ensures At(ts, k) == Word(n.name) && k < |ts|
  {
    hide NodesTokens, ArgumentTokens, PropertyTokens, Stands;
    StandsAt(ts, k, NodeTokens(n), 0);
  }

  // ---------- the writer and the compiler agree on calls ----------

  lemma {:induction false} NamedAreGiven(names: seq<string>, named: map<string, A.Scalar>, i: nat)
    requires i < |A.NamedProperties(names, named)|
    ensures var p := A.NamedProperties(names, named)[i]; p.name in names && p.name in named && named[p.name] == Some(p.value)
  {
    if names != [] {
      var first := if names[0] in named && named[names[0]].Some? then 1 else 0;
      if i >= first {
        NamedAreGiven(names[1..], named, i - first);
      }
    }
  }

  lemma {:induction false} NamedAreDistinct(names: seq<string>, named: map<string, A.Scalar>, i: nat, j: nat)
    requires i < j < |A.NamedProperties(names, named)| && forall a, b | 0 <= a < b < |names| :: names[a] != names[b]
    ensures A.NamedProperties(names, named)[i].name != A.NamedProperties(names, named)[j].name
  {
    var first := if names[0] in named && named[names[0]].Some? then 1 else 0;
    if i >= first {
      NamedAreDistinct(names[1..], named, i - first, j - first);
    } else {
      NamedAreGiven(names[1..], named, j - 1);
    }
  }

  lemma {:induction false} CatalogNamesDiffer(b: Builtin)
    ensures forall i, j | 0 <= i < j < |A.ArgumentNames(b)| :: A.ArgumentNames(b)[i] != A.ArgumentNames(b)[j]
  {}

  /** A call the writer accepts has the shape the compiler asks of an `apply` node: argument count,
      property names and literal kinds, none twice, and the required ones there. */
  lemma {:induction false} WrittenCallsFit(call: A.BuiltinCall)
    requires A.CallOK(call)
    ensures var b, n := Lookup(call.name).value, A.CallNode(call);
      NodeOK(n, 1, None, Allowed(b)) && HasRequired(n, Required(b)) && 1 + MinPositional(b) <= |n.arguments|
  {
    hide Lookup, Allowed, Required, A.ArgumentNames, Meets, A.NamedProperties, A.InCatalogRange, MinPositional, MaxPositional, K.Find;
    var b, n := Lookup(call.name).value, A.CallNode(call);
    CatalogNamesDiffer(b);
    forall i | 0 <= i < |n.properties| ensures PropertyOK(n, i, Allowed(b)) {
      NamedAreGiven(A.ArgumentNames(b), call.named, i);
      assert A.NamedOK(b, n.properties[i].name, call.named[n.properties[i].name]);
      forall j | 0 <= j < i ensures n.properties[j].name != n.properties[i].name {
        NamedAreDistinct(A.ArgumentNames(b), call.named, j, i);
      }
    }
    A.RequiredAreListed(b);
    forall name | name in Required(b) ensures n.Get(name).Some? {
      assert A.NamedOK(b, name, call.named[name]);
      GivenAreNamed(A.ArgumentNames(b), call.named, name);
    }
  }

  lemma {:induction false} GivenAreNamed(names: seq<string>, named: map<string, A.Scalar>, name: string)
    requires name in names && name in named && named[name].Some?
    ensures K.Property(name, named[name].value) in A.NamedProperties(names, named)
  {
    if names[0] != name {
      GivenAreNamed(names[1..], named, name);
    }
  }
}
