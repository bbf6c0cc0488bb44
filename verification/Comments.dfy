/** Comments and blanks: where they end, and that a document reads the same with them. */
module Comments {
  import opened Options
  import opened Text
  import opened Lexing
  import opened Parsing
  import opened Printing
  import V = Values
  import K = KDLTree

  // ---------- line comments ----------

  lemma {:induction false} LineLengthOf(c: string, rest: string)
    requires '\n' !in c && (rest == "" || rest[0] == '\n')
    ensures LineLength(c + rest) == |c|
  {
    if c == "" {
      assert c + rest == rest;
    } else {
      assert c[0] in c && (c + rest)[1..] == c[1..] + rest;
      LineLengthOf(c[1..], rest);
    }
  }

  /** What is skipped leaves no tokens and its own reports. */
  lemma {:induction false} SkippedLexes(h: V.Host, a: string, rest: string)
    requires a != "" && Ignored(a + rest) == (|a|, [])
    ensures Lexes(h, a, [], rest)
  {
    hide Ignored, Here;
    var s := a + rest;
    assert s[|a|..] == rest;
    var n := Next(h, rest);
    assert Next(h, s) == Lexed(n.token, |a| + n.size, [] + n.reports);
    assert [] + n.reports == n.reports;
    assert s[|a| + n.size..] == rest[n.size..];
    assert [] + Tokens(h, rest) == Tokens(h, rest);
  }

  /** A line comment ends before the line break, or with the text. */
  lemma {:induction false} LineCommentLexes(h: V.Host, c: string, rest: string)
    requires '\n' !in c && (rest == "" || rest[0] == '\n')
    ensures Lexes(h, "//" + c, [], rest)
  {
    hide Next, LineLength;
    var a := "//" + c;
    LineLengthOf(a, rest);
    assert (a + rest)[0] == '/' && Peek(a + rest, 1) == '/';
    SkippedLexes(h, a, rest);
  }

  // ---------- block comments ----------

  /** The inside of a block comment: characters, and block comments in it. */
  datatype Piece = Single(c: char) | Nested(body: seq<Piece>)

  function PieceText(p: Piece): string
    decreases p, 0
  {
    match p
    case Single(c) => [c]
    case Nested(body) => "/*" + BodyText(body) + "*/"
  }

  function BodyText(body: seq<Piece>): string
    decreases body, 1
  {
    if body == [] then "" else PieceText(body[0]) + BodyText(body[1..])
  }

  /** No single character opens or closes a comment together with the one after it. */
  predicate Proper(body: seq<Piece>, after: string)
    decreases body
  {
    body == [] ||
    (var rest := BodyText(body[1..]) + after;
     Proper(body[1..], after) &&
     match body[0]
     case Single(c) => (c == '/' ==> Peek(rest, 0) != '*') && (c == '*' ==> Peek(rest, 0) != '/')
     case Nested(inner) => Proper(inner, "*/" + rest))
  }

  /** The inside of a comment leaves the nesting as it is. */
  lemma {:induction false} BodyIsPassed(body: seq<Piece>, after: string, depth: nat)
    requires depth >= 1 && Proper(body, after)
    ensures var r := BlockLength(after, depth); BlockLength(BodyText(body) + after, depth) == (|BodyText(body)| + r.0, r.1)
    decreases body, 0
  {
    hide BlockLength, PieceText;
    if body == [] {
      assert BodyText(body) + after == after;
    } else {
      var rest := BodyText(body[1..]) + after;
      assert BodyText(body) + after == PieceText(body[0]) + rest;
      BodyIsPassed(body[1..], after, depth);
      match body[0] {
        case Single(c) =>
          assert PieceText(body[0]) == [c] by { SingleText(c); }
          SinglePassed(c, rest, depth);
        case Nested(inner) => NestedPassed(inner, rest, depth);
      }
    }
  }

  lemma {:induction false} SingleText(c: char)
    ensures PieceText(Single(c)) == [c]
  {}

  lemma {:induction false} NestedPassed(inner: seq<Piece>, rest: string, depth: nat)
    requires depth >= 1 && Proper(inner, "*/" + rest)
    ensures var text, r := PieceText(Nested(inner)), BlockLength(rest, depth); BlockLength(text + rest, depth) == (|text| + r.0, r.1)
    decreases inner, 1
  {
    hide BlockLength, BodyText, Proper;
    var close := "*/" + rest;
    assert PieceText(Nested(inner)) + rest == "/*" + (BodyText(inner) + close);
    MarkPassed("/*", BodyText(inner) + close, depth, 1);
    BodyIsPassed(inner, close, depth + 1);
    MarkPassed("*/", rest, depth + 1, -1);
  }

  lemma {:induction false} SinglePassed(c: char, rest: string, depth: nat)
    requires depth >= 1 && (c == '/' ==> Peek(rest, 0) != '*') && (c == '*' ==> Peek(rest, 0) != '/')
    ensures var r := BlockLength(rest, depth); BlockLength([c] + rest, depth) == (1 + r.0, r.1)
  {
    var s := [c] + rest;
    assert s[0] == c && s[1..] == rest && Peek(s, 1) == Peek(rest, 0);
  }

  lemma {:induction false} MarkPassed(mark: string, rest: string, depth: nat, step: int)
    requires depth >= 1 && depth + step >= 1 && ((mark == "/*" && step == 1) || (mark == "*/" && step == -1))
    ensures var r := BlockLength(rest, depth + step); BlockLength(mark + rest, depth) == (2 + r.0, r.1)
  {
    var s := mark + rest;
    assert s[0] == mark[0] && Peek(s, 1) == mark[1] && s[2..] == rest;
  }

  lemma {:induction false} LastMark(rest: string)
    ensures BlockLength("*/" + rest, 1) == (2, true)
  {
    var s := "*/" + rest;
    assert s[0] == '*' && Peek(s, 1) == '/';
  }

  /** A closed block comment, whatever comments are in it, is skipped as a whole. */
  lemma {:induction false} BlockCommentLexes(h: V.Host, body: seq<Piece>, rest: string)
    requires Proper(body, "*/" + rest)
    ensures Lexes(h, "/*" + BodyText(body) + "*/", [], rest)
  {
    hide BlockLength, Next;
    var a := "/*" + BodyText(body) + "*/";
    var s := a + rest;
    assert s == "/*" + (BodyText(body) + ("*/" + rest)) && s[2..] == BodyText(body) + ("*/" + rest);
    BodyIsPassed(body, "*/" + rest, 1);
    LastMark(rest);
    assert s[0] == '/' && Peek(s, 1) == '*';
    SkippedLexes(h, a, rest);
  }

  /** Without any closing mark the rest of the text is a comment, and that is reported. */
  lemma {:induction false} OpenCommentIsReported(h: V.Host, s: string)
    requires forall k | 0 <= k < |s| - 1 :: !(s[k] == '*' && s[k + 1] == '/')
    ensures Tokens(h, "/*" + s) == [] && Reports(h, "/*" + s) == [SYNTAX]
  {
    hide BlockLength;
    NeverClosed(s, 1);
    var t := "/*" + s;
    assert t[0] == '/' && Peek(t, 1) == '*' && t[2..] == s;
    assert t[|t|..] == "";
    assert Ignored(t) == (|t|, [SYNTAX]);
    assert Next(h, t) == Lexed(EOF, |t|, [SYNTAX] + []);
  }

  lemma {:induction false} NeverClosed(s: string, depth: nat)
    requires depth >= 1 && forall k | 0 <= k < |s| - 1 :: !(s[k] == '*' && s[k + 1] == '/')
    ensures BlockLength(s, depth) == (|s|, false)
    decreases |s|
  {
    if s != "" {
      var part := CommentPart(s);
      assert part.1 >= 0;
      var rest := s[part.0..];
      forall k | 0 <= k < |rest| - 1 ensures !(rest[k] == '*' && rest[k + 1] == '/') {
        assert rest[k] == s[part.0 + k] && rest[k + 1] == s[part.0 + k + 1];
      }
      NeverClosed(rest, depth + part.1);
    }
  }

  // ---------- gaps ----------

  /** Blanks and closed block comments. */
  datatype Skip = Space(c: char) | Remark(body: seq<Piece>)

  function SkipText(skip: Skip): string {
    match skip
    case Space(c) => [c]
    case Remark(body) => "/*" + BodyText(body) + "*/"
  }

  function GapText(gap: seq<Skip>): string {
    if gap == [] then "" else SkipText(gap[0]) + GapText(gap[1..])
  }

  /** What follows a comment has no say in where it is closed. */
  lemma {:induction false} ProperWhatever(body: seq<Piece>, a: string, b: string)
    requires Proper(body, a) && a != "" && b != "" && a[0] == b[0]
    ensures Proper(body, b)
    decreases body
  {
    if body != [] {
      ProperWhatever(body[1..], a, b);
      var r, s := BodyText(body[1..]) + a, BodyText(body[1..]) + b;
      assert r[0] == s[0];
      if body[0].Nested? {
        ProperWhatever(body[0].body, "*/" + r, "*/" + s);
      }
    }
  }

  /** Blanks are blanks, and comments are closed by their own ends. */
  predicate GapOK(gap: seq<Skip>) {
    forall i | 0 <= i < |gap| ::
      match gap[i]
      case Space(c) => IsBlank(c)
      case Remark(body) => Proper(body, "*/")
  }

  lemma {:induction false} BlankLexes(h: V.Host, c: char, rest: string)
    requires IsBlank(c)
    ensures Lexes(h, [c], [], rest)
  {
    hide Next;
    assert ([c] + rest)[0] == c;
    SkippedLexes(h, [c], rest);
  }

  /** A gap leaves no tokens. */
  lemma {:induction false} GapLexes(h: V.Host, gap: seq<Skip>, rest: string)
    requires GapOK(gap)
    ensures Lexes(h, GapText(gap), [], rest)
  {
    hide Lexes, IsBlank, Proper, BodyText;
    if gap == [] {
      Nothing(h, rest);
    } else {
      GapLexes(h, gap[1..], rest);
      var more := GapText(gap[1..]);
      match gap[0] {
        case Space(c) => BlankLexes(h, c, more + rest);
        case Remark(body) =>
          ProperWhatever(body, "*/", "*/" + (more + rest));
          BlockCommentLexes(h, body, more + rest);
      }
      Chain(h, SkipText(gap[0]), [], more, [], rest);
    }
  }

  // ---------- a printed tree with comments in it ----------

  /** What is put in front of lines, between words, and at the ends of lines. */
  datatype Notes = Notes(lead: seq<Skip>, between: seq<Skip>, end: seq<Skip>, comment: Option<string>) {

    /** Words stay apart, and a line comment stays on its line. */
    predicate Valid() {
      && GapOK(lead) && GapOK(between) && GapOK(end)
      && (comment.Some? ==> '\n' !in comment.value)
    }

    function Between(): string {
      " " + GapText(between)
    }

    function LineEnd(): string {
      " " + GapText(end) + (if comment.Some? then "//" + comment.value else "") + "\n"
    }
  }

  function NotedArguments(h: V.Host, w: Notes, values: seq<K.Value>): string {
    if values == [] then "" else w.Between() + ValueText(h, values[0]) + NotedArguments(h, w, values[1..])
  }

  function NotedProperties(h: V.Host, w: Notes, properties: seq<K.Property>): string {
    if properties == [] then "" else
    w.Between() + (properties[0].name + "=" + ValueText(h, properties[0].value)) + NotedProperties(h, w, properties[1..])
  }

  function NotedNode(h: V.Host, w: Notes, n: K.Node): string
    decreases n, 0
  {
    GapText(w.lead) + n.name + NotedArguments(h, w, n.arguments) + NotedProperties(h, w, n.properties) +
    if n.children == [] then w.LineEnd() else w.Between() + "{" + w.LineEnd() + NotedNodes(h, w, n.children) + GapText(w.lead) + "}" + w.LineEnd()
  }

  function NotedNodes(h: V.Host, w: Notes, nodes: seq<K.Node>): string
    decreases nodes, 1
  {
    if nodes == [] then "" else NotedNode(h, w, nodes[0]) + NotedNodes(h, w, nodes[1..])
  }

  lemma {:induction false} BetweenLexes(h: V.Host, w: Notes, rest: string)
    requires w.Valid()
    ensures Lexes(h, w.Between(), [], rest)
  {
    hide Lexes, GapOK;
    GapLexes(h, w.between, rest);
    Blank(h, GapText(w.between) + rest);
    Chain(h, " ", [], GapText(w.between), [], rest);
  }

  lemma {:induction false} LineEndLexes(h: V.Host, w: Notes, rest: string)
    requires w.Valid()
    ensures Lexes(h, w.LineEnd(), [Newline], rest)
  {
    hide Lexes, GapOK;
    var note := if w.comment.Some? then "//" + w.comment.value else "";
    Mark(h, '\n', rest);
    if w.comment.Some? {
      LineCommentLexes(h, w.comment.value, "\n" + rest);
    } else {
      Nothing(h, "\n" + rest);
    }
    Chain(h, note, [], "\n", [Newline], rest);
    var more := note + "\n";
    assert [] + [Newline] == [Newline];
    GapLexes(h, w.end, more + rest);
    Chain(h, GapText(w.end), [], more, [Newline], rest);
    var all := GapText(w.end) + more;
    Blank(h, all + rest);
    Chain(h, " ", [], all, [Newline], rest);
    assert " " + all == w.LineEnd();
  }

  lemma {:induction false} NotedArgumentsLex(h: V.Host, w: Notes, values: seq<K.Value>, rest: string)
    requires w.Valid() && FloatsReadBack(h) && Delimits(rest) && forall i | 0 <= i < |values| :: PrintableValue(h, values[i])
    ensures Lexes(h, NotedArguments(h, w, values), ArgumentTokens(values), rest)
    ensures Delimits(NotedArguments(h, w, values) + rest)
  {
    hide Lexes, FloatsReadBack, PrintableValue, ValueText, ValueToken, Notes.Valid, GapText;
    if values == [] {
      Nothing(h, rest);
      assert NotedArguments(h, w, values) + rest == rest;
    } else {
      var more := NotedArguments(h, w, values[1..]);
      NotedArgumentsLex(h, w, values[1..], rest);
      var text := ValueText(h, values[0]);
      ValueLexes(h, values[0], more + rest);
      BetweenLexes(h, w, text + (more + rest));
      Chain(h, w.Between(), [], text, [ValueToken(values[0])], more + rest);
      Chain(h, w.Between() + text, [] + [ValueToken(values[0])], more, ArgumentTokens(values[1..]), rest);
      assert [] + [ValueToken(values[0])] == [ValueToken(values[0])];
    }
  }

  lemma {:induction false} NotedPropertiesLex(h: V.Host, w: Notes, properties: seq<K.Property>, rest: string)
    requires w.Valid() && FloatsReadBack(h) && Delimits(rest)
    requires forall i | 0 <= i < |properties| :: PlainName(properties[i].name) && PrintableValue(h, properties[i].value)
    ensures Lexes(h, NotedProperties(h, w, properties), PropertyTokens(properties), rest)
    ensures Delimits(NotedProperties(h, w, properties) + rest)
  {
    hide Lexes, FloatsReadBack, PrintableValue, ValueText, ValueToken, PlainName, Notes.Valid, GapText;
    if properties == [] {
      Nothing(h, rest);
      assert NotedProperties(h, w, properties) + rest == rest;
    } else {
      var p, more := properties[0], NotedProperties(h, w, properties[1..]);
      NotedPropertiesLex(h, w, properties[1..], rest);
      var text, tokens := p.name + "=" + ValueText(h, p.value), [Word(p.name), Equals, ValueToken(p.value)];
      PairLexes(h, p, more + rest);
      BetweenLexes(h, w, text + (more + rest));
      Chain(h, w.Between(), [], text, tokens, more + rest);
      assert [] + tokens == tokens;
      Chain(h, w.Between() + text, tokens, more, PropertyTokens(properties[1..]), rest);
    }
  }

  lemma {:induction false} PairLexes(h: V.Host, p: K.Property, rest: string)
    requires FloatsReadBack(h) && Delimits(rest) && PlainName(p.name) && PrintableValue(h, p.value)
    ensures Lexes(h, p.name + "=" + ValueText(h, p.value), [Word(p.name), Equals, ValueToken(p.value)], rest)
  {
    hide Lexes, FloatsReadBack, PrintableValue, ValueText, ValueToken, PlainName;
    var text := ValueText(h, p.value);
    ValueLexes(h, p.value, rest);
    Mark(h, '=', text + rest);
    Chain(h, "=", [Equals], text, [ValueToken(p.value)], rest);
    assert ("=" + text + rest)[0] == '=';
    NameLexes(h, p.name, "=" + text + rest);
    Chain(h, p.name, [Word(p.name)], "=" + text, [Equals] + [ValueToken(p.value)], rest);
    assert p.name + ("=" + text) == p.name + "=" + text;
    assert [Word(p.name)] + ([Equals] + [ValueToken(p.value)]) == [Word(p.name), Equals, ValueToken(p.value)];
  }

  function NotedHead(h: V.Host, w: Notes, n: K.Node): string {
    n.name + NotedArguments(h, w, n.arguments) + NotedProperties(h, w, n.properties)
  }

  function NotedTail(h: V.Host, w: Notes, n: K.Node): string {
    if n.children == [] then w.LineEnd() else w.Between() + "{" + w.LineEnd() + NotedNodes(h, w, n.children) + GapText(w.lead) + "}" + w.LineEnd()
  }

  lemma {:induction false} NotedHeadLexes(h: V.Host, w: Notes, n: K.Node, rest: string)
    requires w.Valid() && FloatsReadBack(h) && Printable(h, n) && Delimits(rest)
    ensures Lexes(h, NotedHead(h, w, n), HeadTokens(n), rest)
  {
    hide Lexes, FloatsReadBack, PrintableValue, PlainName, NotedArguments, NotedProperties, ArgumentTokens, PropertyTokens, Notes.Valid;
    var a, p := NotedArguments(h, w, n.arguments), NotedProperties(h, w, n.properties);
    NotedPropertiesLex(h, w, n.properties, rest);
    NotedArgumentsLex(h, w, n.arguments, p + rest);
    assert Delimits(a + (p + rest));
    NameLexes(h, n.name, a + (p + rest));
    Chain(h, n.name, [Word(n.name)], a, ArgumentTokens(n.arguments), p + rest);
    Chain(h, n.name + a, [Word(n.name)] + ArgumentTokens(n.arguments), p, PropertyTokens(n.properties), rest);
  }

  lemma {:induction false} NotedNodeLexes(h: V.Host, w: Notes, n: K.Node, rest: string)
    requires w.Valid() && FloatsReadBack(h) && Printable(h, n)
    ensures Lexes(h, NotedNode(h, w, n), NodeTokens(n), rest)
    decreases n, 1
  {
    hide Lexes, FloatsReadBack, NotedHead, HeadTokens, NotedTail, TailTokens, Printable, NotedNode, NodeTokens, Delimits, Notes.Valid, GapText;
    var lead, head, tail := GapText(w.lead), NotedHead(h, w, n), NotedTail(h, w, n);
    NotedParts(h, w, n);
    NodeTokensParts(n);
    NotedTailLexes(h, w, n, rest);
    NotedHeadLexes(h, w, n, tail + rest);
    Chain(h, head, HeadTokens(n), tail, TailTokens(n), rest);
    LeadLexes(h, w, (head + tail) + rest);
    Chain(h, lead, [], head + tail, HeadTokens(n) + TailTokens(n), rest);
    assert lead + (head + tail) == lead + head + tail;
    assert [] + (HeadTokens(n) + TailTokens(n)) == HeadTokens(n) + TailTokens(n);
  }

  lemma {:induction false} LeadLexes(h: V.Host, w: Notes, rest: string)
    requires w.Valid()
    ensures Lexes(h, GapText(w.lead), [], rest)
  {
    hide Lexes, GapOK;
    GapLexes(h, w.lead, rest);
  }

  lemma {:induction false} NotedParts(h: V.Host, w: Notes, n: K.Node)
    ensures NotedNode(h, w, n) == GapText(w.lead) + NotedHead(h, w, n) + NotedTail(h, w, n)
  {
    hide NotedNodes, NotedArguments, NotedProperties, GapText;
    assert GapText(w.lead) + n.name + NotedArguments(h, w, n.arguments) + NotedProperties(h, w, n.properties) == GapText(w.lead) + NotedHead(h, w, n);
  }

  lemma {:induction false} NotedTailLexes(h: V.Host, w: Notes, n: K.Node, rest: string)
    requires w.Valid() && FloatsReadBack(h) && Printable(h, n)
    ensures Lexes(h, NotedTail(h, w, n), TailTokens(n), rest)
    ensures Delimits(NotedTail(h, w, n) + rest)
    decreases n, 0
  {
    hide Lexes, FloatsReadBack, NotedNodes, NodesTokens, PrintableValue, PlainName, Notes.Valid, GapText;
    LineEndLexes(h, w, rest);
    if n.children != [] {
      var body := NotedNodes(h, w, n.children);
      var close := GapText(w.lead) + ("}" + w.LineEnd());
      Mark(h, '}', w.LineEnd() + rest);
      Chain(h, "}", [RBrace], w.LineEnd(), [Newline], rest);
      assert [RBrace] + [Newline] == [RBrace, Newline];
      LeadLexes(h, w, "}" + w.LineEnd() + rest);
      Chain(h, GapText(w.lead), [], "}" + w.LineEnd(), [RBrace, Newline], rest);
      assert [] + [RBrace, Newline] == [RBrace, Newline];
      forall i | 0 <= i < |n.children| ensures Printable(h, n.children[i]) {}
      NotedNodesLex(h, w, n.children, close + rest);
      Chain(h, body, NodesTokens(n.children), close, [RBrace, Newline], rest);
      NotedOpening(h, w, (body + close) + rest);
      Chain(h, w.Between() + "{" + w.LineEnd(), [LBrace, Newline], body + close, NodesTokens(n.children) + [RBrace, Newline], rest);
      assert NotedTail(h, w, n) == (w.Between() + "{" + w.LineEnd()) + (body + close);
      assert TailTokens(n) == [LBrace, Newline] + (NodesTokens(n.children) + [RBrace, Newline]);
    }
  }

  lemma {:induction false} NotedOpening(h: V.Host, w: Notes, rest: string)
    requires w.Valid()
    ensures Lexes(h, w.Between() + "{" + w.LineEnd(), [LBrace, Newline], rest)
  {
    hide Lexes, Notes.Valid, GapText;
    LineEndLexes(h, w, rest);
    Mark(h, '{', w.LineEnd() + rest);
    Chain(h, "{", [LBrace], w.LineEnd(), [Newline], rest);
    BetweenLexes(h, w, "{" + w.LineEnd() + rest);
    Chain(h, w.Between(), [], "{" + w.LineEnd(), [LBrace] + [Newline], rest);
    assert w.Between() + ("{" + w.LineEnd()) == w.Between() + "{" + w.LineEnd();
    assert [] + ([LBrace] + [Newline]) == [LBrace, Newline];
  }

  lemma {:induction false} NotedNodesLex(h: V.Host, w: Notes, nodes: seq<K.Node>, rest: string)
    requires w.Valid() && FloatsReadBack(h) && forall i | 0 <= i < |nodes| :: Printable(h, nodes[i])
    ensures Lexes(h, NotedNodes(h, w, nodes), NodesTokens(nodes), rest)
    decreases nodes, 1
  {
    hide Lexes, FloatsReadBack, NotedNode, NodeTokens, Printable, Notes.Valid;
    if nodes == [] {
      Nothing(h, rest);
    } else {
      var more := NotedNodes(h, w, nodes[1..]);
      NotedNodesLex(h, w, nodes[1..], rest);
      NotedNodeLexes(h, w, nodes[0], more + rest);
      Chain(h, NotedNode(h, w, nodes[0]), NodeTokens(nodes[0]), more, NodesTokens(nodes[1..]), rest);
    }
  }

  /** A printed tree reads the same with any blanks and block comments around its words, and with a line
      comment at the end of every line. */
  lemma {:induction false} NotedThenParse(h: V.Host, w: Notes, nodes: seq<K.Node>)
    requires w.Valid() && FloatsReadBack(h) && forall i | 0 <= i < |nodes| :: Printable(h, nodes[i])
    ensures Parse(h, NotedNodes(h, w, nodes)) == (nodes, [])
  {
    hide FloatsReadBack, Printable, NotedNodes, NodesTokens, Tokens, Reports, DocumentAt, Notes.Valid;
    var text := NotedNodes(h, w, nodes);
    NotedNodesLex(h, w, nodes, "");
    assert text + "" == text;
    EmptyText(h);
    var ts := Tokens(h, text);
    assert ts == NodesTokens(nodes) + [];
    assert ts[0..|ts|] == ts;
    DocumentParses(ts, 0, nodes);
    assert [] + Reports(h, text) == [];
    assert Parse(h, text) == (nodes, [] + Reports(h, text));
  }
}
