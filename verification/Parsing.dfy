/** The recursive parser of internal/kdl/parser.go, over the tokens of a document. Past the last
    token the parser sees the end of the file, however often it advances. */
module Parsing {
  import opened Options
  import opened Lexing
  import V = Values
  import K = KDLTree

  const ANNOTATION := "E_TYPE_ANNOTATION_UNSUPPORTED"

  function At(ts: seq<Token>, k: nat): Token {
    if k < |ts| then ts[k] else EOF
  }

  /** Where a piece of the parser stops, and what it reported. */
  datatype Moved = Moved(k: nat, reports: seq<string>)

  datatype Parsed<T> = Parsed(value: T, k: nat, reports: seq<string>)

  predicate Ends(t: Token) {
    t.Newline? || t.Semicolon?
  }

  function PastEnd(ts: seq<Token>, k: nat): nat {
    if Ends(At(ts, k)) then k + 1 else k
  }

  // ---------- pieces without recursion into nodes ----------

  /** skipTypeAnnotation, from the opening parenthesis on. */
  function AnnotationEnd(ts: seq<Token>, k: nat, depth: int): (r: nat)
    requires k <= |ts|
    ensures k <= r <= |ts| && (k < |ts| && depth == 0 && ts[k].LParen? ==> k < r)
    decreases |ts| - k
  {
    if k == |ts| then k
    else if ts[k].RParen? then (if depth <= 1 then k + 1 else AnnotationEnd(ts, k + 1, depth - 1))
    else AnnotationEnd(ts, k + 1, if ts[k].LParen? then depth + 1 else depth)
  }

  /** recoverNode. */
  function RecoveryEnd(ts: seq<Token>, k: nat): (r: nat)
    requires k <= |ts|
    ensures k <= r <= |ts|
    ensures k < |ts| && !ts[k].RBrace? ==> k < r
    decreases |ts| - k
  {
    if k == |ts| || ts[k].RBrace? then k else if Ends(ts[k]) then k + 1 else RecoveryEnd(ts, k + 1)
  }

  function LinesEnd(ts: seq<Token>, k: nat): (r: nat)
    requires k <= |ts|
    ensures k <= r <= |ts| && !At(ts, r).Newline?
    decreases |ts| - k
  {
    if k < |ts| && ts[k].Newline? then LinesEnd(ts, k + 1) else k
  }

  function ValueOf(t: Token): Option<K.Value> {
    match t
    case TString(s) => Some(K.KString(s))
    case TInt(n) => Some(K.KInt(n))
    case TFloat(r) => Some(K.KFloat(r))
    case TBool(b) => Some(K.KBool(b))
    case TNull => Some(K.KNull)
    case _ => None
  }

  /** A slashdash that meets another one is reported and swallows it; otherwise an annotation and
      line breaks before what it suppresses are skipped. None is the first case. */
  function AfterSlashdash(ts: seq<Token>, k: nat): (r: Option<nat>)
    requires k < |ts|
    ensures r.Some? ==> k < r.value <= |ts|
    ensures r.None? ==> LinesEnd(ts, k + 1) < |ts|
  {
    var i := LinesEnd(ts, k + 1);
    if At(ts, i).Slashdash? then None
    else if At(ts, i).LParen? then Some(LinesEnd(ts, AnnotationEnd(ts, i, 0)))
    else Some(i)
  }

  // ---------- nodes ----------

  predicate StartsNode(t: Token) {
    t.Word? || t.TString?
  }

  function NameOf(t: Token): string
    requires StartsNode(t)
  {
    if t.Word? then t.text else t.s
  }

  function NodeAt(ts: seq<Token>, k: nat): (r: Parsed<Option<K.Node>>)
    requires k <= |ts|
    ensures k <= r.k <= |ts| && (k < |ts| && !ts[k].RBrace? ==> k < r.k)
    decreases |ts| - k, 4
  {
    var annotated := At(ts, k).LParen?;
    var i := if annotated then AnnotationEnd(ts, k, 0) else k;
    var reports := if annotated then [ANNOTATION] else [];
    if !StartsNode(At(ts, i)) then Parsed(None, RecoveryEnd(ts, i), reports + [SYNTAX])
    else
      var body := EntriesAt(ts, i + 1, K.Node(NameOf(ts[i]), [], [], []));
      Parsed(Some(body.value), body.k, reports + body.reports)
  }

  /** The loop over arguments, properties and the child block. */
  function EntriesAt(ts: seq<Token>, k: nat, n: K.Node): (r: Parsed<K.Node>)
    requires k <= |ts|
    ensures k <= r.k <= |ts|
    decreases |ts| - k, 3
  {
    var t := At(ts, k);
    if t.EOF? || t.RBrace? then Parsed(n, k, [])
    else if Ends(t) then Parsed(n, k + 1, [])
    else if t.LBrace? then
      var body := ChildrenAt(ts, k + 1);
      var closed := At(ts, body.k).RBrace?;
      Parsed(n.(children := body.value), PastEnd(ts, if closed then body.k + 1 else body.k),
             body.reports + if closed then [] else [SYNTAX])
    else
      var one := EntryAt(ts, k, n);
      var rest := EntriesAt(ts, one.k, one.value);
      Parsed(rest.value, rest.k, one.reports + rest.reports)
  }

  /** One round of that loop that stays in it. */
  function EntryAt(ts: seq<Token>, k: nat, n: K.Node): (r: Parsed<K.Node>)
    requires k < |ts|
    ensures k < r.k <= |ts|
    decreases |ts| - k, 2
  {
    if ts[k].LParen? then Parsed(n, AnnotationEnd(ts, k, 0), [ANNOTATION])
    else if ts[k].Slashdash? then
      var skipped := ComponentSkipped(ts, k);
      Parsed(n, skipped.k, skipped.reports)
    else if ts[k].Word? && At(ts, k + 1).Equals? then
      var v := ValueOf(At(ts, k + 2));
      if v.None? then Parsed(n, k + 2, [])
      else Parsed(n.(properties := n.properties + [K.Property(ts[k].text, v.value)]), k + 3, [])
    else
      var v := ValueOf(ts[k]);
      if v.None? then Parsed(n, k + 1, [SYNTAX]) else Parsed(n.(arguments := n.arguments + [v.value]), k + 1, [])
  }

  function ChildrenAt(ts: seq<Token>, k: nat): (r: Parsed<seq<K.Node>>)
    requires k <= |ts|
    ensures k <= r.k <= |ts| && (At(ts, r.k).EOF? || At(ts, r.k).RBrace?)
    decreases |ts| - k, 6
  {
    var t := At(ts, k);
    if t.EOF? || t.RBrace? then Parsed([], k, [])
    else
      var one := ItemAt(ts, k);
      var rest := ChildrenAt(ts, one.k);
      Parsed(one.value + rest.value, rest.k, one.reports + rest.reports)
  }

  /** A line break, a suppressed node or a node. */
  function ItemAt(ts: seq<Token>, k: nat): (r: Parsed<seq<K.Node>>)
    requires k < |ts| && !ts[k].RBrace?
    ensures k < r.k <= |ts|
    decreases |ts| - k, 5
  {
    if Ends(ts[k]) then Parsed([], k + 1, [])
    else if ts[k].Slashdash? then
      var skipped := NodeSkipped(ts, k);
      Parsed([], skipped.k, skipped.reports)
    else
      var node := NodeAt(ts, k);
      Parsed(if node.value.Some? then [node.value.value] else [], node.k, node.reports)
  }

  /** skipSlashdashedNode. */
  function NodeSkipped(ts: seq<Token>, k: nat): (r: Moved)
    requires k < |ts|
    ensures k < r.k <= |ts|
    decreases |ts| - k, 4
  {
    var after := AfterSlashdash(ts, k);
    if after.None? then Moved(LinesEnd(ts, k + 1) + 1, [SYNTAX])
    else if !StartsNode(At(ts, after.value)) then Moved(after.value, [SYNTAX])
    else
      var node := NodeAt(ts, after.value);
      Moved(node.k, node.reports)
  }

  /** skipChildBlock. */
  function BlockSkipped(ts: seq<Token>, k: nat): (r: Moved)
    requires k < |ts|
    ensures k < r.k <= |ts|
    decreases |ts| - k, 0
  {
    var body := ChildrenAt(ts, k + 1);
    if At(ts, body.k).RBrace? then Moved(body.k + 1, body.reports) else Moved(body.k, body.reports + [SYNTAX])
  }

  /** skipSlashdashedComponent. */
  function ComponentSkipped(ts: seq<Token>, k: nat): (r: Moved)
    requires k < |ts|
    ensures k < r.k <= |ts|
    decreases |ts| - k, 1
  {
    var after := AfterSlashdash(ts, k);
    if after.None? then Moved(LinesEnd(ts, k + 1) + 1, [SYNTAX])
    else
      var i := after.value;
      if At(ts, i).LBrace? then BlockSkipped(ts, i)
      else if StartsNode(At(ts, i)) && At(ts, i + 1).Equals? then
        var j := if At(ts, i + 2).LParen? then AnnotationEnd(ts, i + 2, 0) else i + 2;
        if ValueOf(At(ts, j)).Some? then Moved(j + 1, []) else Moved(j, [SYNTAX])
      else if ValueOf(At(ts, i)).Some? then Moved(i + 1, []) else Moved(i, [SYNTAX])
  }

  function TopItemAt(ts: seq<Token>, k: nat): (r: Parsed<seq<K.Node>>)
    requires k < |ts|
    ensures k < r.k <= |ts|
  {
    if ts[k].RBrace? then Parsed([], k + 1, [SYNTAX]) else ItemAt(ts, k)
  }

  function DocumentAt(ts: seq<Token>, k: nat): (r: Parsed<seq<K.Node>>)
    requires k <= |ts|
    ensures r.k == |ts|
    decreases |ts| - k
  {
    if k == |ts| then Parsed([], k, [])
    else
      var one := TopItemAt(ts, k);
      var rest := DocumentAt(ts, one.k);
      Parsed(one.value + rest.value, rest.k, one.reports + rest.reports)
  }

  /** Parse, from text to nodes and reports. */
  function Parse(h: V.Host, text: string): (seq<K.Node>, seq<string>) {
    var p := DocumentAt(Tokens(h, text), 0);
    (p.value, p.reports + Reports(h, text))
  }

  // ---------- the parser ----------

  function Least(a: nat, b: nat): nat {
    if a < b then a else b
  }

  class Parser {
    const lex: Lexer
    var cur: Token
    var peek: Token
    var diags: seq<string>
    /** All tokens of the document, and how many have been passed. */
    ghost const ts: seq<Token>
    ghost const lexical: seq<string>
    ghost var k: nat

    ghost predicate Valid()
      reads this, lex
    {
      k <= |ts| && NoEnd(ts) && cur == At(ts, k) && peek == At(ts, k + 1) && Synced()
    }

    /** The lexer is two tokens ahead. */
    ghost predicate Synced()
      reads this`k, lex
    {
      && lex.Valid() && Tokens(lex.h, lex.Left()) == ts[Least(k + 2, |ts|)..]
      && lex.diags + Reports(lex.h, lex.Left()) == lexical
      && (k + 1 >= |ts| ==> lex.Left() == "")
    }

    constructor (h: V.Host, input: string)
      ensures Valid() && fresh(lex) && k == 0 && diags == []
      ensures lex.h == h && ts == Tokens(h, input) && lexical == Reports(h, input)
    {
      hide Next, Tokens, Reports, Position;
      var l := new Lexer(h, input);
      lex := l;
      ts, lexical := Tokens(h, input), Reports(h, input);
      diags, k := [], 0;
      assert input[0..] == input;
      ghost var first := l.Left();
      var t := l.NextToken();
      TakeToken(h, first);
      ghost var second := l.Left();
      var u := l.NextToken();
      TakeToken(h, second);
      assert Tokens(h, l.Left()) == Tokens(h, input)[Least(2, |Tokens(h, input)|)..];
      cur, peek := t, u;
      TokensHaveNoEnd(h, input);
    }

    method Advance()
      requires Valid()
      modifies this`cur, this`peek, this`k, lex
      ensures Valid() && k == Least(old(k) + 1, |ts|)
    {
      hide Next, Tokens, Reports, Position;
      EndIsEnd(ts, Least(k + 1, |ts|));
      ghost var before := lex.Left();
      cur := peek;
      peek := lex.NextToken();
      TakeToken(lex.h, before);
      k := Least(k + 1, |ts|);
    }

    method Report(code: string)
      modifies this`diags
      ensures diags == old(diags) + [code]
    {
      diags := diags + [code];
    }

    method SkipTypeAnnotation()
      requires Valid()
      modifies this`cur, this`peek, this`k, lex
      ensures Valid() && k == AnnotationEnd(ts, old(k), 0)
    {
      hide Parser.Synced, Tokens, Reports, Position;
      var depth := 0;
      while !cur.EOF?
        invariant Valid()
        invariant AnnotationEnd(ts, k, depth) == AnnotationEnd(ts, old(k), 0)
        decreases |ts| - k
      {
        EndIsEnd(ts, k);
        if cur.RParen? {
          depth := depth - 1;
          Advance();
          if depth <= 0 {
            return;
          }
        } else {
          if cur.LParen? {
            depth := depth + 1;
          }
          Advance();
        }
      }
      EndIsEnd(ts, k);
    }

    method RecoverNode()
      requires Valid()
      modifies this`cur, this`peek, this`k, lex
      ensures Valid() && k == RecoveryEnd(ts, old(k))
    {
      hide Parser.Synced, Tokens, Reports, Position;
      while !cur.EOF? && !Ends(cur) && !cur.RBrace?
        invariant Valid()
        invariant RecoveryEnd(ts, k) == RecoveryEnd(ts, old(k))
        decreases |ts| - k
      {
        EndIsEnd(ts, k);
        Advance();
      }
      EndIsEnd(ts, k);
      if Ends(cur) {
        Advance();
      }
    }

    method SkipLineSpace()
      requires Valid()
      modifies this`cur, this`peek, this`k, lex
      ensures Valid() && k == LinesEnd(ts, old(k))
    {
      hide Parser.Synced, Tokens, Reports, Position;
      while cur.Newline?
        invariant Valid() && LinesEnd(ts, k) == LinesEnd(ts, old(k))
        decreases |ts| - k
      {
        Advance();
      }
    }

    method ParseValue() returns (v: Option<K.Value>)
      requires Valid()
      modifies this`cur, this`peek, this`k, lex
      ensures Valid() && v == ValueOf(At(ts, old(k))) && k == if v.Some? then old(k) + 1 else old(k)
    {
      hide Parser.Synced, Tokens, Reports, Position;
      v := ValueOf(cur);
      if v.Some? {
        Advance();
      }
    }

    method ParseNode() returns (n: Option<K.Node>)
      requires Valid()
      modifies this`cur, this`peek, this`k, this`diags, lex
      ensures Valid()
      ensures var r := NodeAt(ts, old(k)); n == r.value && k == r.k && diags == old(diags) + r.reports
      decreases |ts| - k, 4
    {
      hide Parser.Synced, Tokens, Reports, Position, EntriesAt, AnnotationEnd, RecoveryEnd;
      if cur.LParen? {
        SkipTypeAnnotation();
        Report(ANNOTATION);
      }
      ghost var before := diags;
      if !StartsNode(cur) {
        Report(SYNTAX);
        RecoverNode();
        return None;
      }
      StartIsNoEnd(ts, k);
      var name := NameOf(cur);
      Advance();
      var node := ParseEntries(K.Node(name, [], [], []));
      n := Some(node);
    }

    method ParseEntries(start: K.Node) returns (n: K.Node)
      requires Valid()
      modifies this`cur, this`peek, this`k, this`diags, lex
      ensures Valid()
      ensures var r := EntriesAt(ts, old(k), start); n == r.value && k == r.k && diags == old(diags) + r.reports
      decreases |ts| - k, 3
    {
      hide Parser.Synced, Tokens, Reports, Position, EntryAt, ChildrenAt;
      n := start;
      ghost var whole := EntriesAt(ts, k, n);
      while true
        invariant Valid() && old(k) <= k
        invariant var r := EntriesAt(ts, k, n);
          r.value == whole.value && r.k == whole.k && diags + r.reports == old(diags) + whole.reports
        decreases |ts| - k
      {
        EndIsEnd(ts, k);
        if cur.EOF? || cur.RBrace? {
          return;
        } else if Ends(cur) {
          Advance();
          return;
        } else if cur.LBrace? {
          n := ParseBlock(n);
          return;
        }
        n := ParseEntry(n);
      }
    }

    /** A child block, from its opening brace on. */
    method ParseBlock(start: K.Node) returns (n: K.Node)
      requires Valid() && cur.LBrace?
      modifies this`cur, this`peek, this`k, this`diags, lex
      ensures Valid()
      ensures var r := EntriesAt(ts, old(k), start); n == r.value && k == r.k && diags == old(diags) + r.reports
      decreases |ts| - k, 2
    {
      hide Parser.Synced, Tokens, Reports, Position, EntryAt, ChildrenAt;
      EndIsEnd(ts, k);
      Advance();
      var children := ParseChildren();
      n := start.(children := children);
      EndIsEnd(ts, k);
      if cur.RBrace? {
        Advance();
      } else {
        Report(SYNTAX);
      }
      EndIsEnd(ts, k);
      if Ends(cur) {
        Advance();
      }
    }

    method ParseEntry(start: K.Node) returns (n: K.Node)
      requires Valid() && k < |ts|
      modifies this`cur, this`peek, this`k, this`diags, lex
      ensures Valid()
      ensures var r := EntryAt(ts, old(k), start); n == r.value && k == r.k && diags == old(diags) + r.reports
      decreases |ts| - k, 2
    {
      hide Parser.Synced, Tokens, Reports, Position, ComponentSkipped, AnnotationEnd;
      n := start;
      EndIsEnd(ts, k + 1) by { if k + 1 > |ts| { assert false; } }
      if cur.LParen? {
        SkipTypeAnnotation();
        Report(ANNOTATION);
      } else if cur.Slashdash? {
        SkipSlashdashedComponent();
      } else if cur.Word? && peek.Equals? {
        var name := cur.text;
        Advance();
        Advance();
        var v := ParseValue();
        if v.Some? {
          n := n.(properties := n.properties + [K.Property(name, v.value)]);
        }
      } else {
        var v := ParseValue();
        if v.Some? {
          n := n.(arguments := n.arguments + [v.value]);
        } else {
          Report(SYNTAX);
          Advance();
        }
      }
    }

    method ParseChildren() returns (nodes: seq<K.Node>)
      requires Valid()
      modifies this`cur, this`peek, this`k, this`diags, lex
      ensures Valid()
      ensures var r := ChildrenAt(ts, old(k)); nodes == r.value && k == r.k && diags == old(diags) + r.reports
      decreases |ts| - k, 6
    {
      hide Parser.Synced, Tokens, Reports, Position, ItemAt;
      nodes := [];
      ghost var whole := ChildrenAt(ts, k);
      while !cur.EOF? && !cur.RBrace?
        invariant Valid() && old(k) <= k
        invariant var r := ChildrenAt(ts, k);
          nodes + r.value == whole.value && r.k == whole.k && diags + r.reports == old(diags) + whole.reports
        decreases |ts| - k
      {
        EndIsEnd(ts, k);
        var item := ParseItem();
        nodes := nodes + item;
      }
    }

    method ParseItem() returns (nodes: seq<K.Node>)
      requires Valid() && k < |ts| && !cur.RBrace?
      modifies this`cur, this`peek, this`k, this`diags, lex
      ensures Valid()
      ensures var r := ItemAt(ts, old(k)); nodes == r.value && k == r.k && diags == old(diags) + r.reports
      decreases |ts| - k, 5
    {
      hide Parser.Synced, Tokens, Reports, Position, NodeAt, NodeSkipped;
      nodes := [];
      if Ends(cur) {
        Advance();
      } else if cur.Slashdash? {
        SkipSlashdashedNode();
      } else {
        var node := ParseNode();
        if node.Some? {
          nodes := [node.value];
        }
      }
    }

    /** After a slashdash: whether there is anything to suppress. */
    method EnterSlashdash() returns (ok: bool)
      requires Valid() && k < |ts|
      modifies this`cur, this`peek, this`k, this`diags, lex
      ensures Valid()
      ensures var r := AfterSlashdash(ts, old(k));
        ok == r.Some? && k == (if r.Some? then r.value else LinesEnd(ts, old(k) + 1) + 1) &&
        diags == if r.Some? then old(diags) else old(diags) + [SYNTAX]
    {
      hide Parser.Synced, Tokens, Reports, Position, AnnotationEnd, LinesEnd;
      Advance();
      SkipLineSpace();
      EndIsEnd(ts, k);
      if cur.Slashdash? {
        Report(SYNTAX);
        Advance();
        return false;
      }
      if cur.LParen? {
        SkipTypeAnnotation();
        SkipLineSpace();
      }
      return true;
    }

    method SkipSlashdashedNode()
      requires Valid() && k < |ts|
      modifies this`cur, this`peek, this`k, this`diags, lex
      ensures Valid()
      ensures var r := NodeSkipped(ts, old(k)); k == r.k && diags == old(diags) + r.reports
      decreases |ts| - k, 4
    {
      hide Parser.Synced, Tokens, Reports, Position, AfterSlashdash, NodeAt;
      var ok := EnterSlashdash();
      if !ok {
        return;
      }
      if !StartsNode(cur) {
        Report(SYNTAX);
        return;
      }
      var _ := ParseNode();
    }

    method SkipSlashdashedComponent()
      requires Valid() && k < |ts|
      modifies this`cur, this`peek, this`k, this`diags, lex
      ensures Valid()
      ensures var r := ComponentSkipped(ts, old(k)); k == r.k && diags == old(diags) + r.reports
      decreases |ts| - k, 1
    {
      hide Parser.Synced, Tokens, Reports, Position, AfterSlashdash, BlockSkipped, AnnotationEnd;
      var ok := EnterSlashdash();
      if !ok {
        return;
      }
      EndIsEnd(ts, k);
      if cur.LBrace? {
        SkipChildBlock();
        return;
      }
      if StartsNode(cur) && peek.Equals? {
        Advance();
        Advance();
        if cur.LParen? {
          SkipTypeAnnotation();
        }
      }
      var v := ParseValue();
      if v.None? {
        Report(SYNTAX);
      }
    }

    method SkipChildBlock()
      requires Valid() && k < |ts|
      modifies this`cur, this`peek, this`k, this`diags, lex
      ensures Valid()
      ensures var r := BlockSkipped(ts, old(k)); k == r.k && diags == old(diags) + r.reports
      decreases |ts| - k, 0
    {
      hide Parser.Synced, Tokens, Reports, Position, ChildrenAt;
      Advance();
      var _ := ParseChildren();
      EndIsEnd(ts, k);
      if cur.RBrace? {
        Advance();
      } else {
        Report(SYNTAX);
      }
    }

    /** An item of the document, or a stray closing brace. */
    method ParseTopItem() returns (nodes: seq<K.Node>)
      requires Valid() && k < |ts|
      modifies this`cur, this`peek, this`k, this`diags, lex
      ensures Valid()
      ensures var r := TopItemAt(ts, old(k)); nodes == r.value && k == r.k && diags == old(diags) + r.reports
    {
      hide Parser.Synced, Tokens, Reports, Position, ItemAt;
      nodes := [];
      if cur.RBrace? {
        Report(SYNTAX);
        Advance();
      } else {
        nodes := ParseItem();
      }
    }

    method ParseDocument() returns (nodes: seq<K.Node>)
      requires Valid()
      modifies this`cur, this`peek, this`k, this`diags, lex
      ensures Valid() && k == |ts|
      ensures var r := DocumentAt(ts, old(k)); nodes == r.value && diags == old(diags) + r.reports
    {
      hide Parser.Synced, Tokens, Reports, Position, TopItemAt;
      nodes := [];
      ghost var whole := DocumentAt(ts, k);
      while !cur.EOF?
        invariant Valid() && old(k) <= k
        invariant var r := DocumentAt(ts, k);
          nodes + r.value == whole.value && diags + r.reports == old(diags) + whole.reports
        decreases |ts| - k
      {
        EndIsEnd(ts, k);
        var item := ParseTopItem();
        nodes := nodes + item;
      }
      EndIsEnd(ts, k);
    }
  }

  /** Parse: total, and the whole text is read. */
  method ParseText(h: V.Host, text: string) returns (nodes: seq<K.Node>, diags: seq<string>)
    ensures (nodes, diags) == Parse(h, text)
  {
    hide Next, Tokens, Reports, DocumentAt;
    var p := new Parser(h, text);
    ghost var whole := DocumentAt(p.ts, 0);
    nodes := p.ParseDocument();
    assert p.diags == [] + whole.reports && nodes == whole.value;
    EndReports(h);
    assert p.lex.diags + [] == Reports(h, text);
    diags := p.diags + p.lex.diags;
    assert diags == whole.reports + Reports(h, text);
  }

  lemma {:induction false} EndReports(h: V.Host)
    ensures Reports(h, "") == []
  {}

  lemma {:induction false} StartIsNoEnd(ts: seq<Token>, k: nat)
    requires k <= |ts| && StartsNode(At(ts, k))
    ensures k < |ts|
  {}

  /** Taking a token off the text takes it off the tokens and its reports off the reports. */
  lemma {:induction false} TakeToken(h: V.Host, s: string)
    ensures var l := Next(h, s);
      var rest := s[l.size..];
      && Tokens(h, s) == (if l.token.EOF? then [] else [l.token]) + Tokens(h, rest)
      && Reports(h, s) == l.reports + Reports(h, rest)
      && (l.token.EOF? ==> Tokens(h, rest) == [])
  {
    if Next(h, s).token.EOF? {
      assert s[Next(h, s).size..] == "";
    }
  }

  predicate NoEnd(ts: seq<Token>) {
    forall i | 0 <= i < |ts| :: !ts[i].EOF?
  }

  lemma {:induction false} EndIsEnd(ts: seq<Token>, k: nat)
    requires k <= |ts| && NoEnd(ts)
    ensures At(ts, k).EOF? <==> k == |ts|
  {
    assert k < |ts| ==> !ts[k].EOF?;
  }

  lemma {:induction false} TokensHaveNoEnd(h: V.Host, s: string)
    ensures NoEnd(Tokens(h, s))
    decreases |s|
  {
    hide Next;
    if !Next(h, s).token.EOF? {
      TokensHaveNoEnd(h, s[Next(h, s).size..]);
    }
  }
}
