/** The KDL grammar as a datatype: every way to write a tree with the words the parser knows, and that
    the parser reads each of them as that tree, without reports. */
module Grammar {
  import opened Options
  import opened Lexing
  import opened Parsing
  import opened Printing
  import V = Values
  import K = KDLTree

  /** What a slashdash in a node suppresses, after any line breaks. */
  datatype Component = ValuePart(v: K.Value) | PropertyPart(quoted: bool, p: K.Property) | BlockPart(items: seq<Item>)

  datatype Entry = Argument(v: K.Value) | Pair(p: K.Property) | Dropped(breaks: nat, what: Component)

  /** A line break or semicolon, a suppressed node, or a node. */
  datatype Item = Line(end: Token) | Suppressed(breaks: nat, form: Form) | Written(form: Form)

  /** A node: its name, bare or quoted, its entries in any order, its block if it has one, and what ends it. */
  datatype Form = Form(quoted: bool, name: string, entries: seq<Entry>, hasBlock: bool, block: seq<Item>, end: Option<Token>)

  // ---------- how it is written ----------

  function Breaks(n: nat): (r: seq<Token>)
    ensures |r| == n
  {
    if n == 0 then [] else [Newline] + Breaks(n - 1)
  }

  function NameToken(quoted: bool, name: string): (t: Token)
    ensures StartsNode(t) && NameOf(t) == name
  {
    if quoted then TString(name) else Word(name)
  }

  function ComponentTokens(c: Component): seq<Token>
    decreases c, 0
  {
    match c
    case ValuePart(v) => [ValueToken(v)]
    case PropertyPart(quoted, p) => [NameToken(quoted, p.name), Equals, ValueToken(p.value)]
    case BlockPart(items) => [LBrace] + ItemsTokens(items) + [RBrace]
  }

  function EntryTokens(e: Entry): (r: seq<Token>)
    ensures r != []
    decreases e, 1
  {
    match e
    case Argument(v) => [ValueToken(v)]
    case Pair(p) => [Word(p.name), Equals, ValueToken(p.value)]
    case Dropped(breaks, what) => [Slashdash] + Breaks(breaks) + ComponentTokens(what)
  }

  function EntriesTokens(entries: seq<Entry>): seq<Token>
    decreases entries, 2
  {
    if entries == [] then [] else EntryTokens(entries[0]) + EntriesTokens(entries[1..])
  }

  function BlockTokens(hasBlock: bool, block: seq<Item>): seq<Token>
    decreases block, 6
  {
    if !hasBlock then [] else [LBrace] + ItemsTokens(block) + [RBrace]
  }

  function EndTokens(end: Option<Token>): seq<Token> {
    if end.Some? then [end.value] else []
  }

  function FormTokens(f: Form): (r: seq<Token>)
    decreases f, 3
  {
    [NameToken(f.quoted, f.name)] + (EntriesTokens(f.entries) + (BlockTokens(f.hasBlock, f.block) + EndTokens(f.end)))
  }

  function ItemTokens(i: Item): (r: seq<Token>)
    ensures r != [] && r[0] == First(i)
    decreases i, 4
  {
    match i
    case Line(end) => [end]
    case Suppressed(breaks, form) => [Slashdash] + (Breaks(breaks) + FormTokens(form))
    case Written(form) => FormTokens(form)
  }

  function First(i: Item): Token {
    match i
    case Line(end) => end
    case Suppressed(_, _) => Slashdash
    case Written(form) => NameToken(form.quoted, form.name)
  }

  function ItemsTokens(items: seq<Item>): seq<Token>
    decreases items, 5
  {
    if items == [] then [] else ItemTokens(items[0]) + ItemsTokens(items[1..])
  }

  // ---------- which of them are written right ----------

  /** A node ends with its line, or in front of a closing brace or the end; after a block no end is needed. */
  predicate EndsRight(f: Form, next: Token) {
    if f.end.Some? then Ends(f.end.value) else if !f.hasBlock then next.RBrace? || next.EOF? else !Ends(next)
  }

  predicate ComponentOK(c: Component)
    decreases c, 0
  {
    c.BlockPart? ==> ItemsOK(c.items)
  }

  predicate FormOK(f: Form, next: Token)
    decreases f, 3
  {
    && EndsRight(f, next) && (if f.hasBlock then ItemsOK(f.block) else f.block == [])
    && forall i | 0 <= i < |f.entries| :: f.entries[i].Dropped? ==> ComponentOK(f.entries[i].what)
  }

  predicate ItemOK(i: Item, next: Token)
    decreases i, 4
  {
    match i
    case Line(end) => Ends(end)
    case Suppressed(_, form) => FormOK(form, next)
    case Written(form) => FormOK(form, next)
  }

  /** The items of a block or of a document: each in front of the next one, the last in front of the end. */
  predicate ItemsOK(items: seq<Item>)
    decreases items, 5
  {
    items == [] || (ItemOK(items[0], if |items| == 1 then RBrace else First(items[1])) && ItemsOK(items[1..]))
  }

  // ---------- which tree it is ----------

  function Arguments(entries: seq<Entry>): seq<K.Value> {
    if entries == [] then [] else (if entries[0].Argument? then [entries[0].v] else []) + Arguments(entries[1..])
  }

  function Pairs(entries: seq<Entry>): seq<K.Property> {
    if entries == [] then [] else (if entries[0].Pair? then [entries[0].p] else []) + Pairs(entries[1..])
  }

  function TreeOf(f: Form): K.Node
    decreases f, 0
  {
    K.Node(f.name, Arguments(f.entries), Pairs(f.entries), TreesOf(f.block))
  }

  /** The nodes that are not suppressed, in order. */
  function TreesOf(items: seq<Item>): seq<K.Node>
    decreases items, 1
  {
    if items == [] then [] else ItemTrees(items[0]) + TreesOf(items[1..])
  }

  function ItemTrees(i: Item): seq<K.Node>
    decreases i, 0
  {
    match i case Written(form) => [TreeOf(form)] case _ => []
  }

  // ---------- the parser reads it ----------

  lemma {:induction false} BreaksAreSkipped(ts: seq<Token>, k: nat, n: nat)
    requires Stands(ts, k, Breaks(n)) && !At(ts, k + n).Newline?
    ensures k <= |ts| && LinesEnd(ts, k) == k + n
    decreases n
  {
    if n > 0 {
      StandsAt(ts, k, Breaks(n), 0);
      StandsSplit(ts, k, [Newline], Breaks(n - 1));
      BreaksAreSkipped(ts, k + 1, n - 1);
    }
  }

  lemma {:induction false} AfterMark(ts: seq<Token>, k: nat, n: nat, rest: seq<Token>)
    requires Stands(ts, k, [Slashdash] + Breaks(n) + rest) && rest != [] && !rest[0].Newline? && !rest[0].Slashdash? && !rest[0].LParen?
    ensures k < |ts| && ts[k].Slashdash? && AfterSlashdash(ts, k) == Some(k + 1 + n) && Stands(ts, k + 1 + n, rest)
  {
    assert [Slashdash] + Breaks(n) + rest == [Slashdash] + (Breaks(n) + rest);
    StandsSplit(ts, k, [Slashdash], Breaks(n) + rest);
    StandsAt(ts, k, [Slashdash], 0);
    StandsSplit(ts, k + 1, Breaks(n), rest);
    StandsAt(ts, k + 1 + n, rest, 0);
    BreaksAreSkipped(ts, k + 1, n);
  }

  lemma {:induction false} ComponentIsSkipped(ts: seq<Token>, k: nat, breaks: nat, c: Component)
    requires Stands(ts, k, [Slashdash] + Breaks(breaks) + ComponentTokens(c)) && ComponentOK(c)
    requires !At(ts, k + 1 + breaks + |ComponentTokens(c)|).Equals?
    ensures k < |ts| && ts[k].Slashdash?
    ensures ComponentSkipped(ts, k) == Moved(k + 1 + breaks + |ComponentTokens(c)|, [])
    decreases c, 6
  {
    hide ItemsTokens, ItemsOK, ChildrenAt, AfterSlashdash, Breaks, ValueOf, Stands;
    var tokens := ComponentTokens(c);
    var i := k + 1 + breaks;
    AfterMark(ts, k, breaks, tokens);
    StandsAt(ts, i, tokens, 0);
    match c {
      case ValuePart(v) =>
      case PropertyPart(quoted, p) =>
        StandsAt(ts, i, tokens, 1);
        StandsAt(ts, i, tokens, 2);
      case BlockPart(items) =>
        assert tokens == [LBrace] + (ItemsTokens(items) + ([RBrace] + []));
        BlockStands(ts, i, ItemsTokens(items), []);
        ItemsParse(ts, i + 1, items);
        BlockIsSkipped(ts, i, items);
    }
  }

  lemma {:induction false} BlockIsSkipped(ts: seq<Token>, i: nat, items: seq<Item>)
    requires i < |ts| && ts[i].LBrace? && ChildrenAt(ts, i + 1) == Parsed(TreesOf(items), i + 1 + |ItemsTokens(items)|, [])
    requires At(ts, i + 1 + |ItemsTokens(items)|).RBrace?
    ensures BlockSkipped(ts, i) == Moved(i + 2 + |ItemsTokens(items)|, [])
  {
    hide ChildrenAt;
  }

  /** The entries of a node, up to its block or its end. */
  lemma {:induction false} EntriesParse(ts: seq<Token>, k: nat, entries: seq<Entry>, n: K.Node)
    requires Stands(ts, k, EntriesTokens(entries)) && !At(ts, k + |EntriesTokens(entries)|).Equals?
    requires forall i | 0 <= i < |entries| :: entries[i].Dropped? ==> ComponentOK(entries[i].what)
    ensures EntriesAt(ts, k, n) == EntriesAt(ts, k + |EntriesTokens(entries)|,
      n.(arguments := n.arguments + Arguments(entries), properties := n.properties + Pairs(entries)))
    decreases entries, 7
  {
    hide EntryTokens, EntriesAt, ComponentOK;
    if entries == [] {
      assert n.arguments + [] == n.arguments && n.properties + [] == n.properties;
    } else {
      var first, rest := EntryTokens(entries[0]), EntriesTokens(entries[1..]);
      StandsSplit(ts, k, first, rest);
      NoEquals(ts, k + |first|, entries[1..]);
      EntryParses(ts, k, entries[0], n);
      var m := OneEntry(n, entries[0]);
      EntriesParse(ts, k + |first|, entries[1..], m);
      EntryAdds(n, entries);
    }
  }

  lemma {:induction false} NoEquals(ts: seq<Token>, k: nat, entries: seq<Entry>)
    requires Stands(ts, k, EntriesTokens(entries)) && !At(ts, k + |EntriesTokens(entries)|).Equals?
    ensures !At(ts, k).Equals?
  {
    hide ComponentTokens;
    if entries != [] {
      StandsAt(ts, k, EntriesTokens(entries), 0);
    }
  }

  function OneEntry(n: K.Node, e: Entry): K.Node {
    match e
    case Argument(v) => n.(arguments := n.arguments + [v])
    case Pair(p) => n.(properties := n.properties + [p])
    case Dropped(_, _) => n
  }

  lemma {:induction false} EntryAdds(n: K.Node, entries: seq<Entry>)
    requires entries != []
    ensures var m := OneEntry(n, entries[0]);
      && m.arguments + Arguments(entries[1..]) == n.arguments + Arguments(entries)
      && m.properties + Pairs(entries[1..]) == n.properties + Pairs(entries)
      && m.name == n.name && m.children == n.children
  {
    hide Arguments, Pairs;
    FirstEntry(entries);
    var e, a, p := entries[0], Arguments(entries[1..]), Pairs(entries[1..]);
    match e {
      case Argument(v) =>
        assert n.arguments + [v] + a == n.arguments + ([v] + a);
      case Pair(q) =>
        assert n.properties + [q] + p == n.properties + ([q] + p);
      case Dropped(_, _) =>
    }
  }

  lemma {:induction false} FirstEntry(entries: seq<Entry>)
    requires entries != []
    ensures Arguments(entries) == if entries[0].Argument? then [entries[0].v] + Arguments(entries[1..]) else Arguments(entries[1..])
    ensures Pairs(entries) == if entries[0].Pair? then [entries[0].p] + Pairs(entries[1..]) else Pairs(entries[1..])
  {}

  lemma {:induction false} EntryParses(ts: seq<Token>, k: nat, e: Entry, n: K.Node)
    requires Stands(ts, k, EntryTokens(e)) && !At(ts, k + |EntryTokens(e)|).Equals? && (e.Dropped? ==> ComponentOK(e.what))
    ensures k + |EntryTokens(e)| <= |ts| && EntriesAt(ts, k, n) == EntriesAt(ts, k + |EntryTokens(e)|, OneEntry(n, e))
    decreases e, 6
  {
    hide ComponentTokens, ComponentOK, EntriesAt, ComponentSkipped;
    match e {
      case Argument(v) =>
        StandsAt(ts, k, [ValueToken(v)], 0);
        EntryIsArgument(ts, k, v, n);
      case Pair(p) => EntryIsProperty(ts, k, p, n);
      case Dropped(breaks, what) =>
        ComponentIsSkipped(ts, k, breaks, what);
        EntryIsDropped(ts, k, k + |EntryTokens(e)|, n);
    }
  }

  lemma {:induction false} EntryIsDropped(ts: seq<Token>, k: nat, end: nat, n: K.Node)
    requires k < |ts| && ts[k].Slashdash? && ComponentSkipped(ts, k) == Moved(end, [])
    ensures end <= |ts| && EntriesAt(ts, k, n) == EntriesAt(ts, end, n)
  {
    hide ComponentSkipped;
    assert EntryAt(ts, k, n) == Parsed(n, end, []);
    var rest := EntriesAt(ts, end, n);
    assert [] + rest.reports == rest.reports;
  }

  /** The block and the end of a node. */
  lemma {:induction false} TailParses(ts: seq<Token>, k: nat, f: Form, n: K.Node)
    requires Stands(ts, k, BlockTokens(f.hasBlock, f.block) + EndTokens(f.end)) && n.children == []
    requires EndsRight(f, At(ts, k + |BlockTokens(f.hasBlock, f.block) + EndTokens(f.end)|)) && (if f.hasBlock then ItemsOK(f.block) else f.block == [])
    ensures k <= |ts| && EntriesAt(ts, k, n) ==
      Parsed(n.(children := TreesOf(f.block)), k + |BlockTokens(f.hasBlock, f.block) + EndTokens(f.end)|, [])
    decreases f, 7
  {
    hide ItemsTokens, ItemsOK, EntriesAt, ChildrenAt, TreesOf, Stands;
    NoTrees();
    var end := EndTokens(f.end);
    if !f.hasBlock {
      assert BlockTokens(f.hasBlock, f.block) + end == end;
      assert n.(children := []) == n;
      EndStands(ts, k, f.end);
      EndParses(ts, k, f.end, n);
    } else {
      var body := ItemsTokens(f.block);
      assert BlockTokens(f.hasBlock, f.block) + end == [LBrace] + (body + ([RBrace] + end));
      BlockStands(ts, k, body, end);
      EndStands(ts, k + 2 + |body|, f.end);
      ItemsParse(ts, k + 1, f.block);
      BlockEnds(ts, k, n, TreesOf(f.block), k + 1 + |body|, f.end);
    }
  }

  lemma {:induction false} EndStands(ts: seq<Token>, k: nat, end: Option<Token>)
    requires Stands(ts, k, EndTokens(end))
    ensures k <= |ts| && (end.Some? ==> k < |ts| && ts[k] == end.value)
  {
    if end.Some? {
      StandsAt(ts, k, EndTokens(end), 0);
    }
  }

  /** What stands where, of a block and what follows it. */
  lemma {:induction false} BlockStands(ts: seq<Token>, k: nat, body: seq<Token>, end: seq<Token>)
    requires Stands(ts, k, [LBrace] + (body + ([RBrace] + end)))
    ensures k < |ts| && ts[k].LBrace? && Stands(ts, k + 1, body) && At(ts, k + 1 + |body|).RBrace? && Stands(ts, k + 2 + |body|, end)
  {
    hide Stands;
    StandsSplit(ts, k, [LBrace], body + ([RBrace] + end));
    StandsAt(ts, k, [LBrace], 0);
    StandsSplit(ts, k + 1, body, [RBrace] + end);
    StandsAt(ts, k + 1 + |body|, [RBrace] + end, 0);
    StandsSplit(ts, k + 1 + |body|, [RBrace], end);
  }

  lemma {:induction false} NoTrees()
    ensures TreesOf([]) == []
  {}

  lemma {:induction false} EndParses(ts: seq<Token>, k: nat, end: Option<Token>, n: K.Node)
    requires k <= |ts| && if end.Some? then k < |ts| && ts[k] == end.value && Ends(end.value) else At(ts, k).RBrace? || At(ts, k).EOF?
    ensures EntriesAt(ts, k, n) == Parsed(n, k + |EndTokens(end)|, [])
  {}

  lemma {:induction false} BlockEnds(ts: seq<Token>, k: nat, n: K.Node, children: seq<K.Node>, close: nat, end: Option<Token>)
    requires k < |ts| && ts[k].LBrace? && ChildrenAt(ts, k + 1) == Parsed(children, close, []) && At(ts, close).RBrace?
    requires if end.Some? then At(ts, close + 1) == end.value && Ends(end.value) else !Ends(At(ts, close + 1))
    ensures EntriesAt(ts, k, n) == Parsed(n.(children := children), close + 1 + |EndTokens(end)|, [])
  {
    hide ChildrenAt;
    
  }

  lemma {:induction false} FormParses(ts: seq<Token>, k: nat, f: Form)
    requires Stands(ts, k, FormTokens(f)) && FormOK(f, At(ts, k + |FormTokens(f)|))
    ensures k < |ts| && ts[k] == NameToken(f.quoted, f.name) && NodeAt(ts, k) == Parsed(Some(TreeOf(f)), k + |FormTokens(f)|, [])
    decreases f, 8
  {
    hide EntriesTokens, BlockTokens, EndTokens, EntriesAt, ComponentOK, ItemsOK, TreesOf, Arguments, Pairs, EndsRight;
    var entries, tail := EntriesTokens(f.entries), BlockTokens(f.hasBlock, f.block) + EndTokens(f.end);
    StandsAt(ts, k, FormTokens(f), 0);
    StandsSplit(ts, k, [NameToken(f.quoted, f.name)], entries + tail);
    StandsSplit(ts, k + 1, entries, tail);
    TailHasNoEquals(ts, k + 1 + |entries|, f);
    var bare := K.Node(f.name, [], [], []);
    EntriesParse(ts, k + 1, f.entries, bare);
    assert [] + Arguments(f.entries) == Arguments(f.entries) && [] + Pairs(f.entries) == Pairs(f.entries);
    TailParses(ts, k + 1 + |entries|, f, K.Node(f.name, Arguments(f.entries), Pairs(f.entries), []));
    NodeFromEntries(ts, k, f);
  }

  lemma {:induction false} TailHasNoEquals(ts: seq<Token>, k: nat, f: Form)
    requires Stands(ts, k, BlockTokens(f.hasBlock, f.block) + EndTokens(f.end)) && EndsRight(f, At(ts, k + |BlockTokens(f.hasBlock, f.block) + EndTokens(f.end)|))
    ensures !At(ts, k).Equals?
  {
    hide ItemsTokens;
    var tokens := BlockTokens(f.hasBlock, f.block) + EndTokens(f.end);
    if tokens != [] {
      StandsAt(ts, k, tokens, 0);
    }
  }

  lemma {:induction false} NodeFromEntries(ts: seq<Token>, k: nat, f: Form)
    requires k < |ts| && ts[k] == NameToken(f.quoted, f.name)
    requires EntriesAt(ts, k + 1, K.Node(f.name, [], [], [])) == Parsed(TreeOf(f), k + |FormTokens(f)|, [])
    ensures NodeAt(ts, k) == Parsed(Some(TreeOf(f)), k + |FormTokens(f)|, [])
  {
    hide EntriesAt, TreeOf, FormTokens;
    
  }

  lemma {:induction false} ItemParses(ts: seq<Token>, k: nat, i: Item)
    requires Stands(ts, k, ItemTokens(i)) && ItemOK(i, At(ts, k + |ItemTokens(i)|))
    ensures k < |ts| && ts[k] == First(i) && !ts[k].RBrace? && !ts[k].EOF?
    ensures ItemAt(ts, k) == Parsed(ItemTrees(i), k + |ItemTokens(i)|, [])
    decreases i, 9
  {
    hide FormTokens, FormOK, NodeAt, TreeOf, AfterSlashdash, Breaks;
    StandsAt(ts, k, ItemTokens(i), 0);
    match i {
      case Line(end) =>
      case Suppressed(breaks, form) =>
        assert ItemTokens(i) == [Slashdash] + Breaks(breaks) + FormTokens(form);
        FormStarts(form);
        AfterMark(ts, k, breaks, FormTokens(form));
        FormParses(ts, k + 1 + breaks, form);
        SuppressedIsSkipped(ts, k, k + 1 + breaks, form);
      case Written(form) => FormParses(ts, k, form);
    }
  }

  lemma {:induction false} FormStarts(f: Form)
    ensures FormTokens(f) != [] && FormTokens(f)[0] == NameToken(f.quoted, f.name)
  {}

  lemma {:induction false} SuppressedIsSkipped(ts: seq<Token>, k: nat, i: nat, f: Form)
    requires k < |ts| && ts[k].Slashdash? && AfterSlashdash(ts, k) == Some(i) && i < |ts| && ts[i] == NameToken(f.quoted, f.name)
    requires NodeAt(ts, i) == Parsed(Some(TreeOf(f)), i + |FormTokens(f)|, [])
    ensures ItemAt(ts, k) == Parsed([], i + |FormTokens(f)|, [])
  {
    hide NodeAt, TreeOf, FormTokens, AfterSlashdash;
  }

  lemma {:induction false} NextOf(ts: seq<Token>, k: nat, items: seq<Item>)
    requires items != [] && Stands(ts, k, ItemsTokens(items)) && ItemsOK(items)
    requires At(ts, k + |ItemsTokens(items)|).RBrace? || At(ts, k + |ItemsTokens(items)|).EOF?
    ensures ItemOK(items[0], At(ts, k + |ItemTokens(items[0])|))
  {
    hide ItemTokens, FormOK;
    var first, rest := ItemTokens(items[0]), ItemsTokens(items[1..]);
    StandsSplit(ts, k, first, rest);
    if |items| == 1 {
      assert rest == [];
      LastIsRight(items[0], At(ts, k + |first|));
    } else {
      StandsAt(ts, k + |first|, rest, 0);
      assert rest[0] == First(items[1]);
    }
  }

  /** In front of a closing brace or of the end is the same. */
  lemma {:induction false} LastIsRight(i: Item, next: Token)
    requires ItemOK(i, RBrace) && (next.RBrace? || next.EOF?)
    ensures ItemOK(i, next)
  {
    hide ComponentOK, ItemsOK;
  }

  lemma {:induction false} ItemsParse(ts: seq<Token>, k: nat, items: seq<Item>)
    requires Stands(ts, k, ItemsTokens(items)) && ItemsOK(items) && At(ts, k + |ItemsTokens(items)|).RBrace?
    ensures k <= |ts| && ChildrenAt(ts, k) == Parsed(TreesOf(items), k + |ItemsTokens(items)|, [])
    decreases items, 10
  {
    hide ItemTokens, ItemOK, ItemAt, ItemTrees;
    if items != [] {
      var first, rest := ItemTokens(items[0]), ItemsTokens(items[1..]);
      NextOf(ts, k, items);
      StandsSplit(ts, k, first, rest);
      ItemParses(ts, k, items[0]);
      ItemsParse(ts, k + |first|, items[1..]);
      
    }
  }

  /** A whole document. */
  lemma {:induction false} DocumentParses(ts: seq<Token>, k: nat, items: seq<Item>)
    requires Stands(ts, k, ItemsTokens(items)) && ItemsOK(items) && |ts| == k + |ItemsTokens(items)|
    ensures DocumentAt(ts, k) == Parsed(TreesOf(items), |ts|, [])
    decreases |items|
  {
    hide ItemTokens, ItemOK, ItemAt, ItemTrees;
    if items != [] {
      var first, rest := ItemTokens(items[0]), ItemsTokens(items[1..]);
      NextOf(ts, k, items);
      StandsSplit(ts, k, first, rest);
      ItemParses(ts, k, items[0]);
      DocumentParses(ts, k + |first|, items[1..]);
      
    }
  }

  /** However a document is written, it is read as its tree: with any line breaks and semicolons between
      its nodes, arguments and properties in any order, and anything suppressed anywhere. */
  lemma {:induction false} WrittenDocumentsParse(h: V.Host, text: string, items: seq<Item>)
    requires ItemsOK(items) && Tokens(h, text) == ItemsTokens(items) && Reports(h, text) == []
    ensures Parse(h, text) == (TreesOf(items), [])
  {
    hide ItemsTokens, ItemsOK, TreesOf, Tokens, Reports, DocumentAt;
    var ts := Tokens(h, text);
    assert ts[0..|ts|] == ts;
    DocumentParses(ts, 0, items);
    assert DocumentAt(ts, 0).reports + Reports(h, text) == [];
  }

  // ---------- what is not grammatical ----------

  /** A type annotation in front of an entry or of a name is skipped up to its closing parenthesis, and reported. */
  lemma {:induction false} AnnotationsAreReported(ts: seq<Token>, k: nat, inside: seq<Token>, rest: seq<Token>, n: K.Node)
    requires Stands(ts, k, [LParen] + inside + [RParen]) && forall i | 0 <= i < |inside| :: !inside[i].LParen? && !inside[i].RParen?
    ensures var end := k + |inside| + 2;
      && end <= |ts|
      && EntriesAt(ts, k, n) == EntriesAt(ts, end, n).(reports := [ANNOTATION] + EntriesAt(ts, end, n).reports)
      && (StartsNode(At(ts, end)) && !At(ts, end).LParen? ==>
           NodeAt(ts, k) == NodeAt(ts, end).(reports := [ANNOTATION] + NodeAt(ts, end).reports))
  {
    hide EntriesAt;
    var tokens := [LParen] + inside + [RParen];
    StandsAt(ts, k, tokens, 0);
    assert tokens == [LParen] + (inside + [RParen]);
    StandsSplit(ts, k, [LParen], inside + [RParen]);
    InsideIsPassed(ts, k + 1, inside);
    assert AnnotationEnd(ts, k, 0) == k + |inside| + 2;
    AnnotatedEntry(ts, k, n);
  }

  lemma {:induction false} AnnotatedEntry(ts: seq<Token>, k: nat, n: K.Node)
    requires k < |ts| && ts[k].LParen?
    ensures var end := AnnotationEnd(ts, k, 0);
      EntriesAt(ts, k, n) == EntriesAt(ts, end, n).(reports := [ANNOTATION] + EntriesAt(ts, end, n).reports)
  {}

  lemma {:induction false} InsideIsPassed(ts: seq<Token>, k: nat, inside: seq<Token>)
    requires Stands(ts, k, inside + [RParen]) && forall i | 0 <= i < |inside| :: !inside[i].LParen? && !inside[i].RParen?
    ensures k <= |ts| && AnnotationEnd(ts, k, 1) == k + |inside| + 1
    decreases |inside|
  {
    StandsAt(ts, k, inside + [RParen], 0);
    if inside != [] {
      assert inside + [RParen] == [inside[0]] + (inside[1..] + [RParen]);
      StandsSplit(ts, k, [inside[0]], inside[1..] + [RParen]);
      InsideIsPassed(ts, k + 1, inside[1..]);
    }
  }

  /** A property without a value is dropped as if it were not there, so in front of the end of its line
      nothing is reported. */
  lemma {:induction false} EmptyPropertyIsDropped(ts: seq<Token>, k: nat, name: string, n: K.Node)
    requires Stands(ts, k, [Word(name), Equals]) && ValueOf(At(ts, k + 2)).None?
    ensures k + 2 <= |ts| && EntriesAt(ts, k, n) == EntriesAt(ts, k + 2, n)
    ensures At(ts, k + 2).Newline? ==> EntriesAt(ts, k, n) == Parsed(n, k + 3, [])
  {
    var tokens := [Word(name), Equals];
    StandsAt(ts, k, tokens, 0);
    StandsAt(ts, k, tokens, 1);
    assert EntryAt(ts, k, n) == Parsed(n, k + 2, []);
    assert [] + EntriesAt(ts, k + 2, n).reports == EntriesAt(ts, k + 2, n).reports;
  }
}
