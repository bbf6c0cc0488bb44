/** The lexer of internal/kdl/lexer.go, on characters instead of UTF-8 bytes. */
module Lexing {
  import opened Options
  import opened Text
  import opened Floats
  import V = Values

  datatype Token =
    | Invalid | EOF | Newline | Semicolon | Slashdash | LBrace | RBrace | Equals | LParen | RParen
    | Word(text: string)
    | TString(s: string) | TInt(n: int) | TFloat(r: real) | TBool(b: bool) | TNull

  /** One token, how many characters it and what was skipped before it take, and what was reported. */
  datatype Lexed = Lexed(token: Token, size: nat, reports: seq<string>) {
    function After(n: nat): Lexed {
      this.(size := n + size)
    }
  }

  const SYNTAX := "E_KDL_SYNTAX"

  function Bad(size: nat): Lexed {
    Lexed(Invalid, size, [SYNTAX])
  }

  // ---------- characters ----------

  /** peekByte: zero past the end. */
  function Peek(s: string, n: nat): char {
    if n < |s| then s[n] else '\0'
  }

  predicate IsIdentifierStart(c: char) {
    c == '_' || c == '-' || 'A' <= c <= 'Z' || 'a' <= c <= 'z'
  }

  predicate IsIdentifierContinue(c: char) {
    IsIdentifierStart(c) || IsDigit(c) || c == '.' || c == '/'
  }

  predicate IsNumberStart(s: string) {
    s != "" && (IsDigit(s[0]) || ((s[0] == '+' || s[0] == '-') && IsDigit(Peek(s, 1))))
  }

  predicate IsBoundary(c: char) {
    c == '\0' || c == ' ' || c == '\t' || c == '\r' || c == '\n' || c == ';' || c == '}' || c == '{'
  }

  predicate IsBlank(c: char) {
    c == ' ' || c == '\t' || c == '\r'
  }

  /** The tokens of one character. */
  function Punctuation(c: char): Option<Token> {
    if c == '\n' then Some(Newline)
    else if c == ';' then Some(Semicolon)
    else if c == '{' then Some(LBrace)
    else if c == '}' then Some(RBrace)
    else if c == '=' then Some(Equals)
    else if c == '(' then Some(LParen)
    else if c == ')' then Some(RParen)
    else None
  }

  // ---------- comments ----------

  function LineLength(s: string): (n: nat)
    ensures n <= |s| && (s != "" && s[0] != '\n' ==> n > 0)
  {
    if s == "" || s[0] == '\n' then 0 else 1 + LineLength(s[1..])
  }

  /** The next piece of a block comment and what it does to the nesting depth. */
  function CommentPart(s: string): (r: (nat, int))
    requires s != ""
    ensures 1 <= r.0 <= |s| && -1 <= r.1 <= 1
  {
    if s[0] == '/' && Peek(s, 1) == '*' then (2, 1) else if s[0] == '*' && Peek(s, 1) == '/' then (2, -1) else (1, 0)
  }

  /** How far a block comment goes after its opening, and whether it is closed. */
  function BlockLength(s: string, depth: nat): (r: (nat, bool))
    requires depth >= 1
    ensures r.0 <= |s|
    decreases |s|
  {
    if s == "" then (0, false) else
    var part := CommentPart(s);
    if depth + part.1 == 0 then (part.0, true) else
    var rest := BlockLength(s[part.0..], depth + part.1);
    (part.0 + rest.0, rest.1)
  }

  // ---------- quoted strings ----------

  /** The escapes of one letter. */
  function Escaped(c: char): Option<char> {
    if c == 'n' then Some('\n')
    else if c == 'r' then Some('\r')
    else if c == 't' then Some('\t')
    else if c == 'b' then Some('\U{0008}')
    else if c == 'f' then Some('\U{000c}')
    else if c == '\\' || c == '\"' then Some(c)
    else None
  }

  function BraceLength(s: string): (n: nat)
    ensures n <= |s| && (n < |s| ==> s[n] == '}')
  {
    if s == "" || s[0] == '}' then 0 else 1 + BraceLength(s[1..])
  }

  /** The character of a Unicode escape: hexadecimal digits, as strconv.ParseInt reads them. */
  function HexChar(hex: string): Option<char> {
    var n :- ParseSigned(hex, 16);
    if 0 <= n < 0xD800 || 0xE000 <= n < 0x11_0000 then Some(n as char) else None
  }

  /** What an escape stands for and how long it is, after its backslash. */
  function Escape(s: string): (r: (Option<char>, nat))
    requires s != ""
    ensures 1 <= r.1 <= |s|
  {
    if Escaped(s[0]).Some? then (Escaped(s[0]), 1)
    else if s[0] == 'u' && Peek(s, 1) == '{' then
      var n := BraceLength(s[2..]);
      if 2 + n == |s| then (None, |s|) else (HexChar(s[2..2 + n]), 3 + n)
    else (None, 1)
  }

  /** The rest of a quoted string, after what has been read of it. */
  function Quoted(s: string, read: string): (r: Lexed)
    ensures r.size <= |s| && !r.token.EOF?
    decreases |s|
  {
    if s == "" then Bad(0)
    else if s[0] == '\"' then Lexed(TString(read), 1, [])
    else if s[0] == '\\' then
      if |s| == 1 then Bad(1) else
      var e := Escape(s[1..]);
      if e.0.None? then Bad(1 + e.1) else Quoted(s[1 + e.1..], read + [e.0.value]).After(1 + e.1)
    else if s[0] == '\n' || s[0] == '\r' then Bad(1)
    else Quoted(s[1..], read + [s[0]]).After(1)
  }

  // ---------- hash tokens ----------

  function HashLength(s: string): (n: nat)
    ensures n <= |s|
  {
    if s != "" && s[0] == '#' then 1 + HashLength(s[1..]) else 0
  }

  /** The next n characters all are `c`. */
  predicate Repeats(s: string, c: char, n: nat) {
    n <= |s| && forall i | 0 <= i < n :: s[i] == c
  }

  /** The end of a raw string: its quotes and then its hashes. */
  predicate Closes(s: string, quotes: nat, hashes: nat) {
    Repeats(s, '\"', quotes) && Repeats(s[quotes..], '#', hashes)
  }

  function RawLength(s: string, quotes: nat, hashes: nat): (n: nat)
    ensures n <= |s| && (n < |s| ==> Closes(s[n..], quotes, hashes))
  {
    if s == "" || Closes(s, quotes, hashes) then 0 else 1 + RawLength(s[1..], quotes, hashes)
  }

  function DropFirstBreak(s: string): string {
    if |s| >= 2 && s[0] == '\r' && s[1] == '\n' then s[2..] else if s != "" && s[0] == '\n' then s[1..] else s
  }

  function DropLastBreak(s: string): string {
    var n := |s|;
    if n >= 2 && s[n - 2] == '\r' && s[n - 1] == '\n' then s[..n - 2] else if n > 0 && s[n - 1] == '\n' then s[..n - 1] else s
  }

  function Raw(s: string): (r: Lexed)
    requires s != ""
    ensures 1 <= r.size <= |s| && !r.token.EOF?
  {
    var hashes := HashLength(s);
    if Peek(s, hashes) != '\"' then Bad(1)
    else
      var quotes := if Repeats(s[hashes..], '\"', 3) then 3 else 1;
      var content := s[hashes + quotes..];
      var n := RawLength(content, quotes, hashes);
      if n == |content| then Bad(|s|)
      else
        Lexed(TString(if quotes == 3 then DropLastBreak(DropFirstBreak(content[..n])) else content[..n]),
              hashes + quotes + n + quotes + hashes, [])
  }

  predicate Keyword(s: string, word: string) {
    word <= s && IsBoundary(Peek(s, |word|))
  }

  function Hash(s: string): (r: Lexed)
    requires s != ""
    ensures 1 <= r.size <= |s| && !r.token.EOF?
  {
    if Keyword(s, "#true") then Lexed(TBool(true), 5, [])
    else if Keyword(s, "#false") then Lexed(TBool(false), 6, [])
    else if Keyword(s, "#null") then Lexed(TNull, 5, [])
    else Raw(s)
  }

  // ---------- numbers ----------

  predicate InBase(c: char, base: nat) {
    DigitIn(c).Some? && DigitIn(c).value < base
  }

  /** A run of digits and underscores. */
  function Run(s: string, base: nat): (n: nat)
    ensures n <= |s|
  {
    if s != "" && (InBase(s[0], base) || s[0] == '_') then 1 + Run(s[1..], base) else 0
  }

  function Clean(s: string): string {
    if s == "" then "" else (if s[0] == '_' then "" else [s[0]]) + Clean(s[1..])
  }

  /** The base a prefix stands for, or zero. */
  function BaseOf(c: char): nat {
    if c == 'x' || c == 'X' then 16 else if c == 'o' || c == 'O' then 8 else if c == 'b' || c == 'B' then 2 else 0
  }

  function Integer(raw: string, base: nat): (r: Lexed)
    ensures r.size == |raw| && !r.token.EOF? && (r.reports == [] || r.reports == [SYNTAX])
  {
    var n := ParseSigned(Clean(raw), base);
    if n.Some? && V.InRange(V.I64, n.value) then Lexed(TInt(n.value), |raw|, []) else Bad(|raw|)
  }

  function SignLength(s: string): (n: nat)
    ensures n <= |s|
  {
    if s != "" && (s[0] == '+' || s[0] == '-') then 1 else 0
  }

  /** A fraction after a point, when there is one. */
  function FractionLength(s: string): (n: nat)
    ensures n <= |s|
  {
    if s != "" && s[0] == '.' then 1 + Run(s[1..], 10) else 0
  }

  function ExponentLength(s: string): (n: nat)
    ensures n <= |s|
  {
    if s != "" && (s[0] == 'e' || s[0] == 'E') then
      var sign := SignLength(s[1..]);
      1 + sign + Run(s[1 + sign..], 10)
    else 0
  }

  /** The length of the integer part, and of the whole decimal. */
  function DecimalLengths(s: string): (r: (nat, nat))
    ensures r.0 <= r.1 <= |s|
  {
    var i := SignLength(s) + Run(s[SignLength(s)..], 10);
    var j := i + FractionLength(s[i..]);
    (i, j + ExponentLength(s[j..]))
  }

  function Number(h: V.Host, s: string): (r: Lexed)
    requires IsNumberStart(s)
    ensures 1 <= r.size <= |s| && !r.token.EOF?
  {
    var sign := SignLength(s);
    var base := if Peek(s, sign) == '0' then BaseOf(Peek(s, sign + 1)) else 0;
    if base != 0 then
      var end := sign + 2 + Run(s[sign + 2..], base);
      if Clean(s[sign + 2..end]) == "" then Bad(end) else Integer(s[..end], 0)
    else
      var lengths := DecimalLengths(s);
      if lengths.0 == lengths.1 then Integer(s[..lengths.1], 10) else FloatLiteral(h, s[..lengths.1])
  }

  function FloatLiteral(h: V.Host, raw: string): (r: Lexed)
    ensures r.size == |raw| && !r.token.EOF? && (r.reports == [] || r.reports == [SYNTAX])
  {
    var f := h.parseFloat(false, Clean(raw));
    if f.Some? && f.value.Finite? then Lexed(TFloat(f.value.value), |raw|, []) else Bad(|raw|)
  }

  // ---------- tokens ----------

  function WordLength(s: string): (n: nat)
    ensures n <= |s|
  {
    if s != "" && IsIdentifierContinue(s[0]) then 1 + WordLength(s[1..]) else 0
  }

  /** A token that starts right here, and is not punctuation. */
  function Starting(h: V.Host, s: string): (r: Lexed)
    requires s != ""
    ensures 1 <= r.size <= |s| && !r.token.EOF?
  {
    if s[0] == '\"' then Quoted(s[1..], "").After(1)
    else if s[0] == '#' then Hash(s)
    else if IsNumberStart(s) then Number(h, s)
    else if IsIdentifierStart(s[0]) then Lexed(Word(s[..WordLength(s)]), WordLength(s), [])
    else Bad(1)
  }

  /** A blank or a comment at the start, its length and what is reported about it. */
  function Ignored(s: string): (r: (nat, seq<string>))
    requires s != ""
    ensures r.0 <= |s| && (r.0 == 0 ==> r.1 == [])
  {
    if IsBlank(s[0]) then (1, [])
    else if s[0] == '/' && Peek(s, 1) == '/' then (LineLength(s), [])
    else if s[0] == '/' && Peek(s, 1) == '*' then
      var block := BlockLength(s[2..], 1);
      (2 + block.0, if block.1 then [] else [SYNTAX])
    else (0, [])
  }

  function Here(h: V.Host, s: string): (r: Lexed)
    requires s != ""
    ensures 1 <= r.size <= |s| && !r.token.EOF?
  {
    if Punctuation(s[0]).Some? then Lexed(Punctuation(s[0]).value, 1, [])
    else if s[0] == '/' && Peek(s, 1) == '-' then Lexed(Slashdash, 2, [])
    else Starting(h, s)
  }

  function Next(h: V.Host, s: string): (r: Lexed)
    ensures r.size <= |s| && (if r.token.EOF? then r.size == |s| else r.size > 0)
    decreases |s|
  {
    if s == "" then Lexed(EOF, 0, [])
    else if Ignored(s).0 > 0 then
      var rest := Next(h, s[Ignored(s).0..]).After(Ignored(s).0);
      rest.(reports := Ignored(s).1 + rest.reports)
    else Here(h, s)
  }

  /** All tokens up to the end of the text, and all reports. */
  function Tokens(h: V.Host, s: string): seq<Token>
    decreases |s|
  {
    var l := Next(h, s);
    if l.token.EOF? then [] else [l.token] + Tokens(h, s[l.size..])
  }

  function Reports(h: V.Host, s: string): seq<string>
    decreases |s|
  {
    var l := Next(h, s);
    if l.token.EOF? then l.reports else l.reports + Reports(h, s[l.size..])
  }

  // ---------- positions ----------

  /** Line and column after a text, both counted from one. */
  function Position(s: string): (nat, nat) {
    if s == "" then (1, 1) else
    var p := Position(s[..|s| - 1]);
    if s[|s| - 1] == '\n' then (p.0 + 1, 1) else (p.0, p.1 + 1)
  }

  // ---------- the lexer ----------

  class Lexer {
    const h: V.Host
    const input: string
    var offset: nat
    var line: nat
    var column: nat
    var diags: seq<string>

    /** Line and column always are those of the offset. */
    ghost predicate Valid()
      reads this
    {
      offset <= |input| && (line, column) == Position(input[..offset])
    }

    function Left(): string
      reads this
      requires offset <= |input|
    {
      input[offset..]
    }

    constructor (h: V.Host, input: string)
      ensures Valid() && this.h == h && this.input == input && offset == 0 && diags == []
    {
      this.h, this.input := h, input;
      offset, line, column, diags := 0, 1, 1, [];
    }

    method Advance() returns (c: char)
      requires Valid() && offset < |input|
      modifies this`offset, this`line, this`column
      ensures Valid() && offset == old(offset) + 1
      ensures c == old(Left())[0] && Left() == old(Left())[1..]
    {
      c := input[offset];
      assert input[..offset + 1][..offset] == input[..offset];
      offset := offset + 1;
      if c == '\n' {
        line := line + 1;
        column := 1;
      } else {
        column := column + 1;
      }
    }

    /** A fixed number of characters. */
    method Skip(n: nat)
      requires Valid() && offset + n <= |input|
      modifies this`offset, this`line, this`column
      ensures Valid() && offset == old(offset) + n && Left() == old(Left())[n..]
    {
      for i := 0 to n
        invariant Valid() && offset == old(offset) + i
      {
        var _ := Advance();
      }
    }

    method Report()
      modifies this`diags
      ensures diags == old(diags) + [SYNTAX]
    {
      diags := diags + [SYNTAX];
    }

    method SkipLineComment()
      requires Valid()
      modifies this`offset, this`line, this`column
      ensures Valid() && Left() == old(Left())[LineLength(old(Left()))..]
    {
      ghost var n := LineLength(Left());
      ghost var start := offset;
      while offset < |input| && input[offset] != '\n'
        invariant Valid() && start <= offset && offset + LineLength(Left()) == start + n
        decreases |input| - offset
      {
        var _ := Advance();
      }
    }

    /** From the opening on. */
    method SkipBlockComment()
      requires Valid() && offset + 2 <= |input|
      modifies this`offset, this`line, this`column, this`diags
      ensures Valid()
      ensures var block := BlockLength(old(Left())[2..], 1);
        offset == old(offset) + 2 + block.0 && diags == if block.1 then old(diags) else old(diags) + [SYNTAX]
    {
      hide Position, CommentPart;
      Skip(2);
      ghost var block := BlockLength(Left(), 1);
      ghost var start := offset;
      var depth := 1;
      while offset < |input|
        invariant Valid() && start <= offset && depth >= 1 && diags == old(diags)
        invariant offset + BlockLength(Left(), depth).0 == start + block.0
        invariant BlockLength(Left(), depth).1 == block.1
        decreases |input| - offset
      {
        var part := CommentPart(Left());
        Skip(part.0);
        depth := depth + part.1;
        if depth == 0 {
          return;
        }
      }
      Report();
    }

    method ScanIdentifier() returns (t: Token)
      requires Valid() && offset < |input|
      modifies this`offset, this`line, this`column
      ensures Valid()
      ensures var n := WordLength(old(Left())); t == Word(old(Left())[..n]) && Left() == old(Left())[n..]
    {
      var begin := offset;
      ghost var n := WordLength(Left());
      while offset < |input| && IsIdentifierContinue(input[offset])
        invariant Valid() && begin <= offset && offset + WordLength(Left()) == begin + n
        decreases |input| - offset
      {
        var _ := Advance();
      }
      t := Word(input[begin..offset]);
    }

    method ScanQuotedString() returns (t: Token)
      requires Valid() && offset < |input|
      modifies this`offset, this`line, this`column, this`diags
      ensures Valid()
      ensures var l := Quoted(old(Left())[1..], "").After(1);
        t == l.token && offset == old(offset) + l.size && diags == old(diags) + l.reports
    {
      hide Escape, Position;
      var _ := Advance();
      ghost var whole := Quoted(Left(), "");
      ghost var start := offset;
      var read := "";
      while offset < |input|
        invariant Valid() && diags == old(diags) && start <= offset
        invariant var l := Quoted(Left(), read);
          l.token == whole.token && offset + l.size == start + whole.size && l.reports == whole.reports
        decreases |input| - offset
      {
        ghost var s := Left();
        var c := Advance();
        if c == '\"' {
          return TString(read);
        } else if c == '\\' {
          if offset == |input| {
            break;
          }
          var e := ScanEscape();
          if e.None? {
            return Invalid;
          }
          assert Left() == s[1 + Escape(s[1..]).1..];
          read := read + [e.value];
        } else if c == '\n' || c == '\r' {
          Report();
          return Invalid;
        } else {
          read := read + [c];
        }
      }
      Report();
      return Invalid;
    }

    /** After a backslash. */
    method ScanEscape() returns (r: Option<char>)
      requires Valid() && offset < |input|
      modifies this`offset, this`line, this`column, this`diags
      ensures Valid() && offset == old(offset) + Escape(old(Left())).1 && Left() == old(Left())[Escape(old(Left())).1..]
      ensures r == Escape(old(Left())).0
      ensures diags == if r.None? then old(diags) + [SYNTAX] else old(diags)
    {
      hide HexChar, BraceLength, Escaped, Position;
      ghost var s := Left();
      var e := Advance();
      if Escaped(e).Some? {
        return Escaped(e);
      }
      assert Peek(Left(), 0) == Peek(s, 1);
      if e != 'u' || Peek(Left(), 0) != '{' {
        Report();
        return None;
      }
      var _ := Advance();
      assert Left() == s[2..];
      var hex := ScanBraced();
      assert hex == s[2..2 + BraceLength(s[2..])];
      if offset == |input| {
        Report();
        return None;
      }
      var _ := Advance();
      r := HexChar(hex);
      if r.None? {
        Report();
      }
    }

    /** Up to a closing brace or the end. */
    method ScanBraced() returns (text: string)
      requires Valid()
      modifies this`offset, this`line, this`column
      ensures Valid()
      ensures var n := BraceLength(old(Left()));
        text == old(Left())[..n] && Left() == old(Left())[n..] && offset == old(offset) + n
    {
      hide Position;
      var begin := offset;
      ghost var n := BraceLength(Left());
      while offset < |input| && input[offset] != '}'
        invariant Valid() && begin <= offset && offset + BraceLength(Left()) == begin + n
        decreases |input| - offset
      {
        var _ := Advance();
      }
      text := input[begin..offset];
    }

    method ScanHashToken() returns (t: Token)
      requires Valid() && offset < |input|
      modifies this`offset, this`line, this`column, this`diags
      ensures Valid()
      ensures var l := Hash(old(Left()));
        t == l.token && offset == old(offset) + l.size && diags == old(diags) + l.reports
    {
      hide Raw, Position, IsBoundary;
      if Keyword(Left(), "#true") {
        Skip(5);
        return TBool(true);
      }
      if Keyword(Left(), "#false") {
        Skip(6);
        return TBool(false);
      }
      if Keyword(Left(), "#null") {
        Skip(5);
        return TNull;
      }
      t := ScanRawString();
    }

    method ScanRawString() returns (t: Token)
      requires Valid() && offset < |input|
      modifies this`offset, this`line, this`column, this`diags
      ensures Valid()
      ensures var l := Raw(old(Left()));
        t == l.token && offset == old(offset) + l.size && diags == old(diags) + l.reports
    {
      hide Position, Closes, DropFirstBreak, DropLastBreak, HashLength, RawLength;
      var s := Left();
      var hashes := CountHashes(s);
      if Peek(s, hashes) != '\"' {
        Skip(1);
        Report();
        return Invalid;
      }
      var quotes := if Repeats(s[hashes..], '\"', 3) then 3 else 1;
      Skip(hashes + quotes);
      ghost var content := Left();
      var text := ScanRawContent(quotes, hashes);
      if offset == |input| {
        Report();
        return Invalid;
      }
      CloserFits(content[|text|..], quotes, hashes);
      Skip(quotes + hashes);
      return TString(if quotes == 3 then DropLastBreak(DropFirstBreak(text)) else text);
    }

    method CountHashes(s: string) returns (n: nat)
      ensures n == HashLength(s)
    {
      n := 0;
      while Peek(s, n) == '#'
        invariant n <= |s| && n + HashLength(s[n..]) == HashLength(s)
        decreases |s| - n
      {
        n := n + 1;
      }
    }

    method ScanRawContent(quotes: nat, hashes: nat) returns (text: string)
      requires Valid()
      modifies this`offset, this`line, this`column
      ensures Valid()
      ensures var n := RawLength(old(Left()), quotes, hashes);
        text == old(Left())[..n] && Left() == old(Left())[n..] && offset == old(offset) + n
    {
      hide Position, Closes;
      var begin := offset;
      ghost var n := RawLength(Left(), quotes, hashes);
      while offset < |input| && !Closes(Left(), quotes, hashes)
        invariant Valid() && begin <= offset && offset + RawLength(Left(), quotes, hashes) == begin + n
        decreases |input| - offset
      {
        var _ := Advance();
      }
      text := input[begin..offset];
    }

    /** A run of digits and underscores, and the number of digits in it. */
    method SkipRun(base: nat) returns (digits: nat)
      requires Valid()
      modifies this`offset, this`line, this`column
      ensures Valid()
      ensures offset == old(offset) + Run(old(Left()), base)
      ensures var s := old(Left()); Left() == s[Run(s, base)..] && digits == |Clean(s[..Run(s, base)])|
    {
      hide Position, InBase;
      var begin := offset;
      ghost var s := Left();
      ghost var n := Run(s, base);
      digits := 0;
      assert input[begin..begin] == "";
      while offset < |input| && (InBase(input[offset], base) || input[offset] == '_')
        invariant Valid() && begin <= offset && offset + Run(Left(), base) == begin + n
        invariant digits == |Clean(input[begin..offset])|
        decreases |input| - offset
      {
        CleanSnoc(input[begin..offset], input[offset]);
        assert input[begin..offset] + [input[offset]] == input[begin..offset + 1];
        if input[offset] != '_' {
          digits := digits + 1;
        }
        var _ := Advance();
      }
      assert input[begin..offset] == s[..n];
    }

    method ScanNumber() returns (t: Token)
      requires Valid() && IsNumberStart(Left())
      modifies this`offset, this`line, this`column, this`diags
      ensures Valid()
      ensures var l := Number(h, old(Left()));
        t == l.token && offset == old(offset) + l.size && diags == old(diags) + l.reports
    {
      hide Position, Run, Clean, FloatLiteral, Integer, DecimalLengths;
      ghost var s := Left();
      var begin := offset;
      var sign := SignLength(Left());
      Skip(sign);
      var base := if Peek(Left(), 0) == '0' then BaseOf(Peek(Left(), 1)) else 0;
      assert Peek(Left(), 0) == Peek(s, sign) && Peek(Left(), 1) == Peek(s, sign + 1);
      if base != 0 {
        t := ScanPrefixed(begin, base);
        assert input[begin + sign + 2..] == s[sign + 2..];
        ghost var end := sign + 2 + Run(s[sign + 2..], base);
        assert input[begin..begin + end] == s[..end] && input[begin + sign + 2..begin + end] == s[sign + 2..end];
      } else {
        var point := SkipDecimal(begin);
        var raw := input[begin..offset];
        assert raw == s[..DecimalLengths(s).1];
        if point {
          t := Finish(FloatLiteral(h, raw));
        } else {
          t := Finish(Integer(raw, 10));
        }
      }
    }

    /** An integer with a base prefix; its text starts at `begin`. */
    method ScanPrefixed(begin: nat, base: nat) returns (t: Token)
      requires Valid() && begin <= offset && offset + 2 <= |input|
      modifies this`offset, this`line, this`column, this`diags
      ensures Valid()
      ensures var end := old(offset) + 2 + Run(input[old(offset) + 2..], base);
        var l := if Clean(input[old(offset) + 2..end]) == "" then Bad(end - begin) else Integer(input[begin..end], 0);
        offset == end && t == l.token && diags == old(diags) + l.reports
    {
      hide Position, Run, Clean, Integer;
      Skip(2);
      ghost var start := offset;
      var digits := SkipRun(base);
      assert input[start..][..offset - start] == input[start..offset];
      if digits == 0 {
        Report();
        return Invalid;
      }
      t := Finish(Integer(input[begin..offset], 0));
    }

    /** The token of a literal that has been read, with its report. */
    method Finish(l: Lexed) returns (t: Token)
      requires l.reports == [] || l.reports == [SYNTAX]
      modifies this`diags
      ensures t == l.token && diags == old(diags) + l.reports
    {
      if l.reports != [] {
        Report();
      }
      t := l.token;
    }

    /** After the sign: digits, fraction and exponent; whether one of the latter two is there. */
    method SkipDecimal(ghost begin: nat) returns (float: bool)
      requires Valid() && begin <= offset && offset == begin + SignLength(input[begin..])
      modifies this`offset, this`line, this`column
      ensures Valid()
      ensures var lengths := DecimalLengths(input[begin..]);
        offset == begin + lengths.1 && float == (lengths.0 < lengths.1)
    {
      hide Position, Run, FractionLength, ExponentLength;
      ghost var s := input[begin..];
      var _ := SkipRun(10);
      assert Left() == s[offset - begin..];
      var fraction := SkipFraction();
      assert Left() == s[offset - begin..];
      var exponent := SkipExponent();
      float := fraction || exponent;
    }

    method SkipFraction() returns (found: bool)
      requires Valid()
      modifies this`offset, this`line, this`column
      ensures Valid() && offset == old(offset) + FractionLength(old(Left())) && found == (FractionLength(old(Left())) > 0)
    {
      hide Position, Run;
      found := Peek(Left(), 0) == '.';
      if found {
        Skip(1);
        var _ := SkipRun(10);
      }
    }

    method SkipExponent() returns (found: bool)
      requires Valid()
      modifies this`offset, this`line, this`column
      ensures Valid() && offset == old(offset) + ExponentLength(old(Left())) && found == (ExponentLength(old(Left())) > 0)
    {
      hide Position, Run;
      found := Peek(Left(), 0) == 'e' || Peek(Left(), 0) == 'E';
      if found {
        ghost var s := Left();
        Skip(1);
        var sign := SignLength(Left());
        Skip(sign);
        assert Left() == s[1 + sign..];
        var _ := SkipRun(10);
      }
    }

    /** A token that starts right here, and is not punctuation. */
    method ScanStarting() returns (t: Token)
      requires Valid() && offset < |input|
      modifies this`offset, this`line, this`column, this`diags
      ensures Valid()
      ensures var l := Starting(h, old(Left()));
        t == l.token && offset == old(offset) + l.size && diags == old(diags) + l.reports
    {
      hide Position, Quoted, Hash, Number;
      if input[offset] == '\"' {
        t := ScanQuotedString();
      } else if input[offset] == '#' {
        t := ScanHashToken();
      } else if IsNumberStart(Left()) {
        t := ScanNumber();
      } else if IsIdentifierStart(input[offset]) {
        t := ScanIdentifier();
      } else {
        Skip(1);
        Report();
        t := Invalid;
      }
    }

    /** One blank or comment, when there is one. */
    method SkipIgnored() returns (found: bool)
      requires Valid() && offset < |input|
      modifies this`offset, this`line, this`column, this`diags
      ensures Valid()
      ensures var r := Ignored(old(Left()));
        found == (r.0 > 0) && offset == old(offset) + r.0 && diags == old(diags) + r.1
    {
      hide Position, BlockLength, LineLength;
      var c := input[offset];
      if IsBlank(c) {
        Skip(1);
        return true;
      } else if c == '/' && Peek(Left(), 1) == '/' {
        SkipLineComment();
        return true;
      } else if c == '/' && Peek(Left(), 1) == '*' {
        SkipBlockComment();
        return true;
      }
      return false;
    }

    method ScanHere() returns (t: Token)
      requires Valid() && offset < |input|
      modifies this`offset, this`line, this`column, this`diags
      ensures Valid()
      ensures var l := Here(h, old(Left()));
        t == l.token && offset == old(offset) + l.size && diags == old(diags) + l.reports
    {
      hide Position, Starting, Punctuation;
      var c := input[offset];
      if Punctuation(c).Some? {
        Skip(1);
        return Punctuation(c).value;
      } else if c == '/' && Peek(Left(), 1) == '-' {
        Skip(2);
        return Slashdash;
      }
      t := ScanStarting();
    }

    /** The next token, past blanks and comments. */
    method NextToken() returns (t: Token)
      requires Valid()
      modifies this`offset, this`line, this`column, this`diags
      ensures Valid()
      ensures var l := Next(h, old(Left()));
        t == l.token && offset == old(offset) + l.size && diags == old(diags) + l.reports
    {
      hide Position, Here, Ignored;
      ghost var whole := Next(h, Left());
      ghost var start := offset;
      while offset < |input|
        invariant Valid() && start <= offset
        invariant var l := Next(h, Left());
          l.token == whole.token && offset + l.size == start + whole.size && diags + l.reports == old(diags) + whole.reports
        decreases |input| - offset
      {
        var found := SkipIgnored();
        if !found {
          t := ScanHere();
          return;
        }
      }
      return EOF;
    }
  }

  lemma {:induction false} CleanSnoc(s: string, c: char)
    ensures Clean(s + [c]) == Clean(s) + if c == '_' then "" else [c]
  {
    if s == "" {
      assert s + [c] == [c] && [c][1..] == "";
    } else {
      assert (s + [c])[1..] == s[1..] + [c];
      CleanSnoc(s[1..], c);
    }
  }

  lemma {:induction false} CloserFits(s: string, quotes: nat, hashes: nat)
    requires Closes(s, quotes, hashes)
    ensures quotes + hashes <= |s|
  {}
}
