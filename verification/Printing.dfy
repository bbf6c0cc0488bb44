/** The text of a KDL tree as the writer lays it out, and that the lexer and the parser read it back. */
module Printing {
  import opened Options
  import opened Text
  import opened Floats
  import opened Lexing
  import opened Parsing
  import V = Values
  import K = KDLTree

  // ---------- values ----------

  /** What writeQuotedString makes of one character. */
  function EscapeChar(c: char): string {
    if c == '\"' then "\\\""
    else if c == '\\' then "\\\\"
    else if c == '\U{0008}' then "\\b"
    else if c == '\U{000c}' then "\\f"
    else if c == '\n' then "\\n"
    else if c == '\r' then "\\r"
    else if c == '\t' then "\\t"
    else if c < ' ' || c == '\U{007f}' then "\\u{" + HexText(c as int) + "}"
    else [c]
  }

  function EscapeText(s: string): string {
    if s == "" then "" else EscapeChar(s[0]) + EscapeText(s[1..])
  }

  /** formatFloatScalar. */
  function FloatText(h: V.Host, r: real): string {
    var t := h.shortest(false, r);
    if exists i | 0 <= i < |t| :: t[i] == '.' || t[i] == 'e' || t[i] == 'E' then t else t + ".0"
  }

  function ValueText(h: V.Host, v: K.Value): string {
    match v
    case KString(s) => "\"" + EscapeText(s) + "\""
    case KInt(n) => IntText(n)
    case KFloat(r) => FloatText(h, r)
    case KBool(b) => if b then "#true" else "#false"
    case KNull => "#null"
  }

  // ---------- nodes ----------

  function Indent(depth: nat): string {
    if depth == 0 then "" else "  " + Indent(depth - 1)
  }

  function ArgumentsText(h: V.Host, values: seq<K.Value>): string {
    if values == [] then "" else " " + ValueText(h, values[0]) + ArgumentsText(h, values[1..])
  }

  function PropertiesText(h: V.Host, properties: seq<K.Property>): string {
    if properties == [] then "" else
    " " + properties[0].name + "=" + ValueText(h, properties[0].value) + PropertiesText(h, properties[1..])
  }

  function NodeText(h: V.Host, depth: nat, n: K.Node): string
    decreases n, 0
  {
    Indent(depth) + n.name + ArgumentsText(h, n.arguments) + PropertiesText(h, n.properties) +
    if n.children == [] then "\n" else " {\n" + NodesText(h, depth + 1, n.children) + Indent(depth) + "}\n"
  }

  function NodesText(h: V.Host, depth: nat, nodes: seq<K.Node>): string
    decreases nodes, 1
  {
    if nodes == [] then "" else NodeText(h, depth, nodes[0]) + NodesText(h, depth, nodes[1..])
  }

  // ---------- what can be printed ----------

  /** A bare identifier of the lexer. */
  predicate PlainName(name: string) {
    && name != "" && IsIdentifierStart(name[0])
    && (forall i | 0 <= i < |name| :: IsIdentifierContinue(name[i]))
    && !(name[0] == '-' && |name| > 1 && IsDigit(name[1]))
  }

  predicate PrintableValue(h: V.Host, v: K.Value) {
    match v
    case KInt(n) => V.InRange(V.I64, n)
    case KFloat(r) => h.Representable(r)
    case _ => true
  }

  predicate Printable(h: V.Host, n: K.Node) {
    && PlainName(n.name)
    && (forall i | 0 <= i < |n.arguments| :: PrintableValue(h, n.arguments[i]))
    && (forall i | 0 <= i < |n.properties| :: PlainName(n.properties[i].name) && PrintableValue(h, n.properties[i].value))
    && (forall i | 0 <= i < |n.children| :: Printable(h, n.children[i]))
  }

  predicate IsFraction(s: string) {
    s == "" || (|s| > 1 && s[0] == '.' && AllDigits(s[1..]))
  }

  predicate IsExponent(s: string) {
    s == "" || (|s| > 2 && s[0] == 'e' && (s[1] == '+' || s[1] == '-') && AllDigits(s[2..]))
  }

  /** Sign, integer digits, fraction with its point, exponent with its sign. */
  predicate Pieces(t: string, sign: string, integer: string, fraction: string, exponent: string) {
    && t == sign + integer + fraction + exponent
    && (sign == "" || sign == "-") && Plain(integer) && IsFraction(fraction) && IsExponent(exponent)
  }

  /** What is assumed of strconv: a float's shortest text has these pieces, and with a point or an
      exponent in it reads back as that float. */
  ghost predicate FloatsReadBack(h: V.Host) {
    forall r: real | h.Representable(r) ::
      && (exists sign, integer, fraction, exponent :: Pieces(h.shortest(false, r), sign, integer, fraction, exponent))
      && h.parseFloat(false, FloatText(h, r)) == Some(Finite(r))
  }

  // ---------- from text to tokens ----------

  /** In front of `rest`, the text is these tokens, without reports. */
  predicate Lexes(h: V.Host, text: string, tokens: seq<Token>, rest: string) {
    Tokens(h, text + rest) == tokens + Tokens(h, rest) && Reports(h, text + rest) == Reports(h, rest)
  }

  lemma {:induction false} Chain(h: V.Host, a: string, s: seq<Token>, b: string, t: seq<Token>, rest: string)
    requires Lexes(h, a, s, b + rest) && Lexes(h, b, t, rest)
    ensures Lexes(h, a + b, s + t, rest)
  {
    assert (a + b) + rest == a + (b + rest);
  }

  lemma {:induction false} Nothing(h: V.Host, rest: string)
    ensures Lexes(h, "", [], rest)
  {
    assert "" + rest == rest;
  }

  lemma {:induction false} OneToken(h: V.Host, text: string, t: Token, rest: string)
    requires text != "" && !t.EOF? && Next(h, text + rest) == Lexed(t, |text|, [])
    ensures Lexes(h, text, [t], rest)
  {
    assert (text + rest)[|text|..] == rest;
  }

  lemma {:induction false} BlankNext(h: V.Host, rest: string)
    ensures Next(h, " " + rest) == Next(h, rest).After(1)
  {
    hide Here;
    assert (" " + rest)[0] == ' ' && (" " + rest)[1..] == rest;
    assert [] + Next(h, rest).reports == Next(h, rest).reports;
  }

  lemma {:induction false} Blank(h: V.Host, rest: string)
    ensures Lexes(h, " ", [], rest)
  {
    hide Next;
    BlankNext(h, rest);
    var n := Next(h, rest).size;
    assert (" " + rest)[1 + n..] == rest[n..];
    assert [] + Tokens(h, rest) == Tokens(h, rest);
  }

  lemma {:induction false} Mark(h: V.Host, c: char, rest: string)
    requires Punctuation(c).Some?
    ensures Lexes(h, [c], [Punctuation(c).value], rest)
  {
    assert ([c] + rest)[0] == c;
    OneToken(h, [c], Punctuation(c).value, rest);
  }

  lemma {:induction false} Starts(h: V.Host, text: string, rest: string)
    requires text != ""
    requires !IsBlank(text[0]) && Punctuation(text[0]).None? && text[0] != '/'
    ensures Next(h, text + rest) == Starting(h, text + rest)
  {
    assert (text + rest)[0] == text[0];
  }

  lemma {:induction false} WordLengthOf(name: string, rest: string)
    requires forall i | 0 <= i < |name| :: IsIdentifierContinue(name[i])
    requires rest != "" ==> !IsIdentifierContinue(rest[0])
    ensures WordLength(name + rest) == |name|
  {
    hide IsIdentifierContinue;
    if name == "" {
      assert name + rest == rest;
    } else {
      assert (name + rest)[1..] == name[1..] + rest;
      WordLengthOf(name[1..], rest);
    }
  }

  lemma {:induction false} NameLexes(h: V.Host, name: string, rest: string)
    requires PlainName(name) && rest != "" && (rest[0] == ' ' || rest[0] == '=' || rest[0] == '\n')
    ensures Lexes(h, name, [Word(name)], rest)
  {
    hide WordLength;
    var s := name + rest;
    Starts(h, name, rest);
    WordLengthOf(name, rest);
    assert s[..|name|] == name && s[0] == name[0] && Peek(s, 1) == (if |name| > 1 then name[1] else rest[0]);
    OneToken(h, name, Word(name), rest);
  }

  // ---------- quoted strings ----------

  /** A character of the writer is read as itself, whatever follows. */
  lemma {:induction false} CharReadsBack(c: char, rest: string, read: string)
    ensures Quoted(EscapeChar(c) + rest, read) == Quoted(rest, read + [c]).After(|EscapeChar(c)|)
  {
    hide Quoted, HexText;
    var e := EscapeChar(c);
    if e == [c] {
      PlainReadsBack(c, rest, read);
    } else if |e| == 2 {
      LetterReadsBack(c, e[1], rest, read);
      assert e == ['\\', e[1]];
    } else {
      ControlReadsBack(c, rest, read);
    }
  }

  lemma {:induction false} PlainReadsBack(c: char, rest: string, read: string)
    requires c != '\"' && c != '\\' && c != '\n' && c != '\r'
    ensures Quoted([c] + rest, read) == Quoted(rest, read + [c]).After(1)
  {
    assert ([c] + rest)[0] == c && ([c] + rest)[1..] == rest;
  }

  lemma {:induction false} LetterReadsBack(c: char, letter: char, rest: string, read: string)
    requires Escaped(letter) == Some(c)
    ensures Quoted(['\\', letter] + rest, read) == Quoted(rest, read + [c]).After(2)
  {
    hide Escaped;
    var s := ['\\', letter] + rest;
    assert s[0] == '\\' && s[1..] != "" && s[1..][0] == letter && s[2..] == rest;
    assert Escape(s[1..]) == (Some(c), 1);
  }

  lemma {:induction false} ControlReadsBack(c: char, rest: string, read: string)
    requires (c as int) < 0xD800
    ensures var e := "\\u{" + HexText(c as int) + "}"; Quoted(e + rest, read) == Quoted(rest, read + [c]).After(|e|)
  {
    hide HexText, ParseSigned;
    var hex := HexText(c as int);
    var s := "\\u{" + hex + "}" + rest;
    assert s == "\\u{" + (hex + ("}" + rest)) && s[1..] == "u{" + (hex + ("}" + rest));
    HexReadsBack(c as int);
    ParseSignedHexText(c as int);
    BraceLengthOf(hex, rest);
    var t := s[1..];
    assert t[2..] == hex + ("}" + rest) && t[2..2 + |hex|] == hex;
    assert Escape(t) == (Some(c), 3 + |hex|);
    assert s[1 + (3 + |hex|)..] == rest;
  }

  lemma {:induction false} BraceLengthOf(text: string, rest: string)
    requires forall i | 0 <= i < |text| :: text[i] != '}'
    ensures BraceLength(text + ("}" + rest)) == |text|
  {
    if text == "" {
      assert text + ("}" + rest) == "}" + rest;
    } else {
      assert (text + ("}" + rest))[1..] == text[1..] + ("}" + rest);
      BraceLengthOf(text[1..], rest);
    }
  }

  lemma {:induction false} TextReadsBack(s: string, rest: string, read: string)
    ensures Quoted(EscapeText(s) + ("\"" + rest), read) == Lexed(TString(read + s), |EscapeText(s)| + 1, [])
    decreases |s|
  {
    hide EscapeChar;
    if s == "" {
      assert EscapeText(s) + ("\"" + rest) == "\"" + rest;
      assert read + s == read;
    } else {
      var more := EscapeText(s[1..]) + ("\"" + rest);
      assert EscapeText(s) + ("\"" + rest) == EscapeChar(s[0]) + more;
      CharReadsBack(s[0], more, read);
      TextReadsBack(s[1..], rest, read + [s[0]]);
      assert read + [s[0]] + s[1..] == read + s;
    }
  }

  /** Every string is one token, whatever characters are in it. */
  lemma {:induction false} StringLexes(h: V.Host, s: string, rest: string)
    ensures Lexes(h, "\"" + EscapeText(s) + "\"", [TString(s)], rest)
  {
    hide EscapeText, Quoted;
    var text := "\"" + EscapeText(s) + "\"";
    Starts(h, text, rest);
    TextReadsBack(s, rest, "");
    assert (text + rest)[0] == '\"' && (text + rest)[1..] == EscapeText(s) + ("\"" + rest);
    assert "" + s == s;
    OneToken(h, text, TString(s), rest);
  }

  // ---------- numbers ----------

  /** What may follow a value. */
  predicate Delimits(rest: string) {
    rest != "" && (rest[0] == ' ' || rest[0] == '\n')
  }

  lemma {:induction false} RunOf(digits: string, rest: string)
    requires AllDigits(digits) && (rest != "" ==> !IsDigit(rest[0]) && rest[0] != '_')
    ensures Run(digits + rest, 10) == |digits|
  {
    if digits == "" {
      assert digits + rest == rest;
    } else {
      assert (digits + rest)[1..] == digits[1..] + rest;
      RunOf(digits[1..], rest);
    }
  }

  lemma {:induction false} CleanOf(s: string)
    requires '_' !in s
    ensures Clean(s) == s
  {
    if s != "" {
      CleanOf(s[1..]);
      assert s == [s[0]] + s[1..];
    }
  }

  lemma {:induction false} FractionLengthOf(fraction: string, rest: string)
    requires IsFraction(fraction)
    requires rest != "" && !IsDigit(rest[0]) && rest[0] != '_' && rest[0] != '.'
    ensures FractionLength(fraction + rest) == |fraction|
  {
    if fraction == "" {
      assert fraction + rest == rest;
    } else {
      assert (fraction + rest)[1..] == fraction[1..] + rest;
      RunOf(fraction[1..], rest);
    }
  }

  lemma {:induction false} ExponentLengthOf(exponent: string, rest: string)
    requires IsExponent(exponent)
    requires Delimits(rest)
    ensures ExponentLength(exponent + rest) == |exponent|
  {
    if exponent == "" {
      assert exponent + rest == rest;
    } else {
      var s := exponent + rest;
      assert s[1..][0] == exponent[1] && s[2..] == exponent[2..] + rest;
      RunOf(exponent[2..], rest);
    }
  }

  lemma {:induction false} PieceLengths(t: string, sign: string, integer: string, fraction: string, exponent: string, rest: string)
    requires Pieces(t, sign, integer, fraction, exponent) && Delimits(rest)
    ensures DecimalLengths(t + rest) == (|sign| + |integer|, |t|)
  {
    hide DecimalLengths;
    assert t + rest == sign + (integer + (fraction + (exponent + rest)));
    PieceLengthsFrom(sign, integer, fraction, exponent, rest);
  }

  lemma {:induction false} PieceLengthsFrom(sign: string, integer: string, fraction: string, exponent: string, rest: string)
    requires (sign == "" || sign == "-") && Plain(integer) && IsFraction(fraction) && IsExponent(exponent) && Delimits(rest)
    ensures var i := |sign| + |integer|;
      DecimalLengths(sign + (integer + (fraction + (exponent + rest)))) == (i, i + |fraction| + |exponent|)
  {
    hide Run, FractionLength, ExponentLength, DecimalLengths;
    var tail := exponent + rest;
    var more := fraction + tail;
    assert tail[0] == (if exponent == "" then rest[0] else 'e') && more[0] == (if fraction == "" then tail[0] else '.');
    FractionLengthOf(fraction, tail);
    ExponentLengthOf(exponent, rest);
    RunOf(integer, more);
    assert (integer + more)[0] == integer[0];
    LengthsOf(sign, integer, fraction, tail, |exponent|);
  }

  lemma {:induction false} LengthsOf(sign: string, integer: string, fraction: string, tail: string, exponent: nat)
    requires (sign == "" || sign == "-") && integer != "" && IsDigit(integer[0])
    requires Run(integer + (fraction + tail), 10) == |integer|
    requires FractionLength(fraction + tail) == |fraction| && ExponentLength(tail) == exponent
    ensures var i := |sign| + |integer|; DecimalLengths(sign + (integer + (fraction + tail))) == (i, i + |fraction| + exponent)
  {
    hide Run, FractionLength, ExponentLength;
    var s := sign + (integer + (fraction + tail));
    assert s[0] == (if sign == "" then integer[0] else '-');
    assert SignLength(s) == |sign|;
    assert s[|sign|..] == integer + (fraction + tail);
    assert s[|sign| + |integer|..] == fraction + tail;
    assert s[|sign| + |integer| + |fraction|..] == tail;
  }

  lemma {:induction false} PiecesStart(t: string, sign: string, integer: string, fraction: string, exponent: string, rest: string)
    requires Pieces(t, sign, integer, fraction, exponent) && Delimits(rest)
    ensures t != "" && IsNumberStart(t + rest) && !IsBlank(t[0]) && Punctuation(t[0]).None? && t[0] != '/' && t[0] != '\"' && t[0] != '#'
    ensures var sign := SignLength(t + rest); Peek(t + rest, sign) == '0' ==> BaseOf(Peek(t + rest, sign + 1)) == 0
    ensures '_' !in t
  {
    var s := t + rest;
    var n := |sign|;
    assert s[n] == integer[0];
    assert s[0] == t[0] == (if sign == "" then integer[0] else '-');
    if |integer| == 1 {
      var more := fraction + exponent + rest;
      assert s[n + 1] == more[0];
    }
    assert forall c | c in integer :: c != '_';
    assert forall c | c in fraction :: c != '_' by { forall i | 0 <= i < |fraction| ensures fraction[i] != '_' { if i > 0 { assert fraction[i] == fraction[1..][i - 1]; } } }
    assert forall c | c in exponent :: c != '_' by { forall i | 0 <= i < |exponent| ensures exponent[i] != '_' { if i > 1 { assert exponent[i] == exponent[2..][i - 2]; } } }
  }

  lemma {:induction false} IntLexes(h: V.Host, n: int, rest: string)
    requires V.InRange(V.I64, n) && Delimits(rest)
    ensures Lexes(h, IntText(n), [TInt(n)], rest)
  {
    hide NatText, DecimalLengths, ParseSigned, Clean;
    var m := if n < 0 then -n else n;
    var sign := if n < 0 then "-" else "";
    var t := IntText(n);
    assert Pieces(t, sign, NatText(m), "", "");
    PieceLengths(t, sign, NatText(m), "", "", rest);
    PiecesStart(t, sign, NatText(m), "", "", rest);
    Starts(h, t, rest);
    CleanOf(t);
    ParseSignedIntText(n);
    assert (t + rest)[0] == t[0] && (t + rest)[..|t|] == t;
    assert |sign| + |NatText(m)| == |t|;
    OneToken(h, t, TInt(n), rest);
  }

  lemma {:induction false} FloatPieces(h: V.Host, r: real) returns (sign: string, integer: string, fraction: string, exponent: string)
    requires FloatsReadBack(h) && h.Representable(r)
    ensures Pieces(FloatText(h, r), sign, integer, fraction, exponent) && (fraction != "" || exponent != "")
  {
    var t := h.shortest(false, r);
    sign, integer, fraction, exponent :| Pieces(t, sign, integer, fraction, exponent);
    if fraction == "" && exponent == "" {
      NoPoint(sign, integer);
      assert t == sign + integer;
      fraction := ".0";
      assert FloatText(h, r) == sign + integer + fraction + exponent;
    } else {
      HasPoint(t, sign, integer, fraction, exponent);
    }
  }

  lemma {:induction false} NoPoint(sign: string, integer: string)
    requires (sign == "" || sign == "-") && AllDigits(integer)
    ensures var t := sign + integer; forall i | 0 <= i < |t| :: t[i] != '.' && t[i] != 'e' && t[i] != 'E'
  {}

  lemma {:induction false} HasPoint(t: string, sign: string, integer: string, fraction: string, exponent: string)
    requires Pieces(t, sign, integer, fraction, exponent) && (fraction != "" || exponent != "")
    ensures exists i | 0 <= i < |t| :: t[i] == '.' || t[i] == 'e' || t[i] == 'E'
  {
    var i := |sign| + |integer|;
    assert t[i..] == fraction + exponent;
    assert t[i] == (fraction + exponent)[0];
  }

  lemma {:induction false} FloatLexes(h: V.Host, r: real, rest: string)
    requires FloatsReadBack(h) && h.Representable(r) && Delimits(rest)
    ensures Lexes(h, FloatText(h, r), [TFloat(r)], rest)
  {
    hide DecimalLengths, FloatText, Clean, Delimits;
    var t := FloatText(h, r);
    var sign, integer, fraction, exponent := FloatPieces(h, r);
    PieceLengths(t, sign, integer, fraction, exponent, rest);
    PiecesStart(t, sign, integer, fraction, exponent, rest);
    Starts(h, t, rest);
    CleanOf(t);
    assert (t + rest)[0] == t[0] && (t + rest)[..|t|] == t;
    assert |sign| + |integer| < |t|;
    FloatTokenOf(h, r, t, rest);
    OneToken(h, t, TFloat(r), rest);
  }

  lemma {:induction false} FloatTokenOf(h: V.Host, r: real, t: string, rest: string)
    requires t != "" && t == FloatText(h, r) && h.parseFloat(false, t) == Some(Finite(r)) && Clean(t) == t
    requires IsNumberStart(t + rest) && t[0] != '\"' && t[0] != '#'
    requires var sign := SignLength(t + rest); Peek(t + rest, sign) == '0' ==> BaseOf(Peek(t + rest, sign + 1)) == 0
    requires DecimalLengths(t + rest).0 < DecimalLengths(t + rest).1 == |t|
    ensures Starting(h, t + rest) == Lexed(TFloat(r), |t|, [])
  {
    hide DecimalLengths, FloatText, Clean;
    assert (t + rest)[0] == t[0] && (t + rest)[..|t|] == t;
  }

  lemma {:induction false} KeywordLexes(h: V.Host, word: string, t: Token, rest: string)
    requires Delimits(rest)
    requires (word == "#true" && t == TBool(true)) || (word == "#false" && t == TBool(false)) || (word == "#null" && t == TNull)
    ensures Lexes(h, word, [t], rest)
  {
    hide Raw;
    var s := word + rest;
    Starts(h, word, rest);
    assert s[..|word|] == word && s[0] == '#' && s[1] == word[1] && Peek(s, |word|) == rest[0];
    OneToken(h, word, t, rest);
  }

  function ValueToken(v: K.Value): (t: Token)
    ensures ValueOf(t) == Some(v) && !t.EOF?
  {
    match v
    case KString(s) => TString(s)
    case KInt(n) => TInt(n)
    case KFloat(r) => TFloat(r)
    case KBool(b) => TBool(b)
    case KNull => TNull
  }

  lemma {:induction false} ValueLexes(h: V.Host, v: K.Value, rest: string)
    requires FloatsReadBack(h) && PrintableValue(h, v) && Delimits(rest)
    ensures Lexes(h, ValueText(h, v), [ValueToken(v)], rest)
  {
    hide Lexes, FloatText, FloatsReadBack, EscapeText, IntText;
    match v {
      case KString(s) => StringLexes(h, s, rest);
      case KInt(n) => IntLexes(h, n, rest);
      case KFloat(r) => FloatLexes(h, r, rest);
      case KBool(b) => KeywordLexes(h, if b then "#true" else "#false", TBool(b), rest);
      case KNull => KeywordLexes(h, "#null", TNull, rest);
    }
  }

  // ---------- the tokens of a tree ----------

  function ArgumentTokens(values: seq<K.Value>): seq<Token> {
    if values == [] then [] else [ValueToken(values[0])] + ArgumentTokens(values[1..])
  }

  function PropertyTokens(properties: seq<K.Property>): seq<Token> {
    if properties == [] then [] else
    [Word(properties[0].name), Equals, ValueToken(properties[0].value)] + PropertyTokens(properties[1..])
  }

  function NodeTokens(n: K.Node): seq<Token>
    decreases n, 0
  {
    [Word(n.name)] + ArgumentTokens(n.arguments) + PropertyTokens(n.properties) +
    if n.children == [] then [Newline] else [LBrace, Newline] + NodesTokens(n.children) + [RBrace, Newline]
  }

  function NodesTokens(nodes: seq<K.Node>): seq<Token>
    decreases nodes, 1
  {
    if nodes == [] then [] else NodeTokens(nodes[0]) + NodesTokens(nodes[1..])
  }

  lemma {:induction false} IndentLexes(h: V.Host, depth: nat, rest: string)
    ensures Lexes(h, Indent(depth), [], rest)
  {
    hide Lexes;
    if depth == 0 {
      Nothing(h, rest);
    } else {
      IndentLexes(h, depth - 1, rest);
      Blank(h, Indent(depth - 1) + rest);
      Chain(h, " ", [], Indent(depth - 1), [], rest);
      var half := " " + Indent(depth - 1);
      Blank(h, half + rest);
      Chain(h, " ", [], half, [], rest);
      assert " " + half == "  " + Indent(depth - 1);
    }
  }

  lemma {:induction false} ArgumentsLex(h: V.Host, values: seq<K.Value>, rest: string)
    requires FloatsReadBack(h) && Delimits(rest) && forall i | 0 <= i < |values| :: PrintableValue(h, values[i])
    ensures Lexes(h, ArgumentsText(h, values), ArgumentTokens(values), rest)
    ensures Delimits(ArgumentsText(h, values) + rest)
  {
    hide Lexes, FloatsReadBack, PrintableValue, ValueText, ValueToken;
    if values == [] {
      Nothing(h, rest);
      assert ArgumentsText(h, values) + rest == rest;
    } else {
      var more := ArgumentsText(h, values[1..]);
      ArgumentsLex(h, values[1..], rest);
      var text := ValueText(h, values[0]);
      ValueLexes(h, values[0], more + rest);
      Blank(h, text + (more + rest));
      Chain(h, " ", [], text, [ValueToken(values[0])], more + rest);
      Chain(h, " " + text, [] + [ValueToken(values[0])], more, ArgumentTokens(values[1..]), rest);
      assert [] + [ValueToken(values[0])] == [ValueToken(values[0])];
    }
  }

  lemma {:induction false} PropertiesLex(h: V.Host, properties: seq<K.Property>, rest: string)
    requires FloatsReadBack(h) && Delimits(rest)
    requires forall i | 0 <= i < |properties| :: PlainName(properties[i].name) && PrintableValue(h, properties[i].value)
    ensures Lexes(h, PropertiesText(h, properties), PropertyTokens(properties), rest)
    ensures Delimits(PropertiesText(h, properties) + rest)
  {
    hide Lexes, FloatsReadBack, PrintableValue, ValueText, ValueToken, PlainName;
    if properties == [] {
      Nothing(h, rest);
      assert PropertiesText(h, properties) + rest == rest;
    } else {
      var p, more := properties[0], PropertiesText(h, properties[1..]);
      PropertiesLex(h, properties[1..], rest);
      PropertyLexes(h, p, more + rest);
      var text := " " + p.name + "=" + ValueText(h, p.value);
      Chain(h, text, [Word(p.name), Equals, ValueToken(p.value)], more, PropertyTokens(properties[1..]), rest);
    }
  }

  lemma {:induction false} PropertyLexes(h: V.Host, p: K.Property, rest: string)
    requires FloatsReadBack(h) && Delimits(rest) && PlainName(p.name) && PrintableValue(h, p.value)
    ensures Lexes(h, " " + p.name + "=" + ValueText(h, p.value), [Word(p.name), Equals, ValueToken(p.value)], rest)
  {
    hide Lexes, FloatsReadBack, PrintableValue, ValueText, ValueToken, PlainName;
    var text := ValueText(h, p.value);
    ValueLexes(h, p.value, rest);
    Mark(h, '=', text + rest);
    Chain(h, "=", [Equals], text, [ValueToken(p.value)], rest);
    assert ("=" + text + rest)[0] == '=';
    NameLexes(h, p.name, "=" + text + rest);
    Chain(h, p.name, [Word(p.name)], "=" + text, [Equals] + [ValueToken(p.value)], rest);
    var all := p.name + ("=" + text);
    Blank(h, all + rest);
    Chain(h, " ", [], all, [Word(p.name)] + ([Equals] + [ValueToken(p.value)]), rest);
    assert " " + all == " " + p.name + "=" + text;
    assert [] + ([Word(p.name)] + ([Equals] + [ValueToken(p.value)])) == [Word(p.name), Equals, ValueToken(p.value)];
  }

  function HeadText(h: V.Host, n: K.Node): string {
    n.name + ArgumentsText(h, n.arguments) + PropertiesText(h, n.properties)
  }

  function HeadTokens(n: K.Node): seq<Token> {
    [Word(n.name)] + ArgumentTokens(n.arguments) + PropertyTokens(n.properties)
  }

  lemma {:induction false} HeadLexes(h: V.Host, n: K.Node, rest: string)
    requires FloatsReadBack(h) && Printable(h, n) && Delimits(rest)
    ensures Lexes(h, HeadText(h, n), HeadTokens(n), rest)
  {
    hide Lexes, FloatsReadBack, PrintableValue, PlainName, ArgumentsText, PropertiesText, ArgumentTokens, PropertyTokens;
    var a, p := ArgumentsText(h, n.arguments), PropertiesText(h, n.properties);
    PropertiesLex(h, n.properties, rest);
    ArgumentsLex(h, n.arguments, p + rest);
    assert Delimits(a + (p + rest));
    NameLexes(h, n.name, a + (p + rest));
    Chain(h, n.name, [Word(n.name)], a, ArgumentTokens(n.arguments), p + rest);
    Chain(h, n.name + a, [Word(n.name)] + ArgumentTokens(n.arguments), p, PropertyTokens(n.properties), rest);
  }

  lemma {:induction false} NodeLexes(h: V.Host, depth: nat, n: K.Node, rest: string)
    requires FloatsReadBack(h) && Printable(h, n)
    ensures Lexes(h, NodeText(h, depth, n), NodeTokens(n), rest)
    decreases n, 1
  {
    hide Lexes, FloatsReadBack, HeadText, HeadTokens, Indent, TailText, TailTokens, Printable, NodeText, NodeTokens, Delimits;
    var indent, head, tail := Indent(depth), HeadText(h, n), TailText(h, depth, n);
    NodeTextParts(h, depth, n);
    NodeTokensParts(n);
    TailLexes(h, depth, n, rest);
    HeadLexes(h, n, tail + rest);
    Chain(h, head, HeadTokens(n), tail, TailTokens(n), rest);
    IndentLexes(h, depth, (head + tail) + rest);
    Chain(h, indent, [], head + tail, HeadTokens(n) + TailTokens(n), rest);
    assert indent + (head + tail) == indent + head + tail;
    assert [] + (HeadTokens(n) + TailTokens(n)) == HeadTokens(n) + TailTokens(n);
  }

  function TailText(h: V.Host, depth: nat, n: K.Node): string {
    if n.children == [] then "\n" else " {\n" + NodesText(h, depth + 1, n.children) + Indent(depth) + "}\n"
  }

  function TailTokens(n: K.Node): seq<Token> {
    if n.children == [] then [Newline] else [LBrace, Newline] + NodesTokens(n.children) + [RBrace, Newline]
  }

  lemma {:induction false} NodeTextParts(h: V.Host, depth: nat, n: K.Node)
    ensures NodeText(h, depth, n) == Indent(depth) + HeadText(h, n) + TailText(h, depth, n)
  {
    hide Indent, NodesText, ArgumentsText, PropertiesText;
    assert Indent(depth) + n.name + ArgumentsText(h, n.arguments) + PropertiesText(h, n.properties) == Indent(depth) + HeadText(h, n);
  }

  lemma {:induction false} NodeTokensParts(n: K.Node)
    ensures NodeTokens(n) == HeadTokens(n) + TailTokens(n)
  {
    hide NodesTokens, ArgumentTokens, PropertyTokens;
  }

  lemma {:induction false} TailLexes(h: V.Host, depth: nat, n: K.Node, rest: string)
    requires FloatsReadBack(h) && Printable(h, n)
    ensures Lexes(h, TailText(h, depth, n), TailTokens(n), rest)
    ensures Delimits(TailText(h, depth, n) + rest)
    decreases n, 0
  {
    hide Lexes, FloatsReadBack, Indent, NodesText, NodesTokens, PrintableValue, PlainName;
    if n.children == [] {
      Mark(h, '\n', rest);
    } else {
      var body, indent := NodesText(h, depth + 1, n.children), Indent(depth);
      var close := indent + "}\n";
      ClosingLexes(h, depth, rest);
      forall i | 0 <= i < |n.children| ensures Printable(h, n.children[i]) {}
      NodesLex(h, depth + 1, n.children, close + rest);
      Chain(h, body, NodesTokens(n.children), close, [RBrace, Newline], rest);
      OpeningLexes(h, (body + close) + rest);
      Chain(h, " {\n", [LBrace, Newline], body + close, NodesTokens(n.children) + [RBrace, Newline], rest);
      assert TailText(h, depth, n) == " {\n" + (body + close);
      assert TailTokens(n) == [LBrace, Newline] + (NodesTokens(n.children) + [RBrace, Newline]);
    }
  }

  lemma {:induction false} OpeningLexes(h: V.Host, rest: string)
    ensures Lexes(h, " {\n", [LBrace, Newline], rest)
  {
    hide Lexes;
    Mark(h, '\n', rest);
    Mark(h, '{', "\n" + rest);
    Chain(h, "{", [LBrace], "\n", [Newline], rest);
    Blank(h, "{" + "\n" + rest);
    Chain(h, " ", [], "{" + "\n", [LBrace] + [Newline], rest);
    assert " " + ("{" + "\n") == " {\n" && [] + ([LBrace] + [Newline]) == [LBrace, Newline];
  }

  lemma {:induction false} ClosingLexes(h: V.Host, depth: nat, rest: string)
    ensures Lexes(h, Indent(depth) + "}\n", [RBrace, Newline], rest)
  {
    hide Lexes, Indent;
    Mark(h, '\n', rest);
    Mark(h, '}', "\n" + rest);
    Chain(h, "}", [RBrace], "\n", [Newline], rest);
    assert "}" + "\n" == "}\n" && [RBrace] + [Newline] == [RBrace, Newline];
    IndentLexes(h, depth, "}\n" + rest);
    Chain(h, Indent(depth), [], "}\n", [RBrace, Newline], rest);
    assert [] + [RBrace, Newline] == [RBrace, Newline];
  }

  /** The lexer reads the text of a tree as the tokens of the tree. */
  lemma {:induction false} NodesLex(h: V.Host, depth: nat, nodes: seq<K.Node>, rest: string)
    requires FloatsReadBack(h) && forall i | 0 <= i < |nodes| :: Printable(h, nodes[i])
    ensures Lexes(h, NodesText(h, depth, nodes), NodesTokens(nodes), rest)
    decreases nodes, 1
  {
    hide Lexes, FloatsReadBack, NodeText, NodeTokens, Printable;
    if nodes == [] {
      Nothing(h, rest);
    } else {
      var more := NodesText(h, depth, nodes[1..]);
      NodesLex(h, depth, nodes[1..], rest);
      NodeLexes(h, depth, nodes[0], more + rest);
      Chain(h, NodeText(h, depth, nodes[0]), NodeTokens(nodes[0]), more, NodesTokens(nodes[1..]), rest);
    }
  }

  // ---------- from tokens to the tree ----------

  /** These tokens stand at position k. */
  predicate Stands(ts: seq<Token>, k: nat, tokens: seq<Token>) {
    k + |tokens| <= |ts| && ts[k..k + |tokens|] == tokens
  }

  lemma {:induction false} StandsSplit(ts: seq<Token>, k: nat, a: seq<Token>, b: seq<Token>)
    requires Stands(ts, k, a + b)
    ensures Stands(ts, k, a) && Stands(ts, k + |a|, b)
  {
    assert ts[k..k + |a|] == ts[k..k + |a + b|][..|a|];
    assert ts[k + |a|..k + |a| + |b|] == ts[k..k + |a + b|][|a|..];
  }

  lemma {:induction false} StandsAt(ts: seq<Token>, k: nat, tokens: seq<Token>, i: nat)
    requires Stands(ts, k, tokens) && i < |tokens|
    ensures At(ts, k + i) == tokens[i] && k + i < |ts|
  {
    assert ts[k..k + |tokens|][i] == ts[k + i];
  }

  lemma {:induction false} ArgumentsParse(ts: seq<Token>, k: nat, values: seq<K.Value>, n: K.Node)
    requires Stands(ts, k, ArgumentTokens(values)) && !At(ts, k + |ArgumentTokens(values)|).Equals?
    ensures |ArgumentTokens(values)| == |values|
    ensures EntriesAt(ts, k, n) == EntriesAt(ts, k + |values|, n.(arguments := n.arguments + values))
    decreases |values|
  {
    hide ValueToken, ValueOf;
    if values == [] {
      assert n.arguments + values == n.arguments;
    } else {
      var first, rest := ValueToken(values[0]), values[1..];
      StandsAt(ts, k, ArgumentTokens(values), 0);
      StandsSplit(ts, k, [first], ArgumentTokens(rest));
      assert n.arguments + [values[0]] + rest == n.arguments + values;
      EntryIsArgument(ts, k, values[0], n);
      ArgumentsParse(ts, k + 1, rest, n.(arguments := n.arguments + [values[0]]));
    }
  }

  lemma {:induction false} EntryIsArgument(ts: seq<Token>, k: nat, v: K.Value, n: K.Node)
    requires k < |ts| && ts[k] == ValueToken(v)
    ensures EntriesAt(ts, k, n) == EntriesAt(ts, k + 1, n.(arguments := n.arguments + [v]))
  {
    assert EntryAt(ts, k, n) == Parsed(n.(arguments := n.arguments + [v]), k + 1, []);
    var rest := EntriesAt(ts, k + 1, n.(arguments := n.arguments + [v]));
    assert [] + rest.reports == rest.reports;
  }

  lemma {:induction false} EntryIsProperty(ts: seq<Token>, k: nat, p: K.Property, n: K.Node)
    requires Stands(ts, k, [Word(p.name), Equals, ValueToken(p.value)])
    ensures EntriesAt(ts, k, n) == EntriesAt(ts, k + 3, n.(properties := n.properties + [p]))
  {
    hide ValueToken;
    var tokens := [Word(p.name), Equals, ValueToken(p.value)];
    StandsAt(ts, k, tokens, 0);
    StandsAt(ts, k, tokens, 1);
    StandsAt(ts, k, tokens, 2);
    assert EntryAt(ts, k, n) == Parsed(n.(properties := n.properties + [p]), k + 3, []);
    var rest := EntriesAt(ts, k + 3, n.(properties := n.properties + [p]));
    assert [] + rest.reports == rest.reports;
  }

  lemma {:induction false} PropertiesParse(ts: seq<Token>, k: nat, properties: seq<K.Property>, n: K.Node)
    requires Stands(ts, k, PropertyTokens(properties))
    ensures EntriesAt(ts, k, n) == EntriesAt(ts, k + |PropertyTokens(properties)|, n.(properties := n.properties + properties))
    decreases |properties|
  {
    hide ValueToken;
    if properties == [] {
      assert n.properties + properties == n.properties;
    } else {
      var p, rest := properties[0], properties[1..];
      StandsSplit(ts, k, [Word(p.name), Equals, ValueToken(p.value)], PropertyTokens(rest));
      assert n.properties + [p] + rest == n.properties + properties;
      EntryIsProperty(ts, k, p, n);
      PropertiesParse(ts, k + 3, rest, n.(properties := n.properties + [p]));
    }
  }

  /** The parser reads the tokens of a node as that node, without reports. */
  lemma {:induction false} NodeParses(ts: seq<Token>, k: nat, n: K.Node)
    requires Stands(ts, k, NodeTokens(n))
    ensures NodeAt(ts, k) == Parsed(Some(n), k + |NodeTokens(n)|, [])
    decreases n, 2
  {
    hide ArgumentTokens, PropertyTokens, EntriesAt, TailTokens, Stands;
    var rest := ArgumentTokens(n.arguments) + (PropertyTokens(n.properties) + TailTokens(n));
    NodeTokensParts(n);
    assert NodeTokens(n) == [Word(n.name)] + rest;
    StandsAt(ts, k, NodeTokens(n), 0);
    StandsSplit(ts, k, [Word(n.name)], rest);
    EntriesParse(ts, k + 1, n);
  }

  lemma {:induction false} EntriesParse(ts: seq<Token>, k: nat, n: K.Node)
    requires Stands(ts, k, ArgumentTokens(n.arguments) + (PropertyTokens(n.properties) + TailTokens(n)))
    ensures k <= |ts|
    ensures var rest := ArgumentTokens(n.arguments) + (PropertyTokens(n.properties) + TailTokens(n));
      EntriesAt(ts, k, K.Node(n.name, [], [], [])) == Parsed(n, k + |rest|, [])
    decreases n, 1
  {
    hide ArgumentTokens, PropertyTokens, EntriesAt, TailTokens;
    var a, p, tail := ArgumentTokens(n.arguments), PropertyTokens(n.properties), TailTokens(n);
    StandsSplit(ts, k, a, p + tail);
    StandsSplit(ts, k + |a|, p, tail);
    var bare := K.Node(n.name, [], [], []);
    AfterArguments(ts, k + |a|, n.properties, n);
    ArgumentsParse(ts, k, n.arguments, bare);
    assert [] + n.arguments == n.arguments && [] + n.properties == n.properties;
    PropertiesParse(ts, k + |a|, n.properties, bare.(arguments := n.arguments));
    TailParses(ts, k + |a| + |p|, n);
  }

  lemma {:induction false} AfterArguments(ts: seq<Token>, k: nat, properties: seq<K.Property>, n: K.Node)
    requires Stands(ts, k, PropertyTokens(properties) + TailTokens(n))
    ensures !At(ts, k).Equals?
  {
    hide NodesTokens;
    StandsAt(ts, k, PropertyTokens(properties) + TailTokens(n), 0);
  }

  lemma {:induction false} TailParses(ts: seq<Token>, k: nat, n: K.Node)
    requires Stands(ts, k, TailTokens(n))
    ensures EntriesAt(ts, k, n.(children := [])) == Parsed(n, k + |TailTokens(n)|, [])
    decreases n, 0
  {
    hide NodesTokens, ChildrenAt, EntriesAt;
    StandsAt(ts, k, TailTokens(n), 0);
    if n.children == [] {
      assert n.(children := []) == n;
      LineEnds(ts, k, n);
    } else {
      var body := NodesTokens(n.children);
      assert TailTokens(n) == [LBrace] + ([Newline] + (body + [RBrace, Newline]));
      StandsSplit(ts, k, [LBrace], [Newline] + (body + [RBrace, Newline]));
      StandsSplit(ts, k + 1, [Newline], body + [RBrace, Newline]);
      StandsSplit(ts, k + 2, body, [RBrace, Newline]);
      StandsAt(ts, k + 1, [Newline], 0);
      StandsAt(ts, k + 2 + |body|, [RBrace, Newline], 0);
      ChildrenParse(ts, k + 2, n.children);
      SkipNewline(ts, k + 1);
      BlockParses(ts, k, n, k + 2 + |body|);
    }
  }

  lemma {:induction false} LineEnds(ts: seq<Token>, k: nat, n: K.Node)
    requires k < |ts| && ts[k].Newline?
    ensures EntriesAt(ts, k, n) == Parsed(n, k + 1, [])
  {}

  lemma {:induction false} BlockParses(ts: seq<Token>, k: nat, n: K.Node, close: nat)
    requires k < |ts| && ts[k].LBrace? && ChildrenAt(ts, k + 1) == Parsed(n.children, close, [])
    requires Stands(ts, close, [RBrace, Newline])
    ensures EntriesAt(ts, k, n.(children := [])) == Parsed(n, close + 2, [])
  {
    hide ChildrenAt;
    StandsAt(ts, close, [RBrace, Newline], 0);
    StandsAt(ts, close, [RBrace, Newline], 1);
  }

  lemma {:induction false} SkipNewline(ts: seq<Token>, k: nat)
    requires k < |ts| && ts[k].Newline?
    ensures ChildrenAt(ts, k) == ChildrenAt(ts, k + 1)
  {
    var rest := ChildrenAt(ts, k + 1);
    assert [] + rest.value == rest.value && [] + rest.reports == rest.reports;
  }

  lemma {:induction false} ChildrenParse(ts: seq<Token>, k: nat, nodes: seq<K.Node>)
    requires Stands(ts, k, NodesTokens(nodes)) && At(ts, k + |NodesTokens(nodes)|).RBrace?
    ensures ChildrenAt(ts, k) == Parsed(nodes, k + |NodesTokens(nodes)|, [])
    decreases nodes, 2
  {
    hide NodeTokens, NodeAt;
    if nodes != [] {
      var first, rest := NodeTokens(nodes[0]), NodesTokens(nodes[1..]);
      StandsSplit(ts, k, first, rest);
      ItemParses(ts, k, nodes[0]) by { NodeParses(ts, k, nodes[0]); }
      ChildrenParse(ts, k + |first|, nodes[1..]);
      assert [nodes[0]] + nodes[1..] == nodes;
    }
  }

  lemma {:induction false} ItemParses(ts: seq<Token>, k: nat, n: K.Node)
    requires Stands(ts, k, NodeTokens(n)) && NodeAt(ts, k) == Parsed(Some(n), k + |NodeTokens(n)|, [])
    ensures k < |ts| && ts[k] == Word(n.name) && ItemAt(ts, k) == Parsed([n], k + |NodeTokens(n)|, [])
  {
    hide NodesTokens, NodeAt, ArgumentTokens, PropertyTokens;
    StandsAt(ts, k, NodeTokens(n), 0);
  }

  lemma {:induction false} DocumentParses(ts: seq<Token>, k: nat, nodes: seq<K.Node>)
    requires Stands(ts, k, NodesTokens(nodes)) && |ts| == k + |NodesTokens(nodes)|
    ensures DocumentAt(ts, k) == Parsed(nodes, |ts|, [])
    decreases |nodes|
  {
    hide NodeTokens, NodeAt, ItemAt;
    if nodes != [] {
      var first, rest := NodeTokens(nodes[0]), NodesTokens(nodes[1..]);
      StandsSplit(ts, k, first, rest);
      NodeParses(ts, k, nodes[0]);
      ItemParses(ts, k, nodes[0]);
      DocumentParses(ts, k + |first|, nodes[1..]);
      assert [nodes[0]] + nodes[1..] == nodes;
    }
  }

  /** Printing and parsing: every printable tree comes back as it was, without reports. */
  lemma {:induction false} PrintThenParse(h: V.Host, nodes: seq<K.Node>)
    requires FloatsReadBack(h) && forall i | 0 <= i < |nodes| :: Printable(h, nodes[i])
    ensures Parse(h, NodesText(h, 0, nodes)) == (nodes, [])
  {
    hide FloatsReadBack, Printable, NodesText, NodesTokens, Tokens, Reports, DocumentAt;
    var text := NodesText(h, 0, nodes);
    NodesLex(h, 0, nodes, "");
    assert text + "" == text;
    EmptyText(h);
    var ts := Tokens(h, text);
    assert ts == NodesTokens(nodes) + [];
    assert ts[0..|ts|] == ts;
    DocumentParses(ts, 0, nodes);
    assert [] + Reports(h, text) == [];
    assert Parse(h, text) == (nodes, [] + Reports(h, text));
  }

  lemma {:induction false} EmptyText(h: V.Host)
    ensures Tokens(h, "") == [] && Reports(h, "") == []
  {}
}
