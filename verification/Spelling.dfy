/** The spellings of words: every way to write a string, an integer or a mark is read as that word,
    and broken ones are reported. */
module Spelling {
  import opened Options
  import opened Text
  import opened Lexing
  import opened Printing
  import V = Values

  // ---------- quoted strings ----------

  /** A character of a quoted string: as itself, by a letter, or by its number in hexadecimal. */
  datatype Part = Plain(c: char) | Letter(c: char) | Numbered(hex: string, n: nat)

  function PartText(p: Part): string {
    match p
    case Plain(c) => [c]
    case Letter(c) => ['\\', c]
    case Numbered(hex, _) => "\\u{" + hex + "}"
  }

  /** The letters of escapes, with what they stand for. */
  const LETTERS: map<char, char> := map[
    'n' := '\n', 'r' := '\r', 't' := '\t', 'b' := '\U{0008}', 'f' := '\U{000c}', '\\' := '\\', '\"' := '\"']

  predicate PartOK(p: Part) {
    match p
    case Plain(c) => c != '\"' && c != '\\' && c != '\n' && c != '\r'
    case Letter(c) => c in LETTERS
    case Numbered(hex, n) => hex != "" && DigitsValue(hex, 16) == Some(n) && (n < 0xD800 || 0xE000 <= n < 0x11_0000)
  }

  function Meaning(p: Part): char
    requires PartOK(p)
  {
    match p
    case Plain(c) => c
    case Letter(c) => LETTERS[c]
    case Numbered(_, n) => n as char
  }

  predicate PartsOK(parts: seq<Part>) {
    forall i | 0 <= i < |parts| :: PartOK(parts[i])
  }

  function PartsText(parts: seq<Part>): string {
    if parts == [] then "" else PartText(parts[0]) + PartsText(parts[1..])
  }

  function Meanings(parts: seq<Part>): (s: string)
    requires PartsOK(parts)
    ensures |s| == |parts| && forall i | 0 <= i < |s| :: s[i] == Meaning(parts[i])
  {
    seq(|parts|, i requires 0 <= i < |parts| => Meaning(parts[i]))
  }

  lemma {:induction false} LettersAreEscapes(c: char)
    ensures Escaped(c) == if c in LETTERS then Some(LETTERS[c]) else None
  {}

  lemma {:induction false} HexHasNoBrace(hex: string)
    requires DigitsValue(hex, 16).Some?
    ensures forall i | 0 <= i < |hex| :: hex[i] != '}' && hex[i] != '+' && hex[i] != '-'
  {
    if hex != "" {
      var front := hex[..|hex| - 1];
      HexHasNoBrace(front);
      assert forall i | 0 <= i < |front| :: hex[i] == front[i];
    }
  }

  lemma {:induction false} NumberedReads(hex: string, n: nat, rest: string, read: string)
    requires PartOK(Numbered(hex, n))
    ensures var e := "\\u{" + hex + "}"; Quoted(e + rest, read) == Quoted(rest, read + [n as char]).After(|e|)
  {
    hide DigitsValue;
    var s := "\\u{" + hex + "}" + rest;
    assert s == "\\u{" + (hex + ("}" + rest)) && s[1..] == "u{" + (hex + ("}" + rest));
    HexHasNoBrace(hex);
    BraceLengthOf(hex, rest);
    var t := s[1..];
    assert t[2..] == hex + ("}" + rest) && t[2..2 + |hex|] == hex;
    assert ParseSigned(hex, 16) == Some(n);
    assert Escape(t) == (Some(n as char), 3 + |hex|);
    assert s[1 + (3 + |hex|)..] == rest;
  }

  lemma {:induction false} PartReads(p: Part, rest: string, read: string)
    requires PartOK(p)
    ensures Quoted(PartText(p) + rest, read) == Quoted(rest, read + [Meaning(p)]).After(|PartText(p)|)
  {
    hide Quoted, Escaped;
    match p {
      case Plain(c) => PlainReadsBack(c, rest, read);
      case Letter(c) =>
        LettersAreEscapes(c);
        LetterReadsBack(LETTERS[c], c, rest, read);
      case Numbered(hex, n) => NumberedReads(hex, n, rest, read);
    }
  }

  lemma {:induction false} PartsRead(parts: seq<Part>, rest: string, read: string)
    requires PartsOK(parts)
    ensures Quoted(PartsText(parts) + rest, read) == Quoted(rest, read + Meanings(parts)).After(|PartsText(parts)|)
    decreases |parts|
  {
    hide Quoted, PartText, Meaning, PartOK;
    if parts == [] {
      assert PartsText(parts) + rest == rest && read + Meanings(parts) == read;
    } else {
      var more := PartsText(parts[1..]) + rest;
      assert PartsText(parts) + rest == PartText(parts[0]) + more;
      PartReads(parts[0], more, read);
      PartsRead(parts[1..], rest, read + [Meaning(parts[0])]);
      assert read + [Meaning(parts[0])] + Meanings(parts[1..]) == read + Meanings(parts);
    }
  }

  /** A quoted string is the characters its parts stand for. */
  lemma {:induction false} QuotedStringLexes(h: V.Host, parts: seq<Part>, rest: string)
    requires PartsOK(parts)
    ensures Lexes(h, "\"" + PartsText(parts) + "\"", [TString(Meanings(parts))], rest)
  {
    hide PartsText, Quoted, PartOK;
    var text := "\"" + PartsText(parts) + "\"";
    Starts(h, text, rest);
    PartsRead(parts, "\"" + rest, "");
    ClosingQuote(rest, "" + Meanings(parts));
    assert (text + rest)[0] == '\"' && (text + rest)[1..] == PartsText(parts) + ("\"" + rest);
    assert "" + Meanings(parts) == Meanings(parts);
    OneToken(h, text, TString(Meanings(parts)), rest);
  }

  lemma {:induction false} ClosingQuote(rest: string, read: string)
    ensures Quoted("\"" + rest, read) == Lexed(TString(read), 1, [])
  {}

  /** Where a quoted string breaks off: at a line break, at the end of the text, or at a letter that is no escape. */
  predicate Breaks(rest: string) {
    || rest == "" || rest[0] == '\n' || rest[0] == '\r' || rest == "\\"
    || (|rest| >= 2 && rest[0] == '\\' && rest[1] !in LETTERS && rest[1] != 'u')
  }

  lemma {:induction false} BrokenStringIsReported(h: V.Host, parts: seq<Part>, rest: string)
    requires PartsOK(parts) && Breaks(rest)
    ensures var l := Next(h, "\"" + PartsText(parts) + rest); l.token == Invalid && l.reports == [SYNTAX]
  {
    hide PartsText, PartOK;
    var text := "\"" + PartsText(parts);
    Starts(h, text, rest);
    PartsRead(parts, rest, "");
    if |rest| >= 2 {
      LettersAreEscapes(rest[1]);
    }
    assert (text + rest)[0] == '\"' && (text + rest)[1..] == PartsText(parts) + rest;
    assert "\"" + PartsText(parts) + rest == text + rest;
  }

  // ---------- raw strings ----------

  function Hashes(n: nat): (s: string)
    ensures |s| == n && forall i | 0 <= i < n :: s[i] == '#'
  {
    seq(n, i requires 0 <= i < n => '#')
  }

  function Quotes(n: nat): (s: string)
    ensures |s| == n && forall i | 0 <= i < n :: s[i] == '\"'
  {
    seq(n, i requires 0 <= i < n => '\"')
  }

  lemma {:induction false} HashesCounted(n: nat, rest: string)
    requires rest != "" && rest[0] != '#'
    ensures HashLength(Hashes(n) + rest) == n
  {
    if n > 0 {
      assert (Hashes(n) + rest)[0] == '#' && (Hashes(n) + rest)[1..] == Hashes(n - 1) + rest;
      HashesCounted(n - 1, rest);
    } else {
      assert Hashes(n) + rest == rest;
    }
  }

  lemma {:induction false} ClosesHere(quotes: nat, hashes: nat, rest: string)
    ensures Closes(Quotes(quotes) + Hashes(hashes) + rest, quotes, hashes)
  {
    var s := Quotes(quotes) + Hashes(hashes) + rest;
    assert s[quotes..] == Hashes(hashes) + rest;
  }

  lemma {:induction false} RawLengthOf(content: string, quotes: nat, hashes: nat, rest: string)
    requires quotes > 0 && Closes(rest, quotes, hashes)
    requires forall i | 0 <= i < |content| :: !Closes((content + rest)[i..], quotes, hashes)
    ensures RawLength(content + rest, quotes, hashes) == |content|
  {
    hide Closes;
    if content == "" {
      assert content + rest == rest;
    } else {
      var s := content + rest;
      assert s[0..] == s && s[1..] == content[1..] + rest;
      forall i | 0 <= i < |content[1..]| ensures !Closes((content[1..] + rest)[i..], quotes, hashes) {
        assert (content[1..] + rest)[i..] == s[i + 1..];
      }
      RawLengthOf(content[1..], quotes, hashes, rest);
    }
  }

  /** A raw string is its content as it stands, whatever is in it but its own end: with hashes and one
      quote, or with three and without the line breaks next to them. */
  lemma {:induction false} RawStringLexes(h: V.Host, hashes: nat, triple: bool, content: string, rest: string)
    requires hashes > 0
    requires var quotes := if triple then 3 else 1;
      var close := Quotes(quotes) + Hashes(hashes) + rest;
      && (forall i | 0 <= i < |content| :: !Closes((content + close)[i..], quotes, hashes))
      && (!triple ==> !Repeats(content + close, '\"', 2))
    ensures var quotes := if triple then 3 else 1;
      Lexes(h, Hashes(hashes) + Quotes(quotes) + content + Quotes(quotes) + Hashes(hashes),
        [TString(if triple then DropLastBreak(DropFirstBreak(content)) else content)], rest)
  {
    hide HashLength, RawLength, DropFirstBreak, DropLastBreak, Closes, Raw, Repeats, Quotes, Hashes, Lexes;
    var quotes := if triple then 3 else 1;
    var close := Quotes(quotes) + Hashes(hashes) + rest;
    var text := Hashes(hashes) + Quotes(quotes) + content + Quotes(quotes) + Hashes(hashes);
    var token := TString(if triple then DropLastBreak(DropFirstBreak(content)) else content);
    var s := text + rest;
    assert s == Hashes(hashes) + (Quotes(quotes) + (content + close));
    ClosesHere(quotes, hashes, rest);
    RawToken(hashes, triple, content, close);
    HashFirst(hashes, Quotes(quotes) + (content + close));
    assert Quotes(quotes)[0] == '\"';
    assert s[hashes] == '\"' && forall i | 0 <= i < hashes :: s[i] == '#';
    Starts(h, text, rest);
    NoKeyword(s, hashes);
    OneToken(h, text, token, rest);
  }

  lemma {:induction false} HashFirst(hashes: nat, rest: string)
    requires hashes > 0
    ensures var s := Hashes(hashes) + rest; s[0] == '#' && forall i | 0 <= i < hashes :: s[i] == '#'
  {}

  /** The token itself, in front of its closing marks. */
  lemma {:induction false} RawToken(hashes: nat, triple: bool, content: string, close: string)
    requires hashes > 0
    requires var quotes := if triple then 3 else 1;
      && Closes(close, quotes, hashes) && (forall i | 0 <= i < |content| :: !Closes((content + close)[i..], quotes, hashes))
      && (!triple ==> !Repeats(content + close, '\"', 2)) && |close| >= quotes + hashes
    ensures var quotes := if triple then 3 else 1;
      var text := Hashes(hashes) + (Quotes(quotes) + (content + close));
      Raw(text) == Lexed(TString(if triple then DropLastBreak(DropFirstBreak(content)) else content), 2 * (hashes + quotes) + |content|, [])
  {
    hide HashLength, RawLength, DropFirstBreak, DropLastBreak, Closes, Repeats, Quotes, Hashes;
    var quotes := if triple then 3 else 1;
    var inner := content + close;
    var s := Hashes(hashes) + (Quotes(quotes) + inner);
    HashesCounted(hashes, Quotes(quotes) + inner);
    assert Quotes(quotes)[0] == '\"';
    assert s[hashes..] == Quotes(quotes) + inner && s[hashes + quotes..] == inner && s[hashes] == '\"';
    QuotesCounted(triple, inner);
    RawLengthOf(content, quotes, hashes, close);
    assert inner[..|content|] == content;
  }

  lemma {:induction false} QuotesCounted(triple: bool, rest: string)
    requires !triple ==> !Repeats(rest, '\"', 2)
    ensures Repeats(Quotes(if triple then 3 else 1) + rest, '\"', 3) == triple
  {
    hide Repeats;
    if triple {
      ThreeQuotes(rest);
    } else {
      assert Quotes(1) + rest == "\"" + rest;
      OneMoreQuote(rest);
    }
  }

  lemma {:induction false} ThreeQuotes(rest: string)
    ensures Repeats(Quotes(3) + rest, '\"', 3)
  {}

  lemma {:induction false} OneMoreQuote(rest: string)
    ensures Repeats("\"" + rest, '\"', 3) <==> Repeats(rest, '\"', 2)
  {
    var s := "\"" + rest;
    assert forall i | 0 <= i < |rest| :: s[i + 1] == rest[i];
    if Repeats(s, '\"', 3) {
      assert s[1] == '\"' && s[2] == '\"';
    }
  }

  lemma {:induction false} NoKeyword(s: string, hashes: nat)
    requires 0 < hashes < |s| && s[hashes] == '\"' && forall i | 0 <= i < hashes :: s[i] == '#'
    ensures !Keyword(s, "#true") && !Keyword(s, "#false") && !Keyword(s, "#null")
  {
    assert s[1] == '#' || s[1] == '\"';
  }

  /** The line breaks that three quotes leave out: one after the opening and one before the closing. */
  lemma {:induction false} BreaksLeftOut(line: string)
    requires line != "" && line[0] != '\n' && line[0] != '\r' && line[|line| - 1] != '\n' && line[|line| - 1] != '\r'
    ensures DropLastBreak(DropFirstBreak("\n" + line + "\n")) == line
    ensures DropLastBreak(DropFirstBreak("\r\n" + line + "\r\n")) == line
    ensures DropLastBreak(DropFirstBreak(line)) == line
  {
    assert ("\n" + line + "\n")[1..] == line + "\n" && (line + "\n")[..|line|] == line;
    assert ("\r\n" + line + "\r\n")[2..] == line + "\r\n" && (line + "\r\n")[..|line|] == line;
  }

  // ---------- integers ----------

  /** Digits of a base, with underscores anywhere among them. */
  predicate IsRun(digits: string, base: nat) {
    forall i | 0 <= i < |digits| :: InBase(digits[i], base) || digits[i] == '_'
  }

  lemma {:induction false} RunLengthOf(digits: string, base: nat, rest: string)
    requires IsRun(digits, base) && Delimits(rest)
    ensures Run(digits + rest, base) == |digits|
  {
    if digits == "" {
      assert digits + rest == rest;
    } else {
      assert (digits + rest)[1..] == digits[1..] + rest;
      RunLengthOf(digits[1..], base, rest);
    }
  }

  lemma {:induction false} CleanJoins(a: string, b: string)
    ensures Clean(a + b) == Clean(a) + Clean(b)
  {
    if a == "" {
      assert a + b == b;
    } else {
      assert (a + b)[1..] == a[1..] + b;
      CleanJoins(a[1..], b);
    }
  }

  lemma {:induction false} CleanKeeps(s: string)
    requires '_' !in s
    ensures Clean(s) == s
  {
    CleanOf(s);
  }

  lemma {:induction false} CleanRun(digits: string, base: nat)
    requires IsRun(digits, base)
    ensures forall i | 0 <= i < |Clean(digits)| :: InBase(Clean(digits)[i], base)
  {
    if digits != "" {
      CleanRun(digits[1..], base);
    }
  }

  /** The prefixes of the bases. */
  predicate Prefixed(base: nat, letter: char) {
    (base == 16 && (letter == 'x' || letter == 'X')) || (base == 8 && (letter == 'o' || letter == 'O')) || (base == 2 && (letter == 'b' || letter == 'B'))
  }

  predicate IsSign(sign: string) {
    sign == "" || sign == "+" || sign == "-"
  }

  /** An integer with a base prefix is its value, with underscores left out, when that fits 64 bits. */
  lemma {:induction false} PrefixedIntegerLexes(h: V.Host, sign: string, base: nat, letter: char, digits: string, v: nat, rest: string)
    requires IsSign(sign) && Prefixed(base, letter) && IsRun(digits, base) && Delimits(rest)
    requires Clean(digits) != "" && DigitsValue(Clean(digits), base) == Some(v)
    ensures var text := sign + ['0', letter] + digits; var n: int := if sign == "-" then 0 - v else v;
      Next(h, text + rest) == if V.InRange(V.I64, n) then Lexed(TInt(n), |text|, []) else Lexed(Invalid, |text|, [SYNTAX])
  {
    hide Run, Clean, DigitsValue, DecimalLengths, FloatLiteral, V.InRange, InBase;
    var text := sign + ['0', letter] + digits;
    var s := text + rest;
    var i := |sign|;
    NumberStarts(h, sign, ['0', letter] + digits, rest);
    assert sign + (['0', letter] + digits) == text;
    assert s[i] == '0' && s[i + 1] == letter && s[i + 2..] == digits + rest;
    RunLengthOf(digits, base, rest);
    assert SignLength(s) == i && Peek(s, i) == '0' && Peek(s, i + 1) == letter && BaseOf(letter) == base;
    assert s[i + 2..i + 2 + |digits|] == digits && s[..|text|] == text;
    assert Number(h, s) == Integer(text, 0);
    PrefixedValue(sign, base, letter, digits, v);
  }

  /** A text that starts like a number is lexed as one. */
  lemma {:induction false} NumberStarts(h: V.Host, sign: string, digits: string, rest: string)
    requires IsSign(sign) && digits != "" && IsDigit(digits[0])
    ensures var s := sign + digits + rest; Next(h, s) == Starting(h, s) == Number(h, s) && SignLength(s) == |sign|
  {
    hide Number;
    var s := sign + digits + rest;
    assert s[|sign|] == digits[0];
    assert sign != "" ==> s[0] == sign[0];
  }

  lemma {:induction false} PrefixedValue(sign: string, base: nat, letter: char, digits: string, v: nat)
    requires IsSign(sign) && Prefixed(base, letter) && Clean(digits) != "" && DigitsValue(Clean(digits), base) == Some(v)
    ensures ParseSigned(Clean(sign + ['0', letter] + digits), 0) == Some(if sign == "-" then 0 - v as int else v as int)
  {
    hide Clean, DigitsValue;
    var head := sign + ['0', letter];
    CleanJoins(head, digits);
    CleanKeeps(head);
    var clean := Clean(digits);
    var u := ['0', letter] + clean;
    assert Clean(head + digits) == sign + u;
    assert u[0] == '0' && u[1] == letter && u[2..] == clean && |u| >= 3;
    assert ParseUnsigned(u, 0) == Some(v);
    assert sign != "" ==> (sign + u)[0] == sign[0] && (sign + u)[1..] == u;
    assert sign == "" ==> sign + u == u;
  }

  /** A decimal integer, likewise. */
  lemma {:induction false} DecimalIntegerLexes(h: V.Host, sign: string, digits: string, v: nat, rest: string)
    requires IsSign(sign) && digits != "" && IsDigit(digits[0]) && IsRun(digits, 10) && Delimits(rest)
    requires |digits| > 1 && digits[0] == '0' ==> BaseOf(digits[1]) == 0
    requires DigitsValue(Clean(digits), 10) == Some(v) && Clean(digits) != ""
    ensures var text := sign + digits; var n: int := if sign == "-" then 0 - v else v;
      Next(h, text + rest) == if V.InRange(V.I64, n) then Lexed(TInt(n), |text|, []) else Lexed(Invalid, |text|, [SYNTAX])
  {
    hide Run, Clean, DigitsValue, FloatLiteral, V.InRange, InBase, DecimalLengths;
    var text := sign + digits;
    var s := text + rest;
    NumberStarts(h, sign, digits, rest);
    assert s[|sign|..] == digits + rest && s[..|text|] == text;
    assert Peek(s, |sign|) == digits[0] && Peek(s, |sign| + 1) == (if |digits| > 1 then digits[1] else rest[0]);
    DecimalEnds(sign, digits, rest);
    assert Number(h, s) == Integer(text, 10);
    DecimalValue(sign, digits, v);
  }

  lemma {:induction false} DecimalEnds(sign: string, digits: string, rest: string)
    requires IsSign(sign) && digits != "" && IsDigit(digits[0]) && IsRun(digits, 10) && Delimits(rest)
    ensures DecimalLengths(sign + digits + rest) == (|sign| + |digits|, |sign| + |digits|)
  {
    hide Run;
    var s := sign + digits + rest;
    assert s[|sign|] == digits[0] && (sign != "" ==> s[0] == sign[0]);
    assert s[|sign|..] == digits + rest && s[|sign| + |digits|..] == rest;
    RunLengthOf(digits, 10, rest);
  }

  lemma {:induction false} DecimalValue(sign: string, digits: string, v: nat)
    requires IsSign(sign) && DigitsValue(Clean(digits), 10) == Some(v) && Clean(digits) != "" && IsRun(digits, 10)
    ensures ParseSigned(Clean(sign + digits), 10) == Some(if sign == "-" then 0 - v as int else v as int)
  {
    hide Clean, DigitsValue;
    CleanJoins(sign, digits);
    CleanKeeps(sign);
    CleanRun(digits, 10);
    var u := Clean(digits);
    assert InBase(u[0], 10) && u[0] != '+' && u[0] != '-';
    assert sign != "" ==> (sign + u)[0] == sign[0] && (sign + u)[1..] == u;
    assert sign == "" ==> sign + u == u;
  }

  // ---------- decimals with a fraction or an exponent ----------

  predicate IsFractionPart(s: string) {
    s == "" || (s[0] == '.' && IsRun(s[1..], 10))
  }

  predicate IsExponentPart(s: string) {
    s == "" || ((s[0] == 'e' || s[0] == 'E') &&
      (IsRun(s[1..], 10) || (|s| > 1 && (s[1] == '+' || s[1] == '-') && IsRun(s[2..], 10))))
  }

  /** A decimal is what the library reads of it without its underscores, if that is finite. */
  lemma {:induction false} DecimalLexes(h: V.Host, sign: string, digits: string, fraction: string, exponent: string, rest: string)
    requires IsSign(sign) && digits != "" && IsDigit(digits[0]) && IsRun(digits, 10) && Delimits(rest)
    requires |digits| > 1 && digits[0] == '0' ==> BaseOf(digits[1]) == 0
    requires IsFractionPart(fraction) && IsExponentPart(exponent) && fraction + exponent != ""
    ensures var text := sign + digits + fraction + exponent; var f := h.parseFloat(false, Clean(text));
      Next(h, text + rest) == if f.Some? && f.value.Finite? then Lexed(TFloat(f.value.value), |text|, []) else Lexed(Invalid, |text|, [SYNTAX])
  {
    hide Run, Clean, InBase, DecimalLengths, Integer, IsRun, IsFractionPart, IsExponentPart, FloatLiteral, SignLength;
    var text := sign + digits + fraction + exponent;
    var s := text + rest;
    var more := fraction + exponent;
    assert s == sign + digits + (more + rest);
    NumberStarts(h, sign, digits, more + rest);
    assert Peek(s, |sign|) == digits[0] && Peek(s, |sign| + 1) == (if |digits| > 1 then digits[1] else more[0]);
    FirstOfParts(fraction, exponent);
    PartsEnd(sign, digits, fraction, exponent, rest);
    assert s[..|text|] == text;
    assert |sign| + |digits| < |text|;
    assert Number(h, s) == FloatLiteral(h, text);
    FloatRead(h, text);
  }

  lemma {:induction false} FirstOfParts(fraction: string, exponent: string)
    requires IsFractionPart(fraction) && IsExponentPart(exponent) && fraction + exponent != ""
    ensures var c := (fraction + exponent)[0]; c == '.' || c == 'e' || c == 'E'
  {
    hide IsRun;
  }

  lemma {:induction false} FloatRead(h: V.Host, text: string)
    ensures var f := h.parseFloat(false, Clean(text));
      FloatLiteral(h, text) == if f.Some? && f.value.Finite? then Lexed(TFloat(f.value.value), |text|, []) else Lexed(Invalid, |text|, [SYNTAX])
  {
    hide Clean;
  }

  lemma {:induction false} RunStops(digits: string, rest: string)
    requires IsRun(digits, 10) && rest != "" && !InBase(rest[0], 10) && rest[0] != '_'
    ensures Run(digits + rest, 10) == |digits|
  {
    if digits == "" {
      assert digits + rest == rest;
    } else {
      assert (digits + rest)[1..] == digits[1..] + rest;
      RunStops(digits[1..], rest);
    }
  }

  lemma {:induction false} PartsEnd(sign: string, digits: string, fraction: string, exponent: string, rest: string)
    requires IsSign(sign) && digits != "" && IsDigit(digits[0]) && IsRun(digits, 10) && Delimits(rest)
    requires IsFractionPart(fraction) && IsExponentPart(exponent)
    ensures DecimalLengths(sign + digits + fraction + exponent + rest) ==
      (|sign| + |digits|, |sign| + |digits| + |fraction| + |exponent|)
  {
    hide Run, FractionLength, ExponentLength, InBase, IsRun, IsFractionPart, IsExponentPart;
    var s := sign + digits + fraction + exponent + rest;
    var a, b := exponent + rest, fraction + (exponent + rest);
    assert s[|sign|..] == digits + b && s[|sign| + |digits|..] == b && s[|sign| + |digits| + |fraction|..] == a;
    SignEnds(sign, digits, b);
    assert s == sign + digits + b;
    NextStops(fraction, exponent, rest);
    RunStops(digits, b);
    FractionEnds(fraction, a);
    ExponentEnds(exponent, rest);
  }

  lemma {:induction false} SignEnds(sign: string, digits: string, rest: string)
    requires IsSign(sign) && digits != "" && IsDigit(digits[0])
    ensures SignLength(sign + digits + rest) == |sign|
  {
    var s := sign + digits + rest;
    assert s[|sign|] == digits[0] && (sign != "" ==> s[0] == sign[0]);
  }

  /** What comes after digits is no digit. */
  lemma {:induction false} NextStops(fraction: string, exponent: string, rest: string)
    requires IsFractionPart(fraction) && IsExponentPart(exponent) && Delimits(rest)
    ensures var a, b := exponent + rest, fraction + (exponent + rest);
      && a != "" && !InBase(a[0], 10) && a[0] != '_' && a[0] != '.' && b != "" && !InBase(b[0], 10) && b[0] != '_'
  {
    hide IsRun;
    var a, b := exponent + rest, fraction + (exponent + rest);
    assert a[0] == (if exponent != "" then exponent[0] else rest[0]);
    assert b[0] == (if fraction != "" then fraction[0] else a[0]);
  }

  lemma {:induction false} FractionEnds(fraction: string, rest: string)
    requires IsFractionPart(fraction) && rest != "" && !InBase(rest[0], 10) && rest[0] != '_' && rest[0] != '.'
    ensures FractionLength(fraction + rest) == |fraction|
  {
    hide Run;
    if fraction == "" {
      assert fraction + rest == rest;
    } else {
      assert (fraction + rest)[0] == '.' && (fraction + rest)[1..] == fraction[1..] + rest;
      RunStops(fraction[1..], rest);
    }
  }

  lemma {:induction false} ExponentEnds(exponent: string, rest: string)
    requires IsExponentPart(exponent) && Delimits(rest)
    ensures ExponentLength(exponent + rest) == |exponent|
  {
    hide Run;
    var s := exponent + rest;
    if exponent == "" {
      assert s == rest;
    } else if |exponent| > 1 && (exponent[1] == '+' || exponent[1] == '-') {
      assert s[0] == exponent[0] && s[1..][0] == exponent[1] && s[2..] == exponent[2..] + rest;
      RunStops(exponent[2..], rest);
    } else {
      assert s[0] == exponent[0] && s[1..] == exponent[1..] + rest;
      assert s[1..][0] == (if |exponent| > 1 then exponent[1] else rest[0]);
      RunStops(exponent[1..], rest);
    }
  }

  // ---------- marks ----------

  /** The marks of the language, by themselves. */
  lemma {:induction false} MarksLex(h: V.Host, rest: string)
    ensures Lexes(h, "\n", [Newline], rest) && Lexes(h, ";", [Semicolon], rest) && Lexes(h, "=", [Equals], rest)
    ensures Lexes(h, "{", [LBrace], rest) && Lexes(h, "}", [RBrace], rest)
    ensures Lexes(h, "(", [LParen], rest) && Lexes(h, ")", [RParen], rest)
    ensures Lexes(h, "/-", [Slashdash], rest)
  {
    hide Lexes, Next;
    Mark(h, '\n', rest);
    Mark(h, ';', rest);
    Mark(h, '=', rest);
    Mark(h, '{', rest);
    Mark(h, '}', rest);
    Mark(h, '(', rest);
    Mark(h, ')', rest);
    SlashdashLexes(h, rest);
  }

  lemma {:induction false} SlashdashLexes(h: V.Host, rest: string)
    ensures Lexes(h, "/-", [Slashdash], rest)
  {
    hide Lexes;
    assert ("/-" + rest)[0] == '/' && ("/-" + rest)[1] == '-';
    OneToken(h, "/-", Slashdash, rest);
  }

  /** A character that starts nothing is reported by itself. */
  lemma {:induction false} StrangeIsReported(h: V.Host, c: char, rest: string)
    requires c !in ['\n', ';', '=', '{', '}', '(', ')', ' ', '\t', '\r', '\"', '#', '/', '_', '-', '+']
    requires !('0' <= c <= '9') && !('a' <= c <= 'z') && !('A' <= c <= 'Z')
    ensures Next(h, [c] + rest) == Lexed(Invalid, 1, [SYNTAX])
  {
    assert ([c] + rest)[0] == c;
  }
}
