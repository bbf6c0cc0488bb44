/** What each built-in returns, for every input. */
module BuiltinMeaning {
  import opened Options
  import opened Text
  import opened Types
  import opened Floats
  import opened Values
  import opened IR
  import opened Builtins
  import opened Words
  import L = BuiltinLaws

  // ---------- arguments ----------

  /** The call gives the argument this value: the last one of that name counts. */
  ghost predicate Given(call: Call, name: string, v: Value) {
    exists i ::
      && 0 <= i < |call.named| && call.named[i] == (name, Decoded(v))
      && forall j | i < j < |call.named| :: call.named[j].0 != name
  }

  predicate NotGiven(call: Call, name: string) {
    forall i | 0 <= i < |call.named| :: call.named[i].0 != name
  }

  lemma {:induction false} LastCounts(named: seq<(string, Raw)>, i: nat)
    requires i < |named| && forall j | i < j < |named| :: named[j].0 != named[i].0
    ensures named[i].0 in Arguments(named) && Arguments(named)[named[i].0] == named[i].1
  {
    var front := named[..|named| - 1];
    if i < |front| {
      LastCounts(front, i);
      assert named[|named| - 1].0 != named[i].0;
    }
  }

  lemma {:induction false} NoArgument(named: seq<(string, Raw)>, name: string)
    requires forall i | 0 <= i < |named| :: named[i].0 != name
    ensures name !in Arguments(named)
  {
    if named != [] {
      NoArgument(named[..|named| - 1], name);
    }
  }

  lemma {:induction false} GivenArgument(call: Call, name: string, v: Value)
    requires Given(call, name, v)
    ensures name in Arguments(call.named) && Arguments(call.named)[name] == Decoded(v)
  {
    hide Arguments;
    var i :| 0 <= i < |call.named| && call.named[i] == (name, Decoded(v)) && forall j | i < j < |call.named| :: call.named[j].0 != name;
    LastCounts(call.named, i);
  }

  /** An integer literal of the document, as it arrives at run time. */
  function IntegerLiteral(n: int): Value {
    Number(IntText(n))
  }

  lemma {:induction false} GivenInteger(call: Call, name: string, n: int)
    requires Given(call, name, IntegerLiteral(n)) && InRange(I32, n)
    ensures RequiredInt(Arguments(call.named), name) == Some(n) && OptionalInt(Arguments(call.named), name, 0) == Some(n)
    ensures forall fallback :: OptionalInt(Arguments(call.named), name, fallback) == Some(n)
  {
    hide Arguments, ParseSigned, IntText;
    GivenArgument(call, name, IntegerLiteral(n));
    ParseSignedIntText(n);
  }

  // ---------- texts ----------

  /** prepend puts its argument in front, append behind. */
  lemma {:induction false} AffixesReturn(h: Host, s: string, p: string, call: Call)
    requires Given(call, "value", Str(p))
    ensures Run(h, Prepend, Str(s), call) == Some(Str(p + s)) && Run(h, Append, Str(s), call) == Some(Str(s + p))
  {
    hide Arguments;
    GivenArgument(call, "value", Str(p));
  }

  lemma {:induction false} AffixesNeedText(h: Host, v: Value, call: Call)
    requires NotGiven(call, "value") || !v.Str?
    ensures Run(h, Prepend, v, call) == None && Run(h, Append, v, call) == None
  {
    hide Arguments;
    if NotGiven(call, "value") {
      NoArgument(call.named, "value");
    }
  }

  /** Where an index leads in a text of a length: from the end when negative, and never outside. */
  ghost predicate Leads(index: int, length: nat, i: nat) {
    && (0 <= index <= length ==> i == index) && (index > length ==> i == length)
    && (index < 0 <= length + index ==> i == length + index) && (length + index < 0 ==> i == 0)
  }

  /** substring is the text from the start to the end, or nothing. */
  lemma {:induction false} SubstringReturns(h: Host, s: string, start: int, end: int, i: nat, j: nat, call: Call)
    requires Given(call, "start", IntegerLiteral(start)) && InRange(I32, start) && Leads(start, |s|, i)
    requires if NotGiven(call, "end") then j == |s| else Given(call, "end", IntegerLiteral(end)) && InRange(I32, end) && Leads(end, |s|, j)
    ensures i <= |s| && j <= |s| && Run(h, Substring, Str(s), call) == Some(Str(if i <= j then s[i..j] else ""))
  {
    hide Arguments, RequiredInt, Given, NotGiven, IntegerLiteral, InRange;
    GivenInteger(call, "start", start);
    GivenOrNot(call, "end", IntegerLiteral(end));
    if !NotGiven(call, "end") {
      GivenInteger(call, "end", end);
    }
  }

  lemma {:induction false} WideInteger(call: Call, name: string, n: int)
    requires Given(call, name, IntegerLiteral(n)) && !InRange(I32, n)
    ensures RequiredInt(Arguments(call.named), name) == None
    ensures forall fallback :: OptionalInt(Arguments(call.named), name, fallback) == None
  {
    hide Arguments, ParseSigned, IntText;
    GivenArgument(call, name, IntegerLiteral(n));
    ParseSignedIntText(n);
  }

  /** The compiler accepts every 64-bit integer as a bound of substring; the run takes exactly those of 32 bits. */
  lemma {:induction false} SubstringUsableIff(h: Host, s: string, start: int, end: int, call: Call)
    requires Given(call, "start", IntegerLiteral(start)) && (NotGiven(call, "end") || Given(call, "end", IntegerLiteral(end)))
    ensures TypeOf(Substring, STRING, None) == Some(STRING)
    ensures Run(h, Substring, Str(s), call).Some? <==> InRange(I32, start) && (!NotGiven(call, "end") ==> InRange(I32, end))
  {
    hide Arguments, RequiredInt, Given, NotGiven, IntegerLiteral, InRange;
    GivenOrNot(call, "end", IntegerLiteral(end));
    if !InRange(I32, start) {
      WideInteger(call, "start", start);
    } else {
      GivenInteger(call, "start", start);
      if !NotGiven(call, "end") {
        if InRange(I32, end) {
          GivenInteger(call, "end", end);
        } else {
          WideInteger(call, "end", end);
        }
      }
    }
  }

  /** trim takes the spaces off both ends. */
  lemma {:induction false} TrimReturns(h: Host, a: string, t: string, b: string, call: Call)
    requires IsSpace(a) && IsSpace(b) && (t != "" ==> !IsUnicodeSpace(t[0]) && !IsUnicodeSpace(t[|t| - 1]))
    ensures Run(h, Trim, Str(a + t + b), call) == Some(Str(t))
  {
    hide TrimSpace, IsUnicodeSpace, Arguments;
    TrimSpaceMeaning(a + t + b, a, t, b);
  }

  /** The words with one space between them. */
  function Spaced(words: seq<string>): string {
    if words == [] then "" else words[0] + (if |words| == 1 then "" else " " + Spaced(words[1..]))
  }

  lemma {:induction false} JoinIsSpaced(words: seq<string>)
    ensures JoinWith(words, " ") == Spaced(words)
  {
    if |words| > 1 {
      JoinIsSpaced(words[1..]);
    }
  }

  /** normalize-whitespace keeps the words, in order, with one space between them. */
  lemma {:induction false} NormalizeWhitespaceReturns(h: Host, words: seq<string>, gaps: seq<string>, call: Call)
    requires Laid(words, gaps)
    ensures Run(h, NormalizeWhitespace, Str(Woven(words, gaps)), call) == Some(Str(Spaced(words)))
  {
    hide Fields, Arguments, JoinWith, IsWord, IsSpace, Woven;
    FieldsOfWoven(words, gaps);
    JoinIsSpaced(words);
  }

  /** The case mappings are those of the library; a text that is empty becomes null, and only that. */
  lemma {:induction false} CaseAndEmptyReturn(h: Host, s: string, call: Call)
    ensures Run(h, Lowercase, Str(s), call) == Some(Str(h.lower(s))) && Run(h, Uppercase, Str(s), call) == Some(Str(h.upper(s)))
    ensures Run(h, EmptyToNull, Str(s), call) == Some(if s == "" then Null else Str(s))
  {
    hide Arguments;
  }

  /** assert-matches returns its input when the library matches it. */
  lemma {:induction false} MatchesReturns(h: Host, s: string, call: Call)
    ensures Run(h, AssertMatches, Str(s), call) ==
      if h.text("assert-matches", s, Arguments(call.named)).Some? then Some(Str(s)) else None
  {
    hide Arguments;
  }

  // ---------- split and join ----------

  /** The texts of one character each. */
  predicate IsCharacters(s: string, parts: seq<string>) {
    |parts| == |s| && forall i | 0 <= i < |s| :: parts[i] == [s[i]]
  }

  /** The parts put together again with the separator are the text, and none of them holds it. */
  ghost predicate IsSplit(s: string, separator: string, parts: seq<string>) {
    if separator == "" then IsCharacters(s, parts)
    else parts != [] && JoinWith(parts, separator) == s && forall i | 0 <= i < |parts| :: !Contains(parts[i], separator)
  }

  /** split takes the text apart and keeps as many parts as its limit allows. */
  lemma {:induction false} SplitReturns(h: Host, s: string, separator: string, limit: int, call: Call) returns (parts: seq<string>)
    requires Given(call, "separator", Str(separator))
    requires NotGiven(call, "limit") || (Given(call, "limit", IntegerLiteral(limit)) && InRange(I32, limit))
    ensures IsSplit(s, separator, parts)
    ensures Run(h, Split, Str(s), call) ==
      if NotGiven(call, "limit") then Some(Strings(parts))
      else if limit < 0 then None
      else Some(Strings(if limit < |parts| then parts[..limit] else parts))
  {
    hide Arguments, Contains, SplitBy, JoinWith, RequiredInt;
    GivenArgument(call, "separator", Str(separator));
    if NotGiven(call, "limit") {
      NoArgument(call.named, "limit");
    } else {
      GivenInteger(call, "limit", limit);
      GivenArgument(call, "limit", IntegerLiteral(limit));
    }
    parts := if separator == "" then Single(s) else SplitBy(s, separator);
    if separator != "" {
      L.JoinAfterSplit(s, separator);
      forall i | 0 <= i < |parts| ensures !Contains(parts[i], separator) {
        L.PartsHaveNoSeparator(s, separator, i);
      }
    }
  }

  /** join of texts: each followed by the separator, the last one not. */
  lemma {:induction false} JoinSteps(h: Host, first: string, rest: seq<string>, separator: string, call: Call)
    requires Given(call, "separator", Str(separator))
    ensures Run(h, Join, Strings([]), call) == Some(Str(""))
    ensures Run(h, Join, Strings([first]), call) == Some(Str(first))
    ensures Run(h, Join, Strings(rest), call).Some? && Run(h, Join, Strings(rest), call).value.Str?
    ensures rest != [] ==>
      Run(h, Join, Strings([first] + rest), call) == Some(Str(first + separator + Run(h, Join, Strings(rest), call).value.s))
  {
    hide Arguments;
    GivenArgument(call, "separator", Str(separator));
    assert ([first] + rest)[1..] == rest;
  }

  /** join of a list is join of its texts, and fails when one of them is not a text. */
  lemma {:induction false} JoinOfList(h: Host, items: seq<Value>, texts: seq<string>, separator: string, call: Call)
    requires Given(call, "separator", Str(separator))
    ensures |texts| == |items| && (forall i | 0 <= i < |items| :: items[i] == Str(texts[i])) ==>
      Run(h, Join, List(items), call) == Run(h, Join, Strings(texts), call)
    ensures (exists i :: 0 <= i < |items| && !items[i].Str?) ==> Run(h, Join, List(items), call) == None
  {
    hide Arguments, JoinWith;
    GivenArgument(call, "separator", Str(separator));
    if |texts| == |items| && forall i | 0 <= i < |items| :: items[i] == Str(texts[i]) {
      TextsOf(items, texts);
    }
    if i :| 0 <= i < |items| && !items[i].Str? {
      NoTexts(items, i);
    }
  }

  lemma {:induction false} TextsOf(items: seq<Value>, texts: seq<string>)
    requires |texts| == |items| && forall i | 0 <= i < |items| :: items[i] == Str(texts[i])
    ensures Texts(items) == Some(texts)
  {
    if items != [] {
      TextsOf(items[1..], texts[1..]);
      assert [texts[0]] + texts[1..] == texts;
    }
  }

  lemma {:induction false} NoTexts(items: seq<Value>, i: nat)
    requires i < |items| && !items[i].Str?
    ensures Texts(items) == None
  {
    if i > 0 {
      NoTexts(items[1..], i - 1);
    }
  }

  // ---------- booleans ----------

  /** parse-bool compares with the two words, folded unless asked to be exact; the first word wins. */
  lemma {:induction false} ParseBoolReturns(h: Host, s: string, yes: string, no: string, exact: bool, call: Call)
    requires if NotGiven(call, "true") then yes == "true" else Given(call, "true", Str(yes))
    requires if NotGiven(call, "false") then no == "false" else Given(call, "false", Str(no))
    requires if NotGiven(call, "case-sensitive") then !exact else Given(call, "case-sensitive", Bool(exact))
    ensures Run(h, ParseBool, Str(s), call) ==
      if exact then (if s == yes then Some(Bool(true)) else if s == no then Some(Bool(false)) else None)
      else if h.lower(s) == h.lower(yes) then Some(Bool(true)) else if h.lower(s) == h.lower(no) then Some(Bool(false)) else None
  {
    hide Arguments;
    GivenOrNot(call, "true", Str(yes));
    GivenOrNot(call, "false", Str(no));
    GivenOrNot(call, "case-sensitive", Bool(exact));
  }

  lemma {:induction false} GivenOrNot(call: Call, name: string, v: Value)
    ensures NotGiven(call, name) ==> name !in Arguments(call.named)
    ensures Given(call, name, v) ==> name in Arguments(call.named) && Arguments(call.named)[name] == Decoded(v)
  {
    hide Arguments;
    if NotGiven(call, name) {
      NoArgument(call.named, name);
    }
    if Given(call, name, v) {
      GivenArgument(call, name, v);
    }
  }

  // ---------- to-string and coalesce ----------

  lemma {:induction false} ToStringReturns(h: Host, v: Value, s: string, b: bool, kind: IntKind, n: int, f: Float, call: Call)
    ensures Run(h, ToString, Str(s), call) == Some(Str(s))
    ensures Run(h, ToString, Bool(b), call) == Some(Str(if b then "true" else "false"))
    ensures Run(h, ToString, Int(kind, n), call) == Some(Str(IntText(n)))
    ensures Run(h, ToString, F64(f), call) == if f.Finite? then Some(Str(h.shortest(false, f.value))) else None
    ensures Run(h, ToString, F32(f), call) == if f.Finite? then Some(Str(h.shortest(true, f.value))) else None
    ensures v.Null? || v.Strings? || v.List? || v.Object? || v.Foreign? ==> Run(h, ToString, v, call) == None
  {
    hide Arguments, IntText;
  }

  /** coalesce keeps what is not null, and puts its literal, normalised, in the place of null. */
  lemma {:induction false} CoalesceReturns(h: Host, v: Value, literal: Value, call: Call)
    ensures v != Null ==> Run(h, Coalesce, v, call) == Some(v)
    ensures Given(call, "value", literal) ==> Run(h, Coalesce, Null, call) == Normalize(h, literal, call.output)
    ensures NotGiven(call, "value") ==> Run(h, Coalesce, Null, call) == None
  {
    hide Arguments, Normalize;
    GivenOrNot(call, "value", literal);
  }

  // ---------- assertions ----------

  /** assert-enum returns its input exactly when it equals one of the values, all of which were read. */
  lemma {:induction false} EnumReturns(h: Host, v: Value, call: Call)
    requires forall i | 0 <= i < |call.positional| :: call.positional[i].Decoded?
    ensures Run(h, AssertEnum, v, call) ==
      if exists i :: 0 <= i < |call.positional| && EqualScalar(h, v, call.positional[i].value) then Some(v) else None
  {
    hide EqualScalar, Arguments;
    InEnumMeaning(h, v, call.positional);
  }

  lemma {:induction false} InEnumMeaning(h: Host, v: Value, allowed: seq<Raw>)
    requires forall i | 0 <= i < |allowed| :: allowed[i].Decoded?
    ensures InEnum(h, v, allowed) <==> exists i :: 0 <= i < |allowed| && EqualScalar(h, v, allowed[i].value)
  {
    hide EqualScalar;
    if allowed != [] {
      var rest := allowed[1..];
      InEnumMeaning(h, v, rest);
      if i :| 0 <= i < |rest| && EqualScalar(h, v, rest[i].value) {
        assert allowed[i + 1] == rest[i];
      }
      if i :| 0 <= i < |allowed| && EqualScalar(h, v, allowed[i].value) {
        assert i > 0 ==> rest[i - 1] == allowed[i];
      }
    }
  }

  /** The bounds: a number passes unchanged exactly when it is not beyond the bound. */
  lemma {:induction false} BoundsReturn(h: Host, kind: IntKind, n: int, bound: string, order: int, call: Call)
    requires Given(call, "value", Number(bound)) && h.compareRounded(IntText(n), bound) == Some(order)
    ensures Run(h, AssertMin, Int(kind, n), call) == if order >= 0 then Some(Int(kind, n)) else None
    ensures Run(h, AssertMax, Int(kind, n), call) == if order <= 0 then Some(Int(kind, n)) else None
  {
    hide Arguments, IntText;
    GivenArgument(call, "value", Number(bound));
  }

  /** The same for floats, by the text that is compared. */
  lemma {:induction false} FloatBoundsReturn(h: Host, r: real, bound: string, order: int, call: Call)
    requires Given(call, "value", Number(bound)) && h.compareRounded(h.display(false, r), bound) == Some(order)
    ensures Run(h, AssertMin, F64(Finite(r)), call) == if order >= 0 then Some(F64(Finite(r))) else None
    ensures Run(h, AssertMax, F64(Finite(r)), call) == if order <= 0 then Some(F64(Finite(r))) else None
  {
    hide Arguments;
    GivenArgument(call, "value", Number(bound));
  }

  // ---------- parse-int and parse-float ----------

  /** The digits of a base, in either case. */
  function DigitChar(d: nat, upper: bool): char
    requires d < 36
  {
    if d < 10 then ('0' as int + d) as char else ((if upper then 'A' else 'a') as int + (d - 10)) as char
  }

  lemma {:induction false} DigitMeaning(d: nat, upper: bool, base: nat)
    requires d < 36
    ensures DigitsValue([DigitChar(d, upper)], base) == if d < base then Some(d) else None
  {
    var s := [DigitChar(d, upper)];
    assert s[..|s| - 1] == "" && DigitsValue("", base) == Some(0);
    assert DigitIn(s[0]) == Some(d);
  }

  function Power(base: nat, n: nat): nat {
    if n == 0 then 1 else base * Power(base, n - 1)
  }

  /** Digits count by their place. */
  lemma {:induction false} DigitsJoin(x: string, y: string, base: nat)
    ensures DigitsValue(x + y, base).Some? <==> DigitsValue(x, base).Some? && DigitsValue(y, base).Some?
    ensures DigitsValue(x + y, base).Some? ==>
      DigitsValue(x + y, base).value == DigitsValue(x, base).value * Power(base, |y|) + DigitsValue(y, base).value
    decreases |y|
  {
    hide DigitIn;
    if y == "" {
      assert x + y == x;
    } else {
      var front, last := y[..|y| - 1], y[|y| - 1];
      assert (x + y)[..|x + y| - 1] == x + front && (x + y)[|x + y| - 1] == last;
      DigitsJoin(x, front, base);
      if DigitsValue(x + y, base).Some? {
        var v, p, f, d := DigitsValue(x, base).value, Power(base, |front|), DigitsValue(front, base).value, DigitIn(last).value;
        Horner(v, p, f, d, base);
      }
    }
  }

  lemma {:induction false} Horner(v: nat, p: nat, f: nat, d: nat, base: nat)
    ensures (v * p + f) * base + d == v * (base * p) + (f * base + d)
  {
    assert v * p * base == v * (base * p);
  }

  predicate Unsigned(kind: IntKind) {
    kind in {U8, U16, U32, U64}
  }

  /** parse-int reads a sign and digits of its radix; what does not fit the type fails. */
  lemma {:induction false} ParseIntReturns(h: Host, sign: string, digits: string, v: nat, name: string, radix: int, call: Call)
    requires Given(call, "as", Str(name)) && KindOf(name).Some? && 2 <= radix <= 36
    requires if NotGiven(call, "radix") then radix == 10 else Given(call, "radix", IntegerLiteral(radix))
    requires sign in {"", "+", "-"} && digits != "" && DigitsValue(digits, radix) == Some(v)
    ensures var kind := KindOf(name).value; var n: int := if sign == "-" then 0 - v else v;
      Run(h, ParseInt, Str(sign + digits), call) == if InRange(kind, n) && !(Unsigned(kind) && sign == "-") then Some(Int(kind, n)) else None
  {
    hide Arguments, KindOf, InRange, DigitsValue, RequiredInt, Given, NotGiven, ParseSigned, ParseUnsignedInput, IntText;
    GivenArgument(call, "as", Str(name));
    RadixGiven(call, radix);
    SignedText(sign, digits, radix);
    SignedParse(sign, digits, v, radix);
  }

  lemma {:induction false} RadixGiven(call: Call, radix: int)
    requires 2 <= radix <= 36
    requires if NotGiven(call, "radix") then radix == 10 else Given(call, "radix", IntegerLiteral(radix))
    ensures OptionalInt(Arguments(call.named), "radix", 10) == Some(radix)
  {
    hide Arguments, RequiredInt, Given, IntegerLiteral;
    if NotGiven(call, "radix") {
      NoArgument(call.named, "radix");
    } else {
      SmallInteger(radix);
      GivenInteger(call, "radix", radix);
    }
  }

  lemma {:induction false} SignedText(sign: string, digits: string, radix: int)
    requires 2 <= radix <= 36 && sign in {"", "+", "-"} && digits != "" && DigitsValue(digits, radix).Some?
    ensures sign + digits != "" && '_' !in sign + digits && digits[0] != '+' && digits[0] != '-'
  {
    hide DigitsValue;
    DigitsAreDigits(digits, radix);
    assert digits[0] in digits;
  }

  lemma {:induction false} SmallInteger(n: int)
    requires 0 <= n <= 36
    ensures InRange(I32, n)
  {}

  lemma {:induction false} DigitsAreDigits(s: string, base: nat)
    requires DigitsValue(s, base).Some?
    ensures forall c | c in s :: c != '_' && c != '+' && c != '-'
  {
    if s != "" {
      DigitsAreDigits(s[..|s| - 1], base);
      assert s == s[..|s| - 1] + [s[|s| - 1]];
    }
  }

  lemma {:induction false} SignedParse(sign: string, digits: string, v: nat, radix: int)
    requires 2 <= radix <= 36 && sign in {"", "+", "-"} && digits != "" && DigitsValue(digits, radix) == Some(v)
    requires digits[0] != '+' && digits[0] != '-'
    ensures ParseSigned(sign + digits, radix) == Some(if sign == "-" then 0 - v as int else v as int)
    ensures ParseUnsignedInput(sign + digits, radix) == if sign == "-" then None else Some(v)
  {
    hide DigitsValue;
    var s := sign + digits;
    assert sign != "" ==> s[0] == sign[0] && s[1..] == digits;
    assert sign == "" ==> s == digits;
  }

  /** Other texts fail: the empty one, and any with an underscore. */
  lemma {:induction false} ParseIntRejects(h: Host, s: string, call: Call)
    ensures s == "" || '_' in s ==> Run(h, ParseInt, Str(s), call) == None
  {
    hide Arguments, KindOf, RequiredInt, ParseSigned, ParseUnsignedInput;
  }

  /** parse-float returns what the library reads, if that is finite and written as a plain decimal. */
  lemma {:induction false} ParseFloatReturns(h: Host, s: string, name: string, call: Call)
    requires Given(call, "as", Str(name)) && name in {"float", "f64", "f32"}
    ensures var low, f := h.lower(s), h.parseFloat(name == "f32", s);
      Run(h, ParseFloat, Str(s), call) ==
        if low != "nan" && !Contains(low, "inf") && !Contains(low, "0x") && TrimSpace(s) == s && f.Some? && f.value.Finite?
        then Some(if name == "f32" then F32(f.value) else F64(f.value)) else None
  {
    hide Arguments, Contains, TrimSpace;
    GivenArgument(call, "as", Str(name));
  }

  // ---------- the rest ----------

  /** The built-ins of the regular-expression and URL libraries return what the library says. */
  lemma {:induction false} LibraryReturns(h: Host, b: Builtin, s: string, call: Call)
    requires b in {Replace, RegexReplace, URLResolve, URLPath} || b in {RegexCapture, URLQuery, PathSegment}
    ensures b in {Replace, RegexReplace, URLResolve, URLPath} ==>
      var t := h.text(NameOf(b), s, Arguments(call.named)); Run(h, b, Str(s), call) == if t.Some? then Some(Str(t.value)) else None
    ensures b in {RegexCapture, URLQuery, PathSegment} ==>
      var t := h.nullableText(NameOf(b), s, Arguments(call.named));
      Run(h, b, Str(s), call) == if t.None? then None else Some(if t.value.Some? then Str(t.value.value) else Null)
  {
    hide Arguments, NameOf;
  }

  /** No built-in on texts takes anything else. */
  lemma {:induction false} OnlyTexts(h: Host, b: Builtin, v: Value, call: Call)
    requires !v.Str? && !(b in {Join, ToString, Coalesce, AssertEnum, AssertMin, AssertMax})
    ensures Run(h, b, v, call) == None
  {
    hide Arguments;
  }
}
