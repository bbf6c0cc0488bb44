/** The built-in transforms: their typing rules in internal/compiler/builtins.go and their
    execution in internal/executor/builtins.go. */
module Builtins {
  import opened Options
  import opened Text
  import opened Types
  import opened Floats
  import opened Values
  import opened IR

  datatype Builtin =
    | Trim | NormalizeWhitespace | Lowercase | Uppercase
    | Replace | RegexReplace | RegexCapture | Substring | Split | Join | Prepend | Append
    | ParseInt | ParseFloat | ParseBool | ToString | EmptyToNull | Coalesce
    | URLResolve | URLQuery | URLPath | PathSegment
    | AssertMatches | AssertEnum | AssertMin | AssertMax

  function NameOf(b: Builtin): string {
    match b
    case Trim => "trim"
    case NormalizeWhitespace => "normalize-whitespace"
    case Lowercase => "lowercase"
    case Uppercase => "uppercase"
    case Replace => "replace"
    case RegexReplace => "regex-replace"
    case RegexCapture => "regex-capture"
    case Substring => "substring"
    case Split => "split"
    case Join => "join"
    case Prepend => "prepend"
    case Append => "append"
    case ParseInt => "parse-int"
    case ParseFloat => "parse-float"
    case ParseBool => "parse-bool"
    case ToString => "to-string"
    case EmptyToNull => "empty-to-null"
    case Coalesce => "coalesce"
    case URLResolve => "url-resolve"
    case URLQuery => "url-query"
    case URLPath => "url-path"
    case PathSegment => "path-segment"
    case AssertMatches => "assert-matches"
    case AssertEnum => "assert-enum"
    case AssertMin => "assert-min"
    case AssertMax => "assert-max"
  }

  const ALL: seq<Builtin> := [
    Trim, NormalizeWhitespace, Lowercase, Uppercase, Replace, RegexReplace, RegexCapture, Substring, Split, Join,
    Prepend, Append, ParseInt, ParseFloat, ParseBool, ToString, EmptyToNull, Coalesce, URLResolve, URLQuery, URLPath,
    PathSegment, AssertMatches, AssertEnum, AssertMin, AssertMax]

  function FindNamed(name: string, i: nat): (r: Option<Builtin>)
    requires i <= |ALL|
    ensures r.Some? ==> NameOf(r.value) == name
    decreases |ALL| - i
  {
    if i == |ALL| then None else if NameOf(ALL[i]) == name then Some(ALL[i]) else FindNamed(name, i + 1)
  }

  /** builtincontract.Lookup. */
  function Lookup(name: string): (r: Option<Builtin>)
    ensures r.Some? ==> NameOf(r.value) == name
  {
    FindNamed(name, 0)
  }

  /** Built-ins from string to string, and from string to nullable string. */
  predicate TextToText(b: Builtin) {
    b.Trim? || b.NormalizeWhitespace? || b.Lowercase? || b.Uppercase? || b.Substring? || b.Prepend? || b.Append? ||
    b.Replace? || b.RegexReplace? || b.URLResolve? || b.URLPath? || b.AssertMatches?
  }

  predicate TextToNullable(b: Builtin) {
    b.RegexCapture? || b.EmptyToNull? || b.URLQuery? || b.PathSegment?
  }

  // ---------- typing ----------

  /** The compiler's applyBuiltin: the type a built-in makes of its input type. */
  function TypeOf(b: Builtin, input: Type, asName: Option<string>): Option<Type> {
    if b.Join? then (if input == Array(STRING) then Some(STRING) else None)
    else if b.ToString? then (if IsScalar(input) && !input.Nullable? then Some(STRING) else None)
    else if b.Coalesce? then (if input.Nullable? then Some(input.inner) else None)
    else if b.AssertEnum? then (if IsScalar(input) then Some(input) else None)
    else if b.AssertMin? || b.AssertMax? then (if IsNumeric(input) then Some(input) else None)
    else if input != STRING then None
    else if b.Split? then Some(Array(STRING))
    else if b.ParseInt? then
      var name :- asName;
      var t :- Parse(name);
      if IsInteger(t) then Some(t) else None
    else if b.ParseFloat? then
      var name :- asName;
      if IsFloatName(name) then Some(Primitive(name)) else None
    else if b.ParseBool? then Some(Primitive("bool"))
    else if TextToNullable(b) then Some(Nullable(STRING))
    else Some(STRING)
  }

  /** The name given by the argument `as`, when it is a string. */
  function AsName(call: Call): Option<string> {
    var arguments := Arguments(call.named);
    if "as" in arguments && arguments["as"].Decoded? && arguments["as"].value.Str? then Some(arguments["as"].value.s) else None
  }

  // ---------- arguments at run time ----------

  function RequiredText(arguments: map<string, Raw>, name: string): Option<string> {
    if name in arguments && arguments[name].Decoded? && arguments[name].value.Str? then Some(arguments[name].value.s) else None
  }

  function OptionalText(arguments: map<string, Raw>, name: string, fallback: string): Option<string> {
    if name !in arguments then Some(fallback) else RequiredText(arguments, name)
  }

  function OptionalBool(arguments: map<string, Raw>, name: string, fallback: bool): Option<bool> {
    if name !in arguments then Some(fallback)
    else if arguments[name].Decoded? && arguments[name].value.Bool? then Some(arguments[name].value.b) else None
  }

  /** strconv.ParseInt(text, 10, 32) on the text of a JSON number, and the Go numbers literalInt accepts. */
  function LiteralInt(v: Value): Option<int> {
    match v
    case Number(text) =>
      var n :- ParseSigned(text, 10);
      if InRange(I32, n) then Some(n) else None
    case Int(kind, n) => if kind == GoInt || kind == I64 then Some(n) else None
    case F64(f) => if f.Finite? && f.value.Floor as real == f.value then Some(f.value.Floor) else None
    case _ => None
  }

  function RequiredInt(arguments: map<string, Raw>, name: string): Option<int> {
    if name in arguments && arguments[name].Decoded? then LiteralInt(arguments[name].value) else None
  }

  function OptionalInt(arguments: map<string, Raw>, name: string, fallback: int): Option<int> {
    if name !in arguments then Some(fallback) else RequiredInt(arguments, name)
  }

  // ---------- execution ----------

  /** strings.Fields. */
  function Fields(s: string): (r: seq<string>)
    decreases |s|
  {
    var t := TrimLeft(s);
    if t == [] then [] else
    var n := WordLength(t);
    TrimLeftShorter(s);
    [t[..n]] + Fields(t[n..])
  }

  lemma {:induction false} TrimLeftShorter(s: string)
    ensures |TrimLeft(s)| <= |s|
    ensures TrimLeft(s) != [] ==> !IsUnicodeSpace(TrimLeft(s)[0])
  {
    if s != [] && IsUnicodeSpace(s[0]) {
      TrimLeftShorter(s[1..]);
    }
  }

  function WordLength(s: string): (n: nat)
    ensures n <= |s|
    ensures s != [] && !IsUnicodeSpace(s[0]) ==> n > 0
  {
    if s == [] || IsUnicodeSpace(s[0]) then 0 else 1 + WordLength(s[1..])
  }

  /** strings.Join. */
  function JoinWith(parts: seq<string>, separator: string): string {
    if parts == [] then "" else if |parts| == 1 then parts[0] else parts[0] + separator + JoinWith(parts[1..], separator)
  }

  /** strings.Split with a separator that is not empty. */
  function SplitBy(s: string, separator: string): (r: seq<string>)
    requires separator != ""
    ensures r != []
    decreases |s|
  {
    var i := FindText(s, separator);
    if i == |s| then [s] else [s[..i]] + SplitBy(s[i + |separator|..], separator)
  }

  /** Where `t` first occurs in `s`, or |s|. */
  function FindText(s: string, t: string): (i: nat)
    requires t != ""
    ensures i < |s| ==> i + |t| <= |s| && s[i..i + |t|] == t
    ensures i <= |s|
  {
    if s == [] then 0
    else if t <= s then 0
    else
      var i := FindText(s[1..], t);
      assert i < |s[1..]| ==> s[1..][i..i + |t|] == s[i + 1..i + 1 + |t|];
      i + 1
  }

  function Single(s: string): (r: seq<string>)
    ensures |r| == |s| && forall i | 0 <= i < |s| :: r[i] == [s[i]]
  {
    seq(|s|, i requires 0 <= i < |s| => [s[i]])
  }

  function NormalizeIndex(index: int, length: nat): (i: nat)
    ensures i <= length
  {
    var k := if index < 0 then length + index else index;
    if k < 0 then 0 else if k > length then length else k
  }

  function RunSubstring(s: string, arguments: map<string, Raw>): Option<string> {
    var start :- RequiredInt(arguments, "start");
    var end :- OptionalInt(arguments, "end", |s|);
    var i, j := NormalizeIndex(start, |s|), NormalizeIndex(end, |s|);
    Some(if j < i then "" else s[i..j])
  }

  function RunSplit(s: string, arguments: map<string, Raw>): Option<Value> {
    var separator :- RequiredText(arguments, "separator");
    var limit :- OptionalInt(arguments, "limit", -1);
    if "limit" in arguments && limit < 0 then None
    else if limit == 0 then Some(Strings([]))
    else
      var parts := if separator == "" then Single(s) else SplitBy(s, separator);
      Some(Strings(if 0 <= limit < |parts| then parts[..limit] else parts))
  }

  function Texts(items: seq<Value>): (r: Option<seq<string>>)
  {
    if items == [] then Some([])
    else if !items[0].Str? then None
    else
      var rest :- Texts(items[1..]);
      Some([items[0].s] + rest)
  }

  function RunJoin(v: Value, arguments: map<string, Raw>): Option<Value> {
    var separator :- RequiredText(arguments, "separator");
    match v
    case Strings(strings) => Some(Str(JoinWith(strings, separator)))
    case List(items) =>
      var texts :- Texts(items);
      Some(Str(JoinWith(texts, separator)))
    case _ => None
  }

  function RunParseInt(s: string, arguments: map<string, Raw>): Option<Value> {
    var asName :- RequiredText(arguments, "as");
    var radix :- OptionalInt(arguments, "radix", 10);
    if '_' in s || s == "" then None else
    var kind :- KindOf(asName);
    var n :- if kind in {U8, U16, U32, U64}
             then ParseUnsignedInput(s, radix)
             else ParseSigned(s, radix);
    if InRange(kind, n) then Some(Int(kind, n)) else None
  }

  function ParseUnsignedInput(s: string, radix: int): Option<int>
    requires s != ""
  {
    if s[0] == '-' then None else
    var n :- ParseUnsigned(if s[0] == '+' then s[1..] else s, radix);
    Some(n as int)
  }

  function RunParseFloat(h: Host, s: string, arguments: map<string, Raw>): Option<Value> {
    var asName :- RequiredText(arguments, "as");
    var low := h.lower(s);
    if low == "nan" || Contains(low, "inf") || Contains(low, "0x") || TrimSpace(s) != s || !IsFloatName(asName) then None else
    var f :- h.parseFloat(asName == "f32", s);
    if !f.Finite? then None else if asName == "f32" then Some(F32(f)) else Some(F64(f))
  }

  predicate Contains(s: string, t: string)
    requires t != ""
  {
    FindText(s, t) < |s|
  }

  function RunParseBool(h: Host, s: string, arguments: map<string, Raw>): Option<Value> {
    var exact :- OptionalBool(arguments, "case-sensitive", false);
    var yes :- OptionalText(arguments, "true", "true");
    var no :- OptionalText(arguments, "false", "false");
    var fold := (t: string) => if exact then t else h.lower(t);
    if fold(s) == fold(yes) then Some(Bool(true))
    else if fold(s) == fold(no) then Some(Bool(false))
    else None
  }

  function RunToString(h: Host, v: Value): Option<Value> {
    match v
    case Str(s) => Some(Str(s))
    case Bool(b) => Some(Str(if b then "true" else "false"))
    case Int(_, n) => Some(Str(IntText(n)))
    case F32(f) => if f.Finite? then Some(Str(h.shortest(true, f.value))) else None
    case F64(f) => if f.Finite? then Some(Str(h.shortest(false, f.value))) else None
    case _ => None
  }

  function RunCoalesce(h: Host, v: Value, call: Call): Option<Value> {
    var arguments := Arguments(call.named);
    if v != Null then Some(v)
    else if "value" in arguments && arguments["value"].Decoded? then Normalize(h, arguments["value"].value, call.output)
    else None
  }

  /** numberString. */
  function NumberText(h: Host, v: Value): Option<string> {
    match v
    case Number(text) => Some(text)
    case Int(_, n) => Some(IntText(n))
    case F32(f) => Some(DisplayFloat(h, true, f))
    case F64(f) => Some(DisplayFloat(h, false, f))
    case _ => None
  }

  function DisplayFloat(h: Host, single: bool, f: Float): string {
    match f
    case Finite(value) => h.display(single, value)
    case NaN => "NaN"
    case Inf(negative) => if negative then "-Inf" else "+Inf"
  }

  /** equalScalar. */
  predicate EqualScalar(h: Host, a: Value, b: Value) {
    if NumberText(h, a).Some? && NumberText(h, b).Some? then NumberText(h, a) == NumberText(h, b) else a == b
  }

  predicate InEnum(h: Host, v: Value, allowed: seq<Raw>) {
    allowed != [] && allowed[0].Decoded? && (EqualScalar(h, v, allowed[0].value) || InEnum(h, v, allowed[1..]))
  }

  function RunBound(h: Host, v: Value, arguments: map<string, Raw>, minimum: bool): Option<Value> {
    if !("value" in arguments && arguments["value"].Decoded?) then None else
    var left :- NumberText(h, v);
    var right :- NumberText(h, arguments["value"].value);
    var order :- h.compareRounded(left, right);
    if (minimum && order < 0) || (!minimum && order > 0) then None else Some(v)
  }

  function RunTextToText(h: Host, b: Builtin, s: string, arguments: map<string, Raw>): Option<string>
    requires TextToText(b)
  {
    if b.Trim? then Some(TrimSpace(s))
    else if b.NormalizeWhitespace? then Some(JoinWith(Fields(s), " "))
    else if b.Lowercase? then Some(h.lower(s))
    else if b.Uppercase? then Some(h.upper(s))
    else if b.Substring? then RunSubstring(s, arguments)
    else if b.Prepend? then
      var prefix :- RequiredText(arguments, "value");
      Some(prefix + s)
    else if b.Append? then
      var suffix :- RequiredText(arguments, "value");
      Some(s + suffix)
    else
      var result :- h.text(NameOf(b), s, arguments);
      Some(if b.AssertMatches? then s else result)
  }

  function RunTextToNullable(h: Host, b: Builtin, s: string, arguments: map<string, Raw>): Option<Option<string>>
    requires TextToNullable(b)
  {
    if b.EmptyToNull? then Some(if s == "" then None else Some(s)) else h.nullableText(NameOf(b), s, arguments)
  }

  /** applyBuiltinRuntime; None is a reported failure. */
  function Run(h: Host, b: Builtin, v: Value, call: Call): Option<Value> {
    var arguments := Arguments(call.named);
    if b.Join? then RunJoin(v, arguments)
    else if b.ToString? then RunToString(h, v)
    else if b.Coalesce? then RunCoalesce(h, v, call)
    else if b.AssertEnum? then (if InEnum(h, v, call.positional) then Some(v) else None)
    else if b.AssertMin? || b.AssertMax? then RunBound(h, v, arguments, b.AssertMin?)
    else if !v.Str? then None
    else if b.Split? then RunSplit(v.s, arguments)
    else if b.ParseInt? then RunParseInt(v.s, arguments)
    else if b.ParseFloat? then RunParseFloat(h, v.s, arguments)
    else if b.ParseBool? then RunParseBool(h, v.s, arguments)
    else if TextToNullable(b) then
      var result :- RunTextToNullable(h, b, v.s, arguments);
      Some(if result.Some? then Str(result.value) else Null)
    else
      var result :- RunTextToText(h, b, v.s, arguments);
      Some(Str(result))
  }

  // ---------- soundness of the typing rules ----------

  /** A built-in either fails or returns a JSON-compatible value of the type the compiler gave it. */
  lemma {:induction false} RunSound(h: Host, b: Builtin, v: Value, call: Call)
    requires IsJSON(h, v) && Matches(h, v, call.input)
    requires TypeOf(b, call.input, AsName(call)) == Some(call.output)
    requires Run(h, b, v, call).Some?
    ensures var w := Run(h, b, v, call).value; IsJSON(h, w) && Matches(h, w, call.output)
  {
    hide IsJSON, Parse, KindOf, Arguments, RunTextToText, RunTextToNullable, RunToString, RunParseBool, JoinWith, IsNumeric;
    if b.Coalesce? {
      if v == Null {
        NormalizeMatches(h, Arguments(call.named)["value"].value, call.output);
      }
    } else if b.ParseInt? {
      ParseIntTyped(h, v.s, call);
    } else if b.ParseFloat? {
      ParseFloatTyped(h, v.s, call);
    } else if !(b.AssertEnum? || b.AssertMin? || b.AssertMax?) {
      PlainTyped(h, b, v, call);
    }
  }

  /** The built-ins whose output type is fixed. */
  lemma {:induction false} PlainTyped(h: Host, b: Builtin, v: Value, call: Call)
    requires !(b.Coalesce? || b.ParseInt? || b.ParseFloat? || b.AssertEnum? || b.AssertMin? || b.AssertMax?)
    requires TypeOf(b, call.input, AsName(call)) == Some(call.output)
    requires Run(h, b, v, call).Some?
    ensures var w := Run(h, b, v, call).value; IsJSON(h, w) && Matches(h, w, call.output)
  {
    hide Parse, KindOf, Arguments, RunTextToText, RunTextToNullable, JoinWith, IsNumeric, SplitBy, Single, IsScalar;
  }

  lemma {:induction false} ParseFloatTyped(h: Host, s: string, call: Call)
    requires TypeOf(ParseFloat, STRING, AsName(call)) == Some(call.output)
    requires RunParseFloat(h, s, Arguments(call.named)).Some?
    ensures var w := RunParseFloat(h, s, Arguments(call.named)).value; IsJSON(h, w) && Matches(h, w, call.output)
  {
    hide Arguments, KindOf, Parse, TrimSpace, Contains;
  }

  /** The run-time table and the type parser read the same meaning into a plain type name. */
  lemma {:induction false} KindNamesType(name: string)
    requires KindOf(name).Some?
    ensures IsIntegerName(name) && Parse(name) == Some(Primitive(name))
  {
    assert IsIntegerName(name);
    hide Parse, KindOf;
    assert Show(Primitive(name)) == name && WellFormed(Primitive(name));
    ParseShow(Primitive(name));
  }

  lemma {:induction false} ParseIntTyped(h: Host, s: string, call: Call)
    requires TypeOf(ParseInt, STRING, AsName(call)) == Some(call.output)
    requires RunParseInt(s, Arguments(call.named)).Some?
    ensures var w := RunParseInt(s, Arguments(call.named)).value; IsJSON(h, w) && Matches(h, w, call.output)
  {
    hide Parse, ParseUnsignedInput, ParseSigned, InRange, Arguments, OptionalInt;
    KindNamesType(AsName(call).value);
  }
}
