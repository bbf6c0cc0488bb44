/** Printing canonical JSON: internal/canonicaljson/canonical.go, and the key order of
    packages/scrape-kdl/src/canonical-json.ts. */
module CanonicalJSON {
  import opened Options
  import opened Text
  import opened Floats
  import opened Decimal
  import opened Utf8
  import opened Sorting
  import N = CanonicalNumber

  datatype JSON =
    | Null | Bool(b: bool) | String(s: string) | Number(text: string)
    | Array(items: seq<JSON>) | Object(fields: map<string, JSON>)

  /** Every number is one of section 6 of RFC 8259, as the decoder delivers them. */
  predicate Proper(v: JSON) {
    match v
    case Number(text) => IsNumber(text)
    case Array(items) => forall i | 0 <= i < |items| :: Proper(items[i])
    case Object(fields) => forall k | k in fields :: Proper(fields[k])
    case _ => true
  }

  // ---------- strings ----------

  const HEXADECIMAL: string := "0123456789abcdef"

  function EscapeChar(c: char): string {
    if c == '\"' || c == '\\' then ['\\', c]
    else if c == '\U{0008}' then "\\b"
    else if c == '\U{000c}' then "\\f"
    else if c == '\n' then "\\n"
    else if c == '\r' then "\\r"
    else if c == '\t' then "\\t"
    else if c < ' ' then "\\u00" + [HEXADECIMAL[c as int / 16], HEXADECIMAL[c as int % 16]]
    else [c]
  }

  function EscapeText(s: string): string {
    if s == "" then "" else EscapeText(s[..|s| - 1]) + EscapeChar(s[|s| - 1])
  }

  function Quote(s: string): string {
    "\"" + EscapeText(s) + "\""
  }

  lemma {:induction false} EscapeHead(s: string)
    requires s != ""
    ensures EscapeText(s) == EscapeChar(s[0]) + EscapeText(s[1..])
  {
    hide EscapeChar;
    if |s| == 1 {
      assert s[..0] == "" && s[1..] == "";
    } else {
      EscapeHead(s[..|s| - 1]);
      assert s[..|s| - 1][1..] == s[1..][..|s| - 2];
    }
  }

  /** No escaped character begins another one. */
  lemma {:induction false} CharsApart(c: char, d: char, a: string, b: string)
    requires EscapeChar(c) + a == EscapeChar(d) + b
    ensures c == d && a == b
  {
    var e, f := EscapeChar(c), EscapeChar(d);
    assert e[0] == (e + a)[0] == (f + b)[0] == f[0];
    if e[0] == '\\' {
      assert e[1] == (e + a)[1] == (f + b)[1] == f[1];
      if e[1] == 'u' {
        assert e[4] == (e + a)[4] == (f + b)[4] == f[4];
        assert e[5] == (e + a)[5] == (f + b)[5] == f[5];
        HexDigits(c as int / 16, d as int / 16);
        HexDigits(c as int % 16, d as int % 16);
      }
    }
    assert e == f;
    assert a == (e + a)[|e|..] && b == (f + b)[|f|..];
  }

  lemma {:induction false} HexDigits(m: nat, n: nat)
    requires m < 16 && n < 16 && HEXADECIMAL[m] == HEXADECIMAL[n]
    ensures m == n
  {}

  /** A quoted string ends where it ends: what is in it and what follows it can be told. */
  lemma {:induction false} TextsApart(x: string, y: string, s: string, t: string)
    requires EscapeText(x) + ("\"" + s) == EscapeText(y) + ("\"" + t)
    ensures x == y && s == t
    decreases |x|
  {
    hide EscapeText, EscapeChar;
    if x == "" || y == "" {
      OneIsEmpty(x, y, s, t);
    } else {
      EscapeHead(x);
      EscapeHead(y);
      var a, b := EscapeText(x[1..]) + ("\"" + s), EscapeText(y[1..]) + ("\"" + t);
      assert EscapeChar(x[0]) + a == EscapeText(x) + ("\"" + s);
      assert EscapeChar(y[0]) + b == EscapeText(y) + ("\"" + t);
      CharsApart(x[0], y[0], a, b);
      TextsApart(x[1..], y[1..], s, t);
      assert x == [x[0]] + x[1..] && y == [y[0]] + y[1..];
    }
  }

  lemma {:induction false} OneIsEmpty(x: string, y: string, s: string, t: string)
    requires EscapeText(x) + ("\"" + s) == EscapeText(y) + ("\"" + t) && (x == "" || y == "")
    ensures x == "" && y == "" && s == t
  {
    NotAQuote(x, s);
    NotAQuote(y, t);
    assert EscapeText("") == "";
    assert s == ("" + ("\"" + s))[1..] && t == ("" + ("\"" + t))[1..];
  }

  lemma {:induction false} NotAQuote(x: string, s: string)
    ensures (EscapeText(x) + ("\"" + s))[0] == '\"' <==> x == ""
  {
    hide EscapeText;
    if x != "" {
      EscapeHead(x);
      assert (EscapeText(x) + ("\"" + s))[0] == EscapeChar(x[0])[0];
    } else {
      assert EscapeText("") == "" by { NothingEscaped(); }
    }
  }

  lemma {:induction false} NothingEscaped()
    ensures EscapeText("") == ""
  {}

  // ---------- printing ----------

  /** The keys of an object in the order they are printed. */
  ghost function Sorted(keys: set<string>): (r: seq<string>)
    ensures Increasing(r) && forall x :: x in r <==> x in keys
  {
    SortedExists(keys);
    var r :| Increasing(r) && forall x :: x in r <==> x in keys;
    r
  }

  lemma {:induction false} SortedExists(keys: set<string>)
    ensures exists r :: Increasing(r) && forall x :: x in r <==> x in keys
    decreases |keys|
  {
    hide Increasing;
    if keys == {} {
      NothingSorted();
    } else {
      var key :| key in keys;
      SortedExists(keys - {key});
      var r :| Increasing(r) && forall x :: x in r <==> x in keys - {key};
      var longer := Inserting(r, key);
      assert forall x :: x in longer <==> x in keys;
    }
  }

  lemma {:induction false} NothingSorted()
    ensures Increasing([])
  {}

  lemma {:induction false} Inserting(keys: seq<string>, key: string) returns (r: seq<string>)
    requires Increasing(keys) && key !in keys
    ensures Increasing(r) && forall x :: x in r <==> x in keys || x == key
  {
    var i := PlaceFor(keys, key);
    r := keys[..i] + [key] + keys[i..];
    Inserted(keys, key, i);
  }

  lemma {:induction false} PlaceFor(keys: seq<string>, key: string) returns (i: nat)
    requires Increasing(keys)
    ensures i <= |keys| && (forall k | 0 <= k < i :: Before(keys[k], key)) && (i < |keys| ==> !Before(keys[i], key))
  {
    hide Before;
    if keys == [] || !Before(keys[0], key) {
      i := 0;
    } else {
      var j := PlaceFor(keys[1..], key);
      i := j + 1;
      assert forall k | 0 < k < i :: keys[k] == keys[1..][k - 1];
    }
  }

  /** The canonical text; none when a number lies outside binary64. */
  ghost function Print(round64: real -> Float, v: JSON): Option<string>
    requires Proper(v)
    decreases v, 1
  {
    match v
    case Null => Some("null")
    case Bool(b) => Some(if b then "true" else "false")
    case String(s) => Some(Quote(s))
    case Number(text) => N.Canonical(round64, text)
    case Array(items) =>
      var inner :- PrintItems(round64, items);
      Some("[" + inner + "]")
    case Object(fields) =>
      var inner :- PrintMembers(round64, v, Sorted(fields.Keys));
      Some("{" + inner + "}")
  }

  ghost function PrintItems(round64: real -> Float, items: seq<JSON>): Option<string>
    requires forall i | 0 <= i < |items| :: Proper(items[i])
    decreases items, 0
  {
    if items == [] then Some("") else
    var first :- Print(round64, items[0]);
    var rest :- PrintItems(round64, items[1..]);
    Some(if |items| == 1 then first else first + "," + rest)
  }

  ghost function PrintMembers(round64: real -> Float, o: JSON, keys: seq<string>): Option<string>
    requires o.Object? && Proper(o) && forall k | k in keys :: k in o.fields
    decreases o, 0, |keys|
  {
    if keys == [] then Some("") else
    var first :- PrintMember(round64, o, keys[0]);
    var rest :- PrintMembers(round64, o, keys[1..]);
    Some(if |keys| == 1 then first else first + "," + rest)
  }

  ghost function PrintMember(round64: real -> Float, o: JSON, key: string): Option<string>
    requires o.Object? && Proper(o) && key in o.fields
    decreases o, 0, 0
  {
    var value :- Print(round64, o.fields[key]);
    Some(Quote(key) + ":" + value)
  }

  class Printer {
    const round64: real -> Float
    var output: string

    constructor (round64: real -> Float)
      ensures this.round64 == round64 && output == ""
    {
      this.round64 := round64;
      output := "";
    }

    /** appendString. */
    method AppendString(value: string)
      modifies this
      ensures output == old(output) + Quote(value)
    {
      hide EscapeChar;
      output := output + "\"";
      ghost var start := output;
      for i := 0 to |value|
        invariant output == start + EscapeText(value[..i])
      {
        assert value[..i + 1][..i] == value[..i];
        output := output + EscapeChar(value[i]);
      }
      assert value[..|value|] == value;
      output := output + "\"";
    }

    /** appendValue; false is an error. */
    method AppendValue(v: JSON) returns (ok: bool)
      requires Proper(v)
      modifies this
      ensures ok == Print(round64, v).Some?
      ensures ok ==> output == old(output) + Print(round64, v).value
      decreases v, 1
    {
      hide EscapeText, N.Canonical, IsNumber, PrintItems, PrintMembers, Increasing;
      match v {
        case Null => output := output + "null";
        case Bool(b) => output := output + if b then "true" else "false";
        case String(s) => AppendString(s);
        case Number(text) =>
          var number := N.CanonicalNumber(round64, text);
          if number.None? {
            return false;
          }
          output := output + number.value;
        case Array(items) =>
          output := output + "[";
          ok := AppendItems(items);
          output := output + "]";
          return;
        case Object(fields) =>
          var keys := SortKeys(fields.Keys);
          IncreasingUnique(keys, Sorted(fields.Keys));
          output := output + "{";
          ok := AppendMembers(v, keys);
          output := output + "}";
          return;
      }
      ok := true;
    }

    method AppendItems(items: seq<JSON>) returns (ok: bool)
      requires forall i | 0 <= i < |items| :: Proper(items[i])
      modifies this
      ensures ok == PrintItems(round64, items).Some?
      ensures ok ==> output == old(output) + PrintItems(round64, items).value
      decreases items, 0
    {
      hide Proper, Print;
      ghost var start := output;
      ghost var done := "";
      NothingToPrint(round64, items);
      for i := 0 to |items|
        invariant output == start + done
        invariant PrintItems(round64, items).Some? == PrintItems(round64, items[i..]).Some?
        invariant PrintItems(round64, items).Some? ==>
          PrintItems(round64, items).value == done + (if 0 < i < |items| then "," else "") + PrintItems(round64, items[i..]).value
      {
        ghost var piece := "";
        if i > 0 {
          output := output + ",";
          piece := ",";
        }
        assert items[i..][1..] == items[i + 1..];
        ok := AppendValue(items[i]);
        if !ok {
          return;
        }
        done := done + piece + Print(round64, items[i]).value;
      }
      ok := true;
    }

    method AppendMember(o: JSON, key: string) returns (ok: bool)
      requires o.Object? && Proper(o) && key in o.fields
      modifies this
      ensures ok == PrintMember(round64, o, key).Some?
      ensures ok ==> output == old(output) + PrintMember(round64, o, key).value
      decreases o, 0, 0
    {
      hide Print, EscapeText;
      AppendString(key);
      output := output + ":";
      ok := AppendValue(o.fields[key]);
    }

    method AppendMembers(o: JSON, keys: seq<string>) returns (ok: bool)
      requires o.Object? && Proper(o) && forall k | k in keys :: k in o.fields
      modifies this
      ensures ok == PrintMembers(round64, o, keys).Some?
      ensures ok ==> output == old(output) + PrintMembers(round64, o, keys).value
      decreases o, 0, 1
    {
      hide Proper, PrintMember;
      ghost var start := output;
      ghost var done := "";
      NothingToPrint(round64, []);
      for i := 0 to |keys|
        invariant output == start + done
        invariant PrintMembers(round64, o, keys).Some? == PrintMembers(round64, o, keys[i..]).Some?
        invariant PrintMembers(round64, o, keys).Some? ==>
          PrintMembers(round64, o, keys).value == done + (if 0 < i < |keys| then "," else "") + PrintMembers(round64, o, keys[i..]).value
      {
        ghost var piece := "";
        if i > 0 {
          output := output + ",";
          piece := ",";
        }
        assert keys[i..][1..] == keys[i + 1..];
        ok := AppendMember(o, keys[i]);
        if !ok {
          return;
        }
        done := done + piece + PrintMember(round64, o, keys[i]).value;
      }
      ok := true;
    }
  }

  lemma {:induction false} NothingToPrint(round64: real -> Float, items: seq<JSON>)
    requires forall i | 0 <= i < |items| :: Proper(items[i])
    ensures PrintItems(round64, []) == Some("") && items[0..] == items
  {}

  lemma {:induction false} FieldIsProper(o: JSON, k: string)
    requires o.Object? && Proper(o) && k in o.fields
    ensures Proper(o.fields[k])
  {}

  // ---------- what canonical text tells ----------

  /** The number a spelling denotes to the printer: its exact value, or zero when it underflows. */
  function Denoted(round64: real -> Float, text: string): real
    requires IsNumber(text)
  {
    if N.Underflows(round64, text) then 0.0 else Exact(text)
  }

  /** Equal up to the spelling of numbers. */
  predicate Same(round64: real -> Float, a: JSON, b: JSON)
    requires Proper(a) && Proper(b)
  {
    match a
    case Null => b.Null?
    case Bool(x) => b == a
    case String(x) => b == a
    case Number(x) => b.Number? && Denoted(round64, x) == Denoted(round64, b.text)
    case Array(items) => b.Array? && |items| == |b.items| && forall i | 0 <= i < |items| :: Same(round64, items[i], b.items[i])
    case Object(fields) => b.Object? && fields.Keys == b.fields.Keys && forall k | k in fields :: Same(round64, fields[k], b.fields[k])
  }

  /** What can follow a value. */
  predicate Ends(s: string) {
    s == "" || s[0] == ',' || s[0] == ']' || s[0] == '}'
  }

  predicate NumberChar(c: char) {
    IsDigit(c) || c == '-' || c == '.'
  }

  lemma {:induction false} NumberChars(t: string)
    requires IsNumber(t) && !HasExponent(t)
    ensures t != "" && forall i | 0 <= i < |t| :: NumberChar(t[i])
  {
    var u := Unsigned(t);
    var m := Mantissa(t);
    assert m == u;
    var i := IndexOf(m, '.', '.');
    assert forall k | 0 <= k < i :: m[k] == IntegerPart(t)[k];
    assert forall k | i < k < |m| :: m[k] == Fraction(t)[k - i - 1];
    assert forall k | 0 <= k < |u| :: NumberChar(u[k]);
    assert forall k | 0 <= k < |t| :: t[k] == if Negative(t) then (if k == 0 then '-' else u[k - 1]) else u[k];
  }

  lemma {:induction false} CanonicalChars(round64: real -> Float, raw: string)
    requires IsNumber(raw) && Lawful(round64) && N.Canonical(round64, raw).Some?
    ensures var t := N.Canonical(round64, raw).value; t != "" && forall i | 0 <= i < |t| :: NumberChar(t[i])
  {
    hide IsNumber, Exact, N.NormalOf, N.Canonical, N.Underflows, N.Normal.Render, NumberChar, Lawful;
    N.CanonicalText(round64, raw);
    N.NormalKeepsValue(raw);
    if Exact(raw) == 0.0 || N.Underflows(round64, raw) {
      ZeroChars();
    } else {
      N.RenderKeepsValue(N.NormalOf(raw));
      NumberChars(N.NormalOf(raw).Render());
    }
  }

  lemma {:induction false} ZeroChars()
    ensures NumberChar("0"[0])
  {}

  /** Two spellings get one text exactly when they denote one number. */
  lemma {:induction false} NumbersApart(round64: real -> Float, a: string, b: string)
    requires IsNumber(a) && IsNumber(b) && Lawful(round64) && N.Canonical(round64, a).Some? && N.Canonical(round64, b).Some?
    ensures N.Canonical(round64, a) == N.Canonical(round64, b) <==> Denoted(round64, a) == Denoted(round64, b)
  {
    hide IsNumber, Exact, N.NormalOf, N.Canonical, N.Underflows, N.Normal.Render, Lawful, N.Normal.Valid, N.Normal.Value;
    N.CanonicalText(round64, a);
    N.CanonicalText(round64, b);
    DenotedText(round64, a);
    DenotedText(round64, b);
    if Denoted(round64, a) == Denoted(round64, b) && Denoted(round64, a) != 0.0 {
      N.NormalKeepsValue(a);
      N.NormalKeepsValue(b);
      N.NormalUnique(N.NormalOf(a), N.NormalOf(b));
    }
  }

  lemma {:induction false} DenotedText(round64: real -> Float, raw: string)
    requires IsNumber(raw) && Lawful(round64) && N.Canonical(round64, raw).Some?
    ensures var t := N.Canonical(round64, raw).value; IsNumber(t) && Exact(t) == Denoted(round64, raw)
  {
    hide IsNumber, Exact, N.NormalOf, N.Canonical, N.Underflows, N.Normal.Render, Lawful;
    N.CanonicalText(round64, raw);
    N.CanonicalKeepsValue(round64, raw);
    N.ZeroText();
  }

  function NumberRun(s: string): nat {
    if s != "" && NumberChar(s[0]) then 1 + NumberRun(s[1..]) else 0
  }

  lemma {:induction false} RunIs(x: string, s: string)
    requires (forall i | 0 <= i < |x| :: NumberChar(x[i])) && Ends(s)
    ensures NumberRun(x + s) == |x|
  {
    if x == "" {
      assert x + s == s;
    } else {
      assert (x + s)[1..] == x[1..] + s;
      RunIs(x[1..], s);
    }
  }

  /** A number ends where its characters end. */
  lemma {:induction false} NumberEnds(x: string, y: string, s: string, t: string)
    requires (forall i | 0 <= i < |x| :: NumberChar(x[i])) && (forall i | 0 <= i < |y| :: NumberChar(y[i]))
    requires x + s == y + t && Ends(s) && Ends(t)
    ensures x == y && s == t
  {
    RunIs(x, s);
    RunIs(y, t);
    SameLength(x, y, s, t);
  }

  lemma {:induction false} SameLength(x: string, y: string, s: string, t: string)
    requires x + s == y + t && |x| == |y|
    ensures x == y && s == t
  {
    assert x == (x + s)[..|x|] && y == (y + t)[..|y|] && s == (x + s)[|x|..] && t == (y + t)[|y|..];
  }

  /** What kind of value a text begins. */
  function Beginning(c: char): nat {
    if c == 'n' then 0 else if c == 't' then 1 else if c == 'f' then 2 else if c == '\"' then 3
    else if NumberChar(c) then 4 else if c == '[' then 5 else if c == '{' then 6 else 7
  }

  function KindOf(v: JSON): nat {
    match v
    case Null => 0
    case Bool(b) => if b then 1 else 2
    case String(_) => 3
    case Number(_) => 4
    case Array(_) => 5
    case Object(_) => 6
  }

  lemma {:induction false} BeginsAs(round64: real -> Float, v: JSON)
    requires Proper(v) && Lawful(round64) && Print(round64, v).Some?
    ensures var t := Print(round64, v).value; t != "" && Beginning(t[0]) == KindOf(v)
  {
    hide EscapeText, PrintItems, PrintMembers, N.Canonical, IsNumber, Lawful;
    if v.Number? {
      CanonicalChars(round64, v.text);
    }
  }

  /** Canonical text is self-delimiting, and tells the value up to the spelling of numbers. */
  lemma {:induction false} Apart(round64: real -> Float, a: JSON, b: JSON, s: string, t: string)
    requires Proper(a) && Proper(b) && Lawful(round64) && Print(round64, a).Some? && Print(round64, b).Some?
    requires Print(round64, a).value + s == Print(round64, b).value + t && Ends(s) && Ends(t)
    ensures Same(round64, a, b) && s == t
    decreases a, 1
  {
    hide EscapeText, PrintItems, PrintMembers, N.Canonical, IsNumber, Lawful, Beginning, Denoted, Proper, Increasing, NumberChar;
    BeginsAs(round64, a);
    BeginsAs(round64, b);
    var x, y := Print(round64, a).value, Print(round64, b).value;
    assert (x + s)[0] == x[0] && (y + t)[0] == y[0];
    assert KindOf(a) == KindOf(b);
    if a.Null? || a.Bool? {
      SameLength(x, y, s, t);
    } else if a.String? {
      assert EscapeText(a.s) + ("\"" + s) == (x + s)[1..] && EscapeText(b.s) + ("\"" + t) == (y + t)[1..];
      TextsApart(a.s, b.s, s, t);
    } else if a.Number? {
      NumberIsProper(a);
      NumberIsProper(b);
      NumberParts(round64, a.text, b.text, s, t);
    } else if a.Array? {
      ArrayParts(a, b);
      var p, q := PrintItems(round64, a.items).value, PrintItems(round64, b.items).value;
      assert p + ("]" + s) == (x + s)[1..] && q + ("]" + t) == (y + t)[1..];
      ItemsApart(round64, a.items, b.items, s, t);
    } else {
      var ks, ls := Sorted(a.fields.Keys), Sorted(b.fields.Keys);
      var p, q := PrintMembers(round64, a, ks).value, PrintMembers(round64, b, ls).value;
      assert p + ("}" + s) == (x + s)[1..] && q + ("}" + t) == (y + t)[1..];
      MembersApart(round64, a, ks, b, ls, s, t);
      SameObjects(round64, a, b, ks);
    }
  }

  lemma {:induction false} NumberParts(round64: real -> Float, a: string, b: string, s: string, t: string)
    requires IsNumber(a) && IsNumber(b) && Lawful(round64) && N.Canonical(round64, a).Some? && N.Canonical(round64, b).Some?
    requires N.Canonical(round64, a).value + s == N.Canonical(round64, b).value + t && Ends(s) && Ends(t)
    ensures Denoted(round64, a) == Denoted(round64, b) && s == t
  {
    hide N.Canonical, IsNumber, Lawful, Denoted, NumberChar;
    CanonicalChars(round64, a);
    CanonicalChars(round64, b);
    NumberEnds(N.Canonical(round64, a).value, N.Canonical(round64, b).value, s, t);
    NumbersApart(round64, a, b);
  }

  lemma {:induction false} NumberIsProper(v: JSON)
    requires v.Number? && Proper(v)
    ensures IsNumber(v.text)
  {}

  lemma {:induction false} ArrayParts(a: JSON, b: JSON)
    requires a.Array? && b.Array? && Proper(a) && Proper(b)
    ensures forall i | 0 <= i < |a.items| :: Proper(a.items[i])
    ensures forall i | 0 <= i < |b.items| :: Proper(b.items[i])
  {}

  lemma {:induction false} SameObjects(round64: real -> Float, a: JSON, b: JSON, keys: seq<string>)
    requires a.Object? && b.Object? && Proper(a) && Proper(b)
    requires (forall x :: x in keys <==> x in a.fields) && (forall x :: x in keys <==> x in b.fields)
    requires forall k | k in keys :: Same(round64, a.fields[k], b.fields[k])
    ensures Same(round64, a, b)
  {
    assert a.fields.Keys == b.fields.Keys;
  }

  /** What is left of a list after its first piece. */
  function Remainder(more: string, last: bool, closing: string, s: string): string {
    if last then closing + s else "," + (more + (closing + s))
  }

  lemma {:induction false} RemaindersApart(more: string, last: bool, others: string, alast: bool, closing: string, s: string, t: string)
    requires closing == "]" || closing == "}"
    requires Remainder(more, last, closing, s) == Remainder(others, alast, closing, t)
    ensures last == alast && if last then s == t else more + (closing + s) == others + (closing + t)
  {
    var x, y := Remainder(more, last, closing, s), Remainder(others, alast, closing, t);
    assert x[0] == (if last then closing[0] else ',') && y[0] == (if alast then closing[0] else ',');
    assert x[1..] == y[1..];
    assert last ==> x[1..] == s;
    assert alast ==> y[1..] == t;
    assert !last ==> x[1..] == more + (closing + s);
    assert !alast ==> y[1..] == others + (closing + t);
  }

  lemma {:induction false} ItemsApart(round64: real -> Float, xs: seq<JSON>, ys: seq<JSON>, s: string, t: string)
    requires (forall i | 0 <= i < |xs| :: Proper(xs[i])) && (forall i | 0 <= i < |ys| :: Proper(ys[i])) && Lawful(round64)
    requires PrintItems(round64, xs).Some? && PrintItems(round64, ys).Some?
    requires PrintItems(round64, xs).value + ("]" + s) == PrintItems(round64, ys).value + ("]" + t)
    ensures |xs| == |ys| && (forall i | 0 <= i < |xs| :: Same(round64, xs[i], ys[i])) && s == t
    decreases xs, 0
  {
    hide Print, PrintItems, Same, Proper, Lawful, Remainder;
    ItemsBegin(round64, xs, s);
    ItemsBegin(round64, ys, t);
    if xs != [] && ys != [] {
      var m, a := FirstItem(round64, xs, s);
      var n, b := FirstItem(round64, ys, t);
      Apart(round64, xs[0], ys[0], a, b);
      RemaindersApart(m, |xs| == 1, n, |ys| == 1, "]", s, t);
      if |xs| > 1 {
        ItemsApart(round64, xs[1..], ys[1..], s, t);
        assert forall i | 0 < i < |xs| :: xs[i] == xs[1..][i - 1] && ys[i] == ys[1..][i - 1];
      }
    }
  }

  lemma {:induction false} FirstItem(round64: real -> Float, xs: seq<JSON>, s: string) returns (more: string, rest: string)
    requires xs != [] && (forall i | 0 <= i < |xs| :: Proper(xs[i])) && PrintItems(round64, xs).Some?
    ensures Print(round64, xs[0]).Some? && (|xs| > 1 ==> PrintItems(round64, xs[1..]) == Some(more))
    ensures rest == Remainder(more, |xs| == 1, "]", s) && Ends(rest)
    ensures Print(round64, xs[0]).value + rest == PrintItems(round64, xs).value + ("]" + s)
  {
    hide Print, Proper;
    more := if |xs| > 1 then PrintItems(round64, xs[1..]).value else "";
    rest := Remainder(more, |xs| == 1, "]", s);
  }

  /** No item begins with a closing bracket. */
  lemma {:induction false} ItemsBegin(round64: real -> Float, xs: seq<JSON>, s: string)
    requires (forall i | 0 <= i < |xs| :: Proper(xs[i])) && Lawful(round64) && PrintItems(round64, xs).Some?
    ensures (PrintItems(round64, xs).value + ("]" + s))[0] == ']' <==> xs == []
    ensures xs == [] ==> (PrintItems(round64, xs).value + ("]" + s))[1..] == s
  {
    hide Print, Proper, Lawful;
    if xs != [] {
      BeginsAs(round64, xs[0]);
      assert (PrintItems(round64, xs).value + ("]" + s))[0] == Print(round64, xs[0]).value[0];
    }
  }

  lemma {:induction false} MembersApart(round64: real -> Float, a: JSON, ks: seq<string>, b: JSON, ls: seq<string>, s: string, t: string)
    requires a.Object? && b.Object? && Proper(a) && Proper(b) && Lawful(round64)
    requires (forall k | k in ks :: k in a.fields) && (forall l | l in ls :: l in b.fields)
    requires PrintMembers(round64, a, ks).Some? && PrintMembers(round64, b, ls).Some?
    requires PrintMembers(round64, a, ks).value + ("}" + s) == PrintMembers(round64, b, ls).value + ("}" + t)
    ensures ks == ls && (forall k | k in ks :: k in b.fields && Same(round64, a.fields[k], b.fields[k])) && s == t
    decreases a, 0, |ks|
  {
    hide Print, PrintMember, PrintMembers, Same, Proper, Lawful, Remainder;
    MembersBegin(round64, a, ks, s);
    MembersBegin(round64, b, ls, t);
    if ks != [] && ls != [] {
      var m, p := FirstMember(round64, a, ks, s);
      var n, q := FirstMember(round64, b, ls, t);
      MemberApart(round64, a, ks[0], b, ls[0], p, q);
      RemaindersApart(m, |ks| == 1, n, |ls| == 1, "}", s, t);
      if |ks| > 1 {
        MembersApart(round64, a, ks[1..], b, ls[1..], s, t);
      }
      assert ks == [ks[0]] + ks[1..] && ls == [ls[0]] + ls[1..];
    }
  }

  lemma {:induction false} FirstMember(round64: real -> Float, a: JSON, ks: seq<string>, s: string) returns (more: string, rest: string)
    requires ks != [] && a.Object? && Proper(a) && (forall k | k in ks :: k in a.fields) && PrintMembers(round64, a, ks).Some?
    ensures PrintMember(round64, a, ks[0]).Some? && (|ks| > 1 ==> PrintMembers(round64, a, ks[1..]) == Some(more))
    ensures rest == Remainder(more, |ks| == 1, "}", s) && Ends(rest)
    ensures PrintMember(round64, a, ks[0]).value + rest == PrintMembers(round64, a, ks).value + ("}" + s)
  {
    hide PrintMember, Proper;
    more := if |ks| > 1 then PrintMembers(round64, a, ks[1..]).value else "";
    rest := Remainder(more, |ks| == 1, "}", s);
  }

  lemma {:induction false} MemberApart(round64: real -> Float, a: JSON, k: string, b: JSON, l: string, s: string, t: string)
    requires a.Object? && b.Object? && Proper(a) && Proper(b) && Lawful(round64) && k in a.fields && l in b.fields
    requires PrintMember(round64, a, k).Some? && PrintMember(round64, b, l).Some?
    requires PrintMember(round64, a, k).value + s == PrintMember(round64, b, l).value + t && Ends(s) && Ends(t)
    ensures k == l && Proper(a.fields[k]) && Proper(b.fields[l]) && Same(round64, a.fields[k], b.fields[l]) && s == t
    decreases a, 0, 0
  {
    hide Print, PrintMember, Same, Lawful, EscapeText, Ends, Proper;
    var x, u := MemberParts(round64, a, k, s);
    var y, w := MemberParts(round64, b, l, t);
    TextsApart(k, l, u, w);
    assert x + s == (":" + (x + s))[1..] && y + t == (":" + (y + t))[1..];
    Apart(round64, a.fields[k], b.fields[l], s, t);
  }

  lemma {:induction false} MemberParts(round64: real -> Float, a: JSON, k: string, s: string) returns (value: string, after: string)
    requires a.Object? && Proper(a) && k in a.fields && PrintMember(round64, a, k).Some?
    ensures Proper(a.fields[k]) && Print(round64, a.fields[k]) == Some(value) && after == ":" + (value + s)
    ensures (PrintMember(round64, a, k).value + s)[1..] == EscapeText(k) + ("\"" + after)
  {
    hide Print, EscapeText;
    FieldIsProper(a, k);
    value := Print(round64, a.fields[k]).value;
    after := ":" + (value + s);
    assert PrintMember(round64, a, k).value + s == Quote(k) + after;
    AfterQuote(Quote(k) + after, k, after);
  }

  lemma {:induction false} AfterQuote(u: string, k: string, more: string)
    requires u == Quote(k) + more
    ensures u[1..] == EscapeText(k) + ("\"" + more)
  {
    hide EscapeText;
  }

  lemma {:induction false} MembersBegin(round64: real -> Float, a: JSON, ks: seq<string>, s: string)
    requires a.Object? && Proper(a) && (forall k | k in ks :: k in a.fields) && PrintMembers(round64, a, ks).Some?
    ensures (PrintMembers(round64, a, ks).value + ("}" + s))[0] == '}' <==> ks == []
    ensures ks == [] ==> (PrintMembers(round64, a, ks).value + ("}" + s))[1..] == s
  {
    hide Print, Proper, EscapeText;
    if ks != [] {
      assert PrintMember(round64, a, ks[0]).value[0] == '\"';
      assert (PrintMembers(round64, a, ks).value + ("}" + s))[0] == PrintMember(round64, a, ks[0]).value[0];
    }
  }

  /** Printing is injective: one text, one value, up to the spelling of numbers. */
  lemma {:induction false} PrintInjective(round64: real -> Float, a: JSON, b: JSON)
    requires Proper(a) && Proper(b) && Lawful(round64) && Print(round64, a).Some? && Print(round64, a) == Print(round64, b)
    ensures Same(round64, a, b)
  {
    hide Print, Same, Proper, Lawful;
    var t := Print(round64, a).value;
    assert t + "" == t;
    Apart(round64, a, b, "", "");
  }

  /** ... and values that differ only in the spelling of numbers have one text. */
  lemma {:induction false} SamePrintsAlike(round64: real -> Float, a: JSON, b: JSON)
    requires Proper(a) && Proper(b) && Lawful(round64) && Print(round64, a).Some? && Print(round64, b).Some? && Same(round64, a, b)
    ensures Print(round64, a) == Print(round64, b)
    decreases a, 1
  {
    hide EscapeText, PrintItems, PrintMembers, N.Canonical, IsNumber, Lawful, Denoted, Increasing;
    match a {
      case Number(x) => NumbersApart(round64, x, b.text);
      case Array(items) => ItemsAlike(round64, items, b.items);
      case Object(fields) =>
        IncreasingUnique(Sorted(fields.Keys), Sorted(b.fields.Keys));
        MembersAlike(round64, a, b, Sorted(fields.Keys));
      case _ =>
    }
  }

  lemma {:induction false} ItemsAlike(round64: real -> Float, xs: seq<JSON>, ys: seq<JSON>)
    requires (forall i | 0 <= i < |xs| :: Proper(xs[i])) && (forall i | 0 <= i < |ys| :: Proper(ys[i])) && Lawful(round64)
    requires PrintItems(round64, xs).Some? && PrintItems(round64, ys).Some?
    requires |xs| == |ys| && forall i | 0 <= i < |xs| :: Same(round64, xs[i], ys[i])
    ensures PrintItems(round64, xs) == PrintItems(round64, ys)
    decreases xs, 0
  {
    hide Print, Same, Proper, Lawful;
    if xs != [] {
      SamePrintsAlike(round64, xs[0], ys[0]);
      ItemsAlike(round64, xs[1..], ys[1..]);
    }
  }

  lemma {:induction false} MembersAlike(round64: real -> Float, a: JSON, b: JSON, keys: seq<string>)
    requires a.Object? && b.Object? && Proper(a) && Proper(b) && Lawful(round64)
    requires (forall k | k in keys :: k in a.fields && k in b.fields && Same(round64, a.fields[k], b.fields[k]))
    requires PrintMembers(round64, a, keys).Some? && PrintMembers(round64, b, keys).Some?
    ensures PrintMembers(round64, a, keys) == PrintMembers(round64, b, keys)
    decreases a, 0, |keys|
  {
    hide Print, Same, Lawful, EscapeText;
    if keys != [] {
      FieldIsProper(a, keys[0]);
      FieldIsProper(b, keys[0]);
      SamePrintsAlike(round64, a.fields[keys[0]], b.fields[keys[0]]);
      MembersAlike(round64, a, b, keys[1..]);
    }
  }

  // ---------- decoding: member order and duplicate keys ----------

  /** A JSON text as the decoder walks it: members in order, keys possibly repeated. */
  datatype Document =
    | DLeaf(leaf: JSON) | DArray(items: seq<Document>) | DObject(members: seq<Member>)

  datatype Member = Member(key: string, value: Document)

  /** decodeValue; none is a repeated key. */
  function Decode(d: Document): Option<JSON>
    decreases d, 1
  {
    match d
    case DLeaf(leaf) => Some(leaf)
    case DArray(items) =>
      var values :- DecodeItems(items);
      Some(Array(values))
    case DObject(members) =>
      var fields :- DecodeMembers(members);
      Some(Object(fields))
  }

  function DecodeItems(items: seq<Document>): Option<seq<JSON>>
    decreases items, 0
  {
    if items == [] then Some([]) else
    var first :- Decode(items[0]);
    var rest :- DecodeItems(items[1..]);
    Some([first] + rest)
  }

  function DecodeMembers(members: seq<Member>): Option<map<string, JSON>>
    decreases members, 0
  {
    if members == [] then Some(map[]) else
    var before :- DecodeMembers(members[..|members| - 1]);
    var last := members[|members| - 1];
    if last.key in before then None else
    var value :- Decode(last.value);
    Some(before[last.key := value])
  }

  predicate KeysDiffer(members: seq<Member>) {
    forall i, j | 0 <= i < j < |members| :: members[i].key != members[j].key
  }

  function KeysOf(members: seq<Member>): set<string> {
    set i | 0 <= i < |members| :: members[i].key
  }

  /** Objects decode exactly when no key is repeated and every member decodes, to those members. */
  lemma {:induction false} DecodeMembersMeaning(members: seq<Member>)
    ensures DecodeMembers(members).Some? <==> KeysDiffer(members) && forall i | 0 <= i < |members| :: Decode(members[i].value).Some?
    ensures DecodeMembers(members).Some? ==>
      var fields := DecodeMembers(members).value;
      fields.Keys == KeysOf(members) &&
      forall i | 0 <= i < |members| :: members[i].key in fields && Decode(members[i].value) == Some(fields[members[i].key])
  {
    hide Decode;
    if members != [] {
      var front, last := members[..|members| - 1], members[|members| - 1];
      DecodeMembersMeaning(front);
      assert members == front + [last];
      KeysSnoc(front, last);
    }
  }

  lemma {:induction false} KeysSnoc(front: seq<Member>, last: Member)
    ensures KeysOf(front + [last]) == KeysOf(front) + {last.key}
    ensures KeysDiffer(front + [last]) <==> KeysDiffer(front) && last.key !in KeysOf(front)
  {
    var all := front + [last];
    assert forall i | 0 <= i < |front| :: all[i] == front[i];
    assert all[|front|] == last;
    forall k | k in KeysOf(front) + {last.key} ensures k in KeysOf(all) {
      if k in KeysOf(front) {
        var i :| 0 <= i < |front| && front[i].key == k;
        assert all[i].key == k;
      }
    }
    if KeysDiffer(all) {
      assert forall i | 0 <= i < |front| :: all[i].key != all[|front|].key;
    }
  }

  /** Keys differ exactly when there are as many as members. */
  lemma {:induction false} KeysCounted(members: seq<Member>)
    ensures |KeysOf(members)| <= |members|
    ensures KeysDiffer(members) <==> |KeysOf(members)| == |members|
  {
    if members != [] {
      var front, last := members[..|members| - 1], members[|members| - 1];
      KeysCounted(front);
      assert members == front + [last];
      KeysSnoc(front, last);
      if last.key in KeysOf(front) {
        assert KeysOf(front) + {last.key} == KeysOf(front);
      }
    }
  }

  /** The same document with members of objects in any other order. */
  predicate Reordered(d: Document, e: Document)
    decreases d
  {
    match d
    case DLeaf(leaf) => e == d
    case DArray(items) => e.DArray? && |items| == |e.items| && forall i | 0 <= i < |items| :: Reordered(items[i], e.items[i])
    case DObject(members) =>
      && e.DObject? && |members| == |e.members| && KeysOf(members) == KeysOf(e.members)
      && forall i, j | 0 <= i < |members| && 0 <= j < |e.members| && members[i].key == e.members[j].key ::
           Reordered(members[i].value, e.members[j].value)
  }

  /** The order of members cannot be seen in what is decoded, nor in what is printed of it. */
  lemma {:induction false} OrderIsInvisible(d: Document, e: Document)
    requires Reordered(d, e)
    ensures Decode(d) == Decode(e)
    decreases d, 1
  {
    match d {
      case DLeaf(leaf) =>
      case DArray(items) => ItemsReordered(items, e.items);
      case DObject(members) => MembersReordered(d, e);
    }
  }

  lemma {:induction false} ItemsReordered(xs: seq<Document>, ys: seq<Document>)
    requires |xs| == |ys| && forall i | 0 <= i < |xs| :: Reordered(xs[i], ys[i])
    ensures DecodeItems(xs) == DecodeItems(ys)
    decreases xs, 0
  {
    if xs != [] {
      OrderIsInvisible(xs[0], ys[0]);
      ItemsReordered(xs[1..], ys[1..]);
    }
  }

  lemma {:induction false} MembersReordered(d: Document, e: Document)
    requires d.DObject? && Reordered(d, e)
    ensures DecodeMembers(d.members) == DecodeMembers(e.members)
    decreases d, 0
  {
    var xs, ys := d.members, e.members;
    forall i, j | 0 <= i < |xs| && 0 <= j < |ys| && xs[i].key == ys[j].key ensures Decode(xs[i].value) == Decode(ys[j].value) {
      OrderIsInvisible(xs[i].value, ys[j].value);
    }
    SameMembers(xs, ys);
  }

  lemma {:induction false} SameMembers(xs: seq<Member>, ys: seq<Member>)
    requires |xs| == |ys| && KeysOf(xs) == KeysOf(ys)
    requires forall i, j | 0 <= i < |xs| && 0 <= j < |ys| && xs[i].key == ys[j].key :: Decode(xs[i].value) == Decode(ys[j].value)
    ensures DecodeMembers(xs) == DecodeMembers(ys)
  {
    hide Decode, DecodeMembers, KeysOf;
    if DecodeMembers(xs).Some? {
      MembersInto(xs, ys);
    }
    if DecodeMembers(ys).Some? {
      MembersInto(ys, xs);
    }
    if DecodeMembers(xs).Some? {
      assert DecodeMembers(xs).value == DecodeMembers(ys).value;
    }
  }

  lemma {:induction false} MembersInto(xs: seq<Member>, ys: seq<Member>)
    requires |xs| == |ys| && KeysOf(xs) == KeysOf(ys) && DecodeMembers(xs).Some?
    requires forall i, j | 0 <= i < |xs| && 0 <= j < |ys| && xs[i].key == ys[j].key :: Decode(xs[i].value) == Decode(ys[j].value)
    ensures DecodeMembers(ys).Some?
    ensures forall k | k in DecodeMembers(xs).value :: k in DecodeMembers(ys).value && DecodeMembers(xs).value[k] == DecodeMembers(ys).value[k]
  {
    hide Decode, DecodeMembers, KeysDiffer;
    DecodeMembersMeaning(xs);
    DecodeMembersMeaning(ys);
    KeysCounted(xs);
    KeysCounted(ys);
    forall j | 0 <= j < |ys| ensures Decode(ys[j].value).Some? {
      assert ys[j].key in KeysOf(xs);
      var i :| 0 <= i < |xs| && xs[i].key == ys[j].key;
    }
    forall k | k in DecodeMembers(xs).value ensures k in DecodeMembers(ys).value && DecodeMembers(xs).value[k] == DecodeMembers(ys).value[k] {
      var i :| 0 <= i < |xs| && xs[i].key == k;
      var j :| 0 <= j < |ys| && ys[j].key == k;
    }
  }

  // ---------- the TypeScript key order ----------

  /** compareCodePoints: negative, zero or positive as the first text comes before, with or after the
      second in the order Go sorts UTF-8 texts in. */
  method CompareCodePoints(left: string, right: string) returns (order: int)
    ensures order < 0 <==> Less(Encode(left), Encode(right))
    ensures order > 0 <==> Less(Encode(right), Encode(left))
    ensures order == 0 <==> left == right
  {
    hide Less, CodePoints, Encode;
    BeforeIsByteOrder(left, right);
    BeforeIsByteOrder(right, left);
    var length := if |left| < |right| then |left| else |right|;
    for i := 0 to length
      invariant left[..i] == right[..i]
    {
      if left[i] != right[i] {
        DiffersAt(left, right, i);
        return left[i] as int - right[i] as int;
      }
      assert left[..i + 1] == left[..i] + [left[i]] && right[..i + 1] == right[..i] + [right[i]];
    }
    OneIsPrefix(left, right, length);
    return |left| - |right|;
  }

  lemma {:induction false} DiffersAt(left: string, right: string, i: nat)
    requires i < |left| && i < |right| && left[..i] == right[..i] && left[i] != right[i]
    ensures (left[i] < right[i] <==> Before(left, right)) && (left[i] > right[i] <==> Before(right, left)) && left != right
  {
    var a, b := CodePoints(left), CodePoints(right);
    assert forall k | 0 <= k < i :: left[..i][k] == right[..i][k];
    assert a[..i] == b[..i];
    LessAt(a, b, i);
    LessAt(b, a, i);
  }

  lemma {:induction false} OneIsPrefix(left: string, right: string, length: nat)
    requires length == (if |left| < |right| then |left| else |right|) && left[..length] == right[..length]
    ensures (|left| < |right| <==> Before(left, right)) && (|left| > |right| <==> Before(right, left)) && (|left| == |right| <==> left == right)
  {
    var a, b := CodePoints(left), CodePoints(right);
    assert forall k | 0 <= k < length :: left[..length][k] == right[..length][k];
    assert left == left[..length] + left[length..] && right == right[..length] + right[length..];
    assert a == a[..length] + a[length..] && b == b[..length] + b[length..] && a[..length] == b[..length];
    LessAfter(a[..length], a[length..], b[length..]);
    LessAfter(a[..length], b[length..], a[length..]);
  }
}
