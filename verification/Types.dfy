/** The type language of internal/typesys/type.go. */
module Types {
  import opened Options

  datatype Type =
    | Primitive(name: string)
    | Array(element: Type)
    | Nullable(inner: Type)

  predicate IsIntegerName(name: string) {
    name == "int" ||
    name == "u8" || name == "u16" || name == "u32" || name == "u64" ||
    name == "i8" || name == "i16" || name == "i32" || name == "i64"
  }

  predicate IsFloatName(name: string) {
    name == "float" || name == "f32" || name == "f64"
  }

  predicate IsPrimitiveName(name: string) {
    IsIntegerName(name) || IsFloatName(name) ||
    name == "string" || name == "bool" || name == "object" || name == "unknown"
  }

  const STRING := Primitive("string")
  const UNKNOWN := Primitive("unknown")

  /** The types the language has: known primitives, and no nullable of a nullable. */
  predicate WellFormed(t: Type) {
    match t
    case Primitive(name) => IsPrimitiveName(name)
    case Array(element) => WellFormed(element)
    case Nullable(inner) => !inner.Nullable? && WellFormed(inner)
  }

  function LiftNullable(t: Type): (r: Type)
    ensures r.Nullable?
    ensures WellFormed(t) ==> WellFormed(r)
  {
    if t.Nullable? then t else Nullable(t)
  }

  predicate IsNumeric(t: Type) {
    t.Primitive? && (IsIntegerName(t.name) || IsFloatName(t.name))
  }

  predicate IsInteger(t: Type) {
    t.Primitive? && IsIntegerName(t.name)
  }

  predicate IsScalar(t: Type) {
    if t.Nullable? then IsScalar(t.inner) else t.Primitive? && t.name != "object" && t.name != "unknown"
  }

  predicate IsAssignable(from: Type, to: Type) {
    if from == to then true
    else if to == UNKNOWN then true
    else if to.Nullable? then
      if from.Nullable? then IsAssignable(from.inner, to.inner) else IsAssignable(from, to.inner)
    else if from.Array? && to.Array? then IsAssignable(from.element, to.element)
    else false
  }

  lemma {:induction false} AssignableTransitive(a: Type, b: Type, c: Type)
    requires IsAssignable(a, b) && IsAssignable(b, c)
    ensures IsAssignable(a, c)
    decreases a, b, c
  {
    if a == b || b == c || a == c || c == UNKNOWN {
    } else if b == UNKNOWN {
      UnknownReaches(a, c);
    } else if c.Nullable? {
      if a.Nullable? {
        AssignableTransitive(a.inner, b.inner, c.inner);
      } else if b.Nullable? {
        AssignableTransitive(a, b.inner, c.inner);
      } else {
        AssignableTransitive(a, b, c.inner);
      }
    } else {
      AssignableTransitive(a.element, b.element, c.element);
    }
  }

  /** Whatever `unknown` can be assigned to accepts every type. */
  lemma {:induction false} UnknownReaches(a: Type, c: Type)
    requires IsAssignable(UNKNOWN, c)
    ensures IsAssignable(a, c)
    decreases c
  {
    if c.Nullable? {
      UnknownReaches(if a.Nullable? then a.inner else a, c.inner);
    }
  }

  /** `t.String()`. */
  function Show(t: Type): (s: string)
  {
    match t
    case Primitive(name) => name
    case Array(element) => Show(element) + "[]"
    case Nullable(inner) => Show(inner) + "?"
  }

  // ---------- the parser ----------

  predicate IsNameChar(c: char) {
    'a' <= c <= 'z' || '0' <= c <= '9'
  }

  /** unicode.IsSpace, which strings.TrimSpace removes at both ends. */
  predicate IsUnicodeSpace(c: char) {
    c in ['\t', '\n', '\U{000b}', '\U{000c}', '\r', ' ', '\U{0085}', '\U{00a0}', '\U{1680}', '\U{2028}', '\U{2029}', '\U{202f}', '\U{205f}', '\U{3000}'] ||
    '\U{2000}' <= c <= '\U{200a}'
  }

  function TrimLeft(s: string): string {
    if s != [] && IsUnicodeSpace(s[0]) then TrimLeft(s[1..]) else s
  }

  function TrimSpace(s: string): string {
    TrimRight(TrimLeft(s))
  }

  function TrimRight(s: string): string {
    if s != [] && IsUnicodeSpace(s[|s| - 1]) then TrimRight(s[..|s| - 1]) else s
  }

  function AfterSpace(s: string, i: nat): (j: nat)
    requires i <= |s|
    ensures i <= j <= |s|
    ensures j < |s| ==> s[j] != ' ' && s[j] != '\t'
    decreases |s| - i
  {
    if i < |s| && (s[i] == ' ' || s[i] == '\t') then AfterSpace(s, i + 1) else i
  }

  function AfterName(s: string, i: nat): (j: nat)
    requires i <= |s|
    ensures i <= j <= |s|
    decreases |s| - i
  {
    if i < |s| && IsNameChar(s[i]) then AfterName(s, i + 1) else i
  }

  /** One type expression starting at `i`, and where it ends. */
  function TypeAt(s: string, i: nat): (r: Option<(Type, nat)>)
    requires i <= |s|
    ensures r.Some? ==> i <= r.value.1 <= |s| && WellFormed(r.value.0)
    decreases |s| - i, 2
  {
    var head :- HeadAt(s, AfterSpace(s, i));
    SuffixesAt(s, head.1, head.0)
  }

  /** A parenthesised type or a primitive name. */
  function HeadAt(s: string, i: nat): (r: Option<(Type, nat)>)
    requires i <= |s|
    ensures r.Some? ==> i <= r.value.1 <= |s| && WellFormed(r.value.0)
    decreases |s| - i, 1
  {
    if i < |s| && s[i] == '(' then
      var inner :- TypeAt(s, i + 1);
      var close := AfterSpace(s, inner.1);
      if close < |s| && s[close] == ')' then Some((inner.0, close + 1)) else None
    else
      var end := AfterName(s, i);
      if IsPrimitiveName(s[i..end]) then Some((Primitive(s[i..end]), end)) else None
  }

  function SuffixesAt(s: string, i: nat, t: Type): (r: Option<(Type, nat)>)
    requires i <= |s| && WellFormed(t)
    ensures r.Some? ==> i <= r.value.1 <= |s| && WellFormed(r.value.0)
    decreases |s| - i, 0
  {
    var j := AfterSpace(s, i);
    if j + 1 < |s| && s[j] == '[' && s[j + 1] == ']' then SuffixesAt(s, j + 2, Array(t))
    else if j < |s| && s[j] == '?' then
      if t.Nullable? then None else SuffixesAt(s, j + 1, Nullable(t))
    else Some((t, j))
  }

  /** typesys.Parse: the whole trimmed input must be one type. */
  function Parse(input: string): (r: Option<Type>)
    ensures r.Some? ==> WellFormed(r.value)
  {
    var s := TrimSpace(input);
    var parsed :- TypeAt(s, 0);
    if AfterSpace(s, parsed.1) == |s| then Some(parsed.0) else None
  }

  /** The cursor-driven parser itself. */
  class TypeParser {
    const s: string
    var i: nat

    ghost predicate Valid()
      reads this
    {
      i <= |s|
    }

    constructor (s: string)
      ensures Valid() && this.s == s && i == 0
    {
      this.s, i := s, 0;
    }

    method SkipSpace()
      requires Valid()
      modifies this
      ensures Valid() && i == AfterSpace(s, old(i))
    {
      while i < |s| && (s[i] == ' ' || s[i] == '\t')
        invariant Valid() && AfterSpace(s, i) == AfterSpace(s, old(i))
        decreases |s| - i
      {
        i := i + 1;
      }
    }

    method ParseType() returns (r: Option<Type>)
      requires Valid()
      modifies this
      ensures Valid() && old(i) <= i
      ensures r.Some? == TypeAt(s, old(i)).Some?
      ensures r.Some? ==> (r.value, i) == TypeAt(s, old(i)).value
      decreases |s| - i, 2
    {
      hide IsPrimitiveName;
      SkipSpace();
      var head := ParseHead();
      if head.None? {
        return None;
      }
      var t := head.value;
      ghost var start := i;
      while true
        invariant Valid() && start <= i && WellFormed(t)
        invariant SuffixesAt(s, start, head.value) == SuffixesAt(s, i, t)
        decreases |s| - i
      {
        SkipSpace();
        if i + 1 < |s| && s[i] == '[' && s[i + 1] == ']' {
          i := i + 2;
          t := Array(t);
        } else if i < |s| && s[i] == '?' {
          if t.Nullable? {
            return None;
          }
          i := i + 1;
          t := LiftNullable(t);
        } else {
          return Some(t);
        }
      }
    }

    method ParseHead() returns (r: Option<Type>)
      requires Valid()
      modifies this
      ensures Valid() && old(i) <= i
      ensures r.Some? == HeadAt(s, old(i)).Some?
      ensures r.Some? ==> (r.value, i) == HeadAt(s, old(i)).value
      decreases |s| - i, 1
    {
      hide IsPrimitiveName;
      if i < |s| && s[i] == '(' {
        i := i + 1;
        var inner := ParseType();
        if inner.None? {
          return None;
        }
        SkipSpace();
        if i >= |s| || s[i] != ')' {
          return None;
        }
        i := i + 1;
        return inner;
      }
      var start := i;
      while i < |s| && IsNameChar(s[i])
        invariant start <= i <= |s| && AfterName(s, i) == AfterName(s, start)
        decreases |s| - i
      {
        i := i + 1;
      }
      if !IsPrimitiveName(s[start..i]) {
        return None;
      }
      return Some(Primitive(s[start..i]));
    }
  }

  method ParseText(input: string) returns (r: Option<Type>)
    ensures r == Parse(input)
  {
    var p := new TypeParser(TrimSpace(input));
    var t := p.ParseType();
    if t.None? {
      return None;
    }
    p.SkipSpace();
    if p.i != |p.s| {
      return None;
    }
    return t;
  }

  // ---------- printing and parsing are inverse ----------

  lemma {:induction false} PrimitiveNameChars(name: string)
    requires IsPrimitiveName(name)
    ensures name != [] && forall k | 0 <= k < |name| :: IsNameChar(name[k])
  {
    assert |name| > 1;
  }

  lemma {:induction false} ShowNonEmpty(t: Type)
    requires WellFormed(t)
    ensures |Show(t)| > 0 && IsNameChar(Show(t)[0])
    ensures var c := Show(t)[|Show(t)| - 1]; IsNameChar(c) || c == ']' || c == '?'
  {
    hide IsPrimitiveName;
    match t {
      case Primitive(name) => PrimitiveNameChars(name);
      case Array(element) => ShowNonEmpty(element);
      case Nullable(inner) => ShowNonEmpty(inner);
    }
  }

  lemma {:induction false} NameEnds(s: string, i: nat, end: nat)
    requires i <= end <= |s|
    requires forall k | i <= k < end :: IsNameChar(s[k])
    requires end < |s| ==> !IsNameChar(s[end])
    ensures AfterName(s, i) == end
    decreases end - i
  {
    if i < end {
      NameEnds(s, i + 1, end);
    }
  }

  /** The text of `t` is read as `t`, and reading goes on after it. */
  lemma {:induction false} TypeAtShow(t: Type, rest: string)
    requires WellFormed(t)
    requires rest != [] ==> !IsNameChar(rest[0])
    ensures var s := Show(t) + rest; TypeAt(s, 0) == SuffixesAt(s, |Show(t)|, t)
    decreases t
  {
    hide IsPrimitiveName, TypeAt, SuffixesAt;
    match t {
      case Primitive(name) => NameAtStart(name, rest);
      case Array(element) =>
        assert Show(t) + rest == Show(element) + ("[]" + rest);
        TypeAtShow(element, "[]" + rest);
        SuffixStep(Show(element), rest, element);
      case Nullable(inner) =>
        assert Show(t) + rest == Show(inner) + ("?" + rest);
        TypeAtShow(inner, "?" + rest);
        SuffixStep(Show(inner), rest, inner);
    }
  }

  lemma {:induction false} NameAtStart(name: string, rest: string)
    requires IsPrimitiveName(name)
    requires rest != [] ==> !IsNameChar(rest[0])
    ensures var s := name + rest; TypeAt(s, 0) == SuffixesAt(s, |name|, Primitive(name))
  {
    hide IsPrimitiveName;
    var s := name + rest;
    PrimitiveNameChars(name);
    NameEnds(s, 0, |name|);
    assert s[0..|name|] == name;
  }

  lemma {:induction false} SuffixStep(front: string, rest: string, t: Type)
    requires WellFormed(t)
    ensures var s := front + ("[]" + rest); SuffixesAt(s, |front|, t) == SuffixesAt(s, |front| + 2, Array(t))
    ensures !t.Nullable? ==>
      var s := front + ("?" + rest); SuffixesAt(s, |front|, t) == SuffixesAt(s, |front| + 1, Nullable(t))
  {
    hide IsPrimitiveName;
    var k := |front|;
    var s := front + ("[]" + rest);
    assert s[k] == '[' && s[k + 1] == ']';
    var q := front + ("?" + rest);
    assert q[k] == '?';
  }

  /** Every type of the language survives being written and parsed again. */
  lemma {:induction false} ParseShow(t: Type)
    requires WellFormed(t)
    ensures Parse(Show(t)) == Some(t)
  {
    hide IsPrimitiveName, Show, WellFormed, TypeAt;
    var s := Show(t);
    assert TrimSpace(s) == s by {
      ShowNonEmpty(t);
      assert !IsUnicodeSpace(s[0]) && !IsUnicodeSpace(s[|s| - 1]);
    }
    TypeAtShow(t, "");
    assert s + "" == s;
  }

  /** validRuntimeType. */
  predicate ValidRuntimeType(t: Type) {
    Parse(Show(t)) == Some(t)
  }

  /** The executor's re-parsing test accepts exactly the types of the language. */
  lemma {:induction false} ValidRuntimeTypeIff(t: Type)
    ensures ValidRuntimeType(t) <==> WellFormed(t)
  {
    if WellFormed(t) {
      ParseShow(t);
    }
  }
}
