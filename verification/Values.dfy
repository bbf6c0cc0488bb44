/** Go values as the executor sees them: internal/executor/executor.go and browser.go. */
module Values {
  import opened Options
  import opened Types
  import opened Floats
  import Decimal

  /** The Go integer types. */
  datatype IntKind = GoInt | I8 | I16 | I32 | I64 | GoUint | U8 | U16 | U32 | U64

  /** A value held in Go's `any`. `Strings` is []string, `List` is []any, `Foreign` is
      everything the executor's type switches do not mention. */
  datatype Value =
    | Null
    | Bool(b: bool)
    | Str(s: string)
    | Int(kind: IntKind, n: int)
    | F32(f: Float)
    | F64(f: Float)
    | Number(text: string)
    | Strings(strings: seq<string>)
    | List(items: seq<Value>)
    | Object(fields: map<string, Value>)
    | Foreign

  /** A json.RawMessage in the IR: what decodeJSON makes of it. */
  datatype Raw = Malformed | Decoded(value: Value)

  /** Library functions the executor relies on and this model does not define: rounding to a
      binary format, the float texts of strconv ('g', -1), of fmt ("%g") and of json.Marshal, and
      strconv.ParseFloat (with a flag for single precision), case mapping, the regular-expression and URL
      built-ins by name, comparison after rounding to 256 bits, and the registered external
      transforms. */
  datatype Host = Host(
    round64: real -> Float,
    round32: real -> Float,
    shortest: (bool, real) -> string,
    display: (bool, real) -> string,
    jsonFloat: real -> string,
    parseFloat: (bool, string) -> Option<Float>,
    lower: string -> string,
    upper: string -> string,
    text: (string, string, map<string, Raw>) -> Option<string>,
    nullableText: (string, string, map<string, Raw>) -> Option<Option<string>>,
    compareRounded: (string, string) -> Option<int>,
    external: (string, Value) -> Option<Value>)
  {
    /** A real that is a binary64 number. */
    predicate Representable(r: real) {
      round64(r) == Finite(r)
    }

    /** What is assumed: rounding behaves, json.Marshal writes a float as a number that reads back
        as that float, and "%g" tells floats apart. */
    ghost predicate Lawful() {
      && Floats.Lawful(round64) && Floats.Lawful(round32)
      && (forall r: real :: Representable(r) ==>
            Decimal.IsNumber(jsonFloat(r)) && round64(Decimal.Exact(jsonFloat(r))) == Finite(r))
      && (forall a: real, b: real :: Representable(a) && Representable(b) && display(false, a) == display(false, b) ==> a == b)
    }
  }

  /** json.Number.Float64 together with the syntax check of json.Marshal. */
  function NumberFloat(h: Host, text: string): Option<Float> {
    if Decimal.IsNumber(text) && h.round64(Decimal.Exact(text)).Finite? then Some(h.round64(Decimal.Exact(text))) else None
  }

  predicate IsJSON(h: Host, v: Value) {
    match v
    case Number(text) => NumberFloat(h, text).Some?
    case F32(f) => f.Finite?
    case F64(f) => f.Finite?
    case List(items) => forall i | 0 <= i < |items| :: IsJSON(h, items[i])
    case Object(fields) => forall k | k in fields :: IsJSON(h, fields[k])
    case Foreign => false
    case _ => true
  }

  function KindOf(name: string): Option<IntKind> {
    match name
    case "int" => Some(I64)
    case "i64" => Some(I64)
    case "i8" => Some(I8)
    case "i16" => Some(I16)
    case "i32" => Some(I32)
    case "u8" => Some(U8)
    case "u16" => Some(U16)
    case "u32" => Some(U32)
    case "u64" => Some(U64)
    case _ => None
  }

  predicate MatchesPrimitive(h: Host, v: Value, name: string) {
    match name
    case "unknown" => IsJSON(h, v)
    case "object" => v.Object?
    case "string" => v.Str?
    case "bool" => v.Bool?
    case "f32" => v.F32? && v.f.Finite?
    case "float" => v.F64? && v.f.Finite?
    case "f64" => v.F64? && v.f.Finite?
    case _ => v.Int? && KindOf(name) == Some(v.kind)
  }

  /** matchesRuntimeType. */
  predicate Matches(h: Host, v: Value, t: Type)
    decreases t
  {
    match t
    case Nullable(inner) => v == Null || Matches(h, v, inner)
    case Array(element) =>
      (v.Strings? && forall i | 0 <= i < |v.strings| :: Matches(h, Str(v.strings[i]), element)) ||
      (v.List? && forall i | 0 <= i < |v.items| :: Matches(h, v.items[i], element))
    case Primitive(name) =>
      if v == Null then name == "unknown" else MatchesPrimitive(h, v, name)
  }

  // ---------- assignability and run-time matching ----------

  /** A JSON-compatible value of a type is a value of everything that type is assignable to. */
  lemma {:induction false} MatchesAssignable(h: Host, v: Value, a: Type, b: Type)
    requires IsJSON(h, v) && Matches(h, v, a) && IsAssignable(a, b)
    ensures Matches(h, v, b)
    decreases b, a
  {
    if a == b || b == UNKNOWN {
    } else if b.Nullable? {
      if v != Null {
        MatchesAssignable(h, v, if a.Nullable? then a.inner else a, b.inner);
      } 
    } else {
      if v.Strings? {
        forall i | 0 <= i < |v.strings| ensures Matches(h, Str(v.strings[i]), b.element) {
          MatchesAssignable(h, Str(v.strings[i]), a.element, b.element);
        }
      } else {
        forall i | 0 <= i < |v.items| ensures Matches(h, v.items[i], b.element) {
          MatchesAssignable(h, v.items[i], a.element, b.element);
        }
      }
    }
  }

  /** The types with one name each: `i64` is `int` and `f64` is `float`. */
  predicate OneName(t: Type) {
    match t
    case Nullable(inner) => OneName(inner)
    case Array(element) => OneName(element)
    case Primitive(name) => name != "i64" && name != "f64"
  }

  /** A value of a primitive type, and of no other but `unknown`. */
  function Sample(name: string): Value {
    if name == "object" then Object(map[])
    else if name == "string" then Str("")
    else if name == "bool" then Bool(true)
    else if name == "f32" then F32(Finite(0.0))
    else if name == "float" then F64(Finite(0.0))
    else match KindOf(name) case Some(kind) => Int(kind, 0) case None => Str("")
  }

  /** A value of the one type that is not one of the other, when the one cannot be assigned to the other. */
  function Apart(a: Type, b: Type): Value
    decreases a, b
  {
    if b.Nullable? then (if a.Nullable? then Apart(a.inner, b.inner) else Apart(a, b.inner))
    else if a.Nullable? then Null
    else if a.Array? then (if b.Array? then List([Apart(a.element, b.element)]) else List([]))
    else if a == UNKNOWN then (if b == STRING then Bool(true) else Str(""))
    else Sample(a.name)
  }

  lemma {:induction false} ApartIsApart(h: Host, a: Type, b: Type)
    requires h.Lawful() && WellFormed(a) && WellFormed(b) && OneName(a) && OneName(b) && !IsAssignable(a, b)
    ensures var v := Apart(a, b); IsJSON(h, v) && Matches(h, v, a) && !Matches(h, v, b) && (!a.Nullable? ==> v != Null)
    decreases a, b
  {
    hide Host.Lawful, KindOf;
    if b.Nullable? {
      ApartIsApart(h, if a.Nullable? then a.inner else a, b.inner);
    } else if a.Array? && b.Array? {
      ApartIsApart(h, a.element, b.element);
      OneItem(h, Apart(a.element, b.element), a.element);
      OneItem(h, Apart(a.element, b.element), b.element);
    } else if a.Primitive? && a != UNKNOWN {
      SampleIsOfType(h, a.name, b);
    }
  }

  lemma {:induction false} OneItem(h: Host, v: Value, t: Type)
    ensures Matches(h, List([v]), Array(t)) <==> Matches(h, v, t)
    ensures IsJSON(h, List([v])) <==> IsJSON(h, v)
  {
    assert List([v]).items[0] == v;
  }

  lemma {:induction false} SampleIsOfType(h: Host, name: string, b: Type)
    requires IsPrimitiveName(name) && name != "unknown" && OneName(Primitive(name)) && OneName(b) && !b.Nullable? && b != Primitive(name) && b != UNKNOWN
    ensures var v := Sample(name); IsJSON(h, v) && Matches(h, v, Primitive(name)) && !Matches(h, v, b) && v != Null
  {}

  /** Assignability is inclusion: a type can be assigned to another exactly when all its values are
      values of the other. */
  lemma {:induction false} AssignableIffIncluded(h: Host, a: Type, b: Type)
    requires h.Lawful() && WellFormed(a) && WellFormed(b) && OneName(a) && OneName(b)
    ensures IsAssignable(a, b) <==> forall v | IsJSON(h, v) && Matches(h, v, a) :: Matches(h, v, b)
  {
    hide Host.Lawful, Matches, IsJSON, Apart, IsAssignable;
    if IsAssignable(a, b) {
      forall v | IsJSON(h, v) && Matches(h, v, a) ensures Matches(h, v, b) {
        MatchesAssignable(h, v, a, b);
      }
    } else {
      ApartIsApart(h, a, b);
    }
  }

  /** The type checker and the run-time test agree on a value exactly when it is JSON-compatible:
      otherwise assigning it to `unknown` is accepted by one and refused by the other. */
  lemma {:induction false} AssignabilityIsSoundIffJSON(h: Host, v: Value, a: Type)
    requires Matches(h, v, a)
    ensures (forall b: Type | IsAssignable(a, b) :: Matches(h, v, b)) <==> IsJSON(h, v)
  {
    if IsJSON(h, v) {
      forall b: Type | IsAssignable(a, b) ensures Matches(h, v, b) {
        MatchesAssignable(h, v, a, b);
      }
    } else {
      assert IsAssignable(a, UNKNOWN) && !Matches(h, v, UNKNOWN);
    }
  }

  /** A map holding a value that is not JSON is an `object` but not an `unknown`. */
  lemma {:induction false} ObjectIsNotAlwaysUnknown(h: Host)
    ensures var v := Object(map["k" := Foreign]);
      Matches(h, v, Primitive("object")) && IsAssignable(Primitive("object"), UNKNOWN) && !Matches(h, v, UNKNOWN)
  {
    var v := Object(map["k" := Foreign]);
    assert "k" in v.fields && !IsJSON(h, v.fields["k"]);
  }

  // ---------- normalisation ----------

  /** The integer a JSON value denotes exactly, if any: jsonInteger. */
  function JSONInteger(h: Host, v: Value): Option<int> {
    match v
    case Int(_, n) => Some(n)
    case F32(f) => if f.Finite? then IntegerOfText(h.shortest(true, f.value)) else None
    case F64(f) => if f.Finite? then IntegerOfText(h.shortest(false, f.value)) else None
    case Number(text) => IntegerOfText(text)
    case _ => None
  }

  /** integerFromDecimal: the exact decimal, when it is an integer. */
  function IntegerOfText(text: string): Option<int> {
    if !Decimal.IsNumber(text) then None
    else
      var r := Decimal.Exact(text);
      if r.Floor as real == r then Some(r.Floor) else None
  }

  predicate InRange(kind: IntKind, n: int) {
    match kind
    case I8 => -0x80 <= n < 0x80
    case I16 => -0x8000 <= n < 0x8000
    case I32 => -0x8000_0000 <= n < 0x8000_0000
    case U8 => 0 <= n < 0x100
    case U16 => 0 <= n < 0x1_0000
    case U32 => 0 <= n < 0x1_0000_0000
    case U64 => 0 <= n < 0x1_0000_0000_0000_0000
    case GoUint => 0 <= n < 0x1_0000_0000_0000_0000
    case _ => -0x8000_0000_0000_0000 <= n < 0x8000_0000_0000_0000
  }

  function NormalizeInteger(h: Host, v: Value, kind: IntKind): Option<Value> {
    match JSONInteger(h, v)
    case None => None
    case Some(n) => if InRange(kind, n) then Some(Int(kind, n)) else None
  }

  /** The float64 conversion at the head of normalizeJSONFloat. */
  function ToFloat64(h: Host, v: Value): Option<Float> {
    match v
    case Int(_, n) => Some(h.round64(n as real))
    case F32(f) => Some(f)
    case F64(f) => Some(f)
    case Number(text) => NumberFloat(h, text)
    case _ => None
  }

  function NormalizeFloat(h: Host, v: Value, single: bool): Option<Value> {
    var converted :- ToFloat64(h, v);
    if !converted.Finite? then None
    else if single then
      var narrowed := h.round32(converted.value);
      if narrowed.Finite? then Some(F32(narrowed)) else None
    else Some(F64(converted))
  }

  function NormalizePrimitive(h: Host, v: Value, name: string): Option<Value> {
    match name
    case "unknown" => Some(v)
    case "object" => if v.Object? then Some(v) else None
    case "string" => if v.Str? then Some(v) else None
    case "bool" => if v.Bool? then Some(v) else None
    case "f32" => NormalizeFloat(h, v, true)
    case "float" => NormalizeFloat(h, v, false)
    case "f64" => NormalizeFloat(h, v, false)
    case _ =>
      var kind :- KindOf(name);
      NormalizeInteger(h, v, kind)
  }

  /** normalizeJSONResult; None is its `false`. */
  function Normalize(h: Host, v: Value, t: Type): Option<Value>
    decreases t, 1
  {
    if !IsJSON(h, v) then None else
    match t
    case Nullable(inner) => if v == Null then Some(Null) else Normalize(h, v, inner)
    case Array(element) =>
      var items := if v.Strings? then seq(|v.strings|, i requires 0 <= i < |v.strings| => Str(v.strings[i]))
                   else if v.List? then v.items else [];
      if !v.Strings? && !v.List? then None else
      var normalized :- NormalizeAll(h, items, element);
      Some(List(normalized))
    case Primitive(name) =>
      if v == Null then (if name == "unknown" then Some(Null) else None) else NormalizePrimitive(h, v, name)
  }

  function NormalizeAll(h: Host, items: seq<Value>, t: Type): (r: Option<seq<Value>>)
    ensures r.Some? ==> |r.value| == |items|
    decreases t, 2, |items|
  {
    if items == [] then Some([]) else
    var first :- Normalize(h, items[0], t);
    var rest :- NormalizeAll(h, items[1..], t);
    Some([first] + rest)
  }

  /** A normalised value has the type, and is JSON-compatible. */
  lemma {:induction false} NormalizeMatches(h: Host, v: Value, t: Type)
    requires Normalize(h, v, t).Some?
    ensures Matches(h, Normalize(h, v, t).value, t) && IsJSON(h, Normalize(h, v, t).value)
    decreases t, 1
  {
    match t {
      case Nullable(inner) =>
        if v != Null {
          NormalizeMatches(h, v, inner);
        }
      case Array(element) =>
        var items := if v.Strings? then seq(|v.strings|, i requires 0 <= i < |v.strings| => Str(v.strings[i])) else v.items;
        NormalizeAllMatches(h, items, element);
      case Primitive(name) =>
    }
  }

  lemma {:induction false} NormalizeAllMatches(h: Host, items: seq<Value>, t: Type)
    requires NormalizeAll(h, items, t).Some?
    ensures forall w <- NormalizeAll(h, items, t).value :: Matches(h, w, t) && IsJSON(h, w)
    decreases t, 2, |items|
  {
    if items != [] {
      NormalizeMatches(h, items[0], t);
      NormalizeAllMatches(h, items[1..], t);
    }
  }

  /** Normalising twice is normalising once. */
  lemma {:induction false} NormalizeIdempotent(h: Host, v: Value, t: Type)
    requires h.Lawful() && Normalize(h, v, t).Some?
    ensures Normalize(h, Normalize(h, v, t).value, t) == Normalize(h, v, t)
    decreases t, 1
  {
    NormalizeMatches(h, v, t);
    match t {
      case Nullable(inner) =>
        if v != Null {
          NormalizeIdempotent(h, v, inner);
        }
      case Array(element) =>
        var items := if v.Strings? then seq(|v.strings|, i requires 0 <= i < |v.strings| => Str(v.strings[i])) else v.items;
        NormalizeAllIdempotent(h, items, element);
      case Primitive(name) =>
        if v != Null {
          PrimitiveIdempotent(h, v, name);
        }
    }
  }

  lemma {:induction false} NormalizeAllIdempotent(h: Host, items: seq<Value>, t: Type)
    requires h.Lawful() && NormalizeAll(h, items, t).Some?
    ensures NormalizeAll(h, NormalizeAll(h, items, t).value, t) == NormalizeAll(h, items, t)
    decreases t, 2, |items|
  {
    if items != [] {
      NormalizeIdempotent(h, items[0], t);
      NormalizeAllIdempotent(h, items[1..], t);
      var all := NormalizeAll(h, items, t).value;
      assert all[1..] == NormalizeAll(h, items[1..], t).value;
    }
  }

  lemma {:induction false} PrimitiveIdempotent(h: Host, v: Value, name: string)
    requires h.Lawful() && v != Null && NormalizePrimitive(h, v, name).Some?
    ensures var w := NormalizePrimitive(h, v, name).value; w != Null && NormalizePrimitive(h, w, name) == Some(w)
  {
    hide IntegerOfText, NumberFloat, IsJSON, Host.Lawful, ToFloat64, InRange;
    if name == "f32" {
      SingleIdempotent(h, v);
    } else if name == "float" || name == "f64" {
      DoubleIdempotent(h, v);
    }
  }

  lemma {:induction false} SingleIdempotent(h: Host, v: Value)
    requires h.Lawful() && NormalizeFloat(h, v, true).Some?
    ensures var w := NormalizeFloat(h, v, true).value; w.F32? && NormalizeFloat(h, w, true) == Some(w)
  {
    hide NumberFloat, Host.Lawful;
    RoundingIsIdempotent(h, ToFloat64(h, v).value.value);
  }

  lemma {:induction false} DoubleIdempotent(h: Host, v: Value)
    requires NormalizeFloat(h, v, false).Some?
    ensures var w := NormalizeFloat(h, v, false).value; w.F64? && NormalizeFloat(h, w, false) == Some(w)
  {
    hide NumberFloat, Host.Lawful;
  }

  // ---------- what normalisation makes of a value ----------

  /** The items of a Go slice. */
  function ItemsOf(v: Value): Option<seq<Value>> {
    match v
    case Strings(strings) => Some(seq(|strings|, i requires 0 <= i < |strings| => Str(strings[i])))
    case List(items) => Some(items)
    case _ => None
  }

  /** An array is normalised item by item: as many items, each normalised, or nothing. */
  lemma {:induction false} NormalizeItems(h: Host, v: Value, element: Type)
    requires IsJSON(h, v)
    ensures var r := Normalize(h, v, Array(element));
      && (r.Some? <==> ItemsOf(v).Some? && forall i | 0 <= i < |ItemsOf(v).value| :: Normalize(h, ItemsOf(v).value[i], element).Some?)
      && (r.Some? ==>
           && r.value.List? && |r.value.items| == |ItemsOf(v).value|
           && forall i | 0 <= i < |r.value.items| :: Normalize(h, ItemsOf(v).value[i], element) == Some(r.value.items[i]))
  {
    if ItemsOf(v).Some? {
      EachNormalized(h, ItemsOf(v).value, element);
    }
  }

  lemma {:induction false} EachNormalized(h: Host, items: seq<Value>, t: Type)
    ensures NormalizeAll(h, items, t).Some? <==> forall i | 0 <= i < |items| :: Normalize(h, items[i], t).Some?
    ensures NormalizeAll(h, items, t).Some? ==>
      forall i | 0 <= i < |items| :: Normalize(h, items[i], t) == Some(NormalizeAll(h, items, t).value[i])
  {
    hide Normalize;
    if items != [] {
      var rest := items[1..];
      EachNormalized(h, rest, t);
      forall i | 0 < i < |items| ensures items[i] == rest[i - 1] {}
    }
  }

  /** The integer a number is, with no rounding: the Go integers by themselves, texts by what they denote. */
  ghost predicate Denotes(h: Host, v: Value, n: int) {
    match v
    case Int(_, m) => m == n
    case Number(text) => Decimal.IsNumber(text) && Decimal.Exact(text) == n as real
    case F64(f) => f.Finite? && Decimal.IsNumber(h.shortest(false, f.value)) && Decimal.Exact(h.shortest(false, f.value)) == n as real
    case F32(f) => f.Finite? && Decimal.IsNumber(h.shortest(true, f.value)) && Decimal.Exact(h.shortest(true, f.value)) == n as real
    case _ => false
  }

  /** How many bits an integer type has, and whether it has a sign. */
  function Width(kind: IntKind): (nat, bool) {
    match kind
    case I8 => (8, true)
    case I16 => (16, true)
    case I32 => (32, true)
    case U8 => (8, false)
    case U16 => (16, false)
    case U32 => (32, false)
    case U64 => (64, false)
    case GoUint => (64, false)
    case _ => (64, true)
  }

  function TwoTo(n: nat): nat {
    if n == 0 then 1 else 2 * TwoTo(n - 1)
  }

  lemma {:induction false} RangeMeaning(kind: IntKind, n: int)
    ensures InRange(kind, n) <==>
      if Width(kind).1 then -(TwoTo(Width(kind).0 - 1) as int) <= n < TwoTo(Width(kind).0 - 1) else 0 <= n < TwoTo(Width(kind).0)
  {
    Doubling();
  }

  lemma {:induction false} Doubling()
    ensures TwoTo(7) == 0x80 && TwoTo(8) == 0x100 && TwoTo(15) == 0x8000 && TwoTo(16) == 0x1_0000
    ensures TwoTo(31) == 0x8000_0000 && TwoTo(32) == 0x1_0000_0000
    ensures TwoTo(63) == 0x8000_0000_0000_0000 && TwoTo(64) == 0x1_0000_0000_0000_0000
  {
    TwoToSum(8, 8);
    TwoToSum(8, 7);
    TwoToSum(16, 16);
    TwoToSum(16, 15);
    TwoToSum(32, 32);
    TwoToSum(32, 31);
  }

  lemma {:induction false} TwoToSum(m: nat, n: nat)
    ensures TwoTo(m + n) == TwoTo(m) * TwoTo(n)
  {
    if m > 0 {
      TwoToSum(m - 1, n);
    }
  }

  /** An integer type takes exactly the numbers that are integers within its width, as that integer. */
  lemma {:induction false} NormalizeToInteger(h: Host, v: Value, name: string, n: int)
    requires IsJSON(h, v) && KindOf(name).Some?
    ensures Normalize(h, v, Primitive(name)) == Some(Int(KindOf(name).value, n)) <==> Denotes(h, v, n) && InRange(KindOf(name).value, n)
    ensures Normalize(h, v, Primitive(name)).Some? ==> Normalize(h, v, Primitive(name)).value.Int?
  {
    hide IsJSON, InRange, Decimal.IsNumber, Decimal.Exact, KindOf;
    KindsAreNumbers(h, v, name);
  }

  lemma {:induction false} KindsAreNumbers(h: Host, v: Value, name: string)
    requires KindOf(name).Some?
    ensures v == Null || NormalizePrimitive(h, v, name) == NormalizeInteger(h, v, KindOf(name).value)
    ensures name != "unknown"
  {
    hide NormalizeInteger;
  }

  /** A float type takes the finite floats as they are and rounds everything else that is a number;
      single precision rounds once more. */
  lemma {:induction false} NormalizeToFloat(h: Host, v: Value, kind: IntKind, n: int, text: string, f: Float, single: bool)
    ensures var name := if single then "f32" else "float";
      var kept := (r: Float) =>
        if !r.Finite? then None else if !single then Some(F64(r)) else if h.round32(r.value).Finite? then Some(F32(h.round32(r.value))) else None;
      && Normalize(h, Int(kind, n), Primitive(name)) == kept(h.round64(n as real))
      && Normalize(h, F64(f), Primitive(name)) == kept(f) && Normalize(h, F32(f), Primitive(name)) == kept(f)
      && (Decimal.IsNumber(text) ==> Normalize(h, Number(text), Primitive(name)) == kept(h.round64(Decimal.Exact(text))))
      && (v.Null? || v.Bool? || v.Str? || v.Strings? || v.List? || v.Object? || v.Foreign? ==> Normalize(h, v, Primitive(name)) == None)
    ensures Normalize(h, v, Primitive("f64")) == Normalize(h, v, Primitive("float"))
  {
    hide Decimal.IsNumber, Decimal.Exact;
  }

  /** Texts, booleans and maps are taken as they are and by their own types only; null by `unknown` and
      by nullable types. */
  lemma {:induction false} NormalizeKeeps(h: Host, v: Value, t: Type)
    requires IsJSON(h, v)
    ensures Normalize(h, v, STRING) == (if v.Str? then Some(v) else None)
    ensures Normalize(h, v, Primitive("bool")) == (if v.Bool? then Some(v) else None)
    ensures Normalize(h, v, Primitive("object")) == (if v.Object? then Some(v) else None)
    ensures Normalize(h, v, UNKNOWN) == Some(v)
    ensures Normalize(h, v, Nullable(t)) == (if v == Null then Some(Null) else Normalize(h, v, t))
    ensures Normalize(h, Null, t).Some? <==> t == UNKNOWN || t.Nullable?
  {
    hide NormalizeFloat, NormalizeInteger, KindOf;
  }

  /** A value as the executor itself makes it: integers within their type, floats of their format, and
      lists in place of slices of strings. */
  predicate Plain(h: Host, v: Value) {
    match v
    case Int(kind, n) => InRange(kind, n)
    case F32(f) => f.Finite? && h.round32(f.value) == f
    case Strings(_) => false
    case List(items) => forall i | 0 <= i < |items| :: Plain(h, items[i])
    case _ => true
  }

  /** The values of a type are those that normalising to it leaves as they are. */
  lemma {:induction false} ValuesAreFixed(h: Host, v: Value, t: Type)
    requires Plain(h, v) && IsJSON(h, v)
    ensures Matches(h, v, t) <==> Normalize(h, v, t) == Some(v)
    decreases t
  {
    if Normalize(h, v, t) == Some(v) {
      NormalizeMatches(h, v, t);
    }
    if Matches(h, v, t) {
      match t {
        case Nullable(inner) => ValuesAreFixed(h, v, inner);
        case Array(element) =>
          forall i | 0 <= i < |v.items| ensures Normalize(h, v.items[i], element) == Some(v.items[i]) {
            ValuesAreFixed(h, v.items[i], element);
          }
          NormalizeItems(h, v, element);
          assert Normalize(h, v, t).value.items == v.items;
        case Primitive(name) =>
      }
    }
  }

  // ---------- the assumptions, one at a time ----------

  lemma {:induction false} RoundingIsIdempotent(h: Host, r: real)
    requires h.Lawful() && h.round32(r).Finite?
    ensures h.round32(h.round32(r).value) == h.round32(r)
  {
    hide Decimal.IsNumber, Decimal.Exact, Host.Representable;
  }

  lemma {:induction false} IntegersAreFinite(h: Host, n: int)
    requires h.Lawful() && InRange(I64, n)
    ensures h.round64(n as real).Finite?
  {
    hide Decimal.IsNumber, Decimal.Exact, Host.Representable;
  }

  lemma {:induction false} JSONFloatReadsBack(h: Host, r: real)
    requires h.Lawful() && h.Representable(r)
    ensures Decimal.IsNumber(h.jsonFloat(r)) && NumberFloat(h, h.jsonFloat(r)) == Some(Finite(r))
  {
    hide Decimal.IsNumber, Decimal.Exact, Floats.Lawful, Host.Representable;
  }

  lemma {:induction false} DisplayTellsApart(h: Host, a: real, b: real)
    requires h.Lawful() && h.Representable(a) && h.Representable(b) && h.display(false, a) == h.display(false, b)
    ensures a == b
  {
    hide Decimal.IsNumber, Decimal.Exact, Floats.Lawful, Host.Representable;
  }
}
