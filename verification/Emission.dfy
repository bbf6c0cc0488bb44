/** What the compiler emits, and that the executor's preflights accept it. */
module Emission {
  import opened Options
  import opened Text
  import opened Types
  import opened Values
  import opened IR
  import opened Builtins
  import opened Transforms
  import opened Walker
  import opened Conformance
  import opened Preflight
  import opened Floats
  import Decimal
  import K = KDLTree

  // ---------- literals ----------

  /** What the lexer delivers: 64-bit integers and binary64 floats. */
  predicate ValidLiteral(h: Host, v: K.Value) {
    match v
    case KInt(n) => InRange(I64, n)
    case KFloat(r) => h.Representable(r)
    case _ => true
  }

  /** rawJSON followed by decodeJSON. */
  function RawOf(h: Host, v: K.Value): Raw {
    match v
    case KString(s) => Decoded(Str(s))
    case KInt(n) => Decoded(Number(IntText(n)))
    case KFloat(r) => Decoded(Number(h.jsonFloat(r)))
    case KBool(b) => Decoded(Bool(b))
    case KNull => Decoded(Null)
  }

  function LiteralType(v: K.Value): Type {
    match v
    case KString(_) => STRING
    case KInt(_) => Primitive("int")
    case KFloat(_) => Primitive("float")
    case KBool(_) => Primitive("bool")
    case KNull => Nullable(UNKNOWN)
  }

  /** isValueAssignable. */
  predicate LiteralAssignable(v: K.Value, t: Type) {
    if v.KNull? then t.Nullable? || t == UNKNOWN else IsAssignable(LiteralType(v), t)
  }

  lemma {:induction false} LiteralIsJSON(h: Host, v: K.Value)
    requires h.Lawful() && ValidLiteral(h, v)
    ensures RawOf(h, v).Decoded? && IsJSON(h, RawOf(h, v).value)
  {
    hide Host.Lawful, Decimal.IsNumber, Decimal.Exact, IntText;
    if v.KInt? {
      Decimal.ExactIntText(v.n);
      IntegersAreFinite(h, v.n);
    } else if v.KFloat? {
      JSONFloatReadsBack(h, v.r);
    }
  }

  /** A literal the compiler accepts for a type is one the executor can normalise to it. */
  lemma {:induction false} LiteralNormalizes(h: Host, v: K.Value, t: Type)
    requires h.Lawful() && ValidLiteral(h, v) && LiteralAssignable(v, t)
    ensures LiteralOK(h, RawOf(h, v), t)
    decreases t
  {
    hide Host.Lawful, IsJSON, Decimal.IsNumber, Decimal.Exact;
    LiteralIsJSON(h, v);
    if t.Nullable? && !v.KNull? {
      LiteralNormalizes(h, v, t.inner);
    } else if v.KInt? && t != UNKNOWN {
      IntNormalizes(h, v.n);
    } else if v.KFloat? && t != UNKNOWN {
      FloatNormalizes(h, v.r);
    }
  }

  lemma {:induction false} IntNormalizes(h: Host, n: int)
    requires InRange(I64, n)
    ensures NormalizePrimitive(h, Number(IntText(n)), "int") == Some(Int(I64, n))
  {
    hide Decimal.IsNumber, Decimal.Exact, IntText;
    Decimal.ExactIntText(n);
  }

  lemma {:induction false} FloatNormalizes(h: Host, r: real)
    requires h.Lawful() && h.Representable(r)
    ensures NormalizePrimitive(h, Number(h.jsonFloat(r)), "float") == Some(F64(Finite(r)))
  {
    hide Host.Lawful, Decimal.IsNumber, Decimal.Exact, NumberFloat;
    JSONFloatReadsBack(h, r);
  }

  /** Match inputs the compiler tells apart are told apart at run time. */
  lemma {:induction false} DistinctCases(h: Host, a: K.Value, b: K.Value, t: Type)
    requires h.Lawful() && ValidLiteral(h, a) && ValidLiteral(h, b) && IsScalar(t)
    requires LiteralAssignable(a, t) && LiteralAssignable(b, t) && RawOf(h, a) != RawOf(h, b)
    ensures !SameInput(h, RawOf(h, a), RawOf(h, b), t)
  {
    hide Host.Lawful, EqualScalar, Normalize, LiteralOK;
    ScalarNormal(h, a, t);
    ScalarNormal(h, b, t);
    DistinctNormals(h, a, b, t);
  }

  /** The run-time value of a literal. */
  function LiteralValue(v: K.Value): Value {
    match v
    case KString(s) => Str(s)
    case KInt(n) => Int(I64, n)
    case KFloat(r) => F64(Finite(r))
    case KBool(b) => Bool(b)
    case KNull => Null
  }

  lemma {:induction false} ScalarNormal(h: Host, v: K.Value, t: Type)
    requires h.Lawful() && ValidLiteral(h, v) && IsScalar(t) && LiteralAssignable(v, t)
    ensures Normalize(h, RawOf(h, v).value, t) == Some(LiteralValue(v))
    decreases t
  {
    hide Host.Lawful, IsJSON, Decimal.IsNumber, Decimal.Exact;
    LiteralIsJSON(h, v);
    if t.Nullable? && !v.KNull? {
      ScalarNormal(h, v, t.inner);
    } else if v.KInt? {
      IntNormalizes(h, v.n);
    } else if v.KFloat? {
      FloatNormalizes(h, v.r);
    }
  }

  /** A field that finds nothing yields the literal written as its default. */
  lemma {:induction false} MissingYieldsDefault<Scope>(env: Env<Scope>, scope: Scope, f: Field, path: string, literal: K.Value)
    requires env.h.Lawful() && env.read(scope, f, path) == Missing && !f.required && f.default == Some(RawOf(env.h, literal))
    requires ValidLiteral(env.h, literal) && IsScalar(f.successful) && LiteralAssignable(literal, f.successful)
    ensures ExecField(env, scope, f, path) == Run(Ok(LiteralValue(literal)), [], false)
  {
    hide Host.Lawful, Normalize, IsScalar, LiteralAssignable;
    ScalarNormal(env.h, literal, f.successful);
  }

  /** A match written with literals returns the literal of the first case that equals the value, and
      otherwise that of the default. */
  lemma {:induction false} MatchReturnsLiteral(h: Host, rt: Runtime, symbol: string, v: Value, input: Type, output: Type,
      literals: seq<(K.Value, K.Value)>, default: K.Value, k: nat)
    requires h.Lawful() && IsScalar(input) && IsScalar(output) && k <= |literals|
    requires forall i | 0 <= i < |literals| ::
      && ValidLiteral(h, literals[i].0) && LiteralAssignable(literals[i].0, input)
      && ValidLiteral(h, literals[i].1) && LiteralAssignable(literals[i].1, output)
    requires ValidLiteral(h, default) && LiteralAssignable(default, output)
    requires symbol in rt.declared && rt.declared[symbol] ==
      Match(input, output, seq(|literals|, i requires 0 <= i < |literals| => (RawOf(h, literals[i].0), RawOf(h, literals[i].1))), RawOf(h, default))
    requires forall j | 0 <= j < k :: !EqualScalar(h, v, LiteralValue(literals[j].0))
    requires k < |literals| ==> EqualScalar(h, v, LiteralValue(literals[k].0))
    ensures EvalDeclared(h, rt, {}, symbol, v) == Ok(LiteralValue(if k < |literals| then literals[k].1 else default))
  {
    hide Host.Lawful, Normalize, IsScalar, LiteralAssignable, ValidLiteral, EqualScalar, RawOf, LiteralValue, EvalDeclared;
    var cases := rt.declared[symbol].cases;
    forall i | 0 <= i < |literals|
      ensures cases[i].0.Decoded? && Normalize(h, cases[i].0.value, input) == Some(LiteralValue(literals[i].0))
      ensures cases[i].1.Decoded? && Normalize(h, cases[i].1.value, output) == Some(LiteralValue(literals[i].1))
    {
      LiteralIsJSON(h, literals[i].0);
      LiteralIsJSON(h, literals[i].1);
      ScalarNormal(h, literals[i].0, input);
      ScalarNormal(h, literals[i].1, output);
    }
    LiteralIsJSON(h, default);
    ScalarNormal(h, default, output);
    FirstCaseDecides(h, rt, {}, symbol, v, input, output, cases, RawOf(h, default), k);
  }

  /** The bare type behind a scalar type. */
  function Bare(t: Type): Type {
    if t.Nullable? then Bare(t.inner) else t
  }

  lemma {:induction false} ScalarLiteralKind(v: K.Value, t: Type)
    requires IsScalar(t) && LiteralAssignable(v, t) && !v.KNull?
    ensures LiteralType(v) == Bare(t)
    decreases t
  {
    if t.Nullable? {
      ScalarLiteralKind(v, t.inner);
    }
  }

  lemma {:induction false} DistinctNormals(h: Host, a: K.Value, b: K.Value, t: Type)
    requires h.Lawful() && ValidLiteral(h, a) && ValidLiteral(h, b) && IsScalar(t)
    requires LiteralAssignable(a, t) && LiteralAssignable(b, t) && RawOf(h, a) != RawOf(h, b)
    ensures !EqualScalar(h, LiteralValue(a), LiteralValue(b))
  {
    hide IsAssignable, IntText, Bare, IsScalar, Host.Lawful, Host.Representable;
    if !a.KNull? && !b.KNull? {
      ScalarLiteralKind(a, t);
      ScalarLiteralKind(b, t);
      if a.KFloat? && h.display(false, a.r) == h.display(false, b.r) {
        DisplayTellsApart(h, a.r, b.r);
      }
    }
  }

  // ---------- emitted IR ----------

  predicate CallEmitted(g: Signatures, call: Call) {
    && CallTyped(g, call) && WellFormed(call.input) && WellFormed(call.output) && CallArgumentsOK(call)
    && (match call.target
        case BuiltinTarget(name) => BuiltinSignatureOK(Lookup(name).value, call)
        case _ => call.positional == [] && call.named == [])
  }

  predicate CallsEmitted(g: Signatures, calls: seq<Call>) {
    forall call | call in calls :: CallEmitted(g, call)
  }

  predicate TransformEmitted(h: Host, g: Signatures, t: Transform) {
    WellFormed(t.input) && WellFormed(t.output) &&
    match t
    case Pipeline(input, output, calls) => calls != [] && CallsEmitted(g, calls) && ChainTyped(g, calls, input, output)
    case Match(input, output, cases, default) => MatchOK(h, input, output, cases, default)
    case External(_, _, symbol) => symbol != ""
  }

  /** What preflightOutputStructure asks of a source, with well-formedness for the re-parsing test. */
  predicate SourceEmitted(f: Field, path: string) {
    match f.source
    case JavaScriptSource(scope, _, returned, timeout) =>
      && WellFormed(returned)
      && (scope == "document" || scope == "current")
      && TimeoutOK(timeout)
      && (scope == "document" ==> f.selection.None?)
      && (scope == "current" ==> f.selection.Some? || HasBrackets(path))
    case _ =>
      && f.source.rawType == STRING
      && (f.selection.Some? || HasBrackets(path))
      && (f.source.AttributeSource? ==> f.source.name != "")
  }

  predicate FieldEmitted(h: Host, g: Signatures, f: Field, path: string) {
    && FieldCompiled(h, g, f)
    && CallsEmitted(g, f.calls)
    && SourceEmitted(f, path)
    && (f.selection.Some? ==> f.selection.value.mode == "one" || f.selection.value.mode == "first")
  }

  predicate MemberEmitted(h: Host, g: Signatures, m: Member, path: string)
    decreases m
  {
    Identifier(m.Name()) && m.ID() == path + "." + m.Name() &&
    match m
    case FieldMember(f) => FieldEmitted(h, g, f, path)
    case CollectionMember(c) => CollectionBounds(c) && c.row.members != [] && ObjectEmitted(h, g, c.row, c.id + "[]")
  }

  predicate ObjectEmitted(h: Host, g: Signatures, o: OutputObject, path: string)
    decreases o
  {
    NamesDistinct(o) && forall i | 0 <= i < |o.members| :: MemberEmitted(h, g, o.members[i], path)
  }

  lemma {:induction false} EmittedIsCompiled(h: Host, g: Signatures, o: OutputObject, path: string)
    requires ObjectEmitted(h, g, o, path)
    ensures ObjectCompiled(h, g, o)
    decreases o
  {
    hide FieldCompiled, NamesDistinct, Identifier;
    forall i | 0 <= i < |o.members| ensures MemberCompiled(h, g, o.members[i]) {
      assert MemberEmitted(h, g, o.members[i], path);
      if o.members[i].CollectionMember? {
        EmittedIsCompiled(h, g, o.members[i].collection.row, o.members[i].ID() + "[]");
      }
    }
  }

  // ---------- the preflights accept it: transforms ----------

  lemma {:induction false} EmittedCallOK(g: Signatures, call: Call)
    requires CallEmitted(g, call)
    ensures CallOK(g, call)
  {
    hide TypeOf, AsName, Lookup, WellFormed, IsAssignable, BuiltinSignatureOK, CallArgumentsOK, ValidRuntimeType;
    ValidRuntimeTypeIff(call.input);
    ValidRuntimeTypeIff(call.output);
  }

  lemma {:induction false} EmittedCallsOK(g: Signatures, calls: seq<Call>)
    requires CallsEmitted(g, calls)
    ensures CallsOK(g, calls)
  {
    hide CallEmitted, CallOK;
    forall call | call in calls ensures CallOK(g, call) {
      EmittedCallOK(g, call);
    }
  }

  lemma {:induction false} TypedChainEnds(g: Signatures, calls: seq<Call>, from: Type, to: Type)
    requires ChainTyped(g, calls, from, to)
    ensures ChainEnd(calls, from).Some? && IsAssignable(ChainEnd(calls, from).value, to)
  {
    hide CallTyped, IsAssignable;
    if calls != [] {
      TypedChainEnds(g, calls[1..], calls[0].output, to);
    }
  }

  lemma {:induction false} EmittedTransformOK(h: Host, g: Signatures, t: Transform)
    requires TransformEmitted(h, g, t)
    ensures TransformOK(h, g, t)
  {
    hide WellFormed, ValidRuntimeType, CallsEmitted, CallsOK, ChainTyped, ChainEnd, MatchOK;
    ValidRuntimeTypeIff(t.input);
    ValidRuntimeTypeIff(t.output);
    if t.Pipeline? {
      EmittedCallsOK(g, t.calls);
      TypedChainEnds(g, t.calls, t.input, t.output);
    }
  }

  lemma {:induction false} EmittedOutputCallsOK(h: Host, g: Signatures, o: OutputObject, path: string)
    requires ObjectEmitted(h, g, o, path)
    ensures OutputCallsOK(g, o)
    decreases o
  {
    hide FieldEmitted, CallsOK, ContinuityOK, NamesDistinct, Identifier;
    forall i | 0 <= i < |o.members| ensures
      match o.members[i]
      case FieldMember(f) => CallsOK(g, f.calls) && ContinuityOK(f.calls, SourceType(f.source), f.successful)
      case CollectionMember(c) => OutputCallsOK(g, c.row)
    {
      assert MemberEmitted(h, g, o.members[i], path);
      match o.members[i] {
        case FieldMember(f) => EmittedFieldCalls(h, g, f, path);
        case CollectionMember(c) => EmittedOutputCallsOK(h, g, c.row, c.id + "[]");
      }
    }
  }

  lemma {:induction false} EmittedFieldCalls(h: Host, g: Signatures, f: Field, path: string)
    requires FieldEmitted(h, g, f, path)
    ensures CallsOK(g, f.calls) && ContinuityOK(f.calls, SourceType(f.source), f.successful)
  {
    hide CallsEmitted, CallsOK, ChainTyped, ChainEnd, WellFormed, ValidRuntimeType, Normalize, HasBrackets;
    EmittedCallsOK(g, f.calls);
    TypedChainEnds(g, f.calls, SourceType(f.source), f.successful);
    assert WellFormed(SourceType(f.source)) by { StringWellFormed(); }
    ValidRuntimeTypeIff(SourceType(f.source));
    ValidRuntimeTypeIff(f.successful);
  }

  lemma {:induction false} StringWellFormed()
    ensures WellFormed(STRING)
  {}

  // ---------- the preflights accept it: output structure ----------

  lemma {:induction false} EmittedFieldOK(h: Host, g: Signatures, f: Field, path: string)
    requires FieldEmitted(h, g, f, path)
    ensures FieldOK(h, f, path)
  {
    hide CallsEmitted, ChainTyped, WellFormed, ValidRuntimeType, Normalize, HasBrackets;
    ValidRuntimeTypeIff(f.successful);
    ValidRuntimeTypeIff(f.effective);
    ValidRuntimeTypeIff(SourceType(f.source));
  }

  /** The ID is that of the member `name` of the object at `path`, or lies below it. */
  predicate Under(id: string, path: string, name: string) {
    var base := path + "." + name;
    id == base || base + "[]." <= id
  }

  lemma {:induction false} UnderUnique(id: string, path: string, a: string, b: string)
    requires Identifier(a) && Identifier(b) && Under(id, path, a) && Under(id, path, b)
    ensures a == b
    decreases |a| > |b|
  {
    if |a| > |b| {
      UnderUnique(id, path, b, a);
    } else {
      UnderShape(id, path, a);
      UnderShape(id, path, b);
    }
  }

  /** After the path and a dot comes the name, and after that nothing or a bracket. */
  lemma {:induction false} UnderShape(id: string, path: string, name: string)
    requires Under(id, path, name)
    ensures var k := |path| + 1; |id| >= k + |name| && id[k..k + |name|] == name && (|id| > k + |name| ==> id[k + |name|] == '[')
  {
    var base := path + "." + name;
    assert base[|path| + 1..] == name;
    assert id[..|base|] == base;
  }

  lemma {:induction false} UnderNested(id: string, path: string, name: string, inner: string)
    requires Under(id, path + "." + name + "[]", inner)
    ensures Under(id, path, name) && id != path + "." + name
  {
    var base := path + "." + name;
    assert base + "[]." + inner == base + "[]" + "." + inner;
    assert base + "[]." <= id;
  }

  ghost predicate Free(ids: set<string>, o: OutputObject, i: nat, path: string) {
    forall id, k | id in ids && i <= k < |o.members| :: !Under(id, path, o.members[k].Name())
  }

  ghost predicate OnlyUnder(ids: set<string>, more: set<string>, o: OutputObject, i: nat, path: string) {
    forall id | id in more && id !in ids :: exists k | i <= k < |o.members| :: Under(id, path, o.members[k].Name())
  }

  /** Member names and member IDs are found unique over the whole tree. */
  lemma {:induction false} EmittedWalk(h: Host, g: Signatures, o: OutputObject, i: nat, path: string, names: set<string>, ids: set<string>)
    requires ObjectEmitted(h, g, o, path) && i <= |o.members|
    requires names == set k | 0 <= k < i :: o.members[k].Name()
    requires Free(ids, o, i, path)
    ensures Walk(h, o, i, path, names, ids).Some?
    ensures OnlyUnder(ids, Walk(h, o, i, path, names, ids).value, o, i, path)
    decreases o, |o.members| - i
  {
    hide FieldOK, CollectionOK, FieldEmitted, Identifier, Under;
    if i < |o.members| {
      var m := o.members[i];
      assert MemberEmitted(h, g, m, path);
      NewMember(h, g, o, i, path, names, ids);
      var below := MemberIDs(h, g, o, i, path, ids);
      EmittedWalk(h, g, o, i + 1, path, names + {m.Name()}, below);
      OnlyUnderJoins(ids, below, Walk(h, o, i + 1, path, names + {m.Name()}, below).value, o, i, path);
    }
  }

  lemma {:induction false} NewMember(h: Host, g: Signatures, o: OutputObject, i: nat, path: string, names: set<string>, ids: set<string>)
    requires ObjectEmitted(h, g, o, path) && i < |o.members|
    requires names == set k | 0 <= k < i :: o.members[k].Name()
    requires Free(ids, o, i, path)
    ensures var m := o.members[i];
      && m.Name() !in names && m.ID() !in ids
      && (match m case FieldMember(f) => FieldOK(h, f, path) case CollectionMember(c) => CollectionOK(c))
  {
    hide FieldOK, FieldEmitted, Identifier;
    var m := o.members[i];
    assert MemberEmitted(h, g, m, path);
    assert Under(m.ID(), path, m.Name());
    if m.FieldMember? {
      EmittedFieldOK(h, g, m.field, path);
    }
  }

  /** The IDs after one member. */
  lemma {:induction false} MemberIDs(h: Host, g: Signatures, o: OutputObject, i: nat, path: string, ids: set<string>) returns (below: set<string>)
    requires ObjectEmitted(h, g, o, path) && i < |o.members| && Free(ids, o, i, path)
    ensures var m := o.members[i];
      Some(below) == match m
        case FieldMember(f) => Some(ids + {m.ID()})
        case CollectionMember(c) => Walk(h, c.row, 0, m.ID() + "[]", {}, ids + {m.ID()})
    ensures Free(below, o, i + 1, path)
    ensures forall id | id in below && id !in ids :: Under(id, path, o.members[i].Name())
    decreases o, |o.members| - i, 0
  {
    hide FieldEmitted, Identifier, Walk;
    var m := o.members[i];
    assert MemberEmitted(h, g, m, path);
    below := ids + {m.ID()};
    assert Under(m.ID(), path, m.Name());
    match m {
      case FieldMember(f) =>
      case CollectionMember(c) =>
        RowIsFree(ids, o, i, path);
        EmittedWalk(h, g, c.row, 0, m.ID() + "[]", {}, below);
        var all := Walk(h, c.row, 0, m.ID() + "[]", {}, below).value;
        RowIDsUnder(below, all, c.row, path, m.Name());
        below := all;
    }
    StillFree(h, g, o, i, path, ids, below);
  }

  lemma {:induction false} RowIsFree(ids: set<string>, o: OutputObject, i: nat, path: string)
    requires i < |o.members| && o.members[i].CollectionMember? && Free(ids, o, i, path)
    requires o.members[i].ID() == path + "." + o.members[i].Name()
    ensures Free(ids + {o.members[i].ID()}, o.members[i].collection.row, 0, o.members[i].ID() + "[]")
  {
    var m := o.members[i];
    var row := m.collection.row;
    forall id, k | id in ids + {m.ID()} && 0 <= k < |row.members| && Under(id, m.ID() + "[]", row.members[k].Name()) ensures false {
      UnderNested(id, path, m.Name(), row.members[k].Name());
    }
  }

  lemma {:induction false} RowIDsUnder(before: set<string>, all: set<string>, row: OutputObject, path: string, name: string)
    requires OnlyUnder(before, all, row, 0, path + "." + name + "[]")
    ensures forall id | id in all && id !in before :: Under(id, path, name)
  {
    forall id | id in all && id !in before ensures Under(id, path, name) {
      var k :| 0 <= k < |row.members| && Under(id, path + "." + name + "[]", row.members[k].Name());
      UnderNested(id, path, name, row.members[k].Name());
    }
  }

  lemma {:induction false} StillFree(h: Host, g: Signatures, o: OutputObject, i: nat, path: string, ids: set<string>, below: set<string>)
    requires ObjectEmitted(h, g, o, path) && i < |o.members| && Free(ids, o, i, path)
    requires forall id | id in below && id !in ids :: Under(id, path, o.members[i].Name())
    ensures Free(below, o, i + 1, path)
  {
    hide FieldEmitted, Identifier, Under;
    forall id, k | id in below && i + 1 <= k < |o.members| && Under(id, path, o.members[k].Name()) ensures false {
      assert MemberEmitted(h, g, o.members[k], path) && MemberEmitted(h, g, o.members[i], path);
      if id !in ids {
        UnderUnique(id, path, o.members[i].Name(), o.members[k].Name());
      }
    }
  }

  lemma {:induction false} OnlyUnderJoins(ids: set<string>, below: set<string>, all: set<string>, o: OutputObject, i: nat, path: string)
    requires i < |o.members|
    requires forall id | id in below && id !in ids :: Under(id, path, o.members[i].Name())
    requires OnlyUnder(below, all, o, i + 1, path)
    ensures OnlyUnder(ids, all, o, i, path)
  {
    hide Under;
    forall id | id in all && id !in ids ensures exists k | i <= k < |o.members| :: Under(id, path, o.members[k].Name()) {
      if id in below {
        assert Under(id, path, o.members[i].Name());
      } else {
        var k :| i + 1 <= k < |o.members| && Under(id, path, o.members[k].Name());
      }
    }
  }

  // ---------- the compiler and the executor agree ----------

  predicate ProgramEmitted(h: Host, all: seq<Declaration>, output: OutputObject) {
    var g := SignaturesOf(Runtime(DeclaredOf(all), {}));
    !HasDuplicate(all) && (forall d | d in all :: TransformEmitted(h, g, d.body)) && ObjectEmitted(h, g, output, "output")
  }

  /** Whatever the compiler emits passes every static preflight of the executor. */
  lemma {:induction false} PreflightsAccept(h: Host, all: seq<Declaration>, output: OutputObject)
    requires ProgramEmitted(h, all, output)
    ensures StaticOK(h, all, output) && StructureOK(h, output)
  {
    hide TransformEmitted, TransformOK, ObjectEmitted, OutputCallsOK, HasDuplicate, Walk;
    var g := SignaturesOf(Runtime(DeclaredOf(all), {}));
    forall d | d in all ensures TransformOK(h, g, d.body) && (d.body.External? ==> d.body.symbol != "") {
      EmittedTransformOK(h, g, d.body);
      if d.body.External? {
        EmittedExternal(h, g, d.body);
      }
    }
    EmittedOutputCallsOK(h, g, output, "output");
    EmittedWalk(h, g, output, 0, "output", {}, {});
  }

  lemma {:induction false} EmittedExternal(h: Host, g: Signatures, t: Transform)
    requires TransformEmitted(h, g, t) && t.External?
    ensures t.symbol != ""
  {}

  /** And it is what type soundness and output conformance ask for. */
  lemma {:induction false} EmittedIsTyped(h: Host, all: seq<Declaration>, output: OutputObject, registered: set<string>)
    requires ProgramEmitted(h, all, output)
    ensures var rt := Runtime(DeclaredOf(all), registered);
      RuntimeTyped(rt) && ObjectCompiled(h, SignaturesOf(rt), output)
  {
    hide ObjectEmitted, HasDuplicate, CallsEmitted, MatchOK, ChainTyped, ObjectCompiled;
    var rt := Runtime(DeclaredOf(all), registered);
    assert SignaturesOf(rt) == SignaturesOf(Runtime(DeclaredOf(all), {}));
    EmittedIsCompiled(h, SignaturesOf(rt), output, "output");
    DeclaredAreListed(all);
  }

  /** A successful run of a compiled program yields exactly what the program declares, provided that
      external transforms and readers deliver JSON-compatible values. */
  lemma {:induction false} CompiledRunConforms<Scope(!new)>(env: Env<Scope>, scope: Scope, all: seq<Declaration>, output: OutputObject)
    requires ProgramEmitted(env.h, all, output) && env.rt.declared == DeclaredOf(all)
    requires ExternalsJSON(env.h, env.rt) && ReaderTyped(env)
    requires ExecObject(env, scope, output, "output").result.Ok?
    ensures Conforms(env.h, ExecObject(env, scope, output, "output").result.value, output)
  {
    hide ProgramEmitted, ExternalsJSON, ReaderTyped, ObjectCompiled, ExecObject, Conforms, RuntimeTyped;
    EmittedIsTyped(env.h, all, output, env.rt.registered);
    ObjectConforms(env, scope, output, "output");
  }

  lemma {:induction false} DeclaredAreListed(all: seq<Declaration>)
    ensures forall s | s in DeclaredOf(all) :: Declaration(s, DeclaredOf(all)[s]) in all
  {
    if all != [] {
      DeclaredAreListed(all[..|all| - 1]);
      assert forall d | d in all[..|all| - 1] :: d in all;
    }
  }
}
