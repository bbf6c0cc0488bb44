/** The executor's own checks of the IR, made before anything runs:
    internal/executor/transforms.go and internal/executor/executor.go. */
module Preflight {
  import opened Options
  import opened Types
  import opened Values
  import opened IR
  import opened Builtins
  import opened Contract
  import opened Transforms

  const MAX_MILLISECONDS := 9_223_372_036_854

  // ---------- transforms ----------

  /** newTransformRuntime: the last transform of a symbol wins. */
  function DeclaredOf(all: seq<Declaration>): map<string, Transform> {
    if all == [] then map[] else DeclaredOf(all[..|all| - 1])[all[|all| - 1].symbol := all[|all| - 1].body]
  }

  predicate HasDuplicate(all: seq<Declaration>) {
    exists i, j | 0 <= i < j < |all| :: all[i].symbol == all[j].symbol
  }

  predicate ExternalDeclarationsOK(all: seq<Declaration>) {
    !HasDuplicate(all) && forall d | d in all && d.body.External? :: d.body.symbol != ""
  }

  predicate CallArgumentsOK(call: Call) {
    && (forall raw | raw in call.positional :: raw.Decoded?)
    && (forall i | 0 <= i < |call.named| :: call.named[i].1.Decoded?)
    && (forall i, j | 0 <= i < j < |call.named| :: call.named[i].0 != call.named[j].0)
  }

  predicate BuiltinSignatureOK(b: Builtin, call: Call) {
    && MinPositional(b) <= |call.positional|
    && (MaxPositional(b).Some? ==> |call.positional| <= MaxPositional(b).value)
    && (forall i | 0 <= i < |call.named| :: call.named[i].0 in Allowed(b))
    && (forall name | name in Required(b) :: exists i | 0 <= i < |call.named| :: call.named[i].0 == name)
  }

  predicate CallOK(g: Signatures, call: Call) {
    && (match call.target
        case BuiltinTarget(name) => Lookup(name).Some? && BuiltinSignatureOK(Lookup(name).value, call)
        case DeclaredTarget(symbol) =>
          symbol in g && call.positional == [] && call.named == [] &&
          IsAssignable(call.input, g[symbol].0) && call.output == g[symbol].1
        case UnknownTarget => false)
    && CallArgumentsOK(call)
    && ValidRuntimeType(call.input) && ValidRuntimeType(call.output)
  }

  predicate CallsOK(g: Signatures, calls: seq<Call>) {
    forall call | call in calls :: CallOK(g, call)
  }

  /** The loop of preflightCallContinuity over the current type. */
  function ChainEnd(calls: seq<Call>, current: Type): Option<Type> {
    if calls == [] then Some(current)
    else if calls[0].input != current then None
    else ChainEnd(calls[1..], calls[0].output)
  }

  predicate ContinuityOK(calls: seq<Call>, initial: Type, expected: Type) {
    ValidRuntimeType(initial) && ValidRuntimeType(expected) &&
    ChainEnd(calls, initial).Some? && IsAssignable(ChainEnd(calls, initial).value, expected)
  }

  method PreflightCallContinuity(calls: seq<Call>, initial: Type, expected: Type) returns (ok: bool)
    ensures ok == ContinuityOK(calls, initial, expected)
  {
    hide ValidRuntimeType, IsAssignable;
    if !ValidRuntimeType(initial) || !ValidRuntimeType(expected) {
      return false;
    }
    var current := initial;
    for i := 0 to |calls|
      invariant ChainEnd(calls, initial) == ChainEnd(calls[i..], current)
    {
      assert calls[i..][1..] == calls[i + 1..];
      if calls[i].input != current {
        return false;
      }
      current := calls[i].output;
    }
    return IsAssignable(current, expected);
  }

  predicate LiteralOK(h: Host, raw: Raw, t: Type) {
    raw.Decoded? && Normalize(h, raw.value, t).Some?
  }

  /** Two case inputs that the runtime cannot tell apart. */
  predicate SameInput(h: Host, a: Raw, b: Raw, input: Type) {
    LiteralOK(h, a, input) && LiteralOK(h, b, input) &&
    EqualScalar(h, Normalize(h, a.value, input).value, Normalize(h, b.value, input).value)
  }

  predicate CasesOK(h: Host, cases: seq<(Raw, Raw)>, input: Type, output: Type) {
    && (forall i | 0 <= i < |cases| :: LiteralOK(h, cases[i].0, input) && LiteralOK(h, cases[i].1, output))
    && (forall i, j | 0 <= i < j < |cases| :: !SameInput(h, cases[i].0, cases[j].0, input))
  }

  predicate MatchOK(h: Host, input: Type, output: Type, cases: seq<(Raw, Raw)>, default: Raw) {
    IsScalar(input) && IsScalar(output) && CasesOK(h, cases, input, output) && LiteralOK(h, default, output)
  }

  /** preflightMatchTransform with its list of inputs seen so far. */
  method PreflightMatch(h: Host, input: Type, output: Type, cases: seq<(Raw, Raw)>, default: Raw) returns (ok: bool)
    ensures ok == MatchOK(h, input, output, cases, default)
  {
    hide Normalize, EqualScalar, IsScalar;
    if !IsScalar(input) || !IsScalar(output) {
      return false;
    }
    var seen: seq<Value> := [];
    for i := 0 to |cases|
      invariant |seen| == i
      invariant forall k | 0 <= k < i :: LiteralOK(h, cases[k].0, input) && LiteralOK(h, cases[k].1, output)
      invariant forall k | 0 <= k < i :: seen[k] == Normalize(h, cases[k].0.value, input).value
      invariant forall k, l | 0 <= k < l < i :: !SameInput(h, cases[k].0, cases[l].0, input)
    {
      if !LiteralOK(h, cases[i].0, input) {
        return false;
      }
      var when := Normalize(h, cases[i].0.value, input).value;
      for k := 0 to |seen|
        invariant forall l | 0 <= l < k :: !EqualScalar(h, seen[l], when)
      {
        if EqualScalar(h, seen[k], when) {
          assert SameInput(h, cases[k].0, cases[i].0, input);
          assert !CasesOK(h, cases, input, output);
          return false;
        }
      }
      seen := seen + [when];
      if !LiteralOK(h, cases[i].1, output) {
        return false;
      }
    }
    return LiteralOK(h, default, output);
  }

  predicate TransformOK(h: Host, g: Signatures, t: Transform) {
    ValidRuntimeType(t.input) && ValidRuntimeType(t.output) &&
    match t
    case Pipeline(input, output, calls) => calls != [] && CallsOK(g, calls) && ContinuityOK(calls, input, output)
    case Match(input, output, cases, default) => MatchOK(h, input, output, cases, default)
    case External(_, _, _) => true
  }

  /** preflightOutputCalls. */
  predicate OutputCallsOK(g: Signatures, o: OutputObject) {
    forall i | 0 <= i < |o.members| ::
      match o.members[i]
      case FieldMember(f) => CallsOK(g, f.calls) && ContinuityOK(f.calls, SourceType(f.source), f.successful)
      case CollectionMember(c) => OutputCallsOK(g, c.row)
  }

  /** preflightExternalDeclarations, then preflightStaticAfterBindings. */
  predicate StaticOK(h: Host, all: seq<Declaration>, output: OutputObject) {
    var g := SignaturesOf(Runtime(DeclaredOf(all), {}));
    ExternalDeclarationsOK(all) && (forall d | d in all :: TransformOK(h, g, d.body)) && OutputCallsOK(g, output)
  }

  // ---------- output structure ----------

  predicate HasBrackets(path: string) {
    exists i | 0 <= i < |path| - 1 :: path[i] == '[' && path[i + 1] == ']'
  }

  predicate SourceOK(f: Field, path: string) {
    match f.source
    case TextSource(raw) => raw == STRING && (f.selection.Some? || HasBrackets(path))
    case HTMLSource(raw) => raw == STRING && (f.selection.Some? || HasBrackets(path))
    case AttributeSource(name, raw) => raw == STRING && (f.selection.Some? || HasBrackets(path)) && name != ""
    case JavaScriptSource(scope, _, returned, timeout) =>
      && ValidRuntimeType(returned)
      && (scope == "document" || scope == "current")
      && (timeout.Some? ==> 1 <= timeout.value <= MAX_MILLISECONDS)
      && (scope == "document" ==> f.selection.None?)
      && (scope == "current" ==> f.selection.Some? || HasBrackets(path))
  }

  predicate FieldOK(h: Host, f: Field, path: string) {
    && ValidRuntimeType(f.successful) && ValidRuntimeType(f.effective)
    && (f.selection.Some? ==> f.selection.value.mode == "one" || f.selection.value.mode == "first")
    && SourceOK(f, path)
    && !(f.required && f.default.Some?)
    && (f.default.Some? ==> LiteralOK(h, f.default.value, f.successful))
    && (f.onError == "" || f.onError == "fail" || f.onError == "null" || f.onError == "warn" || f.onError == "default")
    && (f.onError == "null" || f.onError == "warn" ==> f.effective.Nullable?)
    && (f.onError == "default" ==> f.default.Some?)
  }

  predicate CollectionOK(c: Collection) {
    && c.minItems >= 0
    && (c.maxItems.Some? ==> c.maxItems.value >= (if c.required && c.minItems < 1 then 1 else c.minItems))
    && (c.onRowError == "fail" || c.onRowError == "skip")
    && c.row.members != []
  }

  /** The walk of preflightOutputStructure over the members from the i-th on: None when a check
      fails, otherwise the IDs seen so far. Names are tracked per object, IDs over the whole tree. */
  function Walk(h: Host, o: OutputObject, i: nat, path: string, names: set<string>, ids: set<string>): Option<set<string>>
    requires i <= |o.members|
    decreases o, |o.members| - i
  {
    if i == |o.members| then Some(ids) else
    var m := o.members[i];
    var fine := match m case FieldMember(f) => FieldOK(h, f, path) case CollectionMember(c) => CollectionOK(c);
    if !fine || m.Name() in names || m.ID() in ids then None else
    var below :- match m
      case FieldMember(f) => Some(ids + {m.ID()})
      case CollectionMember(c) => Walk(h, c.row, 0, m.ID() + "[]", {}, ids + {m.ID()});
    Walk(h, o, i + 1, path, names + {m.Name()}, below)
  }

  predicate StructureOK(h: Host, output: OutputObject) {
    Walk(h, output, 0, "output", {}, {}).Some?
  }

  /** The recursive walk itself, with the shared set of IDs as a field. */
  class StructureWalk {
    const h: Host
    var ids: set<string>

    constructor (h: Host)
      ensures this.h == h && ids == {}
    {
      this.h := h;
      ids := {};
    }

    method Visit(o: OutputObject, path: string) returns (ok: bool)
      modifies this`ids
      ensures ok == Walk(h, o, 0, path, {}, old(ids)).Some?
      ensures ok ==> ids == Walk(h, o, 0, path, {}, old(ids)).value
      decreases o
    {
      hide FieldOK, CollectionOK;
      var names: set<string> := {};
      for i := 0 to |o.members|
        invariant Walk(h, o, 0, path, {}, old(ids)) == Walk(h, o, i, path, names, ids)
      {
        var m := o.members[i];
        var fine := match m case FieldMember(f) => FieldOK(h, f, path) case CollectionMember(c) => CollectionOK(c);
        if !fine || m.Name() in names || m.ID() in ids {
          return false;
        }
        names := names + {m.Name()};
        ids := ids + {m.ID()};
        if m.CollectionMember? {
          var below := Visit(m.collection.row, m.ID() + "[]");
          if !below {
            return false;
          }
        }
      }
      return true;
    }
  }

  // ---------- capabilities and workflow ----------

  datatype Step =
    | WaitFor(selector: string, state: string, timeout: Option<int>)
    | Click(selector: string, timeout: Option<int>)
    | Fill(selector: string, value: string, timeout: Option<int>)
    | Press(selector: string, key: string, timeout: Option<int>)
    | Scroll(x: real, y: real)
    | NetworkIdle(idle: int, timeout: Option<int>)
    | EvaluateJavaScript(code: string, timeout: Option<int>)

  function StepCapability(s: Step): string {
    match s
    case WaitFor(_, _, _) => "browser.wait"
    case Click(_, _) => "browser.input"
    case Fill(_, _, _) => "browser.input"
    case Press(_, _, _) => "browser.input"
    case Scroll(_, _) => "browser.scroll"
    case NetworkIdle(_, _) => "browser.network-idle"
    case EvaluateJavaScript(_, _) => "browser.evaluate-js"
  }

  predicate TimeoutOK(t: Option<int>) {
    t.Some? ==> 1 <= t.value <= MAX_MILLISECONDS
  }

  /** preflightBrowserWorkflow; `selectorOK` is dom.ParseSelector succeeding. */
  predicate StepOK(selectorOK: string -> bool, s: Step) {
    match s
    case WaitFor(selector, state, t) =>
      selectorOK(selector) && TimeoutOK(t) && state in {"attached", "visible", "hidden", "detached"}
    case Click(selector, t) => selectorOK(selector) && TimeoutOK(t)
    case Fill(selector, _, t) => selectorOK(selector) && TimeoutOK(t)
    case Press(selector, _, t) => selectorOK(selector) && TimeoutOK(t)
    case Scroll(_, _) => true
    case NetworkIdle(idle, t) => 1 <= idle <= MAX_MILLISECONDS && TimeoutOK(t)
    case EvaluateJavaScript(_, t) => TimeoutOK(t)
  }

  /** preflightOutput and preflightBrowserOutput: every selector parses. */
  predicate SelectorsOK(selectorOK: string -> bool, o: OutputObject) {
    forall i | 0 <= i < |o.members| ::
      match o.members[i]
      case FieldMember(f) => f.selection.Some? ==> selectorOK(f.selection.value.selector)
      case CollectionMember(c) => selectorOK(c.selector) && SelectorsOK(selectorOK, c.row)
  }

  function SourceCapabilities(f: Field): set<string> {
    match f.source
    case TextSource(_) => {"browser.query", "browser.read-text"}
    case HTMLSource(_) => {"browser.query", "browser.read-html"}
    case AttributeSource(_, _) => {"browser.query", "browser.read-attr"}
    case JavaScriptSource(scope, _, _, _) =>
      {"browser.evaluate-js"} + if f.selection.Some? || scope == "current" then {"browser.query"} else {}
  }

  /** deriveOutputCapabilities. */
  function OutputCapabilities(o: OutputObject): set<string>
    decreases o, |o.members| + 1
  {
    MemberCapabilities(o, |o.members|)
  }

  /** The capabilities of the first n members. */
  function MemberCapabilities(o: OutputObject, n: nat): set<string>
    requires n <= |o.members|
    decreases o, n
  {
    if n == 0 then {}
    else
      MemberCapabilities(o, n - 1) +
      match o.members[n - 1]
      case FieldMember(f) => SourceCapabilities(f)
      case CollectionMember(c) => {"browser.query"} + OutputCapabilities(c.row)
  }

  /** deriveCapabilities, before sorting. */
  function DerivedCapabilities(mode: string, steps: seq<Step>, all: seq<Declaration>, output: OutputObject): set<string> {
    (if mode == "http" then {"http.fetch"} else if mode == "browser" then {"browser.navigate"} else {}) +
    (set s | s in steps :: StepCapability(s)) +
    (set d | d in all && d.body.External? && d.body.symbol != "" :: "transform.external:" + d.body.symbol) +
    (if mode == "browser" then OutputCapabilities(output) else {})
  }
}
