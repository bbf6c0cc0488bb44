/** The transform runtime of internal/executor/transforms.go. */
module Transforms {
  import opened Options
  import opened Text
  import opened Types
  import opened Values
  import opened IR
  import opened Builtins
  import Decimal

  /** Error codes; `Plain` is a Go error that is not an ExecutionError. */
  datatype Code =
    | Plain
    | TransformFailed
    | TransformMissing
    | TransformRecursion
    | ExternalMissing
    | ExternalFailed
    | ExternalResultType
    | IRInvalid
    | RequiredValueMissing
    | SelectorCardinality
    | RuntimeMissing
    | ScopeUnavailable
    | ResultType
    | OutputType
    | FieldExecution
    | CollectionCardinality
    | ExecutionCanceled
    | Other(code: string)

  datatype Outcome = Ok(value: Value) | Err(code: Code)

  datatype Runtime = Runtime(declared: map<string, Transform>, registered: set<string>)

  // ---------- the evaluator with the recursion guard ----------

  /** What the caller sees of an error raised inside a call. */
  function Wrapped(o: Outcome): Outcome {
    if o == Err(Plain) then Err(TransformFailed) else o
  }

  function EvalCalls(h: Host, rt: Runtime, stack: set<string>, v: Value, calls: seq<Call>): Outcome
    decreases rt.declared.Keys - stack, 1, |calls|
  {
    if calls == [] then Ok(v) else
    match EvalTarget(h, rt, stack, v, calls[0])
    case Ok(w) => EvalCalls(h, rt, stack, w, calls[1..])
    case Err(code) => Wrapped(Err(code))
  }

  function EvalTarget(h: Host, rt: Runtime, stack: set<string>, v: Value, call: Call): Outcome
    decreases rt.declared.Keys - stack, 0, 1
  {
    match call.target
    case BuiltinTarget(name) => EvalBuiltin(h, name, v, call)
    case DeclaredTarget(symbol) => EvalDeclared(h, rt, stack, symbol, v)
    case UnknownTarget => Err(Plain)
  }

  function EvalBuiltin(h: Host, name: string, v: Value, call: Call): Outcome {
    var b := Lookup(name);
    if b.None? || Run(h, b.value, v, call).None? then Err(Plain) else Ok(Run(h, b.value, v, call).value)
  }

  function EvalDeclared(h: Host, rt: Runtime, stack: set<string>, symbol: string, v: Value): Outcome
    decreases rt.declared.Keys - stack, 0, 0
  {
    if symbol !in rt.declared then Err(TransformMissing)
    else if symbol in stack then Err(TransformRecursion)
    else
      match rt.declared[symbol]
      case Pipeline(_, _, calls) => EvalCalls(h, rt, stack + {symbol}, v, calls)
      case Match(input, output, cases, default) => EvalMatch(h, input, output, cases, default, v)
      case External(_, output, name) => EvalExternal(h, rt, output, name, v)
  }

  function MatchResult(h: Host, raw: Raw, output: Type): Outcome {
    if raw.Malformed? || Normalize(h, raw.value, output).None? then Err(Plain) else Ok(Normalize(h, raw.value, output).value)
  }

  function EvalMatch(h: Host, input: Type, output: Type, cases: seq<(Raw, Raw)>, default: Raw, v: Value): Outcome
    decreases |cases|
  {
    if cases == [] then MatchResult(h, default, output)
    else if cases[0].0.Malformed? then Err(Plain)
    else
      match Normalize(h, cases[0].0.value, input)
      case None => Err(Plain)
      case Some(when) =>
        if EqualScalar(h, v, when) then MatchResult(h, cases[0].1, output)
        else EvalMatch(h, input, output, cases[1..], default, v)
  }

  function EvalExternal(h: Host, rt: Runtime, output: Type, name: string, v: Value): Outcome {
    if name !in rt.registered then Err(ExternalMissing)
    else
      match h.external(name, v)
      case None => Err(ExternalFailed)
      case Some(w) => if Matches(h, w, output) then Ok(w) else Err(ExternalResultType)
  }

  /** The runtime itself, with its call stack. */
  class TransformRuntime {
    const h: Host
    const rt: Runtime
    var callStack: set<string>

    constructor (h: Host, rt: Runtime)
      ensures this.h == h && this.rt == rt && callStack == {}
    {
      this.h, this.rt := h, rt;
      callStack := {};
    }

    method ApplyCalls(value: Value, calls: seq<Call>) returns (r: Outcome)
      modifies this`callStack
      ensures r == EvalCalls(h, rt, old(callStack), value, calls)
      ensures callStack == old(callStack)
      decreases rt.declared.Keys - callStack, 1
    {
      hide EvalBuiltin, EvalDeclared;
      var current := value;
      for i := 0 to |calls|
        invariant callStack == old(callStack)
        invariant EvalCalls(h, rt, callStack, value, calls) == EvalCalls(h, rt, callStack, current, calls[i..])
      {
        var step: Outcome;
        match calls[i].target {
          case BuiltinTarget(name) => step := EvalBuiltin(h, name, current, calls[i]);
          case DeclaredTarget(symbol) => step := ApplyDeclared(symbol, current);
          case UnknownTarget => step := Err(Plain);
        }
        assert calls[i..][1..] == calls[i + 1..];
        if step.Err? {
          return Wrapped(step);
        }
        current := step.value;
      }
      return Ok(current);
    }

    /** Every exit takes the symbol off the call stack again. */
    method ApplyDeclared(symbol: string, input: Value) returns (r: Outcome)
      modifies this`callStack
      ensures r == EvalDeclared(h, rt, old(callStack), symbol, input)
      ensures callStack == old(callStack)
      decreases rt.declared.Keys - callStack, 0
    {
      hide EvalCalls, EvalMatch, EvalExternal;
      if symbol !in rt.declared {
        return Err(TransformMissing);
      }
      if symbol in callStack {
        return Err(TransformRecursion);
      }
      callStack := callStack + {symbol};
      match rt.declared[symbol] {
        case Pipeline(_, _, calls) => r := ApplyCalls(input, calls);
        case Match(i, o, cases, default) => r := ApplyMatch(i, o, cases, default, input);
        case External(_, output, name) => r := EvalExternal(h, rt, output, name, input);
      }
      callStack := callStack - {symbol};
    }

    method ApplyMatch(input: Type, output: Type, cases: seq<(Raw, Raw)>, default: Raw, v: Value) returns (r: Outcome)
      ensures r == EvalMatch(h, input, output, cases, default, v)
    {
      hide Normalize, EqualScalar;
      for i := 0 to |cases|
        invariant EvalMatch(h, input, output, cases, default, v) == EvalMatch(h, input, output, cases[i..], default, v)
      {
        assert cases[i..][1..] == cases[i + 1..];
        if cases[i].0.Malformed? {
          return Err(Plain);
        }
        var when := Normalize(h, cases[i].0.value, input);
        if when.None? {
          return Err(Plain);
        }
        if EqualScalar(h, v, when.value) {
          return MatchResult(h, cases[i].1, output);
        }
      }
      return MatchResult(h, default, output);
    }
  }

  // ---------- typed chains ----------

  /** Declared input and output types by symbol. */
  type Signatures = map<string, (Type, Type)>

  function SignaturesOf(rt: Runtime): (g: Signatures)
    ensures g.Keys == rt.declared.Keys
  {
    map s | s in rt.declared :: (rt.declared[s].input, rt.declared[s].output)
  }

  /** What the compiler establishes of one call. */
  predicate CallTyped(g: Signatures, call: Call) {
    match call.target
    case BuiltinTarget(name) =>
      Lookup(name).Some? && TypeOf(Lookup(name).value, call.input, AsName(call)) == Some(call.output)
    case DeclaredTarget(symbol) =>
      symbol in g && IsAssignable(call.input, g[symbol].0) && call.output == g[symbol].1
    case UnknownTarget => false
  }

  predicate ChainTyped(g: Signatures, calls: seq<Call>, from: Type, to: Type) {
    if calls == [] then IsAssignable(from, to)
    else calls[0].input == from && CallTyped(g, calls[0]) && ChainTyped(g, calls[1..], calls[0].output, to)
  }

  predicate RuntimeTyped(rt: Runtime) {
    forall s | s in rt.declared && rt.declared[s].Pipeline? ::
      ChainTyped(SignaturesOf(rt), rt.declared[s].calls, rt.declared[s].input, rt.declared[s].output)
  }

  /** External transforms of the program only return JSON-compatible values. */
  ghost predicate ExternalsJSON(h: Host, rt: Runtime) {
    forall s, v | s in rt.declared && rt.declared[s].External? && h.external(rt.declared[s].symbol, v).Some? ::
      IsJSON(h, h.external(rt.declared[s].symbol, v).value)
  }

  /** Type soundness of a chain, through pipelines, matches, externals and every built-in. */
  lemma {:induction false} EvalCallsSound(h: Host, rt: Runtime, stack: set<string>, v: Value, calls: seq<Call>, from: Type, to: Type)
    requires RuntimeTyped(rt) && ExternalsJSON(h, rt) && ChainTyped(SignaturesOf(rt), calls, from, to)
    requires IsJSON(h, v) && Matches(h, v, from)
    requires EvalCalls(h, rt, stack, v, calls).Ok?
    ensures var w := EvalCalls(h, rt, stack, v, calls).value; IsJSON(h, w) && Matches(h, w, to)
    decreases rt.declared.Keys - stack, 1, |calls|
  {
    hide IsJSON, Matches, IsAssignable, TypeOf, Run, Lookup, AsName, ExternalsJSON, EvalDeclared;
    if calls == [] {
      MatchesAssignable(h, v, from, to);
    } else {
      var call := calls[0];
      var w := EvalTarget(h, rt, stack, v, call).value;
      match call.target {
        case BuiltinTarget(name) => RunSound(h, Lookup(name).value, v, call);
        case DeclaredTarget(symbol) =>
          MatchesAssignable(h, v, from, rt.declared[symbol].input);
          EvalDeclaredSound(h, rt, stack, symbol, v);
      }
      EvalCallsSound(h, rt, stack, w, calls[1..], call.output, to);
    }
  }

  lemma {:induction false} EvalDeclaredSound(h: Host, rt: Runtime, stack: set<string>, symbol: string, v: Value)
    requires RuntimeTyped(rt) && ExternalsJSON(h, rt) && symbol in rt.declared
    requires IsJSON(h, v) && Matches(h, v, rt.declared[symbol].input)
    requires EvalDeclared(h, rt, stack, symbol, v).Ok?
    ensures var w := EvalDeclared(h, rt, stack, symbol, v).value; IsJSON(h, w) && Matches(h, w, rt.declared[symbol].output)
    decreases rt.declared.Keys - stack, 0, 0
  {
    hide IsJSON, Matches, EvalCalls, EvalMatch, ChainTyped;
    match rt.declared[symbol] {
      case Pipeline(input, output, calls) => EvalCallsSound(h, rt, stack + {symbol}, v, calls, input, output);
      case Match(input, output, cases, default) => EvalMatchSound(h, input, output, cases, default, v);
      case External(_, output, name) =>
    }
  }

  // ---------- chains and externals ----------

  /** A chain is run call after call: what the first part returns goes into the second, and an error ends it. */
  lemma {:induction false} ChainComposes(h: Host, rt: Runtime, stack: set<string>, v: Value, first: seq<Call>, second: seq<Call>)
    ensures EvalCalls(h, rt, stack, v, first + second) ==
      var o := EvalCalls(h, rt, stack, v, first); if o.Ok? then EvalCalls(h, rt, stack, o.value, second) else o
    decreases |first|
  {
    hide EvalTarget;
    if first == [] {
      assert first + second == second;
    } else {
      assert (first + second)[1..] == first[1..] + second;
      match EvalTarget(h, rt, stack, v, first[0]) {
        case Ok(w) => ChainComposes(h, rt, stack, w, first[1..], second);
        case Err(_) =>
      }
    }
  }

  /** Errors a chain reports always have a code of their own. */
  lemma {:induction false} ChainErrorsHaveCodes(h: Host, rt: Runtime, stack: set<string>, v: Value, calls: seq<Call>)
    ensures EvalCalls(h, rt, stack, v, calls) != Err(Plain)
    decreases |calls|
  {
    hide EvalTarget;
    if calls != [] {
      match EvalTarget(h, rt, stack, v, calls[0]) {
        case Ok(w) => ChainErrorsHaveCodes(h, rt, stack, w, calls[1..]);
        case Err(_) =>
      }
    }
  }

  /** One call of a declared pipeline is its chain, run with the pipeline on the stack. */
  lemma {:induction false} PipelineRuns(h: Host, rt: Runtime, v: Value, call: Call, symbol: string)
    requires call.target == DeclaredTarget(symbol) && symbol in rt.declared && rt.declared[symbol].Pipeline?
    ensures EvalCalls(h, rt, {}, v, [call]) == EvalCalls(h, rt, {symbol}, v, rt.declared[symbol].calls)
  {
    hide EvalBuiltin, EvalMatch, EvalExternal;
    var chain := EvalCalls(h, rt, {symbol}, v, rt.declared[symbol].calls);
    ChainErrorsHaveCodes(h, rt, {symbol}, v, rt.declared[symbol].calls);
    assert {} + {symbol} == {symbol};
    assert EvalTarget(h, rt, {}, v, call) == chain;
    assert [call][1..] == [];
    if chain.Ok? {
      assert EvalCalls(h, rt, {}, chain.value, []) == chain;
    }
  }

  /** An external transform returns what the host returns, if that has the declared type. */
  lemma {:induction false} ExternalReturns(h: Host, rt: Runtime, stack: set<string>, symbol: string, v: Value, input: Type, output: Type, name: string)
    requires symbol in rt.declared && symbol !in stack && rt.declared[symbol] == External(input, output, name)
    ensures var o := EvalDeclared(h, rt, stack, symbol, v);
      && (forall w :: o == Ok(w) <==> name in rt.registered && h.external(name, v) == Some(w) && Matches(h, w, output))
      && (name !in rt.registered ==> o == Err(ExternalMissing))
      && (name in rt.registered && h.external(name, v) == None ==> o == Err(ExternalFailed))
      && (o.Err? ==> o.code in {ExternalMissing, ExternalFailed, ExternalResultType})
  {
    hide Matches;
  }

  // ---------- what a match returns ----------

  /** All literals of a match can be used. */
  predicate MatchUsable(h: Host, input: Type, output: Type, cases: seq<(Raw, Raw)>, default: Raw) {
    && default.Decoded? && Normalize(h, default.value, output).Some?
    && forall i | 0 <= i < |cases| ::
         && cases[i].0.Decoded? && Normalize(h, cases[i].0.value, input).Some?
         && cases[i].1.Decoded? && Normalize(h, cases[i].1.value, output).Some?
  }

  /** The first case whose input equals the value decides, and without one the default. */
  lemma {:induction false} FirstCaseDecides(h: Host, rt: Runtime, stack: set<string>, symbol: string, v: Value,
      input: Type, output: Type, cases: seq<(Raw, Raw)>, default: Raw, k: nat)
    requires symbol in rt.declared && symbol !in stack && rt.declared[symbol] == Match(input, output, cases, default)
    requires MatchUsable(h, input, output, cases, default) && k <= |cases|
    requires forall j | 0 <= j < k :: !EqualScalar(h, v, Normalize(h, cases[j].0.value, input).value)
    requires k < |cases| ==> EqualScalar(h, v, Normalize(h, cases[k].0.value, input).value)
    ensures EvalDeclared(h, rt, stack, symbol, v) ==
      if k < |cases| then Ok(Normalize(h, cases[k].1.value, output).value) else Ok(Normalize(h, default.value, output).value)
  {
    hide EqualScalar, Normalize;
    CaseDecides(h, input, output, cases, default, v, k);
  }

  lemma {:induction false} CaseDecides(h: Host, input: Type, output: Type, cases: seq<(Raw, Raw)>, default: Raw, v: Value, k: nat)
    requires MatchUsable(h, input, output, cases, default) && k <= |cases|
    requires forall j | 0 <= j < k :: !EqualScalar(h, v, Normalize(h, cases[j].0.value, input).value)
    requires k < |cases| ==> EqualScalar(h, v, Normalize(h, cases[k].0.value, input).value)
    ensures EvalMatch(h, input, output, cases, default, v) ==
      if k < |cases| then Ok(Normalize(h, cases[k].1.value, output).value) else Ok(Normalize(h, default.value, output).value)
    decreases k
  {
    hide EqualScalar, Normalize;
    if k > 0 {
      CaseDecides(h, input, output, cases[1..], default, v, k - 1);
    }
  }

  /** Equal scalars: integers by their number whatever their width, other values by themselves. */
  lemma {:induction false} EqualScalarMeaning(h: Host, s: string, t: string, b: bool, c: bool, j: IntKind, k: IntKind, m: int, n: int)
    ensures EqualScalar(h, Str(s), Str(t)) <==> s == t
    ensures EqualScalar(h, Bool(b), Bool(c)) <==> b == c
    ensures EqualScalar(h, Int(j, m), Int(k, n)) <==> m == n
    ensures EqualScalar(h, Null, Null) && !EqualScalar(h, Null, Str(s)) && !EqualScalar(h, Str(s), Bool(b)) && !EqualScalar(h, Str(s), Int(k, n))
  {
    if IntText(m) == IntText(n) {
      Decimal.IntTextsApart(m, n);
    }
  }

  lemma {:induction false} EvalMatchSound(h: Host, input: Type, output: Type, cases: seq<(Raw, Raw)>, default: Raw, v: Value)
    requires EvalMatch(h, input, output, cases, default, v).Ok?
    ensures var w := EvalMatch(h, input, output, cases, default, v).value; IsJSON(h, w) && Matches(h, w, output)
    decreases |cases|
  {
    hide IsJSON, Matches, EqualScalar, Normalize;
    if cases == [] {
      NormalizeMatches(h, default.value, output);
    } else if EqualScalar(h, v, Normalize(h, cases[0].0.value, input).value) {
      NormalizeMatches(h, cases[0].1.value, output);
    } else {
      EvalMatchSound(h, input, output, cases[1..], default, v);
    }
  }

  // ---------- the recursion guard against an evaluator without one ----------

  /** The evaluator without a call stack, cut off after `fuel` nested declared transforms. */
  function Unguarded(h: Host, rt: Runtime, fuel: nat, v: Value, calls: seq<Call>): Option<Outcome>
    decreases fuel, 1, |calls|
  {
    if calls == [] then Some(Ok(v)) else
    var step :- UnguardedTarget(h, rt, fuel, v, calls[0]);
    match step
    case Ok(w) => Unguarded(h, rt, fuel, w, calls[1..])
    case Err(code) => Some(Wrapped(Err(code)))
  }

  function UnguardedTarget(h: Host, rt: Runtime, fuel: nat, v: Value, call: Call): Option<Outcome>
    decreases fuel, 0, 0
  {
    match call.target
    case BuiltinTarget(name) => Some(EvalBuiltin(h, name, v, call))
    case UnknownTarget => Some(Err(Plain))
    case DeclaredTarget(symbol) =>
      if symbol !in rt.declared then Some(Err(TransformMissing)) else
      match rt.declared[symbol]
      case Pipeline(_, _, calls) => if fuel == 0 then None else Unguarded(h, rt, fuel - 1, v, calls)
      case Match(input, output, cases, default) => Some(EvalMatch(h, input, output, cases, default, v))
      case External(_, output, name) => Some(EvalExternal(h, rt, output, name, v))
  }

  lemma {:induction false} StackGrows(all: set<string>, stack: set<string>, s: string)
    requires s in all && s !in stack
    ensures |all - (stack + {s})| == |all - stack| - 1
  {
    assert all - (stack + {s}) == (all - stack) - {s};
  }

  /** Where the guard does not report recursion, it computes what the unguarded evaluator computes. */
  lemma {:induction false} GuardAgrees(h: Host, rt: Runtime, stack: set<string>, v: Value, calls: seq<Call>, fuel: nat)
    requires EvalCalls(h, rt, stack, v, calls) != Err(TransformRecursion)
    requires fuel >= |rt.declared.Keys - stack|
    ensures Unguarded(h, rt, fuel, v, calls) == Some(EvalCalls(h, rt, stack, v, calls))
    decreases rt.declared.Keys - stack, 1, |calls|
  {
    hide EvalTarget, UnguardedTarget;
    if calls != [] {
      var step := EvalTarget(h, rt, stack, v, calls[0]);
      assert step != Err(TransformRecursion);
      TargetAgrees(h, rt, stack, v, calls[0], fuel);
      if step.Ok? {
        GuardAgrees(h, rt, stack, step.value, calls[1..], fuel);
      }
    }
  }

  lemma {:induction false} TargetAgrees(h: Host, rt: Runtime, stack: set<string>, v: Value, call: Call, fuel: nat)
    requires EvalTarget(h, rt, stack, v, call) != Err(TransformRecursion)
    requires fuel >= |rt.declared.Keys - stack|
    ensures UnguardedTarget(h, rt, fuel, v, call) == Some(EvalTarget(h, rt, stack, v, call))
    decreases rt.declared.Keys - stack, 0, 1
  {
    hide EvalBuiltin, EvalMatch, EvalExternal, EvalCalls, Unguarded;
    if call.target.DeclaredTarget? && call.target.symbol in rt.declared && rt.declared[call.target.symbol].Pipeline? {
      assert EvalTarget(h, rt, stack, v, call) == EvalDeclared(h, rt, stack, call.target.symbol, v);
      PipelineAgrees(h, rt, stack, v, call.target.symbol, fuel);
    }
  }

  lemma {:induction false} PipelineAgrees(h: Host, rt: Runtime, stack: set<string>, v: Value, s: string, fuel: nat)
    requires s in rt.declared && rt.declared[s].Pipeline? && s !in stack
    requires EvalCalls(h, rt, stack + {s}, v, rt.declared[s].calls) != Err(TransformRecursion)
    requires fuel >= |rt.declared.Keys - stack|
    ensures fuel > 0
    ensures Unguarded(h, rt, fuel - 1, v, rt.declared[s].calls) == Some(EvalCalls(h, rt, stack + {s}, v, rt.declared[s].calls))
    decreases rt.declared.Keys - stack, 0, 0
  {
    hide EvalCalls, Unguarded;
    StackGrows(rt.declared.Keys, stack, s);
    GuardAgrees(h, rt, stack + {s}, v, rt.declared[s].calls, fuel - 1);
  }

  /** A call into the set. */
  predicate CallsInto(calls: seq<Call>, symbols: set<string>) {
    exists i | 0 <= i < |calls| :: calls[i].target.DeclaredTarget? && calls[i].target.symbol in symbols
  }

  /** Every member is a pipeline that calls a member of the set or of the stack: with an
      empty stack, each member leads into a cycle. */
  predicate Cyclic(rt: Runtime, members: set<string>, stack: set<string>) {
    forall s | s in members ::
      s in rt.declared && rt.declared[s].Pipeline? && CallsInto(rt.declared[s].calls, members + stack)
  }

  /** Recursion is reported only where the calls lead into a cycle, or back into the stack. */
  lemma {:induction false} RecursionHasCycle(h: Host, rt: Runtime, stack: set<string>, v: Value, calls: seq<Call>)
    returns (members: set<string>)
    requires EvalCalls(h, rt, stack, v, calls) == Err(TransformRecursion)
    ensures Cyclic(rt, members, stack) && CallsInto(calls, members + stack)
    decreases rt.declared.Keys - stack, 1, |calls|
  {
    hide EvalMatch, EvalExternal, EvalBuiltin;
    var call := calls[0];
    var step := EvalTarget(h, rt, stack, v, call);
    if step.Ok? {
      members := RecursionHasCycle(h, rt, stack, step.value, calls[1..]);
      var i :| 0 <= i < |calls[1..]| && calls[1..][i].target.DeclaredTarget? && calls[1..][i].target.symbol in members + stack;
      assert calls[i + 1] == calls[1..][i];
    } else {
      BuiltinsDoNotRecurse(h, rt, stack, v, call);
      var s := call.target.symbol;
      if s in stack {
        members := {};
        assert calls[0].target.symbol in members + stack;
      } else {
        members := RecursionHasCycle(h, rt, stack + {s}, v, rt.declared[s].calls);
        members := JoinCycle(rt, members, stack, s);
        assert calls[0].target.symbol in members + stack;
      }
    }
  }

  lemma {:induction false} BuiltinsDoNotRecurse(h: Host, rt: Runtime, stack: set<string>, v: Value, call: Call)
    requires EvalTarget(h, rt, stack, v, call) == Err(TransformRecursion)
    ensures call.target.DeclaredTarget? && call.target.symbol in rt.declared
    ensures call.target.symbol in stack || rt.declared[call.target.symbol].Pipeline?
  {
    hide Run, Lookup, Normalize, EvalCalls;
    if call.target.DeclaredTarget? && call.target.symbol in rt.declared && rt.declared[call.target.symbol].Match? {
      var t := rt.declared[call.target.symbol];
      MatchErrorsArePlain(h, t.input, t.output, t.cases, t.default, v);
    }
  }

  lemma {:induction false} MatchErrorsArePlain(h: Host, input: Type, output: Type, cases: seq<(Raw, Raw)>, default: Raw, v: Value)
    ensures EvalMatch(h, input, output, cases, default, v).Err? ==> EvalMatch(h, input, output, cases, default, v).code == Plain
    decreases |cases|
  {
    hide EqualScalar;
    if cases != [] {
      MatchErrorsArePlain(h, input, output, cases[1..], default, v);
    }
  }

  lemma {:induction false} JoinCycle(rt: Runtime, inner: set<string>, stack: set<string>, s: string) returns (members: set<string>)
    requires Cyclic(rt, inner, stack + {s})
    requires s in rt.declared && rt.declared[s].Pipeline? && CallsInto(rt.declared[s].calls, inner + (stack + {s}))
    ensures members == inner + {s} && Cyclic(rt, members, stack)
  {
    members := inner + {s};
    assert inner + (stack + {s}) == members + stack;
  }

  /** A chain that calls into a cycle never succeeds, however long the unguarded evaluator runs. */
  lemma {:induction false} CyclesNeverSucceed(h: Host, rt: Runtime, members: set<string>, fuel: nat, v: Value, calls: seq<Call>)
    requires Cyclic(rt, members, {}) && CallsInto(calls, members)
    ensures Unguarded(h, rt, fuel, v, calls).None? || Unguarded(h, rt, fuel, v, calls).value.Err?
    decreases fuel, 1, |calls|
  {
    hide UnguardedTarget, Cyclic;
    var i :| 0 <= i < |calls| && calls[i].target.DeclaredTarget? && calls[i].target.symbol in members;
    var step := UnguardedTarget(h, rt, fuel, v, calls[0]);
    if i == 0 {
      CyclicTargetFails(h, rt, members, fuel, v, calls[0]);
    } else if step.Some? && step.value.Ok? {
      assert calls[1..][i - 1] == calls[i];
      CyclesNeverSucceed(h, rt, members, fuel, step.value.value, calls[1..]);
    }
  }

  lemma {:induction false} CyclicTargetFails(h: Host, rt: Runtime, members: set<string>, fuel: nat, v: Value, call: Call)
    requires Cyclic(rt, members, {}) && call.target.DeclaredTarget? && call.target.symbol in members
    ensures UnguardedTarget(h, rt, fuel, v, call).None? || UnguardedTarget(h, rt, fuel, v, call).value.Err?
    decreases fuel, 0
  {
    hide Unguarded, CallsInto;
    assert members + {} == members;
    if fuel > 0 {
      CyclesNeverSucceed(h, rt, members, fuel - 1, v, rt.declared[call.target.symbol].calls);
    }
  }

  lemma {:induction false} MoreFuel(h: Host, rt: Runtime, fuel: nat, v: Value, calls: seq<Call>)
    requires Unguarded(h, rt, fuel, v, calls).Some?
    ensures Unguarded(h, rt, fuel + 1, v, calls) == Unguarded(h, rt, fuel, v, calls)
    decreases fuel, 1, |calls|
  {
    hide UnguardedTarget;
    if calls != [] {
      var step := UnguardedTarget(h, rt, fuel, v, calls[0]);
      MoreFuelTarget(h, rt, fuel, v, calls[0]);
      if step.value.Ok? {
        MoreFuel(h, rt, fuel, step.value.value, calls[1..]);
      }
    }
  }

  lemma {:induction false} MoreFuelTarget(h: Host, rt: Runtime, fuel: nat, v: Value, call: Call)
    requires UnguardedTarget(h, rt, fuel, v, call).Some?
    ensures UnguardedTarget(h, rt, fuel + 1, v, call) == UnguardedTarget(h, rt, fuel, v, call)
    decreases fuel, 0
  {
    hide EvalBuiltin, EvalMatch, EvalExternal, Unguarded;
    if call.target.DeclaredTarget? && call.target.symbol in rt.declared && rt.declared[call.target.symbol].Pipeline? {
      MoreFuel(h, rt, fuel - 1, v, rt.declared[call.target.symbol].calls);
    }
  }

  lemma {:induction false} MuchMoreFuel(h: Host, rt: Runtime, fuel: nat, more: nat, v: Value, calls: seq<Call>)
    requires Unguarded(h, rt, fuel, v, calls).Some?
    ensures Unguarded(h, rt, fuel + more, v, calls) == Unguarded(h, rt, fuel, v, calls)
    decreases more
  {
    hide Unguarded;
    if more > 0 {
      MuchMoreFuel(h, rt, fuel, more - 1, v, calls);
      MoreFuel(h, rt, fuel + more - 1, v, calls);
    }
  }

  lemma {:induction false} RecursionNeverSucceeds(h: Host, rt: Runtime, v: Value, calls: seq<Call>, fuel: nat, w: Value)
    requires EvalCalls(h, rt, {}, v, calls) == Err(TransformRecursion)
    ensures Unguarded(h, rt, fuel, v, calls) != Some(Ok(w))
  {
    hide EvalCalls, Unguarded, Cyclic, CallsInto;
    var members := RecursionHasCycle(h, rt, {}, v, calls);
    assert members + {} == members;
    CyclesNeverSucceed(h, rt, members, fuel, v, calls);
  }

  /** The guard loses no successful run: a chain yields `w` exactly when the evaluator without
      a guard, given time, yields `w`, on every call graph. */
  lemma {:induction false} GuardIsExact(h: Host, rt: Runtime, v: Value, calls: seq<Call>, w: Value)
    ensures EvalCalls(h, rt, {}, v, calls) == Ok(w) <==> exists fuel: nat :: Unguarded(h, rt, fuel, v, calls) == Some(Ok(w))
  {
    hide EvalCalls, Unguarded;
    var bound := |rt.declared.Keys - {}|;
    if EvalCalls(h, rt, {}, v, calls) == Err(TransformRecursion) {
      forall fuel: nat ensures Unguarded(h, rt, fuel, v, calls) != Some(Ok(w)) {
        RecursionNeverSucceeds(h, rt, v, calls, fuel, w);
      }
    } else {
      GuardAgrees(h, rt, {}, v, calls, bound);
      if fuel: nat :| Unguarded(h, rt, fuel, v, calls) == Some(Ok(w)) {
        MuchMoreFuel(h, rt, fuel, bound, v, calls);
        MuchMoreFuel(h, rt, bound, fuel, v, calls);
      }
    }
  }

  /** Without a cycle among the declared pipelines, recursion is never reported and both evaluators agree. */
  lemma {:induction false} AcyclicNeedsNoGuard(h: Host, rt: Runtime, v: Value, calls: seq<Call>)
    requires forall members | Cyclic(rt, members, {}) :: members == {}
    ensures Unguarded(h, rt, |rt.declared.Keys|, v, calls) == Some(EvalCalls(h, rt, {}, v, calls))
  {
    hide EvalCalls, Unguarded;
    if EvalCalls(h, rt, {}, v, calls) == Err(TransformRecursion) {
      var members := RecursionHasCycle(h, rt, {}, v, calls);
      assert false;
    }
    assert rt.declared.Keys - {} == rt.declared.Keys;
    GuardAgrees(h, rt, {}, v, calls, |rt.declared.Keys|);
  }
}
