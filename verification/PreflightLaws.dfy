/** What passing the executor's preflights is worth at run time. */
module PreflightLaws {
  import opened Options
  import opened Types
  import opened Values
  import opened IR
  import opened Builtins
  import opened Transforms
  import opened Preflight
  import W = Walker

  // ---------- chains ----------

  /** A chain is continuous when each call takes what the one before it gives, and the last fits what is
      expected. */
  lemma {:induction false} ContinuityMeaning(calls: seq<Call>, initial: Type, expected: Type)
    ensures ContinuityOK(calls, initial, expected) <==>
      && ValidRuntimeType(initial) && ValidRuntimeType(expected)
      && (forall i | 0 <= i < |calls| :: JoinedAt(calls, initial, i))
      && IsAssignable(if calls == [] then initial else calls[|calls| - 1].output, expected)
  {
    hide IsAssignable, ValidRuntimeType;
    ChainMeaning(calls, initial);
  }

  predicate JoinedAt(calls: seq<Call>, initial: Type, i: nat)
    requires i < |calls|
  {
    calls[i].input == if i == 0 then initial else calls[i - 1].output
  }

  lemma {:induction false} ChainMeaning(calls: seq<Call>, initial: Type)
    ensures ChainEnd(calls, initial).Some? <==> forall i | 0 <= i < |calls| :: JoinedAt(calls, initial, i)
    ensures ChainEnd(calls, initial).Some? ==> ChainEnd(calls, initial).value == if calls == [] then initial else calls[|calls| - 1].output
  {
    if calls != [] {
      var rest, next := calls[1..], calls[0].output;
      ChainMeaning(rest, next);
      forall i | 0 <= i < |rest| ensures JoinedAt(rest, next, i) <==> JoinedAt(calls, initial, i + 1) {
        assert rest[i] == calls[i + 1] && (i > 0 ==> rest[i - 1] == calls[i]);
      }
      if forall i | 0 <= i < |rest| :: JoinedAt(rest, next, i) {
        forall i | 0 < i < |calls| ensures JoinedAt(calls, initial, i) {
          assert JoinedAt(rest, next, i - 1);
        }
      }
      assert JoinedAt(calls, initial, 0) <==> calls[0].input == initial;
    }
  }

  /** Every transform has passed. */
  predicate RuntimeOK(h: Host, rt: Runtime) {
    forall s | s in rt.declared :: TransformOK(h, SignaturesOf(rt), rt.declared[s])
  }

  /** A chain that has passed never meets a transform that is not there. */
  lemma {:induction false} PassedChainsAreFound(h: Host, rt: Runtime, stack: set<string>, v: Value, calls: seq<Call>)
    requires RuntimeOK(h, rt) && CallsOK(SignaturesOf(rt), calls)
    ensures EvalCalls(h, rt, stack, v, calls) != Err(TransformMissing)
    decreases rt.declared.Keys - stack, 1, |calls|
  {
    hide CallOK, RuntimeOK, EvalTarget;
    if calls != [] {
      PassedTargetIsFound(h, rt, stack, v, calls[0]);
      match EvalTarget(h, rt, stack, v, calls[0]) {
        case Ok(w) =>
          assert forall call | call in calls[1..] :: call in calls;
          PassedChainsAreFound(h, rt, stack, w, calls[1..]);
        case Err(_) =>
      }
    }
  }

  lemma {:induction false} PassedTargetIsFound(h: Host, rt: Runtime, stack: set<string>, v: Value, call: Call)
    requires RuntimeOK(h, rt) && CallOK(SignaturesOf(rt), call)
    ensures EvalTarget(h, rt, stack, v, call) != Err(TransformMissing)
    decreases rt.declared.Keys - stack, 0
  {
    hide ValidRuntimeType, CallArgumentsOK, BuiltinSignatureOK, IsAssignable, EvalCalls, EvalMatch, Run, CallsOK, MatchOK, ContinuityOK;
    if call.target.DeclaredTarget? {
      var symbol := call.target.symbol;
      assert symbol in rt.declared;
      if symbol !in stack {
        var t := rt.declared[symbol];
        assert TransformOK(h, SignaturesOf(rt), t);
        if t.Pipeline? {
          assert rt.declared.Keys - (stack + {symbol}) < rt.declared.Keys - stack;
          PassedChainsAreFound(h, rt, stack + {symbol}, v, t.calls);
        } else if t.Match? {
          MatchErrors(h, t.input, t.output, t.cases, t.default, v);
        }
      }
    }
  }

  lemma {:induction false} MatchErrors(h: Host, input: Type, output: Type, cases: seq<(Raw, Raw)>, default: Raw, v: Value)
    ensures EvalMatch(h, input, output, cases, default, v) != Err(TransformMissing)
    decreases |cases|
  {
    hide Normalize, EqualScalar;
    if cases != [] {
      MatchErrors(h, input, output, cases[1..], default, v);
    }
  }

  // ---------- matches ----------

  lemma {:induction false} EqualityIsFair(h: Host, a: Value, b: Value)
    ensures EqualScalar(h, a, a) && (EqualScalar(h, a, b) <==> EqualScalar(h, b, a))
  {
    hide NumberText;
  }

  /** In a match that has passed every case is the one taken for its own input, and the match never fails. */
  lemma {:induction false} EveryCaseIsTaken(h: Host, rt: Runtime, symbol: string, input: Type, output: Type, cases: seq<(Raw, Raw)>, default: Raw, k: nat)
    requires symbol in rt.declared && rt.declared[symbol] == Match(input, output, cases, default) && MatchOK(h, input, output, cases, default)
    requires k < |cases|
    ensures EvalDeclared(h, rt, {}, symbol, Normalize(h, cases[k].0.value, input).value) == Ok(Normalize(h, cases[k].1.value, output).value)
  {
    hide Normalize, EqualScalar, IsScalar;
    forall j | 0 <= j < k ensures !EqualScalar(h, Normalize(h, cases[k].0.value, input).value, Normalize(h, cases[j].0.value, input).value) {
      assert !SameInput(h, cases[j].0, cases[k].0, input);
      EqualityIsFair(h, Normalize(h, cases[j].0.value, input).value, Normalize(h, cases[k].0.value, input).value);
    }
    EqualityIsFair(h, Normalize(h, cases[k].0.value, input).value, Normalize(h, cases[k].0.value, input).value);
    FirstCaseDecides(h, rt, {}, symbol, Normalize(h, cases[k].0.value, input).value, input, output, cases, default, k);
  }

  // ---------- fields ----------

  /** A field that has passed can use its default, and knows what to do with errors. */
  lemma {:induction false} PassedFieldsRecover(h: Host, f: Field, path: string, cause: Code)
    requires FieldOK(h, f, path) && cause != IRInvalid
    ensures W.MissingOutput(h, f) != Err(IRInvalid) && W.Recover(h, f, path, cause).result != Err(IRInvalid)
    ensures f.onError != "" && f.onError != "fail" ==> W.Recover(h, f, path, cause).result.Ok?
  {
    hide Normalize, ValidRuntimeType, SourceOK;
  }

  // ---------- names and IDs ----------

  /** All member IDs of an object from its i-th member on, at every depth. */
  function IDs(o: OutputObject, i: nat): seq<string>
    requires i <= |o.members|
    decreases o, |o.members| - i
  {
    if i == |o.members| then [] else
    var m := o.members[i];
    [m.ID()] + (match m case FieldMember(_) => [] case CollectionMember(c) => IDs(c.row, 0)) + IDs(o, i + 1)
  }

  predicate Distinct(s: seq<string>) {
    forall i, j | 0 <= i < j < |s| :: s[i] != s[j]
  }

  /** Every member passes by itself, and its name is new among those before it in its object. */
  predicate MembersOK(h: Host, o: OutputObject, i: nat, path: string)
    requires i <= |o.members|
    decreases o, |o.members| - i
  {
    i == |o.members| ||
    (var m := o.members[i];
     && (match m
         case FieldMember(f) => FieldOK(h, f, path)
         case CollectionMember(c) => CollectionOK(c) && MembersOK(h, c.row, 0, m.ID() + "[]"))
     && (forall j | 0 <= j < i :: o.members[j].Name() != m.Name())
     && MembersOK(h, o, i + 1, path))
  }

  function NamesBefore(o: OutputObject, i: nat): set<string>
    requires i <= |o.members|
  {
    set j | 0 <= j < i :: o.members[j].Name()
  }

  function SetOf(s: seq<string>): set<string> {
    set x | x in s
  }

  /** No ID twice, and none seen before. */
  predicate Fresh(s: seq<string>, seen: set<string>) {
    Distinct(s) && forall x | x in s :: x !in seen
  }

  lemma {:induction false} FreshJoin(a: seq<string>, b: seq<string>, seen: set<string>)
    ensures Fresh(a + b, seen) <==> Fresh(a, seen) && Fresh(b, seen + SetOf(a))
    ensures SetOf(a + b) == SetOf(a) + SetOf(b)
  {
    var s := a + b;
    if Fresh(s, seen) {
      forall i, j | 0 <= i < j < |a| ensures a[i] != a[j] {
        assert s[i] == a[i] && s[j] == a[j];
      }
      forall i, j | 0 <= i < j < |b| ensures b[i] != b[j] {
        assert s[|a| + i] == b[i] && s[|a| + j] == b[j];
      }
      forall x | x in b ensures x !in seen + SetOf(a) {
        var j :| 0 <= j < |b| && b[j] == x;
        assert s[|a| + j] == x && forall i | 0 <= i < |a| :: s[i] == a[i];
      }
    }
    if Fresh(a, seen) && Fresh(b, seen + SetOf(a)) {
      forall i, j | 0 <= i < j < |s| ensures s[i] != s[j] {
        if i < |a| <= j {
          assert a[i] in a && b[j - |a|] in b;
        }
      }
    }
  }

  /** The member passes by itself, leaving aside what is below it. */
  predicate PassesAlone(h: Host, m: Member, path: string) {
    match m case FieldMember(f) => FieldOK(h, f, path) case CollectionMember(c) => CollectionOK(c)
  }

  lemma {:induction false} WalkUnfolds(h: Host, o: OutputObject, i: nat, path: string, names: set<string>, seen: set<string>)
    requires i < |o.members|
    ensures var m := o.members[i];
      var below := match m case FieldMember(_) => Some(seen + {m.ID()}) case CollectionMember(c) => Walk(h, c.row, 0, m.ID() + "[]", {}, seen + {m.ID()});
      Walk(h, o, i, path, names, seen) ==
        if !PassesAlone(h, m, path) || m.Name() in names || m.ID() in seen || below.None? then None
        else Walk(h, o, i + 1, path, names + {m.Name()}, below.value)
  {
    hide FieldOK, CollectionOK;
  }

  lemma {:induction false} MembersUnfold(h: Host, o: OutputObject, i: nat, path: string)
    requires i < |o.members|
    ensures var m := o.members[i];
      MembersOK(h, o, i, path) <==>
        && PassesAlone(h, m, path) && m.Name() !in NamesBefore(o, i) && MembersOK(h, o, i + 1, path)
        && (m.CollectionMember? ==> MembersOK(h, m.collection.row, 0, m.ID() + "[]"))
  {
    hide FieldOK, CollectionOK, NamesBefore;
    NamesGrow(o, i);
  }

  /** The walk accepts exactly when every member passes and no ID comes twice anywhere. */
  lemma {:induction false} WalkMeaning(h: Host, o: OutputObject, i: nat, path: string, seen: set<string>)
    requires i <= |o.members|
    ensures var r := Walk(h, o, i, path, NamesBefore(o, i), seen);
      && (r.Some? <==> MembersOK(h, o, i, path) && Fresh(IDs(o, i), seen))
      && (r.Some? ==> r.value == seen + SetOf(IDs(o, i)))
    decreases o, |o.members| - i
  {
    hide Fresh, SetOf, NamesBefore, Walk, MembersOK, PassesAlone;
    if i == |o.members| {
      NothingFresh(seen);
      WalkEnds(h, o, i, path, seen);
    } else {
      var m := o.members[i];
      var own, rest := [m.ID()], IDs(o, i + 1);
      OneFresh(m.ID(), seen);
      NamesGrow(o, i);
      WalkUnfolds(h, o, i, path, NamesBefore(o, i), seen);
      MembersUnfold(h, o, i, path);
      match m {
        case FieldMember(f) =>
          assert IDs(o, i) == own + rest;
          FreshJoin(own, rest, seen);
          WalkMeaning(h, o, i + 1, path, seen + {m.ID()});
        case CollectionMember(c) =>
          var inner := IDs(c.row, 0);
          assert IDs(o, i) == own + (inner + rest);
          FreshJoin(own, inner + rest, seen);
          FreshJoin(inner, rest, seen + {m.ID()});
          NoNamesBefore(c.row);
          WalkMeaning(h, c.row, 0, m.ID() + "[]", seen + {m.ID()});
          WalkMeaning(h, o, i + 1, path, seen + {m.ID()} + SetOf(inner));
          assert seen + (SetOf(own) + (SetOf(inner) + SetOf(rest))) == seen + {m.ID()} + SetOf(inner) + SetOf(rest);
      }
    }
  }

  lemma {:induction false} WalkEnds(h: Host, o: OutputObject, i: nat, path: string, seen: set<string>)
    requires i == |o.members|
    ensures Walk(h, o, i, path, NamesBefore(o, i), seen) == Some(seen) && MembersOK(h, o, i, path) && IDs(o, i) == []
  {}

  lemma {:induction false} NothingFresh(seen: set<string>)
    ensures Fresh([], seen) && SetOf([]) == {}
  {}

  lemma {:induction false} OneFresh(x: string, seen: set<string>)
    ensures (Fresh([x], seen) <==> x !in seen) && SetOf([x]) == {x}
  {}

  lemma {:induction false} NoNamesBefore(o: OutputObject)
    ensures NamesBefore(o, 0) == {}
  {}

  lemma {:induction false} NamesGrow(o: OutputObject, i: nat)
    requires i < |o.members|
    ensures NamesBefore(o, i + 1) == NamesBefore(o, i) + {o.members[i].Name()}
    ensures o.members[i].Name() in NamesBefore(o, i) <==> !forall j | 0 <= j < i :: o.members[j].Name() != o.members[i].Name()
  {}

  /** So the output passes exactly when every member does, at every depth, and all IDs are different. */
  lemma {:induction false} StructureMeaning(h: Host, output: OutputObject)
    ensures StructureOK(h, output) <==> MembersOK(h, output, 0, "output") && Distinct(IDs(output, 0))
  {
    hide MembersOK, Distinct, Walk, NamesBefore;
    NoNamesBefore(output);
    WalkMeaning(h, output, 0, "output", {});
  }

  // ---------- capabilities ----------

  /** A field of the object, at any depth. */
  ghost predicate HasField(o: OutputObject, f: Field)
    decreases o
  {
    exists m | m in o.members :: match m case FieldMember(x) => x == f case CollectionMember(c) => HasField(c.row, f)
  }

  predicate HasCollection(o: OutputObject) {
    exists m | m in o.members :: m.CollectionMember?
  }

  predicate FieldUses(f: Field, capability: string) {
    || (capability == "browser.read-text" && f.source.TextSource?)
    || (capability == "browser.read-html" && f.source.HTMLSource?)
    || (capability == "browser.read-attr" && f.source.AttributeSource?)
    || (capability == "browser.evaluate-js" && f.source.JavaScriptSource?)
    || (capability == "browser.query" && (f.source.JavaScriptSource? ==> f.selection.Some? || f.source.scope == "current"))
  }

  predicate StepUses(s: Step, capability: string) {
    || (capability == "browser.wait" && s.WaitFor?)
    || (capability == "browser.input" && (s.Click? || s.Fill? || s.Press?))
    || (capability == "browser.scroll" && s.Scroll?)
    || (capability == "browser.network-idle" && s.NetworkIdle?)
    || (capability == "browser.evaluate-js" && s.EvaluateJavaScript?)
  }

  ghost predicate OutputUses(o: OutputObject, capability: string) {
    (capability == "browser.query" && HasCollection(o)) || exists f :: HasField(o, f) && FieldUses(f, capability)
  }

  lemma {:induction false} OutputCapabilityMeaning(o: OutputObject, capability: string)
    ensures capability in OutputCapabilities(o) <==> OutputUses(o, capability)
    decreases o, |o.members| + 1
  {
    hide FieldUses;
    MemberCapabilityMeaning(o, |o.members|, capability);
    forall i | 0 <= i < |o.members| && MemberUses(o.members[i], capability) ensures OutputUses(o, capability) {
      MemberIsPart(o, i, capability);
    }
    if OutputUses(o, capability) {
      SomeMemberUses(o, capability);
    }
  }

  lemma {:induction false} MemberIsPart(o: OutputObject, i: nat, capability: string)
    requires i < |o.members| && MemberUses(o.members[i], capability)
    ensures OutputUses(o, capability)
  {
    hide FieldUses;
    var m := o.members[i];
    assert m in o.members;
    if m.FieldMember? {
      assert HasField(o, m.field);
    } else if capability != "browser.query" {
      var f :| HasField(m.collection.row, f) && FieldUses(f, capability);
      assert HasField(o, f);
    }
  }

  lemma {:induction false} SomeMemberUses(o: OutputObject, capability: string)
    requires OutputUses(o, capability)
    ensures exists i :: 0 <= i < |o.members| && MemberUses(o.members[i], capability)
  {
    hide FieldUses;
    var m;
    if capability == "browser.query" && HasCollection(o) {
      m :| m in o.members && m.CollectionMember?;
    } else {
      var f :| HasField(o, f) && FieldUses(f, capability);
      m :| m in o.members && match m case FieldMember(x) => x == f case CollectionMember(c) => HasField(c.row, f);
      assert MemberUses(m, capability);
    }
    var i :| 0 <= i < |o.members| && o.members[i] == m;
  }

  /** What one of the first members uses. */
  ghost predicate MemberUses(m: Member, capability: string) {
    match m
    case FieldMember(f) => FieldUses(f, capability)
    case CollectionMember(c) => capability == "browser.query" || OutputUses(c.row, capability)
  }

  lemma {:induction false} MemberCapabilityMeaning(o: OutputObject, n: nat, capability: string)
    requires n <= |o.members|
    ensures capability in MemberCapabilities(o, n) <==> exists i :: 0 <= i < n && MemberUses(o.members[i], capability)
    decreases o, n
  {
    hide OutputUses;
    if n > 0 {
      MemberCapabilityMeaning(o, n - 1, capability);
      var m := o.members[n - 1];
      if m.CollectionMember? {
        OutputCapabilityMeaning(m.collection.row, capability);
      }
    }
  }

  /** Each capability is listed exactly when something in the program needs it. */
  lemma {:induction false} CapabilityMeaning(mode: string, steps: seq<Step>, all: seq<Declaration>, output: OutputObject, capability: string)
    ensures capability in DerivedCapabilities(mode, steps, all, output) <==>
      || (capability == "http.fetch" && mode == "http")
      || (capability == "browser.navigate" && mode == "browser")
      || (exists s | s in steps :: StepUses(s, capability))
      || (exists d | d in all :: d.body.External? && d.body.symbol != "" && capability == "transform.external:" + d.body.symbol)
      || (mode == "browser" && OutputUses(output, capability))
  {
    hide OutputUses;
    OutputCapabilityMeaning(output, capability);
  }
}
