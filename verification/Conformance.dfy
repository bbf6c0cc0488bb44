/** What a compiled extractor's output looks like, and what its warnings account for. */
module Conformance {
  import opened Options
  import opened Text
  import opened Types
  import opened Values
  import opened IR
  import opened Transforms
  import opened Walker

  // ---------- what the compiler guarantees of an output object ----------

  predicate FieldCompiled(h: Host, g: Signatures, f: Field) {
    && WellFormed(f.successful) && ReadsStrings(f.source)
    && ChainTyped(g, f.calls, SourceType(f.source), f.successful)
    && f.effective == (if !f.required && f.default.None? then LiftNullable(f.successful) else f.successful)
    && (f.required ==> f.default.None?)
    && (f.default.Some? ==> f.default.value.Decoded? && Normalize(h, f.default.value.value, f.successful).Some?)
    && f.onError in {"fail", "null", "warn", "default"}
    && (f.onError in {"null", "warn"} ==> f.effective.Nullable?)
    && (f.onError == "default" ==> f.default.Some?)
  }

  predicate NamesDistinct(o: OutputObject) {
    forall i, j | 0 <= i < j < |o.members| :: o.members[i].Name() != o.members[j].Name()
  }

  predicate CollectionBounds(c: Collection) {
    c.minItems >= 0 && (c.maxItems.Some? ==> c.maxItems.value >= EffectiveMinimum(c)) && c.onRowError in {"fail", "skip"}
  }

  predicate MemberCompiled(h: Host, g: Signatures, m: Member) {
    match m
    case FieldMember(f) => FieldCompiled(h, g, f)
    case CollectionMember(c) => CollectionBounds(c) && c.row.members != [] && ObjectCompiled(h, g, c.row)
  }

  predicate ObjectCompiled(h: Host, g: Signatures, o: OutputObject) {
    NamesDistinct(o) && forall i | 0 <= i < |o.members| :: MemberCompiled(h, g, o.members[i])
  }

  /** Text, HTML and attributes are strings. */
  predicate ReadsStrings(s: ValueSource) {
    !s.JavaScriptSource? ==> s.rawType == STRING
  }

  /** Readers deliver JSON-compatible values of the type of the value source. */
  ghost predicate ReaderTyped<Scope(!new)>(env: Env<Scope>) {
    forall scope, f, path | env.read(scope, f, path).Read? && ReadsStrings(f.source) ::
      IsJSON(env.h, env.read(scope, f, path).value) && Matches(env.h, env.read(scope, f, path).value, SourceType(f.source))
  }

  ghost predicate Trusted<Scope(!new)>(env: Env<Scope>) {
    RuntimeTyped(env.rt) && ExternalsJSON(env.h, env.rt) && ReaderTyped(env)
  }

  // ---------- the shape of a result ----------

  function MemberNames(o: OutputObject): set<string> {
    set i | 0 <= i < |o.members| :: o.members[i].Name()
  }

  predicate MemberConforms(h: Host, v: Value, m: Member)
    decreases m
  {
    match m
    case FieldMember(f) => Matches(h, v, f.effective)
    case CollectionMember(c) =>
      v.List? && EffectiveMinimum(c) <= |v.items| && (c.maxItems.Some? ==> |v.items| <= c.maxItems.value) &&
      forall i | 0 <= i < |v.items| :: Conforms(h, v.items[i], c.row)
  }

  /** Exactly the declared members, each of its declared shape. */
  predicate Conforms(h: Host, v: Value, o: OutputObject)
    decreases o
  {
    v.Object? && v.fields.Keys == MemberNames(o) &&
    forall i | 0 <= i < |o.members| :: o.members[i].Name() in v.fields && MemberConforms(h, v.fields[o.members[i].Name()], o.members[i])
  }

  /** A chain on a value read delivers the declared type: E_OUTPUT_TYPE is unreachable. */
  lemma {:induction false} ChainDeliversType<Scope(!new)>(env: Env<Scope>, scope: Scope, f: Field, path: string)
    requires Trusted(env) && FieldCompiled(env.h, SignaturesOf(env.rt), f) && env.read(scope, f, path).Read?
    ensures var o := EvalCalls(env.h, env.rt, {}, env.read(scope, f, path).value, f.calls);
      o.Ok? ==> IsJSON(env.h, o.value) && Matches(env.h, o.value, f.successful)
  {
    hide EvalCalls, ChainTyped, Matches, IsJSON, RuntimeTyped, ExternalsJSON;
    var v := env.read(scope, f, path).value;
    if EvalCalls(env.h, env.rt, {}, v, f.calls).Ok? {
      EvalCallsSound(env.h, env.rt, {}, v, f.calls, SourceType(f.source), f.successful);
    }
  }

  lemma {:induction false} DefaultMatches(h: Host, f: Field)
    requires FieldDefault(h, f).Ok?
    ensures IsJSON(h, FieldDefault(h, f).value) && Matches(h, FieldDefault(h, f).value, f.successful)
  {
    NormalizeMatches(h, f.default.value.value, f.successful);
  }

  /** A value of the successful type is a value of the effective type. */
  lemma {:induction false} SuccessfulIsEffective(h: Host, v: Value, f: Field)
    requires Matches(h, v, f.successful) && (f.effective == f.successful || f.effective == LiftNullable(f.successful))
    ensures Matches(h, v, f.effective)
  {}

  /** Under every missing-value and error policy, a field that yields a value yields one of its effective type. */
  lemma {:induction false} FieldConforms<Scope(!new)>(env: Env<Scope>, scope: Scope, f: Field, path: string)
    requires Trusted(env) && FieldCompiled(env.h, SignaturesOf(env.rt), f) && ExecField(env, scope, f, path).result.Ok?
    ensures Matches(env.h, ExecField(env, scope, f, path).result.value, f.effective)
  {
    hide Trusted, EvalCalls, ChainTyped, Matches, IsJSON, Normalize, WellFormed;
    var v := ExecField(env, scope, f, path).result.value;
    if FieldDefault(env.h, f) == Ok(v) {
      DefaultMatches(env.h, f);
      SuccessfulIsEffective(env.h, v, f);
    } else if v == Null && f.effective.Nullable? {
      assert Matches(env.h, v, f.effective) by { NullMatches(env.h, f.effective); }
    } else {
      ChainDeliversType(env, scope, f, path);
      SuccessfulIsEffective(env.h, v, f);
    }
  }

  lemma {:induction false} NullMatches(h: Host, t: Type)
    requires t.Nullable?
    ensures Matches(h, Null, t)
  {}

  /** Every successful run yields exactly the declared members, each of its effective type,
      and every collection within its bounds, at every depth. */
  lemma {:induction false} ObjectConforms<Scope(!new)>(env: Env<Scope>, scope: Scope, o: OutputObject, path: string)
    requires Trusted(env) && ObjectCompiled(env.h, SignaturesOf(env.rt), o) && ExecObject(env, scope, o, path).result.Ok?
    ensures Conforms(env.h, ExecObject(env, scope, o, path).result.value, o)
    decreases o, 3
  {
    hide Trusted, MemberCompiled, MemberConforms;
    MembersConform(env, scope, o, 0, path);
  }

  lemma {:induction false} MembersConform<Scope(!new)>(env: Env<Scope>, scope: Scope, o: OutputObject, i: nat, path: string)
    requires Trusted(env) && ObjectCompiled(env.h, SignaturesOf(env.rt), o) && i <= |o.members|
    requires ExecMembers(env, scope, o, i, path).result.Ok?
    ensures var fields := ExecMembers(env, scope, o, i, path).result.value.fields;
      && fields.Keys == (set k | i <= k < |o.members| :: o.members[k].Name())
      && forall k | i <= k < |o.members| :: o.members[k].Name() in fields && MemberConforms(env.h, fields[o.members[k].Name()], o.members[k])
    decreases o, 2, |o.members| - i
  {
    hide Trusted, MemberCompiled, MemberConforms, ExecMember;
    if i < |o.members| {
      var m := o.members[i];
      var first := ExecMember(env, scope, m, path + "." + m.Name());
      assert MemberCompiled(env.h, SignaturesOf(env.rt), m);
      MemberRunConforms(env, scope, m, path + "." + m.Name());
      MembersConform(env, scope, o, i + 1, path);
      var rest := ExecMembers(env, scope, o, i + 1, path).result.value.fields;
      var fields := ExecMembers(env, scope, o, i, path).result.value.fields;
      assert fields == map[m.Name() := first.result.value] + rest;
      assert m.Name() !in rest.Keys;
      assert fields.Keys == {m.Name()} + rest.Keys;
    }
  }

  lemma {:induction false} MemberRunConforms<Scope(!new)>(env: Env<Scope>, scope: Scope, m: Member, path: string)
    requires Trusted(env) && MemberCompiled(env.h, SignaturesOf(env.rt), m) && ExecMember(env, scope, m, path).result.Ok?
    ensures MemberConforms(env.h, ExecMember(env, scope, m, path).result.value, m)
    decreases m, 4
  {
    hide Trusted, FieldCompiled, ObjectCompiled, ExecField, Conforms, ExecRows, Matches;
    match m {
      case FieldMember(f) => FieldConforms(env, scope, f, path);
      case CollectionMember(c) =>
        var rows := env.query(scope, c, path).rows;
        RowsConform(env, rows, c, 0, 0, path);
    }
  }

  lemma {:induction false} RowsConform<Scope(!new)>(env: Env<Scope>, rows: seq<Scope>, c: Collection, i: nat, kept: nat, path: string)
    requires Trusted(env) && ObjectCompiled(env.h, SignaturesOf(env.rt), c.row) && i <= |rows|
    requires ExecRows(env, rows, c, i, kept, path).result.Ok?
    requires c.maxItems.Some? ==> kept <= c.maxItems.value || kept == 0
    ensures var items := ExecRows(env, rows, c, i, kept, path).result.value.items;
      && (forall k | 0 <= k < |items| :: Conforms(env.h, items[k], c.row))
      && (c.maxItems.Some? ==> kept + |items| <= c.maxItems.value || |items| == 0)
    decreases c, 4, |rows| - i
  {
    hide Trusted, ObjectCompiled, Conforms, ExecObject, RowPath;
    if i < |rows| {
      var row := ExecObject(env, rows[i], c.row, RowPath(path, i));
      if row.result.Err? {
        RowsConform(env, rows, c, i + 1, kept, path);
      } else {
        ObjectConforms(env, rows[i], c.row, RowPath(path, i));
        RowsConform(env, rows, c, i + 1, kept + 1, path);
      }
    }
  }

  // ---------- warnings ----------

  /** Nothing is recorded without marking the result partial. */
  lemma {:induction false} WarningsArePartial<Scope>(env: Env<Scope>, scope: Scope, o: OutputObject, i: nat, path: string)
    requires i <= |o.members|
    ensures var r := ExecMembers(env, scope, o, i, path); r.warnings != [] ==> r.partial
    decreases o, 2, |o.members| - i
  {
    hide ExecMember;
    if i < |o.members| && !env.canceled(path, i) {
      var m := o.members[i];
      MemberWarningsArePartial(env, scope, m, path + "." + m.Name());
      WarningsArePartial(env, scope, o, i + 1, path);
    }
  }

  lemma {:induction false} MemberWarningsArePartial<Scope>(env: Env<Scope>, scope: Scope, m: Member, path: string)
    ensures var r := ExecMember(env, scope, m, path); r.warnings != [] ==> r.partial
    decreases m, 4
  {
    hide EvalCalls, Matches, FieldDefault, MissingOutput, ExecRows;
    if m.CollectionMember? && env.query(scope, m.collection, path).Rows? {
      RowWarningsArePartial(env, env.query(scope, m.collection, path).rows, m.collection, 0, 0, path);
    }
  }

  lemma {:induction false} RowWarningsArePartial<Scope>(env: Env<Scope>, rows: seq<Scope>, c: Collection, i: nat, kept: nat, path: string)
    requires i <= |rows|
    ensures var r := ExecRows(env, rows, c, i, kept, path); r.warnings != [] ==> r.partial
    decreases c, 4, |rows| - i
  {
    hide RowPath, ExecMembers;
    if i < |rows| && !env.canceled(path, i) {
      WarningsArePartial(env, rows[i], c.row, 0, RowPath(path, i));
      RowWarningsArePartial(env, rows, c, i + 1, kept, path);
      RowWarningsArePartial(env, rows, c, i + 1, kept + 1, path);
    }
  }

  /** finalizeResult. */
  function FinalWarnings(r: Run): seq<Warning> {
    if r.partial then r.warnings + [Warning(PartialExtraction, "", None)] else r.warnings
  }

  /** In the final result there are warnings exactly when the result is partial. */
  lemma {:induction false} FinalWarningsIffPartial<Scope>(env: Env<Scope>, scope: Scope, o: OutputObject, path: string)
    ensures var r := ExecObject(env, scope, o, path); FinalWarnings(r) != [] <==> r.partial
  {
    WarningsArePartial(env, scope, o, 0, path);
  }

  // ---------- rows ----------

  function SkippedAt(warnings: seq<Warning>, path: string): nat {
    if warnings == [] then 0
    else SkippedAt(warnings[..|warnings| - 1], path) + (if Last(warnings).code == RowSkipped && Last(warnings).path == path then 1 else 0)
  }

  function Last<T>(s: seq<T>): T
    requires s != []
  {
    s[|s| - 1]
  }

  lemma {:induction false} SkippedAtSum(a: seq<Warning>, b: seq<Warning>, path: string)
    ensures SkippedAt(a + b, path) == SkippedAt(a, path) + SkippedAt(b, path)
  {
    if b == [] {
      assert a + b == a;
    } else {
      assert (a + b)[..|a + b| - 1] == a + b[..|b| - 1];
      SkippedAtSum(a, b[..|b| - 1], path);
    }
  }

  predicate Longer(warnings: seq<Warning>, n: nat) {
    forall w | w in warnings :: |w.path| > n
  }

  /** Everything recorded below a path is recorded under a longer one. */
  lemma {:induction false} WarningPathsGrow<Scope>(env: Env<Scope>, scope: Scope, o: OutputObject, i: nat, path: string)
    requires i <= |o.members|
    ensures Longer(ExecMembers(env, scope, o, i, path).warnings, |path|)
    decreases o, 2, |o.members| - i
  {
    hide ExecMember;
    if i < |o.members| && !env.canceled(path, i) {
      var m := o.members[i];
      MemberWarningPaths(env, scope, m, path + "." + m.Name());
      WarningPathsGrow(env, scope, o, i + 1, path);
    }
  }

  lemma {:induction false} MemberWarningPaths<Scope>(env: Env<Scope>, scope: Scope, m: Member, path: string)
    requires path != ""
    ensures Longer(ExecMember(env, scope, m, path).warnings, |path| - 1)
    decreases m, 4
  {
    hide EvalCalls, Matches, FieldDefault, MissingOutput, ExecRows;
    if m.CollectionMember? && env.query(scope, m.collection, path).Rows? {
      RowWarningPaths(env, env.query(scope, m.collection, path).rows, m.collection, 0, 0, path);
    }
  }

  lemma {:induction false} RowWarningPaths<Scope>(env: Env<Scope>, rows: seq<Scope>, c: Collection, i: nat, kept: nat, path: string)
    requires i <= |rows| && path != ""
    ensures Longer(ExecRows(env, rows, c, i, kept, path).warnings, |path| - 1)
    decreases c, 4, |rows| - i
  {
    hide IntText, ExecMembers;
    if i < |rows| && !env.canceled(path, i) {
      WarningPathsGrow(env, rows[i], c.row, 0, RowPath(path, i));
      RowWarningPaths(env, rows, c, i + 1, kept, path);
      RowWarningPaths(env, rows, c, i + 1, kept + 1, path);
    }
  }

  lemma {:induction false} NoneSkippedBelow(warnings: seq<Warning>, path: string)
    requires Longer(warnings, |path|)
    ensures SkippedAt(warnings, path) == 0
  {
    if warnings != [] {
      assert Last(warnings) in warnings;
      assert forall w | w in warnings[..|warnings| - 1] :: w in warnings;
      NoneSkippedBelow(warnings[..|warnings| - 1], path);
    }
  }

  /** The rows from the i-th on that run without error, in the order they were queried. */
  function GoodRows<Scope>(env: Env<Scope>, rows: seq<Scope>, c: Collection, i: nat, path: string): seq<Value>
    requires i <= |rows|
    decreases |rows| - i
  {
    if i == |rows| then []
    else
      var o := ExecObject(env, rows[i], c.row, RowPath(path, i)).result;
      (if o.Ok? then [o.value] else []) + GoodRows(env, rows, c, i + 1, path)
  }

  /** Kept rows plus skipped rows are the queried rows; the kept ones are the rows that ran
      without error, in order. */
  lemma {:induction false} RowsAccounted<Scope>(env: Env<Scope>, rows: seq<Scope>, c: Collection, i: nat, kept: nat, path: string)
    requires i <= |rows| && ExecRows(env, rows, c, i, kept, path).result.Ok?
    ensures var r := ExecRows(env, rows, c, i, kept, path);
      && r.result.value.items == GoodRows(env, rows, c, i, path)
      && |r.result.value.items| + SkippedAt(r.warnings, path) == |rows| - i
    decreases |rows| - i
  {
    hide ExecObject, RowPath, SkippedAt;
    if i == |rows| {
      NoneSkippedBelow([], path);
    } else {
      var row := ExecObject(env, rows[i], c.row, RowPath(path, i));
      NothingSkippedInside(env, rows[i], c, path, i);
      var next := if row.result.Ok? then kept + 1 else kept;
      var rest := ExecRows(env, rows, c, i + 1, next, path);
      RowsAccounted(env, rows, c, i + 1, next, path);
      if row.result.Ok? {
        SkippedAtSum(row.warnings, rest.warnings, path);
      } else {
        OneMoreSkipped(row.warnings, rest.warnings, path, i);
      }
    }
  }

  lemma {:induction false} OneMoreSkipped(before: seq<Warning>, after: seq<Warning>, path: string, i: nat)
    ensures SkippedAt(before + [Warning(RowSkipped, path, Some(i))] + after, path) == SkippedAt(before, path) + 1 + SkippedAt(after, path)
  {
    var one := [Warning(RowSkipped, path, Some(i))];
    assert one[..0] == [];
    assert SkippedAt(one, path) == 1;
    SkippedAtSum(before, one, path);
    SkippedAtSum(before + one, after, path);
  }

  /** Only the policy `skip` skips a row, and never one that failed because the run was canceled. */
  lemma {:induction false} SkippingIsLimited<Scope>(env: Env<Scope>, rows: seq<Scope>, c: Collection, i: nat, kept: nat, path: string, k: nat)
    requires i <= k < |rows| && ExecRows(env, rows, c, i, kept, path).result.Ok?
    ensures var o := ExecObject(env, rows[k], c.row, RowPath(path, k)).result;
      o.Err? ==> c.onRowError == "skip" && o.code != ExecutionCanceled
    decreases |rows| - i
  {
    hide ExecObject, RowPath;
    if i < k {
      var row := ExecObject(env, rows[i], c.row, RowPath(path, i));
      SkippingIsLimited(env, rows, c, i + 1, if row.result.Ok? then kept + 1 else kept, path, k);
    }
  }

  lemma {:induction false} NothingSkippedInside<Scope>(env: Env<Scope>, row: Scope, c: Collection, path: string, i: nat)
    ensures SkippedAt(ExecObject(env, row, c.row, RowPath(path, i)).warnings, path) == 0
  {
    hide ExecMembers, IntText;
    WarningPathsGrow(env, row, c.row, 0, RowPath(path, i));
    NoneSkippedBelow(ExecObject(env, row, c.row, RowPath(path, i)).warnings, path);
  }

  /** The accounting of one whole collection. */
  lemma {:induction false} CollectionAccounted<Scope>(env: Env<Scope>, scope: Scope, c: Collection, path: string)
    requires ExecCollection(env, scope, c, path).result.Ok?
    ensures var r := ExecCollection(env, scope, c, path);
      && env.query(scope, c, path).Rows? && r.result.value.List?
      && r.result.value.items == GoodRows(env, env.query(scope, c, path).rows, c, 0, path)
      && |r.result.value.items| + SkippedAt(r.warnings, path) == |env.query(scope, c, path).rows|
  {
    hide ExecRows, GoodRows, SkippedAt;
    RowsAccounted(env, env.query(scope, c, path).rows, c, 0, 0, path);
  }

  /** A row that does not end the collection: it was not canceled, and ran or may be skipped. */
  predicate RowPasses<Scope>(env: Env<Scope>, row: Scope, c: Collection, i: nat, path: string) {
    var o := ExecObject(env, row, c.row, RowPath(path, i)).result;
    !env.canceled(path, i) && (o.Ok? || (c.onRowError == "skip" && o.code != ExecutionCanceled))
  }

  lemma {:induction false} RowsSucceedIff<Scope>(env: Env<Scope>, rows: seq<Scope>, c: Collection, i: nat, kept: nat, path: string)
    requires i <= |rows| && (c.maxItems.Some? ==> kept <= c.maxItems.value)
    ensures ExecRows(env, rows, c, i, kept, path).result.Ok? <==>
      && (forall k | i <= k < |rows| :: RowPasses(env, rows[k], c, k, path))
      && (c.maxItems.Some? ==> kept + |GoodRows(env, rows, c, i, path)| <= c.maxItems.value)
    decreases |rows| - i
  {
    hide ExecObject, RowPath;
    if i < |rows| {
      var o := ExecObject(env, rows[i], c.row, RowPath(path, i)).result;
      if o.Err? {
        RowsSucceedIff(env, rows, c, i + 1, kept, path);
      } else if c.maxItems.Some? ==> kept + 1 <= c.maxItems.value {
        RowsSucceedIff(env, rows, c, i + 1, kept + 1, path);
      }
    }
  }

  /** A collection succeeds exactly when its rows can be queried, each runs or may be skipped, and as many
      rows are left as its bounds ask for. */
  lemma {:induction false} CollectionSucceedsIff<Scope>(env: Env<Scope>, scope: Scope, c: Collection, path: string)
    requires c.maxItems.Some? ==> c.maxItems.value >= 0
    ensures ExecCollection(env, scope, c, path).result.Ok? <==>
      env.query(scope, c, path).Rows? &&
      var rows := env.query(scope, c, path).rows;
      var good := |GoodRows(env, rows, c, 0, path)|;
      && (forall k | 0 <= k < |rows| :: RowPasses(env, rows[k], c, k, path))
      && EffectiveMinimum(c) <= good && (c.maxItems.Some? ==> good <= c.maxItems.value)
  {
    hide ExecRows, GoodRows, RowPasses, EffectiveMinimum, SkippedAt;
    if env.query(scope, c, path).Rows? {
      var rows := env.query(scope, c, path).rows;
      RowsSucceedIff(env, rows, c, 0, 0, path);
      if ExecRows(env, rows, c, 0, 0, path).result.Ok? {
        RowsAccounted(env, rows, c, 0, 0, path);
      }
    }
  }

  /** A required collection has at least one row, whatever minimum it gives. */
  lemma {:induction false} RequiredMeansOne(c: Collection)
    ensures c.required ==> EffectiveMinimum(c) >= 1
    ensures EffectiveMinimum(c) >= c.minItems && (!c.required || c.minItems >= 1 ==> EffectiveMinimum(c) == c.minItems)
  {}

  // ---------- objects ----------

  /** The warnings of the members from the i-th on, in order. */
  function MemberWarnings<Scope>(env: Env<Scope>, scope: Scope, o: OutputObject, i: nat, path: string): seq<Warning>
    requires i <= |o.members|
    decreases |o.members| - i
  {
    if i == |o.members| then [] else
    ExecMember(env, scope, o.members[i], path + "." + o.members[i].Name()).warnings + MemberWarnings(env, scope, o, i + 1, path)
  }

  /** An object has each member's own result under its name, and nothing else. */
  lemma {:induction false} ObjectHoldsMembers<Scope>(env: Env<Scope>, scope: Scope, o: OutputObject, i: nat, path: string)
    requires i <= |o.members| && NamesDistinct(o) && ExecMembers(env, scope, o, i, path).result.Ok?
    ensures var r := ExecMembers(env, scope, o, i, path);
      && (forall k | i <= k < |o.members| ::
           var m := o.members[k];
           m.Name() in r.result.value.fields &&
           ExecMember(env, scope, m, path + "." + m.Name()).result == Ok(r.result.value.fields[m.Name()]))
      && (forall name | name in r.result.value.fields :: exists k | i <= k < |o.members| :: o.members[k].Name() == name)
    decreases |o.members| - i
  {
    hide ExecMember;
    if i < |o.members| {
      ObjectHoldsMembers(env, scope, o, i + 1, path);
      var m := o.members[i];
      assert forall k | i < k < |o.members| :: o.members[k].Name() != m.Name();
    }
  }

  predicate PartialAt<Scope>(env: Env<Scope>, scope: Scope, o: OutputObject, k: nat, path: string)
    requires k < |o.members|
  {
    ExecMember(env, scope, o.members[k], path + "." + o.members[k].Name()).partial
  }

  /** It has the warnings of its members in order, and is partial when some member is. */
  lemma {:induction false} ObjectWarns<Scope>(env: Env<Scope>, scope: Scope, o: OutputObject, i: nat, path: string)
    requires i <= |o.members| && ExecMembers(env, scope, o, i, path).result.Ok?
    ensures var r := ExecMembers(env, scope, o, i, path);
      && r.warnings == MemberWarnings(env, scope, o, i, path)
      && (r.partial <==> exists k | i <= k < |o.members| :: PartialAt(env, scope, o, k, path))
    decreases |o.members| - i
  {
    hide ExecMember;
    if i < |o.members| {
      ObjectWarns(env, scope, o, i + 1, path);
      var r := ExecMembers(env, scope, o, i, path);
      assert r.partial <==> PartialAt(env, scope, o, i, path) || ExecMembers(env, scope, o, i + 1, path).partial;
    }
  }

  /** An object fails with the error of its first member that fails, or with a cancellation before it. */
  lemma {:induction false} ObjectFailsWith<Scope>(env: Env<Scope>, scope: Scope, o: OutputObject, i: nat, path: string) returns (k: nat)
    requires i <= |o.members| && ExecMembers(env, scope, o, i, path).result.Err?
    ensures i <= k < |o.members|
    ensures forall j | i <= j < k :: !env.canceled(path, j) && ExecMember(env, scope, o.members[j], path + "." + o.members[j].Name()).result.Ok?
    ensures var r := ExecMembers(env, scope, o, i, path).result;
      if env.canceled(path, k) then r.code == ExecutionCanceled else r == ExecMember(env, scope, o.members[k], path + "." + o.members[k].Name()).result
    decreases |o.members| - i
  {
    hide ExecMember;
    k := i;
    if !env.canceled(path, i) && ExecMember(env, scope, o.members[i], path + "." + o.members[i].Name()).result.Ok? {
      k := ObjectFailsWith(env, scope, o, i + 1, path);
    }
  }

  // ---------- where the guarantees stop ----------

  /** An external transform that returns a map holding a Go value outside JSON breaks type
      soundness: the program is well typed, and the value ends as an `unknown` it does not match. */
  lemma {:induction false} ExternalsMustBeJSON(h: Host, v: Value)
    requires h.external("x", v) == Some(Object(map["k" := Foreign]))
    ensures var anyMap := Primitive("object");
      var rt := Runtime(map["s" := External(STRING, anyMap, "x")], {"x"});
      var calls := [Call(DeclaredTarget("s"), [], [], STRING, anyMap)];
      && RuntimeTyped(rt) && ChainTyped(SignaturesOf(rt), calls, STRING, UNKNOWN)
      && EvalCalls(h, rt, {}, v, calls).Ok?
      && !Matches(h, EvalCalls(h, rt, {}, v, calls).value, UNKNOWN)
  {
    ObjectIsNotAlwaysUnknown(h);
    var anyMap := Primitive("object");
    var rt := Runtime(map["s" := External(STRING, anyMap, "x")], {"x"});
    var calls := [Call(DeclaredTarget("s"), [], [], STRING, anyMap)];
    assert calls[1..] == [];
    assert EvalTarget(h, rt, {}, v, calls[0]) == EvalDeclared(h, rt, {}, "s", v);
  }

  // ---------- missing values ----------

  /** A missing value is an error exactly for a required field; otherwise it is the default, normalised,
      or null. Nothing is recorded. */
  lemma {:induction false} MissingBecomes<Scope>(env: Env<Scope>, g: Signatures, scope: Scope, f: Field, path: string)
    requires FieldCompiled(env.h, g, f) && env.read(scope, f, path) == Missing
    ensures var r := ExecField(env, scope, f, path);
      && r.warnings == [] && !r.partial
      && (f.required ==> r.result == Err(RequiredValueMissing))
      && (!f.required && f.default.None? ==> r.result == Ok(Null))
      && (!f.required && f.default.Some? ==> r.result == Ok(Normalize(env.h, f.default.value.value, f.successful).value))
  {
    hide Normalize, ChainTyped, WellFormed, IsAssignable;
  }

  /** What is read and passes its chain and its type is what the field yields, with nothing recorded. */
  lemma {:induction false} ReadBecomes<Scope(!new)>(env: Env<Scope>, scope: Scope, f: Field, path: string)
    requires Trusted(env) && FieldCompiled(env.h, SignaturesOf(env.rt), f) && env.read(scope, f, path).Read?
    requires EvalCalls(env.h, env.rt, {}, env.read(scope, f, path).value, f.calls).Ok?
    ensures ExecField(env, scope, f, path) == Run(EvalCalls(env.h, env.rt, {}, env.read(scope, f, path).value, f.calls), [], false)
  {
    hide EvalCalls, FieldCompiled, Trusted, Matches;
    ChainDeliversType(env, scope, f, path);
  }

  // ---------- cancellation ----------

  /** The read or the chain of a field fails. */
  predicate FailsWith<Scope>(env: Env<Scope>, scope: Scope, f: Field, path: string, cause: Code) {
    match env.read(scope, f, path)
    case Missing => false
    case ReadFailed(code) => code == cause
    case Read(v) => EvalCalls(env.h, env.rt, {}, v, f.calls) == Err(cause)
  }

  /** A field whose read or chain fails, be it with a cancellation, yields a value exactly under the
      policies `null` and `warn`, and under `default` when its default is usable; it always says so. */
  lemma {:induction false} FieldAbsorbsIff<Scope>(env: Env<Scope>, scope: Scope, f: Field, path: string, cause: Code)
    requires FailsWith(env, scope, f, path, cause)
    ensures var r := ExecField(env, scope, f, path);
      && (r.result.Ok? <==>
           Policy(f) == "null" || Policy(f) == "warn" || (Policy(f) == "default" && FieldDefault(env.h, f).Ok?))
      && (r.result.Ok? ==> r.partial && r.result == if Policy(f) == "default" then FieldDefault(env.h, f) else Ok(Null))
      && r.warnings == (if Policy(f) == "warn" then [Warning(ErrorRecovered, path, None)] else [])
      && (r.result.Err? && Policy(f) == "fail" ==> r.result.code == if cause == Plain then FieldExecution else cause)
  {
    hide EvalCalls, FieldDefault;
  }

  /** A compiled program whose one field is canceled and that succeeds all the same. */
  lemma {:induction false} CanceledFieldSucceeds<Scope>(env: Env<Scope>, scope: Scope, g: Signatures)
    requires !env.canceled("output", 0)
    ensures var f := Field("output.x", "x", STRING, Nullable(STRING), false, None, Some(Selection("a", "one")), TextSource(STRING), [], "null");
      var o := OutputObject([FieldMember(f)]);
      && ObjectCompiled(env.h, g, o)
      && (env.read(scope, f, "output.x") == ReadFailed(ExecutionCanceled) ==>
           ExecObject(env, scope, o, "output") == Run(Ok(Object(map["x" := Null])), [], true))
  {
    var f := Field("output.x", "x", STRING, Nullable(STRING), false, None, Some(Selection("a", "one")), TextSource(STRING), [], "null");
    var o := OutputObject([FieldMember(f)]);
    assert ObjectCompiled(env.h, g, o);
    if env.read(scope, f, "output.x") == ReadFailed(ExecutionCanceled) {
      assert "output" + "." + "x" == "output.x";
      assert ExecMember(env, scope, o.members[0], "output.x") == Run(Ok(Null), [], true);
      assert ExecMembers(env, scope, o, 1, "output") == Quiet(Ok(Object(map[])));
      assert map["x" := Null] + map[] == map["x" := Null];
    }
  }

  /** What the walker itself checks is never absorbed: a run that succeeds was canceled before none of
      its members. */
  lemma {:induction false} ChecksAreFinal<Scope>(env: Env<Scope>, scope: Scope, o: OutputObject, i: nat, path: string)
    requires i <= |o.members| && ExecMembers(env, scope, o, i, path).result.Ok?
    ensures forall k | i <= k < |o.members| :: !env.canceled(path, k)
    decreases |o.members| - i
  {
    hide ExecMember;
    if i < |o.members| {
      ChecksAreFinal(env, scope, o, i + 1, path);
    }
  }

  /** Nor before any row of a collection, skipped or not. */
  lemma {:induction false} RowChecksAreFinal<Scope>(env: Env<Scope>, rows: seq<Scope>, c: Collection, i: nat, kept: nat, path: string)
    requires i <= |rows| && ExecRows(env, rows, c, i, kept, path).result.Ok?
    ensures forall k | i <= k < |rows| :: !env.canceled(path, k)
    decreases |rows| - i
  {
    hide ExecObject, RowPath;
    if i < |rows| {
      var row := ExecObject(env, rows[i], c.row, RowPath(path, i));
      RowChecksAreFinal(env, rows, c, i + 1, if row.result.Ok? then kept + 1 else kept, path);
    }
  }
}
