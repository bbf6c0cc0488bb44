/** The output walker of internal/executor/output_walker.go and output_semantics.go. */
module Walker {
  import opened Options
  import opened Text
  import opened Values
  import opened IR
  import opened Transforms

  datatype WarningCode = ErrorRecovered | RowSkipped | PartialExtraction

  datatype Warning = Warning(code: WarningCode, path: string, row: Option<nat>)

  datatype Reading = Read(value: Value) | Missing | ReadFailed(code: Code)

  datatype Rows<+Scope> = Rows(rows: seq<Scope>) | RowsFailed(code: Code)

  /** What the walker is given: the transforms, a reader of fields and rows, and at which of its
      checks (by path and index) the context is found canceled. */
  datatype Env<!Scope> = Env(
    h: Host,
    rt: Runtime,
    read: (Scope, Field, string) -> Reading,
    query: (Scope, Collection, string) -> Rows<Scope>,
    canceled: (string, nat) -> bool)

  /** A result together with what was recorded on the way to it. */
  datatype Run = Run(result: Outcome, warnings: seq<Warning>, partial: bool) {
    function After(before: Run): Run {
      Run(result, before.warnings + warnings, before.partial || partial)
    }
  }

  function Quiet(result: Outcome): Run {
    Run(result, [], false)
  }

  // ---------- what a run computes ----------

  function FieldDefault(h: Host, f: Field): Outcome {
    if f.default.None? || f.default.value.Malformed? then Err(IRInvalid)
    else
      match Normalize(h, f.default.value.value, f.successful)
      case None => Err(IRInvalid)
      case Some(v) => Ok(v)
  }

  function MissingOutput(h: Host, f: Field): Outcome {
    if f.required then Err(RequiredValueMissing)
    else if f.default.Some? then FieldDefault(h, f)
    else Ok(Null)
  }

  function Policy(f: Field): string {
    if f.onError != "" then f.onError else if f.required then "fail" else "null"
  }

  function Recover(h: Host, f: Field, path: string, cause: Code): Run {
    var policy := Policy(f);
    if policy == "fail" then Quiet(Err(if cause == Plain then FieldExecution else cause))
    else if policy == "null" then Run(Ok(Null), [], true)
    else if policy == "warn" then Run(Ok(Null), [Warning(ErrorRecovered, path, None)], true)
    else if policy == "default" then
      (match FieldDefault(h, f)
       case Err(code) => Quiet(Err(code))
       case Ok(v) => Run(Ok(v), [], true))
    else Quiet(Err(IRInvalid))
  }

  function ExecField<Scope>(env: Env<Scope>, scope: Scope, f: Field, path: string): Run {
    match env.read(scope, f, path)
    case Missing => Quiet(MissingOutput(env.h, f))
    case ReadFailed(code) => Recover(env.h, f, path, code)
    case Read(v) =>
      match EvalCalls(env.h, env.rt, {}, v, f.calls)
      case Err(code) => Recover(env.h, f, path, code)
      case Ok(w) => if Matches(env.h, w, f.successful) then Quiet(Ok(w)) else Recover(env.h, f, path, OutputType)
  }

  function RowPath(path: string, i: nat): string {
    path + "[" + IntText(i) + "]"
  }

  function ExecObject<Scope>(env: Env<Scope>, scope: Scope, o: OutputObject, path: string): Run
    decreases o, 3
  {
    ExecMembers(env, scope, o, 0, path)
  }

  /** The members from the i-th on. */
  function ExecMembers<Scope>(env: Env<Scope>, scope: Scope, o: OutputObject, i: nat, path: string): (r: Run)
    requires i <= |o.members|
    ensures r.result.Ok? ==> r.result.value.Object?
    decreases o, 2, |o.members| - i
  {
    if i == |o.members| then Quiet(Ok(Object(map[])))
    else if env.canceled(path, i) then Quiet(Err(ExecutionCanceled))
    else
      var m := o.members[i];
      var first := ExecMember(env, scope, m, path + "." + m.Name());
      if first.result.Err? then first
      else
        var rest := ExecMembers(env, scope, o, i + 1, path).After(first);
        if rest.result.Err? then rest
        else rest.(result := Ok(Object(map[m.Name() := first.result.value] + rest.result.value.fields)))
  }

  function ExecMember<Scope>(env: Env<Scope>, scope: Scope, m: Member, path: string): Run
    decreases m, 4
  {
    match m
    case FieldMember(f) => ExecField(env, scope, f, path)
    case CollectionMember(c) => ExecCollection(env, scope, c, path)
  }

  function ExecCollection<Scope>(env: Env<Scope>, scope: Scope, c: Collection, path: string): Run
    decreases c, 5
  {
    match env.query(scope, c, path)
    case RowsFailed(code) => Quiet(Err(code))
    case Rows(rows) =>
      var run := ExecRows(env, rows, c, 0, 0, path);
      if run.result.Ok? && |run.result.value.items| < EffectiveMinimum(c) then run.(result := Err(CollectionCardinality)) else run
  }

  function EffectiveMinimum(c: Collection): int {
    if c.required && c.minItems < 1 then 1 else c.minItems
  }

  /** The rows from the i-th on, when `kept` rows are in the result already. */
  function ExecRows<Scope>(env: Env<Scope>, rows: seq<Scope>, c: Collection, i: nat, kept: nat, path: string): (r: Run)
    requires i <= |rows|
    ensures r.result.Ok? ==> r.result.value.List?
    decreases c, 4, |rows| - i
  {
    if i == |rows| then Quiet(Ok(List([])))
    else if env.canceled(path, i) then Quiet(Err(ExecutionCanceled))
    else
      var row := ExecObject(env, rows[i], c.row, RowPath(path, i));
      match row.result
      case Err(code) =>
        if code == ExecutionCanceled || c.onRowError != "skip" then row
        else ExecRows(env, rows, c, i + 1, kept, path).After(Skipped(row, path, i))
      case Ok(v) =>
        if c.maxItems.Some? && kept + 1 > c.maxItems.value then row.(result := Err(CollectionCardinality))
        else
          var rest := ExecRows(env, rows, c, i + 1, kept + 1, path).After(row);
          if rest.result.Err? then rest else rest.(result := Ok(List([v] + rest.result.value.items)))
  }

  function Skipped(row: Run, path: string, i: nat): Run {
    Run(row.result, row.warnings + [Warning(RowSkipped, path, Some(i))], true)
  }

  /** The walker: it writes through its warnings and partial flag. */
  class OutputWalker<Scope> {
    const env: Env<Scope>
    var warnings: seq<Warning>
    var partial: bool

    constructor (env: Env<Scope>)
      ensures this.env == env && warnings == [] && !partial
    {
      this.env := env;
      warnings, partial := [], false;
    }

    /** The run `r`, started with these warnings and this flag, ends in the present state. */
    twostate predicate Recorded(r: Run)
      reads this
    {
      warnings == old(warnings) + r.warnings && partial == (old(partial) || r.partial)
    }

    method RecoverOutputField(f: Field, path: string, cause: Code) returns (r: Outcome)
      modifies this`warnings, this`partial
      ensures r == Recover(env.h, f, path, cause).result && Recorded(Recover(env.h, f, path, cause))
    {
      hide FieldDefault;
      var policy := f.onError;
      if policy == "" {
        policy := if f.required then "fail" else "null";
      }
      if policy == "fail" {
        return Err(if cause == Plain then FieldExecution else cause);
      } else if policy == "null" {
        partial := true;
        return Ok(Null);
      } else if policy == "warn" {
        partial := true;
        warnings := warnings + [Warning(ErrorRecovered, path, None)];
        return Ok(Null);
      } else if policy == "default" {
        r := FieldDefault(env.h, f);
        if r.Ok? {
          partial := true;
        }
      } else {
        return Err(IRInvalid);
      }
    }

    method ExecuteField(scope: Scope, f: Field, path: string) returns (r: Outcome)
      modifies this`warnings, this`partial
      ensures r == ExecField(env, scope, f, path).result && Recorded(ExecField(env, scope, f, path))
    {
      hide Recover, MissingOutput, EvalCalls, Matches;
      match env.read(scope, f, path) {
        case Missing => r := MissingOutput(env.h, f);
        case ReadFailed(code) => r := RecoverOutputField(f, path, code);
        case Read(v) =>
          var transforms := new TransformRuntime(env.h, env.rt);
          var value := transforms.ApplyCalls(v, f.calls);
          if value.Err? {
            r := RecoverOutputField(f, path, value.code);
          } else if !Matches(env.h, value.value, f.successful) {
            r := RecoverOutputField(f, path, OutputType);
          } else {
            r := value;
          }
      }
    }

    method ExecuteObject(scope: Scope, o: OutputObject, path: string) returns (r: Outcome)
      modifies this`warnings, this`partial
      ensures r == ExecObject(env, scope, o, path).result && Recorded(ExecObject(env, scope, o, path))
      decreases o, 3
    {
      hide ExecField, ExecCollection, Continues, ExecMembers;
      var result: map<string, Value> := map[];
      ghost var all := ExecObject(env, scope, o, path);
      ghost var before := Quiet(Ok(Null));
      MembersStart(all);
      for i := 0 to |o.members|
        invariant Recorded(before)
        invariant Continues(all, before, result, ExecMembers(env, scope, o, i, path))
      {
        MembersStep(env, scope, o, i, path, all, before, result);
        var m := o.members[i];
        if env.canceled(path, i) {
          return Err(ExecutionCanceled);
        }
        label Call:
        ghost var first := ExecMember(env, scope, m, path + "." + m.Name());
        var value: Outcome;
        match m {
          case FieldMember(f) => value := ExecuteField(scope, f, path + "." + f.name);
          case CollectionMember(c) => value := ExecuteCollection(scope, c, path + "." + c.name);
        }
        before := Extend(before, first, old@Call(warnings), warnings);
        if value.Err? {
          return value;
        }
        result := result[m.Name() := value.value];
      }
      MembersEnd(env, scope, o, path, all, before, result);
      return Ok(Object(result));
    }

    method ExecuteCollection(scope: Scope, c: Collection, path: string) returns (r: Outcome)
      modifies this`warnings, this`partial
      ensures r == ExecCollection(env, scope, c, path).result && Recorded(ExecCollection(env, scope, c, path))
      decreases c, 5
    {
      hide ExecObject, ExecRows, ContinuesRows;
      var queried := env.query(scope, c, path);
      if queried.RowsFailed? {
        return Err(queried.code);
      }
      var rows := queried.rows;
      var result: seq<Value> := [];
      ghost var before := Quiet(Ok(Null));
      ghost var all := ExecRows(env, rows, c, 0, 0, path);
      RowsStart(all);
      for i := 0 to |rows|
        invariant Recorded(before)
        invariant ContinuesRows(all, before, result, ExecRows(env, rows, c, i, |result|, path))
      {
        RowsStep(env, rows, c, i, path, all, before, result);
        if env.canceled(path, i) {
          return Err(ExecutionCanceled);
        }
        label Call:
        ghost var row := ExecObject(env, rows[i], c.row, RowPath(path, i));
        var value := ExecuteObject(rows[i], c.row, RowPath(path, i));
        ghost var next := Extend(before, row, old@Call(warnings), warnings);
        if value.Err? {
          if value.code == ExecutionCanceled || c.onRowError != "skip" {
            return value;
          }
          partial := true;
          warnings := warnings + [Warning(RowSkipped, path, Some(i))];
          before := Skipped(row, path, i).After(before);
        } else {
          before := next;
          result := result + [value.value];
          if c.maxItems.Some? && |result| > c.maxItems.value {
            return Err(CollectionCardinality);
          }
        }
      }
      RowsEnd(env, rows, c, path, all, before, result);
      if |result| < EffectiveMinimum(c) {
        return Err(CollectionCardinality);
      }
      return Ok(List(result));
    }
  }

  /** Records `first` behind `before`; `from` and `to` are the warnings around it. */
  ghost function Extend(before: Run, first: Run, from: seq<Warning>, to: seq<Warning>): (r: Run)
    requires to == from + first.warnings
    ensures r == first.After(before)
    ensures forall start: seq<Warning> | from == start + before.warnings :: to == start + r.warnings
  {
    first.After(before)
  }

  lemma {:induction false} MembersStart(all: Run)
    requires all.result.Ok? ==> all.result.value.Object?
    ensures Continues(all, Quiet(Ok(Null)), map[], all)
  {
    assert all.result.Ok? ==> map[] + all.result.value.fields == all.result.value.fields;
  }

  lemma {:induction false} MembersEnd<Scope>(env: Env<Scope>, scope: Scope, o: OutputObject, path: string, all: Run, before: Run, result: map<string, Value>)
    requires Continues(all, before, result, ExecMembers(env, scope, o, |o.members|, path))
    ensures all == Run(Ok(Object(result)), before.warnings, before.partial)
  {
    assert result + map[] == result;
  }

  lemma {:induction false} MembersStep<Scope>(env: Env<Scope>, scope: Scope, o: OutputObject, i: nat, path: string, all: Run, before: Run, result: map<string, Value>)
    requires i < |o.members| && Continues(all, before, result, ExecMembers(env, scope, o, i, path))
    ensures env.canceled(path, i) ==> all == Run(Err(ExecutionCanceled), before.warnings, before.partial)
    ensures !env.canceled(path, i) ==>
      var m := o.members[i];
      var first := ExecMember(env, scope, m, path + "." + m.Name());
      if first.result.Err? then all == first.After(before)
      else Continues(all, first.After(before), result[m.Name() := first.result.value], ExecMembers(env, scope, o, i + 1, path))
  {
    hide ExecMember;
    var m := o.members[i];
    if !env.canceled(path, i) {
      var first := ExecMember(env, scope, m, path + "." + m.Name());
      var rest := ExecMembers(env, scope, o, i + 1, path);
      if first.result.Ok? && rest.result.Ok? {
        assert result + (map[m.Name() := first.result.value] + rest.result.value.fields)
          == result[m.Name() := first.result.value] + rest.result.value.fields;
      }
    }
  }

  lemma {:induction false} RowsStart(all: Run)
    requires all.result.Ok? ==> all.result.value.List?
    ensures ContinuesRows(all, Quiet(Ok(Null)), [], all)
  {
    assert all.result.Ok? ==> [] + all.result.value.items == all.result.value.items;
  }

  lemma {:induction false} RowsEnd<Scope>(env: Env<Scope>, rows: seq<Scope>, c: Collection, path: string, all: Run, before: Run, result: seq<Value>)
    requires ContinuesRows(all, before, result, ExecRows(env, rows, c, |rows|, |result|, path))
    ensures all == Run(Ok(List(result)), before.warnings, before.partial)
  {
    assert result + [] == result;
  }

  lemma {:induction false} RowsStep<Scope>(env: Env<Scope>, rows: seq<Scope>, c: Collection, i: nat, path: string, all: Run, before: Run, result: seq<Value>)
    requires i < |rows| && ContinuesRows(all, before, result, ExecRows(env, rows, c, i, |result|, path))
    ensures env.canceled(path, i) ==> all == Run(Err(ExecutionCanceled), before.warnings, before.partial)
    ensures !env.canceled(path, i) ==>
      var row := ExecObject(env, rows[i], c.row, RowPath(path, i));
      if row.result.Err? then
        if row.result.code == ExecutionCanceled || c.onRowError != "skip" then all == row.After(before)
        else ContinuesRows(all, Skipped(row, path, i).After(before), result, ExecRows(env, rows, c, i + 1, |result|, path))
      else if c.maxItems.Some? && |result| + 1 > c.maxItems.value then
        all == Run(Err(CollectionCardinality), before.warnings + row.warnings, before.partial || row.partial)
      else ContinuesRows(all, row.After(before), result + [row.result.value], ExecRows(env, rows, c, i + 1, |result| + 1, path))
  {
    hide ExecObject, IntText;
    if !env.canceled(path, i) {
      var row := ExecObject(env, rows[i], c.row, RowPath(path, i));
      if row.result.Ok? && !(c.maxItems.Some? && |result| + 1 > c.maxItems.value) {
        var rest := ExecRows(env, rows, c, i + 1, |result| + 1, path);
        if rest.result.Ok? {
          assert result + ([row.result.value] + rest.result.value.items) == (result + [row.result.value]) + rest.result.value.items;
        }
      }
    }
  }

  /** `all` is what `rest` becomes behind what is recorded in `before` and the members already in `result`. */
  ghost predicate Continues(all: Run, before: Run, result: map<string, Value>, rest: Run)
    requires rest.result.Ok? ==> rest.result.value.Object?
  {
    && all.warnings == before.warnings + rest.warnings
    && all.partial == (before.partial || rest.partial)
    && all.result == if rest.result.Ok? then Ok(Object(result + rest.result.value.fields)) else rest.result
  }

  ghost predicate ContinuesRows(all: Run, before: Run, result: seq<Value>, rest: Run)
    requires rest.result.Ok? ==> rest.result.value.List?
  {
    && all.warnings == before.warnings + rest.warnings
    && all.partial == (before.partial || rest.partial)
    && all.result == if rest.result.Ok? then Ok(List(result + rest.result.value.items)) else rest.result
  }
}
