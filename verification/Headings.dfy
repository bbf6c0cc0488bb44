/** What the properties of a node say to the compiler, and what it is when they are left out: the
    readers of internal/compiler/helpers.go as output.go and source.go use them. */
module Headings {
  import opened Options
  import opened Text
  import opened Types
  import opened Values
  import opened IR
  import opened Contract
  import opened Naming
  import opened Transforms
  import opened Preflight
  import opened Emission
  import opened Compiler
  import Template
  import K = KDLTree

  predicate Says(n: K.Node, name: string, v: K.Value) {
    K.Property(name, v) in n.properties
  }

  predicate LastAt(properties: seq<K.Property>, i: nat, p: K.Property) {
    i < |properties| && properties[i] == p && forall j | i < j < |properties| :: properties[j].name != p.name
  }

  /** Of several properties of one name the last counts. */
  lemma {:induction false} LastCounts(properties: seq<K.Property>, p: K.Property)
    ensures K.Find(properties, p.name) == Some(p.value) <==> exists i: nat :: LastAt(properties, i, p)
  {
    if properties != [] {
      var last := |properties| - 1;
      LastCounts(properties[..last], p);
      forall i: nat ensures LastAt(properties, i, p) <==>
        (i == last && properties[last] == p) || (properties[last].name != p.name && LastAt(properties[..last], i, p))
      {
        LastSnoc(properties, i, p);
      }
      assert properties[last].name == p.name && properties[last].value == p.value <==> properties[last] == p;
      assert properties[last] == p ==> LastAt(properties, last, p);
    }
  }

  lemma {:induction false} LastSnoc(properties: seq<K.Property>, i: nat, p: K.Property)
    requires properties != []
    ensures var last := |properties| - 1;
      LastAt(properties, i, p) <==>
        (i == last && properties[last] == p) || (properties[last].name != p.name && LastAt(properties[..last], i, p))
  {
    var last := |properties| - 1;
    if properties[last].name != p.name && LastAt(properties[..last], i, p) {
      forall j | i < j < |properties| ensures properties[j].name != p.name {
        assert j < last ==> properties[..last][j] == properties[j];
      }
    }
  }

  /** In a node the compiler does not report on, every property counts. */
  lemma {:induction false} EachCounts(n: K.Node, min: nat, max: Option<nat>, allowed: map<string, Expectation>, name: string)
    requires NodeOK(n, min, max, allowed)
    ensures forall v :: n.Get(name) == Some(v) <==> Says(n, name, v)
    ensures n.Get(name).Some? <==> exists v :: Says(n, name, v)
    ensures n.Get(name).Some? ==> name in allowed && Meets(n.Get(name).value, allowed[name])
  {
    hide K.Find, Meets;
    var found := n.Get(name);
    if found.Some? {
      var i :| 0 <= i < |n.properties| && n.properties[i] == K.Property(name, found.value);
      assert PropertyOK(n, i, allowed);
    }
    if found.Some? {
      assert Says(n, name, found.value);
    }
    forall v | Says(n, name, v) ensures found == Some(v) {
      var i :| 0 <= i < |n.properties| && n.properties[i] == K.Property(name, v);
      assert found.Some?;
      var j :| 0 <= j < |n.properties| && n.properties[j] == K.Property(name, found.value);
      assert PropertyOK(n, i, allowed) && PropertyOK(n, j, allowed);
    }
  }

  /** An input is required unless it says `required=#false`. */
  lemma {:induction false} InputMeaning(before: map<string, Template.Input>, n: K.Node)
    requires InputAccepted(before, n)
    ensures var made := InputOf(before, n);
      && made.Some? && n.StringArgument(0) == Some(made.value.0) && made.value.0 !in before
      && (made.value.1.required <==> !Says(n, "required", K.KBool(false)))
      && (made.value.1.hasDefault <==> exists v :: Says(n, "default", v))
  {
    hide K.Find, NodeOK, Identifier;
    EachCounts(n, 1, Some(1), INPUT_PROPERTIES, "required");
    EachCounts(n, 1, Some(1), INPUT_PROPERTIES, "default");
  }

  /** The bound of a collection is the least that is natural, no less than what is written, and at least
      one when it is required; a required collection says so, and rows fail unless it says `skip`. */
  lemma {:induction false} CollectionMeaning(c: Checks, n: K.Node, made: Collection)
    requires CollectionHeaderAccepted(c, n) && CollectionMirrors(n, made)
    ensures made.required <==> Says(n, "required", K.KBool(true))
    ensures 0 <= made.minItems && (made.required ==> 1 <= made.minItems)
    ensures forall k | Says(n, "min-items", K.KInt(k)) :: k <= made.minItems
    ensures made.minItems == 0 || (made.required && made.minItems == 1) || Says(n, "min-items", K.KInt(made.minItems))
    ensures forall k :: made.maxItems == Some(k) <==> Says(n, "max-items", K.KInt(k))
    ensures made.onRowError == if Says(n, "on-row-error", K.KString("skip")) then "skip" else "fail"
  {
    hide K.Find, NodeOK, Identifier, K.Named, RowSelectorAccepted, SelectorOK;
    EachCounts(n, 1, Some(1), COLLECTION_PROPERTIES, "required");
    EachCounts(n, 1, Some(1), COLLECTION_PROPERTIES, "min-items");
    EachCounts(n, 1, Some(1), COLLECTION_PROPERTIES, "max-items");
    EachCounts(n, 1, Some(1), COLLECTION_PROPERTIES, "on-row-error");
  }

  /** A field is optional and has no default unless it says so. */
  lemma {:induction false} FieldMeaning(h: Host, scope: Scope, n: K.Node, made: Field)
    requires FieldHeaderAccepted(n) && FieldMirrors(h, scope, n, made)
    ensures made.required <==> Says(n, "required", K.KBool(true))
    ensures made.default.Some? <==> exists v :: Says(n, "default", v)
    ensures forall v | Says(n, "default", v) :: made.default == Some(RawOf(h, v))
    ensures made.default.Some? ==> !made.required
  {
    hide K.Find, NodeOK, Identifier, K.Named, Parse, ValueMirrors, SelectionMirrors, PolicyOf, Mirrors, LiteralAssignable, RawOf;
    EachCounts(n, 1, Some(1), map["type" := ExpectString, "required" := ExpectBool, "default" := ExpectScalar], "required");
    EachCounts(n, 1, Some(1), map["type" := ExpectString, "required" := ExpectBool, "default" := ExpectScalar], "default");
  }

  /** A policy is the one written; when none is, required fields fail and the others yield null. */
  lemma {:induction false} PolicyMeaning(n: K.Node, required: bool, hasDefault: bool, effective: Type)
    requires PolicyAccepted(n, required, hasDefault, effective)
    ensures (forall child | child in n.children :: child.name != "on-error") ==> PolicyOf(n, required) == if required then "fail" else "null"
    ensures forall child | child in n.children && child.name == "on-error" :: child.StringArgument(0) == Some(PolicyOf(n, required))
    ensures PolicyOf(n, required) == "default" ==> hasDefault
    ensures PolicyOf(n, required) == "null" || PolicyOf(n, required) == "warn" ==> effective.Nullable?
  {
    hide K.Named, NodeOK;
    var nodes := K.Named(n.children, "on-error");
    forall child | child in n.children && child.name == "on-error" ensures child in nodes {
      NamedHolds(n.children, child);
    }
  }

  lemma {:induction false} NamedHolds(nodes: seq<K.Node>, n: K.Node)
    requires n in nodes
    ensures n in K.Named(nodes, n.name)
  {
    if nodes[0] != n {
      NamedHolds(nodes[1..], n);
    }
  }

  /** One match is asked for unless it says `first`. */
  lemma {:induction false} SelectionMeaning(c: Checks, n: K.Node, made: Selection)
    requires SelectionAccepted(c, n) && SelectionMirrors(n, made)
    ensures n.StringArgument(0) == Some(made.selector)
    ensures made.mode == if Says(n, "match", K.KString("first")) then "first" else "one"
  {
    hide K.Find, NodeOK;
    EachCounts(n, 1, Some(1), map["match" := ExpectString], "match");
  }

  // ---------- steps ----------

  /** The timeout of a step is the one written. */
  ghost predicate TimeoutSaid(n: K.Node, timeout: Option<int>) {
    match timeout
    case Some(k) => Says(n, "timeout-ms", K.KInt(k))
    case None => forall v :: !Says(n, "timeout-ms", v)
  }

  /** Which step a node says: waiting is for `visible` unless another state is written, and the network is
      idle after half a second unless another time is. */
  ghost predicate StepSaid(n: K.Node, s: Step) {
    match s
    case WaitFor(selector, state, timeout) =>
      && n.name == "wait-for" && n.StringArgument(0) == Some(selector) && TimeoutSaid(n, timeout)
      && (Says(n, "state", K.KString(state)) || (state == "visible" && forall v | Says(n, "state", v) :: v == K.KString("")))
    case Click(selector, timeout) => n.name == "click" && n.StringArgument(0) == Some(selector) && TimeoutSaid(n, timeout)
    case Fill(selector, text, timeout) =>
      n.name == "fill" && n.StringArgument(0) == Some(selector) && text == n.StringArgument(1).GetOr("") && TimeoutSaid(n, timeout)
    case Press(selector, key, timeout) =>
      n.name == "press" && n.StringArgument(0) == Some(selector) && key == n.StringArgument(1).GetOr("") && TimeoutSaid(n, timeout)
    case Scroll(x, y) => n.name == "scroll" && |n.arguments| == 2 && NumberSaid(n.arguments[0], x) && NumberSaid(n.arguments[1], y)
    case NetworkIdle(idle, timeout) =>
      && n.name == "wait-for-network-idle" && TimeoutSaid(n, timeout)
      && (Says(n, "idle-ms", K.KInt(idle)) || (idle == 500 && forall v :: !Says(n, "idle-ms", v)))
    case EvaluateJavaScript(code, timeout) => n.name == "evaluate-js" && code == n.StringArgument(0).GetOr("") && TimeoutSaid(n, timeout)
  }

  predicate NumberSaid(v: K.Value, x: real) {
    v == K.KFloat(x) || (v.KInt? && v.n as real == x)
  }

  lemma {:induction false} TimeoutMeaning(n: K.Node, min: nat, max: Option<nat>, allowed: map<string, Expectation>, name: string)
    requires NodeOK(n, min, max, allowed) && name in allowed && allowed[name] == ExpectNonNegativeInt
    ensures forall k :: n.GetInt(name) == Some(k) <==> Says(n, name, K.KInt(k))
    ensures n.GetInt(name).None? <==> forall v :: !Says(n, name, v)
  {
    hide K.Find, NodeOK;
    EachCounts(n, min, max, allowed, name);
  }

  lemma {:induction false} WaitMeaning(c: Checks, n: K.Node)
    requires n.name == "wait-for" && WaitAccepted(c, n)
    ensures StepOf(n).Some? && StepSaid(n, StepOf(n).value)
  {
    hide K.Find, NodeOK;
    var allowed := map["state" := ExpectString, "timeout-ms" := ExpectNonNegativeInt];
    TimeoutMeaning(n, 1, Some(1), allowed, "timeout-ms");
    EachCounts(n, 1, Some(1), allowed, "state");
    NothingSelects(c);
  }

  lemma {:induction false} NothingSelects(c: Checks)
    ensures !SelectorOK(c, "")
  {}

  lemma {:induction false} InputStepMeaning(c: Checks, n: K.Node)
    requires n.name in {"click", "fill", "press"} && InputStepAccepted(c, n)
    ensures StepOf(n).Some? && StepSaid(n, StepOf(n).value)
  {
    hide K.Find, NodeOK, SelectorOK;
    var arguments := if n.name == "click" then 1 else 2;
    TimeoutMeaning(n, arguments, Some(arguments), map["timeout-ms" := ExpectNonNegativeInt], "timeout-ms");
    NothingSelects(c);
  }

  /** Every accepted node says the step it becomes. */
  lemma {:induction false} StepMeaning(c: Checks, n: K.Node)
    requires StepAccepted(c, n)
    ensures StepOf(n).Some? && StepSaid(n, StepOf(n).value)
  {
    hide K.Find, NodeOK, WaitAccepted, InputStepAccepted, StepSaid, StepOf;
    if n.name == "wait-for" {
      WaitMeaning(c, n);
    } else if n.name == "click" || n.name == "fill" || n.name == "press" {
      InputStepMeaning(c, n);
    } else {
      OtherStepMeaning(c, n);
    }
  }

  lemma {:induction false} OtherStepMeaning(c: Checks, n: K.Node)
    requires StepAccepted(c, n) && n.name in {"scroll", "wait-for-network-idle", "evaluate-js"}
    ensures StepOf(n).Some? && StepSaid(n, StepOf(n).value)
  {
    hide K.Find;
    if n.name == "wait-for-network-idle" {
      var allowed := map["idle-ms" := ExpectNonNegativeInt, "timeout-ms" := ExpectNonNegativeInt];
      TimeoutMeaning(n, 0, Some(0), allowed, "timeout-ms");
      TimeoutMeaning(n, 0, Some(0), allowed, "idle-ms");
    } else if n.name == "evaluate-js" {
      TimeoutMeaning(n, 1, Some(1), map["timeout-ms" := ExpectNonNegativeInt], "timeout-ms");
    }
  }

  // ---------- sources and chains ----------

  /** No session block asks for no session. */
  lemma {:induction false} SessionMeaning(sessions: seq<K.Node>)
    requires SessionAccepted(sessions)
    ensures if sessions == [] then SessionOf(sessions) == "none" else Says(sessions[0], "policy", K.KString(SessionOf(sessions)))
  {
    hide K.Find, NodeOK;
    if sessions != [] {
      EachCounts(sessions[0], 0, Some(0), map["policy" := ExpectString], "policy");
    }
  }

  /** The types between the applies: each apply takes one to the next. */
  ghost predicate Stages(c: Checks, g: Signatures, scope: Scope, nodes: seq<K.Node>, types: seq<Type>)
    requires ScopeOK(scope, g)
  {
    |types| == |nodes| + 1 && forall i, j | 0 <= i < j < |types| && j == i + 1 :: CallOutput(c, g, scope, types[i], nodes[i]) == Some(types[j])
  }

  lemma {:induction false} AppliesMeaning(c: Checks, g: Signatures, scope: Scope, from: Type, nodes: seq<K.Node>, to: Type)
    requires ScopeOK(scope, g)
    ensures AppliesOutput(c, g, scope, from, nodes) == Some(to) <==>
      exists types :: Stages(c, g, scope, nodes, types) && types[0] == from && types[|types| - 1] == to
    decreases |nodes|
  {
    hide CallOutput, ScopeOK;
    if nodes == [] {
      assert Stages(c, g, scope, nodes, [from]);
    } else {
      var next := CallOutput(c, g, scope, from, nodes[0]);
      if next.Some? {
        AppliesMeaning(c, g, scope, next.value, nodes[1..], to);
        if AppliesOutput(c, g, scope, from, nodes) == Some(to) {
          var rest :| Stages(c, g, scope, nodes[1..], rest) && rest[0] == next.value && rest[|rest| - 1] == to;
          LongerStages(c, g, scope, from, nodes, rest);
        }
      }
      forall types | Stages(c, g, scope, nodes, types) && types[0] == from && types[|types| - 1] == to
        ensures AppliesOutput(c, g, scope, from, nodes) == Some(to)
      {
        ShorterStages(c, g, scope, nodes, types);
        assert types[1..][|nodes| - 1] == to;
      }
    }
  }

  lemma {:induction false} LongerStages(c: Checks, g: Signatures, scope: Scope, from: Type, nodes: seq<K.Node>, rest: seq<Type>)
    requires ScopeOK(scope, g) && nodes != [] && Stages(c, g, scope, nodes[1..], rest) && CallOutput(c, g, scope, from, nodes[0]) == Some(rest[0])
    ensures Stages(c, g, scope, nodes, [from] + rest)
  {
    hide CallOutput, ScopeOK;
    var types := [from] + rest;
    forall i, j | 0 <= i < j < |types| && j == i + 1 ensures CallOutput(c, g, scope, types[i], nodes[i]) == Some(types[j]) {
      assert types[j] == rest[i];
      if i > 0 {
        assert types[i] == rest[i - 1] && nodes[i] == nodes[1..][i - 1];
      }
    }
  }

  lemma {:induction false} ShorterStages(c: Checks, g: Signatures, scope: Scope, nodes: seq<K.Node>, types: seq<Type>)
    requires ScopeOK(scope, g) && nodes != [] && Stages(c, g, scope, nodes, types)
    ensures Stages(c, g, scope, nodes[1..], types[1..]) && CallOutput(c, g, scope, types[0], nodes[0]) == Some(types[1..][0])
  {
    hide CallOutput, ScopeOK;
    forall i, j | 0 <= i < j < |types[1..]| && j == i + 1
      ensures CallOutput(c, g, scope, types[1..][i], nodes[1..][i]) == Some(types[1..][j])
    {
      assert types[1..][i] == types[i + 1] && types[1..][j] == types[j + 1] && nodes[1..][i] == nodes[i + 1];
    }
  }
}
