/** The checking compiler of internal/compiler: transforms.go, output.go, source.go and helpers.go,
    from the parsed tree to the IR. Loading and import order are in Imports. */
module Compiler {
  import opened Options
  import opened Text
  import opened Types
  import opened Values
  import opened IR
  import opened Builtins
  import opened Naming
  import opened Contract
  import opened Transforms
  import opened Walker
  import opened Conformance
  import opened Preflight
  import opened Emission
  import Template
  import K = KDLTree

  datatype Decl = Decl(symbol: string, node: K.Node, input: Type, output: Type, scope: Scope)

  /** Library checks: dom.ParseSelector, regular expressions, URLs. */
  datatype Checks = Checks(
    selector: string -> bool,
    regexGroups: string -> Option<nat>,
    absoluteURL: string -> bool,
    httpURL: string -> bool)

  predicate ScopeOK(s: Scope, g: Signatures) {
    && (forall name | name in s.local :: s.local[name] in g)
    && (forall alias | alias in s.imports :: forall name | name in s.imports[alias] :: s.imports[alias][name] in g)
  }

  predicate SignaturesOK(g: Signatures) {
    forall s | s in g :: WellFormed(g[s].0) && WellFormed(g[s].1)
  }

  /** Every literal in the tree is one the lexer can deliver. */
  predicate ValidTree(h: Host, n: K.Node) {
    && (forall i | 0 <= i < |n.arguments| :: ValidLiteral(h, n.arguments[i]))
    && (forall i | 0 <= i < |n.properties| :: ValidLiteral(h, n.properties[i].value))
    && (forall i | 0 <= i < |n.children| :: ValidTree(h, n.children[i]))
  }

  // ---------- node checks ----------

  predicate PropertyOK(n: K.Node, i: nat, allowed: map<string, Expectation>)
    requires i < |n.properties|
  {
    && n.properties[i].name in allowed
    && Meets(n.properties[i].value, allowed[n.properties[i].name])
    && forall j | 0 <= j < i :: n.properties[j].name != n.properties[i].name
  }

  /** What validateNode accepts. */
  predicate NodeOK(n: K.Node, min: nat, max: Option<nat>, allowed: map<string, Expectation>) {
    min <= |n.arguments| && (max.Some? ==> |n.arguments| <= max.value) &&
    forall i | 0 <= i < |n.properties| :: PropertyOK(n, i, allowed)
  }

  predicate HasRequired(n: K.Node, names: seq<string>) {
    forall name | name in names :: n.Get(name).Some?
  }

  /** Letters of a `flags` property. */
  predicate FlagsOK(flags: string) {
    (forall i | 0 <= i < |flags| :: flags[i] in ['i', 'm', 's']) &&
    forall i, j | 0 <= i < j < |flags| :: flags[i] != flags[j]
  }

  predicate PatternOK(c: Checks, b: Builtin, n: K.Node) {
    match n.GetString("pattern")
    case None => true
    case Some(pattern) =>
      var flags := if n.GetString("flags").Some? then n.GetString("flags").value else "";
      var groups := c.regexGroups((if flags == "" then "" else "(?" + flags + ")") + pattern);
      && !Contains(pattern, "(?P<") && !Contains(pattern, "(?<")
      && groups.Some?
      && (b.RegexCapture? && n.GetInt("group").Some? ==> n.GetInt("group").value <= groups.value)
  }

  /** What validateBuiltinArguments accepts. */
  predicate ArgumentsOK(c: Checks, b: Builtin, input: Type, n: K.Node) {
    && (n.GetString("flags").Some? ==> FlagsOK(n.GetString("flags").value))
    && PatternOK(c, b, n)
    && (b.ParseInt? && n.GetInt("radix").Some? ==> 2 <= n.GetInt("radix").value <= 36)
    && (b.ParseBool? ==>
         (if n.GetString("true").Some? then n.GetString("true").value else "true") !=
         (if n.GetString("false").Some? then n.GetString("false").value else "false"))
    && (b.Coalesce? && n.Get("value").Some? && input.Nullable? ==> LiteralAssignable(n.Get("value").value, input.inner))
    && (b.AssertEnum? ==> forall i | 1 <= i < |n.arguments| :: LiteralAssignable(n.arguments[i], input))
    && (b.URLResolve? && n.GetString("base").Some? ==> c.absoluteURL(n.GetString("base").value))
  }

  // ---------- arguments of a call ----------

  function RawArguments(h: Host, values: seq<K.Value>): (r: seq<Raw>)
    ensures |r| == |values| && forall i | 0 <= i < |values| :: r[i] == RawOf(h, values[i])
  {
    seq(|values|, i requires 0 <= i < |values| => RawOf(h, values[i]))
  }

  function NamedArguments(h: Host, properties: seq<K.Property>): (r: seq<(string, Raw)>)
    ensures |r| == |properties|
    ensures forall i | 0 <= i < |properties| :: r[i] == (properties[i].name, RawOf(h, properties[i].value))
  {
    seq(|properties|, i requires 0 <= i < |properties| => (properties[i].name, RawOf(h, properties[i].value)))
  }

  /** The executor's argument map and the compiler's property lookup see the same values. */
  lemma {:induction false} ArgumentsFind(h: Host, properties: seq<K.Property>, name: string)
    ensures var arguments := Arguments(NamedArguments(h, properties));
      var v := K.Find(properties, name);
      (name in arguments <==> v.Some?) && (v.Some? ==> arguments[name] == RawOf(h, v.value))
  {
    if properties != [] {
      var front := properties[..|properties| - 1];
      ArgumentsFind(h, front, name);
      assert NamedArguments(h, properties)[..|properties| - 1] == NamedArguments(h, front);
    }
  }

  lemma {:induction false} AsNameIsProperty(h: Host, n: K.Node, call: Call)
    requires call.named == NamedArguments(h, n.properties)
    ensures AsName(call) == n.GetString("as")
  {
    hide Arguments, NamedArguments, K.Find;
    ArgumentsFind(h, n.properties, "as");
  }

  lemma {:induction false} BuiltinCallEmitted(h: Host, g: Signatures, n: K.Node, b: Builtin, call: Call)
    requires Lookup(NameOf(b)) == Some(b) && call.target == BuiltinTarget(NameOf(b))
    requires |n.arguments| >= 1 && call.positional == RawArguments(h, n.arguments[1..])
    requires call.named == NamedArguments(h, n.properties)
    requires NodeOK(n, 1, None, Allowed(b)) && HasRequired(n, Required(b))
    requires if b.AssertEnum? then |n.arguments| >= 2 else |n.arguments| == 1
    requires TypeOf(b, call.input, n.GetString("as")) == Some(call.output)
    requires WellFormed(call.input) && WellFormed(call.output)
    ensures CallEmitted(g, call)
  {
    hide Lookup, TypeOf, WellFormed, Allowed, Required, NameOf, Meets;
    AsNameIsProperty(h, n, call);
    assert CallArgumentsOK(call) by { LiteralArgumentsOK(h, n, call, Allowed(b)); }
    assert BuiltinSignatureOK(b, call) by { SignatureOK(h, n, b, call); }
  }

  lemma {:induction false} LiteralArgumentsOK(h: Host, n: K.Node, call: Call, allowed: map<string, Expectation>)
    requires |n.arguments| >= 1 && call.positional == RawArguments(h, n.arguments[1..])
    requires call.named == NamedArguments(h, n.properties) && NodeOK(n, 1, None, allowed)
    ensures CallArgumentsOK(call)
  {
    forall i, j | 0 <= i < j < |call.named| ensures call.named[i].0 != call.named[j].0 {
      assert PropertyOK(n, j, allowed);
    }
  }

  lemma {:induction false} SignatureOK(h: Host, n: K.Node, b: Builtin, call: Call)
    requires |n.arguments| >= 1 && call.positional == RawArguments(h, n.arguments[1..])
    requires call.named == NamedArguments(h, n.properties)
    requires NodeOK(n, 1, None, Allowed(b)) && HasRequired(n, Required(b))
    requires if b.AssertEnum? then |n.arguments| >= 2 else |n.arguments| == 1
    ensures BuiltinSignatureOK(b, call)
  {
    hide Allowed, Required, Meets;
    forall i | 0 <= i < |call.named| ensures call.named[i].0 in Allowed(b) {
      assert PropertyOK(n, i, Allowed(b));
    }
    forall name | name in Required(b) ensures exists i | 0 <= i < |call.named| :: call.named[i].0 == name {
      assert n.Get(name).Some?;
      var p :| p in n.properties && p.name == name;
      var i :| 0 <= i < |n.properties| && n.properties[i] == p;
      assert call.named[i].0 == name;
    }
  }

  lemma {:induction false} BuiltinOutputWellFormed(b: Builtin, input: Type, asName: Option<string>)
    requires WellFormed(input) && TypeOf(b, input, asName).Some?
    ensures WellFormed(TypeOf(b, input, asName).value)
  {
    hide Parse;
  }

  /** The call says what the `apply` node says: same target, same arguments in the same order. */
  predicate Mirrors(h: Host, scope: Scope, n: K.Node, call: Call) {
    && |n.arguments| > 0 && n.arguments[0].KString?
    && call.positional == RawArguments(h, n.arguments[1..]) && call.named == NamedArguments(h, n.properties)
    && if Lookup(n.arguments[0].s).Some? then call.target == BuiltinTarget(n.arguments[0].s)
       else call.target.DeclaredTarget? && Names(scope, n.arguments[0].s, call.target.symbol)
  }

  /** The type an `apply` of a built-in makes of its input type; none when it is not accepted. */
  function BuiltinOutput(c: Checks, b: Builtin, input: Type, n: K.Node): Option<Type> {
    if NodeOK(n, 1, None, Allowed(b)) && HasRequired(n, Required(b)) && ArgumentsOK(c, b, input, n) &&
       (if b.AssertEnum? then |n.arguments| >= 2 else |n.arguments| == 1)
    then TypeOf(b, input, n.GetString("as")) else None
  }

  function DeclaredOutput(g: Signatures, scope: Scope, name: string, input: Type, n: K.Node): Option<Type>
    requires ScopeOK(scope, g)
  {
    var symbol := Resolve(scope, name);
    if symbol.Some? && |n.arguments| == 1 && n.properties == [] && IsAssignable(input, g[symbol.value].0) then Some(g[symbol.value].1) else None
  }

  /** The type an `apply` makes of its input type; none when the compiler does not accept it. */
  function CallOutput(c: Checks, g: Signatures, scope: Scope, input: Type, n: K.Node): Option<Type>
    requires ScopeOK(scope, g)
  {
    if n.arguments == [] || !n.arguments[0].KString? then None
    else if Lookup(n.arguments[0].s).Some? then BuiltinOutput(c, Lookup(n.arguments[0].s).value, input, n)
    else DeclaredOutput(g, scope, n.arguments[0].s, input, n)
  }

  /** A run of applies: each is accepted on the type the one before it makes. */
  function AppliesOutput(c: Checks, g: Signatures, scope: Scope, from: Type, nodes: seq<K.Node>): Option<Type>
    requires ScopeOK(scope, g)
    decreases |nodes|
  {
    hide CallOutput, ScopeOK;
    if nodes == [] then Some(from) else
    var next :- CallOutput(c, g, scope, from, nodes[0]);
    AppliesOutput(c, g, scope, next, nodes[1..])
  }

  /** What the compiler asks of a pipeline. */
  predicate PipelineAccepted(c: Checks, g: Signatures, d: Decl, body: K.Node)
    requires ScopeOK(d.scope, g)
  {
    && NodeOK(body, 0, Some(0), map[]) && body.children != [] && K.Named(body.children, "apply") == body.children
    && var end := AppliesOutput(c, g, d.scope, d.input, body.children); end.Some? && IsAssignable(end.value, d.output)
  }

  predicate ExternalAccepted(body: K.Node) {
    NodeOK(body, 0, Some(0), map["symbol" := ExpectString]) && body.GetString("symbol").GetOr("") != ""
  }

  /** The inputs of the cases among some nodes, as the compiler compares them. */
  function SeenInputs(h: Host, nodes: seq<K.Node>): set<Raw> {
    set l | l in CaseLiterals(nodes) :: RawOf(h, l.0)
  }

  /** A case has two literals of the declared types, and an input no case before it has. */
  predicate CaseAccepted(h: Host, before: seq<K.Node>, n: K.Node, input: Type, output: Type) {
    && NodeOK(n, 2, Some(2), map[]) && RawOf(h, n.arguments[0]) !in SeenInputs(h, before)
    && LiteralAssignable(n.arguments[0], input) && LiteralAssignable(n.arguments[1], output)
  }

  predicate MatchDefaultAccepted(n: K.Node, output: Type) {
    NodeOK(n, 1, Some(1), map[]) && LiteralAssignable(n.arguments[0], output)
  }

  predicate MatchItemAccepted(h: Host, before: seq<K.Node>, n: K.Node, input: Type, output: Type) {
    if n.name == "case" then CaseAccepted(h, before, n, input, output)
    else n.name == "default" && MatchDefaultAccepted(n, output)
  }

  predicate MatchItemsAccepted(h: Host, nodes: seq<K.Node>, input: Type, output: Type) {
    forall i | 0 <= i < |nodes| :: MatchItemAccepted(h, nodes[..i], nodes[i], input, output)
  }

  lemma {:induction false} MatchItemsSnoc(h: Host, nodes: seq<K.Node>, n: K.Node, input: Type, output: Type)
    ensures MatchItemsAccepted(h, nodes + [n], input, output) <==>
      MatchItemsAccepted(h, nodes, input, output) && MatchItemAccepted(h, nodes, n, input, output)
  {
    hide MatchItemAccepted;
    var more := nodes + [n];
    assert more[..|nodes|] == nodes && more[|nodes|] == n;
    forall i | 0 <= i < |nodes| ensures more[..i] == nodes[..i] && more[i] == nodes[i] {}
  }

  predicate MatchAccepted(h: Host, body: K.Node, input: Type, output: Type) {
    && NodeOK(body, 0, Some(0), map[]) && IsScalar(input) && IsScalar(output)
    && MatchItemsAccepted(h, body.children, input, output) && |K.Named(body.children, "default")| == 1
  }

  predicate IsBody(n: K.Node) {
    n.name == "pipeline" || n.name == "match" || n.name == "external"
  }

  predicate AppliesNothing(applies: seq<K.Node>) {
    exists i | 0 <= i < |applies| :: applies[i].arguments == []
  }

  function BodiesOf(nodes: seq<K.Node>): (r: seq<K.Node>)
    ensures forall n | n in r :: n in nodes && IsBody(n)
  {
    if nodes == [] then [] else
    var last := nodes[|nodes| - 1];
    BodiesOf(nodes[..|nodes| - 1]) + if IsBody(last) then [last] else []
  }

  lemma {:induction false} NoBodies()
    ensures BodiesOf([]) == []
  {}

  lemma {:induction false} BodiesSnoc(nodes: seq<K.Node>, n: K.Node)
    ensures BodiesOf(nodes + [n]) == BodiesOf(nodes) + if IsBody(n) then [n] else []
  {
    assert (nodes + [n])[..|nodes|] == nodes;
  }

  /** Its one body is a pipeline in which the compiler comes to an `apply` without arguments. */
  predicate TransformPanics(d: Decl) {
    var bodies := BodiesOf(d.node.children);
    |bodies| == 1 && bodies[0].name == "pipeline" && AppliesNothing(K.Named(bodies[0].children, "apply"))
  }

  /** What the compiler asks of a declared transform: names that are known, and one body, that accepted. */
  predicate TransformAccepted(h: Host, c: Checks, g: Signatures, d: Decl) {
    ScopeOK(d.scope, g) && |d.node.children| == 1 &&
    var body := d.node.children[0];
    if body.name == "pipeline" then PipelineAccepted(c, g, d, body)
    else if body.name == "match" then MatchAccepted(h, body, d.input, d.output)
    else body.name == "external" && ExternalAccepted(body)
  }

  // ---------- what the compiler asks of a field ----------

  predicate NameAccepted(n: K.Node) {
    n.StringArgument(0).Some? && Identifier(n.StringArgument(0).value)
  }

  function TypeOfProperty(n: K.Node, property: string): Option<Type> {
    var text :- n.GetString(property);
    Parse(text)
  }

  predicate SelectionAccepted(c: Checks, n: K.Node) {
    && NodeOK(n, 1, Some(1), map["match" := ExpectString])
    && SelectorOK(c, n.StringArgument(0).GetOr("")) && n.GetString("match").GetOr("") in {"", "one", "first"}
  }

  predicate SelectsAccepted(c: Checks, n: K.Node) {
    var selects := K.Named(n.children, "select");
    selects != [] ==> |selects| == 1 && SelectionAccepted(c, selects[0])
  }

  /** Text, HTML or an attribute, of a selected element or of a row. */
  predicate ValueAccepted(n: K.Node, path: string, selected: bool) {
    var kind := n.StringArgument(0).GetOr("");
    && NodeOK(n, 1, Some(1), if kind == "attr" then map["name" := ExpectString] else map[])
    && (selected || HasBrackets(path)) && kind in {"text", "html", "attr"}
    && (kind == "attr" ==> n.GetString("name").GetOr("") != "")
  }

  /** Document scope without a selection, current scope with one or in a row. */
  predicate ScopeAccepted(n: K.Node, path: string, selected: bool) {
    var scope := n.GetString("scope").GetOr("");
    (scope == "document" && !selected) || (scope == "current" && (selected || HasBrackets(path)))
  }

  predicate ScriptAccepted(mode: string, n: K.Node, path: string, selected: bool) {
    && NodeOK(n, 1, Some(1), map["scope" := ExpectString, "returns" := ExpectString, "timeout-ms" := ExpectNonNegativeInt])
    && ScopeAccepted(n, path, selected) && TypeOfProperty(n, "returns").Some? && TimeoutOK(n.GetInt("timeout-ms"))
    && mode == "browser"
  }

  /** Exactly one value source, and that accepted. */
  predicate ValueSourceAccepted(mode: string, n: K.Node, path: string, selected: bool) {
    var values, evals := K.Named(n.children, "value"), K.Named(n.children, "evaluate-js");
    && |values| + |evals| == 1
    && if values != [] then ValueAccepted(values[0], path, selected) else ScriptAccepted(mode, evals[0], path, selected)
  }

  /** The type read before any call. */
  function ReadType(n: K.Node): Type {
    var evals := K.Named(n.children, "evaluate-js");
    if evals == [] then STRING else TypeOfProperty(evals[0], "returns").GetOr(UNKNOWN)
  }

  predicate DefaultAccepted(n: K.Node, successful: Type, required: bool) {
    n.Get("default").Some? ==> !required && LiteralAssignable(n.Get("default").value, successful)
  }

  function EffectiveType(n: K.Node, successful: Type): Type {
    if !FlagOf(n, "required") && n.Get("default").None? then LiftNullable(successful) else successful
  }

  /** A known policy, one at most: `null` and `warn` need a nullable type, `default` needs a default. */
  predicate PolicyAccepted(n: K.Node, required: bool, hasDefault: bool, effective: Type) {
    var nodes, policy := K.Named(n.children, "on-error"), PolicyOf(n, required);
    && (nodes != [] ==> |nodes| == 1 && NodeOK(nodes[0], 1, Some(1), map[]))
    && policy in {"fail", "null", "warn", "default"}
    && (policy in {"null", "warn"} ==> effective.Nullable?) && (policy == "default" ==> hasDefault)
  }

  predicate CallsAccepted(c: Checks, g: Signatures, scope: Scope, from: Type, n: K.Node, successful: Type)
    requires ScopeOK(scope, g)
  {
    var end := AppliesOutput(c, g, scope, from, K.Named(n.children, "apply"));
    end.Some? && IsAssignable(end.value, successful)
  }

  const FIELD_CHILDREN := {"select", "value", "evaluate-js", "on-error", "apply"}

  /** Name, type, default, and no unknown children. */
  predicate FieldHeaderAccepted(n: K.Node) {
    && NodeOK(n, 1, Some(1), map["type" := ExpectString, "required" := ExpectBool, "default" := ExpectScalar])
    && NameAccepted(n) && TypeOfProperty(n, "type").Some?
    && DefaultAccepted(n, TypeOfProperty(n, "type").value, FlagOf(n, "required"))
    && (forall child | child in n.children :: child.name in FIELD_CHILDREN)
  }

  /** What the compiler asks of a field. */
  predicate FieldAccepted(c: Checks, g: Signatures, scope: Scope, mode: string, n: K.Node, parent: string)
    requires ScopeOK(scope, g)
  {
    var path := parent + "." + n.StringArgument(0).GetOr("");
    && FieldHeaderAccepted(n)
    && SelectsAccepted(c, n) && ValueSourceAccepted(mode, n, path, K.Named(n.children, "select") != [])
    && var successful := TypeOfProperty(n, "type").value;
       && CallsAccepted(c, g, scope, ReadType(n), n, successful)
       && PolicyAccepted(n, FlagOf(n, "required"), n.Get("default").Some?, EffectiveType(n, successful))
  }

  // ---------- what the compiler asks of collections and objects ----------

  predicate IsMember(n: K.Node) {
    n.name == "field" || n.name == "collection"
  }

  /** A field of some member, at any depth, applies nothing. */
  predicate MemberPanics(n: K.Node) {
    if n.name == "field" then AppliesNothing(K.Named(n.children, "apply"))
    else exists i | 0 <= i < |n.children| :: IsMember(n.children[i]) && MemberPanics(n.children[i])
  }

  predicate ObjectPanics(nodes: seq<K.Node>) {
    exists i | 0 <= i < |nodes| :: IsMember(nodes[i]) && MemberPanics(nodes[i])
  }

  lemma {:induction false} PanicsSnoc(nodes: seq<K.Node>, n: K.Node)
    ensures ObjectPanics(nodes + [n]) <==> ObjectPanics(nodes) || (IsMember(n) && MemberPanics(n))
  {
    hide MemberPanics;
    var more := nodes + [n];
    assert more[|nodes|] == n && forall i | 0 <= i < |nodes| :: more[i] == nodes[i];
  }

  lemma {:induction false} NoObject(c: Checks, g: Signatures, scope: Scope, mode: string, owner: K.Node, path: string)
    requires ScopeOK(scope, g)
    ensures ObjectAccepted(c, g, scope, mode, owner, [], path) && !ObjectPanics([]) && NamesIn([]) == {}
  {}

  lemma {:induction false} ObjectSnoc(c: Checks, g: Signatures, scope: Scope, mode: string, owner: K.Node, nodes: seq<K.Node>, n: K.Node, path: string)
    requires ScopeOK(scope, g) && n < owner && forall i | 0 <= i < |nodes| :: nodes[i] < owner
    ensures ObjectAccepted(c, g, scope, mode, owner, nodes + [n], path) <==>
      ObjectAccepted(c, g, scope, mode, owner, nodes, path) && ItemAccepted(c, g, scope, mode, owner, nodes, n, path)
  {
    hide ItemAccepted, ScopeOK;
    var more := nodes + [n];
    assert more[..|nodes|] == nodes && more[|nodes|] == n;
    forall i | 0 <= i < |nodes| ensures more[..i] == nodes[..i] && more[i] == nodes[i] {}
  }

  lemma {:induction false} AddsNothing(mode: string, path: string, capabilities: set<string>)
    ensures Adds(mode, path, capabilities, capabilities, {})
  {}

  lemma {:induction false} AddsBoth(mode: string, path: string, first: set<string>, second: set<string>, third: set<string>, a: set<string>, b: set<string>)
    requires Adds(mode, path, first, second, a) && Adds(mode, path, second, third, b)
    ensures Adds(mode, path, first, third, a + b)
  {
    hide Shared;
  }

  lemma {:induction false} MembersPanic(nodes: seq<K.Node>)
    ensures ObjectPanics(MemberNodes(nodes)) <==> ObjectPanics(nodes)
  {
    hide MemberPanics;
    if ObjectPanics(MemberNodes(nodes)) {
      var i :| 0 <= i < |MemberNodes(nodes)| && IsMember(MemberNodes(nodes)[i]) && MemberPanics(MemberNodes(nodes)[i]);
      assert MemberNodes(nodes)[i] in nodes;
    }
    if ObjectPanics(nodes) {
      var i :| 0 <= i < |nodes| && IsMember(nodes[i]) && MemberPanics(nodes[i]);
      MembersAreKept(nodes, i);
    }
  }

  lemma {:induction false} MembersAreKept(nodes: seq<K.Node>, i: nat)
    requires i < |nodes| && IsMember(nodes[i])
    ensures nodes[i] in MemberNodes(nodes)
  {
    if i < |nodes| - 1 {
      MembersAreKept(nodes[..|nodes| - 1], i);
    }
  }

  const COLLECTION_CHILDREN := {"select", "field", "collection"}

  const COLLECTION_PROPERTIES := map[
    "required" := ExpectBool, "min-items" := ExpectNonNegativeInt, "max-items" := ExpectNonNegativeInt, "on-row-error" := ExpectString]

  /** A required collection has at least one row. */
  function EffectiveBound(n: K.Node, required: bool): int {
    var m := n.GetInt("min-items").GetOr(0);
    if required && m < 1 then 1 else m
  }

  predicate BoundsAccepted(n: K.Node, required: bool) {
    n.GetInt("max-items").Some? ==> n.GetInt("max-items").value >= EffectiveBound(n, required)
  }

  predicate RowSelectorAccepted(c: Checks, n: K.Node) {
    var selects := K.Named(n.children, "select");
    |selects| == 1 && NodeOK(selects[0], 1, Some(1), map[]) && SelectorOK(c, selects[0].StringArgument(0).GetOr(""))
  }

  predicate CollectionHeaderAccepted(c: Checks, n: K.Node) {
    && NodeOK(n, 1, Some(1), COLLECTION_PROPERTIES) && NameAccepted(n)
    && BoundsAccepted(n, FlagOf(n, "required")) && n.GetString("on-row-error").GetOr("") in {"", "fail", "skip"}
    && (forall child | child in n.children :: child.name in COLLECTION_CHILDREN)
    && RowSelectorAccepted(c, n) && MemberNodes(n.children) != []
  }

  const OUTPUT_OTHERS := {"source", "input", "transform"}

  /** The first arguments of the members among some nodes. */
  function NamesIn(nodes: seq<K.Node>): set<string> {
    set n | n in nodes && IsMember(n) :: n.StringArgument(0).GetOr("")
  }

  /** A node among the members of an object: a member with a new name, or one of the others an extractor has. */
  ghost predicate ItemAccepted(c: Checks, g: Signatures, scope: Scope, mode: string, owner: K.Node, before: seq<K.Node>, n: K.Node, path: string)
    requires ScopeOK(scope, g) && n < owner
    decreases owner, 0
  {
    if IsMember(n) then n.StringArgument(0).GetOr("") !in NamesIn(before) && MemberAccepted(c, g, scope, mode, n, path)
    else path == "output" ==> n.name in OUTPUT_OTHERS
  }

  ghost predicate ObjectAccepted(c: Checks, g: Signatures, scope: Scope, mode: string, owner: K.Node, nodes: seq<K.Node>, path: string)
    requires ScopeOK(scope, g) && forall i | 0 <= i < |nodes| :: nodes[i] < owner
    decreases owner, 1
  {
    forall i | 0 <= i < |nodes| :: ItemAccepted(c, g, scope, mode, owner, nodes[..i], nodes[i], path)
  }

  ghost predicate RowAccepted(c: Checks, g: Signatures, scope: Scope, mode: string, n: K.Node, parent: string)
    requires ScopeOK(scope, g)
    decreases n, 2
  {
    var members := MemberNodes(n.children);
    MembersAreBelow(n);
    ObjectAccepted(c, g, scope, mode, n, members, parent + "." + n.StringArgument(0).GetOr("") + "[]")
  }

  /** What the compiler asks of a member of an object, at every depth. */
  ghost predicate MemberAccepted(c: Checks, g: Signatures, scope: Scope, mode: string, n: K.Node, path: string)
    requires ScopeOK(scope, g)
    decreases n, 3
  {
    if n.name == "field" then FieldAccepted(c, g, scope, mode, n, path)
    else CollectionHeaderAccepted(c, n) && RowAccepted(c, g, scope, mode, n, path)
  }

  lemma {:induction false} MembersAreBelow(n: K.Node)
    ensures forall i | 0 <= i < |MemberNodes(n.children)| :: MemberNodes(n.children)[i] < n
  {
    var members := MemberNodes(n.children);
    forall i | 0 <= i < |members| ensures members[i] < n {
      assert members[i] in n.children;
    }
  }

  lemma {:induction false} NamesSnoc(nodes: seq<K.Node>, n: K.Node)
    ensures NamesIn(nodes + [n]) == NamesIn(nodes) + if IsMember(n) then {n.StringArgument(0).GetOr("")} else {}
  {
    assert (nodes + [n])[|nodes|] == n;
  }

  /** Accepted bounds are natural numbers. */
  lemma {:induction false} BoundIsNatural(n: K.Node)
    requires NodeOK(n, 1, Some(1), COLLECTION_PROPERTIES)
    ensures n.GetInt("min-items").GetOr(0) >= 0
  {
    var m := K.Find(n.properties, "min-items");
    if m.Some? {
      var i :| 0 <= i < |n.properties| && n.properties[i] == K.Property("min-items", m.value);
      assert PropertyOK(n, i, COLLECTION_PROPERTIES);
    }
  }

  // ---------- chains ----------

  lemma {:induction false} ChainStart(from: Type)
    ensures ChainEnd([], from) == Some(from)
  {}

  /** Appending a call to a chain that ends at the call's input. */
  lemma {:induction false} ChainSnoc(calls: seq<Call>, call: Call, from: Type)
    requires ChainEnd(calls, from) == Some(call.input)
    ensures ChainEnd(calls + [call], from) == Some(call.output)
  {
    if calls == [] {
      assert calls + [call] == [call];
      assert [call][1..] == [];
    } else {
      ChainSnoc(calls[1..], call, calls[0].output);
      assert (calls + [call])[1..] == calls[1..] + [call];
    }
  }

  lemma {:induction false} ChainIsTyped(g: Signatures, calls: seq<Call>, from: Type, to: Type)
    requires ChainEnd(calls, from).Some? && IsAssignable(ChainEnd(calls, from).value, to)
    requires CallsEmitted(g, calls)
    ensures ChainTyped(g, calls, from, to)
  {
    hide CallTyped, IsAssignable, CallArgumentsOK, BuiltinSignatureOK, WellFormed;
    if calls != [] {
      assert CallEmitted(g, calls[0]);
      assert forall call | call in calls[1..] :: call in calls;
      ChainIsTyped(g, calls[1..], calls[0].output, to);
    }
  }

  // ---------- the compiler ----------

  class Compiler {
    const h: Host
    const checks: Checks
    const g: Signatures
    var diags: seq<string>
    var capabilities: set<string>
    var jsPresent: bool
    /** The Go code indexes past the end of an empty argument list. */
    var panicked: bool

    ghost predicate Ready()
    {
      SignaturesOK(g) && h.Lawful()
    }

    constructor (h: Host, checks: Checks, g: Signatures)
      ensures this.h == h && this.checks == checks && this.g == g
      ensures diags == [] && capabilities == {} && !jsPresent && !panicked
    {
      this.h, this.checks, this.g := h, checks, g;
      diags, capabilities, jsPresent, panicked := [], {}, false, false;
    }

    method Report(code: string)
      modifies this`diags
      ensures diags == old(diags) + [code]
    {
      diags := diags + [code];
    }

    /** A node is reported on exactly when it breaks the shape asked for. */
    method ValidateNode(n: K.Node, min: nat, max: Option<nat>, allowed: map<string, Expectation>)
      modifies this`diags
      ensures old(diags) <= diags && (diags == old(diags) <==> NodeOK(n, min, max, allowed))
    {
      hide Meets;
      if |n.arguments| < min || (max.Some? && |n.arguments| > max.value) {
        Report("E_ARGUMENT_COUNT");
      }
      ghost var counted := diags;
      var seen: set<string> := {};
      for i := 0 to |n.properties|
        invariant counted <= diags
        invariant seen == set k | 0 <= k < i :: n.properties[k].name
        invariant diags == counted <==> forall k | 0 <= k < i :: PropertyOK(n, k, allowed)
      {
        var p := n.properties[i];
        ghost var before := diags;
        if p.name in seen {
          Report("E_DUPLICATE_PROPERTY");
        }
        seen := seen + {p.name};
        if p.name !in allowed {
          Report("E_UNKNOWN_PROPERTY");
        } else if !Meets(p.value, allowed[p.name]) {
          Report("E_TYPE_MISMATCH");
        }
        assert before <= diags && (diags == before <==> PropertyOK(n, i, allowed));
      }
    }

    method ValidateRequired(n: K.Node, names: seq<string>)
      modifies this`diags
      ensures old(diags) <= diags && (diags == old(diags) <==> HasRequired(n, names))
    {
      for i := 0 to |names|
        invariant old(diags) <= diags
        invariant diags == old(diags) <==> forall k | 0 <= k < i :: n.Get(names[k]).Some?
      {
        if n.Get(names[i]).None? {
          Report("E_TRANSFORM_ARGUMENT");
        }
      }
    }

    method CompileTransformCall(scope: Scope, n: K.Node, input: Type) returns (call: Call, next: Type)
      requires Ready() && ScopeOK(scope, g) && WellFormed(input) && ValidTree(h, n)
      modifies this`diags, this`panicked
      ensures old(diags) <= diags && call.input == input && call.output == next && WellFormed(next)
      ensures panicked == (old(panicked) || n.arguments == [])
      ensures diags == old(diags) ==> panicked == old(panicked)
      ensures diags == old(diags) ==> CallEmitted(g, call)
      ensures diags == old(diags) ==> Mirrors(h, scope, n, call)
      ensures diags == old(diags) <==> CallOutput(checks, g, scope, input, n).Some?
      ensures diags == old(diags) ==> CallOutput(checks, g, scope, input, n) == Some(next)
    {
      hide BuiltinOutput, DeclaredOutput, ScopeOK, SignaturesOK, Host.Lawful, TypeOf, WellFormed, Allowed, Required, NameOf, Lookup, IsAssignable, ArgumentsOK, Resolve, NodeOK, CallEmitted;
      if |n.arguments| < 1 {
        Report("E_ARGUMENT_COUNT");
      }
      var name := n.StringArgument(0);
      if name.None? {
        Report("E_TRANSFORM_UNKNOWN");
      }
      if |n.arguments| == 0 {
        panicked := true;
        return Call(UnknownTarget, [], [], input, input), input;
      }
      var text := name.GetOr("");
      call := Call(UnknownTarget, RawArguments(h, n.arguments[1..]), NamedArguments(h, n.properties), input, input);
      if Lookup(text).Some? {
        call, next := CompileBuiltinCall(Lookup(text).value, n, call.(target := BuiltinTarget(text)));
      } else {
        call, next := CompileDeclaredCall(scope, text, n, call);
      }
    }

    method CompileBuiltinCall(b: Builtin, n: K.Node, base: Call) returns (call: Call, next: Type)
      requires Ready() && WellFormed(base.input) && |n.arguments| >= 1
      requires Lookup(NameOf(b)) == Some(b) && base.target == BuiltinTarget(NameOf(b))
      requires base.positional == RawArguments(h, n.arguments[1..]) && base.named == NamedArguments(h, n.properties)
      modifies this`diags
      ensures old(diags) <= diags && call == base.(output := next) && WellFormed(next)
      ensures diags == old(diags) <==> BuiltinOutput(checks, b, base.input, n).Some?
      ensures diags == old(diags) ==> CallEmitted(g, call) && BuiltinOutput(checks, b, base.input, n) == Some(next)
    {
      hide TypeOf, WellFormed, Allowed, Required, NameOf, Lookup, ArgumentsOK, NodeOK, HasRequired, CallEmitted;
      ValidateNode(n, 1, None, Allowed(b));
      ValidateRequired(n, Required(b));
      if !ArgumentsOK(checks, b, base.input, n) {
        Report("E_TRANSFORM_ARGUMENT");
      }
      if !b.AssertEnum? && |n.arguments| > 1 {
        Report("E_TRANSFORM_ARGUMENT");
      }
      if b.AssertEnum? && |n.arguments| < 2 {
        Report("E_TRANSFORM_ARGUMENT");
      }
      var typed := TypeOf(b, base.input, n.GetString("as"));
      if typed.None? {
        Report("E_TRANSFORM_TYPE_MISMATCH");
        next := base.input;
      } else {
        next := typed.value;
        BuiltinOutputWellFormed(b, base.input, n.GetString("as"));
      }
      call := base.(output := next);
      if diags == old(diags) {
        BuiltinCallEmitted(h, g, n, b, call);
      }
    }

    method CompileDeclaredCall(scope: Scope, name: string, n: K.Node, base: Call) returns (call: Call, next: Type)
      requires Ready() && ScopeOK(scope, g) && WellFormed(base.input) && |n.arguments| >= 1
      requires base.positional == RawArguments(h, n.arguments[1..]) && base.named == NamedArguments(h, n.properties)
      modifies this`diags
      ensures old(diags) <= diags && WellFormed(next)
      ensures call == base.(target := DeclaredTarget(Resolve(scope, name).GetOr("unresolved:" + name)), output := next)
      ensures diags == old(diags) <==> DeclaredOutput(g, scope, name, base.input, n).Some?
      ensures diags == old(diags) ==> Resolve(scope, name).Some? && CallEmitted(g, call) && DeclaredOutput(g, scope, name, base.input, n) == Some(next)
    {
      hide WellFormed, IsAssignable, SplitBy;
      var symbol := Resolve(scope, name);
      if symbol.None? {
        Report("E_TRANSFORM_UNKNOWN");
        return base.(target := DeclaredTarget("unresolved:" + name), output := base.input), base.input;
      }
      if |n.arguments| > 1 || |n.properties| > 0 {
        Report("E_TRANSFORM_ARGUMENT");
      }
      if !IsAssignable(base.input, g[symbol.value].0) {
        Report("E_TRANSFORM_TYPE_MISMATCH");
      }
      next := g[symbol.value].1;
      call := base.(target := DeclaredTarget(symbol.value), output := next);
    }

    /** A run of `apply` nodes: the type is threaded from call to call. */
    method CompileApplies(scope: Scope, nodes: seq<K.Node>, from: Type) returns (calls: seq<Call>, current: Type)
      requires Ready() && ScopeOK(scope, g) && WellFormed(from)
      requires forall i | 0 <= i < |nodes| :: ValidTree(h, nodes[i])
      modifies this`diags, this`panicked
      ensures old(diags) <= diags && |calls| == |nodes| && WellFormed(current)
      ensures panicked == (old(panicked) || AppliesNothing(nodes))
      ensures diags == old(diags) ==> panicked == old(panicked)
      ensures diags == old(diags) ==> CallsEmitted(g, calls) && ChainEnd(calls, from) == Some(current)
      ensures diags == old(diags) ==> forall i | 0 <= i < |nodes| :: Mirrors(h, scope, nodes[i], calls[i])
      ensures diags == old(diags) <==> AppliesOutput(checks, g, scope, from, nodes).Some?
      ensures diags == old(diags) ==> AppliesOutput(checks, g, scope, from, nodes) == Some(current)
    {
      hide CallOutput, CallEmitted, WellFormed, ScopeOK, ValidTree, Mirrors, ChainEnd, SignaturesOK, Host.Lawful;
      calls, current := [], from;
      ChainStart(from);
      for i := 0 to |nodes|
        invariant old(diags) <= diags && |calls| == i && WellFormed(current)
        invariant panicked == (old(panicked) || exists k | 0 <= k < i :: nodes[k].arguments == [])
        invariant diags == old(diags) ==> panicked == old(panicked)
        invariant diags == old(diags) ==> CallsEmitted(g, calls) && ChainEnd(calls, from) == Some(current)
        invariant diags == old(diags) ==> forall k | 0 <= k < i :: Mirrors(h, scope, nodes[k], calls[k])
        invariant AppliesOutput(checks, g, scope, from, nodes) ==
          if diags == old(diags) then AppliesOutput(checks, g, scope, current, nodes[i..]) else None
      {
        assert nodes[i..][1..] == nodes[i + 1..];
        var call, next := CompileTransformCall(scope, nodes[i], current);
        if diags == old(diags) {
          ChainSnoc(calls, call, from);
        }
        calls := calls + [call];
        current := next;
      }
    }

    // ---------- declared transforms ----------

    method CompileTransform(d: Decl) returns (t: Option<Transform>)
      requires Ready() && DeclOK(h, g, d)
      modifies this`diags, this`panicked, this`capabilities
      ensures old(diags) <= diags
      ensures panicked == (old(panicked) || TransformPanics(d))
      ensures diags == old(diags) ==> panicked == old(panicked)
      ensures diags == old(diags) <==> TransformAccepted(h, checks, g, d)
      ensures diags == old(diags) ==> t.Some? && TransformEmitted(h, g, t.value) && TransformMirrors(h, d, t.value)
      ensures capabilities == old(capabilities) +
        if t.Some? && t.value.External? then {"transform.external:" + t.value.symbol} else {}
    {
      hide TransformEmitted, ScopeOK, SignaturesOK, Host.Lawful, CallsEmitted, MatchMirrors, Mirrors, ValidTree, PipelineAccepted, MatchAccepted,
        ExternalAccepted, AppliesNothing, BodiesOf, WellFormed, K.Named;
      var bodies := TransformBodies(d.node.children);
      if |bodies| != 1 {
        Report("E_DOCUMENT_ROOT");
        return None;
      }
      var body := bodies[0];
      assert ValidTree(h, body) by { ChildrenAreValid(h, d.node, bodies); }
      if body.name == "pipeline" {
        var pipeline := CompilePipeline(d, body);
        return Some(pipeline);
      } else if body.name == "match" {
        var match_ := CompileMatch(d, body);
        return Some(match_);
      } else {
        var ext := CompileExternal(d, body);
        return Some(ext);
      }
    }

    method TransformBodies(nodes: seq<K.Node>) returns (bodies: seq<K.Node>)
      modifies this`diags
      ensures old(diags) <= diags && bodies == BodiesOf(nodes)
      ensures diags == old(diags) ==> bodies == nodes
      ensures diags == old(diags) <==> forall i | 0 <= i < |nodes| :: IsBody(nodes[i])
    {
      hide BodiesOf;
      bodies := [];
      assert nodes[..0] == [];
      NoBodies();
      for i := 0 to |nodes|
        invariant old(diags) <= diags && bodies == BodiesOf(nodes[..i])
        invariant diags == old(diags) ==> bodies == nodes[..i]
        invariant diags == old(diags) <==> forall k | 0 <= k < i :: IsBody(nodes[k])
      {
        assert nodes[..i + 1] == nodes[..i] + [nodes[i]];
        BodiesSnoc(nodes[..i], nodes[i]);
        if IsBody(nodes[i]) {
          bodies := bodies + [nodes[i]];
        } else {
          Report("E_UNKNOWN_NODE");
        }
      }
      assert nodes[..|nodes|] == nodes;
    }

    method ReportOthers(nodes: seq<K.Node>, name: string)
      modifies this`diags
      ensures old(diags) <= diags
      ensures diags == old(diags) <==> K.Named(nodes, name) == nodes
    {
      for i := 0 to |nodes|
        invariant old(diags) <= diags
        invariant diags == old(diags) <==> forall k | 0 <= k < i :: nodes[k].name == name
      {
        if nodes[i].name != name {
          Report("E_UNKNOWN_NODE");
        }
      }
      AllNamed(nodes, name);
    }

    method CompilePipeline(d: Decl, body: K.Node) returns (t: Transform)
      requires Ready() && DeclOK(h, g, d) && ValidTree(h, body)
      modifies this`diags, this`panicked
      ensures old(diags) <= diags && t.Pipeline? && t.input == d.input && t.output == d.output
      ensures panicked == (old(panicked) || AppliesNothing(K.Named(body.children, "apply")))
      ensures diags == old(diags) ==> panicked == old(panicked)
      ensures diags == old(diags) ==> TransformEmitted(h, g, t)
      ensures diags == old(diags) <==> PipelineAccepted(checks, g, d, body)
      ensures diags == old(diags) ==>
        |t.calls| == |body.children| && forall i | 0 <= i < |t.calls| :: body.children[i].name == "apply" && Mirrors(h, d.scope, body.children[i], t.calls[i])
    {
      hide ScopeOK, SignaturesOK, Host.Lawful, CallsEmitted, ChainTyped, ChainEnd, NodeOK, WellFormed, IsAssignable, AppliesOutput, K.Named, Mirrors, AppliesNothing;
      ValidateNode(body, 0, Some(0), map[]);
      ReportOthers(body.children, "apply");
      var calls, current := CompileApplies(d.scope, K.Named(body.children, "apply"), d.input);
      if |calls| == 0 {
        Report("E_ARGUMENT_COUNT");
      }
      if !IsAssignable(current, d.output) {
        Report("E_TRANSFORM_TYPE_MISMATCH");
      }
      t := Pipeline(d.input, d.output, calls);
      if diags == old(diags) {
        ChainIsTyped(g, calls, d.input, d.output);
      }
    }

    method CompileExternal(d: Decl, body: K.Node) returns (t: Transform)
      requires DeclOK(h, g, d)
      modifies this`diags, this`capabilities
      ensures old(diags) <= diags && t.External? && t.input == d.input && t.output == d.output
      ensures diags == old(diags) <==> ExternalAccepted(body)
      ensures diags == old(diags) ==> TransformEmitted(h, g, t) && body.GetString("symbol") == Some(t.symbol)
      ensures capabilities == old(capabilities) + {"transform.external:" + t.symbol}
    {
      hide WellFormed, ScopeOK, NodeOK;
      ValidateNode(body, 0, Some(0), map["symbol" := ExpectString]);
      var symbol := body.GetString("symbol");
      if symbol.None? || symbol.value == "" {
        Report("E_EXTERNAL_TRANSFORM_MISSING");
      }
      capabilities := capabilities + {"transform.external:" + symbol.GetOr("")};
      t := External(d.input, d.output, symbol.GetOr(""));
    }

    method CompileMatch(d: Decl, body: K.Node) returns (t: Transform)
      requires Ready() && DeclOK(h, g, d) && ValidTree(h, body)
      modifies this`diags
      ensures old(diags) <= diags && t.Match? && t.input == d.input && t.output == d.output
      ensures diags == old(diags) <==> MatchAccepted(h, body, d.input, d.output)
      ensures diags == old(diags) ==> TransformEmitted(h, g, t) && MatchMirrors(h, body, t)
    {
      hide ScopeOK, SignaturesOK, Host.Lawful, WellFormed, IsScalar, MatchOK, CasesFrom, NodeOK, ValidTree, MatchItemsAccepted, K.Named, CasesOf, DefaultOf, CaseLiterals;
      ValidateNode(body, 0, Some(0), map[]);
      if !IsScalar(d.input) || !IsScalar(d.output) {
        Report("E_TRANSFORM_TYPE_MISMATCH");
      }
      var cases, default, defaults := CompileCases(body.children, d.input, d.output);
      if defaults != 1 {
        Report("E_MATCH_DEFAULT");
      }
      t := Match(d.input, d.output, cases, default);
      if diags == old(diags) {
        ChildrenAreValid(h, body, body.children);
        AcceptedCases(h, body.children, d.input, d.output);
        CasesAreOK(h, cases, CaseLiterals(body.children), d.input, d.output, default);
      }
    }

    /** The `case` and `default` nodes of a match. */
    method CompileCases(nodes: seq<K.Node>, input: Type, output: Type) returns (cases: seq<(Raw, Raw)>, default: Raw, defaults: nat)
      modifies this`diags
      ensures old(diags) <= diags && (diags == old(diags) <==> MatchItemsAccepted(h, nodes, input, output))
      ensures cases == CasesOf(h, nodes) && default == DefaultOf(h, nodes) && defaults == |K.Named(nodes, "default")|
    {
      hide NodeOK, RawOf, CaseAccepted, MatchDefaultAccepted, MatchItemsAccepted, K.Named, SeenInputs, CasesOf, CaseLiterals;
      cases, default, defaults := [], Malformed, 0;
      var seen: set<Raw> := {};
      assert nodes[..0] == [];
      NoItems(h, input, output);
      for i := 0 to |nodes|
        invariant old(diags) <= diags && (diags == old(diags) <==> MatchItemsAccepted(h, nodes[..i], input, output))
        invariant cases == CasesOf(h, nodes[..i]) && default == DefaultOf(h, nodes[..i]) && defaults == |K.Named(nodes[..i], "default")|
        invariant seen == SeenInputs(h, nodes[..i])
      {
        var n := nodes[i];
        ghost var before := nodes[..i];
        assert nodes[..i + 1] == before + [n];
        CasesSnoc(h, before, n);
        MatchItemsSnoc(h, before, n, input, output);
        NamedSnoc(before, n, "default");
        if n.name == "case" {
          CheckCase(n, before, seen, input, output);
          if |n.arguments| < 2 {
            continue;
          }
          seen := seen + {RawOf(h, n.arguments[0])};
          cases := cases + [(RawOf(h, n.arguments[0]), RawOf(h, n.arguments[1]))];
        } else if n.name == "default" {
          defaults := defaults + 1;
          CheckDefault(n, output);
          if |n.arguments| > 0 {
            default := RawOf(h, n.arguments[0]);
          }
        } else {
          Report("E_UNKNOWN_NODE");
        }
      }
      assert nodes[..|nodes|] == nodes;
    }

    method CheckCase(child: K.Node, ghost before: seq<K.Node>, seen: set<Raw>, input: Type, output: Type)
      requires seen == SeenInputs(h, before)
      modifies this`diags
      ensures old(diags) <= diags
      ensures diags == old(diags) <==> CaseAccepted(h, before, child, input, output)
    {
      hide LiteralAssignable, RawOf, SeenInputs;
      ValidateNode(child, 2, Some(2), map[]);
      if |child.arguments| >= 2 {
        if RawOf(h, child.arguments[0]) in seen {
          Report("E_MATCH_DUPLICATE_CASE");
        }
        if !LiteralAssignable(child.arguments[0], input) {
          Report("E_TYPE_MISMATCH");
        }
        if !LiteralAssignable(child.arguments[1], output) {
          Report("E_TYPE_MISMATCH");
        }
      }
    }

    method CheckDefault(child: K.Node, output: Type)
      modifies this`diags
      ensures old(diags) <= diags && (diags == old(diags) <==> MatchDefaultAccepted(child, output))
    {
      hide LiteralAssignable;
      ValidateNode(child, 1, Some(1), map[]);
      if |child.arguments| > 0 && !LiteralAssignable(child.arguments[0], output) {
        Report("E_TYPE_MISMATCH");
      }
    }

    /** Every declaration in order; `seen` symbols are the loader's concern. */
    method CompileTransforms(decls: seq<Decl>) returns (all: seq<Declaration>)
      requires Ready() && forall d | d in decls :: DeclOK(h, g, d)
      modifies this`diags, this`panicked, this`capabilities
      ensures old(diags) <= diags
      ensures panicked == (old(panicked) || exists d :: d in decls && TransformPanics(d))
      ensures diags == old(diags) ==> panicked == old(panicked)
      ensures diags == old(diags) <==> forall d | d in decls :: TransformAccepted(h, checks, g, d)
      ensures diags == old(diags) ==>
        && |all| == |decls|
        && forall i | 0 <= i < |decls| ::
             && all[i].symbol == decls[i].symbol && TransformEmitted(h, g, all[i].body)
             && TransformMirrors(h, decls[i], all[i].body)
      ensures diags == old(diags) ==> capabilities == old(capabilities) + ExternalCapabilities(all)
    {
      hide TransformEmitted, TransformMirrors, DeclOK, SignaturesOK, Host.Lawful, TransformAccepted, TransformPanics, ScopeOK;
      DeclScopes(h, g, decls);
      all := [];
      assert capabilities == old(capabilities) + ExternalCapabilities(all);
      for i := 0 to |decls|
        invariant old(diags) <= diags
        invariant panicked == (old(panicked) || exists k | 0 <= k < i :: TransformPanics(decls[k]))
        invariant diags == old(diags) ==> panicked == old(panicked)
        invariant diags == old(diags) <==> forall k | 0 <= k < i :: TransformAccepted(h, checks, g, decls[k])
        invariant diags == old(diags) ==>
          && |all| == i
          && forall k | 0 <= k < i ::
               && all[k].symbol == decls[k].symbol && TransformEmitted(h, g, all[k].body)
               && TransformMirrors(h, decls[k], all[k].body)
        invariant diags == old(diags) ==> capabilities == old(capabilities) + ExternalCapabilities(all)
      {
        assert decls[i] in decls;
        var t := CompileTransform(decls[i]);
        if t.Some? {
          if diags == old(diags) {
            OneMoreExternal(h, g, all, Declaration(decls[i].symbol, t.value));
          }
          all := all + [Declaration(decls[i].symbol, t.value)];
        }
      }
    }

    // ---------- fields ----------

    /** durationIntPtr. */
    method CompileDuration(n: K.Node, name: string) returns (r: Option<int>)
      modifies this`diags
      ensures old(diags) <= diags && TimeoutOK(r)
      ensures diags == old(diags) <==> TimeoutOK(n.GetInt(name))
      ensures diags == old(diags) ==> r == n.GetInt(name)
    {
      r := n.GetInt(name);
      if r.Some? && !(1 <= r.value <= MAX_MILLISECONDS) {
        Report("E_TYPE_MISMATCH");
        r := None;
      }
    }

    method CheckSelector(selector: string)
      modifies this`diags
      ensures old(diags) <= diags && (diags == old(diags) <==> SelectorOK(checks, selector))
    {
      hide TrimSpace;
      if !SelectorOK(checks, selector) {
        Report("E_SELECTOR_INVALID");
      }
    }

    method CompileSelection(n: K.Node) returns (r: Selection)
      modifies this`diags
      ensures old(diags) <= diags
      ensures diags == old(diags) <==> SelectionAccepted(checks, n)
      ensures diags == old(diags) ==>
        && (r.mode == "one" || r.mode == "first") && SelectorOK(checks, r.selector)
        && SelectionMirrors(n, r)
    {
      hide TrimSpace, NodeOK, SelectorOK;
      ValidateNode(n, 1, Some(1), map["match" := ExpectString]);
      var selector := n.StringArgument(0).GetOr("");
      CheckSelector(selector);
      var mode := n.GetString("match").GetOr("");
      if mode == "" {
        mode := "one";
      }
      if mode != "one" && mode != "first" {
        Report("E_TYPE_MISMATCH");
      }
      r := Selection(selector, mode);
    }

    /** A `value` node: text, html or attr. */
    method CompileValue(mode: string, n: K.Node, path: string, selected: bool) returns (source: ValueSource)
      modifies this`diags, this`capabilities
      ensures old(diags) <= diags && !source.JavaScriptSource? && source.rawType == STRING
      ensures diags == old(diags) <==> ValueAccepted(n, path, selected)
      ensures diags == old(diags) ==>
        && (selected || HasBrackets(path))
        && ReadMirrors(n, source)
        && (source.AttributeSource? ==> source.name != "")
      ensures diags == old(diags) ==>
        capabilities == old(capabilities) + if mode == "browser" then ReadCapabilities(source) else {}
    {
      hide NodeOK, HasBrackets;
      var kind := n.StringArgument(0).GetOr("");
      ValidateNode(n, 1, Some(1), if kind == "attr" then map["name" := ExpectString] else map[]);
      if !selected && !HasBrackets(path) {
        Report("E_SELECTOR_REQUIRED");
      }
      if kind == "text" {
        source := TextSource(STRING);
        AddReadCapability(mode, "text");
      } else if kind == "html" {
        source := HTMLSource(STRING);
        AddReadCapability(mode, "html");
      } else if kind == "attr" {
        var name := n.GetString("name");
        if name.None? || name.value == "" {
          Report("E_ATTRIBUTE_NAME_REQUIRED");
        }
        source := AttributeSource(name.GetOr(""), STRING);
        AddReadCapability(mode, "attr");
      } else {
        Report("E_TYPE_MISMATCH");
        source := TextSource(STRING);
      }
    }

    method AddReadCapability(mode: string, kind: string)
      modifies this`capabilities
      ensures capabilities == old(capabilities) + if mode == "browser" then {"browser.query", "browser.read-" + kind} else {}
    {
      if mode == "browser" {
        capabilities := capabilities + {"browser.query", "browser.read-" + kind};
      }
    }

    /** An `evaluate-js` value source. */
    method CompileEvaluate(mode: string, n: K.Node, path: string, selected: bool) returns (source: ValueSource)
      modifies this`diags, this`capabilities, this`jsPresent
      ensures old(diags) <= diags && source.JavaScriptSource? && WellFormed(source.returned) && jsPresent
      ensures diags == old(diags) <==> ScriptAccepted(mode, n, path, selected)
      ensures diags == old(diags) ==>
        && mode == "browser"
        && (source.scope == "document" || source.scope == "current")
        && TimeoutOK(source.timeout)
        && (source.scope == "document" ==> !selected)
        && (source.scope == "current" ==> selected || HasBrackets(path))
        && ScriptMirrors(n, source)
      ensures diags == old(diags) ==>
        capabilities == old(capabilities) + {"browser.evaluate-js"} + if selected then {"browser.query"} else {}
    {
      hide NodeOK, HasBrackets, Parse, WellFormed, ScopeAccepted, TimeoutOK;
      ValidateNode(n, 1, Some(1), map["scope" := ExpectString, "returns" := ExpectString, "timeout-ms" := ExpectNonNegativeInt]);
      var scope := CompileScriptScope(n, path, selected);
      var returned := CompileTypeProperty(n, "returns", "E_TYPE_UNKNOWN");
      var timeout := CompileDuration(n, "timeout-ms");
      source := JavaScriptSource(scope, n.StringArgument(0).GetOr(""), returned, timeout);
      capabilities := capabilities + {"browser.evaluate-js"};
      if selected && mode == "browser" {
        capabilities := capabilities + {"browser.query"};
      }
      jsPresent := true;
      if mode != "browser" {
        Report("E_BROWSER_CAPABILITY_REQUIRED");
      }
    }

    method CompileScriptScope(n: K.Node, path: string, selected: bool) returns (scope: string)
      modifies this`diags
      ensures old(diags) <= diags && scope == n.GetString("scope").GetOr("")
      ensures diags == old(diags) <==> ScopeAccepted(n, path, selected)
      ensures diags == old(diags) ==>
        && (scope == "document" || scope == "current") && n.GetString("scope") == Some(scope)
        && (scope == "document" ==> !selected)
        && (scope == "current" ==> selected || HasBrackets(path))
    {
      hide HasBrackets;
      scope := n.GetString("scope").GetOr("");
      if scope != "document" && scope != "current" {
        Report("E_TYPE_MISMATCH");
      }
      if scope == "document" && selected {
        Report("E_SELECTOR_FORBIDDEN");
      }
      if scope == "current" && !selected && !HasBrackets(path) {
        Report("E_CURRENT_SCOPE_UNAVAILABLE");
      }
    }

    /** The value source of a field: exactly one `value` or `evaluate-js`. */
    method CompileSource(mode: string, n: K.Node, path: string, selection: Option<Selection>) returns (source: ValueSource)
      modifies this`diags, this`capabilities, this`jsPresent
      ensures old(diags) <= diags && WellFormed(SourceType(source))
      ensures diags == old(diags) <==> ValueSourceAccepted(mode, n, path, selection.Some?)
      ensures diags == old(diags) ==> SourceFits(source, selection, path) && (source.JavaScriptSource? ==> mode == "browser")
      ensures diags == old(diags) ==> ValueMirrors(n, source) && SourceType(source) == ReadType(n)
      ensures diags == old(diags) ==>
        Adds(mode, path, old(capabilities), capabilities, SourceUse(source, selection))
    {
      hide HasBrackets, WellFormed, K.Named, ReadMirrors, ScriptMirrors, TimeoutOK, ValueAccepted, ScriptAccepted;
      var values, evals := K.Named(n.children, "value"), K.Named(n.children, "evaluate-js");
      if |values| + |evals| == 0 {
        Report("E_VALUE_SOURCE_MISSING");
      }
      if |values| + |evals| > 1 {
        Report("E_VALUE_SOURCE_MULTIPLE");
      }
      source := TextSource(STRING);
      StringWellFormed();
      if |values| > 0 {
        source := CompileValue(mode, values[0], path, selection.Some?);
      }
      if |evals| > 0 {
        source := CompileEvaluate(mode, evals[0], path, selection.Some?);
      }
      if diags == old(diags) {
        ReadIsTyped(n, source);
      }
    }

    /** The error policy, explicit or implied. */
    method CompilePolicy(n: K.Node, required: bool, hasDefault: bool, effective: Type) returns (policy: string)
      modifies this`diags
      ensures old(diags) <= diags && policy in {"fail", "null", "warn", "default"}
      ensures diags == old(diags) <==> PolicyAccepted(n, required, hasDefault, effective)
      ensures diags == old(diags) ==>
        && (policy in {"null", "warn"} ==> effective.Nullable?) && (policy == "default" ==> hasDefault)
        && policy == PolicyOf(n, required)
    {
      hide NodeOK, K.Named;
      var nodes := K.Named(n.children, "on-error");
      if |nodes| > 1 {
        Report("E_ARGUMENT_COUNT");
      }
      policy := if required then "fail" else "null";
      if |nodes| > 0 {
        ValidateNode(nodes[0], 1, Some(1), map[]);
        var p := nodes[0].StringArgument(0).GetOr("");
        if p != "fail" && p != "null" && p != "warn" && p != "default" {
          Report("E_ERROR_POLICY_INVALID");
        } else {
          policy := p;
        }
      }
      if (policy == "null" || policy == "warn") && !effective.Nullable? {
        Report("E_ERROR_POLICY_INVALID");
      }
      if policy == "default" && !hasDefault {
        Report("E_ERROR_POLICY_INVALID");
      }
    }

    method ReportUnknownChildren(n: K.Node, known: set<string>)
      modifies this`diags
      ensures old(diags) <= diags
      ensures diags == old(diags) <==> forall child | child in n.children :: child.name in known
    {
      for i := 0 to |n.children|
        invariant old(diags) <= diags
        invariant diags == old(diags) <==> forall k | 0 <= k < i :: n.children[k].name in known
      {
        if n.children[i].name !in known {
          Report("E_UNKNOWN_NODE");
        }
      }
    }

    /** A type-valued property; `unknown` after a report. */
    method CompileTypeProperty(n: K.Node, property: string, absent: string) returns (t: Type)
      modifies this`diags
      ensures old(diags) <= diags && WellFormed(t)
      ensures diags == old(diags) <==> TypeOfProperty(n, property).Some?
      ensures diags == old(diags) ==> TypeOfProperty(n, property) == Some(t)
      ensures diags == old(diags) ==> n.GetString(property).Some? && Parse(n.GetString(property).value) == Some(t)
    {
      hide Parse, WellFormed;
      UnknownWellFormed();
      var text := n.GetString(property);
      if text.None? {
        Report(absent);
        return UNKNOWN;
      }
      var parsed := ParseText(text.value);
      if parsed.None? {
        Report("E_TYPE_UNKNOWN");
        return UNKNOWN;
      }
      return parsed.value;
    }

    method CompileName(n: K.Node) returns (name: string)
      modifies this`diags
      ensures old(diags) <= diags
      ensures diags == old(diags) <==> NameAccepted(n)
      ensures diags == old(diags) ==> n.StringArgument(0) == Some(name) && Identifier(name)
    {
      hide Identifier;
      var argument := n.StringArgument(0);
      if argument.None? {
        Report("E_TYPE_MISMATCH");
      }
      name := argument.GetOr("invalid");
      if !Identifier(name) {
        Report("E_IDENTIFIER_INVALID");
      }
    }

    method CompileFieldSelection(n: K.Node) returns (selection: Option<Selection>)
      modifies this`diags
      ensures old(diags) <= diags
      ensures selection.Some? == (K.Named(n.children, "select") != [])
      ensures diags == old(diags) <==> SelectsAccepted(checks, n)
      ensures diags == old(diags) ==>
        && selection.Some? == (K.Named(n.children, "select") != [])
        && (selection.Some? ==>
             && (selection.value.mode == "one" || selection.value.mode == "first")
             && SelectorOK(checks, selection.value.selector)
             && SelectionMirrors(K.Named(n.children, "select")[0], selection.value))
    {
      hide SelectorOK, K.Named, SelectionAccepted;
      var selects := K.Named(n.children, "select");
      if |selects| > 1 {
        Report("E_ARGUMENT_COUNT");
      }
      selection := None;
      if |selects| > 0 {
        var s := CompileSelection(selects[0]);
        selection := Some(s);
      }
    }

    method CompileDefault(n: K.Node, successful: Type, required: bool) returns (default: Option<Raw>)
      requires Ready() && ValidTree(h, n)
      modifies this`diags
      ensures old(diags) <= diags
      ensures default == (if n.Get("default").Some? then Some(RawOf(h, n.Get("default").value)) else None)
      ensures diags == old(diags) <==> DefaultAccepted(n, successful, required)
      ensures diags == old(diags) ==>
        !(required && default.Some?) && (default.Some? ==> LiteralOK(h, default.value, successful))
    {
      hide LiteralOK, LiteralAssignable, Host.Lawful, SignaturesOK;
      default := None;
      var value := n.Get("default");
      if value.Some? {
        default := Some(RawOf(h, value.value));
        if !LiteralAssignable(value.value, successful) {
          Report("E_DEFAULT_INVALID");
        } else {
          DefaultIsLiteral(h, n);
          LiteralNormalizes(h, value.value, successful);
        }
      }
      if required && default.Some? {
        Report("E_DEFAULT_INVALID");
      }
    }

    /** The applies of a field: they must lead from the type read to the declared one. */
    method CompileFieldCalls(n: K.Node, scope: Scope, from: Type, successful: Type) returns (calls: seq<Call>)
      requires Ready() && ScopeOK(scope, g) && ValidTree(h, n) && WellFormed(from)
      modifies this`diags, this`panicked
      ensures old(diags) <= diags
      ensures panicked == (old(panicked) || AppliesNothing(K.Named(n.children, "apply")))
      ensures diags == old(diags) ==> panicked == old(panicked)
      ensures diags == old(diags) <==> CallsAccepted(checks, g, scope, from, n, successful)
      ensures diags == old(diags) ==> CallsEmitted(g, calls) && ChainTyped(g, calls, from, successful)
      ensures diags == old(diags) ==>
        var applies := K.Named(n.children, "apply");
        |calls| == |applies| && forall i | 0 <= i < |applies| :: Mirrors(h, scope, applies[i], calls[i])
    {
      hide WellFormed, CallsEmitted, ChainTyped, ChainEnd, IsAssignable, K.Named, SignaturesOK, Host.Lawful, ScopeOK, ValidTree, Mirrors, AppliesOutput, AppliesNothing;
      var applies := K.Named(n.children, "apply");
      ChildrenAreValid(h, n, applies);
      var current;
      calls, current := CompileApplies(scope, applies, from);
      if !IsAssignable(current, successful) {
        Report("E_TYPE_MISMATCH");
      }
      if diags == old(diags) {
        ChainIsTyped(g, calls, from, successful);
      }
    }

    method CompileFieldHeader(n: K.Node) returns (name: string, successful: Type, default: Option<Raw>)
      requires Ready() && ValidTree(h, n)
      modifies this`diags
      ensures old(diags) <= diags && WellFormed(successful)
      ensures default == (if n.Get("default").Some? then Some(RawOf(h, n.Get("default").value)) else None)
      ensures diags == old(diags) <==> FieldHeaderAccepted(n)
      ensures diags == old(diags) ==>
        && n.StringArgument(0) == Some(name) && Identifier(name) && TypeOfProperty(n, "type") == Some(successful)
        && n.GetString("type").Some? && Parse(n.GetString("type").value) == Some(successful)
        && !(FlagOf(n, "required") && default.Some?) && (default.Some? ==> LiteralOK(h, default.value, successful))
    {
      hide NodeOK, K.Find, SignaturesOK, Host.Lawful, ValidTree, LiteralOK, RawOf, Identifier, Parse, TypeOfProperty, WellFormed, NameAccepted, DefaultAccepted, FlagOf;
      ValidateNode(n, 1, Some(1), map["type" := ExpectString, "required" := ExpectBool, "default" := ExpectScalar]);
      name := CompileName(n);
      successful := CompileTypeProperty(n, "type", "E_FIELD_TYPE_REQUIRED");
      default := CompileDefault(n, successful, FlagOf(n, "required"));
      ReportUnknownChildren(n, FIELD_CHILDREN);
    }

    method CompileField(mode: string, n: K.Node, parent: string, scope: Scope) returns (f: Field)
      requires Ready() && ScopeOK(scope, g) && ValidTree(h, n)
      modifies this`diags, this`capabilities, this`jsPresent, this`panicked
      ensures old(diags) <= diags && f.id == parent + "." + n.StringArgument(0).GetOr("")
      ensures panicked == (old(panicked) || AppliesNothing(K.Named(n.children, "apply")))
      ensures diags == old(diags) ==> panicked == old(panicked)
      ensures diags == old(diags) <==> FieldAccepted(checks, g, scope, mode, n, parent)
      ensures diags == old(diags) ==>
        && n.StringArgument(0) == Some(f.name) && FieldMirrors(h, scope, n, f)
        && MemberEmitted(h, g, FieldMember(f), parent) && SelectionOK(checks, f)
      ensures diags == old(diags) ==>
        Adds(mode, parent, old(capabilities), capabilities, SourceCapabilities(f))
    {
      hide HasBrackets, WellFormed, CallsEmitted, ChainTyped, ChainEnd, LiteralOK, NodeOK, IsAssignable, K.Named, SignaturesOK,
        Host.Lawful, ScopeOK, Parse, SelectorOK, Identifier, TimeoutOK, Mirrors, FlagOf, RawOf, SourceFits, SourceUse, Shared, K.Find,
        ValueMirrors, SelectionMirrors, PolicyOf, AppliesOutput, Meets,
        FieldHeaderAccepted, SelectsAccepted, ValueSourceAccepted, PolicyAccepted, CallsAccepted, AppliesNothing;
      var path := parent + "." + n.StringArgument(0).GetOr("");
      var name, successful, default := CompileFieldHeader(n);
      var required := FlagOf(n, "required");
      var selection := CompileFieldSelection(n);
      var source := CompileSource(mode, n, path, selection);
      var calls := CompileFieldCalls(n, scope, SourceType(source), successful);
      var effective := if !required && default.None? then LiftNullable(successful) else successful;
      var policy := CompilePolicy(n, required, default.Some?, effective);
      f := Field(path, name, successful, effective, required, default, selection, source, calls, policy);
      if diags == old(diags) {
        SamePlace(parent, f.name);
        FieldIsEmitted(h, g, f, parent);
      }
    }

    // ---------- output objects ----------

    /** The members in order, with names seen so far; `owner` bounds the depth. */
    method CompileOutputObject(mode: string, ghost owner: K.Node, nodes: seq<K.Node>, path: string, scope: Scope) returns (o: OutputObject)
      requires Ready() && ScopeOK(scope, g)
      requires forall i | 0 <= i < |nodes| :: ValidTree(h, nodes[i]) && nodes[i] < owner
      modifies this`diags, this`capabilities, this`jsPresent, this`panicked
      ensures old(diags) <= diags
      ensures panicked == (old(panicked) || ObjectPanics(nodes))
      ensures diags == old(diags) ==> panicked == old(panicked)
      ensures diags == old(diags) <==> ObjectAccepted(checks, g, scope, mode, owner, nodes, path)
      ensures diags == old(diags) ==>
        && ObjectEmitted(h, g, o, path) && SelectorsOK(checks.selector, o)
        && ObjectMirrors(h, scope, MemberNodes(nodes), o)
      ensures diags == old(diags) ==> Adds(mode, path, old(capabilities), capabilities, OutputCapabilities(o))
      decreases owner, 0
    {
      hide MemberEmitted, SelectorsOK, Shared, ScopeOK, SignaturesOK, Host.Lawful, ValidTree, MemberSelectorsOK, OutputCapabilities, MemberUse,
        MemberMirrors, ObjectMirrors, MemberNames, NamesDistinct, MemberNodes, ObjectEmitted, MemberAccepted, MemberPanics,
        ObjectAccepted, ObjectPanics, NamesIn, Gathered, Adds;
      NoObject(checks, g, scope, mode, owner, path);
      AddsNothing(mode, path, capabilities);
      var members: seq<Member> := [];
      var seen: set<string> := {};
      NothingYet(h, checks, g, path);
      assert nodes[..0] == [];
      for i := 0 to |nodes|
        invariant old(diags) <= diags
        invariant panicked == (old(panicked) || ObjectPanics(nodes[..i]))
        invariant diags == old(diags) ==> panicked == old(panicked)
        invariant seen == NamesIn(nodes[..i])
        invariant diags == old(diags) <==> ObjectAccepted(checks, g, scope, mode, owner, nodes[..i], path)
        invariant diags == old(diags) ==>
          && ObjectMirrors(h, scope, MemberNodes(nodes[..i]), OutputObject(members))
          && seen == MemberNames(OutputObject(members))
          && Gathered(h, checks, g, members, path)
        invariant diags == old(diags) ==>
          Adds(mode, path, old(capabilities), capabilities, OutputCapabilities(OutputObject(members)))
      {
        var n := nodes[i];
        assert nodes[..i + 1] == nodes[..i] + [n];
        MemberNodesSnoc(nodes[..i], n);
        NamesSnoc(nodes[..i], n);
        PanicsSnoc(nodes[..i], n);
        ObjectSnoc(checks, g, scope, mode, owner, nodes[..i], n, path);
        if !IsMember(n) {
          assert MemberNodes(nodes[..i + 1]) == MemberNodes(nodes[..i]);
          if path == "output" && n.name !in OUTPUT_OTHERS {
            Report("E_UNKNOWN_NODE");
          }
          continue;
        }
        var name := n.StringArgument(0).GetOr("");
        if name in seen {
          Report("E_DUPLICATE_SYMBOL");
        }
        ghost var base := capabilities;
        var m := CompileMember(mode, n, path, scope);
        if diags == old(diags) {
          MirrorsName(h, scope, n, m);
          OneMoreMember(h, checks, g, members, m, path);
          OneMoreUse(members, m);
          AddsBoth(mode, path, old(capabilities), base, capabilities, OutputCapabilities(OutputObject(members)), MemberUse(m));
          ObjectMirrorsSnoc(h, scope, members, m, MemberNodes(nodes[..i]), n);
        }
        seen := seen + {name};
        members := members + [m];
      }
      assert nodes[..|nodes|] == nodes;
      o := OutputObject(members);
      if diags == old(diags) {
        ObjectFacts(h, checks, g, o, path);
      }
    }

    method CompileMember(mode: string, n: K.Node, path: string, scope: Scope) returns (m: Member)
      requires Ready() && ScopeOK(scope, g) && ValidTree(h, n) && IsMember(n)
      modifies this`diags, this`capabilities, this`jsPresent, this`panicked
      ensures old(diags) <= diags && (n.name == "field") == m.FieldMember?
      ensures panicked == (old(panicked) || MemberPanics(n))
      ensures diags == old(diags) ==> panicked == old(panicked)
      ensures diags == old(diags) <==> MemberAccepted(checks, g, scope, mode, n, path)
      ensures diags == old(diags) ==>
        MemberMirrors(h, scope, n, m) && MemberEmitted(h, g, m, path) && MemberSelectorsOK(checks.selector, m)
      ensures diags == old(diags) ==>
        Adds(mode, path, old(capabilities), capabilities, MemberUse(m))
      decreases n, 2
    {
      hide MemberEmitted, SelectorsOK, Shared, ScopeOK, SignaturesOK, Host.Lawful, ValidTree, MemberSelectorsOK, SelectionOK, SelectorOK,
        FieldMirrors, CollectionMirrors, ObjectMirrors, FlagOf, OutputCapabilities, SourceCapabilities, EffectiveMinimum, FieldAccepted, CollectionHeaderAccepted, ObjectAccepted, AppliesNothing;
      if n.name == "field" {
        var f := CompileField(mode, n, path, scope);
        m := FieldMember(f);
      } else {
        var c := CompileCollection(mode, n, path, scope);
        m := CollectionMember(c);
      }
      if diags == old(diags) {
        MemberFacts(checks, m);
      }
    }

    method CompileCollection(mode: string, n: K.Node, parent: string, scope: Scope) returns (c: Collection)
      requires Ready() && ScopeOK(scope, g) && ValidTree(h, n)
      modifies this`diags, this`capabilities, this`jsPresent, this`panicked
      ensures old(diags) <= diags && c.id == parent + "." + n.StringArgument(0).GetOr("")
      ensures panicked == (old(panicked) || ObjectPanics(n.children))
      ensures diags == old(diags) ==> panicked == old(panicked)
      ensures diags == old(diags) <==> CollectionHeaderAccepted(checks, n) && RowAccepted(checks, g, scope, mode, n, parent)
      ensures diags == old(diags) ==>
        && n.StringArgument(0) == Some(c.name) && MemberEmitted(h, g, CollectionMember(c), parent)
        && SelectorOK(checks, c.selector) && SelectorsOK(checks.selector, c.row)
        && CollectionMirrors(n, c) && ObjectMirrors(h, scope, MemberNodes(n.children), c.row)
      ensures diags == old(diags) ==>
        Adds(mode, parent, old(capabilities), capabilities, MemberUse(CollectionMember(c)))
      decreases n, 1
    {
      hide ObjectEmitted, SelectorsOK, ScopeOK, SignaturesOK, Host.Lawful, NodeOK, K.Named, FlagOf, K.Find, SelectorOK, Identifier, CollectionMirrors,
        HasBrackets, Shared, OutputCapabilities, MemberNodes, ObjectMirrors, ValidTree, MemberEmitted, EffectiveMinimum, MemberUse, ObjectAccepted, CollectionHeaderAccepted, ObjectPanics;
      var path := parent + "." + n.StringArgument(0).GetOr("");
      var header := CompileCollectionHeader(n, path);
      var members := MemberNodes(n.children);
      if mode == "browser" {
        capabilities := capabilities + {"browser.query"};
      }
      ghost var before := capabilities;
      MembersAreChildren(h, n);
      MembersPanic(n.children);
      var row := CompileOutputObject(mode, n, members, path + "[]", scope);
      c := header.(row := row);
      if diags == old(diags) {
        FilterTwice(n.children);
        CollectionIsEmitted(h, g, scope, c, parent, n);
        MirrorsHeader(n, header, c);
        RowUses(mode, c, parent, path, old(capabilities), before, capabilities);
      }
    }

    /** Everything about a collection but its row. */
    method CompileCollectionHeader(n: K.Node, path: string) returns (c: Collection)
      modifies this`diags
      ensures old(diags) <= diags && c.id == path
      ensures diags == old(diags) <==> CollectionHeaderAccepted(checks, n)
      ensures diags == old(diags) ==>
        && n.StringArgument(0) == Some(c.name) && Identifier(c.name) && SelectorOK(checks, c.selector) && CollectionMirrors(n, c)
        && c.minItems >= (if c.required then 1 else 0) && (c.maxItems.Some? ==> c.maxItems.value >= c.minItems)
        && c.onRowError in {"fail", "skip"} && MemberNodes(n.children) != []
    {
      hide NodeOK, K.Named, FlagOf, SelectorOK, Identifier, MemberNodes, NameAccepted, RowSelectorAccepted;
      ValidateNode(n, 1, Some(1), COLLECTION_PROPERTIES);
      var name := CompileName(n);
      var required := FlagOf(n, "required");
      var min, max := CompileBounds(n, required);
      var onRow := CompileRowPolicy(n);
      ReportUnknownChildren(n, COLLECTION_CHILDREN);
      var selector := CompileRowSelector(n);
      if |MemberNodes(n.children)| == 0 {
        Report("E_COLLECTION_EMPTY_SCHEMA");
      }
      if diags == old(diags) {
        BoundIsNatural(n);
      }
      c := Collection(path, name, selector, required, min, max, onRow, OutputObject([]));
    }

    method CompileRowPolicy(n: K.Node) returns (policy: string)
      modifies this`diags
      ensures old(diags) <= diags
      ensures diags == old(diags) <==> n.GetString("on-row-error").GetOr("") in {"", "fail", "skip"}
      ensures diags == old(diags) ==>
        policy in {"fail", "skip"} && policy == (var p := n.GetString("on-row-error").GetOr(""); if p == "" then "fail" else p)
    {
      policy := n.GetString("on-row-error").GetOr("");
      if policy == "" {
        policy := "fail";
      }
      if policy != "fail" && policy != "skip" {
        Report("E_TYPE_MISMATCH");
      }
    }

    method CompileBounds(n: K.Node, required: bool) returns (min: int, max: Option<int>)
      modifies this`diags
      ensures old(diags) <= diags && max == n.GetInt("max-items") && min == EffectiveBound(n, required)
      ensures diags == old(diags) <==> BoundsAccepted(n, required)
    {
      min := n.GetInt("min-items").GetOr(0);
      if required && min < 1 {
        min := 1;
      }
      max := n.GetInt("max-items");
      if max.Some? && max.value < min {
        Report("E_COLLECTION_BOUNDS");
      }
    }

    method CompileRowSelector(n: K.Node) returns (selector: string)
      modifies this`diags
      ensures old(diags) <= diags
      ensures diags == old(diags) <==> RowSelectorAccepted(checks, n)
      ensures diags == old(diags) ==>
        SelectorOK(checks, selector) && |K.Named(n.children, "select")| == 1 &&
        K.Named(n.children, "select")[0].StringArgument(0).GetOr("") == selector
    {
      hide SelectorOK, NodeOK, K.Named;
      var selects := K.Named(n.children, "select");
      selector := "";
      if |selects| != 1 {
        Report("E_SELECTOR_REQUIRED");
      } else {
        ValidateNode(selects[0], 1, Some(1), map[]);
        selector := selects[0].StringArgument(0).GetOr("");
        CheckSelector(selector);
      }
    }

    // ---------- the inputs of the document ----------

    /** compileInputs: the inputs a template may use. */
    method CompileInputs(nodes: seq<K.Node>) returns (inputs: map<string, Template.Input>)
      modifies this`diags
      ensures old(diags) <= diags && inputs == InputsOf(nodes) && (diags == old(diags) <==> InputsAccepted(nodes))
    {
      hide InputAccepted, InputOf;
      inputs := map[];
      for i := 0 to |nodes|
        invariant old(diags) <= diags && inputs == InputsOf(nodes[..i])
        invariant diags == old(diags) <==> forall k | 0 <= k < i && nodes[k].name == "input" :: InputAccepted(InputsOf(nodes[..k]), nodes[k])
      {
        assert nodes[..i + 1][..i] == nodes[..i];
        if nodes[i].name == "input" {
          var more := CompileInput(inputs, nodes[i]);
          if more.Some? {
            inputs := inputs[more.value.0 := more.value.1];
          }
        }
      }
      assert nodes[..|nodes|] == nodes;
    }

    method CompileInput(before: map<string, Template.Input>, n: K.Node) returns (more: Option<(string, Template.Input)>)
      modifies this`diags
      ensures old(diags) <= diags && more == InputOf(before, n) && (diags == old(diags) <==> InputAccepted(before, n))
    {
      hide NodeOK, Identifier, K.Find;
      ValidateNode(n, 1, Some(1), INPUT_PROPERTIES);
      var name := n.StringArgument(0);
      if name.None? {
        Report("E_TYPE_MISMATCH");
        return None;
      }
      if !Identifier(name.value) {
        Report("E_IDENTIFIER_INVALID");
      }
      if name.value in before {
        Report("E_DUPLICATE_SYMBOL");
        return None;
      }
      var typeName := n.GetString("type").GetOr("");
      if typeName !in INPUT_TYPES {
        Report("E_TYPE_UNKNOWN");
        return None;
      }
      var required := InputRequired(n);
      var default := n.Get("default");
      if default.Some? {
        if required {
          Report("E_INPUT_REQUIRED_DEFAULT");
        }
        if !InputDefaultFits(default.value, typeName) {
          Report("E_DEFAULT_INVALID");
        }
      }
      return Some((name.value, Template.Input(required, default.Some?)));
    }

    // ---------- the source of the document ----------

    method CompileStepSelector(n: K.Node) returns (selector: string, timeout: Option<int>)
      modifies this`diags
      ensures old(diags) <= diags && TimeoutOK(timeout)
      ensures diags == old(diags) <==> SelectorOK(checks, n.StringArgument(0).GetOr("")) && TimeoutOK(n.GetInt("timeout-ms"))
      ensures diags == old(diags) ==>
        checks.selector(selector) && n.StringArgument(0).GetOr("") == selector && timeout == n.GetInt("timeout-ms")
    {
      hide TrimSpace;
      selector := n.StringArgument(0).GetOr("");
      CheckSelector(selector);
      timeout := CompileDuration(n, "timeout-ms");
    }

    method CompileWait(n: K.Node) returns (step: Step)
      requires n.name == "wait-for"
      modifies this`diags
      ensures old(diags) <= diags && StepCapability(step) == "browser.wait"
      ensures diags == old(diags) <==> WaitAccepted(checks, n)
      ensures diags == old(diags) ==> StepOK(checks.selector, step) && StepOf(n) == Some(step)
    {
      hide NodeOK;
      ValidateNode(n, 1, Some(1), map["state" := ExpectString, "timeout-ms" := ExpectNonNegativeInt]);
      var state := n.GetString("state").GetOr("");
      if state == "" {
        state := "visible";
      }
      if state != "attached" && state != "visible" && state != "hidden" && state != "detached" {
        Report("E_TYPE_MISMATCH");
      }
      var selector, timeout := CompileStepSelector(n);
      step := WaitFor(selector, state, timeout);
    }

    method CompileScroll(n: K.Node) returns (step: Step)
      requires n.name == "scroll"
      modifies this`diags
      ensures old(diags) <= diags && StepCapability(step) == "browser.scroll"
      ensures diags == old(diags) <==> ScrollAccepted(n)
      ensures diags == old(diags) ==> StepOK(checks.selector, step) && StepOf(n) == Some(step)
    {
      hide NodeOK;
      ValidateNode(n, 2, Some(2), map[]);
      if !IsNumber(n, 0) || !IsNumber(n, 1) {
        Report("E_TYPE_MISMATCH");
      }
      step := Scroll(NumberArgument(n, 0), NumberArgument(n, 1));
    }

    method CompileIdle(n: K.Node) returns (step: Step)
      requires n.name == "wait-for-network-idle"
      modifies this`diags
      ensures old(diags) <= diags && StepCapability(step) == "browser.network-idle"
      ensures diags == old(diags) <==> IdleAccepted(n)
      ensures diags == old(diags) ==> StepOK(checks.selector, step) && StepOf(n) == Some(step)
    {
      hide NodeOK;
      ValidateNode(n, 0, Some(0), map["idle-ms" := ExpectNonNegativeInt, "timeout-ms" := ExpectNonNegativeInt]);
      var idle := n.GetInt("idle-ms").GetOr(500);
      if idle < 1 || idle > MAX_MILLISECONDS {
        Report("E_TYPE_MISMATCH");
      }
      var timeout := CompileDuration(n, "timeout-ms");
      step := NetworkIdle(idle, timeout);
    }

    /** The steps with a selector and no options but a timeout. */
    method CompileInputStep(n: K.Node) returns (step: Step)
      requires n.name == "click" || n.name == "fill" || n.name == "press"
      modifies this`diags
      ensures old(diags) <= diags && StepCapability(step) == "browser.input"
      ensures diags == old(diags) <==> InputStepAccepted(checks, n)
      ensures diags == old(diags) ==> StepOK(checks.selector, step) && StepOf(n) == Some(step)
    {
      hide NodeOK;
      var arguments := if n.name == "click" then 1 else 2;
      ValidateNode(n, arguments, Some(arguments), map["timeout-ms" := ExpectNonNegativeInt]);
      var selector, timeout := CompileStepSelector(n);
      var text := n.StringArgument(1).GetOr("");
      if n.name == "click" {
        step := Click(selector, timeout);
      } else if n.name == "fill" {
        step := Fill(selector, text, timeout);
      } else {
        step := Press(selector, text, timeout);
      }
    }

    method CompileStep(n: K.Node) returns (step: Option<Step>)
      modifies this`diags, this`capabilities, this`jsPresent
      ensures old(diags) <= diags
      ensures diags == old(diags) <==> StepAccepted(checks, n)
      ensures diags == old(diags) ==> step.Some? && StepOK(checks.selector, step.value) && step == StepOf(n)
      ensures capabilities == old(capabilities) + if step.Some? then {StepCapability(step.value)} else {}
    {
      hide NodeOK, StepOK, WaitAccepted, ScrollAccepted, IdleAccepted, InputStepAccepted;
      var s: Step;
      var used;
      if n.name == "wait-for" {
        s := CompileWait(n);
        used := "browser.wait";
      } else if n.name == "click" || n.name == "fill" || n.name == "press" {
        s := CompileInputStep(n);
        used := "browser.input";
      } else if n.name == "scroll" {
        s := CompileScroll(n);
        used := "browser.scroll";
      } else if n.name == "wait-for-network-idle" {
        s := CompileIdle(n);
        used := "browser.network-idle";
      } else if n.name == "evaluate-js" {
        ValidateNode(n, 1, Some(1), map["timeout-ms" := ExpectNonNegativeInt]);
        var timeout := CompileDuration(n, "timeout-ms");
        s, used := EvaluateJavaScript(n.StringArgument(0).GetOr(""), timeout), "browser.evaluate-js";
        ScriptStepOK(checks, s);
        jsPresent := true;
      } else {
        Report("E_UNKNOWN_NODE");
        return None;
      }
      capabilities := capabilities + {used};
      step := Some(s);
    }

    method CompileWorkflow(n: K.Node) returns (steps: seq<Step>)
      modifies this`diags, this`capabilities, this`jsPresent
      ensures old(diags) <= diags
      ensures diags == old(diags) <==> WorkflowAccepted(checks, n)
      ensures diags == old(diags) ==> (forall s | s in steps :: StepOK(checks.selector, s)) && StepsMirror(n.children, steps)
      ensures capabilities == old(capabilities) + StepUses(steps)
    {
      hide NodeOK, StepOK, StepCapability, StepAccepted, StepOf;
      ValidateNode(n, 0, Some(0), map[]);
      ghost var start := diags;
      steps := [];
      for i := 0 to |n.children|
        invariant old(diags) <= start <= diags
        invariant diags == start <==> forall k | 0 <= k < i :: StepAccepted(checks, n.children[k])
        invariant diags == start ==> forall s | s in steps :: StepOK(checks.selector, s)
        invariant diags == start ==> StepsMirror(n.children[..i], steps)
        invariant capabilities == old(capabilities) + StepUses(steps)
      {
        var step := CompileStep(n.children[i]);
        if step.Some? {
          steps := steps + [step.value];
        }
      }
    }

    method CompileFetch(n: K.Node, inputs: map<string, Template.Input>) returns (mode: string, segments: seq<Template.Segment>)
      modifies this`diags
      ensures old(diags) <= diags && (mode == "http" || mode == "browser")
      ensures diags == old(diags) <==> FetchAccepted(checks, n, inputs)
      ensures diags == old(diags) ==>
        && n.GetString("mode") == Some(mode) && n.GetString("url").Some?
        && segments == Template.Scan(n.GetString("url").value, "") && Template.Clean(n.GetString("url").value, inputs)
        && checks.httpURL(Template.Probe(segments))
    {
      hide NodeOK, Template.Scan, Template.Clean, Template.Probe;
      ValidateNode(n, 0, Some(0), map["mode" := ExpectString, "url" := ExpectString]);
      mode := n.GetString("mode").GetOr("");
      if mode != "http" && mode != "browser" {
        Report("E_TYPE_MISMATCH");
        mode := "http";
      }
      var url := n.GetString("url").GetOr("");
      if url == "" {
        Report("E_TEMPLATE_INVALID");
      }
      ghost var before := diags;
      var reports;
      segments, reports := Template.CompileTemplate(url, inputs, checks.httpURL);
      diags := diags + reports;
      assert diags == before <==> reports == [];
    }

    method CompileSession(sessions: seq<K.Node>) returns (policy: string)
      modifies this`diags
      ensures old(diags) <= diags && (policy == "none" || policy == "optional" || policy == "required")
      ensures diags == old(diags) <==> SessionAccepted(sessions)
      ensures diags == old(diags) ==> policy == SessionOf(sessions)
    {
      hide NodeOK;
      policy := "none";
      if |sessions| > 1 {
        Report("E_DOCUMENT_ROOT");
      }
      if |sessions| > 0 {
        ValidateNode(sessions[0], 0, Some(0), map["policy" := ExpectString]);
        var p := sessions[0].GetString("policy").GetOr("");
        if p != "none" && p != "optional" && p != "required" {
          Report("E_TYPE_MISMATCH");
        } else {
          policy := p;
        }
      }
    }

    /** compileSource: the mode used here is the one OwnerMode finds for the fields. */
    method CompileSourceBlock(nodes: seq<K.Node>, inputs: map<string, Template.Input>)
      returns (mode: string, segments: seq<Template.Segment>, policy: string, steps: seq<Step>)
      modifies this`diags, this`capabilities, this`jsPresent
      ensures old(diags) <= diags
      ensures diags == old(diags) <==> SourceAccepted(checks, nodes, inputs)
      ensures diags == old(diags) ==> OwnerMode(nodes) == mode && SourceCompiled(checks, inputs, mode, segments, policy, steps)
      ensures diags == old(diags) ==> K.Named(nodes, "source") != [] && SourceMirrors(K.Named(nodes, "source")[0], mode, segments, policy, steps)
      ensures diags == old(diags) ==>
        capabilities == old(capabilities) + {ModeCapability(mode)} + StepUses(steps)
    {
      hide K.Named, StepUses, SourceCompiled, NodeOK, SourceBodyAccepted, SourceMirrors;
      var sources := K.Named(nodes, "source");
      mode, segments, policy, steps := "http", [], "none", [];
      if |sources| != 1 {
        Report("E_DOCUMENT_ROOT");
        return;
      }
      var n := sources[0];
      ValidateNode(n, 1, Some(1), map[]);
      if n.StringArgument(0) != Some("html") {
        Report("E_TYPE_MISMATCH");
      }
      ReportUnknownChildren(n, SOURCE_CHILDREN);
      mode, segments, policy, steps := CompileSourceBody(n, inputs);
      if diags == old(diags) {
        OwnerModeOfOnly(nodes);
      }
    }

    method CompileSourceBody(n: K.Node, inputs: map<string, Template.Input>)
      returns (mode: string, segments: seq<Template.Segment>, policy: string, steps: seq<Step>)
      modifies this`diags, this`capabilities, this`jsPresent
      ensures old(diags) <= diags
      ensures diags == old(diags) <==> SourceBodyAccepted(checks, n, inputs)
      ensures diags == old(diags) ==> SourceMirrors(n, mode, segments, policy, steps)
      ensures diags == old(diags) ==>
        && SourceCompiled(checks, inputs, mode, segments, policy, steps)
        && K.Named(n.children, "fetch") != [] && K.Named(n.children, "fetch")[0].GetString("mode").GetOr("") == mode
      ensures diags == old(diags) ==>
        capabilities == old(capabilities) + {ModeCapability(mode)} + StepUses(steps)
    {
      hide K.Named, StepOK, FetchAccepted, SessionAccepted, WorkflowAccepted, StepsMirror, StepUses, Template.Scan, Template.Clean, Template.Probe, Template.Normal, K.Find;
      var fetches, workflows := K.Named(n.children, "fetch"), K.Named(n.children, "workflow");
      mode, segments, steps := "http", [], [];
      if |fetches| != 1 {
        Report("E_DOCUMENT_ROOT");
      } else {
        mode, segments := CompileFetch(fetches[0], inputs);
        if diags == old(diags) {
          Template.ScanIsNormal(fetches[0].GetString("url").value, "", inputs);
        }
      }
      policy := CompileSession(K.Named(n.children, "session"));
      steps := CompileWorkflows(mode, workflows);
      capabilities := capabilities + {ModeCapability(mode)};
    }

    method CompileWorkflows(mode: string, workflows: seq<K.Node>) returns (steps: seq<Step>)
      modifies this`diags, this`capabilities, this`jsPresent
      ensures old(diags) <= diags && capabilities == old(capabilities) + StepUses(steps)
      ensures diags == old(diags) <==> |workflows| <= 1 && (workflows != [] ==> mode == "browser" && WorkflowAccepted(checks, workflows[0]))
      ensures diags == old(diags) ==> StepsMirror(if workflows == [] then [] else workflows[0].children, steps)
      ensures diags == old(diags) ==> (forall s | s in steps :: StepOK(checks.selector, s)) && (steps != [] ==> mode == "browser")
    {
      hide StepOK, StepUses, WorkflowAccepted;
      steps := [];
      NoSteps();
      if |workflows| > 1 {
        Report("E_DOCUMENT_ROOT");
      }
      if |workflows| > 0 {
        if mode != "browser" {
          Report("E_BROWSER_CAPABILITY_REQUIRED");
        }
        steps := CompileWorkflow(workflows[0]);
      }
    }

    /** compileExtractor. */
    method CompileProgram(root: K.Node, scope: Scope, decls: seq<Decl>) returns (p: Program)
      requires Ready() && ScopeOK(scope, g) && ValidTree(h, root)
      requires forall d | d in decls :: DeclOK(h, g, d)
      requires DeclaresAll(g, decls)
      modifies this
      ensures old(diags) <= diags && (diags == old(diags) <==> ProgramAccepted(h, checks, g, root, scope, decls))
      ensures panicked == (old(panicked) || ProgramPanics(root, decls))
      ensures diags == old(diags) ==> panicked == old(panicked)
      ensures diags == old(diags) ==> ProgramMade(h, checks, root, p)
      ensures diags == old(diags) ==>
        && |p.transforms| == |decls|
        && (forall i | 0 <= i < |decls| ::
              p.transforms[i].symbol == decls[i].symbol && TransformMirrors(h, decls[i], p.transforms[i].body))
        && ObjectMirrors(h, scope, MemberNodes(root.children), p.output)
      ensures diags == old(diags) && old(capabilities) == {} ==>
        p.capabilities == DerivedCapabilities(p.mode, p.steps, p.transforms, p.output)
    {
      hide SourceAccepted, InputsAccepted, TransformAccepted, ObjectAccepted, InputsOf, SourceMirrors, ScopeOK, SignaturesOK, Host.Lawful, DeclOK,
        ObjectEmitted, SelectorsOK, StepUses, ExternalCapabilities, TransformEmitted, TransformMirrors, SourceCompiled, ObjectMirrors, MemberNodes,
        OutputCapabilities, ProgramEmitted, Adds, DerivedCapabilities, OwnerMode, TransformPanics, ObjectPanics;
      var inputs := CompileInputs(root.children);
      var mode, segments, policy, steps := CompileSourceBlock(root.children, inputs);
      ghost var afterSource := capabilities;
      var transforms := CompileTransforms(decls);
      ghost var afterTransforms := capabilities;
      ChildrenAreValid(h, root, root.children);
      var output := CompileOutputObject(OwnerMode(root.children), root, root.children, "output", scope);
      p := Program(mode, segments, policy, steps, transforms, output, capabilities);
      if diags == old(diags) {
        MirroredTypes(h, decls, transforms);
        ProgramIsEmitted(h, g, decls, transforms, output);
        assert mode == "http" || mode == "browser" by { SourceMode(checks, inputs, mode, segments, policy, steps); }
        if old(capabilities) == {} {
          CapabilitiesAgree(mode, steps, transforms, output, afterSource, afterTransforms, capabilities);
        }
      }
    }
  }

  predicate DeclOK(h: Host, g: Signatures, d: Decl) {
    ScopeOK(d.scope, g) && ValidTree(h, d.node) && WellFormed(d.input) && WellFormed(d.output)
  }

  lemma {:induction false} AllNamed(nodes: seq<K.Node>, name: string)
    ensures K.Named(nodes, name) == nodes <==> forall k | 0 <= k < |nodes| :: nodes[k].name == name
  {
    if nodes != [] {
      AllNamed(nodes[1..], name);
      if K.Named(nodes, name) == nodes {
        assert nodes[0] in K.Named(nodes, name);
        assert K.Named(nodes, name)[1..] == K.Named(nodes[1..], name);
      }
      assert forall k | 0 < k < |nodes| :: nodes[k] == nodes[1..][k - 1];
    }
  }

  function ExternalCapabilities(all: seq<Declaration>): set<string> {
    set d | d in all && d.body.External? && d.body.symbol != "" :: "transform.external:" + d.body.symbol
  }

  lemma {:induction false} OneMoreExternal(h: Host, g: Signatures, all: seq<Declaration>, d: Declaration)
    requires TransformEmitted(h, g, d.body)
    ensures ExternalCapabilities(all + [d]) ==
      ExternalCapabilities(all) + if d.body.External? then {"transform.external:" + d.body.symbol} else {}
  {
    hide MatchOK, CallsEmitted, ChainTyped, WellFormed;
    var more := ExternalCapabilities(all + [d]);
    var want := ExternalCapabilities(all) + if d.body.External? then {"transform.external:" + d.body.symbol} else {};
    forall c | c in want ensures c in more {
      if c in ExternalCapabilities(all) {
        var e :| e in all && e.body.External? && e.body.symbol != "" && "transform.external:" + e.body.symbol == c;
        assert e in all + [d];
      } else {
        assert d in all + [d];
      }
    }
  }

  // ---------- match cases ----------

  /** The cases come from literals the compiler accepted, with no input twice. */
  predicate CasesFrom(h: Host, cases: seq<(Raw, Raw)>, literals: seq<(K.Value, K.Value)>, input: Type, output: Type) {
    && |literals| == |cases|
    && (forall i | 0 <= i < |cases| ::
         && ValidLiteral(h, literals[i].0) && ValidLiteral(h, literals[i].1)
         && cases[i] == (RawOf(h, literals[i].0), RawOf(h, literals[i].1))
         && LiteralAssignable(literals[i].0, input) && LiteralAssignable(literals[i].1, output))
    && (forall i, j | 0 <= i < j < |cases| :: cases[i].0 != cases[j].0)
  }

  /** The two literals of every `case` node, in order. */
  function CaseLiterals(nodes: seq<K.Node>): seq<(K.Value, K.Value)> {
    if nodes == [] then [] else
    var last := nodes[|nodes| - 1];
    CaseLiterals(nodes[..|nodes| - 1]) +
    if last.name == "case" && |last.arguments| >= 2 then [(last.arguments[0], last.arguments[1])] else []
  }

  lemma {:induction false} CasesSnoc(h: Host, nodes: seq<K.Node>, n: K.Node)
    ensures var more := n.name == "case" && |n.arguments| >= 2;
      && CaseLiterals(nodes + [n]) == CaseLiterals(nodes) + (if more then [(n.arguments[0], n.arguments[1])] else [])
      && CasesOf(h, nodes + [n]) == CasesOf(h, nodes) + (if more then [(RawOf(h, n.arguments[0]), RawOf(h, n.arguments[1]))] else [])
      && SeenInputs(h, nodes + [n]) == SeenInputs(h, nodes) + (if more then {RawOf(h, n.arguments[0])} else {})
    ensures DefaultOf(h, nodes + [n]) == if n.name == "default" && |n.arguments| > 0 then RawOf(h, n.arguments[0]) else DefaultOf(h, nodes)
  {
    hide RawOf;
    assert (nodes + [n])[..|nodes|] == nodes;
    if n.name == "case" && |n.arguments| >= 2 {
      var l := (n.arguments[0], n.arguments[1]);
      var more := CaseLiterals(nodes) + [l];
      assert CaseLiterals(nodes + [n]) == more;
      assert more[|CaseLiterals(nodes)|] == l;
      forall x | x in CaseLiterals(nodes) ensures x in more {}
    }
  }

  lemma {:induction false} NoItems(h: Host, input: Type, output: Type)
    ensures MatchItemsAccepted(h, [], input, output) && SeenInputs(h, []) == {} && CaseLiterals([]) == [] && CasesOf(h, []) == [] && K.Named([], "default") == []
  {}

  /** Accepted cases are distinct literals of the declared types, and so is the default. */
  lemma {:induction false} AcceptedCases(h: Host, nodes: seq<K.Node>, input: Type, output: Type)
    requires h.Lawful() && MatchItemsAccepted(h, nodes, input, output) && forall i | 0 <= i < |nodes| :: ValidTree(h, nodes[i])
    ensures CasesFrom(h, CasesOf(h, nodes), CaseLiterals(nodes), input, output)
    ensures K.Named(nodes, "default") != [] ==> LiteralOK(h, DefaultOf(h, nodes), output)
  {
    hide RawOf, LiteralOK, LiteralAssignable, ValidTree, CasesFrom, MatchItemsAccepted, K.Named, CaseLiterals, CasesOf, DefaultOf, SeenInputs, NodeOK, Host.Lawful;
    if nodes == [] {
      NoItems(h, input, output);
      NoCases(h, input, output);
    } else {
      var before, n := nodes[..|nodes| - 1], nodes[|nodes| - 1];
      assert nodes == before + [n];
      CasesSnoc(h, before, n);
      MatchItemsSnoc(h, before, n, input, output);
      NamedSnoc(before, n, "default");
      AcceptedCases(h, before, input, output);
      if n.name == "case" {
        CaseIsNew(h, before, n, input, output);
        var when, then_ := n.arguments[0], n.arguments[1];
        assert CasesOf(h, nodes) == CasesOf(h, before) + [(RawOf(h, when), RawOf(h, then_))];
        assert CaseLiterals(nodes) == CaseLiterals(before) + [(when, then_)];
      } else {
        DefaultIsOK(h, n, output);
        assert CasesOf(h, nodes) == CasesOf(h, before) && CaseLiterals(nodes) == CaseLiterals(before);
      }
    }
  }

  lemma {:induction false} CaseIsNew(h: Host, before: seq<K.Node>, n: K.Node, input: Type, output: Type)
    requires CasesFrom(h, CasesOf(h, before), CaseLiterals(before), input, output) && CaseAccepted(h, before, n, input, output) && ValidTree(h, n)
    ensures |n.arguments| == 2
    ensures var when, then_ := n.arguments[0], n.arguments[1];
      CasesFrom(h, CasesOf(h, before) + [(RawOf(h, when), RawOf(h, then_))], CaseLiterals(before) + [(when, then_)], input, output)
  {
    hide RawOf, LiteralAssignable, CasesFrom, CaseLiterals, CasesOf, SeenInputs, ValidLiteral;
    SeenAreInputs(h, CasesOf(h, before), CaseLiterals(before), input, output, before);
    OneMoreCase(h, CasesOf(h, before), CaseLiterals(before), input, output, n.arguments[0], n.arguments[1]);
  }

  lemma {:induction false} DefaultIsOK(h: Host, n: K.Node, output: Type)
    requires h.Lawful() && MatchDefaultAccepted(n, output) && ValidTree(h, n)
    ensures |n.arguments| == 1 && LiteralOK(h, RawOf(h, n.arguments[0]), output)
  {
    hide RawOf, LiteralAssignable, ValidLiteral, LiteralOK, Host.Lawful;
    LiteralNormalizes(h, n.arguments[0], output);
  }

  lemma {:induction false} NamedSnoc(nodes: seq<K.Node>, n: K.Node, name: string)
    ensures K.Named(nodes + [n], name) == K.Named(nodes, name) + if n.name == name then [n] else []
  {
    if nodes != [] {
      NamedSnoc(nodes[1..], n, name);
      assert (nodes + [n])[1..] == nodes[1..] + [n];
    }
  }

  /** The inputs seen are those of the cases taken over. */
  lemma {:induction false} SeenAreInputs(h: Host, cases: seq<(Raw, Raw)>, literals: seq<(K.Value, K.Value)>, input: Type, output: Type, nodes: seq<K.Node>)
    requires CasesFrom(h, cases, literals, input, output) && literals == CaseLiterals(nodes)
    ensures SeenInputs(h, nodes) == set c | c in cases :: c.0
  {
    hide RawOf, LiteralAssignable, ValidLiteral, CaseLiterals;
    forall c | c in cases ensures c.0 in SeenInputs(h, nodes) {
      var i :| 0 <= i < |cases| && cases[i] == c;
      assert literals[i] in literals;
    }
    forall l | l in literals ensures exists c :: c in cases && c.0 == RawOf(h, l.0) {
      var i :| 0 <= i < |literals| && literals[i] == l;
      assert cases[i] in cases;
    }
  }

  lemma {:induction false} DeclScopes(h: Host, g: Signatures, decls: seq<Decl>)
    requires forall d | d in decls :: DeclOK(h, g, d)
    ensures forall d | d in decls :: ScopeOK(d.scope, g)
  {}

  /** The cases as compiled. */
  function CasesOf(h: Host, nodes: seq<K.Node>): seq<(Raw, Raw)> {
    var literals := CaseLiterals(nodes);
    seq(|literals|, i requires 0 <= i < |literals| => (RawOf(h, literals[i].0), RawOf(h, literals[i].1)))
  }

  function DefaultOf(h: Host, nodes: seq<K.Node>): Raw {
    if nodes == [] then Malformed else
    var last := nodes[|nodes| - 1];
    if last.name == "default" && |last.arguments| > 0 then RawOf(h, last.arguments[0]) else DefaultOf(h, nodes[..|nodes| - 1])
  }

  /** The cases and the default are those of the nodes, in order. */
  predicate MatchMirrors(h: Host, body: K.Node, t: Transform)
    requires t.Match?
  {
    CasesFrom(h, t.cases, CaseLiterals(body.children), t.input, t.output) && t.default == DefaultOf(h, body.children)
  }

  /** The transform has the body of its declaration. */
  predicate TransformMirrors(h: Host, d: Decl, t: Transform) {
    t.input == d.input && t.output == d.output && |d.node.children| == 1 &&
    var body := d.node.children[0];
    match t
    case Pipeline(_, _, calls) =>
      body.name == "pipeline" && |calls| == |body.children| &&
      forall i | 0 <= i < |calls| :: body.children[i].name == "apply" && Mirrors(h, d.scope, body.children[i], calls[i])
    case Match(_, _, _, _) => body.name == "match" && MatchMirrors(h, body, t)
    case External(_, _, symbol) => body.name == "external" && body.GetString("symbol") == Some(symbol)
  }

  lemma {:induction false} NoCases(h: Host, input: Type, output: Type)
    ensures CasesFrom(h, [], [], input, output)
  {}

  lemma {:induction false} OneMoreCase(h: Host, cases: seq<(Raw, Raw)>, literals: seq<(K.Value, K.Value)>, input: Type, output: Type, when: K.Value, then_: K.Value)
    requires CasesFrom(h, cases, literals, input, output) && ValidLiteral(h, when) && ValidLiteral(h, then_)
    requires LiteralAssignable(when, input) && LiteralAssignable(then_, output)
    requires RawOf(h, when) !in set c | c in cases :: c.0
    ensures CasesFrom(h, cases + [(RawOf(h, when), RawOf(h, then_))], literals + [(when, then_)], input, output)
  {
    hide LiteralAssignable, ValidLiteral, RawOf;
    forall i | 0 <= i < |cases| ensures cases[i].0 != RawOf(h, when) {
      assert cases[i] in cases;
    }
  }

  lemma {:induction false} CasesAreOK(h: Host, cases: seq<(Raw, Raw)>, literals: seq<(K.Value, K.Value)>, input: Type, output: Type, default: Raw)
    requires h.Lawful() && IsScalar(input) && IsScalar(output) && LiteralOK(h, default, output)
    requires CasesFrom(h, cases, literals, input, output)
    ensures MatchOK(h, input, output, cases, default)
  {
    hide Host.Lawful, LiteralOK, LiteralAssignable, ValidLiteral, RawOf, IsScalar, SameInput;
    forall i | 0 <= i < |cases| ensures LiteralOK(h, cases[i].0, input) && LiteralOK(h, cases[i].1, output) {
      LiteralNormalizes(h, literals[i].0, input);
      LiteralNormalizes(h, literals[i].1, output);
    }
    forall i, j | 0 <= i < j < |cases| ensures !SameInput(h, cases[i].0, cases[j].0, input) {
      DistinctCases(h, literals[i].0, literals[j].0, input);
    }
  }

  // ---------- fields: what the pieces mean together ----------

  /** checkSelector. */
  predicate SelectorOK(c: Checks, selector: string) {
    TrimSpace(selector) != "" && c.selector(selector)
  }

  predicate SelectionOK(c: Checks, f: Field) {
    f.selection.Some? ==> SelectorOK(c, f.selection.value.selector)
  }

  /** A boolean property that is false when absent. */
  predicate FlagOf(n: K.Node, name: string) {
    n.Get(name).Some? && n.Get(name).value.KBool? && n.Get(name).value.b
  }

  function ReadCapabilities(source: ValueSource): set<string>
    requires !source.JavaScriptSource?
  {
    {"browser.query", "browser.read-" + match source
      case HTMLSource(_) => "html"
      case AttributeSource(_, _) => "attr"
      case _ => "text"}
  }

  // ---------- fields: the IR says what the tree says ----------

  predicate ReadMirrors(n: K.Node, s: ValueSource) {
    var kind := n.StringArgument(0).GetOr("");
    && (kind == "text" || kind == "html" || kind == "attr")
    && s == (if kind == "html" then HTMLSource(STRING)
             else if kind == "attr" then AttributeSource(n.GetString("name").GetOr(""), STRING)
             else TextSource(STRING))
  }

  predicate ScriptMirrors(n: K.Node, s: ValueSource) {
    && s.JavaScriptSource? && s.code == n.StringArgument(0).GetOr("") && n.GetString("scope") == Some(s.scope)
    && n.GetString("returns").Some? && Parse(n.GetString("returns").value) == Some(s.returned)
    && s.timeout == n.GetInt("timeout-ms")
  }

  /** There is one value source, and the IR has it. */
  predicate ValueMirrors(n: K.Node, s: ValueSource) {
    var values, evals := K.Named(n.children, "value"), K.Named(n.children, "evaluate-js");
    (|values| == 1 && evals == [] && ReadMirrors(values[0], s)) || (values == [] && |evals| == 1 && ScriptMirrors(evals[0], s))
  }

  predicate SelectionMirrors(n: K.Node, s: Selection) {
    && s.selector == n.StringArgument(0).GetOr("")
    && s.mode == (var m := n.GetString("match").GetOr(""); if m == "" then "one" else m)
  }

  /** The policy written, or else the one implied. */
  function PolicyOf(n: K.Node, required: bool): string {
    var nodes := K.Named(n.children, "on-error");
    if nodes == [] then (if required then "fail" else "null") else nodes[0].StringArgument(0).GetOr("")
  }

  /** Type, flags, default, selection, source, calls and policy are those of the node. */
  predicate FieldMirrors(h: Host, scope: Scope, n: K.Node, f: Field) {
    var selects, applies := K.Named(n.children, "select"), K.Named(n.children, "apply");
    && n.GetString("type").Some? && Parse(n.GetString("type").value) == Some(f.successful)
    && f.required == FlagOf(n, "required")
    && f.default == (if n.Get("default").Some? then Some(RawOf(h, n.Get("default").value)) else None)
    && f.selection.Some? == (selects != []) && (f.selection.Some? ==> SelectionMirrors(selects[0], f.selection.value))
    && ValueMirrors(n, f.source)
    && |f.calls| == |applies| && (forall i | 0 <= i < |applies| :: Mirrors(h, scope, applies[i], f.calls[i]))
    && f.onError == PolicyOf(n, f.required)
  }

  /** The capability every row brings along. */
  function Shared(path: string): set<string> {
    if HasBrackets(path) then {"browser.query"} else {}
  }

  /** What compiling something at a path may add to the recorded capabilities: exactly what it uses,
      up to what its row brings along. */
  predicate Adds(mode: string, path: string, before: set<string>, after: set<string>, use: set<string>) {
    before <= after && if mode == "browser" then after + Shared(path) == before + Shared(path) + use else after == before
  }

  function SourceUse(source: ValueSource, selection: Option<Selection>): set<string> {
    match source
    case JavaScriptSource(scope, _, _, _) =>
      {"browser.evaluate-js"} + if selection.Some? || scope == "current" then {"browser.query"} else {}
    case _ => ReadCapabilities(source)
  }

  predicate SourceFits(source: ValueSource, selection: Option<Selection>, path: string) {
    match source
    case JavaScriptSource(scope, _, returned, timeout) =>
      && WellFormed(returned) && (scope == "document" || scope == "current") && TimeoutOK(timeout)
      && (scope == "document" ==> selection.None?)
      && (scope == "current" ==> selection.Some? || HasBrackets(path))
    case _ =>
      source.rawType == STRING && (selection.Some? || HasBrackets(path)) && (source.AttributeSource? ==> source.name != "")
  }

  lemma {:induction false} ReadIsTyped(n: K.Node, source: ValueSource)
    requires ValueMirrors(n, source)
    ensures SourceType(source) == ReadType(n)
  {
    hide Parse;
  }

  lemma {:induction false} UnknownWellFormed()
    ensures WellFormed(UNKNOWN)
  {}

  lemma {:induction false} DefaultIsLiteral(h: Host, n: K.Node)
    requires ValidTree(h, n) && n.Get("default").Some?
    ensures ValidLiteral(h, n.Get("default").value)
  {
    hide ValidLiteral;
    var p := K.Property("default", n.Get("default").value);
    var i :| 0 <= i < |n.properties| && n.properties[i] == p;
  }

  /** A member lies in a row exactly when its object does. */
  lemma {:induction false} SamePlace(parent: string, name: string)
    requires Identifier(name)
    ensures HasBrackets(parent + "." + name) == HasBrackets(parent)
  {
    var path := parent + "." + name;
    forall k | |parent| <= k < |path| ensures path[k] != '[' && path[k] != ']' {
      if k > |parent| {
        assert path[k] == name[k - |parent| - 1];
      }
    }
    if i :| 0 <= i < |path| - 1 && path[i] == '[' && path[i + 1] == ']' {
      assert parent[i] == '[' && parent[i + 1] == ']';
    }
    if i :| 0 <= i < |parent| - 1 && parent[i] == '[' && parent[i + 1] == ']' {
      assert path[i] == '[' && path[i + 1] == ']';
    }
  }

  lemma {:induction false} FieldIsEmitted(h: Host, g: Signatures, f: Field, parent: string)
    requires Identifier(f.name) && f.id == parent + "." + f.name && SourceFits(f.source, f.selection, f.id)
    requires HasBrackets(f.id) == HasBrackets(parent)
    requires WellFormed(f.successful) && CallsEmitted(g, f.calls) && ChainTyped(g, f.calls, SourceType(f.source), f.successful)
    requires f.effective == (if !f.required && f.default.None? then LiftNullable(f.successful) else f.successful)
    requires !(f.required && f.default.Some?)
    requires f.default.Some? ==> LiteralOK(h, f.default.value, f.successful)
    requires f.onError in {"fail", "null", "warn", "default"}
    requires f.onError in {"null", "warn"} ==> f.effective.Nullable?
    requires f.onError == "default" ==> f.default.Some?
    requires f.selection.Some? ==> f.selection.value.mode == "one" || f.selection.value.mode == "first"
    ensures MemberEmitted(h, g, FieldMember(f), parent)
    ensures SourceUse(f.source, f.selection) == SourceCapabilities(f) && Shared(f.id) == Shared(parent)
  {
    hide HasBrackets, WellFormed, CallsEmitted, ChainTyped, Normalize, Identifier, TimeoutOK;
    assert "browser.read-" + "text" == "browser.read-text";
    assert "browser.read-" + "html" == "browser.read-html";
    assert "browser.read-" + "attr" == "browser.read-attr";
  }

  lemma {:induction false} ChildrenAreValid(h: Host, n: K.Node, some: seq<K.Node>)
    requires ValidTree(h, n) && forall c | c in some :: c in n.children
    ensures forall i | 0 <= i < |some| :: ValidTree(h, some[i])
  {
    forall i | 0 <= i < |some| ensures ValidTree(h, some[i]) {
      assert some[i] in n.children;
    }
  }

  // ---------- objects: what the pieces mean together ----------

  function MemberNodes(nodes: seq<K.Node>): (r: seq<K.Node>)
    ensures forall n | n in r :: n in nodes
  {
    if nodes == [] then [] else
    var last := nodes[|nodes| - 1];
    MemberNodes(nodes[..|nodes| - 1]) + if last.name == "field" || last.name == "collection" then [last] else []
  }

  lemma {:induction false} MemberNodesSnoc(nodes: seq<K.Node>, n: K.Node)
    ensures MemberNodes(nodes + [n]) == MemberNodes(nodes) + if n.name == "field" || n.name == "collection" then [n] else []
  {
    assert (nodes + [n])[..|nodes|] == nodes;
  }

  /** Row selector, bounds and policy are those of the node. */
  predicate CollectionMirrors(n: K.Node, c: Collection) {
    var selects := K.Named(n.children, "select");
    && |selects| == 1 && selects[0].StringArgument(0).GetOr("") == c.selector
    && c.required == FlagOf(n, "required") && c.maxItems == n.GetInt("max-items")
    && c.minItems == EffectiveBound(n, c.required)
    && c.onRowError == (var p := n.GetString("on-row-error").GetOr(""); if p == "" then "fail" else p)
  }

  predicate MemberMirrors(h: Host, scope: Scope, n: K.Node, m: Member)
    decreases m
  {
    n.StringArgument(0) == Some(m.Name()) &&
    match m
    case FieldMember(f) => n.name == "field" && FieldMirrors(h, scope, n, f)
    case CollectionMember(c) =>
      n.name == "collection" && CollectionMirrors(n, c) && ObjectMirrors(h, scope, MemberNodes(n.children), c.row)
  }

  /** One member per `field` or `collection` node, in order, each saying what its node says. */
  predicate ObjectMirrors(h: Host, scope: Scope, nodes: seq<K.Node>, o: OutputObject)
    decreases o
  {
    |o.members| == |nodes| && forall i | 0 <= i < |nodes| :: MemberMirrors(h, scope, nodes[i], o.members[i])
  }

  lemma {:induction false} MirrorsName(h: Host, scope: Scope, n: K.Node, m: Member)
    requires MemberMirrors(h, scope, n, m)
    ensures n.StringArgument(0) == Some(m.Name())
  {}

  lemma {:induction false} ObjectMirrorsSnoc(h: Host, scope: Scope, members: seq<Member>, m: Member, nodes: seq<K.Node>, n: K.Node)
    requires ObjectMirrors(h, scope, nodes, OutputObject(members)) && MemberMirrors(h, scope, n, m)
    ensures ObjectMirrors(h, scope, nodes + [n], OutputObject(members + [m]))
  {
    hide MemberMirrors;
  }

  lemma {:induction false} MirrorsHeader(n: K.Node, header: Collection, c: Collection)
    requires CollectionMirrors(n, header) && c == header.(row := c.row)
    ensures CollectionMirrors(n, c)
  {}

  lemma {:induction false} FilterTwice(nodes: seq<K.Node>)
    ensures MemberNodes(MemberNodes(nodes)) == MemberNodes(nodes)
  {
    if nodes != [] {
      var front, last := nodes[..|nodes| - 1], nodes[|nodes| - 1];
      FilterTwice(front);
      assert front + [last] == nodes;
      MemberNodesSnoc(front, last);
      if last.name == "field" || last.name == "collection" {
        MemberNodesSnoc(MemberNodes(front), last);
      } else {
        assert MemberNodes(front) + [] == MemberNodes(front);
      }
    }
  }

  function MemberUse(m: Member): set<string> {
    match m
    case FieldMember(f) => SourceCapabilities(f)
    case CollectionMember(c) => {"browser.query"} + OutputCapabilities(c.row)
  }

  lemma {:induction false} SamePrefixUses(a: OutputObject, b: OutputObject, n: nat)
    requires n <= |a.members| && n <= |b.members| && a.members[..n] == b.members[..n]
    ensures MemberCapabilities(a, n) == MemberCapabilities(b, n)
  {
    hide SourceCapabilities, OutputCapabilities;
    if n > 0 {
      assert a.members[n - 1] == a.members[..n][n - 1] == b.members[n - 1];
      assert a.members[..n - 1] == a.members[..n][..n - 1] == b.members[..n - 1];
      SamePrefixUses(a, b, n - 1);
    }
  }

  lemma {:induction false} OneMoreUse(members: seq<Member>, m: Member)
    ensures OutputCapabilities(OutputObject(members + [m])) == OutputCapabilities(OutputObject(members)) + MemberUse(m)
  {
    hide SourceCapabilities, OutputCapabilities;
    var a, b := OutputObject(members + [m]), OutputObject(members);
    assert a.members[..|members|] == b.members[..|members|];
    SamePrefixUses(a, b, |members|);
    UsesOfLast(a);
    assert a.members[|members|] == m;
    UsesOfMembers(b);
  }

  lemma {:induction false} UsesOfMembers(o: OutputObject)
    ensures OutputCapabilities(o) == MemberCapabilities(o, |o.members|)
  {}

  lemma {:induction false} UsesOfLast(o: OutputObject)
    requires o.members != []
    ensures var n := |o.members|; OutputCapabilities(o) == MemberCapabilities(o, n - 1) + MemberUse(o.members[n - 1])
  {
    hide SourceCapabilities;
  }

  predicate MemberSelectorsOK(selectorOK: string -> bool, m: Member) {
    match m
    case FieldMember(f) => f.selection.Some? ==> selectorOK(f.selection.value.selector)
    case CollectionMember(c) => selectorOK(c.selector) && SelectorsOK(selectorOK, c.row)
  }

  lemma {:induction false} MemberFacts(c: Checks, m: Member)
    requires match m
      case FieldMember(f) => SelectionOK(c, f)
      case CollectionMember(d) => SelectorOK(c, d.selector) && SelectorsOK(c.selector, d.row)
    ensures MemberSelectorsOK(c.selector, m)
  {
    hide TrimSpace, SelectorsOK;
  }

  /** What holds of the members compiled so far. */
  predicate Gathered(h: Host, c: Checks, g: Signatures, members: seq<Member>, path: string) {
    && NamesDistinct(OutputObject(members))
    && forall k | 0 <= k < |members| :: MemberEmitted(h, g, members[k], path) && MemberSelectorsOK(c.selector, members[k])
  }

  lemma {:induction false} NothingYet(h: Host, c: Checks, g: Signatures, path: string)
    ensures Gathered(h, c, g, [], path) && MemberNames(OutputObject([])) == {} && OutputCapabilities(OutputObject([])) == {}
    ensures forall scope :: ObjectMirrors(h, scope, MemberNodes([]), OutputObject([]))
  {}

  lemma {:induction false} OneMoreMember(h: Host, c: Checks, g: Signatures, members: seq<Member>, m: Member, path: string)
    requires Gathered(h, c, g, members, path) && m.Name() !in MemberNames(OutputObject(members))
    requires MemberEmitted(h, g, m, path) && MemberSelectorsOK(c.selector, m)
    ensures Gathered(h, c, g, members + [m], path)
    ensures MemberNames(OutputObject(members + [m])) == MemberNames(OutputObject(members)) + {m.Name()}
  {
    hide MemberEmitted, MemberSelectorsOK;
    var more := members + [m];
    assert forall k | 0 <= k < |members| :: more[k] == members[k];
    assert more[|members|] == m;
    forall i, j | 0 <= i < j < |more| ensures more[i].Name() != more[j].Name() {
      if j == |members| {
        assert members[i].Name() in MemberNames(OutputObject(members));
      }
    }
    forall name | name in MemberNames(OutputObject(members)) ensures name in MemberNames(OutputObject(more)) {
      var k :| 0 <= k < |members| && members[k].Name() == name;
      assert more[k].Name() == name;
    }
    assert more[|members|].Name() in MemberNames(OutputObject(more));
  }

  lemma {:induction false} ObjectFacts(h: Host, c: Checks, g: Signatures, o: OutputObject, path: string)
    requires Gathered(h, c, g, o.members, path)
    ensures ObjectEmitted(h, g, o, path) && SelectorsOK(c.selector, o)
  {
    hide MemberEmitted;
    forall i | 0 <= i < |o.members| ensures
      match o.members[i]
      case FieldMember(f) => f.selection.Some? ==> c.selector(f.selection.value.selector)
      case CollectionMember(d) => c.selector(d.selector) && SelectorsOK(c.selector, d.row)
    {
      assert MemberSelectorsOK(c.selector, o.members[i]);
    }
  }

  lemma {:induction false} CollectionIsEmitted(h: Host, g: Signatures, scope: Scope, c: Collection, parent: string, n: K.Node)
    requires Identifier(c.name) && c.id == parent + "." + c.name
    requires c.minItems >= (if c.required then 1 else 0) && (c.maxItems.Some? ==> c.maxItems.value >= c.minItems)
    requires c.onRowError in {"fail", "skip"} && ObjectEmitted(h, g, c.row, c.id + "[]")
    requires ObjectMirrors(h, scope, MemberNodes(n.children), c.row) && MemberNodes(n.children) != []
    ensures MemberEmitted(h, g, CollectionMember(c), parent)
  {
    hide Identifier, ObjectEmitted, MemberNodes, MemberMirrors;
  }

  /** Rows add what their members use, and `browser.query`. */
  lemma {:induction false} RowUses(mode: string, c: Collection, parent: string, path: string, first: set<string>, before: set<string>, after: set<string>)
    requires before == first + if mode == "browser" then {"browser.query"} else {}
    requires Adds(mode, path + "[]", before, after, OutputCapabilities(c.row))
    requires path == parent + "." + c.name && Identifier(c.name)
    ensures Adds(mode, parent, first, after, MemberUse(CollectionMember(c)))
  {
    hide HasBrackets, OutputCapabilities, Identifier;
    RowShares(path);
    SamePlace(parent, c.name);
  }

  lemma {:induction false} MembersAreChildren(h: Host, n: K.Node)
    requires ValidTree(h, n)
    ensures forall i | 0 <= i < |MemberNodes(n.children)| :: ValidTree(h, MemberNodes(n.children)[i]) && MemberNodes(n.children)[i] < n
  {
    var members := MemberNodes(n.children);
    forall i | 0 <= i < |members| ensures ValidTree(h, members[i]) && members[i] < n {
      assert members[i] in n.children;
    }
  }

  lemma {:induction false} RowShares(path: string)
    ensures HasBrackets(path + "[]") && Shared(path + "[]") == {"browser.query"}
  {
    var row := path + "[]";
    assert row[|path|] == '[' && row[|path| + 1] == ']';
  }

  // ---------- the whole program ----------

  /** The extractor, without names, versions, spans and inputs. */
  datatype Program = Program(
    mode: string,
    segments: seq<Template.Segment>,
    policy: string,
    steps: seq<Step>,
    transforms: seq<Declaration>,
    output: OutputObject,
    capabilities: set<string>)

  /** What compileSource establishes: all that the source and workflow preflights ask, and a template
      whose every placeholder is an input that will be there. */
  predicate SourceCompiled(c: Checks, inputs: map<string, Template.Input>, mode: string, segments: seq<Template.Segment>, policy: string, steps: seq<Step>) {
    && (mode == "http" || mode == "browser")
    && (policy == "none" || policy == "optional" || policy == "required")
    && (forall s | s in steps :: StepOK(c.selector, s)) && (steps != [] ==> mode == "browser")
    && Template.Normal(segments, inputs) && c.httpURL(Template.Probe(segments))
  }

  lemma {:induction false} SourceMode(c: Checks, inputs: map<string, Template.Input>, mode: string, segments: seq<Template.Segment>, policy: string, steps: seq<Step>)
    requires SourceCompiled(c, inputs, mode, segments, policy, steps)
    ensures mode == "http" || mode == "browser"
  {}

  // ---------- what the compiler asks of inputs ----------

  const INPUT_PROPERTIES := map["type" := ExpectString, "required" := ExpectBool, "default" := ExpectScalar]

  const INPUT_TYPES := {"string", "bool", "int", "float"}

  /** An input is required unless it says otherwise. */
  predicate InputRequired(n: K.Node) {
    var v := n.Get("required");
    v.Some? && v.value.KBool? ==> v.value.b
  }

  /** inputDefaultCompatible. */
  predicate InputDefaultFits(v: K.Value, typeName: string) {
    match typeName
    case "string" => v.KString?
    case "bool" => v.KBool?
    case "int" => v.KInt?
    case "float" => v.KInt? || v.KFloat?
    case _ => false
  }

  /** The input a node declares after those before it; none when it is only reported on. */
  function InputOf(before: map<string, Template.Input>, n: K.Node): Option<(string, Template.Input)> {
    var name :- n.StringArgument(0);
    if name in before || n.GetString("type").GetOr("") !in INPUT_TYPES then None
    else Some((name, Template.Input(InputRequired(n), n.Get("default").Some?)))
  }

  function InputsOf(nodes: seq<K.Node>): map<string, Template.Input> {
    if nodes == [] then map[] else
    var before, last := InputsOf(nodes[..|nodes| - 1]), nodes[|nodes| - 1];
    var more := if last.name == "input" then InputOf(before, last) else None;
    if more.Some? then before[more.value.0 := more.value.1] else before
  }

  predicate InputAccepted(before: map<string, Template.Input>, n: K.Node) {
    && NodeOK(n, 1, Some(1), INPUT_PROPERTIES) && InputOf(before, n).Some? && Identifier(n.StringArgument(0).value)
    && (n.Get("default").Some? ==> !InputRequired(n) && InputDefaultFits(n.Get("default").value, n.GetString("type").GetOr("")))
  }

  predicate InputsAccepted(nodes: seq<K.Node>) {
    forall i | 0 <= i < |nodes| && nodes[i].name == "input" :: InputAccepted(InputsOf(nodes[..i]), nodes[i])
  }

  /** The compiler comes to an `apply` without arguments. */
  predicate ProgramPanics(root: K.Node, decls: seq<Decl>) {
    (exists d :: d in decls && TransformPanics(d)) || ObjectPanics(root.children)
  }

  /** What the compiler asks of a program whose documents have been loaded. */
  ghost predicate ProgramAccepted(h: Host, c: Checks, g: Signatures, root: K.Node, scope: Scope, decls: seq<Decl>)
    requires ScopeOK(scope, g)
  {
    && InputsAccepted(root.children) && SourceAccepted(c, root.children, InputsOf(root.children))
    && (forall d | d in decls :: TransformAccepted(h, c, g, d))
    && ObjectAccepted(c, g, scope, OwnerMode(root.children), root, root.children, "output")
  }

  /** What an accepted program is: it passes every preflight, and its source is that of the document. */
  ghost predicate ProgramMade(h: Host, c: Checks, root: K.Node, p: Program) {
    && ProgramEmitted(h, p.transforms, p.output) && SelectorsOK(c.selector, p.output)
    && SourceCompiled(c, InputsOf(root.children), p.mode, p.segments, p.policy, p.steps)
    && K.Named(root.children, "source") != []
    && SourceMirrors(K.Named(root.children, "source")[0], p.mode, p.segments, p.policy, p.steps)
  }

  predicate IsNumber(n: K.Node, i: nat) {
    i < |n.arguments| && (n.arguments[i].KInt? || n.arguments[i].KFloat?)
  }

  function NumberArgument(n: K.Node, i: nat): real {
    if !IsNumber(n, i) then 0.0
    else if n.arguments[i].KInt? then n.arguments[i].n as real else n.arguments[i].r
  }

  predicate WaitAccepted(c: Checks, n: K.Node) {
    && NodeOK(n, 1, Some(1), map["state" := ExpectString, "timeout-ms" := ExpectNonNegativeInt])
    && n.GetString("state").GetOr("") in {"", "attached", "visible", "hidden", "detached"}
    && SelectorOK(c, n.StringArgument(0).GetOr("")) && TimeoutOK(n.GetInt("timeout-ms"))
  }

  predicate InputStepAccepted(c: Checks, n: K.Node) {
    var arguments := if n.name == "click" then 1 else 2;
    && NodeOK(n, arguments, Some(arguments), map["timeout-ms" := ExpectNonNegativeInt])
    && SelectorOK(c, n.StringArgument(0).GetOr("")) && TimeoutOK(n.GetInt("timeout-ms"))
  }

  predicate ScrollAccepted(n: K.Node) {
    NodeOK(n, 2, Some(2), map[]) && IsNumber(n, 0) && IsNumber(n, 1)
  }

  predicate IdleAccepted(n: K.Node) {
    && NodeOK(n, 0, Some(0), map["idle-ms" := ExpectNonNegativeInt, "timeout-ms" := ExpectNonNegativeInt])
    && TimeoutOK(n.GetInt("idle-ms")) && TimeoutOK(n.GetInt("timeout-ms"))
  }

  /** What the compiler asks of a workflow step. */
  predicate StepAccepted(c: Checks, n: K.Node) {
    if n.name == "wait-for" then WaitAccepted(c, n)
    else if n.name == "click" || n.name == "fill" || n.name == "press" then InputStepAccepted(c, n)
    else if n.name == "scroll" then ScrollAccepted(n)
    else if n.name == "wait-for-network-idle" then IdleAccepted(n)
    else n.name == "evaluate-js" && NodeOK(n, 1, Some(1), map["timeout-ms" := ExpectNonNegativeInt]) && TimeoutOK(n.GetInt("timeout-ms"))
  }

  /** The step an accepted node stands for. */
  function StepOf(n: K.Node): Option<Step> {
    var selector, text, timeout := n.StringArgument(0).GetOr(""), n.StringArgument(1).GetOr(""), n.GetInt("timeout-ms");
    var state := n.GetString("state").GetOr("");
    if n.name == "wait-for" then Some(WaitFor(selector, if state == "" then "visible" else state, timeout))
    else if n.name == "click" then Some(Click(selector, timeout))
    else if n.name == "fill" then Some(Fill(selector, text, timeout))
    else if n.name == "press" then Some(Press(selector, text, timeout))
    else if n.name == "scroll" then Some(Scroll(NumberArgument(n, 0), NumberArgument(n, 1)))
    else if n.name == "wait-for-network-idle" then Some(NetworkIdle(n.GetInt("idle-ms").GetOr(500), timeout))
    else if n.name == "evaluate-js" then Some(EvaluateJavaScript(selector, timeout))
    else None
  }

  predicate StepsMirror(nodes: seq<K.Node>, steps: seq<Step>) {
    |steps| == |nodes| && forall i | 0 <= i < |nodes| :: StepOf(nodes[i]) == Some(steps[i])
  }

  predicate WorkflowAccepted(c: Checks, n: K.Node) {
    NodeOK(n, 0, Some(0), map[]) && forall i | 0 <= i < |n.children| :: StepAccepted(c, n.children[i])
  }

  /** What the compiler asks of a fetch: a mode, and a clean template that expands to an HTTP URL. */
  predicate FetchAccepted(c: Checks, n: K.Node, inputs: map<string, Template.Input>) {
    && NodeOK(n, 0, Some(0), map["mode" := ExpectString, "url" := ExpectString])
    && n.GetString("mode").GetOr("") in {"http", "browser"} && n.GetString("url").GetOr("") != ""
    && var url := n.GetString("url").value;
       Template.Clean(url, inputs) && c.httpURL(Template.Probe(Template.Scan(url, "")))
  }

  predicate SessionAccepted(sessions: seq<K.Node>) {
    sessions != [] ==>
      && |sessions| == 1 && NodeOK(sessions[0], 0, Some(0), map["policy" := ExpectString])
      && sessions[0].GetString("policy").GetOr("") in {"none", "optional", "required"}
  }

  function SessionOf(sessions: seq<K.Node>): string {
    if sessions == [] then "none" else sessions[0].GetString("policy").GetOr("")
  }

  const SOURCE_CHILDREN := {"fetch", "session", "workflow"}

  predicate SourceBodyAccepted(c: Checks, n: K.Node, inputs: map<string, Template.Input>) {
    var fetches, workflows := K.Named(n.children, "fetch"), K.Named(n.children, "workflow");
    && |fetches| == 1 && FetchAccepted(c, fetches[0], inputs) && SessionAccepted(K.Named(n.children, "session"))
    && |workflows| <= 1
    && (workflows != [] ==> fetches[0].GetString("mode") == Some("browser") && WorkflowAccepted(c, workflows[0]))
  }

  /** What the compiler asks of the source of a document. */
  predicate SourceAccepted(c: Checks, nodes: seq<K.Node>, inputs: map<string, Template.Input>) {
    var sources := K.Named(nodes, "source");
    |sources| == 1 &&
    var n := sources[0];
    && NodeOK(n, 1, Some(1), map[]) && n.StringArgument(0) == Some("html")
    && (forall child | child in n.children :: child.name in SOURCE_CHILDREN) && SourceBodyAccepted(c, n, inputs)
  }

  /** Mode, template, session policy and steps are those of the node. */
  predicate SourceMirrors(n: K.Node, mode: string, segments: seq<Template.Segment>, policy: string, steps: seq<Step>) {
    var fetches, workflows := K.Named(n.children, "fetch"), K.Named(n.children, "workflow");
    && |fetches| == 1 && fetches[0].GetString("mode") == Some(mode) && fetches[0].GetString("url").Some?
    && segments == Template.Scan(fetches[0].GetString("url").value, "")
    && policy == SessionOf(K.Named(n.children, "session"))
    && StepsMirror(if workflows == [] then [] else workflows[0].children, steps)
  }

  function StepUses(steps: seq<Step>): set<string> {
    set s | s in steps :: StepCapability(s)
  }

  function ModeCapability(mode: string): string {
    if mode == "http" then "http.fetch" else "browser.navigate"
  }

  lemma {:induction false} NoSteps()
    ensures StepUses([]) == {}
  {}

  lemma {:induction false} ScriptStepOK(c: Checks, s: Step)
    requires s.EvaluateJavaScript? && TimeoutOK(s.timeout)
    ensures StepOK(c.selector, s)
  {}

  /** ownerSourceMode: the `mode` of the first `fetch` of the first `source` that has one. */
  function OwnerMode(nodes: seq<K.Node>): string {
    if nodes == [] then ""
    else if nodes[0].name == "source" && K.Named(nodes[0].children, "fetch") != [] then
      K.Named(nodes[0].children, "fetch")[0].GetString("mode").GetOr("")
    else OwnerMode(nodes[1..])
  }

  lemma {:induction false} OwnerModeOfOnly(nodes: seq<K.Node>)
    requires |K.Named(nodes, "source")| == 1 && K.Named(K.Named(nodes, "source")[0].children, "fetch") != []
    ensures OwnerMode(nodes) == K.Named(K.Named(nodes, "source")[0].children, "fetch")[0].GetString("mode").GetOr("")
  {
    if nodes[0].name != "source" {
      OwnerModeOfOnly(nodes[1..]);
    }
  }

  /** The signatures the compiler works with are those of the declarations it compiles. */
  predicate DeclaresAll(g: Signatures, decls: seq<Decl>) {
    && (forall i, j | 0 <= i < j < |decls| :: decls[i].symbol != decls[j].symbol)
    && g.Keys == (set d | d in decls :: d.symbol)
    && forall d | d in decls :: d.symbol in g && g[d.symbol] == (d.input, d.output)
  }

  lemma {:induction false} SignaturesAgree(h: Host, g: Signatures, decls: seq<Decl>, all: seq<Declaration>)
    requires DeclaresAll(g, decls) && |all| == |decls|
    requires forall i | 0 <= i < |decls| ::
      all[i].symbol == decls[i].symbol && all[i].body.input == decls[i].input && all[i].body.output == decls[i].output
    ensures !HasDuplicate(all) && SignaturesOf(Runtime(DeclaredOf(all), {})) == g
  {
    var declared := DeclaredOf(all);
    forall i | 0 <= i < |decls| ensures decls[i].symbol in declared && declared[decls[i].symbol] == all[i].body {
      DeclaredAt(all, i);
    }
    forall s | s in declared ensures s in g {
      DeclaredAreListed(all);
      var i :| 0 <= i < |all| && all[i] == Declaration(s, declared[s]);
      assert decls[i] in decls;
    }
    forall s | s in g ensures s in declared && g[s] == (declared[s].input, declared[s].output) {
      var d :| d in decls && d.symbol == s;
      var i :| 0 <= i < |decls| && decls[i] == d;
    }
  }

  /** Without duplicates, every declaration is the one found under its symbol. */
  lemma {:induction false} DeclaredAt(all: seq<Declaration>, i: nat)
    requires i < |all| && forall j, k | 0 <= j < k < |all| :: all[j].symbol != all[k].symbol
    ensures all[i].symbol in DeclaredOf(all) && DeclaredOf(all)[all[i].symbol] == all[i].body
  {
    if i < |all| - 1 {
      DeclaredAt(all[..|all| - 1], i);
    }
  }

  lemma {:induction false} MirroredTypes(h: Host, decls: seq<Decl>, all: seq<Declaration>)
    requires |all| == |decls| && forall i | 0 <= i < |decls| :: TransformMirrors(h, decls[i], all[i].body)
    ensures forall i | 0 <= i < |decls| :: all[i].body.input == decls[i].input && all[i].body.output == decls[i].output
  {}

  lemma {:induction false} ProgramIsEmitted(h: Host, g: Signatures, decls: seq<Decl>, all: seq<Declaration>, output: OutputObject)
    requires DeclaresAll(g, decls) && |all| == |decls|
    requires forall i | 0 <= i < |decls| ::
      && all[i].symbol == decls[i].symbol && TransformEmitted(h, g, all[i].body)
      && all[i].body.input == decls[i].input && all[i].body.output == decls[i].output
    requires ObjectEmitted(h, g, output, "output")
    ensures ProgramEmitted(h, all, output)
  {
    hide ObjectEmitted, TransformEmitted;
    SignaturesAgree(h, g, decls, all);
    forall d | d in all ensures TransformEmitted(h, g, d.body) {
      var i :| 0 <= i < |all| && all[i] == d;
    }
  }

  /** The set recorded on the way is the set derived from the result. */
  lemma {:induction false} CapabilitiesAgree(mode: string, steps: seq<Step>, all: seq<Declaration>, output: OutputObject,
      afterSource: set<string>, afterTransforms: set<string>, after: set<string>)
    requires mode == "http" || mode == "browser"
    requires afterSource == {ModeCapability(mode)} + StepUses(steps)
    requires afterTransforms == afterSource + ExternalCapabilities(all)
    requires Adds(mode, "output", afterTransforms, after, OutputCapabilities(output))
    ensures after == DerivedCapabilities(mode, steps, all, output)
  {
    hide OutputCapabilities, StepCapability, HasBrackets;
    assert !HasBrackets("output") by { OutputIsNoRow(); }
  }

  lemma {:induction false} OutputIsNoRow()
    ensures !HasBrackets("output")
  {}
}
