/** What the compiler makes of what authoring/writer.go writes. */
module Authored {
  import opened Options
  import opened Text
  import opened Types
  import opened Values
  import opened IR
  import opened Builtins
  import opened Contract
  import opened Naming
  import opened Transforms
  import opened Emission
  import opened Compiler
  import opened Documents
  import opened Frontend
  import W = Walker
  import C = Conformance
  import A = Authoring
  import P = Preflight
  import L = Linking
  import I = Imports
  import R = Reachable
  import Parsing
  import Printing
  import Template
  import K = KDLTree

  // ---------- calls ----------

  /** A named argument of a written call, and one that is a text. */
  function Given(call: A.BuiltinCall, name: string): Option<K.Value> {
    if name in call.named then call.named[name] else None
  }

  function GivenText(call: A.BuiltinCall, name: string): Option<string> {
    match Given(call, name)
    case Some(KString(s)) => Some(s)
    case _ => None
  }

  lemma {:induction false} WrittenArgument(call: A.BuiltinCall, name: string)
    requires A.CallOK(call)
    ensures A.CallNode(call).Get(name) == Given(call, name)
    ensures A.CallNode(call).GetString(name) == GivenText(call, name)
  {
    hide Lookup, Allowed, Required, A.ArgumentNames, Meets, A.NamedProperties, A.InCatalogRange, MinPositional, MaxPositional, K.Find;
    var b, n := Lookup(call.name).value, A.CallNode(call);
    var names := A.ArgumentNames(b);
    var found := n.Get(name);
    if found.Some? {
      var i :| 0 <= i < |n.properties| && n.properties[i] == K.Property(name, found.value);
      NamedAreGiven(names, call.named, i);
    }
    if name in call.named {
      assert A.NamedOK(b, name, call.named[name]);
      A.CatalogIsComplete(b, name);
      GivenAreNamed(names, call.named, name);
    }
  }

  predicate PatternFits(c: Checks, b: Builtin, call: A.BuiltinCall) {
    match GivenText(call, "pattern")
    case None => true
    case Some(pattern) =>
      var flags := GivenText(call, "flags").GetOr("");
      var groups := c.regexGroups((if flags == "" then "" else "(?" + flags + ")") + pattern);
      && !Contains(pattern, "(?P<") && !Contains(pattern, "(?<") && groups.Some?
      && match Given(call, "group")
         case Some(KInt(group)) => b.RegexCapture? ==> group <= groups.value
         case _ => true
  }

  /** What the compiler asks of the arguments of a call beyond what the writer checks. */
  predicate ArgumentsFit(c: Checks, b: Builtin, input: Type, call: A.BuiltinCall) {
    && (GivenText(call, "flags").Some? ==> FlagsOK(GivenText(call, "flags").value))
    && PatternFits(c, b, call)
    && (b.ParseBool? ==> GivenText(call, "true").GetOr("true") != GivenText(call, "false").GetOr("false"))
    && (b.Coalesce? && Given(call, "value").Some? && input.Nullable? ==> LiteralAssignable(Given(call, "value").value, input.inner))
    && (b.AssertEnum? ==> forall v | v in call.positional :: v.Some? ==> LiteralAssignable(v.value, input))
    && (b.URLResolve? && GivenText(call, "base").Some? ==> c.absoluteURL(GivenText(call, "base").value))
  }

  /** The type a call makes of its input, when its arguments fit. */
  function CallType(c: Checks, input: Type, call: A.BuiltinCall): Option<Type> {
    var b :- Lookup(call.name);
    if ArgumentsFit(c, b, input, call) then TypeOf(b, input, GivenText(call, "as")) else None
  }

  function CallsType(c: Checks, from: Type, calls: seq<A.BuiltinCall>): Option<Type>
    decreases |calls|
  {
    hide CallType;
    if calls == [] then Some(from) else
    var next :- CallType(c, from, calls[0]);
    CallsType(c, next, calls[1..])
  }

  lemma {:induction false} WrittenPattern(c: Checks, b: Builtin, call: A.BuiltinCall)
    requires A.CallOK(call)
    ensures PatternOK(c, b, A.CallNode(call)) <==> PatternFits(c, b, call)
  {
    hide A.CallOK, A.CallNode, K.Find, GivenText, Contains;
    WrittenArgument(call, "pattern");
    WrittenArgument(call, "flags");
    WrittenArgument(call, "group");
  }

  /** The catalog keeps radixes within the compiler's range. */
  lemma {:induction false} WrittenRadix(call: A.BuiltinCall)
    requires A.CallOK(call) && Lookup(call.name) == Some(ParseInt)
    ensures A.CallNode(call).GetInt("radix").Some? ==> 2 <= A.CallNode(call).GetInt("radix").value <= 36
  {
    hide Lookup, Allowed, A.CallNode, K.Find, Meets;
    WrittenArgument(call, "radix");
    if "radix" in call.named {
      assert A.NamedOK(ParseInt, "radix", call.named["radix"]);
    }
  }

  lemma {:induction false} WrittenArguments(c: Checks, b: Builtin, input: Type, call: A.BuiltinCall)
    requires A.CallOK(call) && Lookup(call.name) == Some(b)
    ensures ArgumentsOK(c, b, input, A.CallNode(call)) <==> ArgumentsFit(c, b, input, call)
  {
    hide Lookup, Allowed, Required, K.Find, PatternOK, PatternFits, FlagsOK, LiteralAssignable, A.NamedProperties, GivenText, MinPositional, MaxPositional, A.ArgumentNames;
    WrittenPattern(c, b, call);
    if b.ParseInt? {
      WrittenRadix(call);
    }
    WrittenArgument(call, "flags");
    WrittenArgument(call, "true");
    WrittenArgument(call, "false");
    WrittenArgument(call, "value");
    WrittenArgument(call, "base");
    var n := A.CallNode(call);
    assert |n.arguments| == 1 + |call.positional|;
    forall i | 0 <= i < |call.positional| ensures call.positional[i].Some? && n.arguments[1 + i] == call.positional[i].value {}
    forall i | 1 <= i < |n.arguments| ensures Some(n.arguments[i]) in call.positional {
      assert call.positional[i - 1] == Some(n.arguments[i]);
    }
  }

  /** The compiler makes of a written call the type its arguments say. */
  lemma {:induction false} WrittenCall(c: Checks, g: Signatures, scope: Scope, input: Type, call: A.BuiltinCall)
    requires A.CallOK(call) && ScopeOK(scope, g)
    ensures CallOutput(c, g, scope, input, A.CallNode(call)) == CallType(c, input, call)
  {
    hide Lookup, Allowed, Required, K.Find, ArgumentsOK, ArgumentsFit, TypeOf, GivenText, ScopeOK, A.NamedProperties, A.ArgumentNames, A.NamedOK, NodeOK, HasRequired;
    var b := Lookup(call.name).value;
    WrittenCallsFit(call);
    WrittenArguments(c, b, input, call);
    WrittenArgument(call, "as");
    assert A.CallNode(call).arguments[0] == K.KString(call.name);
  }

  lemma {:induction false} WrittenChain(c: Checks, g: Signatures, scope: Scope, from: Type, calls: seq<A.BuiltinCall>)
    requires (forall i | 0 <= i < |calls| :: A.CallOK(calls[i])) && ScopeOK(scope, g)
    ensures AppliesOutput(c, g, scope, from, A.CallNodes(calls)) == CallsType(c, from, calls)
    decreases |calls|
  {
    hide A.CallOK, A.CallNode, CallOutput, CallType, ScopeOK;
    if calls != [] {
      WrittenCall(c, g, scope, from, calls[0]);
      var next := CallType(c, from, calls[0]);
      if next.Some? {
        WrittenChain(c, g, scope, next.value, calls[1..]);
      }
      assert A.CallNodes(calls)[1..] == A.CallNodes(calls[1..]);
    }
  }

  // ---------- fields ----------

  lemma {:induction false} NamedJoin(a: seq<K.Node>, b: seq<K.Node>, name: string)
    ensures K.Named(a + b, name) == K.Named(a, name) + K.Named(b, name)
  {
    if a == [] {
      assert a + b == b;
    } else {
      assert (a + b)[1..] == a[1..] + b;
      NamedJoin(a[1..], b, name);
    }
  }

  lemma {:induction false} NamedAll(nodes: seq<K.Node>, name: string)
    ensures (forall n | n in nodes :: n.name == name) ==> K.Named(nodes, name) == nodes
    ensures (forall n | n in nodes :: n.name != name) ==> K.Named(nodes, name) == []
  {
    if nodes != [] {
      NamedAll(nodes[1..], name);
      assert nodes == [nodes[0]] + nodes[1..];
    }
  }

  function PolicyNodes(f: A.Member): seq<K.Node>
    requires f.Field?
  {
    if f.onError == "fail" then [] else [A.Leaf("on-error", [K.KString(f.onError)], [])]
  }

  lemma {:induction false} ChildrenNamed(f: A.Member, name: string)
    requires f.Field? && A.FieldOK(f)
    ensures K.Named(A.FieldChildren(f), name) ==
      K.Named(A.FieldChildren(f)[..2], name) + (if name == "apply" then A.CallNodes(f.calls) else []) +
      (if name == "on-error" then PolicyNodes(f) else [])
  {
    hide A.CallOK, A.CallNode, A.CallNodes, A.SourceNode, K.Named;
    var head, calls, tail := A.FieldChildren(f)[..2], A.CallNodes(f.calls), PolicyNodes(f);
    assert A.FieldChildren(f) == head + calls + tail;
    CallsAreApplies(f.calls);
    NamedJoin(head + calls, tail, name);
    NamedJoin(head, calls, name);
    NamedAll(calls, name);
    NamedAll(tail, name);
  }

  lemma {:induction false} HeadNamed(f: A.Member, name: string)
    requires f.Field? && A.FieldOK(f)
    ensures var children := A.FieldChildren(f);
      K.Named(children[..2], name) == if name == "select" then [children[0]] else if name == "value" then [children[1]] else []
  {
    hide A.CallOK, A.CallNode, A.CallNodes;
    var children := A.FieldChildren(f);
    assert children[0].name == "select" && children[1].name == "value";
    assert children[..2] == [children[0]] + [children[1]];
    NamedJoin([children[0]], [children[1]], name);
    NamedAll([children[0]], name);
    NamedAll([children[1]], name);
  }

  /** What stands below a written field. */
  lemma {:induction false} ChildNamed(f: A.Member, name: string)
    requires f.Field? && A.FieldOK(f)
    ensures var children := A.FieldChildren(f);
      K.Named(children, name) ==
        if name == "select" then [children[0]] else if name == "value" then [children[1]]
        else if name == "apply" then A.CallNodes(f.calls) else if name == "on-error" then PolicyNodes(f) else []
  {
    hide A.CallOK, A.CallNode, A.CallNodes, A.SourceNode, K.Named, PolicyNodes;
    ChildrenNamed(f, name);
    HeadNamed(f, name);
    OnlyOne(K.Named(A.FieldChildren(f)[..2], name), if name == "apply" then A.CallNodes(f.calls) else [],
      if name == "on-error" then PolicyNodes(f) else []);
  }

  lemma {:induction false} OnlyOne<T>(a: seq<T>, b: seq<T>, c: seq<T>)
    ensures b == [] && c == [] ==> a + b + c == a
    ensures a == [] && c == [] ==> a + b + c == b
    ensures a == [] && b == [] ==> a + b + c == c
  {}

  lemma {:induction false} WrittenChildren(f: A.Member)
    requires f.Field? && A.FieldOK(f)
    ensures var children := A.FieldChildren(f);
      && K.Named(children, "select") == [children[0]] && K.Named(children, "value") == [children[1]]
      && K.Named(children, "evaluate-js") == [] && K.Named(children, "apply") == A.CallNodes(f.calls)
      && K.Named(children, "on-error") == PolicyNodes(f)
  {
    hide A.CallOK, A.CallNode, A.CallNodes, A.SourceNode, K.Named, PolicyNodes;
    ChildNamed(f, "select");
    ChildNamed(f, "value");
    ChildNamed(f, "evaluate-js");
    ChildNamed(f, "apply");
    ChildNamed(f, "on-error");
  }

  lemma {:induction false} ChildrenAreKnown(f: A.Member)
    requires f.Field? && A.FieldOK(f)
    ensures forall child | child in A.FieldChildren(f) :: child.name in FIELD_CHILDREN
  {
    hide A.CallOK, A.CallNode, A.CallNodes;
    CallsAreApplies(f.calls);
  }

  lemma {:induction false} CallsAreApplies(calls: seq<A.BuiltinCall>)
    requires forall i | 0 <= i < |calls| :: A.CallOK(calls[i])
    ensures forall n | n in A.CallNodes(calls) :: n.name == "apply" && n.arguments != []
  {
    hide A.CallOK;
  }

  /** What the compiler asks of a written field: a name, a type, a selector, calls that fit, and a nullable
      type for the policies that yield null. */
  predicate FieldFits(c: Checks, f: A.Member)
    requires f.Field?
  {
    var successful, end := Parse(f.typeName), CallsType(c, STRING, f.calls);
    && Identifier(f.name) && successful.Some? && SelectorOK(c, f.selector)
    && (f.source.AttributeValue? ==> f.source.name != "")
    && end.Some? && IsAssignable(end.value, successful.value)
    && (f.onError != "fail" && f.required ==> successful.value.Nullable?)
  }

  lemma {:induction false} WrittenHeader(f: A.Member)
    requires f.Field? && A.FieldOK(f)
    ensures var n := A.MemberNode(f);
      && n.name == "field" && n.children == A.FieldChildren(f) && n.StringArgument(0) == Some(f.name)
      && TypeOfProperty(n, "type") == Parse(f.typeName) && n.GetString("type") == Some(f.typeName)
      && FlagOf(n, "required") == f.required && n.Get("default").None?
      && NodeOK(n, 1, Some(1), map["type" := ExpectString, "required" := ExpectBool, "default" := ExpectScalar])
  {
    hide A.FieldChildren, Parse;
    var n := A.MemberNode(f);
    TwoProperties(n);
    assert n.properties[0].name == "type" && n.properties[1].name == "required";
  }

  lemma {:induction false} TwoProperties(n: K.Node)
    requires |n.properties| == 2
    ensures forall name ::
      n.Get(name) == (if n.properties[1].name == name then Some(n.properties[1].value)
                      else if n.properties[0].name == name then Some(n.properties[0].value) else None)
  {
    assert n.properties[..1] == [n.properties[0]] && [n.properties[0]][..0] == [];
  }

  lemma {:induction false} OneProperty(n: K.Node)
    requires |n.properties| == 1
    ensures forall name :: n.Get(name) == (if n.properties[0].name == name then Some(n.properties[0].value) else None)
  {
    assert n.properties[..0] == [];
  }

  /** The select node of a written field, and of what it makes. */
  lemma {:induction false} WrittenSelection(c: Checks, f: A.Member)
    requires f.Field? && A.FieldOK(f)
    ensures var n := A.FieldChildren(f)[0];
      && n.StringArgument(0) == Some(f.selector) && n.GetString("match") == Some(f.mode)
      && (SelectionAccepted(c, n) <==> SelectorOK(c, f.selector))
  {
    hide SelectorOK, A.CallNodes, A.CallOK;
    OneProperty(A.FieldChildren(f)[0]);
  }

  lemma {:induction false} WrittenValue(f: A.Member, path: string)
    requires f.Field? && A.FieldOK(f)
    ensures var n := A.FieldChildren(f)[1];
      && (ValueAccepted(n, path, true) <==> (f.source.AttributeValue? ==> f.source.name != ""))
      && n.StringArgument(0) == Some(if f.source.HTMLValue? then "html" else if f.source.AttributeValue? then "attr" else "text")
      && (f.source.AttributeValue? ==> n.GetString("name") == Some(f.source.name))
  {
    hide P.HasBrackets, A.CallNodes, A.CallOK;
    var n := A.FieldChildren(f)[1];
    if f.source.AttributeValue? {
      OneProperty(n);
    }
  }

  lemma {:induction false} WrittenPolicy(f: A.Member, effective: Type)
    requires f.Field? && A.FieldOK(f)
    ensures var n := A.MemberNode(f);
      && PolicyOf(n, f.required) == (if f.onError == "fail" && !f.required then "null" else f.onError)
      && (PolicyAccepted(n, f.required, false, effective) <==> (f.onError == "fail" && f.required) || effective.Nullable?)
  {
    hide A.FieldChildren, A.CallOK, A.CallNodes;
    WrittenChildren(f);
    assert A.MemberNode(f).children == A.FieldChildren(f);
  }

  /** A written field is accepted exactly when it fits, in every scope and at every place. */
  lemma {:induction false} WrittenField(c: Checks, g: Signatures, scope: Scope, mode: string, f: A.Member, parent: string)
    requires f.Field? && A.FieldOK(f) && ScopeOK(scope, g)
    ensures FieldAccepted(c, g, scope, mode, A.MemberNode(f), parent) <==> FieldFits(c, f)
  {
    hide A.FieldChildren, A.CallOK, A.CallNodes, A.MemberNode, ScopeOK, SelectionAccepted, ValueAccepted, PolicyAccepted, NodeOK, K.Named, AppliesOutput,
      CallsType, SelectorOK, Parse, Identifier, IsAssignable;
    var n := A.MemberNode(f);
    WrittenHeader(f);
    WrittenChildren(f);
    ChildrenAreKnown(f);
    WrittenSelection(c, f);
    WrittenValue(f, parent + "." + f.name);
    WrittenChain(c, g, scope, STRING, f.calls);
    if Parse(f.typeName).Some? {
      WrittenPolicy(f, EffectiveType(n, Parse(f.typeName).value));
    }
  }

  // ---------- collections and members ----------

  predicate NamesDiffer(members: seq<A.Member>) {
    forall i, j | 0 <= i < j < |members| :: members[i].name != members[j].name
  }

  /** A required collection has at least one row. */
  function Minimum(m: A.Member): int
    requires m.Collection?
  {
    if m.required && m.minItems == 0 then 1 else m.minItems
  }

  /** What the compiler asks of a written collection apart from its members. */
  predicate CollectionFits(c: Checks, m: A.Member)
    requires m.Collection?
  {
    && Identifier(m.name) && SelectorOK(c, m.selector) && m.members != []
    && (m.maxItems.Some? ==> Minimum(m) <= m.maxItems.value)
  }

  /** What it asks of a member, at every depth. */
  predicate MemberFits(c: Checks, m: A.Member) {
    match m
    case Field(_, _, _, _, _, _, _, _) => FieldFits(c, m)
    case Collection(_, _, _, _, _, _, members) =>
      CollectionFits(c, m) && NamesDiffer(members) && forall i | 0 <= i < |members| :: MemberFits(c, members[i])
  }

  predicate MembersFit(c: Checks, members: seq<A.Member>) {
    NamesDiffer(members) && forall i | 0 <= i < |members| :: MemberFits(c, members[i])
  }

  /** A written member is one for the compiler, under its name. */
  lemma {:induction false} WrittenIsMember(m: A.Member)
    requires A.MemberOK(m)
    ensures IsMember(A.MemberNode(m)) && A.MemberNode(m).StringArgument(0) == Some(m.name)
  {
    hide A.FieldChildren, A.CallOK, A.CallNodes, A.MemberNodes, A.CollectionProperties;
  }

  lemma {:induction false} AllFiltered(others: seq<K.Node>, nodes: seq<K.Node>)
    requires (forall n | n in others :: !IsMember(n)) && forall n | n in nodes :: IsMember(n)
    ensures MemberNodes(others + nodes) == nodes
    decreases |others| + |nodes|
  {
    var all := others + nodes;
    if nodes != [] {
      assert all[..|all| - 1] == others + nodes[..|nodes| - 1];
      AllFiltered(others, nodes[..|nodes| - 1]);
      assert all[|all| - 1] == nodes[|nodes| - 1] && nodes[|nodes| - 1] in nodes;
      assert nodes == nodes[..|nodes| - 1] + [nodes[|nodes| - 1]];
    } else if others != [] {
      assert all == others;
      assert others[..|others| - 1] + [] == others[..|others| - 1];
      AllFiltered(others[..|others| - 1], []);
      assert others[|others| - 1] in others;
    }
  }

  lemma {:induction false} WrittenAreMembers(members: seq<A.Member>)
    requires forall i | 0 <= i < |members| :: A.MemberOK(members[i])
    ensures forall n | n in A.MemberNodes(members) :: IsMember(n)
  {
    hide A.MemberOK, IsMember;
    forall n | n in A.MemberNodes(members) ensures IsMember(n) {
      var i :| 0 <= i < |members| && A.MemberNodes(members)[i] == n;
      WrittenIsMember(members[i]);
    }
  }

  /** With different names every property is found. */
  lemma {:induction false} FoundAt(properties: seq<K.Property>, i: nat)
    requires i < |properties| && forall j, k | 0 <= j < k < |properties| :: properties[j].name != properties[k].name
    ensures K.Find(properties, properties[i].name) == Some(properties[i].value)
  {
    hide K.Find;
    var found := K.Find(properties, properties[i].name);
    assert properties[i] in properties;
    var j :| 0 <= j < |properties| && properties[j] == K.Property(properties[i].name, found.value);
  }

  /** The header of a written collection. */
  lemma {:induction false} WrittenProperties(m: A.Member)
    requires m.Collection? && A.CollectionOK(m)
    ensures var properties := A.CollectionProperties(m);
      && K.Find(properties, "required") == Some(K.KBool(m.required)) && K.Find(properties, "min-items") == Some(K.KInt(m.minItems))
      && K.Find(properties, "max-items") == (if m.maxItems.Some? then Some(K.KInt(m.maxItems.value)) else None)
      && K.Find(properties, "on-row-error") == Some(K.KString(m.onRowError))
  {
    hide K.Find;
    var properties := A.CollectionProperties(m);
    FoundAt(properties, 0);
    FoundAt(properties, 1);
    FoundAt(properties, 2);
    FoundAt(properties, |properties| - 1);
  }

  lemma {:induction false} WrittenShape(m: A.Member, children: seq<K.Node>)
    requires m.Collection? && A.CollectionOK(m)
    ensures NodeOK(K.Node("collection", [K.KString(m.name)], A.CollectionProperties(m), children), 1, Some(1), COLLECTION_PROPERTIES)
  {}

  lemma {:induction false} WrittenRow(c: Checks, m: A.Member)
    requires m.Collection? && A.MemberOK(m)
    ensures var n := A.MemberNode(m);
      && MemberNodes(n.children) == A.MemberNodes(m.members)
      && (RowSelectorAccepted(c, n) <==> SelectorOK(c, m.selector))
      && K.Named(n.children, "select") == [A.Leaf("select", [K.KString(m.selector)], [])]
      && forall child | child in n.children :: child.name in COLLECTION_CHILDREN
  {
    hide A.FieldOK, A.MemberNode, A.CollectionProperties, SelectorOK, NodeOK, K.Find, K.Named, MemberNodes;
    var select := A.Leaf("select", [K.KString(m.selector)], []);
    var nodes := A.MemberNodes(m.members);
    assert A.MemberNode(m).children == [select] + nodes by { BelowCollection(m); }
    WrittenAreMembers(m.members);
    AllFiltered([select], nodes);
    NamedJoin([select], nodes, "select");
    NamedAll([select], "select");
    NamedAll(nodes, "select");
    assert [select] + [] == [select];
    SelectShape(m.selector);
  }

  lemma {:induction false} BelowCollection(m: A.Member)
    requires m.Collection? && A.MemberOK(m)
    ensures var n := A.MemberNode(m);
      && n.children == [A.Leaf("select", [K.KString(m.selector)], [])] + A.MemberNodes(m.members)
      && n.name == "collection" && n.arguments == [K.KString(m.name)] && n.properties == A.CollectionProperties(m)
  {
    hide A.FieldOK, A.CollectionProperties, A.MemberNodes;
  }

  lemma {:induction false} WrittenCollection(c: Checks, m: A.Member)
    requires m.Collection? && A.MemberOK(m)
    ensures var n := A.MemberNode(m);
      && n.name == "collection" && n.StringArgument(0) == Some(m.name)
      && (CollectionHeaderAccepted(c, n) <==> CollectionFits(c, m))
  {
    hide A.FieldOK, A.CollectionProperties, A.MemberNode, A.MemberNodes, RowSelectorAccepted, SelectorOK, NodeOK, K.Find, K.Named, MemberNodes, Identifier;
    BelowCollection(m);
    WrittenRow(c, m);
    WrittenProperties(m);
    WrittenShape(m, A.MemberNode(m).children);
    assert A.MemberNodes(m.members) != [] <==> m.members != [] by { SameLength(m.members); }
  }

  lemma {:induction false} SameLength(members: seq<A.Member>)
    requires forall i | 0 <= i < |members| :: A.MemberOK(members[i])
    ensures |A.MemberNodes(members)| == |members|
  {}

  lemma {:induction false} SelectShape(selector: string)
    ensures NodeOK(A.Leaf("select", [K.KString(selector)], []), 1, Some(1), map[])
  {}

  lemma {:induction false} WrittenNames(members: seq<A.Member>, i: nat)
    requires (forall i | 0 <= i < |members| :: A.MemberOK(members[i])) && i <= |members|
    ensures NamesIn(A.MemberNodes(members)[..i]) == (set k | 0 <= k < i :: members[k].name)
  {
    hide A.MemberOK, IsMember, A.MemberNode;
    var nodes := A.MemberNodes(members);
    forall k | 0 <= k < |members| ensures IsMember(nodes[k]) && nodes[k].StringArgument(0).GetOr("") == members[k].name {
      WrittenIsMember(members[k]);
    }
    forall k | 0 <= k < i ensures members[k].name in NamesIn(nodes[..i]) {
      assert nodes[..i][k] == nodes[k] && nodes[k] in nodes[..i];
    }
  }

  /** Written members are accepted exactly when they fit, at every depth. */
  lemma {:induction false} WrittenMember(c: Checks, g: Signatures, scope: Scope, mode: string, m: A.Member, path: string)
    requires A.MemberOK(m) && ScopeOK(scope, g)
    ensures MemberAccepted(c, g, scope, mode, A.MemberNode(m), path) <==> MemberFits(c, m)
    decreases m, 1
  {
    hide A.FieldOK, A.MemberNode, FieldAccepted, FieldFits, CollectionHeaderAccepted, CollectionFits, ScopeOK, ObjectAccepted, MemberNodes, NamesDiffer;
    if m.Field? {
      WrittenHeader(m);
      WrittenField(c, g, scope, mode, m, path);
    } else {
      var n := A.MemberNode(m);
      WrittenCollection(c, m);
      WrittenRow(c, m);
      MembersAreBelow(n);
      WrittenMembers(c, g, scope, mode, n, m.members, path + "." + m.name + "[]");
    }
  }

  lemma {:induction false} WrittenMembers(c: Checks, g: Signatures, scope: Scope, mode: string, owner: K.Node, members: seq<A.Member>, path: string)
    requires (forall i | 0 <= i < |members| :: A.MemberOK(members[i])) && ScopeOK(scope, g)
    requires forall i | 0 <= i < |members| :: A.MemberNodes(members)[i] < owner
    ensures ObjectAccepted(c, g, scope, mode, owner, A.MemberNodes(members), path) <==> MembersFit(c, members)
    decreases members, 0
  {
    hide A.MemberOK, A.MemberNode, MemberAccepted, MemberFits, ScopeOK, NamesIn;
    var nodes := A.MemberNodes(members);
    forall i | 0 <= i < |members|
      ensures ItemAccepted(c, g, scope, mode, owner, nodes[..i], nodes[i], path) <==>
        MemberFits(c, members[i]) && forall k | 0 <= k < i :: members[k].name != members[i].name
    {
      WrittenMember(c, g, scope, mode, members[i], path);
      WrittenIsMember(members[i]);
      WrittenNames(members, i);
    }
  }

  // ---------- whole documents ----------

  predicate InputsDiffer(inputs: seq<A.Input>) {
    forall i, j | 0 <= i < j < |inputs| :: inputs[i].name != inputs[j].name
  }

  /** The inputs a template can use. */
  function InputsMade(inputs: seq<A.Input>): map<string, Template.Input> {
    if inputs == [] then map[] else
    var last := inputs[|inputs| - 1];
    InputsMade(inputs[..|inputs| - 1])[last.name := Template.Input(last.required, false)]
  }

  /** What the compiler asks of a written document: an accepted header, inputs that are told apart, a template
      that expands to an HTTP URL, and members that fit. */
  predicate Fits(c: Checks, d: A.Document) {
    var inputs := InputsMade(d.inputs);
    && RootName(d.name) && DateIdentifier(d.version)
    && (forall i | 0 <= i < |d.inputs| :: Identifier(d.inputs[i].name)) && InputsDiffer(d.inputs)
    && d.urlTemplate != "" && Template.Clean(d.urlTemplate, inputs) && c.httpURL(Template.Probe(Template.Scan(d.urlTemplate, "")))
    && MembersFit(c, d.members)
  }

  lemma {:induction false} WrittenInput(i: A.Input)
    requires A.InputOK(i)
    ensures var n := A.InputNode(i);
      && n.name == "input" && n.StringArgument(0) == Some(i.name) && n.GetString("type") == Some(i.typeName) && n.Get("default").None?
      && InputRequired(n) == i.required && NodeOK(n, 1, Some(1), INPUT_PROPERTIES) && !IsMember(n)
  {
    TwoProperties(A.InputNode(i));
  }

  lemma {:induction false} InputsSnoc(nodes: seq<K.Node>, n: K.Node)
    ensures InputsAccepted(nodes + [n]) <==> InputsAccepted(nodes) && (n.name == "input" ==> InputAccepted(InputsOf(nodes), n))
    ensures InputsOf(nodes + [n]) ==
      var more := if n.name == "input" then InputOf(InputsOf(nodes), n) else None;
      if more.Some? then InputsOf(nodes)[more.value.0 := more.value.1] else InputsOf(nodes)
  {
    hide InputAccepted, InputOf;
    var more := nodes + [n];
    assert more[..|nodes|] == nodes && more[|nodes|] == n;
    forall i | 0 <= i < |nodes| ensures more[..i] == nodes[..i] && more[i] == nodes[i] {}
  }

  lemma {:induction false} NoInputs(nodes: seq<K.Node>, others: seq<K.Node>)
    requires forall n | n in others :: n.name != "input"
    ensures (InputsAccepted(nodes + others) <==> InputsAccepted(nodes)) && InputsOf(nodes + others) == InputsOf(nodes)
    decreases |others|
  {
    hide InputsAccepted, InputsOf;
    if others == [] {
      assert nodes + others == nodes;
    } else {
      var front, last := others[..|others| - 1], others[|others| - 1];
      assert last in others && nodes + others == (nodes + front) + [last];
      NoInputs(nodes, front);
      InputsSnoc(nodes + front, last);
    }
  }

  lemma {:induction false} InputsMadeNames(inputs: seq<A.Input>, name: string)
    ensures name in InputsMade(inputs) <==> exists i | 0 <= i < |inputs| :: inputs[i].name == name
  {
    if inputs != [] {
      InputsMadeNames(inputs[..|inputs| - 1], name);
    }
  }

  lemma {:induction false} NothingAsked(source: K.Node)
    requires source.name != "input"
    ensures InputsAccepted([source]) && InputsOf([source]) == map[]
  {
    assert [source][..0] == [];
  }

  predicate Identified(inputs: seq<A.Input>) {
    (forall i | 0 <= i < |inputs| :: Identifier(inputs[i].name)) && InputsDiffer(inputs)
  }

  lemma {:induction false} WrittenInputs(source: K.Node, inputs: seq<A.Input>)
    requires source.name != "input" && forall i | 0 <= i < |inputs| :: A.InputOK(inputs[i])
    ensures InputsAccepted([source] + A.InputNodes(inputs)) <==> Identified(inputs)
    ensures InputsDiffer(inputs) ==> InputsOf([source] + A.InputNodes(inputs)) == InputsMade(inputs)
    decreases |inputs|
  {
    hide InputsAccepted, InputsOf, Identifier, NodeOK, A.InputNode, Identified, InputsDiffer;
    OneMoreInput(inputs);
    if inputs == [] {
      assert [source] + A.InputNodes(inputs) == [source];
      NothingAsked(source);
    } else {
      var front, last := inputs[..|inputs| - 1], inputs[|inputs| - 1];
      WrittenInputs(source, front);
      WrittenInput(last);
      InputsMadeNames(front, last.name);
      var before := [source] + A.InputNodes(front);
      assert [source] + A.InputNodes(inputs) == before + [A.InputNode(last)];
      InputsSnoc(before, A.InputNode(last));
      if !InputsDiffer(front) {
        OneMoreInput(front);
      }
    }
  }

  lemma {:induction false} OneMoreInput(inputs: seq<A.Input>)
    ensures inputs == [] ==> Identified(inputs)
    ensures Identified(inputs) ==> InputsDiffer(inputs)
    ensures inputs != [] ==>
      var front, last := inputs[..|inputs| - 1], inputs[|inputs| - 1];
      && (Identified(inputs) <==> Identified(front) && Identifier(last.name) && forall i | 0 <= i < |front| :: front[i].name != last.name)
      && (InputsDiffer(inputs) <==> InputsDiffer(front) && forall i | 0 <= i < |front| :: front[i].name != last.name)
  {
    hide Identifier;
    if inputs != [] {
      var front, last := inputs[..|inputs| - 1], inputs[|inputs| - 1];
      assert inputs == front + [last];
    }
  }

  // ---------- the source block ----------

  lemma {:induction false} WrittenFetch(c: Checks, d: A.Document, inputs: map<string, Template.Input>)
    requires A.DocumentOK(d)
    ensures var n := A.SourceBlock(d).children[0];
      && n.GetString("mode") == Some(d.fetchMode) && n.GetString("url") == Some(d.urlTemplate)
      && (FetchAccepted(c, n, inputs) <==>
           d.urlTemplate != "" && Template.Clean(d.urlTemplate, inputs) && c.httpURL(Template.Probe(Template.Scan(d.urlTemplate, ""))))
  {
    hide Template.Clean, Template.Probe, Template.Scan, A.MemberOK;
    TwoProperties(A.SourceBlock(d).children[0]);
  }

  lemma {:induction false} TwoNamed(nodes: seq<K.Node>, name: string)
    requires |nodes| == 2
    ensures K.Named(nodes, name) == (if nodes[0].name == name then [nodes[0]] else []) + (if nodes[1].name == name then [nodes[1]] else [])
  {
    hide K.Named;
    assert nodes == [nodes[0]] + [nodes[1]];
    NamedJoin([nodes[0]], [nodes[1]], name);
    NamedAll([nodes[0]], name);
    NamedAll([nodes[1]], name);
  }

  lemma {:induction false} WrittenSource(c: Checks, d: A.Document, inputs: map<string, Template.Input>)
    requires A.DocumentOK(d)
    ensures var n := A.SourceBlock(d);
      && K.Named(n.children, "fetch") == [n.children[0]] && K.Named(n.children, "session") == [n.children[1]] && K.Named(n.children, "workflow") == []
      && SessionAccepted([n.children[1]]) && SessionOf([n.children[1]]) == d.sessionPolicy
      && (SourceBodyAccepted(c, n, inputs) <==> FetchAccepted(c, n.children[0], inputs))
  {
    hide FetchAccepted, A.MemberOK;
    var n := A.SourceBlock(d);
    TwoNamed(n.children, "fetch");
    TwoNamed(n.children, "session");
    TwoNamed(n.children, "workflow");
    OneProperty(n.children[1]);
  }

  /** Nodes in front that are no members have no say in the members. */
  lemma {:induction false} OthersFirst(c: Checks, g: Signatures, scope: Scope, mode: string, owner: K.Node, others: seq<K.Node>, nodes: seq<K.Node>)
    requires ScopeOK(scope, g) && (forall n | n in others :: n < owner && !IsMember(n) && n.name in OUTPUT_OTHERS)
    requires forall i | 0 <= i < |nodes| :: nodes[i] < owner && IsMember(nodes[i])
    requires forall i | 0 <= i < |others + nodes| :: (others + nodes)[i] < owner
    ensures ObjectAccepted(c, g, scope, mode, owner, others + nodes, "output") <==> ObjectAccepted(c, g, scope, mode, owner, nodes, "output")
  {
    hide ScopeOK, MemberAccepted, IsMember, NamesIn;
    var all := others + nodes;
    forall i | 0 <= i < |all|
      ensures i < |others| ==> ItemAccepted(c, g, scope, mode, owner, all[..i], all[i], "output")
      ensures i >= |others| ==>
        all[i] == nodes[i - |others|] && NamesIn(all[..i]) == NamesIn(nodes[..i - |others|])
    {
      if i < |others| {
        assert all[i] == others[i];
      } else {
        assert all[..i] == others + nodes[..i - |others|];
        NamesOfOthers(others, nodes[..i - |others|]);
      }
    }
    forall i | 0 <= i < |nodes| ensures all[|others| + i] == nodes[i] && NamesIn(all[..|others| + i]) == NamesIn(nodes[..i]) {}
    forall i | 0 <= i < |nodes|
      ensures ItemAccepted(c, g, scope, mode, owner, all[..|others| + i], all[|others| + i], "output") <==>
        ItemAccepted(c, g, scope, mode, owner, nodes[..i], nodes[i], "output")
    {}
  }

  lemma {:induction false} NamesOfOthers(others: seq<K.Node>, nodes: seq<K.Node>)
    requires forall n | n in others :: !IsMember(n)
    ensures NamesIn(others + nodes) == NamesIn(nodes)
  {
    hide IsMember;
    forall n | n in nodes ensures n in others + nodes {}
  }

  /** The children of a written document. */
  lemma {:induction false} WrittenDocument(d: A.Document)
    requires A.DocumentOK(d)
    ensures var root, others, nodes := A.DocumentNode(d), [A.SourceBlock(d)] + A.InputNodes(d.inputs), A.MemberNodes(d.members);
      && root.children == others + nodes && K.Named(root.children, "source") == [A.SourceBlock(d)]
      && (forall n | n in others :: !IsMember(n) && (n.name == "source" || n.name == "input"))
      && (forall n | n in nodes :: IsMember(n)) && MemberNodes(root.children) == nodes
  {
    hide A.MemberOK, A.MemberNode, A.MemberNodes, A.SourceBlock, A.InputNode, IsMember, MemberNodes, K.Named;
    var source, inputs, nodes := A.SourceBlock(d), A.InputNodes(d.inputs), A.MemberNodes(d.members);
    assert source.name == "source" && !IsMember(source) by { SourceIsNamed(d); }
    forall n | n in inputs ensures n.name == "input" && !IsMember(n) {
      var i :| 0 <= i < |d.inputs| && inputs[i] == n;
      WrittenInput(d.inputs[i]);
    }
    WrittenAreMembers(d.members);
    MembersAreNamed(nodes);
    AllFiltered([source] + inputs, nodes);
    NamedJoin([source] + inputs, nodes, "source");
    NamedJoin([source], inputs, "source");
    NamedAll([source], "source");
    NamedAll(inputs, "source");
    NamedAll(nodes, "source");
    assert [source] + [] == [source];
  }

  lemma {:induction false} SourceIsNamed(d: A.Document)
    ensures A.SourceBlock(d).name == "source" && !IsMember(A.SourceBlock(d))
    ensures A.SourceBlock(d).StringArgument(0) == Some("html") && NodeOK(A.SourceBlock(d), 1, Some(1), map[])
    ensures forall child | child in A.SourceBlock(d).children :: child.name in SOURCE_CHILDREN
  {}

  lemma {:induction false} MembersAreNamed(nodes: seq<K.Node>)
    requires forall n | n in nodes :: IsMember(n)
    ensures forall n | n in nodes :: n.name != "source" && n.name != "input" && n.name != "transform" && n.name != "import"
  {}

  /** A written document is accepted exactly when it fits. */
  lemma {:induction false} WrittenProgram(h: Host, c: Checks, g: Signatures, scope: Scope, d: A.Document)
    requires A.DocumentOK(d) && ScopeOK(scope, g)
    ensures RootHeaderOK(A.DocumentNode(d)) && ProgramAccepted(h, c, g, A.DocumentNode(d), scope, []) <==> Fits(c, d)
  {
    hide A.MemberOK, A.MemberNode, A.MemberNodes, A.SourceBlock, A.InputNode, A.InputNodes, IsMember, MemberNodes, K.Named, A.DocumentNode, ScopeOK,
      ObjectAccepted, MembersFit, InputsAccepted, InputsOf, RootHeaderOK, SourceBodyAccepted, FetchAccepted, Template.Clean, Template.Probe, Template.Scan,
      Identifier, InputsDiffer, RootName, DateIdentifier, NodeOK, InputsMade;
    WrittenHeading(d);
    WrittenAsked(d);
    WrittenBlock(c, d, InputsMade(d.inputs));
    WrittenOutput(c, g, scope, OwnerMode(A.DocumentNode(d).children), d);
  }

  lemma {:induction false} WrittenHeading(d: A.Document)
    requires A.DocumentOK(d)
    ensures RootHeaderOK(A.DocumentNode(d)) <==> RootName(d.name) && DateIdentifier(d.version)
  {
    hide A.MemberOK, A.MemberNode, A.MemberNodes, A.SourceBlock, A.InputNode, RootName, DateIdentifier, K.Named;
    TwoProperties(A.DocumentNode(d));
  }

  lemma {:induction false} WrittenAsked(d: A.Document)
    requires A.DocumentOK(d)
    ensures InputsAccepted(A.DocumentNode(d).children) <==> Identified(d.inputs)
    ensures InputsDiffer(d.inputs) ==> InputsOf(A.DocumentNode(d).children) == InputsMade(d.inputs)
  {
    hide A.MemberOK, A.MemberNode, A.MemberNodes, A.SourceBlock, A.InputNode, A.InputNodes, IsMember, K.Named, A.DocumentNode, InputsAccepted, InputsOf,
      Identified, InputsDiffer, MemberNodes, InputsMade;
    WrittenDocument(d);
    MembersAreNamed(A.MemberNodes(d.members));
    NoInputs([A.SourceBlock(d)] + A.InputNodes(d.inputs), A.MemberNodes(d.members));
    SourceIsNamed(d);
    WrittenInputs(A.SourceBlock(d), d.inputs);
  }

  lemma {:induction false} WrittenBlock(c: Checks, d: A.Document, inputs: map<string, Template.Input>)
    requires A.DocumentOK(d)
    ensures SourceAccepted(c, A.DocumentNode(d).children, inputs) <==>
      d.urlTemplate != "" && Template.Clean(d.urlTemplate, inputs) && c.httpURL(Template.Probe(Template.Scan(d.urlTemplate, "")))
  {
    hide A.MemberOK, A.MemberNode, A.MemberNodes, A.SourceBlock, A.InputNode, A.InputNodes, IsMember, K.Named, A.DocumentNode, MemberNodes,
      SourceBodyAccepted, FetchAccepted, Template.Clean, Template.Probe, Template.Scan, NodeOK;
    WrittenDocument(d);
    SourceIsNamed(d);
    WrittenSource(c, d, inputs);
    WrittenFetch(c, d, inputs);
  }

  lemma {:induction false} WrittenOutput(c: Checks, g: Signatures, scope: Scope, mode: string, d: A.Document)
    requires A.DocumentOK(d) && ScopeOK(scope, g)
    ensures var root := A.DocumentNode(d); ObjectAccepted(c, g, scope, mode, root, root.children, "output") <==> MembersFit(c, d.members)
  {
    hide A.MemberOK, A.MemberNode, A.MemberNodes, A.SourceBlock, A.InputNode, A.InputNodes, IsMember, K.Named, A.DocumentNode, MemberNodes, ScopeOK,
      ObjectAccepted, MembersFit;
    var root, others, nodes := A.DocumentNode(d), [A.SourceBlock(d)] + A.InputNodes(d.inputs), A.MemberNodes(d.members);
    WrittenDocument(d);
    assert forall i | 0 <= i < |root.children| :: root.children[i] < root;
    forall n | n in others ensures n < root {
      assert n in root.children;
    }
    forall i | 0 <= i < |nodes| ensures nodes[i] < root && IsMember(nodes[i]) {
      assert root.children[|others| + i] == nodes[i];
    }
    OthersFirst(c, g, scope, mode, root, others, nodes);
    WrittenMembers(c, g, scope, mode, root, d.members, "output");
  }

  // ---------- what is compiled says what was written ----------

  /** The call goes to the built-in of its name, with the same arguments. */
  ghost predicate CallSays(h: Host, call: A.BuiltinCall, made: Call) {
    && made.target == BuiltinTarget(call.name)
    && |made.positional| == |call.positional|
    && (forall i | 0 <= i < |call.positional| :: call.positional[i].Some? && made.positional[i] == RawOf(h, call.positional[i].value))
    && forall name :: var found := Arguments(made.named);
         (name in found <==> name in call.named) && (name in call.named ==> call.named[name].Some? && found[name] == RawOf(h, call.named[name].value))
  }

  /** The writer leaves out `fail`, which the compiler implies only for required fields. */
  function PolicyMade(f: A.Member): string
    requires f.Field?
  {
    if f.onError == "fail" && !f.required then "null" else f.onError
  }

  function SourceMade(source: A.ValueSource): ValueSource {
    match source
    case HTMLValue => HTMLSource(STRING)
    case AttributeValue(name) => AttributeSource(name, STRING)
    case _ => TextSource(STRING)
  }

  /** The compiled field says what was written. */
  ghost predicate FieldSays(h: Host, f: A.Member, made: Field)
    requires f.Field?
  {
    && made.name == f.name && Parse(f.typeName) == Some(made.successful) && made.required == f.required && made.default.None?
    && made.selection == Some(Selection(f.selector, f.mode)) && made.source == SourceMade(f.source)
    && |made.calls| == |f.calls| && (forall i | 0 <= i < |f.calls| :: CallSays(h, f.calls[i], made.calls[i]))
    && made.onError == PolicyMade(f)
  }

  /** So does the compiled object, at every depth, member by member. */
  ghost predicate ObjectSays(h: Host, members: seq<A.Member>, o: OutputObject)
    decreases o
  {
    |o.members| == |members| && forall i | 0 <= i < |members| :: MemberSays(h, members[i], o.members[i])
  }

  ghost predicate MemberSays(h: Host, m: A.Member, made: Member)
    decreases made
  {
    match made
    case FieldMember(f) => m.Field? && FieldSays(h, m, f)
    case CollectionMember(c) =>
      && m.Collection? && c.name == m.name && c.selector == m.selector && c.required == m.required
      && c.minItems == Minimum(m) && c.maxItems == m.maxItems && c.onRowError == m.onRowError
      && ObjectSays(h, m.members, c.row)
  }

  lemma {:induction false} WrittenCallSays(h: Host, scope: Scope, call: A.BuiltinCall, made: Call)
    requires A.CallOK(call) && Mirrors(h, scope, A.CallNode(call), made)
    ensures CallSays(h, call, made)
  {
    hide Lookup, Allowed, Required, K.Find, Names, A.NamedProperties, A.ArgumentNames, A.NamedOK, RawOf, Arguments;
    var n := A.CallNode(call);
    assert n.arguments[0] == K.KString(call.name) && n.arguments[1..] == A.Given(call.positional);
    forall name ensures var found := Arguments(made.named);
      (name in found <==> name in call.named) && (name in call.named ==> call.named[name].Some? && found[name] == RawOf(h, call.named[name].value))
    {
      ArgumentsFind(h, n.properties, name);
      WrittenArgument(call, name);
      if name in call.named {
        NamedIsGiven(call, name);
      }
    }
  }

  lemma {:induction false} NamedIsGiven(call: A.BuiltinCall, name: string)
    requires A.CallOK(call) && name in call.named
    ensures call.named[name].Some?
  {
    hide Lookup, Allowed, Required, Meets, MinPositional, MaxPositional;
    assert A.NamedOK(Lookup(call.name).value, name, call.named[name]);
  }

  lemma {:induction false} WrittenFieldSays(h: Host, scope: Scope, f: A.Member, made: Field)
    requires f.Field? && A.FieldOK(f) && made.name == f.name && FieldMirrors(h, scope, A.MemberNode(f), made)
    ensures FieldSays(h, f, made)
  {
    hide A.FieldChildren, A.CallOK, A.CallNode, A.CallNodes, A.MemberNode, K.Named, Parse, PolicyAccepted, NodeOK, SelectionAccepted, ValueAccepted, Mirrors, CallSays, RawOf;
    var n := A.MemberNode(f);
    WrittenHeader(f);
    WrittenChildren(f);
    WrittenSelection(Checks(s => true, s => None, s => true, s => true), f);
    WrittenValue(f, "");
    WrittenPolicy(f, made.effective);
    WrittenCallsSay(h, scope, f.calls, made.calls);
  }

  lemma {:induction false} WrittenCallsSay(h: Host, scope: Scope, calls: seq<A.BuiltinCall>, made: seq<Call>)
    requires |made| == |calls| && (forall i | 0 <= i < |calls| :: A.CallOK(calls[i]))
    requires forall i | 0 <= i < |calls| :: Mirrors(h, scope, A.CallNodes(calls)[i], made[i])
    ensures forall i | 0 <= i < |calls| :: CallSays(h, calls[i], made[i])
  {
    hide A.CallOK, A.CallNode, Mirrors, CallSays;
    forall i | 0 <= i < |calls| ensures CallSays(h, calls[i], made[i]) {
      WrittenCallSays(h, scope, calls[i], made[i]);
    }
  }

  lemma {:induction false} WrittenObjectSays(h: Host, scope: Scope, members: seq<A.Member>, o: OutputObject)
    requires (forall i | 0 <= i < |members| :: A.MemberOK(members[i])) && ObjectMirrors(h, scope, A.MemberNodes(members), o)
    ensures ObjectSays(h, members, o)
    decreases o
  {
    hide A.FieldOK, A.MemberNode, FieldMirrors, FieldSays, A.CollectionProperties, MemberNodes, K.Named, K.Find;
    forall i | 0 <= i < |members| ensures MemberSays(h, members[i], o.members[i]) {
      WrittenMemberSays(h, scope, members[i], o.members[i]);
    }
  }

  lemma {:induction false} WrittenMemberSays(h: Host, scope: Scope, m: A.Member, made: Member)
    requires A.MemberOK(m) && MemberMirrors(h, scope, A.MemberNode(m), made)
    ensures MemberSays(h, m, made)
    decreases made
  {
    hide A.FieldOK, A.MemberNode, A.MemberNodes, FieldMirrors, FieldSays, A.CollectionProperties, MemberNodes, K.Named, K.Find, ObjectMirrors, ObjectSays,
      CollectionHeaderAccepted, CollectionFits, RowSelectorAccepted;
    var n := A.MemberNode(m);
    var c := Checks(s => true, s => None, s => true, s => true);
    if m.Field? {
      WrittenHeader(m);
      WrittenFieldSays(h, scope, m, made.field);
    } else {
      WrittenCollection(c, m);
      WrittenRow(c, m);
      BelowCollection(m);
      WrittenProperties(m);
      WrittenObjectSays(h, scope, m.members, made.collection.row);
    }
  }

  /** The policy written is the policy compiled exactly when the field is required or the policy is not `fail`. */
  lemma {:induction false} PolicyIsKeptIff(h: Host, f: A.Member, made: Field)
    requires f.Field? && FieldSays(h, f, made)
    ensures made.onError == f.onError <==> f.required || f.onError != "fail"
    ensures !f.required && f.onError == "fail" ==> made.onError == "null"
  {
    hide CallSays, Parse;
  }

  /** So whatever fails in an optional field that was written to fail becomes null without a warning. */
  lemma {:induction false} WrittenFailIsAbsorbed<Scope>(env: W.Env<Scope>, scope: Scope, f: A.Member, made: Field, path: string, cause: Code)
    requires f.Field? && FieldSays(env.h, f, made) && f.onError == "fail" && !f.required && C.FailsWith(env, scope, made, path, cause)
    ensures W.ExecField(env, scope, made, path) == W.Run(Ok(Null), [], true)
  {
    hide CallSays, Parse, W.ExecField, C.FailsWith;
    PolicyIsKeptIff(env.h, f, made);
    C.FieldAbsorbsIff(env, scope, made, path, cause);
  }

  // ---------- from a written text to a program ----------

  lemma {:induction false} NothingDeclared(nodes: seq<K.Node>)
    requires forall n | n in nodes :: n.name != "transform"
    ensures DeclarationsOK(nodes) && Collected(nodes) == []
  {
    if nodes != [] {
      var front, last := nodes[..|nodes| - 1], nodes[|nodes| - 1];
      assert last in nodes;
      NothingDeclared(front);
    }
  }

  /** A file that holds a written document: all there is to check is the header. */
  lemma {:induction false} WrittenFile(files: Files, entry: string, d: A.Document)
    requires A.DocumentOK(d) && files.parsed == map[entry := ([A.DocumentNode(d)], true)]
    ensures I.Right(files, entry, entry) <==> RootHeaderOK(A.DocumentNode(d))
    ensures ImportsOf(files, entry) == [] && Content(files, entry) == Loaded([], Some(A.DocumentNode(d)), [])
  {
    hide A.MemberOK, A.MemberNode, A.MemberNodes, A.SourceBlock, A.InputNode, A.InputNodes, IsMember, K.Named, RootHeaderOK, MemberNodes,
      DeclarationsOK, Collected, ImportsOK, Followed, LayoutOK, RootOf;
    var n := A.DocumentNode(d);
    L.AloneInFile(files, entry, n);
    WrittenDocument(d);
    MembersAreNamed(A.MemberNodes(d.members));
    forall child | child in n.children ensures child.name != "transform" {
      if child !in A.MemberNodes(d.members) {
        assert child in [A.SourceBlock(d)] + A.InputNodes(d.inputs);
      }
    }
    NothingDeclared(n.children);
  }

  /** It is the only document there is. */
  lemma {:induction false} WrittenWorld(files: Files, entry: string, d: A.Document)
    requires A.DocumentOK(d) && files.parsed == map[entry := ([A.DocumentNode(d)], true)]
    ensures L.WorldOf(files, entry).documents == map[entry := Loaded([], Some(A.DocumentNode(d)), [])]
    ensures !I.Missing(files, entry) && (I.Trouble(files, entry) <==> !RootHeaderOK(A.DocumentNode(d)))
  {
    hide A.DocumentOK, A.DocumentNode, Content, I.Reaches, ImportsOf, RootHeaderOK, I.Right;
    WrittenFile(files, entry, d);
    I.Stay(files, entry);
    forall p | I.Reaches(files, entry, p) ensures p == entry {
      L.OnlyEntry(files, entry, p);
    }
    forall b | I.Edge(files, entry, b) ensures false {
      L.NoEdge(files, entry, b);
    }
    assert !I.CycleFrom(files, entry);
  }

  ghost predicate IsWrittenWorld(w: R.World, entry: string, n: K.Node) {
    w.documents == map[entry := Loaded([], Some(n), [])]
  }

  /** It declares no transforms. */
  lemma {:induction false} NothingLinked(w: R.World, entry: string, n: K.Node, decls: seq<Decl>, g: Signatures)
    requires IsWrittenWorld(w, entry, n)
    ensures L.Linked(w, decls, g) <==> decls == [] && g == map[]
    ensures AliasesApart(w.documents[entry].imports) && ScopeOK(L.ScopeOf(w, entry), map[])
  {
    assert w.Declared(entry) == [];
    forall d ensures !L.IsDeclared(w, d) {}
    FirstIsIn(decls);
    if L.Linked(w, decls, g) {
      assert g.Keys == {};
    }
  }

  lemma {:induction false} WrittenNeverPanics(m: A.Member)
    requires A.MemberOK(m)
    ensures !MemberPanics(A.MemberNode(m))
    decreases m
  {
    hide A.CallOK, A.CallNode, A.CallNodes, A.FieldChildren, K.Named, A.MemberNodes;
    var n := A.MemberNode(m);
    if m.Field? {
      WrittenHeader(m);
      WrittenChildren(m);
      CallsAreApplies(m.calls);
    } else {
      BelowCollection(m);
      forall i | 0 <= i < |n.children| && IsMember(n.children[i]) ensures !MemberPanics(n.children[i]) {
        assert n.children[i] == A.MemberNodes(m.members)[i - 1];
        WrittenNeverPanics(m.members[i - 1]);
      }
    }
  }

  lemma {:induction false} WrittenRootNeverPanics(d: A.Document)
    requires A.DocumentOK(d)
    ensures !ProgramPanics(A.DocumentNode(d), [])
  {
    hide A.MemberOK, A.MemberNode, A.MemberNodes, A.DocumentNode, A.SourceBlock, A.InputNodes, K.Named, MemberNodes, MemberPanics, IsMember;
    var root, others, nodes := A.DocumentNode(d), [A.SourceBlock(d)] + A.InputNodes(d.inputs), A.MemberNodes(d.members);
    WrittenDocument(d);
    forall n | n in root.children && IsMember(n) ensures !MemberPanics(n) {
      assert n in nodes;
      var i :| 0 <= i < |nodes| && nodes[i] == n;
      WrittenNeverPanics(d.members[i]);
    }
  }

  /** The file holds what the writer wrote. */
  ghost predicate HoldsWritten(h: Host, files: Files, entry: string, d: A.Document) {
    && A.DocumentOK(d) && (forall i | 0 <= i < |d.members| :: A.Sized(h, d.members[i]))
    && var parsed := Parsing.Parse(h, Printing.NodesText(h, 0, [A.DocumentNode(d)]));
       files.parsed == map[entry := (parsed.0, parsed.1 == [])]
  }

  lemma {:induction false} WrittenIsRead(h: Host, files: Files, entry: string, d: A.Document)
    requires Printing.FloatsReadBack(h) && HoldsWritten(h, files, entry, d)
    ensures files.parsed == map[entry := ([A.DocumentNode(d)], true)] && A.DocumentOK(d)
  {
    hide Printing.FloatsReadBack, A.DocumentOK, A.DocumentNode, A.Sized, Parsing.Parse, Printing.NodesText;
    A.WriteThenParse(h, d);
  }

  /** The text of an authored document compiles exactly when the document fits, and never panics. */
  lemma {:induction false} WrittenCompilesIff(h: Host, c: Checks, files: Files, entry: string, d: A.Document)
    requires Printing.FloatsReadBack(h) && HoldsWritten(h, files, entry, d)
    ensures L.FilesAccepted(h, c, files, entry) <==> Fits(c, d)
    ensures !I.Missing(files, entry) && !L.FilesPanic(files, entry)
  {
    hide Printing.FloatsReadBack, HoldsWritten, A.DocumentOK, A.DocumentNode, I.Missing, I.Trouble, L.WorldOf, RootHeaderOK, ProgramAccepted, Fits,
      AliasesApart, ScopeOK, L.ScopeOf, L.Linked, ProgramPanics;
    WrittenIsRead(h, files, entry, d);
    WrittenWorld(files, entry, d);
    var w, n := L.WorldOf(files, entry), A.DocumentNode(d);
    assert IsWrittenWorld(w, entry, n);
    forall decls, g ensures L.Linked(w, decls, g) <==> decls == [] && g == map[] {
      NothingLinked(w, entry, n, decls, g);
    }
    NothingLinked(w, entry, n, [], map[]);
    WrittenProgram(h, c, map[], L.ScopeOf(w, entry), d);
    WrittenRootNeverPanics(d);
    if Fits(c, d) {
      assert L.WorldAccepted(h, c, w, entry, [], map[]);
    }
  }

  /** And the program says what was written. */
  lemma {:induction false} WrittenProgramSays(h: Host, c: Checks, files: Files, entry: string, d: A.Document, decls: seq<Decl>, p: Program)
    requires Printing.FloatsReadBack(h) && HoldsWritten(h, files, entry, d)
    requires L.ProgramIsSound(h, c, L.WorldOf(files, entry), entry, decls, p)
    ensures p.mode == d.fetchMode && p.policy == d.sessionPolicy && p.steps == [] && p.transforms == []
    ensures p.segments == Template.Scan(d.urlTemplate, "") && ObjectSays(h, d.members, p.output)
  {
    hide Printing.FloatsReadBack, HoldsWritten, A.DocumentNode, A.SourceBlock, A.MemberOK, A.MemberNode, A.MemberNodes, A.InputNodes, I.Missing, I.Trouble, L.WorldOf,
      P.StaticOK, P.StructureOK, P.DerivedCapabilities, ObjectMirrors, ObjectSays, ProgramEmitted, P.SelectorsOK, SourceCompiled, MemberNodes, K.Named,
      L.ObjectRefers, AliasesApart, L.ScopeOf, L.IsDeclared, L.TransformRefers, TransformMirrors, Template.Scan, InputsOf;
    WrittenIsRead(h, files, entry, d);
    WrittenWorld(files, entry, d);
    var w, n := L.WorldOf(files, entry), A.DocumentNode(d);
    assert IsWrittenWorld(w, entry, n);
    WrittenDocument(d);
    WrittenObjectSays(h, L.ScopeOf(w, entry), d.members, p.output);
    WrittenSource(c, d, map[]);
    WrittenFetch(c, d, map[]);
    NoDeclarations(w, entry, n, decls);
  }

  lemma {:induction false} NoDeclarations(w: R.World, entry: string, n: K.Node, decls: seq<Decl>)
    requires IsWrittenWorld(w, entry, n) && forall d :: d in decls <==> L.IsDeclared(w, d)
    ensures decls == []
  {
    assert w.Declared(entry) == [];
    FirstIsIn(decls);
  }

  lemma {:induction false} FirstIsIn(decls: seq<Decl>)
    ensures decls == [] || decls[0] in decls
  {}
}
