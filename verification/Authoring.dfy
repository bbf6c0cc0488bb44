/** The document model and the writer of authoring/model.go, authoring/catalog.go and authoring/writer.go. */
module Authoring {
  import opened Options
  import opened Text
  import opened Builtins
  import opened Contract
  import opened Lexing
  import opened Parsing
  import opened Printing
  import V = Values
  import K = KDLTree

  /** A scalar of a built-in call; None is the uninitialised one. */
  type Scalar = Option<K.Value>

  datatype BuiltinCall = BuiltinCall(name: string, positional: seq<Scalar>, named: map<string, Scalar>)

  datatype ValueSource = TextValue | HTMLValue | AttributeValue(name: string) | NoValue

  datatype Member =
    | Field(name: string, typeName: string, required: bool, selector: string, mode: string, source: ValueSource,
            calls: seq<BuiltinCall>, onError: string)
    | Collection(name: string, selector: string, required: bool, minItems: int, maxItems: Option<int>, onRowError: string,
                 members: seq<Member>)

  datatype Input = Input(name: string, typeName: string, required: bool)

  datatype Document = Document(
    languageVersion: string, name: string, version: string,
    fetchMode: string, urlTemplate: string, sessionPolicy: string,
    inputs: seq<Input>, members: seq<Member>)

  const LANGUAGE_VERSION := "2026-07-15"

  // ---------- the catalog ----------

  /** The named arguments of a built-in in the catalog's order. */
  function ArgumentNames(b: Builtin): seq<string> {
    match b
    case Replace => ["count", "new", "old"]
    case RegexReplace => ["count", "flags", "pattern", "replacement"]
    case RegexCapture => ["flags", "group", "pattern"]
    case Substring => ["end", "start"]
    case Split => ["limit", "separator"]
    case Join => ["separator"]
    case Prepend => ["value"]
    case Append => ["value"]
    case ParseInt => ["as", "radix"]
    case ParseFloat => ["as"]
    case ParseBool => ["case-sensitive", "false", "true"]
    case Coalesce => ["value"]
    case URLResolve => ["base"]
    case URLQuery => ["index", "name"]
    case PathSegment => ["index"]
    case AssertMatches => ["flags", "pattern"]
    case AssertMin => ["value"]
    case AssertMax => ["value"]
    case _ => []
  }

  /** The catalog lists exactly the arguments of the call surface. */
  lemma {:induction false} CatalogIsComplete(b: Builtin, name: string)
    ensures name in ArgumentNames(b) <==> name in Allowed(b)
  {}

  lemma {:induction false} CatalogNamesArePlain(b: Builtin)
    ensures forall i | 0 <= i < |ArgumentNames(b)| :: PlainName(ArgumentNames(b)[i])
  {}

  predicate InCatalogRange(b: Builtin, name: string, v: K.Value) {
    && (b.ParseInt? && name == "as" ==> v.KString? && V.KindOf(v.s).Some?)
    && (b.ParseInt? && name == "radix" ==> v.KInt? && 2 <= v.n <= 36)
    && (b.ParseFloat? && name == "as" ==> v.KString? && (v.s == "float" || v.s == "f32" || v.s == "f64"))
  }

  /** validateNamedArgument. */
  predicate NamedOK(b: Builtin, name: string, v: Scalar) {
    v.Some? && name in Allowed(b) && Meets(v.value, Allowed(b)[name]) && InCatalogRange(b, name, v.value)
  }

  /** The named arguments present, in catalog order, from the i-th on. */
  function NamedProperties(names: seq<string>, named: map<string, Scalar>): seq<K.Property> {
    if names == [] then []
    else
      (if names[0] in named && named[names[0]].Some? then [K.Property(names[0], named[names[0]].value)] else []) +
      NamedProperties(names[1..], named)
  }

  // ---------- what the writer accepts ----------

  predicate CallOK(call: BuiltinCall) {
    Lookup(call.name).Some? &&
    var b := Lookup(call.name).value;
    && MinPositional(b) <= |call.positional| && (MaxPositional(b).Some? ==> |call.positional| <= MaxPositional(b).value)
    && (forall i | 0 <= i < |call.positional| :: call.positional[i].Some?)
    && (forall name | name in Required(b) :: name in call.named)
    && (forall name | name in call.named :: NamedOK(b, name, call.named[name]))
  }

  predicate FieldOK(f: Member)
    requires f.Field?
  {
    && (f.mode == "one" || f.mode == "first") && (f.onError == "fail" || f.onError == "null" || f.onError == "warn")
    && !f.source.NoValue? && forall i | 0 <= i < |f.calls| :: CallOK(f.calls[i])
  }

  predicate CollectionOK(c: Member)
    requires c.Collection?
  {
    c.minItems >= 0 && (c.maxItems.Some? ==> c.maxItems.value >= 0) && (c.onRowError == "fail" || c.onRowError == "skip")
  }

  predicate MemberOK(m: Member) {
    match m
    case Field(_, _, _, _, _, _, _, _) => FieldOK(m)
    case Collection(_, _, _, _, _, _, members) => CollectionOK(m) && forall i | 0 <= i < |members| :: MemberOK(members[i])
  }

  predicate InputOK(i: Input) {
    i.typeName == "string" || i.typeName == "bool" || i.typeName == "int" || i.typeName == "float"
  }

  predicate DocumentOK(d: Document) {
    && d.languageVersion == LANGUAGE_VERSION && (d.fetchMode == "http" || d.fetchMode == "browser")
    && (d.sessionPolicy == "none" || d.sessionPolicy == "optional" || d.sessionPolicy == "required")
    && (forall i | 0 <= i < |d.inputs| :: InputOK(d.inputs[i])) && forall i | 0 <= i < |d.members| :: MemberOK(d.members[i])
  }

  // ---------- the tree a document stands for ----------

  function TextProperty(name: string, value: string): K.Property {
    K.Property(name, K.KString(value))
  }

  function Leaf(name: string, arguments: seq<K.Value>, properties: seq<K.Property>): K.Node {
    K.Node(name, arguments, properties, [])
  }

  function Given(scalars: seq<Scalar>): (r: seq<K.Value>)
    requires forall i | 0 <= i < |scalars| :: scalars[i].Some?
    ensures |r| == |scalars| && forall i | 0 <= i < |r| :: r[i] == scalars[i].value
  {
    if scalars == [] then [] else [scalars[0].value] + Given(scalars[1..])
  }

  function CallNode(call: BuiltinCall): K.Node
    requires CallOK(call)
  {
    var b := Lookup(call.name).value;
    Leaf("apply", [K.KString(call.name)] + Given(call.positional), NamedProperties(ArgumentNames(b), call.named))
  }

  function CallNodes(calls: seq<BuiltinCall>): (r: seq<K.Node>)
    requires forall i | 0 <= i < |calls| :: CallOK(calls[i])
    ensures |r| == |calls| && forall i | 0 <= i < |r| :: r[i] == CallNode(calls[i])
  {
    if calls == [] then [] else [CallNode(calls[0])] + CallNodes(calls[1..])
  }

  function SourceNode(source: ValueSource): K.Node {
    match source
    case HTMLValue => Leaf("value", [K.KString("html")], [])
    case AttributeValue(name) => Leaf("value", [K.KString("attr")], [TextProperty("name", name)])
    case _ => Leaf("value", [K.KString("text")], [])
  }

  function FieldChildren(f: Member): seq<K.Node>
    requires f.Field? && FieldOK(f)
  {
    [Leaf("select", [K.KString(f.selector)], [TextProperty("match", f.mode)]), SourceNode(f.source)] + CallNodes(f.calls) +
    if f.onError == "fail" then [] else [Leaf("on-error", [K.KString(f.onError)], [])]
  }

  function CollectionProperties(c: Member): seq<K.Property>
    requires c.Collection?
  {
    [K.Property("required", K.KBool(c.required)), K.Property("min-items", K.KInt(c.minItems))] +
    (if c.maxItems.Some? then [K.Property("max-items", K.KInt(c.maxItems.value))] else []) +
    [TextProperty("on-row-error", c.onRowError)]
  }

  function MemberNode(m: Member): K.Node
    requires MemberOK(m)
    decreases m, 0
  {
    match m
    case Field(name, typeName, required, _, _, _, _, _) =>
      K.Node("field", [K.KString(name)], [TextProperty("type", typeName), K.Property("required", K.KBool(required))], FieldChildren(m))
    case Collection(name, selector, _, _, _, _, members) =>
      K.Node("collection", [K.KString(name)], CollectionProperties(m),
        [Leaf("select", [K.KString(selector)], [])] + MemberNodes(members))
  }

  function MemberNodes(members: seq<Member>): (r: seq<K.Node>)
    requires forall i | 0 <= i < |members| :: MemberOK(members[i])
    ensures |r| == |members| && forall i | 0 <= i < |r| :: r[i] == MemberNode(members[i])
    decreases members, 1
  {
    if members == [] then [] else [MemberNode(members[0])] + MemberNodes(members[1..])
  }

  function InputNode(i: Input): K.Node {
    Leaf("input", [K.KString(i.name)], [TextProperty("type", i.typeName), K.Property("required", K.KBool(i.required))])
  }

  function InputNodes(inputs: seq<Input>): (r: seq<K.Node>)
    ensures |r| == |inputs| && forall i | 0 <= i < |r| :: r[i] == InputNode(inputs[i])
  {
    seq(|inputs|, i requires 0 <= i < |inputs| => InputNode(inputs[i]))
  }

  function SourceBlock(d: Document): K.Node {
    K.Node("source", [K.KString("html")], [], [
      Leaf("fetch", [], [TextProperty("mode", d.fetchMode), TextProperty("url", d.urlTemplate)]),
      Leaf("session", [], [TextProperty("policy", d.sessionPolicy)])])
  }

  function DocumentNode(d: Document): K.Node
    requires DocumentOK(d)
  {
    K.Node("extractor", [K.KString(d.name)], [TextProperty("version", d.version), TextProperty("language-version", d.languageVersion)],
      [SourceBlock(d)] + InputNodes(d.inputs) + MemberNodes(d.members))
  }

  // ---------- the lines of the writer ----------

  function Quote(s: string): string {
    "\"" + EscapeText(s) + "\""
  }

  function BoolText(b: bool): string {
    if b then "#true" else "#false"
  }

  /** What a line says, apart from its indentation and its end. */
  function Head(h: V.Host, n: K.Node): string {
    n.name + ArgumentsText(h, n.arguments) + PropertiesText(h, n.properties)
  }

  lemma {:induction false} OneArgument(h: V.Host, v: K.Value)
    ensures ArgumentsText(h, [v]) == " " + ValueText(h, v)
  {
    hide ValueText;
    assert [v][1..] == [];
    assert ArgumentsText(h, [v]) == " " + ValueText(h, v) + "";
  }

  function PropertyText(h: V.Host, p: K.Property): string {
    " " + p.name + "=" + ValueText(h, p.value)
  }

  lemma {:induction false} PropertiesSnoc(h: V.Host, properties: seq<K.Property>, p: K.Property)
    ensures PropertiesText(h, properties + [p]) == PropertiesText(h, properties) + PropertyText(h, p)
  {
    hide ValueText;
    if properties == [] {
      assert properties + [p] == [p] && [p][1..] == [];
    } else {
      assert (properties + [p])[1..] == properties[1..] + [p];
      PropertiesSnoc(h, properties[1..], p);
    }
  }

  lemma {:induction false} ArgumentsSnoc(h: V.Host, values: seq<K.Value>, v: K.Value)
    ensures ArgumentsText(h, values + [v]) == ArgumentsText(h, values) + (" " + ValueText(h, v))
  {
    hide ValueText;
    if values == [] {
      assert values + [v] == [v];
      OneArgument(h, v);
    } else {
      assert (values + [v])[1..] == values[1..] + [v];
      ArgumentsSnoc(h, values[1..], v);
    }
  }

  lemma {:induction false} NodesSnoc(h: V.Host, depth: nat, nodes: seq<K.Node>, n: K.Node)
    ensures NodesText(h, depth, nodes + [n]) == NodesText(h, depth, nodes) + NodeText(h, depth, n)
  {
    hide NodeText;
    if nodes == [] {
      assert nodes + [n] == [n] && [n][1..] == [];
    } else {
      assert (nodes + [n])[1..] == nodes[1..] + [n];
      NodesSnoc(h, depth, nodes[1..], n);
    }
  }

  lemma {:induction false} LeafLine(h: V.Host, depth: nat, n: K.Node)
    requires n.children == []
    ensures NodeText(h, depth, n) == Indent(depth) + Head(h, n) + "\n"
  {
    hide Indent, ArgumentsText, PropertiesText;
    assert Indent(depth) + n.name + ArgumentsText(h, n.arguments) + PropertiesText(h, n.properties) == Indent(depth) + Head(h, n);
  }

  lemma {:induction false} BlockLines(h: V.Host, depth: nat, n: K.Node)
    requires n.children != []
    ensures NodeText(h, depth, n) ==
      (Indent(depth) + (Head(h, n) + " {") + "\n") + NodesText(h, depth + 1, n.children) + (Indent(depth) + "}" + "\n")
  {
    hide Indent, ArgumentsText, PropertiesText, NodesText;
    assert Indent(depth) + n.name + ArgumentsText(h, n.arguments) + PropertiesText(h, n.properties) == Indent(depth) + Head(h, n);
  }

  /** The heads of lines with at most one argument and two properties. */
  lemma {:induction false} HeadOf(h: V.Host, n: K.Node)
    ensures |n.arguments| == 1 && |n.properties| == 0 ==> Head(h, n) == n.name + " " + ValueText(h, n.arguments[0])
    ensures |n.arguments| == 1 && |n.properties| == 1 ==>
      Head(h, n) == n.name + " " + ValueText(h, n.arguments[0]) + PropertyText(h, n.properties[0])
    ensures |n.arguments| == 1 && |n.properties| == 2 ==>
      Head(h, n) == n.name + " " + ValueText(h, n.arguments[0]) + PropertyText(h, n.properties[0]) + PropertyText(h, n.properties[1])
    ensures |n.arguments| == 0 && |n.properties| == 1 ==> Head(h, n) == n.name + PropertyText(h, n.properties[0])
    ensures |n.arguments| == 0 && |n.properties| == 2 ==>
      Head(h, n) == n.name + PropertyText(h, n.properties[0]) + PropertyText(h, n.properties[1])
  {
    hide ValueText, PropertyText;
    NoProperties(h);
    if |n.arguments| == 1 {
      assert n.arguments == [n.arguments[0]];
      OneArgument(h, n.arguments[0]);
    }
    if |n.properties| == 1 {
      assert n.properties == [] + [n.properties[0]];
      PropertiesSnoc(h, [], n.properties[0]);
    }
    if |n.properties| == 2 {
      assert n.properties == [n.properties[0]] + [n.properties[1]];
      PropertiesSnoc(h, [n.properties[0]], n.properties[1]);
      assert [n.properties[0]] == [] + [n.properties[0]];
      PropertiesSnoc(h, [], n.properties[0]);
    }
  }

  lemma {:induction false} NoProperties(h: V.Host)
    ensures PropertiesText(h, []) == "" && ArgumentsText(h, []) == ""
  {}

  // ---------- the writer ----------

  class DocumentWriter {
    const h: V.Host
    var output: string

    constructor (h: V.Host)
      ensures this.h == h && output == ""
    {
      this.h := h;
      output := "";
    }

    method Line(depth: nat, text: string)
      modifies this
      ensures output == old(output) + (Indent(depth) + text + "\n")
    {
      for i := 0 to depth
        invariant output + Indent(depth - i) == old(output) + Indent(depth)
      {
        assert output + ("  " + Indent(depth - i - 1)) == (output + "  ") + Indent(depth - i - 1);
        output := output + "  ";
      }
      assert Indent(0) == "" && output + "" == output;
      assert output + text + "\n" == old(output) + (Indent(depth) + text + "\n");
      output := output + text + "\n";
    }

    method QuotedText(value: string) returns (text: string)
      ensures text == Quote(value)
    {
      hide EscapeChar;
      text := "";
      for i := 0 to |value|
        invariant text + EscapeText(value[i..]) == EscapeText(value)
      {
        assert value[i..][1..] == value[i + 1..];
        text := text + EscapeChar(value[i]);
      }
      text := "\"" + text + "\"";
    }

    /** None is the error of an uninitialised scalar. */
    method ScalarText(value: Scalar) returns (text: Option<string>)
      ensures text == if value.Some? then Some(ValueText(h, value.value)) else None
    {
      if value.None? {
        return None;
      }
      if value.value.KString? {
        var quoted := QuotedText(value.value.s);
        return Some(quoted);
      }
      return Some(ValueText(h, value.value));
    }

    method WriteBuiltinCall(depth: nat, call: BuiltinCall) returns (ok: bool)
      modifies this
      ensures ok == CallOK(call)
      ensures ok ==> output == old(output) + NodeText(h, depth, CallNode(call))
    {
      hide ValueText, Lookup, MinPositional, MaxPositional, ArgumentsText, PropertiesText, EscapeText, Indent, NodeText, ArgumentNames, Required, NamedOK;
      var definition := Lookup(call.name);
      if definition.None? {
        return false;
      }
      var b := definition.value;
      if |call.positional| < MinPositional(b) || (MaxPositional(b).Some? && |call.positional| > MaxPositional(b).value) {
        return false;
      }
      var quoted := QuotedText(call.name);
      var positional := PositionalText(call.positional);
      if positional.None? {
        return false;
      }
      var named := NamedText(b, call.named);
      if named.None? {
        return false;
      }
      var text := "apply " + quoted + positional.value + named.value;
      CallHead(h, call);
      Line(depth, text);
      LeafLine(h, depth, CallNode(call));
      ok := true;
    }

    method WriteValueSource(depth: nat, source: ValueSource) returns (ok: bool)
      modifies this
      ensures ok == !source.NoValue?
      ensures ok ==> output == old(output) + NodeText(h, depth, SourceNode(source))
    {
      hide Indent, NodeText, EscapeText;
      if source.NoValue? {
        return false;
      }
      LeafLine(h, depth, SourceNode(source));
      HeadOf(h, SourceNode(source));
      PlainQuotes();
      if source.TextValue? {
        Line(depth, "value \"text\"");
      } else if source.HTMLValue? {
        Line(depth, "value \"html\"");
      } else {
        var name := QuotedText(source.name);
        assert Head(h, SourceNode(source)) == "value \"attr\" name=" + name;
        Line(depth, "value \"attr\" name=" + name);
      }
      ok := true;
    }

    method WriteField(depth: nat, f: Member) returns (ok: bool)
      requires f.Field?
      modifies this
      ensures ok == FieldOK(f)
      ensures ok ==> output == old(output) + NodeText(h, depth, MemberNode(f))
    {
      hide Indent, NodeText, NodesText, CallOK, MemberNode, EscapeText, FieldChildren;
      if f.mode != "one" && f.mode != "first" {
        return false;
      }
      if f.onError != "fail" && f.onError != "null" && f.onError != "warn" {
        return false;
      }
      var name := QuotedText(f.name);
      var typeName := QuotedText(f.typeName);
      Line(depth, "field " + name + " type=" + typeName + " required=" + BoolText(f.required) + " {");
      ok := WriteFieldBody(depth + 1, f);
      if ok {
        Line(depth, "}");
        FieldLines(h, depth, f);
      }
    }

    method WriteFieldBody(depth: nat, f: Member) returns (ok: bool)
      requires f.Field? && (f.mode == "one" || f.mode == "first") && (f.onError == "fail" || f.onError == "null" || f.onError == "warn")
      modifies this
      ensures ok == FieldOK(f)
      ensures ok ==> output == old(output) + NodesText(h, depth, FieldChildren(f))
    {
      hide Indent, NodeText, NodesText, CallOK, CallNodes, SourceNode, EscapeText;
      ghost var start := output;
      var selector := QuotedText(f.selector);
      var mode := QuotedText(f.mode);
      Line(depth, "select " + selector + " match=" + mode);
      ghost var select := Leaf("select", [K.KString(f.selector)], [TextProperty("match", f.mode)]);
      SelectLine(h, depth, f.selector, f.mode);
      ok := WriteValueSource(depth, f.source);
      if !ok {
        return;
      }
      ghost var first := [select, SourceNode(f.source)];
      TwoNodes(h, depth, select, SourceNode(f.source));
      assert output == start + NodesText(h, depth, first);
      ok := WriteCalls(depth, f.calls, first, start);
      if !ok {
        return;
      }
      ghost var most := first + CallNodes(f.calls);
      if f.onError != "fail" {
        var onError := QuotedText(f.onError);
        Line(depth, "on-error " + onError);
        OnErrorLine(h, depth, f.onError);
        NodesSnoc(h, depth, most, Leaf("on-error", [K.KString(f.onError)], []));
      } else {
        assert most + [] == most;
      }
    }

    method WriteCalls(depth: nat, calls: seq<BuiltinCall>, ghost before: seq<K.Node>, ghost start: string) returns (ok: bool)
      requires output == start + NodesText(h, depth, before)
      modifies this
      ensures ok == forall i | 0 <= i < |calls| :: CallOK(calls[i])
      ensures ok ==> output == start + NodesText(h, depth, before + CallNodes(calls))
    {
      hide NodeText, NodesText, CallOK, CallNode, CallNodes;
      assert before + CallNodes([]) == before;
      for i := 0 to |calls|
        invariant forall k | 0 <= k < i :: CallOK(calls[k])
        invariant output == start + NodesText(h, depth, before + CallNodes(calls[..i]))
      {
        ok := WriteBuiltinCall(depth, calls[i]);
        if !ok {
          return;
        }
        CallNodesSnoc(calls, i);
        assert before + CallNodes(calls[..i + 1]) == before + CallNodes(calls[..i]) + [CallNode(calls[i])];
        NodesSnoc(h, depth, before + CallNodes(calls[..i]), CallNode(calls[i]));
      }
      assert calls[..|calls|] == calls;
      ok := true;
    }

    method CollectionHead(c: Member) returns (text: string)
      requires c.Collection?
      ensures text == "collection " + Quote(c.name) + PropertiesText(h, CollectionProperties(c)) + " {"
    {
      hide EscapeText, IntText, PropertiesText, PropertyText, CollectionProperties;
      var name := QuotedText(c.name);
      var policy := QuotedText(c.onRowError);
      var required := " required=" + BoolText(c.required);
      var min := " min-items=" + IntText(c.minItems);
      var max := if c.maxItems.Some? then " max-items=" + IntText(c.maxItems.value) else "";
      text := "collection " + name + (required + min + max + (" on-row-error=" + policy)) + " {";
      CollectionHeadText(h, c);
    }

    method WriteCollection(depth: nat, c: Member) returns (ok: bool)
      requires c.Collection?
      modifies this
      ensures ok == MemberOK(c)
      ensures ok ==> output == old(output) + NodeText(h, depth, MemberNode(c))
      decreases c, 0
    {
      hide Indent, NodeText, NodesText, MemberNode, CollectionProperties, EscapeText, PropertiesText;
      if c.minItems < 0 {
        return false;
      }
      if c.maxItems.Some? && c.maxItems.value < 0 {
        return false;
      }
      if c.onRowError != "fail" && c.onRowError != "skip" {
        return false;
      }
      var head := CollectionHead(c);
      Line(depth, head);
      ghost var begun := output;
      var selector := QuotedText(c.selector);
      Line(depth + 1, "select " + selector);
      ghost var select := Leaf("select", [K.KString(c.selector)], []);
      RowSelectLine(h, depth + 1, c.selector);
      assert output == begun + NodesText(h, depth + 1, [select]);
      ok := WriteMembers(depth + 1, c.members, [select], begun);
      if !ok {
        return;
      }
      Line(depth, "}");
      CollectionLines(h, depth, c);
    }

    method WriteMembers(depth: nat, members: seq<Member>, ghost before: seq<K.Node>, ghost start: string) returns (ok: bool)
      requires output == start + NodesText(h, depth, before)
      modifies this
      ensures ok == forall i | 0 <= i < |members| :: MemberOK(members[i])
      ensures ok ==> output == start + NodesText(h, depth, before + MemberNodes(members))
      decreases members, 2
    {
      hide NodeText, NodesText, MemberNode, MemberOK, MemberNodes;
      assert before + MemberNodes([]) == before;
      for i := 0 to |members|
        invariant forall k | 0 <= k < i :: MemberOK(members[k])
        invariant output == start + NodesText(h, depth, before + MemberNodes(members[..i]))
      {
        ok := WriteMember(depth, members[i]);
        if !ok {
          return;
        }
        MemberNodesSnoc(members, i);
        assert before + MemberNodes(members[..i + 1]) == before + MemberNodes(members[..i]) + [MemberNode(members[i])];
        NodesSnoc(h, depth, before + MemberNodes(members[..i]), MemberNode(members[i]));
      }
      assert members[..|members|] == members;
      ok := true;
    }

    method WriteMember(depth: nat, m: Member) returns (ok: bool)
      modifies this
      ensures ok == MemberOK(m)
      ensures ok ==> output == old(output) + NodeText(h, depth, MemberNode(m))
      decreases m, 1
    {
      hide NodeText, MemberNode, FieldOK, CollectionOK;
      if m.Field? {
        ok := WriteField(depth, m);
      } else {
        ok := WriteCollection(depth, m);
      }
    }

    method WriteSource(d: Document) returns (ok: bool)
      modifies this
      ensures ok == ((d.fetchMode == "http" || d.fetchMode == "browser") &&
        (d.sessionPolicy == "none" || d.sessionPolicy == "optional" || d.sessionPolicy == "required"))
      ensures ok ==> output == old(output) + NodeText(h, 1, SourceBlock(d))
    {
      hide Indent, NodeText, NodesText, Quote;
      Line(1, "source \"html\" {");
      if d.fetchMode != "http" && d.fetchMode != "browser" {
        return false;
      }
      WriteFetch(d);
      if d.sessionPolicy != "none" && d.sessionPolicy != "optional" && d.sessionPolicy != "required" {
        return false;
      }
      var policy := QuotedText(d.sessionPolicy);
      Line(2, "session policy=" + policy);
      SessionLine(h, d);
      Line(1, "}");
      SourceLines(h, d);
      ok := true;
    }

    method WriteFetch(d: Document)
      modifies this
      ensures output == old(output) + NodeText(h, 2, SourceBlock(d).children[0])
    {
      hide Indent, NodeText, Quote;
      var mode := QuotedText(d.fetchMode);
      var url := QuotedText(d.urlTemplate);
      Line(2, "fetch mode=" + mode + " url=" + url);
      FetchLine(h, d);
    }

    method WriteInputs(inputs: seq<Input>, ghost before: seq<K.Node>, ghost start: string) returns (ok: bool)
      requires output == start + NodesText(h, 1, before)
      modifies this
      ensures ok == forall i | 0 <= i < |inputs| :: InputOK(inputs[i])
      ensures ok ==> output == start + NodesText(h, 1, before + InputNodes(inputs))
    {
      hide NodeText, NodesText, EscapeText, Indent;
      assert before + InputNodes([]) == before;
      for i := 0 to |inputs|
        invariant forall k | 0 <= k < i :: InputOK(inputs[k])
        invariant output == start + NodesText(h, 1, before + InputNodes(inputs[..i]))
      {
        var input := inputs[i];
        if !InputOK(input) {
          return false;
        }
        var name := QuotedText(input.name);
        var typeName := QuotedText(input.typeName);
        Line(1, "input " + name + " type=" + typeName + " required=" + BoolText(input.required));
        InputLine(h, input);
        assert before + InputNodes(inputs[..i + 1]) == before + InputNodes(inputs[..i]) + [InputNode(input)];
        NodesSnoc(h, 1, before + InputNodes(inputs[..i]), InputNode(input));
      }
      assert inputs[..|inputs|] == inputs;
      ok := true;
    }

    /** writeDocument. */
    method WriteDocument(d: Document) returns (ok: bool)
      requires d.languageVersion == LANGUAGE_VERSION
      modifies this
      ensures ok == DocumentOK(d)
      ensures ok ==> output == old(output) + NodeText(h, 0, DocumentNode(d))
    {
      hide Indent, NodeText, NodesText, EscapeText, MemberNode, MemberOK, InputOK, SourceBlock;
      var name := QuotedText(d.name);
      var version := QuotedText(d.version);
      var language := QuotedText(d.languageVersion);
      Line(0, "extractor " + name + " version=" + version + " language-version=" + language + " {");
      ghost var begun := output;
      ok := WriteSource(d);
      if !ok {
        return;
      }
      OneNode(h, 1, SourceBlock(d));
      ok := WriteInputs(d.inputs, [SourceBlock(d)], begun);
      if !ok {
        return;
      }
      ok := WriteMembers(1, d.members, [SourceBlock(d)] + InputNodes(d.inputs), begun);
      if !ok {
        return;
      }
      Line(0, "}");
      DocumentLines(h, d);
    }

    method PositionalText(positional: seq<Scalar>) returns (text: Option<string>)
      ensures text.Some? == (forall i | 0 <= i < |positional| :: positional[i].Some?)
      ensures text.Some? ==> text.value == ArgumentsText(h, Given(positional))
    {
      hide ValueText, Given, ArgumentsText;
      var t := "";
      NoProperties(h);
      assert Given(positional[..0]) == [];
      for i := 0 to |positional|
        invariant forall k | 0 <= k < i :: positional[k].Some?
        invariant t == ArgumentsText(h, Given(positional[..i]))
      {
        var scalar := ScalarText(positional[i]);
        if scalar.None? {
          return None;
        }
        GivenSnoc(positional, i);
        ArgumentsSnoc(h, Given(positional[..i]), positional[i].value);
        t := t + (" " + scalar.value);
      }
      assert positional[..|positional|] == positional;
      return Some(t);
    }

    method NamedText(b: Builtin, named: map<string, Scalar>) returns (text: Option<string>)
      ensures text.Some? == ((forall name | name in Required(b) :: name in named) && forall name | name in named :: NamedOK(b, name, named[name]))
      ensures text.Some? ==> text.value == PropertiesText(h, NamedProperties(ArgumentNames(b), named))
    {
      hide ValueText, Meets, InCatalogRange, Required, Allowed, ArgumentNames, NamedOK;
      var names := ArgumentNames(b);
      var t := "";
      ghost var done: seq<K.Property> := [];
      assert names[..0] == [];
      for i := 0 to |names|
        invariant forall k | 0 <= k < i :: (names[k] in Required(b) ==> names[k] in named) && (names[k] in named ==> NamedOK(b, names[k], named[names[k]]))
        invariant t == PropertiesText(h, NamedProperties(names[..i], named))
      {
        var name := names[i];
        assert names[..i + 1] == names[..i] + [name];
        NamedSnoc(names[..i], name, named);
        if name !in named {
          if name in Required(b) {
            return None;
          }
          assert NamedProperties(names[..i], named) + [] == NamedProperties(names[..i], named);
          continue;
        }
        if !NamedOK(b, name, named[name]) {
          return None;
        }
        SomeWhenOK(b, name, named[name]);
        var scalar := ScalarText(named[name]);
        PropertiesSnoc(h, NamedProperties(names[..i], named), K.Property(name, named[name].value));
        t := t + (" " + name + "=" + scalar.value);
      }
      assert names[..|names|] == names;
      if exists name :: name in named && name !in names {
        UnknownName(b, named);
        return None;
      }
      RequiredAreListed(b);
      return Some(t);
    }
  }

  lemma {:induction false} NamedSnoc(names: seq<string>, name: string, named: map<string, Scalar>)
    ensures NamedProperties(names + [name], named) == NamedProperties(names, named) +
      if name in named && named[name].Some? then [K.Property(name, named[name].value)] else []
  {
    if names == [] {
      assert names + [name] == [name] && [name][1..] == [];
    } else {
      assert (names + [name])[1..] == names[1..] + [name];
      NamedSnoc(names[1..], name, named);
    }
  }

  lemma {:induction false} SomeWhenOK(b: Builtin, name: string, v: Scalar)
    requires NamedOK(b, name, v)
    ensures v.Some?
  {}

  lemma {:induction false} UnknownName(b: Builtin, named: map<string, Scalar>)
    requires exists name :: name in named && name !in ArgumentNames(b)
    ensures !(forall name | name in named :: NamedOK(b, name, named[name]))
  {
    hide ArgumentNames, Allowed, Meets, InCatalogRange;
    var name :| name in named && name !in ArgumentNames(b);
    CatalogIsComplete(b, name);
  }

  lemma {:induction false} RequiredAreListed(b: Builtin)
    ensures forall name | name in Required(b) :: name in ArgumentNames(b)
  {}

  lemma {:induction false} CallHead(h: V.Host, call: BuiltinCall)
    requires CallOK(call)
    ensures Head(h, CallNode(call)) ==
      "apply " + Quote(call.name) + ArgumentsText(h, Given(call.positional)) +
      PropertiesText(h, NamedProperties(ArgumentNames(Lookup(call.name).value), call.named))
  {
    hide Lookup, ArgumentNames, NamedProperties, PropertiesText, EscapeText;
    var a := [K.KString(call.name)] + Given(call.positional);
    assert a[1..] == Given(call.positional);
    assert ArgumentsText(h, a) == " " + Quote(call.name) + ArgumentsText(h, Given(call.positional));
  }

  /** Write: None is an error. */
  method Write(h: V.Host, d: Document) returns (text: Option<string>)
    ensures text.Some? == DocumentOK(d)
    ensures text.Some? ==> text.value == NodesText(h, 0, [DocumentNode(d)])
  {
    hide NodeText, NodesText, DocumentNode;
    if d.languageVersion != LANGUAGE_VERSION {
      return None;
    }
    var writer := new DocumentWriter(h);
    var ok := writer.WriteDocument(d);
    if !ok {
      return None;
    }
    OneNode(h, 0, DocumentNode(d));
    assert "" + NodeText(h, 0, DocumentNode(d)) == NodeText(h, 0, DocumentNode(d));
    return Some(writer.output);
  }

  // ---------- each kind of line ----------

  lemma {:induction false} OneNode(h: V.Host, depth: nat, n: K.Node)
    ensures NodesText(h, depth, [n]) == NodeText(h, depth, n)
  {
    hide NodeText;
    assert [n][1..] == [];
    assert NodeText(h, depth, n) + "" == NodeText(h, depth, n);
  }

  lemma {:induction false} TwoNodes(h: V.Host, depth: nat, a: K.Node, b: K.Node)
    ensures NodesText(h, depth, [a, b]) == NodeText(h, depth, a) + NodeText(h, depth, b)
  {
    hide NodeText;
    OneNode(h, depth, a);
    NodesSnoc(h, depth, [a], b);
    assert [a] + [b] == [a, b];
  }

  lemma {:induction false} Unescaped(s: string)
    requires forall i | 0 <= i < |s| :: 'a' <= s[i] <= 'z'
    ensures EscapeText(s) == s
  {
    if s != "" {
      Unescaped(s[1..]);
      assert s == [s[0]] + s[1..];
    }
  }

  lemma {:induction false} PlainQuotes()
    ensures Quote("text") == "\"text\"" && Quote("html") == "\"html\"" && Quote("attr") == "\"attr\""
  {
    Unescaped("text");
    Unescaped("html");
    Unescaped("attr");
  }

  lemma {:induction false} GivenSnoc(scalars: seq<Scalar>, i: nat)
    requires i < |scalars| && forall k | 0 <= k <= i :: scalars[k].Some?
    ensures Given(scalars[..i + 1]) == Given(scalars[..i]) + [scalars[i].value]
  {
    hide Given;
  }

  lemma {:induction false} SelectLine(h: V.Host, depth: nat, selector: string, mode: string)
    ensures NodeText(h, depth, Leaf("select", [K.KString(selector)], [TextProperty("match", mode)])) ==
      Indent(depth) + ("select " + Quote(selector) + " match=" + Quote(mode)) + "\n"
  {
    hide Indent, EscapeText, Head, PropertyText, NodeText;
    var n := Leaf("select", [K.KString(selector)], [TextProperty("match", mode)]);
    LeafLine(h, depth, n);
    HeadOf(h, n);
    MatchText(h, mode);
    assert "select" + " " == "select ";
    assert "select " + Quote(selector) + (" match=" + Quote(mode)) == "select " + Quote(selector) + " match=" + Quote(mode);
  }

  lemma {:induction false} MatchText(h: V.Host, mode: string)
    ensures PropertyText(h, TextProperty("match", mode)) == " match=" + Quote(mode)
  {
    hide EscapeText;
  }

  lemma {:induction false} OnErrorLine(h: V.Host, depth: nat, policy: string)
    ensures NodeText(h, depth, Leaf("on-error", [K.KString(policy)], [])) == Indent(depth) + ("on-error " + Quote(policy)) + "\n"
  {
    hide Indent, EscapeText, Head;
    var n := Leaf("on-error", [K.KString(policy)], []);
    LeafLine(h, depth, n);
    HeadOf(h, n);
    assert Head(h, n) == "on-error " + Quote(policy);
  }

  lemma {:induction false} RowSelectLine(h: V.Host, depth: nat, selector: string)
    ensures NodesText(h, depth, [Leaf("select", [K.KString(selector)], [])]) == Indent(depth) + ("select " + Quote(selector)) + "\n"
  {
    hide Indent, EscapeText, Head, NodeText, NodesText;
    var n := Leaf("select", [K.KString(selector)], []);
    OneNode(h, depth, n);
    LeafLine(h, depth, n);
    HeadOf(h, n);
    assert Head(h, n) == "select " + Quote(selector);
  }

  lemma {:induction false} CallNodesSnoc(calls: seq<BuiltinCall>, i: nat)
    requires i < |calls| && forall k | 0 <= k <= i :: CallOK(calls[k])
    ensures CallNodes(calls[..i + 1]) == CallNodes(calls[..i]) + [CallNode(calls[i])]
  {
    hide CallNodes, CallNode, CallOK;
  }

  lemma {:induction false} MemberNodesSnoc(members: seq<Member>, i: nat)
    requires i < |members| && forall k | 0 <= k <= i :: MemberOK(members[k])
    ensures MemberNodes(members[..i + 1]) == MemberNodes(members[..i]) + [MemberNode(members[i])]
  {
    hide MemberNodes, MemberNode, MemberOK;
  }

  lemma {:induction false} PropertyTexts(h: V.Host, typeName: string, required: bool)
    ensures PropertyText(h, TextProperty("type", typeName)) == " type=" + Quote(typeName)
    ensures PropertyText(h, K.Property("required", K.KBool(required))) == " required=" + BoolText(required)
  {
    hide EscapeText;
  }

  /** The heads of inputs and fields. */
  lemma {:induction false} TypedHead(h: V.Host, n: K.Node, name: string, typeName: string, required: bool)
    requires n.arguments == [K.KString(name)]
    requires n.properties == [TextProperty("type", typeName), K.Property("required", K.KBool(required))]
    ensures Head(h, n) == n.name + " " + Quote(name) + " type=" + Quote(typeName) + " required=" + BoolText(required)
  {
    hide Head, EscapeText, PropertyText, BoolText;
    HeadOf(h, n);
    PropertyTexts(h, typeName, required);
    Joined(n.name + " " + Quote(name), " type=", Quote(typeName), " required=", BoolText(required));
  }

  lemma {:induction false} Joined(a: string, b: string, c: string, d: string, e: string)
    ensures a + (b + c) + (d + e) == a + b + c + d + e
  {}

  lemma {:induction false} InputLine(h: V.Host, input: Input)
    ensures NodeText(h, 1, InputNode(input)) ==
      Indent(1) + ("input " + Quote(input.name) + " type=" + Quote(input.typeName) + " required=" + BoolText(input.required)) + "\n"
  {
    hide Indent, EscapeText, Head, NodeText, BoolText;
    var n := InputNode(input);
    LeafLine(h, 1, n);
    TypedHead(h, n, input.name, input.typeName, input.required);
    assert "input" + " " == "input ";
  }

  lemma {:induction false} FieldLines(h: V.Host, depth: nat, f: Member)
    requires f.Field? && FieldOK(f)
    ensures NodeText(h, depth, MemberNode(f)) ==
      (Indent(depth) + ("field " + Quote(f.name) + " type=" + Quote(f.typeName) + " required=" + BoolText(f.required) + " {") + "\n") +
      NodesText(h, depth + 1, FieldChildren(f)) + (Indent(depth) + "}" + "\n")
  {
    hide Indent, EscapeText, Head, NodeText, NodesText, FieldChildren, FieldOK, BoolText;
    var n := MemberNode(f);
    assert n.children != [] by { FieldHasChildren(f); }
    BlockLines(h, depth, n);
    TypedHead(h, n, f.name, f.typeName, f.required);
    assert "field" + " " == "field ";
  }

  lemma {:induction false} FieldHasChildren(f: Member)
    requires f.Field? && FieldOK(f)
    ensures FieldChildren(f) != []
  {}

  lemma {:induction false} CollectionHeadText(h: V.Host, c: Member)
    requires c.Collection?
    ensures PropertiesText(h, CollectionProperties(c)) ==
      " required=" + BoolText(c.required) + (" min-items=" + IntText(c.minItems)) +
      (if c.maxItems.Some? then " max-items=" + IntText(c.maxItems.value) else "") + (" on-row-error=" + Quote(c.onRowError))
  {
    hide EscapeText, IntText, PropertiesText, PropertyText, BoolText;
    var required, min := K.Property("required", K.KBool(c.required)), K.Property("min-items", K.KInt(c.minItems));
    var policy := TextProperty("on-row-error", c.onRowError);
    CollectionTexts(h, c);
    TwoProperties(h, required, min);
    if c.maxItems.Some? {
      var max := K.Property("max-items", K.KInt(c.maxItems.value));
      PropertiesSnoc(h, [required, min], max);
      PropertiesSnoc(h, [required, min] + [max], policy);
    } else {
      PropertiesSnoc(h, [required, min], policy);
      assert [required, min] + [] + [policy] == [required, min] + [policy];
      assert PropertiesText(h, [required, min]) + "" == PropertiesText(h, [required, min]);
    }
  }

  lemma {:induction false} TwoProperties(h: V.Host, p: K.Property, q: K.Property)
    ensures PropertiesText(h, [p, q]) == PropertyText(h, p) + PropertyText(h, q)
  {
    hide PropertyText, PropertiesText;
    NoProperties(h);
    PropertiesSnoc(h, [], p);
    assert [] + [p] == [p] && "" + PropertyText(h, p) == PropertyText(h, p);
    PropertiesSnoc(h, [p], q);
    assert [p] + [q] == [p, q];
  }

  lemma {:induction false} CollectionTexts(h: V.Host, c: Member)
    requires c.Collection?
    ensures PropertyText(h, K.Property("required", K.KBool(c.required))) == " required=" + BoolText(c.required)
    ensures PropertyText(h, K.Property("min-items", K.KInt(c.minItems))) == " min-items=" + IntText(c.minItems)
    ensures c.maxItems.Some? ==> PropertyText(h, K.Property("max-items", K.KInt(c.maxItems.value))) == " max-items=" + IntText(c.maxItems.value)
    ensures PropertyText(h, TextProperty("on-row-error", c.onRowError)) == " on-row-error=" + Quote(c.onRowError)
  {
    hide EscapeText, IntText, PropertyText;
    PropertyTexts(h, "", c.required);
    CountTexts(h, c.minItems);
    if c.maxItems.Some? {
      CountTexts(h, c.maxItems.value);
    }
    PolicyTexts(h, c.onRowError);
  }

  lemma {:induction false} CountTexts(h: V.Host, n: int)
    ensures PropertyText(h, K.Property("min-items", K.KInt(n))) == " min-items=" + IntText(n)
    ensures PropertyText(h, K.Property("max-items", K.KInt(n))) == " max-items=" + IntText(n)
  {
    hide IntText;
  }

  lemma {:induction false} PolicyTexts(h: V.Host, policy: string)
    ensures PropertyText(h, TextProperty("on-row-error", policy)) == " on-row-error=" + Quote(policy)
  {
    hide EscapeText;
  }

  lemma {:induction false} CollectionLines(h: V.Host, depth: nat, c: Member)
    requires c.Collection? && MemberOK(c)
    ensures NodeText(h, depth, MemberNode(c)) ==
      (Indent(depth) + ("collection " + Quote(c.name) + PropertiesText(h, CollectionProperties(c)) + " {") + "\n") +
      NodesText(h, depth + 1, [Leaf("select", [K.KString(c.selector)], [])] + MemberNodes(c.members)) + (Indent(depth) + "}" + "\n")
  {
    hide Indent, EscapeText, NodeText, NodesText, CollectionProperties, PropertiesText;
    var n := MemberNode(c);
    BlockLines(h, depth, n);
    OneArgument(h, K.KString(c.name));
    assert Head(h, n) == "collection " + Quote(c.name) + PropertiesText(h, CollectionProperties(c));
  }

  lemma {:induction false} FetchLine(h: V.Host, d: Document)
    ensures NodeText(h, 2, SourceBlock(d).children[0]) ==
      Indent(2) + ("fetch mode=" + Quote(d.fetchMode) + " url=" + Quote(d.urlTemplate)) + "\n"
  {
    hide Indent, EscapeText, Head, NodeText;
    var fetch := SourceBlock(d).children[0];
    LeafLine(h, 2, fetch);
    HeadOf(h, fetch);
    assert Head(h, fetch) == "fetch mode=" + Quote(d.fetchMode) + " url=" + Quote(d.urlTemplate);
  }

  lemma {:induction false} SessionLine(h: V.Host, d: Document)
    ensures NodeText(h, 2, SourceBlock(d).children[1]) == Indent(2) + ("session policy=" + Quote(d.sessionPolicy)) + "\n"
  {
    hide Indent, EscapeText, Head, NodeText;
    var session := SourceBlock(d).children[1];
    LeafLine(h, 2, session);
    HeadOf(h, session);
    assert Head(h, session) == "session policy=" + Quote(d.sessionPolicy);
  }

  lemma {:induction false} SourceLines(h: V.Host, d: Document)
    ensures NodeText(h, 1, SourceBlock(d)) ==
      (Indent(1) + "source \"html\" {" + "\n") +
      NodeText(h, 2, SourceBlock(d).children[0]) + NodeText(h, 2, SourceBlock(d).children[1]) +
      (Indent(1) + "}" + "\n")
  {
    hide Indent, EscapeText, Head, NodeText, NodesText;
    var n := SourceBlock(d);
    BlockLines(h, 1, n);
    HeadOf(h, n);
    PlainQuotes();
    assert Head(h, n) + " {" == "source \"html\" {";
    TwoNodes(h, 2, n.children[0], n.children[1]);
  }

  lemma {:induction false} DocumentLines(h: V.Host, d: Document)
    requires DocumentOK(d)
    ensures NodeText(h, 0, DocumentNode(d)) ==
      (Indent(0) + ("extractor " + Quote(d.name) + " version=" + Quote(d.version) + " language-version=" + Quote(d.languageVersion) + " {") + "\n") +
      NodesText(h, 1, [SourceBlock(d)] + InputNodes(d.inputs) + MemberNodes(d.members)) + (Indent(0) + "}" + "\n")
  {
    hide Indent, EscapeText, Head, NodeText, NodesText, MemberNode, MemberOK, SourceBlock;
    var n := DocumentNode(d);
    BlockLines(h, 0, n);
    HeadOf(h, n);
    assert Head(h, n) == "extractor " + Quote(d.name) + " version=" + Quote(d.version) + " language-version=" + Quote(d.languageVersion);
  }

  // ---------- round trip ----------

  /** Go's int64 and finite float64 scalars. */
  predicate SizedScalar(h: V.Host, v: Scalar) {
    v.Some? ==> PrintableValue(h, v.value)
  }

  predicate SizedCall(h: V.Host, call: BuiltinCall) {
    && (forall i | 0 <= i < |call.positional| :: SizedScalar(h, call.positional[i]))
    && forall name | name in call.named :: SizedScalar(h, call.named[name])
  }

  /** The Go types of the model, which Dafny's integers do not bound. */
  predicate Sized(h: V.Host, m: Member) {
    match m
    case Field(_, _, _, _, _, _, calls, _) => forall i | 0 <= i < |calls| :: SizedCall(h, calls[i])
    case Collection(_, _, _, min, max, _, members) =>
      V.InRange(V.I64, min) && (max.Some? ==> V.InRange(V.I64, max.value)) && forall i | 0 <= i < |members| :: Sized(h, members[i])
  }

  lemma {:induction false} PlainNodeNames()
    ensures PlainName("extractor") && PlainName("source") && PlainName("fetch") && PlainName("session") && PlainName("input")
    ensures PlainName("field") && PlainName("collection") && PlainName("select") && PlainName("value") && PlainName("on-error") && PlainName("apply")
  {}

  lemma {:induction false} PlainPropertyNames()
    ensures PlainName("version") && PlainName("language-version") && PlainName("mode") && PlainName("url") && PlainName("policy")
    ensures PlainName("type") && PlainName("required") && PlainName("match") && PlainName("name")
  {}

  lemma {:induction false} PlainBoundNames()
    ensures PlainName("min-items") && PlainName("max-items") && PlainName("on-row-error")
  {}

  lemma {:induction false} NamedPrintable(h: V.Host, names: seq<string>, named: map<string, Scalar>)
    requires forall i | 0 <= i < |names| :: PlainName(names[i])
    requires forall name | name in named :: SizedScalar(h, named[name])
    ensures forall p | p in NamedProperties(names, named) :: PlainName(p.name) && PrintableValue(h, p.value)
  {
    hide PlainName, PrintableValue;
    if names != [] {
      NamedPrintable(h, names[1..], named);
    }
  }

  lemma {:induction false} CallPrintable(h: V.Host, call: BuiltinCall)
    requires CallOK(call) && SizedCall(h, call)
    ensures Printable(h, CallNode(call))
  {
    hide PlainName, PrintableValue, ArgumentNames, Lookup, NamedProperties, NamedOK;
    PlainNodeNames();
    var b := Lookup(call.name).value;
    CatalogNamesArePlain(b);
    NamedPrintable(h, ArgumentNames(b), call.named);
    StringPrintable(h, call.name);
    var n := CallNode(call);
    forall i | 0 <= i < |n.arguments| ensures PrintableValue(h, n.arguments[i]) {
      if i > 0 {
        assert n.arguments[i] == call.positional[i - 1].value && SizedScalar(h, call.positional[i - 1]);
      }
    }
    forall i | 0 <= i < |n.properties| ensures PlainName(n.properties[i].name) && PrintableValue(h, n.properties[i].value) {
      assert n.properties[i] in NamedProperties(ArgumentNames(b), call.named);
    }
  }

  lemma {:induction false} StringPrintable(h: V.Host, s: string)
    ensures PrintableValue(h, K.KString(s))
  {}

  lemma {:induction false} FieldPrintable(h: V.Host, f: Member)
    requires f.Field? && FieldOK(f) && Sized(h, f)
    ensures Printable(h, MemberNode(f))
  {
    hide PlainName, CallOK, SizedCall, CallNode;
    PlainNodeNames();
    PlainPropertyNames();
    var children := FieldChildren(f);
    forall i | 0 <= i < |children| ensures Printable(h, children[i]) {
      if 2 <= i < 2 + |f.calls| {
        assert children[i] == CallNode(f.calls[i - 2]);
        CallPrintable(h, f.calls[i - 2]);
      }
    }
  }

  lemma {:induction false} MemberPrintable(h: V.Host, m: Member)
    requires MemberOK(m) && Sized(h, m)
    ensures Printable(h, MemberNode(m))
  {
    hide PlainName, FieldOK;
    if m.Field? {
      FieldPrintable(h, m);
    } else {
      PlainNodeNames();
      PlainPropertyNames();
      PlainBoundNames();
      var select := Leaf("select", [K.KString(m.selector)], []);
      var children := [select] + MemberNodes(m.members);
      forall i | 0 <= i < |children| ensures Printable(h, children[i]) {
        if i > 0 {
          assert children[i] == MemberNode(m.members[i - 1]);
          MemberPrintable(h, m.members[i - 1]);
        } else {
          assert Printable(h, select);
        }
      }
      assert MemberNode(m).children == children;
    }
  }

  lemma {:induction false} DocumentPrintable(h: V.Host, d: Document)
    requires DocumentOK(d) && forall i | 0 <= i < |d.members| :: Sized(h, d.members[i])
    ensures Printable(h, DocumentNode(d))
  {
    hide PlainName, MemberOK, MemberNode, Sized;
    PlainNodeNames();
    PlainPropertyNames();
    var children := [SourceBlock(d)] + InputNodes(d.inputs) + MemberNodes(d.members);
    forall i | 0 <= i < |children| ensures Printable(h, children[i]) {
      var j := i - 1 - |d.inputs|;
      if j >= 0 {
        assert children[i] == MemberNode(d.members[j]);
        MemberPrintable(h, d.members[j]);
      } else if i > 0 {
        assert children[i] == InputNode(d.inputs[i - 1]);
      } else {
        assert Printable(h, SourceBlock(d));
      }
    }
  }

  /** Every document the writer accepts is read back as the tree it stands for, without reports. */
  lemma {:induction false} WriteThenParse(h: V.Host, d: Document)
    requires FloatsReadBack(h) && DocumentOK(d) && forall i | 0 <= i < |d.members| :: Sized(h, d.members[i])
    ensures Parse(h, NodesText(h, 0, [DocumentNode(d)])) == ([DocumentNode(d)], [])
  {
    hide FloatsReadBack, DocumentOK, DocumentNode, Printable, Sized, Parse, NodesText;
    DocumentPrintable(h, d);
    PrintThenParse(h, [DocumentNode(d)]);
  }
}
