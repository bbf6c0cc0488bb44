/** URL templates: internal/compiler/source.go and internal/executor/template.go. */
module Template {
  import opened Options
  import opened Text
  import opened Utf8

  datatype Segment = Literal(text: string) | Placeholder(name: string)

  /** A declared input, as far as templates care: it is required or has a default. */
  datatype Input = Input(required: bool, hasDefault: bool)

  predicate Usable(inputs: map<string, Input>, name: string) {
    Identifier(name) && name in inputs && (inputs[name].required || inputs[name].hasDefault)
  }

  // ---------- compiling ----------

  /** The offset of the first `c`, or the length. */
  function Find(s: string, c: char): (i: nat)
    ensures i <= |s| && (i < |s| ==> s[i] == c) && forall k | 0 <= k < i :: s[k] != c
  {
    if s == "" || s[0] == c then 0 else 1 + Find(s[1..], c)
  }

  function Flush(literal: string): seq<Segment> {
    if literal == "" then [] else [Literal(literal)]
  }

  /** The segments of the rest of a template, after a pending literal. */
  function Scan(raw: string, literal: string): seq<Segment>
    decreases |raw|
  {
    if raw == "" then Flush(literal)
    else if Doubled(raw) then Scan(raw[2..], literal + [raw[0]])
    else if raw[0] == '{' then
      var end := Find(raw[1..], '}');
      if end == |raw| - 1 then Flush(literal) + [Literal(raw)]
      else Flush(literal) + [Placeholder(raw[1..end + 1])] + Scan(raw[end + 2..], "")
    else if raw[0] == '}' then Scan(raw[1..], literal)
    else Scan(raw[1..], literal + [raw[0]])
  }

  /** `{{` or `}}`. */
  predicate Doubled(raw: string) {
    |raw| >= 2 && raw[0] == raw[1] && (raw[0] == '{' || raw[0] == '}')
  }

  /** Whether the scan reports nothing. */
  predicate Clean(raw: string, inputs: map<string, Input>)
    decreases |raw|
  {
    if raw == "" then true
    else if Doubled(raw) then Clean(raw[2..], inputs)
    else if raw[0] == '{' then
      var end := Find(raw[1..], '}');
      end < |raw| - 1 && Usable(inputs, raw[1..end + 1]) && Clean(raw[end + 2..], inputs)
    else if raw[0] == '}' then false
    else Clean(raw[1..], inputs)
  }

  /** compileTemplate: the scan with index, pending literal and flush. Each report is a code. */
  method CompileTemplate(raw: string, inputs: map<string, Input>, httpURL: string -> bool)
    returns (segments: seq<Segment>, diags: seq<string>)
    ensures segments == Scan(raw, "")
    ensures diags == [] <==> Clean(raw, inputs) && httpURL(Probe(segments))
  {
    hide Usable, Scan, Clean, Find, Flush, Probe;
    segments, diags := [], [];
    var literal := "";
    var i := 0;
    assert Flush("") == [] by { FlushNothing(); }
    assert raw[0..] == raw;
    while i < |raw|
      invariant i <= |raw|
      invariant segments + Scan(raw[i..], literal) == Scan(raw, "")
      invariant diags == [] && Clean(raw[i..], inputs) <==> Clean(raw, inputs)
    {
      var rest := raw[i..];
      ScanStep(rest, literal, inputs);
      if raw[i] == '{' {
        if i + 1 < |raw| && raw[i + 1] == '{' {
          literal := literal + "{";
          assert rest[2..] == raw[i + 2..];
          i := i + 2;
        } else {
          ghost var before := segments;
          segments := segments + Flush(literal);
          ghost var pending := Flush(literal);
          literal := "";
          assert rest[1..] == raw[i + 1..];
          var end := Find(raw[i + 1..], '}');
          if i + 1 + end == |raw| {
            diags := diags + ["E_TEMPLATE_INVALID"];
            literal := rest;
            ScanStep("", rest, inputs);
            assert raw[|raw|..] == "" && before + (pending + Flush(rest)) == segments + Flush(rest);
            i := |raw|;
          } else {
            var name := raw[i + 1..i + 1 + end];
            assert name == rest[1..end + 1] && rest[end + 2..] == raw[i + end + 2..];
            var reports := CheckPlaceholder(name, inputs);
            diags := diags + reports;
            ghost var next := Scan(raw[i + end + 2..], "");
            assert before + (pending + [Placeholder(name)] + next) == segments + [Placeholder(name)] + next;
            segments := segments + [Placeholder(name)];
            i := i + 1 + end + 1;
          }
        }
      } else if raw[i] == '}' {
        if i + 1 < |raw| && raw[i + 1] == '}' {
          literal := literal + "}";
          assert rest[2..] == raw[i + 2..];
          i := i + 2;
        } else {
          diags := diags + ["E_TEMPLATE_INVALID"];
          assert rest[1..] == raw[i + 1..];
          i := i + 1;
        }
      } else {
        literal := literal + [raw[i]];
        assert rest[1..] == raw[i + 1..];
        i := i + 1;
      }
    }
    assert raw[|raw|..] == "";
    ScanStep("", literal, inputs);
    segments := segments + Flush(literal);
    if !httpURL(Probe(segments)) {
      diags := diags + ["E_TEMPLATE_INVALID"];
    }
  }

  lemma {:induction false} FlushNothing()
    ensures Flush("") == []
  {}

  method CheckPlaceholder(name: string, inputs: map<string, Input>) returns (reports: seq<string>)
    ensures reports == [] <==> Usable(inputs, name)
  {
    hide Identifier;
    reports := [];
    if !Identifier(name) {
      reports := ["E_TEMPLATE_INVALID"];
    } else if name !in inputs {
      reports := ["E_INPUT_UNDECLARED"];
    } else if !inputs[name].required && !inputs[name].hasDefault {
      reports := ["E_TEMPLATE_OPTIONAL_INPUT"];
    }
  }

  lemma {:induction false} ScanStep(raw: string, literal: string, inputs: map<string, Input>)
    ensures raw == "" ==> Scan(raw, literal) == Flush(literal) && Clean(raw, inputs)
    ensures Doubled(raw) ==>
      Scan(raw, literal) == Scan(raw[2..], literal + [raw[0]]) && Clean(raw, inputs) == Clean(raw[2..], inputs)
    ensures raw != "" && !Doubled(raw) && raw[0] == '{' ==>
      var end := Find(raw[1..], '}');
      if end == |raw| - 1 then Scan(raw, literal) == Flush(literal) + Flush(raw) && !Clean(raw, inputs)
      else Scan(raw, literal) == Flush(literal) + [Placeholder(raw[1..end + 1])] + Scan(raw[end + 2..], "") &&
           Clean(raw, inputs) == (Usable(inputs, raw[1..end + 1]) && Clean(raw[end + 2..], inputs))
    ensures raw != "" && !Doubled(raw) && raw[0] == '}' ==> Scan(raw, literal) == Scan(raw[1..], literal) && !Clean(raw, inputs)
    ensures raw != "" && raw[0] != '{' && raw[0] != '}' ==>
      Scan(raw, literal) == Scan(raw[1..], literal + [raw[0]]) && Clean(raw, inputs) == Clean(raw[1..], inputs)
  {
    hide Usable;
  }

  // ---------- the text a segment list stands for ----------

  function EscapeChar(c: char): string {
    if c == '{' then "{{" else if c == '}' then "}}" else [c]
  }

  function EscapeText(s: string): string {
    if s == "" then "" else EscapeChar(s[0]) + EscapeText(s[1..])
  }

  function Escape(segments: seq<Segment>): string {
    if segments == [] then "" else
      (match segments[0]
       case Literal(text) => EscapeText(text)
       case Placeholder(name) => "{" + name + "}") + Escape(segments[1..])
  }

  /** Non-empty literals, never two in a row, and placeholders that can be expanded. */
  predicate Normal(segments: seq<Segment>, inputs: map<string, Input>) {
    && (forall i | 0 <= i < |segments| ::
          match segments[i] case Literal(text) => text != "" case Placeholder(name) => Usable(inputs, name))
    && (forall i | 0 <= i < |segments| - 1 :: segments[i].Placeholder? || segments[i + 1].Placeholder?)
  }

  lemma {:induction false} EscapeTextSnoc(s: string, c: char)
    ensures EscapeText(s + [c]) == EscapeText(s) + EscapeChar(c)
  {
    if s == "" {
      assert s + [c] == [c] && [c][1..] == "";
    } else {
      assert (s + [c])[1..] == s[1..] + [c];
      EscapeTextSnoc(s[1..], c);
    }
  }

  lemma {:induction false} EscapeJoins(a: seq<Segment>, b: seq<Segment>)
    ensures Escape(a + b) == Escape(a) + Escape(b)
  {
    if a == [] {
      assert a + b == b;
    } else {
      assert (a + b)[1..] == a[1..] + b;
      EscapeJoins(a[1..], b);
    }
  }

  lemma {:induction false} EscapeFlush(literal: string)
    ensures Escape(Flush(literal)) == EscapeText(literal)
  {
    if literal != "" {
      assert Flush(literal)[1..] == [];
    }
  }

  /** A template without reports is the escaped form of its segments. */
  lemma {:induction false} CompileThenEscape(raw: string, literal: string, inputs: map<string, Input>)
    requires Clean(raw, inputs)
    ensures Escape(Scan(raw, literal)) == EscapeText(literal) + raw
    decreases |raw|
  {
    hide Usable, Scan, Clean, Escape, EscapeText, Find;
    ScanStep(raw, literal, inputs);
    if raw == "" {
      EscapeFlush(literal);
      assert EscapeText(literal) + raw == EscapeText(literal);
    } else if raw[0] == '{' && !Doubled(raw) {
      var end := Find(raw[1..], '}');
      CompileThenEscape(raw[end + 2..], "", inputs);
      EscapePlaceholder(literal, raw[1..end + 1], Scan(raw[end + 2..], ""));
      TakenApart(raw, end, EscapeText(literal));
    } else {
      var n := if Doubled(raw) then 2 else 1;
      CompileThenEscape(raw[n..], literal + [raw[0]], inputs);
      EscapeTextSnoc(literal, raw[0]);
      PutBack(EscapeText(literal), raw, n);
    }
  }

  lemma {:induction false} PutBack(before: string, raw: string, n: nat)
    requires raw != "" && n == if Doubled(raw) then 2 else 1
    requires !Doubled(raw) ==> raw[0] != '{' && raw[0] != '}'
    ensures before + EscapeChar(raw[0]) + raw[n..] == before + raw
  {}

  lemma {:induction false} TakenApart(raw: string, end: nat, before: string)
    requires raw != "" && raw[0] == '{' && end == Find(raw[1..], '}') && end < |raw| - 1
    ensures before + ("{" + raw[1..end + 1] + "}") + ("" + raw[end + 2..]) == before + raw
  {
    assert raw[end + 1] == raw[1..][end];
  }

  lemma {:induction false} EscapePlaceholder(literal: string, name: string, rest: seq<Segment>)
    ensures Escape(Flush(literal) + [Placeholder(name)] + rest) == EscapeText(literal) + ("{" + name + "}") + Escape(rest)
    ensures EscapeText("") == ""
  {
    var one := [Placeholder(name)];
    assert one[1..] == [];
    assert Escape(one) == "{" + name + "}" + "";
    EscapeFlush(literal);
    EscapeJoins(Flush(literal) + one, rest);
    EscapeJoins(Flush(literal), one);
  }

  /** ... and those segments are in normal form. */
  lemma {:induction false} ScanIsNormal(raw: string, literal: string, inputs: map<string, Input>)
    requires Clean(raw, inputs)
    ensures Normal(Scan(raw, literal), inputs)
    decreases |raw|
  {
    hide Usable;
    if raw == "" {
    } else if Doubled(raw) {
      ScanIsNormal(raw[2..], literal + [raw[0]], inputs);
    } else if raw[0] == '{' {
      ScanIsNormal(raw[Find(raw[1..], '}') + 2..], "", inputs);
    } else {
      ScanIsNormal(raw[1..], literal + [raw[0]], inputs);
    }
  }

  /** Scanning an escaped literal collects it, whatever follows. */
  lemma {:induction false} ScanLiteral(text: string, rest: string, literal: string, inputs: map<string, Input>)
    ensures Scan(EscapeText(text) + rest, literal) == Scan(rest, literal + text)
    ensures Clean(EscapeText(text) + rest, inputs) == Clean(rest, inputs)
    decreases |text|
  {
    hide Usable, Scan, Clean, Find;
    if text == "" {
      assert EscapeText(text) + rest == rest && literal + text == literal;
    } else {
      var tail := EscapeText(text[1..]) + rest;
      EscapedHead(text, rest);
      ScanStep(EscapeText(text) + rest, literal, inputs);
      assert (literal + [text[0]]) + text[1..] == literal + text;
      ScanLiteral(text[1..], rest, literal + [text[0]], inputs);
    }
  }

  lemma {:induction false} EscapedHead(text: string, rest: string)
    requires text != ""
    ensures var raw, tail := EscapeText(text) + rest, EscapeText(text[1..]) + rest;
      && raw != "" && raw[0] == text[0]
      && if text[0] == '{' || text[0] == '}' then Doubled(raw) && raw[2..] == tail else !Doubled(raw) && raw[1..] == tail
  {
    EscapedChar(text[0], EscapeText(text[1..]), rest);
  }

  lemma {:induction false} EscapedChar(c: char, more: string, rest: string)
    ensures var raw, tail := EscapeChar(c) + more + rest, more + rest;
      && raw != "" && raw[0] == c
      && if c == '{' || c == '}' then Doubled(raw) && raw[2..] == tail else !Doubled(raw) && raw[1..] == tail
  {}

  lemma {:induction false} FindAt(s: string, c: char, i: nat)
    requires i < |s| && s[i] == c && forall k | 0 <= k < i :: s[k] != c
    ensures Find(s, c) == i
  {}

  /** Compiling the escaped form of a normal segment list gives that list, without reports. */
  lemma {:induction false} EscapeThenCompile(segments: seq<Segment>, inputs: map<string, Input>)
    requires Normal(segments, inputs)
    ensures Scan(Escape(segments), "") == segments && Clean(Escape(segments), inputs)
  {
    ScanEscaped(segments, "", inputs);
  }

  lemma {:induction false} ScanEscaped(segments: seq<Segment>, literal: string, inputs: map<string, Input>)
    requires Normal(segments, inputs) && (literal != "" && segments != [] ==> segments[0].Placeholder?)
    ensures Scan(Escape(segments), literal) == Flush(literal) + segments && Clean(Escape(segments), inputs)
    decreases segments
  {
    hide Usable, Scan, Clean, EscapeText;
    if segments == [] {
      ScanStep("", literal, inputs);
    } else {
      var rest := segments[1..];
      assert segments == [segments[0]] + rest;
      assert Normal(rest, inputs) by { RestIsNormal(segments, inputs); }
      match segments[0] {
        case Placeholder(name) =>
          ScanEscaped(rest, "", inputs);
          ScanPlaceholder(name, Escape(rest), literal, inputs);
        case Literal(text) =>
          ScanLiteral(text, Escape(rest), literal, inputs);
          ScanEscaped(rest, text, inputs);
          assert literal + text == text;
      }
    }
  }

  lemma {:induction false} RestIsNormal(segments: seq<Segment>, inputs: map<string, Input>)
    requires Normal(segments, inputs) && segments != []
    ensures Normal(segments[1..], inputs)
    ensures segments[0].Literal? && |segments| > 1 ==> segments[1].Placeholder?
  {
    hide Usable;
    var rest := segments[1..];
    forall i | 0 <= i < |rest| - 1 ensures rest[i].Placeholder? || rest[i + 1].Placeholder? {
      assert segments[i + 1].Placeholder? || segments[i + 1 + 1].Placeholder?;
    }
  }

  lemma {:induction false} ScanPlaceholder(name: string, rest: string, literal: string, inputs: map<string, Input>)
    requires Usable(inputs, name)
    ensures var raw := "{" + name + "}" + rest;
      && Scan(raw, literal) == Flush(literal) + [Placeholder(name)] + Scan(rest, "")
      && Clean(raw, inputs) == Clean(rest, inputs)
  {
    var raw := "{" + name + "}" + rest;
    assert raw[1..] == name + "}" + rest && raw[1] == name[0];
    FindAt(raw[1..], '}', |name|);
    assert raw[1..|name| + 1] == name && raw[|name| + 2..] == rest;
    ScanStep(raw, literal, inputs);
  }

  /** What the compiler hands to the URL parser: an `x` for every placeholder. */
  function Probe(segments: seq<Segment>): string {
    if segments == [] then "" else
      (match segments[0] case Literal(text) => text case Placeholder(_) => "x") + Probe(segments[1..])
  }

  // ---------- percent-encoding ----------

  /** Section 2.3 of RFC 3986. */
  predicate Unreserved(c: char) {
    'a' <= c <= 'z' || 'A' <= c <= 'Z' || '0' <= c <= '9' || c == '-' || c == '.' || c == '_' || c == '~'
  }

  const HEXADECIMAL: string := "0123456789ABCDEF"

  function EncodeByte(b: Byte): string {
    if b < 128 && Unreserved(b as char) then [b as char] else ['%', HEXADECIMAL[b / 16], HEXADECIMAL[b % 16]]
  }

  function PercentEncode(bytes: seq<Byte>): string {
    if bytes == [] then "" else PercentEncode(bytes[..|bytes| - 1]) + EncodeByte(bytes[|bytes| - 1])
  }

  method WritePercentEncoded(value: string) returns (text: string)
    ensures text == PercentEncode(Encode(value))
  {
    var bytes := Encode(value);
    text := "";
    for i := 0 to |bytes|
      invariant text == PercentEncode(bytes[..i])
    {
      assert bytes[..i + 1][..i] == bytes[..i];
      var b := bytes[i];
      if b < 128 && Unreserved(b as char) {
        text := text + [b as char];
      } else {
        text := text + ['%', HEXADECIMAL[b / 16], HEXADECIMAL[b % 16]];
      }
    }
    assert bytes[..|bytes|] == bytes;
  }

  function HexValue(c: char): (r: Option<nat>)
    ensures r.Some? ==> r.value < 16
  {
    if '0' <= c <= '9' then Some(c as int - '0' as int)
    else if 'A' <= c <= 'F' then Some(c as int - 'A' as int + 10)
    else None
  }

  /** The last byte of an encoded text and how many characters it takes: a triplet of section 2.1
      of RFC 3986 or one unreserved character. */
  function LastByte(text: string): (r: Option<(nat, Byte)>)
    ensures r.Some? ==> 1 <= r.value.0 <= |text|
  {
    var n := |text|;
    if n >= 3 && text[n - 3] == '%' then
      var high :- HexValue(text[n - 2]);
      var low :- HexValue(text[n - 1]);
      Some((3, 16 * high + low))
    else if n >= 1 && Unreserved(text[n - 1]) then Some((1, text[n - 1] as int))
    else None
  }

  function PercentDecode(text: string): Option<seq<Byte>> {
    if text == "" then Some([]) else
    var last :- LastByte(text);
    var rest :- PercentDecode(text[..|text| - last.0]);
    Some(rest + [last.1])
  }

  lemma {:induction false} HexDigits(d: nat)
    requires d < 16
    ensures HexValue(HEXADECIMAL[d]) == Some(d) && Unreserved(HEXADECIMAL[d])
  {}

  /** Percent-encoding is undone by decoding. */
  lemma {:induction false} PercentRoundTrip(bytes: seq<Byte>)
    ensures PercentDecode(PercentEncode(bytes)) == Some(bytes)
  {
    hide LastByte, EncodeByte;
    if bytes != [] {
      var front, b := bytes[..|bytes| - 1], bytes[|bytes| - 1];
      PercentRoundTrip(front);
      LastIsByte(front, b);
      var text := PercentEncode(front) + EncodeByte(b);
      assert text[..|text| - |EncodeByte(b)|] == PercentEncode(front);
      assert bytes == front + [b];
    }
  }

  lemma {:induction false} LastIsByte(front: seq<Byte>, b: Byte)
    ensures EncodeByte(b) != "" && LastByte(PercentEncode(front) + EncodeByte(b)) == Some((|EncodeByte(b)|, b))
  {
    hide PercentEncode, Unreserved, HexValue;
    NoStrayPercent(front);
    HexDigits(b / 16);
    HexDigits(b % 16);
  }

  /** Before the last character of an encoded text there is never a percent sign. */
  lemma {:induction false} NoStrayPercent(front: seq<Byte>)
    ensures var text := PercentEncode(front); |text| >= 2 ==> text[|text| - 2] != '%'
  {
    hide Unreserved;
    var s := PercentEncode(front);
    if front != [] && |s| >= 2 {
      var b := front[|front| - 1];
      if b < 128 && Unreserved(b as char) {
        NoPercentLast(front[..|front| - 1]);
      } else {
        HexDigits(b / 16);
      }
    }
  }

  lemma {:induction false} NoPercentLast(front: seq<Byte>)
    ensures var s := PercentEncode(front); s != "" ==> s[|s| - 1] != '%'
  {
    if front != [] {
      var b := front[|front| - 1];
      HexDigits(b % 16);
    }
  }

  /** No two input texts are encoded alike. */
  lemma {:induction false} EncodedInputsDiffer(a: string, b: string)
    requires PercentEncode(Encode(a)) == PercentEncode(Encode(b))
    ensures a == b
  {
    PercentRoundTrip(Encode(a));
    PercentRoundTrip(Encode(b));
    EncodeInjective(a, b);
  }

  // ---------- expanding ----------

  /** The expansion, when every input is there. `text` is inputString. */
  function Expand(segments: seq<Segment>, values: map<string, string>): Option<string> {
    if segments == [] then Some("") else
    var front :- Expand(segments[..|segments| - 1], values);
    match segments[|segments| - 1]
    case Literal(text) => Some(front + text)
    case Placeholder(name) => if name in values then Some(front + PercentEncode(Encode(values[name]))) else None
  }

  /** expandTemplate, for inputs that have a text; None is an execution error. */
  method ExpandTemplate(segments: seq<Segment>, values: map<string, string>, httpURL: string -> bool) returns (url: Option<string>)
    ensures url == if Expand(segments, values).Some? && httpURL(Expand(segments, values).value) then Expand(segments, values) else None
  {
    var text := "";
    for i := 0 to |segments|
      invariant Expand(segments[..i], values) == Some(text)
    {
      assert segments[..i + 1][..i] == segments[..i];
      match segments[i] {
        case Literal(literal) => text := text + literal;
        case Placeholder(name) =>
          if name !in values {
            MissingInput(segments, values, i);
            return None;
          }
          var encoded := WritePercentEncoded(values[name]);
          text := text + encoded;
      }
    }
    assert segments[..|segments|] == segments;
    return if httpURL(text) then Some(text) else None;
  }

  /** An input missing anywhere makes the expansion fail. */
  lemma {:induction false} MissingInput(segments: seq<Segment>, values: map<string, string>, i: nat)
    requires i < |segments| && segments[i].Placeholder? && segments[i].name !in values
    ensures Expand(segments, values) == None
  {
    if i < |segments| - 1 {
      assert segments[..|segments| - 1][i] == segments[i];
      MissingInput(segments[..|segments| - 1], values, i);
    }
  }

  /** The characters that structure a URL: neither unreserved nor part of a triplet. */
  function Structure(s: string): string {
    if s == "" then "" else
    var c := s[|s| - 1];
    Structure(s[..|s| - 1]) + if Unreserved(c) || c == '%' then "" else [c]
  }

  function Literals(segments: seq<Segment>): string {
    if segments == [] then "" else
    Literals(segments[..|segments| - 1]) +
    match segments[|segments| - 1] case Literal(text) => text case Placeholder(_) => ""
  }

  lemma {:induction false} StructureJoins(a: string, b: string)
    ensures Structure(a + b) == Structure(a) + Structure(b)
  {
    if b == "" {
      assert a + b == a;
    } else {
      assert (a + b)[..|a + b| - 1] == a + b[..|b| - 1];
      StructureJoins(a, b[..|b| - 1]);
    }
  }

  lemma {:induction false} EncodedHasNone(bytes: seq<Byte>)
    ensures Structure(PercentEncode(bytes)) == ""
  {
    hide Structure, EncodeByte;
    if bytes != [] {
      var front, b := bytes[..|bytes| - 1], bytes[|bytes| - 1];
      EncodedHasNone(front);
      StructureJoins(PercentEncode(front), EncodeByte(b));
      ByteHasNone(b);
    } else {
      NoStructure("");
    }
  }

  lemma {:induction false} ByteHasNone(b: Byte)
    ensures Structure(EncodeByte(b)) == ""
  {
    hide Structure, Unreserved;
    HexDigits(b / 16);
    HexDigits(b % 16);
    NoStructure(EncodeByte(b));
  }

  lemma {:induction false} NoStructure(s: string)
    requires forall i | 0 <= i < |s| :: Unreserved(s[i]) || s[i] == '%'
    ensures Structure(s) == ""
  {
    if s != "" {
      NoStructure(s[..|s| - 1]);
    }
  }

  /** Input values never add, remove or move a delimiter of the URL: those of the expansion are
      those of the literals, in order. */
  lemma {:induction false} InputsKeepStructure(segments: seq<Segment>, values: map<string, string>)
    requires Expand(segments, values).Some?
    ensures Structure(Expand(segments, values).value) == Structure(Literals(segments))
  {
    if segments != [] {
      var front, last := segments[..|segments| - 1], segments[|segments| - 1];
      InputsKeepStructure(front, values);
      var before := Expand(front, values).value;
      match last {
        case Literal(text) =>
          StructureJoins(before, text);
          StructureJoins(Literals(front), text);
        case Placeholder(name) =>
          EncodedHasNone(Encode(values[name]));
          StructureJoins(before, PercentEncode(Encode(values[name])));
          assert Literals(segments) == Literals(front);
      }
    }
  }

  // ---------- what each segment contributes ----------

  function Concat(parts: seq<string>): string {
    if parts == [] then "" else parts[0] + Concat(parts[1..])
  }

  lemma {:induction false} ConcatSnoc(parts: seq<string>, last: string)
    ensures Concat(parts + [last]) == Concat(parts) + last
  {
    if parts != [] {
      assert (parts + [last])[1..] == parts[1..] + [last];
      ConcatSnoc(parts[1..], last);
    } else {
      assert [last][1..] == [];
    }
  }

  /** What a segment becomes: a literal itself, a placeholder a text without delimiters that decodes to
      the UTF-8 bytes of its input. */
  ghost predicate Becomes(segment: Segment, values: map<string, string>, part: string) {
    match segment
    case Literal(text) => part == text
    case Placeholder(name) => name in values && PercentDecode(part) == Some(Encode(values[name])) && Structure(part) == ""
  }

  /** The expansion is made of one part for each segment, in order; it fails exactly when a placeholder
      has no value. */
  lemma {:induction false} ExpandParts(segments: seq<Segment>, values: map<string, string>) returns (parts: seq<string>)
    ensures Expand(segments, values).Some? <==> forall i | 0 <= i < |segments| && segments[i].Placeholder? :: segments[i].name in values
    ensures Expand(segments, values).Some? ==>
      && |parts| == |segments| && Expand(segments, values).value == Concat(parts)
      && forall i | 0 <= i < |segments| :: Becomes(segments[i], values, parts[i])
  {
    hide Becomes, PercentEncode, Encode;
    if segments == [] {
      parts := [];
    } else {
      var front, last := segments[..|segments| - 1], segments[|segments| - 1];
      assert segments == front + [last];
      var before := ExpandParts(front, values);
      var part := match last case Literal(text) => text case Placeholder(name) => if name in values then PercentEncode(Encode(values[name])) else "";
      ConcatSnoc(before, part);
      parts := before + [part];
      if Expand(segments, values).Some? {
        PartBecomes(last, values, part);
      } else if last.Placeholder? && last.name !in values {
        assert segments[|front|] == last;
      }
    }
  }

  lemma {:induction false} PartBecomes(segment: Segment, values: map<string, string>, part: string)
    requires match segment case Literal(text) => part == text case Placeholder(name) => name in values && part == PercentEncode(Encode(values[name]))
    ensures Becomes(segment, values, part)
  {
    hide Structure, PercentDecode, PercentEncode;
    if segment.Placeholder? {
      PercentRoundTrip(Encode(values[segment.name]));
      EncodedHasNone(Encode(values[segment.name]));
    }
  }

  /** The probe has an `x` in the place of every placeholder. */
  lemma {:induction false} ProbeParts(segments: seq<Segment>) returns (parts: seq<string>)
    ensures |parts| == |segments| && Probe(segments) == Concat(parts)
    ensures forall i | 0 <= i < |segments| :: parts[i] == match segments[i] case Literal(text) => text case Placeholder(_) => "x"
  {
    if segments == [] {
      parts := [];
    } else {
      var more := ProbeParts(segments[1..]);
      parts := [match segments[0] case Literal(text) => text case Placeholder(_) => "x"] + more;
      assert parts[1..] == more;
    }
  }

  // ---------- which placeholders the compiler accepts ----------

  /** The values the executor has: of every input that must be given or has a default, at least. */
  predicate Provides(inputs: map<string, Input>, values: map<string, string>) {
    forall name | name in inputs && (inputs[name].required || inputs[name].hasDefault) :: name in values
  }

  /** The compiler accepts exactly the placeholders that are sure to have a value. */
  lemma {:induction false} UsableIffProvided(inputs: map<string, Input>, name: string)
    requires Identifier(name)
    ensures Usable(inputs, name) <==> forall values: map<string, string> | Provides(inputs, values) :: name in values
  {
    hide Identifier;
    if !Usable(inputs, name) {
      var values := map other | other in inputs && other != name :: "";
      assert Provides(inputs, values) && name !in values;
    }
  }

  /** So an accepted template never lacks an input. */
  lemma {:induction false} AcceptedTemplatesExpand(raw: string, inputs: map<string, Input>, values: map<string, string>)
    requires Clean(raw, inputs) && Provides(inputs, values)
    ensures Expand(Scan(raw, ""), values).Some?
  {
    hide Scan, Clean, Usable, Identifier;
    ScanIsNormal(raw, "", inputs);
    var segments := Scan(raw, "");
    forall i | 0 <= i < |segments| && segments[i].Placeholder? ensures segments[i].name in values {
      PlaceholderIsUsable(segments, inputs, i);
      UsableIffProvided(inputs, segments[i].name);
    }
    var parts := ExpandParts(segments, values);
  }

  lemma {:induction false} PlaceholderIsUsable(segments: seq<Segment>, inputs: map<string, Input>, i: nat)
    requires Normal(segments, inputs) && i < |segments| && segments[i].Placeholder?
    ensures Usable(inputs, segments[i].name) && Identifier(segments[i].name)
  {
    hide Identifier;
  }
}
