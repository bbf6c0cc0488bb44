/** Reading fields: readOutputField of internal/executor/executor.go and internal/executor/browser.go. */
module Readers {
  import opened Options
  import opened Types
  import opened Values
  import opened IR
  import opened Transforms
  import opened Walker
  import opened Conformance
  import opened Selectors
  import opened Matching
  import opened Querying
  import D = Dom

  // ---------- what can be read ----------

  datatype Answer<+T> = Answered(value: T) | Failed(code: Code)

  /** What a document or a browser page answers: the element a scope stands for, the elements a selector
      finds below it, what can be read of an element, and, in a browser, what scripts return. Every
      question put to a browser can fail. */
  datatype Page<!Scope, !Element> = Page(
    own: Scope -> Option<Element>,
    find: (Scope, Selection) -> Answer<seq<Element>>,
    text: Element -> Answer<string>,
    html: Element -> Answer<string>,
    attribute: (Element, string) -> Answer<Option<string>>,
    evaluate: Option<(string, Option<Element>, Option<int>) -> Answer<Value>>)

  function Text(answer: Answer<string>): Reading {
    match answer
    case Answered(s) => Read(Str(s))
    case Failed(code) => ReadFailed(code)
  }

  /** What a script returns, normalised to the type it declares. */
  function Script<Scope, Element>(h: Host, page: Page<Scope, Element>, source: ValueSource, selected: Option<Element>): Reading
    requires source.JavaScriptSource?
  {
    if page.evaluate.None? then ReadFailed(RuntimeMissing)
    else if source.scope == "current" && selected.None? then ReadFailed(ScopeUnavailable)
    else
      match page.evaluate.value(source.code, if source.scope == "current" then selected else None, source.timeout)
      case Failed(code) => ReadFailed(code)
      case Answered(v) => (match Normalize(h, v, source.returned) case Some(w) => Read(w) case None => ReadFailed(ResultType))
  }

  function ReadSelected<Scope, Element>(h: Host, page: Page<Scope, Element>, source: ValueSource, selected: Option<Element>): Reading {
    match source
    case JavaScriptSource(_, _, _, _) => Script(h, page, source, selected)
    case TextSource(_) => if selected.None? then ReadFailed(IRInvalid) else Text(page.text(selected.value))
    case HTMLSource(_) => if selected.None? then ReadFailed(IRInvalid) else Text(page.html(selected.value))
    case AttributeSource(name, _) =>
      if selected.None? then ReadFailed(IRInvalid) else
      match page.attribute(selected.value, name)
      case Failed(code) => ReadFailed(code)
      case Answered(None) => Reading.Missing
      case Answered(Some(s)) => Read(Str(s))
  }

  function ReadField<Scope, Element>(h: Host, page: Page<Scope, Element>, scope: Scope, f: Field): Reading {
    if f.selection.None? then ReadSelected(h, page, f.source, page.own(scope)) else
    match page.find(scope, f.selection.value)
    case Failed(code) => ReadFailed(code)
    case Answered(matches) =>
      match VerdictOf(f.selection.value.mode, matches)
      case Missing => Reading.Missing
      case Ambiguous => ReadFailed(SelectorCardinality)
      case Unique(e) => ReadSelected(h, page, f.source, Some(e))
  }

  // ---------- what is read ----------

  /** The element a field reads from: the only match, or the first one, or without a selection the element
      it stands in. */
  ghost predicate Selects<Scope, Element>(page: Page<Scope, Element>, scope: Scope, f: Field, e: Element) {
    match f.selection
    case None => page.own(scope) == Some(e)
    case Some(s) =>
      match page.find(scope, s)
      case Failed(_) => false
      case Answered(matches) => matches != [] && matches[0] == e && (s.mode == "one" ==> |matches| == 1)
  }

  /** Of that element the text, the markup or the attribute is read, or what a script returns, normalised. */
  lemma {:induction false} SelectedIsRead<Scope, Element>(h: Host, page: Page<Scope, Element>, scope: Scope, f: Field, e: Element, t: string, name: string, v: Value)
    requires Selects(page, scope, f, e)
    ensures var r := ReadField(h, page, scope, f);
      && (f.source.TextSource? && page.text(e) == Answered(t) ==> r == Read(Str(t)))
      && (f.source.HTMLSource? && page.html(e) == Answered(t) ==> r == Read(Str(t)))
      && (f.source.AttributeSource? && page.attribute(e, f.source.name) == Answered(Some(t)) ==> r == Read(Str(t)))
      && (f.source.AttributeSource? && page.attribute(e, f.source.name) == Answered(None) ==> r == Reading.Missing)
      && (f.source.JavaScriptSource? && page.evaluate.Some? &&
          page.evaluate.value(f.source.code, if f.source.scope == "current" then Some(e) else None, f.source.timeout) == Answered(v) ==>
            r == if Normalize(h, v, f.source.returned).Some? then Read(Normalize(h, v, f.source.returned).value) else ReadFailed(ResultType))
  {
    hide Normalize;
  }

  /** Nothing found is a missing value, and more than one match for `one` an error; without an element only
      a script of the whole document can be read. */
  lemma {:induction false} NothingSelected<Scope, Element>(h: Host, page: Page<Scope, Element>, scope: Scope, f: Field)
    ensures f.selection.Some? && page.find(scope, f.selection.value).Answered? ==>
      var matches := page.find(scope, f.selection.value).value;
      && (matches == [] ==> ReadField(h, page, scope, f) == Reading.Missing)
      && (f.selection.value.mode == "one" && |matches| > 1 ==> ReadField(h, page, scope, f) == ReadFailed(SelectorCardinality))
    ensures f.selection.Some? && page.find(scope, f.selection.value).Failed? ==>
      ReadField(h, page, scope, f) == ReadFailed(page.find(scope, f.selection.value).code)
    ensures f.selection.None? && page.own(scope).None? && !f.source.JavaScriptSource? ==> ReadField(h, page, scope, f) == ReadFailed(IRInvalid)
    ensures f.selection.None? && page.own(scope).None? && f.source.JavaScriptSource? && page.evaluate.Some? && f.source.scope == "current" ==>
      ReadField(h, page, scope, f) == ReadFailed(ScopeUnavailable)
    ensures f.source.JavaScriptSource? && page.evaluate.None? && f.selection.None? ==> ReadField(h, page, scope, f) == ReadFailed(RuntimeMissing)
  {
    hide Normalize;
  }

  // ---------- whatever is read has the type of its source ----------

  /** Strings for text, HTML and attributes, and normalised values for scripts, whatever the page answers. */
  lemma {:induction false} ReadIsTyped<Scope, Element>(h: Host, page: Page<Scope, Element>, source: ValueSource, selected: Option<Element>)
    requires ReadSelected(h, page, source, selected).Read? && ReadsStrings(source)
    ensures var v := ReadSelected(h, page, source, selected).value; IsJSON(h, v) && Matches(h, v, SourceType(source))
  {
    hide Normalize;
    if source.JavaScriptSource? {
      var scope := if source.scope == "current" then selected else None;
      NormalizeMatches(h, page.evaluate.value(source.code, scope, source.timeout).value, source.returned);
    }
  }

  /** A walker that reads a page is given readings of the types its fields declare. */
  lemma {:induction false} PageReaderIsTyped<Scope(!new), Element>(env: Env<Scope>, page: Page<Scope, Element>)
    requires forall scope, f, path :: env.read(scope, f, path) == ReadField(env.h, page, scope, f)
    ensures ReaderTyped(env)
  {
    hide IsJSON, Matches, ReadSelected;
    forall scope, f, path | env.read(scope, f, path).Read? && ReadsStrings(f.source)
      ensures IsJSON(env.h, env.read(scope, f, path).value) && Matches(env.h, env.read(scope, f, path).value, SourceType(f.source))
    {
      var selected := if f.selection.None? then page.own(scope)
        else Some(VerdictOf(f.selection.value.mode, page.find(scope, f.selection.value).value).found);
      ReadIsTyped(env.h, page, f.source, selected);
    }
  }

  // ---------- the reader of a parsed document ----------

  /** The parsed selectors of the document, and the text and the markup of its elements. */
  datatype Library = Library(strings: Strings, groups: string -> seq<seq<Part>>, text: D.Node -> string, html: D.Node -> string)

  function Names<Element>(ids: map<D.Node, Element>, nodes: seq<D.Node>): (r: seq<Element>)
    requires forall n | n in nodes :: n in ids
    ensures |r| == |nodes| && forall i | 0 <= i < |r| :: r[i] == ids[nodes[i]]
  {
    seq(|nodes|, i requires 0 <= i < |nodes| => ids[nodes[i]])
  }

  /** The elements a selector finds below a node, in document order. */
  ghost function Found(lib: Library, spans: Spans, n: D.Node, selector: string): (r: seq<D.Node>)
    requires Valid(spans) && n in spans
    reads spans.Keys
    ensures forall x | x in r :: x in spans
  {
    hide Valid, Below, Selects;
    var r := Hits(lib.strings, spans, Below(spans, n), lib.groups(selector));
    assert forall x | x in r :: x in spans by {
      forall x | x in r ensures x in spans {
        HitsMeaning(lib.strings, spans, Below(spans, n), lib.groups(selector), x);
      }
    }
    r
  }

  /** A page that answers what the tree holds, by the names of its nodes; it runs no scripts. */
  ghost predicate Describes<Element(!new)>(page: Page<Element, Element>, lib: Library, ids: map<D.Node, Element>, spans: Spans)
    requires Valid(spans)
    reads spans.Keys
  {
    && ids.Keys == spans.Keys && page.evaluate.None?
    && (forall n | n in ids :: page.own(ids[n]) == if n.kind.ElementNode? then Some(ids[n]) else None)
    && (forall n, s: Selection | n in ids :: page.find(ids[n], s) == Answered(Names(ids, Found(lib, spans, n, s.selector))))
    && (forall n | n in ids :: page.text(ids[n]) == Answered(lib.text(n)) && page.html(ids[n]) == Answered(lib.html(n)))
    && (forall n, name | n in ids ::
          page.attribute(ids[n], name) == Answered(if name in n.attrs then Some(n.attrs[name]) else None))
  }

  /** readOutputField of the HTTP engine: a query with a limit, then text, markup or an attribute. */
  method ReadOutputField<Element(!new)>(h: Host, lib: Library, scope: D.Node, f: Field,
      ghost spans: Spans, ghost ids: map<D.Node, Element>, ghost page: Page<Element, Element>) returns (r: Reading)
    requires Valid(spans) && scope in spans && Describes(page, lib, ids, spans)
    ensures r == ReadField(h, page, ids[scope], f)
  {
    hide Valid, Below, Hits, NodeValid;
    var selected: D.Node? := if scope.kind.ElementNode? then scope else null;
    if f.selection.Some? {
      var selection := f.selection.value;
      var verdict := SelectElement(lib.strings, spans, scope, lib.groups(selection.selector), selection.mode);
      ghost var hits := Found(lib, spans, scope, selection.selector);
      assert page.find(ids[scope], selection) == Answered(Names(ids, hits));
      match verdict
      case Missing => return Reading.Missing;
      case Ambiguous => return ReadFailed(SelectorCardinality);
      case Unique(n) => selected := n;
    }
    match f.source
    case JavaScriptSource(_, _, _, _) => r := ReadFailed(RuntimeMissing);
    case TextSource(_) => r := if selected == null then ReadFailed(IRInvalid) else Read(Str(lib.text(selected)));
    case HTMLSource(_) => r := if selected == null then ReadFailed(IRInvalid) else Read(Str(lib.html(selected)));
    case AttributeSource(name, _) =>
      if selected == null {
        r := ReadFailed(IRInvalid);
      } else if name in selected.attrs {
        r := Read(Str(selected.attrs[name]));
      } else {
        r := Reading.Missing;
      }
  }
}
