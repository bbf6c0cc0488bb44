/** The call surface of the built-ins: internal/builtincontract/contract.go. */
module Contract {
  import opened Options
  import opened Builtins
  import K = KDLTree

  datatype Expectation = ExpectString | ExpectBool | ExpectInt | ExpectNonNegativeInt | ExpectNumber | ExpectScalar

  /** matchesExpectation. */
  predicate Meets(v: K.Value, e: Expectation) {
    match e
    case ExpectString => v.KString?
    case ExpectBool => v.KBool?
    case ExpectInt => v.KInt?
    case ExpectNonNegativeInt => v.KInt? && v.n >= 0
    case ExpectNumber => v.KInt? || v.KFloat?
    case ExpectScalar => true
  }

  function Allowed(b: Builtin): map<string, Expectation> {
    match b
    case Replace => map["old" := ExpectString, "new" := ExpectString, "count" := ExpectNonNegativeInt]
    case RegexReplace => map["pattern" := ExpectString, "replacement" := ExpectString, "flags" := ExpectString, "count" := ExpectNonNegativeInt]
    case RegexCapture => map["pattern" := ExpectString, "group" := ExpectNonNegativeInt, "flags" := ExpectString]
    case Substring => map["start" := ExpectInt, "end" := ExpectInt]
    case Split => map["separator" := ExpectString, "limit" := ExpectNonNegativeInt]
    case Join => map["separator" := ExpectString]
    case Prepend => map["value" := ExpectString]
    case Append => map["value" := ExpectString]
    case ParseInt => map["as" := ExpectString, "radix" := ExpectInt]
    case ParseFloat => map["as" := ExpectString]
    case ParseBool => map["case-sensitive" := ExpectBool, "true" := ExpectString, "false" := ExpectString]
    case Coalesce => map["value" := ExpectScalar]
    case URLResolve => map["base" := ExpectString]
    case URLQuery => map["name" := ExpectString, "index" := ExpectNonNegativeInt]
    case PathSegment => map["index" := ExpectInt]
    case AssertMatches => map["pattern" := ExpectString, "flags" := ExpectString]
    case AssertMin => map["value" := ExpectNumber]
    case AssertMax => map["value" := ExpectNumber]
    case _ => map[]
  }

  function Required(b: Builtin): seq<string> {
    match b
    case Replace => ["old", "new"]
    case RegexReplace => ["pattern", "replacement"]
    case RegexCapture => ["pattern"]
    case Substring => ["start"]
    case Split => ["separator"]
    case Join => ["separator"]
    case Prepend => ["value"]
    case Append => ["value"]
    case ParseInt => ["as"]
    case ParseFloat => ["as"]
    case Coalesce => ["value"]
    case URLResolve => ["base"]
    case URLQuery => ["name"]
    case PathSegment => ["index"]
    case AssertMatches => ["pattern"]
    case AssertMin => ["value"]
    case AssertMax => ["value"]
    case _ => []
  }

  function MinPositional(b: Builtin): nat {
    if b.AssertEnum? then 1 else 0
  }

  /** None is unbounded. */
  function MaxPositional(b: Builtin): Option<nat> {
    if b.AssertEnum? then None else Some(0)
  }
}
