/** The intermediate representation of internal/ir/types.go, without spans and kind tags. */
module IR {
  import opened Options
  import opened Types
  import opened Values

  datatype Target = BuiltinTarget(name: string) | DeclaredTarget(symbol: string) | UnknownTarget

  datatype Call = Call(
    target: Target,
    positional: seq<Raw>,
    named: seq<(string, Raw)>,
    input: Type,
    output: Type)

  datatype Transform =
    | Pipeline(input: Type, output: Type, calls: seq<Call>)
    | Match(input: Type, output: Type, cases: seq<(Raw, Raw)>, default: Raw)
    | External(input: Type, output: Type, symbol: string)

  datatype Declaration = Declaration(symbol: string, body: Transform)

  datatype Selection = Selection(selector: string, mode: string)

  datatype ValueSource =
    | TextSource(rawType: Type)
    | HTMLSource(rawType: Type)
    | AttributeSource(name: string, rawType: Type)
    | JavaScriptSource(scope: string, code: string, returned: Type, timeout: Option<int>)

  datatype Field = Field(
    id: string,
    name: string,
    successful: Type,
    effective: Type,
    required: bool,
    default: Option<Raw>,
    selection: Option<Selection>,
    source: ValueSource,
    calls: seq<Call>,
    onError: string)

  datatype Collection = Collection(
    id: string,
    name: string,
    selector: string,
    required: bool,
    minItems: int,
    maxItems: Option<int>,
    onRowError: string,
    row: OutputObject)

  datatype Member = FieldMember(field: Field) | CollectionMember(collection: Collection) {
    function Name(): string {
      match this
      case FieldMember(f) => f.name
      case CollectionMember(c) => c.name
    }

    function ID(): string {
      match this
      case FieldMember(f) => f.id
      case CollectionMember(c) => c.id
    }
  }

  datatype OutputObject = OutputObject(members: seq<Member>)

  /** The type a field's value source delivers. */
  function SourceType(s: ValueSource): Type {
    match s
    case JavaScriptSource(_, _, returned, _) => returned
    case _ => s.rawType
  }

  /** The argument map of a call: a repeated name keeps its last value. */
  function Arguments(named: seq<(string, Raw)>): map<string, Raw> {
    if named == [] then map[] else Arguments(named[..|named| - 1])[named[|named| - 1].0 := named[|named| - 1].1]
  }
}
