# A verified model of scrape-kdl

scrape-kdl is a small typed language for extracting data from web pages. A document is KDL text; the
compiler checks it and emits an intermediate representation, and the executor checks that again before
it runs it over a page. This project models the parts of it that decide what a program means and proves
that they fit together, in Dafny.

- **Types and values** (`Types`, `Values`, `Floats`, `Decimal`, `Text`): the type language, what the
  executor accepts as a value of a type, and the normalisation of JSON results.
- **Transforms** (`IR`, `Builtins`, `BuiltinLaws`, `BuiltinMeaning`, `Words`, `Transforms`): the built-ins,
  their typing rules, what each returns, and the transform runtime with its recursion guard. The main
  results are type soundness and that the guard is exact on arbitrary, also cyclic, call graphs.
- **Output** (`Walker`, `Conformance`, `Readers`): the output walker with its policies, what a successful
  run looks like, how skipped rows and warnings add up, and the readers of fields it is given.
- **Compiler and preflights** (`Contract`, `Naming`, `Preflight`, `PreflightLaws`, `Emission`, `Compiler`,
  `Headings`, `Template`): the checking compiler as a class that records reports and capabilities, exactly
  when it reports, the executor's independent preflights, and that whatever compiles without reports passes
  them, is well typed, mirrors its source tree, and has the capabilities recorded that the executor derives.
- **KDL** (`KDLTree`, `Lexing`, `Parsing`, `Spelling`, `Comments`, `Grammar`, `Printing`, `Frontend`): lexer
  and parser with error recovery, what every spelling, comment and layout is read as, and the round trip
  from tree to text to tree.
- **Authoring** (`Authoring`, `Authored`): the authoring writer, the round trip of what it writes, and when
  that compiles, and to what.
- **Imports** (`Documents`, `Imports`, `Reachable`, `Sorting`): the checks of one file, the loader's
  depth-first search, and the order in which declared transforms are compiled.
- **From files to programs** (`Linking`, `Assumptions`): loading, listing and compiling together. Every
  outcome is characterised exactly, no symbol dangles, and a successful run of a compiled program yields
  what it declares. The assumptions about library functions are shown to be consistent.
- **DOM** (`Dom`, `Selectors`, `Matching`, `Querying`, `Building`): the mutable tree with cached
  positions, selector matching, limited queries, and building the tree.
- **Canonical JSON** (`CanonicalNumber`, `CanonicalJSON`, `JSONReading`, `Utf8`): decimal arithmetic on digit
  strings, a printer that is unique and injective, and a reader of JSON text that gives back what was printed.
- **Leases** (`Leases`): the lease protocols of the Playwright and rod adapters over every order of events.

Imperative code of the original is a class or a method here, proved equal to functions of its inputs and
its old state. What those functions mean is stated apart from them, by positions, by existence or by a
second definition, and what the original promises is proved about them. Names in the table are
qualified by module and class.

What the proofs found out about the code:

- An `apply` node without arguments makes the compiler slice past the end of an empty argument list
  (`internal/compiler/transforms.go:208`). `Linking.CompileFiles` says exactly for which files,
  and `Linking.BareApplyPanics` gives one.
- `parse-int` types its `as` argument by parsing it as a type and looks it up by its spelling at run time,
  so a spelling such as the name with a space before it compiles and then always fails. It can succeed
  exactly for the plain names.
- `object` accepts any map while `unknown` asks for JSON-compatible content, so soundness needs external
  transforms to return JSON-compatible values.
- The authoring writer leaves out the policy `fail`, which the compiler implies for required fields only: an
  optional field authored to fail is compiled to yield null (`Authored.PolicyIsKeptIff`).
- A property written without a value is dropped, and at the end of a line nothing is reported.
- `substring` compiles with any 64-bit literal, and with one beyond 32 bits fails on every text.
- Field policies can absorb a cancellation; skipping rows never does.
- `canonicalNumber` keeps the value of a number exactly when it does not underflow to zero.
- The Go and the TypeScript engine count element types alike exactly when lower-casing keeps the tags of
  siblings apart.

The guard of the Go runtime is modelled, not that of the TypeScript runtime.

## Model

| member | source | states |
|---|---|---|
| Types.TypeParser.ParseType | internal/typesys/type.go:63-108 | the cursor parser reads exactly the type expression that the grammar functions find at its position, and stops where they stop |
| Types.ParseText | internal/typesys/type.go:40-57 | parsing accepts a trimmed text exactly when the whole of it is one type |
| Types.ParseShow | internal/typesys/type.go:40-127 | every well-formed type survives being written and parsed again |
| Types.ValidRuntimeTypeIff | internal/executor/executor.go:474-478 | the executor's re-parsing test accepts exactly the types of the language: known primitives and no nullable of a nullable |
| Types.AssignableTransitive | internal/typesys/type.go:144-162 | assignability is transitive |
| Types.UnknownReaches | internal/typesys/type.go:144-162 | whatever `unknown` can be assigned to accepts every type |
| Values.MatchesAssignable | internal/executor/executor.go:597-718 | a JSON-compatible value that matches a type matches every type it is assignable to |
| Values.AssignabilityIsSoundIffJSON | internal/executor/executor.go:634-638 | a value keeps matching under assignability exactly when it is JSON-compatible |
| Values.ObjectIsNotAlwaysUnknown | internal/executor/executor.go:597-679 | a concrete value that matches `object` and not `unknown` |
| Values.NormalizeMatches | internal/executor/browser.go:376-444 | a successful normalisation yields a JSON-compatible value of the target type |
| Values.NormalizeIdempotent | internal/executor/browser.go:376-444 | normalising a normalised value to the same type gives it back |
| Values.NormalizeItems | internal/executor/browser.go:376-444 | an array is normalised item by item: the same number of items, each normalised, and nothing exactly when some item cannot be |
| Values.NormalizeToInteger | internal/executor/browser.go:495-596 | an integer type takes exactly the numbers that denote an integer within its width, as that integer |
| Values.RangeMeaning | internal/executor/browser.go:495-549 | the ranges of the integer types are those of their bits |
| Values.NormalizeToFloat | internal/executor/browser.go:591-639 | finite floats are kept, other numbers rounded to the format, and what is no number fails |
| Values.NormalizeKeeps | internal/executor/browser.go:376-444 | texts, booleans, maps and null are taken as they are, and by which types |
| Values.ValuesAreFixed | internal/executor/executor.go:597-718 | the values of a type are those that normalising to it leaves as they are |
| Values.AssignableIffIncluded | internal/typesys/type.go:144-162 | a type can be assigned to another exactly when all its JSON-compatible values are values of the other |
| Builtins.RunSound | internal/executor/builtins.go:22-119 | every built-in either fails or returns a JSON-compatible value of the type the compiler gave the call |
| Builtins.KindNamesType | internal/executor/builtins.go:439-494 | the names parse-int looks up are names of integer types, and parse as themselves |
| BuiltinLaws.JoinAfterSplit | internal/executor/builtins.go:382-438 | join undoes split, for every text and every non-empty separator |
| BuiltinLaws.PartsHaveNoSeparator | internal/executor/builtins.go:382-415 | no part of a split still holds the separator |
| BuiltinLaws.NormalizeWhitespaceTwice | internal/executor/builtins.go:22-119 | normalize-whitespace is idempotent and keeps the words |
| BuiltinLaws.ParseIntAfterToString | internal/executor/builtins.go:439-597 | parse-int reads back what to-string writes, for every integer type and every integer in its range |
| BuiltinLaws.ParseIntUsableIff | internal/executor/builtins.go:439-494 | a parse-int can succeed at run time exactly when its `as` is the plain name of an integer type |
| BuiltinLaws.SpacedIntCompilesAndFails | internal/compiler/builtins.go:45-57 | a concrete `as`, with a space before the name, that the compiler types and the executor always rejects |
| BuiltinLaws.CoalesceNeverFails | internal/compiler/builtins.go:139-206 | a coalesce whose literal the compiler accepted never fails at run time |
| BuiltinMeaning.AffixesReturn | internal/executor/builtins.go:22-119 | prepend gives the argument followed by the input, append the input followed by the argument |
| BuiltinMeaning.SubstringReturns | internal/executor/builtins.go:347-381 | the piece of the text between two positions, which count from the end when negative and never lead outside |
| BuiltinMeaning.SubstringUsableIff | internal/executor/builtins.go:206-224 | substring runs exactly when its literals fit 32 bits, although the compiler takes 64 |
| BuiltinMeaning.TrimReturns | internal/executor/builtins.go:22-119 | trim takes the spaces off both ends and nothing else |
| BuiltinMeaning.NormalizeWhitespaceReturns | internal/executor/builtins.go:22-119 | the words in order with one space between them, whatever spaces stood around them |
| BuiltinMeaning.CaseAndEmptyReturn | internal/executor/builtins.go:22-119 | exactly the empty text becomes null; case mapping is the library's |
| BuiltinMeaning.MatchesReturns | internal/executor/builtins.go:703-717 | assert-matches returns its input unchanged exactly when the library matches it |
| BuiltinMeaning.SplitReturns | internal/executor/builtins.go:382-415 | split gives the pieces between the separators, as many of them as the limit allows, and rejects a negative limit |
| BuiltinMeaning.JoinSteps | internal/executor/builtins.go:416-438 | join puts the separator between the texts and nowhere else |
| BuiltinMeaning.JoinOfList | internal/executor/builtins.go:416-438 | a list is joined as its texts, and fails when an item is no text |
| BuiltinMeaning.ParseBoolReturns | internal/executor/builtins.go:523-556 | true and false for the two words, folded unless asked to be exact, the first winning |
| BuiltinMeaning.ToStringReturns | internal/executor/builtins.go:557-597 | what every kind of value is written as, and which have no text |
| BuiltinMeaning.CoalesceReturns | internal/executor/builtins.go:22-119 | what is not null stays; null becomes the literal normalised to the output type |
| BuiltinMeaning.EnumReturns | internal/executor/builtins.go:718-730 | the input unchanged exactly when it equals one of the literals |
| BuiltinMeaning.BoundsReturn | internal/executor/builtins.go:731-767 | assert-min and assert-max return an integer unchanged exactly when it is not beyond the bound |
| BuiltinMeaning.FloatBoundsReturn | internal/executor/builtins.go:731-767 | the same for floats, by the text that is compared |
| BuiltinMeaning.ParseIntReturns | internal/executor/builtins.go:439-494 | a sign and digits of the radix are read as that number exactly when it fits the type |
| BuiltinMeaning.ParseIntRejects | internal/executor/builtins.go:439-494 | the empty text and texts with underscores fail |
| BuiltinMeaning.ParseFloatReturns | internal/executor/builtins.go:495-522 | what the library reads, exactly for finite plain decimals without spaces |
| BuiltinMeaning.LibraryReturns | internal/executor/builtins.go:225-381 | the built-ins of the regular-expression and URL libraries return what the library does |
| BuiltinMeaning.OnlyTexts | internal/executor/builtins.go:120-127 | no built-in on texts takes anything else |
| Words.TrimSpaceMeaning | internal/executor/builtins.go:22-119 | the text left by strings.TrimSpace is the one between the spaces at both ends |
| Words.FieldsMeaning | internal/executor/builtins.go:22-119 | the words of strings.Fields are the longest pieces without spaces |
| Words.FieldsOfWoven | internal/executor/builtins.go:22-119 | and they come in order |
| Transforms.TransformRuntime.ApplyCalls | internal/executor/transforms.go:345-369 | threading the value through the calls gives the result of the evaluator, and the call stack is restored on every exit |
| Transforms.TransformRuntime.ApplyDeclared | internal/executor/transforms.go:370-431 | a declared transform gives the result of the evaluator; the call stack is what it was, also after errors |
| Transforms.TransformRuntime.ApplyMatch | internal/executor/transforms.go:384-409 | the case loop gives the outcome of the evaluator, which `Transforms.FirstCaseDecides` states by the position of the case |
| Transforms.EvalCallsSound | internal/executor/transforms.go:345-431 | type soundness: a typed chain on a JSON-compatible value of its initial type fails or returns one of its declared type, through nested pipelines, matches, externals and all built-ins |
| Transforms.EvalMatchSound | internal/executor/transforms.go:384-409 | a match that succeeds returns a JSON-compatible value of its output type |
| Transforms.FirstCaseDecides | internal/executor/transforms.go:384-409 | for every match that normalises, when case k is the first whose input equals the value the outcome is its normalised output, and when there is none the normalised default |
| Transforms.EqualScalarMeaning | internal/executor/transforms.go:432-452 | which scalars are equal: integers by number whatever their width, texts and booleans by themselves |
| Transforms.PipelineRuns | internal/executor/transforms.go:386-396 | a call of a declared pipeline is its chain |
| Transforms.ExternalReturns | internal/executor/transforms.go:410-427 | a call of an external is what the host returns when registered and of the declared type, and which error otherwise |
| Emission.MatchReturnsLiteral | internal/executor/transforms.go:384-409 | a match written with literals returns the literal of the first case that equals the value, otherwise that of the default |
| Transforms.GuardAgrees | internal/executor/transforms.go:370-385 | without a reported recursion the guarded evaluator and the unguarded one agree |
| Transforms.RecursionHasCycle | internal/executor/transforms.go:377-385 | recursion is reported only when the call graph has a reachable cycle |
| Transforms.CyclesNeverSucceed | internal/executor/transforms.go:370-396 | a chain that enters a cycle never returns a value, however long the unguarded evaluator runs |
| Transforms.GuardIsExact | internal/executor/transforms.go:345-431 | the guarded evaluator returns a value exactly when the unguarded one does, with any amount of fuel, on any call graph |
| Transforms.AcyclicNeedsNoGuard | internal/executor/transforms.go:370-385 | on an acyclic graph the guard changes nothing, errors included |
| Walker.OutputWalker.ExecuteObject | internal/executor/output_walker.go:27-52 | members in order, stopping at the first error; result, new warnings and partial flag are those of the pure run, also when it fails midway |
| Walker.OutputWalker.ExecuteField | internal/executor/output_walker.go:53-70 | reads, transforms and checks one field; what becomes of a missing value, a value read and an error is stated by `Conformance.MissingBecomes`, `Conformance.ReadBecomes` and `Conformance.FieldAbsorbsIff` |
| Walker.OutputWalker.ExecuteCollection | internal/executor/output_walker.go:71-101 | bounds before and after, rows in order, failing rows skipped where allowed |
| Walker.OutputWalker.RecoverOutputField | internal/executor/output_semantics.go:19-52 | what each error policy makes of an error, and what it records |
| Conformance.ChainDeliversType | internal/executor/output_walker.go:53-70 | for a compiled field the run-time type test after the chain cannot fail |
| Conformance.FieldConforms | internal/executor/output_semantics.go:9-52 | whatever policy a field goes through, a value it yields is of its effective type |
| Conformance.ObjectConforms | internal/executor/output_walker.go:27-101 | a successful run yields exactly the declared members at every depth, each of its effective type, and every collection within its bounds |
| Conformance.FinalWarningsIffPartial | internal/executor/types.go:24-43 | a final result has warnings exactly when it is marked partial |
| Conformance.RowsAccounted | internal/executor/output_walker.go:71-101 | kept rows are the rows that ran without error, in order; kept plus skipped rows are the queried rows |
| Conformance.CollectionAccounted | internal/executor/output_walker.go:71-101 | the same accounting for one whole collection and its own path |
| Conformance.SkippingIsLimited | internal/executor/output_walker.go:80-94 | a skipped row was skipped by policy, and was not canceled |
| Conformance.FieldAbsorbsIff | internal/executor/output_semantics.go:19-52 | a field whose read or chain fails, be it with a cancellation, yields a value exactly under `null`, `warn`, or `default` with a usable default, and is then marked partial |
| Conformance.CanceledFieldSucceeds | internal/executor/output_semantics.go:28-51 | a concrete compiled program whose only field is canceled and which succeeds with null |
| Conformance.ChecksAreFinal | internal/executor/output_walker.go:27-52 | a run that succeeds was canceled before none of its members: what the walker checks itself is never absorbed |
| Conformance.RowChecksAreFinal | internal/executor/output_walker.go:71-101 | nor before any row of a collection, kept or skipped |
| Conformance.MissingBecomes | internal/executor/output_semantics.go:9-17 | a missing value fails exactly in a required field; otherwise it is the default normalised to the successful type, or null without one; nothing is recorded |
| Emission.MissingYieldsDefault | internal/executor/output_semantics.go:9-17 | a field that finds nothing yields the literal written as its default |
| Conformance.ReadBecomes | internal/executor/output_walker.go:53-70 | what is read and passes its chain is what the field yields, with nothing recorded |
| Conformance.CollectionSucceedsIff | internal/executor/output_walker.go:71-101 | a collection succeeds exactly when its rows can be queried, each runs or may be skipped, and the rows left are within the bounds |
| Conformance.RequiredMeansOne | internal/executor/output_semantics.go:53-63 | a required collection has at least one row, whatever minimum it gives |
| Conformance.ObjectHoldsMembers | internal/executor/output_walker.go:27-52 | an object holds the result of each member under its name, and nothing else |
| Conformance.ObjectWarns | internal/executor/output_walker.go:27-52 | its warnings are those of its members in order, and it is partial exactly when a member is |
| Conformance.ObjectFailsWith | internal/executor/output_walker.go:27-52 | it fails with the error of its first failing member, or with a cancellation before that one |
| Readers.ReadIsTyped | internal/executor/browser.go:315-359 | whatever a document or a page answers, a value read is JSON-compatible and of the type of its source: strings, or a script result normalised to the type it declares |
| Readers.PageReaderIsTyped | internal/executor/browser.go:289-359 | a walker that reads fields this way is given what type soundness and conformance ask of a reader |
| Readers.ReadOutputField | internal/executor/executor.go:530-575 | the reader of the HTTP engine, with its limited query over the tree, reads what the unlimited query stands for |
| Readers.SelectedIsRead | internal/executor/executor.go:530-575 | of the first match, or the only one where one is asked for, the text, the markup or the attribute is read as it is, and a script result normalised |
| Readers.NothingSelected | internal/executor/executor.go:530-549 | no match is a missing value, several where one is asked for an error, and what cannot be read without an element |
| Conformance.ExternalsMustBeJSON | internal/executor/transforms.go:410-427 | a concrete typed program that breaks soundness when an external returns a value outside JSON |
| Preflight.PreflightCallContinuity | internal/executor/transforms.go:209-225 | accepts exactly the chains whose types join up and end assignable to the expected type |
| Preflight.PreflightMatch | internal/executor/transforms.go:136-172 | accepts exactly scalar matches whose literals normalise and whose case inputs the runtime can tell apart |
| Preflight.StructureWalk.Visit | internal/executor/executor.go:328-473 | the recursive walk with its shared set of member IDs accepts exactly what the pure walk accepts |
| PreflightLaws.ContinuityMeaning | internal/executor/transforms.go:209-225 | a chain is continuous exactly when each call takes what the one before it gives and the last fits |
| PreflightLaws.PassedChainsAreFound | internal/executor/transforms.go:226-281 | a chain that has passed never meets a transform that is missing |
| PreflightLaws.EveryCaseIsTaken | internal/executor/transforms.go:136-172 | in a match that has passed every case is the one taken for its own input, so none is dead |
| PreflightLaws.PassedFieldsRecover | internal/executor/output_semantics.go:9-52 | a field that has passed can use its default, and its policy is one the executor knows |
| PreflightLaws.StructureMeaning | internal/executor/executor.go:328-473 | the walk accepts exactly when every member passes at every depth and all IDs are different |
| PreflightLaws.CapabilityMeaning | internal/executor/executor.go:237-300 | each capability is derived exactly when the mode, a step, an external, a field at some depth or a collection needs it |
| Emission.LiteralNormalizes | internal/compiler/helpers.go:98-121 | a literal the compiler accepts for a type is one the executor can normalise to it |
| Emission.DistinctCases | internal/executor/transforms.go:136-172 | match inputs that the compiler tells apart are told apart at run time |
| Emission.EmittedTransformOK | internal/executor/transforms.go:79-116 | an emitted transform passes the static preflight of transforms |
| Emission.EmittedWalk | internal/executor/executor.go:328-473 | in an emitted output, names are found unique per object and member IDs over the whole tree |
| Emission.PreflightsAccept | internal/executor/transforms.go:64-116 | everything the compiler emits passes every static preflight of the executor |
| Emission.EmittedIsTyped | internal/compiler/transforms.go:198-251 | everything the compiler emits meets what type soundness and output conformance assume |
| Emission.CompiledRunConforms | internal/executor/output_walker.go:27-101 | a successful run of a compiled program yields exactly what the program declares |
| Compiler.Compiler.ValidateNode | internal/compiler/helpers.go:122-142 | a node is reported on exactly when it breaks the shape asked for |
| Compiler.Compiler.ValidateRequired | internal/compiler/helpers.go:166-173 | reports exactly when a required property is missing |
| Compiler.Compiler.CompileTransformCall | internal/compiler/transforms.go:198-251 | reports exactly when the call is not accepted on its input type; otherwise it is well typed, has the arguments of the node, and its target is the built-in of that name or what the name stands for. An `apply` without arguments runs past the end of the argument list, exactly then |
| Compiler.Compiler.CompileApplies | internal/compiler/output.go:191-199 | reports exactly when some apply is not accepted on the type the one before it makes; otherwise calls in order whose types join up |
| Compiler.Compiler.CompileFieldCalls | internal/compiler/output.go:191-199 | reports exactly when the applies do not lead from the type read to the declared one; otherwise the calls are those of the applies |
| Compiler.Compiler.CompileTransform | internal/compiler/transforms.go:69-180 | reports exactly when the declaration does not have one body, or that body is not accepted; panics exactly when the body is a pipeline with an empty `apply`; otherwise it has the body of its declaration and adds its external capability |
| Compiler.Compiler.CompileMatch | internal/compiler/transforms.go:118-165 | reports exactly when a type is not scalar, a case is not two literals of the types with a new input, or there is not one fitting default; otherwise cases and default are those of the nodes, in order |
| Compiler.Compiler.CompileTransforms | internal/compiler/transforms.go:15-67 | reports exactly when some declaration is not accepted; otherwise one transform per declaration, in order |
| Compiler.AcceptedCases | internal/compiler/transforms.go:118-165 | accepted cases are distinct literals of the declared types, and so is the default |
| Compiler.Compiler.CompilePipeline | internal/compiler/transforms.go:92-117 | reports exactly when the pipeline is empty, holds another node, or does not lead from the input to the output type; otherwise the calls are those of the applies |
| Compiler.Compiler.CompileField | internal/compiler/output.go:41-227 | reports exactly when header, selection, value source, calls or policy are not accepted together; otherwise the field is well formed, says what its node says, and records exactly the capabilities it uses |
| Compiler.Compiler.CompileSource | internal/compiler/output.go:112-190 | reports exactly when there is not one value source, or it does not fit mode, selection and place |
| Compiler.Compiler.CompilePolicy | internal/compiler/output.go:200-226 | reports exactly when the policy, written or implied, is unknown, given twice, or does not fit the effective type and the default |
| Compiler.Compiler.CompileCollection | internal/compiler/output.go:229-288 | reports exactly when its header or its row is not accepted; otherwise it has the bounds, policy, selector and row of its node |
| Compiler.Compiler.CompileOutputObject | internal/compiler/output.go:13-39 | reports exactly when, at any depth, a member is not accepted, a name comes twice or a node does not belong; otherwise one member per node in order, each saying what its node says |
| Compiler.Compiler.CompileStep | internal/compiler/source.go:223-294 | reports exactly when the node is no acceptable step; otherwise the step is that of the node, passes the preflight of the executor, and the capability of its kind is recorded |
| Compiler.Compiler.CompileWorkflow | internal/compiler/source.go:223-294 | reports exactly when some step is not accepted; otherwise the steps of the nodes, in order |
| Compiler.Compiler.CompileInputs | internal/compiler/source.go:14-56 | the inputs a template may use, with reports exactly when a name is no identifier or comes twice, a type is not one of the four, or a default does not fit |
| Compiler.Compiler.CompileSourceBlock | internal/compiler/source.go:73-139 | reports exactly when source, fetch, template, session or workflow are not accepted together; otherwise mode, template, session and steps are those of the nodes, and the mode is the one the fields see |
| Compiler.Compiler.CompileProgram | internal/compiler/compiler.go:365-380 | reports exactly when inputs, source, transforms or output are not accepted, panics exactly when it comes to an empty `apply`; otherwise the program passes every preflight, mirrors its tree, and its recorded capabilities are those the executor derives |
| Compiler.ArgumentsFind | internal/compiler/helpers.go:35-61 | the compiler's property lookup and the executor's argument map see the same value, repeated names included |
| Compiler.CapabilitiesAgree | internal/executor/executor.go:237-300 | the set recorded on the way is the set derived from the result |
| Compiler.OwnerModeOfOnly | internal/compiler/output.go:297-313 | with one source and one fetch, the mode the fields look up is that of the fetch |
| Compiler.SignaturesAgree | internal/executor/transforms.go:25-49 | the executor's table of transforms has the signatures the compiler worked with |
| Compiler.FilterTwice | internal/compiler/output.go:229-288 | taking the member nodes out twice is taking them out once, so a collection is compiled from the nodes that were counted |
| Naming.Resolve | internal/compiler/transforms.go:253-267 | a name stands for a symbol exactly when it is plain and local, or has one dot with an alias before and a name of that import behind |
| Headings.EachCounts | internal/compiler/helpers.go:35-61 | in a node that is not reported on, the property looked up is the one written |
| Headings.LastCounts | internal/compiler/helpers.go:35-61 | of several properties of one name the last counts |
| Headings.FieldMeaning | internal/compiler/output.go:41-111 | a field is required exactly when it says so, has a default exactly when one is written, and that one, and never both |
| Headings.PolicyMeaning | internal/compiler/output.go:200-226 | the policy is the one written; without one required fields fail and the others yield null |
| Headings.SelectionMeaning | internal/compiler/output.go:41-111 | one match is asked for unless `first` is written |
| Headings.CollectionMeaning | internal/compiler/output.go:229-288 | the bounds are the least that honour what is written and what is required; rows fail unless `skip` is written |
| Headings.InputMeaning | internal/compiler/source.go:14-56 | an input is required unless it says otherwise, and has a default exactly when one is written |
| Headings.StepMeaning | internal/compiler/source.go:223-294 | every accepted step node becomes the step it says, with `visible` and 500 milliseconds where nothing is written |
| Headings.SessionMeaning | internal/compiler/source.go:100-139 | no session block asks for no session; otherwise the policy written |
| Headings.AppliesMeaning | internal/compiler/output.go:191-199 | a run of applies is accepted exactly when there are types between them that each apply leads along |
| Lexing.Lexer.Advance | internal/kdl/lexer.go:44-57 | line and column are always those of the offset |
| Lexing.Lexer.NextToken | internal/kdl/lexer.go:59-125 | the next token, its length and its reports are those the token functions give for the remaining text |
| Lexing.Lexer.SkipBlockComment | internal/kdl/lexer.go:133-156 | nested block comments end where the nesting closes, or are reported |
| Lexing.Lexer.ScanQuotedString | internal/kdl/lexer.go:167-231 | escapes, Unicode escapes, line breaks and missing quotes |
| Lexing.Lexer.ScanRawString | internal/kdl/lexer.go:251-312 | raw strings with any number of hashes, one quote or three |
| Lexing.Lexer.ScanNumber | internal/kdl/lexer.go:329-413 | signs, base prefixes, underscores, fractions and exponents, within 64 bits |
| Comments.LineCommentLexes | internal/kdl/lexer.go:127-131 | a line comment leaves no token and ends before the line break or with the text, whatever is in it |
| Comments.BlockCommentLexes | internal/kdl/lexer.go:133-156 | a closed block comment, with any comments nested in it, leaves no token |
| Comments.OpenCommentIsReported | internal/kdl/lexer.go:133-156 | a block comment that is never closed swallows the rest and is reported |
| Spelling.QuotedStringLexes | internal/kdl/lexer.go:167-231 | a quoted string is the characters its parts stand for, for every escape |
| Spelling.BrokenStringIsReported | internal/kdl/lexer.go:167-231 | a string broken by a line end, a bad escape or the end of the text is reported |
| Spelling.RawStringLexes | internal/kdl/lexer.go:233-327 | a raw string is its content as it stands, up to the first quotes with enough hashes |
| Spelling.BreaksLeftOut | internal/kdl/lexer.go:315-327 | three quotes leave out the line breaks next to them, also those of two characters |
| Spelling.PrefixedIntegerLexes | internal/kdl/lexer.go:329-413 | an integer with a base prefix is its value in that base without underscores, or reported when beyond 64 bits |
| Spelling.DecimalIntegerLexes | internal/kdl/lexer.go:329-413 | a decimal integer likewise |
| Spelling.DecimalLexes | internal/kdl/lexer.go:329-413 | a decimal is what the library reads of it, or reported when that is not finite |
| Spelling.MarksLex | internal/kdl/lexer.go:59-107 | the marks of the language are the tokens they stand for |
| Spelling.StrangeIsReported | internal/kdl/lexer.go:108-125 | a character that starts nothing is reported by itself |
| Parsing.Parser.Advance | internal/kdl/parser.go:36-39 | the parser sees the tokens of the document one by one, then the end for ever, while the lexer stays two tokens ahead |
| Parsing.Parser.ParseNode | internal/kdl/parser.go:68-136 | a node, or recovery after a bad start |
| Parsing.Parser.ParseEntries | internal/kdl/parser.go:84-136 | arguments, properties and the child block, in order |
| Parsing.Parser.ParseChildren | internal/kdl/parser.go:138-155 | children up to a closing brace or the end |
| Parsing.Parser.SkipSlashdashedNode | internal/kdl/parser.go:157-175 | a slashdash before a node |
| Parsing.Parser.SkipSlashdashedComponent | internal/kdl/parser.go:177-207 | a slashdash before an argument, a property or a child block |
| Parsing.Parser.SkipTypeAnnotation | internal/kdl/parser.go:247-263 | nested type annotations |
| Parsing.Parser.RecoverNode | internal/kdl/parser.go:265-272 | recovery stops after the line, or before a closing brace |
| Parsing.Parser.ParseDocument | internal/kdl/parser.go:41-66 | the whole document is read, whatever it holds |
| Parsing.ParseText | internal/kdl/parser.go:18-34 | parsing is total: it ends on every text, with the nodes and reports of the parsing functions |
| Printing.StringLexes | authoring/writer.go:341-373 | every string, printed, is one token with that string |
| Printing.IntLexes | authoring/writer.go:309-310 | every 64-bit integer, printed, is one token with that integer |
| Printing.FloatLexes | authoring/writer.go:322-328 | every binary64 number, printed, is one float token with that number |
| Printing.NodesLex | authoring/writer.go:330-339 | the lexer reads a printed tree as the tokens of the tree |
| Printing.NodeParses | internal/kdl/parser.go:68-136 | the parser reads the tokens of a node as that node, without reports |
| Printing.PrintThenParse | internal/kdl/parser.go:18-155 | every printable tree comes back as it was, without reports |
| Authoring.DocumentWriter.QuotedText | authoring/writer.go:341-373 | the quoted form of a string |
| Authoring.DocumentWriter.WriteBuiltinCall | authoring/writer.go:186-220 | accepts exactly the calls of the catalog and writes the call they stand for |
| Authoring.DocumentWriter.WriteField | authoring/writer.go:91-152 | accepts exactly the supported fields and writes the node they stand for |
| Authoring.DocumentWriter.WriteCollection | authoring/writer.go:154-184 | the same for collections, at every depth |
| Authoring.DocumentWriter.WriteDocument | authoring/writer.go:31-68 | accepts exactly the supported documents and writes the tree they stand for |
| Authoring.Write | authoring/writer.go:14-24 | text is returned exactly for supported documents, and is the text of the intended tree |
| Authoring.WriteThenParse | authoring/writer.go:14-68 | every document the writer accepts is read back as exactly the tree it stands for, without reports |
| Authoring.CatalogIsComplete | authoring/catalog.go:247-312 | the catalog lists exactly the arguments of the call surface |
| Frontend.ParsedTreesAreValid | internal/kdl/lexer.go:329-413 | every literal the parser delivers, from any text, is a 64-bit integer or a binary64 number, as the compiler relies on |
| Frontend.SlashdashDropsNode | internal/kdl/parser.go:157-175 | a slashdash drops exactly the node after it, children and all |
| Comments.NotedThenParse | internal/kdl/lexer.go:59-156 | a printed tree with blanks and block comments between its words and line comments at its line ends is read back as the same tree |
| Grammar.WrittenDocumentsParse | internal/kdl/parser.go:41-207 | whatever order arguments and properties have, however nodes are ended, and whatever a slashdash suppresses, the tree read is the one written |
| Grammar.AnnotationsAreReported | internal/kdl/parser.go:247-263 | a type annotation is skipped as a whole and reported |
| Grammar.EmptyPropertyIsDropped | internal/kdl/parser.go:116-126 | a property without a value is read as if it were not there, and at the end of a line nothing is reported |
| Frontend.WrittenCallsFit | authoring/writer.go:186-220 | a call the writer accepts has the shape the compiler asks of an `apply` node |
| Authored.WrittenCompilesIff | authoring/writer.go:28-68 | the text of an authored document compiles exactly when the document fits: names, types, selectors, bounds, template and chains, stated on the authoring model at every depth; it never panics |
| Authored.WrittenProgramSays | authoring/writer.go:28-220 | and the compiled program has the mode, session, template and members of the authored document, member by member, apart from the policy that is left out |
| Authored.WrittenField | authoring/writer.go:91-153 | a written field is accepted exactly when name, type, selector, attribute, chain and policy fit |
| Authored.WrittenMember | authoring/writer.go:70-184 | and so are members at every depth |
| Authored.WrittenCall | authoring/writer.go:186-220 | a written call is given the type its built-in makes of the input, and accepted exactly when its arguments fit |
| Authored.WrittenCallSays | authoring/writer.go:186-220 | and becomes a call of that built-in with the same arguments |
| Authored.PolicyIsKeptIff | authoring/writer.go:146-150 | the policy authored is the policy compiled exactly when the field is required or the policy is not `fail`; an optional field that should fail is compiled to yield null |
| Authored.WrittenFailIsAbsorbed | authoring/writer.go:146-150 | so an error in such a field becomes null without a warning, whatever it is |
| Documents.AliasesDiffer | internal/compiler/compiler.go:237-262 | no two imports followed have one alias |
| Documents.CollectedMeaning | internal/compiler/compiler.go:323-363 | transforms collected have different names, types of the language, and nodes of the document |
| Documents.FollowedMeaning | internal/compiler/compiler.go:237-262 | of the complete and local imports under one alias the first is followed, to the file its path resolves to, and no others |
| Documents.AllAreFollowed | internal/compiler/compiler.go:237-262 | in a document that is not reported on every import is followed, in order |
| Documents.AllAreCollected | internal/compiler/compiler.go:323-363 | in a document that is not reported on every transform is collected, in order, with the name and the types of its header |
| Documents.DeclaredNames | internal/compiler/compiler.go:323-363 | in a document that is not reported on, every declared name is an identifier and no built-in |
| Imports.Loader.LoadDocument | internal/compiler/compiler.go:132-228 | one file and all it imports: the stack of files being loaded is restored, what holds of the import graph is kept, every report has a reason, and without reports all that is finished is right |
| Imports.Loader.LoadRoot | internal/compiler/compiler.go:185-227 | the root, its header and the declared transforms: the document then holds its contents, and there are reports exactly when a check fails |
| Imports.Loader.CheckRootHeader | internal/compiler/compiler.go:264-321 | reports exactly when name, version, language version or the children of a module are not in order |
| Imports.Loader.CollectTransforms | internal/compiler/compiler.go:323-363 | collecting a second time, as for an import without transforms, changes nothing; reports exactly when a declaration is not in order |
| Imports.Loader.FollowImport | internal/compiler/compiler.go:237-262 | an import is followed exactly when its header is complete, not remote, and its alias new; whatever is not in order is reported |
| Imports.Load | internal/compiler/compiler.go:109-125 | loading terminates; it fails exactly when something reachable cannot be read, and reports nothing exactly when every reachable file parses and passes its checks and no cycle is reachable; then exactly the reachable files are loaded, with their contents, and recorded once |
| Imports.OrderedHasNoCycle | internal/compiler/compiler.go:132-228 | files that can be put in an order with imports first have no cycle |
| Reachable.SymbolsApart | internal/compiler/compiler.go:323-362 | a symbol tells its file and its name |
| Reachable.Collector.Visit | internal/compiler/transforms.go:15-50 | a document is visited once, after all it imports |
| Reachable.CompileReachable | internal/compiler/transforms.go:15-67 | the list is the needed documents in import order with names sorted, then the root's names in source order |
| Reachable.EachExactlyOnce | internal/compiler/transforms.go:15-67 | every transform declared by a needed document or the root is in the list, exactly once, and nothing else is |
| Reachable.ImportedComesFirst | internal/compiler/transforms.go:15-50 | transforms of an imported document come before those of its importers, the root included |
| Linking.ParsedFilesAreValid | internal/compiler/compiler.go:169-173 | files parsed from texts have only literals the compiler can rely on |
| Linking.LoadedIsAcyclic | internal/compiler/compiler.go:132-228 | after a load without reports all imports are loaded, and the documents are in an order with imports first |
| Linking.LoadedIsNamed | internal/compiler/compiler.go:323-363 | and their transforms have names that can be told apart |
| Linking.ListIsComplete | internal/compiler/transforms.go:15-67 | the list of transforms holds every transform of every loaded document, once |
| Linking.ListIsLinked | internal/compiler/compiler.go:360-362 | listing them gives every declaration once, under its own symbol, and the signatures of all |
| Linking.ScopeIsClosed | internal/compiler/transforms.go:253-267 | no dangling symbols: every name that a loaded document can use, its own or by alias, has a signature |
| Linking.LinkedIsOK | internal/compiler/transforms.go:253-267 | so all that the checking compiler relies on holds of what was loaded |
| Linking.LinkedOnce | internal/compiler/transforms.go:15-67 | declarations and signatures of the loaded documents are determined by the files |
| Linking.CompileFiles | internal/compiler/compiler.go:109-125 | from files to a program: unreadable, panicking or compiled, each exactly when the files are; a compiled program passes every preflight, has the capabilities the executor derives, says what all its documents say, and every call goes to the built-in or the declared transform that its name refers to in its own document |
| Linking.CompiledFilesConform | internal/executor/output_walker.go:27-101 | end to end: a successful run of a program compiled from files, over any page, yields exactly what the program declares |
| Linking.NamesRefer | internal/compiler/transforms.go:253-267 | in a loaded document `alias.name` stands for the transform of that name in the document imported under that alias, a plain name for the document's own, and nothing else for anything |
| Linking.AcceptedNamesRefer | internal/compiler/transforms.go:213-251 | a call of a transform is accepted exactly when its name refers to one, it has no other arguments, and the input fits |
| Linking.ImportsAreAsked | internal/compiler/compiler.go:237-262 | the aliases of a cleanly loaded document are those its import nodes ask for, with the files they resolve to |
| Linking.DeclaredAreWritten | internal/compiler/compiler.go:323-363 | and its names those of its transform nodes |
| Linking.BareApplyPanics | internal/compiler/transforms.go:198-212 | a concrete document that parses and loads without reports and on which the compiler runs past the end of an argument list |
| Template.CompileTemplate | internal/compiler/source.go:157-221 | the scan gives the segments of the template, and reports exactly when it is not clean or not an HTTP URL |
| Template.CompileThenEscape | internal/compiler/source.go:157-206 | a template without reports is the escaped form of its segments |
| Template.ScanIsNormal | internal/compiler/source.go:157-206 | its segments are in normal form, with placeholders that can be expanded |
| Template.EscapeThenCompile | internal/compiler/source.go:157-206 | compiling the escaped form of a normal segment list gives that list |
| Template.ExpandTemplate | internal/executor/template.go:11-37 | the expansion, or an error exactly when an input is missing or the result is no HTTP URL |
| Template.WritePercentEncoded | internal/executor/template.go:39-52 | the encoded text of a value |
| Template.PercentRoundTrip | internal/executor/template.go:39-52 | percent-encoding emits only unreserved characters and triplets, and decoding undoes it |
| Template.EncodedInputsDiffer | internal/executor/template.go:39-52 | different inputs are encoded differently |
| Template.InputsKeepStructure | internal/executor/template.go:11-37 | input values never add, remove or move a delimiter of the URL |
| Template.ExpandParts | internal/executor/template.go:11-37 | the expansion is one part for each segment: literals as they are, and for a placeholder a text that decodes to the UTF-8 bytes of that input; it fails exactly when an input is missing |
| Template.UsableIffProvided | internal/compiler/source.go:157-206 | a placeholder is accepted exactly when every admissible set of inputs gives it a value |
| Template.AcceptedTemplatesExpand | internal/executor/template.go:11-37 | so an accepted template never lacks an input |
| CanonicalNumber.CanonicalNumber | internal/canonicaljson/canonical.go:204-260 | the digit-string algorithm computes the canonical text |
| CanonicalNumber.CanonicalKeepsValue | internal/canonicaljson/canonical.go:204-260 | the exact decimal value is kept exactly when the number does not underflow to zero |
| CanonicalNumber.CanonicalUnique | internal/canonicaljson/canonical.go:204-260 | any two accepted spellings of one value get the same text |
| CanonicalNumber.CanonicalIsShortest | internal/canonicaljson/canonical.go:204-260 | the canonical text has no exponent and no zero too many |
| CanonicalNumber.CanonicalIdempotent | internal/canonicaljson/canonical.go:204-260 | a canonical text is its own canonical text |
| CanonicalJSON.Printer.AppendString | internal/canonicaljson/canonical.go:169-202 | the quoted form of a string |
| CanonicalJSON.Printer.AppendValue | internal/canonicaljson/canonical.go:95-167 | the canonical text of a value, or an error exactly when a number lies outside binary64 |
| CanonicalJSON.TextsApart | internal/canonicaljson/canonical.go:169-202 | a quoted string is self-delimiting |
| CanonicalJSON.PrintInjective | internal/canonicaljson/canonical.go:95-202 | one text, one value, up to the spelling of numbers |
| CanonicalJSON.SamePrintsAlike | internal/canonicaljson/canonical.go:95-202 | values that differ only in the spelling of numbers have one text |
| CanonicalJSON.NumbersApart | internal/canonicaljson/canonical.go:204-260 | two spellings get one text exactly when they denote one number |
| CanonicalJSON.OrderIsInvisible | internal/canonicaljson/canonical.go:43-93 | the order of members cannot be seen in what is decoded |
| JSONReading.ValueReads | internal/canonicaljson/canonical.go:95-202 | a reader of JSON text that knows nothing of the printer reads canonical text as the value it was printed from and stops at its end |
| JSONReading.CanonicalDecodes | internal/canonicaljson/canonical.go:95-167 | which is the value printed, up to the spelling of numbers |
| JSONReading.TextReads | internal/canonicaljson/canonical.go:169-202 | a quoted string is read as that string |
| JSONReading.KeysAreSorted | internal/canonicaljson/canonical.go:136-140 | members are printed in the order of their keys' bytes, each once |
| CanonicalJSON.DecodeMembersMeaning | internal/canonicaljson/canonical.go:53-76 | an object decodes exactly when no key is repeated, to its members |
| CanonicalJSON.CompareCodePoints | packages/scrape-kdl/src/canonical-json.ts:21-29 | the TypeScript comparison orders keys as Go orders their UTF-8 bytes |
| Sorting.BeforeIsByteOrder | internal/canonicaljson/canonical.go:136-140 | the order of code points is the order of UTF-8 bytes |
| Sorting.IncreasingUnique | internal/canonicaljson/canonical.go:136-140 | a set of keys has one sorted order |
| Dom.Node.AppendChild | internal/dom/node.go:36-50 | every cached position and count stays what it stands for |
| Dom.Node.IsEmpty | internal/dom/node.go:158-171 | no element and no non-empty text among the children |
| Dom.MetadataFor | packages/scrape-kdl/src/dom.ts:137-161 | the one-pass positions are the counts they stand for |
| Dom.EnginesAgree | packages/scrape-kdl/src/dom.ts:137-161 | both engines give an element the same positions, those of its type when lower-casing keeps sibling tags apart |
| Dom.EnginesAgreeOnlyThen | packages/scrape-kdl/src/dom.ts:137-161 | the type counts of both engines agree for all siblings only then |
| Selectors.NthMeaning | internal/dom/selector.go:258-275 | with Go's truncating division, a position matches An+B exactly when it is positive and A*n+B for some n >= 0 |
| Selectors.AttributeMeaning | internal/dom/selector.go:190-218 | what each attribute operator means for every value: a prefix, a suffix, a part, a word, equality or a prefix before a hyphen, as some text put around the value |
| Selectors.SimpleMeaning | internal/dom/selector.go:150-188 | tag, identifier, classes and attributes of a compound selector, by those meanings |
| Selectors.MatchCompound | internal/dom/selector.go:150-188 | the search loops decide the compound selector, whose parts `Selectors.SimpleMeaning` and `Selectors.PseudoMeaning` state one by one |
| Selectors.PseudoMeaning | internal/dom/selector.go:220-256 | every structural pseudo-class, read from cached positions, is what section 6.6.5 of Selectors Level 3 defines, also inside :not |
| Matching.MatchComplex | internal/dom/selector.go:111-148 | right-to-left matching with backtracking terminates and agrees with the recursive meaning of section 8 of Selectors Level 3 |
| Matching.BeforeMeaning | internal/dom/selector.go:138-144 | following previous elements reaches exactly the elements before, under the same parent |
| Matching.AdjacentMeaning | internal/dom/selector.go:136-137 | the previous element is the only adjacent one |
| Matching.AssignedIff | internal/dom/selector.go:111-148 | matching finds exactly the elements that end an assignment of one element to every part |
| Matching.CombinatorMeaning | internal/dom/selector.go:111-148 | the combinators of section 8 of Selectors Level 3 by children and parents: among the children, below by a line of parents, after with no element between, after |
| Matching.CompoundMeaning | internal/dom/selector.go:150-256 | in a tree, a compound selector matches by its simple selectors and by the definitions of its pseudo-classes |
| Querying.Query.Walk | internal/dom/selector.go:86-107 | the walk collects matches in document order and stops at the limit |
| Querying.QueryLimit | internal/dom/selector.go:78-109 | the first `limit` matching descendants in document order, or all of them |
| Querying.QueryAllIsExact | internal/dom/selector.go:72-109 | an unlimited query finds exactly the matching descendants, each once, in document order |
| Querying.BelowMeaning | internal/dom/selector.go:86-107 | the elements walked are exactly those that lead up to the root by elements |
| Querying.LimitsSuffice | internal/executor/executor.go:535-549 | looking for one match, or two, decides as looking for all does |
| Querying.SelectElement | internal/executor/executor.go:530-550 | missing, ambiguous or the same element as an unlimited query |
| Building.Attach | internal/dom/node.go:36-50 | appending one tree to the root of another keeps both well indexed |
| Building.Convert | internal/dom/parser.go:25-56 | the converted tree is valid at every node and is the source tree without what is dropped |
| Leases.PlaywrightLease.DoAcquire | packages/scrape-kdl-playwright/src/index.ts:65-83 | a call of acquire |
| Leases.PlaywrightLease.DoListener | packages/scrape-kdl-playwright/src/index.ts:74-78 | an abort listener running |
| Leases.PlaywrightLease.DoRelease | packages/scrape-kdl-playwright/src/index.ts:280-300 | a release callback, also when called again, with its loop over aborted waiters |
| Leases.PlaywrightLease.DoClose | packages/scrape-kdl-playwright/src/index.ts:270-278 | closing with callers waiting |
| Leases.AlwaysSafe | packages/scrape-kdl-playwright/src/index.ts:65-300 | in every order of events at most one lease is out, callers wait only while it is, each is settled or waiting, in the order of their calls, and only aborted ones are turned away before close |
| Leases.SettledOnce | packages/scrape-kdl-playwright/src/index.ts:65-300 | no step changes what a caller was told |
| Leases.NoGrantAfterClose | packages/scrape-kdl-playwright/src/index.ts:270-278 | nothing is granted once the adapter is closed |
| Leases.AcquireDecides | packages/scrape-kdl-playwright/src/index.ts:65-83 | a call is rejected, granted or queued behind all others, exactly when |
| Leases.ListenerDecides | packages/scrape-kdl-playwright/src/index.ts:74-78 | the listener of an aborted waiter rejects that waiter, who waits no longer, and nobody else |
| Leases.ReleaseDecides | packages/scrape-kdl-playwright/src/index.ts:280-300 | a release passes the lease to the first waiter who was not aborted and rejects those before; a second release does nothing |
| Leases.CloseDecides | packages/scrape-kdl-playwright/src/index.ts:270-278 | closing rejects everybody who waits and takes no lease back |
| Leases.AlwaysListens | packages/scrape-kdl-playwright/src/index.ts:65-300 | in every run whoever waits with a signal has a listener |
| Leases.GrantsAreFirstCome | packages/scrape-kdl-playwright/src/index.ts:280-300 | a caller is granted only when every earlier one was granted or aborted |
| Leases.ReleaseWakes | packages/scrape-kdl-playwright/src/index.ts:280-300 | while callers wait a lease is out, and its release settles the first of them |
| Leases.OneToken | adapters/rod/adapter.go:122-145 | tokens in the channel and leases out always come to one |
| Leases.UsesDecide | adapters/rod/adapter.go:122-145 | the lease can be taken exactly when none is out, and giving it back makes room for the next |
| Leases.RodLease.Release | adapters/rod/adapter.go:142-145 | the first release finds the channel empty, so its send never blocks; further ones change nothing |

## Left out

- External transforms, readers and row queries are functions of their arguments: a host that answers differently to the same question is not modelled.
- Library functions are assumed, with the laws written down in `Values.Host.Lawful`, `Floats.Lawful`, `Printing.FloatsReadBack` and `Frontend.FloatsAreRepresentable`, which `Assumptions.AssumptionsHold` shows can hold together: rounding to binary formats, the texts of strconv and fmt for floats, case mapping, regular expressions and URL parsing. The two zeros are one value.
- Messages, spans and the order of diagnostics: a report is a code, in the order it is made; the final sort is left out. Where a check reports several things at once the model may report one.
- Kind tags of the IR and missing parts inside types, which only a hand-made IR can have.
- Text is a sequence of Unicode characters, so byte offsets are character offsets and texts that are not UTF-8 do not occur; a NUL character and the end of the text look alike, as in the lexer.
- The memo of compiled transforms and the `compiling` flag: every declaration is compiled once, so neither is ever read.
- Names, versions and files of an extractor are checked and not put into the compiled program.
- File paths are opaque: how they are cleaned, resolved and shown is given, and different files are assumed to be shown differently, as `filepath.Rel` does with clean paths.
- `Values.MatchesAssignable` and type soundness hold for JSON-compatible values only; the executor does not check what external transforms return beyond its own type test, and `Conformance.ExternalsMustBeJSON` shows the consequence.
- ParsedTreesAreValid: says nothing about spans, which the parser ends at the last argument even when a property follows.
- EqualScalarMeaning: floats are equal when the library writes them alike, which is left to the library.
- BoundsReturn: how two numbers compare after rounding is left to the library, as is the text of a float.
- CompileStep: scroll coordinates are exact numbers, not rounded to binary64.
- CompileTransformCall: the out-of-range access on an `apply` without arguments is recorded as a flag, which `Linking.CompileFiles` turns into an outcome, instead of ending the run at once.
- Load: a canceled context is not modelled, only files that cannot be read.
- ReadOutputField: text and markup of an element are functions of the element; serialisation is left out.
- ParseSelector and parseNth: the text form of selectors is not modelled, matching starts from parsed selectors.
- Fetching, redirects, decoding of bytes, HTML parsing and serialisation, sessions, browser operations and timers, network-idle tracking.
- Command lines, descriptors, result decoding by reflection, and the TypeScript copies of compiler, runtime, parser and selector parser.
