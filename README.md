# awsls list-function generator, modelled in Dafny

This project models the heuristic engine of awsls's code generator
(`gen/aws/list.go`). For every Terraform resource type such as
`aws_lambda_function`, the engine decides five things from the metadata of
the AWS SDK (services, their operations, and the operations' output shapes):

- which operation lists the instances: a `Describe`, `Get` or `List`
  operation whose name, once the prefix is trimmed and the rest is
  lower-cased, equals a plural guess for the type;
- which output member holds the list;
- which member of a list element is the resource ID;
- which optional fragments apply: tags, creation time and the owner filter;
- what to call the generated function.

`GenerateListFunctions` chains these stages for every type of every covered
service. It counts four kinds of failure, records a `GeneratedResourceInfo`
per generated type, and sorts each service's records by type.

Modules, one file each, leaves first:

- `Wrappers`: `Option` and `Result`.
- `Text`: ASCII stand-ins for the parts of Go's `strings` package that the
  generator uses, and Go's byte-wise string order.
- `Metadata`: the metadata graph.
  - A `Shape` is a structure of members, a list, a map or a scalar kind.
  - An `Operation` has a name, an exported name, required inputs and an output shape.
  - An `Api` is a package name and its operations.
  - Go keeps members and operations in maps, so they are sequences here,
    in an arbitrary order.
- `Naming`: the plural guesses and `TypeToOpName`.
- `ListOperations`: `operationsOfService`, `exactMatch`,
  `GetListOperationCandidates` and the prefix filter `Operations`.
- `OutputField`: `GetOutputFieldCandidates` and `findOutputField`.
- `ResourceId`: `GetResourceIDNameCandidates`.
- `Fragments`: `GetTagsGoCode`, `GetCreationTimeGoCode` and `GetOwnerGoCode`.
  Each fragment is a structured value, plus a function that renders it as Go text.
- `ResourceInfo`: `GeneratedResourceInfo` and the per-service sort by type.
- `Generate`: the body of the inner loop as staged functions (`Resolve`,
  `FromCandidates`, `FromOutputField`, `FromElement`). The two loops of
  `GenerateListFunctions` are methods:
  - `VisitService` runs over the resource types in an arbitrary order;
  - `GenerateAll` runs over the covered services;
  - `GenerateListFunctions` is the entry point.
- `Scenarios` and `EndToEnd`: two of the list functions that ship with the
  repository, `ListLambdaFunction` and `ListDevicefarmProject`. They are
  derived from small metadata through every stage.

Inputs and outcomes:

- The tables defined outside `list.go` are parameters (`Tables`, `Config`):
  - `ManualMatchedListOps`, `ManualMatchedOutputFields`, `ManualMatchedResourceID`;
  - `ExcludedResourceTypes`;
  - `Inputs`;
  - the resource-ID table.
- So is the list of covered services.
- The Go code dereferences nil in one place: an output field that is missing
  or is not a list, when the resource-ID or fragment code reads it. The model
  turns this into the fatal outcome `NilDereference`, which ends the run.
- Writing a file is not modelled. The types whose file cannot be written are
  the parameter `unwritable`, and a failed write ends the run, as
  `log.Fatal` does.
- The four counters are only logged by Go. The model returns them in a `Report`.

Points where the code does something its names do not suggest:

- **Creation time.** The outer loop runs over the members, so the first
  member, in member order, that carries a known name with a handled type
  decides the creation time. The position of its name in the known-name list
  does not decide it. `Fragments.CreationTimeDependsOnMemberOrder` shows the
  two results.
- **Plural guesses.** The guesses join the tokens without lower-casing them.
- **ID member of `aws_devicefarm_project`.** The shipped file reads `Arn`,
  which must come from the resource-ID table or the manual override (neither
  is shown). With the name placeholder it would read `Name`. `EndToEnd`
  proves both.
- **Missing operation override.** If the override names an operation the
  service lacks, the code falls through to the heuristics rather than failing.

## Model

| member | source | states |
|---|---|---|
| Naming.PluralCandidatesLength | gen/aws/list.go:428-446 | the guesses number two per token plus one per suffix word ending in `y` |
| Naming.PluralCandidatesMembers | gen/aws/list.go:428-446 | a string is a guess exactly when it is the `s`, `es` or `ies` form of the tokens joined from some start index on |
| Naming.PluralCandidatesBlock | gen/aws/list.go:433-443 | the guesses come in one block per start index, in increasing order, each block being the plural forms of that suffix word |
| Naming.TypeToOpNameHasNoSeparators | gen/aws/list.go:467-473 | for every type, the function name holds neither `_` nor a space |
| Naming.TypeToOpNameCapitalizesTokens | gen/aws/list.go:467-473 | for non-empty tokens of ASCII letters and digits, the function name is the tokens, each with its first letter upper-cased, run together |
| ListOperations.WithPrefix | gen/aws/list.go:457-461 | exactly the operations whose exported name starts with the prefix |
| ListOperations.OperationsOfService | gen/aws/list.go:448-465 | exactly the operations with the prefix of the APIs whose package is the service |
| ListOperations.FirstWithRemainder | gen/aws/list.go:416-421 | none when no remainder equals the guess, otherwise the first operation whose remainder does |
| ListOperations.MatchGuesses | gen/aws/list.go:412-426 | none exactly when no remainder is a guess; otherwise an operation whose remainder is the earliest guess any operation matches |
| ListOperations.CandidatesByPrefix | gen/aws/list.go:386-403 | one operation per matched prefix, in prefix order, each from the service with the prefix and a remainder that is a guess |
| ListOperations.ListOperationCandidates | gen/aws/list.go:376-410 | an override that names an operation of the service gives that operation alone; otherwise at most three candidates, one per matched prefix, each of the service, with its prefix and a guess as remainder |
| ListOperations.MatchedPrefixesEmpty | gen/aws/list.go:391-403 | no candidate exactly when no prefix has an operation whose remainder is a guess |
| ListOperations.FindByExportedName | gen/aws/list.go:379-383 | none exactly when no operation has the name, otherwise an operation of the list with that name |
| ListOperations.Operations | gen/aws/list.go:348-362 | exactly the operation names, over all APIs, that start with one of the prefixes and do not contain `Tags` |
| ListOperations.NamesWithPrefixes | gen/aws/list.go:352-359 | one service's part of the prefix filter, with the same membership |
| ListOperations.PrefixesOf | gen/aws/list.go:353-354 | the prefixes one name passes: each prefix the name starts with, as often as it is listed, and none when the name contains `Tags` |
| ListOperations.NamesOfOneOperation | gen/aws/list.go:352-359 | one operation adds only its own name, once for every prefix it passes |
| ListOperations.NamesWithPrefixesAppend | gen/aws/list.go:352-359 | the names of consecutive operations are concatenated in operation order |
| ListOperations.OperationsAppend | gen/aws/list.go:351-361 | the names of consecutive APIs are concatenated in API order |
| ListOperations.OperationsOfOneApi | gen/aws/list.go:352-360 | one API gives its operations' names; with the lemmas above this fixes every name's position and multiplicity in the result |
| OutputField.ListMembers | gen/aws/list.go:220-226 | exactly the members that are lists of the shape type, distinct when member names are |
| OutputField.FieldCandidates | gen/aws/list.go:212-229 | the output-field override alone when there is one, otherwise exactly the output members that are lists of the shape type |
| OutputField.FindOutputField | gen/aws/list.go:257-292 | success exactly when one candidate operation alone has exactly one field candidate, giving that field and operation; no such operation is its own error |
| ResourceId.NameScan | gen/aws/list.go:195-203 | a member named `Name` ends the scan with `["Name"]`; otherwise the gathered names plus the name-like members |
| ResourceId.NameCandidates | gen/aws/list.go:192-206 | `["Name"]` whenever a member is named `Name`, whatever the order; otherwise exactly the members whose lower-cased name contains `name` |
| ResourceId.NameCandidatesSingle | gen/aws/list.go:192-206 | without a `Name` member, exactly one candidate when exactly one member is name-like |
| Fragments.TagsCodeOf | gen/aws/list.go:231-255 | the list form only with a list `Tags` member, the map form only with a map one, and nothing exactly when no `Tags` member is a list or a map |
| Fragments.TagsCodeExact | gen/aws/list.go:231-247 | with distinct member names, the list form exactly when `Tags` is a list and the map form exactly when it is a map |
| Fragments.RenderTags | gen/aws/list.go:235-245 | the tags text is empty exactly when there is no tags fragment |
| Fragments.FormAmong | gen/aws/list.go:308-326 | a known name with type `string`, `timestamp` or `long` gives the parse, pass-through or milliseconds form on that member; any other type gives nothing |
| Fragments.CreationTimeOf | gen/aws/list.go:307-330 | no creation time exactly when no member has a known name and a handled type; otherwise the first such member, in member order, with the form its type fixes |
| Fragments.CreationTimeGoCodeCases | gen/aws/list.go:294-331 | `("", [])` exactly when no member yields a creation time; otherwise the field is a known name and the imports are `["time"]`, `[]`, `["time"]` for the three types |
| Fragments.CreationTimeDependsOnMemberOrder | gen/aws/list.go:307-309 | the same two members in the two orders give two different creation-time fields |
| Fragments.RenderCreationTime | gen/aws/list.go:310-322 | the creation-time text is empty exactly when there is no creation time |
| Fragments.OwnerCodeOf | gen/aws/list.go:333-346 | the owner filter exactly when a member is named `OwnerId` |
| Fragments.RenderOwner | gen/aws/list.go:335-338 | the owner text is empty exactly when there is no owner filter |
| ResourceInfo.SortByType | gen/aws/list.go:175-178 | the records sorted by type, a permutation of the input, types staying distinct |
| ResourceInfo.SortedIsUnique | gen/aws/list.go:175-178 | two sorted sequences of records with distinct types and the same elements are equal |
| Generate.ElementMembers | gen/aws/list.go:78 | the element's members exactly when the output field exists and is a list |
| Generate.ResourceIdOf | gen/aws/list.go:87-118 | the override wins verbatim; missing exactly when in neither table; a table entry other than the placeholder is used; with the placeholder, nil dereference exactly without an element and found exactly when one name candidate |
| Generate.StagesInOrder | gen/aws/list.go:43-118 | a type that fails a stage before the resource ID stops with that stage's outcome: excluded gives `Excluded`, no candidate `NoListOperationCandidate`, no structure field `StringOutputFieldOnly` or `NoOutputField` as the string pass succeeds or not, required input `RequiredInputFields`; one that passes them all has the outcome of the resource-ID stage on the chosen operation and field |
| Generate.ResolvedPassesEveryStage | gen/aws/list.go:43-124 | a type gets a list function exactly when it is not excluded, has a candidate, a structure output field, no required input, a list element and a resource ID |
| Generate.IdStageResolved | gen/aws/list.go:87-124 | the resource-ID stage generates exactly when there is an element and an ID |
| Generate.StringOnlyOutputFieldIsSilent | gen/aws/list.go:63-76 | a field found only among lists of strings skips the type uncounted, no field at all is counted, and the counted outcomes are exactly the four counted kinds |
| Generate.NoResourceIDOnlyWhenInNeitherTable | gen/aws/list.go:87-114 | the missing-ID counter rises exactly for a type in neither table; with the placeholder, zero or several candidates skip the type uncounted |
| Generate.ManualResourceIDUsedVerbatim | gen/aws/list.go:87-88 | the resource-ID override is the ID as it is, even when it is the placeholder; without an element the run crashes |
| Generate.ResolvedRecord | gen/aws/list.go:120-159 | a generated type's function holds the operation, field, name, inputs and fragments; `Tags` is membership in the tagged types; `CreationTime` and `Owner` are true exactly when their fragments are non-empty, that is when a member yields them |
| Generate.CountedByStage | gen/aws/list.go:55-91 | each counter rises exactly when its own stage fails: `NoListOpCandidates` for a non-excluded type with no candidate; `NoOutputFieldName` when both the structure and the string pass find no field; `RequiredFields` when the structure field's operation requires input; `NoResourceIDFound` for a type reaching the ID stage that is in neither ID table |
| Generate.VisitService | gen/aws/list.go:38-173 | either a type of the service that ends the run, or a full visit: no fatal type, every generated type's name, function and record added once, every counted failure added to its counter |
| Generate.SortedRecord | gen/aws/list.go:175-181 | sorting a service's records gives its record list: sorted, distinct types, exactly the generated types' records |
| Generate.RecordedIsUnique | gen/aws/list.go:175-181 | a service's record list does not depend on the order the types were visited in |
| Generate.NamesInMembers | gen/aws/list.go:124 | a type has a name after the covered services exactly when its service is covered and it passes every stage, and the name is `TypeToOpName` of it |
| Generate.WrittenInMembers | gen/aws/list.go:120-169 | a type has a written function exactly when it has a name, and the function is its stages' result |
| Generate.GenerateAll | gen/aws/list.go:33-182 | the outer loop either stops at a fatal type of a covered service, or returns the names, functions, counters and per-service records of all covered services |
| Generate.GenerateListFunctions | gen/aws/list.go:23-190 | a run ends at a fatal type, or returns exactly the generated types with their names and functions, a record list for exactly the services with a generated type, each sorted with distinct types, and each counter at its expected count |
| Scenarios.LambdaFunctionPlurals | gen/aws/list.go:428-446 | `aws_lambda_function` gives `lambdafunctions`, `lambdafunctiones`, `functions`, `functiones` |
| Scenarios.DevicefarmProjectPlurals | gen/aws/list.go:428-446 | `aws_devicefarm_project` gives `devicefarmprojects`, `devicefarmprojectes`, `projects`, `projectes` |
| Scenarios.DevicefarmProjectOpName | aws/aws_devicefarm_project.go:11 | `aws_devicefarm_project` is named `DevicefarmProject` |
| Scenarios.LambdaFunctionOpName | aws/aws_lambda_function.go:11 | `aws_lambda_function` is named `LambdaFunction` |
| EndToEnd.SoleListOperation | gen/aws/list.go:386-403 | a service with one `List` operation whose remainder is a guess has that operation as its one candidate |
| EndToEnd.UpToResourceId | gen/aws/list.go:55-85 | through the list-operation, output-field and required-input stages, a one-operation service reaches the resource-ID stage on the list's element |
| EndToEnd.LambdaFunctionResolved | aws/aws_lambda_function.go:11-24 | `ListFunctions`, field `Functions`, ID `FunctionName`, name `LambdaFunction`, no fragment |
| EndToEnd.DevicefarmProjectByArn | aws/aws_devicefarm_project.go:11-24 | `ListProjects`, field `Projects`, ID `Arn` from the table, name `DevicefarmProject`, no fragment |
| EndToEnd.DevicefarmProjectByPlaceholder | gen/aws/list.go:97-116 | with the name placeholder, `Name` is the ID of `aws_devicefarm_project`, `Arn` beside it being no name-like member |

## Left out

- Writing the generated file (`writeListFunction`, `util.WriteGoFile`, `op.GoCode()`): template rendering and file I/O that the code does not show. Which writes fail is the parameter `unwritable`, and a failure ends the run.
- Logging (`log.*`, `fmt.Printf`) is not modelled. This includes the near-miss diagnostics on `owner` and `Tag` members and the owner scan over input members (gen/aws/list.go:161-165).
- The `ops` list and its `sort.Strings` in `GetListOperationCandidates`: debug output only.
- Loading the SDK's API models and the SDK's own `Shape` and `Operation` types: these are a foreign library, replaced by the `Metadata` datatypes.
- The override tables, `Inputs`, `ExcludedResourceTypes`, the resource-ID table and `ServicesCoveredByTerraform` are defined outside `list.go`. They are parameters.
- The `ListOperationCandidates` struct (gen/aws/list.go:364-368) is never used.
- `strings.ToLower` and `strings.Title` are modelled on ASCII only. Other characters are left unchanged.
- Fragment texts keep the statements of the Go raw strings but not their indentation.
- `sort.Slice` is modelled as a functional insertion sort. It is not stable, which does not matter because types within a service are distinct.
- The fixed width of Go's `int` counters is not modelled. The counters are unbounded.
- ResourceId.NameCandidates: without a `Name` member, states membership, not order. The order is that of the member map, which is unspecified.
- Naming.TypeToOpNameCapitalizesTokens: stated for non-empty tokens of ASCII letters and digits (a type name with two adjacent underscores is not covered). `strings.Title` also starts a new word after other separators, which this lemma does not describe.
