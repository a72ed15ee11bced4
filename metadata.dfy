/**
  The API metadata graph the generator reads: services ("APIs") holding
  operations, whose output shapes are structures, lists, maps or scalars.
  Go keeps the members of a structure and the operations of a service in
  maps, whose iteration order is unspecified; here they are sequences in an
  arbitrary order, and every property proved below holds for every order
  unless it says otherwise.
 */
module Metadata {
  import opened Wrappers

  /** The type name of a scalar shape (`string`, `timestamp`, `long`, ...): any name but the three composite ones. */
  type ScalarKind = k: string | k != "structure" && k != "list" && k != "map" witness "string"

  datatype Shape =
    | Structure(members: seq<Member>)
    | List(element: Shape)
    | Map(value: Shape)
    | Scalar(kind: ScalarKind)

  /** A member of a structure: its field name and its shape. */
  datatype Member = Member(name: string, shape: Shape)

  /** An operation: its API name, its exported Go name, the names of its required input fields and its output shape. */
  datatype Operation = Operation(name: string, exportedName: string, requiredInputs: seq<string>, output: Shape)

  /** One service of the metadata: its Go package name and its operations. */
  datatype Api = Api(packageName: string, operations: seq<Operation>)

  /** The `Type` string of a shape. */
  function TypeName(s: Shape): (r: string)
    ensures r == "list" <==> s.List?
    ensures r == "map" <==> s.Map?
    ensures r == "structure" <==> s.Structure?
  {
    match s
    case Structure(_) => "structure"
    case List(_) => "list"
    case Map(_) => "map"
    case Scalar(k) => k
  }

  /** The members of a shape: those of a structure, none for any other shape. */
  function Members(s: Shape): seq<Member>
  {
    if s.Structure? then s.members else []
  }

  /** Member names are keys of a Go map, so within one structure they are distinct. */
  predicate DistinctNames(ms: seq<Member>)
  {
    forall i, j :: 0 <= i < j < |ms| ==> ms[i].name != ms[j].name
  }

  /** `MemberRefs[name]`: the shape of the member with that name, if there is one. */
  function Lookup(ms: seq<Member>, name: string): (r: Option<Shape>)
    ensures r.None? <==> forall m :: m in ms ==> m.name != name
    ensures r.Some? ==> Member(name, r.value) in ms
    decreases |ms|
  {
    if |ms| == 0 then None
    else if ms[0].name == name then Some(ms[0].shape)
    else Lookup(ms[1..], name)
  }
}
