/**
  Two of the shipped list functions, `ListLambdaFunction` and
  `ListDevicefarmProject`, derived through every stage from small metadata
  holding the operation each of them calls.
 */
module EndToEnd {
  import opened Wrappers
  import opened Text
  import opened Metadata
  import opened Naming
  import opened ListOperations
  import opened OutputField
  import opened ResourceId
  import opened Fragments
  import opened ResourceInfo
  import opened Generate
  import opened Scenarios

  // ---------------------------------------------------------------------------
  // Metadata

  const StringKind: ScalarKind := "string"

  const FunctionConfiguration: Shape := Structure([
    Member("FunctionName", Scalar(StringKind)),
    Member("FunctionArn", Scalar(StringKind)),
    Member("LastModified", Scalar(StringKind))])

  const ListFunctions: Operation := Operation("ListFunctions", "ListFunctions", [],
    Structure([Member("Functions", List(FunctionConfiguration)), Member("NextMarker", Scalar(StringKind))]))

  const Project: Shape := Structure([Member("Arn", Scalar(StringKind)), Member("Name", Scalar(StringKind))])

  const ListProjects: Operation := Operation("ListProjects", "ListProjects", [],
    Structure([Member("Projects", List(Project)), Member("NextToken", Scalar(StringKind))]))

  /** No override, no tagged type, no input code: one service holding one operation. */
  function OneServiceConfig(rType: string, service: string, resourceID: string, op: Operation): Config
  {
    Config(Tables(map[], map[], map[], {}, map[]), map[rType := service], map[rType := resourceID], [],
      [Api(service, [op])])
  }

  // ---------------------------------------------------------------------------
  // The stages on one operation

  /** A service with a single `List` operation whose remainder is a guess: that operation is the one candidate. */
  lemma SoleListOperation(rType: string, service: string, op: Operation)
    requires !HasPrefix(op.exportedName, "Describe") && !HasPrefix(op.exportedName, "Get")
    requires HasPrefix(op.exportedName, "List") && Remainder(op, "List") in PluralCandidates(rType)
    ensures ListOperationCandidates(map[], rType, service, [Api(service, [op])]) == [op]
  {
    var apis := [Api(service, [op])];
    NoOperationWithPrefix(rType, service, op, "Describe");
    NoOperationWithPrefix(rType, service, op, "Get");
    OperationWithPrefix(rType, service, op, "List");
    OnlyListMatches(rType, service, apis);
    SoleCandidate(rType, service, op);
  }

  /** With only `List` matched and no override, the one operation of the service is the candidate. */
  lemma SoleCandidate(rType: string, service: string, op: Operation)
    requires MatchedPrefixes(rType, service, [Api(service, [op])], ListPrefixes) == ["List"]
    ensures ListOperationCandidates(map[], rType, service, [Api(service, [op])]) == [op]
  {
    var r := ListOperationCandidates(map[], rType, service, [Api(service, [op])]);
    assert |r| == 1;
    OnlyOperation(service, op, r[0]);
  }

  lemma NoOperationWithPrefix(rType: string, service: string, op: Operation, p: string)
    requires !HasPrefix(op.exportedName, p)
    ensures !PrefixMatches(rType, service, [Api(service, [op])], p)
  {
    assert forall o :: o in OperationsOfService([Api(service, [op])], service, p) ==> o == op;
  }

  lemma OperationWithPrefix(rType: string, service: string, op: Operation, p: string)
    requires HasPrefix(op.exportedName, p) && Remainder(op, p) in PluralCandidates(rType)
    ensures PrefixMatches(rType, service, [Api(service, [op])], p)
  {
    assert op in OperationsOfService([Api(service, [op])], service, p);
  }

  /** Of the three prefixes, only `List` is matched. */
  lemma OnlyListMatches(rType: string, service: string, apis: seq<Api>)
    requires !PrefixMatches(rType, service, apis, "Describe") && !PrefixMatches(rType, service, apis, "Get")
    requires PrefixMatches(rType, service, apis, "List")
    ensures MatchedPrefixes(rType, service, apis, ListPrefixes) == ["List"]
  {
    assert ListPrefixes[1..] == ["Get", "List"] && ListPrefixes[2..] == ["List"];
    assert MatchedPrefixes(rType, service, apis, ["List"]) == ["List"];
    assert MatchedPrefixes(rType, service, apis, ["Get", "List"]) == ["List"];
  }

  lemma OnlyOperation(service: string, op: Operation, o: Operation)
    requires o in ServiceOperations([Api(service, [op])], service)
    ensures o == op
  {
  }

  /** An output of one list and one scalar member: the list is the one field candidate. */
  lemma ListThenScalar(rType: string, op: Operation, f: string, e: Shape, g: string, k: ScalarKind)
    requires op.output == Structure([Member(f, List(e)), Member(g, Scalar(k))]) && e.Structure?
    ensures FieldCandidates(map[], rType, op, "structure") == [f]
  {
    var ms := Members(op.output);
    assert ms[1..] == [Member(g, Scalar(k))];
    assert ListMembers(ms[1..][1..], "structure") == [];
    assert ListMembers(ms[1..], "structure") == [];
    assert IsListOf(ms[0].shape, "structure");
  }

  /** One candidate operation with exactly one field candidate: that field of that operation. */
  lemma OneFieldOneOperation(rType: string, op: Operation, f: string)
    requires FieldCandidates(map[], rType, op, "structure") == [f]
    ensures FindOutputField(map[], rType, [op], "structure") == Success((f, op))
  {
    assert SoleWithOneField(map[], rType, [op], "structure", 0);
  }

  /**
    Through the list-operation, output-field and required-input stages of a
    one-operation service: the outcome is that of the resource-ID stage on
    the members of the list's element.
   */
  lemma UpToResourceId(rType: string, service: string, resourceID: string, op: Operation,
                       f: string, e: Shape, g: string, k: ScalarKind)
    requires !HasPrefix(op.exportedName, "Describe") && !HasPrefix(op.exportedName, "Get")
    requires HasPrefix(op.exportedName, "List") && Remainder(op, "List") in PluralCandidates(rType)
    requires op.output == Structure([Member(f, List(e)), Member(g, Scalar(k))]) && e.Structure?
    requires op.requiredInputs == []
    ensures var cfg := OneServiceConfig(rType, service, resourceID, op);
      OutcomeOf(cfg, rType) == FromElement(cfg, rType, f, op, Some(e.members))
  {
    var cfg := OneServiceConfig(rType, service, resourceID, op);
    SoleListOperation(rType, service, op);
    ListThenScalar(rType, op, f, e, g, k);
    OneFieldOneOperation(rType, op, f);
    assert Resolve(cfg, rType, service) == FromCandidates(cfg, rType, [op]);
    assert FromCandidates(cfg, rType, [op]) == FromOutputField(cfg, rType, f, op);
    assert Lookup(Members(op.output), f) == Some(List(e));
  }

  /** Element members with none of the names the fragments look for give no fragment. */
  lemma NoFragments(ms: seq<Member>)
    requires forall m :: m in ms ==> m.name !in CreationTimeFieldNames && m.name != "Tags" && m.name != "OwnerId"
    ensures TagsGoCode(ms) == "" && CreationTimeGoCode(ms) == ("", []) && OwnerGoCode(ms) == ""
  {
    CreationTimeGoCodeCases(ms);
  }

  /**
    A type resolved from a one-operation service with no fragment: the
    list function calls the operation, ranges over the field and reads the
    given ID member, and the record has no optional fragment.
   */
  lemma ResolvedWithoutFragments(rType: string, service: string, resourceID: string, op: Operation,
                                 f: string, e: Shape, id: string)
    requires e.Structure?
    requires var cfg := OneServiceConfig(rType, service, resourceID, op);
      OutcomeOf(cfg, rType) == FromElement(cfg, rType, f, op, Some(e.members))
    requires ResourceIdOf(Tables(map[], map[], map[], {}, map[]), map[rType := resourceID], rType, Some(e.members))
          == IdFound(id)
    requires forall m :: m in e.members ==> m.name !in CreationTimeFieldNames && m.name != "Tags" && m.name != "OwnerId"
    ensures OutcomeOf(OneServiceConfig(rType, service, resourceID, op), rType)
         == Resolved(ListFunction(op, f, rType, id, TypeToOpName(rType), "", "", "", [], ""),
                     GeneratedResourceInfo(rType, false, false, false))
  {
    NoFragments(e.members);
  }

  lemma StartsDifferently(s: string, p: string)
    requires |s| > 0 && |p| > 0 && s[0] != p[0]
    ensures !HasPrefix(s, p)
  {
    if |p| <= |s| { assert s[..|p|][0] == s[0]; }
  }

  /** A name that starts with `List` has none of the other two prefixes. */
  lemma ListNamed(s: string)
    requires |s| >= 4 && s[..4] == "List"
    ensures !HasPrefix(s, "Describe") && !HasPrefix(s, "Get") && HasPrefix(s, "List")
  {
    StartsDifferently(s, "Describe");
    StartsDifferently(s, "Get");
  }

  // ---------------------------------------------------------------------------
  // aws_lambda_function

  lemma ListFunctionsRemainder()
    ensures Remainder(ListFunctions, "List") == "functions"
  {
    ListNamed("ListFunctions");
    assert TrimPrefix("ListFunctions", "List") == "Functions";
  }

  lemma ListFunctionsMatches()
    ensures Remainder(ListFunctions, "List") in PluralCandidates("aws_lambda_function")
  {
    ListFunctionsRemainder();
    LambdaFunctionPlurals();
  }

  lemma FunctionConfigurationNames()
    ensures forall m :: m in FunctionConfiguration.members ==>
      m.name !in CreationTimeFieldNames && m.name != "Tags" && m.name != "OwnerId"
  {
  }

  /**
    `aws_lambda_function` with `FunctionName` in the resource-ID table:
    `ListFunctions`, the field `Functions`, the ID `FunctionName`, the
    function name `LambdaFunction`, and no fragment.
   */
  lemma LambdaFunctionResolved()
    ensures OutcomeOf(OneServiceConfig("aws_lambda_function", "lambda", "FunctionName", ListFunctions),
                      "aws_lambda_function")
         == Resolved(ListFunction(ListFunctions, "Functions", "aws_lambda_function", "FunctionName",
                                  "LambdaFunction", "", "", "", [], ""),
                     GeneratedResourceInfo("aws_lambda_function", false, false, false))
  {
    ListNamed("ListFunctions");
    ListFunctionsMatches();
    assert ListFunctions.output
        == Structure([Member("Functions", List(FunctionConfiguration)), Member("NextMarker", Scalar(StringKind))]);
    UpToResourceId("aws_lambda_function", "lambda", "FunctionName", ListFunctions,
      "Functions", FunctionConfiguration, "NextMarker", StringKind);
    FunctionConfigurationNames();
    ResolvedWithoutFragments("aws_lambda_function", "lambda", "FunctionName", ListFunctions,
      "Functions", FunctionConfiguration, "FunctionName");
    LambdaFunctionOpName();
  }

  // ---------------------------------------------------------------------------
  // aws_devicefarm_project

  lemma ListProjectsRemainder()
    ensures Remainder(ListProjects, "List") == "projects"
  {
    ListNamed("ListProjects");
    assert TrimPrefix("ListProjects", "List") == "Projects";
  }

  lemma ListProjectsMatches()
    ensures Remainder(ListProjects, "List") in PluralCandidates("aws_devicefarm_project")
  {
    ListProjectsRemainder();
    DevicefarmProjectPlurals();
  }

  lemma ProjectNames()
    ensures forall m :: m in Project.members ==>
      m.name !in CreationTimeFieldNames && m.name != "Tags" && m.name != "OwnerId"
  {
  }

  lemma ProjectHasName()
    ensures exists m :: m in Project.members && m.name == "Name"
  {
    assert Project.members[1].name == "Name";
  }

  /** With the name placeholder, a member named `Name` is the ID. */
  lemma PlaceholderFindsName(rType: string, ms: seq<Member>)
    requires exists m :: m in ms && m.name == "Name"
    ensures ResourceIdOf(Tables(map[], map[], map[], {}, map[]), map[rType := NamePlaceholder], rType, Some(ms))
         == IdFound("Name")
  {
  }

  /** `ListProjects` and its field `Projects`, whatever the resource-ID table holds. */
  lemma DevicefarmProjectStages(resourceID: string)
    ensures var cfg := OneServiceConfig("aws_devicefarm_project", "devicefarm", resourceID, ListProjects);
      OutcomeOf(cfg, "aws_devicefarm_project")
      == FromElement(cfg, "aws_devicefarm_project", "Projects", ListProjects, Some(Project.members))
  {
    ListNamed("ListProjects");
    ListProjectsMatches();
    assert ListProjects.output == Structure([Member("Projects", List(Project)), Member("NextToken", Scalar(StringKind))]);
    UpToResourceId("aws_devicefarm_project", "devicefarm", resourceID, ListProjects,
      "Projects", Project, "NextToken", StringKind);
  }

  /**
    `aws_devicefarm_project` with the name placeholder: the member `Name`
    is found, `Arn` beside it being no name-like member.
   */
  lemma DevicefarmProjectByPlaceholder()
    ensures OutcomeOf(OneServiceConfig("aws_devicefarm_project", "devicefarm", NamePlaceholder, ListProjects),
                      "aws_devicefarm_project")
         == Resolved(ListFunction(ListProjects, "Projects", "aws_devicefarm_project", "Name",
                                  "DevicefarmProject", "", "", "", [], ""),
                     GeneratedResourceInfo("aws_devicefarm_project", false, false, false))
  {
    DevicefarmProjectStages(NamePlaceholder);
    ProjectHasName();
    PlaceholderFindsName("aws_devicefarm_project", Project.members);
    ProjectNames();
    ResolvedWithoutFragments("aws_devicefarm_project", "devicefarm", NamePlaceholder, ListProjects,
      "Projects", Project, "Name");
    DevicefarmProjectOpName();
  }

  /** `aws_devicefarm_project` with `Arn` in the resource-ID table, as the shipped `ListDevicefarmProject` reads. */
  lemma DevicefarmProjectByArn()
    ensures OutcomeOf(OneServiceConfig("aws_devicefarm_project", "devicefarm", "Arn", ListProjects),
                      "aws_devicefarm_project")
         == Resolved(ListFunction(ListProjects, "Projects", "aws_devicefarm_project", "Arn",
                                  "DevicefarmProject", "", "", "", [], ""),
                     GeneratedResourceInfo("aws_devicefarm_project", false, false, false))
  {
    DevicefarmProjectStages("Arn");
    ProjectNames();
    ResolvedWithoutFragments("aws_devicefarm_project", "devicefarm", "Arn", ListProjects,
      "Projects", Project, "Arn");
    DevicefarmProjectOpName();
  }
}
