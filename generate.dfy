/**
  `GenerateListFunctions`: for every resource type of every covered service,
  the stages in turn (exclusion, list operation, output field, required
  input, resource ID, fragments), the failure counters, and the per-service
  records sorted by type.
 */
module Generate {
  import opened Wrappers
  import opened Text
  import opened Metadata
  import opened Naming
  import opened ListOperations
  import opened OutputField
  import opened ResourceId
  import opened Fragments
  import opened ResourceInfo

  /** The resource-ID table value that asks for a name-like member instead. */
  const NamePlaceholder: string := "NAME_PLACEHOLDER"

  /** The override tables and the input code table, defined outside the generator. */
  datatype Tables = Tables(
    manualListOps: map<string, string>,       // ManualMatchedListOps
    manualOutputFields: map<string, string>,  // ManualMatchedOutputFields
    manualResourceID: map<string, string>,    // ManualMatchedResourceID
    excluded: set<string>,                    // ExcludedResourceTypes
    inputs: map<string, string>)              // Inputs

  /** What one generation run reads besides the covered services. */
  datatype Config = Config(
    tables: Tables,
    resourceServices: map<string, string>,  // resource type -> service
    resourceIDs: map<string, string>,       // resource type -> ID member, or the placeholder
    typesWithTags: seq<string>,
    apis: seq<Api>)

  /** The operation as annotated for the list-function template. */
  datatype ListFunction = ListFunction(
    operation: Operation,
    outputListName: string,
    terraformType: string,
    resourceID: string,
    opName: string,
    inputs: string,
    tagsCode: string,
    creationTimeCode: string,
    imports: seq<string>,
    ownerCode: string)

  /** The members of the output field's list element; `None` where Go dereferences nil (no such field, or not a list). */
  function ElementMembers(field: Option<Shape>): (r: Option<seq<Member>>)
    ensures r.Some? <==> field.Some? && field.value.List?
  {
    if field.Some? && field.value.List? then Some(Members(field.value.element)) else None
  }

  datatype IdOutcome =
    | IdFound(id: string)
    | IdMissing                            // in neither table: counted
    | NameAmbiguous(candidates: seq<string>)  // placeholder, several name-like members: skipped silently
    | NameMissing                          // placeholder, no name-like member: skipped silently
    | IdNilDereference                     // placeholder, but the output field has no list element

  /**
    The resource-ID stage. The override is used verbatim, even when it is
    the placeholder; then the resource-ID table, whose placeholder value
    asks for the single name-like member of the element.
   */
  function ResourceIdOf(tables: Tables, resourceIDs: map<string, string>, rType: string,
                        elem: Option<seq<Member>>): (r: IdOutcome)
    ensures rType in tables.manualResourceID ==> r == IdFound(tables.manualResourceID[rType])
    ensures r == IdMissing <==> rType !in tables.manualResourceID && rType !in resourceIDs
    ensures rType !in tables.manualResourceID && rType in resourceIDs && resourceIDs[rType] != NamePlaceholder ==>
      r == IdFound(resourceIDs[rType])
    ensures rType !in tables.manualResourceID && rType in resourceIDs && resourceIDs[rType] == NamePlaceholder ==>
      && (r == IdNilDereference <==> elem.None?)
      && (elem.Some? ==> (r.IdFound? <==> |NameCandidates(elem.value)| == 1))
      && (r.IdFound? ==> elem.Some? && NameCandidates(elem.value) == [r.id])
  {
    if rType in tables.manualResourceID then IdFound(tables.manualResourceID[rType])
    else if rType !in resourceIDs then IdMissing
    else if resourceIDs[rType] != NamePlaceholder then IdFound(resourceIDs[rType])
    else if elem.None? then IdNilDereference
    else
      var cands := NameCandidates(elem.value);
      if |cands| > 1 then NameAmbiguous(cands)
      else if |cands| == 0 then NameMissing
      else IdFound(cands[0])
  }

  datatype Outcome =
    | Excluded
    | NoListOperationCandidate
    | NoOutputField
    | StringOutputFieldOnly
    | RequiredInputFields(required: seq<string>)
    | NoResourceID
    | AmbiguousNameID(candidates: seq<string>)
    | NoNameID
    | NilDereference
    | Resolved(fn: ListFunction, info: GeneratedResourceInfo)

  /** The annotated operation and the record for a type that passed every stage. */
  function Generated(cfg: Config, rType: string, op: Operation, fieldName: string, id: string,
                     ms: seq<Member>): Outcome
  {
    var tags := TagsGoCode(ms);
    var (creationTime, imports) := CreationTimeGoCode(ms);
    var owner := OwnerGoCode(ms);
    var inputs := if rType in cfg.tables.inputs then cfg.tables.inputs[rType] else "";
    Resolved(
      ListFunction(op, fieldName, rType, id, TypeToOpName(rType), inputs, tags, creationTime, imports, owner),
      GeneratedResourceInfo(rType, rType in cfg.typesWithTags, creationTime != "", owner != ""))
  }

  /** One resource type of a service, through every stage of the loop body. */
  function Resolve(cfg: Config, rType: string, service: string): (o: Outcome)
    ensures o.Resolved? ==> o.info.resourceType == rType && o.fn.terraformType == rType
  {
    if rType in cfg.tables.excluded then Excluded
    else FromCandidates(cfg, rType, ListOperationCandidates(cfg.tables.manualListOps, rType, service, cfg.apis))
  }

  /** The stages after the list operation candidates are known. */
  function FromCandidates(cfg: Config, rType: string, cands: seq<Operation>): (o: Outcome)
    ensures o.Resolved? ==> o.info.resourceType == rType && o.fn.terraformType == rType
  {
    if |cands| == 0 then NoListOperationCandidate
    else
      match FindOutputField(cfg.tables.manualOutputFields, rType, cands, "structure")
      case Failure(_) =>
        if FindOutputField(cfg.tables.manualOutputFields, rType, cands, "string").Failure? then NoOutputField
        else StringOutputFieldOnly
      case Success((fieldName, op)) => FromOutputField(cfg, rType, fieldName, op)
  }

  /** The stages after the output field is chosen. */
  function FromOutputField(cfg: Config, rType: string, fieldName: string, op: Operation): (o: Outcome)
    ensures o.Resolved? ==> o.info.resourceType == rType && o.fn.terraformType == rType
  {
    if |op.requiredInputs| > 0 then RequiredInputFields(op.requiredInputs)
    else FromElement(cfg, rType, fieldName, op, ElementMembers(Lookup(Members(op.output), fieldName)))
  }

  /** The resource-ID stage and the fragments, given the list element's members. */
  function FromElement(cfg: Config, rType: string, fieldName: string, op: Operation, elem: Option<seq<Member>>)
    : (o: Outcome)
    ensures o.Resolved? ==> o.info.resourceType == rType && o.fn.terraformType == rType
  {
    match ResourceIdOf(cfg.tables, cfg.resourceIDs, rType, elem)
    case IdMissing => NoResourceID
    case NameAmbiguous(c) => AmbiguousNameID(c)
    case NameMissing => NoNameID
    case IdNilDereference => NilDereference
    case IdFound(id) =>
      if elem.None? then NilDereference
      else Generated(cfg, rType, op, fieldName, id, elem.value)
  }

  /** The stages before the resource ID are passed: not excluded, a candidate, a structure field, no required input. */
  ghost predicate ReachesIdStage(cfg: Config, rType: string, service: string)
  {
    rType !in cfg.tables.excluded &&
    var cands := ListOperationCandidates(cfg.tables.manualListOps, rType, service, cfg.apis);
    |cands| > 0 &&
    var found := FindOutputField(cfg.tables.manualOutputFields, rType, cands, "structure");
    found.Success? && |found.value.1.requiredInputs| == 0
  }

  /** The output field and operation chosen for a type that reaches the resource-ID stage. */
  ghost function Chosen(cfg: Config, rType: string, service: string): (string, Operation)
    requires ReachesIdStage(cfg, rType, service)
  {
    var cands := ListOperationCandidates(cfg.tables.manualListOps, rType, service, cfg.apis);
    FindOutputField(cfg.tables.manualOutputFields, rType, cands, "structure").value
  }

  /** The element members of the chosen output field, `None` where Go dereferences nil. */
  ghost function ElementOf(cfg: Config, rType: string, service: string): Option<seq<Member>>
    requires ReachesIdStage(cfg, rType, service)
  {
    ElementMembers(Lookup(Members(Chosen(cfg, rType, service).1.output), Chosen(cfg, rType, service).0))
  }

  /**
    The stages run in order: a type that does not reach the resource-ID
    stage is excluded, has no candidate, no structure output field (a
    string one or none) or required input; one that does is decided by the
    resource ID and the element members of the chosen field.
   */
  lemma StagesInOrder(cfg: Config, rType: string, service: string)
    ensures rType in cfg.tables.excluded ==> Resolve(cfg, rType, service) == Excluded
    ensures var cands := ListOperationCandidates(cfg.tables.manualListOps, rType, service, cfg.apis);
      rType !in cfg.tables.excluded && |cands| == 0 ==> Resolve(cfg, rType, service) == NoListOperationCandidate
    ensures var cands := ListOperationCandidates(cfg.tables.manualListOps, rType, service, cfg.apis);
      rType !in cfg.tables.excluded && |cands| > 0
      && FindOutputField(cfg.tables.manualOutputFields, rType, cands, "structure").Failure? ==>
      Resolve(cfg, rType, service)
      == if FindOutputField(cfg.tables.manualOutputFields, rType, cands, "string").Success? then StringOutputFieldOnly
         else NoOutputField
    ensures var cands := ListOperationCandidates(cfg.tables.manualListOps, rType, service, cfg.apis);
      var found := FindOutputField(cfg.tables.manualOutputFields, rType, cands, "structure");
      rType !in cfg.tables.excluded && |cands| > 0 && found.Success? && |found.value.1.requiredInputs| > 0 ==>
      Resolve(cfg, rType, service) == RequiredInputFields(found.value.1.requiredInputs)
    ensures !ReachesIdStage(cfg, rType, service) ==>
      var o := Resolve(cfg, rType, service);
      o.Excluded? || o.NoListOperationCandidate? || o.NoOutputField? || o.StringOutputFieldOnly? || o.RequiredInputFields?
    ensures ReachesIdStage(cfg, rType, service) ==>
      Resolve(cfg, rType, service) ==
      FromElement(cfg, rType, Chosen(cfg, rType, service).0, Chosen(cfg, rType, service).1, ElementOf(cfg, rType, service))
  {
    EarlyStages(cfg, rType, service);
    if rType !in cfg.tables.excluded {
      var cands := ListOperationCandidates(cfg.tables.manualListOps, rType, service, cfg.apis);
      if |cands| > 0 {
        var found := FindOutputField(cfg.tables.manualOutputFields, rType, cands, "structure");
        if found.Success? {
          assert Resolve(cfg, rType, service) == FromOutputField(cfg, rType, found.value.0, found.value.1);
        }
      }
    }
  }

  /** The stages before the resource ID, each with the outcome that stops the type there. */
  lemma EarlyStages(cfg: Config, rType: string, service: string)
    ensures rType in cfg.tables.excluded ==> Resolve(cfg, rType, service) == Excluded
    ensures var cands := ListOperationCandidates(cfg.tables.manualListOps, rType, service, cfg.apis);
      rType !in cfg.tables.excluded && |cands| == 0 ==> Resolve(cfg, rType, service) == NoListOperationCandidate
    ensures var cands := ListOperationCandidates(cfg.tables.manualListOps, rType, service, cfg.apis);
      rType !in cfg.tables.excluded && |cands| > 0
      && FindOutputField(cfg.tables.manualOutputFields, rType, cands, "structure").Failure? ==>
      Resolve(cfg, rType, service)
      == if FindOutputField(cfg.tables.manualOutputFields, rType, cands, "string").Success? then StringOutputFieldOnly
         else NoOutputField
    ensures var cands := ListOperationCandidates(cfg.tables.manualListOps, rType, service, cfg.apis);
      var found := FindOutputField(cfg.tables.manualOutputFields, rType, cands, "structure");
      rType !in cfg.tables.excluded && |cands| > 0 && found.Success? && |found.value.1.requiredInputs| > 0 ==>
      Resolve(cfg, rType, service) == RequiredInputFields(found.value.1.requiredInputs)
  {
    if rType !in cfg.tables.excluded {
      var cands := ListOperationCandidates(cfg.tables.manualListOps, rType, service, cfg.apis);
      assert Resolve(cfg, rType, service) == FromCandidates(cfg, rType, cands);
    }
  }

  /**
    Each counter rises exactly when its own stage fails: no list-operation
    candidate; no output field in the structure pass nor the string pass;
    a structure field whose operation requires input; and, for a type that
    reaches the resource-ID stage, no entry in either ID table.
   */
  lemma CountedByStage(cfg: Config, rType: string, service: string)
    ensures var cands := ListOperationCandidates(cfg.tables.manualListOps, rType, service, cfg.apis);
      Counted(Resolve(cfg, rType, service)) == Some(NoListOpCandidates) <==>
      rType !in cfg.tables.excluded && |cands| == 0
    ensures var cands := ListOperationCandidates(cfg.tables.manualListOps, rType, service, cfg.apis);
      Counted(Resolve(cfg, rType, service)) == Some(NoOutputFieldName) <==>
      && rType !in cfg.tables.excluded && |cands| > 0
      && FindOutputField(cfg.tables.manualOutputFields, rType, cands, "structure").Failure?
      && FindOutputField(cfg.tables.manualOutputFields, rType, cands, "string").Failure?
    ensures var cands := ListOperationCandidates(cfg.tables.manualListOps, rType, service, cfg.apis);
      var found := FindOutputField(cfg.tables.manualOutputFields, rType, cands, "structure");
      Counted(Resolve(cfg, rType, service)) == Some(RequiredFields) <==>
      rType !in cfg.tables.excluded && |cands| > 0 && found.Success? && |found.value.1.requiredInputs| > 0
    ensures Counted(Resolve(cfg, rType, service)) == Some(NoResourceIDFound) <==>
      ReachesIdStage(cfg, rType, service)
      && rType !in cfg.tables.manualResourceID && rType !in cfg.resourceIDs
  {
    StagesInOrder(cfg, rType, service);
    if ReachesIdStage(cfg, rType, service) {
      var (fieldName, op) := Chosen(cfg, rType, service);
      NoResourceIDOnlyWhenInNeitherTable(cfg, rType, fieldName, op, ElementOf(cfg, rType, service));
    }
  }

  /**
    A type gets a list function exactly when it passes every stage in
    order: not excluded, a list-operation candidate, a structure output
    field, no required input, a resource ID, and a list element to read.
   */
  lemma ResolvedPassesEveryStage(cfg: Config, rType: string, service: string)
    ensures Resolve(cfg, rType, service).Resolved? <==>
      && ReachesIdStage(cfg, rType, service)
      && ElementOf(cfg, rType, service).Some?
      && ResourceIdOf(cfg.tables, cfg.resourceIDs, rType, ElementOf(cfg, rType, service)).IdFound?
  {
    StagesInOrder(cfg, rType, service);
    if ReachesIdStage(cfg, rType, service) {
      var (fieldName, op) := Chosen(cfg, rType, service);
      IdStageResolved(cfg, rType, fieldName, op, ElementOf(cfg, rType, service));
    }
  }

  lemma IdStageResolved(cfg: Config, rType: string, fieldName: string, op: Operation, elem: Option<seq<Member>>)
    ensures FromElement(cfg, rType, fieldName, op, elem).Resolved? <==>
      elem.Some? && ResourceIdOf(cfg.tables, cfg.resourceIDs, rType, elem).IdFound?
  {
  }

  /**
    The list-operation and output-field stages: an output field found only
    among lists of strings skips the type without counting it, unlike no
    field at all.
   */
  lemma StringOnlyOutputFieldIsSilent(cfg: Config, rType: string, cands: seq<Operation>)
    ensures FromCandidates(cfg, rType, cands) == StringOutputFieldOnly <==>
      && |cands| > 0
      && FindOutputField(cfg.tables.manualOutputFields, rType, cands, "structure").Failure?
      && FindOutputField(cfg.tables.manualOutputFields, rType, cands, "string").Success?
    ensures FromCandidates(cfg, rType, cands) == NoOutputField <==>
      && |cands| > 0
      && FindOutputField(cfg.tables.manualOutputFields, rType, cands, "structure").Failure?
      && FindOutputField(cfg.tables.manualOutputFields, rType, cands, "string").Failure?
    ensures Counted(FromCandidates(cfg, rType, cands)) == None <==>
      !FromCandidates(cfg, rType, cands).NoListOperationCandidate? && !FromCandidates(cfg, rType, cands).NoOutputField?
      && !FromCandidates(cfg, rType, cands).RequiredInputFields? && !FromCandidates(cfg, rType, cands).NoResourceID?
  {
  }

  /**
    The resource-ID stage: the missing-ID counter rises only for a type in
    neither ID table; with the placeholder, zero or several name-like
    members skip the type without counting it.
   */
  lemma NoResourceIDOnlyWhenInNeitherTable(cfg: Config, rType: string, fieldName: string, op: Operation,
                                           elem: Option<seq<Member>>)
    ensures Counted(FromElement(cfg, rType, fieldName, op, elem)) == Some(NoResourceIDFound) <==>
      rType !in cfg.tables.manualResourceID && rType !in cfg.resourceIDs
    ensures rType !in cfg.tables.manualResourceID && rType in cfg.resourceIDs
            && cfg.resourceIDs[rType] == NamePlaceholder && elem.Some? && |NameCandidates(elem.value)| != 1 ==>
      Counted(FromElement(cfg, rType, fieldName, op, elem)) == None
      && !FromElement(cfg, rType, fieldName, op, elem).Resolved?
  {
  }

  /**
    The resource-ID override is used as it is, even when it is the
    placeholder; without a list element to read the run crashes.
   */
  lemma ManualResourceIDUsedVerbatim(cfg: Config, rType: string, fieldName: string, op: Operation,
                                     elem: Option<seq<Member>>)
    requires rType in cfg.tables.manualResourceID
    ensures elem.Some? ==>
      FromElement(cfg, rType, fieldName, op, elem).Resolved?
      && FromElement(cfg, rType, fieldName, op, elem).fn.resourceID == cfg.tables.manualResourceID[rType]
    ensures elem.None? ==> FromElement(cfg, rType, fieldName, op, elem) == NilDereference
  {
  }

  /**
    What a generated type's list function and record hold: the chosen
    operation and field, the function name, the input code, the fragments
    of the element members; `Tags` is membership in the tagged types, and
    `CreationTime` and `Owner` are true exactly when their fragments are
    non-empty, that is when a member yields a creation time and when a
    member is named `OwnerId`.
   */
  lemma ResolvedRecord(cfg: Config, rType: string, fieldName: string, op: Operation, elem: Option<seq<Member>>)
    requires FromElement(cfg, rType, fieldName, op, elem).Resolved?
    ensures elem.Some?
    ensures var o := FromElement(cfg, rType, fieldName, op, elem);
      var ms := elem.value;
      && o.fn.outputListName == fieldName && o.fn.operation == op
      && o.fn.opName == TypeToOpName(rType)
      && o.fn.inputs == (if rType in cfg.tables.inputs then cfg.tables.inputs[rType] else "")
      && o.fn.tagsCode == TagsGoCode(ms)
      && (o.fn.creationTimeCode, o.fn.imports) == CreationTimeGoCode(ms)
      && o.fn.ownerCode == OwnerGoCode(ms)
      && o.info.resourceType == rType
      && o.info.tags == (rType in cfg.typesWithTags)
      && o.info.creationTime == (o.fn.creationTimeCode != "")
      && o.info.creationTime == (exists m :: m in ms && IsCreationTimeField(m))
      && o.info.owner == (o.fn.ownerCode != "")
      && o.info.owner == (exists m :: m in ms && m.name == "OwnerId")
  {
  }

  /** The outcome of the type as the loop sees it, with its own service. */
  function OutcomeOf(cfg: Config, rType: string): Outcome
    requires rType in cfg.resourceServices
  {
    Resolve(cfg, rType, cfg.resourceServices[rType])
  }

  /** The four failures the run counts; every other skip is silent. */
  datatype Counter = RequiredFields | NoOutputFieldName | NoListOpCandidates | NoResourceIDFound

  function Counted(o: Outcome): (c: Option<Counter>)
    ensures c == Some(RequiredFields) <==> o.RequiredInputFields?
    ensures c == Some(NoOutputFieldName) <==> o.NoOutputField?
    ensures c == Some(NoListOpCandidates) <==> o.NoListOperationCandidate?
    ensures c == Some(NoResourceIDFound) <==> o.NoResourceID?
  {
    match o
    case RequiredInputFields(_) => Some(RequiredFields)
    case NoOutputField => Some(NoOutputFieldName)
    case NoListOperationCandidate => Some(NoListOpCandidates)
    case NoResourceID => Some(NoResourceIDFound)
    case _ => None
  }

  datatype Report = Report(requiredFields: nat, noOutputFieldName: nat, noListOpCandidates: nat, noResourceID: nat)

  function CountOf(rep: Report, c: Counter): nat
  {
    match c
    case RequiredFields => rep.requiredFields
    case NoOutputFieldName => rep.noOutputFieldName
    case NoListOpCandidates => rep.noListOpCandidates
    case NoResourceIDFound => rep.noResourceID
  }

  /** The report with one counter incremented. */
  function Bump(rep: Report, c: Counter): (r: Report)
    ensures forall d :: CountOf(r, d) == CountOf(rep, d) + (if d == c then 1 else 0)
  {
    match c
    case RequiredFields => rep.(requiredFields := rep.requiredFields + 1)
    case NoOutputFieldName => rep.(noOutputFieldName := rep.noOutputFieldName + 1)
    case NoListOpCandidates => rep.(noListOpCandidates := rep.noListOpCandidates + 1)
    case NoResourceIDFound => rep.(noResourceID := rep.noResourceID + 1)
  }

  /** The outcome ends the process: a nil dereference, or a list function that cannot be written. */
  predicate Fatal(o: Outcome, unwritable: bool)
  {
    o.NilDereference? || (o.Resolved? && unwritable)
  }

  /*
    The loops below take the per-type stages as a function value `resolve`
    (resource type, service) -> outcome; `GenerateListFunctions` passes
    `Stages(cfg)`. A `Resolved` outcome must describe its own type.
   */
  type Resolver = (string, string) -> Outcome

  ghost predicate Describes(resolve: Resolver)
  {
    forall t, s :: resolve(t, s).Resolved? ==> resolve(t, s).info.resourceType == t
  }

  /** The types of `service` among `visited`. */
  ghost predicate OfService(rs: map<string, string>, service: string, t: string)
  {
    t in rs && rs[t] == service
  }

  /** The list-function names recorded for the types of `service` among `visited`. */
  ghost function NamesAmong(resolve: Resolver, rs: map<string, string>, service: string, visited: set<string>)
    : map<string, string>
  {
    map t | t in visited && OfService(rs, service, t) && resolve(t, service).Resolved? :: TypeToOpName(t)
  }

  /** The list functions written for the types of `service` among `visited`. */
  ghost function WrittenAmong(resolve: Resolver, rs: map<string, string>, service: string, visited: set<string>)
    : map<string, ListFunction>
  {
    map t | t in visited && OfService(rs, service, t) && resolve(t, service).Resolved? :: resolve(t, service).fn
  }

  /** The types of `service` among `visited` that increment counter `c`. */
  ghost function CountedAmong(resolve: Resolver, rs: map<string, string>, service: string, visited: set<string>,
                              c: Counter): set<string>
  {
    set t | t in visited && OfService(rs, service, t) && Counted(resolve(t, service)) == Some(c)
  }

  /** The records of the types of `service` among `visited` that pass every stage. */
  ghost function InfosAmong(resolve: Resolver, rs: map<string, string>, service: string, visited: set<string>)
    : set<GeneratedResourceInfo>
  {
    set t | t in visited && OfService(rs, service, t) && resolve(t, service).Resolved? :: resolve(t, service).info
  }

  /** What counter `c` reads after the services `covered`, each visited in full. */
  ghost function ExpectedCount(resolve: Resolver, rs: map<string, string>, covered: seq<string>, c: Counter): nat
  {
    if covered == [] then 0
    else ExpectedCount(resolve, rs, covered[..|covered| - 1], c)
         + |CountedAmong(resolve, rs, covered[|covered| - 1], rs.Keys, c)|
  }

  /**
    A service visited in full: none of its types is fatal, every type that
    passes every stage adds its name, its list function and its record
    (one per type), and every counted failure adds one to its counter.
   */
  ghost predicate Visited(resolve: Resolver, rs: map<string, string>, service: string, unwritable: set<string>,
                          tally: Tally, next: Tally, perService: seq<GeneratedResourceInfo>)
  {
    && (forall t :: OfService(rs, service, t) ==> !Fatal(resolve(t, service), t in unwritable))
    && next.names == tally.names + NamesAmong(resolve, rs, service, rs.Keys)
    && next.written == tally.written + WrittenAmong(resolve, rs, service, rs.Keys)
    && (forall c ::
          CountOf(next.report, c) == CountOf(tally.report, c) + |CountedAmong(resolve, rs, service, rs.Keys, c)|)
    && DistinctTypes(perService)
    && (forall x :: x in perService <==> x in InfosAmong(resolve, rs, service, rs.Keys))
  }

  /** The per-service state of the loop that the services share. */
  datatype Tally = Tally(names: map<string, string>, written: map<string, ListFunction>, report: Report)

  /**
    The inner loop: every resource type, in arbitrary order, skipping those
    of other services. Returns the type that ended the process, if any, and
    otherwise the updated tally and the service's records, unsorted.
   */
  method VisitService(rs: map<string, string>, service: string, unwritable: set<string>, resolve: Resolver,
                      tally: Tally)
    returns (abort: Option<string>, next: Tally, perService: seq<GeneratedResourceInfo>)
    requires Describes(resolve)
    ensures abort.Some? ==>
      OfService(rs, service, abort.value) && Fatal(resolve(abort.value, service), abort.value in unwritable)
    ensures abort.None? ==> Visited(resolve, rs, service, unwritable, tally, next, perService)
  {
    next := tally;
    perService := [];
    var all := rs.Keys;
    var remaining := all;
    while remaining != {}
      invariant remaining <= all
      invariant forall t :: t in all - remaining && OfService(rs, service, t) ==> !Fatal(resolve(t, service), t in unwritable)
      invariant next.names == tally.names + NamesAmong(resolve, rs, service, all - remaining)
      invariant next.written == tally.written + WrittenAmong(resolve, rs, service, all - remaining)
      invariant forall c ::
        CountOf(next.report, c) == CountOf(tally.report, c) + |CountedAmong(resolve, rs, service, all - remaining, c)|
      invariant DistinctTypes(perService)
      invariant forall x :: x in perService <==> x in InfosAmong(resolve, rs, service, all - remaining)
      decreases remaining
    {
      var rType :| rType in remaining;
      ghost var visited := all - remaining;
      remaining := remaining - {rType};
      assert all - remaining == visited + {rType};
      if rs[rType] != service {
        Unchanged(resolve, rs, service, visited, rType);
        continue;
      }
      var o := resolve(rType, service);
      if o.NilDereference? {
        return Some(rType), next, perService;
      }
      if o.Resolved? {
        TypesOfInfos(resolve, rs, service, visited, perService);
        ResolvedStep(resolve, rs, service, visited, rType);
        UnionUpdate(tally.names, NamesAmong(resolve, rs, service, visited), rType, TypeToOpName(rType));
        UnionUpdate(tally.written, WrittenAmong(resolve, rs, service, visited), rType, o.fn);
        next := next.(names := next.names[rType := TypeToOpName(rType)],
                      written := next.written[rType := o.fn]);
        perService := perService + [o.info];
        if rType in unwritable {
          return Some(rType), next, perService;
        }
      } else {
        SkippedStep(resolve, rs, service, visited, rType);
        var c := Counted(o);
        if c.Some? {
          next := next.(report := Bump(next.report, c.value));
        }
      }
    }
    assert all - remaining == all;
    abort := None;
  }

  /** A type of another service changes nothing. */
  lemma Unchanged(resolve: Resolver, rs: map<string, string>, service: string, visited: set<string>, rType: string)
    requires rType in rs && rs[rType] != service
    ensures NamesAmong(resolve, rs, service, visited + {rType}) == NamesAmong(resolve, rs, service, visited)
    ensures WrittenAmong(resolve, rs, service, visited + {rType}) == WrittenAmong(resolve, rs, service, visited)
    ensures InfosAmong(resolve, rs, service, visited + {rType}) == InfosAmong(resolve, rs, service, visited)
    ensures forall c :: CountedAmong(resolve, rs, service, visited + {rType}, c) == CountedAmong(resolve, rs, service, visited, c)
  {
  }

  /** A type of the service that passes every stage adds its name, its list function and its record. */
  lemma ResolvedStep(resolve: Resolver, rs: map<string, string>, service: string, visited: set<string>, rType: string)
    requires rType in rs && rs[rType] == service && resolve(rType, service).Resolved?
    ensures NamesAmong(resolve, rs, service, visited + {rType}) ==
      NamesAmong(resolve, rs, service, visited)[rType := TypeToOpName(rType)]
    ensures WrittenAmong(resolve, rs, service, visited + {rType}) ==
      WrittenAmong(resolve, rs, service, visited)[rType := resolve(rType, service).fn]
    ensures InfosAmong(resolve, rs, service, visited + {rType}) ==
      InfosAmong(resolve, rs, service, visited) + {resolve(rType, service).info}
    ensures forall c :: CountedAmong(resolve, rs, service, visited + {rType}, c) == CountedAmong(resolve, rs, service, visited, c)
  {
    NamesStep(resolve, rs, service, visited, rType);
    WrittenStep(resolve, rs, service, visited, rType);
    InfosStep(resolve, rs, service, visited, rType);
  }

  lemma NamesStep(resolve: Resolver, rs: map<string, string>, service: string, visited: set<string>, rType: string)
    requires rType in rs && rs[rType] == service && resolve(rType, service).Resolved?
    ensures NamesAmong(resolve, rs, service, visited + {rType}) ==
      NamesAmong(resolve, rs, service, visited)[rType := TypeToOpName(rType)]
  {
    var m0 := NamesAmong(resolve, rs, service, visited);
    var m1 := NamesAmong(resolve, rs, service, visited + {rType});
    assert m1.Keys == m0.Keys + {rType};
  }

  lemma WrittenStep(resolve: Resolver, rs: map<string, string>, service: string, visited: set<string>, rType: string)
    requires rType in rs && rs[rType] == service && resolve(rType, service).Resolved?
    ensures WrittenAmong(resolve, rs, service, visited + {rType}) ==
      WrittenAmong(resolve, rs, service, visited)[rType := resolve(rType, service).fn]
  {
    var m0 := WrittenAmong(resolve, rs, service, visited);
    var m1 := WrittenAmong(resolve, rs, service, visited + {rType});
    assert m1.Keys == m0.Keys + {rType};
  }

  lemma InfosStep(resolve: Resolver, rs: map<string, string>, service: string, visited: set<string>, rType: string)
    requires rType in rs && rs[rType] == service && resolve(rType, service).Resolved?
    ensures InfosAmong(resolve, rs, service, visited + {rType}) ==
      InfosAmong(resolve, rs, service, visited) + {resolve(rType, service).info}
  {
  }

  /** Adding a key to the right operand of a map union. */
  lemma UnionUpdate<K, V>(a: map<K, V>, b: map<K, V>, k: K, v: V)
    ensures (a + b)[k := v] == a + b[k := v]
  {
  }

  /** A type of the service that is skipped adds to at most one counter. */
  lemma SkippedStep(resolve: Resolver, rs: map<string, string>, service: string, visited: set<string>, rType: string)
    requires rType in rs && rs[rType] == service && !resolve(rType, service).Resolved? && rType !in visited
    ensures NamesAmong(resolve, rs, service, visited + {rType}) == NamesAmong(resolve, rs, service, visited)
    ensures WrittenAmong(resolve, rs, service, visited + {rType}) == WrittenAmong(resolve, rs, service, visited)
    ensures InfosAmong(resolve, rs, service, visited + {rType}) == InfosAmong(resolve, rs, service, visited)
    ensures forall c ::
      |CountedAmong(resolve, rs, service, visited + {rType}, c)| ==
      |CountedAmong(resolve, rs, service, visited, c)| + (if Counted(resolve(rType, service)) == Some(c) then 1 else 0)
  {
    SkippedKeepsRecords(resolve, rs, service, visited, rType);
    forall c
      ensures |CountedAmong(resolve, rs, service, visited + {rType}, c)| ==
        |CountedAmong(resolve, rs, service, visited, c)| + (if Counted(resolve(rType, service)) == Some(c) then 1 else 0)
    {
      CountedStep(resolve, rs, service, visited, rType, c);
    }
  }

  lemma SkippedKeepsRecords(resolve: Resolver, rs: map<string, string>, service: string, visited: set<string>,
                            rType: string)
    requires rType in rs && rs[rType] == service && !resolve(rType, service).Resolved?
    ensures NamesAmong(resolve, rs, service, visited + {rType}) == NamesAmong(resolve, rs, service, visited)
    ensures WrittenAmong(resolve, rs, service, visited + {rType}) == WrittenAmong(resolve, rs, service, visited)
    ensures InfosAmong(resolve, rs, service, visited + {rType}) == InfosAmong(resolve, rs, service, visited)
  {
  }

  lemma CountedStep(resolve: Resolver, rs: map<string, string>, service: string, visited: set<string>, rType: string,
                    c: Counter)
    requires rType in rs && rs[rType] == service && rType !in visited
    ensures |CountedAmong(resolve, rs, service, visited + {rType}, c)| ==
      |CountedAmong(resolve, rs, service, visited, c)| + (if Counted(resolve(rType, service)) == Some(c) then 1 else 0)
  {
    if Counted(resolve(rType, service)) == Some(c) {
      assert CountedAmong(resolve, rs, service, visited + {rType}, c) ==
        CountedAmong(resolve, rs, service, visited, c) + {rType};
    } else {
      assert CountedAmong(resolve, rs, service, visited + {rType}, c) == CountedAmong(resolve, rs, service, visited, c);
    }
  }

  /** The records gathered so far name only visited types. */
  lemma TypesOfInfos(resolve: Resolver, rs: map<string, string>, service: string, visited: set<string>,
                     perService: seq<GeneratedResourceInfo>)
    requires Describes(resolve)
    requires forall x :: x in perService <==> x in InfosAmong(resolve, rs, service, visited)
    ensures forall x :: x in perService ==> x.resourceType in visited
  {
    forall x | x in perService
      ensures x.resourceType in visited
    {
      var t :| t in visited && OfService(rs, service, t) && resolve(t, service).Resolved? && resolve(t, service).info == x;
    }
  }

  /** The list-function names recorded after the services `covered`. */
  ghost function NamesIn(resolve: Resolver, rs: map<string, string>, covered: seq<string>): map<string, string>
  {
    if covered == [] then map[]
    else NamesIn(resolve, rs, covered[..|covered| - 1]) + NamesAmong(resolve, rs, covered[|covered| - 1], rs.Keys)
  }

  /** The list functions written after the services `covered`. */
  ghost function WrittenIn(resolve: Resolver, rs: map<string, string>, covered: seq<string>): map<string, ListFunction>
  {
    if covered == [] then map[]
    else WrittenIn(resolve, rs, covered[..|covered| - 1]) + WrittenAmong(resolve, rs, covered[|covered| - 1], rs.Keys)
  }

  lemma {:induction false} NamesInMembers(resolve: Resolver, rs: map<string, string>, covered: seq<string>)
    ensures forall t :: t in NamesIn(resolve, rs, covered) <==> t in rs && rs[t] in covered && resolve(t, rs[t]).Resolved?
    ensures forall t :: t in NamesIn(resolve, rs, covered) ==> NamesIn(resolve, rs, covered)[t] == TypeToOpName(t)
  {
    if covered != [] {
      var front := covered[..|covered| - 1];
      NamesInMembers(resolve, rs, front);
      assert covered == front + [covered[|covered| - 1]];
    }
  }

  lemma {:induction false} WrittenInMembers(resolve: Resolver, rs: map<string, string>, covered: seq<string>)
    ensures forall t :: t in WrittenIn(resolve, rs, covered) <==> t in rs && rs[t] in covered && resolve(t, rs[t]).Resolved?
    ensures forall t :: t in WrittenIn(resolve, rs, covered) ==> WrittenIn(resolve, rs, covered)[t] == resolve(t, rs[t]).fn
  {
    if covered != [] {
      var front := covered[..|covered| - 1];
      WrittenInMembers(resolve, rs, front);
      assert covered == front + [covered[|covered| - 1]];
    }
  }

  /** The run either ends the process at a fatal type, or returns the two tables (and the files written). */
  datatype Run =
    | Aborted(rType: string)
    | Completed(listFunctionNames: map<string, string>,
                genResourceInfo: map<string, seq<GeneratedResourceInfo>>,
                written: map<string, ListFunction>,
                report: Report)

  /** The records of `service`, sorted by type, one per type that passes every stage. */
  ghost predicate Recorded(resolve: Resolver, rs: map<string, string>, service: string,
                           infos: seq<GeneratedResourceInfo>)
  {
    && SortedByType(infos)
    && DistinctTypes(infos)
    && (forall x :: x in infos <==> x in InfosAmong(resolve, rs, service, rs.Keys))
  }

  lemma SortedRecord(resolve: Resolver, rs: map<string, string>, service: string,
                      perService: seq<GeneratedResourceInfo>)
    requires DistinctTypes(perService)
    requires forall x :: x in perService <==> x in InfosAmong(resolve, rs, service, rs.Keys)
    ensures Recorded(resolve, rs, service, SortByType(perService))
  {
    var r := SortByType(perService);
    forall x
      ensures x in r <==> x in perService
    {
      assert x in r <==> x in multiset(r);
      assert x in perService <==> x in multiset(perService);
    }
  }

  /** The recorded list of a service does not depend on the order the types were visited in. */
  lemma RecordedIsUnique(resolve: Resolver, rs: map<string, string>, service: string,
                         a: seq<GeneratedResourceInfo>, b: seq<GeneratedResourceInfo>)
    requires Recorded(resolve, rs, service, a) && Recorded(resolve, rs, service, b)
    ensures a == b
  {
    SortedIsUnique(a, b);
  }

  /** The outer loop, over the covered services in their order. */
  lemma PrefixGrows(covered: seq<string>, i: int)
    requires 0 <= i < |covered|
    ensures covered[..i + 1] == covered[..i] + [covered[i]]
  {
  }

  method GenerateAll(rs: map<string, string>, covered: seq<string>, unwritable: set<string>, resolve: Resolver)
    returns (run: Run)
    requires Describes(resolve)
    ensures run.Aborted? ==>
      run.rType in rs && rs[run.rType] in covered && Fatal(resolve(run.rType, rs[run.rType]), run.rType in unwritable)
    ensures run.Completed? ==>
      && (forall t :: t in rs && rs[t] in covered ==> !Fatal(resolve(t, rs[t]), t in unwritable))
      && run.listFunctionNames == NamesIn(resolve, rs, covered)
      && run.written == WrittenIn(resolve, rs, covered)
      && (forall c :: CountOf(run.report, c) == ExpectedCount(resolve, rs, covered, c))
      && (forall s :: s in run.genResourceInfo <==> s in covered && InfosAmong(resolve, rs, s, rs.Keys) != {})
      && (forall s :: s in run.genResourceInfo ==> Recorded(resolve, rs, s, run.genResourceInfo[s]))
  {
    var tally := Tally(map[], map[], Report(0, 0, 0, 0));
    var infos: map<string, seq<GeneratedResourceInfo>> := map[];
    var i := 0;
    while i < |covered|
      invariant 0 <= i <= |covered|
      invariant Progress(resolve, rs, unwritable, covered[..i], tally, infos)
    {
      var service := covered[i];
      var abort, next, perService := VisitService(rs, service, unwritable, resolve, tally);
      if abort.Some? {
        return Aborted(abort.value);
      }
      ProgressStep(resolve, rs, unwritable, covered[..i], service, tally, infos, next, perService);
      PrefixGrows(covered, i);
      tally := next;
      infos := WithRecords(infos, service, perService);
      i := i + 1;
    }
    assert covered[..i] == covered;
    run := Completed(tally.names, infos, tally.written, tally.report);
  }

  /** Go's `if len(perService) > 0 { sort; genResourceInfo[service] = perService }`. */
  function WithRecords(infos: map<string, seq<GeneratedResourceInfo>>, service: string,
                       perService: seq<GeneratedResourceInfo>): map<string, seq<GeneratedResourceInfo>>
  {
    if |perService| > 0 then infos[service := SortByType(perService)] else infos
  }

  /** The outer loop's invariant after the services `done`. */
  ghost predicate Progress(resolve: Resolver, rs: map<string, string>, unwritable: set<string>, done: seq<string>,
                           tally: Tally, infos: map<string, seq<GeneratedResourceInfo>>)
  {
    && (forall t :: t in rs && rs[t] in done ==> !Fatal(resolve(t, rs[t]), t in unwritable))
    && tally.names == NamesIn(resolve, rs, done)
    && tally.written == WrittenIn(resolve, rs, done)
    && (forall c :: CountOf(tally.report, c) == ExpectedCount(resolve, rs, done, c))
    && (forall s :: s in infos <==> s in done && InfosAmong(resolve, rs, s, rs.Keys) != {})
    && (forall s :: s in infos ==> Recorded(resolve, rs, s, infos[s]))
  }

  lemma ProgressStep(resolve: Resolver, rs: map<string, string>, unwritable: set<string>, done: seq<string>,
                     service: string, tally: Tally, infos: map<string, seq<GeneratedResourceInfo>>,
                     next: Tally, perService: seq<GeneratedResourceInfo>)
    requires Progress(resolve, rs, unwritable, done, tally, infos)
    requires Visited(resolve, rs, service, unwritable, tally, next, perService)
    ensures Progress(resolve, rs, unwritable, done + [service], next, WithRecords(infos, service, perService))
  {
    var done' := done + [service];
    FoldStep(resolve, rs, done, service);
    assert forall x :: x in done' <==> x in done || x == service;
    RecordsStep(resolve, rs, done, service, infos, perService);
  }

  /** The folds over the services after one more service. */
  lemma FoldStep(resolve: Resolver, rs: map<string, string>, done: seq<string>, service: string)
    ensures NamesIn(resolve, rs, done + [service]) == NamesIn(resolve, rs, done) + NamesAmong(resolve, rs, service, rs.Keys)
    ensures WrittenIn(resolve, rs, done + [service])
         == WrittenIn(resolve, rs, done) + WrittenAmong(resolve, rs, service, rs.Keys)
    ensures forall c ::
      ExpectedCount(resolve, rs, done + [service], c)
        == ExpectedCount(resolve, rs, done, c) + |CountedAmong(resolve, rs, service, rs.Keys, c)|
  {
    var done' := done + [service];
    assert done'[..|done'| - 1] == done;
  }

  /** The per-service records after one more service. */
  lemma RecordsStep(resolve: Resolver, rs: map<string, string>, done: seq<string>, service: string,
                    infos: map<string, seq<GeneratedResourceInfo>>, perService: seq<GeneratedResourceInfo>)
    requires forall s :: s in infos <==> s in done && InfosAmong(resolve, rs, s, rs.Keys) != {}
    requires forall s :: s in infos ==> Recorded(resolve, rs, s, infos[s])
    requires DistinctTypes(perService)
    requires forall x :: x in perService <==> x in InfosAmong(resolve, rs, service, rs.Keys)
    ensures var infos' := WithRecords(infos, service, perService);
      && (forall s :: s in infos' <==> s in done + [service] && InfosAmong(resolve, rs, s, rs.Keys) != {})
      && (forall s :: s in infos' ==> Recorded(resolve, rs, s, infos'[s]))
  {
    assert forall x :: x in done + [service] <==> x in done || x == service;
    if |perService| > 0 {
      assert perService[0] in InfosAmong(resolve, rs, service, rs.Keys);
      SortedRecord(resolve, rs, service, perService);
    } else {
      assert InfosAmong(resolve, rs, service, rs.Keys) == {};
    }
  }

  /** The stages of `Resolve` as the function value the loops take. */
  function Stages(cfg: Config): Resolver
  {
    (t, s) => Resolve(cfg, t, s)
  }

  lemma StagesDescribe(cfg: Config)
    ensures Describes(Stages(cfg))
  {
  }

  /**
    Generates the list function of every resource type of the covered
    services; `unwritable` holds the types whose file cannot be written.
   */
  method GenerateListFunctions(cfg: Config, covered: seq<string>, unwritable: set<string>) returns (run: Run)
    ensures run.Aborted? ==>
      run.rType in cfg.resourceServices && cfg.resourceServices[run.rType] in covered
      && Fatal(OutcomeOf(cfg, run.rType), run.rType in unwritable)
    ensures run.Completed? ==>
      forall t :: t in cfg.resourceServices && cfg.resourceServices[t] in covered ==>
        !Fatal(OutcomeOf(cfg, t), t in unwritable)
    ensures run.Completed? ==>
      && (forall t :: t in run.listFunctionNames <==>
            t in cfg.resourceServices && cfg.resourceServices[t] in covered && OutcomeOf(cfg, t).Resolved?)
      && (forall t :: t in run.listFunctionNames ==> run.listFunctionNames[t] == TypeToOpName(t))
      && run.written.Keys == run.listFunctionNames.Keys
      && (forall t :: t in run.written ==> run.written[t] == OutcomeOf(cfg, t).fn)
    ensures run.Completed? ==>
      && (forall s :: s in run.genResourceInfo <==>
            s in covered && InfosAmong(Stages(cfg), cfg.resourceServices, s, cfg.resourceServices.Keys) != {})
      && (forall s :: s in run.genResourceInfo ==>
            Recorded(Stages(cfg), cfg.resourceServices, s, run.genResourceInfo[s]))
    ensures run.Completed? ==>
      forall c :: CountOf(run.report, c) == ExpectedCount(Stages(cfg), cfg.resourceServices, covered, c)
  {
    StagesDescribe(cfg);
    run := GenerateAll(cfg.resourceServices, covered, unwritable, Stages(cfg));
    if run.Completed? {
      NamesInMembers(Stages(cfg), cfg.resourceServices, covered);
      WrittenInMembers(Stages(cfg), cfg.resourceServices, covered);
    }
  }
}
