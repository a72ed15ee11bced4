/**
  Finding the output member that holds the list of instances: a member of
  the operation's output structure whose shape is a list of the requested
  element type, unless an override names the member.
 */
module OutputField {
  import opened Wrappers
  import opened Text
  import opened Metadata

  /** The shape is a list whose element has the given type name. */
  predicate IsListOf(s: Shape, shapeType: string)
  {
    s.List? && TypeName(s.element) == shapeType
  }

  /** The names of the members that are lists of the given element type, in member order. */
  function ListMembers(ms: seq<Member>, shapeType: string): (r: seq<string>)
    ensures forall f :: f in r <==> exists m :: m in ms && m.name == f && IsListOf(m.shape, shapeType)
    ensures DistinctNames(ms) ==> DistinctStrings(r)
    decreases |ms|
  {
    if |ms| == 0 then []
    else
      var rest := ListMembers(ms[1..], shapeType);
      if IsListOf(ms[0].shape, shapeType) then
        assert DistinctNames(ms) ==> ms[0].name !in rest;
        [ms[0].name] + rest
      else rest
  }

  /**
    `GetOutputFieldCandidates`: the override alone when there is one,
    otherwise exactly the output members that are lists of `shapeType`.
   */
  function FieldCandidates(manualOutputFields: map<string, string>, rType: string, op: Operation,
                           shapeType: string): (r: seq<string>)
    ensures rType in manualOutputFields ==> r == [manualOutputFields[rType]]
    ensures rType !in manualOutputFields ==> forall f :: f in r <==>
      exists m :: m in Members(op.output) && m.name == f && IsListOf(m.shape, shapeType)
    ensures rType !in manualOutputFields && DistinctNames(Members(op.output)) ==> DistinctStrings(r)
  {
    if rType in manualOutputFields then [manualOutputFields[rType]]
    else ListMembers(Members(op.output), shapeType)
  }

  datatype FieldError =
    | NoOperationWithField
    | MultipleOperationsWithField(operations: seq<string>)

  /** Candidate i is the only candidate with exactly one field candidate. */
  ghost predicate SoleWithOneField(manualOutputFields: map<string, string>, rType: string, cands: seq<Operation>,
                                   shapeType: string, i: int)
  {
    && 0 <= i < |cands|
    && |FieldCandidates(manualOutputFields, rType, cands[i], shapeType)| == 1
    && forall j :: 0 <= j < |cands| && j != i ==> |FieldCandidates(manualOutputFields, rType, cands[j], shapeType)| != 1
  }

  /** The elements of a sequence that satisfy a test, in order. */
  function Keep<T>(s: seq<T>, p: T -> bool): (r: seq<T>)
    ensures forall x :: x in r ==> x in s && p(x)
    decreases |s|
  {
    if |s| == 0 then [] else (if p(s[0]) then [s[0]] else []) + Keep(s[1..], p)
  }

  /** Element i alone satisfies the test. */
  ghost predicate Sole<T>(s: seq<T>, p: T -> bool, i: int)
  {
    0 <= i < |s| && p(s[i]) && forall j :: 0 <= j < |s| && j != i ==> !p(s[j])
  }

  lemma {:induction false} KeepNone<T>(s: seq<T>, p: T -> bool)
    ensures |Keep(s, p)| == 0 <==> forall i :: 0 <= i < |s| ==> !p(s[i])
    decreases |s|
  {
    if |s| > 0 {
      KeepNone(s[1..], p);
      assert forall i :: 0 < i < |s| ==> s[i] == s[1..][i - 1];
    }
  }

  lemma {:induction false} KeepOne<T>(s: seq<T>, p: T -> bool)
    ensures |Keep(s, p)| == 1 <==> exists i :: Sole(s, p, i)
    ensures |Keep(s, p)| == 1 ==> forall i :: Sole(s, p, i) ==> Keep(s, p)[0] == s[i]
    decreases |s|
  {
    if |s| > 0 {
      var rest := Keep(s[1..], p);
      KeepNone(s[1..], p);
      KeepOne(s[1..], p);
      assert forall i :: 0 < i < |s| ==> s[i] == s[1..][i - 1];
      if p(s[0]) {
        assert forall i :: Sole(s, p, i) ==> i == 0;
        if |rest| == 0 { assert Sole(s, p, 0); }
      } else {
        assert forall i :: Sole(s, p, i) ==> Sole(s[1..], p, i - 1);
        assert forall i :: Sole(s[1..], p, i) ==> Sole(s, p, i + 1);
      }
    }
  }

  /** The operation has exactly one field candidate. */
  predicate HasOneField(manualOutputFields: map<string, string>, rType: string, shapeType: string, op: Operation)
  {
    |FieldCandidates(manualOutputFields, rType, op, shapeType)| == 1
  }

  /**
    `findOutputField`: succeeds exactly when one candidate operation alone
    has exactly one field candidate, and then gives that field and that
    operation. Operations with several field candidates are passed over
    and not counted; none left, or more than one, is an error.
   */
  function FindOutputField(manualOutputFields: map<string, string>, rType: string, cands: seq<Operation>,
                           shapeType: string): (r: Result<(string, Operation), FieldError>)
    ensures r.Success? <==> exists i :: SoleWithOneField(manualOutputFields, rType, cands, shapeType, i)
    ensures r.Success? ==> forall i :: SoleWithOneField(manualOutputFields, rType, cands, shapeType, i) ==>
      r.value.1 == cands[i] && FieldCandidates(manualOutputFields, rType, cands[i], shapeType) == [r.value.0]
    ensures r == Failure(NoOperationWithField) <==>
      forall i :: 0 <= i < |cands| ==> |FieldCandidates(manualOutputFields, rType, cands[i], shapeType)| != 1
  {
    var one := op => HasOneField(manualOutputFields, rType, shapeType, op);
    var found := Keep(cands, one);
    KeepNone(cands, one);
    KeepOne(cands, one);
    assert forall i :: SoleWithOneField(manualOutputFields, rType, cands, shapeType, i) <==> Sole(cands, one, i);
    if |found| == 0 then Failure(NoOperationWithField)
    else if |found| > 1 then Failure(MultipleOperationsWithField(seq(|found|, i requires 0 <= i < |found| => found[i].exportedName)))
    else
      var op := found[0];
      assert op in found;
      var fields := FieldCandidates(manualOutputFields, rType, op, shapeType);
      Success((fields[0], op))
  }
}
