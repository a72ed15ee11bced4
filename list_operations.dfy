/**
  Finding the operation that lists the instances of a resource type: the
  operations of the type's service whose name, once a `Describe`, `Get` or
  `List` prefix is trimmed and the rest lower-cased, equals a plural guess.
 */
module ListOperations {
  import opened Wrappers
  import opened Text
  import opened Metadata
  import opened Naming

  /** The prefixes tried, in this order. */
  const ListPrefixes: seq<string> := ["Describe", "Get", "List"]

  /** The part of an operation's exported name compared with the plural guesses. */
  function Remainder(op: Operation, prefix: string): string
  {
    ToLower(TrimPrefix(op.exportedName, prefix))
  }

  /** The operations whose exported name starts with the prefix, in their order. */
  function WithPrefix(ops: seq<Operation>, prefix: string): (r: seq<Operation>)
    ensures forall op :: op in r <==> op in ops && HasPrefix(op.exportedName, prefix)
    decreases |ops|
  {
    if |ops| == 0 then []
    else (if HasPrefix(ops[0].exportedName, prefix) then [ops[0]] else []) + WithPrefix(ops[1..], prefix)
  }

  /** `operationsOfService`: the operations with the prefix of every API whose package is the service. */
  function OperationsOfService(apis: seq<Api>, service: string, prefix: string): (r: seq<Operation>)
    ensures forall op :: op in r <==>
      exists a :: a in apis && a.packageName == service && op in a.operations && HasPrefix(op.exportedName, prefix)
    decreases |apis|
  {
    if |apis| == 0 then []
    else
      (if apis[0].packageName == service then WithPrefix(apis[0].operations, prefix) else [])
      + OperationsOfService(apis[1..], service, prefix)
  }

  /** All the operations of a service. */
  function ServiceOperations(apis: seq<Api>, service: string): seq<Operation>
  {
    OperationsOfService(apis, service, "")
  }

  /** The first operation whose remainder after the prefix is the given guess. */
  function FirstWithRemainder(ops: seq<Operation>, prefix: string, plural: string): (r: Option<Operation>)
    ensures r.None? <==> forall op :: op in ops ==> Remainder(op, prefix) != plural
    ensures r.Some? ==> exists i :: (0 <= i < |ops| && ops[i] == r.value && Remainder(ops[i], prefix) == plural
      && forall j :: 0 <= j < i ==> Remainder(ops[j], prefix) != plural)
    decreases |ops|
  {
    if |ops| == 0 then None
    else if Remainder(ops[0], prefix) == plural then Some(ops[0])
    else
      var r := FirstWithRemainder(ops[1..], prefix, plural);
      if r.Some? then
        ghost var i :| 0 <= i < |ops[1..]| && ops[1..][i] == r.value && Remainder(ops[1..][i], prefix) == plural
          && forall j :: 0 <= j < i ==> Remainder(ops[1..][j], prefix) != plural;
        assert ops[i + 1] == r.value && forall j :: 0 <= j < i + 1 ==> Remainder(ops[j], prefix) != plural;
        r
      else r
  }

  /**
    The guesses tried one after another, each against every operation: the
    earliest guess that some operation matches picks that operation.
   */
  function MatchGuesses(plurals: seq<string>, ops: seq<Operation>, prefix: string): (r: Option<Operation>)
    ensures r.None? <==> forall op :: op in ops ==> Remainder(op, prefix) !in plurals
    ensures r.Some? ==> r.value in ops && exists k :: (0 <= k < |plurals| && plurals[k] == Remainder(r.value, prefix)
      && forall j, op :: 0 <= j < k && op in ops ==> Remainder(op, prefix) != plurals[j])
    decreases |plurals|
  {
    if |plurals| == 0 then None
    else
      var first := FirstWithRemainder(ops, prefix, plurals[0]);
      if first.Some? then first
      else
        var r := MatchGuesses(plurals[1..], ops, prefix);
        if r.Some? then
          ghost var k :| 0 <= k < |plurals[1..]| && plurals[1..][k] == Remainder(r.value, prefix)
            && forall j, op :: 0 <= j < k && op in ops ==> Remainder(op, prefix) != plurals[1..][j];
          assert plurals[k + 1] == Remainder(r.value, prefix);
          assert forall j, op :: 0 <= j < k + 1 && op in ops ==> Remainder(op, prefix) != plurals[j];
          r
        else
          assert forall op :: op in ops ==> Remainder(op, prefix) !in plurals by {
            forall op | op in ops ensures Remainder(op, prefix) !in plurals {
              assert plurals == [plurals[0]] + plurals[1..];
            }
          }
          r
  }

  /** `exactMatch`. */
  function ExactMatch(rType: string, ops: seq<Operation>, prefix: string): Option<Operation>
  {
    MatchGuesses(PluralCandidates(rType), ops, prefix)
  }

  /** Some operation of the service with this prefix has a remainder that is a plural guess. */
  ghost predicate PrefixMatches(rType: string, service: string, apis: seq<Api>, prefix: string)
  {
    exists op :: op in OperationsOfService(apis, service, prefix) && Remainder(op, prefix) in PluralCandidates(rType)
  }

  /** The prefixes, in order, that some operation of the service matches. */
  ghost function MatchedPrefixes(rType: string, service: string, apis: seq<Api>, prefixes: seq<string>): seq<string>
    decreases |prefixes|
  {
    if |prefixes| == 0 then []
    else
      (if PrefixMatches(rType, service, apis, prefixes[0]) then [prefixes[0]] else [])
      + MatchedPrefixes(rType, service, apis, prefixes[1..])
  }

  /** Each operation of `r` fits the prefix at the same index of `ps`. */
  ghost predicate AllFit(fits: (string, Operation) -> bool, ps: seq<string>, r: seq<Operation>)
  {
    |r| == |ps| && forall i :: 0 <= i < |r| ==> fits(ps[i], r[i])
  }

  /**
    Candidate i belongs to the service, starts with prefix `ps[i]` and has a
    remainder after it that is a guess.
   */
  ghost predicate FitPrefixes(rType: string, service: string, apis: seq<Api>, ps: seq<string>, r: seq<Operation>)
  {
    AllFit((p, op) => op in OperationsOfService(apis, service, p) && Remainder(op, p) in PluralCandidates(rType), ps, r)
  }

  /** The heuristic candidates: at most one operation per prefix, in the order of the prefixes. */
  function CandidatesByPrefix(rType: string, service: string, apis: seq<Api>, prefixes: seq<string>): (r: seq<Operation>)
    ensures FitPrefixes(rType, service, apis, MatchedPrefixes(rType, service, apis, prefixes), r)
    ensures |r| <= |prefixes|
    decreases |prefixes|
  {
    if |prefixes| == 0 then []
    else
      var p := prefixes[0];
      var m := ExactMatch(rType, OperationsOfService(apis, service, p), p);
      var rest := CandidatesByPrefix(rType, service, apis, prefixes[1..]);
      CandidatesStep(rType, service, apis, prefixes, m, rest);
      (if m.Some? then [m.value] else []) + rest
  }

  /** The first prefix's match, if any, in front of the candidates of the other prefixes. */
  lemma CandidatesStep(rType: string, service: string, apis: seq<Api>, prefixes: seq<string>,
                       m: Option<Operation>, rest: seq<Operation>)
    requires |prefixes| > 0
    requires m == ExactMatch(rType, OperationsOfService(apis, service, prefixes[0]), prefixes[0])
    requires FitPrefixes(rType, service, apis, MatchedPrefixes(rType, service, apis, prefixes[1..]), rest)
    ensures FitPrefixes(rType, service, apis, MatchedPrefixes(rType, service, apis, prefixes),
                        (if m.Some? then [m.value] else []) + rest)
  {
    var p := prefixes[0];
    assert m.Some? <==> PrefixMatches(rType, service, apis, p);
    var tail := MatchedPrefixes(rType, service, apis, prefixes[1..]);
    if m.Some? {
      assert MatchedPrefixes(rType, service, apis, prefixes) == [p] + tail;
      FitInFront((p, op) => op in OperationsOfService(apis, service, p) && Remainder(op, p) in PluralCandidates(rType),
        p, m.value, tail, rest);
    } else {
      assert MatchedPrefixes(rType, service, apis, prefixes) == tail;
    }
  }

  lemma FitInFront(fits: (string, Operation) -> bool, p: string, op: Operation, ps: seq<string>, r: seq<Operation>)
    requires AllFit(fits, ps, r) && fits(p, op)
    ensures AllFit(fits, [p] + ps, [op] + r)
  {
    var ps', r' := [p] + ps, [op] + r;
    forall i | 0 < i < |r'|
      ensures fits(ps'[i], r'[i])
    {
      assert r'[i] == r[i - 1] && ps'[i] == ps[i - 1];
    }
  }

  /** The first operation of a list whose exported name is the given one. */
  function FindByExportedName(ops: seq<Operation>, name: string): (r: Option<Operation>)
    ensures r.None? <==> forall op :: op in ops ==> op.exportedName != name
    ensures r.Some? ==> r.value in ops && r.value.exportedName == name
    decreases |ops|
  {
    if |ops| == 0 then None
    else if ops[0].exportedName == name then Some(ops[0])
    else FindByExportedName(ops[1..], name)
  }

  /**
    `GetListOperationCandidates`. An operation override that names an
    operation of the service wins alone; an override that names no such
    operation falls through to the heuristics, as if there were none.
   */
  function ListOperationCandidates(manualListOps: map<string, string>, rType: string, service: string,
                                   apis: seq<Api>): (r: seq<Operation>)
    ensures rType in manualListOps && FindByExportedName(ServiceOperations(apis, service), manualListOps[rType]).Some? ==>
      |r| == 1 && r[0].exportedName == manualListOps[rType] && r[0] in ServiceOperations(apis, service)
    ensures rType !in manualListOps || FindByExportedName(ServiceOperations(apis, service), manualListOps[rType]).None? ==>
      && |r| == |MatchedPrefixes(rType, service, apis, ListPrefixes)| <= 3
      && forall i :: 0 <= i < |r| ==>
        var p := MatchedPrefixes(rType, service, apis, ListPrefixes)[i];
        && r[i] in ServiceOperations(apis, service)
        && HasPrefix(r[i].exportedName, p)
        && Remainder(r[i], p) in PluralCandidates(rType)
  {
    var manual := if rType in manualListOps then FindByExportedName(ServiceOperations(apis, service), manualListOps[rType])
                  else None;
    if manual.Some? then [manual.value]
    else
      var r := CandidatesByPrefix(rType, service, apis, ListPrefixes);
      HeuristicCandidates(rType, service, apis, r);
      r
  }

  /** The heuristic candidates, as `ListOperationCandidates` states them. */
  lemma HeuristicCandidates(rType: string, service: string, apis: seq<Api>, r: seq<Operation>)
    requires r == CandidatesByPrefix(rType, service, apis, ListPrefixes)
    ensures |r| == |MatchedPrefixes(rType, service, apis, ListPrefixes)| <= 3
    ensures forall i :: 0 <= i < |r| ==>
      var p := MatchedPrefixes(rType, service, apis, ListPrefixes)[i];
      && r[i] in ServiceOperations(apis, service)
      && HasPrefix(r[i].exportedName, p)
      && Remainder(r[i], p) in PluralCandidates(rType)
  {
    var ps := MatchedPrefixes(rType, service, apis, ListPrefixes);
    forall i | 0 <= i < |r|
      ensures r[i] in ServiceOperations(apis, service) && HasPrefix(r[i].exportedName, ps[i])
      ensures Remainder(r[i], ps[i]) in PluralCandidates(rType)
    {
      InServiceOperations(apis, service, ps[i], r[i]);
    }
  }

  /** An operation of the service with a prefix is an operation of the service, and has the prefix. */
  lemma InServiceOperations(apis: seq<Api>, service: string, p: string, op: Operation)
    requires op in OperationsOfService(apis, service, p)
    ensures op in ServiceOperations(apis, service) && HasPrefix(op.exportedName, p)
  {
    assert HasPrefix(op.exportedName, "");
  }

  /**
    Without an applicable override, a prefix contributes a candidate exactly
    when one of its operations matches a guess; so there is no candidate
    exactly when no prefix matches.
   */
  lemma {:induction false} MatchedPrefixesEmpty(rType: string, service: string, apis: seq<Api>, prefixes: seq<string>)
    ensures |MatchedPrefixes(rType, service, apis, prefixes)| == 0 <==>
      forall p :: p in prefixes ==> !PrefixMatches(rType, service, apis, p)
    decreases |prefixes|
  {
    if |prefixes| > 0 {
      MatchedPrefixesEmpty(rType, service, apis, prefixes[1..]);
      assert forall p :: p in prefixes <==> p == prefixes[0] || p in prefixes[1..];
    }
  }

  /** `Operations`: the API names, over all services, that start with a prefix and do not mention `Tags`. */
  function Operations(apis: seq<Api>, prefixes: seq<string>): (r: seq<string>)
    ensures forall x :: x in r <==> exists a, op :: (a in apis && op in a.operations && x == op.name
      && (exists p :: p in prefixes && HasPrefix(op.name, p)) && !Contains(op.name, "Tags"))
    decreases |apis|
  {
    if |apis| == 0 then []
    else
      var here := NamesWithPrefixes(apis[0].operations, prefixes);
      var r := here + Operations(apis[1..], prefixes);
      assert forall x :: x in r <==> x in here || x in Operations(apis[1..], prefixes);
      r
  }

  /** One service's part of `Operations`: for every operation, its name once per matching prefix. */
  function NamesWithPrefixes(ops: seq<Operation>, prefixes: seq<string>): (r: seq<string>)
    ensures forall x :: x in r <==> exists op :: (op in ops && x == op.name
      && (exists p :: p in prefixes && HasPrefix(op.name, p)) && !Contains(op.name, "Tags"))
    decreases |ops|
  {
    if |ops| == 0 then []
    else
      var op := ops[0];
      var here := seq(|PrefixesOf(op.name, prefixes)|, _ => op.name);
      var r := here + NamesWithPrefixes(ops[1..], prefixes);
      CopiesOfName(op.name, prefixes, here);
      r
  }

  /** One name repeated once per prefix it starts with holds the name exactly when some prefix matches. */
  lemma CopiesOfName(name: string, prefixes: seq<string>, here: seq<string>)
    requires here == seq(|PrefixesOf(name, prefixes)|, _ => name)
    ensures forall x :: x in here <==>
      (exists p :: p in prefixes && HasPrefix(name, p)) && !Contains(name, "Tags") && x == name
  {
    PrefixesOfMembers(name, prefixes);
    if |here| > 0 { assert here[0] == name; }
  }

  /**
    The prefixes the name starts with, when it does not mention `Tags`: each
    such prefix as often as it is listed, and no other.
   */
  function PrefixesOf(name: string, prefixes: seq<string>): (r: seq<string>)
    ensures forall p ::
      multiset(r)[p] == if HasPrefix(name, p) && !Contains(name, "Tags") then multiset(prefixes)[p] else 0
    decreases |prefixes|
  {
    if |prefixes| == 0 then []
    else
      var r := (if HasPrefix(name, prefixes[0]) && !Contains(name, "Tags") then [prefixes[0]] else [])
        + PrefixesOf(name, prefixes[1..]);
      assert prefixes == [prefixes[0]] + prefixes[1..];
      r
  }

  lemma {:induction false} PrefixesOfMembers(name: string, prefixes: seq<string>)
    ensures |PrefixesOf(name, prefixes)| > 0 <==>
      (exists p :: p in prefixes && HasPrefix(name, p)) && !Contains(name, "Tags")
    decreases |prefixes|
  {
    if |prefixes| > 0 {
      PrefixesOfMembers(name, prefixes[1..]);
      assert forall p :: p in prefixes <==> p == prefixes[0] || p in prefixes[1..];
    }
  }

  /**
    One operation contributes only its own name, once per prefix it starts
    with (each prefix counted as often as it is listed).
   */
  lemma NamesOfOneOperation(op: Operation, prefixes: seq<string>)
    ensures forall x :: x in NamesWithPrefixes([op], prefixes) ==> x == op.name
    ensures |NamesWithPrefixes([op], prefixes)| == |PrefixesOf(op.name, prefixes)|
  {
    assert [op][1..] == [];
  }

  /** The names of consecutive runs of operations are the concatenation of each run's names. */
  lemma {:induction false} NamesWithPrefixesAppend(a: seq<Operation>, b: seq<Operation>, prefixes: seq<string>)
    ensures NamesWithPrefixes(a + b, prefixes) == NamesWithPrefixes(a, prefixes) + NamesWithPrefixes(b, prefixes)
    decreases |a|
  {
    if |a| == 0 {
      assert a + b == b;
    } else {
      assert (a + b)[0] == a[0] && (a + b)[1..] == a[1..] + b;
      NamesWithPrefixesAppend(a[1..], b, prefixes);
    }
  }

  /** `Operations` over consecutive runs of APIs is the concatenation of each run's names. */
  lemma {:induction false} OperationsAppend(a: seq<Api>, b: seq<Api>, prefixes: seq<string>)
    ensures Operations(a + b, prefixes) == Operations(a, prefixes) + Operations(b, prefixes)
    decreases |a|
  {
    if |a| == 0 {
      assert a + b == b;
    } else {
      var head := NamesWithPrefixes(a[0].operations, prefixes);
      assert (a + b)[0] == a[0] && (a + b)[1..] == a[1..] + b;
      OperationsAppend(a[1..], b, prefixes);
      calc {
        Operations(a + b, prefixes);
        head + Operations(a[1..] + b, prefixes);
        head + (Operations(a[1..], prefixes) + Operations(b, prefixes));
        Operations(a, prefixes) + Operations(b, prefixes);
      }
    }
  }

  /** One API gives the names of its operations, in operation order. */
  lemma OperationsOfOneApi(a: Api, prefixes: seq<string>)
    ensures Operations([a], prefixes) == NamesWithPrefixes(a.operations, prefixes)
  {
    assert [a][1..] == [];
  }
}
