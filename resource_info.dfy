/**
  `GeneratedResourceInfo`, the per-type record of which optional fragments
  were generated, and the per-service ordering of those records by type.
 */
module ResourceInfo {
  import opened Text

  datatype GeneratedResourceInfo = GeneratedResourceInfo(resourceType: string, tags: bool, creationTime: bool, owner: bool)

  /** No record's type is smaller than an earlier record's, by Go's string order. */
  predicate SortedByType(s: seq<GeneratedResourceInfo>)
  {
    forall i, j :: 0 <= i < j < |s| ==> !Less(s[j].resourceType, s[i].resourceType)
  }

  predicate DistinctTypes(s: seq<GeneratedResourceInfo>)
  {
    forall i, j :: 0 <= i < j < |s| ==> s[i].resourceType != s[j].resourceType
  }

  /** No record of the sequence has the type of `x`. */
  predicate TypeAbsent(x: GeneratedResourceInfo, s: seq<GeneratedResourceInfo>)
  {
    forall y :: y in s ==> y.resourceType != x.resourceType
  }

  /** Insertion of one record into a sorted sequence. */
  function InsertByType(x: GeneratedResourceInfo, s: seq<GeneratedResourceInfo>): (r: seq<GeneratedResourceInfo>)
    requires SortedByType(s)
    ensures SortedByType(r)
    ensures multiset(r) == multiset(s) + multiset{x}
    ensures DistinctTypes(s) && TypeAbsent(x, s) ==> DistinctTypes(r)
    decreases |s|
  {
    if |s| == 0 then [x]
    else if Less(s[0].resourceType, x.resourceType) then
      var rest := InsertByType(x, s[1..]);
      InsertAfterHead(x, s, rest);
      [s[0]] + rest
    else
      InsertInFront(x, s);
      [x] + s
  }

  lemma InsertAfterHead(x: GeneratedResourceInfo, s: seq<GeneratedResourceInfo>, rest: seq<GeneratedResourceInfo>)
    requires |s| > 0 && SortedByType(s) && Less(s[0].resourceType, x.resourceType)
    requires SortedByType(rest) && multiset(rest) == multiset(s[1..]) + multiset{x}
    requires DistinctTypes(s[1..]) && TypeAbsent(x, s[1..]) ==> DistinctTypes(rest)
    ensures SortedByType([s[0]] + rest)
    ensures multiset([s[0]] + rest) == multiset(s) + multiset{x}
    ensures DistinctTypes(s) && TypeAbsent(x, s) ==> DistinctTypes([s[0]] + rest)
  {
    assert s == [s[0]] + s[1..];
    RestComesFrom(x, s, rest);
    HeadBelowRest(x, s, rest);
    PrependSorted(s[0], rest);
    if DistinctTypes(s) && TypeAbsent(x, s) {
      forall j | 0 <= j < |rest| ensures rest[j].resourceType != s[0].resourceType {
        if rest[j] != x {
          var k :| 0 <= k < |s[1..]| && s[1..][k] == rest[j];
          assert s[k + 1] == rest[j];
        } else {
          assert s[0] in s;
        }
      }
      PrependDistinct(s[0], rest);
    }
  }

  lemma RestComesFrom(x: GeneratedResourceInfo, s: seq<GeneratedResourceInfo>, rest: seq<GeneratedResourceInfo>)
    requires |s| > 0 && multiset(rest) == multiset(s[1..]) + multiset{x}
    ensures forall j :: 0 <= j < |rest| ==> rest[j] == x || rest[j] in s[1..]
  {
    forall j | 0 <= j < |rest| ensures rest[j] == x || rest[j] in s[1..] {
      assert rest[j] in multiset(rest);
    }
  }

  lemma HeadBelowRest(x: GeneratedResourceInfo, s: seq<GeneratedResourceInfo>, rest: seq<GeneratedResourceInfo>)
    requires |s| > 0 && SortedByType(s) && Less(s[0].resourceType, x.resourceType)
    requires forall j :: 0 <= j < |rest| ==> rest[j] == x || rest[j] in s[1..]
    ensures forall j :: 0 <= j < |rest| ==> !Less(rest[j].resourceType, s[0].resourceType)
  {
    forall j | 0 <= j < |rest| ensures !Less(rest[j].resourceType, s[0].resourceType) {
      if rest[j] == x {
        LessAsymmetric(s[0].resourceType, x.resourceType);
      } else {
        var k :| 0 <= k < |s[1..]| && s[1..][k] == rest[j];
        assert s[k + 1] == rest[j];
      }
    }
  }

  lemma PrependSorted(h: GeneratedResourceInfo, rest: seq<GeneratedResourceInfo>)
    requires SortedByType(rest)
    requires forall j :: 0 <= j < |rest| ==> !Less(rest[j].resourceType, h.resourceType)
    ensures SortedByType([h] + rest)
  {
    var r := [h] + rest;
    forall i, j | 0 <= i < j < |r| ensures !Less(r[j].resourceType, r[i].resourceType) {
      assert r[j] == rest[j - 1];
      if i > 0 { assert r[i] == rest[i - 1]; }
    }
  }

  lemma PrependDistinct(h: GeneratedResourceInfo, rest: seq<GeneratedResourceInfo>)
    requires DistinctTypes(rest)
    requires forall j :: 0 <= j < |rest| ==> rest[j].resourceType != h.resourceType
    ensures DistinctTypes([h] + rest)
  {
    var r := [h] + rest;
    forall i, j | 0 <= i < j < |r| ensures r[i].resourceType != r[j].resourceType {
      assert r[j] == rest[j - 1];
      if i > 0 { assert r[i] == rest[i - 1]; }
    }
  }

  lemma InsertInFront(x: GeneratedResourceInfo, s: seq<GeneratedResourceInfo>)
    requires |s| > 0 && SortedByType(s) && !Less(s[0].resourceType, x.resourceType)
    ensures SortedByType([x] + s)
    ensures DistinctTypes(s) && TypeAbsent(x, s) ==> DistinctTypes([x] + s)
  {
    forall j | 0 <= j < |s| ensures !Less(s[j].resourceType, x.resourceType) {
      LessTotal(s[j].resourceType, s[0].resourceType);
      LessTransitive(s[0].resourceType, s[j].resourceType, x.resourceType);
    }
    assert forall j :: 0 <= j < |s| ==> s[j] in s;
  }

  /**
    The ordering `sort.Slice` gives each service's records: sorted by type,
    a permutation of the input, and types stay distinct.
   */
  function SortByType(s: seq<GeneratedResourceInfo>): (r: seq<GeneratedResourceInfo>)
    ensures SortedByType(r)
    ensures multiset(r) == multiset(s)
    ensures DistinctTypes(s) ==> DistinctTypes(r)
    decreases |s|
  {
    if |s| == 0 then []
    else
      var rest := SortByType(s[1..]);
      SortStep(s, rest);
      InsertByType(s[0], rest)
  }

  lemma SortStep(s: seq<GeneratedResourceInfo>, rest: seq<GeneratedResourceInfo>)
    requires |s| > 0 && multiset(rest) == multiset(s[1..])
    ensures multiset(s) == multiset(s[1..]) + multiset{s[0]}
    ensures DistinctTypes(s) ==> DistinctTypes(s[1..]) && TypeAbsent(s[0], rest)
  {
    assert s == [s[0]] + s[1..];
    if DistinctTypes(s) {
      forall y | y in rest ensures y.resourceType != s[0].resourceType {
        assert y in multiset(s[1..]);
        var k :| 0 <= k < |s[1..]| && s[1..][k] == y;
        assert s[k + 1] == y;
      }
    }
  }

  /**
    Two sorted sequences of records with distinct types and the same
    elements are equal: the per-service order does not depend on the order
    the records were produced in.
   */
  lemma {:induction false} SortedIsUnique(a: seq<GeneratedResourceInfo>, b: seq<GeneratedResourceInfo>)
    requires SortedByType(a) && SortedByType(b)
    requires DistinctTypes(a) && DistinctTypes(b)
    requires forall x :: x in a <==> x in b
    ensures a == b
    decreases |a|
  {
    if |a| > 0 { assert a[0] in a; }
    if |b| > 0 { assert b[0] in b; }
    if |a| > 0 && |b| > 0 {
      FirstIsLeast(a, b[0]);
      FirstIsLeast(b, a[0]);
      LessAsymmetric(a[0].resourceType, b[0].resourceType);
      assert a[0] == b[0];
      forall x ensures x in a[1..] <==> x in b[1..] {
        if x in a[1..] { InTail(a, b, x); }
        if x in b[1..] { InTail(b, a, x); }
      }
      SortedIsUnique(a[1..], b[1..]);
      assert a == [a[0]] + a[1..] && b == [b[0]] + b[1..];
    }
  }

  /** A record after the head of `a` is after the head of `b`, when both hold the same records with the same head. */
  lemma InTail(a: seq<GeneratedResourceInfo>, b: seq<GeneratedResourceInfo>, x: GeneratedResourceInfo)
    requires |a| > 0 && |b| > 0 && a[0] == b[0] && DistinctTypes(a)
    requires forall y :: y in a <==> y in b
    requires x in a[1..]
    ensures x in b[1..]
  {
    var i :| 0 < i < |a| && a[i] == x;
    assert x.resourceType != a[0].resourceType;
    assert x in b;
    var j :| 0 <= j < |b| && b[j] == x;
    assert j != 0;
    assert b[j] in b[1..];
  }

  /** In a sorted sequence with distinct types, the first record has the least type. */
  lemma FirstIsLeast(a: seq<GeneratedResourceInfo>, x: GeneratedResourceInfo)
    requires |a| > 0 && SortedByType(a) && DistinctTypes(a)
    ensures x in a ==> x == a[0] || Less(a[0].resourceType, x.resourceType)
  {
    if x in a && x != a[0] {
      var i :| 0 <= i < |a| && a[i] == x;
      LessTotal(a[0].resourceType, x.resourceType);
    }
  }
}
