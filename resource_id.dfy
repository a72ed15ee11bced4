/**
  Guessing the identifying member of a list element when the resource-ID
  table holds the name placeholder: a member named exactly `Name`, or else
  every member whose lower-cased name contains `name`.
 */
module ResourceId {
  import opened Text
  import opened Metadata

  /** A member name that contains `name` once lower-cased. */
  predicate IsNameLike(n: string)
  {
    Contains(ToLower(n), "name")
  }

  /**
    The scan over the members: the first member named `Name` ends it with
    that name alone, dropping what was gathered; otherwise the name-like
    members are gathered in order.
   */
  function NameScan(ms: seq<Member>, gathered: seq<string>): (r: seq<string>)
    ensures (exists m :: m in ms && m.name == "Name") ==> r == ["Name"]
    ensures (forall m :: m in ms ==> m.name != "Name") ==> forall n :: n in r <==>
      n in gathered || exists m :: m in ms && m.name == n && IsNameLike(n)
    decreases |ms|
  {
    if |ms| == 0 then gathered
    else if ms[0].name == "Name" then ["Name"]
    else
      var r := NameScan(ms[1..], gathered + (if IsNameLike(ms[0].name) then [ms[0].name] else []));
      assert forall m :: m in ms <==> m == ms[0] || m in ms[1..];
      r
  }

  /**
    `GetResourceIDNameCandidates` over the members of the list element. A
    member named exactly `Name` gives `["Name"]` whatever the member order,
    so other name-like members beside it are no ambiguity; without it, the
    result is exactly the name-like members.
   */
  function NameCandidates(ms: seq<Member>): (r: seq<string>)
    ensures (exists m :: m in ms && m.name == "Name") ==> r == ["Name"]
    ensures (forall m :: m in ms ==> m.name != "Name") ==>
      forall n :: n in r <==> exists m :: m in ms && m.name == n && IsNameLike(n)
  {
    NameScan(ms, [])
  }

  /** Without a `Name` member, member names being distinct, each name-like member is listed once. */
  lemma {:induction false} NameScanDistinct(ms: seq<Member>, gathered: seq<string>)
    requires DistinctNames(ms)
    requires DistinctStrings(gathered)
    requires forall m :: m in ms ==> m.name !in gathered
    requires forall m :: m in ms ==> m.name != "Name"
    ensures DistinctStrings(NameScan(ms, gathered))
    decreases |ms|
  {
    if |ms| > 0 {
      var next := gathered + (if IsNameLike(ms[0].name) then [ms[0].name] else []);
      forall m | m in ms[1..] ensures m.name !in next {
        var k :| 0 <= k < |ms[1..]| && ms[1..][k] == m;
        assert ms[k + 1] == m;
        assert ms[0].name != ms[k + 1].name;
      }
      assert DistinctStrings(next);
      assert NameScan(ms, gathered) == NameScan(ms[1..], next);
      NameScanDistinct(ms[1..], next);
    }
  }

  /**
    So without a `Name` member the number of candidates is the number of
    name-like members: a single candidate is the one name-like member.
   */
  lemma NameCandidatesSingle(ms: seq<Member>)
    requires DistinctNames(ms)
    requires forall m :: m in ms ==> m.name != "Name"
    ensures |NameCandidates(ms)| == 1 <==>
      exists m :: m in ms && IsNameLike(m.name) && forall m' :: m' in ms && IsNameLike(m'.name) ==> m' == m
  {
    var r := NameCandidates(ms);
    NameScanDistinct(ms, []);
    if |r| == 1 {
      assert r[0] in r;
      var m :| m in ms && m.name == r[0] && IsNameLike(r[0]);
      forall m' | m' in ms && IsNameLike(m'.name) ensures m' == m {
        assert m'.name in r;
        SameNameSameMember(ms, m, m');
      }
    }
    if exists m :: m in ms && IsNameLike(m.name) && forall m' :: m' in ms && IsNameLike(m'.name) ==> m' == m {
      var m :| m in ms && IsNameLike(m.name) && forall m' :: m' in ms && IsNameLike(m'.name) ==> m' == m;
      assert m.name in r;
      forall i | 0 <= i < |r| ensures r[i] == m.name {
        assert r[i] in r;
      }
      AtMostOneOfOne(r, m.name);
    }
  }

  lemma AtMostOneOfOne(r: seq<string>, x: string)
    requires DistinctStrings(r)
    requires forall i :: 0 <= i < |r| ==> r[i] == x
    ensures |r| <= 1
  {
    DistinctElements(r);
    var elems := set y | y in r;
    if x in elems { assert elems == {x}; } else { assert elems == {}; }
  }

  lemma {:induction false} DistinctElements(r: seq<string>)
    requires DistinctStrings(r)
    ensures |set y | y in r| == |r|
  {
    if |r| > 0 {
      DistinctElements(r[1..]);
      assert (set y | y in r) == {r[0]} + (set y | y in r[1..]);
      assert r[0] !in r[1..];
    }
  }

  lemma SameNameSameMember(ms: seq<Member>, m: Member, m': Member)
    requires DistinctNames(ms) && m in ms && m' in ms && m.name == m'.name
    ensures m == m'
  {
    var i :| 0 <= i < |ms| && ms[i] == m;
    var j :| 0 <= j < |ms| && ms[j] == m';
    assert !(i < j) && !(j < i);
  }
}
