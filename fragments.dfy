/**
  The optional code fragments read off the members of a list element: tags,
  creation time and the owner filter. Each is a structured value; the
  `Render` functions give the Go text that is spliced into the generated
  list function (empty when there is no fragment).
 */
module Fragments {
  import opened Wrappers
  import opened Text
  import opened Metadata

  // ---------------------------------------------------------------------------
  // Tags

  datatype TagsCode =
    | NoTags
    | TagsFromList   // the element's `Tags` is a list (the text reads `Key` and `Value` from each entry)
    | TagsFromMap    // the element's `Tags` is a map

  /** `GetTagsGoCode`: decided by the first member named `Tags` that is a list or a map. */
  function TagsCodeOf(ms: seq<Member>): (r: TagsCode)
    ensures r == TagsFromList ==> exists m :: m in ms && m.name == "Tags" && m.shape.List?
    ensures r == TagsFromMap ==> exists m :: m in ms && m.name == "Tags" && m.shape.Map?
    ensures r == NoTags <==> forall m :: m in ms && m.name == "Tags" ==> !m.shape.List? && !m.shape.Map?
    decreases |ms|
  {
    if |ms| == 0 then NoTags
    else if ms[0].name == "Tags" && TypeName(ms[0].shape) == "list" then TagsFromList
    else if ms[0].name == "Tags" && TypeName(ms[0].shape) == "map" then TagsFromMap
    else
      var r := TagsCodeOf(ms[1..]);
      assert forall m :: m in ms <==> m == ms[0] || m in ms[1..];
      r
  }

  /**
    With distinct member names the tags fragment is the list form exactly
    when `Tags` is a list, and the map form exactly when it is a map.
   */
  lemma {:induction false} TagsCodeExact(ms: seq<Member>)
    requires DistinctNames(ms)
    ensures TagsCodeOf(ms) == TagsFromList <==> exists m :: m in ms && m.name == "Tags" && m.shape.List?
    ensures TagsCodeOf(ms) == TagsFromMap <==> exists m :: m in ms && m.name == "Tags" && m.shape.Map?
    decreases |ms|
  {
    if |ms| > 0 {
      assert DistinctNames(ms[1..]);
      TagsCodeExact(ms[1..]);
      if ms[0].name == "Tags" {
        forall m | m in ms[1..] ensures m.name != "Tags" {
          var k :| 0 <= k < |ms[1..]| && ms[1..][k] == m;
          assert ms[k + 1] == m;
        }
      }
      assert forall m :: m in ms <==> m == ms[0] || m in ms[1..];
    }
  }

  function RenderTags(c: TagsCode): (r: string)
    ensures r == "" <==> c == NoTags
  {
    match c
    case NoTags => ""
    case TagsFromList => "tags := map[string]string{}\nfor _, t := range r.Tags {\n\ttags[*t.Key] = *t.Value\n}"
    case TagsFromMap => "tags := map[string]string{}\nfor k, v := range r.Tags {\n\ttags[k] = v\n}"
  }

  function TagsGoCode(ms: seq<Member>): string
  {
    RenderTags(TagsCodeOf(ms))
  }

  // ---------------------------------------------------------------------------
  // Creation time

  /** The member names known to hold a creation time, in the order they are tried for one member. */
  const CreationTimeFieldNames: seq<string> := [
    "LaunchTime", "CreateTime", "CreateDate", "CreatedTime", "CreationDate",
    "CreationTime", "CreationTimestamp", "StartTime", "InstanceCreateTime"
  ]

  /** The layout a `string` creation time is parsed with. */
  const TimeLayout: string := "2006-01-02T15:04:05.000Z0700"

  datatype CreationTimeCode =
    | NoCreationTime
    | ParseString(field: string)   // `time.Parse(TimeLayout, *r.field)`, error passed up; imports "time"
    | PassThrough(field: string)   // `*r.field`, already a time
    | FromMillis(field: string)    // `time.Unix(0, *r.field * 1000000).UTC()`, milliseconds to nanoseconds; imports "time"

  /** A member that yields a creation time: a known name and a type the generator handles. */
  predicate IsCreationTimeField(m: Member)
  {
    m.name in CreationTimeFieldNames && TypeName(m.shape) in {"string", "timestamp", "long"}
  }

  /**
    The inner loop over the known names for one member: a name equal to the
    member's decides by the member's type; an unhandled type is passed over
    and the loop goes on.
   */
  function FormAmong(m: Member, names: seq<string>): (r: Option<CreationTimeCode>)
    ensures r.Some? <==> m.name in names && TypeName(m.shape) in {"string", "timestamp", "long"}
    ensures r.Some? ==> (r.value != NoCreationTime && r.value.field == m.name
      && (r.value.ParseString? <==> TypeName(m.shape) == "string")
      && (r.value.PassThrough? <==> TypeName(m.shape) == "timestamp")
      && (r.value.FromMillis? <==> TypeName(m.shape) == "long"))
    decreases |names|
  {
    if |names| == 0 then None
    else if m.name == names[0] && TypeName(m.shape) == "string" then Some(ParseString(m.name))
    else if m.name == names[0] && TypeName(m.shape) == "timestamp" then Some(PassThrough(m.name))
    else if m.name == names[0] && TypeName(m.shape) == "long" then Some(FromMillis(m.name))
    else FormAmong(m, names[1..])
  }

  /** Member i yields the creation time `r`: it is the first member that yields one, and its type fixes the form. */
  ghost predicate ChosenAt(ms: seq<Member>, r: CreationTimeCode, i: int)
  {
    && 0 <= i < |ms|
    && r != NoCreationTime && IsCreationTimeField(ms[i]) && r.field == ms[i].name
    && (forall j :: 0 <= j < i ==> !IsCreationTimeField(ms[j]))
    && (r.ParseString? <==> TypeName(ms[i].shape) == "string")
    && (r.PassThrough? <==> TypeName(ms[i].shape) == "timestamp")
    && (r.FromMillis? <==> TypeName(ms[i].shape) == "long")
  }

  /**
    `GetCreationTimeGoCode`: the outer loop runs over the members, so the
    first member, in member order, that yields a creation time decides the
    fragment; when several known names are present, which one wins depends
    on that order.
   */
  function CreationTimeOf(ms: seq<Member>): (r: CreationTimeCode)
    ensures r == NoCreationTime <==> forall m :: m in ms ==> !IsCreationTimeField(m)
    ensures r != NoCreationTime ==> exists i :: ChosenAt(ms, r, i)
    decreases |ms|
  {
    if |ms| == 0 then NoCreationTime
    else
      var here := FormAmong(ms[0], CreationTimeFieldNames);
      if here.Some? then
        assert ChosenAt(ms, here.value, 0);
        here.value
      else
        var r := CreationTimeOf(ms[1..]);
        assert forall m :: m in ms <==> m == ms[0] || m in ms[1..];
        if r != NoCreationTime then
          ghost var i :| ChosenAt(ms[1..], r, i);
          ChosenLater(ms, r, i);
          r
        else r
  }

  lemma ChosenLater(ms: seq<Member>, r: CreationTimeCode, i: int)
    requires |ms| > 0 && !IsCreationTimeField(ms[0]) && ChosenAt(ms[1..], r, i)
    ensures ChosenAt(ms, r, i + 1)
  {
    assert ms[i + 1] == ms[1..][i];
    forall j | 0 <= j < i + 1
      ensures !IsCreationTimeField(ms[j])
    {
      if j > 0 { assert ms[j] == ms[1..][j - 1]; }
    }
  }

  /** The imports the creation-time fragment needs. */
  function CreationTimeImports(c: CreationTimeCode): seq<string>
  {
    if c.ParseString? || c.FromMillis? then ["time"] else []
  }

  function RenderCreationTime(c: CreationTimeCode): (r: string)
    ensures r == "" <==> c == NoCreationTime
  {
    match c
    case NoCreationTime => ""
    case ParseString(f) =>
      "t, err := time.Parse(\"" + TimeLayout + "\", *r." + f + ")\nif err != nil {\n\treturn nil, err\n}"
    case PassThrough(f) => "t := *r." + f
    case FromMillis(f) => "t := time.Unix(0, *r." + f + " * 1000000).UTC()"
  }

  /** The fragment text and its imports, as the generator returns them. */
  function CreationTimeGoCode(ms: seq<Member>): (string, seq<string>)
  {
    var c := CreationTimeOf(ms);
    (RenderCreationTime(c), CreationTimeImports(c))
  }

  /**
    The fragment is `("", [])` exactly when no member with a known name has
    type `string`, `timestamp` or `long`; otherwise the chosen member's name
    is a known one and its type fixes the form and the imports.
   */
  lemma CreationTimeGoCodeCases(ms: seq<Member>)
    ensures CreationTimeGoCode(ms) == ("", []) <==> forall m :: m in ms ==> !IsCreationTimeField(m)
    ensures CreationTimeGoCode(ms).0 != "" ==>
      var c := CreationTimeOf(ms);
      && c.field in CreationTimeFieldNames
      && (c.ParseString? ==> CreationTimeGoCode(ms).1 == ["time"])
      && (c.PassThrough? ==> CreationTimeGoCode(ms).1 == [])
      && (c.FromMillis? ==> CreationTimeGoCode(ms).1 == ["time"])
  {
    var c := CreationTimeOf(ms);
    if c != NoCreationTime {
      var i :| ChosenAt(ms, c, i);
    }
  }

  /**
    Two orders of the same members: a `timestamp` `CreateTime` listed first
    wins over a `string` `LaunchTime`, and the other way round when listed
    second, although `LaunchTime` comes first among the known names.
   */
  lemma CreationTimeDependsOnMemberOrder()
    ensures CreationTimeOf([Member("CreateTime", Scalar("timestamp")), Member("LaunchTime", Scalar("string"))])
         == PassThrough("CreateTime")
    ensures CreationTimeOf([Member("LaunchTime", Scalar("string")), Member("CreateTime", Scalar("timestamp"))])
         == ParseString("LaunchTime")
  {
    assert "CreateTime" in CreationTimeFieldNames && "LaunchTime" in CreationTimeFieldNames;
  }

  // ---------------------------------------------------------------------------
  // Owner

  datatype OwnerCode =
    | NoOwnerFilter
    | SkipOtherAccounts   // drop instances whose `OwnerId` is not the caller's account

  /** `GetOwnerGoCode`: the filter exactly when a member is named `OwnerId`. */
  function OwnerCodeOf(ms: seq<Member>): (r: OwnerCode)
    ensures r == SkipOtherAccounts <==> exists m :: m in ms && m.name == "OwnerId"
    decreases |ms|
  {
    if |ms| == 0 then NoOwnerFilter
    else if ms[0].name == "OwnerId" then SkipOtherAccounts
    else
      var r := OwnerCodeOf(ms[1..]);
      assert forall m :: m in ms <==> m == ms[0] || m in ms[1..];
      r
  }

  function RenderOwner(c: OwnerCode): (r: string)
    ensures r == "" <==> c == NoOwnerFilter
  {
    match c
    case NoOwnerFilter => ""
    case SkipOtherAccounts => "if *r.OwnerId != client.AccountID {\n\tcontinue\n}"
  }

  function OwnerGoCode(ms: seq<Member>): string
  {
    RenderOwner(OwnerCodeOf(ms))
  }
}
