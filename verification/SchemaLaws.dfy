/** Structural equality is an equivalence on parsed values, and validation respects it. */
module SchemaLaws {
  import opened Text
  import opened Json
  import opened Schema

  // ---- parsed values -----------------------------------------------------------------------

  ghost predicate Unique(members: seq<Member>) {
    forall i, j :: 0 <= i < j < |members| ==> members[i].key != members[j].key
  }

  /** Keys are unique at every level, as the parser guarantees. */
  ghost predicate Tidy(v: Json)
    decreases v
  {
    match v
    case Arr(items) => forall i :: 0 <= i < |items| ==> Tidy(items[i])
    case Obj(members) => Unique(members) && forall i :: 0 <= i < |members| ==> Tidy(members[i].value)
    case _ => true
  }

  lemma {:induction false} GetIs(members: seq<Member>, i: nat)
    requires Unique(members) && i < |members|
    ensures Get(members, members[i].key) == Some(members[i].value)
  {
    if i > 0 {
      assert members[1..][i - 1] == members[i];
      GetIs(members[1..], i - 1);
    }
  }

  /** Where a key is found. */
  lemma {:induction false} GetAt(members: seq<Member>, key: string) returns (i: nat)
    requires Get(members, key).Some?
    ensures i < |members| && members[i].key == key && members[i].value == Get(members, key).value
  {
    if members[0].key == key {
      i := 0;
    } else {
      i := GetAt(members[1..], key);
      i := i + 1;
    }
  }

  lemma {:induction false} GetMissing(members: seq<Member>, key: string)
    ensures Get(members, key).None? <==> forall i :: 0 <= i < |members| ==> members[i].key != key
  {
    if members != [] {
      GetMissing(members[1..], key);
      assert members == [members[0]] + members[1..];
    }
  }

  // ---- equality is an equivalence ----------------------------------------------------------------

  ghost predicate Matched(a: seq<Member>, b: seq<Member>) {
    |a| == |b| && forall i :: 0 <= i < |a| ==> MemberEqual(a[i], b)
  }

  lemma {:induction false} EqualReflexive(v: Json)
    requires Tidy(v)
    ensures Equal(v, v)
    decreases v
  {
    match v
    case Arr(items) =>
      forall i | 0 <= i < |items|
        ensures Equal(items[i], items[i])
      {
        EqualReflexive(items[i]);
      }
    case Obj(members) =>
      forall i | 0 <= i < |members|
        ensures MemberEqual(members[i], members)
      {
        GetIs(members, i);
        EqualReflexive(members[i].value);
      }
    case _ =>
  }

  ghost function Keys(members: seq<Member>): set<string> { set i | 0 <= i < |members| :: members[i].key }

  lemma {:induction false} KeysCount(members: seq<Member>)
    requires Unique(members)
    ensures |Keys(members)| == |members|
  {
    if members != [] {
      var init, last := members[..|members| - 1], members[|members| - 1];
      KeysCount(init);
      assert forall i :: 0 <= i < |init| ==> init[i] == members[i];
      assert Keys(members) == Keys(init) + {last.key};
      assert last.key !in Keys(init);
    }
  }

  lemma {:induction false} SubsetSameSize<T>(a: set<T>, b: set<T>)
    requires a <= b && |a| == |b|
    ensures a == b
  {
    assert b == a + (b - a);
    assert |b| == |a| + |b - a|;
    assert b - a == {};
  }

  /** Pigeonhole: equally many unique keys, all found on the other side, are the same keys. */
  lemma {:induction false} SameKeys(a: seq<Member>, b: seq<Member>)
    requires Unique(a) && Unique(b) && Matched(a, b)
    ensures Keys(a) == Keys(b)
  {
    forall i | 0 <= i < |a|
      ensures a[i].key in Keys(b)
    {
      var j := GetAt(b, a[i].key);
    }
    KeysCount(a);
    KeysCount(b);
    SubsetSameSize(Keys(a), Keys(b));
  }

  lemma {:induction false} EqualSymmetric(a: Json, b: Json)
    requires Tidy(a) && Tidy(b) && Equal(a, b)
    ensures Equal(b, a)
    decreases a
  {
    match a
    case Arr(items) =>
      forall i | 0 <= i < |items|
        ensures Equal(b.items[i], items[i])
      {
        EqualSymmetric(items[i], b.items[i]);
      }
    case Obj(members) =>
      SameKeys(members, b.members);
      forall j | 0 <= j < |b.members|
        ensures MemberEqual(b.members[j], members)
      {
        assert b.members[j].key in Keys(members);
        var i :| 0 <= i < |members| && members[i].key == b.members[j].key;
        assert MemberEqual(members[i], b.members);
        GetIs(b.members, j);
        GetIs(members, i);
        EqualSymmetric(members[i].value, b.members[j].value);
      }
    case _ =>
  }

  lemma {:induction false} NumberTransitive(a: Json, b: Json, c: Json)
    requires IsNumber(a) && IsNumber(b) && IsNumber(c) && NumberEqual(a, b) && NumberEqual(b, c)
    ensures NumberEqual(a, c)
  {
  }

  lemma {:induction false} EqualTransitive(a: Json, b: Json, c: Json)
    requires Tidy(a) && Tidy(b) && Tidy(c) && Equal(a, b) && Equal(b, c)
    ensures Equal(a, c)
    decreases a
  {
    match a
    case Whole(_) => NumberTransitive(a, b, c);
    case Fraction(_) => NumberTransitive(a, b, c);
    case Arr(items) =>
      forall i | 0 <= i < |items|
        ensures Equal(items[i], c.items[i])
      {
        EqualTransitive(items[i], b.items[i], c.items[i]);
      }
    case Obj(members) =>
      forall i | 0 <= i < |members|
        ensures MemberEqual(members[i], c.members)
      {
        assert MemberEqual(members[i], b.members);
        var j := GetAt(b.members, members[i].key);
        assert MemberEqual(b.members[j], c.members);
        var k := GetAt(c.members, members[i].key);
        EqualTransitive(members[i].value, b.members[j].value, c.members[k].value);
      }
    case _ =>
  }

  // ---- the profile without its budget ---------------------------------------------------------------

  /** What a supported schema looks like, regardless of the order of its keywords. */
  ghost predicate Profile(schema: Json, depth: nat)
    decreases schema
  {
    depth <= MAX_SCHEMA_LEVEL
    && match schema
       case Bool(_) => true
       case Obj(members) => ProfileMembers(schema, members, depth)
       case _ => false
  }

  ghost predicate ProfileMembers(schema: Json, members: seq<Member>, depth: nat)
    decreases members
  {
    forall i :: 0 <= i < |members| ==> ProfileMember(schema, members[i], depth)
  }

  ghost predicate ProfileMember(schema: Json, m: Member, depth: nat)
    decreases m
  {
    if m.key == "properties" then
      m.value.Obj? && |m.value.members| <= MAX_LIST
      && forall i :: 0 <= i < |m.value.members| ==> Profile(m.value.members[i].value, depth + 1)
    else if IsSub(m.key) then Profile(m.value, depth + 1)
    else PlainOk(schema, m)
  }

  /** How many schema nodes the check visits. */
  ghost function SchemaNodes(schema: Json): nat
    decreases schema
  {
    match schema
    case Obj(members) => 1 + NodesOf(members)
    case _ => 1
  }

  ghost function NodesOf(members: seq<Member>): nat
    decreases members
  {
    if members == [] then 0 else MemberNodes(members[0]) + NodesOf(members[1..])
  }

  ghost function MemberNodes(m: Member): nat
    decreases m
  {
    if m.key == "properties" then if m.value.Obj? then AllNodes(m.value.members) else 0
    else if IsSub(m.key) then SchemaNodes(m.value)
    else 0
  }

  ghost function AllNodes(members: seq<Member>): nat
    decreases members
  {
    if members == [] then 0 else SchemaNodes(members[0].value) + AllNodes(members[1..])
  }

  /** Does the check succeed within its budget? */
  ghost predicate Runs(r: (bool, nat), ok: bool, cost: nat, left: nat) {
    && (r.0 <==> ok && cost <= left)
    && (r.0 ==> r.1 == left - cost)
  }

  lemma {:induction false} SupportsExactly(schema: Json, depth: nat, left: nat)
    ensures Runs(Supports(schema, depth, left), Profile(schema, depth), SchemaNodes(schema), left)
    decreases schema
  {
    if schema.Obj? && depth <= MAX_SCHEMA_LEVEL && left > 0 {
      SupportsMembersExactly(schema, schema.members, depth, left - 1);
    }
  }

  lemma {:induction false} SupportsMembersExactly(schema: Json, members: seq<Member>, depth: nat, left: nat)
    ensures Runs(SupportsMembers(schema, members, depth, left), ProfileMembers(schema, members, depth), NodesOf(members), left)
    decreases members, 1
  {
    if members != [] {
      var m := members[0];
      SupportsMemberExactly(schema, m, depth, left);
      hide PlainOk, ProfileMember, MemberNodes, SupportsMember;
      assert members == [m] + members[1..];
      if ProfileMember(schema, m, depth) && MemberNodes(m) <= left {
        SupportsMembersExactly(schema, members[1..], depth, left - MemberNodes(m));
      }
    }
  }

  lemma {:induction false} SupportsMemberExactly(schema: Json, m: Member, depth: nat, left: nat)
    ensures Runs(SupportsMember(schema, m, depth, left), ProfileMember(schema, m, depth), MemberNodes(m), left)
    decreases m, 0
  {
    hide PlainOk;
    if m.key == "properties" {
      if m.value.Obj? {
        SupportsAllExactly(m.value.members, depth + 1, left);
      }
    } else if IsSub(m.key) {
      SupportsExactly(m.value, depth + 1, left);
    }
  }

  lemma {:induction false} SupportsAllExactly(members: seq<Member>, depth: nat, left: nat)
    ensures Runs(SupportsAll(members, depth, left), forall i :: 0 <= i < |members| ==> Profile(members[i].value, depth),
                 AllNodes(members), left)
    decreases members
  {
    if members != [] {
      SupportsExactly(members[0].value, depth, left);
      assert members == [members[0]] + members[1..];
      if Profile(members[0].value, depth) && SchemaNodes(members[0].value) <= left {
        SupportsAllExactly(members[1..], depth, left - SchemaNodes(members[0].value));
      }
    }
  }

  // ---- validation without its budget ----------------------------------------------------------------

  /** Satisfaction of a schema by a value standing at a depth. */
  ghost predicate Satisfies(schema: Option<Json>, v: Json, depth: nat)
    decreases v
  {
    depth <= MAX_LEVEL
    && match schema
       case None => true
       case Some(Bool(b)) => b
       case Some(s) =>
         Local(s, v)
         && match v
            case Arr(items) => forall i :: 0 <= i < |items| ==> Satisfies(Field(s, "items"), items[i], depth + 1)
            case Obj(members) => forall i :: 0 <= i < |members| ==> MemberSatisfies(s, members[i], depth + 1)
            case _ => true
  }

  ghost predicate MemberSatisfies(s: Json, m: Member, depth: nat)
    decreases m
  {
    Satisfies(ChildSchema(s, m.key), m.value, depth)
  }

  /** How many nodes a complete validation visits. */
  ghost function Cost(schema: Option<Json>, v: Json): nat
    decreases v
  {
    match schema
    case None => 1
    case Some(Bool(_)) => 1
    case Some(s) =>
      match v
      case Arr(items) => 1 + CostItems(Field(s, "items"), items)
      case Obj(members) => 1 + CostMembers(s, members)
      case _ => 1
  }

  ghost function CostItems(sub: Option<Json>, items: seq<Json>): nat
    decreases items
  {
    if items == [] then 0 else Cost(sub, items[0]) + CostItems(sub, items[1..])
  }

  ghost function MemberCost(s: Json, m: Member): nat
    decreases m
  {
    Cost(ChildSchema(s, m.key), m.value)
  }

  ghost function CostMembers(s: Json, members: seq<Member>): nat
    decreases members
  {
    if members == [] then 0 else MemberCost(s, members[0]) + CostMembers(s, members[1..])
  }

  /** The validator accepts exactly the satisfying values whose walk fits the budget,
      and then charges exactly that walk. */
  lemma {:induction false} ValidateExactly(schema: Option<Json>, v: Json, depth: nat, left: nat)
    ensures Runs(Validate(schema, v, depth, left), Satisfies(schema, v, depth), Cost(schema, v), left)
    decreases v, 1
  {
    hide Local, MemberSatisfies, Field, ChildSchema, CostItems, CostMembers, ValidateItems, ValidateMembers;
    if left > 0 && depth <= MAX_LEVEL && schema.Some? && !schema.value.Bool? && Local(schema.value, v) {
      match v
      case Arr(items) => ItemsExactly(Field(schema.value, "items"), items, depth + 1, left - 1);
      case Obj(members) => MembersExactly(schema.value, members, depth + 1, left - 1);
      case _ =>
    }
  }

  lemma {:induction false} ItemsExactly(sub: Option<Json>, items: seq<Json>, depth: nat, left: nat)
    ensures Runs(ValidateItems(sub, items, depth, left), forall i :: 0 <= i < |items| ==> Satisfies(sub, items[i], depth),
                 CostItems(sub, items), left)
    decreases items, 0
  {
    hide Local;
    if items != [] {
      ValidateExactly(sub, items[0], depth, left);
      assert items == [items[0]] + items[1..];
      if Satisfies(sub, items[0], depth) && Cost(sub, items[0]) <= left {
        ItemsExactly(sub, items[1..], depth, left - Cost(sub, items[0]));
      }
    }
  }

  lemma {:induction false} MembersExactly(s: Json, members: seq<Member>, depth: nat, left: nat)
    ensures Runs(ValidateMembers(s, members, depth, left), forall i :: 0 <= i < |members| ==> MemberSatisfies(s, members[i], depth),
                 CostMembers(s, members), left)
    decreases members, 0
  {
    hide Local, ChildSchema;
    if members != [] {
      ValidateExactly(ChildSchema(s, members[0].key), members[0].value, depth, left);
      assert members == [members[0]] + members[1..];
      if MemberSatisfies(s, members[0], depth) && MemberCost(s, members[0]) <= left {
        MembersExactly(s, members[1..], depth, left - MemberCost(s, members[0]));
      }
    }
  }
}
