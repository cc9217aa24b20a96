/** Equal supported schemas give the same verdict on equal instances, budget included. */
module SchemaRespects {
  import opened Text
  import opened Json
  import opened Schema
  import opened SchemaLaws

  // ---- fields of equal objects -------------------------------------------------------------

  ghost predicate OptTidy(v: Option<Json>) { v.Some? ==> Tidy(v.value) }

  /** Equal objects give equal answers to every lookup. */
  lemma {:induction false} GetEqual(a: seq<Member>, b: seq<Member>, key: string)
    requires Unique(a) && Unique(b) && Matched(a, b)
    ensures OptEqual(Get(a, key), Get(b, key))
  {
    SameKeys(a, b);
    GetMissing(a, key);
    GetMissing(b, key);
    assert Get(a, key).Some? <==> key in Keys(a);
    assert Get(b, key).Some? <==> key in Keys(b);
    if Get(a, key).Some? {
      var i := GetAt(a, key);
      assert MemberEqual(a[i], b);
    }
  }

  lemma {:induction false} FieldEqual(s: Json, t: Json, key: string)
    requires Tidy(s) && Tidy(t) && Equal(s, t)
    ensures OptEqual(Field(s, key), Field(t, key)) && OptTidy(Field(s, key)) && OptTidy(Field(t, key))
  {
    if s.Obj? {
      GetEqual(s.members, t.members, key);
    }
    FieldTidy(s, key);
    FieldTidy(t, key);
  }

  lemma {:induction false} FieldTidy(s: Json, key: string)
    requires Tidy(s)
    ensures OptTidy(Field(s, key))
  {
    if Field(s, key).Some? {
      var i := GetAt(s.members, key);
    }
  }

  lemma {:induction false} ChildEqual(s: Json, t: Json, key: string)
    requires Tidy(s) && Tidy(t) && Equal(s, t)
    ensures OptEqual(ChildSchema(s, key), ChildSchema(t, key)) && OptTidy(ChildSchema(s, key)) && OptTidy(ChildSchema(t, key))
  {
    hide Field, Tidy, Equal;
    FieldEqual(s, t, "properties");
    FieldEqual(s, t, "additionalProperties");
    var p, q := Field(s, "properties"), Field(t, "properties");
    if p.Some? {
      FieldEqual(p.value, q.value, key);
    }
  }

  // ---- profiles of subschemas ------------------------------------------------------------------

  ghost predicate OptProfile(s: Option<Json>, depth: nat) { s.Some? ==> Profile(s.value, depth) }

  lemma {:induction false} FieldProfile(s: Json, key: string, depth: nat)
    requires s.Obj? && Profile(s, depth) && Field(s, key).Some?
    ensures ProfileMember(s, Member(key, Field(s, key).value), depth)
  {
    var i := GetAt(s.members, key);
    assert s.members[i] == Member(key, Field(s, key).value);
  }

  lemma {:induction false} ItemsProfile(s: Json, depth: nat)
    requires s.Obj? && Profile(s, depth)
    ensures OptProfile(Field(s, "items"), depth + 1)
  {
    if Field(s, "items").Some? {
      FieldProfile(s, "items", depth);
    }
  }

  lemma {:induction false} ChildProfile(s: Json, key: string, depth: nat)
    requires s.Obj? && Profile(s, depth)
    ensures OptProfile(ChildSchema(s, key), depth + 1)
  {
    var p := Field(s, "properties");
    if p.Some? {
      FieldProfile(s, "properties", depth);
      if Field(p.value, key).Some? {
        var i := GetAt(p.value.members, key);
        return;
      }
    }
    if Field(s, "additionalProperties").Some? {
      FieldProfile(s, "additionalProperties", depth);
    }
  }

  // ---- local checks ------------------------------------------------------------------------------

  /** The exact number a value denotes. */
  function Exactly(v: Json): real
    requires IsNumber(v)
  {
    if v.Whole? then v.i as real else v.d.value
  }

  lemma {:induction false} EqualNumbers(v: Json, w: Json)
    requires IsNumber(v) && Equal(v, w)
    ensures IsNumber(w) && Exactly(v) == Exactly(w) && DoubleValue(v) == DoubleValue(w)
  {
  }

  /** Against a bound of the profile the mixed comparison orders the exact numbers. */
  lemma {:induction false} OrderExact(v: Json, bound: Json)
    requires IsNumber(v) && BoundValue(bound)
    ensures Order(v, bound) == Sign(Exactly(v), Exactly(bound))
  {
  }

  lemma {:induction false} TypeEqual(s: Json, t: Json, v: Json, w: Json)
    requires Tidy(s) && Tidy(t) && Equal(s, t) && Equal(v, w)
    ensures TypeOk(s, v) == TypeOk(t, w)
  {
    FieldEqual(s, t, "type");
    if IsNumber(v) {
      EqualNumbers(v, w);
    }
  }

  lemma {:induction false} EqualBoth(a: Json, b: Json, v: Json, w: Json)
    requires Tidy(a) && Tidy(b) && Tidy(v) && Tidy(w) && Equal(a, b) && Equal(v, w)
    ensures Equal(a, v) == Equal(b, w)
  {
    EqualSymmetric(a, b);
    EqualSymmetric(v, w);
    if Equal(a, v) {
      EqualTransitive(b, a, v);
      EqualTransitive(b, v, w);
    }
    if Equal(b, w) {
      EqualTransitive(a, b, w);
      EqualTransitive(a, w, v);
    }
  }

  lemma {:induction false} ConstEqual(s: Json, t: Json, v: Json, w: Json)
    requires Tidy(s) && Tidy(t) && Tidy(v) && Tidy(w) && Equal(s, t) && Equal(v, w)
    ensures ConstOk(s, v) == ConstOk(t, w)
  {
    FieldEqual(s, t, "const");
    if Field(s, "const").Some? {
      EqualBoth(Field(s, "const").value, Field(t, "const").value, v, w);
    }
  }

  lemma {:induction false} EnumEqual(s: Json, t: Json, v: Json, w: Json)
    requires Tidy(s) && Tidy(t) && Tidy(v) && Tidy(w) && Equal(s, t) && Equal(v, w)
    ensures EnumOk(s, v) == EnumOk(t, w)
  {
    FieldEqual(s, t, "enum");
    var a, b := Items(Field(s, "enum")), Items(Field(t, "enum"));
    assert |a| == |b|;
    forall i | 0 <= i < |a|
      ensures Equal(a[i], v) == Equal(b[i], w)
    {
      EqualBoth(a[i], b[i], v, w);
    }
  }

  lemma {:induction false} CountEqual(s: Json, t: Json, min: string, max: string, n: nat, depth: nat)
    requires s.Obj? && t.Obj? && Tidy(s) && Tidy(t) && Equal(s, t) && Profile(s, depth) && Profile(t, depth)
    requires min in COUNTS && max in COUNTS
    ensures CountOk(s, min, max, n) == CountOk(t, min, max, n)
  {
    CountField(s, t, min, depth);
    CountField(s, t, max, depth);
  }

  lemma {:induction false} CountField(s: Json, t: Json, key: string, depth: nat)
    requires s.Obj? && t.Obj? && Tidy(s) && Tidy(t) && Equal(s, t) && Profile(s, depth) && Profile(t, depth) && key in COUNTS
    ensures Field(s, key) == Field(t, key)
  {
    FieldEqual(s, t, key);
    if Field(s, key).Some? {
      FieldProfile(s, key, depth);
      FieldProfile(t, key, depth);
    }
  }

  lemma {:induction false} BoundEqual(s: Json, t: Json, v: Json, w: Json, key: string, depth: nat)
    requires s.Obj? && t.Obj? && Tidy(s) && Tidy(t) && Equal(s, t) && Profile(s, depth) && Profile(t, depth) && key in BOUNDS
    requires IsNumber(v) && IsNumber(w) && Equal(v, w)
    ensures BoundOk(s, key, v) == BoundOk(t, key, w)
  {
    FieldEqual(s, t, key);
    if Field(s, key).Some? {
      FieldProfile(s, key, depth);
      FieldProfile(t, key, depth);
      OrderExact(v, Field(s, key).value);
      OrderExact(w, Field(t, key).value);
      EqualNumbers(v, w);
      EqualNumbers(Field(s, key).value, Field(t, key).value);
    }
  }

  lemma {:induction false} NumberEqualOk(s: Json, t: Json, v: Json, w: Json, depth: nat)
    requires s.Obj? && t.Obj? && Tidy(s) && Tidy(t) && Equal(s, t) && Profile(s, depth) && Profile(t, depth)
    requires IsNumber(v) && IsNumber(w) && Equal(v, w)
    ensures NumberOk(s, v) == NumberOk(t, w)
  {
    hide BoundOk, Equal, Profile, Tidy;
    BoundEqual(s, t, v, w, "minimum", depth);
    BoundEqual(s, t, v, w, "maximum", depth);
    BoundEqual(s, t, v, w, "exclusiveMinimum", depth);
    BoundEqual(s, t, v, w, "exclusiveMaximum", depth);
  }

  lemma {:induction false} RequiredEqual(s: Json, t: Json, a: seq<Member>, b: seq<Member>)
    requires Tidy(s) && Tidy(t) && Equal(s, t) && Unique(a) && Unique(b) && Matched(a, b)
    ensures var p, q := Items(Field(s, "required")), Items(Field(t, "required"));
            (forall i :: 0 <= i < |p| ==> RequiredOk(p[i], a)) == (forall i :: 0 <= i < |q| ==> RequiredOk(q[i], b))
  {
    FieldEqual(s, t, "required");
    var p, q := Items(Field(s, "required")), Items(Field(t, "required"));
    assert |p| == |q|;
    forall i | 0 <= i < |p|
      ensures RequiredOk(p[i], a) == RequiredOk(q[i], b)
    {
      assert Equal(p[i], q[i]);
      if p[i].Str? {
        GetEqual(a, b, Upto(p[i].s, 0 as char));
      }
    }
  }

  lemma {:induction false} ShapeEqual(s: Json, t: Json, v: Json, w: Json, depth: nat)
    requires s.Obj? && t.Obj? && Tidy(s) && Tidy(t) && Tidy(v) && Tidy(w) && Equal(s, t) && Equal(v, w)
    requires Profile(s, depth) && Profile(t, depth)
    ensures ShapeOk(s, v) == ShapeOk(t, w)
  {
    hide CountOk, NumberOk, Field, Profile;
    match v
    case Str(x) => CountEqual(s, t, "minLength", "maxLength", Characters(x), depth);
    case Arr(items) => CountEqual(s, t, "minItems", "maxItems", |items|, depth);
    case Obj(members) =>
      CountEqual(s, t, "minProperties", "maxProperties", |members|, depth);
      RequiredEqual(s, t, members, w.members);
    case Whole(_) => NumberEqualOk(s, t, v, w, depth);
    case Fraction(_) => NumberEqualOk(s, t, v, w, depth);
    case _ =>
  }

  lemma {:induction false} LocalEqual(s: Json, t: Json, v: Json, w: Json, depth: nat)
    requires s.Obj? && t.Obj? && Tidy(s) && Tidy(t) && Tidy(v) && Tidy(w) && Equal(s, t) && Equal(v, w)
    requires Profile(s, depth) && Profile(t, depth)
    ensures Local(s, v) == Local(t, w)
  {
    hide TypeOk, ConstOk, EnumOk, ShapeOk, Tidy, Equal, Profile;
    TypeEqual(s, t, v, w);
    ConstEqual(s, t, v, w);
    EnumEqual(s, t, v, w);
    ShapeEqual(s, t, v, w, depth);
  }

  // ---- permuted members ----------------------------------------------------------------------------

  function Without(members: seq<Member>, j: nat): seq<Member>
    requires j < |members|
  {
    members[..j] + members[j + 1..]
  }

  lemma {:induction false} CostWithout(s: Json, members: seq<Member>, j: nat)
    requires j < |members|
    ensures CostMembers(s, members) == MemberCost(s, members[j]) + CostMembers(s, Without(members, j))
  {
    hide MemberCost;
    if j == 0 {
      assert Without(members, 0) == members[1..];
    } else {
      CostWithout(s, members[1..], j - 1);
      assert Without(members, j)[1..] == Without(members[1..], j - 1) && Without(members, j)[0] == members[0];
    }
  }

  /** Dropping a matched pair leaves matched members. */
  lemma {:induction false} MatchedRest(a: seq<Member>, b: seq<Member>) returns (j: nat)
    requires a != [] && Unique(a) && Unique(b) && Matched(a, b)
    ensures j < |b| && b[j].key == a[0].key && Equal(a[0].value, b[j].value)
    ensures Unique(a[1..]) && Unique(Without(b, j)) && Matched(a[1..], Without(b, j))
  {
    hide Equal;
    assert MemberEqual(a[0], b);
    j := GetAt(b, a[0].key);
    var rest := Without(b, j);
    assert forall k :: 0 <= k < |rest| ==> rest[k] == b[if k < j then k else k + 1];
    forall i | 0 <= i < |a| - 1
      ensures MemberEqual(a[1..][i], rest)
    {
      var m := a[i + 1];
      assert MemberEqual(m, b);
      var k := GetAt(b, m.key);
      assert k != j;
      assert rest[if k < j then k else k - 1] == b[k];
      GetIs(rest, if k < j then k else k - 1);
    }
  }

  ghost predicate AllTidy(members: seq<Member>) { forall i :: 0 <= i < |members| ==> Tidy(members[i].value) }

  // ---- the law ---------------------------------------------------------------------------------------

  /** Equal schemas of the profile and equal values: same satisfaction, same walk. */
  lemma {:induction false} RespectsEqual(s: Option<Json>, t: Option<Json>, v: Json, w: Json, level: nat, depth: nat)
    requires OptEqual(s, t) && OptTidy(s) && OptTidy(t) && OptProfile(s, level) && OptProfile(t, level)
    requires Tidy(v) && Tidy(w) && Equal(v, w)
    ensures Satisfies(s, v, depth) == Satisfies(t, w, depth) && Cost(s, v) == Cost(t, w)
    decreases v, 2
  {
    if s.Some? && s.value.Obj? {
      hide Equal, Tidy, Profile, Local, Satisfies, Cost;
      LocalEqual(s.value, t.value, v, w, level);
      RespectsBelow(s.value, t.value, v, w, level, depth);
    } else {
      assert s == t && (s.Some? ==> s.value.Bool?);
      hide Equal, Tidy, Profile, Local, Satisfies, Cost;
      TrivialWalk(s, v, depth);
      TrivialWalk(t, w, depth);
    }
  }

  lemma {:induction false} TrivialWalk(s: Option<Json>, v: Json, depth: nat)
    requires s.Some? ==> s.value.Bool?
    ensures Satisfies(s, v, depth) <==> depth <= MAX_LEVEL && (s.Some? ==> s.value.b)
    ensures Cost(s, v) == 1
  {
  }

  lemma {:induction false} RespectsBelow(s: Json, t: Json, v: Json, w: Json, level: nat, depth: nat)
    requires s.Obj? && t.Obj? && Equal(s, t) && Tidy(s) && Tidy(t) && Profile(s, level) && Profile(t, level)
    requires Tidy(v) && Tidy(w) && Equal(v, w) && Local(s, v) == Local(t, w)
    ensures Satisfies(Some(s), v, depth) == Satisfies(Some(t), w, depth) && Cost(Some(s), v) == Cost(Some(t), w)
    decreases v, 1
  {
    hide Equal, Tidy, Profile, Local, Satisfies, Cost, Unique, Matched, AllTidy, AllEqual;
    EqualParts(v, w);
    match v
    case Arr(items) => RespectsArray(s, t, items, w.items, level, depth);
    case Obj(members) =>
      MembersEqual(s, t, members, w.members, level, depth + 1);
      ObjectWalk(s, members, depth);
      ObjectWalk(t, w.members, depth);
    case _ =>
      LeafWalk(s, v, depth);
      LeafWalk(t, w, depth);
  }

  ghost predicate AllEqual(a: seq<Json>, b: seq<Json>) {
    |a| == |b| && forall i :: 0 <= i < |a| ==> Tidy(a[i]) && Tidy(b[i]) && Equal(a[i], b[i])
  }

  lemma {:induction false} EqualParts(v: Json, w: Json)
    requires Tidy(v) && Tidy(w) && Equal(v, w)
    ensures v.Arr? ==> w.Arr? && AllEqual(v.items, w.items)
    ensures v.Obj? ==> w.Obj? && Unique(v.members) && Unique(w.members) && Matched(v.members, w.members)
                       && AllTidy(v.members) && AllTidy(w.members)
    ensures !v.Arr? && !v.Obj? ==> !w.Arr? && !w.Obj?
  {
  }

  lemma {:induction false} RespectsArray(s: Json, t: Json, a: seq<Json>, b: seq<Json>, level: nat, depth: nat)
    requires s.Obj? && t.Obj? && Equal(s, t) && Tidy(s) && Tidy(t) && Profile(s, level) && Profile(t, level)
    requires AllEqual(a, b) && Local(s, Arr(a)) == Local(t, Arr(b))
    ensures Satisfies(Some(s), Arr(a), depth) == Satisfies(Some(t), Arr(b), depth)
    ensures Cost(Some(s), Arr(a)) == Cost(Some(t), Arr(b))
    decreases a, 1
  {
    hide Equal, Tidy, Profile, Local, Satisfies, Cost, Field;
    FieldEqual(s, t, "items");
    ItemsProfile(s, level);
    ItemsProfile(t, level);
    ItemsEqual(Field(s, "items"), Field(t, "items"), a, b, level + 1, depth + 1);
    ArrayWalk(s, a, depth);
    ArrayWalk(t, b, depth);
  }

  lemma {:induction false} LeafWalk(s: Json, v: Json, depth: nat)
    requires s.Obj? && !v.Arr? && !v.Obj?
    ensures Satisfies(Some(s), v, depth) <==> depth <= MAX_LEVEL && Local(s, v)
    ensures Cost(Some(s), v) == 1
  {
  }

  lemma {:induction false} ArrayWalk(s: Json, items: seq<Json>, depth: nat)
    requires s.Obj?
    ensures Satisfies(Some(s), Arr(items), depth) <==>
            depth <= MAX_LEVEL && Local(s, Arr(items)) && forall i :: 0 <= i < |items| ==> Satisfies(Field(s, "items"), items[i], depth + 1)
    ensures Cost(Some(s), Arr(items)) == 1 + CostItems(Field(s, "items"), items)
  {
    hide Local, Field;
  }

  lemma {:induction false} ObjectWalk(s: Json, members: seq<Member>, depth: nat)
    requires s.Obj?
    ensures Satisfies(Some(s), Obj(members), depth) <==>
            depth <= MAX_LEVEL && Local(s, Obj(members)) && forall i :: 0 <= i < |members| ==> MemberSatisfies(s, members[i], depth + 1)
    ensures Cost(Some(s), Obj(members)) == 1 + CostMembers(s, members)
  {
    hide Local, MemberSatisfies;
  }

  lemma {:induction false} ItemsEqual(s: Option<Json>, t: Option<Json>, a: seq<Json>, b: seq<Json>, level: nat, depth: nat)
    requires OptEqual(s, t) && OptTidy(s) && OptTidy(t) && OptProfile(s, level) && OptProfile(t, level)
    requires AllEqual(a, b)
    ensures CostItems(s, a) == CostItems(t, b)
    ensures (forall i :: 0 <= i < |a| ==> Satisfies(s, a[i], depth)) == (forall i :: 0 <= i < |b| ==> Satisfies(t, b[i], depth))
    decreases a, 0
  {
    hide Satisfies, Cost, Profile, Equal;
    if a != [] {
      RespectsEqual(s, t, a[0], b[0], level, depth);
      ItemsEqual(s, t, a[1..], b[1..], level, depth);
      assert a == [a[0]] + a[1..] && b == [b[0]] + b[1..];
    }
  }

  lemma {:induction false} MembersEqual(s: Json, t: Json, a: seq<Member>, b: seq<Member>, level: nat, depth: nat)
    requires s.Obj? && t.Obj? && Tidy(s) && Tidy(t) && Equal(s, t) && Profile(s, level) && Profile(t, level)
    requires Unique(a) && Unique(b) && Matched(a, b) && AllTidy(a) && AllTidy(b)
    ensures CostMembers(s, a) == CostMembers(t, b)
    ensures (forall i :: 0 <= i < |a| ==> MemberSatisfies(s, a[i], depth)) == (forall i :: 0 <= i < |b| ==> MemberSatisfies(t, b[i], depth))
    decreases a, 0
  {
    if a != [] {
      hide Satisfies, Cost, Profile, Equal, ChildSchema, Unique, Matched, MemberSatisfies, MemberCost, Tidy;
      var j := MatchedRest(a, b);
      MemberRespects(s, t, a[0], b[j], level, depth);
      TidyRest(b, j);
      assert AllTidy(a[1..]);
      MembersEqual(s, t, a[1..], Without(b, j), level, depth);
      CostWithout(t, b, j);
      assert a == [a[0]] + a[1..];
      SplitAt(t, b, j, depth);
    }
  }

  lemma {:induction false} TidyRest(b: seq<Member>, j: nat)
    requires j < |b| && AllTidy(b)
    ensures AllTidy(Without(b, j))
  {
  }

  lemma {:induction false} MemberRespects(s: Json, t: Json, m: Member, n: Member, level: nat, depth: nat)
    requires s.Obj? && t.Obj? && Tidy(s) && Tidy(t) && Equal(s, t) && Profile(s, level) && Profile(t, level)
    requires m.key == n.key && Tidy(m.value) && Tidy(n.value) && Equal(m.value, n.value)
    ensures MemberSatisfies(s, m, depth) == MemberSatisfies(t, n, depth) && MemberCost(s, m) == MemberCost(t, n)
    decreases m, 0
  {
    hide Satisfies, Cost, Profile, Equal, ChildSchema, Tidy;
    ChildEqual(s, t, m.key);
    ChildProfile(s, m.key, level);
    ChildProfile(t, m.key, level);
    RespectsEqual(ChildSchema(s, m.key), ChildSchema(t, m.key), m.value, n.value, level + 1, depth);
  }

  lemma {:induction false} SplitAt(t: Json, b: seq<Member>, j: nat, depth: nat)
    requires j < |b|
    ensures (forall i :: 0 <= i < |b| ==> MemberSatisfies(t, b[i], depth))
        <==> MemberSatisfies(t, b[j], depth) && forall i :: 0 <= i < |Without(b, j)| ==> MemberSatisfies(t, Without(b, j)[i], depth)
  {
    hide MemberSatisfies;
    var rest := Without(b, j);
    if forall i :: 0 <= i < |b| ==> MemberSatisfies(t, b[i], depth) {
      forall k | 0 <= k < |rest|
        ensures MemberSatisfies(t, rest[k], depth)
      {
        assert rest[k] == b[if k < j then k else k + 1];
      }
    } else {
      var i :| 0 <= i < |b| && !MemberSatisfies(t, b[i], depth);
      if i != j {
        assert b[i] == rest[if i < j then i else i - 1];
      }
    }
  }

  /** Validation respects equality, whatever the member order, even when the verdict
      comes from running out of the node budget. */
  lemma {:induction false} ValidationRespectsEqual(s: Option<Json>, t: Option<Json>, v: Json, w: Json)
    requires Supported(s) && Supported(t) && Tidy(s.value) && Tidy(t.value) && Equal(s.value, t.value)
    requires Tidy(v) && Tidy(w) && Equal(v, w)
    ensures Accepts(s, v) == Accepts(t, w)
  {
    SupportsExactly(s.value, 0, MAX_SCHEMA_NODES);
    SupportsExactly(t.value, 0, MAX_SCHEMA_NODES);
    RespectsEqual(s, t, v, w, 0, 0);
    ValidateExactly(s, v, 0, MAX_NODES);
    ValidateExactly(t, w, 0, MAX_NODES);
  }
}
