/** What the keywords of the profile mean, said without the validator's own checks, and that
    the validator decides exactly that. JSON Schema draft 2020-12, as far as the profile goes. */
module SchemaMeaning {
  import opened Text
  import opened Json
  import opened Utf8
  import opened Schema
  import opened SchemaLaws
  import opened SchemaRespects

  // ---- reading a keyword -----------------------------------------------------------------------

  /** The object has a member with that key and value. */
  ghost predicate IsMember(v: Json, key: string, w: Json) {
    v.Obj? && exists i :: 0 <= i < |v.members| && v.members[i] == Member(key, w)
  }

  /** Reading a keyword finds its one member, wherever it stands. */
  lemma {:induction false} FieldExactly(v: Json, key: string, w: Json)
    requires Tidy(v)
    ensures Field(v, key) == Some(w) <==> IsMember(v, key, w)
  {
    if v.Obj? {
      if Field(v, key) == Some(w) {
        var i := GetAt(v.members, key);
        assert v.members[i] == Member(key, w);
      }
      if i :| 0 <= i < |v.members| && v.members[i] == Member(key, w) {
        GetIs(v.members, i);
      }
    }
  }

  lemma {:induction false} FieldAbsent(v: Json, key: string)
    ensures Field(v, key).None? <==> !v.Obj? || forall i :: 0 <= i < |v.members| ==> v.members[i].key != key
  {
    if v.Obj? {
      GetMissing(v.members, key);
    }
  }

  // ---- equality ----------------------------------------------------------------------------------

  /** Equal numbers are the same exact number; an integer beyond 2^53 equals no double. */
  lemma {:induction false} NumbersEqual(a: Json, b: Json)
    requires IsNumber(a) && IsNumber(b)
    ensures Equal(a, b) <==>
              && Exactly(a) == Exactly(b)
              && (a.Whole? && b.Fraction? ==> -9007199254740992 <= a.i <= 9007199254740992)
              && (a.Fraction? && b.Whole? ==> -9007199254740992 <= b.i <= 9007199254740992)
  {
  }

  /** Equal objects have the same keys with equal values, in any order. */
  lemma {:induction false} ObjectsEqual(a: Json, b: Json)
    requires a.Obj? && b.Obj? && Tidy(a) && Tidy(b)
    ensures Equal(a, b) <==>
              |a.members| == |b.members| && forall i :: 0 <= i < |a.members| ==> HasEqual(b, a.members[i].key, a.members[i].value)
  {
    hide Equal;
    forall i | 0 <= i < |a.members|
      ensures MemberEqual(a.members[i], b.members) <==> HasEqual(b, a.members[i].key, a.members[i].value)
    {
      MemberEqualExactly(a.members[i], b);
    }
    EqualMembers(a, b);
  }

  /** The object has that key with an equal value. */
  ghost predicate HasEqual(b: Json, key: string, v: Json)
    requires b.Obj?
  {
    exists j :: 0 <= j < |b.members| && b.members[j].key == key && Equal(v, b.members[j].value)
  }

  lemma {:induction false} EqualMembers(a: Json, b: Json)
    requires a.Obj? && b.Obj?
    ensures Equal(a, b) <==> |a.members| == |b.members| && forall i :: 0 <= i < |a.members| ==> MemberEqual(a.members[i], b.members)
  {
    hide MemberEqual;
  }

  lemma {:induction false} MemberEqualExactly(m: Member, b: Json)
    requires b.Obj? && Tidy(b)
    ensures MemberEqual(m, b.members) <==> HasEqual(b, m.key, m.value)
  {
    hide Equal;
    if Get(b.members, m.key).Some? {
      var j := GetAt(b.members, m.key);
      forall k | 0 <= k < |b.members| && b.members[k].key == m.key
        ensures k == j
      {
      }
    } else {
      GetMissing(b.members, m.key);
    }
  }

  // ---- keywords ---------------------------------------------------------------------------------

  /** The value is of the named type; an integer is a number without a fractional part. */
  ghost predicate HasType(v: Json, name: string) {
    match v
    case Null => name == "null"
    case Bool(_) => name == "boolean"
    case Whole(_) => name == "number" || name == "integer"
    case Fraction(_) => name == "number" || (name == "integer" && Exactly(v) == Exactly(v).Floor as real)
    case Str(_) => name == "string"
    case Arr(_) => name == "array"
    case Obj(_) => name == "object"
  }

  /** The exact number keeps every bound that the schema gives. */
  ghost predicate InBounds(s: Json, v: Json)
    requires IsNumber(v)
  {
    forall bound :: IsNumber(bound) ==>
      && (Field(s, "minimum") == Some(bound) ==> Exactly(v) >= Exactly(bound))
      && (Field(s, "maximum") == Some(bound) ==> Exactly(v) <= Exactly(bound))
      && (Field(s, "exclusiveMinimum") == Some(bound) ==> Exactly(v) > Exactly(bound))
      && (Field(s, "exclusiveMaximum") == Some(bound) ==> Exactly(v) < Exactly(bound))
  }

  /** At least min and at most max, where the schema gives them. */
  ghost predicate Counted(s: Json, min: string, max: string, n: nat) {
    forall k :: (Field(s, min) == Some(Whole(k)) ==> k <= n) && (Field(s, max) == Some(Whole(k)) ==> n <= k)
  }

  ghost predicate HasKey(v: Json, key: string) {
    v.Obj? && exists i :: 0 <= i < |v.members| && v.members[i].key == key
  }

  /** The value equals one of the listed ones. */
  ghost predicate IsListed(s: Json, v: Json) {
    match Field(s, "enum")
    case Some(Arr(choices)) => exists i :: 0 <= i < |choices| && Equal(choices[i], v)
    case _ => true
  }

  /** Every required name is a key. */
  ghost predicate HasRequired(s: Json, v: Json) {
    match Field(s, "required")
    case Some(Arr(names)) => forall i :: 0 <= i < |names| ==> names[i].Str? && HasKey(v, names[i].s)
    case _ => true
  }

  /** A value that fits into memory, its text well-formed. */
  ghost predicate Readable(v: Json) {
    match v
    case Str(s) => Valid(s) && |s| < TWO64
    case Arr(items) => |items| < TWO64
    case Obj(members) => |members| < TWO64
    case _ => true
  }

  /** The value meets every keyword of the schema that speaks of it alone. */
  ghost predicate Meets(s: Json, v: Json)
    requires Readable(v)
  {
    && (forall name :: Field(s, "type") == Some(Json.Str(name)) ==> HasType(v, name))
    && (forall w :: Field(s, "const") == Some(w) ==> Equal(w, v))
    && IsListed(s, v)
    && match v
       case Whole(_) => InBounds(s, v)
       case Fraction(_) => InBounds(s, v)
       case Str(t) => Counted(s, "minLength", "maxLength", |DecodeAll(t)|)
       case Arr(items) => Counted(s, "minItems", "maxItems", |items|)
       case Obj(members) =>
         && Counted(s, "minProperties", "maxProperties", |members|)
         && HasRequired(s, v)
       case _ => true
  }

  // ---- keyword by keyword --------------------------------------------------------------------------

  lemma {:induction false} PlainField(s: Json, key: string, depth: nat)
    requires s.Obj? && Profile(s, depth) && key != "properties" && !IsSub(key) && Field(s, key).Some?
    ensures PlainOk(s, Member(key, Field(s, key).value))
  {
    FieldProfile(s, key, depth);
  }

  lemma {:induction false} TypeMeets(s: Json, v: Json, depth: nat)
    requires s.Obj? && Profile(s, depth)
    ensures TypeOk(s, v) <==> forall name :: Field(s, "type") == Some(Json.Str(name)) ==> HasType(v, name)
  {
    hide Profile, Field;
    if Field(s, "type").Some? {
      PlainField(s, "type", depth);
      TypeNamed(v, TextField(s, "type").value);
    }
  }

  lemma {:induction false} TypeNamed(v: Json, name: string)
    requires name in TYPES
    ensures (name != TypeName(v) ==> name == "integer" && Integral(v)) <==> HasType(v, name)
  {
    TypesAre(name);
    if v.Whole? {
      assert (AsDouble(v.i) as real).Floor == AsDouble(v.i);
    }
  }

  lemma {:induction false} TypesAre(name: string)
    requires name in TYPES
    ensures name == "null" || name == "boolean" || name == "number" || name == "integer" || name == "string" || name == "array" || name == "object"
  {
  }

  lemma {:induction false} ConstMeets(s: Json, v: Json)
    ensures ConstOk(s, v) <==> forall w :: Field(s, "const") == Some(w) ==> Equal(w, v)
  {
    hide Equal, Field;
  }

  lemma {:induction false} ListField(s: Json, depth: nat)
    requires s.Obj? && Profile(s, depth)
    ensures Field(s, "enum").Some? ==> Field(s, "enum").value.Arr?
    ensures Field(s, "required").Some? ==> Strings(Field(s, "required").value)
  {
    hide Profile, Field, Equal;
    if Field(s, "enum").Some? {
      PlainField(s, "enum", depth);
    }
    if Field(s, "required").Some? {
      PlainField(s, "required", depth);
    }
  }

  lemma {:induction false} EnumMeets(s: Json, v: Json, depth: nat)
    requires s.Obj? && Profile(s, depth)
    ensures EnumOk(s, v) <==> IsListed(s, v)
  {
    ListField(s, depth);
    hide Equal, Profile, Field;
    var choices := Field(s, "enum");
    if choices.Some? {
      assert Items(choices) == choices.value.items;
      assert EnumOk(s, v) <==> exists i :: 0 <= i < |choices.value.items| && Equal(choices.value.items[i], v);
    }
  }

  lemma {:induction false} BoundField(s: Json, key: string, depth: nat)
    requires s.Obj? && Profile(s, depth) && Field(s, key).Some?
    requires key == "minimum" || key == "maximum" || key == "exclusiveMinimum" || key == "exclusiveMaximum"
    ensures BoundValue(Field(s, key).value)
  {
    PlainField(s, key, depth);
    assert BOUNDS[0] == "minimum" && BOUNDS[1] == "maximum" && BOUNDS[2] == "exclusiveMinimum" && BOUNDS[3] == "exclusiveMaximum";
  }

  lemma {:induction false} BoundsMeet(s: Json, v: Json, depth: nat)
    requires s.Obj? && Profile(s, depth) && IsNumber(v)
    ensures NumberOk(s, v) <==> InBounds(s, v)
  {
    BoundMeets(s, "minimum", v, depth);
    BoundMeets(s, "maximum", v, depth);
    BoundMeets(s, "exclusiveMinimum", v, depth);
    BoundMeets(s, "exclusiveMaximum", v, depth);
    hide BoundOk, Field, Profile, Exactly;
  }

  lemma {:induction false} BoundMeets(s: Json, key: string, v: Json, depth: nat)
    requires s.Obj? && Profile(s, depth) && IsNumber(v)
    requires key == "minimum" || key == "maximum" || key == "exclusiveMinimum" || key == "exclusiveMaximum"
    ensures Field(s, key).Some? ==> IsNumber(Field(s, key).value)
    ensures BoundOk(s, key, v) <==> (Field(s, key).Some? ==>
              var x, y := Exactly(v), Exactly(Field(s, key).value);
              if key == "minimum" then x >= y else if key == "maximum" then x <= y else if key == "exclusiveMinimum" then x > y else x < y)
  {
    hide Profile, Field;
    if Field(s, key).Some? {
      BoundField(s, key, depth);
      OrderExact(v, Field(s, key).value);
    }
  }

  lemma {:induction false} CountsMeet(s: Json, min: string, max: string, n: nat, depth: nat)
    requires s.Obj? && Profile(s, depth) && min in COUNTS && max in COUNTS && n < TWO64
    ensures CountOk(s, min, max, n) <==> Counted(s, min, max, n)
  {
    CountMeans(s, min, depth);
    CountMeans(s, max, depth);
    hide Profile, Field;
    if Field(s, min).Some? {
      assert Field(s, min) == Some(Whole(Field(s, min).value.i));
    }
    if Field(s, max).Some? {
      assert Field(s, max) == Some(Whole(Field(s, max).value.i));
    }
  }

  lemma {:induction false} CountMeans(s: Json, key: string, depth: nat)
    requires s.Obj? && Profile(s, depth) && key in COUNTS
    ensures Field(s, key).Some? ==> CountValue(Field(s, key).value) && AsUnsigned(IntValue(Field(s, key).value)) == Field(s, key).value.i
  {
    if Field(s, key).Some? {
      CountsAre(key);
      PlainField(s, key, depth);
    }
  }

  lemma {:induction false} CountsAre(key: string)
    requires key in COUNTS
    ensures key != "properties" && !IsSub(key) && key != "$schema" && key != "type" && key != "required"
  {
  }

  /** The bytes counted are one for each scalar. */
  lemma {:induction false} CharactersCount(s: string)
    requires Valid(s)
    ensures Characters(s) == |DecodeAll(s)|
    decreases |s|
  {
    if s != "" {
      var n := SeqLen(s);
      CharactersCount(s[n..]);
      CharactersConcat(s[..n], s[n..]);
      assert s == s[..n] + s[n..];
      OneCharacter(s);
    }
  }

  lemma {:induction false} CharactersConcat(a: string, b: string)
    ensures Characters(a + b) == Characters(a) + Characters(b)
  {
    if b == "" {
      assert a + b == a;
    } else {
      var m := |b| - 1;
      CharactersConcat(a, b[..m]);
      assert (a + b)[..|a + b| - 1] == a + b[..m];
    }
  }

  lemma {:induction false} OneCharacter(s: string)
    requires SeqLen(s) > 0
    ensures Characters(s[..SeqLen(s)]) == 1
  {
    var n := SeqLen(s);
    var t := s[..n];
    assert t[0] == s[0] && forall i :: 0 <= i < n ==> t[i] == s[i];
    assert Characters(t[..0]) == 0;
    assert t[..1][..0] == t[..0] && Characters(t[..1]) == 1;
    if n > 1 {
      assert t[..2][..1] == t[..1] && Characters(t[..2]) == 1;
    }
    if n > 2 {
      assert t[..3][..2] == t[..2] && Characters(t[..3]) == 1;
    }
    if n > 3 {
      assert t[..4][..3] == t[..3] && Characters(t[..4]) == 1;
    }
    assert t[..n] == t;
  }

  lemma {:induction false} RequiredMeets(s: Json, v: Json, depth: nat)
    requires s.Obj? && Profile(s, depth) && v.Obj?
    ensures (forall i :: 0 <= i < |Items(Field(s, "required"))| ==> RequiredOk(Items(Field(s, "required"))[i], v.members)) <==>
              HasRequired(s, v)
  {
    ListField(s, depth);
    hide Profile, Field, HasKey, RequiredOk;
    if Field(s, "required").Some? {
      var names := Field(s, "required").value.items;
      assert Items(Field(s, "required")) == names;
      forall i | 0 <= i < |names|
        ensures RequiredOk(names[i], v.members) <==> names[i].Str? && HasKey(v, names[i].s)
      {
        NameMeets(names[i], v);
      }
      assert HasRequired(s, v) <==> forall i :: 0 <= i < |names| ==> names[i].Str? && HasKey(v, names[i].s);
    }
  }

  lemma {:induction false} NameMeets(name: Json, v: Json)
    requires name.Str? && !Contains(name.s, 0 as char) && v.Obj?
    ensures RequiredOk(name, v.members) <==> HasKey(v, name.s)
  {
    UptoWhole(name.s);
    GetMissing(v.members, name.s);
  }

  lemma {:induction false} UptoWhole(s: string)
    requires !Contains(s, 0 as char)
    ensures Upto(s, 0 as char) == s
  {
    if s != "" {
      assert forall i :: 0 <= i < |s| - 1 ==> s[1..][i] == s[i + 1];
      UptoWhole(s[1..]);
    }
  }

  lemma {:induction false} CountKeys()
    ensures "minLength" in COUNTS && "maxLength" in COUNTS && "minItems" in COUNTS && "maxItems" in COUNTS
    ensures "minProperties" in COUNTS && "maxProperties" in COUNTS
  {
    assert COUNTS[0] == "minLength" && COUNTS[1] == "maxLength" && COUNTS[2] == "minItems";
    assert COUNTS[3] == "maxItems" && COUNTS[4] == "minProperties" && COUNTS[5] == "maxProperties";
  }

  lemma {:induction false} ShapeMeets(s: Json, v: Json, depth: nat)
    requires s.Obj? && Profile(s, depth) && Readable(v)
    ensures ShapeOk(s, v) <==>
              match v
              case Whole(_) => InBounds(s, v)
              case Fraction(_) => InBounds(s, v)
              case Str(t) => Counted(s, "minLength", "maxLength", |DecodeAll(t)|)
              case Arr(items) => Counted(s, "minItems", "maxItems", |items|)
              case Obj(members) =>
                && Counted(s, "minProperties", "maxProperties", |members|)
                && HasRequired(s, v)
              case _ => true
  {
    CountKeys();
    hide CountOk, NumberOk, Field, Profile, Counted, InBounds, RequiredOk, HasRequired, Valid;
    match v
    case Whole(_) => BoundsMeet(s, v, depth);
    case Fraction(_) => BoundsMeet(s, v, depth);
    case Str(t) =>
      CharactersCount(t);
      CountsMeet(s, "minLength", "maxLength", |DecodeAll(t)|, depth);
    case Arr(items) => CountsMeet(s, "minItems", "maxItems", |items|, depth);
    case Obj(members) =>
      CountsMeet(s, "minProperties", "maxProperties", |members|, depth);
      RequiredMeets(s, v, depth);
    case _ =>
  }

  /** The checks on one value are exactly the meanings of the keywords. */
  lemma {:induction false} LocalMeets(s: Json, v: Json, depth: nat)
    requires s.Obj? && Profile(s, depth) && Readable(v)
    ensures Local(s, v) <==> Meets(s, v)
  {
    hide TypeOk, ConstOk, EnumOk, ShapeOk, HasType, IsListed, Equal, Field, Profile, Counted, InBounds, HasRequired, Valid;
    TypeMeets(s, v, depth);
    ConstMeets(s, v);
    EnumMeets(s, v, depth);
    ShapeMeets(s, v, depth);
  }

  // ---- the whole value --------------------------------------------------------------------------------

  /** The schema of the member key of an object: that of the property, else the additional one. */
  function MemberSchema(s: Json, key: string): Option<Json> {
    match Field(s, "properties")
    case Some(properties) => (match Field(properties, key) case Some(sub) => Some(sub) case None => Field(s, "additionalProperties"))
    case None => Field(s, "additionalProperties")
  }

  /** Every string and every list fits, and is well-formed, at every depth. */
  ghost predicate AllReadable(v: Json)
    decreases v
  {
    Readable(v)
    && match v
       case Arr(items) => forall i :: 0 <= i < |items| ==> AllReadable(items[i])
       case Obj(members) => forall i :: 0 <= i < |members| ==> AllReadable(members[i].value)
       case _ => true
  }

  /** The value and all below it meet their schemas, down to nesting level 64; a place without
      a schema admits anything. */
  ghost predicate MeetsAll(schema: Option<Json>, v: Json, depth: nat)
    requires AllReadable(v)
    decreases v
  {
    depth <= MAX_LEVEL
    && match schema
       case None => true
       case Some(Bool(b)) => b
       case Some(s) =>
         Meets(s, v)
         && match v
            case Arr(items) => forall i :: 0 <= i < |items| ==> MeetsAll(Field(s, "items"), items[i], depth + 1)
            case Obj(members) =>
              forall i :: 0 <= i < |members| ==> MeetsAll(MemberSchema(s, members[i].key), members[i].value, depth + 1)
            case _ => true
  }

  lemma {:induction false} SatisfiesMeets(schema: Option<Json>, v: Json, level: nat, depth: nat)
    requires OptProfile(schema, level) && AllReadable(v)
    ensures Satisfies(schema, v, depth) <==> MeetsAll(schema, v, depth)
    decreases v
  {
    hide Local, Meets, Profile, Field, Readable;
    if schema.Some? && schema.value.Obj? {
      var s := schema.value;
      LocalMeets(s, v, level);
      match v
      case Arr(items) =>
        ItemsProfile(s, level);
        forall i | 0 <= i < |items|
          ensures Satisfies(Field(s, "items"), items[i], depth + 1) <==> MeetsAll(Field(s, "items"), items[i], depth + 1)
        {
          SatisfiesMeets(Field(s, "items"), items[i], level + 1, depth + 1);
        }
      case Obj(members) =>
        forall i | 0 <= i < |members|
          ensures MemberSatisfies(s, members[i], depth + 1) <==> MeetsAll(MemberSchema(s, members[i].key), members[i].value, depth + 1)
        {
          ChildProfile(s, members[i].key, level);
          ChildIs(s, members[i].key);
          SatisfiesMeets(ChildSchema(s, members[i].key), members[i].value, level + 1, depth + 1);
        }
      case _ =>
    } else {
      NotObject(schema, level);
    }
  }

  lemma {:induction false} ChildIs(s: Json, key: string)
    ensures ChildSchema(s, key) == MemberSchema(s, key)
  {
  }

  lemma {:induction false} NotObject(schema: Option<Json>, level: nat)
    requires OptProfile(schema, level) && !(schema.Some? && schema.value.Obj?)
    ensures schema.None? || schema.value.Bool?
  {
  }

  /** The values in a value, itself included. */
  ghost function Nodes(v: Json): nat
    decreases v
  {
    match v
    case Arr(items) => 1 + NodesOfItems(items)
    case Obj(members) => 1 + NodesOfMembers(members)
    case _ => 1
  }

  ghost function NodesOfItems(items: seq<Json>): nat
    decreases items
  {
    if items == [] then 0 else Nodes(items[0]) + NodesOfItems(items[1..])
  }

  ghost function NodesOfMembers(members: seq<Member>): nat
    decreases members
  {
    if members == [] then 0 else Nodes(members[0].value) + NodesOfMembers(members[1..])
  }

  /** No validation visits a value twice. */
  lemma {:induction false} CostWithin(schema: Option<Json>, v: Json)
    ensures 1 <= Cost(schema, v) <= Nodes(v)
    decreases v, 1
  {
    match v
    case Arr(items) =>
      if schema.Some? {
        ItemsWithin(Field(schema.value, "items"), items);
      }
    case Obj(members) =>
      if schema.Some? {
        MembersWithin(schema.value, members);
      }
    case _ =>
  }

  lemma {:induction false} ItemsWithin(sub: Option<Json>, items: seq<Json>)
    ensures CostItems(sub, items) <= NodesOfItems(items)
    decreases items, 0
  {
    if items != [] {
      CostWithin(sub, items[0]);
      ItemsWithin(sub, items[1..]);
    }
  }

  lemma {:induction false} MembersWithin(s: Json, members: seq<Member>)
    ensures CostMembers(s, members) <= NodesOfMembers(members)
    decreases members, 0
  {
    if members != [] {
      CostWithin(ChildSchema(s, members[0].key), members[0].value);
      MembersWithin(s, members[1..]);
    }
  }

  /** A supported schema accepts a value exactly when the value meets it at every depth, and
      the visited values are at most 32768: always when there are no more in the value. */
  lemma {:induction false} AcceptsExactly(schema: Option<Json>, v: Json)
    requires Supported(schema) && AllReadable(v)
    ensures Accepts(schema, v) <==> MeetsAll(schema, v, 0) && Cost(schema, v) <= 32768
    ensures Nodes(v) <= 32768 ==> (Accepts(schema, v) <==> MeetsAll(schema, v, 0))
  {
    SupportsExactly(schema.value, 0, MAX_SCHEMA_NODES);
    hide Validate, Satisfies, MeetsAll, Cost, Nodes, Profile;
    ValidateExactly(schema, v, 0, MAX_NODES);
    SatisfiesMeets(schema, v, 0, 0);
    CostWithin(schema, v);
  }
}
