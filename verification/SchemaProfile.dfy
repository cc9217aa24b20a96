/** The profile of accepted schemas, keyword by keyword (src/mcp_schema_profile.c). */
module SchemaProfile {
  import opened Text
  import opened Json
  import opened Schema
  import opened SchemaLaws
  import opened SchemaRespects

  const LARGE := 9007199254740992

  predicate IsName(v: Json) { v.Str? && (0 as char) !in v.s }

  /** A list of at most 256 different texts that hold no NUL. */
  ghost predicate IsNames(v: Json) {
    && v.Arr? && |v.items| <= 256
    && (forall i :: 0 <= i < |v.items| ==> IsName(v.items[i]))
    && (forall i, j :: 0 <= i < j < |v.items| ==> v.items[i] != v.items[j])
  }

  /** A number whose exact value is within 2^53 on either side of zero. */
  ghost predicate IsBound(v: Json) {
    (exists i :: v == Whole(i) && -LARGE <= i <= LARGE)
    || (exists d :: v == Fraction(d) && -LARGE as real <= d.value <= LARGE as real)
  }

  /** Between one and 256 values, no two of them equal. */
  ghost predicate IsChoices(v: Json) {
    v.Arr? && 1 <= |v.items| <= 256 && forall i, j :: 0 <= i < |v.items| && 0 <= j < |v.items| && i != j ==> !Equal(v.items[i], v.items[j])
  }

  predicate IsCount(v: Json) { v.Whole? && 0 <= v.i <= LARGE }

  predicate IsTypeName(v: Json) {
    || v == Str("null") || v == Str("boolean") || v == Str("number") || v == Str("integer")
    || v == Str("string") || v == Str("array") || v == Str("object")
  }

  /** What a keyword that holds no schema may carry. */
  ghost predicate Carries(key: string, v: Json) {
    if key == "$schema" then v == Str("https://json-schema.org/draft/2020-12/schema")
    else if key == "type" then IsTypeName(v)
    else if key == "required" then IsNames(v)
    else if key == "minLength" || key == "maxLength" || key == "minItems" || key == "maxItems" || key == "minProperties" || key == "maxProperties"
    then IsCount(v)
    else if key == "minimum" || key == "maximum" || key == "exclusiveMinimum" || key == "exclusiveMaximum" then IsBound(v)
    else if key == "enum" then IsChoices(v)
    else if key == "title" || key == "description" || key == "$comment" then v.Str?
    else if key == "readOnly" || key == "writeOnly" || key == "deprecated" then v.Bool?
    else if key == "examples" then v.Arr?
    else key == "default" || key == "const"
  }

  // ---- the tables ---------------------------------------------------------------------------------

  lemma {:induction false} TypesAre(t: string)
    ensures t in TYPES <==> t == "null" || t == "boolean" || t == "number" || t == "integer" || t == "string" || t == "array" || t == "object"
  {
    assert TYPES[0] == "null" && TYPES[1] == "boolean" && TYPES[2] == "number" && TYPES[3] == "integer";
    assert TYPES[4] == "string" && TYPES[5] == "array" && TYPES[6] == "object";
  }

  lemma {:induction false} CountsAre(key: string)
    ensures key in COUNTS <==> key == "minLength" || key == "maxLength" || key == "minItems" || key == "maxItems"
                               || key == "minProperties" || key == "maxProperties"
  {
    assert COUNTS[0] == "minLength" && COUNTS[1] == "maxLength" && COUNTS[2] == "minItems" && COUNTS[3] == "maxItems";
    assert COUNTS[4] == "minProperties" && COUNTS[5] == "maxProperties";
  }

  lemma {:induction false} BoundsAre(key: string)
    ensures key in BOUNDS <==> key == "minimum" || key == "maximum" || key == "exclusiveMinimum" || key == "exclusiveMaximum"
  {
    assert BOUNDS[0] == "minimum" && BOUNDS[1] == "maximum" && BOUNDS[2] == "exclusiveMinimum" && BOUNDS[3] == "exclusiveMaximum";
  }

  lemma {:induction false} TextsAre(key: string)
    ensures key in TEXTS <==> key == "title" || key == "description" || key == "$comment"
    ensures key in FLAGS <==> key == "readOnly" || key == "writeOnly" || key == "deprecated"
  {
    assert TEXTS[0] == "title" && TEXTS[1] == "description" && TEXTS[2] == "$comment";
    assert FLAGS[0] == "readOnly" && FLAGS[1] == "writeOnly" && FLAGS[2] == "deprecated";
  }

  // ---- values ---------------------------------------------------------------------------------------

  lemma {:induction false} ContainsIs(t: string, c: char)
    ensures Contains(t, c) <==> c in t
  {
    if c in t {
      var i :| 0 <= i < |t| && t[i] == c;
    }
  }

  lemma {:induction false} NamesExactly(v: Json)
    ensures Strings(v) <==> IsNames(v)
  {
    if v.Arr? {
      forall i | 0 <= i < |v.items|
        ensures v.items[i].Str? && !Contains(v.items[i].s, 0 as char) <==> IsName(v.items[i])
      {
        if v.items[i].Str? {
          ContainsIs(v.items[i].s, 0 as char);
        }
      }
    }
  }

  lemma {:induction false} CountExactly(v: Json)
    ensures CountValue(v) <==> IsCount(v)
  {
  }

  lemma {:induction false} BoundExactly(v: Json)
    ensures BoundValue(v) <==> IsBound(v)
  {
    if v.Whole? && Exact(v.i) {
      assert AsDouble(v.i) == v.i;
    }
  }

  lemma {:induction false} ChoicesExactly(v: Json)
    requires Tidy(v)
    ensures EnumValue(v) <==> IsChoices(v)
  {
    hide Equal;
    if v.Arr? {
      forall i, j | 0 <= i < |v.items| && 0 <= j < |v.items| && Equal(v.items[i], v.items[j])
        ensures Equal(v.items[j], v.items[i])
      {
        EqualSymmetric(v.items[i], v.items[j]);
      }
    }
  }

  lemma {:induction false} TextExactly(schema: Json, key: string, v: Json, t: string)
    requires Field(schema, key) == Some(v)
    ensures TextField(schema, key) == Some(t) <==> v == Str(t) && !Contains(t, 0 as char)
  {
  }

  lemma {:induction false} DialectExactly(schema: Json, v: Json)
    requires Field(schema, "$schema") == Some(v)
    ensures TextField(schema, "$schema") == Some(DIALECT) <==> v == Str("https://json-schema.org/draft/2020-12/schema")
  {
    TextExactly(schema, "$schema", v, DIALECT);
    DialectText();
  }

  lemma {:induction false} DialectText()
    ensures !Contains(DIALECT, 0 as char)
  {
    ContainsIs(DIALECT, 0 as char);
    assert (0 as char) !in DIALECT;
  }

  lemma {:induction false} TypeExactly(schema: Json, v: Json)
    requires Field(schema, "type") == Some(v)
    ensures TextField(schema, "type").Some? && TextField(schema, "type").value in TYPES <==> IsTypeName(v)
  {
    if v.Str? {
      TypesAre(v.s);
    }
  }

  lemma {:induction false} PlainExactly(schema: Json, m: Member)
    requires Field(schema, m.key) == Some(m.value) && Tidy(m.value) && m.key != "properties" && !IsSub(m.key)
    ensures PlainOk(schema, m) <==> Carries(m.key, m.value)
  {
    hide Strings, CountValue, BoundValue, EnumValue, IsNames, IsBound, IsChoices, IsCount, IsTypeName, TextField, Field, Contains, Tidy;
    CountsAre(m.key);
    BoundsAre(m.key);
    TextsAre(m.key);
    if m.key == "$schema" {
      DialectExactly(schema, m.value);
    } else if m.key == "type" {
      TypeExactly(schema, m.value);
    } else {
      NamesExactly(m.value);
      CountExactly(m.value);
      BoundExactly(m.value);
      ChoicesExactly(m.value);
      hide TYPES, DIALECT, IsSub;
    }
  }

  // ---- whole schemas ------------------------------------------------------------------------------------

  /** A schema of the profile that stands inside level others: true, false, or an object of
      known keywords, in any order. */
  ghost predicate InProfile(schema: Json, level: nat)
    decreases schema
  {
    level <= 32 &&
    match schema
    case Bool(_) => true
    case Obj(members) => forall i :: 0 <= i < |members| ==> KeywordOk(members[i], level)
    case _ => false
  }

  ghost predicate KeywordOk(m: Member, level: nat)
    decreases m
  {
    if m.key == "properties" then
      m.value.Obj? && |m.value.members| <= 256 && forall i :: 0 <= i < |m.value.members| ==> InProfile(m.value.members[i].value, level + 1)
    else if m.key == "items" || m.key == "additionalProperties" then InProfile(m.value, level + 1)
    else Carries(m.key, m.value)
  }

  lemma {:induction false} ProfileExactly(schema: Json, level: nat)
    requires Tidy(schema)
    ensures Profile(schema, level) <==> InProfile(schema, level)
    decreases schema
  {
    hide PlainOk, Carries;
    if schema.Obj? {
      forall i | 0 <= i < |schema.members|
        ensures ProfileMember(schema, schema.members[i], level) <==> KeywordOk(schema.members[i], level)
      {
        GetIs(schema.members, i);
        KeywordExactly(schema, schema.members[i], level);
      }
    }
  }

  lemma {:induction false} KeywordExactly(schema: Json, m: Member, level: nat)
    requires Field(schema, m.key) == Some(m.value) && Tidy(m.value)
    ensures ProfileMember(schema, m, level) <==> KeywordOk(m, level)
    decreases m
  {
    hide PlainOk, Carries;
    if m.key == "properties" {
      if m.value.Obj? {
        forall i | 0 <= i < |m.value.members|
          ensures Profile(m.value.members[i].value, level + 1) <==> InProfile(m.value.members[i].value, level + 1)
        {
          ProfileExactly(m.value.members[i].value, level + 1);
        }
      }
    } else if IsSub(m.key) {
      ProfileExactly(m.value, level + 1);
    } else {
      PlainExactly(schema, m);
    }
  }

  /** A schema is supported exactly when it is in the profile and made of at most 1024 schemas. */
  lemma {:induction false} SupportedExactly(schema: Json)
    requires Tidy(schema)
    ensures Supported(Some(schema)) <==> InProfile(schema, 0) && SchemaNodes(schema) <= 1024
  {
    SupportsExactly(schema, 0, MAX_SCHEMA_NODES);
    ProfileExactly(schema, 0);
    hide Profile, InProfile, Supports, SchemaNodes;
  }
}
