/** JSON Schema contracts: structural equality (src/mcp_contract.c), the accepted
    profile (src/mcp_schema_profile.c) and the validator with its node budget
    (src/mcp_schema_validate.c). */
module Schema {
  import opened Text
  import opened Json

  const EXACT := 0x20_0000_0000_0000

  // ---- numbers --------------------------------------------------------------------------

  /** Nearest multiple of unit, ties to the even quotient. */
  function Nearest(n: nat, unit: nat): nat
    requires unit > 0
  {
    var q, r := n / unit, n % unit;
    unit * if 2 * r > unit || (2 * r == unit && q % 2 == 1) then q + 1 else q
  }

  /** Spacing of binary64 numbers around n. */
  function Spacing(n: nat, unit: nat): (u: nat)
    requires unit > 0
    ensures u > 0 && (n <= EXACT * unit ==> u == unit)
    decreases n - EXACT * unit
  {
    if n <= EXACT * unit then unit else Spacing(n, 2 * unit)
  }

  /** (double)i */
  function AsDouble(i: int): (d: int)
    ensures -EXACT <= i <= EXACT ==> d == i
  {
    var n := if i < 0 then -i else i;
    var m := Nearest(n, Spacing(n, 1));
    if i < 0 then 0 - m else m
  }

  /** jx_double_value */
  function DoubleValue(v: Json): real {
    match v
    case Whole(i) => AsDouble(i) as real
    case Fraction(d) => d.value
    case _ => 0.0
  }

  predicate Exact(i: int) { -EXACT <= i <= EXACT }

  predicate IsNumber(v: Json) { v.Whole? || v.Fraction? }

  predicate NumberEqual(a: Json, b: Json)
    requires IsNumber(a) && IsNumber(b)
  {
    if a.Whole? && b.Whole? then a.i == b.i
    else if a.Whole? && !Exact(a.i) then false
    else if b.Whole? && !Exact(b.i) then false
    else DoubleValue(a) == DoubleValue(b)
  }

  // ---- structural equality ------------------------------------------------------------------

  /** astools_mcp_schema_equal on present values. */
  predicate Equal(a: Json, b: Json)
    decreases a
  {
    match a
    case Null => b.Null?
    case Bool(x) => b.Bool? && x == b.b
    case Whole(_) => IsNumber(b) && NumberEqual(a, b)
    case Fraction(_) => IsNumber(b) && NumberEqual(a, b)
    case Str(s) => b.Str? && s == b.s
    case Arr(items) =>
      b.Arr? && |items| == |b.items| && forall i :: 0 <= i < |items| ==> Equal(items[i], b.items[i])
    case Obj(members) =>
      b.Obj? && |members| == |b.members| && forall i :: 0 <= i < |members| ==> MemberEqual(members[i], b.members)
  }

  predicate MemberEqual(m: Member, others: seq<Member>)
    decreases m
  {
    match Get(others, m.key)
    case None => false
    case Some(w) => Equal(m.value, w)
  }

  predicate OptEqual(a: Option<Json>, b: Option<Json>) {
    match (a, b)
    case (None, None) => true
    case (Some(x), Some(y)) => Equal(x, y)
    case _ => false
  }

  /** The loops of the comparison, run as written. */
  method CheckEqual(a: Json, b: Json) returns (r: bool)
    ensures r == Equal(a, b)
    decreases a
  {
    match a
    case Null => return b.Null?;
    case Bool(x) => return b.Bool? && x == b.b;
    case Whole(_) => return IsNumber(b) && NumberEqual(a, b);
    case Fraction(_) => return IsNumber(b) && NumberEqual(a, b);
    case Str(s) => return b.Str? && s == b.s;
    case Arr(items) =>
      if !b.Arr? || |items| != |b.items| {
        return false;
      }
      for i := 0 to |items|
        invariant forall k :: 0 <= k < i ==> Equal(items[k], b.items[k])
      {
        var same := CheckEqual(items[i], b.items[i]);
        if !same {
          return false;
        }
      }
      return true;
    case Obj(members) =>
      if !b.Obj? || |members| != |b.members| {
        return false;
      }
      for i := 0 to |members|
        invariant forall k :: 0 <= k < i ==> MemberEqual(members[k], b.members)
      {
        var other := Get(b.members, members[i].key);
        if other.None? {
          return false;
        }
        var same := CheckEqual(members[i].value, other.value);
        if !same {
          return false;
        }
      }
      return true;
  }

  // ---- reading a schema -----------------------------------------------------------------------

  function Members(v: Json): seq<Member> { if v.Obj? then v.members else [] }

  function Field(v: Json, key: string): Option<Json> { Get(Members(v), key) }

  function Items(v: Option<Json>): seq<Json> { if v.Some? && v.value.Arr? then v.value.items else [] }

  /** astools_rpc_string: a string member without NUL. */
  function TextField(v: Json, key: string): Option<string> {
    match Field(v, key)
    case Some(Str(s)) => if Contains(s, 0 as char) then None else Some(s)
    case _ => None
  }

  function TypeName(v: Json): string {
    match v
    case Null => "null"
    case Bool(_) => "boolean"
    case Whole(_) => "number"
    case Fraction(_) => "number"
    case Str(_) => "string"
    case Arr(_) => "array"
    case Obj(_) => "object"
  }

  predicate Integral(v: Json) { IsNumber(v) && DoubleValue(v).Floor as real == DoubleValue(v) }

  predicate TypeOk(schema: Json, v: Json) {
    var t := TextField(schema, "type");
    t.Some? && t.value != TypeName(v) ==> t.value == "integer" && Integral(v)
  }

  predicate ConstOk(schema: Json, v: Json) {
    var fixed := Field(schema, "const");
    fixed.Some? ==> Equal(fixed.value, v)
  }

  predicate EnumOk(schema: Json, v: Json) {
    var choices := Field(schema, "enum");
    choices.Some? ==> exists i :: 0 <= i < |Items(choices)| && Equal(Items(choices)[i], v)
  }

  // ---- the local checks -----------------------------------------------------------------------

  /** C's conversion of a double to an integer: towards zero. */
  function Truncate(r: real): int { if r < 0.0 then -((-r).Floor) else r.Floor }

  /** jx_int_value */
  function IntValue(v: Json): int {
    match v
    case Whole(i) => i
    case Fraction(d) => Truncate(d.value)
    case _ => 0
  }

  const TWO64 := 0x1_0000_0000_0000_0000

  /** (uint64_t)i */
  function AsUnsigned(i: int): nat { i % TWO64 }

  predicate CountOk(schema: Json, min: string, max: string, n: nat) {
    var lo, hi := Field(schema, min), Field(schema, max);
    && (lo.Some? ==> AsUnsigned(n) >= AsUnsigned(IntValue(lo.value)))
    && (hi.Some? ==> AsUnsigned(n) <= AsUnsigned(IntValue(hi.value)))
  }

  function Sign(a: real, b: real): int { if a > b then 1 else if a < b then -1 else 0 }

  function SignInt(a: int, b: int): int { if a > b then 1 else if a < b then -1 else 0 }

  /** How number_ok orders a value against a bound. */
  function Order(v: Json, bound: Json): int
    requires IsNumber(v)
  {
    if v.Whole? && bound.Whole? then SignInt(v.i, bound.i)
    else if v.Whole? && v.i > EXACT then 1
    else if v.Whole? && v.i < -EXACT then -1
    else Sign(DoubleValue(v), DoubleValue(bound))
  }

  predicate BoundOk(schema: Json, key: string, v: Json)
    requires IsNumber(v)
  {
    match Field(schema, key)
    case None => true
    case Some(bound) =>
      var order := Order(v, bound);
      if key == "minimum" then order >= 0
      else if key == "maximum" then order <= 0
      else if key == "exclusiveMinimum" then order > 0
      else order < 0
  }

  predicate NumberOk(schema: Json, v: Json)
    requires IsNumber(v)
  {
    && BoundOk(schema, "minimum", v) && BoundOk(schema, "maximum", v)
    && BoundOk(schema, "exclusiveMinimum", v) && BoundOk(schema, "exclusiveMaximum", v)
  }

  /** Bytes of a text that are not UTF-8 continuation bytes. */
  function Characters(s: string): (n: nat)
    ensures n <= |s|
  {
    if s == "" then 0
    else Characters(s[..|s| - 1]) + if 0x80 <= s[|s| - 1] as int < 0xC0 then 0 else 1
  }

  function Upto(s: string, c: char): string {
    if s == "" || s[0] == c then "" else [s[0]] + Upto(s[1..], c)
  }

  /** A required name is looked up as a C string. */
  predicate RequiredOk(name: Json, members: seq<Member>) {
    name.Str? && Get(members, Upto(name.s, 0 as char)).Some?
  }

  predicate ShapeOk(schema: Json, v: Json) {
    match v
    case Str(s) => CountOk(schema, "minLength", "maxLength", Characters(s))
    case Arr(items) => CountOk(schema, "minItems", "maxItems", |items|)
    case Obj(members) =>
      var required := Items(Field(schema, "required"));
      && CountOk(schema, "minProperties", "maxProperties", |members|)
      && forall i :: 0 <= i < |required| ==> RequiredOk(required[i], members)
    case Whole(_) => NumberOk(schema, v)
    case Fraction(_) => NumberOk(schema, v)
    case _ => true
  }

  /** Everything a node checks before descending. */
  predicate Local(schema: Json, v: Json) {
    TypeOk(schema, v) && ConstOk(schema, v) && EnumOk(schema, v) && ShapeOk(schema, v)
  }

  /** The schema of a member: its property, or the additional one. */
  function ChildSchema(schema: Json, key: string): Option<Json> {
    var props := Field(schema, "properties");
    var child := if props.Some? then Field(props.value, key) else None;
    if child.Some? then child else Field(schema, "additionalProperties")
  }

  // ---- validation with a budget ----------------------------------------------------------------

  const MAX_NODES := 32768
  const MAX_LEVEL := 64

  function Validate(schema: Option<Json>, v: Json, depth: nat, left: nat): (bool, nat)
    decreases v, 1
  {
    if left == 0 || depth > MAX_LEVEL then (false, left)
    else match schema
      case None => (true, left - 1)
      case Some(Bool(b)) => (b, left - 1)
      case Some(s) => if Local(s, v) then Descend(s, v, depth + 1, left - 1) else (false, left - 1)
  }

  function Descend(s: Json, v: Json, depth: nat, left: nat): (bool, nat)
    decreases v, 0
  {
    match v
    case Arr(items) => ValidateItems(Field(s, "items"), items, depth, left)
    case Obj(members) => ValidateMembers(s, members, depth, left)
    case _ => (true, left)
  }

  function ValidateItems(sub: Option<Json>, items: seq<Json>, depth: nat, left: nat): (bool, nat)
    decreases items
  {
    if items == [] then (true, left)
    else
      var (ok, rest) := Validate(sub, items[0], depth, left);
      if ok then ValidateItems(sub, items[1..], depth, rest) else (false, rest)
  }

  function ValidateMembers(s: Json, members: seq<Member>, depth: nat, left: nat): (bool, nat)
    decreases members
  {
    if members == [] then (true, left)
    else
      var (ok, rest) := Validate(ChildSchema(s, members[0].key), members[0].value, depth, left);
      if ok then ValidateMembers(s, members[1..], depth, rest) else (false, rest)
  }

  /** astools_mcp_schema_validate */
  predicate Accepts(schema: Option<Json>, v: Json) { Validate(schema, v, 0, MAX_NODES).0 }

  class Budget {
    var left: nat

    constructor (left: nat)
      ensures this.left == left
    {
      this.left := left;
    }

    method CheckLocal(s: Json, v: Json) returns (ok: bool)
      ensures ok == Local(s, v)
    {
      if !TypeOk(s, v) || !ConstOk(s, v) {
        return false;
      }
      var choices := Field(s, "enum");
      if choices.Some? {
        var found, i := false, 0;
        while i < |Items(choices)| && !found
          invariant 0 <= i <= |Items(choices)|
          invariant found ==> EnumOk(s, v)
          invariant !found ==> forall k :: 0 <= k < i ==> !Equal(Items(choices)[k], v)
        {
          found := CheckEqual(Items(choices)[i], v);
          i := i + 1;
        }
        if !found {
          return false;
        }
      }
      ok := CheckShape(s, v);
    }

    method CheckShape(s: Json, v: Json) returns (ok: bool)
      ensures ok == ShapeOk(s, v)
    {
      match v
      case Str(t) =>
        var n := 0;
        for i := 0 to |t|
          invariant n == Characters(t[..i])
        {
          assert t[..i + 1][..i] == t[..i];
          if !(0x80 <= t[i] as int < 0xC0) {
            n := n + 1;
          }
        }
        assert t[..|t|] == t;
        return CountOk(s, "minLength", "maxLength", n);
      case Arr(items) => return CountOk(s, "minItems", "maxItems", |items|);
      case Obj(members) =>
        if !CountOk(s, "minProperties", "maxProperties", |members|) {
          return false;
        }
        var required := Items(Field(s, "required"));
        for i := 0 to |required|
          invariant forall k :: 0 <= k < i ==> RequiredOk(required[k], members)
        {
          if !RequiredOk(required[i], members) {
            return false;
          }
        }
        return true;
      case Whole(_) => return NumberOk(s, v);
      case Fraction(_) => return NumberOk(s, v);
      case _ => return true;
    }

    method Check(schema: Option<Json>, v: Json, depth: nat) returns (ok: bool)
      modifies this
      ensures ok == Validate(schema, v, depth, old(left)).0
      ensures ok ==> left == Validate(schema, v, depth, old(left)).1
      decreases v, 1
    {
      hide Local;
      if left == 0 || depth > MAX_LEVEL {
        return false;
      }
      left := left - 1;
      if schema.None? {
        return true;
      }
      if schema.value.Bool? {
        return schema.value.b;
      }
      var s := schema.value;
      ok := CheckLocal(s, v);
      if !ok {
        return false;
      }
      match v
      case Arr(items) =>
        ghost var start := left;
        for i := 0 to |items|
          invariant ValidateItems(Field(s, "items"), items, depth + 1, start)
                 == ValidateItems(Field(s, "items"), items[i..], depth + 1, left)
        {
          assert items[i..][0] == items[i] && items[i..][1..] == items[i + 1..];
          ok := Check(Field(s, "items"), items[i], depth + 1);
          if !ok {
            return false;
          }
        }
      case Obj(members) =>
        ghost var start := left;
        for i := 0 to |members|
          invariant ValidateMembers(s, members, depth + 1, start) == ValidateMembers(s, members[i..], depth + 1, left)
        {
          assert members[i..][0] == members[i] && members[i..][1..] == members[i + 1..];
          ok := Check(ChildSchema(s, members[i].key), members[i].value, depth + 1);
          if !ok {
            return false;
          }
        }
      case _ =>
      return true;
    }
  }

  method CheckAccepts(schema: Option<Json>, v: Json) returns (ok: bool)
    ensures ok == Accepts(schema, v)
  {
    var budget := new Budget(MAX_NODES);
    ok := budget.Check(schema, v, 0);
  }

  // ---- the accepted profile ---------------------------------------------------------------------

  const TYPES := ["null", "boolean", "number", "integer", "string", "array", "object"]
  const COUNTS := ["minLength", "maxLength", "minItems", "maxItems", "minProperties", "maxProperties"]
  const BOUNDS := ["minimum", "maximum", "exclusiveMinimum", "exclusiveMaximum"]
  const TEXTS := ["title", "description", "$comment"]
  const FLAGS := ["readOnly", "writeOnly", "deprecated"]
  const DIALECT := "https://json-schema.org/draft/2020-12/schema"
  const MAX_LIST := 256
  const MAX_SCHEMA_NODES := 1024
  const MAX_SCHEMA_LEVEL := 32

  /** strings: at most 256 different NUL-free texts. */
  predicate Strings(v: Json) {
    && v.Arr? && |v.items| <= MAX_LIST
    && (forall i :: 0 <= i < |v.items| ==> v.items[i].Str? && !Contains(v.items[i].s, 0 as char))
    && (forall i, j :: 0 <= i < j < |v.items| ==> v.items[i] != v.items[j])
  }

  predicate CountValue(v: Json) { v.Whole? && 0 <= v.i <= EXACT }

  predicate BoundValue(v: Json) {
    IsNumber(v) && -EXACT as real <= DoubleValue(v) <= EXACT as real && (v.Whole? ==> Exact(v.i))
  }

  predicate EnumValue(v: Json) {
    && v.Arr? && 0 < |v.items| <= MAX_LIST
    && forall i, j :: 0 <= j < i < |v.items| ==> !Equal(v.items[i], v.items[j])
  }

  predicate IsSub(key: string) { key == "items" || key == "additionalProperties" }

  /** A keyword that holds no schema. */
  predicate PlainOk(schema: Json, m: Member) {
    if m.key == "$schema" then TextField(schema, m.key) == Some(DIALECT)
    else if m.key == "type" then TextField(schema, m.key).Some? && TextField(schema, m.key).value in TYPES
    else if m.key == "required" then Strings(m.value)
    else if m.key in COUNTS then CountValue(m.value)
    else if m.key in BOUNDS then BoundValue(m.value)
    else if m.key == "enum" then EnumValue(m.value)
    else if m.key in TEXTS then m.value.Str?
    else if m.key in FLAGS then m.value.Bool?
    else if m.key == "examples" then m.value.Arr?
    else m.key == "default" || m.key == "const"
  }

  function Supports(schema: Json, depth: nat, left: nat): (bool, nat)
    decreases schema
  {
    if depth > MAX_SCHEMA_LEVEL || left == 0 then (false, left)
    else match schema
      case Bool(_) => (true, left - 1)
      case Obj(members) => SupportsMembers(schema, members, depth, left - 1)
      case _ => (false, left - 1)
  }

  function SupportsMembers(schema: Json, members: seq<Member>, depth: nat, left: nat): (bool, nat)
    decreases members, 1
  {
    if members == [] then (true, left)
    else
      var (ok, rest) := SupportsMember(schema, members[0], depth, left);
      if ok then SupportsMembers(schema, members[1..], depth, rest) else (false, rest)
  }

  function SupportsMember(schema: Json, m: Member, depth: nat, left: nat): (bool, nat)
    decreases m, 0
  {
    if m.key == "properties" then
      if m.value.Obj? && |m.value.members| <= MAX_LIST then SupportsAll(m.value.members, depth + 1, left) else (false, left)
    else if IsSub(m.key) then Supports(m.value, depth + 1, left)
    else (PlainOk(schema, m), left)
  }

  /** Every property's schema. */
  function SupportsAll(members: seq<Member>, depth: nat, left: nat): (bool, nat)
    decreases members
  {
    if members == [] then (true, left)
    else
      var (ok, rest) := Supports(members[0].value, depth, left);
      if ok then SupportsAll(members[1..], depth, rest) else (false, rest)
  }

  /** astools_mcp_schema_supported */
  predicate Supported(schema: Option<Json>) { schema.Some? && Supports(schema.value, 0, MAX_SCHEMA_NODES).0 }

  /** The schema check as it runs, charging every visited schema to a shared counter. */
  class SchemaBudget {
    var left: nat

    constructor (left: nat)
      ensures this.left == left
    {
      this.left := left;
    }

    method CheckEnum(v: Json) returns (ok: bool)
      ensures ok == EnumValue(v)
    {
      if !v.Arr? || v.items == [] || |v.items| > MAX_LIST {
        return false;
      }
      for i := 0 to |v.items|
        invariant forall a, b :: 0 <= b < a < i ==> !Equal(v.items[a], v.items[b])
      {
        for k := 0 to i
          invariant forall b :: 0 <= b < k ==> !Equal(v.items[i], v.items[b])
        {
          var same := CheckEqual(v.items[i], v.items[k]);
          if same {
            return false;
          }
        }
      }
      return true;
    }

    method CheckPlain(schema: Json, m: Member) returns (ok: bool)
      ensures ok == PlainOk(schema, m)
    {
      if m.key == "enum" {
        ok := CheckEnum(m.value);
      } else {
        ok := PlainOk(schema, m);
      }
    }

    method Check(schema: Json, depth: nat) returns (ok: bool)
      modifies this
      ensures ok == Supports(schema, depth, old(left)).0
      ensures ok ==> left == Supports(schema, depth, old(left)).1
      decreases schema, 2
    {
      hide PlainOk;
      if depth > MAX_SCHEMA_LEVEL || left == 0 {
        return false;
      }
      left := left - 1;
      if schema.Bool? {
        return true;
      }
      if !schema.Obj? {
        return false;
      }
      ghost var start := left;
      var members := schema.members;
      for i := 0 to |members|
        invariant SupportsMembers(schema, members, depth, start) == SupportsMembers(schema, members[i..], depth, left)
      {
        assert members[i..][0] == members[i] && members[i..][1..] == members[i + 1..];
        ok := CheckMember(schema, members[i], depth);
        if !ok {
          return false;
        }
      }
      return true;
    }

    method CheckMember(schema: Json, m: Member, depth: nat) returns (ok: bool)
      modifies this
      ensures ok == SupportsMember(schema, m, depth, old(left)).0
      ensures ok ==> left == SupportsMember(schema, m, depth, old(left)).1
      decreases m, 1
    {
      if m.key == "properties" {
        if !m.value.Obj? || |m.value.members| > MAX_LIST {
          return false;
        }
        ghost var start := left;
        var all := m.value.members;
        for i := 0 to |all|
          invariant SupportsAll(all, depth + 1, start) == SupportsAll(all[i..], depth + 1, left)
        {
          assert all[i..][0] == all[i] && all[i..][1..] == all[i + 1..];
          ok := Check(all[i].value, depth + 1);
          if !ok {
            return false;
          }
        }
        return true;
      }
      if IsSub(m.key) {
        ok := Check(m.value, depth + 1);
      } else {
        ok := CheckPlain(schema, m);
      }
    }
  }

  method CheckSupported(schema: Option<Json>) returns (ok: bool)
    ensures ok == Supported(schema)
  {
    if schema.None? {
      return false;
    }
    var budget := new SchemaBudget(MAX_SCHEMA_NODES);
    ok := budget.Check(schema.value, 0);
  }
}
