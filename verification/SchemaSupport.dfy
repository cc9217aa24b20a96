/** How far the profile check respects equality, and what a value keeps of itself
    when it is written and parsed again. */
module SchemaSupport {
  import opened Text
  import opened Json
  import opened JsonRoundTrip
  import opened Schema
  import opened SchemaLaws
  import opened SchemaRespects

  // ---- count keywords ------------------------------------------------------------------------

  /** Every count keyword of every subschema is spelled as an integer token. */
  ghost predicate CountsWhole(schema: Json)
    decreases schema
  {
    schema.Obj? ==> forall i :: 0 <= i < |schema.members| ==> MemberCountsWhole(schema.members[i])
  }

  ghost predicate MemberCountsWhole(m: Member)
    decreases m
  {
    if m.key == "properties" then
      m.value.Obj? ==> forall i :: 0 <= i < |m.value.members| ==> CountsWhole(m.value.members[i].value)
    else if IsSub(m.key) then CountsWhole(m.value)
    else m.key in COUNTS ==> m.value.Whole?
  }

  /** 1 and 1.0 are equal, but only one of them is a count: the profile check does
      not respect equality. */
  lemma {:induction false} SupportDiffers()
    ensures var s, t := Obj([Member("minLength", Whole(1))]), Obj([Member("minLength", Fraction(Double(1.0, false)))]);
            Equal(s, t) && Supported(Some(s)) && !Supported(Some(t))
  {
    var s, t := Obj([Member("minLength", Whole(1))]), Obj([Member("minLength", Fraction(Double(1.0, false)))]);
    assert MemberEqual(s.members[0], t.members);
    assert s.members[1..] == [] && "minLength" in COUNTS;
    SupportsMembersExactly(s, s.members, 0, MAX_SCHEMA_NODES - 1);
    assert s.members[0].key == "minLength";
    assert PlainOk(s, s.members[0]) && !PlainOk(t, t.members[0]);
  }

  // ---- the profile of an equal schema ------------------------------------------------------------

  lemma {:induction false} NodesWithout(members: seq<Member>, j: nat)
    requires j < |members|
    ensures NodesOf(members) == MemberNodes(members[j]) + NodesOf(Without(members, j))
    ensures AllNodes(members) == SchemaNodes(members[j].value) + AllNodes(Without(members, j))
  {
    hide MemberNodes, SchemaNodes;
    if j == 0 {
      assert Without(members, 0) == members[1..];
    } else {
      NodesWithout(members[1..], j - 1);
      assert Without(members, j)[1..] == Without(members[1..], j - 1) && Without(members, j)[0] == members[0];
    }
  }

  lemma {:induction false} StringsEqual(a: Json, b: Json)
    requires Equal(a, b) && Strings(a)
    ensures Strings(b)
  {
  }

  lemma {:induction false} EnumValueEqual(a: Json, b: Json)
    requires Tidy(a) && Tidy(b) && Equal(a, b) && EnumValue(a)
    ensures EnumValue(b)
  {
    forall i, j | 0 <= j < i < |b.items|
      ensures !Equal(b.items[i], b.items[j])
    {
      EqualBoth(a.items[i], b.items[i], a.items[j], b.items[j]);
    }
  }

  lemma {:induction false} TextEqual(s: Json, t: Json, key: string)
    requires Tidy(s) && Tidy(t) && Equal(s, t)
    ensures TextField(s, key) == TextField(t, key)
  {
    FieldEqual(s, t, key);
  }

  lemma {:induction false} PlainEqual(s: Json, t: Json, m: Member, n: Member)
    requires Tidy(s) && Tidy(t) && Equal(s, t) && m.key == n.key && Tidy(m.value) && Tidy(n.value) && Equal(m.value, n.value)
    requires PlainOk(s, m) && (m.key in COUNTS ==> n.value.Whole?)
    ensures PlainOk(t, n)
  {
    hide Tidy, TextField, Strings, EnumValue;
    TextEqual(s, t, m.key);
    if Strings(m.value) {
      StringsEqual(m.value, n.value);
    }
    if EnumValue(m.value) {
      EnumValueEqual(m.value, n.value);
    }
    if IsNumber(m.value) {
      EqualNumbers(m.value, n.value);
    }
  }

  /** One member of an equal schema: supported alike, at the same cost. */
  lemma {:induction false} MemberProfile(s: Json, t: Json, m: Member, n: Member, depth: nat)
    requires Tidy(s) && Tidy(t) && Equal(s, t) && m.key == n.key && Tidy(m.value) && Tidy(n.value) && Equal(m.value, n.value)
    requires ProfileMember(s, m, depth) && MemberCountsWhole(n)
    ensures ProfileMember(t, n, depth) && MemberNodes(m) == MemberNodes(n)
    decreases m.value, 1
  {
    if m.key == "properties" {
      PropertiesProfile(m.value.members, n.value.members, depth + 1);
    } else if IsSub(m.key) {
      EqualProfile(m.value, n.value, depth + 1);
    } else {
      hide Tidy, Equal, PlainOk;
      PlainEqual(s, t, m, n);
    }
  }

  lemma {:induction false} EqualProfile(s: Json, t: Json, depth: nat)
    requires Tidy(s) && Tidy(t) && Equal(s, t) && Profile(s, depth) && CountsWhole(t)
    ensures Profile(t, depth) && SchemaNodes(s) == SchemaNodes(t)
    decreases s, 0
  {
    if s.Obj? {
      MembersProfile(s, t, s.members, t.members, depth);
    }
  }

  lemma {:induction false} MembersProfile(s: Json, t: Json, a: seq<Member>, b: seq<Member>, depth: nat)
    requires Tidy(s) && Tidy(t) && Equal(s, t)
    requires Unique(a) && Unique(b) && Matched(a, b) && AllTidy(a) && AllTidy(b)
    requires ProfileMembers(s, a, depth) && AllCountsWhole(b)
    ensures ProfileMembers(t, b, depth) && NodesOf(a) == NodesOf(b)
    decreases a, 2
  {
    if a != [] {
      var j := MatchedRest(a, b);
      RestKeeps(b, j);
      assert AllTidy(a[1..]) && ProfileMembers(s, a[1..], depth) && ProfileMember(s, a[0], depth);
      hide Tidy, Equal, ProfileMember, MemberNodes, MemberCountsWhole, Unique, Matched, AllTidy, AllCountsWhole, ProfileMembers;
      MemberProfile(s, t, a[0], b[j], depth);
      MembersProfile(s, t, a[1..], Without(b, j), depth);
      NodesWithout(b, j);
      ProfileWithout(t, b, j, depth);
    }
  }

  ghost predicate AllCountsWhole(members: seq<Member>) {
    forall i :: 0 <= i < |members| ==> MemberCountsWhole(members[i])
  }

  lemma {:induction false} RestKeeps(b: seq<Member>, j: nat)
    requires j < |b| && AllTidy(b) && AllCountsWhole(b)
    ensures AllTidy(Without(b, j)) && AllCountsWhole(Without(b, j)) && Tidy(b[j].value) && MemberCountsWhole(b[j])
  {
  }

  lemma {:induction false} ProfileWithout(t: Json, b: seq<Member>, j: nat, depth: nat)
    requires j < |b| && ProfileMember(t, b[j], depth) && ProfileMembers(t, Without(b, j), depth)
    ensures ProfileMembers(t, b, depth)
  {
    hide ProfileMember;
    var rest := Without(b, j);
    forall i | 0 <= i < |b|
      ensures ProfileMember(t, b[i], depth)
    {
      assert i == j || b[i] == rest[if i < j then i else i - 1];
    }
  }

  lemma {:induction false} PropertiesProfile(a: seq<Member>, b: seq<Member>, depth: nat)
    requires Unique(a) && Unique(b) && Matched(a, b) && AllTidy(a) && AllTidy(b)
    requires forall i :: 0 <= i < |a| ==> Profile(a[i].value, depth)
    requires forall i :: 0 <= i < |b| ==> CountsWhole(b[i].value)
    ensures forall i :: 0 <= i < |b| ==> Profile(b[i].value, depth)
    ensures AllNodes(a) == AllNodes(b)
    decreases a, 2
  {
    if a != [] {
      var j := MatchedRest(a, b);
      hide Tidy, Equal, Profile, SchemaNodes, CountsWhole, Unique;
      EqualProfile(a[0].value, b[j].value, depth);
      var rest := Without(b, j);
      assert forall k :: 0 <= k < |rest| ==> rest[k] == b[if k < j then k else k + 1];
      PropertiesProfile(a[1..], rest, depth);
      NodesWithout(b, j);
      assert forall k :: 0 <= k < |b| && k != j ==> b[k] == rest[if k < j then k else k - 1];
    }
  }

  /** A supported schema's counts are integers at every level. */
  lemma {:induction false} ProfileCounts(s: Json, depth: nat)
    requires Profile(s, depth)
    ensures CountsWhole(s)
    decreases s
  {
    if s.Obj? {
      forall i | 0 <= i < |s.members|
        ensures MemberCountsWhole(s.members[i])
      {
        var m := s.members[i];
        assert ProfileMember(s, m, depth);
        if m.key == "properties" {
          forall k | 0 <= k < |m.value.members|
            ensures CountsWhole(m.value.members[k].value)
          {
            ProfileCounts(m.value.members[k].value, depth + 1);
          }
        } else if IsSub(m.key) {
          ProfileCounts(m.value, depth + 1);
        }
      }
    }
  }

  /** The exact extent to which support respects equality: a schema equal to a
      supported one is supported if and only if its counts are integer tokens. */
  lemma {:induction false} SupportRespectsEqual(s: Json, t: Json)
    requires Supported(Some(s)) && Tidy(s) && Tidy(t) && Equal(s, t)
    ensures Supported(Some(t)) <==> CountsWhole(t)
  {
    SupportsExactly(s, 0, MAX_SCHEMA_NODES);
    SupportsExactly(t, 0, MAX_SCHEMA_NODES);
    if CountsWhole(t) {
      EqualProfile(s, t, 0);
    }
    if Profile(t, 0) {
      ProfileCounts(t, 0);
    }
  }

  // ---- written and parsed again ---------------------------------------------------------------------

  lemma {:induction false} WellFormedTidy(codec: Codec, v: Json, depth: nat)
    requires WellFormed(codec, v, depth)
    ensures Tidy(v)
    decreases v
  {
    match v
    case Arr(items) =>
      forall i | 0 <= i < |items|
        ensures Tidy(items[i])
      {
        WellFormedTidy(codec, items[i], depth + 1);
      }
    case Obj(members) =>
      forall i | 0 <= i < |members|
        ensures Tidy(members[i].value)
      {
        WellFormedTidy(codec, members[i].value, depth + 1);
      }
    case _ =>
  }

  const EXACT_LIMIT := EXACT as real

  /** A double that the writer prints as a 64-bit integer lies within 2^53. */
  ghost predicate PrintsNarrow(d: Double, tok: string) {
    IntegerToken(tok) && !MinusZero(tok) && InInt64(IntegerValue(tok)) ==> -EXACT_LIMIT <= d.value <= EXACT_LIMIT
  }

  /** No double is printed as an integer token beyond 2^53. */
  ghost predicate Narrow(codec: Codec, v: Json)
    decreases v
  {
    match v
    case Fraction(d) => PrintsNarrow(d, codec.show(d))
    case Arr(items) => forall i :: 0 <= i < |items| ==> Narrow(codec, items[i])
    case Obj(members) => forall i :: 0 <= i < |members| ==> Narrow(codec, members[i].value)
    case _ => true
  }

  lemma {:induction false} NormalItemAt(codec: Codec, items: seq<Json>, i: nat)
    requires i < |items|
    ensures NormalItems(codec, items)[i] == Normal(codec, items[i])
  {
    hide Normal;
    if i > 0 {
      NormalItemAt(codec, items[1..], i - 1);
    }
  }

  lemma {:induction false} NormalMemberAt(codec: Codec, members: seq<Member>, i: nat)
    requires i < |members|
    ensures NormalMembers(codec, members)[i] == Member(members[i].key, Normal(codec, members[i].value))
  {
    hide Normal;
    if i > 0 {
      NormalMemberAt(codec, members[1..], i - 1);
    }
  }

  lemma {:induction false} NumberReparsed(codec: Codec, d: Double)
    requires Shows(codec, d)
    ensures Equal(Fraction(d), NormalNumber(codec, d)) <==> PrintsNarrow(d, codec.show(d))
  {
    hide NumberToken, IntegerValue;
  }

  lemma {:induction false} NormalUnique(codec: Codec, members: seq<Member>)
    requires Unique(members)
    ensures Unique(NormalMembers(codec, members))
    ensures forall i :: 0 <= i < |members| ==>
              Get(NormalMembers(codec, members), members[i].key) == Some(Normal(codec, members[i].value))
  {
    hide Normal;
    var after := NormalMembers(codec, members);
    forall i | 0 <= i < |members|
      ensures after[i] == Member(members[i].key, Normal(codec, members[i].value))
    {
      NormalMemberAt(codec, members, i);
    }
    forall i | 0 <= i < |members|
      ensures Get(after, members[i].key) == Some(Normal(codec, members[i].value))
    {
      GetIs(after, i);
    }
  }

  /** What comes back is equal to what was written exactly when no double is printed
      as an integer that a double cannot be compared with. */
  lemma {:induction false} ReparsedEqual(codec: Codec, v: Json, depth: nat)
    requires Faithful(codec) && WellFormed(codec, v, depth)
    ensures Equal(v, Normal(codec, v)) <==> Narrow(codec, v)
    decreases v
  {
    hide Shows, NormalNumber, Faithful, KeysOk, PrintsNarrow;
    match v
    case Fraction(d) =>
      assert Shows(codec, d) by {
        FaithfulShows(codec, d);
      }
      NumberReparsed(codec, d);
    case Arr(items) =>
      forall i | 0 <= i < |items|
        ensures Equal(items[i], NormalItems(codec, items)[i]) <==> Narrow(codec, items[i])
      {
        NormalItemAt(codec, items, i);
        ReparsedEqual(codec, items[i], depth + 1);
      }
    case Obj(members) =>
      assert Unique(members) by {
        KeysUnique(members);
      }
      NormalUnique(codec, members);
      forall i | 0 <= i < |members|
        ensures MemberEqual(members[i], NormalMembers(codec, members)) <==> Narrow(codec, members[i].value)
      {
        ReparsedEqual(codec, members[i].value, depth + 1);
      }
    case _ =>
  }

  lemma {:induction false} FaithfulShows(codec: Codec, d: Double)
    requires Faithful(codec) && codec.isDouble(d)
    ensures Shows(codec, d)
  {
  }

  lemma {:induction false} KeysUnique(members: seq<Member>)
    requires KeysOk(members)
    ensures Unique(members)
  {
  }

  /** The smallest loss: 2^53 + 2 written as a double comes back as an integer that the
      comparison refuses to call equal. */
  lemma {:induction false} WideWholeLost(codec: Codec)
    requires Faithful(codec) && codec.isDouble(Double(9007199254740994.0, false))
    requires codec.show(Double(9007199254740994.0, false)) == WriteInt(9007199254740994)
    ensures !Equal(Fraction(Double(9007199254740994.0, false)), Normal(codec, Fraction(Double(9007199254740994.0, false))))
  {
    var d := Double(9007199254740994.0, false);
    WrittenInt(9007199254740994);
    assert !PrintsNarrow(d, codec.show(d));
    hide PrintsNarrow, Normal, Equal, Faithful, WriteInt;
    ReparsedEqual(codec, Fraction(d), 0);
  }

  /** A parsed text and its rewriting are equal contracts when no such double occurs. */
  lemma {:induction false} RewrittenContract(codec: Codec, text: string, pretty: bool)
    requires Faithful(codec) && Parse(codec, text).Some?
    ensures var v := Parse(codec, text).value;
            var again := Parse(codec, Write(codec, v, pretty, 0));
            again.Some? && Tidy(v) && (Equal(v, again.value) <==> Narrow(codec, v))
  {
    var v := Parse(codec, text).value;
    ParsedRoundTrips(codec, text, pretty);
    WellFormedTidy(codec, v, 0);
    ReparsedEqual(codec, v, 0);
  }
}
