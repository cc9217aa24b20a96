/** What the reader accepts the writer reproduces. */
module JsonRoundTrip {
  import opened Text
  import opened Utf8
  import opened Json

  // ---- assumptions on the number formatter ------------------------------------------------

  predicate NumberChar(c: char) { IsDigit(c) || c == '+' || c == '-' || c == '.' || c == 'e' || c == 'E' }

  /** A text after which a number token must end. */
  predicate Stops(s: string) { s == "" || !NumberChar(s[0]) }

  predicate IntegerToken(tok: string) { NumberToken(tok) == Some(("", true)) }

  predicate MinusZero(tok: string) { IntegerValue(tok) == 0 && tok != "" && tok[0] == '-' }

  /** The shortest form reads back as the same number, is a JSON number, and an
      integer form without the sign of zero denotes the number itself. */
  predicate Shows(codec: Codec, d: Double) {
    var tok := codec.show(d);
    && NumberToken(tok).Some? && NumberToken(tok).value.0 == ""
    && codec.read(tok) == Some(d)
    && (IntegerToken(tok) && !MinusZero(tok) ==> IntegerValue(tok) as real == d.value && !d.minusZero)
  }

  ghost predicate Faithful(codec: Codec) {
    && (forall d :: codec.isDouble(d) ==> Shows(codec, d))
    && (forall s :: codec.read(s).Some? ==> codec.isDouble(codec.read(s).value))
  }

  // ---- what the reader produces ---------------------------------------------------------------

  ghost predicate KeysOk(members: seq<Member>) {
    && (forall i :: 0 <= i < |members| ==> Valid(members[i].key) && !Contains(members[i].key, 0 as char))
    && (forall i, j :: 0 <= i < j < |members| ==> members[i].key != members[j].key)
  }

  /** Invariants of a value standing at a depth. */
  ghost predicate WellFormed(codec: Codec, v: Json, depth: nat)
    decreases v
  {
    match v
    case Whole(i) => InInt64(i)
    case Fraction(d) => codec.isDouble(d)
    case Str(s) => Valid(s)
    case Arr(items) => depth < MAX_DEPTH && forall i :: 0 <= i < |items| ==> WellFormed(codec, items[i], depth + 1)
    case Obj(members) =>
      depth < MAX_DEPTH && KeysOk(members)
      && forall i :: 0 <= i < |members| ==> WellFormed(codec, members[i].value, depth + 1)
    case _ => true
  }

  /** An escape stands for one well-formed sequence. */
  lemma {:induction false} EscapeValid(s: string)
    requires Escape(s).Some?
    ensures SeqLen(Escape(s).value.0) == |Escape(s).value.0| > 0
  {
    if s[0] == 'u' {
      var cp := Hex4(s[1..]).value;
      if High(cp) {
        var low := Hex4(s[5..][2..]).value;
        CombineScalar(cp, low);
        EncodeAccepted(Combine(cp, low));
      } else {
        EncodeAccepted(cp);
      }
    }
  }

  /** Decoded strings are always well-formed UTF-8. */
  lemma {:induction false} ReadStringValid(s: string, acc: string)
    requires Valid(acc) && ReadString(s, acc).Some?
    ensures Valid(ReadString(s, acc).value.0)
    decreases |s|
  {
    hide Escape, SeqLen;
    if s[0] == '"' {
    } else if s[0] == '\\' {
      var (bytes, rest) := Escape(s[1..]).value;
      EscapeValid(s[1..]);
      ValidSnoc(acc, bytes);
      ReadStringValid(rest, acc + bytes);
    } else {
      var n := SeqLen(s);
      SeqLenPrefix(s);
      ValidSnoc(acc, s[..n]);
      ReadStringValid(s[n..], acc + s[..n]);
    }
  }

  lemma {:induction false} GetNone(members: seq<Member>, key: string)
    requires Get(members, key).None?
    ensures forall i :: 0 <= i < |members| ==> members[i].key != key
  {
    if members != [] {
      GetNone(members[1..], key);
      forall i | 0 <= i < |members|
        ensures members[i].key != key
      {
        if i > 0 {
          assert members[i] == members[1..][i - 1];
        }
      }
    }
  }

  lemma {:induction false} ReadNameOk(s: string, members: seq<Member>)
    requires ReadName(s, members).Some?
    ensures var key := ReadName(s, members).value.0;
            Valid(key) && !Contains(key, 0 as char) && forall i :: 0 <= i < |members| ==> members[i].key != key
  {
    hide ReadString;
    var t := SkipBlanks(s);
    var (key, _) := ReadString(t[1..], "").value;
    ReadStringValid(t[1..], "");
    GetNone(members, key);
  }

  /** Every value read at a depth is well formed there. */
  lemma {:induction false} ReadValueOk(codec: Codec, text: string, depth: nat)
    requires Faithful(codec) && ReadValue(codec, text, depth).Some?
    ensures WellFormed(codec, ReadValue(codec, text, depth).value.0, depth)
    decreases |text|, 1
  {
    hide NumberToken, IntegerValue, ReadString;
    var s := SkipBlanks(text);
    if s[0] == '"' {
      ReadStringValid(s[1..], "");
    } else if s[0] == '[' {
      ReadArrayOk(codec, s[1..], depth + 1);
    } else if s[0] == '{' {
      ReadObjectOk(codec, s[1..], depth + 1);
    }
  }

  lemma {:induction false} ReadArrayOk(codec: Codec, text: string, depth: nat)
    requires Faithful(codec) && ReadArray(codec, text, depth).Some? && 0 < depth <= MAX_DEPTH
    ensures WellFormed(codec, ReadArray(codec, text, depth).value.0, depth - 1)
    decreases |text|, 3
  {
    var s := SkipBlanks(text);
    if !(s != "" && s[0] == ']') {
      ReadItemsOk(codec, s, depth, []);
    }
  }

  lemma {:induction false} ReadItemsOk(codec: Codec, s: string, depth: nat, items: seq<Json>)
    requires Faithful(codec) && ReadItems(codec, s, depth, items).Some? && 0 < depth <= MAX_DEPTH
    requires forall i :: 0 <= i < |items| ==> WellFormed(codec, items[i], depth)
    ensures WellFormed(codec, ReadItems(codec, s, depth, items).value.0, depth - 1)
    decreases |s|, 2
  {
    ReadValueOk(codec, s, depth);
    var (v, after) := ReadValue(codec, s, depth).value;
    var t := SkipBlanks(after);
    if t[0] == ',' {
      ReadItemsOk(codec, t[1..], depth, items + [v]);
    }
  }

  lemma {:induction false} ReadObjectOk(codec: Codec, text: string, depth: nat)
    requires Faithful(codec) && ReadObject(codec, text, depth).Some? && 0 < depth <= MAX_DEPTH
    ensures WellFormed(codec, ReadObject(codec, text, depth).value.0, depth - 1)
    decreases |text|, 4
  {
    var s := SkipBlanks(text);
    if !(s != "" && s[0] == '}') {
      ReadMembersOk(codec, s, depth, []);
    }
  }

  lemma {:induction false} ReadMembersOk(codec: Codec, s: string, depth: nat, members: seq<Member>)
    requires Faithful(codec) && ReadMembers(codec, s, depth, members).Some? && 0 < depth <= MAX_DEPTH
    requires KeysOk(members) && forall i :: 0 <= i < |members| ==> WellFormed(codec, members[i].value, depth)
    ensures WellFormed(codec, ReadMembers(codec, s, depth, members).value.0, depth - 1)
    decreases |s|, 3
  {
    hide ReadName, Valid, Contains;
    var (key, colon) := ReadName(s, members).value;
    ReadNameOk(s, members);
    ReadValueOk(codec, colon, depth);
    var (v, after) := ReadValue(codec, colon, depth).value;
    var t := SkipBlanks(after);
    var all := members + [Member(key, v)];
    assert KeysOk(all);
    if t[0] == ',' {
      ReadMembersOk(codec, t[1..], depth, all);
    }
  }

  // ---- blanks -------------------------------------------------------------------------------

  predicate AllBlank(s: string) { forall i :: 0 <= i < |s| ==> Blank(s[i]) }

  lemma {:induction false} SkipAllBlank(b: string, s: string)
    requires AllBlank(b)
    ensures SkipBlanks(b + s) == SkipBlanks(s)
  {
    if b == "" {
      assert b + s == s;
    } else {
      SkipAllBlank(b[1..], s);
      assert (b + s)[1..] == b[1..] + s;
    }
  }

  lemma {:induction false} RepeatBlank(n: nat)
    ensures AllBlank(Repeat(n))
  {
    if n > 0 {
      RepeatBlank(n - 1);
    }
  }

  lemma {:induction false} IndentBlank(pretty: bool, level: nat)
    ensures AllBlank(Indent(pretty, level))
    ensures pretty ==> Indent(pretty, level) != "" && Indent(pretty, level)[0] == '\n'
  {
    RepeatBlank(level);
  }

  lemma {:induction false} BlankValue(codec: Codec, b: string, s: string, depth: nat)
    requires AllBlank(b)
    ensures ReadValue(codec, b + s, depth) == ReadValue(codec, s, depth)
  {
    SkipAllBlank(b, s);
  }

  // ---- strings --------------------------------------------------------------------------------

  lemma {:induction false} EscapeAllSplit(a: string, b: string)
    ensures EscapeAll(a + b) == EscapeAll(a) + EscapeAll(b)
  {
    hide EscapeByte;
    if a == "" {
      assert a + b == b;
    } else {
      EscapeAllSplit(a[1..], b);
      assert (a + b)[1..] == a[1..] + b;
      Cat(EscapeByte(a[0]), EscapeAll(a[1..]), EscapeAll(b));
    }
  }

  lemma {:induction false} EscapeAllHigh(s: string)
    requires forall i :: 0 <= i < |s| ==> s[i] as int >= 0x80
    ensures EscapeAll(s) == s
  {
    if s != "" {
      EscapeAllHigh(s[1..]);
      assert s == [s[0]] + s[1..];
    }
  }

  /** One escaped ASCII byte reads back as itself. */
  lemma {:induction false} EscapeByteRead(c: char, rest: string, acc: string)
    requires c as int < 0x80
    ensures ReadString(EscapeByte(c) + rest, acc) == ReadString(rest, acc + [c])
  {
    var e := EscapeByte(c);
    if c as int < 0x20 || c == '"' || c == '\\' {
      EscapeRead(c, rest);
      hide Escape, EscapeByte;
      assert (e + rest)[1..] == e[1..] + rest && (e + rest)[0] == '\\';
    } else {
      hide Escape;
      assert (e + rest)[1..] == rest && (e + rest)[..1] == [c];
    }
  }

  lemma {:induction false} EscapeRead(c: char, rest: string)
    requires c as int < 0x20 || c == '"' || c == '\\'
    ensures var e := EscapeByte(c); e != "" && e[0] == '\\' && Escape(e[1..] + rest) == Some(([c], rest))
  {
    var e := EscapeByte(c);
    if |e| == 2 {
      assert e[1..] == [e[1]];
      assert (e[1..] + rest)[1..] == rest;
    } else {
      ControlRead(c, rest);
      assert e[1..] == "u00" + [HexChar(c as int / 16), HexChar(c as int % 16)];
    }
  }

  lemma {:induction false} ControlRead(c: char, rest: string)
    requires c as int < 0x20
    ensures Escape("u00" + [HexChar(c as int / 16), HexChar(c as int % 16)] + rest) == Some(([c], rest))
  {
  }

  /** A written string reads back exactly, whatever follows it. */
  lemma {:induction false} StringRoundTrip(s: string, acc: string, post: string)
    requires Valid(s)
    ensures ReadString(EscapeAll(s) + "\"" + post, acc) == Some((acc + s, post))
    decreases |s|
  {
    hide EscapeByte, SeqLen;
    if s == "" {
      assert EscapeAll(s) + "\"" + post == "\"" + post;
      assert ("\"" + post)[1..] == post && acc + s == acc;
    } else {
      var n := SeqLen(s);
      var one, more := s[..n], s[n..];
      assert s == one + more;
      EscapeAllSplit(one, more);
      var tail := EscapeAll(more) + "\"" + post;
      assert EscapeAll(s) + "\"" + post == EscapeAll(one) + tail by {
        Cat5("", EscapeAll(one), EscapeAll(more), "\"", post, "");
      }
      SeqLenPrefix(s);
      StringRoundTrip(more, acc + one, post);
      assert acc + one + more == acc + s;
      CharacterRead(one, tail, acc);
    }
  }

  lemma {:induction false} CharacterRead(one: string, tail: string, acc: string)
    requires SeqLen(one) == |one| > 0
    ensures ReadString(EscapeAll(one) + tail, acc) == ReadString(tail, acc + one)
  {
    if |one| == 1 {
      assert one[1..] == "" && EscapeAll(one) == EscapeByte(one[0]) + "";
      assert EscapeAll(one) == EscapeByte(one[0]) && one == [one[0]];
      EscapeByteRead(one[0], tail, acc);
    } else {
      SeqHigh(one);
      EscapeAllHigh(one);
      SeqLenLocal(one, tail);
      assert (one + tail)[|one|..] == tail && (one + tail)[..|one|] == one;
    }
  }

  // ---- numbers --------------------------------------------------------------------------------

  lemma {:induction false} SkipDigitsExtend(a: string, post: string)
    requires Stops(post)
    ensures SkipDigits(a + post) == SkipDigits(a) + post
  {
    if a != "" && IsDigit(a[0]) {
      SkipDigitsExtend(a[1..], post);
      assert (a + post)[1..] == a[1..] + post;
    } else if a == "" {
      assert a + post == post;
    }
  }

  lemma {:induction false} SomeDigitsExtend(a: string, post: string)
    requires Stops(post) && SomeDigits(a).Some?
    ensures SomeDigits(a + post) == Some(SomeDigits(a).value + post)
  {
    assert (a + post)[1..] == a[1..] + post;
    SkipDigitsExtend(a[1..], post);
  }

  lemma {:induction false} IntegerPartExtend(a: string, post: string)
    requires Stops(post) && IntegerPart(a).Some?
    ensures IntegerPart(a + post) == Some(IntegerPart(a).value + post)
  {
    assert (a + post)[1..] == a[1..] + post;
    var t := if a[0] == '-' then a[1..] else a;
    assert (t + post)[1..] == t[1..] + post;
    if t[0] != '0' {
      SomeDigitsExtend(t, post);
    }
  }

  lemma {:induction false} FractionPartExtend(a: string, post: string)
    requires Stops(post) && FractionPart(a).Some?
    ensures FractionPart(a + post) == Some(FractionPart(a).value + post)
  {
    if a == "" {
      assert a + post == post;
    } else if a[0] == '.' {
      assert (a + post)[1..] == a[1..] + post;
      SomeDigitsExtend(a[1..], post);
    }
  }

  lemma {:induction false} ExponentPartExtend(a: string, post: string)
    requires Stops(post) && ExponentPart(a).Some?
    ensures ExponentPart(a + post) == Some(ExponentPart(a).value + post)
  {
    if a == "" {
      assert a + post == post;
    } else if a[0] == 'e' || a[0] == 'E' {
      var t := a[1..];
      assert (a + post)[1..] == t + post;
      if t[0] == '+' || t[0] == '-' {
        assert (t + post)[1..] == t[1..] + post;
        SomeDigitsExtend(t[1..], post);
      } else {
        SomeDigitsExtend(t, post);
      }
    }
  }

  lemma {:induction false} TokenExtend(tok: string, post: string)
    requires Stops(post) && NumberToken(tok).Some?
    ensures NumberToken(tok + post) == Some((NumberToken(tok).value.0 + post, NumberToken(tok).value.1))
  {
    hide IntegerPart, FractionPart, ExponentPart;
    var a := IntegerPart(tok).value;
    var b := FractionPart(a).value;
    var c := ExponentPart(b).value;
    IntegerPartExtend(tok, post);
    FractionPartExtend(a, post);
    ExponentPartExtend(b, post);
    assert c + post == a + post <==> c == a by {
      if c + post == a + post {
        assert c == (c + post)[..|c|] && a == (a + post)[..|a|];
      }
    }
  }

  lemma {:induction false} SkipAllDigits(s: string)
    ensures AllDigits(s) <==> SkipDigits(s) == ""
  {
    if s != "" {
      SkipAllDigits(s[1..]);
      assert s == [s[0]] + s[1..];
    }
  }

  /** Decimal numerals: digits, and no leading zero unless alone. */
  predicate Canonical(s: string) { AllDigits(s) && s != "" && (s[0] == '0' ==> s == "0") }

  lemma {:induction false} IntegerTokenShape(tok: string)
    ensures IntegerToken(tok) <==> Canonical(tok) || (tok != "" && tok[0] == '-' && Canonical(tok[1..]))
  {
    var t := if tok != "" && tok[0] == '-' then tok[1..] else tok;
    if t != "" {
      SkipAllDigits(t[1..]);
      assert t == [t[0]] + t[1..];
    }
    assert FractionPart("") == Some("") && ExponentPart("") == Some("");
  }

  lemma {:induction false} ValuePositive(s: string)
    requires AllDigits(s) && s != "" && s[0] != '0'
    ensures Value(s) >= 1
  {
    if |s| > 1 {
      ValuePositive(s[..|s| - 1]);
    }
  }

  lemma {:induction false} NumeralCanonical(s: string)
    requires Canonical(s)
    ensures Numeral(Value(s)) == s
  {
    var n := |s| - 1;
    var t, d := s[..n], DigitValue(s[n]);
    assert s == t + [s[n]];
    ShiftedValue(Value(t), d);
    if n > 0 {
      ValuePositive(t);
      NumeralCanonical(t);
      hide Value, AllDigits;
    }
  }

  lemma {:induction false} ShiftedValue(v: nat, d: nat)
    requires d < 10
    ensures (10 * v + d) / 10 == v && (10 * v + d) % 10 == d
  {
  }

  lemma {:induction false} WrittenInt(i: int)
    ensures IntegerToken(WriteInt(i)) && !MinusZero(WriteInt(i)) && IntegerValue(WriteInt(i)) == i
  {
    var t := Numeral(if i < 0 then -i else i);
    IntegerTokenShape(WriteInt(i));
    assert ("-" + t)[1..] == t;
  }

  /** An integer token is what its value is written as. */
  lemma {:induction false} RewrittenInt(tok: string)
    requires IntegerToken(tok) && !MinusZero(tok)
    ensures WriteInt(IntegerValue(tok)) == tok
  {
    IntegerTokenShape(tok);
    var t := if tok[0] == '-' then tok[1..] else tok;
    NumeralCanonical(t);
    if tok[0] == '-' {
      assert tok == "-" + t;
    }
  }

  // ---- values ---------------------------------------------------------------------------------

  /** What a written value reads back as: a double whose shortest form is an
      integer in range comes back as that integer, everything else as itself. */
  function Normal(codec: Codec, v: Json): Json
    decreases v
  {
    match v
    case Fraction(d) => NormalNumber(codec, d)
    case Arr(items) => Arr(NormalItems(codec, items))
    case Obj(members) => Obj(NormalMembers(codec, members))
    case _ => v
  }

  function NormalNumber(codec: Codec, d: Double): Json {
    var tok := codec.show(d);
    if IntegerToken(tok) && InInt64(IntegerValue(tok)) && !MinusZero(tok) then Whole(IntegerValue(tok)) else Fraction(d)
  }

  function NormalItems(codec: Codec, items: seq<Json>): (r: seq<Json>)
    ensures |r| == |items|
    decreases items
  {
    if items == [] then [] else [Normal(codec, items[0])] + NormalItems(codec, items[1..])
  }

  function NormalMembers(codec: Codec, members: seq<Member>): (r: seq<Member>)
    ensures |r| == |members|
    decreases members
  {
    if members == [] then []
    else [Member(members[0].key, Normal(codec, members[0].value))] + NormalMembers(codec, members[1..])
  }

  lemma {:induction false} NumberRoundTrip(codec: Codec, tok: string, post: string)
    requires Stops(post) && NumberToken(tok).Some? && NumberToken(tok).value.0 == ""
    ensures ReadNumber(codec, tok + post) ==
            match NumberOf(codec, tok, NumberToken(tok).value.1) case None => None case Some(v) => Some((v, post))
  {
    hide NumberToken, NumberOf;
    TokenExtend(tok, post);
    assert "" + post == post && (tok + post)[..|tok|] == tok;
  }

  lemma {:induction false} NumberStart(tok: string)
    requires NumberToken(tok).Some?
    ensures tok != "" && (tok[0] == '-' || IsDigit(tok[0]))
  {
  }

  lemma {:induction false} NumberValue(codec: Codec, tok: string, post: string, depth: nat)
    requires Stops(post) && NumberToken(tok).Some? && NumberToken(tok).value.0 == ""
    ensures ReadValue(codec, tok + post, depth) ==
            match NumberOf(codec, tok, NumberToken(tok).value.1) case None => None case Some(v) => Some((v, post))
  {
    NumberRoundTrip(codec, tok, post);
    NumberStart(tok);
    hide NumberToken, ReadNumber, ReadValue, NumberOf;
    NumberNext(codec, tok + post, depth);
  }

  lemma {:induction false} NumberNext(codec: Codec, s: string, depth: nat)
    requires s != "" && (s[0] == '-' || IsDigit(s[0]))
    ensures ReadValue(codec, s, depth) == ReadNumber(codec, s)
  {
    hide ReadNumber, ReadArray, ReadObject, ReadText;
    assert SkipBlanks(s) == s;
  }

  lemma {:induction false} WordValue(codec: Codec, word: string, post: string, depth: nat)
    requires word == "null" || word == "true" || word == "false"
    ensures ReadValue(codec, word + post, depth)
         == Some((if word == "null" then Null else Bool(word == "true"), post))
  {
  }

  lemma {:induction false} TextValue(codec: Codec, text: string, post: string, depth: nat)
    requires Valid(text)
    ensures ReadValue(codec, WriteString(text) + post, depth) == Some((Str(text), post))
  {
    hide ReadNumber, ReadArray, ReadObject, ReadString, EscapeAll;
    var s := WriteString(text) + post;
    assert SkipBlanks(s) == s;
    assert s[1..] == EscapeAll(text) + "\"" + post;
    StringRoundTrip(text, "", post);
    assert "" + text == text;
  }

  lemma {:induction false} Cat(a: string, b: string, c: string)
    ensures (a + b) + c == a + (b + c)
  {
  }

  lemma {:induction false} Cons<T>(acc: seq<T>, one: T, rest: seq<T>)
    ensures acc + [one] + rest == acc + ([one] + rest) && [] + rest == rest && [one] + [] == [one]
  {
  }

  /** A text that starts with a given punctuation mark. */
  lemma {:induction false} Opens(c: char, w: string, post: string)
    requires !Blank(c)
    ensures var s := [c] + w + post; s != "" && s[0] == c && s[1..] == w + post && SkipBlanks(s) == s
  {
  }

  function ItemsTail(codec: Codec, items: seq<Json>, pretty: bool, level: nat): string
    requires items != []
  {
    if |items| == 1 then Indent(pretty, level) + "]" else "," + WriteItems(codec, items[1..], pretty, level)
  }

  lemma {:induction false} TailStops(codec: Codec, items: seq<Json>, pretty: bool, level: nat, post: string)
    requires items != []
    ensures Stops(ItemsTail(codec, items, pretty, level) + post)
  {
  }

  lemma {:induction false} TailLast(pretty: bool, level: nat, close: string, post: string)
    requires close != "" && !Blank(close[0])
    ensures SkipBlanks(Indent(pretty, level) + close + post) == close + post
  {
    IndentBlank(pretty, level);
    Cat(Indent(pretty, level), close, post);
    SkipAllBlank(Indent(pretty, level), close + post);
  }

  /** The heart of the round trip: a written value reads back in any context where
      it may stand, leaving exactly what follows it. */
  lemma {:induction false} ValueRoundTrip(codec: Codec, v: Json, pretty: bool, level: nat, depth: nat, post: string)
    requires Faithful(codec) && WellFormed(codec, v, depth) && Stops(post)
    ensures ReadValue(codec, Write(codec, v, pretty, level) + post, depth) == Some((Normal(codec, v), post))
    decreases v, 1
  {
    match v
    case Null => WordValue(codec, "null", post, depth);
    case Bool(b) => WordValue(codec, if b then "true" else "false", post, depth);
    case Whole(i) =>
      WrittenInt(i);
      NumberValue(codec, WriteInt(i), post, depth);
    case Fraction(d) =>
      NumberValue(codec, codec.show(d), post, depth);
    case Str(s) => TextValue(codec, s, post, depth);
    case Arr(items) => ArrayRoundTrip(codec, items, pretty, level, depth, post);
    case Obj(members) => ObjectRoundTrip(codec, members, pretty, level, depth, post);
  }

  lemma {:induction false} ArrayRoundTrip(codec: Codec, items: seq<Json>, pretty: bool, level: nat, depth: nat, post: string)
    requires Faithful(codec) && WellFormed(codec, Arr(items), depth)
    ensures ReadValue(codec, Write(codec, Arr(items), pretty, level) + post, depth)
         == Some((Arr(NormalItems(codec, items)), post))
    decreases items, 2
  {
    assert depth < MAX_DEPTH;
    hide ReadValue, ReadArray, ReadObject, ReadItems, Faithful, WellFormed, WriteItems;
    if items == [] {
      Bracketed(codec, "]", "}", post, depth);
    } else {
      Bracketed(codec, WriteItems(codec, items, pretty, level), "}", post, depth);
      ItemsRoundTrip(codec, items, pretty, level, depth + 1, post, []);
      Cons([], Null, NormalItems(codec, items));
      ArrayStart(codec, WriteItems(codec, items, pretty, level) + post, depth + 1);
    }
  }

  /** What brackets and braces open, and the empty containers. */
  lemma {:induction false} Bracketed(codec: Codec, inArray: string, inObject: string, post: string, depth: nat)
    requires depth < MAX_DEPTH
    ensures ReadValue(codec, "[" + inArray + post, depth) == ReadArray(codec, inArray + post, depth + 1)
    ensures ReadValue(codec, "{" + inObject + post, depth) == ReadObject(codec, inObject + post, depth + 1)
    ensures ReadValue(codec, "[]" + post, depth) == Some((Arr([]), post))
    ensures ReadValue(codec, "{}" + post, depth) == Some((Obj([]), post))
  {
    hide ReadNumber, ReadText, ReadItems, ReadMembers;
    Opens('[', inArray, post);
    Opens('{', inObject, post);
    Opens('[', "]", post);
    Opens('{', "}", post);
    Opens(']', "", post);
    Opens('}', "", post);
    assert "" + post == post && "]" + "" == "]" && "}" + "" == "}";
    assert "[" + "]" == "[]" && "{" + "}" == "{}";
  }

  /** A list that reads as items does not start with a closing bracket. */
  lemma {:induction false} ArrayStart(codec: Codec, text: string, depth: nat)
    requires ReadItems(codec, text, depth, []).Some?
    ensures ReadArray(codec, text, depth) == ReadItems(codec, text, depth, [])
  {
    var s := SkipBlanks(text);
    SkippedValue(codec, text, depth);
    hide ReadNumber, ReadObject, ReadText;
    assert ReadItems(codec, s, depth, []) == ReadItems(codec, text, depth, []) by {
      hide ReadValue;
    }
    assert ReadValue(codec, text, depth).Some?;
  }

  lemma {:induction false} SkippedValue(codec: Codec, text: string, depth: nat)
    ensures ReadValue(codec, SkipBlanks(text), depth) == ReadValue(codec, text, depth)
  {
  }

  /** One turn of reading items, given what the next value reads as. */
  lemma {:induction false} ItemTurn(codec: Codec, s: string, depth: nat, acc: seq<Json>, one: Json, tail: string)
    requires ReadValue(codec, s, depth).Some? && ReadValue(codec, s, depth).value.0 == one
    requires SkipBlanks(ReadValue(codec, s, depth).value.1) == tail && tail != ""
    ensures tail[0] == ']' ==> ReadItems(codec, s, depth, acc) == Some((Arr(acc + [one]), tail[1..]))
    ensures tail[0] == ',' ==> ReadItems(codec, s, depth, acc) == ReadItems(codec, tail[1..], depth, acc + [one])
  {
  }

  lemma {:induction false} ItemsRoundTrip(codec: Codec, items: seq<Json>, pretty: bool, level: nat, depth: nat,
                                          post: string, acc: seq<Json>)
    requires Faithful(codec) && items != [] && depth > 0 && WellFormed(codec, Arr(items), depth - 1)
    ensures ReadItems(codec, WriteItems(codec, items, pretty, level) + post, depth, acc)
         == Some((Arr(acc + NormalItems(codec, items)), post))
    decreases items, 1
  {
    var s, tail := WriteItems(codec, items, pretty, level) + post, ItemsTail(codec, items, pretty, level);
    var one := Normal(codec, items[0]);
    FirstItem(codec, items, pretty, level, depth, post);
    assert NormalItems(codec, items) == [one] + NormalItems(codec, items[1..]);
    assert |items| > 1 ==> WellFormed(codec, Arr(items[1..]), depth - 1);
    hide Write, Normal, WellFormed, ReadValue, ReadItems, Faithful, NormalItems, WriteItems;
    if |items| == 1 {
      TailLast(pretty, level, "]", post);
      ItemTurn(codec, s, depth, acc, one, "]" + post);
      Opens(']', "", post);
      assert "" + post == post && "]" + "" == "]";
      NoItems(codec, items[1..]);
      Cons(acc, one, []);
    } else {
      Opens(',', WriteItems(codec, items[1..], pretty, level), post);
      ItemTurn(codec, s, depth, acc, one, tail + post);
      ItemsRoundTrip(codec, items[1..], pretty, level, depth, post, acc + [one]);
      Cons(acc, one, NormalItems(codec, items[1..]));
    }
  }

  lemma {:induction false} NoItems(codec: Codec, items: seq<Json>)
    requires items == []
    ensures NormalItems(codec, items) == []
  {
  }

  lemma {:induction false} FirstItem(codec: Codec, items: seq<Json>, pretty: bool, level: nat, depth: nat, post: string)
    requires Faithful(codec) && items != [] && depth > 0 && WellFormed(codec, Arr(items), depth - 1)
    ensures ReadValue(codec, WriteItems(codec, items, pretty, level) + post, depth)
         == Some((Normal(codec, items[0]), ItemsTail(codec, items, pretty, level) + post))
    decreases items, 0
  {
    var indent, one, tail := Indent(pretty, level + 1), Write(codec, items[0], pretty, level + 1), ItemsTail(codec, items, pretty, level);
    TailStops(codec, items, pretty, level, post);
    ValueRoundTrip(codec, items[0], pretty, level + 1, depth, tail + post);
    hide ReadValue, Write, Normal, WellFormed;
    assert WriteItems(codec, items, pretty, level) + post == indent + (one + (tail + post)) by {
      Cat(indent, one, tail);
      Cat(indent, one + tail, post);
      Cat(one, tail, post);
    }
    IndentBlank(pretty, level + 1);
    BlankValue(codec, indent, one + (tail + post), depth);
  }

  function MembersTail(codec: Codec, members: seq<Member>, pretty: bool, level: nat): string
    requires members != []
  {
    if |members| == 1 then Indent(pretty, level) + "}" else "," + WriteMembers(codec, members[1..], pretty, level)
  }

  lemma {:induction false} ObjectRoundTrip(codec: Codec, members: seq<Member>, pretty: bool, level: nat, depth: nat, post: string)
    requires Faithful(codec) && WellFormed(codec, Obj(members), depth)
    ensures ReadValue(codec, Write(codec, Obj(members), pretty, level) + post, depth)
         == Some((Obj(NormalMembers(codec, members)), post))
    decreases members, 3
  {
    assert depth < MAX_DEPTH;
    hide ReadValue, ReadArray, ReadObject, ReadMembers, Faithful, WellFormed, WriteMembers;
    if members == [] {
      Bracketed(codec, "]", "}", post, depth);
    } else {
      Bracketed(codec, "]", WriteMembers(codec, members, pretty, level), post, depth);
      MembersRoundTrip(codec, members, pretty, level, depth + 1, post, []);
      Cons([], Member("", Null), NormalMembers(codec, members));
      ObjectStart(codec, WriteMembers(codec, members, pretty, level) + post, depth + 1);
    }
  }

  lemma {:induction false} ObjectStart(codec: Codec, text: string, depth: nat)
    requires ReadMembers(codec, text, depth, []).Some?
    ensures ReadObject(codec, text, depth) == ReadMembers(codec, text, depth, [])
  {
  }

  lemma {:induction false} GetFresh(members: seq<Member>, key: string)
    requires forall i :: 0 <= i < |members| ==> members[i].key != key
    ensures Get(members, key).None?
  {
    if members != [] {
      GetFresh(members[1..], key);
    }
  }

  lemma {:induction false} QuotedText(key: string, post: string)
    ensures var text := WriteString(key) + post;
            && text != "" && text[0] == '"' && SkipBlanks(text) == text
            && text[1..] == EscapeAll(key) + "\"" + post && "" + key == key
  {
  }

  /** A written name reads back up to its colon. */
  lemma {:induction false} NameRoundTrip(key: string, pretty: bool, level: nat, seen: seq<Member>, post: string)
    requires Valid(key) && !Contains(key, 0 as char) && forall i :: 0 <= i < |seen| ==> seen[i].key != key
    ensures ReadName(Indent(pretty, level) + (WriteString(key) + (":" + post)), seen) == Some((key, post))
  {
    hide ReadString, EscapeAll, Valid, Contains, Indent, Get;
    var text := WriteString(key) + (":" + post);
    IndentBlank(pretty, level);
    SkipAllBlank(Indent(pretty, level), text);
    QuotedText(key, ":" + post);
    StringRoundTrip(key, "", ":" + post);
    GetFresh(seen, key);
    hide WriteString, AllBlank;
    assert SkipBlanks(":" + post) == ":" + post && (":" + post)[1..] == post;
  }

  /** Where a member's value starts: after the colon and, when pretty, one blank. */
  lemma {:induction false} ColonSplit(pretty: bool, s: string)
    ensures Colon(pretty) + s == ":" + ((if pretty then " " else "") + s)
  {
  }

  lemma {:induction false} FirstMember(codec: Codec, members: seq<Member>, pretty: bool, level: nat, depth: nat,
                                       post: string, seen: seq<Member>)
    requires Faithful(codec) && members != [] && depth > 0 && WellFormed(codec, Obj(members), depth - 1)
    requires forall i :: 0 <= i < |seen| ==> seen[i].key != members[0].key
    ensures var name := ReadName(WriteMembers(codec, members, pretty, level) + post, seen);
            && name.Some? && name.value.0 == members[0].key
            && ReadValue(codec, name.value.1, depth)
               == Some((Normal(codec, members[0].value), MembersTail(codec, members, pretty, level) + post))
    decreases members, 0
  {
    var one := Write(codec, members[0].value, pretty, level + 1);
    var tail := MembersTail(codec, members, pretty, level) + post;
    var gap := if pretty then " " else "";
    assert WellFormed(codec, members[0].value, depth) && Valid(members[0].key) && !Contains(members[0].key, 0 as char);
    hide ReadValue, Write, Normal, WellFormed, ReadName, WriteString, Faithful, WriteMembers, MembersTail, Indent, Valid,
         Contains, Colon, Stops, AllBlank;
    MembersTailStops(codec, members, pretty, level, post);
    ValueRoundTrip(codec, members[0].value, pretty, level + 1, depth, tail);
    assert AllBlank(gap) by {
      OneBlank();
    }
    BlankValue(codec, gap, one + tail, depth);
    NameRoundTrip(members[0].key, pretty, level + 1, seen, gap + (one + tail));
    ColonSplit(pretty, one + tail);
    MemberText(codec, members, pretty, level, post);
  }

  lemma {:induction false} OneBlank()
    ensures AllBlank(" ") && AllBlank("")
  {
  }

  lemma {:induction false} MemberText(codec: Codec, members: seq<Member>, pretty: bool, level: nat, post: string)
    requires members != []
    ensures WriteMembers(codec, members, pretty, level) + post
         == Indent(pretty, level + 1)
            + (WriteString(members[0].key)
               + (Colon(pretty)
                  + (Write(codec, members[0].value, pretty, level + 1) + (MembersTail(codec, members, pretty, level) + post))))
  {
    hide Write, WriteString, Indent, Colon;
    Cat5(Indent(pretty, level + 1), WriteString(members[0].key), Colon(pretty),
         Write(codec, members[0].value, pretty, level + 1), MembersTail(codec, members, pretty, level), post);
  }

  lemma {:induction false} Cat5(a: string, b: string, c: string, d: string, e: string, f: string)
    ensures a + b + c + d + e + f == a + (b + (c + (d + (e + f))))
  {
  }

  lemma {:induction false} MembersTailStops(codec: Codec, members: seq<Member>, pretty: bool, level: nat, post: string)
    requires members != []
    ensures Stops(MembersTail(codec, members, pretty, level) + post)
  {
  }

  /** The members still to be read have names not yet seen. */
  ghost predicate Fresh(seen: seq<Member>, members: seq<Member>) {
    forall i, j :: 0 <= i < |seen| && 0 <= j < |members| ==> seen[i].key != members[j].key
  }

  lemma {:induction false} RestOk(codec: Codec, members: seq<Member>, depth: nat, seen: seq<Member>, v: Json)
    requires members != [] && WellFormed(codec, Obj(members), depth) && Fresh(seen, members)
    ensures WellFormed(codec, Obj(members[1..]), depth) && Fresh(seen + [Member(members[0].key, v)], members[1..])
  {
  }

  /** One turn of reading members, given what its name and value read as. */
  lemma {:induction false} MemberTurn(codec: Codec, s: string, depth: nat, acc: seq<Member>, one: Member, tail: string)
    requires var name := ReadName(s, acc);
             && name.Some? && name.value.0 == one.key && tail != ""
             && ReadValue(codec, name.value.1, depth).Some? && ReadValue(codec, name.value.1, depth).value.0 == one.value
             && SkipBlanks(ReadValue(codec, name.value.1, depth).value.1) == tail
    ensures tail[0] == '}' ==> ReadMembers(codec, s, depth, acc) == Some((Obj(acc + [one]), tail[1..]))
    ensures tail[0] == ',' ==> ReadMembers(codec, s, depth, acc) == ReadMembers(codec, tail[1..], depth, acc + [one])
  {
  }

  /** The first member is read, and the rest is left to be read. */
  lemma {:induction false} MembersTurn(codec: Codec, members: seq<Member>, pretty: bool, level: nat, depth: nat,
                                       post: string, acc: seq<Member>)
    requires Faithful(codec) && members != [] && depth > 0 && WellFormed(codec, Obj(members), depth - 1)
    requires Fresh(acc, members)
    ensures var r := ReadMembers(codec, WriteMembers(codec, members, pretty, level) + post, depth, acc);
            var more := acc + [Member(members[0].key, Normal(codec, members[0].value))];
            && (|members| == 1 ==> r == Some((Obj(more), post)))
            && (|members| > 1 ==>
                  r == ReadMembers(codec, WriteMembers(codec, members[1..], pretty, level) + post, depth, more))
    decreases members, 1
  {
    var s, tail := WriteMembers(codec, members, pretty, level) + post, MembersTail(codec, members, pretty, level);
    var one := Member(members[0].key, Normal(codec, members[0].value));
    hide Write, Normal, WellFormed, ReadValue, ReadName, ReadMembers, WriteString, Faithful, WriteMembers, Fresh,
         SkipBlanks, Indent, Stops, Valid, Contains;
    FirstMember(codec, members, pretty, level, depth, post, acc);
    if |members| == 1 {
      TailLast(pretty, level, "}", post);
      Opens('}', "", post);
      assert "" + post == post && "}" + "" == "}";
      MemberTurn(codec, s, depth, acc, one, "}" + post);
    } else {
      Opens(',', WriteMembers(codec, members[1..], pretty, level), post);
      MemberTurn(codec, s, depth, acc, one, tail + post);
    }
  }

  lemma {:induction false} MembersRoundTrip(codec: Codec, members: seq<Member>, pretty: bool, level: nat, depth: nat,
                                            post: string, acc: seq<Member>)
    requires Faithful(codec) && members != [] && depth > 0 && WellFormed(codec, Obj(members), depth - 1)
    requires Fresh(acc, members)
    ensures ReadMembers(codec, WriteMembers(codec, members, pretty, level) + post, depth, acc)
         == Some((Obj(acc + NormalMembers(codec, members)), post))
    decreases members, 2
  {
    hide Write, Normal, WellFormed, ReadMembers, Faithful, NormalMembers, WriteMembers, Fresh;
    var one := Member(members[0].key, Normal(codec, members[0].value));
    MembersTurn(codec, members, pretty, level, depth, post, acc);
    NormalCons(codec, members);
    if |members| == 1 {
      NoMembers(codec, members[1..]);
      Cons(acc, one, []);
    } else {
      RestOk(codec, members, depth - 1, acc, one.value);
      MembersRoundTrip(codec, members[1..], pretty, level, depth, post, acc + [one]);
      Cons(acc, one, NormalMembers(codec, members[1..]));
    }
  }

  lemma {:induction false} NormalCons(codec: Codec, members: seq<Member>)
    requires members != []
    ensures NormalMembers(codec, members)
         == [Member(members[0].key, Normal(codec, members[0].value))] + NormalMembers(codec, members[1..])
  {
    hide Normal;
  }

  lemma {:induction false} NoMembers(codec: Codec, members: seq<Member>)
    requires members == []
    ensures NormalMembers(codec, members) == []
  {
  }

  // ---- rewriting ---------------------------------------------------------------------------------

  lemma {:induction false} RewriteSame(codec: Codec, v: Json, pretty: bool, level: nat)
    ensures Write(codec, Normal(codec, v), pretty, level) == Write(codec, v, pretty, level)
    decreases v
  {
    match v
    case Fraction(d) =>
      if NormalNumber(codec, d).Whole? {
        RewrittenInt(codec.show(d));
      }
    case Arr(items) =>
      if items != [] {
        RewriteItems(codec, items, pretty, level);
      }
    case Obj(members) =>
      if members != [] {
        RewriteMembers(codec, members, pretty, level);
      }
    case _ =>
  }

  lemma {:induction false} RewriteItems(codec: Codec, items: seq<Json>, pretty: bool, level: nat)
    requires items != []
    ensures WriteItems(codec, NormalItems(codec, items), pretty, level) == WriteItems(codec, items, pretty, level)
    decreases items
  {
    RewriteSame(codec, items[0], pretty, level + 1);
    assert NormalItems(codec, items)[1..] == NormalItems(codec, items[1..]);
    if |items| > 1 {
      RewriteItems(codec, items[1..], pretty, level);
    }
  }

  lemma {:induction false} RewriteMembers(codec: Codec, members: seq<Member>, pretty: bool, level: nat)
    requires members != []
    ensures WriteMembers(codec, NormalMembers(codec, members), pretty, level) == WriteMembers(codec, members, pretty, level)
    decreases members
  {
    RewriteSame(codec, members[0].value, pretty, level + 1);
    assert NormalMembers(codec, members)[1..] == NormalMembers(codec, members[1..]);
    if |members| > 1 {
      RewriteMembers(codec, members[1..], pretty, level);
    }
  }

  // ---- no control bytes ----------------------------------------------------------------------------

  predicate Printable(s: string) { forall i :: 0 <= i < |s| ==> s[i] as int >= 0x20 }

  lemma {:induction false} EscapedPrintable(s: string)
    ensures Printable(EscapeAll(s))
  {
    if s != "" {
      EscapedPrintable(s[1..]);
    }
  }

  lemma {:induction false} DigitsPrintable(s: string)
    ensures Printable(s[..|s| - |SkipDigits(s)|])
  {
    if s != "" && IsDigit(s[0]) {
      DigitsPrintable(s[1..]);
      var n := |s| - |SkipDigits(s)|;
      assert s[..n] == [s[0]] + s[1..][..n - 1];
    }
  }

  lemma {:induction false} SomeDigitsPrintable(s: string)
    requires SomeDigits(s).Some?
    ensures Printable(s[..|s| - |SomeDigits(s).value|])
    ensures SomeDigits(s).value == s[|s| - |SomeDigits(s).value|..]
  {
    DigitsPrintable(s[1..]);
    SkipDigitsSuffix(s[1..]);
    var n := |s| - |SomeDigits(s).value|;
    assert s[..n] == [s[0]] + s[1..][..n - 1];
  }

  lemma {:induction false} SkipDigitsSuffix(s: string)
    ensures SkipDigits(s) == s[|s| - |SkipDigits(s)|..]
  {
    if s != "" && IsDigit(s[0]) {
      SkipDigitsSuffix(s[1..]);
    }
  }

  /** One stage of a number token: r is a suffix of s and what it skips is printable. */
  predicate Skips(s: string, r: string) {
    |r| <= |s| && r == s[|s| - |r|..] && Printable(s[..|s| - |r|])
  }

  lemma {:induction false} SkipsTrans(s: string, r: string, q: string)
    requires Skips(s, r) && Skips(r, q)
    ensures Skips(s, q)
  {
  }

  lemma {:induction false} SkipsOne(s: string, r: string)
    requires s != "" && s[0] as int >= 0x20 && Skips(s[1..], r)
    ensures Skips(s, r)
  {
  }

  lemma {:induction false} TokenPrintable(tok: string)
    requires NumberToken(tok).Some? && NumberToken(tok).value.0 == ""
    ensures Printable(tok)
  {
    var a := IntegerPart(tok).value;
    var b := FractionPart(a).value;
    IntegerSkips(tok);
    FractionSkips(a);
    ExponentSkips(b);
    hide IntegerPart, FractionPart, ExponentPart, NumberToken, Skips, Printable;
    SkipsTrans(tok, a, b);
    SkipsTrans(tok, b, "");
    SkipsAll(tok);
  }

  lemma {:induction false} SkipsAll(s: string)
    requires Skips(s, "")
    ensures Printable(s)
  {
    assert s[..|s|] == s;
  }

  lemma {:induction false} IntegerSkips(s: string)
    requires IntegerPart(s).Some?
    ensures Skips(s, IntegerPart(s).value)
  {
    var t := if s[0] == '-' then s[1..] else s;
    if t[0] != '0' {
      SomeDigitsPrintable(t);
    }
    if s[0] == '-' {
      SkipsOne(s, IntegerPart(s).value);
    }
  }

  lemma {:induction false} FractionSkips(s: string)
    requires FractionPart(s).Some?
    ensures Skips(s, FractionPart(s).value)
  {
    if s != "" && s[0] == '.' {
      SomeDigitsPrintable(s[1..]);
      SkipsOne(s, FractionPart(s).value);
    }
  }

  lemma {:induction false} ExponentSkips(s: string)
    requires ExponentPart(s).Some?
    ensures Skips(s, ExponentPart(s).value)
  {
    if s != "" && (s[0] == 'e' || s[0] == 'E') {
      var t := s[1..];
      if t != "" && (t[0] == '+' || t[0] == '-') {
        SomeDigitsPrintable(t[1..]);
        SkipsOne(t, ExponentPart(s).value);
      } else {
        SomeDigitsPrintable(t);
      }
      SkipsOne(s, ExponentPart(s).value);
    }
  }

  /** Compact output has no byte below 0x20, so it never breaks a line. */
  lemma {:induction false} CompactPrintable(codec: Codec, v: Json, level: nat, depth: nat)
    requires Faithful(codec) && WellFormed(codec, v, depth)
    ensures Printable(Write(codec, v, false, level))
    decreases v
  {
    match v
    case Fraction(d) => TokenPrintable(codec.show(d));
    case Str(s) => EscapedPrintable(s);
    case Arr(items) =>
      if items != [] {
        ItemsPrintable(codec, items, level, depth);
      }
    case Obj(members) =>
      if members != [] {
        MembersPrintable(codec, members, level, depth);
      }
    case _ =>
  }

  lemma {:induction false} ItemsPrintable(codec: Codec, items: seq<Json>, level: nat, depth: nat)
    requires Faithful(codec) && items != [] && WellFormed(codec, Arr(items), depth)
    ensures Printable(WriteItems(codec, items, false, level))
    decreases items
  {
    CompactPrintable(codec, items[0], level + 1, depth + 1);
    if |items| > 1 {
      ItemsPrintable(codec, items[1..], level, depth);
    }
  }

  lemma {:induction false} PrintablePlus(a: string, b: string)
    requires Printable(a) && Printable(b)
    ensures Printable(a + b)
  {
  }

  /** What is well formed of an object is well formed of its parts. */
  lemma {:induction false} MembersSplit(codec: Codec, members: seq<Member>, depth: nat)
    requires members != [] && WellFormed(codec, Obj(members), depth)
    ensures WellFormed(codec, members[0].value, depth + 1)
    ensures |members| > 1 ==> WellFormed(codec, Obj(members[1..]), depth)
  {
    hide Valid, Contains;
  }

  lemma {:induction false} MembersText(codec: Codec, members: seq<Member>, level: nat)
    requires members != []
    ensures WriteMembers(codec, members, false, level)
         == WriteString(members[0].key) + ":" + Write(codec, members[0].value, false, level + 1) + MembersTail(codec, members, false, level)
  {
    hide WriteString, Write;
    assert "" + WriteString(members[0].key) == WriteString(members[0].key);
  }

  lemma {:induction false} KeyPrintable(key: string)
    ensures Printable(WriteString(key))
  {
    EscapedPrintable(key);
  }

  lemma {:induction false} MembersPrintable(codec: Codec, members: seq<Member>, level: nat, depth: nat)
    requires Faithful(codec) && members != [] && WellFormed(codec, Obj(members), depth)
    ensures Printable(WriteMembers(codec, members, false, level))
    decreases members
  {
    MembersSplit(codec, members, depth);
    hide WellFormed, Write, WriteMembers, WriteString, Faithful, Printable;
    KeyPrintable(members[0].key);
    CompactPrintable(codec, members[0].value, level + 1, depth + 1);
    MembersText(codec, members, level);
    var key, one, tail := WriteString(members[0].key), Write(codec, members[0].value, false, level + 1), MembersTail(codec, members, false, level);
    Punctuation();
    if |members| > 1 {
      MembersPrintable(codec, members[1..], level, depth);
      PrintablePlus(",", WriteMembers(codec, members[1..], false, level));
    }
    hide MembersTail;
    PrintablePlus(key, ":");
    PrintablePlus(key + ":", one);
    PrintablePlus(key + ":" + one, tail);
  }

  lemma {:induction false} Punctuation()
    ensures Printable(",") && Printable(":") && Printable("" + "}")
  {
  }

  // ---- the laws --------------------------------------------------------------------------------------

  /** Writing whatever was parsed, compact or pretty, gives a text that parses again to
      the same value up to the spelling of numbers, and that rewriting reproduces. */
  lemma {:induction false} ParsedRoundTrips(codec: Codec, text: string, pretty: bool)
    requires Faithful(codec) && Parse(codec, text).Some?
    ensures var v := Parse(codec, text).value;
            var out := Write(codec, v, pretty, 0);
            && WellFormed(codec, v, 0)
            && Parse(codec, out) == Some(Normal(codec, v))
            && Write(codec, Normal(codec, v), pretty, 0) == out
            && (!pretty ==> Printable(out))
  {
    var v := Parse(codec, text).value;
    var out := Write(codec, v, pretty, 0);
    ReadValueOk(codec, text, 0);
    ValueRoundTrip(codec, v, pretty, 0, 0, "");
    assert out + "" == out;
    RewriteSame(codec, v, pretty, 0);
    if !pretty {
      CompactPrintable(codec, v, 0, 0);
    }
  }
}
