/** The reader and the writer as they run: a cursor over the text with a depth
    counter, and an output buffer (src/json.c). */
module JsonCodec {
  import opened Text
  import opened Utf8
  import opened Json
  import opened JsonRoundTrip

  /** A read that left rest behind, or failed. */
  ghost predicate Left<T>(r: Option<T>, rest: string, spec: Option<(T, string)>) {
    match spec
    case None => r.None?
    case Some((v, after)) => r == Some(v) && rest == after
  }

  /** The number spelled by the first n hexadecimal digits. */
  function HexSoFar(s: string, n: nat): Option<nat>
    requires n <= |s|
  {
    if n == 0 then Some(0)
    else match (HexSoFar(s, n - 1), HexDigit(s[n - 1]))
      case (Some(v), Some(d)) => Some(v * 16 + d)
      case _ => None
  }

  lemma {:induction false} HexDone(s: string)
    requires |s| >= 4
    ensures HexSoFar(s, 4) == Hex4(s)
  {
    assert HexSoFar(s, 1) == HexDigit(s[0]);
    assert HexSoFar(s, 2).Some? ==> HexSoFar(s, 2).value == HexDigit(s[0]).value * 16 + HexDigit(s[1]).value;
  }

  class Reader {
    const codec: Codec
    const text: string
    var pos: nat
    var depth: nat

    ghost predicate Ok() reads this { pos <= |text| }

    ghost function Rest(): string
      requires Ok()
      reads this
    {
      text[pos..]
    }

    constructor (codec: Codec, text: string)
      ensures Ok() && this.codec == codec && this.text == text && pos == depth == 0
    {
      this.codec, this.text := codec, text;
      pos, depth := 0, 0;
    }

    method Skip()
      requires Ok()
      modifies this`pos
      ensures Ok() && Rest() == SkipBlanks(old(Rest())) && old(pos) <= pos
    {
      while pos < |text| && Blank(text[pos])
        invariant old(pos) <= pos <= |text|
        invariant SkipBlanks(old(Rest())) == SkipBlanks(Rest())
      {
        assert text[pos..][1..] == text[pos + 1..];
        pos := pos + 1;
      }
    }

    method Word(word: string) returns (ok: bool)
      requires Ok()
      modifies this`pos
      ensures Ok() && ok == StartsWith(old(Rest()), word) && old(pos) <= pos
      ensures ok ==> Rest() == old(Rest())[|word|..]
    {
      ok := |word| <= |text| - pos && text[pos..pos + |word|] == word;
      assert text[pos..] == Rest();
      if ok {
        assert Rest()[..|word|] == text[pos..pos + |word|];
        pos := pos + |word|;
      } else if |word| <= |text| - pos {
        assert Rest()[..|word|] == text[pos..pos + |word|];
      }
    }

    method Hex() returns (v: Option<nat>)
      requires Ok()
      modifies this`pos
      ensures Ok() && v == Hex4(old(Rest())) && old(pos) <= pos
      ensures v.Some? ==> Rest() == old(Rest())[4..]
    {
      if |text| - pos < 4 {
        return None;
      }
      var value, i := 0, 0;
      while i < 4
        invariant 0 <= i <= 4 && HexSoFar(Rest(), i) == Some(value)
      {
        var d := HexDigit(text[pos + i]);
        if d.None? {
          return None;
        }
        value := value * 16 + d.value;
        i := i + 1;
      }
      HexDone(Rest());
      pos := pos + 4;
      return Some(value);
    }

    /** What an escape stands for, the cursor standing after its backslash. */
    method EscapeAt() returns (r: Option<string>)
      requires Ok()
      modifies this`pos
      ensures Ok() && Left(r, Rest(), Escape(old(Rest()))) && old(pos) <= pos && (r.Some? ==> old(pos) < pos)
    {
      if pos >= |text| {
        return None;
      }
      var e := text[pos];
      pos := pos + 1;
      assert old(Rest())[1..] == Rest();
      if e != 'u' {
        var c := SimpleEscape(e);
        return if c.Some? then Some([c.value]) else None;
      }
      var cp := Hex();
      if cp.None? || Low(cp.value) {
        return None;
      }
      if !High(cp.value) {
        return Some(Encode(cp.value));
      }
      ghost var half := Rest();
      if |text| - pos < 2 || text[pos] != '\\' || text[pos + 1] != 'u' {
        return None;
      }
      pos := pos + 2;
      assert half[2..] == Rest();
      var low := Hex();
      if low.None? || !Low(low.value) {
        return None;
      }
      assert half[6..] == half[2..][4..];
      CombineScalar(cp.value, low.value);
      return Some(Encode(Combine(cp.value, low.value)));
    }

    method StringRaw() returns (r: Option<string>)
      requires Ok() && pos < |text|
      modifies this`pos
      ensures Ok() && Left(r, Rest(), ReadString(old(Rest())[1..], "")) && old(pos) < pos
    {
      hide Escape, SeqLen;
      var b := "";
      pos := pos + 1;
      assert old(Rest())[1..] == Rest();
      while true
        invariant Ok() && old(pos) < pos
        invariant ReadString(old(Rest())[1..], "") == ReadString(Rest(), b)
        decreases |text| - pos
      {
        if pos >= |text| {
          return None;
        }
        ghost var s := Rest();
        var c := text[pos];
        assert s[0] == c && s[1..] == text[pos + 1..];
        if c == '"' {
          pos := pos + 1;
          return Some(b);
        }
        if c == '\\' {
          pos := pos + 1;
          var e := EscapeAt();
          if e.None? {
            return None;
          }
          b := b + e.value;
        } else if c as int < 0x20 {
          return None;
        } else {
          var n := SeqLen(text[pos..]);
          if n == 0 {
            return None;
          }
          ghost var one := s[..n];
          assert s[n..] == text[pos + n..] && one == text[pos..pos + n];
          b := b + text[pos..pos + n];
          pos := pos + n;
        }
      }
    }

    method Digits() returns (ok: bool)
      requires Ok()
      modifies this`pos
      ensures Ok() && old(pos) <= pos && ok == SomeDigits(old(Rest())).Some?
      ensures ok ==> SomeDigits(old(Rest())) == Some(Rest())
    {
      if pos >= |text| || !IsDigit(text[pos]) {
        return false;
      }
      pos := pos + 1;
      assert old(Rest())[1..] == Rest();
      while pos < |text| && IsDigit(text[pos])
        invariant Ok() && old(pos) < pos
        invariant SkipDigits(old(Rest())[1..]) == SkipDigits(Rest())
      {
        assert text[pos..][1..] == text[pos + 1..];
        pos := pos + 1;
      }
      return true;
    }

    method IntegerDigits() returns (ok: bool)
      requires Ok()
      modifies this`pos
      ensures Ok() && old(pos) <= pos && ok == IntegerPart(old(Rest())).Some?
      ensures ok ==> IntegerPart(old(Rest())) == Some(Rest())
    {
      if pos < |text| && text[pos] == '-' {
        pos := pos + 1;
        assert old(Rest())[1..] == Rest();
      }
      if pos < |text| && text[pos] == '0' {
        assert Rest()[1..] == text[pos + 1..];
        pos := pos + 1;
        return true;
      }
      ok := Digits();
    }

    method Fraction() returns (ok: bool)
      requires Ok()
      modifies this`pos
      ensures Ok() && old(pos) <= pos && ok == FractionPart(old(Rest())).Some?
      ensures ok ==> FractionPart(old(Rest())) == Some(Rest())
    {
      if pos < |text| && text[pos] == '.' {
        pos := pos + 1;
        assert old(Rest())[1..] == Rest();
        ok := Digits();
      } else {
        ok := true;
      }
    }

    method Exponent() returns (ok: bool)
      requires Ok()
      modifies this`pos
      ensures Ok() && old(pos) <= pos && ok == ExponentPart(old(Rest())).Some?
      ensures ok ==> ExponentPart(old(Rest())) == Some(Rest())
    {
      if pos < |text| && (text[pos] == 'e' || text[pos] == 'E') {
        pos := pos + 1;
        assert old(Rest())[1..] == Rest();
        if pos < |text| && (text[pos] == '+' || text[pos] == '-') {
          assert Rest()[1..] == text[pos + 1..];
          pos := pos + 1;
        }
        ok := Digits();
      } else {
        ok := true;
      }
    }

    method Number() returns (r: Option<Json>)
      requires Ok()
      modifies this`pos
      ensures Ok() && Left(r, Rest(), ReadNumber(codec, old(Rest()))) && old(pos) <= pos && (r.Some? ==> old(pos) < pos)
    {
      hide IntegerPart, FractionPart, ExponentPart, NumberOf;
      ghost var s := Rest();
      var start := pos;
      var ok := IntegerDigits();
      if !ok {
        return None;
      }
      var mark := pos;
      ok := Fraction();
      if !ok {
        return None;
      }
      ok := Exponent();
      if !ok {
        return None;
      }
      assert NumberToken(s) == Some((Rest(), pos == mark)) by {
        assert Rest() == text[mark..] <==> pos == mark;
      }
      assert s[..|s| - |Rest()|] == text[start..pos];
      r := NumberOf(codec, text[start..pos], pos == mark);
    }

    method Value() returns (r: Option<Json>)
      requires Ok()
      modifies this
      ensures Ok() && depth == old(depth) && old(pos) <= pos
      ensures Left(r, Rest(), ReadValue(codec, old(Rest()), old(depth))) && (r.Some? ==> old(pos) < pos)
      decreases |text| - pos, 1
    {
      hide ReadNumber, ReadArray, ReadObject, ReadString;
      Skip();
      ghost var s := Rest();
      if pos >= |text| {
        return None;
      }
      var c := text[pos];
      if c == 'n' {
        var ok := Word("null");
        r := if ok then Some(Null) else None;
      } else if c == 't' {
        var ok := Word("true");
        r := if ok then Some(Bool(true)) else None;
      } else if c == 'f' {
        var ok := Word("false");
        r := if ok then Some(Bool(false)) else None;
      } else if c == '"' {
        var t := StringRaw();
        r := if t.Some? then Some(Str(t.value)) else None;
      } else if c == '[' {
        r := ArrayAt();
      } else if c == '{' {
        r := ObjectAt();
      } else if c == '-' || IsDigit(c) {
        r := Number();
        assert Left(r, Rest(), ReadNumber(codec, s));
      } else {
        r := None;
      }
    }

    method ArrayAt() returns (r: Option<Json>)
      requires Ok() && pos < |text|
      modifies this
      ensures Ok() && depth == old(depth) && old(pos) <= pos
      ensures depth >= MAX_DEPTH ==> r.None?
      ensures depth < MAX_DEPTH ==> Left(r, Rest(), ReadArray(codec, old(Rest())[1..], depth + 1))
      ensures r.Some? ==> old(pos) < pos
      decreases |text| - pos, 0
    {
      if depth >= MAX_DEPTH {
        return None;
      }
      pos := pos + 1;
      assert old(Rest())[1..] == Rest();
      Skip();
      if pos < |text| && text[pos] == ']' {
        assert Rest()[1..] == text[pos + 1..];
        pos := pos + 1;
        return Some(Arr([]));
      }
      depth := depth + 1;
      r := ItemsAt();
      depth := depth - 1;
    }

    /** The items of an array, up to and including its closing bracket. */
    method ItemsAt() returns (r: Option<Json>)
      requires Ok()
      modifies this
      ensures Ok() && depth == old(depth) && old(pos) <= pos
      ensures Left(r, Rest(), ReadItems(codec, old(Rest()), depth, []))
      decreases |text| - pos, 2
    {
      hide ReadValue;
      var items := [];
      while true
        invariant Ok() && old(pos) <= pos && depth == old(depth)
        invariant ReadItems(codec, old(Rest()), depth, []) == ReadItems(codec, Rest(), depth, items)
        decreases |text| - pos
      {
        var v := Value();
        if v.None? {
          return None;
        }
        Skip();
        if pos >= |text| {
          return None;
        }
        assert Rest()[1..] == text[pos + 1..];
        if text[pos] == ',' {
          items, pos := items + [v.value], pos + 1;
        } else if text[pos] == ']' {
          pos := pos + 1;
          return Some(Arr(items + [v.value]));
        } else {
          return None;
        }
      }
    }

    /** A member's name and its colon. */
    method Name(members: seq<Member>) returns (r: Option<string>)
      requires Ok()
      modifies this`pos
      ensures Ok() && old(pos) <= pos && Left(r, Rest(), ReadName(old(Rest()), members)) && (r.Some? ==> old(pos) < pos)
    {
      hide ReadString;
      Skip();
      if pos >= |text| || text[pos] != '"' {
        return None;
      }
      var key := StringRaw();
      if key.None? {
        return None;
      }
      if Contains(key.value, 0 as char) || Get(members, key.value).Some? {
        return None;
      }
      Skip();
      if pos >= |text| || text[pos] != ':' {
        return None;
      }
      assert Rest()[1..] == text[pos + 1..];
      pos := pos + 1;
      return key;
    }

    method ObjectAt() returns (r: Option<Json>)
      requires Ok() && pos < |text|
      modifies this
      ensures Ok() && depth == old(depth) && old(pos) <= pos
      ensures depth >= MAX_DEPTH ==> r.None?
      ensures depth < MAX_DEPTH ==> Left(r, Rest(), ReadObject(codec, old(Rest())[1..], depth + 1))
      ensures r.Some? ==> old(pos) < pos
      decreases |text| - pos, 0
    {
      hide ReadName, ReadValue;
      if depth >= MAX_DEPTH {
        return None;
      }
      pos := pos + 1;
      assert old(Rest())[1..] == Rest();
      Skip();
      if pos < |text| && text[pos] == '}' {
        assert Rest()[1..] == text[pos + 1..];
        pos := pos + 1;
        return Some(Obj([]));
      }
      depth := depth + 1;
      r := MembersAt();
      depth := depth - 1;
    }

    /** The members of an object, up to and including its closing brace. */
    method MembersAt() returns (r: Option<Json>)
      requires Ok()
      modifies this
      ensures Ok() && depth == old(depth) && old(pos) <= pos
      ensures Left(r, Rest(), ReadMembers(codec, old(Rest()), depth, []))
      decreases |text| - pos, 2
    {
      hide ReadName, ReadValue;
      var members := [];
      while true
        invariant Ok() && old(pos) <= pos && depth == old(depth)
        invariant ReadMembers(codec, old(Rest()), depth, []) == ReadMembers(codec, Rest(), depth, members)
        decreases |text| - pos
      {
        var key := Name(members);
        if key.None? {
          return None;
        }
        var v := Value();
        if v.None? {
          return None;
        }
        Skip();
        if pos >= |text| {
          return None;
        }
        assert Rest()[1..] == text[pos + 1..];
        if text[pos] == ',' {
          members, pos := members + [Member(key.value, v.value)], pos + 1;
        } else if text[pos] == '}' {
          pos := pos + 1;
          return Some(Obj(members + [Member(key.value, v.value)]));
        } else {
          return None;
        }
      }
    }
  }

  method ParseText(codec: Codec, text: string) returns (r: Option<Json>)
    ensures r == Parse(codec, text)
  {
    hide ReadValue;
    var p := new Reader(codec, text);
    assert p.Rest() == text;
    r := p.Value();
    if r.Some? {
      p.Skip();
      if p.pos != |text| {
        r := None;
      }
    }
  }

  // ---- the writer -----------------------------------------------------------------------

  lemma {:induction false} EscapeSnoc(s: string, i: nat)
    requires i < |s|
    ensures EscapeAll(s[..i + 1]) == EscapeAll(s[..i]) + EscapeByte(s[i])
  {
    hide EscapeByte;
    assert s[..i + 1] == s[..i] + [s[i]];
    EscapeAllSplit(s[..i], [s[i]]);
    assert [s[i]][1..] == "" && EscapeByte(s[i]) + "" == EscapeByte(s[i]);
  }

  method EmitString(b: Buffer, s: string)
    modifies b
    ensures b.text == old(b.text) + WriteString(s)
  {
    hide EscapeByte;
    b.Append("\"");
    ghost var start := b.text;
    var i := 0;
    while i < |s|
      invariant 0 <= i <= |s|
      invariant b.text == start + EscapeAll(s[..i])
    {
      EscapeSnoc(s, i);
      assert start + (EscapeAll(s[..i]) + EscapeByte(s[i])) == start + EscapeAll(s[..i]) + EscapeByte(s[i]);
      b.Append(EscapeByte(s[i]));
      i := i + 1;
    }
    assert s[..|s|] == s;
    b.Append("\"");
    Cat3(old(b.text), "\"", EscapeAll(s), "\"");
    assert old(b.text) + (("\"" + EscapeAll(s)) + "\"") == old(b.text) + "\"" + EscapeAll(s) + "\"";
  }

  method EmitIndent(b: Buffer, pretty: bool, level: nat)
    modifies b
    ensures b.text == old(b.text) + Indent(pretty, level)
  {
    if !pretty {
      return;
    }
    b.Append("\n");
    var i := 0;
    while i < level
      invariant 0 <= i <= level
      invariant b.text + Repeat(level - i) == old(b.text) + "\n" + Repeat(level)
    {
      b.Append("  ");
      i := i + 1;
    }
    assert old(b.text) + Indent(pretty, level) == old(b.text) + "\n" + Repeat(level);
  }

  method EmitValue(b: Buffer, codec: Codec, v: Json, pretty: bool, level: nat)
    modifies b
    ensures b.text == old(b.text) + Write(codec, v, pretty, level)
    decreases v, 1
  {
    match v
    case Null => b.Append("null");
    case Bool(x) => b.Append(if x then "true" else "false");
    case Whole(i) => b.Append(WriteInt(i));
    case Fraction(d) => b.Append(codec.show(d));
    case Str(s) => EmitString(b, s);
    case Arr(items) =>
      if items == [] {
        b.Append("[]");
      } else {
        EmitItems(b, codec, items, pretty, level);
      }
    case Obj(members) =>
      if members == [] {
        b.Append("{}");
      } else {
        EmitMembers(b, codec, members, pretty, level);
      }
  }

  lemma {:induction false} Cat3(a: string, b: string, c: string, d: string)
    ensures a + (b + c + d) == a + b + c + d
  {
    Cat(b, c, d);
    Cat(a, b, c + d);
    Cat(a + b, c, d);
  }

  /** What is still to be written before item i. */
  ghost function ItemsLeft(codec: Codec, items: seq<Json>, i: nat, pretty: bool, level: nat): string
    requires i <= |items|
  {
    if i == |items| then Indent(pretty, level) + "]"
    else (if i == 0 then "" else ",") + WriteItems(codec, items[i..], pretty, level)
  }

  lemma {:induction false} ItemsLeftStep(codec: Codec, items: seq<Json>, i: nat, pretty: bool, level: nat, text: string)
    requires i < |items|
    ensures text + ItemsLeft(codec, items, i, pretty, level)
         == text + (if i == 0 then "" else ",") + Indent(pretty, level + 1) + Write(codec, items[i], pretty, level + 1)
            + ItemsLeft(codec, items, i + 1, pretty, level)
  {
    hide Write, Indent;
    assert items[i..][1..] == items[i + 1..];
    var comma := if i == 0 then "" else ",";
    Cat3(text + comma, Indent(pretty, level + 1), Write(codec, items[i], pretty, level + 1),
         ItemsLeft(codec, items, i + 1, pretty, level));
    assert text + (comma + WriteItems(codec, items[i..], pretty, level)) == text + comma + WriteItems(codec, items[i..], pretty, level);
  }

  method EmitItems(b: Buffer, codec: Codec, items: seq<Json>, pretty: bool, level: nat)
    requires items != []
    modifies b
    ensures b.text == old(b.text) + ("[" + WriteItems(codec, items, pretty, level))
    decreases items, 0
  {
    hide WriteItems, Write, Indent;
    ghost var whole := old(b.text) + ("[" + WriteItems(codec, items, pretty, level));
    b.Append("[");
    assert items[0..] == items && b.text + ("" + WriteItems(codec, items, pretty, level)) == whole;
    var i := 0;
    while i < |items|
      invariant 0 <= i <= |items|
      invariant b.text + ItemsLeft(codec, items, i, pretty, level) == whole
    {
      ItemsLeftStep(codec, items, i, pretty, level, b.text);
      if i > 0 {
        b.Append(",");
      } else {
        assert b.text + "" == b.text;
      }
      EmitIndent(b, pretty, level + 1);
      EmitValue(b, codec, items[i], pretty, level + 1);
      i := i + 1;
    }
    EmitIndent(b, pretty, level);
    b.Append("]");
    assert whole == b.text;
  }

  ghost function MembersLeft(codec: Codec, members: seq<Member>, i: nat, pretty: bool, level: nat): string
    requires i <= |members|
  {
    if i == |members| then Indent(pretty, level) + "}"
    else (if i == 0 then "" else ",") + WriteMembers(codec, members[i..], pretty, level)
  }

  lemma {:induction false} MembersLeftStep(codec: Codec, members: seq<Member>, i: nat, pretty: bool, level: nat, text: string)
    requires i < |members|
    ensures text + MembersLeft(codec, members, i, pretty, level)
         == text + (if i == 0 then "" else ",") + Indent(pretty, level + 1) + WriteString(members[i].key) + Colon(pretty)
            + Write(codec, members[i].value, pretty, level + 1) + MembersLeft(codec, members, i + 1, pretty, level)
  {
    hide Write, Indent, WriteString, Colon;
    assert members[i..][1..] == members[i + 1..];
    var comma := if i == 0 then "" else ",";
    var indent, key, colon := Indent(pretty, level + 1), WriteString(members[i].key), Colon(pretty);
    Cat3(text + comma, indent, key, colon);
    Cat3(text + comma, indent + key + colon, Write(codec, members[i].value, pretty, level + 1),
         MembersLeft(codec, members, i + 1, pretty, level));
    assert text + (comma + WriteMembers(codec, members[i..], pretty, level))
        == text + comma + WriteMembers(codec, members[i..], pretty, level);
  }

  method EmitMembers(b: Buffer, codec: Codec, members: seq<Member>, pretty: bool, level: nat)
    requires members != []
    modifies b
    ensures b.text == old(b.text) + ("{" + WriteMembers(codec, members, pretty, level))
    decreases members, 0
  {
    hide WriteMembers, Write, Indent, WriteString;
    ghost var whole := old(b.text) + ("{" + WriteMembers(codec, members, pretty, level));
    b.Append("{");
    assert members[0..] == members && b.text + ("" + WriteMembers(codec, members, pretty, level)) == whole;
    var i := 0;
    while i < |members|
      invariant 0 <= i <= |members|
      invariant b.text + MembersLeft(codec, members, i, pretty, level) == whole
    {
      MembersLeftStep(codec, members, i, pretty, level, b.text);
      if i > 0 {
        b.Append(",");
      } else {
        assert b.text + "" == b.text;
      }
      EmitIndent(b, pretty, level + 1);
      EmitString(b, members[i].key);
      b.Append(Colon(pretty));
      EmitValue(b, codec, members[i].value, pretty, level + 1);
      i := i + 1;
    }
    EmitIndent(b, pretty, level);
    b.Append("}");
    assert whole == b.text;
  }

  method WriteText(codec: Codec, v: Json, pretty: bool) returns (out: string)
    ensures out == Write(codec, v, pretty, 0)
  {
    var b := new Buffer();
    EmitValue(b, codec, v, pretty, 0);
    out := b.text;
    assert "" + Write(codec, v, pretty, 0) == Write(codec, v, pretty, 0);
  }
}
