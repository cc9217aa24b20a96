/** Strict Base64 (src/util.c). Sections 3.5 and 4 of RFC 4648. */
module Base64 {
  import opened Text

  type Byte = b: int | 0 <= b < 256

  // ---- the alphabet -----------------------------------------------------------------------

  /** b64_alpha, written by its five ranges. */
  function Char(v: int): (c: char)
    requires 0 <= v < 64
    ensures ValueOf(c) == v && c != '='
  {
    if v < 26 then ('A' as int + v) as char
    else if v < 52 then ('a' as int + v - 26) as char
    else if v < 62 then ('0' as int + v - 52) as char
    else if v == 62 then '+'
    else '/'
  }

  /** b64_val */
  function ValueOf(c: char): (v: int)
    ensures -1 <= v < 64
  {
    if 'A' <= c <= 'Z' then c as int - 'A' as int
    else if 'a' <= c <= 'z' then c as int - 'a' as int + 26
    else if '0' <= c <= '9' then c as int - '0' as int + 52
    else if c == '+' then 62
    else if c == '/' then 63
    else -1
  }

  lemma {:induction false} CharOf(c: char)
    requires ValueOf(c) >= 0
    ensures Char(ValueOf(c)) == c
  {
  }

  // ---- encoding -----------------------------------------------------------------------------

  function Three(a: Byte, b: Byte, c: Byte): string {
    var v := (a * 256 + b) * 256 + c;
    [Char(v / 262144), Char(v / 4096 % 64), Char(v / 64 % 64), Char(v % 64)]
  }

  function Two(a: Byte, b: Byte): string {
    var v := (a * 256 + b) * 256;
    [Char(v / 262144), Char(v / 4096 % 64), Char(v / 64 % 64), '=']
  }

  function One(a: Byte): string {
    var v := a * 65536;
    [Char(v / 262144), Char(v / 4096 % 64), '=', '=']
  }

  function Encode(data: seq<Byte>): string {
    if |data| >= 3 then Three(data[0], data[1], data[2]) + Encode(data[3..])
    else if |data| == 2 then Two(data[0], data[1])
    else if |data| == 1 then One(data[0])
    else ""
  }

  method EncodeBytes(data: seq<Byte>) returns (out: string)
    ensures out == Encode(data)
  {
    hide Three, Two, One;
    out := "";
    var i := 0;
    assert data[0..] == data;
    while i + 3 <= |data|
      invariant 0 <= i <= |data| && out + Encode(data[i..]) == Encode(data)
    {
      EncodeStep(out, data, i);
      out := out + Three(data[i], data[i + 1], data[i + 2]);
      i := i + 3;
    }
    if |data| - i == 1 {
      out := out + One(data[i]);
    } else if |data| - i == 2 {
      out := out + Two(data[i], data[i + 1]);
    } else {
      assert out + "" == out;
    }
  }

  lemma {:induction false} EncodeStep(out: string, data: seq<Byte>, i: nat)
    requires i + 3 <= |data|
    ensures out + Encode(data[i..]) == out + Three(data[i], data[i + 1], data[i + 2]) + Encode(data[i + 3..])
  {
  }

  // ---- decoding -------------------------------------------------------------------------------

  function Padding(s: string): (pad: nat)
    requires |s| >= 4
    ensures pad <= 2
  {
    if s[|s| - 1] != '=' then 0 else if s[|s| - 2] == '=' then 2 else 1
  }

  /** The first n characters are in the alphabet. */
  predicate Alphabetic(s: string, n: int) { n <= |s| && forall i :: 0 <= i < n ==> ValueOf(s[i]) >= 0 }

  function Full(s: string): seq<Byte>
    requires |s| == 4 && Alphabetic(s, 4)
  {
    var v := ((ValueOf(s[0]) * 64 + ValueOf(s[1])) * 64 + ValueOf(s[2])) * 64 + ValueOf(s[3]);
    [v / 65536, v / 256 % 256, v % 256]
  }

  /** The last group of a padded text; trailing bits must be zero. */
  function Last(s: string, pad: nat): Option<seq<Byte>>
    requires |s| == 4 && 1 <= pad <= 2 && Alphabetic(s, 4 - pad)
  {
    var a, b := ValueOf(s[0]), ValueOf(s[1]);
    if pad == 1 then
      var c := ValueOf(s[2]);
      if c % 4 != 0 then None
      else
        var v := ((a * 64 + b) * 64 + c) * 64;
        Some([v / 65536, v / 256 % 256])
    else if b % 16 != 0 then None
    else Some([(a * 64 + b) * 4096 / 65536])
  }

  function Groups(s: string, pad: nat): Option<seq<Byte>>
    requires |s| % 4 == 0 && |s| > 0 && pad <= 2 && Alphabetic(s, |s| - pad)
  {
    if |s| == 4 then
      if pad == 0 then Some(Full(s)) else Last(s, pad)
    else
      match Groups(s[4..], pad) case None => None case Some(rest) => Some(Full(s[..4]) + rest)
  }

  /** astools_base64_decode */
  function Decode(s: string): Option<seq<Byte>> {
    if |s| % 4 != 0 then None
    else if s == "" then Some([])
    else if !Alphabetic(s, |s| - Padding(s)) then None
    else Groups(s, Padding(s))
  }

  method DecodeText(s: string) returns (r: Option<seq<Byte>>)
    ensures r == Decode(s)
  {
    hide Groups, Padding, ValueOf;
    var n := |s|;
    if n % 4 != 0 {
      return None;
    }
    if n == 0 {
      return Some([]);
    }
    var pad := Padding(s);
    for i := 0 to n - pad
      invariant Alphabetic(s, i)
    {
      if ValueOf(s[i]) < 0 {
        return None;
      }
    }
    r := DecodeGroups(s, pad);
  }

  method DecodeGroups(s: string, pad: nat) returns (r: Option<seq<Byte>>)
    requires |s| % 4 == 0 && |s| > 0 && pad <= 2 && Alphabetic(s, |s| - pad)
    ensures r == Groups(s, pad)
  {
    hide Groups, Full, Last, Alphabetic;
    var buf, i := [], 0;
    assert s[0..] == s;
    PrependNone(Groups(s, pad));
    while i + 4 < |s|
      invariant 0 <= i < |s| && i % 4 == 0
      invariant Alphabetic(s[i..], |s| - i - pad)
      invariant Groups(s, pad) == Prepend(buf, Groups(s[i..], pad))
    {
      Slices(s, i);
      GroupStep(buf, s[i..], pad);
      buf := buf + Full(s[i..i + 4]);
      i := i + 4;
    }
    LastGroup(s[i..], pad);
    if pad == 0 {
      return Some(buf + Full(s[i..]));
    }
    var last := Last(s[i..], pad);
    return if last.Some? then Some(buf + last.value) else None;
  }

  lemma {:induction false} Slices(s: string, i: nat)
    requires i + 4 <= |s|
    ensures s[i..][..4] == s[i..i + 4] && s[i..][4..] == s[i + 4..]
  {
  }

  function Prepend(buf: seq<Byte>, r: Option<seq<Byte>>): Option<seq<Byte>> {
    match r case None => None case Some(rest) => Some(buf + rest)
  }

  lemma {:induction false} PrependNone(r: Option<seq<Byte>>)
    ensures Prepend([], r) == r
  {
    if r.Some? {
      assert [] + r.value == r.value;
    }
  }

  lemma {:induction false} GroupStep(buf: seq<Byte>, t: string, pad: nat)
    requires |t| % 4 == 0 && |t| > 4 && pad <= 2 && Alphabetic(t, |t| - pad)
    ensures Alphabetic(t[..4], 4) && Alphabetic(t[4..], |t| - 4 - pad)
    ensures Prepend(buf, Groups(t, pad)) == Prepend(buf + Full(t[..4]), Groups(t[4..], pad))
  {
    hide Full, Last, ValueOf;
    var rest := Groups(t[4..], pad);
    if rest.Some? {
      assert buf + (Full(t[..4]) + rest.value) == buf + Full(t[..4]) + rest.value;
    }
  }

  lemma {:induction false} LastGroup(t: string, pad: nat)
    requires |t| == 4 && pad <= 2 && Alphabetic(t, 4 - pad)
    ensures Groups(t, pad) == if pad == 0 then Some(Full(t)) else Last(t, pad)
  {
  }

  // ---- a bijection --------------------------------------------------------------------------------

  /** Splitting three bytes into sextets and joining them again. */
  lemma {:induction false} Sextets(v: int)
    requires 0 <= v < 16777216
    ensures 0 <= v / 262144 < 64 && ((v / 262144 * 64 + v / 4096 % 64) * 64 + v / 64 % 64) * 64 + v % 64 == v
  {
    assert v / 64 == v / 4096 * 64 + v / 64 % 64;
    assert v / 4096 == v / 262144 * 64 + v / 4096 % 64;
  }

  lemma {:induction false} Bytes3(a: Byte, b: Byte, c: Byte)
    ensures var v := (a * 256 + b) * 256 + c; v / 65536 == a && v / 256 % 256 == b && v % 256 == c
  {
  }

  lemma {:induction false} ThreeBack(a: Byte, b: Byte, c: Byte)
    ensures var s := Three(a, b, c); |s| == 4 && Alphabetic(s, 4) && s[3] != '=' && Full(s) == [a, b, c]
  {
    hide ValueOf, Char;
    Sextets((a * 256 + b) * 256 + c);
    Bytes3(a, b, c);
  }

  lemma {:induction false} TwoBack(a: Byte, b: Byte)
    ensures var s := Two(a, b); |s| == 4 && Alphabetic(s, 3) && s[3] == '=' && s[2] != '=' && Last(s, 1) == Some([a, b])
  {
    hide ValueOf, Char;
    TwoNumbers(a, b, (a * 256 + b) * 256);
  }

  lemma {:induction false} TwoNumbers(a: Byte, b: Byte, v: int)
    requires v == (a * 256 + b) * 256
    ensures 0 <= v / 262144 < 64 && ((v / 262144 * 64 + v / 4096 % 64) * 64 + v / 64 % 64) * 64 == v
    ensures v / 64 % 64 % 4 == 0 && v / 65536 == a && v / 256 % 256 == b
  {
    Sextets(v);
    Bytes3(a, b, 0);
    LowBits(v);
    assert v == 64 * (v / 64);
  }

  /** With a zero low byte the last two sextets end in zeros. */
  lemma {:induction false} LowBits(v: int)
    requires 0 <= v && v % 256 == 0
    ensures v / 64 % 64 % 4 == 0
  {
    var k := v / 256;
    assert v / 64 == 4 * k;
  }

  lemma {:induction false} OneBack(a: Byte)
    ensures var s := One(a); |s| == 4 && Alphabetic(s, 2) && s[3] == '=' && s[2] == '=' && Last(s, 2) == Some([a])
  {
    hide ValueOf, Char;
    var v := a * 65536;
    Sextets(v);
    assert v / 4096 == 16 * a;
    assert v / 4096 % 64 % 16 == 0;
  }

  function Missing(n: nat): nat { if n % 3 == 0 then 0 else 3 - n % 3 }

  /** The shape of an encoding of n bytes. */
  predicate Shaped(s: string, n: nat) {
    |s| % 4 == 0 && (n > 0 ==> |s| >= 4 && Padding(s) == Missing(n) && Alphabetic(s, |s| - Padding(s)))
  }

  /** A full group in front leaves the padding where it is. */
  lemma {:induction false} GroupShape(group: string, rest: string, n: nat)
    requires |group| == 4 && Alphabetic(group, 4) && n > 0 && Shaped(rest, n)
    ensures Shaped(group + rest, n + 3)
  {
    hide ValueOf;
  }

  lemma {:induction false} LastShape(data: seq<Byte>)
    requires 1 <= |data| <= 3
    ensures Shaped(Encode(data), |data|)
  {
    hide ValueOf, Three, Two, One;
    if |data| == 3 {
      ThreeBack(data[0], data[1], data[2]);
      assert Encode(data[3..]) == "";
      assert Encode(data) == Three(data[0], data[1], data[2]);
    } else if |data| == 2 {
      TwoBack(data[0], data[1]);
    } else {
      OneBack(data[0]);
    }
  }

  lemma {:induction false} EncodeFront(data: seq<Byte>)
    requires |data| >= 3
    ensures Encode(data) == Three(data[0], data[1], data[2]) + Encode(data[3..])
  {
  }

  lemma {:induction false} EncodeShape(data: seq<Byte>)
    requires data != []
    ensures Shaped(Encode(data), |data|)
  {
    hide Encode, Shaped, Alphabetic, Full, Three;
    if |data| > 3 {
      EncodeShape(data[3..]);
      ThreeBack(data[0], data[1], data[2]);
      GroupShape(Three(data[0], data[1], data[2]), Encode(data[3..]), |data[3..]|);
      EncodeFront(data);
    } else {
      LastShape(data);
    }
  }

  lemma {:induction false} GroupsBack(data: seq<Byte>)
    requires data != []
    requires var s := Encode(data); |s| % 4 == 0 && |s| > 0 && Alphabetic(s, |s| - Padding(s))
    ensures Groups(Encode(data), Padding(Encode(data))) == Some(data)
  {
    hide Three, Two, One, Full, Last;
    EncodeShape(data);
    if |data| > 3 {
      var group, rest := Three(data[0], data[1], data[2]), Encode(data[3..]);
      EncodeShape(data[3..]);
      ThreeBack(data[0], data[1], data[2]);
      GroupsBack(data[3..]);
      var s := group + rest;
      assert s[..4] == group && s[4..] == rest;
      assert Padding(s) == Padding(rest);
      assert data == [data[0], data[1], data[2]] + data[3..];
    } else if |data| == 3 {
      ThreeBack(data[0], data[1], data[2]);
      assert Encode(data[3..]) == "";
      assert Encode(data) == Three(data[0], data[1], data[2]);
      assert data == [data[0], data[1], data[2]];
    } else if |data| == 2 {
      TwoBack(data[0], data[1]);
      assert data == [data[0], data[1]];
    } else {
      OneBack(data[0]);
      assert data == [data[0]];
    }
  }

  /** Decoding an encoding returns the bytes. */
  lemma {:induction false} DecodeEncode(data: seq<Byte>)
    ensures Decode(Encode(data)) == Some(data)
  {
    if data != [] {
      EncodeShape(data);
      GroupsBack(data);
    }
  }

  lemma {:induction false} FullBack(s: string)
    requires |s| == 4 && Alphabetic(s, 4)
    ensures var d := Full(s); |d| == 3 && Three(d[0], d[1], d[2]) == s
  {
    hide ValueOf, Char;
    var a, b, c, e := ValueOf(s[0]), ValueOf(s[1]), ValueOf(s[2]), ValueOf(s[3]);
    Joined(a, b, c, e);
    CharOf(s[0]);
    CharOf(s[1]);
    CharOf(s[2]);
    CharOf(s[3]);
  }

  /** Sextets come back from the number they form, and bytes too. */
  lemma {:induction false} Joined(a: int, b: int, c: int, e: int)
    requires 0 <= a < 64 && 0 <= b < 64 && 0 <= c < 64 && 0 <= e < 64
    ensures var v := ((a * 64 + b) * 64 + c) * 64 + e;
            && v / 262144 == a && v / 4096 % 64 == b && v / 64 % 64 == c && v % 64 == e
            && (v / 65536 * 256 + v / 256 % 256) * 256 + v % 256 == v && 0 <= v < 16777216
  {
    var v := ((a * 64 + b) * 64 + c) * 64 + e;
    assert v / 64 == (a * 64 + b) * 64 + c;
    assert v / 4096 == a * 64 + b;
    assert v / 256 == v / 65536 * 256 + v / 256 % 256;
  }

  lemma {:induction false} LastBack(s: string, pad: nat)
    requires |s| == 4 && 1 <= pad <= 2 && Alphabetic(s, 4 - pad) && Last(s, pad).Some?
    requires s[3] == '=' && (pad == 2 ==> s[2] == '=')
    ensures var d := Last(s, pad).value; |d| == 3 - pad && Encode(d) == s
  {
    hide ValueOf, Char;
    var a, b := ValueOf(s[0]), ValueOf(s[1]);
    CharOf(s[0]);
    CharOf(s[1]);
    if pad == 1 {
      CharOf(s[2]);
      Joined(a, b, ValueOf(s[2]), 0);
      TailZero(a, b, ValueOf(s[2]));
    } else {
      Joined(a, b, 0, 0);
      HeadZero(a, b);
    }
  }

  lemma {:induction false} TailZero(a: int, b: int, c: int)
    requires 0 <= a < 64 && 0 <= b < 64 && 0 <= c < 64 && c % 4 == 0
    ensures (((a * 64 + b) * 64 + c) * 64) % 256 == 0
  {
  }

  lemma {:induction false} HeadZero(a: int, b: int)
    requires 0 <= a < 64 && 0 <= b < 64 && b % 16 == 0
    ensures (a * 64 + b) * 4096 / 65536 * 65536 == (a * 64 + b) * 4096
  {
  }

  lemma {:induction false} GroupsForth(s: string, pad: nat)
    requires |s| % 4 == 0 && |s| > 0 && pad == Padding(s) && Alphabetic(s, |s| - pad) && Groups(s, pad).Some?
    ensures Encode(Groups(s, pad).value) == s
  {
    hide Three, Two, One, Full, Last, ValueOf;
    if |s| == 4 {
      if pad == 0 {
        assert s[..4] == s;
        FullBack(s);
        assert Encode(Full(s)[3..]) == "";
      } else {
        LastBack(s, pad);
      }
    } else {
      FullBack(s[..4]);
      GroupsForth(s[4..], pad);
      var head, rest := Full(s[..4]), Groups(s[4..], pad).value;
      var d := head + rest;
      assert d[0] == head[0] && d[1] == head[1] && d[2] == head[2] && d[3..] == rest;
      assert s == s[..4] + s[4..];
    }
  }

  /** Any accepted text is the encoding of what it decodes to. */
  lemma {:induction false} EncodeDecode(s: string)
    requires Decode(s).Some?
    ensures Encode(Decode(s).value) == s
  {
    if s != "" {
      GroupsForth(s, Padding(s));
    }
  }
}
