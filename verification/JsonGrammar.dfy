/** The texts that the reader accepts and the values it gives them, by the grammar of RFC 8259
    and without the reader (src/json.c). */
module JsonGrammar {
  import opened Text
  import opened Utf8
  import opened Json
  import opened JsonRoundTrip

  // ---- numbers: section 6 ------------------------------------------------------------------

  predicate SomeNumber(s: string) { s != "" && AllDigits(s) }

  predicate IntegerText(s: string) {
    var d := if s != "" && s[0] == '-' then s[1..] else s;
    d == "0" || (SomeNumber(d) && d[0] != '0')
  }

  predicate FractionText(s: string) { s == "" || (s[0] == '.' && SomeNumber(s[1..])) }

  predicate ExponentText(s: string) {
    s == ""
    || ((s[0] == 'e' || s[0] == 'E') && SomeNumber(if |s| > 1 && (s[1] == '+' || s[1] == '-') then s[2..] else s[1..]))
  }

  ghost predicate NumberText(s: string) {
    exists i: nat, j: nat :: i <= j <= |s| && IntegerText(s[..i]) && FractionText(s[i..j]) && ExponentText(s[j..])
  }

  function Decimal(i: int): string { if i < 0 then "-" + Numeral(-i) else Numeral(i) }

  // ---- strings: section 7 --------------------------------------------------------------------

  const LOWER := "0123456789abcdef"
  const UPPER := "0123456789ABCDEF"

  predicate HexOf(c: char, v: int) { 0 <= v < 16 && (LOWER[v] == c || UPPER[v] == c) }

  ghost predicate Code(s: string, u: int) {
    exists a, b, c, d ::
      |s| == 4 && HexOf(s[0], a) && HexOf(s[1], b) && HexOf(s[2], c) && HexOf(s[3], d) && u == 4096 * a + 256 * b + 16 * c + d
  }

  /** The escape letters and the code points they stand for. */
  const LETTERS := "\"\\/bfnrt"
  const MEANINGS := [0x22, 0x5C, 0x2F, 0x08, 0x0C, 0x0A, 0x0D, 0x09]

  /** A character as it is: no control character, quotation mark or reverse solidus. */
  predicate Unescaped(cp: int) { Scalar(cp) && cp >= 0x20 && cp != 0x22 && cp != 0x5C }

  /** The text piece stands for the bytes out. */
  ghost predicate Piece(piece: string, out: string) {
    || (exists cp :: Unescaped(cp) && piece == Encode(cp) && out == piece)
    || (|piece| == 2 && piece[0] == '\\' && |out| == 1 && exists k :: 0 <= k < 8 && LETTERS[k] == piece[1] && MEANINGS[k] == out[0] as int)
    || (|piece| == 6 && piece[0] == '\\' && piece[1] == 'u'
        && exists u :: Code(piece[2..], u) && Scalar(u) && out == Encode(u))
    || (|piece| == 12 && piece[0] == '\\' && piece[1] == 'u' && piece[6] == '\\' && piece[7] == 'u'
        && exists h, l :: Code(piece[2..6], h) && Code(piece[8..], l) && 0xD800 <= h < 0xDC00 && 0xDC00 <= l < 0xE000
                          && out == Encode(0x10000 + (h - 0xD800) * 0x400 + (l - 0xDC00)))
  }

  ghost predicate Decoded(raw: string, out: string)
    decreases |raw|
  {
    if raw == "" then out == ""
    else exists n: nat, k: nat :: 0 < n <= |raw| && k <= |out| && Piece(raw[..n], out[..k]) && Decoded(raw[n..], out[k..])
  }

  ghost predicate Quoted(text: string, s: string) {
    |s| >= 2 && s[0] == '"' && s[|s| - 1] == '"' && Decoded(s[1..|s| - 1], text)
  }

  // ---- values: sections 3 to 5 -----------------------------------------------------------------

  /** s spells v, standing inside depth arrays and objects. A number is an integer if it is
      spelled as one in range, and what the number codec reads otherwise; at most 64 levels;
      the names of an object are distinct and hold no NUL. */
  ghost predicate Denotes(codec: Codec, v: Json, depth: nat, s: string)
    decreases |s|, 0
  {
    match v
    case Null => s == "null"
    case Bool(b) => s == if b then "true" else "false"
    case Whole(i) => InInt64(i) && s == Decimal(i)
    case Fraction(d) => NumberText(s) && (forall i :: InInt64(i) ==> s != Decimal(i)) && codec.read(s) == Some(d)
    case Str(t) => Quoted(t, s)
    case Arr(items) =>
      && depth < 64 && |s| >= 2 && s[0] == '[' && s[|s| - 1] == ']'
      && var inner := s[1..|s| - 1]; if items == [] then AllBlank(inner) else ItemsText(codec, items, depth + 1, inner)
    case Obj(members) =>
      && depth < 64 && |s| >= 2 && s[0] == '{' && s[|s| - 1] == '}' && NamesOk(members)
      && var inner := s[1..|s| - 1]; if members == [] then AllBlank(inner) else MembersText(codec, members, depth + 1, inner)
  }

  /** A value between blanks. */
  ghost predicate Padded(codec: Codec, v: Json, depth: nat, s: string)
    decreases |s|, 1
  {
    exists a: nat, b: nat :: a <= b <= |s| && AllBlank(s[..a]) && Denotes(codec, v, depth, s[a..b]) && AllBlank(s[b..])
  }

  /** Values separated by commas. */
  ghost predicate ItemsText(codec: Codec, items: seq<Json>, depth: nat, s: string)
    requires items != []
    decreases |s|, 3
  {
    exists cut: nat :: ItemsAt(codec, items, depth, s, cut)
  }

  ghost predicate ItemsAt(codec: Codec, items: seq<Json>, depth: nat, s: string, cut: nat)
    requires items != []
    decreases |s|, 2
  {
    && cut <= |s| && Padded(codec, items[0], depth, s[..cut])
    && if |items| == 1 then cut == |s| else cut < |s| && s[cut] == ',' && ItemsText(codec, items[1..], depth, s[cut + 1..])
  }

  ghost predicate NameText(key: string, s: string) {
    exists a: nat, b: nat :: a <= b <= |s| && AllBlank(s[..a]) && Quoted(key, s[a..b]) && AllBlank(s[b..])
  }

  /** Names and values separated by colons and commas. */
  ghost predicate MembersText(codec: Codec, members: seq<Member>, depth: nat, s: string)
    requires members != []
    decreases |s|, 3
  {
    exists colon: nat, cut: nat :: MembersAt(codec, members, depth, s, colon, cut)
  }

  ghost predicate MembersAt(codec: Codec, members: seq<Member>, depth: nat, s: string, colon: nat, cut: nat)
    requires members != []
    decreases |s|, 2
  {
    && colon < cut <= |s| && s[colon] == ':'
    && NameText(members[0].key, s[..colon]) && Padded(codec, members[0].value, depth, s[colon + 1..cut])
    && if |members| == 1 then cut == |s| else cut < |s| && s[cut] == ',' && MembersText(codec, members[1..], depth, s[cut + 1..])
  }

  ghost predicate NamesOk(members: seq<Member>) {
    && (forall i :: 0 <= i < |members| ==> !Contains(members[i].key, 0 as char))
    && (forall i, j :: 0 <= i < j < |members| ==> members[i].key != members[j].key)
  }

  // ---- the reader's strings ------------------------------------------------------------------------

  lemma {:induction false} HexExactly(c: char, v: int)
    ensures HexOf(c, v) <==> HexDigit(c) == Some(v)
  {
  }

  lemma {:induction false} CodeRead(s: string, u: int)
    requires Code(s, u)
    ensures |s| == 4 && Hex4(s) == Some(u)
  {
    hide HexOf, Hex4, HexDigit;
    var a, b, c, d :| HexOf(s[0], a) && HexOf(s[1], b) && HexOf(s[2], c) && HexOf(s[3], d) && u == 4096 * a + 256 * b + 16 * c + d;
    HexExactly(s[0], a);
    HexExactly(s[1], b);
    HexExactly(s[2], c);
    HexExactly(s[3], d);
    CodeOf(s, a, b, c, d);
  }

  lemma {:induction false} CodeOf(s: string, a: nat, b: nat, c: nat, d: nat)
    requires |s| >= 4 && HexDigit(s[0]) == Some(a) && HexDigit(s[1]) == Some(b) && HexDigit(s[2]) == Some(c) && HexDigit(s[3]) == Some(d)
    ensures Hex4(s) == Some(4096 * a + 256 * b + 16 * c + d)
  {
    hide HexDigit;
  }

  lemma {:induction false} CodeFound(s: string)
    requires Hex4(s).Some?
    ensures Code(s[..4], Hex4(s).value)
  {
    var a, b, c, d := HexDigit(s[0]).value, HexDigit(s[1]).value, HexDigit(s[2]).value, HexDigit(s[3]).value;
    HexExactly(s[0], a);
    HexExactly(s[1], b);
    HexExactly(s[2], c);
    HexExactly(s[3], d);
    hide HexOf, HexDigit;
    var t := s[..4];
    assert HexOf(t[0], a) && HexOf(t[1], b) && HexOf(t[2], c) && HexOf(t[3], d);
  }

  lemma {:induction false} CodeAlone(s: string)
    requires |s| >= 4
    ensures Hex4(s) == Hex4(s[..4])
  {
  }

  /** What the reader takes as one character: the bytes and what follows. */
  function One(s: string): (r: Option<(string, string)>)
    requires s != ""
    ensures r.Some? ==> |r.value.1| < |s|
  {
    if s[0] == '\\' then Escape(s[1..])
    else if s[0] as int < 0x20 || SeqLen(s) == 0 then None
    else Some((s[..SeqLen(s)], s[SeqLen(s)..]))
  }

  lemma {:induction false} OneStep(s: string, acc: string)
    requires s != "" && s[0] != '"'
    ensures ReadString(s, acc) == match One(s) case None => None case Some((bytes, rest)) => ReadString(rest, acc + bytes)
  {
    hide Escape, SeqLen;
  }

  lemma {:induction false} LetterExactly(c: char, m: char)
    ensures SimpleEscape(c) == Some(m) <==> exists k :: 0 <= k < 8 && LETTERS[k] == c && MEANINGS[k] == m as int
  {
    assert |LETTERS| == 8 == |MEANINGS|;
    if SimpleEscape(c) == Some(m) {
      var k := if c == '"' then 0 else if c == '\\' then 1 else if c == '/' then 2 else if c == 'b' then 3
               else if c == 'f' then 4 else if c == 'n' then 5 else if c == 'r' then 6 else 7;
      assert LETTERS[k] == c && MEANINGS[k] == m as int;
    }
  }

  // ---- from a piece to what is read

  lemma {:induction false} PlainRead(cp: int, rest: string)
    requires Unescaped(cp)
    ensures var e := Encode(cp); (e + rest)[0] != '"' && One(e + rest) == Some((e, rest))
  {
    var e := Encode(cp);
    EncodeAccepted(cp);
    SeqLenLocal(e, rest);
    PlainFirst(cp);
    hide Encode, SeqLen;
    assert (e + rest)[..|e|] == e && (e + rest)[|e|..] == rest;
  }

  lemma {:induction false} PlainFirst(cp: int)
    requires Unescaped(cp)
    ensures var e := Encode(cp); e[0] as int >= 0x20 && e[0] != '"' && e[0] != '\\'
  {
  }

  lemma {:induction false} LetterRead(piece: string, out: string, rest: string, k: int)
    requires |piece| == 2 && piece[0] == '\\' && |out| == 1 && 0 <= k < 8 && LETTERS[k] == piece[1] && MEANINGS[k] == out[0] as int
    ensures One(piece + rest) == Some((out, rest))
  {
    LetterExactly(piece[1], out[0]);
    LetterNotU(k);
    hide SimpleEscape;
    var t := piece + rest;
    assert t[0] == '\\' && t[1..][0] == piece[1] && t[1..][1..] == rest && out == [out[0]];
  }

  lemma {:induction false} LetterNotU(k: int)
    requires 0 <= k < 8
    ensures LETTERS[k] != 'u'
  {
  }

  lemma {:induction false} UnicodeRead(piece: string, rest: string, u: int)
    requires |piece| == 6 && piece[0] == '\\' && piece[1] == 'u' && Code(piece[2..], u) && Scalar(u)
    ensures One(piece + rest) == Some((Encode(u), rest))
  {
    CodeRead(piece[2..], u);
    hide Hex4, Code, Encode;
    var t := piece + rest;
    assert t[1..][1..] == piece[2..] + rest;
    CodeAlone(piece[2..] + rest);
    assert (piece[2..] + rest)[..4] == piece[2..] && (piece[2..] + rest)[4..] == rest;
  }

  lemma {:induction false} PairRead(piece: string, rest: string, h: int, l: int)
    requires |piece| == 12 && piece[0] == '\\' && piece[1] == 'u' && piece[6] == '\\' && piece[7] == 'u'
    requires Code(piece[2..6], h) && Code(piece[8..], l) && 0xD800 <= h < 0xDC00 && 0xDC00 <= l < 0xE000
    ensures One(piece + rest) == Some((Encode(Combine(h, l)), rest))
  {
    CodeRead(piece[2..6], h);
    CodeRead(piece[8..], l);
    CombineScalar(h, l);
    hide Hex4, Code, Encode, LowHalf, Combine;
    PairSlices(piece, rest);
    CodeAlone(piece[2..] + rest);
    SecondRead(piece[6..] + rest, h, l);
    assert UnicodeEscape(piece[2..] + rest) == LowHalf(h, piece[6..] + rest);
  }

  lemma {:induction false} SecondRead(s: string, h: int, l: int)
    requires |s| >= 6 && s[0] == '\\' && s[1] == 'u' && Hex4(s[2..][..4]) == Some(l) && High(h) && Low(l)
    ensures Scalar(Combine(h, l)) && LowHalf(h, s) == Some((Encode(Combine(h, l)), s[6..]))
  {
    CodeAlone(s[2..]);
    CombineScalar(h, l);
    hide Hex4, Encode, Combine;
  }

  lemma {:induction false} PairSlices(piece: string, rest: string)
    requires |piece| == 12
    ensures (piece + rest)[1..][1..] == piece[2..] + rest && (piece + rest)[0] == piece[0] && (piece + rest)[1..][0] == piece[1]
    ensures (piece[2..] + rest)[..4] == piece[2..6] && (piece[2..] + rest)[4..] == piece[6..] + rest
    ensures (piece[6..] + rest)[0] == piece[6] && (piece[6..] + rest)[1] == piece[7] && (piece[6..] + rest)[2..] == piece[8..] + rest
    ensures (piece[8..] + rest)[..4] == piece[8..] && (piece[6..] + rest)[6..] == rest
  {
  }

  lemma {:induction false} PieceRead(piece: string, out: string, rest: string)
    requires Piece(piece, out)
    ensures piece != "" && (piece + rest)[0] != '"' && One(piece + rest) == Some((out, rest))
  {
    hide One, Code, Encode;
    if cp :| Unescaped(cp) && piece == Encode(cp) && out == piece {
      PlainRead(cp, rest);
    } else if |piece| == 2 {
      var k :| 0 <= k < 8 && LETTERS[k] == piece[1] && MEANINGS[k] == out[0] as int;
      LetterRead(piece, out, rest, k);
    } else if |piece| == 6 {
      var u :| Code(piece[2..], u) && Scalar(u) && out == Encode(u);
      UnicodeRead(piece, rest, u);
    } else {
      var h, l :| Code(piece[2..6], h) && Code(piece[8..], l) && 0xD800 <= h < 0xDC00 && 0xDC00 <= l < 0xE000
                  && out == Encode(0x10000 + (h - 0xD800) * 0x400 + (l - 0xDC00));
      PairRead(piece, rest, h, l);
    }
  }

  // ---- from what is read to a piece

  lemma {:induction false} OneFound(s: string)
    requires s != "" && s[0] != '"' && One(s).Some?
    ensures var (out, rest) := One(s).value;
            var n := |s| - |rest|;
            0 < n && s[n..] == rest && Piece(s[..n], out)
  {
    hide Piece, Escape, SeqLen;
    if s[0] == '\\' {
      EscapeFound(s);
    } else {
      PlainFound(s);
    }
  }

  lemma {:induction false} PlainFound(s: string)
    requires s != "" && s[0] != '"' && s[0] != '\\' && s[0] as int >= 0x20 && SeqLen(s) > 0
    ensures Piece(s[..SeqLen(s)], s[..SeqLen(s)])
  {
    var t := s[..SeqLen(s)];
    SeqLenPrefix(s);
    AcceptedEncodes(t);
    FirstPlain(Decode(t));
    hide Encode, Decode, SeqLen;
    assert t[0] == s[0];
    assert Unescaped(Decode(t)) && t == Encode(Decode(t));
  }

  lemma {:induction false} FirstPlain(cp: int)
    requires Scalar(cp)
    ensures var e := Encode(cp); e[0] as int >= 0x20 && e[0] != '"' && e[0] != '\\' ==> Unescaped(cp)
  {
  }

  lemma {:induction false} EscapeFound(s: string)
    requires s != "" && s[0] == '\\' && Escape(s[1..]).Some?
    ensures var (out, rest) := Escape(s[1..]).value;
            var n := |s| - |rest|;
            0 < n && s[n..] == rest && Piece(s[..n], out)
  {
    var t := s[1..];
    if t[0] == 'u' {
      CodeFound(t[1..]);
      var cp := Hex4(t[1..]).value;
      hide Hex4, Code, Encode;
      if High(cp) {
        PairFound(s, cp);
      } else {
        assert s[..6][2..] == t[1..][..4] && s[6..] == t[1..][4..];
        assert Code(s[..6][2..], cp) && Scalar(cp);
      }
    } else {
      LetterExactly(t[0], SimpleEscape(t[0]).value);
      assert s[..2][1] == t[0] && s[2..] == t[1..];
    }
  }

  lemma {:induction false} PairFound(s: string, cp: int)
    requires |s| >= 6 && s[0] == '\\' && s[1] == 'u' && High(cp) && Hex4(s[2..]) == Some(cp) && LowHalf(cp, s[6..]).Some?
    ensures var (out, rest) := LowHalf(cp, s[6..]).value;
            |s| == |rest| + 12 && s[12..] == rest && Piece(s[..12], out)
  {
    var t := s[6..];
    CodeFound(s[2..]);
    CodeFound(t[2..]);
    var low := Hex4(t[2..]).value;
    CombineScalar(cp, low);
    assert LowHalf(cp, t) == Some((Encode(Combine(cp, low)), t[6..]));
    hide Hex4, Code, Encode, LowHalf;
    PairPiece(s, cp, low);
  }

  lemma {:induction false} PairPiece(s: string, h: int, l: int)
    requires |s| >= 12 && s[0] == '\\' && s[1] == 'u' && s[6] == '\\' && s[7] == 'u'
    requires Code(s[2..][..4], h) && Code(s[6..][2..][..4], l) && High(h) && Low(l)
    ensures Scalar(Combine(h, l)) && Piece(s[..12], Encode(Combine(h, l))) && s[12..] == s[6..][6..]
  {
    CombineScalar(h, l);
    hide Code, Encode;
    var p := s[..12];
    assert p[2..6] == s[2..][..4] && p[8..] == s[6..][2..][..4];
    assert Code(p[2..6], h) && Code(p[8..], l);
  }

  // ---- whole strings

  lemma {:induction false} StringRead(raw: string, out: string, rest: string, acc: string)
    requires Decoded(raw, out)
    ensures ReadString(raw + "\"" + rest, acc) == Some((acc + out, rest))
    decreases |raw|
  {
    hide Piece, One, Escape, SeqLen;
    if raw == "" {
      assert raw + "\"" + rest == ['"'] + rest && (['"'] + rest)[1..] == rest && acc + out == acc;
    } else {
      var n: nat, k: nat :| 0 < n <= |raw| && k <= |out| && Piece(raw[..n], out[..k]) && Decoded(raw[n..], out[k..]);
      var tail := raw[n..] + "\"" + rest;
      PieceRead(raw[..n], out[..k], tail);
      assert raw[..n] + tail == raw + "\"" + rest;
      OneStep(raw + "\"" + rest, acc);
      StringRead(raw[n..], out[k..], rest, acc + out[..k]);
      assert acc + out[..k] + out[k..] == acc + out;
    }
  }

  lemma {:induction false} StringFound(s: string, acc: string)
    requires ReadString(s, acc).Some?
    ensures var (all, rest) := ReadString(s, acc).value;
            var n := |s| - |rest| - 1;
            && 0 <= n && s[n] == '"' && s[n + 1..] == rest && acc <= all && Decoded(s[..n], all[|acc|..])
    decreases |s|
  {
    hide Piece, One, Escape, SeqLen;
    if s[0] == '"' {
      assert s[..0] == "" && acc[|acc|..] == "";
    } else {
      OneStep(s, acc);
      OneFound(s);
      var (bytes, rest) := One(s).value;
      StringFound(rest, acc + bytes);
      StringPut(s, acc, bytes, rest);
    }
  }

  lemma {:induction false} StringWhole(s: string)
    requires ReadString(s, "").Some?
    ensures var (text, rest) := ReadString(s, "").value;
            var n := |s| - |rest| - 1;
            0 <= n && s[n] == '"' && s[n + 1..] == rest && Decoded(s[..n], text)
  {
    hide *;
    StringFound(s, "");
    var text := ReadString(s, "").value.0;
    assert text[|""|..] == text;
  }

  lemma {:induction false} StringPut(s: string, acc: string, bytes: string, mid: string)
    requires |mid| < |s| && mid == s[|s| - |mid|..] && Piece(s[..|s| - |mid|], bytes)
    requires ReadString(mid, acc + bytes).Some? && ReadString(s, acc) == ReadString(mid, acc + bytes)
    requires var (all, rest) := ReadString(mid, acc + bytes).value;
             var n := |mid| - |rest| - 1;
             0 <= n && mid[n] == '"' && mid[n + 1..] == rest && acc + bytes <= all && Decoded(mid[..n], all[|acc + bytes|..])
    ensures var (all, rest) := ReadString(s, acc).value;
            var n := |s| - |rest| - 1;
            && 0 <= n && s[n] == '"' && s[n + 1..] == rest && acc <= all && Decoded(s[..n], all[|acc|..])
  {
    hide Piece, ReadString;
    var (all, rest) := ReadString(mid, acc + bytes).value;
    var n, m := |s| - |rest| - 1, |s| - |mid|;
    var raw, out := s[..n], all[|acc|..];
    assert raw[..m] == s[..m] && raw[m..] == mid[..n - m];
    assert out[..|bytes|] == bytes && out[|bytes|..] == all[|acc + bytes|..];
    assert Piece(raw[..m], out[..|bytes|]) && Decoded(raw[m..], out[|bytes|..]);
  }

  // ---- the reader's numbers ------------------------------------------------------------------------

  predicate NoDigit(s: string) { s == "" || !IsDigit(s[0]) }

  lemma {:induction false} DigitsRead(d: string, rest: string)
    requires AllDigits(d) && NoDigit(rest)
    ensures SkipDigits(d + rest) == rest
  {
    if d == "" {
      assert d + rest == rest;
    } else {
      DigitsRead(d[1..], rest);
      assert (d + rest)[1..] == d[1..] + rest;
    }
  }

  lemma {:induction false} SomeRead(d: string, rest: string)
    requires SomeNumber(d) && NoDigit(rest)
    ensures SomeDigits(d + rest) == Some(rest)
  {
    DigitsRead(d[1..], rest);
    assert (d + rest)[1..] == d[1..] + rest;
  }

  lemma {:induction false} IntegerRead(x: string, rest: string)
    requires IntegerText(x) && NoDigit(rest)
    ensures IntegerPart(x + rest) == Some(rest)
  {
    var d := if x[0] == '-' then x[1..] else x;
    hide SkipDigits, AllDigits;
    assert x[0] == '-' ==> (x + rest)[1..] == d + rest;
    if d == "0" {
      assert (d + rest)[1..] == rest;
    } else {
      SomeRead(d, rest);
      hide SomeDigits;
    }
  }

  lemma {:induction false} FractionRead(f: string, rest: string)
    requires FractionText(f) && NoDigit(rest) && (rest == "" || rest[0] != '.')
    ensures FractionPart(f + rest) == Some(rest)
  {
    if f == "" {
      assert f + rest == rest;
    } else {
      SomeRead(f[1..], rest);
      assert (f + rest)[1..] == f[1..] + rest;
    }
  }

  lemma {:induction false} ExponentRead(e: string)
    requires ExponentText(e)
    ensures ExponentPart(e) == Some("")
  {
    if e != "" {
      var signed := |e| > 1 && (e[1] == '+' || e[1] == '-');
      var d := if signed then e[2..] else e[1..];
      SomeRead(d, "");
      assert d + "" == d;
      hide SomeDigits;
      assert signed ==> e[1..][1..] == d;
    }
  }

  /** What a skip of digits skips. */
  lemma {:induction false} DigitsFound(s: string)
    ensures var n := |s| - |SkipDigits(s)|; AllDigits(s[..n]) && s[n..] == SkipDigits(s)
  {
    if s != "" && IsDigit(s[0]) {
      DigitsFound(s[1..]);
      var n := |s| - |SkipDigits(s)|;
      assert s[..n] == [s[0]] + s[1..][..n - 1];
    }
  }

  lemma {:induction false} SomeFound(s: string)
    requires SomeDigits(s).Some?
    ensures var r := SomeDigits(s).value; var n := |s| - |r|; SomeNumber(s[..n]) && s[n..] == r && NoDigit(r)
  {
    DigitsFound(s[1..]);
    var n := |s| - |SkipDigits(s[1..])|;
    assert s[..n] == [s[0]] + s[1..][..n - 1];
  }

  lemma {:induction false} IntegerFound(s: string)
    requires IntegerPart(s).Some?
    ensures var r := IntegerPart(s).value; var n := |s| - |r|; IntegerText(s[..n]) && s[n..] == r
  {
    var signed := s[0] == '-';
    var t := if signed then s[1..] else s;
    var n := |s| - |IntegerPart(s).value|;
    if t[0] == '0' {
      assert s[..n] == if signed then "-0" else "0";
    } else {
      SomeFound(t);
      hide SomeDigits;
      var d := t[..|t| - |IntegerPart(s).value|];
      assert signed ==> s[..n][1..] == d;
    }
  }

  lemma {:induction false} FractionFound(s: string)
    requires FractionPart(s).Some?
    ensures var r := FractionPart(s).value; var n := |s| - |r|; FractionText(s[..n]) && s[n..] == r
  {
    if s != "" && s[0] == '.' {
      SomeFound(s[1..]);
      hide SomeDigits;
      var n := |s| - |FractionPart(s).value|;
      assert s[..n][1..] == s[1..][..n - 1];
    }
  }

  lemma {:induction false} ExponentFound(s: string)
    requires ExponentPart(s).Some?
    ensures var r := ExponentPart(s).value; var n := |s| - |r|; ExponentText(s[..n]) && s[n..] == r
  {
    if s != "" && (s[0] == 'e' || s[0] == 'E') {
      var t := s[1..];
      var signed := t != "" && (t[0] == '+' || t[0] == '-');
      var u := if signed then t[1..] else t;
      SomeFound(u);
      hide SomeDigits;
      var n := |s| - |ExponentPart(s).value|;
      assert s[..n][1..] == t[..n - 1] && (signed ==> s[..n][2..] == u[..n - 2]);
      if !signed {
        assert s[..n][1] == u[0];
      }
    }
  }

  predicate WholeToken(tok: string) { NumberToken(tok).Some? && NumberToken(tok).value.0 == "" }

  lemma {:induction false} TokenFound(s: string)
    requires NumberToken(s).Some?
    ensures var r := NumberToken(s).value.0; var n := |s| - |r|; NumberText(s[..n]) && s[n..] == r
  {
    hide *;
    var a, b := StagesOf(s);
    IntegerFound(s);
    FractionFound(a);
    ExponentFound(b);
    NumberPut(s, a, b, NumberToken(s).value.0);
  }

  lemma {:induction false} StagesOf(s: string) returns (a: string, b: string)
    requires NumberToken(s).Some?
    ensures IntegerPart(s) == Some(a) && FractionPart(a) == Some(b) && ExponentPart(b) == Some(NumberToken(s).value.0)
    ensures NumberToken(s).value.1 <==> NumberToken(s).value.0 == a
  {
    hide IntegerPart, FractionPart, ExponentPart;
    a := IntegerPart(s).value;
    b := FractionPart(a).value;
  }

  lemma {:induction false} NumberPut(s: string, a: string, b: string, c: string)
    requires |c| <= |b| <= |a| <= |s| && s[|s| - |a|..] == a && a[|a| - |b|..] == b && b[|b| - |c|..] == c
    requires IntegerText(s[..|s| - |a|]) && FractionText(a[..|a| - |b|]) && ExponentText(b[..|b| - |c|])
    ensures NumberText(s[..|s| - |c|]) && s[|s| - |c|..] == c
  {
    hide IntegerText, FractionText, ExponentText;
    var i, j, n := |s| - |a|, |s| - |b|, |s| - |c|;
    var tok := s[..n];
    assert tok[..i] == s[..i] && tok[i..j] == a[..j - i] && tok[j..] == b[..n - j];
    assert IntegerText(tok[..i]) && FractionText(tok[i..j]) && ExponentText(tok[j..]);
  }

  lemma {:induction false} TokenRead(tok: string)
    requires NumberText(tok)
    ensures WholeToken(tok)
  {
    hide IntegerText, FractionText, ExponentText, WholeToken;
    var i: nat, j: nat :| i <= j <= |tok| && IntegerText(tok[..i]) && FractionText(tok[i..j]) && ExponentText(tok[j..]);
    var x, f, e := tok[..i], tok[i..j], tok[j..];
    assert tok == x + (f + e);
    PartsRead(x, f, e);
  }

  lemma {:induction false} PartsRead(x: string, f: string, e: string)
    requires IntegerText(x) && FractionText(f) && ExponentText(e)
    ensures WholeToken(x + (f + e))
  {
    PartStarts(f, e);
    IntegerRead(x, f + e);
    FractionRead(f, e);
    ExponentRead(e);
    hide IntegerPart, FractionPart, ExponentPart, IntegerText, FractionText, ExponentText, NoDigit;
  }

  lemma {:induction false} PartStarts(f: string, e: string)
    requires FractionText(f) && ExponentText(e)
    ensures NoDigit(f + e) && NoDigit(e) && (e == "" || e[0] != '.')
  {
    if f == "" {
      assert f + e == e;
    }
  }

  lemma {:induction false} DecimalExactly(tok: string, i: int)
    ensures tok == Decimal(i) <==> IntegerToken(tok) && !MinusZero(tok) && IntegerValue(tok) == i
  {
    if tok == Decimal(i) {
      WrittenInt(i);
    }
    if IntegerToken(tok) && !MinusZero(tok) {
      RewrittenInt(tok);
    }
  }

  /** The value of a number token, as the grammar has it. */
  lemma {:induction false} NumberExactly(codec: Codec, tok: string, v: Json, depth: nat)
    requires WholeToken(tok)
    ensures NumberOf(codec, tok, NumberToken(tok).value.1) == Some(v)
       <==> (v.Whole? || v.Fraction?) && Denotes(codec, v, depth, tok)
  {
    hide NumberToken, NumberText, IntegerValue, Decimal, Quoted, ItemsText, MembersText;
    TokenFound(tok);
    assert tok[..|tok|] == tok;
    forall i
      ensures tok == Decimal(i) <==> NumberToken(tok).value.1 && !MinusZero(tok) && IntegerValue(tok) == i
    {
      DecimalExactly(tok, i);
    }
  }

  /** A token on its own is the same token. */
  lemma {:induction false} TokenAlone(s: string)
    requires NumberToken(s).Some?
    ensures var n := |s| - |NumberToken(s).value.0|; WholeToken(s[..n]) && NumberToken(s[..n]).value.1 == NumberToken(s).value.1
  {
    hide *;
    var a, b := StagesOf(s);
    var c := NumberToken(s).value.0;
    IntegerFound(s);
    FractionFound(a);
    ExponentFound(b);
    var i, n := |s| - |a|, |s| - |c|;
    var x, f, e := s[..i], a[..|a| - |b|], b[..|b| - |c|];
    ThreeSlices(s, a, b, c);
    PartsRead(x, f, e);
    PartStarts(f, e);
    IntegerRead(x, f + e);
    FlagOf(x + (f + e), f + e);
    assert f + e == "" <==> |a| == |c|;
  }

  lemma {:induction false} ThreeSlices(s: string, a: string, b: string, c: string)
    requires |c| <= |b| <= |a| <= |s| && s[|s| - |a|..] == a && a[|a| - |b|..] == b && b[|b| - |c|..] == c
    ensures s[..|s| - |c|] == s[..|s| - |a|] + (a[..|a| - |b|] + b[..|b| - |c|])
    ensures c == a <==> |a| == |c|
  {
  }

  lemma {:induction false} FlagOf(tok: string, a: string)
    requires WholeToken(tok) && IntegerPart(tok) == Some(a)
    ensures NumberToken(tok).value.1 <==> a == ""
  {
    hide IntegerPart, FractionPart, ExponentPart;
  }

  // ---- the reader's values: what it reads ------------------------------------------------------------

  lemma {:induction false} BlanksFound(s: string)
    ensures var n := |s| - |SkipBlanks(s)|; AllBlank(s[..n]) && s[n..] == SkipBlanks(s)
  {
    if s != "" && Blank(s[0]) {
      BlanksFound(s[1..]);
      var n := |s| - |SkipBlanks(s)|;
      assert s[..n] == [s[0]] + s[1..][..n - 1];
    }
  }

  /** Blanks and a value. */
  ghost predicate Front(codec: Codec, v: Json, depth: nat, s: string) {
    exists a: nat :: a <= |s| && AllBlank(s[..a]) && Denotes(codec, v, depth, s[a..])
  }

  lemma {:induction false} FrontThen(codec: Codec, v: Json, depth: nat, s: string, n: nat, m: nat)
    requires n <= m <= |s| && Front(codec, v, depth, s[..n]) && AllBlank(s[n..m])
    ensures Padded(codec, v, depth, s[..m])
  {
    hide Denotes, AllBlank;
    var a: nat :| a <= n && AllBlank(s[..n][..a]) && Denotes(codec, v, depth, s[..n][a..]);
    assert s[..n][..a] == s[..m][..a] && s[..n][a..] == s[..m][a..n] && s[n..m] == s[..m][n..];
  }

  lemma {:induction false} NumberFound(codec: Codec, s: string, depth: nat)
    requires ReadNumber(codec, s).Some?
    ensures var (v, rest) := ReadNumber(codec, s).value;
            var n := |s| - |rest|;
            s[n..] == rest && Denotes(codec, v, depth, s[..n])
  {
    var (rest, integral) := NumberToken(s).value;
    var (v, _) := ReadNumber(codec, s).value;
    var tok := s[..|s| - |rest|];
    TokenFound(s);
    TokenAlone(s);
    NumberExactly(codec, tok, v, depth);
    hide NumberToken, NumberOf, Denotes;
    assert NumberOf(codec, tok, integral) == Some(v);
  }

  lemma {:induction false} TextFound(codec: Codec, s: string, depth: nat)
    requires s != "" && s[0] == '"' && ReadText(s).Some?
    ensures var (v, rest) := ReadText(s).value;
            var n := |s| - |rest|;
            s[n..] == rest && Denotes(codec, v, depth, s[..n])
  {
    StringWhole(s[1..]);
    hide ReadString, Decoded;
    var (text, rest) := ReadString(s[1..], "").value;
    var n := |s| - |rest|;
    assert s[..n][1..n - 1] == s[1..][..n - 2];
    assert s[..n][n - 1] == s[1..][n - 2] && s[n..] == s[1..][n - 1..];
  }

  lemma {:induction false} WordFound(codec: Codec, s: string, depth: nat, word: string, v: Json)
    requires s != "" && word != "" && ReadWord(s, word, v).Some? && Denotes(codec, v, depth, word)
    ensures var (w, rest) := ReadWord(s, word, v).value;
            var n := |s| - |rest|;
            s[n..] == rest && Denotes(codec, w, depth, s[..n])
  {
    hide Denotes;
  }

  /** The value at the start of a text, and where it ends. */
  ghost predicate Found(codec: Codec, s: string, depth: nat, r: Option<(Json, string)>) {
    r.Some? ==>
      var (v, rest) := r.value;
      |rest| <= |s| && s[|s| - |rest|..] == rest && Denotes(codec, v, depth, s[..|s| - |rest|])
  }

  lemma {:induction false} WordsDenote(codec: Codec, depth: nat)
    ensures Denotes(codec, Null, depth, "null") && Denotes(codec, Bool(true), depth, "true") && Denotes(codec, Bool(false), depth, "false")
  {
  }

  /** The first character decides what is read. */
  lemma {:induction false} Dispatch(codec: Codec, s: string, depth: nat)
    requires SkipBlanks(s) == s && ReadValue(codec, s, depth).Some?
    ensures s != ""
    ensures ReadValue(codec, s, depth) ==
            if s[0] == 'n' then ReadWord(s, "null", Null) else if s[0] == 't' then ReadWord(s, "true", Bool(true))
            else if s[0] == 'f' then ReadWord(s, "false", Bool(false)) else if s[0] == '"' then ReadText(s)
            else if s[0] == '[' then ReadArray(codec, s[1..], depth + 1) else if s[0] == '{' then ReadObject(codec, s[1..], depth + 1)
            else ReadNumber(codec, s)
    ensures s[0] == '[' || s[0] == '{' ==> depth < MAX_DEPTH
  {
    hide ReadNumber, ReadText, ReadArray, ReadObject, ReadWord;
  }

  lemma {:induction false} BareFound(codec: Codec, s: string, depth: nat)
    requires SkipBlanks(s) == s
    ensures Found(codec, s, depth, ReadValue(codec, s, depth))
    decreases |s|, 1
  {
    hide ReadNumber, ReadText, ReadArray, ReadObject, ReadWord, ReadValue, Denotes, SkipBlanks;
    if ReadValue(codec, s, depth).Some? {
      Dispatch(codec, s, depth);
      WordsDenote(codec, depth);
      if s[0] == 'n' {
        WordFound(codec, s, depth, "null", Null);
      } else if s[0] == 't' {
        WordFound(codec, s, depth, "true", Bool(true));
      } else if s[0] == 'f' {
        WordFound(codec, s, depth, "false", Bool(false));
      } else if s[0] == '"' {
        TextFound(codec, s, depth);
      } else if s[0] == '[' {
        ArrayFound(codec, s, depth);
      } else if s[0] == '{' {
        ObjectFound(codec, s, depth);
      } else {
        NumberFound(codec, s, depth);
      }
    }
  }

  lemma {:induction false} ValueFound(codec: Codec, text: string, depth: nat)
    requires ReadValue(codec, text, depth).Some?
    ensures var (v, rest) := ReadValue(codec, text, depth).value;
            var n := |text| - |rest|;
            text[n..] == rest && Front(codec, v, depth, text[..n])
    decreases |text|, 2
  {
    hide *;
    var s := SkipBlanks(text);
    SkippedValue(codec, text, depth);
    BlanksFound(text);
    SkippedTwice(text);
    BareFound(codec, s, depth);
    var (v, rest) := ReadValue(codec, text, depth).value;
    FrontPut(codec, v, depth, text, s, rest);
  }

  lemma {:induction false} FrontPut(codec: Codec, v: Json, depth: nat, text: string, s: string, rest: string)
    requires |s| <= |text| && text[|text| - |s|..] == s && AllBlank(text[..|text| - |s|]) && Found(codec, s, depth, Some((v, rest)))
    ensures |rest| <= |text| && text[|text| - |rest|..] == rest && Front(codec, v, depth, text[..|text| - |rest|])
  {
    hide Denotes, AllBlank;
    var a, n := |text| - |s|, |text| - |rest|;
    assert text[n..] == s[n - a..] && text[..n][..a] == text[..a] && text[..n][a..] == s[..n - a];
  }

  lemma {:induction false} SkippedTwice(s: string)
    ensures SkipBlanks(SkipBlanks(s)) == SkipBlanks(s)
  {
  }

  lemma {:induction false} ArrayFound(codec: Codec, s: string, depth: nat)
    requires s != "" && s[0] == '[' && depth < MAX_DEPTH
    ensures Found(codec, s, depth, ReadArray(codec, s[1..], depth + 1))
    decreases |s|, 0
  {
    hide *;
    var text := s[1..];
    ArrayTurn(codec, text, depth + 1);
    var t, r := SkipBlanks(text), ReadArray(codec, text, depth + 1);
    BlanksFound(text);
    if t != "" && t[0] == ']' {
      assert s[1..|s| - |t|] == text[..|text| - |t|];
      EmptyFound(codec, s, t, depth, Arr([]));
    } else if r.Some? {
      ItemsFound(codec, t, depth + 1, []);
      var (v, rest) := r.value;
      assert v.items[0..] == v.items;
      BlankItems(codec, v.items, depth + 1, text, t, |t| - |rest| - 1);
      Enclosed(s, text, t, rest, ']');
      ArrayPut(codec, s, text[..|text| - |rest| - 1], v.items, rest, depth);
    } else {
      NothingFound(codec, s, depth, r);
    }
  }

  lemma {:induction false} ArrayTurn(codec: Codec, text: string, depth: nat)
    ensures var t := SkipBlanks(text);
            ReadArray(codec, text, depth) == if t != "" && t[0] == ']' then Some((Arr([]), t[1..])) else ReadItems(codec, t, depth, [])
  {
    hide SkipBlanks, ReadItems;
  }

  lemma {:induction false} NothingFound(codec: Codec, s: string, depth: nat, r: Option<(Json, string)>)
    requires r.None?
    ensures Found(codec, s, depth, r)
  {
  }

  lemma {:induction false} NoNames()
    ensures NamesOk([])
  {
  }

  /** A bracketed text by its parts. */
  lemma {:induction false} Enclosed(s: string, text: string, t: string, rest: string, close: char)
    requires s != "" && text == s[1..] && |rest| < |t| <= |text| && text[|text| - |t|..] == t
    requires t[|t| - |rest|..] == rest && t[|t| - |rest| - 1] == close
    ensures s == [s[0]] + text[..|text| - |rest| - 1] + [close] + rest
  {
    var n := |text| - |rest|;
    assert text[n..] == rest && text[n - 1] == close;
    assert text == text[..n - 1] + [text[n - 1]] + text[n..];
  }

  lemma {:induction false} EmptyFound(codec: Codec, s: string, t: string, depth: nat, v: Json)
    requires s != "" && t != "" && depth < MAX_DEPTH && |t| < |s| && s[|s| - |t|..] == t && AllBlank(s[1..|s| - |t|])
    requires (v == Arr([]) && s[0] == '[' && t[0] == ']') || (v == Obj([]) && s[0] == '{' && t[0] == '}')
    ensures Found(codec, s, depth, Some((v, t[1..])))
  {
    var n := |s| - |t[1..]|;
    assert s[..n][1..n - 1] == s[1..|s| - |t|] && s[n..] == t[1..] && s[..n][n - 1] == t[0];
    hide AllBlank;
  }

  lemma {:induction false} ArrayPut(codec: Codec, s: string, inner: string, items: seq<Json>, rest: string, depth: nat)
    requires depth < MAX_DEPTH && items != [] && s == "[" + inner + "]" + rest && ItemsText(codec, items, depth + 1, inner)
    ensures Found(codec, s, depth, Some((Arr(items), rest)))
  {
    hide ItemsText;
    var n := |s| - |rest|;
    assert s[..n] == "[" + inner + "]" && s[n..] == rest;
    assert s[..n][1..n - 1] == inner;
  }

  /** Blanks may stand before the first item. */
  lemma {:induction false} BlankItems(codec: Codec, items: seq<Json>, depth: nat, text: string, t: string, n: nat)
    requires items != [] && |t| <= |text| && text[|text| - |t|..] == t && AllBlank(text[..|text| - |t|]) && n <= |t|
    requires ItemsText(codec, items, depth, t[..n])
    ensures ItemsText(codec, items, depth, text[..|text| - |t| + n])
  {
    hide *;
    var b := text[..|text| - |t|];
    assert text[..|text| - |t| + n] == b + t[..n];
    var cut := ItemsTake(codec, items, depth, t[..n]);
    BlankPadded(codec, items[0], depth, b, t[..n][..cut]);
    BlankSlices(b, t[..n], cut);
    ItemsPut(codec, items, depth, b + t[..n], |b| + cut);
  }

  lemma {:induction false} BlankSlices(b: string, x: string, cut: nat)
    requires cut <= |x|
    ensures (b + x)[..|b| + cut] == b + x[..cut] && (b + x)[|b| + cut..] == x[cut..]
    ensures cut < |x| ==> (b + x)[|b| + cut] == x[cut] && (b + x)[|b| + cut + 1..] == x[cut + 1..]
  {
  }

  lemma {:induction false} ItemsTake(codec: Codec, items: seq<Json>, depth: nat, s: string) returns (cut: nat)
    requires items != [] && ItemsText(codec, items, depth, s)
    ensures cut <= |s| && Padded(codec, items[0], depth, s[..cut])
    ensures if |items| == 1 then cut == |s| else cut < |s| && s[cut] == ',' && ItemsText(codec, items[1..], depth, s[cut + 1..])
  {
    hide Padded;
    cut :| ItemsAt(codec, items, depth, s, cut);
  }

  lemma {:induction false} ItemsPut(codec: Codec, items: seq<Json>, depth: nat, s: string, cut: nat)
    requires items != [] && cut <= |s| && Padded(codec, items[0], depth, s[..cut])
    requires if |items| == 1 then cut == |s| else cut < |s| && s[cut] == ',' && ItemsText(codec, items[1..], depth, s[cut + 1..])
    ensures ItemsText(codec, items, depth, s)
  {
    hide Padded;
    assert ItemsAt(codec, items, depth, s, cut);
  }

  lemma {:induction false} BlankPadded(codec: Codec, v: Json, depth: nat, b: string, s: string)
    requires AllBlank(b) && Padded(codec, v, depth, s)
    ensures Padded(codec, v, depth, b + s)
  {
    hide Denotes, AllBlank;
    var i: nat, j: nat :| i <= j <= |s| && AllBlank(s[..i]) && Denotes(codec, v, depth, s[i..j]) && AllBlank(s[j..]);
    var k, t := |b|, b + s;
    BlankTwice(b, s[..i]);
    assert t[..k + i] == b + s[..i] && t[k + i..k + j] == s[i..j] && t[k + j..] == s[j..];
  }

  lemma {:induction false} BlankTwice(a: string, b: string)
    requires AllBlank(a) && AllBlank(b)
    ensures AllBlank(a + b)
  {
  }

  /** One item, and the mark after it. */
  lemma {:induction false} ItemFound(codec: Codec, s: string, depth: nat, acc: seq<Json>) returns (one: Json, t: string)
    requires ReadItems(codec, s, depth, acc).Some?
    ensures 0 < |t| < |s| && s[|s| - |t|..] == t && Padded(codec, one, depth, s[..|s| - |t|])
    ensures if t[0] == ']' then ReadItems(codec, s, depth, acc) == Some((Arr(acc + [one]), t[1..]))
            else t[0] == ',' && ReadItems(codec, s, depth, acc) == ReadItems(codec, t[1..], depth, acc + [one])
    decreases |s|, 3
  {
    hide ReadValue, Front, Padded, SkipBlanks;
    one := ReadValue(codec, s, depth).value.0;
    var after := ReadValue(codec, s, depth).value.1;
    t := SkipBlanks(after);
    ValueFound(codec, s, depth);
    BlanksFound(after);
    PaddedFound(codec, one, depth, s, after, t);
  }

  /** Items up to and including the closing bracket. */
  lemma {:induction false} ItemsFound(codec: Codec, s: string, depth: nat, acc: seq<Json>)
    requires ReadItems(codec, s, depth, acc).Some?
    ensures var (v, rest) := ReadItems(codec, s, depth, acc).value;
            var n := |s| - |rest|;
            && v.Arr? && |acc| < |v.items| && acc == v.items[..|acc|]
            && n >= 1 && s[n..] == rest && s[n - 1] == ']' && ItemsText(codec, v.items[|acc|..], depth, s[..n - 1])
    decreases |s|, 4
  {
    hide *;
    var one, t := ItemFound(codec, s, depth, acc);
    if t[0] == ']' {
      var items, n := acc + [one], |s| - |t|;
      assert items[|acc|..] == [one] && s[n + 1..] == t[1..] && s[n] == t[0] && s[..n][..n] == s[..n];
      ItemsPut(codec, [one], depth, s[..n], n);
    } else {
      ItemsFound(codec, t[1..], depth, acc + [one]);
      var (v, rest) := ReadItems(codec, s, depth, acc).value;
      ItemsJoin(codec, s, t, depth, acc, one, v.items, rest);
    }
  }

  lemma {:induction false} PaddedFound(codec: Codec, v: Json, depth: nat, s: string, after: string, t: string)
    requires |t| <= |after| <= |s| && s[|s| - |after|..] == after && after[|after| - |t|..] == t && AllBlank(after[..|after| - |t|])
    requires Front(codec, v, depth, s[..|s| - |after|])
    ensures Padded(codec, v, depth, s[..|s| - |t|]) && s[|s| - |t|..] == t
  {
    hide Front, AllBlank, Padded;
    var n, m := |s| - |after|, |s| - |t|;
    assert s[n..m] == after[..|after| - |t|];
    FrontThen(codec, v, depth, s, n, m);
  }

  lemma {:induction false} ItemsJoin(codec: Codec, s: string, t: string, depth: nat, acc: seq<Json>, one: Json, items: seq<Json>, rest: string)
    requires t != "" && t[0] == ',' && |t| <= |s| && s[|s| - |t|..] == t && Padded(codec, one, depth, s[..|s| - |t|])
    requires |acc + [one]| < |items| && acc + [one] == items[..|acc + [one]|]
    requires var n := |t[1..]| - |rest|;
             n >= 1 && t[1..][n..] == rest && t[1..][n - 1] == ']' && ItemsText(codec, items[|acc + [one]|..], depth, t[1..][..n - 1])
    ensures var n := |s| - |rest|;
            && |acc| < |items| && acc == items[..|acc|]
            && n >= 1 && s[n..] == rest && s[n - 1] == ']' && ItemsText(codec, items[|acc|..], depth, s[..n - 1])
  {
    hide Padded, ItemsText;
    var n, cut := |s| - |rest|, |s| - |t|;
    var u, more := s[..n - 1], items[|acc|..];
    assert u[..cut] == s[..cut] && u[cut] == ',' && u[cut + 1..] == t[1..][..|t[1..]| - |rest| - 1];
    assert more[0] == one && more[1..] == items[|acc + [one]|..];
    assert acc == items[..|acc + [one]|][..|acc|];
    ItemsPut(codec, more, depth, u, cut);
  }

  lemma {:induction false} ObjectFound(codec: Codec, s: string, depth: nat)
    requires s != "" && s[0] == '{' && depth < MAX_DEPTH
    ensures Found(codec, s, depth, ReadObject(codec, s[1..], depth + 1))
    decreases |s|, 0
  {
    hide *;
    var text := s[1..];
    ObjectTurn(codec, text, depth + 1);
    var t, r := SkipBlanks(text), ReadObject(codec, text, depth + 1);
    BlanksFound(text);
    if t != "" && t[0] == '}' {
      assert s[1..|s| - |t|] == text[..|text| - |t|];
      EmptyFound(codec, s, t, depth, Obj([]));
    } else if r.Some? {
      NoNames();
      MembersFound(codec, t, depth + 1, []);
      var (v, rest) := r.value;
      assert v.members[0..] == v.members;
      BlankMembers(codec, v.members, depth + 1, text, t, |t| - |rest| - 1);
      Enclosed(s, text, t, rest, '}');
      ObjectPut(codec, s, text[..|text| - |rest| - 1], v.members, rest, depth);
    } else {
      NothingFound(codec, s, depth, r);
    }
  }

  lemma {:induction false} ObjectTurn(codec: Codec, text: string, depth: nat)
    ensures var t := SkipBlanks(text);
            ReadObject(codec, text, depth) == if t != "" && t[0] == '}' then Some((Obj([]), t[1..])) else ReadMembers(codec, t, depth, [])
  {
    hide SkipBlanks, ReadMembers;
  }

  lemma {:induction false} ObjectPut(codec: Codec, s: string, inner: string, members: seq<Member>, rest: string, depth: nat)
    requires depth < MAX_DEPTH && members != [] && NamesOk(members)
    requires s == "{" + inner + "}" + rest && MembersText(codec, members, depth + 1, inner)
    ensures Found(codec, s, depth, Some((Obj(members), rest)))
  {
    hide MembersText;
    var n := |s| - |rest|;
    assert s[..n] == "{" + inner + "}" && s[n..] == rest;
    assert s[..n][1..n - 1] == inner;
  }

  lemma {:induction false} MembersPut(codec: Codec, members: seq<Member>, depth: nat, s: string, colon: nat, cut: nat)
    requires members != [] && colon < cut <= |s| && s[colon] == ':'
    requires NameText(members[0].key, s[..colon]) && Padded(codec, members[0].value, depth, s[colon + 1..cut])
    requires if |members| == 1 then cut == |s| else cut < |s| && s[cut] == ',' && MembersText(codec, members[1..], depth, s[cut + 1..])
    ensures MembersText(codec, members, depth, s)
  {
    hide Padded, NameText;
    assert MembersAt(codec, members, depth, s, colon, cut);
  }

  lemma {:induction false} MembersTake(codec: Codec, members: seq<Member>, depth: nat, s: string) returns (colon: nat, cut: nat)
    requires members != [] && MembersText(codec, members, depth, s)
    ensures colon < cut <= |s| && s[colon] == ':'
    ensures NameText(members[0].key, s[..colon]) && Padded(codec, members[0].value, depth, s[colon + 1..cut])
    ensures if |members| == 1 then cut == |s| else cut < |s| && s[cut] == ',' && MembersText(codec, members[1..], depth, s[cut + 1..])
  {
    hide Padded, NameText;
    colon, cut :| MembersAt(codec, members, depth, s, colon, cut);
  }

  lemma {:induction false} BlankName(key: string, b: string, s: string)
    requires AllBlank(b) && NameText(key, s)
    ensures NameText(key, b + s)
  {
    hide Quoted, AllBlank;
    var i: nat, j: nat :| i <= j <= |s| && AllBlank(s[..i]) && Quoted(key, s[i..j]) && AllBlank(s[j..]);
    var k, t := |b|, b + s;
    BlankTwice(b, s[..i]);
    assert t[..k + i] == b + s[..i] && t[k + i..k + j] == s[i..j] && t[k + j..] == s[j..];
  }

  /** Blanks may stand before the first name. */
  lemma {:induction false} BlankMembers(codec: Codec, members: seq<Member>, depth: nat, text: string, t: string, n: nat)
    requires members != [] && |t| <= |text| && text[|text| - |t|..] == t && AllBlank(text[..|text| - |t|]) && n <= |t|
    requires MembersText(codec, members, depth, t[..n])
    ensures MembersText(codec, members, depth, text[..|text| - |t| + n])
  {
    hide *;
    var b, x := text[..|text| - |t|], t[..n];
    assert text[..|text| - |t| + n] == b + x;
    var colon, cut := MembersTake(codec, members, depth, x);
    BlankName(members[0].key, b, x[..colon]);
    BlankSlices(b, x, colon);
    BlankSlices(b, x, cut);
    assert (b + x)[|b| + colon + 1..|b| + cut] == x[colon + 1..cut];
    MembersPut(codec, members, depth, b + x, |b| + colon, |b| + cut);
  }

  lemma {:induction false} NameFound(s: string, members: seq<Member>)
    requires ReadName(s, members).Some?
    ensures var (key, after) := ReadName(s, members).value;
            var n := |s| - |after|;
            && n >= 1 && s[n..] == after && s[n - 1] == ':' && NameText(key, s[..n - 1])
            && !Contains(key, 0 as char) && Get(members, key).None?
  {
    hide *;
    var t, rest, u := NameParts(s, members);
    BlanksFound(s);
    StringWhole(t[1..]);
    var key := ReadString(t[1..], "").value.0;
    BlanksFound(rest);
    QuoteAt(key, t, rest);
    NamePut(key, s, t, rest, u);
  }

  lemma {:induction false} NameParts(s: string, members: seq<Member>) returns (t: string, rest: string, u: string)
    requires ReadName(s, members).Some?
    ensures t == SkipBlanks(s) && t != "" && t[0] == '"'
    ensures ReadString(t[1..], "") == Some((ReadName(s, members).value.0, rest))
    ensures !Contains(ReadName(s, members).value.0, 0 as char) && Get(members, ReadName(s, members).value.0).None?
    ensures u == SkipBlanks(rest) && u != "" && u[0] == ':' && ReadName(s, members).value.1 == u[1..]
  {
    hide ReadString, SkipBlanks, Get, Contains;
    t := SkipBlanks(s);
    rest := ReadString(t[1..], "").value.1;
    u := SkipBlanks(rest);
  }

  lemma {:induction false} QuoteAt(key: string, t: string, rest: string)
    requires t != "" && t[0] == '"'
    requires var n := |t[1..]| - |rest| - 1; 0 <= n && t[1..][n] == '"' && t[1..][n + 1..] == rest && Decoded(t[1..][..n], key)
    ensures |rest| <= |t| && Quoted(key, t[..|t| - |rest|]) && t[|t| - |rest|..] == rest
  {
    hide Decoded;
    var q := t[..|t| - |rest|];
    assert q[1..|q| - 1] == t[1..][..|t[1..]| - |rest| - 1];
  }

  lemma {:induction false} NamePut(key: string, s: string, t: string, rest: string, u: string)
    requires |u| <= |rest| <= |t| <= |s| && u != ""
    requires s[|s| - |t|..] == t && t[|t| - |rest|..] == rest && rest[|rest| - |u|..] == u
    requires AllBlank(s[..|s| - |t|]) && Quoted(key, t[..|t| - |rest|]) && AllBlank(rest[..|rest| - |u|])
    ensures NameText(key, s[..|s| - |u|]) && s[|s| - |u|] == u[0] && s[|s| - |u| + 1..] == u[1..]
  {
    hide Quoted, AllBlank;
    var i, j, k := |s| - |t|, |s| - |rest|, |s| - |u|;
    var x := s[..k];
    assert x[..i] == s[..i] && x[i..j] == t[..|t| - |rest|] && x[j..] == rest[..|rest| - |u|];
  }

  /** A name that was not met before joins the names. */
  lemma {:induction false} NamesGrow(members: seq<Member>, one: Member)
    requires NamesOk(members) && !Contains(one.key, 0 as char) && Get(members, one.key).None?
    ensures NamesOk(members + [one])
  {
    GetNone(members, one.key);
    hide Contains, Get;
  }

  /** One member, where its value starts and the mark after it. */
  lemma {:induction false} MemberFound(codec: Codec, s: string, depth: nat, acc: seq<Member>) returns (m: Member, colon: string, t: string)
    requires ReadMembers(codec, s, depth, acc).Some?
    ensures 0 < |t| <= |colon| < |s| && s[|s| - |colon|..] == colon && s[|s| - |colon| - 1] == ':'
    ensures NameText(m.key, s[..|s| - |colon| - 1]) && !Contains(m.key, 0 as char) && Get(acc, m.key).None?
    ensures Padded(codec, m.value, depth, colon[..|colon| - |t|]) && colon[|colon| - |t|..] == t
    ensures if t[0] == '}' then ReadMembers(codec, s, depth, acc) == Some((Obj(acc + [m]), t[1..]))
            else t[0] == ',' && ReadMembers(codec, s, depth, acc) == ReadMembers(codec, t[1..], depth, acc + [m])
    decreases |s|, 3
  {
    hide ReadValue, Front, Padded, SkipBlanks, ReadName, NameText, Contains, Get;
    colon := ReadName(s, acc).value.1;
    m := Member(ReadName(s, acc).value.0, ReadValue(codec, colon, depth).value.0);
    var after := ReadValue(codec, colon, depth).value.1;
    t := SkipBlanks(after);
    NameFound(s, acc);
    ValueFound(codec, colon, depth);
    BlanksFound(after);
    PaddedFound(codec, m.value, depth, colon, after, t);
  }

  /** Members up to and including the closing brace. */
  lemma {:induction false} MembersFound(codec: Codec, s: string, depth: nat, acc: seq<Member>)
    requires ReadMembers(codec, s, depth, acc).Some? && NamesOk(acc)
    ensures var (v, rest) := ReadMembers(codec, s, depth, acc).value;
            var n := |s| - |rest|;
            && v.Obj? && |acc| < |v.members| && acc == v.members[..|acc|] && NamesOk(v.members)
            && n >= 1 && s[n..] == rest && s[n - 1] == '}' && MembersText(codec, v.members[|acc|..], depth, s[..n - 1])
    decreases |s|, 4
  {
    hide *;
    var m, colon, t := MemberFound(codec, s, depth, acc);
    NamesGrow(acc, m);
    if t[0] == '}' {
      var all := acc + [m];
      assert all[|acc|..] == [m] && all[..|acc|] == acc;
      MemberEnds(codec, s, colon, t, depth, m);
    } else {
      MembersFound(codec, t[1..], depth, acc + [m]);
      var (v, rest) := ReadMembers(codec, s, depth, acc).value;
      MembersJoin(codec, s, colon, t, depth, acc, m, v.members, rest);
    }
  }

  lemma {:induction false} MemberEnds(codec: Codec, s: string, colon: string, t: string, depth: nat, m: Member)
    requires |t| <= |colon| < |s| && t != "" && s[|s| - |colon|..] == colon && s[|s| - |colon| - 1] == ':'
    requires NameText(m.key, s[..|s| - |colon| - 1]) && Padded(codec, m.value, depth, colon[..|colon| - |t|]) && colon[|colon| - |t|..] == t
    ensures MembersText(codec, [m], depth, s[..|s| - |t|]) && s[|s| - |t|] == t[0] && s[|s| - |t| + 1..] == t[1..]
  {
    hide Padded, NameText, MembersText;
    var k, c := |s| - |colon| - 1, |s| - |t|;
    var u := s[..c];
    assert u[..k] == s[..k] && u[k + 1..c] == colon[..|colon| - |t|];
    MembersPut(codec, [m], depth, u, k, c);
  }

  lemma {:induction false} MembersJoin(codec: Codec, s: string, colon: string, t: string, depth: nat, acc: seq<Member>, m: Member,
                                       members: seq<Member>, rest: string)
    requires |t| <= |colon| < |s| && t != "" && t[0] == ',' && s[|s| - |colon|..] == colon && s[|s| - |colon| - 1] == ':'
    requires NameText(m.key, s[..|s| - |colon| - 1]) && Padded(codec, m.value, depth, colon[..|colon| - |t|]) && colon[|colon| - |t|..] == t
    requires |acc + [m]| < |members| && acc + [m] == members[..|acc + [m]|]
    requires var n := |t[1..]| - |rest|;
             n >= 1 && t[1..][n..] == rest && t[1..][n - 1] == '}' && MembersText(codec, members[|acc + [m]|..], depth, t[1..][..n - 1])
    ensures var n := |s| - |rest|;
            && |acc| < |members| && acc == members[..|acc|]
            && n >= 1 && s[n..] == rest && s[n - 1] == '}' && MembersText(codec, members[|acc|..], depth, s[..n - 1])
  {
    hide Padded, NameText, MembersText;
    var k, c, n := |s| - |colon| - 1, |s| - |t|, |s| - |rest|;
    var u, more := s[..n - 1], members[|acc|..];
    assert s[c..] == t;
    assert u[..k] == s[..k] && u[k + 1..c] == colon[..|colon| - |t|] && u[c] == ',' && u[c + 1..] == t[1..][..|t[1..]| - |rest| - 1];
    assert more[0] == m && more[1..] == members[|acc + [m]|..];
    assert acc == members[..|acc + [m]|][..|acc|];
    MembersPut(codec, more, depth, u, k, c);
  }

  // ---- the reader's values: that it reads them ---------------------------------------------------------

  /** A mark after which no value goes on. */
  predicate Closed(s: string) { s == "" || s[0] == ',' || s[0] == ']' || s[0] == '}' }

  lemma {:induction false} BareRead(codec: Codec, v: Json, depth: nat, s: string, rest: string)
    requires Denotes(codec, v, depth, s) && Stops(rest)
    ensures ReadValue(codec, s + rest, depth) == Some((v, rest))
    decreases |s|, 1
  {
    match v
    case Null => WordValue(codec, "null", rest, depth);
    case Bool(b) => WordValue(codec, if b then "true" else "false", rest, depth);
    case Whole(_) => NumberRead(codec, v, depth, s, rest);
    case Fraction(_) => NumberRead(codec, v, depth, s, rest);
    case Str(t) => TextRead(codec, t, depth, s, rest);
    case Arr(items) => ArrayRead(codec, items, depth, s, rest);
    case Obj(members) => ObjectRead(codec, members, depth, s, rest);
  }

  lemma {:induction false} NumberRead(codec: Codec, v: Json, depth: nat, s: string, rest: string)
    requires (v.Whole? || v.Fraction?) && Denotes(codec, v, depth, s) && Stops(rest)
    ensures ReadValue(codec, s + rest, depth) == Some((v, rest))
  {
    if v.Whole? {
      WrittenInt(v.i);
    } else {
      TokenRead(s);
    }
    assert WholeToken(s);
    NumberExactly(codec, s, v, depth);
    hide NumberToken, Denotes, NumberOf, ReadValue;
    NumberValue(codec, s, rest, depth);
  }

  lemma {:induction false} TextRead(codec: Codec, text: string, depth: nat, s: string, rest: string)
    requires Quoted(text, s)
    ensures ReadValue(codec, s + rest, depth) == Some((Str(text), rest))
  {
    hide ReadString, Decoded, ReadNumber, ReadArray, ReadObject;
    var raw := s[1..|s| - 1];
    StringRead(raw, text, rest, "");
    var t := s + rest;
    assert SkipBlanks(t) == t && t[1..] == raw + "\"" + rest && "" + text == text;
  }

  lemma {:induction false} SkipTo(b: string, rest: string)
    requires AllBlank(b) && (rest == "" || !Blank(rest[0]))
    ensures SkipBlanks(b + rest) == rest
  {
    SkipAllBlank(b, rest);
  }

  /** A value between blanks is read up to the next mark. */
  lemma {:induction false} PaddedRead(codec: Codec, v: Json, depth: nat, s: string, rest: string)
    requires Padded(codec, v, depth, s) && Closed(rest)
    ensures var r := ReadValue(codec, s + rest, depth); r.Some? && r.value.0 == v && SkipBlanks(r.value.1) == rest
    decreases |s|, 2
  {
    hide Denotes, ReadValue;
    var a: nat, b: nat :| a <= b <= |s| && AllBlank(s[..a]) && Denotes(codec, v, depth, s[a..b]) && AllBlank(s[b..]);
    var tail := s[b..] + rest;
    assert Stops(tail) by {
      if s[b..] != "" {
        assert tail[0] == s[b..][0];
      }
    }
    BareRead(codec, v, depth, s[a..b], tail);
    SkipTo(s[b..], rest);
    BlankValue(codec, s[..a], s[a..b] + tail, depth);
    ThreeParts(s, a, b, rest);
  }

  lemma {:induction false} ThreeParts(s: string, a: nat, b: nat, rest: string)
    requires a <= b <= |s|
    ensures s + rest == s[..a] + (s[a..b] + (s[b..] + rest))
  {
  }

  lemma {:induction false} ArrayRead(codec: Codec, items: seq<Json>, depth: nat, s: string, rest: string)
    requires Denotes(codec, Arr(items), depth, s)
    ensures ReadValue(codec, s + rest, depth) == Some((Arr(items), rest))
    decreases |s|, 0
  {
    var inner := s[1..|s| - 1];
    hide ReadItems, ReadMembers, ItemsText, AllBlank;
    Around(s, rest);
    assert s + rest == "[" + (inner + "]") + rest;
    Bracketed(codec, inner + "]", "}", rest, depth);
    if items == [] {
      hide ReadValue;
      EmptyRead(codec, inner, rest, depth + 1);
    } else {
      ItemsRead(codec, items, depth + 1, inner, rest, []);
      assert [] + items == items;
      hide ReadValue, ReadArray;
      ArrayStart(codec, inner + "]" + rest, depth + 1);
    }
  }

  lemma {:induction false} Around(s: string, rest: string)
    requires |s| >= 2
    ensures s + rest == [s[0]] + (s[1..|s| - 1] + [s[|s| - 1]]) + rest
  {
  }

  lemma {:induction false} EmptyRead(codec: Codec, inner: string, rest: string, depth: nat)
    requires AllBlank(inner)
    ensures ReadArray(codec, inner + "]" + rest, depth) == Some((Arr([]), rest))
    ensures ReadObject(codec, inner + "}" + rest, depth) == Some((Obj([]), rest))
  {
    hide ReadItems, ReadMembers;
    assert inner + "]" + rest == inner + ("]" + rest) && inner + "}" + rest == inner + ("}" + rest);
    SkipTo(inner, "]" + rest);
    SkipTo(inner, "}" + rest);
    assert ("]" + rest)[1..] == rest && ("}" + rest)[1..] == rest;
  }

  lemma {:induction false} ItemsRead(codec: Codec, items: seq<Json>, depth: nat, s: string, rest: string, acc: seq<Json>)
    requires items != [] && ItemsText(codec, items, depth, s)
    ensures ReadItems(codec, s + "]" + rest, depth, acc) == Some((Arr(acc + items), rest))
    decreases |s|, 3
  {
    hide *;
    var cut := ItemsTake(codec, items, depth, s);
    var tail := s[cut..] + "]" + rest;
    assert s + "]" + rest == s[..cut] + tail;
    ItemsTail(s, cut, "]", rest);
    PaddedRead(codec, items[0], depth, s[..cut], tail);
    ItemTurn(codec, s + "]" + rest, depth, acc, items[0], tail);
    if |items| == 1 {
      assert acc + [items[0]] == acc + items;
    } else {
      ItemsRead(codec, items[1..], depth, s[cut + 1..], rest, acc + [items[0]]);
      assert acc + [items[0]] + items[1..] == acc + items;
    }
  }

  lemma {:induction false} ItemsTail(s: string, cut: nat, close: string, rest: string)
    requires cut <= |s| && (close == "]" || close == "}") && (cut < |s| ==> s[cut] == ',')
    ensures var tail := s[cut..] + close + rest;
            && Closed(tail) && tail != ""
            && (cut == |s| ==> tail[0] == close[0] && tail[1..] == rest)
            && (cut < |s| ==> tail[0] == ',' && tail[1..] == s[cut + 1..] + close + rest)
  {
  }

  lemma {:induction false} ObjectRead(codec: Codec, members: seq<Member>, depth: nat, s: string, rest: string)
    requires Denotes(codec, Obj(members), depth, s)
    ensures ReadValue(codec, s + rest, depth) == Some((Obj(members), rest))
    decreases |s|, 0
  {
    var inner := s[1..|s| - 1];
    hide ReadItems, ReadMembers, MembersText, AllBlank, NamesOk;
    Around(s, rest);
    assert s + rest == "{" + (inner + "}") + rest;
    Bracketed(codec, "]", inner + "}", rest, depth);
    if members == [] {
      hide ReadValue;
      EmptyRead(codec, inner, rest, depth + 1);
    } else {
      MembersRead(codec, members, depth + 1, inner, rest, []);
      assert [] + members == members;
      hide ReadValue, ReadObject;
      ObjectStart(codec, inner + "}" + rest, depth + 1);
    }
  }

  lemma {:induction false} NameRead(key: string, s: string, rest: string, seen: seq<Member>)
    requires NameText(key, s) && !Contains(key, 0 as char) && forall i :: 0 <= i < |seen| ==> seen[i].key != key
    ensures ReadName(s + ":" + rest, seen) == Some((key, rest))
  {
    hide Quoted, AllBlank, ReadName, Contains, Get;
    var a: nat, b: nat :| a <= b <= |s| && AllBlank(s[..a]) && Quoted(key, s[a..b]) && AllBlank(s[b..]);
    ThreeParts(s, a, b, ":" + rest);
    assert s + ":" + rest == s + (":" + rest);
    GetFresh(seen, key);
    QuoteRead(key, s[..a], s[a..b], s[b..], rest, seen);
  }

  lemma {:induction false} QuoteRead(key: string, before: string, q: string, after: string, rest: string, seen: seq<Member>)
    requires AllBlank(before) && Quoted(key, q) && AllBlank(after) && !Contains(key, 0 as char) && Get(seen, key).None?
    ensures ReadName(before + (q + (after + (":" + rest))), seen) == Some((key, rest))
  {
    hide ReadString, Decoded, Get, Contains, AllBlank, SkipBlanks;
    var raw, tail := q[1..|q| - 1], after + (":" + rest);
    SkipTo(before, q + tail);
    StringRead(raw, key, tail, "");
    assert (q + tail)[1..] == raw + "\"" + tail && "" + key == key;
    SkipTo(after, ":" + rest);
    assert (":" + rest)[1..] == rest;
  }

  lemma {:induction false} MembersRead(codec: Codec, members: seq<Member>, depth: nat, s: string, rest: string, acc: seq<Member>)
    requires members != [] && MembersText(codec, members, depth, s) && NamesOk(members) && Fresh(acc, members)
    ensures ReadMembers(codec, s + "}" + rest, depth, acc) == Some((Obj(acc + members), rest))
    decreases |s|, 3
  {
    hide *;
    var m := members[0];
    FreshFirst(acc, members);
    FreshRest(acc, members);
    var colon, cut := MembersTake(codec, members, depth, s);
    var tail := s[cut..] + "}" + rest;
    var value := s[colon + 1..cut] + tail;
    MemberSlices(s, colon, cut, rest);
    ItemsTail(s, cut, "}", rest);
    NameRead(m.key, s[..colon], value, acc);
    PaddedRead(codec, m.value, depth, s[colon + 1..cut], tail);
    MemberTurn(codec, s + "}" + rest, depth, acc, m, tail);
    if |members| == 1 {
      assert acc + [m] == acc + members;
    } else {
      MembersRead(codec, members[1..], depth, s[cut + 1..], rest, acc + [m]);
      assert acc + [m] + members[1..] == acc + members;
    }
  }

  lemma {:induction false} MemberSlices(s: string, colon: nat, cut: nat, rest: string)
    requires colon < cut <= |s| && s[colon] == ':'
    ensures s + "}" + rest == s[..colon] + ":" + (s[colon + 1..cut] + (s[cut..] + "}" + rest))
  {
  }

  lemma {:induction false} FreshFirst(acc: seq<Member>, members: seq<Member>)
    requires members != [] && NamesOk(members) && Fresh(acc, members)
    ensures !Contains(members[0].key, 0 as char) && forall i :: 0 <= i < |acc| ==> acc[i].key != members[0].key
  {
    hide Contains;
  }

  lemma {:induction false} FreshRest(acc: seq<Member>, members: seq<Member>)
    requires members != [] && NamesOk(members) && Fresh(acc, members)
    ensures NamesOk(members[1..]) && Fresh(acc + [members[0]], members[1..])
  {
    hide Contains;
  }

  // ---- the law ---------------------------------------------------------------------------------------------

  lemma {:induction false} ParseFound(codec: Codec, text: string, v: Json)
    requires Parse(codec, text) == Some(v)
    ensures Padded(codec, v, 0, text)
  {
    hide *;
    var rest := ParseRest(codec, text, v);
    ValueFound(codec, text, 0);
    BlanksFound(rest);
    WholeRest(text, rest);
    FrontThen(codec, v, 0, text, |text| - |rest|, |text|);
  }

  lemma {:induction false} ParseRest(codec: Codec, text: string, v: Json) returns (rest: string)
    requires Parse(codec, text) == Some(v)
    ensures ReadValue(codec, text, 0) == Some((v, rest)) && SkipBlanks(rest) == ""
  {
    hide ReadValue, SkipBlanks;
    rest := ReadValue(codec, text, 0).value.1;
  }

  lemma {:induction false} WholeRest(text: string, rest: string)
    requires |rest| <= |text| && text[|text| - |rest|..] == rest
    ensures text[|text| - |rest|..|text|] == rest && rest[..|rest|] == rest && text[..|text|] == text
  {
  }

  /** A text is read as v exactly when it spells v between blanks, by the grammar of RFC 8259. */
  lemma {:induction false} ParseExactly(codec: Codec, text: string, v: Json)
    ensures Parse(codec, text) == Some(v) <==> Padded(codec, v, 0, text)
  {
    hide ReadValue, Padded;
    if Parse(codec, text) == Some(v) {
      ParseFound(codec, text, v);
    }
    if Padded(codec, v, 0, text) {
      PaddedRead(codec, v, 0, text, "");
      assert text + "" == text;
    }
  }

  /** Whatever is written is such a text. */
  lemma {:induction false} WrittenText(codec: Codec, v: Json, pretty: bool)
    requires Faithful(codec) && WellFormed(codec, v, 0)
    ensures Padded(codec, Normal(codec, v), 0, Write(codec, v, pretty, 0))
  {
    hide Write, ReadValue, Padded, Normal, WellFormed, Faithful;
    var text := Write(codec, v, pretty, 0);
    ValueRoundTrip(codec, v, pretty, 0, 0, "");
    assert text + "" == text;
    ParseFound(codec, text, Normal(codec, v));
  }
}
