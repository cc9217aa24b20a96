/** UTF-8 as the codec reads and writes it (src/utf8.c, src/json.c): a text is a
    string with one character per byte. Section 4 of RFC 3629. */
module Utf8 {

  /** A Unicode scalar value. */
  predicate Scalar(cp: int) { 0 <= cp < 0xD800 || 0xE000 <= cp < 0x110000 }

  /** (c & 0xC0) == 0x80 */
  predicate Continuation(c: char) { 0x80 <= c as int < 0xC0 }

  /** jx_utf8_seq: length of the well-formed sequence at the start of s, or 0. */
  function SeqLen(s: string): (n: nat)
    ensures n <= |s| && n <= 4
  {
    if s == "" then 0
    else
      var c := s[0] as int;
      if c < 0x80 then 1
      else if c < 0xC2 then 0
      else if c < 0xE0 then if |s| < 2 || !Continuation(s[1]) then 0 else 2
      else if c < 0xF0 then ThreeLen(s)
      else if c < 0xF5 then FourLen(s)
      else 0
  }

  function ThreeLen(s: string): (n: nat)
    requires s != ""
    ensures n <= |s| && n <= 3
  {
    var c := s[0] as int;
    if |s| < 3 || !Continuation(s[1]) || !Continuation(s[2]) then 0
    else if c == 0xE0 && s[1] as int < 0xA0 then 0
    else if c == 0xED && s[1] as int > 0x9F then 0
    else 3
  }

  function FourLen(s: string): (n: nat)
    requires s != ""
    ensures n <= |s| && n <= 4
  {
    var c := s[0] as int;
    if |s| < 4 || !Continuation(s[1]) || !Continuation(s[2]) || !Continuation(s[3]) then 0
    else if c == 0xF0 && s[1] as int < 0x90 then 0
    else if c == 0xF4 && s[1] as int > 0x8F then 0
    else 4
  }

  /** jx_utf8_valid: well-formed sequences all the way. */
  predicate Valid(s: string)
    decreases |s|
  {
    s == "" || (SeqLen(s) > 0 && Valid(s[SeqLen(s)..]))
  }

  method CheckValid(s: string) returns (ok: bool)
    ensures ok == Valid(s)
  {
    var i := 0;
    while i < |s|
      invariant 0 <= i <= |s|
      invariant Valid(s) == Valid(s[i..])
    {
      var n := SeqLen(s[i..]);
      if n == 0 {
        return false;
      }
      assert s[i..][n..] == s[i + n..];
      i := i + n;
    }
    return true;
  }

  function Cont(bits: int): char
    requires 0 <= bits < 64
  {
    (0x80 + bits) as char
  }

  /** utf8_encode */
  function Encode(cp: int): (s: string)
    requires Scalar(cp)
    ensures 1 <= |s| <= 4
  {
    if cp < 0x80 then [cp as char]
    else if cp < 0x800 then [(0xC0 + cp / 64) as char, Cont(cp % 64)]
    else if cp < 0x10000 then [(0xE0 + cp / 4096) as char, Cont(cp / 64 % 64), Cont(cp % 64)]
    else [(0xF0 + cp / 262144) as char, Cont(cp / 4096 % 64), Cont(cp / 64 % 64), Cont(cp % 64)]
  }

  /** The scalar value a well-formed sequence denotes. */
  function Decode(s: string): int
    requires SeqLen(s) == |s| > 0
  {
    if |s| == 1 then s[0] as int
    else if |s| == 2 then (s[0] as int - 0xC0) * 64 + (s[1] as int - 0x80)
    else if |s| == 3 then (s[0] as int - 0xE0) * 4096 + (s[1] as int - 0x80) * 64 + (s[2] as int - 0x80)
    else (s[0] as int - 0xF0) * 262144 + (s[1] as int - 0x80) * 4096 + (s[2] as int - 0x80) * 64 + (s[3] as int - 0x80)
  }

  /** Bytes after a sequence do not change its reading. */
  lemma {:induction false} SeqLenLocal(s: string, rest: string)
    requires SeqLen(s) > 0
    ensures SeqLen(s + rest) == SeqLen(s)
  {
  }

  lemma {:induction false} SeqLenPrefix(s: string)
    requires SeqLen(s) > 0
    ensures SeqLen(s[..SeqLen(s)]) == SeqLen(s)
  {
  }

  /** The base-64 digits of a code point, however they are shifted out. */
  lemma {:induction false} Sextets(cp: nat)
    ensures cp / 4096 == cp / 64 / 64 && cp / 262144 == cp / 64 / 64 / 64
    ensures cp == cp / 64 * 64 + cp % 64
    ensures cp / 64 == cp / 4096 * 64 + cp / 64 % 64
    ensures cp / 4096 == cp / 262144 * 64 + cp / 4096 % 64
  {
  }

  lemma {:induction false} Joined(a: int, b: int)
    requires 0 <= b < 64
    ensures (a * 64 + b) / 64 == a && (a * 64 + b) % 64 == b
  {
  }

  /** Every scalar value is encoded as one accepted sequence that denotes it. */
  lemma {:induction false} EncodeAccepted(cp: int)
    requires Scalar(cp)
    ensures SeqLen(Encode(cp)) == |Encode(cp)| && Decode(Encode(cp)) == cp
  {
    Sextets(cp);
  }

  /** Every accepted sequence is the encoding of exactly one scalar value. */
  lemma {:induction false} AcceptedEncodes(s: string)
    requires SeqLen(s) == |s| > 0
    ensures Scalar(Decode(s)) && Encode(Decode(s)) == s
    ensures forall cp :: Scalar(cp) && Encode(cp) == s ==> cp == Decode(s)
  {
    if |s| == 2 {
      AcceptedTwo(s);
    } else if |s| == 3 {
      AcceptedThree(s);
    } else if |s| == 4 {
      AcceptedFour(s);
    }
    forall cp | Scalar(cp) && Encode(cp) == s
      ensures cp == Decode(s)
    {
      EncodeAccepted(cp);
    }
  }

  lemma {:induction false} AcceptedTwo(s: string)
    requires SeqLen(s) == |s| == 2
    ensures Scalar(Decode(s)) && Encode(Decode(s)) == s
  {
    Joined(s[0] as int - 0xC0, s[1] as int - 0x80);
  }

  lemma {:induction false} AcceptedThree(s: string)
    requires SeqLen(s) == |s| == 3
    ensures Scalar(Decode(s)) && Encode(Decode(s)) == s
  {
    var a, b, c := s[0] as int - 0xE0, s[1] as int - 0x80, s[2] as int - 0x80;
    assert Decode(s) == (a * 64 + b) * 64 + c;
    Joined(a * 64 + b, c);
    Joined(a, b);
    Sextets(Decode(s));
  }

  lemma {:induction false} AcceptedFour(s: string)
    requires SeqLen(s) == |s| == 4
    ensures Scalar(Decode(s)) && Encode(Decode(s)) == s
  {
    var a, b, c, d := s[0] as int - 0xF0, s[1] as int - 0x80, s[2] as int - 0x80, s[3] as int - 0x80;
    assert Decode(s) == ((a * 64 + b) * 64 + c) * 64 + d;
    Joined((a * 64 + b) * 64 + c, d);
    Joined(a * 64 + b, c);
    Joined(a, b);
    Sextets(Decode(s));
  }

  lemma {:induction false} SeqHigh(s: string)
    requires SeqLen(s) > 1
    ensures forall i :: 0 <= i < SeqLen(s) ==> s[i] as int >= 0x80
  {
  }

  /** Well-formed texts are closed under appending one character. */
  lemma {:induction false} ValidSnoc(s: string, one: string)
    requires Valid(s) && SeqLen(one) == |one| > 0
    ensures Valid(s + one)
    decreases |s|
  {
    if s == "" {
      assert s + one == one && one[|one|..] == "";
    } else {
      var n := SeqLen(s);
      SeqLenLocal(s, one);
      ValidSnoc(s[n..], one);
      assert (s + one)[n..] == s[n..] + one;
    }
  }

  function EncodeAll(cps: seq<int>): string
    requires forall i :: 0 <= i < |cps| ==> Scalar(cps[i])
  {
    if cps == [] then "" else Encode(cps[0]) + EncodeAll(cps[1..])
  }

  function DecodeAll(s: string): (cps: seq<int>)
    requires Valid(s)
    ensures forall i :: 0 <= i < |cps| ==> Scalar(cps[i])
    decreases |s|
  {
    if s == "" then []
    else
      var n := SeqLen(s);
      SeqLenPrefix(s);
      AcceptedEncodes(s[..n]);
      [Decode(s[..n])] + DecodeAll(s[n..])
  }

  /** The well-formed texts are exactly the encodings of scalar sequences. */
  lemma {:induction false} ValidEncodes(s: string)
    requires Valid(s)
    ensures EncodeAll(DecodeAll(s)) == s
    decreases |s|
  {
    hide Encode, Decode, SeqLen;
    if s != "" {
      var n := SeqLen(s);
      SeqLenPrefix(s);
      AcceptedEncodes(s[..n]);
      ValidEncodes(s[n..]);
      assert s == s[..n] + s[n..];
    }
  }

  lemma {:induction false} EncodesValid(cps: seq<int>)
    requires forall i :: 0 <= i < |cps| ==> Scalar(cps[i])
    ensures Valid(EncodeAll(cps)) && DecodeAll(EncodeAll(cps)) == cps
  {
    if cps != [] {
      var one, rest := Encode(cps[0]), EncodeAll(cps[1..]);
      EncodeAccepted(cps[0]);
      SeqLenLocal(one, rest);
      EncodesValid(cps[1..]);
      assert (one + rest)[..|one|] == one && (one + rest)[|one|..] == rest;
    }
  }

  // ---- surrogate pairs ----------------------------------------------------------------

  predicate High(unit: int) { 0xD800 <= unit <= 0xDBFF }

  predicate Low(unit: int) { 0xDC00 <= unit <= 0xDFFF }

  function Combine(high: int, low: int): int { 0x10000 + (high - 0xD800) * 1024 + (low - 0xDC00) }

  /** Pairs of surrogates are exactly the scalar values beyond the basic plane. */
  lemma {:induction false} SurrogatePairs(cp: int)
    requires 0x10000 <= cp < 0x110000
    ensures var high, low := 0xD800 + (cp - 0x10000) / 1024, 0xDC00 + (cp - 0x10000) % 1024;
            && High(high) && Low(low) && Combine(high, low) == cp
            && forall h, l :: High(h) && Low(l) && Combine(h, l) == cp ==> h == high && l == low
  {
  }

  lemma {:induction false} CombineScalar(high: int, low: int)
    requires High(high) && Low(low)
    ensures Scalar(Combine(high, low)) && Combine(high, low) >= 0x10000
  {
  }
}
