/** Base64 by the bits of the data: section 4 of RFC 4648 (src/util.c). */
module Base64Bits {
  import opened Base64

  const CAPITALS := "ABCDEFGHIJKLMNOPQRSTUVWXYZ"
  const SMALLS := "abcdefghijklmnopqrstuvwxyz"
  const OTHERS := "0123456789+/"
  const ALPHABET := CAPITALS + SMALLS + OTHERS

  function BitOf(a: Byte, i: nat): nat {
    if i == 0 then a / 128 % 2 else if i == 1 then a / 64 % 2 else if i == 2 then a / 32 % 2 else if i == 3 then a / 16 % 2
    else if i == 4 then a / 8 % 2 else if i == 5 then a / 4 % 2 else if i == 6 then a / 2 % 2 else a % 2
  }

  /** Bit j of the data, the most significant of each byte first, and zeros after the end. */
  function Bit(data: seq<Byte>, j: nat): nat { if j / 8 < |data| then BitOf(data[j / 8], j % 8) else 0 }

  /** The number that bits 6k to 6k + 5 form. */
  function Sextet(data: seq<Byte>, k: nat): nat {
    32 * Bit(data, 6 * k) + 16 * Bit(data, 6 * k + 1) + 8 * Bit(data, 6 * k + 2)
    + 4 * Bit(data, 6 * k + 3) + 2 * Bit(data, 6 * k + 4) + Bit(data, 6 * k + 5)
  }

  /** Every six bits of the data give a letter; the text is filled up to groups of four. */
  ghost predicate IsText(data: seq<Byte>, s: string) {
    && |s| == (|data| + 2) / 3 * 4
    && forall k :: 0 <= k < |s| ==> s[k] == Letter(data, k)
  }

  function Letter(data: seq<Byte>, k: nat): char {
    if 6 * k >= 8 * |data| then '=' else if Sextet(data, k) < |ALPHABET| then ALPHABET[Sextet(data, k)] else '='
  }

  // ---- letters ---------------------------------------------------------------------------------

  lemma {:induction false} Sizes()
    ensures |CAPITALS| == 26 == |SMALLS| && |OTHERS| == 12 && |ALPHABET| == 64
  {
  }

  lemma {:induction false} Capital(v: int)
    requires 0 <= v < 26
    ensures v < |CAPITALS| && CAPITALS[v] == Char(v)
  {
  }

  lemma {:induction false} Small(v: int)
    requires 26 <= v < 52
    ensures v - 26 < |SMALLS| && SMALLS[v - 26] == Char(v)
  {
  }

  lemma {:induction false} Other(v: int)
    requires 52 <= v < 64
    ensures v - 52 < |OTHERS| && OTHERS[v - 52] == Char(v)
  {
  }

  lemma {:induction false} CharIs(v: int)
    requires 0 <= v < 64
    ensures |ALPHABET| == 64 && ALPHABET[v] == Char(v)
  {
    Sizes();
    if v < 26 {
      Capital(v);
    } else if v < 52 {
      Small(v);
    } else {
      Other(v);
    }
  }

  // ---- bits ---------------------------------------------------------------------------------------

  lemma {:induction false} HighHalves(a: Byte)
    ensures a / 64 == a / 128 * 2 + a / 64 % 2 && a / 32 == a / 64 * 2 + a / 32 % 2
    ensures a / 16 == a / 32 * 2 + a / 16 % 2 && a / 128 % 2 == a / 128
  {
  }

  lemma {:induction false} LowHalves(a: Byte)
    ensures a / 8 == a / 16 * 2 + a / 8 % 2 && a / 4 == a / 8 * 2 + a / 4 % 2
    ensures a / 2 == a / 4 * 2 + a / 2 % 2 && a == a / 2 * 2 + a % 2
  {
  }

  /** The parts of a byte that fall into one sextet. */
  lemma {:induction false} Parts(a: Byte)
    ensures 32 * BitOf(a, 0) + 16 * BitOf(a, 1) + 8 * BitOf(a, 2) + 4 * BitOf(a, 3) + 2 * BitOf(a, 4) + BitOf(a, 5) == a / 4
    ensures 8 * BitOf(a, 0) + 4 * BitOf(a, 1) + 2 * BitOf(a, 2) + BitOf(a, 3) == a / 16
    ensures 2 * BitOf(a, 0) + BitOf(a, 1) == a / 64
    ensures 2 * BitOf(a, 6) + BitOf(a, 7) == a - 4 * (a / 4)
    ensures 8 * BitOf(a, 4) + 4 * BitOf(a, 5) + 2 * BitOf(a, 6) + BitOf(a, 7) == a - 16 * (a / 16)
    ensures 32 * BitOf(a, 2) + 16 * BitOf(a, 3) + 8 * BitOf(a, 4) + 4 * BitOf(a, 5) + 2 * BitOf(a, 6) + BitOf(a, 7) == a - 64 * (a / 64)
  {
    HighHalves(a);
    LowHalves(a);
  }

  // The sextets that three bytes form.

  function First(a: Byte): (v: nat)
    ensures v < 64
  {
    a / 4
  }

  function Second(a: Byte, b: Byte): (v: nat)
    ensures v < 64
  {
    16 * (a - 4 * (a / 4)) + b / 16
  }

  function Third(b: Byte, c: Byte): (v: nat)
    ensures v < 64
  {
    4 * (b - 16 * (b / 16)) + c / 64
  }

  function Fourth(c: Byte): (v: nat)
    ensures v < 64
  {
    c - 64 * (c / 64)
  }

  lemma {:induction false} AtLeast(d: int, e: int)
    requires d > 0 && e >= 1
    ensures d * e >= d
  {
  }

  /** Dividing what is a multiple of the divisor and a rest. */
  lemma {:induction false} Divided(v: int, q: int, r: int, d: int)
    requires d > 0 && 0 <= r < d && v == q * d + r
    ensures v / d == q && v % d == r
  {
    var e := v / d - q;
    assert v == d * (v / d) + v % d;
    assert d * e == r - v % d;
    if e >= 1 {
      AtLeast(d, e);
    } else if e <= -1 {
      AtLeast(d, -e);
    }
  }

  lemma {:induction false} GroupParts(a: Byte, b: Byte, c: Byte, v: int)
    requires v == 65536 * a + 256 * b + c
    ensures v / 262144 == First(a) && v / 4096 % 64 == Second(a, b) && v / 64 % 64 == Third(b, c) && v % 64 == Fourth(c)
  {
    var x, y, z, w := First(a), Second(a, b), Third(b, c), Fourth(c);
    assert v == 262144 * x + 4096 * y + 64 * z + w;
    hide First, Second, Third, Fourth;
    Divided(v, 4096 * x + 64 * y + z, w, 64);
    Divided(v, 64 * x + y, 64 * z + w, 4096);
    Divided(v, x, 4096 * y + 64 * z + w, 262144);
    Divided(4096 * x + 64 * y + z, 64 * x + y, z, 64);
    Divided(64 * x + y, x, y, 64);
  }

  lemma {:induction false} ThreeIs(a: Byte, b: Byte, c: Byte)
    ensures Three(a, b, c) == [Char(First(a)), Char(Second(a, b)), Char(Third(b, c)), Char(Fourth(c))]
  {
    hide Char, First, Second, Third, Fourth;
    GroupParts(a, b, c, (a * 256 + b) * 256 + c);
  }

  lemma {:induction false} TwoIs(a: Byte, b: Byte)
    ensures Two(a, b) == [Char(First(a)), Char(Second(a, b)), Char(Third(b, 0)), '=']
  {
    hide Char, First, Second, Third, Fourth;
    GroupParts(a, b, 0, (a * 256 + b) * 256);
  }

  lemma {:induction false} OneIs(a: Byte)
    ensures One(a) == [Char(First(a)), Char(Second(a, 0)), '=', '=']
  {
    hide Char, First, Second, Third, Fourth;
    GroupParts(a, 0, 0, a * 65536);
  }

  /** The byte that stands at place n, or zero after the end. */
  function ByteAt(data: seq<Byte>, n: nat): Byte { if n < |data| then data[n] else 0 }

  lemma {:induction false} BitsOfZero(i: nat)
    ensures BitOf(0, i) == 0
  {
  }

  lemma {:induction false} BitAt(data: seq<Byte>, n: nat, i: nat)
    requires i < 8
    ensures Bit(data, 8 * n + i) == BitOf(ByteAt(data, n), i)
  {
    BitsOfZero(i);
    hide BitOf;
    assert (8 * n + i) / 8 == n && (8 * n + i) % 8 == i;
  }

  lemma {:induction false} FirstBits(data: seq<Byte>)
    ensures var a, b, c := ByteAt(data, 0), ByteAt(data, 1), ByteAt(data, 2);
            Sextet(data, 0) == First(a) && Sextet(data, 1) == Second(a, b) && Sextet(data, 2) == Third(b, c) && Sextet(data, 3) == Fourth(c)
  {
    var a, b, c := ByteAt(data, 0), ByteAt(data, 1), ByteAt(data, 2);
    BytesAt(data);
    hide Bit, ByteAt, Sextet;
    Spread(data, a, b, c);
    Parts(a);
    Parts(b);
    Parts(c);
    hide BitOf;
  }

  lemma {:induction false} BytesAt(data: seq<Byte>)
    ensures forall i :: 0 <= i < 8 ==> Bit(data, i) == BitOf(ByteAt(data, 0), i)
    ensures forall i :: 0 <= i < 8 ==> Bit(data, 8 + i) == BitOf(ByteAt(data, 1), i)
    ensures forall i :: 0 <= i < 8 ==> Bit(data, 16 + i) == BitOf(ByteAt(data, 2), i)
  {
    hide Bit, BitOf, ByteAt;
    forall i | 0 <= i < 8
      ensures Bit(data, i) == BitOf(ByteAt(data, 0), i)
      ensures Bit(data, 8 + i) == BitOf(ByteAt(data, 1), i)
      ensures Bit(data, 16 + i) == BitOf(ByteAt(data, 2), i)
    {
      BitAt(data, 0, i);
      BitAt(data, 1, i);
      BitAt(data, 2, i);
    }
  }

  lemma {:induction false} Spread(data: seq<Byte>, a: Byte, b: Byte, c: Byte)
    requires forall i :: 0 <= i < 8 ==> Bit(data, i) == BitOf(a, i)
    requires forall i :: 0 <= i < 8 ==> Bit(data, 8 + i) == BitOf(b, i)
    requires forall i :: 0 <= i < 8 ==> Bit(data, 16 + i) == BitOf(c, i)
    ensures Sextet(data, 0) == 32 * BitOf(a, 0) + 16 * BitOf(a, 1) + 8 * BitOf(a, 2) + 4 * BitOf(a, 3) + 2 * BitOf(a, 4) + BitOf(a, 5)
    ensures Sextet(data, 1) == 32 * BitOf(a, 6) + 16 * BitOf(a, 7) + 8 * BitOf(b, 0) + 4 * BitOf(b, 1) + 2 * BitOf(b, 2) + BitOf(b, 3)
    ensures Sextet(data, 2) == 32 * BitOf(b, 4) + 16 * BitOf(b, 5) + 8 * BitOf(b, 6) + 4 * BitOf(b, 7) + 2 * BitOf(c, 0) + BitOf(c, 1)
    ensures Sextet(data, 3) == 32 * BitOf(c, 2) + 16 * BitOf(c, 3) + 8 * BitOf(c, 4) + 4 * BitOf(c, 5) + 2 * BitOf(c, 6) + BitOf(c, 7)
  {
    hide Bit, BitOf;
    assert Bit(data, 8) == Bit(data, 8 + 0) && Bit(data, 16) == Bit(data, 16 + 0);
  }

  lemma {:induction false} BitShift(data: seq<Byte>, j: nat)
    requires |data| >= 3
    ensures Bit(data, j + 24) == Bit(data[3..], j)
  {
    assert (j + 24) / 8 == j / 8 + 3 && (j + 24) % 8 == j % 8;
  }

  lemma {:induction false} SextetShift(data: seq<Byte>, k: nat)
    requires |data| >= 3
    ensures Sextet(data, k + 4) == Sextet(data[3..], k)
  {
    hide Bit;
    BitShift(data, 6 * k);
    BitShift(data, 6 * k + 1);
    BitShift(data, 6 * k + 2);
    BitShift(data, 6 * k + 3);
    BitShift(data, 6 * k + 4);
    BitShift(data, 6 * k + 5);
  }

  // ---- the encoding --------------------------------------------------------------------------------------

  lemma {:induction false} LetterIs(data: seq<Byte>, k: nat, v: int)
    requires 6 * k < 8 * |data| && 0 <= v < 64 && Sextet(data, k) == v
    ensures Letter(data, k) == Char(v)
  {
    CharIs(v);
    hide Sextet, Char;
  }

  lemma {:induction false} FrontLetters(data: seq<Byte>)
    requires |data| >= 3
    ensures forall k :: 0 <= k < 4 ==> Three(data[0], data[1], data[2])[k] == Letter(data, k)
  {
    FirstBits(data);
    ThreeIs(data[0], data[1], data[2]);
    hide Letter, Sextet, Char, Three, First, Second, Third, Fourth;
    LetterIs(data, 0, First(data[0]));
    LetterIs(data, 1, Second(data[0], data[1]));
    LetterIs(data, 2, Third(data[1], data[2]));
    LetterIs(data, 3, Fourth(data[2]));
  }

  lemma {:induction false} TwoLetters(data: seq<Byte>)
    requires |data| == 2
    ensures IsText(data, Two(data[0], data[1]))
  {
    FirstBits(data);
    TwoIs(data[0], data[1]);
    assert Letter(data, 3) == '=';
    hide Letter, Sextet, Char, Two, First, Second, Third, Fourth, IsText;
    LetterIs(data, 0, First(data[0]));
    LetterIs(data, 1, Second(data[0], data[1]));
    LetterIs(data, 2, Third(data[1], 0));
    FourText(data, Two(data[0], data[1]));
  }

  lemma {:induction false} FourText(data: seq<Byte>, s: string)
    requires 1 <= |data| <= 3 && |s| == 4
    requires s[0] == Letter(data, 0) && s[1] == Letter(data, 1) && s[2] == Letter(data, 2) && s[3] == Letter(data, 3)
    ensures IsText(data, s)
  {
    hide Letter;
  }

  lemma {:induction false} OneLetter(data: seq<Byte>)
    requires |data| == 1
    ensures IsText(data, One(data[0]))
  {
    FirstBits(data);
    OneIs(data[0]);
    assert Letter(data, 2) == '=' && Letter(data, 3) == '=';
    hide Letter, Sextet, Char, One, First, Second, Third, Fourth, IsText;
    LetterIs(data, 0, First(data[0]));
    LetterIs(data, 1, Second(data[0], 0));
    FourText(data, One(data[0]));
  }

  /** The encoding, letter by letter from the bits of the data. */
  lemma {:induction false} EncodeExactly(data: seq<Byte>)
    ensures IsText(data, Encode(data))
    decreases |data|
  {
    if |data| >= 3 {
      EncodeExactly(data[3..]);
      FrontLetters(data);
      EncodeFront(data);
      hide Encode, Three, Letter;
      GroupText(data, Three(data[0], data[1], data[2]), Encode(data[3..]));
    } else if |data| == 2 {
      TwoLetters(data);
    } else if |data| == 1 {
      OneLetter(data);
    }
  }

  lemma {:induction false} GroupText(data: seq<Byte>, group: string, rest: string)
    requires |data| >= 3 && |group| == 4 && (forall k :: 0 <= k < 4 ==> group[k] == Letter(data, k)) && IsText(data[3..], rest)
    ensures IsText(data, group + rest)
  {
    hide Letter;
    var s := group + rest;
    forall k | 0 <= k < |s|
      ensures s[k] == Letter(data, k)
    {
      if k >= 4 {
        LetterShift(data, k - 4);
      }
    }
  }

  lemma {:induction false} LetterShift(data: seq<Byte>, k: nat)
    requires |data| >= 3
    ensures Letter(data, k + 4) == Letter(data[3..], k)
  {
    SextetShift(data, k);
    hide Sextet;
  }
}
