/** The compression function of SHA-256 (src/sha256.c). Sections 4.1.2, 4.2.2, 5.3.3 and
    6.2.2 of FIPS 180-4. */
module Rounds {
  type Byte = b: int | 0 <= b < 256

  const BLOCK := 64

  // ---- the standard's functions ---------------------------------------------------------------

  // Word operations, wrapping at 32 bits.

  function Plus(x: bv32, y: bv32): bv32 { x + y }

  function And(x: bv32, y: bv32): bv32 { x & y }

  function Xor(x: bv32, y: bv32): bv32 { x ^ y }

  function Not(x: bv32): bv32 { !x }

  function Shr(x: bv32, n: bv32): bv32
    requires n < 32
  {
    x >> n
  }

  function Ror(x: bv32, n: bv32): bv32
    requires 0 < n < 32
  {
    (x >> n) | (x << (32 - n))
  }

  function Small0(x: bv32): bv32 { Xor(Xor(Ror(x, 7), Ror(x, 18)), Shr(x, 3)) }

  function Small1(x: bv32): bv32 { Xor(Xor(Ror(x, 17), Ror(x, 19)), Shr(x, 10)) }

  function Big0(x: bv32): bv32 { Xor(Xor(Ror(x, 2), Ror(x, 13)), Ror(x, 22)) }

  function Big1(x: bv32): bv32 { Xor(Xor(Ror(x, 6), Ror(x, 11)), Ror(x, 25)) }

  function Ch(x: bv32, y: bv32, z: bv32): bv32 { Xor(And(x, y), And(Not(x), z)) }

  function Maj(x: bv32, y: bv32, z: bv32): bv32 { Xor(Xor(And(x, y), And(x, z)), And(y, z)) }

  function Constants(): (k: seq<bv32>)
    ensures |k| == 64
  {
    [0x428a2f98, 0x71374491, 0xb5c0fbcf, 0xe9b5dba5, 0x3956c25b, 0x59f111f1, 0x923f82a4, 0xab1c5ed5]
    + [0xd807aa98, 0x12835b01, 0x243185be, 0x550c7dc3, 0x72be5d74, 0x80deb1fe, 0x9bdc06a7, 0xc19bf174]
    + [0xe49b69c1, 0xefbe4786, 0x0fc19dc6, 0x240ca1cc, 0x2de92c6f, 0x4a7484aa, 0x5cb0a9dc, 0x76f988da]
    + [0x983e5152, 0xa831c66d, 0xb00327c8, 0xbf597fc7, 0xc6e00bf3, 0xd5a79147, 0x06ca6351, 0x14292967]
    + [0x27b70a85, 0x2e1b2138, 0x4d2c6dfc, 0x53380d13, 0x650a7354, 0x766a0abb, 0x81c2c92e, 0x92722c85]
    + [0xa2bfe8a1, 0xa81a664b, 0xc24b8b70, 0xc76c51a3, 0xd192e819, 0xd6990624, 0xf40e3585, 0x106aa070]
    + [0x19a4c116, 0x1e376c08, 0x2748774c, 0x34b0bcb5, 0x391c0cb3, 0x4ed8aa4a, 0x5b9cca4f, 0x682e6ff3]
    + [0x748f82ee, 0x78a5636f, 0x84c87814, 0x8cc70208, 0x90befffa, 0xa4506ceb, 0xbef9a3f7, 0xc67178f2]
  }

  function Initial(): (s: seq<bv32>)
    ensures |s| == 8
  {
    [0x6a09e667, 0xbb67ae85, 0x3c6ef372, 0xa54ff53a, 0x510e527f, 0x9b05688c, 0x1f83d9ab, 0x5be0cd19]
  }

  function Joined(a: Byte, b: Byte, c: Byte, d: Byte): bv32 {
    (a as bv32 << 24) | (b as bv32 << 16) | (c as bv32 << 8) | d as bv32
  }

  /** Word i of a block, the most significant byte first. */
  function WordAt(block: seq<Byte>, i: nat): bv32
    requires |block| == BLOCK && i < 16
  {
    Joined(block[i * 4], block[i * 4 + 1], block[i * 4 + 2], block[i * 4 + 3])
  }

  /** The first n words of the message schedule. */
  function Schedule(block: seq<Byte>, n: nat): (w: seq<bv32>)
    requires |block| == BLOCK
    ensures |w| == n
  {
    if n == 0 then []
    else
      var w, t := Schedule(block, n - 1), n - 1;
      w + [if t < 16 then WordAt(block, t) else Plus(Plus(Plus(w[t - 16], Small0(w[t - 15])), w[t - 7]), Small1(w[t - 2]))]
  }

  datatype Working = Working(a: bv32, b: bv32, c: bv32, d: bv32, e: bv32, f: bv32, g: bv32, h: bv32)

  function Round(v: Working, k: bv32, w: bv32): Working {
    var t1 := Plus(Plus(Plus(Plus(v.h, Big1(v.e)), Ch(v.e, v.f, v.g)), k), w);
    var t2 := Plus(Big0(v.a), Maj(v.a, v.b, v.c));
    Working(Plus(t1, t2), v.a, v.b, v.c, Plus(v.d, t1), v.e, v.f, v.g)
  }

  /** The working variables after n rounds. */
  function After(v: Working, w: seq<bv32>, n: nat): Working
    requires n <= |w| == 64
  {
    if n == 0 then v else Round(After(v, w, n - 1), Constants()[n - 1], w[n - 1])
  }

  function Opened(s: seq<bv32>): Working
    requires |s| == 8
  {
    Working(s[0], s[1], s[2], s[3], s[4], s[5], s[6], s[7])
  }

  /** The hash value after one more block. */
  function Compressed(s: seq<bv32>, block: seq<Byte>): (r: seq<bv32>)
    requires |s| == 8 && |block| == BLOCK
    ensures |r| == 8
  {
    var v := After(Opened(s), Schedule(block, 64), 64);
    [Plus(s[0], v.a), Plus(s[1], v.b), Plus(s[2], v.c), Plus(s[3], v.d), Plus(s[4], v.e), Plus(s[5], v.f), Plus(s[6], v.g), Plus(s[7], v.h)]
  }

  // ---- sha256_transform ---------------------------------------------------------------------------

  lemma {:induction false} ScheduleNext(block: seq<Byte>, w: seq<bv32>, i: nat, x: bv32)
    requires |block| == BLOCK && w == Schedule(block, i)
    requires x == if i < 16 then WordAt(block, i) else Plus(Plus(Plus(w[i - 16], Small0(w[i - 15])), w[i - 7]), Small1(w[i - 2]))
    ensures w + [x] == Schedule(block, i + 1)
  {
    hide WordAt, Small0, Small1, Plus;
  }

  lemma {:induction false} ScheduleNone(block: seq<Byte>)
    requires |block| == BLOCK
    ensures Schedule(block, 0) == []
  {
  }

  /** The message schedule, computed in an array. */
  method Expand(block: seq<Byte>, w: array<bv32>)
    requires |block| == BLOCK && w.Length == 64
    modifies w
    ensures w[..] == Schedule(block, 64)
  {
    hide Plus, Xor, Ror, Shr, Joined, Schedule;
    ScheduleNone(block);
    for i := 0 to 16
      invariant w[..i] == Schedule(block, i)
    {
      ghost var done := w[..i];
      w[i] := Joined(block[i * 4], block[i * 4 + 1], block[i * 4 + 2], block[i * 4 + 3]);
      ScheduleNext(block, done, i, w[i]);
      assert w[..i + 1] == done + [w[i]];
    }
    for i := 16 to 64
      invariant w[..i] == Schedule(block, i)
    {
      ghost var done := w[..i];
      var s0 := Xor(Xor(Ror(w[i - 15], 7), Ror(w[i - 15], 18)), Shr(w[i - 15], 3));
      var s1 := Xor(Xor(Ror(w[i - 2], 17), Ror(w[i - 2], 19)), Shr(w[i - 2], 10));
      w[i] := Plus(Plus(Plus(w[i - 16], s0), w[i - 7]), s1);
      ScheduleNext(block, done, i, w[i]);
      assert w[..i + 1] == done + [w[i]];
    }
    assert w[..64] == w[..];
  }

  /** The eight working variables turned 64 times. */
  method Turn(start: Working, w: array<bv32>) returns (v: Working)
    requires w.Length == 64
    ensures v == After(start, w[..], 64)
  {
    hide Constants, Plus, Xor, Ror, And, Not;
    var a, b, c, d := start.a, start.b, start.c, start.d;
    var e, f, g, h := start.e, start.f, start.g, start.h;
    for i := 0 to 64
      invariant Working(a, b, c, d, e, f, g, h) == After(start, w[..], i)
    {
      var s1 := Xor(Xor(Ror(e, 6), Ror(e, 11)), Ror(e, 25));
      var ch := Xor(And(e, f), And(Not(e), g));
      var t1 := Plus(Plus(Plus(Plus(h, s1), ch), Constants()[i]), w[i]);
      var s0 := Xor(Xor(Ror(a, 2), Ror(a, 13)), Ror(a, 22));
      var maj := Xor(Xor(And(a, b), And(a, c)), And(b, c));
      var t2 := Plus(s0, maj);
      h := g;
      g := f;
      f := e;
      e := Plus(d, t1);
      d := c;
      c := b;
      b := a;
      a := Plus(t1, t2);
    }
    v := Working(a, b, c, d, e, f, g, h);
  }

  /** The words that astools_sha256_init stores. */
  method Start() returns (state: array<bv32>)
    ensures fresh(state) && state.Length == 8 && state[..] == Initial()
  {
    state := new bv32[8];
    state[0] := 0x6a09e667;
    state[1] := 0xbb67ae85;
    state[2] := 0x3c6ef372;
    state[3] := 0xa54ff53a;
    state[4] := 0x510e527f;
    state[5] := 0x9b05688c;
    state[6] := 0x1f83d9ab;
    state[7] := 0x5be0cd19;
  }

  /** sha256_transform */
  method Transform(state: array<bv32>, block: seq<Byte>)
    requires state.Length == 8 && |block| == BLOCK
    modifies state
    ensures state[..] == Compressed(old(state[..]), block)
  {
    hide Schedule, After, Plus;
    var w := new bv32[64];
    Expand(block, w);
    ghost var s := state[..];
    var v := Turn(Working(state[0], state[1], state[2], state[3], state[4], state[5], state[6], state[7]), w);
    assert v == After(Opened(s), Schedule(block, 64), 64);
    state[0] := Plus(state[0], v.a);
    state[1] := Plus(state[1], v.b);
    state[2] := Plus(state[2], v.c);
    state[3] := Plus(state[3], v.d);
    state[4] := Plus(state[4], v.e);
    state[5] := Plus(state[5], v.f);
    state[6] := Plus(state[6], v.g);
    state[7] := Plus(state[7], v.h);
    assert state[..] == Compressed(s, block);
  }

  // ---- the digest as bytes --------------------------------------------------------------------------

  /** Byte k of a word, the most significant first. */
  function ByteOf(w: bv32, k: nat): Byte
    requires k < 4
  {
    ((w >> (24 - 8 * k)) & 0xFF) as bv8 as int
  }

  function Output(s: seq<bv32>): (out: seq<Byte>)
    requires |s| == 8
    ensures |out| == 32
  {
    seq(32, j requires 0 <= j < 32 => ByteOf(s[j / 4], j % 4))
  }

  /** The last loop of astools_sha256_final. */
  method WriteOut(state: array<bv32>) returns (out: array<Byte>)
    requires state.Length == 8
    ensures fresh(out) && out[..] == Output(state[..])
  {
    hide ByteOf;
    out := new Byte[32](_ => 0);
    for i := 0 to 8
      invariant forall j :: 0 <= j < 4 * i ==> out[j] == ByteOf(state[j / 4], j % 4)
    {
      out[i * 4] := ByteOf(state[i], 0);
      out[i * 4 + 1] := ByteOf(state[i], 1);
      out[i * 4 + 2] := ByteOf(state[i], 2);
      out[i * 4 + 3] := ByteOf(state[i], 3);
    }
  }
}
