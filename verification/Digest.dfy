/** Streaming SHA-256 (src/sha256.c): buffering and padding around the compression
    function. Sections 5.1.1 and 6.2 of FIPS 180-4. */
module Digest {
  import opened Rounds

  const TWO64 := 0x1_0000_0000_0000_0000

  /** The compression function folded over the blocks of a message. */
  function Fold(state: seq<bv32>, m: seq<Byte>): (r: seq<bv32>)
    requires |state| == 8
    ensures |r| == 8
    decreases |m|
  {
    if |m| < BLOCK then state else Fold(Compressed(state, m[..BLOCK]), m[BLOCK..])
  }

  /** Eight bytes, the most significant first. */
  function BigEndian(n: nat, k: nat): (r: seq<Byte>)
    ensures |r| == k
  {
    if k == 0 then [] else BigEndian(n / 256, k - 1) + [n % 256]
  }

  function Zeros(n: nat): (r: seq<Byte>)
    ensures |r| == n
  {
    if n == 0 then [] else Zeros(n - 1) + [0]
  }

  /** How many zeros bring a message and its 0x80 to 56 bytes modulo the block. */
  function Gap(n: nat): (k: nat)
    ensures (n + 1 + k) % BLOCK == 56 && k < BLOCK
  {
    (119 - n % BLOCK) % BLOCK
  }

  /** The bit counter after n bytes. */
  function Bits(n: nat): nat { 8 * n % TWO64 }

  /** A 1 bit, zeros, and the length in bits modulo 2^64. */
  function Pad(m: seq<Byte>): seq<Byte> {
    m + [0x80] + Zeros(Gap(|m|)) + BigEndian(Bits(|m|), 8)
  }

  /** The padded message is a whole number of blocks. */
  lemma {:induction false} PadBlocks(m: seq<Byte>)
    ensures |Pad(m)| % BLOCK == 0 && |Pad(m)| == |m| + 9 + Gap(|m|)
  {
    hide Zeros, BigEndian, Bits, Gap;
    Blocks(|m| + 1 + Gap(|m|));
  }

  lemma {:induction false} Blocks(n: nat)
    requires n % BLOCK == 56
    ensures (n + 8) % BLOCK == 0
  {
  }

  /** The 32 bytes that the standard assigns to a message. */
  function Hash(m: seq<Byte>): seq<Byte> { Output(Fold(Initial(), Pad(m))) }

  // ---- folding and splitting ---------------------------------------------------------------

  lemma {:induction false} FoldSplit(state: seq<bv32>, a: seq<Byte>, b: seq<Byte>)
    requires |state| == 8 && |a| % BLOCK == 0
    ensures Fold(state, a + b) == Fold(Fold(state, a), b)
    decreases |a|
  {
    if a == [] {
      assert a + b == b;
    } else {
      assert (a + b)[..BLOCK] == a[..BLOCK] && (a + b)[BLOCK..] == a[BLOCK..] + b;
      FoldSplit(Compressed(state, a[..BLOCK]), a[BLOCK..], b);
    }
  }

  lemma {:induction false} FoldBlock(state: seq<bv32>, block: seq<Byte>)
    requires |state| == 8 && |block| == BLOCK
    ensures Fold(state, block) == Compressed(state, block)
  {
    assert block[..BLOCK] == block && block[BLOCK..] == [];
  }

  /** What a context knows of the message so far: whole blocks are in the state, the
      rest is in the buffer. */
  ghost predicate Holds(m: seq<Byte>, state: seq<bv32>, buffered: seq<Byte>) {
    && |buffered| == |m| % BLOCK && |buffered| <= |m|
    && buffered == m[|m| - |buffered|..]
    && state == Fold(Initial(), m[..|m| - |buffered|])
  }

  lemma {:induction false} HoldsNothing(buffered: seq<Byte>)
    requires buffered == []
    ensures Holds([], Initial(), buffered) && Bits(0) == 0
  {
    hide Initial, Compressed;
  }

  /** Bytes that do not complete a block only extend the buffer. */
  lemma {:induction false} HoldsMore(m: seq<Byte>, state: seq<bv32>, buffered: seq<Byte>, more: seq<Byte>)
    requires Holds(m, state, buffered) && |buffered| + |more| < BLOCK
    ensures Holds(m + more, state, buffered + more)
  {
    hide Fold, Initial;
    var n := |m| - |buffered|;
    assert (m + more)[..n] == m[..n] && (m + more)[n..] == buffered + more;
    assert |m| == n + |buffered| && n % BLOCK == 0;
  }

  /** A completed block goes through the compression function. */
  lemma {:induction false} HoldsBlock(m: seq<Byte>, state: seq<bv32>, buffered: seq<Byte>, more: seq<Byte>)
    requires Holds(m, state, buffered) && |buffered| + |more| == BLOCK
    ensures Holds(m + more, Compressed(state, buffered + more), [])
  {
    hide Fold, Initial, Compressed;
    var n := |m| - |buffered|;
    assert m + more == m[..n] + (buffered + more);
    FoldSplit(Initial(), m[..n], buffered + more);
    FoldBlock(state, buffered + more);
    assert (m + more)[..|m + more|] == m + more;
  }

  // ---- the context ----------------------------------------------------------------------------

  class Context {
    const state: array<bv32>
    const buffer: array<Byte>
    var buflen: nat
    var bitlen: nat
    ghost var message: seq<Byte>

    ghost predicate Valid()
      reads this, state, buffer
    {
      && state.Length == 8 && buffer.Length == BLOCK && buflen < BLOCK
      && bitlen == Bits(|message|)
      && Holds(message, state[..], buffer[..buflen])
    }

    /** astools_sha256_init */
    constructor ()
      ensures Valid() && fresh(state) && fresh(buffer) && message == []
    {
      hide Initial, Holds, Compressed, Bits;
      var words := Start();
      state := words;
      buffer := new Byte[BLOCK];
      buflen, bitlen, message := 0, 0, [];
      HoldsNothing([]);
    }

    /** memcpy into the buffer, compressing it when it is full. */
    method Store(p: seq<Byte>)
      requires state.Length == 8 && buffer.Length == BLOCK && buflen + |p| <= BLOCK && Holds(message, state[..], buffer[..buflen])
      modifies this`buflen, this`message, state, buffer
      ensures buflen < BLOCK && Holds(message, state[..], buffer[..buflen])
      ensures message == old(message) + p
    {
      hide Compressed, Holds;
      ghost var before, words := buffer[..buflen], state[..];
      assert Holds(message, words, before);
      for i := 0 to |p|
        modifies buffer
        invariant buffer[..buflen] == before && state[..] == words
        invariant forall k :: 0 <= k < i ==> buffer[buflen + k] == p[k]
      {
        buffer[buflen + i] := p[i];
      }
      assert buffer[..buflen + |p|] == before + p;
      if buflen + |p| == BLOCK {
        HoldsBlock(message, words, before, p);
        assert buffer[..] == before + p && buffer[..0] == [];
        Transform(state, buffer[..]);
        buflen := 0;
      } else {
        HoldsMore(message, words, before, p);
        buflen := buflen + |p|;
      }
      message := message + p;
    }

    /** A whole block straight from the input. */
    method Compress(p: seq<Byte>)
      requires state.Length == 8 && |p| == BLOCK && Holds(message, state[..], [])
      modifies this`message, state
      ensures Holds(message, state[..], []) && message == old(message) + p
    {
      hide Compressed, Holds;
      HoldsBlock(message, state[..], [], p);
      assert [] + p == p;
      Transform(state, p);
      message := message + p;
    }

    /** One turn of the update loop: how many bytes it took. */
    method Step(p: seq<Byte>) returns (take: nat)
      requires |p| > 0 && state.Length == 8 && buffer.Length == BLOCK && buflen < BLOCK && Holds(message, state[..], buffer[..buflen])
      modifies this`buflen, this`message, state, buffer
      ensures 0 < take <= |p| && message == old(message) + p[..take]
      ensures buflen < BLOCK && Holds(message, state[..], buffer[..buflen])
    {
      hide Holds;
      if buflen == 0 && |p| >= BLOCK {
        assert buffer[..0] == [];
        Compress(p[..BLOCK]);
        assert buffer[..buflen] == [];
        return BLOCK;
      }
      take := if BLOCK - buflen > |p| then |p| else BLOCK - buflen;
      Store(p[..take]);
    }

    /** astools_sha256_update */
    method Update(data: seq<Byte>)
      requires Valid()
      modifies this`buflen, this`bitlen, this`message, state, buffer
      ensures Valid() && message == old(message) + data
    {
      hide Holds, Bits;
      BitsAdd(|message|, |data|);
      bitlen := (bitlen + 8 * |data|) % TWO64;
      var p := data;
      ghost var start := message;
      while |p| > 0
        invariant buflen < BLOCK && Holds(message, state[..], buffer[..buflen])
        invariant message + p == start + data && bitlen == Bits(|start| + |data|)
        decreases |p|
      {
        ghost var before := message;
        var take := Step(p);
        Regroup(before, p, take);
        p := p[take..];
      }
      assert message + [] == message;
    }

    /** The number of buffered bytes is what the message leaves over. */
    lemma {:induction false} Filled()
      requires Valid()
      ensures buflen == |message| % BLOCK
    {
      hide Fold, Bits;
    }

    /** astools_sha256_final: the digest, once the padded message has gone through. */
    method Final() returns (r: array<Byte>)
      requires Valid()
      modifies this`buflen, this`bitlen, this`message, state, buffer
      ensures fresh(r) && r[..] == Hash(old(message))
    {
      ghost var m := message;
      hide Holds, Gap, BigEndian, Bits, Zeros, Fold, Output, Compressed;
      var bits := bitlen;
      PadStart(m);
      Update([0x80]);
      ghost var k := 0;
      while buflen != 56
        invariant Valid() && message == m + [0x80] + Zeros(k) && k <= Gap(|m|)
        decreases Gap(|m|) - k
      {
        Filled();
        GapEnds(|m|, k, buflen);
        PadZero(m, k);
        Update([0]);
        k := k + 1;
      }
      Filled();
      GapIs(|m|, k);
      Update(BigEndian(bits, 8));
      assert message == Pad(m);
      PadBlocks(m);
      Filled();
      Whole(message, state[..], buffer[..buflen]);
      r := WriteOut(state);
    }
  }

  lemma {:induction false} Regroup(m: seq<Byte>, p: seq<Byte>, take: nat)
    requires take <= |p|
    ensures (m + p[..take]) + p[take..] == m + p
  {
    assert p == p[..take] + p[take..];
  }

  lemma {:induction false} BitsAdd(m: nat, n: nat)
    ensures (Bits(m) + 8 * n) % TWO64 == Bits(m + n)
  {
  }

  lemma {:induction false} PadStart(m: seq<Byte>)
    ensures m + [0x80] + Zeros(0) == m + [0x80]
  {
  }

  lemma {:induction false} PadZero(m: seq<Byte>, k: nat)
    ensures m + [0x80] + Zeros(k) + [0] == m + [0x80] + Zeros(k + 1)
  {
  }

  /** With nothing buffered the state is the fold over the whole message. */
  lemma {:induction false} Whole(m: seq<Byte>, state: seq<bv32>, buffered: seq<Byte>)
    requires Holds(m, state, buffered) && |m| % BLOCK == 0
    ensures state == Fold(Initial(), m)
  {
    assert m[..|m|] == m;
  }

  lemma {:induction false} GapEnds(n: nat, k: nat, buflen: nat)
    requires k <= Gap(n) && buflen == (n + 1 + k) % BLOCK && buflen != 56
    ensures k < Gap(n)
  {
  }

  lemma {:induction false} GapIs(n: nat, k: nat)
    requires k <= Gap(n) && (n + 1 + k) % BLOCK == 56
    ensures k == Gap(n)
  {
  }

  // ---- any splitting ------------------------------------------------------------------------------

  function Concat(chunks: seq<seq<Byte>>): seq<Byte> {
    if chunks == [] then [] else Concat(chunks[..|chunks| - 1]) + chunks[|chunks| - 1]
  }

  /** However a message is split into updates, the result is the digest of the whole. */
  method HashChunks(chunks: seq<seq<Byte>>) returns (r: array<Byte>)
    ensures fresh(r) && r[..] == Hash(Concat(chunks))
  {
    hide Holds, Fold, Hash, Pad, Bits;
    var c := new Context();
    for i := 0 to |chunks|
      invariant c.Valid() && c.message == Concat(chunks[..i]) && fresh(c) && fresh(c.state) && fresh(c.buffer)
    {
      assert chunks[..i + 1][..i] == chunks[..i];
      c.Update(chunks[i]);
    }
    assert chunks[..|chunks|] == chunks;
    r := c.Final();
  }

  // ---- the padding is the standard's ----------------------------------------------------------------

  function FromBytes(s: seq<Byte>): nat { if s == [] then 0 else FromBytes(s[..|s| - 1]) * 256 + s[|s| - 1] }

  function Power(k: nat): (p: nat)
    ensures p > 0
  {
    if k == 0 then 1 else 256 * Power(k - 1)
  }

  lemma {:induction false} BigEndianValue(n: nat, k: nat)
    requires n < Power(k)
    ensures FromBytes(BigEndian(n, k)) == n
  {
    if k > 0 {
      BigEndianValue(n / 256, k - 1);
      assert BigEndian(n, k)[..k - 1] == BigEndian(n / 256, k - 1);
    }
  }

  /** Up to 2^61 - 1 bytes the last eight bytes are the message length in bits, and the
      padding is as short as it can be. */
  lemma {:induction false} PadMeaning(m: seq<Byte>)
    requires 8 * |m| < TWO64
    ensures var r := Pad(m);
            && |m| + 9 <= |r| < |m| + 9 + BLOCK
            && FromBytes(r[|r| - 8..]) == 8 * |m|
            && r[|m|] == 0x80
            && (forall i :: |m| < i < |r| - 8 ==> r[i] == 0)
  {
    hide BigEndian, Zeros, FromBytes, Gap;
    var r, k := Pad(m), Gap(|m|);
    PadBlocks(m);
    EightBytes(8 * |m|);
    AllZero(k);
    assert |r| == |m| + 9 + k;
    assert r[|r| - 8..] == BigEndian(Bits(|m|), 8);
    forall i | |m| < i < |r| - 8
      ensures r[i] == 0
    {
      assert r[i] == Zeros(k)[i - |m| - 1];
    }
  }

  lemma {:induction false} EightBytes(n: nat)
    requires n < TWO64
    ensures n % TWO64 == n && FromBytes(BigEndian(n, 8)) == n
  {
    assert Power(8) == TWO64 by {
      assert Power(4) == 0x1_0000_0000;
    }
    BigEndianValue(n, 8);
  }

  lemma {:induction false} AllZero(n: nat)
    ensures forall i :: 0 <= i < n ==> Zeros(n)[i] == 0
  {
    if n > 0 {
      AllZero(n - 1);
    }
  }

  /** Different messages of that size are padded differently. */
  lemma {:induction false} PadInjective(a: seq<Byte>, b: seq<Byte>)
    requires 8 * |a| < TWO64 && 8 * |b| < TWO64 && Pad(a) == Pad(b)
    ensures a == b
  {
    PadMeaning(a);
    PadMeaning(b);
    assert a == Pad(a)[..|a|] && b == Pad(b)[..|b|];
  }
}
