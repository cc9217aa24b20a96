/** The digest of "abc", computed step by step: the first example for SHA-256 that is published
    with FIPS 180-4. Every constant and every rotation of the standard takes part in it. */
module DigestExample {
  import opened Rounds
  import opened Digest

  const MESSAGE: seq<Byte> := [0x61, 0x62, 0x63]

  const DIGEST: seq<Byte> :=
    [0xba, 0x78, 0x16, 0xbf, 0x8f, 0x01, 0xcf, 0xea] + [0x41, 0x41, 0x40, 0xde, 0x5d, 0xae, 0x22, 0x23]
    + [0xb0, 0x03, 0x61, 0xa3, 0x96, 0x17, 0x7a, 0x9c] + [0xb4, 0x10, 0xff, 0x61, 0xf2, 0x00, 0x15, 0xad]

  /** The message, its padding and its length in bits. */
  function Block(): (b: seq<Byte>)
    ensures |b| == BLOCK
    ensures b[0] == 0x61 && b[1] == 0x62 && b[2] == 0x63 && b[3] == 0x80 && b[63] == 0x18
    ensures forall i :: 4 <= i < 63 ==> b[i] == 0
  {
    seq(BLOCK, i => if i == 0 then 0x61 else if i == 1 then 0x62 else if i == 2 then 0x63
                    else if i == 3 then 0x80 else if i == 63 then 0x18 else 0)
  }

  // ---- the message schedule --------------------------------------------------------------------

  predicate IsWord(t: nat, x: bv32) { t < 64 && Schedule(Block(), 64)[t] == x }

  lemma {:induction false} ScheduleAt(block: seq<Byte>, n: nat, t: nat)
    requires |block| == BLOCK && t < n
    ensures var w := Schedule(block, n);
            w[t] == if t < 16 then WordAt(block, t) else Plus(Plus(Plus(w[t - 16], Small0(w[t - 15])), w[t - 7]), Small1(w[t - 2]))
  {
    hide WordAt, Plus, Small0, Small1;
    if t < n - 1 {
      ScheduleAt(block, n - 1, t);
    }
  }

  lemma {:induction false} LaterWord(t: nat, a: bv32, b: bv32, c: bv32, d: bv32, x: bv32)
    requires 16 <= t < 64 && IsWord(t - 16, a) && IsWord(t - 15, b) && IsWord(t - 7, c) && IsWord(t - 2, d)
    requires Plus(Plus(Plus(a, Small0(b)), c), Small1(d)) == x
    ensures IsWord(t, x)
  {
    hide Block, Plus, Small0, Small1, Schedule;
    ScheduleAt(Block(), 64, t);
  }

  lemma {:induction false} ByteWords()
    ensures Joined(0x61, 0x62, 0x63, 0x80) == 0x61626380 && Joined(0, 0, 0, 0) == 0 && Joined(0, 0, 0, 0x18) == 0x18
  {
  }

  lemma {:induction false} FirstWord(t: nat)
    requires t < 16
    ensures IsWord(t, if t == 0 then 0x61626380 else if t == 15 then 0x18 else 0)
  {
    ByteWords();
    hide Block, Joined, Schedule;
    ScheduleAt(Block(), 64, t);
  }

  lemma {:induction false} Words0()
    ensures IsWord(0, 0x61626380) && IsWord(1, 0x00000000) && IsWord(2, 0x00000000) && IsWord(3, 0x00000000)
    ensures IsWord(4, 0x00000000) && IsWord(5, 0x00000000) && IsWord(6, 0x00000000) && IsWord(7, 0x00000000)
  {
    hide IsWord;
    FirstWord(0);
    FirstWord(1);
    FirstWord(2);
    FirstWord(3);
    FirstWord(4);
    FirstWord(5);
    FirstWord(6);
    FirstWord(7);
  }

  lemma {:induction false} Words8()
    ensures IsWord(8, 0x00000000) && IsWord(9, 0x00000000) && IsWord(10, 0x00000000) && IsWord(11, 0x00000000)
    ensures IsWord(12, 0x00000000) && IsWord(13, 0x00000000) && IsWord(14, 0x00000000) && IsWord(15, 0x00000018)
  {
    hide IsWord;
    FirstWord(8);
    FirstWord(9);
    FirstWord(10);
    FirstWord(11);
    FirstWord(12);
    FirstWord(13);
    FirstWord(14);
    FirstWord(15);
  }

  lemma {:induction false} Words16()
    ensures IsWord(16, 0x61626380) && IsWord(17, 0x000f0000) && IsWord(18, 0x7da86405) && IsWord(19, 0x600003c6)
    ensures IsWord(20, 0x3e9d7b78) && IsWord(21, 0x0183fc00) && IsWord(22, 0x12dcbfdb) && IsWord(23, 0xe2e2c38e)
  {
    Words0();
    Words8();
    hide IsWord;
    LaterWord(16, 0x61626380, 0x00000000, 0x00000000, 0x00000000, 0x61626380);
    LaterWord(17, 0x00000000, 0x00000000, 0x00000000, 0x00000018, 0x000f0000);
    LaterWord(18, 0x00000000, 0x00000000, 0x00000000, 0x61626380, 0x7da86405);
    LaterWord(19, 0x00000000, 0x00000000, 0x00000000, 0x000f0000, 0x600003c6);
    LaterWord(20, 0x00000000, 0x00000000, 0x00000000, 0x7da86405, 0x3e9d7b78);
    LaterWord(21, 0x00000000, 0x00000000, 0x00000000, 0x600003c6, 0x0183fc00);
    LaterWord(22, 0x00000000, 0x00000000, 0x00000018, 0x3e9d7b78, 0x12dcbfdb);
    LaterWord(23, 0x00000000, 0x00000000, 0x61626380, 0x0183fc00, 0xe2e2c38e);
  }

  lemma {:induction false} Words24()
    ensures IsWord(24, 0xc8215c1a) && IsWord(25, 0xb73679a2) && IsWord(26, 0xe5bc3909) && IsWord(27, 0x32663c5b)
    ensures IsWord(28, 0x9d209d67) && IsWord(29, 0xec8726cb) && IsWord(30, 0x702138a4) && IsWord(31, 0xd3b7973b)
  {
    Words8();
    Words16();
    hide IsWord;
    LaterWord(24, 0x00000000, 0x00000000, 0x000f0000, 0x12dcbfdb, 0xc8215c1a);
    LaterWord(25, 0x00000000, 0x00000000, 0x7da86405, 0xe2e2c38e, 0xb73679a2);
    LaterWord(26, 0x00000000, 0x00000000, 0x600003c6, 0xc8215c1a, 0xe5bc3909);
    LaterWord(27, 0x00000000, 0x00000000, 0x3e9d7b78, 0xb73679a2, 0x32663c5b);
    LaterWord(28, 0x00000000, 0x00000000, 0x0183fc00, 0xe5bc3909, 0x9d209d67);
    LaterWord(29, 0x00000000, 0x00000000, 0x12dcbfdb, 0x32663c5b, 0xec8726cb);
    LaterWord(30, 0x00000000, 0x00000018, 0xe2e2c38e, 0x9d209d67, 0x702138a4);
    LaterWord(31, 0x00000018, 0x61626380, 0xc8215c1a, 0xec8726cb, 0xd3b7973b);
  }

  lemma {:induction false} Words32()
    ensures IsWord(32, 0x93f5997f) && IsWord(33, 0x3b68ba73) && IsWord(34, 0xaff4ffc1) && IsWord(35, 0xf10a5c62)
    ensures IsWord(36, 0x0a8b3996) && IsWord(37, 0x72af830a) && IsWord(38, 0x9409e33e) && IsWord(39, 0x24641522)
  {
    Words16();
    Words24();
    hide IsWord;
    LaterWord(32, 0x61626380, 0x000f0000, 0xb73679a2, 0x702138a4, 0x93f5997f);
    LaterWord(33, 0x000f0000, 0x7da86405, 0xe5bc3909, 0xd3b7973b, 0x3b68ba73);
    LaterWord(34, 0x7da86405, 0x600003c6, 0x32663c5b, 0x93f5997f, 0xaff4ffc1);
    LaterWord(35, 0x600003c6, 0x3e9d7b78, 0x9d209d67, 0x3b68ba73, 0xf10a5c62);
    LaterWord(36, 0x3e9d7b78, 0x0183fc00, 0xec8726cb, 0xaff4ffc1, 0x0a8b3996);
    LaterWord(37, 0x0183fc00, 0x12dcbfdb, 0x702138a4, 0xf10a5c62, 0x72af830a);
    LaterWord(38, 0x12dcbfdb, 0xe2e2c38e, 0xd3b7973b, 0x0a8b3996, 0x9409e33e);
    LaterWord(39, 0xe2e2c38e, 0xc8215c1a, 0x93f5997f, 0x72af830a, 0x24641522);
  }

  lemma {:induction false} Words40()
    ensures IsWord(40, 0x9f47bf94) && IsWord(41, 0xf0a64f5a) && IsWord(42, 0x3e246a79) && IsWord(43, 0x27333ba3)
    ensures IsWord(44, 0x0c4763f2) && IsWord(45, 0x840abf27) && IsWord(46, 0x7a290d5d) && IsWord(47, 0x065c43da)
  {
    Words24();
    Words32();
    hide IsWord;
    LaterWord(40, 0xc8215c1a, 0xb73679a2, 0x3b68ba73, 0x9409e33e, 0x9f47bf94);
    LaterWord(41, 0xb73679a2, 0xe5bc3909, 0xaff4ffc1, 0x24641522, 0xf0a64f5a);
    LaterWord(42, 0xe5bc3909, 0x32663c5b, 0xf10a5c62, 0x9f47bf94, 0x3e246a79);
    LaterWord(43, 0x32663c5b, 0x9d209d67, 0x0a8b3996, 0xf0a64f5a, 0x27333ba3);
    LaterWord(44, 0x9d209d67, 0xec8726cb, 0x72af830a, 0x3e246a79, 0x0c4763f2);
    LaterWord(45, 0xec8726cb, 0x702138a4, 0x9409e33e, 0x27333ba3, 0x840abf27);
    LaterWord(46, 0x702138a4, 0xd3b7973b, 0x24641522, 0x0c4763f2, 0x7a290d5d);
    LaterWord(47, 0xd3b7973b, 0x93f5997f, 0x9f47bf94, 0x840abf27, 0x065c43da);
  }

  lemma {:induction false} Words48()
    ensures IsWord(48, 0xfb3e89cb) && IsWord(49, 0xcc7617db) && IsWord(50, 0xb9e66c34) && IsWord(51, 0xa9993667)
    ensures IsWord(52, 0x84badedd) && IsWord(53, 0xc21462bc) && IsWord(54, 0x1487472c) && IsWord(55, 0xb20f7a99)
  {
    Words32();
    Words40();
    hide IsWord;
    LaterWord(48, 0x93f5997f, 0x3b68ba73, 0xf0a64f5a, 0x7a290d5d, 0xfb3e89cb);
    LaterWord(49, 0x3b68ba73, 0xaff4ffc1, 0x3e246a79, 0x065c43da, 0xcc7617db);
    LaterWord(50, 0xaff4ffc1, 0xf10a5c62, 0x27333ba3, 0xfb3e89cb, 0xb9e66c34);
    LaterWord(51, 0xf10a5c62, 0x0a8b3996, 0x0c4763f2, 0xcc7617db, 0xa9993667);
    LaterWord(52, 0x0a8b3996, 0x72af830a, 0x840abf27, 0xb9e66c34, 0x84badedd);
    LaterWord(53, 0x72af830a, 0x9409e33e, 0x7a290d5d, 0xa9993667, 0xc21462bc);
    LaterWord(54, 0x9409e33e, 0x24641522, 0x065c43da, 0x84badedd, 0x1487472c);
    LaterWord(55, 0x24641522, 0x9f47bf94, 0xfb3e89cb, 0xc21462bc, 0xb20f7a99);
  }

  lemma {:induction false} Words56()
    ensures IsWord(56, 0xef57b9cd) && IsWord(57, 0xebe6b238) && IsWord(58, 0x9fe3095e) && IsWord(59, 0x78bc8d4b)
    ensures IsWord(60, 0xa43fcf15) && IsWord(61, 0x668b2ff8) && IsWord(62, 0xeeaba2cc) && IsWord(63, 0x12b1edeb)
  {
    Words40();
    Words48();
    hide IsWord;
    LaterWord(56, 0x9f47bf94, 0xf0a64f5a, 0xcc7617db, 0x1487472c, 0xef57b9cd);
    LaterWord(57, 0xf0a64f5a, 0x3e246a79, 0xb9e66c34, 0xb20f7a99, 0xebe6b238);
    LaterWord(58, 0x3e246a79, 0x27333ba3, 0xa9993667, 0xef57b9cd, 0x9fe3095e);
    LaterWord(59, 0x27333ba3, 0x0c4763f2, 0x84badedd, 0xebe6b238, 0x78bc8d4b);
    LaterWord(60, 0x0c4763f2, 0x840abf27, 0xc21462bc, 0x9fe3095e, 0xa43fcf15);
    LaterWord(61, 0x840abf27, 0x7a290d5d, 0x1487472c, 0x78bc8d4b, 0x668b2ff8);
    LaterWord(62, 0x7a290d5d, 0x065c43da, 0xb20f7a99, 0xa43fcf15, 0xeeaba2cc);
    LaterWord(63, 0x065c43da, 0xfb3e89cb, 0xef57b9cd, 0x668b2ff8, 0x12b1edeb);
  }

  // ---- the rounds ----------------------------------------------------------------------------

  predicate Reaches(t: nat, v: Working)
    requires t <= 64
  {
    After(Opened(Initial()), Schedule(Block(), 64), t) == v
  }

  lemma {:induction false} StartReached()
    ensures Reaches(0, Working(0x6a09e667, 0xbb67ae85, 0x3c6ef372, 0xa54ff53a, 0x510e527f, 0x9b05688c, 0x1f83d9ab, 0x5be0cd19))
  {
    hide Block, Schedule;
  }

  /** One round, given its constant, its word and the new a and e. */
  lemma {:induction false} Next(t: nat, v: Working, k: bv32, x: bv32, a: bv32, e: bv32) returns (n: Working)
    requires t < 64 && Reaches(t, v) && Constants()[t] == k && IsWord(t, x)
    requires Round(v, k, x) == Working(a, v.a, v.b, v.c, e, v.e, v.f, v.g)
    ensures n == Working(a, v.a, v.b, v.c, e, v.e, v.f, v.g) && Reaches(t + 1, n)
  {
    hide Constants, Block, Schedule, Round, Initial;
    n := Working(a, v.a, v.b, v.c, e, v.e, v.f, v.g);
  }

  lemma {:induction false} Rounds0()
    requires Reaches(0, Working(0x6a09e667, 0xbb67ae85, 0x3c6ef372, 0xa54ff53a, 0x510e527f, 0x9b05688c, 0x1f83d9ab, 0x5be0cd19))
    ensures Reaches(4, Working(0xd550f666, 0xc8c347a7, 0x5a6ad9ad, 0x5d6aebcd, 0x24e00850, 0xf92939eb, 0x78ce7989, 0xfa2a4622))
  {
    Words0();
    hide Reaches, IsWord;
    var v := Working(0x6a09e667, 0xbb67ae85, 0x3c6ef372, 0xa54ff53a, 0x510e527f, 0x9b05688c, 0x1f83d9ab, 0x5be0cd19);
    v := Next(0, v, 0x428a2f98, 0x61626380, 0x5d6aebcd, 0xfa2a4622);
    v := Next(1, v, 0x71374491, 0x00000000, 0x5a6ad9ad, 0x78ce7989);
    v := Next(2, v, 0xb5c0fbcf, 0x00000000, 0xc8c347a7, 0xf92939eb);
    v := Next(3, v, 0xe9b5dba5, 0x00000000, 0xd550f666, 0x24e00850);
  }

  lemma {:induction false} Rounds4()
    requires Reaches(4, Working(0xd550f666, 0xc8c347a7, 0x5a6ad9ad, 0x5d6aebcd, 0x24e00850, 0xf92939eb, 0x78ce7989, 0xfa2a4622))
    ensures Reaches(8, Working(0x85a07b5f, 0xe5030380, 0x2b4209f5, 0x04409a6a, 0x0c657a79, 0x9b27a401, 0x714260ad, 0x43ada245))
  {
    Words0();
    hide Reaches, IsWord;
    var v := Working(0xd550f666, 0xc8c347a7, 0x5a6ad9ad, 0x5d6aebcd, 0x24e00850, 0xf92939eb, 0x78ce7989, 0xfa2a4622);
    v := Next(4, v, 0x3956c25b, 0x00000000, 0x04409a6a, 0x43ada245);
    v := Next(5, v, 0x59f111f1, 0x00000000, 0x2b4209f5, 0x714260ad);
    v := Next(6, v, 0x923f82a4, 0x00000000, 0xe5030380, 0x9b27a401);
    v := Next(7, v, 0xab1c5ed5, 0x00000000, 0x85a07b5f, 0x0c657a79);
  }

  lemma {:induction false} Rounds8()
    requires Reaches(8, Working(0x85a07b5f, 0xe5030380, 0x2b4209f5, 0x04409a6a, 0x0c657a79, 0x9b27a401, 0x714260ad, 0x43ada245))
    ensures Reaches(12, Working(0xf71fc5a9, 0x4798a3f4, 0x8c87346b, 0x8e04ecb9, 0x816fd6e9, 0x436b23e8, 0x1cc92596, 0x32ca2d8c))
  {
    Words8();
    hide Reaches, IsWord;
    var v := Working(0x85a07b5f, 0xe5030380, 0x2b4209f5, 0x04409a6a, 0x0c657a79, 0x9b27a401, 0x714260ad, 0x43ada245);
    v := Next(8, v, 0xd807aa98, 0x00000000, 0x8e04ecb9, 0x32ca2d8c);
    v := Next(9, v, 0x12835b01, 0x00000000, 0x8c87346b, 0x1cc92596);
    v := Next(10, v, 0x243185be, 0x00000000, 0x4798a3f4, 0x436b23e8);
    v := Next(11, v, 0x550c7dc3, 0x00000000, 0xf71fc5a9, 0x816fd6e9);
  }

  lemma {:induction false} Rounds12()
    requires Reaches(12, Working(0xf71fc5a9, 0x4798a3f4, 0x8c87346b, 0x8e04ecb9, 0x816fd6e9, 0x436b23e8, 0x1cc92596, 0x32ca2d8c))
    ensures Reaches(16, Working(0xb0fa238e, 0xc0645fde, 0xd932eb16, 0x87912990, 0x07590dcd, 0x0b92f20c, 0x745a48de, 0x1e578218))
  {
    Words8();
    hide Reaches, IsWord;
    var v := Working(0xf71fc5a9, 0x4798a3f4, 0x8c87346b, 0x8e04ecb9, 0x816fd6e9, 0x436b23e8, 0x1cc92596, 0x32ca2d8c);
    v := Next(12, v, 0x72be5d74, 0x00000000, 0x87912990, 0x1e578218);
    v := Next(13, v, 0x80deb1fe, 0x00000000, 0xd932eb16, 0x745a48de);
    v := Next(14, v, 0x9bdc06a7, 0x00000000, 0xc0645fde, 0x0b92f20c);
    v := Next(15, v, 0xc19bf174, 0x00000018, 0xb0fa238e, 0x07590dcd);
  }

  lemma {:induction false} Rounds16()
    requires Reaches(16, Working(0xb0fa238e, 0xc0645fde, 0xd932eb16, 0x87912990, 0x07590dcd, 0x0b92f20c, 0x745a48de, 0x1e578218))
    ensures Reaches(20, Working(0xe1f20c33, 0xfe777bbf, 0xc2fbd9d1, 0x21da9a9b, 0xb0638179, 0xcc899961, 0x846ee454, 0x8034229c))
  {
    Words16();
    hide Reaches, IsWord;
    var v := Working(0xb0fa238e, 0xc0645fde, 0xd932eb16, 0x87912990, 0x07590dcd, 0x0b92f20c, 0x745a48de, 0x1e578218);
    v := Next(16, v, 0xe49b69c1, 0x61626380, 0x21da9a9b, 0x8034229c);
    v := Next(17, v, 0xefbe4786, 0x000f0000, 0xc2fbd9d1, 0x846ee454);
    v := Next(18, v, 0x0fc19dc6, 0x7da86405, 0xfe777bbf, 0xcc899961);
    v := Next(19, v, 0x240ca1cc, 0x600003c6, 0xe1f20c33, 0xb0638179);
  }

  lemma {:induction false} Rounds20()
    requires Reaches(20, Working(0xe1f20c33, 0xfe777bbf, 0xc2fbd9d1, 0x21da9a9b, 0xb0638179, 0xcc899961, 0x846ee454, 0x8034229c))
    ensures Reaches(24, Working(0xc5d53d8d, 0xa7a3623f, 0xc2606d6d, 0x9dc68b63, 0xaa47c347, 0x49f5114a, 0xe1257970, 0x8ada8930))
  {
    Words16();
    hide Reaches, IsWord;
    var v := Working(0xe1f20c33, 0xfe777bbf, 0xc2fbd9d1, 0x21da9a9b, 0xb0638179, 0xcc899961, 0x846ee454, 0x8034229c);
    v := Next(20, v, 0x2de92c6f, 0x3e9d7b78, 0x9dc68b63, 0x8ada8930);
    v := Next(21, v, 0x4a7484aa, 0x0183fc00, 0xc2606d6d, 0xe1257970);
    v := Next(22, v, 0x5cb0a9dc, 0x12dcbfdb, 0xa7a3623f, 0x49f5114a);
    v := Next(23, v, 0x76f988da, 0xe2e2c38e, 0xc5d53d8d, 0xaa47c347);
  }

  lemma {:induction false} Rounds24()
    requires Reaches(24, Working(0xc5d53d8d, 0xa7a3623f, 0xc2606d6d, 0x9dc68b63, 0xaa47c347, 0x49f5114a, 0xe1257970, 0x8ada8930))
    ensures Reaches(28, Working(0x77d37528, 0xb62ec4bc, 0xcde8037d, 0x1c2c2838, 0xedffbff8, 0xc74c6516, 0x14383d8e, 0x2823ef91))
  {
    Words24();
    hide Reaches, IsWord;
    var v := Working(0xc5d53d8d, 0xa7a3623f, 0xc2606d6d, 0x9dc68b63, 0xaa47c347, 0x49f5114a, 0xe1257970, 0x8ada8930);
    v := Next(24, v, 0x983e5152, 0xc8215c1a, 0x1c2c2838, 0x2823ef91);
    v := Next(25, v, 0xa831c66d, 0xb73679a2, 0xcde8037d, 0x14383d8e);
    v := Next(26, v, 0xb00327c8, 0xe5bc3909, 0xb62ec4bc, 0xc74c6516);
    v := Next(27, v, 0xbf597fc7, 0x32663c5b, 0x77d37528, 0xedffbff8);
  }

  lemma {:induction false} Rounds28()
    requires Reaches(28, Working(0x77d37528, 0xb62ec4bc, 0xcde8037d, 0x1c2c2838, 0xedffbff8, 0xc74c6516, 0x14383d8e, 0x2823ef91))
    ensures Reaches(32, Working(0x73b33bf5, 0xea992a22, 0xa0060b30, 0x363482c9, 0xba591112, 0x0109ab3a, 0xade79437, 0x6112a3b7))
  {
    Words24();
    hide Reaches, IsWord;
    var v := Working(0x77d37528, 0xb62ec4bc, 0xcde8037d, 0x1c2c2838, 0xedffbff8, 0xc74c6516, 0x14383d8e, 0x2823ef91);
    v := Next(28, v, 0xc6e00bf3, 0x9d209d67, 0x363482c9, 0x6112a3b7);
    v := Next(29, v, 0xd5a79147, 0xec8726cb, 0xa0060b30, 0xade79437);
    v := Next(30, v, 0x06ca6351, 0x702138a4, 0xea992a22, 0x0109ab3a);
    v := Next(31, v, 0x14292967, 0xd3b7973b, 0x73b33bf5, 0xba591112);
  }

  lemma {:induction false} Rounds32()
    requires Reaches(32, Working(0x73b33bf5, 0xea992a22, 0xa0060b30, 0x363482c9, 0xba591112, 0x0109ab3a, 0xade79437, 0x6112a3b7))
    ensures Reaches(36, Working(0x65a0cfe4, 0xa9a7738c, 0xfe604df5, 0x98e12507, 0xf4b002d6, 0x085f3833, 0x59249dd3, 0x9cd9f5f6))
  {
    Words32();
    hide Reaches, IsWord;
    var v := Working(0x73b33bf5, 0xea992a22, 0xa0060b30, 0x363482c9, 0xba591112, 0x0109ab3a, 0xade79437, 0x6112a3b7);
    v := Next(32, v, 0x27b70a85, 0x93f5997f, 0x98e12507, 0x9cd9f5f6);
    v := Next(33, v, 0x2e1b2138, 0x3b68ba73, 0xfe604df5, 0x59249dd3);
    v := Next(34, v, 0x4d2c6dfc, 0xaff4ffc1, 0xa9a7738c, 0x085f3833);
    v := Next(35, v, 0x53380d13, 0xf10a5c62, 0x65a0cfe4, 0xf4b002d6);
  }

  lemma {:induction false} Rounds36()
    requires Reaches(36, Working(0x65a0cfe4, 0xa9a7738c, 0xfe604df5, 0x98e12507, 0xf4b002d6, 0x085f3833, 0x59249dd3, 0x9cd9f5f6))
    ensures Reaches(40, Working(0x79ea687a, 0x6dc57a8a, 0x34df1604, 0x41a65cb1, 0x1efbc0a0, 0xf0781bc8, 0xa507a53d, 0x0772a26b))
  {
    Words32();
    hide Reaches, IsWord;
    var v := Working(0x65a0cfe4, 0xa9a7738c, 0xfe604df5, 0x98e12507, 0xf4b002d6, 0x085f3833, 0x59249dd3, 0x9cd9f5f6);
    v := Next(36, v, 0x650a7354, 0x0a8b3996, 0x41a65cb1, 0x0772a26b);
    v := Next(37, v, 0x766a0abb, 0x72af830a, 0x34df1604, 0xa507a53d);
    v := Next(38, v, 0x81c2c92e, 0x9409e33e, 0x6dc57a8a, 0xf0781bc8);
    v := Next(39, v, 0x92722c85, 0x24641522, 0x79ea687a, 0x1efbc0a0);
  }

  lemma {:induction false} Rounds40()
    requires Reaches(40, Working(0x79ea687a, 0x6dc57a8a, 0x34df1604, 0x41a65cb1, 0x1efbc0a0, 0xf0781bc8, 0xa507a53d, 0x0772a26b))
    ensures Reaches(44, Working(0x9d4baf93, 0x17aa0dfe, 0xdf46652f, 0xd6670766, 0xfda24c2e, 0xdecd4715, 0x838b2711, 0x26352d63))
  {
    Words40();
    hide Reaches, IsWord;
    var v := Working(0x79ea687a, 0x6dc57a8a, 0x34df1604, 0x41a65cb1, 0x1efbc0a0, 0xf0781bc8, 0xa507a53d, 0x0772a26b);
    v := Next(40, v, 0xa2bfe8a1, 0x9f47bf94, 0xd6670766, 0x26352d63);
    v := Next(41, v, 0xa81a664b, 0xf0a64f5a, 0xdf46652f, 0x838b2711);
    v := Next(42, v, 0xc24b8b70, 0x3e246a79, 0x17aa0dfe, 0xdecd4715);
    v := Next(43, v, 0xc76c51a3, 0x27333ba3, 0x9d4baf93, 0xfda24c2e);
  }

  lemma {:induction false} Rounds44()
    requires Reaches(44, Working(0x9d4baf93, 0x17aa0dfe, 0xdf46652f, 0xd6670766, 0xfda24c2e, 0xdecd4715, 0x838b2711, 0x26352d63))
    ensures Reaches(48, Working(0x4172328d, 0xa14c14b0, 0x72ab4b91, 0x26628815, 0xfecf0bc6, 0xd57b94a9, 0xb7755da1, 0xa80f11f0))
  {
    Words40();
    hide Reaches, IsWord;
    var v := Working(0x9d4baf93, 0x17aa0dfe, 0xdf46652f, 0xd6670766, 0xfda24c2e, 0xdecd4715, 0x838b2711, 0x26352d63);
    v := Next(44, v, 0xd192e819, 0x0c4763f2, 0x26628815, 0xa80f11f0);
    v := Next(45, v, 0xd6990624, 0x840abf27, 0x72ab4b91, 0xb7755da1);
    v := Next(46, v, 0xf40e3585, 0x7a290d5d, 0xa14c14b0, 0xd57b94a9);
    v := Next(47, v, 0x106aa070, 0x065c43da, 0x4172328d, 0xfecf0bc6);
  }

  lemma {:induction false} Rounds48()
    requires Reaches(48, Working(0x4172328d, 0xa14c14b0, 0x72ab4b91, 0x26628815, 0xfecf0bc6, 0xd57b94a9, 0xb7755da1, 0xa80f11f0))
    ensures Reaches(52, Working(0x886e7a22, 0x7a0508a1, 0xf11bfaa8, 0x05757ceb, 0x49231c1e, 0x52f1ccf7, 0x6e5c390c, 0xbd714038))
  {
    Words48();
    hide Reaches, IsWord;
    var v := Working(0x4172328d, 0xa14c14b0, 0x72ab4b91, 0x26628815, 0xfecf0bc6, 0xd57b94a9, 0xb7755da1, 0xa80f11f0);
    v := Next(48, v, 0x19a4c116, 0xfb3e89cb, 0x05757ceb, 0xbd714038);
    v := Next(49, v, 0x1e376c08, 0xcc7617db, 0xf11bfaa8, 0x6e5c390c);
    v := Next(50, v, 0x2748774c, 0xb9e66c34, 0x7a0508a1, 0x52f1ccf7);
    v := Next(51, v, 0x34b0bcb5, 0xa9993667, 0x886e7a22, 0x49231c1e);
  }

  lemma {:induction false} Rounds52()
    requires Reaches(52, Working(0x886e7a22, 0x7a0508a1, 0xf11bfaa8, 0x05757ceb, 0x49231c1e, 0x52f1ccf7, 0x6e5c390c, 0xbd714038))
    ensures Reaches(56, Working(0x38cc9913, 0x3ec45cdb, 0xf5702fdb, 0x101fd28f, 0x54cb266b, 0xe50e1b4f, 0x9f4787c3, 0x529e7d00))
  {
    Words48();
    hide Reaches, IsWord;
    var v := Working(0x886e7a22, 0x7a0508a1, 0xf11bfaa8, 0x05757ceb, 0x49231c1e, 0x52f1ccf7, 0x6e5c390c, 0xbd714038);
    v := Next(52, v, 0x391c0cb3, 0x84badedd, 0x101fd28f, 0x529e7d00);
    v := Next(53, v, 0x4ed8aa4a, 0xc21462bc, 0xf5702fdb, 0x9f4787c3);
    v := Next(54, v, 0x5b9cca4f, 0x1487472c, 0x3ec45cdb, 0xe50e1b4f);
    v := Next(55, v, 0x682e6ff3, 0xb20f7a99, 0x38cc9913, 0x54cb266b);
  }

  lemma {:induction false} Rounds56()
    requires Reaches(56, Working(0x38cc9913, 0x3ec45cdb, 0xf5702fdb, 0x101fd28f, 0x54cb266b, 0xe50e1b4f, 0x9f4787c3, 0x529e7d00))
    ensures Reaches(60, Working(0xb6ae8fff, 0xffb70472, 0xc062d46f, 0xfcd1887b, 0xb21bad3d, 0x6d83bfc6, 0x7e44008e, 0x9b5e906c))
  {
    Words56();
    hide Reaches, IsWord;
    var v := Working(0x38cc9913, 0x3ec45cdb, 0xf5702fdb, 0x101fd28f, 0x54cb266b, 0xe50e1b4f, 0x9f4787c3, 0x529e7d00);
    v := Next(56, v, 0x748f82ee, 0xef57b9cd, 0xfcd1887b, 0x9b5e906c);
    v := Next(57, v, 0x78a5636f, 0xebe6b238, 0xc062d46f, 0x7e44008e);
    v := Next(58, v, 0x84c87814, 0x9fe3095e, 0xffb70472, 0x6d83bfc6);
    v := Next(59, v, 0x8cc70208, 0x78bc8d4b, 0xb6ae8fff, 0xb21bad3d);
  }

  lemma {:induction false} Rounds60()
    requires Reaches(60, Working(0xb6ae8fff, 0xffb70472, 0xc062d46f, 0xfcd1887b, 0xb21bad3d, 0x6d83bfc6, 0x7e44008e, 0x9b5e906c))
    ensures Reaches(64, Working(0x506e3058, 0xd39a2165, 0x04d24d6c, 0xb85e2ce9, 0x5ef50f24, 0xfb121210, 0x948d25b6, 0x961f4894))
  {
    Words56();
    hide Reaches, IsWord;
    var v := Working(0xb6ae8fff, 0xffb70472, 0xc062d46f, 0xfcd1887b, 0xb21bad3d, 0x6d83bfc6, 0x7e44008e, 0x9b5e906c);
    v := Next(60, v, 0x90befffa, 0xa43fcf15, 0xb85e2ce9, 0x961f4894);
    v := Next(61, v, 0xa4506ceb, 0x668b2ff8, 0x04d24d6c, 0x948d25b6);
    v := Next(62, v, 0xbef9a3f7, 0xeeaba2cc, 0xd39a2165, 0xfb121210);
    v := Next(63, v, 0xc67178f2, 0x12b1edeb, 0x506e3058, 0x5ef50f24);
  }

  // ---- the digest ----------------------------------------------------------------------------------

  lemma {:induction false} AllRounds()
    ensures Reaches(64, Working(0x506e3058, 0xd39a2165, 0x04d24d6c, 0xb85e2ce9, 0x5ef50f24, 0xfb121210, 0x948d25b6, 0x961f4894))
  {
    StartReached();
    hide Reaches;
    Rounds0();
    Rounds4();
    Rounds8();
    Rounds12();
    Rounds16();
    Rounds20();
    Rounds24();
    Rounds28();
    Rounds32();
    Rounds36();
    Rounds40();
    Rounds44();
    Rounds48();
    Rounds52();
    Rounds56();
    Rounds60();
  }

  lemma {:induction false} BlockCompressed()
    ensures Compressed(Initial(), Block())
         == [0xba7816bf, 0x8f01cfea, 0x414140de, 0x5dae2223, 0xb00361a3, 0x96177a9c, 0xb410ff61, 0xf20015ad]
  {
    AllRounds();
    hide Block, Schedule, After;
  }

  lemma {:induction false} Padded()
    ensures Pad(MESSAGE) == Block()
  {
    hide Block;
    assert BigEndian(24, 8) == [0, 0, 0, 0, 0, 0, 0, 24];
    assert Gap(3) == 52 && Bits(3) == 24;
    ZerosAre(52);
    hide Zeros, BigEndian;
  }

  lemma {:induction false} ZerosAre(n: nat)
    ensures forall i :: 0 <= i < n ==> Zeros(n)[i] == 0
  {
    if n > 0 {
      ZerosAre(n - 1);
    }
  }

  predicate BytesOf(w: bv32, a: Byte, b: Byte, c: Byte, d: Byte) {
    ByteOf(w, 0) == a && ByteOf(w, 1) == b && ByteOf(w, 2) == c && ByteOf(w, 3) == d
  }

  lemma {:induction false} WordBytes()
    ensures BytesOf(0xba7816bf, 0xba, 0x78, 0x16, 0xbf) && BytesOf(0x8f01cfea, 0x8f, 0x01, 0xcf, 0xea)
    ensures BytesOf(0x414140de, 0x41, 0x41, 0x40, 0xde) && BytesOf(0x5dae2223, 0x5d, 0xae, 0x22, 0x23)
    ensures BytesOf(0xb00361a3, 0xb0, 0x03, 0x61, 0xa3) && BytesOf(0x96177a9c, 0x96, 0x17, 0x7a, 0x9c)
    ensures BytesOf(0xb410ff61, 0xb4, 0x10, 0xff, 0x61) && BytesOf(0xf20015ad, 0xf2, 0x00, 0x15, 0xad)
  {
  }

  lemma {:induction false} OutputBytes()
    ensures Output([0xba7816bf, 0x8f01cfea, 0x414140de, 0x5dae2223, 0xb00361a3, 0x96177a9c, 0xb410ff61, 0xf20015ad])
         == DIGEST
  {
    WordBytes();
    hide ByteOf;
  }

  /** The published digest of "abc". */
  lemma {:induction false} KnownAnswer()
    ensures Hash(MESSAGE) == DIGEST
  {
    Padded();
    BlockCompressed();
    FoldBlock(Initial(), Block());
    hide Block, Pad, Fold, Initial, Compressed;
    OutputBytes();
  }
}
