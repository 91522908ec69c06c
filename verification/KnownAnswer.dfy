/** The example of one block that FIPS 180-4 comes with, the message "abc", worked out step by step. */
module KnownAnswer {
  import opened Fips180
  import opened Sha256

  const ABC: seq<byte> := [0x61, 0x62, 0x63]

  /** The message, padded. */
  function Block(): seq<byte> { ABC + [0x80] + ZeroBytes(52) + BigEndian(24, 8) }

  lemma Length()
    ensures BigEndian(24, 8) == [0, 0, 0, 0, 0, 0, 0, 24]
  {
    assert BigEndian(0, 3) == [0, 0, 0];
    assert BigEndian(0, 6) == BigEndian(0, 3) + [0, 0, 0];
    assert BigEndian(24, 8) == BigEndian(0, 7) + [24];
  }

  lemma {:induction false} ZeroBytesAre(n: nat)
    ensures forall i | 0 <= i < n :: ZeroBytes(n)[i] == 0
  {
    if n > 0 { ZeroBytesAre(n - 1); }
  }

  lemma FourBytes(a: byte, b: byte, c: byte, d: byte)
    ensures FromBigEndian([a, b, c, d]) == ((a as nat * 256 + b as nat) * 256 + c as nat) * 256 + d as nat
  {
    assert [a, b, c, d][..3] == [a, b, c] && [a, b, c][..2] == [a, b] && [a, b][..1] == [a];
    assert FromBigEndian([a]) == a as nat;
    assert FromBigEndian([a, b]) == a as nat * 256 + b as nat;
  }

  lemma FirstWords(t: nat)
    requires t < 16
    ensures |Block()| == 64
    ensures Schedule(ToBits(Block()), t) == if t == 0 then 0x61626380 else if t == 15 then 24 else 0
  {
    hide ToBits, Schedule, FromBigEndian, Block;
    BlockBytes();
    var block := Block();
    var word := block[4 * t..4 * t + 4];
    assert word == [block[4 * t], block[4 * t + 1], block[4 * t + 2], block[4 * t + 3]];
    FourBytes(word[0], word[1], word[2], word[3]);
    AsWord(FromBigEndian(word), if t == 0 then 0x61626380 else if t == 15 then 24 else 0);
    WordOfBytes(block, t);
  }

  lemma BlockBytes()
    ensures |Block()| == 64 && Block()[0] == 0x61 && Block()[1] == 0x62 && Block()[2] == 0x63 && Block()[3] == 0x80
    ensures (forall i | 4 <= i < 63 :: Block()[i] == 0) && Block()[63] == 24
  {
    Length();
    ZeroBytesAre(52);
    hide ZeroBytes, BigEndian;
  }

  lemma AsWord(n: nat, w: bv32)
    requires n == w as nat
    ensures n < 0x1_0000_0000 && n as bv32 == w
  {
    assert (w as nat) as bv32 == w;
  }

  lemma BlockIsPadding()
    ensures Padded(ToBits(ABC)) == ToBits(Block())
  {
    PaddedInBits(ABC, 52);
  }

  function Bits(): Fips180.Bits
    ensures |Bits()| == 512
  {
    Length();
    ToBits(Block())
  }

  // ----- the schedule -----

  function W(t: nat): bv32 { Schedule(Bits(), t) }

  lemma NextWord(t: nat)
    requires 16 <= t
    ensures W(t) == PlusFour(W(t - 16), SmallSigma0(W(t - 15)), W(t - 7), SmallSigma1(W(t - 2)))
  {
    hide PlusFour, SmallSigma0, SmallSigma1, Schedule, Bits;
    ScheduleUnfolds(Bits(), t);
  }

  lemma Words0()
    ensures W(0) == 0x61626380 && W(1) == 0x00000000 && W(2) == 0x00000000 && W(3) == 0x00000000
    ensures W(4) == 0x00000000 && W(5) == 0x00000000 && W(6) == 0x00000000 && W(7) == 0x00000000
  {
    hide Block, ToBits, Schedule;
    FirstWords(0);
    FirstWords(1);
    FirstWords(2);
    FirstWords(3);
    FirstWords(4);
    FirstWords(5);
    FirstWords(6);
    FirstWords(7);
  }

  lemma Words1()
    ensures W(8) == 0x00000000 && W(9) == 0x00000000 && W(10) == 0x00000000 && W(11) == 0x00000000
    ensures W(12) == 0x00000000 && W(13) == 0x00000000 && W(14) == 0x00000000 && W(15) == 0x00000018
  {
    hide Block, ToBits, Schedule;
    FirstWords(8);
    FirstWords(9);
    FirstWords(10);
    FirstWords(11);
    FirstWords(12);
    FirstWords(13);
    FirstWords(14);
    FirstWords(15);
  }

  lemma Words2()
    ensures W(16) == 0x61626380 && W(17) == 0x000f0000 && W(18) == 0x7da86405 && W(19) == 0x600003c6
    ensures W(20) == 0x3e9d7b78 && W(21) == 0x0183fc00 && W(22) == 0x12dcbfdb && W(23) == 0xe2e2c38e
  {
    hide W;
    Words0();
    Words1();
    NextWord(16);
    NextWord(17);
    NextWord(18);
    NextWord(19);
    NextWord(20);
    NextWord(21);
    NextWord(22);
    NextWord(23);
  }

  lemma Words3()
    ensures W(24) == 0xc8215c1a && W(25) == 0xb73679a2 && W(26) == 0xe5bc3909 && W(27) == 0x32663c5b
    ensures W(28) == 0x9d209d67 && W(29) == 0xec8726cb && W(30) == 0x702138a4 && W(31) == 0xd3b7973b
  {
    hide W;
    Words1();
    Words2();
    NextWord(24);
    NextWord(25);
    NextWord(26);
    NextWord(27);
    NextWord(28);
    NextWord(29);
    NextWord(30);
    NextWord(31);
  }

  lemma Words4()
    ensures W(32) == 0x93f5997f && W(33) == 0x3b68ba73 && W(34) == 0xaff4ffc1 && W(35) == 0xf10a5c62
    ensures W(36) == 0x0a8b3996 && W(37) == 0x72af830a && W(38) == 0x9409e33e && W(39) == 0x24641522
  {
    hide W;
    Words2();
    Words3();
    NextWord(32);
    NextWord(33);
    NextWord(34);
    NextWord(35);
    NextWord(36);
    NextWord(37);
    NextWord(38);
    NextWord(39);
  }

  lemma Words5()
    ensures W(40) == 0x9f47bf94 && W(41) == 0xf0a64f5a && W(42) == 0x3e246a79 && W(43) == 0x27333ba3
    ensures W(44) == 0x0c4763f2 && W(45) == 0x840abf27 && W(46) == 0x7a290d5d && W(47) == 0x065c43da
  {
    hide W;
    Words3();
    Words4();
    NextWord(40);
    NextWord(41);
    NextWord(42);
    NextWord(43);
    NextWord(44);
    NextWord(45);
    NextWord(46);
    NextWord(47);
  }

  lemma Words6()
    ensures W(48) == 0xfb3e89cb && W(49) == 0xcc7617db && W(50) == 0xb9e66c34 && W(51) == 0xa9993667
    ensures W(52) == 0x84badedd && W(53) == 0xc21462bc && W(54) == 0x1487472c && W(55) == 0xb20f7a99
  {
    hide W;
    Words4();
    Words5();
    NextWord(48);
    NextWord(49);
    NextWord(50);
    NextWord(51);
    NextWord(52);
    NextWord(53);
    NextWord(54);
    NextWord(55);
  }

  lemma Words7()
    ensures W(56) == 0xef57b9cd && W(57) == 0xebe6b238 && W(58) == 0x9fe3095e && W(59) == 0x78bc8d4b
    ensures W(60) == 0xa43fcf15 && W(61) == 0x668b2ff8 && W(62) == 0xeeaba2cc && W(63) == 0x12b1edeb
  {
    hide W;
    Words5();
    Words6();
    NextWord(56);
    NextWord(57);
    NextWord(58);
    NextWord(59);
    NextWord(60);
    NextWord(61);
    NextWord(62);
    NextWord(63);
  }

  // ----- the rounds -----

  function After(t: nat): State
    requires t <= 64
  {
    Rounds(Initial(), Bits(), t)
  }

  lemma NextRound(t: nat)
    requires t < 64
    ensures After(t + 1) == Round(After(t), Constant(t), W(t))
  {
    hide Round, Schedule, Bits, Initial;
    OneRound(Initial(), Bits(), t);
  }

  function Constant(t: nat): bv32
    requires t < 64
  {
    K[t].word as bv32
  }

  function Row(r: nat): seq<RootFraction>
    requires r < 8
  {
    [K0, K1, K2, K3, K4, K5, K6, K7][r]
  }

  lemma EightRows<T>(a: seq<T>, b: seq<T>, c: seq<T>, d: seq<T>, e: seq<T>, f: seq<T>, g: seq<T>, h: seq<T>, r: nat, i: nat)
    requires |a| == |b| == |c| == |d| == |e| == |f| == |g| == |h| == 8 && r < 8 && i < 8
    ensures (a + b + c + d + e + f + g + h)[8 * r + i] == [a, b, c, d, e, f, g, h][r][i]
  {}

  lemma ConstantIs(r: nat, i: nat, w: bv32)
    requires r < 8 && i < 8 && |Row(r)| == 8 && Row(r)[i].word == w as nat
    ensures Constant(8 * r + i) == w
  {
    hide IsFraction;
    EightRows(K0, K1, K2, K3, K4, K5, K6, K7, r, i);
    assert (w as nat) as bv32 == w;
  }


  lemma InitialWords()
    ensures Initial() == State(0x6a09e667, 0xbb67ae85, 0x3c6ef372, 0xa54ff53a, 0x510e527f, 0x9b05688c, 0x1f83d9ab, 0x5be0cd19)
  {
    hide IsFraction;
    AsWord(H[0].word, 0x6a09e667);
    AsWord(H[1].word, 0xbb67ae85);
    AsWord(H[2].word, 0x3c6ef372);
    AsWord(H[3].word, 0xa54ff53a);
    AsWord(H[4].word, 0x510e527f);
    AsWord(H[5].word, 0x9b05688c);
    AsWord(H[6].word, 0x1f83d9ab);
    AsWord(H[7].word, 0x5be0cd19);
  }

  lemma Start()
    ensures After(0) == Initial()
  {
    hide Bits, Initial;
    NoRounds(Initial(), Bits());
  }

  lemma Rounds0()
    ensures After(8) == State(0x85a07b5f, 0xe5030380, 0x2b4209f5, 0x04409a6a, 0x0c657a79, 0x9b27a401, 0x714260ad, 0x43ada245)
  {
    hide W, After, Constant;
    Start();
    InitialWords();
    Words0();
    Constants0();
    NextRound(0);
    assert After(1) == State(0x5d6aebcd, 0x6a09e667, 0xbb67ae85, 0x3c6ef372, 0xfa2a4622, 0x510e527f, 0x9b05688c, 0x1f83d9ab);
    NextRound(1);
    assert After(2) == State(0x5a6ad9ad, 0x5d6aebcd, 0x6a09e667, 0xbb67ae85, 0x78ce7989, 0xfa2a4622, 0x510e527f, 0x9b05688c);
    NextRound(2);
    assert After(3) == State(0xc8c347a7, 0x5a6ad9ad, 0x5d6aebcd, 0x6a09e667, 0xf92939eb, 0x78ce7989, 0xfa2a4622, 0x510e527f);
    NextRound(3);
    assert After(4) == State(0xd550f666, 0xc8c347a7, 0x5a6ad9ad, 0x5d6aebcd, 0x24e00850, 0xf92939eb, 0x78ce7989, 0xfa2a4622);
    NextRound(4);
    assert After(5) == State(0x04409a6a, 0xd550f666, 0xc8c347a7, 0x5a6ad9ad, 0x43ada245, 0x24e00850, 0xf92939eb, 0x78ce7989);
    NextRound(5);
    assert After(6) == State(0x2b4209f5, 0x04409a6a, 0xd550f666, 0xc8c347a7, 0x714260ad, 0x43ada245, 0x24e00850, 0xf92939eb);
    NextRound(6);
    assert After(7) == State(0xe5030380, 0x2b4209f5, 0x04409a6a, 0xd550f666, 0x9b27a401, 0x714260ad, 0x43ada245, 0x24e00850);
    NextRound(7);
  }

  lemma Constants0()
    ensures Constant(0) == 0x428a2f98 && Constant(1) == 0x71374491 && Constant(2) == 0xb5c0fbcf && Constant(3) == 0xe9b5dba5
    ensures Constant(4) == 0x3956c25b && Constant(5) == 0x59f111f1 && Constant(6) == 0x923f82a4 && Constant(7) == 0xab1c5ed5
  {
    hide IsFraction, Constant;
    ConstantIs(0, 0, 0x428a2f98);
    ConstantIs(0, 1, 0x71374491);
    ConstantIs(0, 2, 0xb5c0fbcf);
    ConstantIs(0, 3, 0xe9b5dba5);
    ConstantIs(0, 4, 0x3956c25b);
    ConstantIs(0, 5, 0x59f111f1);
    ConstantIs(0, 6, 0x923f82a4);
    ConstantIs(0, 7, 0xab1c5ed5);
  }

  lemma Rounds1()
    ensures After(16) == State(0xb0fa238e, 0xc0645fde, 0xd932eb16, 0x87912990, 0x07590dcd, 0x0b92f20c, 0x745a48de, 0x1e578218)
  {
    hide W, After, Constant;
    Rounds0();
    Words1();
    Constants1();
    NextRound(8);
    assert After(9) == State(0x8e04ecb9, 0x85a07b5f, 0xe5030380, 0x2b4209f5, 0x32ca2d8c, 0x0c657a79, 0x9b27a401, 0x714260ad);
    NextRound(9);
    assert After(10) == State(0x8c87346b, 0x8e04ecb9, 0x85a07b5f, 0xe5030380, 0x1cc92596, 0x32ca2d8c, 0x0c657a79, 0x9b27a401);
    NextRound(10);
    assert After(11) == State(0x4798a3f4, 0x8c87346b, 0x8e04ecb9, 0x85a07b5f, 0x436b23e8, 0x1cc92596, 0x32ca2d8c, 0x0c657a79);
    NextRound(11);
    assert After(12) == State(0xf71fc5a9, 0x4798a3f4, 0x8c87346b, 0x8e04ecb9, 0x816fd6e9, 0x436b23e8, 0x1cc92596, 0x32ca2d8c);
    NextRound(12);
    assert After(13) == State(0x87912990, 0xf71fc5a9, 0x4798a3f4, 0x8c87346b, 0x1e578218, 0x816fd6e9, 0x436b23e8, 0x1cc92596);
    NextRound(13);
    assert After(14) == State(0xd932eb16, 0x87912990, 0xf71fc5a9, 0x4798a3f4, 0x745a48de, 0x1e578218, 0x816fd6e9, 0x436b23e8);
    NextRound(14);
    assert After(15) == State(0xc0645fde, 0xd932eb16, 0x87912990, 0xf71fc5a9, 0x0b92f20c, 0x745a48de, 0x1e578218, 0x816fd6e9);
    NextRound(15);
  }

  lemma Constants1()
    ensures Constant(8) == 0xd807aa98 && Constant(9) == 0x12835b01 && Constant(10) == 0x243185be && Constant(11) == 0x550c7dc3
    ensures Constant(12) == 0x72be5d74 && Constant(13) == 0x80deb1fe && Constant(14) == 0x9bdc06a7 && Constant(15) == 0xc19bf174
  {
    hide IsFraction, Constant;
    ConstantIs(1, 0, 0xd807aa98);
    ConstantIs(1, 1, 0x12835b01);
    ConstantIs(1, 2, 0x243185be);
    ConstantIs(1, 3, 0x550c7dc3);
    ConstantIs(1, 4, 0x72be5d74);
    ConstantIs(1, 5, 0x80deb1fe);
    ConstantIs(1, 6, 0x9bdc06a7);
    ConstantIs(1, 7, 0xc19bf174);
  }

  lemma Rounds2()
    ensures After(24) == State(0xc5d53d8d, 0xa7a3623f, 0xc2606d6d, 0x9dc68b63, 0xaa47c347, 0x49f5114a, 0xe1257970, 0x8ada8930)
  {
    hide W, After, Constant;
    Rounds1();
    Words2();
    Constants2();
    NextRound(16);
    assert After(17) == State(0x21da9a9b, 0xb0fa238e, 0xc0645fde, 0xd932eb16, 0x8034229c, 0x07590dcd, 0x0b92f20c, 0x745a48de);
    NextRound(17);
    assert After(18) == State(0xc2fbd9d1, 0x21da9a9b, 0xb0fa238e, 0xc0645fde, 0x846ee454, 0x8034229c, 0x07590dcd, 0x0b92f20c);
    NextRound(18);
    assert After(19) == State(0xfe777bbf, 0xc2fbd9d1, 0x21da9a9b, 0xb0fa238e, 0xcc899961, 0x846ee454, 0x8034229c, 0x07590dcd);
    NextRound(19);
    assert After(20) == State(0xe1f20c33, 0xfe777bbf, 0xc2fbd9d1, 0x21da9a9b, 0xb0638179, 0xcc899961, 0x846ee454, 0x8034229c);
    NextRound(20);
    assert After(21) == State(0x9dc68b63, 0xe1f20c33, 0xfe777bbf, 0xc2fbd9d1, 0x8ada8930, 0xb0638179, 0xcc899961, 0x846ee454);
    NextRound(21);
    assert After(22) == State(0xc2606d6d, 0x9dc68b63, 0xe1f20c33, 0xfe777bbf, 0xe1257970, 0x8ada8930, 0xb0638179, 0xcc899961);
    NextRound(22);
    assert After(23) == State(0xa7a3623f, 0xc2606d6d, 0x9dc68b63, 0xe1f20c33, 0x49f5114a, 0xe1257970, 0x8ada8930, 0xb0638179);
    NextRound(23);
  }

  lemma Constants2()
    ensures Constant(16) == 0xe49b69c1 && Constant(17) == 0xefbe4786 && Constant(18) == 0x0fc19dc6 && Constant(19) == 0x240ca1cc
    ensures Constant(20) == 0x2de92c6f && Constant(21) == 0x4a7484aa && Constant(22) == 0x5cb0a9dc && Constant(23) == 0x76f988da
  {
    hide IsFraction, Constant;
    ConstantIs(2, 0, 0xe49b69c1);
    ConstantIs(2, 1, 0xefbe4786);
    ConstantIs(2, 2, 0x0fc19dc6);
    ConstantIs(2, 3, 0x240ca1cc);
    ConstantIs(2, 4, 0x2de92c6f);
    ConstantIs(2, 5, 0x4a7484aa);
    ConstantIs(2, 6, 0x5cb0a9dc);
    ConstantIs(2, 7, 0x76f988da);
  }

  lemma Rounds3()
    ensures After(32) == State(0x73b33bf5, 0xea992a22, 0xa0060b30, 0x363482c9, 0xba591112, 0x0109ab3a, 0xade79437, 0x6112a3b7)
  {
    hide W, After, Constant;
    Rounds2();
    Words3();
    Constants3();
    NextRound(24);
    assert After(25) == State(0x1c2c2838, 0xc5d53d8d, 0xa7a3623f, 0xc2606d6d, 0x2823ef91, 0xaa47c347, 0x49f5114a, 0xe1257970);
    NextRound(25);
    assert After(26) == State(0xcde8037d, 0x1c2c2838, 0xc5d53d8d, 0xa7a3623f, 0x14383d8e, 0x2823ef91, 0xaa47c347, 0x49f5114a);
    NextRound(26);
    assert After(27) == State(0xb62ec4bc, 0xcde8037d, 0x1c2c2838, 0xc5d53d8d, 0xc74c6516, 0x14383d8e, 0x2823ef91, 0xaa47c347);
    NextRound(27);
    assert After(28) == State(0x77d37528, 0xb62ec4bc, 0xcde8037d, 0x1c2c2838, 0xedffbff8, 0xc74c6516, 0x14383d8e, 0x2823ef91);
    NextRound(28);
    assert After(29) == State(0x363482c9, 0x77d37528, 0xb62ec4bc, 0xcde8037d, 0x6112a3b7, 0xedffbff8, 0xc74c6516, 0x14383d8e);
    NextRound(29);
    assert After(30) == State(0xa0060b30, 0x363482c9, 0x77d37528, 0xb62ec4bc, 0xade79437, 0x6112a3b7, 0xedffbff8, 0xc74c6516);
    NextRound(30);
    assert After(31) == State(0xea992a22, 0xa0060b30, 0x363482c9, 0x77d37528, 0x0109ab3a, 0xade79437, 0x6112a3b7, 0xedffbff8);
    NextRound(31);
  }

  lemma Constants3()
    ensures Constant(24) == 0x983e5152 && Constant(25) == 0xa831c66d && Constant(26) == 0xb00327c8 && Constant(27) == 0xbf597fc7
    ensures Constant(28) == 0xc6e00bf3 && Constant(29) == 0xd5a79147 && Constant(30) == 0x06ca6351 && Constant(31) == 0x14292967
  {
    hide IsFraction, Constant;
    ConstantIs(3, 0, 0x983e5152);
    ConstantIs(3, 1, 0xa831c66d);
    ConstantIs(3, 2, 0xb00327c8);
    ConstantIs(3, 3, 0xbf597fc7);
    ConstantIs(3, 4, 0xc6e00bf3);
    ConstantIs(3, 5, 0xd5a79147);
    ConstantIs(3, 6, 0x06ca6351);
    ConstantIs(3, 7, 0x14292967);
  }

  lemma Rounds4()
    ensures After(40) == State(0x79ea687a, 0x6dc57a8a, 0x34df1604, 0x41a65cb1, 0x1efbc0a0, 0xf0781bc8, 0xa507a53d, 0x0772a26b)
  {
    hide W, After, Constant;
    Rounds3();
    Words4();
    Constants4();
    NextRound(32);
    assert After(33) == State(0x98e12507, 0x73b33bf5, 0xea992a22, 0xa0060b30, 0x9cd9f5f6, 0xba591112, 0x0109ab3a, 0xade79437);
    NextRound(33);
    assert After(34) == State(0xfe604df5, 0x98e12507, 0x73b33bf5, 0xea992a22, 0x59249dd3, 0x9cd9f5f6, 0xba591112, 0x0109ab3a);
    NextRound(34);
    assert After(35) == State(0xa9a7738c, 0xfe604df5, 0x98e12507, 0x73b33bf5, 0x085f3833, 0x59249dd3, 0x9cd9f5f6, 0xba591112);
    NextRound(35);
    assert After(36) == State(0x65a0cfe4, 0xa9a7738c, 0xfe604df5, 0x98e12507, 0xf4b002d6, 0x085f3833, 0x59249dd3, 0x9cd9f5f6);
    NextRound(36);
    assert After(37) == State(0x41a65cb1, 0x65a0cfe4, 0xa9a7738c, 0xfe604df5, 0x0772a26b, 0xf4b002d6, 0x085f3833, 0x59249dd3);
    NextRound(37);
    assert After(38) == State(0x34df1604, 0x41a65cb1, 0x65a0cfe4, 0xa9a7738c, 0xa507a53d, 0x0772a26b, 0xf4b002d6, 0x085f3833);
    NextRound(38);
    assert After(39) == State(0x6dc57a8a, 0x34df1604, 0x41a65cb1, 0x65a0cfe4, 0xf0781bc8, 0xa507a53d, 0x0772a26b, 0xf4b002d6);
    NextRound(39);
  }

  lemma Constants4()
    ensures Constant(32) == 0x27b70a85 && Constant(33) == 0x2e1b2138 && Constant(34) == 0x4d2c6dfc && Constant(35) == 0x53380d13
    ensures Constant(36) == 0x650a7354 && Constant(37) == 0x766a0abb && Constant(38) == 0x81c2c92e && Constant(39) == 0x92722c85
  {
    hide IsFraction, Constant;
    ConstantIs(4, 0, 0x27b70a85);
    ConstantIs(4, 1, 0x2e1b2138);
    ConstantIs(4, 2, 0x4d2c6dfc);
    ConstantIs(4, 3, 0x53380d13);
    ConstantIs(4, 4, 0x650a7354);
    ConstantIs(4, 5, 0x766a0abb);
    ConstantIs(4, 6, 0x81c2c92e);
    ConstantIs(4, 7, 0x92722c85);
  }

  lemma Rounds5()
    ensures After(48) == State(0x4172328d, 0xa14c14b0, 0x72ab4b91, 0x26628815, 0xfecf0bc6, 0xd57b94a9, 0xb7755da1, 0xa80f11f0)
  {
    hide W, After, Constant;
    Rounds4();
    Words5();
    Constants5();
    NextRound(40);
    assert After(41) == State(0xd6670766, 0x79ea687a, 0x6dc57a8a, 0x34df1604, 0x26352d63, 0x1efbc0a0, 0xf0781bc8, 0xa507a53d);
    NextRound(41);
    assert After(42) == State(0xdf46652f, 0xd6670766, 0x79ea687a, 0x6dc57a8a, 0x838b2711, 0x26352d63, 0x1efbc0a0, 0xf0781bc8);
    NextRound(42);
    assert After(43) == State(0x17aa0dfe, 0xdf46652f, 0xd6670766, 0x79ea687a, 0xdecd4715, 0x838b2711, 0x26352d63, 0x1efbc0a0);
    NextRound(43);
    assert After(44) == State(0x9d4baf93, 0x17aa0dfe, 0xdf46652f, 0xd6670766, 0xfda24c2e, 0xdecd4715, 0x838b2711, 0x26352d63);
    NextRound(44);
    assert After(45) == State(0x26628815, 0x9d4baf93, 0x17aa0dfe, 0xdf46652f, 0xa80f11f0, 0xfda24c2e, 0xdecd4715, 0x838b2711);
    NextRound(45);
    assert After(46) == State(0x72ab4b91, 0x26628815, 0x9d4baf93, 0x17aa0dfe, 0xb7755da1, 0xa80f11f0, 0xfda24c2e, 0xdecd4715);
    NextRound(46);
    assert After(47) == State(0xa14c14b0, 0x72ab4b91, 0x26628815, 0x9d4baf93, 0xd57b94a9, 0xb7755da1, 0xa80f11f0, 0xfda24c2e);
    NextRound(47);
  }

  lemma Constants5()
    ensures Constant(40) == 0xa2bfe8a1 && Constant(41) == 0xa81a664b && Constant(42) == 0xc24b8b70 && Constant(43) == 0xc76c51a3
    ensures Constant(44) == 0xd192e819 && Constant(45) == 0xd6990624 && Constant(46) == 0xf40e3585 && Constant(47) == 0x106aa070
  {
    hide IsFraction, Constant;
    ConstantIs(5, 0, 0xa2bfe8a1);
    ConstantIs(5, 1, 0xa81a664b);
    ConstantIs(5, 2, 0xc24b8b70);
    ConstantIs(5, 3, 0xc76c51a3);
    ConstantIs(5, 4, 0xd192e819);
    ConstantIs(5, 5, 0xd6990624);
    ConstantIs(5, 6, 0xf40e3585);
    ConstantIs(5, 7, 0x106aa070);
  }

  lemma Rounds6()
    ensures After(56) == State(0x38cc9913, 0x3ec45cdb, 0xf5702fdb, 0x101fd28f, 0x54cb266b, 0xe50e1b4f, 0x9f4787c3, 0x529e7d00)
  {
    hide W, After, Constant;
    Rounds5();
    Words6();
    Constants6();
    NextRound(48);
    assert After(49) == State(0x05757ceb, 0x4172328d, 0xa14c14b0, 0x72ab4b91, 0xbd714038, 0xfecf0bc6, 0xd57b94a9, 0xb7755da1);
    NextRound(49);
    assert After(50) == State(0xf11bfaa8, 0x05757ceb, 0x4172328d, 0xa14c14b0, 0x6e5c390c, 0xbd714038, 0xfecf0bc6, 0xd57b94a9);
    NextRound(50);
    assert After(51) == State(0x7a0508a1, 0xf11bfaa8, 0x05757ceb, 0x4172328d, 0x52f1ccf7, 0x6e5c390c, 0xbd714038, 0xfecf0bc6);
    NextRound(51);
    assert After(52) == State(0x886e7a22, 0x7a0508a1, 0xf11bfaa8, 0x05757ceb, 0x49231c1e, 0x52f1ccf7, 0x6e5c390c, 0xbd714038);
    NextRound(52);
    assert After(53) == State(0x101fd28f, 0x886e7a22, 0x7a0508a1, 0xf11bfaa8, 0x529e7d00, 0x49231c1e, 0x52f1ccf7, 0x6e5c390c);
    NextRound(53);
    assert After(54) == State(0xf5702fdb, 0x101fd28f, 0x886e7a22, 0x7a0508a1, 0x9f4787c3, 0x529e7d00, 0x49231c1e, 0x52f1ccf7);
    NextRound(54);
    assert After(55) == State(0x3ec45cdb, 0xf5702fdb, 0x101fd28f, 0x886e7a22, 0xe50e1b4f, 0x9f4787c3, 0x529e7d00, 0x49231c1e);
    NextRound(55);
  }

  lemma Constants6()
    ensures Constant(48) == 0x19a4c116 && Constant(49) == 0x1e376c08 && Constant(50) == 0x2748774c && Constant(51) == 0x34b0bcb5
    ensures Constant(52) == 0x391c0cb3 && Constant(53) == 0x4ed8aa4a && Constant(54) == 0x5b9cca4f && Constant(55) == 0x682e6ff3
  {
    hide IsFraction, Constant;
    ConstantIs(6, 0, 0x19a4c116);
    ConstantIs(6, 1, 0x1e376c08);
    ConstantIs(6, 2, 0x2748774c);
    ConstantIs(6, 3, 0x34b0bcb5);
    ConstantIs(6, 4, 0x391c0cb3);
    ConstantIs(6, 5, 0x4ed8aa4a);
    ConstantIs(6, 6, 0x5b9cca4f);
    ConstantIs(6, 7, 0x682e6ff3);
  }

  lemma Rounds7()
    ensures After(64) == State(0x506e3058, 0xd39a2165, 0x04d24d6c, 0xb85e2ce9, 0x5ef50f24, 0xfb121210, 0x948d25b6, 0x961f4894)
  {
    hide W, After, Constant;
    Rounds6();
    Words7();
    Constants7();
    NextRound(56);
    assert After(57) == State(0xfcd1887b, 0x38cc9913, 0x3ec45cdb, 0xf5702fdb, 0x9b5e906c, 0x54cb266b, 0xe50e1b4f, 0x9f4787c3);
    NextRound(57);
    assert After(58) == State(0xc062d46f, 0xfcd1887b, 0x38cc9913, 0x3ec45cdb, 0x7e44008e, 0x9b5e906c, 0x54cb266b, 0xe50e1b4f);
    NextRound(58);
    assert After(59) == State(0xffb70472, 0xc062d46f, 0xfcd1887b, 0x38cc9913, 0x6d83bfc6, 0x7e44008e, 0x9b5e906c, 0x54cb266b);
    NextRound(59);
    assert After(60) == State(0xb6ae8fff, 0xffb70472, 0xc062d46f, 0xfcd1887b, 0xb21bad3d, 0x6d83bfc6, 0x7e44008e, 0x9b5e906c);
    NextRound(60);
    assert After(61) == State(0xb85e2ce9, 0xb6ae8fff, 0xffb70472, 0xc062d46f, 0x961f4894, 0xb21bad3d, 0x6d83bfc6, 0x7e44008e);
    NextRound(61);
    assert After(62) == State(0x04d24d6c, 0xb85e2ce9, 0xb6ae8fff, 0xffb70472, 0x948d25b6, 0x961f4894, 0xb21bad3d, 0x6d83bfc6);
    NextRound(62);
    assert After(63) == State(0xd39a2165, 0x04d24d6c, 0xb85e2ce9, 0xb6ae8fff, 0xfb121210, 0x948d25b6, 0x961f4894, 0xb21bad3d);
    NextRound(63);
  }

  lemma Constants7()
    ensures Constant(56) == 0x748f82ee && Constant(57) == 0x78a5636f && Constant(58) == 0x84c87814 && Constant(59) == 0x8cc70208
    ensures Constant(60) == 0x90befffa && Constant(61) == 0xa4506ceb && Constant(62) == 0xbef9a3f7 && Constant(63) == 0xc67178f2
  {
    hide IsFraction, Constant;
    ConstantIs(7, 0, 0x748f82ee);
    ConstantIs(7, 1, 0x78a5636f);
    ConstantIs(7, 2, 0x84c87814);
    ConstantIs(7, 3, 0x8cc70208);
    ConstantIs(7, 4, 0x90befffa);
    ConstantIs(7, 5, 0xa4506ceb);
    ConstantIs(7, 6, 0xbef9a3f7);
    ConstantIs(7, 7, 0xc67178f2);
  }

  /** The digest of "abc". */
  lemma DigestOfAbc()
    ensures Fips180.Sha256(ToBits(ABC)) == State(0xba7816bf, 0x8f01cfea, 0x414140de, 0x5dae2223, 0xb00361a3, 0x96177a9c, 0xb410ff61, 0xf20015ad)
  {
    hide ToBits, Rounds, Block, Initial, Padded, Intermediate, Sum;
    BlockIsPadding();
    assert Padded(ToBits(ABC)) == Bits();
    NoBlocks(Bits());
    OneBlock(Bits(), 0);
    assert Bits()[0..512] == Bits();
    Rounds7();
    InitialWords();
    DigestSum();
  }

  lemma DigestSum()
    ensures Sum(State(0x506e3058, 0xd39a2165, 0x04d24d6c, 0xb85e2ce9, 0x5ef50f24, 0xfb121210, 0x948d25b6, 0x961f4894), State(0x6a09e667, 0xbb67ae85, 0x3c6ef372, 0xa54ff53a, 0x510e527f, 0x9b05688c, 0x1f83d9ab, 0x5be0cd19))
      == State(0xba7816bf, 0x8f01cfea, 0x414140de, 0x5dae2223, 0xb00361a3, 0x96177a9c, 0xb410ff61, 0xf20015ad)
  {}
}
