/** The example of FIPS 180-4 for one block: the digest of "abc", reached round by round. It fixes every
    constant, rotation and byte order of the hash. */
module Sha256Example {
  import opened Common
  import opened Sha256

  const ABC: Bytes := [0x61, 0x62, 0x63]

  // "abc", the mark, the zeros and the length in bits.
  const BLOCK: Bytes := ABC + [0x80] + Zeros(52) + [0, 0, 0, 0, 0, 0, 0, 24]

  const START := Vars(
    0x6a09e667, 0xbb67ae85, 0x3c6ef372, 0xa54ff53a, 0x510e527f, 0x9b05688c, 0x1f83d9ab, 0x5be0cd19)

  lemma Padded()
    ensures |BLOCK| == 64 && ABC + Padding(|ABC|, 8 * |ABC|) == BLOCK
  {
    assert ZeroCount(3) == 52;
    LengthField();
  }

  lemma LengthField()
    ensures BigEndian(24, 8) == [0, 0, 0, 0, 0, 0, 0, 24]
  {
    assert BigEndian(0, 3) == [0, 0, 0];
    assert BigEndian(0, 5) == [0, 0, 0, 0, 0];
    assert BigEndian(0, 7) == [0, 0, 0, 0, 0, 0, 0];
    assert 24 / 256 == 0;
  }

  // ----- the message schedule -----

  lemma FirstRead()
    ensures ToWord([0x61, 0x62, 0x63, 0x80]) == 0x61626380
  {
    WeightDecides([0x61, 0x62, 0x63, 0x80], 0x61626380);
  }

  lemma LastRead()
    ensures ToWord([0, 0, 0, 0x18]) == 0x18
    ensures ToWord([0, 0, 0, 0]) == 0
  {
    WeightDecides([0, 0, 0, 0x18], 0x18);
    WeightDecides([0, 0, 0, 0], 0);
  }

  lemma ByteOf(i: nat)
    requires i < 64
    ensures |BLOCK| == 64
    ensures i == 0 ==> BLOCK[i] == 0x61
    ensures i == 1 ==> BLOCK[i] == 0x62
    ensures i == 2 ==> BLOCK[i] == 0x63
    ensures i == 3 ==> BLOCK[i] == 0x80
    ensures 4 <= i < 63 ==> BLOCK[i] == 0
    ensures i == 63 ==> BLOCK[i] == 0x18
  {
  }

  lemma FourOf(t: nat)
    requires t < 16
    ensures |BLOCK| == 64
    ensures BLOCK[4 * t..4 * t + 4] ==
      if t == 0 then [0x61, 0x62, 0x63, 0x80] else if t == 15 then [0, 0, 0, 0x18] else [0, 0, 0, 0]
  {
    ByteOf(4 * t);
    ByteOf(4 * t + 1);
    ByteOf(4 * t + 2);
    ByteOf(4 * t + 3);
    hide Zeros;
    var b := BLOCK;
    assert b[4 * t..4 * t + 4] == [b[4 * t], b[4 * t + 1], b[4 * t + 2], b[4 * t + 3]];
  }

  lemma Given(t: nat)
    requires t < 16
    ensures |BLOCK| == 64
    ensures W(BLOCK, t) == if t == 0 then 0x61626380 else if t == 15 then 0x18 else 0
  {
    hide ToWord;
    FirstRead();
    LastRead();
    FourOf(t);
  }

  // One step of the schedule.
  function Mix(a: Word, b: Word, c: Word, d: Word): Word {
    Add(Add(Add(a, SmallSigma0(b)), c), SmallSigma1(d))
  }

  lemma Mixed(t: nat)
    requires 16 <= t < 64
    ensures |BLOCK| == 64
    ensures W(BLOCK, t) == Mix(W(BLOCK, t - 16), W(BLOCK, t - 15), W(BLOCK, t - 7), W(BLOCK, t - 2))
  {
  }

  lemma Words0()
    ensures |BLOCK| == 64
    ensures W(BLOCK, 0) == 0x61626380 && W(BLOCK, 1) == 0x00000000
    ensures W(BLOCK, 2) == 0x00000000 && W(BLOCK, 3) == 0x00000000
    ensures W(BLOCK, 4) == 0x00000000 && W(BLOCK, 5) == 0x00000000
    ensures W(BLOCK, 6) == 0x00000000 && W(BLOCK, 7) == 0x00000000
  {
    hide W;
    Given(0);
    Given(1);
    Given(2);
    Given(3);
    Given(4);
    Given(5);
    Given(6);
    Given(7);
  }

  lemma Words8()
    ensures |BLOCK| == 64
    ensures W(BLOCK, 8) == 0x00000000 && W(BLOCK, 9) == 0x00000000
    ensures W(BLOCK, 10) == 0x00000000 && W(BLOCK, 11) == 0x00000000
    ensures W(BLOCK, 12) == 0x00000000 && W(BLOCK, 13) == 0x00000000
    ensures W(BLOCK, 14) == 0x00000000 && W(BLOCK, 15) == 0x00000018
  {
    hide W;
    Given(8);
    Given(9);
    Given(10);
    Given(11);
    Given(12);
    Given(13);
    Given(14);
    Given(15);
  }

  lemma Words16()
    ensures |BLOCK| == 64
    ensures W(BLOCK, 16) == 0x61626380 && W(BLOCK, 17) == 0x000f0000
    ensures W(BLOCK, 18) == 0x7da86405 && W(BLOCK, 19) == 0x600003c6
    ensures W(BLOCK, 20) == 0x3e9d7b78 && W(BLOCK, 21) == 0x0183fc00
    ensures W(BLOCK, 22) == 0x12dcbfdb && W(BLOCK, 23) == 0xe2e2c38e
  {
    hide W;
    hide Mix;
    Words0();
    Words8();
    Mixes16();
    Mixed(16);
    Mixed(17);
    Mixed(18);
    Mixed(19);
    Mixed(20);
    Mixed(21);
    Mixed(22);
    Mixed(23);
  }

  lemma Mixes16()
    ensures Mix(0x61626380, 0x00000000, 0x00000000, 0x00000000) == 0x61626380
    ensures Mix(0x00000000, 0x00000000, 0x00000000, 0x00000018) == 0x000f0000
    ensures Mix(0x00000000, 0x00000000, 0x00000000, 0x61626380) == 0x7da86405
    ensures Mix(0x00000000, 0x00000000, 0x00000000, 0x000f0000) == 0x600003c6
    ensures Mix(0x00000000, 0x00000000, 0x00000000, 0x7da86405) == 0x3e9d7b78
    ensures Mix(0x00000000, 0x00000000, 0x00000000, 0x600003c6) == 0x0183fc00
    ensures Mix(0x00000000, 0x00000000, 0x00000018, 0x3e9d7b78) == 0x12dcbfdb
    ensures Mix(0x00000000, 0x00000000, 0x61626380, 0x0183fc00) == 0xe2e2c38e
  {
  }

  lemma Words24()
    ensures |BLOCK| == 64
    ensures W(BLOCK, 24) == 0xc8215c1a && W(BLOCK, 25) == 0xb73679a2
    ensures W(BLOCK, 26) == 0xe5bc3909 && W(BLOCK, 27) == 0x32663c5b
    ensures W(BLOCK, 28) == 0x9d209d67 && W(BLOCK, 29) == 0xec8726cb
    ensures W(BLOCK, 30) == 0x702138a4 && W(BLOCK, 31) == 0xd3b7973b
  {
    hide W;
    hide Mix;
    Words8();
    Words16();
    Mixes24();
    Mixed(24);
    Mixed(25);
    Mixed(26);
    Mixed(27);
    Mixed(28);
    Mixed(29);
    Mixed(30);
    Mixed(31);
  }

  lemma Mixes24()
    ensures Mix(0x00000000, 0x00000000, 0x000f0000, 0x12dcbfdb) == 0xc8215c1a
    ensures Mix(0x00000000, 0x00000000, 0x7da86405, 0xe2e2c38e) == 0xb73679a2
    ensures Mix(0x00000000, 0x00000000, 0x600003c6, 0xc8215c1a) == 0xe5bc3909
    ensures Mix(0x00000000, 0x00000000, 0x3e9d7b78, 0xb73679a2) == 0x32663c5b
    ensures Mix(0x00000000, 0x00000000, 0x0183fc00, 0xe5bc3909) == 0x9d209d67
    ensures Mix(0x00000000, 0x00000000, 0x12dcbfdb, 0x32663c5b) == 0xec8726cb
    ensures Mix(0x00000000, 0x00000018, 0xe2e2c38e, 0x9d209d67) == 0x702138a4
    ensures Mix(0x00000018, 0x61626380, 0xc8215c1a, 0xec8726cb) == 0xd3b7973b
  {
  }

  lemma Words32()
    ensures |BLOCK| == 64
    ensures W(BLOCK, 32) == 0x93f5997f && W(BLOCK, 33) == 0x3b68ba73
    ensures W(BLOCK, 34) == 0xaff4ffc1 && W(BLOCK, 35) == 0xf10a5c62
    ensures W(BLOCK, 36) == 0x0a8b3996 && W(BLOCK, 37) == 0x72af830a
    ensures W(BLOCK, 38) == 0x9409e33e && W(BLOCK, 39) == 0x24641522
  {
    hide W;
    hide Mix;
    Words16();
    Words24();
    Mixes32();
    Mixed(32);
    Mixed(33);
    Mixed(34);
    Mixed(35);
    Mixed(36);
    Mixed(37);
    Mixed(38);
    Mixed(39);
  }

  lemma Mixes32()
    ensures Mix(0x61626380, 0x000f0000, 0xb73679a2, 0x702138a4) == 0x93f5997f
    ensures Mix(0x000f0000, 0x7da86405, 0xe5bc3909, 0xd3b7973b) == 0x3b68ba73
    ensures Mix(0x7da86405, 0x600003c6, 0x32663c5b, 0x93f5997f) == 0xaff4ffc1
    ensures Mix(0x600003c6, 0x3e9d7b78, 0x9d209d67, 0x3b68ba73) == 0xf10a5c62
    ensures Mix(0x3e9d7b78, 0x0183fc00, 0xec8726cb, 0xaff4ffc1) == 0x0a8b3996
    ensures Mix(0x0183fc00, 0x12dcbfdb, 0x702138a4, 0xf10a5c62) == 0x72af830a
    ensures Mix(0x12dcbfdb, 0xe2e2c38e, 0xd3b7973b, 0x0a8b3996) == 0x9409e33e
    ensures Mix(0xe2e2c38e, 0xc8215c1a, 0x93f5997f, 0x72af830a) == 0x24641522
  {
  }

  lemma Words40()
    ensures |BLOCK| == 64
    ensures W(BLOCK, 40) == 0x9f47bf94 && W(BLOCK, 41) == 0xf0a64f5a
    ensures W(BLOCK, 42) == 0x3e246a79 && W(BLOCK, 43) == 0x27333ba3
    ensures W(BLOCK, 44) == 0x0c4763f2 && W(BLOCK, 45) == 0x840abf27
    ensures W(BLOCK, 46) == 0x7a290d5d && W(BLOCK, 47) == 0x065c43da
  {
    hide W;
    hide Mix;
    Words24();
    Words32();
    Mixes40();
    Mixed(40);
    Mixed(41);
    Mixed(42);
    Mixed(43);
    Mixed(44);
    Mixed(45);
    Mixed(46);
    Mixed(47);
  }

  lemma Mixes40()
    ensures Mix(0xc8215c1a, 0xb73679a2, 0x3b68ba73, 0x9409e33e) == 0x9f47bf94
    ensures Mix(0xb73679a2, 0xe5bc3909, 0xaff4ffc1, 0x24641522) == 0xf0a64f5a
    ensures Mix(0xe5bc3909, 0x32663c5b, 0xf10a5c62, 0x9f47bf94) == 0x3e246a79
    ensures Mix(0x32663c5b, 0x9d209d67, 0x0a8b3996, 0xf0a64f5a) == 0x27333ba3
    ensures Mix(0x9d209d67, 0xec8726cb, 0x72af830a, 0x3e246a79) == 0x0c4763f2
    ensures Mix(0xec8726cb, 0x702138a4, 0x9409e33e, 0x27333ba3) == 0x840abf27
    ensures Mix(0x702138a4, 0xd3b7973b, 0x24641522, 0x0c4763f2) == 0x7a290d5d
    ensures Mix(0xd3b7973b, 0x93f5997f, 0x9f47bf94, 0x840abf27) == 0x065c43da
  {
  }

  lemma Words48()
    ensures |BLOCK| == 64
    ensures W(BLOCK, 48) == 0xfb3e89cb && W(BLOCK, 49) == 0xcc7617db
    ensures W(BLOCK, 50) == 0xb9e66c34 && W(BLOCK, 51) == 0xa9993667
    ensures W(BLOCK, 52) == 0x84badedd && W(BLOCK, 53) == 0xc21462bc
    ensures W(BLOCK, 54) == 0x1487472c && W(BLOCK, 55) == 0xb20f7a99
  {
    hide W;
    hide Mix;
    Words32();
    Words40();
    Mixes48();
    Mixed(48);
    Mixed(49);
    Mixed(50);
    Mixed(51);
    Mixed(52);
    Mixed(53);
    Mixed(54);
    Mixed(55);
  }

  lemma Mixes48()
    ensures Mix(0x93f5997f, 0x3b68ba73, 0xf0a64f5a, 0x7a290d5d) == 0xfb3e89cb
    ensures Mix(0x3b68ba73, 0xaff4ffc1, 0x3e246a79, 0x065c43da) == 0xcc7617db
    ensures Mix(0xaff4ffc1, 0xf10a5c62, 0x27333ba3, 0xfb3e89cb) == 0xb9e66c34
    ensures Mix(0xf10a5c62, 0x0a8b3996, 0x0c4763f2, 0xcc7617db) == 0xa9993667
    ensures Mix(0x0a8b3996, 0x72af830a, 0x840abf27, 0xb9e66c34) == 0x84badedd
    ensures Mix(0x72af830a, 0x9409e33e, 0x7a290d5d, 0xa9993667) == 0xc21462bc
    ensures Mix(0x9409e33e, 0x24641522, 0x065c43da, 0x84badedd) == 0x1487472c
    ensures Mix(0x24641522, 0x9f47bf94, 0xfb3e89cb, 0xc21462bc) == 0xb20f7a99
  {
  }

  lemma Words56()
    ensures |BLOCK| == 64
    ensures W(BLOCK, 56) == 0xef57b9cd && W(BLOCK, 57) == 0xebe6b238
    ensures W(BLOCK, 58) == 0x9fe3095e && W(BLOCK, 59) == 0x78bc8d4b
    ensures W(BLOCK, 60) == 0xa43fcf15 && W(BLOCK, 61) == 0x668b2ff8
    ensures W(BLOCK, 62) == 0xeeaba2cc && W(BLOCK, 63) == 0x12b1edeb
  {
    hide W;
    hide Mix;
    Words40();
    Words48();
    Mixes56();
    Mixed(56);
    Mixed(57);
    Mixed(58);
    Mixed(59);
    Mixed(60);
    Mixed(61);
    Mixed(62);
    Mixed(63);
  }

  lemma Mixes56()
    ensures Mix(0x9f47bf94, 0xf0a64f5a, 0xcc7617db, 0x1487472c) == 0xef57b9cd
    ensures Mix(0xf0a64f5a, 0x3e246a79, 0xb9e66c34, 0xb20f7a99) == 0xebe6b238
    ensures Mix(0x3e246a79, 0x27333ba3, 0xa9993667, 0xef57b9cd) == 0x9fe3095e
    ensures Mix(0x27333ba3, 0x0c4763f2, 0x84badedd, 0xebe6b238) == 0x78bc8d4b
    ensures Mix(0x0c4763f2, 0x840abf27, 0xc21462bc, 0x9fe3095e) == 0xa43fcf15
    ensures Mix(0x840abf27, 0x7a290d5d, 0x1487472c, 0x78bc8d4b) == 0x668b2ff8
    ensures Mix(0x7a290d5d, 0x065c43da, 0xb20f7a99, 0xa43fcf15) == 0xeeaba2cc
    ensures Mix(0x065c43da, 0xfb3e89cb, 0xef57b9cd, 0x668b2ff8) == 0x12b1edeb
  {
  }

  // ----- the rounds -----

  lemma Constants8()
    ensures |K| == 64
    ensures K[0] == 0x428a2f98 && K[1] == 0x71374491 && K[2] == 0xb5c0fbcf && K[3] == 0xe9b5dba5
    ensures K[4] == 0x3956c25b && K[5] == 0x59f111f1 && K[6] == 0x923f82a4 && K[7] == 0xab1c5ed5
  {
  }

  lemma Constants16()
    ensures |K| == 64
    ensures K[8] == 0xd807aa98 && K[9] == 0x12835b01 && K[10] == 0x243185be && K[11] == 0x550c7dc3
    ensures K[12] == 0x72be5d74 && K[13] == 0x80deb1fe && K[14] == 0x9bdc06a7 && K[15] == 0xc19bf174
  {
  }

  lemma Constants24()
    ensures |K| == 64
    ensures K[16] == 0xe49b69c1 && K[17] == 0xefbe4786 && K[18] == 0x0fc19dc6 && K[19] == 0x240ca1cc
    ensures K[20] == 0x2de92c6f && K[21] == 0x4a7484aa && K[22] == 0x5cb0a9dc && K[23] == 0x76f988da
  {
  }

  lemma Constants32()
    ensures |K| == 64
    ensures K[24] == 0x983e5152 && K[25] == 0xa831c66d && K[26] == 0xb00327c8 && K[27] == 0xbf597fc7
    ensures K[28] == 0xc6e00bf3 && K[29] == 0xd5a79147 && K[30] == 0x06ca6351 && K[31] == 0x14292967
  {
  }

  lemma Constants40()
    ensures |K| == 64
    ensures K[32] == 0x27b70a85 && K[33] == 0x2e1b2138 && K[34] == 0x4d2c6dfc && K[35] == 0x53380d13
    ensures K[36] == 0x650a7354 && K[37] == 0x766a0abb && K[38] == 0x81c2c92e && K[39] == 0x92722c85
  {
  }

  lemma Constants48()
    ensures |K| == 64
    ensures K[40] == 0xa2bfe8a1 && K[41] == 0xa81a664b && K[42] == 0xc24b8b70 && K[43] == 0xc76c51a3
    ensures K[44] == 0xd192e819 && K[45] == 0xd6990624 && K[46] == 0xf40e3585 && K[47] == 0x106aa070
  {
  }

  lemma Constants56()
    ensures |K| == 64
    ensures K[48] == 0x19a4c116 && K[49] == 0x1e376c08 && K[50] == 0x2748774c && K[51] == 0x34b0bcb5
    ensures K[52] == 0x391c0cb3 && K[53] == 0x4ed8aa4a && K[54] == 0x5b9cca4f && K[55] == 0x682e6ff3
  {
  }

  lemma Constants64()
    ensures |K| == 64
    ensures K[56] == 0x748f82ee && K[57] == 0x78a5636f && K[58] == 0x84c87814 && K[59] == 0x8cc70208
    ensures K[60] == 0x90befffa && K[61] == 0xa4506ceb && K[62] == 0xbef9a3f7 && K[63] == 0xc67178f2
  {
  }

  lemma Stepped(t: nat)
    requires 0 < t <= 64
    ensures |BLOCK| == 64 && Rounds(START, BLOCK, t) == Round(Rounds(START, BLOCK, t - 1), K[t - 1], W(BLOCK, t - 1))
  {
  }

  lemma Started()
    ensures |BLOCK| == 64 && Rounds(START, BLOCK, 0) ==
      Vars(0x6a09e667, 0xbb67ae85, 0x3c6ef372, 0xa54ff53a, 0x510e527f, 0x9b05688c, 0x1f83d9ab, 0x5be0cd19)
  {
  }

  lemma Rounds8()
    ensures |BLOCK| == 64 && Rounds(START, BLOCK, 8) ==
      Vars(0x85a07b5f, 0xe5030380, 0x2b4209f5, 0x04409a6a, 0x0c657a79, 0x9b27a401, 0x714260ad, 0x43ada245)
  {
    Started();
    hide Rounds, Round, W, K;
    Words0();
    Constants8();
    Steps8();
    Stepped(1);
    Stepped(2);
    Stepped(3);
    Stepped(4);
    Stepped(5);
    Stepped(6);
    Stepped(7);
    Stepped(8);
  }

  lemma Steps8()
    ensures Round(Vars(0x6a09e667, 0xbb67ae85, 0x3c6ef372, 0xa54ff53a, 0x510e527f, 0x9b05688c, 0x1f83d9ab, 0x5be0cd19), 0x428a2f98, 0x61626380) ==
      Vars(0x5d6aebcd, 0x6a09e667, 0xbb67ae85, 0x3c6ef372, 0xfa2a4622, 0x510e527f, 0x9b05688c, 0x1f83d9ab)
    ensures Round(Vars(0x5d6aebcd, 0x6a09e667, 0xbb67ae85, 0x3c6ef372, 0xfa2a4622, 0x510e527f, 0x9b05688c, 0x1f83d9ab), 0x71374491, 0x00000000) ==
      Vars(0x5a6ad9ad, 0x5d6aebcd, 0x6a09e667, 0xbb67ae85, 0x78ce7989, 0xfa2a4622, 0x510e527f, 0x9b05688c)
    ensures Round(Vars(0x5a6ad9ad, 0x5d6aebcd, 0x6a09e667, 0xbb67ae85, 0x78ce7989, 0xfa2a4622, 0x510e527f, 0x9b05688c), 0xb5c0fbcf, 0x00000000) ==
      Vars(0xc8c347a7, 0x5a6ad9ad, 0x5d6aebcd, 0x6a09e667, 0xf92939eb, 0x78ce7989, 0xfa2a4622, 0x510e527f)
    ensures Round(Vars(0xc8c347a7, 0x5a6ad9ad, 0x5d6aebcd, 0x6a09e667, 0xf92939eb, 0x78ce7989, 0xfa2a4622, 0x510e527f), 0xe9b5dba5, 0x00000000) ==
      Vars(0xd550f666, 0xc8c347a7, 0x5a6ad9ad, 0x5d6aebcd, 0x24e00850, 0xf92939eb, 0x78ce7989, 0xfa2a4622)
    ensures Round(Vars(0xd550f666, 0xc8c347a7, 0x5a6ad9ad, 0x5d6aebcd, 0x24e00850, 0xf92939eb, 0x78ce7989, 0xfa2a4622), 0x3956c25b, 0x00000000) ==
      Vars(0x04409a6a, 0xd550f666, 0xc8c347a7, 0x5a6ad9ad, 0x43ada245, 0x24e00850, 0xf92939eb, 0x78ce7989)
    ensures Round(Vars(0x04409a6a, 0xd550f666, 0xc8c347a7, 0x5a6ad9ad, 0x43ada245, 0x24e00850, 0xf92939eb, 0x78ce7989), 0x59f111f1, 0x00000000) ==
      Vars(0x2b4209f5, 0x04409a6a, 0xd550f666, 0xc8c347a7, 0x714260ad, 0x43ada245, 0x24e00850, 0xf92939eb)
    ensures Round(Vars(0x2b4209f5, 0x04409a6a, 0xd550f666, 0xc8c347a7, 0x714260ad, 0x43ada245, 0x24e00850, 0xf92939eb), 0x923f82a4, 0x00000000) ==
      Vars(0xe5030380, 0x2b4209f5, 0x04409a6a, 0xd550f666, 0x9b27a401, 0x714260ad, 0x43ada245, 0x24e00850)
    ensures Round(Vars(0xe5030380, 0x2b4209f5, 0x04409a6a, 0xd550f666, 0x9b27a401, 0x714260ad, 0x43ada245, 0x24e00850), 0xab1c5ed5, 0x00000000) ==
      Vars(0x85a07b5f, 0xe5030380, 0x2b4209f5, 0x04409a6a, 0x0c657a79, 0x9b27a401, 0x714260ad, 0x43ada245)
  {
  }

  lemma Rounds16()
    ensures |BLOCK| == 64 && Rounds(START, BLOCK, 16) ==
      Vars(0xb0fa238e, 0xc0645fde, 0xd932eb16, 0x87912990, 0x07590dcd, 0x0b92f20c, 0x745a48de, 0x1e578218)
  {
    Rounds8();
    hide Rounds, Round, W, K;
    Words8();
    Constants16();
    Steps16();
    Stepped(9);
    Stepped(10);
    Stepped(11);
    Stepped(12);
    Stepped(13);
    Stepped(14);
    Stepped(15);
    Stepped(16);
  }

  lemma Steps16()
    ensures Round(Vars(0x85a07b5f, 0xe5030380, 0x2b4209f5, 0x04409a6a, 0x0c657a79, 0x9b27a401, 0x714260ad, 0x43ada245), 0xd807aa98, 0x00000000) ==
      Vars(0x8e04ecb9, 0x85a07b5f, 0xe5030380, 0x2b4209f5, 0x32ca2d8c, 0x0c657a79, 0x9b27a401, 0x714260ad)
    ensures Round(Vars(0x8e04ecb9, 0x85a07b5f, 0xe5030380, 0x2b4209f5, 0x32ca2d8c, 0x0c657a79, 0x9b27a401, 0x714260ad), 0x12835b01, 0x00000000) ==
      Vars(0x8c87346b, 0x8e04ecb9, 0x85a07b5f, 0xe5030380, 0x1cc92596, 0x32ca2d8c, 0x0c657a79, 0x9b27a401)
    ensures Round(Vars(0x8c87346b, 0x8e04ecb9, 0x85a07b5f, 0xe5030380, 0x1cc92596, 0x32ca2d8c, 0x0c657a79, 0x9b27a401), 0x243185be, 0x00000000) ==
      Vars(0x4798a3f4, 0x8c87346b, 0x8e04ecb9, 0x85a07b5f, 0x436b23e8, 0x1cc92596, 0x32ca2d8c, 0x0c657a79)
    ensures Round(Vars(0x4798a3f4, 0x8c87346b, 0x8e04ecb9, 0x85a07b5f, 0x436b23e8, 0x1cc92596, 0x32ca2d8c, 0x0c657a79), 0x550c7dc3, 0x00000000) ==
      Vars(0xf71fc5a9, 0x4798a3f4, 0x8c87346b, 0x8e04ecb9, 0x816fd6e9, 0x436b23e8, 0x1cc92596, 0x32ca2d8c)
    ensures Round(Vars(0xf71fc5a9, 0x4798a3f4, 0x8c87346b, 0x8e04ecb9, 0x816fd6e9, 0x436b23e8, 0x1cc92596, 0x32ca2d8c), 0x72be5d74, 0x00000000) ==
      Vars(0x87912990, 0xf71fc5a9, 0x4798a3f4, 0x8c87346b, 0x1e578218, 0x816fd6e9, 0x436b23e8, 0x1cc92596)
    ensures Round(Vars(0x87912990, 0xf71fc5a9, 0x4798a3f4, 0x8c87346b, 0x1e578218, 0x816fd6e9, 0x436b23e8, 0x1cc92596), 0x80deb1fe, 0x00000000) ==
      Vars(0xd932eb16, 0x87912990, 0xf71fc5a9, 0x4798a3f4, 0x745a48de, 0x1e578218, 0x816fd6e9, 0x436b23e8)
    ensures Round(Vars(0xd932eb16, 0x87912990, 0xf71fc5a9, 0x4798a3f4, 0x745a48de, 0x1e578218, 0x816fd6e9, 0x436b23e8), 0x9bdc06a7, 0x00000000) ==
      Vars(0xc0645fde, 0xd932eb16, 0x87912990, 0xf71fc5a9, 0x0b92f20c, 0x745a48de, 0x1e578218, 0x816fd6e9)
    ensures Round(Vars(0xc0645fde, 0xd932eb16, 0x87912990, 0xf71fc5a9, 0x0b92f20c, 0x745a48de, 0x1e578218, 0x816fd6e9), 0xc19bf174, 0x00000018) ==
      Vars(0xb0fa238e, 0xc0645fde, 0xd932eb16, 0x87912990, 0x07590dcd, 0x0b92f20c, 0x745a48de, 0x1e578218)
  {
  }

  lemma Rounds24()
    ensures |BLOCK| == 64 && Rounds(START, BLOCK, 24) ==
      Vars(0xc5d53d8d, 0xa7a3623f, 0xc2606d6d, 0x9dc68b63, 0xaa47c347, 0x49f5114a, 0xe1257970, 0x8ada8930)
  {
    Rounds16();
    hide Rounds, Round, W, K;
    Words16();
    Constants24();
    Steps24();
    Stepped(17);
    Stepped(18);
    Stepped(19);
    Stepped(20);
    Stepped(21);
    Stepped(22);
    Stepped(23);
    Stepped(24);
  }

  lemma Steps24()
    ensures Round(Vars(0xb0fa238e, 0xc0645fde, 0xd932eb16, 0x87912990, 0x07590dcd, 0x0b92f20c, 0x745a48de, 0x1e578218), 0xe49b69c1, 0x61626380) ==
      Vars(0x21da9a9b, 0xb0fa238e, 0xc0645fde, 0xd932eb16, 0x8034229c, 0x07590dcd, 0x0b92f20c, 0x745a48de)
    ensures Round(Vars(0x21da9a9b, 0xb0fa238e, 0xc0645fde, 0xd932eb16, 0x8034229c, 0x07590dcd, 0x0b92f20c, 0x745a48de), 0xefbe4786, 0x000f0000) ==
      Vars(0xc2fbd9d1, 0x21da9a9b, 0xb0fa238e, 0xc0645fde, 0x846ee454, 0x8034229c, 0x07590dcd, 0x0b92f20c)
    ensures Round(Vars(0xc2fbd9d1, 0x21da9a9b, 0xb0fa238e, 0xc0645fde, 0x846ee454, 0x8034229c, 0x07590dcd, 0x0b92f20c), 0x0fc19dc6, 0x7da86405) ==
      Vars(0xfe777bbf, 0xc2fbd9d1, 0x21da9a9b, 0xb0fa238e, 0xcc899961, 0x846ee454, 0x8034229c, 0x07590dcd)
    ensures Round(Vars(0xfe777bbf, 0xc2fbd9d1, 0x21da9a9b, 0xb0fa238e, 0xcc899961, 0x846ee454, 0x8034229c, 0x07590dcd), 0x240ca1cc, 0x600003c6) ==
      Vars(0xe1f20c33, 0xfe777bbf, 0xc2fbd9d1, 0x21da9a9b, 0xb0638179, 0xcc899961, 0x846ee454, 0x8034229c)
    ensures Round(Vars(0xe1f20c33, 0xfe777bbf, 0xc2fbd9d1, 0x21da9a9b, 0xb0638179, 0xcc899961, 0x846ee454, 0x8034229c), 0x2de92c6f, 0x3e9d7b78) ==
      Vars(0x9dc68b63, 0xe1f20c33, 0xfe777bbf, 0xc2fbd9d1, 0x8ada8930, 0xb0638179, 0xcc899961, 0x846ee454)
    ensures Round(Vars(0x9dc68b63, 0xe1f20c33, 0xfe777bbf, 0xc2fbd9d1, 0x8ada8930, 0xb0638179, 0xcc899961, 0x846ee454), 0x4a7484aa, 0x0183fc00) ==
      Vars(0xc2606d6d, 0x9dc68b63, 0xe1f20c33, 0xfe777bbf, 0xe1257970, 0x8ada8930, 0xb0638179, 0xcc899961)
    ensures Round(Vars(0xc2606d6d, 0x9dc68b63, 0xe1f20c33, 0xfe777bbf, 0xe1257970, 0x8ada8930, 0xb0638179, 0xcc899961), 0x5cb0a9dc, 0x12dcbfdb) ==
      Vars(0xa7a3623f, 0xc2606d6d, 0x9dc68b63, 0xe1f20c33, 0x49f5114a, 0xe1257970, 0x8ada8930, 0xb0638179)
    ensures Round(Vars(0xa7a3623f, 0xc2606d6d, 0x9dc68b63, 0xe1f20c33, 0x49f5114a, 0xe1257970, 0x8ada8930, 0xb0638179), 0x76f988da, 0xe2e2c38e) ==
      Vars(0xc5d53d8d, 0xa7a3623f, 0xc2606d6d, 0x9dc68b63, 0xaa47c347, 0x49f5114a, 0xe1257970, 0x8ada8930)
  {
  }

  lemma Rounds32()
    ensures |BLOCK| == 64 && Rounds(START, BLOCK, 32) ==
      Vars(0x73b33bf5, 0xea992a22, 0xa0060b30, 0x363482c9, 0xba591112, 0x0109ab3a, 0xade79437, 0x6112a3b7)
  {
    Rounds24();
    hide Rounds, Round, W, K;
    Words24();
    Constants32();
    Steps32();
    Stepped(25);
    Stepped(26);
    Stepped(27);
    Stepped(28);
    Stepped(29);
    Stepped(30);
    Stepped(31);
    Stepped(32);
  }

  lemma Steps32()
    ensures Round(Vars(0xc5d53d8d, 0xa7a3623f, 0xc2606d6d, 0x9dc68b63, 0xaa47c347, 0x49f5114a, 0xe1257970, 0x8ada8930), 0x983e5152, 0xc8215c1a) ==
      Vars(0x1c2c2838, 0xc5d53d8d, 0xa7a3623f, 0xc2606d6d, 0x2823ef91, 0xaa47c347, 0x49f5114a, 0xe1257970)
    ensures Round(Vars(0x1c2c2838, 0xc5d53d8d, 0xa7a3623f, 0xc2606d6d, 0x2823ef91, 0xaa47c347, 0x49f5114a, 0xe1257970), 0xa831c66d, 0xb73679a2) ==
      Vars(0xcde8037d, 0x1c2c2838, 0xc5d53d8d, 0xa7a3623f, 0x14383d8e, 0x2823ef91, 0xaa47c347, 0x49f5114a)
    ensures Round(Vars(0xcde8037d, 0x1c2c2838, 0xc5d53d8d, 0xa7a3623f, 0x14383d8e, 0x2823ef91, 0xaa47c347, 0x49f5114a), 0xb00327c8, 0xe5bc3909) ==
      Vars(0xb62ec4bc, 0xcde8037d, 0x1c2c2838, 0xc5d53d8d, 0xc74c6516, 0x14383d8e, 0x2823ef91, 0xaa47c347)
    ensures Round(Vars(0xb62ec4bc, 0xcde8037d, 0x1c2c2838, 0xc5d53d8d, 0xc74c6516, 0x14383d8e, 0x2823ef91, 0xaa47c347), 0xbf597fc7, 0x32663c5b) ==
      Vars(0x77d37528, 0xb62ec4bc, 0xcde8037d, 0x1c2c2838, 0xedffbff8, 0xc74c6516, 0x14383d8e, 0x2823ef91)
    ensures Round(Vars(0x77d37528, 0xb62ec4bc, 0xcde8037d, 0x1c2c2838, 0xedffbff8, 0xc74c6516, 0x14383d8e, 0x2823ef91), 0xc6e00bf3, 0x9d209d67) ==
      Vars(0x363482c9, 0x77d37528, 0xb62ec4bc, 0xcde8037d, 0x6112a3b7, 0xedffbff8, 0xc74c6516, 0x14383d8e)
    ensures Round(Vars(0x363482c9, 0x77d37528, 0xb62ec4bc, 0xcde8037d, 0x6112a3b7, 0xedffbff8, 0xc74c6516, 0x14383d8e), 0xd5a79147, 0xec8726cb) ==
      Vars(0xa0060b30, 0x363482c9, 0x77d37528, 0xb62ec4bc, 0xade79437, 0x6112a3b7, 0xedffbff8, 0xc74c6516)
    ensures Round(Vars(0xa0060b30, 0x363482c9, 0x77d37528, 0xb62ec4bc, 0xade79437, 0x6112a3b7, 0xedffbff8, 0xc74c6516), 0x06ca6351, 0x702138a4) ==
      Vars(0xea992a22, 0xa0060b30, 0x363482c9, 0x77d37528, 0x0109ab3a, 0xade79437, 0x6112a3b7, 0xedffbff8)
    ensures Round(Vars(0xea992a22, 0xa0060b30, 0x363482c9, 0x77d37528, 0x0109ab3a, 0xade79437, 0x6112a3b7, 0xedffbff8), 0x14292967, 0xd3b7973b) ==
      Vars(0x73b33bf5, 0xea992a22, 0xa0060b30, 0x363482c9, 0xba591112, 0x0109ab3a, 0xade79437, 0x6112a3b7)
  {
  }

  lemma Rounds40()
    ensures |BLOCK| == 64 && Rounds(START, BLOCK, 40) ==
      Vars(0x79ea687a, 0x6dc57a8a, 0x34df1604, 0x41a65cb1, 0x1efbc0a0, 0xf0781bc8, 0xa507a53d, 0x0772a26b)
  {
    Rounds32();
    hide Rounds, Round, W, K;
    Words32();
    Constants40();
    Steps40();
    Stepped(33);
    Stepped(34);
    Stepped(35);
    Stepped(36);
    Stepped(37);
    Stepped(38);
    Stepped(39);
    Stepped(40);
  }

  lemma Steps40()
    ensures Round(Vars(0x73b33bf5, 0xea992a22, 0xa0060b30, 0x363482c9, 0xba591112, 0x0109ab3a, 0xade79437, 0x6112a3b7), 0x27b70a85, 0x93f5997f) ==
      Vars(0x98e12507, 0x73b33bf5, 0xea992a22, 0xa0060b30, 0x9cd9f5f6, 0xba591112, 0x0109ab3a, 0xade79437)
    ensures Round(Vars(0x98e12507, 0x73b33bf5, 0xea992a22, 0xa0060b30, 0x9cd9f5f6, 0xba591112, 0x0109ab3a, 0xade79437), 0x2e1b2138, 0x3b68ba73) ==
      Vars(0xfe604df5, 0x98e12507, 0x73b33bf5, 0xea992a22, 0x59249dd3, 0x9cd9f5f6, 0xba591112, 0x0109ab3a)
    ensures Round(Vars(0xfe604df5, 0x98e12507, 0x73b33bf5, 0xea992a22, 0x59249dd3, 0x9cd9f5f6, 0xba591112, 0x0109ab3a), 0x4d2c6dfc, 0xaff4ffc1) ==
      Vars(0xa9a7738c, 0xfe604df5, 0x98e12507, 0x73b33bf5, 0x085f3833, 0x59249dd3, 0x9cd9f5f6, 0xba591112)
    ensures Round(Vars(0xa9a7738c, 0xfe604df5, 0x98e12507, 0x73b33bf5, 0x085f3833, 0x59249dd3, 0x9cd9f5f6, 0xba591112), 0x53380d13, 0xf10a5c62) ==
      Vars(0x65a0cfe4, 0xa9a7738c, 0xfe604df5, 0x98e12507, 0xf4b002d6, 0x085f3833, 0x59249dd3, 0x9cd9f5f6)
    ensures Round(Vars(0x65a0cfe4, 0xa9a7738c, 0xfe604df5, 0x98e12507, 0xf4b002d6, 0x085f3833, 0x59249dd3, 0x9cd9f5f6), 0x650a7354, 0x0a8b3996) ==
      Vars(0x41a65cb1, 0x65a0cfe4, 0xa9a7738c, 0xfe604df5, 0x0772a26b, 0xf4b002d6, 0x085f3833, 0x59249dd3)
    ensures Round(Vars(0x41a65cb1, 0x65a0cfe4, 0xa9a7738c, 0xfe604df5, 0x0772a26b, 0xf4b002d6, 0x085f3833, 0x59249dd3), 0x766a0abb, 0x72af830a) ==
      Vars(0x34df1604, 0x41a65cb1, 0x65a0cfe4, 0xa9a7738c, 0xa507a53d, 0x0772a26b, 0xf4b002d6, 0x085f3833)
    ensures Round(Vars(0x34df1604, 0x41a65cb1, 0x65a0cfe4, 0xa9a7738c, 0xa507a53d, 0x0772a26b, 0xf4b002d6, 0x085f3833), 0x81c2c92e, 0x9409e33e) ==
      Vars(0x6dc57a8a, 0x34df1604, 0x41a65cb1, 0x65a0cfe4, 0xf0781bc8, 0xa507a53d, 0x0772a26b, 0xf4b002d6)
    ensures Round(Vars(0x6dc57a8a, 0x34df1604, 0x41a65cb1, 0x65a0cfe4, 0xf0781bc8, 0xa507a53d, 0x0772a26b, 0xf4b002d6), 0x92722c85, 0x24641522) ==
      Vars(0x79ea687a, 0x6dc57a8a, 0x34df1604, 0x41a65cb1, 0x1efbc0a0, 0xf0781bc8, 0xa507a53d, 0x0772a26b)
  {
  }

  lemma Rounds48()
    ensures |BLOCK| == 64 && Rounds(START, BLOCK, 48) ==
      Vars(0x4172328d, 0xa14c14b0, 0x72ab4b91, 0x26628815, 0xfecf0bc6, 0xd57b94a9, 0xb7755da1, 0xa80f11f0)
  {
    Rounds40();
    hide Rounds, Round, W, K;
    Words40();
    Constants48();
    Steps48();
    Stepped(41);
    Stepped(42);
    Stepped(43);
    Stepped(44);
    Stepped(45);
    Stepped(46);
    Stepped(47);
    Stepped(48);
  }

  lemma Steps48()
    ensures Round(Vars(0x79ea687a, 0x6dc57a8a, 0x34df1604, 0x41a65cb1, 0x1efbc0a0, 0xf0781bc8, 0xa507a53d, 0x0772a26b), 0xa2bfe8a1, 0x9f47bf94) ==
      Vars(0xd6670766, 0x79ea687a, 0x6dc57a8a, 0x34df1604, 0x26352d63, 0x1efbc0a0, 0xf0781bc8, 0xa507a53d)
    ensures Round(Vars(0xd6670766, 0x79ea687a, 0x6dc57a8a, 0x34df1604, 0x26352d63, 0x1efbc0a0, 0xf0781bc8, 0xa507a53d), 0xa81a664b, 0xf0a64f5a) ==
      Vars(0xdf46652f, 0xd6670766, 0x79ea687a, 0x6dc57a8a, 0x838b2711, 0x26352d63, 0x1efbc0a0, 0xf0781bc8)
    ensures Round(Vars(0xdf46652f, 0xd6670766, 0x79ea687a, 0x6dc57a8a, 0x838b2711, 0x26352d63, 0x1efbc0a0, 0xf0781bc8), 0xc24b8b70, 0x3e246a79) ==
      Vars(0x17aa0dfe, 0xdf46652f, 0xd6670766, 0x79ea687a, 0xdecd4715, 0x838b2711, 0x26352d63, 0x1efbc0a0)
    ensures Round(Vars(0x17aa0dfe, 0xdf46652f, 0xd6670766, 0x79ea687a, 0xdecd4715, 0x838b2711, 0x26352d63, 0x1efbc0a0), 0xc76c51a3, 0x27333ba3) ==
      Vars(0x9d4baf93, 0x17aa0dfe, 0xdf46652f, 0xd6670766, 0xfda24c2e, 0xdecd4715, 0x838b2711, 0x26352d63)
    ensures Round(Vars(0x9d4baf93, 0x17aa0dfe, 0xdf46652f, 0xd6670766, 0xfda24c2e, 0xdecd4715, 0x838b2711, 0x26352d63), 0xd192e819, 0x0c4763f2) ==
      Vars(0x26628815, 0x9d4baf93, 0x17aa0dfe, 0xdf46652f, 0xa80f11f0, 0xfda24c2e, 0xdecd4715, 0x838b2711)
    ensures Round(Vars(0x26628815, 0x9d4baf93, 0x17aa0dfe, 0xdf46652f, 0xa80f11f0, 0xfda24c2e, 0xdecd4715, 0x838b2711), 0xd6990624, 0x840abf27) ==
      Vars(0x72ab4b91, 0x26628815, 0x9d4baf93, 0x17aa0dfe, 0xb7755da1, 0xa80f11f0, 0xfda24c2e, 0xdecd4715)
    ensures Round(Vars(0x72ab4b91, 0x26628815, 0x9d4baf93, 0x17aa0dfe, 0xb7755da1, 0xa80f11f0, 0xfda24c2e, 0xdecd4715), 0xf40e3585, 0x7a290d5d) ==
      Vars(0xa14c14b0, 0x72ab4b91, 0x26628815, 0x9d4baf93, 0xd57b94a9, 0xb7755da1, 0xa80f11f0, 0xfda24c2e)
    ensures Round(Vars(0xa14c14b0, 0x72ab4b91, 0x26628815, 0x9d4baf93, 0xd57b94a9, 0xb7755da1, 0xa80f11f0, 0xfda24c2e), 0x106aa070, 0x065c43da) ==
      Vars(0x4172328d, 0xa14c14b0, 0x72ab4b91, 0x26628815, 0xfecf0bc6, 0xd57b94a9, 0xb7755da1, 0xa80f11f0)
  {
  }

  lemma Rounds56()
    ensures |BLOCK| == 64 && Rounds(START, BLOCK, 56) ==
      Vars(0x38cc9913, 0x3ec45cdb, 0xf5702fdb, 0x101fd28f, 0x54cb266b, 0xe50e1b4f, 0x9f4787c3, 0x529e7d00)
  {
    Rounds48();
    hide Rounds, Round, W, K;
    Words48();
    Constants56();
    Steps56();
    Stepped(49);
    Stepped(50);
    Stepped(51);
    Stepped(52);
    Stepped(53);
    Stepped(54);
    Stepped(55);
    Stepped(56);
  }

  lemma Steps56()
    ensures Round(Vars(0x4172328d, 0xa14c14b0, 0x72ab4b91, 0x26628815, 0xfecf0bc6, 0xd57b94a9, 0xb7755da1, 0xa80f11f0), 0x19a4c116, 0xfb3e89cb) ==
      Vars(0x05757ceb, 0x4172328d, 0xa14c14b0, 0x72ab4b91, 0xbd714038, 0xfecf0bc6, 0xd57b94a9, 0xb7755da1)
    ensures Round(Vars(0x05757ceb, 0x4172328d, 0xa14c14b0, 0x72ab4b91, 0xbd714038, 0xfecf0bc6, 0xd57b94a9, 0xb7755da1), 0x1e376c08, 0xcc7617db) ==
      Vars(0xf11bfaa8, 0x05757ceb, 0x4172328d, 0xa14c14b0, 0x6e5c390c, 0xbd714038, 0xfecf0bc6, 0xd57b94a9)
    ensures Round(Vars(0xf11bfaa8, 0x05757ceb, 0x4172328d, 0xa14c14b0, 0x6e5c390c, 0xbd714038, 0xfecf0bc6, 0xd57b94a9), 0x2748774c, 0xb9e66c34) ==
      Vars(0x7a0508a1, 0xf11bfaa8, 0x05757ceb, 0x4172328d, 0x52f1ccf7, 0x6e5c390c, 0xbd714038, 0xfecf0bc6)
    ensures Round(Vars(0x7a0508a1, 0xf11bfaa8, 0x05757ceb, 0x4172328d, 0x52f1ccf7, 0x6e5c390c, 0xbd714038, 0xfecf0bc6), 0x34b0bcb5, 0xa9993667) ==
      Vars(0x886e7a22, 0x7a0508a1, 0xf11bfaa8, 0x05757ceb, 0x49231c1e, 0x52f1ccf7, 0x6e5c390c, 0xbd714038)
    ensures Round(Vars(0x886e7a22, 0x7a0508a1, 0xf11bfaa8, 0x05757ceb, 0x49231c1e, 0x52f1ccf7, 0x6e5c390c, 0xbd714038), 0x391c0cb3, 0x84badedd) ==
      Vars(0x101fd28f, 0x886e7a22, 0x7a0508a1, 0xf11bfaa8, 0x529e7d00, 0x49231c1e, 0x52f1ccf7, 0x6e5c390c)
    ensures Round(Vars(0x101fd28f, 0x886e7a22, 0x7a0508a1, 0xf11bfaa8, 0x529e7d00, 0x49231c1e, 0x52f1ccf7, 0x6e5c390c), 0x4ed8aa4a, 0xc21462bc) ==
      Vars(0xf5702fdb, 0x101fd28f, 0x886e7a22, 0x7a0508a1, 0x9f4787c3, 0x529e7d00, 0x49231c1e, 0x52f1ccf7)
    ensures Round(Vars(0xf5702fdb, 0x101fd28f, 0x886e7a22, 0x7a0508a1, 0x9f4787c3, 0x529e7d00, 0x49231c1e, 0x52f1ccf7), 0x5b9cca4f, 0x1487472c) ==
      Vars(0x3ec45cdb, 0xf5702fdb, 0x101fd28f, 0x886e7a22, 0xe50e1b4f, 0x9f4787c3, 0x529e7d00, 0x49231c1e)
    ensures Round(Vars(0x3ec45cdb, 0xf5702fdb, 0x101fd28f, 0x886e7a22, 0xe50e1b4f, 0x9f4787c3, 0x529e7d00, 0x49231c1e), 0x682e6ff3, 0xb20f7a99) ==
      Vars(0x38cc9913, 0x3ec45cdb, 0xf5702fdb, 0x101fd28f, 0x54cb266b, 0xe50e1b4f, 0x9f4787c3, 0x529e7d00)
  {
  }

  lemma Rounds64()
    ensures |BLOCK| == 64 && Rounds(START, BLOCK, 64) ==
      Vars(0x506e3058, 0xd39a2165, 0x04d24d6c, 0xb85e2ce9, 0x5ef50f24, 0xfb121210, 0x948d25b6, 0x961f4894)
  {
    Rounds56();
    hide Rounds, Round, W, K;
    Words56();
    Constants64();
    Steps64();
    Stepped(57);
    Stepped(58);
    Stepped(59);
    Stepped(60);
    Stepped(61);
    Stepped(62);
    Stepped(63);
    Stepped(64);
  }

  lemma Steps64()
    ensures Round(Vars(0x38cc9913, 0x3ec45cdb, 0xf5702fdb, 0x101fd28f, 0x54cb266b, 0xe50e1b4f, 0x9f4787c3, 0x529e7d00), 0x748f82ee, 0xef57b9cd) ==
      Vars(0xfcd1887b, 0x38cc9913, 0x3ec45cdb, 0xf5702fdb, 0x9b5e906c, 0x54cb266b, 0xe50e1b4f, 0x9f4787c3)
    ensures Round(Vars(0xfcd1887b, 0x38cc9913, 0x3ec45cdb, 0xf5702fdb, 0x9b5e906c, 0x54cb266b, 0xe50e1b4f, 0x9f4787c3), 0x78a5636f, 0xebe6b238) ==
      Vars(0xc062d46f, 0xfcd1887b, 0x38cc9913, 0x3ec45cdb, 0x7e44008e, 0x9b5e906c, 0x54cb266b, 0xe50e1b4f)
    ensures Round(Vars(0xc062d46f, 0xfcd1887b, 0x38cc9913, 0x3ec45cdb, 0x7e44008e, 0x9b5e906c, 0x54cb266b, 0xe50e1b4f), 0x84c87814, 0x9fe3095e) ==
      Vars(0xffb70472, 0xc062d46f, 0xfcd1887b, 0x38cc9913, 0x6d83bfc6, 0x7e44008e, 0x9b5e906c, 0x54cb266b)
    ensures Round(Vars(0xffb70472, 0xc062d46f, 0xfcd1887b, 0x38cc9913, 0x6d83bfc6, 0x7e44008e, 0x9b5e906c, 0x54cb266b), 0x8cc70208, 0x78bc8d4b) ==
      Vars(0xb6ae8fff, 0xffb70472, 0xc062d46f, 0xfcd1887b, 0xb21bad3d, 0x6d83bfc6, 0x7e44008e, 0x9b5e906c)
    ensures Round(Vars(0xb6ae8fff, 0xffb70472, 0xc062d46f, 0xfcd1887b, 0xb21bad3d, 0x6d83bfc6, 0x7e44008e, 0x9b5e906c), 0x90befffa, 0xa43fcf15) ==
      Vars(0xb85e2ce9, 0xb6ae8fff, 0xffb70472, 0xc062d46f, 0x961f4894, 0xb21bad3d, 0x6d83bfc6, 0x7e44008e)
    ensures Round(Vars(0xb85e2ce9, 0xb6ae8fff, 0xffb70472, 0xc062d46f, 0x961f4894, 0xb21bad3d, 0x6d83bfc6, 0x7e44008e), 0xa4506ceb, 0x668b2ff8) ==
      Vars(0x04d24d6c, 0xb85e2ce9, 0xb6ae8fff, 0xffb70472, 0x948d25b6, 0x961f4894, 0xb21bad3d, 0x6d83bfc6)
    ensures Round(Vars(0x04d24d6c, 0xb85e2ce9, 0xb6ae8fff, 0xffb70472, 0x948d25b6, 0x961f4894, 0xb21bad3d, 0x6d83bfc6), 0xbef9a3f7, 0xeeaba2cc) ==
      Vars(0xd39a2165, 0x04d24d6c, 0xb85e2ce9, 0xb6ae8fff, 0xfb121210, 0x948d25b6, 0x961f4894, 0xb21bad3d)
    ensures Round(Vars(0xd39a2165, 0x04d24d6c, 0xb85e2ce9, 0xb6ae8fff, 0xfb121210, 0x948d25b6, 0x961f4894, 0xb21bad3d), 0xc67178f2, 0x12b1edeb) ==
      Vars(0x506e3058, 0xd39a2165, 0x04d24d6c, 0xb85e2ce9, 0x5ef50f24, 0xfb121210, 0x948d25b6, 0x961f4894)
  {
  }

  // ----- the digest -----

  const ABC_WORDS: seq<Word> := [
    0xba7816bf, 0x8f01cfea, 0x414140de, 0x5dae2223, 0xb00361a3, 0x96177a9c, 0xb410ff61, 0xf20015ad]

  lemma Compressed()
    ensures |BLOCK| == 64 && Compress(H0, BLOCK) == ABC_WORDS
  {
    Rounds64();
    hide Rounds, Round;
  }

  const ABC_DIGEST: Bytes :=
    [0xba, 0x78, 0x16, 0xbf] +
    [0x8f, 0x01, 0xcf, 0xea] +
    [0x41, 0x41, 0x40, 0xde] +
    [0x5d, 0xae, 0x22, 0x23] +
    [0xb0, 0x03, 0x61, 0xa3] +
    [0x96, 0x17, 0x7a, 0x9c] +
    [0xb4, 0x10, 0xff, 0x61] +
    [0xf2, 0x00, 0x15, 0xad]

  lemma Word0()
    ensures FromWord(0xba7816bf) == [0xba, 0x78, 0x16, 0xbf]
  {
    WeightDecides([0xba, 0x78, 0x16, 0xbf], 0xba7816bf);
  }

  lemma Word1()
    ensures FromWord(0x8f01cfea) == [0x8f, 0x01, 0xcf, 0xea]
  {
    WeightDecides([0x8f, 0x01, 0xcf, 0xea], 0x8f01cfea);
  }

  lemma Word2()
    ensures FromWord(0x414140de) == [0x41, 0x41, 0x40, 0xde]
  {
    WeightDecides([0x41, 0x41, 0x40, 0xde], 0x414140de);
  }

  lemma Word3()
    ensures FromWord(0x5dae2223) == [0x5d, 0xae, 0x22, 0x23]
  {
    WeightDecides([0x5d, 0xae, 0x22, 0x23], 0x5dae2223);
  }

  lemma Word4()
    ensures FromWord(0xb00361a3) == [0xb0, 0x03, 0x61, 0xa3]
  {
    WeightDecides([0xb0, 0x03, 0x61, 0xa3], 0xb00361a3);
  }

  lemma Word5()
    ensures FromWord(0x96177a9c) == [0x96, 0x17, 0x7a, 0x9c]
  {
    WeightDecides([0x96, 0x17, 0x7a, 0x9c], 0x96177a9c);
  }

  lemma Word6()
    ensures FromWord(0xb410ff61) == [0xb4, 0x10, 0xff, 0x61]
  {
    WeightDecides([0xb4, 0x10, 0xff, 0x61], 0xb410ff61);
  }

  lemma Word7()
    ensures FromWord(0xf20015ad) == [0xf2, 0x00, 0x15, 0xad]
  {
    WeightDecides([0xf2, 0x00, 0x15, 0xad], 0xf20015ad);
  }

  /** The digest of "abc". */
  lemma DigestOfAbc()
    ensures Digest(ABC) == ABC_DIGEST
  {
    Padded();
    Compressed();
    hide Compress;
    OneBlock(H0, BLOCK);
    Written();
  }

  lemma Grown(ws: seq<Word>, i: nat)
    requires i < |ws|
    ensures FromWords(ws[..i + 1]) == FromWords(ws[..i]) + FromWord(ws[i])
  {
    assert ws[..i + 1][..i] == ws[..i];
  }

  lemma HalfWritten()
    ensures FromWords(ABC_WORDS[..4]) ==
      [0xba, 0x78, 0x16, 0xbf] +
      [0x8f, 0x01, 0xcf, 0xea] +
      [0x41, 0x41, 0x40, 0xde] +
      [0x5d, 0xae, 0x22, 0x23]
  {
    assert FromWords(ABC_WORDS[..0]) == [];
    hide FromWord, FromWords;
    Grown(ABC_WORDS, 0);
    Word0();
    Grown(ABC_WORDS, 1);
    Word1();
    Grown(ABC_WORDS, 2);
    Word2();
    Grown(ABC_WORDS, 3);
    Word3();
  }

  lemma Written()
    ensures FromWords(ABC_WORDS) == ABC_DIGEST
  {
    hide FromWord, FromWords;
    HalfWritten();
    Grown(ABC_WORDS, 4);
    Word4();
    Grown(ABC_WORDS, 5);
    Word5();
    Grown(ABC_WORDS, 6);
    Word6();
    Grown(ABC_WORDS, 7);
    Word7();
    assert ABC_WORDS[..8] == ABC_WORDS;
  }
}
