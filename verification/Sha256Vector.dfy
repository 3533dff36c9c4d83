/** The digest of the bytes of "abc", one schedule word and one round at a time: the first of
    the published examples, and of the program's own. */
module Sha256Vector {
  import opened Arithmetic
  import opened Sha256

  function Message(): seq<byte> {
    [0x61, 0x62, 0x63]
  }

  /** The padded message, in words. */
  predicate IsChunk(m: Block) {
    m[0] == 0x61626380 && m[15] == 0x18 && forall i :: 1 <= i < 15 ==> m[i] == 0
  }

  lemma {:induction false} NextWord(m: Block, t: nat, w16: Word, w15: Word, w7: Word, w2: Word, w: Word)
    requires 16 <= t && Schedule(m, t - 16) == w16 && Schedule(m, t - 15) == w15
    requires Schedule(m, t - 7) == w7 && Schedule(m, t - 2) == w2
    requires Sum4(SmallSigma1(w2), w7, SmallSigma0(w15), w16) == w
    ensures Schedule(m, t) == w
  {
  }

  lemma {:induction false} NextRound(m: Block, t: nat, k: Word, w: Word, v: Variables)
    requires 0 < t <= |K| && K[t - 1] == k && Schedule(m, t - 1) == w
    requires Round(Rounds(H0, m, t - 1), k, w) == v
    ensures Rounds(H0, m, t) == v
  {
  }

  lemma {:induction false} FirstWord(m: Block, t: nat, w: Word)
    requires t < 16 && m[t] == w
    ensures Schedule(m, t) == w
  {
  }

  lemma {:induction false} Words0(m: Block)
    requires IsChunk(m)
    ensures Schedule(m, 0) == 0x61626380 && Schedule(m, 1) == 0x00000000
    ensures Schedule(m, 2) == 0x00000000 && Schedule(m, 3) == 0x00000000
  {
    hide Schedule;
    FirstWord(m, 0, 0x61626380);
    FirstWord(m, 1, 0x00000000);
    FirstWord(m, 2, 0x00000000);
    FirstWord(m, 3, 0x00000000);
  }

  lemma {:induction false} Words1(m: Block)
    requires IsChunk(m)
    ensures Schedule(m, 4) == 0x00000000 && Schedule(m, 5) == 0x00000000
    ensures Schedule(m, 6) == 0x00000000 && Schedule(m, 7) == 0x00000000
  {
    hide Schedule;
    FirstWord(m, 4, 0x00000000);
    FirstWord(m, 5, 0x00000000);
    FirstWord(m, 6, 0x00000000);
    FirstWord(m, 7, 0x00000000);
  }

  lemma {:induction false} Words2(m: Block)
    requires IsChunk(m)
    ensures Schedule(m, 8) == 0x00000000 && Schedule(m, 9) == 0x00000000
    ensures Schedule(m, 10) == 0x00000000 && Schedule(m, 11) == 0x00000000
  {
    hide Schedule;
    FirstWord(m, 8, 0x00000000);
    FirstWord(m, 9, 0x00000000);
    FirstWord(m, 10, 0x00000000);
    FirstWord(m, 11, 0x00000000);
  }

  lemma {:induction false} Words3(m: Block)
    requires IsChunk(m)
    ensures Schedule(m, 12) == 0x00000000 && Schedule(m, 13) == 0x00000000
    ensures Schedule(m, 14) == 0x00000000 && Schedule(m, 15) == 0x00000018
  {
    hide Schedule;
    FirstWord(m, 12, 0x00000000);
    FirstWord(m, 13, 0x00000000);
    FirstWord(m, 14, 0x00000000);
    FirstWord(m, 15, 0x00000018);
  }

  lemma {:induction false} Words4(m: Block)
    requires IsChunk(m)
    ensures Schedule(m, 16) == 0x61626380 && Schedule(m, 17) == 0x000f0000
    ensures Schedule(m, 18) == 0x7da86405 && Schedule(m, 19) == 0x600003c6
  {
    hide Schedule, IsChunk;
    Words0(m);
    Words1(m);
    Words2(m);
    Words3(m);
    NextWord(m, 16, 0x61626380, 0x00000000, 0x00000000, 0x00000000, 0x61626380);
    NextWord(m, 17, 0x00000000, 0x00000000, 0x00000000, 0x00000018, 0x000f0000);
    NextWord(m, 18, 0x00000000, 0x00000000, 0x00000000, 0x61626380, 0x7da86405);
    NextWord(m, 19, 0x00000000, 0x00000000, 0x00000000, 0x000f0000, 0x600003c6);
  }

  lemma {:induction false} Words5(m: Block)
    requires IsChunk(m)
    ensures Schedule(m, 20) == 0x3e9d7b78 && Schedule(m, 21) == 0x0183fc00
    ensures Schedule(m, 22) == 0x12dcbfdb && Schedule(m, 23) == 0xe2e2c38e
  {
    hide Schedule, IsChunk;
    Words1(m);
    Words2(m);
    Words3(m);
    Words4(m);
    NextWord(m, 20, 0x00000000, 0x00000000, 0x00000000, 0x7da86405, 0x3e9d7b78);
    NextWord(m, 21, 0x00000000, 0x00000000, 0x00000000, 0x600003c6, 0x0183fc00);
    NextWord(m, 22, 0x00000000, 0x00000000, 0x00000018, 0x3e9d7b78, 0x12dcbfdb);
    NextWord(m, 23, 0x00000000, 0x00000000, 0x61626380, 0x0183fc00, 0xe2e2c38e);
  }

  lemma {:induction false} Words6(m: Block)
    requires IsChunk(m)
    ensures Schedule(m, 24) == 0xc8215c1a && Schedule(m, 25) == 0xb73679a2
    ensures Schedule(m, 26) == 0xe5bc3909 && Schedule(m, 27) == 0x32663c5b
  {
    hide Schedule, IsChunk;
    Words2(m);
    Words3(m);
    Words4(m);
    Words5(m);
    NextWord(m, 24, 0x00000000, 0x00000000, 0x000f0000, 0x12dcbfdb, 0xc8215c1a);
    NextWord(m, 25, 0x00000000, 0x00000000, 0x7da86405, 0xe2e2c38e, 0xb73679a2);
    NextWord(m, 26, 0x00000000, 0x00000000, 0x600003c6, 0xc8215c1a, 0xe5bc3909);
    NextWord(m, 27, 0x00000000, 0x00000000, 0x3e9d7b78, 0xb73679a2, 0x32663c5b);
  }

  lemma {:induction false} Words7(m: Block)
    requires IsChunk(m)
    ensures Schedule(m, 28) == 0x9d209d67 && Schedule(m, 29) == 0xec8726cb
    ensures Schedule(m, 30) == 0x702138a4 && Schedule(m, 31) == 0xd3b7973b
  {
    hide Schedule, IsChunk;
    Words3(m);
    Words4(m);
    Words5(m);
    Words6(m);
    NextWord(m, 28, 0x00000000, 0x00000000, 0x0183fc00, 0xe5bc3909, 0x9d209d67);
    NextWord(m, 29, 0x00000000, 0x00000000, 0x12dcbfdb, 0x32663c5b, 0xec8726cb);
    NextWord(m, 30, 0x00000000, 0x00000018, 0xe2e2c38e, 0x9d209d67, 0x702138a4);
    NextWord(m, 31, 0x00000018, 0x61626380, 0xc8215c1a, 0xec8726cb, 0xd3b7973b);
  }

  lemma {:induction false} Words8(m: Block)
    requires IsChunk(m)
    ensures Schedule(m, 32) == 0x93f5997f && Schedule(m, 33) == 0x3b68ba73
    ensures Schedule(m, 34) == 0xaff4ffc1 && Schedule(m, 35) == 0xf10a5c62
  {
    hide Schedule, IsChunk;
    Words4(m);
    Words5(m);
    Words6(m);
    Words7(m);
    NextWord(m, 32, 0x61626380, 0x000f0000, 0xb73679a2, 0x702138a4, 0x93f5997f);
    NextWord(m, 33, 0x000f0000, 0x7da86405, 0xe5bc3909, 0xd3b7973b, 0x3b68ba73);
    NextWord(m, 34, 0x7da86405, 0x600003c6, 0x32663c5b, 0x93f5997f, 0xaff4ffc1);
    NextWord(m, 35, 0x600003c6, 0x3e9d7b78, 0x9d209d67, 0x3b68ba73, 0xf10a5c62);
  }

  lemma {:induction false} Words9(m: Block)
    requires IsChunk(m)
    ensures Schedule(m, 36) == 0x0a8b3996 && Schedule(m, 37) == 0x72af830a
    ensures Schedule(m, 38) == 0x9409e33e && Schedule(m, 39) == 0x24641522
  {
    hide Schedule, IsChunk;
    Words5(m);
    Words6(m);
    Words7(m);
    Words8(m);
    NextWord(m, 36, 0x3e9d7b78, 0x0183fc00, 0xec8726cb, 0xaff4ffc1, 0x0a8b3996);
    NextWord(m, 37, 0x0183fc00, 0x12dcbfdb, 0x702138a4, 0xf10a5c62, 0x72af830a);
    NextWord(m, 38, 0x12dcbfdb, 0xe2e2c38e, 0xd3b7973b, 0x0a8b3996, 0x9409e33e);
    NextWord(m, 39, 0xe2e2c38e, 0xc8215c1a, 0x93f5997f, 0x72af830a, 0x24641522);
  }

  lemma {:induction false} Words10(m: Block)
    requires IsChunk(m)
    ensures Schedule(m, 40) == 0x9f47bf94 && Schedule(m, 41) == 0xf0a64f5a
    ensures Schedule(m, 42) == 0x3e246a79 && Schedule(m, 43) == 0x27333ba3
  {
    hide Schedule, IsChunk;
    Words6(m);
    Words7(m);
    Words8(m);
    Words9(m);
    NextWord(m, 40, 0xc8215c1a, 0xb73679a2, 0x3b68ba73, 0x9409e33e, 0x9f47bf94);
    NextWord(m, 41, 0xb73679a2, 0xe5bc3909, 0xaff4ffc1, 0x24641522, 0xf0a64f5a);
    NextWord(m, 42, 0xe5bc3909, 0x32663c5b, 0xf10a5c62, 0x9f47bf94, 0x3e246a79);
    NextWord(m, 43, 0x32663c5b, 0x9d209d67, 0x0a8b3996, 0xf0a64f5a, 0x27333ba3);
  }

  lemma {:induction false} Words11(m: Block)
    requires IsChunk(m)
    ensures Schedule(m, 44) == 0x0c4763f2 && Schedule(m, 45) == 0x840abf27
    ensures Schedule(m, 46) == 0x7a290d5d && Schedule(m, 47) == 0x065c43da
  {
    hide Schedule, IsChunk;
    Words7(m);
    Words8(m);
    Words9(m);
    Words10(m);
    NextWord(m, 44, 0x9d209d67, 0xec8726cb, 0x72af830a, 0x3e246a79, 0x0c4763f2);
    NextWord(m, 45, 0xec8726cb, 0x702138a4, 0x9409e33e, 0x27333ba3, 0x840abf27);
    NextWord(m, 46, 0x702138a4, 0xd3b7973b, 0x24641522, 0x0c4763f2, 0x7a290d5d);
    NextWord(m, 47, 0xd3b7973b, 0x93f5997f, 0x9f47bf94, 0x840abf27, 0x065c43da);
  }

  lemma {:induction false} Words12(m: Block)
    requires IsChunk(m)
    ensures Schedule(m, 48) == 0xfb3e89cb && Schedule(m, 49) == 0xcc7617db
    ensures Schedule(m, 50) == 0xb9e66c34 && Schedule(m, 51) == 0xa9993667
  {
    hide Schedule, IsChunk;
    Words8(m);
    Words9(m);
    Words10(m);
    Words11(m);
    NextWord(m, 48, 0x93f5997f, 0x3b68ba73, 0xf0a64f5a, 0x7a290d5d, 0xfb3e89cb);
    NextWord(m, 49, 0x3b68ba73, 0xaff4ffc1, 0x3e246a79, 0x065c43da, 0xcc7617db);
    NextWord(m, 50, 0xaff4ffc1, 0xf10a5c62, 0x27333ba3, 0xfb3e89cb, 0xb9e66c34);
    NextWord(m, 51, 0xf10a5c62, 0x0a8b3996, 0x0c4763f2, 0xcc7617db, 0xa9993667);
  }

  lemma {:induction false} Words13(m: Block)
    requires IsChunk(m)
    ensures Schedule(m, 52) == 0x84badedd && Schedule(m, 53) == 0xc21462bc
    ensures Schedule(m, 54) == 0x1487472c && Schedule(m, 55) == 0xb20f7a99
  {
    hide Schedule, IsChunk;
    Words9(m);
    Words10(m);
    Words11(m);
    Words12(m);
    NextWord(m, 52, 0x0a8b3996, 0x72af830a, 0x840abf27, 0xb9e66c34, 0x84badedd);
    NextWord(m, 53, 0x72af830a, 0x9409e33e, 0x7a290d5d, 0xa9993667, 0xc21462bc);
    NextWord(m, 54, 0x9409e33e, 0x24641522, 0x065c43da, 0x84badedd, 0x1487472c);
    NextWord(m, 55, 0x24641522, 0x9f47bf94, 0xfb3e89cb, 0xc21462bc, 0xb20f7a99);
  }

  lemma {:induction false} Words14(m: Block)
    requires IsChunk(m)
    ensures Schedule(m, 56) == 0xef57b9cd && Schedule(m, 57) == 0xebe6b238
    ensures Schedule(m, 58) == 0x9fe3095e && Schedule(m, 59) == 0x78bc8d4b
  {
    hide Schedule, IsChunk;
    Words10(m);
    Words11(m);
    Words12(m);
    Words13(m);
    NextWord(m, 56, 0x9f47bf94, 0xf0a64f5a, 0xcc7617db, 0x1487472c, 0xef57b9cd);
    NextWord(m, 57, 0xf0a64f5a, 0x3e246a79, 0xb9e66c34, 0xb20f7a99, 0xebe6b238);
    NextWord(m, 58, 0x3e246a79, 0x27333ba3, 0xa9993667, 0xef57b9cd, 0x9fe3095e);
    NextWord(m, 59, 0x27333ba3, 0x0c4763f2, 0x84badedd, 0xebe6b238, 0x78bc8d4b);
  }

  lemma {:induction false} Words15(m: Block)
    requires IsChunk(m)
    ensures Schedule(m, 60) == 0xa43fcf15 && Schedule(m, 61) == 0x668b2ff8
    ensures Schedule(m, 62) == 0xeeaba2cc && Schedule(m, 63) == 0x12b1edeb
  {
    hide Schedule, IsChunk;
    Words11(m);
    Words12(m);
    Words13(m);
    Words14(m);
    NextWord(m, 60, 0x0c4763f2, 0x840abf27, 0xc21462bc, 0x9fe3095e, 0xa43fcf15);
    NextWord(m, 61, 0x840abf27, 0x7a290d5d, 0x1487472c, 0x78bc8d4b, 0x668b2ff8);
    NextWord(m, 62, 0x7a290d5d, 0x065c43da, 0xb20f7a99, 0xa43fcf15, 0xeeaba2cc);
    NextWord(m, 63, 0x065c43da, 0xfb3e89cb, 0xef57b9cd, 0x668b2ff8, 0x12b1edeb);
  }

  lemma {:induction false} Constants0()
    ensures |K| == 64
    ensures K[0] == 0x428a2f98 && K[1] == 0x71374491
    ensures K[2] == 0xb5c0fbcf && K[3] == 0xe9b5dba5
    ensures K[4] == 0x3956c25b && K[5] == 0x59f111f1
    ensures K[6] == 0x923f82a4 && K[7] == 0xab1c5ed5
  {
    RowSizes();
    hide K1, K2, K3, K4, K5, K6, K7;
  }

  lemma {:induction false} Constants1()
    ensures |K| == 64
    ensures K[8] == 0xd807aa98 && K[9] == 0x12835b01
    ensures K[10] == 0x243185be && K[11] == 0x550c7dc3
    ensures K[12] == 0x72be5d74 && K[13] == 0x80deb1fe
    ensures K[14] == 0x9bdc06a7 && K[15] == 0xc19bf174
  {
    RowSizes();
    hide K0, K2, K3, K4, K5, K6, K7;
  }

  lemma {:induction false} Constants2()
    ensures |K| == 64
    ensures K[16] == 0xe49b69c1 && K[17] == 0xefbe4786
    ensures K[18] == 0x0fc19dc6 && K[19] == 0x240ca1cc
    ensures K[20] == 0x2de92c6f && K[21] == 0x4a7484aa
    ensures K[22] == 0x5cb0a9dc && K[23] == 0x76f988da
  {
    RowSizes();
    hide K0, K1, K3, K4, K5, K6, K7;
  }

  lemma {:induction false} Constants3()
    ensures |K| == 64
    ensures K[24] == 0x983e5152 && K[25] == 0xa831c66d
    ensures K[26] == 0xb00327c8 && K[27] == 0xbf597fc7
    ensures K[28] == 0xc6e00bf3 && K[29] == 0xd5a79147
    ensures K[30] == 0x06ca6351 && K[31] == 0x14292967
  {
    RowSizes();
    hide K0, K1, K2, K4, K5, K6, K7;
  }

  lemma {:induction false} Constants4()
    ensures |K| == 64
    ensures K[32] == 0x27b70a85 && K[33] == 0x2e1b2138
    ensures K[34] == 0x4d2c6dfc && K[35] == 0x53380d13
    ensures K[36] == 0x650a7354 && K[37] == 0x766a0abb
    ensures K[38] == 0x81c2c92e && K[39] == 0x92722c85
  {
    RowSizes();
    hide K0, K1, K2, K3, K5, K6, K7;
  }

  lemma {:induction false} Constants5()
    ensures |K| == 64
    ensures K[40] == 0xa2bfe8a1 && K[41] == 0xa81a664b
    ensures K[42] == 0xc24b8b70 && K[43] == 0xc76c51a3
    ensures K[44] == 0xd192e819 && K[45] == 0xd6990624
    ensures K[46] == 0xf40e3585 && K[47] == 0x106aa070
  {
    RowSizes();
    hide K0, K1, K2, K3, K4, K6, K7;
  }

  lemma {:induction false} Constants6()
    ensures |K| == 64
    ensures K[48] == 0x19a4c116 && K[49] == 0x1e376c08
    ensures K[50] == 0x2748774c && K[51] == 0x34b0bcb5
    ensures K[52] == 0x391c0cb3 && K[53] == 0x4ed8aa4a
    ensures K[54] == 0x5b9cca4f && K[55] == 0x682e6ff3
  {
    RowSizes();
    hide K0, K1, K2, K3, K4, K5, K7;
  }

  lemma {:induction false} Constants7()
    ensures |K| == 64
    ensures K[56] == 0x748f82ee && K[57] == 0x78a5636f
    ensures K[58] == 0x84c87814 && K[59] == 0x8cc70208
    ensures K[60] == 0x90befffa && K[61] == 0xa4506ceb
    ensures K[62] == 0xbef9a3f7 && K[63] == 0xc67178f2
  {
    RowSizes();
    hide K0, K1, K2, K3, K4, K5, K6;
  }

  lemma {:induction false} RowSizes()
    ensures |K0| == 8 && |K1| == 8 && |K2| == 8 && |K3| == 8 && |K4| == 8 && |K5| == 8 && |K6| == 8 && |K7| == 8
  {
  }

  lemma {:induction false} Rounds0(m: Block)
    requires IsChunk(m)
    ensures |K| == 64
    ensures Rounds(H0, m, 8) ==
            Variables(0x85a07b5f, 0xe5030380, 0x2b4209f5, 0x04409a6a, 0x0c657a79, 0x9b27a401, 0x714260ad, 0x43ada245)
  {
    hide K, Rounds, Schedule, IsChunk;
    assert Rounds(H0, m, 0) == Start(H0) by {
      NoRounds(m);
    }
    Constants0();
    Words0(m);
    Words1(m);
    NextRound(m, 1, 0x428a2f98, 0x61626380,
      Variables(0x5d6aebcd, 0x6a09e667, 0xbb67ae85, 0x3c6ef372, 0xfa2a4622, 0x510e527f, 0x9b05688c, 0x1f83d9ab));
    NextRound(m, 2, 0x71374491, 0x00000000,
      Variables(0x5a6ad9ad, 0x5d6aebcd, 0x6a09e667, 0xbb67ae85, 0x78ce7989, 0xfa2a4622, 0x510e527f, 0x9b05688c));
    NextRound(m, 3, 0xb5c0fbcf, 0x00000000,
      Variables(0xc8c347a7, 0x5a6ad9ad, 0x5d6aebcd, 0x6a09e667, 0xf92939eb, 0x78ce7989, 0xfa2a4622, 0x510e527f));
    NextRound(m, 4, 0xe9b5dba5, 0x00000000,
      Variables(0xd550f666, 0xc8c347a7, 0x5a6ad9ad, 0x5d6aebcd, 0x24e00850, 0xf92939eb, 0x78ce7989, 0xfa2a4622));
    NextRound(m, 5, 0x3956c25b, 0x00000000,
      Variables(0x04409a6a, 0xd550f666, 0xc8c347a7, 0x5a6ad9ad, 0x43ada245, 0x24e00850, 0xf92939eb, 0x78ce7989));
    NextRound(m, 6, 0x59f111f1, 0x00000000,
      Variables(0x2b4209f5, 0x04409a6a, 0xd550f666, 0xc8c347a7, 0x714260ad, 0x43ada245, 0x24e00850, 0xf92939eb));
    NextRound(m, 7, 0x923f82a4, 0x00000000,
      Variables(0xe5030380, 0x2b4209f5, 0x04409a6a, 0xd550f666, 0x9b27a401, 0x714260ad, 0x43ada245, 0x24e00850));
    NextRound(m, 8, 0xab1c5ed5, 0x00000000,
      Variables(0x85a07b5f, 0xe5030380, 0x2b4209f5, 0x04409a6a, 0x0c657a79, 0x9b27a401, 0x714260ad, 0x43ada245));
  }

  lemma {:induction false} Rounds1(m: Block)
    requires IsChunk(m)
    ensures |K| == 64
    ensures Rounds(H0, m, 16) ==
            Variables(0xb0fa238e, 0xc0645fde, 0xd932eb16, 0x87912990, 0x07590dcd, 0x0b92f20c, 0x745a48de, 0x1e578218)
  {
    hide K, Rounds, Schedule, IsChunk;
    Rounds0(m);
    Constants1();
    Words2(m);
    Words3(m);
    NextRound(m, 9, 0xd807aa98, 0x00000000,
      Variables(0x8e04ecb9, 0x85a07b5f, 0xe5030380, 0x2b4209f5, 0x32ca2d8c, 0x0c657a79, 0x9b27a401, 0x714260ad));
    NextRound(m, 10, 0x12835b01, 0x00000000,
      Variables(0x8c87346b, 0x8e04ecb9, 0x85a07b5f, 0xe5030380, 0x1cc92596, 0x32ca2d8c, 0x0c657a79, 0x9b27a401));
    NextRound(m, 11, 0x243185be, 0x00000000,
      Variables(0x4798a3f4, 0x8c87346b, 0x8e04ecb9, 0x85a07b5f, 0x436b23e8, 0x1cc92596, 0x32ca2d8c, 0x0c657a79));
    NextRound(m, 12, 0x550c7dc3, 0x00000000,
      Variables(0xf71fc5a9, 0x4798a3f4, 0x8c87346b, 0x8e04ecb9, 0x816fd6e9, 0x436b23e8, 0x1cc92596, 0x32ca2d8c));
    NextRound(m, 13, 0x72be5d74, 0x00000000,
      Variables(0x87912990, 0xf71fc5a9, 0x4798a3f4, 0x8c87346b, 0x1e578218, 0x816fd6e9, 0x436b23e8, 0x1cc92596));
    NextRound(m, 14, 0x80deb1fe, 0x00000000,
      Variables(0xd932eb16, 0x87912990, 0xf71fc5a9, 0x4798a3f4, 0x745a48de, 0x1e578218, 0x816fd6e9, 0x436b23e8));
    NextRound(m, 15, 0x9bdc06a7, 0x00000000,
      Variables(0xc0645fde, 0xd932eb16, 0x87912990, 0xf71fc5a9, 0x0b92f20c, 0x745a48de, 0x1e578218, 0x816fd6e9));
    NextRound(m, 16, 0xc19bf174, 0x00000018,
      Variables(0xb0fa238e, 0xc0645fde, 0xd932eb16, 0x87912990, 0x07590dcd, 0x0b92f20c, 0x745a48de, 0x1e578218));
  }

  lemma {:induction false} Rounds2(m: Block)
    requires IsChunk(m)
    ensures |K| == 64
    ensures Rounds(H0, m, 24) ==
            Variables(0xc5d53d8d, 0xa7a3623f, 0xc2606d6d, 0x9dc68b63, 0xaa47c347, 0x49f5114a, 0xe1257970, 0x8ada8930)
  {
    hide K, Rounds, Schedule, IsChunk;
    Rounds1(m);
    Constants2();
    Words4(m);
    Words5(m);
    NextRound(m, 17, 0xe49b69c1, 0x61626380,
      Variables(0x21da9a9b, 0xb0fa238e, 0xc0645fde, 0xd932eb16, 0x8034229c, 0x07590dcd, 0x0b92f20c, 0x745a48de));
    NextRound(m, 18, 0xefbe4786, 0x000f0000,
      Variables(0xc2fbd9d1, 0x21da9a9b, 0xb0fa238e, 0xc0645fde, 0x846ee454, 0x8034229c, 0x07590dcd, 0x0b92f20c));
    NextRound(m, 19, 0x0fc19dc6, 0x7da86405,
      Variables(0xfe777bbf, 0xc2fbd9d1, 0x21da9a9b, 0xb0fa238e, 0xcc899961, 0x846ee454, 0x8034229c, 0x07590dcd));
    NextRound(m, 20, 0x240ca1cc, 0x600003c6,
      Variables(0xe1f20c33, 0xfe777bbf, 0xc2fbd9d1, 0x21da9a9b, 0xb0638179, 0xcc899961, 0x846ee454, 0x8034229c));
    NextRound(m, 21, 0x2de92c6f, 0x3e9d7b78,
      Variables(0x9dc68b63, 0xe1f20c33, 0xfe777bbf, 0xc2fbd9d1, 0x8ada8930, 0xb0638179, 0xcc899961, 0x846ee454));
    NextRound(m, 22, 0x4a7484aa, 0x0183fc00,
      Variables(0xc2606d6d, 0x9dc68b63, 0xe1f20c33, 0xfe777bbf, 0xe1257970, 0x8ada8930, 0xb0638179, 0xcc899961));
    NextRound(m, 23, 0x5cb0a9dc, 0x12dcbfdb,
      Variables(0xa7a3623f, 0xc2606d6d, 0x9dc68b63, 0xe1f20c33, 0x49f5114a, 0xe1257970, 0x8ada8930, 0xb0638179));
    NextRound(m, 24, 0x76f988da, 0xe2e2c38e,
      Variables(0xc5d53d8d, 0xa7a3623f, 0xc2606d6d, 0x9dc68b63, 0xaa47c347, 0x49f5114a, 0xe1257970, 0x8ada8930));
  }

  lemma {:induction false} Rounds3(m: Block)
    requires IsChunk(m)
    ensures |K| == 64
    ensures Rounds(H0, m, 32) ==
            Variables(0x73b33bf5, 0xea992a22, 0xa0060b30, 0x363482c9, 0xba591112, 0x0109ab3a, 0xade79437, 0x6112a3b7)
  {
    hide K, Rounds, Schedule, IsChunk;
    Rounds2(m);
    Constants3();
    Words6(m);
    Words7(m);
    NextRound(m, 25, 0x983e5152, 0xc8215c1a,
      Variables(0x1c2c2838, 0xc5d53d8d, 0xa7a3623f, 0xc2606d6d, 0x2823ef91, 0xaa47c347, 0x49f5114a, 0xe1257970));
    NextRound(m, 26, 0xa831c66d, 0xb73679a2,
      Variables(0xcde8037d, 0x1c2c2838, 0xc5d53d8d, 0xa7a3623f, 0x14383d8e, 0x2823ef91, 0xaa47c347, 0x49f5114a));
    NextRound(m, 27, 0xb00327c8, 0xe5bc3909,
      Variables(0xb62ec4bc, 0xcde8037d, 0x1c2c2838, 0xc5d53d8d, 0xc74c6516, 0x14383d8e, 0x2823ef91, 0xaa47c347));
    NextRound(m, 28, 0xbf597fc7, 0x32663c5b,
      Variables(0x77d37528, 0xb62ec4bc, 0xcde8037d, 0x1c2c2838, 0xedffbff8, 0xc74c6516, 0x14383d8e, 0x2823ef91));
    NextRound(m, 29, 0xc6e00bf3, 0x9d209d67,
      Variables(0x363482c9, 0x77d37528, 0xb62ec4bc, 0xcde8037d, 0x6112a3b7, 0xedffbff8, 0xc74c6516, 0x14383d8e));
    NextRound(m, 30, 0xd5a79147, 0xec8726cb,
      Variables(0xa0060b30, 0x363482c9, 0x77d37528, 0xb62ec4bc, 0xade79437, 0x6112a3b7, 0xedffbff8, 0xc74c6516));
    NextRound(m, 31, 0x06ca6351, 0x702138a4,
      Variables(0xea992a22, 0xa0060b30, 0x363482c9, 0x77d37528, 0x0109ab3a, 0xade79437, 0x6112a3b7, 0xedffbff8));
    NextRound(m, 32, 0x14292967, 0xd3b7973b,
      Variables(0x73b33bf5, 0xea992a22, 0xa0060b30, 0x363482c9, 0xba591112, 0x0109ab3a, 0xade79437, 0x6112a3b7));
  }

  lemma {:induction false} Rounds4(m: Block)
    requires IsChunk(m)
    ensures |K| == 64
    ensures Rounds(H0, m, 40) ==
            Variables(0x79ea687a, 0x6dc57a8a, 0x34df1604, 0x41a65cb1, 0x1efbc0a0, 0xf0781bc8, 0xa507a53d, 0x0772a26b)
  {
    hide K, Rounds, Schedule, IsChunk;
    Rounds3(m);
    Constants4();
    Words8(m);
    Words9(m);
    NextRound(m, 33, 0x27b70a85, 0x93f5997f,
      Variables(0x98e12507, 0x73b33bf5, 0xea992a22, 0xa0060b30, 0x9cd9f5f6, 0xba591112, 0x0109ab3a, 0xade79437));
    NextRound(m, 34, 0x2e1b2138, 0x3b68ba73,
      Variables(0xfe604df5, 0x98e12507, 0x73b33bf5, 0xea992a22, 0x59249dd3, 0x9cd9f5f6, 0xba591112, 0x0109ab3a));
    NextRound(m, 35, 0x4d2c6dfc, 0xaff4ffc1,
      Variables(0xa9a7738c, 0xfe604df5, 0x98e12507, 0x73b33bf5, 0x085f3833, 0x59249dd3, 0x9cd9f5f6, 0xba591112));
    NextRound(m, 36, 0x53380d13, 0xf10a5c62,
      Variables(0x65a0cfe4, 0xa9a7738c, 0xfe604df5, 0x98e12507, 0xf4b002d6, 0x085f3833, 0x59249dd3, 0x9cd9f5f6));
    NextRound(m, 37, 0x650a7354, 0x0a8b3996,
      Variables(0x41a65cb1, 0x65a0cfe4, 0xa9a7738c, 0xfe604df5, 0x0772a26b, 0xf4b002d6, 0x085f3833, 0x59249dd3));
    NextRound(m, 38, 0x766a0abb, 0x72af830a,
      Variables(0x34df1604, 0x41a65cb1, 0x65a0cfe4, 0xa9a7738c, 0xa507a53d, 0x0772a26b, 0xf4b002d6, 0x085f3833));
    NextRound(m, 39, 0x81c2c92e, 0x9409e33e,
      Variables(0x6dc57a8a, 0x34df1604, 0x41a65cb1, 0x65a0cfe4, 0xf0781bc8, 0xa507a53d, 0x0772a26b, 0xf4b002d6));
    NextRound(m, 40, 0x92722c85, 0x24641522,
      Variables(0x79ea687a, 0x6dc57a8a, 0x34df1604, 0x41a65cb1, 0x1efbc0a0, 0xf0781bc8, 0xa507a53d, 0x0772a26b));
  }

  lemma {:induction false} Rounds5(m: Block)
    requires IsChunk(m)
    ensures |K| == 64
    ensures Rounds(H0, m, 48) ==
            Variables(0x4172328d, 0xa14c14b0, 0x72ab4b91, 0x26628815, 0xfecf0bc6, 0xd57b94a9, 0xb7755da1, 0xa80f11f0)
  {
    hide K, Rounds, Schedule, IsChunk;
    Rounds4(m);
    Constants5();
    Words10(m);
    Words11(m);
    NextRound(m, 41, 0xa2bfe8a1, 0x9f47bf94,
      Variables(0xd6670766, 0x79ea687a, 0x6dc57a8a, 0x34df1604, 0x26352d63, 0x1efbc0a0, 0xf0781bc8, 0xa507a53d));
    NextRound(m, 42, 0xa81a664b, 0xf0a64f5a,
      Variables(0xdf46652f, 0xd6670766, 0x79ea687a, 0x6dc57a8a, 0x838b2711, 0x26352d63, 0x1efbc0a0, 0xf0781bc8));
    NextRound(m, 43, 0xc24b8b70, 0x3e246a79,
      Variables(0x17aa0dfe, 0xdf46652f, 0xd6670766, 0x79ea687a, 0xdecd4715, 0x838b2711, 0x26352d63, 0x1efbc0a0));
    NextRound(m, 44, 0xc76c51a3, 0x27333ba3,
      Variables(0x9d4baf93, 0x17aa0dfe, 0xdf46652f, 0xd6670766, 0xfda24c2e, 0xdecd4715, 0x838b2711, 0x26352d63));
    NextRound(m, 45, 0xd192e819, 0x0c4763f2,
      Variables(0x26628815, 0x9d4baf93, 0x17aa0dfe, 0xdf46652f, 0xa80f11f0, 0xfda24c2e, 0xdecd4715, 0x838b2711));
    NextRound(m, 46, 0xd6990624, 0x840abf27,
      Variables(0x72ab4b91, 0x26628815, 0x9d4baf93, 0x17aa0dfe, 0xb7755da1, 0xa80f11f0, 0xfda24c2e, 0xdecd4715));
    NextRound(m, 47, 0xf40e3585, 0x7a290d5d,
      Variables(0xa14c14b0, 0x72ab4b91, 0x26628815, 0x9d4baf93, 0xd57b94a9, 0xb7755da1, 0xa80f11f0, 0xfda24c2e));
    NextRound(m, 48, 0x106aa070, 0x065c43da,
      Variables(0x4172328d, 0xa14c14b0, 0x72ab4b91, 0x26628815, 0xfecf0bc6, 0xd57b94a9, 0xb7755da1, 0xa80f11f0));
  }

  lemma {:induction false} Rounds6(m: Block)
    requires IsChunk(m)
    ensures |K| == 64
    ensures Rounds(H0, m, 56) ==
            Variables(0x38cc9913, 0x3ec45cdb, 0xf5702fdb, 0x101fd28f, 0x54cb266b, 0xe50e1b4f, 0x9f4787c3, 0x529e7d00)
  {
    hide K, Rounds, Schedule, IsChunk;
    Rounds5(m);
    Constants6();
    Words12(m);
    Words13(m);
    NextRound(m, 49, 0x19a4c116, 0xfb3e89cb,
      Variables(0x05757ceb, 0x4172328d, 0xa14c14b0, 0x72ab4b91, 0xbd714038, 0xfecf0bc6, 0xd57b94a9, 0xb7755da1));
    NextRound(m, 50, 0x1e376c08, 0xcc7617db,
      Variables(0xf11bfaa8, 0x05757ceb, 0x4172328d, 0xa14c14b0, 0x6e5c390c, 0xbd714038, 0xfecf0bc6, 0xd57b94a9));
    NextRound(m, 51, 0x2748774c, 0xb9e66c34,
      Variables(0x7a0508a1, 0xf11bfaa8, 0x05757ceb, 0x4172328d, 0x52f1ccf7, 0x6e5c390c, 0xbd714038, 0xfecf0bc6));
    NextRound(m, 52, 0x34b0bcb5, 0xa9993667,
      Variables(0x886e7a22, 0x7a0508a1, 0xf11bfaa8, 0x05757ceb, 0x49231c1e, 0x52f1ccf7, 0x6e5c390c, 0xbd714038));
    NextRound(m, 53, 0x391c0cb3, 0x84badedd,
      Variables(0x101fd28f, 0x886e7a22, 0x7a0508a1, 0xf11bfaa8, 0x529e7d00, 0x49231c1e, 0x52f1ccf7, 0x6e5c390c));
    NextRound(m, 54, 0x4ed8aa4a, 0xc21462bc,
      Variables(0xf5702fdb, 0x101fd28f, 0x886e7a22, 0x7a0508a1, 0x9f4787c3, 0x529e7d00, 0x49231c1e, 0x52f1ccf7));
    NextRound(m, 55, 0x5b9cca4f, 0x1487472c,
      Variables(0x3ec45cdb, 0xf5702fdb, 0x101fd28f, 0x886e7a22, 0xe50e1b4f, 0x9f4787c3, 0x529e7d00, 0x49231c1e));
    NextRound(m, 56, 0x682e6ff3, 0xb20f7a99,
      Variables(0x38cc9913, 0x3ec45cdb, 0xf5702fdb, 0x101fd28f, 0x54cb266b, 0xe50e1b4f, 0x9f4787c3, 0x529e7d00));
  }

  lemma {:induction false} Rounds7(m: Block)
    requires IsChunk(m)
    ensures |K| == 64
    ensures Rounds(H0, m, 64) ==
            Variables(0x506e3058, 0xd39a2165, 0x04d24d6c, 0xb85e2ce9, 0x5ef50f24, 0xfb121210, 0x948d25b6, 0x961f4894)
  {
    hide K, Rounds, Schedule, IsChunk;
    Rounds6(m);
    Constants7();
    Words14(m);
    Words15(m);
    NextRound(m, 57, 0x748f82ee, 0xef57b9cd,
      Variables(0xfcd1887b, 0x38cc9913, 0x3ec45cdb, 0xf5702fdb, 0x9b5e906c, 0x54cb266b, 0xe50e1b4f, 0x9f4787c3));
    NextRound(m, 58, 0x78a5636f, 0xebe6b238,
      Variables(0xc062d46f, 0xfcd1887b, 0x38cc9913, 0x3ec45cdb, 0x7e44008e, 0x9b5e906c, 0x54cb266b, 0xe50e1b4f));
    NextRound(m, 59, 0x84c87814, 0x9fe3095e,
      Variables(0xffb70472, 0xc062d46f, 0xfcd1887b, 0x38cc9913, 0x6d83bfc6, 0x7e44008e, 0x9b5e906c, 0x54cb266b));
    NextRound(m, 60, 0x8cc70208, 0x78bc8d4b,
      Variables(0xb6ae8fff, 0xffb70472, 0xc062d46f, 0xfcd1887b, 0xb21bad3d, 0x6d83bfc6, 0x7e44008e, 0x9b5e906c));
    NextRound(m, 61, 0x90befffa, 0xa43fcf15,
      Variables(0xb85e2ce9, 0xb6ae8fff, 0xffb70472, 0xc062d46f, 0x961f4894, 0xb21bad3d, 0x6d83bfc6, 0x7e44008e));
    NextRound(m, 62, 0xa4506ceb, 0x668b2ff8,
      Variables(0x04d24d6c, 0xb85e2ce9, 0xb6ae8fff, 0xffb70472, 0x948d25b6, 0x961f4894, 0xb21bad3d, 0x6d83bfc6));
    NextRound(m, 63, 0xbef9a3f7, 0xeeaba2cc,
      Variables(0xd39a2165, 0x04d24d6c, 0xb85e2ce9, 0xb6ae8fff, 0xfb121210, 0x948d25b6, 0x961f4894, 0xb21bad3d));
    NextRound(m, 64, 0xc67178f2, 0x12b1edeb,
      Variables(0x506e3058, 0xd39a2165, 0x04d24d6c, 0xb85e2ce9, 0x5ef50f24, 0xfb121210, 0x948d25b6, 0x961f4894));
  }

  lemma {:induction false} NoRounds(m: Block)
    ensures Rounds(H0, m, 0) == Start(H0)
  {
  }

  lemma {:induction false} PaddedMessage()
    ensures Padded(Message()) == Message() + [0x80] + seq(52, _ => 0) + [0, 0, 0, 0, 0, 0, 0, 0x18]
  {
    hide BigEndian;
    LengthBytes();
  }

  lemma {:induction false} LengthBytes()
    ensures BigEndian(24, 8) == [0, 0, 0, 0, 0, 0, 0, 0x18]
  {
  }

  lemma {:induction false} MessageIsChunk(p: seq<byte>)
    requires p == Padded(Message())
    ensures |p| == 64 && IsChunk(BlockAt(p, 0))
  {
    hide Padded, WordOf;
    PaddedMessage();
    WordValues();
  }

  lemma {:induction false} WordValues()
    ensures WordOf(0x61, 0x62, 0x63, 0x80) == 0x61626380
    ensures WordOf(0, 0, 0, 0) == 0 && WordOf(0, 0, 0, 0x18) == 0x18
  {
  }

  lemma {:induction false} HashOfMessage(p: seq<byte>)
    requires p == Padded(Message())
    ensures |p| == 64 && HashUpTo(p, 64) ==
            [0xba7816bf, 0x8f01cfea, 0x414140de, 0x5dae2223, 0xb00361a3, 0x96177a9c, 0xb410ff61, 0xf20015ad]
  {
    hide Rounds, BlockAt, Padded, Message;
    MessageIsChunk(p);
    Rounds7(BlockAt(p, 0));
    assert HashUpTo(p, 0) == H0;
  }

  lemma {:induction false} Digits0()
    ensures Hex(0xba78, 4) + Hex(0x16bf, 4) == "ba7816bf"
  {
  }

  lemma {:induction false} Digits1()
    ensures Hex(0x8f01, 4) + Hex(0xcfea, 4) == "8f01cfea"
  {
  }

  lemma {:induction false} Digits2()
    ensures Hex(0x4141, 4) + Hex(0x40de, 4) == "414140de"
  {
  }

  lemma {:induction false} Digits3()
    ensures Hex(0x5dae, 4) + Hex(0x2223, 4) == "5dae2223"
  {
  }

  lemma {:induction false} Digits4()
    ensures Hex(0xb003, 4) + Hex(0x61a3, 4) == "b00361a3"
  {
  }

  lemma {:induction false} Digits5()
    ensures Hex(0x9617, 4) + Hex(0x7a9c, 4) == "96177a9c"
  {
  }

  lemma {:induction false} Digits6()
    ensures Hex(0xb410, 4) + Hex(0xff61, 4) == "b410ff61"
  {
  }

  lemma {:induction false} Digits7()
    ensures Hex(0xf200, 4) + Hex(0x15ad, 4) == "f20015ad"
  {
  }

  lemma {:induction false} HexHalves(high: nat, low: nat)
    requires low < 0x10000
    ensures Hex(high * 0x10000 + low, 8) == Hex(high, 4) + Hex(low, 4)
  {
    hide Hex, HexDigit;
    LowDigit(high * 0x1000, low, 7, 3);
    LowDigit(high * 0x100, low / 16, 6, 2);
    LowDigit(high * 0x10, low / 16 / 16, 5, 1);
    LowDigit(high, low / 16 / 16 / 16, 4, 0);
  }

  lemma {:induction false} LowDigit(high: nat, low: nat, wide: nat, narrow: nat)
    ensures Hex(16 * high + low, wide + 1) == Hex(high + low / 16, wide) + [HexDigit(low % 16)]
    ensures Hex(low, narrow + 1) == Hex(low / 16, narrow) + [HexDigit(low % 16)]
  {
    hide HexDigit;
    QuotientUnique(16 * high + low, 16, high + low / 16, low % 16);
  }

  lemma {:induction false} OneMoreWord(h: seq<Word>, w: Word)
    ensures HexWords(h + [w]) == HexWords(h) + Hex(w as int, 8)
  {
    hide Hex;
    if h == [] {
      assert h + [w] == [w] && HexWords([w]) == Hex(w as int, 8) + HexWords([]);
    } else {
      assert (h + [w])[1..] == h[1..] + [w];
      OneMoreWord(h[1..], w);
    }
  }

  lemma {:induction false} DigitsOfWord(h: seq<Word>, i: nat, high: nat, low: nat, text: string)
    requires i < |h| && low < 0x10000 && h[i] as int == high * 0x10000 + low
    requires Hex(high, 4) + Hex(low, 4) == text
    ensures HexWords(h[..i + 1]) == HexWords(h[..i]) + text
  {
    hide Hex, HexWords;
    HexHalves(high, low);
    OneMoreWord(h[..i], h[i]);
    assert h[..i + 1] == h[..i] + [h[i]];
  }

  /** The program's own first example. */
  lemma {:induction false} DigestOfAbc()
    ensures Digest([0x61, 0x62, 0x63]) ==
            "ba7816bf" + "8f01cfea" + "414140de" + "5dae2223" +
            "b00361a3" + "96177a9c" + "b410ff61" + "f20015ad"
  {
    hide Padded, HashUpTo, HexWords, Hex;
    var data := [0x61, 0x62, 0x63];
    assert data == Message();
    HashOfMessage(Padded(data));
    HexOfHash();
  }

  lemma {:induction false} HexOfHash()
    ensures HexWords(
              [0xba7816bf, 0x8f01cfea, 0x414140de, 0x5dae2223, 0xb00361a3, 0x96177a9c, 0xb410ff61, 0xf20015ad]) ==
            "ba7816bf" + "8f01cfea" + "414140de" + "5dae2223" +
            "b00361a3" + "96177a9c" + "b410ff61" + "f20015ad"
  {
    hide HexWords, Hex;
    var h: Hash := [0xba7816bf, 0x8f01cfea, 0x414140de, 0x5dae2223, 0xb00361a3, 0x96177a9c, 0xb410ff61, 0xf20015ad];
    Digits0();
    DigitsOfWord(h, 0, 0xba78, 0x16bf, "ba7816bf");
    Digits1();
    DigitsOfWord(h, 1, 0x8f01, 0xcfea, "8f01cfea");
    Digits2();
    DigitsOfWord(h, 2, 0x4141, 0x40de, "414140de");
    Digits3();
    DigitsOfWord(h, 3, 0x5dae, 0x2223, "5dae2223");
    Digits4();
    DigitsOfWord(h, 4, 0xb003, 0x61a3, "b00361a3");
    Digits5();
    DigitsOfWord(h, 5, 0x9617, 0x7a9c, "96177a9c");
    Digits6();
    DigitsOfWord(h, 6, 0xb410, 0xff61, "b410ff61");
    Digits7();
    DigitsOfWord(h, 7, 0xf200, 0x15ad, "f20015ad");
    assert h[..0] == [] && h[..8] == h;
    assert HexWords(h[..1]) == "ba7816bf";
  }
}
