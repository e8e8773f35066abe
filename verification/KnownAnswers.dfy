/** Known answers: the digest of "abc" that FIPS 180-4 gives as an example, and one identity stream written out. */
module KnownAnswers {

  import opened Octets
  import opened Decimals
  import opened Sorting
  import opened Sha256
  import opened Identity

  // ---------------------------------------------------------------- the message schedule of "abc", row by row

  ghost predicate Row0(b: seq<byte>) {
    |b| == 64
    && W(b, 0) == 0x61626380 && W(b, 1) == 0x00000000 && W(b, 2) == 0x00000000 && W(b, 3) == 0x00000000
    && W(b, 4) == 0x00000000 && W(b, 5) == 0x00000000 && W(b, 6) == 0x00000000 && W(b, 7) == 0x00000000
  }

  ghost predicate Row1(b: seq<byte>) {
    |b| == 64
    && W(b, 8) == 0x00000000 && W(b, 9) == 0x00000000 && W(b, 10) == 0x00000000 && W(b, 11) == 0x00000000
    && W(b, 12) == 0x00000000 && W(b, 13) == 0x00000000 && W(b, 14) == 0x00000000 && W(b, 15) == 0x00000018
  }

  ghost predicate Row2(b: seq<byte>) {
    |b| == 64
    && W(b, 16) == 0x61626380 && W(b, 17) == 0x000f0000 && W(b, 18) == 0x7da86405 && W(b, 19) == 0x600003c6
    && W(b, 20) == 0x3e9d7b78 && W(b, 21) == 0x0183fc00 && W(b, 22) == 0x12dcbfdb && W(b, 23) == 0xe2e2c38e
  }

  ghost predicate Row3(b: seq<byte>) {
    |b| == 64
    && W(b, 24) == 0xc8215c1a && W(b, 25) == 0xb73679a2 && W(b, 26) == 0xe5bc3909 && W(b, 27) == 0x32663c5b
    && W(b, 28) == 0x9d209d67 && W(b, 29) == 0xec8726cb && W(b, 30) == 0x702138a4 && W(b, 31) == 0xd3b7973b
  }

  ghost predicate Row4(b: seq<byte>) {
    |b| == 64
    && W(b, 32) == 0x93f5997f && W(b, 33) == 0x3b68ba73 && W(b, 34) == 0xaff4ffc1 && W(b, 35) == 0xf10a5c62
    && W(b, 36) == 0x0a8b3996 && W(b, 37) == 0x72af830a && W(b, 38) == 0x9409e33e && W(b, 39) == 0x24641522
  }

  ghost predicate Row5(b: seq<byte>) {
    |b| == 64
    && W(b, 40) == 0x9f47bf94 && W(b, 41) == 0xf0a64f5a && W(b, 42) == 0x3e246a79 && W(b, 43) == 0x27333ba3
    && W(b, 44) == 0x0c4763f2 && W(b, 45) == 0x840abf27 && W(b, 46) == 0x7a290d5d && W(b, 47) == 0x065c43da
  }

  ghost predicate Row6(b: seq<byte>) {
    |b| == 64
    && W(b, 48) == 0xfb3e89cb && W(b, 49) == 0xcc7617db && W(b, 50) == 0xb9e66c34 && W(b, 51) == 0xa9993667
    && W(b, 52) == 0x84badedd && W(b, 53) == 0xc21462bc && W(b, 54) == 0x1487472c && W(b, 55) == 0xb20f7a99
  }

  ghost predicate Row7(b: seq<byte>) {
    |b| == 64
    && W(b, 56) == 0xef57b9cd && W(b, 57) == 0xebe6b238 && W(b, 58) == 0x9fe3095e && W(b, 59) == 0x78bc8d4b
    && W(b, 60) == 0xa43fcf15 && W(b, 61) == 0x668b2ff8 && W(b, 62) == 0xeeaba2cc && W(b, 63) == 0x12b1edeb
  }

  lemma Words2(b: seq<byte>)
    requires Row0(b) && Row1(b)
    ensures Row2(b)
  {
    assert W(b, 16) == 0x61626380;
    assert W(b, 17) == 0x000f0000;
    assert W(b, 18) == 0x7da86405;
    assert W(b, 19) == 0x600003c6;
    assert W(b, 20) == 0x3e9d7b78;
    assert W(b, 21) == 0x0183fc00;
    assert W(b, 22) == 0x12dcbfdb;
    assert W(b, 23) == 0xe2e2c38e;
  }

  lemma Words3(b: seq<byte>)
    requires Row1(b) && Row2(b)
    ensures Row3(b)
  {
    assert W(b, 24) == 0xc8215c1a;
    assert W(b, 25) == 0xb73679a2;
    assert W(b, 26) == 0xe5bc3909;
    assert W(b, 27) == 0x32663c5b;
    assert W(b, 28) == 0x9d209d67;
    assert W(b, 29) == 0xec8726cb;
    assert W(b, 30) == 0x702138a4;
    assert W(b, 31) == 0xd3b7973b;
  }

  lemma Words4(b: seq<byte>)
    requires Row2(b) && Row3(b)
    ensures Row4(b)
  {
    assert W(b, 32) == 0x93f5997f;
    assert W(b, 33) == 0x3b68ba73;
    assert W(b, 34) == 0xaff4ffc1;
    assert W(b, 35) == 0xf10a5c62;
    assert W(b, 36) == 0x0a8b3996;
    assert W(b, 37) == 0x72af830a;
    assert W(b, 38) == 0x9409e33e;
    assert W(b, 39) == 0x24641522;
  }

  lemma Words5(b: seq<byte>)
    requires Row3(b) && Row4(b)
    ensures Row5(b)
  {
    assert W(b, 40) == 0x9f47bf94;
    assert W(b, 41) == 0xf0a64f5a;
    assert W(b, 42) == 0x3e246a79;
    assert W(b, 43) == 0x27333ba3;
    assert W(b, 44) == 0x0c4763f2;
    assert W(b, 45) == 0x840abf27;
    assert W(b, 46) == 0x7a290d5d;
    assert W(b, 47) == 0x065c43da;
  }

  lemma Words6(b: seq<byte>)
    requires Row4(b) && Row5(b)
    ensures Row6(b)
  {
    assert W(b, 48) == 0xfb3e89cb;
    assert W(b, 49) == 0xcc7617db;
    assert W(b, 50) == 0xb9e66c34;
    assert W(b, 51) == 0xa9993667;
    assert W(b, 52) == 0x84badedd;
    assert W(b, 53) == 0xc21462bc;
    assert W(b, 54) == 0x1487472c;
    assert W(b, 55) == 0xb20f7a99;
  }

  lemma Words7(b: seq<byte>)
    requires Row5(b) && Row6(b)
    ensures Row7(b)
  {
    assert W(b, 56) == 0xef57b9cd;
    assert W(b, 57) == 0xebe6b238;
    assert W(b, 58) == 0x9fe3095e;
    assert W(b, 59) == 0x78bc8d4b;
    assert W(b, 60) == 0xa43fcf15;
    assert W(b, 61) == 0x668b2ff8;
    assert W(b, 62) == 0xeeaba2cc;
    assert W(b, 63) == 0x12b1edeb;
  }

  // ---------------------------------------------------------------- the working variables, round by round

  const VARIABLES0: Registers := Registers(0x6a09e667, 0xbb67ae85, 0x3c6ef372, 0xa54ff53a,
    0x510e527f, 0x9b05688c, 0x1f83d9ab, 0x5be0cd19)
  const VARIABLES8: Registers := Registers(0x85a07b5f, 0xe5030380, 0x2b4209f5, 0x04409a6a,
    0x0c657a79, 0x9b27a401, 0x714260ad, 0x43ada245)
  const VARIABLES16: Registers := Registers(0xb0fa238e, 0xc0645fde, 0xd932eb16, 0x87912990,
    0x07590dcd, 0x0b92f20c, 0x745a48de, 0x1e578218)
  const VARIABLES24: Registers := Registers(0xc5d53d8d, 0xa7a3623f, 0xc2606d6d, 0x9dc68b63,
    0xaa47c347, 0x49f5114a, 0xe1257970, 0x8ada8930)
  const VARIABLES32: Registers := Registers(0x73b33bf5, 0xea992a22, 0xa0060b30, 0x363482c9,
    0xba591112, 0x0109ab3a, 0xade79437, 0x6112a3b7)
  const VARIABLES40: Registers := Registers(0x79ea687a, 0x6dc57a8a, 0x34df1604, 0x41a65cb1,
    0x1efbc0a0, 0xf0781bc8, 0xa507a53d, 0x0772a26b)
  const VARIABLES48: Registers := Registers(0x4172328d, 0xa14c14b0, 0x72ab4b91, 0x26628815,
    0xfecf0bc6, 0xd57b94a9, 0xb7755da1, 0xa80f11f0)
  const VARIABLES56: Registers := Registers(0x38cc9913, 0x3ec45cdb, 0xf5702fdb, 0x101fd28f,
    0x54cb266b, 0xe50e1b4f, 0x9f4787c3, 0x529e7d00)
  const VARIABLES64: Registers := Registers(0x506e3058, 0xd39a2165, 0x04d24d6c, 0xb85e2ce9,
    0x5ef50f24, 0xfb121210, 0x948d25b6, 0x961f4894)

  /** The variables move on by one place; only a and e are new. */
  function Shifted(r: Registers, a: Word, e: Word): Registers {
    Registers(a, r.a, r.b, r.c, e, r.e, r.f, r.g)
  }

  /** One round, from values that are known. */
  lemma NextRound(b: seq<byte>, t: nat, k: Word, w: Word, before: Registers, after: Registers)
    requires |b| == 64 && t < 64 && Rounds(INITIAL, b, t) == before && K[t] == k && W(b, t) == w
    requires Round(before, k, w) == after
    ensures Rounds(INITIAL, b, t + 1) == after
  {
    hide W; hide Round; hide K;
  }

  lemma Rounds0(b: seq<byte>)
    requires Row0(b) && Rounds(INITIAL, b, 0) == VARIABLES0
    ensures Rounds(INITIAL, b, 8) == VARIABLES8
  {
    hide W; hide Rounds;
    assert K[0] == 0x428a2f98 && K[1] == 0x71374491 && K[2] == 0xb5c0fbcf && K[3] == 0xe9b5dba5;
    assert K[4] == 0x3956c25b && K[5] == 0x59f111f1 && K[6] == 0x923f82a4 && K[7] == 0xab1c5ed5;
    hide K;
    var r0 := VARIABLES0;
    var r1 := Shifted(r0, 0x5d6aebcd, 0xfa2a4622); NextRound(b, 0, 0x428a2f98, 0x61626380, r0, r1);
    var r2 := Shifted(r1, 0x5a6ad9ad, 0x78ce7989); NextRound(b, 1, 0x71374491, 0x00000000, r1, r2);
    var r3 := Shifted(r2, 0xc8c347a7, 0xf92939eb); NextRound(b, 2, 0xb5c0fbcf, 0x00000000, r2, r3);
    var r4 := Shifted(r3, 0xd550f666, 0x24e00850); NextRound(b, 3, 0xe9b5dba5, 0x00000000, r3, r4);
    var r5 := Shifted(r4, 0x04409a6a, 0x43ada245); NextRound(b, 4, 0x3956c25b, 0x00000000, r4, r5);
    var r6 := Shifted(r5, 0x2b4209f5, 0x714260ad); NextRound(b, 5, 0x59f111f1, 0x00000000, r5, r6);
    var r7 := Shifted(r6, 0xe5030380, 0x9b27a401); NextRound(b, 6, 0x923f82a4, 0x00000000, r6, r7);
    var r8 := Shifted(r7, 0x85a07b5f, 0x0c657a79); NextRound(b, 7, 0xab1c5ed5, 0x00000000, r7, r8);
  }

  lemma Rounds8(b: seq<byte>)
    requires Row1(b) && Rounds(INITIAL, b, 8) == VARIABLES8
    ensures Rounds(INITIAL, b, 16) == VARIABLES16
  {
    hide W; hide Rounds;
    assert K[8] == 0xd807aa98 && K[9] == 0x12835b01 && K[10] == 0x243185be && K[11] == 0x550c7dc3;
    assert K[12] == 0x72be5d74 && K[13] == 0x80deb1fe && K[14] == 0x9bdc06a7 && K[15] == 0xc19bf174;
    hide K;
    var r8 := VARIABLES8;
    var r9 := Shifted(r8, 0x8e04ecb9, 0x32ca2d8c); NextRound(b, 8, 0xd807aa98, 0x00000000, r8, r9);
    var r10 := Shifted(r9, 0x8c87346b, 0x1cc92596); NextRound(b, 9, 0x12835b01, 0x00000000, r9, r10);
    var r11 := Shifted(r10, 0x4798a3f4, 0x436b23e8); NextRound(b, 10, 0x243185be, 0x00000000, r10, r11);
    var r12 := Shifted(r11, 0xf71fc5a9, 0x816fd6e9); NextRound(b, 11, 0x550c7dc3, 0x00000000, r11, r12);
    var r13 := Shifted(r12, 0x87912990, 0x1e578218); NextRound(b, 12, 0x72be5d74, 0x00000000, r12, r13);
    var r14 := Shifted(r13, 0xd932eb16, 0x745a48de); NextRound(b, 13, 0x80deb1fe, 0x00000000, r13, r14);
    var r15 := Shifted(r14, 0xc0645fde, 0x0b92f20c); NextRound(b, 14, 0x9bdc06a7, 0x00000000, r14, r15);
    var r16 := Shifted(r15, 0xb0fa238e, 0x07590dcd); NextRound(b, 15, 0xc19bf174, 0x00000018, r15, r16);
  }

  lemma Rounds16(b: seq<byte>)
    requires Row2(b) && Rounds(INITIAL, b, 16) == VARIABLES16
    ensures Rounds(INITIAL, b, 24) == VARIABLES24
  {
    hide W; hide Rounds;
    assert K[16] == 0xe49b69c1 && K[17] == 0xefbe4786 && K[18] == 0x0fc19dc6 && K[19] == 0x240ca1cc;
    assert K[20] == 0x2de92c6f && K[21] == 0x4a7484aa && K[22] == 0x5cb0a9dc && K[23] == 0x76f988da;
    hide K;
    var r16 := VARIABLES16;
    var r17 := Shifted(r16, 0x21da9a9b, 0x8034229c); NextRound(b, 16, 0xe49b69c1, 0x61626380, r16, r17);
    var r18 := Shifted(r17, 0xc2fbd9d1, 0x846ee454); NextRound(b, 17, 0xefbe4786, 0x000f0000, r17, r18);
    var r19 := Shifted(r18, 0xfe777bbf, 0xcc899961); NextRound(b, 18, 0x0fc19dc6, 0x7da86405, r18, r19);
    var r20 := Shifted(r19, 0xe1f20c33, 0xb0638179); NextRound(b, 19, 0x240ca1cc, 0x600003c6, r19, r20);
    var r21 := Shifted(r20, 0x9dc68b63, 0x8ada8930); NextRound(b, 20, 0x2de92c6f, 0x3e9d7b78, r20, r21);
    var r22 := Shifted(r21, 0xc2606d6d, 0xe1257970); NextRound(b, 21, 0x4a7484aa, 0x0183fc00, r21, r22);
    var r23 := Shifted(r22, 0xa7a3623f, 0x49f5114a); NextRound(b, 22, 0x5cb0a9dc, 0x12dcbfdb, r22, r23);
    var r24 := Shifted(r23, 0xc5d53d8d, 0xaa47c347); NextRound(b, 23, 0x76f988da, 0xe2e2c38e, r23, r24);
  }

  lemma Rounds24(b: seq<byte>)
    requires Row3(b) && Rounds(INITIAL, b, 24) == VARIABLES24
    ensures Rounds(INITIAL, b, 32) == VARIABLES32
  {
    hide W; hide Rounds;
    assert K[24] == 0x983e5152 && K[25] == 0xa831c66d && K[26] == 0xb00327c8 && K[27] == 0xbf597fc7;
    assert K[28] == 0xc6e00bf3 && K[29] == 0xd5a79147 && K[30] == 0x06ca6351 && K[31] == 0x14292967;
    hide K;
    var r24 := VARIABLES24;
    var r25 := Shifted(r24, 0x1c2c2838, 0x2823ef91); NextRound(b, 24, 0x983e5152, 0xc8215c1a, r24, r25);
    var r26 := Shifted(r25, 0xcde8037d, 0x14383d8e); NextRound(b, 25, 0xa831c66d, 0xb73679a2, r25, r26);
    var r27 := Shifted(r26, 0xb62ec4bc, 0xc74c6516); NextRound(b, 26, 0xb00327c8, 0xe5bc3909, r26, r27);
    var r28 := Shifted(r27, 0x77d37528, 0xedffbff8); NextRound(b, 27, 0xbf597fc7, 0x32663c5b, r27, r28);
    var r29 := Shifted(r28, 0x363482c9, 0x6112a3b7); NextRound(b, 28, 0xc6e00bf3, 0x9d209d67, r28, r29);
    var r30 := Shifted(r29, 0xa0060b30, 0xade79437); NextRound(b, 29, 0xd5a79147, 0xec8726cb, r29, r30);
    var r31 := Shifted(r30, 0xea992a22, 0x0109ab3a); NextRound(b, 30, 0x06ca6351, 0x702138a4, r30, r31);
    var r32 := Shifted(r31, 0x73b33bf5, 0xba591112); NextRound(b, 31, 0x14292967, 0xd3b7973b, r31, r32);
  }

  lemma Rounds32(b: seq<byte>)
    requires Row4(b) && Rounds(INITIAL, b, 32) == VARIABLES32
    ensures Rounds(INITIAL, b, 40) == VARIABLES40
  {
    hide W; hide Rounds;
    assert K[32] == 0x27b70a85 && K[33] == 0x2e1b2138 && K[34] == 0x4d2c6dfc && K[35] == 0x53380d13;
    assert K[36] == 0x650a7354 && K[37] == 0x766a0abb && K[38] == 0x81c2c92e && K[39] == 0x92722c85;
    hide K;
    var r32 := VARIABLES32;
    var r33 := Shifted(r32, 0x98e12507, 0x9cd9f5f6); NextRound(b, 32, 0x27b70a85, 0x93f5997f, r32, r33);
    var r34 := Shifted(r33, 0xfe604df5, 0x59249dd3); NextRound(b, 33, 0x2e1b2138, 0x3b68ba73, r33, r34);
    var r35 := Shifted(r34, 0xa9a7738c, 0x085f3833); NextRound(b, 34, 0x4d2c6dfc, 0xaff4ffc1, r34, r35);
    var r36 := Shifted(r35, 0x65a0cfe4, 0xf4b002d6); NextRound(b, 35, 0x53380d13, 0xf10a5c62, r35, r36);
    var r37 := Shifted(r36, 0x41a65cb1, 0x0772a26b); NextRound(b, 36, 0x650a7354, 0x0a8b3996, r36, r37);
    var r38 := Shifted(r37, 0x34df1604, 0xa507a53d); NextRound(b, 37, 0x766a0abb, 0x72af830a, r37, r38);
    var r39 := Shifted(r38, 0x6dc57a8a, 0xf0781bc8); NextRound(b, 38, 0x81c2c92e, 0x9409e33e, r38, r39);
    var r40 := Shifted(r39, 0x79ea687a, 0x1efbc0a0); NextRound(b, 39, 0x92722c85, 0x24641522, r39, r40);
  }

  lemma Rounds40(b: seq<byte>)
    requires Row5(b) && Rounds(INITIAL, b, 40) == VARIABLES40
    ensures Rounds(INITIAL, b, 48) == VARIABLES48
  {
    hide W; hide Rounds;
    assert K[40] == 0xa2bfe8a1 && K[41] == 0xa81a664b && K[42] == 0xc24b8b70 && K[43] == 0xc76c51a3;
    assert K[44] == 0xd192e819 && K[45] == 0xd6990624 && K[46] == 0xf40e3585 && K[47] == 0x106aa070;
    hide K;
    var r40 := VARIABLES40;
    var r41 := Shifted(r40, 0xd6670766, 0x26352d63); NextRound(b, 40, 0xa2bfe8a1, 0x9f47bf94, r40, r41);
    var r42 := Shifted(r41, 0xdf46652f, 0x838b2711); NextRound(b, 41, 0xa81a664b, 0xf0a64f5a, r41, r42);
    var r43 := Shifted(r42, 0x17aa0dfe, 0xdecd4715); NextRound(b, 42, 0xc24b8b70, 0x3e246a79, r42, r43);
    var r44 := Shifted(r43, 0x9d4baf93, 0xfda24c2e); NextRound(b, 43, 0xc76c51a3, 0x27333ba3, r43, r44);
    var r45 := Shifted(r44, 0x26628815, 0xa80f11f0); NextRound(b, 44, 0xd192e819, 0x0c4763f2, r44, r45);
    var r46 := Shifted(r45, 0x72ab4b91, 0xb7755da1); NextRound(b, 45, 0xd6990624, 0x840abf27, r45, r46);
    var r47 := Shifted(r46, 0xa14c14b0, 0xd57b94a9); NextRound(b, 46, 0xf40e3585, 0x7a290d5d, r46, r47);
    var r48 := Shifted(r47, 0x4172328d, 0xfecf0bc6); NextRound(b, 47, 0x106aa070, 0x065c43da, r47, r48);
  }

  lemma Rounds48(b: seq<byte>)
    requires Row6(b) && Rounds(INITIAL, b, 48) == VARIABLES48
    ensures Rounds(INITIAL, b, 56) == VARIABLES56
  {
    hide W; hide Rounds;
    assert K[48] == 0x19a4c116 && K[49] == 0x1e376c08 && K[50] == 0x2748774c && K[51] == 0x34b0bcb5;
    assert K[52] == 0x391c0cb3 && K[53] == 0x4ed8aa4a && K[54] == 0x5b9cca4f && K[55] == 0x682e6ff3;
    hide K;
    var r48 := VARIABLES48;
    var r49 := Shifted(r48, 0x05757ceb, 0xbd714038); NextRound(b, 48, 0x19a4c116, 0xfb3e89cb, r48, r49);
    var r50 := Shifted(r49, 0xf11bfaa8, 0x6e5c390c); NextRound(b, 49, 0x1e376c08, 0xcc7617db, r49, r50);
    var r51 := Shifted(r50, 0x7a0508a1, 0x52f1ccf7); NextRound(b, 50, 0x2748774c, 0xb9e66c34, r50, r51);
    var r52 := Shifted(r51, 0x886e7a22, 0x49231c1e); NextRound(b, 51, 0x34b0bcb5, 0xa9993667, r51, r52);
    var r53 := Shifted(r52, 0x101fd28f, 0x529e7d00); NextRound(b, 52, 0x391c0cb3, 0x84badedd, r52, r53);
    var r54 := Shifted(r53, 0xf5702fdb, 0x9f4787c3); NextRound(b, 53, 0x4ed8aa4a, 0xc21462bc, r53, r54);
    var r55 := Shifted(r54, 0x3ec45cdb, 0xe50e1b4f); NextRound(b, 54, 0x5b9cca4f, 0x1487472c, r54, r55);
    var r56 := Shifted(r55, 0x38cc9913, 0x54cb266b); NextRound(b, 55, 0x682e6ff3, 0xb20f7a99, r55, r56);
  }

  lemma Rounds56(b: seq<byte>)
    requires Row7(b) && Rounds(INITIAL, b, 56) == VARIABLES56
    ensures Rounds(INITIAL, b, 64) == VARIABLES64
  {
    hide W; hide Rounds;
    assert K[56] == 0x748f82ee && K[57] == 0x78a5636f && K[58] == 0x84c87814 && K[59] == 0x8cc70208;
    assert K[60] == 0x90befffa && K[61] == 0xa4506ceb && K[62] == 0xbef9a3f7 && K[63] == 0xc67178f2;
    hide K;
    var r56 := VARIABLES56;
    var r57 := Shifted(r56, 0xfcd1887b, 0x9b5e906c); NextRound(b, 56, 0x748f82ee, 0xef57b9cd, r56, r57);
    var r58 := Shifted(r57, 0xc062d46f, 0x7e44008e); NextRound(b, 57, 0x78a5636f, 0xebe6b238, r57, r58);
    var r59 := Shifted(r58, 0xffb70472, 0x6d83bfc6); NextRound(b, 58, 0x84c87814, 0x9fe3095e, r58, r59);
    var r60 := Shifted(r59, 0xb6ae8fff, 0xb21bad3d); NextRound(b, 59, 0x8cc70208, 0x78bc8d4b, r59, r60);
    var r61 := Shifted(r60, 0xb85e2ce9, 0x961f4894); NextRound(b, 60, 0x90befffa, 0xa43fcf15, r60, r61);
    var r62 := Shifted(r61, 0x04d24d6c, 0x948d25b6); NextRound(b, 61, 0xa4506ceb, 0x668b2ff8, r61, r62);
    var r63 := Shifted(r62, 0xd39a2165, 0xfb121210); NextRound(b, 62, 0xbef9a3f7, 0xeeaba2cc, r62, r63);
    var r64 := Shifted(r63, 0x506e3058, 0x5ef50f24); NextRound(b, 63, 0xc67178f2, 0x12b1edeb, r63, r64);
  }

  // ---------------------------------------------------------------- the digest

  /** "abc" */
  const ABC: Text := [97, 98, 99]

  lemma {:induction false} ZerosAt(n: nat, i: nat)
    requires i < n
    ensures Zeros(n)[i] == 0
  {
    if i == n - 1 {
    } else {
      ZerosAt(n - 1, i);
    }
  }

  lemma LengthOfAbc()
    ensures BigEndian(24, 8) == [0, 0, 0, 0, 0, 0, 0, 24]
  {
    assert Shift(2) == 65536 && Shift(4) == 65536 * 65536;
    assert 24 / Shift(1) == 24 / Shift(2) == 24 / Shift(3) == 24 / Shift(4) == 0;
    LaterShifts();
    assert BigEndian(24, 1) == [24] + BigEndian(24, 0);
    assert BigEndian(24, 2) == [0] + BigEndian(24, 1) && BigEndian(24, 3) == [0] + BigEndian(24, 2);
    assert BigEndian(24, 4) == [0] + BigEndian(24, 3) && BigEndian(24, 5) == [0] + BigEndian(24, 4);
    assert BigEndian(24, 6) == [0] + BigEndian(24, 5) && BigEndian(24, 7) == [0] + BigEndian(24, 6);
  }

  lemma LaterShifts()
    ensures 24 / Shift(5) == 24 / Shift(6) == 24 / Shift(7) == 0
  {
    assert Shift(4) == 256 * Shift(3);
    assert Shift(5) > 24 && Shift(6) > 24 && Shift(7) > 24;
  }

  /** The message, 0x80, 52 zeros, and 24 in eight bytes. */
  lemma PadOfAbc()
    ensures var b := Pad(ABC);
            && |b| == 64 && b[0] == 97 && b[1] == 98 && b[2] == 99 && b[3] == 0x80 && b[63] == 24
            && forall i :: 4 <= i < 63 ==> b[i] == 0
  {
    LengthOfAbc();
    var b := Pad(ABC);
    assert ZeroCount(3) == 52;
    forall i | 4 <= i < 56
      ensures b[i] == 0
    {
      ZerosAt(52, i - 4);
    }
    assert forall i :: 56 <= i < 64 ==> b[i] == BigEndian(24, 8)[i - 56];
  }

  lemma FirstRows()
    ensures Row0(Pad(ABC)) && Row1(Pad(ABC))
  {
    hide Pad;
    PadOfAbc();
    var b := Pad(ABC);
    assert BigEndianWord(b, 0) == 0x61626380 && BigEndianWord(b, 15) == 24;
    assert forall i: nat :: 1 <= i < 15 ==> BigEndianWord(b, i) == 0;
  }

  /** The example of FIPS 180-4 for one block. */
  lemma DigestOfAbc()
    ensures Digest(ABC) == Registers(0xba7816bf, 0x8f01cfea, 0x414140de, 0x5dae2223,
                                    0xb00361a3, 0x96177a9c, 0xb410ff61, 0xf20015ad)
  {
    hide W; hide Rounds; hide Pad;
    FirstRows();
    PadOfAbc();
    var b := Pad(ABC);
    Words2(b); Words3(b); Words4(b); Words5(b); Words6(b); Words7(b);
    hide Row0; hide Row1; hide Row2; hide Row3; hide Row4; hide Row5; hide Row6; hide Row7;
    NoRounds(b);
    Rounds0(b); Rounds8(b); Rounds16(b); Rounds24(b); Rounds32(b); Rounds40(b); Rounds48(b); Rounds56(b);
    assert b[..64] == b && b[64..] == [];
    assert Fold(INITIAL, b) == Fold(Compress(INITIAL, b), []);
    assert AddRegisters(INITIAL, VARIABLES64) == Registers(0xba7816bf, 0x8f01cfea, 0x414140de, 0x5dae2223,
           0xb00361a3, 0x96177a9c, 0xb410ff61, 0xf20015ad);
  }

  lemma NoRounds(b: seq<byte>)
    requires |b| == 64
    ensures Rounds(INITIAL, b, 0) == VARIABLES0
  {
  }

  predicate DigitIs(w: Word, shift: bv6, c: char)
    requires shift < 32
  {
    HexDigit(Nibble(w, shift)) as int == c as int
  }

  lemma HexText(w: Word, text: string)
    requires |text| == 8
    requires DigitIs(w, 28, text[0]) && DigitIs(w, 24, text[1]) && DigitIs(w, 20, text[2]) && DigitIs(w, 16, text[3])
    requires DigitIs(w, 12, text[4]) && DigitIs(w, 8, text[5]) && DigitIs(w, 4, text[6]) && DigitIs(w, 0, text[7])
    ensures HexWord(w) == Ascii(text)
  {
    hide HexDigit; hide Nibble;
  }

  lemma HexWord0()
    ensures HexWord(0xba7816bf) == Ascii("ba7816bf")
  {
    hide HexWord; hide Ascii;
    HexText(0xba7816bf, "ba7816bf");
  }

  lemma HexWord1()
    ensures HexWord(0x8f01cfea) == Ascii("8f01cfea")
  {
    hide HexWord; hide Ascii;
    HexText(0x8f01cfea, "8f01cfea");
  }

  lemma HexWord2()
    ensures HexWord(0x414140de) == Ascii("414140de")
  {
    hide HexWord; hide Ascii;
    HexText(0x414140de, "414140de");
  }

  lemma HexWord3()
    ensures HexWord(0x5dae2223) == Ascii("5dae2223")
  {
    hide HexWord; hide Ascii;
    HexText(0x5dae2223, "5dae2223");
  }

  lemma HexWord4()
    ensures HexWord(0xb00361a3) == Ascii("b00361a3")
  {
    hide HexWord; hide Ascii;
    HexText(0xb00361a3, "b00361a3");
  }

  lemma HexWord5()
    ensures HexWord(0x96177a9c) == Ascii("96177a9c")
  {
    hide HexWord; hide Ascii;
    HexText(0x96177a9c, "96177a9c");
  }

  lemma HexWord6()
    ensures HexWord(0xb410ff61) == Ascii("b410ff61")
  {
    hide HexWord; hide Ascii;
    HexText(0xb410ff61, "b410ff61");
  }

  lemma HexWord7()
    ensures HexWord(0xf20015ad) == Ascii("f20015ad")
  {
    hide HexWord; hide Ascii;
    HexText(0xf20015ad, "f20015ad");
  }

  lemma AsciiAppend(s: string, t: string)
    ensures Ascii(s + t) == Ascii(s) + Ascii(t)
  {
  }

  const DIGEST_START: string := "ba7816bf" + "8f01cfea" + "414140de" + "5dae2223"

  const DIGEST_END: string := "b00361a3" + "96177a9c" + "b410ff61" + "f20015ad"

  /** As the runner prints it. */
  lemma PrintedAbc()
    ensures Printed(ABC) == Ascii("sha256:") + Ascii(DIGEST_START) + Ascii(DIGEST_END)
  {
    hide Digest; hide HexWord; hide Ascii;
    DigestOfAbc();
    HexWord0(); HexWord1(); HexWord2(); HexWord3(); HexWord4(); HexWord5(); HexWord6(); HexWord7();
    AsciiFour("ba7816bf", "8f01cfea", "414140de", "5dae2223");
    AsciiFour("b00361a3", "96177a9c", "b410ff61", "f20015ad");
    var a, b := Ascii(DIGEST_START), Ascii(DIGEST_END);
    assert Hex(Digest(ABC)) == a + b;
  }

  lemma AsciiFour(s: string, t: string, u: string, v: string)
    ensures Ascii(s + t + u + v) == Ascii(s) + Ascii(t) + Ascii(u) + Ascii(v)
  {
    hide Ascii;
    AsciiAppend(s, t);
    AsciiAppend(s + t, u);
    AsciiAppend(s + t + u, v);
  }

  // ---------------------------------------------------------------- an identity stream

  function One(c: char): Text {
    Ascii([c])
  }

  /** Every scalar another letter, every list of two in falling order, and "abc" as the imported payload. */
  const EXAMPLE: Input := Input(One('a'), One('b'), One('c'), One('d'), One('e'), One('f'), One('g'),
                                [One('i'), One('h')], [One('k'), One('j')], [One('m'), One('l')],
                                [One('o'), One('n')], [ABC])

  lemma FieldOfOne(c: char, text: string)
    requires |text| == 4 && text[0] == '1' && text[1] == ':' && text[2] == c && text[3] == ';'
    ensures Field(One(c)) == Ascii(text)
  {
    assert Decimal(1) == [49];
  }

  lemma FieldsOfTwo(c: char, d: char, first: string, second: string)
    requires |first| == 4 && first[0] == '1' && first[1] == ':' && first[2] == c && first[3] == ';'
    requires |second| == 4 && second[0] == '1' && second[1] == ':' && second[2] == d && second[3] == ';'
    ensures Fields([One(c), One(d)]) == Ascii("1:2;") + Ascii(first) + Ascii(second)
  {
    hide Field; hide Ascii;
    FieldOfOne(c, first);
    FieldOfOne(d, second);
    FieldOfOne('2', "1:2;");
    assert Decimal(2) == One('2') by { TwoIsTwo(); }
    FieldsFirst(One(c), [One(d)]);
    FieldsFirst(One(d), []);
    assert [One(d)] + [] == [One(d)] && [One(c)] + [One(d)] == [One(c), One(d)];
    assert FieldsInOrder([]) == [];
  }

  lemma TwoIsTwo()
    ensures Decimal(2) == One('2')
  {
  }

  /** Two unordered fields are written in rising order, whichever way they are given. */
  lemma TwoNormalized(c: char, d: char)
    requires c < d < 128 as char
    ensures Normalized([One(d), One(c)]) == [One(c), One(d)] == Normalized([One(c), One(d)])
  {
    var v, u := [One(d), One(c)], [One(c), One(d)];
    assert v[1..] == [One(c)] && [One(c)][1..] == [] && u[1..] == [One(d)] && [One(d)][1..] == [];
    assert Sort(TextAtMost, [One(c)]) == [One(c)] && Sort(TextAtMost, [One(d)]) == [One(d)];
    assert One(c)[0] < One(d)[0];
    assert !TextAtMost(One(d), One(c)) && TextAtMost(One(c), One(d));
    assert Insert(TextAtMost, One(d), []) == [One(d)];
  }

  lemma LabelField()
    ensures Field(LABEL) == Ascii("38:") + LABEL + Ascii(";")
  {
    assert Decimal(3) == [51] && Decimal(38) == [51] + [56];
  }

  /** The label and the seven scalars, each with its length. */
  lemma ScalarStream()
    ensures FieldsInOrder(Scalars(EXAMPLE)) == Ascii("38:") + LABEL + Ascii(";")
         + (Ascii("1:a;") + (Ascii("1:b;") + (Ascii("1:c;") + (Ascii("1:d;") + (Ascii("1:e;") + (Ascii("1:f;")
         + Ascii("1:g;")))))))
  {
    hide Field; hide Ascii; hide FieldsInOrder;
    LabelField();
    FieldOfOne('a', "1:a;"); FieldOfOne('b', "1:b;"); FieldOfOne('c', "1:c;"); FieldOfOne('d', "1:d;");
    FieldOfOne('e', "1:e;"); FieldOfOne('f', "1:f;"); FieldOfOne('g', "1:g;");
    FieldsOfEight(LABEL, One('a'), One('b'), One('c'), One('d'), One('e'), One('f'), One('g'));
  }

  lemma FieldsOfEight(s: Text, t: Text, u: Text, v: Text, w: Text, x: Text, y: Text, z: Text)
    ensures FieldsInOrder([s, t, u, v, w, x, y, z])
         == Field(s) + (Field(t) + (Field(u) + (Field(v) + (Field(w) + (Field(x) + (Field(y) + Field(z)))))))
  {
    hide Field;
    assert FieldsInOrder([z]) == Field(z) + FieldsInOrder([]) == Field(z);
    hide FieldsInOrder;
    FieldsFirst(y, [z]); FieldsFirst(x, [y, z]); FieldsFirst(w, [x, y, z]); FieldsFirst(v, [w, x, y, z]);
    FieldsFirst(u, [v, w, x, y, z]); FieldsFirst(t, [u, v, w, x, y, z]); FieldsFirst(s, [t, u, v, w, x, y, z]);
    assert [x] + [y, z] == [x, y, z] && [w] + [x, y, z] == [w, x, y, z] && [v] + [w, x, y, z] == [v, w, x, y, z];
    assert [u] + [v, w, x, y, z] == [u, v, w, x, y, z] && [t] + [u, v, w, x, y, z] == [t, u, v, w, x, y, z];
    assert [s] + [t, u, v, w, x, y, z] == [s, t, u, v, w, x, y, z] && [y] + [z] == [y, z];
  }

  lemma FieldsFirst(first: Text, rest: seq<Text>)
    ensures FieldsInOrder([first] + rest) == Field(first) + FieldsInOrder(rest)
  {
    assert ([first] + rest)[1..] == rest;
  }

  /** The payload is hashed on its own, and its printed digest is the field. */
  lemma ImportStream()
    ensures Fields(ImportDigests(EXAMPLE.imports))
         == Ascii("1:1;") + (Ascii("71:") + (Ascii("sha256:") + Ascii(DIGEST_START) + Ascii(DIGEST_END)) + Ascii(";"))
  {
    hide Printed;
    hide Field; hide Ascii;
    FieldOfOne('1', "1:1;");
    OneIsOne();
    PrintedField();
    var v := EXAMPLE.imports;
    assert v[..0] == [] && ImportDigests(v) == [] + [Printed(ABC)] == [Printed(ABC)];
    FieldsFirst(Printed(ABC), []);
    assert [Printed(ABC)] + [] == [Printed(ABC)] && FieldsInOrder([]) == [];
  }

  lemma OneIsOne()
    ensures Decimal(1) == One('1')
  {
  }

  lemma PrintedField()
    ensures Field(Printed(ABC))
         == Ascii("71:") + (Ascii("sha256:") + Ascii(DIGEST_START) + Ascii(DIGEST_END)) + Ascii(";")
  {
    hide Printed;
    PrintedAbc();
    assert |DIGEST_START| == |DIGEST_END| == 32;
    assert |Printed(ABC)| == 71;
    assert Decimal(7) == [55] && Decimal(71) == [55] + [49];
    assert Ascii("71:") == [55, 49] + [COLON] && Ascii(";") == [SEMICOLON];
  }

  /**
   * The whole stream of the example: lengths in decimal, a colon, the value and a semicolon; arguments and
   * dependencies as given, keywords and selectors sorted, counts before the lists.
   */
  lemma ExampleStream()
    ensures Hashed(EXAMPLE)
         == Ascii("38:") + LABEL + Ascii(";")
            + (Ascii("1:a;") + (Ascii("1:b;") + (Ascii("1:c;") + (Ascii("1:d;") + (Ascii("1:e;") + (Ascii("1:f;")
            + Ascii("1:g;")))))))
            + ((Ascii("1:2;") + Ascii("1:i;") + Ascii("1:h;")) + ((Ascii("1:2;") + Ascii("1:j;") + Ascii("1:k;"))
            + ((Ascii("1:2;") + Ascii("1:l;") + Ascii("1:m;")) + ((Ascii("1:2;") + Ascii("1:o;") + Ascii("1:n;"))
            + (Ascii("1:1;")
            + (Ascii("71:") + (Ascii("sha256:") + Ascii(DIGEST_START) + Ascii(DIGEST_END)) + Ascii(";")))))))
  {
    hide Fields; hide FieldsInOrder; hide Normalized; hide Ascii; hide ImportDigests;
    ScalarStream();
    FieldsOfTwo('i', 'h', "1:i;", "1:h;");
    TwoNormalized('j', 'k');
    FieldsOfTwo('j', 'k', "1:j;", "1:k;");
    TwoNormalized('l', 'm');
    FieldsOfTwo('l', 'm', "1:l;", "1:m;");
    FieldsOfTwo('o', 'n', "1:o;", "1:n;");
    ImportStream();
  }
}
