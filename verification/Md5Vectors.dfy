/** The first two test vectors of appendix A.5 of RFC 1321, step by step. They tie the initial registers, the constants,
    rotations and order of words, the final addition, the padding and the hexadecimal output to the RFC at once. */
module Md5Vectors {
  import opened Md5
  import opened Md5Digest

  /** The next word of the chain of registers: what step `i` puts in place of the oldest of four. */
  predicate Next(block: seq<byte>, i: nat, t0: bv32, t1: bv32, t2: bv32, t3: bv32, t4: bv32)
    requires |block| == 64
  {
    t4 == Operation(t3, t0, Auxiliary(i, t3, t2, t1), Word(block, WordIndex(i)), Sine(i), Amount(i))
  }

  lemma FourMore(block: seq<byte>, i: nat, t0: bv32, t1: bv32, t2: bv32, t3: bv32, t4: bv32, t5: bv32, t6: bv32,
                 t7: bv32)
    requires |block| == 64
    requires Next(block, i, t0, t1, t2, t3, t4) && Next(block, i + 1, t1, t2, t3, t4, t5)
    requires Next(block, i + 2, t2, t3, t4, t5, t6) && Next(block, i + 3, t3, t4, t5, t6, t7)
    ensures Steps(Registers(t0, t3, t2, t1), block, i, 4) == Registers(t4, t7, t6, t5)
  {
    hide Operation, Auxiliary, Word, WordIndex, Sine, Amount, Steps;
    var s := FourSteps(Registers(t0, t3, t2, t1), block, i);
  }

  lemma EightMore(block: seq<byte>, i: nat, t0: bv32, t1: bv32, t2: bv32, t3: bv32, t4: bv32, t5: bv32, t6: bv32,
                  t7: bv32, t8: bv32, t9: bv32, t10: bv32, t11: bv32)
    requires |block| == 64
    requires Next(block, i, t0, t1, t2, t3, t4) && Next(block, i + 1, t1, t2, t3, t4, t5)
    requires Next(block, i + 2, t2, t3, t4, t5, t6) && Next(block, i + 3, t3, t4, t5, t6, t7)
    requires Next(block, i + 4, t4, t5, t6, t7, t8) && Next(block, i + 5, t5, t6, t7, t8, t9)
    requires Next(block, i + 6, t6, t7, t8, t9, t10) && Next(block, i + 7, t7, t8, t9, t10, t11)
    ensures Steps(Registers(t0, t3, t2, t1), block, i, 8) == Registers(t8, t11, t10, t9)
  {
    hide Next, Steps;
    FourMore(block, i, t0, t1, t2, t3, t4, t5, t6, t7);
    FourMore(block, i + 4, t4, t5, t6, t7, t8, t9, t10, t11);
    StepsJoin(Registers(t0, t3, t2, t1), block, i, 4, 4);
  }

  lemma Empty0(block: seq<byte>)
    requires IsEmptyBlock(block)
    ensures Steps(Registers(0x67452301, 0xEFCDAB89, 0x98BADCFE, 0x10325476), block, 0, 8)
         == Registers(0x32033344, 0x9BC13CE9, 0xF5B158DB, 0x2F35D494)
  {
    EmptyWords(block);
    FirstRoundPlan();
    hide Word, Steps, WordIndex, Sine, Amount, IsEmptyBlock;
    assert Next(block, 0, 0x67452301, 0x10325476, 0x98BADCFE, 0xEFCDAB89, 0xA5202774);
    assert Next(block, 1, 0x10325476, 0x98BADCFE, 0xEFCDAB89, 0xA5202774, 0xF59592DD);
    assert Next(block, 2, 0x98BADCFE, 0xEFCDAB89, 0xA5202774, 0xF59592DD, 0xE7F06B23);
    assert Next(block, 3, 0xEFCDAB89, 0xA5202774, 0xF59592DD, 0xE7F06B23, 0x1B163203);
    assert Next(block, 4, 0xA5202774, 0xF59592DD, 0xE7F06B23, 0x1B163203, 0x32033344);
    assert Next(block, 5, 0xF59592DD, 0xE7F06B23, 0x1B163203, 0x32033344, 0x2F35D494);
    assert Next(block, 6, 0xE7F06B23, 0x1B163203, 0x32033344, 0x2F35D494, 0xF5B158DB);
    assert Next(block, 7, 0x1B163203, 0x32033344, 0x2F35D494, 0xF5B158DB, 0x9BC13CE9);
    EightMore(block, 0, 0x67452301, 0x10325476, 0x98BADCFE, 0xEFCDAB89,
              0xA5202774, 0xF59592DD, 0xE7F06B23, 0x1B163203,
              0x32033344, 0x2F35D494, 0xF5B158DB, 0x9BC13CE9);
  }

  lemma Empty8(block: seq<byte>)
    requires IsEmptyBlock(block)
    ensures Steps(Registers(0x32033344, 0x9BC13CE9, 0xF5B158DB, 0x2F35D494), block, 8, 8)
         == Registers(0xF56C7CF1, 0xD6819C6A, 0x5AA53F75, 0x374943A7)
  {
    EmptyWords(block);
    FirstRoundPlan();
    hide Word, Steps, WordIndex, Sine, Amount, IsEmptyBlock;
    EightMore(block, 8, 0x32033344, 0x2F35D494, 0xF5B158DB, 0x9BC13CE9,
              0x3893B991, 0xFCE4A312, 0xE1EF0576, 0x70768A29,
              0xF56C7CF1, 0x374943A7, 0x5AA53F75, 0xD6819C6A);
  }

  lemma Empty16(block: seq<byte>)
    requires IsEmptyBlock(block)
    ensures Steps(Registers(0xF56C7CF1, 0xD6819C6A, 0x5AA53F75, 0x374943A7), block, 16, 8)
         == Registers(0x3D1E3E6C, 0xE422531A, 0xEB41643E, 0x68B7B3E3)
  {
    EmptyWords(block);
    SecondRoundPlan();
    hide Word, Steps, WordIndex, Sine, Amount, IsEmptyBlock;
    EightMore(block, 16, 0xF56C7CF1, 0x374943A7, 0x5AA53F75, 0xD6819C6A,
              0x1C7D7513, 0x7BD57A3A, 0xC095F13A, 0xBD782E17,
              0x3D1E3E6C, 0x68B7B3E3, 0xEB41643E, 0xE422531A);
  }

  lemma Empty24(block: seq<byte>)
    requires IsEmptyBlock(block)
    ensures Steps(Registers(0x3D1E3E6C, 0xE422531A, 0xEB41643E, 0x68B7B3E3), block, 24, 8)
         == Registers(0x13707036, 0xA2205F1F, 0x1C31C384, 0xAE7813DB)
  {
    EmptyWords(block);
    SecondRoundPlan();
    hide Word, Steps, WordIndex, Sine, Amount, IsEmptyBlock;
    EightMore(block, 24, 0x3D1E3E6C, 0x68B7B3E3, 0xEB41643E, 0xE422531A,
              0x306EC122, 0xD28C77C2, 0xA3C663DA, 0xA0572807,
              0x13707036, 0xAE7813DB, 0x1C31C384, 0xA2205F1F);
  }

  lemma Empty32(block: seq<byte>)
    requires IsEmptyBlock(block)
    ensures Steps(Registers(0x13707036, 0xA2205F1F, 0x1C31C384, 0xAE7813DB), block, 32, 8)
         == Registers(0x5F7A9B2E, 0xC5DC8C15, 0x91CA4CB7, 0xABC34E16)
  {
    EmptyWords(block);
    ThirdRoundPlan();
    hide Word, Steps, WordIndex, Sine, Amount, IsEmptyBlock;
    EightMore(block, 32, 0x13707036, 0xAE7813DB, 0x1C31C384, 0xA2205F1F,
              0xDF63EAA1, 0xC3689F5B, 0x12F3E755, 0x004B6669,
              0x5F7A9B2E, 0xABC34E16, 0x91CA4CB7, 0xC5DC8C15);
  }

  lemma Empty40(block: seq<byte>)
    requires IsEmptyBlock(block)
    ensures Steps(Registers(0x5F7A9B2E, 0xC5DC8C15, 0x91CA4CB7, 0xABC34E16), block, 40, 8)
         == Registers(0x3F55EDFD, 0xCA7D2DBD, 0x68D84EA2, 0x22A31F54)
  {
    EmptyWords(block);
    ThirdRoundPlan();
    hide Word, Steps, WordIndex, Sine, Amount, IsEmptyBlock;
    EightMore(block, 40, 0x5F7A9B2E, 0xABC34E16, 0x91CA4CB7, 0xC5DC8C15,
              0x4497169D, 0x76FD93D4, 0xFD95F243, 0x0FE32453,
              0x3F55EDFD, 0x22A31F54, 0x68D84EA2, 0xCA7D2DBD);
  }

  lemma Empty48(block: seq<byte>)
    requires IsEmptyBlock(block)
    ensures Steps(Registers(0x3F55EDFD, 0xCA7D2DBD, 0x68D84EA2, 0x22A31F54), block, 48, 8)
         == Registers(0x5625A114, 0x1E77FA61, 0x392AD0D0, 0x3450F42B)
  {
    EmptyWords(block);
    FourthRoundPlan();
    hide Word, Steps, WordIndex, Sine, Amount, IsEmptyBlock;
    EightMore(block, 48, 0x3F55EDFD, 0x22A31F54, 0x68D84EA2, 0xCA7D2DBD,
              0x93AA2577, 0x1688DC85, 0xCD85B8CB, 0x561E0689,
              0x5625A114, 0x3450F42B, 0x392AD0D0, 0x1E77FA61);
  }

  lemma Empty56(block: seq<byte>)
    requires IsEmptyBlock(block)
    ensures Steps(Registers(0x5625A114, 0x1E77FA61, 0x392AD0D0, 0x3450F42B), block, 56, 8)
         == Registers(0x7246FAD3, 0x14E45506, 0xFF4EA3EB, 0x6E10A476)
  {
    EmptyWords(block);
    FourthRoundPlan();
    hide Word, Steps, WordIndex, Sine, Amount, IsEmptyBlock;
    EightMore(block, 56, 0x5625A114, 0x3450F42B, 0x392AD0D0, 0x1E77FA61,
              0x474A9C8C, 0xDFCE00BC, 0x36594B14, 0x30130182,
              0x7246FAD3, 0x6E10A476, 0xFF4EA3EB, 0x14E45506);
  }

  lemma Abc0(block: seq<byte>)
    requires IsAbcBlock(block)
    ensures Steps(Registers(0x67452301, 0xEFCDAB89, 0x98BADCFE, 0x10325476), block, 0, 8)
         == Registers(0xC73741EF, 0x928D99F6, 0x207DC67B, 0x8BAC3051)
  {
    AbcWords(block);
    FirstRoundPlan();
    hide Word, Steps, WordIndex, Sine, Amount, IsAbcBlock;
    assert Next(block, 0, 0x67452301, 0x10325476, 0x98BADCFE, 0xEFCDAB89, 0xD6D117B4);
    assert Next(block, 1, 0x10325476, 0x98BADCFE, 0xEFCDAB89, 0xD6D117B4, 0x344A8432);
    assert Next(block, 2, 0x98BADCFE, 0xEFCDAB89, 0xD6D117B4, 0x344A8432, 0x2F6FBD72);
    assert Next(block, 3, 0xEFCDAB89, 0xD6D117B4, 0x344A8432, 0x2F6FBD72, 0x7AD956F2);
    assert Next(block, 4, 0xD6D117B4, 0x344A8432, 0x2F6FBD72, 0x7AD956F2, 0xC73741EF);
    assert Next(block, 5, 0x344A8432, 0x2F6FBD72, 0x7AD956F2, 0xC73741EF, 0x8BAC3051);
    assert Next(block, 6, 0x2F6FBD72, 0x7AD956F2, 0xC73741EF, 0x8BAC3051, 0x207DC67B);
    assert Next(block, 7, 0x7AD956F2, 0xC73741EF, 0x8BAC3051, 0x207DC67B, 0x928D99F6);
    EightMore(block, 0, 0x67452301, 0x10325476, 0x98BADCFE, 0xEFCDAB89,
              0xD6D117B4, 0x344A8432, 0x2F6FBD72, 0x7AD956F2,
              0xC73741EF, 0x8BAC3051, 0x207DC67B, 0x928D99F6);
  }

  lemma Abc8(block: seq<byte>)
    requires IsAbcBlock(block)
    ensures Steps(Registers(0xC73741EF, 0x928D99F6, 0x207DC67B, 0x8BAC3051), block, 8, 8)
         == Registers(0xDDA9B9A6, 0x72AFF2E0, 0xE396856B, 0xA1051895)
  {
    AbcWords(block);
    FirstRoundPlan();
    hide Word, Steps, WordIndex, Sine, Amount, IsAbcBlock;
    EightMore(block, 8, 0xC73741EF, 0x8BAC3051, 0x207DC67B, 0x928D99F6,
              0x854B3712, 0x74E2F284, 0x3020401C, 0x5ED49596,
              0xDDA9B9A6, 0xA1051895, 0xE396856B, 0x72AFF2E0);
  }

  lemma Abc16(block: seq<byte>)
    requires IsAbcBlock(block)
    ensures Steps(Registers(0xDDA9B9A6, 0x72AFF2E0, 0xE396856B, 0xA1051895), block, 16, 8)
         == Registers(0x59A8FFDA, 0x47092C07, 0xABFC7920, 0x6D002F1E)
  {
    AbcWords(block);
    SecondRoundPlan();
    hide Word, Steps, WordIndex, Sine, Amount, IsAbcBlock;
    EightMore(block, 16, 0xDDA9B9A6, 0xA1051895, 0xE396856B, 0x72AFF2E0,
              0x3E9E9126, 0x4A1D804E, 0xE25E1652, 0xB5B204E4,
              0x59A8FFDA, 0x6D002F1E, 0xABFC7920, 0x47092C07);
  }

  lemma Abc24(block: seq<byte>)
    requires IsAbcBlock(block)
    ensures Steps(Registers(0x59A8FFDA, 0x47092C07, 0xABFC7920, 0x6D002F1E), block, 24, 8)
         == Registers(0x790A77FB, 0x726342D3, 0xA62884AA, 0x9F47E4F8)
  {
    AbcWords(block);
    SecondRoundPlan();
    hide Word, Steps, WordIndex, Sine, Amount, IsAbcBlock;
    EightMore(block, 24, 0x59A8FFDA, 0x6D002F1E, 0xABFC7920, 0x47092C07,
              0xB7F268CF, 0x09388EFF, 0xFE1623B1, 0x786ACB8F,
              0x790A77FB, 0x9F47E4F8, 0xA62884AA, 0x726342D3);
  }

  lemma Abc32(block: seq<byte>)
    requires IsAbcBlock(block)
    ensures Steps(Registers(0x790A77FB, 0x726342D3, 0xA62884AA, 0x9F47E4F8), block, 32, 8)
         == Registers(0x21B117B9, 0x5A2F5EA5, 0x3575227E, 0x6E7429D5)
  {
    AbcWords(block);
    ThirdRoundPlan();
    hide Word, Steps, WordIndex, Sine, Amount, IsAbcBlock;
    EightMore(block, 32, 0x790A77FB, 0x9F47E4F8, 0xA62884AA, 0x726342D3,
              0xB3707EBF, 0x60127B2E, 0x8D212FF5, 0x3B0875C7,
              0x21B117B9, 0x6E7429D5, 0x3575227E, 0x5A2F5EA5);
  }

  lemma Abc40(block: seq<byte>)
    requires IsAbcBlock(block)
    ensures Steps(Registers(0x21B117B9, 0x5A2F5EA5, 0x3575227E, 0x6E7429D5), block, 40, 8)
         == Registers(0x7F2E507B, 0x7BEB9700, 0x8FAE6399, 0x99D9679D)
  {
    AbcWords(block);
    ThirdRoundPlan();
    hide Word, Steps, WordIndex, Sine, Amount, IsAbcBlock;
    EightMore(block, 40, 0x21B117B9, 0x6E7429D5, 0x3575227E, 0x5A2F5EA5,
              0x11DE1779, 0xFADCAA38, 0x31C465CA, 0x4C6124F4,
              0x7F2E507B, 0x99D9679D, 0x8FAE6399, 0x7BEB9700);
  }

  lemma Abc48(block: seq<byte>)
    requires IsAbcBlock(block)
    ensures Steps(Registers(0x7F2E507B, 0x7BEB9700, 0x8FAE6399, 0x99D9679D), block, 48, 8)
         == Registers(0x06CC5E8A, 0x3BFA2C27, 0x7D632DD0, 0x5B0D97AA)
  {
    AbcWords(block);
    FourthRoundPlan();
    hide Word, Steps, WordIndex, Sine, Amount, IsAbcBlock;
    EightMore(block, 48, 0x7F2E507B, 0x99D9679D, 0x8FAE6399, 0x7BEB9700,
              0x7B201DF8, 0xF4E8E96E, 0xB298CEFD, 0x8BF025C4,
              0x06CC5E8A, 0x5B0D97AA, 0x7D632DD0, 0x3BFA2C27);
  }

  lemma Abc56(block: seq<byte>)
    requires IsAbcBlock(block)
    ensures Steps(Registers(0x06CC5E8A, 0x3BFA2C27, 0x7D632DD0, 0x5B0D97AA), block, 56, 8)
         == Registers(0x310ADE8F, 0xC08226B3, 0xE484B9D8, 0x624D8CB2)
  {
    AbcWords(block);
    FourthRoundPlan();
    hide Word, Steps, WordIndex, Sine, Amount, IsAbcBlock;
    EightMore(block, 56, 0x06CC5E8A, 0x5B0D97AA, 0x7D632DD0, 0x3BFA2C27,
              0x7F81CC35, 0x094454AB, 0x4F9DBE3F, 0x7327D604,
              0x310ADE8F, 0x624D8CB2, 0xE484B9D8, 0xC08226B3);
  }

  ghost predicate IsEmptyBlock(block: seq<byte>)
  {
    |block| == 64 && block[0] == 0x80 && forall i :: 1 <= i < 64 ==> block[i] == 0
  }

  lemma EmptyWords(block: seq<byte>)
    requires IsEmptyBlock(block)
    ensures |block| == 64 && Word(block, 0) == 0x80 && forall k :: 1 <= k < 16 ==> Word(block, k) == 0
  {
  }

  ghost predicate IsAbcBlock(block: seq<byte>)
  {
    |block| == 64 && block[0] == 0x61 && block[1] == 0x62 && block[2] == 0x63 && block[3] == 0x80 && block[56] == 24
    && forall i :: 4 <= i < 64 && i != 56 ==> block[i] == 0
  }

  lemma AbcWords(block: seq<byte>)
    requires IsAbcBlock(block)
    ensures |block| == 64 && Word(block, 0) == 0x80636261 && Word(block, 14) == 24
    ensures forall k :: 1 <= k < 16 && k != 14 ==> Word(block, k) == 0
  {
  }

  lemma EmptySteps(block: seq<byte>)
    requires IsEmptyBlock(block)
    ensures |block| == 64
    ensures Steps(Initial(), block, 0, 64)
         == Registers(0x7246FAD3, 0x14E45506, 0xFF4EA3EB, 0x6E10A476)
  {
    hide Steps, IsEmptyBlock, Word;
    EmptyWords(block);
    var r := Initial();
    Empty0(block);
    Empty8(block);
    StepsJoin(r, block, 0, 8, 8);
    Empty16(block);
    StepsJoin(r, block, 0, 16, 8);
    Empty24(block);
    StepsJoin(r, block, 0, 24, 8);
    Empty32(block);
    StepsJoin(r, block, 0, 32, 8);
    Empty40(block);
    StepsJoin(r, block, 0, 40, 8);
    Empty48(block);
    StepsJoin(r, block, 0, 48, 8);
    Empty56(block);
    StepsJoin(r, block, 0, 56, 8);
  }

  lemma EmptyPadded()
    ensures IsEmptyBlock(Padded([]))
  {
    hide Padded;
    ShortPadded([]);
  }

  lemma EmptyBytes()
    ensures var r := Registers(0xD98C1DD4, 0x04B2008F, 0x980980E9, 0x7E42F8EC);
      && HashByte(r, 0) == 0xD4 && HashByte(r, 1) == 0x1D && HashByte(r, 2) == 0x8C && HashByte(r, 3) == 0xD9
      && HashByte(r, 4) == 0x8F && HashByte(r, 5) == 0x00 && HashByte(r, 6) == 0xB2 && HashByte(r, 7) == 0x04
      && HashByte(r, 8) == 0xE9 && HashByte(r, 9) == 0x80 && HashByte(r, 10) == 0x09 && HashByte(r, 11) == 0x98
      && HashByte(r, 12) == 0xEC && HashByte(r, 13) == 0xF8 && HashByte(r, 14) == 0x42 && HashByte(r, 15) == 0x7E
  {
  }

  lemma EmptyHex()
    ensures Hex(Registers(0xD98C1DD4, 0x04B2008F, 0x980980E9, 0x7E42F8EC), 16) == "d41d8cd98f00b204e9800998ecf8427e"
  {
    hide HashByte, HexByte;
    EmptyBytes();
    EmptyDigits();
    var r := Registers(0xD98C1DD4, 0x04B2008F, 0x980980E9, 0x7E42F8EC);
    assert Hex(r, 4) == "d41d8cd9";
    assert Hex(r, 8) == "d41d8cd98f00b204";
    assert Hex(r, 12) == "d41d8cd98f00b204e9800998";
    assert Hex(r, 16) == "d41d8cd98f00b204e9800998ecf8427e";
  }

  lemma EmptyDigits()
    ensures HexByte(0xD4) == "d4" && HexByte(0x1D) == "1d" && HexByte(0x8C) == "8c" && HexByte(0xD9) == "d9"
    ensures HexByte(0x8F) == "8f" && HexByte(0x00) == "00" && HexByte(0xB2) == "b2" && HexByte(0x04) == "04"
    ensures HexByte(0xE9) == "e9" && HexByte(0x80) == "80" && HexByte(0x09) == "09" && HexByte(0x98) == "98"
    ensures HexByte(0xEC) == "ec" && HexByte(0xF8) == "f8" && HexByte(0x42) == "42" && HexByte(0x7E) == "7e"
  {
  }

  /** The MD5 of the empty message. */
  lemma DigestOfEmpty()
    ensures Digest([]) == "d41d8cd98f00b204e9800998ecf8427e"
  {
    hide Steps, Hex, Padded;
    EmptyPadded();
    EmptySteps(Padded([]));
    OneBlock(Initial(), Padded([]));
    EmptyHex();
  }

  lemma AbcSteps(block: seq<byte>)
    requires IsAbcBlock(block)
    ensures |block| == 64
    ensures Steps(Initial(), block, 0, 64)
         == Registers(0x310ADE8F, 0xC08226B3, 0xE484B9D8, 0x624D8CB2)
  {
    hide Steps, IsAbcBlock, Word;
    AbcWords(block);
    var r := Initial();
    Abc0(block);
    Abc8(block);
    StepsJoin(r, block, 0, 8, 8);
    Abc16(block);
    StepsJoin(r, block, 0, 16, 8);
    Abc24(block);
    StepsJoin(r, block, 0, 24, 8);
    Abc32(block);
    StepsJoin(r, block, 0, 32, 8);
    Abc40(block);
    StepsJoin(r, block, 0, 40, 8);
    Abc48(block);
    StepsJoin(r, block, 0, 48, 8);
    Abc56(block);
    StepsJoin(r, block, 0, 56, 8);
  }

  lemma AbcPadded()
    ensures IsAbcBlock(Padded([0x61, 0x62, 0x63]))
  {
    hide Padded;
    ShortPadded([0x61, 0x62, 0x63]);
  }

  lemma AbcBytes()
    ensures var r := Registers(0x98500190, 0xB04FD23C, 0x7D3F96D6, 0x727FE128);
      && HashByte(r, 0) == 0x90 && HashByte(r, 1) == 0x01 && HashByte(r, 2) == 0x50 && HashByte(r, 3) == 0x98
      && HashByte(r, 4) == 0x3C && HashByte(r, 5) == 0xD2 && HashByte(r, 6) == 0x4F && HashByte(r, 7) == 0xB0
      && HashByte(r, 8) == 0xD6 && HashByte(r, 9) == 0x96 && HashByte(r, 10) == 0x3F && HashByte(r, 11) == 0x7D
      && HashByte(r, 12) == 0x28 && HashByte(r, 13) == 0xE1 && HashByte(r, 14) == 0x7F && HashByte(r, 15) == 0x72
  {
  }

  lemma AbcHex()
    ensures Hex(Registers(0x98500190, 0xB04FD23C, 0x7D3F96D6, 0x727FE128), 16) == "900150983cd24fb0d6963f7d28e17f72"
  {
    hide HashByte, HexByte;
    AbcBytes();
    AbcDigits();
    var r := Registers(0x98500190, 0xB04FD23C, 0x7D3F96D6, 0x727FE128);
    assert Hex(r, 4) == "90015098";
    assert Hex(r, 8) == "900150983cd24fb0";
    assert Hex(r, 12) == "900150983cd24fb0d6963f7d";
    assert Hex(r, 16) == "900150983cd24fb0d6963f7d28e17f72";
  }

  lemma AbcDigits()
    ensures HexByte(0x90) == "90" && HexByte(0x01) == "01" && HexByte(0x50) == "50" && HexByte(0x98) == "98"
    ensures HexByte(0x3C) == "3c" && HexByte(0xD2) == "d2" && HexByte(0x4F) == "4f" && HexByte(0xB0) == "b0"
    ensures HexByte(0xD6) == "d6" && HexByte(0x96) == "96" && HexByte(0x3F) == "3f" && HexByte(0x7D) == "7d"
    ensures HexByte(0x28) == "28" && HexByte(0xE1) == "e1" && HexByte(0x7F) == "7f" && HexByte(0x72) == "72"
  {
  }

  /** The MD5 of "abc". */
  lemma DigestOfAbc()
    ensures Digest([0x61, 0x62, 0x63]) == "900150983cd24fb0d6963f7d28e17f72"
  {
    hide Steps, Hex, Padded;
    AbcPadded();
    AbcSteps(Padded([0x61, 0x62, 0x63]));
    OneBlock(Initial(), Padded([0x61, 0x62, 0x63]));
    AbcHex();
  }

  /** A short message is padded to one block. */
  lemma ShortPadded(m: seq<byte>)
    requires |m| < 32
    ensures var p := Padded(m);
      && |p| == 64 && p[|m|] == 0x80 && p[56] == (8 * |m|) as byte && (forall i :: 0 <= i < |m| ==> p[i] == m[i])
      && (forall i :: |m| < i < 64 && i != 56 ==> p[i] == 0)
  {
    hide *;
    var p, zeros, length := Padded(m), Zeros(55 - |m|), LittleEndian(0, 7);
    ShortMessage(m);
    ZeroDigits(7);
    ZerosAre(55 - |m|);
    forall i | |m| < i < 56 ensures p[i] == 0 {
      assert p[i] == zeros[i - |m| - 1];
    }
    forall i | 56 < i < 64 ensures p[i] == 0 {
      assert p[i] == length[i - 57];
    }
  }

  lemma ZerosAre(n: nat)
    ensures forall k :: 0 <= k < n ==> Zeros(n)[k] == 0
  {
  }

  lemma ShortMessage(m: seq<byte>)
    requires |m| < 32
    ensures Padded(m) == m + [0x80] + Zeros(55 - |m|) + ([(8 * |m|) as byte] + LittleEndian(0, 7))
  {
    hide LittleEndian, Zeros, Length;
    ZeroCountCases(|m|);
    ShortLength(|m|);
  }

  lemma ShortLength(n: nat)
    requires n < 32
    ensures Length(n) == [(8 * n) as byte] + LittleEndian(0, 7)
  {
    hide LittleEndian;
    SmallRemainder(8 * n);
    SmallNumber(8 * n);
  }

  lemma SmallRemainder(x: nat)
    requires x < 256
    ensures x % TWO_64 == x
  {
  }

  lemma SmallNumber(x: nat)
    requires x < 256
    ensures LittleEndian(x, 8) == [x as byte] + LittleEndian(0, 7)
  {
    hide *;
    FirstDigit(x, 8);
  }

  lemma FirstDigit(x: nat, n: nat)
    requires n > 0
    ensures LittleEndian(x, n) == [(x % 256) as byte] + LittleEndian(x / 256, n - 1)
  {
  }

  lemma {:induction false} ZeroDigits(n: nat)
    ensures forall k :: 0 <= k < n ==> LittleEndian(0, n)[k] == 0
  {
    if n > 0 {
      ZeroDigits(n - 1);
    }
  }
}
