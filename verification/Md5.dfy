/** The digest of lib_app/MD5.cpp against the algorithm of RFC 1321. */
module Md5 {

  type byte = bv8

  // ---- The algorithm (RFC 1321, sections 3.3 and 3.4) ----

  datatype Registers = Registers(a: bv32, b: bv32, c: bv32, d: bv32)

  function Initial(): Registers { Registers(0x67452301, 0xEFCDAB89, 0x98BADCFE, 0x10325476) }

  /** Addition modulo 2^32. */
  function Plus(x: bv32, y: bv32): bv32 { x + y }

  function RotateLeft(x: bv32, s: bv32): bv32 requires 0 < s < 32 { (x << s) | (x >> (32 - s)) }

  /** The auxiliary function of step `i`. */
  function Auxiliary(i: nat, x: bv32, y: bv32, z: bv32): bv32
  {
    if i < 16 then (x & y) | (!x & z)
    else if i < 32 then (x & z) | (y & !z)
    else if i < 48 then x ^ y ^ z
    else y ^ (x | !z)
  }

  function WordIndex(i: nat): (k: nat)
    ensures k < 16
  {
    if i < 16 then i % 16 else if i < 32 then (5 * i + 1) % 16 else if i < 48 then (3 * i + 5) % 16 else 7 * i % 16
  }

  function Amount(i: nat): (s: bv32)
    ensures 0 < s < 32
  {
    if i < 16 then Cycle(i, 7, 12, 17, 22) else if i < 32 then Cycle(i, 5, 9, 14, 20)
    else if i < 48 then Cycle(i, 4, 11, 16, 23) else Cycle(i, 6, 10, 15, 21)
  }

  function Cycle(i: nat, s0: bv32, s1: bv32, s2: bv32, s3: bv32): bv32
  {
    if i % 4 == 0 then s0 else if i % 4 == 1 then s1 else if i % 4 == 2 then s2 else s3
  }

  /** The integer part of 4294967296 times abs(sin(i + 1)). */
  function Sine(i: nat): bv32
  {
    if i < 16 then (if i < 8 then Sine0(i) else Sine8(i))
    else if i < 32 then (if i < 24 then Sine16(i) else Sine24(i))
    else if i < 48 then (if i < 40 then Sine32(i) else Sine40(i))
    else if i < 56 then Sine48(i) else Sine56(i)
  }

  function Sine0(i: nat): bv32
  {
    match i
    case 0 => 0xD76AA478 case 1 => 0xE8C7B756 case 2 => 0x242070DB case 3 => 0xC1BDCEEE
    case 4 => 0xF57C0FAF case 5 => 0x4787C62A case 6 => 0xA8304613 case _ => 0xFD469501
  }

  function Sine8(i: nat): bv32
  {
    match i
    case 8 => 0x698098D8 case 9 => 0x8B44F7AF case 10 => 0xFFFF5BB1 case 11 => 0x895CD7BE
    case 12 => 0x6B901122 case 13 => 0xFD987193 case 14 => 0xA679438E case _ => 0x49B40821
  }

  function Sine16(i: nat): bv32
  {
    match i
    case 16 => 0xF61E2562 case 17 => 0xC040B340 case 18 => 0x265E5A51 case 19 => 0xE9B6C7AA
    case 20 => 0xD62F105D case 21 => 0x02441453 case 22 => 0xD8A1E681 case _ => 0xE7D3FBC8
  }

  function Sine24(i: nat): bv32
  {
    match i
    case 24 => 0x21E1CDE6 case 25 => 0xC33707D6 case 26 => 0xF4D50D87 case 27 => 0x455A14ED
    case 28 => 0xA9E3E905 case 29 => 0xFCEFA3F8 case 30 => 0x676F02D9 case _ => 0x8D2A4C8A
  }

  function Sine32(i: nat): bv32
  {
    match i
    case 32 => 0xFFFA3942 case 33 => 0x8771F681 case 34 => 0x6D9D6122 case 35 => 0xFDE5380C
    case 36 => 0xA4BEEA44 case 37 => 0x4BDECFA9 case 38 => 0xF6BB4B60 case _ => 0xBEBFBC70
  }

  function Sine40(i: nat): bv32
  {
    match i
    case 40 => 0x289B7EC6 case 41 => 0xEAA127FA case 42 => 0xD4EF3085 case 43 => 0x04881D05
    case 44 => 0xD9D4D039 case 45 => 0xE6DB99E5 case 46 => 0x1FA27CF8 case _ => 0xC4AC5665
  }

  function Sine48(i: nat): bv32
  {
    match i
    case 48 => 0xF4292244 case 49 => 0x432AFF97 case 50 => 0xAB9423A7 case 51 => 0xFC93A039
    case 52 => 0x655B59C3 case 53 => 0x8F0CCC92 case 54 => 0xFFEFF47D case _ => 0x85845DD1
  }

  function Sine56(i: nat): bv32
  {
    match i
    case 56 => 0x6FA87E4F case 57 => 0xFE2CE6E0 case 58 => 0xA3014314 case 59 => 0x4E0811A1
    case 60 => 0xF7537E82 case 61 => 0xBD3AF235 case 62 => 0x2AD7D2BB case _ => 0xEB86D391
  }

  /** Word `k` of a block, low-order byte first. */
  function Word(block: seq<byte>, k: nat): bv32
    requires |block| == 64 && k < 16
  {
    (block[4 * k] as bv32) | (block[4 * k + 1] as bv32 << 8)
    | (block[4 * k + 2] as bv32 << 16) | (block[4 * k + 3] as bv32 << 24)
  }

  function Operation(x: bv32, old_: bv32, mixed: bv32, word: bv32, constant: bv32, s: bv32): bv32
    requires 0 < s < 32
  {
    Plus(x, RotateLeft(Plus(Plus(Plus(old_, mixed), word), constant), s))
  }

  /** Step `i`, after which the registers change places. */
  function Step(r: Registers, block: seq<byte>, i: nat): Registers
    requires |block| == 64
  {
    var mixed := Auxiliary(i, r.b, r.c, r.d);
    Registers(r.d, Operation(r.b, r.a, mixed, Word(block, WordIndex(i)), Sine(i), Amount(i)), r.b, r.c)
  }

  function Steps(r: Registers, block: seq<byte>, i: nat, n: nat): Registers
    requires |block| == 64
    decreases |block|, n
  {
    if n == 0 then r else Steps(Step(r, block, i), block, i + 1, n - 1)
  }

  function Add(r: Registers, s: Registers): Registers
  {
    Registers(Plus(r.a, s.a), Plus(r.b, s.b), Plus(r.c, s.c), Plus(r.d, s.d))
  }

  function Compress(r: Registers, block: seq<byte>): Registers
    requires |block| == 64
  {
    Add(r, Steps(r, block, 0, 64))
  }

  // ---- The unrolled block function ----

  function F(x: bv32, y: bv32, z: bv32): bv32 { z ^ (x & (y ^ z)) }
  function G(x: bv32, y: bv32, z: bv32): bv32 { y ^ (z & (x ^ y)) }
  function H(x: bv32, y: bv32, z: bv32): bv32 { x ^ y ^ z }
  function I(x: bv32, y: bv32, z: bv32): bv32 { y ^ (x | !z) }

  lemma SameFunctions(x: bv32, y: bv32, z: bv32)
    ensures F(x, y, z) == (x & y) | (!x & z)
    ensures G(x, y, z) == (x & z) | (y & !z)
  {
  }

  /** In each round the auxiliary function of the steps is the one the block function uses. */
  lemma RoundFunction(i: nat, x: bv32, y: bv32, z: bv32)
    ensures Auxiliary(i, x, y, z)
         == if i < 16 then F(x, y, z) else if i < 32 then G(x, y, z) else if i < 48 then H(x, y, z) else I(x, y, z)
  {
    hide F, G;
    SameFunctions(x, y, z);
  }

  /** Four steps bring every register back to its place. */
  lemma FourSteps(r: Registers, block: seq<byte>, i: nat) returns (s: Registers)
    requires |block| == 64
    ensures s == Steps(r, block, i, 4)
    ensures s.a == Operation(r.b, r.a, Auxiliary(i, r.b, r.c, r.d), Word(block, WordIndex(i)),
                             Sine(i), Amount(i))
    ensures s.d == Operation(s.a, r.d, Auxiliary(i + 1, s.a, r.b, r.c), Word(block, WordIndex(i + 1)),
                             Sine(i + 1), Amount(i + 1))
    ensures s.c == Operation(s.d, r.c, Auxiliary(i + 2, s.d, s.a, r.b), Word(block, WordIndex(i + 2)),
                             Sine(i + 2), Amount(i + 2))
    ensures s.b == Operation(s.c, r.b, Auxiliary(i + 3, s.c, s.d, s.a), Word(block, WordIndex(i + 3)),
                             Sine(i + 3), Amount(i + 3))
  {
    hide Operation, Auxiliary, Word, WordIndex, Sine, Amount;
    var r1 := Step(r, block, i);
    var r2 := Step(r1, block, i + 1);
    var r3 := Step(r2, block, i + 2);
    s := Step(r3, block, i + 3);
    assert Steps(s, block, i + 4, 0) == s;
    assert Steps(r3, block, i + 3, 1) == s;
    assert Steps(r2, block, i + 2, 2) == s;
    assert Steps(r1, block, i + 1, 3) == s;
  }

  lemma {:induction false} StepsJoin(r: Registers, block: seq<byte>, i: nat, m: nat, n: nat)
    requires |block| == 64
    ensures Steps(Steps(r, block, i, m), block, i + m, n) == Steps(r, block, i, m + n)
    decreases m
  {
    hide Step;
    if m > 0 {
      StepsJoin(Step(r, block, i), block, i + 1, m - 1, n);
    }
  }

  /** Step `i` takes word `k`, constant `c` and rotation `s`. */
  predicate Planned(i: nat, k: nat, c: bv32, s: bv32) { WordIndex(i) == k && Sine(i) == c && Amount(i) == s }

  lemma FirstRoundPlan()
    ensures Planned(0, 0, 0xD76AA478, 7) && Planned(1, 1, 0xE8C7B756, 12)
    ensures Planned(2, 2, 0x242070DB, 17) && Planned(3, 3, 0xC1BDCEEE, 22)
    ensures Planned(4, 4, 0xF57C0FAF, 7) && Planned(5, 5, 0x4787C62A, 12)
    ensures Planned(6, 6, 0xA8304613, 17) && Planned(7, 7, 0xFD469501, 22)
    ensures Planned(8, 8, 0x698098D8, 7) && Planned(9, 9, 0x8B44F7AF, 12)
    ensures Planned(10, 10, 0xFFFF5BB1, 17) && Planned(11, 11, 0x895CD7BE, 22)
    ensures Planned(12, 12, 0x6B901122, 7) && Planned(13, 13, 0xFD987193, 12)
    ensures Planned(14, 14, 0xA679438E, 17) && Planned(15, 15, 0x49B40821, 22)
  {
  }

  method FirstRound(r: Registers, block: seq<byte>) returns (s: Registers)
    requires |block| == 64
    ensures s == Steps(r, block, 0, 16)
  {
    hide Operation, Word, F, G, H, I, Auxiliary, Steps, WordIndex, Sine, Amount;
    FirstRoundPlan();
    var a, b, c, d := r.a, r.b, r.c, r.d;
    a := Operation(b, a, F(b, c, d), Word(block, 0), 0xD76AA478, 7);
    d := Operation(a, d, F(a, b, c), Word(block, 1), 0xE8C7B756, 12);
    c := Operation(d, c, F(d, a, b), Word(block, 2), 0x242070DB, 17);
    b := Operation(c, b, F(c, d, a), Word(block, 3), 0xC1BDCEEE, 22);
    ghost var q0 := FourSteps(r, block, 0);
    assert Registers(a, b, c, d) == q0 by {
      RoundFunction(0, r.b, r.c, r.d);
      RoundFunction(1, q0.a, r.b, r.c);
      RoundFunction(2, q0.d, q0.a, r.b);
      RoundFunction(3, q0.c, q0.d, q0.a);
    }
    a := Operation(b, a, F(b, c, d), Word(block, 4), 0xF57C0FAF, 7);
    d := Operation(a, d, F(a, b, c), Word(block, 5), 0x4787C62A, 12);
    c := Operation(d, c, F(d, a, b), Word(block, 6), 0xA8304613, 17);
    b := Operation(c, b, F(c, d, a), Word(block, 7), 0xFD469501, 22);
    ghost var q4 := FourSteps(q0, block, 4);
    assert Registers(a, b, c, d) == q4 by {
      RoundFunction(4, q0.b, q0.c, q0.d);
      RoundFunction(5, q4.a, q0.b, q0.c);
      RoundFunction(6, q4.d, q4.a, q0.b);
      RoundFunction(7, q4.c, q4.d, q4.a);
    }
    a := Operation(b, a, F(b, c, d), Word(block, 8), 0x698098D8, 7);
    d := Operation(a, d, F(a, b, c), Word(block, 9), 0x8B44F7AF, 12);
    c := Operation(d, c, F(d, a, b), Word(block, 10), 0xFFFF5BB1, 17);
    b := Operation(c, b, F(c, d, a), Word(block, 11), 0x895CD7BE, 22);
    ghost var q8 := FourSteps(q4, block, 8);
    assert Registers(a, b, c, d) == q8 by {
      RoundFunction(8, q4.b, q4.c, q4.d);
      RoundFunction(9, q8.a, q4.b, q4.c);
      RoundFunction(10, q8.d, q8.a, q4.b);
      RoundFunction(11, q8.c, q8.d, q8.a);
    }
    a := Operation(b, a, F(b, c, d), Word(block, 12), 0x6B901122, 7);
    d := Operation(a, d, F(a, b, c), Word(block, 13), 0xFD987193, 12);
    c := Operation(d, c, F(d, a, b), Word(block, 14), 0xA679438E, 17);
    b := Operation(c, b, F(c, d, a), Word(block, 15), 0x49B40821, 22);
    ghost var q12 := FourSteps(q8, block, 12);
    assert Registers(a, b, c, d) == q12 by {
      RoundFunction(12, q8.b, q8.c, q8.d);
      RoundFunction(13, q12.a, q8.b, q8.c);
      RoundFunction(14, q12.d, q12.a, q8.b);
      RoundFunction(15, q12.c, q12.d, q12.a);
    }
    SixteenSteps(r, block, 0);
    s := Registers(a, b, c, d);
  }

  lemma SecondRoundPlan()
    ensures Planned(16, 1, 0xF61E2562, 5) && Planned(17, 6, 0xC040B340, 9)
    ensures Planned(18, 11, 0x265E5A51, 14) && Planned(19, 0, 0xE9B6C7AA, 20)
    ensures Planned(20, 5, 0xD62F105D, 5) && Planned(21, 10, 0x02441453, 9)
    ensures Planned(22, 15, 0xD8A1E681, 14) && Planned(23, 4, 0xE7D3FBC8, 20)
    ensures Planned(24, 9, 0x21E1CDE6, 5) && Planned(25, 14, 0xC33707D6, 9)
    ensures Planned(26, 3, 0xF4D50D87, 14) && Planned(27, 8, 0x455A14ED, 20)
    ensures Planned(28, 13, 0xA9E3E905, 5) && Planned(29, 2, 0xFCEFA3F8, 9)
    ensures Planned(30, 7, 0x676F02D9, 14) && Planned(31, 12, 0x8D2A4C8A, 20)
  {
    SecondRoundWords();
    SecondRoundConstants();
    hide WordIndex, Sine;
  }

  lemma SecondRoundWords()
    ensures WordIndex(16) == 1 && WordIndex(17) == 6 && WordIndex(18) == 11 && WordIndex(19) == 0
    ensures WordIndex(20) == 5 && WordIndex(21) == 10 && WordIndex(22) == 15 && WordIndex(23) == 4
    ensures WordIndex(24) == 9 && WordIndex(25) == 14 && WordIndex(26) == 3 && WordIndex(27) == 8
    ensures WordIndex(28) == 13 && WordIndex(29) == 2 && WordIndex(30) == 7 && WordIndex(31) == 12
  {
  }

  lemma SecondRoundConstants()
    ensures Sine(16) == 0xF61E2562 && Sine(17) == 0xC040B340 && Sine(18) == 0x265E5A51
    ensures Sine(19) == 0xE9B6C7AA && Sine(20) == 0xD62F105D && Sine(21) == 0x02441453
    ensures Sine(22) == 0xD8A1E681 && Sine(23) == 0xE7D3FBC8 && Sine(24) == 0x21E1CDE6
    ensures Sine(25) == 0xC33707D6 && Sine(26) == 0xF4D50D87 && Sine(27) == 0x455A14ED
    ensures Sine(28) == 0xA9E3E905 && Sine(29) == 0xFCEFA3F8 && Sine(30) == 0x676F02D9
    ensures Sine(31) == 0x8D2A4C8A
  {
  }

  method SecondRound(r: Registers, block: seq<byte>) returns (s: Registers)
    requires |block| == 64
    ensures s == Steps(r, block, 16, 16)
  {
    hide Operation, Word, F, G, H, I, Auxiliary, Steps, WordIndex, Sine, Amount;
    SecondRoundPlan();
    var a, b, c, d := r.a, r.b, r.c, r.d;
    a := Operation(b, a, G(b, c, d), Word(block, 1), 0xF61E2562, 5);
    d := Operation(a, d, G(a, b, c), Word(block, 6), 0xC040B340, 9);
    c := Operation(d, c, G(d, a, b), Word(block, 11), 0x265E5A51, 14);
    b := Operation(c, b, G(c, d, a), Word(block, 0), 0xE9B6C7AA, 20);
    ghost var q16 := FourSteps(r, block, 16);
    assert Registers(a, b, c, d) == q16 by {
      RoundFunction(16, r.b, r.c, r.d);
      RoundFunction(17, q16.a, r.b, r.c);
      RoundFunction(18, q16.d, q16.a, r.b);
      RoundFunction(19, q16.c, q16.d, q16.a);
    }
    a := Operation(b, a, G(b, c, d), Word(block, 5), 0xD62F105D, 5);
    d := Operation(a, d, G(a, b, c), Word(block, 10), 0x02441453, 9);
    c := Operation(d, c, G(d, a, b), Word(block, 15), 0xD8A1E681, 14);
    b := Operation(c, b, G(c, d, a), Word(block, 4), 0xE7D3FBC8, 20);
    ghost var q20 := FourSteps(q16, block, 20);
    assert Registers(a, b, c, d) == q20 by {
      RoundFunction(20, q16.b, q16.c, q16.d);
      RoundFunction(21, q20.a, q16.b, q16.c);
      RoundFunction(22, q20.d, q20.a, q16.b);
      RoundFunction(23, q20.c, q20.d, q20.a);
    }
    a := Operation(b, a, G(b, c, d), Word(block, 9), 0x21E1CDE6, 5);
    d := Operation(a, d, G(a, b, c), Word(block, 14), 0xC33707D6, 9);
    c := Operation(d, c, G(d, a, b), Word(block, 3), 0xF4D50D87, 14);
    b := Operation(c, b, G(c, d, a), Word(block, 8), 0x455A14ED, 20);
    ghost var q24 := FourSteps(q20, block, 24);
    assert Registers(a, b, c, d) == q24 by {
      RoundFunction(24, q20.b, q20.c, q20.d);
      RoundFunction(25, q24.a, q20.b, q20.c);
      RoundFunction(26, q24.d, q24.a, q20.b);
      RoundFunction(27, q24.c, q24.d, q24.a);
    }
    a := Operation(b, a, G(b, c, d), Word(block, 13), 0xA9E3E905, 5);
    d := Operation(a, d, G(a, b, c), Word(block, 2), 0xFCEFA3F8, 9);
    c := Operation(d, c, G(d, a, b), Word(block, 7), 0x676F02D9, 14);
    b := Operation(c, b, G(c, d, a), Word(block, 12), 0x8D2A4C8A, 20);
    ghost var q28 := FourSteps(q24, block, 28);
    assert Registers(a, b, c, d) == q28 by {
      RoundFunction(28, q24.b, q24.c, q24.d);
      RoundFunction(29, q28.a, q24.b, q24.c);
      RoundFunction(30, q28.d, q28.a, q24.b);
      RoundFunction(31, q28.c, q28.d, q28.a);
    }
    SixteenSteps(r, block, 16);
    s := Registers(a, b, c, d);
  }

  lemma ThirdRoundPlan()
    ensures Planned(32, 5, 0xFFFA3942, 4) && Planned(33, 8, 0x8771F681, 11)
    ensures Planned(34, 11, 0x6D9D6122, 16) && Planned(35, 14, 0xFDE5380C, 23)
    ensures Planned(36, 1, 0xA4BEEA44, 4) && Planned(37, 4, 0x4BDECFA9, 11)
    ensures Planned(38, 7, 0xF6BB4B60, 16) && Planned(39, 10, 0xBEBFBC70, 23)
    ensures Planned(40, 13, 0x289B7EC6, 4) && Planned(41, 0, 0xEAA127FA, 11)
    ensures Planned(42, 3, 0xD4EF3085, 16) && Planned(43, 6, 0x04881D05, 23)
    ensures Planned(44, 9, 0xD9D4D039, 4) && Planned(45, 12, 0xE6DB99E5, 11)
    ensures Planned(46, 15, 0x1FA27CF8, 16) && Planned(47, 2, 0xC4AC5665, 23)
  {
    ThirdRoundWords();
    ThirdRoundConstants();
    hide WordIndex, Sine;
  }

  lemma ThirdRoundWords()
    ensures WordIndex(32) == 5 && WordIndex(33) == 8 && WordIndex(34) == 11 && WordIndex(35) == 14
    ensures WordIndex(36) == 1 && WordIndex(37) == 4 && WordIndex(38) == 7 && WordIndex(39) == 10
    ensures WordIndex(40) == 13 && WordIndex(41) == 0 && WordIndex(42) == 3 && WordIndex(43) == 6
    ensures WordIndex(44) == 9 && WordIndex(45) == 12 && WordIndex(46) == 15 && WordIndex(47) == 2
  {
  }

  lemma ThirdRoundConstants()
    ensures Sine(32) == 0xFFFA3942 && Sine(33) == 0x8771F681 && Sine(34) == 0x6D9D6122
    ensures Sine(35) == 0xFDE5380C && Sine(36) == 0xA4BEEA44 && Sine(37) == 0x4BDECFA9
    ensures Sine(38) == 0xF6BB4B60 && Sine(39) == 0xBEBFBC70 && Sine(40) == 0x289B7EC6
    ensures Sine(41) == 0xEAA127FA && Sine(42) == 0xD4EF3085 && Sine(43) == 0x04881D05
    ensures Sine(44) == 0xD9D4D039 && Sine(45) == 0xE6DB99E5 && Sine(46) == 0x1FA27CF8
    ensures Sine(47) == 0xC4AC5665
  {
  }

  method ThirdRound(r: Registers, block: seq<byte>) returns (s: Registers)
    requires |block| == 64
    ensures s == Steps(r, block, 32, 16)
  {
    hide Operation, Word, F, G, H, I, Auxiliary, Steps, WordIndex, Sine, Amount;
    ThirdRoundPlan();
    var a, b, c, d := r.a, r.b, r.c, r.d;
    a := Operation(b, a, H(b, c, d), Word(block, 5), 0xFFFA3942, 4);
    d := Operation(a, d, H(a, b, c), Word(block, 8), 0x8771F681, 11);
    c := Operation(d, c, H(d, a, b), Word(block, 11), 0x6D9D6122, 16);
    b := Operation(c, b, H(c, d, a), Word(block, 14), 0xFDE5380C, 23);
    ghost var q32 := FourSteps(r, block, 32);
    assert Registers(a, b, c, d) == q32 by {
      RoundFunction(32, r.b, r.c, r.d);
      RoundFunction(33, q32.a, r.b, r.c);
      RoundFunction(34, q32.d, q32.a, r.b);
      RoundFunction(35, q32.c, q32.d, q32.a);
    }
    a := Operation(b, a, H(b, c, d), Word(block, 1), 0xA4BEEA44, 4);
    d := Operation(a, d, H(a, b, c), Word(block, 4), 0x4BDECFA9, 11);
    c := Operation(d, c, H(d, a, b), Word(block, 7), 0xF6BB4B60, 16);
    b := Operation(c, b, H(c, d, a), Word(block, 10), 0xBEBFBC70, 23);
    ghost var q36 := FourSteps(q32, block, 36);
    assert Registers(a, b, c, d) == q36 by {
      RoundFunction(36, q32.b, q32.c, q32.d);
      RoundFunction(37, q36.a, q32.b, q32.c);
      RoundFunction(38, q36.d, q36.a, q32.b);
      RoundFunction(39, q36.c, q36.d, q36.a);
    }
    a := Operation(b, a, H(b, c, d), Word(block, 13), 0x289B7EC6, 4);
    d := Operation(a, d, H(a, b, c), Word(block, 0), 0xEAA127FA, 11);
    c := Operation(d, c, H(d, a, b), Word(block, 3), 0xD4EF3085, 16);
    b := Operation(c, b, H(c, d, a), Word(block, 6), 0x04881D05, 23);
    ghost var q40 := FourSteps(q36, block, 40);
    assert Registers(a, b, c, d) == q40 by {
      RoundFunction(40, q36.b, q36.c, q36.d);
      RoundFunction(41, q40.a, q36.b, q36.c);
      RoundFunction(42, q40.d, q40.a, q36.b);
      RoundFunction(43, q40.c, q40.d, q40.a);
    }
    a := Operation(b, a, H(b, c, d), Word(block, 9), 0xD9D4D039, 4);
    d := Operation(a, d, H(a, b, c), Word(block, 12), 0xE6DB99E5, 11);
    c := Operation(d, c, H(d, a, b), Word(block, 15), 0x1FA27CF8, 16);
    b := Operation(c, b, H(c, d, a), Word(block, 2), 0xC4AC5665, 23);
    ghost var q44 := FourSteps(q40, block, 44);
    assert Registers(a, b, c, d) == q44 by {
      RoundFunction(44, q40.b, q40.c, q40.d);
      RoundFunction(45, q44.a, q40.b, q40.c);
      RoundFunction(46, q44.d, q44.a, q40.b);
      RoundFunction(47, q44.c, q44.d, q44.a);
    }
    SixteenSteps(r, block, 32);
    s := Registers(a, b, c, d);
  }

  lemma FourthRoundPlan()
    ensures Planned(48, 0, 0xF4292244, 6) && Planned(49, 7, 0x432AFF97, 10)
    ensures Planned(50, 14, 0xAB9423A7, 15) && Planned(51, 5, 0xFC93A039, 21)
    ensures Planned(52, 12, 0x655B59C3, 6) && Planned(53, 3, 0x8F0CCC92, 10)
    ensures Planned(54, 10, 0xFFEFF47D, 15) && Planned(55, 1, 0x85845DD1, 21)
    ensures Planned(56, 8, 0x6FA87E4F, 6) && Planned(57, 15, 0xFE2CE6E0, 10)
    ensures Planned(58, 6, 0xA3014314, 15) && Planned(59, 13, 0x4E0811A1, 21)
    ensures Planned(60, 4, 0xF7537E82, 6) && Planned(61, 11, 0xBD3AF235, 10)
    ensures Planned(62, 2, 0x2AD7D2BB, 15) && Planned(63, 9, 0xEB86D391, 21)
  {
    FourthRoundWords();
    FourthRoundConstants();
    hide WordIndex, Sine;
  }

  lemma FourthRoundWords()
    ensures WordIndex(48) == 0 && WordIndex(49) == 7 && WordIndex(50) == 14 && WordIndex(51) == 5
    ensures WordIndex(52) == 12 && WordIndex(53) == 3 && WordIndex(54) == 10 && WordIndex(55) == 1
    ensures WordIndex(56) == 8 && WordIndex(57) == 15 && WordIndex(58) == 6 && WordIndex(59) == 13
    ensures WordIndex(60) == 4 && WordIndex(61) == 11 && WordIndex(62) == 2 && WordIndex(63) == 9
  {
  }

  lemma FourthRoundConstants()
    ensures Sine(48) == 0xF4292244 && Sine(49) == 0x432AFF97 && Sine(50) == 0xAB9423A7
    ensures Sine(51) == 0xFC93A039 && Sine(52) == 0x655B59C3 && Sine(53) == 0x8F0CCC92
    ensures Sine(54) == 0xFFEFF47D && Sine(55) == 0x85845DD1 && Sine(56) == 0x6FA87E4F
    ensures Sine(57) == 0xFE2CE6E0 && Sine(58) == 0xA3014314 && Sine(59) == 0x4E0811A1
    ensures Sine(60) == 0xF7537E82 && Sine(61) == 0xBD3AF235 && Sine(62) == 0x2AD7D2BB
    ensures Sine(63) == 0xEB86D391
  {
  }

  method FourthRound(r: Registers, block: seq<byte>) returns (s: Registers)
    requires |block| == 64
    ensures s == Steps(r, block, 48, 16)
  {
    hide Operation, Word, F, G, H, I, Auxiliary, Steps, WordIndex, Sine, Amount;
    FourthRoundPlan();
    var a, b, c, d := r.a, r.b, r.c, r.d;
    a := Operation(b, a, I(b, c, d), Word(block, 0), 0xF4292244, 6);
    d := Operation(a, d, I(a, b, c), Word(block, 7), 0x432AFF97, 10);
    c := Operation(d, c, I(d, a, b), Word(block, 14), 0xAB9423A7, 15);
    b := Operation(c, b, I(c, d, a), Word(block, 5), 0xFC93A039, 21);
    ghost var q48 := FourSteps(r, block, 48);
    assert Registers(a, b, c, d) == q48 by {
      RoundFunction(48, r.b, r.c, r.d);
      RoundFunction(49, q48.a, r.b, r.c);
      RoundFunction(50, q48.d, q48.a, r.b);
      RoundFunction(51, q48.c, q48.d, q48.a);
    }
    a := Operation(b, a, I(b, c, d), Word(block, 12), 0x655B59C3, 6);
    d := Operation(a, d, I(a, b, c), Word(block, 3), 0x8F0CCC92, 10);
    c := Operation(d, c, I(d, a, b), Word(block, 10), 0xFFEFF47D, 15);
    b := Operation(c, b, I(c, d, a), Word(block, 1), 0x85845DD1, 21);
    ghost var q52 := FourSteps(q48, block, 52);
    assert Registers(a, b, c, d) == q52 by {
      RoundFunction(52, q48.b, q48.c, q48.d);
      RoundFunction(53, q52.a, q48.b, q48.c);
      RoundFunction(54, q52.d, q52.a, q48.b);
      RoundFunction(55, q52.c, q52.d, q52.a);
    }
    a := Operation(b, a, I(b, c, d), Word(block, 8), 0x6FA87E4F, 6);
    d := Operation(a, d, I(a, b, c), Word(block, 15), 0xFE2CE6E0, 10);
    c := Operation(d, c, I(d, a, b), Word(block, 6), 0xA3014314, 15);
    b := Operation(c, b, I(c, d, a), Word(block, 13), 0x4E0811A1, 21);
    ghost var q56 := FourSteps(q52, block, 56);
    assert Registers(a, b, c, d) == q56 by {
      RoundFunction(56, q52.b, q52.c, q52.d);
      RoundFunction(57, q56.a, q52.b, q52.c);
      RoundFunction(58, q56.d, q56.a, q52.b);
      RoundFunction(59, q56.c, q56.d, q56.a);
    }
    a := Operation(b, a, I(b, c, d), Word(block, 4), 0xF7537E82, 6);
    d := Operation(a, d, I(a, b, c), Word(block, 11), 0xBD3AF235, 10);
    c := Operation(d, c, I(d, a, b), Word(block, 2), 0x2AD7D2BB, 15);
    b := Operation(c, b, I(c, d, a), Word(block, 9), 0xEB86D391, 21);
    ghost var q60 := FourSteps(q56, block, 60);
    assert Registers(a, b, c, d) == q60 by {
      RoundFunction(60, q56.b, q56.c, q56.d);
      RoundFunction(61, q60.a, q56.b, q56.c);
      RoundFunction(62, q60.d, q60.a, q56.b);
      RoundFunction(63, q60.c, q60.d, q60.a);
    }
    SixteenSteps(r, block, 48);
    s := Registers(a, b, c, d);
  }

  lemma SixteenSteps(r: Registers, block: seq<byte>, i: nat)
    requires |block| == 64
    ensures Steps(Steps(Steps(Steps(r, block, i, 4), block, i + 4, 4), block, i + 8, 4), block, i + 12, 4)
         == Steps(r, block, i, 16)
  {
    hide Steps;
    StepsJoin(r, block, i, 4, 4);
    StepsJoin(r, block, i, 8, 4);
    StepsJoin(r, block, i, 12, 4);
  }

  method UpdateBlock(r: Registers, block: seq<byte>) returns (s: Registers)
    requires |block| == 64
    ensures s == Compress(r, block)
  {
    hide Steps, Add;
    var t := FirstRound(r, block);
    t := SecondRound(t, block);
    StepsJoin(r, block, 0, 16, 16);
    t := ThirdRound(t, block);
    StepsJoin(r, block, 0, 32, 16);
    t := FourthRound(t, block);
    StepsJoin(r, block, 0, 48, 16);
    s := Add(r, t);
  }
}
