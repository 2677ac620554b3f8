/** The block function of RFC 1321 stated a second time, on integers modulo 2^32: addition is addition, a rotation is a
    product and a quotient, a word is a sum of bytes times powers of 256, and the auxiliary functions act bit by bit. */
module Md5Rfc {
  import opened Bits
  import opened WordNumbers
  import opened Md5
  import opened Md5Digest

  datatype Words = Words(a: nat, b: nat, c: nat, d: nat)

  /** Section 3.4: what the auxiliary function of step `i` makes of three bits. */
  function BitFunction(i: nat, x: nat, y: nat, z: nat): nat
    requires y <= 1
  {
    if i < 16 then (if x == 1 then y else z)
    else if i < 32 then (if z == 1 then x else y)
    else if i < 48 then (x + y + z) % 2
    else if x == 1 || z == 0 then 1 - y else y
  }

  function Bitwise(i: nat, x: nat, y: nat, z: nat, n: nat): nat
  {
    if n == 0 then 0 else 2 * Bitwise(i, x / 2, y / 2, z / 2, n - 1) + BitFunction(i, x % 2, y % 2, z % 2)
  }

  function ByteValue(b: byte): nat { b as nat }

  function WordOf(block: seq<byte>, k: nat): nat
    requires |block| == 64 && k < 16
  {
    ByteValue(block[4 * k]) + 0x100 * ByteValue(block[4 * k + 1]) + 0x1_0000 * ByteValue(block[4 * k + 2])
    + 0x100_0000 * ByteValue(block[4 * k + 3])
  }

  /** The rotation of step `i`: four amounts in turn in every round. */
  function Shift(i: nat): (s: nat)
    ensures 4 <= s <= 23
  {
    match (if i < 16 then 0 else if i < 32 then 1 else if i < 48 then 2 else 3, i % 4)
    case (0, k) => 7 + 5 * k
    case (1, k) => if k == 0 then 5 else if k == 1 then 9 else if k == 2 then 14 else 20
    case (2, k) => if k == 0 then 4 else if k == 1 then 11 else if k == 2 then 16 else 23
    case (_, k) => if k == 0 then 6 else if k == 1 then 10 else if k == 2 then 15 else 21
  }

  /** a = b + ((a + f(b, c, d) + X[k] + T[i]) <<< s), after which the registers change places. */
  function RfcStep(r: Words, block: seq<byte>, i: nat): Words
    requires |block| == 64
  {
    var sum := r.a + Bitwise(i, r.b, r.c, r.d, 32) + WordOf(block, WordIndex(i)) + Number(Sine(i), 32);
    Words(r.d, (r.b + Rotated(sum % TWO_32, Shift(i))) % TWO_32, r.b, r.c)
  }

  function RfcSteps(r: Words, block: seq<byte>, i: nat, n: nat): Words
    requires |block| == 64
    decreases n
  {
    if n == 0 then r else RfcSteps(RfcStep(r, block, i), block, i + 1, n - 1)
  }

  function RfcCompress(r: Words, block: seq<byte>): Words
    requires |block| == 64
  {
    AddWords(r, RfcSteps(r, block, 0, 64))
  }

  function AddWords(r: Words, s: Words): Words
  {
    Words((r.a + s.a) % TWO_32, (r.b + s.b) % TWO_32, (r.c + s.c) % TWO_32, (r.d + s.d) % TWO_32)
  }

  function Numbers(r: Registers): Words
  {
    Words(Number(r.a, 32), Number(r.b, 32), Number(r.c, 32), Number(r.d, 32))
  }

  // ---- Rotations ----

  /** The amount `s` is the number `n`. */
  predicate IsAmount(s: bv32, n: nat) { if n == 0 then s == 0 else 0 < s < 32 && IsAmount(s - 1, n - 1) }

  lemma AmountIsShift(i: nat)
    ensures IsAmount(Amount(i), Shift(i))
  {
    SmallAmounts();
    LargeAmounts();
    hide IsAmount;
  }

  lemma SmallAmounts()
    ensures IsAmount(4, 4) && IsAmount(5, 5) && IsAmount(6, 6) && IsAmount(7, 7) && IsAmount(9, 9)
    ensures IsAmount(10, 10) && IsAmount(11, 11) && IsAmount(12, 12)
  {
    assert IsAmount(3, 3) && IsAmount(6, 6) && IsAmount(9, 9);
  }

  lemma LargeAmounts()
    ensures IsAmount(14, 14) && IsAmount(15, 15) && IsAmount(16, 16) && IsAmount(17, 17) && IsAmount(20, 20)
    ensures IsAmount(21, 21) && IsAmount(22, 22) && IsAmount(23, 23)
  {
    SmallAmounts();
    assert IsAmount(18, 18);
  }

  lemma OneFurther(x: bv32, s: bv32)
    requires 0 < s < 23
    ensures RotateLeft(x, s + 1) == RotatedOnce(RotateLeft(x, s))
  {
    hide RotateLeft, RotatedOnce;
    From1(x); From2(x); From3(x); From4(x);
    From5(x); From6(x); From7(x); From8(x);
    From9(x); From10(x); From11(x); From12(x);
    From13(x); From14(x); From15(x); From16(x);
    From17(x); From18(x); From19(x); From20(x);
    From21(x); From22(x);
  }

  lemma From1(x: bv32) ensures RotateLeft(x, 2) == RotatedOnce(RotateLeft(x, 1)) {}
  lemma From2(x: bv32) ensures RotateLeft(x, 3) == RotatedOnce(RotateLeft(x, 2)) {}
  lemma From3(x: bv32) ensures RotateLeft(x, 4) == RotatedOnce(RotateLeft(x, 3)) {}
  lemma From4(x: bv32) ensures RotateLeft(x, 5) == RotatedOnce(RotateLeft(x, 4)) {}
  lemma From5(x: bv32) ensures RotateLeft(x, 6) == RotatedOnce(RotateLeft(x, 5)) {}
  lemma From6(x: bv32) ensures RotateLeft(x, 7) == RotatedOnce(RotateLeft(x, 6)) {}
  lemma From7(x: bv32) ensures RotateLeft(x, 8) == RotatedOnce(RotateLeft(x, 7)) {}
  lemma From8(x: bv32) ensures RotateLeft(x, 9) == RotatedOnce(RotateLeft(x, 8)) {}
  lemma From9(x: bv32) ensures RotateLeft(x, 10) == RotatedOnce(RotateLeft(x, 9)) {}
  lemma From10(x: bv32) ensures RotateLeft(x, 11) == RotatedOnce(RotateLeft(x, 10)) {}
  lemma From11(x: bv32) ensures RotateLeft(x, 12) == RotatedOnce(RotateLeft(x, 11)) {}
  lemma From12(x: bv32) ensures RotateLeft(x, 13) == RotatedOnce(RotateLeft(x, 12)) {}
  lemma From13(x: bv32) ensures RotateLeft(x, 14) == RotatedOnce(RotateLeft(x, 13)) {}
  lemma From14(x: bv32) ensures RotateLeft(x, 15) == RotatedOnce(RotateLeft(x, 14)) {}
  lemma From15(x: bv32) ensures RotateLeft(x, 16) == RotatedOnce(RotateLeft(x, 15)) {}
  lemma From16(x: bv32) ensures RotateLeft(x, 17) == RotatedOnce(RotateLeft(x, 16)) {}
  lemma From17(x: bv32) ensures RotateLeft(x, 18) == RotatedOnce(RotateLeft(x, 17)) {}
  lemma From18(x: bv32) ensures RotateLeft(x, 19) == RotatedOnce(RotateLeft(x, 18)) {}
  lemma From19(x: bv32) ensures RotateLeft(x, 20) == RotatedOnce(RotateLeft(x, 19)) {}
  lemma From20(x: bv32) ensures RotateLeft(x, 21) == RotatedOnce(RotateLeft(x, 20)) {}
  lemma From21(x: bv32) ensures RotateLeft(x, 22) == RotatedOnce(RotateLeft(x, 21)) {}
  lemma From22(x: bv32) ensures RotateLeft(x, 23) == RotatedOnce(RotateLeft(x, 22)) {}

  lemma RotatedFirst(x: bv32)
    ensures RotateLeft(x, 1) == RotatedOnce(x)
  {
  }

  lemma {:induction false} Rotates(x: bv32, s: bv32, n: nat)
    requires 0 < n < 32 && 0 < s <= 23 && IsAmount(s, n)
    ensures Number(RotateLeft(x, s), 32) == Rotated(Number(x, 32), n)
    decreases n
  {
    hide Number, Rotated, RotateLeft, RotatedOnce, Pow2;
    NumberFits(x, 32);
    Pow2Of32();
    AmountBefore(s, n);
    if n == 1 {
      RotatedFirst(x);
      RotatesOnce(x);
    } else {
      Rotates(x, s - 1, n - 1);
      OneFurther(x, s - 1);
      RotatesOnce(RotateLeft(x, s - 1));
      RotatedMore(Number(x, 32), n - 1);
    }
  }

  lemma AmountBefore(s: bv32, n: nat)
    requires n > 0 && IsAmount(s, n)
    ensures n == 1 ==> s == 1
    ensures n > 1 ==> 1 < s && IsAmount(s - 1, n - 1)
  {
  }

  // ---- Words of a block ----

  function Wide(b: byte): bv32 { b as bv32 }

  lemma {:induction false} ByteNumber(b: byte, n: nat)
    requires ByteValue(b) < Pow2(n)
    ensures Number(Wide(b), n) == ByteValue(b)
    decreases n
  {
    hide Number, Half, Bit, Wide, ByteValue;
    if n == 0 {
      NoBits(Wide(b));
    } else {
      LowestBit(Wide(b), n - 1);
      HalfOfByte(b);
      ByteNumber(b >> 1, n - 1);
    }
  }

  lemma HalfOfByte(b: byte)
    ensures Half(Wide(b)) == Wide(b >> 1) && ByteValue(b) == 2 * ByteValue(b >> 1) + Bit(Wide(b))
  {
  }

  function ShiftedByte(x: bv32): bv32 { x >> 8 }

  lemma LowByte(x: bv32, n: nat)
    ensures Number(x, n + 8) == 0x100 * Number(ShiftedByte(x), n) + Number(x, 8)
  {
    DownJoinsNumber(x, n, 8);
    DownByEight(x);
    Pow2Values();
  }

  lemma {:induction false} DownJoinsNumber(x: bv32, n: nat, k: nat)
    ensures Number(x, n + k) == Pow2(k) * Number(Down(x, k), n) + Number(x, k)
    decreases k
  {
    hide Half, Bit, Number;
    if k == 0 {
      NoBits(x);
    } else {
      DownJoinsNumber(Half(x), n, k - 1);
      LowestBit(x, n + k - 1);
      LowestBit(x, k - 1);
      Double(Pow2(k - 1), Number(Down(x, k), n));
    }
  }

  lemma BytesOfWord(block: seq<byte>, k: nat)
    requires |block| == 64 && k < 16
    ensures var w := Word(block, k);
      && Agree(w, Wide(block[4 * k]), 0xFF)
      && Agree(ShiftedByte(w), Wide(block[4 * k + 1]), 0xFF)
      && Agree(ShiftedByte(ShiftedByte(w)), Wide(block[4 * k + 2]), 0xFF)
      && Agree(ShiftedByte(ShiftedByte(ShiftedByte(w))), Wide(block[4 * k + 3]), 0xFF)
  {
  }

  lemma AgreesWithByte(x: bv32, b: byte)
    requires Agree(x, Wide(b), 0xFF)
    ensures Number(x, 8) == ByteValue(b)
  {
    hide Agree, Number, Ones, Wide, ByteValue;
    SomeMasks();
    Alike(x, Wide(b), 0xFF, 8);
    Pow2Values();
    ByteFits(b);
    ByteNumber(b, 8);
  }

  lemma ByteFits(b: byte)
    ensures ByteValue(b) < 256
  {
  }

  /** The number of a word and of the word without its low-order byte. */
  lemma WithoutLowByte(x: bv32, b: byte, n: nat)
    requires Agree(x, Wide(b), 0xFF)
    ensures Number(x, n + 8) == ByteValue(b) + 0x100 * Number(ShiftedByte(x), n)
  {
    hide Agree, Number, ShiftedByte, Wide, ByteValue;
    LowByte(x, n);
    AgreesWithByte(x, b);
  }

  lemma WordNumber(block: seq<byte>, k: nat)
    requires |block| == 64 && k < 16
    ensures Number(Word(block, k), 32) == WordOf(block, k)
  {
    hide Word, ShiftedByte, Agree, Number, Wide, ByteValue;
    var w := Word(block, k);
    BytesOfWord(block, k);
    WithoutLowByte(w, block[4 * k], 24);
    WithoutLowByte(ShiftedByte(w), block[4 * k + 1], 16);
    WithoutLowByte(ShiftedByte(ShiftedByte(w)), block[4 * k + 2], 8);
    AgreesWithByte(ShiftedByte(ShiftedByte(ShiftedByte(w))), block[4 * k + 3]);
  }

  // ---- Auxiliary functions ----

  lemma {:induction false} AuxiliaryBits(u: bv32, i: nat, x: bv32, y: bv32, z: bv32, m: bv32, n: nat)
    requires Agree(u, Auxiliary(i, x, y, z), m) && Ones(m, n)
    ensures Number(u, n) == Bitwise(i, Number(x, n), Number(y, n), Number(z, n), n)
    decreases n
  {
    hide Agree, Auxiliary, Half, Bit, BitFunction, Number, Bitwise;
    if n == 0 {
      NoBits(u);
      NoBitwise(i, Number(x, n), Number(y, n), Number(z, n));
    } else {
      AuxiliaryHalves(u, i, x, y, z, m);
      AuxiliaryBits(Half(u), i, Half(x), Half(y), Half(z), Half(m), n - 1);
      LowestBit(u, n - 1);
      LowestBit(x, n - 1);
      LowestBit(y, n - 1);
      LowestBit(z, n - 1);
      BitwiseSplits(i, Number(Half(x), n - 1), Bit(x), Number(Half(y), n - 1), Bit(y), Number(Half(z), n - 1), Bit(z),
                    n - 1);
    }
  }

  lemma NoBitwise(i: nat, x: nat, y: nat, z: nat)
    ensures Bitwise(i, x, y, z, 0) == 0
  {
  }

  lemma BitwiseSplits(i: nat, x: nat, a: nat, y: nat, b: nat, z: nat, c: nat, n: nat)
    requires a <= 1 && b <= 1 && c <= 1
    ensures Bitwise(i, 2 * x + a, 2 * y + b, 2 * z + c, n + 1) == 2 * Bitwise(i, x, y, z, n) + BitFunction(i, a, b, c)
  {
  }

  lemma AuxiliaryHalves(u: bv32, i: nat, x: bv32, y: bv32, z: bv32, m: bv32)
    requires Agree(u, Auxiliary(i, x, y, z), m)
    ensures Agree(Half(u), Auxiliary(i, Half(x), Half(y), Half(z)), Half(m))
    ensures Bit(m) == 1 ==> Bit(u) == BitFunction(i, Bit(x), Bit(y), Bit(z))
  {
    UpperBits(u, i, x, y, z, m);
    LowestBits(u, i, x, y, z, m);
    hide *;
  }

  lemma UpperBits(u: bv32, i: nat, x: bv32, y: bv32, z: bv32, m: bv32)
    requires Agree(u, Auxiliary(i, x, y, z), m)
    ensures Agree(Half(u), Auxiliary(i, Half(x), Half(y), Half(z)), Half(m))
  {
    if i < 16 {
    } else if i < 32 {
    } else if i < 48 {
    } else {
    }
  }

  lemma LowestBits(u: bv32, i: nat, x: bv32, y: bv32, z: bv32, m: bv32)
    requires Agree(u, Auxiliary(i, x, y, z), m)
    ensures Bit(m) == 1 ==> Bit(u) == BitFunction(i, Bit(x), Bit(y), Bit(z))
  {
    if i < 16 {
    } else if i < 32 {
    } else if i < 48 {
    } else {
    }
  }

  lemma AuxiliaryNumber(i: nat, x: bv32, y: bv32, z: bv32)
    ensures Number(Auxiliary(i, x, y, z), 32) == Bitwise(i, Number(x, 32), Number(y, 32), Number(z, 32), 32)
  {
    hide Agree, Auxiliary, Number, Bitwise, Ones;
    SomeMasks();
    AgreesWithItself(Auxiliary(i, x, y, z));
    AuxiliaryBits(Auxiliary(i, x, y, z), i, x, y, z, 0xFFFF_FFFF, 32);
  }

  lemma AgreesWithItself(u: bv32)
    ensures Agree(u, u, 0xFFFF_FFFF)
  {
  }

  // ---- The block function ----

  lemma PlusNumber(x: bv32, y: bv32)
    ensures Number(Plus(x, y), 32) == (Number(x, 32) + Number(y, 32)) % TWO_32
  {
    hide Number;
    Sum(x, y);
  }

  /** The sum under the rotation. */
  lemma FourTerms(a: bv32, b: bv32, c: bv32, d: bv32)
    ensures Number(Plus(Plus(Plus(a, b), c), d), 32)
         == (Number(a, 32) + Number(b, 32) + Number(c, 32) + Number(d, 32)) % TWO_32
  {
    hide Number, Plus;
    PlusNumber(a, b);
    PlusNumber(Plus(a, b), c);
    PlusNumber(Plus(Plus(a, b), c), d);
    Remainders(Number(a, 32) + Number(b, 32), Number(c, 32), Number(d, 32));
  }

  lemma OperationNumber(x: bv32, old_: bv32, mixed: bv32, word: bv32, constant: bv32, s: bv32, n: nat)
    requires 0 < n < 32 && 0 < s <= 23 && IsAmount(s, n)
    ensures Number(Operation(x, old_, mixed, word, constant, s), 32)
         == (Number(x, 32)
             + Rotated((Number(old_, 32) + Number(mixed, 32) + Number(word, 32) + Number(constant, 32)) % TWO_32, n))
            % TWO_32
  {
    hide Plus, RotateLeft, Number, Rotated, IsAmount;
    var sum := Plus(Plus(Plus(old_, mixed), word), constant);
    FourTerms(old_, mixed, word, constant);
    Rotates(sum, s, n);
    PlusNumber(x, RotateLeft(sum, s));
  }

  lemma Remainders(x: nat, y: nat, z: nat)
    ensures ((x % TWO_32 + y) % TWO_32 + z) % TWO_32 == (x + y + z) % TWO_32
  {
  }

  lemma StepIsRfc(r: Registers, block: seq<byte>, i: nat)
    requires |block| == 64
    ensures Numbers(Step(r, block, i)) == RfcStep(Numbers(r), block, i)
  {
    hide Number, Auxiliary, Bitwise, Word, WordOf, WordIndex, Sine, Amount, Shift, Rotated, IsAmount, Operation;
    AuxiliaryNumber(i, r.b, r.c, r.d);
    WordNumber(block, WordIndex(i));
    AmountIsShift(i);
    AmountFits(i);
    OperationNumber(r.b, r.a, Auxiliary(i, r.b, r.c, r.d), Word(block, WordIndex(i)), Sine(i), Amount(i), Shift(i));
  }

  lemma AmountFits(i: nat)
    ensures Amount(i) <= 23
  {
  }

  lemma {:induction false} StepsAreRfc(r: Registers, block: seq<byte>, i: nat, n: nat)
    requires |block| == 64
    ensures Numbers(Steps(r, block, i, n)) == RfcSteps(Numbers(r), block, i, n)
    decreases n
  {
    hide Step, RfcStep, Numbers;
    if n > 0 {
      StepIsRfc(r, block, i);
      StepsAreRfc(Step(r, block, i), block, i + 1, n - 1);
    }
  }

  lemma AddNumbers(r: Registers, s: Registers)
    ensures Numbers(Add(r, s)) == AddWords(Numbers(r), Numbers(s))
  {
    hide Number, Plus;
    PlusNumber(r.a, s.a);
    PlusNumber(r.b, s.b);
    PlusNumber(r.c, s.c);
    PlusNumber(r.d, s.d);
  }

  /** The compression of a block, on registers and on numbers. */
  lemma CompressIsRfc(r: Registers, block: seq<byte>)
    requires |block| == 64
    ensures Numbers(Compress(r, block)) == RfcCompress(Numbers(r), block)
  {
    hide Numbers, Steps, RfcSteps, Add, AddWords;
    StepsAreRfc(r, block, 0, 64);
    AddNumbers(r, Steps(r, block, 0, 64));
  }

  /** The number that a sequence of bytes spells, low-order byte first. */
  function Spelled(s: seq<byte>): nat
  {
    if s == [] then 0 else ByteValue(s[0]) + 0x100 * Spelled(s[1..])
  }

  /** The bytes of the length spell it. */
  lemma {:induction false} LittleEndianSpells(x: nat, n: nat)
    requires x < Pow2(8 * n)
    ensures Spelled(LittleEndian(x, n)) == x
    decreases n
  {
    if n > 0 {
      EightMoreBits(n - 1);
      LittleEndianSpells(x / 256, n - 1);
      WordNumbers.ByteAsNumber(x % 256);
      assert LittleEndian(x, n)[1..] == LittleEndian(x / 256, n - 1);
    }
  }

  lemma EightMoreBits(n: nat)
    ensures Pow2(8 * (n + 1)) == 256 * Pow2(8 * n)
  {
    var k := 8 * n;
    assert Pow2(k + 2) == 4 * Pow2(k) && Pow2(k + 4) == 4 * Pow2(k + 2);
    assert Pow2(k + 6) == 4 * Pow2(k + 4) && Pow2(k + 8) == 4 * Pow2(k + 6);
  }
}
