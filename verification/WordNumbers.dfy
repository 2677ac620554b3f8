/** Words of 32 bits as integers: addition is addition modulo 2^32, and a rotation is a product and a quotient. */
module WordNumbers {
  import opened Bits

  const TWO_32: nat := 0x1_0000_0000

  // ---- The number that a word stands for ----

  // Operators on words under names, so that inductions need not look into them.
  function Half(x: bv32): bv32 { x >> 1 }
  function Next(x: bv32): bv32 { x + 1 }
  function Previous(x: bv32): bv32 { x - 1 }
  function Bit(x: bv32): (b: nat) ensures b <= 1 { if x & 1 == 1 then 1 else 0 }

  /** The number made of the `n` low-order bits. */
  function Number(x: bv32, n: nat): nat
  {
    if n == 0 then 0 else 2 * Number(Half(x), n - 1) + Bit(x)
  }

  lemma LowestBit(x: bv32, n: nat)
    ensures Number(x, n + 1) == 2 * Number(Half(x), n) + Bit(x)
  {
  }

  lemma {:induction false} NumberFits(x: bv32, n: nat)
    ensures Number(x, n) < Pow2(n)
    decreases n
  {
    hide Half, Bit;
    if n > 0 {
      NumberFits(Half(x), n - 1);
    }
  }

  lemma {:induction false} NumberOfZero(n: nat)
    ensures Number(0, n) == 0
  {
    if n > 0 {
      NumberOfZero(n - 1);
    }
  }

  lemma {:induction false} Truncated(x: bv32, n: nat)
    ensures Number(x, n) == Number(x, n + 1) % Pow2(n)
    decreases n
  {
    hide Half, Bit, Number;
    LowestBit(x, n);
    if n == 0 {
      NoBits(x);
    } else {
      LowestBit(x, n - 1);
      Truncated(Half(x), n - 1);
      OneBitMore(Number(Half(x), n), Bit(x), Pow2(n - 1));
    }
  }

  lemma OneBitMore(half: nat, low: nat, p: nat)
    requires p > 0 && low <= 1
    ensures (2 * half + low) % (2 * p) == 2 * (half % p) + low
  {
    HalfMod(2 * half + low, p);
  }

  /** The words agree in their `n` low-order bits; the mask has just those set. */
  predicate Agree(u: bv32, v: bv32, m: bv32) { (u ^ v) & m == 0 }

  /** The `n` low-order bits of the mask are set. */
  predicate Ones(m: bv32, n: nat) { n == 0 || (Bit(m) == 1 && Ones(Half(m), n - 1)) }

  lemma SomeMasks()
    ensures Ones(0xFF, 8) && Ones(0x7FFF_FFFF, 31) && Ones(0xFFFF_FFFF, 32)
  {
    assert Ones(0x1, 1);
    assert Ones(0x7, 3);
    assert Ones(0x1F, 5) && Ones(0x7F, 7) && Ones(0xFF, 8);
    assert Ones(0x3FF, 10);
    assert Ones(0xFFF, 12);
    assert Ones(0x3FFF, 14);
    assert Ones(0xFFFF, 16);
    assert Ones(0x3_FFFF, 18);
    assert Ones(0xF_FFFF, 20);
    assert Ones(0x3F_FFFF, 22);
    assert Ones(0xFF_FFFF, 24);
    assert Ones(0x3FF_FFFF, 26);
    assert Ones(0xFFF_FFFF, 28);
    assert Ones(0x3FFF_FFFF, 30);
  }

  /** Words that agree under a mask have equal low-order bits. */
  lemma {:induction false} Alike(u: bv32, v: bv32, m: bv32, n: nat)
    requires Agree(u, v, m) && Ones(m, n)
    ensures Number(u, n) == Number(v, n)
    decreases n
  {
    hide Agree, Half, Bit;
    if n > 0 {
      HalvesAgree(u, v, m);
      Alike(Half(u), Half(v), Half(m), n - 1);
    }
  }

  lemma HalvesAgree(u: bv32, v: bv32, m: bv32)
    requires Agree(u, v, m)
    ensures Agree(Half(u), Half(v), Half(m)) && (Bit(m) == 1 ==> Bit(u) == Bit(v))
  {
  }

  // ---- Addition ----

  /** Adding one, modulo 2^n. */
  lemma {:induction false} NextNumber(x: bv32, n: nat)
    requires n <= 32
    ensures Number(Next(x), n) == (Number(x, n) + 1) % Pow2(n)
    decreases n
  {
    hide Half, Bit, Next, Number, Agree, Ones, Pow2;
    if n == 0 {
      NoBits(x);
      NoBits(Next(x));
    } else {
      LowestBit(x, n - 1);
      LowestBit(Next(x), n - 1);
      NumberFits(Half(x), n - 1);
      if Bit(x) == 0 {
        NextOfEven(x);
      } else {
        NextOfOdd(x);
        UpTo31(n - 1);
        Alike(Half(Next(x)), Next(Half(x)), 0x7FFF_FFFF, n - 1);
        NextNumber(Half(x), n - 1);
      }
      NextRemainder(Number(Half(x), n - 1), Bit(x), n);
    }
  }

  lemma NoBits(x: bv32)
    ensures Number(x, 0) == 0 && Pow2(0) == 1
  {
  }

  lemma NextOfEven(x: bv32)
    requires Bit(x) == 0
    ensures Half(Next(x)) == Half(x) && Bit(Next(x)) == 1
  {
  }

  lemma NextOfOdd(x: bv32)
    requires Bit(x) == 1
    ensures Agree(Half(Next(x)), Next(Half(x)), 0x7FFF_FFFF) && Bit(Next(x)) == 0
  {
  }

  lemma UpTo31(n: nat)
    requires n <= 31
    ensures Ones(0x7FFF_FFFF, n)
  {
    SomeMasks();
    FewerOnes(0x7FFF_FFFF, n, 31);
  }

  lemma {:induction false} FewerOnes(m: bv32, k: nat, n: nat)
    requires k <= n && Ones(m, n)
    ensures Ones(m, k)
    decreases n
  {
    hide Half, Bit;
    if k > 0 {
      FewerOnes(Half(m), k - 1, n - 1);
    }
  }

  lemma NextRemainder(half: nat, low: nat, n: nat)
    requires n > 0 && half < Pow2(n - 1) && low <= 1
    ensures (2 * half + low + 1) % Pow2(n) == if low == 0 then 2 * half + 1 else 2 * ((half + 1) % Pow2(n - 1))
  {
    var p := Pow2(n - 1);
    assert Pow2(n) == 2 * p;
    if low == 0 {
      ModUnique(2 * half + 1, 2 * p, 0, 2 * half + 1);
    } else if half + 1 < p {
      ModUnique(2 * half + 2, 2 * p, 0, 2 * half + 2);
      ModUnique(half + 1, p, 0, half + 1);
    } else {
      ModUnique(2 * half + 2, 2 * p, 1, 0);
      ModUnique(half + 1, p, 1, 0);
    }
  }

  function Total(x: bv32, y: bv32): nat { Number(x + y, 32) }

  lemma Moved(x: bv32, y: bv32)
    ensures Total(x, y) == Total(Next(x), Previous(y)) && Next(Previous(y)) == y
  {
    hide Number;
  }

  lemma NothingAdded(x: bv32)
    ensures Total(x, 0) == (Number(x, 32) + Number(0, 32)) % TWO_32
  {
    hide Number;
    Pow2Of32();
    NumberFits(x, 32);
    NumberOfZero(32);
  }

  lemma PreviousIsLess(y: bv32)
    requires y != 0
    ensures Previous(y) < y
  {
  }

  /** One at a time. */
  lemma {:induction false} TotalNumber(x: bv32, y: bv32)
    ensures Total(x, y) == (Number(x, 32) + Number(y, 32)) % TWO_32
    decreases y
  {
    hide Total, Number, Next, Previous;
    if y == 0 {
      NothingAdded(x);
    } else {
      PreviousIsLess(y);
      Moved(x, y);
      TotalNumber(Next(x), Previous(y));
      Pow2Of32();
      NextNumber(x, 32);
      NextNumber(Previous(y), 32);
      Remainders(Number(x, 32), Number(Previous(y), 32));
    }
  }

  lemma Remainders(a: nat, b: nat)
    ensures ((a + 1) % TWO_32 + b) % TWO_32 == (a + (b + 1) % TWO_32) % TWO_32
  {
  }

  lemma Sum(x: bv32, y: bv32)
    ensures Number(x + y, 32) == (Number(x, 32) + Number(y, 32)) % TWO_32
  {
    hide Number;
    TotalNumber(x, y);
  }

  // ---- Rotation ----

  function Rotated(v: nat, s: nat): nat
    requires s <= 32
  {
    Products(v, s);
    v * Pow2(s) % TWO_32 + v / Pow2(32 - s)
  }

  lemma Products(v: nat, s: nat)
    requires s <= 32
    ensures v * Pow2(s) >= 0 && v / Pow2(32 - s) >= 0
  {
    hide Pow2;
    Nonnegative(v, Pow2(s), Pow2(32 - s));
  }

  lemma Nonnegative(v: nat, p: nat, q: nat)
    requires q > 0
    ensures v * p >= 0 && v / q >= 0
  {
  }

  function RotatedOnce(x: bv32): bv32 { (x << 1) | (x >> 31) }

  function Top(x: bv32): bv32 { x >> 31 }

  /** The top bit and the others. */
  lemma TopBit(x: bv32)
    ensures Number(x, 32) == Number(x, 31) + 0x8000_0000 * Bit(Top(x))
  {
    hide Half, Bit;
    Pow2Of32();
    TopDown(x, 31);
    DownBy31(x);
  }

  function Down(x: bv32, n: nat): bv32 { if n == 0 then x else Down(Half(x), n - 1) }

  lemma {:induction false} TopDown(x: bv32, n: nat)
    ensures Number(x, n + 1) == Number(x, n) + Pow2(n) * Bit(Down(x, n))
    decreases n
  {
    hide Half, Bit, Number;
    LowestBit(x, n);
    if n == 0 {
      NoBits(x);
      NoBits(Half(x));
    } else {
      LowestBit(x, n - 1);
      TopDown(Half(x), n - 1);
      Double(Pow2(n - 1), Bit(Down(x, n)));
    }
  }

  lemma {:induction false} DownJoins(x: bv32, m: nat, n: nat)
    ensures Down(Down(x, m), n) == Down(x, m + n)
    decreases m
  {
    hide Half;
    if m > 0 {
      DownJoins(Half(x), m - 1, n);
    }
  }

  lemma DownByTwo(x: bv32)
    ensures Down(x, 1) == x >> 1 && Down(x, 2) == x >> 2
  {
    assert Down(Half(Half(x)), 0) == Half(Half(x));
    assert Down(Half(x), 1) == Half(Half(x));
  }

  lemma DownByFour(x: bv32)
    ensures Down(x, 4) == x >> 4
  {
    hide Down;
    DownJoins(x, 2, 2);
    DownByTwo(x);
    DownByTwo(x >> 2);
  }

  lemma DownByEight(x: bv32)
    ensures Down(x, 8) == x >> 8
  {
    hide Down;
    DownJoins(x, 4, 4);
    DownByFour(x);
    DownByFour(x >> 4);
  }

  lemma DownBy16(x: bv32)
    ensures Down(x, 16) == x >> 16
  {
    hide Down;
    DownJoins(x, 8, 8);
    DownByEight(x);
    DownByEight(x >> 8);
  }

  lemma DownBy24(x: bv32)
    ensures Down(x, 24) == x >> 24
  {
    hide Down;
    DownJoins(x, 16, 8);
    DownBy16(x);
    DownByEight(x >> 16);
  }

  lemma DownBy28(x: bv32)
    ensures Down(x, 28) == x >> 28
  {
    hide Down;
    DownJoins(x, 24, 4);
    DownBy24(x);
    DownByFour(x >> 24);
  }

  lemma DownBy30(x: bv32)
    ensures Down(x, 30) == x >> 30
  {
    hide Down;
    DownJoins(x, 28, 2);
    DownBy28(x);
    DownByTwo(x >> 28);
  }

  lemma DownBy31(x: bv32)
    ensures Down(x, 31) == x >> 31
  {
    hide Down;
    DownJoins(x, 30, 1);
    DownBy30(x);
    DownByTwo(x >> 30);
  }

  lemma RotatedOnceBits(x: bv32)
    ensures Agree(Half(RotatedOnce(x)), x, 0x7FFF_FFFF) && Bit(RotatedOnce(x)) == Bit(Top(x))
  {
  }

  lemma RotatesOnce(x: bv32)
    ensures Number(RotatedOnce(x), 32) == Rotated(Number(x, 32), 1)
  {
    hide *;
    LowestBit(RotatedOnce(x), 31);
    SomeMasks();
    RotatedOnceBits(x);
    Alike(Half(RotatedOnce(x)), x, 0x7FFF_FFFF, 31);
    TopBit(x);
    NumberFits(x, 31);
    RotatedParts(Number(x, 31), Bit(Top(x)));
  }

  lemma RotatedParts(low: nat, top: nat)
    requires low < Pow2(31) && top <= 1
    ensures Rotated(low + 0x8000_0000 * top, 1) == 2 * low + top
  {
    Pow2Values();
    Pow2Of32();
    var v := low + 0x8000_0000 * top;
    assert v * 2 == 2 * low + TWO_32 * top;
    ModUnique(v * 2, TWO_32, top, 2 * low);
    ModUnique(v, 0x8000_0000, top, low);
  }

  /** A rotation exchanges the upper and the lower part. */
  lemma RotatedOf(v: nat, s: nat, p: nat, q: nat, high: nat, low: nat)
    requires s <= 32 && p == Pow2(s) && q == Pow2(32 - s) && p * q == TWO_32 && v == q * high + low && low < q
    ensures Rotated(v, s) == low * p + high
  {
    hide Pow2;
    ModUnique(v, q, high, low);
    assert v * p == p * q * high + low * p;
    assert 0 <= low * p < q * p by { AtLeastOnce(p, q - low); assert p * (q - low) == q * p - low * p; }
    ModUnique(v * p, TWO_32, high, low * p);
  }

  /** Rotating by one more. */
  lemma RotatedMore(v: nat, s: nat)
    requires v < TWO_32 && s < 32
    ensures Rotated(v, s + 1) == Rotated(Rotated(v, s), 1)
  {
    hide Rotated, Pow2;
    PowersMeet(s);
    var high, top, rest := Parts(v, Pow2(31 - s));
    RotatedMoreOf(v, s, Pow2(s), Pow2(31 - s), high, top, rest);
  }

  /** What lies above a place, the bit at it, and what lies below. */
  lemma Parts(v: nat, r: nat) returns (high: nat, top: nat, rest: nat)
    requires r > 0
    ensures v == r * (2 * high + top) + rest && top <= 1 && rest < r
  {
    var q := v / r;
    DivMod(v, r);
    NotNegative(v, r);
    high, top, rest := q / 2, q % 2, v % r;
    assert q == 2 * high + top;
  }

  lemma NotNegative(v: nat, r: nat)
    requires r > 0
    ensures v / r >= 0
  {
  }

  lemma RotatedMoreOf(v: nat, s: nat, p: nat, r: nat, high: nat, top: nat, rest: nat)
    requires v < TWO_32 && s < 32 && p == Pow2(s) && r == Pow2(31 - s) && p * r == 0x8000_0000
    requires Pow2(32 - s) == 2 * r && Pow2(s + 1) == 2 * p
    requires v == r * (2 * high + top) + rest && top <= 1 && rest < r
    ensures Rotated(v, s + 1) == Rotated(Rotated(v, s), 1)
  {
    hide Rotated, Pow2;
    var low := r * top + rest;
    ProductsOf(p, r, high, top, rest);
    RotatedOf(v, s, p, 2 * r, high, low);
    RotatedOf(v, s + 1, 2 * p, r, 2 * high + top, rest);
    HighIsSmall(v, p, r, high);
    LowIsSmall(p, r, rest, high);
    assert rest * p + high < Pow2(31) by { Pow2Of32(); }
    RotatedParts(rest * p + high, top);
  }

  lemma ProductsOf(p: nat, r: nat, high: nat, top: nat, rest: nat)
    requires p * r == 0x8000_0000
    ensures p * (2 * r) == TWO_32 && 2 * p * r == TWO_32 && high * (2 * r) == 2 * r * high
    ensures (r * top + rest) * p == 0x8000_0000 * top + rest * p
    ensures 2 * r * high + r * top == r * (2 * high + top)
    ensures rest * (2 * p) == 2 * (rest * p)
  {
    assert (r * top + rest) * p == p * r * top + rest * p;
  }

  lemma HighIsSmall(v: nat, p: nat, r: nat, high: nat)
    requires p * r == 0x8000_0000 && v < TWO_32 && high * (2 * r) <= v
    ensures high < p
  {
    assert p * (2 * r) == TWO_32;
    Smaller(high, p, 2 * r);
  }

  lemma Smaller(x: int, y: int, a: nat)
    requires x * a < y * a
    ensures x < y
  {
  }

  lemma LowIsSmall(p: nat, r: nat, rest: nat, high: nat)
    requires rest < r && high < p
    ensures rest * p + high < p * r
  {
    assert (r - 1 - rest) * p >= 0;
    assert r * p == (r - 1 - rest) * p + rest * p + p;
  }

  lemma PowersMeet(s: nat)
    requires s < 32
    ensures Pow2(s) * Pow2(31 - s) == 0x8000_0000 && Pow2(32 - s) == 2 * Pow2(31 - s) && Pow2(s + 1) == 2 * Pow2(s)
  {
    Pow2Of32();
    ShlOfOne(s);
    ShlOfOne(31);
    ShlShl(1, s, 31 - s);
    ShlAsProduct(Pow2(s), 31 - s);
  }

  lemma ByteAsNumber(v: nat)
    requires v < 256
    ensures (v as bv8) as nat == v
  {
    assert v / 256 == 0;
  }
}
