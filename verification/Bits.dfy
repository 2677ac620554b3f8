/** Bit strings, most significant bit first, and the integers they stand for. */
module Bits {

  type bit = b: int | 0 <= b <= 1
  type uint8 = b: int | 0 <= b < 0x100
  type uint32 = b: int | 0 <= b < 0x1_0000_0000

  function Pow2(n: nat): (p: nat)
    ensures p >= 1
  {
    if n == 0 then 1 else 2 * Pow2(n - 1)
  }

  /** `v` times 2^k, without any bound on the width. */
  function Shl(v: nat, k: nat): nat
  {
    if k == 0 then v else 2 * Shl(v, k - 1)
  }

  /** `v` divided by 2^k, rounded down. */
  function Shr(v: nat, k: nat): nat
  {
    if k == 0 then v else Shr(v / 2, k - 1)
  }

  /** The integer whose binary expansion is `bs`. */
  function Val(bs: seq<bit>): nat
  {
    if bs == [] then 0 else 2 * Val(bs[..|bs| - 1]) + bs[|bs| - 1]
  }

  /** The `n` low bits of `v`. */
  function BitsOf(n: nat, v: nat): (bs: seq<bit>)
    ensures |bs| == n
  {
    if n == 0 then [] else BitsOf(n - 1, v / 2) + [v % 2]
  }

  function Repeat(n: nat, b: bit): (bs: seq<bit>)
    ensures |bs| == n
    ensures forall i :: 0 <= i < n ==> bs[i] == b
  {
    if n == 0 then [] else Repeat(n - 1, b) + [b]
  }

  // ---- Powers and shifts ----

  lemma Pow2Monotone(a: nat, b: nat)
    requires a <= b
    ensures Pow2(a) <= Pow2(b)
  {
    if a < b {
      Pow2Monotone(a, b - 1);
    }
  }

  lemma Pow2Values()
    ensures Pow2(0) == 1 && Pow2(1) == 2 && Pow2(2) == 4 && Pow2(3) == 8 && Pow2(4) == 16
    ensures Pow2(5) == 32 && Pow2(6) == 64 && Pow2(7) == 128 && Pow2(8) == 256
    ensures Pow2(9) == 512 && Pow2(10) == 1024
  {
    assert Pow2(4) == 16;
    assert Pow2(8) == 256;
  }

  lemma Pow2Of32()
    ensures Pow2(30) == 0x4000_0000 && Pow2(31) == 0x8000_0000 && Pow2(32) == 0x1_0000_0000
  {
    Pow2Values();
    assert Pow2(12) == 0x1000;
    assert Pow2(16) == 0x1_0000;
    assert Pow2(20) == 0x10_0000;
    assert Pow2(24) == 0x100_0000;
    assert Pow2(28) == 0x1000_0000;
    assert Pow2(32) == 2 * Pow2(31);
  }

  lemma {:induction false} ShlSum(v: nat, w: nat, k: nat)
    ensures Shl(v + w, k) == Shl(v, k) + Shl(w, k)
  {
    if k > 0 {
      ShlSum(v, w, k - 1);
    }
  }

  lemma {:induction false} ShlShl(v: nat, j: nat, k: nat)
    ensures Shl(Shl(v, j), k) == Shl(v, j + k)
  {
    if k > 0 {
      ShlShl(v, j, k - 1);
    }
  }

  lemma ShlOfOne(k: nat)
    ensures Shl(1, k) == Pow2(k)
    ensures Shl(0, k) == 0
  {
  }

  /** Shifting a value of `n` bits by `k` leaves it below 2^(n + k). */
  lemma {:induction false} ShlBound(v: nat, n: nat, k: nat)
    requires v < Pow2(n)
    ensures Shl(v, k) <= Pow2(n + k) - Pow2(k)
  {
    if k > 0 {
      ShlBound(v, n, k - 1);
    }
  }

  lemma ShlAsProduct(v: nat, k: nat)
    ensures Shl(v, k) == v * Pow2(k)
  {
  }

  lemma {:induction false} ShrBound(v: nat, n: nat, k: nat)
    requires v < Pow2(n + k)
    ensures Shr(v, k) < Pow2(n)
  {
    if k > 0 {
      ShrBound(v / 2, n, k - 1);
    }
  }

  lemma {:induction false} ShrShr(v: nat, j: nat, k: nat)
    ensures Shr(Shr(v, j), k) == Shr(v, j + k)
  {
    if j > 0 {
      ShrShr(v / 2, j - 1, k);
    }
  }

  // ---- Values of bit strings ----

  lemma ValAppend(bs: seq<bit>, b: bit)
    ensures Val(bs + [b]) == 2 * Val(bs) + b
  {
    assert (bs + [b])[..|bs|] == bs;
  }

  lemma {:induction false} ValConcat(a: seq<bit>, b: seq<bit>)
    ensures Val(a + b) == Shl(Val(a), |b|) + Val(b)
  {
    if b == [] {
      assert a + b == a;
    } else {
      var n := |b| - 1;
      assert a + b == (a + b[..n]) + [b[n]];
      ValAppend(a + b[..n], b[n]);
      ValConcat(a, b[..n]);
    }
  }

  lemma {:induction false} ValBound(bs: seq<bit>)
    ensures Val(bs) < Pow2(|bs|)
  {
    if bs != [] {
      ValBound(bs[..|bs| - 1]);
    }
  }

  /** Reading back the `n` bits written for `v` gives `v` whenever `v` fits. */
  lemma {:induction false} ValOfBits(n: nat, v: nat)
    requires v < Pow2(n)
    ensures Val(BitsOf(n, v)) == v
  {
    if n > 0 {
      ValOfBits(n - 1, v / 2);
      ValAppend(BitsOf(n - 1, v / 2), v % 2);
    }
  }

  lemma {:induction false} BitsOfVal(bs: seq<bit>)
    ensures BitsOf(|bs|, Val(bs)) == bs
  {
    if bs != [] {
      var n := |bs| - 1;
      BitsOfVal(bs[..n]);
      assert Val(bs) / 2 == Val(bs[..n]) && Val(bs) % 2 == bs[n];
      assert bs == bs[..n] + [bs[n]];
    }
  }

  /** A bit string is determined by its length and its value. */
  lemma ValInjective(a: seq<bit>, b: seq<bit>)
    requires |a| == |b| && Val(a) == Val(b)
    ensures a == b
  {
    BitsOfVal(a);
    BitsOfVal(b);
  }

  // ---- Low bits ----

  /** The `a + b` low bits are the `a` bits above position `b` followed by the `b` low bits. */
  lemma {:induction false} BitsOfSplit(a: nat, b: nat, v: nat)
    ensures BitsOf(a + b, v) == BitsOf(a, Shr(v, b)) + BitsOf(b, v)
  {
    if b == 0 {
      assert BitsOf(a, v) + [] == BitsOf(a, v);
    } else {
      BitsOfSplit(a, b - 1, v / 2);
      var hi, lo := BitsOf(a, Shr(v, b)), BitsOf(b - 1, v / 2);
      assert hi + lo + [v % 2] == hi + (lo + [v % 2]);
    }
  }

  /** `v` with everything above its `n` low bits masked off. */
  function LowBits(n: nat, v: nat): (w: nat)
    ensures w < Pow2(n)
  {
    ValBound(BitsOf(n, v));
    Val(BitsOf(n, v))
  }

  /** Masking from position `m` on does not change the `n <= m` low bits. */
  lemma {:induction false} BitsOfLowBits(n: nat, m: nat, v: nat)
    requires n <= m
    ensures BitsOf(n, LowBits(m, v)) == BitsOf(n, v)
  {
    if n > 0 {
      ValAppend(BitsOf(m - 1, v / 2), v % 2);
      BitsOfLowBits(n - 1, m - 1, v / 2);
    }
  }

  lemma {:induction false} LowBitsAtMost(n: nat, v: nat)
    ensures LowBits(n, v) <= v
  {
    if n > 0 {
      ValAppend(BitsOf(n - 1, v / 2), v % 2);
      LowBitsAtMost(n - 1, v / 2);
    }
  }

  /** Masking is the remainder modulo a power of two. */
  lemma {:induction false} LowBitsIsMod(n: nat, v: nat)
    ensures LowBits(n, v) == v % Pow2(n)
  {
    if n > 0 {
      ValAppend(BitsOf(n - 1, v / 2), v % 2);
      LowBitsIsMod(n - 1, v / 2);
      HalfMod(v, Pow2(n - 1));
    }
  }

  lemma ModWidths(v: nat)
    ensures v % 0x100 == LowBits(8, v)
    ensures v % 0x1_0000_0000 == LowBits(32, v)
  {
    Pow2Of32();
    Pow2Values();
    LowBitsIsMod(8, v);
    LowBitsIsMod(32, v);
  }

  lemma HalfMod(v: nat, p: nat)
    requires p > 0
    ensures v % (2 * p) == 2 * (v / 2 % p) + v % 2
  {
    var h := v / 2;
    DivMod(h, p);
    assert v == 2 * h + v % 2;
    Double(p, h / p);
    ModUnique(v, 2 * p, h / p, 2 * (h % p) + v % 2);
  }

  lemma Double(p: int, q: int)
    ensures 2 * (p * q) == (2 * p) * q
  {
  }

  lemma DivMod(v: int, p: int)
    requires p > 0
    ensures v == p * (v / p) + v % p
  {
  }

  /** Quotient and remainder are the only decomposition. */
  lemma ModUnique(v: int, p: int, q: int, r: int)
    requires p > 0 && 0 <= r < p && v == p * q + r
    ensures v % p == r && v / p == q
  {
    var k := v / p - q;
    DivMod(v, p);
    assert p * k == p * (v / p) - p * q;
    MultipleWithin(p, k, r - v % p);
  }

  lemma AtLeastOnce(p: int, k: int)
    requires p > 0 && k >= 1
    ensures p * k >= p
  {
  }

  lemma MultipleWithin(p: int, k: int, d: int)
    requires p > 0 && -p < d < p && p * k == d
    ensures k == 0
  {
    if k >= 1 {
      AtLeastOnce(p, k);
    } else if k <= -1 {
      AtLeastOnce(p, -k);
    }
  }

  /** The bits of a shifted value are the value's bits followed by zeros. */
  lemma {:induction false} BitsOfShl(n: nat, k: nat, v: nat)
    ensures BitsOf(n + k, Shl(v, k)) == BitsOf(n, v) + Repeat(k, 0)
  {
    if k == 0 {
      assert BitsOf(n, v) + Repeat(0, 0) == BitsOf(n, v);
    } else {
      BitsOfShl(n, k - 1, v);
      assert BitsOf(n, v) + Repeat(k - 1, 0) + [0] == BitsOf(n, v) + Repeat(k, 0);
    }
  }

  lemma {:induction false} ValRepeat(n: nat)
    ensures Val(Repeat(n, 0)) == 0
    ensures Val(Repeat(n, 1)) == Pow2(n) - 1
  {
    if n > 0 {
      ValRepeat(n - 1);
      forall b: bit ensures Val(Repeat(n, b)) == 2 * Val(Repeat(n - 1, b)) + b {
        assert Repeat(n - 1, b) + [b] == Repeat(n, b);
        ValAppend(Repeat(n - 1, b), b);
      }
    }
  }
}
