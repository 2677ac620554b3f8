/** The picture checksum of exe_decoder/SinkYuvCrc.cpp: a table of 2^depth entries against a shift
    register fed one bit at a time. */
module SinkYuvCrc {
  import opened Bits

  /** A 32-bit word, most significant bit first. */
  type Word = w: seq<bit> | |w| == 32 witness Repeat(32, 0)

  function Zero(): Word { Repeat(32, 0) }
  function Ones(): Word { Repeat(32, 1) }

  /** POLYNOM_CRC, 0x04c11db7. */
  function Polynomial(): Word
  {
    [0, 0, 0, 0, 0, 1, 0, 0, 1, 1, 0, 0, 0, 0, 0, 1, 0, 0, 0, 1, 1, 1, 0, 1, 1, 0, 1, 1, 0, 1, 1, 1]
  }

  // ---- Operators of the language on words ----

  function ExclusiveOr(a: bit, b: bit): bit { if a == b then 0 else 1 }

  function Xor(x: seq<bit>, y: seq<bit>): (r: seq<bit>)
    requires |x| == |y|
    ensures |r| == |x|
  {
    seq(|x|, i requires 0 <= i < |x| => ExclusiveOr(x[i], y[i]))
  }

  function ShiftLeft(x: Word, n: nat): Word requires n <= 32 { x[n..] + Repeat(n, 0) }
  function ShiftRight(x: Word, n: nat): Word requires n <= 32 { Repeat(n, 0) + x[..32 - n] }

  /** `x & ((1 << d) - 1)`. */
  function Masked(x: Word, d: nat): Word requires d <= 32 { Repeat(32 - d, 0) + x[32 - d..] }

  // ---- The shift register ----

  /** One shift without input. */
  function Shifted(x: Word): Word
  {
    if x[0] == 1 then Xor(ShiftLeft(x, 1), Polynomial()) else ShiftLeft(x, 1)
  }

  function ShiftedTimes(x: Word, n: nat): Word
    decreases n
  {
    if n == 0 then x else ShiftedTimes(Shifted(x), n - 1)
  }

  /** The register feeds back when its top bit differs from the input bit. */
  function FeedBit(crc: Word, b: bit): Word
  {
    if crc[0] != b then Xor(ShiftLeft(crc, 1), Polynomial()) else ShiftLeft(crc, 1)
  }

  function Feed(crc: Word, bits: seq<bit>): Word
    decreases |bits|
  {
    if bits == [] then crc else Feed(FeedBit(crc, bits[0]), bits[1..])
  }

  // ---- The table ----

  function Entry(depth: nat, v: seq<bit>): Word
    requires |v| == depth <= 32
  {
    ShiftedTimes(v + Repeat(32 - depth, 0), depth)
  }

  /** A table filled for one depth; what lies behind keeps its initial zeros. */
  ghost predicate FilledFor(table: seq<Word>, depth: nat)
  {
    depth <= 10 && |table| == 1024
    && (forall i :: 0 <= i < Pow2(depth) <= 1024 ==> table[i] == Entry(depth, BitsOf(depth, i)))
    && (forall i :: Pow2(depth) <= i < 1024 ==> table[i] == Zero())
  }

  /** The update of the checksum by one pixel of `depth` bits. */
  function Lookup(table: seq<Word>, depth: nat, crc: Word, pixel: seq<bit>): Word
    requires |table| == 1024 && |pixel| == depth <= 10
  {
    IndexInTable(Xor(crc[..depth], pixel));
    Xor(ShiftLeft(crc, depth), table[Val(Xor(crc[..depth], pixel))])
  }

  lemma IndexInTable(v: seq<bit>)
    requires |v| <= 10
    ensures Val(v) < 1024
  {
    ValBound(v);
    Pow2Monotone(|v|, 10);
    Pow2Values();
  }

  // ---- Linearity ----

  lemma ShiftedIsLinear(x: Word, y: Word)
    ensures Shifted(Xor(x, y)) == Xor(Shifted(x), Shifted(y))
  {
    hide Repeat, Polynomial;
  }

  lemma {:induction false} TimesIsLinear(x: Word, y: Word, n: nat)
    ensures ShiftedTimes(Xor(x, y), n) == Xor(ShiftedTimes(x, n), ShiftedTimes(y, n))
    decreases n
  {
    hide Shifted, Xor;
    if n > 0 {
      ShiftedIsLinear(x, y);
      TimesIsLinear(Shifted(x), Shifted(y), n - 1);
    }
  }

  lemma {:induction false} TimesSplit(x: Word, m: nat, n: nat)
    ensures ShiftedTimes(x, m + n) == ShiftedTimes(ShiftedTimes(x, m), n)
    decreases m
  {
    hide Shifted;
    if m > 0 {
      TimesSplit(Shifted(x), m - 1, n);
    }
  }

  /** While zeros leave the register nothing is fed back. */
  lemma {:induction false} LeadingZeros(rest: seq<bit>, n: nat)
    requires |rest| + n == 32
    ensures ShiftedTimes(Repeat(n, 0) + rest, n) == rest + Repeat(n, 0)
    decreases n
  {
    if n == 0 {
      assert Repeat(0, 0) + rest == rest == rest + Repeat(0, 0);
    } else {
      var x := Repeat(n, 0) + rest;
      assert x == [0] + (Repeat(n - 1, 0) + rest);
      assert Shifted(x) == Repeat(n - 1, 0) + (rest + [0]);
      LeadingZeros(rest + [0], n - 1);
      assert rest + [0] + Repeat(n - 1, 0) == rest + Repeat(n, 0);
    }
  }

  lemma XorAt(x: seq<bit>, y: seq<bit>, i: nat)
    requires |x| == |y| && i < |x|
    ensures Xor(x, y)[i] == ExclusiveOr(x[i], y[i])
  {
  }

  lemma PartsAt(bits: seq<bit>, i: nat)
    requires 0 < |bits| <= 32 && i < 32
    ensures var zeros := Repeat(32 - |bits|, 0);
      var fed, first, rest := bits + zeros, [bits[0]] + Repeat(31, 0), [0] + bits[1..] + zeros;
      if i == 0 then fed[i] == first[i] && rest[i] == 0 else fed[i] == rest[i] && first[i] == 0
  {
    hide Repeat;
  }

  lemma TopAndRest(crc: Word, bits: seq<bit>)
    requires 0 < |bits| <= 32
    ensures Xor(crc, bits + Repeat(32 - |bits|, 0))
         == Xor(Xor(crc, [bits[0]] + Repeat(31, 0)), [0] + bits[1..] + Repeat(32 - |bits|, 0))
  {
    hide Repeat, Xor;
    var zeros := Repeat(32 - |bits|, 0);
    var fed, first, rest := bits + zeros, [bits[0]] + Repeat(31, 0), [0] + bits[1..] + zeros;
    forall i | 0 <= i < 32 ensures Xor(crc, fed)[i] == Xor(Xor(crc, first), rest)[i] {
      XorAt(crc, fed, i);
      XorAt(crc, first, i);
      XorAt(Xor(crc, first), rest, i);
      PartsAt(bits, i);
    }
  }

  lemma ShiftedRest(bits: seq<bit>)
    requires 0 < |bits| <= 32
    ensures Shifted([0] + bits[1..] + Repeat(32 - |bits|, 0)) == bits[1..] + Repeat(32 - |bits[1..]|, 0)
  {
    hide Repeat, Polynomial;
    var low := [0] + bits[1..] + Repeat(32 - |bits|, 0);
    assert low[0] == 0 && low[1..] == bits[1..] + Repeat(32 - |bits|, 0);
    assert Repeat(32 - |bits|, 0) + Repeat(1, 0) == Repeat(33 - |bits|, 0);
  }

  lemma FeedBitIsShift(crc: Word, b: bit)
    ensures Shifted(Xor(crc, [b] + Repeat(31, 0))) == FeedBit(crc, b)
  {
    hide Polynomial;
    var top := Xor(crc, [b] + Repeat(31, 0));
    assert top[0] == ExclusiveOr(crc[0], b) && top[1..] == crc[1..];
    assert ShiftLeft(top, 1) == ShiftLeft(crc, 1);
  }

  lemma {:induction false} FeedIsShift(crc: Word, bits: seq<bit>)
    requires |bits| <= 32
    ensures Feed(crc, bits) == ShiftedTimes(Xor(crc, bits + Repeat(32 - |bits|, 0)), |bits|)
    decreases |bits|
  {
    if bits == [] {
      assert Xor(crc, bits + Repeat(32, 0)) == crc;
    } else {
      var top := Xor(crc, [bits[0]] + Repeat(31, 0));
      var low := [0] + bits[1..] + Repeat(32 - |bits|, 0);
      TopAndRest(crc, bits);
      ShiftedIsLinear(top, low);
      FeedBitIsShift(crc, bits[0]);
      ShiftedRest(bits);
      hide Shifted, Xor, FeedBit;
      FeedIsShift(FeedBit(crc, bits[0]), bits[1..]);
    }
  }

  /** One look-up in a table of the pixel's own depth is as good as feeding its bits. */
  lemma LookupFeeds(crc: Word, pixel: seq<bit>, d: nat)
    requires |pixel| == d <= 32
    ensures Xor(ShiftLeft(crc, d), Entry(d, Xor(crc[..d], pixel))) == Feed(crc, pixel)
  {
    hide Feed, ShiftedTimes, Polynomial;
    var zeros := Repeat(32 - d, 0);
    var high, low := Xor(crc[..d], pixel) + zeros, Repeat(d, 0) + crc[d..];
    FeedIsShift(crc, pixel);
    assert Xor(crc, pixel + zeros) == Xor(low, high);
    TimesIsLinear(low, high, d);
    LeadingZeros(crc[d..], d);
  }

  /** An entry does not depend on the depth the table was filled for. */
  lemma EntryOfSmallerDepth(t: nat, d: nat, v: seq<bit>)
    requires |v| == d <= t <= 32
    ensures Entry(t, Repeat(t - d, 0) + v) == Entry(d, v)
  {
    hide Repeat, ShiftedTimes, Shifted;
    var zeros := Repeat(32 - t, 0);
    assert zeros + Repeat(t - d, 0) == Repeat(32 - d, 0);
    assert Repeat(t - d, 0) + v + zeros == Repeat(t - d, 0) + (v + zeros);
    TimesSplit(Repeat(t - d, 0) + (v + zeros), t - d, d);
    LeadingZeros(v + zeros, t - d);
    assert v + zeros + Repeat(t - d, 0) == v + Repeat(32 - d, 0);
  }

  lemma {:induction false} NeverZero(x: Word, n: nat)
    requires x != Zero()
    ensures ShiftedTimes(x, n) != Zero()
    decreases n
  {
    if n > 0 {
      OnlyZeroShiftsToZero(x);
      NeverZero(Shifted(x), n - 1);
    }
  }

  lemma OnlyZeroShiftsToZero(x: Word)
    ensures Shifted(x) == Zero() ==> x == Zero()
  {
    var next := Shifted(x);
    assert next[31] == x[0];
    if next == Zero() {
      forall i | 0 <= i < 32 ensures x[i] == 0 {
        assert i == 0 || next[i - 1] == x[i];
      }
    }
  }

  /** The table gives the checksum of the shift register for every register and pixel exactly when
      it was filled for at least the pixel's depth. */
  lemma LookupIsFeedIff(table: seq<Word>, t: nat, d: nat)
    requires FilledFor(table, t) && d <= 10
    ensures (forall crc: Word, pixel: seq<bit> | |pixel| == d :: Lookup(table, d, crc, pixel) == Feed(crc,
          pixel)) <==> d <= t
  {
    if d <= t {
      forall crc: Word, pixel: seq<bit> | |pixel| == d ensures Lookup(table, d, crc, pixel) == Feed(crc, pixel) {
        LookupWorks(table, t, d, crc, pixel);
      }
    } else {
      LookupFails(table, t, d);
    }
  }

  lemma LookupWorks(table: seq<Word>, t: nat, d: nat, crc: Word, pixel: seq<bit>)
    requires FilledFor(table, t) && d <= t && |pixel| == d
    ensures Lookup(table, d, crc, pixel) == Feed(crc, pixel)
  {
    hide Feed, Entry, Polynomial, Val, Repeat, Xor;
    var v := Xor(crc[..d], pixel);
    IndexInTable(v);
    EntryForValue(table, t, v);
    EntryOfSmallerDepth(t, d, v);
    LookupFeeds(crc, pixel, d);
  }

  lemma EntryForValue(table: seq<Word>, t: nat, v: seq<bit>)
    requires FilledFor(table, t) && |v| <= t
    ensures Val(v) < 1024 && table[Val(v)] == Entry(t, Repeat(t - |v|, 0) + v)
  {
    hide *;
    DepthBound(table, t);
    IndexInTable(v);
    var w := Repeat(t - |v|, 0) + v;
    ValOfPadded(t - |v|, v);
    BitsOfVal(w);
    ValBound(w);
    EntryAt(table, t, Val(v));
  }

  lemma DepthBound(table: seq<Word>, t: nat)
    requires FilledFor(table, t)
    ensures t <= 10
  {
  }

  lemma EntryAt(table: seq<Word>, t: nat, i: nat)
    requires FilledFor(table, t) && i < Pow2(t)
    ensures i < 1024 && table[i] == Entry(t, BitsOf(t, i))
  {
    hide Entry, BitsOf;
    Pow2Monotone(t, 10);
    Pow2Values();
  }

  lemma ValOfPadded(n: nat, v: seq<bit>)
    ensures Val(Repeat(n, 0) + v) == Val(v)
  {
    ValConcat(Repeat(n, 0), v);
    ValRepeat(n);
    ShlOfOne(|v|);
  }

  lemma LookupFails(table: seq<Word>, t: nat, d: nat)
    requires FilledFor(table, t) && t < d <= 10
    ensures exists crc: Word, pixel: seq<bit> | |pixel| == d :: Lookup(table, d, crc, pixel) != Feed(crc, pixel)
  {
    hide Feed, Entry, Polynomial, Val;
    var pixel := Repeat(d - t - 1, 0) + ([1] + Repeat(t, 0));
    assert Xor(Zero()[..d], pixel) == pixel && ShiftLeft(Zero(), d) == Zero();
    ValueOfOneBit(d, t);
    IndexInTable(pixel);
    assert Lookup(table, d, Zero(), pixel) == Zero();
    FeedOneBit(d, t);
  }

  lemma FeedOneBit(d: nat, t: nat)
    requires t < d <= 10
    ensures Feed(Zero(), Repeat(d - t - 1, 0) + ([1] + Repeat(t, 0))) != Zero()
  {
    hide Feed, ShiftedTimes, Repeat;
    var pixel := Repeat(d - t - 1, 0) + ([1] + Repeat(t, 0));
    var x := pixel + Repeat(32 - d, 0);
    FeedIsShift(Zero(), pixel);
    assert Xor(Zero(), x) == x;
    assert x[d - t - 1] == 1;
    NeverZero(x, d);
  }

  lemma ValueOfOneBit(d: nat, t: nat)
    requires t < d
    ensures Val(Repeat(d - t - 1, 0) + ([1] + Repeat(t, 0))) == Pow2(t)
  {
    hide Val, Repeat;
    ValConcat(Repeat(d - t - 1, 0), [1] + Repeat(t, 0));
    ValConcat([1], Repeat(t, 0));
    ValRepeat(d - t - 1);
    ValRepeat(t);
    ValOfOne();
    ShlOfOne(t);
    ShlOfOne(t + 1);
  }

  lemma ValOfOne()
    ensures Val([1]) == 1
  {
    ValAppend([], 1);
    assert [] + [1] == [1];
  }

  // ---- Polynomial division ----

  /** A factor of degree below `|q|` times the polynomial of degree 32 whose lower coefficients are Polynomial( ). */
  function Product(q: seq<bit>): (r: seq<bit>)
    ensures |r| == |q| + 32
    decreases |q|
  {
    if q == [] then Zero()
    else
      Xor(Times(q[0]) + Repeat(|q| - 1, 0), [0] + Product(q[1..]))
  }

  function Times(b: bit): (r: seq<bit>)
    ensures |r| == 33 && r[0] == b
  {
    if b == 1 then [1] + Polynomial() else [0] + Zero()
  }

  /** The coefficients are those of the polynomial of IEEE 802.3, and a checksum starts from all ones. */
  lemma Constants()
    ensures forall k :: 0 <= k < 32 ==>
              (Polynomial()[k] == 1 <==> 31 - k in {0, 1, 2, 4, 5, 7, 8, 10, 11, 12, 16, 22, 23, 26})
    ensures Val(Ones()) == 0xFFFF_FFFF
  {
    ValRepeat(32);
    Pow2Of32();
  }

  /** The register after some bits is the remainder of a division of polynomials over GF(2): of the register before
      times x^n plus the n bits times x^32. */
  lemma {:induction false} FeedIsRemainder(crc: Word, bits: seq<bit>) returns (quotient: seq<bit>)
    ensures |quotient| == |bits|
    ensures Xor(crc + Repeat(|bits|, 0), bits + Repeat(32, 0))
         == Xor(Product(quotient), Repeat(|bits|, 0) + Feed(crc, bits))
    decreases |bits|
  {
    var n := |bits|;
    if n == 0 {
      quotient := [];
      XorWithZero(crc);
      assert crc + Repeat(0, 0) == crc == Repeat(0, 0) + crc && bits + Repeat(32, 0) == Repeat(32, 0);
    } else {
      var q := FeedIsRemainder(FeedBit(crc, bits[0]), bits[1..]);
      quotient := [ExclusiveOr(crc[0], bits[0])] + q;
      FeedFirst(crc, bits);
      FeedStep(crc, bits, q);
    }
  }

  lemma XorWithZero(x: Word)
    ensures Xor(x, Repeat(32, 0)) == x && Xor(Zero(), x) == x
  {
  }

  /** Feeding a bit shifts the register and takes the polynomial away where the division does. */
  lemma Fed(crc: Word, b: bit, n: nat)
    ensures FeedBit(crc, b) + Repeat(n, 0)
         == Xor((crc + Repeat(n + 1, 0))[1..], (Times(ExclusiveOr(crc[0], b)) + Repeat(n, 0))[1..])
  {
    hide Polynomial, Repeat;
    var zeros := Repeat(n + 1, 0);
    var p := Times(ExclusiveOr(crc[0], b));
    var shifted := ShiftLeft(crc, 1) + Repeat(n, 0);
    assert (crc + zeros)[1..] == shifted by {
      assert Repeat(1, 0) + Repeat(n, 0) == zeros;
      assert (crc + zeros)[1..] == crc[1..] + zeros;
    }
    assert (p + Repeat(n, 0))[1..] == p[1..] + Repeat(n, 0);
    assert FeedBit(crc, b) == Xor(ShiftLeft(crc, 1), p[1..]) by { FedOnce(crc, b); }
  }

  lemma FedOnce(crc: Word, b: bit)
    ensures FeedBit(crc, b) == Xor(ShiftLeft(crc, 1), Times(ExclusiveOr(crc[0], b))[1..])
  {
    hide Polynomial;
    if crc[0] == b {
      assert Times(0)[1..] == Repeat(32, 0);
      XorWithZero(ShiftLeft(crc, 1));
    } else {
      assert Times(1)[1..] == Polynomial();
    }
  }

  lemma FeedStep(crc: Word, bits: seq<bit>, q: seq<bit>)
    requires bits != [] && |q| == |bits| - 1
    requires Xor(FeedBit(crc, bits[0]) + Repeat(|q|, 0), bits[1..] + Repeat(32, 0))
          == Xor(Product(q), Repeat(|q|, 0) + Feed(crc, bits))
    ensures Xor(crc + Repeat(|bits|, 0), bits + Repeat(32, 0))
         == Xor(Product([ExclusiveOr(crc[0], bits[0])] + q), Repeat(|bits|, 0) + Feed(crc, bits))
  {
    hide *;
    var n, rest := |q|, bits[1..];
    var b, f := ExclusiveOr(crc[0], bits[0]), Feed(crc, bits);
    Fed(crc, bits[0], n);
    DivisionStep(crc + Repeat(n + 1, 0), bits[0], rest + Repeat(32, 0), Times(b) + Repeat(n, 0), Product(q),
                 Repeat(n, 0) + f);
    ProductMore(b, q);
    OneMoreZero(n, f);
    FirstAndRest(bits, Repeat(32, 0));
  }

  lemma FeedFirst(crc: Word, bits: seq<bit>)
    requires bits != []
    ensures Feed(crc, bits) == Feed(FeedBit(crc, bits[0]), bits[1..])
  {
  }

  lemma FirstAndRest(bits: seq<bit>, more: seq<bit>)
    requires bits != []
    ensures bits + more == [bits[0]] + (bits[1..] + more)
  {
  }

  lemma ProductMore(b: bit, q: seq<bit>)
    ensures Product([b] + q) == Xor(Times(b) + Repeat(|q|, 0), [0] + Product(q))
  {
    assert ([b] + q)[1..] == q;
  }

  lemma OneMoreZero(n: nat, f: Word)
    ensures [0] + (Repeat(n, 0) + f) == Repeat(n + 1, 0) + f
  {
    assert [0] + Repeat(n, 0) == Repeat(n + 1, 0);
  }

  /** The same on sequences: x against y is what is divided, p is taken away. */
  lemma DivisionStep(x: seq<bit>, b: bit, y: seq<bit>, p: seq<bit>, product: seq<bit>, remainder: seq<bit>)
    requires |x| == |p| == |y| + 1 == |product| + 1 == |remainder| + 1
    requires p[0] == ExclusiveOr(x[0], b)
    requires Xor(Xor(x[1..], p[1..]), y) == Xor(product, remainder)
    ensures Xor(x, [b] + y) == Xor(Xor(p, [0] + product), [0] + remainder)
  {
    hide Xor;
    var left, right := Xor(x, [b] + y), Xor(Xor(p, [0] + product), [0] + remainder);
    forall i | 0 <= i < |x| ensures left[i] == right[i] {
      XorAt(x, [b] + y, i);
      XorAt(Xor(p, [0] + product), [0] + remainder, i);
      XorAt(p, [0] + product, i);
      if i > 0 {
        var j := i - 1;
        XorAt(Xor(x[1..], p[1..]), y, j);
        XorAt(x[1..], p[1..], j);
        XorAt(product, remainder, j);
      }
    }
  }

  // ---- The program ----

  /** The bits of a pixel that take part: its value rescaled from one depth to the other, low-order bits. */
  function PixelBits(pixel: nat, iBdIn: nat, iBdOut: nat): (bits: seq<bit>)
    ensures |bits| == iBdOut
  {
    BitsOf(iBdOut, if iBdIn < iBdOut then Shl(pixel, iBdOut - iBdIn) else Shr(pixel, iBdIn - iBdOut))
  }

  /** In numbers: the pixel times or divided by a power of two, modulo the range of the output depth. */
  lemma PixelBitsAreScaled(pixel: nat, iBdIn: nat, iBdOut: nat)
    ensures Val(PixelBits(pixel, iBdIn, iBdOut))
         == (if iBdIn <= iBdOut then pixel * Pow2(iBdOut - iBdIn) else pixel / Pow2(iBdIn - iBdOut)) % Pow2(iBdOut)
  {
    hide Pow2, Val, BitsOf;
    if iBdIn <= iBdOut {
      ShlAsProduct(pixel, iBdOut - iBdIn);
      assert Shr(pixel, 0) == pixel == Shl(pixel, 0);
      LowBitsIsMod(iBdOut, Shl(pixel, iBdOut - iBdIn));
    } else {
      ShrAsQuotient(pixel, iBdIn - iBdOut);
      LowBitsIsMod(iBdOut, Shr(pixel, iBdIn - iBdOut));
    }
  }

  lemma {:induction false} ShrAsQuotient(v: nat, k: nat)
    ensures Shr(v, k) == v / Pow2(k)
  {
    if k > 0 {
      ShrAsQuotient(v / 2, k - 1);
      QuotientOfHalf(v, Pow2(k - 1));
    }
  }

  lemma QuotientOfHalf(v: nat, p: nat)
    requires p > 0
    ensures v / 2 / p == v / (2 * p)
  {
    DivMod(v / 2, p);
    HalfMod(v, p);
    Double(p, v / 2 / p);
    ModUnique(v, 2 * p, v / 2 / p, 2 * (v / 2 % p) + v % 2);
  }

  function FeedPixels(crc: Word, pixels: seq<nat>, iBdIn: nat, iBdOut: nat): Word
    decreases |pixels|
  {
    if pixels == [] then crc else FeedPixels(Feed(crc, PixelBits(pixels[0], iBdIn, iBdOut)), pixels[1..], iBdIn, iBdOut)
  }

  /** The visible pixels of a plane, row after row; rows start `pitch` pixels apart. */
  function Visible(plane: seq<nat>, start: nat, width: nat, height: nat, pitch: nat): seq<nat>
    requires Fits(plane, start, width, height, pitch)
    decreases height
  {
    if height == 0 then [] else plane[start..start + width] + Visible(plane, start + pitch, width, height - 1, pitch)
  }

  predicate Fits(plane: seq<nat>, start: nat, width: nat, height: nat, pitch: nat)
    decreases height
  {
    height == 0 || (width <= pitch && start + width <= |plane| && Fits(plane, start + pitch, width, height - 1, pitch))
  }

  /** Pixel (column, row) of the visible part is that many rows and pixels into the plane. */
  lemma VisibleAt(plane: seq<nat>, width: nat, height: nat, pitch: nat, row: nat, column: nat)
    requires Fits(plane, 0, width, height, pitch) && row < height && column < width
    ensures var at, from := row * width + column, row * pitch + column;
      && 0 <= at < |Visible(plane, 0, width, height, pitch)| && 0 <= from < |plane|
      && Visible(plane, 0, width, height, pitch)[at] == plane[from]
  {
    hide Visible, Fits;
    RowStartIs(row, width);
    RowStartIs(row, pitch);
    VisibleFrom(plane, 0, width, height, pitch, row, column);
  }

  /** Where a row starts when rows have this width. */
  function RowStart(row: nat, width: nat): nat { if row == 0 then 0 else RowStart(row - 1, width) + width }

  lemma {:induction false} RowStartIs(row: nat, width: nat)
    ensures RowStart(row, width) == row * width
  {
    if row > 0 {
      RowStartIs(row - 1, width);
      assert row * width == (row - 1) * width + width;
    }
  }

  lemma {:induction false} VisibleFrom(plane: seq<nat>, start: nat, width: nat, height: nat, pitch: nat, row: nat,
                                       column: nat)
    requires Fits(plane, start, width, height, pitch) && row < height && column < width
    ensures var at, from := RowStart(row, width) + column, start + RowStart(row, pitch) + column;
      at < |Visible(plane, start, width, height, pitch)| && from < |plane|
      && Visible(plane, start, width, height, pitch)[at] == plane[from]
    decreases height
  {
    FirstRow(plane, start, width, height, pitch);
    hide Visible, Fits;
    if row > 0 {
      VisibleFrom(plane, start + pitch, width, height - 1, pitch, row - 1, column);
      assert RowStart(row, width) + column - width == RowStart(row - 1, width) + column;
    }
  }

  lemma FirstRow(plane: seq<nat>, start: nat, width: nat, height: nat, pitch: nat)
    requires Fits(plane, start, width, height, pitch) && height > 0
    ensures start + width <= |plane| && Fits(plane, start + pitch, width, height - 1, pitch)
    ensures Visible(plane, start, width, height, pitch)
         == plane[start..start + width] + Visible(plane, start + pitch, width, height - 1, pitch)
  {
  }

  lemma {:induction false} FeedPixelsAppend(crc: Word, a: seq<nat>, b: seq<nat>, iBdIn: nat, iBdOut: nat)
    ensures FeedPixels(crc, a + b, iBdIn, iBdOut) == FeedPixels(FeedPixels(crc, a, iBdIn, iBdOut), b, iBdIn, iBdOut)
    decreases |a|
  {
    hide Feed;
    if a == [] {
      assert a + b == b;
    } else {
      assert (a + b)[1..] == a[1..] + b;
      FeedPixelsAppend(Feed(crc, PixelBits(a[0], iBdIn, iBdOut)), a[1..], b, iBdIn, iBdOut);
    }
  }

  /** The static table and its flag; `depth` is the depth it has been filled for. */
  class Crc32Table {
    const crc32_table: array<Word>
    var bInitCRC: bool
    ghost var depth: nat

    ghost predicate Valid()
      reads this, crc32_table
    {
      crc32_table.Length == 1024
      && (if bInitCRC then FilledFor(crc32_table[..], depth)
          else forall i :: 0 <= i < 1024 ==> crc32_table[i] == Zero())
    }

    constructor ()
      ensures Valid() && !bInitCRC && fresh(crc32_table)
    {
      crc32_table := new Word[1024](_ => Zero());
      bInitCRC := false;
    }

    method InitCrc32(bitdepth: nat)
      requires Valid() && !bInitCRC && bitdepth <= 10
      modifies crc32_table
      ensures FilledFor(crc32_table[..], bitdepth)
    {
      hide Entry, Zero, BitsOf, Repeat, Shifted;
      Pow2Monotone(bitdepth, 10);
      Pow2Values();
      for i := 0 to Pow2(bitdepth)
        invariant forall k :: 0 <= k < i ==> crc32_table[k] == Entry(bitdepth, BitsOf(bitdepth, k))
        invariant forall k :: i <= k < 1024 ==> crc32_table[k] == Zero()
      {
        var crc := InitEntry(bitdepth, i);
        crc32_table[i] := crc;
      }
    }

    method InitEntry(bitdepth: nat, i: nat) returns (crc_precalc: Word)
      requires bitdepth <= 10
      ensures crc_precalc == Entry(bitdepth, BitsOf(bitdepth, i))
    {
      hide BitsOf, Repeat, Polynomial;
      BitsOfSplit(32 - bitdepth, bitdepth, i);
      crc_precalc := ShiftLeft(BitsOf(32, i), 32 - bitdepth);
      assert crc_precalc == BitsOf(bitdepth, i) + Repeat(32 - bitdepth, 0);
      for j := 0 to bitdepth
        invariant ShiftedTimes(crc_precalc, bitdepth - j) == Entry(bitdepth, BitsOf(bitdepth, i))
      {
        crc_precalc := if crc_precalc[0] == 1 then Xor(ShiftLeft(crc_precalc, 1),
              Polynomial()) else ShiftLeft(crc_precalc, 1);
      }
    }

    /** The first call fills the table for its input depth. */
    method CRC32(iBdIn: nat, iBdOut: nat, crc: Word, pixel: nat) returns (crc': Word)
      requires Valid() && iBdIn <= 10 && iBdOut <= 10
      modifies this`bInitCRC, this`depth, crc32_table
      ensures Valid() && bInitCRC && depth == if old(bInitCRC) then old(depth) else iBdIn
      ensures crc' == Lookup(crc32_table[..], iBdOut, crc, PixelBits(pixel, iBdIn, iBdOut))
      ensures iBdOut <= depth ==> crc' == Feed(crc, PixelBits(pixel, iBdIn, iBdOut))
    {
      hide Feed, Entry, Zero, Polynomial, Val, Xor, BitsOf, Repeat, Shl, Shr;
      if !bInitCRC {
        InitCrc32(iBdIn);
        bInitCRC := true;
        depth := iBdIn;
      }
      var iPix;
      if iBdIn < iBdOut {
        iPix := Shl(pixel, iBdOut - iBdIn);
      } else {
        iPix := Shr(pixel, iBdIn - iBdOut);
      }
      var index := Masked(Xor(ShiftRight(crc, 32 - iBdOut), BitsOf(32, iPix)), iBdOut);
      IndexOfPixel(crc, iPix, iBdOut);
      crc' := Xor(ShiftLeft(crc, iBdOut), crc32_table[Val(index)]);
      if iBdOut <= depth {
        LookupWorks(crc32_table[..], depth, iBdOut, crc, PixelBits(pixel, iBdIn, iBdOut));
      }
    }

    /** The checksum of a plane; the depths reach CRC32 in the opposite order. */
    method ComputePlaneCRC(plane: seq<nat>, width: nat, height: nat, pitch: nat, iBdIn: nat, iBdOut: nat)
      returns (crc: Word)
      requires Valid() && iBdIn <= 10 && iBdOut <= 10 && Fits(plane, 0, width, height, pitch)
      modifies this`bInitCRC, this`depth, crc32_table
      ensures Valid() && (old(bInitCRC) ==> bInitCRC && depth == old(depth))
      ensures !old(bInitCRC) && bInitCRC ==> depth == iBdOut
      ensures (bInitCRC ==> iBdIn <= depth)
        ==> crc == FeedPixels(Ones(), Visible(plane, 0, width, height, pitch), iBdOut, iBdIn)
    {
      hide Feed, Lookup, FilledFor, PixelBits, Ones, Zero, Crc32Table.Valid;
      crc := Ones();
      ghost var goal := FeedPixels(Ones(), Visible(plane, 0, width, height, pitch), iBdOut, iBdIn);
      var pPlane: nat := 0;
      for i := 0 to height
        invariant Valid() && (old(bInitCRC) ==> bInitCRC && depth == old(depth))
        invariant !old(bInitCRC) && bInitCRC ==> depth == iBdOut
        invariant Fits(plane, pPlane, width, height - i, pitch)
        invariant (bInitCRC ==> iBdIn <= depth)
          ==> FeedPixels(crc, Visible(plane, pPlane, width, height - i, pitch), iBdOut, iBdIn) == goal
      {
        var row := plane[pPlane..pPlane + width];
        FeedPixelsAppend(crc, row, Visible(plane, pPlane + pitch, width, height - i - 1, pitch), iBdOut, iBdIn);
        crc := ComputeRow(row, crc, iBdIn, iBdOut);
        pPlane := pPlane + width;
        pPlane := pPlane + (pitch - width);
      }
    }

    method ComputeRow(row: seq<nat>, start: Word, iBdIn: nat, iBdOut: nat) returns (crc: Word)
      requires Valid() && iBdIn <= 10 && iBdOut <= 10
      modifies this`bInitCRC, this`depth, crc32_table
      ensures Valid() && (old(bInitCRC) ==> bInitCRC && depth == old(depth))
      ensures !old(bInitCRC) && bInitCRC ==> depth == iBdOut
      ensures (bInitCRC ==> iBdIn <= depth) ==> crc == FeedPixels(start, row, iBdOut, iBdIn)
    {
      hide Feed, Lookup, FilledFor;
      crc := start;
      for j := 0 to |row|
        invariant Valid() && (old(bInitCRC) ==> bInitCRC && depth == old(depth))
        invariant !old(bInitCRC) && bInitCRC ==> depth == iBdOut
        invariant (bInitCRC ==> iBdIn <= depth)
          ==> FeedPixels(crc, row[j..], iBdOut, iBdIn) == FeedPixels(start, row, iBdOut, iBdIn)
      {
        assert row[j..][1..] == row[j + 1..];
        crc := CRC32(iBdOut, iBdIn, crc, row[j]);
      }
    }
  }

  /** The index into the table is the value of the register's top bits against the pixel's. */
  lemma IndexOfPixel(crc: Word, iPix: nat, d: nat)
    requires d <= 10
    ensures Val(Masked(Xor(ShiftRight(crc, 32 - d), BitsOf(32, iPix)), d)) == Val(Xor(crc[..d], BitsOf(d, iPix))) < 1024
  {
    hide BitsOf, Val;
    BitsOfSplit(32 - d, d, iPix);
    var x := Xor(ShiftRight(crc, 32 - d), BitsOf(32, iPix));
    var v := Xor(crc[..d], BitsOf(d, iPix));
    assert x[32 - d..] == v;
    ValOfPadded(32 - d, v);
    IndexInTable(v);
  }
}
