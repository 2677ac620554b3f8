/** The CABAC encoder of lib_bitstream/Cabac.c: bounded registers that refine the exact interval coder. */
module Cabac {
  import opened Bits
  import opened BitStream
  import opened CabacTables
  import opened CabacCoder

  /** The exact low end of the interval: the bits decided so far, then `uOut` bits that are either
      0 1..1 or 1 0..0 depending on a carry, then the register. */
  function ExactLow(decided: seq<bit>, uOut: nat, uLow: nat): nat
  {
    Shl(Val(decided), uOut + 10) + 512 * (Pow2(uOut) - 1) + uLow
  }

  function ContextsOf(states: seq<StateIdx>, mps: seq<bit>): (r: seq<Context>)
    requires |states| == |mps|
    ensures |r| == |states|
  {
    seq(|states|, i requires 0 <= i < |states| => Context(states[i], mps[i]))
  }

  /** The complement of `b`, 32 times. */
  function Fill(b: bit): uint32 { if b == 1 then 0 else 0xFFFF_FFFF }

  class CabacCtx {
    var uLow: nat
    var uRange: nat
    var uOut: nat
    var uFirst: bit
    /** What the stream held before this coder started, and what this coder has appended. */
    ghost const prefix: seq<bit>
    ghost var emitted: seq<bit>

    ghost function At(): Interval
      reads this
    {
      Interval(ExactLow(emitted, uOut, uLow), uRange, |emitted| + uOut + 1 - uFirst)
    }

    ghost predicate InBounds()
      reads this
    {
      && 2 <= uRange <= 510
      && uLow + uRange <= 1024
      && (uFirst == 1 ==> emitted == [])
      && At().low + At().range <= Pow2(At().shifts + 9)
    }

    ghost predicate Writes(bs: BitStreamLite)
      reads this, bs, bs.pData
    {
      bs.Valid() && bs.Contents == prefix + emitted && InBounds()
    }

    ghost predicate Valid(bs: BitStreamLite)
      reads this, bs, bs.pData
    {
      Writes(bs) && uRange >= 256
    }

    ghost function View(pState: array<StateIdx>, pValMPS: array<bit>): Coder
      reads this, pState, pValMPS
      requires pState.Length == pValMPS.Length
    {
      Coder(At(), ContextsOf(pState[..], pValMPS[..]))
    }

    constructor (ghost bs: BitStreamLite)
      requires bs.Valid()
      ensures Valid(bs) && At() == Interval(0, 510, 0) && prefix == bs.Contents
    {
      hide Val, Shl, Pow2, ExactLow, ByteAt, Holds;
      NothingDecided();
      uLow := 0;
      uRange := 0x1FE;
      uOut := 0;
      uFirst := 1;
      prefix := bs.Contents;
      emitted := [];
      new;
      assert bs.Contents + [] == bs.Contents;
    }

    /** Emits a decided bit, except the very first one, and then the outstanding bits as its complement. */
    method PutBit(bs: BitStreamLite, b: bit)
      requires bs.Valid() && bs.Contents == prefix + emitted
      modifies this`uFirst, this`uOut, this`emitted, bs, bs.pData
      ensures bs.Valid() && bs.pData == old(bs.pData) && bs.Contents == prefix + emitted
      ensures uFirst == 0 && uOut == 0
      ensures emitted == old(emitted) + (if old(uFirst) == 1 then [] else [b]) + Repeat(old(uOut), 1 - b)
    {
      hide Shr, BitsOf, Pow2, ByteAt, Holds, Repeat, Fill;
      ghost var decided := emitted + if uFirst == 1 then [] else [b];
      if uFirst == 1 {
        uFirst := 0;
      } else {
        bs.PutBit(b);
        emitted := emitted + [b];
      }
      assert emitted == decided;
      if uOut == 0 {
        assert emitted + Repeat(0, 1 - b) == emitted by { RepeatNone(emitted, 1 - b); }
        return;
      }
      RepeatNone(decided, 1 - b);
      var uValue := Fill(b);
      var iNumBits := uOut;
      while iNumBits > 32
        invariant bs.Valid() && bs.pData == old(bs.pData) && bs.Contents == prefix + emitted
        invariant 1 <= iNumBits <= uOut && uFirst == 0 && uOut == old(uOut)
        invariant emitted == decided + Repeat(uOut - iNumBits, 1 - b)
      {
        AllOnesOrZeros(b, 32);
        RepeatMore(decided, uOut - iNumBits, 32, 1 - b);
        bs.PutBits(32, uValue);
        emitted := emitted + Repeat(32, 1 - b);
        iNumBits := iNumBits - 32;
      }
      AllOnesOrZeros(b, iNumBits);
      RepeatMore(decided, uOut - iNumBits, iNumBits, 1 - b);
      bs.PutBits(iNumBits, Shr(uValue, 32 - iNumBits));
      emitted := emitted + Repeat(iNumBits, 1 - b);
      uOut := 0;
    }

    /** Doubles the interval until its width is at least 256, emitting or deferring one bit each time. */
    method RenormE(bs: BitStreamLite)
      requires Writes(bs)
      modifies this, bs, bs.pData
      ensures Valid(bs) && bs.pData == old(bs.pData)
      ensures At() == Renorm(old(At()))
    {
      hide Val, Shl, Pow2, ExactLow, ByteAt, Holds, Repeat;
      while uRange < 0x100
        invariant Writes(bs) && bs.pData == old(bs.pData)
        invariant Renorm(At()) == Renorm(old(At()))
        decreases 0x100 - uRange
      {
        ghost var was := At();
        assert Pow2(was.shifts + 10) == 2 * Pow2(was.shifts + 9) by { Pow2Double(was.shifts + 9); }
        if uLow >= 0x200 || uLow < 0x100 {
          ghost var b: bit := uLow / 512;
          FirstBitIsZero(emitted, uOut, uLow, uRange, uFirst);
          BitKept(emitted, uOut, uLow, b, uFirst);
          PutBit(bs, uLow / 512);
          uLow := uLow % 0x200;
        } else {
          BitDeferred(emitted, uOut, uLow);
          uOut := uOut + 1;
          uLow := uLow - 0x100;
        }
        uLow := 2 * uLow;
        uRange := 2 * uRange;
        assert At() == Interval(2 * was.low, 2 * was.range, was.shifts + 1);
      }
    }

    method WriteBin(bs: BitStreamLite, pState: array<StateIdx>, pValMPS: array<bit>, i: nat, iBinVal: bit)
      requires Valid(bs) && i < pState.Length == pValMPS.Length
      modifies this, bs, bs.pData, pState, pValMPS
      ensures Valid(bs) && bs.pData == old(bs.pData)
      ensures View(pState, pValMPS) == Step(old(View(pState, pValMPS)), Decision(i, iBinVal))
    {
      hide Val, Shl, Pow2, Holds, ByteAt, SubRange, NextAfterLps, NextAfterMps;
      ghost var was := View(pState, pValMPS);
      ghost var x := Context(pState[i], pValMPS[i]);
      assert was.ctxs[i] == x;
      var uCodIRangeLPS := SubRange(pState[i], uRange / 64 % 4);
      uRange := uRange - uCodIRangeLPS;
      if pValMPS[i] != iBinVal {
        uLow := uLow + uRange;
        uRange := uCodIRangeLPS;
        if pState[i] == 0 {
          pValMPS[i] := 1 - pValMPS[i];
        }
        pState[i] := NextAfterLps(pState[i]);
      } else {
        pState[i] := NextAfterMps(pState[i]);
      }
      assert ContextsOf(pState[..], pValMPS[..]) == was.ctxs[i := Adapt(x, iBinVal)];
      assert At() == Subdivide(was, Decision(i, iBinVal));
      RenormE(bs);
    }

    method Terminate(bs: BitStreamLite, iBinVal: bit)
      requires Valid(bs)
      modifies this, bs, bs.pData
      ensures Valid(bs) && bs.pData == old(bs.pData)
      ensures forall ctxs :: Coder(At(), ctxs) == Step(Coder(old(At()), ctxs), Op.Terminate(iBinVal))
    {
      uRange := uRange - 2;
      if iBinVal == 1 {
        uLow := uLow + uRange;
        uRange := 2;
      }
      RenormE(bs);
    }

    method Finish(bs: BitStreamLite)
      requires Valid(bs)
      modifies this, bs, bs.pData
      ensures bs.Valid() && bs.pData == old(bs.pData)
      ensures var whole := prefix + FinishBits(old(At()));
              bs.Contents == whole + Repeat(Padding(|whole|), 0)
    {
      hide Val, Shl, Pow2, ExactLow, ByteAt, Holds, Repeat, BitsOf;
      FirstBitIsZero(emitted, uOut, uLow, uRange, uFirst);
      ghost var e, out := emitted, uOut;
      ghost var b: bit := uLow / 512;
      PutBit(bs, uLow / 512 % 2);
      Pow2Values();
      var two := uLow / 128 % 4;
      two := if two % 2 == 0 then two + 1 else two;
      bs.PutBits(2, two);
      FinishedBits(e, out, uLow, old(uFirst), b);
      assert bs.Contents == prefix + (emitted + BitsOf(2, two));
      bs.AlignWithBits(0);
    }
  }

  // ---- Why the registers hold the exact interval ----

  lemma NothingDecided()
    ensures ExactLow([], 0, 0) == 0 && Pow2(9) == 512
  {
    Pow2Values();
    ShlOfOne(10);
  }

  lemma AllOnesOrZeros(b: bit, n: nat)
    requires 1 <= n <= 32
    ensures BitsOf(n, Shr(Fill(b), 32 - n)) == Repeat(n, 1 - b)
    ensures Shr(Fill(b), 32 - n) < Pow2(n)
    ensures Shr(Fill(b), 32 - n) < 0x1_0000_0000
    ensures n == 32 ==> Shr(Fill(b), 0) == Fill(b)
  {
    hide BitsOf, Repeat, Pow2, Val;
    var v := Fill(b);
    Pow2Of32();
    Pow2Monotone(n, 32);
    ShrBound(v, n, 32 - n);
    ValRepeat(32);
    ValOfBits(32, v);
    ValInjective(BitsOf(32, v), Repeat(32, 1 - b));
    BitsOfSplit(n, 32 - n, v);
    assert BitsOf(n, Shr(v, 32 - n)) == BitsOf(32, v)[..n];
    RepeatPrefix(32, n, 1 - b);
  }

  lemma RepeatPrefix(n: nat, k: nat, b: bit)
    requires k <= n
    ensures Repeat(n, b)[..k] == Repeat(k, b)
  {
  }

  lemma RepeatNone(bs: seq<bit>, b: bit)
    ensures bs + Repeat(0, b) == bs
  {
  }

  lemma RepeatMore(bs: seq<bit>, j: nat, k: nat, b: bit)
    ensures bs + Repeat(j, b) + Repeat(k, b) == bs + Repeat(j + k, b)
  {
  }

  /** A carry cannot reach the suppressed bit: while it is pending the next decided bit is 0. */
  lemma FirstBitIsZero(e: seq<bit>, out: nat, low: nat, range: nat, first: bit)
    requires range > 0 && (first == 1 ==> e == [])
    requires ExactLow(e, out, low) + range <= Pow2(|e| + out + 1 - first + 9)
    ensures first == 1 ==> low < 512
  {
    if first == 1 {
      ShlOfOne(out + 10);
      Pow2Shift(out);
      assert Val(e) == 0;
      assert ExactLow(e, out, low) == 512 * (Pow2(out) - 1) + low;
    }
  }

  lemma Pow2Shift(n: nat)
    ensures Pow2(n + 9) == 512 * Pow2(n)
    ensures Pow2(n + 10) == 1024 * Pow2(n)
  {
    ShlOfOne(n);
    ShlOfOne(n + 9);
    ShlShl(1, n, 9);
    ShlAsProduct(Pow2(n), 9);
    Pow2Values();
  }

  /** Deferring: the low end straddles the middle, so the next bit depends on a carry. */
  lemma BitDeferred(e: seq<bit>, out: nat, low: nat)
    requires low >= 256
    ensures ExactLow(e, out + 1, 2 * (low - 256)) == 2 * ExactLow(e, out, low)
  {
  }

  /** Deciding bit `b` settles every outstanding bit as its complement. */
  lemma BitDecided(e: seq<bit>, out: nat, low: nat, b: bit)
    requires 512 * b <= low
    ensures ExactLow(e + [b] + Repeat(out, 1 - b), 0, 2 * (low - 512 * b)) == 2 * ExactLow(e, out, low)
  {
    hide Val, Repeat, Shl, Pow2;
    var w := Val(e);
    var settled := Val(e + [b] + Repeat(out, 1 - b));
    SettledValue(e, out, b);
    ShlAsProduct(settled, 10);
    Pow2Values();
    ShlShl(w, out + 1, 10);
    ShlAsProduct(Shl(w, out + 1), 10);
    ShlShl(w, out + 10, 1);
    ShlAsProduct(Shl(w, out + 10), 1);
    assert Repeat(0, 1 - b) == [] && Pow2(0) == 1;
  }

  lemma SettledValue(e: seq<bit>, out: nat, b: bit)
    ensures Val(e + [b] + Repeat(out, 1 - b)) == Shl(Val(e), out + 1) + (if b == 1 then Pow2(out) else Pow2(out) - 1)
  {
    var w := Val(e);
    ValAppend(e, b);
    hide Val, Repeat;
    ValConcat(e + [b], Repeat(out, 1 - b));
    ValRepeat(out);
    ShlSum(2 * w, b, out);
    ShlOfOne(out);
    ShlShl(w, 1, out);
  }

  /** Dropping the first bit, a zero, does not change the value of the bits. */
  lemma FirstDropped(e: seq<bit>, out: nat, b: bit, first: bit)
    requires first == 1 ==> e == [] && b == 0
    ensures var kept := e + (if first == 1 then [] else [b]) + Repeat(out, 1 - b);
            && |kept| == |e| + 1 - first + out
            && Val(kept) == Val(e + [b] + Repeat(out, 1 - b))
  {
    if first == 1 {
      ValConcat([b], Repeat(out, 1));
      ShlOfOne(out);
      assert Val([b]) == 0;
      assert e + [] + Repeat(out, 1) == Repeat(out, 1);
      assert e + [b] + Repeat(out, 1) == [b] + Repeat(out, 1);
    }
  }

  lemma Pow2Double(n: nat)
    ensures Pow2(n + 1) == 2 * Pow2(n)
  {
  }

  lemma BitKept(e: seq<bit>, out: nat, low: nat, b: bit, first: bit)
    requires 512 * b <= low && (first == 1 ==> e == [] && b == 0)
    ensures var kept := e + (if first == 1 then [] else [b]) + Repeat(out, 1 - b);
            && |kept| == |e| + 1 - first + out
            && ExactLow(kept, 0, 2 * (low - 512 * b)) == 2 * ExactLow(e, out, low)
  {
    BitDecided(e, out, low, b);
    FirstDropped(e, out, b, first);
  }

  /** The bits put by Finish are the top bits of the exact low end, with the stop bit set. */
  lemma FinishedBits(e: seq<bit>, out: nat, low: nat, first: bit, b: bit)
    requires low < 1024 && b == low / 512
    requires first == 1 ==> e == [] && b == 0
    requires ExactLow(e, out, low) < Pow2(|e| + out + 1 - first + 9)
    ensures var kept := e + (if first == 1 then [] else [b]) + Repeat(out, 1 - b);
            var two := if low / 128 % 4 % 2 == 0 then low / 128 % 4 + 1 else low / 128 % 4;
            kept + BitsOf(2, two) == FinishBits(Interval(ExactLow(e, out, low), 0, |e| + out + 1 - first))
  {
    hide Val, Shl, Pow2, ExactLow, Shr, BitsOf, Repeat;
    var n := |e| + out + 1 - first;
    var kept := e + (if first == 1 then [] else [b]) + Repeat(out, 1 - b);
    var s, t := Val(kept), low / 128 % 4;
    var two := if t % 2 == 0 then t + 1 else t;
    BitKept(e, out, low, b, first);
    SettledLow(kept, 2 * (low - 512 * b));
    TopBits(s, low, b);
    ShrSeven(4 * s + t, low % 128);
    StopBitSet(s, t, two);
    AppendTwo(n, s, two);
    BitsOfVal(kept);
  }

  lemma TopBits(s: nat, low: nat, b: bit)
    requires low < 1024 && b == low / 512
    ensures 512 * s + (low - 512 * b) == 128 * (4 * s + low / 128 % 4) + low % 128
  {
  }

  lemma StopBitSet(s: nat, t: nat, two: nat)
    requires t < 4 && two == if t % 2 == 0 then t + 1 else t
    ensures (4 * s + t) / 2 * 2 + 1 == 4 * s + two
  {
    assert t / 2 * 2 + 1 == two;
    assert (4 * s + t) / 2 == 2 * s + t / 2;
  }

  lemma SettledLow(e: seq<bit>, low: nat)
    ensures ExactLow(e, 0, low) == 1024 * Val(e) + low
  {
    ShlAsProduct(Val(e), 10);
    Pow2Values();
  }

  lemma ShrSeven(q: nat, r: nat)
    requires r < 128
    ensures Shr(128 * q + r, 7) == q
  {
    assert Shr(64 * q + r / 2, 6) == Shr(32 * q + r / 4, 5);
    assert Shr(16 * q + r / 8, 4) == Shr(8 * q + r / 16, 3);
    assert Shr(4 * q + r / 32, 2) == Shr(2 * q + r / 64, 1) == q;
  }

  lemma AppendTwo(n: nat, s: nat, two: nat)
    requires two < 4
    ensures BitsOf(n + 2, 4 * s + two) == BitsOf(n, s) + BitsOf(2, two)
  {
    var m := 4 * s + two;
    assert m / 2 / 2 == s && m / 2 % 2 == two / 2 && m % 2 == two % 2;
    assert BitsOf(n + 2, m) == BitsOf(n, s) + [two / 2] + [two % 2];
    assert BitsOf(2, two) == [two / 2] + [two % 2];
  }
}
