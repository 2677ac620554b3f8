/** The bit writer of lib_bitstream/BitStreamLite.c: bits packed into a caller's byte buffer. */
module BitStream {
  import opened Basics
  import opened Bits
  import opened ExpGolomb

  /** The bits that fall into byte `k`, before padding. */
  function Window(bs: seq<bit>, k: nat): (w: seq<bit>)
    requires 8 * k < |bs|
    ensures |w| <= 8
  {
    bs[8 * k..if 8 * k + 8 <= |bs| then 8 * k + 8 else |bs|]
  }

  /** Up to eight bits as a byte, the unused low bits being zero. */
  function PadByte(w: seq<bit>): uint8
    requires |w| <= 8
  {
    ValBound(w + Repeat(8 - |w|, 0));
    Pow2Values();
    Val(w + Repeat(8 - |w|, 0))
  }

  /** Byte `k` of the packed form of `bs`. */
  function ByteAt(bs: seq<bit>, k: nat): uint8
    requires 8 * k < |bs|
  {
    PadByte(Window(bs, k))
  }

  /** The whole packed form of `bs`. */
  function Packed(bs: seq<bit>): (bytes: seq<uint8>)
    ensures |bytes| == (|bs| + 7) / 8
  {
    seq((|bs| + 7) / 8, k requires 0 <= k < (|bs| + 7) / 8 => ByteAt(bs, k))
  }

  function Padding(n: nat): nat { (8 - n % 8) % 8 }

  // 32-bit shifts and narrowing to a byte, as in C.
  function Shl32(v: uint32, k: nat): uint32 { Shl(v, k) % 0x1_0000_0000 }
  function ToByte(v: nat): uint8 { v % 0x100 }

  /** Every byte of the buffer that `bs` reaches holds the packed bits. */
  ghost predicate Holds(data: seq<uint8>, bs: seq<bit>)
  {
    forall k: nat :: 8 * k < |bs| && k < |data| ==> data[k] == ByteAt(bs, k)
  }

  class BitStreamLite {
    var pData: array<uint8>
    var iBitCount: nat
    var iMaxBits: nat
    var isOverflow: bool
    /** Every bit put so far, including those that did not fit. */
    ghost var Contents: seq<bit>

    ghost predicate Valid()
      reads this, pData
    {
      && iMaxBits == 8 * pData.Length
      && iBitCount == |Contents|
      && isOverflow == (iBitCount > iMaxBits)
      && Holds(pData[..], Contents)
    }

    constructor (pBuf: array<uint8>)
      ensures Valid() && pData == pBuf && Contents == []
    {
      pData := pBuf;
      iBitCount := 0;
      iMaxBits := 8 * pBuf.Length;
      isOverflow := false;
      Contents := [];
    }

    /** As long as nothing overflowed, the buffer starts with the packed bits, and so gives the bits back. */
    lemma HoldsPackedBits()
      requires Valid() && !isOverflow
      ensures |Packed(Contents)| <= pData.Length
      ensures pData[..|Packed(Contents)|] == Packed(Contents)
      ensures Contents <= Unpack(pData[..])
    {
      assert Packed(Contents) <= pData[..];
      UnpackPrefix(Contents, pData[..]);
    }

    method WriteData(iNumBits: nat, uValue: uint32)
      requires Valid()
      requires iBitCount % 8 + iNumBits <= 8
      requires iBitCount + iNumBits <= iMaxBits && iBitCount < iMaxBits
      requires iBitCount % 8 != 0 ==> uValue < Pow2(iNumBits)
      modifies pData
      ensures iBitCount % 8 + iNumBits == 0 || pData[..] ==
                old(pData[..])[iBitCount / 8 := ByteAt(Contents + BitsOf(iNumBits, uValue), iBitCount / 8)]
      ensures iBitCount % 8 + iNumBits == 0 ==>
                forall k :: 0 <= k < iBitCount / 8 ==> pData[k] == old(pData[k])
    {
      var byteNum := iBitCount / 8;
      var byteOffset := iBitCount % 8;
      if byteOffset == 0 {
        pData[byteNum] := ToByte(Shl32(uValue, 8 - iNumBits));
        FreshByte(Contents, uValue, iNumBits);
      } else {
        var bitsLeft := 8 - byteOffset;
        ExtendedByte(Contents, uValue, iNumBits);
        pData[byteNum] := ToByte(pData[byteNum] + Shl32(uValue, bitsLeft - iNumBits));
      }
    }

    method PutInByte(iNumBits: nat, uValue: uint32)
      requires Valid()
      requires iBitCount % 8 + iNumBits <= 8
      requires iNumBits > 0 || iBitCount != iMaxBits
      requires iBitCount % 8 != 0 ==> uValue < Pow2(iNumBits)
      modifies this, pData
      ensures Valid() && pData == old(pData)
      ensures Contents == old(Contents) + BitsOf(iNumBits, uValue)
    {
      ghost var x := BitsOf(iNumBits, uValue);
      HoldsMore(pData[..], Contents, x);
      if iBitCount + iNumBits <= iMaxBits {
        WriteData(iNumBits, uValue);
        assert x == [] ==> Contents + x == Contents;
      } else {
        isOverflow := true;
      }
      iBitCount := iBitCount + iNumBits;
      Contents := Contents + x;
    }

    method PutBits(iNumBits: nat, uValue: uint32)
      requires Valid()
      requires iNumBits <= 32
      requires iNumBits == 32 || uValue < Pow2(iNumBits)
      requires iNumBits > 0 || iBitCount != iMaxBits
      modifies this, pData
      ensures Valid() && pData == old(pData)
      ensures Contents == old(Contents) + BitsOf(iNumBits, uValue)
    {
      hide BitsOf, Shr, LowBits, ByteAt, Holds, Pow2;
      Pow2Of32();
      var left := iNumBits;
      var v: uint32 := uValue;
      var numBitsToWrite := 8 - iBitCount % 8;
      ghost var whole := Contents + BitsOf(iNumBits, uValue);
      while left > numBitsToWrite
        invariant Valid() && pData == old(pData)
        invariant 0 <= left <= iNumBits
        invariant (left == 0 ==> iNumBits == 0 && iBitCount == old(iBitCount))
        invariant numBitsToWrite == 8 - iBitCount % 8
        invariant iBitCount % 8 != 0 ==> v < Pow2(left)
        invariant Contents + BitsOf(left, v) == whole
      {
        ghost var before, rest := Contents, left - numBitsToWrite;
        var byteValue := ToByte(Shr(v, left - numBitsToWrite));
        NextChunk(v, numBitsToWrite, rest, iBitCount % 8);
        PutInByte(numBitsToWrite, byteValue);
        v := LowBits(32 - numBitsToWrite, v);
        Associates(before, BitsOf(numBitsToWrite, byteValue), BitsOf(rest, v));
        left := left - numBitsToWrite;
        numBitsToWrite := 8 - iBitCount % 8;
      }
      PutInByte(left, v);
    }

    method PutBit(iBit: bit)
      requires Valid()
      modifies this, pData
      ensures Valid() && pData == old(pData)
      ensures Contents == old(Contents) + [iBit]
    {
      Pow2Values();
      PutBits(1, iBit);
      assert BitsOf(1, iBit) == BitsOf(0, iBit / 2) + [iBit];
    }

    method AlignWithBits(iBit: bit)
      requires Valid()
      modifies this, pData
      ensures Valid() && pData == old(pData)
      ensures Contents == old(Contents) + Repeat(Padding(|old(Contents)|), iBit)
      ensures |Contents| % 8 == 0
    {
      ghost var put := 0;
      ghost var total := Padding(iBitCount);
      while iBitCount % 8 != 0
        invariant Valid() && pData == old(pData)
        invariant put + Padding(iBitCount) == total
        invariant Contents == old(Contents) + Repeat(put, iBit)
        decreases Padding(iBitCount)
      {
        OneMore(old(Contents), put, iBit);
        PaddingStep(iBitCount);
        PutBit(iBit);
        put := put + 1;
      }
    }

    method PutU(iNumBits: nat, uValue: uint32)
      requires Valid()
      requires iNumBits <= 32
      requires iNumBits == 32 || uValue < Pow2(iNumBits)
      requires iNumBits > 0 || iBitCount != iMaxBits
      modifies this, pData
      ensures Valid() && pData == old(pData)
      ensures Contents == old(Contents) + BitsOf(iNumBits, uValue)
    {
      PutBits(iNumBits, uValue);
    }

    method PutI(iNumBits: nat, iValue: int)
      requires Valid()
      requires iNumBits <= 32
      requires -0x8000_0000 <= iValue < 0x8000_0000
      requires 0 <= iValue + Pow2(iNumBits)
      requires iNumBits == 32 || iValue < Pow2(iNumBits)
      requires iNumBits > 0 || iBitCount != iMaxBits
      modifies this, pData
      ensures Valid() && pData == old(pData)
      ensures Contents == old(Contents) + BitsOf(iNumBits, TwosComplement(iNumBits, iValue))
    {
      hide BitsOf, LowBits, Holds, Pow2;
      Pow2Of32();
      var uValue: uint32;
      if iValue >= 0 {
        uValue := iValue;
      } else {
        uValue := -iValue;
        uValue := (0xFFFF_FFFF - uValue + 1) % 0x1_0000_0000;
        assert uValue == iValue + 0x1_0000_0000;
        if iNumBits != 32 {
          NegativeMasked(iNumBits, iValue);
          LowBitsAtMost(iNumBits, uValue);
          uValue := LowBits(iNumBits, uValue);
        }
      }
      PutBits(iNumBits, uValue);
    }

    method PutVclBits(uCodeLength: nat, uValue: nat)
      requires Valid()
      requires uCodeLength == 2 * Log2(uValue + 1) + 1
      requires uValue < 0x7FFF_FFFF
      modifies this, pData
      ensures Valid() && pData == old(pData)
      ensures Contents == old(Contents) + UeBits(uValue)
    {
      hide BitsOf, Repeat, Holds, ByteAt, Log2, Pow2;
      ghost var n := Log2(uValue + 1);
      CodeFits(uValue);
      if uCodeLength == 1 {
        PutU(1, 1);
      } else {
        var uInfoLength := (uCodeLength - 1) / 2;
        var iBits := uValue + 1 - Pow2(uInfoLength);
        PutBits(uInfoLength, 0);
        PutBits(1, 1);
        PutBits(uInfoLength, iBits);
        assert Contents == old(Contents) + (Repeat(n, 0) + [1] + BitsOf(n, iBits));
      }
    }

    static method BitScanReverse(nn: nat) returns (i: int)
      requires nn > 0
      ensures i == Log2(nn)
    {
      var n := nn;
      i := -1;
      while n != 0
        invariant i >= -1 && (n == 0 ==> i == Log2(nn)) && (n != 0 ==> i + 1 + Log2(n) == Log2(nn))
        decreases n
      {
        n := n / 2;
        i := i + 1;
      }
    }

    method PutUE(uValue: nat)
      requires Valid()
      requires uValue < 0x7FFF_FFFF
      modifies this, pData
      ensures Valid() && pData == old(pData)
      ensures Contents == old(Contents) + UeBits(uValue)
    {
      var msb := BitScanReverse(uValue + 1);
      PutVclBits(1 + 2 * msb, uValue);
    }

    method PutSE(iValue: int)
      requires Valid()
      requires -0x4000_0000 < iValue < 0x4000_0000
      modifies this, pData
      ensures Valid() && pData == old(pData)
      ensures Contents == old(Contents) + SeBits(iValue)
    {
      PutUE(2 * (if iValue > 0 then iValue else -iValue) - (if iValue > 0 then 1 else 0));
    }
  }

  /** The three fields of the code word of a value below 2^31 - 1 fit their widths. */
  lemma CodeFits(v: nat)
    requires v < 0x7FFF_FFFF
    ensures Log2(v + 1) <= 30 && Pow2(1) == 2
    ensures v + 1 - Pow2(Log2(v + 1)) < Pow2(Log2(v + 1)) < 0x8000_0000
    ensures BitsOf(1, 1) == [1] && BitsOf(Log2(v + 1), 0) == Repeat(Log2(v + 1), 0)
    ensures Log2(v + 1) == 0 ==> UeBits(v) == [1]
  {
    var n := Log2(v + 1);
    Pow2Of32();
    if n >= 31 {
      Pow2Monotone(31, n);
    }
    Pow2Monotone(n, 30);
    BitsOfZeros(n);
    assert BitsOf(1, 1) == BitsOf(0, 0) + [1];
  }

  lemma BitsOfZeros(n: nat)
    ensures BitsOf(n, 0) == Repeat(n, 0)
  {
  }

  /** Negating in 32 bits and masking to `n` is two's complement on `n` bits. */
  lemma NegativeMasked(n: nat, v: int)
    requires n <= 32 && 0 <= v + Pow2(n) && -0x8000_0000 <= v < 0
    ensures LowBits(n, v + 0x1_0000_0000) == TwosComplement(n, v)
  {
    hide *;
    Pow2Of32();
    LowBitsIsMod(n, v + 0x1_0000_0000);
    Pow2Splits(n, 32 - n);
    WrapsOnce(v, Pow2(n), Pow2(32 - n));
    TwosComplementOfNegative(n, v);
  }

  lemma TwosComplementOfNegative(n: nat, v: int)
    requires 0 <= v + Pow2(n) && v < 0
    ensures TwosComplement(n, v) == v + Pow2(n)
  {
  }

  lemma WrapsOnce(v: int, p: nat, q: nat)
    requires p > 0 && 0 <= v + p && v < 0
    ensures (v + p * q) % p == v + p
  {
    assert v + p * q == p * (q - 1) + (v + p);
    ModUnique(v + p * q, p, q - 1, v + p);
  }

  lemma Pow2Splits(a: nat, b: nat)
    ensures Pow2(a + b) == Pow2(a) * Pow2(b)
  {
    ShlOfOne(a + b);
    ShlShl(1, a, b);
    ShlOfOne(a);
    ShlAsProduct(Pow2(a), b);
  }

  lemma PaddingStep(n: nat)
    requires n % 8 != 0
    ensures Padding(n) == Padding(n + 1) + 1
  {
  }

  lemma OneMore(bs: seq<bit>, n: nat, b: bit)
    ensures bs + Repeat(n, b) + [b] == bs + Repeat(n + 1, b)
  {
  }

  // ---- The arithmetic of one byte ----

  lemma EarlierBytesKept(bs: seq<bit>, x: seq<bit>)
    ensures forall k: nat :: 8 * k + 8 <= |bs| ==> ByteAt(bs + x, k) == ByteAt(bs, k)
  {
    forall k: nat | 8 * k + 8 <= |bs| ensures ByteAt(bs + x, k) == ByteAt(bs, k) {
      assert Window(bs + x, k) == Window(bs, k);
    }
  }

  lemma HoldsMore(data: seq<uint8>, bs: seq<bit>, x: seq<bit>)
    requires Holds(data, bs) && |bs| % 8 + |x| <= 8
    ensures |bs| >= 8 * |data| ==> Holds(data, bs + x)
    ensures |bs| < 8 * |data| && |bs| % 8 + |x| > 0 ==>
      Holds(data[|bs| / 8 := ByteAt(bs + x, |bs| / 8)], bs + x)
  {
    EarlierBytesKept(bs, x);
  }

  /** The first chunk of a byte: whatever lies above its `n` low bits is shifted out. */
  lemma FreshByte(bs: seq<bit>, v: uint32, n: nat)
    requires |bs| % 8 == 0 && n <= 8
    ensures n > 0 ==> ToByte(Shl32(v, 8 - n)) == ByteAt(bs + BitsOf(n, v), |bs| / 8)
  {
    hide BitsOf, Shl32, ToByte, PadByte;
    if n > 0 {
      ShiftedByte(v, n);
      FreshWindow(bs, BitsOf(n, v));
    }
  }

  lemma FreshWindow(bs: seq<bit>, x: seq<bit>)
    requires |bs| % 8 == 0 && 0 < |x| <= 8
    ensures Window(bs + x, |bs| / 8) == x
  {
    assert Window(bs + x, |bs| / 8) == (bs + x)[|bs|..];
  }

  lemma ShiftedByte(v: uint32, n: nat)
    requires n <= 8
    ensures ToByte(Shl32(v, 8 - n)) == PadByte(BitsOf(n, v))
  {
    var s := Shl(v, 8 - n);
    ModWidths(s);
    ModWidths(Shl32(v, 8 - n));
    BitsOfLowBits(8, 32, s);
    BitsOfShl(n, 8 - n, v);
  }

  /** A later chunk is added below the bits already in the byte, without carry. */
  lemma ExtendedByte(bs: seq<bit>, v: uint32, n: nat)
    requires 0 < |bs| % 8 && |bs| % 8 + n <= 8 && v < Pow2(n)
    ensures ToByte(ByteAt(bs, |bs| / 8) + Shl32(v, 8 - |bs| % 8 - n)) == ByteAt(bs + BitsOf(n, v), |bs| / 8)
  {
    hide BitsOf, Shl32, ToByte, PadByte, Pow2;
    var k := |bs| / 8;
    LastWindow(bs, BitsOf(n, v));
    AddedBelow(Window(bs, k), v, n);
  }

  lemma LastWindow(bs: seq<bit>, x: seq<bit>)
    requires 0 < |bs| % 8 && |bs| % 8 + |x| <= 8
    ensures |Window(bs, |bs| / 8)| == |bs| % 8
    ensures Window(bs + x, |bs| / 8) == Window(bs, |bs| / 8) + x
  {
    var k := |bs| / 8;
    assert Window(bs, k) == bs[8 * k..];
    assert Window(bs + x, k) == (bs + x)[8 * k..];
  }

  lemma AddedBelow(w: seq<bit>, v: uint32, n: nat)
    requires |w| + n <= 8 && v < Pow2(n)
    ensures ToByte(PadByte(w) + Shl32(v, 8 - |w| - n)) == PadByte(w + BitsOf(n, v))
  {
    hide Val, Repeat, Shl, BitsOf, Pow2;
    var total: uint8 := PadByte(w + BitsOf(n, v));
    ValOfBits(n, v);
    ZerosReplaced(w, BitsOf(n, v), 8 - |w| - n);
    assert total == PadByte(w) + Shl(v, 8 - |w| - n);
  }

  lemma ZerosReplaced(w: seq<bit>, x: seq<bit>, r: nat)
    ensures Val(w + x + Repeat(r, 0)) == Val(w + Repeat(|x| + r, 0)) + Shl(Val(x), r)
  {
    hide *;
    var n := |x|;
    ValConcat(w, x);
    ValConcat(w + x, Repeat(r, 0));
    ValConcat(w, Repeat(n + r, 0));
    ValRepeat(n + r);
    ValRepeat(r);
    ShlSum(Shl(Val(w), n), Val(x), r);
    ShlShl(Val(w), n, r);
  }

  /** One turn of the loop in PutBits: the chunk holds the next bits of the value, and the rest is kept. */
  lemma NextChunk(v: uint32, k: nat, rest: nat, o: nat)
    requires k <= 8 && k + rest <= 32
    requires o != 0 ==> v < Pow2(k + rest)
    ensures BitsOf(k + rest, v) == BitsOf(k, ToByte(Shr(v, rest))) + BitsOf(rest, LowBits(32 - k, v))
    ensures o != 0 ==> ToByte(Shr(v, rest)) < Pow2(k)
    ensures LowBits(32 - k, v) < 0x1_0000_0000
  {
    ModWidths(Shr(v, rest));
    BitsOfLowBits(k, 8, Shr(v, rest));
    BitsOfLowBits(rest, 32 - k, v);
    BitsOfSplit(k, rest, v);
    if o != 0 {
      ShrBound(v, k, rest);
      Pow2Monotone(k, 8);
      LowBitsAtMost(8, Shr(v, rest));
    }
    LowBitsAtMost(32 - k, v);
  }

  // ---- Reading the bytes back ----

  /** The bits of some bytes, first byte and highest bit first. */
  function Unpack(bytes: seq<uint8>): seq<bit>
  {
    if bytes == [] then [] else BitsOf(8, bytes[0]) + Unpack(bytes[1..])
  }

  lemma {:induction false} UnpackAppend(a: seq<uint8>, b: seq<uint8>)
    ensures Unpack(a + b) == Unpack(a) + Unpack(b)
  {
    if a == [] {
      assert a + b == b;
    } else {
      hide BitsOf;
      assert (a + b)[1..] == a[1..] + b;
      UnpackAppend(a[1..], b);
      Associates(BitsOf(8, a[0]), Unpack(a[1..]), Unpack(b));
    }
  }

  lemma UnpackByte(w: seq<bit>)
    requires |w| <= 8
    ensures BitsOf(8, PadByte(w)) == w + Repeat(8 - |w|, 0)
  {
    BitsOfVal(w + Repeat(8 - |w|, 0));
  }

  lemma PackedRest(bs: seq<bit>)
    requires |bs| >= 8
    ensures Packed(bs) != [] && Packed(bs)[0] == PadByte(bs[..8]) && Packed(bs)[1..] == Packed(bs[8..])
  {
    hide PadByte;
    assert Window(bs, 0) == bs[..8];
    forall k: nat | k < |Packed(bs[8..])| ensures ByteAt(bs[8..], k) == ByteAt(bs, k + 1) {
      LaterWindow(bs, k);
    }
  }

  lemma LaterWindow(bs: seq<bit>, k: nat)
    requires 8 * k + 8 < |bs|
    ensures Window(bs[8..], k) == Window(bs, k + 1)
  {
    SliceOfDrop(bs, 8, 8 * k, if 8 * k + 16 <= |bs| then 8 * k + 8 else |bs| - 8);
  }

  /** Packing loses nothing: unpacking the bytes gives the bits back, and zeros up to the last byte's end. */
  lemma {:induction false} UnpackPacked(bs: seq<bit>)
    ensures Unpack(Packed(bs)) == bs + Repeat(Padding(|bs|), 0)
    decreases |bs|
  {
    hide Packed, Repeat, Unpack;
    if |bs| >= 8 {
      var zeros := Repeat(Padding(|bs|), 0);
      UnpackPacked(bs[8..]);
      assert Padding(|bs[8..]|) == Padding(|bs|);
      UnpackFirst(bs);
      Associates(bs[..8], bs[8..], zeros);
      assert bs == bs[..8] + bs[8..];
    } else {
      UnpackShort(bs);
    }
  }

  lemma UnpackFirst(bs: seq<bit>)
    requires |bs| >= 8
    ensures Unpack(Packed(bs)) == bs[..8] + Unpack(Packed(bs[8..]))
  {
    hide PadByte, BitsOf, Packed;
    PackedRest(bs);
    UnpackByte(bs[..8]);
    assert Repeat(0, 0) == [] && bs[..8] + [] == bs[..8];
  }

  lemma UnpackShort(bs: seq<bit>)
    requires |bs| < 8
    ensures Unpack(Packed(bs)) == bs + Repeat(Padding(|bs|), 0)
  {
    hide PadByte, BitsOf, Repeat, Unpack, Window;
    if bs == [] {
      UnpackNone();
    } else {
      PackedShort(bs);
      UnpackByte(bs);
      UnpackOne(PadByte(bs));
    }
  }

  lemma PackedShort(bs: seq<bit>)
    requires 0 < |bs| <= 8
    ensures Packed(bs) == [PadByte(bs)]
  {
    assert Window(bs, 0) == bs;
  }

  lemma UnpackNone()
    ensures Unpack(Packed([])) == [] + Repeat(Padding(0), 0)
  {
  }

  lemma UnpackOne(b: uint8)
    ensures Unpack([b]) == BitsOf(8, b)
  {
    assert [b][1..] == [];
  }

  /** Bytes that start with the packed form of some bits start with these bits. */
  lemma UnpackPrefix(bs: seq<bit>, bytes: seq<uint8>)
    requires Packed(bs) <= bytes
    ensures bs <= Unpack(bytes)
  {
    hide Packed, Unpack;
    var rest := bytes[|Packed(bs)|..];
    assert bytes == Packed(bs) + rest;
    UnpackAppend(Packed(bs), rest);
    UnpackPacked(bs);
  }
}
