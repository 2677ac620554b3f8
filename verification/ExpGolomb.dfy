/** Exp-Golomb codes and their parser, sections 9.1 and 9.1.1 of ITU-T H.264. */
module ExpGolomb {
  import opened Bits

  datatype Parse<+T> = NoParse | Parsed(value: T, rest: seq<bit>)

  /** The position of the highest set bit. */
  function Log2(v: nat): (n: nat)
    requires v > 0
    ensures Pow2(n) <= v < Pow2(n + 1)
  {
    if v == 1 then 0 else Log2(v / 2) + 1
  }

  /** The code word of `v`: n zeros, a one, and the n bits of v + 1 below its leading one. */
  function UeBits(v: nat): seq<bit>
  {
    var n := Log2(v + 1);
    Repeat(n, 0) + [1] + BitsOf(n, v + 1 - Pow2(n))
  }

  function SeCode(v: int): nat { if v > 0 then 2 * v - 1 else -2 * v }

  function SeBits(v: int): seq<bit> { UeBits(SeCode(v)) }

  /** The number of zeros before the first one, or the length when there is no one. */
  function LeadingZeros(bs: seq<bit>): (n: nat)
    ensures n <= |bs|
    ensures n < |bs| ==> bs[n] == 1
    ensures forall i :: 0 <= i < n ==> bs[i] == 0
  {
    if bs == [] || bs[0] == 1 then 0 else 1 + LeadingZeros(bs[1..])
  }

  /** ue(v): count the leading zeros, skip the one, read as many bits as there were zeros. */
  function ReadUe(bs: seq<bit>): Parse<nat>
  {
    var n := LeadingZeros(bs);
    if |bs| < 2 * n + 1 then NoParse else Parsed(Pow2(n) - 1 + Val(bs[n + 1..2 * n + 1]), bs[2 * n + 1..])
  }

  /** se(v): codeNum k stands for k/2 rounded up, positive when k is odd. */
  function ReadSe(bs: seq<bit>): Parse<int>
  {
    match ReadUe(bs)
    case NoParse => NoParse
    case Parsed(k, rest) => Parsed(if k % 2 == 1 then (k + 1) / 2 else -(k / 2), rest)
  }

  lemma {:induction false} Log2Unique(v: nat, n: nat)
    requires Pow2(n) <= v < Pow2(n + 1)
    ensures Log2(v) == n
  {
    if Log2(v) < n {
      Pow2Monotone(Log2(v) + 1, n);
    } else if n < Log2(v) {
      Pow2Monotone(n + 1, Log2(v));
    }
  }

  lemma LeadingZerosIs(bs: seq<bit>, n: nat)
    requires n < |bs| && bs[n] == 1 && forall i :: 0 <= i < n ==> bs[i] == 0
    ensures LeadingZeros(bs) == n
  {
  }

  /** Reading is the exact inverse of writing: a parse succeeds with `v` precisely on the code word of `v`. */
  lemma ReadUeIffUeBits(bs: seq<bit>, v: nat, rest: seq<bit>)
    ensures ReadUe(bs) == Parsed(v, rest) <==> bs == UeBits(v) + rest
  {
    hide ReadUe, UeBits;
    ReadAfterUe(v, rest);
    if ReadUe(bs) == Parsed(v, rest) {
      UeBitsRead(bs, v, rest);
    }
  }

  lemma UeBitsRead(bs: seq<bit>, v: nat, rest: seq<bit>)
    requires ReadUe(bs) == Parsed(v, rest)
    ensures bs == UeBits(v) + rest
  {
    hide Val, BitsOf, Log2;
    var n := LeadingZeros(bs);
    var info := bs[n + 1..2 * n + 1];
    ValBound(info);
    Log2Unique(v + 1, n);
    BitsOfVal(info);
    assert bs == Repeat(n, 0) + [1] + info + rest;
  }

  lemma ReadAfterUe(v: nat, rest: seq<bit>)
    ensures ReadUe(UeBits(v) + rest) == Parsed(v, rest)
  {
    var n := Log2(v + 1);
    var bs := UeBits(v) + rest;
    LeadingZerosIs(bs, n);
    assert bs[n + 1..2 * n + 1] == BitsOf(n, v + 1 - Pow2(n));
    ValOfBits(n, v + 1 - Pow2(n));
    assert bs[2 * n + 1..] == rest;
  }

  lemma ReadSeIffSeBits(bs: seq<bit>, v: int, rest: seq<bit>)
    ensures ReadSe(bs) == Parsed(v, rest) <==> bs == SeBits(v) + rest
  {
    hide UeBits, ReadUe;
    ReadUeIffUeBits(bs, SeCode(v), rest);
  }

  /** Two's complement on `n` bits, read back as a signed value. */
  function ReadSigned(bs: seq<bit>): int
    requires |bs| > 0
  {
    Val(bs[1..]) - (if bs[0] == 1 then Pow2(|bs| - 1) else 0)
  }

  function TwosComplement(n: nat, v: int): nat
    requires 0 <= v + Pow2(n)
  {
    if v >= 0 then v else v + Pow2(n)
  }

  lemma ReadSignedOfTwosComplement(n: nat, v: int)
    requires n > 0 && 0 <= v + Pow2(n - 1) && v < Pow2(n - 1)
    ensures ReadSigned(BitsOf(n, TwosComplement(n, v))) == v
  {
    var u := TwosComplement(n, v);
    var bs := BitsOf(n, u);
    ValOfBits(n, u);
    assert bs == bs[..1] + bs[1..];
    ValConcat(bs[..1], bs[1..]);
    ValBound(bs[1..]);
    ShlOfOne(n - 1);
    assert Val(bs[..1]) == bs[0];
  }
}
