/** Streaming MD5: class CMD5 of lib_app/MD5.cpp. */
module Md5Digest {
  import opened Md5

  const TWO_64 := 0x1_0000_0000_0000_0000

  // ---- The digest of a whole message (RFC 1321, sections 3.1, 3.2 and 3.5) ----

  function Zeros(n: nat): (z: seq<byte>) ensures |z| == n { seq(n, _ => 0) }

  /** The number of zero bits appended after the single one bit, in bytes: the least that leaves room for the length. */
  function ZeroCount(n: nat): (z: nat)
    ensures (n + 1 + z) % 64 == 56 && (n + 1 + z + 8) % 64 == 0 && z < 64
  {
    (119 - n % 64) % 64
  }

  function LittleEndian(x: nat, n: nat): (s: seq<byte>)
    ensures |s| == n
    decreases n
  {
    if n == 0 then [] else [(x % 256) as byte] + LittleEndian(x / 256, n - 1)
  }

  function Padded(message: seq<byte>): (p: seq<byte>)
    ensures |p| == |message| + 1 + ZeroCount(|message|) + 8
    ensures |p| % 64 == 0
  {
    message + [0x80] + Zeros(ZeroCount(|message|)) + Length(|message|)
  }

  /** The low-order 64 bits of the length in bits. */
  function Length(n: nat): (s: seq<byte>) ensures |s| == 8 { LittleEndian(8 * n % TWO_64, 8) }

  /** Compresses the data block by block. */
  function Blocks(r: Registers, data: seq<byte>): Registers
    requires |data| % 64 == 0
    decreases |data|
  {
    if data == [] then r else Blocks(Compress(r, data[..64]), data[64..])
  }

  function ByteOf(w: bv32, k: nat): byte
    requires k < 4
  {
    ((w >> (8 * k)) & 0xFF) as byte
  }

  /** Byte `h` of the hash, low-order byte of each word first. */
  function HashByte(r: Registers, h: nat): byte
    requires h < 16
  {
    ByteOf(if h < 4 then r.a else if h < 8 then r.b else if h < 12 then r.c else r.d, h % 4)
  }

  function HexDigit(k: nat): char
    requires k < 16
  {
    "0123456789abcdef"[k]
  }

  function HexByte(b: byte): string { [HexDigit((b / 16) as nat), HexDigit((b % 16) as nat)] }

  function Hex(r: Registers, n: nat): string
    requires n <= 16
  {
    if n == 0 then "" else Hex(r, n - 1) + HexByte(HashByte(r, n - 1))
  }

  function Digest(message: seq<byte>): string { Hex(Blocks(Initial(), Padded(message)), 16) }

  lemma {:induction false} BlocksAppend(r: Registers, a: seq<byte>, b: seq<byte>)
    requires |a| % 64 == 0 && |b| % 64 == 0
    ensures Blocks(r, a + b) == Blocks(Blocks(r, a), b)
    decreases |a|
  {
    hide Compress;
    if a == [] {
      assert a + b == b;
    } else {
      assert (a + b)[..64] == a[..64] && (a + b)[64..] == a[64..] + b;
      BlocksAppend(Compress(r, a[..64]), a[64..], b);
    }
  }

  lemma OneBlock(r: Registers, block: seq<byte>)
    requires |block| == 64
    ensures Blocks(r, block) == Compress(r, block)
  {
    hide Compress;
    assert block[..64] == block && block[64..] == [];
  }

  lemma ZeroCountIsLeast(n: nat, z: nat)
    requires (n + 1 + z) % 64 == 56
    ensures z >= ZeroCount(n) && (z < 64 ==> z == ZeroCount(n))
  {
  }

  lemma ZeroCountCases(n: nat)
    ensures n % 64 < 56 ==> ZeroCount(n) == 55 - n % 64
    ensures n % 64 >= 56 ==> ZeroCount(n) == 119 - n % 64
  {
  }

  lemma ZerosJoin(all: seq<byte>, m: nat, n: nat)
    ensures all + Zeros(m) + Zeros(n) == all + Zeros(m + n)
  {
  }

  lemma CountWraps(n: nat, b: nat)
    ensures (n % TWO_64 + b) % TWO_64 == (n + b) % TWO_64
  {
    assert n + b == (n % TWO_64 + b) + n / TWO_64 * TWO_64;
    ModAddMultiple(n % TWO_64 + b, n / TWO_64);
  }

  lemma LengthWraps(n: nat)
    ensures Length(n % TWO_64) == Length(n)
  {
    var q := n / TWO_64;
    assert 8 * n == 8 * (n % TWO_64) + (8 * q) * TWO_64;
    ModAddMultiple(8 * (n % TWO_64), 8 * q);
  }

  lemma {:induction false} ModAddMultiple(x: nat, q: nat)
    ensures (x + q * TWO_64) % TWO_64 == x % TWO_64
    decreases q
  {
    if q > 0 {
      ModAddMultiple(x, q - 1);
    }
  }

  /** `message` is everything passed to Update since the object was made. */
  class CMD5 {
    var m_hash: Registers
    var m_uNumBytes: nat
    const m_pBound: array<byte>
    var m_uBound: nat
    ghost var message: seq<byte>

    /** The whole blocks of `all` are in the hash, the bytes after them in the buffer. */
    ghost predicate Holds(all: seq<byte>)
      reads this`m_hash, this`m_uBound, m_pBound
    {
      m_pBound.Length == 64 && m_uBound <= 64 && m_uBound <= |all|
      && (|all| - m_uBound) % 64 == 0
      && m_pBound[..m_uBound] == all[|all| - m_uBound..]
      && m_hash == Blocks(Initial(), all[..|all| - m_uBound])
    }

    ghost predicate Valid()
      reads this, m_pBound
    {
      Holds(message) && m_uBound < 64 && m_uNumBytes == |message| % TWO_64
    }

    constructor ()
      ensures Valid() && message == [] && fresh(m_pBound)
    {
      m_hash, m_uNumBytes, m_uBound, message := Initial(), 0, 0, [];
      m_pBound := new byte[64](_ => 0);
    }

    method PutByte(b: byte, ghost all: seq<byte>)
      requires Holds(all) && m_uBound < 64
      modifies this`m_uBound, m_pBound
      ensures Holds(all + [b]) && m_uBound == old(m_uBound) + 1
    {
      hide Blocks;
      ghost var k := |all| - m_uBound;
      assert (all + [b])[..k] == all[..k] && (all + [b])[k..] == all[k..] + [b];
      m_pBound[m_uBound] := b;
      m_uBound := m_uBound + 1;
      assert m_pBound[..m_uBound] == m_pBound[..m_uBound - 1] + [b];
      assert m_pBound[..m_uBound - 1] == all[k..];
    }

    method CompressBuffer(ghost all: seq<byte>)
      requires Holds(all) && m_uBound == 64
      modifies this`m_uBound, this`m_hash
      ensures Holds(all) && m_uBound == 0
    {
      hide Blocks, Compress;
      ghost var k := |all| - 64;
      var block := m_pBound[..];
      assert block == m_pBound[..m_uBound] == all[k..];
      m_hash := UpdateBlock(m_hash, block);
      BlocksAppend(Initial(), all[..k], block);
      OneBlock(Blocks(Initial(), all[..k]), block);
      assert all[..k] + block == all == all[..|all|];
      m_uBound := 0;
    }

    method CompressBlock(block: seq<byte>, ghost all: seq<byte>)
      requires Holds(all) && m_uBound == 0 && |block| == 64
      modifies this`m_hash
      ensures Holds(all + block)
    {
      hide Blocks, Compress;
      assert all[..|all|] == all;
      m_hash := UpdateBlock(m_hash, block);
      BlocksAppend(Initial(), all, block);
      OneBlock(Blocks(Initial(), all), block);
      assert (all + block)[..|all| + 64] == all + block;
    }

    method Update(buffer: seq<byte>)
      requires Valid()
      modifies this`m_hash, this`m_uNumBytes, this`m_uBound, this`message, m_pBound
      ensures Valid() && message == old(message) + buffer
    {
      hide Blocks;
      Absorb(buffer);
      CountWraps(|message|, |buffer|);
      m_uNumBytes := (m_uNumBytes + |buffer|) % TWO_64;
      message := message + buffer;
    }

    /** Update without its byte count. */
    method Absorb(buffer: seq<byte>)
      requires Holds(message) && m_uBound < 64
      modifies this`m_hash, this`m_uBound, m_pBound
      ensures Holds(message + buffer) && m_uBound < 64
    {
      hide Blocks, Holds;
      var i := 0;
      assert message + buffer[..0] == message;
      if m_uBound != 0 {
        i := FillBuffer(buffer);
      }
      if m_uBound == 64 {
        CompressBuffer(message + buffer[..i]);
      }
      while |buffer| - i >= 64
        invariant i <= |buffer| && Holds(message + buffer[..i])
        invariant i == |buffer| || m_uBound == 0
        invariant m_uBound < 64
      {
        assert message + buffer[..i + 64] == message + buffer[..i] + buffer[i..i + 64];
        CompressBlock(buffer[i..i + 64], message + buffer[..i]);
        i := i + 64;
      }
      PutRest(buffer, i);
    }

    /** The last loop of Update. */
    method PutRest(buffer: seq<byte>, start: nat)
      requires start <= |buffer| && Holds(message + buffer[..start]) && m_uBound + (|buffer| - start) < 64
      modifies this`m_uBound, m_pBound
      ensures Holds(message + buffer) && m_uBound < 64
    {
      hide Blocks, Holds;
      var i := start;
      while i < |buffer|
        invariant i <= |buffer| && Holds(message + buffer[..i])
        invariant m_uBound + (|buffer| - i) < 64
      {
        assert message + buffer[..i + 1] == message + buffer[..i] + [buffer[i]];
        PutByte(buffer[i], message + buffer[..i]);
        i := i + 1;
      }
      assert buffer[..i] == buffer;
    }

    /** The first loop of Update: completes a partial block as far as the data goes. */
    method FillBuffer(buffer: seq<byte>) returns (i: nat)
      requires Holds(message)
      modifies this`m_uBound, m_pBound
      ensures i <= |buffer| && Holds(message + buffer[..i])
      ensures m_uBound <= 64 && (i == |buffer| || m_uBound == 64)
    {
      hide Blocks, Holds;
      i := 0;
      assert message + buffer[..0] == message;
      while i < |buffer| && m_uBound < 64
        invariant i <= |buffer| && Holds(message + buffer[..i])
      {
        assert message + buffer[..i + 1] == message + buffer[..i] + [buffer[i]];
        PutByte(buffer[i], message + buffer[..i]);
        i := i + 1;
      }
      BoundAtMost(message + buffer[..i]);
    }

    lemma BoundAtMost(all: seq<byte>)
      requires Holds(all)
      ensures m_uBound <= 64
    {
    }

    /** Ends the message. The object is not meant to be used afterwards. */
    method GetMD5() returns (sMD5: string)
      requires Valid()
      modifies this`m_hash, this`m_uBound, m_pBound
      ensures sMD5 == Digest(message)
    {
      hide Blocks;
      assert m_uBound == |message| % 64;
      hide Holds, Length;
      PutPadding();
      PutLength(message + [0x80] + Zeros(ZeroCount(|message|)));
      LengthWraps(|message|);
      sMD5 := ToHex();
    }

    /** Everything but the length. */
    method PutPadding()
      requires Holds(message) && m_uBound == |message| % 64
      modifies this`m_hash, this`m_uBound, m_pBound
      ensures m_uBound == 56 && Holds(message + [0x80] + Zeros(ZeroCount(|message|)))
    {
      hide Blocks, Holds, Zeros, ZeroCount;
      ghost var all, u := message + [0x80], m_uBound;
      ZeroCountCases(|message|);
      PutByte(0x80, message);
      if 64 - m_uBound < 8 {
        PutZeros(64, all);
        CompressBuffer(all + Zeros(63 - u));
        PutZeros(56, all + Zeros(63 - u));
        ZerosJoin(all, 63 - u, 56);
      } else {
        PutZeros(56, all);
      }
    }

    method PutZeros(limit: nat, ghost all: seq<byte>)
      requires Holds(all) && m_uBound <= limit <= 64
      modifies this`m_uBound, m_pBound
      ensures m_uBound == limit && Holds(all + Zeros(limit - old(m_uBound)))
    {
      hide Blocks, Holds;
      ghost var start := m_uBound;
      assert all + Zeros(0) == all;
      while m_uBound < limit
        invariant start <= m_uBound <= limit && Holds(all + Zeros(m_uBound - start))
      {
        assert all + Zeros(m_uBound - start) + [0] == all + Zeros(m_uBound - start + 1);
        PutByte(0, all + Zeros(m_uBound - start));
      }
    }

    /** Stores the length in the last eight bytes of the block and compresses it. */
    method PutLength(ghost all: seq<byte>)
      requires Holds(all) && m_uBound == 56 && |all| % 64 == 56
      modifies this`m_hash, m_pBound
      ensures (|all| + 8) % 64 == 0 && m_hash == Blocks(Initial(), all + Length(m_uNumBytes))
    {
      hide Blocks, Compress, LittleEndian;
      ghost var k := |all| - 56;
      var append := Length(m_uNumBytes);
      for j := 0 to 8
        invariant m_hash == old(m_hash) && m_pBound[..56] == all[k..]
        invariant m_pBound[56..56 + j] == append[..j]
      {
        m_pBound[56 + j] := append[j];
      }
      var block := m_pBound[..];
      assert block == m_pBound[..56] + m_pBound[56..64];
      assert all[..k] + block == all + append;
      assert k % 64 == 0;
      m_hash := UpdateBlock(m_hash, block);
      BlocksAppend(Initial(), all[..k], block);
      OneBlock(Blocks(Initial(), all[..k]), block);
    }

    method ToHex() returns (s: string)
      ensures s == Hex(m_hash, 16)
    {
      s := "";
      for h := 0 to 16
        invariant s == Hex(m_hash, h)
      {
        hide HashByte;
        var digits := ToHexByte(HashByte(m_hash, h));
        s := s + digits;
      }
    }
  }

  method ToHexByte(b: byte) returns (s: string)
    ensures s == HexByte(b)
  {
    HighAndLow(b);
    s := [HexDigit((b >> 4) as nat)] + [HexDigit((b & 15) as nat)];
  }

  lemma HighAndLow(b: byte)
    ensures b >> 4 < 16 && b & 15 < 16
    ensures HexByte(b) == [HexDigit((b >> 4) as nat)] + [HexDigit((b & 15) as nat)]
  {
    hide HexDigit;
    assert b >> 4 == b / 16 && b & 15 == b % 16 && b / 16 < 16 && b % 16 < 16;
  }
}
