/** Emulation prevention (section 7.3.1.1 of ITU-T H.265) and the size it adds, as counted by
    AddAntiEmulSizeInBytes of lib_bitstream/HEVC_SkippedPict.c. */
module AntiEmulation {
  import opened Bits
  import opened BitStream

  /** Inserts a byte 3 before any byte of at most 3 that follows two zeros; `zeros` counts those already seen. */
  function Escape(data: seq<uint8>, zeros: nat): seq<uint8>
    requires zeros <= 2
  {
    if data == [] then []
    else if zeros == 2 && data[0] <= 3 then
      [3, data[0]] + Escape(data[1..], if data[0] == 0 then 1 else 0)
    else
      [data[0]] + Escape(data[1..], if data[0] == 0 then zeros + 1 else 0)
  }

  function Escaped(data: seq<uint8>): seq<uint8> { Escape(data, 0) }

  /** The decoder's side: 0x000003 stands for two zero bytes. */
  function Unescape(data: seq<uint8>): seq<uint8>
  {
    if data == [] then []
    else if |data| >= 3 && data[0] == data[1] == 0 && data[2] == 3 then [0, 0] + Unescape(data[3..])
    else [data[0]] + Unescape(data[1..])
  }

  function Zeros(n: nat): (z: seq<uint8>)
    requires n <= 2
    ensures |z| == n
  {
    if n == 0 then [] else if n == 1 then [0] else [0, 0]
  }

  predicate NoStartCode(data: seq<uint8>)
  {
    forall i :: 0 <= i && i + 2 < |data| && data[i] == 0 && data[i + 1] == 0 ==> data[i + 2] >= 3
  }

  /** Section 7.4.2 of H.265, from byte `i` on: no start code or other reserved sequence, and 0x000003 only in front of
      a byte that it has to be kept apart from. */
  predicate SafeAt(data: seq<uint8>, i: nat)
  {
    i + 2 < |data| && data[i] == 0 && data[i + 1] == 0 ==>
      data[i + 2] >= 3 && (data[i + 2] == 3 ==> i + 3 < |data| && data[i + 3] <= 3)
  }

  predicate Conformant(data: seq<uint8>) { forall i: nat :: i < |data| ==> SafeAt(data, i) }

  lemma UnescapeByte(b: uint8, rest: seq<uint8>)
    requires b != 0
    ensures Unescape([b] + rest) == [b] + Unescape(rest)
  {
    assert ([b] + rest)[1..] == rest;
  }

  lemma UnescapeInserted(rest: seq<uint8>)
    ensures Unescape([0, 0, 3] + rest) == [0, 0] + Unescape(rest)
  {
    assert ([0, 0, 3] + rest)[3..] == rest;
  }

  /** At most two zeros not followed by an inserted byte stand for themselves. */
  lemma UnescapeZeros(n: nat, rest: seq<uint8>)
    requires n <= 2 && (rest == [] || (rest[0] != 0 && (n == 2 ==> rest[0] != 3)))
    ensures Unescape(Zeros(n) + rest) == Zeros(n) + Unescape(rest)
  {
    if n == 0 {
      assert Zeros(0) + rest == rest;
    } else {
      var data := Zeros(n) + rest;
      UnescapeZeros(n - 1, rest);
      assert data[1..] == Zeros(n - 1) + rest;
      assert n == 1 && rest != [] ==> data[1] == rest[0];
      assert n == 2 && rest != [] ==> data[2] == rest[0];
      assert Unescape(data) == [0] + Unescape(data[1..]);
    }
  }

  lemma EscapeStep(data: seq<uint8>, zeros: nat) returns (z: nat)
    requires zeros <= 2 && data != []
    ensures z == if data[0] != 0 then 0 else if zeros == 2 then 1 else zeros + 1
    ensures Escape(data, zeros)
         == (if zeros == 2 && data[0] <= 3 then [3, data[0]] else [data[0]]) + Escape(data[1..], z)
  {
    z := if data[0] != 0 then 0 else if zeros == 2 then 1 else zeros + 1;
  }

  /** Escaping loses nothing. */
  lemma {:induction false} UnescapeEscape(data: seq<uint8>, zeros: nat)
    requires zeros <= 2
    ensures Unescape(Zeros(zeros) + Escape(data, zeros)) == Zeros(zeros) + data
  {
    hide Unescape, Escape;
    if data == [] {
      EscapeNothing(zeros);
    } else {
      var b, rest := data[0], data[1..];
      var z := EscapeStep(data, zeros);
      var tail := Escape(rest, z);
      UnescapeEscape(rest, z);
      if b == 0 {
        if zeros == 2 {
          assert Zeros(zeros) + Escape(data, zeros) == [0, 0, 3] + (Zeros(1) + tail);
          UnescapeInserted(Zeros(1) + tail);
        } else {
          assert Zeros(zeros) + Escape(data, zeros) == Zeros(z) + tail;
        }
      } else {
        assert Zeros(0) + tail == tail && Zeros(0) + rest == rest;
        UnescapeByte(b, tail);
        if zeros == 2 && b <= 3 {
          assert Zeros(zeros) + Escape(data, zeros) == [0, 0, 3] + ([b] + tail);
          UnescapeInserted([b] + tail);
        } else {
          UnescapeZeros(zeros, [b] + tail);
        }
      }
    }
  }

  lemma EscapeNothing(zeros: nat)
    requires zeros <= 2
    ensures Escape([], zeros) == [] && Unescape(Zeros(zeros) + []) == Zeros(zeros)
  {
    UnescapeZeros(zeros, []);
  }

  /** Escaped data contains no three-byte start-code prefix or other forbidden pattern. */
  lemma {:induction false} EscapeIsSafe(data: seq<uint8>, zeros: nat)
    requires zeros <= 2
    ensures Conformant(Zeros(zeros) + Escape(data, zeros))
  {
    hide Escape;
    EscapeNothing(zeros);
    if data != [] {
      var b, rest := data[0], data[1..];
      var z := EscapeStep(data, zeros);
      EscapeIsSafe(rest, z);
      var tail := Escape(rest, z);
      if b == 0 && zeros < 2 {
        assert Zeros(zeros) + Escape(data, zeros) == Zeros(z) + tail;
      } else if zeros == 2 && b <= 3 {
        assert Zeros(zeros) + Escape(data, zeros) == [0, 0, 3, b] + tail;
        SafeAfterInserted(b, z, tail);
      } else {
        assert Zeros(zeros) + Escape(data, zeros) == Zeros(zeros) + [b] + tail;
        assert Zeros(0) + tail == tail;
        SafeAfterByte(zeros, b, tail);
      }
    }
  }

  lemma SafeAfterInserted(b: uint8, z: nat, tail: seq<uint8>)
    requires z == (if b == 0 then 1 else 0) && b <= 3 && Conformant(Zeros(z) + tail)
    ensures Conformant([0, 0, 3, b] + tail)
  {
    hide Conformant;
    if z == 1 {
      assert [0, 0, 3, b] + tail == [0, 0, 3] + (Zeros(1) + tail);
      SafeAfterThree(Zeros(1) + tail);
    } else {
      assert Zeros(0) + tail == tail && Zeros(0) + [b] + tail == [b] + tail;
      SafeAfterByte(0, b, tail);
      assert [0, 0, 3, b] + tail == [0, 0, 3] + ([b] + tail);
      SafeAfterThree([b] + tail);
    }
  }

  lemma SafeAfterThree(tail: seq<uint8>)
    requires Conformant(tail) && tail != [] && tail[0] <= 3
    ensures Conformant([0, 0, 3] + tail)
  {
    var all := [0, 0, 3] + tail;
    forall i: nat | i < |all| ensures SafeAt(all, i) {
      if i >= 3 {
        Shifted([0, 0, 3], tail, i - 3);
      }
    }
  }

  lemma SafeAfterByte(zeros: nat, b: uint8, tail: seq<uint8>)
    requires zeros <= 2 && b != 0 && (zeros == 2 ==> b > 3) && Conformant(tail)
    ensures Conformant(Zeros(zeros) + [b] + tail)
  {
    var front := Zeros(zeros) + [b];
    var all := front + tail;
    assert front[zeros] == b && |front| == zeros + 1;
    forall i: nat | i < |all| ensures SafeAt(all, i) {
      if i > zeros {
        Shifted(front, tail, i - zeros - 1);
      } else {
        assert all[zeros] == b;
      }
    }
  }

  lemma Shifted(front: seq<uint8>, tail: seq<uint8>, k: nat)
    requires Conformant(tail) && k < |tail|
    ensures SafeAt(front + tail, |front| + k)
  {
    assert SafeAt(tail, k);
    var all, i := front + tail, |front| + k;
    assert all[i] == tail[k];
    assert k + 1 < |tail| ==> all[i + 1] == tail[k + 1];
    assert k + 2 < |tail| ==> all[i + 2] == tail[k + 2];
    assert k + 3 < |tail| ==> all[i + 3] == tail[k + 3];
  }

  lemma EscapedIsReversibleAndSafe(data: seq<uint8>)
    ensures Unescape(Escaped(data)) == data
    ensures NoStartCode(Escaped(data)) && Conformant(Escaped(data))
  {
    UnescapeEscape(data, 0);
    EscapeIsSafe(data, 0);
    assert Zeros(0) + Escape(data, 0) == Escape(data, 0);
    NoStartCodes(Escaped(data));
  }

  lemma ConformantTail(data: seq<uint8>, k: nat)
    requires Conformant(data) && k <= |data|
    ensures Conformant(data[k..])
  {
    forall i: nat | i < |data[k..]| ensures SafeAt(data[k..], i) {
      assert SafeAt(data, k + i);
    }
  }

  lemma NoStartCodes(data: seq<uint8>)
    requires Conformant(data)
    ensures NoStartCode(data)
  {
    forall i | 0 <= i && i + 2 < |data| && data[i] == 0 && data[i + 1] == 0 ensures data[i + 2] >= 3 {
      assert SafeAt(data, i);
    }
  }

  /** Escaping again what was unescaped, behind some zeros that are not part of an inserted byte. */
  lemma {:induction false} EscapeUnescape(e: seq<uint8>, zeros: nat)
    requires zeros <= 2 && Conformant(Zeros(zeros) + e)
    requires zeros == 2 ==> e == [] || e[0] > 3
    requires zeros == 1 ==> |e| < 2 || e[0] != 0 || e[1] != 3
    ensures Escape(Unescape(e), zeros) == e
    decreases |e|
  {
    hide Conformant;
    if e != [] {
      var whole := Zeros(zeros) + e;
      assert whole[zeros + 1..] == e[1..];
      ConformantTail(whole, zeros + 1);
      if e[0] != 0 {
        assert Zeros(0) + e[1..] == e[1..];
        EscapeUnescape(e[1..], 0);
      } else if |e| >= 3 && e[1] == 0 && e[2] == 3 {
        InsertedByte(e, zeros);
        assert whole[zeros + 3..] == e[3..] && Zeros(0) + e[3..] == e[3..];
        ConformantTail(whole, zeros + 3);
        EscapeUnescape(e[3..], 0);
        EscapedPair(e);
      } else {
        NextZero(e, zeros);
        assert Zeros(zeros + 1) + e[1..] == whole;
        EscapeUnescape(e[1..], zeros + 1);
      }
    }
  }

  /** An inserted byte is not preceded by a third zero, and is followed by a byte of at most 3. */
  lemma InsertedByte(e: seq<uint8>, zeros: nat)
    requires zeros <= 2 && Conformant(Zeros(zeros) + e) && |e| >= 3 && e[0] == e[1] == 0 && e[2] == 3
    requires zeros == 2 ==> e[0] > 3
    ensures zeros == 0 && |e| > 3 && e[3] <= 3
  {
    assert SafeAt(Zeros(zeros) + e, 0);
    if zeros == 0 {
      assert Zeros(zeros) + e == e;
    }
  }

  lemma NextZero(e: seq<uint8>, zeros: nat)
    requires zeros <= 2 && Conformant(Zeros(zeros) + e) && e != [] && e[0] == 0
    requires zeros == 2 ==> e[0] > 3
    requires zeros == 1 ==> |e| < 2 || e[1] != 3
    requires zeros == 0 ==> |e| < 3 || e[1] != 0 || e[2] != 3
    ensures zeros < 2
    ensures zeros == 1 ==> |e| == 1 || e[1] > 3
    ensures zeros == 0 ==> |e| < 3 || e[1] != 0 || e[2] != 3
  {
    var whole := Zeros(zeros) + e;
    assert SafeAt(whole, 0);
    assert zeros == 1 && |e| > 1 ==> whole[0] == 0 && whole[1] == 0 && whole[2] == e[1];
  }

  lemma EscapedPair(e: seq<uint8>)
    requires |e| > 3 && e[0] == e[1] == 0 && e[2] == 3 && e[3] <= 3 && Escape(Unescape(e[3..]), 0) == e[3..]
    ensures Escape(Unescape(e), 0) == e
  {
    hide *;
    var d := Unescape(e[3..]);
    UnescapedPair(e);
    TwoZeros(d);
    OneInserted(d);
    assert e == [0, 0] + ([3] + e[3..]);
  }

  lemma UnescapedPair(e: seq<uint8>)
    requires |e| > 3 && e[0] == e[1] == 0 && e[2] == 3
    ensures Unescape(e) == [0, 0] + Unescape(e[3..])
    ensures Unescape(e[3..]) != [] && Unescape(e[3..])[0] == e[3]
  {
  }

  lemma OneInserted(d: seq<uint8>)
    requires d != [] && d[0] <= 3
    ensures Escape(d, 2) == [3] + Escape(d, 0)
  {
  }

  lemma TwoZeros(d: seq<uint8>)
    ensures Escape([0, 0] + d, 0) == [0, 0] + Escape(d, 2)
  {
    assert ([0, 0] + d)[1..] == [0] + d && ([0] + d)[1..] == d;
    assert Escape([0] + d, 1) == [0] + Escape(d, 2);
  }

  /** There is no other way: among the sequences that keep to the standard, the escaped data is the only one that
      unescapes to the data. */
  lemma EscapedIsTheOnlyOne(data: seq<uint8>, e: seq<uint8>)
    ensures Conformant(e) && Unescape(e) == data <==> e == Escaped(data)
  {
    EscapedIsReversibleAndSafe(data);
    if Conformant(e) {
      assert Zeros(0) + e == e;
      EscapeUnescape(e, 0);
    }
  }

  /** After a byte other than zero, escaping starts afresh. */
  lemma {:induction false} EscapeConcat(a: seq<uint8>, b: seq<uint8>, zeros: nat)
    requires zeros <= 2 && (if a == [] then zeros == 0 else a[|a| - 1] != 0)
    ensures Escape(a + b, zeros) == Escape(a, zeros) + Escape(b, 0)
  {
    if a == [] {
      assert a + b == b;
    } else {
      assert (a + b)[1..] == a[1..] + b;
      var z := if a[0] != 0 then 0 else if zeros == 2 then 1 else zeros + 1;
      EscapeConcat(a[1..], b, z);
    }
  }

  /** The number of bytes emulation prevention adds to what is in the stream. */
  method AddAntiEmulSizeInBytes(bs: BitStreamLite) returns (insertedBytes: nat)
    requires bs.Valid() && !bs.isOverflow
    ensures insertedBytes == |Escaped(Packed(bs.Contents))| - |Packed(bs.Contents)|
  {
    bs.HoldsPackedBits();
    ghost var data := Packed(bs.Contents);
    var numBytes := (bs.iBitCount + 7) / 8;
    var numConsecutiveZero := 0;
    insertedBytes := 0;
    assert data[0..] == data;
    for i := 0 to numBytes
      invariant numConsecutiveZero <= 2
      invariant insertedBytes + |Escape(data[i..], numConsecutiveZero)| == |Escaped(data)| - i
    {
      assert data[i..][0] == bs.pData[i];
      assert data[i..][1..] == data[i + 1..];
      if numConsecutiveZero == 2 && bs.pData[i] <= 0x03 {
        insertedBytes := insertedBytes + 1;
        numConsecutiveZero := 0;
      }
      if bs.pData[i] == 0x00 {
        numConsecutiveZero := numConsecutiveZero + 1;
      } else {
        numConsecutiveZero := 0;
      }
    }
  }
}
