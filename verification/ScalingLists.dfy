/** Scaling lists: the writers of lib_bitstream/AVC_RbspEncod.c and lib_bitstream/HEVC_RbspEncod.c and the
    parsers of section 7.3.2.1.1.1 of ITU-T H.264 and section 7.3.4 of ITU-T H.265. */
module ScalingLists {
  import opened Bits
  import opened ExpGolomb
  import opened BitStream

  /** Differences of two bytes are coded modulo 256, in [-128, 127]. */
  function WrapDelta(d: int): int
  {
    if d > 127 then d - 256 else if d < -128 then d + 256 else d
  }

  function Undo(prev: uint8, delta: int): uint8 { (prev + delta + 256) % 256 }

  lemma UndoWraps(prev: uint8, v: uint8)
    ensures Undo(prev, WrapDelta(v - prev)) == v
    ensures -128 <= WrapDelta(v - prev) <= 127
  {
  }

  /** A scan visits every entry of a list once, the first entry first. */
  predicate IsScan(scan: seq<nat>, size: nat)
  {
    && |scan| == size && (size > 0 ==> scan[0] == 0)
    && (forall j :: 0 <= j < size ==> scan[j] < size)
    && (forall j, k :: 0 <= j < k < size ==> scan[j] != scan[k])
  }

  /** The entries of a list in coding order. */
  function Scanned(list: seq<uint8>, scan: seq<nat>, n: nat): (vals: seq<uint8>)
    requires IsScan(scan, n) && n <= |list|
    ensures |vals| == n
    ensures forall j :: 0 <= j < n ==> vals[j] == list[scan[j]]
  {
    seq(n, j requires 0 <= j < n => list[scan[j]])
  }

  // ---- AVC ----

  /** One difference per entry, until an entry is zero. */
  function AvcListBits(last: uint8, next: uint8, vals: seq<uint8>): seq<bit>
    decreases |vals|
  {
    if vals == [] then []
    else if next != 0 then SeBits(WrapDelta(vals[0] - last)) + AvcListBits(vals[0], vals[0], vals[1..])
    else AvcListBits(vals[0], next, vals[1..])
  }

  /** scaling_list( ) of H.264. */
  function ReadAvcList(last: uint8, next: uint8, n: nat, bs: seq<bit>): Parse<seq<uint8>>
    decreases n
  {
    if n == 0 then Parsed([], bs)
    else if next == 0 then
      match ReadAvcList(last, 0, n - 1, bs)
      case NoParse => NoParse
      case Parsed(vals, rest) => Parsed([last] + vals, rest)
    else
      match ReadSe(bs)
      case NoParse => NoParse
      case Parsed(delta, after) =>
        var next' := Undo(last, delta);
        var v := if next' == 0 then last else next';
        match ReadAvcList(v, next', n - 1, after)
        case NoParse => NoParse
        case Parsed(vals, rest) => Parsed([v] + vals, rest)
  }

  /** Parsing consumes exactly what was written, and recovers the list if and only if it has no zero entry. */
  lemma {:induction false} AvcListRoundTrip(last: uint8, next: uint8, vals: seq<uint8>, rest: seq<bit>)
    requires last != 0 && next != 0
    ensures ReadAvcList(last, next, |vals|, AvcListBits(last, next, vals) + rest).Parsed?
    ensures ReadAvcList(last, next, |vals|, AvcListBits(last, next, vals) + rest).rest == rest
    ensures ReadAvcList(last, next, |vals|, AvcListBits(last, next, vals) + rest).value == vals <==> 0 !in vals
    decreases |vals|
  {
    hide SeBits, ReadSe, WrapDelta, Undo;
    if vals == [] {
      assert AvcListBits(last, next, vals) + rest == rest;
    } else {
      var v, tail := vals[0], vals[1..];
      var d := WrapDelta(v - last);
      var more := AvcListBits(v, v, tail) + rest;
      UndoWraps(last, v);
      assert AvcListBits(last, next, vals) + rest == SeBits(d) + more;
      ReadSeIffSeBits(SeBits(d) + more, d, more);
      assert vals == [v] + tail;
      if v == 0 {
        ZerosWriteNothing(tail, 0);
        assert more == rest;
        AvcFill(last, |tail|, rest);
        assert 0 in vals;
      } else {
        AvcListRoundTrip(v, v, tail, rest);
        assert 0 in vals <==> 0 in tail;
        var r := ReadAvcList(v, v, |tail|, more);
        assert [v] + r.value == [v] + tail <==> r.value == tail by {
          assert ([v] + r.value)[1..] == r.value;
        }
      }
    }
  }

  lemma {:induction false} ZerosWriteNothing(vals: seq<uint8>, last: uint8)
    ensures AvcListBits(last, 0, vals) == []
    decreases |vals|
  {
    if vals != [] {
      ZerosWriteNothing(vals[1..], vals[0]);
    }
  }

  lemma {:induction false} AvcFill(last: uint8, n: nat, bs: seq<bit>)
    ensures ReadAvcList(last, 0, n, bs).Parsed? && ReadAvcList(last, 0, n, bs).rest == bs
  {
    if n > 0 {
      AvcFill(last, n - 1, bs);
    }
  }

  lemma {:induction false} AvcFillsWith(last: uint8, n: nat, bs: seq<bit>)
    ensures ReadAvcList(last, 0, n, bs) == Parsed(seq(n, _ => last), bs)
  {
    if n == 0 {
      assert seq(n, _ => last) == [];
    } else {
      AvcFillsWith(last, n - 1, bs);
      assert seq(n, _ => last) == [last] + seq(n - 1, _ => last);
    }
  }

  /** From a zero entry on the entry before it is read again and again: 16, 0 and fourteen more come out as 16
      sixteen times. */
  lemma ZeroEntryRepeats(tail: seq<uint8>, rest: seq<bit>)
    requires |tail| == 14
    ensures ReadAvcList(8, 8, 16, AvcListBits(8, 8, [16, 0] + tail) + rest) == Parsed(seq(16, _ => 16), rest)
    ensures [16, 0] + tail != seq(16, _ => 16)
  {
    hide SeBits, ReadSe, AvcListBits, ReadAvcList;
    var vals: seq<uint8> := [0] + tail;
    var more, d, z := AvcListBits(16, 16, vals) + rest, WrapDelta(16 - 8), WrapDelta(0 - 16);
    assert [16, 0] + tail == [16] + vals;
    AvcListBitsCons(8, 8, 16, vals);
    AvcListBitsCons(16, 16, 0, tail);
    ZerosWriteNothing(tail, 0);
    UndoWraps(8, 16);
    UndoWraps(16, 0);
    assert AvcListBits(8, 8, [16] + vals) + rest == SeBits(d) + more;
    assert more == SeBits(z) + rest;
    ReadSeIffSeBits(SeBits(d) + more, d, more);
    ReadSeIffSeBits(SeBits(z) + rest, z, rest);
    AvcFillsWith(16, 14, rest);
    ReadStep(8, 16, SeBits(d) + more, d, more);
    ReadStep(16, 15, more, z, rest);
    assert [16 as uint8] + seq(14, _ => 16) == seq(15, _ => 16) && [16 as uint8] + seq(15, _ => 16) == seq(16, _ => 16);
    assert ([16, 0] + tail)[1] == 0 && seq(16, _ => 16)[1] == 16;
  }

  /** One entry of a list that goes on. */
  lemma ReadStep(last: uint8, n: nat, bs: seq<bit>, d: int, more: seq<bit>)
    requires n > 0 && last != 0 && ReadSe(bs) == Parsed(d, more)
    ensures var v := Undo(last, d);
      ReadAvcList(last, last, n, bs)
      == match ReadAvcList(if v == 0 then last else v, v, n - 1, more)
         case NoParse => NoParse
         case Parsed(vals, rest) => Parsed([if v == 0 then last else v] + vals, rest)
  {
    hide ReadSe, Undo;
  }

  lemma AvcListBitsCons(last: uint8, next: uint8, v: uint8, a: seq<uint8>)
    ensures AvcListBits(last, next, [v] + a)
         == (if next != 0 then SeBits(WrapDelta(v - last)) else []) + AvcListBits(v, if next != 0 then v else next, a)
    ensures AvcListBits(last, next, []) == []
  {
    hide SeBits, WrapDelta;
    assert ([v] + a)[1..] == a;
  }

  lemma {:induction false} AvcListBitsAppend(last: uint8, next: uint8, a: seq<uint8>, v: uint8)
    ensures AvcListBits(last, next, a + [v])
         == AvcListBits(last, next, a)
            + (if AvcNext(next, a) != 0
               then SeBits(WrapDelta(v - (if a == [] then last else a[|a| - 1]))) else [])
    decreases |a|
  {
    hide AvcListBits, SeBits, WrapDelta;
    if a == [] {
      assert [] + [v] == [v] == [v] + [];
      AvcListBitsCons(last, next, v, []);
      AvcListBitsCons(v, if next != 0 then v else next, v, []);
    } else {
      var next' := if next != 0 then a[0] else next;
      AvcListBitsAppend(a[0], next', a[1..], v);
      AvcListBitsCons(last, next, a[0], a[1..]);
      AvcListBitsCons(last, next, a[0], a[1..] + [v]);
      assert [a[0]] + a[1..] == a && [a[0]] + (a[1..] + [v]) == a + [v];
    }
  }

  /** Zero once a zero entry has been written. */
  function AvcNext(next: uint8, a: seq<uint8>): uint8
    decreases |a|
  {
    if a == [] || next == 0 then next else AvcNext(a[0], a[1..])
  }

  lemma {:induction false} AvcNextAppend(next: uint8, a: seq<uint8>, v: uint8)
    ensures AvcNext(next, a + [v]) == if AvcNext(next, a) == 0 then 0 else v
    decreases |a|
  {
    if a == [] {
      assert [] + [v] == [v];
      assert [v][1..] == [];
    } else {
      assert (a + [v])[1..] == a[1..] + [v];
      AvcNextAppend(a[0], a[1..], v);
    }
  }

  method WriteScalingList(bs: BitStreamLite, pScalingList: seq<uint8>, iSize: nat, pDecScanBlock: seq<nat>)
    returns (iUseDefault: int)
    requires bs.Valid() && IsScan(pDecScanBlock, iSize) && iSize <= |pScalingList|
    modifies bs, bs.pData
    ensures bs.Valid() && bs.pData == old(bs.pData)
    ensures bs.Contents == old(bs.Contents) + AvcListBits(8, 8, Scanned(pScalingList, pDecScanBlock, iSize))
    ensures iUseDefault == if iSize == 0 then -1 else if pScalingList[0] == 0 then 1 else 0
  {
    hide AvcListBits, AvcNext, SeBits, WrapDelta;
    var iLastScale: uint8 := 8;
    var iNextScale: uint8 := 8;
    iUseDefault := -1;
    ghost var vals := Scanned(pScalingList, pDecScanBlock, iSize);
    NothingYet();
    for j := 0 to iSize
      invariant bs.Valid() && bs.pData == old(bs.pData)
      invariant iLastScale == if j == 0 then 8 else vals[j - 1]
      invariant iNextScale == AvcNext(8, vals[..j])
      invariant bs.Contents == old(bs.Contents) + AvcListBits(8, 8, vals[..j])
      invariant j > 0 ==> iUseDefault == if pScalingList[0] == 0 then 1 else 0
      invariant j > 0 && pScalingList[0] == 0 ==> iNextScale == 0
      invariant j == 0 ==> iUseDefault == -1
    {
      var i := pDecScanBlock[j];
      assert vals[..j + 1] == vals[..j] + [vals[j]];
      AvcListBitsAppend(8, 8, vals[..j], vals[j]);
      AvcNextAppend(8, vals[..j], vals[j]);
      if iNextScale != 0 {
        var iDeltaScale := pScalingList[i] - iLastScale;
        if iDeltaScale > 127 {
          iDeltaScale := iDeltaScale - 256;
        } else if iDeltaScale < -128 {
          iDeltaScale := iDeltaScale + 256;
        }
        WrapDeltaIs(pScalingList[i] - iLastScale);
        bs.PutSE(iDeltaScale);
        iNextScale := pScalingList[i];
        iUseDefault := if i == 0 && iNextScale == 0 then 1 else 0;
      }
      iLastScale := pScalingList[i];
    }
    assert vals[..iSize] == vals;
  }

  lemma NothingYet()
    ensures AvcListBits(8, 8, []) == [] && AvcNext(8, []) == 8
  {
  }

  lemma WrapDeltaIs(d: int)
    ensures WrapDelta(d) == if d > 127 then d - 256 else if d < -128 then d + 256 else d
  {
  }

  // ---- The AVC scaling matrix ----

  datatype AvcMatrix = AvcMatrix(flags: seq<bit>, lists: seq<seq<seq<uint8>>>, scan4x4: seq<nat>, scan8x8: seq<nat>)
  {
    /** Lists are stored by size, and 8x8 lists by prediction mode first. */
    function Row(i: nat): nat { if i < 6 then 0 else 1 }
    function Column(i: nat): nat { if i < 6 then i else i % 2 * 3 + (i - 6) / 2 }
    function Size(i: nat): nat { if i < 6 then 16 else 64 }
    function Scan(i: nat): seq<nat> { if i < 6 then scan4x4 else scan8x8 }

    predicate Valid(count: nat)
    {
      && count <= 12 && |flags| >= count && |lists| == 2 && |lists[0]| == |lists[1]| == 6
      && (forall c :: 0 <= c < 6 ==> |lists[0][c]| >= 16 && |lists[1][c]| >= 64)
      && IsScan(scan4x4, 16) && IsScan(scan8x8, 64)
    }

    /** List `i` in coding order. */
    function List(i: nat, count: nat): (vals: seq<uint8>)
      requires i < count && Valid(count)
      ensures |vals| == Size(i)
    {
      Scanned(lists[Row(i)][Column(i)], Scan(i), Size(i))
    }
  }

  function AvcMatrixBits(m: AvcMatrix, i: nat, count: nat): seq<bit>
    requires i <= count && m.Valid(count)
    decreases count - i
  {
    if i == count then []
    else [m.flags[i]] + (if m.flags[i] == 0 then [] else AvcListBits(8, 8, m.List(i, count)))
         + AvcMatrixBits(m, i + 1, count)
  }

  datatype AvcList = Absent | Present(vals: seq<uint8>)

  function AvcLists(m: AvcMatrix, i: nat, count: nat): seq<AvcList>
    requires i <= count && m.Valid(count)
    decreases count - i
  {
    if i == count then []
    else [if m.flags[i] == 0 then Absent else Present(m.List(i, count))] + AvcLists(m, i + 1, count)
  }

  /** The scaling matrix part of seq_parameter_set_data( ), section 7.3.2.1.1 of H.264. */
  function ReadAvcMatrix(i: nat, count: nat, bs: seq<bit>): Parse<seq<AvcList>>
    requires i <= count
    decreases count - i
  {
    if i == count then Parsed([], bs)
    else if bs == [] then NoParse
    else if bs[0] == 0 then
      match ReadAvcMatrix(i + 1, count, bs[1..])
      case NoParse => NoParse
      case Parsed(lists, rest) => Parsed([Absent] + lists, rest)
    else
      match ReadAvcList(8, 8, if i < 6 then 16 else 64, bs[1..])
      case NoParse => NoParse
      case Parsed(vals, after) =>
        match ReadAvcMatrix(i + 1, count, after)
        case NoParse => NoParse
        case Parsed(lists, rest) => Parsed([Present(vals)] + lists, rest)
  }

  predicate NoZeros(lists: seq<AvcList>)
  {
    forall i :: 0 <= i < |lists| && lists[i].Present? ==> 0 !in lists[i].vals
  }

  lemma NoZerosCons(l: AvcList, lists: seq<AvcList>)
    ensures NoZeros([l] + lists) <==> (l.Present? ==> 0 !in l.vals) && NoZeros(lists)
  {
    assert ([l] + lists)[0] == l;
    forall i | 0 <= i < |lists| ensures lists[i] == ([l] + lists)[i + 1] {
    }
  }

  lemma ConsInjective<T>(x: T, y: T, a: seq<T>, b: seq<T>)
    ensures [x] + a == [y] + b <==> x == y && a == b
  {
    assert ([x] + a)[0] == x && ([y] + b)[0] == y;
    assert ([x] + a)[1..] == a && ([y] + b)[1..] == b;
  }

  /** The whole matrix is recovered if and only if no list that is sent has a zero entry. */
  lemma {:induction false} AvcMatrixRoundTrip(m: AvcMatrix, i: nat, count: nat, rest: seq<bit>)
    requires i <= count && m.Valid(count)
    ensures var r := ReadAvcMatrix(i, count, AvcMatrixBits(m, i, count) + rest);
            && r.Parsed? && r.rest == rest
            && (r.value == AvcLists(m, i, count) <==> NoZeros(AvcLists(m, i, count)))
    decreases count - i
  {
    hide AvcListBits, ReadAvcList, AvcMatrix.List, AvcMatrixBits, ReadAvcMatrix, AvcLists, IsScan, Scanned, NoZeros;
    if i == count {
      NothingSent(m, count, rest);
    } else {
      AvcMatrixRoundTrip(m, i + 1, count, rest);
      if m.flags[i] == 0 {
        ListAbsent(m, i, count, rest);
      } else {
        ListPresent(m, i, count, rest);
      }
    }
  }

  lemma ListAbsent(m: AvcMatrix, i: nat, count: nat, rest: seq<bit>)
    requires i < count && m.Valid(count) && m.flags[i] == 0
    requires ReadAvcMatrix(i + 1, count, AvcMatrixBits(m, i + 1, count) + rest).Parsed?
    ensures var next := ReadAvcMatrix(i + 1, count, AvcMatrixBits(m, i + 1, count) + rest);
      ReadAvcMatrix(i, count, AvcMatrixBits(m, i, count) + rest) == Parsed([Absent] + next.value, next.rest)
      && ([Absent] + next.value == AvcLists(m, i, count) <==> next.value == AvcLists(m, i + 1, count))
      && (NoZeros(AvcLists(m, i, count)) <==> NoZeros(AvcLists(m, i + 1, count)))
  {
    hide AvcListBits, ReadAvcList, AvcMatrix.List, IsScan, Scanned, NoZeros;
    var more, lists := AvcMatrixBits(m, i + 1, count) + rest, AvcLists(m, i + 1, count);
    assert AvcMatrixBits(m, i, count) + rest == [0] + more && ([0] + more)[1..] == more;
    NoZerosCons(Absent, lists);
    ConsInjective(Absent, Absent, ReadAvcMatrix(i + 1, count, more).value, lists);
  }

  lemma ListPresent(m: AvcMatrix, i: nat, count: nat, rest: seq<bit>)
    requires i < count && m.Valid(count) && m.flags[i] == 1
    requires ReadAvcMatrix(i + 1, count, AvcMatrixBits(m, i + 1, count) + rest).Parsed?
    ensures var next := ReadAvcMatrix(i + 1, count, AvcMatrixBits(m, i + 1, count) + rest);
      var r := ReadAvcMatrix(i, count, AvcMatrixBits(m, i, count) + rest);
      r.Parsed? && r.rest == next.rest
      && (r.value == AvcLists(m, i, count) <==> 0 !in m.List(i, count) && next.value == AvcLists(m, i + 1, count))
      && (NoZeros(AvcLists(m, i, count)) <==> 0 !in m.List(i, count) && NoZeros(AvcLists(m, i + 1, count)))
  {
    hide AvcListBits, ReadAvcList, AvcMatrix.List, IsScan, Scanned, NoZeros;
    var vals := m.List(i, count);
    var more, lists := AvcMatrixBits(m, i + 1, count) + rest, AvcLists(m, i + 1, count);
    var coded := AvcListBits(8, 8, vals) + more;
    AvcListRoundTrip(8, 8, vals, more);
    assert AvcMatrixBits(m, i, count) + rest == [1] + coded && ([1] + coded)[1..] == coded;
    NoZerosCons(Present(vals), lists);
    ConsInjective(Present(ReadAvcList(8, 8, |vals|, coded).value), Present(vals),
                  ReadAvcMatrix(i + 1, count, more).value, lists);
  }

  lemma NothingSent(m: AvcMatrix, count: nat, rest: seq<bit>)
    requires m.Valid(count)
    ensures ReadAvcMatrix(count, count, AvcMatrixBits(m, count, count) + rest) == Parsed([], rest)
    ensures AvcLists(m, count, count) == [] && NoZeros([])
  {
    assert [] + rest == rest;
  }

  method WriteScalingMatrix(bs: BitStreamLite, isScalingMatrixPresent: bool, chroma_format_idc: nat, m: AvcMatrix)
    requires bs.Valid() && m.Valid(if chroma_format_idc != 3 then 8 else 12)
    modifies bs, bs.pData
    ensures bs.Valid() && bs.pData == old(bs.pData)
    ensures bs.Contents == old(bs.Contents)
              + (if isScalingMatrixPresent then AvcMatrixBits(m, 0, if chroma_format_idc != 3 then 8 else 12) else [])
  {
    if !isScalingMatrixPresent {
      return;
    }
    hide AvcListBits, AvcMatrixBits, AvcMatrix.List, AvcMatrix.Valid, Holds;
    var iNbScalingList := if chroma_format_idc != 3 then 8 else 12;
    ghost var whole := bs.Contents + AvcMatrixBits(m, 0, iNbScalingList);
    for i := 0 to iNbScalingList
      invariant bs.Valid() && bs.pData == old(bs.pData)
      invariant bs.Contents + AvcMatrixBits(m, i, iNbScalingList) == whole
    {
      WriteMatrixList(bs, m, i, iNbScalingList);
    }
    NoListsLeft(m, iNbScalingList, bs.Contents);
  }

  /** The body of the loop over the lists of a matrix. */
  method WriteMatrixList(bs: BitStreamLite, m: AvcMatrix, i: nat, ghost count: nat)
    requires bs.Valid() && i < count && m.Valid(count)
    modifies bs, bs.pData
    ensures bs.Valid() && bs.pData == old(bs.pData)
    ensures bs.Contents + AvcMatrixBits(m, i + 1, count) == old(bs.Contents) + AvcMatrixBits(m, i, count)
  {
    hide AvcListBits, AvcMatrixBits, AvcMatrix.List, AvcMatrix.Valid, Holds, IsScan, Scanned;
    ListFacts(m, i, count, bs.Contents);
    bs.PutU(1, m.flags[i]);
    if m.flags[i] == 0 {
      assert bs.Contents + [] == bs.Contents;
      return;
    }
    var row, size, column;
    if i < 6 {
      row, size, column := 0, 16, i;
    } else {
      row, size, column := 1, 64, i % 2 * 3 + (i - 6) / 2;
    }
    var _ := WriteScalingList(bs, m.lists[row][column], size, if size == 16 then m.scan4x4 else m.scan8x8);
  }

  lemma NoListsLeft(m: AvcMatrix, count: nat, before: seq<bit>)
    requires m.Valid(count)
    ensures before + AvcMatrixBits(m, count, count) == before
  {
  }

  /** What the loop needs to know about list `i`. */
  lemma ListFacts(m: AvcMatrix, i: nat, count: nat, before: seq<bit>)
    requires i < count && m.Valid(count)
    ensures |m.flags| >= count && |m.lists| == 2 && |m.lists[0]| == |m.lists[1]| == 6 && m.Column(i) < 6
    ensures IsScan(m.Scan(i), m.Size(i)) && |m.lists[m.Row(i)][m.Column(i)]| >= m.Size(i)
    ensures m.List(i, count) == Scanned(m.lists[m.Row(i)][m.Column(i)], m.Scan(i), m.Size(i))
    ensures BitsOf(1, m.flags[i]) == [m.flags[i]] && Pow2(1) == 2
    ensures before + AvcMatrixBits(m, i, count)
         == before + [m.flags[i]] + (if m.flags[i] == 0 then [] else AvcListBits(8, 8, m.List(i, count)))
            + AvcMatrixBits(m, i + 1, count)
  {
    hide AvcListBits, Scanned, IsScan;
    assert BitsOf(1, m.flags[i]) == BitsOf(0, 0) + [m.flags[i]];
    ListText(m, i, count, before);
  }

  lemma ListText(m: AvcMatrix, i: nat, count: nat, before: seq<bit>)
    requires i < count && m.Valid(count)
    ensures before + AvcMatrixBits(m, i, count)
         == before + [m.flags[i]] + (if m.flags[i] == 0 then [] else AvcListBits(8, 8, m.List(i, count)))
            + AvcMatrixBits(m, i + 1, count)
  {
    hide AvcListBits, AvcMatrix.List, IsScan, Scanned;
    var list := if m.flags[i] == 0 then [] else AvcListBits(8, 8, m.List(i, count));
    var next := AvcMatrixBits(m, i + 1, count);
    assert before + ([m.flags[i]] + list + next) == before + [m.flags[i]] + list + next;
  }

  /** Prediction mode and colour component of a list. */
  datatype ListUse = ListUse(inter: bool, component: nat)

  /** Table 7-2 of H.264. */
  function UseOf(i: nat): ListUse
  {
    match i
    case 0 => ListUse(false, 0) case 1 => ListUse(false, 1) case 2 => ListUse(false, 2)
    case 3 => ListUse(true, 0) case 4 => ListUse(true, 1) case 5 => ListUse(true, 2)
    case 6 => ListUse(false, 0) case 7 => ListUse(true, 0)
    case 8 => ListUse(false, 1) case 9 => ListUse(true, 1)
    case 10 => ListUse(false, 2) case _ => ListUse(true, 2)
  }

  /** Lists are stored by size (4x4 first), prediction mode (intra first) and component (Y, Cb, Cr), and list `i` is
      taken from the place of what it is used for. */
  lemma ListIsTakenFromItsUse(m: AvcMatrix, i: nat)
    requires i < 12
    ensures m.Row(i) == (if m.Size(i) == 16 then 0 else 1) && (m.Size(i) == 16 <==> i < 6)
    ensures m.Column(i) == UseOf(i).component + if UseOf(i).inter then 3 else 0
  {
  }

  /** Different list numbers use different stored lists. */
  lemma AvcListsAreDistinct(m: AvcMatrix, i: nat, k: nat)
    requires i < 12 && k < 12 && m.Row(i) == m.Row(k) && m.Column(i) == m.Column(k)
    ensures i == k
  {
  }

  /** What a decoder has stored, by row and column, after the first `n` lists. */
  function StoredLists(m: AvcMatrix, lists: seq<AvcList>, n: nat): map<(nat, nat), seq<uint8>>
    requires n <= |lists| <= 12
  {
    if n == 0 then map[]
    else if lists[n - 1].Absent? then StoredLists(m, lists, n - 1)
    else StoredLists(m, lists, n - 1)[(m.Row(n - 1), m.Column(n - 1)) := lists[n - 1].vals]
  }

  /** Storing the lists in the places that they were written from, no list replaces another: each place ends
      up with the list of its number, and no place without one that was sent. */
  lemma {:induction false} EachListInItsPlace(m: AvcMatrix, lists: seq<AvcList>, n: nat, i: nat)
    requires n <= |lists| <= 12 && i < 12
    ensures var stored, place := StoredLists(m, lists, n), (m.Row(i), m.Column(i));
      if i < n && lists[i].Present? then place in stored && stored[place] == lists[i].vals else place !in stored
  {
    hide AvcMatrix.Row, AvcMatrix.Column;
    if n > 0 {
      EachListInItsPlace(m, lists, n - 1, i);
      if m.Row(i) == m.Row(n - 1) && m.Column(i) == m.Column(n - 1) {
        AvcListsAreDistinct(m, i, n - 1);
      }
    }
  }
}
