/** writeScalingListData of lib_bitstream/HEVC_RbspEncod.c against scaling_list_data( ), section 7.3.4 of H.265. */
module HevcScalingLists {
  import opened Bits
  import opened ExpGolomb
  import opened BitStream
  import opened ScalingLists

  /** Differences of consecutive coefficients, the first one against `prev`. */
  function CoefBits(prev: uint8, vals: seq<uint8>): seq<bit>
    decreases |vals|
  {
    if vals == [] then [] else SeBits(WrapDelta(vals[0] - prev)) + CoefBits(vals[0], vals[1..])
  }

  function ReadCoefs(prev: uint8, n: nat, bs: seq<bit>): Parse<seq<uint8>>
    decreases n
  {
    if n == 0 then Parsed([], bs)
    else
      match ReadSe(bs)
      case NoParse => NoParse
      case Parsed(delta, after) =>
        match ReadCoefs(Undo(prev, delta), n - 1, after)
        case NoParse => NoParse
        case Parsed(vals, rest) => Parsed([Undo(prev, delta)] + vals, rest)
  }

  lemma {:induction false} CoefsRoundTrip(prev: uint8, vals: seq<uint8>, rest: seq<bit>)
    ensures ReadCoefs(prev, |vals|, CoefBits(prev, vals) + rest) == Parsed(vals, rest)
    decreases |vals|
  {
    hide SeBits, ReadSe, WrapDelta, Undo;
    if vals == [] {
      assert CoefBits(prev, vals) + rest == rest;
    } else {
      var d := WrapDelta(vals[0] - prev);
      var more := CoefBits(vals[0], vals[1..]) + rest;
      UndoWraps(prev, vals[0]);
      assert CoefBits(prev, vals) + rest == SeBits(d) + more;
      ReadSeIffSeBits(SeBits(d) + more, d, more);
      CoefsRoundTrip(vals[0], vals[1..], rest);
      assert vals == [vals[0]] + vals[1..];
    }
  }

  function DcMinus8(dc: uint8): int { -8 + dc as int }

  function CoefNum(sizeId: nat): nat { if sizeId == 0 then 16 else 64 }

  /** matrixId advances by 3 for 32x32 lists. */
  function MatrixStep(sizeId: nat): nat { if sizeId == 3 then 3 else 1 }

  datatype HevcScaling = HevcScaling(predModeFlag: seq<seq<bit>>, predDelta: seq<seq<nat>>, dc: seq<seq<uint8>>,
                                     lists: seq<seq<seq<uint8>>>, scan4x4: seq<nat>, scan8x8: seq<nat>)
  {
    predicate Valid()
    {
      && |predModeFlag| == |predDelta| == |lists| == 4 && |dc| == 2
      && (forall s :: 0 <= s < 4 ==> |predModeFlag[s]| == |predDelta[s]| == |lists[s]| == 6)
      && (forall s :: 0 <= s < 2 ==> |dc[s]| == 6)
      && (forall s, m :: 0 <= s < 4 && 0 <= m < 6 ==> predDelta[s][m] < 0x7FFF_FFFF)
      && (forall s, m :: 0 <= s < 4 && 0 <= m < 6 ==> |lists[s][m]| >= CoefNum(s))
      && IsScan(scan4x4, 16) && IsScan(scan8x8, 64)
    }

    function Scan(s: nat): seq<nat> { if s == 0 then scan4x4 else scan8x8 }

    function Coefs(s: nat, m: nat): (vals: seq<uint8>)
      requires Valid() && s < 4 && m < 6
      ensures |vals| == CoefNum(s)
    {
      Scanned(lists[s][m], Scan(s), CoefNum(s))
    }

    /** The value the first coefficient is predicted from. */
    function First(s: nat, m: nat): uint8
      requires Valid() && s < 4 && m < 6
    {
      if s > 1 then dc[s - 2][m] else 8
    }
  }

  /** What a decoder learns about one list: a reference to an earlier one, or its DC term and coefficients. */
  datatype Entry = Predicted(delta: nat) | Explicit(first: uint8, coefs: seq<uint8>)

  function EntryOf(p: HevcScaling, s: nat, m: nat): Entry
    requires p.Valid() && s < 4 && m < 6
  {
    if p.predModeFlag[s][m] == 0 then Predicted(p.predDelta[s][m]) else Explicit(p.First(s, m), p.Coefs(s, m))
  }

  function EntryBits(p: HevcScaling, s: nat, m: nat): seq<bit>
    requires p.Valid() && s < 4 && m < 6
  {
    if p.predModeFlag[s][m] == 0 then [0] + UeBits(p.predDelta[s][m])
    else [1] + (if s > 1 then SeBits(DcMinus8(p.dc[s - 2][m])) else []) + CoefBits(p.First(s, m), p.Coefs(s, m))
  }

  function DataBits(p: HevcScaling, s: nat, m: nat): seq<bit>
    requires p.Valid() && s <= 4
    decreases 4 - s, 6 - m
  {
    if s == 4 then [] else if m >= 6 then DataBits(p, s + 1, 0)
    else EntryBits(p, s, m) + DataBits(p, s, m + MatrixStep(s))
  }

  function Entries(p: HevcScaling, s: nat, m: nat): seq<Entry>
    requires p.Valid() && s <= 4
    decreases 4 - s, 6 - m
  {
    if s == 4 then [] else if m >= 6 then Entries(p, s + 1, 0)
    else [EntryOf(p, s, m)] + Entries(p, s, m + MatrixStep(s))
  }

  function ReadEntry(s: nat, bs: seq<bit>): Parse<Entry>
  {
    if bs == [] then NoParse
    else if bs[0] == 0 then
      match ReadUe(bs[1..])
      case NoParse => NoParse
      case Parsed(delta, rest) => Parsed(Predicted(delta), rest)
    else if s > 1 then
      match ReadSe(bs[1..])
      case NoParse => NoParse
      case Parsed(dcMinus8, after) => ReadExplicit((dcMinus8 + 8) % 256, s, after)
    else ReadExplicit(8, s, bs[1..])
  }

  /** coefNum. */
  function ReadExplicit(first: uint8, s: nat, bs: seq<bit>): Parse<Entry>
  {
    match ReadCoefs(first, (if Shl(1, 4 + 2 * s) < 64 then Shl(1, 4 + 2 * s) else 64), bs)
    case NoParse => NoParse
    case Parsed(vals, rest) => Parsed(Explicit(first, vals), rest)
  }

  function ReadData(s: nat, m: nat, bs: seq<bit>): Parse<seq<Entry>>
    requires s <= 4
    decreases 4 - s, 6 - m
  {
    if s == 4 then Parsed([], bs) else if m >= 6 then ReadData(s + 1, 0, bs)
    else
      match ReadEntry(s, bs)
      case NoParse => NoParse
      case Parsed(entry, after) =>
        match ReadData(s, m + (if s == 3 then 3 else 1), after)
        case NoParse => NoParse
        case Parsed(entries, rest) => Parsed([entry] + entries, rest)
  }

  lemma CoefNumIs(s: nat)
    requires s < 4
    ensures (if Shl(1, 4 + 2 * s) < 64 then Shl(1, 4 + 2 * s) else 64) == CoefNum(s)
  {
    ShlOfOne(4 + 2 * s);
    Pow2Values();
  }

  lemma EntryRoundTrip(p: HevcScaling, s: nat, m: nat, rest: seq<bit>)
    requires p.Valid() && s < 4 && m < 6
    ensures ReadEntry(s, EntryBits(p, s, m) + rest) == Parsed(EntryOf(p, s, m), rest)
  {
    hide UeBits, SeBits, ReadUe, ReadSe, CoefBits, ReadCoefs, HevcScaling.Coefs;
    var bs := EntryBits(p, s, m) + rest;
    if p.predModeFlag[s][m] == 0 {
      var d := p.predDelta[s][m];
      assert bs == [0] + (UeBits(d) + rest);
      ReadUeIffUeBits(UeBits(d) + rest, d, rest);
    } else {
      var after := CoefBits(p.First(s, m), p.Coefs(s, m)) + rest;
      CoefNumIs(s);
      CoefsRoundTrip(p.First(s, m), p.Coefs(s, m), rest);
      if s > 1 {
        var d := DcMinus8(p.dc[s - 2][m]);
        assert bs == [1] + (SeBits(d) + after);
        ReadSeIffSeBits(SeBits(d) + after, d, after);
      } else {
        assert bs == [1] + after;
      }
    }
  }

  /** The complete structure, DC terms and prediction references included, is recovered, whatever the entries. */
  lemma {:induction false} DataRoundTrip(p: HevcScaling, s: nat, m: nat, rest: seq<bit>)
    requires p.Valid() && s <= 4
    ensures ReadData(s, m, DataBits(p, s, m) + rest) == Parsed(Entries(p, s, m), rest)
    decreases 4 - s, 6 - m
  {
    hide EntryBits, EntryOf, ReadEntry, HevcScaling.Valid;
    if s == 4 {
      assert DataBits(p, s, m) + rest == rest;
    } else if m >= 6 {
      DataRoundTrip(p, s + 1, 0, rest);
    } else {
      hide DataBits, Entries, ReadData;
      DataRoundTrip(p, s, m + MatrixStep(s), rest);
      EntryThenData(p, s, m, rest);
    }
  }

  lemma EntryThenData(p: HevcScaling, s: nat, m: nat, rest: seq<bit>)
    requires p.Valid() && s < 4 && m < 6
    requires ReadData(s, m + MatrixStep(s), DataBits(p, s, m + MatrixStep(s)) + rest)
          == Parsed(Entries(p, s, m + MatrixStep(s)), rest)
    ensures ReadData(s, m, DataBits(p, s, m) + rest) == Parsed(Entries(p, s, m), rest)
  {
    hide EntryBits, EntryOf, ReadEntry, HevcScaling.Valid;
    var more := DataBits(p, s, m + MatrixStep(s)) + rest;
    assert DataBits(p, s, m) + rest == EntryBits(p, s, m) + more;
    EntryRoundTrip(p, s, m, more);
  }

  // ---- The writer ----

  method WriteCoefs(bs: BitStreamLite, list: seq<uint8>, pScanOrder: seq<nat>, uCoeffNum: nat, first: uint8)
    requires bs.Valid() && IsScan(pScanOrder, uCoeffNum) && uCoeffNum <= |list|
    modifies bs, bs.pData
    ensures bs.Valid() && bs.pData == old(bs.pData)
    ensures bs.Contents == old(bs.Contents) + CoefBits(first, Scanned(list, pScanOrder, uCoeffNum))
  {
    hide SeBits, Holds;
    ghost var vals := Scanned(list, pScanOrder, uCoeffNum);
    ghost var whole := bs.Contents + CoefBits(first, vals);
    var uPrevCoef: uint8 := first;
    assert vals[0..] == vals;
    for uCoeff := 0 to uCoeffNum
      invariant bs.Valid() && bs.pData == old(bs.pData)
      invariant bs.Contents + CoefBits(uPrevCoef, vals[uCoeff..]) == whole
    {
      ghost var before := bs.Contents;
      var iTmpCoeff := list[pScanOrder[uCoeff]] - uPrevCoef;
      if iTmpCoeff > 127 {
        iTmpCoeff := iTmpCoeff - 256;
      } else if iTmpCoeff < -128 {
        iTmpCoeff := iTmpCoeff + 256;
      }
      bs.PutSE(iTmpCoeff);
      assert vals[uCoeff..][1..] == vals[uCoeff + 1..];
      ghost var next := CoefBits(vals[uCoeff], vals[uCoeff + 1..]);
      assert before + (SeBits(iTmpCoeff) + next) == before + SeBits(iTmpCoeff) + next;
      uPrevCoef := list[pScanOrder[uCoeff]];
    }
    assert bs.Contents + [] == bs.Contents;
  }

  /** The body of the double loop. */
  method WriteEntry(bs: BitStreamLite, p: HevcScaling, iSizeId: nat, iMatrixId: nat)
    requires bs.Valid() && p.Valid() && iSizeId < 4 && iMatrixId < 6
    modifies bs, bs.pData
    ensures bs.Valid() && bs.pData == old(bs.pData)
    ensures bs.Contents == old(bs.Contents) + EntryBits(p, iSizeId, iMatrixId)
  {
    hide SeBits, UeBits, CoefBits, Holds, IsScan, Scanned;
    ghost var before := bs.Contents;
    bs.PutBit(p.predModeFlag[iSizeId][iMatrixId]);
    if p.predModeFlag[iSizeId][iMatrixId] == 0 {
      bs.PutUE(p.predDelta[iSizeId][iMatrixId]);
      ghost var code := UeBits(p.predDelta[iSizeId][iMatrixId]);
      assert before + [0] + code == before + ([0] + code);
    } else {
      var uPrevCoef: uint8 := 8;
      var uCoeffNum := if iSizeId == 0 then 16 else 64;
      var pScanOrder := if uCoeffNum == 64 then p.scan8x8 else p.scan4x4;
      ghost var dcBits: seq<bit> := [];
      if iSizeId > 1 {
        bs.PutSE(DcMinus8(p.dc[iSizeId - 2][iMatrixId]));
        dcBits := SeBits(DcMinus8(p.dc[iSizeId - 2][iMatrixId]));
        uPrevCoef := p.dc[iSizeId - 2][iMatrixId];
      }
      assert bs.Contents == before + [1] + dcBits;
      WriteCoefs(bs, p.lists[iSizeId][iMatrixId], pScanOrder, uCoeffNum, uPrevCoef);
      ghost var coefs := CoefBits(uPrevCoef, p.Coefs(iSizeId, iMatrixId));
      assert before + [1] + dcBits + coefs == before + ([1] + dcBits + coefs);
    }
  }

  method WriteScalingListData(bs: BitStreamLite, p: HevcScaling)
    requires bs.Valid() && p.Valid()
    modifies bs, bs.pData
    ensures bs.Valid() && bs.pData == old(bs.pData)
    ensures bs.Contents == old(bs.Contents) + DataBits(p, 0, 0)
  {
    hide EntryBits, HevcScaling.Valid, Holds, BitStreamLite.Valid;
    hide DataBits;
    ghost var whole := bs.Contents + DataBits(p, 0, 0);
    var iSizeId := 0;
    while iSizeId < 4
      invariant 0 <= iSizeId <= 4 && bs.Valid() && bs.pData == old(bs.pData)
      invariant bs.Contents + DataBits(p, iSizeId, 0) == whole
    {
      var iMatrixId := 0;
      while iMatrixId < 6
        invariant 0 <= iMatrixId <= 8 && bs.Valid() && bs.pData == old(bs.pData)
        invariant bs.Contents + DataBits(p, iSizeId, iMatrixId) == whole
      {
        DataText(p, iSizeId, iMatrixId, bs.Contents);
        WriteEntry(bs, p, iSizeId, iMatrixId);
        iMatrixId := iMatrixId + if iSizeId == 3 then 3 else 1;
      }
      NextSize(p, iSizeId, iMatrixId);
      iSizeId := iSizeId + 1;
    }
    NoSizeLeft(p, bs.Contents);
  }

  lemma DataText(p: HevcScaling, s: nat, m: nat, before: seq<bit>)
    requires p.Valid() && s < 4 && m < 6
    ensures before + DataBits(p, s, m) == before + EntryBits(p, s, m) + DataBits(p, s, m + if s == 3 then 3 else 1)
  {
    hide EntryBits, HevcScaling.Valid;
  }

  lemma NextSize(p: HevcScaling, s: nat, m: nat)
    requires p.Valid() && s < 4 && m >= 6
    ensures DataBits(p, s, m) == DataBits(p, s + 1, 0)
  {
    hide EntryBits, HevcScaling.Valid;
  }

  lemma NoSizeLeft(p: HevcScaling, before: seq<bit>)
    requires p.Valid()
    ensures before + DataBits(p, 4, 0) == before
  {
  }
}
