/** One tile of an HEVC skipped picture: AL_sHEVC_GenerateSkippedTileCabac of lib_bitstream/HEVC_SkippedPict.c. */
module HevcTile {
  import opened Bits
  import opened BitStream
  import opened CabacTables
  import opened CabacCoder
  import opened Cabac
  import opened Quadtree
  import opened HevcSkipped

  /** A tile given in luma samples, measured in minimum coding blocks. */
  function TileOf(iWidth: nat, iHeight: nat, uLog2MaxCuSize: nat, uMinCuSize: nat): Tile
    requires uMinCuSize <= uLog2MaxCuSize
  {
    Tile(Shr(iWidth, uMinCuSize), Shr(iHeight, uMinCuSize), uLog2MaxCuSize - uMinCuSize)
  }

  /** What section 7.4.3.2.1 of H.265 asks of sizes: positive multiples of the minimum coding block. */
  predicate GoodSize(iWidth: nat, iHeight: nat, uLog2MaxCuSize: nat, uMinCuSize: nat)
  {
    && uMinCuSize <= uLog2MaxCuSize
    && 0 < iWidth == Shl(Shr(iWidth, uMinCuSize), uMinCuSize)
    && 0 < iHeight == Shl(Shr(iHeight, uMinCuSize), uMinCuSize)
  }

  /** How many blocks of side 2^k it takes to cover `w`. */
  function Blocks(w: nat, k: nat): nat { Shr(w + Pow2(k) - 1, k) }

  const TILE_STATES: seq<StateIdx> := [16, 15, 8, 16, 16]
  const TILE_MPS: seq<bit> := [0, 0, 1, 1, 0]

  function TileContexts(): (r: seq<Context>)
    ensures |r| == 5
  {
    ContextsOf(TILE_STATES, TILE_MPS)
  }

  function Aligned(bs: seq<bit>): (r: seq<bit>)
    ensures |r| % 8 == 0
  {
    bs + Repeat(Padding(|bs|), 0)
  }

  /** The bits of a tile before alignment. */
  function TileBits(t: Tile, lastTile: bool): seq<bit>
    requires 0 < t.w && 0 < t.h
  {
    Encode(TileContexts(), TileOps(Written, t, lastTile))
  }

  // ---- Positions of coding tree blocks along one axis ----

  /** Quotient and remainder of a division by 2^k, and that there is no other pair. */
  lemma {:induction false} ShiftParts(q: nat, r: nat, k: nat)
    requires r < Pow2(k)
    ensures Shr(Shl(q, k) + r, k) == q
    ensures LowBits(k, Shl(q, k) + r) == r
  {
    if k > 0 {
      var v := Shl(q, k) + r;
      assert v / 2 == Shl(q, k - 1) + r / 2 && v % 2 == r % 2;
      ShiftParts(q, r / 2, k - 1);
      ValAppend(BitsOf(k - 1, v / 2), v % 2);
    }
  }

  lemma {:induction false} ShiftSplit(v: nat, k: nat)
    ensures v == Shl(Shr(v, k), k) + LowBits(k, v)
  {
    if k > 0 {
      ShiftSplit(v / 2, k - 1);
      ValAppend(BitsOf(k - 1, v / 2), v % 2);
    }
  }

  lemma ShlNext(i: nat, k: nat)
    ensures Shl(i + 1, k) == Shl(i, k) + Pow2(k)
  {
    ShlSum(i, 1, k);
    ShlOfOne(k);
  }

  lemma {:induction false} ShlMonotone(i: nat, j: nat, k: nat)
    requires i <= j
    ensures Shl(i, k) <= Shl(j, k)
    ensures i > 0 ==> Shl(i, k) > 0
  {
    if k > 0 {
      ShlMonotone(i, j, k - 1);
    }
  }

  lemma BlocksByCases(q: nat, r: nat, k: nat)
    requires r < Pow2(k)
    ensures Blocks(Shl(q, k) + r, k) == if r == 0 then q else q + 1
  {
    if r == 0 {
      ShiftParts(q, Pow2(k) - 1, k);
    } else {
      ShlNext(q, k);
      ShiftParts(q + 1, r - 1, k);
    }
  }

  /** Block `i` of side 2^k along an axis of length `w`, starting at `x`: where it stands relative to the end. */
  lemma AxisFacts(w: nat, k: nat, i: nat, x: nat)
    requires x == Shl(i, k) && x < w
    ensures i < Blocks(w, k)
    ensures i == Blocks(w, k) - 1 <==> w <= x + Pow2(k)
    ensures (i == Blocks(w, k) - 1 && LowBits(k, w) != 0) <==> w < x + Pow2(k)
    ensures (i == Shr(w, k) && LowBits(k, w) != 0) <==> w < x + Pow2(k)
    ensures w < x + Pow2(k) ==> LowBits(k, w) == w - x
    ensures i > 0 <==> x > 0
    ensures Shl(i + 1, k) == x + Pow2(k)
  {
    hide Shl, Shr, LowBits, Pow2, Blocks;
    var q, r := Shr(w, k), LowBits(k, w);
    ShiftSplit(w, k);
    BlocksByCases(q, r, k);
    ShlNext(i, k);
    ShlMonotone(i, i, k);
    ShlOfOne(k);
    if i < q {
      ShlMonotone(i + 1, q, k);
      if i + 1 < q { ShlMonotone(i + 2, q, k); ShlNext(i + 1, k); }
    } else if i > q {
      ShlMonotone(q + 1, i, k);
      ShlNext(q, k);
    }
  }

  /** Measuring in minimum blocks of side 2^m changes neither counts nor remainders. */
  lemma InMinimumBlocks(a: nat, m: nat, k: nat)
    requires a > 0 && a == Shl(Shr(a, m), m)
    ensures Shr(a, m) > 0
    ensures Shr(a + Pow2(m + k) - 1, m + k) == Blocks(Shr(a, m), k)
    ensures Shr(a, m + k) == Shr(Shr(a, m), k)
    ensures Shr(LowBits(m + k, a), m) == LowBits(k, Shr(a, m))
  {
    hide Shl, Shr, LowBits, Pow2;
    var w := Shr(a, m);
    if w == 0 { ShlOfOne(m); }
    ShrShr(a, m, k);
    // The rounding term only fills the low bits.
    ShlOfOne(k);
    ShlOfOne(m + k);
    ShlShl(1, k, m);
    ShlSum(w, Pow2(k) - 1, m);
    ShlNext(w + Pow2(k) - 1, m);
    ShlSum(w, Pow2(k), m);
    ShiftParts(w + Pow2(k) - 1, Pow2(m) - 1, m);
    ShrShr(a + Pow2(m + k) - 1, m, k);
    // The remainder modulo 2^(m + k) keeps its m low zeros.
    var q, r := Shr(w, k), LowBits(k, w);
    ShiftSplit(w, k);
    ShlSum(Shl(q, k), r, m);
    ShlShl(q, k, m);
    ShlBound(r, k, m);
    ShiftParts(q, Shl(r, m), m + k);
    ShiftParts(r, 0, m);
  }

  /** The raster index of a block determines its column and row. */
  lemma Raster(n: nat, columns: nat, column: nat, row: nat)
    requires column < columns && n == row * columns + column
    ensures n % columns == column && n / columns == row
    ensures n >= columns <==> row > 0
  {
    Commute(row, columns);
    ModUnique(n, columns, row, column);
    if row > 0 {
      MulMonotone(columns, 1, row);
    }
  }

  lemma LastInRaster(n: nat, columns: nat, rows: nat, column: nat, row: nat)
    requires column < columns && row < rows && n == row * columns + column
    ensures n < columns * rows
    ensures n == columns * rows - 1 <==> column == columns - 1 && row == rows - 1
  {
    MulMonotone(columns, row + 1, rows);
    Commute(row, columns);
    Distribute(columns, row);
    if row + 1 < rows {
      MulMonotone(columns, row + 2, rows);
      Distribute(columns, row + 1);
    }
  }

  lemma MulMonotone(s: nat, a: int, b: int)
    requires a <= b
    ensures s * a <= s * b
  {
  }

  lemma Commute(a: int, b: int)
    ensures a * b == b * a
  {
  }

  lemma Distribute(s: int, i: int)
    ensures s * (i + 1) == s * i + s
    ensures (i + 1) * s == i * s + s
  {
  }

  // ---- The method ----

  /** Where the coding tree block with raster index `n` is. */
  datatype Place = Place(column: nat, row: nat, x: nat, y: nat)

  ghost predicate At(t: Tile, n: nat, p: Place)
  {
    && p.x == Shl(p.column, t.log2) && p.y == Shl(p.row, t.log2)
    && p.x < t.w && p.y < t.h
    && n == p.row * Blocks(t.w, t.log2) + p.column
  }

  /** The tests made in the loop, in terms of the position of the block. */
  lemma PlaceFacts(t: Tile, n: nat, p: Place)
    requires At(t, n, p)
    ensures p.column < Blocks(t.w, t.log2) && p.row < Blocks(t.h, t.log2)
    ensures n % Blocks(t.w, t.log2) == p.column && n / Blocks(t.w, t.log2) == p.row
    ensures (p.column == Blocks(t.w, t.log2) - 1 && LowBits(t.log2, t.w) != 0) <==> t.w < p.x + Lcu(t)
    ensures (p.row == Shr(t.h, t.log2) && LowBits(t.log2, t.h) != 0) <==> t.h < p.y + Lcu(t)
    ensures t.w < p.x + Lcu(t) ==> LowBits(t.log2, t.w) == t.w - p.x
    ensures t.h < p.y + Lcu(t) ==> LowBits(t.log2, t.h) == t.h - p.y
    ensures p.column > 0 <==> p.x > 0
    ensures n >= Blocks(t.w, t.log2) <==> p.y > 0
    ensures n < Blocks(t.w, t.log2) * Blocks(t.h, t.log2)
    ensures n == Blocks(t.w, t.log2) * Blocks(t.h, t.log2) - 1 <==> LastLcu(t, p.x, p.y)
  {
    hide Shl, Shr, LowBits, Pow2, Blocks;
    AxisFacts(t.w, t.log2, p.column, p.x);
    AxisFacts(t.h, t.log2, p.row, p.y);
    Raster(n, Blocks(t.w, t.log2), p.column, p.row);
    LastInRaster(n, Blocks(t.w, t.log2), Blocks(t.h, t.log2), p.column, p.row);
  }

  /** The block that follows in raster order, unless `p` is the last. */
  function NextPlace(t: Tile, p: Place): Place
  {
    if p.x + Lcu(t) < t.w then Place(p.column + 1, p.row, p.x + Lcu(t), p.y)
    else Place(0, p.row + 1, 0, p.y + Lcu(t))
  }

  lemma NextPlaceAt(t: Tile, n: nat, p: Place)
    requires At(t, n, p) && !LastLcu(t, p.x, p.y)
    ensures At(t, n + 1, NextPlace(t, p))
  {
    hide Shl, Shr, LowBits, Pow2, Blocks;
    AxisFacts(t.w, t.log2, p.column, p.x);
    AxisFacts(t.h, t.log2, p.row, p.y);
    ShlOfOne(t.log2);
    Distribute(Blocks(t.w, t.log2), p.row);
  }

  /** The data still to come once the blocks before index `n` are written. */
  ghost function Rest(t: Tile, lastTile: bool, p: Place, more: bool): (ops: seq<Op>)
    requires more ==> p.x < t.w && p.y < t.h
    ensures Known(ops, 5)
  {
    if more then TileOpsFrom(Written, t, lastTile, p.x, p.y) else []
  }

  lemma RestStep(t: Tile, lastTile: bool, p: Place)
    requires p.x < t.w && p.y < t.h
    ensures !LastLcu(t, p.x, p.y) ==> NextPlace(t, p).x < t.w && NextPlace(t, p).y < t.h
    ensures Rest(t, lastTile, p, true)
         == LcuOps(Written, t, lastTile, p.x, p.y) + Rest(t, lastTile, NextPlace(t, p), !LastLcu(t, p.x, p.y))
  {
  }

  /** Extending a run of the coder. */
  lemma RunExtend(c: Coder, a: seq<Op>, b: seq<Op>)
    requires Fits(c) && Known(a, 5) && Known(b, 5)
    ensures Known(a + b, 5)
    ensures Run(Run(c, a), b) == Run(c, a + b)
  {
    RunAppend(c, a, b);
  }

  /** The body of the loop over coding tree blocks: the block at index `uLCU` and the bins after it. */
  method WriteLcu(bs: BitStreamLite, ctx: CabacCtx, pState: array<StateIdx>, pValMPS: array<bit>, bLastTile: bool,
                  uLCU: nat, uNumLCU: nat, uWidthLCU: nat, uHeightLCU: nat, iW: nat, iH: nat, iT: nat,
                  ghost t: Tile, ghost p: Place)
    returns (uBins: nat)
    requires Ready(bs, ctx, pState, pValMPS) && At(t, uLCU, p)
    requires uWidthLCU == Blocks(t.w, t.log2) && uHeightLCU == Shr(t.h, t.log2)
    requires uNumLCU == uWidthLCU * Blocks(t.h, t.log2)
    requires iW == LowBits(t.log2, t.w) && iH == LowBits(t.log2, t.h) && iT == Lcu(t)
    modifies bs, bs.pData, ctx, pState, pValMPS
    ensures Ready(bs, ctx, pState, pValMPS) && bs.pData == old(bs.pData)
    ensures ctx.View(pState, pValMPS)
         == Run(old(ctx.View(pState, pValMPS)), LcuOps(Written, t, bLastTile, p.x, p.y))
    ensures uBins == |LcuOps(Written, t, bLastTile, p.x, p.y)|
  {
    hide Run, Leaves, Cus, Val, Shl, Pow2, Shr, LowBits, Blocks, ExactLow, Holds, ContextsOf, SkippedCu, Cu, Known,
         Step;
    ghost var c := ctx.View(pState, pValMPS);
    ghost var leaves := Leaves(t, p.x, p.y, t.log2);
    uBins := WriteLcuCus(bs, ctx, pState, pValMPS, uLCU, uWidthLCU, uHeightLCU, iW, iH, iT, t, p);
    PlaceFacts(t, uLCU, p);
    var bLastLCU := uLCU == uNumLCU - 1;
    var end_of_slice_segment_flag := if bLastTile && bLastLCU then 1 else 0;
    ctx.Terminate(bs, end_of_slice_segment_flag);
    TerminateMore(c, Cus(Written, t, leaves), end_of_slice_segment_flag);
    uBins := uBins + 1;
    if !bLastTile && bLastLCU {
      var end_of_subset_one_bit := 1;
      ctx.Terminate(bs, end_of_subset_one_bit);
      TerminateMore(c, Cus(Written, t, leaves) + [Terminate(0)], 1);
      assert [Terminate(0)] + [Terminate(1)] == [Terminate(0), Terminate(1)];
      assert Cus(Written, t, leaves) + [Terminate(0)] + [Terminate(1)]
          == Cus(Written, t, leaves) + ([Terminate(0)] + [Terminate(1)]);
      uBins := uBins + 1;
    }
  }

  lemma TerminateMore(c: Coder, ops: seq<Op>, bin: bit)
    requires Fits(c) && Known(ops, 5)
    ensures Known(ops + [Terminate(bin)], 5)
    ensures Step(Run(c, ops), Terminate(bin)) == Run(c, ops + [Terminate(bin)])
    ensures Step(Run(c, ops), Terminate(bin)).ctxs == Run(c, ops).ctxs
  {
    RunMore(c, ops, Terminate(bin));
  }

  /** The choice between the four ways to write a coding tree block. */
  method WriteLcuCus(bs: BitStreamLite, ctx: CabacCtx, pState: array<StateIdx>, pValMPS: array<bit>,
                     uLCU: nat, uWidthLCU: nat, uHeightLCU: nat, iW: nat, iH: nat, iT: nat,
                     ghost t: Tile, ghost p: Place)
    returns (uBins: nat)
    requires Ready(bs, ctx, pState, pValMPS) && At(t, uLCU, p)
    requires uWidthLCU == Blocks(t.w, t.log2) && uHeightLCU == Shr(t.h, t.log2)
    requires iW == LowBits(t.log2, t.w) && iH == LowBits(t.log2, t.h) && iT == Lcu(t)
    modifies bs, bs.pData, ctx, pState, pValMPS
    ensures Ready(bs, ctx, pState, pValMPS) && bs.pData == old(bs.pData)
    ensures ctx.View(pState, pValMPS)
         == After(old(ctx.View(pState, pValMPS)), t, Leaves(t, p.x, p.y, t.log2))
    ensures uBins == BinCount(t, Leaves(t, p.x, p.y, t.log2))
  {
    hide Run, Leaves, Cus, Val, Shl, Pow2, Shr, LowBits, Blocks, ExactLow, Holds, ContextsOf, After, BinCount;
    PlaceFacts(t, uLCU, p);
    MaskFacts(t, iW, iH, iT);
    var iRightColumn := uLCU % uWidthLCU == uWidthLCU - 1;
    var iBottomRow := uLCU / uWidthLCU == uHeightLCU;
    if iRightColumn && iW != 0 && iBottomRow && iH != 0 {
      uBins := WriteSkippedCuBotRight(bs, ctx, pState, pValMPS, iW, iH, iT / 2, t, p.x, p.y, t.log2 - 1);
    } else if iRightColumn && iW != 0 {
      uBins := WriteSkippedCuRight(bs, ctx, pState, pValMPS, uLCU >= uWidthLCU, iW, iT / 2, t, p.x, p.y, t.log2 - 1);
    } else if iBottomRow && iH != 0 {
      uBins := WriteSkippedCuBottom(bs, ctx, pState, pValMPS, uLCU % uWidthLCU != 0, iH, iT / 2, t, p.x, p.y,
                                    t.log2 - 1);
    } else {
      LeavesUnsplit(t, p.x, p.y, t.log2);
      uBins := WriteSkippedCU(bs, ctx, pState, pValMPS, uLCU >= uWidthLCU, uLCU % uWidthLCU != 0, false,
                              t, Leaf(p.x, p.y, t.log2));
    }
  }

  /** A partial block exists only if it can be split, and then the masks of its halves are in range. */
  lemma MaskFacts(t: Tile, iW: nat, iH: nat, iT: nat)
    requires iW == LowBits(t.log2, t.w) && iH == LowBits(t.log2, t.h) && iT == Lcu(t)
    ensures iW != 0 || iH != 0 ==> t.log2 > 0
    ensures t.log2 > 0 ==> iT / 2 == Pow2(t.log2 - 1) && 2 * (iT / 2) == iT
    ensures iW < iT && iH < iT
    ensures iT > 0 && iW % iT == iW && iH % iT == iH
  {
    Pow2Values();
    ModUnique(iW, iT, 0, iW);
    ModUnique(iH, iT, 0, iH);
  }

  method GenerateSkippedTileCabac(bs: BitStreamLite, bLastTile: bool, iWidth: nat, iHeight: nat,
                                  uLog2MaxCuSize: nat, uMinCuSize: nat, uNumLCU: nat)
    returns (uBins: nat)
    requires bs.Valid() && GoodSize(iWidth, iHeight, uLog2MaxCuSize, uMinCuSize)
    requires uNumLCU == Blocks(iWidth, uLog2MaxCuSize) * Blocks(iHeight, uLog2MaxCuSize)
    modifies bs, bs.pData
    ensures bs.Valid() && bs.pData == old(bs.pData)
    ensures var t := TileOf(iWidth, iHeight, uLog2MaxCuSize, uMinCuSize);
            && 0 < t.w && 0 < t.h
            && bs.Contents == Aligned(old(bs.Contents) + TileBits(t, bLastTile))
            && uBins == |TileOps(Written, t, bLastTile)|
  {
    hide Run, Leaves, Cus, Val, Shl, Pow2, Shr, LowBits, Blocks, ExactLow, Holds, ContextsOf, BinCount, SkippedCu,
         TileOpsFrom, LcuOps, TileContexts, Cu, Known, FinishBits;
    var ctx := new CabacCtx(bs);
    var pState := new StateIdx[5] [16, 15, 8, 16, 16];
    var pValMPS := new bit[5] [0, 0, 1, 1, 0];

    var uWidthLCU := Shr(iWidth + Pow2(uLog2MaxCuSize) - 1, uLog2MaxCuSize);
    var uHeightLCU := Shr(iHeight, uLog2MaxCuSize);
    var iW := Shr(LowBits(uLog2MaxCuSize, iWidth), uMinCuSize);
    var iH := Shr(LowBits(uLog2MaxCuSize, iHeight), uMinCuSize);
    var iT := Pow2(uLog2MaxCuSize - uMinCuSize);
    uBins := 0;

    ghost var t := TileOf(iWidth, iHeight, uLog2MaxCuSize, uMinCuSize);
    TileMeasures(iWidth, iHeight, uLog2MaxCuSize, uMinCuSize);
    ghost var c := ctx.View(pState, pValMPS);
    assert c == Start(TileContexts()) by { StartingContexts(pState, pValMPS); }
    ghost var ops := TileOps(Written, t, bLastTile);
    ghost var done: seq<Op>, p: Place := [], Place(0, 0, 0, 0);
    RunNothing(c);
    FirstPlace(t);
    for uLCU := 0 to uNumLCU
      invariant Ready(bs, ctx, pState, pValMPS) && bs.pData == old(bs.pData) && ctx.prefix == old(bs.Contents)
      invariant fresh(ctx) && fresh(pState) && fresh(pValMPS)
      invariant Known(done, 5) && ctx.View(pState, pValMPS) == Run(c, done) && uBins == |done|
      invariant uLCU < uNumLCU ==> At(t, uLCU, p)
      invariant ops == done + Rest(t, bLastTile, p, uLCU < uNumLCU)
    {
      PlaceFacts(t, uLCU, p);
      RestStep(t, bLastTile, p);
      ghost var here := LcuOps(Written, t, bLastTile, p.x, p.y);
      var n := WriteLcu(bs, ctx, pState, pValMPS, bLastTile, uLCU, uNumLCU, uWidthLCU, uHeightLCU, iW, iH, iT, t, p);
      uBins := uBins + n;
      RunExtend(c, done, here);
      if !LastLcu(t, p.x, p.y) {
        NextPlaceAt(t, uLCU, p);
        p := NextPlace(t, p);
      }
      done := done + here;
    }
    assert done == ops;
    ctx.Finish(bs);
    assert bs.Contents == Aligned(old(bs.Contents) + TileBits(t, bLastTile));
  }

  lemma RunNothing(c: Coder)
    requires Fits(c)
    ensures Known([], 5) && Run(c, []) == c
  {
  }

  lemma FirstPlace(t: Tile)
    requires 0 < t.w && 0 < t.h
    ensures At(t, 0, Place(0, 0, 0, 0))
  {
    ShlOfOne(t.log2);
  }

  lemma StartingContexts(pState: array<StateIdx>, pValMPS: array<bit>)
    requires pState.Length == pValMPS.Length == 5
    requires pState[..] == TILE_STATES && pValMPS[..] == TILE_MPS
    ensures ContextsOf(pState[..], pValMPS[..]) == TileContexts()
  {
  }

  lemma TileMeasures(iWidth: nat, iHeight: nat, uLog2MaxCuSize: nat, uMinCuSize: nat)
    requires GoodSize(iWidth, iHeight, uLog2MaxCuSize, uMinCuSize)
    ensures var t := TileOf(iWidth, iHeight, uLog2MaxCuSize, uMinCuSize);
            && 0 < t.w && 0 < t.h
            && Blocks(iWidth, uLog2MaxCuSize) == Blocks(t.w, t.log2)
            && Shr(iWidth + Pow2(uLog2MaxCuSize) - 1, uLog2MaxCuSize) == Blocks(t.w, t.log2)
            && Blocks(iHeight, uLog2MaxCuSize) == Blocks(t.h, t.log2)
            && Blocks(t.w, t.log2) * Blocks(t.h, t.log2) > 0
            && Shr(iHeight, uLog2MaxCuSize) == Shr(t.h, t.log2)
            && Shr(LowBits(uLog2MaxCuSize, iWidth), uMinCuSize) == LowBits(t.log2, t.w)
            && Shr(LowBits(uLog2MaxCuSize, iHeight), uMinCuSize) == LowBits(t.log2, t.h)
  {
    var t := TileOf(iWidth, iHeight, uLog2MaxCuSize, uMinCuSize);
    InMinimumBlocks(iWidth, uMinCuSize, t.log2);
    InMinimumBlocks(iHeight, uMinCuSize, t.log2);
    FirstPlace(t);
    PlaceFacts(t, 0, Place(0, 0, 0, 0));
  }

  /** A decoder that follows the standard's syntax and contexts reads a tile's data, whatever comes after it,
      as skipped coding units from first to last, and stops at its end. */
  lemma StandardDecoderReadsTile(t: Tile, lastTile: bool, tail: seq<bit>)
    requires 0 < t.w && 0 < t.h && Lcu(t) <= t.w && Lcu(t) <= t.h && t.log2 > 0
    ensures Known(TileOps(Standard, t, lastTile), 5)
    ensures var ops := TileOps(Standard, t, lastTile);
            var bits := TileBits(t, lastTile) + tail;
            var (bins, last) := Decode(StartDecoder(bits, TileContexts()), Requests(ops), bits);
            bins == Bins(ops) && last.pos == |TileBits(t, lastTile)|
  {
    WrittenIsStandardIff(t, lastTile);
    TileEnds(Written, t, lastTile, 0, 0);
    RoundTrip(TileContexts(), TileOps(Written, t, lastTile), tail);
  }
}
