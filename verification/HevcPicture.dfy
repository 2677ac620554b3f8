/** AL_HEVC_GenerateSkippedPicture of lib_bitstream/HEVC_SkippedPict.c: tiles, slices and their sizes. */
module HevcPicture {
  import opened Basics
  import opened Bits
  import opened BitStream
  import opened CabacCoder
  import opened Quadtree
  import opened HevcTile
  import opened AntiEmulation
  import opened SkippedPictures
  import opened HevcStream

  lemma AlignedAppend(a: seq<bit>, b: seq<bit>)
    requires |a| % 8 == 0
    ensures Aligned(a + b) == a + Aligned(b)
  {
    PaddingAfterBytes(|a|, |b|);
    hide Padding;
    Associates(a, b, Repeat(Padding(|b|), 0));
  }

  lemma PaddingAfterBytes(n: nat, m: nat)
    requires n % 8 == 0
    ensures Padding(n + m) == Padding(m)
  {
    assert (n + m) % 8 == m % 8;
  }

  lemma TileAppended(l: Layout, row: nat, column: nat)
    requires Good(l) && row < |l.rows| && column < |l.columns|
    ensures var before, after := Concat(Chunks(l, row, column)), Concat(Chunks(l, row, column + 1));
            && Aligned(before + TileBits(TileAt(l, row, column), EndsSlice(l, row, column))) == after
            && |Escaped(Packed(after))| == |Escaped(Packed(before))| + |Escaped(Packed(Chunk(l, row, column)))|
            && |after| % 8 == 0
  {
    hide Concat, Escape, TileBits, Partitions, GoodSize;
    var cs := Chunks(l, row, column);
    ChunksAreMarked(l, row, column);
    ChunkIsMarked(l, row, column);
    EscapedMore(cs, Chunk(l, row, column));
    ConcatIsMarked(cs);
    AlignedAppend(Concat(cs), TileBits(TileAt(l, row, column), EndsSlice(l, row, column)));
  }

  lemma ExtentsAreGood(l: Layout, row: nat, column: nat, W: int, H: int)
    requires Good(l) && row < |l.rows| && column < |l.columns|
    requires W == Left(l.iWidth, l.columns, l.uLog2MaxCuSize, column)
    requires H == Left(l.iHeight, l.rows, l.uLog2MaxCuSize, row)
    ensures var fullW, fullH := Shl(l.columns[column], l.uLog2MaxCuSize), Shl(l.rows[row], l.uLog2MaxCuSize);
            var w, h := if fullW < W then fullW else W, if fullH < H then fullH else H;
            && w > 0 && h > 0 && GoodSize(w, h, l.uLog2MaxCuSize, l.uMinCuSize)
            && Blocks(w, l.uLog2MaxCuSize) == l.columns[column] && Blocks(h, l.uLog2MaxCuSize) == l.rows[row]
            && TileAt(l, row, column) == TileOf(w, h, l.uLog2MaxCuSize, l.uMinCuSize)
  {
    hide Left, Shl, Shr, Blocks, Partitions;
    ExtentIsGood(l.iWidth, l.columns, l.uLog2MaxCuSize, l.uMinCuSize, column);
    ExtentIsGood(l.iHeight, l.rows, l.uLog2MaxCuSize, l.uMinCuSize, row);
  }

  /** One turn of the tile loop: writes the tile and measures it, emulation prevention included. */
  method WriteTile(bs: BitStreamLite, uLog2MaxCuSize: nat, uMinCuSize: nat, uTileWidth: nat, uTileHeight: nat,
                   W: int, H: int, bLastTile: bool, iPrevBitsCount: nat,
                   ghost l: Layout, ghost row: nat, ghost column: nat)
    returns (iBinsCount: nat, uTileSize: nat, iBitsCount: nat)
    requires bs.Valid() && Good(l) && row < |l.rows| && column < |l.columns|
    requires uLog2MaxCuSize == l.uLog2MaxCuSize && uMinCuSize == l.uMinCuSize
    requires uTileWidth == l.columns[column] && uTileHeight == l.rows[row]
    requires W == Left(l.iWidth, l.columns, uLog2MaxCuSize, column)
    requires H == Left(l.iHeight, l.rows, uLog2MaxCuSize, row)
    requires bLastTile == EndsSlice(l, row, column)
    requires bs.Contents == Concat(Chunks(l, row, column))
    requires iPrevBitsCount == 8 * |Escaped(Packed(bs.Contents))|
    requires |Concat(Chunks(l, row, column + 1))| <= bs.iMaxBits
    modifies bs, bs.pData
    ensures bs.Valid() && bs.pData == old(bs.pData) && bs.iMaxBits == old(bs.iMaxBits)
    ensures bs.Contents == Concat(Chunks(l, row, column + 1))
    ensures uTileSize == |Escaped(Packed(Chunk(l, row, column)))|
    ensures iBitsCount == 8 * |Escaped(Packed(bs.Contents))|
    ensures iBinsCount == |TileOps(Written, TileAt(l, row, column), bLastTile)|
  {
    hide Left, Shl, Shr, Blocks, Holds, Concat, Escaped, TileBits, TileOf, TileAt, Partitions, Good, GoodSize, Chunks,
         Chunk, Aligned, Packed, TileOps;
    TileAppended(l, row, column);
    ExtentsAreGood(l, row, column, W, H);
    var uTileNumLCU := uTileWidth * uTileHeight;
    var iTileWidth := if Shl(uTileWidth, uLog2MaxCuSize) < W then Shl(uTileWidth, uLog2MaxCuSize) else W;
    var iTileHeight := if Shl(uTileHeight, uLog2MaxCuSize) < H then Shl(uTileHeight, uLog2MaxCuSize) else H;
    iBinsCount := GenerateSkippedTileCabac(bs, bLastTile, iTileWidth, iTileHeight, uLog2MaxCuSize, uMinCuSize,
          uTileNumLCU);
    var added := AddAntiEmulSizeInBytes(bs);
    iBitsCount := bs.iBitCount + 8 * added;
    assert iBitsCount == iPrevBitsCount + 8 * |Escaped(Packed(Chunk(l, row, column)))|;
    uTileSize := (iBitsCount - iPrevBitsCount + 7) / 8;
  }

  /** The loop over the tiles of one row. */
  method WriteTileRow(bs: BitStreamLite, sizes: array<nat>, first: nat, prev: nat, iWidth: nat, uLog2MaxCuSize: nat,
                      uMinCuSize: nat, pTileWidths: array<nat>, iTileColumns: nat, uTileHeight: nat, H: int,
                      bSliceSplit: bool, lastRow: bool, ghost l: Layout, ghost row: nat)
    returns (iBinsCount: nat, iTile: nat, iPrevBitsCount: nat)
    requires bs.Valid() && Good(l) && row < |l.rows| && sizes != pTileWidths
    requires iTileColumns <= pTileWidths.Length && l.columns == pTileWidths[..iTileColumns]
    requires iWidth == l.iWidth && uLog2MaxCuSize == l.uLog2MaxCuSize && uMinCuSize == l.uMinCuSize
    requires uTileHeight == l.rows[row] && H == Left(l.iHeight, l.rows, uLog2MaxCuSize, row)
    requires bSliceSplit == l.sliceSplit && lastRow == (row + 1 == |l.rows|)
    requires bs.Contents == Concat(Chunks(l, row, 0)) && prev == 8 * |Escaped(Packed(bs.Contents))|
    requires |Concat(Chunks(l, row + 1, 0))| <= bs.iMaxBits && |Chunks(l, row + 1, 0)| <= sizes.Length
    requires first == |Chunks(l, row, 0)| <= sizes.Length && sizes[..first] == EscapedSizes(Chunks(l, row, 0))
    modifies bs, bs.pData, sizes
    ensures bs.Valid() && bs.pData == old(bs.pData) && bs.iMaxBits == old(bs.iMaxBits)
    ensures bs.Contents == Concat(Chunks(l, row + 1, 0))
    ensures iPrevBitsCount == 8 * |Escaped(Packed(bs.Contents))|
    ensures iTile == |Chunks(l, row + 1, 0)| && sizes[..iTile] == EscapedSizes(Chunks(l, row + 1, 0))
    ensures iBinsCount == if iTileColumns == 0 then 0 else TileBins(l, row, iTileColumns - 1)
  {
    hide Left, Shl, Shr, Blocks, Holds, ByteAt, Concat, Escaped, Good, GoodSize, Chunk, Packed, TileOps, EscapedSizes,
         Chunks;
    iTile, iPrevBitsCount, iBinsCount := first, prev, 0;
    var W: int := iWidth;
    assert W == Left(iWidth, l.columns, uLog2MaxCuSize, 0) by { LeftStart(iWidth, l.columns, uLog2MaxCuSize); }
    for iTileColumn := 0 to iTileColumns
      invariant bs.Valid() && bs.pData == old(bs.pData) && bs.iMaxBits == old(bs.iMaxBits)
      invariant bs.Contents == Concat(Chunks(l, row, iTileColumn))
      invariant iPrevBitsCount == 8 * |Escaped(Packed(bs.Contents))|
      invariant W == Left(iWidth, l.columns, uLog2MaxCuSize, iTileColumn)
      invariant iTile == |Chunks(l, row, iTileColumn)| <= sizes.Length
      invariant sizes[..iTile] == EscapedSizes(Chunks(l, row, iTileColumn))
      invariant iBinsCount == if iTileColumn == 0 then 0 else TileBins(l, row, iTileColumn - 1)
    {
      var bLastTile := iTileColumn == iTileColumns - 1 && (bSliceSplit || lastRow);
      NextChunk(l, row, iTileColumn);
      LeftStep(iWidth, l.columns, uLog2MaxCuSize, iTileColumn);
      var uTileSize;
      ghost var before := sizes[..iTile];
      iBinsCount, uTileSize, iPrevBitsCount :=
        WriteTile(bs, uLog2MaxCuSize, uMinCuSize, pTileWidths[iTileColumn], uTileHeight, W, H, bLastTile,
                  iPrevBitsCount, l, row, iTileColumn);
      sizes[iTile] := uTileSize;
      iTile := iTile + 1;
      assert sizes[..iTile] == before + [uTileSize];
      W := W - Shl(pTileWidths[iTileColumn], uLog2MaxCuSize);
    }
    RowDone(l, row);
  }

  lemma LeftStart(total: nat, sizes: seq<nat>, log2: nat)
    ensures Left(total, sizes, log2, 0) == total
  {
  }

  lemma LeftStep(total: nat, sizes: seq<nat>, log2: nat, n: nat)
    requires n < |sizes|
    ensures Left(total, sizes, log2, n + 1) == Left(total, sizes, log2, n) - Shl(sizes[n], log2)
  {
  }

  lemma NextChunk(l: Layout, row: nat, column: nat)
    requires Good(l) && row < |l.rows| && column < |l.columns|
    ensures |Chunks(l, row, column + 1)| == |Chunks(l, row, column)| + 1 <= |Chunks(l, row + 1, 0)|
    ensures EscapedSizes(Chunks(l, row, column + 1))
         == EscapedSizes(Chunks(l, row, column)) + [|Escaped(Packed(Chunk(l, row, column)))|]
    ensures |Concat(Chunks(l, row, column + 1))| <= |Concat(Chunks(l, row + 1, 0))|
  {
    hide Chunk, Good;
    RowDone(l, row);
    ChunksGrow(l, row, column + 1, row + 1, 0);
    assert Chunks(l, row, column + 1) == Chunks(l, row, column) + [Chunk(l, row, column)];
    ChunkCount(l, row, column);
    ChunkCount(l, row, |l.columns|);
  }

  /** Are the caller's buffer and records large enough? */
  ghost predicate Room(l: Layout, bytes: nat, sizes: nat, slices: nat)
    requires Good(l)
  {
    |Concat(Chunks(l, |l.rows|, 0))| <= 8 * bytes && |l.rows| * |l.columns| <= sizes && SliceCount(l) <= slices
  }

  /** After a row of tiles: more tiles for the slice, and its end if it ends here. */
  method EndRow(slices: array<SkippedSlice>, iNumSlices: nat, iTileColumns: nat, ends: bool, iBitCount: nat)
    returns (n: nat)
    requires iNumSlices < slices.Length && slices[iNumSlices].uOffset <= (iBitCount + 7) / 8
    modifies slices
    ensures n == iNumSlices + if ends then 1 else 0
    ensures slices[..]
         == old(slices[..])[iNumSlices := RowAdded(old(slices[iNumSlices]), iTileColumns, ends, iBitCount)]
  {
    n := iNumSlices;
    slices[n] := slices[n].(uNumTiles := slices[n].uNumTiles + iTileColumns);
    if ends {
      slices[n] := slices[n].(uSize := (iBitCount + 7) / 8 - slices[n].uOffset);
      n := n + 1;
    }
  }

  function RowAdded(s: SkippedSlice, tiles: nat, ends: bool, iBitCount: nat): SkippedSlice
    requires s.uOffset <= (iBitCount + 7) / 8
  {
    SkippedSlice(s.uOffset, if ends then (iBitCount + 7) / 8 - s.uOffset else s.uSize, s.uNumTiles + tiles)
  }

  /** The records after a row, from those before it. */
  lemma RowRecorded(l: Layout, row: nat, n: nat, before: seq<SkippedSlice>, begun: seq<SkippedSlice>,
                    after: seq<SkippedSlice>, tiles: nat)
    requires Good(l) && row < |l.rows| && n < |before| && tiles == |Chunks(l, row, 0)|
    requires n == (if l.sliceSplit then row else 0) && n < SliceCount(l)
    requires forall k: nat :: k < n ==> before[k] == SliceAt(l, k)
    requires !l.sliceSplit && 0 < row ==> before[0] == SkippedSlice(0, 0, tiles)
    requires begun == if l.sliceSplit || row == 0
                       then before[n := SkippedSlice((|Concat(Chunks(l, row, 0))| + 7) / 8, 0, 0)] else before
    requires begun[n].uOffset <= (|Concat(Chunks(l, row + 1, 0))| + 7) / 8
    requires after == begun[n := RowAdded(begun[n], |l.columns|, l.sliceSplit || row + 1 == |l.rows|,
                                           |Concat(Chunks(l, row + 1, 0))|)]
    ensures |after| == |before| && forall k: nat :: k < n ==> after[k] == SliceAt(l, k)
    ensures l.sliceSplit || row + 1 == |l.rows| ==> after[n] == SliceAt(l, n)
    ensures !l.sliceSplit && row + 1 < |l.rows| ==> after[0] == SkippedSlice(0, 0, |Chunks(l, row + 1, 0)|)
  {
    hide Good, Chunks, Concat, SliceAt;
    SliceFacts(l, row);
    if row == 0 { assert tiles == 0 by { NoChunksYet(l); } }
  }

  lemma NoChunksYet(l: Layout)
    requires Good(l)
    ensures Chunks(l, 0, 0) == []
  {
  }

  /** The loop over rows of tiles. */
  method WriteRows(bs: BitStreamLite, slices: array<SkippedSlice>, sizes: array<nat>, l: Layout,
                   pTileWidths: array<nat>, pTileHeights: array<nat>, iTileColumns: nat, iTileRows: nat)
    returns (iNumSlices: nat, iBinsCount: nat)
    requires bs.Valid() && bs.Contents == [] && Good(l) && sizes != pTileWidths && sizes != pTileHeights
    requires iTileColumns <= pTileWidths.Length && l.columns == pTileWidths[..iTileColumns]
    requires iTileRows <= pTileHeights.Length && l.rows == pTileHeights[..iTileRows]
    requires Room(l, bs.pData.Length, sizes.Length, slices.Length)
    modifies bs, bs.pData, sizes, slices
    ensures bs.Valid() && bs.pData == old(bs.pData) && bs.Contents == Concat(Chunks(l, |l.rows|, 0))
    ensures Recorded(l, sizes[..], iNumSlices, slices[..]) && iBinsCount == LastTileBins(l)
  {
    hide Left, Shl, Shr, Blocks, Holds, ByteAt, Concat, Escaped, Good, GoodSize, Chunk, Packed, TileOps, EscapedSizes,
         Chunks, SliceAt, TileBins, EndsSlice, Room, Recorded, LastTileBins;
    RoomFor(l, bs.pData.Length, sizes.Length, slices.Length);
    var iPrevBitsCount, iTile := 0, 0;
    var H: int := l.iHeight;
    iNumSlices, iBinsCount := 0, 0;
    StreamStart(l);
    for iTileRow := 0 to iTileRows
      invariant bs.Valid() && bs.pData == old(bs.pData)
      invariant l.columns == pTileWidths[..iTileColumns] && l.rows == pTileHeights[..iTileRows]
      invariant bs.Contents == Concat(Chunks(l, iTileRow, 0))
      invariant iPrevBitsCount == 8 * |Escaped(Packed(bs.Contents))|
      invariant H == Left(l.iHeight, l.rows, l.uLog2MaxCuSize, iTileRow)
      invariant iTile == |Chunks(l, iTileRow, 0)| <= sizes.Length
      invariant sizes[..iTile] == EscapedSizes(Chunks(l, iTileRow, 0))
      invariant iNumSlices == if l.sliceSplit then iTileRow else if 0 < iTileRow == iTileRows then 1 else 0
      invariant iNumSlices <= SliceCount(l) && iNumSlices <= slices.Length
      invariant forall k: nat :: k < iNumSlices ==> slices[k] == SliceAt(l, k)
      invariant !l.sliceSplit && 0 < iTileRow < iTileRows ==> slices[0] == SkippedSlice(0, 0, iTile)
      invariant iBinsCount
             == if iTileRow == 0 || iTileColumns == 0 then 0 else TileBins(l, iTileRow - 1, iTileColumns - 1)
    {
      SliceFacts(l, iTileRow);
      LeftStep(l.iHeight, l.rows, l.uLog2MaxCuSize, iTileRow);
      ghost var n, recorded, before := iNumSlices, slices[..], iTile;
      if l.sliceSplit || iTileRow == 0 {
        slices[iNumSlices] := SkippedSlice((bs.iBitCount + 7) / 8, 0, 0);
      }
      ghost var begun := slices[..];
      iBinsCount, iTile, iPrevBitsCount :=
        WriteTileRow(bs, sizes, iTile, iPrevBitsCount, l.iWidth, l.uLog2MaxCuSize, l.uMinCuSize, pTileWidths,
                     iTileColumns, pTileHeights[iTileRow], H, l.sliceSplit, iTileRow == iTileRows - 1, l, iTileRow);
      assert slices[..] == begun;
      iNumSlices := EndRow(slices, iNumSlices, iTileColumns, l.sliceSplit || iTileRow == iTileRows - 1, bs.iBitCount);
      RowRecorded(l, iTileRow, n, recorded, begun, slices[..], before);
      H := H - Shl(pTileHeights[iTileRow], l.uLog2MaxCuSize);
    }
    AllRecorded(l, sizes[..], iNumSlices, slices[..], iBinsCount);
  }

  lemma RoomFor(l: Layout, bytes: nat, sizes: nat, slices: nat)
    requires Good(l) && Room(l, bytes, sizes, slices)
    ensures |Concat(Chunks(l, |l.rows|, 0))| <= 8 * bytes && |l.rows| * |l.columns| <= sizes
    ensures l.rows != [] ==> slices >= if l.sliceSplit then |l.rows| else 1
  {
    hide Good, Chunks, Concat;
  }

  lemma AllRecorded(l: Layout, sizes: seq<nat>, n: nat, slices: seq<SkippedSlice>, bins: nat)
    requires Good(l) && n <= |slices| && |Chunks(l, |l.rows|, 0)| <= |sizes|
    requires sizes[..|Chunks(l, |l.rows|, 0)|] == EscapedSizes(Chunks(l, |l.rows|, 0))
    requires n == if l.sliceSplit then |l.rows| else if 0 < |l.rows| then 1 else 0
    requires forall k: nat :: k < n ==> k < SliceCount(l) && slices[k] == SliceAt(l, k)
    requires bins == if l.rows == [] || l.columns == [] then 0 else TileBins(l, |l.rows| - 1, |l.columns| - 1)
    ensures Recorded(l, sizes, n, slices) && bins == LastTileBins(l)
  {
    hide Good, Chunks, SliceAt, EscapedSizes, TileBins;
  }

  method GenerateSkippedPicture(pSkipPict: SkippedPicture?, iWidth: nat, iHeight: nat, uLog2MaxCuSize: nat,
                                uMinCuSize: nat, iTileColumns: nat, iTileRows: nat, pTileWidths: array<nat>,
                                pTileHeights: array<nat>, bSliceSplit: bool, ghost l: Layout)
    returns (ok: bool)
    requires iTileColumns <= pTileWidths.Length && iTileRows <= pTileHeights.Length
    requires l == Layout(iWidth, iHeight, uLog2MaxCuSize, uMinCuSize,
                         pTileWidths[..iTileColumns], pTileHeights[..iTileRows], bSliceSplit)
    requires Good(l)
    requires pSkipPict != null && pSkipPict.pData != null ==>
               && Room(l, pSkipPict.pData.Length, pSkipPict.uTileSizes.Length, pSkipPict.tSkippedSlice.Length)
               && pSkipPict.uTileSizes != pTileWidths && pSkipPict.uTileSizes != pTileHeights
    modifies pSkipPict, if pSkipPict == null then {} else {pSkipPict.tSkippedSlice, pSkipPict.uTileSizes},
             if pSkipPict == null || pSkipPict.pData == null then {} else {pSkipPict.pData}
    ensures ok <==> pSkipPict != null && old(pSkipPict.pData) != null
    ensures ok ==> pSkipPict.pData != null && pSkipPict.pData == old(pSkipPict.pData)
    ensures ok ==> Stored(l, pSkipPict.pData[..])
    ensures ok ==> Recorded(l, pSkipPict.uTileSizes[..], pSkipPict.iNumSlices, pSkipPict.tSkippedSlice[..])
    ensures ok ==> pSkipPict.iNumBins == LastTileBins(l)
    ensures ok && iTileColumns > 0 ==>
              forall k: nat, initType: nat :: k < pSkipPict.iNumSlices ==>
                k < pSkipPict.tSkippedSlice.Length
                && SliceReads(l, k, pSkipPict.tSkippedSlice[..], pSkipPict.pData[..], initType)
  {
    hide Good, Room, Recorded, Holds, Packed, Chunks, Concat, SliceReads;
    if pSkipPict == null || pSkipPict.pData == null {
      return false;
    }
    var bs := new BitStreamLite(pSkipPict.pData);
    var layout := Layout(iWidth, iHeight, uLog2MaxCuSize, uMinCuSize,
                         pTileWidths[..iTileColumns], pTileHeights[..iTileRows], bSliceSplit);
    var slices, iBinsCount := WriteRows(bs, pSkipPict.tSkippedSlice, pSkipPict.uTileSizes, layout,
                                        pTileWidths, pTileHeights, iTileColumns, iTileRows);
    pSkipPict.iNumSlices := slices;
    pSkipPict.iNumBins := iBinsCount;
    RoomIsEnough(l, pSkipPict.pData.Length, pSkipPict.uTileSizes.Length, pSkipPict.tSkippedSlice.Length);
    bs.HoldsPackedBits();
    SlicesRead(l, pSkipPict.uTileSizes[..], slices, pSkipPict.tSkippedSlice[..], pSkipPict.pData[..]);
    return true;
  }

  lemma RoomIsEnough(l: Layout, bytes: nat, sizes: nat, slices: nat)
    requires Good(l) && Room(l, bytes, sizes, slices)
    ensures |Concat(Chunks(l, |l.rows|, 0))| <= 8 * bytes
  {
  }

  lemma SliceFacts(l: Layout, row: nat)
    requires Good(l) && row < |l.rows|
    ensures var here, next := |Concat(Chunks(l, row, 0))|, |Concat(Chunks(l, row + 1, 0))|;
            && here % 8 == 0 && next % 8 == 0 && here <= next <= |Concat(Chunks(l, |l.rows|, 0))|
            && (row == 0 ==> here == 0)
            && (l.sliceSplit ==> SliceAt(l, row) == SkippedSlice(here / 8, (next - here) / 8, |l.columns|))
            && (!l.sliceSplit && row + 1 == |l.rows| ==>
                  SliceAt(l, 0) == SkippedSlice(0, next / 8, |Chunks(l, row + 1, 0)|))
    ensures |Chunks(l, row + 1, 0)| == |Chunks(l, row, 0)| + |l.columns|
    ensures |Chunks(l, row + 1, 0)| <= |Chunks(l, |l.rows|, 0)| == |l.rows| * |l.columns|
  {
    hide Good, Concat, Chunks;
    ChunkCount(l, row, 0);
    ChunkCount(l, row + 1, 0);
    ChunkCount(l, |l.rows|, 0);
    RowsAligned(l, row);
    RowsAligned(l, row + 1);
    MulMonotone(|l.columns|, row + 1, |l.rows|);
    Commute(row + 1, |l.columns|);
    Commute(|l.rows|, |l.columns|);
    Distribute(|l.columns|, row);
  }

  lemma StreamStart(l: Layout)
    requires Good(l)
    ensures Chunks(l, 0, 0) == [] && Concat([]) == [] && Escaped(Packed([])) == []
    ensures Left(l.iHeight, l.rows, l.uLog2MaxCuSize, 0) == l.iHeight
    ensures Left(l.iWidth, l.columns, l.uLog2MaxCuSize, 0) == l.iWidth
  {
  }
}
