/** The stream of a skipped picture: its tiles byte by byte, the slice records and tile sizes that go with them, and
    what the parser of ITU-T H.265 makes of them. */
module HevcStream {
  import opened Basics
  import opened Bits
  import opened BitStream
  import opened CabacCoder
  import opened Quadtree
  import opened HevcTile
  import HevcParser
  import opened AntiEmulation
  import opened SkippedPictures

  /** A picture in luma samples; tile columns and rows in coding tree blocks. */
  datatype Layout = Layout(iWidth: nat, iHeight: nat, uLog2MaxCuSize: nat, uMinCuSize: nat,
                           columns: seq<nat>, rows: seq<nat>, sliceSplit: bool)

  /** What is left of `total` after the first `n` tiles. */
  function Left(total: nat, sizes: seq<nat>, log2: nat, n: nat): int
    requires n <= |sizes|
  {
    if n == 0 then total else Left(total, sizes, log2, n - 1) - Shl(sizes[n - 1], log2)
  }

  /** The tiles partition the picture: every tile starts inside it, and only the last may stick out. */
  predicate Partitions(total: nat, sizes: seq<nat>, log2: nat)
  {
    forall i :: 0 <= i < |sizes| ==> sizes[i] > 0 && Shl(sizes[i] - 1, log2) < Left(total, sizes, log2, i)
  }

  predicate Good(l: Layout)
  {
    && GoodSize(l.iWidth, l.iHeight, l.uLog2MaxCuSize, l.uMinCuSize)
    && Partitions(l.iWidth, l.columns, l.uLog2MaxCuSize)
    && Partitions(l.iHeight, l.rows, l.uLog2MaxCuSize)
  }

  function Extent(total: nat, sizes: seq<nat>, log2: nat, i: nat): int
    requires i < |sizes|
  {
    var full, left := Shl(sizes[i], log2), Left(total, sizes, log2, i);
    if full < left then full else left
  }

  function Sum(sizes: seq<nat>): nat
  {
    if sizes == [] then 0 else Sum(sizes[..|sizes| - 1]) + sizes[|sizes| - 1]
  }

  /** Section 6.5.1: one after the other, the extents of the first `n` tiles take up as many coding tree blocks as
      the layout gives them, up to the edge of the picture. */
  function ExtentsTo(total: nat, sizes: seq<nat>, log2: nat, n: nat): int
    requires n <= |sizes|
  {
    if n == 0 then 0 else ExtentsTo(total, sizes, log2, n - 1) + Extent(total, sizes, log2, n - 1)
  }

  lemma {:induction false} ExtentsCover(total: nat, sizes: seq<nat>, log2: nat, n: nat)
    requires n <= |sizes| && Partitions(total, sizes, log2)
    ensures ExtentsTo(total, sizes, log2, n) == Min(total, Shl(Sum(sizes[..n]), log2))
    ensures Left(total, sizes, log2, n) == total - Shl(Sum(sizes[..n]), log2)
  {
    ShlOfOne(log2);
    if n > 0 {
      ExtentsCover(total, sizes, log2, n - 1);
      assert sizes[..n][..n - 1] == sizes[..n - 1];
      ShlSum(Sum(sizes[..n - 1]), sizes[n - 1], log2);
      ShlMonotone(0, sizes[n - 1] - 1, log2);
    }
  }

  lemma {:induction false} LeftIsMultiple(total: nat, sizes: seq<nat>, log2: nat, min: nat, n: nat) returns (q: int)
    requires n <= |sizes| && min <= log2 && total == Shl(Shr(total, min), min)
    ensures Left(total, sizes, log2, n) == q * Pow2(min)
  {
    if n == 0 {
      ShlAsProduct(Shr(total, min), min);
      q := Shr(total, min);
    } else {
      var q' := LeftIsMultiple(total, sizes, log2, min, n - 1);
      ShlShl(sizes[n - 1], log2 - min, min);
      ShlAsProduct(Shl(sizes[n - 1], log2 - min), min);
      q := q' - Shl(sizes[n - 1], log2 - min);
      assert (q' - Shl(sizes[n - 1], log2 - min)) * Pow2(min)
          == q' * Pow2(min) - Shl(sizes[n - 1], log2 - min) * Pow2(min);
    }
  }

  /** A tile's extent is a size of the right kind and takes as many blocks as the layout says. */
  lemma ExtentIsGood(total: nat, sizes: seq<nat>, log2: nat, min: nat, i: nat)
    requires i < |sizes| && min <= log2 && total == Shl(Shr(total, min), min) && Partitions(total, sizes, log2)
    ensures var e := Extent(total, sizes, log2, i);
            e > 0 && e == Shl(Shr(e, min), min) && Blocks(e, log2) == sizes[i] && Shr(e, min) > 0
  {
    hide Shr, Pow2, Blocks, LowBits, Left;
    var full, left := Shl(sizes[i], log2), Left(total, sizes, log2, i);
    ShlNext(sizes[i] - 1, log2);
    var e := Extent(total, sizes, log2, i);
    if full < left {
      ShlShl(sizes[i], log2 - min, min);
      ShiftParts(Shl(sizes[i], log2 - min), 0, min);
      BlocksByCases(sizes[i], 0, log2);
      ShlMonotone(sizes[i], sizes[i], log2);
    } else {
      var q := LeftIsMultiple(total, sizes, log2, min, i);
      if q < 0 { NegativeProduct(q, Pow2(min)); }
      ShlAsProduct(q, min);
      ShiftParts(q, 0, min);
      BlocksWithin(sizes[i], e, log2);
    }
    if Shr(e, min) == 0 { ShlOfOne(min); }
  }

  lemma NegativeProduct(q: int, p: nat)
    requires q < 0
    ensures q * p <= 0
  {
  }

  lemma BlocksWithin(n: nat, e: nat, k: nat)
    requires n > 0 && Shl(n - 1, k) < e <= Shl(n, k)
    ensures Blocks(e, k) == n
  {
    ShlNext(n - 1, k);
    if e == Shl(n, k) {
      BlocksByCases(n, 0, k);
    } else {
      BlocksByCases(n - 1, e - Shl(n - 1, k), k);
    }
  }

  function TileAt(l: Layout, row: nat, column: nat): (t: Tile)
    requires Good(l) && row < |l.rows| && column < |l.columns|
    ensures 0 < t.w && 0 < t.h
  {
    ExtentIsGood(l.iWidth, l.columns, l.uLog2MaxCuSize, l.uMinCuSize, column);
    ExtentIsGood(l.iHeight, l.rows, l.uLog2MaxCuSize, l.uMinCuSize, row);
    TileOf(Extent(l.iWidth, l.columns, l.uLog2MaxCuSize, column),
           Extent(l.iHeight, l.rows, l.uLog2MaxCuSize, row), l.uLog2MaxCuSize, l.uMinCuSize)
  }

  /** Does this tile end a slice? */
  predicate EndsSlice(l: Layout, row: nat, column: nat)
  {
    column + 1 == |l.columns| && (l.sliceSplit || row + 1 == |l.rows|)
  }

  /** The bytes of one tile, as bits. */
  function Chunk(l: Layout, row: nat, column: nat): seq<bit>
    requires Good(l) && row < |l.rows| && column < |l.columns|
  {
    Aligned(TileBits(TileAt(l, row, column), EndsSlice(l, row, column)))
  }

  /** The chunks of the first `row` rows of tiles and of the first `column` tiles of the next one. */
  function Chunks(l: Layout, row: nat, column: nat): seq<seq<bit>>
    requires Good(l) && row <= |l.rows| && column <= |l.columns| && (row == |l.rows| ==> column == 0)
    decreases row, column
  {
    if column > 0 then Chunks(l, row, column - 1) + [Chunk(l, row, column - 1)]
    else if row > 0 then Chunks(l, row - 1, |l.columns|)
    else []
  }

  lemma {:induction false} ChunkCount(l: Layout, row: nat, column: nat)
    requires Good(l) && row <= |l.rows| && column <= |l.columns| && (row == |l.rows| ==> column == 0)
    ensures |Chunks(l, row, column)| == row * |l.columns| + column
    decreases row, column
  {
    hide Chunk, Good;
    if column > 0 {
      ChunkCount(l, row, column - 1);
    } else if row > 0 {
      ChunkCount(l, row - 1, |l.columns|);
      assert (row - 1) * |l.columns| + |l.columns| == row * |l.columns|;
    }
  }

  function Concat(cs: seq<seq<bit>>): seq<bit>
  {
    if cs == [] then [] else Concat(cs[..|cs| - 1]) + cs[|cs| - 1]
  }

  // ---- Escaping works chunk by chunk ----

  /** Whole bytes, the last of them not zero. */
  predicate Marked(c: seq<bit>)
  {
    |c| % 8 == 0 && |c| > 0 && Packed(c)[|Packed(c)| - 1] != 0
  }

  lemma {:induction false} ValPositive(bs: seq<bit>, i: nat)
    requires i < |bs| && bs[i] == 1
    ensures Val(bs) > 0
  {
    if i < |bs| - 1 {
      ValPositive(bs[..|bs| - 1], i);
    }
  }

  /** The stop bit is in the last byte. */
  lemma AlignedIsMarked(bs: seq<bit>)
    requires bs != [] && bs[|bs| - 1] == 1
    ensures Marked(Aligned(bs))
  {
    var c := Aligned(bs);
    var k := |c| / 8 - 1;
    assert |Packed(c)| == k + 1;
    var w := Window(c, k);
    assert w == c[8 * k..];
    assert w[|bs| - 1 - 8 * k] == 1;
    ValPositive(w + Repeat(0, 0), |bs| - 1 - 8 * k);
  }

  lemma ChunkIsMarked(l: Layout, row: nat, column: nat)
    requires Good(l) && row < |l.rows| && column < |l.columns|
    ensures Marked(Chunk(l, row, column))
  {
    var t, last := TileAt(l, row, column), EndsSlice(l, row, column);
    LastBitIsStop(Run(Start(TileContexts()), TileOps(Written, t, last)).at);
    AlignedIsMarked(TileBits(t, last));
  }

  lemma {:induction false} ChunksAreMarked(l: Layout, row: nat, column: nat)
    requires Good(l) && row <= |l.rows| && column <= |l.columns| && (row == |l.rows| ==> column == 0)
    ensures forall c :: c in Chunks(l, row, column) ==> Marked(c)
    decreases row, column
  {
    hide Chunk, Marked, Good;
    if column > 0 {
      ChunksAreMarked(l, row, column - 1);
      ChunkIsMarked(l, row, column - 1);
    } else if row > 0 {
      ChunksAreMarked(l, row - 1, |l.columns|);
    }
  }

  lemma PackedConcat(a: seq<bit>, b: seq<bit>)
    requires |a| % 8 == 0
    ensures Packed(a + b) == Packed(a) + Packed(b)
  {
    var n := |a| / 8;
    forall k: nat | k < |Packed(a + b)| ensures Packed(a + b)[k] == (Packed(a) + Packed(b))[k] {
      ByteOfConcat(a, b, k);
      hide ByteAt;
    }
  }

  lemma ByteOfConcat(a: seq<bit>, b: seq<bit>, k: nat)
    requires |a| % 8 == 0 && 8 * k < |a + b|
    ensures ByteAt(a + b, k) == if k < |a| / 8 then ByteAt(a, k) else ByteAt(b, k - |a| / 8)
  {
    hide PadByte;
    if k < |a| / 8 {
      SliceOfFirst(a, b, 8 * k, 8 * k + 8);
      assert Window(a + b, k) == Window(a, k);
    } else {
      var i := 8 * (k - |a| / 8);
      SliceOfSecond(a, b, i, if i + 8 <= |b| then i + 8 else |b|);
      assert Window(a + b, k) == Window(b, k - |a| / 8);
    }
  }

  lemma {:induction false} ConcatIsMarked(cs: seq<seq<bit>>)
    requires forall c :: c in cs ==> Marked(c)
    ensures |Concat(cs)| % 8 == 0
    ensures cs != [] ==> Marked(Concat(cs))
  {
    if cs != [] {
      var n := |cs| - 1;
      ConcatIsMarked(cs[..n]);
      assert Marked(cs[n]) by { assert cs[n] in cs; }
      hide Marked;
      MarkedMore(Concat(cs[..n]), cs[n]);
    }
  }

  lemma MarkedMore(a: seq<bit>, c: seq<bit>)
    requires |a| % 8 == 0 && Marked(c)
    ensures |a + c| % 8 == 0 && Marked(a + c)
  {
    hide ByteAt;
    PackedConcat(a, c);
  }

  /** Escaping the stream is escaping its chunks one by one. */
  lemma EscapedMore(cs: seq<seq<bit>>, c: seq<bit>)
    requires (forall d :: d in cs ==> Marked(d)) && Marked(c)
    ensures Escaped(Packed(Concat(cs) + c)) == Escaped(Packed(Concat(cs))) + Escaped(Packed(c))
    ensures Concat(cs + [c]) == Concat(cs) + c
  {
    ConcatIsMarked(cs);
    PackedConcat(Concat(cs), c);
    EscapeConcat(Packed(Concat(cs)), Packed(c), 0);
    ConcatMore(cs, c);
  }

  function EscapedSizes(cs: seq<seq<bit>>): (r: seq<nat>)
    ensures |r| == |cs|
  {
    seq(|cs|, i requires 0 <= i < |cs| => |Escaped(Packed(cs[i]))|)
  }

  /** The sizes of the escaped chunks add up to the size of the escaped stream. */
  lemma {:induction false} SizesAddUp(cs: seq<seq<bit>>)
    requires forall c :: c in cs ==> Marked(c)
    ensures Sum(EscapedSizes(cs)) == |Escaped(Packed(Concat(cs)))|
  {
    if cs != [] {
      var n := |cs| - 1;
      SizesAddUp(cs[..n]);
      assert cs[n] in cs;
      EscapedMore(cs[..n], cs[n]);
      assert cs[..n] + [cs[n]] == cs;
      assert EscapedSizes(cs)[..n] == EscapedSizes(cs[..n]);
    }
  }

  /** Earlier chunks are a prefix of later ones. */
  lemma {:induction false} ChunksGrow(l: Layout, r1: nat, c1: nat, r2: nat, c2: nat)
    requires Good(l) && r2 <= |l.rows| && c1 <= |l.columns| && c2 <= |l.columns|
    requires (r1 == |l.rows| ==> c1 == 0) && (r2 == |l.rows| ==> c2 == 0)
    requires r1 < r2 || (r1 == r2 && c1 <= c2)
    ensures Chunks(l, r1, c1) <= Chunks(l, r2, c2)
    ensures Concat(Chunks(l, r1, c1)) <= Concat(Chunks(l, r2, c2))
    decreases r2, c2
  {
    hide Chunks, Concat, Good, Chunk;
    if r1 == r2 && c1 == c2 {
    } else if c2 > 0 {
      ChunksGrow(l, r1, c1, r2, c2 - 1);
      LastChunk(l, r2, c2);
      PrefixMore(Concat(Chunks(l, r1, c1)), Concat(Chunks(l, r2, c2 - 1)), Chunk(l, r2, c2 - 1));
    } else {
      ChunksGrow(l, r1, c1, r2 - 1, |l.columns|);
      RowDone(l, r2 - 1);
    }
  }

  lemma LastChunk(l: Layout, row: nat, column: nat)
    requires Good(l) && row < |l.rows| && 0 < column <= |l.columns|
    ensures Chunks(l, row, column) == Chunks(l, row, column - 1) + [Chunk(l, row, column - 1)]
    ensures Concat(Chunks(l, row, column)) == Concat(Chunks(l, row, column - 1)) + Chunk(l, row, column - 1)
  {
    hide Chunk, Good, Concat;
    ConcatMore(Chunks(l, row, column - 1), Chunk(l, row, column - 1));
  }

  lemma ConcatMore(cs: seq<seq<bit>>, c: seq<bit>)
    ensures Concat(cs + [c]) == Concat(cs) + c
  {
    assert (cs + [c])[..|cs|] == cs;
  }

  lemma RowDone(l: Layout, row: nat)
    requires Good(l) && row < |l.rows|
    ensures Chunks(l, row, |l.columns|) == Chunks(l, row + 1, 0)
  {
    assert Chunks(l, row + 1, 0) == Chunks(l, row, |l.columns|);
  }

  // ---- The number of bins ----

  function TileBins(l: Layout, row: nat, column: nat): (n: nat)
    requires Good(l) && row < |l.rows| && column < |l.columns|
    ensures n > 0
  {
    TileEnds(Written, TileAt(l, row, column), EndsSlice(l, row, column), 0, 0);
    |TileOps(Written, TileAt(l, row, column), EndsSlice(l, row, column))|
  }

  /** What the program records: its count is set anew by every tile. */
  function LastTileBins(l: Layout): nat
    requires Good(l)
  {
    if l.rows == [] || l.columns == [] then 0 else TileBins(l, |l.rows| - 1, |l.columns| - 1)
  }

  /** The bins of the first `row` rows of tiles and of the first `column` tiles of the next one. */
  function BinsUpTo(l: Layout, row: nat, column: nat): nat
    requires Good(l) && row <= |l.rows| && column <= |l.columns| && (row == |l.rows| ==> column == 0)
    decreases row, column
  {
    if column > 0 then BinsUpTo(l, row, column - 1) + TileBins(l, row, column - 1)
    else if row > 0 then BinsUpTo(l, row - 1, |l.columns|)
    else 0
  }

  lemma {:induction false} NoColumnsNoBins(l: Layout, row: nat)
    requires Good(l) && row <= |l.rows| && l.columns == []
    ensures BinsUpTo(l, row, 0) == 0
  {
    if row > 0 {
      NoColumnsNoBins(l, row - 1);
    }
  }

  /** The recorded number of bins is that of the picture if and only if it has at most one tile. */
  lemma BinsAreTotalIff(l: Layout)
    requires Good(l)
    ensures LastTileBins(l) == BinsUpTo(l, |l.rows|, 0)
       <==> l.rows == [] || l.columns == [] || |l.rows| == |l.columns| == 1
  {
    hide Good, TileBins;
    if l.columns == [] {
      NoColumnsNoBins(l, |l.rows|);
    } else if l.rows != [] {
      var row, column := |l.rows| - 1, |l.columns| - 1;
      assert BinsUpTo(l, |l.rows|, 0) == BinsUpTo(l, row, column) + TileBins(l, row, column);
      assert column == 0 < row ==> BinsUpTo(l, row, 0) == BinsUpTo(l, row - 1, 0) + TileBins(l, row - 1, 0);
    }
  }

  /** Two tiles of one coding tree block each, in minimum blocks of half its side. */
  const TWO_TILES := Layout(32, 16, 4, 3, [1, 1], [1], false)

  /** Five bins and four are recorded as four. */
  lemma TwoTilesMiscounted()
    ensures Good(TWO_TILES) && LastTileBins(TWO_TILES) == 4 && BinsUpTo(TWO_TILES, 1, 0) == 9
  {
  }

  /** The slice records: one per row of tiles when slices are split, one for the picture otherwise. */
  function SliceCount(l: Layout): nat
  {
    if l.rows == [] then 0 else if l.sliceSplit then |l.rows| else 1
  }

  function SliceAt(l: Layout, k: nat): SkippedSlice
    requires Good(l) && k < SliceCount(l)
  {
    if l.sliceSplit then
      ChunksGrow(l, k, 0, k + 1, 0);
      SkippedSlice(|Concat(Chunks(l, k, 0))| / 8,
                   (|Concat(Chunks(l, k + 1, 0))| - |Concat(Chunks(l, k, 0))|) / 8, |l.columns|)
    else
      SkippedSlice(0, |Concat(Chunks(l, |l.rows|, 0))| / 8, |l.rows| * |l.columns|)
  }

  lemma RowsAligned(l: Layout, row: nat)
    requires Good(l) && row <= |l.rows|
    ensures |Concat(Chunks(l, row, 0))| % 8 == 0
    ensures row == 0 ==> Concat(Chunks(l, row, 0)) == []
    ensures row < |l.rows| ==> |Concat(Chunks(l, row, 0))| <= |Concat(Chunks(l, row + 1, 0))|
    ensures |Concat(Chunks(l, row, 0))| <= |Concat(Chunks(l, |l.rows|, 0))|
  {
    hide Chunk, Good;
    ChunksAreMarked(l, row, 0);
    ConcatIsMarked(Chunks(l, row, 0));
    ChunksGrow(l, row, 0, |l.rows|, 0);
    if row < |l.rows| {
      ChunksGrow(l, row, 0, row + 1, 0);
    }
  }

  /** The slice records are contiguous and cover the whole stream. */
  lemma SlicesCover(l: Layout, k: nat)
    requires Good(l) && k < SliceCount(l)
    ensures SliceAt(l, 0).uOffset == 0
    ensures k + 1 < SliceCount(l) ==>
              SliceAt(l, k + 1).uOffset == SliceAt(l, k).uOffset + SliceAt(l, k).uSize
    ensures k + 1 == SliceCount(l) ==>
              8 * (SliceAt(l, k).uOffset + SliceAt(l, k).uSize) == |Concat(Chunks(l, |l.rows|, 0))|
  {
    hide Chunk, Good, Concat, Chunks;
    RowsAligned(l, 0);
    RowsAligned(l, k);
    RowsAligned(l, k + 1);
    RowsAligned(l, |l.rows|);
  }

  /** The tile sizes and slice records that belong to a layout. */
  ghost predicate Recorded(l: Layout, sizes: seq<nat>, iNumSlices: nat, slices: seq<SkippedSlice>)
    requires Good(l)
  {
    var all := Chunks(l, |l.rows|, 0);
    && |all| <= |sizes| && sizes[..|all|] == EscapedSizes(all)
    && iNumSlices == SliceCount(l) <= |slices|
    && forall k: nat :: k < SliceCount(l) ==> slices[k] == SliceAt(l, k)
  }

  /** The buffer starts with the bytes of all tiles. */
  ghost predicate Stored(l: Layout, data: seq<uint8>)
    requires Good(l)
  {
    var all := Packed(Concat(Chunks(l, |l.rows|, 0)));
    all <= data
  }

  /** The parser of the standard, at the start of these bits, finds the coding units of the tile, with the end of
      the slice segment where the layout has it, or goes astray if the tile is not one that the standard reads. */
  ghost predicate ParsesAs(l: Layout, row: nat, column: nat, bits: seq<bit>, initType: nat)
    requires Good(l) && row < |l.rows| && column < |l.columns|
  {
    var t, last := TileAt(l, row, column), EndsSlice(l, row, column);
    HevcParser.ParseTile(t, 0, 0, StartDecoder(bits, HevcParser.InitialContexts(initType, 26)), [], bits)
    == if Lcu(t) <= t.w && Lcu(t) <= t.h && t.log2 > 0
       then HevcParser.Finished(LeavesFrom(t, 0, 0), last, |TileBits(t, last)|)
       else HevcParser.Broken
  }

  lemma TileThenTail(l: Layout, row: nat, column: nat, tail: seq<bit>, initType: nat)
    requires Good(l) && row < |l.rows| && column < |l.columns|
    ensures ParsesAs(l, row, column, TileBits(TileAt(l, row, column), EndsSlice(l, row, column)) + tail, initType)
  {
    hide TileBits, HevcParser.ParseTile, LeavesFrom, PrefixVal, TileAt, Good;
    HevcParser.ParserReadsTileIff(TileAt(l, row, column), EndsSlice(l, row, column), initType, tail);
  }

  /** From the place of a tile on, the bytes of the picture parse as that tile. */
  lemma TileParses(l: Layout, row: nat, column: nat, data: seq<uint8>, initType: nat)
    requires Good(l) && row < |l.rows| && column < |l.columns| && Stored(l, data)
    ensures |Concat(Chunks(l, row, column))| / 8 <= |data|
    ensures ParsesAs(l, row, column, Unpack(data[|Concat(Chunks(l, row, column))| / 8..]), initType)
  {
    hide Packed, Unpack, TileBits, Chunk, Chunks, Concat, ParsesAs, TileAt, Good;
    var tail := TileInBuffer(l, row, column, data);
    TileThenTail(l, row, column, tail, initType);
  }

  lemma TileInBuffer(l: Layout, row: nat, column: nat, data: seq<uint8>) returns (tail: seq<bit>)
    requires Good(l) && row < |l.rows| && column < |l.columns| && Stored(l, data)
    ensures |Concat(Chunks(l, row, column))| / 8 <= |data|
    ensures Unpack(data[|Concat(Chunks(l, row, column))| / 8..])
         == TileBits(TileAt(l, row, column), EndsSlice(l, row, column)) + tail
  {
    hide Packed, Unpack, TileBits, Chunk, Chunks, Concat, TileAt, Good;
    var bits := TileBits(TileAt(l, row, column), EndsSlice(l, row, column));
    var before, all := Concat(Chunks(l, row, column)), Concat(Chunks(l, |l.rows|, 0));
    var rest := TileInStream(l, row, column);
    var from := data[|Packed(before)|..];
    assert Packed(all) == Packed(before) + Packed(bits + rest);
    assert Packed(bits + rest) <= from;
    UnpackPrefix(bits + rest, from);
    tail := Unpack(from)[|bits|..];
    assert Unpack(from) == bits + tail;
  }

  /** The stream is what precedes a tile, in whole bytes, the tile, and the rest. */
  lemma TileInStream(l: Layout, row: nat, column: nat) returns (rest: seq<bit>)
    requires Good(l) && row < |l.rows| && column < |l.columns|
    ensures var before := Concat(Chunks(l, row, column));
      && |before| % 8 == 0 && |Packed(before)| == |before| / 8
      && Packed(Concat(Chunks(l, |l.rows|, 0)))
         == Packed(before) + Packed(TileBits(TileAt(l, row, column), EndsSlice(l, row, column)) + rest)
  {
    hide Packed, TileBits, TileAt, Good, Marked, Concat, Chunks, ByteAt;
    var before, chunk := Concat(Chunks(l, row, column)), Chunk(l, row, column);
    var bits := TileBits(TileAt(l, row, column), EndsSlice(l, row, column));
    var all := Concat(Chunks(l, |l.rows|, 0));
    ChunksAreMarked(l, row, column);
    ConcatIsMarked(Chunks(l, row, column));
    LastChunk(l, row, column + 1);
    RowDone(l, row);
    ChunksGrow(l, row, column + 1, row + 1, 0);
    ChunksGrow(l, row + 1, 0, |l.rows|, 0);
    assert before + chunk <= all;
    assert bits <= chunk;
    rest := all[|before| + |bits|..];
    assert all == before + (bits + rest);
    PackedConcat(before, bits + rest);
  }

  /** The recorded tile sizes add up to the size of the whole stream after emulation prevention, which is what
      a byte-stream reader removes again. */
  lemma TileSizesAddUp(l: Layout)
    requires Good(l)
    ensures var all := Chunks(l, |l.rows|, 0);
            && Sum(EscapedSizes(all)) == |Escaped(Packed(Concat(all)))|
            && Unescape(Escaped(Packed(Concat(all)))) == Packed(Concat(all))
  {
    var all := Chunks(l, |l.rows|, 0);
    ChunksAreMarked(l, |l.rows|, 0);
    SizesAddUp(all);
    EscapedIsReversibleAndSafe(Packed(Concat(all)));
  }

  // ---- Entry points ----

  lemma ChunkIndex(l: Layout, row: nat, column: nat)
    requires Good(l) && row < |l.rows| && column < |l.columns|
    ensures var k, all := row * |l.columns| + column, Chunks(l, |l.rows|, 0);
      k < |all| && all[k] == Chunk(l, row, column)
  {
    hide Chunks, Good, Chunk, Concat;
    ChunkCount(l, row, column);
    LastChunk(l, row, column + 1);
    ChunksGrow(l, row, column + 1, |l.rows|, 0);
  }

  /** The sizes of the escaped chunks are where the escaped stream has to be cut. */
  lemma {:induction false} EscapedCut(cs: seq<seq<bit>>, k: nat)
    requires k < |cs| && forall c :: c in cs ==> Marked(c)
    ensures var s, sizes := Escaped(Packed(Concat(cs))), EscapedSizes(cs);
      && Sum(sizes[..k]) <= Sum(sizes[..k + 1]) <= |s|
      && s[Sum(sizes[..k])..Sum(sizes[..k + 1])] == Escaped(Packed(cs[k]))
    decreases |cs|
  {
    hide Marked, Packed, Escape, Concat, Sum;
    var n := |cs| - 1;
    var s, first, last := Escaped(Packed(Concat(cs))), Escaped(Packed(Concat(cs[..n]))), Escaped(Packed(cs[n]));
    assert cs[n] in cs;
    assert cs[..n] + [cs[n]] == cs;
    EscapedMore(cs[..n], cs[n]);
    SizesAddUp(cs[..n]);
    var sizes := EscapedSizes(cs);
    assert sizes[..n] == EscapedSizes(cs[..n]);
    if k == n {
      assert sizes[..k + 1] == sizes[..n] + [|last|];
      SumPush(sizes[..n], |last|);
      assert s == first + last;
    } else {
      EscapedCut(cs[..n], k);
      assert EscapedSizes(cs[..n])[..k] == sizes[..k] && EscapedSizes(cs[..n])[..k + 1] == sizes[..k + 1];
    }
  }

  lemma SumPush(sizes: seq<nat>, n: nat)
    ensures Sum(sizes + [n]) == Sum(sizes) + n
  {
    assert (sizes + [n])[..|sizes|] == sizes;
  }

  /** What a reader of entry points takes for piece `k` of a stream. */
  function Piece(stream: seq<uint8>, sizes: seq<nat>, k: nat): seq<uint8>
  {
    if k < |sizes| && Sum(sizes[..k]) <= Sum(sizes[..k + 1]) <= |stream|
    then stream[Sum(sizes[..k])..Sum(sizes[..k + 1])] else []
  }

  /** It cuts the escaped stream at the sums of the recorded sizes, removes the emulation prevention of a piece,
      and parses it as the tile of its number. */
  lemma EntryPointParses(l: Layout, row: nat, column: nat, sizes: seq<nat>, iNumSlices: nat,
                         slices: seq<SkippedSlice>, initType: nat)
    requires Good(l) && row < |l.rows| && column < |l.columns|
    requires Recorded(l, sizes, iNumSlices, slices)
    ensures var stream := Escaped(Packed(Concat(Chunks(l, |l.rows|, 0))));
      var piece := Unescape(Piece(stream, sizes, row * |l.columns| + column));
      piece == Packed(Chunk(l, row, column)) && ParsesAs(l, row, column, Unpack(piece), initType)
  {
    hide Packed, Unpack, TileBits, Chunks, Concat, TileAt, Good, Sum, Marked, Escape, Unescape, EscapedSizes, SliceAt,
         Repeat, ParsesAs;
    var k, all := row * |l.columns| + column, Chunks(l, |l.rows|, 0);
    ChunkIndex(l, row, column);
    ChunksAreMarked(l, |l.rows|, 0);
    EscapedCut(all, k);
    CutAlike(sizes, EscapedSizes(all), k);
    EscapedIsReversibleAndSafe(Packed(all[k]));
    ChunkParses(l, row, column, initType);
  }

  lemma ChunkParses(l: Layout, row: nat, column: nat, initType: nat)
    requires Good(l) && row < |l.rows| && column < |l.columns|
    ensures ParsesAs(l, row, column, Unpack(Packed(Chunk(l, row, column))), initType)
  {
    hide Packed, Unpack, TileBits, TileAt, Good, ParsesAs, Repeat;
    var code := TileBits(TileAt(l, row, column), EndsSlice(l, row, column));
    var bits := Unpack(Packed(Chunk(l, row, column)));
    UnpackPrefix(Chunk(l, row, column), Packed(Chunk(l, row, column)));
    assert code <= Chunk(l, row, column);
    assert bits == code + bits[|code|..];
    TileThenTail(l, row, column, bits[|code|..], initType);
  }

  lemma CutAlike(sizes: seq<nat>, recorded: seq<nat>, k: nat)
    requires k < |recorded| <= |sizes| && sizes[..|recorded|] == recorded
    ensures sizes[..k] == recorded[..k] && sizes[..k + 1] == recorded[..k + 1]
  {
    assert sizes[..k] == sizes[..|recorded|][..k] && sizes[..k + 1] == sizes[..|recorded|][..k + 1];
  }

  // ---- Slices ----

  /** The tiles of the first `row` rows and the first `column` tiles of the next one, in raster order. */
  function Tiles(l: Layout, row: nat, column: nat): seq<Tile>
    requires Good(l) && row <= |l.rows| && column <= |l.columns| && (row == |l.rows| ==> column == 0)
    decreases row, column
  {
    if column > 0 then Tiles(l, row, column - 1) + [TileAt(l, row, column - 1)]
    else if row > 0 then Tiles(l, row - 1, |l.columns|)
    else []
  }

  lemma {:induction false} TilesGrow(l: Layout, r1: nat, c1: nat, r2: nat, c2: nat)
    requires Good(l) && r2 <= |l.rows| && c1 <= |l.columns| && c2 <= |l.columns|
    requires (r1 == |l.rows| ==> c1 == 0) && (r2 == |l.rows| ==> c2 == 0)
    requires r1 < r2 || (r1 == r2 && c1 <= c2)
    ensures Tiles(l, r1, c1) <= Tiles(l, r2, c2)
    decreases r2, c2
  {
    hide Good, TileAt;
    if r1 == r2 && c1 == c2 {
    } else if c2 > 0 {
      TilesGrow(l, r1, c1, r2, c2 - 1);
    } else {
      TilesGrow(l, r1, c1, r2 - 1, |l.columns|);
    }
  }

  lemma {:induction false} TilesCount(l: Layout, row: nat, column: nat)
    requires Good(l) && row <= |l.rows| && column <= |l.columns| && (row == |l.rows| ==> column == 0)
    ensures |Tiles(l, row, column)| == row * |l.columns| + column
    decreases row, column
  {
    hide Good, TileAt;
    if column > 0 {
      TilesCount(l, row, column - 1);
    } else if row > 0 {
      TilesCount(l, row - 1, |l.columns|);
      assert (row - 1) * |l.columns| + |l.columns| == row * |l.columns|;
    }
  }

  datatype SliceParse = Astray | Stopped(tiles: nat, end: nat)

  /** slice_segment_data( ), section 7.3.8.1, over the bytes from `at` on: from tile `n` to the next one, each of
      which starts at a byte, until end_of_slice_segment_flag is 1. */
  function ParseSlice(tiles: seq<Tile>, n: nat, data: seq<uint8>, at: nat, initType: nat): SliceParse
    decreases |tiles| - n
  {
    if n >= |tiles| || tiles[n].w == 0 || tiles[n].h == 0 || at > |data| then Astray
    else
      var bits := Unpack(data[at..]);
      var start := StartDecoder(bits, HevcParser.InitialContexts(initType, 26));
      match HevcParser.ParseTile(tiles[n], 0, 0, start, [], bits)
      case Broken => Astray
      case Finished(_, end_of_slice_segment_flag, pos) =>
        var next := at + (pos + 7) / 8;
        if end_of_slice_segment_flag then Stopped(1, next)
        else OneMore(ParseSlice(tiles, n + 1, data, next, initType))
  }

  function OneMore(p: SliceParse): SliceParse
  {
    match p case Astray => Astray case Stopped(tiles, end) => Stopped(tiles + 1, end)
  }

  /** The tiles that the standard reads: see HevcParser.ParserReadsTileIff. */
  predicate Readable(t: Tile) { Lcu(t) <= t.w && Lcu(t) <= t.h && t.log2 > 0 }

  predicate AllReadable(tiles: seq<Tile>) { forall t :: t in tiles ==> Readable(t) }

  /** Where the tile at this place starts, in bytes. */
  function Offset(l: Layout, row: nat, column: nat): nat
    requires Good(l) && row <= |l.rows| && column <= |l.columns| && (row == |l.rows| ==> column == 0)
  {
    |Concat(Chunks(l, row, column))| / 8
  }

  /** A tile takes up whole bytes. */
  lemma ChunkEnds(l: Layout, row: nat, column: nat)
    requires Good(l) && row < |l.rows| && column < |l.columns|
    ensures Offset(l, row, column + 1)
         == Offset(l, row, column) + (|TileBits(TileAt(l, row, column), EndsSlice(l, row, column))| + 7) / 8
  {
    hide Good, Concat, Chunks, TileAt, EndsSlice, TileBits, Marked;
    LastChunk(l, row, column + 1);
    ChunksAreMarked(l, row, column);
    ConcatIsMarked(Chunks(l, row, column));
  }

  lemma TileInOrder(l: Layout, row: nat, column: nat)
    requires Good(l) && row < |l.rows| && column < |l.columns|
    ensures var n, all := |Tiles(l, row, column)|, Tiles(l, |l.rows|, 0);
      n < |all| && all[n] == TileAt(l, row, column) && |Tiles(l, row, column + 1)| == n + 1
  {
    hide Good, TileAt;
    TilesGrow(l, row, column + 1, |l.rows|, 0);
  }

  /** One tile of a slice. */
  lemma ParsesOneTile(l: Layout, row: nat, column: nat, data: seq<uint8>, initType: nat)
    requires Good(l) && row < |l.rows| && column < |l.columns| && Stored(l, data)
    ensures var n, all := |Tiles(l, row, column)|, Tiles(l, |l.rows|, 0);
      ParseSlice(all, n, data, Offset(l, row, column), initType)
      == if !Readable(TileAt(l, row, column)) then Astray
         else if EndsSlice(l, row, column) then Stopped(1, Offset(l, row, column + 1))
         else OneMore(ParseSlice(all, n + 1, data, Offset(l, row, column + 1), initType))
  {
    hide Good, Chunks, Tiles, TileBits, Unpack, Stored, EndsSlice, LeavesFrom, HevcParser.ParseTile, TileAt, Concat,
         HevcParser.InitialContexts, PrefixVal, OneMore;
    TileInOrder(l, row, column);
    ChunkEnds(l, row, column);
    TileParses(l, row, column, data, initType);
  }

  /** The row of tiles that a slice starting in this one ends with. */
  function LastRow(l: Layout, row: nat): nat { if l.sliceSplit || |l.rows| == 0 then row else |l.rows| - 1 }

  /** From a tile to the end of its slice. */
  lemma {:induction false} ParsesSliceFrom(l: Layout, row: nat, column: nat, data: seq<uint8>, initType: nat)
    requires Good(l) && row < |l.rows| && column < |l.columns| && Stored(l, data)
    ensures var n, all, last := |Tiles(l, row, column)|, Tiles(l, |l.rows|, 0), LastRow(l, row);
      var end := |Tiles(l, last + 1, 0)|;
      n < end <= |all| && ParseSlice(all, n, data, Offset(l, row, column), initType)
      == if AllReadable(all[n..end]) then Stopped(end - n, Offset(l, last + 1, 0)) else Astray
    decreases |l.rows| - row, |l.columns| - column
  {
    hide Good, Stored, ParseSlice, Readable, AllReadable, TileAt, Offset, EndsSlice, Tiles;
    var n, all, last := |Tiles(l, row, column)|, Tiles(l, |l.rows|, 0), LastRow(l, row);
    var end := |Tiles(l, last + 1, 0)|;
    TilesGrow(l, last + 1, 0, |l.rows|, 0);
    TilesGrow(l, row, column + 1, last + 1, 0);
    TileInOrder(l, row, column);
    ParsesOneTile(l, row, column, data, initType);
    EndsSliceIff(l, row, column);
    ReadableFrom(all, n, end);
    if column + 1 < |l.columns| {
      ParsesSliceFrom(l, row, column + 1, data, initType);
    } else {
      RowEnds(l, row);
      if row < last {
        ParsesSliceFrom(l, row + 1, 0, data, initType);
      }
    }
  }

  lemma ReadableFrom(all: seq<Tile>, n: nat, end: nat)
    requires n < end <= |all|
    ensures AllReadable(all[n..end]) <==> Readable(all[n]) && AllReadable(all[n + 1..end])
    ensures n + 1 == end ==> AllReadable(all[n + 1..end])
  {
    hide Readable;
    assert all[n..end] == [all[n]] + all[n + 1..end];
    ReadableCons(all[n], all[n + 1..end]);
  }

  lemma ReadableCons(t: Tile, tiles: seq<Tile>)
    ensures AllReadable([t] + tiles) <==> Readable(t) && AllReadable(tiles)
  {
    hide Readable;
    assert t in [t] + tiles;
    assert forall u :: u in tiles ==> u in [t] + tiles;
  }

  lemma EndsSliceIff(l: Layout, row: nat, column: nat)
    requires row < |l.rows| && column < |l.columns|
    ensures EndsSlice(l, row, column) <==> column + 1 == |l.columns| && row == LastRow(l, row)
  {
  }

  lemma RowEnds(l: Layout, row: nat)
    requires Good(l) && row < |l.rows|
    ensures Tiles(l, row, |l.columns|) == Tiles(l, row + 1, 0) && Offset(l, row, |l.columns|) == Offset(l, row + 1, 0)
  {
    hide Good, Concat;
    RowDone(l, row);
    assert Tiles(l, row + 1, 0) == Tiles(l, row, |l.columns|);
  }

  /** Tiles in the slices before number `k`, as recorded. */
  function TilesBefore(slices: seq<SkippedSlice>, k: nat): nat
    requires k <= |slices|
  {
    if k == 0 then 0 else TilesBefore(slices, k - 1) + slices[k - 1].uNumTiles
  }

  lemma {:induction false} RecordedTilesBefore(l: Layout, slices: seq<SkippedSlice>, k: nat)
    requires Good(l) && l.sliceSplit && k <= |l.rows| <= |slices|
    requires forall i: nat :: i < k ==> slices[i].uNumTiles == |l.columns|
    ensures TilesBefore(slices, k) == |Tiles(l, k, 0)|
  {
    hide Good;
    if k > 0 {
      RecordedTilesBefore(l, slices, k - 1);
      TilesCount(l, k - 1, |l.columns|);
      TilesCount(l, k - 1, 0);
    }
  }

  /** What the record of a slice says about its tiles and bytes. */
  lemma RecordOf(l: Layout, k: nat, sizes: seq<nat>, iNumSlices: nat, slices: seq<SkippedSlice>)
    requires Good(l) && Recorded(l, sizes, iNumSlices, slices) && k < iNumSlices
    ensures var row := if l.sliceSplit then k else 0;
      var last := LastRow(l, row);
      && last < |l.rows| && TilesBefore(slices, k) == |Tiles(l, row, 0)|
      && TilesBefore(slices, k) + slices[k].uNumTiles == |Tiles(l, last + 1, 0)|
      && slices[k].uOffset == Offset(l, row, 0)
      && slices[k].uOffset + slices[k].uSize == Offset(l, last + 1, 0)
  {
    hide Good, Concat, Chunks, Tiles, EscapedSizes, TilesBefore, Offset;
    if l.sliceSplit {
      forall i: nat | i <= k ensures slices[i].uNumTiles == |l.columns| {
        assert slices[i] == SliceAt(l, i);
      }
      RecordedTilesBefore(l, slices, k);
      RowOffsets(l, k);
      TilesInRow(l, k);
    } else {
      RowOffsets(l, 0);
      NoTilesYet(l);
      TilesCount(l, |l.rows|, 0);
    }
  }

  lemma NoTilesYet(l: Layout)
    requires Good(l)
    ensures Tiles(l, 0, 0) == [] && forall slices :: TilesBefore(slices, 0) == 0
  {
  }

  lemma TilesInRow(l: Layout, row: nat)
    requires Good(l) && row < |l.rows|
    ensures |Tiles(l, row + 1, 0)| == |Tiles(l, row, 0)| + |l.columns|
  {
    hide Good, Tiles;
    TilesCount(l, row, 0);
    TilesCount(l, row + 1, 0);
    Distribute(|l.columns|, row);
  }

  /** Where slices start and end, in bytes. */
  lemma RowOffsets(l: Layout, row: nat)
    requires Good(l) && row < |l.rows|
    ensures Offset(l, 0, 0) == 0
    ensures l.sliceSplit ==> SliceAt(l, row).uOffset == Offset(l, row, 0)
                             && SliceAt(l, row).uOffset + SliceAt(l, row).uSize == Offset(l, row + 1, 0)
    ensures !l.sliceSplit ==> SliceAt(l, 0).uOffset == 0 && SliceAt(l, 0).uSize == Offset(l, |l.rows|, 0)
  {
    hide Good, Concat, Chunks;
    RowsAligned(l, 0);
    RowsAligned(l, row);
    RowsAligned(l, row + 1);
  }

  /** The parser of the standard, started at the first byte of a slice with the first tile that the slices before it
      have left, goes on for exactly as many tiles as are recorded and stops with the last byte of the slice; or it
      goes astray, if and only if one of these tiles is not one that the standard reads. */
  ghost predicate SliceReads(l: Layout, k: nat, slices: seq<SkippedSlice>, data: seq<uint8>, initType: nat)
    requires Good(l) && k < |slices|
  {
    var first, slice, all := TilesBefore(slices, k), slices[k], Tiles(l, |l.rows|, 0);
    && 0 < slice.uNumTiles && first + slice.uNumTiles <= |all|
    && ParseSlice(all, first, data, slice.uOffset, initType)
       == if AllReadable(all[first..first + slice.uNumTiles])
          then Stopped(slice.uNumTiles, slice.uOffset + slice.uSize) else Astray
  }

  /** Every slice reads so, from the records and the bytes alone. */
  lemma SliceParses(l: Layout, k: nat, sizes: seq<nat>, iNumSlices: nat, slices: seq<SkippedSlice>, data: seq<uint8>,
                    initType: nat)
    requires Good(l) && l.columns != [] && Recorded(l, sizes, iNumSlices, slices) && Stored(l, data)
    requires k < iNumSlices
    ensures SliceReads(l, k, slices, data, initType)
  {
    hide Good, Recorded, Stored, Tiles, Offset, ParseSlice, AllReadable;
    RecordOf(l, k, sizes, iNumSlices, slices);
    ParsesSliceFrom(l, if l.sliceSplit then k else 0, 0, data, initType);
  }

  lemma SlicesRead(l: Layout, sizes: seq<nat>, iNumSlices: nat, slices: seq<SkippedSlice>, data: seq<uint8>)
    requires Good(l) && Recorded(l, sizes, iNumSlices, slices) && Stored(l, data)
    ensures iNumSlices <= |slices|
    ensures l.columns != [] ==>
              forall k: nat, initType: nat :: k < iNumSlices ==> SliceReads(l, k, slices, data, initType)
  {
    hide Good, Stored, SliceReads;
    if l.columns != [] {
      forall k: nat, initType: nat | k < iNumSlices ensures SliceReads(l, k, slices, data, initType) {
        SliceParses(l, k, sizes, iNumSlices, slices, data, initType);
      }
    }
  }

  /** Every tile belongs to a slice. */
  lemma SlicesHaveAllTiles(l: Layout, sizes: seq<nat>, iNumSlices: nat, slices: seq<SkippedSlice>)
    requires Good(l) && Recorded(l, sizes, iNumSlices, slices)
    ensures TilesBefore(slices, iNumSlices) == |Tiles(l, |l.rows|, 0)|
  {
    hide Good, Recorded, Tiles;
    if l.rows == [] {
      TilesCount(l, 0, 0);
      assert iNumSlices == 0 by { NoSlices(l, sizes, iNumSlices, slices); }
    } else {
      assert iNumSlices == SliceCount(l) by { NoSlices(l, sizes, iNumSlices, slices); }
      RecordOf(l, iNumSlices - 1, sizes, iNumSlices, slices);
    }
  }

  lemma NoSlices(l: Layout, sizes: seq<nat>, iNumSlices: nat, slices: seq<SkippedSlice>)
    requires Good(l) && Recorded(l, sizes, iNumSlices, slices)
    ensures iNumSlices == SliceCount(l)
  {
  }
}
