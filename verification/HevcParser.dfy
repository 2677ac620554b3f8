/** The slice data parser of ITU-T H.265 on the code of a skipped tile.

    It is given the bits, the size of the tile and the initial context variables, nothing else: what it asks for
    next follows from the coding units it has read so far (sections 7.3.8.1, 7.3.8.4, 7.3.8.5 and 9.3.4.2.2). */
module HevcParser {
  import opened Bits
  import opened CabacTables
  import CabacStandard
  import opened CabacCoder
  import opened CabacReader
  import opened Quadtree
  import HevcTile

  // Every leaf below is a coding unit already read; section 6.4.1 makes exactly those available, and all of
  // them are skipped.

  predicate Available(cus: seq<Leaf>, px: nat, py: nat)
  {
    exists cu <- cus :: Covers(cu, px, py)
  }

  /** The coding unit at this place is deeper in its quadtree than one of side 2^k. */
  predicate Deeper(cus: seq<Leaf>, px: nat, py: nat, k: nat)
  {
    exists cu <- cus :: Covers(cu, px, py) && cu.log2 < k
  }

  function SplitFlagContext(cus: seq<Leaf>, x: nat, y: nat, k: nat): nat
  {
    SplitContext((if x > 0 && Deeper(cus, x - 1, y, k) then 1 else 0)
                 + (if y > 0 && Deeper(cus, x, y - 1, k) then 1 else 0))
  }

  function SkipFlagContext(cus: seq<Leaf>, x: nat, y: nat): nat
  {
    CU_SKIP_FLAG + (if x > 0 && Available(cus, x - 1, y) then 1 else 0)
    + (if y > 0 && Available(cus, x, y - 1) then 1 else 0)
  }

  /** `Other` is what this parser does not follow: a coding unit that is not skipped or merges with another than
      the first candidate. */
  datatype Parsed = Other | Parsed(d: Decoder, cus: seq<Leaf>)

  /** The seven context variables: five of the encoder, and those that a deeper neighbour would select. */
  predicate Ready(d: Decoder) { d.range >= 256 && |d.ctxs| == 7 }

  /** initValue of these context variables for initType 1 and 2, the types of P and B slices. */
  function InitValue(initType: nat, i: nat): (v: nat)
    ensures v < 256
  {
    match i
    case 0 => 107                                  // split_cu_flag, no deeper neighbour
    case 1 => 197 case 2 => 185 case 3 => 201      // cu_skip_flag
    case 4 => if initType == 1 then 122 else 137   // merge_idx
    case 5 => 139 case _ => 126                    // split_cu_flag, one deeper neighbour and two
  }

  /** Section 9.3.2.2: the context variables at the start of a tile in a slice of this quantiser. */
  function InitialContexts(initType: nat, sliceQp: int): (r: seq<Context>)
    ensures |r| == 7
  {
    seq(7, i requires 0 <= i < 7 =>
      var (pStateIdx, valMps) := CabacStandard.InitialisedBy(InitValue(initType, i), sliceQp);
      Context(pStateIdx, valMps))
  }

  /** The encoder's fixed states are those of the standard if and only if the quantiser of the slice is 26. */
  lemma StartsAsStandardIff(initType: nat, sliceQp: int)
    ensures HevcTile.TileContexts() == InitialContexts(initType, sliceQp)[..5] <==> sliceQp == 26
  {
    var tile, start := HevcTile.TileContexts(), InitialContexts(initType, sliceQp);
    assert tile == [Context(16, 0), Context(15, 0), Context(8, 1), Context(16, 1), Context(16, 0)];
    if sliceQp == 26 {
      assert start[..5] == tile;
    } else {
      SkipContextAt(initType, sliceQp);
      assert start[..5][1] == start[1];
    }
  }

  lemma SkipContextAt(initType: nat, sliceQp: int)
    ensures InitialContexts(initType, sliceQp)[1] == Context(15, 0) ==> sliceQp == 26
  {
  }

  /** coding_unit( ) */
  function ParseCu(x: nat, y: nat, k: nat, d: Decoder, cus: seq<Leaf>, bits: seq<bit>): (r: Parsed)
    requires Ready(d)
    ensures r.Parsed? ==> Ready(r.d)
  {
    DecodedInRange(d, SkipFlagContext(cus, x, y), bits);
    var (cu_skip_flag, d1) := DecodeDecision(d, SkipFlagContext(cus, x, y), bits);
    if cu_skip_flag == 0 then Other
    else
      DecodedInRange(d1, MERGE_IDX, bits);
      var (merge_idx, d2) := DecodeDecision(d1, MERGE_IDX, bits);
      if merge_idx == 1 then Other else Parsed(d2, cus + [Leaf(x, y, k)])
  }

  /** coding_quadtree( ) */
  function ParseQuadtree(t: Tile, x: nat, y: nat, k: nat, d: Decoder, cus: seq<Leaf>, bits: seq<bit>): (r: Parsed)
    requires Ready(d)
    ensures r.Parsed? ==> Ready(r.d)
    decreases k, 1
  {
    if k == 0 then ParseCu(x, y, k, d, cus, bits)
    else if !Whole(t, x, y, k) then ParseParts(t, x, y, k, d, cus, bits)
    else
      DecodedInRange(d, SplitFlagContext(cus, x, y, k), bits);
      var (split_cu_flag, d') := DecodeDecision(d, SplitFlagContext(cus, x, y, k), bits);
      if split_cu_flag == 1 then ParseParts(t, x, y, k, d', cus, bits) else ParseCu(x, y, k, d', cus, bits)
  }

  function ParseParts(t: Tile, x: nat, y: nat, k: nat, d: Decoder, cus: seq<Leaf>, bits: seq<bit>): (r: Parsed)
    requires Ready(d) && k > 0
    ensures r.Parsed? ==> Ready(r.d)
    decreases k, 0
  {
    var m := Pow2(k - 1);
    var a := ParseQuadtree(t, x, y, k - 1, d, cus, bits);
    if a.Other? then Other else
    var b := if x + m < t.w then ParseQuadtree(t, x + m, y, k - 1, a.d, a.cus, bits) else a;
    if b.Other? then Other else
    var c := if y + m < t.h then ParseQuadtree(t, x, y + m, k - 1, b.d, b.cus, bits) else b;
    if c.Other? then Other else
    if x + m < t.w && y + m < t.h then ParseQuadtree(t, x + m, y + m, k - 1, c.d, c.cus, bits) else c
  }

  datatype TileData = Broken | Finished(cus: seq<Leaf>, endOfSlice: bool, pos: nat)

  /** slice_segment_data( ) up to the end of the slice segment or of the tile. */
  function ParseTile(t: Tile, x: nat, y: nat, d: Decoder, cus: seq<Leaf>, bits: seq<bit>): TileData
    requires Ready(d) && x < t.w && y < t.h
    decreases t.h - y, t.w - x
  {
    var ctu := ParseQuadtree(t, x, y, t.log2, d, cus, bits);
    if ctu.Other? then Broken
    else
      RenormDKeeps(ctu.d.(range := ctu.d.range - 2), bits);
      var (end_of_slice_segment_flag, d1) := DecodeTerminate(ctu.d, bits);
      if end_of_slice_segment_flag == 1 then Finished(ctu.cus, true, d1.pos)
      else if x + Lcu(t) < t.w then ParseTile(t, x + Lcu(t), y, d1, ctu.cus, bits)
      else if y + Lcu(t) < t.h then ParseTile(t, 0, y + Lcu(t), d1, ctu.cus, bits)
      else
        var (end_of_subset_one_bit, d2) := DecodeTerminate(d1, bits);
        if end_of_subset_one_bit == 1 then Finished(ctu.cus, false, d2.pos) else Broken
  }

  // ---- What it has read tells it the contexts of the standard ----

  /** Each coding unit has the size that the geometry of the tile gives to all its places. */
  ghost predicate Sized(t: Tile, cus: seq<Leaf>)
  {
    forall cu, px: nat, py: nat ::
      cu in cus && Covers(cu, px, py) && px < t.w && py < t.h ==> SizeAt(t, px, py) == cu.log2
  }

  /** The places left of and above a block have been read. */
  ghost predicate Surrounded(t: Tile, x: nat, y: nat, k: nat, cus: seq<Leaf>)
  {
    forall px: nat, py: nat ::
      px < t.w && py < t.h
      && ((px + 1 == x && y <= py < y + Pow2(k)) || (py + 1 == y && x <= px < x + Pow2(k)))
      ==> Available(cus, px, py)
  }

  lemma SameContexts(t: Tile, x: nat, y: nat, k: nat, cus: seq<Leaf>)
    requires x < t.w && y < t.h && Sized(t, cus) && Surrounded(t, x, y, k, cus)
    ensures Cu(Standard, t, Leaf(x, y, k))
         == (if k > 0 then [Decision(SplitFlagContext(cus, x, y, k), 0)] else [])
            + [Decision(SkipFlagContext(cus, x, y), 1), Decision(MERGE_IDX, 0)]
  {
    hide SizeAt;
    Pow2Values();
    if x > 0 { SameDepth(t, x - 1, y, k, cus); }
    if y > 0 { SameDepth(t, x, y - 1, k, cus); }
  }

  lemma SameDepth(t: Tile, px: nat, py: nat, k: nat, cus: seq<Leaf>)
    requires px < t.w && py < t.h && Sized(t, cus) && Available(cus, px, py)
    ensures Deeper(cus, px, py, k) <==> SizeAt(t, px, py) < k
  {
    hide SizeAt, Covers;
    var cu :| cu in cus && Covers(cu, px, py);
  }

  // ---- One block ----

  lemma ParsesCu(t: Tile, x: nat, y: nat, k: nat, d: Decoder, cus: seq<Leaf>, bits: seq<bit>)
    requires x < t.w && y < t.h && Sized(t, cus) && Surrounded(t, x, y, k, cus) && Ready(d)
    requires k == 0 || Whole(t, x, y, k)
    requires ReadOps(d, Cu(Standard, t, Leaf(x, y, k)), bits).At?
    ensures ParseQuadtree(t, x, y, k, d, cus, bits)
         == Parsed(ReadOps(d, Cu(Standard, t, Leaf(x, y, k)), bits).d, cus + [Leaf(x, y, k)])
  {
    hide DecodeDecision, Cu, SplitFlagContext, SkipFlagContext, Surrounded, Sized, Whole;
    SameContexts(t, x, y, k, cus);
    var skip, merge := Decision(SkipFlagContext(cus, x, y), 1), Decision(MERGE_IDX, 0);
    if k == 0 {
      assert Cu(Standard, t, Leaf(x, y, k)) == [skip, merge];
      ReadTwo(d, skip, merge, bits);
    } else {
      var split := Decision(SplitFlagContext(cus, x, y, k), 0);
      assert Cu(Standard, t, Leaf(x, y, k)) == [split] + [skip, merge];
      ReadAppend(d, [split], [skip, merge], bits);
      ReadOne(d, split, bits);
      ReadTwo(ReadOp(d, split, bits).d, skip, merge, bits);
    }
  }

  lemma ReadTwo(d: Decoder, a: Op, b: Op, bits: seq<bit>)
    ensures ReadOps(d, [a, b], bits)
         == if ReadOp(d, a, bits).Differs? then Differs else ReadOp(ReadOp(d, a, bits).d, b, bits)
  {
    assert [a, b][1..] == [b];
    if ReadOp(d, a, bits).At? {
      ReadOne(ReadOp(d, a, bits).d, b, bits);
    }
  }

  lemma AvailableIn(cus: seq<Leaf>, more: seq<Leaf>, px: nat, py: nat)
    requires Available(cus, px, py) || Available(more, px, py)
    ensures Available(cus + more, px, py)
  {
    var cu :| (cu in cus || cu in more) && Covers(cu, px, py);
    assert cu in cus + more;
  }

  lemma {:induction false} CountedIsAvailable(cus: seq<Leaf>, px: nat, py: nat)
    requires CoverCount(cus, px, py) > 0
    ensures Available(cus, px, py)
  {
    if Covers(cus[0], px, py) {
      assert cus[0] in cus;
    } else {
      CountedIsAvailable(cus[1..], px, py);
      assert cus == [cus[0]] + cus[1..];
      AvailableIn([cus[0]], cus[1..], px, py);
    }
  }

  lemma BlockAvailable(t: Tile, x: nat, y: nat, k: nat, px: nat, py: nat)
    requires x < t.w && y < t.h && x <= px < x + Pow2(k) && y <= py < y + Pow2(k) && px < t.w && py < t.h
    ensures Available(Leaves(t, x, y, k), px, py)
  {
    LeavesCoverBlock(t, x, y, k, px, py);
    CountedIsAvailable(Leaves(t, x, y, k), px, py);
  }

  /** The four parts of a block, read in order, find their surroundings read. */
  lemma PartsSurrounded(t: Tile, x: nat, y: nat, k: nat, cus: seq<Leaf>,
                        a: seq<Leaf>, b: seq<Leaf>, c: seq<Leaf>)
    requires x < t.w && y < t.h && k > 0 && Surrounded(t, x, y, k, cus)
    requires var m := Pow2(k - 1);
      && a == Leaves(t, x, y, k - 1)
      && (x + m < t.w ==> b == Leaves(t, x + m, y, k - 1))
      && (y + m < t.h ==> c == Leaves(t, x, y + m, k - 1))
    ensures var m := Pow2(k - 1);
      && Surrounded(t, x, y, k - 1, cus)
      && (x + m < t.w ==> Surrounded(t, x + m, y, k - 1, cus + a))
      && (y + m < t.h ==> Surrounded(t, x, y + m, k - 1, cus + a + b))
      && (x + m < t.w && y + m < t.h ==> Surrounded(t, x + m, y + m, k - 1, cus + a + b + c))
  {
    hide Leaves, Available;
    var m := Pow2(k - 1);
    assert Pow2(k) == 2 * m;
    if x + m < t.w {
      forall px: nat, py: nat | px < t.w && py < t.h ensures
          (px + 1 == x + m && y <= py < y + m) || (py + 1 == y && x + m <= px < x + m + m)
          ==> Available(cus + a, px, py)
      {
        if px + 1 == x + m && y <= py < y + m {
          BlockAvailable(t, x, y, k - 1, px, py);
          AvailableIn(cus, a, px, py);
        } else if py + 1 == y && x + m <= px < x + m + m {
          AvailableIn(cus, a, px, py);
        }
      }
    }
    if y + m < t.h {
      forall px: nat, py: nat | px < t.w && py < t.h ensures
          (px + 1 == x && y + m <= py < y + m + m) || (py + 1 == y + m && x <= px < x + m)
          ==> Available(cus + a + b, px, py)
      {
        if px + 1 == x && y + m <= py < y + m + m {
          AvailableIn(cus, a, px, py);
          AvailableIn(cus + a, b, px, py);
        } else if py + 1 == y + m && x <= px < x + m {
          BlockAvailable(t, x, y, k - 1, px, py);
          AvailableIn(cus, a, px, py);
          AvailableIn(cus + a, b, px, py);
        }
      }
    }
    if x + m < t.w && y + m < t.h {
      forall px: nat, py: nat | px < t.w && py < t.h ensures
          (px + 1 == x + m && y + m <= py < y + m + m) || (py + 1 == y + m && x + m <= px < x + m + m)
          ==> Available(cus + a + b + c, px, py)
      {
        if px + 1 == x + m && y + m <= py < y + m + m {
          BlockAvailable(t, x, y + m, k - 1, px, py);
          AvailableIn(cus + a + b, c, px, py);
        } else if py + 1 == y + m && x + m <= px < x + m + m {
          BlockAvailable(t, x + m, y, k - 1, px, py);
          AvailableIn(cus + a, b, px, py);
          AvailableIn(cus + a + b, c, px, py);
        }
      }
    }
  }

  lemma SizedAppend(t: Tile, a: seq<Leaf>, b: seq<Leaf>)
    ensures Sized(t, a + b) <==> Sized(t, a) && Sized(t, b)
  {
    hide SizeAt;
    if Sized(t, a + b) {
      forall cu, px: nat, py: nat | (cu in a || cu in b) && Covers(cu, px, py) && px < t.w && py < t.h
        ensures SizeAt(t, px, py) == cu.log2
      {
        assert cu in a + b;
      }
    }
  }

  /** Reading the coding units of four parts is reading those of each in turn. */
  lemma ReadParts(t: Tile, d: Decoder, a: seq<Leaf>, b: seq<Leaf>, c: seq<Leaf>, e: seq<Leaf>, bits: seq<bit>)
    returns (da: Decoder, db: Decoder, dc: Decoder)
    requires ReadOps(d, Cus(Standard, t, a + b + c + e), bits).At?
    ensures At(da) == ReadOps(d, Cus(Standard, t, a), bits)
    ensures At(db) == ReadOps(da, Cus(Standard, t, b), bits)
    ensures At(dc) == ReadOps(db, Cus(Standard, t, c), bits)
    ensures ReadOps(dc, Cus(Standard, t, e), bits) == ReadOps(d, Cus(Standard, t, a + b + c + e), bits)
  {
    hide ReadOps, Cus;
    CusAppend(Standard, t, a, b);
    CusAppend(Standard, t, a + b, c);
    CusAppend(Standard, t, a + b + c, e);
    ReadAppend(d, Cus(Standard, t, a + b + c), Cus(Standard, t, e), bits);
    ReadAppend(d, Cus(Standard, t, a + b), Cus(Standard, t, c), bits);
    ReadAppend(d, Cus(Standard, t, a), Cus(Standard, t, b), bits);
    da := ReadOps(d, Cus(Standard, t, a), bits).d;
    db := ReadOps(da, Cus(Standard, t, b), bits).d;
    dc := ReadOps(db, Cus(Standard, t, c), bits).d;
  }

  /** Over the standard's code of a block the parser finds the coding units of the block. */
  lemma {:induction false} ParsesBlock(t: Tile, x: nat, y: nat, k: nat, d: Decoder, cus: seq<Leaf>, bits: seq<bit>)
    requires x < t.w && y < t.h && Ready(d)
    requires Sized(t, cus) && Sized(t, Leaves(t, x, y, k)) && Surrounded(t, x, y, k, cus)
    requires ReadOps(d, Cus(Standard, t, Leaves(t, x, y, k)), bits).At?
    ensures ParseQuadtree(t, x, y, k, d, cus, bits)
         == Parsed(ReadOps(d, Cus(Standard, t, Leaves(t, x, y, k)), bits).d, cus + Leaves(t, x, y, k))
    decreases k
  {
    hide Leaves, Cus, Cu, Surrounded, Sized, Whole, ReadOps, ParseCu, SplitFlagContext, DecodeDecision;
    if k == 0 || Whole(t, x, y, k) {
      LeavesUnsplit(t, x, y, k);
      CusOne(Standard, t, Leaf(x, y, k));
      ParsesCu(t, x, y, k, d, cus, bits);
    } else {
      var m := Pow2(k - 1);
      var a, b, c, e := LeavesSplit(t, x, y, k);
      var da, db, dc := ReadParts(t, d, a, b, c, e, bits);
      PartsSurrounded(t, x, y, k, cus, a, b, c);
      SizedParts(t, cus, a, b, c, e);
      ParsesBlock(t, x, y, k - 1, d, cus, bits);
      if x + m < t.w { ParsesBlock(t, x + m, y, k - 1, da, cus + a, bits); } else { NoPart(t, da, cus + a, bits); }
      if y + m < t.h {
        ParsesBlock(t, x, y + m, k - 1, db, cus + a + b, bits);
      } else {
        NoPart(t, db, cus + a + b, bits);
      }
      if x + m < t.w && y + m < t.h {
        ParsesBlock(t, x + m, y + m, k - 1, dc, cus + a + b + c, bits);
      } else {
        NoPart(t, dc, cus + a + b + c, bits);
      }
      assert cus + a + b + c + e == cus + (a + b + c + e);
    }
  }

  lemma SizedParts(t: Tile, cus: seq<Leaf>, a: seq<Leaf>, b: seq<Leaf>, c: seq<Leaf>, e: seq<Leaf>)
    requires Sized(t, cus) && Sized(t, a + b + c + e)
    ensures Sized(t, a) && Sized(t, b) && Sized(t, c) && Sized(t, e)
    ensures Sized(t, cus + a) && Sized(t, cus + a + b) && Sized(t, cus + a + b + c)
  {
    hide Sized;
    SizedAppend(t, a + b + c, e);
    SizedAppend(t, a + b, c);
    SizedAppend(t, a, b);
    SizedAppend(t, cus, a);
    SizedAppend(t, cus + a, b);
    SizedAppend(t, cus + a + b, c);
  }

  lemma NoPart(t: Tile, d: Decoder, cus: seq<Leaf>, bits: seq<bit>)
    ensures ReadOps(d, Cus(Standard, t, []), bits) == At(d) && cus + [] == cus
  {
  }

  // ---- The tile ----

  /** Every place before the coding tree block at (x, y) has been read. */
  ghost predicate Behind(t: Tile, x: nat, y: nat, cus: seq<Leaf>)
  {
    forall px: nat, py: nat :: px < t.w && py < t.h && !Ahead(t, x, y, px, py) ==> Available(cus, px, py)
  }

  lemma BehindSurrounds(t: Tile, x: nat, y: nat, cus: seq<Leaf>)
    requires Behind(t, x, y, cus)
    ensures Surrounded(t, x, y, t.log2, cus)
  {
    hide Available;
  }

  lemma BehindNext(t: Tile, x: nat, y: nat, cus: seq<Leaf>)
    requires x < t.w && y < t.h && Behind(t, x, y, cus)
    ensures Behind(t, x + Lcu(t), y, cus + Leaves(t, x, y, t.log2))
    ensures t.w <= x + Lcu(t) ==> Behind(t, 0, y + Lcu(t), cus + Leaves(t, x, y, t.log2))
  {
    hide Available, Leaves, Pow2;
    var here := Leaves(t, x, y, t.log2);
    forall px: nat, py: nat
      | px < t.w && py < t.h
        && (!Ahead(t, x, y, px, py) || (x <= px < x + Lcu(t) && y <= py < y + Lcu(t)))
      ensures Available(cus + here, px, py)
    {
      if Ahead(t, x, y, px, py) {
        BlockAvailable(t, x, y, t.log2, px, py);
      }
      AvailableIn(cus, here, px, py);
    }
  }

  /** A coding unit has the size of every place that it covers. */
  lemma {:induction false} LeafSizes(t: Tile, x: nat, y: nat, k: nat, leaf: Leaf, px: nat, py: nat)
    requires x < t.w && y < t.h && leaf in Leaves(t, x, y, k) && Covers(leaf, px, py)
    ensures x <= px < x + Pow2(k) && y <= py < y + Pow2(k)
    ensures SizeIn(t, x, y, k, px, py) == leaf.log2
    decreases k
  {
    hide Pow2, Leaves;
    if k == 0 || Whole(t, x, y, k) {
      LeavesUnsplit(t, x, y, k);
    } else {
      var m := Pow2(k - 1);
      var a, b, c, d := LeavesSplit(t, x, y, k);
      if leaf in a {
        LeafSizes(t, x, y, k - 1, leaf, px, py);
      } else if leaf in b {
        LeafSizes(t, x + m, y, k - 1, leaf, px, py);
      } else if leaf in c {
        LeafSizes(t, x, y + m, k - 1, leaf, px, py);
      } else {
        LeafSizes(t, x + m, y + m, k - 1, leaf, px, py);
      }
    }
  }

  lemma LcuSized(t: Tile, x: nat, y: nat)
    requires x < t.w && y < t.h && LcuStart(x, Lcu(t)) == x && LcuStart(y, Lcu(t)) == y
    ensures Sized(t, Leaves(t, x, y, t.log2))
  {
    forall leaf, px: nat, py: nat | leaf in Leaves(t, x, y, t.log2) && Covers(leaf, px, py)
      ensures SizeAt(t, px, py) == leaf.log2
    {
      hide Leaves, Pow2, SizeIn, Covers;
      LeafSizes(t, x, y, t.log2, leaf, px, py);
      StartOfMultiple(x, Lcu(t), px);
      StartOfMultiple(y, Lcu(t), py);
    }
  }

  function ButLast(ops: seq<Op>): seq<Op>
    requires ops != []
  {
    ops[..|ops| - 1]
  }

  /** What is read of a tile before its last terminating bin, by coding tree blocks. */
  lemma TileBody(t: Tile, lastTile: bool, x: nat, y: nat)
    requires x < t.w && y < t.h
    ensures TileOpsFrom(Standard, t, lastTile, x, y) != []
    ensures
      var body := ButLast(TileOpsFrom(Standard, t, lastTile, x, y));
      var here := Cus(Standard, t, Leaves(t, x, y, t.log2));
      if x + Lcu(t) < t.w then
        && TileOpsFrom(Standard, t, lastTile, x + Lcu(t), y) != []
        && body == here + [Terminate(0)] + ButLast(TileOpsFrom(Standard, t, lastTile, x + Lcu(t), y))
      else if y + Lcu(t) < t.h then
        && TileOpsFrom(Standard, t, lastTile, 0, y + Lcu(t)) != []
        && body == here + [Terminate(0)] + ButLast(TileOpsFrom(Standard, t, lastTile, 0, y + Lcu(t)))
      else
        body == here + if lastTile then [] else [Terminate(0)]
  {
    hide Pow2, Cus, Leaves;
    TileEnds(Standard, t, lastTile, x, y);
    if x + Lcu(t) < t.w {
      TileEnds(Standard, t, lastTile, x + Lcu(t), y);
    } else if y + Lcu(t) < t.h {
      TileEnds(Standard, t, lastTile, 0, y + Lcu(t));
    }
  }

  /** Reading a block's coding units and what follows it. */
  lemma ParsesLcu(t: Tile, x: nat, y: nat, d: Decoder, cus: seq<Leaf>, bits: seq<bit>, rest: seq<Op>)
    returns (d': Decoder)
    requires x < t.w && y < t.h && LcuStart(x, Lcu(t)) == x && LcuStart(y, Lcu(t)) == y
    requires Ready(d) && Sized(t, cus) && Behind(t, x, y, cus)
    requires ReadOps(d, Cus(Standard, t, Leaves(t, x, y, t.log2)) + rest, bits).At?
    ensures var here := Leaves(t, x, y, t.log2);
      && ParseQuadtree(t, x, y, t.log2, d, cus, bits) == Parsed(d', cus + here)
      && ReadOps(d', rest, bits) == ReadOps(d, Cus(Standard, t, here) + rest, bits)
      && Sized(t, cus + here)
  {
    hide Leaves, Cus, Sized, Behind, ReadOps, ParseQuadtree, LcuStart, Surrounded;
    var here := Leaves(t, x, y, t.log2);
    ReadAppend(d, Cus(Standard, t, here), rest, bits);
    d' := ReadOps(d, Cus(Standard, t, here), bits).d;
    BehindSurrounds(t, x, y, cus);
    LcuSized(t, x, y);
    ParsesBlock(t, x, y, t.log2, d, cus, bits);
    SizedAppend(t, cus, here);
  }

  /** From a coding tree block to the end of the tile. */
  lemma {:induction false} ParsesTileFrom(t: Tile, lastTile: bool, x: nat, y: nat, d: Decoder, cus: seq<Leaf>,
                                          bits: seq<bit>)
    requires x < t.w && y < t.h && LcuStart(x, Lcu(t)) == x && LcuStart(y, Lcu(t)) == y
    requires Ready(d) && Sized(t, cus) && Behind(t, x, y, cus)
    requires TileOpsFrom(Standard, t, lastTile, x, y) != []
    requires var r := ReadOps(d, ButLast(TileOpsFrom(Standard, t, lastTile, x, y)), bits);
      r.At? && r.d.range >= 256 && DecodeTerminate(r.d, bits).0 == 1
    ensures var r := ReadOps(d, ButLast(TileOpsFrom(Standard, t, lastTile, x, y)), bits);
      ParseTile(t, x, y, d, cus, bits) == Finished(cus + LeavesFrom(t, x, y), lastTile, r.d.pos)
    decreases t.h - y, t.w - x
  {
    hide Leaves, Cus, Sized, Behind, ReadOps, ParseQuadtree, TileOpsFrom, LcuStart, Pow2, RenormD, ButLast;
    var here := Leaves(t, x, y, t.log2);
    TileBody(t, lastTile, x, y);
    BehindNext(t, x, y, cus);
    var stop := [Terminate(0)];
    if x + Lcu(t) < t.w {
      var rest := ButLast(TileOpsFrom(Standard, t, lastTile, x + Lcu(t), y));
      assert Cus(Standard, t, here) + stop + rest == Cus(Standard, t, here) + (stop + rest);
      var d' := ParsesLcu(t, x, y, d, cus, bits, stop + rest);
      ReadStop(d', rest, bits);
      StartOfMultiple(x, Lcu(t), x);
      ParsesTileFrom(t, lastTile, x + Lcu(t), y, ReadOp(d', stop[0], bits).d, cus + here, bits);
      assert cus + here + LeavesFrom(t, x + Lcu(t), y) == cus + (here + LeavesFrom(t, x + Lcu(t), y));
    } else if y + Lcu(t) < t.h {
      var rest := ButLast(TileOpsFrom(Standard, t, lastTile, 0, y + Lcu(t)));
      assert Cus(Standard, t, here) + stop + rest == Cus(Standard, t, here) + (stop + rest);
      var d' := ParsesLcu(t, x, y, d, cus, bits, stop + rest);
      ReadStop(d', rest, bits);
      StartOfMultiple(y, Lcu(t), y);
      LcuStartOfZero(Lcu(t));
      ParsesTileFrom(t, lastTile, 0, y + Lcu(t), ReadOp(d', stop[0], bits).d, cus + here, bits);
      assert cus + here + LeavesFrom(t, 0, y + Lcu(t)) == cus + (here + LeavesFrom(t, 0, y + Lcu(t)));
    } else {
      var rest := if lastTile then [] else stop;
      var d' := ParsesLcu(t, x, y, d, cus, bits, rest);
      assert LeavesFrom(t, x, y) == here;
      if lastTile { ReadNone(d', bits); } else { ReadOne(d', Terminate(0), bits); }
    }
  }

  lemma LcuStartOfZero(s: nat)
    requires s > 0
    ensures LcuStart(0, s) == 0
  {
  }

  lemma ReadNone(d: Decoder, bits: seq<bit>)
    ensures ReadOps(d, [], bits) == At(d)
  {
  }

  /** A terminating bin of 0 and the rest. */
  lemma ReadStop(d: Decoder, rest: seq<Op>, bits: seq<bit>)
    requires Ready(d) && ReadOps(d, [Terminate(0)] + rest, bits).At?
    ensures var r := ReadOp(d, Terminate(0), bits);
      && r.At? && Ready(r.d) && DecodeTerminate(d, bits) == (0, r.d)
      && ReadOps(r.d, rest, bits) == ReadOps(d, [Terminate(0)] + rest, bits)
  {
    ReadAppend(d, [Terminate(0)], rest, bits);
    ReadOne(d, Terminate(0), bits);
    RenormDKeeps(d.(range := d.range - 2), bits);
  }

  // ---- Context variables that the encoder does not have ----

  lemma {:induction false} RunWithMore(c: Coder, ops: seq<Op>, extra: seq<Context>)
    requires Normal(c) && Known(ops, |c.ctxs|)
    ensures Known(ops, |c.ctxs + extra|)
    ensures Run(c.(ctxs := c.ctxs + extra), ops) == Run(c, ops).(ctxs := Run(c, ops).ctxs + extra)
    decreases |ops|
  {
    if ops != [] {
      hide LpsRange, Adapt, Renorm;
      var c', op := c.(ctxs := c.ctxs + extra), ops[0];
      assert [op] == ops[..1] && [op][0] == op;
      assert Step(c', op).ctxs == Step(c, op).ctxs + extra;
      assert Step(c', op).at == Step(c, op).at;
      RunWithMore(Step(c, op), ops[1..], extra);
    }
  }

  lemma EncodeWithMore(ctxs: seq<Context>, ops: seq<Op>, extra: seq<Context>)
    requires Known(ops, |ctxs|)
    ensures Known(ops, |ctxs + extra|) && Encode(ctxs + extra, ops) == Encode(ctxs, ops)
  {
    RunWithMore(Start(ctxs), ops, extra);
  }

  // ---- Where the encoder departs from the standard ----

  /** The first coding unit of a tile is read by the same calls as a block of its size. */
  lemma {:induction false} FirstCuFails(t: Tile, k: nat, d: Decoder, bits: seq<bit>)
    requires Ready(d) && Leaves(t, 0, 0, k) != []
    requires ParseQuadtree(t, 0, 0, Leaves(t, 0, 0, k)[0].log2, d, [], bits).Other?
    ensures ParseQuadtree(t, 0, 0, k, d, [], bits).Other?
    decreases k
  {
    hide ParseCu, Whole;
    if k > 0 && !Whole(t, 0, 0, k) {
      FirstLeaf(t, 0, 0, k - 1);
      FirstCuFails(t, k - 1, d, bits);
    }
  }

  /** The data of a run lies in the interval that its first operations lead to. */
  lemma HitsAfter(c: Coder, first: seq<Op>, ops: seq<Op>, bits: seq<bit>)
    requires Normal(c) && Known(ops, |c.ctxs|) && first <= ops
    requires Hits(Subdivide(Run(c, ops), Terminate(1)), bits)
    ensures Known(first, |c.ctxs|) && Hits(Run(c, first).at, bits)
  {
    hide Hits, Subdivide;
    assert ops == first + ops[|first|..];
    RunAppend(c, first, ops[|first|..]);
    HitsFromEnd(Run(c, first), ops[|first|..], bits);
  }

  lemma TwoSteps(c: Coder, a: Op, b: Op)
    requires Normal(c) && Known([a, b], |c.ctxs|)
    ensures Known([a], |c.ctxs|) && Known([b], |c.ctxs|) && Run(c, [a, b]) == Step(Step(c, a), b)
  {
    hide Step, Known;
    assert [a, b] == [a] + [b];
    assert Known([a], |c.ctxs|) && Known([b], |c.ctxs|) by { KnownParts([a], [b], |c.ctxs|); }
    RunAppend(c, [a], [b]);
    RunOne(c, a);
    RunOne(Step(c, a), b);
  }

  lemma KnownParts(a: seq<Op>, b: seq<Op>, n: nat)
    requires Known(a + b, n)
    ensures Known(a, n) && Known(b, n)
  {
    forall i | 0 <= i < |b| && b[i].Decision? ensures b[i].ctx < n {
      assert (a + b)[|a| + i] == b[i];
    }
    forall i | 0 <= i < |a| && a[i].Decision? ensures a[i].ctx < n {
      assert (a + b)[i] == a[i];
    }
  }

  /** The context variables at the start of a tile, with those that the encoder lacks. */
  predicate AtStart(ctxs: seq<Context>)
  {
    && |ctxs| == 7
    && ctxs[0] == Context(16, 0) && ctxs[1] == Context(15, 0) && ctxs[2] == Context(8, 1)
    && ctxs[3] == Context(16, 1) && ctxs[4] == Context(16, 0)
  }

  lemma SomeSubRanges()
    ensures SubRange(16, 0) == 62 && SubRange(16, 1) == 76 && SubRange(16, 2) == 90 && SubRange(16, 3) == 104
    ensures SubRange(15, 2) == 95 && SubRange(15, 3) == 110 && SubRange(8, 2) == 137 && SubRange(8, 3) == 158
  {
  }

  lemma StepTo(c: Coder, i: nat, bin: bit, x: Context, at: Interval)
    requires Normal(c) && i < |c.ctxs| && c.ctxs[i] == x
    requires at == Renorm(if bin == x.mps then c.at.(range := c.at.range - LpsRange(x, c.at.range))
                          else c.at.(low := c.at.low + c.at.range - LpsRange(x, c.at.range),
                                     range := LpsRange(x, c.at.range)))
    ensures Known([Decision(i, bin)], |c.ctxs|) && Step(c, Decision(i, bin)).at == at
    ensures Step(c, Decision(i, bin)).ctxs == c.ctxs[i := Adapt(x, bin)]
  {
    hide LpsRange, Renorm, Adapt;
    assert [Decision(i, bin)][0] == Decision(i, bin);
  }

  lemma ThreeSteps(c: Coder, a: Op, b: Op, e: Op)
    requires Normal(c) && Known([a, b, e], |c.ctxs|)
    ensures Known([a], |c.ctxs|) && Known([b], |c.ctxs|) && Known([e], |c.ctxs|)
    ensures Run(c, [a, b, e]) == Step(Step(Step(c, a), b), e)
  {
    hide Step, Known;
    assert [a, b, e] == [a, b] + [e];
    KnownParts([a, b], [e], |c.ctxs|);
    RunAppend(c, [a, b], [e]);
    TwoSteps(c, a, b);
    RunOne(Run(c, [a, b]), e);
  }

  /** A split flag and a merge index around a skip flag that the encoder gives the second or third context. */
  lemma AfterSplit(c: Coder, s: nat)
    requires Normal(c) && AtStart(c.ctxs) && c.at == Interval(0, 510, 0) && (s == 2 || s == 3)
    ensures var ops := [Decision(0, 0), Decision(s, 1), Decision(4, 0)];
      && Known(ops, 7) && Known([ops[0]], 7)
      && Step(c, ops[0]).at == Interval(0, 406, 0) && Step(c, ops[0]).ctxs == c.ctxs[0 := Context(17, 0)]
      && Run(c, ops).at == if s == 2 then Interval(0, 414, 1) else Interval(0, 508, 1)
  {
    hide Step, Run, SubRange;
    SomeSubRanges();
    var split, skip, merge := Decision(0, 0), Decision(s, 1), Decision(4, 0);
    StepTo(c, 0, 0, Context(16, 0), Interval(0, 406, 0));
    var c1 := Step(c, split);
    var half := if s == 2 then 269 else 316;
    StepTo(c1, s, 1, if s == 2 then Context(8, 1) else Context(16, 1), Interval(0, half, 0));
    var c2 := Step(c1, skip);
    assert Renorm(Interval(0, half - 62, 0)) == Interval(0, 2 * (half - 62), 1);
    StepTo(c2, 4, 0, Context(16, 0), Interval(0, 2 * (half - 62), 1));
    ThreeSteps(c, split, skip, merge);
  }

  /** The same without a split flag. */
  lemma AfterSkip(c: Coder, s: nat)
    requires Normal(c) && AtStart(c.ctxs) && c.at == Interval(0, 510, 0) && (s == 2 || s == 3)
    ensures var ops := [Decision(s, 1), Decision(4, 0)];
      Known(ops, 7) && Run(c, ops).at == if s == 2 then Interval(0, 276, 0) else Interval(0, 316, 0)
  {
    hide Step, Run, SubRange;
    SomeSubRanges();
    var skip, merge := Decision(s, 1), Decision(4, 0);
    var half := if s == 2 then 352 else 406;
    StepTo(c, s, 1, if s == 2 then Context(8, 1) else Context(16, 1), Interval(0, half, 0));
    StepTo(Step(c, skip), 4, 0, Context(16, 0), if s == 2 then Interval(0, 276, 0) else Interval(0, 316, 0));
    TwoSteps(c, skip, merge);
  }

  /** A split flag where the standard has none, before a skip flag under the right context. */
  lemma AfterExtraSplit(c: Coder)
    requires Normal(c) && AtStart(c.ctxs) && c.at == Interval(0, 510, 0)
    ensures var ops := [Decision(0, 0), Decision(1, 1), Decision(4, 0)];
      Known(ops, 7) && Run(c, ops).at == Interval(1244, 304, 2)
  {
    hide Step, Run, SubRange;
    SomeSubRanges();
    var split, skip, merge := Decision(0, 0), Decision(1, 1), Decision(4, 0);
    StepTo(c, 0, 0, Context(16, 0), Interval(0, 406, 0));
    var c1 := Step(c, split);
    assert Renorm(Interval(622, 190, 1)) == Interval(1244, 380, 2);
    StepTo(c1, 1, 1, Context(15, 0), Interval(1244, 380, 2));
    StepTo(Step(c1, skip), 4, 0, Context(16, 0), Interval(1244, 304, 2));
    ThreeSteps(c, split, skip, merge);
  }

  /** Below this offset the first context of cu_skip_flag yields 0. */
  lemma ReadsZero(d: Decoder, bits: seq<bit>)
    requires Ready(d) && d.ctxs[1] == Context(15, 0)
    requires (d.range == 406 && d.offset < 311) || (d.range == 510 && d.offset < 400)
    ensures DecodeDecision(d, 1, bits).0 == 0
  {
    hide SubRange;
    SomeSubRanges();
  }

  lemma {:induction false} FirstLeafWhole(t: Tile, k: nat)
    ensures Leaves(t, 0, 0, k) != [] && Leaves(t, 0, 0, k)[0] == Leaf(0, 0, Leaves(t, 0, 0, k)[0].log2)
    ensures Leaves(t, 0, 0, k)[0].log2 == 0 || Whole(t, 0, 0, Leaves(t, 0, 0, k)[0].log2)
    decreases k
  {
    hide Whole;
    if k > 0 && !Whole(t, 0, 0, k) {
      FirstLeafWhole(t, k - 1);
    }
  }

  /** `c` is about to code `ops`, and the decoder `d` to read the data. */
  ghost predicate AboutToRead(c: Coder, ops: seq<Op>, d: Decoder, bits: seq<bit>)
  {
    && Normal(c) && AtStart(c.ctxs) && c.at == Interval(0, 510, 0) && Known(ops, 7)
    && Hits(Subdivide(Run(c, ops), Terminate(1)), bits) && d == StartDecoder(bits, c.ctxs)
  }

  lemma MissedWithoutSplit(c: Coder, ops: seq<Op>, d: Decoder, bits: seq<bit>, k: nat, s: nat, t: Tile)
    requires AboutToRead(c, ops, d, bits) && k == 0
    requires s == 2 || s == 3
    requires [Decision(s, 1), Decision(4, 0)] <= ops
    ensures ParseQuadtree(t, 0, 0, k, d, [], bits).Other?
  {
    hide Run, Subdivide, PrefixVal, DecodeDecision, Step;
    AfterSkip(c, s);
    HitsAfter(c, [Decision(s, 1), Decision(4, 0)], ops, bits);
    ReadsZero(d, bits);
  }

  lemma MissedAfterExtraSplit(c: Coder, ops: seq<Op>, d: Decoder, bits: seq<bit>, k: nat, t: Tile)
    requires AboutToRead(c, ops, d, bits) && k == 0
    requires [Decision(0, 0), Decision(1, 1), Decision(4, 0)] <= ops
    ensures ParseQuadtree(t, 0, 0, k, d, [], bits).Other?
  {
    hide Run, Subdivide, DecodeDecision, Step;
    AfterExtraSplit(c);
    HitsAfter(c, [Decision(0, 0), Decision(1, 1), Decision(4, 0)], ops, bits);
    assert PrefixVal(bits, 11) == 2 * PrefixVal(bits, 10) + ReadBit(bits, 10);
    assert PrefixVal(bits, 10) == 2 * PrefixVal(bits, 9) + ReadBit(bits, 9);
    hide PrefixVal;
    ReadsZero(d, bits);
  }

  lemma MissedAfterSplit(c: Coder, ops: seq<Op>, d: Decoder, bits: seq<bit>, k: nat, s: nat, t: Tile)
    requires AboutToRead(c, ops, d, bits) && k > 0 && Whole(t, 0, 0, k)
    requires s == 2 || s == 3
    requires [Decision(0, 0), Decision(s, 1), Decision(4, 0)] <= ops
    ensures ParseQuadtree(t, 0, 0, k, d, [], bits).Other?
  {
    hide Run, Subdivide, DecodeDecision, Step, Whole, Hits, InStep;
    var first := [Decision(0, 0), Decision(s, 1), Decision(4, 0)];
    AfterSplit(c, s);
    HitsAfter(c, first, ops, bits);
    assert ops[0] == first[0];
    HitsFromEnd(c, ops, bits);
    StartsInStep(c, d, bits);
    DecisionDecoded(c, 0, 0, d, bits);
    var d1 := DecodeDecision(d, 0, bits).1;
    DecodedInRange(d, 0, bits);
    SmallOffset(d1, bits, if s == 2 then 414 else 508);
    ReadsZero(d1, bits);
  }

  lemma StartsInStep(c: Coder, d: Decoder, bits: seq<bit>)
    requires c.at == Interval(0, 510, 0) && d == StartDecoder(bits, c.ctxs)
    ensures InStep(c.at, d, bits)
  {
  }

  lemma SmallOffset(d: Decoder, bits: seq<bit>, n: nat)
    requires InStep(Interval(0, 406, 0), d, bits) && Hits(Interval(0, n, 1), bits)
    ensures d.range == 406 && 2 * d.offset < n
  {
    assert PrefixVal(bits, 10) == 2 * PrefixVal(bits, 9) + ReadBit(bits, 9);
  }

  /** Where the encoder departs from the standard, the standard's parser reads the first cu_skip_flag as 0. */
  lemma FirstCuMissed(t: Tile, lastTile: bool, c: Coder, d: Decoder, bits: seq<bit>)
    requires 0 < t.w && 0 < t.h && !(Lcu(t) <= t.w && Lcu(t) <= t.h && t.log2 > 0)
    requires TileOps(Written, t, lastTile) != []
             && AboutToRead(c, ButLast(TileOps(Written, t, lastTile)), d, bits)
    ensures ParseQuadtree(t, 0, 0, t.log2, d, [], bits).Other?
  {
    hide Leaves, TileOps, Whole, AboutToRead, ParseQuadtree;
    var ops := TileOps(Written, t, lastTile);
    FirstLeafWhole(t, t.log2);
    FirstCu(Written, t, lastTile);
    var leaf := Leaves(t, 0, 0, t.log2)[0];
    var first := Cu(Written, t, leaf);
    FirstCuBeforeEnd(t, lastTile, first);
    var s := CU_SKIP_FLAG + (if t.w < Lcu(t) then 1 else 0) + (if t.h < Lcu(t) then 1 else 0);
    Pow2Values();
    if t.log2 == 0 {
      FirstLeafNotLarger(t, t.log2);
      assert first == [Decision(0, 0), Decision(1, 1), Decision(4, 0)];
      MissedAfterExtraSplit(c, ButLast(ops), d, bits, leaf.log2, t);
    } else if leaf.log2 == 0 {
      assert first == [Decision(s, 1), Decision(4, 0)];
      MissedWithoutSplit(c, ButLast(ops), d, bits, leaf.log2, s, t);
    } else {
      assert first == [Decision(0, 0), Decision(s, 1), Decision(4, 0)];
      MissedAfterSplit(c, ButLast(ops), d, bits, leaf.log2, s, t);
    }
    assert Ready(d) by { AboutToReadReady(c, ButLast(ops), d, bits); }
    FirstCuFails(t, t.log2, d, bits);
  }

  lemma AboutToReadReady(c: Coder, ops: seq<Op>, d: Decoder, bits: seq<bit>)
    requires AboutToRead(c, ops, d, bits)
    ensures Ready(d)
  {
  }

  lemma {:induction false} FirstLeafNotLarger(t: Tile, k: nat)
    ensures Leaves(t, 0, 0, k) != [] && Leaves(t, 0, 0, k)[0].log2 <= k
    decreases k
  {
    if k > 0 && !Whole(t, 0, 0, k) {
      FirstLeafNotLarger(t, k - 1);
    }
  }

  lemma FirstCuBeforeEnd(t: Tile, lastTile: bool, first: seq<Op>)
    requires 0 < t.w && 0 < t.h && first <= TileOps(Written, t, lastTile) && first != []
    requires first[|first| - 1] == Decision(MERGE_IDX, 0)
    ensures TileOps(Written, t, lastTile) != [] && first <= ButLast(TileOps(Written, t, lastTile))
  {
    hide TileOpsFrom;
    TileEnds(Written, t, lastTile, 0, 0);
    var ops := TileOps(Written, t, lastTile);
    assert ops[|ops| - 1] == Terminate(1);
    assert ops[|first| - 1] == Decision(MERGE_IDX, 0);
  }

  /** From the bits and the size of the tile alone, in a slice with quantiser 26, the parser of the standard finds
      exactly the coding units of the tile, whether the slice segment ends with it, and where the data ends,
      whatever follows: if and only if the tile is at least one coding tree block wide and high and such a
      block is larger than the minimum. In every other tile it goes astray at the first coding unit. */
  lemma ParserReadsTileIff(t: Tile, lastTile: bool, initType: nat, tail: seq<bit>)
    requires 0 < t.w && 0 < t.h
    ensures var code := HevcTile.TileBits(t, lastTile);
            var bits := code + tail;
            var d := StartDecoder(bits, InitialContexts(initType, 26));
            ParseTile(t, 0, 0, d, [], bits)
            == if Lcu(t) <= t.w && Lcu(t) <= t.h && t.log2 > 0
               then Finished(LeavesFrom(t, 0, 0), lastTile, |code|)
               else Broken
  {
    hide InitialContexts, Leaves, LeavesFrom, TileOpsFrom, Encode, PrefixVal, ReadOps, ParseQuadtree, DecodeTerminate,
         Behind, Sized, Run, Subdivide, Hits, ButLast, LcuStart;
    var ctxs := InitialContexts(initType, 26);
    var extra := ctxs[5..];
    assert ctxs == HevcTile.TileContexts() + extra by { StartsAsStandardIff(initType, 26); }
    var ops := TileOps(Written, t, lastTile);
    var code := HevcTile.TileBits(t, lastTile);
    var bits := code + tail;
    var d := StartDecoder(bits, ctxs);
    TileEnds(Written, t, lastTile, 0, 0);
    EncodeWithMore(HevcTile.TileContexts(), ops, extra);
    if Lcu(t) <= t.w && Lcu(t) <= t.h && t.log2 > 0 {
      WrittenIsStandardIff(t, lastTile);
      ReadsBack(ctxs, ops, tail);
      AtTheStart(t);
      assert ButLast(ops) == ops[..|ops| - 1] by { ButLastIs(ops); }
      ParsesTileFrom(t, lastTile, 0, 0, d, [], bits);
      assert [] + LeavesFrom(t, 0, 0) == LeavesFrom(t, 0, 0);
    } else {
      var c := Start(ctxs);
      AboutToReadTile(ops, extra, tail);
      FirstCuMissed(t, lastTile, c, d, bits);
    }
  }

  lemma ButLastIs(ops: seq<Op>)
    requires ops != []
    ensures ButLast(ops) == ops[..|ops| - 1]
  {
  }

  lemma AtTheStart(t: Tile)
    ensures Sized(t, []) && Behind(t, 0, 0, []) && LcuStart(0, Lcu(t)) == 0
  {
  }

  lemma AboutToReadTile(ops: seq<Op>, extra: seq<Context>, tail: seq<bit>)
    requires Known(ops, 5) && ops != [] && EndsOnlyAtEnd(ops) && |extra| == 2
    ensures var ctxs := HevcTile.TileContexts() + extra;
            var bits := Encode(HevcTile.TileContexts(), ops) + tail;
            AboutToRead(Start(ctxs), ButLast(ops), StartDecoder(bits, ctxs), bits)
  {
    hide Pow2, PrefixVal, Renorm, Hits, Subdivide;
    var ctxs := HevcTile.TileContexts() + extra;
    EncodeWithMore(HevcTile.TileContexts(), ops, extra);
    EndSplit(ops);
    RunThenTerminate(Start(ctxs), ButLast(ops));
    FinishHits(Run(Start(ctxs), ButLast(ops)), tail);
  }
}
