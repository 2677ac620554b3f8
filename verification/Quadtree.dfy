/** The coding quadtree of section 7.3.8.4 of ITU-T H.265 for a tile of skipped blocks.

    Lengths are in minimum coding blocks; a tile is `w` by `h`, its coding tree blocks have side 2^log2. */
module Quadtree {
  import opened Basics
  import opened Bits
  import opened CabacCoder

  datatype Tile = Tile(w: nat, h: nat, log2: nat)

  /** A coding unit of side 2^log2; its split_cu_flag is present exactly when log2 > 0. */
  datatype Leaf = Leaf(x: nat, y: nat, log2: nat)

  predicate Whole(t: Tile, x: nat, y: nat, k: nat)
  {
    x + Pow2(k) <= t.w && y + Pow2(k) <= t.h
  }

  /** coding_quadtree( ): a block inside the tile is not split, any other one larger than the minimum is. */
  function Leaves(t: Tile, x: nat, y: nat, k: nat): seq<Leaf>
    decreases k
  {
    if k == 0 || Whole(t, x, y, k) then [Leaf(x, y, k)]
    else
      var m := Pow2(k - 1);
      Leaves(t, x, y, k - 1)
      + (if x + m < t.w then Leaves(t, x + m, y, k - 1) else [])
      + (if y + m < t.h then Leaves(t, x, y + m, k - 1) else [])
      + (if x + m < t.w && y + m < t.h then Leaves(t, x + m, y + m, k - 1) else [])
  }

  /** The four parts of a split block. */
  lemma LeavesSplit(t: Tile, x: nat, y: nat, k: nat)
    returns (a: seq<Leaf>, b: seq<Leaf>, c: seq<Leaf>, d: seq<Leaf>)
    requires k > 0 && !Whole(t, x, y, k)
    ensures Leaves(t, x, y, k) == a + b + c + d
    ensures a == Leaves(t, x, y, k - 1)
    ensures b == if x + Pow2(k - 1) < t.w then Leaves(t, x + Pow2(k - 1), y, k - 1) else []
    ensures c == if y + Pow2(k - 1) < t.h then Leaves(t, x, y + Pow2(k - 1), k - 1) else []
    ensures d == if x + Pow2(k - 1) < t.w && y + Pow2(k - 1) < t.h
                 then Leaves(t, x + Pow2(k - 1), y + Pow2(k - 1), k - 1) else []
    ensures Pow2(k) == 2 * Pow2(k - 1)
  {
    hide Whole;
    var m := Pow2(k - 1);
    a := Leaves(t, x, y, k - 1);
    b := if x + m < t.w then Leaves(t, x + m, y, k - 1) else [];
    c := if y + m < t.h then Leaves(t, x, y + m, k - 1) else [];
    d := if x + m < t.w && y + m < t.h then Leaves(t, x + m, y + m, k - 1) else [];
  }

  lemma LeavesUnsplit(t: Tile, x: nat, y: nat, k: nat)
    requires k == 0 || Whole(t, x, y, k)
    ensures Leaves(t, x, y, k) == [Leaf(x, y, k)]
  {
  }

  /** Side of a coding tree block. */
  function Lcu(t: Tile): nat { Pow2(t.log2) }

  /** The leaves of the coding tree blocks from the one at (x, y) on, in raster order. */
  function LeavesFrom(t: Tile, x: nat, y: nat): seq<Leaf>
    requires x < t.w && y < t.h
    decreases t.h - y, t.w - x
  {
    Leaves(t, x, y, t.log2)
    + if x + Lcu(t) < t.w then LeavesFrom(t, x + Lcu(t), y)
      else if y + Lcu(t) < t.h then LeavesFrom(t, 0, y + Lcu(t))
      else []
  }

  // ---- Syntax elements ----

  // Context variables: split_cu_flag, cu_skip_flag with increment 0..2, merge_idx. Contexts of
  // split_cu_flag with a non-zero increment exist in the standard but not in the encoder.
  const SPLIT_CU_FLAG := 0
  const CU_SKIP_FLAG := 1
  const MERGE_IDX := 4

  function SplitContext(inc: nat): nat { if inc == 0 then SPLIT_CU_FLAG else 4 + inc }

  /** A skipped coding unit: split_cu_flag 0 if present, cu_skip_flag 1, merge_idx 0. */
  function SkippedCu(hasSplitFlag: bool, splitInc: nat, left: bool, above: bool): seq<Op>
  {
    (if hasSplitFlag then [Decision(SplitContext(splitInc), 0)] else [])
    + [Decision(CU_SKIP_FLAG + (if left then 1 else 0) + (if above then 1 else 0), 1),
       Decision(MERGE_IDX, 0)]
  }

  /** Size (log2) of the coding unit that covers cell (px, py) of the block at (x, y). */
  function SizeIn(t: Tile, x: nat, y: nat, k: nat, px: nat, py: nat): nat
    decreases k
  {
    if k == 0 || Whole(t, x, y, k) then k
    else
      var m := Pow2(k - 1);
      SizeIn(t, if px < x + m then x else x + m, if py < y + m then y else y + m, k - 1, px, py)
  }

  /** The start of the coding tree block that a column (row) belongs to. */
  function LcuStart(p: nat, s: nat): (x: nat)
    requires s > 0
    ensures x <= p < x + s
  {
    if p < s then 0 else s + LcuStart(p - s, s)
  }

  function SizeAt(t: Tile, px: nat, py: nat): nat
  {
    SizeIn(t, LcuStart(px, Lcu(t)), LcuStart(py, Lcu(t)), t.log2, px, py)
  }

  /** Who derives the context variables: the standard, or the encoder. */
  datatype Rule = Standard | Written

  /** Sections 6.4.1 and 9.3.4.2.2 of H.265: a neighbour is available when it lies in the same tile. It was
      skipped too, so it counts for cu_skip_flag; for split_cu_flag it counts when it is deeper.
      The encoder instead takes a tile narrower (shorter) than one coding tree block to have left (upper)
      neighbours everywhere, never counts a neighbour for split_cu_flag, and writes that flag for a whole
      coding tree block even when such a block is already of minimum size. */
  function Cu(rule: Rule, t: Tile, leaf: Leaf): (ops: seq<Op>)
    ensures rule == Written ==> Known(ops, 5)
  {
    var left, above := leaf.x > 0, leaf.y > 0;
    match rule
    case Standard =>
      SkippedCu(leaf.log2 > 0,
                (if left && SizeAt(t, leaf.x - 1, leaf.y) < leaf.log2 then 1 else 0)
                + (if above && SizeAt(t, leaf.x, leaf.y - 1) < leaf.log2 then 1 else 0),
                left, above)
    case Written =>
      SkippedCu(leaf.log2 > 0 || t.log2 == 0, 0, left || t.w < Lcu(t), above || t.h < Lcu(t))
  }

  function Cus(rule: Rule, t: Tile, leaves: seq<Leaf>): (ops: seq<Op>)
    ensures rule == Written ==> Known(ops, 5)
  {
    if leaves == [] then [] else Cu(rule, t, leaves[0]) + Cus(rule, t, leaves[1..])
  }

  /** After a coding tree block: end_of_slice_segment_flag, and end_of_subset_one_bit when only the tile ends. */
  function LcuEnd(lastTile: bool, lastLcu: bool): seq<Op>
  {
    if !lastLcu then [Terminate(0)]
    else if lastTile then [Terminate(1)]
    else [Terminate(0), Terminate(1)]
  }

  predicate LastLcu(t: Tile, x: nat, y: nat)
  {
    t.w <= x + Lcu(t) && t.h <= y + Lcu(t)
  }

  function LcuOps(rule: Rule, t: Tile, lastTile: bool, x: nat, y: nat): (ops: seq<Op>)
    ensures rule == Written ==> Known(ops, 5)
  {
    Cus(rule, t, Leaves(t, x, y, t.log2)) + LcuEnd(lastTile, LastLcu(t, x, y))
  }

  /** Slice segment data (section 7.3.8.1) from the coding tree block at (x, y) to the end of the tile. */
  function TileOpsFrom(rule: Rule, t: Tile, lastTile: bool, x: nat, y: nat): (ops: seq<Op>)
    requires x < t.w && y < t.h
    ensures rule == Written ==> Known(ops, 5)
    decreases t.h - y, t.w - x
  {
    LcuOps(rule, t, lastTile, x, y)
    + if x + Lcu(t) < t.w then TileOpsFrom(rule, t, lastTile, x + Lcu(t), y)
      else if y + Lcu(t) < t.h then TileOpsFrom(rule, t, lastTile, 0, y + Lcu(t))
      else []
  }

  function TileOps(rule: Rule, t: Tile, lastTile: bool): (ops: seq<Op>)
    requires 0 < t.w && 0 < t.h
    ensures rule == Written ==> Known(ops, 5)
  {
    TileOpsFrom(rule, t, lastTile, 0, 0)
  }

  lemma {:induction false} CusDoNotEnd(rule: Rule, t: Tile, leaves: seq<Leaf>)
    ensures Terminate(1) !in Cus(rule, t, leaves)
  {
    if leaves != [] {
      CusDoNotEnd(rule, t, leaves[1..]);
    }
  }

  lemma LcuEnds(rule: Rule, t: Tile, lastTile: bool, x: nat, y: nat)
    ensures LastLcu(t, x, y) ==> EndsOnlyAtEnd(LcuOps(rule, t, lastTile, x, y))
    ensures !LastLcu(t, x, y) ==> Terminate(1) !in LcuOps(rule, t, lastTile, x, y)
  {
    CusDoNotEnd(rule, t, Leaves(t, x, y, t.log2));
  }

  lemma EndsAppend(a: seq<Op>, b: seq<Op>)
    requires Terminate(1) !in a && EndsOnlyAtEnd(b) && b != []
    ensures EndsOnlyAtEnd(a + b)
  {
    forall i | 0 <= i < |a + b| ensures (a + b)[i] == Terminate(1) <==> i == |a + b| - 1 {
      if i < |a| {
        assert a[i] in a;
      }
    }
  }

  /** A tile's data ends with its only terminating bin of 1. */
  lemma {:induction false} TileEnds(rule: Rule, t: Tile, lastTile: bool, x: nat, y: nat)
    requires x < t.w && y < t.h
    ensures TileOpsFrom(rule, t, lastTile, x, y) != []
    ensures EndsOnlyAtEnd(TileOpsFrom(rule, t, lastTile, x, y))
    decreases t.h - y, t.w - x
  {
    hide Pow2, LcuOps;
    LcuEnds(rule, t, lastTile, x, y);
    LcuNotEmpty(rule, t, lastTile, x, y);
    var here := LcuOps(rule, t, lastTile, x, y);
    if x + Lcu(t) < t.w {
      TileEnds(rule, t, lastTile, x + Lcu(t), y);
      EndsAppend(here, TileOpsFrom(rule, t, lastTile, x + Lcu(t), y));
    } else if y + Lcu(t) < t.h {
      TileEnds(rule, t, lastTile, 0, y + Lcu(t));
      EndsAppend(here, TileOpsFrom(rule, t, lastTile, 0, y + Lcu(t)));
    } else {
      assert here + [] == here;
    }
  }

  lemma LcuNotEmpty(rule: Rule, t: Tile, lastTile: bool, x: nat, y: nat)
    ensures LcuOps(rule, t, lastTile, x, y) != []
  {
  }

  lemma {:induction false} CusAppend(rule: Rule, t: Tile, a: seq<Leaf>, b: seq<Leaf>)
    ensures Cus(rule, t, a + b) == Cus(rule, t, a) + Cus(rule, t, b)
  {
    if a == [] {
      assert a + b == b;
    } else {
      assert (a + b)[1..] == a[1..] + b;
      CusAppend(rule, t, a[1..], b);
    }
  }

  lemma CusOne(rule: Rule, t: Tile, leaf: Leaf)
    ensures Cus(rule, t, [leaf]) == Cu(rule, t, leaf)
  {
    assert [leaf][1..] == [];
  }

  // ---- The leaves cover the tile ----

  predicate Covers(leaf: Leaf, px: nat, py: nat)
  {
    leaf.x <= px < leaf.x + Pow2(leaf.log2) && leaf.y <= py < leaf.y + Pow2(leaf.log2)
  }

  function CoverCount(leaves: seq<Leaf>, px: nat, py: nat): nat
  {
    if leaves == [] then 0 else (if Covers(leaves[0], px, py) then 1 else 0) + CoverCount(leaves[1..], px, py)
  }

  lemma {:induction false} CoverCountAppend(a: seq<Leaf>, b: seq<Leaf>, px: nat, py: nat)
    ensures CoverCount(a + b, px, py) == CoverCount(a, px, py) + CoverCount(b, px, py)
  {
    if a == [] {
      assert a + b == b;
    } else {
      assert (a + b)[1..] == a[1..] + b;
      CoverCountAppend(a[1..], b, px, py);
    }
  }

  /** The leaves of a block cover each cell of the block that lies in the tile exactly once, and no other. */
  lemma {:induction false} LeavesCoverBlock(t: Tile, x: nat, y: nat, k: nat, px: nat, py: nat)
    requires x < t.w && y < t.h
    ensures CoverCount(Leaves(t, x, y, k), px, py)
         == if Covers(Leaf(x, y, k), px, py) && px < t.w && py < t.h then 1 else 0
    decreases k
  {
    hide Pow2, Leaves, CoverCount;
    if k == 0 || Whole(t, x, y, k) {
      LeavesUnsplit(t, x, y, k);
      CoverCountOne(Leaf(x, y, k), px, py);
      Pow2Values();
    } else {
      var m := Pow2(k - 1);
      var a, b, c, d := LeavesSplit(t, x, y, k);
      CoverCountOne(Leaf(x, y, k), px, py);
      LeavesCoverBlock(t, x, y, k - 1, px, py);
      if x + m < t.w { LeavesCoverBlock(t, x + m, y, k - 1, px, py); }
      if y + m < t.h { LeavesCoverBlock(t, x, y + m, k - 1, px, py); }
      if x + m < t.w && y + m < t.h { LeavesCoverBlock(t, x + m, y + m, k - 1, px, py); }
      FourCounts(a, b, c, d, px, py);
    }
  }

  lemma CoverCountOne(leaf: Leaf, px: nat, py: nat)
    ensures CoverCount([leaf], px, py) == if Covers(leaf, px, py) then 1 else 0
    ensures CoverCount([], px, py) == 0
  {
    assert [leaf][1..] == [];
  }

  lemma FourCounts(a: seq<Leaf>, b: seq<Leaf>, c: seq<Leaf>, d: seq<Leaf>, px: nat, py: nat)
    ensures CoverCount(a + b + c + d, px, py)
         == CoverCount(a, px, py) + CoverCount(b, px, py) + CoverCount(c, px, py) + CoverCount(d, px, py)
  {
    CoverCountAppend(a, b, px, py);
    CoverCountAppend(a + b, c, px, py);
    CoverCountAppend(a + b + c, d, px, py);
  }

  /** In raster order from the coding tree block at (x, y): the rest of its row of blocks, and all below. */
  predicate Ahead(t: Tile, x: nat, y: nat, px: nat, py: nat)
  {
    px < t.w && py < t.h && (y + Lcu(t) <= py || (y <= py && x <= px))
  }

  lemma {:induction false} LeavesFromCover(t: Tile, x: nat, y: nat, px: nat, py: nat)
    requires x < t.w && y < t.h
    ensures CoverCount(LeavesFrom(t, x, y), px, py) == if Ahead(t, x, y, px, py) then 1 else 0
    decreases t.h - y, t.w - x
  {
    hide Pow2, Leaves, CoverCount;
    LeavesCoverBlock(t, x, y, t.log2, px, py);
    CoverCountOne(Leaf(x, y, t.log2), px, py);
    var here := Leaves(t, x, y, t.log2);
    if x + Lcu(t) < t.w {
      LeavesFromCover(t, x + Lcu(t), y, px, py);
      CoverCountAppend(here, LeavesFrom(t, x + Lcu(t), y), px, py);
    } else if y + Lcu(t) < t.h {
      LeavesFromCover(t, 0, y + Lcu(t), px, py);
      CoverCountAppend(here, LeavesFrom(t, 0, y + Lcu(t)), px, py);
    } else {
      CoverCountAppend(here, [], px, py);
    }
  }

  /** Over a whole tile, the coding units cover every minimum coding block exactly once and nothing else. */
  lemma TileCoveredOnce(t: Tile, px: nat, py: nat)
    requires 0 < t.w && 0 < t.h
    ensures CoverCount(LeavesFrom(t, 0, 0), px, py) == if px < t.w && py < t.h then 1 else 0
  {
    LeavesFromCover(t, 0, 0, px, py);
  }

  // ---- What is coded is the leaves ----

  /** The bins coded under a context. */
  function Decisions(ops: seq<Op>): seq<Op>
  {
    if ops == [] then [] else (if ops[0].Decision? then [ops[0]] else []) + Decisions(ops[1..])
  }

  lemma {:induction false} DecisionsAppend(a: seq<Op>, b: seq<Op>)
    ensures Decisions(a + b) == Decisions(a) + Decisions(b)
  {
    if a == [] {
      assert a + b == b;
    } else {
      assert (a + b)[1..] == a[1..] + b;
      DecisionsAppend(a[1..], b);
    }
  }

  lemma {:induction false} AllDecisions(ops: seq<Op>)
    requires forall op :: op in ops ==> op.Decision?
    ensures Decisions(ops) == ops
  {
    if ops != [] {
      AllDecisions(ops[1..]);
    }
  }

  lemma {:induction false} CusAreDecisions(rule: Rule, t: Tile, leaves: seq<Leaf>)
    ensures forall op :: op in Cus(rule, t, leaves) ==> op.Decision?
  {
    if leaves != [] {
      CusAreDecisions(rule, t, leaves[1..]);
    }
  }

  lemma EndHasNoDecisions(lastTile: bool, lastLcu: bool)
    ensures Decisions(LcuEnd(lastTile, lastLcu)) == []
  {
    var two := [Terminate(0), Terminate(1)];
    assert two[1..] == [Terminate(1)] && Decisions([Terminate(1)]) == [];
  }

  lemma LcuDecisions(rule: Rule, t: Tile, lastTile: bool, x: nat, y: nat)
    ensures Decisions(LcuOps(rule, t, lastTile, x, y)) == Cus(rule, t, Leaves(t, x, y, t.log2))
  {
    hide Decisions, Cus, Leaves;
    var here := Cus(rule, t, Leaves(t, x, y, t.log2));
    CusAreDecisions(rule, t, Leaves(t, x, y, t.log2));
    AllDecisions(here);
    EndHasNoDecisions(lastTile, LastLcu(t, x, y));
    DecisionsAppend(here, LcuEnd(lastTile, LastLcu(t, x, y)));
  }

  /** Besides its terminating bins, the data of a tile codes exactly its leaves, in order. */
  lemma {:induction false} TileCodesLeaves(rule: Rule, t: Tile, lastTile: bool, x: nat, y: nat)
    requires x < t.w && y < t.h
    ensures Decisions(TileOpsFrom(rule, t, lastTile, x, y)) == Cus(rule, t, LeavesFrom(t, x, y))
    decreases t.h - y, t.w - x
  {
    hide Decisions, Cus, Leaves, LcuOps, Pow2;
    var here, leaves := LcuOps(rule, t, lastTile, x, y), Leaves(t, x, y, t.log2);
    LcuDecisions(rule, t, lastTile, x, y);
    if x + Lcu(t) < t.w {
      TileCodesLeaves(rule, t, lastTile, x + Lcu(t), y);
      DecisionsAppend(here, TileOpsFrom(rule, t, lastTile, x + Lcu(t), y));
      CusAppend(rule, t, leaves, LeavesFrom(t, x + Lcu(t), y));
    } else if y + Lcu(t) < t.h {
      TileCodesLeaves(rule, t, lastTile, 0, y + Lcu(t));
      DecisionsAppend(here, TileOpsFrom(rule, t, lastTile, 0, y + Lcu(t)));
      CusAppend(rule, t, leaves, LeavesFrom(t, 0, y + Lcu(t)));
    } else {
      assert here + [] == here && leaves + [] == leaves;
    }
  }

  // ---- The encoder's contexts are the standard's, for tiles of at least one coding tree block ----

  /** The subdivision along one axis: size of the piece that covers `p`. */
  function Size1(w: nat, x: nat, k: nat, p: nat): (r: nat)
    ensures r <= k
    decreases k
  {
    if k == 0 || x + Pow2(k) <= w then k
    else Size1(w, if p < x + Pow2(k - 1) then x else x + Pow2(k - 1), k - 1, p)
  }

  /** A coding unit is as large as the smaller of the pieces along its two axes. */
  lemma {:induction false} SizeIsSmallerAxis(t: Tile, x: nat, y: nat, k: nat, px: nat, py: nat)
    requires x <= px < x + Pow2(k) && y <= py < y + Pow2(k) && px < t.w && py < t.h
    ensures SizeIn(t, x, y, k, px, py) == Min(Size1(t.w, x, k, px), Size1(t.h, y, k, py))
    decreases k
  {
    if k > 0 && !Whole(t, x, y, k) {
      var m := Pow2(k - 1);
      SizeIsSmallerAxis(t, if px < x + m then x else x + m, if py < y + m then y else y + m, k - 1, px, py);
    }
  }

  /** Along an axis the pieces never grow. */
  lemma {:induction false} Size1Shrinks(w: nat, x: nat, k: nat, p: nat)
    requires x <= p && p + 1 < x + Pow2(k) && p + 1 < w
    ensures Size1(w, x, k, p) >= Size1(w, x, k, p + 1)
    decreases k
  {
    if k > 0 && x + Pow2(k) > w {
      var m := Pow2(k - 1);
      if p + 1 < x + m {
        Size1Shrinks(w, x, k - 1, p);
      } else if x + m <= p {
        Size1Shrinks(w, x + m, k - 1, p);
      }
    }
  }

  function AxisSize(w: nat, log2: nat, p: nat): nat
  {
    Size1(w, LcuStart(p, Pow2(log2)), log2, p)
  }

  lemma {:induction false} StartStep(p: nat, s: nat)
    requires s > 0
    ensures LcuStart(p + 1, s) == LcuStart(p, s) || LcuStart(p + 1, s) == LcuStart(p, s) + s == p + 1
  {
    if p >= s {
      StartStep(p - s, s);
    }
  }

  lemma AxisSizeShrinks(w: nat, log2: nat, p: nat)
    requires p + 1 < w
    ensures AxisSize(w, log2, p) >= AxisSize(w, log2, p + 1)
  {
    StartStep(p, Pow2(log2));
    if LcuStart(p + 1, Pow2(log2)) == LcuStart(p, Pow2(log2)) {
      Size1Shrinks(w, LcuStart(p, Pow2(log2)), log2, p);
    }
  }

  lemma SizeAtIsSmallerAxis(t: Tile, px: nat, py: nat)
    requires px < t.w && py < t.h
    ensures SizeAt(t, px, py) == Min(AxisSize(t.w, t.log2, px), AxisSize(t.h, t.log2, py))
  {
    SizeIsSmallerAxis(t, LcuStart(px, Lcu(t)), LcuStart(py, Lcu(t)), t.log2, px, py);
  }

  /** A leaf's own corner is covered by a coding unit of its size, and the corner lies in the tile. */
  lemma {:induction false} LeafSize(t: Tile, x: nat, y: nat, k: nat, leaf: Leaf)
    requires x < t.w && y < t.h && leaf in Leaves(t, x, y, k)
    ensures x <= leaf.x < x + Pow2(k) && y <= leaf.y < y + Pow2(k) && leaf.x < t.w && leaf.y < t.h
    ensures SizeIn(t, x, y, k, leaf.x, leaf.y) == leaf.log2
    decreases k
  {
    hide Pow2, Leaves;
    if k == 0 || Whole(t, x, y, k) {
      LeavesUnsplit(t, x, y, k);
      Pow2Values();
    } else {
      var m := Pow2(k - 1);
      var a, b, c, d := LeavesSplit(t, x, y, k);
      if leaf in a {
        LeafSize(t, x, y, k - 1, leaf);
      } else if leaf in b {
        LeafSize(t, x + m, y, k - 1, leaf);
      } else if leaf in c {
        LeafSize(t, x, y + m, k - 1, leaf);
      } else {
        LeafSize(t, x + m, y + m, k - 1, leaf);
      }
    }
  }

  /** No left or upper neighbour is ever deeper, so split_cu_flag always uses its first context. */
  lemma NeighboursNotDeeper(t: Tile, leaf: Leaf)
    requires leaf.x < t.w && leaf.y < t.h && SizeAt(t, leaf.x, leaf.y) == leaf.log2
    ensures leaf.x > 0 ==> SizeAt(t, leaf.x - 1, leaf.y) >= leaf.log2
    ensures leaf.y > 0 ==> SizeAt(t, leaf.x, leaf.y - 1) >= leaf.log2
  {
    SizeAtIsSmallerAxis(t, leaf.x, leaf.y);
    if leaf.x > 0 {
      SizeAtIsSmallerAxis(t, leaf.x - 1, leaf.y);
      AxisSizeShrinks(t.w, t.log2, leaf.x - 1);
    }
    if leaf.y > 0 {
      SizeAtIsSmallerAxis(t, leaf.x, leaf.y - 1);
      AxisSizeShrinks(t.h, t.log2, leaf.y - 1);
    }
  }

  lemma {:induction false} StartOfMultiple(x: nat, s: nat, p: nat)
    requires s > 0 && LcuStart(x, s) == x && x <= p < x + s
    ensures LcuStart(p, s) == x
    ensures LcuStart(x + s, s) == x + s
  {
    if x >= s {
      StartOfMultiple(x - s, s, p - s);
    }
  }

  lemma CuSame(t: Tile, leaf: Leaf)
    requires Lcu(t) <= t.w && Lcu(t) <= t.h && t.log2 > 0
    requires leaf.x < t.w && leaf.y < t.h && SizeAt(t, leaf.x, leaf.y) == leaf.log2
    ensures Cu(Standard, t, leaf) == Cu(Written, t, leaf)
  {
    hide SizeAt, SkippedCu;
    NeighboursNotDeeper(t, leaf);
  }

  lemma {:induction false} CusSame(t: Tile, leaves: seq<Leaf>)
    requires Lcu(t) <= t.w && Lcu(t) <= t.h && t.log2 > 0
    requires forall leaf :: leaf in leaves ==>
      leaf.x < t.w && leaf.y < t.h && SizeAt(t, leaf.x, leaf.y) == leaf.log2
    ensures Cus(Standard, t, leaves) == Cus(Written, t, leaves)
  {
    hide SizeAt, Cu;
    if leaves != [] {
      assert leaves[0] in leaves;
      CuSame(t, leaves[0]);
      CusSame(t, leaves[1..]);
    }
  }

  lemma LcuSame(t: Tile, lastTile: bool, x: nat, y: nat)
    requires x < t.w && y < t.h && Lcu(t) <= t.w && Lcu(t) <= t.h && t.log2 > 0
    requires LcuStart(x, Lcu(t)) == x && LcuStart(y, Lcu(t)) == y
    ensures LcuOps(Standard, t, lastTile, x, y) == LcuOps(Written, t, lastTile, x, y)
  {
    var leaves := Leaves(t, x, y, t.log2);
    forall leaf | leaf in leaves
      ensures leaf.x < t.w && leaf.y < t.h && SizeAt(t, leaf.x, leaf.y) == leaf.log2
    {
      LeafSize(t, x, y, t.log2, leaf);
      StartOfMultiple(x, Lcu(t), leaf.x);
      StartOfMultiple(y, Lcu(t), leaf.y);
    }
    CusSame(t, leaves);
  }

  lemma {:induction false} TileSame(t: Tile, lastTile: bool, x: nat, y: nat)
    requires x < t.w && y < t.h && Lcu(t) <= t.w && Lcu(t) <= t.h && t.log2 > 0
    requires LcuStart(x, Lcu(t)) == x && LcuStart(y, Lcu(t)) == y
    ensures TileOpsFrom(Standard, t, lastTile, x, y) == TileOpsFrom(Written, t, lastTile, x, y)
    decreases t.h - y, t.w - x
  {
    hide LcuOps, Pow2, LcuStart, Known;
    LcuSame(t, lastTile, x, y);
    if x + Lcu(t) < t.w {
      StartOfMultiple(x, Lcu(t), x);
      TileSame(t, lastTile, x + Lcu(t), y);
    } else if y + Lcu(t) < t.h {
      StartOfMultiple(y, Lcu(t), y);
      TileSame(t, lastTile, 0, y + Lcu(t));
    }
  }

  lemma {:induction false} FirstLeaf(t: Tile, x: nat, y: nat, k: nat)
    ensures Leaves(t, x, y, k) != []
    ensures Leaves(t, x, y, k)[0].x == x && Leaves(t, x, y, k)[0].y == y
    decreases k
  {
    if k > 0 && !Whole(t, x, y, k) {
      FirstLeaf(t, x, y, k - 1);
    }
  }

  /** What the encoder writes is the standard's syntax with the standard's contexts exactly when the tile is
      at least one coding tree block wide and high and such a block is larger than the minimum. */
  lemma WrittenIsStandardIff(t: Tile, lastTile: bool)
    requires 0 < t.w && 0 < t.h
    ensures TileOps(Written, t, lastTile) == TileOps(Standard, t, lastTile)
       <==> Lcu(t) <= t.w && Lcu(t) <= t.h && t.log2 > 0
  {
    if Lcu(t) <= t.w && Lcu(t) <= t.h && t.log2 > 0 {
      TileSame(t, lastTile, 0, 0);
    } else {
      FirstCu(Standard, t, lastTile);
      FirstCu(Written, t, lastTile);
      var leaf := Leaves(t, 0, 0, t.log2)[0];
      var i := if leaf.log2 > 0 then 1 else 0;
      assert Cu(Standard, t, leaf)[i] == Decision(CU_SKIP_FLAG, 1);
      assert Cu(Written, t, leaf)[i] != Decision(CU_SKIP_FLAG, 1);
    }
  }

  /** A tile starts with the coding unit at its corner. */
  lemma FirstCu(rule: Rule, t: Tile, lastTile: bool)
    requires 0 < t.w && 0 < t.h
    ensures var leaves := Leaves(t, 0, 0, t.log2);
            && leaves != [] && leaves[0].x == leaves[0].y == 0
            && Cu(rule, t, leaves[0]) <= TileOps(rule, t, lastTile)
  {
    FirstLeaf(t, 0, 0, t.log2);
    var leaves := Leaves(t, 0, 0, t.log2);
    assert Cu(rule, t, leaves[0]) <= Cus(rule, t, leaves);
    assert Cus(rule, t, leaves) <= LcuOps(rule, t, lastTile, 0, 0);
    assert LcuOps(rule, t, lastTile, 0, 0) <= TileOps(rule, t, lastTile);
  }

  /** A tile one minimum block wide, in a picture whose coding tree blocks are twice as large: its two coding
      units are coded as if they had a left neighbour. */
  lemma NarrowTileIsNotStandard()
    ensures var t := Tile(1, 2, 1);
      && TileOps(Written, t, true)
         == [Decision(CU_SKIP_FLAG + 1, 1), Decision(MERGE_IDX, 0), Decision(CU_SKIP_FLAG + 2, 1),
             Decision(MERGE_IDX, 0), Terminate(1)]
      && TileOps(Standard, t, true)
         == [Decision(CU_SKIP_FLAG, 1), Decision(MERGE_IDX, 0), Decision(CU_SKIP_FLAG + 1, 1),
             Decision(MERGE_IDX, 0), Terminate(1)]
  {
  }
}
