/** The HEVC skipped-picture generator of lib_bitstream/HEVC_SkippedPict.c: its hand-specialised quadtree
    recursions emit exactly the coding_quadtree of the standard. */
module HevcSkipped {
  import opened Bits
  import opened BitStream
  import opened CabacTables
  import opened CabacCoder
  import opened Cabac
  import opened Quadtree

  // `v & m` and `v & (m - 1)` for a power of two m.
  predicate HasBit(v: nat, m: nat) requires m > 0 { v / m % 2 == 1 }
  predicate HasBelow(v: nat, m: nat) requires m > 0 { v % m != 0 }

  /** What is left of `e` once the bit `m` is taken off. */
  function Below(e: nat, m: nat): nat { if e >= m then e - m else e }

  lemma Masks(v: nat, m: nat)
    requires m > 0
    ensures HasBit(v, m) <==> v % (2 * m) >= m
    ensures v % m == Below(v % (2 * m), m)
  {
    var q, e := v / (2 * m), v % (2 * m);
    DivMod(v, 2 * m);
    Double(m, q);
    var b := if e >= m then 1 else 0;
    assert m * (2 * q + b) == 2 * (m * q) + m * b;
    ModUnique(v, m, 2 * q + b, e - m * b);
  }

  // ---- The three ways a block can stick out of the tile ----

  /** Half a block that sticks out on the right by all but `e` columns. */
  function RightHalf(t: Tile, x: nat, y: nat, j: nat, e: nat): seq<Leaf>
  {
    var m := Pow2(j);
    (if e >= m then [Leaf(x, y, j)] else [])
    + (if Below(e, m) != 0 then Leaves(t, if e >= m then x + m else x, y, j) else [])
  }

  lemma RightSplit(t: Tile, x: nat, y: nat, j: nat, e: nat)
    requires 0 < e < 2 * Pow2(j) && t.w == x + e && y + 2 * Pow2(j) <= t.h
    ensures Leaves(t, x, y, j + 1) == RightHalf(t, x, y, j, e) + RightHalf(t, x, y + Pow2(j), j, e)
  {
    hide Pow2, Leaves;
    assert Pow2(j + 1) == 2 * Pow2(j) by { Pow2Double(j); }
    var a, b, c, d := LeavesSplit(t, x, y, j + 1);
    var m := Pow2(j);
    if e >= m {
      LeavesUnsplit(t, x, y, j);
      LeavesUnsplit(t, x, y + m, j);
    }
    assert a + b == RightHalf(t, x, y, j, e);
    assert c + d == RightHalf(t, x, y + m, j, e);
    assert a + b + c + d == (a + b) + (c + d);
  }

  /** A block that sticks out below by all but `e` rows. */
  function BottomParts(t: Tile, x: nat, y: nat, j: nat, e: nat): seq<Leaf>
  {
    var m := Pow2(j);
    var y' := if e >= m then y + m else y;
    (if e >= m then [Leaf(x, y, j), Leaf(x + m, y, j)] else [])
    + (if Below(e, m) != 0 then Leaves(t, x, y', j) + Leaves(t, x + m, y', j) else [])
  }

  lemma BottomSplit(t: Tile, x: nat, y: nat, j: nat, e: nat)
    requires 0 < e < 2 * Pow2(j) && t.h == y + e && x + 2 * Pow2(j) <= t.w
    ensures Leaves(t, x, y, j + 1) == BottomParts(t, x, y, j, e)
  {
    hide Pow2, Leaves;
    assert Pow2(j + 1) == 2 * Pow2(j) by { Pow2Double(j); }
    var a, b, c, d := LeavesSplit(t, x, y, j + 1);
    var m := Pow2(j);
    if e >= m {
      LeavesUnsplit(t, x, y, j);
      LeavesUnsplit(t, x + m, y, j);
      assert a + b == [Leaf(x, y, j), Leaf(x + m, y, j)];
    }
    assert a + b + c + d == (a + b) + (c + d);
  }

  /** A block that sticks out on both sides. */
  function CornerParts(t: Tile, x: nat, y: nat, j: nat, ew: nat, eh: nat): seq<Leaf>
  {
    var m := Pow2(j);
    var x', y' := if ew >= m then x + m else x, if eh >= m then y + m else y;
    (if eh >= m && ew >= m then [Leaf(x, y, j)] else [])
    + (if eh >= m && Below(ew, m) != 0 then Leaves(t, x', y, j) else [])
    + (if Below(eh, m) != 0 && ew >= m then Leaves(t, x, y', j) else [])
    + (if Below(eh, m) != 0 && Below(ew, m) != 0 then Leaves(t, x', y', j) else [])
  }

  lemma CornerSplit(t: Tile, x: nat, y: nat, j: nat, ew: nat, eh: nat)
    requires 0 < ew < 2 * Pow2(j) && t.w == x + ew && 0 < eh < 2 * Pow2(j) && t.h == y + eh
    ensures Leaves(t, x, y, j + 1) == CornerParts(t, x, y, j, ew, eh)
  {
    hide Pow2, Leaves;
    assert Pow2(j + 1) == 2 * Pow2(j) by { Pow2Double(j); }
    var a, b, c, d := LeavesSplit(t, x, y, j + 1);
    if eh >= Pow2(j) && ew >= Pow2(j) {
      LeavesUnsplit(t, x, y, j);
    }
  }

  // ---- Running the coder over leaves ----

  ghost predicate Fits(c: Coder) { Normal(c) && |c.ctxs| == 5 }

  function After(c: Coder, t: Tile, leaves: seq<Leaf>): (d: Coder)
    requires Fits(c)
    ensures Fits(d)
  {
    Run(c, Cus(Written, t, leaves))
  }

  function BinCount(t: Tile, leaves: seq<Leaf>): nat { |Cus(Written, t, leaves)| }

  lemma AfterMore(c: Coder, t: Tile, a: seq<Leaf>, b: seq<Leaf>)
    requires Fits(c)
    ensures After(After(c, t, a), t, b) == After(c, t, a + b)
    ensures BinCount(t, a) + BinCount(t, b) == BinCount(t, a + b)
  {
    CusAppend(Written, t, a, b);
    RunAppend(c, Cus(Written, t, a), Cus(Written, t, b));
  }

  lemma AfterNothing(c: Coder, t: Tile)
    requires Fits(c)
    ensures After(c, t, []) == c && BinCount(t, []) == 0
  {
  }

  /** The neighbours the encoder assumes. */
  predicate LeftAssumed(t: Tile, x: nat) { x > 0 || t.w < Lcu(t) }
  predicate AboveAssumed(t: Tile, y: nat) { y > 0 || t.h < Lcu(t) }

  // ---- The methods ----

  ghost predicate Ready(bs: BitStreamLite, ctx: CabacCtx, pState: array<StateIdx>, pValMPS: array<bit>)
    reads bs, bs.pData, ctx
  {
    ctx.Valid(bs) && pState.Length == pValMPS.Length == 5
  }

  /** Only the number of available neighbours matters; one caller passes the two in the other order. */
  function Count(a: bool, b: bool): nat { (if a then 1 else 0) + (if b then 1 else 0) }

  method WriteSkippedCU(bs: BitStreamLite, ctx: CabacCtx, pState: array<StateIdx>, pValMPS: array<bit>,
                        iAvailA: bool, iAvailB: bool, iSplit: bool, ghost t: Tile, ghost leaf: Leaf)
    returns (uBins: nat)
    requires Ready(bs, ctx, pState, pValMPS)
    requires Count(iAvailA, iAvailB) == Count(LeftAssumed(t, leaf.x), AboveAssumed(t, leaf.y))
    requires iSplit == (leaf.log2 == 0 && t.log2 > 0)
    modifies bs, bs.pData, ctx, pState, pValMPS
    ensures Ready(bs, ctx, pState, pValMPS) && bs.pData == old(bs.pData)
    ensures ctx.View(pState, pValMPS) == After(old(ctx.View(pState, pValMPS)), t, [leaf])
    ensures uBins == BinCount(t, [leaf])
  {
    hide Step, Val, Shl, Pow2, ExactLow, Holds, Cus, BitsOf, Padding;
    ghost var start := ctx.View(pState, pValMPS);
    ghost var ops: seq<Op> := [];
    uBins := 0;
    // split_cu_flag
    if !iSplit {
      ctx.WriteBin(bs, pState, pValMPS, 0, 0);
      RunMore(start, ops, Decision(0, 0));
      ops := ops + [Decision(0, 0)];
      uBins := uBins + 1;
    }
    // cu_skip_flag
    var iCtx := 1;
    if iAvailA {
      iCtx := iCtx + 1;
    }
    if iAvailB {
      iCtx := iCtx + 1;
    }
    ctx.WriteBin(bs, pState, pValMPS, iCtx, 1);
    RunMore(start, ops, Decision(iCtx, 1));
    ops := ops + [Decision(iCtx, 1)];
    uBins := uBins + 1;
    // merge_idx
    ctx.WriteBin(bs, pState, pValMPS, 4, 0);
    RunMore(start, ops, Decision(4, 0));
    ops := ops + [Decision(4, 0)];
    uBins := uBins + 1;
    assert ops == Cu(Written, t, leaf);
    CusOne(Written, t, leaf);
  }

  lemma RunMore(c: Coder, ops: seq<Op>, op: Op)
    requires Normal(c) && Known(ops, |c.ctxs|) && Known([op], |c.ctxs|)
    ensures Known(ops + [op], |c.ctxs|)
    ensures Run(c, ops + [op]) == Step(Run(c, ops), op)
  {
    RunAppend(c, ops, [op]);
    RunOne(Run(c, ops), op);
  }

  /** The smallest mask is 1; any other one is twice a mask, and `v & (2m - 1)` does not depend on higher bits. */
  lemma SmallestMask(j: nat)
    ensures Pow2(j) == 1 <==> j == 0
    ensures j > 0 ==> Pow2(j) == 2 * Pow2(j - 1)
  {
  }

  /** A block sticking out on the right; `iMod` modulo twice the mask is how many of its columns are inside. */
  method WriteSkippedCuRight(bs: BitStreamLite, ctx: CabacCtx, pState: array<StateIdx>, pValMPS: array<bit>,
                             iAvailB: bool, iMod: nat, iMsk: nat,
                             ghost t: Tile, ghost x: nat, ghost y: nat, ghost j: nat)
    returns (uBins: nat)
    requires Ready(bs, ctx, pState, pValMPS)
    requires iMsk == Pow2(j) && t.w == x + iMod % (2 * iMsk) && t.w > x && y + 2 * iMsk <= t.h && t.log2 > 0
    requires LeftAssumed(t, x) && iAvailB == AboveAssumed(t, y)
    modifies bs, bs.pData, ctx, pState, pValMPS
    ensures Ready(bs, ctx, pState, pValMPS) && bs.pData == old(bs.pData)
    ensures ctx.View(pState, pValMPS) == After(old(ctx.View(pState, pValMPS)), t, Leaves(t, x, y, j + 1))
    ensures uBins == BinCount(t, Leaves(t, x, y, j + 1))
    decreases j
  {
    hide Run, Leaves, Cus, Val, Shl, Pow2, ExactLow, Holds, ContextsOf, After, BinCount, SkippedCu;
    ghost var c := ctx.View(pState, pValMPS);
    ghost var e := iMod % (2 * iMsk);
    ghost var x' := if e >= iMsk then x + iMsk else x;
    ghost var done: seq<Leaf> := [];
    AfterNothing(c, t);
    RightSplit(t, x, y, j, e);
    Masks(iMod, iMsk);
    SmallestMask(j);
    uBins := 0;
    var n: nat;
    if iMsk == 1 {
      n := WriteSkippedCU(bs, ctx, pState, pValMPS, true, iAvailB, true, t, Leaf(x, y, 0));
      uBins := uBins + n;
      AfterMore(c, t, done, [Leaf(x, y, 0)]);
      done := done + [Leaf(x, y, 0)];
      n := WriteSkippedCU(bs, ctx, pState, pValMPS, true, true, true, t, Leaf(x, y + 1, 0));
      uBins := uBins + n;
      AfterMore(c, t, done, [Leaf(x, y + 1, 0)]);
      assert done + [Leaf(x, y + 1, 0)] == RightHalf(t, x, y, j, e) + RightHalf(t, x, y + 1, j, e);
      return;
    }
    if HasBit(iMod, iMsk) {
      n := WriteSkippedCU(bs, ctx, pState, pValMPS, true, iAvailB, false, t, Leaf(x, y, j));
      uBins := uBins + n;
      AfterMore(c, t, done, [Leaf(x, y, j)]);
      done := done + [Leaf(x, y, j)];
    }
    if HasBelow(iMod, iMsk) {
      n := WriteSkippedCuRight(bs, ctx, pState, pValMPS, iAvailB, iMod, iMsk / 2, t, x', y, j - 1);
      uBins := uBins + n;
      AfterMore(c, t, done, Leaves(t, x', y, j));
      done := done + Leaves(t, x', y, j);
    }
    assert done == RightHalf(t, x, y, j, e);
    ghost var half := done;
    if HasBit(iMod, iMsk) {
      n := WriteSkippedCU(bs, ctx, pState, pValMPS, true, true, false, t, Leaf(x, y + iMsk, j));
      uBins := uBins + n;
      AfterMore(c, t, done, [Leaf(x, y + iMsk, j)]);
      done := done + [Leaf(x, y + iMsk, j)];
    }
    if HasBelow(iMod, iMsk) {
      n := WriteSkippedCuRight(bs, ctx, pState, pValMPS, true, iMod, iMsk / 2, t, x', y + iMsk, j - 1);
      uBins := uBins + n;
      AfterMore(c, t, done, Leaves(t, x', y + iMsk, j));
      done := done + Leaves(t, x', y + iMsk, j);
    }
    assert done == half + RightHalf(t, x, y + iMsk, j, e);
  }

  /** A block sticking out below. */
  method WriteSkippedCuBottom(bs: BitStreamLite, ctx: CabacCtx, pState: array<StateIdx>, pValMPS: array<bit>,
                              iAvailA: bool, iMod: nat, iMsk: nat,
                              ghost t: Tile, ghost x: nat, ghost y: nat, ghost j: nat)
    returns (uBins: nat)
    requires Ready(bs, ctx, pState, pValMPS)
    requires iMsk == Pow2(j) && t.h == y + iMod % (2 * iMsk) && t.h > y && x + 2 * iMsk <= t.w && t.log2 > 0
    requires iAvailA == LeftAssumed(t, x) && AboveAssumed(t, y)
    modifies bs, bs.pData, ctx, pState, pValMPS
    ensures Ready(bs, ctx, pState, pValMPS) && bs.pData == old(bs.pData)
    ensures ctx.View(pState, pValMPS) == After(old(ctx.View(pState, pValMPS)), t, Leaves(t, x, y, j + 1))
    ensures uBins == BinCount(t, Leaves(t, x, y, j + 1))
    decreases j
  {
    hide Run, Leaves, Cus, Val, Shl, Pow2, ExactLow, Holds, ContextsOf, After, BinCount, SkippedCu;
    ghost var c := ctx.View(pState, pValMPS);
    ghost var e := iMod % (2 * iMsk);
    ghost var y' := if e >= iMsk then y + iMsk else y;
    ghost var done: seq<Leaf> := [];
    AfterNothing(c, t);
    BottomSplit(t, x, y, j, e);
    Masks(iMod, iMsk);
    SmallestMask(j);
    uBins := 0;
    var n: nat;
    if iMsk == 1 {
      n := WriteSkippedCU(bs, ctx, pState, pValMPS, iAvailA, true, true, t, Leaf(x, y, 0));
      uBins := uBins + n;
      AfterMore(c, t, done, [Leaf(x, y, 0)]);
      done := done + [Leaf(x, y, 0)];
      n := WriteSkippedCU(bs, ctx, pState, pValMPS, true, true, true, t, Leaf(x + 1, y, 0));
      uBins := uBins + n;
      AfterMore(c, t, done, [Leaf(x + 1, y, 0)]);
      assert done + [Leaf(x + 1, y, 0)] == BottomParts(t, x, y, j, e);
      return;
    }
    if HasBit(iMod, iMsk) {
      n := WriteSkippedCU(bs, ctx, pState, pValMPS, iAvailA, true, false, t, Leaf(x, y, j));
      uBins := uBins + n;
      AfterMore(c, t, done, [Leaf(x, y, j)]);
      done := done + [Leaf(x, y, j)];
      n := WriteSkippedCU(bs, ctx, pState, pValMPS, true, true, false, t, Leaf(x + iMsk, y, j));
      uBins := uBins + n;
      AfterMore(c, t, done, [Leaf(x + iMsk, y, j)]);
      done := done + [Leaf(x + iMsk, y, j)];
    }
    if HasBelow(iMod, iMsk) {
      n := WriteSkippedCuBottom(bs, ctx, pState, pValMPS, iAvailA, iMod, iMsk / 2, t, x, y', j - 1);
      uBins := uBins + n;
      AfterMore(c, t, done, Leaves(t, x, y', j));
      done := done + Leaves(t, x, y', j);
      n := WriteSkippedCuBottom(bs, ctx, pState, pValMPS, true, iMod, iMsk / 2, t, x + iMsk, y', j - 1);
      uBins := uBins + n;
      AfterMore(c, t, done, Leaves(t, x + iMsk, y', j));
      done := done + Leaves(t, x + iMsk, y', j);
    }
    assert done == BottomParts(t, x, y, j, e);
  }

  /** A block sticking out on both sides. */
  method WriteSkippedCuBotRight(bs: BitStreamLite, ctx: CabacCtx, pState: array<StateIdx>, pValMPS: array<bit>,
                                iModW: nat, iModH: nat, iMsk: nat,
                                ghost t: Tile, ghost x: nat, ghost y: nat, ghost j: nat)
    returns (uBins: nat)
    requires Ready(bs, ctx, pState, pValMPS)
    requires iMsk == Pow2(j) && t.log2 > 0
    requires t.w == x + iModW % (2 * iMsk) && t.w > x && t.h == y + iModH % (2 * iMsk) && t.h > y
    requires LeftAssumed(t, x) && AboveAssumed(t, y)
    modifies bs, bs.pData, ctx, pState, pValMPS
    ensures Ready(bs, ctx, pState, pValMPS) && bs.pData == old(bs.pData)
    ensures ctx.View(pState, pValMPS) == After(old(ctx.View(pState, pValMPS)), t, Leaves(t, x, y, j + 1))
    ensures uBins == BinCount(t, Leaves(t, x, y, j + 1))
    decreases j
  {
    hide Run, Leaves, Cus, Val, Shl, Pow2, ExactLow, Holds, ContextsOf, After, BinCount, SkippedCu;
    ghost var c := ctx.View(pState, pValMPS);
    ghost var ew, eh := iModW % (2 * iMsk), iModH % (2 * iMsk);
    ghost var x', y' := if ew >= iMsk then x + iMsk else x, if eh >= iMsk then y + iMsk else y;
    ghost var done: seq<Leaf> := [];
    AfterNothing(c, t);
    CornerSplit(t, x, y, j, ew, eh);
    Masks(iModW, iMsk);
    Masks(iModH, iMsk);
    SmallestMask(j);
    if iMsk == 1 {
      uBins := WriteSkippedCU(bs, ctx, pState, pValMPS, true, true, true, t, Leaf(x, y, 0));
      assert [Leaf(x, y, 0)] == CornerParts(t, x, y, j, ew, eh);
      return;
    }
    uBins := 0;
    var n: nat;
    if HasBit(iModH, iMsk) {
      if HasBit(iModW, iMsk) {
        n := WriteSkippedCU(bs, ctx, pState, pValMPS, true, true, false, t, Leaf(x, y, j));
        uBins := uBins + n;
        AfterMore(c, t, done, [Leaf(x, y, j)]);
        done := done + [Leaf(x, y, j)];
      }
      if HasBelow(iModW, iMsk) {
        n := WriteSkippedCuRight(bs, ctx, pState, pValMPS, true, iModW, iMsk / 2, t, x', y, j - 1);
        uBins := uBins + n;
        AfterMore(c, t, done, Leaves(t, x', y, j));
        done := done + Leaves(t, x', y, j);
      }
    }
    if HasBelow(iModH, iMsk) {
      if HasBit(iModW, iMsk) {
        n := WriteSkippedCuBottom(bs, ctx, pState, pValMPS, true, iModH, iMsk / 2, t, x, y', j - 1);
        uBins := uBins + n;
        AfterMore(c, t, done, Leaves(t, x, y', j));
        done := done + Leaves(t, x, y', j);
      }
      if HasBelow(iModW, iMsk) {
        n := WriteSkippedCuBotRight(bs, ctx, pState, pValMPS, iModW, iModH, iMsk / 2, t, x', y', j - 1);
        uBins := uBins + n;
        AfterMore(c, t, done, Leaves(t, x', y', j));
        done := done + Leaves(t, x', y', j);
      }
    }
    assert done == CornerParts(t, x, y, j, ew, eh);
  }
}
