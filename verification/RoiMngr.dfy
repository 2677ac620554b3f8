/** The list of regions of interest of exe_encoder/ROIMngr.cpp, in order of increasing priority. */
module RoiMngr {

  const MASK_QP := 63
  const MASK_FORCE_INTRA := 64
  const AL_ROI_QUALITY_INTRA := MASK_FORCE_INTRA

  datatype Order = IncomingOrder | QualityOrder

  /** Sign extension of the six low-order bits. */
  function ExtendSign(v: int): (r: int)
    ensures -32 <= r < 32 && r % 64 == v % 64
  {
    if v % 64 >= 32 then v % 64 - 64 else v % 64
  }

  function NewDeltaQP(eQuality: int): (v: int)
    ensures IsDeltaQP(v)
  {
    if eQuality == AL_ROI_QUALITY_INTRA then MASK_FORCE_INTRA else ExtendSign(eQuality) % 64
  }

  predicate IsDeltaQP(v: int) { 0 <= v <= MASK_QP || v == MASK_FORCE_INTRA }
  predicate ForcedIntra(v: int) { v / 64 % 2 == 1 }
  function DQp(v: int): int { ExtendSign(v) }

  predicate ShouldInsertAfter(iCurrentQP: int, iQPToInsert: int)
  {
    ForcedIntra(iQPToInsert) || DQp(iCurrentQP) > DQp(iQPToInsert)
  }

  /** A quality that fits six bits is stored without loss. */
  lemma DeltaQPOfQuality(eQuality: int)
    requires -32 <= eQuality < 32
    ensures DQp(NewDeltaQP(eQuality)) == eQuality && !ForcedIntra(NewDeltaQP(eQuality))
  {
  }

  /** The intra quality is not stored as a difference: it forces intra coding and has the medium priority 0; no other
      quality does. */
  lemma OnlyIntraForcesIntra(eQuality: int)
    ensures ForcedIntra(NewDeltaQP(eQuality)) <==> eQuality == 0x40
    ensures eQuality == 0x40 ==> DQp(NewDeltaQP(eQuality)) == 0
    ensures eQuality != 0x40 ==> DQp(NewDeltaQP(eQuality)) == ExtendSign(eQuality)
  {
  }

  // ---- Priorities ----

  /** Where a value goes among those already there. */
  function Place(qps: seq<int>, q: int): (k: nat)
    ensures k <= |qps|
    ensures forall i :: 0 <= i < k ==> ShouldInsertAfter(qps[i], q)
    ensures k < |qps| ==> !ShouldInsertAfter(qps[k], q)
  {
    if qps == [] || !ShouldInsertAfter(qps[0], q) then 0 else 1 + Place(qps[1..], q)
  }

  /** A forced-intra region goes to the end; any other one in front of the first that is of no lower quality, so also
      in front of those of its own quality. */
  lemma PlaceOfQuality(qps: seq<int>, q: int)
    ensures ForcedIntra(q) ==> Place(qps, q) == |qps|
    ensures !ForcedIntra(q) ==>
              var k := Place(qps, q);
              (forall i :: 0 <= i < k ==> DQp(qps[i]) > DQp(q)) && (k < |qps| ==> DQp(qps[k]) <= DQp(q))
  {
    hide Place;
  }

  function Inserted(qps: seq<int>, q: int): seq<int>
  {
    var k := Place(qps, q);
    qps[..k] + [q] + qps[k..]
  }

  /** Regions are painted in list order, so the best quality must come last. */
  predicate NonIncreasing(qps: seq<int>)
  {
    forall i, j :: 0 <= i < j < |qps| && !ForcedIntra(qps[i]) && !ForcedIntra(qps[j]) ==> DQp(qps[i]) >= DQp(qps[j])
  }

  /** What keeps it so: nothing but better-than-medium regions ever follows an intra region. */
  predicate BetterAfterIntra(qps: seq<int>)
  {
    forall i, j :: 0 <= i < j < |qps| && ForcedIntra(qps[i]) && !ForcedIntra(qps[j]) ==> DQp(qps[j]) < 0
  }

  predicate Ordered(qps: seq<int>)
  {
    (forall i :: 0 <= i < |qps| ==> IsDeltaQP(qps[i])) && NonIncreasing(qps) && BetterAfterIntra(qps)
  }

  lemma InsertKeepsOrder(qps: seq<int>, q: int)
    requires Ordered(qps) && IsDeltaQP(q)
    ensures Ordered(Inserted(qps, q))
  {
    hide Place;
    var k := Place(qps, q);
    if k < |qps| {
      Behind(qps, q, k);
    }
    var r := Inserted(qps, q);
    forall i | 0 <= i < |r| ensures r[i] == if i < k then qps[i] else if i == k then q else qps[i - 1] {}
  }

  /** Everything from the insertion point on is of no lower quality than the new region. */
  lemma Behind(qps: seq<int>, q: int, k: nat)
    requires Ordered(qps) && k < |qps| && !ShouldInsertAfter(qps[k], q)
    ensures forall j :: k <= j < |qps| && !ForcedIntra(qps[j]) ==> DQp(qps[j]) <= DQp(q)
    ensures !ForcedIntra(q)
  {
    forall j | k <= j < |qps| && !ForcedIntra(qps[j]) ensures DQp(qps[j]) <= DQp(q) {
      if ForcedIntra(qps[k]) {
        assert DQp(qps[k]) == 0 && (j > k ==> DQp(qps[j]) < 0);
      }
    }
  }

  function Build(qps: seq<int>): seq<int>
  {
    if qps == [] then [] else Inserted(Build(qps[..|qps| - 1]), qps[|qps| - 1])
  }

  /** Whatever is added in whatever order, nothing is lost and the qualities are in order. */
  lemma {:induction false} AnyInsertionsAreOrdered(qps: seq<int>)
    requires forall i :: 0 <= i < |qps| ==> IsDeltaQP(qps[i])
    ensures Ordered(Build(qps)) && multiset(Build(qps)) == multiset(qps)
    decreases |qps|
  {
    if qps != [] {
      hide Place, Ordered;
      var last := |qps| - 1;
      AnyInsertionsAreOrdered(qps[..last]);
      var b := Build(qps[..last]);
      InsertKeepsOrder(b, qps[last]);
      var k := Place(b, qps[last]);
      InsertKeepsAll(b, k, qps[last]);
      assert qps == qps[..last] + [qps[last]];
    }
  }

  lemma InsertKeepsAll(b: seq<int>, k: nat, q: int)
    requires k <= |b|
    ensures multiset(b[..k] + [q] + b[k..]) == multiset(b) + multiset{q}
  {
    assert b == b[..k] + b[k..];
  }

  // ---- The list ----

  class RoiNode {
    var pPrev: RoiNode?
    var pNext: RoiNode?
    const iPosX: nat
    const iPosY: nat
    const iWidth: nat
    const iHeight: nat
    const iDeltaQP: int

    constructor (iPosX: nat, iPosY: nat, iWidth: nat, iHeight: nat, iDeltaQP: int)
      ensures pPrev == null && pNext == null && this.iPosX == iPosX && this.iPosY == iPosY
      ensures this.iWidth == iWidth && this.iHeight == iHeight && this.iDeltaQP == iDeltaQP
    {
      pPrev, pNext := null, null;
      this.iPosX, this.iPosY, this.iWidth, this.iHeight, this.iDeltaQP := iPosX, iPosY, iWidth, iHeight, iDeltaQP;
    }
  }

  function Qps(nodes: seq<RoiNode>): (qps: seq<int>)
    ensures |qps| == |nodes|
  {
    seq(|nodes|, i requires 0 <= i < |nodes| => nodes[i].iDeltaQP)
  }

  function At(nodes: seq<RoiNode>, i: int): RoiNode? { if 0 <= i < |nodes| then nodes[i] else null }

  ghost predicate Distinct(nodes: seq<RoiNode>)
  {
    forall i, j :: 0 <= i < j < |nodes| ==> nodes[i] != nodes[j]
  }

  /** Every node points to its neighbours in the sequence. */
  ghost predicate Chain(nodes: seq<RoiNode>)
    reads nodes
  {
    Distinct(nodes)
    && (forall i {:trigger nodes[i].pPrev} :: 0 <= i < |nodes| ==> nodes[i].pPrev == At(nodes, i - 1))
    && (forall i {:trigger nodes[i].pNext} :: 0 <= i < |nodes| ==> nodes[i].pNext == At(nodes, i + 1))
  }

  /** The same chain with a node put in at `k`, seen from the nodes of the old one. */
  ghost predicate ChainAround(nodes: seq<RoiNode>, k: nat, n: RoiNode)
    reads nodes, n
  {
    Distinct(nodes) && n !in nodes && k <= |nodes|
    && n.pPrev == At(nodes, k - 1) && n.pNext == At(nodes, k)
    && (forall i {:trigger nodes[i].pPrev} :: 0 <= i < |nodes| ==>
          nodes[i].pPrev == if i == k then n else At(nodes, i - 1))
    && (forall i {:trigger nodes[i].pNext} :: 0 <= i < |nodes| ==>
          nodes[i].pNext == if i == k - 1 then n else At(nodes, i + 1))
  }

  lemma ChainWith(nodes: seq<RoiNode>, k: nat, n: RoiNode)
    requires ChainAround(nodes, k, n)
    ensures Chain(nodes[..k] + [n] + nodes[k..])
  {
    var r := nodes[..k] + [n] + nodes[k..];
    assert forall i :: 0 <= i < |r| ==> r[i] == if i < k then nodes[i] else if i == k then n else nodes[i - 1];
    DistinctWith(nodes, k, n);
    hide Distinct;
    forall i | 0 <= i < |r| ensures r[i].pPrev == At(r, i - 1) && r[i].pNext == At(r, i + 1) {
      var j := if i <= k then i else i - 1;
      assert i != k ==> r[i] == nodes[j];
    }
  }

  lemma EndsWith(nodes: seq<RoiNode>, k: nat, n: RoiNode)
    requires k <= |nodes|
    ensures var r := nodes[..k] + [n] + nodes[k..];
      At(r, 0) == (if k == 0 then n else At(nodes, 0))
      && At(r, |r| - 1) == (if k == |nodes| then n else At(nodes, |nodes| - 1))
  {
  }

  lemma DistinctWith(nodes: seq<RoiNode>, k: nat, n: RoiNode)
    requires Distinct(nodes) && n !in nodes && k <= |nodes|
    ensures Distinct(nodes[..k] + [n] + nodes[k..])
  {
  }

  /** `nodes` lists the regions from first to last. */
  class RoiMngrCtx {
    const iPicWidth: nat
    const iPicHeight: nat
    const lcu: nat          // side of an LCU, 1 << uLog2MaxCuSize
    const eOrder: Order
    var pFirstNode: RoiNode?
    var pLastNode: RoiNode?
    ghost var nodes: seq<RoiNode>

    ghost predicate Linked()
      reads this, nodes
    {
      pFirstNode == At(nodes, 0) && pLastNode == At(nodes, |nodes| - 1) && Chain(nodes)
    }

    ghost predicate Valid()
      reads this, nodes
    {
      Linked() && lcu > 0 && (eOrder.QualityOrder? ==> Ordered(Qps(nodes)))
    }

    constructor (iPicWidth: nat, iPicHeight: nat, lcu: nat, eOrder: Order)
      requires lcu > 0
      ensures Valid() && nodes == [] && this.eOrder == eOrder && this.lcu == lcu
      ensures this.iPicWidth == iPicWidth && this.iPicHeight == iPicHeight
    {
      this.iPicWidth, this.iPicHeight, this.lcu, this.eOrder := iPicWidth, iPicHeight, lcu, eOrder;
      pFirstNode, pLastNode, nodes := null, null, [];
    }

    method PushBack(pNode: RoiNode)
      requires Linked() && pNode !in nodes
      modifies this, nodes, pNode
      ensures Linked() && nodes == old(nodes) + [pNode]
    {
      hide At, Chain, Distinct;
      LinkLast(pNode);
      ChainWith(nodes, |nodes|, pNode);
      EndsWith(nodes, |nodes|, pNode);
      assert nodes[..|nodes|] + [pNode] + nodes[|nodes|..] == nodes + [pNode];
      nodes := nodes + [pNode];
    }

    /** The links PushBack changes. */
    method LinkLast(pNode: RoiNode)
      requires Linked() && pNode !in nodes
      modifies this`pFirstNode, this`pLastNode, nodes, pNode
      ensures ChainAround(nodes, |nodes|, pNode)
      ensures pLastNode == pNode && pFirstNode == if nodes == [] then pNode else At(nodes, 0)
    {
      assert nodes != [] ==> pLastNode == nodes[|nodes| - 1];
      assert At(nodes, |nodes|) == null && (nodes == [] ==> At(nodes, -1) == null);
      hide At;
      if pFirstNode != null {
        pNode.pPrev := pLastNode;
        pNode.pNext := null;
        pLastNode.pNext := pNode;
        pLastNode := pNode;
      } else {
        pNode.pPrev := null;
        pNode.pNext := null;
        pLastNode := pNode;
        pFirstNode := pLastNode;
      }
    }

    method Insert(pNode: RoiNode)
      requires Linked() && pNode !in nodes
      modifies this, nodes, pNode
      ensures Linked()
      ensures var k := Place(Qps(old(nodes)), pNode.iDeltaQP);
        nodes == old(nodes)[..k] + [pNode] + old(nodes)[k..]
    {
      hide Place, ShouldInsertAfter;
      var pCur := pFirstNode;
      ghost var i := 0;
      while pCur != null && ShouldInsertAfter(pCur.iDeltaQP, pNode.iDeltaQP)
        invariant i <= |nodes| && pCur == At(nodes, i)
        invariant forall j :: 0 <= j < i ==> ShouldInsertAfter(nodes[j].iDeltaQP, pNode.iDeltaQP)
        decreases |nodes| - i
      {
        pCur := pCur.pNext;
        i := i + 1;
      }
      PlaceIs(Qps(nodes), pNode.iDeltaQP, i);
      if pCur != null {
        InsertBefore(pNode, pCur, i);
      } else {
        assert nodes[i..] == [] && nodes[..i] == nodes;
        PushBack(pNode);
      }
    }

    method InsertBefore(pNode: RoiNode, pCur: RoiNode, ghost i: nat)
      requires Linked() && pNode !in nodes && i < |nodes| && pCur == nodes[i]
      modifies this, nodes, pNode
      ensures Linked() && nodes == old(nodes)[..i] + [pNode] + old(nodes)[i..]
    {
      hide At, Chain, Distinct;
      LinkBefore(pNode, pCur, i);
      ChainWith(nodes, i, pNode);
      EndsWith(nodes, i, pNode);
      nodes := nodes[..i] + [pNode] + nodes[i..];
    }

    /** The links Insert changes when it stops at a node. */
    method LinkBefore(pNode: RoiNode, pCur: RoiNode, ghost i: nat)
      requires Linked() && pNode !in nodes && i < |nodes| && pCur == nodes[i]
      modifies this`pFirstNode, nodes, pNode
      ensures ChainAround(nodes, i, pNode)
      ensures pFirstNode == if i == 0 then pNode else old(pFirstNode)
    {
      assert pCur.pPrev == if i == 0 then null else nodes[i - 1];
      assert At(nodes, i) == nodes[i] && (pCur == pFirstNode <==> i == 0);
      hide At;
      pNode.pPrev := pCur.pPrev;
      pNode.pNext := pCur;
      if pCur.pPrev != null {
        pCur.pPrev.pNext := pNode;
      }
      pCur.pPrev := pNode;
      if pCur == pFirstNode {
        pFirstNode := pNode;
      }
      forall j | 0 <= j < |nodes|
        ensures nodes[j].pPrev == if j == i then pNode else At(nodes, j - 1)
        ensures nodes[j].pNext == if j == i - 1 then pNode else At(nodes, j + 1)
      {
        assert old(nodes[j].pPrev) == At(nodes, j - 1) && old(nodes[j].pNext) == At(nodes, j + 1);
        assert j != i ==> nodes[j] != nodes[i];
        assert i > 0 && j != i - 1 ==> nodes[j] != nodes[i - 1];
      }
    }

    /** Frees every node once. */
    method Clear() returns (ghost freed: seq<RoiNode>)
      requires Valid()
      modifies this
      ensures Valid() && nodes == [] && freed == old(nodes)
    {
      freed := [];
      var pCur := pFirstNode;
      while pCur != null
        invariant |freed| <= |nodes| && freed == nodes[..|freed|] && pCur == At(nodes, |freed|)
        decreases |nodes| - |freed|
      {
        var pNext := pCur.pNext;
        freed := freed + [pCur];   // Rtos_Free
        pCur := pNext;
      }
      pFirstNode := null;
      pLastNode := null;
      nodes := [];
    }

    /** Adds a region that starts inside the picture; `n` is its node. */
    method AddROI(iPosX: nat, iPosY: nat, iWidth: nat, iHeight: nat, eQuality: int)
      returns (added: bool, ghost n: RoiNode?)
      requires Valid()
      modifies this, nodes
      ensures Valid() && added == (iPosX < iPicWidth && iPosY < iPicHeight)
      ensures !added ==> nodes == old(nodes)
      ensures added ==> n != null && fresh(n) && n.iDeltaQP == NewDeltaQP(eQuality)
                        && (n.iPosX, n.iWidth) == Span(iPosX, iWidth, lcu, iPicWidth)
                        && (n.iPosY, n.iHeight) == Span(iPosY, iHeight, lcu, iPicHeight)
      ensures added && eOrder.IncomingOrder? ==> nodes == old(nodes) + [n]
      ensures added && eOrder.QualityOrder? ==>
                var k := Place(Qps(old(nodes)), NewDeltaQP(eQuality));
                nodes == old(nodes)[..k] + [n] + old(nodes)[k..]
    {
      hide Place, ShouldInsertAfter, NewDeltaQP, Chain, CeilDiv, Ordered, At;
      if iPosX >= iPicWidth || iPosY >= iPicHeight {
        return false, null;
      }
      var (x, w) := Span(iPosX, iWidth, lcu, iPicWidth);
      var (y, h) := Span(iPosY, iHeight, lcu, iPicHeight);
      var pNode := new RoiNode(x, y, w, h, NewDeltaQP(eQuality));
      n := pNode;
      if eOrder.QualityOrder? {
        Insert(pNode);
        InsertKeepsOrder(Qps(old(nodes)), pNode.iDeltaQP);
        QpsWith(old(nodes), Place(Qps(old(nodes)), pNode.iDeltaQP), pNode);
      } else {
        PushBack(pNode);
      }
      added := true;
    }
  }

  lemma QpsWith(nodes: seq<RoiNode>, k: nat, n: RoiNode)
    requires k <= |nodes|
    ensures Qps(nodes[..k] + [n] + nodes[k..]) == Qps(nodes)[..k] + [n.iDeltaQP] + Qps(nodes)[k..]
  {
  }

  lemma {:induction false} PlaceIs(qps: seq<int>, q: int, k: nat)
    requires k <= |qps| && (forall i :: 0 <= i < k ==> ShouldInsertAfter(qps[i], q))
    requires k < |qps| ==> !ShouldInsertAfter(qps[k], q)
    ensures Place(qps, q) == k
    decreases k
  {
    hide ShouldInsertAfter;
    if k > 0 {
      PlaceIs(qps[1..], q, k - 1);
    }
  }

  // ---- One axis of a region ----

  function CeilDiv(v: nat, d: nat): nat requires d > 0 { (v + d - 1) / d }

  /** First LCU and number of LCUs of a region, cut at the edge of the picture. */
  function Span(pos: nat, size: nat, lcu: nat, pic: nat): (r: (nat, nat))
    requires lcu > 0 && pos < pic
    ensures r.0 + r.1 <= CeilDiv(pic, lcu)
  {
    var (p, s, n) := (pos / lcu, CeilDiv(size, lcu), CeilDiv(pic, lcu));
    FirstInside(pos, lcu, pic);
    (p, if p + s > n then n - p else s)
  }

  lemma FirstInside(pos: nat, lcu: nat, pic: nat)
    requires lcu > 0 && pos < pic
    ensures pos / lcu < CeilDiv(pic, lcu)
  {
  }

  predicate InSpan(p: nat, span: (nat, nat), lcu: nat) { span.0 * lcu <= p < (span.0 + span.1) * lcu }

  /** Rounded up: the least number of blocks of this size that are enough. */
  lemma CeilDivIsLeastIff(v: nat, d: nat, n: nat)
    requires d > 0
    ensures v <= n * d <==> CeilDiv(v, d) <= n
  {
    var q := (v + d - 1) / d;
    assert v + d - 1 == d * q + (v + d - 1) % d;
    if q <= n {
      assert q * d <= n * d;
    } else {
      assert (n + 1) * d <= q * d;
    }
  }

  /** The size is rounded up without the part of the first LCU that lies before the region, so the LCUs
      reach its last pixels exactly when that part still fits or the picture ends first. */
  lemma SpanCoversIff(pos: nat, size: nat, lcu: nat, pic: nat)
    requires lcu > 0 && pos < pic && size > 0
    ensures (forall p: nat :: pos <= p < pos + size && p < pic ==> InSpan(p, Span(pos, size, lcu, pic), lcu))
       <==> (pos % lcu + size <= CeilDiv(size, lcu) * lcu || pic <= (pos / lcu + CeilDiv(size, lcu)) * lcu)
  {
    hide CeilDiv;
    var span, x, s, n := Span(pos, size, lcu, pic), pos / lcu, CeilDiv(size, lcu), CeilDiv(pic, lcu);
    CeilDivReaches(pic, lcu);
    assert pos == x * lcu + pos % lcu;
    assert (x + s) * lcu == x * lcu + s * lcu;
    var end := if pos + size < pic then pos + size else pic;
    if x + s > n {
      assert (x + s) * lcu >= n * lcu;
      assert span.0 + span.1 == n;
    } else {
      assert InSpan(end - 1, span, lcu) <==> end <= (x + s) * lcu;
    }
  }

  /** A region of 16 pixels from pixel 10 on, with LCUs of 16: only the first LCU belongs to it, and its pixels
      16 to 25 are left out. */
  lemma SpanMissesPixels()
    ensures Span(10, 16, 16, 64) == (0, 1)
    ensures forall p: nat :: 10 <= p < 10 + 16 ==> (InSpan(p, Span(10, 16, 16, 64), 16) <==> p < 16)
  {
    assert CeilDiv(16, 16) == 1 && CeilDiv(64, 16) == 4;
  }

  lemma CeilDivReaches(v: nat, d: nat)
    requires d > 0
    ensures CeilDiv(v, d) * d >= v
  {
    assert (v + d - 1) == d * ((v + d - 1) / d) + (v + d - 1) % d;
  }
}
