/** Rate levels of the two-pass encoder: ComputeComplexity of exe_encoder/TwoPassMngr.cpp. */
module TwoPassMngr {
  import opened Basics
  import opened Bits

  const SEQUENCE_SIZE_MAX := 1000

  /** `sceneNext` stands for a scene change announced for the next frame. */
  datatype Frame = Frame(iPictureSize: nat, sceneNext: bool, iComplexity: int, iTargetLevel: int)

  datatype Outcome = Done | Failed

  // ---- Runs of frames ----

  /** Length of the run that starts at `i`, of which `len` frames are known to belong to it. */
  function Extend(f: seq<Frame>, gop: nat, i: nat, len: nat): (r: nat)
    requires i + len <= |f| && len <= gop
    ensures len <= r <= gop && i + r <= |f|
    ensures len < gop && i + len < |f| ==> r > len
    ensures forall k :: i + len <= k < i + r - 1 ==> !f[k].sceneNext
    ensures r == gop || i + r == |f| || (r > len && f[i + r - 1].sceneNext)
    decreases |f| - i - len
  {
    if len < gop && i + len < |f| then if f[i + len].sceneNext then len + 1 else Extend(f, gop, i, len + 1)
    else len
  }

  /** A run ends at a scene change, at the size of a group of pictures or at the end. */
  function RunLength(f: seq<Frame>, gop: nat, i: nat): (r: nat)
    requires i < |f| && gop > 0
    ensures 1 <= r <= gop && i + r <= |f|
    ensures forall k :: i <= k < i + r - 1 ==> !f[k].sceneNext
    ensures r == gop || i + r == |f| || f[i + r - 1].sceneNext
  {
    Extend(f, gop, i, 0)
  }

  /** Start of the run frame `j` belongs to, when one starts at `i`. */
  function Start(f: seq<Frame>, gop: nat, i: nat, j: nat): (s: nat)
    requires i <= j < |f| && gop > 0
    ensures i <= s <= j && j < s + RunLength(f, gop, s)
    decreases |f| - i
  {
    if j < i + RunLength(f, gop, i) then i else Start(f, gop, i + RunLength(f, gop, i), j)
  }

  /** Frames of one run have the same start. */
  lemma {:induction false} SameStart(f: seq<Frame>, gop: nat, i: nat, j: nat, k: nat)
    requires i <= j < |f| && gop > 0
    requires Start(f, gop, i, j) <= k < Start(f, gop, i, j) + RunLength(f, gop, Start(f, gop, i, j))
    ensures k < |f| && i <= k && Start(f, gop, i, k) == Start(f, gop, i, j)
    decreases |f| - i
  {
    if j >= i + RunLength(f, gop, i) {
      SameStart(f, gop, i + RunLength(f, gop, i), j, k);
    }
  }

  function SumSizes(f: seq<Frame>, i: nat, len: nat): nat
    requires i + len <= |f|
    decreases len
  {
    if len == 0 then 0 else SumSizes(f, i, len - 1) + f[i + len - 1].iPictureSize
  }

  /** Mean picture size of the run that starts at `i`. */
  function RunMean(f: seq<Frame>, gop: nat, i: nat): nat
    requires i < |f| && gop > 0
  {
    SumSizes(f, i, RunLength(f, gop, i)) / RunLength(f, gop, i)
  }

  function SumMeans(f: seq<Frame>, gop: nat, i: nat): nat
    requires i <= |f| && gop > 0
    decreases |f| - i
  {
    if i == |f| then 0 else RunMean(f, gop, i) + SumMeans(f, gop, i + RunLength(f, gop, i))
  }

  function CountRuns(f: seq<Frame>, gop: nat, i: nat): (n: nat)
    requires i <= |f| && gop > 0
    ensures i < |f| ==> n > 0
    decreases |f| - i
  {
    if i == |f| then 0 else 1 + CountRuns(f, gop, i + RunLength(f, gop, i))
  }

  function MeanComplexity(f: seq<Frame>, gop: nat): nat
    requires f != [] && gop > 0
  {
    SumMeans(f, gop, 0) / CountRuns(f, gop, 0)
  }

  // ---- Scaling ----

  /** How far the frame's run is from the mean, in thousandths. */
  function Relative(f: seq<Frame>, gop: nat, mean: nat, j: nat): int
    requires j < |f| && gop > 0 && mean > 0
  {
    TruncDiv(RunMean(f, gop, Start(f, gop, 0, j)) * 1000, mean) - 1000
  }

  function Relatives(f: seq<Frame>, gop: nat, mean: nat): (rel: seq<int>)
    requires gop > 0 && mean > 0
    ensures |rel| == |f|
  {
    seq(|f|, j requires 0 <= j < |f| => Relative(f, gop, mean, j))
  }

  /** Level of the buffer after `k` frames, from zero and unscaled. */
  function Level(rel: seq<int>, rate: int, k: nat): int
    requires rate != 0 && k <= |rel|
    decreases k
  {
    if k == 0 then 0 else Level(rel, rate, k - 1) - TruncDiv(rel[k - 1], rate)
  }

  function Highest(rel: seq<int>, rate: int, k: nat): int
    requires rate != 0 && k <= |rel|
    decreases k
  {
    if k == 0 then 0 else Max(Highest(rel, rate, k - 1), Level(rel, rate, k))
  }

  function Lowest(rel: seq<int>, rate: int, k: nat): int
    requires rate != 0 && k <= |rel|
    decreases k
  {
    if k == 0 then 0 else Min(Lowest(rel, rate, k - 1), Level(rel, rate, k))
  }

  function Coefficient(iLevelMax: int, iLevelMin: int, iInitialLevel: int, iCpbLevel: int): int
  {
    var c := if iLevelMax > 0 then Min(1000, TruncDiv((iCpbLevel - iInitialLevel) * 1000, iLevelMax)) else 1000;
    if iLevelMin < 0 then Min(c, TruncDiv(-iInitialLevel * 900, iLevelMin)) else c
  }

  lemma {:induction false} WithinExtremes(rel: seq<int>, rate: int, k: nat, n: nat)
    requires rate != 0 && k <= n <= |rel|
    ensures Lowest(rel, rate, n) <= Level(rel, rate, k) <= Highest(rel, rate, n)
    ensures Lowest(rel, rate, n) <= 0 <= Highest(rel, rate, n)
    decreases n
  {
    if n > k {
      WithinExtremes(rel, rate, k, n - 1);
    } else if n > 0 {
      WithinExtremes(rel, rate, 0, n - 1);
    }
  }

  /** Scaled by the coefficient, every level stays between a tenth of the initial level and the size of
      the buffer, and the coefficient never amplifies. */
  lemma ScaledLevelsFit(rel: seq<int>, rate: int, iInitialLevel: int, iCpbLevel: int, k: nat)
    requires rate != 0 && k <= |rel| && 0 <= iInitialLevel <= iCpbLevel
    ensures var c := Coefficient(Highest(rel, rate, |rel|), Lowest(rel, rate, |rel|), iInitialLevel, iCpbLevel);
      0 <= c <= 1000
      && 100 * iInitialLevel <= 1000 * iInitialLevel + c * Level(rel, rate, k) <= 1000 * iCpbLevel
  {
    var hi, lo, l := Highest(rel, rate, |rel|), Lowest(rel, rate, |rel|), Level(rel, rate, k);
    WithinExtremes(rel, rate, k, |rel|);
    hide Level, Highest, Lowest, Coefficient;
    var c := Coefficient(hi, lo, iInitialLevel, iCpbLevel);
    CoefficientFits(hi, lo, iInitialLevel, iCpbLevel);
    ProductFits(c, l, lo, hi, iInitialLevel * 900, (iCpbLevel - iInitialLevel) * 1000);
  }

  /** The coefficient is the largest one: of those that do not amplify, exactly the ones up to it keep every scaled
      level within these limits. */
  lemma CoefficientIsLargestIff(rel: seq<int>, rate: int, iInitialLevel: int, iCpbLevel: int, c: nat)
    requires rate != 0 && 0 <= iInitialLevel <= iCpbLevel && c <= 1000
    ensures (forall k: nat :: k <= |rel| ==>
               100 * iInitialLevel <= 1000 * iInitialLevel + c * Level(rel, rate, k) <= 1000 * iCpbLevel)
       <==> c <= Coefficient(Highest(rel, rate, |rel|), Lowest(rel, rate, |rel|), iInitialLevel, iCpbLevel)
  {
    hide *;
    var hi, lo := Highest(rel, rate, |rel|), Lowest(rel, rate, |rel|);
    WithinExtremes(rel, rate, 0, |rel|);
    if c <= Coefficient(hi, lo, iInitialLevel, iCpbLevel) {
      forall k: nat | k <= |rel|
        ensures 100 * iInitialLevel <= 1000 * iInitialLevel + c * Level(rel, rate, k) <= 1000 * iCpbLevel
      {
        WithinExtremes(rel, rate, k, |rel|);
        SmallerFits(hi, lo, Level(rel, rate, k), iInitialLevel, iCpbLevel, c);
      }
    } else {
      var high, low := ExtremesAreReached(rel, rate, |rel|);
      LargerFails(hi, lo, iInitialLevel, iCpbLevel, c);
      assert c * -lo == -(c * Level(rel, rate, low)) && c * hi == c * Level(rel, rate, high);
    }
  }

  lemma SmallerFits(hi: nat, lo: int, l: int, iInitialLevel: int, iCpbLevel: int, c: nat)
    requires lo <= l <= hi && lo <= 0 <= iInitialLevel <= iCpbLevel
    requires c <= Coefficient(hi, lo, iInitialLevel, iCpbLevel)
    ensures 100 * iInitialLevel <= 1000 * iInitialLevel + c * l <= 1000 * iCpbLevel
  {
    hide *;
    CoefficientFits(hi, lo, iInitialLevel, iCpbLevel);
    var best := Coefficient(hi, lo, iInitialLevel, iCpbLevel);
    if hi > 0 { Below(hi, c, best); }
    if lo < 0 { Below(-lo, c, best); }
    ProductFits(c, l, lo, hi, iInitialLevel * 900, (iCpbLevel - iInitialLevel) * 1000);
  }

  lemma {:induction false} ExtremesAreReached(rel: seq<int>, rate: int, n: nat) returns (high: nat, low: nat)
    requires rate != 0 && n <= |rel|
    ensures high <= n && Level(rel, rate, high) == Highest(rel, rate, n)
    ensures low <= n && Level(rel, rate, low) == Lowest(rel, rate, n)
    decreases n
  {
    hide TruncDiv;
    high, low := 0, 0;
    if n > 0 {
      high, low := ExtremesAreReached(rel, rate, n - 1);
      if Level(rel, rate, n) > Highest(rel, rate, n - 1) { high := n; }
      if Level(rel, rate, n) < Lowest(rel, rate, n - 1) { low := n; }
    }
  }

  /** No larger coefficient fits the extremes. */
  lemma LargerFails(hi: nat, lo: int, iInitialLevel: int, iCpbLevel: int, c: nat)
    requires lo <= 0 <= iInitialLevel <= iCpbLevel && c <= 1000
    requires c > Coefficient(hi, lo, iInitialLevel, iCpbLevel)
    ensures c * hi > (iCpbLevel - iInitialLevel) * 1000 || c * -lo > iInitialLevel * 900
  {
    if hi > 0 { LargerThanQuotient((iCpbLevel - iInitialLevel) * 1000, hi, c); }
    if lo < 0 {
      NegativeQuotient(iInitialLevel * 900, -lo);
      assert -iInitialLevel * 900 == -(iInitialLevel * 900) && -(-lo) == lo;
      LargerThanQuotient(iInitialLevel * 900, -lo, c);
    }
  }

  lemma LargerThanQuotient(a: nat, b: nat, c: nat)
    requires b > 0
    ensures c > a / b ==> c * b > a
    ensures TruncDiv(a, b) == a / b
  {
    if c > a / b {
      assert a == b * (a / b) + a % b;
      Below(b, a / b + 1, c);
      assert b * (a / b + 1) == b * (a / b) + b;
    }
  }

  lemma ProductFits(c: nat, l: int, lo: int, hi: int, down: nat, up: nat)
    requires lo <= l <= hi && lo <= 0 <= hi
    requires (hi > 0 ==> c * hi <= up) && (lo < 0 ==> c * -lo <= down)
    ensures 0 <= c * l + down && c * l <= up
  {
    if l > 0 {
      Below(c, l, hi);
    } else if l < 0 {
      Below(c, -l, -lo);
      assert c * -l == -(c * l);
    }
  }

  lemma CoefficientFits(hi: nat, lo: int, iInitialLevel: int, iCpbLevel: int)
    requires lo <= 0 <= iInitialLevel <= iCpbLevel
    ensures var c := Coefficient(hi, lo, iInitialLevel, iCpbLevel);
      0 <= c <= 1000
      && (hi > 0 ==> c * hi <= (iCpbLevel - iInitialLevel) * 1000) && (lo < 0 ==> c * -lo <= iInitialLevel * 900)
  {
    var c := Coefficient(hi, lo, iInitialLevel, iCpbLevel);
    var up := if hi > 0 then Min(1000, (iCpbLevel - iInitialLevel) * 1000 / hi) else 1000;
    if lo < 0 {
      NegativeQuotient(iInitialLevel * 900, -lo);
      var down := iInitialLevel * 900 / -lo;
      assert -iInitialLevel * 900 == -(iInitialLevel * 900) && -(-lo) == lo;
      assert c == Min(up, down);
    } else {
      assert c == up;
    }
    hide Coefficient, TruncDiv;
    if hi > 0 {
      Quotient((iCpbLevel - iInitialLevel) * 1000, hi, c);
    }
    if lo < 0 {
      Quotient(iInitialLevel * 900, -lo, c);
    }
  }

  lemma NegativeQuotient(a: int, b: int)
    requires a >= 0 && b > 0
    ensures TruncDiv(-a, -b) == a / b
  {
    assert a / -b == -(a / b);
    assert 0 / -b == 0 == 0 / b;
  }

  lemma Quotient(a: nat, b: nat, c: nat)
    requires b > 0 && c <= a / b
    ensures c * b <= a
  {
    assert a == b * (a / b) + a % b;
    assert c * b <= (a / b) * b;
  }

  lemma Below(c: nat, x: nat, y: nat)
    requires x <= y
    ensures c * x <= c * y
  {
  }

  // ---- Target levels ----

  function Scaled(rel: int, c: int): int { TruncDiv(rel * c, 1000) + 1000 }

  /** Level at the run that starts at `s`, from the one at the run that starts at `i`. */
  function RunLevel(f: seq<Frame>, comp: seq<int>, gop: nat, rate: int, level: int, i: nat, s: nat): int
    requires gop > 0 && rate != 0 && |comp| == |f| && i <= |f|
    decreases |f| - i
  {
    if s <= i || i == |f| then level
    else RunLevel(f, comp, gop, rate, level - TruncDiv(RunLength(f, gop, i) * (comp[i] - 1000), rate),
                  i + RunLength(f, gop, i), s)
  }

  /** Target of every frame of the run that starts at `s`: the level a whole group of pictures further. */
  function Target(f: seq<Frame>, comp: seq<int>, gop: nat, rate: int, level: int, s: nat): int
    requires gop > 0 && rate != 0 && |comp| == |f| && s < |f|
  {
    RunLevel(f, comp, gop, rate, level, 0, s) - TruncDiv(gop * (comp[s] - 1000), rate)
  }

  function FinalComplexities(f: seq<Frame>, gop: nat, rate: int, iInitialLevel: int, iCpbLevel: int): (comp: seq<int>)
    requires f != [] && gop > 0 && rate != 0 && MeanComplexity(f, gop) > 0
    ensures |comp| == |f|
  {
    var rel := Relatives(f, gop, MeanComplexity(f, gop));
    var c := Coefficient(Highest(rel, rate, |f|), Lowest(rel, rate, |f|), iInitialLevel, iCpbLevel);
    seq(|f|, j requires 0 <= j < |f| => Scaled(rel[j], c))
  }

  /** The frames after ComputeComplexity. */
  ghost predicate Computed(f: seq<Frame>, now: seq<Frame>, gop: nat, rate: int, iInitialLevel: int, iCpbLevel: int)
    requires f != [] && gop > 0 && rate != 0 && MeanComplexity(f, gop) > 0
  {
    var comp := FinalComplexities(f, gop, rate, iInitialLevel, iCpbLevel);
    |now| == |f| && forall j :: 0 <= j < |f| ==>
      now[j] == f[j].(iComplexity := comp[j], iTargetLevel := Target(f, comp, gop, rate, iInitialLevel, Start(f,
            gop, 0, j)))
  }

  /** All frames of a run get one complexity and one target level. */
  lemma RunsAreUniform(f: seq<Frame>, now: seq<Frame>, gop: nat, rate: int, iInitialLevel: int, iCpbLevel: int,
        j: nat, k: nat)
    requires f != [] && gop > 0 && rate != 0 && MeanComplexity(f, gop) > 0
    requires Computed(f, now, gop, rate, iInitialLevel, iCpbLevel) && j < |f|
    requires Start(f, gop, 0, j) <= k < Start(f, gop, 0, j) + RunLength(f, gop, Start(f, gop, 0, j))
    ensures k < |f| && now[k].iComplexity == now[j].iComplexity && now[k].iTargetLevel == now[j].iTargetLevel
  {
    hide Target, Scaled, Coefficient, Highest, Lowest, MeanComplexity, Start, FinalComplexities, RunLength;
    SameStart(f, gop, 0, j, k);
    SameComplexity(f, gop, rate, iInitialLevel, iCpbLevel, j, k);
  }

  lemma SameComplexity(f: seq<Frame>, gop: nat, rate: int, iInitialLevel: int, iCpbLevel: int, j: nat, k: nat)
    requires f != [] && gop > 0 && rate != 0 && MeanComplexity(f, gop) > 0
    requires j < |f| && k < |f| && Start(f, gop, 0, j) == Start(f, gop, 0, k)
    ensures var comp := FinalComplexities(f, gop, rate, iInitialLevel, iCpbLevel);
      comp[j] == comp[k]
  {
    hide Scaled, Coefficient, Highest, Lowest, MeanComplexity, Start, RunMean, TruncDiv;
    var rel := Relatives(f, gop, MeanComplexity(f, gop));
    assert rel[j] == rel[k];
  }

  // ---- The program ----

  class TwoPassMngr {
    const tFrames: array<Frame>
    const iGopSize: nat
    const iCpbLevel: int
    const iInitialLevel: int
    const iFrameRate: int

    constructor (tFrames: array<Frame>, iGopSize: nat, iCpbLevel: int, iInitialLevel: int, iFrameRate: int)
      ensures this.tFrames == tFrames && this.iGopSize == iGopSize && this.iCpbLevel == iCpbLevel
      ensures this.iInitialLevel == iInitialLevel && this.iFrameRate == iFrameRate
    {
      this.tFrames, this.iGopSize, this.iCpbLevel, this.iInitialLevel, this.iFrameRate :=
        tFrames, iGopSize, iCpbLevel, iInitialLevel, iFrameRate;
    }

    /** From `done` on the frames have the sizes and scene changes given. */
    ghost predicate SameInput(f: seq<Frame>, done: nat)
      reads tFrames
    {
      tFrames.Length == |f|
      && (forall j :: done <= j < |f| ==> tFrames[j].iPictureSize == f[j].iPictureSize)
      && (forall j :: done <= j < |f| ==> tFrames[j].sceneNext == f[j].sceneNext)
    }

    /** The frames are those given, with these complexities and, up to `done`, these target levels. */
    ghost predicate Holds(f: seq<Frame>, comp: seq<int>, target: seq<int>, done: nat)
      reads tFrames
    {
      tFrames.Length == |f| == |comp| == |target| && done <= |f|
      && (forall j :: 0 <= j < done ==> tFrames[j] == f[j].(iComplexity := comp[j], iTargetLevel := target[j]))
      && (forall j :: done <= j < |f| ==> tFrames[j] == f[j].(iComplexity := comp[j]))
    }

    /** Likewise, with new complexities up to `done` and old ones after it. */
    ghost predicate Changed(f: seq<Frame>, before: seq<int>, after: seq<int>, done: nat)
      reads tFrames
    {
      tFrames.Length == |f| == |before| == |after| && done <= |f|
      && (forall j :: 0 <= j < done ==> tFrames[j] == f[j].(iComplexity := after[j]))
      && (forall j :: done <= j < |f| ==> tFrames[j] == f[j].(iComplexity := before[j]))
    }

    method ComputeComplexity() returns (r: Outcome)
      requires iFrameRate != 0
      requires tFrames.Length > 0 && iGopSize > 0 ==> MeanComplexity(tFrames[..], iGopSize) > 0
      modifies tFrames
      ensures r.Failed? <==> tFrames.Length == 0 || tFrames.Length > SEQUENCE_SIZE_MAX || iCpbLevel < iInitialLevel
      ensures r.Failed? || iGopSize == 0 ==> tFrames[..] == old(tFrames[..])
      ensures r.Done? && iGopSize > 0
        ==> Computed(old(tFrames[..]), tFrames[..], iGopSize, iFrameRate, iInitialLevel, iCpbLevel)
    {
      if tFrames.Length == 0 || tFrames.Length > SEQUENCE_SIZE_MAX || iCpbLevel < iInitialLevel {
        return Failed;
      }
      if iGopSize == 0 {
        return Done;
      }
      RunPasses();
      r := Done;
    }

    method RunPasses()
      requires tFrames.Length > 0 && iGopSize > 0 && iFrameRate != 0 && MeanComplexity(tFrames[..], iGopSize) > 0
      modifies tFrames
      ensures Computed(old(tFrames[..]), tFrames[..], iGopSize, iFrameRate, iInitialLevel, iCpbLevel)
    {
      hide MeanComplexity, Relatives, RunMeans, Coefficient, Highest, Lowest, Scaled, Targets, FinalComplexities,
            Changed, Holds, Computed;
      ghost var f := tFrames[..];
      ghost var comp := FinalComplexities(f, iGopSize, iFrameRate, iInitialLevel, iCpbLevel);
      var iMeanComp := AverageRuns(f);
      ghost var rel := Relatives(f, iGopSize, iMeanComp);
      var iCoeff := RelativeLevels(f, iMeanComp);
      AllChanged(f, RunMeans(f, iGopSize), rel);
      ComplexityAt(f, iGopSize, iFrameRate, iInitialLevel, iCpbLevel);
      Scale(f, rel, comp, iCoeff);
      AllChanged(f, rel, comp);
      SetTargets(f, comp);
      HoldsIsComputed(f);
    }

    lemma AllChanged(f: seq<Frame>, before: seq<int>, after: seq<int>)
      requires Changed(f, before, after, |f|)
      ensures tFrames.Length == |f| == |after|
      ensures forall j :: 0 <= j < |f| ==> tFrames[j] == f[j].(iComplexity := after[j])
    {
    }

    lemma HoldsIsComputed(f: seq<Frame>)
      requires f != [] && iGopSize > 0 && iFrameRate != 0 && MeanComplexity(f, iGopSize) > 0
      requires var comp := FinalComplexities(f, iGopSize, iFrameRate, iInitialLevel, iCpbLevel);
        Holds(f, comp, Targets(f, comp, iGopSize, iFrameRate, iInitialLevel), |f|)
      ensures Computed(f, tFrames[..], iGopSize, iFrameRate, iInitialLevel, iCpbLevel)
    {
      hide MeanComplexity, FinalComplexities, Start, Target;
    }

    /** Inner loops: length and total size of the run that starts at `iIndex`. */
    method MeasureRun(ghost f: seq<Frame>, iIndex: nat) returns (iLength: nat, uSumComp: nat)
      requires iIndex < tFrames.Length == |f| && iGopSize > 0
      requires SameInput(f, iIndex)
      ensures iLength == RunLength(f, iGopSize, iIndex) && uSumComp == SumSizes(f, iIndex, iLength)
    {
      hide Extend, SumSizes, RunLength;
      iLength, uSumComp := 0, 0;
      RunStarts(f, iGopSize, iIndex);
      while iLength < iGopSize && iIndex + iLength < tFrames.Length
        invariant iLength <= iGopSize && iIndex + iLength <= tFrames.Length
        invariant Extend(f, iGopSize, iIndex, iLength) == RunLength(f, iGopSize, iIndex)
        invariant uSumComp == SumSizes(f, iIndex, iLength)
      {
        RunGoesOn(f, iGopSize, iIndex, iLength);
        uSumComp := uSumComp + tFrames[iIndex + iLength].iPictureSize;
        iLength := iLength + 1;
        if tFrames[iIndex + iLength - 1].sceneNext {
          return;
        }
      }
      RunEnds(f, iGopSize, iIndex, iLength);
    }

    /** First pass: every frame gets the mean size of its run. */
    method AverageRuns(ghost f: seq<Frame>) returns (iMeanComp: nat)
      requires f == tFrames[..] && f != [] && iGopSize > 0
      modifies tFrames
      ensures iMeanComp == MeanComplexity(f, iGopSize)
      ensures Changed(f, Complexities(f), RunMeans(f, iGopSize), |f|)
    {
      hide Start, RunLength, SumMeans, CountRuns, RunMean, RunMeans, Changed, SumSizes, TruncDiv, Min, Max;
      NothingChanged(f);
      var uSumCompGops, iIndex, iNbGop := 0, 0, 0;
      while iIndex < tFrames.Length
        invariant iIndex <= |f| && Changed(f, Complexities(f), RunMeans(f, iGopSize), iIndex)
        invariant uSumCompGops + SumMeans(f, iGopSize, iIndex) == SumMeans(f, iGopSize, 0)
        invariant iNbGop + CountRuns(f, iGopSize, iIndex) == CountRuns(f, iGopSize, 0)
        invariant forall j :: iIndex <= j < |f| ==> Start(f, iGopSize, 0, j) == Start(f, iGopSize, iIndex, j)
      {
        UnchangedFrames(f, Complexities(f), RunMeans(f, iGopSize), iIndex);
        var iLength, uSumComp := MeasureRun(f, iIndex);
        NextRun(f, iGopSize, iIndex);
        var iComp := uSumComp / iLength;
        MeansOfRun(f, iGopSize, iIndex);
        FillComplexity(f, RunMeans(f, iGopSize), iIndex, iLength, iComp);
        uSumCompGops := uSumCompGops + iComp;
        iNbGop := iNbGop + 1;
        iIndex := iIndex + iLength;
      }
      NoRunLeft(f, iGopSize);
      iMeanComp := uSumCompGops / iNbGop;
    }

    lemma NothingChanged(f: seq<Frame>)
      requires f == tFrames[..] && iGopSize > 0
      ensures Changed(f, Complexities(f), RunMeans(f, iGopSize), 0)
    {
      assert forall j :: 0 <= j < |f| ==> f[j] == f[j].(iComplexity := f[j].iComplexity);
    }

    method FillComplexity(ghost f: seq<Frame>, ghost after: seq<int>, iIndex: nat, iLength: nat, iComp: int)
      requires Changed(f, Complexities(f), after, iIndex) && iIndex + iLength <= |f|
      requires forall k :: iIndex <= k < iIndex + iLength ==> after[k] == iComp
      modifies tFrames
      ensures Changed(f, Complexities(f), after, iIndex + iLength)
    {
      for k := 0 to iLength
        invariant Changed(f, Complexities(f), after, iIndex + k)
      {
        tFrames[iIndex + k] := tFrames[iIndex + k].(iComplexity := iComp);
      }
    }

    /** Second pass: complexities relative to the mean, and the coefficient. */
    method RelativeLevels(ghost f: seq<Frame>, iMeanComp: nat) returns (iCoeff: int)
      requires iFrameRate != 0 && iGopSize > 0 && iMeanComp > 0
      requires Changed(f, Complexities(f), RunMeans(f, iGopSize), |f|)
      modifies tFrames
      ensures var rel := Relatives(f, iGopSize, iMeanComp);
        Changed(f, RunMeans(f, iGopSize), rel, |f|)
        && iCoeff == Coefficient(Highest(rel, iFrameRate, |f|), Lowest(rel, iFrameRate, |f|), iInitialLevel, iCpbLevel)
    {
      hide Relatives, RunMeans, TruncDiv, Level, Highest, Lowest;
      ghost var rel := Relatives(f, iGopSize, iMeanComp);
      var iLevel, iLevelMax, iLevelMin := 0, 0, 0;
      var iLimitMin := -iInitialLevel;
      var iLimitMax := iCpbLevel - iInitialLevel;
      NextExtremes(rel, iFrameRate, 0);
      for i := 0 to tFrames.Length
        invariant Changed(f, RunMeans(f, iGopSize), rel, i)
        invariant iLevel == Level(rel, iFrameRate, i)
        invariant iLevelMax == Highest(rel, iFrameRate, i) && iLevelMin == Lowest(rel, iFrameRate, i)
      {
        RelativeAt(f, iGopSize, iMeanComp, i);
        NextExtremes(rel, iFrameRate, i + 1);
        tFrames[i] := tFrames[i].(iComplexity := TruncDiv(tFrames[i].iComplexity * 1000, iMeanComp) - 1000);
        iLevel := iLevel - TruncDiv(tFrames[i].iComplexity, iFrameRate);
        iLevelMax := Max(iLevelMax, iLevel);
        iLevelMin := Min(iLevelMin, iLevel);
      }
      iCoeff := 1000;
      if iLevelMax > 0 {
        iCoeff := Min(iCoeff, TruncDiv(iLimitMax * 1000, iLevelMax));
      }
      if iLevelMin < 0 {
        iCoeff := Min(iCoeff, TruncDiv(iLimitMin * 900, iLevelMin));
      }
    }

    method Scale(ghost f: seq<Frame>, ghost rel: seq<int>, ghost comp: seq<int>, iCoeff: int)
      requires |rel| == |comp| == |f| == tFrames.Length
      requires forall j :: 0 <= j < |f| ==> tFrames[j] == f[j].(iComplexity := rel[j])
      requires forall j :: 0 <= j < |f| ==> comp[j] == Scaled(rel[j], iCoeff)
      modifies tFrames
      ensures Changed(f, rel, comp, |f|)
    {
      hide TruncDiv;
      for i := 0 to tFrames.Length
        invariant Changed(f, rel, comp, i)
      {
        tFrames[i] := tFrames[i].(iComplexity := TruncDiv(tFrames[i].iComplexity * iCoeff, 1000) + 1000);
      }
    }

    lemma UnchangedFrames(f: seq<Frame>, before: seq<int>, after: seq<int>, done: nat)
      requires Changed(f, before, after, done)
      ensures SameInput(f, done)
    {
    }

    lemma SameFrames(f: seq<Frame>, comp: seq<int>, target: seq<int>, done: nat)
      requires Holds(f, comp, target, done)
      ensures SameInput(f, done)
    {
    }

    lemma HoldsAt(f: seq<Frame>, comp: seq<int>, target: seq<int>, done: nat)
      requires Holds(f, comp, target, done) && done < |f|
      ensures tFrames[done].iComplexity == comp[done]
    {
    }

    lemma NothingTargeted(f: seq<Frame>, comp: seq<int>, target: seq<int>)
      requires tFrames.Length == |f| == |comp| == |target|
      requires forall j :: 0 <= j < |f| ==> tFrames[j] == f[j].(iComplexity := comp[j])
      ensures Holds(f, comp, target, 0)
    {
    }

    method FillTarget(ghost f: seq<Frame>, ghost comp: seq<int>, ghost target: seq<int>, iIndex: nat, iLength: nat,
          iTarget: int)
      requires Holds(f, comp, target, iIndex) && iIndex + iLength <= |f|
      requires forall k :: iIndex <= k < iIndex + iLength ==> target[k] == iTarget
      modifies tFrames
      ensures Holds(f, comp, target, iIndex + iLength)
    {
      for k := 0 to iLength
        invariant Holds(f, comp, target, iIndex + k)
      {
        tFrames[iIndex + k] := tFrames[iIndex + k].(iTargetLevel := iTarget);
      }
    }

    /** Last pass: the runs again, and a target level for each. */
    method SetTargets(ghost f: seq<Frame>, ghost comp: seq<int>)
      requires iFrameRate != 0 && iGopSize > 0 && |comp| == |f| == tFrames.Length
      requires forall j :: 0 <= j < |f| ==> tFrames[j] == f[j].(iComplexity := comp[j])
      modifies tFrames
      ensures Holds(f, comp, Targets(f, comp, iGopSize, iFrameRate, iInitialLevel), |f|)
    {
      hide Start, RunLength, TruncDiv, RunLevel, Holds, Targets;
      ghost var target := Targets(f, comp, iGopSize, iFrameRate, iInitialLevel);
      var iIndex, iLevel := 0, iInitialLevel;
      FirstLevel(f, comp, iGopSize, iFrameRate, iInitialLevel);
      assert Holds(f, comp, target, 0) by { NothingTargeted(f, comp, target); }
      while iIndex < tFrames.Length
        invariant iIndex <= |f| && Holds(f, comp, target, iIndex)
        invariant iLevel == RunLevel(f, comp, iGopSize, iFrameRate, iInitialLevel, 0, iIndex)
        invariant forall j :: iIndex <= j < |f| ==> Start(f, iGopSize, 0, j) == Start(f, iGopSize, iIndex, j)
        invariant forall s :: iIndex <= s ==>
          RunLevel(f, comp, iGopSize, iFrameRate, iInitialLevel, 0, s) == RunLevel(f, comp, iGopSize, iFrameRate,
                iLevel, iIndex, s)
      {
        SameFrames(f, comp, target, iIndex);
        var iLength, _ := MeasureRun(f, iIndex);
        NextRun(f, iGopSize, iIndex);
        NextLevel(f, comp, iGopSize, iFrameRate, iLevel, iIndex);
        HoldsAt(f, comp, target, iIndex);
        var iTarget := iLevel - TruncDiv(iGopSize * (tFrames[iIndex].iComplexity - 1000), iFrameRate);
        iLevel := iLevel - TruncDiv(iLength * (tFrames[iIndex].iComplexity - 1000), iFrameRate);
        forall k | iIndex <= k < iIndex + iLength ensures target[k] == iTarget {
          TargetAt(f, comp, iGopSize, iFrameRate, iInitialLevel, k);
        }
        FillTarget(f, comp, target, iIndex, iLength, iTarget);
        iIndex := iIndex + iLength;
      }
    }
  }

  lemma RunMeanAt(f: seq<Frame>, gop: nat, j: nat)
    requires gop > 0 && j < |f|
    ensures RunMeans(f, gop)[j] == RunMean(f, gop, Start(f, gop, 0, j))
  {
  }

  lemma ComplexityAt(f: seq<Frame>, gop: nat, rate: int, iInitialLevel: int, iCpbLevel: int)
    requires f != [] && gop > 0 && rate != 0 && MeanComplexity(f, gop) > 0
    ensures var rel := Relatives(f, gop, MeanComplexity(f, gop));
      var c := Coefficient(Highest(rel, rate, |f|), Lowest(rel, rate, |f|), iInitialLevel, iCpbLevel);
      forall j :: 0 <= j < |f| ==> FinalComplexities(f, gop, rate, iInitialLevel, iCpbLevel)[j] == Scaled(rel[j], c)
  {
    hide Relatives, MeanComplexity, Coefficient, Highest, Lowest, Scaled;
  }

  lemma RelativeAt(f: seq<Frame>, gop: nat, mean: nat, j: nat)
    requires gop > 0 && mean > 0 && j < |f|
    ensures Relatives(f, gop, mean)[j] == TruncDiv(RunMeans(f, gop)[j] * 1000, mean) - 1000
  {
    hide TruncDiv, RunMean, Start;
  }

  lemma NextExtremes(rel: seq<int>, rate: int, k: nat)
    requires rate != 0 && k <= |rel|
    ensures k == 0 ==> Level(rel, rate, k) == Highest(rel, rate, k) == Lowest(rel, rate, k) == 0
    ensures k > 0 ==> Level(rel, rate, k) == Level(rel, rate, k - 1) - TruncDiv(rel[k - 1], rate)
                      && Highest(rel, rate, k) == Max(Highest(rel, rate, k - 1), Level(rel, rate, k))
                      && Lowest(rel, rate, k) == Min(Lowest(rel, rate, k - 1), Level(rel, rate, k))
  {
    hide TruncDiv;
  }

  lemma TargetAt(f: seq<Frame>, comp: seq<int>, gop: nat, rate: int, level: int, j: nat)
    requires gop > 0 && rate != 0 && |comp| == |f| && j < |f|
    ensures Targets(f, comp, gop, rate, level)[j] == Target(f, comp, gop, rate, level, Start(f, gop, 0, j))
  {
    hide Target, Start;
  }

  function Complexities(f: seq<Frame>): (c: seq<int>)
    ensures |c| == |f|
  {
    seq(|f|, j requires 0 <= j < |f| => f[j].iComplexity)
  }

  function RunMeans(f: seq<Frame>, gop: nat): (c: seq<int>)
    requires gop > 0
    ensures |c| == |f|
  {
    seq(|f|, j requires 0 <= j < |f| => RunMean(f, gop, Start(f, gop, 0, j)))
  }

  function Targets(f: seq<Frame>, comp: seq<int>, gop: nat, rate: int, level: int): (t: seq<int>)
    requires gop > 0 && rate != 0 && |comp| == |f|
    ensures |t| == |f|
  {
    seq(|f|, j requires 0 <= j < |f| => Target(f, comp, gop, rate, level, Start(f, gop, 0, j)))
  }

  lemma RunStarts(f: seq<Frame>, gop: nat, i: nat)
    requires i < |f| && gop > 0
    ensures Extend(f, gop, i, 0) == RunLength(f, gop, i) && SumSizes(f, i, 0) == 0
  {
  }

  lemma RunGoesOn(f: seq<Frame>, gop: nat, i: nat, len: nat)
    requires i + len < |f| && len < gop
    ensures Extend(f, gop, i, len) == if f[i + len].sceneNext then len + 1 else Extend(f, gop, i, len + 1)
    ensures SumSizes(f, i, len + 1) == SumSizes(f, i, len) + f[i + len].iPictureSize
  {
  }

  lemma RunEnds(f: seq<Frame>, gop: nat, i: nat, len: nat)
    requires i + len <= |f| && len <= gop && (len == gop || i + len == |f|)
    ensures Extend(f, gop, i, len) == len
  {
  }

  lemma NextRun(f: seq<Frame>, gop: nat, i: nat)
    requires i < |f| && gop > 0
    ensures var next := i + RunLength(f, gop, i);
      SumMeans(f, gop, i) == RunMean(f, gop, i) + SumMeans(f, gop, next)
      && RunMean(f, gop, i) == SumSizes(f, i, next - i) / (next - i)
      && CountRuns(f, gop, i) == 1 + CountRuns(f, gop, next)
      && (forall j :: i <= j < next ==> Start(f, gop, i, j) == i)
      && (forall j :: next <= j < |f| ==> Start(f, gop, i, j) == Start(f, gop, next, j))
  {
    hide RunLength, SumSizes;
  }

  lemma MeansOfRun(f: seq<Frame>, gop: nat, i: nat)
    requires i < |f| && gop > 0
    requires forall j :: i <= j < |f| ==> Start(f, gop, 0, j) == Start(f, gop, i, j)
    ensures forall k :: i <= k < i + RunLength(f, gop, i) ==> RunMeans(f, gop)[k] == RunMean(f, gop, i)
  {
    hide RunLength, RunMean, RunMeans, Start;
    NextRun(f, gop, i);
    forall k | i <= k < i + RunLength(f, gop, i) ensures RunMeans(f, gop)[k] == RunMean(f, gop, i) {
      RunMeanAt(f, gop, k);
    }
  }

  lemma NoRunLeft(f: seq<Frame>, gop: nat)
    requires gop > 0
    ensures SumMeans(f, gop, |f|) == 0 && CountRuns(f, gop, |f|) == 0
  {
  }

  lemma FirstLevel(f: seq<Frame>, comp: seq<int>, gop: nat, rate: int, level: int)
    requires gop > 0 && rate != 0 && |comp| == |f|
    ensures RunLevel(f, comp, gop, rate, level, 0, 0) == level
  {
  }

  lemma NextLevel(f: seq<Frame>, comp: seq<int>, gop: nat, rate: int, level: int, i: nat)
    requires gop > 0 && rate != 0 && |comp| == |f| && i < |f|
    ensures var next := i + RunLength(f, gop, i);
      var after := level - TruncDiv(RunLength(f, gop, i) * (comp[i] - 1000), rate);
      RunLevel(f, comp, gop, rate, level, i, i) == level
      && RunLevel(f, comp, gop, rate, after, next, next) == after
      && forall s :: next <= s ==>
           RunLevel(f, comp, gop, rate, level, i, s) == RunLevel(f, comp, gop, rate, after, next, s)
  {
    hide RunLength, TruncDiv;
  }

  // ---- The level that the last pass carries along ----

  /** A run starts at `s` if the runs from the one at `i` on come to it. */
  predicate Reaches(f: seq<Frame>, gop: nat, i: nat, s: nat)
    requires gop > 0 && i <= |f|
    decreases |f| - i
  {
    s == i || (i < |f| && i + RunLength(f, gop, i) <= s && Reaches(f, gop, i + RunLength(f, gop, i), s))
  }

  /** The rounding of one run of `len` frames: less than one for each of them and one more. */
  lemma RunError(r: int, len: nat, c: nat, rate: nat)
    requires rate > 0 && c <= 1000
    ensures var d := c * (len * TruncDiv(r, rate)) - 1000 * TruncDiv(len * TruncDiv(r * c, 1000), rate);
      -1000 * (len + 1) <= d <= 1000 * (len + 1)
  {
    var a := if r < 0 then -r else r;
    PositiveRunError(a, len, c, rate);
    if r < 0 {
      OppositeQuotients(a, len, c, rate);
    }
  }

  lemma OppositeQuotients(a: int, len: nat, c: nat, rate: nat)
    requires rate > 0 && a >= 0
    ensures TruncDiv(-a, rate) == -(a / rate)
    ensures TruncDiv(-a * c, 1000) == -((a * c) / 1000)
    ensures TruncDiv(len * TruncDiv(-a * c, 1000), rate) == -((len * ((a * c) / 1000)) / rate)
    ensures c * (len * -(a / rate)) == -(c * (len * (a / rate)))
  {
    assert a * c >= 0 && -a * c == -(a * c);
    Opposite(a, rate);
    Opposite(a * c, 1000);
    var t := (a * c) / 1000;
    assert len * t >= 0 && len * -t == -(len * t);
    Opposite(len * t, rate);
  }

  lemma Opposite(x: int, d: nat)
    requires d > 0 && x >= 0
    ensures TruncDiv(-x, d) == -(x / d)
  {
  }

  lemma PositiveRunError(r: nat, len: nat, c: nat, rate: nat)
    requires rate > 0 && c <= 1000
    ensures var d := c * (len * (r / rate)) - 1000 * ((len * ((r * c) / 1000)) / rate);
      -1000 * (len + 1) <= d <= 1000 * (len + 1)
    ensures TruncDiv(r, rate) == r / rate && TruncDiv(r * c, 1000) == (r * c) / 1000
    ensures TruncDiv(len * ((r * c) / 1000), rate) == (len * ((r * c) / 1000)) / rate
  {
    var q, t := r / rate, (r * c) / 1000;
    var u := (len * t) / rate;
    DivMod(r, rate);
    DivMod(r * c, 1000);
    DivMod(len * t, rate);
    assert len * t >= 0;
    hide *;
    RunDifference(r, len, c, rate, q, r % rate, t, (r * c) % 1000, u, (len * t) % rate);
  }

  lemma RunDifference(r: nat, len: nat, c: nat, rate: nat, q: int, e: nat, t: int, x: nat, u: int, y: nat)
    requires rate > 0 && c <= 1000 && e < rate && x < 1000 && y < rate
    requires r == rate * q + e && r * c == 1000 * t + x && len * t == rate * u + y
    ensures -1000 * (len + 1) <= c * (len * q) - 1000 * u <= 1000 * (len + 1)
  {
    var d := c * (len * q) - 1000 * u;
    DifferenceTimesRate(r, len, c, rate, q, e, t, x, u, y);
    assert 0 <= c * (len * e) <= 1000 * (len * e) by { Products(c, 1000, len * e); assert len * e >= 0; }
    assert len * e <= len * rate by { Products(e, rate, len); }
    assert 0 <= len * x <= 1000 * len by { Products(x, 1000, len); }
    assert len <= len * rate by { Products(1, rate, len); }
    assert rate * d <= 1000 * (len * rate) + 1000 * rate && rate * d >= -1000 * (len * rate);
    Quotients(rate, d, len);
  }

  lemma Products(a: nat, b: nat, k: nat)
    requires a <= b
    ensures 0 <= a * k <= b * k && a * k == k * a && b * k == k * b
  {
  }

  lemma DifferenceTimesRate(r: int, len: int, c: int, rate: int, q: int, e: int, t: int, x: int, u: int, y: int)
    requires r == rate * q + e && r * c == 1000 * t + x && len * t == rate * u + y
    ensures rate * (c * (len * q) - 1000 * u) == len * x + 1000 * y - c * (len * e)
  {
    calc {
      rate * (c * (len * q) - 1000 * u);
      c * (len * (rate * q)) - 1000 * (rate * u);
      c * (len * (r - e)) - 1000 * (len * t - y);
      len * (r * c) - c * (len * e) - 1000 * (len * t) + 1000 * y;
      len * (1000 * t + x) - c * (len * e) - 1000 * (len * t) + 1000 * y;
      len * x + 1000 * y - c * (len * e);
    }
  }

  lemma Quotients(rate: nat, d: int, len: nat)
    requires rate > 0 && rate * d <= 1000 * (len * rate) + 1000 * rate && rate * d >= -1000 * (len * rate)
    ensures -1000 * (len + 1) <= d <= 1000 * (len + 1)
  {
    if d > 1000 * (len + 1) {
      assert rate * (d - 1000 * (len + 1)) == rate * d - 1000 * (len * rate) - 1000 * rate;
      AtLeastOnce(rate, d - 1000 * (len + 1));
    }
    if d < -1000 * (len + 1) {
      assert rate * (-1000 * (len + 1) - d) == -1000 * (len * rate) - 1000 * rate - rate * d;
      AtLeastOnce(rate, -1000 * (len + 1) - d);
    }
  }

  /** Over a run the unscaled level moves by the same amount with every frame. */
  lemma {:induction false} LevelOverRun(rel: seq<int>, rate: int, i: nat, len: nat, r: int)
    requires rate != 0 && i + len <= |rel| && forall k :: i <= k < i + len ==> rel[k] == r
    ensures Level(rel, rate, i + len) == Level(rel, rate, i) - len * TruncDiv(r, rate)
    decreases len
  {
    hide TruncDiv;
    if len > 0 {
      LevelOverRun(rel, rate, i, len - 1, r);
      assert len * TruncDiv(r, rate) == (len - 1) * TruncDiv(r, rate) + TruncDiv(r, rate);
    }
  }

  /** From one run to another the carried level follows the scaled one up to rounding. */
  lemma {:induction false} CarriedFollows(f: seq<Frame>, gop: nat, rate: nat, rel: seq<int>, comp: seq<int>, c: nat,
                                          level: int, i: nat, s: nat)
    requires gop > 0 && rate > 0 && c <= 1000 && i <= s <= |f| && |rel| == |comp| == |f| && Reaches(f, gop, i, s)
    requires forall k :: 0 <= k < |f| ==> comp[k] == Scaled(rel[k], c)
    requires forall k :: i <= k < |f| ==> rel[k] == rel[Start(f, gop, i, k)]
    ensures var d := 1000 * (RunLevel(f, comp, gop, rate, level, i, s) - level)
                     - c * (Level(rel, rate, s) - Level(rel, rate, i));
      var runs := CountRuns(f, gop, i) - CountRuns(f, gop, s);
      -1000 * (s - i + runs) <= d <= 1000 * (s - i + runs)
    decreases |f| - i
  {
    hide TruncDiv, Level, RunLength, SumMeans, Start;
    if s == i {
      assert RunLevel(f, comp, gop, rate, level, i, s) == level;
      assert c * 0 == 0;
    } else {
      var len := RunLength(f, gop, i);
      var next, r := i + len, rel[i];
      NextRun(f, gop, i);
      forall k | i <= k < next ensures rel[k] == r {
        assert Start(f, gop, i, k) == i;
      }
      LevelOverRun(rel, rate, i, len, r);
      RunError(r, len, c, rate);
      var step := TruncDiv(len * TruncDiv(r * c, 1000), rate);
      assert comp[i] - 1000 == TruncDiv(r * c, 1000);
      CarriedFollows(f, gop, rate, rel, comp, c, level - step, next, s);
      assert RunLevel(f, comp, gop, rate, level, i, s) == RunLevel(f, comp, gop, rate, level - step, next, s);
      Difference(c, Level(rel, rate, s), Level(rel, rate, next), Level(rel, rate, i), len * TruncDiv(r, rate));
    }
  }

  lemma Difference(c: int, x: int, y: int, z: int, w: int)
    requires y == z - w
    ensures c * (x - z) == c * (x - y) - c * w
  {
  }

  /** Up to one per frame and one per run before it, the level at the start of every run lies between a tenth of
      the initial level and the size of the buffer. */
  lemma CarriedLevelsFit(f: seq<Frame>, gop: nat, rate: nat, iInitialLevel: int, iCpbLevel: int, s: nat)
    requires f != [] && gop > 0 && rate > 0 && MeanComplexity(f, gop) > 0 && 0 <= iInitialLevel <= iCpbLevel
    requires s <= |f| && Reaches(f, gop, 0, s)
    ensures var comp := FinalComplexities(f, gop, rate, iInitialLevel, iCpbLevel);
      var rounding := s + CountRuns(f, gop, 0) - CountRuns(f, gop, s);
      100 * iInitialLevel - 1000 * rounding <= 1000 * RunLevel(f, comp, gop, rate, iInitialLevel, 0, s)
      <= 1000 * iCpbLevel + 1000 * rounding
  {
    hide Level, Highest, Lowest, Coefficient, Scaled, MeanComplexity, CountRuns, RunLevel, Reaches, Start, RunMean,
         RunLength, TruncDiv;
    var rel := Relatives(f, gop, MeanComplexity(f, gop));
    var c := Coefficient(Highest(rel, rate, |f|), Lowest(rel, rate, |f|), iInitialLevel, iCpbLevel);
    var comp := FinalComplexities(f, gop, rate, iInitialLevel, iCpbLevel);
    ScaledLevelsFit(rel, rate, iInitialLevel, iCpbLevel, s);
    forall k | 0 <= k < |f| ensures rel[k] == rel[Start(f, gop, 0, k)] {
      StartOfStart(f, gop, k);
    }
    CarriedFollows(f, gop, rate, rel, comp, c, iInitialLevel, 0, s);
    assert Level(rel, rate, 0) == 0 by { EmptyLevel(rel, rate); }
  }

  lemma EmptyLevel(rel: seq<int>, rate: int)
    requires rate != 0
    ensures Level(rel, rate, 0) == 0
  {
  }

  lemma StartOfStart(f: seq<Frame>, gop: nat, k: nat)
    requires gop > 0 && k < |f|
    ensures Start(f, gop, 0, Start(f, gop, 0, k)) == Start(f, gop, 0, k)
  {
    SameStart(f, gop, 0, k, Start(f, gop, 0, k));
  }

  /** Three pictures, the last of them large. */
  const THREE_FRAMES: seq<Frame> := [Frame(1, false, 0, 0), Frame(1, false, 0, 0), Frame(1001, false, 0, 0)]

  lemma SingleRuns(i: nat)
    requires i < 3
    ensures RunLength(THREE_FRAMES, 1, i) == 1
    ensures RunMean(THREE_FRAMES, 1, i) == THREE_FRAMES[i].iPictureSize
    ensures Start(THREE_FRAMES, 1, 0, i) == i
  {
    assert RunLength(THREE_FRAMES, 1, 0) == 1 && RunLength(THREE_FRAMES, 1, 1) == 1;
    assert RunLength(THREE_FRAMES, 1, i) == 1;
    assert SumSizes(THREE_FRAMES, i, 1) == SumSizes(THREE_FRAMES, i, 0) + THREE_FRAMES[i].iPictureSize;
  }

  lemma ThreeMeans()
    ensures MeanComplexity(THREE_FRAMES, 1) == 334
    ensures Relatives(THREE_FRAMES, 1, 334) == [-998, -998, 1997]
  {
    SingleRuns(0);
    SingleRuns(1);
    SingleRuns(2);
    hide RunMean, RunLength, Start;
    var f := THREE_FRAMES;
    assert SumMeans(f, 1, 3) == 0 && CountRuns(f, 1, 3) == 0;
    assert SumMeans(f, 1, 2) == 1001 && CountRuns(f, 1, 2) == 1;
    assert SumMeans(f, 1, 1) == 1002 && CountRuns(f, 1, 1) == 2;
    assert SumMeans(f, 1, 0) == 1003 && CountRuns(f, 1, 0) == 3;
    assert Relative(f, 1, 334, 0) == -998 && Relative(f, 1, 334, 1) == -998 && Relative(f, 1, 334, 2) == 1997;
  }

  lemma ThreeLevels(rel: seq<int>)
    requires rel == [-998, -998, 1997]
    ensures Highest(rel, 10, 3) == 198 && Lowest(rel, 10, 3) == -1 && Coefficient(198, -1, 1152, 1339) == 944
  {
    assert TruncDiv(-998, 10) == -99 && TruncDiv(1997, 10) == 199;
    hide TruncDiv;
    assert Level(rel, 10, 0) == 0;
    assert Level(rel, 10, 1) == 99;
    assert Level(rel, 10, 2) == 198;
    assert Level(rel, 10, 3) == -1;
    assert Highest(rel, 10, 1) == 99 && Lowest(rel, 10, 1) == 0;
    assert Highest(rel, 10, 2) == 198 && Lowest(rel, 10, 2) == 0;
    ThreeQuotients();
  }

  lemma ThreeQuotients()
    ensures TruncDiv((1339 - 1152) * 1000, 198) == 944 && TruncDiv(-1152 * 900, -1) == 1152 * 900
    ensures TruncDiv(-998 * 944, 1000) == -942 && TruncDiv(-942, 10) == -94
  {
  }

  /** Rounding does take the carried level over the size of the buffer: with one frame to a run, a frame rate of 10,
      an initial level of 1152 and a buffer of 1339 it comes to 1340. */
  lemma RoundingOvershoots()
    ensures MeanComplexity(THREE_FRAMES, 1) > 0
    ensures RunLevel(THREE_FRAMES, FinalComplexities(THREE_FRAMES, 1, 10, 1152, 1339), 1, 10, 1152, 0, 2) == 1340
  {
    hide MeanComplexity, Relatives, Highest, Lowest, Coefficient, RunLength, TruncDiv;
    var f := THREE_FRAMES;
    ThreeMeans();
    ThreeLevels(Relatives(f, 1, 334));
    ThreeQuotients();
    SingleRuns(0);
    SingleRuns(1);
    var comp := FinalComplexities(f, 1, 10, 1152, 1339);
    assert comp[0] == 58 && comp[1] == 58;
    assert RunLevel(f, comp, 1, 10, 1340, 2, 2) == 1340;
    assert RunLevel(f, comp, 1, 10, 1246, 1, 2) == 1340;
  }

  // ---- What the results mean ----

  /** The complexity of a frame, in thousandths: the mean size of its run in proportion to the mean over the runs, and
      the deviation from 1000 scaled by the coefficient, both rounded. Without scaling it is that proportion. */
  lemma ComplexityIsProportion(f: seq<Frame>, now: seq<Frame>, gop: nat, rate: int, iInitialLevel: int, iCpbLevel: int,
                               j: nat)
    requires f != [] && gop > 0 && rate != 0 && MeanComplexity(f, gop) > 0 && 0 <= iInitialLevel <= iCpbLevel
    requires Computed(f, now, gop, rate, iInitialLevel, iCpbLevel) && j < |f|
    ensures var mean, size := MeanComplexity(f, gop), RunMean(f, gop, Start(f, gop, 0, j));
      var rel := Relatives(f, gop, mean);
      var c := Coefficient(Highest(rel, rate, |f|), Lowest(rel, rate, |f|), iInitialLevel, iCpbLevel);
      exists p: nat :: mean * p <= 1000 * size < mean * p + mean
        && -1000 < 1000 * (now[j].iComplexity - 1000) - c * (p - 1000) < 1000
        && (c == 1000 ==> now[j].iComplexity == p)
  {
    hide *;
    var mean, size := MeanComplexity(f, gop), RunMean(f, gop, Start(f, gop, 0, j));
    var rel := Relatives(f, gop, mean);
    var c := Coefficient(Highest(rel, rate, |f|), Lowest(rel, rate, |f|), iInitialLevel, iCpbLevel);
    var p := size * 1000 / mean;
    DivMod(size * 1000, mean);
    RelativeIs(f, gop, mean, j);
    ComputedComplexity(f, now, gop, rate, iInitialLevel, iCpbLevel, j);
    TruncDivRounds((p - 1000) * c, 1000);
    if c == 1000 { WholeThousands(p - 1000); }
    assert p >= 0 by { QuotientsInOrder(0, size * 1000, mean); }
    assert Abs(1000) == 1000 by { AbsOfNat(1000); }
  }

  lemma AbsOfNat(a: nat)
    ensures Abs(a) == a
  {
  }

  lemma WholeThousands(a: int)
    ensures TruncDiv(a * 1000, 1000) == a
  {
  }

  lemma ComputedComplexity(f: seq<Frame>, now: seq<Frame>, gop: nat, rate: int, iInitialLevel: int, iCpbLevel: int,
                           j: nat)
    requires f != [] && gop > 0 && rate != 0 && MeanComplexity(f, gop) > 0
    requires Computed(f, now, gop, rate, iInitialLevel, iCpbLevel) && j < |f|
    ensures var rel := Relatives(f, gop, MeanComplexity(f, gop));
      var c := Coefficient(Highest(rel, rate, |f|), Lowest(rel, rate, |f|), iInitialLevel, iCpbLevel);
      |now| == |f| && now[j].iComplexity == TruncDiv(rel[j] * c, 1000) + 1000
  {
    hide TruncDiv, Target, Coefficient, Highest, Lowest, MeanComplexity, Relatives, Start;
  }

  lemma RelativeIs(f: seq<Frame>, gop: nat, mean: nat, j: nat)
    requires gop > 0 && mean > 0 && j < |f|
    ensures Relatives(f, gop, mean)[j] == RunMean(f, gop, Start(f, gop, 0, j)) * 1000 / mean - 1000
  {
    hide RunMean, Start;
  }

  /** Frames of larger runs never get a smaller complexity. */
  lemma LargerIsMoreComplex(f: seq<Frame>, now: seq<Frame>, gop: nat, rate: int, iInitialLevel: int, iCpbLevel: int,
                            j: nat, k: nat)
    requires f != [] && gop > 0 && rate != 0 && MeanComplexity(f, gop) > 0 && 0 <= iInitialLevel <= iCpbLevel
    requires Computed(f, now, gop, rate, iInitialLevel, iCpbLevel) && j < |f| && k < |f|
    requires RunMean(f, gop, Start(f, gop, 0, j)) <= RunMean(f, gop, Start(f, gop, 0, k))
    ensures now[j].iComplexity <= now[k].iComplexity
  {
    hide Target, Coefficient, Highest, Lowest, MeanComplexity, Start, RunMean;
    var mean := MeanComplexity(f, gop);
    var rel := Relatives(f, gop, mean);
    var hi, lo := Highest(rel, rate, |f|), Lowest(rel, rate, |f|);
    var c := Coefficient(hi, lo, iInitialLevel, iCpbLevel);
    WithinExtremes(rel, rate, 0, |f|);
    CoefficientFits(hi, lo, iInitialLevel, iCpbLevel);
    RelativeIs(f, gop, mean, j);
    RelativeIs(f, gop, mean, k);
    QuotientsInOrder(RunMean(f, gop, Start(f, gop, 0, j)) * 1000, RunMean(f, gop, Start(f, gop, 0, k)) * 1000, mean);
    ScaledInOrder(rel[j], rel[k], c);
  }

  lemma QuotientsInOrder(a: int, b: int, d: nat)
    requires d > 0 && a <= b
    ensures a / d <= b / d
  {
    DivMod(a, d);
    DivMod(b, d);
    var x, y := a / d, b / d;
    if x > y {
      Below(d, 1, x - y);
    }
  }

  lemma ScaledInOrder(a: int, b: int, c: nat)
    requires a <= b
    ensures Scaled(a, c) <= Scaled(b, c)
  {
    Below(c, 0, b - a);
    assert c * (b - a) == b * c - a * c;
    if a * c < 0 {
      if b * c < 0 { QuotientsInOrder(-(b * c), -(a * c), 1000); }
    } else {
      QuotientsInOrder(a * c, b * c, 1000);
    }
  }

  /** The target of a run is where the level would be at the end of a whole group of pictures like it: over the length
      of the run the level does that part of the way, up to rounding, and all of it over a whole group. */
  lemma TargetExtrapolates(f: seq<Frame>, now: seq<Frame>, gop: nat, rate: int, iInitialLevel: int, iCpbLevel: int,
                           s: nat)
    requires f != [] && gop > 0 && rate != 0 && MeanComplexity(f, gop) > 0
    requires Computed(f, now, gop, rate, iInitialLevel, iCpbLevel) && s < |f| && Reaches(f, gop, 0, s)
    ensures var comp, len := Complexities(now), RunLength(f, gop, s);
      var level := RunLevel(f, comp, gop, rate, iInitialLevel, 0, s);
      var next := RunLevel(f, comp, gop, rate, iInitialLevel, 0, s + len);
      var target := now[s].iTargetLevel;
      -(len + gop) < len * (target - level) - gop * (next - level) < len + gop && (len == gop ==> target == next)
  {
    hide *;
    var comp, len := Complexities(now), RunLength(f, gop, s);
    StartOfRun(f, gop, 0, s);
    ComputedAt(f, now, gop, rate, iInitialLevel, iCpbLevel, s);
    LevelAfterRun(f, comp, gop, rate, iInitialLevel, 0, s);
    var x := comp[s] - 1000;
    TruncDivRounds(gop * x, rate);
    TruncDivRounds(len * x, rate);
    Proportion(gop, len, x, rate, TruncDiv(gop * x, rate), TruncDiv(len * x, rate));
  }

  lemma ComputedAt(f: seq<Frame>, now: seq<Frame>, gop: nat, rate: int, iInitialLevel: int, iCpbLevel: int, j: nat)
    requires f != [] && gop > 0 && rate != 0 && MeanComplexity(f, gop) > 0
    requires Computed(f, now, gop, rate, iInitialLevel, iCpbLevel) && j < |f|
    ensures |now| == |f| && |Complexities(now)| == |f|
    ensures Complexities(now) == FinalComplexities(f, gop, rate, iInitialLevel, iCpbLevel)
    ensures var comp, s := Complexities(now), Start(f, gop, 0, j);
      now[j].iTargetLevel
      == RunLevel(f, comp, gop, rate, iInitialLevel, 0, s) - TruncDiv(gop * (comp[s] - 1000), rate)
  {
    hide RunLength, MeanComplexity, FinalComplexities, RunLevel, Start, TruncDiv, Computed;
    var comp := FinalComplexities(f, gop, rate, iInitialLevel, iCpbLevel);
    TargetOf(f, now, gop, rate, iInitialLevel, iCpbLevel, j);
    forall k: nat | k < |f| ensures Complexities(now)[k] == comp[k] {
      TargetOf(f, now, gop, rate, iInitialLevel, iCpbLevel, k);
    }
    assert Complexities(now) == comp;
  }

  lemma TargetOf(f: seq<Frame>, now: seq<Frame>, gop: nat, rate: int, iInitialLevel: int, iCpbLevel: int, j: nat)
    requires f != [] && gop > 0 && rate != 0 && MeanComplexity(f, gop) > 0
    requires Computed(f, now, gop, rate, iInitialLevel, iCpbLevel) && j < |f|
    ensures |now| == |f| && now[j].iComplexity == FinalComplexities(f, gop, rate, iInitialLevel, iCpbLevel)[j]
    ensures now[j].iTargetLevel
         == Target(f, FinalComplexities(f, gop, rate, iInitialLevel, iCpbLevel), gop, rate, iInitialLevel,
                   Start(f, gop, 0, j))
  {
    hide MeanComplexity, FinalComplexities, Start, Target;
  }

  lemma {:induction false} StartOfRun(f: seq<Frame>, gop: nat, i: nat, s: nat)
    requires gop > 0 && i <= s < |f| && Reaches(f, gop, i, s)
    ensures Start(f, gop, i, s) == s
    decreases |f| - i
  {
    hide RunLength;
    if s > i {
      StartOfRun(f, gop, i + RunLength(f, gop, i), s);
    }
  }

  lemma {:induction false} LevelAfterRun(f: seq<Frame>, comp: seq<int>, gop: nat, rate: int, level: int, i: nat, s: nat)
    requires gop > 0 && rate != 0 && |comp| == |f| && i <= s < |f| && Reaches(f, gop, i, s)
    ensures RunLevel(f, comp, gop, rate, level, i, s + RunLength(f, gop, s))
         == RunLevel(f, comp, gop, rate, level, i, s) - TruncDiv(RunLength(f, gop, s) * (comp[s] - 1000), rate)
    decreases |f| - i
  {
    hide RunLength, TruncDiv;
    var len := RunLength(f, gop, i);
    var after := level - TruncDiv(len * (comp[i] - 1000), rate);
    if s > i {
      LevelAfterRun(f, comp, gop, rate, after, i + len, s);
    } else {
      assert RunLevel(f, comp, gop, rate, after, i + len, i + len) == after;
    }
  }

  /** Two quotients that drop less than one each. */
  lemma Proportion(gop: nat, len: nat, x: int, rate: int, t: int, n: int)
    requires gop > 0 && len > 0 && rate != 0
    requires -Abs(rate) < gop * x - rate * t < Abs(rate) && -Abs(rate) < len * x - rate * n < Abs(rate)
    ensures -(len + gop) < gop * n - len * t < len + gop
  {
    hide *;
    var d, a := gop * n - len * t, Abs(rate);
    var e, g := gop * x - rate * t, len * x - rate * n;
    CrossProducts(gop, len, x, rate, t, n);
    ProductWithin(len, e, a);
    ProductWithin(gop, g, a);
    assert len * a + gop * a == (len + gop) * a;
    WithinOfProduct(rate, d, len + gop);
  }

  lemma CrossProducts(gop: int, len: int, x: int, rate: int, t: int, n: int)
    ensures rate * (gop * n - len * t) == len * (gop * x - rate * t) - gop * (len * x - rate * n)
  {
    assert len * (gop * x) == gop * (len * x);
    assert rate * (gop * n) == gop * (rate * n) && rate * (len * t) == len * (rate * t);
    assert rate * (gop * n - len * t) == rate * (gop * n) - rate * (len * t);
    assert len * (gop * x - rate * t) == len * (gop * x) - len * (rate * t);
    assert gop * (len * x - rate * n) == gop * (len * x) - gop * (rate * n);
  }

  lemma WithinOfProduct(rate: int, d: int, m: int)
    requires rate != 0 && -(m * Abs(rate)) < rate * d < m * Abs(rate)
    ensures -m < d < m
  {
    if rate > 0 {
      FactorsInOrder(d, m, rate);
      FactorsInOrder(-m, d, rate);
    } else {
      assert rate * d == -d * -rate;
      FactorsInOrder(-d, m, -rate);
      FactorsInOrder(-m, -d, -rate);
    }
  }

  lemma FactorsInOrder(x: int, y: int, a: int)
    requires a > 0 && x * a < y * a
    ensures x < y
  {
  }

  lemma ProductWithin(k: nat, e: int, a: int)
    requires k > 0 && -a < e < a
    ensures -(k * a) < k * e < k * a
  {
    Below(k, 1, a - e);
    Below(k, 1, a + e);
    assert k * (a - e) == k * a - k * e && k * (a + e) == k * a + k * e;
  }
}
