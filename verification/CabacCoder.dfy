/** Binary arithmetic coding on exact integers, the standard's decoder, and why they invert each other.

    The coder keeps the interval [low, low + range) with an unbounded `low`; `shifts` counts the
    doublings so far. The decoder is the one of sections 9.3.1.2 and 9.3.3.2 of ITU-T H.264. */
module CabacCoder {
  import opened Bits
  import opened CabacTables
  import CabacStandard

  /** The adaptive state of one context variable. */
  datatype Context = Context(state: StateIdx, mps: bit)

  function Adapt(x: Context, bin: bit): Context
  {
    if bin == x.mps then Context(NextAfterMps(x.state), x.mps)
    else Context(NextAfterLps(x.state), if x.state == 0 then 1 - x.mps else x.mps)
  }

  /** The sub-range of the less probable symbol for a range in [256, 510]. */
  function LpsRange(x: Context, range: nat): (r: nat)
    ensures 2 <= r <= 240
  {
    SubRange(x.state, range / 64 % 4)
  }

  /** One thing to code: a bin under context `ctx`, or a terminating bin. */
  datatype Op = Decision(ctx: nat, bin: bit) | Terminate(bin: bit)

  predicate Known(ops: seq<Op>, n: nat)
  {
    forall i :: 0 <= i < |ops| ==> ops[i].Decision? ==> ops[i].ctx < n
  }

  datatype Interval = Interval(low: nat, range: nat, shifts: nat)

  datatype Coder = Coder(at: Interval, ctxs: seq<Context>)

  /** The interval after subdividing for `op`, before renormalisation. */
  function Subdivide(c: Coder, op: Op): Interval
    requires Known([op], |c.ctxs|) && c.at.range >= 256
  {
    match op
    case Decision(i, bin) =>
      assert [op][0] == op;
      var lps := LpsRange(c.ctxs[i], c.at.range);
      if bin == c.ctxs[i].mps then c.at.(range := c.at.range - lps)
      else c.at.(low := c.at.low + c.at.range - lps, range := lps)
    case Terminate(bin) =>
      if bin == 0 then c.at.(range := c.at.range - 2)
      else c.at.(low := c.at.low + c.at.range - 2, range := 2)
  }

  function Renorm(v: Interval): (w: Interval)
    requires v.range > 0
    ensures v.range < 512 ==> 256 <= w.range && (v.range <= 510 ==> w.range <= 510)
    decreases 256 - v.range
  {
    if v.range >= 256 then v else Renorm(Interval(2 * v.low, 2 * v.range, v.shifts + 1))
  }

  predicate Normal(c: Coder)
  {
    256 <= c.at.range <= 510 && c.at.low + c.at.range <= Pow2(c.at.shifts + 9)
  }

  function NextContexts(ctxs: seq<Context>, op: Op): (r: seq<Context>)
    requires Known([op], |ctxs|)
    ensures |r| == |ctxs|
  {
    match op
    case Decision(i, bin) => assert [op][0] == op; ctxs[i := Adapt(ctxs[i], bin)]
    case Terminate(_) => ctxs
  }

  function Step(c: Coder, op: Op): (d: Coder)
    requires Known([op], |c.ctxs|) && Normal(c)
    ensures Normal(d) && |d.ctxs| == |c.ctxs|
  {
    RenormInBounds(Subdivide(c, op));
    Coder(Renorm(Subdivide(c, op)), NextContexts(c.ctxs, op))
  }

  function Run(c: Coder, ops: seq<Op>): (d: Coder)
    requires Known(ops, |c.ctxs|) && Normal(c)
    ensures Normal(d) && |d.ctxs| == |c.ctxs|
    decreases |ops|
  {
    if ops == [] then c else
    assert [ops[0]] == ops[..1];
    Run(Step(c, ops[0]), ops[1..])
  }

  function Start(ctxs: seq<Context>): (c: Coder)
    ensures Normal(c)
  {
    Pow2Values();
    Coder(Interval(0, 510, 0), ctxs)
  }

  /** The bits that end a run: all but the seven lowest of `low`, the last one forced to 1. */
  function FinishBits(v: Interval): seq<bit>
  {
    BitsOf(v.shifts + 2, Shr(v.low, 7) / 2 * 2 + 1)
  }

  function Encode(ctxs: seq<Context>, ops: seq<Op>): seq<bit>
    requires Known(ops, |ctxs|)
  {
    FinishBits(Run(Start(ctxs), ops).at)
  }

  // ---- The decoder ----

  /** Bit `pos` of the data, zero past its end. */
  function ReadBit(bits: seq<bit>, pos: nat): bit
  {
    if pos < |bits| then bits[pos] else 0
  }

  /** The integer made of the first `n` bits read. */
  function PrefixVal(bits: seq<bit>, n: nat): nat
  {
    if n == 0 then 0 else 2 * PrefixVal(bits, n - 1) + ReadBit(bits, n - 1)
  }

  /** ivlOffset, ivlCurrRange, the number of bits read so far, and the context variables. */
  datatype Decoder = Decoder(offset: int, range: nat, pos: nat, ctxs: seq<Context>)

  datatype Request = AskDecision(ctx: nat) | AskTerminate

  function RequestOf(op: Op): Request
  {
    match op case Decision(i, _) => AskDecision(i) case Terminate(_) => AskTerminate
  }

  function Requests(ops: seq<Op>): (r: seq<Request>)
    ensures |r| == |ops|
  {
    seq(|ops|, i requires 0 <= i < |ops| => RequestOf(ops[i]))
  }

  function Bins(ops: seq<Op>): (r: seq<bit>)
    ensures |r| == |ops|
  {
    seq(|ops|, i requires 0 <= i < |ops| => ops[i].bin)
  }

  function StartDecoder(bits: seq<bit>, ctxs: seq<Context>): Decoder
  {
    Decoder(PrefixVal(bits, 9), 510, 9, ctxs)
  }

  function RenormD(d: Decoder, bits: seq<bit>): Decoder
    requires d.range > 0
    decreases 256 - d.range
  {
    if d.range >= 256 then d
    else RenormD(Decoder(2 * d.offset + ReadBit(bits, d.pos), 2 * d.range, d.pos + 1, d.ctxs), bits)
  }

  // Sub-ranges and transitions are those of the standard's own tables, not the encoder's.

  function CodIRangeLps(x: Context, codIRange: nat): (r: nat)
    ensures 2 <= r <= 240
  {
    CabacStandard.RangeTabLps(x.state, CabacStandard.QCodIRangeIdx(codIRange))
  }

  function NextContext(x: Context, binVal: bit): Context
  {
    Context(CabacStandard.NextStateIdx(x.state, x.mps, binVal), CabacStandard.NextValMps(x.state, x.mps, binVal))
  }

  /** Section 9.3.3.2.1 of H.264. */
  function DecodeDecision(d: Decoder, i: nat, bits: seq<bit>): (bit, Decoder)
    requires i < |d.ctxs| && d.range >= 256
  {
    var x := d.ctxs[i];
    var codIRangeLps := CodIRangeLps(x, d.range);
    var codIRange := d.range - codIRangeLps;
    if d.offset >= codIRange then
      (1 - x.mps, RenormD(Decoder(d.offset - codIRange, codIRangeLps, d.pos,
                                  d.ctxs[i := NextContext(x, 1 - x.mps)]), bits))
    else
      (x.mps, RenormD(Decoder(d.offset, codIRange, d.pos, d.ctxs[i := NextContext(x, x.mps)]), bits))
  }

  /** A terminating bin of 1 ends the arithmetic decoding without renormalisation. */
  function DecodeTerminate(d: Decoder, bits: seq<bit>): (bit, Decoder)
    requires d.range >= 256
  {
    if d.offset >= d.range - 2 then (1, d.(range := d.range - 2))
    else (0, RenormD(d.(range := d.range - 2), bits))
  }

  /** The bins decoded for a list of requests, up to and including the first terminating bin of 1. */
  function Decode(d: Decoder, reqs: seq<Request>, bits: seq<bit>): (r: (seq<bit>, Decoder))
    requires d.range >= 256 && forall i :: 0 <= i < |reqs| ==> reqs[i].AskDecision? ==> reqs[i].ctx < |d.ctxs|
    decreases |reqs|
  {
    if reqs == [] then ([], d)
    else
      match reqs[0]
      case AskDecision(i) =>
        var (bin, d') := DecodeDecision(d, i, bits);
        RenormDKeeps(Decoder(d.offset, d.range - CodIRangeLps(d.ctxs[i], d.range), d.pos, d'.ctxs), bits);
        DecodedInRange(d, i, bits);
        var (bins, last) := Decode(d', reqs[1..], bits);
        ([bin] + bins, last)
      case AskTerminate =>
        var (bin, d') := DecodeTerminate(d, bits);
        if bin == 1 then ([bin], d')
        else
          RenormDKeeps(d.(range := d.range - 2), bits);
          var (bins, last) := Decode(d', reqs[1..], bits);
          ([bin] + bins, last)
  }

  lemma RenormDKeeps(d: Decoder, bits: seq<bit>)
    requires d.range > 0
    ensures RenormD(d, bits).range >= 256 && RenormD(d, bits).ctxs == d.ctxs
    decreases 256 - d.range
  {
    if d.range < 256 {
      RenormDKeeps(Decoder(2 * d.offset + ReadBit(bits, d.pos), 2 * d.range, d.pos + 1, d.ctxs), bits);
    }
  }

  lemma DecodedInRange(d: Decoder, i: nat, bits: seq<bit>)
    requires i < |d.ctxs| && d.range >= 256
    ensures DecodeDecision(d, i, bits).1.range >= 256
    ensures |DecodeDecision(d, i, bits).1.ctxs| == |d.ctxs|
  {
    hide NextContext, RenormD, CabacStandard.RangeTabLps;
    var x := d.ctxs[i];
    var lps := CodIRangeLps(x, d.range);
    RenormDKeeps(Decoder(d.offset - (d.range - lps), lps, d.pos, d.ctxs[i := NextContext(x, 1 - x.mps)]), bits);
    RenormDKeeps(Decoder(d.offset, d.range - lps, d.pos, d.ctxs[i := NextContext(x, x.mps)]), bits);
  }

  // ---- The encoder's tables and transitions are the standard's ----

  lemma SameSubRange0(s: StateIdx)
    ensures SubRange(s, 0) == CabacStandard.RangeTabLps(s, 0)
  {
  }

  lemma SameSubRange1(s: StateIdx)
    ensures SubRange(s, 1) == CabacStandard.RangeTabLps(s, 1)
  {
  }

  lemma SameSubRange2(s: StateIdx)
    ensures SubRange(s, 2) == CabacStandard.RangeTabLps(s, 2)
  {
  }

  lemma SameSubRange3(s: StateIdx)
    ensures SubRange(s, 3) == CabacStandard.RangeTabLps(s, 3)
  {
  }

  lemma TransitionsAreStandard(s: StateIdx)
    ensures NextAfterLps(s) == CabacStandard.TransIdxLps(s) && NextAfterMps(s) == CabacStandard.TransIdxMps(s)
  {
  }

  lemma EncoderIsStandard(x: Context, range: nat, bin: bit)
    requires 256 <= range < 512
    ensures LpsRange(x, range) == CodIRangeLps(x, range)
    ensures Adapt(x, bin) == NextContext(x, bin)
  {
    hide SubRange, NextAfterLps, NextAfterMps, CabacStandard.RangeTabLps, CabacStandard.TransIdxLps;
    TransitionsAreStandard(x.state);
    SameSubRange0(x.state);
    SameSubRange1(x.state);
    SameSubRange2(x.state);
    SameSubRange3(x.state);
  }

  function AdaptTimes(x: Context, bin: bit, n: nat): Context
    decreases n
  {
    if n == 0 then x else AdaptTimes(Adapt(x, bin), bin, n - 1)
  }

  /** How many equal bins take a context to its last state: down to state 0, one exchange, and up again. */
  function StepsToLearn(x: Context, bin: bit): nat
  {
    if x.state == 63 then 0 else if x.mps == bin then 62 - x.state else 63 + x.state
  }

  /** Every context but the one that never adapts learns: once a bin has come often enough, at most 125 times,
      it is the more probable symbol with the smallest probability of the other. */
  lemma {:induction false} Learns(x: Context, bin: bit, n: nat)
    requires x.state != 63 && n >= StepsToLearn(x, bin)
    ensures AdaptTimes(x, bin, n) == Context(62, bin) && StepsToLearn(x, bin) <= 125
    decreases n
  {
    hide NextAfterLps, NextAfterMps;
    if n > 0 {
      Learns(Adapt(x, bin), bin, n - 1);
    }
  }

  // ---- Facts about intervals ----

  lemma {:induction false} RenormInBounds(v: Interval)
    requires v.range > 0 && v.low + v.range <= Pow2(v.shifts + 9)
    ensures Renorm(v).low + Renorm(v).range <= Pow2(Renorm(v).shifts + 9)
    decreases 256 - v.range
  {
    if v.range < 256 {
      RenormInBounds(Interval(2 * v.low, 2 * v.range, v.shifts + 1));
    }
  }

  /** Renormalising an interval of width at least 2 takes at most seven doublings. */
  lemma RenormAtMostSevenShifts(v: Interval)
    requires 2 <= v.range
    ensures v.shifts <= Renorm(v).shifts <= v.shifts + 7
  {
    ShlAsProduct(v.range, 7);
    Pow2Values();
    RenormShiftBound(v, 7);
  }

  lemma {:induction false} RenormShiftBound(v: Interval, k: nat)
    requires v.range > 0 && Shl(v.range, k) >= 256
    ensures v.shifts <= Renorm(v).shifts <= v.shifts + k
    decreases k
  {
    if v.range < 256 {
      ShlShl(v.range, 1, k - 1);
      RenormShiftBound(Interval(2 * v.low, 2 * v.range, v.shifts + 1), k - 1);
    }
  }

  lemma {:induction false} RunAppend(c: Coder, a: seq<Op>, b: seq<Op>)
    requires Normal(c) && Known(a, |c.ctxs|) && Known(b, |c.ctxs|)
    ensures Known(a + b, |c.ctxs|)
    ensures Run(c, a + b) == Run(Run(c, a), b)
    decreases |a|
  {
    if a == [] {
      assert a + b == b;
    } else {
      assert (a + b)[1..] == a[1..] + b;
      assert [a[0]] == a[..1];
      RunAppend(Step(c, a[0]), a[1..], b);
    }
  }

  lemma RunOne(c: Coder, op: Op)
    requires Normal(c) && Known([op], |c.ctxs|)
    ensures Run(c, [op]) == Step(c, op)
  {
    assert [op][1..] == [];
    assert Run(Step(c, op), []) == Step(c, op);
  }

  // ---- Decoding inverts encoding ----

  /** The data, read as an integer of the right width, lies in the interval. */
  predicate Hits(v: Interval, bits: seq<bit>)
  {
    v.low <= PrefixVal(bits, v.shifts + 9) < v.low + v.range
  }

  lemma {:induction false} HitsBeforeRenorm(v: Interval, bits: seq<bit>)
    requires v.range > 0 && Hits(Renorm(v), bits)
    ensures Hits(v, bits)
    decreases 256 - v.range
  {
    if v.range < 256 {
      HitsBeforeRenorm(Interval(2 * v.low, 2 * v.range, v.shifts + 1), bits);
    }
  }

  /** Intervals are nested, so data in the last one is in every one before. */
  lemma {:induction false} HitsFromEnd(c: Coder, ops: seq<Op>, bits: seq<bit>)
    requires Normal(c) && Known(ops, |c.ctxs|) && Hits(Subdivide(Run(c, ops), Terminate(1)), bits)
    ensures Hits(c.at, bits)
    ensures ops != [] ==> Known([ops[0]], |c.ctxs|) && Hits(Subdivide(c, ops[0]), bits)
    decreases |ops|
  {
    if ops != [] {
      assert [ops[0]] == ops[..1];
      HitsFromEnd(Step(c, ops[0]), ops[1..], bits);
      HitsBeforeRenorm(Subdivide(c, ops[0]), bits);
    }
  }

  /** Coder and decoder agree: same range and contexts, and the offset is the distance from `low`. */
  predicate InStep(v: Interval, d: Decoder, bits: seq<bit>)
  {
    && d.range == v.range
    && d.pos == v.shifts + 9
    && d.offset == PrefixVal(bits, d.pos) - v.low
  }

  lemma {:induction false} RenormInStep(v: Interval, d: Decoder, bits: seq<bit>)
    requires v.range > 0 && InStep(v, d, bits)
    ensures InStep(Renorm(v), RenormD(d, bits), bits)
    ensures RenormD(d, bits).ctxs == d.ctxs
    decreases 256 - v.range
  {
    if v.range < 256 {
      RenormInStep(Interval(2 * v.low, 2 * v.range, v.shifts + 1),
                   Decoder(2 * d.offset + ReadBit(bits, d.pos), 2 * d.range, d.pos + 1, d.ctxs), bits);
    }
  }

  lemma DecisionDecoded(c: Coder, i: nat, bin: bit, d: Decoder, bits: seq<bit>)
    requires Normal(c) && i < |c.ctxs| && InStep(c.at, d, bits) && d.ctxs == c.ctxs
    requires Hits(Subdivide(c, Decision(i, bin)), bits)
    ensures DecodeDecision(d, i, bits).0 == bin
    ensures InStep(Step(c, Decision(i, bin)).at, DecodeDecision(d, i, bits).1, bits)
    ensures DecodeDecision(d, i, bits).1.ctxs == Step(c, Decision(i, bin)).ctxs
  {
    hide Adapt, NextContext, LpsRange, CodIRangeLps, PrefixVal, Renorm, RenormD, Pow2;
    var x := c.ctxs[i];
    EncoderIsStandard(x, d.range, bin);
    var lps := LpsRange(x, d.range);
    var v := Subdivide(c, Decision(i, bin));
    if bin == x.mps {
      RenormInStep(v, Decoder(d.offset, d.range - lps, d.pos, d.ctxs[i := Adapt(x, bin)]), bits);
    } else {
      RenormInStep(v, Decoder(d.offset - (d.range - lps), lps, d.pos, d.ctxs[i := Adapt(x, bin)]), bits);
    }
  }

  predicate EndsOnlyAtEnd(ops: seq<Op>)
  {
    forall i :: 0 <= i < |ops| ==> (ops[i] == Terminate(1) <==> i == |ops| - 1)
  }

  /** Decoding the requests of `ops` and then a terminating bin, for data inside the interval of that last bin. */
  lemma {:induction false} DecodeFollows(c: Coder, ops: seq<Op>, d: Decoder, bits: seq<bit>)
    requires Normal(c) && Known(ops, |c.ctxs|) && InStep(c.at, d, bits) && d.ctxs == c.ctxs
    requires Terminate(1) !in ops && Hits(Subdivide(Run(c, ops), Terminate(1)), bits)
    ensures Decode(d, Requests(ops) + [AskTerminate], bits).0 == Bins(ops) + [1]
    ensures Decode(d, Requests(ops) + [AskTerminate], bits).1.ctxs == Run(c, ops).ctxs
    ensures Decode(d, Requests(ops) + [AskTerminate], bits).1.pos == Run(c, ops).at.shifts + 9
    decreases |ops|
  {
    hide NextContext, CodIRangeLps, Adapt, LpsRange;
    var reqs := Requests(ops) + [AskTerminate];
    if ops == [] {
      assert Bins(ops) + [1] == [1];
    } else {
      var op, rest := ops[0], ops[1..];
      assert [op] == ops[..1];
      HitsFromEnd(c, ops, bits);
      assert reqs[0] == RequestOf(op) && reqs[1..] == Requests(rest) + [AskTerminate];
      assert Bins(ops) + [1] == [op.bin] + (Bins(rest) + [1]);
      assert op != Terminate(1) by { assert op in ops; }
      match op {
        case Decision(i, bin) =>
          DecisionDecoded(c, i, bin, d, bits);
          DecodeFollows(Step(c, op), rest, DecodeDecision(d, i, bits).1, bits);
        case Terminate(bin) =>
          RenormInStep(Subdivide(c, op), d.(range := d.range - 2), bits);
          DecodeFollows(Step(c, op), rest, DecodeTerminate(d, bits).1, bits);
      }
    }
  }

  lemma {:induction false} PrefixValIsVal(bits: seq<bit>, n: nat)
    requires n <= |bits|
    ensures PrefixVal(bits, n) == Val(bits[..n])
  {
    if n > 0 {
      PrefixValIsVal(bits, n - 1);
      assert bits[..n] == bits[..n - 1] + [bits[n - 1]];
      ValAppend(bits[..n - 1], bits[n - 1]);
    }
  }

  lemma ShrOfShl(v: nat, k: nat)
    ensures Shr(Shl(v, k), k) == v
  {
    if k > 0 {
      ShrOfShl(v, k - 1);
    }
  }

  /** A terminating bin of 1 followed by the finishing bits leaves the data inside the last interval. */
  lemma FinishHits(c: Coder, tail: seq<bit>)
    requires Normal(c)
    ensures |FinishBits(Step(c, Terminate(1)).at)| == c.at.shifts + 9
    ensures Hits(Subdivide(c, Terminate(1)), FinishBits(Step(c, Terminate(1)).at) + tail)
  {
    var v := Subdivide(c, Terminate(1));
    TwoTakesSevenShifts(v);
    ShrOfShl(v.low, 7);
    var bs := FinishBits(Renorm(v));
    var marked := v.low / 2 * 2 + 1;
    assert bs == BitsOf(v.shifts + 9, marked);
    ValOfBits(v.shifts + 9, marked);
    PrefixValIsVal(bs + tail, v.shifts + 9);
    assert (bs + tail)[..v.shifts + 9] == bs;
  }

  lemma TwoTakesSevenShifts(v: Interval)
    requires v.range == 2
    ensures Renorm(v) == Interval(Shl(v.low, 7), 256, v.shifts + 7)
  {
    hide Shl;
    var w := Renorm(Interval(2 * v.low, 4, v.shifts + 1));
    assert w == Renorm(Interval(4 * v.low, 8, v.shifts + 2));
    assert w == Renorm(Interval(8 * v.low, 16, v.shifts + 3));
    assert w == Renorm(Interval(16 * v.low, 32, v.shifts + 4));
    assert w == Renorm(Interval(32 * v.low, 64, v.shifts + 5));
    assert w == Renorm(Interval(64 * v.low, 128, v.shifts + 6));
    assert w == Renorm(Interval(128 * v.low, 256, v.shifts + 7));
    ShlAsProduct(v.low, 7);
    Pow2Values();
  }

  /** Decoding recovers every bin and every context variable, whatever follows the encoded bits, and
      reads exactly the encoded bits: the last one read is the stop bit. */
  lemma RoundTrip(ctxs: seq<Context>, ops: seq<Op>, tail: seq<bit>)
    requires Known(ops, |ctxs|) && ops != [] && EndsOnlyAtEnd(ops)
    ensures
      var bits := Encode(ctxs, ops) + tail;
      var (bins, last) := Decode(StartDecoder(bits, ctxs), Requests(ops), bits);
      && bins == Bins(ops)
      && last.ctxs == Run(Start(ctxs), ops).ctxs
      && last.pos == |Encode(ctxs, ops)|
      && Encode(ctxs, ops)[last.pos - 1] == 1
  {
    var n := |ops| - 1;
    var start, before := Start(ctxs), ops[..n];
    var bits := Encode(ctxs, ops) + tail;
    EndSplit(ops);
    RunThenTerminate(start, before);
    FinishHits(Run(start, before), tail);
    DecodeFollows(start, before, StartDecoder(bits, ctxs), bits);
    LastBitIsStop(Run(start, ops).at);
  }

  lemma EndSplit(ops: seq<Op>)
    requires ops != [] && EndsOnlyAtEnd(ops)
    ensures ops == ops[..|ops| - 1] + [Terminate(1)]
    ensures Terminate(1) !in ops[..|ops| - 1]
    ensures Requests(ops) == Requests(ops[..|ops| - 1]) + [AskTerminate]
    ensures Bins(ops) == Bins(ops[..|ops| - 1]) + [1]
  {
    assert ops[|ops| - 1] == Terminate(1);
    forall i | 0 <= i < |ops| - 1 ensures ops[i] != Terminate(1) {
    }
  }

  lemma RunThenTerminate(c: Coder, ops: seq<Op>)
    requires Normal(c) && Known(ops, |c.ctxs|)
    ensures Known(ops + [Terminate(1)], |c.ctxs|)
    ensures Run(c, ops + [Terminate(1)]) == Step(Run(c, ops), Terminate(1))
  {
    RunAppend(c, ops, [Terminate(1)]);
    RunOne(Run(c, ops), Terminate(1));
  }

  lemma LastBitIsStop(v: Interval)
    ensures FinishBits(v)[v.shifts + 1] == 1
  {
    var m := Shr(v.low, 7) / 2 * 2 + 1;
    assert BitsOf(v.shifts + 2, m) == BitsOf(v.shifts + 1, m / 2) + [m % 2];
  }
}
