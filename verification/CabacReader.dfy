/** Reading coded bins one at a time, as a syntax parser does: what it asks for next may depend on what it has read. */
module CabacReader {
  import opened Bits
  import opened CabacCoder

  datatype Reading = Differs | At(d: Decoder)

  /** Decoding one bin under the context of `op` gives the bin of `op`; a terminating bin of 1 ends the data. */
  function ReadOp(d: Decoder, op: Op, bits: seq<bit>): Reading
  {
    if d.range < 256 || (op.Decision? && op.ctx >= |d.ctxs|) then Differs
    else
      var (bin, d') := if op.Decision? then DecodeDecision(d, op.ctx, bits) else DecodeTerminate(d, bits);
      if bin == op.bin then At(d') else Differs
  }

  function ReadOps(d: Decoder, ops: seq<Op>, bits: seq<bit>): Reading
    decreases |ops|
  {
    if ops == [] then At(d)
    else
      var r := ReadOp(d, ops[0], bits);
      if r.Differs? then Differs else ReadOps(r.d, ops[1..], bits)
  }

  lemma {:induction false} ReadAppend(d: Decoder, a: seq<Op>, b: seq<Op>, bits: seq<bit>)
    ensures ReadOps(d, a + b, bits)
         == if ReadOps(d, a, bits).Differs? then Differs else ReadOps(ReadOps(d, a, bits).d, b, bits)
    decreases |a|
  {
    hide ReadOp;
    if a == [] {
      assert a + b == b;
    } else {
      assert (a + b)[1..] == a[1..] + b;
      var r := ReadOp(d, a[0], bits);
      if r.At? {
        ReadAppend(r.d, a[1..], b, bits);
      }
    }
  }

  lemma ReadOne(d: Decoder, op: Op, bits: seq<bit>)
    ensures ReadOps(d, [op], bits) == ReadOp(d, op, bits)
  {
    assert [op][1..] == [];
  }

  /** A decoder in step with the coder stays so over data that lies in the interval of the whole run. */
  lemma {:induction false} ReadFollows(c: Coder, ops: seq<Op>, d: Decoder, bits: seq<bit>)
    requires Normal(c) && Known(ops, |c.ctxs|) && InStep(c.at, d, bits) && d.ctxs == c.ctxs
    requires Terminate(1) !in ops && Hits(Subdivide(Run(c, ops), Terminate(1)), bits)
    ensures var r := ReadOps(d, ops, bits);
      r.At? && InStep(Run(c, ops).at, r.d, bits) && r.d.ctxs == Run(c, ops).ctxs
    decreases |ops|
  {
    hide Hits, LpsRange, Adapt, Renorm, RenormD, Pow2, PrefixVal, InStep;
    if ops != [] {
      var op, rest := ops[0], ops[1..];
      assert [op] == ops[..1];
      HitsFromEnd(c, ops, bits);
      assert op != Terminate(1) by { assert op in ops; }
      ReadFollowsOne(c, op, d, bits);
      ReadFollows(Step(c, op), rest, ReadOp(d, op, bits).d, bits);
    }
  }

  lemma ReadFollowsOne(c: Coder, op: Op, d: Decoder, bits: seq<bit>)
    requires Normal(c) && Known([op], |c.ctxs|) && InStep(c.at, d, bits) && d.ctxs == c.ctxs
    requires op != Terminate(1) && Hits(Subdivide(c, op), bits)
    ensures var r := ReadOp(d, op, bits);
      r.At? && InStep(Step(c, op).at, r.d, bits) && r.d.ctxs == Step(c, op).ctxs
  {
    hide LpsRange, Adapt, Renorm, RenormD, Pow2, PrefixVal;
    assert [op][0] == op;
    match op
    case Decision(i, bin) => DecisionDecoded(c, i, bin, d, bits);
    case Terminate(bin) =>
      RenormInStep(Subdivide(c, op), d.(range := d.range - 2), bits);
  }

  /** All of a run but its last terminating bin is read back bin by bin, and then that bin. */
  lemma ReadsBack(ctxs: seq<Context>, ops: seq<Op>, tail: seq<bit>)
    requires Known(ops, |ctxs|) && ops != [] && EndsOnlyAtEnd(ops)
    ensures
      var bits := Encode(ctxs, ops) + tail;
      var r := ReadOps(StartDecoder(bits, ctxs), ops[..|ops| - 1], bits);
      && r.At? && r.d.range >= 256 && |r.d.ctxs| == |ctxs| && DecodeTerminate(r.d, bits).0 == 1
      && DecodeTerminate(r.d, bits).1.pos == r.d.pos == |Encode(ctxs, ops)|
  {
    hide Pow2, PrefixVal, Renorm, RenormD;
    var n := |ops| - 1;
    var start, before := Start(ctxs), ops[..n];
    var bits := Encode(ctxs, ops) + tail;
    EndSplit(ops);
    RunThenTerminate(start, before);
    FinishHits(Run(start, before), tail);
    ReadFollows(start, before, StartDecoder(bits, ctxs), bits);
  }
}
