/** The AVC skipped-picture generator of lib_bitstream/AVC_SkippedPict.c. */
module AvcSkipped {
  import opened Bits
  import opened BitStream
  import opened ExpGolomb
  import opened CabacTables
  import CabacStandard
  import opened CabacCoder
  import opened CabacReader
  import opened Cabac
  import opened SkippedPictures

  const TAB_STATE: seq<StateIdx> := [6, 3, 0]
  const TAB_VAL_MPS: seq<bit> := [1, 0, 0]

  function SkipContext(iCabacInitIdc: nat): (r: seq<Context>)
    requires iCabacInitIdc <= 2
    ensures |r| == 1
  {
    [Context(TAB_STATE[iCabacInitIdc], TAB_VAL_MPS[iCabacInitIdc])]
  }

  /** Table 9-13 of H.264 for ctxIdx 11, the first context of mb_skip_flag in P slices. */
  function MbSkipSlope(cabac_init_idc: nat): int
  {
    match cabac_init_idc case 0 => 23 case 1 => 22 case _ => 29
  }

  function MbSkipOffset(cabac_init_idc: nat): int
  {
    match cabac_init_idc case 0 => 33 case 1 => 25 case _ => 16
  }

  /** The context that a decoder starts a slice of this quantiser with. */
  function MbSkipContext(cabac_init_idc: nat, sliceQp: int): (r: seq<Context>)
    ensures |r| == 1
  {
    var (pStateIdx, valMps) :=
      CabacStandard.Initialised(MbSkipSlope(cabac_init_idc), MbSkipOffset(cabac_init_idc), sliceQp);
    [Context(pStateIdx, valMps)]
  }

  /** The encoder's fixed states are what a decoder starts with if and only if the quantiser of the slice is 26. */
  lemma StartsAsStandardIff(iCabacInitIdc: nat, sliceQp: int)
    requires iCabacInitIdc <= 2
    ensures SkipContext(iCabacInitIdc) == MbSkipContext(iCabacInitIdc, sliceQp) <==> sliceQp == 26
  {
    var slope, offset := MbSkipSlope(iCabacInitIdc), MbSkipOffset(iCabacInitIdc);
    var sum := slope * CabacStandard.Clip3(0, 51, sliceQp) / 16 + offset;
    assert SkipContext(iCabacInitIdc)[0] == if iCabacInitIdc == 0 then Context(6, 1) else if iCabacInitIdc == 1 then
           Context(3, 0) else Context(0, 0);
    assert sum == (if iCabacInitIdc == 0 then 70 else if iCabacInitIdc == 1 then 60 else 63) <==> sliceQp == 26;
  }

  /** mb_skip_flag and end_of_slice_flag of the first `k` of `n` macroblocks. */
  function SkippedMbs(k: nat, n: nat): (ops: seq<Op>)
    ensures |ops| == 2 * k && Known(ops, 1)
  {
    if k == 0 then [] else SkippedMbs(k - 1, n) + [Decision(0, 1), Terminate(if k == n then 1 else 0)]
  }

  function MbCount(iNumMBs: int): nat { if iNumMBs > 0 then iNumMBs else 0 }

  /** The slice data of a skipped picture, padded to a byte. */
  function SkippedBits(before: seq<bit>, iCabacInitIdc: nat, n: nat): seq<bit>
    requires iCabacInitIdc <= 2
  {
    var whole := before + Encode(SkipContext(iCabacInitIdc), SkippedMbs(n, n));
    whole + Repeat(Padding(|whole|), 0)
  }

  method GenerateSkippedPictureCavlc(bs: BitStreamLite, iNumMBs: nat)
    requires bs.Valid() && iNumMBs < 0x7FFF_FFFF
    modifies bs, bs.pData
    ensures bs.Valid() && bs.pData == old(bs.pData)
    ensures var whole := old(bs.Contents) + UeBits(iNumMBs) + [1];
            bs.Contents == whole + Repeat(Padding(|whole|), 0)
  {
    Pow2Values();
    bs.PutUE(iNumMBs);
    bs.PutU(1, 1);
    assert BitsOf(1, 1) == BitsOf(0, 0) + [1] == [1];
    bs.AlignWithBits(0);
  }

  method GenerateSkippedPictureCabac(bs: BitStreamLite, iCabacInitIdc: nat, iNumMBs: int) returns (uBins: nat)
    requires bs.Valid() && iCabacInitIdc <= 2
    modifies bs, bs.pData
    ensures bs.Valid() && bs.pData == old(bs.pData)
    ensures bs.Contents == SkippedBits(old(bs.Contents), iCabacInitIdc, MbCount(iNumMBs))
    ensures uBins == 2 * MbCount(iNumMBs)
  {
    hide Run, Step, Val, Shl, Pow2, ExactLow, Holds, FinishBits, SkippedMbs;
    var uState := new StateIdx[1] [TAB_STATE[iCabacInitIdc]];
    var uValMPS := new bit[1] [TAB_VAL_MPS[iCabacInitIdc]];
    var ctx := new CabacCtx(bs);
    ghost var n := MbCount(iNumMBs);
    ghost var c := Start(SkipContext(iCabacInitIdc));
    assert ContextsOf(uState[..], uValMPS[..]) == SkipContext(iCabacInitIdc);
    NoMbs(c, n);
    uBins := 0;
    var iMB := 1;
    while iMB <= iNumMBs
      invariant 1 <= iMB <= n + 1 && uBins == 2 * (iMB - 1)
      invariant ctx.Valid(bs) && bs.pData == old(bs.pData) && ctx.prefix == old(bs.Contents)
      invariant fresh(ctx) && fresh(uState) && fresh(uValMPS)
      invariant ctx.View(uState, uValMPS) == Run(c, SkippedMbs(iMB - 1, n))
    {
      ctx.WriteBin(bs, uState, uValMPS, 0, 1);
      uBins := uBins + 1;
      ctx.Terminate(bs, if iMB == iNumMBs then 1 else 0);
      uBins := uBins + 1;
      NextMb(c, iMB, n);
      iMB := iMB + 1;
    }
    ctx.Finish(bs);
  }

  lemma NoMbs(c: Coder, n: nat)
    requires Normal(c) && |c.ctxs| == 1
    ensures Run(c, SkippedMbs(0, n)) == c
  {
  }

  lemma NextMb(c: Coder, k: nat, n: nat)
    requires Normal(c) && |c.ctxs| == 1 && k > 0
    ensures Known([Decision(0, 1)], 1)
    ensures Run(c, SkippedMbs(k, n))
         == Step(Step(Run(c, SkippedMbs(k - 1, n)), Decision(0, 1)), Terminate(if k == n then 1 else 0))
  {
    hide Step;
    var a, x, y := SkippedMbs(k - 1, n), Decision(0, 1), Terminate(if k == n then 1 else 0);
    RunAppend(c, a, [x]);
    RunOne(Run(c, a), x);
    RunAppend(c, a + [x], [y]);
    RunOne(Run(c, a + [x]), y);
    assert a + [x] + [y] == SkippedMbs(k, n);
  }

  lemma {:induction false} SkippedMbsAre(k: nat, n: nat, i: nat)
    requires i < k
    ensures SkippedMbs(k, n)[2 * i] == Decision(0, 1)
    ensures SkippedMbs(k, n)[2 * i + 1] == Terminate(if i + 1 == n then 1 else 0)
  {
    if i < k - 1 {
      SkippedMbsAre(k - 1, n, i);
    }
  }

  /** A standard decoder of a slice with quantiser 26 finds exactly `n` skipped macroblocks and the end of slice
      after the last one only. */
  lemma DecodesToSkippedMbs(iCabacInitIdc: nat, n: nat, tail: seq<bit>)
    requires iCabacInitIdc <= 2 && n > 0
    ensures
      var code := Encode(SkipContext(iCabacInitIdc), SkippedMbs(n, n));
      var bits := code + tail;
      var (bins, last) :=
        Decode(StartDecoder(bits, MbSkipContext(iCabacInitIdc, 26)), Requests(SkippedMbs(n, n)), bits);
      && |bins| == 2 * n
      && (forall i :: 0 <= i < n ==> bins[2 * i] == 1 && bins[2 * i + 1] == if i == n - 1 then 1 else 0)
      && last.pos == |code|
  {
    var ops := SkippedMbs(n, n);
    forall i | 0 <= i < n
      ensures ops[2 * i] == Decision(0, 1) && ops[2 * i + 1] == Terminate(if i == n - 1 then 1 else 0)
    {
      SkippedMbsAre(n, n, i);
    }
    SkippedMbsEnd(n);
    StartsAsStandardIff(iCabacInitIdc, 26);
    RoundTrip(SkipContext(iCabacInitIdc), ops, tail);
  }

  // ---- A parser that is not told the number of macroblocks ----

  datatype SliceData = Broken | Skipped(mbs: nat, pos: nat)

  /** slice_data( ) of section 7.3.4 of H.264 until end_of_slice_flag, in a picture with room for `room` more
      macroblocks. It follows skipped macroblocks only; with skipped neighbours mb_skip_flag always takes its
      first context (section 9.3.3.1.1.1). */
  function ParseSliceData(d: Decoder, bits: seq<bit>, room: nat): SliceData
    requires d.range >= 256 && |d.ctxs| == 1
    decreases room
  {
    if room == 0 then Broken
    else
      DecodedInRange(d, 0, bits);
      var (mb_skip_flag, d1) := DecodeDecision(d, 0, bits);
      if mb_skip_flag == 0 then Broken
      else
        RenormDKeeps(d1.(range := d1.range - 2), bits);
        var (end_of_slice_flag, d2) := DecodeTerminate(d1, bits);
        if end_of_slice_flag == 1 then Skipped(1, d2.pos)
        else
          var rest := ParseSliceData(d2, bits, room - 1);
          if rest.Broken? then Broken else rest.(mbs := rest.mbs + 1)
  }

  /** All but the last flag of `k` skipped macroblocks. */
  function Unfinished(k: nat): (ops: seq<Op>)
    requires k > 0
    ensures |ops| == 2 * k - 1
  {
    if k == 1 then [Decision(0, 1)] else [Decision(0, 1), Terminate(0)] + Unfinished(k - 1)
  }

  lemma {:induction false} UnfinishedAre(k: nat, i: nat)
    requires i < 2 * k - 1
    ensures Unfinished(k)[i] == if i % 2 == 0 then Decision(0, 1) else Terminate(0)
  {
    if k > 1 && i >= 2 {
      UnfinishedAre(k - 1, i - 2);
    }
  }

  lemma {:induction false} ParsesUnfinished(d: Decoder, k: nat, bits: seq<bit>, room: nat)
    requires k > 0 && d.range >= 256 && |d.ctxs| == 1
    requires var r := ReadOps(d, Unfinished(k), bits);
      r.At? && r.d.range >= 256 && DecodeTerminate(r.d, bits).0 == 1
    ensures ParseSliceData(d, bits, room)
         == if k <= room then Skipped(k, ReadOps(d, Unfinished(k), bits).d.pos) else Broken
    decreases k
  {
    hide DecodeDecision, RenormD;
    var ops := Unfinished(k);
    assert ops[0] == Decision(0, 1);
    DecodedInRange(d, 0, bits);
    if k > 1 {
      assert ops[1..][0] == Terminate(0) && ops[1..][1..] == Unfinished(k - 1);
      var d1 := DecodeDecision(d, 0, bits).1;
      RenormDKeeps(d1.(range := d1.range - 2), bits);
      if room > 0 {
        ParsesUnfinished(DecodeTerminate(d1, bits).1, k - 1, bits, room - 1);
      }
    }
  }

  /** From the code alone the parser finds that the slice has `n` macroblocks, all skipped, whatever follows it
      and however large the picture is; in a smaller picture it finds the slice broken. */
  lemma ParserCountsMbs(iCabacInitIdc: nat, n: nat, tail: seq<bit>, room: nat)
    requires iCabacInitIdc <= 2 && n > 0
    ensures
      var code := Encode(SkipContext(iCabacInitIdc), SkippedMbs(n, n));
      var bits := code + tail;
      ParseSliceData(StartDecoder(bits, MbSkipContext(iCabacInitIdc, 26)), bits, room)
      == if n <= room then Skipped(n, |code|) else Broken
  {
    var ops := SkippedMbs(n, n);
    SkippedMbsEnd(n);
    StartsAsStandardIff(iCabacInitIdc, 26);
    forall i | 0 <= i < 2 * n - 1 ensures ops[i] == Unfinished(n)[i] {
      SkippedMbsAre(n, n, i / 2);
      UnfinishedAre(n, i);
    }
    assert ops[..|ops| - 1] == Unfinished(n);
    hide Encode, SkippedMbs, Unfinished, ReadOps, DecodeTerminate, PrefixVal;
    ReadsBack(SkipContext(iCabacInitIdc), ops, tail);
    var bits := Encode(SkipContext(iCabacInitIdc), ops) + tail;
    ParsesUnfinished(StartDecoder(bits, SkipContext(iCabacInitIdc)), n, bits, room);
  }

  lemma SkippedMbsEnd(n: nat)
    requires n > 0
    ensures EndsOnlyAtEnd(SkippedMbs(n, n))
  {
    var ops := SkippedMbs(n, n);
    forall i | 0 <= i < |ops| ensures ops[i] == Terminate(1) <==> i == |ops| - 1 {
      SkippedMbsAre(n, n, i / 2);
      assert i == 2 * (i / 2) || i == 2 * (i / 2) + 1;
    }
  }

  /** The same from the bytes of a buffer that starts with the slice. */
  lemma ParserCountsMbsOf(bytes: seq<uint8>, iCabacInitIdc: nat, n: nat, room: nat)
    requires iCabacInitIdc <= 2 && n > 0 && Packed(SkippedBits([], iCabacInitIdc, n)) <= bytes
    ensures
      var bits := Unpack(bytes);
      ParseSliceData(StartDecoder(bits, MbSkipContext(iCabacInitIdc, 26)), bits, room)
      == if n <= room then Skipped(n, |Encode(SkipContext(iCabacInitIdc), SkippedMbs(n, n))|) else Broken
  {
    hide Packed, Unpack, Encode, SkippedMbs, PrefixVal, ParseSliceData;
    var code := Encode(SkipContext(iCabacInitIdc), SkippedMbs(n, n));
    UnpackPrefix(SkippedBits([], iCabacInitIdc, n), bytes);
    assert [] + code == code;
    assert code <= Unpack(bytes);
    var tail := Unpack(bytes)[|code|..];
    assert Unpack(bytes) == code + tail;
    ParserCountsMbs(iCabacInitIdc, n, tail, room);
  }

  method GenerateSkippedPicture(pSkipPict: SkippedPicture?, iNumMBs: int, bCabac: bool, iCabacInitIdc: nat)
    returns (ok: bool)
    requires iCabacInitIdc <= 2
    requires pSkipPict != null ==> pSkipPict.tSkippedSlice.Length > 0
    modifies pSkipPict, if pSkipPict == null then {} else {pSkipPict.tSkippedSlice},
             if pSkipPict == null || pSkipPict.pData == null then {} else {pSkipPict.pData}
    ensures ok <==> pSkipPict != null && old(pSkipPict.pData) != null
    ensures ok ==>
              var bits := if bCabac then SkippedBits([], iCabacInitIdc, MbCount(iNumMBs)) else [];
              && pSkipPict.pData == old(pSkipPict.pData) && pSkipPict.pData != null
              && pSkipPict.iNumSlices == 1
              && pSkipPict.tSkippedSlice[0] == SkippedSlice(0, |Packed(bits)|, 0)
              && pSkipPict.iNumBins == (if bCabac then 2 * MbCount(iNumMBs) else 0)
              && (|Packed(bits)| <= pSkipPict.pData.Length ==> Packed(bits) <= pSkipPict.pData[..])
    ensures ok && bCabac && iNumMBs > 0
            && |Packed(SkippedBits([], iCabacInitIdc, iNumMBs))| <= pSkipPict.pData.Length ==>
              var bits := Unpack(pSkipPict.pData[..]);
              var slice := ParseSliceData(StartDecoder(bits, MbSkipContext(iCabacInitIdc, 26)), bits, iNumMBs);
              slice.Skipped? && slice.mbs == iNumMBs
  {
    hide Holds, Packed, SkippedBits, ParseSliceData, Unpack;
    if pSkipPict == null || pSkipPict.pData == null {
      return false;
    }
    var bs := new BitStreamLite(pSkipPict.pData);
    var iBinsCount := 0;
    if bCabac {
      iBinsCount := GenerateSkippedPictureCabac(bs, iCabacInitIdc, iNumMBs);
    }
    pSkipPict.iNumSlices := 1;
    pSkipPict.tSkippedSlice[0] := SkippedSlice(0, (bs.iBitCount + 7) / 8, 0);
    pSkipPict.iNumBins := iBinsCount;
    if !bs.isOverflow {
      bs.HoldsPackedBits();
      if bCabac && iNumMBs > 0 {
        ParserCountsMbsOf(pSkipPict.pData[..], iCabacInitIdc, iNumMBs, iNumMBs);
      }
    }
    return true;
  }
}
