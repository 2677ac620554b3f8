/** What ITU-T H.264 and ITU-T H.265 say about context variables, in their own tables and formulas: Table 9-44,
    Table 9-45 and section 9.3.3.2.1.1 of H.264, and the initialisation of sections 9.3.1.1 of H.264 and 9.3.2.2
    of H.265. The decoder uses these; the encoder has tables of its own. */
module CabacStandard {
  import opened Bits

  /** pStateIdx. State 63 is kept for the terminating bin. */
  type StateIdx = s: int | 0 <= s < 64

  /** Never empty, and always leaves room for the other symbol. */
  type CodIRangeLps = r: int | 2 <= r <= 240 witness 2

  // ---- Table 9-44, a column for each value of qCodIRangeIdx ----

  const RANGE_0_0: seq<CodIRangeLps> := [128, 128, 128, 123, 116, 111, 105, 100, 95, 90, 85, 81, 77, 73, 69, 66]
  const RANGE_0_16: seq<CodIRangeLps> := [62, 59, 56, 53, 51, 48, 46, 43, 41, 39, 37, 35, 33, 32, 30, 29]
  const RANGE_0_32: seq<CodIRangeLps> := [27, 26, 24, 23, 22, 21, 20, 19, 18, 17, 16, 15, 14, 14, 13, 12]
  const RANGE_0_48: seq<CodIRangeLps> := [12, 11, 11, 10, 10, 9, 9, 8, 8, 7, 7, 7, 6, 6, 6, 2]
  const RANGE_1_0: seq<CodIRangeLps> := [176, 167, 158, 150, 142, 135, 128, 122, 116, 110, 104, 99, 94, 89, 85, 80]
  const RANGE_1_16: seq<CodIRangeLps> := [76, 72, 69, 65, 62, 59, 56, 53, 50, 48, 45, 43, 41, 39, 37, 35]
  const RANGE_1_32: seq<CodIRangeLps> := [33, 31, 30, 28, 27, 26, 24, 23, 22, 21, 20, 19, 18, 17, 16, 15]
  const RANGE_1_48: seq<CodIRangeLps> := [14, 14, 13, 12, 12, 11, 11, 10, 9, 9, 9, 8, 8, 7, 7, 2]
  const RANGE_2_0: seq<CodIRangeLps> := [208, 197, 187, 178, 169, 160, 152, 144, 137, 130, 123, 117, 111, 105, 100, 95]
  const RANGE_2_16: seq<CodIRangeLps> := [90, 86, 81, 77, 73, 69, 66, 63, 59, 56, 54, 51, 48, 46, 43, 41]
  const RANGE_2_32: seq<CodIRangeLps> := [39, 37, 35, 33, 32, 30, 29, 27, 26, 25, 23, 22, 21, 20, 19, 18]
  const RANGE_2_48: seq<CodIRangeLps> := [17, 16, 15, 15, 14, 13, 12, 12, 11, 11, 10, 10, 9, 9, 8, 2]
  const RANGE_3_0: seq<CodIRangeLps> := [240, 227, 216, 205, 195, 185, 175, 166, 158, 150, 142, 135, 128, 122, 116, 110]
  const RANGE_3_16: seq<CodIRangeLps> := [104, 99, 94, 89, 85, 80, 76, 72, 69, 65, 62, 59, 56, 53, 50, 48]
  const RANGE_3_32: seq<CodIRangeLps> := [45, 43, 41, 39, 37, 35, 33, 31, 30, 28, 27, 25, 24, 23, 22, 21]
  const RANGE_3_48: seq<CodIRangeLps> := [20, 19, 18, 17, 16, 15, 14, 14, 13, 12, 12, 11, 11, 10, 9, 2]

  // ---- Table 9-45, transIdxLPS ----

  const AFTER_LPS_0: seq<StateIdx> := [0, 0, 1, 2, 2, 4, 4, 5, 6, 7, 8, 9, 9, 11, 11, 12]
  const AFTER_LPS_16: seq<StateIdx> := [13, 13, 15, 15, 16, 16, 18, 18, 19, 19, 21, 21, 22, 22, 23, 24]
  const AFTER_LPS_32: seq<StateIdx> := [24, 25, 26, 26, 27, 27, 28, 29, 29, 30, 30, 30, 31, 32, 32, 33]
  const AFTER_LPS_48: seq<StateIdx> := [33, 33, 34, 34, 35, 35, 35, 36, 36, 36, 37, 37, 37, 38, 38, 63]

  /** Number `s` of four runs of sixteen. */
  function Pick<T>(s: StateIdx, a: seq<T>, b: seq<T>, c: seq<T>, d: seq<T>): T
    requires |a| == |b| == |c| == |d| == 16
  {
    match s / 16
    case 0 => a[s] case 1 => b[s - 16] case 2 => c[s - 32] case _ => d[s - 48]
  }

  /** Which of four parts of [256, 512) the range lies in. */
  function QCodIRangeIdx(codIRange: nat): (q: nat)
    ensures q < 4
  {
    if codIRange < 320 then 0 else if codIRange < 384 then 1 else if codIRange < 448 then 2 else 3
  }

  function RangeTabLps(s: StateIdx, q: nat): CodIRangeLps
  {
    match q
    case 0 => Pick(s, RANGE_0_0, RANGE_0_16, RANGE_0_32, RANGE_0_48)
    case 1 => Pick(s, RANGE_1_0, RANGE_1_16, RANGE_1_32, RANGE_1_48)
    case 2 => Pick(s, RANGE_2_0, RANGE_2_16, RANGE_2_32, RANGE_2_48)
    case _ => Pick(s, RANGE_3_0, RANGE_3_16, RANGE_3_32, RANGE_3_48)
  }

  function TransIdxLps(s: StateIdx): StateIdx
  {
    Pick(s, AFTER_LPS_0, AFTER_LPS_16, AFTER_LPS_32, AFTER_LPS_48)
  }

  function TransIdxMps(s: StateIdx): StateIdx { if s == 63 then 63 else if s == 62 then 62 else s + 1 }

  /** Section 9.3.3.2.1.1: after the less probable symbol in state 0 the two symbols change places. */
  function NextValMps(s: StateIdx, valMps: bit, binVal: bit): bit
  {
    if binVal != valMps && s == 0 then 1 - valMps else valMps
  }

  function NextStateIdx(s: StateIdx, valMps: bit, binVal: bit): StateIdx
  {
    if binVal == valMps then TransIdxMps(s) else TransIdxLps(s)
  }

  // ---- Initialisation ----

  function Clip3(low: int, high: int, v: int): int { if v < low then low else if v > high then high else v }

  /** pStateIdx and valMPS for the slope `m` and the offset `n`; the division rounds down, as a right shift does. */
  function Initialised(m: int, n: int, sliceQp: int): (StateIdx, bit)
  {
    var preCtxState := Clip3(1, 126, m * Clip3(0, 51, sliceQp) / 16 + n);
    if preCtxState <= 63 then (63 - preCtxState, 0) else (preCtxState - 64, 1)
  }

  /** H.265 puts slope and offset into one byte, initValue. */
  function InitialisedBy(initValue: nat, sliceQp: int): (StateIdx, bit)
    requires initValue < 256
  {
    Initialised(initValue / 16 * 5 - 45, initValue % 16 * 8 - 16, sliceQp)
  }
}
