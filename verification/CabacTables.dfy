/** The three tables of lib_bitstream/Cabac.c (sub-range of the less probable symbol and state transitions). */
module CabacTables {
  import CabacStandard

  type StateIdx = CabacStandard.StateIdx

  /** One row: four sub-ranges, none empty, none so wide that the other symbol has no room. */
  type SubRangeRow = r: seq<int> | |r| == 4 && 2 <= r[0] <= r[1] <= r[2] <= r[3] <= 240 witness [2, 2, 2, 2]

  // The tables are split into runs of sixteen states.
  const RANGE_LPS_0: seq<SubRangeRow> := [
      [128, 176, 208, 240], [128, 167, 197, 227], [128, 158, 187, 216], [123, 150, 178, 205],
      [116, 142, 169, 195], [111, 135, 160, 185], [105, 128, 152, 175], [100, 122, 144, 166],
      [95, 116, 137, 158], [90, 110, 130, 150], [85, 104, 123, 142], [81, 99, 117, 135],
      [77, 94, 111, 128], [73, 89, 105, 122], [69, 85, 100, 116], [66, 80, 95, 110]
    ]
  const RANGE_LPS_1: seq<SubRangeRow> := [
      [62, 76, 90, 104], [59, 72, 86, 99], [56, 69, 81, 94], [53, 65, 77, 89],
      [51, 62, 73, 85], [48, 59, 69, 80], [46, 56, 66, 76], [43, 53, 63, 72],
      [41, 50, 59, 69], [39, 48, 56, 65], [37, 45, 54, 62], [35, 43, 51, 59],
      [33, 41, 48, 56], [32, 39, 46, 53], [30, 37, 43, 50], [29, 35, 41, 48]
    ]
  const RANGE_LPS_2: seq<SubRangeRow> := [
      [27, 33, 39, 45], [26, 31, 37, 43], [24, 30, 35, 41], [23, 28, 33, 39],
      [22, 27, 32, 37], [21, 26, 30, 35], [20, 24, 29, 33], [19, 23, 27, 31],
      [18, 22, 26, 30], [17, 21, 25, 28], [16, 20, 23, 27], [15, 19, 22, 25],
      [14, 18, 21, 24], [14, 17, 20, 23], [13, 16, 19, 22], [12, 15, 18, 21]
    ]
  const RANGE_LPS_3: seq<SubRangeRow> := [
      [12, 14, 17, 20], [11, 14, 16, 19], [11, 13, 15, 18], [10, 12, 15, 17],
      [10, 12, 14, 16], [9, 11, 13, 15], [9, 11, 12, 14], [8, 10, 12, 14],
      [8, 9, 11, 13], [7, 9, 11, 12], [7, 9, 10, 12], [7, 8, 10, 11],
      [6, 8, 9, 11], [6, 7, 9, 10], [6, 7, 8, 9], [2, 2, 2, 2]
    ]

  const TRANS_IDX_MPS_0: seq<nat> := [1, 2, 3, 4, 5, 6, 7, 8, 9, 10, 11, 12, 13, 14, 15, 16]
  const TRANS_IDX_MPS_1: seq<nat> := [17, 18, 19, 20, 21, 22, 23, 24, 25, 26, 27, 28, 29, 30, 31, 32]
  const TRANS_IDX_MPS_2: seq<nat> := [33, 34, 35, 36, 37, 38, 39, 40, 41, 42, 43, 44, 45, 46, 47, 48]
  const TRANS_IDX_MPS_3: seq<nat> := [49, 50, 51, 52, 53, 54, 55, 56, 57, 58, 59, 60, 61, 62, 62, 63]

  const TRANS_IDX_LPS_0: seq<nat> := [0, 0, 1, 2, 2, 4, 4, 5, 6, 7, 8, 9, 9, 11, 11, 12]
  const TRANS_IDX_LPS_1: seq<nat> := [13, 13, 15, 15, 16, 16, 18, 18, 19, 19, 21, 21, 22, 22, 23, 24]
  const TRANS_IDX_LPS_2: seq<nat> := [24, 25, 26, 26, 27, 27, 28, 29, 29, 30, 30, 30, 31, 32, 32, 33]
  const TRANS_IDX_LPS_3: seq<nat> := [33, 33, 34, 34, 35, 35, 35, 36, 36, 36, 37, 37, 37, 38, 38, 63]

  /** Entry `s` of a table given as four runs. */
  function Entry<T>(a: seq<T>, b: seq<T>, c: seq<T>, d: seq<T>, s: StateIdx): T
    requires |a| == |b| == |c| == |d| == 16
  {
    if s < 16 then a[s] else if s < 32 then b[s - 16] else if s < 48 then c[s - 32] else d[s - 48]
  }

  /** The sub-range of the less probable symbol: never empty, and it always leaves room for the other one. */
  function SubRange(s: StateIdx, q: int): (r: nat)
    requires 0 <= q < 4
    ensures 2 <= r <= 240
  {
    Entry(RANGE_LPS_0, RANGE_LPS_1, RANGE_LPS_2, RANGE_LPS_3, s)[q]
  }

  function NextAfterMps(s: StateIdx): (t: StateIdx)
    ensures t == if s < 62 then s + 1 else s
  {
    Entry(TRANS_IDX_MPS_0, TRANS_IDX_MPS_1, TRANS_IDX_MPS_2, TRANS_IDX_MPS_3, s)
  }

  function NextAfterLps(s: StateIdx): (t: StateIdx)
    ensures (t < s || s == 0 == t || s == 63 == t) && (t == 63 <==> s == 63)
  {
    Entry(TRANS_IDX_LPS_0, TRANS_IDX_LPS_1, TRANS_IDX_LPS_2, TRANS_IDX_LPS_3, s)
  }
}
