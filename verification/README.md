# Verified models of the Allegro DVT control software

This project models the parts of the encoder and decoder control software in which bits, buffers and
rates are computed, and proves that they do what the standards and the design promise. The layers are:

* **Bits and codes.** `Bits`, `ExpGolomb`, `BitStreamLite`: numbers as bit strings, Exp-Golomb codes with
  their parser, and the bit writer with its buffer, bit count and overflow flag.
* **Arithmetic coding.** `CabacTables`, `CabacStandard`, `CabacCoder`, `CabacReader`, `Cabac`: an exact interval
  coder on unbounded numbers, the decoder of ITU-T H.264 9.3.1.2 and 9.3.3.2 with tables and context
  initialisation stated apart from the encoder's, and the encoder with its bounded
  registers, outstanding bits and suppressed first bit, which refines it.
* **Skipped pictures.** `AvcSkipped`, `Quadtree`, `HevcSkipped`, `HevcTile`, `HevcParser`, `HevcStream`,
  `HevcPicture`, `SkippedPicture`, `AntiEmulation`: pictures made of skipped blocks only, the implicit splits at picture
  edges, tiles, slices and emulation prevention, and the parsers of both standards that read them back from
  the bytes of the buffer.
* **Scaling lists.** `ScalingLists` (AVC) and `HevcScalingLists` with the parsers of both standards.
* **Buffer pool.** `AppFifo` is the ring with its indices; `BufPool` is the protocol of semaphore, mutex
  and auto-reset event as a state machine over the steps of any number of threads.
* **Application library.** `Json`, `JsonRoundTrip`, `JsonFile` (writer and reader) and `JsonGrammar` (a parser of
  RFC 8259), `Levenshtein` (spelling suggestions), `Md5`, `Md5Digest` and, against RFC 1321 on integers and its
  test vectors, `WordNumbers`, `Md5Rfc` and `Md5Vectors`; expressions in configuration files in `Arithmetic` and `ArithmeticValues`,
  with parentheses in `ArithmeticGroups`, `ArithmeticParens`, `ArithmeticParenValues`, `ArithmeticLostOperators`
  and `ArithmeticInstances`.
* **Applications.** `SinkYuvCrc` (picture checksums), `RoiMngr` (regions of interest), `TwoPassMngr` (rate
  levels), `SplitInput` (circular buffer of the bitstream splitter).

Code that works in place is modelled by classes, arrays and loops; each method is proved against a
function, and the properties are lemmas about that function. `dafny verify dfyconfig.toml` checks everything.

## Where the code does not do what one might expect

Each of these is proved, with the exact condition under which the code is right where there is one.

* `BufPool`: with two consumers one can sleep on without a time limit although a buffer is queued, or the
  pool decommitted, because the event wakes one waiter and is reset (`lib_rtos/lib_rtos.c:541-587`) and a
  second set of a set event is lost (`BufPool.NoLostWakeupIffOneConsumer`, `StuckAfterTwoQueues`,
  `StuckAfterDecommit`).
* `toReversePolish`: both associativity predicates always hold, so a second sign in front of an operand pops
  the first one too early. What comes out is exact for every expression without parentheses
  (`Arithmetic.ConvertsToPostfixIff`, `ArithmeticValues.ParseIsSignedTotal`), and it is right with all numbers
  exactly for the signs that `ArithmeticValues.SafeSigns` describes (`ParsesAllNumbersIff`).
* A closing parenthesis pops one entry too many: an operator or sign that stands directly before the parenthesis
  is lost, so `2*(3)` is rejected and `-(3)` gives 3. What comes out is exact for every expression without doubled
  parentheses behind an operator or a sign (`ArithmeticParenValues.ParseIsTotal`), and so is when it is right with
  all numbers (`GroupsParseIff`); without signs that is when every parenthesis opens at the start
  (`SignFreeParsesIff`). With doubled parentheses a lost operator still means rejection
  (`ArithmeticLostOperators.UnsafeGroupsRejected`), but what is kept may be regrouped: `2*((3)-4)` gives 2
  (`ArithmeticInstances.DoubledGroupMisread`) while `1+((2)*3)` is right (`DoubledGroupReadRight`).
* HEVC skipped tiles: neighbour availability assumes a left and an upper LCU, which a tile narrower or
  lower than one LCU does not have, and split_cu_flag is written even when an LCU is the minimum CU, where
  the syntax has none (`Quadtree.WrittenIsStandardIff`). A standard parser reads the first cu_skip_flag of
  each such tile as 0 (`HevcParser.ParserReadsTileIff`). `WriteSkippedCU` receives left and upper
  availability in either order; only their number matters.
* The bin count of an HEVC skipped picture is that of its last tile (`HevcStream.BinsAreTotalIff`,
  `TwoTilesMiscounted`).
* The initial states of the arithmetic coder are those of quantiser 26; for a slice with any other quantiser a
  decoder starts from others (`AvcSkipped.StartsAsStandardIff`, `HevcParser.StartsAsStandardIff`).
* Rounding can take the level of the two-pass encoder past the size of the buffer, by less than one per frame and
  run (`TwoPassMngr.CarriedLevelsFit`, `RoundingOvershoots`).
* AVC scaling lists with a zero entry are not recovered (`ScalingLists.AvcListRoundTrip`, `ZeroEntryRepeats`).
* Strings are written to JSON files without escaping (`JsonGrammar.WrittenIsJsonIff`).
* JSON booleans, empty arrays and empty objects are written but never read
  (`JsonRoundTrip.RoundTripIff`).
* The checksum table is filled once, for the depth of the first plane; a later plane of greater depth may
  get a wrong checksum, one of smaller depth gets a right one (`SinkYuvCrc.LookupIsFeedIff`).
* A region of interest that does not start on an LCU boundary may miss its last LCU
  (`RoiMngr.SpanCoversIff`, `SpanMissesPixels`).
* The room check for the end-of-stream delimiter compares with the offset of the free space instead of its
  size. It can overwrite unread bytes (`SplitInput.CheckSparesIff`, `OverwritesUnread`), and at the end of a
  file whose length modulo the size of the ring is below that of the delimiter it refuses for ever
  (`SplitInput.NeverEndsIff`, `ShortFileNeverEnds`).

## Model

| member | source | states |
|---|---|---|
| `CabacCoder.RoundTrip` | `lib_bitstream/Cabac.c:47-140` | For every context state and every run of context-coded and terminate bins that ends with terminate bin 1 and the finish sequence, the arithmetic decoder of H.264 9.3.1.2 and 9.3.3.2, with the standard's tables and state transitions, recovers exactly those bins and the same final context states from the bits written, whatever follows them, and stops right after the last bit, the stop bit |
| `CabacCoder.HitsFromEnd` | `lib_bitstream/Cabac.c:47-140` | The number spelled by the bits lies in the final interval only if it lies in every earlier one: the intervals of a run are nested |
| `CabacCoder.DecodeFollows` | `lib_bitstream/Cabac.c:100-132` | A decoder whose offset lies in the interval of the whole run takes the encoder's side at every bin and keeps its state and its position in the bit string |
| `CabacCoder.FinishHits` | `lib_bitstream/Cabac.c:135-140` | The bits written by Finish fall inside the interval of terminate bin 1 with anything after them, and their number is the decoder's final read position |
| `CabacCoder.RenormAtMostSevenShifts` | `lib_bitstream/Cabac.c:71-88` | From any range of at least 2 renormalisation shifts at most seven times |
| `CabacCoder.EncoderIsStandard` | `lib_bitstream/Cabac.c:10-44` | For every context, bin and range in 256..511 the encoder's sub-range is that of Table 9-44 of H.264 for qCodIRangeIdx, and its new state and MPS are those of section 9.3.3.2.1.1 with Table 9-45 |
| `CabacCoder.Learns` | `lib_bitstream/Cabac.c:100-119` | Every context but the one kept for terminating bins learns: once the same bin has come often enough, at most 125 times, it is the MPS and the state is 62 |
| `CabacReader.ReadsBack` | `lib_bitstream/Cabac.c:47-140` | A reader that asks for one bin at a time finds all bins of a terminated run, the terminating one last, and stops at the end of its bits |
| `Cabac.CabacCtx.constructor` | `lib_bitstream/Cabac.c:91-97` | A fresh coder stands for the exact interval [0, 510) with nothing decided |
| `Cabac.CabacCtx.PutBit` | `lib_bitstream/Cabac.c:47-68` | Appends the bit, unless it is the suppressed first one, and then its complement once per outstanding bit, for any number of them; none stays outstanding |
| `Cabac.CabacCtx.RenormE` | `lib_bitstream/Cabac.c:71-88` | The bounded registers, decided bits and outstanding count after it stand for the exactly renormalised interval; the range is back in 256..510 and the low below 1024 |
| `Cabac.CabacCtx.WriteBin` | `lib_bitstream/Cabac.c:100-119` | Together with the state and MPS arrays it makes the step of the exact interval coder for that context and bin |
| `Cabac.CabacCtx.Terminate` | `lib_bitstream/Cabac.c:122-132` | Makes the terminate step of the exact interval coder |
| `Cabac.CabacCtx.Finish` | `lib_bitstream/Cabac.c:135-140` | Appends what is missing of the exact low plus the stop bit, then zeros up to a byte boundary |
| `Cabac.BitDeferred` | `lib_bitstream/Cabac.c:80-86` | Deferring a bit doubles the exact value: the middle half of the register moves into the outstanding count |
| `Cabac.BitDecided` | `lib_bitstream/Cabac.c:47-68` | Deciding a bit settles all outstanding bits as its complement and keeps the exact value |
| `Cabac.FirstBitIsZero` | `lib_bitstream/Cabac.c:49-52` | The suppressed first bit is always 0 |
| `Cabac.FinishedBits` | `lib_bitstream/Cabac.c:135-138` | The last register bits extend the decided bits to exactly the code word of the exact coder |
| `CabacTables.NextAfterMps` | `lib_bitstream/Cabac.c:30-36` | The MPS transition table is "one state up, saturating at 62; 63 stays" |
| `BitStream.BitStreamLite.constructor` | `lib_bitstream/BitStreamLite.c:9-15` | A fresh stream on a buffer holds nothing |
| `BitStream.BitStreamLite.WriteData` | `lib_bitstream/BitStreamLite.c:74-90` | One byte changes, to the byte the extended bit string has at that place |
| `BitStream.BitStreamLite.PutInByte` | `lib_bitstream/BitStreamLite.c:93-100` | Appends the low bits of the value within a byte; past the end of the buffer only the count and the overflow flag change |
| `BitStream.BitStreamLite.PutBits` | `lib_bitstream/BitStreamLite.c:103-119` | Appends exactly the n-bit big-endian form of the value at any bit offset, for all n up to 32, although the carried value is not masked to the remaining width |
| `BitStream.BitStreamLite.HoldsPackedBits` | `lib_bitstream/BitStreamLite.c:74-119` | Without overflow the buffer starts with the packed bytes of everything written, whatever was in it before, and read bit by bit it starts with what was written |
| `BitStream.UnpackPacked` | `lib_bitstream/BitStreamLite.c:74-119` | Packing loses nothing: the bytes give back the bits, followed by zeros up to the end of the last byte |
| `BitStream.BitStreamLite.PutBit` | `lib_bitstream/BitStreamLite.c:49-53` | Appends one bit |
| `BitStream.BitStreamLite.AlignWithBits` | `lib_bitstream/BitStreamLite.c:56-60` | Appends the given bit exactly up to the next byte boundary |
| `BitStream.BitStreamLite.PutU` | `lib_bitstream/BitStreamLite.c:130-133` | Appends the n-bit form of an unsigned value |
| `BitStream.BitStreamLite.PutI` | `lib_bitstream/BitStreamLite.c:136-156` | Appends the two's-complement form of a signed value |
| `BitStream.BitStreamLite.BitScanReverse` | `lib_bitstream/BitStreamLite.c:190-201` | Finds the position of the highest set bit |
| `BitStream.BitStreamLite.PutVclBits` | `lib_bitstream/BitStreamLite.c:159-174` | Appends the Exp-Golomb code word |
| `BitStream.BitStreamLite.PutUE` | `lib_bitstream/BitStreamLite.c:209-216` | Appends the unsigned Exp-Golomb code word |
| `BitStream.BitStreamLite.PutSE` | `lib_bitstream/BitStreamLite.c:219-222` | Appends the signed Exp-Golomb code word |
| `ExpGolomb.ReadUeIffUeBits` | `lib_bitstream/BitStreamLite.c:159-216` | The parser of H.264 9.1 returns a value and a rest precisely on the code word of that value followed by that rest |
| `ExpGolomb.ReadSeIffSeBits` | `lib_bitstream/BitStreamLite.c:219-222` | The same for the signed mapping of H.264 9.1.1 |
| `ExpGolomb.ReadSignedOfTwosComplement` | `lib_bitstream/BitStreamLite.c:136-156` | The bits written for a signed value read back as that value |
| `AvcSkipped.GenerateSkippedPictureCavlc` | `lib_bitstream/AVC_SkippedPict.c:13-18` | Writes the skip run of all macroblocks, the stop bit and zero padding |
| `AvcSkipped.GenerateSkippedPictureCabac` | `lib_bitstream/AVC_SkippedPict.c:31-55` | Writes the code of one skip flag and one end-of-slice flag per macroblock from the initial state of the table, and counts two bins for each |
| `AvcSkipped.DecodesToSkippedMbs` | `lib_bitstream/AVC_SkippedPict.c:31-55` | A decoder that initialises its context for quantiser 26 recovers as many skip flags 1 as there are macroblocks, and end-of-slice 1 after the last one only |
| `AvcSkipped.ParserCountsMbs` | `lib_bitstream/AVC_SkippedPict.c:31-55` | The slice data parser of H.264 7.3.4, which initialises its context for quantiser 26 and is told neither the number of macroblocks nor what to ask for, finds exactly that many skipped macroblocks and the end of the code in every picture with room for them, and a broken slice in every smaller one |
| `AvcSkipped.ParserCountsMbsOf` | `lib_bitstream/AVC_SkippedPict.c:58-88` | The same on the bytes of any buffer that starts with the slice |
| `AvcSkipped.StartsAsStandardIff` | `lib_bitstream/AVC_SkippedPict.c:21-28` | The initial states of the table are those of sections 9.3.1.1 of H.264 and Table 9-13 for mb_skip_flag if and only if the quantiser of the slice is 26 |
| `AvcSkipped.GenerateSkippedPicture` | `lib_bitstream/AVC_SkippedPict.c:58-88` | Fills one slice record with the byte count of the slice data, or reports a missing picture or buffer; the bytes of the buffer parse as a slice of exactly the macroblocks of the picture |
| `Quadtree.TileCoveredOnce` | `lib_bitstream/HEVC_SkippedPict.c:152-164` | The leaves of the coding quadtrees of a tile cover every minimum block of the tile exactly once and nothing outside it |
| `Quadtree.TileCodesLeaves` | `lib_bitstream/HEVC_SkippedPict.c:152-176` | Besides its terminating bins the data of a tile codes exactly these leaves, in order |
| `Quadtree.SizeIsSmallerAxis` | `lib_bitstream/HEVC_SkippedPict.c:47-125` | The size of the leaf at a place is the smaller of the two sizes that the axes allow on their own |
| `Quadtree.NeighboursNotDeeper` | `lib_bitstream/HEVC_SkippedPict.c:16-25` | No left or upper neighbour is split deeper, so split_cu_flag always takes its first context |
| `Quadtree.WrittenIsStandardIff` | `lib_bitstream/HEVC_SkippedPict.c:16-182` | The bins and contexts written for a tile are those of the syntax of H.265 7.3.8.4 and 7.3.8.5 exactly when the tile is at least one LCU wide and high and an LCU is larger than the minimum CU |
| `Quadtree.NarrowTileIsNotStandard` | `lib_bitstream/HEVC_SkippedPict.c:16-44` | A tile one minimum block wide, with LCUs twice as large, is coded as if every coding unit had a left neighbour |
| `HevcSkipped.RightSplit` | `lib_bitstream/HEVC_SkippedPict.c:47-71` | A block cut on the right splits into the parts, in the order, that the specialised recursion visits |
| `HevcSkipped.BottomSplit` | `lib_bitstream/HEVC_SkippedPict.c:74-97` | Likewise for a block cut at the bottom |
| `HevcSkipped.CornerSplit` | `lib_bitstream/HEVC_SkippedPict.c:100-125` | Likewise for a block cut on both sides |
| `HevcSkipped.WriteSkippedCU` | `lib_bitstream/HEVC_SkippedPict.c:16-44` | Codes split flag, skip flag and merge index of one leaf and counts its bins |
| `HevcSkipped.WriteSkippedCuRight` | `lib_bitstream/HEVC_SkippedPict.c:47-71` | For every extent and depth it codes exactly the leaves of the generic implicit-split quadtree on a block cut on the right, in order, and counts their bins |
| `HevcSkipped.WriteSkippedCuBottom` | `lib_bitstream/HEVC_SkippedPict.c:74-97` | The same on a block cut at the bottom |
| `HevcSkipped.WriteSkippedCuBotRight` | `lib_bitstream/HEVC_SkippedPict.c:100-125` | The same on a block cut on both sides, through the two others |
| `HevcTile.AxisFacts` | `lib_bitstream/HEVC_SkippedPict.c:143-155` | The column and row tests on remainders and shifts say where an LCU is cut by the edge of the tile |
| `HevcTile.WriteLcuCus` | `lib_bitstream/HEVC_SkippedPict.c:157-164` | One LCU is coded as the leaves of its quadtree, whichever recursion is picked |
| `HevcTile.WriteLcu` | `lib_bitstream/HEVC_SkippedPict.c:154-176` | One LCU and its end-of-slice and end-of-subset bins |
| `HevcTile.GenerateSkippedTileCabac` | `lib_bitstream/HEVC_SkippedPict.c:128-182` | Writes the code of the whole tile up to a byte boundary and counts its bins |
| `HevcTile.StandardDecoderReadsTile` | `lib_bitstream/HEVC_SkippedPict.c:128-182` | For a tile of at least one LCU the arithmetic decoder, asked for the bins of the standard's syntax with the standard's contexts, recovers them from what was written and stops at its last bit |
| `HevcParser.ParserReadsTileIff` | `lib_bitstream/HEVC_SkippedPict.c:16-182` | From the bits and the size of the tile alone, with the contexts of section 9.3.2.2 of H.265 for a P or B slice with quantiser 26, a parser that follows H.265 7.3.8.1, 7.3.8.4, 7.3.8.5 and 9.3.4.2.2 finds exactly the coding units of the tile, whether the slice segment ends with it and where the data ends, if and only if the tile is at least one LCU wide and high and an LCU is larger than the minimum CU; in every other tile it goes astray at the first coding unit |
| `HevcParser.StartsAsStandardIff` | `lib_bitstream/HEVC_SkippedPict.c:132-139` | The initial states of the encoder are those of section 9.3.2.2 for these syntax elements if and only if the quantiser of the slice is 26 |
| `HevcParser.ParsesBlock` | `lib_bitstream/HEVC_SkippedPict.c:16-125` | Over the code of one block, with what lies left of and above it read before, the recursive parser finds the leaves of the block |
| `HevcParser.SameContexts` | `lib_bitstream/HEVC_SkippedPict.c:16-25` | The contexts that follow from the coding units read so far are those of the geometry of the tile |
| `HevcParser.FirstCuMissed` | `lib_bitstream/HEVC_SkippedPict.c:16-25` | Where the encoder departs from the standard, the parser reads the first cu_skip_flag as 0 |
| `AntiEmulation.AddAntiEmulSizeInBytes` | `lib_bitstream/HEVC_SkippedPict.c:185-208` | Returns by how many bytes emulation prevention of H.265 7.3.1.1 lengthens the data written so far |
| `AntiEmulation.EscapedIsReversibleAndSafe` | `lib_bitstream/HEVC_SkippedPict.c:193-205` | The escaped data contains no two zero bytes followed by a byte below 3, and unescapes to the original |
| `AntiEmulation.EscapedIsTheOnlyOne` | `lib_bitstream/HEVC_SkippedPict.c:193-205` | Among the byte sequences that keep to section 7.4.2 of H.265 (no reserved sequence, no idle 0x000003) the escaped data is the only one that unescapes to the original |
| `AntiEmulation.EscapeConcat` | `lib_bitstream/HEVC_SkippedPict.c:185-208` | Escaping two pieces in one go equals escaping them apart when the first does not end in zeros |
| `HevcPicture.WriteTile` | `lib_bitstream/HEVC_SkippedPict.c:240-260` | Appends the tile and records the growth of the escaped stream as its size |
| `HevcPicture.WriteTileRow` | `lib_bitstream/HEVC_SkippedPict.c:238-260` | Appends the tiles of a row, the last of them as the end of a slice where a slice ends with the row, and records their sizes |
| `HevcPicture.EndRow` | `lib_bitstream/HEVC_SkippedPict.c:257-266` | Counts the tiles of a row for its slice, and closes the slice record where a slice ends |
| `HevcPicture.WriteRows` | `lib_bitstream/HEVC_SkippedPict.c:228-269` | All tiles in order, all sizes, and a slice record per tile row or one for the picture |
| `HevcPicture.GenerateSkippedPicture` | `lib_bitstream/HEVC_SkippedPict.c:211-276` | Fills the picture with the tiles, sizes and slices of the layout, and with the bins of its last tile only, or reports a missing picture or buffer; each slice reads as in SliceParses |
| `HevcStream.TileParses` | `lib_bitstream/HEVC_SkippedPict.c:228-276` | From the place of any tile on, the bytes of the picture parse as the coding units of that tile, with the end of the slice segment where the layout has it, if and only if the tile is one that the standard reads |
| `HevcStream.SliceParses` | `lib_bitstream/HEVC_SkippedPict.c:228-276` | From the bytes and the slice records alone: a parser of slice_segment_data( ) of H.265 7.3.8.1, started at the first byte of a slice with the first tile that the slices before have left and going on from tile to tile until end_of_slice_segment_flag is 1, stops after exactly as many tiles as are recorded and with the last byte of the slice, or goes astray if and only if one of these tiles is not one that the standard reads |
| `HevcStream.SlicesHaveAllTiles` | `lib_bitstream/HEVC_SkippedPict.c:228-266` | The tiles recorded for all slices are all tiles of the picture |
| `HevcStream.ExtentsCover` | `lib_bitstream/HEVC_SkippedPict.c:245-263` | One after the other the tiles of a row (column) take up as many LCUs as the layout gives them, up to the edge of the picture |
| `HevcStream.BinsAreTotalIff` | `lib_bitstream/HEVC_SkippedPict.c:249-271` | The recorded number of bins is that of the whole picture if and only if it has at most one tile |
| `HevcStream.TwoTilesMiscounted` | `lib_bitstream/HEVC_SkippedPict.c:249-271` | Two tiles of one LCU with five and four bins are recorded with four |
| `HevcStream.TileSizesAddUp` | `lib_bitstream/HEVC_SkippedPict.c:244-256` | For every layout the recorded tile sizes add up to the bytes of the whole escaped stream, which unescapes to the stream |
| `HevcStream.EntryPointParses` | `lib_bitstream/HEVC_SkippedPict.c:244-256` | Cutting the escaped stream at the sums of the recorded sizes and removing the emulation prevention of a piece gives the bytes of the tile of that number, which parse as its coding units |
| `HevcStream.SlicesCover` | `lib_bitstream/HEVC_SkippedPict.c:230-266` | The slice records start at 0, follow each other without gap or overlap and end with the stream |
| `ScalingLists.WriteScalingList` | `lib_bitstream/AVC_RbspEncod.c:15-45` | Writes one difference per entry modulo 256 in scan order until an entry is zero, and says whether the default list is meant |
| `ScalingLists.AvcListRoundTrip` | `lib_bitstream/AVC_RbspEncod.c:15-45` | The parser of H.264 7.3.2.1.1.1 consumes exactly what was written and recovers the list if and only if no entry is zero |
| `ScalingLists.ZeroEntryRepeats` | `lib_bitstream/AVC_RbspEncod.c:15-45` | A list of 16, 0 and fourteen more entries is read back as sixteen times 16 |
| `ScalingLists.WriteMatrixList` | `lib_bitstream/AVC_RbspEncod.c:57-77` | The body of the loop: flag and list of one index |
| `ScalingLists.WriteScalingMatrix` | `lib_bitstream/AVC_RbspEncod.c:48-79` | Writes flags and lists of 8 or 12 matrices, or nothing |
| `ScalingLists.AvcMatrixRoundTrip` | `lib_bitstream/AVC_RbspEncod.c:48-79` | The parser recovers all flags and lists, from any list on, if and only if no list that is sent has a zero entry |
| `ScalingLists.EachListInItsPlace` | `lib_bitstream/AVC_RbspEncod.c:62-75` | Storing the lists in the places that they were written from, no list replaces another |
| `ScalingLists.ListIsTakenFromItsUse` | `lib_bitstream/AVC_RbspEncod.c:62-75` | Each of the twelve lists is taken from the place of the size, prediction mode and colour component that Table 7-2 of H.264 gives it |
| `ScalingLists.AvcListsAreDistinct` | `lib_bitstream/AVC_RbspEncod.c:62-75` | No two list numbers use the same stored list |
| `HevcScalingLists.WriteCoefs` | `lib_bitstream/HEVC_RbspEncod.c:383-393` | Writes the differences of one list |
| `HevcScalingLists.WriteEntry` | `lib_bitstream/HEVC_RbspEncod.c:364-394` | Writes mode flag, reference or coefficients with their DC term for one matrix |
| `HevcScalingLists.WriteScalingListData` | `lib_bitstream/HEVC_RbspEncod.c:358-397` | Writes every size and matrix, every third matrix for the largest size |
| `HevcScalingLists.CoefsRoundTrip` | `lib_bitstream/HEVC_RbspEncod.c:383-393` | Differences wrapped modulo 256 decode to the list for every list, start value and continuation |
| `HevcScalingLists.DataRoundTrip` | `lib_bitstream/HEVC_RbspEncod.c:358-397` | The parser of H.265 7.3.4 recovers modes, references, DC terms and lists of the whole structure and leaves what follows |
| `AppFifos.AppFifo.constructor` | `lib_app/BufPool.cpp:182-216` | A new FIFO is empty, with one slot more than elements |
| `AppFifos.AppFifo.Store` | `lib_app/BufPool.cpp:232-234` | Appends to the queue the ring stands for, whatever the wrap-around |
| `AppFifos.AppFifo.Take` | `lib_app/BufPool.cpp:267-269` | Removes the oldest element of that queue |
| `AppFifos.Ring.PushAppends` | `lib_app/BufPool.cpp:232-234` | A push on the ring appends to its queue and keeps tail = head + number modulo the slots |
| `AppFifos.Ring.PopTakesOldest` | `lib_app/BufPool.cpp:267-269` | A pop takes the oldest element and keeps the rest in order |
| `BufPool.StepKeepsInv` | `lib_app/BufPool.cpp:226-293` | Every step of every thread keeps: one mutex owner at most, each buffer in exactly one place, as many space tokens as buffers held |
| `BufPool.AlwaysConserved` | `lib_app/BufPool.cpp:226-293` | Hence they hold in every state of every interleaving of any number of threads |
| `BufPool.InitialInv` | `lib_app/BufPool.cpp:182-216` | They hold right after Fifo_Init, before any buffer is queued |
| `BufPool.InitFills` | `lib_app/BufPool.cpp:98-114` | The pool's Init puts its buffers into the ring in the order of their creation, whatever their number; once all are queued no client holds any and no token is left |
| `BufPool.QueueNeverBlocks` | `lib_app/BufPool.cpp:27-30` | A thread that returns a buffer always finds a space token |
| `BufPool.RoomToStore` | `lib_app/BufPool.cpp:228-234` | A store never meets a full ring |
| `BufPool.OwnerCanProceed` | `lib_app/BufPool.cpp:231-273` | The owner of the mutex can always take its next step |
| `BufPool.NullOnlyWhenEmpty` | `lib_app/BufPool.cpp:250-257` | Dequeue gives up only if it sees an empty queue after a decommit or a timeout |
| `BufPool.WaitEndsIn` | `lib_app/BufPool.cpp:242-273` | How a wait ends, whatever other threads do meanwhile: the next step of the consumer can only be to take the mutex, and then it takes a buffer if the queue holds one, gives up if it is empty and the wait has timed out or the pool is decommitted, and waits again otherwise |
| `BufPool.OneConsumerNeverMisses` | `lib_app/BufPool.cpp:242-283` | With at most one consumer, whenever it has released the mutex to wait while an element is there or the pool is decommitted, the event is set or its setter still owns the mutex |
| `BufPool.StuckAfterDecommit` | `lib_app/BufPool.cpp:242-310` | With two consumers waiting, a decommit may wake one, which uses the event up; the other one sleeps on without a time limit while the pool is decommitted |
| `BufPool.StuckAfterTwoQueues` | `lib_app/BufPool.cpp:226-283` | With two consumers waiting, two buffers queued before the first consumer runs wake one; the other one sleeps on without a time limit with the second buffer in the queue |
| `BufPool.StuckStays` | `lib_app/BufPool.cpp:250-265` | Out of such a state only a new operation, or the time limit of another thread, leads on; no step is left to the sleeper |
| `BufPool.NoLostWakeupIffOneConsumer` | `lib_app/BufPool.cpp:226-310` | In no state of any run a consumer is stuck (asleep without a time limit although there is something for it to do, with the event not set, the mutex free and every other thread outside or asleep) if and only if there is at most one consumer |
| `JsonRoundTrip.RoundTripIff` | `lib_app/JsonFile.cpp:104-425` | For every value, indentation and following text: reading what WriteValue wrote gives the value back and stops right after it if and only if the value holds no boolean, no double quote in a string or key and no empty array or object, its keys are ordered, and it is not a number that runs on into the text |
| `JsonRoundTrip.ReadsGoodValues` | `lib_app/JsonFile.cpp:104-186` | Whatever the text, the reader returns only values without quotes in strings, without empty arrays or objects and with ordered keys |
| `JsonRoundTrip.NumberTokenIff` | `lib_app/JsonFile.cpp:244-297` | The token of a written number is that number, and only it is consumed, if and only if no digit follows, nor a t or an f after a single digit |
| `JsonRoundTrip.BoolIsBad` | `lib_app/JsonFile.cpp:246-280` | A written boolean is never read: the reader looks at its second letter |
| `JsonRoundTrip.BoolAfterCharacter` | `lib_app/JsonFile.cpp:246-280` | A boolean is read, with its value, when a character that is no token of its own stands in front of it |
| `JsonRoundTrip.InsertKeepsOrder` | `lib_app/JsonFile.cpp:180-180` | Assigning a member keeps the keys ordered and every other member |
| `JsonGrammar.WrittenIsJsonIff` | `lib_app/JsonFile.cpp:353-425` | A parser of the grammar of RFC 8259, independent of the reader, finds in the text of any value exactly that value and nothing else but white space, if and only if no string or key in it holds a quote, a backslash or a control character; booleans and empty arrays and objects are right |
| `JsonGrammar.StreamIsJsonIff` | `lib_app/JsonFile.cpp:310-351` | The same for the file of a closed stream and the array of the values written to it |
| `JsonGrammar.StringIff` | `lib_app/JsonFile.cpp:362-364` | Unescaped text between quotes is read as itself if and only if none of its characters needs escaping |
| `JsonFile.JsonReader.ReadFile` | `lib_app/JsonFile.cpp:92-102` | Reads the first value of a file, or fails when it cannot be opened |
| `JsonFile.JsonReader.CheckToken` | `lib_app/JsonFile.cpp:200-211` | Consumes an expected word |
| `JsonFile.JsonReader.SkipSpaces` | `lib_app/JsonFile.cpp:192-193` | Skips white space, with the end-of-file flag in step |
| `JsonFile.JsonReader.GetString` | `lib_app/JsonFile.cpp:234-243` | Takes the characters up to the next quote and says when there is none |
| `JsonFile.JsonReader.GetDigits` | `lib_app/JsonFile.cpp:282-283` | Takes the digits of a number |
| `JsonFile.JsonReader.ReadNextToken` | `lib_app/JsonFile.cpp:188-297` | Returns the first token of the text left to read and leaves the text after it |
| `JsonFile.JsonReader.ReadWord` | `lib_app/JsonFile.cpp:244-291` | Booleans and numbers, recognised by the character after the current one |
| `JsonFile.JsonReader.ReadValue` | `lib_app/JsonFile.cpp:104-130` | Reads one value of the format, or fails |
| `JsonFile.JsonReader.ReadArray` | `lib_app/JsonFile.cpp:132-154` | Reads the elements of an array up to its bracket, or fails |
| `JsonFile.JsonReader.ReadObject` | `lib_app/JsonFile.cpp:156-186` | Reads the members of an object up to its brace, or fails |
| `JsonFile.JsonWriter.constructor` | `lib_app/JsonFile.cpp:304-308` | A writer leaves the file alone until the first write |
| `JsonFile.JsonWriter.Write` | `lib_app/JsonFile.cpp:319-351` | A single write replaces the file by a text that RFC 8259 reads as the value if and only if nothing in it needs escaping; a stream write adds one element to an array that Close completes; a file that cannot be opened leaves everything as it is |
| `JsonFile.JsonWriter.Close` | `lib_app/JsonFile.cpp:310-317` | Completes an open stream to the array of everything written, which RFC 8259 reads as such if and only if nothing in it needs escaping |
| `JsonFile.JsonWriter.WriteValue` | `lib_app/JsonFile.cpp:353-373` | Appends the text of a value |
| `JsonFile.JsonWriter.WriteArray` | `lib_app/JsonFile.cpp:375-393` | Appends the text of an array |
| `JsonFile.JsonWriter.WriteItem` | `lib_app/JsonFile.cpp:384-389` | Appends one element with its alignment and separator |
| `JsonFile.JsonWriter.WriteObject` | `lib_app/JsonFile.cpp:395-425` | Appends the text of an object |
| `JsonFile.JsonWriter.WriteMember` | `lib_app/JsonFile.cpp:403-417` | Appends one member with key, alignment and separator |
| `JsonFile.StreamGrows` | `lib_app/JsonFile.cpp:331-348` | One more stream write turns the text for n elements into the text for n + 1 |
| `JsonFile.StreamRoundTripIff` | `lib_app/JsonFile.cpp:310-351` | A closed stream of at least one write reads back as the array of what was written if and only if each element can be read back |
| `Arithmetic.ToReversePolish` | `lib_app/Parser.cpp:171-285` | The loops over queue and stack compute the token-by-token conversion |
| `Arithmetic.TryTransformUnaryOp` | `lib_app/Parser.cpp:118-132` | A sign is unary at the start, after an operator and after an open parenthesis |
| `Arithmetic.PopOperators` | `lib_app/Parser.cpp:232-246` | Moves operators of at least the same precedence, whatever their associativity |
| `Arithmetic.PopGroup` | `lib_app/Parser.cpp:252-265` | Moves the operators above the innermost open parenthesis |
| `Arithmetic.ReversePolishEval` | `include/lib_app/Parser.hpp:337-383` | The stack machine: one value at the end or failure, operands taken in the order of the code |
| `ArithmeticParenValues.ParseArithmetic` | `include/lib_app/Parser.hpp:386-389` | Parsing is conversion and evaluation; it yields the signed total of every expression without parentheses and its value for safe signs, and the exact result of every expression with parentheses but without doubled ones behind an operator or a sign, which is its value when it is safe |
| `Arithmetic.SuffixIsPower` | `lib_app/Parser.cpp:134-167` | K, M and G stand for 1000, 1000^2 and 1000^3, and Ki, Mi and Gi for the powers of 1024 |
| `Arithmetic.SuffixIff` | `lib_app/Parser.cpp:134-167` | Nothing else is a suffix |
| `Basics.TruncDivRounds` | `include/lib_app/Parser.hpp:293-293` | The division of C++: the remainder is smaller than the divisor and has the sign of the dividend |
| `Arithmetic.ConvertEmits` | `lib_app/Parser.cpp:171-285` | Exact output for every expression without parentheses: all but the last of several signs are emitted before their operand |
| `Arithmetic.ConvertsToPostfixIff` | `lib_app/Parser.cpp:171-285` | The output is the postfix form of the expression if and only if no operand has more than one sign |
| `Arithmetic.EvalExpr` | `include/lib_app/Parser.hpp:337-383` | Evaluating a postfix form on a stack pushes the value of the expression, or fails exactly on its division by zero |
| `ArithmeticValues.EvalEmitted` | `include/lib_app/Parser.hpp:337-383` | Evaluating what the conversion emits for an expression, whatever its signs, gives its signed total |
| `ArithmeticValues.ParseIsSignedTotal` | `include/lib_app/Parser.hpp:386-389` | The exact result for every expression without parentheses: each extra sign of the first operand of a term changes the sign of the total up to that term, and a second sign at the very start fails |
| `ArithmeticValues.ParsePreservesMeaning` | `include/lib_app/Parser.hpp:386-389` | For every expression of signs, size suffixes and binary operators with at most one sign at the start and an even number of minus signs before the last sign of the first operand of each later term, parsing yields its value under the precedence grammar |
| `ArithmeticValues.ParsesAllNumbersIff` | `include/lib_app/Parser.hpp:386-389` | An arrangement of operators, signs and suffixes is parsed to its value with all numbers in it if and only if its signs are safe in this sense |
| `ArithmeticValues.UnsafeStartParsesIff` | `include/lib_app/Parser.hpp:386-389` | An unsafe start goes unnoticed exactly when the term has no value |
| `ArithmeticValues.UnsafeTermParsesIff` | `include/lib_app/Parser.hpp:386-389` | A last term with unsafe signs goes unnoticed exactly when the total has no value or is zero |
| `ArithmeticValues.DoubleSignRejected` | `lib_app/Parser.cpp:232-248` | `--3` is rejected |
| `ArithmeticValues.DoubleSignMisread` | `lib_app/Parser.cpp:232-248` | `5 - --3` gives -2 |
| `ArithmeticParens.ConvertEmitsGroups` | `lib_app/Parser.cpp:171-285` | Exact output for every expression with parentheses, none of them doubled behind an operator or a sign: an operator or sign directly before a parenthesis is lost |
| `ArithmeticParenValues.ParseIsTotal` | `include/lib_app/Parser.hpp:386-389` | The exact result for each of them: failure if a parenthesis stands directly behind a binary operator or the start carries two signs, otherwise what the remaining signs and operators give |
| `ArithmeticParenValues.GroupsParseIff` | `include/lib_app/Parser.hpp:386-389` | An arrangement of operators, signs, suffixes and parentheses, none of these doubled behind an operator or a sign, is parsed to its value with all numbers in it if and only if no parenthesis stands directly behind a binary operator, the start carries at most one sign, and the signs leave the value as it is |
| `ArithmeticParenValues.SafeGroupsParse` | `include/lib_app/Parser.hpp:386-389` | Each expression that is safe in this sense is parsed to its value under the precedence grammar, division by zero included |
| `ArithmeticParenValues.SignFreeParsesIff` | `include/lib_app/Parser.hpp:386-389` | Without signs such an arrangement is parsed to its value with all numbers if and only if every parenthesis opens before the first number; otherwise it is always rejected |
| `ArithmeticParenValues.SumFollows` | `include/lib_app/Parser.hpp:386-389` | The sign computed from the arrangement is how the result relates to the value, with all numbers |
| `ArithmeticParenValues.SumRealises` | `include/lib_app/Parser.hpp:386-389` | Otherwise both signs occur, with values as large as desired |
| `ArithmeticLostOperators.UnsafeGroupsRejected` | `include/lib_app/Parser.hpp:386-389` | Whatever its parentheses, doubled or not, an expression without signs is rejected if one of them closes a parenthesis that directly follows an operator |
| `ArithmeticGroups.GroupsKeepOperatorsIff` | `lib_app/Parser.cpp:171-285` | For tokens in which a parenthesis opens only at the start, after another one or after an operator: the output holds every number and operator, each as often as it is due, if and only if no parenthesis closes one that directly follows an operator, where a closing parenthesis takes along the one around its own when nothing stands between the two |
| `ArithmeticGroups.ClosingKeepsOperatorsIff` | `lib_app/Parser.cpp:252-269` | One closing parenthesis keeps every operator if and only if nothing, or another open parenthesis, lies directly below its own on the stack |
| `ArithmeticGroups.DoubledGroupIsSafe` | `lib_app/Parser.cpp:252-269` | `2*(3)` loses an operator in this sense, `2*((3))` does not |
| `ArithmeticGroups.DoubledGroupRegroups` | `lib_app/Parser.cpp:252-269` | `a*((b)-c)` keeps its operators but is converted as `a*b-c` |
| `ArithmeticGroups.DoubledGroupHolds` | `lib_app/Parser.cpp:252-269` | `a+((b)*c)` is converted as it stands |
| `ArithmeticGroups.ParenthesesLoseOperator` | `lib_app/Parser.cpp:252-269` | `2 * (3)` loses its multiplication and is rejected |
| `ArithmeticInstances.GroupAtStartParses` | `include/lib_app/Parser.hpp:386-389` | `(a+b)*c` is parsed to its value |
| `ArithmeticInstances.PlusBeforeGroupParses` | `include/lib_app/Parser.hpp:386-389` | `a*+(b+c)` is parsed to its value |
| `ArithmeticInstances.MinusBeforeGroupIsLost` | `include/lib_app/Parser.hpp:386-389` | `-(a)` comes out as `a` |
| `ArithmeticInstances.DoubledGroupMisread` | `include/lib_app/Parser.hpp:386-389` | `a*((b)-c)` comes out as the value of `a*b-c`: `2*((3)-4)` is worth -2 and gives 2 |
| `ArithmeticInstances.DoubledGroupReadRight` | `include/lib_app/Parser.hpp:386-389` | `a+((b)*c)` is parsed to its value |
| `Levenshtein.LevenshteinDistance` | `lib_app/Parser.cpp:335-371` | The one-row loop computes the recursive Levenshtein distance |
| `Levenshtein.NextRow` | `lib_app/Parser.cpp:350-368` | One pass of the outer loop turns the costs of a prefix into those of the next, in place |
| `Levenshtein.NearestName` | `lib_app/Parser.cpp:385-394` | Picks the first of the closest names |
| `Levenshtein.OtherSection` | `lib_app/Parser.cpp:380-383` | Remarks on the last section that knows the name itself, if any does |
| `Levenshtein.NearestMatch` | `lib_app/Parser.cpp:373-405` | Suggests the nearest name of the current section with that remark, or fails when the current section is not there |
| `Levenshtein.NoShorterScript` | `lib_app/Parser.cpp:335-371` | No sequence of insertions, deletions and replacements that turns one string into another is shorter than the distance |
| `Levenshtein.ShortestScript` | `lib_app/Parser.cpp:335-371` | One of exactly that length exists |
| `Levenshtein.Triangle` | `lib_app/Parser.cpp:335-371` | The distance satisfies the triangle inequality |
| `Levenshtein.Symmetric` | `lib_app/Parser.cpp:335-371` | The distance is symmetric |
| `Levenshtein.ZeroMeansEqual` | `lib_app/Parser.cpp:335-371` | Only equal strings have distance zero |
| `Levenshtein.AtMostLonger` | `lib_app/Parser.cpp:340-341` | The distance is at most the longer length |
| `Levenshtein.EqualLastCharacters` | `lib_app/Parser.cpp:361-362` | Skipping the minimum when the characters agree loses nothing |
| `Md5.SameFunctions` | `lib_app/MD5.cpp:8-16` | The shortened auxiliary functions equal those of RFC 1321 |
| `Md5.FirstRound` | `lib_app/MD5.cpp:124-139` | The sixteen unrolled operations equal steps 0 to 15 of the generic schedule of RFC 1321, with its word order, constants and rotations |
| `Md5.SecondRound` | `lib_app/MD5.cpp:141-156` | Likewise steps 16 to 31 |
| `Md5.ThirdRound` | `lib_app/MD5.cpp:158-173` | Likewise steps 32 to 47 |
| `Md5.FourthRound` | `lib_app/MD5.cpp:175-190` | Likewise steps 48 to 63 |
| `Md5.UpdateBlock` | `lib_app/MD5.cpp:117-196` | One block is compressed as in RFC 1321 section 3.4 |
| `Md5Rfc.CompressIsRfc` | `lib_app/MD5.cpp:117-196` | The compression of a block equals section 3.4 of RFC 1321 stated on integers modulo 2^32: sums, a rotation as a product and a quotient, words as sums of bytes times powers of 256, auxiliary functions bit by bit |
| `Md5Rfc.AuxiliaryNumber` | `lib_app/MD5.cpp:8-26` | The auxiliary functions act on each bit as RFC 1321 says |
| `Md5Rfc.Rotates` | `lib_app/MD5.cpp:28-31` | A rotation by s is v 2^s mod 2^32 + v div 2^(32-s) |
| `WordNumbers.Sum` | `lib_app/MD5.cpp:33-33` | Addition of words is addition modulo 2^32 |
| `Md5Rfc.LittleEndianSpells` | `lib_app/MD5.cpp:99-101` | The bytes stored for the length spell it, low-order byte first |
| `Md5Vectors.DigestOfEmpty` | `lib_app/MD5.cpp:36-114` | The digest of the empty message is that of appendix A.5 of RFC 1321 |
| `Md5Vectors.DigestOfAbc` | `lib_app/MD5.cpp:36-114` | So is the digest of "abc" |
| `Md5Digest.CMD5.constructor` | `lib_app/MD5.cpp:36-46` | A fresh object has seen the empty message |
| `Md5Digest.CMD5.Update` | `lib_app/MD5.cpp:49-77` | For any split of a message into calls the state depends on the message only: its whole blocks are in the hash, its rest, fewer than 64 bytes, in the buffer |
| `Md5Digest.CMD5.FillBuffer` | `lib_app/MD5.cpp:53-60` | Completes a partial block as far as the data goes |
| `Md5Digest.CMD5.CompressBuffer` | `lib_app/MD5.cpp:62-66` | Moves a full buffer into the hash; the message seen stays the same |
| `Md5Digest.CMD5.CompressBlock` | `lib_app/MD5.cpp:68-73` | Takes a block straight from the data |
| `Md5Digest.CMD5.PutRest` | `lib_app/MD5.cpp:75-76` | Keeps the rest of the data in the buffer |
| `Md5Digest.CMD5.GetMD5` | `lib_app/MD5.cpp:80-114` | Returns the digest of the whole message, padded as in RFC 1321 sections 3.1 and 3.2 |
| `Md5Digest.CMD5.PutPadding` | `lib_app/MD5.cpp:85-97` | Appends the one bit and the least number of zero bytes that leave room for the length, in one block or two |
| `Md5Digest.CMD5.PutLength` | `lib_app/MD5.cpp:99-103` | Appends the length in bits modulo 2^64 and compresses the last block |
| `Md5Digest.CMD5.ToHex` | `lib_app/MD5.cpp:105-111` | Spells the hash in lower-case hexadecimal, low-order byte first |
| `Md5Digest.BlocksAppend` | `lib_app/MD5.cpp:62-73` | Compressing two whole-block pieces one after the other equals compressing their concatenation |
| `Md5Digest.ZeroCountIsLeast` | `lib_app/MD5.cpp:87-97` | No fewer zero bytes would do |
| `SinkYuvCrc.LookupIsFeedIff` | `exe_decoder/SinkYuvCrc.cpp:23-55` | For every register and pixel the table look-up equals feeding the pixel's bits one at a time to the shift register with polynomial 0x04c11db7, if and only if the table was filled for at least the pixel's depth |
| `SinkYuvCrc.FeedIsRemainder` | `exe_decoder/SinkYuvCrc.cpp:18-34` | The register after n bits is the remainder of a division of polynomials over GF(2): of the register before times x^n plus the bits times x^32 by the polynomial |
| `SinkYuvCrc.Constants` | `exe_decoder/SinkYuvCrc.cpp:18-18` | The polynomial is that of IEEE 802.3, and a checksum starts from all ones |
| `SinkYuvCrc.PixelBitsAreScaled` | `exe_decoder/SinkYuvCrc.cpp:47-52` | The bits of a pixel that count are its value times or divided by the power of two between the depths, modulo the output range |
| `SinkYuvCrc.VisibleAt` | `exe_decoder/SinkYuvCrc.cpp:64-70` | Pixel (column, row) of the visible part lies row times the pitch plus column into the plane |
| `SinkYuvCrc.LookupFeeds` | `exe_decoder/SinkYuvCrc.cpp:37-55` | With the entry of the pixel's own depth one look-up equals feeding all its bits |
| `SinkYuvCrc.EntryOfSmallerDepth` | `exe_decoder/SinkYuvCrc.cpp:23-34` | A table entry does not depend on the depth the table was filled for |
| `SinkYuvCrc.TimesIsLinear` | `exe_decoder/SinkYuvCrc.cpp:29-30` | Shifting the register is linear over GF(2) |
| `SinkYuvCrc.FeedIsShift` | `exe_decoder/SinkYuvCrc.cpp:29-30` | Feeding bits equals shifting the register after adding them at its top |
| `SinkYuvCrc.IndexOfPixel` | `exe_decoder/SinkYuvCrc.cpp:53-54` | The masked index is the value of the register's top bits plus the pixel's, and lies inside the table |
| `SinkYuvCrc.Crc32Table.InitCrc32` | `exe_decoder/SinkYuvCrc.cpp:23-34` | Fills the first entries for a depth and leaves the others zero |
| `SinkYuvCrc.Crc32Table.InitEntry` | `exe_decoder/SinkYuvCrc.cpp:27-32` | One entry |
| `SinkYuvCrc.Crc32Table.CRC32` | `exe_decoder/SinkYuvCrc.cpp:37-55` | Updates the checksum by one pixel; only the first call ever fills the table |
| `SinkYuvCrc.Crc32Table.ComputePlaneCRC` | `exe_decoder/SinkYuvCrc.cpp:58-74` | The checksum of the visible pixels of a plane, row by row, whenever the depth of the first call was large enough |
| `RoiMngr.DeltaQPOfQuality` | `exe_encoder/ROIMngr.cpp:36-87` | A quality that fits six bits survives the coding as a QP difference |
| `RoiMngr.OnlyIntraForcesIntra` | `exe_encoder/ROIMngr.cpp:74-81` | The intra quality, and no other, forces intra coding, with the medium priority; any other quality is stored as its six low-order bits |
| `RoiMngr.RoiMngrCtx.constructor` | `exe_encoder/ROIMngr.cpp:313-335` | A new manager has no region |
| `RoiMngr.RoiMngrCtx.PushBack` | `exe_encoder/ROIMngr.cpp:52-71` | Appends a node to the doubly linked list |
| `RoiMngr.RoiMngrCtx.LinkLast` | `exe_encoder/ROIMngr.cpp:54-70` | Its link updates, with an empty list and without |
| `RoiMngr.RoiMngrCtx.Insert` | `exe_encoder/ROIMngr.cpp:112-133` | Puts the node before the first one it must precede and keeps both ends and both directions of the links |
| `RoiMngr.RoiMngrCtx.LinkBefore` | `exe_encoder/ROIMngr.cpp:121-129` | The four link updates |
| `RoiMngr.RoiMngrCtx.Clear` | `exe_encoder/ROIMngr.cpp:345-358` | Frees every node exactly once and empties the list |
| `RoiMngr.RoiMngrCtx.AddROI` | `exe_encoder/ROIMngr.cpp:361-391` | Adds a node with the region in LCUs, cut to the picture, at the place its order demands, or refuses a region outside |
| `RoiMngr.PlaceOfQuality` | `exe_encoder/ROIMngr.cpp:102-121` | A forced-intra region goes to the end, any other one in front of the first region of no lower quality |
| `RoiMngr.CeilDivIsLeastIff` | `exe_encoder/ROIMngr.cpp:366-376` | Sizes are rounded up to the least number of LCUs that is enough |
| `RoiMngr.InsertKeepsOrder` | `exe_encoder/ROIMngr.cpp:102-133` | Insertion keeps the nodes that are not forced intra in non-increasing QP difference, even with forced-intra nodes in between |
| `RoiMngr.AnyInsertionsAreOrdered` | `exe_encoder/ROIMngr.cpp:102-133` | So any sequence of insertions gives such a list, with nothing lost |
| `RoiMngr.SpanCoversIff` | `exe_encoder/ROIMngr.cpp:366-379` | The LCUs of a region contain all its pixels inside the picture if and only if the offset of its start in its first LCU still fits the rounded size or the picture ends first |
| `RoiMngr.SpanMissesPixels` | `exe_encoder/ROIMngr.cpp:366-379` | A region of 16 pixels from pixel 10 on, with LCUs of 16, loses its pixels 16 to 25 |
| `TwoPassMngr.RunLength` | `exe_encoder/TwoPassMngr.cpp:322-329` | A run has 1 to iGopSize frames and ends at a scene change, at that size or at the end |
| `TwoPassMngr.TwoPassMngr.ComputeComplexity` | `exe_encoder/TwoPassMngr.cpp:298-389` | Every frame ends with the scaled complexity and the target level of its run; sizes and scene changes stay; the error cases change nothing |
| `TwoPassMngr.TwoPassMngr.MeasureRun` | `exe_encoder/TwoPassMngr.cpp:319-329` | Both inner loops find the same run |
| `TwoPassMngr.TwoPassMngr.AverageRuns` | `exe_encoder/TwoPassMngr.cpp:314-341` | Every frame gets the mean size of its run; the mean is taken over runs |
| `TwoPassMngr.TwoPassMngr.RelativeLevels` | `exe_encoder/TwoPassMngr.cpp:343-361` | Complexities relative to the mean, extremes of the level and the coefficient |
| `TwoPassMngr.TwoPassMngr.Scale` | `exe_encoder/TwoPassMngr.cpp:363-364` | Every relative complexity is scaled by the coefficient around 1000 |
| `TwoPassMngr.TwoPassMngr.SetTargets` | `exe_encoder/TwoPassMngr.cpp:366-388` | One target level per run |
| `TwoPassMngr.ScaledLevelsFit` | `exe_encoder/TwoPassMngr.cpp:343-361` | The coefficient lies in 0..1000 and keeps every prefix level, scaled exactly, between a tenth of the initial level and the buffer size |
| `TwoPassMngr.CoefficientIsLargestIff` | `exe_encoder/TwoPassMngr.cpp:352-361` | Of the coefficients up to 1000 exactly those up to the computed one keep every prefix level, scaled exactly, within these limits |
| `TwoPassMngr.ComplexityIsProportion` | `exe_encoder/TwoPassMngr.cpp:314-364` | The final complexity of a frame is 1000 plus the coefficient times the deviation of its run's mean from the mean over runs, in thousandths of that mean, up to rounding; without scaling it is 1000 times the proportion, rounded down |
| `TwoPassMngr.LargerIsMoreComplex` | `exe_encoder/TwoPassMngr.cpp:314-364` | A frame of a run with a larger mean never gets a smaller complexity |
| `TwoPassMngr.TargetExtrapolates` | `exe_encoder/TwoPassMngr.cpp:366-388` | The target of a run is where the level would be after a whole group of pictures like it: the level at the end of a run of a whole group, and otherwise in proportion to the length of the run, up to rounding |
| `TwoPassMngr.CarriedLevelsFit` | `exe_encoder/TwoPassMngr.cpp:366-388` | The level that the last pass carries to the start of a run lies between the same limits up to one for every frame and every run before it, the rounding of all divisions |
| `TwoPassMngr.RoundingOvershoots` | `exe_encoder/TwoPassMngr.cpp:366-388` | Pictures of sizes 1, 1 and 1001, one to a run, take it to 1340 with a buffer of 1339 |
| `TwoPassMngr.RunsAreUniform` | `exe_encoder/TwoPassMngr.cpp:322-388` | All frames of a run share one complexity and one target level |
| `SplitInput.SplitInput.constructor` | `exe_decoder/InputLoader.cpp:358-364` | A fresh ring of twice the given size, empty, with its free space at the start |
| `SplitInput.SplitInput.RefillCircularBuffer` | `exe_decoder/InputLoader.cpp:393-416` | Appends as much of the file as fits, in one read or two, and reports whether it ran out |
| `SplitInput.SplitInput.ReadInto` | `exe_decoder/InputLoader.cpp:399-410` | The bytes read lie from the start of the free space on, across the end of the buffer |
| `SplitInput.SplitInput.InsertEndOfStreamAud` | `exe_decoder/InputLoader.cpp:440-465` | Writes the delimiter when the offset of the free space allows it; it continues the unread bytes when it fits the free space |
| `SplitInput.SplitInput.CopyAud` | `exe_decoder/InputLoader.cpp:454-461` | The delimiter lies there likewise |
| `SplitInput.SplitInput.Fill` | `exe_decoder/InputLoader.cpp:508-519` | Takes from the file what fits; the end is reached if and only if the file is read, room is left and the number of bytes read so far, modulo the size of the ring, is at least the length of the delimiter. Afterwards the bytes that have left the ring followed by those in it equal the bytes read, followed by the delimiter once inserted, if and only if the delimiter fits the free space or was not inserted |
| `SplitInput.SplitInput.ReleaseCircularBuffer` | `exe_decoder/InputLoader.cpp:468-472` | Drops the oldest bytes, whether the decoder has got them or not |
| `SplitInput.SplitInput.CopyFromCircularToHardwareBuffer` | `exe_decoder/InputLoader.cpp:475-499` | Hands out a frame across the wrap-around, skipping the bytes in front of it, or fails without a change |
| `SplitInput.SplitInput.EndMeansEverythingConsumed` | `exe_decoder/InputLoader.cpp:484-511` | When only the delimiter is left everything read from the file has left the ring, and the decoder has received exactly the file if and only if no byte was skipped in front of a frame |
| `SplitInput.WrittenIsAppended` | `exe_decoder/InputLoader.cpp:393-412` | Bytes stored behind the unread ones with wrap-around continue them |
| `SplitInput.CheckSparesIff` | `exe_decoder/InputLoader.cpp:447-463` | What passes the room check on the offset of the free space leaves the unread bytes as they are, for all contents, if and only if it fits the size of the free space |
| `SplitInput.OldestIsOverwritten` | `exe_decoder/InputLoader.cpp:454-463` | Otherwise the oldest unread byte is replaced by a byte of the delimiter |
| `SplitInput.OverwritesUnread` | `exe_decoder/InputLoader.cpp:358-519` | A file of eight bytes in a ring of ten: the AVC delimiter passes the check and replaces the first three bytes of the file, none of which has been handed out |
| `SplitInput.NeverEndsIff` | `exe_decoder/InputLoader.cpp:468-519` | With the file read, no sequence of passes, releases and copies leads to the end of the stream if and only if the free space starts below the length of the delimiter |
| `SplitInput.ShortFileNeverEnds` | `exe_decoder/InputLoader.cpp:358-519` | A file shorter than the delimiter is such a case |
| `SplitInput.ReleaseKeepsUnusedOffset` | `exe_decoder/InputLoader.cpp:380-383` | Taking bytes out of the ring does not move the start of its free space |

## Left out

- PutBits: a write of zero bits into an exactly full buffer is excluded; there the code stores one byte behind the buffer.
- PutInByte: the same write of zero bits is excluded.
- PutU: the same write of zero bits is excluded.
- PutI: the same write of zero bits is excluded.
- PutUE: values from 2^31 - 1 on are excluded; there uValue + 1 is not a positive 32-bit signed number.
- PutSE: values whose code number would leave the range of PutUE are excluded.
- PutVclBits: the code length is always the one PutUE computes.
- GenerateSkippedPicture: the HEVC picture is modelled for layouts whose tiles fill the picture in minimum blocks and whose code fits the buffer; in AVC the buffer is read back only when the code fits it.
- GenerateSkippedTileCabac: extents that are not multiples of the minimum CU, and LCU counts other than the tile's, are excluded.
- WriteTile: tiles whose code overflows the buffer are excluded, since emulation prevention is measured on the bytes in it.
- WriteTileRow: the same holds for a row of tiles.
- WriteRows: the same holds for all rows, for layouts whose tiles fill the picture.
- AddAntiEmulSizeInBytes: a stream that has overflowed its buffer is excluded, because the bytes to measure are not there.
- ParserReadsTileIff: the parser follows skipped coding units with the first merge candidate only, and calls everything else astray.
- ParserCountsMbs: the parser follows skipped macroblocks only.
- Fill: the loop of ReadStream around it, which may not end, is modelled by its operations in any order; the search for start codes is any cut, so nothing is said about where frames end.
- AddROI: the allocation never fails; a region's position and size are not negative.
- ComputeComplexity: a mean complexity of zero and a frame rate of zero, on which the code divides by zero, are excluded.
- CRC32: depths above 10, for which the table is too small, are excluded.
- InitCrc32: the same depths are excluded.
- InitEntry: the same depths are excluded.
- ComputePlaneCRC: the same depths are excluded.
- GetMD5: the object may not be used after it, and the machine is little-endian.
- NumberTokenIff: integers are unbounded; the reader's arithmetic on -2^31 overflows 32 bits.
- AppFifo.constructor: allocation of the ring, the event and the semaphore never fails.
- 32-bit overflow outside the bit writer's values, MD5 and the checksum: counts, sizes and levels are unbounded integers.
- The bit count of a stream is unbounded, also after an overflow.
- Scan tables of both standards: any scan that starts at 0 and visits every entry once.
- WrittenIsJsonIff: fractions, exponents, null and escaped surrogates are errors of the grammar's parser, because no value stands for them.
- Tokens of arithmetic expressions: the tokenizer, hexadecimal and floating-point operands and 64-bit overflow of the value; the exact result with doubled parentheses behind an operator or a sign.
- The helpers that look up a member of a JSON value.
- Two-pass log files, scene-change and pattern detection: file formats and heuristics.
- Painting regions into the QP table, with its transitions and AOM segments: a finite case split over table versions.
- SkipBits, PutUV, VUI, HRD and SEI writers: sequences of calls to the writers modelled here.
- Start-code search, NAL classification and IVF or size-file input: finite case splits.
- Hardware, scheduler, allocator, threads, clocks, files and logging: the event, mutex and semaphore of the pool enter by their semantics, a timed wait may end at any time.
- Command lines, configuration tables, sinks, conversions and level tables: plumbing.
