/** The record that the skipped-picture generators fill in (lib_bitstream/SkippedPicture.h). */
module SkippedPictures {
  import opened Bits

  datatype SkippedSlice = SkippedSlice(uOffset: nat, uSize: nat, uNumTiles: nat)

  class SkippedPicture {
    var pData: array?<uint8>
    var iNumSlices: nat
    const tSkippedSlice: array<SkippedSlice>
    const uTileSizes: array<nat>
    var iNumBins: nat

    constructor (buffer: array?<uint8>, maxSlices: nat, maxTiles: nat)
      ensures pData == buffer && fresh(tSkippedSlice) && fresh(uTileSizes)
      ensures tSkippedSlice.Length == maxSlices && uTileSizes.Length == maxTiles
    {
      pData := buffer;
      iNumSlices := 0;
      iNumBins := 0;
      tSkippedSlice := new SkippedSlice[maxSlices](_ => SkippedSlice(0, 0, 0));
      uTileSizes := new nat[maxTiles](_ => 0);
    }
  }
}
