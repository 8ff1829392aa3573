# Verified models of rav1d

rav1d decodes AV1 video. This project models the parts of the decoder whose correctness does not show in
any single function, and proves what they are for. `dafny verify dfyconfig.toml` checks everything.

- **CDEF** (`CdefPadding`, `CdefApply`, `CdefKernel`, `CdefStandard`, `CdefDirection`, `CdefGeometry`). The constrained
  directional enhancement filter must filter every 8x8 block from the picture as it was before filtering
  (section 7.15 of the AV1 specification), but the decoder filters in place. `CdefApply` is the pass over
  the rows of blocks, with its two-line and two-column backups, toggles and flags; it is proved to give
  what filtering a frozen picture gives, for any kernels, and for any sequence of calls over adjoining row
  ranges. `CdefPadding` gathers the taps of a block, `CdefKernel` is the filter kernel, whose sentinel and
  missing clips are proved harmless, `CdefDirection` is the direction search in 32-bit arithmetic, and
  `CdefStandard` puts them together: every pixel is the standard's filter of the frozen frame, with
  exactly the taps outside the frame left out. The kernel and the search behind the function pointers are
  shown to meet what the pass asks of them wherever it calls them, and `CdefGeometry` shows that the taps of
  a direction lie along the lines the search credits it for.
- **Blocks** (`BlockTree`, `BlockShapes`, `LoopFilterMask`, `BlockMasks`). The recursive partition of
  superblocks: every symbol cuts a square along its lines, the blocks tile the frame, and the second pass,
  which has only the records of the first, repeats it up to where it fails by itself or sees the flush
  flag, whatever the buffer of records held before. Decoding
  records which 8x8 positions CDEF has to look at and which strength entry each 64x64 unit uses; what CDEF
  reads there is proved to be right, so that the pass filters exactly the positions with coefficients, and
  the blocks of the partition, however their decoding ends, are what the recording asks for, also when the
  superblocks of one 128x128 area are decoded one by one.
- **Values** (`Palette`, `PalettePack`, `IntraBc`, `WarpSamples`, `ValueCodes`). The palette wavefront is a
  bijection between symbols and index maps, and orders the indices as the standard does; the packed map,
  also when it is packed over itself, reads back as the decoded one; intra block copy reads only what is
  decoded; the selection of warp samples is an in-place partition; the codes of segment ids and motion
  vector differences are bijections.
- **Memory** (`TileParser`, `TileLayout`, `LineBuffers`, `AlignedVectors`). Cutting tile groups into tiles
  undoes packing them; the tiles' stretches of shared buffers, and the lines of the CDEF line buffer for
  both signs of the stride, are disjoint and inside their allocations; the chunked vector is a plain one.
- **The FIFO of the example player** (`Fifo`). Push, shift and flush as steps of threads with one mutex and
  one condition variable: safety for any number of threads, and no lost wakeup for one pusher and one
  consumer, given that no push begins while a flush is pending and the queue is full; keeping pushes out
  of flushes is enough for that. The condition is exact, for every capacity and after every run that kept
  to it: a push begun against it can leave both threads asleep for ever, any other push cannot. One pusher
  and one consumer are essential: with two of either, and no flush at all, all threads can end up asleep.

The entropy decoder appears as arbitrary symbols in range. Pictures are arrays indexed by plane, row and
column; only `LineBuffers` is about addresses and strides. Frame sizes are whole 8x8 blocks.

Three things were found on the way. The Rust code advances chroma pointers by `8 * (stride >> ss_ver)`, which
is the C code's `8 * stride >> ss_ver` exactly if chroma rows are not halved or the stride is even. The
default allocator makes strides multiples of 64 bytes (src/picture.rs:99-106), so only a caller's own
allocator can give an odd one. The Rust code packs the palette index behind the visible ones
(src/pal.rs:101-120) where the C code packs the last visible one (src/pal.c:53); the two agree exactly if
these are equal or nothing is behind, and filling the edge before (src/decode.rs:667-675) makes them equal.
And the comment "error?" on a segment id above the last active one is right:
exactly the symbols above the last active id give such an id, and 0 is kept for it.

## Model

| member | source | states |
|---|---|---|
| CdefPadding.Fill | src/cdef.rs:162-170 | exactly the cells of the rectangle become the sentinel |
| CdefPadding.Padding | src/cdef.rs:172-242 | every cell of the tap buffer comes from the line backup, the column backup or the picture, or is the sentinel, by the four edge flags |
| CdefApply.Backup2Lines | src/cdef_apply.rs:40-77 | the line backup of one toggle holds the last two rows of every plane's block row, the other toggle is untouched |
| CdefApply.Backup2x8 | src/cdef_apply.rs:79-121 | the chosen planes' two columns are saved, halved offset for subsampled chroma, everything else is untouched |
| CdefApply.CellIsFrozen | src/cdef_apply.rs:276-338 | what the kernel gathers at a position is what the frozen picture has there, given that the backups are ready |
| CdefApply.RunKernel | src/cdef_apply.rs:340-366 | one kernel call writes the kernel's value on the frozen taps to every pixel of the block, and nothing else |
| CdefApply.FindDirection | src/cdef_apply.rs:270-275 | the direction is searched on the frozen luma block |
| CdefApply.FilterBlock | src/cdef_apply.rs:270-456 | all planes of a block become the filtered frozen block, or stay when no strength is left |
| CdefApply.ReadyFrom | src/cdef_apply.rs:260-338 | progress, saved lines and saved columns together make a plane ready for filtering |
| CdefApply.DoLeftIsEnough | src/cdef_apply.rs:254-260 | the planes not backed up by the previous block are those of `do_left`, and their left neighbours are unfiltered |
| CdefApply.SaveColumns | src/cdef_apply.rs:254-268 | the current column backup holds this block's left columns, the other one those the next block needs |
| CdefApply.SkipBlock | src/cdef_apply.rs:248-252 | a skipped block is already what it must become |
| CdefApply.FilterPosition | src/cdef_apply.rs:244-463 | one 8x8 position, coded or not, moves the pass one block on and keeps the row's invariant |
| CdefApply.FilterSb64 | src/cdef_apply.rs:211-468 | one 64x64 unit, filtered or skipped, keeps the row's invariant |
| CdefApply.FilterRow | src/cdef_apply.rs:206-469 | one row of blocks |
| CdefApply.CdefContext.Row | src/cdef_apply.rs:185-475 | saving, filtering and switching the toggle keep the pass invariant for the next row |
| CdefApply.CdefContext.Brow | src/cdef_apply.rs:137-476 | every pixel of the range becomes what filtering the frozen picture gives, all others stay, and the line backup is ready for the next range |
| CdefApply.CdefContext.Brows | src/cdef_apply.rs:137-476 | any sequence of calls over adjoining ranges filters every range from the picture before the first call |
| CdefApply.AdjustedScale | src/cdef_apply.rs:123-135 | a strength is scaled to between 4 and 16 sixteenths, one more for every doubling of the variance from 64 on, rounded to the nearest; without variance it becomes 0 |
| CdefApply.LevelStrengths | src/cdef_apply.rs:233-241 | an entry holds the primary strength in steps of four and the secondary one, of which 3 stands for 4, in the scale of the bit depth |
| CdefApply.BlockSizes | src/cdef_apply.rs:164-167 | the size of an 8x8 block in a plane, by what each layout leaves of chroma |
| CdefApply.LumaIsRaster | src/cdef.rs:461-482 | the direction search gets the block row by row |
| CdefKernel.SentinelVanishes | src/cdef.rs:152-159 | the sentinel is so far away that `constrain` gives 0 for every pixel, strength and damping in range |
| CdefKernel.SentinelNeverWins | src/cdef.rs:306-328 | neither the unsigned minimum nor the signed maximum ever takes the sentinel |
| CdefKernel.KernelTap | src/cdef.rs:152-159 | a weighted tap is the standard's contribution, which is 0 for an unavailable tap |
| CdefKernel.SumBounded | src/cdef.rs:294-332 | the weighted sum is bounded by the total weight times the distance to the extremes |
| CdefKernel.ClipRedundant | src/cdef.rs:341-388 | with a total weight below 16 the rounded sum stays between the extremes, so clipping changes nothing |
| CdefKernel.OneStrengthWeighsTwelve | src/cdef.rs:341-388 | the effective weights total at most 12 when one of the strengths is 0 |
| CdefKernel.VisitDistance | src/cdef.rs:304-328 | the six taps at one distance update sum and extremes as the standard's do |
| CdefKernel.PixelBoth | src/cdef.rs:291-341 | the branch with both strengths gives the standard's clipped pixel |
| CdefKernel.PixelPri | src/cdef.rs:341-362 | the branch with the primary strength, which does not clip, gives the standard's pixel |
| CdefKernel.PixelSec | src/cdef.rs:362-388 | the branch with the secondary strength, which does not clip, gives the standard's pixel |
| CdefKernel.CdefFilterBlock | src/cdef.rs:245-388 | the whole block, in place, becomes the standard's filter of the gathered taps, and nothing else changes |
| CdefKernel.RoundsToNearest | src/cdef.rs:337-384 | the sum of sixteenths is rounded to the nearest, halves away from zero |
| CdefKernel.ConstrainLaws | src/cdef.rs:152-159 | a difference is kept while it and what the damping leaves of it stay within the threshold, then loses the excess, and vanishes once that part reaches the threshold |
| CdefKernel.ExtremesAre | src/cdef.rs:296-328 | smallest and largest bound the pixel and every available tap, and are one of them |
| CdefKernel.TapWeights | src/cdef.rs:291-328 | taps come in opposite pairs; along the direction they weigh four and two, or three and three for an odd strength, across it two and one |
| CdefGeometry.TableIsFlat | src/tables.rs:648-661 | the offsets, wrapped around and in a buffer with rows of twelve, are the numbers of the table |
| CdefGeometry.TapsFollowLines | src/tables.rs:648-661 | from any pixel the far tap of a direction is on the search's line of that pixel, the near one on it or the next |
| CdefGeometry.DirectionsTurn | src/tables.rs:648-661 | the directions go round clockwise, direction 2 is horizontal, and each is at right angles to the one across |
| CdefGeometry.SecondaryTaps | src/cdef.rs:304-328 | the secondary taps lie half way between the direction and the one across |
| CdefGeometry.ChromaDirection | src/cdef_apply.rs:169-170 | in 4:2:2 the chroma direction is that of the luma offset squeezed to half its width, or vertical where that falls between two; elsewhere it is the luma one |
| CdefStandard.AdjustedAtMost | src/cdef_apply.rs:123-135 | adjusting a strength to the variance never raises it |
| CdefStandard.CallsAreValid | src/cdef_apply.rs:233-242 | every strength entry and header damping gives calls in which no shift is negative and the sentinel vanishes |
| CdefStandard.RequestOfEntry | src/cdef_apply.rs:233-366 | what an entry makes the pass ask of the kernel: strengths in the scale of the bit depth, luma's adjusted to the variance, the direction or 0 without a primary strength, and the damping, one less for chroma |
| CdefStandard.DepthKeepsShift | src/cdef_apply.rs:163 | a higher bit depth changes no shift of the kernel |
| CdefStandard.NoStrengthKeeps | src/cdef_apply.rs:340-440 | where the pass does not call the kernel the standard's filter keeps the pixel |
| CdefStandard.TapIsFramePixel | src/cdef_apply.rs:154-170 | a tap is available exactly when it lies in the frame, and then it is the frame's pixel |
| CdefStandard.GatheredTapsAgree | src/cdef.rs:172-242 | sum and extremes over the gathered taps are those over the frame |
| CdefStandard.PassIsStandard | src/cdef_apply.rs:137-476 | with a kernel pointer that computes the standard's pixel, as `RunRealKernel` shows of the real kernel, every pixel of the pass is the standard's filter on the frozen frame, called or not, with the strengths, direction and damping of its block |
| CdefStandard.ReadyGathersPixels | src/cdef_apply.rs:276-366 | wherever the pass calls a kernel, the cells it gathers are pixels or the sentinel, whatever else the buffers hold |
| CdefStandard.ApplyRealKernel | src/cdef.rs:245-388 | the in-place kernel meets the contract under which the pass calls its function pointer |
| CdefStandard.RunRealKernel | src/cdef_apply.rs:340-366 | called where the pass calls it, the real kernel leaves what the pass's call through the pointer leaves |
| CdefStandard.FindRealDirection | src/cdef_apply.rs:270-275 | the 32-bit search on the current picture gives the pass's direction and variance of the frozen block |
| CdefStandard.RealDspIsReal | src/cdef.rs:245-530 | there are pointers that compute what kernel and search compute, for every bit depth |
| CdefStandard.FilteredPixelsBelow | src/cdef_apply.rs:137-476 | filtering never leaves the range of the frozen frame's pixels |
| CdefStandard.FilteredAlongLines | src/cdef_apply.rs:270-275 | where the frozen frame is constant along one direction only, luma is filtered along it |
| CdefDirection.LinesShareEnergy | src/cdef.rs:467-482 | the partial sums of a direction split the block: every pixel is on exactly one line |
| CdefDirection.SpreadZero | src/cdef.rs:484-517 | on a line, length times energy is at least the squared sum, with equality exactly when the line is constant |
| CdefDirection.CostBelowEnergy | src/cdef.rs:484-517 | a cost is at most 840 times the energy of the block, with equality exactly when the block is constant along every line |
| CdefDirection.ConstantDirectionIsFound | src/cdef.rs:519-526 | a block constant along a direction is constant along the one chosen, which is that one if it is the only one |
| CdefDirection.CostFits | src/cdef.rs:484-517 | every cost is between 0 and 840 * 64 * 128 * 128, which fits 31 bits |
| CdefDirection.Lengths | src/cdef.rs:467-482 | how many of the 64 pixels are on each line of each direction |
| CdefDirection.DiagonalCost | src/cdef.rs:492-503 | the table-weighted pairs of diagonals add up to 840 * sum^2 / length over all lines |
| CdefDirection.SteepCost | src/cdef.rs:505-517 | the same for the directions in between |
| CdefDirection.StraightCost | src/cdef.rs:485-490 | the same for rows and columns |
| CdefDirection.PartialSums | src/cdef.rs:461-482 | the eight updates per pixel leave the sum of every line of every direction |
| CdefDirection.FindDirection | src/cdef.rs:456-530 | the direction is the first one with the largest cost, the variance its lead over the direction across, and no 32-bit operation overflows or underflows |
| CdefDirection.AcrossIsQuarterTurn | src/cdef.rs:519-530 | the lines of the direction across, with which the variance compares, are those of the direction after a quarter turn of the block |
| CdefDirection.LevelledPixel | src/cdef.rs:461-466 | the search works on the leading eight bits of a pixel, less 128 |
| BlockTree.WalkPlaces | src/decode.c:2139-2410 | for every frame and every symbols, and however the walk ends, the blocks decoded start in the frame, lie in their square and are disjoint |
| BlockTree.WalkSquaresPlace | src/decode.c:2642-2742 | the same for a list of superblocks |
| BlockTree.WalkTiles | src/decode.c:2139-2410 | the blocks of a successful walk also cover the in-frame cells of the square |
| BlockTree.WalkSquaresTile | src/decode.c:2642-2742 | the same for a list of superblocks |
| BlockTree.TilesAreRecorded | src/decode.c:823-825 | blocks that tile an area never overwrite each other's record |
| BlockTree.FirstBlock | src/decode.c:2139-2410 | the first block of a square is at its corner, and its level tells whether the square was divided |
| BlockShapes.SymbolsOfLevel | src/tables.c:228-234 | which partition symbols are coded at which level, and the size of the levels |
| BlockShapes.PartitionCuts | src/decode.c:2186-2341 | for every symbol, two cells of the square are in one block exactly if none of the lines the symbol cuts along lies between them |
| BlockShapes.PartitionOrder | src/decode.c:2186-2341 | the blocks are decoded row by row, or column by column for the symbol that halves the left part |
| BlockShapes.WholeSquare | src/decode.c:2166-2186 | one symbol decides between four quarters, in order, and the blocks of its cut; in 4:2:2 it is an error exactly if a block would be taller than wide |
| BlockShapes.CutSquare | src/decode.c:2342-2396 | where the frame ends inside a square, a bit decides between the quarters in the frame and the one half, and nothing is read where only the first quarter is left |
| BlockTree.DecisionRepeats | src/decode.c:2139-2410 | the record at the corner is enough to repeat a decision |
| BlockTree.SecondPassRepeatsFirst | src/decode.c:2139-2410 | whatever fails in the second pass: over any first superblocks, given the records of a successful first pass, it decodes the same blocks in the same order up to and including the first that fails in it, and succeeds exactly if none does |
| BlockTree.RecordsSane | src/decode.c:823-825 | the records of a successful first pass never send the second one to a four-way strip at 8x8, whatever was in the buffer before |
| BlockTree.TaskContext.DecodeB | src/decode.c:823-825 | the first pass records level and partition at the block's origin |
| BlockTree.TaskContext.DecodeSb | src/decode.c:2139-2410 | the recursive decoder agrees with the walk, in both passes, and restores the position on success |
| BlockTree.TaskContext.DecodeSuperblocks | src/decode.c:2642-2742 | the loop over superblocks agrees with the walk of those begun before the flush flag is set, and fails exactly at the first error or the flag |
| BlockTree.FirstPass | src/decode.c:2662-2742 | the first pass decodes only in-frame, disjoint blocks, however it ends; it succeeds exactly if the walk does and no flush is seen, and then they tile the superblocks |
| BlockTree.SecondPass | src/decode.c:2642-2661 | the second pass decodes the blocks of the first, in order, up to the first that fails in it or the superblock before which it sees a flush |
| BlockTree.DecodeTwice | src/decode.c:2642-2742 | with failures and flush readings of its own in each pass, the second decodes a prefix of what a successful first one did; it succeeds exactly if the first does, none of the blocks fails in it and it sees no flush, and then decodes all of them |
| LoopFilterMask.MaskWriter.constructor | src/decode.c:3060 | a zeroed record, valid before any superblock |
| LoopFilterMask.MaskWriter.BeginSuperblock | src/decode.c:2672-2683 | the strength indices of the superblock's units are reset |
| LoopFilterMask.MaskWriter.ReadIndex | src/decode.c:956-972 | every unit has the index of its first block that is not skipped, also when blocks span units |
| LoopFilterMask.FirstIdxIs | src/decode.c:956-972 | that index belongs to a block of the unit before which all blocks of the unit are skipped |
| LoopFilterMask.MaskWriter.MarkRows | src/decode.c:1968-1978 | exactly the columns and mask rows of the block are marked |
| LoopFilterMask.MaskWriter.DecodeBlock | src/decode.c:956-972 | masks and indices stay right for the list of blocks decoded so far |
| LoopFilterMask.PairOfBits | src/cdef_apply.rs:223-251 | CDEF's 32-bit test reads the mask bits of two neighbouring columns |
| LoopFilterMask.CodedMeansCoefficients | src/cdef_apply.rs:223-252 | CDEF's test of an 8x8 position is true exactly when one of its four cells is in a block that is not skipped |
| LoopFilterMask.NoIndexMeansNoMask | src/cdef_apply.rs:213-220 | a unit's index is -1 exactly when none of its positions is to be filtered, and otherwise that of its first block that is not skipped |
| LoopFilterMask.ViewIsValid | src/decode.c:3060 | at any moment of decoding, the record is one CDEF can read: every index is -1 or a strength entry |
| LoopFilterMask.CodedHasIndex | src/cdef_apply.rs:213-252 | a position with coefficients finds the strength index of the first block of its unit that is not skipped |
| BlockMasks.WalkAligned | src/decode.c:2139-2410 | every block is aligned to its size, however the walk ends |
| BlockMasks.SuperblockFeedsMask | src/decode.c:1968-1978 | the blocks of a superblock, also those before a failure, are what the recording of masks asks for |
| BlockMasks.RecordArea | src/decode.c:2662-2742 | superblocks of one 128x128 area, in any order and however each ends, are recorded one after the other, and the record is right for all their blocks |
| BlockMasks.AreaIsCoded | src/cdef_apply.rs:223-252 | after that, CDEF's test of an 8x8 position is true exactly when a block of some superblock is not skipped and has a cell there |
| BlockMasks.LevelsFollowBlocks | src/cdef_apply.rs:212-252 | given the records decoding made, the levels of an 8x8 block are those of the first block of its unit that is not skipped, if it has coefficients, and otherwise zero |
| BlockMasks.OnlyCodedIsFiltered | src/cdef_apply.rs:212-252 | the pass leaves every pixel of a block without coefficients alone |
| Palette.OrderIsPermutation | src/decode.c:361-418 | an ordering lists each of the eight indices once, and starts with exactly the palette's |
| Palette.OrderIsStandard | src/decode.c:361-418 | the ordering sorts by the standard's scores (section 5.11.50), ties by index, and the context is the standard's |
| Palette.OrderCases | src/decode.c:373-417 | which indices come first, and which context is chosen, in each of the cases of equal neighbours |
| Palette.NeighboursEarlier | src/decode.c:433-444 | left, top and top-left neighbours are decoded before the pixel |
| Palette.SymbolIndexInjective | src/decode.c:433-444 | no two pixels share a symbol |
| Palette.WavefrontOrder | src/decode.c:433-444 | symbols follow the diagonals in order, and each diagonal downwards |
| Palette.SymbolIsRank | src/decode.c:440-444 | a symbol is the number of indices that the standard puts before the decoded one |
| Palette.FirstSymbolIsIndex | src/decode.c:430 | the first symbol is the first index itself |
| Palette.DiagTotal | src/decode.c:433-436 | the diagonals together hold width times height pixels |
| Palette.DecodingExists | src/decode.c:420-449 | every symbol sequence decodes to a map over the palette |
| Palette.DecodingUnique | src/decode.c:420-449 | and to only one |
| Palette.EncodingExists | src/decode.c:420-449 | every map over the palette is decoded from some symbol sequence |
| Palette.EncodingUnique | src/decode.c:420-449 | and from only one |
| Palette.OrderPixel | src/decode.c:373-417 | one row of the ordering and its context, with a bit mask of the neighbours |
| Palette.OrderPalette | src/decode.c:361-418 | the rows and contexts of a diagonal, by one moving pointer |
| Palette.ReadPalIndices | src/decode.c:420-445 | the wavefront fills the visible cells with what the symbols decode to, uses every symbol, and leaves all other cells alone |
| PalettePack.PackInPlace | src/pal.rs:94-109 | packing over the map never overwrites an index before it is read |
| PalettePack.PackOut | src/pal.rs:110-123 | packing into another buffer gives the same bytes |
| PalettePack.ReadsBack | src/pal.rs:89-133 | the packed bytes read back as the map, the index behind the visible ones on their right and the last visible row below |
| PalettePack.FinishAgrees | src/pal.c:37-62 | the Rust and the C code pack a row alike exactly if nothing is behind the visible indices or the index there is the last visible one |
| PalettePack.FilledAgrees | src/decode.rs:667-675 | once the edge is filled they always do |
| PalettePack.ReadAndPack | src/decode.rs:630-680 | symbols, edges and packing together: the bytes, in their own buffer or over the map, read back as the decoded map with its last column and row repeated |
| PalettePack.PalPred | src/ipred.rs:1384-1408 | prediction, which takes the low half of each byte first, finds the colour of every decoded index, and no byte with a bit out of range |
| IntraBc.BlockFits | src/decode.c:1307-1346 | an aligned block lies between the borders and within its superblock |
| IntraBc.ChromaBlocks | src/decode.c:715-717 | a block brings chroma along exactly if it holds a cell in which a chroma sample of its own ends |
| IntraBc.BordersAreTile | src/decode.c:1308-1320 | the borders are the tile's, moved in for a cell taken along for chroma; the right one is the next multiple of the block width |
| IntraBc.SourceIs | src/decode.c:1316-1319 | vectors count eighths of a pixel, and parts are dropped downwards |
| IntraBc.RoomIsRoom | src/decode.c:1341-1349 | there is room above or to the left exactly if a source there would be decoded |
| IntraBc.Clamp | src/decode.c:1307-1361 | the source of the stored vector keeps its size, lies in the tile and in decoded area; decoding fails exactly when it overlaps and there is no room above or left; a good vector is kept; otherwise the source goes right above the superblock, or right to its left if there is no room above, or up as far as the row of superblocks reaches |
| IntraBc.MoveOut | src/decode.c:1338-1361 | moving out of the current superblock, above it first, exactly as far as needed, and the stored vector fits 16 bits |
| WarpSamples.MoveCompacts | src/decode.c:327-335 | one move keeps the invariant of the two pointers |
| WarpSamples.MetIsCompacted | src/decode.c:327-331 | when the pointers have met, the kept samples are in front |
| WarpSamples.Compact | src/decode.c:327-335 | the in-place compaction never leaves the array |
| WarpSamples.Select | src/decode.c:314-335 | the first slots hold a permutation of exactly the samples within the threshold, or nothing moves and the first sample is used |
| WarpSamples.NearIsWithinSide | src/decode.c:314-323 | a sample is kept if its motion differs by at most the longer side of the block, between 16 and 112 |
| ValueCodes.SegIdCodeIsBijection | src/decode.c:175-195 | codes and values below the maximum correspond one to one, for every prediction |
| ValueCodes.SmallerCodesAreNearer | src/decode.c:175-195 | smaller codes stand for values nearer to the prediction |
| ValueCodes.UpperComesFirst | src/decode.c:175-195 | of two values equally far from the prediction the upper one has the smaller code |
| ValueCodes.KeptSegIdIsActive | src/decode.c:865-874 | exactly the symbols above the last active id give an inactive id, for which 0 is kept; any other symbol keeps the id it codes |
| ValueCodes.DiffThenCode | src/decode.c:76-105 | every code gives an expressible difference, and no other code gives it |
| ValueCodes.CodeThenDiff | src/decode.c:76-105 | every nonzero difference up to 2^14 on the precision's grid has a code |
| ValueCodes.DiffGrows | src/decode.c:76-105 | each class doubles the range, bit n of the integer part weighs 2^n pixels, and the sign symbol means negative |
| ValueCodes.ReadMvComponentDiff | src/decode.c:76-105 | the reader, bit by bit, gives the difference of the code |
| TileParser.PackThenParse | src/decode.c:3170-3192 | parsing undoes packing, for payloads of any size the length field can say |
| TileParser.ParseThenPack | src/decode.c:3170-3203 | whatever parses was packed: no byte is left over |
| TileParser.RejectedIffNotPacked | src/decode.c:3184-3191 | a group is rejected exactly when no payloads pack to it |
| TileParser.ReadSize | src/decode.c:3185-3188 | the size bytes are little-endian, less one |
| TileParser.ValueAppend | src/decode.c:3185-3187 | every further byte of a size weighs 256 times the one before |
| TileParser.ParseGroup | src/decode.c:3174-3203 | the tiles of a group are set up with their payloads and starts, at row and column in raster order |
| TileParser.InitTiles | src/decode.c:3163-3203 | all tile groups, or failure at the first that does not parse; the update flag is set exactly if probabilities are kept and some group has the tile to keep them from |
| TileLayout.StretchesDisjoint | src/decode.c:2826-2835 | in the order of tiles, no two areas overlap |
| TileLayout.StretchInside | src/decode.c:2826-2835 | every area is inside the frame's, at most 2^32 |
| TileLayout.RowStarts | src/decode.c:2826-2835 | a row of tiles starts after everything above it in the full width of the frame |
| TileLayout.AllocatedIsFrameShare | src/decode.c:2860-2911 | every buffer is allocated for exactly the frame's area |
| TileLayout.AllocatedForSamples | src/decode.c:2440-2445 | the table of sizes gives a coefficient to every sample of every plane, an entry to every 16 samples, and half a byte to every palette index, in all layouts |
| TileLayout.ArenasDisjoint | src/decode.c:2460-2472 | in every buffer, for every layout and bit depth, the tiles' stretches do not overlap |
| TileLayout.ArenaInside | src/decode.c:2460-2472 | and lie inside the allocation |
| TileLayout.TileStartOffsets | src/decode.c:2823-2836 | the start of every tile, and no 32-bit product overflows |
| TileLayout.RunInside | src/decode.c:2848-2858 | the rows of lowest pixels of every tile are inside the allocation |
| TileLayout.RunsDisjoint | src/decode.c:2848-2858 | different tiles have different rows of lowest pixels |
| TileLayout.LowestPixelRuns | src/decode.c:2848-2858 | the advancing pointer gives every tile its run |
| LineBuffers.AddressIsSlot | src/decode.c:2932-2972 | the pointers and strides reach one slot per line, mirrored for a negative stride |
| LineBuffers.LinesInOrder | src/decode.c:2932-2972 | windows follow by superblock row, toggle, plane and row, unfiltered lines by plane, superblock row and row, and the other way round for a negative stride |
| LineBuffers.LineInside | src/decode.c:2924-2972 | every line is inside the allocation, with 32 bytes to spare on both sides |
| LineBuffers.LinesDisjoint | src/decode.c:2932-2972 | no two lines, of windows or unfiltered lines, share a byte |
| LineBuffers.EveryByteHasLine | src/decode.c:2924-2972 | the lines fill the allocation: every byte but the 32 at either end belongs to one |
| LineBuffers.PlansAgree | src/cdef_apply_tmpl.c:41-63 | the Rust arithmetic copies the same bytes as the C branches |
| LineBuffers.SaveTwoLines | src/cdef_apply.rs:40-77 | two picture rows are copied to two lines one stride apart |
| LineBuffers.SaveWindow | src/cdef_apply.rs:192-205 | the lines of a window read back as the saved rows, and all other lines of the buffer keep their contents |
| LineBuffers.AdvanceExact | src/cdef_apply.rs:470-472 | the Rust code moves by whole rows exactly if rows are not halved or the stride is even; the C code always does |
| AlignedVectors.Write | src/align.rs:216-224 | consecutive bytes are written across chunk borders, all others stay |
| AlignedVectors.ChunksFor | src/align.rs:205-211 | the fewest chunks that hold the bytes |
| AlignedVectors.NextByte | src/align.rs:174-183 | bytes follow one another through a chunk and on into the next, as the slice reads them |
| AlignedVectors.AlignedVec.Resize | src/align.rs:194-227 | every element below the length is initialised and inside the chunks, and the contents are those of a plain vector; only an overflowing size fails |
| AlignedVectors.AlignedVec.AsSlice | src/align.rs:174-183 | reading back gives the elements |
| AlignedVectors.ResizeAll | src/align.rs:194-227 | over any sequence of resizes, the slice is that of a plain vector |
| Fifo.ShiftEntries | examples/dp_fifo.c:113-120 | the array is shifted down in place and its first element returned |
| Fifo.DestroyEntries | examples/dp_fifo.c:143-144 | the entries are destroyed, last first |
| Fifo.InvStep | examples/dp_fifo.c:93-147 | every step of every thread keeps the invariant of queue, mutex and pushes |
| Fifo.StepRecords | examples/dp_fifo.c:93-111 | a push is appended exactly when it is tested with room, and turned away exactly when it wakes during a flush |
| Fifo.RunIsSafe | examples/dp_fifo.c:93-147 | in every run of any number of threads the count is within the capacity, every push is pending, appended or rejected, and elements leave once, by shift in order or by flush |
| Fifo.FlushLeavesEmpty | examples/dp_fifo.c:135-147 | in every run, a flush that releases the mutex leaves the queue empty, has destroyed what was in it, last first, and everything appended so far is exactly what was shifted and what was destroyed |
| Fifo.TwoInvStep | examples/dp_fifo.c:93-147 | with one pusher, one consumer and no push begun while a flush is pending and the queue full, every step keeps the two in step |
| Fifo.NoLostWakeup | examples/dp_fifo.c:93-147 | a sleeping consumer has an empty queue, a sleeping pusher a full one, a sleeping flush a woken pusher, and never are both asleep |
| Fifo.DisciplineIsExact | examples/dp_fifo.c:93-147 | after any such run with the pusher between calls, a push begun now can end with both asleep for ever if and only if a flush is pending and the queue is full |
| Fifo.PendingFlushCanGetStuck | examples/dp_fifo.c:93-147 | for every capacity, from every state with a flush pending and the pusher between calls, pushes regardless of the flush can end with both asleep for ever and the queue empty |
| Fifo.FullFlushIsReachable | examples/dp_fifo.c:93-147 | for every capacity there is a run that keeps to the condition and reaches a full queue with a flush pending |
| Fifo.TwoConsumersCanGetStuck | examples/dp_fifo.c:93-133 | for every capacity, one pusher and two consumers can, without any flush, all end up asleep on an empty queue |
| Fifo.TwoPushersCanGetStuck | examples/dp_fifo.c:93-133 | for every capacity, two pushers and one consumer can all end up asleep on a full queue |

## Left out

- The threaded CDEF path (`have_tt`): which of the line buffers hold which rows is decided by code that is
  not modelled; only the addresses of the line buffer are (`LineBuffers`).
- Strides and pointers of pictures: `CdefApply` indexes rows and columns, so that `LineBuffers.AdvanceExact`
  is not combined with the pass.
- The tables of block sizes and block dimensions: block geometry follows from the partition. The kernel is
  proved for any table of offsets with parts from -2 to 2.
- CdefKernel.CdefFilterBlock: the position of a tap in the flat buffer is modelled, the 16-bit type of the
  buffer is not, because pixels of at most 12 bits and the sentinel fit it.
- BlockTree.DecodeTwice: which partition contexts and probabilities a symbol is read with, and what a block
  decodes to, are not modelled; in each pass any block may fail, for reasons of that pass.
- BlockTree.TaskContext.DecodeSb: the updates of the partition contexts are left out, they do not affect the
  walk.
- Palette.ReadPalIndices: the adaptation of probabilities is not part of this model.
- IntraBc.Clamp: the prediction of the vector and the 16-bit addition of its residual are left out; the
  vector before clamping is arbitrary.
- WarpSamples.Select: the gathering of the samples and the fit of the warp model are left out.
- ValueCodes.ReadMvComponentDiff: symbols come in a record rather than a stream, one field for each.
- TileParser.InitTiles: what `setup_tile` makes of its arguments is left out; so is the check that tile
  groups are contiguous, which is made where they are collected.
- TileLayout.ArenasDisjoint: how much of its stretch a tile uses is decided by code that is not modelled.
- LineBuffers.SaveWindow: a picture is an array of bytes.
- AlignedVectors.AlignedVec.Resize: alignment of addresses and failure of the allocator are left out.
- Fifo.RunIsSafe: creation and destruction of the queue, and freeing it while threads are inside.
- The entropy decoder, motion vector prediction, reconstruction, deblocking, restoration and scheduling.
- CdefKernel.VisitDistance: the kernel adds all taps of a distance before it updates the extremes; the model
  goes tap by tap, which makes no difference to sums, minima and maxima.
