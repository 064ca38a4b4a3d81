# A verified model of the texture compressor

The repository compresses images into ETC1, ETC2, EAC, DXT1 and DXT5 textures, in strips handed to worker threads,
and sends the blocks with the largest error to a GPU encoder. This project models the scalar code behind that in
Dafny and proves what the pieces owe each other. Three groups of results:

* **The block codec.** Every word the encoder builds is read back by the decoder, along the decoder's own path,
  as exactly the colours the encoder chose: individual, differential, T, H and planar words, and EAC alpha. The
  choices themselves are optimal: the layout is a true least-squares choice, the selectors and tables minimise the
  error over all tables and all 4^16 selector assignments, T and H words give every pixel its least-error paint
  colour, and the EAC row minimises the error over all rows and code assignments. The rules behind the choices are
  stated by what they are for: quantised colours are nearest codes, T mode is taken when one group of lumas is at least
  twice as wide as the other, planar mode for smooth blocks, and the decoded alpha and the channel sums of decoded DXT
  colours stay within a bound given by the range of the block alone.
* **The pipeline.** The task queue, the streamed loader, the strips, the mip chain and the GPU routing are step
  systems or classes. Proved over all runs: `Sync` returns only when everything queued has run once, nobody waits
  for ever, work shrinks with every step; every interleaving of the strips writes the words of one sequential pass,
  also when they run as tasks of the queue.
* **Two refinement cores.** The DXT encoders against their decoders, and the SSE2 row filters against the
  reconstruction of section 9 of the W3C PNG specification.

## How it is put together

| files | what they hold |
|---|---|
| `Pixels`, `Words`, `Tables` | colours, clamping, byte order and single bits of words, constant tables |
| `Decoder`, `BlockDecoder` | what a word shows at a pixel, and the loops of the decoder that write it into an image |
| `ThSearch`, `IndexBits`, `ThWords`, `ThBlock` | T and H modes: distance search, index layout, word layout, whole block |
| `EtcAverages`, `EtcFit`, `EtcWords`, `EtcBound` | ETC1: averages and layout, fit, word layout, a bound on its error |
| `Planar`, `EacAlpha` | the planar word and its error; the alpha word |
| `EtcBlock` | a whole ETC1 or ETC2 block |
| `Palette`, `ThWitness`, `EtcWitness`, `EtcGarbage`, `EtcWrap`, `EtcScale` | blocks of four colours: one for each way to choose a T or H word, three of them with the encoder going wrong |
| `BlockWalk`, `Strips`, `GpuRouting` | walking an image by blocks, cutting it into strips, routing blocks to the GPU |
| `Pipeline` | the strips as tasks of the work queue |
| `TaskDispatch`, `Parts`, `Loader`, `MipWalk` | the work queue, the streamed loader, the mip chain |
| `Dxt`, `PngFilters` | DXT1, DXT5 and the PNG row filters |

A block is sixteen pixels in the order of the encoder's buffer: pixel `4 * column + row`. Pixels are
records of named channels: red is what the encoder reads from byte 2 and what the decoder writes to byte 0, since images
for ETC are loaded blue first and decoded red first; for DXT both have red first. Loops that fill arrays
in the source are methods over arrays here; what they compute is stated by functions, and the theorems are about
those functions.

## What the code does that its comments do not say

* **The T/H search can fail.** `calculateErrorTH` starts from a bound meant for a single pixel while the sum runs over
  sixteen. When no tested distance gets below the bound, the index word is never set. `ThBlock.CompressBlockTH` states
  both outcomes for every block, with the failing condition a predicate on the block alone (`SearchFails`), and
  `ThBlock.SearchIsDetermined` shows that the two exclude each other. If the ETC1 fit is no better than
  the bound either, the unset word is what is stored. `EtcWitness.WitnessShowsGarbage` shows this of a block, whatever
  plane colours are tried, and `EtcGarbage.GarbageMatters` that different unset words show different blocks.
* **The T/H error can wrap.** The sum over sixteen pixels is kept in 32 bits, and may exceed them. `ThBlock.ErrorOfWord`:
  the error returned is that of the decoded block if and only if that one fits. `ThSearch.EndsAlike`: a search that has
  found something ends as it would on the sums themselves if and only if those of its improvements that had wrapped came
  first and the last one had not. `EtcWrap.WrappedWordIsEmitted` shows a block for which the search on the sums would
  fail, the wrapped one reports 2522800, and a T word with an error of 4297490096 is stored.
* **The placeholder is never stored.** Outside the T/H mode the encoder passes an empty word with the same bound as its error.
  `EtcBound.EtcErrorBelowMax` shows the ETC1 fit is always below it there, since the luma range is then at most 96.
* **H mode cannot hold an even distance between equal colours.** `ThWords.HDistanceExact` says exactly when the decoder
  recovers the distance; `ThBlock.HBasesDiffer` shows that the encoder never needs the other case.
* **With heuristics off, ETC2 blocks that are not solid are always planar**, because the planar error is then zero
  (`EtcBlock.ProcessRgbEtc2`, `Planar.EncodePlanar`).
* **The ETC1 error and the T/H error are on different scales** (weights adding up to 256 and to 128), and the encoder
  compares them as they are. `EtcScale.GreyCostIsFourfold` says what this means on grey blocks, `EtcScale.WorseIsTaken` when
  it makes the encoder take the worse candidate, and `EtcScale.WorseIsEmitted` shows a block where it does.
* **Strips of mip levels narrower than four pixels share an offset**: `MipWalk.StripsOverlapWhenNarrow` says that a
  strip of a bitmap is apart from every later one if and only if its level is at least four pixels wide. A bitmap of four
  by four pixels already has two levels at one offset (`MipWalk.SmallestOverlap`).
* **DXT1 ranges below 4 have no quarters.** The reciprocals of the four smallest ranges do not fit the table's 16 bits, so
  every channel sum but the least is ranked one too low: the brightest pixel of a block is shown as the upper end colour
  if and only if the range of channel sums is 4 or more (`Dxt.QuarterOfEnds`, `Dxt.CompressDxt1Block`), and
  `Dxt.NarrowIsFlattened` gives a block with two end colours whose pixels are all shown as the lower one.
* **A blank mip level and a raw bitmap signal at least as often as they are read**; a streamed one signals exactly as often
  (`Loader.SignalBlank`, `Loader.SignalRaw`, `Loader.SignalsMatchCalls`). The exact counts are in the contracts.

## Model

| member | source | states |
|---|---|---|
| Words.ConvertUndoesSwappedHalves | BlockData.cpp:831-839 | The decoder's byte-order conversion gives back both halves of a word whose halves were byte-swapped by the encoder |
| Words.ConvertAfterFix | ProcessCommon.hpp:22-29 | FixByteOrder followed by the decoder's conversion swaps the low half only, so selectors arrive as they were packed |
| Words.Bswap64Twice | BlockData.cpp:980 | The 64-bit byte swap of an alpha word undoes itself |
| Tables.ModifierScale | Tables.cpp:3-23 | The encoder's table of modifiers is the decoder's times 256, entry by entry, and no modifier exceeds 183 |
| Tables.AverageOfHalf | Tables.cpp:25-30 | The average named by g_id for a pixel is the one of the half that the decoder will read for that pixel, in all four layouts |
| Tables.AlphaSpread | Tables.cpp:70-106 | The spread of every alpha row is between 17 and 29, the fact that bounds the multiplier |
| Tables.AlphaMirrors | Tables.cpp:70-87 | Every row of g_alpha mirrors itself: its upper half holds the complements of its lower half |
| ThSearch.PaintPixel | ProcessRGB.cpp:2701-2722 | The first paint colour of least error is chosen for a pixel and appended to the index word |
| ThSearch.PaintBlock | ProcessRGB.cpp:2616-2725 | The block error is the sum of the least errors of all pixels, wrapped to 32 bits, and the index word holds all choices |
| ThSearch.CalculateErrorTH | ProcessRGB.cpp:2592-2737 | The search returns the first local minimum, from the start distance, of the block errors in 32 bits, among those below the bound, with its indices; or leaves distance and indices alone, exactly when no tested distance is below the bound |
| ThSearch.IndexWordChoosesBest | ProcessRGB.cpp:2697-2725 | The index word of sixteen shifts in row order holds for every buffer pixel its first least-error colour |
| ThSearch.FailsAlike | ProcessRGB.cpp:2595-2736 | If no error is below the bound in 32 bits, none of the sums is |
| ThSearch.EndsAlike | ProcessRGB.cpp:2612-2734 | A search that improved from one distance to another in 32 bits ends where it would on the sums themselves, if and only if no sum on the way that fits is followed by one that does not, and the last one fits |
| IndexBits.ConversionKeepsIndices | ProcessRGB.cpp:144-171 | The transposed and de-interleaved index word gives every pixel, as the decoder looks it up, the index it had before |
| IndexBits.IndexConversion | ProcessRGB.cpp:144-171 | The two loops over LSB and MSB compute that conversion |
| ThWords.Stuff59IsT | ProcessRGB.cpp:3523-3580 | Whatever 32 bits are stuffed, the word is read in T mode: only red overflows |
| ThWords.TModeRoundTrip | BlockData.cpp:421-470 | For all colours, distances up to 7 and index words the T word decodes to the encoder's paint colour at every pixel |
| ThWords.Stuff58IsH | ProcessRGB.cpp:3585-3661 | Whatever 32 bits are stuffed, the word is read in H mode: red stays in range and green overflows |
| ThWords.FlipChosenOf | ProcessRGB.cpp:3094 | Swapping the colours exchanges paint colours 0 with 2 and 1 with 3 in the index of every pixel |
| ThWords.HDistanceExact | BlockData.cpp:549-553 | The distance recovered from the stored bits and the colour order is the encoder's if and only if the colours differ or the distance is odd |
| ThWords.HModeRoundTrip | BlockData.cpp:529-570 | For all such colours, distances and index words, swapped or not, the H word decodes to the encoder's paint colour at every pixel |
| ThWords.IndicesDecide | BlockData.cpp:460-468 | Two index words that name the same paint colour for every pixel are the same word |
| ThBlock.InsertionSort | ProcessRGB.cpp:124-139 | The lumas end up sorted, the pixel numbers say where each came from and are a permutation, and equal lumas keep their order |
| ThBlock.LumaIsWeighted | ProcessRGB.cpp:3766 | The luma is within two of the sum with the weights 0.299, 0.587 and 0.114 |
| ThBlock.CalculateLuma | ProcessRGB.cpp:3764-3777 | The extremes found are those of all lumas, each at the first pixel that has it |
| ThBlock.FindSplit | ProcessRGB.cpp:2914-2937 | The split is the first that minimises the summed ranges of the two groups with the bonus of its position |
| ThBlock.BonusOfSplit | ProcessRGB.cpp:2918 | A split costs 8, 4 or 2 more when the smaller group has one, two or three pixels, and nothing otherwise |
| ThBlock.ComputeMeanAbove | ProcessRGB.cpp:2976-2987 | The base colour of the wide group is the mean of its pixels, channel by channel, truncated |
| ThBlock.HBasesDiffer | ProcessRGB.cpp:192-211 | In a block with a luma range of 97 or more the two base colours of H mode never quantise to the same RGB444 colour |
| ThBlock.PlanBlock | ProcessRGB.cpp:2909-3061 | T mode if and only if one group of the sorted pixels is at least twice as wide as the other; each quantised colour is the nearest code for the middle or the mean of the group it stands for; the start distance is the one for the average spread; the colours differ in H mode |
| ThBlock.PlanIsMeant | ProcessRGB.cpp:2939-3061 | Every plan of a block is what its two groups call for, in all three cases |
| ThWitness.WitnessIsPlanned | ProcessRGB.cpp:2954-2957 | A block whose upper group is ten times as wide as the lower takes T mode with the middle of the lower group and the mean of the upper |
| ThWitness.WitnessTakesUpperGroup | ProcessRGB.cpp:2989-3007 | And that is the only plan this block has |
| ThBlock.PlanIsUnique | ProcessRGB.cpp:2909-3061 | A block has one plan: mode, quantised colours and start distance follow from its pixels alone |
| ThBlock.OutputTH | ProcessRGB.cpp:3073-3112 | The packing step writes the T or H word of the colours and the distance found, also when the search has failed |
| ThBlock.CompressBlockTH | ProcessRGB.cpp:2896-3112 | T mode is taken if and only if one group is at least twice as wide as the other; the stored word is read in its mode and paints every pixel with its least-error colour; the returned error is what 32 bits keep of the decoded block's, and equals it if and only if it fits; or the search failed and the word holds the unset indices |
| ThBlock.SearchIsDetermined | ProcessRGB.cpp:2595-2736 | Failing and succeeding exclude each other, and the error of a succeeding search is fixed by the block |
| ThBlock.SearchIsUnique | ProcessRGB.cpp:2909-3070 | A block has one plan and, when the search succeeds, one distance |
| ThBlock.ErrorOfWord | ProcessRGB.cpp:2697-2733 | The error of a T or H word is the error of the block it decodes to, cut to 32 bits, and is that error if and only if it is below 2^32 |
| ThBlock.SearchEndsAsOnSums | ProcessRGB.cpp:2723-2733 | For a planned block: the search in 32 bits ends at the distance at which it would end on the sums, if and only if its wrapped improvements came first and the last one did not wrap; the error is then exact |
| ThBlock.FailureIsReal | ProcessRGB.cpp:2595-2736 | A block whose search fails in 32 bits would fail on the sums as well |
| EtcAverages.IdsAreHalves | Tables.cpp:25-30 | A pixel belongs to the half whose average g_id names, and to no other half of its layout |
| EtcAverages.Average | ProcessRGB.cpp:1586-1609 | The quadrant sums yield the rounded averages of the four halves |
| EtcAverages.ProcessAverages | ProcessRGB.cpp:1811-1834 | The eight candidates: nearest four-bit codes of the averages; of each differential pair the second is the nearest five-bit code, and the first the code nearest to the other average's within reach of a three-bit signed difference |
| EtcAverages.FiveBitsNear | ProcessRGB.cpp:1815-1816 | The five-bit code of a byte expands to within 4 of it |
| EtcAverages.ReachIsNearest | ProcessRGB.cpp:1818-1820 | Of all five-bit codes within reach of the second colour, the first is the nearest to the one wanted, which it equals whenever that is in reach |
| EtcAverages.CandidatesFollowAverages | ProcessRGB.cpp:1811-1834 | So for every block, half and channel |
| EtcAverages.CandidatesAreNear | ProcessRGB.cpp:1811-1834 | Four-bit candidates lie within 8 of their averages, five-bit ones within 4, the first of a pair whenever the averages are close enough |
| EtcAverages.AverageIsNearest | ProcessRGB.cpp:1586-1609 | An average is the nearest whole number to the mean of its half |
| EtcAverages.CalcErrorBlock | ProcessRGB.cpp:1699-1729 | The channel sums of all four halves |
| EtcAverages.CalcErrorExact | ProcessRGB.cpp:1732-1740 | The unsigned arithmetic of an error term never leaves the range it is meant for |
| EtcAverages.CalcErrorIsDeviation | ProcessRGB.cpp:1732-1740 | An error term is the squared deviation of the half from its colour, less the sum of squares and plus a constant |
| EtcAverages.LayoutErrorIsDeviation | ProcessRGB.cpp:1934-1938 | The error of a layout is the sum of squared deviations of the whole block up to a constant common to all four layouts |
| EtcAverages.PrepareAverages | ProcessRGB.cpp:1926-1939 | The eight candidates and the four layout errors of a block |
| EtcAverages.GetLeastError | ProcessCommon.hpp:8-20 | The first index of the least entry |
| EtcAverages.ChooseLayout | ProcessRGB.cpp:3403-3406 | The layout chosen is the first that minimises the sum over all pixels of squared distances to the quantised colour of their half |
| EtcFit.FitErrIsPaintErr | ProcessRGB.cpp:1954-1957 | The error computed from the weighted difference is that of the pixel against the colour with the modifier added |
| EtcFit.BestSelectorOf | ProcessRGB.cpp:2074-2085 | The first selector of least error, with that error |
| EtcFit.FindBestFit | ProcessRGB.cpp:1941-2091 | For every half and table the sum of least errors of the half's pixels, and for every pixel and table the selector |
| EtcFit.ChosenFitIsOptimal | ProcessCommon.hpp:32-48 | The tables and selectors emitted cost no more than any pair of tables with any of the 4^16 selector assignments |
| EtcWords.IndividualReadsBack | ProcessRGB.cpp:1844-1851 | An individual word is read as ETC1 with the two four-bit colours, the flip bit and the two tables it was built from |
| EtcWords.DifferentialReadsBack | ProcessRGB.cpp:1852-1861 | A differential word never overflows, so it is not taken for T, H or planar, and yields both five-bit colours, flip bit and tables |
| EtcWords.SelectorsReadBack | ProcessCommon.hpp:40-45 | The selector bits in their two planes give each pixel its selector |
| EtcWords.EtcRoundTrip | BlockData.cpp:841-975 | Every word built from candidates, layout, tables and selectors decodes, at each pixel, to its half's colour with its modifier, clamped |
| Planar.FlagsAreShaped | Tables.cpp:51-68 | All 64 entries of g_flags, as a function of the colour bits they are indexed by |
| Planar.Convert6Nearest | ProcessRGB.cpp:2175-2179 | No other six-bit code expands closer to the value given |
| Planar.Convert7Nearest | ProcessRGB.cpp:2181-2185 | No other seven-bit code expands closer to the value given |
| Planar.ShapedIsPlanar | ProcessRGB.cpp:2315-2322 | With the flags set, red and green stay in range and blue overflows for all colours |
| Planar.PlanarRoundTrip | BlockData.cpp:621-715 | For all colours every pixel decodes to the plane the encoder's error loop evaluates |
| Planar.PlanarErrorIsStoredError | ProcessRGB.cpp:2295-2308 | The error of the colours is that of the image the stored word shows |
| Planar.PlaneIsMonotone | ProcessRGB.cpp:2297-2299 | Along a row of the block each channel of a plane goes one way only, clamping included |
| Planar.ExactRow | ProcessRGB.cpp:2295-2308 | If a planar word shows a block without error, every row of it weighs what a row of one-way colours does |
| Planar.EncodePlanar | ProcessRGB.cpp:2260-2327 | The word of the colours, with the error of what it shows, or zero when no error is asked for |
| EtcBound.ChosenIsCloser | ProcessRGB.cpp:1926-1939 | The layout chosen is no farther from the half means than the individual one with the same halves |
| EtcBound.PixelNearBase | ProcessRGB.cpp:2070 | In a block with a luma range of at most 96 no pixel's weighted difference from the chosen colour exceeds 25580 |
| EtcBound.EtcErrorBelowMax | ProcessRGB.cpp:3967-3971 | For such a block the best tables cost less than the error given to the placeholder |
| EtcBlock.CheckSolid | ProcessRGB.cpp:1910-1923 | A word is returned, and is not zero, if and only if all sixteen pixels are equal |
| EtcBlock.SolidRoundTrip | ProcessRGB.cpp:1920-1923 | The word of a solid block shows one colour at all pixels |
| EtcBlock.SolidIsClose | ProcessRGB.cpp:1920-1923 | That colour is within 9 of the source in every channel |
| EtcBlock.ModeIsUnique | ProcessRGB.cpp:3781-3826 | The mode follows from the pixels of the block |
| EtcBlock.ModeByLumas | ProcessRGB.cpp:3781-3826 | The mode is planar if and only if all lumas lie within 7 of each other, or within 22 with the first darkest and first brightest pixel in opposite corners, and T/H if and only if two lumas are 97 or more apart |
| EtcBlock.OutsideHighContrast | ProcessRGB.cpp:3820-3824 | A block outside the T/H mode has a luma range of at most 96 |
| EtcBlock.EncodeSelectors | ProcessRGB.cpp:3336-3357 | The ETC1 word of an optimal fit, unless its error is no less than that of the other candidate, which is then returned |
| EtcBlock.EncodeFit | ProcessRGB.cpp:3418 | The ETC1 word of an optimal fit |
| EtcBlock.ProcessRgb | ProcessRGB.cpp:3400-3418 | A solid block gets its solid word; any other the word of an optimal fit in the least-squares layout, which decodes to that fit |
| EtcBlock.ThCandidate | ProcessRGB.cpp:3949-3965 | In T/H mode the candidate shows the planned least-error paints, and the error returned is that of the block shown if and only if it fits into 32 bits; or the search failed |
| EtcBlock.ShownIsSearched | ProcessRGB.cpp:3949-3965 | The mode of a stored T or H word and the error of the block it shows are those of the block's one search |
| EtcBlock.OtherCandidate | ProcessRGB.cpp:3947-3972 | The fit competes with the T/H candidate of a high-contrast block, and else with a placeholder whose error it cannot reach |
| EtcBlock.FittedMode | ProcessRGB.cpp:3947-3974 | A block that is not left to planar mode is never stored in it, and in T or H mode only if it was searched for that |
| EtcBlock.WhenPlanarIsStored | ProcessRGB.cpp:3915-3974 | With the heuristics on, a block that is not solid is stored in planar mode if and only if its lumas are smooth or the planar word shows it without error; in T or H mode only if two lumas are 97 or more apart |
| EtcBlock.ProcessRgbEtc2 | ProcessRGB.cpp:3828-3976 | Which of the solid, planar, T/H and ETC1 words is stored, for every block and setting, and what it shows (Etc2Outcome); with the heuristics on, the mode by the lumas alone, and the planar word if and only if the block is smooth or that word shows it without error |
| EtcWitness.WitnessIsHighContrast | ProcessRGB.cpp:3821-3824 | A block of black, red, green and white pixels that is put into the T/H mode |
| EtcWitness.WitnessSearchFails | ProcessRGB.cpp:2595 | For this block no tested distance has an error below the bound |
| EtcWitness.NoFit | ProcessRGB.cpp:3342 | For this block every layout, table and selector assignment costs at least the bound |
| EtcWitness.NoPlaneShowsIt | ProcessRGB.cpp:3930 | No planar word shows this block without error, so the encoder does not stop there |
| EtcWitness.WitnessShowsGarbage | ProcessRGB.cpp:3057-3070 | Whatever plane colours the encoder tries, the word it stores for this block holds the index word that was never set |
| EtcGarbage.GarbageIsShown | BlockData.cpp:421-470 | Every pixel of the decoded block has the one of four different colours that the unset word names for it |
| EtcGarbage.GarbageMatters | ProcessRGB.cpp:3057-3058 | Two runs that find different words there show different blocks |
| EtcWrap.SumsAre | ProcessRGB.cpp:2697-2725 | The sums of the five tested distances of a block of leaf green, pink, lime and sky blue; four of them exceed 32 bits |
| EtcWrap.WitnessIsSearched | ProcessRGB.cpp:2723-2733 | In 32 bits the search of this block ends at distance 3 with an error of 2522800 |
| EtcWrap.WitnessWouldFail | ProcessRGB.cpp:2595 | On the sums themselves no distance would be below the bound |
| EtcWrap.NoCloseFit | ProcessRGB.cpp:3342 | Every layout, table and selector assignment for this block costs more than that |
| EtcWrap.WrappedWordIsEmitted | ProcessRGB.cpp:3949-3974 | Whatever plane colours are tried, a T word is stored for this block that shows it with an error of 4297490096 |
| EtcScale.GreyCostIsFourfold | ProcessRGB.cpp:2070 | A grey block is shown by an ETC1 word with a quarter of its ETC1 error on the T/H scale, or less where levels are clamped |
| EtcScale.WorseIsTaken | ProcessRGB.cpp:3342-3345 | For unclamped grey blocks the encoder takes a T/H candidate that shows the block worse if and only if the ETC1 error is at least the T/H error and below four times that |
| EtcScale.CostAtLeast | ProcessRGB.cpp:2070-2087 | Every fit of a block of four grey levels costs at least 17825792, which is more than its T/H error |
| EtcScale.WorseIsEmitted | ProcessRGB.cpp:3342-3345 | An H word with an error of 16121856 is stored for this block although the best fit would show it with at most 4456448 |
| EacAlpha.FindCode | ProcessRGB.cpp:4814-4834 | Despite the early exit the code is the first of least error |
| EacAlpha.MulInRange | ProcessRGB.cpp:4809 | The multiplier fits into 1 to 15 for every row and range |
| EacAlpha.RowErrorIsLeast | ProcessRGB.cpp:4811-4838 | The error of a row is attained by its codes and is the least over all code assignments |
| EacAlpha.EveryRowIsNear | ProcessRGB.cpp:4801-4834 | In every row some code comes within three and a half multipliers of any value between the extremes, in row 11 within one and a half |
| EacAlpha.EvenRowIsClose | ProcessRGB.cpp:4805-4834 | In row 11 the best code comes within an eighth of the range, plus one, of any value between the extremes |
| EacAlpha.FitAlpha | ProcessRGB.cpp:4803-4847 | Despite the early exit the row chosen is the first of least error, with its multiplier and codes |
| EacAlpha.AlphaWordReadsBack | ProcessRGB.cpp:4849-4859 | The packed word yields base, multiplier, row and all sixteen codes |
| EacAlpha.AlphaRoundTrip | BlockData.cpp:1057-1072 | After both byte swaps every pixel decodes to the value the search reconstructed |
| EacAlpha.FlatRoundTrip | ProcessRGB.cpp:4787-4790 | The word of a flat block, with multiplier and row zero, decodes to its alpha everywhere |
| EacAlpha.ProcessAlpha | ProcessRGB.cpp:4774-4861 | A flat block decodes exactly; any other decodes to codes that are optimal over all rows and assignments; and the sum over the block of the squared differences between decoded and source alpha is at most 16 * (range / 8 + 1)^2 |
| BlockDecoder.InterleavedPairs | BlockData.cpp:905-918 | The spreading of the two planes by masks and shifts puts every pixel's two bits side by side |
| BlockDecoder.PaintHalves | BlockData.cpp:920-974 | Both loops, flipped or not, write each pixel's colour with its half, table and selector, and nothing outside the tile |
| BlockDecoder.DecodeT | BlockData.cpp:421-470 | The tile shows the T word and nothing else changes |
| BlockDecoder.DecodeH | BlockData.cpp:529-570 | The tile shows the H word and nothing else changes |
| BlockDecoder.DecodePlanar | BlockData.cpp:696-715 | The tile shows the planar word and nothing else changes |
| BlockDecoder.DecodeRGBPart | BlockData.cpp:841-975 | For every 64-bit word the tile shows what the word holds in its mode, and nothing else changes |
| BlockWalk.WalkIsDivMod | ProcessRGB.cpp:5252-5256 | Counting columns with a reset visits block k at row k div n and column k mod n |
| BlockWalk.FetchTile | ProcessRGB.cpp:5239-5250 | The buffer holds the tile column by column and the pointer ends at the next tile |
| BlockWalk.FlipTile | ProcessRGB.cpp:5265-5276 | A block collected for the GPU holds the rows of the tile bottom up, without alpha |
| BlockWalk.CompressStrip | ProcessRGB.cpp:5216-5289 | Block k of a strip gets the word of image block k, no other word changes, and the pipe gets the high-error blocks in order |
| BlockWalk.TilesDisjoint | BlockData.cpp:1129-1138 | Tiles of different blocks share no pixel |
| BlockWalk.DecodeRGB | BlockData.cpp:1122-1141 | Word k is shown at block k of the image, for all k together |
| Strips.CutStrips | Application.cpp:609-657 | The strips follow one another, start at their 32 rows' offset and cover every block |
| Strips.AnyInterleavingIsSequential | Application.cpp:643-668 | However the turns of the tasks are interleaved, each moving its own source pointer and column counter, the words and the merged pipes are those of one sequential pass |
| Strips.TurnIsBlock | ProcessRGB.cpp:5239-5287 | One turn with pointer and counter at the right place encodes the next block of the sequential pass and leaves them at the one after |
| Strips.EveryRunFinishes | Application.cpp:645-659 | Every task that is not through can go on inside the image and the output, and a run is finished if and only if it has taken as many turns as there were blocks |
| Strips.MergePipes | Application.cpp:663-668 | The final pipe is the concatenation of the strips' pipes |
| Strips.DecodedBlockByBlock | BlockData.cpp:1129-1138 | The image decoded from any finished run shows at every block what the encoder made of the block there |
| Pipeline.SyncReturnsWithImageEncoded | Application.cpp:651-668 | When Sync returns with all strips queued as tasks, in whatever interleaving of dispatcher and encoding steps, all words and the merged pipes are those of one sequential pass |
| Pipeline.SyncIsNeverStuck | Application.cpp:659 | While that Sync waits, some thread can take a step or encode a block |
| TaskDispatch.Dispatcher.constructor | TaskDispatch.cpp:10-12 | An empty queue without jobs |
| TaskDispatch.Dispatcher.Queue | TaskDispatch.cpp:56-78 | The task comes last in the queue; a worker is notified unless the task is alone |
| TaskDispatch.Dispatcher.SyncTurn | TaskDispatch.cpp:83-91 | Sync takes the last task, leaves or waits |
| TaskDispatch.Dispatcher.WorkerTurn | TaskDispatch.cpp:98-104 | A worker leaves, sleeps, or takes the last task and counts a job |
| TaskDispatch.Dispatcher.Finish | TaskDispatch.cpp:106-113 | The job is uncounted; Sync is notified when it was the last and the queue is empty |
| TaskDispatch.RunsKeepInv | TaskDispatch.cpp:56-115 | In every run each task queued is waiting, in exactly one hand or has run, jobs counts the busy workers, and a sleeping Sync is owed a notification |
| TaskDispatch.QueuedTasksAreNoticed | TaskDispatch.cpp:56-104 | With workers present and two or more tasks queued, in every run either the notification is still due or some worker is awake |
| TaskDispatch.SyncReturnsWithAllRun | TaskDispatch.cpp:80-92 | In every interleaving, when Sync returns the queue is empty, no worker is busy and every task queued has run exactly once |
| TaskDispatch.SyncIsNeverStuck | TaskDispatch.cpp:91 | In every interleaving somebody can step while Sync has not returned, without spurious wakes; while it sleeps some worker is busy or about to notify |
| TaskDispatch.StepDoesWork | TaskDispatch.cpp:83-113 | While Sync runs or the destructor joins, every step but a spurious wake lowers a measure, even if no worker is woken for a lone task |
| TaskDispatch.SyncReturnsInTime | TaskDispatch.cpp:80-92 | So Sync takes no more steps than the measure at its start and three for each spurious wake |
| TaskDispatch.JoinIsNeverStuck | TaskDispatch.cpp:40-50 | No worker sleeps once the destructor joins, and some thread can step |
| TaskDispatch.JoinEndsInTime | TaskDispatch.cpp:47-50 | The destructor's join takes no more steps than the measure at its start |
| Parts.PartCountIsLeast | DataProvider.cpp:25 | The rounded-up count is the one number of parts that covers all lines without an empty part |
| Loader.PartsAreRead | Bitmap.cpp:206-216 | In every interleaving each part handed out follows the last, is not empty and has been read in full |
| Loader.SignalsMatchCalls | Bitmap.cpp:126-153 | The loader unlocks exactly as often as NextBlock is called until done |
| Loader.NextBlockIsNeverStuck | Semaphore.hpp:12-24 | A waiting NextBlock finds the loader at work or a unit to take, so somebody can always step |
| Loader.StepDoesWork | Semaphore.hpp:12-24 | Every step but a spurious wake lowers a measure that stays natural |
| Loader.SignalBlank | BitmapDownsampled.cpp:64-85 | A blank level of h block lines signals once for every l + 1 of its 4h rows begun, which is at least once for each part |
| Loader.SignalRaw | Bitmap.cpp:45-53 | A raw bitmap signals once for every block line, which is at least once for each part |
| MipWalk.LevelsEndAtOne | MipMap.hpp:6-9 | The last counted level is the first that is one pixel by one |
| MipWalk.NumberOfParts | DataProvider.cpp:23-44 | The loop yields the number of calls of NextPart the whole chain takes |
| MipWalk.AdjustSizeForMipmaps | BlockData.cpp:150-163 | The loop yields the bytes of all levels below the first |
| MipWalk.LevelIsFilled | BlockData.cpp:159 | A level is given eight bytes for each of its blocks and none to spare, if and only if it consists of whole blocks |
| MipWalk.DataProvider.constructor | DataProvider.cpp:8-17 | A provider at the first level with the payload and the calls of the whole chain before it |
| MipWalk.DataProvider.NextPart | DataProvider.cpp:46-78 | Each call hands out the next lines of the level at the current offset, inside the payload, and moves on to the rest of the level, to the level below or to the end; one call less is left |
| MipWalk.CallAt | DataProvider.cpp:53-75 | The call at strip j of level i hands out that strip, and leads to the next strip, to the first of the level below, or to the end |
| MipWalk.AllParts | DataProvider.cpp:46-78 | Calling until done hands out exactly the strips of the bitmap's levels, one level after another, all inside the payload, in the computed number of calls |
| MipWalk.LevelIsHandedOut | DataProvider.cpp:50-59 | The strips of a level add up to all its block lines |
| MipWalk.NextStrip | DataProvider.cpp:61 | The next strip of a bitmap begins where the words of this one end, or where this one begins if its level is narrower than a block |
| MipWalk.LaterStrips | DataProvider.cpp:61 | A later strip of a bitmap belongs to no wider level and begins no earlier than the offset was advanced to |
| MipWalk.StripsOverlapWhenNarrow | DataProvider.cpp:61 | Of two strips of a bitmap the earlier ends before the later begins if and only if its level is at least four wide; otherwise both begin at one offset |
| MipWalk.SmallestOverlap | DataProvider.cpp:61 | A bitmap of four by four pixels with its mip levels is handed out at offsets 0, 1 and 1 |
| GpuRouting.SideHoldsAll | BlockDataGPU.cpp:169-175 | The square tile image is the smallest with room for all blocks selected and one more |
| GpuRouting.EntryIsUpright | BlockDataGPU.cpp:194-197 | Un-flipping restores the block the encoder had fetched, upright |
| GpuRouting.StoreTile | BlockDataGPU.cpp:190-199 | The loops fill one tile and no other pixel |
| GpuRouting.LayOut | BlockDataGPU.cpp:180-207 | Running offsets place block i into tile i, and no tile overwrites another |
| GpuRouting.WriteBack | BlockDataGPU.cpp:223-228 | Exactly the selected addresses are overwritten, each with its own block's result |
| GpuRouting.SortKeepsAddresses | BlockDataGPU.cpp:157-161 | Sorting loses and repeats no address |
| GpuRouting.ProcessWithGpu | BlockDataGPU.cpp:151-231 | Each selected address gets the GPU's result for its own upright block, no other word changes, and selected blocks have no less error than the rest |
| GpuRouting.PipeIsRoutable | ProcessRGB.cpp:5260-5286 | The pipe of a strip has distinct addresses within the output, each entry with its own block's pixels |
| PngFilters.ReconInvertsFilter | libpng/filter_sse2_intrinsics.c:52-388 | Reconstruction as in section 9.2 of the PNG specification undoes the forward filter on rows of any length |
| PngFilters.LanePredicts | libpng/filter_sse2_intrinsics.c:110-388 | The lane arithmetic for average and Paeth predicts what the specification does, ties included |
| PngFilters.ReadFilterRow3 | libpng/filter_sse2_intrinsics.c:52-326 | The loops for three bytes a pixel leave the specified reconstruction of the row |
| PngFilters.ReadFilterRow4 | libpng/filter_sse2_intrinsics.c:85-388 | The loops for four bytes a pixel leave the specified reconstruction of the row |
| Dxt.InsetKeepsApart | ProcessDxtc.cpp:482-487 | Two pixels that differ in the kept bits still differ as end colours after the inset, with the larger first |
| Dxt.FixedDigit | ProcessDxtc.cpp:612 | The byte table turns each two-bit rank into its dictionary index |
| Dxt.ProcessRgb | ProcessDxtc.cpp:451-498 | The word of the smallest bounding box of the pixels, inset, with the quarter of the range of sums that each pixel falls into; or of the one colour of a solid block |
| Dxt.PixelByRank | BlockData.cpp:1187-1206 | A pixel decodes to the colour of its rank on the ramp between the end colours |
| Dxt.RanksFollowSums | ProcessDxtc.cpp:490-496 | A pixel with a larger channel sum has no smaller rank |
| Dxt.RankIsQuarter | ProcessDxtc.cpp:480-496 | The rank found with the reciprocal table is the quarter of the range, or the one below when the value is among the first after the edge that the rounding costs, exactly |
| Dxt.QuarterOrBelow | ProcessDxtc.cpp:68-117 | That happens only to the first 8 of four times the value |
| Dxt.QuarterOfEnds | ProcessDxtc.cpp:490-496 | The least sum has rank 0, and the greatest rank 3 if and only if the range is 4 or more |
| Dxt.BoxIsUnique | ProcessDxtc.cpp:467-478 | A block has one smallest bounding box |
| Dxt.PixelIsShown | ProcessDxtc.cpp:480-498 | A pixel is shown as its quarter on the ramp between the end colours, with its channel sum within three sixteenths of the range plus 25; the lowest pixel as the lower end, the highest as the upper one if and only if the range is 4 or more |
| Dxt.ShownIsNear | ProcessDxtc.cpp:482-496 | The bound on the sum, and for grey blocks within three sixteenths of the range plus 9 in every channel |
| Dxt.GreyBox | ProcessDxtc.cpp:467-478 | The bounding box of a grey block is grey |
| Dxt.NarrowIsFlattened | ProcessDxtc.cpp:68-69 | A block that is not solid, and whose pixels are all shown as the lower end colour |
| Dxt.CompressDxt1Block | ProcessDxtc.cpp:612-613 | Every pixel of a solid block decodes to its kept bits; any other block has c0 above c1, decodes monotonically in the channel sum, and shows every pixel as its quarter between the two colours and near the source; the ends as ends, the upper one if and only if the range is 4 or more |
| Dxt.DecodedStep | BlockData.cpp:1263-1275 | Step t of seven decodes to min + t * (max - min) / 7 |
| Dxt.FifthsStep | BlockData.cpp:1273-1281 | With the smaller end first, step t of five decodes to min + t * (max - min) / 5, and the last two entries to 0 and 255 |
| Dxt.StepIsNear | ProcessDxtc.cpp:641-646 | The step found with the reciprocal is within a seventh of the range, plus one, of the alpha it stands for |
| Dxt.ProcessAlpha | ProcessDxtc.cpp:621-651 | A flat block decodes exactly; in any other every alpha decodes to within a seventh of the range plus one |

## Left out

- The AVX2, SSE4.1 and NEON branches of the encoders. They are not bit-identical to the scalar code modelled here.
- The plane fit in floating point (`Planar`, lines 2200-2258): the three plane colours are arbitrary inputs, so the theorems hold whatever the fit yields. `Convert6Nearest` and `Convert7Nearest` cover its last step.
- The float thresholds of the luma range are the integer tests at 7, 22 and 97; `NumberOfMipLevels` uses an integer logarithm, and the side of the GPU image an integer root.
- `isHighError` and `errorValue` come from vector code; a strip takes them from an arbitrary function of the block.
- The GPU encoder is an arbitrary function of a tile. The result of `std::sort` is an arbitrary sorted permutation, and the number of blocks to select a parameter, since it is computed from a float quality.
- EtcBlock.ProcessRgbEtc2: where the unset index word is stored it is a parameter, standing for whatever the memory held.
- The alpha forms of the T, H and planar decoders and of the walk (`DecodeRGBAPart`, `CompressEtc2Rgba`): only the alpha of a pixel is modelled, as the colour part repeats the RGB code.
- The second `ProcessRGB_ETC2` overload and the `ErrorBlockData` queue.
- TaskDispatch.StepDoesWork: does not model time; a fair scheduler is not assumed, only that some enabled step is taken.
- Mutexes and condition variables are atomic critical sections and wake steps, spurious ones included; weak memory is not modelled. Tasks do not queue further tasks, which holds for every caller.
- MipWalk.DataProvider.NextPart: pixels are not carried along; the data of `BitmapDownsampled` (averaging, linearisation) is colour science and is left out, its sizes and signals are not.
- Dxt words are numbers and their fields digits; `DivTable`, `DxtcIndexTable` and `AlphaIndexTable` are given by the formula for their entries. The DXT walk over an image repeats the ETC one.
- Dithering, file formats (PVR, KTX, PNG chunks), `mmap`, lz4, zlib, the command line, benchmarks and timing.
