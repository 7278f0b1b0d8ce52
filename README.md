# ViBe background subtraction, modelled in Dafny

This project models the ViBe engine of `ImageProcessingFinal/Views/ViBe.cs`. The engine keeps a
model of the background: for every pixel, `n` colour samples stored in a byte array indexed
`[x, y, slot, channel]`. The current frame it reads is indexed `[y, x, channel]`.

- `BackgroundModelInitialization` fills every slot of every pixel with the pixel's current colour.
  In shaky-camera mode it also seeds comparison slot 0.
- `BackgroundModelUpdate` handles one frame, pixel by pixel:
  - it refreshes the comparison slot of the frame's parity and counts pixels whose luma did not change;
  - it scans the samples with a per-channel strict box test, stopping at `bgMMin` matches;
  - it writes the segmentation colour chosen by the classification and the display flags;
  - for a background pixel only, it may overwrite one of the pixel's own slots and one slot of a
    neighbour, each with probability `1/(phi-1)` when `phi >= 2`; with `phi == 1`,
    `Next(0, 0)` always returns 0, so both writes always happen.

  After the pass it may reinitialise the whole model, and it always resets the counter.
- `GetRandomNeighbourPixel` clamps a coordinate to a neighbour.

The Dafny is in five modules.

- `ViBeSpec` (`vibe_spec.dfy`): the values and the pure per-pixel logic.
  - The match count and the early-exit scan.
  - The segmentation colour.
  - The ranges of the random draws and the neighbour clamp.
  - The set of slots a background pixel writes.
  - C#'s truncating `%` and the frame-parity slot choice.
  - The reinitialisation test.
- `Partition` (`partition.dfy`): the `Parallel.For` column split. Worker `c` of `P` handles columns
  `[W*c/P, W*(c+1)/P)`. The ranges are ordered, disjoint and cover `[0, W)`.
- `UpdateSpec` (`update_spec.dfy`): each loop level of the engine as a function over a value snapshot
  of its buffers (`Model`).
  - `PixelStep`: one pixel.
  - `RowsUpTo`: the rows of one column.
  - `ColumnsUpTo`: a range of columns.
  - `FrameUpdate`: a whole update call.
  - `InitModel`: the initialisation.
- `UpdateProps` (`update_props.dfy`): what those functions do, proved.
  - A pixel step writes only the slots its draws select, and only the pixel's own colour.
  - A foreground pixel writes no sample in its own step. Its samples are still not frozen over
    an update call: the neighbour write of ViBe.cs:146-156 does not look at the neighbour's
    class, so a background pixel next to it can overwrite one of its slots
    (`ForegroundSampleDiffused` gives a concrete case).
  - The segmentation write touches channels 0..2 of its own pixel only.
  - Over a frame, the counter grows by exactly the pixels whose luma test holds, and every
    comparison slot of the frame's parity is refreshed.
  - Without a reinitialisation, every changed sample holds a colour from its pixel's 3x3
    neighbourhood, and never sits in the last slot of a pixel that has at least two slots.
  - A still scene settles in shaky-camera mode: once one update call has seen the picture on a
    positive frame, the call on the next frame with the same picture counts every pixel and
    does not reinitialise while `pct <= 1`. This assumes that the luma test holds between
    equal colours.
- `ViBeModel` (`vibe.dfy`): class `ViBe`, holding the engine's byte arrays. Its methods update them
  in place with the engine's own loops.
  - `WriteSample`, `WriteSeg`, `WriteCompare`, `BackgroundModelInitialization`,
    `RefreshComparison`, `ReplaceSamples`, `UpdatePixel`, `UpdateColumn`, `UpdateWorkers` and
    `BackgroundModelUpdate` are proved to leave the arrays equal to the `UpdateSpec` function
    applied to their previous contents (`State() == F(old(State()), ...)`).
  - `InitColumn`, `InitColumns` and `InitSlot`, the initialisation loops, state the new
    contents element by element.
  - `CountMatches` changes nothing and is stated by the values it returns.
  - `UpdateWorker` is stated relative to the store at the start of the pass, which the
    workers before it have already advanced.

Modelling choices:

- **Random draws.** They are inputs: one `Draws` record per pixel, indexed `[x][y]`, with the
  ranges of `Random.Next` (`DrawsOk`).
- **Luma comparison.** The floating-point luma comparison is the parameter `lumaEq`.
- **The parallel loops.** They run their workers one after another, worker 0 first.

## Model

| member | source | states |
|---|---|---|
| ViBeSpec.AbsDiff | ImageProcessingFinal/Views/ViBe.cs:111-113 | the channel distance is in [0, 256) and is 0 exactly when the two channels are equal |
| ViBeSpec.MatchCount | ImageProcessingFinal/Views/ViBe.cs:109-120 | the number of matching samples never exceeds the number of samples |
| ViBeSpec.MatchCountStep | ImageProcessingFinal/Views/ViBe.cs:111-119 | scanning one more slot adds one to the count exactly when all three channel distances are below `r` |
| ViBeSpec.MatchCountPrefix | ImageProcessingFinal/Views/ViBe.cs:109-120 | a prefix of the slots never has more matches than all of them |
| ViBeSpec.EarlyExitIsExact | ImageProcessingFinal/Views/ViBe.cs:109-122 | stopping the scan once `bgMMin` matches are found, or after the last slot, classifies the pixel exactly as counting all slots would |
| ViBeSpec.UniformSamplesAllMatch | ImageProcessingFinal/Views/ViBe.cs:61-63 | after initialisation every sample equals the pixel's colour, so with `r > 0` all `n` slots match |
| ViBeSpec.DistantSamplesNeverMatch | ImageProcessingFinal/Views/ViBe.cs:109-120 | samples that are all one colour not close to the pixel give zero matches |
| ViBeSpec.SegColour | ImageProcessingFinal/Views/ViBe.cs:122-186 | the frame colour shows through exactly for the class the display flags select; a background pixel without the background-only flag is black; a foreground pixel in background-only mode is magenta or black by the parity of `x + y`; a foreground pixel with no flag is white |
| ViBeSpec.SegColourHidesUnselected | ImageProcessingFinal/Views/ViBe.cs:158-186 | outside the selected class the written colour does not depend on the frame colour |
| ViBeSpec.CheckerboardAlternates | ImageProcessingFinal/Views/ViBe.cs:166-179 | the foreground checkerboard differs between horizontally and vertically adjacent pixels |
| ViBeSpec.DrawsPossible | ImageProcessingFinal/Views/ViBe.cs:137-150 | a pixel's draws can all be in range exactly when `phi >= 1` and either `phi >= 3` or `n >= 1`; otherwise some `Next` call of the update has an empty or negative range |
| ViBeSpec.NeighbourCoord | ImageProcessingFinal/Views/ViBe.cs:198-212 | the coordinate is unchanged at 0, `width - 1` or `height - 1`; otherwise it moves by at most one; it stays inside `[0, width)` and inside `[0, height)` whenever it started there |
| ViBeSpec.PixelWrites | ImageProcessingFinal/Views/ViBe.cs:137-156 | every slot a background pixel writes lies inside the store |
| ViBeSpec.PixelWritesShape | ImageProcessingFinal/Views/ViBe.cs:137-156 | at most two slots are written, all in the pixel's 3x3 neighbourhood, never the last slot `n - 1` (when `n >= 2`); nothing is written unless a draw came up 0; the own slot is written whenever the first draw did |
| ViBeSpec.CsRem2 | ImageProcessingFinal/Views/ViBe.cs:82-95 | C#'s `i % 2` is in [-1, 1], agrees with the mathematical remainder for `i >= 0`, and is never 1 for negative `i` |
| ViBeSpec.RefreshedSlot | ImageProcessingFinal/Views/ViBe.cs:82-107 | a slot is refreshed only in shaky-camera mode and never on frame 0; slot 0 exactly on even frames other than 0; slot `i % 2` on positive frames; nothing on negative odd frames |
| ViBeSpec.ReinitMeansFewMatches | ImageProcessingFinal/Views/ViBe.cs:191-194 | the ratio test holds exactly when the counter is below `pct` times the pixel count; a frame whose every pixel matched never reinitialises while `pct <= 1` |
| Partition.ColumnStartMono | ImageProcessingFinal/Views/ViBe.cs:74-75 | later workers start no earlier than earlier ones |
| Partition.ColumnStartEnds | ImageProcessingFinal/Views/ViBe.cs:74-75 | worker 0 starts at column 0 and the last worker ends at column `W` |
| Partition.ColumnRangeInBounds | ImageProcessingFinal/Views/ViBe.cs:49-50 | every worker's range lies inside `[0, W)` and is never reversed |
| Partition.ColumnRangesDisjoint | ImageProcessingFinal/Views/ViBe.cs:74-75 | no column belongs to two workers |
| Partition.ColumnsCovered | ImageProcessingFinal/Views/ViBe.cs:74-75 | every column in `[0, W)` belongs to some worker |
| UpdateSpec.DrawsFitPossible | ImageProcessingFinal/Views/ViBe.cs:79-157 | draws in range for every pixel of a frame exist exactly when the frame is empty or the settings satisfy the condition of `DrawsPossible` |
| UpdateSpec.ColumnsSplit | ImageProcessingFinal/Views/ViBe.cs:72-75 | running columns `[a, b)` and then `[b, c)` is the same as running `[a, c)`, so consecutive worker ranges compose into one pass |
| UpdateProps.StepWrites | ImageProcessingFinal/Views/ViBe.cs:122-157 | a foreground pixel selects no slot, and every selected slot is inside the store |
| UpdateProps.PixelStepSamples | ImageProcessingFinal/Views/ViBe.cs:109-187 | a pixel step sets exactly the slots its draws select (none for a foreground pixel) to the pixel's colour and leaves every other slot of every pixel alone |
| UpdateProps.PutSampleAt | ImageProcessingFinal/Views/ViBe.cs:141-143 | writing one slot changes that slot and no other |
| UpdateProps.ReplaceWrites | ImageProcessingFinal/Views/ViBe.cs:137-156 | the random model update writes exactly the own and neighbour slots its draws select |
| UpdateProps.PixelStepSeg | ImageProcessingFinal/Views/ViBe.cs:122-186 | channels 0..2 of the pixel's own segmentation entry get the colour its classification and the flags select; no other byte of the map changes |
| UpdateProps.PixelStepCompare | ImageProcessingFinal/Views/ViBe.cs:82-107 | a pixel step changes the comparison buffer only by its own refresh |
| UpdateProps.PixelStepCount | ImageProcessingFinal/Views/ViBe.cs:87-93 | a pixel step adds one to the counter exactly when its luma test holds |
| UpdateProps.Refreshed | ImageProcessingFinal/Views/ViBe.cs:82-107 | a refreshed comparison slot holds its old colour or the current one, and always its old one outside shaky-camera mode and on frame 0 |
| UpdateProps.RowsCompareAt | ImageProcessingFinal/Views/ViBe.cs:77-107 | after rows `0 .. y-1` of column `x`, exactly the comparison slots of those pixels are refreshed |
| UpdateProps.ColumnsCompareAt | ImageProcessingFinal/Views/ViBe.cs:75-107 | after columns `lo .. x-1`, exactly the comparison slots of those columns are refreshed |
| UpdateProps.RowsRefresh | ImageProcessingFinal/Views/ViBe.cs:77-107 | the comparison buffer after a column's rows is the buffer with only their refreshes applied |
| UpdateProps.ColumnsRefresh | ImageProcessingFinal/Views/ViBe.cs:75-107 | the comparison buffer after a range of columns is the buffer with only their refreshes applied |
| UpdateProps.ColumnHits | ImageProcessingFinal/Views/ViBe.cs:77-107 | a helper bound for the counting lemmas: at most `y` of the first `y` rows of a column can count; the exact count is `RowsHits` |
| UpdateProps.HitsAtMostPixels | ImageProcessingFinal/Views/ViBe.cs:92-105 | the pixels that count in a range of columns are at most the pixels of that range |
| UpdateProps.ColumnHitsSame | ImageProcessingFinal/Views/ViBe.cs:87-103 | a column's count depends only on its own comparison slots |
| UpdateProps.ColumnHitsAhead | ImageProcessingFinal/Views/ViBe.cs:75-107 | earlier columns leave a later column's count as it was at the start of the frame |
| UpdateProps.RowsHits | ImageProcessingFinal/Views/ViBe.cs:77-107 | over a column's rows the counter grows by exactly the number of those pixels whose luma test holds |
| UpdateProps.ColumnsHits | ImageProcessingFinal/Views/ViBe.cs:75-107 | over a range of columns the counter grows by exactly the number of their pixels whose luma test holds |
| UpdateProps.AbsorbedStep | ImageProcessingFinal/Views/ViBe.cs:137-156 | a pixel step changes a slot only to a colour from the slot's pixel's 3x3 neighbourhood, and never the last slot of a pixel that has at least two slots |
| UpdateProps.AbsorbedRows | ImageProcessingFinal/Views/ViBe.cs:77-188 | the same over the rows of a column: changed slots hold neighbourhood colours and, when the pixel has at least two slots, are not its last one |
| UpdateProps.AbsorbedColumns | ImageProcessingFinal/Views/ViBe.cs:75-189 | the same over a range of columns: changed slots hold neighbourhood colours and, when the pixel has at least two slots, are not its last one |
| UpdateProps.InitModelFills | ImageProcessingFinal/Views/ViBe.cs:43-68 | initialisation sets every slot of every pixel to its colour; in shaky-camera mode with `n > 0` it also sets comparison slot 0; slot 1, the segmentation map and the counter are untouched |
| UpdateProps.PassShake | ImageProcessingFinal/Views/ViBe.cs:72-107 | the pass over all columns adds exactly the number of pixels whose luma test holds, and refreshes every pixel's comparison slot of the frame's parity |
| UpdateProps.FrameUpdateShake | ImageProcessingFinal/Views/ViBe.cs:70-197 | after an update call the counter is 0, and every comparison slot is refreshed, except that a reinitialisation seeds slot 0 with the current colour |
| UpdateProps.FrameUpdateReinit | ImageProcessingFinal/Views/ViBe.cs:191-194 | an update call that reinitialises leaves every sample equal to its pixel's colour |
| UpdateProps.StillHits | ImageProcessingFinal/Views/ViBe.cs:82-105 | on a positive frame in shaky-camera mode, when every pixel's comparison slot of the other parity holds its current colour, every pixel of a range of columns passes the luma test |
| UpdateProps.StillFrameNoReinit | ImageProcessingFinal/Views/ViBe.cs:82-194 | under the same conditions, with `pct <= 1`, the update call does not reinitialise the model |
| UpdateProps.StillSceneSettles | ImageProcessingFinal/Views/ViBe.cs:70-197 | after one update call on a positive frame, the call on the next frame with the same picture never reinitialises while `pct <= 1`, whatever the model held before |
| UpdateProps.ForegroundSampleDiffused | ImageProcessingFinal/Views/ViBe.cs:146-156 | in a concrete 3x3 scene, a background pixel's step overwrites a sample of a neighbour that is foreground |
| UpdateProps.FrameUpdateAbsorbs | ImageProcessingFinal/Views/ViBe.cs:70-197 | without a reinitialisation, every sample that changed holds a colour from its pixel's neighbourhood and, when the pixel has at least two slots, is not its last slot |
| ViBeModel.ViBe.constructor | ImageProcessingFinal/Views/ViBe.cs:13-42 | allocates the sample, segmentation and comparison arrays in the engine's layout, with the counter at 0, for settings under which the random draws have a value in range |
| ViBeModel.ViBe.WriteSample | ImageProcessingFinal/Views/ViBe.cs:141-143 | the three channels of one slot take the colour; no other slot changes |
| ViBeModel.ViBe.WriteSeg | ImageProcessingFinal/Views/ViBe.cs:126-128 | channels 0..2 of one segmentation pixel take the colour; nothing else changes |
| ViBeModel.ViBe.WriteCompare | ImageProcessingFinal/Views/ViBe.cs:84-86 | the three channels of one comparison slot take the colour; no other slot changes |
| ViBeModel.ViBe.InitColumn | ImageProcessingFinal/Views/ViBe.cs:52-64 | slot `k` of every pixel of column `x` takes the pixel's colour (and comparison slot 0 does in shaky-camera mode); nothing else changes |
| ViBeModel.ViBe.InitColumns | ImageProcessingFinal/Views/ViBe.cs:49-65 | the same for the columns `[lo, hi)` of one worker |
| ViBeModel.ViBe.InitSlot | ImageProcessingFinal/Views/ViBe.cs:47-66 | the same for every column, split among the workers |
| ViBeModel.ViBe.BackgroundModelInitialization | ImageProcessingFinal/Views/ViBe.cs:43-68 | every slot of every pixel holds the pixel's colour; comparison slot 0 does in shaky-camera mode with `n > 0`; the new state is `InitModel` of the old one |
| ViBeModel.ViBe.RefreshComparison | ImageProcessingFinal/Views/ViBe.cs:82-107 | the new state is the shake refresh `Refresh` of the old one |
| ViBeModel.ViBe.CountMatches | ImageProcessingFinal/Views/ViBe.cs:79-120 | the scan stops at `bgMMin` matches or after slot `n - 1`; its count is the match count of the scanned slots; it reaches `bgMMin` exactly when the pixel is background against all its samples |
| ViBeModel.ViBe.ReplaceSamples | ImageProcessingFinal/Views/ViBe.cs:137-156 | the new state is the random model update `Replace` of the old one |
| ViBeModel.ViBe.UpdatePixel | ImageProcessingFinal/Views/ViBe.cs:79-187 | the new state is `PixelStep` of the old one |
| ViBeModel.ViBe.UpdateColumn | ImageProcessingFinal/Views/ViBe.cs:77-188 | the new state is `RowsUpTo` over all rows of column `x` |
| ViBeModel.ViBe.UpdateWorker | ImageProcessingFinal/Views/ViBe.cs:73-189 | run after workers `0 .. core-1`, worker `core` extends the pass from its first column to one past its last |
| ViBeModel.ViBe.UpdateWorkers | ImageProcessingFinal/Views/ViBe.cs:72-190 | all workers together make one left-to-right pass over all columns |
| ViBeModel.ViBe.BackgroundModelUpdate | ImageProcessingFinal/Views/ViBe.cs:70-197 | the new state is `FrameUpdate` of the old one: the pass, then the reinitialisation when the ratio test holds, then the counter reset |

## Left out

- Concurrency of `Parallel.For`: the workers run one after another, worker 0 first. Two
  workers writing the same neighbour slot at once, and the unsynchronised `_matchCount++`,
  are not modelled. The partition lemmas show that the column ranges themselves are disjoint
  and cover the frame.
- ViBeModel.ViBe.UpdateWorker: stated for the sequential schedule, as the continuation of a
  pass that workers `0 .. core-1` have already made, rather than for a worker started on an
  arbitrary state. `UpdateSpec.ColumnsSplit` gives the range-by-range view.
- Floating-point luma equality (`0.11*b + 0.59*g + 0.3*r` compared with `==` on doubles): this
  is the parameter `lumaEq`, and the model says nothing about how doubles round. The still-scene
  lemmas assume only that `lumaEq(c, c)` holds for every colour `c`. The engine's test meets
  this, because it evaluates the same double expression on the same bytes on both sides.
- The reinitialisation ratio: it is computed on exact reals. A zero-pixel frame never triggers,
  which is how the NaN or infinite double quotient compares. Double rounding near the threshold
  is not modelled.
- 32-bit overflow of `_frameWidth * (cpuCoreId + 1)`, `_frameWidth * _frameHeight` and
  `_matchCount`: all integers are unbounded.
- Random numbers: `_rnd` and the `new Random()` inside `GetRandomNeighbourPixel` are inputs
  (`Draws`), constrained to the ranges `Random.Next` returns. The order in which the engine
  consumes them is not modelled.
- Settings with `phi < 1`, or with `phi` of 1 or 2 and `n == 0`: the constructor and `Valid()`
  exclude them, because there some `Next` call of a background pixel has a negative bound and
  throws (`DrawsPossible`). The engine only reaches that call for a background pixel, so on
  these settings it still completes frames in which no pixel is background; the model does not
  cover those runs, nor the exception itself.
- Settings with `n == 0` and `phi >= 3`: they are allowed, but `DrawsOk` admits no update draw
  of 0 there, because the slot draw `Next(0, -1)` that would follow throws. Runs in which a
  background pixel (possible only with `bgMMin <= 0`) draws 0 are therefore not covered; the
  engine throws in them.
- Emgu images (`_frameImage`, `_segMap`, `_frameRead`): frames and the segmentation map are
  plain byte arrays. The caller refills the frame array between calls.
- Members not declared in `ViBe.cs` (`ProcessorCount`, `OnlyBackground`, `OnlyForeground`,
  `_rnd`) are constructor parameters. The engine's own constructor and the code that sizes its
  arrays are not in `ViBe.cs`, so the model's constructor is its own.
- The model requires at least one worker, because `ProcessorCount` is a positive processor count.
- `ImageProcessingFinal/Views/VideoCaptureInfo.cs` is not part of this model. It wraps Emgu's
  video capture and its timing arithmetic is on doubles.
