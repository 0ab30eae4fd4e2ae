# Backgammon board analyzer and flag store, modelled in Dafny

This project models two components of a browser tool that annotates backgammon videos.

1. **`BackgammonBoardAnalyzer`** (`src/utils/boardRecognition.js`) does three things. It calibrates on a frame by picking the board outline among the frame's contours and caching 24 point positions. It matches checker blobs to those points. It groups pip blobs into dice. The computer-vision library is abstracted away. A frame is represented by the contours it would yield, and each contour is a `Contour` record: its area, the vertices of its polygon approximation (so the vertex count is their number) and its centroid.
2. **The flag list of the video store** (`src/stores/videoStore.ts`). `addFlag` inserts a new flag in timestamp order. `updateFlagAnalysis` merges a partial analysis into the first flag with a given id.

Modules:

- `Wrappers` (`wrappers.dfy`) provides `Option` (the source's `null`) and `Result` (the source's `throw`).
- `Geometry` (`geometry.dfy`) holds points and corners, squared distance, and the fixed thresholds of the source. These are the 50-pixel radius (compared as a squared distance below 2500), the checker minimum area 100, and the pip area range (20, 100).
- `Calibration` (`calibration.dfy`) covers board selection (`IsBoard`), the corner sort, and the 24-point `Layout`.
- `Checkers` (`checkers.dfy`) covers the nearest-point specification and the per-mask tagging of checker blobs.
- `Dice` (`dice.dfy`) covers pip filtering, seed-and-absorb clustering, the die centre, and the dice read from a pool of pips.
- `Analyzer` (`analyzer.dfy`) holds the class `BoardAnalyzer`. Its fields are `pointPositions` and `calibrated`, and its methods follow the source's methods loop for loop.
- `FlagStore` (`flags.dfy`) holds the `Flag` datatype, the specification functions `Inserted` and `Updated`, and the class `VideoStore`, whose field is `flags`.

Each method is proved against a specification function, and the lemmas beside that function state what the source promises of it.

Behaviour of the code worth noting:

- `calibrateBoard` returns the resulting `calibrated` field, not whether this attempt found a board. A failed attempt after an earlier success returns true (`src/utils/boardRecognition.js:73`).
- A checker observation's `point` is the matched position's index within its row (0..11), and the row is dropped (`src/utils/boardRecognition.js:186`). Checkers on the top and bottom rows at the same index are therefore reported alike.
- A quadrilateral of area 0 never becomes the board, because the running maximum starts at 0 and the comparison is strict (`src/utils/boardRecognition.js:43-48`).
- The error raised by `analyzeFrame` is a plain `Error("Board not calibrated")`. It is modelled as `Err(NotCalibratedMessage)`.

## Model

| member | source | states |
|---|---|---|
| `Analyzer.BoardAnalyzer.constructor` | src/utils/boardRecognition.js:2-7 | a new analyzer is uncalibrated with no cached positions, and satisfies the invariant |
| `Analyzer.BoardAnalyzer.FindBoardContour` | src/utils/boardRecognition.js:43-58 | the running-maximum scan finds a board exactly when some contour is a quadrilateral of positive area; the one it finds is of largest area among quadrilaterals, and strictly larger than every earlier quadrilateral (first wins on ties) |
| `Analyzer.BoardAnalyzer.CalibrateBoard` | src/utils/boardRecognition.js:22-74 | with a board, the cache becomes the layout of its corners and `calibrated` is set; without one, nothing changes; the result is the resulting `calibrated`; the invariant is kept |
| `Analyzer.BoardAnalyzer.CalculatePointPositions` | src/utils/boardRecognition.js:76-101 | the cache is replaced by exactly the 24-entry layout of the four corners; `calibrated` is untouched |
| `Analyzer.BoardAnalyzer.CalculatePointPosition` | src/utils/boardRecognition.js:103-107 | appends one interpolated position and changes nothing else |
| `Analyzer.BoardAnalyzer.AnalyzeFrame` | src/utils/boardRecognition.js:109-129 | uncalibrated: fails with "Board not calibrated", whatever the frame; calibrated: returns the checkers and dice of the frame with the given timestamp, and the checkers were matched against a full 24-entry interleaved layout (the class invariant `Valid`) |
| `Analyzer.BoardAnalyzer.DetectCheckers` | src/utils/boardRecognition.js:131-203 | the observations are those of the black mask's contours followed by those of the white mask's, in contour order |
| `Analyzer.BoardAnalyzer.DetectColor` | src/utils/boardRecognition.js:161-190 | for one mask, the observations are exactly `Tag` of its contours: one per contour of area above 100 whose centroid has a nearest cached position, in contour order, with that position's index |
| `Analyzer.BoardAnalyzer.FindNearestPoint` | src/utils/boardRecognition.js:263-276 | no result exactly when no cached position is within 50 pixels (so also when the cache is empty); otherwise the first position at minimal distance, which is within 50 pixels |
| `Analyzer.BoardAnalyzer.DetectDice` | src/utils/boardRecognition.js:205-261 | the loop terminates and pushes exactly the dice of the grouping of the pip centroids (`DiceOf`, whose per-die size and mean `Dice.DiceOfCorrect` states); every value is at least 1 and the values add up to the number of contours with area strictly between 20 and 100 |
| `Analyzer.BoardAnalyzer.FindDiceDots` | src/utils/boardRecognition.js:278-298 | empty pool: empty result, pool unchanged; otherwise the result is the cluster seeded by the old first dot (starting with it) and the pool becomes exactly the non-absorbed dots in their original order, strictly shorter than before (what clusters and kept dots satisfy is stated by `Dice.ClusterCorrect` and `Dice.KeepAbsorbedPartition`) |
| `Calibration.BoardUnique` | src/utils/boardRecognition.js:43-58 | at most one contour is the board outline, so calibrating twice on the same contours gives the same positions |
| `Calibration.SortByKeyCorrect` | src/utils/boardRecognition.js:91-93 | `SortByKey`, the model of the `Array.prototype.sort` calls by x and by y, orders by the chosen coordinate and is a permutation of its input |
| `Calibration.SplitCorners` | src/utils/boardRecognition.js:91-93 | two corners go left and two go right |
| `Calibration.SplitCornersCorrect` | src/utils/boardRecognition.js:91-93 | `left` holds the two corners of smallest x and `right` the other two; together they are the four corners; each pair is ordered by ascending y |
| `Calibration.Interpolate` | src/utils/boardRecognition.js:103-107 | the position carries the given row and index; index 0 is the start anchor and index 11 the end anchor, exactly |
| `Calibration.InterpolateEvenlySpaced` | src/utils/boardRecognition.js:103-107 | neighbouring indices are one eleventh of the anchor-to-anchor offset apart, in x and in y |
| `Calibration.LayoutCorrect` | src/utils/boardRecognition.js:96-100 | `Layout`, the 24 entries the loop pushes, has entry 2i at row 0 index i and entry 2i+1 at row 1 index i; row 0 runs from left[0] to right[0] and row 1 from left[1] to right[1], ending exactly on those anchors |
| `Calibration.SquareBoardExample` | src/utils/boardRecognition.js:91-100 | for the square (0,0)-(100,0)-(100,100)-(0,100), row 0 index 0 is (0,0) and row 0 index 11 is (100,0) |
| `Checkers.BestIndex` | src/utils/boardRecognition.js:264-273 | the scan with a strict comparison yields the first index at minimal distance, or -1 exactly when there are no positions |
| `Checkers.NearestPointCorrect` | src/utils/boardRecognition.js:263-276 | no match exactly when every position is at least 50 pixels away; a match is the first nearest position and is within 50 pixels |
| `Checkers.NearestPointOnPosition` | src/utils/boardRecognition.js:263-276 | a centroid lying on a cached position is matched, at distance 0 |
| `Checkers.TagSound` | src/utils/boardRecognition.js:170-192 | every observation comes from a contour of area above 100 of that mask, carries that mask's colour and the index of the nearest position within 50 pixels; there are no more observations than contours |
| `Checkers.TagCount` | src/utils/boardRecognition.js:170-192 | the number of observations is exactly the number of contours of area above 100 with some position within 50 pixels of their centroid |
| `Checkers.TagComplete` | src/utils/boardRecognition.js:170-192 | every contour of area above 100 within 50 pixels of some position yields an observation at its centroid with the mask's colour |
| `Dice.DotCentresCorrect` | src/utils/boardRecognition.js:228-241 | one pip per contour with area strictly between 20 and 100, each the centroid of such a contour |
| `Dice.Keep` | src/utils/boardRecognition.js:285-295 | filtering never lengthens the pool |
| `Dice.KeepAbsorbedPartition` | src/utils/boardRecognition.js:285-295 | every dot of the scanned pool is either kept or absorbed, exactly once; absorbed dots are those within 50 pixels of the seed and kept dots the others |
| `Dice.ClusterCorrect` | src/utils/boardRecognition.js:278-298 | a cluster starts with its seed, the other members are within 50 pixels of it, and cluster plus new pool is the old pool |
| `Dice.ClusteringPartition` | src/utils/boardRecognition.js:244-252 | the clusters of the grouping loop use every pip exactly once |
| `Dice.ClusteringNear` | src/utils/boardRecognition.js:244-252 | every cluster is non-empty and every member after its seed is within 50 pixels of the seed |
| `Dice.DiceCenterWithin` | src/utils/boardRecognition.js:300-313 | `DiceCenter`, the mean of the pips' coordinates summed left to right, lies within the bounding box of its pips, coordinate by coordinate |
| `Dice.DiceCenterSingle` | src/utils/boardRecognition.js:300-313 | a one-pip die is centred on its pip |
| `Dice.DiceOfCorrect` | src/utils/boardRecognition.js:244-252 | die k has the size of cluster k as value and its mean as position; values are at least 1 and sum to the number of pips |
| `Dice.OneDie` | src/utils/boardRecognition.js:244-252 | pips all within 50 pixels of the first make exactly one die whose value is their number |
| `Dice.TwoDice` | src/utils/boardRecognition.js:243-252 | in any order of the pips: when the pips the first seed leaves behind all lie within 50 pixels of the first of them, there are two dice, the first counting the seed and the pips it absorbs, the second the pips left behind |
| `Dice.TwoGroups` | src/utils/boardRecognition.js:243-252 | two groups one after the other, the second farther than 50 pixels from the first's seed, make two dice with the groups' sizes |
| `FlagStore.NewFlag` | src/stores/videoStore.ts:16-25 | the new flag has the given timestamp, thumbnail, type and id, no dice and is unconfirmed, whatever the type |
| `FlagStore.FindLater` | src/stores/videoStore.ts:27 | the first index whose timestamp is strictly greater, or -1 exactly when there is none |
| `FlagStore.InsertedCorrect` | src/stores/videoStore.ts:27-32 | the new flag sits at the insertion index, the list grows by one, removing the new flag gives the old list, flags before it are not later and the one after it is later |
| `FlagStore.InsertedSorted` | src/stores/videoStore.ts:27-32 | a list sorted by timestamp stays sorted, and the new flag lands after every flag with an equal timestamp |
| `FlagStore.FindById` | src/stores/videoStore.ts:66 | the first index with the id, or -1 exactly when no flag has it |
| `FlagStore.MergeCorrect` | src/stores/videoStore.ts:68 | `Merge`, the object spread of the old analysis overlaid with the patch: provided fields overwrite, omitted fields keep their values; merging a patch twice equals merging it once; the empty patch changes nothing |
| `FlagStore.UpdatedCorrect` | src/stores/videoStore.ts:66-71 | only the first flag with the id changes, and only its analysis, which becomes the merge; an unknown id leaves the list unchanged; sortedness is kept |
| `FlagStore.VideoStore.constructor` | src/stores/videoStore.ts:6-12 | the store starts with no flags |
| `FlagStore.VideoStore.AddFlag` | src/stores/videoStore.ts:15-40 | the flags become the ordered insertion of the new flag; the length grows by one; sortedness is kept |
| `FlagStore.VideoStore.UpdateFlagAnalysis` | src/stores/videoStore.ts:62-71 | the flags become the list with the first matching flag's analysis merged; sortedness is kept |

## Left out

- The vision-library calls (image reading, colour conversion, edge detection, contour extraction, polygon approximation, contour area, moments, colour ranges, thresholding) are foreign code. Their output is an input here: the `Contour` records of a `Frame`, or the contour list given to `CalibrateBoard`.
- Native image-buffer release (`delete()` calls, and approximation buffers that are never released) is memory management with no effect on results, so it is not modelled.
- `initialize` loads the vision library by injecting a script. That is browser I/O, so it is not modelled.
- Floating-point rounding is not modelled. Coordinates are exact reals, and `Math.hypot(...) < 50` becomes a squared distance below 2500. A centroid's division by the zeroth moment is taken as given in the contour record.
- The wall clock is not modelled. The timestamp of `analyzeFrame` and the id of `addFlag` (from `Date.now()`) are parameters.
- `calculateDiceCenter` on an empty list divides by zero. `DiceCenter` requires a non-empty list, which is the only way the source calls it.
- `FindDiceDots` takes the pip pool as a value and returns the new pool, instead of splicing a shared array in place. The caller is the only holder of the pool, so nothing observable differs. The aliasing itself is not modelled.
- `CalibrateBoard` has its contour scan in the helper method `FindBoardContour`, where the source has it inline.
- The corner sort is modelled as a stable insertion sort, matching the stable `Array.prototype.sort`. `SortByKeyCorrect` proves it sorted and a permutation, but stability is not stated as a lemma.
- The analyzer's `dicePositions` field is set once and never read, so it is not a field of the model. The library handle `cv` is not a field either.
- `UpdateFlagAnalysis` models flags as values. The source mutates a flag object that may also be held elsewhere (for example by a pending `analyzeDiceRoll`), and that sharing is not modelled.
- `UpdateFlagAnalysis` models an omitted field as `None`. A key present with the value `undefined` would overwrite the old value when spread, and that case is not modelled.
- `addFlag` also starts `analyzeDiceRoll` for a dice-roll flag and saves to local storage. `analyzeDiceRoll` does image decoding, canvas work and an asynchronous call to a random stub (`src/utils/diceAnalysis.ts`), so neither step is modelled.
- `setVideoFile`, `saveToLocalStorage` and `loadFromLocalStorage` use object URLs, local storage and JSON, so they are not modelled. The other store fields (`currentVideoSrc`, `videoDuration`, `currentTime`, `videoFile`) and the store framework's wiring are left out for the same reason.
- Timestamps and ids are JavaScript numbers. They are modelled as `real` and `int`, without the bounds of double precision.
