# PoseEdit core, modelled in Dafny

PoseEdit is a Blender add-on for editing 2D and 3D human pose data. The
parts of it modelled here are the rules with checkable behaviour.

- **Camera-subset triangulation.** Two searches pick the best subset of
  cameras to triangulate a keypoint from:
  - `triangulate_point` in `core/triangulation.py` removes cameras level by
    level;
  - `triangulation_from_best_cameras` in `pose2sim/triangulate_point.py` is
    the Pose2Sim variant, with a left/right swap sub-search.
- **Camera views.** These cover:
  - parsing frame numbers out of pose-file names;
  - the scale and offset a new view gets from its video size;
  - gathering OpenPose files per person;
  - laying keypoints out as a frames × (x, y, quality) table;
  - the transform and start-frame getters;
  - moving a view's start frame;
  - the scene frame range.
- **Skeletons.** Unique-match joint lookups, body-part label propagation and
  the COCO-133 Hip/Neck fake markers.
- **Person facade.** The next stitch point, the active track, and the plan of
  a stitch.
- **Frame-change handler.** The singleton callback registry.
- **Calibration.** The facade over the stored calibration JSON.
- **Quality colour.** The quality-driven colour driver.
- **Keyframe packing.** The sparse-column packing of `set_fcurves_from_numpy`
  and the slot-name prefix rule of the data-access layer.

Each source file becomes one module:

| module | file | source |
|---|---|---|
| `Common` | `common.dfy` | shared: `Option`/`Result`, extended reals (+inf), numpy division, Python `int()` and list indexing |
| `Combinatorics` | `combinatorics.dfy` | `itertools.combinations(range(n), k)` |
| `Triangulation` | `triangulation.dfy` | `src/pose_editor/core/triangulation.py` |
| `BestCameras` | `best_cameras.dfy` | `src/pose_editor/pose2sim/triangulate_point.py` |
| `FrameNumbers` | `frame_number.dfy` | `_extract_frame_number` in `src/pose_editor/core/camera_view.py` |
| `CameraViews` | `camera_view.dfy` | the rest of `src/pose_editor/core/camera_view.py` |
| `Skeletons` | `skeleton.dfy` | `src/pose_editor/core/skeleton.py` |
| `PersonFacade` | `person_facade.dfy` | `src/pose_editor/core/person_facade.py` |
| `FrameHandling` | `frame_handler.dfy` | `src/pose_editor/core/frame_handler.py` |
| `CalibrationData` | `calibration.dfy` | `src/pose_editor/core/calibration.py` |
| `Drivers` | `drivers.dfy` | `src/pose_editor/blender/drivers.py` |
| `Dal` | `dal.dfy` | `src/pose_editor/blender/dal.py` |

The model takes the source's own form:

- **Pure code becomes functions and lemmas.** This covers the lookups, the
  filename parser, the colour mapping and the distance rule.
- **Loops that update state become methods.** Each method has loop
  invariants and is proved equal to a specification function, and the
  lemmas are stated about that function. This covers the level loops of
  both searches, the DLT system builder, the table fill of
  `create_camera_view`, the count-then-fill pass of `set_fcurves_from_numpy`
  and the scene-range accumulator.
- **Objects whose fields change become classes.** These are `FrameHandler`,
  `Skeleton` (the body-part map), `CameraView` (its start frame) and the
  Blender `Action` that receives the f-curves.

Python's `None` and numpy's NaN become `Option` values. Exceptions become
`Result` errors. The numeric kernels are uninterpreted function parameters:

- the SVD solve of the linear system;
- Rodrigues' formula;
- the square root.

## Model

| member | source | states |
|---|---|---|
| Common.Div | src/pose_editor/core/triangulation.py:44-45 | numpy float division: `a/b` for b ≠ 0; `x/0` is +inf for x > 0 and -inf for x < 0, and `0/0` is NaN |
| Common.Trunc | src/pose_editor/core/person_facade.py:45 | Python `int()` on a float truncates toward zero: the result is within one of the argument, on the side toward zero |
| Common.PyIndex | src/pose_editor/core/camera_view.py:315 | Python list indexing: defined exactly for -len <= i < len; a negative index counts from the end |
| Combinatorics.CombinationsSpec | src/pose_editor/core/triangulation.py:122 | `combinations(range(n), k)` yields exactly the ascending k-tuples of 0..n-1, in strictly increasing lexicographic order, C(n, k) of them |
| Combinatorics.CombinationsSound | src/pose_editor/core/triangulation.py:122 | every tuple produced is an ascending k-combination of lo..n-1 |
| Combinatorics.CombinationsComplete | src/pose_editor/core/triangulation.py:122 | every ascending k-combination of lo..n-1 is produced |
| Combinatorics.CombinationsOrdered | src/pose_editor/core/triangulation.py:122 | the tuples come out in strictly ascending lexicographic order, so none repeats |
| Combinatorics.CombinationsCount | src/pose_editor/core/triangulation.py:122 | there are C(n - lo, k) tuples |
| Triangulation.ProjectionMatrix | src/pose_editor/core/triangulation.py:85-90 | the projection matrix is 3 × 4 |
| Triangulation.ProjectionIsPinhole | src/pose_editor/core/triangulation.py:85-90 | P (X, 1) = K (R X + t), with R the Rodrigues rotation of the camera: the pinhole model |
| Triangulation.DltSystem | src/pose_editor/core/triangulation.py:26-30 | the linear system has two rows per camera |
| Triangulation.BuildDltSystem | src/pose_editor/core/triangulation.py:26-30 | the loop that stacks `(P[0] - x P[2]) w` and `(P[1] - y P[2]) w` per camera builds exactly the system DltSystem describes |
| Triangulation.Triangulated | src/pose_editor/core/triangulation.py:32-37 | with fewer than 4 rows (fewer than 2 cameras) the point is NaN; otherwise it is the SVD solution; so a defined point needs at least 2 cameras |
| Triangulation.WeightedTriangulation | src/pose_editor/core/triangulation.py:25-38 | the method equals Triangulated |
| Triangulation.Reproject | src/pose_editor/core/triangulation.py:44-45 | each reprojected coordinate is `P[i] Q / P[2] Q` when the denominator is non-zero |
| Triangulation.Reprojection | src/pose_editor/core/triangulation.py:40-46 | the loop returns one reprojection per camera, in camera order |
| Triangulation.NanSumSquares | src/pose_editor/core/triangulation.py:57 | `nansum` of the squares is infinite exactly when some entry is infinite; otherwise it is finite and non-negative |
| Triangulation.Diff | src/pose_editor/core/triangulation.py:51 | `q2 - q1` componentwise |
| Triangulation.EuclideanDistance | src/pose_editor/core/triangulation.py:48-60 | the distance is +inf exactly when the difference is entirely NaN; otherwise it is the square root of a non-negative sum |
| Triangulation.NaNReprojectionIsInfinite | src/pose_editor/core/triangulation.py:52-54 | an all-NaN reprojection gives distance +inf, never 0 |
| Triangulation.NaNCoordinateIsSkipped | src/pose_editor/core/triangulation.py:57 | a single NaN coordinate is skipped by `nansum`, so the distance is the other coordinate's |
| Triangulation.Mean | src/pose_editor/core/triangulation.py:142 | `np.mean` of the errors is +inf exactly when some error is +inf |
| Triangulation.MeanBetween | src/pose_editor/core/triangulation.py:142 | a finite mean lies between the smallest and the largest error |
| Triangulation.UsableCamerasSpec | src/pose_editor/core/triangulation.py:76-97 | a camera takes part exactly when it has a calibration entry and quality >= min_quality; its projection matrix comes from its calibration |
| Triangulation.UsableCameras | src/pose_editor/core/triangulation.py:76-97 | never more cameras than observations, and each one kept is calibrated and reaches min_quality (the converse is UsableCamerasSpec) |
| Triangulation.FilterCameras | src/pose_editor/core/triangulation.py:76-109 | the filter loop yields exactly the usable cameras |
| Combinatorics.Gather | src/pose_editor/core/triangulation.py:127-130 | indexing by a list of indices picks those entries in that order (the cameras of a combination here, the projections and coordinates at the kept positions in triangulate_point.py:121-128) |
| Triangulation.Evaluate | src/pose_editor/core/triangulation.py:123-134 | a combination that is empty or triangulates to NaN is skipped; a kept one has its own indices and at least 2 cameras |
| Triangulation.EvaluateError | src/pose_editor/core/triangulation.py:136-142 | a kept combination's error is the mean over its cameras of the distance to the reprojection of its point |
| Triangulation.MeanError | src/pose_editor/core/triangulation.py:136-142 | the per-camera error loop computes that mean |
| Triangulation.LevelConfigsSound | src/pose_editor/core/triangulation.py:122-146 | each candidate of a level is the kept evaluation of one of the level's combinations |
| Triangulation.LevelContains | src/pose_editor/core/triangulation.py:122-146 | each kept evaluation of one of a level's combinations is among its candidates |
| Triangulation.EvaluateLevel | src/pose_editor/core/triangulation.py:118-146 | the inner loop collects exactly the level's candidates, in enumeration order |
| Triangulation.FirstMinIndex | src/pose_editor/core/triangulation.py:152-155 | `argmin` yields the first position of the smallest error |
| Triangulation.LevelMember | src/pose_editor/core/triangulation.py:122 | each candidate with k cameras off keeps an (n-k)-combination of the cameras |
| Triangulation.Levels | src/pose_editor/core/triangulation.py:116-117 | the levels visited are k = 0 .. n - min_cameras, and there are none when n < min_cameras |
| Triangulation.Improve | src/pose_editor/core/triangulation.py:152-157 | the best is replaced only by a strictly smaller level minimum; after the level the best is no worse than any of its candidates |
| Triangulation.SearchKeepsFirstMinimum | src/pose_editor/core/triangulation.py:152-157 | nothing the search evaluates beats the result, and everything evaluated before the winner is strictly worse, so ties go to the earliest combination at the smallest k |
| Triangulation.SearchExhaustiveWithoutEarlyExit | src/pose_editor/core/triangulation.py:159-160 | without the early exit every remaining level is searched in full |
| Triangulation.EnumeratedFromLevels | src/pose_editor/core/triangulation.py:116-146 | everything evaluated belongs to one of the visited levels |
| Triangulation.EvaluatedMember | src/pose_editor/core/triangulation.py:117-134 | everything evaluated keeps a combination of at least max(2, min_cameras) cameras |
| Triangulation.Names | src/pose_editor/core/triangulation.py:168 | the contributing cameras are the names at the winning indices, in index order |
| Triangulation.FinalStateWellFormed | src/pose_editor/core/triangulation.py:112-162 | a kept best has indices within the camera list |
| Triangulation.SearchWinner | src/pose_editor/core/triangulation.py:152-157 | a kept best is the first strict minimum of everything evaluated |
| Triangulation.FinalStateWinner | src/pose_editor/core/triangulation.py:112-162 | the final best is the first strict minimum of everything evaluated, and a kept candidate of at least max(2, min_cameras) cameras |
| Triangulation.TriangulatePointWinner | src/pose_editor/core/triangulation.py:165-174 | a result is the first strict minimum of all candidates evaluated; it uses at least max(2, min_cameras) cameras in ascending order; its error is their mean reprojection error and is at most the threshold |
| Triangulation.TriangulatePointOutput | src/pose_editor/core/triangulation.py:168-174 | the output is the best point, the names at its indices and the best error |
| Triangulation.TriangulatePointFailure | src/pose_editor/core/triangulation.py:100-102 | with fewer usable cameras than min_cameras, no kept candidate, or a best error above the threshold, the result is None |
| Triangulation.SearchBeatsEveryLevel | src/pose_editor/core/triangulation.py:159-160 | without the early exit the best is no worse than any candidate of any level |
| Triangulation.KeptIsCandidate | src/pose_editor/core/triangulation.py:122 | a kept subset of k cameras is a candidate of level n - k |
| Triangulation.FinalStateGlobalOptimum | src/pose_editor/core/triangulation.py:117-162 | without the early exit the final best is no worse than every kept subset of at least min_cameras cameras |
| Triangulation.FinalStateBeatsLevel | src/pose_editor/core/triangulation.py:117-162 | without the early exit the final best is no worse than any candidate of a visited level |
| Triangulation.TriangulatePointGlobalOptimum | src/pose_editor/core/triangulation.py:159-166 | when the best error equals the threshold (no early exit, still accepted) the result is a global optimum over subsets of at least min_cameras cameras |
| Triangulation.RunSearch | src/pose_editor/core/triangulation.py:112-162 | the level loop with its mutable best ends in the state the search specification gives |
| Triangulation.TriangulatePoint | src/pose_editor/core/triangulation.py:63-174 | the whole method equals the specification: filter, search, then output or None |
| Triangulation.TriangulatePointSpec | src/pose_editor/core/triangulation.py:63-174 | a result never has an error above the threshold and names only calibrated cameras (its winner is stated by TriangulatePointWinner, its failure cases by TriangulatePointFailure) |
| BestCameras.Blank | src/pose_editor/pose2sim/triangulate_point.py:67-73 | a candidate's likelihood row is the row with NaN written at the combination's cameras |
| BestCameras.KeptPositions | src/pose_editor/pose2sim/triangulate_point.py:139-182 | the positions the filtering comprehensions keep, plus the excluded ones, make up the row |
| BestCameras.KeptPositionsSpec | src/pose_editor/pose2sim/triangulate_point.py:139-182 | a position is kept exactly when its likelihood is neither NaN nor zero; the kept positions ascend |
| BestCameras.ExclusionBookkeeping | src/pose_editor/pose2sim/triangulate_point.py:76-79 | the reported indices are the NaN positions only, while the count also counts zero likelihoods; the two agree exactly when no likelihood is 0 |
| BestCameras.Weights | src/pose_editor/pose2sim/triangulate_point.py:179-182 | one weight per kept position (their values are stated by WeightsAt) |
| BestCameras.WeightsAt | src/pose_editor/pose2sim/triangulate_point.py:179-182 | the weight of kept position i is the likelihood of camera idx[i] |
| BestCameras.Swap | src/pose_editor/pose2sim/triangulate_point.py:272-277 | a swapped candidate has the swapped coordinate at every position in the combination and its own coordinate everywhere else |
| BestCameras.NaNPointIsInfinite | src/pose_editor/pose2sim/triangulate_point.py:214-233 | a NaN triangulation reprojects to NaN and so has infinite error |
| BestCameras.MeanError | src/pose_editor/pose2sim/triangulate_point.py:233 | the mean of no distance is NaN |
| BestCameras.CandidateNaNPoint | src/pose_editor/pose2sim/triangulate_point.py:186-233 | a NaN point never looks better than +inf |
| BestCameras.MaxOf | src/pose_editor/pose2sim/triangulate_point.py:80 | `max` is an upper bound that occurs in the list |
| BestCameras.FirstMin | src/pose_editor/pose2sim/triangulate_point.py:244-246 | the first position of the smallest error, NaN read as +inf; `nanargmin` skips NaN instead. The two differ only at a level whose smallest error is +inf with a NaN before the first +inf, which needs a row keeping no camera, so min_cameras = 0 (see Left out) |
| BestCameras.CombinationsNonEmpty | src/pose_editor/pose2sim/triangulate_point.py:52 | a level has at least one combination when k <= n |
| BestCameras.GridArgMin | src/pose_editor/pose2sim/triangulate_point.py:371-372 | argmin then unravel_index yields the first smallest entry in row-major order |
| BestCameras.SwapGrid | src/pose_editor/pose2sim/triangulate_point.py:344-367 | the swap round's error array has one row per level row and one column per swap combination |
| BestCameras.SwapRow | src/pose_editor/pose2sim/triangulate_point.py:346-365 | one row of that array has one candidate per swap combination |
| BestCameras.Errors | src/pose_editor/pose2sim/triangulate_point.py:244 | the errors of a list of candidates, with NaN read as +inf |
| BestCameras.GridErrors | src/pose_editor/pose2sim/triangulate_point.py:367 | the error array is made of the per-row errors |
| BestCameras.SwapRound | src/pose_editor/pose2sim/triangulate_point.py:261-378 | a round yields a valid row index and one more swapped camera |
| BestCameras.SwapSearch | src/pose_editor/pose2sim/triangulate_point.py:256-378 | the swap loop either does nothing or ends at a valid row |
| BestCameras.Rows | src/pose_editor/pose2sim/triangulate_point.py:61-73 | the level's rows are the likelihood row blanked per combination, in order |
| BestCameras.ExcludedCounts | src/pose_editor/pose2sim/triangulate_point.py:77-79 | each row's exclusion count |
| BestCameras.NaNPositionsOf | src/pose_editor/pose2sim/triangulate_point.py:76 | each row's NaN positions |
| BestCameras.Candidates | src/pose_editor/pose2sim/triangulate_point.py:186-233 | the level has one candidate per row |
| BestCameras.AfterSwap | src/pose_editor/pose2sim/triangulate_point.py:252-383 | the swap stage leaves the state alone or points at a valid row |
| BestCameras.LevelBest | src/pose_editor/pose2sim/triangulate_point.py:244-249 | after a level, best_cams is set and indexes the level's rows |
| BestCameras.LevelRows | src/pose_editor/pose2sim/triangulate_point.py:52-73 | a level has at least one row, each one entry per camera |
| BestCameras.Step | src/pose_editor/pose2sim/triangulate_point.py:49-387 | a pass that continues raises nb_cams_off by exactly 1 and leaves best_cams set |
| BestCameras.StepAt | src/pose_editor/pose2sim/triangulate_point.py:80-387 | a pass that continues after the break test raises nb_cams_off by exactly 1 |
| BestCameras.LevelPass | src/pose_editor/pose2sim/triangulate_point.py:139-387 | a pass that continues after the break test raises nb_cams_off by exactly 1 |
| BestCameras.LevelOutcome | src/pose_editor/pose2sim/triangulate_point.py:244-387 | an evaluated level ends with nb_cams_off raised by 1 |
| BestCameras.Range | src/pose_editor/pose2sim/triangulate_point.py:399 | `list(range(n))` |
| BestCameras.LevelBlanksOneCombination | src/pose_editor/pose2sim/triangulate_point.py:52-73 | level k has C(n, k) rows in lexicographic order, and each blanks exactly its own k-combination |
| BestCameras.BreakRule | src/pose_editor/pose2sim/triangulate_point.py:76-84 | the loop breaks before triangulating exactly when some row excludes more than n - min_cameras cameras; otherwise every row keeps at least min_cameras |
| BestCameras.AllNaNNeedsEmptyRows | src/pose_editor/pose2sim/triangulate_point.py:244-246 | `nanargmin` raises only when every row keeps no camera, so never with a camera floor of at least 1 |
| BestCameras.LevelFirstMinimum | src/pose_editor/pose2sim/triangulate_point.py:244-249 | without the swap stage a level's result is its own first minimum and overwrites what earlier levels found: it is not a global best |
| BestCameras.SwapRoundNaNPoint | src/pose_editor/pose2sim/triangulate_point.py:371-376 | the swapped candidate a round picks has a NaN point only with +inf |
| BestCameras.SwapSearchSpec | src/pose_editor/pose2sim/triangulate_point.py:254-258 | the swap loop starts at 1 swapped camera; it stops at or below the threshold or once half the remaining cameras are swapped; every round it runs swaps fewer than half |
| BestCameras.SwapOnlyImproves | src/pose_editor/pose2sim/triangulate_point.py:380-383 | the swap stage runs only when enabled and the error is above the threshold, never makes the error worse, and replaces the result only when strictly better |
| BestCameras.LevelOutcomeConsistent | src/pose_editor/pose2sim/triangulate_point.py:244-387 | after a level, best_cams indexes id_cams_off_tot and a NaN point only comes with +inf |
| BestCameras.SearchSpec | src/pose_editor/pose2sim/triangulate_point.py:49 | the loop ends at a level whose guard fails or which breaks; levels are visited one by one from the current one |
| BestCameras.FloorAvoidsAllNaN | src/pose_editor/pose2sim/triangulate_point.py:244-246 | with min_cameras >= 1 numpy never raises |
| BestCameras.FinalNaNPolicy | src/pose_editor/pose2sim/triangulate_point.py:404-406 | an error above the threshold is reported as NaN with the NaN point; a reported error is finite and at most the threshold |
| BestCameras.NothingEvaluated | src/pose_editor/pose2sim/triangulate_point.py:392-400 | when no level was evaluated, all cameras are reported excluded and nb_cams_excluded = n_cams |
| BestCameras.TooFewCameras | src/pose_editor/pose2sim/triangulate_point.py:49 | with fewer cameras than the floor nothing is triangulated and every camera is excluded |
| BestCameras.ReportedExclusions | src/pose_editor/pose2sim/triangulate_point.py:392-396 | after an evaluated level, the reported indices are the NaN positions of the winning row of the last level evaluated |
| BestCameras.AliasedSwap | src/pose_editor/pose2sim/triangulate_point.py:263-277 | as written, the coordinates each candidate of a row receives: every combination's writes land in one shared array |
| BestCameras.AliasedSwapSpec | src/pose_editor/pose2sim/triangulate_point.py:263-277 | as written, a position ends up swapped exactly when some combination of the round names it |
| BestCameras.AliasedRoundSwapsAll | src/pose_editor/pose2sim/triangulate_point.py:263-277 | as written, every candidate of a round has all the remaining cameras swapped, whichever combination it stands for |
| BestCameras.AliasingCounterexample | src/pose_editor/pose2sim/triangulate_point.py:263-277 | with three cameras the swap loop runs (1 < 3/2) and, as written, every candidate gets (4, 5, 6), while the combinations stand for (4, 2, 3), (1, 5, 3) and (1, 2, 6); with two cameras the loop never runs |
| BestCameras.SwapCandidatesDiffer | src/pose_editor/pose2sim/triangulate_point.py:267-277 | as intended, distinct combinations give distinct candidates when the swapped keypoint differs at every camera |
| BestCameras.BlankRows | src/pose_editor/pose2sim/triangulate_point.py:61-73 | the copy-and-write-NaN loop builds exactly the level's rows |
| BestCameras.LevelCandidates | src/pose_editor/pose2sim/triangulate_point.py:186-233 | the triangulate-and-error loop builds exactly the level's candidates |
| BestCameras.SwapLine | src/pose_editor/pose2sim/triangulate_point.py:347-365 | the inner swap loop builds one row of the error array |
| BestCameras.SwapTable | src/pose_editor/pose2sim/triangulate_point.py:345-367 | the outer swap loop builds the error array |
| BestCameras.SwapRoundLoop | src/pose_editor/pose2sim/triangulate_point.py:261-378 | one round of the swap loop equals SwapRound |
| BestCameras.SwapSearchLoop | src/pose_editor/pose2sim/triangulate_point.py:254-378 | the swap while loop equals SwapSearch from one swapped camera |
| BestCameras.SwapStage | src/pose_editor/pose2sim/triangulate_point.py:252-383 | the swap stage equals AfterSwap |
| BestCameras.LoopBody | src/pose_editor/pose2sim/triangulate_point.py:50-387 | one pass of the cameras-off loop equals Step |
| BestCameras.BreakOrEvaluate | src/pose_editor/pose2sim/triangulate_point.py:83-387 | the break test, then the rest of the pass, equals StepAt |
| BestCameras.LevelLoop | src/pose_editor/pose2sim/triangulate_point.py:139-387 | the pass after the break test equals LevelPass |
| BestCameras.TriangulationFromBestCameras | src/pose_editor/pose2sim/triangulate_point.py:2-408 | the whole method equals its specification: the loop, the bookkeeping, and the NaN policy |
| BestCameras.BestCamerasSpec | src/pose_editor/pose2sim/triangulate_point.py:2-408 | a reported error is at most the threshold, and a NaN error comes with the NaN point (the full policy is FinalNaNPolicy, the exclusions ReportedExclusions) |
| FrameNumbers.RunEnd | src/pose_editor/core/camera_view.py:172 | the end of a digit run: digits up to it, a non-digit or the end of the string at it |
| FrameNumbers.ScanSpec | src/pose_editor/core/camera_view.py:172-180 | the scan from any point keeping its invariant finds the leftmost run with an extension, else the last run, else an error |
| FrameNumbers.ExtractFrameNumberSpec | src/pose_editor/core/camera_view.py:156-180 | the frame number is the value of the leftmost whole digit run followed by `.` and a word character; otherwise of the last digit run; a ValueError exactly when there is no digit |
| FrameNumbers.ExtractFrameNumber | src/pose_editor/core/camera_view.py:156-180 | a ValueError exactly when the name has no digit (which run is read is stated by ExtractFrameNumberSpec) |
| FrameNumbers.ScanFindsDigit | src/pose_editor/core/camera_view.py:176-180 | a successful scan has seen a digit |
| CameraViews.ViewTransform | src/pose_editor/core/camera_view.py:234-247 | the new view's scale and offsets; a ZeroDivisionError exactly when the longer side is 0 |
| CameraViews.ViewTransformSpec | src/pose_editor/core/camera_view.py:234-247 | for a real video the longer side spans exactly 10 and the shorter at most 10; y is flipped; z equals x; the image is centred on the origin |
| CameraViews.OrReal | src/pose_editor/core/camera_view.py:113-115 | Python's `value or default`: unset or zero reads as the default |
| CameraViews.StartFrameAsWritten | src/pose_editor/core/camera_view.py:126-130 | as written, `value or 1`: unset reads 1, a non-zero value reads as itself (and 0 reads as 1) |
| CameraViews.StartFrameOf | src/pose_editor/core/camera_view.py:126-130 | corrected: 1 only when nothing is stored, otherwise the stored value |
| CameraViews.StartFrameZeroDrift | src/pose_editor/core/camera_view.py:126-150 | as written, moving a view from start 1 to 0 and back leaves its animation one frame early and the stored start at 0 |
| CameraViews.SetStartAsWritten | src/pose_editor/core/camera_view.py:126-150 | as written, for a non-zero new start the start reads back as set and the total shift minus the start read back is kept; StartFrameZeroDrift shows it failing for 0 |
| CameraViews.CameraView.constructor | src/pose_editor/core/camera_view.py:88-91 | a view holds the given properties and no shift yet |
| CameraViews.CameraView.TransformScale | src/pose_editor/core/camera_view.py:109-116 | (1, 1, 1) for an unbound view; otherwise each stored scale, with an unset or zero one reading as 1, so no component is 0 |
| CameraViews.CameraView.TransformLocation | src/pose_editor/core/camera_view.py:118-124 | (0, 0, 0) for an unbound view; otherwise the stored offsets, 0 when unset; z is always 0 |
| CameraViews.CameraView.StartFrame | src/pose_editor/core/camera_view.py:126-130 | 1 for an unbound view; otherwise the corrected StartFrameOf the stored start |
| CameraViews.CameraView.SetStartFrame | src/pose_editor/core/camera_view.py:132-150 | a no-op for an unbound view or a zero delta; otherwise the animation moves by the delta and the new start is stored, so total shift minus start frame is unchanged and the start reads back |
| CameraViews.NewCameraView | src/pose_editor/core/camera_view.py:214-253 | a new view is bound, starts at frame 1 and stores the video's transform; an error exactly when the transform divides by 0 |
| CameraViews.NewCameraViewReadsBack | src/pose_editor/core/camera_view.py:214-253 | a new view of a real video reads back its scale (y flipped), its offsets and start frame 1 |
| CameraViews.SumAppend | src/pose_editor/core/camera_view.py:146-147 | the shifts accumulate |
| CameraViews.UpdateSceneFrameRange | src/pose_editor/core/camera_view.py:66-84 | scene start = min(1, all view starts) and scene end = max(1, every view start + its longest duration), each attained |
| CameraViews.Widen | src/pose_editor/core/camera_view.py:269-270 | the min/max frame range grows to include the new frame and keeps the old range |
| CameraViews.AddPeopleFrames | src/pose_editor/core/camera_view.py:276-283 | recording a file's people keeps every recorded frame within the widened range |
| CameraViews.AddPeople | src/pose_editor/core/camera_view.py:276-283 | recording keeps every person already recorded and adds only the file's people (the stored keypoints are stated by AddPeopleStores, the frames by AddPeopleFrames) |
| CameraViews.AddPeopleStores | src/pose_editor/core/camera_view.py:276-283 | each of the file's people holds its keypoints at the file's frame (an empty list for a missing one) and keeps its other frames; everyone else keeps their entry |
| CameraViews.RecordPeople | src/pose_editor/core/camera_view.py:276-283 | the people loop of one file computes AddPeople |
| CameraViews.GatherFile | src/pose_editor/core/camera_view.py:264-283 | a numbered file's frame lies within the new range, the range only widens, and no person is dropped |
| CameraViews.Gather | src/pose_editor/core/camera_view.py:261-283 | the range stays unset exactly when no file has a frame number, and then nobody is recorded |
| CameraViews.GatherInRange | src/pose_editor/core/camera_view.py:264-283 | after the file loop every recorded frame lies within [min_frame, max_frame] |
| CameraViews.SkipsUnnumbered | src/pose_editor/core/camera_view.py:265-268 | a file without a frame number changes nothing |
| CameraViews.GatherPoseFiles | src/pose_editor/core/camera_view.py:258-283 | the nested file and people loops compute Gather |
| CameraViews.IdList | src/pose_editor/core/camera_view.py:296-298 | the ids of the joints that have one, at most one per joint |
| CameraViews.Quality | src/pose_editor/core/camera_view.py:319-321 | the quality is the likelihood when positive, and the -1 sentinel exactly when the likelihood is not positive |
| CameraViews.CellSpec | src/pose_editor/core/camera_view.py:304-331 | a joint with a non-negative id reads x, y and Quality(likelihood) from keypoints 3·id, 3·id+1, 3·id+2 exactly when 3·id+2 < len; a negative id down to -len/3 reads them through Python's negative indexing; quality is always positive, -1 or NaN; an undetected frame has NaN x/y and quality -1 |
| CameraViews.Cell | src/pose_editor/core/camera_view.py:304-331 | an undetected frame has only its quality cell set; a detected one has a value exactly when the joint's triple lies inside the keypoint list, and x and y come from that list |
| CameraViews.JointCells | src/pose_editor/core/camera_view.py:313-321 | three cells per joint |
| CameraViews.RowCells | src/pose_editor/core/camera_view.py:309-322 | three cells per id |
| CameraViews.RowCellsSpec | src/pose_editor/core/camera_view.py:309-331 | cell c of a row is part c % 3 of the joint with the (c / 3)-th id: joint j occupies columns 3j, 3j+1, 3j+2 |
| CameraViews.FillRow | src/pose_editor/core/camera_view.py:307-331 | the joint walk with its col_idx counter writes exactly the row's cells and no other row |
| CameraViews.WriteJoint | src/pose_editor/core/camera_view.py:317-321 | the three writes of one joint set its cells and nothing else |
| CameraViews.AppendJoint | src/pose_editor/core/camera_view.py:313-322 | one joint's three cells follow the cells written so far, and col_idx moves on by 3 |
| CameraViews.FillTable | src/pose_editor/core/camera_view.py:295-331 | a fresh NaN table of num_frames rows and 3 columns per joint with an id, whose every cell is the Cell of its frame, joint and part |
| CameraViews.LayOutPoseData | src/pose_editor/core/camera_view.py:258-288 | no table when no person was found; otherwise min_frame, max_frame - min_frame + 1 rows, and every recorded frame has a row |
| Skeletons.Preorder | src/pose_editor/core/skeleton.py:51 | the pre-order starts at the root |
| Skeletons.Filter | src/pose_editor/core/skeleton.py:51 | `findall` finds only matching nodes of the tree |
| Skeletons.FilterSingle | src/pose_editor/core/skeleton.py:51-52 | the search finds exactly one node precisely when exactly one position matches, and then it finds that node |
| Skeletons.FilterMember | src/pose_editor/core/skeleton.py:51 | every matching node is found |
| Skeletons.JointName | src/pose_editor/core/skeleton.py:48-54 | a None id gives None |
| Skeletons.JointNameSpec | src/pose_editor/core/skeleton.py:48-54 | a name comes back exactly when one node of the tree has the id, and it is that node's name |
| Skeletons.JointId | src/pose_editor/core/skeleton.py:66-72 | a None name gives None |
| Skeletons.JointIdSpec | src/pose_editor/core/skeleton.py:66-72 | an id comes back exactly when one node has that exact name and it has an id |
| Skeletons.FindDef | src/pose_editor/core/skeleton.py:116 | the first part definition starting at the joint, or None when none does |
| Skeletons.Propagate | src/pose_editor/core/skeleton.py:112-125 | labelling a subtree writes exactly its joints and keeps every other entry |
| Skeletons.PropagateLocal | src/pose_editor/core/skeleton.py:112-125 | a subtree's labels do not depend on the map they are written into |
| Skeletons.PropagateAllPicks | src/pose_editor/core/skeleton.py:124-125 | with distinct names, each child's subtree gets the labels it would get alone |
| Skeletons.PropagateLabels | src/pose_editor/core/skeleton.py:116-125 | with distinct names, the root gets its own label (a part's name only when include_parent), and along every edge the child gets its own label given what the parent hands down: the parent's part when it starts one |
| Skeletons.UniformBelow | src/pose_editor/core/skeleton.py:121-125 | below a joint, a subtree where no part starts carries the handed-down label on every joint |
| Skeletons.Skeleton.constructor | src/pose_editor/core/skeleton.py:21-31 | a new skeleton labels its whole tree from "Unknown" |
| Skeletons.Skeleton.UpdateBodyPartMap | src/pose_editor/core/skeleton.py:112-125 | the recursive method updates the map exactly as Propagate says |
| Skeletons.Skeleton.BodyPart | src/pose_editor/core/skeleton.py:74-84 | the joint's label, "Unknown" for a joint not in the map |
| Skeletons.Skeleton.BodyPartNames | src/pose_editor/core/skeleton.py:86-93 | the part names in definition order |
| Skeletons.Skeleton.FakeMarkerPos | src/pose_editor/core/skeleton.py:98-109 | the base skeleton gives None |
| Skeletons.SkeletonLabels | src/pose_editor/core/skeleton.py:21-31 | a skeleton labels every joint of its tree, the root "Unknown" unless it starts a part that includes it, every edge by the rule, and unknown joints "Unknown" |
| Skeletons.Midpoint | src/pose_editor/core/skeleton.py:167 | the componentwise midpoint: each component is equally far from both inputs |
| Skeletons.PairMidpoint | src/pose_editor/core/skeleton.py:163-168 | the midpoint exactly when both markers are present, non-empty and of equal length |
| Skeletons.Coco133FakeMarker | src/pose_editor/core/skeleton.py:162-177 | a marker other than Hip or Neck gives None |
| Skeletons.FakeMarkerSpec | src/pose_editor/core/skeleton.py:162-177 | Hip is the midpoint of the two hips, Neck that of the two shoulders, and neither depends on which side is which |
| Skeletons.GetSkeleton | src/pose_editor/core/skeleton.py:179-198 | "COCO_133" gives the COCO-133 skeleton, whose `body_parts` are the ten parts in definition order (Torso, Left leg, …, Right foot); another name gives its definition without parts, so `body_parts` is empty, or the ValueError when there is none; every skeleton returned is labelled from an empty map |
| PersonFacade.FirstAfter | src/pose_editor/core/person_facade.py:59-61 | the first keyframe after the start frame, with all earlier ones at or before it |
| PersonFacade.FindNextStitchFrame | src/pose_editor/core/person_facade.py:47-64 | the scan with early return equals StitchEnd |
| PersonFacade.StitchEndSpec | src/pose_editor/core/person_facade.py:47-64 | the scene end without a series, an f-curve or a later keyframe; otherwise one frame before the first later keyframe, at or after the start |
| PersonFacade.StitchEnd | src/pose_editor/core/person_facade.py:47-64 | the end is the scene end or one frame before some keyframe after the start |
| PersonFacade.ActiveTrackIndex | src/pose_editor/core/person_facade.py:33-45 | -1 without a data series; the static value or -1 without an f-curve; otherwise the evaluated value truncated toward zero |
| PersonFacade.ColumnsLayout | src/pose_editor/core/person_facade.py:91-98 | three columns per joint with an id: (name, location, 0), (name, location, 1), (name, quality, -1) |
| PersonFacade.ColumnsToCopy | src/pose_editor/core/person_facade.py:90-98 | the append loop over the descendants builds exactly those columns |
| PersonFacade.AssignSourceTrackForSegment | src/pose_editor/core/person_facade.py:75-98 | aborts exactly when the segment end lies before the start; otherwise plans the segment and the columns |
| FrameHandling.RemoveFirst | src/pose_editor/core/frame_handler.py:57 | `list.remove` takes out one element |
| FrameHandling.IndexOf | src/pose_editor/core/frame_handler.py:57 | the first occurrence |
| FrameHandling.RemoveFirstSpec | src/pose_editor/core/frame_handler.py:57 | `list.remove` cuts at the first occurrence and keeps the rest in order |
| FrameHandling.RemoveFirstNoDuplicates | src/pose_editor/core/frame_handler.py:57 | without repeats, it takes out exactly that element and no repeats appear |
| FrameHandling.AddedSpec | src/pose_editor/core/frame_handler.py:49-52 | add_callback keeps the list free of repeats, adds the callback, is idempotent, and appends at the end when the callback is new |
| FrameHandling.RemovedSpec | src/pose_editor/core/frame_handler.py:54-57 | remove_callback takes out only that callback, keeps the others in order, and is a no-op when it is absent |
| FrameHandling.FrameHandler.constructor | src/pose_editor/core/frame_handler.py:21-23 | the first instance has no callbacks and is unregistered |
| FrameHandling.FrameHandler.RegisterHandler | src/pose_editor/core/frame_handler.py:26-34 | appends the dispatcher only when unregistered, then sets the flag |
| FrameHandling.FrameHandler.UnregisterHandler | src/pose_editor/core/frame_handler.py:36-47 | removes the dispatcher and clears the flag; when the dispatcher is missing the ValueError is swallowed and the flag stays set |
| FrameHandling.FrameHandler.AddCallback | src/pose_editor/core/frame_handler.py:49-52 | the list becomes Added(old list, callback) and stays free of repeats |
| FrameHandling.FrameHandler.RemoveCallback | src/pose_editor/core/frame_handler.py:54-57 | the list becomes Removed(old list, callback) and stays free of repeats |
| FrameHandling.Failing | src/pose_editor/core/frame_handler.py:66-70 | the callbacks that raise, in list order |
| FrameHandling.FrameHandlerClass.constructor | src/pose_editor/core/frame_handler.py:17 | there is no instance yet |
| FrameHandling.FrameHandlerClass.New | src/pose_editor/core/frame_handler.py:19-24 | the first call creates and initialises the instance; later calls return the same instance untouched |
| FrameHandling.FrameHandlerClass.OnFrameChange | src/pose_editor/core/frame_handler.py:59-70 | nothing without an instance; otherwise every callback is called in list order, and one that raises does not stop the rest |
| FrameHandling.FailingAppend | src/pose_editor/core/frame_handler.py:66-70 | a later callback's failure is reported after the earlier ones |
| FrameHandling.SingletonTwice | src/pose_editor/core/frame_handler.py:19-24 | constructing twice gives the same instance, initialised once |
| CalibrationData.Keys | src/pose_editor/core/calibration.py:62 | the dictionary's keys in insertion order |
| CalibrationData.Get | src/pose_editor/core/calibration.py:66 | `dict.get`: None for an absent key, else the value stored under it |
| CalibrationData.CameraKeysSpec | src/pose_editor/core/calibration.py:59-62 | the camera names are exactly the keys other than "metadata", in key order |
| CalibrationData.Calibration.constructor | src/pose_editor/core/calibration.py:37-57 | the data is what _load_data loads |
| CalibrationData.Calibration.CameraNames | src/pose_editor/core/calibration.py:59-62 | succeeds exactly when the loaded data is an object |
| CalibrationData.Calibration.CameraData | src/pose_editor/core/calibration.py:64-66 | succeeds exactly when the loaded data is an object |
| CalibrationData.LoadFallbacks | src/pose_editor/core/calibration.py:42-57 | no calibration object, an empty property or text that does not parse all leave `{}` |
| CalibrationData.CameraNamesSpec | src/pose_editor/core/calibration.py:59-62 | a loaded calibration lists as cameras exactly its keys other than "metadata", in key order |
| CalibrationData.UnknownCamera | src/pose_editor/core/calibration.py:64-71 | an unknown camera reads as None, and so does its matrix |
| CalibrationData.KnownCameraMatrix | src/pose_editor/core/calibration.py:68-71 | a camera stored as an object yields its "matrix" entry, or None without one |
| CalibrationData.Calibration.Matrix | src/pose_editor/core/calibration.py:68-71 | AttributeError exactly for non-object data or a truthy camera entry that is not an object; an unknown camera gives None; a value is the "matrix" entry of the camera's stored object |
| Drivers.QualityColorComponent | src/pose_editor/blender/drivers.py:8-41 | defined exactly for channel -4..3; quality >= 1 gives the original, quality < 0.3 dark red, otherwise the blend |
| Drivers.ColorBands | src/pose_editor/blender/drivers.py:25-41 | the three bands per channel: original, dark red (0.5, 0, 0, 1), and grey (0.5, 0.5, 0.5, 1) blended with the original |
| Drivers.BlendGap | src/pose_editor/blender/drivers.py:37-40 | the blend pulls the original towards grey in proportion to 1 - quality, and at 0.3 it is exactly grey |
| Drivers.BlendBetween | src/pose_editor/blender/drivers.py:33-40 | in the band the blend lies between grey and the original, and equals the original only when they agree |
| Drivers.ContinuousAtOne | src/pose_editor/blender/drivers.py:29-41 | the blend tends to the original as quality tends to 1 |
| Dal.SlotKey | src/pose_editor/blender/dal.py:480-492 | the slot key is "OB" followed by the name |
| Dal.SlotKeyInjective | src/pose_editor/blender/dal.py:480-492 | distinct names have distinct keys |
| Dal.Action.GetOrCreateSlot | src/pose_editor/blender/dal.py:509-528 | adds the prefixed key when missing, and keeps every existing slot and curve; afterwards the slot is found |
| Dal.Action.ClearedFcurve | src/pose_editor/blender/dal.py:549-567 | the column's curve exists and is empty afterwards, and no other curve changes |
| Dal.StoredReadBack | src/pose_editor/blender/dal.py:856-867 | get_fcurve_keyframes on the curve found for a column reads back exactly the points stored for that column, and on any other key what it read before |
| Dal.SampleFcurve | src/pose_editor/blender/dal.py:822-835 | end - start + 1 samples (none when end < start), sample i taken at frame start + i |
| Dal.Count | src/pose_editor/blender/dal.py:903 | the valid cells are at most the column's cells |
| Dal.Packed | src/pose_editor/blender/dal.py:911-921 | a column gives as many keyframes as it has valid cells |
| Dal.PackedPrefix | src/pose_editor/blender/dal.py:911-921 | packing a prefix of the rows gives a prefix of the keyframes |
| Dal.PackedAt | src/pose_editor/blender/dal.py:911-921 | a valid cell in row r becomes keyframe number Count(rows before r), at frame start + r, with the cell's value |
| Dal.PackedSource | src/pose_editor/blender/dal.py:911-921 | every keyframe comes from a valid cell, at its frame and with its value |
| Dal.PackedIncreasing | src/pose_editor/blender/dal.py:911-921 | keyframe frames strictly increase, so no two share a frame |
| Dal.CountValid | src/pose_editor/blender/dal.py:903 | the count loop counts a column's valid cells |
| Dal.ValidCounts | src/pose_editor/blender/dal.py:903 | one count per column of the table |
| Dal.FillCell | src/pose_editor/blender/dal.py:915-921 | a valid cell goes to its column's cursor, which moves on and never passes the column's point count; a NaN cell changes nothing |
| Dal.FillFrame | src/pose_editor/blender/dal.py:913-921 | one row of the fill keeps every column in its filled state |
| Dal.FillRows | src/pose_editor/blender/dal.py:911-921 | after all rows every column is filled |
| Dal.FillPoints | src/pose_editor/blender/dal.py:905-921 | allocating as many points as valid cells and filling through the cursors gives each column its packing |
| Dal.StoredSpec | src/pose_editor/blender/dal.py:895-921 | with distinct keys every column's curve holds its own points, the keys are the old ones plus the columns', and other curves are kept |
| Dal.ClearCurves | src/pose_editor/blender/dal.py:895-900 | every column's curve is created if missing and cleared |
| Dal.StoreCurves | src/pose_editor/blender/dal.py:906-921 | each column's points become its curve's keyframes |
| Dal.SetFcurvesFromNumpy | src/pose_editor/blender/dal.py:870-921 | nothing changes without an action, columns or data; otherwise every column's curve is created and holds exactly its column's packing, so get_fcurve_keyframes reads that packing back; no old keyframe survives, and other curves are kept |
| Dal.SlotsFound | src/pose_editor/blender/dal.py:495-506 | afterwards action_has_slot finds every column's slot |

## Findings

| source | as written | input that shows it | evidently intended | confidence | as-written member | corrected member |
|---|---|---|---|---|---|---|
| src/pose_editor/pose2sim/triangulate_point.py:263-264 | `[x] * len(id_cams_swapped)` makes every swap candidate of a row share one array, so the writes of all the round's combinations pile up in it | three cameras, one swapped at a time, error above the threshold, x = (1, 2, 3), swapped x = (4, 5, 6): every candidate gets (4, 5, 6) | each candidate swaps only its own combination: (4, 2, 3), (1, 5, 3) and (1, 2, 6) | high, not executed | BestCameras.AliasingCounterexample | BestCameras.SwapCandidatesDiffer |
| src/pose_editor/core/camera_view.py:126-130 | `get_start_frame` returns `value or 1`, so a stored start of 0 reads back as 1, and `set_start_frame` computes its delta from that | move a view from start 1 to 0, then back to 1: the second move sees delta 0, so the animation stays one frame early and the stored start stays 0 | a stored 0 reads back as 0; only an unset start reads as 1 | high, not executed | CameraViews.StartFrameZeroDrift | CameraViews.CameraView.SetStartFrame |

The swap search in `BestCameras` uses the corrected `Swap`: each candidate
swaps exactly its own combination. `AliasedSwap` and `AliasedRoundSwapsAll`
state what the code as written computes. `CameraView.StartFrame` uses
`StartFrameOf`. `StartFrameAsWritten` and `SetStartAsWritten` are the code as
written.

## Left out

- Numeric kernels are uninterpreted parameters: the SVD of the linear
  system, Rodrigues' formula, the square root and `cv2.projectPoints`. No
  property of them is assumed.
- Arithmetic is on exact reals. Floating-point rounding is not modelled.
  NaN is `None`, and +inf is a separate value.
- -inf and NaN coordinates in the inputs are not modelled, and neither are
  NaN likelihoods in `core/triangulation.py`.
- The SVD kernel yields a finite point or None (the NaN point). In
  `core/triangulation.py` a zero homogeneous coordinate (V[3][3] = 0 at
  line 35) divides by zero and gives a point with infinite components.
  Such a point passes the `np.isnan` test of line 133 and is reprojected.
  The model does not produce it.
- Triangulation.TriangulatePoint takes `min_cameras` as a `nat`. The source
  takes any integer. With a negative value the level loop would reach
  `combinations(range(n), -1)`, which raises ValueError (lines 117 and 122),
  unless the early exit fires first. Every caller passes at least 2.
- BestCameras.TriangulationFromBestCameras takes `min_cameras` as a `nat`.
  In the source a negative value never breaks at line 83 and reaches the
  all-NaN level. The value is the configuration entry
  `min_cameras_for_triangulation` (triangulate_point.py:31); no caller in the source sets it.
- BestCameras.FirstMin: with min_cameras = 0 a row can keep no camera, and
  its error is NaN. At a level whose smallest error is +inf, `nanargmin`
  can then pick a later row than FirstMin does. Without the swap stage that
  choice never reaches the output: +inf exceeds the threshold, so the loop
  goes on to a level with a finite minimum (where both pick the same row)
  or to level n, which is all NaN and raises either way. With the swap
  stage on, the swap search starts from the row FirstMin picks, which may
  differ from the row the source picks.
- The `undistort_points` branch of `triangulate_point.py` is left out
  (`cv2.undistortPoints`, `cv2.projectPoints`).
- Triangulation.UsableCamerasSpec: a calibration entry is a record with
  matrix, rotation and translation. The source's test `if calib` would
  also reject an empty dictionary, and a dictionary without those keys
  would raise KeyError. Neither case is modelled.
- Observations come as a list of (name, observation) pairs. The source's
  dictionary also guarantees that names are unique; the model does not
  rely on it.
- BestCameras.SwapSearch uses the corrected swap, not the shared-array
  behaviour of lines 263-264 (see Findings).
- The JSON parser is a parameter of the calibration model. A parsed object
  is a list of key/value pairs in insertion order, and `Get` returns the
  first match. The parser is expected to yield unique keys, as a Python
  dictionary has. With a repeated key, `json.loads` keeps the last value at
  the key's first position. The model would instead return the first value
  and list the key twice.
- Loading a calibration TOML file (`load_calibration_from_file`) is file
  I/O and is left out.
- Skeletons.Skeleton.constructor: the source's `_body_part_map` is one
  class-level dictionary shared by every skeleton, so labels leak from one
  skeleton to the next. The model keeps one map per skeleton and starts it
  empty.
- The skeleton definitions other than COCO-133 (Pose2Sim's
  `get_skeleton_definition`) are a parameter of `GetSkeleton`.
- The tree search `findall` is modelled as a filter over the pre-order of
  the tree.
- FrameNumbers.ExtractFrameNumberSpec: `\d` and `\w` are the ASCII ones.
  Python's regular expressions also accept other Unicode digits and letters.
- CameraViews.Cell: a joint id below -len/3 makes Python raise IndexError.
  The model leaves those cells NaN instead. Other negative ids are read
  with Python's negative indexing.
- CameraViews.NewCameraView and CameraViews.LayOutPoseData: as written,
  camera_view.py:219 reads `dal.IS_CAMERA_VIEW`, which the dal module does
  not define, so `create_camera_view` raises AttributeError before the
  transform and the pose-file loop are reached. The model states what the
  rest of the function evidently computes.
- CameraViews.Quality: the test `x is not np.nan` is always true for
  numbers read from JSON, so quality depends on the likelihood alone.
- The Blender side of `create_camera_view` is left out:
  - the movie clip, camera, empty and background objects;
  - the `MarkerData` and `PersonDataView` per person, and the colour per
    person.
- The pose files come in as a list of (name, parsed people) pairs; the
  source gets them by listing and reading a directory. The caller is
  expected to give them in the source's sorted order.
- CameraViews.UpdateSceneFrameRange: each view's animation durations are
  given as a list of numbers. The source calls four names that `dal.py`
  does not define:
  - `dal.get_animation_duration`;
  - `dal.set_scene_frame_range`;
  - `dal.find_all_objects_by_property`, through `CameraView.get_all`;
  - `dal.IS_CAMERA_VIEW`, through `CameraView.get_all` and
    `CameraView.from_blender_obj`.

  As written, the function therefore raises AttributeError. Its only call,
  in `set_start_frame` (camera_view.py:153), is commented out. The model
  states what the function evidently computes.
- CameraViews.CameraView.SetStartFrame: the shift of every person view's
  f-curves is recorded as one entry in the view's list of shifts. The
  keyframe moves themselves are not modelled.
- PersonFacade.AssignSourceTrackForSegment: the reads and writes it makes
  through the data-access layer are not modelled:
  - `get_animation_data_as_numpy`;
  - `replace_fcurve_segment_from_numpy`;
  - the active-track keyframe;
  - reconnecting the `PersonDataView`.

  The model stops at the plan: the frame segment and the columns.
- PersonFacade.ActiveTrackIndex: evaluating an f-curve is Blender's job, so
  the evaluated value is a parameter.
- Dal.SampleFcurve: evaluating an f-curve is Blender's job, so the
  evaluation is a function parameter.
- Dal.SetFcurvesFromNumpy requires that the columns' curve keys be
  distinct. In the source, two equal columns share one curve. Each column
  clears it, and each adds as many points as it has valid cells, so the
  curve gets the sum of both counts. Each column has its own cursor
  starting at 0. The writes interleave frame by frame on the low indices,
  so the last writer wins at each index, and the points beyond the larger
  count keep the coordinates `add` gave them. For example, with start 0,
  column A valid at frames 0 and 1 and column B valid at frame 5, the curve
  ends up with (0, 0), (1, a1) and (5, b5): A's point at frame 0 is lost
  and a spurious point appears at frame 0.
- Dal.SetFcurvesFromNumpy requires at most as many columns as the table
  has. With more, the source raises IndexError.
- Dal.SetFcurvesFromNumpy: the source fills the curves' points in place
  through references. The model fills one list per column and stores it
  at the end.
- Dal.SetFcurvesFromNumpy: the linear interpolation mode and `fcurve.update()`
  are Blender's and are not modelled.
- Everything else in `dal.py` (object, collection, camera, marker and
  driver creation; custom properties) is Blender plumbing and is left out.
- FrameHandling: the console messages are left out. Exceptions other than
  ValueError in `register_handler`/`unregister_handler` are not modelled.
  A raising callback is modelled as a predicate over callbacks.
- FrameHandling.FrameHandlerClass.OnFrameChange dispatches over the callback
  list as it is when the frame changes. The source iterates the live list
  (frame_handler.py:66), so a callback that adds or removes callbacks
  changes which callbacks run after it. A raising callback without a
  `__name__` makes the message in the except clause raise in turn (line 70),
  which ends the dispatch. Neither case is modelled.
- Drivers: `register_drivers` and `unregister_drivers` only touch Blender's
  driver namespace and are left out.
