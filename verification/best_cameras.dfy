/** `triangulation_from_best_cameras` of `pose2sim/triangulate_point.py`: the
    cameras-off search with its left/right-swap sub-search, without the
    undistortion branch. Triangulation, reprojection, the distance and the mean
    are those of the Triangulation module; the numeric kernels stay
    uninterpreted there. */
module BestCameras {
  import opened Common
  import opened Combinatorics
  import Triangulation

  type Matrix = Triangulation.Matrix
  type Point3 = Triangulation.Point3
  type Kernels = Triangulation.Kernels

  /** A likelihood as the arrays hold it: a real, or NaN (None). */
  type Likelihood = Option<real>

  /** One keypoint seen by n cameras: coordinates and likelihoods, the
      coordinates of the left/right-swapped keypoint, and the projection matrices. */
  datatype Keypoint = Keypoint(
    x: seq<real>, y: seq<real>, likelihood: seq<Likelihood>,
    xSwapped: seq<real>, ySwapped: seq<real>, projections: seq<Matrix>)

  predicate WellFormed(kp: Keypoint)
  {
    && |kp.y| == |kp.x| && |kp.likelihood| == |kp.x| && |kp.xSwapped| == |kp.x|
    && |kp.ySwapped| == |kp.x| && |kp.projections| == |kp.x|
  }

  /** The `triangulation` section of the configuration. */
  datatype Settings = Settings(threshold: real, minCameras: nat, handleSwap: bool)

  // ---------------------------------------------------------------------------
  // Excluded cameras

  /** `np.nan_to_num(l) == 0`: a NaN or zero likelihood takes the camera out. */
  predicate Excluded(l: Likelihood)
  {
    l.None? || l.value == 0.0
  }

  /** The likelihood row of the candidate that takes off the cameras in `off`. */
  function Blank(l: seq<Likelihood>, off: seq<nat>): (r: seq<Likelihood>)
    ensures |r| == |l|
  {
    seq(|l|, i requires 0 <= i < |l| => if i in off then None else l[i])
  }

  /** `np.count_nonzero(np.nan_to_num(row) == 0)`. */
  function CountExcluded(r: seq<Likelihood>): nat
  {
    if |r| == 0 then 0
    else CountExcluded(r[..|r| - 1]) + (if Excluded(r[|r| - 1]) then 1 else 0)
  }

  /** `np.argwhere(np.isnan(row))`: the NaN positions, ascending. */
  function NaNPositions(r: seq<Likelihood>): seq<nat>
  {
    if |r| == 0 then []
    else NaNPositions(r[..|r| - 1]) + (if r[|r| - 1].None? then [|r| - 1] else [])
  }

  /** The positions the filtering comprehensions keep (likelihood neither NaN
      nor zero), ascending. Together with the excluded ones they are the row. */
  function KeptPositions(r: seq<Likelihood>): (ps: seq<nat>)
    ensures EntriesBelow(ps, |r|)
    ensures |ps| + CountExcluded(r) == |r|
  {
    if |r| == 0 then []
    else
      var init := KeptPositions(r[..|r| - 1]);
      if Excluded(r[|r| - 1]) then init else init + [|r| - 1]
  }

  /** A position is kept exactly when its likelihood is neither NaN nor zero;
      the kept positions are strictly ascending. */
  lemma {:induction false} KeptPositionsSpec(r: seq<Likelihood>)
    ensures forall i :: i in KeptPositions(r) <==> 0 <= i < |r| && !Excluded(r[i])
    ensures forall i, j :: 0 <= i < j < |KeptPositions(r)| ==> KeptPositions(r)[i] < KeptPositions(r)[j]
  {
    if |r| > 0 {
      var init := r[..|r| - 1];
      KeptPositionsSpec(init);
      assert forall i :: 0 <= i < |init| ==> init[i] == r[i];
    }
  }

  /** The reported excluded indices are the NaN positions only, while the
      reported count also counts zero likelihoods: the two agree exactly when
      no likelihood is zero. */
  lemma {:induction false} ExclusionBookkeeping(r: seq<Likelihood>)
    ensures forall i :: i in NaNPositions(r) <==> 0 <= i < |r| && r[i].None?
    ensures |NaNPositions(r)| <= CountExcluded(r)
    ensures |NaNPositions(r)| == CountExcluded(r) <==> forall i :: 0 <= i < |r| ==> r[i] != Some(0.0)
  {
    if |r| > 0 {
      var init := r[..|r| - 1];
      ExclusionBookkeeping(init);
      assert forall i :: 0 <= i < |init| ==> init[i] == r[i];
      if |NaNPositions(r)| == CountExcluded(r) {
        assert |NaNPositions(init)| == CountExcluded(init);
      } else if r[|r| - 1] != Some(0.0) {
        var i :| 0 <= i < |init| && init[i] == Some(0.0);
        assert r[i] == Some(0.0);
      }
    }
  }

  // ---------------------------------------------------------------------------
  // One candidate

  /** The likelihoods at the kept positions (NaN never occurs there). */
  function Weights(r: seq<Likelihood>, idx: seq<nat>): (w: seq<real>)
    requires EntriesBelow(idx, |r|)
    ensures |w| == |idx|
  {
    seq(|idx|, i requires 0 <= i < |idx| => if r[idx[i]].Some? then r[idx[i]].value else 0.0)
  }

  /** The weight of camera idx[i] is its likelihood, and 0 for a NaN one. */
  lemma WeightsAt(r: seq<Likelihood>, idx: seq<nat>, i: nat)
    requires EntriesBelow(idx, |r|) && i < |idx|
    ensures r[idx[i]].Some? ==> Weights(r, idx)[i] == r[idx[i]].value
    ensures r[idx[i]].None? ==> Weights(r, idx)[i] == 0.0
  {
  }

  /** The coordinates with those at the positions in `s` taken from the swapped keypoint. */
  function Swap(xs: seq<real>, swapped: seq<real>, s: seq<nat>): (r: seq<real>)
    requires |swapped| == |xs|
    ensures |r| == |xs|
    ensures forall i :: 0 <= i < |xs| && i in s ==> r[i] == swapped[i]
    ensures forall i :: 0 <= i < |xs| && i !in s ==> r[i] == xs[i]
  {
    seq(|xs|, i requires 0 <= i < |xs| => if i in s then swapped[i] else xs[i])
  }

  /** reprojection through P, where the NaN point reprojects to (NaN, NaN). */
  function ReprojectOrNaN(p: Matrix, q: Option<Point3>): (Num, Num)
  {
    match q
    case None => (NaN, NaN)
    case Some(q) => Triangulation.Reproject(p, q)
  }

  /** euclidean_distance between an observed (x, y) and the reprojection of Q. */
  function PointError(kern: Kernels, p: Matrix, x: real, y: real, q: Option<Point3>): ExtReal
  {
    var xy := ReprojectOrNaN(p, q);
    Triangulation.EuclideanDistance(kern, [Real(x), Real(y)], [xy.0, xy.1])
  }

  /** A NaN triangulation reprojects to NaN and so counts as an infinite error. */
  lemma NaNPointIsInfinite(kern: Kernels, p: Matrix, x: real, y: real)
    ensures PointError(kern, p, x, y, None) == Inf
  {
    Triangulation.NaNReprojectionIsInfinite(kern, x, y);
  }

  /** `np.mean` of the distances of the first m cameras; NaN (None) for an empty mean. */
  function MeanError(kern: Kernels, ps: seq<Matrix>, xs: seq<real>, ys: seq<real>, q: Option<Point3>, m: nat)
    : (e: Option<ExtReal>)
    requires m <= |ps| && m <= |xs| && m <= |ys|
    ensures e.None? <==> m == 0
  {
    if m == 0 then None
    else Some(Triangulation.Mean(seq(m, i requires 0 <= i < m => PointError(kern, ps[i], xs[i], ys[i], q))))
  }

  /** A NaN error read as +inf. np.nanargmin skips NaN entries instead. The
      two pick different rows only at a level whose smallest error is +inf
      and where a NaN comes before the first +inf. A NaN error means a row
      that keeps no camera, which BreakRule rules out for min_cameras >= 1;
      with min_cameras = 0 the loop goes on past such a level, since +inf
      exceeds the threshold and neither the break nor the guard fires
      before level n. */
  function AsInf(e: Option<ExtReal>): ExtReal
  {
    if e.None? then Inf else e.value
  }

  /** A triangulated point (None: the NaN point) and its error (None: NaN). */
  datatype Candidate = Candidate(point: Option<Point3>, error: Option<ExtReal>)

  /** Triangulate the cameras kept by row `r`, the positions in `s` swapped, and
      average the distances of the first m of them. */
  function CandidateOf(kern: Kernels, kp: Keypoint, r: seq<Likelihood>, s: seq<nat>, m: nat): Candidate
    requires WellFormed(kp) && |r| == |kp.x| && CountExcluded(r) + m <= |r|
  {
    var kept := KeptPositions(r);
    var ps := Gather(kp.projections, kept);
    var xs := Swap(Gather(kp.x, kept), Gather(kp.xSwapped, kept), s);
    var ys := Swap(Gather(kp.y, kept), Gather(kp.ySwapped, kept), s);
    var q := Triangulation.Triangulated(kern, ps, xs, ys, Weights(r, kept));
    Candidate(q, MeanError(kern, ps, xs, ys, q, m))
  }

  /** A NaN point is never better than +inf: its error is +inf or NaN. */
  lemma CandidateNaNPoint(kern: Kernels, kp: Keypoint, r: seq<Likelihood>, s: seq<nat>, m: nat)
    requires WellFormed(kp) && |r| == |kp.x| && CountExcluded(r) + m <= |r|
    ensures var c := CandidateOf(kern, kp, r, s, m);
      c.point.None? ==> AsInf(c.error) == Inf
  {
    var c := CandidateOf(kern, kp, r, s, m);
    if c.point.None? && m > 0 {
      var kept := KeptPositions(r);
      var ps := Gather(kp.projections, kept);
      var xs := Swap(Gather(kp.x, kept), Gather(kp.xSwapped, kept), s);
      var ys := Swap(Gather(kp.y, kept), Gather(kp.ySwapped, kept), s);
      var es := seq(m, i requires 0 <= i < m => PointError(kern, ps[i], xs[i], ys[i], None));
      NaNPointIsInfinite(kern, ps[0], xs[0], ys[0]);
      assert es[0].Inf?;
      assert c.error == Some(Triangulation.Mean(es));
    }
  }

  /** Every row has one entry per camera and keeps at least m of them. */
  ghost predicate RowsFit(kp: Keypoint, rows: seq<seq<Likelihood>>, m: nat)
  {
    forall i :: 0 <= i < |rows| ==> |rows[i]| == |kp.x| && CountExcluded(rows[i]) + m <= |kp.x|
  }

  // ---------------------------------------------------------------------------
  // Minimum and maximum

  /** `max` of a non-empty list. */
  function MaxOf(s: seq<nat>): (m: nat)
    requires |s| > 0
    ensures forall i :: 0 <= i < |s| ==> s[i] <= m
    ensures exists i :: 0 <= i < |s| && s[i] == m
  {
    if |s| == 1 then s[0]
    else
      var init := s[..|s| - 1];
      var m0 := MaxOf(init);
      assert forall i :: 0 <= i < |init| ==> init[i] == s[i];
      if s[|s| - 1] > m0 then s[|s| - 1] else m0
  }

  /** `argmin`: the first position of the smallest value. */
  function FirstMin(es: seq<ExtReal>): (b: nat)
    requires |es| > 0
    ensures b < |es|
    ensures forall j :: 0 <= j < |es| ==> Le(es[b], es[j])
    ensures forall j :: 0 <= j < b ==> Lt(es[b], es[j])
  {
    if |es| == 1 then 0
    else
      var init := es[..|es| - 1];
      var k := FirstMin(init);
      assert forall j :: 0 <= j < |init| ==> init[j] == es[j];
      if Lt(es[|es| - 1], es[k]) then |es| - 1 else k
  }

  lemma {:induction false} BinomialPositive(n: nat, k: nat)
    requires k <= n
    ensures Binomial(n, k) > 0
  {
    if k > 0 {
      BinomialPositive(n - 1, k - 1);
    }
  }

  /** `it.combinations(range(n), k)` is not empty when k <= n. */
  lemma CombinationsNonEmpty(n: nat, k: nat)
    requires k <= n
    ensures |Combinations(n, k)| > 0
  {
    BinomialPositive(n, k);
    CombinationsCount(0, n, k);
  }

  /** `argmin` over a two-dimensional array followed by `np.unravel_index`:
      the first smallest entry in row-major order. */
  function GridArgMin(g: seq<seq<ExtReal>>): (ij: (nat, nat))
    requires |g| > 0 && forall i :: 0 <= i < |g| ==> |g[i]| > 0
    ensures ij.0 < |g| && ij.1 < |g[ij.0]|
    ensures forall i, j :: 0 <= i < |g| && 0 <= j < |g[i]| ==> Le(g[ij.0][ij.1], g[i][j])
    ensures forall i, j :: 0 <= i < |g| && 0 <= j < |g[i]| && (i < ij.0 || (i == ij.0 && j < ij.1)) ==>
      Lt(g[ij.0][ij.1], g[i][j])
  {
    var last := |g| - 1;
    var j := FirstMin(g[last]);
    if last == 0 then (0, j)
    else
      var init := g[..last];
      assert forall i :: 0 <= i < last ==> init[i] == g[i];
      var b := GridArgMin(init);
      if Lt(g[last][j], g[b.0][b.1]) then (last, j) else b
  }

  // ---------------------------------------------------------------------------
  // The left/right-swap sub-search

  /** One round's candidates: a row per row of the level, a column per
      combination of swapped cameras (the shape of error_off_swap). */
  function SwapGrid(kern: Kernels, kp: Keypoint, rows: seq<seq<Likelihood>>, m: nat, swaps: seq<seq<nat>>)
    : (g: seq<seq<Candidate>>)
    requires WellFormed(kp) && RowsFit(kp, rows, m)
    ensures |g| == |rows| && forall i :: 0 <= i < |rows| ==> |g[i]| == |swaps|
  {
    seq(|rows|, i requires 0 <= i < |rows| => SwapRow(kern, kp, rows[i], m, swaps))
  }

  /** One row of the swap round's error array: every swap tried on one blanking pattern. */
  function SwapRow(kern: Kernels, kp: Keypoint, row: seq<Likelihood>, m: nat, swaps: seq<seq<nat>>)
    : (cs: seq<Candidate>)
    requires WellFormed(kp) && |row| == |kp.x| && CountExcluded(row) + m <= |row|
    ensures |cs| == |swaps|
  {
    seq(|swaps|, j requires 0 <= j < |swaps| => CandidateOf(kern, kp, row, swaps[j], m))
  }

  function Errors(cs: seq<Candidate>): (es: seq<ExtReal>)
    ensures |es| == |cs| && forall i :: 0 <= i < |cs| ==> es[i] == AsInf(cs[i].error)
  {
    seq(|cs|, i requires 0 <= i < |cs| => AsInf(cs[i].error))
  }

  /** The sub-search's loop variables: best swapped error, the next number of
      swapped cameras, the row of the best swapped candidate and its point. */
  datatype SwapState = SwapState(errorMin: ExtReal, nSwapped: nat, idOff: nat, point: Option<Point3>)

  function GridErrors(g: seq<seq<Candidate>>): (es: seq<seq<ExtReal>>)
    ensures |es| == |g| && forall i :: 0 <= i < |g| ==> es[i] == Errors(g[i])
  {
    seq(|g|, i requires 0 <= i < |g| => Errors(g[i]))
  }

  /** One round with nSwapped cameras swapped: `np.min` and the unravelled argmin. */
  function SwapRound(kern: Kernels, kp: Keypoint, rows: seq<seq<Likelihood>>, m: nat, nSwapped: nat)
    : (r: SwapState)
    requires WellFormed(kp) && RowsFit(kp, rows, m) && |rows| > 0 && nSwapped <= m
    ensures r.idOff < |rows| && r.nSwapped == nSwapped + 1
  {
    var swaps := Combinations(m, nSwapped);
    CombinationsNonEmpty(m, nSwapped);
    var g := SwapGrid(kern, kp, rows, m, swaps);
    var b := GridArgMin(GridErrors(g));
    SwapState(GridErrors(g)[b.0][b.1], nSwapped + 1, b.0, g[b.0][b.1].point)
  }

  predicate SwapContinues(st: SwapState, m: nat, threshold: real)
  {
    Above(st.errorMin, threshold) && 2 * st.nSwapped < m
  }

  /** The swap loop: while the error is above the threshold and fewer than half
      of the m cameras are swapped. */
  function SwapSearch(kern: Kernels, kp: Keypoint, rows: seq<seq<Likelihood>>, m: nat, threshold: real,
                      st: SwapState): (r: SwapState)
    requires WellFormed(kp) && RowsFit(kp, rows, m) && |rows| > 0
    ensures r == st || r.idOff < |rows|
    decreases m - st.nSwapped
  {
    if SwapContinues(st, m, threshold) then
      SwapSearch(kern, kp, rows, m, threshold, SwapRound(kern, kp, rows, m, st.nSwapped))
    else st
  }

  // ---------------------------------------------------------------------------
  // The cameras-off loop

  /** The loop variables: `error_min`, `nb_cams_off`, `best_cams` (None while
      unassigned), `nb_cams_excluded`, `Q` (None: NaN) and `id_cams_off_tot`. */
  datatype State = State(errorMin: ExtReal, nbCamsOff: nat, best: Option<nat>, nbExcluded: nat,
                         point: Option<Point3>, idOffTot: seq<seq<nat>>)

  const Start := State(Inf, 0, None, 0, None, [])

  /** best_cams indexes id_cams_off_tot, and a NaN point only comes with +inf. */
  predicate Consistent(st: State)
  {
    && (st.best.Some? ==> st.best.value < |st.idOffTot|)
    && (st.point.None? ==> st.errorMin == Inf)
  }

  predicate Continues(n: nat, s: Settings, st: State)
  {
    Above(st.errorMin, s.threshold) && n - st.nbCamsOff >= s.minCameras
  }

  /** The likelihood rows of level nbCamsOff, one per combination of cameras taken off. */
  function Rows(l: seq<Likelihood>, combos: seq<seq<nat>>): (rows: seq<seq<Likelihood>>)
    ensures |rows| == |combos| && forall i :: 0 <= i < |combos| ==> rows[i] == Blank(l, combos[i])
  {
    seq(|combos|, i requires 0 <= i < |combos| => Blank(l, combos[i]))
  }

  function ExcludedCounts(rows: seq<seq<Likelihood>>): (cs: seq<nat>)
    ensures |cs| == |rows| && forall i :: 0 <= i < |rows| ==> cs[i] == CountExcluded(rows[i])
  {
    seq(|rows|, i requires 0 <= i < |rows| => CountExcluded(rows[i]))
  }

  function NaNPositionsOf(rows: seq<seq<Likelihood>>): (ps: seq<seq<nat>>)
    ensures |ps| == |rows| && forall i :: 0 <= i < |rows| ==> ps[i] == NaNPositions(rows[i])
  {
    seq(|rows|, i requires 0 <= i < |rows| => NaNPositions(rows[i]))
  }

  /** Q_filt and its errors: every row, no camera swapped, all kept cameras averaged. */
  function Candidates(kern: Kernels, kp: Keypoint, rows: seq<seq<Likelihood>>): (cs: seq<Candidate>)
    requires WellFormed(kp) && RowsFit(kp, rows, 0)
    ensures |cs| == |rows|
  {
    seq(|rows|, i requires 0 <= i < |rows| => CandidateOf(kern, kp, rows[i], [], |KeptPositions(rows[i])|))
  }

  /** The swap stage of a level: run only when enabled and the level's error is
      above the threshold, and taken only when strictly better. */
  function AfterSwap(kern: Kernels, kp: Keypoint, s: Settings, rows: seq<seq<Likelihood>>, m: nat, st: State)
    : (r: State)
    requires WellFormed(kp) && RowsFit(kp, rows, m) && |rows| > 0
    ensures r == st || (r.best.Some? && r.best.value < |rows|)
  {
    if s.handleSwap && Above(st.errorMin, s.threshold) then
      var sw := SwapSearch(kern, kp, rows, m, s.threshold, SwapState(st.errorMin, 1, 0, None));
      if Lt(sw.errorMin, st.errorMin) then st.(errorMin := sw.errorMin, best := Some(sw.idOff), point := sw.point)
      else st
    else st
  }

  /** What one pass of the loop body does. */
  datatype Outcome = Next(state: State) | Stop | AllNaNSlice

  /** The level's first minimum, before the swap stage. */
  function LevelBest(kern: Kernels, kp: Keypoint, rows: seq<seq<Likelihood>>, nbCamsOff: nat): (st: State)
    requires WellFormed(kp) && RowsFit(kp, rows, 0) && |rows| > 0
    ensures st.best.Some? && st.best.value < |rows| && |st.idOffTot| == |rows| && st.nbCamsOff == nbCamsOff
  {
    var cands := Candidates(kern, kp, rows);
    var b := FirstMin(Errors(cands));
    State(Errors(cands)[b], nbCamsOff, Some(b), CountExcluded(rows[b]), cands[b].point, NaNPositionsOf(rows))
  }

  /** The likelihood rows of level nbCamsOff: one per combination of cameras taken off. */
  function LevelRows(kp: Keypoint, nbCamsOff: nat): (rows: seq<seq<Likelihood>>)
    requires WellFormed(kp) && nbCamsOff <= |kp.x|
    ensures |rows| > 0 && forall i :: 0 <= i < |rows| ==> |rows[i]| == |kp.x|
  {
    CombinationsNonEmpty(|kp.x|, nbCamsOff);
    Rows(kp.likelihood, Combinations(|kp.x|, nbCamsOff))
  }

  /** nb_cams_off_tot: the most cameras any row of the level excludes. */
  function Worst(rows: seq<seq<Likelihood>>): nat
    requires |rows| > 0
  {
    MaxOf(ExcludedCounts(rows))
  }

  /** One pass of the loop body at level st.nbCamsOff. */
  function Step(kern: Kernels, kp: Keypoint, s: Settings, st: State): (o: Outcome)
    requires WellFormed(kp) && st.nbCamsOff <= |kp.x|
    ensures o.Next? ==> o.state.nbCamsOff == st.nbCamsOff + 1 && Consistent(o.state) && o.state.best.Some?
  {
    var rows := LevelRows(kp, st.nbCamsOff);
    StepAt(kern, kp, s, rows, Worst(rows), st.nbCamsOff)
  }

  /** The loop body once the level's rows and nb_cams_off_tot are known: break,
      or evaluate the level. */
  function StepAt(kern: Kernels, kp: Keypoint, s: Settings, rows: seq<seq<Likelihood>>, worst: nat, nbCamsOff: nat)
    : (o: Outcome)
    requires WellFormed(kp) && |rows| > 0 && forall i :: 0 <= i < |rows| ==> |rows[i]| == |kp.x|
    requires forall i :: 0 <= i < |rows| ==> CountExcluded(rows[i]) <= worst
    ensures o.Next? ==> o.state.nbCamsOff == nbCamsOff + 1 && Consistent(o.state) && o.state.best.Some?
  {
    var n := |kp.x|;
    if worst > n - s.minCameras then Stop
    else LevelPass(kern, kp, s, rows, n - worst, nbCamsOff)
  }

  /** Every error of the level is NaN: np.nanargmin raises. */
  predicate AllNaN(cands: seq<Candidate>)
  {
    forall i :: 0 <= i < |cands| ==> cands[i].error.None?
  }

  /** The part of the loop body after the break test. */
  function LevelPass(kern: Kernels, kp: Keypoint, s: Settings, rows: seq<seq<Likelihood>>, m: nat, nbCamsOff: nat)
    : (o: Outcome)
    requires WellFormed(kp) && RowsFit(kp, rows, m) && RowsFit(kp, rows, 0) && |rows| > 0
    ensures o.Next? ==> o.state.nbCamsOff == nbCamsOff + 1 && Consistent(o.state) && o.state.best.Some?
  {
    if AllNaN(Candidates(kern, kp, rows)) then AllNaNSlice
    else
      LevelOutcomeConsistent(kern, kp, s, rows, m, nbCamsOff);
      Next(LevelOutcome(kern, kp, s, rows, m, nbCamsOff))
  }

  /** The state after an evaluated level: its first minimum, then the swap
      stage, then nb_cams_off += 1. */
  function LevelOutcome(kern: Kernels, kp: Keypoint, s: Settings, rows: seq<seq<Likelihood>>, m: nat, nbCamsOff: nat)
    : (st: State)
    requires WellFormed(kp) && RowsFit(kp, rows, m) && RowsFit(kp, rows, 0) && |rows| > 0
    ensures st.nbCamsOff == nbCamsOff + 1
  {
    AfterSwap(kern, kp, s, rows, m, LevelBest(kern, kp, rows, nbCamsOff)).(nbCamsOff := nbCamsOff + 1)
  }

  /** The while loop over nb_cams_off; Err is numpy's ValueError for an all-NaN level. */
  function Search(kern: Kernels, kp: Keypoint, s: Settings, st: State): Result<State, string>
    requires WellFormed(kp)
    decreases |kp.x| + 1 - st.nbCamsOff
  {
    if Continues(|kp.x|, s, st) then
      match Step(kern, kp, s, st)
      case Stop => Ok(st)
      case AllNaNSlice => Err("All-NaN slice encountered")
      case Next(next) => Search(kern, kp, s, next)
    else Ok(st)
  }

  // ---------------------------------------------------------------------------
  // The result

  /** (Q, error_min, nb_cams_excluded, id_excluded_cams); None stands for NaN. */
  datatype Output = Output(point: Option<Point3>, error: Option<real>, nbExcluded: nat, idExcluded: seq<nat>)

  function Range(n: nat): (r: seq<nat>)
    ensures |r| == n && forall i :: 0 <= i < n ==> r[i] == i
  {
    seq(n, i requires 0 <= i < n => i)
  }

  /** The bookkeeping after the loop and the NaN policy for an error above the threshold. */
  function Finish(n: nat, s: Settings, st: State): Output
  {
    var nb := if st.best.Some? then st.nbExcluded else n;
    var ids := if st.best.Some? && st.best.value < |st.idOffTot| then st.idOffTot[st.best.value] else Range(n);
    if Above(st.errorMin, s.threshold) then Output(None, None, nb, ids)
    else Output(st.point, Some(st.errorMin.r), nb, ids)
  }

  /** triangulation_from_best_cameras for one keypoint. */
  function BestCamerasSpec(kern: Kernels, kp: Keypoint, s: Settings): (r: Result<Output, string>)
    requires WellFormed(kp)
    ensures r.Ok? && r.value.error.Some? ==> r.value.error.value <= s.threshold
    ensures r.Ok? && r.value.error.None? ==> r.value.point.None?
  {
    match Search(kern, kp, s, Start)
    case Err(e) => Err(e)
    case Ok(st) => Ok(Finish(|kp.x|, s, st))
  }

  // ---------------------------------------------------------------------------
  // Properties

  /** Level nbCamsOff has one row per nbCamsOff-combination of cameras, in
      lexicographic order, and each row blanks exactly that combination. */
  lemma LevelBlanksOneCombination(kp: Keypoint, nbCamsOff: nat)
    requires WellFormed(kp) && nbCamsOff <= |kp.x|
    ensures |LevelRows(kp, nbCamsOff)| == Binomial(|kp.x|, nbCamsOff)
    ensures forall i :: 0 <= i < |LevelRows(kp, nbCamsOff)| ==>
      var c := Combinations(|kp.x|, nbCamsOff)[i];
      && IsCombination(c, 0, |kp.x|, nbCamsOff)
      && forall j :: 0 <= j < |kp.x| ==>
           LevelRows(kp, nbCamsOff)[i][j] == if j in c then None else kp.likelihood[j]
  {
    CombinationsSpec(|kp.x|, nbCamsOff);
  }

  /** The loop breaks before triangulating exactly when some row excludes more
      than n - min_cameras cameras; otherwise every row keeps min_cameras. */
  lemma BreakRule(kern: Kernels, kp: Keypoint, s: Settings, st: State)
    requires WellFormed(kp) && st.nbCamsOff <= |kp.x|
    ensures var rows := LevelRows(kp, st.nbCamsOff);
      && (Step(kern, kp, s, st).Stop? <==> Worst(rows) > |kp.x| - s.minCameras)
      && (!Step(kern, kp, s, st).Stop? ==>
            forall i :: 0 <= i < |rows| ==> |KeptPositions(rows[i])| >= s.minCameras)
  {
    var rows := LevelRows(kp, st.nbCamsOff);
    if Worst(rows) <= |kp.x| - s.minCameras {
      forall i | 0 <= i < |rows| ensures |KeptPositions(rows[i])| >= s.minCameras {
        assert ExcludedCounts(rows)[i] <= Worst(rows);
      }
    }
  }

  /** nanargmin raises only when every row keeps no camera at all, so never
      with a camera floor of at least one. */
  lemma AllNaNNeedsEmptyRows(kern: Kernels, kp: Keypoint, s: Settings, st: State)
    requires WellFormed(kp) && st.nbCamsOff <= |kp.x|
    ensures Step(kern, kp, s, st).AllNaNSlice? ==>
      forall i :: 0 <= i < |LevelRows(kp, st.nbCamsOff)| ==> KeptPositions(LevelRows(kp, st.nbCamsOff)[i]) == []
    ensures s.minCameras >= 1 ==> !Step(kern, kp, s, st).AllNaNSlice?
  {
    var rows := LevelRows(kp, st.nbCamsOff);
    BreakRule(kern, kp, s, st);
    if Step(kern, kp, s, st).AllNaNSlice? {
      var cands := Candidates(kern, kp, rows);
      forall i | 0 <= i < |rows| ensures KeptPositions(rows[i]) == [] {
        assert cands[i].error.None?;
      }
    }
  }

  /** Without the swap stage a level's result is its first minimum (NaN errors
      read as +inf), whatever the previous levels found. */
  lemma LevelFirstMinimum(kern: Kernels, kp: Keypoint, s: Settings, st: State)
    requires WellFormed(kp) && st.nbCamsOff <= |kp.x| && !s.handleSwap
    requires Step(kern, kp, s, st).Next?
    ensures var rows := LevelRows(kp, st.nbCamsOff);
      var next := Step(kern, kp, s, st).state;
      RowsFit(kp, rows, 0) &&
      var es := Errors(Candidates(kern, kp, rows));
      && next.best.Some? && next.best.value < |rows|
      && next.errorMin == es[next.best.value]
      && (forall j :: 0 <= j < |rows| ==> Le(next.errorMin, es[j]))
      && (forall j :: 0 <= j < next.best.value ==> Lt(next.errorMin, es[j]))
      && next.point == Candidates(kern, kp, rows)[next.best.value].point
      && next.nbExcluded == CountExcluded(rows[next.best.value])
      && next.idOffTot == NaNPositionsOf(rows)
  {
  }

  /** The swapped candidate a round picks has a NaN point only with +inf. */
  lemma SwapRoundNaNPoint(kern: Kernels, kp: Keypoint, rows: seq<seq<Likelihood>>, m: nat, nSwapped: nat)
    requires WellFormed(kp) && RowsFit(kp, rows, m) && |rows| > 0 && nSwapped <= m
    ensures var r := SwapRound(kern, kp, rows, m, nSwapped);
      r.point.None? ==> r.errorMin == Inf
  {
    var swaps := Combinations(m, nSwapped);
    CombinationsNonEmpty(m, nSwapped);
    var g := SwapGrid(kern, kp, rows, m, swaps);
    var b := GridArgMin(GridErrors(g));
    CandidateNaNPoint(kern, kp, rows[b.0], swaps[b.1], m);
  }

  /** The swap loop stops with the error at or below the threshold or half of
      the m cameras swapped; every round it ran swapped at least one and fewer
      than half of them, and its result then is a round's best. */
  lemma {:induction false} SwapSearchSpec(kern: Kernels, kp: Keypoint, rows: seq<seq<Likelihood>>, m: nat,
                                          threshold: real, st: SwapState)
    requires WellFormed(kp) && RowsFit(kp, rows, m) && |rows| > 0 && st.nSwapped >= 1
    ensures var r := SwapSearch(kern, kp, rows, m, threshold, st);
      && !SwapContinues(r, m, threshold)
      && (r == st || (SwapContinues(st, m, threshold) && st.nSwapped < r.nSwapped && 2 * (r.nSwapped - 1) < m
                      && r.idOff < |rows| && (r.point.None? ==> r.errorMin == Inf)))
    decreases m - st.nSwapped
  {
    if SwapContinues(st, m, threshold) {
      var next := SwapRound(kern, kp, rows, m, st.nSwapped);
      SwapRoundNaNPoint(kern, kp, rows, m, st.nSwapped);
      SwapSearchSpec(kern, kp, rows, m, threshold, next);
    }
  }

  /** The swap stage runs only when enabled and the error is above the
      threshold, never makes the error worse, and replaces the level's result
      only with a strictly smaller error. */
  lemma SwapOnlyImproves(kern: Kernels, kp: Keypoint, s: Settings, rows: seq<seq<Likelihood>>, m: nat, st: State)
    requires WellFormed(kp) && RowsFit(kp, rows, m) && |rows| > 0
    requires Consistent(st) && |st.idOffTot| == |rows|
    ensures var r := AfterSwap(kern, kp, s, rows, m, st);
      && Consistent(r) && r.idOffTot == st.idOffTot && r.nbCamsOff == st.nbCamsOff
      && r.nbExcluded == st.nbExcluded && (st.best.Some? ==> r.best.Some?)
      && Le(r.errorMin, st.errorMin)
      && (r != st ==> s.handleSwap && Above(st.errorMin, s.threshold) && Lt(r.errorMin, st.errorMin))
  {
    if s.handleSwap && Above(st.errorMin, s.threshold) {
      SwapSearchSpec(kern, kp, rows, m, s.threshold, SwapState(st.errorMin, 1, 0, None));
    }
  }

  lemma LevelOutcomeConsistent(kern: Kernels, kp: Keypoint, s: Settings, rows: seq<seq<Likelihood>>, m: nat,
                               nbCamsOff: nat)
    requires WellFormed(kp) && RowsFit(kp, rows, m) && RowsFit(kp, rows, 0) && |rows| > 0
    ensures var st := LevelOutcome(kern, kp, s, rows, m, nbCamsOff);
      Consistent(st) && st.best.Some?
  {
    var level := LevelBest(kern, kp, rows, nbCamsOff);
    var b := level.best.value;
    CandidateNaNPoint(kern, kp, rows[b], [], |KeptPositions(rows[b])|);
    assert Consistent(level);
    SwapOnlyImproves(kern, kp, s, rows, m, level);
  }

  /** The loop ends at a level whose guard fails or which breaks; levels are
      visited one after the other from st.nbCamsOff on, and a loop that visits
      none leaves the state as it was. */
  lemma {:induction false} SearchSpec(kern: Kernels, kp: Keypoint, s: Settings, st: State)
    requires WellFormed(kp) && Consistent(st)
    ensures var r := Search(kern, kp, s, st);
      r.Ok? ==>
        && Consistent(r.value)
        && st.nbCamsOff <= r.value.nbCamsOff
        && (r.value.nbCamsOff == st.nbCamsOff ==> r.value == st)
        && (r.value.nbCamsOff > st.nbCamsOff ==> r.value.best.Some?)
        && (!Continues(|kp.x|, s, r.value) || Step(kern, kp, s, r.value).Stop?)
    decreases |kp.x| + 1 - st.nbCamsOff
  {
    if Continues(|kp.x|, s, st) && Step(kern, kp, s, st).Next? {
      SearchSpec(kern, kp, s, Step(kern, kp, s, st).state);
    }
  }

  /** With a camera floor of at least one, numpy never raises. */
  lemma {:induction false} FloorAvoidsAllNaN(kern: Kernels, kp: Keypoint, s: Settings, st: State)
    requires WellFormed(kp) && s.minCameras >= 1
    ensures Search(kern, kp, s, st).Ok?
    decreases |kp.x| + 1 - st.nbCamsOff
  {
    if Continues(|kp.x|, s, st) {
      AllNaNNeedsEmptyRows(kern, kp, s, st);
      if Step(kern, kp, s, st).Next? {
        FloorAvoidsAllNaN(kern, kp, s, Step(kern, kp, s, st).state);
      }
    }
  }

  /** The NaN policy: an error above the threshold is reported as NaN with the
      NaN point; a reported error is finite, at most the threshold, and comes
      with a point. */
  lemma FinalNaNPolicy(kern: Kernels, kp: Keypoint, s: Settings)
    requires WellFormed(kp)
    ensures var r := BestCamerasSpec(kern, kp, s);
      r.Ok? ==>
        && (r.value.error.None? ==> r.value.point.None?)
        && (r.value.error.Some? ==> r.value.point.Some? && r.value.error.value <= s.threshold)
        && (r.value.error.None? <==> Above(Search(kern, kp, s, Start).value.errorMin, s.threshold))
  {
    SearchSpec(kern, kp, s, Start);
  }

  /** When no level was evaluated, every camera is reported excluded. */
  lemma NothingEvaluated(kern: Kernels, kp: Keypoint, s: Settings)
    requires WellFormed(kp)
    requires Search(kern, kp, s, Start).Ok? && Search(kern, kp, s, Start).value.nbCamsOff == 0
    ensures BestCamerasSpec(kern, kp, s) == Ok(Output(None, None, |kp.x|, Range(|kp.x|)))
  {
    SearchSpec(kern, kp, s, Start);
  }

  /** Fewer cameras than the floor: nothing is triangulated. */
  lemma TooFewCameras(kern: Kernels, kp: Keypoint, s: Settings)
    requires WellFormed(kp) && |kp.x| < s.minCameras
    ensures BestCamerasSpec(kern, kp, s) == Ok(Output(None, None, |kp.x|, Range(|kp.x|)))
  {
    NothingEvaluated(kern, kp, s);
  }

  /** When a level was evaluated, the reported indices are the NaN positions of
      the winning row of the last level evaluated. */
  lemma ReportedExclusions(kern: Kernels, kp: Keypoint, s: Settings)
    requires WellFormed(kp)
    requires Search(kern, kp, s, Start).Ok? && Search(kern, kp, s, Start).value.nbCamsOff > 0
    ensures var st := Search(kern, kp, s, Start).value;
      && st.best.Some? && st.best.value < |st.idOffTot|
      && BestCamerasSpec(kern, kp, s).value.idExcluded == st.idOffTot[st.best.value]
      && BestCamerasSpec(kern, kp, s).value.nbExcluded == st.nbExcluded
  {
    SearchSpec(kern, kp, s, Start);
  }

  // ---------------------------------------------------------------------------
  // The swap round's coordinates: as written and as intended

  /** The coordinates every candidate of one row of a swap round receives as the
      loop is written: the per-candidate copies are one shared array, so the
      writes of all the round's combinations land in it, one after the other. */
  function AliasedSwap(xs: seq<real>, swapped: seq<real>, swaps: seq<seq<nat>>): (r: seq<real>)
    requires |swapped| == |xs|
    ensures |r| == |xs|
  {
    if swaps == [] then xs
    else Swap(AliasedSwap(xs, swapped, swaps[..|swaps| - 1]), swapped, swaps[|swaps| - 1])
  }

  /** A position ends up swapped exactly when some combination of the round names it. */
  lemma {:induction false} AliasedSwapSpec(xs: seq<real>, swapped: seq<real>, swaps: seq<seq<nat>>, p: nat)
    requires |swapped| == |xs| && p < |xs|
    ensures AliasedSwap(xs, swapped, swaps)[p] ==
      if exists c :: c in swaps && p in c then swapped[p] else xs[p]
    decreases |swaps|
  {
    if swaps != [] {
      var init := swaps[..|swaps| - 1];
      var last := swaps[|swaps| - 1];
      AliasedSwapSpec(xs, swapped, init, p);
      assert forall c :: c in swaps <==> c in init || c == last;
    }
  }

  /** k consecutive indices from `start`. */
  function Window(start: nat, k: nat): (c: seq<nat>)
    ensures |c| == k && forall i :: 0 <= i < k ==> c[i] == start + i
  {
    seq(k, i requires 0 <= i < k => start + i)
  }

  /** Every position below m lies in some k-combination of 0..m-1 (for 1 <= k <= m). */
  lemma CoveredByCombination(m: nat, k: nat, p: nat)
    requires 1 <= k <= m && p < m
    ensures exists c :: c in Combinations(m, k) && p in c
  {
    var start := if p + k <= m then p else m - k;
    var c := Window(start, k);
    assert c[p - start] == p;
    CombinationsSpec(m, k);
    assert IsCombination(c, 0, m, k);
  }

  /** As written, every candidate of a swap round has all of the first m kept
      cameras swapped, whichever combination it stands for. */
  lemma AliasedRoundSwapsAll(xs: seq<real>, swapped: seq<real>, m: nat, k: nat)
    requires |swapped| == |xs| && 1 <= k <= m <= |xs|
    ensures AliasedSwap(xs, swapped, Combinations(m, k)) == Swap(xs, swapped, Range(m))
  {
    var swaps := Combinations(m, k);
    forall p | 0 <= p < |xs|
      ensures AliasedSwap(xs, swapped, swaps)[p] == Swap(xs, swapped, Range(m))[p]
    {
      AliasedSwapSpec(xs, swapped, swaps, p);
      if p < m {
        CoveredByCombination(m, k, p);
        assert Range(m)[p] == p;
      } else {
        forall c | c in swaps ensures p !in c {
          assert EntriesBelow(c, m);
        }
      }
    }
  }

  /** Three cameras, one swapped at a time, the error above the threshold:
      the swap loop runs (1 < 3 / 2), which it never does for two cameras.
      The round as written hands every candidate (4, 5, 6), while the
      combinations stand for (4, 2, 3), (1, 5, 3) and (1, 2, 6). */
  lemma AliasingCounterexample()
    ensures SwapContinues(SwapState(Inf, 1, 0, None), 3, 0.0)
    ensures !SwapContinues(SwapState(Inf, 1, 0, None), 2, 0.0)
    ensures Combinations(3, 1) == [[0], [1], [2]]
    ensures AliasedSwap([1.0, 2.0, 3.0], [4.0, 5.0, 6.0], Combinations(3, 1)) == [4.0, 5.0, 6.0]
    ensures Swap([1.0, 2.0, 3.0], [4.0, 5.0, 6.0], [0]) == [4.0, 2.0, 3.0]
    ensures Swap([1.0, 2.0, 3.0], [4.0, 5.0, 6.0], [1]) == [1.0, 5.0, 3.0]
    ensures Swap([1.0, 2.0, 3.0], [4.0, 5.0, 6.0], [2]) == [1.0, 2.0, 6.0]
  {
    assert Prepend(2, [[]])[0] == [2];
    assert Prepend(1, [[]])[0] == [1];
    assert Prepend(0, [[]])[0] == [0];
    assert CombinationsFrom(2, 3, 1) == [[2]];
    assert CombinationsFrom(1, 3, 1) == [[1], [2]];
    assert CombinationsFrom(0, 3, 1) == [[0], [1], [2]];
    AliasedRoundSwapsAll([1.0, 2.0, 3.0], [4.0, 5.0, 6.0], 3, 1);
    assert Swap([1.0, 2.0, 3.0], [4.0, 5.0, 6.0], Range(3)) == [4.0, 5.0, 6.0];
  }

  /** Two strictly increasing sequences with the same elements are equal. */
  lemma {:induction false} SortedSameElements(a: seq<nat>, b: seq<nat>)
    requires forall i, j :: 0 <= i < j < |a| ==> a[i] < a[j]
    requires forall i, j :: 0 <= i < j < |b| ==> b[i] < b[j]
    requires forall x :: x in a <==> x in b
    ensures a == b
    decreases |a|
  {
    assert b != [] ==> b[0] in b;
    if a != [] {
      assert a[0] in b && b != [] && b[0] in a;
      assert a[0] == b[0];
      var ta, tb := a[1..], b[1..];
      forall x ensures x in ta <==> x in tb {
        if x in ta {
          assert x in b && x != b[0];
        }
        if x in tb {
          assert x in a && x != a[0];
        }
      }
      SortedSameElements(ta, tb);
      assert a == [a[0]] + ta && b == [b[0]] + tb;
    }
  }

  lemma {:induction false} LexLessIrreflexive(a: seq<nat>)
    ensures !LexLess(a, a)
    decreases |a|
  {
    if |a| > 0 {
      LexLessIrreflexive(a[1..]);
    }
  }

  /** As intended, two different combinations of a round hand their candidates
      different coordinates, as soon as the swapped keypoint differs from the
      original at each of the first m kept cameras. */
  lemma SwapCandidatesDiffer(xs: seq<real>, swapped: seq<real>, m: nat, k: nat, j1: nat, j2: nat)
    requires |swapped| == |xs| && m <= |xs|
    requires forall p :: 0 <= p < m ==> xs[p] != swapped[p]
    requires j1 < j2 < |Combinations(m, k)|
    ensures Swap(xs, swapped, Combinations(m, k)[j1]) != Swap(xs, swapped, Combinations(m, k)[j2])
  {
    var swaps := Combinations(m, k);
    var c1, c2 := swaps[j1], swaps[j2];
    CombinationsSpec(m, k);
    assert LexLess(c1, c2);
    LexLessIrreflexive(c1);
    assert c1 in swaps && c2 in swaps;
    if forall x :: x in c1 <==> x in c2 {
      SortedSameElements(c1, c2);
    }
    var p :| (p in c1 && p !in c2) || (p in c2 && p !in c1);
    assert EntriesBelow(c1, m) && EntriesBelow(c2, m);
    assert p < m;
    assert Swap(xs, swapped, c1)[p] != Swap(xs, swapped, c2)[p];
  }

  // ---------------------------------------------------------------------------
  // The loops

  /** Copy the likelihood row once per combination and write NaN at the
      combination's cameras (the coordinate rows get the same NaN writes, but
      those positions are filtered out before use, so they are not kept here). */
  method BlankRows(l: seq<Likelihood>, combos: seq<seq<nat>>) returns (rows: seq<seq<Likelihood>>)
    requires AllEntriesBelow(combos, |l|)
    ensures rows == Rows(l, combos)
  {
    rows := [];
    for i := 0 to |combos|
      invariant |rows| == i && forall k :: 0 <= k < i ==> rows[k] == Blank(l, combos[k])
    {
      var c := combos[i];
      assert EntriesBelow(c, |l|);
      var row := l;
      for j := 0 to |c|
        invariant |row| == |l| && forall k :: 0 <= k < |l| ==> row[k] == if k in c[..j] then None else l[k]
      {
        assert forall x :: x in c[..j + 1] <==> x in c[..j] || x == c[j];
        row := row[c[j] := None];
      }
      assert c[..|c|] == c;
      rows := rows + [row];
    }
  }

  /** Q_filt and the error loop: one candidate per row, in order. */
  method LevelCandidates(kern: Kernels, kp: Keypoint, rows: seq<seq<Likelihood>>) returns (cands: seq<Candidate>)
    requires WellFormed(kp) && RowsFit(kp, rows, 0)
    ensures cands == Candidates(kern, kp, rows)
  {
    cands := [];
    for i := 0 to |rows|
      invariant cands == Candidates(kern, kp, rows)[..i]
    {
      var c := CandidateOf(kern, kp, rows[i], [], |KeptPositions(rows[i])|);
      assert c == Candidates(kern, kp, rows)[i];
      cands := cands + [c];
    }
    assert Candidates(kern, kp, rows)[..|rows|] == Candidates(kern, kp, rows);
  }

  /** The inner loop of one swap round. */
  method SwapLine(kern: Kernels, kp: Keypoint, row: seq<Likelihood>, m: nat, swaps: seq<seq<nat>>)
    returns (line: seq<Candidate>)
    requires WellFormed(kp) && |row| == |kp.x| && CountExcluded(row) + m <= |row|
    ensures line == SwapRow(kern, kp, row, m, swaps)
  {
    line := [];
    for idSwapped := 0 to |swaps|
      invariant line == SwapRow(kern, kp, row, m, swaps)[..idSwapped]
    {
      var c := CandidateOf(kern, kp, row, swaps[idSwapped], m);
      assert c == SwapRow(kern, kp, row, m, swaps)[idSwapped];
      line := line + [c];
    }
    assert SwapRow(kern, kp, row, m, swaps)[..|swaps|] == SwapRow(kern, kp, row, m, swaps);
  }

  /** The outer loop of one swap round: the candidates row by row. */
  method SwapTable(kern: Kernels, kp: Keypoint, rows: seq<seq<Likelihood>>, m: nat, swaps: seq<seq<nat>>)
    returns (grid: seq<seq<Candidate>>)
    requires WellFormed(kp) && RowsFit(kp, rows, m)
    ensures grid == SwapGrid(kern, kp, rows, m, swaps)
  {
    grid := [];
    for idOff := 0 to |rows|
      invariant grid == SwapGrid(kern, kp, rows, m, swaps)[..idOff]
    {
      var line := SwapLine(kern, kp, rows[idOff], m, swaps);
      assert line == SwapGrid(kern, kp, rows, m, swaps)[idOff];
      grid := grid + [line];
    }
    assert SwapGrid(kern, kp, rows, m, swaps)[..|rows|] == SwapGrid(kern, kp, rows, m, swaps);
  }

  /** One round of the swap loop: the error array, then its first minimum. */
  method SwapRoundLoop(kern: Kernels, kp: Keypoint, rows: seq<seq<Likelihood>>, m: nat, nSwapped: nat)
    returns (r: SwapState)
    requires WellFormed(kp) && RowsFit(kp, rows, m) && |rows| > 0 && nSwapped <= m
    ensures r == SwapRound(kern, kp, rows, m, nSwapped)
  {
    var swaps := Combinations(m, nSwapped);
    CombinationsNonEmpty(m, nSwapped);
    var grid := SwapTable(kern, kp, rows, m, swaps);
    var errors := GridErrors(grid);
    var b := GridArgMin(errors);
    r := SwapState(errors[b.0][b.1], nSwapped + 1, b.0, grid[b.0][b.1].point);
  }

  /** The swap loop, from one swapped camera and the level's error. */
  method SwapSearchLoop(kern: Kernels, kp: Keypoint, rows: seq<seq<Likelihood>>, m: nat, threshold: real,
                        errorMin: ExtReal) returns (r: SwapState)
    requires WellFormed(kp) && RowsFit(kp, rows, m) && |rows| > 0
    ensures r == SwapSearch(kern, kp, rows, m, threshold, SwapState(errorMin, 1, 0, None))
  {
    r := SwapState(errorMin, 1, 0, None);
    while SwapContinues(r, m, threshold)
      invariant SwapSearch(kern, kp, rows, m, threshold, r)
             == SwapSearch(kern, kp, rows, m, threshold, SwapState(errorMin, 1, 0, None))
      decreases m - r.nSwapped
    {
      r := SwapRoundLoop(kern, kp, rows, m, r.nSwapped);
    }
  }

  /** The swap stage of one level. */
  method SwapStage(kern: Kernels, kp: Keypoint, s: Settings, rows: seq<seq<Likelihood>>, m: nat, st: State)
    returns (r: State)
    requires WellFormed(kp) && RowsFit(kp, rows, m) && |rows| > 0
    ensures r == AfterSwap(kern, kp, s, rows, m, st)
  {
    r := st;
    if s.handleSwap && Above(st.errorMin, s.threshold) {
      var sw := SwapSearchLoop(kern, kp, rows, m, s.threshold, st.errorMin);
      if Lt(sw.errorMin, st.errorMin) {
        r := st.(errorMin := sw.errorMin, best := Some(sw.idOff), point := sw.point);
      }
    }
  }

  /** One pass of the cameras-off loop's body. */
  method LoopBody(kern: Kernels, kp: Keypoint, s: Settings, st: State) returns (o: Outcome)
    requires WellFormed(kp) && st.nbCamsOff <= |kp.x|
    ensures o == Step(kern, kp, s, st)
  {
    var rows := BlankRows(kp.likelihood, Combinations(|kp.x|, st.nbCamsOff));
    assert rows == LevelRows(kp, st.nbCamsOff);
    var worst := MaxOf(ExcludedCounts(rows));
    o := BreakOrEvaluate(kern, kp, s, rows, worst, st.nbCamsOff);
  }

  /** The break test, then the rest of the body. */
  method BreakOrEvaluate(kern: Kernels, kp: Keypoint, s: Settings, rows: seq<seq<Likelihood>>, worst: nat, nbCamsOff: nat)
    returns (o: Outcome)
    requires WellFormed(kp) && |rows| > 0 && forall i :: 0 <= i < |rows| ==> |rows[i]| == |kp.x|
    requires forall i :: 0 <= i < |rows| ==> CountExcluded(rows[i]) <= worst
    ensures o == StepAt(kern, kp, s, rows, worst, nbCamsOff)
  {
    if worst > |kp.x| - s.minCameras {
      return Stop;
    }
    o := LevelLoop(kern, kp, s, rows, |kp.x| - worst, nbCamsOff);
  }

  /** The loop body after the break test: evaluate the level, take its first
      minimum, run the swap stage. */
  method LevelLoop(kern: Kernels, kp: Keypoint, s: Settings, rows: seq<seq<Likelihood>>, m: nat, nbCamsOff: nat)
    returns (o: Outcome)
    requires WellFormed(kp) && RowsFit(kp, rows, m) && RowsFit(kp, rows, 0) && |rows| > 0
    ensures o == LevelPass(kern, kp, s, rows, m, nbCamsOff)
  {
    var cands := LevelCandidates(kern, kp, rows);
    if AllNaN(cands) {
      return AllNaNSlice;
    }
    var errors := Errors(cands);
    var b := FirstMin(errors);
    var level := State(errors[b], nbCamsOff, Some(b), CountExcluded(rows[b]), cands[b].point, NaNPositionsOf(rows));
    assert level == LevelBest(kern, kp, rows, nbCamsOff);
    var after := SwapStage(kern, kp, s, rows, m, level);
    o := Next(after.(nbCamsOff := nbCamsOff + 1));
  }

  /** triangulation_from_best_cameras: the while loop over nb_cams_off, then the
      bookkeeping and the NaN policy. */
  method TriangulationFromBestCameras(kern: Kernels, kp: Keypoint, s: Settings) returns (r: Result<Output, string>)
    requires WellFormed(kp)
    ensures r == BestCamerasSpec(kern, kp, s)
  {
    var n := |kp.x|;
    var st := Start;
    while Continues(n, s, st)
      invariant Search(kern, kp, s, st) == Search(kern, kp, s, Start)
      decreases n + 1 - st.nbCamsOff
    {
      var o := LoopBody(kern, kp, s, st);
      match o
      case Stop =>
        break;
      case AllNaNSlice =>
        return Err("All-NaN slice encountered");
      case Next(next) =>
        st := next;
    }
    r := Ok(Finish(n, s, st));
  }
}
