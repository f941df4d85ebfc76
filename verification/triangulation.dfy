/** The camera-subset triangulation search of `core/triangulation.py`.

    The numeric kernels of OpenCV (Rodrigues, the SVD of the linear system) and
    the square root stay uninterpreted: they are fields of `Kernels`. Everything
    else — the filter, the linear system, reprojection, the distance and its
    NaN rule, the level-by-level search, its tie-break and its threshold
    policy — is modelled. */
module Triangulation {
  import opened Common
  import opened Combinatorics

  type Matrix = seq<seq<real>>

  datatype Point3 = Point3(x: real, y: real, z: real)

  /** A camera's calibration entry: intrinsic matrix, axis-angle rotation, translation. */
  datatype CameraCalib = CameraCalib(matrix: Matrix, rotation: seq<real>, translation: seq<real>)

  /** One 2D detection: (x, y, quality). */
  datatype Observation = Observation(x: real, y: real, quality: real)

  /** The numeric kernels the model does not interpret. `svdSolve` is the
      right-singular vector of the smallest singular value, dehomogenised;
      None when that point has a NaN component. */
  datatype Kernels = Kernels(
    rodrigues: seq<real> -> Matrix,
    svdSolve: seq<seq<real>> -> Option<Point3>,
    sqrt: real -> real)

  /** The result of triangulating one point in one frame. */
  datatype TriangulationOutput = TriangulationOutput(
    point3d: Point3, contributingCameras: seq<string>, reprojectionError: ExtReal)

  /** Matrix entry, reading 0 outside the matrix (a malformed calibration is the caller's fault). */
  function At(m: Matrix, i: nat, j: nat): real
  {
    if i < |m| && j < |m[i]| then m[i][j] else 0.0
  }

  function Entry(v: seq<real>, i: nat): real
  {
    if i < |v| then v[i] else 0.0
  }

  /** Entry (m, j) of the 3x4 matrix [R | t]. */
  function RtAt(r: Matrix, t: seq<real>, m: nat, j: nat): real
  {
    if j < 3 then At(r, m, j) else Entry(t, m)
  }

  predicate IsProjection(p: Matrix)
  {
    |p| == 3 && forall i :: 0 <= i < 3 ==> |p[i]| == 4
  }

  /** P = K [R | t] with R = Rodrigues(rotation). */
  function ProjectionMatrix(kern: Kernels, c: CameraCalib): (p: Matrix)
    ensures IsProjection(p)
  {
    var r := kern.rodrigues(c.rotation);
    var k := c.matrix;
    seq(3, i requires 0 <= i < 3 => seq(4, j requires 0 <= j < 4 =>
      At(k, i, 0) * RtAt(r, c.translation, 0, j)
      + At(k, i, 1) * RtAt(r, c.translation, 1, j)
      + At(k, i, 2) * RtAt(r, c.translation, 2, j)))
  }

  /** Row r of P applied to the homogeneous point (x, y, z, 1). */
  function ApplyRow(p: Matrix, r: nat, q: Point3): real
  {
    At(p, r, 0) * q.x + At(p, r, 1) * q.y + At(p, r, 2) * q.z + At(p, r, 3)
  }

  /** Component m of R X + t: the point in the camera's frame. */
  function CameraFrame(r: Matrix, t: seq<real>, m: nat, q: Point3): real
  {
    At(r, m, 0) * q.x + At(r, m, 1) * q.y + At(r, m, 2) * q.z + Entry(t, m)
  }

  /** The projection matrix is the pinhole model: P (X, 1) = K (R X + t). */
  lemma ProjectionIsPinhole(kern: Kernels, c: CameraCalib, q: Point3, i: nat)
    requires i < 3
    ensures var r := kern.rodrigues(c.rotation);
      ApplyRow(ProjectionMatrix(kern, c), i, q)
      == At(c.matrix, i, 0) * CameraFrame(r, c.translation, 0, q)
       + At(c.matrix, i, 1) * CameraFrame(r, c.translation, 1, q)
       + At(c.matrix, i, 2) * CameraFrame(r, c.translation, 2, q)
  {
    var r := kern.rodrigues(c.rotation);
    var p := ProjectionMatrix(kern, c);
    var t := c.translation;
    var k0, k1, k2 := At(c.matrix, i, 0), At(c.matrix, i, 1), At(c.matrix, i, 2);
    ProjectionEntry(kern, c, i, 0);
    ProjectionEntry(kern, c, i, 1);
    ProjectionEntry(kern, c, i, 2);
    ProjectionEntry(kern, c, i, 3);
    assert RtAt(r, t, 0, 3) == Entry(t, 0) && RtAt(r, t, 1, 3) == Entry(t, 1) && RtAt(r, t, 2, 3) == Entry(t, 2);
    Regroup(k0, k1, k2, At(r, 0, 0), At(r, 0, 1), At(r, 0, 2), At(r, 1, 0), At(r, 1, 1), At(r, 1, 2),
            At(r, 2, 0), At(r, 2, 1), At(r, 2, 2), Entry(t, 0), Entry(t, 1), Entry(t, 2), q.x, q.y, q.z);
  }

  lemma ProjectionEntry(kern: Kernels, c: CameraCalib, i: nat, j: nat)
    requires i < 3 && j < 4
    ensures var r := kern.rodrigues(c.rotation);
      At(ProjectionMatrix(kern, c), i, j)
      == At(c.matrix, i, 0) * RtAt(r, c.translation, 0, j)
       + At(c.matrix, i, 1) * RtAt(r, c.translation, 1, j)
       + At(c.matrix, i, 2) * RtAt(r, c.translation, 2, j)
  {
  }

  /** (K [R | t]) X = K (R X + t), written out for one row of K. */
  lemma Regroup(k0: real, k1: real, k2: real, r00: real, r01: real, r02: real, r10: real, r11: real, r12: real,
                r20: real, r21: real, r22: real, t0: real, t1: real, t2: real, x: real, y: real, z: real)
    ensures (k0 * r00 + k1 * r10 + k2 * r20) * x + (k0 * r01 + k1 * r11 + k2 * r21) * y
          + (k0 * r02 + k1 * r12 + k2 * r22) * z + (k0 * t0 + k1 * t1 + k2 * t2)
         == k0 * (r00 * x + r01 * y + r02 * z + t0) + k1 * (r10 * x + r11 * y + r12 * z + t1)
          + k2 * (r20 * x + r21 * y + r22 * z + t2)
  {
  }

  // ---------------------------------------------------------------------------
  // Weighted linear triangulation

  /** w (P[r] - coord P[2]): one row of the weighted DLT system. */
  function DltRow(p: Matrix, r: nat, coord: real, w: real): seq<real>
  {
    seq(4, j requires 0 <= j < 4 => (At(p, r, j) - coord * At(p, 2, j)) * w)
  }

  /** The system A grown two rows per camera, cameras in order. */
  function DltSystem(ps: seq<Matrix>, xs: seq<real>, ys: seq<real>, ws: seq<real>): (a: seq<seq<real>>)
    requires |ps| == |xs| == |ys| == |ws|
    ensures |a| == 2 * |xs|
  {
    if |xs| == 0 then []
    else
      var n := |xs| - 1;
      DltSystem(ps[..n], xs[..n], ys[..n], ws[..n])
        + [DltRow(ps[n], 0, xs[n], ws[n]), DltRow(ps[n], 1, ys[n], ws[n])]
  }

  /** weighted_triangulation: the SVD solution when A has at least 4 rows, else the NaN point. */
  function Triangulated(kern: Kernels, ps: seq<Matrix>, xs: seq<real>, ys: seq<real>, ws: seq<real>): (q: Option<Point3>)
    requires |ps| == |xs| == |ys| == |ws|
    ensures q.Some? ==> |xs| >= 2
    ensures |xs| < 2 ==> q == None
    ensures |xs| >= 2 ==> q == kern.svdSolve(DltSystem(ps, xs, ys, ws))
  {
    var a := DltSystem(ps, xs, ys, ws);
    if |a| >= 4 then kern.svdSolve(a) else None
  }

  method BuildDltSystem(ps: seq<Matrix>, xs: seq<real>, ys: seq<real>, ws: seq<real>) returns (a: seq<seq<real>>)
    requires |ps| == |xs| == |ys| == |ws|
    ensures a == DltSystem(ps, xs, ys, ws)
  {
    a := [];
    for c := 0 to |xs|
      invariant a == DltSystem(ps[..c], xs[..c], ys[..c], ws[..c])
    {
      assert ps[..c + 1][..c] == ps[..c] && xs[..c + 1][..c] == xs[..c];
      assert ys[..c + 1][..c] == ys[..c] && ws[..c + 1][..c] == ws[..c];
      a := a + [DltRow(ps[c], 0, xs[c], ws[c])];
      a := a + [DltRow(ps[c], 1, ys[c], ws[c])];
    }
    assert ps[..|xs|] == ps && xs[..|xs|] == xs && ys[..|xs|] == ys && ws[..|xs|] == ws;
  }

  method WeightedTriangulation(kern: Kernels, ps: seq<Matrix>, xs: seq<real>, ys: seq<real>, ws: seq<real>)
    returns (q: Option<Point3>)
    requires |ps| == |xs| == |ys| == |ws|
    ensures q == Triangulated(kern, ps, xs, ys, ws)
  {
    var a := BuildDltSystem(ps, xs, ys, ws);
    if |a| >= 4 {
      q := kern.svdSolve(a);
    } else {
      q := None;
    }
  }

  // ---------------------------------------------------------------------------
  // Reprojection and the error metric

  /** reprojection for one camera: (P[0] Q / P[2] Q, P[1] Q / P[2] Q). */
  function Reproject(p: Matrix, q: Point3): (xy: (Num, Num))
    ensures ApplyRow(p, 2, q) != 0.0 ==>
      xy == (Real(ApplyRow(p, 0, q) / ApplyRow(p, 2, q)), Real(ApplyRow(p, 1, q) / ApplyRow(p, 2, q)))
  {
    (Div(ApplyRow(p, 0, q), ApplyRow(p, 2, q)), Div(ApplyRow(p, 1, q), ApplyRow(p, 2, q)))
  }

  predicate IsInfinite(v: Num)
  {
    v.PosInf? || v.NegInf?
  }

  /** np.nansum of the squares: NaN entries are skipped, an infinite entry makes it +inf. */
  function NanSumSquares(d: seq<Num>): (s: ExtReal)
    ensures s.Inf? <==> exists i :: 0 <= i < |d| && IsInfinite(d[i])
    ensures s.Fin? ==> s.r >= 0.0
  {
    if |d| == 0 then Fin(0.0)
    else
      var rest := NanSumSquares(d[..|d| - 1]);
      var last := d[|d| - 1];
      assert forall i :: 0 <= i < |d| - 1 ==> d[..|d| - 1][i] == d[i];
      match last
      case NaN => rest
      case PosInf => Inf
      case NegInf => Inf
      case Real(v) => if rest.Inf? then Inf else Fin(rest.r + v * v)
  }

  predicate AllNaN(d: seq<Num>)
  {
    forall i :: 0 <= i < |d| ==> d[i].NaN?
  }

  /** q2 - q1, componentwise. */
  function Diff(q1: seq<Num>, q2: seq<Num>): (d: seq<Num>)
    requires |q1| == |q2|
    ensures |d| == |q1| && forall i :: 0 <= i < |d| ==> d[i] == Sub(q2[i], q1[i])
  {
    seq(|q1|, i requires 0 <= i < |q1| => Sub(q2[i], q1[i]))
  }

  /** euclidean_distance(q1, q2) on vectors: sqrt of the nansum of squared
      differences, except that an all-NaN difference counts as +inf. */
  function EuclideanDistance(kern: Kernels, q1: seq<Num>, q2: seq<Num>): (e: ExtReal)
    requires |q1| == |q2|
    ensures e.Inf? <==> (|q1| > 0 && AllNaN(Diff(q1, q2)))
                        || exists i :: 0 <= i < |q1| && IsInfinite(Diff(q1, q2)[i])
    ensures e.Fin? && |q1| > 0 ==> exists s :: s >= 0.0 && e == Fin(kern.sqrt(s))
  {
    var d := Diff(q1, q2);
    if AllNaN(d) && |d| > 0 then Inf
    else if |d| == 0 then Fin(kern.sqrt(0.0))
    else
      match NanSumSquares(d)
      case Inf => Inf
      case Fin(s) => Fin(kern.sqrt(s))
  }

  /** An all-NaN reprojection is never mistaken for a zero error. */
  lemma NaNReprojectionIsInfinite(kern: Kernels, x: real, y: real)
    ensures EuclideanDistance(kern, [Real(x), Real(y)], [NaN, NaN]) == Inf
  {
    var d := Diff([Real(x), Real(y)], [NaN, NaN]);
    assert d[0] == NaN && d[1] == NaN;
  }

  /** A NaN coordinate alone is skipped: the distance is the other coordinate's. */
  lemma NaNCoordinateIsSkipped(kern: Kernels, x: real, y: real, yc: real)
    ensures EuclideanDistance(kern, [Real(x), Real(y)], [NaN, Real(yc)])
         == Fin(kern.sqrt((yc - y) * (yc - y)))
  {
    var d := Diff([Real(x), Real(y)], [NaN, Real(yc)]);
    assert d == [NaN, Real(yc - y)];
    assert !d[1].NaN?;
    assert d[..1] == [NaN];
    assert [NaN][..0] == [];
    assert NanSumSquares(d[..1]) == NanSumSquares([]) == Fin(0.0);
    assert NanSumSquares(d) == Fin(0.0 + (yc - y) * (yc - y));
  }

  function SumFinite(es: seq<ExtReal>): real
    requires forall i :: 0 <= i < |es| ==> es[i].Fin?
  {
    if |es| == 0 then 0.0 else SumFinite(es[..|es| - 1]) + es[|es| - 1].r
  }

  lemma {:induction false} SumBounds(es: seq<ExtReal>, lo: real, hi: real)
    requires forall i :: 0 <= i < |es| ==> es[i].Fin? && lo <= es[i].r <= hi
    ensures |es| as real * lo <= SumFinite(es) <= |es| as real * hi
  {
    if |es| > 0 {
      var init := es[..|es| - 1];
      assert forall i :: 0 <= i < |init| ==> init[i] == es[i];
      SumBounds(init, lo, hi);
    }
  }

  /** np.mean of per-camera errors: +inf as soon as one error is +inf. */
  function Mean(es: seq<ExtReal>): (m: ExtReal)
    requires |es| > 0
    ensures m.Inf? <==> exists i :: 0 <= i < |es| && es[i].Inf?
  {
    if exists i :: 0 <= i < |es| && es[i].Inf? then Inf
    else Fin(SumFinite(es) / |es| as real)
  }

  lemma DivideBounds(s: real, n: real, lo: real, hi: real)
    requires n > 0.0 && n * lo <= s <= n * hi
    ensures lo <= s / n <= hi
  {
    assert s / n - lo == (s - n * lo) / n;
    assert hi - s / n == (n * hi - s) / n;
  }

  /** The mean lies between the smallest and the largest error. */
  lemma MeanBetween(es: seq<ExtReal>, lo: real, hi: real)
    requires |es| > 0
    requires forall i :: 0 <= i < |es| ==> es[i].Fin? && lo <= es[i].r <= hi
    ensures Mean(es).Fin? && lo <= Mean(es).r <= hi
  {
    SumBounds(es, lo, hi);
    var n := |es| as real;
    var s := SumFinite(es);
    assert Mean(es) == Fin(s / n);
    DivideBounds(s, n, lo, hi);
  }

  // ---------------------------------------------------------------------------
  // Cameras taking part

  /** A camera that passed the filter, with its projection matrix. */
  datatype Camera = Camera(name: string, obs: Observation, proj: Matrix)

  predicate Usable(p: (string, Observation), calib: map<string, CameraCalib>, minQuality: real)
  {
    p.0 in calib && p.1.quality >= minQuality
  }

  /** The observations that have a calibration entry and quality >= min_quality, in input order. */
  function UsableCameras(kern: Kernels, points: seq<(string, Observation)>, calib: map<string, CameraCalib>,
                         minQuality: real): (cams: seq<Camera>)
    ensures |cams| <= |points|
    ensures forall i :: 0 <= i < |cams| ==> cams[i].name in calib && cams[i].obs.quality >= minQuality
  {
    if |points| == 0 then []
    else
      var p := points[|points| - 1];
      var rest := UsableCameras(kern, points[..|points| - 1], calib, minQuality);
      if Usable(p, calib, minQuality) then rest + [Camera(p.0, p.1, ProjectionMatrix(kern, calib[p.0]))]
      else rest
  }

  /** A camera takes part exactly when it is calibrated and its quality reaches the minimum. */
  lemma {:induction false} UsableCamerasSpec(kern: Kernels, points: seq<(string, Observation)>,
                                             calib: map<string, CameraCalib>, minQuality: real)
    ensures |UsableCameras(kern, points, calib, minQuality)| <= |points|
    ensures forall c :: c in UsableCameras(kern, points, calib, minQuality) ==>
      (c.name, c.obs) in points && Usable((c.name, c.obs), calib, minQuality)
      && c.proj == ProjectionMatrix(kern, calib[c.name])
    ensures forall p :: p in points && Usable(p, calib, minQuality) ==>
      Camera(p.0, p.1, ProjectionMatrix(kern, calib[p.0])) in UsableCameras(kern, points, calib, minQuality)
  {
    if |points| > 0 {
      var init := points[..|points| - 1];
      assert forall q :: q in points ==> q in init || q == points[|points| - 1];
      assert forall q :: q in init ==> q in points;
      UsableCamerasSpec(kern, init, calib, minQuality);
    }
  }

  // ---------------------------------------------------------------------------
  // Candidate subsets

  /** A triangulated candidate: the kept indices, the point and its mean error. */
  datatype Config = Config(indices: seq<nat>, point: Point3, error: ExtReal)

  function Projs(sub: seq<Camera>): seq<Matrix> { seq(|sub|, i requires 0 <= i < |sub| => sub[i].proj) }
  function Xs(sub: seq<Camera>): seq<real> { seq(|sub|, i requires 0 <= i < |sub| => sub[i].obs.x) }
  function Ys(sub: seq<Camera>): seq<real> { seq(|sub|, i requires 0 <= i < |sub| => sub[i].obs.y) }
  function Qualities(sub: seq<Camera>): seq<real> { seq(|sub|, i requires 0 <= i < |sub| => sub[i].obs.quality) }

  /** The distance between camera c's observation and the reprojection of q. */
  function CameraError(kern: Kernels, c: Camera, q: Point3): ExtReal
  {
    var xy := Reproject(c.proj, q);
    EuclideanDistance(kern, [Real(c.obs.x), Real(c.obs.y)], [xy.0, xy.1])
  }

  /** The mean reprojection error of q over the cameras of sub. */
  function SubsetError(kern: Kernels, sub: seq<Camera>, q: Point3): ExtReal
    requires |sub| > 0
  {
    Mean(seq(|sub|, i requires 0 <= i < |sub| => CameraError(kern, sub[i], q)))
  }

  /** One combination: skipped (None) when it is empty or its triangulation is NaN. */
  function Evaluate(kern: Kernels, cams: seq<Camera>, idx: seq<nat>): (r: Option<Config>)
    requires EntriesBelow(idx, |cams|)
    ensures r.Some? ==> r.value.indices == idx && |idx| >= 2
  {
    if idx == [] then None
    else
      var sub := Gather(cams, idx);
      match Triangulated(kern, Projs(sub), Xs(sub), Ys(sub), Qualities(sub))
      case None => None
      case Some(q) => Some(Config(idx, q, SubsetError(kern, sub, q)))
  }

  /** The candidates of one level: the defined configurations, in enumeration order. */
  function LevelConfigs(kern: Kernels, cams: seq<Camera>, combos: seq<seq<nat>>): (cs: seq<Config>)
    requires AllEntriesBelow(combos, |cams|)
  {
    if |combos| == 0 then []
    else
      var init := combos[..|combos| - 1];
      var rest := LevelConfigs(kern, cams, init);
      match Evaluate(kern, cams, combos[|combos| - 1])
      case None => rest
      case Some(c) => rest + [c]
  }

  /** A level holds exactly the defined evaluations of its combinations (one direction here,
      the other in LevelContains). */
  lemma {:induction false} LevelConfigsSound(kern: Kernels, cams: seq<Camera>, combos: seq<seq<nat>>)
    requires AllEntriesBelow(combos, |cams|)
    ensures forall c :: c in LevelConfigs(kern, cams, combos) ==>
      c.indices in combos && Evaluate(kern, cams, c.indices) == Some(c)
  {
    if |combos| > 0 {
      var init := combos[..|combos| - 1];
      assert AllEntriesBelow(init, |cams|);
      LevelConfigsSound(kern, cams, init);
      assert forall x :: x in init ==> x in combos;
    }
  }

  /** np.argmin over the errors: the first position of the smallest error. */
  function FirstMinIndex(cs: seq<Config>): (i: nat)
    requires |cs| > 0
    ensures i < |cs|
    ensures forall j :: 0 <= j < |cs| ==> Le(cs[i].error, cs[j].error)
    ensures forall j :: 0 <= j < i ==> Lt(cs[i].error, cs[j].error)
  {
    if |cs| == 1 then 0
    else
      var k := FirstMinIndex(cs[..|cs| - 1]);
      assert forall j :: 0 <= j < |cs| - 1 ==> cs[..|cs| - 1][j] == cs[j];
      if Lt(cs[|cs| - 1].error, cs[k].error) then |cs| - 1 else k
  }

  /** The candidates with nbCamsOff cameras removed: combinations of n - nbCamsOff kept indices. */
  function Level(kern: Kernels, cams: seq<Camera>, nbCamsOff: nat): (cs: seq<Config>)
    requires nbCamsOff <= |cams|
  {
    LevelConfigs(kern, cams, Combinations(|cams|, |cams| - nbCamsOff))
  }

  /** Each candidate of a level is the defined evaluation of one of its combinations. */
  lemma LevelMember(kern: Kernels, cams: seq<Camera>, nbCamsOff: nat, c: Config)
    requires nbCamsOff <= |cams| && c in Level(kern, cams, nbCamsOff)
    ensures IsCombination(c.indices, 0, |cams|, |cams| - nbCamsOff)
    ensures Evaluate(kern, cams, c.indices) == Some(c)
  {
    var k := |cams| - nbCamsOff;
    LevelConfigsSound(kern, cams, Combinations(|cams|, k));
    CombinationMember(|cams|, k, c.indices);
  }

  lemma CombinationMember(n: nat, k: nat, c: seq<nat>)
    requires c in Combinations(n, k)
    ensures IsCombination(c, 0, n, k)
  {
    CombinationsSound(0, n, k);
  }

  /** The levels the search may visit, from no camera removed down to minCameras kept. */
  function Levels(kern: Kernels, cams: seq<Camera>, minCameras: nat): (ls: seq<seq<Config>>)
    ensures |ls| == if |cams| >= minCameras then |cams| - minCameras + 1 else 0
    ensures forall o :: 0 <= o < |ls| ==> ls[o] == Level(kern, cams, o)
  {
    if |cams| >= minCameras then seq(|cams| - minCameras + 1, o requires 0 <= o <= |cams| - minCameras => Level(kern, cams, o))
    else []
  }

  // ---------------------------------------------------------------------------
  // The search

  datatype SearchState = SearchState(errorMin: ExtReal, best: Option<Config>)

  const Start := SearchState(Inf, None)

  /** After one level: its first minimum replaces the best only when strictly smaller. */
  function Improve(level: seq<Config>, st: SearchState): (r: SearchState)
    requires level != []
    ensures Lt(r.errorMin, st.errorMin) ==> r.best.Some? && r.best.value in level && r.best.value.error == r.errorMin
    ensures !Lt(r.errorMin, st.errorMin) ==> r == st
    ensures forall c :: c in level ==> Le(r.errorMin, c.error)
  {
    var i := FirstMinIndex(level);
    if Lt(level[i].error, st.errorMin) then SearchState(level[i].error, Some(level[i])) else st
  }

  /** The state after the level loop, from level `off` on: skip a level with no defined
      candidate, otherwise keep its first minimum if it beats the best so far, and stop
      once the best is strictly below the threshold or the levels run out. */
  function Search(levels: seq<seq<Config>>, threshold: real, off: nat, st: SearchState): SearchState
    decreases |levels| - off
  {
    if off >= |levels| then st
    else if levels[off] == [] then Search(levels, threshold, off + 1, st)
    else
      var st' := Improve(levels[off], st);
      if Below(st'.errorMin, threshold) then st'
      else Search(levels, threshold, off + 1, st')
  }

  /** One turn of the level loop. */
  lemma SearchStep(levels: seq<seq<Config>>, threshold: real, off: nat, st: SearchState)
    requires off < |levels|
    ensures levels[off] == [] ==> Search(levels, threshold, off, st) == Search(levels, threshold, off + 1, st)
    ensures levels[off] != [] && Below(Improve(levels[off], st).errorMin, threshold) ==>
      Search(levels, threshold, off, st) == Improve(levels[off], st)
    ensures levels[off] != [] && !Below(Improve(levels[off], st).errorMin, threshold) ==>
      Search(levels, threshold, off, st) == Search(levels, threshold, off + 1, Improve(levels[off], st))
  {
  }

  /** The candidates the search evaluates from level `off` on, in evaluation order. */
  function Enumerated(levels: seq<seq<Config>>, threshold: real, off: nat, st: SearchState): seq<Config>
    decreases |levels| - off
  {
    if off >= |levels| then []
    else if levels[off] == [] then Enumerated(levels, threshold, off + 1, st)
    else
      var st' := Improve(levels[off], st);
      if Below(st'.errorMin, threshold) then levels[off]
      else levels[off] + Enumerated(levels, threshold, off + 1, st')
  }

  predicate Consistent(st: SearchState)
  {
    st.best.Some? ==> st.best.value.error == st.errorMin
  }

  /** The search keeps the first strict minimum of everything it evaluates:
      nothing evaluated is better than the result, and everything evaluated
      before the winner is strictly worse. */
  lemma {:induction false} SearchKeepsFirstMinimum(levels: seq<seq<Config>>, threshold: real, off: nat, st: SearchState)
    requires Consistent(st)
    ensures var r := Search(levels, threshold, off, st);
      var e := Enumerated(levels, threshold, off, st);
      && Consistent(r)
      && Le(r.errorMin, st.errorMin)
      && (forall c :: c in e ==> Le(r.errorMin, c.error))
      && (!Lt(r.errorMin, st.errorMin) ==> r == st)
      && (Lt(r.errorMin, st.errorMin) ==>
            (r.best.Some? && exists i :: (0 <= i < |e| && e[i] == r.best.value
              && forall j :: 0 <= j < i ==> Lt(r.errorMin, e[j].error))))
    decreases |levels| - off
  {
    if off < |levels| {
      var level := levels[off];
      if level == [] {
        assert Search(levels, threshold, off, st) == Search(levels, threshold, off + 1, st);
        assert Enumerated(levels, threshold, off, st) == Enumerated(levels, threshold, off + 1, st);
        SearchKeepsFirstMinimum(levels, threshold, off + 1, st);
      } else {
        var st' := Improve(level, st);
        var i := FirstMinIndex(level);
        if Lt(st'.errorMin, st.errorMin) {
          assert st'.best.value == level[i];
        }
        if Below(st'.errorMin, threshold) {
          if Lt(st'.errorMin, st.errorMin) {
            assert level[i] == st'.best.value;
          }
        } else {
          var rest := Enumerated(levels, threshold, off + 1, st');
          var r := Search(levels, threshold, off + 1, st');
          SearchKeepsFirstMinimum(levels, threshold, off + 1, st');
          var e := level + rest;
          assert forall c :: c in e ==> c in level || c in rest;
          if Lt(r.errorMin, st'.errorMin) {
            var k :| 0 <= k < |rest| && rest[k] == r.best.value
              && forall j :: 0 <= j < k ==> Lt(r.errorMin, rest[j].error);
            assert e[|level| + k] == r.best.value;
            forall j | 0 <= j < |level| + k ensures Lt(r.errorMin, e[j].error) {
              if j < |level| {
                assert e[j] in level;
              } else {
                assert e[j] == rest[j - |level|];
              }
            }
          } else if Lt(st'.errorMin, st.errorMin) {
            assert e[i] == r.best.value;
          }
        }
      }
    }
  }

  /** When the early exit never fired, every level from `off` on was searched in full. */
  lemma {:induction false} SearchExhaustiveWithoutEarlyExit(levels: seq<seq<Config>>, threshold: real,
                                                            off: nat, st: SearchState)
    ensures !Below(Search(levels, threshold, off, st).errorMin, threshold) ==>
      forall o, c :: off <= o < |levels| && c in levels[o] ==> c in Enumerated(levels, threshold, off, st)
    decreases |levels| - off
  {
    if off < |levels| {
      var level := levels[off];
      if level == [] {
        assert Search(levels, threshold, off, st) == Search(levels, threshold, off + 1, st);
        assert Enumerated(levels, threshold, off, st) == Enumerated(levels, threshold, off + 1, st);
        SearchExhaustiveWithoutEarlyExit(levels, threshold, off + 1, st);
      } else if !Below(Improve(level, st).errorMin, threshold) {
        var st' := Improve(level, st);
        assert Search(levels, threshold, off, st) == Search(levels, threshold, off + 1, st');
        var rest := Enumerated(levels, threshold, off + 1, st');
        assert Enumerated(levels, threshold, off, st) == level + rest;
        SearchExhaustiveWithoutEarlyExit(levels, threshold, off + 1, st');
        if !Below(Search(levels, threshold, off, st).errorMin, threshold) {
          forall o, c | off <= o < |levels| && c in levels[o]
            ensures c in Enumerated(levels, threshold, off, st)
          {
            if o == off {
              assert c in level;
            } else {
              assert c in rest;
            }
          }
        }
      }
    }
  }

  /** Everything evaluated comes from one of the levels from `off` on. */
  lemma {:induction false} EnumeratedFromLevels(levels: seq<seq<Config>>, threshold: real, off: nat, st: SearchState)
    ensures forall c :: c in Enumerated(levels, threshold, off, st) ==>
      exists o :: off <= o < |levels| && c in levels[o]
    decreases |levels| - off
  {
    if off < |levels| {
      var level := levels[off];
      if level == [] {
        assert Enumerated(levels, threshold, off, st) == Enumerated(levels, threshold, off + 1, st);
        EnumeratedFromLevels(levels, threshold, off + 1, st);
      } else if !Below(Improve(level, st).errorMin, threshold) {
        EnumeratedFromLevels(levels, threshold, off + 1, Improve(level, st));
      }
    }
  }

  /** Every candidate evaluated keeps a combination of at least max(2, minCameras) cameras. */
  lemma EvaluatedMember(kern: Kernels, cams: seq<Camera>, minCameras: nat, threshold: real, c: Config)
    requires c in Enumerated(Levels(kern, cams, minCameras), threshold, 0, Start)
    ensures IsCombination(c.indices, 0, |cams|, |c.indices|)
    ensures |c.indices| >= 2 && |c.indices| >= minCameras
    ensures Evaluate(kern, cams, c.indices) == Some(c)
  {
    var levels := Levels(kern, cams, minCameras);
    EnumeratedFromLevels(levels, threshold, 0, Start);
    var o :| 0 <= o < |levels| && c in levels[o];
    LevelsAt(kern, cams, minCameras, o);
    LevelMember(kern, cams, o, c);
  }

  // ---------------------------------------------------------------------------
  // triangulate_point

  function Names(cams: seq<Camera>, idx: seq<nat>): (names: seq<string>)
    requires EntriesBelow(idx, |cams|)
    ensures |names| == |idx| && forall i :: 0 <= i < |idx| ==> names[i] == cams[idx[i]].name
  {
    seq(|idx|, i requires 0 <= i < |idx| => cams[idx[i]].name)
  }

  /** The search's outcome for the cameras that pass the filter. */
  function FinalState(kern: Kernels, cams: seq<Camera>, minCameras: nat, threshold: real): SearchState
  {
    Search(Levels(kern, cams, minCameras), threshold, 0, Start)
  }

  /** What the search evaluated for the cameras that pass the filter. */
  function Evaluated(kern: Kernels, cams: seq<Camera>, minCameras: nat, threshold: real): seq<Config>
  {
    Enumerated(Levels(kern, cams, minCameras), threshold, 0, Start)
  }

  lemma FinalStateWellFormed(kern: Kernels, cams: seq<Camera>, minCameras: nat, threshold: real)
    ensures var st := FinalState(kern, cams, minCameras, threshold);
      st.best.Some? ==>
        (st.best.value in Evaluated(kern, cams, minCameras, threshold)
         && EntriesBelow(st.best.value.indices, |cams|) && st.best.value.error == st.errorMin)
  {
    var st := FinalState(kern, cams, minCameras, threshold);
    if st.best.Some? {
      SearchWinner(Levels(kern, cams, minCameras), threshold);
      EvaluatedMember(kern, cams, minCameras, threshold, st.best.value);
    }
  }

  function TriangulatePointSpec(kern: Kernels, points: seq<(string, Observation)>, calib: map<string, CameraCalib>,
                                minCameras: nat, threshold: real, minQuality: real): (r: Option<TriangulationOutput>)
    ensures r.Some? ==> !Above(r.value.reprojectionError, threshold)
    ensures r.Some? ==> forall i :: 0 <= i < |r.value.contributingCameras| ==> r.value.contributingCameras[i] in calib
  {
    var cams := UsableCameras(kern, points, calib, minQuality);
    if |cams| < minCameras then None
    else
      var st := FinalState(kern, cams, minCameras, threshold);
      if st.best.None? || Above(st.errorMin, threshold) then None
      else
        FinalStateWellFormed(kern, cams, minCameras, threshold);
        Some(TriangulationOutput(st.best.value.point, Names(cams, st.best.value.indices), st.errorMin))
  }

  /** From the start state, a best that the search keeps is the first strict minimum of
      everything it evaluated. */
  lemma SearchWinner(levels: seq<seq<Config>>, threshold: real)
    ensures var st := Search(levels, threshold, 0, Start);
      var e := Enumerated(levels, threshold, 0, Start);
      st.best.Some? ==>
        (&& st.best.value.error == st.errorMin
         && exists i :: 0 <= i < |e| && e[i] == st.best.value
              && (forall j :: 0 <= j < i ==> Lt(e[i].error, e[j].error))
              && (forall j :: 0 <= j < |e| ==> Le(e[i].error, e[j].error)))
  {
    var st := Search(levels, threshold, 0, Start);
    var e := Enumerated(levels, threshold, 0, Start);
    SearchKeepsFirstMinimum(levels, threshold, 0, Start);
    if st.best.Some? {
      assert st != Start;
      var i :| 0 <= i < |e| && e[i] == st.best.value && forall j :: 0 <= j < i ==> Lt(st.errorMin, e[j].error);
      assert forall j :: 0 <= j < |e| ==> e[j] in e;
    }
  }

  /** The best the search keeps is the first strict minimum of everything it evaluated,
      and a defined candidate of at least max(2, minCameras) cameras. */
  lemma FinalStateWinner(kern: Kernels, cams: seq<Camera>, minCameras: nat, threshold: real)
    ensures var st := FinalState(kern, cams, minCameras, threshold);
      var e := Evaluated(kern, cams, minCameras, threshold);
      st.best.Some? ==>
        (&& st.best.value.error == st.errorMin
         && exists i :: 0 <= i < |e| && e[i] == st.best.value
              && IsCombination(e[i].indices, 0, |cams|, |e[i].indices|)
              && |e[i].indices| >= 2 && |e[i].indices| >= minCameras
              && Evaluate(kern, cams, e[i].indices) == Some(e[i])
              && (forall j :: 0 <= j < i ==> Lt(e[i].error, e[j].error))
              && (forall j :: 0 <= j < |e| ==> Le(e[i].error, e[j].error)))
  {
    var levels := Levels(kern, cams, minCameras);
    var st := Search(levels, threshold, 0, Start);
    var e := Enumerated(levels, threshold, 0, Start);
    if st.best.Some? {
      SearchWinner(levels, threshold);
      var i :| 0 <= i < |e| && e[i] == st.best.value
        && (forall j :: 0 <= j < i ==> Lt(e[i].error, e[j].error))
        && (forall j :: 0 <= j < |e| ==> Le(e[i].error, e[j].error));
      EvaluatedMember(kern, cams, minCameras, threshold, e[i]);
      assert e == Evaluated(kern, cams, minCameras, threshold);
      assert st == FinalState(kern, cams, minCameras, threshold);
    }
  }

  /** A defined candidate's error is the mean reprojection error of its point over its cameras. */
  lemma EvaluateError(kern: Kernels, cams: seq<Camera>, idx: seq<nat>)
    requires EntriesBelow(idx, |cams|) && Evaluate(kern, cams, idx).Some?
    ensures |idx| > 0
    ensures Evaluate(kern, cams, idx).value.error
         == SubsetError(kern, Gather(cams, idx), Evaluate(kern, cams, idx).value.point)
  {
  }

  /** The result, when there is one, is the first strict minimum of all the candidates
      the search evaluated; it uses at least max(2, minCameras) cameras, in ascending
      camera order; its error is the mean reprojection error over those cameras and is
      at most the threshold. */
  lemma TriangulatePointWinner(kern: Kernels, points: seq<(string, Observation)>, calib: map<string, CameraCalib>,
                               minCameras: nat, threshold: real, minQuality: real)
    ensures var r := TriangulatePointSpec(kern, points, calib, minCameras, threshold, minQuality);
      var cams := UsableCameras(kern, points, calib, minQuality);
      var e := Evaluated(kern, cams, minCameras, threshold);
      r.Some? ==>
        && |cams| >= minCameras
        && !Above(r.value.reprojectionError, threshold)
        && exists i :: 0 <= i < |e|
             && IsCombination(e[i].indices, 0, |cams|, |e[i].indices|)
             && |e[i].indices| >= 2 && |e[i].indices| >= minCameras
             && r.value.point3d == e[i].point
             && r.value.reprojectionError == e[i].error
             && r.value.reprojectionError == SubsetError(kern, Gather(cams, e[i].indices), e[i].point)
             && r.value.contributingCameras == Names(cams, e[i].indices)
             && (forall j :: 0 <= j < i ==> Lt(e[i].error, e[j].error))
             && (forall j :: 0 <= j < |e| ==> Le(e[i].error, e[j].error))
  {
    var r := TriangulatePointSpec(kern, points, calib, minCameras, threshold, minQuality);
    var cams := UsableCameras(kern, points, calib, minQuality);
    var e := Evaluated(kern, cams, minCameras, threshold);
    if r.Some? {
      var st := TriangulatePointOutput(kern, points, calib, minCameras, threshold, minQuality);
      FinalStateWinner(kern, cams, minCameras, threshold);
      var i :| 0 <= i < |e| && e[i] == st.best.value
        && IsCombination(e[i].indices, 0, |cams|, |e[i].indices|)
        && |e[i].indices| >= 2 && |e[i].indices| >= minCameras
        && Evaluate(kern, cams, e[i].indices) == Some(e[i])
        && (forall j :: 0 <= j < i ==> Lt(e[i].error, e[j].error))
        && (forall j :: 0 <= j < |e| ==> Le(e[i].error, e[j].error));
      EvaluateError(kern, cams, e[i].indices);
    }
  }

  /** How a result is read off the search's final state. */
  lemma TriangulatePointOutput(kern: Kernels, points: seq<(string, Observation)>, calib: map<string, CameraCalib>,
                               minCameras: nat, threshold: real, minQuality: real)
    returns (st: SearchState)
    requires TriangulatePointSpec(kern, points, calib, minCameras, threshold, minQuality).Some?
    ensures var cams := UsableCameras(kern, points, calib, minQuality);
      && |cams| >= minCameras
      && st == FinalState(kern, cams, minCameras, threshold)
      && st.best.Some? && !Above(st.errorMin, threshold)
      && EntriesBelow(st.best.value.indices, |cams|)
      && TriangulatePointSpec(kern, points, calib, minCameras, threshold, minQuality).value
         == TriangulationOutput(st.best.value.point, Names(cams, st.best.value.indices), st.errorMin)
  {
    var cams := UsableCameras(kern, points, calib, minQuality);
    st := FinalState(kern, cams, minCameras, threshold);
    FinalStateWellFormed(kern, cams, minCameras, threshold);
  }

  /** Too few usable cameras, no defined candidate, or a best error above the
      threshold: no result. */
  lemma TriangulatePointFailure(kern: Kernels, points: seq<(string, Observation)>, calib: map<string, CameraCalib>,
                                minCameras: nat, threshold: real, minQuality: real)
    ensures var r := TriangulatePointSpec(kern, points, calib, minCameras, threshold, minQuality);
      var cams := UsableCameras(kern, points, calib, minQuality);
      var st := FinalState(kern, cams, minCameras, threshold);
      r.None? <==> |cams| < minCameras || st.best.None? || Above(st.errorMin, threshold)
  {
  }

  lemma {:induction false} LevelContains(kern: Kernels, cams: seq<Camera>, combos: seq<seq<nat>>, idx: seq<nat>)
    requires AllEntriesBelow(combos, |cams|) && idx in combos
    requires EntriesBelow(idx, |cams|) && Evaluate(kern, cams, idx).Some?
    ensures Evaluate(kern, cams, idx).value in LevelConfigs(kern, cams, combos)
  {
    var init := combos[..|combos| - 1];
    if idx != combos[|combos| - 1] {
      assert idx in init;
      assert AllEntriesBelow(init, |cams|);
      LevelContains(kern, cams, init, idx);
    }
  }

  /** Without an early exit the search's best is no worse than any candidate of any level. */
  lemma SearchBeatsEveryLevel(levels: seq<seq<Config>>, threshold: real, o: nat, c: Config)
    requires o < |levels| && c in levels[o]
    requires !Below(Search(levels, threshold, 0, Start).errorMin, threshold)
    ensures Le(Search(levels, threshold, 0, Start).errorMin, c.error)
  {
    SearchExhaustiveWithoutEarlyExit(levels, threshold, 0, Start);
    SearchKeepsFirstMinimum(levels, threshold, 0, Start);
  }

  /** A defined subset of k >= minCameras cameras is a candidate of level n - k. */
  lemma KeptIsCandidate(kern: Kernels, cams: seq<Camera>, kept: seq<nat>)
    requires IsCombination(kept, 0, |cams|, |kept|)
    requires Evaluate(kern, cams, kept).Some?
    ensures |kept| <= |cams|
    ensures Evaluate(kern, cams, kept).value in Level(kern, cams, |cams| - |kept|)
  {
    CombinationLength(kept, 0, |cams|, |kept|);
    KeptIsCombination(|cams|, kept);
    LevelOfSize(kern, cams, |kept|);
    LevelContains(kern, cams, Combinations(|cams|, |kept|), kept);
  }

  lemma KeptIsCombination(n: nat, kept: seq<nat>)
    requires IsCombination(kept, 0, n, |kept|)
    ensures kept in Combinations(n, |kept|)
  {
    CombinationsComplete(kept, 0, n, |kept|);
  }

  lemma LevelOfSize(kern: Kernels, cams: seq<Camera>, k: nat)
    requires k <= |cams|
    ensures Level(kern, cams, |cams| - k) == LevelConfigs(kern, cams, Combinations(|cams|, k))
  {
  }

  lemma LevelsAt(kern: Kernels, cams: seq<Camera>, minCameras: nat, off: nat)
    requires off + minCameras <= |cams|
    ensures off < |Levels(kern, cams, minCameras)|
    ensures Levels(kern, cams, minCameras)[off] == Level(kern, cams, off)
  {
  }

  /** Without an early exit the final best is at least as good as every defined
      subset of minCameras or more of the cameras. */
  lemma FinalStateGlobalOptimum(kern: Kernels, cams: seq<Camera>, minCameras: nat, threshold: real, kept: seq<nat>)
    requires IsCombination(kept, 0, |cams|, |kept|) && |kept| >= minCameras
    requires !Below(FinalState(kern, cams, minCameras, threshold).errorMin, threshold)
    ensures var c := Evaluate(kern, cams, kept);
      c.Some? ==> Le(FinalState(kern, cams, minCameras, threshold).errorMin, c.value.error)
  {
    var c := Evaluate(kern, cams, kept);
    if c.Some? {
      KeptIsCandidate(kern, cams, kept);
      FinalStateBeatsLevel(kern, cams, minCameras, threshold, |cams| - |kept|, c.value);
    }
  }

  /** Without an early exit the final best is no worse than any candidate of a visited level. */
  lemma FinalStateBeatsLevel(kern: Kernels, cams: seq<Camera>, minCameras: nat, threshold: real, off: nat, c: Config)
    requires off + minCameras <= |cams| && c in Level(kern, cams, off)
    requires !Below(FinalState(kern, cams, minCameras, threshold).errorMin, threshold)
    ensures Le(FinalState(kern, cams, minCameras, threshold).errorMin, c.error)
  {
    var levels := Levels(kern, cams, minCameras);
    LevelsAt(kern, cams, minCameras, off);
    SearchBeatsEveryLevel(levels, threshold, off, c);
  }

  /** Without an early exit (in particular when the best error equals the threshold),
      the result is at least as good as every defined subset of minCameras or more cameras. */
  lemma TriangulatePointGlobalOptimum(kern: Kernels, points: seq<(string, Observation)>, calib: map<string, CameraCalib>,
                                      minCameras: nat, threshold: real, minQuality: real, kept: seq<nat>)
    requires IsCombination(kept, 0, |UsableCameras(kern, points, calib, minQuality)|, |kept|)
    requires |kept| >= minCameras
    requires var r := TriangulatePointSpec(kern, points, calib, minCameras, threshold, minQuality);
      r.Some? && !Below(r.value.reprojectionError, threshold)
    ensures var r := TriangulatePointSpec(kern, points, calib, minCameras, threshold, minQuality);
      var c := Evaluate(kern, UsableCameras(kern, points, calib, minQuality), kept);
      c.Some? ==> Le(r.value.reprojectionError, c.value.error)
  {
    var cams := UsableCameras(kern, points, calib, minQuality);
    FinalStateGlobalOptimum(kern, cams, minCameras, threshold, kept);
  }

  /** reprojection: each camera's projection of q, in camera order. */
  method Reprojection(ps: seq<Matrix>, q: Point3) returns (xCalc: seq<Num>, yCalc: seq<Num>)
    ensures |xCalc| == |yCalc| == |ps|
    ensures forall c :: 0 <= c < |ps| ==> (xCalc[c], yCalc[c]) == Reproject(ps[c], q)
  {
    xCalc, yCalc := [], [];
    for c := 0 to |ps|
      invariant |xCalc| == |yCalc| == c
      invariant forall k :: 0 <= k < c ==> (xCalc[k], yCalc[k]) == Reproject(ps[k], q)
    {
      var xy := Reproject(ps[c], q);
      xCalc := xCalc + [xy.0];
      yCalc := yCalc + [xy.1];
    }
  }

  /** The per-camera errors of one candidate and their mean. */
  method MeanError(kern: Kernels, sub: seq<Camera>, q: Point3) returns (m: ExtReal)
    requires |sub| > 0
    ensures m == SubsetError(kern, sub, q)
  {
    var xCalc, yCalc := Reprojection(Projs(sub), q);
    var errors := seq(|sub|, i requires 0 <= i < |sub| =>
      EuclideanDistance(kern, [Real(sub[i].obs.x), Real(sub[i].obs.y)], [xCalc[i], yCalc[i]]));
    assert errors == seq(|sub|, i requires 0 <= i < |sub| => CameraError(kern, sub[i], q));
    m := Mean(errors);
  }

  /** Step 1 of triangulate_point: the observations that can take part, with their projection matrices. */
  method FilterCameras(kern: Kernels, points: seq<(string, Observation)>, calib: map<string, CameraCalib>,
                       minQuality: real) returns (cams: seq<Camera>)
    ensures cams == UsableCameras(kern, points, calib, minQuality)
  {
    cams := [];
    for i := 0 to |points|
      invariant cams == UsableCameras(kern, points[..i], calib, minQuality)
    {
      assert points[..i + 1][..i] == points[..i];
      var p := points[i];
      if p.0 in calib && p.1.quality >= minQuality {
        cams := cams + [Camera(p.0, p.1, ProjectionMatrix(kern, calib[p.0]))];
      }
    }
    assert points[..|points|] == points;
  }

  /** The inner loop over the combinations of one level. */
  method EvaluateLevel(kern: Kernels, cams: seq<Camera>, combos: seq<seq<nat>>) returns (configs: seq<Config>)
    requires AllEntriesBelow(combos, |cams|)
    ensures configs == LevelConfigs(kern, cams, combos)
  {
    configs := [];
    for j := 0 to |combos|
      invariant configs == LevelConfigs(kern, cams, combos[..j])
    {
      assert combos[..j + 1][..j] == combos[..j];
      var idx := combos[j];
      if idx == [] {
        continue;
      }
      var sub := Gather(cams, idx);
      var q := WeightedTriangulation(kern, Projs(sub), Xs(sub), Ys(sub), Qualities(sub));
      if q.None? {
        continue;
      }
      var meanError := MeanError(kern, sub, q.value);
      configs := configs + [Config(idx, q.value, meanError)];
    }
    assert combos[..|combos|] == combos;
  }

  /** Step 2 of triangulate_point: remove cameras level by level. */
  method RunSearch(kern: Kernels, cams: seq<Camera>, minCameras: nat, threshold: real)
    returns (errorMin: ExtReal, best: Option<Config>)
    requires |cams| >= minCameras
    ensures SearchState(errorMin, best) == FinalState(kern, cams, minCameras, threshold)
  {
    var n := |cams|;
    ghost var levels := Levels(kern, cams, minCameras);
    ghost var total := Search(levels, threshold, 0, Start);
    errorMin := Inf;
    best := None;
    var nbCamsOff := 0;
    while n - nbCamsOff >= minCameras
      invariant nbCamsOff <= n + 1
      invariant Search(levels, threshold, nbCamsOff, SearchState(errorMin, best)) == total
      decreases n + 1 - nbCamsOff
    {
      var configs := EvaluateLevel(kern, cams, Combinations(n, n - nbCamsOff));
      LevelsAt(kern, cams, minCameras, nbCamsOff);
      ghost var before := SearchState(errorMin, best);
      SearchStep(levels, threshold, nbCamsOff, before);
      if configs == [] {
        nbCamsOff := nbCamsOff + 1;
        continue;
      }
      var k := FirstMinIndex(configs);
      if Lt(configs[k].error, errorMin) {
        errorMin := configs[k].error;
        best := Some(configs[k]);
      }
      assert SearchState(errorMin, best) == Improve(configs, before);
      if Below(errorMin, threshold) {
        break;
      }
      nbCamsOff := nbCamsOff + 1;
    }
  }

  /** triangulate_point: filter, search level by level, format the output. */
  method TriangulatePoint(kern: Kernels, points: seq<(string, Observation)>, calib: map<string, CameraCalib>,
                          minCameras: nat, threshold: real, minQuality: real)
    returns (r: Option<TriangulationOutput>)
    ensures r == TriangulatePointSpec(kern, points, calib, minCameras, threshold, minQuality)
  {
    var cams := FilterCameras(kern, points, calib, minQuality);
    if |cams| < minCameras {
      return None;
    }
    var errorMin, best := RunSearch(kern, cams, minCameras, threshold);
    if best.None? || Above(errorMin, threshold) {
      return None;
    }
    FinalStateWellFormed(kern, cams, minCameras, threshold);
    r := Some(TriangulationOutput(best.value.point, Names(cams, best.value.indices), errorMin));
  }
}
