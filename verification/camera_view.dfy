/** A camera view: the transform that maps video pixels into Blender units,
    the view's stored properties and their defaults, moving the view's start
    frame, the scene frame range spanning all views, and the table of joint
    coordinates built from the per-frame pose files of one camera. */
module CameraViews {
  import opened Common
  import opened Skeletons
  import opened FrameNumbers

  // ---------------------------------------------------------------------------
  // Pixel-to-Blender transform

  /** The width, in Blender units, that the longer video side is scaled to. */
  const TargetWidth: real := 10.0

  datatype Transform = Transform(xScale: real, yScale: real, zScale: real, xOffset: real, yOffset: real)

  /** The scale and offsets create_camera_view stores on a new view; Err is the
      ZeroDivisionError of a video whose longer side is 0. */
  function ViewTransform(width: int, height: int): (r: Result<Transform, string>)
    ensures r.Err? <==> (if width > height then width == 0 else height == 0)
  {
    var longer := if width > height then width else height;
    if longer == 0 then Err("ZeroDivisionError")
    else
      var s := TargetWidth / longer as real;
      Ok(Transform(s, -s, s, -(width as real * s) / 2.0, height as real * s / 2.0))
  }

  /** For a real video the longer side spans exactly the target width and the
      shorter at most that; y is flipped; the image is centred on the origin. */
  lemma ViewTransformSpec(width: int, height: int)
    requires width > 0 && height > 0
    ensures var t := ViewTransform(width, height).value;
      var w := width as real * t.xScale;
      var h := height as real * t.xScale;
      && t.xScale > 0.0 && t.yScale == -t.xScale && t.zScale == t.xScale
      && (width > height ==> w == TargetWidth && h < TargetWidth)
      && (width <= height ==> h == TargetWidth && w <= TargetWidth)
      && t.xOffset + w / 2.0 == 0.0 && t.yOffset - h / 2.0 == 0.0
  {
    var t := ViewTransform(width, height).value;
    var longer := if width > height then width else height;
    var s := TargetWidth / longer as real;
    assert t.xScale == s;
    assert longer as real * s == TargetWidth;
    if width > height {
      ScaleBelow(height as real, width as real, s);
    } else {
      ScaleBelow(width as real, height as real, s);
    }
  }

  lemma ScaleBelow(short: real, long: real, s: real)
    requires 0.0 < short <= long && s > 0.0
    ensures short * s <= long * s
    ensures short < long ==> short * s < long * s
  {
  }

  // ---------------------------------------------------------------------------
  // The view's stored properties

  /** Python's `value or default` on an optional number: an unset or zero
      value reads as the default. */
  function OrReal(v: Option<real>, default: real): (r: real)
    ensures (v.None? || v.value == 0.0) ==> r == default
    ensures v.Some? && v.value != 0.0 ==> r == v.value
  {
    if v.None? || v.value == 0.0 then default else v.value
  }

  /** get_start_frame as written: `value or 1`, so a stored 0 reads as 1. */
  function StartFrameAsWritten(v: Option<int>): (r: int)
    ensures v.None? ==> r == 1
    ensures v.Some? && v.value != 0 ==> r == v.value
  {
    if v.None? || v.value == 0 then 1 else v.value
  }

  /** get_start_frame as evidently intended: 1 only when nothing is stored. */
  function StartFrameOf(v: Option<int>): (r: int)
    ensures v.None? ==> r == 1
    ensures v.Some? ==> r == v.value
  {
    if v.None? then 1 else v.value
  }

  /** The start property and the total shift applied to the view's animation. */
  datatype StartState = StartState(viewStart: Option<int>, shift: int)

  /** set_start_frame as written, on its effect: the animation moves by the
      difference to the start read back, and the new start is stored. */
  function SetStartAsWritten(st: StartState, newStart: int): (r: StartState)
    ensures newStart != 0 ==> StartFrameAsWritten(r.viewStart) == newStart
    ensures newStart != 0 ==> r.shift - StartFrameAsWritten(r.viewStart) == st.shift - StartFrameAsWritten(st.viewStart)
  {
    var delta := newStart - StartFrameAsWritten(st.viewStart);
    if delta == 0 then st else StartState(Some(newStart), st.shift + delta)
  }

  /** Moving a view from start 1 to 0 and back to 1 leaves the animation one
      frame early: the stored 0 reads back as 1, so the second move sees no
      difference, and the stored start stays 0. */
  lemma StartFrameZeroDrift()
    ensures SetStartAsWritten(SetStartAsWritten(StartState(Some(1), 0), 0), 1) == StartState(Some(0), -1)
    ensures StartFrameAsWritten(Some(0)) == 1
  {
  }

  /** One camera view. `hasObj` says whether it is bound to a Blender object;
      the options are its custom properties; `shifts` records the frame
      offsets applied to its person views' animation, in order. */
  class CameraView {
    var hasObj: bool
    var xScale: Option<real>
    var yScale: Option<real>
    var zScale: Option<real>
    var xOffset: Option<real>
    var yOffset: Option<real>
    var viewStart: Option<int>
    var shifts: seq<int>

    constructor(hasObj0: bool, xs: Option<real>, ys: Option<real>, zs: Option<real>,
                xo: Option<real>, yo: Option<real>, start: Option<int>)
      ensures hasObj == hasObj0 && xScale == xs && yScale == ys && zScale == zs
      ensures xOffset == xo && yOffset == yo && viewStart == start && shifts == []
    {
      hasObj, xScale, yScale, zScale := hasObj0, xs, ys, zs;
      xOffset, yOffset, viewStart, shifts := xo, yo, start, [];
    }

    /** get_transform_scale: (1, 1, 1) for an unbound view; an unset or zero
        component reads as 1, so no component is ever 0. */
    function TransformScale(): (r: (real, real, real))
      reads this
      ensures !hasObj ==> r == (1.0, 1.0, 1.0)
      ensures r.0 != 0.0 && r.1 != 0.0 && r.2 != 0.0
      ensures hasObj ==> r == (OrReal(xScale, 1.0), OrReal(yScale, 1.0), OrReal(zScale, 1.0))
    {
      if !hasObj then (1.0, 1.0, 1.0)
      else (OrReal(xScale, 1.0), OrReal(yScale, 1.0), OrReal(zScale, 1.0))
    }

    /** get_transform_location: the origin for an unbound view; unset offsets
        read as 0; z is always 0. */
    function TransformLocation(): (r: (real, real, real))
      reads this
      ensures r.2 == 0.0
      ensures !hasObj ==> r == (0.0, 0.0, 0.0)
      ensures hasObj ==> r.0 == (if xOffset.Some? then xOffset.value else 0.0)
      ensures hasObj ==> r.1 == (if yOffset.Some? then yOffset.value else 0.0)
    {
      if !hasObj then (0.0, 0.0, 0.0)
      else (OrReal(xOffset, 0.0), OrReal(yOffset, 0.0), 0.0)
    }

    /** get_start_frame, corrected: 1 for an unbound view or an unset property. */
    function StartFrame(): (r: int)
      reads this
      ensures !hasObj ==> r == 1
      ensures hasObj ==> r == StartFrameOf(viewStart)
    {
      if !hasObj then 1 else StartFrameOf(viewStart)
    }

    /** The sum of the shifts applied so far. */
    function TotalShift(): int
      reads this
    {
      Sum(shifts)
    }

    /** set_start_frame: nothing for an unbound view or an unchanged start;
        otherwise every person view's animation moves by the difference and
        the new start is stored. The animation stays aligned with the start:
        total shift minus start frame is unchanged. */
    method SetStartFrame(newStart: int)
      modifies this
      ensures hasObj == old(hasObj) && xScale == old(xScale) && yScale == old(yScale) && zScale == old(zScale)
      ensures xOffset == old(xOffset) && yOffset == old(yOffset)
      ensures !old(hasObj) || newStart == old(StartFrame()) ==> viewStart == old(viewStart) && shifts == old(shifts)
      ensures old(hasObj) && newStart != old(StartFrame()) ==>
        viewStart == Some(newStart) && shifts == old(shifts) + [newStart - old(StartFrame())]
      ensures old(hasObj) ==> StartFrame() == newStart
      ensures TotalShift() - StartFrame() == old(TotalShift() - StartFrame())
    {
      if !hasObj {
        return;
      }
      var oldStart := StartFrame();
      var delta := newStart - oldStart;
      if delta == 0 {
        return;
      }
      SumAppend(shifts, delta);
      shifts := shifts + [delta];
      viewStart := Some(newStart);
    }
  }

  /** The view create_camera_view sets up for a video of the given size: bound
      to its object, start frame 1, and the transform of the video; Err when
      the transform divides by zero. */
  method NewCameraView(width: int, height: int) returns (r: Result<CameraView, string>)
    ensures r.Err? <==> ViewTransform(width, height).Err?
    ensures r.Ok? ==> var t := ViewTransform(width, height).value;
      && fresh(r.value) && r.value.hasObj && r.value.viewStart == Some(1) && r.value.shifts == []
      && r.value.xScale == Some(t.xScale) && r.value.yScale == Some(t.yScale) && r.value.zScale == Some(t.zScale)
      && r.value.xOffset == Some(t.xOffset) && r.value.yOffset == Some(t.yOffset)
  {
    var t := ViewTransform(width, height);
    if t.Err? {
      return Err(t.error);
    }
    var tr := t.value;
    var view := new CameraView(true, Some(tr.xScale), Some(tr.yScale), Some(tr.zScale),
                               Some(tr.xOffset), Some(tr.yOffset), Some(1));
    return Ok(view);
  }

  /** A new view of a real video reads back its transform: the scale of the
      video, y flipped, and its offsets; it starts at frame 1. */
  lemma NewCameraViewReadsBack(width: int, height: int, view: CameraView)
    requires width > 0 && height > 0
    requires var t := ViewTransform(width, height).value;
      && view.hasObj && view.viewStart == Some(1)
      && view.xScale == Some(t.xScale) && view.yScale == Some(t.yScale) && view.zScale == Some(t.zScale)
      && view.xOffset == Some(t.xOffset) && view.yOffset == Some(t.yOffset)
    ensures var t := ViewTransform(width, height).value;
      && view.TransformScale() == (t.xScale, -t.xScale, t.xScale)
      && view.TransformScale().0 > 0.0
      && view.TransformLocation() == (t.xOffset, t.yOffset, 0.0)
      && view.StartFrame() == 1
  {
    ViewTransformSpec(width, height);
  }

  function Sum(xs: seq<int>): int
  {
    if xs == [] then 0 else Sum(xs[..|xs| - 1]) + xs[|xs| - 1]
  }

  lemma SumAppend(xs: seq<int>, x: int)
    ensures Sum(xs + [x]) == Sum(xs) + x
  {
    assert (xs + [x])[..|xs + [x]| - 1] == xs;
  }

  // ---------------------------------------------------------------------------
  // Scene frame range

  /** A view's start frame and the animation durations of the objects under it. */
  datatype ViewSpan = ViewSpan(start: int, durations: seq<int>)

  /** The longest duration under a view, 0 when there is none longer. */
  ghost predicate IsDuration(ds: seq<int>, d: int)
  {
    d >= 0 && (forall k :: 0 <= k < |ds| ==> ds[k] <= d) && (d == 0 || d in ds)
  }

  /** update_scene_frame_range: the scene starts at the earliest view start
      and ends at the latest view end, start plus duration, and the range
      always includes frame 1. */
  method UpdateSceneFrameRange(views: seq<ViewSpan>) returns (sceneStart: int, sceneEnd: int)
    ensures sceneStart <= 1 && forall v :: v in views ==> sceneStart <= v.start
    ensures sceneStart == 1 || exists v :: v in views && sceneStart == v.start
    ensures sceneEnd >= 1
    ensures forall v, d :: v in views && IsDuration(v.durations, d) ==> sceneEnd >= v.start + d
    ensures sceneEnd == 1 || exists v, d :: v in views && IsDuration(v.durations, d) && sceneEnd == v.start + d
  {
    sceneStart, sceneEnd := 1, 1;
    for i := 0 to |views|
      invariant sceneStart <= 1 && forall k :: 0 <= k < i ==> sceneStart <= views[k].start
      invariant sceneStart == 1 || exists k :: 0 <= k < i && sceneStart == views[k].start
      invariant sceneEnd >= 1
      invariant forall k, d :: 0 <= k < i && IsDuration(views[k].durations, d) ==> sceneEnd >= views[k].start + d
      invariant sceneEnd == 1 || exists k, d :: 0 <= k < i && IsDuration(views[k].durations, d) && sceneEnd == views[k].start + d
    {
      var v := views[i];
      var duration := 0;
      for j := 0 to |v.durations|
        invariant duration >= 0 && forall k :: 0 <= k < j ==> v.durations[k] <= duration
        invariant duration == 0 || duration in v.durations[..j]
      {
        if v.durations[j] > duration {
          duration := v.durations[j];
        }
      }
      assert v.durations[..|v.durations|] == v.durations;
      assert IsDuration(v.durations, duration);
      forall d | IsDuration(v.durations, d) ensures d == duration {
      }
      if v.start < sceneStart {
        sceneStart := v.start;
      }
      if v.start + duration > sceneEnd {
        sceneEnd := v.start + duration;
      }
    }
  }

  // ---------------------------------------------------------------------------
  // Pose files and the keypoint table

  /** One pose file: its name and, when it has a "people" list, one entry per
      detected person: the keypoint list, or None for an empty entry or one
      without "pose_keypoints_2d" (read as an empty list). */
  datatype PoseFile = PoseFile(name: string, people: Option<seq<Option<seq<real>>>>)

  /** What the file loop gathers: per person, the keypoints by frame number,
      and the smallest and largest frame numbers seen. */
  datatype Gathered = Gathered(persons: map<nat, map<int, seq<real>>>, range: Option<(int, int)>)

  function Widen(range: Option<(int, int)>, f: int): (r: Option<(int, int)>)
    ensures r.Some? && r.value.0 <= f <= r.value.1
    ensures range.Some? ==> r.value.0 <= range.value.0 && range.value.1 <= r.value.1
  {
    match range
    case None => Some((f, f))
    case Some((lo, hi)) => Some((if f < lo then f else lo, if f > hi then f else hi))
  }

  /** The first n people of a file recorded under frame f. */
  function AddPeople(persons: map<nat, map<int, seq<real>>>, f: int, people: seq<Option<seq<real>>>, n: nat)
    : (r: map<nat, map<int, seq<real>>>)
    requires n <= |people|
    ensures persons.Keys <= r.Keys
    ensures forall p :: p in r && p !in persons ==> p < n
  {
    if n == 0 then persons
    else
      var ps := AddPeople(persons, f, people, n - 1);
      var idx := n - 1;
      var frames := if idx in ps then ps[idx] else map[];
      ps[idx := frames[f := if people[idx].Some? then people[idx].value else []]]
  }

  /** One file of the loop: skipped without a frame number; otherwise its
      frame widens the range and its people are recorded. */
  function GatherFile(g: Gathered, file: PoseFile): (r: Gathered)
    ensures ExtractFrameNumber(file.name).Ok? ==>
      r.range.Some? && r.range.value.0 <= ExtractFrameNumber(file.name).value <= r.range.value.1
    ensures g.range.Some? ==> r.range.Some? && r.range.value.0 <= g.range.value.0 && g.range.value.1 <= r.range.value.1
    ensures g.persons.Keys <= r.persons.Keys
  {
    match ExtractFrameNumber(file.name)
    case Err(_) => g
    case Ok(f) =>
      var persons := if file.people.Some? then AddPeople(g.persons, f, file.people.value, |file.people.value|) else g.persons;
      Gathered(persons, Widen(g.range, f))
  }

  /** The loop over the first n files. */
  function Gather(files: seq<PoseFile>, n: nat): (g: Gathered)
    requires n <= |files|
    ensures g.range.None? <==> forall i :: 0 <= i < n ==> ExtractFrameNumber(files[i].name).Err?
    ensures g.range.None? ==> g.persons == map[]
  {
    if n == 0 then Gathered(map[], None) else GatherFile(Gather(files, n - 1), files[n - 1])
  }

  /** Every recorded frame lies in the gathered range. */
  ghost predicate FramesInRange(g: Gathered)
  {
    && (g.persons != map[] ==> g.range.Some?)
    && (g.range.Some? ==> g.range.value.0 <= g.range.value.1)
    && forall p, f :: p in g.persons && f in g.persons[p] ==> g.range.Some? && g.range.value.0 <= f <= g.range.value.1
  }

  lemma {:induction false} AddPeopleFrames(persons: map<nat, map<int, seq<real>>>, f: int, people: seq<Option<seq<real>>>, n: nat)
    requires n <= |people|
    ensures var r := AddPeople(persons, f, people, n);
      && persons.Keys <= r.Keys
      && forall p, f2 :: p in r && f2 in r[p] ==> f2 == f || (p in persons && f2 in persons[p])
  {
    if n > 0 {
      AddPeopleFrames(persons, f, people, n - 1);
    }
  }

  /** What recording the first n people of a file leaves behind, for one
      person p and one frame f2: a person among the n holds its keypoints
      (an empty list for a missing one) at frame f and keeps its other
      frames; a person past the n keeps its entry unchanged. */
  lemma {:induction false} AddPeopleStores(persons: map<nat, map<int, seq<real>>>, f: int, people: seq<Option<seq<real>>>, n: nat, p: nat, f2: int)
    requires n <= |people|
    ensures var r := AddPeople(persons, f, people, n);
      && (p < n ==> p in r && f in r[p] && r[p][f] == (if people[p].Some? then people[p].value else []))
      && (p < n && f2 != f && p in persons && f2 in persons[p] ==> f2 in r[p] && r[p][f2] == persons[p][f2])
      && (p >= n && p in persons ==> p in r && r[p] == persons[p])
  {
    if n > 0 {
      AddPeopleStores(persons, f, people, n - 1, p, f2);
    }
  }

  /** The file loop keeps every recorded frame within the range, so the table
      it leads to has a row for every recorded frame. */
  lemma {:induction false} GatherInRange(files: seq<PoseFile>, n: nat)
    requires n <= |files|
    ensures FramesInRange(Gather(files, n))
  {
    if n > 0 {
      GatherInRange(files, n - 1);
      var g := Gather(files, n - 1);
      var file := files[n - 1];
      match ExtractFrameNumber(file.name)
      case Err(_) =>
      case Ok(f) =>
        if file.people.Some? {
          AddPeopleFrames(g.persons, f, file.people.value, |file.people.value|);
        }
    }
  }

  /** A file without a frame number changes nothing. */
  lemma SkipsUnnumbered(g: Gathered, file: PoseFile)
    requires ExtractFrameNumber(file.name).Err?
    ensures GatherFile(g, file) == g
  {
  }

  /** The file loop of create_camera_view. */
  method GatherPoseFiles(files: seq<PoseFile>) returns (g: Gathered)
    ensures g == Gather(files, |files|)
  {
    var persons: map<nat, map<int, seq<real>>> := map[];
    var range: Option<(int, int)> := None;
    for i := 0 to |files|
      invariant Gathered(persons, range) == Gather(files, i)
    {
      var file := files[i];
      var frame := ExtractFrameNumber(file.name);
      if frame.Err? {
        continue;
      }
      var f := frame.value;
      range := Widen(range, f);
      if file.people.Some? {
        persons := RecordPeople(persons, f, file.people.value);
      }
    }
    g := Gathered(persons, range);
  }

  /** The people loop of one file: each person's keypoints recorded under the frame. */
  method RecordPeople(persons0: map<nat, map<int, seq<real>>>, f: int, people: seq<Option<seq<real>>>)
    returns (persons: map<nat, map<int, seq<real>>>)
    ensures persons == AddPeople(persons0, f, people, |people|)
  {
    persons := persons0;
    for idx := 0 to |people|
      invariant persons == AddPeople(persons0, f, people, idx)
    {
      if idx !in persons {
        persons := persons[idx := map[]];
      }
      persons := persons[idx := persons[idx][f := if people[idx].Some? then people[idx].value else []]];
    }
  }

  /** The ids of the joints that have one, in the given order. */
  function IdList(nodes: seq<Joint>): (ids: seq<int>)
    ensures |ids| <= |nodes|
  {
    if nodes == [] then []
    else IdList(nodes[..|nodes| - 1]) + (if nodes[|nodes| - 1].id.Some? then [nodes[|nodes| - 1].id.value] else [])
  }

  /** The quality column: the likelihood when positive, else the -1 sentinel. */
  function Quality(likelihood: real): (q: real)
    ensures q > 0.0 || q == -1.0
    ensures likelihood > 0.0 ==> q == likelihood
    ensures likelihood <= 0.0 ==> q == -1.0
  {
    if likelihood > 0.0 then likelihood else -1.0
  }

  /** The cell for a joint with the given id and part (0 = x, 1 = y,
      2 = quality) in a frame with keypoints kp, or None when the person was
      not detected in the frame; None in the result is NaN. The joint's
      triple starts at 3 * id, read with Python's indexing, and is read only
      when 3 * id + 2 lies before the end of the list. */
  function Cell(kp: Option<seq<real>>, id: int, part: int): (c: Option<real>)
    ensures kp.None? ==> (c.Some? <==> part == 2)
    ensures kp.Some? ==> (c.Some? <==> -|kp.value| <= 3 * id && 3 * id + 2 < |kp.value|)
    ensures kp.Some? && c.Some? && (part == 0 || part == 1) ==> c.value in kp.value
  {
    match kp
    case None => if part == 2 then Some(-1.0) else None
    case Some(k) =>
      var base := 3 * id;
      if base + 2 < |k| && -|k| <= base then
        var i := if base >= 0 then base else base + |k|;
        if part == 0 then Some(k[i])
        else if part == 1 then Some(k[i + 1])
        else Some(Quality(k[i + 2]))
      else None
  }

  /** The keypoints of the frame of row r, None when the person has no entry. */
  function RowKeypoints(frames: map<int, seq<real>>, minFrame: int, r: int): Option<seq<real>>
  {
    if minFrame + r in frames then Some(frames[minFrame + r]) else None
  }

  /** What the table promises per cell: x, y and quality of a joint with a
      non-negative id read from its own triple; quality always a positive
      likelihood, -1 or NaN; -1 and NaN coordinates for undetected frames. */
  lemma CellSpec(kp: Option<seq<real>>, id: int, part: int)
    ensures var c := Cell(kp, id, part);
      && (part == 2 && c.Some? ==> c.value > 0.0 || c.value == -1.0)
      && (kp.None? ==> (part == 2 ==> c == Some(-1.0)) && (part != 2 ==> c.None?))
      && (kp.Some? && id >= 0 && 3 * id + 2 < |kp.value| ==>
            (part == 0 ==> c == Some(kp.value[3 * id])) && (part == 1 ==> c == Some(kp.value[3 * id + 1]))
            && (part == 2 ==> c == Some(Quality(kp.value[3 * id + 2]))))
      && (kp.Some? && id < 0 && -|kp.value| <= 3 * id ==>
            (part == 0 ==> c == Some(kp.value[3 * id + |kp.value|]))
            && (part == 2 ==> c == Some(Quality(kp.value[3 * id + 2 + |kp.value|]))))
      && (kp.Some? && 3 * id + 2 >= |kp.value| ==> c.None?)
  {
  }

  /** The last joint's id, if any, extends the id list of the joints before it. */
  lemma IdListStep(nodes: seq<Joint>, j: nat)
    requires j < |nodes|
    ensures nodes[j].id.None? ==> IdList(nodes[..j + 1]) == IdList(nodes[..j])
    ensures nodes[j].id.Some? ==> IdList(nodes[..j + 1]) == IdList(nodes[..j]) + [nodes[j].id.value]
  {
    assert nodes[..j + 1][..j] == nodes[..j];
    assert IdList(nodes[..j]) + [] == IdList(nodes[..j]);
  }

  lemma {:induction false} IdListPrefix(nodes: seq<Joint>, j: nat)
    requires j <= |nodes|
    ensures |IdList(nodes[..j])| <= |IdList(nodes)|
    decreases |nodes| - j
  {
    if j < |nodes| {
      IdListPrefix(nodes, j + 1);
      IdListStep(nodes, j);
    } else {
      assert nodes[..j] == nodes;
    }
  }

  /** The x, y and quality cells of the joint with the given id. */
  function JointCells(kp: Option<seq<real>>, id: int): (cells: seq<Option<real>>)
    ensures |cells| == 3
  {
    [Cell(kp, id, 0), Cell(kp, id, 1), Cell(kp, id, 2)]
  }

  /** The cells of one row, joint by joint: three per id. */
  function RowCells(kp: Option<seq<real>>, ids: seq<int>): (row: seq<Option<real>>)
    ensures |row| == 3 * |ids|
  {
    if ids == [] then []
    else
      var id := ids[|ids| - 1];
      RowCells(kp, ids[..|ids| - 1]) + JointCells(kp, id)
  }

  lemma RowCellsStep(kp: Option<seq<real>>, ids: seq<int>, id: int)
    ensures RowCells(kp, ids + [id]) == RowCells(kp, ids) + JointCells(kp, id)
  {
    assert (ids + [id])[..|ids|] == ids;
  }

  /** Cell c of a row is part c % 3 of the joint with the (c / 3)-th id. */
  lemma {:induction false} RowCellsSpec(kp: Option<seq<real>>, ids: seq<int>, c: nat)
    requires c < 3 * |ids|
    ensures RowCells(kp, ids)[c] == ColumnCell(kp, ids, c)
  {
    var n := |ids| - 1;
    if c < 3 * n {
      RowCellsSpec(kp, ids[..n], c);
      assert ids[..n][c / 3] == ids[c / 3];
    } else {
      assert c / 3 == n;
    }
  }

  /** Fill row r of the table: walk the joints in pre-order, three columns
      per joint with an id. With keypoints (kp is Some) a joint's x, y and
      quality are written when its triple lies within the list; for a frame
      in which the person was not detected only its quality, -1, is. */
  method FillRow(table: array2<Option<real>>, r: nat, kp: Option<seq<real>>, nodes: seq<Joint>)
    requires r < table.Length0 && table.Length1 == 3 * |IdList(nodes)|
    requires forall c :: 0 <= c < table.Length1 ==> table[r, c].None?
    modifies table
    ensures forall c :: 0 <= c < table.Length1 ==> table[r, c] == RowCells(kp, IdList(nodes))[c]
    ensures forall r2, c :: 0 <= r2 < table.Length0 && r2 != r && 0 <= c < table.Length1 ==> table[r2, c] == old(table[r2, c])
  {
    var col := 0;
    ghost var done: seq<Option<real>> := [];
    for j := 0 to |nodes|
      invariant done == RowCells(kp, IdList(nodes[..j]))
      invariant col == |done| <= table.Length1
      invariant forall c :: 0 <= c < col ==> table[r, c] == done[c]
      invariant forall c :: col <= c < table.Length1 ==> table[r, c].None?
      invariant forall r2, c :: 0 <= r2 < table.Length0 && r2 != r && 0 <= c < table.Length1 ==> table[r2, c] == old(table[r2, c])
    {
      col, done := FillJoint(table, r, kp, nodes, j, col, done);
    }
    assert nodes[..|nodes|] == nodes;
  }

  /** One step of the joint walk: the cells of joint j, if it has an id,
      follow the cells written so far. */
  method FillJoint(table: array2<Option<real>>, r: nat, kp: Option<seq<real>>, nodes: seq<Joint>, j: nat,
                   col: nat, ghost done: seq<Option<real>>)
    returns (col2: nat, ghost done2: seq<Option<real>>)
    requires j < |nodes| && r < table.Length0 && table.Length1 == 3 * |IdList(nodes)|
    requires done == RowCells(kp, IdList(nodes[..j])) && col == |done| <= table.Length1
    requires forall c :: 0 <= c < col ==> table[r, c] == done[c]
    requires forall c :: col <= c < table.Length1 ==> table[r, c].None?
    modifies table
    ensures done2 == RowCells(kp, IdList(nodes[..j + 1])) && col2 == |done2| <= table.Length1
    ensures forall c :: 0 <= c < col2 ==> table[r, c] == done2[c]
    ensures forall c :: col2 <= c < table.Length1 ==> table[r, c].None?
    ensures forall r2, c :: 0 <= r2 < table.Length0 && r2 != r && 0 <= c < table.Length1 ==> table[r2, c] == old(table[r2, c])
  {
    IdListStep(nodes, j);
    IdListPrefix(nodes, j + 1);
    if nodes[j].id.None? {
      return col, done;
    }
    var id := nodes[j].id.value;
    RowCellsStep(kp, IdList(nodes[..j]), id);
    col2, done2 := AppendJoint(table, r, kp, id, col, done);
  }

  /** The cells of one more joint with an id, written after the cells so far. */
  method AppendJoint(table: array2<Option<real>>, r: nat, kp: Option<seq<real>>, id: int,
                     col: nat, ghost done: seq<Option<real>>)
    returns (col2: nat, ghost done2: seq<Option<real>>)
    requires r < table.Length0 && col == |done| && col + 3 <= table.Length1
    requires forall c :: 0 <= c < col ==> table[r, c] == done[c]
    requires forall c :: col <= c < table.Length1 ==> table[r, c].None?
    modifies table
    ensures done2 == done + JointCells(kp, id) && col2 == col + 3
    ensures forall c :: 0 <= c < col2 ==> table[r, c] == done2[c]
    ensures forall c :: col2 <= c < table.Length1 ==> table[r, c].None?
    ensures forall r2, c :: 0 <= r2 < table.Length0 && r2 != r && 0 <= c < table.Length1 ==> table[r2, c] == old(table[r2, c])
  {
    WriteJoint(table, r, col, kp, id);
    RowExtended(table, r, done, JointCells(kp, id));
    return col + 3, done + JointCells(kp, id);
  }

  /** Row r holds `done` followed by `cells`. */
  lemma RowExtended(table: array2<Option<real>>, r: nat, done: seq<Option<real>>, cells: seq<Option<real>>)
    requires r < table.Length0 && |done| + |cells| <= table.Length1
    requires forall c :: 0 <= c < |done| ==> table[r, c] == done[c]
    requires forall c :: 0 <= c < |cells| ==> table[r, |done| + c] == cells[c]
    ensures forall c :: 0 <= c < |done| + |cells| ==> table[r, c] == (done + cells)[c]
  {
    forall c | 0 <= c < |done| + |cells|
      ensures table[r, c] == (done + cells)[c]
    {
      if c >= |done| {
        assert table[r, |done| + (c - |done|)] == cells[c - |done|];
      }
    }
  }

  /** Write the cells of one joint with an id into blank cells. */
  method WriteJoint(table: array2<Option<real>>, r: nat, col: nat, kp: Option<seq<real>>, id: int)
    requires r < table.Length0 && col + 3 <= table.Length1
    requires table[r, col].None? && table[r, col + 1].None? && table[r, col + 2].None?
    modifies table
    ensures forall p :: 0 <= p < 3 ==> table[r, col + p] == JointCells(kp, id)[p]
    ensures forall c :: 0 <= c < col ==> table[r, c] == old(table[r, c])
    ensures forall c :: col + 3 <= c < table.Length1 ==> table[r, c] == old(table[r, c])
    ensures forall r2, c :: 0 <= r2 < table.Length0 && r2 != r && 0 <= c < table.Length1 ==> table[r2, c] == old(table[r2, c])
  {
    match kp
    case None =>
      table[r, col + 2] := Some(-1.0);
    case Some(k) =>
      var base := id * 3;
      if base + 2 < |k| && -|k| <= base {
        var i := if base >= 0 then base else base + |k|;
        table[r, col] := Some(k[i]);
        table[r, col + 1] := Some(k[i + 1]);
        table[r, col + 2] := Some(Quality(k[i + 2]));
      }
  }

  /** Column c of a row: part c % 3 of the joint with the (c / 3)-th id. */
  function ColumnCell(kp: Option<seq<real>>, ids: seq<int>, c: int): Option<real>
    requires 0 <= c < 3 * |ids|
  {
    Cell(kp, ids[c / 3], c % 3)
  }

  /** The table of one person: a row per frame from minFrame, three columns
      per joint with an id (pre-order, root included), starting all NaN. */
  method FillTable(frames: map<int, seq<real>>, minFrame: int, numFrames: nat, skeleton: Joint)
    returns (table: array2<Option<real>>)
    ensures fresh(table)
    ensures table.Length0 == numFrames && table.Length1 == 3 * |IdList(Preorder(skeleton))|
    ensures forall r, c :: 0 <= r < numFrames && 0 <= c < table.Length1 ==>
      table[r, c] == Cell(RowKeypoints(frames, minFrame, r), IdList(Preorder(skeleton))[c / 3], c % 3)
  {
    var nodes := Preorder(skeleton);
    table := new Option<real>[numFrames, 3 * |IdList(nodes)|]((_, _) => None);
    for r := 0 to numFrames
      invariant forall r2, c :: 0 <= r2 < r && 0 <= c < table.Length1 ==>
        table[r2, c] == ColumnCell(RowKeypoints(frames, minFrame, r2), IdList(nodes), c)
      invariant forall r2, c :: r <= r2 < numFrames && 0 <= c < table.Length1 ==> table[r2, c].None?
    {
      var kp := RowKeypoints(frames, minFrame, r);
      FillRow(table, r, kp, nodes);
      forall c | 0 <= c < table.Length1
        ensures table[r, c] == ColumnCell(kp, IdList(nodes), c)
      {
        RowCellsSpec(kp, IdList(nodes), c);
      }
    }
  }

  /** The number of rows: one per frame from the smallest to the largest
      frame number seen. */
  function NumFrames(range: (int, int)): int
  {
    range.1 - range.0 + 1
  }

  /** The part of create_camera_view that reads the pose files: None when no
      person was found (the view is returned without data); otherwise the
      first frame, the row count and, per person, the frames to lay out. */
  method LayOutPoseData(files: seq<PoseFile>) returns (r: Option<(int, nat, map<nat, map<int, seq<real>>>)>)
    ensures var g := Gather(files, |files|);
      && (r.None? <==> g.persons == map[])
      && (r.Some? ==> g.range.Some? && r.value == (g.range.value.0, NumFrames(g.range.value), g.persons))
    ensures r.Some? ==> forall p, f :: p in r.value.2 && f in r.value.2[p] ==> 0 <= f - r.value.0 < r.value.1
  {
    var g := GatherPoseFiles(files);
    GatherInRange(files, |files|);
    if g.persons == map[] {
      return None;
    }
    var (lo, hi) := g.range.value;
    return Some((lo, hi - lo + 1, g.persons));
  }
}
