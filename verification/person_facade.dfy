/** The facade of a real person instance: where the next stitch point after
    a frame lies, which source track is active at a frame, and the plan of a
    stitch (the frame segment and the columns of joint data it copies). The
    Blender objects it consults are given as plain data: whether the data
    series object exists, its active-track f-curve as a list of (frame,
    value) keyframes, its static active-track property, and the scene's end
    frame. */
module PersonFacade {
  import opened Common
  import opened Skeletons

  /** A keyframe: the frame (Blender stores it as a float) and the value. */
  type Keyframe = (real, real)

  /** The index of the first keyframe whose frame lies after `start`. */
  function FirstAfter(keys: seq<Keyframe>, start: int): (r: Option<nat>)
    ensures r.Some? ==>
      r.value < |keys| && keys[r.value].0 > start as real && forall k :: 0 <= k < r.value ==> keys[k].0 <= start as real
    ensures r.None? ==> forall k :: 0 <= k < |keys| ==> keys[k].0 <= start as real
  {
    if keys == [] then None
    else if keys[0].0 > start as real then Some(0)
    else match FirstAfter(keys[1..], start)
      case None => None
      case Some(i) => Some(i + 1)
  }

  /** find_next_stitch_frame as a function: the frame before the first later
      keyframe (its frame truncated to an integer), or the scene end when the
      series, its f-curve or a later keyframe is missing. */
  function StitchEnd(dsExists: bool, fcurve: Option<seq<Keyframe>>, start: int, sceneEnd: int): (e: int)
    ensures e == sceneEnd || (dsExists && fcurve.Some? &&
      exists i :: 0 <= i < |fcurve.value| && fcurve.value[i].0 > start as real && e == Trunc(fcurve.value[i].0) - 1)
  {
    if !dsExists || fcurve.None? then sceneEnd
    else match FirstAfter(fcurve.value, start)
      case None => sceneEnd
      case Some(i) => Trunc(fcurve.value[i].0) - 1
  }

  /** find_next_stitch_frame: scan the keyframes in order and stop at the
      first one after the start frame. */
  method FindNextStitchFrame(dsExists: bool, fcurve: Option<seq<Keyframe>>, start: int, sceneEnd: int) returns (r: int)
    ensures r == StitchEnd(dsExists, fcurve, start, sceneEnd)
  {
    if !dsExists {
      return sceneEnd;
    }
    if fcurve.None? {
      return sceneEnd;
    }
    var keys := fcurve.value;
    for i := 0 to |keys|
      invariant forall k :: 0 <= k < i ==> keys[k].0 <= start as real
    {
      if keys[i].0 > start as real {
        FirstAfterIs(keys, start, i);
        return Trunc(keys[i].0) - 1;
      }
    }
    FirstAfterNone(keys, start);
    return sceneEnd;
  }

  lemma {:induction false} FirstAfterIs(keys: seq<Keyframe>, start: int, i: nat)
    requires i < |keys| && keys[i].0 > start as real
    requires forall k :: 0 <= k < i ==> keys[k].0 <= start as real
    ensures FirstAfter(keys, start) == Some(i)
  {
    if i > 0 {
      FirstAfterIs(keys[1..], start, i - 1);
    }
  }

  lemma {:induction false} FirstAfterNone(keys: seq<Keyframe>, start: int)
    requires forall k :: 0 <= k < |keys| ==> keys[k].0 <= start as real
    ensures FirstAfter(keys, start) == None
  {
    if keys != [] {
      FirstAfterNone(keys[1..], start);
    }
  }

  /** Keyframe i is the first after `start`, and its frame is a whole number. */
  predicate FirstLaterIntegral(keys: seq<Keyframe>, start: int, i: int)
  {
    && 0 <= i < |keys| && keys[i].0 > start as real
    && keys[i].0 == keys[i].0.Floor as real
    && forall k :: 0 <= k < i ==> keys[k].0 <= start as real
  }

  /** The stitch segment ends one frame before the next keyframe after the
      start frame, so with integral keyframe frames it ends at or after the
      start and before that keyframe; without a later keyframe, series or
      f-curve it runs to the scene end. */
  lemma StitchEndSpec(dsExists: bool, fcurve: Option<seq<Keyframe>>, start: int, sceneEnd: int)
    ensures !dsExists || fcurve.None? ==> StitchEnd(dsExists, fcurve, start, sceneEnd) == sceneEnd
    ensures dsExists && fcurve.Some? && (forall k :: 0 <= k < |fcurve.value| ==> fcurve.value[k].0 <= start as real) ==>
      StitchEnd(dsExists, fcurve, start, sceneEnd) == sceneEnd
    ensures dsExists && fcurve.Some? ==>
      forall i :: FirstLaterIntegral(fcurve.value, start, i) ==>
        var e := StitchEnd(dsExists, fcurve, start, sceneEnd);
        e + 1 == fcurve.value[i].0.Floor && start <= e
  {
    if dsExists && fcurve.Some? {
      var keys := fcurve.value;
      forall i | FirstLaterIntegral(keys, start, i)
        ensures StitchEnd(dsExists, fcurve, start, sceneEnd) + 1 == keys[i].0.Floor
        ensures start <= StitchEnd(dsExists, fcurve, start, sceneEnd)
      {
        FirstAfterIs(keys, start, i);
      }
      if forall k :: 0 <= k < |keys| ==> keys[k].0 <= start as real {
        FirstAfterNone(keys, start);
      }
    }
  }

  /** get_active_track_index_at_frame: -1 without a data series; with no
      f-curve the static property, or -1 when it is unset; otherwise the
      f-curve's value at the frame, truncated to an integer. Evaluating the
      f-curve is Blender's, so its value comes in as `evaluated`. */
  function ActiveTrackIndex(dsExists: bool, hasFcurve: bool, staticValue: Option<int>, evaluated: real): (r: int)
    ensures !dsExists ==> r == -1
    ensures dsExists && !hasFcurve ==> r == (if staticValue.Some? then staticValue.value else -1)
    ensures dsExists && hasFcurve && evaluated >= 0.0 ==> r as real <= evaluated < r as real + 1.0
    ensures dsExists && hasFcurve && evaluated < 0.0 ==> r as real - 1.0 < evaluated <= r as real
  {
    if !dsExists then -1
    else if !hasFcurve then (match staticValue case Some(v) => v case None => -1)
    else Trunc(evaluated)
  }

  // ---------------------------------------------------------------------------
  // The stitch plan

  /** A column of joint data: the joint, the animated property and its
      array index (-1 for a scalar property). */
  datatype Column = Column(joint: string, path: string, index: int)

  const LocationPath: string := "location"
  const QualityPath: string := "[\"quality\"]"

  /** The three columns copied for one joint: x, y and quality. */
  function JointColumns(name: string): seq<Column>
  {
    [Column(name, LocationPath, 0), Column(name, LocationPath, 1), Column(name, QualityPath, -1)]
  }

  function HasId(): Joint -> bool
  {
    (n: Joint) => n.id.Some?
  }

  /** The columns for a list of joints, skipping those without an id. */
  function Columns(nodes: seq<Joint>): (cols: seq<Column>)
  {
    if nodes == [] then []
    else (if nodes[0].id.Some? then JointColumns(nodes[0].name) else []) + Columns(nodes[1..])
  }

  /** The layout of the copied columns: three per joint with an id, in joint
      order, as (name, location, 0), (name, location, 1), (name, quality, -1). */
  lemma {:induction false} ColumnsLayout(nodes: seq<Joint>)
    ensures var js := Filter(nodes, HasId());
      && |Columns(nodes)| == 3 * |js|
      && forall i :: 0 <= i < |js| ==> Columns(nodes)[3 * i..3 * i + 3] == JointColumns(js[i].name)
  {
    if nodes != [] {
      ColumnsLayout(nodes[1..]);
      var js := Filter(nodes[1..], HasId());
      var rest := Columns(nodes[1..]);
      if nodes[0].id.Some? {
        var head := JointColumns(nodes[0].name);
        assert Filter(nodes, HasId()) == [nodes[0]] + js;
        forall i | 0 <= i < |js| + 1
          ensures (head + rest)[3 * i..3 * i + 3] == JointColumns(([nodes[0]] + js)[i].name)
        {
          if i > 0 {
            assert (head + rest)[3 * i..3 * i + 3] == rest[3 * (i - 1)..3 * (i - 1) + 3];
          }
        }
      } else {
        assert Filter(nodes, HasId()) == js;
      }
    }
  }

  /** The part of assign_source_track_for_segment that decides what is
      copied: the segment's frames and the columns. */
  datatype Segment = Segment(start: int, end: int, columns: seq<Column>)

  /** The columns for a skeleton: the descendants of its root (the root
      itself is not a joint), in pre-order, three per joint with an id. */
  method ColumnsToCopy(skeleton: Joint) returns (cols: seq<Column>)
    ensures cols == Columns(PreorderAll(skeleton.children))
  {
    var nodes := PreorderAll(skeleton.children);
    cols := [];
    for i := 0 to |nodes|
      invariant cols + Columns(nodes[i..]) == Columns(nodes)
    {
      assert nodes[i..][1..] == nodes[i + 1..];
      if nodes[i].id.Some? {
        cols := cols + JointColumns(nodes[i].name);
      }
    }
    assert nodes[|nodes|..] == [];
  }

  /** assign_source_track_for_segment up to the writes: the segment runs from
      the start frame to the frame before the next stitch point; when that
      lies before the start frame the stitch is aborted and nothing is
      written. */
  method AssignSourceTrackForSegment(dsExists: bool, fcurve: Option<seq<Keyframe>>, start: int, sceneEnd: int, skeleton: Joint)
    returns (plan: Option<Segment>)
    ensures var end := StitchEnd(dsExists, fcurve, start, sceneEnd);
      && (plan.None? <==> end < start)
      && (plan.Some? ==> plan.value == Segment(start, end, Columns(PreorderAll(skeleton.children))))
  {
    var end := FindNextStitchFrame(dsExists, fcurve, start, sceneEnd);
    if end < start {
      return None;
    }
    var cols := ColumnsToCopy(skeleton);
    return Some(Segment(start, end, cols));
  }
}
