/** The parts of the Blender data access layer with logic of their own: the
    key under which an action stores a slot, and the packing of a frames ×
    columns table with NaN holes into one list of keyframes per f-curve.
    NaN cells are None. */
module Dal {
  import opened Common

  // ---------------------------------------------------------------------------
  // Action slots

  /** The prefix Blender puts before the name of a slot for an object. */
  const ObjectSlotPrefix: string := "OB"

  /** _get_prefixed_slot_name. */
  function SlotKey(name: string): (key: string)
    ensures |key| == |name| + 2 && key[..2] == ObjectSlotPrefix && key[2..] == name
  {
    ObjectSlotPrefix + name
  }

  /** Distinct slot names have distinct keys. */
  lemma SlotKeyInjective(a: string, b: string)
    ensures SlotKey(a) == SlotKey(b) <==> a == b
  {
    if SlotKey(a) == SlotKey(b) {
      assert a == SlotKey(a)[2..];
    }
  }

  /** An f-curve is found by its slot key, data path and array index (-1 for
      a scalar property). */
  datatype CurveKey = CurveKey(slotKey: string, path: string, index: int)

  /** A column of the table: the slot name, the data path and the index, or
      None for a scalar property. */
  datatype ColumnSpec = ColumnSpec(slot: string, path: string, index: Option<int>)

  function KeyOf(c: ColumnSpec): CurveKey
  {
    CurveKey(SlotKey(c.slot), c.path, if c.index.Some? then c.index.value else -1)
  }

  /** A keyframe point: its coordinates (frame, value). */
  type Point = (real, real)

  /** The coordinates of a point that keyframe_points.add creates. */
  const NewPoint: Point := (0.0, 0.0)

  /** An action: the keys of its slots and its f-curves with their points. */
  class Action {
    var slots: set<string>
    var curves: map<CurveKey, seq<Point>>

    constructor(slots0: set<string>, curves0: map<CurveKey, seq<Point>>)
      ensures slots == slots0 && curves == curves0
    {
      slots, curves := slots0, curves0;
    }

    /** action_has_slot: looks the slot up by its prefixed key. */
    predicate HasSlot(name: string)
      reads this
    {
      SlotKey(name) in slots
    }

    /** get_or_create_action_slot: a missing slot is created under the
        prefixed key; an existing one is kept. */
    method GetOrCreateSlot(name: string)
      modifies this
      ensures slots == old(slots) + {SlotKey(name)} && curves == old(curves)
      ensures HasSlot(name)
      ensures forall n :: old(HasSlot(n)) ==> HasSlot(n)
    {
      if SlotKey(name) !in slots {
        slots := slots + {SlotKey(name)};
      }
    }

    /** get_or_create_fcurve followed by keyframe_points.clear(): the curve
        of the column exists and has no points; no other curve changes. */
    method ClearedFcurve(col: ColumnSpec)
      modifies this
      ensures slots == old(slots) + {SlotKey(col.slot)}
      ensures curves == old(curves)[KeyOf(col) := []]
    {
      GetOrCreateSlot(col.slot);
      if KeyOf(col) !in curves {
        curves := curves[KeyOf(col) := []];
      }
      curves := curves[KeyOf(col) := []];
    }
  }

  /** fcurves.find: the curve stored under the key, None when there is none. */
  function FindCurve(curves: map<CurveKey, seq<Point>>, key: CurveKey): Option<seq<Point>>
  {
    if key in curves then Some(curves[key]) else None
  }

  /** get_fcurve_keyframes: no keyframes for a missing curve. */
  function FcurveKeyframes(fcurve: Option<seq<Point>>): (r: seq<Point>)
    ensures fcurve.None? ==> r == []
    ensures fcurve.Some? ==> r == fcurve.value
  {
    if fcurve.None? then [] else fcurve.value
  }

  /** sample_fcurve: the curve evaluated at every frame from start to end,
      both included; none when end lies before start. Evaluating an f-curve
      is Blender's, so it comes in as a function. */
  function SampleFcurve(evaluate: int -> real, start: int, end: int): (r: seq<real>)
    ensures |r| == if end < start then 0 else end - start + 1
    ensures forall i :: 0 <= i < |r| ==> r[i] == evaluate(start + i)
  {
    if end < start then [] else seq(end - start + 1, i => evaluate(start + i))
  }

  // ---------------------------------------------------------------------------
  // Packing a table into keyframes

  /** The number of cells that are not NaN. */
  function Count(col: seq<Option<real>>): (n: nat)
    ensures n <= |col|
  {
    if col == [] then 0 else Count(col[..|col| - 1]) + (if col[|col| - 1].Some? then 1 else 0)
  }

  /** The keyframes of a column whose first row is frame `start`: one per
      cell that is not NaN, at the cell's frame, in row order. */
  function Packed(col: seq<Option<real>>, start: int): (keys: seq<Point>)
    ensures |keys| == Count(col)
  {
    if col == [] then []
    else
      var n := |col| - 1;
      Packed(col[..n], start) + (if col[n].Some? then [((start + n) as real, col[n].value)] else [])
  }

  /** A prefix of a column has no more valid cells than the column. */
  lemma {:induction false} CountPrefix(col: seq<Option<real>>, n: nat)
    requires n <= |col|
    ensures Count(col[..n]) <= Count(col)
    decreases |col| - n
  {
    if n < |col| {
      CountPrefix(col, n + 1);
      assert col[..n + 1][..n] == col[..n];
    } else {
      assert col[..n] == col;
    }
  }

  /** Packing a prefix gives a prefix of the packing. */
  lemma {:induction false} PackedPrefix(col: seq<Option<real>>, start: int, n: nat)
    requires n <= |col|
    ensures Packed(col[..n], start) <= Packed(col, start)
    decreases |col| - n
  {
    if n < |col| {
      PackedPrefix(col, start, n + 1);
      assert col[..n + 1][..n] == col[..n];
    } else {
      assert col[..n] == col;
    }
  }

  /** The k-th keyframe of a column comes from its k-th valid row: a valid
      cell in row r becomes keyframe number Count(col[..r]), at frame
      start + r, with the cell's value. */
  lemma PackedAt(col: seq<Option<real>>, start: int, r: nat)
    requires r < |col| && col[r].Some?
    ensures Count(col[..r]) < Count(col)
    ensures Packed(col, start)[Count(col[..r])] == ((start + r) as real, col[r].value)
  {
    PackedPrefix(col, start, r + 1);
    CountPrefix(col, r + 1);
    assert col[..r + 1][..r] == col[..r];
  }

  /** Every keyframe comes from a valid cell of the column, at its frame and
      with its value. */
  lemma {:induction false} PackedSource(col: seq<Option<real>>, start: int, k: nat) returns (r: nat)
    requires k < Count(col)
    ensures r < |col| && col[r].Some? && Packed(col, start)[k] == ((start + r) as real, col[r].value)
  {
    var n := |col| - 1;
    var p := Packed(col[..n], start);
    if k < |p| {
      r := PackedSource(col[..n], start, k);
    } else {
      r := n;
    }
  }

  /** The frames of the keyframes strictly increase: no two share a frame. */
  lemma {:induction false} PackedIncreasing(col: seq<Option<real>>, start: int, i: nat, j: nat)
    requires i < j < Count(col)
    ensures Packed(col, start)[i].0 < Packed(col, start)[j].0
  {
    var n := |col| - 1;
    var p := Packed(col[..n], start);
    if j < |p| {
      PackedIncreasing(col[..n], start, i, j);
    } else {
      var r := PackedSource(col[..n], start, i);
    }
  }

  /** The first n cells of column c. */
  function Prefix(data: array2<Option<real>>, c: nat, n: nat): (col: seq<Option<real>>)
    requires c < data.Length1 && n <= data.Length0
    reads data
    ensures |col| == n
    ensures forall r :: 0 <= r < n ==> col[r] == data[r, c]
  {
    if n == 0 then [] else Prefix(data, c, n - 1) + [data[n - 1, c]]
  }

  /** Column c of the table. */
  function ColumnOf(data: array2<Option<real>>, c: nat): seq<Option<real>>
    requires c < data.Length1
    reads data
  {
    Prefix(data, c, data.Length0)
  }

  /** np.count_nonzero(~np.isnan(data[:, c])). */
  method CountValid(data: array2<Option<real>>, c: nat) returns (n: nat)
    requires c < data.Length1
    ensures n == Count(ColumnOf(data, c))
  {
    n := 0;
    for r := 0 to data.Length0
      invariant n == Count(Prefix(data, c, r))
    {
      assert Prefix(data, c, r + 1)[..r] == Prefix(data, c, r);
      if data[r, c].Some? {
        n := n + 1;
      }
    }
  }

  /** The valid-cell count of every column of the table. */
  method ValidCounts(data: array2<Option<real>>) returns (counts: seq<nat>)
    ensures |counts| == data.Length1
    ensures forall c :: 0 <= c < data.Length1 ==> counts[c] == Count(ColumnOf(data, c))
  {
    counts := [];
    for c := 0 to data.Length1
      invariant |counts| == c
      invariant forall c2 :: 0 <= c2 < c ==> counts[c2] == Count(ColumnOf(data, c2))
    {
      var n := CountValid(data, c);
      counts := counts + [n];
    }
  }

  /** The state of column c after n rows of the fill: its cursor is the
      number of valid cells seen, the points before the cursor are the
      packing of those rows, and the column has as many points as it has
      valid cells. */
  ghost predicate Filled(data: array2<Option<real>>, start: int, pts: seq<Point>, cursor: nat, c: nat, n: nat)
    requires c < data.Length1 && n <= data.Length0
    reads data
  {
    && |pts| == Count(ColumnOf(data, c))
    && cursor == Count(Prefix(data, c, n))
    && cursor <= |pts|
    && pts[..cursor] == Packed(Prefix(data, c, n), start)
  }

  /** One cell of the fill: a valid cell goes to the point under its
      column's cursor, which moves on; a NaN cell changes nothing. The
      cursor never passes the end of the column's points. */
  method FillCell(data: array2<Option<real>>, start: int, r: nat, c: nat, pts0: seq<Point>, cursor0: nat)
    returns (pts: seq<Point>, cursor: nat)
    requires c < data.Length1 && r < data.Length0
    requires Filled(data, start, pts0, cursor0, c, r)
    ensures Filled(data, start, pts, cursor, c, r + 1)
    ensures data[r, c].None? ==> pts == pts0 && cursor == cursor0
    ensures data[r, c].Some? ==>
      cursor0 < |pts0| && cursor == cursor0 + 1 && pts == pts0[cursor0 := ((start + r) as real, data[r, c].value)]
  {
    PrefixStep(data, start, c, r);
    pts, cursor := pts0, cursor0;
    var value := data[r, c];
    if value.Some? {
      pts := pts[cursor := ((start + r) as real, value.value)];
      assert pts[..cursor + 1] == pts0[..cursor] + [((start + r) as real, value.value)];
      cursor := cursor + 1;
    }
  }

  /** One more row of a column: its cell is appended, it is counted, and the
      count stays within the column's. */
  lemma PrefixStep(data: array2<Option<real>>, start: int, c: nat, r: nat)
    requires c < data.Length1 && r < data.Length0
    ensures Prefix(data, c, r + 1) == Prefix(data, c, r) + [data[r, c]]
    ensures Count(Prefix(data, c, r + 1)) == Count(Prefix(data, c, r)) + (if data[r, c].Some? then 1 else 0)
    ensures Packed(Prefix(data, c, r + 1), start) ==
      Packed(Prefix(data, c, r), start) + (if data[r, c].Some? then [((start + r) as real, data[r, c].value)] else [])
    ensures Count(Prefix(data, c, r + 1)) <= Count(ColumnOf(data, c))
  {
    var pre := Prefix(data, c, r + 1);
    assert pre[..r] == Prefix(data, c, r);
    CountPrefix(ColumnOf(data, c), r + 1);
    assert ColumnOf(data, c)[..r + 1] == pre;
  }

  /** Every column of the first |points| is in the state after n rows. */
  ghost predicate AllFilled(data: array2<Option<real>>, start: int, points: seq<seq<Point>>, cursors: seq<nat>, n: nat)
    requires |points| == |cursors| <= data.Length1 && n <= data.Length0
    reads data
  {
    forall c :: 0 <= c < |points| ==> Filled(data, start, points[c], cursors[c], c, n)
  }

  /** The inner loop of step 4: every column's cell of row r. */
  method FillFrame(data: array2<Option<real>>, start: int, r: nat, points0: seq<seq<Point>>, cursors0: seq<nat>)
    returns (points: seq<seq<Point>>, cursors: seq<nat>)
    requires r < data.Length0 && |points0| == |cursors0| <= data.Length1
    requires AllFilled(data, start, points0, cursors0, r)
    ensures |points| == |cursors| == |points0|
    ensures AllFilled(data, start, points, cursors, r + 1)
  {
    points, cursors := points0, cursors0;
    ghost var next := r + 1;
    for c := 0 to |points0|
      invariant |points| == |cursors| == |points0|
      invariant forall c2 :: 0 <= c2 < c ==> Filled(data, start, points[c2], cursors[c2], c2, next)
      invariant forall c2 :: c <= c2 < |points| ==> points[c2] == points0[c2] && cursors[c2] == cursors0[c2]
    {
      var pts, k := FillCell(data, start, r, c, points[c], cursors[c]);
      points := points[c := pts];
      cursors := cursors[c := k];
    }
  }

  /** Steps 3 and 4 for the first `width` columns: allocate as many points as
      each column has valid cells, then walk the table row by row, putting
      each valid cell at its column's cursor. */
  method FillPoints(data: array2<Option<real>>, start: int, counts: seq<nat>, width: nat) returns (points: seq<seq<Point>>)
    requires width <= |counts| == data.Length1
    requires forall c :: 0 <= c < data.Length1 ==> counts[c] == Count(ColumnOf(data, c))
    ensures |points| == width
    ensures forall c :: 0 <= c < width ==> points[c] == Packed(ColumnOf(data, c), start)
  {
    points := seq(width, c requires 0 <= c < width => seq(counts[c], _ => NewPoint));
    var cursors: seq<nat> := seq(width, _ => 0);
    FillStart(data, start, counts, points, cursors);
    points, cursors := FillRows(data, start, points, cursors);
    FillDone(data, start, points, cursors);
  }

  /** The outer loop of step 4: the table row by row. */
  method FillRows(data: array2<Option<real>>, start: int, points0: seq<seq<Point>>, cursors0: seq<nat>)
    returns (points: seq<seq<Point>>, cursors: seq<nat>)
    requires |points0| == |cursors0| <= data.Length1
    requires AllFilled(data, start, points0, cursors0, 0)
    ensures |points| == |cursors| == |points0|
    ensures AllFilled(data, start, points, cursors, data.Length0)
  {
    points, cursors := points0, cursors0;
    for r := 0 to data.Length0
      invariant |points| == |cursors| == |points0|
      invariant AllFilled(data, start, points, cursors, r)
    {
      points, cursors := FillFrame(data, start, r, points, cursors);
    }
  }

  /** Before the first row every cursor is 0 and every column has its count
      of fresh points. */
  lemma FillStart(data: array2<Option<real>>, start: int, counts: seq<nat>, points: seq<seq<Point>>, cursors: seq<nat>)
    requires |points| == |cursors| <= |counts| == data.Length1
    requires forall c :: 0 <= c < data.Length1 ==> counts[c] == Count(ColumnOf(data, c))
    requires forall c :: 0 <= c < |points| ==> |points[c]| == counts[c] && cursors[c] == 0
    ensures AllFilled(data, start, points, cursors, 0)
  {
  }

  /** After the last row each column's points are its packing. */
  lemma FillDone(data: array2<Option<real>>, start: int, points: seq<seq<Point>>, cursors: seq<nat>)
    requires |points| == |cursors| <= data.Length1
    requires AllFilled(data, start, points, cursors, data.Length0)
    ensures forall c :: 0 <= c < |points| ==> points[c] == Packed(ColumnOf(data, c), start)
  {
    forall c | 0 <= c < |points|
      ensures points[c] == Packed(ColumnOf(data, c), start)
    {
      assert Filled(data, start, points[c], cursors[c], c, data.Length0);
      assert points[c][..cursors[c]] == points[c];
    }
  }

  /** The keys of the curves of a list of columns. */
  function KeysOf(columns: seq<ColumnSpec>): set<CurveKey>
  {
    if columns == [] then {} else KeysOf(columns[..|columns| - 1]) + {KeyOf(columns[|columns| - 1])}
  }

  /** The slot keys of a list of columns. */
  function SlotsOf(columns: seq<ColumnSpec>): set<string>
  {
    if columns == [] then {} else SlotsOf(columns[..|columns| - 1]) + {SlotKey(columns[|columns| - 1].slot)}
  }

  /** Every column's key is among the keys, and its slot key among the slots. */
  lemma {:induction false} KeysOfHas(columns: seq<ColumnSpec>, i: nat)
    requires i < |columns|
    ensures KeyOf(columns[i]) in KeysOf(columns) && SlotKey(columns[i].slot) in SlotsOf(columns)
  {
    var n := |columns| - 1;
    if i < n {
      KeysOfHas(columns[..n], i);
    }
  }

  /** The curves after the columns' point lists are written in order. */
  function Stored(m: map<CurveKey, seq<Point>>, columns: seq<ColumnSpec>, points: seq<seq<Point>>): map<CurveKey, seq<Point>>
    requires |points| == |columns|
  {
    if columns == [] then m
    else
      var n := |columns| - 1;
      Stored(m, columns[..n], points[..n])[KeyOf(columns[n]) := points[n]]
  }

  /** With distinct keys, every column's curve holds its own point list, the
      keys are the old ones and the columns', and other curves are kept. */
  lemma {:induction false} StoredSpec(m: map<CurveKey, seq<Point>>, columns: seq<ColumnSpec>, points: seq<seq<Point>>)
    requires |points| == |columns|
    requires forall i, j :: 0 <= i < j < |columns| ==> KeyOf(columns[i]) != KeyOf(columns[j])
    ensures var r := Stored(m, columns, points);
      && r.Keys == m.Keys + KeysOf(columns)
      && (forall i :: 0 <= i < |columns| ==> KeyOf(columns[i]) in r && r[KeyOf(columns[i])] == points[i])
      && (forall k :: k in m && k !in KeysOf(columns) ==> r[k] == m[k])
  {
    if columns != [] {
      var n := |columns| - 1;
      StoredSpec(m, columns[..n], points[..n]);
      var r0 := Stored(m, columns[..n], points[..n]);
      forall i | 0 <= i < n
        ensures KeyOf(columns[i]) in r0 && r0[KeyOf(columns[i])] == points[i]
      {
        assert columns[..n][i] == columns[i] && points[..n][i] == points[i];
      }
    }
  }

  /** Reading back what was stored: get_fcurve_keyframes on the curve found
      for a column gives that column's points, on a key of no column what it
      gave before, so no keyframe of an unrelated curve is lost or added. */
  lemma StoredReadBack(m: map<CurveKey, seq<Point>>, columns: seq<ColumnSpec>, points: seq<seq<Point>>, k: CurveKey)
    requires |points| == |columns|
    requires forall i, j :: 0 <= i < j < |columns| ==> KeyOf(columns[i]) != KeyOf(columns[j])
    ensures forall i :: 0 <= i < |columns| ==>
      FcurveKeyframes(FindCurve(Stored(m, columns, points), KeyOf(columns[i]))) == points[i]
    ensures k !in KeysOf(columns) ==>
      FcurveKeyframes(FindCurve(Stored(m, columns, points), k)) == FcurveKeyframes(FindCurve(m, k))
  {
    StoredSpec(m, columns, points);
  }

  /** An empty point list per column. */
  function NoPoints(n: nat): (r: seq<seq<Point>>)
    ensures |r| == n && forall i :: 0 <= i < n ==> r[i] == []
  {
    seq(n, _ => [])
  }

  /** Step 1: every column's curve is created if missing and cleared. */
  method ClearCurves(action: Action, columns: seq<ColumnSpec>)
    modifies action
    ensures action.slots == old(action.slots) + SlotsOf(columns)
    ensures action.curves == Stored(old(action.curves), columns, NoPoints(|columns|))
  {
    for i := 0 to |columns|
      invariant action.slots == old(action.slots) + SlotsOf(columns[..i])
      invariant action.curves == Stored(old(action.curves), columns[..i], NoPoints(i))
    {
      assert columns[..i + 1][..i] == columns[..i];
      assert NoPoints(i + 1)[..i] == NoPoints(i);
      action.ClearedFcurve(columns[i]);
    }
    assert columns[..|columns|] == columns;
  }

  /** Step 4's writes through the curves: each column's points become its
      curve's keyframes. */
  method StoreCurves(action: Action, columns: seq<ColumnSpec>, points: seq<seq<Point>>)
    requires |points| == |columns|
    modifies action
    ensures action.slots == old(action.slots)
    ensures action.curves == Stored(old(action.curves), columns, points)
  {
    for i := 0 to |columns|
      invariant action.slots == old(action.slots)
      invariant action.curves == Stored(old(action.curves), columns[..i], points[..i])
    {
      assert columns[..i + 1][..i] == columns[..i];
      assert points[..i + 1][..i] == points[..i];
      action.curves := action.curves[KeyOf(columns[i]) := points[i]];
    }
    assert columns[..|columns|] == columns;
    assert points[..|points|] == points;
  }

  /** set_fcurves_from_numpy: nothing happens without an action, columns or
      data. Otherwise every column's curve is created if missing and
      cleared, and ends up holding exactly the packing of its column of the
      table from `start`: one keyframe per valid cell, at the cell's frame.
      Curves of other columns are untouched. */
  method SetFcurvesFromNumpy(action: Action?, columns: seq<ColumnSpec>, start: int, data: array2<Option<real>>)
    requires |columns| <= data.Length1
    requires forall i, j :: 0 <= i < j < |columns| ==> KeyOf(columns[i]) != KeyOf(columns[j])
    modifies action
    ensures action != null && (columns == [] || data.Length0 == 0 || data.Length1 == 0) ==>
      action.slots == old(action.slots) && action.curves == old(action.curves)
    ensures action != null && columns != [] && data.Length0 != 0 && data.Length1 != 0 ==>
      && action.slots == old(action.slots) + SlotsOf(columns)
      && action.curves.Keys == old(action.curves).Keys + KeysOf(columns)
      && (forall i :: 0 <= i < |columns| ==>
            KeyOf(columns[i]) in action.curves && action.curves[KeyOf(columns[i])] == Packed(ColumnOf(data, i), start))
      && (forall k :: k in old(action.curves) && k !in KeysOf(columns) ==> action.curves[k] == old(action.curves)[k])
    ensures action != null && columns != [] && data.Length0 != 0 && data.Length1 != 0 ==>
      forall i :: 0 <= i < |columns| ==>
        FcurveKeyframes(FindCurve(action.curves, KeyOf(columns[i]))) == Packed(ColumnOf(data, i), start)
  {
    if action == null || columns == [] || data.Length0 == 0 || data.Length1 == 0 {
      return;
    }
    ClearCurves(action, columns);
    ghost var cleared := action.curves;
    StoredSpec(old(action.curves), columns, NoPoints(|columns|));
    var counts := ValidCounts(data);
    var points := FillPoints(data, start, counts, |columns|);
    StoreCurves(action, columns, points);
    StoredSpec(cleared, columns, points);
  }

  /** After the packing every column's slot is found by action_has_slot. */
  lemma SlotsFound(action: Action, columns: seq<ColumnSpec>, slots0: set<string>)
    requires action.slots == slots0 + SlotsOf(columns)
    ensures forall i :: 0 <= i < |columns| ==> action.HasSlot(columns[i].slot)
  {
    forall i | 0 <= i < |columns| ensures action.HasSlot(columns[i].slot) {
      KeysOfHas(columns, i);
    }
  }
}
