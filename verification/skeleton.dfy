/** Skeleton definitions: a tree of joints with names and optional ids, the
    lookups by id and by name, the body-part labelling of the joints, and the
    Hip/Neck midpoint markers of the COCO-133 skeleton. */
module Skeletons {
  import opened Common

  /** A joint of the skeleton tree; virtual joints have no id. */
  datatype Joint = Joint(name: string, id: Option<int>, children: seq<Joint>)

  /** A body part: the part `name` starts at the joint `parentNodeName`; with
      `includeParent` that joint belongs to the part itself. */
  datatype BodyPartDef = BodyPartDef(name: string, parentNodeName: string, includeParent: bool)

  const UnknownPart: string := "Unknown"

  // ---------------------------------------------------------------------------
  // Traversal and lookups

  /** The joints in pre-order, the order in which the tree search reports them. */
  function Preorder(t: Joint): (r: seq<Joint>)
    ensures |r| >= 1 && r[0] == t
    decreases t, 1
  {
    [t] + PreorderAll(t.children)
  }

  function PreorderAll(cs: seq<Joint>): seq<Joint>
    decreases cs, 0
  {
    if cs == [] then [] else Preorder(cs[0]) + PreorderAll(cs[1..])
  }

  /** The elements of s satisfying f, in order. */
  function Filter<T>(s: seq<T>, f: T -> bool): (r: seq<T>)
    ensures |r| <= |s|
    ensures forall x :: x in r ==> x in s && f(x)
  {
    if s == [] then []
    else (if f(s[0]) then [s[0]] else []) + Filter(s[1..], f)
  }

  /** Position i is the only one of s whose element satisfies f. */
  ghost predicate UniqueAt<T>(s: seq<T>, f: T -> bool, i: int)
  {
    0 <= i < |s| && f(s[i]) && forall k :: 0 <= k < |s| && f(s[k]) ==> k == i
  }

  /** A search that matches at a single position finds that element alone. */
  lemma {:induction false} FilterUnique<T>(s: seq<T>, f: T -> bool, i: int)
    requires UniqueAt(s, f, i)
    ensures Filter(s, f) == [s[i]]
  {
    if i == 0 {
      forall k | 0 <= k < |s[1..]| ensures !f(s[1..][k]) {
        assert s[1..][k] == s[k + 1];
      }
      FilterNone(s[1..], f);
    } else {
      assert !f(s[0]);
      assert UniqueAt(s[1..], f, i - 1) by {
        forall k | 0 <= k < |s[1..]| && f(s[1..][k]) ensures k == i - 1 {
          assert f(s[k + 1]);
        }
      }
      FilterUnique(s[1..], f, i - 1);
    }
  }

  /** A search that matches nowhere finds nothing. */
  lemma {:induction false} FilterNone<T>(s: seq<T>, f: T -> bool)
    requires forall k :: 0 <= k < |s| ==> !f(s[k])
    ensures Filter(s, f) == []
  {
    if s != [] {
      FilterNone(s[1..], f);
    }
  }

  /** A search that finds exactly one element matches at a single position. */
  lemma {:induction false} FilterOne<T>(s: seq<T>, f: T -> bool) returns (i: int)
    requires |Filter(s, f)| == 1
    ensures UniqueAt(s, f, i) && Filter(s, f) == [s[i]]
  {
    var rest := Filter(s[1..], f);
    if f(s[0]) {
      assert rest == [];
      forall k | 0 < k < |s| ensures !f(s[k]) {
        if f(s[k]) {
          FilterMember(s[1..], f, k - 1);
        }
      }
      i := 0;
    } else {
      var j := FilterOne(s[1..], f);
      i := j + 1;
      forall k | 0 <= k < |s| && f(s[k]) ensures k == i {
        assert k != 0 && f(s[1..][k - 1]);
      }
    }
  }

  /** Every matching element is found. */
  lemma {:induction false} FilterMember<T>(s: seq<T>, f: T -> bool, i: int)
    requires 0 <= i < |s| && f(s[i])
    ensures s[i] in Filter(s, f)
  {
    if i > 0 {
      FilterMember(s[1..], f, i - 1);
    }
  }

  /** The search finds exactly one element precisely when exactly one
      position matches, and then it finds that element. */
  lemma FilterSingle<T>(s: seq<T>, f: T -> bool)
    ensures |Filter(s, f)| == 1 <==> exists i :: UniqueAt(s, f, i)
    ensures forall i :: UniqueAt(s, f, i) ==> Filter(s, f) == [s[i]]
  {
    if |Filter(s, f)| == 1 {
      var i := FilterOne(s, f);
    }
    forall i | UniqueAt(s, f, i) ensures Filter(s, f) == [s[i]] {
      FilterUnique(s, f, i);
    }
  }

  function IdIs(j: int): Joint -> bool
  {
    (n: Joint) => n.id == Some(j)
  }

  function NameIs(name: string): Joint -> bool
  {
    (n: Joint) => n.name == name
  }

  /** get_joint_name: the name of the only joint carrying the id; None for a
      missing id and for zero or several matches. */
  function JointName(t: Joint, id: Option<int>): (r: Option<string>)
    ensures id.None? ==> r.None?
  {
    match id
    case None => None
    case Some(j) =>
      var nodes := Filter(Preorder(t), IdIs(j));
      if |nodes| == 1 then Some(nodes[0].name) else None
  }

  /** get_joint_id: the id of the only joint with that exact name; None for a
      missing name, for zero or several matches, and for a virtual joint. */
  function JointId(t: Joint, name: Option<string>): (r: Option<int>)
    ensures name.None? ==> r.None?
  {
    match name
    case None => None
    case Some(n) =>
      var nodes := Filter(Preorder(t), NameIs(n));
      if |nodes| == 1 then nodes[0].id else None
  }

  /** A name comes back exactly when one joint of the tree has the id. */
  lemma JointNameSpec(t: Joint, j: int, n: string)
    ensures JointName(t, Some(j)) == Some(n) ==>
      exists i :: UniqueAt(Preorder(t), IdIs(j), i) && Preorder(t)[i].name == n
    ensures (exists i :: UniqueAt(Preorder(t), IdIs(j), i) && Preorder(t)[i].name == n) ==>
      JointName(t, Some(j)) == Some(n)
  {
    var s := Preorder(t);
    if JointName(t, Some(j)) == Some(n) {
      var i := FilterOne(s, IdIs(j));
      assert UniqueAt(s, IdIs(j), i) && s[i].name == n;
    }
    if exists i :: UniqueAt(Preorder(t), IdIs(j), i) && Preorder(t)[i].name == n {
      var i :| UniqueAt(Preorder(t), IdIs(j), i) && Preorder(t)[i].name == n;
      FilterUnique(s, IdIs(j), i);
      assert Filter(Preorder(t), IdIs(j)) == [s[i]];
    }
  }

  /** An id comes back exactly when one joint of the tree has the name, and
      that joint has an id. */
  lemma JointIdSpec(t: Joint, n: string, j: int)
    ensures JointId(t, Some(n)) == Some(j) ==>
      exists i :: UniqueAt(Preorder(t), NameIs(n), i) && Preorder(t)[i].id == Some(j)
    ensures (exists i :: UniqueAt(Preorder(t), NameIs(n), i) && Preorder(t)[i].id == Some(j)) ==>
      JointId(t, Some(n)) == Some(j)
  {
    var s := Preorder(t);
    if JointId(t, Some(n)) == Some(j) {
      var i := FilterOne(s, NameIs(n));
      assert UniqueAt(s, NameIs(n), i) && s[i].id == Some(j);
    }
    if exists i :: UniqueAt(Preorder(t), NameIs(n), i) && Preorder(t)[i].id == Some(j) {
      var i :| UniqueAt(Preorder(t), NameIs(n), i) && Preorder(t)[i].id == Some(j);
      FilterUnique(s, NameIs(n), i);
      assert Filter(Preorder(t), NameIs(n)) == [s[i]];
    }
  }

  // ---------------------------------------------------------------------------
  // Body parts

  /** The first definition whose part starts at the joint `name`. */
  function FindDef(defs: seq<BodyPartDef>, name: string): (d: Option<BodyPartDef>)
    ensures d.Some? ==> d.value in defs && d.value.parentNodeName == name
    ensures d.None? ==> forall k :: 0 <= k < |defs| ==> defs[k].parentNodeName != name
  {
    if defs == [] then None
    else if defs[0].parentNodeName == name then Some(defs[0])
    else FindDef(defs[1..], name)
  }

  /** The label a joint gets, given the label handed down by its parent. */
  function Own(defs: seq<BodyPartDef>, t: Joint, inherited: string): string
  {
    match FindDef(defs, t.name)
    case Some(d) => if d.includeParent then d.name else inherited
    case None => inherited
  }

  /** The label a joint hands down to its children. */
  function HandedDown(defs: seq<BodyPartDef>, t: Joint, inherited: string): string
  {
    match FindDef(defs, t.name)
    case Some(d) => d.name
    case None => inherited
  }

  /** _update_body_part_map_children as a function of the map before the call:
      the joint's own label is written first, then each child's subtree in turn. */
  function Propagate(defs: seq<BodyPartDef>, m: map<string, string>, t: Joint, inherited: string): (r: map<string, string>)
    ensures r.Keys == m.Keys + Names(t)
    ensures forall k :: k in m && k !in Names(t) ==> r[k] == m[k]
    decreases t, 1
  {
    PropagateAll(defs, m[t.name := Own(defs, t, inherited)], t.children, HandedDown(defs, t, inherited))
  }

  function PropagateAll(defs: seq<BodyPartDef>, m: map<string, string>, cs: seq<Joint>, inherited: string): (r: map<string, string>)
    ensures r.Keys == m.Keys + NamesAll(cs)
    ensures forall k :: k in m && k !in NamesAll(cs) ==> r[k] == m[k]
    decreases cs, 0
  {
    if cs == [] then m else PropagateAll(defs, Propagate(defs, m, cs[0], inherited), cs[1..], inherited)
  }

  function Names(t: Joint): set<string>
    decreases t, 1
  {
    {t.name} + NamesAll(t.children)
  }

  function NamesAll(cs: seq<Joint>): (r: set<string>)
    ensures forall i :: 0 <= i < |cs| ==> Names(cs[i]) <= r
    decreases cs, 0
  {
    if cs == [] then {}
    else
      var r := Names(cs[0]) + NamesAll(cs[1..]);
      assert forall i :: 1 <= i < |cs| ==> cs[i] == cs[1..][i - 1];
      r
  }

  /** No joint name occurs twice in the tree. */
  predicate Distinct(t: Joint)
    decreases t, 1
  {
    t.name !in NamesAll(t.children) && DistinctAll(t.children)
  }

  predicate DistinctAll(cs: seq<Joint>)
    decreases cs, 0
  {
    cs == [] || (Distinct(cs[0]) && Names(cs[0]) !! NamesAll(cs[1..]) && DistinctAll(cs[1..]))
  }

  lemma {:induction false} DistinctAllMember(cs: seq<Joint>, i: int)
    requires 0 <= i < |cs| && DistinctAll(cs)
    ensures Distinct(cs[i])
  {
    if i > 0 {
      DistinctAllMember(cs[1..], i - 1);
    }
  }

  /** The labels written for a subtree do not depend on the map they are written into. */
  lemma {:induction false} PropagateLocal(defs: seq<BodyPartDef>, m1: map<string, string>, m2: map<string, string>, t: Joint, inherited: string)
    ensures forall k :: k in Names(t) ==> Propagate(defs, m1, t, inherited)[k] == Propagate(defs, m2, t, inherited)[k]
    decreases t, 1
  {
    var own := Own(defs, t, inherited);
    var down := HandedDown(defs, t, inherited);
    PropagateAllLocal(defs, m1[t.name := own], m2[t.name := own], t.children, down);
  }

  lemma {:induction false} PropagateAllLocal(defs: seq<BodyPartDef>, m1: map<string, string>, m2: map<string, string>, cs: seq<Joint>, inherited: string)
    ensures forall k :: k in NamesAll(cs) ==> PropagateAll(defs, m1, cs, inherited)[k] == PropagateAll(defs, m2, cs, inherited)[k]
    decreases cs, 0
  {
    if cs != [] {
      var p1 := Propagate(defs, m1, cs[0], inherited);
      var p2 := Propagate(defs, m2, cs[0], inherited);
      PropagateLocal(defs, m1, m2, cs[0], inherited);
      PropagateAllLocal(defs, p1, p2, cs[1..], inherited);
    }
  }

  /** With distinct names, the labels a list of siblings leaves on the i-th
      subtree are those the i-th subtree gets on its own. */
  lemma {:induction false} PropagateAllPicks(defs: seq<BodyPartDef>, m: map<string, string>, cs: seq<Joint>, inherited: string, i: int, k: string)
    requires DistinctAll(cs) && 0 <= i < |cs| && k in Names(cs[i])
    ensures PropagateAll(defs, m, cs, inherited)[k] == Propagate(defs, map[], cs[i], inherited)[k]
    decreases cs
  {
    var p := Propagate(defs, m, cs[0], inherited);
    assert PropagateAll(defs, m, cs, inherited) == PropagateAll(defs, p, cs[1..], inherited);
    if i == 0 {
      assert k !in NamesAll(cs[1..]);
      PropagateLocal(defs, m, map[], cs[0], inherited);
    } else {
      assert cs[i] == cs[1..][i - 1];
      PropagateAllPicks(defs, p, cs[1..], inherited, i - 1, k);
    }
  }

  /** The labelling rule stated on the finished map alone: the root gets its
      own label, and along every parent-child edge the child gets its own label
      given what the parent hands down, which is the parent's part when the
      parent starts one and the parent's label otherwise. */
  ghost predicate EdgesLabelled(defs: seq<BodyPartDef>, m: map<string, string>, t: Joint)
    decreases t
  {
    && t.name in m
    && forall i :: 0 <= i < |t.children| ==>
      var c := t.children[i];
      && c.name in m
      && m[c.name] == Own(defs, c, HandedDown(defs, t, m[t.name]))
      && EdgesLabelled(defs, m, c)
  }

  lemma {:induction false} EdgesAgree(defs: seq<BodyPartDef>, m1: map<string, string>, m2: map<string, string>, t: Joint)
    requires forall k :: k in Names(t) ==> (k in m1 <==> k in m2) && (k in m1 ==> m1[k] == m2[k])
    ensures EdgesLabelled(defs, m1, t) <==> EdgesLabelled(defs, m2, t)
    decreases t
  {
    forall i | 0 <= i < |t.children|
      ensures EdgesLabelled(defs, m1, t.children[i]) <==> EdgesLabelled(defs, m2, t.children[i])
      ensures t.children[i].name in Names(t)
    {
      EdgesAgree(defs, m1, m2, t.children[i]);
    }
  }

  /** The labelling of a tree with distinct joint names follows the rule: the
      root gets its own label given the inherited one, and every edge is
      labelled as EdgesLabelled says. */
  lemma {:induction false} PropagateLabels(defs: seq<BodyPartDef>, m: map<string, string>, t: Joint, inherited: string)
    requires Distinct(t)
    ensures var r := Propagate(defs, m, t, inherited);
      && t.name in r && r[t.name] == Own(defs, t, inherited)
      && EdgesLabelled(defs, r, t)
    decreases t
  {
    var own := Own(defs, t, inherited);
    var down := HandedDown(defs, t, inherited);
    var m1 := m[t.name := own];
    var r := Propagate(defs, m, t, inherited);
    assert r[t.name] == own;
    assert HandedDown(defs, t, r[t.name]) == down;
    forall i | 0 <= i < |t.children|
      ensures var c := t.children[i];
        c.name in r && r[c.name] == Own(defs, c, down) && EdgesLabelled(defs, r, c)
    {
      var c := t.children[i];
      DistinctAllMember(t.children, i);
      forall k | k in Names(c) ensures r[k] == Propagate(defs, map[], c, down)[k] {
        PropagateAllPicks(defs, m1, t.children, down, i, k);
      }
      PropagateLabels(defs, map[], c, down);
      EdgesAgree(defs, r, Propagate(defs, map[], c, down), c);
    }
  }

  /** Below a joint, a subtree in which no joint starts a part carries the
      label handed down to it on every joint. */
  lemma {:induction false} UniformBelow(defs: seq<BodyPartDef>, m: map<string, string>, t: Joint, part: string)
    requires EdgesLabelled(defs, m, t) && m[t.name] == part
    requires forall k :: k in Names(t) ==> FindDef(defs, k).None?
    ensures forall k :: k in Names(t) ==> k in m && m[k] == part
    decreases t
  {
    forall i | 0 <= i < |t.children|
      ensures forall k :: k in Names(t.children[i]) ==> k in m && m[k] == part
    {
      UniformBelow(defs, m, t.children[i], part);
    }
    NamesAllCovered(t.children);
  }

  lemma {:induction false} NamesAllCovered(cs: seq<Joint>)
    ensures forall k :: k in NamesAll(cs) ==> exists i :: 0 <= i < |cs| && k in Names(cs[i])
  {
    if cs != [] {
      NamesAllCovered(cs[1..]);
      forall k | k in NamesAll(cs[1..]) ensures exists i :: 0 <= i < |cs| && k in Names(cs[i]) {
        var i :| 0 <= i < |cs[1..]| && k in Names(cs[1..][i]);
        assert k in Names(cs[i + 1]);
      }
    }
  }

  /** A skeleton: its tree, its name, its part definitions, whether it is the
      COCO-133 skeleton with the Hip/Neck markers, and the joint-to-part map. */
  class Skeleton {
    const tree: Joint
    const name: string
    const bodyParts: seq<BodyPartDef>
    const coco133: bool
    var bodyPartMap: map<string, string>

    /** __init__: label the whole tree, starting from "Unknown". The map
        starts empty here; see the note on the shared dictionary. */
    constructor(tree0: Joint, name0: string, bodyParts0: seq<BodyPartDef>, coco: bool)
      ensures tree == tree0 && name == name0 && bodyParts == bodyParts0 && coco133 == coco
      ensures bodyPartMap == Propagate(bodyParts0, map[], tree0, UnknownPart)
    {
      tree, name, bodyParts, coco133 := tree0, name0, bodyParts0, coco;
      bodyPartMap := map[];
      new;
      UpdateBodyPartMap(tree0, UnknownPart);
    }

    /** _update_body_part_map_children: write the joint's label, then walk
        its children with the label it hands down. */
    method UpdateBodyPartMap(t: Joint, inherited: string)
      modifies this
      ensures bodyPartMap == Propagate(bodyParts, old(bodyPartMap), t, inherited)
      decreases t
    {
      var d := FindDef(bodyParts, t.name);
      var current := inherited;
      var down := inherited;
      if d.Some? {
        if d.value.includeParent {
          current := d.value.name;
        }
        down := d.value.name;
      }
      bodyPartMap := bodyPartMap[t.name := current];
      ghost var target := Propagate(bodyParts, old(bodyPartMap), t, inherited);
      for i := 0 to |t.children|
        invariant PropagateAll(bodyParts, bodyPartMap, t.children[i..], down) == target
      {
        assert t.children[i..][1..] == t.children[i + 1..];
        UpdateBodyPartMap(t.children[i], down);
      }
      assert t.children[|t.children|..] == [];
    }

    /** body_part: the joint's part, "Unknown" for a joint the map lacks. */
    function BodyPart(joint: string): (r: string)
      reads this
      ensures joint !in bodyPartMap ==> r == UnknownPart
      ensures joint in bodyPartMap ==> r == bodyPartMap[joint]
    {
      if joint in bodyPartMap then bodyPartMap[joint] else UnknownPart
    }

    /** body_parts: the part names in definition order. */
    function BodyPartNames(): (r: seq<string>)
      ensures |r| == |bodyParts| && forall i :: 0 <= i < |bodyParts| ==> r[i] == bodyParts[i].name
    {
      seq(|bodyParts|, i requires 0 <= i < |bodyParts| => bodyParts[i].name)
    }

    /** calculate_fake_marker_pos: the COCO-133 override, or the base class's
        placeholder, which gives None. */
    function FakeMarkerPos(marker: string, data: map<string, seq<real>>): (r: Option<seq<real>>)
      ensures !coco133 ==> r.None?
    {
      if coco133 then Coco133FakeMarker(marker, data) else None
    }
  }

  /** The skeleton built from a labelled tree answers body_part by the
      labelling rule: every joint of a tree with distinct names has a label,
      the root's is "Unknown" unless it starts a part that includes it, and
      every edge follows EdgesLabelled. */
  lemma SkeletonLabels(s: Skeleton)
    requires s.bodyPartMap == Propagate(s.bodyParts, map[], s.tree, UnknownPart) && Distinct(s.tree)
    ensures forall k :: k in Names(s.tree) ==> k in s.bodyPartMap && s.BodyPart(k) == s.bodyPartMap[k]
    ensures forall k :: k !in Names(s.tree) ==> s.BodyPart(k) == UnknownPart
    ensures s.BodyPart(s.tree.name) == Own(s.bodyParts, s.tree, UnknownPart)
    ensures EdgesLabelled(s.bodyParts, s.bodyPartMap, s.tree)
  {
    PropagateLabels(s.bodyParts, map[], s.tree, UnknownPart);
  }

  // ---------------------------------------------------------------------------
  // Fake markers

  /** Python truthiness of a looked-up marker: present and non-empty. */
  predicate Usable(v: Option<seq<real>>)
  {
    v.Some? && v.value != []
  }

  /** The componentwise midpoint of two markers of equal length. */
  function Midpoint(a: seq<real>, b: seq<real>): (r: seq<real>)
    requires |a| == |b|
    ensures |r| == |a|
    ensures forall i :: 0 <= i < |a| ==> r[i] - a[i] == b[i] - r[i]
  {
    seq(|a|, i requires 0 <= i < |a| => (a[i] + b[i]) / 2.0)
  }

  function Lookup(data: map<string, seq<real>>, key: string): Option<seq<real>>
  {
    if key in data then Some(data[key]) else None
  }

  /** The midpoint of the markers `right` and `left` when both are usable and
      of equal length, None otherwise. */
  function PairMidpoint(data: map<string, seq<real>>, right: string, left: string): (r: Option<seq<real>>)
    ensures r.Some? <==> Usable(Lookup(data, right)) && Usable(Lookup(data, left)) && |data[right]| == |data[left]|
    ensures r.Some? ==> r.value == Midpoint(data[right], data[left])
  {
    var rd := Lookup(data, right);
    var ld := Lookup(data, left);
    if Usable(rd) && Usable(ld) && |rd.value| == |ld.value| then Some(Midpoint(rd.value, ld.value)) else None
  }

  /** COCO133Skeleton.calculate_fake_marker_pos. */
  function Coco133FakeMarker(marker: string, data: map<string, seq<real>>): (r: Option<seq<real>>)
    ensures marker != "Hip" && marker != "Neck" ==> r.None?
  {
    if marker == "Hip" then PairMidpoint(data, "RHip", "LHip")
    else if marker == "Neck" then PairMidpoint(data, "RShoulder", "LShoulder")
    else None
  }

  /** The Hip marker is the midpoint of the two hips, the Neck marker that of
      the two shoulders; the result does not depend on which side is which. */
  lemma FakeMarkerSpec(data: map<string, seq<real>>)
    ensures var hip := Coco133FakeMarker("Hip", data);
      && (hip.Some? <==> "RHip" in data && "LHip" in data && data["RHip"] != [] && |data["RHip"]| == |data["LHip"]|)
      && (hip.Some? ==> forall i :: 0 <= i < |hip.value| ==>
            hip.value[i] - data["RHip"][i] == data["LHip"][i] - hip.value[i])
    ensures var neck := Coco133FakeMarker("Neck", data);
      && (neck.Some? <==> "RShoulder" in data && "LShoulder" in data && data["RShoulder"] != [] && |data["RShoulder"]| == |data["LShoulder"]|)
      && (neck.Some? ==> forall i :: 0 <= i < |neck.value| ==>
            neck.value[i] - data["RShoulder"][i] == data["LShoulder"][i] - neck.value[i])
  {
  }

  lemma MidpointSymmetric(a: seq<real>, b: seq<real>)
    requires |a| == |b|
    ensures Midpoint(a, b) == Midpoint(b, a)
  {
  }

  // ---------------------------------------------------------------------------
  // The factory

  const Coco133Parts: seq<BodyPartDef> := [
    BodyPartDef("Torso", "Hip", true),
    BodyPartDef("Left leg", "LHip", false),
    BodyPartDef("Right leg", "RHip", false),
    BodyPartDef("Left arm", "LShoulder", false),
    BodyPartDef("Right arm", "RShoulder", false),
    BodyPartDef("Head", "Head", false),
    BodyPartDef("Left hand", "LPalm", true),
    BodyPartDef("Right hand", "RPalm", true),
    BodyPartDef("Left foot", "LAnkle", false),
    BodyPartDef("Right foot", "RAnkle", false)
  ]

  /** get_skeleton: "COCO_133" gives the COCO-133 skeleton with its part
      definitions; any other name is looked up among the skeleton definitions
      (a parameter here) and gives a plain skeleton without parts, or the
      ValueError when there is none. */
  method GetSkeleton(skeletonName: string, coco133Tree: Joint, definitions: string -> Option<Joint>)
    returns (r: Result<Skeleton, string>)
    ensures skeletonName == "COCO_133" ==>
      r.Ok? && r.value.coco133 && r.value.tree == coco133Tree && r.value.name == "COCO_133" && r.value.bodyParts == Coco133Parts
    ensures skeletonName == "COCO_133" ==>
      r.Ok? && r.value.BodyPartNames() ==
        ["Torso", "Left leg", "Right leg", "Left arm", "Right arm", "Head",
         "Left hand", "Right hand", "Left foot", "Right foot"]
    ensures skeletonName != "COCO_133" && definitions(skeletonName).None? ==>
      r == Err("No skeleton definition found for '" + skeletonName + "'")
    ensures skeletonName != "COCO_133" && definitions(skeletonName).Some? ==>
      r.Ok? && !r.value.coco133 && r.value.tree == definitions(skeletonName).value && r.value.name == skeletonName && r.value.bodyParts == []
    ensures skeletonName != "COCO_133" && r.Ok? ==> r.value.BodyPartNames() == []
    ensures r.Ok? ==> fresh(r.value) && r.value.bodyPartMap == Propagate(r.value.bodyParts, map[], r.value.tree, UnknownPart)
  {
    if skeletonName == "COCO_133" {
      var s := new Skeleton(coco133Tree, "COCO_133", Coco133Parts, true);
      return Ok(s);
    }
    match definitions(skeletonName)
    case None =>
      return Err("No skeleton definition found for '" + skeletonName + "'");
    case Some(def) =>
      var s := new Skeleton(def, skeletonName, [], false);
      return Ok(s);
  }
}
