/** The calibration facade: the scene keeps the camera calibration as a JSON
    text on a helper object; the facade parses it once and answers lookups by
    camera name. The JSON parser is a parameter of the model. */
module CalibrationData {
  import opened Common

  /** A parsed JSON value; an object keeps its entries in insertion order. */
  datatype Json =
    | JNull
    | JBool(b: bool)
    | JNum(n: real)
    | JStr(s: string)
    | JArr(items: seq<Json>)
    | JObj(entries: seq<(string, Json)>)

  const MetadataKey: string := "metadata"
  const EmptyObject: string := "{}"

  /** Python truthiness of a parsed value. */
  predicate Truthy(v: Json)
  {
    match v
    case JNull => false
    case JBool(b) => b
    case JNum(n) => n != 0.0
    case JStr(s) => s != ""
    case JArr(items) => items != []
    case JObj(entries) => entries != []
  }

  function Keys(entries: seq<(string, Json)>): (ks: seq<string>)
    ensures |ks| == |entries| && forall i :: 0 <= i < |entries| ==> ks[i] == entries[i].0
  {
    seq(|entries|, i requires 0 <= i < |entries| => entries[i].0)
  }

  /** dict.get(key): the value stored under key, JNull (Python None) when absent. */
  function Get(entries: seq<(string, Json)>, key: string): (v: Json)
    ensures key !in Keys(entries) ==> v == JNull
    ensures key in Keys(entries) ==> exists i :: 0 <= i < |entries| && entries[i] == (key, v)
  {
    if entries == [] then JNull
    else if entries[0].0 == key then entries[0].1
    else
      var v := Get(entries[1..], key);
      assert Keys(entries) == [entries[0].0] + Keys(entries[1..]);
      if key in Keys(entries[1..]) then
        var i :| 0 <= i < |entries[1..]| && entries[1..][i] == (key, v);
        assert entries[i + 1] == (key, v);
        v
      else v
  }

  /** The keys other than "metadata", in insertion order. */
  function CameraKeys(ks: seq<string>): (names: seq<string>)
  {
    if ks == [] then []
    else if ks[0] == MetadataKey then CameraKeys(ks[1..])
    else [ks[0]] + CameraKeys(ks[1..])
  }

  /** a occurs in b in the same order (b may hold more). */
  predicate IsSubsequence(a: seq<string>, b: seq<string>)
  {
    if a == [] then true
    else if b == [] then false
    else if a[0] == b[0] then IsSubsequence(a[1..], b[1..])
    else IsSubsequence(a, b[1..])
  }

  /** The camera names are exactly the keys other than "metadata", in the
      order the keys come in. */
  lemma {:induction false} CameraKeysSpec(ks: seq<string>)
    ensures forall k :: k in CameraKeys(ks) <==> k in ks && k != MetadataKey
    ensures IsSubsequence(CameraKeys(ks), ks)
    ensures MetadataKey !in ks ==> CameraKeys(ks) == ks
  {
    if ks != [] {
      CameraKeysSpec(ks[1..]);
      assert forall k :: k in ks <==> k == ks[0] || k in ks[1..];
      if ks[0] != MetadataKey {
        assert CameraKeys(ks)[1..] == CameraKeys(ks[1..]);
      } else {
        SubsequenceOfTail(CameraKeys(ks), ks);
      }
    }
  }

  /** A subsequence of the tail of b is a subsequence of b. */
  lemma {:induction false} SubsequenceOfTail(a: seq<string>, b: seq<string>)
    requires b != [] && IsSubsequence(a, b[1..])
    ensures IsSubsequence(a, b)
    decreases |b|, 0
  {
    if a != [] && a[0] == b[0] {
      SubsequenceHeadDrop(a, b[1..]);
    }
  }

  /** A subsequence of b stays one when its first element is dropped. */
  lemma {:induction false} SubsequenceHeadDrop(a: seq<string>, b: seq<string>)
    requires a != [] && IsSubsequence(a, b)
    ensures IsSubsequence(a[1..], b)
    decreases |b|, 1
  {
    if a[0] == b[0] {
      SubsequenceOfTail(a[1..], b);
    } else {
      SubsequenceHeadDrop(a, b[1..]);
      SubsequenceOfTail(a[1..], b);
    }
  }

  /** _load_data: no calibration object leaves the empty dictionary; a missing
      or empty property reads as "{}"; a text that does not parse gives the
      empty dictionary. */
  function Loaded(objectExists: bool, property: Option<string>, parse: string -> Option<Json>): Json
  {
    if !objectExists then JObj([])
    else
      var text := if property.None? || property.value == "" then EmptyObject else property.value;
      match parse(text)
      case None => JObj([])
      case Some(v) => v
  }

  /** Entry i stores camera `name` as an object whose "matrix" entry is m. */
  predicate StoredMatrix(entries: seq<(string, Json)>, i: int, name: string, m: Json)
  {
    && 0 <= i < |entries| && entries[i].0 == name && entries[i].1.JObj?
    && exists j :: 0 <= j < |entries[i].1.entries| && entries[i].1.entries[j] == ("matrix", m)
  }

  /** The facade; `data` is the parsed calibration. */
  class Calibration {
    var data: Json

    /** __init__: start from the empty dictionary, then _load_data. */
    constructor(objectExists: bool, property: Option<string>, parse: string -> Option<Json>)
      ensures data == Loaded(objectExists, property, parse)
    {
      data := JObj([]);
      if objectExists {
        var text := if property.None? || property.value == "" then EmptyObject else property.value;
        var parsed := parse(text);
        if parsed.Some? {
          data := parsed.value;
        } else {
          data := JObj([]);
        }
      }
    }

    /** get_camera_names; Err is the AttributeError raised when the parsed
        text is not a JSON object. */
    function CameraNames(): (r: Result<seq<string>, string>)
      reads this
      ensures r.Ok? <==> data.JObj?
    {
      match data
      case JObj(entries) => Ok(CameraKeys(Keys(entries)))
      case _ => Err("AttributeError")
    }

    /** get_camera_data. */
    function CameraData(name: string): (r: Result<Json, string>)
      reads this
      ensures r.Ok? <==> data.JObj?
    {
      match data
      case JObj(entries) => Ok(Get(entries, name))
      case _ => Err("AttributeError")
    }

    /** get_matrix: None for a falsy camera entry; the entry's "matrix" for an
        object; AttributeError for any other truthy entry. */
    function Matrix(name: string): (r: Result<Json, string>)
      reads this
      ensures r.Ok? <==> CameraData(name).Ok? && (!Truthy(CameraData(name).value) || CameraData(name).value.JObj?)
      ensures data.JObj? && name !in Keys(data.entries) ==> r == Ok(JNull)
      ensures r.Ok? && r.value != JNull ==>
        data.JObj? && exists i :: StoredMatrix(data.entries, i, name, r.value)
    {
      match CameraData(name)
      case Err(e) => Err(e)
      case Ok(cam) =>
        if !Truthy(cam) then Ok(JNull)
        else if cam.JObj? then
          var m := Get(cam.entries, "matrix");
          assert cam == Get(data.entries, name) && name in Keys(data.entries);
          var i :| 0 <= i < |data.entries| && data.entries[i] == (name, cam);
          assert m != JNull ==> StoredMatrix(data.entries, i, name, m);
          Ok(m)
        else Err("AttributeError")
    }
  }

  /** The three fallbacks of _load_data all end in the empty dictionary, given
      a parser that reads "{}" as the empty object. */
  lemma LoadFallbacks(objectExists: bool, property: Option<string>, parse: string -> Option<Json>)
    requires parse(EmptyObject) == Some(JObj([]))
    ensures !objectExists ==> Loaded(objectExists, property, parse) == JObj([])
    ensures (property.None? || property == Some("")) ==> Loaded(objectExists, property, parse) == JObj([])
    ensures property.Some? && parse(property.value).None? ==> Loaded(objectExists, property, parse) == JObj([])
    ensures objectExists && property.Some? && property.value != "" && parse(property.value).Some? ==>
      Loaded(objectExists, property, parse) == parse(property.value).value
  {
  }

  /** A loaded calibration lists as cameras exactly its keys other than
      "metadata", in key order. */
  lemma CameraNamesSpec(c: Calibration)
    requires c.data.JObj?
    ensures var names := c.CameraNames().value;
      var ks := Keys(c.data.entries);
      && (forall k :: k in names <==> k in ks && k != MetadataKey)
      && IsSubsequence(names, ks)
  {
    CameraKeysSpec(Keys(c.data.entries));
  }

  /** Unknown cameras read as None; so does their matrix. */
  lemma UnknownCamera(c: Calibration, name: string)
    requires c.data.JObj? && name !in Keys(c.data.entries)
    ensures c.CameraData(name) == Ok(JNull)
    ensures c.Matrix(name) == Ok(JNull)
  {
  }

  /** A camera stored as an object yields its "matrix" entry, or None without one. */
  lemma KnownCameraMatrix(c: Calibration, name: string, cam: seq<(string, Json)>)
    requires c.data.JObj? && c.CameraData(name) == Ok(JObj(cam)) && cam != []
    ensures "matrix" in Keys(cam) ==> exists i :: 0 <= i < |cam| && cam[i] == ("matrix", c.Matrix(name).value)
    ensures "matrix" !in Keys(cam) ==> c.Matrix(name) == Ok(JNull)
  {
  }
}
