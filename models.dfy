/**
 * The stage-data records of the web app: decoding an upload into an AssessmentStageData
 * with its points, encoding it back, and the user's role check.
 */
module Models {
  import opened Wrappers
  import opened Json
  import opened Stats

  // ---------------------------------------------------------------------------------
  // Stages

  datatype AssessmentStage = Gait | Reaction

  /** The enum's value, as stored and as emitted. */
  function StageValue(s: AssessmentStage): string
  {
    match s
    case Gait => "gait"
    case Reaction => "reaction"
  }

  /** str.lower() on ASCII letters. */
  function ToLower(s: string): (r: string)
    ensures |r| == |s|
    ensures forall i :: 0 <= i < |s| ==> r[i] == if 'A' <= s[i] <= 'Z' then (s[i] as int + 32) as char else s[i]
  {
    if s == [] then []
    else [if 'A' <= s[0] <= 'Z' then (s[0] as int + 32) as char else s[0]] + ToLower(s[1..])
  }

  /** AssessmentStage(value): the member whose value is exactly value. */
  function StageOf(value: string): (r: Option<AssessmentStage>)
  {
    if value == "gait" then Some(Gait) else if value == "reaction" then Some(Reaction) else None
  }

  /** The value lookup accepts exactly the two values, and gives back the member with that value. */
  lemma StageOfValue(value: string)
    ensures StageOf(value).Some? <==> value == "gait" || value == "reaction"
    ensures StageOf(value).Some? ==> StageValue(StageOf(value).value) == value
    ensures forall s :: StageOf(StageValue(s)) == Some(s)
  {
  }

  // ---------------------------------------------------------------------------------
  // Records

  /**
   * A point: the timestamp in milliseconds since the epoch, and x, y, z as given (the
   * columns are Float, but nothing converts them before the row is flushed).
   */
  datatype StageDataPoint = StageDataPoint(tsMs: real, x: Value, y: Value, z: Value)

  datatype AssessmentStageData = AssessmentStageData(assessmentId: Value, stage: AssessmentStage, points: seq<StageDataPoint>)

  /**
   * What from_json can raise: KeyError, TypeError/AttributeError, the enum's ValueError, or
   * fromtimestamp's ValueError/OverflowError for a ts no datetime can hold.
   */
  datatype DecodeError = MissingKey(key: string) | WrongType(what: string) | InvalidStage(value: string) | TimestampOutOfRange(ms: real)

  /** The first instant a datetime holds, 0001-01-01 00:00 UTC, in ms since the epoch. */
  const MinTimestampMs: real := -62135596800000.0

  /** The instant past the last one a datetime holds, 10000-01-01 00:00 UTC, in ms since the epoch. */
  const EndTimestampMs: real := 253402300800000.0

  /** datetime.fromtimestamp(ms / 1000.0) gives a datetime of years 1 to 9999 (read in UTC). */
  predicate InDatetimeRange(ms: real)
  {
    MinTimestampMs <= ms < EndTimestampMs
  }

  /** json_data[key] on a dict; anything else but a dict cannot be indexed by a string. */
  function Lookup(j: Value, key: string): (r: Result<Value, DecodeError>)
    ensures r.Ok? <==> j.JObj? && key in j.fields
    ensures r.Ok? ==> r.value == j.fields[key]
  {
    if !j.JObj? then Err(WrongType(key))
    else if key !in j.fields then Err(MissingKey(key))
    else Ok(j.fields[key])
  }

  /** point["ts"] / 1000.0: a number (a bool counts as 0 or 1), in milliseconds. */
  function Milliseconds(v: Value): Result<real, DecodeError>
  {
    match v
    case JInt(i) => Ok(i as real)
    case JReal(r) => Ok(r)
    case JBool(b) => Ok(if b then 1.0 else 0.0)
    case _ => Err(WrongType("ts"))
  }

  /** One datum: ts (converted at once by fromtimestamp), then x, y, z. */
  function DecodePoint(p: Value): Result<StageDataPoint, DecodeError>
  {
    var ts := Lookup(p, "ts");
    if ts.Err? then Err(ts.error)
    else
      var ms := Milliseconds(ts.value);
      if ms.Err? then Err(ms.error)
      else if !InDatetimeRange(ms.value) then Err(TimestampOutOfRange(ms.value))
      else
        var x := Lookup(p, "x");
        if x.Err? then Err(x.error)
        else
          var y := Lookup(p, "y");
          if y.Err? then Err(y.error)
          else
            var z := Lookup(p, "z");
            if z.Err? then Err(z.error)
            else Ok(StageDataPoint(ms.value, x.value, y.value, z.value))
  }

  /**
   * What `for point in json_data["data"]` iterates over: a list's items; an empty dict or
   * empty string iterates nothing; a non-empty one yields strings, which cannot be indexed
   * by "ts"; other values are not iterable.
   */
  function DataItems(d: Value): Result<seq<Value>, DecodeError>
  {
    match d
    case JArr(items) => Ok(items)
    case JObj(m) => if |m| == 0 then Ok([]) else Err(WrongType("data"))
    case JStr(s) => if s == [] then Ok([]) else Err(WrongType("data"))
    case _ => Err(WrongType("data"))
  }

  /** The points of items[..k], in order, or the first datum's failure. */
  function DecodePoints(items: seq<Value>, k: nat): (r: Result<seq<StageDataPoint>, DecodeError>)
    requires k <= |items|
    ensures r.Ok? ==> |r.value| == k
  {
    if k == 0 then Ok([])
    else
      var prefix := DecodePoints(items, k - 1);
      if prefix.Err? then Err(prefix.error)
      else
        var p := DecodePoint(items[k - 1]);
        if p.Err? then Err(p.error) else Ok(prefix.value + [p.value])
  }

  /** The stage first (lower-cased, then looked up), then assessmentID, then the data. */
  function DecodeStageData(j: Value): Result<AssessmentStageData, DecodeError>
  {
    var st := Lookup(j, "stage");
    if st.Err? then Err(st.error)
    else if !st.value.JStr? then Err(WrongType("stage"))
    else
      var stage := StageOf(ToLower(st.value.s));
      if stage.None? then Err(InvalidStage(ToLower(st.value.s)))
      else
        var id := Lookup(j, "assessmentID");
        if id.Err? then Err(id.error)
        else
          var data := Lookup(j, "data");
          if data.Err? then Err(data.error)
          else
            var items := DataItems(data.value);
            if items.Err? then Err(items.error)
            else
              var pts := DecodePoints(items.value, |items.value|);
              if pts.Err? then Err(pts.error)
              else Ok(AssessmentStageData(id.value, stage.value, pts.value))
  }

  /** A failure stops the loop: it is the outcome of every longer prefix too. */
  lemma {:induction false} DecodeFailureSticks(items: seq<Value>, i: nat, k: nat)
    requires i <= k <= |items|
    requires DecodePoints(items, i).Err?
    ensures DecodePoints(items, k) == DecodePoints(items, i)
    decreases k - i
  {
    if i < k {
      var j: nat := i + 1;
      assert DecodePoints(items, j) == DecodePoints(items, i);
      DecodeFailureSticks(items, j, k);
    }
  }

  /** AssessmentStageData.from_json, with its loop over the data. */
  method FromJson(j: Value) returns (r: Result<AssessmentStageData, DecodeError>)
    ensures r == DecodeStageData(j)
  {
    var st := Lookup(j, "stage");
    if st.Err? {
      return Err(st.error);
    }
    if !st.value.JStr? {
      return Err(WrongType("stage"));
    }
    var lowered := ToLower(st.value.s);
    var stage := StageOf(lowered);
    if stage.None? {
      return Err(InvalidStage(lowered));
    }
    var id := Lookup(j, "assessmentID");
    if id.Err? {
      return Err(id.error);
    }
    var data := Lookup(j, "data");
    if data.Err? {
      return Err(data.error);
    }
    var items := DataItems(data.value);
    if items.Err? {
      return Err(items.error);
    }
    var points: seq<StageDataPoint> := [];
    var i: nat := 0;
    while i < |items.value|
      invariant i <= |items.value|
      invariant DecodePoints(items.value, i) == Ok(points)
    {
      var p := DecodePoint(items.value[i]);
      if p.Err? {
        DecodeFailureSticks(items.value, i + 1, |items.value|);
        return Err(p.error);
      }
      points := points + [p.value];
      i := i + 1;
    }
    return Ok(AssessmentStageData(id.value, stage.value, points));
  }

  // ---------------------------------------------------------------------------------
  // Decoding, stated

  /** The decoded points are the data items' decodings, one per item, in order. */
  lemma {:induction false} DecodePointsEach(items: seq<Value>, k: nat)
    requires k <= |items|
    requires DecodePoints(items, k).Ok?
    ensures forall i :: 0 <= i < k ==> DecodePoint(items[i]) == Ok(DecodePoints(items, k).value[i])
  {
    if k > 0 {
      var j: nat := k - 1;
      DecodePointsEach(items, j);
    }
  }

  /** The items were all decodable, so the loop finishes with one point per item. */
  lemma {:induction false} DecodePointsAll(items: seq<Value>, k: nat, pts: seq<StageDataPoint>)
    requires k <= |items| && |pts| == k
    requires forall i :: 0 <= i < k ==> DecodePoint(items[i]) == Ok(pts[i])
    ensures DecodePoints(items, k) == Ok(pts)
  {
    if k > 0 {
      var j: nat := k - 1;
      DecodePointsAll(items, j, pts[..j]);
      assert pts == pts[..j] + [pts[j]];
    }
  }

  /**
   * A decoded record keeps assessmentID, carries the member whose value is the lower-cased
   * stage, and holds one point per datum, in order, with the datum's ts in milliseconds and
   * its x, y, z unchanged. A stage string whose lower-case form is neither "gait" nor
   * "reaction" is refused.
   */
  lemma DecodeResult(j: Value)
    ensures DecodeStageData(j).Ok? ==>
      var d := DecodeStageData(j).value;
      && j.JObj? && "stage" in j.fields && "assessmentID" in j.fields && "data" in j.fields
      && j.fields["stage"].JStr?
      && StageValue(d.stage) == ToLower(j.fields["stage"].s)
      && d.assessmentId == j.fields["assessmentID"]
      && DataItems(j.fields["data"]).Ok?
      && |d.points| == |DataItems(j.fields["data"]).value|
      && forall i :: 0 <= i < |d.points| ==>
           var item := DataItems(j.fields["data"]).value[i];
           && item.JObj? && {"ts", "x", "y", "z"} <= item.fields.Keys
           && Milliseconds(item.fields["ts"]) == Ok(d.points[i].tsMs)
           && InDatetimeRange(d.points[i].tsMs)
           && d.points[i].x == item.fields["x"]
           && d.points[i].y == item.fields["y"]
           && d.points[i].z == item.fields["z"]
    ensures j.JObj? && "stage" in j.fields && j.fields["stage"].JStr? ==>
      var lowered := ToLower(j.fields["stage"].s);
      lowered != "gait" && lowered != "reaction" ==> DecodeStageData(j) == Err(InvalidStage(lowered))
  {
    if DecodeStageData(j).Ok? {
      var d := DecodeStageData(j).value;
      var items := DataItems(j.fields["data"]).value;
      assert d.points == DecodePoints(items, |items|).value;
      DecodePointsEach(items, |items|);
      forall i | 0 <= i < |d.points|
        ensures && items[i].JObj? && {"ts", "x", "y", "z"} <= items[i].fields.Keys
          && Milliseconds(items[i].fields["ts"]) == Ok(d.points[i].tsMs)
          && InDatetimeRange(d.points[i].tsMs)
          && d.points[i].x == items[i].fields["x"] && d.points[i].y == items[i].fields["y"]
          && d.points[i].z == items[i].fields["z"]
      {
        DecodePointFields(items[i]);
      }
      StageOfValue(ToLower(j.fields["stage"].s));
    }
  }

  /** A decodable datum is an object with ts, x, y and z, and its point carries them. */
  lemma DecodePointFields(p: Value)
    requires DecodePoint(p).Ok?
    ensures var q := DecodePoint(p).value;
      && p.JObj? && {"ts", "x", "y", "z"} <= p.fields.Keys
      && Milliseconds(p.fields["ts"]) == Ok(q.tsMs)
      && InDatetimeRange(q.tsMs)
      && q.x == p.fields["x"] && q.y == p.fields["y"] && q.z == p.fields["z"]
  {
    assert "ts" in p.fields && "x" in p.fields && "y" in p.fields && "z" in p.fields;
  }

  /**
   * A datum whose ts is a number out of the datetime range is refused with that number, and
   * so is a record holding it; 10**17 ms falls after the year 9999.
   */
  lemma DecodeOutOfRange(p: Value)
    requires p.JObj? && "ts" in p.fields && Milliseconds(p.fields["ts"]).Ok?
    requires !InDatetimeRange(Milliseconds(p.fields["ts"]).value)
    ensures DecodePoint(p) == Err(TimestampOutOfRange(Milliseconds(p.fields["ts"]).value))
    ensures forall items: seq<Value>, k: nat :: k <= |items| && p in items[..k] ==> DecodePoints(items, k).Err?
  {
    forall items: seq<Value>, k: nat | k <= |items| && p in items[..k]
      ensures DecodePoints(items, k).Err?
    {
      var i :| 0 <= i < k && items[i] == p;
      if DecodePoints(items, k).Ok? {
        DecodePointsEach(items, k);
      }
    }
  }

  /** A ts of 10**17 ms, past the year 9999, makes fromtimestamp raise. */
  lemma FarFutureRefused(x: Value, y: Value, z: Value)
    ensures var p := JObj(map["ts" := JInt(100000000000000000), "x" := x, "y" := y, "z" := z]);
      DecodePoint(p) == Err(TimestampOutOfRange(100000000000000000.0))
  {
    var p := JObj(map["ts" := JInt(100000000000000000), "x" := x, "y" := y, "z" := z]);
    DecodeOutOfRange(p);
  }

  // ---------------------------------------------------------------------------------
  // Encoding

  function PointJson(p: StageDataPoint): Value
  {
    JObj(map["ts" := JInt(Trunc(p.tsMs)), "x" := p.x, "y" := p.y, "z" := p.z])
  }

  /** to_json: assessmentID, the stage's value and one {ts, x, y, z} per point, in order. */
  function ToJson(d: AssessmentStageData): (r: Value)
    ensures r.JObj? && r.fields.Keys == {"assessmentID", "stage", "data"}
    ensures r.fields["assessmentID"] == d.assessmentId && r.fields["stage"] == JStr(StageValue(d.stage))
    ensures r.fields["data"].JArr? && |r.fields["data"].items| == |d.points|
  {
    JObj(map[
      "assessmentID" := d.assessmentId,
      "stage" := JStr(StageValue(d.stage)),
      "data" := JArr(seq(|d.points|, i requires 0 <= i < |d.points| => PointJson(d.points[i])))])
  }

  /** A string without upper-case ASCII letters is its own lower-case form. */
  lemma ToLowerLowercase(s: string)
    requires forall i :: 0 <= i < |s| ==> !('A' <= s[i] <= 'Z')
    ensures ToLower(s) == s
  {
  }

  /** Whole milliseconds. */
  predicate WholeMilliseconds(d: AssessmentStageData)
  {
    forall i :: 0 <= i < |d.points| ==> d.points[i].tsMs == Trunc(d.points[i].tsMs) as real
  }

  /** Every timestamp is one a datetime holds, as a stored point's always is. */
  predicate StoredTimestamps(d: AssessmentStageData)
  {
    forall i :: 0 <= i < |d.points| ==> InDatetimeRange(d.points[i].tsMs)
  }

  /** Encoding then decoding gives the record back when its timestamps are whole milliseconds. */
  lemma EncodeDecode(d: AssessmentStageData)
    requires WholeMilliseconds(d) && StoredTimestamps(d)
    ensures DecodeStageData(ToJson(d)) == Ok(d)
  {
    var j := ToJson(d);
    var v := StageValue(d.stage);
    ToLowerLowercase(v);
    StageOfValue(v);
    var items := j.fields["data"].items;
    forall i | 0 <= i < |items| ensures DecodePoint(items[i]) == Ok(d.points[i]) {
      assert items[i] == PointJson(d.points[i]);
      PointRoundTrip(d.points[i]);
    }
    DecodePointsAll(items, |items|, d.points);
  }

  /** One datum survives encoding and decoding when its timestamp is a whole millisecond. */
  lemma PointRoundTrip(p: StageDataPoint)
    requires p.tsMs == Trunc(p.tsMs) as real && InDatetimeRange(p.tsMs)
    ensures DecodePoint(PointJson(p)) == Ok(p)
  {
    var m := PointJson(p).fields;
    assert m["ts"] == JInt(Trunc(p.tsMs)) && m["x"] == p.x && m["y"] == p.y && m["z"] == p.z;
  }

  /**
   * Decoding then encoding restores assessmentID, the lower-cased stage, and each datum's
   * x, y, z and (integer) ts; keys other than these are dropped.
   */
  lemma DecodeEncode(j: Value)
    requires DecodeStageData(j).Ok?
    requires forall v :: v in DataItems(j.fields["data"]).value ==>
      v.JObj? && {"ts", "x", "y", "z"} <= v.fields.Keys && v.fields["ts"].JInt?
    ensures var out := ToJson(DecodeStageData(j).value);
      var items := DataItems(j.fields["data"]).value;
      && out.fields["assessmentID"] == j.fields["assessmentID"]
      && out.fields["stage"] == JStr(ToLower(j.fields["stage"].s))
      && |out.fields["data"].items| == |items|
      && forall i :: 0 <= i < |items| ==>
           out.fields["data"].items[i] ==
             JObj(map["ts" := items[i].fields["ts"], "x" := items[i].fields["x"], "y" := items[i].fields["y"], "z" := items[i].fields["z"]])
  {
    DecodeResult(j);
    var d := DecodeStageData(j).value;
    var items := DataItems(j.fields["data"]).value;
    forall i | 0 <= i < |items|
      ensures ToJson(d).fields["data"].items[i] ==
        JObj(map["ts" := items[i].fields["ts"], "x" := items[i].fields["x"], "y" := items[i].fields["y"], "z" := items[i].fields["z"]])
    {
      assert items[i] in DataItems(j.fields["data"]).value;
      var n := items[i].fields["ts"].i;
      assert d.points[i].tsMs == n as real;
      assert Trunc(n as real) == n;
    }
  }

  // ---------------------------------------------------------------------------------
  // Roles

  datatype Role = Role(name: string)

  datatype User = User(roles: seq<Role>)

  /** any(role.name == name for role in roles). */
  function AnyNamed(roles: seq<Role>, name: string): (b: bool)
    ensures b <==> exists i :: 0 <= i < |roles| && roles[i].name == name
  {
    if roles == [] then false
    else roles[0].name == name || AnyNamed(roles[1..], name)
  }

  /** User.has_role: some role of the user carries exactly this name. */
  function HasRole(u: User, name: string): (b: bool)
    ensures b <==> exists i :: 0 <= i < |u.roles| && u.roles[i].name == name
  {
    AnyNamed(u.roles, name)
  }
}
