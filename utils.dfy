/**
 * The chart data of a patient's memory-test history: one date, score and average-reaction
 * point per assessment, and every individual reaction time sorted into the correct or the
 * incorrect series. This is `get_patient_assessment_data` of web/app/utilities/utils.py.
 */
module ChartData {
  import opened Wrappers
  import opened Json

  /** One reaction record: the dict stored for one answer. */
  type ReactionRecord = map<string, Value>

  /** A stored assessment, in the order the query returns them (oldest first). */
  datatype Assessment = Assessment(dateLabel: string, score: int, avgReactionTime: real, reactionRecords: seq<ReactionRecord>)

  /** {"x": date_label, "y": avg_reaction_time}. */
  datatype AveragePoint = AveragePoint(x: string, y: real)

  /** {"x": date_label, "y": rt["time"], "difficulty": rt["diffculty"], "num_shapes": rt["num_shapes"]}. */
  datatype ReactionPoint = ReactionPoint(x: string, y: Value, difficulty: Value, numShapes: Value)

  /** A point with the truth value of its record's "correct" entry. */
  datatype Tagged = Tagged(point: ReactionPoint, correct: bool)

  datatype Charts = Charts(
    labels: seq<string>, scores: seq<int>, averages: seq<AveragePoint>,
    correct: seq<ReactionPoint>, incorrect: seq<ReactionPoint>)

  /** Python's truth value of a stored JSON value. */
  predicate Truthy(v: Value)
  {
    match v
    case JNull => false
    case JBool(b) => b
    case JInt(i) => i != 0
    case JReal(r) => r != 0.0
    case JStr(s) => s != []
    case JArr(items) => items != []
    case JObj(fields) => fields != map[]
  }

  /** The point of one record, or the key whose lookup raises KeyError, in the order the dict reads them. */
  function TagRecord(date: string, rt: ReactionRecord): (r: Result<Tagged, string>)
    ensures r.Ok? <==> "time" in rt && "diffculty" in rt && "num_shapes" in rt && "correct" in rt
    ensures r.Ok? ==> r.value == Tagged(ReactionPoint(date, rt["time"], rt["diffculty"], rt["num_shapes"]), Truthy(rt["correct"]))
  {
    if "time" !in rt then Err("time")
    else if "diffculty" !in rt then Err("diffculty")
    else if "num_shapes" !in rt then Err("num_shapes")
    else if "correct" !in rt then Err("correct")
    else Ok(Tagged(ReactionPoint(date, rt["time"], rt["diffculty"], rt["num_shapes"]), Truthy(rt["correct"])))
  }

  /** The first j records of one assessment, tagged. */
  function TagRecords(date: string, records: seq<ReactionRecord>, j: nat): Result<seq<Tagged>, string>
    requires j <= |records|
  {
    if j == 0 then Ok([])
    else
      match TagRecords(date, records, j - 1)
      case Err(k) => Err(k)
      case Ok(ts) =>
        match TagRecord(date, records[j - 1])
        case Err(k) => Err(k)
        case Ok(t) => Ok(ts + [t])
  }

  /** The records of the first i assessments, tagged, in encounter order. */
  function TagAll(results: seq<Assessment>, i: nat): Result<seq<Tagged>, string>
    requires i <= |results|
  {
    if i == 0 then Ok([])
    else
      match TagAll(results, i - 1)
      case Err(k) => Err(k)
      case Ok(ts) =>
        var rs := results[i - 1].reactionRecords;
        match TagRecords(results[i - 1].dateLabel, rs, |rs|)
        case Err(k) => Err(k)
        case Ok(us) => Ok(ts + us)
  }

  /** The points whose record is (not) marked correct, in order. */
  function Select(ts: seq<Tagged>, correct: bool): (r: seq<ReactionPoint>)
    ensures |r| <= |ts|
  {
    if ts == [] then []
    else (if ts[0].correct == correct then [ts[0].point] else []) + Select(ts[1..], correct)
  }

  function Labels(results: seq<Assessment>): (r: seq<string>)
    ensures |r| == |results| && forall i :: 0 <= i < |results| ==> r[i] == results[i].dateLabel
  {
    seq(|results|, i requires 0 <= i < |results| => results[i].dateLabel)
  }

  function Scores(results: seq<Assessment>): (r: seq<int>)
    ensures |r| == |results| && forall i :: 0 <= i < |results| ==> r[i] == results[i].score
  {
    seq(|results|, i requires 0 <= i < |results| => results[i].score)
  }

  function Averages(results: seq<Assessment>): (r: seq<AveragePoint>)
    ensures |r| == |results|
    ensures forall i :: 0 <= i < |results| ==> r[i] == AveragePoint(results[i].dateLabel, results[i].avgReactionTime)
  {
    seq(|results|, i requires 0 <= i < |results| => AveragePoint(results[i].dateLabel, results[i].avgReactionTime))
  }

  /** What get_patient_assessment_data returns besides the query results, or the key it fails on. */
  function ChartsOf(results: seq<Assessment>): Result<Charts, string>
  {
    match TagAll(results, |results|)
    case Err(k) => Err(k)
    case Ok(ts) => Ok(Charts(Labels(results), Scores(results), Averages(results), Select(ts, true), Select(ts, false)))
  }

  /** get_patient_assessment_data after the query: the comprehensions and the loop over assessments. */
  method GetPatientAssessmentData(results: seq<Assessment>) returns (r: Result<Charts, string>)
    ensures r == ChartsOf(results)
  {
    var chartLabels := Labels(results);
    var chartScores := Scores(results);
    var chartAvgReactions: seq<AveragePoint> := [];
    var correctReactions: seq<ReactionPoint> := [];
    var incorrectReactions: seq<ReactionPoint> := [];
    ghost var tagged: seq<Tagged> := [];
    var i := 0;
    while i < |results|
      invariant 0 <= i <= |results|
      invariant chartAvgReactions == Averages(results)[..i]
      invariant TagAll(results, i) == Ok(tagged)
      invariant correctReactions == Select(tagged, true) && incorrectReactions == Select(tagged, false)
    {
      var assessment := results[i];
      var dateLabel := assessment.dateLabel;
      PrefixNext(Averages(results), i);
      chartAvgReactions := chartAvgReactions + [AveragePoint(dateLabel, assessment.avgReactionTime)];
      var step := AddReactions(dateLabel, assessment.reactionRecords, correctReactions, incorrectReactions);
      var rs := assessment.reactionRecords;
      if step.Err? {
        r := Err(step.error);
        AssessmentFailure(results, i);
        return;
      }
      ghost var us := TagRecords(dateLabel, rs, |rs|).value;
      SelectAppend(tagged, us, true);
      SelectAppend(tagged, us, false);
      correctReactions, incorrectReactions := step.value.0, step.value.1;
      tagged := tagged + us;
      i := i + 1;
    }
    assert Averages(results)[..|results|] == Averages(results);
    r := Ok(Charts(chartLabels, chartScores, chartAvgReactions, correctReactions, incorrectReactions));
  }

  lemma PrefixNext<T>(s: seq<T>, i: nat)
    requires i < |s|
    ensures s[..i + 1] == s[..i] + [s[i]]
  {
  }

  /** The series after one assessment's records are added, or the key its records fail on. */
  function Added(tags: Result<seq<Tagged>, string>, correct0: seq<ReactionPoint>, incorrect0: seq<ReactionPoint>): Result<(seq<ReactionPoint>, seq<ReactionPoint>), string>
  {
    match tags
    case Err(k) => Err(k)
    case Ok(us) => Ok((correct0 + Select(us, true), incorrect0 + Select(us, false)))
  }

  /** The loop over one assessment's records: each point joins the series its "correct" entry picks. */
  method AddReactions(dateLabel: string, records: seq<ReactionRecord>, correct0: seq<ReactionPoint>, incorrect0: seq<ReactionPoint>)
    returns (res: Result<(seq<ReactionPoint>, seq<ReactionPoint>), string>)
    ensures res == Added(TagRecords(dateLabel, records, |records|), correct0, incorrect0)
  {
    var correctReactions, incorrectReactions := correct0, incorrect0;
    ghost var inner: seq<Tagged> := [];
    var j := 0;
    while j < |records|
      invariant 0 <= j <= |records|
      invariant TagRecords(dateLabel, records, j) == Ok(inner)
      invariant correctReactions == correct0 + Select(inner, true) && incorrectReactions == incorrect0 + Select(inner, false)
    {
      var rt := records[j];
      if "time" !in rt || "diffculty" !in rt || "num_shapes" !in rt || "correct" !in rt {
        var key := if "time" !in rt then "time" else if "diffculty" !in rt then "diffculty"
          else if "num_shapes" !in rt then "num_shapes" else "correct";
        RecordFailure(dateLabel, records, j);
        return Err(key);
      }
      var point := ReactionPoint(dateLabel, rt["time"], rt["diffculty"], rt["num_shapes"]);
      ghost var t := Tagged(point, Truthy(rt["correct"]));
      SelectExtend(correct0, inner, t, true);
      SelectExtend(incorrect0, inner, t, false);
      if Truthy(rt["correct"]) {
        correctReactions := correctReactions + [point];
      } else {
        incorrectReactions := incorrectReactions + [point];
      }
      inner := inner + [t];
      j := j + 1;
    }
    res := Ok((correctReactions, incorrectReactions));
  }

  /** One more tagged point extends the series its flag picks, and only that one. */
  lemma SelectExtend(c0: seq<ReactionPoint>, ts: seq<Tagged>, t: Tagged, correct: bool)
    ensures c0 + Select(ts + [t], correct) == c0 + Select(ts, correct) + (if t.correct == correct then [t.point] else [])
  {
    SelectAppend(ts, [t], correct);
    assert Select([t], correct) == (if t.correct == correct then [t.point] else []) + Select([], correct);
  }

  /** A record missing a key, once the earlier records of its assessment went through, fails the assessment with that key. */
  lemma RecordFailure(date: string, records: seq<ReactionRecord>, j: nat)
    requires j < |records| && TagRecords(date, records, j).Ok? && TagRecord(date, records[j]).Err?
    ensures TagRecords(date, records, |records|) == Err(TagRecord(date, records[j]).error)
  {
    var e := TagRecord(date, records[j]).error;
    var k: nat := j + 1;
    assert TagRecords(date, records, k) == Err(e);
    TagRecordsFailureSticks(date, records, k, |records|);
  }

  /** An assessment whose records fail, once the earlier assessments went through, fails the whole call with that key. */
  lemma AssessmentFailure(results: seq<Assessment>, i: nat)
    requires i < |results| && TagAll(results, i).Ok?
    requires var rs := results[i].reactionRecords; TagRecords(results[i].dateLabel, rs, |rs|).Err?
    ensures var rs := results[i].reactionRecords; ChartsOf(results) == Err(TagRecords(results[i].dateLabel, rs, |rs|).error)
  {
    var rs := results[i].reactionRecords;
    var e := TagRecords(results[i].dateLabel, rs, |rs|).error;
    var m: nat := i + 1;
    assert TagAll(results, m) == Err(e);
    TagAllFailureSticks(results, m, |results|);
  }

  /**
   * The KeyError raised by record j of assessment i, once the earlier ones went through: the
   * whole function fails with that key.
   */
  lemma TagFailure(results: seq<Assessment>, i: nat, j: nat)
    requires i < |results| && j < |results[i].reactionRecords| && TagAll(results, i).Ok?
    requires TagRecords(results[i].dateLabel, results[i].reactionRecords, j).Ok?
    requires TagRecord(results[i].dateLabel, results[i].reactionRecords[j]).Err?
    ensures ChartsOf(results) == Err(TagRecord(results[i].dateLabel, results[i].reactionRecords[j]).error)
  {
    RecordFailure(results[i].dateLabel, results[i].reactionRecords, j);
    AssessmentFailure(results, i);
  }

  lemma {:induction false} TagRecordsFailureSticks(date: string, records: seq<ReactionRecord>, k: nat, m: nat)
    requires k <= m <= |records| && TagRecords(date, records, k).Err?
    ensures TagRecords(date, records, m) == TagRecords(date, records, k)
  {
    if m > k {
      var j: nat := m - 1;
      TagRecordsFailureSticks(date, records, k, j);
    }
  }

  lemma {:induction false} TagAllFailureSticks(results: seq<Assessment>, k: nat, m: nat)
    requires k <= m <= |results| && TagAll(results, k).Err?
    ensures TagAll(results, m) == TagAll(results, k)
  {
    if m > k {
      var j: nat := m - 1;
      TagAllFailureSticks(results, k, j);
    }
  }

  lemma {:induction false} SelectAppend(a: seq<Tagged>, b: seq<Tagged>, correct: bool)
    ensures Select(a + b, correct) == Select(a, correct) + Select(b, correct)
  {
    if a == [] {
      assert a + b == b;
    } else {
      var h := if a[0].correct == correct then [a[0].point] else [];
      assert (a + b)[0] == a[0];
      assert (a + b)[1..] == a[1..] + b;
      SelectAppend(a[1..], b, correct);
      assert Select(a + b, correct) == h + Select(a[1..] + b, correct);
      assert h + (Select(a[1..], correct) + Select(b, correct)) == (h + Select(a[1..], correct)) + Select(b, correct);
    }
  }

  /** Every tagged point lands in exactly one of the two series: the lengths add up. */
  lemma {:induction false} SelectPartition(ts: seq<Tagged>)
    ensures |Select(ts, true)| + |Select(ts, false)| == |ts|
  {
    if ts != [] {
      SelectPartition(ts[1..]);
    }
  }

  /** A point is in the series of its own flag, and a point in a series comes from a record with that flag. */
  lemma {:induction false} SelectMembers(ts: seq<Tagged>, correct: bool)
    ensures forall p :: p in Select(ts, correct) <==> Tagged(p, correct) in ts
  {
    if ts != [] {
      SelectMembers(ts[1..], correct);
      assert ts == [ts[0]] + ts[1..];
    }
  }

  /** The number of reaction records of the first i assessments. */
  function RecordCount(results: seq<Assessment>, i: nat): nat
    requires i <= |results|
  {
    if i == 0 then 0 else RecordCount(results, i - 1) + |results[i - 1].reactionRecords|
  }

  lemma {:induction false} TagRecordsLength(date: string, records: seq<ReactionRecord>, j: nat)
    requires j <= |records| && TagRecords(date, records, j).Ok?
    ensures |TagRecords(date, records, j).value| == j
  {
    if j > 0 {
      var k: nat := j - 1;
      TagRecordsLength(date, records, k);
    }
  }

  lemma {:induction false} TagAllLength(results: seq<Assessment>, i: nat)
    requires i <= |results| && TagAll(results, i).Ok?
    ensures |TagAll(results, i).value| == RecordCount(results, i)
  {
    if i > 0 {
      var k: nat := i - 1;
      TagAllLength(results, k);
      var rs := results[k].reactionRecords;
      TagRecordsLength(results[k].dateLabel, rs, |rs|);
    }
  }

  /**
   * The returned charts: labels, scores and average points have one entry per assessment in
   * query order, and the correct and incorrect series together hold every reaction record once.
   */
  lemma ChartsShape(results: seq<Assessment>)
    requires ChartsOf(results).Ok?
    ensures var c := ChartsOf(results).value;
      && |c.labels| == |c.scores| == |c.averages| == |results|
      && (forall i :: 0 <= i < |results| ==>
            c.labels[i] == results[i].dateLabel && c.scores[i] == results[i].score
            && c.averages[i] == AveragePoint(results[i].dateLabel, results[i].avgReactionTime))
      && |c.correct| + |c.incorrect| == RecordCount(results, |results|)
  {
    TagAllLength(results, |results|);
    SelectPartition(TagAll(results, |results|).value);
  }

  /** Record j of one assessment is tagged with that assessment's date and its own entries. */
  lemma {:induction false} TagRecordsAt(date: string, records: seq<ReactionRecord>, n: nat, j: nat)
    requires j < n <= |records| && TagRecords(date, records, n).Ok?
    ensures |TagRecords(date, records, n).value| == n
    ensures TagRecords(date, records, j + 1).Ok? && |TagRecords(date, records, j).value| == j
    ensures TagRecord(date, records[j]).Ok?
    ensures TagRecords(date, records, n).value[j] == TagRecord(date, records[j]).value
  {
    var k: nat := n - 1;
    TagRecordsLength(date, records, k);
    TagRecordsLength(date, records, n);
    if j < k {
      TagRecordsAt(date, records, k, j);
    } else {
      TagRecordsLength(date, records, j);
    }
  }

  /** The charts exist exactly when every reaction record has all four keys. */
  lemma {:induction false} TagAllSucceeds(results: seq<Assessment>, i: nat)
    requires i <= |results|
    ensures TagAll(results, i).Ok? <==>
      forall a, j :: 0 <= a < i && 0 <= j < |results[a].reactionRecords| ==> TagRecord(results[a].dateLabel, results[a].reactionRecords[j]).Ok?
  {
    if i > 0 {
      var k: nat := i - 1;
      TagAllSucceeds(results, k);
      var rs := results[k].reactionRecords;
      TagRecordsSucceeds(results[k].dateLabel, rs, |rs|);
    }
  }

  lemma {:induction false} TagRecordsSucceeds(date: string, records: seq<ReactionRecord>, j: nat)
    requires j <= |records|
    ensures TagRecords(date, records, j).Ok? <==> forall k :: 0 <= k < j ==> TagRecord(date, records[k]).Ok?
  {
    if j > 0 {
      var k: nat := j - 1;
      TagRecordsSucceeds(date, records, k);
    }
  }
}
