/**
 * The reaction-stage task: the largest norm, the first moment the norm exceeds the threshold,
 * the time taken to get there and the mean norm from that moment on.
 */
module MemoryAnalysis {
  import opened Wrappers
  import opened Recording
  import Stats

  const Threshold: real := 0.2

  /**
   * The stored MemoryAnalysis row. None stands for the NaN that pandas produces when no
   * norm is strictly above the threshold although the largest one equals it.
   */
  datatype ReactionLatency = ReactionLatency(
    stageDataId: int,
    timeToMoveMs: Option<int>,
    averagePostThreshold: Option<real>,
    maxAccel: real)

  function MaxNorm(s: seq<Sample>): (r: real)
    requires |s| > 0
    ensures exists i :: 0 <= i < |s| && s[i].norm == r
    ensures forall i :: 0 <= i < |s| ==> s[i].norm <= r
  {
    if |s| == 1 then s[0].norm
    else
      var m := MaxNorm(s[1..]);
      assert forall i :: 1 <= i < |s| ==> s[i] == s[1..][i - 1];
      if s[0].norm >= m then s[0].norm else m
  }

  function MinTimestamp(s: seq<Sample>): (r: int)
    requires |s| > 0
    ensures exists i :: 0 <= i < |s| && s[i].ts == r
    ensures forall i :: 0 <= i < |s| ==> r <= s[i].ts
  {
    if |s| == 1 then s[0].ts
    else
      var m := MinTimestamp(s[1..]);
      assert forall i :: 1 <= i < |s| ==> s[i] == s[1..][i - 1];
      if s[0].ts <= m then s[0].ts else m
  }

  /** The earliest timestamp among the samples whose norm is strictly above thr. */
  function FirstAbove(s: seq<Sample>, thr: real): (r: Option<int>)
    ensures r.None? <==> forall i :: 0 <= i < |s| ==> s[i].norm <= thr
    ensures r.Some? ==> exists i :: 0 <= i < |s| && s[i].norm > thr && s[i].ts == r.value
    ensures r.Some? ==> forall i :: 0 <= i < |s| && s[i].norm > thr ==> r.value <= s[i].ts
  {
    if s == [] then None
    else
      var rest := FirstAbove(s[1..], thr);
      assert forall i :: 1 <= i < |s| ==> s[i] == s[1..][i - 1];
      if s[0].norm > thr && (rest.None? || s[0].ts <= rest.value) then Some(s[0].ts) else rest
  }

  /** The norm of x if x is stamped at or after t. */
  function Kept(x: Sample, t: int): seq<real>
  {
    if x.ts >= t then [x.norm] else []
  }

  /** The norms of the samples stamped at or after t, in table order. */
  function PostNorms(s: seq<Sample>, t: int): seq<real>
  {
    if s == [] then [] else Kept(s[0], t) + PostNorms(s[1..], t)
  }

  /** pandas' mean: NaN (None) for an empty selection. */
  function MeanOrNaN(p: seq<real>): Option<real>
  {
    if p == [] then None else Some(Stats.Mean(p))
  }

  /** The time from the first sample to the first crossing, when there is one. */
  function TimeToMove(first: Option<int>, start: int): Option<int>
  {
    match first
    case None => None
    case Some(t) => Some(t - start)
  }

  /** The mean norm from the first crossing on, when there is one. */
  function PostMean(table: seq<Sample>, first: Option<int>): Option<real>
  {
    match first
    case None => None
    case Some(t) => MeanOrNaN(PostNorms(table, t))
  }

  /** The analysis of a non-empty table whose largest norm reaches the threshold. */
  function AnalyzeTable(id: int, table: seq<Sample>): (r: ReactionLatency)
    requires |table| > 0
  {
    var first := FirstAbove(table, Threshold);
    ReactionLatency(id, TimeToMove(first, MinTimestamp(table)), PostMean(table, first), MaxNorm(table))
  }

  /**
   * memory_analysis(id), with the database lookup given as data: None when no row has
   * this id. The points are sorted by timestamp first, as the task does.
   */
  function MemoryAnalysisTask(id: int, data: Option<seq<Sample>>): Result<ReactionLatency, TaskError>
  {
    match data
    case None => Err(NotFound(id))
    case Some(points) =>
      if points == [] then Err(EmptyRecording)
      else
        var table := SortByTimestamp(points);
        if MaxNorm(table) < Threshold then Err(InsufficientSignal)
        else Ok(AnalyzeTable(id, table))
  }

  // ---------------------------------------------------------------------------------
  // Facts about the filtered norms

  lemma {:induction false} PostNormsAppend(a: seq<Sample>, b: seq<Sample>, t: int)
    ensures PostNorms(a + b, t) == PostNorms(a, t) + PostNorms(b, t)
  {
    if a == [] {
      assert a + b == b;
    } else {
      assert (a + b)[0] == a[0];
      assert (a + b)[1..] == a[1..] + b;
      PostNormsAppend(a[1..], b, t);
      calc {
        PostNorms(a + b, t);
        Kept(a[0], t) + PostNorms(a[1..] + b, t);
        Kept(a[0], t) + (PostNorms(a[1..], t) + PostNorms(b, t));
        (Kept(a[0], t) + PostNorms(a[1..], t)) + PostNorms(b, t);
      }
    }
  }

  /** Every kept norm belongs to a sample stamped at or after t. */
  lemma {:induction false} PostNormsMembers(s: seq<Sample>, t: int, k: nat)
    requires k < |PostNorms(s, t)|
    ensures exists i :: 0 <= i < |s| && s[i].ts >= t && s[i].norm == PostNorms(s, t)[k]
  {
    var head := Kept(s[0], t);
    assert PostNorms(s, t) == head + PostNorms(s[1..], t);
    if k < |head| {
      assert s[0].ts >= t && s[0].norm == PostNorms(s, t)[k];
    } else {
      PostNormsMembers(s[1..], t, k - |head|);
      var i :| 0 <= i < |s[1..]| && s[1..][i].ts >= t && s[1..][i].norm == PostNorms(s[1..], t)[k - |head|];
      assert s[i + 1] == s[1..][i];
    }
  }

  /** The sample x stamped at or after t contributes its norm. */
  lemma {:induction false} PostNormsHoldCrossing(s: seq<Sample>, t: int)
    requires exists i :: 0 <= i < |s| && s[i].ts >= t
    ensures |PostNorms(s, t)| > 0
  {
    if s[0].ts < t {
      var i :| 0 <= i < |s| && s[i].ts >= t;
      assert s[1..][i - 1] == s[i];
      PostNormsHoldCrossing(s[1..], t);
    }
  }

  /** A crossing sample x with norm > Threshold lifts the sum of the kept norms above it. */
  lemma {:induction false} PostNormsSumAbove(s: seq<Sample>, t: int, i: nat)
    requires NormsConsistent(s)
    requires i < |s| && s[i].ts >= t
    ensures Stats.Sum(PostNorms(s, t)) >= s[i].norm
  {
    assert s == s[..i] + [s[i]] + s[i + 1..];
    PostNormsAppend(s[..i] + [s[i]], s[i + 1..], t);
    PostNormsAppend(s[..i], [s[i]], t);
    assert PostNorms([s[i]], t) == Kept(s[i], t) + PostNorms([], t);
    assert PostNorms([s[i]], t) == [s[i].norm];
    Stats.SumAppend(PostNorms(s[..i], t) + [s[i].norm], PostNorms(s[i + 1..], t));
    Stats.SumAppend(PostNorms(s[..i], t), [s[i].norm]);
    assert Stats.Sum([s[i].norm]) == s[i].norm;
    NonNegativePostNorms(s[..i], t);
    NonNegativePostNorms(s[i + 1..], t);
  }

  lemma NonNegativePostNorms(s: seq<Sample>, t: int)
    requires NormsConsistent(s)
    ensures Stats.Sum(PostNorms(s, t)) >= 0.0
  {
    var p := PostNorms(s, t);
    forall k | 0 <= k < |p| ensures p[k] >= 0.0 {
      PostNormsMembers(s, t, k);
      var i :| 0 <= i < |s| && s[i].ts >= t && s[i].norm == p[k];
      assert IsNormOf(s[i]);
    }
    Stats.SumNonNegative(p);
  }

  /** Reordering the table keeps the number and the sum of the kept norms. */
  lemma {:induction false} PostNormsPermutation(s: seq<Sample>, u: seq<Sample>, t: int)
    requires multiset(s) == multiset(u)
    ensures |PostNorms(s, t)| == |PostNorms(u, t)|
    ensures Stats.Sum(PostNorms(s, t)) == Stats.Sum(PostNorms(u, t))
    decreases |s|
  {
    if s == [] {
      assert |u| == |multiset(u)| == 0;
    } else {
      var x := s[0];
      assert s == [x] + s[1..];
      assert x in multiset(u);
      var j :| 0 <= j < |u| && u[j] == x;
      var rest := u[..j] + u[j + 1..];
      MultisetRemove(u, j);
      MultisetCancel(x, multiset(s[1..]), multiset(rest));
      PostNormsPermutation(s[1..], rest, t);
      PostNormsAppend([x], s[1..], t);
      Stats.SumAppend(PostNorms([x], t), PostNorms(s[1..], t));
      PostNormsRemove(u, j, t);
    }
  }

  /** Deleting the sample at j takes one copy of it out of the multiset. */
  lemma MultisetRemove(u: seq<Sample>, j: nat)
    requires j < |u|
    ensures multiset(u) == multiset{u[j]} + multiset(u[..j] + u[j + 1..])
  {
    assert u == u[..j] + [u[j]] + u[j + 1..];
  }

  lemma MultisetCancel(x: Sample, a: multiset<Sample>, b: multiset<Sample>)
    requires multiset{x} + a == multiset{x} + b
    ensures a == b
  {
    forall y ensures a[y] == b[y] {
      assert (multiset{x} + a)[y] == (multiset{x} + b)[y];
    }
  }

  /** The kept norms of u split into those of u[j] and those of the other samples. */
  lemma PostNormsRemove(u: seq<Sample>, j: nat, t: int)
    requires j < |u|
    ensures |PostNorms(u, t)| == |PostNorms([u[j]], t)| + |PostNorms(u[..j] + u[j + 1..], t)|
    ensures Stats.Sum(PostNorms(u, t)) == Stats.Sum(PostNorms([u[j]], t)) + Stats.Sum(PostNorms(u[..j] + u[j + 1..], t))
  {
    assert u == u[..j] + [u[j]] + u[j + 1..];
    PostNormsAppend(u[..j] + [u[j]], u[j + 1..], t);
    PostNormsAppend(u[..j], [u[j]], t);
    PostNormsAppend(u[..j], u[j + 1..], t);
    var px := PostNorms([u[j]], t);
    var a := PostNorms(u[..j], t);
    var b := PostNorms(u[j + 1..], t);
    Stats.SumAppend(a + px, b);
    Stats.SumAppend(a, px);
    Stats.SumAppend(a, b);
  }

  // ---------------------------------------------------------------------------------
  // The task's properties

  /** The three failures, and nothing else: no row, no points, or every norm under 0.2. */
  lemma ReactionErrors(id: int, data: Option<seq<Sample>>)
    ensures MemoryAnalysisTask(id, data) == Err(NotFound(id)) <==> data.None?
    ensures MemoryAnalysisTask(id, data) == Err(EmptyRecording) <==> data == Some([])
    ensures MemoryAnalysisTask(id, data) == Err(InsufficientSignal) <==>
      data.Some? && |data.value| > 0 && forall i :: 0 <= i < |data.value| ==> data.value[i].norm < Threshold
    ensures MemoryAnalysisTask(id, data).Ok? <==>
      data.Some? && exists i :: 0 <= i < |data.value| && data.value[i].norm >= Threshold
  {
    if data.Some? && |data.value| > 0 {
      var p := data.value;
      var table := SortByTimestamp(p);
      var m := MaxNorm(table);
      var k :| 0 <= k < |table| && table[k].norm == m;
      assert table[k] in multiset(p);
      forall i | 0 <= i < |p| ensures p[i].norm <= m {
        assert p[i] in multiset(table);
      }
    }
  }

  /** Sorting first changes nothing: the analysis is that of the points in stored order. */
  lemma AnalysisIgnoresSort(id: int, points: seq<Sample>)
    requires |points| > 0
    requires MemoryAnalysisTask(id, Some(points)).Ok?
    ensures MemoryAnalysisTask(id, Some(points)) == Ok(AnalyzeTable(id, points))
  {
    AnalyzeTablePermutation(id, SortByTimestamp(points), points);
  }

  /** The same samples, possibly in another order or multiplicity. */
  ghost predicate SameSamples(s: seq<Sample>, u: seq<Sample>)
  {
    forall x :: x in s <==> x in u
  }

  lemma MaxNormSameSamples(s: seq<Sample>, u: seq<Sample>)
    requires |s| > 0 && |u| > 0 && SameSamples(s, u)
    ensures MaxNorm(s) == MaxNorm(u)
  {
    var i :| 0 <= i < |s| && s[i].norm == MaxNorm(s);
    assert s[i] in u;
    var j :| 0 <= j < |u| && u[j].norm == MaxNorm(u);
    assert u[j] in s;
  }

  lemma MinTimestampSameSamples(s: seq<Sample>, u: seq<Sample>)
    requires |s| > 0 && |u| > 0 && SameSamples(s, u)
    ensures MinTimestamp(s) == MinTimestamp(u)
  {
    var i :| 0 <= i < |s| && s[i].ts == MinTimestamp(s);
    assert s[i] in u;
    var j :| 0 <= j < |u| && u[j].ts == MinTimestamp(u);
    assert u[j] in s;
  }

  lemma FirstAboveSameSamples(s: seq<Sample>, u: seq<Sample>, thr: real)
    requires SameSamples(s, u)
    ensures FirstAbove(s, thr) == FirstAbove(u, thr)
  {
    FirstAboveCovers(s, u, thr);
    FirstAboveCovers(u, s, thr);
  }

  /** When every sample of u is one of s, s crosses no later than u. */
  lemma FirstAboveCovers(s: seq<Sample>, u: seq<Sample>, thr: real)
    requires forall x :: x in u ==> x in s
    ensures FirstAbove(u, thr).Some? ==> FirstAbove(s, thr).Some? && FirstAbove(s, thr).value <= FirstAbove(u, thr).value
  {
    var fu := FirstAbove(u, thr);
    if fu.Some? {
      var j :| 0 <= j < |u| && u[j].norm > thr && u[j].ts == fu.value;
      assert u[j] in u;
      var k :| 0 <= k < |s| && s[k] == u[j];
    }
  }

  lemma PermutationSameSamples(s: seq<Sample>, u: seq<Sample>)
    requires multiset(s) == multiset(u)
    ensures |s| == |u| && SameSamples(s, u)
  {
    assert |u| == |multiset(u)| == |s|;
    forall x ensures x in s <==> x in u {
      assert x in s <==> x in multiset(s);
      assert x in u <==> x in multiset(u);
    }
  }

  /** Equal lengths and equal sums give the same pandas mean. */
  lemma MeanOrNaNPermutation(s: seq<Sample>, u: seq<Sample>, t: int)
    requires multiset(s) == multiset(u)
    ensures MeanOrNaN(PostNorms(s, t)) == MeanOrNaN(PostNorms(u, t))
  {
    PostNormsPermutation(s, u, t);
    var a, b := PostNorms(s, t), PostNorms(u, t);
    if a != [] {
      assert Stats.Mean(a) == Stats.Sum(a) / (|a| as real);
      assert Stats.Mean(b) == Stats.Sum(b) / (|b| as real);
    }
  }

  /** Largest norm, earliest timestamp and first crossing ignore the order of the samples. */
  lemma ExtremesPermutation(s: seq<Sample>, u: seq<Sample>)
    requires |s| > 0 && multiset(s) == multiset(u)
    ensures |u| > 0
    ensures MaxNorm(s) == MaxNorm(u)
    ensures MinTimestamp(s) == MinTimestamp(u)
    ensures FirstAbove(s, Threshold) == FirstAbove(u, Threshold)
  {
    PermutationSameSamples(s, u);
    MaxNormSameSamples(s, u);
    MinTimestampSameSamples(s, u);
    FirstAboveSameSamples(s, u, Threshold);
  }

  lemma AnalyzeTablePermutation(id: int, s: seq<Sample>, u: seq<Sample>)
    requires |s| > 0 && multiset(s) == multiset(u)
    ensures |u| > 0 && AnalyzeTable(id, s) == AnalyzeTable(id, u)
  {
    ExtremesPermutation(s, u);
    var f := FirstAbove(s, Threshold);
    if f.Some? {
      MeanOrNaNPermutation(s, u, f.value);
    }
    assert PostMean(s, f) == PostMean(u, f);
  }

  /** The results depend only on which samples were stored, not on their stored order. */
  lemma ReactionOrderIndependent(id: int, s: seq<Sample>, u: seq<Sample>)
    requires multiset(s) == multiset(u)
    ensures MemoryAnalysisTask(id, Some(s)) == MemoryAnalysisTask(id, Some(u))
  {
    assert |u| == |multiset(u)| == |s|;
    if |s| > 0 {
      var ss, su := SortByTimestamp(s), SortByTimestamp(u);
      AnalyzeTablePermutation(id, ss, su);
    }
  }

  /** The mean of the norms from a crossing of the threshold on lies in (0, largest norm]. */
  lemma AverageBounds(points: seq<Sample>, t: int, i: nat)
    requires NormsConsistent(points)
    requires i < |points| && points[i].ts >= t && points[i].norm > Threshold
    ensures |PostNorms(points, t)| > 0
    ensures 0.0 < Stats.Mean(PostNorms(points, t)) <= MaxNorm(points)
  {
    var p := PostNorms(points, t);
    PostNormsHoldCrossing(points, t);
    PostNormsSumAbove(points, t, i);
    PostNormsBounded(points, t);
    Stats.MeanBounds(p, 0.0, MaxNorm(points));
    Stats.MeanPositive(p);
  }

  /** Every kept norm is a norm of the table: between 0 and the largest. */
  lemma PostNormsBounded(points: seq<Sample>, t: int)
    requires NormsConsistent(points) && |points| > 0
    ensures forall k :: 0 <= k < |PostNorms(points, t)| ==> 0.0 <= PostNorms(points, t)[k] <= MaxNorm(points)
  {
    var p := PostNorms(points, t);
    forall k | 0 <= k < |p| ensures 0.0 <= p[k] <= MaxNorm(points) {
      PostNormsMembers(points, t, k);
      var j :| 0 <= j < |points| && points[j].ts >= t && points[j].norm == p[k];
      assert IsNormOf(points[j]);
    }
  }

  /**
   * The analysis of a table: max_accl is the largest norm; time-to-move is the earliest
   * above-threshold timestamp minus the earliest timestamp, never negative; the average
   * is the mean norm of all samples from the crossing on, crossing included, and lies in
   * (0, max_accl]. Time-to-move and average are defined together.
   */
  lemma TableResult(id: int, table: seq<Sample>)
    requires NormsConsistent(table) && |table| > 0
    ensures AnalyzeTable(id, table).stageDataId == id
    ensures AnalyzeTable(id, table).maxAccel == MaxNorm(table)
    ensures AnalyzeTable(id, table).timeToMoveMs.Some? <==> AnalyzeTable(id, table).averagePostThreshold.Some?
    ensures AnalyzeTable(id, table).timeToMoveMs.Some? ==>
      && FirstAbove(table, Threshold).Some?
      && AnalyzeTable(id, table).timeToMoveMs.value == FirstAbove(table, Threshold).value - MinTimestamp(table)
      && AnalyzeTable(id, table).timeToMoveMs.value >= 0
    ensures AnalyzeTable(id, table).averagePostThreshold.Some? ==>
      && FirstAbove(table, Threshold).Some?
      && AnalyzeTable(id, table).averagePostThreshold.value == Stats.Mean(PostNorms(table, FirstAbove(table, Threshold).value))
      && 0.0 < AnalyzeTable(id, table).averagePostThreshold.value <= MaxNorm(table)
  {
    var f := FirstAbove(table, Threshold);
    if f.Some? {
      var i :| 0 <= i < |table| && table[i].norm > Threshold && table[i].ts == f.value;
      AverageBounds(table, f.value, i);
      var m := MinTimestamp(table);
      assert m <= table[i].ts;
    }
  }

  /** On success the stored row is the analysis of the points in stored order. */
  lemma ReactionResult(id: int, points: seq<Sample>)
    requires NormsConsistent(points)
    requires MemoryAnalysisTask(id, Some(points)).Ok?
    ensures |points| > 0
    ensures MemoryAnalysisTask(id, Some(points)).value == AnalyzeTable(id, points)
    ensures MemoryAnalysisTask(id, Some(points)).value.maxAccel == MaxNorm(points) >= Threshold
  {
    AnalysisIgnoresSort(id, points);
    TableResult(id, points);
    ReactionErrors(id, Some(points));
  }

  /**
   * The crossing is defined exactly when some norm is strictly above 0.2. A largest norm of
   * exactly 0.2 passes the "< 0.2" guard yet has no such sample: the row is then stored
   * with an undefined time-to-move and average.
   */
  lemma ReactionCrossingDefined(id: int, points: seq<Sample>)
    requires MemoryAnalysisTask(id, Some(points)).Ok?
    ensures var r := MemoryAnalysisTask(id, Some(points)).value;
      (r.timeToMoveMs.Some? <==> r.maxAccel > Threshold)
      && (r.maxAccel == Threshold ==> r.timeToMoveMs.None? && r.averagePostThreshold.None?)
  {
    AnalysisIgnoresSort(id, points);
  }
}
