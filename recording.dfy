/** The accelerometer samples of one stage recording, as the two analysis tasks read them. */
module Recording {
  import opened Wrappers
  import opened Decimal

  /** Why an analysis task raises instead of storing a result. */
  datatype TaskError =
    | NotFound(id: int)         // no AssessmentStageData row has this id
    | EmptyRecording            // no points: the table has no Timestamp column to sort by
    | InsufficientSignal        // reaction analysis: the largest norm is below the threshold
    | SegmentWithoutValues      // gait analysis: a zero-crossing segment holds only filter gaps

  /**
   * The text of the ValueError the tasks raise; the other two failures are pandas' own
   * KeyError and TypeError, whose text is not part of this model.
   */
  function ValueErrorMessage(e: TaskError): (r: Option<string>)
    ensures r.Some? <==> e.NotFound? || e.InsufficientSignal?
    ensures e.NotFound? ==> r == Some("AssessmentStageData with ID " + IntToString(e.id) + " not found.")
    ensures e.InsufficientSignal? ==> r == Some("Maximum norm value is below threshold; cannot perform analysis.")
  {
    match e
    case NotFound(id) => Some("AssessmentStageData with ID " + IntToString(id) + " not found.")
    case InsufficientSignal => Some("Maximum norm value is below threshold; cannot perform analysis.")
    case _ => None
  }

  /**
   * One stored point: its timestamp in milliseconds, its three axes and the Euclidean norm
   * of the axes. The norm is carried alongside the axes because the model has no square root;
   * IsNormOf says what it must be.
   */
  datatype Sample = Sample(ts: int, x: real, y: real, z: real, norm: real)

  /** norm is sqrt(x*x + y*y + z*z), stated without the root. */
  predicate IsNormOf(s: Sample)
  {
    s.norm >= 0.0 && s.norm * s.norm == s.x * s.x + s.y * s.y + s.z * s.z
  }

  predicate NormsConsistent(s: seq<Sample>)
  {
    forall i :: 0 <= i < |s| ==> IsNormOf(s[i])
  }

  predicate SortedByTimestamp(s: seq<Sample>)
  {
    forall i, j :: 0 <= i < j < |s| ==> s[i].ts <= s[j].ts
  }

  /** Inserts x before the first sample whose timestamp is not smaller. */
  function Insert(x: Sample, s: seq<Sample>): (r: seq<Sample>)
    ensures |r| == |s| + 1
    ensures multiset(r) == multiset(s) + multiset{x}
    ensures forall y :: y in r <==> y in s || y == x
  {
    if s == [] || x.ts <= s[0].ts then
      [x] + s
    else
      assert s == [s[0]] + s[1..];
      [s[0]] + Insert(x, s[1..])
  }

  lemma {:induction false} InsertSorted(x: Sample, s: seq<Sample>)
    requires SortedByTimestamp(s)
    ensures SortedByTimestamp(Insert(x, s))
  {
    if s == [] || x.ts <= s[0].ts {
      forall y | y in s ensures x.ts <= y.ts {
        var k :| 0 <= k < |s| && s[k] == y;
      }
      ConsSorted(x, s);
    } else {
      var rest := Insert(x, s[1..]);
      SortedTail(s);
      InsertSorted(x, s[1..]);
      forall y | y in rest ensures s[0].ts <= y.ts {
        if y != x {
          var k :| 0 <= k < |s[1..]| && s[1..][k] == y;
          assert s[k + 1] == y;
        }
      }
      ConsSorted(s[0], rest);
    }
  }

  lemma SortedTail(s: seq<Sample>)
    requires SortedByTimestamp(s) && s != []
    ensures SortedByTimestamp(s[1..])
  {
    forall i, j | 0 <= i < j < |s[1..]| ensures s[1..][i].ts <= s[1..][j].ts {
      assert s[1..][i] == s[i + 1] && s[1..][j] == s[j + 1];
    }
  }

  /** A sample no later than any of a sorted sequence can go in front of it. */
  lemma ConsSorted(h: Sample, t: seq<Sample>)
    requires SortedByTimestamp(t)
    requires forall y :: y in t ==> h.ts <= y.ts
    ensures SortedByTimestamp([h] + t)
  {
    var r := [h] + t;
    forall i, j | 0 <= i < j < |r| ensures r[i].ts <= r[j].ts {
      assert r[j] == t[j - 1];
      if i == 0 {
        assert r[j] in t;
      } else {
        assert r[i] == t[i - 1];
      }
    }
  }

  /**
   * The table sorted ascending by timestamp (the tasks' sort_values call): the result is
   * ordered by timestamp and holds the same samples.
   */
  function SortByTimestamp(s: seq<Sample>): (r: seq<Sample>)
    ensures |r| == |s|
    ensures multiset(r) == multiset(s)
    ensures SortedByTimestamp(r)
  {
    if s == [] then []
    else
      assert s == [s[0]] + s[1..];
      InsertSorted(s[0], SortByTimestamp(s[1..]));
      Insert(s[0], SortByTimestamp(s[1..]))
  }

  function Norms(s: seq<Sample>): (r: seq<real>)
    ensures |r| == |s| && forall i :: 0 <= i < |s| ==> r[i] == s[i].norm
  {
    seq(|s|, i requires 0 <= i < |s| => s[i].norm)
  }

  function Timestamps(s: seq<Sample>): (r: seq<int>)
    ensures |r| == |s| && forall i :: 0 <= i < |s| ==> r[i] == s[i].ts
  {
    seq(|s|, i requires 0 <= i < |s| => s[i].ts)
  }

  /** Sorting keeps every stored norm a true norm. */
  lemma SortKeepsNorms(s: seq<Sample>)
    requires NormsConsistent(s)
    ensures NormsConsistent(SortByTimestamp(s))
  {
    var r := SortByTimestamp(s);
    forall i | 0 <= i < |r| ensures IsNormOf(r[i]) {
      assert r[i] in multiset(s);
    }
  }
}
