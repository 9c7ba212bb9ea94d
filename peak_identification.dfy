/**
 * The gait-stage task: a 20-sample DC block and a 7-tap low-pass over the sample norms,
 * segmentation at sign changes, at most one peak or trough per segment, and the mean and
 * population variance of the gaps between consecutive peaks and between consecutive troughs.
 */
module PeakIdentification {
  import opened Wrappers
  import opened Recording
  import Stats

  const WindowSize: nat := 20
  const Threshold: real := 0.2

  /** The low-pass numerator [1, 2, 3, 4, 3, 2, 1] / 16; the denominator is [1]. */
  const Taps: seq<real> := [1.0 / 16.0, 2.0 / 16.0, 3.0 / 16.0, 4.0 / 16.0, 3.0 / 16.0, 2.0 / 16.0, 1.0 / 16.0]

  /** The first position of the smoothed column that is not NaN. */
  const FirstSmoothed: nat := 25

  // ---------------------------------------------------------------------------------
  // Step 2: DC block. None is the NaN of a rolling window that is not yet full.

  function DcBlock(n: seq<real>): (r: seq<Option<real>>)
    ensures |r| == |n|
  {
    seq(|n|, i requires 0 <= i < |n| =>
      if i < WindowSize - 1 then None
      else Some(n[i] - Stats.Mean(n[i - (WindowSize - 1)..i + 1])))
  }

  /** The DC block removes a constant offset: adding c to every norm changes nothing. */
  lemma DcBlockShift(n: seq<real>, m: seq<real>, c: real)
    requires |m| == |n|
    requires forall i :: 0 <= i < |n| ==> m[i] == n[i] + c
    ensures DcBlock(m) == DcBlock(n)
  {
    forall i | WindowSize - 1 <= i < |n|
      ensures DcBlock(m)[i] == DcBlock(n)[i]
    {
      WindowShift(n, m, c, i);
    }
  }

  /** Output i of the DC block is unchanged by the offset: its window's mean moves by c too. */
  lemma WindowShift(n: seq<real>, m: seq<real>, c: real, i: nat)
    requires |m| == |n| && WindowSize - 1 <= i < |n|
    requires forall i :: 0 <= i < |n| ==> m[i] == n[i] + c
    ensures DcBlock(m)[i] == DcBlock(n)[i]
  {
    var lo := i - (WindowSize - 1);
    var w, v := n[lo..i + 1], m[lo..i + 1];
    forall k | 0 <= k < |w| ensures v[k] == w[k] + c {
      assert w[k] == n[lo + k] && v[k] == m[lo + k];
    }
    Stats.MeanShift(w, v, c);
  }

  /** A constant recording is blocked to exactly zero once the window is full. */
  lemma DcBlockConstant(n: seq<real>, c: real)
    requires forall i :: 0 <= i < |n| ==> n[i] == c
    ensures forall i :: WindowSize - 1 <= i < |n| ==> DcBlock(n)[i] == Some(0.0)
  {
    forall i | WindowSize - 1 <= i < |n|
      ensures DcBlock(n)[i] == Some(0.0)
    {
      Stats.MeanConstant(n[i - (WindowSize - 1)..i + 1], c);
    }
  }

  // ---------------------------------------------------------------------------------
  // Step 3: the causal FIR low-pass with zero initial state. A NaN input makes every
  // output NaN whose window holds it.

  /** Tap j's contribution to output i: zero before the first input, NaN on a NaN input. */
  function TapTerm(x: seq<Option<real>>, i: nat, j: nat): Option<real>
    requires i < |x| && j < |Taps|
  {
    if i < j then Some(0.0)
    else match x[i - j]
      case None => None
      case Some(v) => Some(Taps[j] * v)
  }

  /** The sum of the first k tap contributions to output i. */
  function FirSum(x: seq<Option<real>>, i: nat, k: nat): Option<real>
    requires i < |x| && k <= |Taps|
  {
    if k == 0 then Some(0.0)
    else
      var a, b := FirSum(x, i, k - 1), TapTerm(x, i, k - 1);
      if a.Some? && b.Some? then Some(a.value + b.value) else None
  }

  function LowPass(x: seq<Option<real>>): (r: seq<Option<real>>)
    ensures |r| == |x|
  {
    seq(|x|, i requires 0 <= i < |x| => FirSum(x, i, |Taps|))
  }

  /** The sum of the first k taps. */
  function TapTotal(k: nat): real
    requires k <= |Taps|
  {
    if k == 0 then 0.0 else TapTotal(k - 1) + Taps[k - 1]
  }

  /** A partial sum is defined exactly when its inputs in range are. */
  lemma {:induction false} FirSumAvailable(x: seq<Option<real>>, i: nat, k: nat)
    requires i < |x| && k <= |Taps|
    ensures FirSum(x, i, k).Some? <==> forall q :: i - k < q <= i && 0 <= q ==> x[q].Some?
  {
    if k > 0 {
      FirSumAvailable(x, i, k - 1);
    }
  }

  /** Output i is defined exactly when the (up to) seven inputs x[i-6..i] are. */
  lemma LowPassAvailable(x: seq<Option<real>>)
    ensures forall i :: 0 <= i < |x| ==>
      (LowPass(x)[i].Some? <==> forall q :: i - |Taps| < q <= i && 0 <= q ==> x[q].Some?)
  {
    forall i | 0 <= i < |x| {
      FirSumAvailable(x, i, |Taps|);
    }
  }

  /** Over a window of equal inputs c, the partial sum is c times the partial tap total. */
  lemma {:induction false} FirSumConstant(x: seq<Option<real>>, i: nat, k: nat, c: real)
    requires i < |x| && k <= |Taps| && k <= i + 1
    requires forall q :: i - k < q <= i ==> x[q] == Some(c)
    ensures FirSum(x, i, k) == Some(c * TapTotal(k))
  {
    if k > 0 {
      var j: nat := k - 1;
      FirSumConstant(x, i, j, c);
      var sum, term := FirSum(x, i, j), TapTerm(x, i, j);
      assert x[i - j] == Some(c);
      assert sum.value + term.value == c * TapTotal(k);
    }
  }

  /** The filter has unit gain at zero frequency: a full window of c is passed as c. */
  lemma LowPassConstant(x: seq<Option<real>>, i: nat, c: real)
    requires |Taps| - 1 <= i < |x|
    requires forall q :: i - |Taps| < q <= i ==> x[q] == Some(c)
    ensures LowPass(x)[i] == Some(c)
  {
    var k: nat := |Taps|;
    FirSumConstant(x, i, k, c);
    assert LowPass(x)[i] == FirSum(x, i, k);
    assert TapTotal(1) == 1.0 / 16.0;
    assert TapTotal(2) == 3.0 / 16.0;
    assert TapTotal(3) == 6.0 / 16.0;
    assert TapTotal(4) == 10.0 / 16.0;
    assert TapTotal(5) == 13.0 / 16.0;
    assert TapTotal(6) == 15.0 / 16.0;
    assert TapTotal(7) == 1.0;
    assert c * TapTotal(k) == c;
  }

  /** The smoothed column: the low-passed DC-blocked norms. */
  function Smoothed(n: seq<real>): (r: seq<Option<real>>)
    ensures |r| == |n|
  {
    LowPass(DcBlock(n))
  }

  /** The smoothed column is NaN exactly at its first 25 positions. */
  lemma SmoothedGaps(n: seq<real>)
    ensures forall i :: 0 <= i < |n| ==> (Smoothed(n)[i].Some? <==> i >= FirstSmoothed)
  {
    var d := DcBlock(n);
    LowPassAvailable(d);
    forall i | 0 <= i < |n| && i < FirstSmoothed
      ensures Smoothed(n)[i].None?
    {
      var q := if i >= |Taps| - 1 then i - (|Taps| - 1) else 0;
      assert d[q].None?;
    }
  }

  // ---------------------------------------------------------------------------------
  // Step 4: zero crossings of the NaN-dropped series

  /** The smoothed values with the NaNs removed, in order. */
  function DropGaps(s: seq<Option<real>>): (r: seq<real>)
    ensures |r| <= |s|
  {
    if s == [] then [] else (if s[0].Some? then [s[0].value] else []) + DropGaps(s[1..])
  }

  /**
   * When the gaps are exactly the first g positions, the dropped series is the tail from g
   * on: its position p is position p + g of the full column.
   */
  lemma {:induction false} DropGapsSuffix(s: seq<Option<real>>, g: nat)
    requires g <= |s|
    requires forall i :: 0 <= i < |s| ==> (s[i].Some? <==> i >= g)
    ensures |DropGaps(s)| == |s| - g
    ensures forall p :: 0 <= p < |s| - g ==> s[p + g] == Some(DropGaps(s)[p])
  {
    if s != [] {
      var t := s[1..];
      var d, e := DropGaps(s), DropGaps(t);
      assert forall i :: 0 <= i < |t| ==> t[i] == s[i + 1];
      if g > 0 {
        assert s[0].None?;
        DropGapsSuffix(t, g - 1);
        assert d == e;
        forall p | 0 <= p < |s| - g ensures s[p + g] == Some(d[p]) {
          assert s[p + g] == t[p + g - 1];
        }
      } else {
        assert s[0].Some?;
        DropGapsSuffix(t, 0);
        assert d == [s[0].value] + e;
        forall p | 0 <= p < |s| ensures s[p] == Some(d[p]) {
          if p > 0 {
            assert s[p] == t[p - 1] && d[p] == e[p - 1];
          }
        }
      }
    }
  }

  /** numpy's sign: -1, 0 or 1. */
  function Sign(v: real): int
  {
    if v > 0.0 then 1 else if v < 0.0 then -1 else 0
  }

  /** The sign differs between positions p and p + 1. */
  predicate Changes(v: seq<real>, p: nat)
    requires p + 1 < |v|
  {
    Sign(v[p]) != Sign(v[p + 1])
  }

  /** The crossing positions from p on, ascending. */
  function CrossingsFrom(v: seq<real>, p: nat): (r: seq<nat>)
    requires p <= |v|
    ensures forall j :: 0 <= j < |r| ==> p <= r[j] && r[j] + 1 < |v| && Changes(v, r[j])
    ensures forall j, k :: 0 <= j < k < |r| ==> r[j] < r[k]
    ensures forall q :: p <= q && q + 1 < |v| && Changes(v, q) ==> q in r
    decreases |v| - p
  {
    if p + 1 >= |v| then []
    else (if Changes(v, p) then [p] else []) + CrossingsFrom(v, p + 1)
  }

  /** np.where(np.diff(np.sign(v)))[0]: every p with sign(v[p]) != sign(v[p + 1]), ascending. */
  function ZeroCrossings(v: seq<real>): (r: seq<nat>)
    ensures forall j :: 0 <= j < |r| ==> r[j] + 1 < |v| && Changes(v, r[j])
    ensures forall j, k :: 0 <= j < k < |r| ==> r[j] < r[k]
    ensures forall q: nat :: q + 1 < |v| && Changes(v, q) ==> q in r
  {
    CrossingsFrom(v, 0)
  }

  // ---------------------------------------------------------------------------------
  // Step 4 (cont.): one segment's extremes, NaNs skipped, first occurrence on ties

  /** idxmin over positions lo..hi-1 of the full column; None when all of them are NaN. */
  function ArgMin(s: seq<Option<real>>, lo: nat, hi: nat): (r: Option<nat>)
    requires lo <= hi <= |s|
    ensures r.Some? ==> lo <= r.value < hi && s[r.value].Some?
    decreases hi - lo
  {
    if lo == hi then None
    else
      var rest := ArgMin(s, lo + 1, hi);
      if s[lo].None? then rest
      else if rest.None? || s[lo].value <= s[rest.value].value then Some(lo)
      else rest
  }

  /** ArgMin finds the first minimum of the available values, and fails only on all-NaN ranges. */
  lemma {:induction false} ArgMinIsFirst(s: seq<Option<real>>, lo: nat, hi: nat)
    requires lo <= hi <= |s|
    ensures var r := ArgMin(s, lo, hi);
      && (r.None? <==> forall j :: lo <= j < hi ==> s[j].None?)
      && (r.Some? ==> lo <= r.value < hi && s[r.value].Some?)
      && (r.Some? ==> forall j :: lo <= j < hi && s[j].Some? ==> s[r.value].value <= s[j].value)
      && (r.Some? ==> forall j :: lo <= j < r.value && s[j].Some? ==> s[r.value].value < s[j].value)
    decreases hi - lo
  {
    if lo < hi {
      ArgMinIsFirst(s, lo + 1, hi);
    }
  }

  /** idxmax over positions lo..hi-1 of the full column; None when all of them are NaN. */
  function ArgMax(s: seq<Option<real>>, lo: nat, hi: nat): (r: Option<nat>)
    requires lo <= hi <= |s|
    ensures r.Some? ==> lo <= r.value < hi && s[r.value].Some?
    decreases hi - lo
  {
    if lo == hi then None
    else
      var rest := ArgMax(s, lo + 1, hi);
      if s[lo].None? then rest
      else if rest.None? || s[lo].value >= s[rest.value].value then Some(lo)
      else rest
  }

  /** ArgMax finds the first maximum of the available values, and fails only on all-NaN ranges. */
  lemma {:induction false} ArgMaxIsFirst(s: seq<Option<real>>, lo: nat, hi: nat)
    requires lo <= hi <= |s|
    ensures var r := ArgMax(s, lo, hi);
      && (r.None? <==> forall j :: lo <= j < hi ==> s[j].None?)
      && (r.Some? ==> lo <= r.value < hi && s[r.value].Some?)
      && (r.Some? ==> forall j :: lo <= j < hi && s[j].Some? ==> s[j].value <= s[r.value].value)
      && (r.Some? ==> forall j :: lo <= j < r.value && s[j].Some? ==> s[j].value < s[r.value].value)
    decreases hi - lo
  {
    if lo < hi {
      ArgMaxIsFirst(s, lo + 1, hi);
    }
  }

  function Abs(v: real): real
  {
    if v < 0.0 then -v else v
  }

  /** What one segment contributes: a trough, a peak, or nothing. */
  datatype Event = Trough(at: nat) | Peak(at: nat) | NoEvent
  {
    /** The position a trough or peak is recorded at, as a one- or zero-element list. */
    function Positions(): (r: seq<nat>)
      ensures |r| <= 1
    {
      if NoEvent? then [] else [at]
    }
  }

  /** The classification of segment [lo, hi): trough if |min| > |max| and |min| > 0.2, else peak if |max| > 0.2. */
  function ClassifySegment(s: seq<Option<real>>, lo: nat, hi: nat): Result<Event, TaskError>
    requires lo <= hi <= |s|
  {
    var minAt, maxAt := ArgMin(s, lo, hi), ArgMax(s, lo, hi);
    if minAt.None? || maxAt.None? then Err(SegmentWithoutValues)
    else
      var minVal, maxVal := s[minAt.value].value, s[maxAt.value].value;
      if Abs(minVal) > Abs(maxVal) && Abs(minVal) > Threshold then Ok(Trough(minAt.value))
      else if Abs(maxVal) > Threshold then Ok(Peak(maxAt.value))
      else Ok(NoEvent)
  }

  /** Every available value of the segment is at most 0.2 in magnitude. */
  ghost predicate Quiet(s: seq<Option<real>>, lo: nat, hi: nat)
    requires lo <= hi <= |s|
  {
    forall j :: lo <= j < hi && s[j].Some? ==> Abs(s[j].value) <= Threshold
  }

  /** All of positions lo..hi-1 are NaN. */
  ghost predicate AllGaps(s: seq<Option<real>>, lo: nat, hi: nat)
    requires lo <= hi <= |s|
  {
    forall j :: lo <= j < hi ==> s[j].None?
  }

  /** A segment fails exactly when all of it is NaN. */
  lemma ClassifySegmentFails(s: seq<Option<real>>, lo: nat, hi: nat)
    requires lo <= hi <= |s|
    ensures ClassifySegment(s, lo, hi).Err? <==> AllGaps(s, lo, hi)
    ensures ClassifySegment(s, lo, hi).Err? ==> ClassifySegment(s, lo, hi).error == SegmentWithoutValues
  {
    ArgMinIsFirst(s, lo, hi);
    ArgMaxIsFirst(s, lo, hi);
  }

  /**
   * A trough is the first minimum of the
   * segment, below -0.2 and larger in magnitude than every value there; a peak is the first
   * maximum, above 0.2 in magnitude and no smaller in magnitude than the minimum; nothing is
   * recorded exactly when every value is within 0.2 of zero.
   */
  lemma ClassifySegmentRule(s: seq<Option<real>>, lo: nat, hi: nat)
    requires lo <= hi <= |s|
    ensures ClassifySegment(s, lo, hi).Ok? && ClassifySegment(s, lo, hi).value.Trough? ==>
      var t := ClassifySegment(s, lo, hi).value.at;
      && lo <= t < hi && s[t].Some? && s[t].value < -Threshold
      && (forall j :: lo <= j < hi && s[j].Some? ==> s[t].value <= s[j].value < -s[t].value)
      && (forall j :: lo <= j < t && s[j].Some? ==> s[t].value < s[j].value)
      && (exists j :: lo <= j < hi && s[j].Some? && s[t].value < s[j].value)
    ensures ClassifySegment(s, lo, hi).Ok? && ClassifySegment(s, lo, hi).value.Peak? ==>
      var p := ClassifySegment(s, lo, hi).value.at;
      && lo <= p < hi && s[p].Some? && Abs(s[p].value) > Threshold
      && (forall j :: lo <= j < hi && s[j].Some? ==> s[j].value <= s[p].value && -Abs(s[p].value) <= s[j].value)
      && (forall j :: lo <= j < p && s[j].Some? ==> s[j].value < s[p].value)
    ensures ClassifySegment(s, lo, hi) == Ok(NoEvent) <==>
      (exists j :: lo <= j < hi && s[j].Some?) && Quiet(s, lo, hi)
  {
    ArgMinIsFirst(s, lo, hi);
    ArgMaxIsFirst(s, lo, hi);
    var minAt, maxAt := ArgMin(s, lo, hi), ArgMax(s, lo, hi);
    if minAt.Some? {
      var minVal, maxVal := s[minAt.value].value, s[maxAt.value].value;
      assert lo <= minAt.value < hi;
      if ClassifySegment(s, lo, hi).Ok? && ClassifySegment(s, lo, hi).value.Trough? {
        assert minVal < maxVal;
      }
      if ClassifySegment(s, lo, hi) == Ok(NoEvent) {
        forall j | lo <= j < hi && s[j].Some? ensures Abs(s[j].value) <= Threshold {
          assert minVal <= s[j].value <= maxVal;
        }
      }
      if Quiet(s, lo, hi) {
        assert Abs(minVal) <= Threshold && Abs(maxVal) <= Threshold;
      }
    }
  }

  // ---------------------------------------------------------------------------------
  // The segment loop

  /** range(len(zero_crossings) - 1): one segment per consecutive pair of crossings. */
  function SegmentCount(zc: seq<nat>): nat
  {
    if |zc| < 2 then 0 else |zc| - 1
  }

  /** Ascending crossing positions, none beyond the column. */
  predicate ValidCrossings(zc: seq<nat>, n: nat)
  {
    (forall j, k :: 0 <= j < k < |zc| ==> zc[j] < zc[k]) && forall j :: 0 <= j < |zc| ==> zc[j] <= n
  }

  /** The peaks and troughs lists, as positions of the full column. */
  datatype Events = Events(peaks: seq<nat>, troughs: seq<nat>)

  /** The lists after the first k segments, or the failure of the first failing segment. */
  function EventsUpTo(s: seq<Option<real>>, zc: seq<nat>, k: nat): Result<Events, TaskError>
    requires ValidCrossings(zc, |s|) && k <= SegmentCount(zc)
  {
    if k == 0 then Ok(Events([], []))
    else
      match EventsUpTo(s, zc, k - 1)
      case Err(e) => Err(e)
      case Ok(ev) =>
        match ClassifySegment(s, zc[k - 1], zc[k])
        case Err(e) => Err(e)
        case Ok(Trough(t)) => Ok(Events(ev.peaks, ev.troughs + [t]))
        case Ok(Peak(p)) => Ok(Events(ev.peaks + [p], ev.troughs))
        case Ok(NoEvent) => Ok(ev)
  }

  /** A failure stops the loop: it is the outcome of every later prefix too. */
  lemma {:induction false} EventsFailureSticks(s: seq<Option<real>>, zc: seq<nat>, i: nat, k: nat)
    requires ValidCrossings(zc, |s|) && i <= k <= SegmentCount(zc)
    requires EventsUpTo(s, zc, i).Err?
    ensures EventsUpTo(s, zc, k) == EventsUpTo(s, zc, i)
    decreases k - i
  {
    if i < k {
      var j: nat := i + 1;
      assert EventsUpTo(s, zc, j) == EventsUpTo(s, zc, i);
      EventsFailureSticks(s, zc, j, k);
    }
  }

  /**
   * The loop at lines 58-73: for each segment, the first minimum and first maximum, then at
   * most one append. A segment of NaNs only makes the positional lookup fail.
   */
  method FindPeaksAndTroughs(s: seq<Option<real>>, zc: seq<nat>) returns (r: Result<Events, TaskError>)
    requires ValidCrossings(zc, |s|)
    ensures r == EventsUpTo(s, zc, SegmentCount(zc))
  {
    var peaks: seq<nat> := [];
    var troughs: seq<nat> := [];
    var i: nat := 0;
    while i < SegmentCount(zc)
      invariant i <= SegmentCount(zc)
      invariant EventsUpTo(s, zc, i) == Ok(Events(peaks, troughs))
    {
      var startIdx, endIdx := zc[i], zc[i + 1];
      var localMin := ArgMin(s, startIdx, endIdx);
      var localMax := ArgMax(s, startIdx, endIdx);
      if localMin.None? || localMax.None? {
        EventsFailureSticks(s, zc, i + 1, SegmentCount(zc));
        return Err(SegmentWithoutValues);
      }
      var minVal := s[localMin.value].value;
      var maxVal := s[localMax.value].value;
      if Abs(minVal) > Abs(maxVal) && Abs(minVal) > Threshold {
        troughs := troughs + [localMin.value];
      } else if Abs(maxVal) > Threshold {
        peaks := peaks + [localMax.value];
      }
      i := i + 1;
    }
    return Ok(Events(peaks, troughs));
  }

  predicate StrictlyIncreasing(s: seq<nat>)
  {
    forall j, k :: 0 <= j < k < |s| ==> s[j] < s[k]
  }

  /** Position x lies inside one of the first k segments. */
  ghost predicate InSegment(zc: seq<nat>, k: nat, x: nat)
    requires k <= SegmentCount(zc)
  {
    exists m :: 0 <= m < k && zc[m] <= x < zc[m + 1]
  }

  /** A recorded position lies inside its segment. */
  lemma ClassifySegmentInside(s: seq<Option<real>>, lo: nat, hi: nat)
    requires lo <= hi <= |s|
    requires ClassifySegment(s, lo, hi).Ok?
    ensures !ClassifySegment(s, lo, hi).value.NoEvent? ==> lo <= ClassifySegment(s, lo, hi).value.at < hi
  {
  }

  /** One step of the loop: segment k - 1 appends its position, if any, to one of the lists. */
  lemma EventsStep(s: seq<Option<real>>, zc: seq<nat>, k: nat)
    requires ValidCrossings(zc, |s|) && 0 < k <= SegmentCount(zc)
    requires EventsUpTo(s, zc, k).Ok?
    ensures EventsUpTo(s, zc, k - 1).Ok? && ClassifySegment(s, zc[k - 1], zc[k]).Ok?
    ensures var ev, prev, e := EventsUpTo(s, zc, k).value, EventsUpTo(s, zc, k - 1).value, ClassifySegment(s, zc[k - 1], zc[k]).value;
      && ev.peaks == prev.peaks + (if e.Peak? then e.Positions() else [])
      && ev.troughs == prev.troughs + (if e.Trough? then e.Positions() else [])
  {
  }

  /** Every recorded position lies inside one of the first k segments, hence below zc[k]. */
  lemma {:induction false} EventsInside(s: seq<Option<real>>, zc: seq<nat>, k: nat)
    requires ValidCrossings(zc, |s|) && 0 < k <= SegmentCount(zc)
    requires EventsUpTo(s, zc, k).Ok?
    ensures var ev := EventsUpTo(s, zc, k).value;
      && (forall a :: 0 <= a < |ev.peaks| ==> InSegment(zc, k, ev.peaks[a]) && ev.peaks[a] < zc[k])
      && (forall b :: 0 <= b < |ev.troughs| ==> InSegment(zc, k, ev.troughs[b]) && ev.troughs[b] < zc[k])
  {
    var j: nat := k - 1;
    var ev := EventsUpTo(s, zc, k).value;
    var prev := EventsUpTo(s, zc, j).value;
    EventsStep(s, zc, k);
    var c := ClassifySegment(s, zc[j], zc[k]);
    ClassifySegmentInside(s, zc[j], zc[k]);
    var added := c.value.Positions();
    if j > 0 {
      EventsInside(s, zc, j);
    } else {
      assert prev == Events([], []);
    }
    ExtendInside(zc, k, prev.peaks, if c.value.Peak? then added else []);
    ExtendInside(zc, k, prev.troughs, if c.value.Trough? then added else []);
  }

  /** Positions inside the first k - 1 segments, then positions inside segment k - 1. */
  lemma ExtendInside(zc: seq<nat>, k: nat, prev: seq<nat>, added: seq<nat>)
    requires 0 < k <= SegmentCount(zc) && zc[k - 1] < zc[k]
    requires forall a :: 0 <= a < |prev| ==> InSegment(zc, k - 1, prev[a]) && prev[a] < zc[k - 1]
    requires forall x :: x in added ==> zc[k - 1] <= x < zc[k]
    ensures forall a :: 0 <= a < |prev + added| ==> InSegment(zc, k, (prev + added)[a]) && (prev + added)[a] < zc[k]
  {
    var l := prev + added;
    forall a | 0 <= a < |l| ensures InSegment(zc, k, l[a]) && l[a] < zc[k] {
      if a < |prev| {
        var m :| 0 <= m < k - 1 && zc[m] <= prev[a] < zc[m + 1];
        assert l[a] == prev[a];
      } else {
        assert l[a] in added;
      }
    }
  }

  /** No position is in both lists. */
  predicate Disjoint(p: seq<nat>, t: seq<nat>)
  {
    forall a, b :: 0 <= a < |p| && 0 <= b < |t| ==> p[a] != t[b]
  }

  /** Appending at most one position at or above every earlier one keeps a list increasing. */
  lemma AppendAbove(l: seq<nat>, e: seq<nat>, bound: nat)
    requires StrictlyIncreasing(l) && |e| <= 1
    requires forall a :: 0 <= a < |l| ==> l[a] < bound
    requires forall x :: x in e ==> bound <= x
    ensures StrictlyIncreasing(l + e)
  {
    if |e| == 1 {
      assert e[0] in e;
    }
  }

  /** A new position at or above every earlier one is in neither list. */
  lemma DisjointAppend(p: seq<nat>, t: seq<nat>, e: seq<nat>, bound: nat)
    requires Disjoint(p, t)
    requires forall a :: 0 <= a < |p| ==> p[a] < bound
    requires forall b :: 0 <= b < |t| ==> t[b] < bound
    requires forall x :: x in e ==> bound <= x
    ensures Disjoint(p + e, t) && Disjoint(p, t + e)
  {
    forall a, b | 0 <= a < |p + e| && 0 <= b < |t| ensures (p + e)[a] != t[b] {
      if a >= |p| {
        assert (p + e)[a] in e;
      }
    }
    forall a, b | 0 <= a < |p| && 0 <= b < |t + e| ensures p[a] != (t + e)[b] {
      if b >= |t| {
        assert (t + e)[b] in e;
      }
    }
  }

  /**
   * After k segments each list is strictly increasing, the two share no position, and each
   * segment added at most one position.
   */
  lemma {:induction false} EventsOrdered(s: seq<Option<real>>, zc: seq<nat>, k: nat)
    requires ValidCrossings(zc, |s|) && k <= SegmentCount(zc)
    requires EventsUpTo(s, zc, k).Ok?
    ensures var ev := EventsUpTo(s, zc, k).value;
      StrictlyIncreasing(ev.peaks) && StrictlyIncreasing(ev.troughs) && Disjoint(ev.peaks, ev.troughs)
      && |ev.peaks| + |ev.troughs| <= k
  {
    if k > 0 {
      var j: nat := k - 1;
      var ev := EventsUpTo(s, zc, k).value;
      var prev := EventsUpTo(s, zc, j).value;
      EventsStep(s, zc, k);
      var c := ClassifySegment(s, zc[j], zc[k]);
      ClassifySegmentInside(s, zc[j], zc[k]);
      EventsOrdered(s, zc, j);
      if j > 0 {
        EventsInside(s, zc, j);
      } else {
        assert prev == Events([], []);
      }
      ExtendOrdered(prev, ev, c.value, zc[j], j);
    }
  }

  /** One step keeps both lists increasing and disjoint when the new position is above all earlier ones. */
  lemma ExtendOrdered(prev: Events, ev: Events, e: Event, bound: nat, n: nat)
    requires StrictlyIncreasing(prev.peaks) && StrictlyIncreasing(prev.troughs) && Disjoint(prev.peaks, prev.troughs)
    requires |prev.peaks| + |prev.troughs| <= n
    requires forall a :: 0 <= a < |prev.peaks| ==> prev.peaks[a] < bound
    requires forall b :: 0 <= b < |prev.troughs| ==> prev.troughs[b] < bound
    requires !e.NoEvent? ==> bound <= e.at
    requires ev.peaks == prev.peaks + (if e.Peak? then e.Positions() else [])
    requires ev.troughs == prev.troughs + (if e.Trough? then e.Positions() else [])
    ensures StrictlyIncreasing(ev.peaks) && StrictlyIncreasing(ev.troughs) && Disjoint(ev.peaks, ev.troughs)
    ensures |ev.peaks| + |ev.troughs| <= n + 1
  {
    var added := e.Positions();
    var toPeaks := if e.Peak? then added else [];
    var toTroughs := if e.Trough? then added else [];
    assert forall x :: x in added ==> bound <= x;
    AppendAbove(prev.peaks, toPeaks, bound);
    AppendAbove(prev.troughs, toTroughs, bound);
    DisjointAppend(prev.peaks, prev.troughs, added, bound);
  }


  /** The loop fails exactly when one of the first k segments is all NaN. */
  lemma {:induction false} EventsFailure(s: seq<Option<real>>, zc: seq<nat>, k: nat)
    requires ValidCrossings(zc, |s|) && k <= SegmentCount(zc)
    ensures EventsUpTo(s, zc, k).Err? <==> exists m :: 0 <= m < k && AllGaps(s, zc[m], zc[m + 1])
    ensures EventsUpTo(s, zc, k).Err? ==> EventsUpTo(s, zc, k).error == SegmentWithoutValues
  {
    if k > 0 {
      var j: nat := k - 1;
      EventsFailure(s, zc, j);
      EventsErrStep(s, zc, k);
      ClassifySegmentFails(s, zc[j], zc[k]);
      GapsStep(s, zc, k);
    }
  }

  /** The loop after k segments fails iff it failed before or segment k - 1 fails, with that failure. */
  lemma EventsErrStep(s: seq<Option<real>>, zc: seq<nat>, k: nat)
    requires ValidCrossings(zc, |s|) && 0 < k <= SegmentCount(zc)
    ensures EventsUpTo(s, zc, k).Err? <==>
      EventsUpTo(s, zc, k - 1).Err? || ClassifySegment(s, zc[k - 1], zc[k]).Err?
    ensures var r, prev, c := EventsUpTo(s, zc, k), EventsUpTo(s, zc, k - 1), ClassifySegment(s, zc[k - 1], zc[k]);
      r.Err? ==> r.error == (if prev.Err? then prev.error else c.error)
  {
  }

  /** One of the first k segments is all NaN iff one of the first k - 1 is or segment k - 1 is. */
  lemma GapsStep(s: seq<Option<real>>, zc: seq<nat>, k: nat)
    requires ValidCrossings(zc, |s|) && 0 < k <= SegmentCount(zc)
    ensures (exists m :: 0 <= m < k && AllGaps(s, zc[m], zc[m + 1])) <==>
      (exists m :: 0 <= m < k - 1 && AllGaps(s, zc[m], zc[m + 1])) || AllGaps(s, zc[k - 1], zc[k])
  {
    if exists m :: 0 <= m < k && AllGaps(s, zc[m], zc[m + 1]) {
      var m :| 0 <= m < k && AllGaps(s, zc[m], zc[m + 1]);
      if m == k - 1 {
        assert AllGaps(s, zc[k - 1], zc[k]);
      }
    }
    if AllGaps(s, zc[k - 1], zc[k]) {
      assert AllGaps(s, zc[k - 1], zc[(k - 1) + 1]);
    }
  }

  /** With every smoothed value within 0.2 of zero, a loop that succeeds records nothing. */
  lemma {:induction false} QuietEvents(s: seq<Option<real>>, zc: seq<nat>, k: nat)
    requires ValidCrossings(zc, |s|) && k <= SegmentCount(zc)
    requires Quiet(s, 0, |s|)
    requires EventsUpTo(s, zc, k).Ok?
    ensures EventsUpTo(s, zc, k).value == Events([], [])
  {
    if k > 0 {
      var j: nat := k - 1;
      EventsStep(s, zc, k);
      QuietEvents(s, zc, j);
      ClassifySegmentFails(s, zc[j], zc[k]);
      ClassifySegmentRule(s, zc[j], zc[k]);
      var w :| zc[j] <= w < zc[k] && s[w].Some?;
      assert ClassifySegment(s, zc[j], zc[k]) == Ok(NoEvent);
    }
  }

  // ---------------------------------------------------------------------------------
  // Interval statistics

  /** The gaps, in seconds, between consecutive timestamps (the first, NaT, is dropped). */
  function Intervals(ts: seq<int>): (r: seq<real>)
    ensures |r| == if |ts| < 2 then 0 else |ts| - 1
  {
    if |ts| < 2 then []
    else seq(|ts| - 1, j requires 0 <= j < |ts| - 1 => (ts[j + 1] - ts[j]) as real / 1000.0)
  }

  /** Mean and population variance of the gaps; both 0 when there is no gap. */
  datatype IntervalSummary = IntervalSummary(avg: real, variance: real)

  function IntervalStats(ts: seq<int>): IntervalSummary
  {
    var d := Intervals(ts);
    if |d| > 0 then IntervalSummary(Stats.Mean(d), Stats.Variance(d)) else IntervalSummary(0.0, 0.0)
  }

  /** The gaps telescope: they add up to the span from the first to the last timestamp. */
  lemma {:induction false} IntervalsSum(ts: seq<int>)
    requires |ts| >= 2
    ensures Stats.Sum(Intervals(ts)) == (ts[|ts| - 1] - ts[0]) as real / 1000.0
    decreases |ts|
  {
    var d, t := Intervals(ts), ts[1..];
    if |ts| == 2 {
      assert d == [(ts[1] - ts[0]) as real / 1000.0];
      assert Stats.Sum(d) == d[0] + Stats.Sum(d[1..]);
    } else {
      IntervalsSum(t);
      assert d[1..] == Intervals(t);
      assert Stats.Sum(d) == d[0] + Stats.Sum(d[1..]);
    }
  }

  /**
   * Fewer than two timestamps give (0, 0); otherwise the average gap is the span over the
   * number of gaps, and the variance is never negative.
   */
  lemma IntervalStatsMean(ts: seq<int>)
    ensures |ts| < 2 ==> IntervalStats(ts) == IntervalSummary(0.0, 0.0)
    ensures |ts| >= 2 ==>
      IntervalStats(ts).avg == (ts[|ts| - 1] - ts[0]) as real / (1000.0 * (|ts| - 1) as real)
    ensures IntervalStats(ts).variance >= 0.0
  {
    if |ts| >= 2 {
      var d := Intervals(ts);
      IntervalsSum(ts);
      Stats.VarianceNonNegative(d);
      var n := (|ts| - 1) as real;
      assert Stats.Mean(d) == Stats.Sum(d) / n;
      assert (ts[|ts| - 1] - ts[0]) as real / 1000.0 / n == (ts[|ts| - 1] - ts[0]) as real / (1000.0 * n);
    }
  }

  /** Evenly spaced timestamps, gap g ms, give an average of g / 1000 s and variance 0. */
  lemma EvenIntervals(ts: seq<int>, g: int)
    requires |ts| >= 2
    requires forall j :: 0 <= j < |ts| - 1 ==> ts[j + 1] - ts[j] == g
    ensures IntervalStats(ts) == IntervalSummary(g as real / 1000.0, 0.0)
  {
    Stats.VarianceConstant(Intervals(ts), g as real / 1000.0);
  }

  /** Increasing timestamps give a non-negative average gap. */
  lemma IntervalsNonNegative(ts: seq<int>)
    requires forall j, k :: 0 <= j < k < |ts| ==> ts[j] <= ts[k]
    ensures IntervalStats(ts).avg >= 0.0
  {
    var d := Intervals(ts);
    if |d| > 0 {
      forall j | 0 <= j < |d| ensures d[j] >= 0.0 {
        assert ts[j] <= ts[j + 1];
      }
      Stats.SumNonNegative(d);
      assert Stats.Mean(d) == Stats.Sum(d) / |d| as real;
    }
  }

  // ---------------------------------------------------------------------------------
  // The task

  /** The stored ZeroCrossingAnalysis row with its peak and trough indices. */
  datatype ZeroCrossingAnalysis = ZeroCrossingAnalysis(
    stageDataId: int,
    avgPeakDistance: real,
    varPeakDistance: real,
    avgTroughDistance: real,
    varTroughDistance: real,
    peakIndices: seq<nat>,
    troughIndices: seq<nat>)

  /** table.iloc[idx]["Timestamp"]. */
  function TimestampsAt(table: seq<Sample>, idx: seq<nat>): (r: seq<int>)
    requires forall j :: 0 <= j < |idx| ==> idx[j] < |table|
    ensures |r| == |idx|
  {
    seq(|idx|, j requires 0 <= j < |idx| => table[idx[j]].ts)
  }

  /** The crossings of a column are ascending and within it. */
  lemma CrossingsOfColumn(y: seq<Option<real>>)
    ensures ValidCrossings(ZeroCrossings(DropGaps(y)), |y|)
  {
  }

  /** Recorded positions are positions of the column. */
  lemma EventsInColumn(s: seq<Option<real>>, zc: seq<nat>, k: nat)
    requires ValidCrossings(zc, |s|) && k <= SegmentCount(zc)
    requires EventsUpTo(s, zc, k).Ok?
    ensures forall a :: 0 <= a < |EventsUpTo(s, zc, k).value.peaks| ==> EventsUpTo(s, zc, k).value.peaks[a] < |s|
    ensures forall b :: 0 <= b < |EventsUpTo(s, zc, k).value.troughs| ==> EventsUpTo(s, zc, k).value.troughs[b] < |s|
  {
    if k > 0 {
      EventsInside(s, zc, k);
    } else {
      assert EventsUpTo(s, zc, k).value == Events([], []);
    }
  }

  /** The row for a table and its peak and trough lists. */
  function Summarise(id: int, table: seq<Sample>, ev: Events): ZeroCrossingAnalysis
    requires forall a :: 0 <= a < |ev.peaks| ==> ev.peaks[a] < |table|
    requires forall b :: 0 <= b < |ev.troughs| ==> ev.troughs[b] < |table|
  {
    var p, t := IntervalStats(TimestampsAt(table, ev.peaks)), IntervalStats(TimestampsAt(table, ev.troughs));
    ZeroCrossingAnalysis(id, p.avg, p.variance, t.avg, t.variance, ev.peaks, ev.troughs)
  }

  /** The smoothed column of a table and its crossings. */
  function Column(table: seq<Sample>): (y: seq<Option<real>>)
    ensures |y| == |table|
  {
    Smoothed(Norms(table))
  }

  function Crossings(table: seq<Sample>): seq<nat>
  {
    ZeroCrossings(DropGaps(Column(table)))
  }

  /** Steps 2 to 4 and the statistics, on the sorted table. */
  function AnalyzeGait(id: int, table: seq<Sample>): Result<ZeroCrossingAnalysis, TaskError>
  {
    var y, zc := Column(table), Crossings(table);
    CrossingsOfColumn(y);
    match EventsUpTo(y, zc, SegmentCount(zc))
    case Err(e) => Err(e)
    case Ok(ev) =>
      EventsInColumn(y, zc, SegmentCount(zc));
      Ok(Summarise(id, table, ev))
  }

  /**
   * identify_peaks(id), with the database lookup given as data: None when no row has this
   * id; Ok is the row that would be stored.
   */
  function GaitAnalysisTask(id: int, data: Option<seq<Sample>>): Result<ZeroCrossingAnalysis, TaskError>
  {
    match data
    case None => Err(NotFound(id))
    case Some(points) =>
      if points == [] then Err(EmptyRecording) else AnalyzeGait(id, SortByTimestamp(points))
  }

  /** The task body, with the segment loop run as a loop. */
  method IdentifyPeaks(id: int, data: Option<seq<Sample>>) returns (r: Result<ZeroCrossingAnalysis, TaskError>)
    ensures r == GaitAnalysisTask(id, data)
  {
    if data.None? {
      return Err(NotFound(id));
    }
    var points := data.value;
    if points == [] {
      return Err(EmptyRecording);
    }
    var table := SortByTimestamp(points);
    var y := Column(table);
    var zc := Crossings(table);
    CrossingsOfColumn(y);
    var found := FindPeaksAndTroughs(y, zc);
    if found.Err? {
      return Err(found.error);
    }
    EventsInColumn(y, zc, SegmentCount(zc));
    return Ok(Summarise(id, table, found.value));
  }

  // ---------------------------------------------------------------------------------
  // The task's properties

  /**
   * The crossing positions refer to the NaN-dropped series, whose position p is position
   * p + 25 of the full column; the segments nevertheless start at position p of it.
   */
  lemma CrossingOffset(table: seq<Sample>)
    ensures |DropGaps(Column(table))| == if |table| < FirstSmoothed then 0 else |table| - FirstSmoothed
    ensures forall p :: 0 <= p < |DropGaps(Column(table))| ==>
      Column(table)[p + FirstSmoothed] == Some(DropGaps(Column(table))[p])
  {
    var y := Column(table);
    SmoothedGaps(Norms(table));
    var g := if |table| < FirstSmoothed then |table| else FirstSmoothed;
    DropGapsSuffix(y, g);
  }

  /** On the smoothed column, a segment is all NaN exactly when it ends by position 25. */
  lemma GapSegment(table: seq<Sample>, lo: nat, hi: nat)
    requires lo < hi <= |table|
    ensures AllGaps(Column(table), lo, hi) <==> hi <= FirstSmoothed
  {
    SmoothedGaps(Norms(table));
    if hi > FirstSmoothed {
      assert Column(table)[hi - 1].Some?;
    }
  }

  /**
   * Analysing a non-empty table fails exactly when the second crossing of the dropped series
   * is at position 25 or less: the first segment then lies wholly in the leading NaNs of
   * the smoothed column.
   */
  lemma AnalyzeGaitFails(id: int, table: seq<Sample>)
    ensures AnalyzeGait(id, table).Err? ==> AnalyzeGait(id, table).error == SegmentWithoutValues
    ensures AnalyzeGait(id, table).Err? <==>
      |Crossings(table)| >= 2 && Crossings(table)[1] <= FirstSmoothed
  {
    AnalyzeGaitEvents(id, table);
    SegmentsFail(table);
  }

  /** The analysis fails exactly when the loop over the segments does, and in the same way. */
  lemma AnalyzeGaitEvents(id: int, table: seq<Sample>)
    ensures ValidCrossings(Crossings(table), |Column(table)|)
    ensures var zc := Crossings(table);
      && (AnalyzeGait(id, table).Err? <==> EventsUpTo(Column(table), zc, SegmentCount(zc)).Err?)
      && (AnalyzeGait(id, table).Err? ==> AnalyzeGait(id, table).error == EventsUpTo(Column(table), zc, SegmentCount(zc)).error)
  {
    CrossingsOfColumn(Column(table));
  }

  /** The loop over the segments fails, with a NaN-only segment, exactly when the first one ends by position 25. */
  lemma SegmentsFail(table: seq<Sample>)
    requires ValidCrossings(Crossings(table), |Column(table)|)
    ensures var y, zc := Column(table), Crossings(table);
      && (EventsUpTo(y, zc, SegmentCount(zc)).Err? <==> |zc| >= 2 && zc[1] <= FirstSmoothed)
      && (EventsUpTo(y, zc, SegmentCount(zc)).Err? ==> EventsUpTo(y, zc, SegmentCount(zc)).error == SegmentWithoutValues)
  {
    var y := Column(table);
    forall lo: nat, hi: nat | lo < hi <= |y| ensures AllGaps(y, lo, hi) <==> hi <= FirstSmoothed {
      GapSegment(table, lo, hi);
    }
    LeadingGapsFail(y, Crossings(table));
  }

  /** With gaps exactly at the first 25 positions, the loop fails iff the first segment ends there. */
  lemma LeadingGapsFail(y: seq<Option<real>>, zc: seq<nat>)
    requires ValidCrossings(zc, |y|)
    requires forall lo: nat, hi: nat :: lo < hi <= |y| ==> (AllGaps(y, lo, hi) <==> hi <= FirstSmoothed)
    ensures EventsUpTo(y, zc, SegmentCount(zc)).Err? <==> |zc| >= 2 && zc[1] <= FirstSmoothed
    ensures EventsUpTo(y, zc, SegmentCount(zc)).Err? ==> EventsUpTo(y, zc, SegmentCount(zc)).error == SegmentWithoutValues
  {
    var k := SegmentCount(zc);
    EventsFailure(y, zc, k);
    if |zc| >= 2 && zc[1] <= FirstSmoothed {
      assert zc[0] < zc[1];
      assert AllGaps(y, zc[0], zc[0 + 1]);
    }
    if EventsUpTo(y, zc, k).Err? {
      var m :| 0 <= m < k && AllGaps(y, zc[m], zc[m + 1]);
      CrossingsAscend(zc, |y|, 1, m + 1);
    }
  }

  /** Later crossings are at later positions. */
  lemma CrossingsAscend(zc: seq<nat>, n: nat, j: nat, k: nat)
    requires ValidCrossings(zc, n) && j <= k < |zc|
    ensures zc[j] <= zc[k]
  {
    if j < k {
      assert zc[j] < zc[k];
    }
  }

  /** The failures: no row; no points; or a first segment made only of NaNs. */
  lemma GaitErrors(id: int, data: Option<seq<Sample>>)
    ensures GaitAnalysisTask(id, data) == Err(NotFound(id)) <==> data.None?
    ensures GaitAnalysisTask(id, data) == Err(EmptyRecording) <==> data == Some([])
    ensures data.Some? && data.value != [] ==>
      && (GaitAnalysisTask(id, data).Err? ==> GaitAnalysisTask(id, data).error == SegmentWithoutValues)
      && (GaitAnalysisTask(id, data).Err? <==>
            |Crossings(SortByTimestamp(data.value))| >= 2 && Crossings(SortByTimestamp(data.value))[1] <= FirstSmoothed)
  {
    if data.Some? && data.value != [] {
      AnalyzeGaitFails(id, SortByTimestamp(data.value));
    }
  }

  /**
   * A stored row: the peak and trough lists are each strictly increasing, disjoint, and made
   * of positions inside segments; the statistics are those of the gaps between the
   * timestamps at those positions of the sorted table, with non-negative averages.
   */
  lemma GaitResult(id: int, points: seq<Sample>)
    requires GaitAnalysisTask(id, Some(points)).Ok?
    ensures points != []
    ensures var a, table := GaitAnalysisTask(id, Some(points)).value, SortByTimestamp(points);
      var zc := Crossings(table);
      && a.stageDataId == id
      && StrictlyIncreasing(a.peakIndices) && StrictlyIncreasing(a.troughIndices)
      && Disjoint(a.peakIndices, a.troughIndices)
      && |a.peakIndices| + |a.troughIndices| <= SegmentCount(zc)
      && (forall j :: 0 <= j < |a.peakIndices| ==> a.peakIndices[j] < |table| && InSegment(zc, SegmentCount(zc), a.peakIndices[j]))
      && (forall j :: 0 <= j < |a.troughIndices| ==> a.troughIndices[j] < |table| && InSegment(zc, SegmentCount(zc), a.troughIndices[j]))
      && IntervalSummary(a.avgPeakDistance, a.varPeakDistance) == IntervalStats(TimestampsAt(table, a.peakIndices))
      && IntervalSummary(a.avgTroughDistance, a.varTroughDistance) == IntervalStats(TimestampsAt(table, a.troughIndices))
      && a.avgPeakDistance >= 0.0 && a.avgTroughDistance >= 0.0
      && a.varPeakDistance >= 0.0 && a.varTroughDistance >= 0.0
  {
    var table := SortByTimestamp(points);
    var y, zc := Column(table), Crossings(table);
    CrossingsOfColumn(y);
    var k := SegmentCount(zc);
    var ev := EventsUpTo(y, zc, k).value;
    EventsOrdered(y, zc, k);
    EventsInColumn(y, zc, k);
    if k > 0 {
      EventsInside(y, zc, k);
    }
    SortedTimestampsAt(table, ev.peaks);
    SortedTimestampsAt(table, ev.troughs);
    IntervalStatsMean(TimestampsAt(table, ev.peaks));
    IntervalStatsMean(TimestampsAt(table, ev.troughs));
  }

  /** On a table sorted by time, increasing positions have non-decreasing timestamps, and so non-negative gaps. */
  lemma SortedTimestampsAt(table: seq<Sample>, idx: seq<nat>)
    requires SortedByTimestamp(table) && StrictlyIncreasing(idx)
    requires forall j :: 0 <= j < |idx| ==> idx[j] < |table|
    ensures IntervalStats(TimestampsAt(table, idx)).avg >= 0.0
  {
    var ts := TimestampsAt(table, idx);
    forall j, k | 0 <= j < k < |ts| ensures ts[j] <= ts[k] {
      assert idx[j] < idx[k];
    }
    IntervalsNonNegative(ts);
  }

  /** Nothing to summarise: no positions give a row of zeros. */
  lemma SummariseNothing(id: int, table: seq<Sample>)
    ensures Summarise(id, table, Events([], [])) == ZeroCrossingAnalysis(id, 0.0, 0.0, 0.0, 0.0, [], [])
  {
    assert TimestampsAt(table, []) == [];
    assert IntervalStats([]) == IntervalSummary(0.0, 0.0);
  }

  /** A quiet table that is analysed without failure gives a row of zeros. */
  lemma QuietTable(id: int, table: seq<Sample>)
    requires AnalyzeGait(id, table).Ok?
    requires Quiet(Column(table), 0, |table|)
    ensures AnalyzeGait(id, table) == Ok(ZeroCrossingAnalysis(id, 0.0, 0.0, 0.0, 0.0, [], []))
  {
    var y, zc := Column(table), Crossings(table);
    CrossingsOfColumn(y);
    QuietEvents(y, zc, SegmentCount(zc));
    SummariseNothing(id, table);
  }

  /**
   * When no smoothed value exceeds 0.2 in magnitude, a stored row has no peaks and no
   * troughs, and all four statistics are 0.
   */
  lemma QuietRecording(id: int, points: seq<Sample>)
    requires GaitAnalysisTask(id, Some(points)).Ok?
    requires Quiet(Column(SortByTimestamp(points)), 0, |points|)
    ensures GaitAnalysisTask(id, Some(points)) == Ok(ZeroCrossingAnalysis(id, 0.0, 0.0, 0.0, 0.0, [], []))
  {
    var table := SortByTimestamp(points);
    assert GaitAnalysisTask(id, Some(points)) == AnalyzeGait(id, table);
    QuietTable(id, table);
  }

  /** A column whose defined values are all 0 has no crossings. */
  lemma FlatColumnNoCrossings(y: seq<Option<real>>)
    requires forall i :: 0 <= i < |y| && y[i].Some? ==> y[i].value == 0.0
    ensures ZeroCrossings(DropGaps(y)) == []
  {
    var v := DropGaps(y);
    DropGapsOfZeros(y);
    forall q: nat | q + 1 < |v|
      ensures !Changes(v, q)
    {
      assert v[q] == 0.0 && v[q + 1] == 0.0;
    }
    SteadyFrom(v, 0);
  }

  /** Dropping the gaps of a column whose defined values are 0 leaves only zeros. */
  lemma {:induction false} DropGapsOfZeros(s: seq<Option<real>>)
    requires forall i :: 0 <= i < |s| && s[i].Some? ==> s[i].value == 0.0
    ensures forall p :: 0 <= p < |DropGaps(s)| ==> DropGaps(s)[p] == 0.0
  {
    if s != [] {
      assert forall i :: 0 <= i < |s[1..]| ==> s[1..][i] == s[i + 1];
      DropGapsOfZeros(s[1..]);
    }
  }

  /** No sign change from p on: no crossing from p on. */
  lemma {:induction false} SteadyFrom(v: seq<real>, p: nat)
    requires p <= |v|
    requires forall q: nat :: p <= q && q + 1 < |v| ==> !Changes(v, q)
    ensures CrossingsFrom(v, p) == []
    decreases |v| - p
  {
    if p + 1 < |v| {
      SteadyFrom(v, p + 1);
    }
  }

  /** Every value of the dropped series is a defined value of the column. */
  lemma {:induction false} DropGapsValues(s: seq<Option<real>>)
    ensures forall p :: 0 <= p < |DropGaps(s)| ==> exists i :: 0 <= i < |s| && s[i] == Some(DropGaps(s)[p])
  {
    if s != [] {
      var t := s[1..];
      DropGapsValues(t);
      var head := if s[0].Some? then [s[0].value] else [];
      assert DropGaps(s) == head + DropGaps(t);
      forall p | 0 <= p < |DropGaps(s)| ensures exists i :: 0 <= i < |s| && s[i] == Some(DropGaps(s)[p]) {
        if p < |head| {
          assert s[0] == Some(DropGaps(s)[p]);
        } else {
          assert DropGaps(s)[p] == DropGaps(t)[p - |head|];
          var i :| 0 <= i < |t| && t[i] == Some(DropGaps(t)[p - |head|]);
          assert s[i + 1] == t[i];
        }
      }
    } else {
      assert DropGaps(s) == [];
    }
  }

  /**
   * A recording whose norms are all equal is blocked to zero, has no crossing and so no
   * segment: the row holds no peaks, no troughs and four zeros.
   */
  lemma ConstantRecording(id: int, points: seq<Sample>, c: real)
    requires points != []
    requires forall i :: 0 <= i < |points| ==> points[i].norm == c
    ensures GaitAnalysisTask(id, Some(points)) == Ok(ZeroCrossingAnalysis(id, 0.0, 0.0, 0.0, 0.0, [], []))
  {
    var table := SortByTimestamp(points);
    var n := Norms(table);
    forall i | 0 <= i < |n| ensures n[i] == c {
      assert table[i] in multiset(points);
    }
    var d := DcBlock(n);
    DcBlockConstant(n, c);
    var y := Column(table);
    SmoothedGaps(n);
    forall i | 0 <= i < |y| && y[i].Some? ensures y[i].value == 0.0 {
      LowPassConstant(d, i, 0.0);
    }
    FlatColumnNoCrossings(y);
    AnalyzeGaitFails(id, table);
    QuietTable(id, table);
  }
}
