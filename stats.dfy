/** Sums, means and population variances of real series (numpy's mean and var), and int() of a float. */
module Stats {
  /** int(r): truncation toward zero. */
  function Trunc(r: real): (i: int)
    ensures r >= 0.0 ==> i >= 0 && i as real <= r < i as real + 1.0
    ensures r < 0.0 ==> i <= 0 && i as real - 1.0 < r <= i as real
  {
    if r >= 0.0 then r.Floor else -((-r).Floor)
  }

  function Sum(s: seq<real>): real
  {
    if s == [] then 0.0 else s[0] + Sum(s[1..])
  }

  /** Arithmetic mean; only defined for a non-empty series. */
  function Mean(s: seq<real>): real
    requires |s| > 0
  {
    Sum(s) / |s| as real
  }

  function SquaredDeviations(s: seq<real>, m: real): seq<real>
  {
    seq(|s|, i requires 0 <= i < |s| => (s[i] - m) * (s[i] - m))
  }

  /** Population variance (division by N, as numpy's std does before its square root). */
  function Variance(s: seq<real>): real
    requires |s| > 0
  {
    Mean(SquaredDeviations(s, Mean(s)))
  }

  lemma {:induction false} SumAppend(a: seq<real>, b: seq<real>)
    ensures Sum(a + b) == Sum(a) + Sum(b)
  {
    if a != [] {
      assert (a + b)[1..] == a[1..] + b;
      SumAppend(a[1..], b);
    } else {
      assert a + b == b;
    }
  }

  lemma {:induction false} SumNonNegative(s: seq<real>)
    requires forall i :: 0 <= i < |s| ==> s[i] >= 0.0
    ensures Sum(s) >= 0.0
  {
    if s != [] {
      SumNonNegative(s[1..]);
    }
  }

  /** Every element at most (at least) c bounds the sum by |s| * c. */
  lemma {:induction false} SumBounds(s: seq<real>, lo: real, hi: real)
    requires forall i :: 0 <= i < |s| ==> lo <= s[i] <= hi
    ensures |s| as real * lo <= Sum(s) <= |s| as real * hi
  {
    if s != [] {
      SumBounds(s[1..], lo, hi);
    }
  }

  /** The sum of a constant series. */
  lemma {:induction false} SumConstant(s: seq<real>, c: real)
    requires forall i :: 0 <= i < |s| ==> s[i] == c
    ensures Sum(s) == |s| as real * c
  {
    if s != [] {
      SumConstant(s[1..], c);
    }
  }

  /** Shifting every element by c shifts the sum by |s| * c. */
  lemma {:induction false} SumShift(s: seq<real>, t: seq<real>, c: real)
    requires |s| == |t|
    requires forall i :: 0 <= i < |s| ==> t[i] == s[i] + c
    ensures Sum(t) == Sum(s) + |s| as real * c
  {
    if s != [] {
      SumShift(s[1..], t[1..], c);
    }
  }

  lemma MeanBounds(s: seq<real>, lo: real, hi: real)
    requires |s| > 0
    requires forall i :: 0 <= i < |s| ==> lo <= s[i] <= hi
    ensures lo <= Mean(s) <= hi
  {
    SumBounds(s, lo, hi);
    var n := |s| as real;
    assert n * lo <= Sum(s) <= n * hi;
    assert Mean(s) == Sum(s) / n;
    assert lo == (n * lo) / n;
    assert hi == (n * hi) / n;
  }

  /** A series with a positive sum has a positive mean. */
  lemma MeanPositive(s: seq<real>)
    requires |s| > 0 && Sum(s) > 0.0
    ensures Mean(s) > 0.0
  {
    var n := |s| as real;
    assert Mean(s) == Sum(s) / n;
  }

  lemma MeanConstant(s: seq<real>, c: real)
    requires |s| > 0
    requires forall i :: 0 <= i < |s| ==> s[i] == c
    ensures Mean(s) == c
  {
    SumConstant(s, c);
  }

  /** A mean moves with a constant offset. */
  lemma MeanShift(s: seq<real>, t: seq<real>, c: real)
    requires |s| == |t| > 0
    requires forall i :: 0 <= i < |s| ==> t[i] == s[i] + c
    ensures Mean(t) == Mean(s) + c
  {
    SumShift(s, t, c);
    var n := |s| as real;
    assert Sum(t) / n == Sum(s) / n + (n * c) / n;
  }

  /** A population variance is never negative. */
  lemma VarianceNonNegative(s: seq<real>)
    requires |s| > 0
    ensures Variance(s) >= 0.0
  {
    var d := SquaredDeviations(s, Mean(s));
    assert forall i :: 0 <= i < |d| ==> d[i] >= 0.0 by {
      forall i | 0 <= i < |d| ensures d[i] >= 0.0 {
        var e := s[i] - Mean(s);
        assert d[i] == e * e;
      }
    }
    SumNonNegative(d);
  }

  /** A constant series has its value as mean and no spread. */
  lemma VarianceConstant(s: seq<real>, c: real)
    requires |s| > 0
    requires forall i :: 0 <= i < |s| ==> s[i] == c
    ensures Mean(s) == c && Variance(s) == 0.0
  {
    MeanConstant(s, c);
    var d := SquaredDeviations(s, Mean(s));
    MeanConstant(d, 0.0);
  }
}
