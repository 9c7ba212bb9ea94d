/**
 * The watch's one-way delay estimate from one calibration exchange: half the round-trip delay.
 * timing1 and timing4 are the watch's send and receive times in milliseconds, timing2 and
 * timing3 the server's receive and send times in nanoseconds. All arithmetic is on Kotlin Long:
 * 64-bit two's complement, wrapping on overflow, with division truncating toward zero.
 */
module TimingCalibration {

  const TwoTo63: int := 0x8000_0000_0000_0000
  const TwoTo64: int := 0x1_0000_0000_0000_0000

  newtype Long = x: int | -0x8000_0000_0000_0000 <= x < 0x8000_0000_0000_0000

  /** The Long that a mathematical integer wraps to. */
  function Wrap(v: int): (r: Long)
    ensures (r as int - v) % TwoTo64 == 0
    ensures -TwoTo63 <= v < TwoTo63 ==> r as int == v
  {
    ((v + TwoTo63) % TwoTo64 - TwoTo63) as Long
  }

  /** Long subtraction and addition. */
  function Sub(a: Long, b: Long): Long { Wrap(a as int - b as int) }
  function Add(a: Long, b: Long): Long { Wrap(a as int + b as int) }

  /** Kotlin's a / b: the quotient truncated toward zero (Dafny's / on a negative a rounds down instead). */
  function Quot(a: int, b: int): int
    requires b > 0
  {
    if a >= 0 then a / b else -((-a) / b)
  }

  function Abs(a: int): nat { if a < 0 then -a else a }

  lemma DivBounds(m: int, b: int)
    requires m >= 0 && b >= 1
    ensures 0 <= m / b <= m
    ensures (m / b) * b <= m < (m / b + 1) * b
  {
    var q := m / b;
    assert q * b + m % b == m;
    assert (q + 1) * b == q * b + b;
    MulGrows(q, b);
  }

  lemma MulGrows(x: int, b: int)
    requires x >= 0 && b >= 1
    ensures x <= x * b
  {
    assert x * b == x + x * (b - 1);
  }

  /** The truncated quotient has the sign of a, and b times its size is the largest multiple of b not above |a|. */
  lemma QuotTruncates(a: int, b: int)
    requires b >= 1
    ensures Abs(Quot(a, b)) * b <= Abs(a) < (Abs(Quot(a, b)) + 1) * b
    ensures a >= 0 ==> Quot(a, b) >= 0
    ensures a <= 0 ==> Quot(a, b) <= 0
  {
    DivBounds(Abs(a), b);
  }

  /** A Long divided by a positive constant stays a Long. */
  function Div(a: Long, b: int): Long
    requires b >= 1
  {
    DivBounds(Abs(a as int), b);
    Quot(a as int, b) as Long
  }

  datatype WatchTimingCalibration = WatchTimingCalibration(timing1: Long, timing2: Long, timing3: Long, timing4: Long)

  /** The data class's default constructor: every timing 0. */
  function DefaultCalibration(): WatchTimingCalibration
  {
    WatchTimingCalibration(0, 0, 0, 0)
  }

  /** calculateAverageTimingDelay: ((t2Ms - timing1) + (timing4 - t3Ms)) / 2 on Long. */
  function AverageTimingDelay(c: WatchTimingCalibration): Long
  {
    var t2Ms := Div(c.timing2, 1_000_000);
    var t3Ms := Div(c.timing3, 1_000_000);
    Div(Add(Sub(t2Ms, c.timing1), Sub(c.timing4, t3Ms)), 2)
  }

  /** The server timings truncated from ns to ms. */
  function T2Ms(c: WatchTimingCalibration): int { Quot(c.timing2 as int, 1_000_000) }
  function T3Ms(c: WatchTimingCalibration): int { Quot(c.timing3 as int, 1_000_000) }

  /** Neither leg nor their sum leaves the Long range. */
  predicate NoOverflow(c: WatchTimingCalibration)
  {
    var up := T2Ms(c) - c.timing1 as int;
    var down := c.timing4 as int - T3Ms(c);
    -TwoTo63 <= up < TwoTo63 && -TwoTo63 <= down < TwoTo63 && -TwoTo63 <= up + down < TwoTo63
  }

  /**
   * Without overflow the result is half the round-trip delay of section 8 of RFC 5905:
   * ((T4 - T1) - (T3 - T2)) / 2, with T2 and T3 truncated to ms and the halving truncated toward zero.
   */
  lemma HalfRoundTrip(c: WatchTimingCalibration)
    requires NoOverflow(c)
    ensures AverageTimingDelay(c) as int == Quot((c.timing4 as int - c.timing1 as int) - (T3Ms(c) - T2Ms(c)), 2)
  {
    var up := T2Ms(c) - c.timing1 as int;
    var down := c.timing4 as int - T3Ms(c);
    assert Div(c.timing2, 1_000_000) as int == T2Ms(c);
    assert Div(c.timing3, 1_000_000) as int == T3Ms(c);
    assert Sub(Div(c.timing2, 1_000_000), c.timing1) as int == up;
    assert Sub(c.timing4, Div(c.timing3, 1_000_000)) as int == down;
    assert up + down == (c.timing4 as int - c.timing1 as int) - (T3Ms(c) - T2Ms(c));
  }

  /** A default-constructed calibration gives 0. */
  lemma DefaultIsZero()
    ensures AverageTimingDelay(DefaultCalibration()) == 0
  {
    assert NoOverflow(DefaultCalibration());
    HalfRoundTrip(DefaultCalibration());
  }

  /** Legs that are not negative give a delay that is not negative. */
  lemma NonNegativeLegs(c: WatchTimingCalibration)
    requires NoOverflow(c)
    requires T2Ms(c) >= c.timing1 as int && c.timing4 as int >= T3Ms(c)
    ensures AverageTimingDelay(c) >= 0
  {
    HalfRoundTrip(c);
  }

  /** Two legs of d milliseconds each give d. */
  lemma EqualLegs(c: WatchTimingCalibration, d: int)
    requires NoOverflow(c)
    requires T2Ms(c) - c.timing1 as int == d && c.timing4 as int - T3Ms(c) == d
    ensures AverageTimingDelay(c) as int == d
  {
    HalfRoundTrip(c);
  }

  /** The halving truncates toward zero: legs summing to -3 ms give -1, not -2. */
  lemma NegativeHalvingTruncates()
    ensures AverageTimingDelay(WatchTimingCalibration(3, 0, 0, 0)) == -1
  {
    var c := WatchTimingCalibration(3, 0, 0, 0);
    assert NoOverflow(c);
    HalfRoundTrip(c);
  }

  /** Two positive legs whose sum passes Long.MAX_VALUE wrap around to a negative delay. */
  lemma SumWraps()
    ensures AverageTimingDelay(WatchTimingCalibration(-0x4000_0000_0000_0000, 0, 0, 0x4000_0000_0000_0000)) == -0x4000_0000_0000_0000
  {
    var c := WatchTimingCalibration(-0x4000_0000_0000_0000, 0, 0, 0x4000_0000_0000_0000);
    assert Div(c.timing2, 1_000_000) == 0;
    assert Div(c.timing3, 1_000_000) == 0;
    assert Sub(0, c.timing1) == 0x4000_0000_0000_0000;
    assert Sub(c.timing4, 0) == 0x4000_0000_0000_0000;
    assert Add(0x4000_0000_0000_0000, 0x4000_0000_0000_0000) == -0x8000_0000_0000_0000;
  }
}
