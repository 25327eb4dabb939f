/**
 * `InterDayTimeAxisPosConverter`: converts between instants and x-axis
 * indexes over a timeline of candles. Inside the timeline an index is a rank;
 * before the first and after the last candle, and on an empty timeline, one
 * index step is one whole day.
 *
 * Only the candles' instants matter, so the timeline is any sorted sequence.
 */
module Converter {
  import opened Outcomes
  import opened Timeline

  /** One day, in the nanoseconds an `Instant` counts. */
  const Day: nat := 86_400_000_000_000

  /** `ChronoUnit.DAYS.between(a, b)`: whole days from `a` to `b`, truncated toward zero. */
  function DaysBetween(a: Instant, b: Instant): (n: int)
    ensures a <= b ==> 0 <= n && n * Day <= b - a < (n + 1) * Day
    ensures b <= a ==> n <= 0 && (n - 1) * Day < b - a <= n * Day
  {
    if a <= b then (b - a) / Day else -((a - b) / Day)
  }

  /** `plus(n, DAYS)`: whole days after an instant (before it for a negative `n`). */
  function PlusDays(a: Instant, n: int): Instant
  {
    a + n * Day
  }

  /** `minus(n, DAYS)`: whole days before an instant. */
  function MinusDays(a: Instant, n: int): Instant
  {
    a - n * Day
  }

  /** `toIndex`: the rank at or before the instant inside the timeline, counted in days outside it. */
  function ToIndex<V>(s: seq<Stamped<V>>, i: Instant): (r: int)
    requires Sorted(s)
    ensures |s| == 0 && 0 <= i ==> 0 <= r && r * Day <= i < (r + 1) * Day
    ensures |s| == 0 && i <= 0 ==> r <= 0 && (r - 1) * Day < i <= r * Day
    ensures |s| > 0 && s[0].t <= i <= s[|s| - 1].t ==> 0 <= r < |s| && s[r].t <= i && (r + 1 < |s| ==> i < s[r + 1].t)
    ensures |s| > 0 && i < s[0].t ==> r <= 0 && (r - 1) * Day < i - s[0].t <= r * Day
    ensures |s| > 0 && s[|s| - 1].t < i ==>
      var d := r - (|s| - 1); 0 <= d && d * Day <= i - s[|s| - 1].t < (d + 1) * Day
  {
    if |s| == 0 then DaysBetween(0, i)
    else if i < s[0].t then DaysBetween(s[0].t, i)
    else if i > s[|s| - 1].t then |s| - 1 + DaysBetween(s[|s| - 1].t, i)
    else FloorIndex(s, i)
  }

  /** `toInstant`: the instant of a rank inside the timeline, whole days before or after it outside. */
  function ToInstant<V>(s: seq<Stamped<V>>, n: int): (t: Instant)
    requires Sorted(s)
    ensures |s| == 0 ==> t == n * Day
    ensures |s| > 0 && n < 0 ==> t < s[0].t && s[0].t - t == -n * Day
    ensures 0 <= n < |s| ==> t == s[n].t
    ensures |s| > 0 && n >= |s| ==> t > s[|s| - 1].t && t - s[|s| - 1].t == (n - (|s| - 1)) * Day
  {
    if |s| == 0 then PlusDays(0, n)
    else if n < 0 then MinusDays(s[0].t, -n)
    else if n >= |s| then PlusDays(s[|s| - 1].t, n + 1 - |s|)
    else s[n].t
  }

  /** Whole days after an instant are that many days from it. */
  lemma DaysOfPlus(a: Instant, n: int)
    ensures DaysBetween(a, PlusDays(a, n)) == n
  {
    if n >= 0 {
      assert PlusDays(a, n) - a == n * Day;
    } else {
      assert a - PlusDays(a, n) == (-n) * Day;
    }
  }

  /** Every index converts to an instant that converts back to the same index. */
  lemma IndexRoundTrip<V>(s: seq<Stamped<V>>, n: int)
    requires Sorted(s)
    ensures ToIndex(s, ToInstant(s, n)) == n
  {
    if |s| == 0 {
      DaysOfPlus(0, n);
    } else if n < 0 {
      DaysOfPlus(s[0].t, n);
    } else if n >= |s| {
      DaysOfPlus(s[|s| - 1].t, n + 1 - |s|);
    } else {
      assert s[0].t <= s[n].t <= s[|s| - 1].t;
    }
  }

  /** Later indexes give later instants. */
  lemma ToInstantIncreasing<V>(s: seq<Stamped<V>>, n: int, m: int)
    requires Sorted(s) && n < m
    ensures ToInstant(s, n) < ToInstant(s, m)
  {
    if |s| > 0 {
      if n < 0 && m < 0 {
        assert ToInstant(s, m) - ToInstant(s, n) == (m - n) * Day;
      } else if n >= |s| && m >= |s| {
        assert ToInstant(s, m) - ToInstant(s, n) == (m - n) * Day;
      } else if n < 0 {
        assert s[0].t <= ToInstant(s, m);
      } else if m >= |s| {
        assert ToInstant(s, n) <= s[|s| - 1].t;
      }
    } else {
      assert ToInstant(s, m) - ToInstant(s, n) == (m - n) * Day;
    }
  }

  /** The range of a Java `long`. */
  const LongMin: int := -0x8000_0000_0000_0000
  const LongMax: int := 0x7fff_ffff_ffff_ffff

  /** `Integer.MAX_VALUE`, the bound of a timeline's `size()`. */
  const IntMax: int := 0x7fff_ffff

  predicate IsLong(x: int)
  {
    LongMin <= x <= LongMax
  }

  /** A `long` result of `x` in two's complement: the value `-i` and `i + 1 - size()` wrap to. */
  function Wrap(x: int): (w: int)
    ensures IsLong(w)
    ensures IsLong(x) ==> w == x
  {
    (x - LongMin) % 0x1_0000_0000_0000_0000 + LongMin
  }

  const NanosPerSecond: nat := 1_000_000_000
  const SecondsPerDay: nat := 86_400

  /** `Instant.MIN` and `Instant.MAX`, in seconds since the epoch. */
  const MinSecond: int := -31_557_014_167_219_200
  const MaxSecond: int := 31_556_889_864_403_199

  /** `getEpochSecond()`: the whole seconds of an instant, rounded down. */
  function Seconds(t: Instant): int
  {
    t / NanosPerSecond
  }

  /** The instants a Java `Instant` can hold. */
  predicate Representable(t: Instant)
  {
    MinSecond <= Seconds(t) <= MaxSecond
  }

  /**
   * `a.plus(n, DAYS)`: `Math.multiplyExact(n, 86400)` seconds are added with
   * `Math.addExact`, either of which may overflow, and the sum must lie in
   * `Instant`'s range, else `DateTimeException`.
   */
  function PlusDaysChecked(a: Instant, n: int): (r: Result<Instant>)
    requires Representable(a) && IsLong(n)
    ensures r.Ok? <==> Representable(PlusDays(a, n))
    ensures r.Ok? ==> r.value == PlusDays(a, n)
    ensures r.Err? ==> r.error == Arithmetic || r.error == DateTime
  {
    var secs := n * SecondsPerDay;
    SecondsPlus(a, n);
    if !IsLong(secs) then Err(Arithmetic)
    else if !IsLong(Seconds(a) + secs) then Err(Arithmetic)
    else if Seconds(a) + secs < MinSecond || Seconds(a) + secs > MaxSecond then Err(DateTime)
    else Ok(PlusDays(a, n))
  }

  /** Whole days move the seconds of an instant by whole days of seconds. */
  lemma SecondsPlus(a: Instant, n: int)
    ensures Seconds(PlusDays(a, n)) == Seconds(a) + n * SecondsPerDay
  {
    var q, r := a / NanosPerSecond, a % NanosPerSecond;
    assert a == q * NanosPerSecond + r;
    assert PlusDays(a, n) == (q + n * SecondsPerDay) * NanosPerSecond + r;
  }

  /**
   * `a.minus(n, DAYS)`: `plus(-n, DAYS)`, except for `Long.MIN_VALUE`, whose
   * negation is no `long`: then `plus(Long.MAX_VALUE, DAYS).plus(1, DAYS)`.
   */
  function MinusDaysChecked(a: Instant, n: int): (r: Result<Instant>)
    requires Representable(a) && IsLong(n)
    ensures r.Ok? <==> Representable(MinusDays(a, n))
    ensures r.Ok? ==> r.value == MinusDays(a, n)
  {
    if n == LongMin then
      var first := PlusDaysChecked(a, LongMax);
      SecondsPlus(a, LongMax);
      SecondsPlus(a, -n);
      assert first.Err?;
      first
    else
      PlusDaysChecked(a, -n)
  }

  /**
   * `toInstant` with Java's arithmetic: `-i` and `i + 1 - size()` are `long`
   * expressions, and `plus`/`minus` throw where the instant is not one a Java
   * `Instant` can hold. It succeeds exactly there, with `ToInstant`'s instant.
   */
  function ToInstantChecked<V>(s: seq<Stamped<V>>, n: int): (r: Result<Instant>)
    requires Sorted(s) && IsLong(n) && |s| <= IntMax
    requires forall j | 0 <= j < |s| :: Representable(s[j].t)
    ensures r.Ok? <==> Representable(ToInstant(s, n))
    ensures r.Ok? ==> r.value == ToInstant(s, n)
    ensures r.Err? ==> r.error == Arithmetic || r.error == DateTime
  {
    if |s| == 0 then PlusDaysChecked(0, n)
    else if n < 0 then MinusDaysChecked(s[0].t, Wrap(-n))
    else if n >= |s| then PlusDaysChecked(s[|s| - 1].t, Wrap(n + 1 - |s|))
    else Ok(s[n].t)
  }

  /**
   * Java's round trip: an index whose instant `toInstant` can build converts
   * back to itself, and `toIndex` of any instant is a `long`.
   */
  lemma CheckedRoundTrip<V>(s: seq<Stamped<V>>, n: int)
    requires Sorted(s) && IsLong(n) && |s| <= IntMax
    requires forall j | 0 <= j < |s| :: Representable(s[j].t)
    ensures ToInstantChecked(s, n).Ok? ==> ToIndex(s, ToInstantChecked(s, n).value) == n
  {
    IndexRoundTrip(s, n);
  }

  /** `toIndex` of a representable instant fits a `long`: no overflow is possible there. */
  lemma ToIndexIsLong<V>(s: seq<Stamped<V>>, i: Instant)
    requires Sorted(s) && |s| <= IntMax && Representable(i)
    requires forall j | 0 <= j < |s| :: Representable(s[j].t)
    ensures IsLong(ToIndex(s, i))
  {
    var r := ToIndex(s, i);
    InstantBounds(i);
    if |s| > 0 {
      InstantBounds(s[0].t);
      InstantBounds(s[|s| - 1].t);
    }
    if |s| > 0 && s[|s| - 1].t < i {
      var d := r - (|s| - 1);
      assert d * Day <= i - s[|s| - 1].t;
      assert d < 1_000_000_000_000;
    } else if |s| > 0 && i < s[0].t {
      assert (r - 1) * Day < i - s[0].t;
      assert r > -1_000_000_000_000;
    } else if |s| == 0 {
      assert -1_000_000_000_000 < r < 1_000_000_000_000;
    }
  }

  /** A representable instant, in nanoseconds. */
  lemma InstantBounds(t: Instant)
    requires Representable(t)
    ensures MinSecond * NanosPerSecond <= t < (MaxSecond + 1) * NanosPerSecond
  {
  }
}
