/**
 * `BollingerBands`: a simple moving average of the closing prices with an
 * upper and a lower band `deviations` standard deviations away from it.
 *
 * The view is a mapped timeline over a `StandardDeviation` of the closes; it
 * also keeps a lazy `Sma` of the closes, which it reads in `map`. The closes
 * are given as a series; the deviation at an instant is the value the base
 * delivers to `map`.
 */
module Bollinger {
  import opened Outcomes
  import opened Timeline
  import opened Num
  import opened Sum
  import opened Sma
  import opened StandardDeviation

  datatype BollingerConfig = BollingerConfig(length: nat, deviations: nat)

  /** The record `Values(upper, lower, ma)`. */
  datatype Bands = Bands(upper: Dbl, lower: Dbl, ma: Dbl)

  /** The one-argument constructor's defaults. */
  const DefaultLength := 20
  const DefaultDeviations := 2

  /**
   * The constructor: the `StandardDeviation` built first rejects a
   * non-positive length; then `length > 0` and `deviations > 0` are checked.
   */
  function NewBollinger(length: int, deviations: int): (r: Result<BollingerConfig>)
    ensures r.Ok? <==> length > 0 && deviations > 0
    ensures r.Ok? ==> r.value == BollingerConfig(length, deviations)
    ensures r.Err? ==> r.error == IllegalArgument
  {
    var base := NewDeviation(length);
    if base.Err? then Err(base.error)
    else if length <= 0 || deviations <= 0 then Err(IllegalArgument)
    else Ok(BollingerConfig(length, deviations))
  }

  /** The lazy `Sma` of the closes the view keeps. */
  function Average(c: BollingerConfig): SumConfig
  {
    SumConfig(c.length, false)
  }

  /**
   * The bands `map` builds from the average it read: NaN throughout when the
   * average answered `null`, otherwise `width` above and below it.
   */
  function BandsFrom(average: Option<Dbl>, width: Dbl): (b: Bands)
    ensures average.None? ==> b == Bands(NaN, NaN, NaN)
    ensures average.Some? ==> b.ma == average.value && b.upper == Add(b.ma, width) && b.lower == Sub(b.ma, width)
  {
    if average.None? then Bands(NaN, NaN, NaN) else Around(average.value, width)
  }

  /** `map` with the band width it evidently means: `deviations` times the deviation `v`. */
  function Map(closes: Series, c: BollingerConfig, k: Instant, v: Option<Dbl>): (r: Option<Bands>)
    requires Sorted(closes) && c.length > 0
    ensures r.None? <==> v.None?
    ensures r.Some? && !Contains(closes, k) ==> r.value == Bands(NaN, NaN, NaN)
    ensures r.Some? && Contains(closes, k) ==> r.value.ma == SmaAt(closes, Average(c), k).value
  {
    if v.None? then None
    else Some(BandsFrom(SmaAt(closes, Average(c), k), Scale(c.deviations as real, v.value)))
  }

  /** `map` as written: the width is `2 * v` whatever `deviations` is. */
  function MapAsWritten(closes: Series, c: BollingerConfig, k: Instant, v: Option<Dbl>): (r: Option<Bands>)
    requires Sorted(closes) && c.length > 0
    ensures r.None? <==> v.None?
    ensures c.deviations == 2 ==> r == Map(closes, c, k, v)
  {
    if v.None? then None
    else Some(BandsFrom(SmaAt(closes, Average(c), k), Scale(2.0, v.value)))
  }

  /**
   * Beyond `deviations = 2` the two agree only where the width vanishes: with
   * a number for the average and a non-zero deviation, any other `deviations`
   * gives different bands.
   */
  lemma AsWrittenDiffers(closes: Series, c: BollingerConfig, k: Instant, m: real, d: real)
    requires Sorted(closes) && c.length > 0 && c.deviations != 2 && d != 0.0
    requires SmaAt(closes, Average(c), k) == Some(Real(m))
    ensures MapAsWritten(closes, c, k, Some(Real(d))) != Map(closes, c, k, Some(Real(d)))
  {
    BothAround(closes, c, k, m, d);
    WidthsDiffer(m, c.deviations as real, d);
  }

  lemma WidthsDiffer(m: real, n: real, d: real)
    requires n != 2.0 && d != 0.0
    ensures Around(Real(m), Scale(n, Real(d))) != Around(Real(m), Scale(2.0, Real(d)))
  {
    ScalesDiffer(n, d);
    assert Scale(n, Real(d)) != Scale(2.0, Real(d));
  }

  /** With a numeric average, both versions of `map` put bands around it, `deviations` and 2 deviations wide. */
  lemma BothAround(closes: Series, c: BollingerConfig, k: Instant, m: real, d: real)
    requires Sorted(closes) && c.length > 0
    requires SmaAt(closes, Average(c), k) == Some(Real(m))
    ensures Map(closes, c, k, Some(Real(d))) == Some(Around(Real(m), Scale(c.deviations as real, Real(d))))
    ensures MapAsWritten(closes, c, k, Some(Real(d))) == Some(Around(Real(m), Scale(2.0, Real(d))))
  {
  }

  lemma ScalesDiffer(n: real, d: real)
    requires n != 2.0 && d != 0.0
    ensures n * d != 2.0 * d
  {
  }

  /** A single close of 10 with a deviation of 1 and `deviations = 3`: the upper band is 12, not 13. */
  lemma IgnoresDeviations()
    ensures var closes := [Stamped(0, Real(10.0))];
      var c := BollingerConfig(1, 3);
      && MapAsWritten(closes, c, 0, Some(Real(1.0))) == Some(Bands(Real(12.0), Real(8.0), Real(10.0)))
      && Map(closes, c, 0, Some(Real(1.0))) == Some(Bands(Real(13.0), Real(7.0), Real(10.0)))
  {
    var closes := [Stamped(0, Real(10.0))];
    var c := BollingerConfig(1, 3);
    IndexOfMember(closes, 0);
    assert Window(closes, Average(c), 0) == [Real(10.0)];
    SumOfSingle(Real(10.0));
  }

  /** Bands `width` above and below `ma`. */
  function Around(ma: Dbl, width: Dbl): Bands
  {
    Bands(Add(ma, width), Sub(ma, width), ma)
  }

  /**
   * The bands straddle the average: with a number `m` for the average and a
   * deviation `d >= 0`, the upper band is `deviations * d` above the middle
   * and the lower band as far below it.
   */
  lemma BandsAround(closes: Series, c: BollingerConfig, k: Instant, m: real, d: real)
    requires Sorted(closes) && c.length > 0 && d >= 0.0
    requires SmaAt(closes, Average(c), k) == Some(Real(m))
    ensures var b := Map(closes, c, k, Some(Real(d))).value;
      && b.upper.Real? && b.lower.Real? && b.ma == Real(m)
      && b.upper.x - m == (c.deviations as real) * d == m - b.lower.x
      && b.lower.x <= m <= b.upper.x
  {
    assert Map(closes, c, k, Some(Real(d))) == Some(Around(Real(m), Scale(c.deviations as real, Real(d))));
    AroundWidth(m, c.deviations as real, d);
  }

  lemma AroundWidth(m: real, n: real, d: real)
    requires n >= 0.0 && d >= 0.0
    ensures var b := Around(Real(m), Scale(n, Real(d)));
      && b.upper.Real? && b.lower.Real? && b.ma.Real?
      && b.upper.x - b.ma.x == n * d == b.ma.x - b.lower.x
      && b.lower.x <= b.ma.x <= b.upper.x
  {
    var p := n * d;
    NonNegative(n, d);
    assert Around(Real(m), Scale(n, Real(d))) == Bands(Real(m + p), Real(m - p), Real(m));
  }

  lemma NonNegative(a: real, b: real)
    requires a >= 0.0 && b >= 0.0
    ensures a * b >= 0.0
  {
  }

  /**
   * The middle band is the average of the last `length` closes, so it lies
   * between the least and the greatest of them.
   */
  lemma MiddleBandBounds(closes: Series, c: BollingerConfig, k: Instant, v: Dbl, lo: real, hi: real)
    requires Sorted(closes) && c.length > 0 && Contains(closes, k)
    requires IndexOf(closes, k) + 1 >= c.length
    requires forall j | IndexOf(closes, k) + 1 - c.length <= j <= IndexOf(closes, k) ::
      closes[j].v.Real? && lo <= closes[j].v.x <= hi
    ensures var b := Map(closes, c, k, Some(v)).value;
      b.ma.Real? && lo <= b.ma.x <= hi
  {
    MeanBounds(closes, Average(c), IndexOf(closes, k), lo, hi);
  }

  /**
   * `onBaseUpdate`: nothing without a listener; otherwise the new deviation,
   * mapped as written, at the same instant.
   *
   * The view's `StandardDeviation` and its own `Sma` hang on two different
   * mappers of the candles, and the mapper the deviation uses registers
   * first; the view does not listen to its `Sma`. So `map` reads the average
   * while that `Sma`'s `Sum` still holds `cache`, its cache from before the
   * update, and an instant cached there keeps its old middle band.
   */
  function OnBaseUpdate(closes: Series, c: BollingerConfig, cache: Cache, hot: bool, k: Instant, newValue: Option<Dbl>): (events: seq<Event<Bands>>)
    requires Sorted(closes) && c.length > 0
    ensures !hot <==> events == []
    ensures hot ==> |events| == 1 && events[0].t == k && (events[0].value.None? <==> newValue.None?)
    ensures hot && newValue.Some? && !Contains(closes, k) ==> events[0].value == Some(Bands(NaN, NaN, NaN))
    ensures hot && newValue.Some? && Contains(closes, k) && k in cache ==>
      events[0].value == Some(Around(Div(cache[k], c.length), Scale(2.0, newValue.value)))
  {
    if !hot then []
    else if newValue.None? then [Event(k, None)]
    else [Event(k, Some(BandsFrom(ThroughCache(closes, Average(c), cache, k).value, Scale(2.0, newValue.value))))]
  }

  /**
   * With the average's cache up to date, an update signals exactly what the
   * view (as written) holds for the new deviation.
   */
  lemma CurrentAverageSignalsView(closes: Series, c: BollingerConfig, cache: Cache, hot: bool, k: Instant, v: Option<Dbl>)
    requires Sorted(closes) && c.length > 0 && CacheValid(closes, Average(c), cache)
    ensures OnBaseUpdate(closes, c, cache, hot, k, v) == if hot then [Event(k, MapAsWritten(closes, c, k, v))] else []
  {
    ThroughValidCache(closes, Average(c), cache, k);
  }

  /**
   * Example: length 1 and one candle at 0 closing at 10, read once (its
   * average 10 is cached), then replaced by a close of 20. Whatever deviation
   * reaches the view, the event's middle band is the old 10, though the view
   * now holds 20 there.
   */
  lemma StaleMiddleBand(d: Dbl)
    ensures var before := [Stamped(0, Real(10.0))];
      var after := [Stamped(0, Real(20.0))];
      var c := BollingerConfig(1, 2);
      var cache := map[0 := Real(10.0)];
      && CacheValid(before, Average(c), cache)
      && OnBaseUpdate(after, c, cache, true, 0, Some(d))[0].value.value.ma == Real(10.0)
      && MapAsWritten(after, c, 0, Some(d)).value.ma == Real(20.0)
  {
    var before := [Stamped(0, Real(10.0))];
    var after := [Stamped(0, Real(20.0))];
    var c := BollingerConfig(1, 2);
    IndexOfMember(before, 0);
    IndexOfMember(after, 0);
    assert Window(before, Average(c), 0) == [Real(10.0)];
    assert Window(after, Average(c), 0) == [Real(20.0)];
    SumOfSingle(Real(10.0));
    SumOfSingle(Real(20.0));
  }

  /**
   * `onSmaUpdate`, the listener the view evidently needs on its own `Sma`
   * (as `StandardDeviation` and `Macd` have on theirs): nothing without a
   * listener, a `null` average passed on, otherwise the bands around the
   * average just signalled, for the deviation `v` the view's base holds.
   */
  function OnSmaUpdateFixed(c: BollingerConfig, hot: bool, k: Instant, newAverage: Option<Dbl>, v: Dbl): (events: seq<Event<Bands>>)
    ensures !hot <==> events == []
    ensures hot ==> |events| == 1 && events[0].t == k && (events[0].value.None? <==> newAverage.None?)
    ensures hot && newAverage.Some? ==> events[0].value.value.ma == newAverage.value
  {
    if !hot then []
    else if newAverage.None? then [Event(k, None)]
    else [Event(k, Some(BandsFrom(newAverage, Scale(c.deviations as real, v))))]
  }

  /**
   * What the `Sma` signals once its `Sum` is up to date (its value at `k`)
   * reaches the listener as the bands the view holds at `k`: in the example
   * of `StaleMiddleBand` the middle band is the new 20.
   */
  lemma FixedSignalsView(closes: Series, c: BollingerConfig, k: Instant, v: Dbl)
    requires Sorted(closes) && c.length > 0 && Contains(closes, k)
    ensures OnSmaUpdateFixed(c, true, k, SmaAt(closes, Average(c), k), v) == [Event(k, Map(closes, c, k, Some(v)))]
  {
  }
}
