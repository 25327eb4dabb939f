/**
 * `Candle` and its one implementation `DoubleCandle`: open, high, low and
 * close prices with a volume, over the period from `start` to `end`, built
 * up to `current`.
 *
 * Prices are doubles; Java's comparisons with NaN are false, so a NaN price
 * fails every check it takes part in. Instants are the timeline's instants.
 */
module CandleData {
  import opened Outcomes
  import opened Timeline
  import opened Num

  datatype Candle = Candle(open: Dbl, high: Dbl, low: Dbl, close: Dbl, volume: Dbl,
                           start: Instant, current: Instant, end: Instant)

  /** `a >= b` on doubles: false when either is NaN. */
  predicate AtLeast(a: Dbl, b: Dbl)
  {
    a.Real? && b.Real? && a.x >= b.x
  }

  /** What the constructor guarantees of every candle it builds. */
  predicate WellFormed(c: Candle)
  {
    && c.open.Real? && c.high.Real? && c.low.Real? && c.close.Real?
    && c.low.x <= c.open.x <= c.high.x && c.low.x <= c.close.x <= c.high.x
    && (c.volume.NaN? || c.volume.x >= 0.0)
    && c.start < c.end && c.start <= c.current <= c.end
  }

  /**
   * The eight-argument constructor: the high is at least the open and the
   * close, the low at most both, the volume NaN or non-negative, the end
   * after the start, and the current instant within the period.
   */
  function NewCandle(open: Dbl, high: Dbl, low: Dbl, close: Dbl, volume: Dbl,
                     start: Instant, current: Instant, end: Instant): (r: Result<Candle>)
    ensures r.Ok? <==> WellFormed(Candle(open, high, low, close, volume, start, current, end))
    ensures r.Ok? ==> r.value == Candle(open, high, low, close, volume, start, current, end)
    ensures r.Err? ==> r.error == IllegalArgument
  {
    if !(AtLeast(high, open) && AtLeast(high, close)) then Err(IllegalArgument)
    else if !(AtLeast(open, low) && AtLeast(close, low)) then Err(IllegalArgument)
    else if !(volume.NaN? || volume.x >= 0.0) then Err(IllegalArgument)
    else if !(end > start) then Err(IllegalArgument)
    else if current < start then Err(IllegalArgument)
    else if current > end then Err(IllegalArgument)
    else Ok(Candle(open, high, low, close, volume, start, current, end))
  }

  /** The seven-argument constructor: a candle that is complete, built up to its end. */
  function NewCompleteCandle(open: Dbl, high: Dbl, low: Dbl, close: Dbl, volume: Dbl,
                             start: Instant, end: Instant): (r: Result<Candle>)
    ensures r.Ok? ==> IsTerminated(r.value)
    ensures r.Ok? <==> NewCandle(open, high, low, close, volume, start, end, end).Ok?
  {
    NewCandle(open, high, low, close, volume, start, end, end)
  }

  /** `isTerminated`: the candle has been built up to its end. */
  function IsTerminated(c: Candle): bool
  {
    c.current == c.end
  }

  /** `getCurrentDuration`, in the instants' unit. */
  function CurrentDuration(c: Candle): int
  {
    c.current - c.start
  }

  /** `getTotalDuration`, in the instants' unit. */
  function TotalDuration(c: Candle): int
  {
    c.end - c.start
  }

  /**
   * A well-formed candle has a positive total duration that its current
   * duration never exceeds, and it is terminated exactly when the two agree.
   */
  lemma Durations(c: Candle)
    requires WellFormed(c)
    ensures 0 < TotalDuration(c) && 0 <= CurrentDuration(c) <= TotalDuration(c)
    ensures IsTerminated(c) <==> CurrentDuration(c) == TotalDuration(c)
  {
  }

  /** Every price of a well-formed candle lies between its low and its high. */
  lemma PriceOrder(c: Candle)
    requires WellFormed(c)
    ensures c.low.x <= c.high.x
    ensures forall p | p in [c.open, c.close] :: p.Real? && c.low.x <= p.x <= c.high.x
  {
  }
}
