/**
 * `Atr`: the average true range, the simple moving average (lazy, by default
 * over 14 candles) of the true ranges of a timeline of candles. Its own `map`
 * is the identity and its updates are the average's updates passed on.
 */
module Atr {
  import opened Outcomes
  import opened Timeline
  import opened Num
  import opened Sum
  import opened Sma
  import opened CandleData
  import opened TrueRange

  /** The length the one-argument constructor uses. */
  const DefaultLength := 14

  /**
   * The two constructors: a lazy `Sma` over the true ranges, which checks
   * `length > 0`. `None` is the one-argument constructor, which asks for
   * `DefaultLength`.
   */
  function NewAtr(length: Option<int>): (r: Result<SumConfig>)
    ensures length.None? ==> r == Ok(SumConfig(DefaultLength, false))
    ensures length.Some? ==> (r.Ok? <==> length.value > 0)
    ensures length.Some? && r.Ok? ==> r.value == SumConfig(length.value, false)
    ensures r.Err? ==> r.error == IllegalArgument
  {
    NewSma(if length.None? then DefaultLength else length.value, false)
  }

  /** The true ranges keep the candles' instants, so their ranks and their order. */
  lemma RangesRanks(s: Candles, k: Instant)
    requires Sorted(s)
    ensures Sorted(Ranges(s)) && IndexOf(Ranges(s), k) == IndexOf(s, k)
  {
    SameInstantsIndexOf(s, Ranges(s), k);
  }

  /**
   * What the view answers at `k`: the average of the true ranges of the
   * (at most `length`) candles ending at `k`; `null` where there is no candle.
   */
  function AtrAt(s: Candles, c: SumConfig, k: Instant): (r: Option<Dbl>)
    requires Sorted(s) && c.length > 0
    ensures r.Some? <==> Contains(s, k)
    ensures r.Some? ==> r.value == Mean(Ranges(s), c, IndexOf(s, k))
  {
    RangesRanks(s, k);
    SmaAt(Ranges(s), c, k)
  }

  /**
   * `onBaseUpdate`: nothing without a listener; otherwise the average's new
   * value, unchanged by `map`, at the same instant.
   */
  function OnBaseUpdate(hot: bool, k: Instant, newBaseValue: Option<Dbl>): (events: seq<Event<Dbl>>)
    ensures !hot <==> events == []
    ensures hot ==> |events| == 1 && events[0].t == k && events[0].value == newBaseValue
  {
    if !hot then [] else [Event(k, newBaseValue)]
  }

  /** What the average reports after an update reaches the listener as the ATR the view then answers. */
  lemma NotifiesAtr(s: Candles, c: SumConfig, k: Instant)
    requires Sorted(s) && c.length > 0
    ensures Sorted(Ranges(s)) && OnBaseUpdate(true, k, SmaAt(Ranges(s), c, k)) == [Event(k, AtrAt(s, c, k))]
  {
    RangesRanks(s, k);
  }

  /** A candle whose prices are numbers, ordered, and within `[lo, hi]`. */
  predicate Within(c: Candle, lo: real, hi: real)
  {
    WellFormed(c) && lo <= c.low.x && c.high.x <= hi
  }

  /** One true range of candles within `[lo, hi]` lies between 0 and `hi - lo`. */
  lemma TrueRangeBounds(s: Candles, j: nat, lo: real, hi: real)
    requires j < |s| && Within(s[j].v, lo, hi)
    requires j > 0 ==> Within(s[j - 1].v, lo, hi)
    ensures TrRef(s, j).Real? && 0.0 <= TrRef(s, j).x <= hi - lo
  {
    if j > 0 {
      TrueRangeSpan(s[j - 1].v, s[j].v);
    }
  }

  /**
   * Once the window is complete, the ATR of candles that (together with the
   * one before the window) stay within `[lo, hi]` lies between 0 and `hi - lo`.
   */
  lemma AtrBounds(s: Candles, c: SumConfig, i: nat, lo: real, hi: real)
    requires i < |s| && c.length > 0 && (c.eager || i + 1 >= c.length)
    requires forall j | 0 <= j <= i && Start(c, i) <= j + 1 :: Within(s[j].v, lo, hi)
    ensures Mean(Ranges(s), c, i).Real? && 0.0 <= Mean(Ranges(s), c, i).x <= hi - lo
  {
    var r := Ranges(s);
    forall j | Start(c, i) <= j <= i
      ensures r[j].v.Real? && 0.0 <= r[j].v.x <= hi - lo
    {
      TrueRangeBounds(s, j, lo, hi);
    }
    MeanBounds(r, c, i, 0.0, hi - lo);
  }
}
