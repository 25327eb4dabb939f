/**
 * `TypicalPrice`: a view of a timeline of candles giving each candle's
 * typical price, the mean of its high, its low and its close.
 */
module TypicalPrice {
  import opened Outcomes
  import opened Timeline
  import opened Num
  import opened CandleData
  import opened Mapped

  /** The typical price of one candle; NaN when any of the three prices is. */
  function Typical(c: Candle): (r: Dbl)
    ensures r.Real? <==> c.high.Real? && c.low.Real? && c.close.Real?
    ensures r.Real? ==> 3.0 * r.x == c.high.x + c.low.x + c.close.x
  {
    Div(Add(Add(c.high, c.low), c.close), 3)
  }

  /** `map`: `null` stays `null`, a candle becomes its typical price. */
  function Map(k: Instant, candle: Option<Candle>): (r: Option<Dbl>)
    ensures r.None? <==> candle.None?
    ensures r.Some? ==> (r.value.Real? <==> candle.value.high.Real? && candle.value.low.Real? && candle.value.close.Real?)
  {
    if candle.None? then None else Some(Typical(candle.value))
  }

  /** The typical price of a candle the constructor accepts lies between its low and its high. */
  lemma TypicalWithin(c: Candle)
    requires WellFormed(c)
    ensures Typical(c).Real? && c.low.x <= Typical(c).x <= c.high.x
  {
  }

  /** A candle whose high, low and close agree has that price as its typical price. */
  lemma TypicalOfFlat(c: Candle, x: real)
    requires c.high == c.low == c.close == Real(x)
    ensures Typical(c) == Real(x)
  {
  }

  /** The view's map, as a function of an element of the base. */
  function Price(k: Instant, c: Candle): Dbl
  {
    Typical(c)
  }

  /** `onBaseUpdate`: nothing without a listener; otherwise the mapped new value at the same instant. */
  function OnBaseUpdate(hot: bool, k: Instant, newBaseValue: Option<Candle>): (events: seq<Event<Dbl>>)
    ensures !hot <==> events == []
    ensures hot ==> |events| == 1 && events[0].t == k && (events[0].value.None? <==> newBaseValue.None?)
  {
    if !hot then [] else [Event(k, Map(k, newBaseValue))]
  }

  /** After `put(k, v)` on the base, the listener hears the typical price the view then answers at `k`. */
  lemma PutNotifiesView(a: seq<Stamped<Candle>>, k: Instant, v: Candle)
    requires Sorted(a)
    ensures var g := MappedGet(Price, Insert(a, k, v), k);
      g == Some(Stamped(k, Typical(v))) && OnBaseUpdate(true, k, Some(v)) == [Event(k, Some(g.value.v))]
  {
    InsertLookups(a, k, v, k);
    MapperNotifiesView(Price, Insert(a, k, v), k, Some(v));
  }
}
