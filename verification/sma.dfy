/**
 * `Sma`: the simple moving average, a view of a `Sum` that divides each sum
 * by the number of values it covers.
 *
 * A lazy average (the default) divides by `length` and so is NaN until
 * `length` values are there, as the lazy sum is; an eager one divides by the
 * number of values the window holds, `min(length, rank + 1)`.
 */
module Sma {
  import opened Outcomes
  import opened Timeline
  import opened Num
  import opened Sum

  /**
   * The constructor: the `Sum` is built first and its own check of
   * `length > 0` fails first; `Sma` then checks the same again.
   */
  function NewSma(length: int, eager: bool): (r: Result<SumConfig>)
    ensures r.Ok? <==> length > 0
    ensures r.Ok? ==> r.value.length == length && r.value.eager == eager
    ensures r.Err? ==> r.error == IllegalArgument
  {
    var sum := NewSum(length, eager);
    if sum.Err? then Err(sum.error)
    else if length <= 0 then Err(IllegalArgument)
    else Ok(sum.value)
  }

  /**
   * `map`: `null` stays `null`; a sum is divided by `length`, or, when eager,
   * by `min(length, indexOf(instant) + 1)`. A zero divisor gives NaN here.
   */
  function Map(s: Series, c: SumConfig, k: Instant, number: Option<Dbl>): (r: Option<Dbl>)
    requires Sorted(s)
    ensures r.None? <==> number.None?
  {
    if number.None? then None
    else
      var count := if c.eager then Min(c.length, IndexOf(s, k) + 1) else c.length;
      Some(if count == 0 then NaN else Div(number.value, count))
  }

  /**
   * The reference: the average of the values in the window ending at rank `i`,
   * NaN while a lazy window is incomplete.
   */
  function Mean(s: Series, c: SumConfig, i: nat): (m: Dbl)
    requires i < |s| && c.length > 0
    ensures m.Real? <==> (c.eager || i + 1 >= c.length) && AllReal(Window(s, c, i))
  {
    var w := Window(s, c, i);
    SumOfIsReal(w);
    if !c.eager && i + 1 < c.length then NaN else Div(SumOf(w), |w|)
  }

  /** A defined average times the window's size is the window's sum. */
  lemma MeanTimesSize(s: Series, c: SumConfig, i: nat)
    requires i < |s| && c.length > 0
    ensures Mean(s, c, i).Real? ==> WindowSum(s, c, i).Real? && Mean(s, c, i).x * (|Window(s, c, i)| as real) == WindowSum(s, c, i).x
  {
    SumOfIsReal(Window(s, c, i));
    DivTimes(SumOf(Window(s, c, i)), |Window(s, c, i)|);
  }

  /**
   * What the view answers at `k` (`get(k)`'s value): the mean of the window at
   * `k`'s rank, and `null` for an instant the base does not hold.
   */
  function SmaAt(s: Series, c: SumConfig, k: Instant): (r: Option<Dbl>)
    requires Sorted(s) && c.length > 0
    ensures r.Some? <==> Contains(s, k)
    ensures r.Some? ==> r.value == Mean(s, c, IndexOf(s, k))
    ensures r.Some? && !c.eager && IndexOf(s, k) + 1 < c.length ==> r.value.NaN?
  {
    Map(s, c, k, SumAt(s, c, k))
  }

  /**
   * `get(k)`'s value read while the `Sum` below holds `cache`, and that cache
   * afterwards. `get` asks the base first, so an instant it does not hold
   * gives `null`; otherwise `getSum` answers a cached sum as it stands, or
   * calculates and stores one. The cache may belong to an earlier version of
   * `s`, as it does while a view registered before this `Sma` is notified.
   */
  function ThroughCache(s: Series, c: SumConfig, cache: Cache, k: Instant): (r: Cached)
    requires Sorted(s) && c.length > 0
    ensures r.value.Some? <==> Contains(s, k)
    ensures k in cache && Contains(s, k) ==> r == Cached(Map(s, c, k, Some(cache[k])), cache)
    ensures forall t | t in cache :: t in r.cache && r.cache[t] == cache[t]
  {
    if !Contains(s, k) then Cached(None, cache)
    else
      var g := GetSum(s, c, cache, k);
      GetSumPresent(s, c, cache, k);
      Cached(Map(s, c, k, g.value), g.cache)
  }

  /** `getSum` answers something at an instant the base holds, whatever the cache holds. */
  lemma GetSumPresent(s: Series, c: SumConfig, cache: Cache, k: Instant)
    requires Sorted(s) && c.length > 0 && Contains(s, k)
    ensures GetSum(s, c, cache, k).value.Some?
  {
  }

  /**
   * On a cache that is up to date, the read through the cache is the average
   * the view holds, and the cache stays up to date.
   */
  lemma ThroughValidCache(s: Series, c: SumConfig, cache: Cache, k: Instant)
    requires Sorted(s) && c.length > 0 && CacheValid(s, c, cache)
    ensures ThroughCache(s, c, cache, k).value == SmaAt(s, c, k)
    ensures CacheValid(s, c, ThroughCache(s, c, cache, k).cache)
  {
    GetSumCorrect(s, c, cache, k);
  }

  /** An average lies between the least and the greatest value it averages. */
  lemma MeanBounds(s: Series, c: SumConfig, i: nat, lo: real, hi: real)
    requires i < |s| && c.length > 0 && (c.eager || i + 1 >= c.length)
    requires forall j | Start(c, i) <= j <= i :: s[j].v.Real? && lo <= s[j].v.x <= hi
    ensures Mean(s, c, i).Real? && lo <= Mean(s, c, i).x <= hi
  {
    var w := Window(s, c, i);
    assert forall j | 0 <= j < |w| :: w[j].Real? && lo <= w[j].x <= hi by {
      assert forall j | 0 <= j < |w| :: w[j] == s[Start(c, i) + j].v;
    }
    AverageBounds(w, lo, hi);
  }

  /**
   * `onBaseUpdate`: nothing without a listener (`hot` is `hasListeners()`);
   * otherwise the sum the `Sum` reports, mapped, at the same instant.
   */
  function OnBaseUpdate(s: Series, c: SumConfig, hot: bool, k: Instant, newValue: Option<Dbl>): (events: seq<Event<Dbl>>)
    requires Sorted(s)
    ensures !hot <==> events == []
    ensures hot ==> |events| == 1 && events[0].t == k && (events[0].value.None? <==> newValue.None?)
  {
    if !hot then [] else [Event(k, Map(s, c, k, newValue))]
  }

  /**
   * Each sum the `Sum` signals after an update reaches the listener as the
   * average the view now answers at that instant.
   */
  lemma NotifiesMean(s: Series, c: SumConfig, k: Instant)
    requires Sorted(s) && c.length > 0
    ensures OnBaseUpdate(s, c, true, k, SumAt(s, c, k)) == [Event(k, SmaAt(s, c, k))]
  {
  }
}
