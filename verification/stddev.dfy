/**
 * `StandardDeviation`: at every instant, how far the last `length` base values
 * spread around their (lazy) simple moving average.
 *
 * The view keeps its own lazy `Sma` over the same base and listens to it. The
 * value at an instant is NaN until `length` values are there; otherwise the
 * squared distances of the window's values from the average are added up,
 * walking backwards from the instant, and divided by `length`. The final
 * square root is not modelled: `VarianceRef` is the value under the root.
 */
module StandardDeviation {
  import opened Outcomes
  import opened Timeline
  import opened Num
  import opened Sum
  import opened Sma

  /** The constructor builds a lazy `Sma`, whose own check of `length > 0` is the only one. */
  function NewDeviation(length: int): (r: Result<SumConfig>)
    ensures r.Ok? <==> length > 0
    ensures r.Ok? ==> r.value == SumConfig(length, false)
    ensures r.Err? ==> r.error == IllegalArgument
  {
    NewSma(length, false)
  }

  /** The squared distances of the values `w` from `m` (`Math.pow(x - m, 2)`). */
  function Deviations(w: seq<Dbl>, m: Dbl): (d: seq<Dbl>)
    ensures |d| == |w| && forall j | 0 <= j < |w| :: d[j] == Square(Sub(w[j], m))
  {
    seq(|w|, j requires 0 <= j < |w| => Square(Sub(w[j], m)))
  }

  /** The mean squared distance of the window ending at rank `i` from `m`. */
  function VarianceAround(s: Series, c: SumConfig, i: nat, m: Dbl): Dbl
    requires i < |s| && c.length > 0
  {
    Div(SumOf(Deviations(Window(s, c, i), m)), c.length)
  }

  /**
   * The reference: NaN while fewer than `length` values end at rank `i`,
   * otherwise the mean squared distance of the window from its average.
   */
  function VarianceRef(s: Series, c: SumConfig, i: nat): Dbl
    requires i < |s| && c.length > 0
  {
    if i + 1 < c.length then NaN else VarianceAround(s, c, i, Mean(s, c, i))
  }

  /** What the view holds at `k` (before the root): `null` for an instant the base does not hold. */
  function DeviationAt(s: Series, c: SumConfig, k: Instant): Option<Dbl>
    requires Sorted(s) && c.length > 0
  {
    if Contains(s, k) then Some(VarianceRef(s, c, IndexOf(s, k))) else None
  }

  /**
   * `map(instant, v)`: `null` stays `null`; short of `length` values the result
   * is NaN; otherwise the squared distances from the `Sma`'s value at the
   * instant are summed from the instant backwards, `length` of them.
   */
  method Map(s: Series, c: SumConfig, k: Instant, v: Option<Dbl>) returns (r: Option<Dbl>)
    requires Sorted(s) && c.length > 0 && !c.eager
    ensures r.None? <==> v.None?
    ensures v.Some? ==> r == Some(if Contains(s, k) then VarianceRef(s, c, IndexOf(s, k)) else NaN)
  {
    if v.None? {
      return None;
    }
    var index := IndexOf(s, k);
    if index + 1 < c.length {
      return Some(NaN);
    }
    var sma := SmaAt(s, c, k).value;
    var sum := SumDeviations(s, c, index, sma);
    r := Some(Div(sum, c.length));
  }

  /**
   * The loop of `map`: a list iterator opened after rank `i` walks back over
   * `length` elements, adding up their squared distances from `sma`.
   */
  method SumDeviations(s: Series, c: SumConfig, i: nat, sma: Dbl) returns (sum: Dbl)
    requires i < |s| && c.length > 0 && i + 1 >= c.length
    ensures sum == SumOf(Deviations(Window(s, c, i), sma))
  {
    ghost var w := Window(s, c, i);
    ghost var d := Deviations(w, sma);
    ghost var start := i + 1 - c.length;
    sum := Real(0.0);
    var pos := i + 1;
    var n := 0;
    while pos > 0
      invariant 0 <= n < c.length && pos == i + 1 - n
      invariant sum == SumOf(d[pos - start..])
      decreases pos
    {
      pos := pos - 1;
      DeviationStep(s, c, i, sma, pos, sum);
      sum := Add(sum, Square(Sub(s[pos].v, sma)));
      n := n + 1;
      if n == c.length {
        break;
      }
    }
    assert d[0..] == d;
  }

  /** One step of the loop of `SumDeviations`: the term at rank `pos` joins the terms after it. */
  lemma DeviationStep(s: Series, c: SumConfig, i: nat, sma: Dbl, pos: nat, sum: Dbl)
    requires i < |s| && c.length > 0 && i + 1 >= c.length && i + 1 - c.length <= pos <= i
    requires sum == SumOf(Deviations(Window(s, c, i), sma)[pos + 1 - (i + 1 - c.length)..])
    ensures Add(sum, Square(Sub(s[pos].v, sma))) == SumOf(Deviations(Window(s, c, i), sma)[pos - (i + 1 - c.length)..])
  {
    var w := Window(s, c, i);
    var start := i + 1 - c.length;
    assert w[pos - start] == s[pos].v;
    SumOfStep(Deviations(w, sma), pos - start, sum);
  }

  /** One step of a backward walk: adding the next term in front of what is summed so far. */
  lemma SumOfStep(d: seq<Dbl>, q: nat, sum: Dbl)
    requires q < |d| && sum == SumOf(d[q + 1..])
    ensures Add(sum, d[q]) == SumOf(d[q..])
  {
    SumOfCons(d[q], d[q + 1..]);
    assert [d[q]] + d[q + 1..] == d[q..];
  }

  /**
   * The variance is a number exactly when `length` values end at the rank and
   * none of them is NaN, and then it is never negative.
   */
  lemma VarianceDefined(s: Series, c: SumConfig, i: nat)
    requires i < |s| && c.length > 0 && !c.eager
    ensures VarianceRef(s, c, i).Real? <==> i + 1 >= c.length && AllReal(Window(s, c, i))
    ensures VarianceRef(s, c, i).Real? ==> VarianceRef(s, c, i).x >= 0.0
  {
    if i + 1 >= c.length {
      var w := Window(s, c, i);
      var d := Deviations(w, Mean(s, c, i));
      SumOfIsReal(d);
      if AllReal(w) {
        assert forall j | 0 <= j < |d| :: d[j].Real? && 0.0 <= d[j].x;
        SumOfAtLeast(d, 0.0);
        TimesIsProduct(|d|, 0.0);
      } else {
        assert d[0].NaN?;
      }
    }
  }

  /** Equal values do not spread: a window of one repeated value has variance zero. */
  lemma ConstantVariance(s: Series, c: SumConfig, i: nat, x: real)
    requires i < |s| && c.length > 0 && !c.eager && i + 1 >= c.length
    requires forall j | Start(c, i) <= j <= i :: s[j].v == Real(x)
    ensures VarianceRef(s, c, i) == Real(0.0)
  {
    MeanBounds(s, c, i, x, x);
    assert Mean(s, c, i) == Real(x);
    var w := Window(s, c, i);
    assert forall j | 0 <= j < |w| :: w[j] == Real(x) by {
      assert forall j | 0 <= j < |w| :: w[j] == s[Start(c, i) + j].v;
    }
    ZeroSpread(w, x, c.length, VarianceRef(s, c, i));
  }

  /** The mean squared distance `a` of a repeated value from itself is zero. */
  lemma ZeroSpread(w: seq<Dbl>, x: real, length: int, a: Dbl)
    requires forall j | 0 <= j < |w| :: w[j] == Real(x)
    requires length != 0 && a == Div(SumOf(Deviations(w, Real(x))), length)
    ensures a == Real(0.0)
  {
    var d := Deviations(w, Real(x));
    DivZero(length);
    forall j | 0 <= j < |d|
      ensures d[j] == Real(0.0)
    {
      assert w[j] == Real(x);
    }
    SumOfZeros(d);
  }

  /**
   * A value away from an edit keeps its variance: if `b` is `a` with `x` placed
   * at rank `p`, a window that ends before `p` or starts after it is the same
   * window in both.
   */
  lemma VarianceLocal(a: Series, b: Series, p: nat, d: nat, x: Stamped<Dbl>, c: SumConfig, r: nat)
    requires Spliced(a, b, p, d, x) && c.length > 0 && !c.eager && r < |b|
    requires r < p || r >= p + c.length
    ensures r < p ==> r < |a| && VarianceRef(b, c, r) == VarianceRef(a, c, r)
    ensures r >= p + c.length ==> r - d < |a| && VarianceRef(b, c, r) == VarianceRef(a, c, r - d)
  {
    if r < p {
      assert Window(b, c, r) == Window(a, c, r);
    } else {
      assert Start(c, r - d) + d == Start(c, r);
      assert Window(b, c, r) == Window(a, c, r - d);
    }
  }

  /**
   * `onBaseUpdate`: nothing without a listener; otherwise a list iterator
   * opened at the instant (which fails for an instant the base does not hold)
   * yields up to `length` elements, each signalled with its mapped value.
   *
   * The view registers on the base before its `Sma`'s `Sum` does, so `map`
   * reads the average while the `Sum` still holds `cache`, its cache from
   * before the update. An instant cached there is signalled with the spread
   * around that old average.
   */
  function OnBaseUpdate(s: Series, c: SumConfig, cache: Cache, hot: bool, k: Instant): (r: Result<seq<Event<Dbl>>>)
    requires Sorted(s) && c.length > 0 && !c.eager
    ensures r.Err? <==> hot && !Contains(s, k)
    ensures r.Err? ==> r.error == IllegalArgument
    ensures r.Ok? && !hot ==> r.value == []
    ensures r.Ok? && hot ==> |r.value| == Min(c.length, |s| - IndexOf(s, k))
    ensures r.Ok? && hot ==> forall j | 0 <= j < |r.value| ::
      var i := IndexOf(s, k) + j;
      && i < |s| && r.value[j].t == s[i].t
      && (i + 1 < c.length ==> r.value[j].value == Some(NaN))
      && (i + 1 >= c.length && s[i].t in cache ==>
            r.value[j].value == Some(VarianceAround(s, c, i, Div(cache[s[i].t], c.length))))
  {
    if !hot then Ok([])
    else if !Contains(s, k) then Err(IllegalArgument)
    else Ok(Signals(s, c, cache, IndexOf(s, k)))
  }

  /** The events a list iterator opened at rank `i` yields: up to `length` of them, each `map`ped in turn. */
  function Signals(s: Series, c: SumConfig, cache: Cache, i: nat): (events: seq<Event<Dbl>>)
    requires Sorted(s) && c.length > 0 && !c.eager && i < |s|
    ensures |events| == Min(c.length, |s| - i)
    ensures forall j | 0 <= j < |events| ::
      && i + j < |s| && events[j].t == s[i + j].t
      && (i + j + 1 < c.length ==> events[j].value == Some(NaN))
      && (i + j + 1 >= c.length && s[i + j].t in cache ==>
            events[j].value == Some(VarianceAround(s, c, i + j, Div(cache[s[i + j].t], c.length))))
  {
    var events := SignalFrom(s, MapOn(s, c), cache, i, Min(c.length, |s| - i));
    SignalsEvents(s, c, cache, i, events);
    events
  }

  /** `Signals`'s events, through `SignalFromEvents`. */
  lemma SignalsEvents(s: Series, c: SumConfig, cache: Cache, i: nat, events: seq<Event<Dbl>>)
    requires Sorted(s) && c.length > 0 && !c.eager && i < |s|
    requires events == SignalFrom(s, MapOn(s, c), cache, i, Min(c.length, |s| - i))
    ensures |events| == Min(c.length, |s| - i)
    ensures forall j | 0 <= j < |events| ::
      && i + j < |s| && events[j].t == s[i + j].t
      && (i + j + 1 < c.length ==> events[j].value == Some(NaN))
      && (i + j + 1 >= c.length && s[i + j].t in cache ==>
            events[j].value == Some(VarianceAround(s, c, i + j, Div(cache[s[i + j].t], c.length))))
  {
    SignalFromEvents(s, c, cache, i, Min(c.length, |s| - i));
  }

  /**
   * `map` at the present rank `i` while the `Sum` holds `cache`: NaN short of
   * `length` values, without reading the average; otherwise the spread around
   * the average read, which may store a sum in the cache.
   */
  function Read(s: Series, c: SumConfig, cache: Cache, i: nat): (r: Signalled)
    requires Sorted(s) && c.length > 0 && !c.eager && i < |s|
    ensures i + 1 < c.length ==> r == Signalled(NaN, cache)
    ensures i + 1 >= c.length && s[i].t in cache ==>
      r == Signalled(VarianceAround(s, c, i, Div(cache[s[i].t], c.length)), cache)
    ensures forall t | t in cache :: t in r.cache && r.cache[t] == cache[t]
  {
    if i + 1 < c.length then Signalled(NaN, cache)
    else
      IndexOfMember(s, i);
      var g := ThroughCache(s, c, cache, s[i].t);
      Signalled(VarianceAround(s, c, i, g.value.value), g.cache)
  }

  /** On an up-to-date cache a read is the view's own value, and the cache stays up to date. */
  lemma ReadValid(s: Series, c: SumConfig, cache: Cache, i: nat)
    requires Sorted(s) && c.length > 0 && !c.eager && i < |s| && CacheValid(s, c, cache)
    ensures Read(s, c, cache, i).value == VarianceRef(s, c, i)
    ensures CacheValid(s, c, Read(s, c, cache, i).cache)
  {
    IndexOfMember(s, i);
    ThroughValidCache(s, c, cache, s[i].t);
  }

  /** A mapped value and the `Sum`'s cache after computing it. */
  datatype Signalled = Signalled(value: Dbl, cache: Cache)

  /** `map` at a rank of `s` against the `Sum`'s cache, as a function of the two (NaN past the end). */
  function MapOn(s: Series, c: SumConfig): (Cache, nat) -> Signalled
    requires Sorted(s) && c.length > 0 && !c.eager
  {
    (cache: Cache, i: nat) => if i < |s| then Read(s, c, cache, i) else Signalled(NaN, cache)
  }

  /**
   * The events for the `n` ranks from `i` on, each mapped in turn by `read`;
   * a read may store a sum in the cache, which later reads see.
   */
  function SignalFrom(s: Series, read: (Cache, nat) -> Signalled, cache: Cache, i: nat, n: nat): (events: seq<Event<Dbl>>)
    requires i + n <= |s|
    ensures |events| == n
    decreases n, 1
  {
    if n == 0 then [] else SignalStep(s, read, cache, i, n)
  }

  /** `SignalFrom` for at least one rank: the event at rank `i`, then the rest on the cache its read left. */
  function SignalStep(s: Series, read: (Cache, nat) -> Signalled, cache: Cache, i: nat, n: nat): (events: seq<Event<Dbl>>)
    requires 0 < n && i + n <= |s|
    ensures |events| == n
    decreases n, 0
  {
    var h := read(cache, i);
    [Event(s[i].t, Some(h.value))] + SignalFrom(s, read, h.cache, i + 1, n - 1)
  }

  /**
   * Every event from rank `i` on is at its rank's instant and satisfies `ok`
   * there, when every read on a cache satisfying `inv` keeps `inv` and gives a
   * value satisfying `ok`.
   */
  lemma {:induction false} SignalFromAll(s: Series, read: (Cache, nat) -> Signalled, inv: Cache -> bool,
                                         ok: (nat, Option<Dbl>) -> bool, cache: Cache, i: nat, n: nat)
    requires i + n <= |s| && inv(cache)
    requires forall cc: Cache, r: nat | i <= r < i + n && inv(cc) ::
      inv(read(cc, r).cache) && ok(r, Some(read(cc, r).value))
    ensures var events := SignalFrom(s, read, cache, i, n);
      forall j | 0 <= j < n :: events[j].t == s[i + j].t && ok(i + j, events[j].value)
    decreases n
  {
    if n > 0 {
      var h := read(cache, i);
      var events := SignalFrom(s, read, cache, i, n);
      assert events == SignalStep(s, read, cache, i, n);
      SignalFromAll(s, read, inv, ok, h.cache, i + 1, n - 1);
      forall j | 0 < j < n
        ensures events[j].t == s[i + j].t && ok(i + j, events[j].value)
      {
        assert (i + 1) + (j - 1) == i + j;
        assert events[j] == SignalFrom(s, read, h.cache, i + 1, n - 1)[j - 1];
      }
    }
  }

  /** The caches that hold every entry of `cache`, unchanged. */
  ghost function Keeps(cache: Cache): Cache -> bool
  {
    (cc: Cache) => forall t | t in cache :: t in cc && cc[t] == cache[t]
  }

  /**
   * What `map` at rank `r` gives while the `Sum` holds `cache` or more: NaN
   * short of `length` values, and the spread around a cached average.
   */
  ghost function StaleValue(s: Series, c: SumConfig, cache: Cache): (nat, Option<Dbl>) -> bool
    requires c.length > 0
  {
    (r: nat, v: Option<Dbl>) => r < |s| ==>
      && (r + 1 < c.length ==> v == Some(NaN))
      && (r + 1 >= c.length && s[r].t in cache ==> v == Some(VarianceAround(s, c, r, Div(cache[s[r].t], c.length))))
  }

  /** A read keeps the entries of `cache` and gives a `StaleValue`. */
  lemma ReadsStale(s: Series, c: SumConfig, cache: Cache)
    requires Sorted(s) && c.length > 0 && !c.eager
    ensures forall cc: Cache, r: nat | Keeps(cache)(cc) ::
      Keeps(cache)(MapOn(s, c)(cc, r).cache) && StaleValue(s, c, cache)(r, Some(MapOn(s, c)(cc, r).value))
  {
    forall cc: Cache, r: nat | Keeps(cache)(cc)
      ensures Keeps(cache)(MapOn(s, c)(cc, r).cache) && StaleValue(s, c, cache)(r, Some(MapOn(s, c)(cc, r).value))
    {
    }
  }

  /** The caches that are up to date for `s`. */
  ghost function UpToDate(s: Series, c: SumConfig): Cache -> bool
  {
    (cc: Cache) => CacheValid(s, c, cc)
  }

  /** What the view holds at rank `r`. */
  ghost function CurrentValue(s: Series, c: SumConfig): (nat, Option<Dbl>) -> bool
    requires Sorted(s) && c.length > 0
  {
    (r: nat, v: Option<Dbl>) => r < |s| ==> v == DeviationAt(s, c, s[r].t)
  }

  /** A read on an up-to-date cache keeps it up to date and gives what the view holds. */
  lemma ReadsCurrent(s: Series, c: SumConfig)
    requires Sorted(s) && c.length > 0 && !c.eager
    ensures forall cc: Cache, r: nat | UpToDate(s, c)(cc) ::
      UpToDate(s, c)(MapOn(s, c)(cc, r).cache) && CurrentValue(s, c)(r, Some(MapOn(s, c)(cc, r).value))
  {
    forall cc: Cache, r: nat | UpToDate(s, c)(cc)
      ensures UpToDate(s, c)(MapOn(s, c)(cc, r).cache) && CurrentValue(s, c)(r, Some(MapOn(s, c)(cc, r).value))
    {
      if r < |s| {
        ReadValid(s, c, cc, r);
        DeviationAtRank(s, c, r);
      }
    }
  }

  /**
   * Each event of `SignalFrom` is at its rank's instant; short of `length`
   * values it carries NaN, and at an instant `cache` held, the spread around
   * that cached average.
   */
  lemma SignalFromEvents(s: Series, c: SumConfig, cache: Cache, i: nat, n: nat)
    requires Sorted(s) && c.length > 0 && !c.eager && i + n <= |s|
    ensures var events := SignalFrom(s, MapOn(s, c), cache, i, n);
      && (forall j | 0 <= j < n :: events[j] == Event(s[i + j].t, events[j].value))
      && (forall j | 0 <= j < n && i + j + 1 < c.length :: events[j].value == Some(NaN))
      && (forall j | 0 <= j < n && i + j + 1 >= c.length && s[i + j].t in cache ::
            events[j].value == Some(VarianceAround(s, c, i + j, Div(cache[s[i + j].t], c.length))))
  {
    ReadsStale(s, c, cache);
    SignalFromAll(s, MapOn(s, c), Keeps(cache), StaleValue(s, c, cache), cache, i, n);
  }

  /**
   * With the `Sum`'s cache up to date (as it is for the events the `Sma`
   * causes, or for a base whose `Sum` was notified first), every event
   * carries the deviation the view holds at its instant.
   */
  lemma UpToDateSignalsView(s: Series, c: SumConfig, cache: Cache, i: nat, n: nat)
    requires Sorted(s) && c.length > 0 && !c.eager && i + n <= |s| && CacheValid(s, c, cache)
    ensures var events := SignalFrom(s, MapOn(s, c), cache, i, n);
      forall j | 0 <= j < n :: events[j].value == DeviationAt(s, c, s[i + j].t)
  {
    forall j | 0 <= j < n {
      UpToDateSignalsAt(s, c, cache, i, n, j);
    }
  }

  /** `UpToDateSignalsView` at one index `j`. */
  lemma UpToDateSignalsAt(s: Series, c: SumConfig, cache: Cache, i: nat, n: nat, j: nat)
    requires Sorted(s) && c.length > 0 && !c.eager && i + n <= |s| && CacheValid(s, c, cache) && j < n
    ensures SignalFrom(s, MapOn(s, c), cache, i, n)[j].value == DeviationAt(s, c, s[i + j].t)
  {
    SignalCurrentAt(s, c, cache, i, n, j);
    CurrentIsDeviation(s, c, i + j, SignalFrom(s, MapOn(s, c), cache, i, n)[j].value);
  }

  /** `SignalsCurrent` at one index `j`. */
  lemma SignalCurrentAt(s: Series, c: SumConfig, cache: Cache, i: nat, n: nat, j: nat)
    requires Sorted(s) && c.length > 0 && !c.eager && i + n <= |s| && CacheValid(s, c, cache) && j < n
    ensures CurrentValue(s, c)(i + j, SignalFrom(s, MapOn(s, c), cache, i, n)[j].value)
  {
    SignalsCurrent(s, c, cache, i, n);
  }

  /** A `CurrentValue` at a rank of `s` is the deviation the view holds there. */
  lemma CurrentIsDeviation(s: Series, c: SumConfig, r: nat, v: Option<Dbl>)
    requires Sorted(s) && c.length > 0 && r < |s| && CurrentValue(s, c)(r, v)
    ensures v == DeviationAt(s, c, s[r].t)
  {
  }

  /** `UpToDateSignalsView`, with what the view holds given by `CurrentValue`. */
  lemma SignalsCurrent(s: Series, c: SumConfig, cache: Cache, i: nat, n: nat)
    requires Sorted(s) && c.length > 0 && !c.eager && i + n <= |s| && CacheValid(s, c, cache)
    ensures var events := SignalFrom(s, MapOn(s, c), cache, i, n);
      forall j | 0 <= j < n :: CurrentValue(s, c)(i + j, events[j].value)
  {
    ReadsCurrent(s, c);
    SignalFromAll(s, MapOn(s, c), UpToDate(s, c), CurrentValue(s, c), cache, i, n);
  }

  /** At a rank's instant the view holds that rank's variance. */
  lemma DeviationAtRank(s: Series, c: SumConfig, i: nat)
    requires Sorted(s) && c.length > 0 && i < |s|
    ensures DeviationAt(s, c, s[i].t) == Some(VarianceRef(s, c, i))
  {
    IndexOfMember(s, i);
  }

  /**
   * Example: length 2 over (1, 1), (2, 3), whose sum at 2 was read (4), and
   * then `put(2, 5)`. The event at 2 spreads the new window around the old
   * average 2, a variance of 5, while the view holds 4 there.
   */
  lemma StaleFirstEvent()
    ensures var a := [Stamped(1, Real(1.0)), Stamped(2, Real(3.0))];
      var b := [Stamped(1, Real(1.0)), Stamped(2, Real(5.0))];
      var c := SumConfig(2, false);
      var cache := map[2 := Real(4.0)];
      && CacheValid(a, c, cache)
      && OnBaseUpdate(b, c, cache, true, 2) == Ok([Event(2, Some(Real(5.0)))])
      && DeviationAt(b, c, 2) == Some(Real(4.0))
  {
    var b := [Stamped(1, Real(1.0)), Stamped(2, Real(5.0))];
    var c := SumConfig(2, false);
    var cache := map[2 := Real(4.0)];
    StaleCacheValid();
    IndexOfMember(b, 1);
    var w := Window(b, c, 1);
    assert w == [Real(1.0), Real(5.0)];
    SpreadOfOneFive();
    assert Div(Real(4.0), 2) == Real(2.0);
    assert VarianceAround(b, c, 1, Real(2.0)) == Real(5.0);
    var r := OnBaseUpdate(b, c, cache, true, 2);
    assert r.Ok? && |r.value| == 1;
    assert r.value[0] == Event(2, Some(Real(5.0)));
    assert r.value == [Event(2, Some(Real(5.0)))];
    assert Mean(b, c, 1) == Real(3.0);
    assert VarianceAround(b, c, 1, Real(3.0)) == Real(4.0);
    DeviationAtRank(b, c, 1);
  }

  /** The cache of the example holds the right sum for the series before the put. */
  lemma StaleCacheValid()
    ensures CacheValid([Stamped(1, Real(1.0)), Stamped(2, Real(3.0))], SumConfig(2, false), map[2 := Real(4.0)])
  {
    var a := [Stamped(1, Real(1.0)), Stamped(2, Real(3.0))];
    IndexOfMember(a, 1);
    assert Window(a, SumConfig(2, false), 1) == [Real(1.0), Real(3.0)];
    SumOfSnoc([Real(1.0)], Real(3.0));
  }

  /** The window (1, 5): spread 10 / 2 around 2, spread 8 / 2 around its mean 3. */
  lemma SpreadOfOneFive()
    ensures SumOf(Deviations([Real(1.0), Real(5.0)], Real(2.0))) == Real(10.0)
    ensures SumOf(Deviations([Real(1.0), Real(5.0)], Real(3.0))) == Real(8.0)
    ensures SumOf([Real(1.0), Real(5.0)]) == Real(6.0)
  {
    SpreadOfOneFiveAround(2.0, 1.0, 9.0);
    SpreadOfOneFiveAround(3.0, 4.0, 4.0);
    SumOfSnoc([Real(1.0)], Real(5.0));
  }

  /** The squared distances of 1 and 5 from `m`, `d1` and `d5`, add up to `d1 + d5`. */
  lemma SpreadOfOneFiveAround(m: real, d1: real, d5: real)
    requires (1.0 - m) * (1.0 - m) == d1 && (5.0 - m) * (5.0 - m) == d5
    ensures SumOf(Deviations([Real(1.0), Real(5.0)], Real(m))) == Real(d1 + d5)
  {
    var d := Deviations([Real(1.0), Real(5.0)], Real(m));
    assert d[0] == Square(Real(1.0 - m)) == Real(d1);
    assert d[1] == Square(Real(5.0 - m)) == Real(d5);
    assert d == [Real(d1)] + [Real(d5)];
    SumOfSnoc([Real(d1)], Real(d5));
  }

  /**
   * After `put(k, v)` the update never fails, and every instant it does not
   * signal keeps the value it had before the put.
   */
  lemma PutSignalsChanges(a: Series, c: SumConfig, cache: Cache, k: Instant, v: Dbl)
    requires Sorted(a) && c.length > 0 && !c.eager
    ensures var b := Insert(a, k, v);
      var events := OnBaseUpdate(b, c, cache, true, k);
      && events.Ok?
      && forall r | 0 <= r < |b| && (r < IndexOf(b, k) || r >= IndexOf(b, k) + |events.value|) ::
        var q := OldRank(a, k, r);
        0 <= q < |a| && a[q].t == b[r].t && VarianceRef(a, c, q) == VarianceRef(b, c, r)
  {
    var b := Insert(a, k, v);
    PutKeepsPrefix(a, k, v);
    var p := InsertionPoint(a, k);
    MinCases(c.length, |b| - p);
    PutKeepsOthers(a, b, p, k, v, c, |OnBaseUpdate(b, c, cache, true, k).value|);
  }

  /** `PutSignalsChanges` for the ranks outside the `n` signalled from `k`'s rank `p` on. */
  lemma PutKeepsOthers(a: Series, b: Series, p: nat, k: Instant, v: Dbl, c: SumConfig, n: nat)
    requires Sorted(a) && c.length > 0 && !c.eager
    requires b == Insert(a, k, v) && p == InsertionPoint(a, k)
    requires n == c.length || p + n == |b|
    ensures forall r | 0 <= r < |b| && (r < p || r >= p + n) ::
      var q := OldRank(a, k, r);
      0 <= q < |a| && a[q].t == b[r].t && VarianceRef(a, c, q) == VarianceRef(b, c, r)
  {
    InsertRanks(a, k, v);
    VarianceLocalAll(a, b, p, Growth(a, k), Stamped(k, v), c, n);
  }

  /**
   * `VarianceLocal` at every rank an edit at rank `p` leaves out, with `n` the
   * number of ranks from `p` on that it signals: `length` of them, or all that
   * are left.
   */
  lemma VarianceLocalAll(a: Series, b: Series, p: nat, d: nat, x: Stamped<Dbl>, c: SumConfig, n: nat)
    requires Spliced(a, b, p, d, x) && c.length > 0 && !c.eager
    requires n == c.length || p + n == |b|
    ensures forall r | 0 <= r < |b| && (r < p || r >= p + n) ::
      var q := ShiftedRank(r, p, d);
      0 <= q < |a| && a[q].t == b[r].t && VarianceRef(a, c, q) == VarianceRef(b, c, r)
  {
    forall r | 0 <= r < |b| && (r < p || r >= p + n)
      ensures var q := ShiftedRank(r, p, d);
        0 <= q < |a| && a[q].t == b[r].t && VarianceRef(a, c, q) == VarianceRef(b, c, r)
    {
      VarianceLocalShift(a, b, p, d, x, c, r, ShiftedRank(r, p, d));
    }
  }

  /** `VarianceLocal` with the rank `q` the element at `r` had before the edit. */
  lemma VarianceLocalShift(a: Series, b: Series, p: nat, d: nat, x: Stamped<Dbl>, c: SumConfig, r: nat, q: int)
    requires Spliced(a, b, p, d, x) && c.length > 0 && !c.eager && r < |b|
    requires r < p || r >= p + c.length
    requires q == if r < p then r else r - d
    ensures 0 <= q < |a| && a[q].t == b[r].t && VarianceRef(a, c, q) == VarianceRef(b, c, r)
  {
    VarianceLocal(a, b, p, d, x, c, r);
  }

  /** Where an element at rank `r` after `put(k, v)` was before it (for ranks other than `k`'s). */
  function OldRank(a: Series, k: Instant, r: nat): int
  {
    ShiftedRank(r, InsertionPoint(a, k), Growth(a, k))
  }

  /** The rank before an edit at rank `p` that grew the series by `d` of what is now rank `r`. */
  function ShiftedRank(r: nat, p: nat, d: nat): int
  {
    if r < p then r else r - d
  }

  /**
   * `onSmaUpdate`: nothing without a listener; a `null` average is passed on;
   * otherwise the base's value at the instant is mapped, which dereferences
   * `get(instant)` and fails if the base does not hold the instant.
   */
  function OnSmaUpdate(s: Series, c: SumConfig, hot: bool, k: Instant, newValue: Option<Dbl>): (r: Result<seq<Event<Dbl>>>)
    requires Sorted(s) && c.length > 0
    ensures r.Err? <==> hot && newValue.Some? && !Contains(s, k)
    ensures r.Err? ==> r.error == NullPointer
    ensures r.Ok? ==> (|r.value| == 0 <==> !hot)
    ensures r.Ok? && hot ==> r.value == [Event(k, if newValue.None? then None else DeviationAt(s, c, k))]
  {
    if !hot then Ok([])
    else if newValue.None? then Ok([Event(k, None)])
    else if !Contains(s, k) then Err(NullPointer)
    else Ok([Event(k, DeviationAt(s, c, k))])
  }

  /**
   * What the average signals after an update at `k` (its value at `k`) reaches
   * the listener as the deviation the view now holds there, without failing.
   */
  lemma SmaSignalAgrees(s: Series, c: SumConfig, k: Instant)
    requires Sorted(s) && c.length > 0 && !c.eager
    ensures OnSmaUpdate(s, c, true, k, SmaAt(s, c, k)) == Ok([Event(k, DeviationAt(s, c, k))])
  {
  }
}
