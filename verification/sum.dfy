/**
 * `Sum`: at every instant of the base, the sum of the last `length` base values.
 *
 * A lazy sum (the default) is NaN until `length` values are available; an
 * eager one sums what there is. Sums are kept in a cache keyed by instant. A
 * missing sum is computed from a cached neighbour when `length > 5`, by
 * sliding its window one step, and otherwise by iterating over the window.
 * `onBaseUpdate` evicts every sum the update can change and re-signals them.
 *
 * The base is given by its contents: instants with each value's
 * `doubleValue()`. `SumRef` is the reference every computed sum is compared with.
 */
module Sum {
  import opened Outcomes
  import opened Timeline
  import opened Num

  /** The sums cached so far, by instant. */
  type Cache = map<Instant, Dbl>

  datatype SumConfig = SumConfig(length: nat, eager: bool)

  /** The constructor: `length > 0` is checked; `eager` is false unless given. */
  function NewSum(length: int, eager: bool): (r: Result<SumConfig>)
    ensures r.Ok? <==> length > 0
    ensures r.Ok? ==> r.value.length == length && r.value.eager == eager
    ensures r.Err? ==> r.error == IllegalArgument
  {
    if length > 0 then Ok(SumConfig(length, eager)) else Err(IllegalArgument)
  }

  function Min(a: int, b: int): (m: int)
    ensures m <= a && m <= b && (m == a || m == b)
  {
    if a <= b then a else b
  }

  /** The lesser of two is one of them. */
  lemma MinCases(a: int, b: int)
    ensures Min(a, b) == a || Min(a, b) == b
  {
  }

  /** The rank where the window ending at rank `i` begins. */
  function Start(c: SumConfig, i: nat): nat
  {
    if i + 1 >= c.length then i + 1 - c.length else 0
  }

  /** The values of the (at most `length`) elements ending at rank `i`. */
  function Window(s: Series, c: SumConfig, i: nat): (w: seq<Dbl>)
    requires i < |s|
    ensures |w| == i + 1 - Start(c, i)
    ensures forall j | 0 <= j < |w| :: w[j] == s[Start(c, i) + j].v
  {
    Values(s)[Start(c, i)..i + 1]
  }

  function WindowSum(s: Series, c: SumConfig, i: nat): Dbl
    requires i < |s|
  {
    SumOf(Window(s, c, i))
  }

  /** The sum at rank `i`: NaN while a lazy window is incomplete, otherwise the window's sum. */
  function SumRef(s: Series, c: SumConfig, i: nat): Dbl
    requires i < |s|
  {
    if !c.eager && i + 1 < c.length then NaN else WindowSum(s, c, i)
  }

  /** The sum at an instant: `null` for an instant the base does not hold. */
  function SumAt(s: Series, c: SumConfig, k: Instant): Option<Dbl>
    requires Sorted(s)
  {
    if Contains(s, k) then Some(SumRef(s, c, IndexOf(s, k))) else None
  }

  /** `calculateSumByIteration`: walk back from rank `i` for at most `length` elements. */
  method SumByIteration(s: Series, c: SumConfig, i: nat) returns (sum: Dbl)
    requires i < |s| && c.length > 0
    ensures sum == WindowSum(s, c, i)
  {
    var xs := Values(s);
    sum := Real(0.0);
    var pos := i + 1;
    var count := 0;
    while pos > 0
      invariant 0 <= pos <= i + 1 && count == i + 1 - pos && count < c.length
      invariant sum == SumOf(xs[pos..i + 1])
    {
      assert xs[pos - 1..i + 1] == [xs[pos - 1]] + xs[pos..i + 1];
      SumOfCons(xs[pos - 1], xs[pos..i + 1]);
      sum := Add(sum, xs[pos - 1]);
      pos := pos - 1;
      count := count + 1;
      if count == c.length {
        break;
      }
    }
    assert pos == Start(c, i);
  }

  /** `calculateSumBasedOnLower`: slide the previous rank's window one step forward. */
  function BasedOnLower(s: Series, c: SumConfig, i: nat, lowerSum: Dbl): Dbl
    requires 0 < i < |s|
  {
    var n := s[i].v;
    if i - c.length >= 0 then Add(Sub(lowerSum, s[i - c.length].v), n) else Add(lowerSum, n)
  }

  /** `calculateSumBasedOnHigher`: slide the next rank's window one step back. */
  function BasedOnHigher(s: Series, c: SumConfig, i: nat, higherSum: Dbl): Dbl
    requires i + 1 < |s|
  {
    var n := s[i + 1].v;
    if i - c.length + 1 >= 0 then Add(Sub(higherSum, n), s[i - c.length + 1].v) else Sub(higherSum, n)
  }

  /** Sliding forward from a NaN-free window gives the next window's sum. */
  lemma LowerShortcut(s: Series, c: SumConfig, i: nat)
    requires 0 < i < |s| && c.length > 0
    requires WindowSum(s, c, i - 1).Real?
    ensures BasedOnLower(s, c, i, WindowSum(s, c, i - 1)) == WindowSum(s, c, i)
  {
    var xs := Values(s);
    if i >= c.length {
      var m := xs[i - c.length + 1..i];
      assert Window(s, c, i - 1) == [xs[i - c.length]] + m;
      assert Window(s, c, i) == m + [xs[i]];
      SumOfCons(xs[i - c.length], m);
      SumOfSnoc(m, xs[i]);
    } else {
      assert Window(s, c, i) == Window(s, c, i - 1) + [xs[i]];
      SumOfSnoc(Window(s, c, i - 1), xs[i]);
    }
  }

  /** Sliding back from a NaN-free window gives the previous window's sum. */
  lemma HigherShortcut(s: Series, c: SumConfig, i: nat)
    requires i + 1 < |s| && c.length > 0
    requires WindowSum(s, c, i + 1).Real?
    ensures BasedOnHigher(s, c, i, WindowSum(s, c, i + 1)) == WindowSum(s, c, i)
  {
    if i - c.length + 1 >= 0 {
      HigherShortcutFull(s, c, i);
    } else {
      var xs := Values(s);
      assert Window(s, c, i + 1) == Window(s, c, i) + [xs[i + 1]];
      ShrinkBack(Window(s, c, i), xs[i + 1], WindowSum(s, c, i + 1), WindowSum(s, c, i));
    }
  }

  /** `HigherShortcut` when the window at `i` is full, so a value enters at its front. */
  lemma HigherShortcutFull(s: Series, c: SumConfig, i: nat)
    requires i + 1 < |s| && 0 < c.length <= i + 1
    requires WindowSum(s, c, i + 1).Real?
    ensures Add(Sub(WindowSum(s, c, i + 1), s[i + 1].v), s[i - c.length + 1].v) == WindowSum(s, c, i)
  {
    var xs := Values(s);
    var m := xs[i - c.length + 2..i + 1];
    assert Window(s, c, i + 1) == m + [xs[i + 1]];
    assert Window(s, c, i) == [xs[i - c.length + 1]] + m;
    SlideBack(m, xs[i + 1], xs[i - c.length + 1], WindowSum(s, c, i + 1), WindowSum(s, c, i));
  }

  /** Dropping the last value `out` of a defined sum `hi` and adding `x` in front gives the sum `lo` of the new window. */
  lemma SlideBack(m: seq<Dbl>, out: Dbl, x: Dbl, hi: Dbl, lo: Dbl)
    requires hi == SumOf(m + [out]) && hi.Real? && lo == SumOf([x] + m)
    ensures Add(Sub(hi, out), x) == lo
  {
    SumOfSnoc(m, out);
    SumOfCons(x, m);
  }

  /** Dropping the last value `out` of a defined sum `hi` gives the sum `lo` of what is left. */
  lemma ShrinkBack(w: seq<Dbl>, out: Dbl, hi: Dbl, lo: Dbl)
    requires hi == SumOf(w + [out]) && hi.Real? && lo == SumOf(w)
    ensures Sub(hi, out) == lo
  {
    SumOfSnoc(w, out);
  }

  /**
   * `calculateSum` at a present instant of rank `i`. With `guarded` false this
   * is the method as written; with `guarded` true a cached neighbour is only
   * slid when it is not NaN.
   */
  function CalculateAt(s: Series, c: SumConfig, cache: Cache, i: nat, guarded: bool): Dbl
    requires i < |s| && c.length > 0
  {
    if !c.eager && i + 1 < c.length then NaN
    else if !c.eager && i + 1 == c.length then WindowSum(s, c, i)
    else if c.length > 5 && i > 0 && Neighbour(s, i - 1, cache, guarded) then
      BasedOnLower(s, c, i, cache[s[i - 1].t])
    else if c.length > 5 && i != |s| - 1 && Neighbour(s, i + 1, cache, guarded) then
      BasedOnHigher(s, c, i, cache[s[i + 1].t])
    else WindowSum(s, c, i)
  }

  /** `calculateSum`: `null` for an instant the base does not hold. */
  function Calculate(s: Series, c: SumConfig, cache: Cache, k: Instant, guarded: bool): Option<Dbl>
    requires Sorted(s) && c.length > 0
  {
    if Get(s, k).None? then None else Some(CalculateAt(s, c, cache, IndexOf(s, k), guarded))
  }

  /** The neighbour at rank `j` has a cached sum the shortcut may use. */
  predicate Neighbour(s: Series, j: nat, cache: Cache, guarded: bool)
    requires j < |s|
  {
    s[j].t in cache && (!guarded || cache[s[j].t].Real?)
  }

  /** `calculateSum` as written: any cached neighbour is slid, even a NaN one. */
  function CalculateSumAsWritten(s: Series, c: SumConfig, cache: Cache, k: Instant): Option<Dbl>
    requires Sorted(s) && c.length > 0
  {
    Calculate(s, c, cache, k, false)
  }

  /** `calculateSum` with the NaN guard: the definition the rest of the model uses. */
  function CalculateSum(s: Series, c: SumConfig, cache: Cache, k: Instant): Option<Dbl>
    requires Sorted(s) && c.length > 0
  {
    Calculate(s, c, cache, k, true)
  }

  /** Every cached instant is in the base, and its cached sum is the sum at its rank. */
  ghost predicate CacheValid(s: Series, c: SumConfig, cache: Cache)
  {
    && (forall t | t in cache :: Contains(s, t))
    && (forall i | 0 <= i < |s| && s[i].t in cache :: cache[s[i].t] == SumRef(s, c, i))
  }

  /** The lower shortcut from a valid cache gives the sum at rank `i`. */
  lemma LowerBranchCorrect(s: Series, c: SumConfig, cache: Cache, i: nat)
    requires c.length > 0 && CacheValid(s, c, cache)
    requires 0 < i < |s| && (c.eager || i + 1 > c.length) && Neighbour(s, i - 1, cache, true)
    ensures BasedOnLower(s, c, i, cache[s[i - 1].t]) == SumRef(s, c, i)
  {
    LowerShortcut(s, c, i);
  }

  /** The higher shortcut from a valid cache gives the sum at rank `i`. */
  lemma HigherBranchCorrect(s: Series, c: SumConfig, cache: Cache, i: nat)
    requires c.length > 0 && CacheValid(s, c, cache)
    requires i + 1 < |s| && (c.eager || i + 1 > c.length) && Neighbour(s, i + 1, cache, true)
    ensures BasedOnHigher(s, c, i, cache[s[i + 1].t]) == SumRef(s, c, i)
  {
    HigherShortcut(s, c, i);
  }

  /** From a valid cache, the guarded calculation at rank `i` is the sum at rank `i`. */
  lemma CalculateAtCorrect(s: Series, c: SumConfig, cache: Cache, i: nat)
    requires i < |s| && c.length > 0 && CacheValid(s, c, cache)
    ensures CalculateAt(s, c, cache, i, true) == SumRef(s, c, i)
  {
    if !c.eager && i + 1 <= c.length {
    } else if c.length > 5 && i > 0 && Neighbour(s, i - 1, cache, true) {
      LowerBranchCorrect(s, c, cache, i);
    } else if c.length > 5 && i != |s| - 1 && Neighbour(s, i + 1, cache, true) {
      HigherBranchCorrect(s, c, cache, i);
    }
  }

  /** From a valid cache, the guarded calculation gives the sum at the instant. */
  lemma CalculateSumCorrect(s: Series, c: SumConfig, cache: Cache, k: Instant)
    requires Sorted(s) && c.length > 0 && CacheValid(s, c, cache)
    ensures CalculateSum(s, c, cache, k) == SumAt(s, c, k)
  {
    if Contains(s, k) {
      CalculateAtCorrect(s, c, cache, IndexOf(s, k));
    }
  }

  /**
   * As written, a NaN that has already left the window still poisons the sum:
   * the lazy 6-sum at rank 5 of NaN, 1, 1, 1, 1, 1, 1 is NaN and correctly
   * cached, and sliding it gives NaN at rank 6 instead of 6.
   */
  lemma NaNShortcutPoisons()
    ensures var s := PoisonSeries();
      var c := SumConfig(6, false);
      && Sorted(s) && CacheValid(s, c, map[5 := NaN])
      && CalculateSumAsWritten(s, c, map[5 := NaN], 6) == Some(NaN)
      && SumAt(s, c, 6) == Some(Real(6.0))
  {
    PoisonWindows();
    PoisonCacheValid();
    PoisonSlides();
  }

  /** The cache holding NaN at instant 5 is right: the lazy window there holds the NaN. */
  lemma PoisonCacheValid()
    ensures CacheValid(PoisonSeries(), SumConfig(6, false), map[5 := NaN])
  {
    var s := PoisonSeries();
    PoisonWindows();
    assert s[5].t == 5;
  }

  /** At instant 6 the calculation as written slides the cached NaN; the sum itself is 6. */
  lemma PoisonSlides()
    ensures Sorted(PoisonSeries())
    ensures CalculateSumAsWritten(PoisonSeries(), SumConfig(6, false), map[5 := NaN], 6) == Some(NaN)
    ensures SumAt(PoisonSeries(), SumConfig(6, false), 6) == Some(Real(6.0))
  {
    var s := PoisonSeries();
    PoisonWindows();
    IndexOfMember(s, 6);
    assert s[5].t == 5;
  }

  /** The window at rank 5 holds the NaN; the one at rank 6 is six ones. */
  lemma PoisonWindows()
    ensures WindowSum(PoisonSeries(), SumConfig(6, false), 5) == NaN
    ensures WindowSum(PoisonSeries(), SumConfig(6, false), 6) == Real(6.0)
  {
    var s := PoisonSeries();
    var c := SumConfig(6, false);
    assert !AllReal(Window(s, c, 5)) by {
      assert Window(s, c, 5)[0] == NaN;
    }
    SumOfIsReal(Window(s, c, 5));
    assert Window(s, c, 6) == seq(6, _ => Real(1.0));
    SumOfOnes(6);
  }

  /** `n` ones sum to `n`. */
  lemma {:induction false} SumOfOnes(n: nat)
    ensures SumOf(seq(n, _ => Real(1.0))) == Real(n as real)
  {
    if n > 0 {
      assert seq(n, _ => Real(1.0))[..n - 1] == seq(n - 1, _ => Real(1.0));
      SumOfOnes(n - 1);
    }
  }

  /** NaN at instant 0, then 1.0 at instants 1 to 6. */
  function PoisonSeries(): (s: Series)
    ensures |s| == 7 && forall i | 0 <= i < 7 :: s[i].t == i
  {
    [Stamped(0, NaN), Stamped(1, Real(1.0)), Stamped(2, Real(1.0)), Stamped(3, Real(1.0)),
     Stamped(4, Real(1.0)), Stamped(5, Real(1.0)), Stamped(6, Real(1.0))]
  }

  /** The corrected calculation gives the right sum on the same input. */
  lemma GuardedShortcutSums()
    ensures CalculateSum(PoisonSeries(), SumConfig(6, false), map[5 := NaN], 6) == Some(Real(6.0))
  {
    NaNShortcutPoisons();
    CalculateSumCorrect(PoisonSeries(), SumConfig(6, false), map[5 := NaN], 6);
  }

  // The cache.

  /** A lookup's answer and the cache afterwards. */
  datatype Cached = Cached(value: Option<Dbl>, cache: Cache)

  /** `getSum`: `computeIfAbsent` — the cached sum, or a calculated one, which is stored unless `null`. */
  function GetSum(s: Series, c: SumConfig, cache: Cache, k: Instant): Cached
    requires Sorted(s) && c.length > 0
  {
    if k in cache then Cached(Some(cache[k]), cache)
    else
      var r := CalculateSum(s, c, cache, k);
      if r.None? then Cached(None, cache) else Cached(r, cache[k := r.value])
  }

  /** `getSum` answers the sum at the instant and keeps the cache valid. */
  lemma GetSumCorrect(s: Series, c: SumConfig, cache: Cache, k: Instant)
    requires Sorted(s) && c.length > 0 && CacheValid(s, c, cache)
    ensures GetSum(s, c, cache, k).value == SumAt(s, c, k)
    ensures CacheValid(s, c, GetSum(s, c, cache, k).cache)
  {
    if Contains(s, k) {
      var i := IndexOf(s, k);
      assert s[i].t == k;
      if k !in cache {
        CalculateAtCorrect(s, c, cache, i);
        CacheStore(s, c, cache, i);
      }
    }
  }

  /** Storing the right sum at a rank's instant keeps a cache valid. */
  lemma CacheStore(s: Series, c: SumConfig, cache: Cache, i: nat)
    requires Sorted(s) && i < |s| && CacheValid(s, c, cache)
    ensures CacheValid(s, c, cache[s[i].t := SumRef(s, c, i)])
  {
    var m := cache[s[i].t := SumRef(s, c, i)];
    forall j | 0 <= j < |s| && s[j].t in m
      ensures m[s[j].t] == SumRef(s, c, j)
    {
      if j != i {
        assert s[j].t != s[i].t;
      }
    }
  }

  /**
   * The instants `onBaseUpdate` invalidates and re-signals: `k`, then the
   * instants of `higherIndexOf(k)` and of the `length - 1` ranks after it.
   */
  function Affected(s: Series, c: SumConfig, k: Instant): (r: seq<Instant>)
    requires Sorted(s)
    ensures |r| == 1 + Min(c.length, |s| - After(s, k))
    ensures r[0] == k
    ensures forall j | 1 <= j < |r| :: r[j] == s[After(s, k) + j - 1].t
  {
    HigherIndexIsAfter(s, k);
    var index := HigherIndex(s, k);
    if index < 0 then [k]
    else
      var n := Min(c.length, |s| - index);
      [k] + seq(n, j requires 0 <= j < n => s[index + j].t)
  }

  /** Every instant of the `length` ranks after `k` is affected. */
  lemma AffectedCovers(s: Series, c: SumConfig, k: Instant, j: nat)
    requires Sorted(s) && After(s, k) <= j < |s| && j < After(s, k) + c.length
    ensures s[j].t in Affected(s, c, k)
  {
    var r := Affected(s, c, k);
    assert r[j - After(s, k) + 1] == s[j].t;
  }

  /** The instants reached by following `higher` from `k` at most `n` times. */
  function HigherChain(s: Series, k: Instant, n: nat): seq<Instant>
    requires Sorted(s)
    decreases n
  {
    if n == 0 then []
    else
      var h := Higher(s, k);
      if h.None? then [] else [h.value.t] + HigherChain(s, h.value.t, n - 1)
  }

  /** The instants of the (at most `n`) ranks from rank `h` on. */
  function Following(s: Series, h: nat, n: nat): seq<Instant>
    decreases n
  {
    if n == 0 || h >= |s| then [] else [s[h].t] + Following(s, h + 1, n - 1)
  }

  /** `Following` is the run of instants from rank `h`, cut at `n` or at the end. */
  lemma {:induction false} FollowingRanks(s: Series, h: nat, n: nat)
    requires h <= |s|
    ensures |Following(s, h, n)| == Min(n, |s| - h)
    ensures forall j | 0 <= j < |Following(s, h, n)| :: Following(s, h, n)[j] == s[h + j].t
    decreases n
  {
    if n > 0 && h < |s| {
      FollowingRanks(s, h + 1, n - 1);
      var r := Following(s, h, n);
      var rest := Following(s, h + 1, n - 1);
      assert r == [s[h].t] + rest;
      forall j | 0 < j < |r|
        ensures r[j] == s[h + j].t
      {
        assert r[j] == rest[j - 1];
      }
    }
  }

  /** Following `higher` from `k` at most `n` times visits the ranks after `k` in order. */
  lemma HigherChainRanks(s: Series, k: Instant, n: nat)
    requires Sorted(s)
    ensures HigherChain(s, k, n) == Following(s, After(s, k), n)
  {
    HigherChainFrom(s, k, n, After(s, k));
  }

  /** `HigherChainRanks` with the first rank after `k` named `h`. */
  lemma {:induction false} HigherChainFrom(s: Series, k: Instant, n: nat, h: nat)
    requires Sorted(s) && h == After(s, k)
    ensures HigherChain(s, k, n) == Following(s, h, n)
    decreases n
  {
    if n > 0 && h < |s| {
      AfterUnique(s, s[h].t, h + 1);
      HigherChainFrom(s, s[h].t, n - 1, h + 1);
      ChainStep(s, k, n, h);
    } else {
      ChainEnd(s, k, n, h);
    }
  }

  /** With no steps left, or nothing after `k`, the chain is empty. */
  lemma ChainEnd(s: Series, k: Instant, n: nat, h: nat)
    requires Sorted(s) && h == After(s, k) && (n == 0 || h == |s|)
    ensures HigherChain(s, k, n) == Following(s, h, n) == []
  {
    if n > 0 {
      HigherUnique(s, k, None);
    }
  }

  /** One step of the chain: the element after `k`, then the chain from it. */
  lemma ChainStep(s: Series, k: Instant, n: nat, h: nat)
    requires Sorted(s) && n > 0 && h == After(s, k) && h < |s|
    requires HigherChain(s, s[h].t, n - 1) == Following(s, h + 1, n - 1)
    ensures HigherChain(s, k, n) == Following(s, h, n)
  {
    HigherStep(s, k);
  }

  /** `map(instant, null)` evicts exactly the instants `onBaseUpdate` does. */
  lemma ChainIsAffected(s: Series, c: SumConfig, k: Instant)
    requires Sorted(s)
    ensures [k] + HigherChain(s, k, c.length) == Affected(s, c, k)
  {
    HigherChainRanks(s, k, c.length);
    AffectedIsFollowing(s, c, k);
  }

  /** The affected instants are `k` and the instants of the `length` ranks after it. */
  lemma AffectedIsFollowing(s: Series, c: SumConfig, k: Instant)
    requires Sorted(s)
    ensures Affected(s, c, k) == [k] + Following(s, After(s, k), c.length)
  {
    var h := After(s, k);
    FollowingRanks(s, h, c.length);
    var q := [k] + Following(s, h, c.length);
    var r := Affected(s, c, k);
    forall j | 0 < j < |q|
      ensures q[j] == r[j]
    {
      assert q[j] == Following(s, h, c.length)[j - 1];
    }
  }

  function Evict(cache: Cache, instants: seq<Instant>): (r: Cache)
    ensures forall t | t in r :: t in cache && t !in instants && r[t] == cache[t]
    ensures forall t | t in cache && t !in instants :: t in r
  {
    cache - set t | t in instants
  }

  /**
   * `map`: a `null` base value evicts the instant and the `length` instants
   * after it and maps to `null`; otherwise the value is `getSum`.
   */
  function Map(s: Series, c: SumConfig, cache: Cache, k: Instant, number: Option<Dbl>): Cached
    requires Sorted(s) && c.length > 0
  {
    if number.None? then Cached(None, Evict(cache, [k] + HigherChain(s, k, c.length)))
    else GetSum(s, c, cache, k)
  }

  /** What the view maps: the sum at a present instant, and nothing that breaks the cache. */
  lemma MapCorrect(s: Series, c: SumConfig, cache: Cache, k: Instant, number: Option<Dbl>)
    requires Sorted(s) && c.length > 0 && CacheValid(s, c, cache)
    ensures number.Some? ==> Map(s, c, cache, k, number).value == SumAt(s, c, k)
    ensures number.None? ==> Map(s, c, cache, k, number).value.None?
    ensures CacheValid(s, c, Map(s, c, cache, k, number).cache)
  {
    if number.Some? {
      GetSumCorrect(s, c, cache, k);
    }
  }

  // Updates of the base.

  /**
   * Windows away from an edit keep their sums: if `b` is `a` with `x` placed
   * at rank `p`, a window that ends before `p`, or starts after it, sums the
   * same values in both.
   */
  lemma WindowLocal(a: Series, b: Series, p: nat, d: nat, x: Stamped<Dbl>, c: SumConfig, r: nat)
    requires Spliced(a, b, p, d, x) && c.length > 0 && r < |b|
    requires r < p || r >= p + c.length
    ensures r < p ==> r < |a| && SumRef(b, c, r) == SumRef(a, c, r)
    ensures r >= p + c.length ==> r - d < |a| && SumRef(b, c, r) == SumRef(a, c, r - d)
  {
    if r < p {
      assert Window(b, c, r) == Window(a, c, r);
    } else {
      assert Start(c, r - d) + d == Start(c, r);
      assert Window(b, c, r) == Window(a, c, r - d);
    }
  }

  /** A cached sum at a rank the edit does not reach is still right after the edit. */
  lemma UnaffectedAfterEdit(a: Series, b: Series, p: nat, d: nat, x: Stamped<Dbl>, c: SumConfig, cache: Cache, rb: nat)
    requires Spliced(a, b, p, d, x) && c.length > 0 && CacheValid(a, c, cache)
    requires rb < |b| && (rb < p || rb >= p + c.length) && b[rb].t in cache
    ensures cache[b[rb].t] == SumRef(b, c, rb)
  {
    WindowLocal(a, b, p, d, x, c, rb);
    if rb < p {
      assert b[rb] == a[rb];
    } else {
      assert b[rb] == a[rb - d];
    }
  }

  /** The same, read from the edited base back to the base before a one-element insertion. */
  lemma UnaffectedBeforeEdit(a: Series, b: Series, p: nat, x: Stamped<Dbl>, c: SumConfig, cache: Cache, ra: nat)
    requires Spliced(a, b, p, 1, x) && c.length > 0 && CacheValid(b, c, cache)
    requires ra < |a| && (ra < p || ra >= p + c.length) && a[ra].t in cache
    ensures cache[a[ra].t] == SumRef(a, c, ra)
  {
    if ra < p {
      WindowLocal(a, b, p, 1, x, c, ra);
      assert b[ra] == a[ra];
    } else {
      WindowLocal(a, b, p, 1, x, c, ra + 1);
      assert b[ra + 1] == a[ra];
    }
  }

  /**
   * The eviction of `onBaseUpdate` after a `put` is sufficient: every sum it
   * leaves in the cache is still right for the updated base.
   */
  lemma PutKeepsCacheValid(s: Series, c: SumConfig, cache: Cache, k: Instant, v: Dbl)
    requires Sorted(s) && c.length > 0 && CacheValid(s, c, cache)
    ensures CacheValid(Insert(s, k, v), c, Evict(cache, Affected(Insert(s, k, v), c, k)))
  {
    var b := Insert(s, k, v);
    var p := InsertionPoint(s, k);
    InsertRanks(s, k, v);
    AfterUnique(b, k, p + 1);
    var aff := Affected(b, c, k);
    forall rb | p < rb < |b| && rb < p + 1 + c.length
      ensures b[rb].t in aff
    {
      AffectedCovers(b, c, k, rb);
    }
    EvictKeepsMembers(s, b, c, cache, aff, k);
    PutKeepsSums(s, b, p, Growth(s, k), Stamped(k, v), c, cache, aff);
  }

  /** Evicting the inserted instant leaves only instants the edited base holds. */
  lemma EvictKeepsMembers(a: Series, b: Series, c: SumConfig, cache: Cache, aff: seq<Instant>, k: Instant)
    requires forall t | t in cache :: Contains(a, t)
    requires forall e | e in a && e.t != k :: e in b
    requires k in aff
    ensures forall t | t in Evict(cache, aff) :: Contains(b, t)
  {
    forall t | t in Evict(cache, aff)
      ensures Contains(b, t)
    {
      var j :| 0 <= j < |a| && a[j].t == t;
      assert a[j] in b;
    }
  }

  /** After an insertion at rank `p`, evicting rank `p` and the `length` ranks after it is enough. */
  lemma PutKeepsSums(a: Series, b: Series, p: nat, d: nat, x: Stamped<Dbl>, c: SumConfig, cache: Cache, aff: seq<Instant>)
    requires Spliced(a, b, p, d, x) && c.length > 0 && CacheValid(a, c, cache)
    requires x.t in aff && forall rb | p < rb < |b| && rb < p + 1 + c.length :: b[rb].t in aff
    ensures forall rb | 0 <= rb < |b| && b[rb].t in Evict(cache, aff) :: Evict(cache, aff)[b[rb].t] == SumRef(b, c, rb)
  {
    forall rb | 0 <= rb < |b| && b[rb].t in Evict(cache, aff)
      ensures Evict(cache, aff)[b[rb].t] == SumRef(b, c, rb)
    {
      PutEntry(a, b, p, d, x, c, cache, aff, rb);
    }
  }

  /** One surviving entry after an insertion: its rank is outside the evicted run. */
  lemma PutEntry(a: Series, b: Series, p: nat, d: nat, x: Stamped<Dbl>, c: SumConfig, cache: Cache, aff: seq<Instant>, rb: nat)
    requires Spliced(a, b, p, d, x) && c.length > 0 && CacheValid(a, c, cache)
    requires x.t in aff && forall r | p < r < |b| && r < p + 1 + c.length :: b[r].t in aff
    requires rb < |b| && b[rb].t in cache && b[rb].t !in aff
    ensures cache[b[rb].t] == SumRef(b, c, rb)
  {
    assert rb != p;
    assert rb < p || rb >= p + 1 + c.length;
    UnaffectedAfterEdit(a, b, p, d, x, c, cache, rb);
  }

  /**
   * The same for a removal reported with a `null` value: once `k` is gone
   * from the base, evicting `k` and the `length` instants after it leaves
   * only sums that are still right.
   */
  lemma RemoveKeepsCacheValid(a: Series, c: SumConfig, cache: Cache, k: Instant, v: Dbl)
    requires Sorted(a) && c.length > 0 && !Contains(a, k) && CacheValid(Insert(a, k, v), c, cache)
    ensures CacheValid(a, c, Evict(cache, Affected(a, c, k)))
  {
    var b := Insert(a, k, v);
    var p := InsertionPoint(a, k);
    InsertRanks(a, k, v);
    assert Growth(a, k) == 1;
    assert forall i | 0 <= i < |a| :: a[i].t != k;
    AfterUnique(a, k, p);
    var aff := Affected(a, c, k);
    forall ra | p <= ra < |a| && ra < p + c.length
      ensures a[ra].t in aff
    {
      AffectedCovers(a, c, k, ra);
    }
    forall e | e in b && e.t != k
      ensures e in a
    {
    }
    EvictKeepsMembers(b, a, c, cache, aff, k);
    RemoveKeepsSums(a, b, p, Stamped(k, v), c, cache, aff);
  }

  /** After a removal at rank `p`, evicting the `length` ranks from `p` on is enough. */
  lemma RemoveKeepsSums(a: Series, b: Series, p: nat, x: Stamped<Dbl>, c: SumConfig, cache: Cache, aff: seq<Instant>)
    requires Spliced(a, b, p, 1, x) && c.length > 0 && CacheValid(b, c, cache)
    requires forall ra | p <= ra < |a| && ra < p + c.length :: a[ra].t in aff
    ensures forall ra | 0 <= ra < |a| && a[ra].t in Evict(cache, aff) :: Evict(cache, aff)[a[ra].t] == SumRef(a, c, ra)
  {
    forall ra | 0 <= ra < |a| && a[ra].t in Evict(cache, aff)
      ensures Evict(cache, aff)[a[ra].t] == SumRef(a, c, ra)
    {
      RemoveEntry(a, b, p, x, c, cache, aff, ra);
    }
  }

  /** One surviving entry after a removal: its rank is outside the evicted run. */
  lemma RemoveEntry(a: Series, b: Series, p: nat, x: Stamped<Dbl>, c: SumConfig, cache: Cache, aff: seq<Instant>, ra: nat)
    requires Spliced(a, b, p, 1, x) && c.length > 0 && CacheValid(b, c, cache)
    requires forall r | p <= r < |a| && r < p + c.length :: a[r].t in aff
    requires ra < |a| && a[ra].t in cache && a[ra].t !in aff
    ensures cache[a[ra].t] == SumRef(a, c, ra)
  {
    assert ra < p || ra >= p + c.length;
    UnaffectedBeforeEdit(a, b, p, x, c, cache, ra);
  }

  /**
   * `onBaseUpdate(instant, value)` on the updated base `s`: evict the affected
   * sums; then, when a listener is registered (`hot`), signal the sum at each
   * affected instant in order, recomputing through the cache.
   */
  method OnBaseUpdate(s: Series, c: SumConfig, cache: Cache, hot: bool, k: Instant)
    returns (events: seq<Event<Dbl>>, after: Cache)
    requires Sorted(s) && c.length > 0
    requires CacheValid(s, c, Evict(cache, Affected(s, c, k)))
    ensures CacheValid(s, c, after)
    ensures !hot ==> events == [] && after == Evict(cache, Affected(s, c, k))
    ensures hot ==> |events| == |Affected(s, c, k)|
    ensures hot ==> forall j | 0 <= j < |events| ::
      events[j] == Event(Affected(s, c, k)[j], SumAt(s, c, Affected(s, c, k)[j]))
  {
    var instants := Affected(s, c, k);
    after := Evict(cache, instants);
    events := [];
    if hot {
      events, after := SignalAll(s, c, after, instants);
    }
  }

  /** The second half of `onBaseUpdate`: `onUpdate(i, getSum(i))` for each instant in turn. */
  method SignalAll(s: Series, c: SumConfig, cache: Cache, instants: seq<Instant>)
    returns (events: seq<Event<Dbl>>, after: Cache)
    requires Sorted(s) && c.length > 0 && CacheValid(s, c, cache)
    ensures CacheValid(s, c, after)
    ensures |events| == |instants|
    ensures forall j | 0 <= j < |events| :: events[j] == Event(instants[j], SumAt(s, c, instants[j]))
  {
    after := cache;
    events := [];
    var j := 0;
    while j < |instants|
      invariant 0 <= j <= |instants| && |events| == j
      invariant CacheValid(s, c, after)
      invariant forall i | 0 <= i < j :: events[i] == Event(instants[i], SumAt(s, c, instants[i]))
    {
      var e;
      e, after := Signal(s, c, after, instants[j]);
      events := events + [e];
      j := j + 1;
    }
  }

  /** One step of the signalling loop: `onUpdate(i, getSum(i))` through the cache. */
  method Signal(s: Series, c: SumConfig, cache: Cache, k: Instant) returns (e: Event<Dbl>, after: Cache)
    requires Sorted(s) && c.length > 0 && CacheValid(s, c, cache)
    ensures e == Event(k, SumAt(s, c, k))
    ensures CacheValid(s, c, after)
  {
    var r := GetSum(s, c, cache, k);
    GetSumCorrect(s, c, cache, k);
    e := Event(k, r.value);
    after := r.cache;
  }
}
