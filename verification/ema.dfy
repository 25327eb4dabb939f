/**
 * `Ema`: the exponential moving average of a base timeline of numbers.
 *
 * With `m = 2 / (1 + length)`, the value at rank `length - 1` is the mean of
 * the first `length` values, every later rank `r` weighs its own value by `m`
 * and the previous average by `1 - m`, and earlier ranks are NaN. Averages
 * already computed are kept in a map from rank to value (`emas`) whose keys
 * are always the contiguous ranks `length - 1, length, ...`: `getEma` extends
 * it from its last entry, and an update of the base drops every entry from
 * the updated rank on.
 */
module Ema {
  import opened Outcomes
  import opened Timeline
  import opened Num

  datatype EmaConfig = EmaConfig(length: nat)

  /** The constructor checks `emaLength > 0`. */
  function NewEma(length: int): (r: Result<EmaConfig>)
    ensures r.Ok? <==> length > 0
    ensures r.Ok? ==> r.value.length == length
    ensures r.Err? ==> r.error == IllegalArgument
  {
    if length > 0 then Ok(EmaConfig(length)) else Err(IllegalArgument)
  }

  /** `multiplier`: the weight of the newest value. */
  function Multiplier(c: EmaConfig): (m: real)
    requires c.length > 0
    ensures 0.0 < m <= 1.0
  {
    2.0 / ((1 + c.length) as real)
  }

  /** The first average: the mean of the first `length` values. */
  function StartEma(s: Series, c: EmaConfig): Dbl
    requires 0 < c.length <= |s|
  {
    Div(SumOf(Values(s)[..c.length]), c.length)
  }

  /** One smoothing step: the value at a rank weighed against the previous average. */
  function Smooth(c: EmaConfig, value: Dbl, previous: Dbl): Dbl
    requires c.length > 0
  {
    Add(Scale(Multiplier(c), value), Scale(1.0 - Multiplier(c), previous))
  }

  /** The reference: the exponential moving average at rank `i`. */
  function EmaRef(s: Series, c: EmaConfig, i: nat): Dbl
    requires i < |s| && c.length > 0
    decreases i
  {
    if i + 1 < c.length then NaN
    else if i + 1 == c.length then StartEma(s, c)
    else Smooth(c, s[i].v, EmaRef(s, c, i - 1))
  }

  /** What the view answers at `k`: the average at `k`'s rank, `null` for an absent instant. */
  function EmaAt(s: Series, c: EmaConfig, k: Instant): Option<Dbl>
    requires Sorted(s) && c.length > 0
  {
    if Contains(s, k) then Some(EmaRef(s, c, IndexOf(s, k))) else None
  }

  /** An average depends only on the values up to its own rank. */
  lemma {:induction false} EmaPrefix(a: Series, b: Series, c: EmaConfig, i: nat)
    requires c.length > 0 && i < |a| && i < |b|
    requires forall j | 0 <= j <= i :: a[j] == b[j]
    ensures EmaRef(a, c, i) == EmaRef(b, c, i)
    decreases i
  {
    if i + 1 == c.length {
      assert Values(a)[..c.length] == Values(b)[..c.length];
    } else if i + 1 > c.length {
      EmaPrefix(a, b, c, i - 1);
    }
  }

  /**
   * Every average is a weighted mean of the values so far, so it lies between
   * the least and the greatest of them.
   */
  lemma {:induction false} EmaBounds(s: Series, c: EmaConfig, i: nat, lo: real, hi: real)
    requires c.length > 0 && c.length - 1 <= i < |s|
    requires forall j | 0 <= j <= i :: s[j].v.Real? && lo <= s[j].v.x <= hi
    ensures EmaRef(s, c, i).Real? && lo <= EmaRef(s, c, i).x <= hi
    decreases i
  {
    if i + 1 == c.length {
      StartBounds(s, c, lo, hi);
    } else {
      EmaBounds(s, c, i - 1, lo, hi);
      SmoothBounds(c, s[i].v, EmaRef(s, c, i - 1), lo, hi);
    }
  }

  lemma StartBounds(s: Series, c: EmaConfig, lo: real, hi: real)
    requires 0 < c.length <= |s|
    requires forall j | 0 <= j < c.length :: s[j].v.Real? && lo <= s[j].v.x <= hi
    ensures StartEma(s, c).Real? && lo <= StartEma(s, c).x <= hi
  {
    var w := Values(s)[..c.length];
    assert forall j | 0 <= j < |w| :: w[j] == s[j].v;
    AverageBounds(w, lo, hi);
  }

  lemma SmoothBounds(c: EmaConfig, value: Dbl, previous: Dbl, lo: real, hi: real)
    requires c.length > 0
    requires value.Real? && lo <= value.x <= hi && previous.Real? && lo <= previous.x <= hi
    ensures Smooth(c, value, previous).Real? && lo <= Smooth(c, value, previous).x <= hi
  {
    ConvexBounds(Multiplier(c), value.x, previous.x, lo, hi);
  }

  /** A weighted mean of two values in `[lo, hi]` is in `[lo, hi]`. */
  lemma ConvexBounds(m: real, x: real, y: real, lo: real, hi: real)
    requires 0.0 <= m <= 1.0 && lo <= x <= hi && lo <= y <= hi
    ensures lo <= m * x + (1.0 - m) * y <= hi
  {
    var n := 1.0 - m;
    NonNegProduct(m, x - lo);
    NonNegProduct(n, y - lo);
    NonNegProduct(m, hi - x);
    NonNegProduct(n, hi - y);
    assert m * x + n * y - lo == m * (x - lo) + n * (y - lo);
    assert hi - (m * x + n * y) == m * (hi - x) + n * (hi - y);
  }

  lemma NonNegProduct(f: real, a: real)
    requires 0.0 <= f && 0.0 <= a
    ensures 0.0 <= f * a
  {
  }

  // The checkpoint map.

  /** `emas`: averages already computed, by rank. */
  type Checkpoints = map<int, Dbl>

  /** The ranks from `lo` up to, not including, `hi`. */
  function Ranks(lo: int, hi: int): (r: set<int>)
    ensures forall i :: i in r <==> lo <= i < hi
    ensures lo <= hi ==> |r| == hi - lo
    decreases hi - lo
  {
    if hi <= lo then {} else Ranks(lo, hi - 1) + {hi - 1}
  }

  /**
   * The checkpoint invariant: the keys are exactly the `|emas|` ranks from
   * `length - 1` on, and each holds the average at its rank.
   */
  ghost predicate Valid(s: Series, c: EmaConfig, emas: Checkpoints)
  {
    && c.length > 0
    && (forall i :: i in emas <==> c.length - 1 <= i < c.length - 1 + |emas|)
    && forall i | i in emas :: 0 <= i < |s| && emas[i] == EmaRef(s, c, i)
  }

  /** The key of `lastEntry()`, which the invariant pins down. */
  function LastKey(c: EmaConfig, emas: Checkpoints): int
  {
    c.length - 2 + |emas|
  }

  /** In a valid, non-empty map `LastKey` is the greatest key: `lastEntry()` is the entry there. */
  lemma LastEntry(s: Series, c: EmaConfig, emas: Checkpoints)
    requires Valid(s, c, emas) && |emas| > 0
    ensures LastKey(c, emas) in emas
    ensures forall i | i in emas :: i <= LastKey(c, emas)
  {
  }

  /** `tailMap(from, true).clear()`: drop every checkpoint at rank `from` or later. */
  function ClearFrom(emas: Checkpoints, from: int): (r: Checkpoints)
    ensures forall i :: i in r <==> i in emas && i < from
    ensures forall i | i in r :: r[i] == emas[i]
  {
    map i | i in emas && i < from :: emas[i]
  }

  /**
   * Clearing from `from` keeps the map valid for any base that agrees with the
   * old one below `from`: the kept ranks are still contiguous from `length - 1`
   * and their averages did not change.
   */
  lemma ClearValid(a: Series, b: Series, c: EmaConfig, emas: Checkpoints, from: int)
    requires Valid(a, c, emas)
    requires forall j | 0 <= j < from :: j < |a| && j < |b| && a[j] == b[j]
    ensures Valid(b, c, ClearFrom(emas, from))
  {
    var r := ClearFrom(emas, from);
    var lo := c.length - 1;
    var hi := lo + |emas|;
    var top := if from <= lo then lo else if from < hi then from else hi;
    assert r.Keys == Ranks(lo, top);
    assert |r| == |r.Keys|;
    forall i | i in r
      ensures 0 <= i < |b| && r[i] == EmaRef(b, c, i)
    {
      EmaPrefix(a, b, c, i);
    }
  }

  /** Appending the next rank's average keeps the map valid. */
  lemma ExtendValid(s: Series, c: EmaConfig, emas: Checkpoints, i: int, x: Dbl)
    requires Valid(s, c, emas) && |emas| > 0 && i == LastKey(c, emas) + 1 && i < |s|
    requires x == Smooth(c, s[i].v, emas[i - 1])
    ensures Valid(s, c, emas[i := x]) && LastKey(c, emas[i := x]) == i
  {
    LastEntry(s, c, emas);
    assert i !in emas;
    var e := emas[i := x];
    assert |e| == |emas| + 1;
    forall j | j in e
      ensures 0 <= j < |s| && e[j] == EmaRef(s, c, j)
    {
      if j != i {
        assert j in emas;
      }
    }
  }

  /** The first checkpoint, the average of the first `length` values, makes a valid map. */
  lemma SeedValid(s: Series, c: EmaConfig, start: Dbl)
    requires c.length > 0 && c.length <= |s| && start == StartEma(s, c)
    ensures Valid(s, c, map[c.length - 1 := start]) && LastKey(c, map[c.length - 1 := start]) == c.length - 1
  {
    var e := map[c.length - 1 := start];
    assert |e| == 1;
  }

  /** `calculateStartEma`: add up the values from the start, stopping after `length` of them. */
  method CalculateStartEma(s: Series, c: EmaConfig) returns (r: Dbl)
    requires c.length > 0
    ensures c.length <= |s| ==> r == StartEma(s, c)
    ensures |s| < c.length ==> r == Div(SumOf(Values(s)), c.length)
  {
    var xs := Values(s);
    var sum := Real(0.0);
    var i := 0;
    while i < |s|
      invariant 0 <= i <= |s| && i < c.length
      invariant sum == SumOf(xs[..i])
    {
      SumOfSnoc(xs[..i], xs[i]);
      assert xs[..i + 1] == xs[..i] + [xs[i]];
      sum := Add(sum, xs[i]);
      i := i + 1;
      if i == c.length {
        break;
      }
    }
    assert i == |s| ==> xs[..i] == xs;
    r := Div(sum, c.length);
  }

  /**
   * `getEma(index)`: `null` for a negative index; a checkpoint when there is
   * one; NaN before rank `length - 1`; otherwise the map is seeded with the
   * start average if empty and extended rank by rank from its last entry up to
   * `index`, whose entry is returned.
   */
  method GetEma(s: Series, c: EmaConfig, emas: Checkpoints, index: int) returns (r: Option<Dbl>, after: Checkpoints)
    requires Valid(s, c, emas) && index < |s|
    ensures Valid(s, c, after)
    ensures index < 0 ==> r.None?
    ensures index >= 0 ==> r == Some(EmaRef(s, c, index))
    ensures 0 <= index && index + 1 < c.length ==> r == Some(NaN)
  {
    after := emas;
    if index < 0 {
      return None, after;
    }
    if index in after {
      return Some(after[index]), after;
    }
    if index + 1 < c.length {
      return Some(NaN), after;
    }
    if |after| == 0 {
      var start := CalculateStartEma(s, c);
      SeedValid(s, c, start);
      after := map[c.length - 1 := start];
    }
    var i := |after| + c.length - 1;
    while i <= index
      invariant Valid(s, c, after) && |after| > 0 && i == LastKey(c, after) + 1 && i <= index + 1
      decreases index - i
    {
      LastEntry(s, c, after);
      var last := after[LastKey(c, after)];
      var next := Smooth(c, s[i].v, last);
      ExtendValid(s, c, after, i, next);
      after := after[i := next];
      i := i + 1;
    }
    LastEntry(s, c, after);
    r := Some(after[LastKey(c, after)]);
  }

  /** `map`: `null` clears the checkpoints from the instant's rank on; a value gives `getEma`. */
  method Map(s: Series, c: EmaConfig, emas: Checkpoints, k: Instant, number: Option<Dbl>)
    returns (r: Option<Dbl>, after: Checkpoints)
    requires Sorted(s) && Valid(s, c, emas)
    ensures Valid(s, c, after)
    ensures number.None? ==> r.None?
    ensures number.Some? ==> r == EmaAt(s, c, k)
  {
    if number.None? {
      after := ClearFrom(emas, IndexOf(s, k));
      ClearValid(s, s, c, emas, IndexOf(s, k));
      r := None;
    } else {
      r, after := GetEma(s, c, emas, IndexOf(s, k));
    }
  }

  /**
   * `onBaseUpdate(instant, value)` on the updated base `s`: clear the
   * checkpoints from the instant's rank on (listeners or not); then, when a
   * listener is registered (`hot`), signal the average at the instant and at
   * every later instant, in order.
   */
  method OnBaseUpdate(s: Series, c: EmaConfig, emas: Checkpoints, hot: bool, k: Instant, newValue: Option<Dbl>)
    returns (events: seq<Event<Dbl>>, after: Checkpoints)
    requires Sorted(s) && Valid(s, c, ClearFrom(emas, IndexOf(s, k)))
    ensures Valid(s, c, after)
    ensures !hot ==> events == [] && after == ClearFrom(emas, IndexOf(s, k))
    ensures hot ==> |events| == 1 + |s| - After(s, k)
    ensures hot ==> events[0] == Event(k, if newValue.None? then None else EmaAt(s, c, k))
    ensures hot ==> Signalled(s, c, events, After(s, k))
  {
    after := ClearFrom(emas, IndexOf(s, k));
    events := [];
    if !hot {
      return;
    }
    var first: Option<Dbl>;
    if newValue.None? {
      first := None;
    } else {
      first, after := GetEma(s, c, after, IndexOf(s, k));
    }
    events := [Event(k, first)];
    ghost var from := After(s, k);
    ghost var h := from;
    var t := Successor(s, k, h);
    while t.Some?
      invariant from <= h <= |s| && t == At(s, h)
      invariant Valid(s, c, after)
      invariant |events| == 1 + h - from
      invariant events[0] == Event(k, if newValue.None? then None else EmaAt(s, c, k))
      invariant Signalled(s, c, events, from)
      decreases |s| - h
    {
      var tk := t.value.t;
      assert tk == s[h].t;
      var e;
      e, after := Signal(s, c, after, tk, h);
      SignalledSnoc(s, c, events, from, h);
      events := events + [e];
      AfterMember(s, h);
      t := Successor(s, tk, h + 1);
      h := h + 1;
    }
  }

  /** `higher(k)`, for the `h` that is the rank of the first instant after `k`. */
  method Successor(s: Series, k: Instant, ghost h: nat) returns (t: Option<Stamped<Dbl>>)
    requires Sorted(s) && h == After(s, k)
    ensures t == At(s, h)
  {
    HigherAfter(s, k);
    t := Higher(s, k);
  }

  /** One step of the walk: the event for the entry at rank `h`, computed by `getEma`. */
  method Signal(s: Series, c: EmaConfig, emas: Checkpoints, k: Instant, ghost h: nat)
    returns (e: Event<Dbl>, after: Checkpoints)
    requires Sorted(s) && Valid(s, c, emas) && h < |s| && k == s[h].t
    ensures Valid(s, c, after)
    ensures e == Event(s[h].t, Some(EmaRef(s, c, h)))
  {
    IndexOfMember(s, h);
    var r;
    r, after := GetEma(s, c, emas, IndexOf(s, k));
    e := Event(k, r);
  }

  /**
   * `events[1..]` are the signals for ranks `from`, `from + 1`, ... in order,
   * each carrying the reference average at its rank.
   */
  ghost predicate Signalled(s: Series, c: EmaConfig, events: seq<Event<Dbl>>, from: nat)
    requires c.length > 0
  {
    && |events| >= 1 && from + |events| - 1 <= |s|
    && forall j | 1 <= j < |events| ::
      events[j] == Event(s[from + j - 1].t, Some(EmaRef(s, c, from + j - 1)))
  }

  lemma SignalledSnoc(s: Series, c: EmaConfig, events: seq<Event<Dbl>>, from: nat, h: nat)
    requires c.length > 0 && Signalled(s, c, events, from)
    requires h == from + |events| - 1 && h < |s|
    ensures Signalled(s, c, events + [Event(s[h].t, Some(EmaRef(s, c, h)))], from)
  {
  }

  /**
   * What an update of the base can change: after `put(k, v)`, the averages
   * before `k`'s rank are as before, so signalling `k` and every later instant
   * reaches every changed value; and clearing from `k`'s rank keeps the
   * checkpoints valid for the new base.
   */
  lemma PutKeepsValid(a: Series, c: EmaConfig, emas: Checkpoints, k: Instant, v: Dbl)
    requires Sorted(a) && Valid(a, c, emas)
    ensures var b := Insert(a, k, v);
      && IndexOf(b, k) == InsertionPoint(a, k)
      && (forall r | 0 <= r < InsertionPoint(a, k) :: EmaRef(b, c, r) == EmaRef(a, c, r))
      && Valid(b, c, ClearFrom(emas, IndexOf(b, k)))
  {
    var b := Insert(a, k, v);
    var p := InsertionPoint(a, k);
    PutKeepsPrefix(a, k, v);
    forall r | 0 <= r < p
      ensures EmaRef(b, c, r) == EmaRef(a, c, r)
    {
      EmaPrefix(a, b, c, r);
    }
    ClearValid(a, b, c, emas, p);
  }

  /** A removal, reported with `null` at an instant the base no longer holds, clears everything. */
  lemma RemoveClearsAll(a: Series, b: Series, c: EmaConfig, emas: Checkpoints, k: Instant)
    requires Sorted(a) && Valid(b, c, emas) && !Contains(a, k)
    ensures ClearFrom(emas, IndexOf(a, k)) == map[]
    ensures Valid(a, c, ClearFrom(emas, IndexOf(a, k)))
  {
  }
}
