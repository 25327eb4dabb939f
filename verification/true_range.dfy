/**
 * `TrueRange`: for every candle, the greatest of its own range (high less
 * low) and the distances of its high and its low from the previous close.
 * The first candle has no previous close and its true range is its range.
 */
module TrueRange {
  import opened Outcomes
  import opened Timeline
  import opened Num
  import opened CandleData

  /** A timeline of candles, by its contents. */
  type Candles = seq<Stamped<Candle>>

  /** `calculate(p, c)`: the range of `c`, widened by the previous candle's close when there is one. */
  function Calculate(p: Option<Candle>, c: Candle): (r: Dbl)
    ensures p.None? ==> r == Sub(c.high, c.low)
  {
    var range := Sub(c.high, c.low);
    if p.None? then range
    else GetMax([range, AbsD(Sub(c.high, p.value.close)), AbsD(Sub(c.low, p.value.close))])
  }

  /**
   * With numbers for the prices and the low not above the high, the true
   * range is the span from the lower of the low and the previous close to the
   * higher of the high and the previous close; so it is at least the range.
   */
  lemma TrueRangeSpan(p: Candle, c: Candle)
    requires c.high.Real? && c.low.Real? && p.close.Real? && c.low.x <= c.high.x
    ensures Calculate(Some(p), c) == Real(Max(c.high.x, p.close.x) - MinReal(c.low.x, p.close.x))
    ensures Calculate(Some(p), c).x >= c.high.x - c.low.x >= 0.0
  {
    var xs := [Sub(c.high, c.low), AbsD(Sub(c.high, p.close)), AbsD(Sub(c.low, p.close))];
    GetMaxIsGreatest(xs);
    var m := GetMax(xs);
    assert xs[0].x <= m.x && xs[1].x <= m.x && xs[2].x <= m.x;
    var i :| 0 <= i < 3 && xs[i].x == m.x;
  }

  /** The true range of a candle whose prices are all NaN-free is NaN-free, and then never negative. */
  lemma TrueRangeDefined(p: Option<Candle>, c: Candle)
    requires c.high.Real? && c.low.Real? && c.low.x <= c.high.x
    requires p.Some? ==> p.value.close.Real?
    ensures Calculate(p, c).Real? && Calculate(p, c).x >= c.high.x - c.low.x
  {
    if p.Some? {
      TrueRangeSpan(p.value, c);
    }
  }

  /** The reference: the true range at rank `i`, against the candle at rank `i - 1` if any. */
  function TrRef(s: Candles, i: nat): Dbl
    requires i < |s|
  {
    Calculate(if i == 0 then None else Some(s[i - 1].v), s[i].v)
  }

  /** The contents of the view: each instant with its true range. */
  function Ranges(s: Candles): (r: Series)
    ensures SameInstants(s, r)
    ensures forall i | 0 <= i < |s| :: r[i].v == TrRef(s, i)
  {
    seq(|s|, i requires 0 <= i < |s| => Stamped(s[i].t, TrRef(s, i)))
  }

  /** `map(instant, candle)`: the candle against the one `lower(instant)` finds. */
  function Map(s: Candles, k: Instant, candle: Candle): Dbl
    requires Sorted(s)
  {
    var p := Lower(s, k);
    Calculate(if p.None? then None else Some(p.value.v), candle)
  }

  /** Read at a member of the base, `map` is the reference at its rank. */
  lemma MapIsRef(s: Candles, i: nat)
    requires Sorted(s) && i < |s|
    ensures Map(s, s[i].t, s[i].v) == TrRef(s, i)
  {
    LowerOfMember(s, i);
  }

  /** The events of one update, and whether the update ran to the end or threw. */
  datatype Signals = Signals(events: seq<Event<Dbl>>, outcome: Outcome)

  /**
   * `onBaseUpdate`: nothing without a listener; otherwise the new value at the
   * instant (against its predecessor), and, unless the instant is the base's
   * last, the successor's true range against the new value (or against the
   * predecessor when the value was removed). `last()` on an empty base and a
   * missing successor are dereferenced and throw.
   */
  function OnBaseUpdate(s: Candles, hot: bool, k: Instant, newValue: Option<Candle>): (r: Signals)
    requires Sorted(s)
    ensures !hot ==> r == Signals([], Done)
    ensures hot ==> 1 <= |r.events| <= 2 && r.events[0].t == k
    ensures hot ==> (r.events[0].value.None? <==> newValue.None?)
    ensures r.outcome.Fail? ==> r.outcome.error == NullPointer
  {
    if !hot then Signals([], Done)
    else Respond(k, newValue, Lower(s, k), Last(s), Higher(s, k))
  }

  /**
   * The listener's part of `onBaseUpdate`, given what `lower`, `last` and
   * `higher` answer at the instant (`higher` is only consulted when the
   * instant is not the last).
   */
  function Respond(k: Instant, newValue: Option<Candle>, lower: Option<Stamped<Candle>>,
                   last: Option<Stamped<Candle>>, higher: Option<Stamped<Candle>>): (r: Signals)
    ensures 1 <= |r.events| <= 2 && r.events[0].t == k
    ensures r.events[0].value.None? <==> newValue.None?
    ensures r.outcome.Fail? <==> last.None? || (k != last.value.t && higher.None?)
    ensures r.outcome.Fail? ==> r.outcome.error == NullPointer
  {
    var prev := if lower.None? then None else Some(lower.value.v);
    var first := Event(k, if newValue.None? then None else Some(Calculate(prev, newValue.value)));
    if last.None? then Signals([first], Fail(NullPointer))
    else if k == last.value.t then Signals([first], Done)
    else if higher.None? then Signals([first], Fail(NullPointer))
    else
      var against := if newValue.None? then prev else newValue;
      Signals([first, Event(higher.value.t, Some(Calculate(against, higher.value.v)))], Done)
  }

  /** Where an element at rank `r` after `put(k, v)` was before it (for ranks other than `k`'s). */
  function OldRank(a: Candles, k: Instant, r: nat): int
  {
    if r < InsertionPoint(a, k) then r else r - Growth(a, k)
  }

  /**
   * After `put(k, v)` the update runs to the end and signals the true range
   * at `k` and, if there is a later instant, at the next one.
   */
  lemma PutSignals(a: Candles, k: Instant, v: Candle)
    requires Sorted(a)
    ensures var b := Insert(a, k, v);
      var p := InsertionPoint(a, k);
      && p < |b| && b[p].t == k
      && OnBaseUpdate(b, true, k, Some(v)) ==
        Signals([Event(k, Some(TrRef(b, p)))] + (if p + 1 < |b| then [Event(b[p + 1].t, Some(TrRef(b, p + 1)))] else []), Done)
  {
    PutSignalsAt(a, Insert(a, k, v), InsertionPoint(a, k), k, v);
  }

  /** `PutSignals` with the series after the put, `b`, and the put's rank `p` given. */
  lemma PutSignalsAt(a: Candles, b: Candles, p: nat, k: Instant, v: Candle)
    requires Sorted(a) && b == Insert(a, k, v) && p == InsertionPoint(a, k)
    ensures p < |b| && b[p].t == k
    ensures OnBaseUpdate(b, true, k, Some(v)) ==
      Signals([Event(k, Some(TrRef(b, p)))] + (if p + 1 < |b| then [Event(b[p + 1].t, Some(TrRef(b, p + 1)))] else []), Done)
  {
    InsertRanks(a, k, v);
    UpdateAtMember(b, p, k, v);
  }

  /** ... and every other instant keeps the true range it had before the put. */
  lemma PutKeepsOthers(a: Candles, k: Instant, v: Candle)
    requires Sorted(a)
    ensures var b := Insert(a, k, v);
      var p := InsertionPoint(a, k);
      forall j | 0 <= j < |b| && j != p && j != p + 1 ::
        var q := OldRank(a, k, j);
        0 <= q < |a| && a[q].t == b[j].t && TrRef(a, q) == TrRef(b, j)
  {
    InsertRanks(a, k, v);
    TrLocalAll(a, Insert(a, k, v), k, v);
  }

  /** `TrLocal` at every rank other than the put's and the next, with ranks mapped back by `OldRank`. */
  lemma TrLocalAll(a: Candles, b: Candles, k: Instant, v: Candle)
    requires Spliced(a, b, InsertionPoint(a, k), Growth(a, k), Stamped(k, v))
    ensures forall j | 0 <= j < |b| && j != InsertionPoint(a, k) && j != InsertionPoint(a, k) + 1 ::
      var q := OldRank(a, k, j);
      0 <= q < |a| && a[q].t == b[j].t && TrRef(a, q) == TrRef(b, j)
  {
    var p := InsertionPoint(a, k);
    var d := Growth(a, k);
    forall j | 0 <= j < |b| && j != p && j != p + 1
      ensures var q := OldRank(a, k, j);
        0 <= q < |a| && a[q].t == b[j].t && TrRef(a, q) == TrRef(b, j)
    {
      TrLocal(a, b, p, d, Stamped(k, v), j);
      assert OldRank(a, k, j) == if j < p then j else j - d;
    }
  }

  /**
   * A true range away from an edit is unchanged: if `b` is `a` with `x` placed
   * at rank `p`, the ranks other than `p` and `p + 1` see the same candle and
   * the same predecessor in both.
   */
  lemma TrLocal(a: Candles, b: Candles, p: nat, d: nat, x: Stamped<Candle>, j: nat)
    requires Spliced(a, b, p, d, x) && j < |b| && j != p && j != p + 1
    ensures var q := if j < p then j else j - d;
      0 <= q < |a| && a[q] == b[j] && TrRef(a, q) == TrRef(b, j)
  {
    if j < p {
      if j > 0 {
        assert b[j - 1] == a[j - 1];
      }
    } else {
      assert b[j - 1] == a[j - 1 - d];
    }
  }

  /**
   * An update at a member of the base, carrying the member's own candle,
   * signals the true range at its rank and, unless it is the last, at the
   * next rank, and runs to the end.
   */
  lemma UpdateAtMember(s: Candles, i: nat, k: Instant, x: Candle)
    requires Sorted(s) && i < |s| && s[i] == Stamped(k, x)
    ensures OnBaseUpdate(s, true, k, Some(x)) ==
      Signals([Event(k, Some(TrRef(s, i)))] + (if i + 1 < |s| then [Event(s[i + 1].t, Some(TrRef(s, i + 1)))] else []), Done)
  {
    LowerOfMember(s, i);
    NextAt(s, i, k);
    assert k == s[|s| - 1].t <==> i + 1 == |s|;
    RespondAtMember(s, i, k, x, Lower(s, k), Last(s), Higher(s, k));
  }

  /** `UpdateAtMember` once `lower`, `last` and `higher` are known. */
  lemma RespondAtMember(s: Candles, i: nat, k: Instant, x: Candle, lower: Option<Stamped<Candle>>,
                        last: Option<Stamped<Candle>>, higher: Option<Stamped<Candle>>)
    requires i < |s| && s[i] == Stamped(k, x)
    requires lower == (if i == 0 then None else Some(s[i - 1]))
    requires last == Some(s[|s| - 1]) && (k == s[|s| - 1].t <==> i + 1 == |s|)
    requires higher == At(s, i + 1)
    ensures Respond(k, Some(x), lower, last, higher) ==
      Signals([Event(k, Some(TrRef(s, i)))] + (if i + 1 < |s| then [Event(s[i + 1].t, Some(TrRef(s, i + 1)))] else []), Done)
  {
  }
}
