/**
 * `Macd`: moving average convergence/divergence.
 *
 * The MACD line is a `Subtraction` of a long from a short exponential moving
 * average of the base. The signal line is an exponential moving average of
 * the MACD line seen through a `SkipTimeline` that hides its first
 * `long - 1` elements (which are NaN while the long average warms up). The
 * view maps each MACD value to the pair (macd, signal), with NaN for a signal
 * the signal view does not hold.
 */
module Macd {
  import opened Outcomes
  import opened Timeline
  import opened Num
  import opened Ema
  import opened Skip
  import Subtraction

  datatype MacdConfig = MacdConfig(short: nat, long: nat, signal: nat)

  /** The record `Values(macd, signal)`. */
  datatype MacdValues = MacdValues(macd: Dbl, signal: Dbl)

  /** The one-argument constructor's periods. */
  const DefaultShort := 12
  const DefaultLong := 26
  const DefaultSignal := 9

  /**
   * The constructor checks nothing itself: the short and long averages and
   * the signal average it builds each check their own period, in that order.
   */
  function NewMacd(short: int, long: int, signal: int): (r: Result<MacdConfig>)
    ensures r.Ok? <==> short > 0 && long > 0 && signal > 0
    ensures r.Ok? ==> r.value == MacdConfig(short, long, signal)
    ensures r.Err? ==> r.error == IllegalArgument
  {
    var s := NewEma(short);
    if s.Err? then Err(s.error)
    else
      var l := NewEma(long);
      if l.Err? then Err(l.error)
      else
        // The skip of `long - 1` cannot fail once `long > 0`.
        var g := NewEma(signal);
        if g.Err? then Err(g.error)
        else Ok(MacdConfig(short, long, signal))
  }

  predicate ValidConfig(c: MacdConfig)
  {
    c.short > 0 && c.long > 0 && c.signal > 0
  }

  /** `histogram()`: what separates the MACD line from its signal. */
  function Histogram(v: MacdValues): (h: Dbl)
    ensures h.Real? <==> v.macd.Real? && v.signal.Real?
    ensures h.Real? ==> v.signal.x + h.x == v.macd.x
  {
    Sub(v.macd, v.signal)
  }

  /** The contents of an `Ema` view of `s`: each instant with the average at its rank. */
  function Averages(s: Series, c: EmaConfig): (r: Series)
    requires c.length > 0
    ensures SameInstants(s, r)
    ensures forall i | 0 <= i < |s| :: r[i].v == EmaRef(s, c, i)
  {
    seq(|s|, i requires 0 <= i < |s| => Stamped(s[i].t, EmaRef(s, c, i)))
  }

  /** The contents of the MACD line: at every rank, the short average less the long one. */
  function Line(s: Series, c: MacdConfig): (l: Series)
    requires ValidConfig(c)
    ensures SameInstants(s, l)
  {
    seq(|s|, i requires 0 <= i < |s| =>
      Stamped(s[i].t, Sub(EmaRef(s, EmaConfig(c.short), i), EmaRef(s, EmaConfig(c.long), i))))
  }

  lemma LineSorted(s: Series, c: MacdConfig)
    requires Sorted(s) && ValidConfig(c)
    ensures Sorted(Line(s, c))
  {
  }

  /** The MACD line is the `Subtraction` view of the two averages. */
  lemma LineIsSubtraction(s: Series, c: MacdConfig, i: nat)
    requires Sorted(s) && ValidConfig(c) && i < |s|
    ensures Some(Line(s, c)[i].v) ==
      Subtraction.DifferenceAt(Averages(s, EmaConfig(c.short)), Averages(s, EmaConfig(c.long)), s[i].t)
  {
    Subtraction.DifferenceValue(Averages(s, EmaConfig(c.short)), Averages(s, EmaConfig(c.long)), i, i);
  }

  /** The signal view's contents: the MACD line without its first `long - 1` elements. */
  function Shown(s: Series, c: MacdConfig): (r: Series)
    requires ValidConfig(c)
  {
    Drop(Line(s, c), c.long - 1)
  }

  /** `signalEma.get(instant)`: the signal average at the instant, `null` where the skip view holds nothing. */
  function SignalAt(s: Series, c: MacdConfig, k: Instant): Option<Dbl>
    requires Sorted(s) && ValidConfig(c)
  {
    LineSorted(s, c);
    EmaAt(Shown(s, c), EmaConfig(c.signal), k)
  }

  /**
   * The signal at the base's rank `i`: NaN for the hidden ranks, and the
   * signal average of the shown line otherwise, which is itself NaN until
   * `signal` shown values are there.
   */
  function SignalRef(s: Series, c: MacdConfig, i: nat): (r: Dbl)
    requires ValidConfig(c) && i < |s|
    ensures i + 2 < c.long + c.signal ==> r.NaN?
  {
    if i < c.long - 1 then NaN
    else EmaRef(Shown(s, c), EmaConfig(c.signal), i - (c.long - 1))
  }

  /** Read at an instant the base holds, the signal view answers `SignalRef` (NaN standing for `null`). */
  lemma SignalAtRank(s: Series, c: MacdConfig, i: nat)
    requires Sorted(s) && ValidConfig(c) && i < |s|
    ensures var g := SignalAt(s, c, s[i].t);
      (if g.None? then NaN else g.value) == SignalRef(s, c, i)
    ensures i >= c.long - 1 <==> SignalAt(s, c, s[i].t).Some?
  {
    if i >= c.long - 1 {
      ShownAt(s, c, i);
    } else {
      HiddenAt(s, c, i);
    }
  }

  lemma ShownAt(s: Series, c: MacdConfig, i: nat)
    requires Sorted(s) && ValidConfig(c) && c.long - 1 <= i < |s|
    ensures SignalAt(s, c, s[i].t) == Some(SignalRef(s, c, i))
  {
    var d := Shown(s, c);
    var j := i - (c.long - 1);
    assert d[j].t == s[i].t;
    IndexOfMember(d, j);
  }

  lemma HiddenAt(s: Series, c: MacdConfig, i: nat)
    requires Sorted(s) && ValidConfig(c) && i < c.long - 1 && i < |s|
    ensures SignalAt(s, c, s[i].t).None?
  {
    var d := Shown(s, c);
    forall q | 0 <= q < |d|
      ensures d[q].t != s[i].t
    {
      assert d[q].t == s[q + c.long - 1].t;
    }
  }

  /** What the view answers at `k`: the MACD value with its signal, `null` where the base holds nothing. */
  function MacdAt(s: Series, c: MacdConfig, k: Instant): Option<MacdValues>
    requires Sorted(s) && ValidConfig(c)
  {
    var l := Get(Line(s, c), k);
    if l.None? then None else Some(MacdValues(l.value.v, SignalRef(s, c, IndexOf(s, k))))
  }

  /** The pair `map` builds from a MACD value and the signal view's answer, NaN standing for `null`. */
  function Pair(number: Dbl, signal: Option<Dbl>): (v: MacdValues)
    ensures v.macd == number
    ensures signal.None? ==> v.signal == NaN
    ensures signal.Some? ==> v.signal == signal.value
  {
    MacdValues(number, if signal.None? then NaN else signal.value)
  }

  /** `map`: `null` stays `null`; otherwise the value with the signal view's value, NaN if it has none. */
  function Map(s: Series, c: MacdConfig, k: Instant, number: Option<Dbl>): (r: Option<MacdValues>)
    requires Sorted(s) && ValidConfig(c)
    ensures r.None? <==> number.None?
    ensures r.Some? ==> r.value.macd == number.value
    ensures r.Some? && SignalAt(s, c, k).None? ==> r.value.signal == NaN
    ensures r.Some? && SignalAt(s, c, k).Some? ==> r.value.signal == SignalAt(s, c, k).value
  {
    if number.None? then None else Some(Pair(number.value, SignalAt(s, c, k)))
  }

  /** `getBase().get(instant)`'s value: the MACD line at `k`, `null` where the base holds nothing. */
  function LineAt(s: Series, c: MacdConfig, k: Instant): (r: Option<Dbl>)
    requires Sorted(s) && ValidConfig(c)
    ensures r.Some? <==> Contains(s, k)
    ensures r.Some? ==> r.value == Line(s, c)[IndexOf(s, k)].v
  {
    LineSorted(s, c);
    var l := Get(Line(s, c), k);
    if l.None? then None
    else
      LineGet(s, c, k);
      Some(l.value.v)
  }

  /** The line holds, at an instant of the base, the entry of the same rank. */
  lemma LineGet(s: Series, c: MacdConfig, k: Instant)
    requires Sorted(s) && ValidConfig(c) && Contains(s, k)
    ensures Sorted(Line(s, c)) && Get(Line(s, c), k) == Some(Line(s, c)[IndexOf(s, k)])
  {
    LineSorted(s, c);
    var i := IndexOf(s, k);
    IndexOfMember(Line(s, c), i);
  }

  /**
   * A base that stays at one value `x` does not diverge: once both averages
   * are defined the MACD line is 0.
   */
  lemma ConstantLine(s: Series, c: MacdConfig, i: nat, x: real)
    requires ValidConfig(c) && i < |s| && c.short <= i + 1 && c.long <= i + 1
    requires forall j | 0 <= j <= i :: s[j].v == Real(x)
    ensures Line(s, c)[i].v == Real(0.0)
  {
    EmaBounds(s, EmaConfig(c.short), i, x, x);
    EmaBounds(s, EmaConfig(c.long), i, x, x);
  }

  /**
   * ... and once `signal` shown values are there, the signal and the
   * histogram are 0 as well (the short period not exceeding the long one).
   */
  lemma ConstantSignal(s: Series, c: MacdConfig, i: nat, x: real)
    requires ValidConfig(c) && c.short <= c.long && i < |s| && c.long + c.signal <= i + 2
    requires forall j | 0 <= j <= i :: s[j].v == Real(x)
    ensures SignalRef(s, c, i) == Real(0.0)
    ensures Histogram(MacdValues(Line(s, c)[i].v, SignalRef(s, c, i))) == Real(0.0)
  {
    ConstantSignalRef(s, c, i, x);
    ConstantLine(s, c, i, x);
    assert Line(s, c)[i].v == Real(0.0);
  }

  /** The signal part of `ConstantSignal`: the signal average of a line of zeros is 0. */
  lemma {:induction false} ConstantSignalRef(s: Series, c: MacdConfig, i: nat, x: real)
    requires ValidConfig(c) && c.short <= c.long && i < |s| && c.long + c.signal <= i + 2
    requires forall j | 0 <= j <= i :: s[j].v == Real(x)
    ensures SignalRef(s, c, i) == Real(0.0)
  {
    ShownConstant(s, c, i - (c.long - 1), x);
    SignalRefShown(s, c, i, Shown(s, c));
    ZeroEma(Shown(s, c), EmaConfig(c.signal), i - (c.long - 1), SignalRef(s, c, i));
  }

  /** Past the hidden ranks the signal is the signal average of the shown line `d`. */
  lemma {:induction false} SignalRefShown(s: Series, c: MacdConfig, i: nat, d: Series)
    requires ValidConfig(c) && c.long - 1 <= i < |s| && d == Shown(s, c)
    ensures SignalRef(s, c, i) == EmaRef(d, EmaConfig(c.signal), i - (c.long - 1))
  {
  }

  /** An average of zeros, `a`, is zero. */
  lemma {:induction false} ZeroEma(d: Series, c: EmaConfig, n: nat, a: Dbl)
    requires c.length > 0 && c.length - 1 <= n < |d|
    requires forall j | 0 <= j <= n :: d[j].v == Real(0.0)
    requires a == EmaRef(d, c, n)
    ensures a == Real(0.0)
  {
    EmaBounds(d, c, n, 0.0, 0.0);
  }

  /** Over a base constant up to the rank `n + long - 1`, the shown line is 0 up to rank `n`. */
  lemma ShownConstant(s: Series, c: MacdConfig, n: nat, x: real)
    requires ValidConfig(c) && c.short <= c.long && n + c.long - 1 < |s|
    requires forall j | 0 <= j <= n + c.long - 1 :: s[j].v == Real(x)
    ensures n < |Shown(s, c)|
    ensures forall j | 0 <= j <= n :: Shown(s, c)[j].v == Real(0.0)
  {
    var d := Shown(s, c);
    forall j | 0 <= j <= n
      ensures d[j].v == Real(0.0)
    {
      assert d[j] == Line(s, c)[j + c.long - 1];
      ConstantLine(s, c, j + c.long - 1, x);
    }
  }

  /**
   * `onBaseUpdate`: nothing without a listener; otherwise the new MACD value
   * at the same instant, paired with `signal`, what `signalEma.get(instant)`
   * answers at that moment.
   *
   * That answer need not be the signal the view holds: the line registers on
   * the averages before the signal's skip view registers on the line, and an
   * `Ema` drops its checkpoints only when it is notified, so the signal
   * average may still answer from the checkpoints of before the update.
   */
  function OnBaseUpdate(hot: bool, k: Instant, newBaseValue: Option<Dbl>, signal: Option<Dbl>): (events: seq<Event<MacdValues>>)
    ensures !hot <==> events == []
    ensures hot ==> |events| == 1 && events[0].t == k && (events[0].value.None? <==> newBaseValue.None?)
    ensures hot && newBaseValue.Some? ==> events[0].value.value.macd == newBaseValue.value
    ensures hot && newBaseValue.Some? ==> events[0].value.value.signal == if signal.None? then NaN else signal.value
  {
    if !hot then [] else [Event(k, if newBaseValue.None? then None else Some(Pair(newBaseValue.value, signal)))]
  }

  /**
   * `onSignalEmaUpdate`: nothing without a listener; a `null` signal is passed
   * on; otherwise `line`, what `getBase().get(instant)` answers at that
   * moment, is dereferenced (failing where it is `null`) and mapped with
   * `signal`, what the signal view then answers.
   */
  function OnSignalUpdate(hot: bool, k: Instant, newValue: Option<Dbl>, line: Option<Dbl>, signal: Option<Dbl>): (r: Result<seq<Event<MacdValues>>>)
    ensures r.Err? <==> hot && newValue.Some? && line.None?
    ensures r.Err? ==> r.error == NullPointer
    ensures r.Ok? ==> (r.value == [] <==> !hot)
    ensures r.Ok? && hot && newValue.None? ==> r.value == [Event(k, None)]
    ensures r.Ok? && hot && newValue.Some? ==>
      r.value == [Event(k, Some(MacdValues(line.value, if signal.None? then NaN else signal.value)))]
  {
    if !hot then Ok([])
    else if newValue.None? then Ok([Event(k, None)])
    else if line.None? then Err(NullPointer)
    else Ok([Event(k, Some(Pair(line.value, signal)))])
  }

  /**
   * A base update carrying the MACD value at `k`, with that line value and the
   * signal view up to date, is signalled as the value the view answers there.
   * Neither need be: the line's first event after a base update comes from the
   * short `Ema`, while the long one still answers from its old checkpoints.
   */
  lemma BaseSignalAgrees(s: Series, c: MacdConfig, i: nat)
    requires Sorted(s) && ValidConfig(c) && i < |s|
    ensures OnBaseUpdate(true, s[i].t, Some(Line(s, c)[i].v), SignalAt(s, c, s[i].t)) == [Event(s[i].t, MacdAt(s, c, s[i].t))]
  {
    IndexOfMember(s, i);
    IndexOfMember(Line(s, c), i);
    SignalAtRank(s, c, i);
  }

  /**
   * With the line and the signal view up to date, a signal update is
   * signalled as the value the view answers at `k`, and fails exactly where
   * the base holds nothing.
   */
  lemma SignalUpdateAgrees(s: Series, c: MacdConfig, k: Instant, x: Dbl)
    requires Sorted(s) && ValidConfig(c)
    ensures OnSignalUpdate(true, k, Some(x), LineAt(s, c, k), SignalAt(s, c, k))
      == if Contains(s, k) then Ok([Event(k, MacdAt(s, c, k))]) else Err(NullPointer)
  {
    if Contains(s, k) {
      var i := IndexOf(s, k);
      IndexOfMember(s, i);
      IndexOfMember(Line(s, c), i);
      SignalAtRank(s, c, i);
    }
  }
}
