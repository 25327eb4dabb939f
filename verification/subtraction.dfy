/**
 * `Subtraction`: every base value less the subtrahend's value at the same
 * instant, or the base value alone where the subtrahend has none.
 *
 * The view listens to both timelines: a base update is mapped as usual, and a
 * subtrahend update is signalled at its instant if the base holds it.
 */
module Subtraction {
  import opened Outcomes
  import opened Timeline
  import opened Num

  /** `map`: `null` stays `null`; the subtrahend's value at the instant is taken off if it has one. */
  function Map(sub: Series, k: Instant, number: Option<Dbl>): (r: Option<Dbl>)
    requires Sorted(sub)
    ensures r.None? <==> number.None?
    ensures r.Some? && !Contains(sub, k) ==> r.value == number.value
  {
    if number.None? then None
    else
      var s := Get(sub, k);
      if s.None? then number else Some(Sub(number.value, s.value.v))
  }

  /** What the view answers at `k`: `null` where the base holds nothing. */
  function DifferenceAt(base: Series, sub: Series, k: Instant): (r: Option<Dbl>)
    requires Sorted(base) && Sorted(sub)
  {
    var b := Get(base, k);
    Map(sub, k, if b.None? then None else Some(b.value.v))
  }

  /**
   * The difference is there exactly where the base is, and it is the base's
   * value less the subtrahend's where both hold the instant.
   */
  lemma DifferenceValue(base: Series, sub: Series, i: nat, j: nat)
    requires Sorted(base) && Sorted(sub) && i < |base| && j < |sub| && base[i].t == sub[j].t
    ensures DifferenceAt(base, sub, base[i].t) == Some(Sub(base[i].v, sub[j].v))
  {
    GetIsMember(base, base[i]);
    GetIsMember(sub, sub[j]);
  }

  /** `onBaseUpdate`: nothing without a listener; otherwise the new base value, mapped, at its instant. */
  function OnBaseUpdate(sub: Series, hot: bool, k: Instant, newBaseValue: Option<Dbl>): (events: seq<Event<Dbl>>)
    requires Sorted(sub)
    ensures !hot <==> events == []
    ensures hot ==> |events| == 1 && events[0].t == k && (events[0].value.None? <==> newBaseValue.None?)
  {
    if !hot then [] else [Event(k, Map(sub, k, newBaseValue))]
  }

  /**
   * `onSubtrahendUpdate`: nothing without a listener or where the base holds
   * nothing; otherwise the base value less the new value, `null` counting as 0.
   */
  function OnSubtrahendUpdate(base: Series, hot: bool, k: Instant, newValue: Option<Dbl>): (events: seq<Event<Dbl>>)
    requires Sorted(base)
    ensures |events| <= 1
    ensures |events| == 1 <==> hot && Contains(base, k)
    ensures |events| == 1 ==> events[0].t == k && events[0].value.Some?
  {
    if !hot then []
    else
      var b := Get(base, k);
      if b.None? then []
      else
        var n := if newValue.None? then Real(0.0) else newValue.value;
        [Event(k, Some(Sub(b.value.v, n)))]
  }

  /**
   * A base update is signalled with the difference the view then answers:
   * after `put(k, v)` on the base, the event carries `DifferenceAt` at `k`.
   */
  lemma BaseSignalAgrees(base: Series, sub: Series, k: Instant, v: Dbl)
    requires Sorted(base) && Sorted(sub)
    ensures OnBaseUpdate(sub, true, k, Some(v)) == [Event(k, DifferenceAt(Insert(base, k, v), sub, k))]
  {
    InsertLookups(base, k, v, k);
  }

  /**
   * A subtrahend update is signalled with the difference the view then
   * answers: after `put(k, v)` on the subtrahend, the event carries
   * `DifferenceAt` at `k`.
   */
  lemma SubtrahendSignalAgrees(base: Series, sub: Series, k: Instant, v: Dbl)
    requires Sorted(base) && Sorted(sub) && Contains(base, k)
    ensures OnSubtrahendUpdate(base, true, k, Some(v)) == [Event(k, DifferenceAt(base, Insert(sub, k, v), k))]
  {
    InsertLookups(sub, k, v, k);
  }

  /**
   * A `null` from the subtrahend counts as 0, and subtracting 0 leaves the
   * base value, NaN or not: where the subtrahend holds nothing, the event
   * carries the difference the view answers.
   */
  lemma NullSubtrahendAgrees(base: Series, sub: Series, k: Instant)
    requires Sorted(base) && Sorted(sub) && Contains(base, k) && !Contains(sub, k)
    ensures OnSubtrahendUpdate(base, true, k, None) == [Event(k, DifferenceAt(base, sub, k))]
  {
  }
}
