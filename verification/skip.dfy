/**
 * `SkipTimeline`: a view of a base timeline without its first `skips` elements.
 *
 * As for the mapped views, the base is given by its contents `s`. The view's
 * reference is `Drop(s, skips)`, and every query the class answers by rank
 * arithmetic on the base is shown equal to the same query on that suffix.
 */
module Skip {
  import opened Outcomes
  import opened Timeline

  /** The constructor rejects a negative number of skips. */
  function NewSkip(skips: int): (r: Result<nat>)
    ensures r.Ok? <==> skips >= 0
    ensures r.Ok? ==> r.value == skips
    ensures r.Err? ==> r.error == IllegalArgument
  {
    if skips >= 0 then Ok(skips) else Err(IllegalArgument)
  }

  /** How many base elements are actually hidden: all of them when there are fewer than `skips`. */
  function Hidden<V>(s: seq<Stamped<V>>, skips: nat): (o: nat)
    ensures o <= |s| && o <= skips
    ensures o == skips || o == |s|
  {
    if skips <= |s| then skips else |s|
  }

  /** The reference: the base without its first `skips` elements. */
  function Drop<V>(s: seq<Stamped<V>>, skips: nat): (r: seq<Stamped<V>>)
    ensures |r| == |s| - Hidden(s, skips)
    ensures forall i | 0 <= i < |r| :: r[i] == s[i + skips]
    ensures Sorted(s) ==> Sorted(r)
  {
    s[Hidden(s, skips)..]
  }

  /** Where `k` would go in the suffix: its base insertion point, less `skips`, but not below 0. */
  lemma DropInsertionPoint<V>(s: seq<Stamped<V>>, skips: nat, k: Instant)
    requires Sorted(s)
    ensures InsertionPoint(Drop(s, skips), k) ==
      if InsertionPoint(s, k) >= skips then InsertionPoint(s, k) - skips else 0
  {
    var d := Drop(s, skips);
    var p := InsertionPoint(s, k);
    var q := if p >= skips then p - skips else 0;
    forall i | q <= i < |d|
      ensures k <= d[i].t
    {
      assert d[i] == s[i + skips];
    }
    InsertionPointUnique(d, k, q);
  }

  /** `indexOf`: the base's answer shifted down by `skips`; a hidden instant reads as absent in front. */
  function SkipIndexOf<V>(s: seq<Stamped<V>>, skips: nat, k: Instant): (r: int)
    requires Sorted(s)
    ensures r == IndexOf(Drop(s, skips), k)
  {
    DropInsertionPoint(s, skips, k);
    var i := IndexOf(s, k);
    if i < 0 then -Max(-i - 1 - skips, 0) - 1 else Max(i - skips, -1)
  }

  /** `Math.max` on `int`. */
  function Max(a: int, b: int): (m: int)
    ensures m >= a && m >= b && (m == a || m == b)
  {
    if a >= b then a else b
  }

  /** `size`. */
  function SkipSize<V>(s: seq<Stamped<V>>, skips: nat): (n: nat)
    ensures n == |Drop(s, skips)|
  {
    Max(|s| - skips, 0)
  }

  /** `get(int)`: a negative rank is rejected, otherwise the base element `skips` ranks further on. */
  function SkipGetIndex<V>(s: seq<Stamped<V>>, skips: nat, i: int): (r: Result<Option<Stamped<V>>>)
    ensures r == GetIndex(Drop(s, skips), i)
  {
    if i < 0 then Err(IllegalArgument) else GetIndex(s, i + skips)
  }

  /** `first()` is `get(0)`. */
  function SkipFirst<V>(s: seq<Stamped<V>>, skips: nat): (r: Option<Stamped<V>>)
    requires Sorted(s)
    ensures r == First(Drop(s, skips))
  {
    SkipGetIndex(s, skips, 0).value
  }

  /** `last()` is `get(max(size() - 1, 0))`. */
  function SkipLast<V>(s: seq<Stamped<V>>, skips: nat): (r: Option<Stamped<V>>)
    requires Sorted(s)
    ensures r == Last(Drop(s, skips))
  {
    SkipGetIndex(s, skips, Max(SkipSize(s, skips) - 1, 0)).value
  }

  /** `get(Instant)`: the base's element, unless the view's `indexOf` says it is hidden or absent. */
  function SkipGet<V>(s: seq<Stamped<V>>, skips: nat, k: Instant): (r: Option<Stamped<V>>)
    requires Sorted(s)
    ensures r == Get(Drop(s, skips), k)
  {
    if SkipIndexOf(s, skips, k) < 0 then None else Get(s, k)
  }

  /** The element the view returns for a rank computed by one of the rank helpers. */
  function SkipAtRank<V>(s: seq<Stamped<V>>, skips: nat, i: int): (r: Option<Stamped<V>>)
    ensures i < 0 ==> r.None?
    ensures 0 <= i < |Drop(s, skips)| ==> r == Some(Drop(s, skips)[i])
  {
    if i < 0 then None else SkipGetIndex(s, skips, i).value
  }

  function SkipFloor<V>(s: seq<Stamped<V>>, skips: nat, k: Instant): (r: Option<Stamped<V>>)
    requires Sorted(s)
    ensures r == Floor(Drop(s, skips), k)
  {
    SkipAtRank(s, skips, FloorIndexOf(SkipIndexOf(s, skips, k)))
  }

  function SkipCeiling<V>(s: seq<Stamped<V>>, skips: nat, k: Instant): (r: Option<Stamped<V>>)
    requires Sorted(s)
    ensures r == Ceiling(Drop(s, skips), k)
  {
    SkipAtRank(s, skips, CeilingIndexOf(SkipIndexOf(s, skips, k), SkipSize(s, skips)))
  }

  function SkipLower<V>(s: seq<Stamped<V>>, skips: nat, k: Instant): (r: Option<Stamped<V>>)
    requires Sorted(s)
    ensures r == Lower(Drop(s, skips), k)
  {
    SkipAtRank(s, skips, LowerIndexOf(SkipIndexOf(s, skips, k)))
  }

  function SkipHigher<V>(s: seq<Stamped<V>>, skips: nat, k: Instant): (r: Option<Stamped<V>>)
    requires Sorted(s)
    ensures r == Higher(Drop(s, skips), k)
  {
    SkipAtRank(s, skips, HigherIndexOf(SkipIndexOf(s, skips, k), SkipSize(s, skips)))
  }

  /** Timestamp lookups never return one of the hidden elements. */
  lemma LookupsSkipHidden<V>(s: seq<Stamped<V>>, skips: nat, k: Instant, j: nat)
    requires Sorted(s) && j < |s| && j < skips
    ensures SkipGet(s, skips, k) != Some(s[j]) && SkipFloor(s, skips, k) != Some(s[j])
    ensures SkipCeiling(s, skips, k) != Some(s[j]) && SkipLower(s, skips, k) != Some(s[j])
    ensures SkipHigher(s, skips, k) != Some(s[j])
  {
    var d := Drop(s, skips);
    forall e | e in d
      ensures e.t > s[j].t
    {
      var i :| 0 <= i < |d| && d[i] == e;
      assert e == s[i + skips];
    }
  }

  // Notifications.

  /**
   * `onBaseUpdate`, as written: the base now holds `s` and reported `value` at
   * `k`. An update at a visible rank is passed on; otherwise, once the base has
   * at least `skips` elements, the view signals the base element at rank
   * `skips - 1`.
   */
  function SkipOnBaseUpdate<V>(s: seq<Stamped<V>>, skips: nat, k: Instant, value: Option<V>): (events: seq<Event<V>>)
    requires Sorted(s)
    ensures |events| <= 1
    ensures IndexOf(s, k) >= skips ==> events == [Event(k, value)]
    ensures IndexOf(s, k) < skips ==> (|events| == 1 <==> 0 < skips <= |s|)
    ensures IndexOf(s, k) < skips && 0 < skips <= |s| ==> events == [Event(s[skips - 1].t, Some(s[skips - 1].v))]
  {
    var i := IndexOf(s, k);
    if i + 1 > skips then [Event(k, value)]
    else if skips > 0 && |s| >= skips then
      var t := At(s, skips - 1).value;
      [Event(t.t, Some(t.v))]
    else []
  }

  /** What a listener of the view should be told: an event at `k` carrying the view's value there. */
  ghost predicate ReportsView<V>(d: seq<Stamped<V>>, e: Event<V>)
    requires Sorted(d)
  {
    e.value.Some? && Get(d, e.t) == Some(Stamped(e.t, e.value.value))
  }

  /**
   * As written, a boundary event names an instant the view does not hold:
   * with one skip, putting a first element into an empty base signals that
   * element although the view is still empty.
   */
  lemma BoundaryEventOutsideView<V>(x: Stamped<V>)
    ensures SkipOnBaseUpdate([x], 1, x.t, Some(x.v)) == [Event(x.t, Some(x.v))]
    ensures Drop([x], 1) == [] && !ReportsView(Drop([x], 1), SkipOnBaseUpdate([x], 1, x.t, Some(x.v))[0])
  {
    assert [x][0].t == x.t;
    IndexOfMember([x], 0);
  }

  /**
   * The boundary signal a skip view evidently needs: when an update below the skip
   * boundary shifts the view, the element that enters the view, base rank
   * `skips`, is signalled, and nothing when there is none.
   */
  function SkipOnBaseUpdateFixed<V>(s: seq<Stamped<V>>, skips: nat, k: Instant, value: Option<V>): (events: seq<Event<V>>)
    requires Sorted(s)
    ensures |events| <= 1
    ensures IndexOf(s, k) >= skips ==> events == SkipOnBaseUpdate(s, skips, k, value)
    ensures IndexOf(s, k) < skips ==> (|events| == 1 <==> 0 < skips < |s|)
  {
    var i := IndexOf(s, k);
    if i + 1 > skips then [Event(k, value)]
    else if skips > 0 && |s| > skips then
      var t := At(s, skips).value;
      [Event(t.t, Some(t.v))]
    else []
  }

  /** Every boundary signal of the corrected view reports the view's own first element. */
  lemma FixedBoundaryReportsView<V>(s: seq<Stamped<V>>, skips: nat, k: Instant, value: Option<V>)
    requires Sorted(s) && IndexOf(s, k) < skips && 0 < skips < |s|
    ensures var events := SkipOnBaseUpdateFixed(s, skips, k, value);
      |events| == 1 && ReportsView(Drop(s, skips), events[0])
      && Some(Stamped(events[0].t, events[0].value.value)) == First(Drop(s, skips))
  {
    var d := Drop(s, skips);
    assert d[0] == s[skips];
    GetIsMember(d, d[0]);
  }

  /** An update at a visible rank is reported with the value the view now holds there. */
  lemma VisibleUpdateReportsView<V>(s: seq<Stamped<V>>, skips: nat, k: Instant, v: V)
    requires Sorted(s) && Get(s, k) == Some(Stamped(k, v)) && IndexOf(s, k) >= skips
    ensures SkipOnBaseUpdate(s, skips, k, Some(v)) == [Event(k, Some(v))]
    ensures ReportsView(Drop(s, skips), Event(k, Some(v)))
  {
    assert SkipGet(s, skips, k) == Get(s, k);
  }

  // The list iterator wraps the base's; its position is the base iterator's `nextIndex`.

  /** `listIterator(int)`, as written: the view checks the rank, then opens the base iterator at `i + skips`. */
  function SkipListIterator<V>(s: seq<Stamped<V>>, skips: nat, i: int): (r: Result<nat>)
    ensures r.Ok? <==> 0 <= i <= SkipSize(s, skips) && i + skips <= |s|
    ensures r.Ok? ==> r.value == i + skips
    ensures r.Err? ==> r.error == IllegalArgument
  {
    if !(0 <= i <= SkipSize(s, skips)) then Err(IllegalArgument) else ListStart(s, i + skips)
  }

  /**
   * As written, a view of a base shorter than `skips` cannot even be iterated:
   * `listIterator(0)` passes the view's own check and the base rejects rank `skips`.
   */
  lemma ShortBaseIteratorFails<V>(s: seq<Stamped<V>>, skips: nat)
    requires |s| < skips
    ensures 0 <= SkipSize(s, skips) && SkipListIterator(s, skips, 0) == Err(IllegalArgument)
  {
  }

  /** `nextIndex`, as written: the base iterator's, not shifted. */
  function SkipNextIndex(pos: nat): int
  {
    pos
  }

  /** `previousIndex`: the base iterator's, shifted by `skips`. */
  function SkipPreviousIndex(skips: nat, pos: nat): int
  {
    pos - 1 - skips
  }

  function SkipHasPrevious(skips: nat, pos: nat): (b: bool)
    ensures b <==> pos > skips
  {
    SkipPreviousIndex(skips, pos) >= 0
  }

  /** `previous`: refused before the first visible element, otherwise the base's. */
  function SkipPrevious<V>(s: seq<Stamped<V>>, skips: nat, pos: nat): (r: Result<Move<V>>)
    requires pos <= |s|
    ensures r.Ok? <==> pos > skips
    ensures r.Ok? ==> r == ListPrevious(s, pos)
    ensures r.Err? ==> r.error == NoSuchElement
  {
    if !SkipHasPrevious(skips, pos) then Err(NoSuchElement) else ListPrevious(s, pos)
  }

  /**
   * As written, `nextIndex` and `previousIndex` disagree whenever something is
   * skipped: a fresh iterator at rank `i` reports `nextIndex() == i + skips`.
   */
  lemma NextIndexNotShifted<V>(s: seq<Stamped<V>>, skips: nat, i: int)
    requires skips > 0 && SkipListIterator(s, skips, i).Ok?
    ensures SkipNextIndex(SkipListIterator(s, skips, i).value) == i + skips != i
    ensures SkipNextIndex(SkipListIterator(s, skips, i).value) != SkipPreviousIndex(skips, SkipListIterator(s, skips, i).value) + 1
  {
  }

  // The corrected iterator: every index is shifted by the number of elements actually hidden.

  /** `listIterator(int)`, corrected: opens the base iterator at `i` plus the hidden count. */
  function SkipListIteratorFixed<V>(s: seq<Stamped<V>>, skips: nat, i: int): (r: Result<nat>)
    ensures r.Ok? <==> 0 <= i <= SkipSize(s, skips)
    ensures r.Ok? ==> r.value == i + Hidden(s, skips)
    ensures r.Err? ==> r.error == IllegalArgument
  {
    if !(0 <= i <= SkipSize(s, skips)) then Err(IllegalArgument) else ListStart(s, i + Hidden(s, skips))
  }

  function SkipNextIndexFixed<V>(s: seq<Stamped<V>>, skips: nat, pos: nat): int
  {
    pos - Hidden(s, skips)
  }

  function SkipPreviousIndexFixed<V>(s: seq<Stamped<V>>, skips: nat, pos: nat): int
  {
    pos - Hidden(s, skips) - 1
  }

  function SkipPreviousFixed<V>(s: seq<Stamped<V>>, skips: nat, pos: nat): Result<Move<V>>
    requires pos <= |s|
  {
    if SkipPreviousIndexFixed(s, skips, pos) < 0 then Err(NoSuchElement) else ListPrevious(s, pos)
  }

  /**
   * The corrected iterator is a list iterator over `Drop(s, skips)`: at view
   * rank `d` (base position `d` plus the hidden count) it reports `nextIndex`
   * `d`, `previousIndex` `d - 1`, and `next` (the base iterator's own, which
   * the view passes through unchanged) and `previous` move as the list
   * iterator of the suffix does.
   */
  lemma FixedIteratorIsListIterator<V>(s: seq<Stamped<V>>, skips: nat, d: nat)
    requires d <= |Drop(s, skips)|
    ensures SkipListIteratorFixed(s, skips, d) == Ok(d + Hidden(s, skips))
    ensures SkipNextIndexFixed(s, skips, d + Hidden(s, skips)) == d
    ensures SkipPreviousIndexFixed(s, skips, d + Hidden(s, skips)) == d - 1
    ensures var r := ListNext(s, d + Hidden(s, skips));
      var m := ListNext(Drop(s, skips), d);
      r.Ok? == m.Ok? && (r.Ok? ==> r.value == Move(m.value.pos + Hidden(s, skips), m.value.item))
    ensures var r := SkipPreviousFixed(s, skips, d + Hidden(s, skips));
      var m := ListPrevious(Drop(s, skips), d);
      r.Ok? == m.Ok? && (r.Ok? ==> r.value == Move(m.value.pos + Hidden(s, skips), m.value.item))
  {
    var o := Hidden(s, skips);
    if d < |Drop(s, skips)| {
      assert Drop(s, skips)[d] == s[d + skips];
    }
    if d > 0 {
      assert Drop(s, skips)[d - 1] == s[d - 1 + skips];
    }
  }
}
