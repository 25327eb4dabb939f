/**
 * `MappedTimeline` and `MapperTimeline`: a view that maps every element of a
 * base timeline one to one.
 *
 * The base is any timeline, given by its contents `s`; what it answers is what
 * the `Timeline` module's reference functions answer on `s`. The abstract
 * `map(instant, value)` is the function parameter `f`. Every query of the view
 * is shown equal to the same query on the eagerly mapped sequence `MapAll(f, s)`.
 */
module Mapped {
  import opened Outcomes
  import opened Timeline

  /** `export`: map the value of a base element, keeping its instant; `null` stays `null`. */
  function Export<T, R>(f: (Instant, T) -> R, o: Option<Stamped<T>>): Option<Stamped<R>>
  {
    if o.None? then None else Some(Stamped(o.value.t, f(o.value.t, o.value.v)))
  }

  /** The reference: every base element mapped, rank by rank. */
  function MapAll<T, R>(f: (Instant, T) -> R, s: seq<Stamped<T>>): (r: seq<Stamped<R>>)
    ensures SameInstants(s, r)
    ensures forall i | 0 <= i < |s| :: r[i].v == f(s[i].t, s[i].v)
  {
    seq(|s|, i requires 0 <= i < |s| => Stamped(s[i].t, f(s[i].t, s[i].v)))
  }

  /** Mapping keeps the order and the ranks, so it keeps `indexOf`. */
  lemma MapAllRanks<T, R>(f: (Instant, T) -> R, s: seq<Stamped<T>>, k: Instant)
    requires Sorted(s)
    ensures Sorted(MapAll(f, s))
    ensures IndexOf(MapAll(f, s), k) == IndexOf(s, k)
  {
    SameInstantsIndexOf(s, MapAll(f, s), k);
  }

  /** Exporting the base element at rank `i` gives the mapped element at rank `i`. */
  lemma ExportAt<T, R>(f: (Instant, T) -> R, s: seq<Stamped<T>>, i: int)
    ensures i < 0 || Export(f, if i < |s| then Some(s[i]) else None) == At(MapAll(f, s), i)
  {
  }

  function MappedFirst<T, R>(f: (Instant, T) -> R, s: seq<Stamped<T>>): (r: Option<Stamped<R>>)
    requires Sorted(s)
    ensures Sorted(MapAll(f, s)) && r == First(MapAll(f, s))
  {
    MapAllRanks(f, s, 0);
    Export(f, First(s))
  }

  function MappedLast<T, R>(f: (Instant, T) -> R, s: seq<Stamped<T>>): (r: Option<Stamped<R>>)
    requires Sorted(s)
    ensures Sorted(MapAll(f, s)) && r == Last(MapAll(f, s))
  {
    MapAllRanks(f, s, 0);
    Export(f, Last(s))
  }

  function MappedGet<T, R>(f: (Instant, T) -> R, s: seq<Stamped<T>>, k: Instant): (r: Option<Stamped<R>>)
    requires Sorted(s)
    ensures Sorted(MapAll(f, s)) && r == Get(MapAll(f, s), k)
  {
    MapAllRanks(f, s, k);
    Export(f, Get(s, k))
  }

  function MappedFloor<T, R>(f: (Instant, T) -> R, s: seq<Stamped<T>>, k: Instant): (r: Option<Stamped<R>>)
    requires Sorted(s)
    ensures Sorted(MapAll(f, s)) && r == Floor(MapAll(f, s), k)
  {
    MapAllRanks(f, s, k);
    Export(f, Floor(s, k))
  }

  function MappedCeiling<T, R>(f: (Instant, T) -> R, s: seq<Stamped<T>>, k: Instant): (r: Option<Stamped<R>>)
    requires Sorted(s)
    ensures Sorted(MapAll(f, s)) && r == Ceiling(MapAll(f, s), k)
  {
    MapAllRanks(f, s, k);
    Export(f, Ceiling(s, k))
  }

  function MappedLower<T, R>(f: (Instant, T) -> R, s: seq<Stamped<T>>, k: Instant): (r: Option<Stamped<R>>)
    requires Sorted(s)
    ensures Sorted(MapAll(f, s)) && r == Lower(MapAll(f, s), k)
  {
    MapAllRanks(f, s, k);
    Export(f, Lower(s, k))
  }

  function MappedHigher<T, R>(f: (Instant, T) -> R, s: seq<Stamped<T>>, k: Instant): (r: Option<Stamped<R>>)
    requires Sorted(s)
    ensures Sorted(MapAll(f, s)) && r == Higher(MapAll(f, s), k)
  {
    MapAllRanks(f, s, k);
    Export(f, Higher(s, k))
  }

  /** `get(int)`: the base's answer, exported; the base rejects a negative rank. */
  function MappedGetIndex<T, R>(f: (Instant, T) -> R, s: seq<Stamped<T>>, i: int): (r: Result<Option<Stamped<R>>>)
    ensures r == GetIndex(MapAll(f, s), i)
  {
    var b := GetIndex(s, i);
    if b.Err? then Err(b.error) else Ok(Export(f, b.value))
  }

  /** `indexOf` and `size` are the base's. */
  function MappedIndexOf<T, R>(f: (Instant, T) -> R, s: seq<Stamped<T>>, k: Instant): (r: int)
    requires Sorted(s)
    ensures Sorted(MapAll(f, s)) && r == IndexOf(MapAll(f, s), k)
  {
    MapAllRanks(f, s, k);
    IndexOf(s, k)
  }

  function MappedSize<T, R>(f: (Instant, T) -> R, s: seq<Stamped<T>>): (n: nat)
    ensures n == |MapAll(f, s)|
  {
    |s|
  }

  // The list iterator wraps the base's; its position is the base iterator's `nextIndex`.

  /** `listIterator(int)`: the view checks `0 <= i <= size()`, then opens the base's iterator at `i`. */
  function MappedListIterator<T, R>(f: (Instant, T) -> R, s: seq<Stamped<T>>, i: int): (r: Result<nat>)
    ensures r == ListStart(MapAll(f, s), i)
  {
    if 0 <= i <= MappedSize(f, s) then ListStart(s, i) else Err(IllegalArgument)
  }

  /** `listIterator(Instant)`: the iterator at `indexOf(instant)`, which fails for an absent instant. */
  function MappedListIteratorAt<T, R>(f: (Instant, T) -> R, s: seq<Stamped<T>>, k: Instant): (r: Result<nat>)
    requires Sorted(s)
    ensures r.Ok? <==> Contains(s, k)
    ensures r.Ok? ==> r.value < |s| && MapAll(f, s)[r.value].t == k
  {
    MappedListIterator(f, s, MappedIndexOf(f, s, k))
  }

  function MappedNext<T, R>(f: (Instant, T) -> R, s: seq<Stamped<T>>, pos: nat): (r: Result<Move<R>>)
    ensures r == ListNext(MapAll(f, s), pos)
  {
    var m := ListNext(s, pos);
    if m.Err? then Err(m.error) else Ok(Move(m.value.pos, Stamped(m.value.item.t, f(m.value.item.t, m.value.item.v))))
  }

  function MappedPrevious<T, R>(f: (Instant, T) -> R, s: seq<Stamped<T>>, pos: nat): (r: Result<Move<R>>)
    requires pos <= |s|
    ensures r == ListPrevious(MapAll(f, s), pos)
  {
    var m := ListPrevious(s, pos);
    if m.Err? then Err(m.error) else Ok(Move(m.value.pos, Stamped(m.value.item.t, f(m.value.item.t, m.value.item.v))))
  }

  /** The iterator position after an attempted change through it, and how the attempt ended. */
  datatype Attempt = Attempt(pos: nat, outcome: Outcome)

  /**
   * The iterator's `set` and `add` are not supported. They throw before
   * touching the base iterator, which goes on moving over the view from where
   * it was.
   */
  function MappedModify<T, R>(f: (Instant, T) -> R, s: seq<Stamped<T>>, pos: nat): (r: Attempt)
    ensures r.outcome == Fail(Unsupported)
    ensures MappedNext(f, s, r.pos) == ListNext(MapAll(f, s), pos)
    ensures pos <= |s| ==> r.pos <= |s| && MappedPrevious(f, s, r.pos) == ListPrevious(MapAll(f, s), pos)
  {
    Attempt(pos, Fail(Unsupported))
  }

  // `MapperTimeline`: a `MappedTimeline` whose `map` is a given function.

  /** The constructor taking a function of the value alone. */
  function Unary<T(!new), R>(g: T -> R): (f: (Instant, T) -> R)
    ensures forall k, x :: f(k, x) == g(x)
  {
    (k: Instant, x: T) => g(x)
  }

  /**
   * `onBaseUpdate`: nothing when no listener is registered (`hot` is
   * `hasListeners()`); otherwise one notification at the same instant with the
   * mapped value, or `null` when the base reports a removal.
   */
  function MapperOnBaseUpdate<T, R>(f: (Instant, T) -> R, hot: bool, k: Instant, newValue: Option<T>): (events: seq<Event<R>>)
    ensures !hot <==> events == []
    ensures hot ==> |events| == 1 && events[0].t == k && (events[0].value.None? <==> newValue.None?)
    ensures hot && newValue.Some? ==> events[0].value.value == f(k, newValue.value)
  {
    if !hot then [] else [Event(k, if newValue.None? then None else Some(f(k, newValue.value)))]
  }

  /**
   * A listener is told what the view now answers: after the base reports the
   * value at `k`, the notified value is what `get(k)` on the view returns.
   */
  lemma MapperNotifiesView<T, R>(f: (Instant, T) -> R, s: seq<Stamped<T>>, k: Instant, newValue: Option<T>)
    requires Sorted(s)
    requires newValue.Some? ==> Get(s, k) == Some(Stamped(k, newValue.value))
    requires newValue.None? ==> !Contains(s, k)
    ensures var g := MappedGet(f, s, k);
      MapperOnBaseUpdate(f, true, k, newValue) == [Event(k, if g.None? then None else Some(g.value.v))]
  {
  }
}
