/**
 * `OrderStatsTreeTimeline`: the mutable, authoritative timeline.
 *
 * The state is the AVL tree, the modification counter the cursors compare
 * against, and the listener registry inherited from `NotificationBaseTimeline`.
 * Which listeners throw during a notification is a parameter of `put`.
 */
module OrderStatsTimeline {
  import opened Outcomes
  import opened Timeline
  import opened OrderStatsTree
  import opened Notification

  datatype TreeTimeline<+V> = TreeTimeline(root: Tree<V>, modCount: int, notifier: Notifier)

  ghost predicate Wf<V>(tl: TreeTimeline<V>)
  {
    Valid(tl.root)
  }

  /** The timeline's elements in rank order. */
  function Contents<V>(tl: TreeTimeline<V>): seq<Stamped<V>>
  {
    Elements(tl.root)
  }

  function NewTimeline<V>(): (tl: TreeTimeline<V>)
    ensures Wf(tl) && Contents(tl) == [] && !HasListeners(tl.notifier)
  {
    TreeTimeline(Nil, 0, NewNotifier())
  }

  /** The result of a `put`: the new state, the listeners called, and how the call ended. */
  datatype Update<+V> = Update(after: TreeTimeline<V>, called: seq<ListenerId>, outcome: Outcome)

  /**
   * `put` as written: bump the counter, insert into the tree, then notify.
   * The tree is changed before the notifier can reject a re-entrant call.
   */
  function PutAsWritten<V>(tl: TreeTimeline<V>, k: Instant, v: V, throwing: set<ListenerId>): (u: Update<V>)
    requires Wf(tl)
    ensures Wf(u.after) && Sorted(Contents(tl))
    ensures Contents(u.after) == Insert(Contents(tl), k, v)
    ensures u.after.modCount == tl.modCount + 1
    ensures u.outcome == Deliver(tl.notifier, throwing).outcome
  {
    var d := Deliver(tl.notifier, throwing);
    Update(TreeTimeline(OrderStatsTree.Put(tl.root, k, v), tl.modCount + 1, d.after), d.called, d.outcome)
  }

  /**
   * `put` as evidently intended: a re-entrant call is rejected before anything
   * changes, and the notifier's flag is cleared however delivery ends.
   */
  function Put<V>(tl: TreeTimeline<V>, k: Instant, v: V, throwing: set<ListenerId>): (u: Update<V>)
    requires Wf(tl)
    ensures Wf(u.after) && Sorted(Contents(tl))
    ensures tl.notifier.isNotifying ==> u == Update(tl, [], Fail(IllegalState))
    ensures !tl.notifier.isNotifying ==>
      && Contents(u.after) == Insert(Contents(tl), k, v)
      && u.after.modCount == tl.modCount + 1
      && u.called == Deliver(tl.notifier, throwing).called
      && u.outcome == Deliver(tl.notifier, throwing).outcome
      && !u.after.notifier.isNotifying
  {
    ValidFacts(tl.root);
    if tl.notifier.isNotifying then Update(tl, [], Fail(IllegalState))
    else
      var d := DeliverGuarded(tl.notifier, throwing);
      Update(TreeTimeline(OrderStatsTree.Put(tl.root, k, v), tl.modCount + 1, d.after), d.called, d.outcome)
  }

  /** As written, a re-entrant `put` of a new instant fails and still changes the contents. */
  lemma ReentrantPutAsWrittenChangesContents<V>(tl: TreeTimeline<V>, k: Instant, v: V, throwing: set<ListenerId>)
    requires Wf(tl) && tl.notifier.isNotifying && !Contains(Contents(tl), k)
    ensures PutAsWritten(tl, k, v, throwing).outcome == Fail(IllegalState)
    ensures Contents(PutAsWritten(tl, k, v, throwing).after) != Contents(tl)
  {
    var u := PutAsWritten(tl, k, v, throwing);
    assert |Contents(u.after)| == |Contents(tl)| + 1;
  }

  /** A re-entrant `put` changes nothing at all. */
  lemma ReentrantPutRejected<V>(tl: TreeTimeline<V>, k: Instant, v: V, throwing: set<ListenerId>)
    requires Wf(tl) && tl.notifier.isNotifying
    ensures Put(tl, k, v, throwing).after == tl
    ensures Put(tl, k, v, throwing).outcome == Fail(IllegalState)
  {
  }

  /** After `put`, the instant holds the new value and every other lookup is as before. */
  lemma PutThenGet<V>(tl: TreeTimeline<V>, k: Instant, v: V, throwing: set<ListenerId>, k': Instant)
    requires Wf(tl) && !tl.notifier.isNotifying
    ensures GetEntry(Put(tl, k, v, throwing).after.root, k) == Some(Stamped(k, v))
    ensures k' != k ==> GetEntry(Put(tl, k, v, throwing).after.root, k') == GetEntry(tl.root, k')
  {
    ValidFacts(tl.root);
    InsertLookups(Contents(tl), k, v, k');
  }

  /** `size`. */
  function Size<V>(tl: TreeTimeline<V>): (n: int)
    requires Wf(tl)
    ensures n == |Contents(tl)|
  {
    ValidFacts(tl.root);
    SizeOf(tl.root)
  }

  /** `get(int)`: a negative rank is rejected; a rank past the end yields nothing. */
  function GetAt<V>(tl: TreeTimeline<V>, i: int): (r: Result<Option<Stamped<V>>>)
    requires Wf(tl)
    ensures r.Ok? <==> i >= 0
    ensures r.Err? ==> r.error == IllegalArgument
    ensures r.Ok? ==> (r.value.Some? <==> i < |Contents(tl)|)
    ensures r.Ok? && r.value.Some? ==> r.value.value == Contents(tl)[i]
  {
    if i >= 0 then Ok(Select(tl.root, i)) else Err(IllegalArgument)
  }

  // The list cursor. Java keeps `nextIndex` and `previousIndex` in two fields
  // that always differ by one; the model keeps `nextIndex` only.

  datatype Cursor<+V> = Cursor(expectedModCount: int, previous: Option<Stamped<V>>, next: Option<Stamped<V>>, nextIndex: nat)

  function PreviousIndex<V>(c: Cursor<V>): int
  {
    c.nextIndex - 1
  }

  /**
   * What the cached entries mean: `next` is the element last returned by
   * `next()` (rank `previousIndex`), `previous` the one last returned by
   * `previous()` (rank `nextIndex`), and at most one of them is held.
   */
  ghost predicate CursorInv<V>(s: seq<Stamped<V>>, c: Cursor<V>)
  {
    && c.nextIndex <= |s|
    && !(c.previous.Some? && c.next.Some?)
    && (c.next.Some? ==> 1 <= c.nextIndex && c.next.value == s[c.nextIndex - 1])
    && (c.previous.Some? ==> c.nextIndex < |s| && c.previous.value == s[c.nextIndex])
  }

  /** `listIterator(int)`: a cursor before rank `i`, for `0 <= i <= size()`. */
  function ListIterator<V>(tl: TreeTimeline<V>, i: int): (r: Result<Cursor<V>>)
    requires Wf(tl)
    ensures r.Ok? <==> 0 <= i <= |Contents(tl)|
    ensures r.Err? ==> r.error == IllegalArgument
    ensures r.Ok? ==> r.value.nextIndex == i && PreviousIndex(r.value) == i - 1
    ensures r.Ok? ==> CursorInv(Contents(tl), r.value) && r.value.expectedModCount == tl.modCount
  {
    if 0 <= i <= Size(tl) then Ok(Cursor(tl.modCount, None, None, i)) else Err(IllegalArgument)
  }

  /** `listIterator(Instant)`: a cursor before the element at `k`; an absent instant is rejected. */
  function ListIteratorAt<V>(tl: TreeTimeline<V>, k: Instant): (r: Result<Cursor<V>>)
    requires Wf(tl)
    ensures r.Ok? <==> Contains(Contents(tl), k)
    ensures r.Ok? ==> r.value.nextIndex < |Contents(tl)| && Contents(tl)[r.value.nextIndex].t == k
    ensures r.Ok? ==> CursorInv(Contents(tl), r.value) && r.value.expectedModCount == tl.modCount
  {
    ListIterator(tl, Rank(tl.root, k))
  }

  /** The result of a cursor move: the moved cursor and the element handed out. */
  datatype Step<+V> = Step(cursor: Cursor<V>, item: Option<Stamped<V>>)

  function HasNext<V>(tl: TreeTimeline<V>, c: Cursor<V>): bool
    requires Wf(tl)
  {
    c.nextIndex < Size(tl)
  }

  function HasPrevious<V>(c: Cursor<V>): bool
  {
    PreviousIndex(c) >= 0
  }

  /** `ListIteratorImpl.next`: the stale check comes first, then the end check. */
  function Next<V>(tl: TreeTimeline<V>, c: Cursor<V>): Result<Step<V>>
    requires Wf(tl)
  {
    if tl.modCount != c.expectedModCount then Err(ConcurrentModification)
    else if !HasNext(tl, c) then Err(NoSuchElement)
    else
      var n :=
        if c.previous.Some? then c.previous
        else if c.next.Some? then HigherEntry(tl.root, c.next.value.t, false)
        else Select(tl.root, c.nextIndex);
      Ok(Step(Cursor(c.expectedModCount, None, n, c.nextIndex + 1), n))
  }

  /** `ListIteratorImpl.previous`. */
  function Previous<V>(tl: TreeTimeline<V>, c: Cursor<V>): Result<Step<V>>
    requires Wf(tl)
  {
    if tl.modCount != c.expectedModCount then Err(ConcurrentModification)
    else if !HasPrevious(c) then Err(NoSuchElement)
    else
      var p :=
        if c.previous.Some? then LowerEntry(tl.root, c.previous.value.t, false)
        else if c.next.Some? then c.next
        else Select(tl.root, c.nextIndex - 1);
      var n := if c.previous.Some? then c.next else None;
      Ok(Step(Cursor(c.expectedModCount, p, n, c.nextIndex - 1), p))
  }

  /** The timeline and cursor after an attempted change through the cursor, and how the attempt ended. */
  datatype Modified<+V> = Modified(tree: TreeTimeline<V>, cursor: Cursor<V>, outcome: Outcome)

  /**
   * `remove`, `set` and `add` on the cursor: never supported. The call throws
   * before touching anything, so the timeline keeps its contents and
   * modification count and the cursor moves on from where it was.
   */
  function Modify<V>(tl: TreeTimeline<V>, c: Cursor<V>): (r: Modified<V>)
    requires Wf(tl)
    ensures r.outcome == Fail(Unsupported)
    ensures Wf(r.tree) && Contents(r.tree) == Contents(tl) && r.tree.modCount == tl.modCount
    ensures Next(r.tree, r.cursor) == Next(tl, c) && Previous(r.tree, r.cursor) == Previous(tl, c)
  {
    Modified(tl, c, Fail(Unsupported))
  }

  /**
   * The tree cursor behaves like `java.util.List`'s cursor over the contents:
   * `next()` hands out the element at `nextIndex` and moves right, or fails
   * exactly when there is none.
   */
  lemma NextAgreesWithList<V>(tl: TreeTimeline<V>, c: Cursor<V>)
    requires Wf(tl) && CursorInv(Contents(tl), c) && c.expectedModCount == tl.modCount
    ensures Next(tl, c).Ok? <==> c.nextIndex < |Contents(tl)|
    ensures Next(tl, c).Err? ==> Next(tl, c).error == NoSuchElement
    ensures Next(tl, c).Ok? ==>
      && Next(tl, c).value.item == Some(Contents(tl)[c.nextIndex])
      && Next(tl, c).value.cursor.nextIndex == c.nextIndex + 1
      && Next(tl, c).value.cursor.expectedModCount == c.expectedModCount
      && CursorInv(Contents(tl), Next(tl, c).value.cursor)
  {
    ValidFacts(tl.root);
    if c.nextIndex < |Contents(tl)| {
      NextItem(tl, c);
    }
  }

  /** The element `next()` fetches, by whichever of its three routes, is the one at `nextIndex`. */
  lemma NextItem<V>(tl: TreeTimeline<V>, c: Cursor<V>)
    requires Wf(tl) && CursorInv(Contents(tl), c) && c.nextIndex < |Contents(tl)|
    ensures (if c.previous.Some? then c.previous
      else if c.next.Some? then HigherEntry(tl.root, c.next.value.t, false)
      else Select(tl.root, c.nextIndex)) == Some(Contents(tl)[c.nextIndex])
  {
    ValidFacts(tl.root);
    if c.previous.None? && c.next.Some? {
      HigherOfMember(Contents(tl), c.nextIndex - 1);
    }
  }

  /** `previous()` hands out the element at `previousIndex` and moves left, or fails exactly at the start. */
  lemma PreviousAgreesWithList<V>(tl: TreeTimeline<V>, c: Cursor<V>)
    requires Wf(tl) && CursorInv(Contents(tl), c) && c.expectedModCount == tl.modCount
    ensures Previous(tl, c).Ok? <==> c.nextIndex >= 1
    ensures Previous(tl, c).Err? ==> Previous(tl, c).error == NoSuchElement
    ensures Previous(tl, c).Ok? ==>
      && Previous(tl, c).value.item == Some(Contents(tl)[c.nextIndex - 1])
      && Previous(tl, c).value.cursor.nextIndex == c.nextIndex - 1
      && Previous(tl, c).value.cursor.expectedModCount == c.expectedModCount
      && CursorInv(Contents(tl), Previous(tl, c).value.cursor)
  {
    ValidFacts(tl.root);
    var s := Contents(tl);
    if c.nextIndex >= 1 && c.previous.Some? {
      LowerOfMember(s, c.nextIndex);
    }
  }

  /** `previous()` right after `next()` hands back the same element and restores the position. */
  lemma NextThenPrevious<V>(tl: TreeTimeline<V>, c: Cursor<V>)
    requires Wf(tl) && CursorInv(Contents(tl), c) && c.expectedModCount == tl.modCount
    requires c.nextIndex < |Contents(tl)|
    ensures Next(tl, c).Ok?
    ensures Previous(tl, Next(tl, c).value.cursor).Ok?
    ensures Previous(tl, Next(tl, c).value.cursor).value.item == Next(tl, c).value.item
    ensures Previous(tl, Next(tl, c).value.cursor).value.cursor.nextIndex == c.nextIndex
  {
    NextAgreesWithList(tl, c);
    PreviousAgreesWithList(tl, Next(tl, c).value.cursor);
  }

  /** Any `put` makes every earlier cursor fail, in both directions. */
  lemma StaleCursorFails<V>(tl: TreeTimeline<V>, c: Cursor<V>, k: Instant, v: V, throwing: set<ListenerId>)
    requires Wf(tl) && c.expectedModCount == tl.modCount && !tl.notifier.isNotifying
    ensures Next(Put(tl, k, v, throwing).after, c) == Err(ConcurrentModification)
    ensures Previous(Put(tl, k, v, throwing).after, c) == Err(ConcurrentModification)
  {
  }

  /** `iterator()`: walking `next()` from `listIterator(0)` yields the contents in rank order. */
  method Collect<V>(tl: TreeTimeline<V>) returns (items: seq<Stamped<V>>)
    requires Wf(tl)
    ensures items == Contents(tl)
  {
    var start := ListIterator(tl, 0);
    var c := start.value;
    items := [];
    while HasNext(tl, c)
      invariant CursorInv(Contents(tl), c) && c.expectedModCount == tl.modCount
      invariant items == Contents(tl)[..c.nextIndex]
      decreases |Contents(tl)| - c.nextIndex
    {
      NextAgreesWithList(tl, c);
      var step := Next(tl, c).value;
      items := items + [step.item.value];
      c := step.cursor;
    }
    assert Contents(tl)[..c.nextIndex] == Contents(tl);
  }
}
