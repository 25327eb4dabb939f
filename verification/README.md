# charting — timelines and indicators, modelled in Dafny

`charting` is a Java charting library built around the **timeline**. A
timeline is an ordered map from instants to values that notifies listeners
whenever an instant changes. The one stored implementation is
`OrderStatsTreeTimeline`, an AVL tree that also keeps subtree sizes. On top of
it sit views:

- `MappedTimeline` maps every element of a base timeline and forwards lookups
  to it. `MapperTimeline` is the variant that applies a given function.
- `SkipTimeline` hides the first `n` elements of its base.
- The technical indicators are views too: `Sum`, `Sma`, `Ema`,
  `StandardDeviation`, `BollingerBands`, `Subtraction`, `Macd`, `TrueRange`,
  `Atr` and `TypicalPrice`. Each answers lookups from its base and re-signals
  the instants a base update changes.

Outside the timelines, the library has candles (`DoubleCandle`), the day-based
time axis (`InterDayTimeAxisPosConverter`) and the 1- and 2-dimensional ranges
the chart uses to convert coordinates (`Range`, `Range2D`).

## How the Java is modelled

**Timeline contents.** Every timeline's contents are a strictly increasing
`seq<Stamped<V>>` (module `Timeline`). Each lookup (`get`, `floor`, `ceiling`,
`lower`, `higher`, `first`, `last`, `indexOf` and the `*IndexOf` defaults) is a
function on that sequence. Its contract describes the answer by membership and
order, and a uniqueness lemma shows that the description determines it.
`Insert` is the content semantics of `put`.

**Instants and doubles.**
- An instant is an `int` nanosecond count.
- A `double` is `Num.Dbl`, which is `NaN` or `Real(x)` with `x` an exact real. NaN
  propagates through arithmetic as in IEEE 754; rounding is not modelled.
- A Java `null` is `Option.None`.

**Failures.** Exceptions are `Result`/`Outcome` values:
- a failed precondition is `IllegalArgument`;
- the re-entrancy guard is `IllegalState`;
- an exhausted iterator is `NoSuchElement`;
- a stale iterator is `ConcurrentModification`;
- a null dereference is `NullPointer`.
- `long` overflow in `Math.multiplyExact`/`addExact` is `Arithmetic`, and an `Instant` out of range is `DateTime`.

**The tree.** `OrderStatsTree` is a functional AVL tree with stored sizes and
heights. `Put`, `Balance`, the rotations, `rank`, `select`, `get`,
`lower`/`higher` (inclusive or strict) and `first`/`last` are proved against
the in-order sequence.

The Java iterator finds a neighbour by walking parent pointers
(`getSuccessor`/`getPredecessor`). The model uses the strict `higher`/`lower`
search from the root instead. Both return the in-order neighbour.

**Listeners.**
- `NotificationBaseTimeline` is `Notification.Notifier`: a list of strong and
  weak registrations plus the `isNotifying` flag.
- Which listeners throw is a parameter of the delivery.
- What a listener does when called is not modelled.

**Views.** A view (`Mapped`, `Skip`, each indicator) is a set of functions of
the base's contents. `hot` stands for `hasListeners()`. The events a listener
receives are a `seq<Event<V>>`. A composite view reads its inner views while
it is being notified, and listeners are called in the order they registered:
the outer view registers on the shared base before its inner `Sum` or `Ema`
does, so the inner cache it reads may still be the one from before the
update. The model makes that cache an explicit argument (`StandardDeviation`,
`Bollinger`) or makes the value read a parameter (`Macd`), and states
separately what is signalled when the inner view is up to date.

**Caches.** `Sum`'s cache and `Ema`'s checkpoints are explicit maps. A
`CacheValid`/`Valid` invariant relates every cached entry to an independent
reference definition: the window sum and the EMA recurrence. Every operation is
proved to keep that invariant.

**Reading the source.** Where the documentation and the code differ, the model
follows the code:
- `Timeline.indexOf` is documented to return -1 for an absent instant. The
  implementation returns `-(insertion point) - 1`, and the `floorIndexOf` …
  `higherIndexOf` defaults rely on that.
- `TrueRange`'s class comment gives `abs(close - previous high)`. The code
  computes the standard `max(h - l, |h - cp|, |l - cp|)`.
- The unit tests of `ceilingIndexOf` and `higherIndexOf` expect `-3` for an
  instant after every element of a two-element timeline. The default methods
  return -1 there (`i == -size() - 1`), as their documentation says, and the
  model returns -1.

## Model

| member | source | states |
|---|---|---|
| Timeline.IndexOf | src/main/java/charting/timeline/OrderStatsTreeTimeline.java:248-265 | a non-negative answer is the rank whose instant is `k`; a negative answer `-p-1` encodes the insertion point `p`: every element before `p` is earlier than `k`, every element from `p` on is later |
| Timeline.FloorIndex | src/main/java/charting/timeline/Timeline.java:76-84 | the decoded index is -1 or a rank at or before `k`, and every later rank is after `k` |
| Timeline.CeilingIndex | src/main/java/charting/timeline/Timeline.java:90-102 | -1 exactly when every element is before `k`; otherwise the first rank at or after `k` |
| Timeline.LowerIndex | src/main/java/charting/timeline/Timeline.java:108-120 | -1 or a rank strictly before `k`, with every later rank at or after `k` |
| Timeline.HigherIndex | src/main/java/charting/timeline/Timeline.java:126-139 | -1 exactly when no element is after `k`; otherwise the first rank strictly after `k` |
| Timeline.Get | src/main/java/charting/timeline/Timeline.java:18 | present exactly when some element has instant `k`, and then it is that element |
| Timeline.Floor | src/main/java/charting/timeline/Timeline.java:23 | absent exactly when every element is after `k`; otherwise a member at or before `k` that no member at or before `k` exceeds |
| Timeline.Ceiling | src/main/java/charting/timeline/Timeline.java:28 | absent exactly when every element is before `k`; otherwise the least member at or after `k` |
| Timeline.Lower | src/main/java/charting/timeline/Timeline.java:33 | absent exactly when no element is before `k`; otherwise the greatest member strictly before `k` |
| Timeline.Higher | src/main/java/charting/timeline/Timeline.java:38 | absent exactly when no element is after `k`; otherwise the least member strictly after `k` |
| Timeline.First | src/main/java/charting/timeline/Timeline.java:11 | absent exactly for an empty timeline; otherwise a member no member precedes |
| Timeline.Last | src/main/java/charting/timeline/Timeline.java:13 | absent exactly for an empty timeline; otherwise a member no member follows |
| Timeline.IsEmpty | src/main/java/charting/timeline/Timeline.java:143-145 | true exactly when no instant is contained, and, for a sorted timeline, exactly when `first()` and `last()` are both null |
| Timeline.FloorUnique | src/main/java/charting/timeline/Timeline.java:23 | any answer meeting `floor`'s description is `floor`'s answer, so the description pins it down |
| Timeline.CeilingUnique | src/main/java/charting/timeline/Timeline.java:28 | any answer meeting `ceiling`'s description is `ceiling`'s answer |
| Timeline.LowerUnique | src/main/java/charting/timeline/Timeline.java:33 | any answer meeting `lower`'s description is `lower`'s answer |
| Timeline.HigherUnique | src/main/java/charting/timeline/Timeline.java:38 | any answer meeting `higher`'s description is `higher`'s answer |
| Timeline.GetIsMember | src/main/java/charting/timeline/Timeline.java:18 | an entry is in the timeline exactly when `get` of its instant returns it |
| Timeline.IndexOfMember | src/main/java/charting/timeline/Timeline.java:67-70 | `indexOf` of the instant at rank `i` is `i` |
| Timeline.Insert | src/main/java/charting/timeline/OrderStatsTreeTimeline.java:89-122 | `put` keeps the contents strictly ordered, contains the new entry, drops only the old entry at the same instant, and grows by one exactly when the instant was new |
| Timeline.InsertRanks | src/main/java/charting/timeline/OrderStatsTreeTimeline.java:89-122 | after `put`, ranks before the insertion point are unchanged, the new entry sits at the insertion point, and later ranks shift by one exactly when the instant was new |
| Timeline.InsertLookups | src/main/java/charting/timeline/OrderStatsTreeTimeline.java:17-21 | after `put(k, v)`, `get(k)` returns `(k, v)` and `get` of every other instant is unchanged |
| Timeline.GetIndex | src/main/java/charting/timeline/OrderStatsTreeTimeline.java:59-62 | a negative rank fails with IllegalArgument; otherwise the element at that rank, or null past the end |
| Timeline.ListStart | src/main/java/charting/timeline/OrderStatsTreeTimeline.java:65-68 | an iterator can be opened exactly at positions 0 to `size`, at that position; other positions fail with IllegalArgument |
| Timeline.ListNext | src/main/java/charting/timeline/OrderStatsTreeTimeline.java:454-475 | `next` succeeds exactly before the end, returns the element at the cursor and advances it; at the end it fails with NoSuchElement |
| Timeline.ListPrevious | src/main/java/charting/timeline/OrderStatsTreeTimeline.java:478-499 | `previous` succeeds exactly after the start, returns the element before the cursor and moves back; at the start it fails with NoSuchElement |
| Timeline.ListNextPrevious | src/main/java/charting/timeline/OrderStatsTreeTimeline.java:454-499 | `previous` right after `next` returns the same element and restores the position |
| Timeline.HigherAfter | src/main/java/charting/timeline/Timeline.java:38 | `higher(k)` is the element at the first rank after every element at or before `k`, which is what a walk by repeated `higher` visits |
| OrderStatsTree.ValidFacts | src/main/java/charting/timeline/OrderStatsTreeTimeline.java:375-418 | a tree with the search-tree order, stored sizes and AVL heights has a strictly increasing in-order sequence whose length is the root's size |
| OrderStatsTree.BalanceSpec | src/main/java/charting/timeline/OrderStatsTreeTimeline.java:132-148 | from a node whose subtrees differ in height by at most two, `balance` gives a valid AVL tree with the same in-order elements and size, no taller than the node and no lower than its taller subtree, and leaves an already balanced node unchanged |
| OrderStatsTree.BalanceRightDouble | src/main/java/charting/timeline/OrderStatsTreeTimeline.java:132-204 | the right-left double rotation restores the AVL invariant, keeps the elements and has the height of the old right subtree |
| OrderStatsTree.BalanceRightSingle | src/main/java/charting/timeline/OrderStatsTreeTimeline.java:132-204 | the single left rotation restores the AVL invariant, keeps the elements and is at most one taller than the old right subtree |
| OrderStatsTree.BalanceLeftDouble | src/main/java/charting/timeline/OrderStatsTreeTimeline.java:132-204 | the left-right double rotation restores the AVL invariant, keeps the elements and has the height of the old left subtree |
| OrderStatsTree.BalanceLeftSingle | src/main/java/charting/timeline/OrderStatsTreeTimeline.java:132-204 | the single right rotation restores the AVL invariant, keeps the elements and is at most one taller than the old left subtree |
| OrderStatsTree.Put | src/main/java/charting/timeline/OrderStatsTreeTimeline.java:89-122 | insertion keeps the AVL and size invariants, its in-order sequence is `Insert` of the old one, the height grows by at most one, and replacing a value leaves the height unchanged |
| OrderStatsTree.Rank | src/main/java/charting/timeline/OrderStatsTreeTimeline.java:248-265 | `rank` is `indexOf` of the in-order sequence, including the negative insertion-point encoding for an absent key |
| OrderStatsTree.GetEntry | src/main/java/charting/timeline/OrderStatsTreeTimeline.java:267-283 | the tree search answers `get` of the in-order sequence |
| OrderStatsTree.Select | src/main/java/charting/timeline/OrderStatsTreeTimeline.java:285-301 | `select(i)` is the element of in-order rank `i`, or null past the end |
| OrderStatsTree.FirstEntry | src/main/java/charting/timeline/OrderStatsTreeTimeline.java:367-373 | the leftmost node is the first element of the in-order sequence |
| OrderStatsTree.LastEntry | src/main/java/charting/timeline/OrderStatsTreeTimeline.java:359-365 | the rightmost node is the last element of the in-order sequence |
| OrderStatsTree.LowerEntry | src/main/java/charting/timeline/OrderStatsTreeTimeline.java:210-227 | the inclusive search is `floor` and the strict one is `lower` of the in-order sequence |
| OrderStatsTree.HigherEntry | src/main/java/charting/timeline/OrderStatsTreeTimeline.java:229-246 | the inclusive search is `ceiling` and the strict one is `higher` of the in-order sequence |
| OrderStatsTimeline.NewTimeline | src/main/java/charting/timeline/OrderStatsTreeTimeline.java:12-15 | a new timeline is well formed, empty and has no listeners |
| OrderStatsTimeline.PutAsWritten | src/main/java/charting/timeline/OrderStatsTreeTimeline.java:17-21 | `put` as written: the contents become `Insert` of the old ones and `modCount` grows, whatever the notification's outcome |
| OrderStatsTimeline.ReentrantPutAsWrittenChangesContents | src/main/java/charting/timeline/OrderStatsTreeTimeline.java:17-21 | a `put` of a new instant from inside a notification fails with IllegalState yet has already changed the contents |
| OrderStatsTimeline.Put | src/main/java/charting/timeline/OrderStatsTreeTimeline.java:17-21 | corrected `put`: a re-entrant call fails with IllegalState and changes nothing; otherwise the contents become `Insert` of the old ones, `modCount` grows, the listeners are called as `onUpdate` calls them and the flag is clear afterwards |
| OrderStatsTimeline.ReentrantPutRejected | src/main/java/charting/timeline/OrderStatsTreeTimeline.java:17-21 | with the check first, a re-entrant `put` leaves the timeline exactly as it was |
| OrderStatsTimeline.PutThenGet | src/main/java/charting/timeline/OrderStatsTreeTimeline.java:34-36 | after `put(k, v)`, `get(k)` finds `(k, v)` in the tree and every other instant's entry is unchanged |
| OrderStatsTimeline.Size | src/main/java/charting/timeline/OrderStatsTreeTimeline.java:81-83 | the root's size is the number of entries |
| OrderStatsTimeline.GetAt | src/main/java/charting/timeline/OrderStatsTreeTimeline.java:59-62 | a negative rank fails with IllegalArgument; otherwise the entry of that rank, or null past the end |
| OrderStatsTimeline.ListIterator | src/main/java/charting/timeline/OrderStatsTreeTimeline.java:65-68 | an iterator opens exactly at ranks 0 to `size`, with `nextIndex` `i`, `previousIndex` `i - 1`, the current `modCount` and no cached entry |
| OrderStatsTimeline.ListIteratorAt | src/main/java/charting/timeline/OrderStatsTreeTimeline.java:71-73 | an iterator opens at an instant exactly when the timeline holds it, positioned before it |
| OrderStatsTimeline.NextAgreesWithList | src/main/java/charting/timeline/OrderStatsTreeTimeline.java:454-475 | on an unmodified timeline, `next` fails with NoSuchElement exactly at the end; otherwise it returns the entry at `nextIndex` and advances, whether it reuses the cached entry, steps to the successor or selects |
| OrderStatsTimeline.PreviousAgreesWithList | src/main/java/charting/timeline/OrderStatsTreeTimeline.java:478-499 | on an unmodified timeline, `previous` fails with NoSuchElement exactly at the start; otherwise it returns the entry before `nextIndex` and moves back |
| OrderStatsTimeline.NextThenPrevious | src/main/java/charting/timeline/OrderStatsTreeTimeline.java:454-499 | `previous` right after `next` returns the same entry and restores `nextIndex` |
| OrderStatsTimeline.StaleCursorFails | src/main/java/charting/timeline/OrderStatsTreeTimeline.java:454-481 | after a `put`, both `next` and `previous` of an older iterator fail with ConcurrentModification |
| OrderStatsTimeline.Modify | src/main/java/charting/timeline/OrderStatsTreeTimeline.java:502-514 | `remove`, `set` and `add` on the iterator fail with Unsupported and leave the contents, the modification count and the cursor's next and previous moves as they were |
| OrderStatsTimeline.Collect | src/main/java/charting/timeline/Timeline.java:58-65 | iterating from the start yields exactly the contents, in order |
| Notification.PurgedMembers | src/main/java/charting/timeline/NotificationBaseTimeline.java:23-39 | a notification drops exactly the weak registrations whose target is gone |
| Notification.PurgedIdempotent | src/main/java/charting/timeline/NotificationBaseTimeline.java:23-39 | a second purge of an already purged registry changes nothing |
| Notification.ReceiversArePurgedTargets | src/main/java/charting/timeline/NotificationBaseTimeline.java:23-39 | the listeners called are the targets of the surviving registrations, one call each, in registration order |
| Notification.OnUpdate | src/main/java/charting/timeline/NotificationBaseTimeline.java:16-42 | the loop's calls, resulting registry and outcome are those of the declarative delivery `Deliver`: IllegalState when already notifying, otherwise every live listener up to the first that throws |
| Notification.StuckAfterListenerFailure | src/main/java/charting/timeline/NotificationBaseTimeline.java:16-42 | as written, once a listener throws, the flag stays set and every later notification fails with IllegalState |
| Notification.DeliverGuarded | src/main/java/charting/timeline/NotificationBaseTimeline.java:16-42 | the corrected delivery calls the same listeners with the same outcome and registry, and restores the flag |
| Notification.GuardedNeverStuck | src/main/java/charting/timeline/NotificationBaseTimeline.java:16-42 | with the flag restored, a notification never reports IllegalState and never leaves the flag set |
| Notification.HasListeners | src/main/java/charting/timeline/NotificationBaseTimeline.java:72-74 | true exactly when some registration exists, stale weak ones included; when false, a delivery calls nobody and purges nothing |
| Notification.DeadRegistrationsStillListen | src/main/java/charting/timeline/NotificationBaseTimeline.java:16-74 | a registry of only reclaimed weak handles reports listeners, yet a delivery calls nobody, succeeds, and leaves a registry that reports none |
| Notification.RemoveListener | src/main/java/charting/timeline/NotificationBaseTimeline.java:55-70 | exactly one registration is removed when one refers to the listener (a strong one, or a weak handle whose referent is still it), none otherwise, and nothing is added |
| Notification.RemovesFirstStrong | src/main/java/charting/timeline/NotificationBaseTimeline.java:56-58 | the registration removed is the listener's first strong one; the others keep their order |
| Notification.RemovesFirstWeak | src/main/java/charting/timeline/NotificationBaseTimeline.java:60-69 | without a strong registration, the one removed is the first weak handle still referring to the listener; the others keep their order |
| Notification.AddRemove | src/main/java/charting/timeline/NotificationBaseTimeline.java:45-70 | for a listener not already registered strongly, removing it right after adding it restores the registry |
| Notification.AddWeakRemove | src/main/java/charting/timeline/NotificationBaseTimeline.java:50-70 | for a listener with no strong registration and no live weak one, removing it right after adding it weakly restores the registry |
| Mapped.MapAll | src/main/java/charting/timeline/MappedTimeline.java:27-33 | the view has the base's instants, and each value is the mapping of the base value at that instant |
| Mapped.MapAllRanks | src/main/java/charting/timeline/MappedTimeline.java:149-151 | the view is ordered like the base and `indexOf` agrees with the base's |
| Mapped.MappedFirst | src/main/java/charting/timeline/MappedTimeline.java:50-52 | the exported base `first` is the view's `first` |
| Mapped.MappedLast | src/main/java/charting/timeline/MappedTimeline.java:55-57 | the exported base `last` is the view's `last` |
| Mapped.MappedGet | src/main/java/charting/timeline/MappedTimeline.java:60-62 | the exported base `get` is the view's `get` |
| Mapped.MappedFloor | src/main/java/charting/timeline/MappedTimeline.java:65-67 | the exported base `floor` is the view's `floor` |
| Mapped.MappedCeiling | src/main/java/charting/timeline/MappedTimeline.java:70-72 | the exported base `ceiling` is the view's `ceiling` |
| Mapped.MappedLower | src/main/java/charting/timeline/MappedTimeline.java:75-77 | the exported base `lower` is the view's `lower` |
| Mapped.MappedHigher | src/main/java/charting/timeline/MappedTimeline.java:80-82 | the exported base `higher` is the view's `higher` |
| Mapped.MappedGetIndex | src/main/java/charting/timeline/MappedTimeline.java:85-87 | `get(int)` of the view, failure included, is the view's own rank lookup |
| Mapped.MappedIndexOf | src/main/java/charting/timeline/MappedTimeline.java:149-151 | the base's `indexOf` is the view's |
| Mapped.MappedSize | src/main/java/charting/timeline/MappedTimeline.java:154-156 | the base's size is the view's |
| Mapped.MappedListIterator | src/main/java/charting/timeline/MappedTimeline.java:90-95 | an iterator opens on the view exactly where one opens on its contents |
| Mapped.MappedListIteratorAt | src/main/java/charting/timeline/MappedTimeline.java:144-146 | an iterator opens at an instant exactly when the base holds it, positioned before it |
| Mapped.MappedNext | src/main/java/charting/timeline/MappedTimeline.java:101-104 | `next` of the view moves as a list iterator over the mapped contents |
| Mapped.MappedPrevious | src/main/java/charting/timeline/MappedTimeline.java:111-114 | `previous` of the view moves as a list iterator over the mapped contents |
| Mapped.MappedModify | src/main/java/charting/timeline/MappedTimeline.java:131-139 | `set` and `add` fail with Unsupported and the iterator's next and previous moves over the view are those from the same position |
| Mapped.Unary | src/main/java/charting/timeline/MapperTimeline.java:20-22 | the instant-free mapper ignores the instant |
| Mapped.MapperOnBaseUpdate | src/main/java/charting/timeline/MapperTimeline.java:29-37 | no event without listeners; otherwise one event at the instant, null for null, else the mapped value |
| Mapped.MapperNotifiesView | src/main/java/charting/timeline/MapperTimeline.java:24-37 | the event of a base update carries what the view's `get` now answers at that instant |
| Skip.NewSkip | src/main/java/charting/timeline/SkipTimeline.java:19-26 | a negative skip count fails with IllegalArgument |
| Skip.Drop | src/main/java/charting/timeline/SkipTimeline.java:10-12 | the view is the base without its first `skips` elements, and stays ordered |
| Skip.SkipIndexOf | src/main/java/charting/timeline/SkipTimeline.java:151-160 | the shifted base index, with its insertion-point encoding, is `indexOf` of the visible suffix |
| Skip.SkipSize | src/main/java/charting/timeline/SkipTimeline.java:162-165 | the clamped difference is the length of the visible suffix |
| Skip.SkipGetIndex | src/main/java/charting/timeline/SkipTimeline.java:82-86 | `get(i)` is rank `i` of the visible suffix, failing for a negative rank |
| Skip.SkipFirst | src/main/java/charting/timeline/SkipTimeline.java:43-46 | `first` is the first visible element |
| Skip.SkipLast | src/main/java/charting/timeline/SkipTimeline.java:48-51 | `last` is the last visible element, and null when nothing is visible |
| Skip.SkipGet | src/main/java/charting/timeline/SkipTimeline.java:53-56 | `get(instant)` is `get` of the visible suffix |
| Skip.SkipFloor | src/main/java/charting/timeline/SkipTimeline.java:58-62 | `floor` is `floor` of the visible suffix |
| Skip.SkipCeiling | src/main/java/charting/timeline/SkipTimeline.java:64-68 | `ceiling` is `ceiling` of the visible suffix |
| Skip.SkipLower | src/main/java/charting/timeline/SkipTimeline.java:70-74 | `lower` is `lower` of the visible suffix |
| Skip.SkipHigher | src/main/java/charting/timeline/SkipTimeline.java:76-80 | `higher` is `higher` of the visible suffix |
| Skip.LookupsSkipHidden | src/main/java/charting/timeline/SkipTimeline.java:53-80 | no lookup ever returns one of the skipped elements |
| Skip.SkipOnBaseUpdate | src/main/java/charting/timeline/SkipTimeline.java:28-37 | an update at a visible rank is passed on unchanged; one below the boundary signals the base element at rank `skips - 1` once the base has `skips` elements, and nothing otherwise |
| Skip.VisibleUpdateReportsView | src/main/java/charting/timeline/SkipTimeline.java:28-32 | the event of a visible update carries what the view now holds at that instant |
| Skip.BoundaryEventOutsideView | src/main/java/charting/timeline/SkipTimeline.java:33-36 | as written, with one skip, the first `put` into an empty base signals an element the view does not hold |
| Skip.SkipOnBaseUpdateFixed | src/main/java/charting/timeline/SkipTimeline.java:28-37 | corrected boundary signal: visible updates as before; below the boundary one event exactly when something is visible |
| Skip.FixedBoundaryReportsView | src/main/java/charting/timeline/SkipTimeline.java:33-36 | the corrected boundary event reports the view's first element with its value |
| Skip.SkipListIterator | src/main/java/charting/timeline/SkipTimeline.java:88-93 | the iterator opens on the base at `i + skips`, and fails when the view's check or the base's fails |
| Skip.ShortBaseIteratorFails | src/main/java/charting/timeline/SkipTimeline.java:88-93 | as written, a view over a base shorter than `skips` cannot open even `listIterator(0)` |
| Skip.SkipHasPrevious | src/main/java/charting/timeline/SkipTimeline.java:105-108 | there is a previous element exactly when the base cursor is past the skipped prefix |
| Skip.SkipPrevious | src/main/java/charting/timeline/SkipTimeline.java:110-117 | `previous` fails with NoSuchElement at the first visible element and otherwise moves the base cursor back |
| Skip.NextIndexNotShifted | src/main/java/charting/timeline/SkipTimeline.java:119-127 | as written, a fresh iterator at view rank `i` reports `nextIndex` `i + skips`, which differs from `previousIndex + 1` |
| Skip.SkipListIteratorFixed | src/main/java/charting/timeline/SkipTimeline.java:88-93 | the corrected iterator opens exactly at view ranks 0 to `size`, at the base position shifted by the hidden count |
| Skip.FixedIteratorIsListIterator | src/main/java/charting/timeline/SkipTimeline.java:88-127 | the corrected iterator's indices, `next` and `previous` are those of a list iterator over the visible suffix |
| Sum.NewSum | src/main/java/charting/indicators/Sum.java:27-34 | a length that is not positive fails with IllegalArgument |
| Sum.SumByIteration | src/main/java/charting/indicators/Sum.java:118-133 | the backward walk adds exactly the last `min(length, i + 1)` values up to rank `i` |
| Sum.LowerShortcut | src/main/java/charting/indicators/Sum.java:98-106 | sliding the lower neighbour's window sum (add the new value, drop the one that leaves) gives the window sum, when the neighbour's sum is not NaN |
| Sum.HigherShortcut | src/main/java/charting/indicators/Sum.java:108-116 | sliding the higher neighbour's window sum back gives the window sum, when the neighbour's sum is not NaN |
| Sum.CalculateAtCorrect | src/main/java/charting/indicators/Sum.java:62-96 | with the NaN guard and a valid cache, every branch of `calculateSum` yields the reference sum: NaN before a lazy window is full, else the window's sum |
| Sum.CalculateSumCorrect | src/main/java/charting/indicators/Sum.java:62-96 | the guarded `calculateSum` answers the reference sum, and null for an absent instant |
| Sum.NaNShortcutPoisons | src/main/java/charting/indicators/Sum.java:79-93 | as written, a correctly cached NaN window sum slid onto the next rank gives NaN where the sum is 6 |
| Sum.GuardedShortcutSums | src/main/java/charting/indicators/Sum.java:79-93 | on the same input, the guarded calculation gives 6 |
| Sum.GetSumCorrect | src/main/java/charting/indicators/Sum.java:58-60 | `computeIfAbsent` over the guarded `calculateSum` answers the reference sum and keeps the cache valid |
| Sum.CacheStore | src/main/java/charting/indicators/Sum.java:58-60 | storing the reference sum of a present instant keeps the cache valid |
| Sum.MapCorrect | src/main/java/charting/indicators/Sum.java:36-56 | with the guarded `calculateSum`, `map` of a value answers the reference sum and of null answers null, keeping the cache valid |
| Sum.ChainIsAffected | src/main/java/charting/indicators/Sum.java:36-50 | `map(null)`'s walk by `higher` evicts the same instants as `onBaseUpdate`: the instant and up to `length` later ones |
| Sum.Affected | src/main/java/charting/indicators/Sum.java:136-147 | the instants to update are the changed instant followed by up to `length` base instants after it, in order |
| Sum.AffectedCovers | src/main/java/charting/indicators/Sum.java:136-147 | every rank within `length` after the change is among the instants to update |
| Sum.Evict | src/main/java/charting/indicators/Sum.java:149 | eviction removes exactly the listed instants and keeps every other entry |
| Sum.PutKeepsCacheValid | src/main/java/charting/indicators/Sum.java:136-149 | after a `put` into the base, evicting the affected instants leaves only entries that are still right |
| Sum.RemoveKeepsCacheValid | src/main/java/charting/indicators/Sum.java:136-149 | after an instant leaves the base, the same eviction leaves only entries that are still right |
| Sum.OnBaseUpdate | src/main/java/charting/indicators/Sum.java:135-158 | no events without listeners; otherwise, with the guarded `calculateSum`, one event per affected instant, in order, each carrying the reference sum (null for an absent instant), with the cache valid afterwards |
| Sum.SignalAll | src/main/java/charting/indicators/Sum.java:155-157 | with the guarded `calculateSum`, signalling a list of instants through a valid cache yields, for each instant in order, the reference sum there (null for an absent instant), and leaves the cache valid |
| Sum.Signal | src/main/java/charting/indicators/Sum.java:156 | with the guarded `calculateSum`, one `onUpdate(i, getSum(i))` carries the reference sum at `i` and keeps the cache valid |
| Sma.NewSma | src/main/java/charting/indicators/Sma.java:25-32 | a length that is not positive fails with IllegalArgument |
| Sma.Map | src/main/java/charting/indicators/Sma.java:34-45 | null stays null and a sum stays a number |
| Sma.Mean | src/main/java/charting/indicators/Sma.java:20-24 | the average is defined exactly when the window is full or eager and holds no NaN |
| Sma.MeanTimesSize | src/main/java/charting/indicators/Sma.java:40-44 | a defined average times the size of its window is the window's sum, itself a number |
| Sma.SmaAt | src/main/java/charting/indicators/Sma.java:34-45 | reading the `Sum` through the guarded `calculateSum`, the view answers at exactly the base's instants, with the window average, NaN before a lazy window is full |
| Sma.ThroughCache | src/main/java/charting/indicators/Sma.java:34-45 | reading the view while its `Sum` holds a cache answers at exactly the base's instants, at a cached instant the cached sum divided by the length, and keeps every cache entry |
| Sma.ThroughValidCache | src/main/java/charting/indicators/Sma.java:34-45 | on an up-to-date cache that read answers the window average and leaves the cache up to date |
| Sma.MeanBounds | src/main/java/charting/indicators/Sma.java:10-12 | an average lies between the least and the greatest value it averages |
| Sma.OnBaseUpdate | src/main/java/charting/indicators/Sma.java:47-54 | no event without listeners; otherwise one event at the instant, null exactly for null |
| Sma.NotifiesMean | src/main/java/charting/indicators/Sma.java:47-54 | a sum signalled by the `Sum` reaches the listener as the average the view now answers there |
| Ema.NewEma | src/main/java/charting/indicators/Ema.java:21-28 | a length that is not positive fails with IllegalArgument |
| Ema.Multiplier | src/main/java/charting/indicators/Ema.java:27 | the smoothing factor `2 / (1 + length)` lies in (0, 1] |
| Ema.EmaPrefix | src/main/java/charting/indicators/Ema.java:40-63 | the EMA at a rank depends only on the values up to that rank |
| Ema.EmaBounds | src/main/java/charting/indicators/Ema.java:40-63 | once defined, the EMA lies between the least and the greatest value seen so far |
| Ema.CalculateStartEma | src/main/java/charting/indicators/Ema.java:65-80 | the seed is the mean of the first `length` values, and the sum of all values over `length` when fewer exist |
| Ema.GetEma | src/main/java/charting/indicators/Ema.java:40-63 | `getEma` answers the reference EMA (null for a negative rank, NaN before `length - 1`), and the checkpoints stay a valid prefix of reference values |
| Ema.Map | src/main/java/charting/indicators/Ema.java:30-38 | `map` of a value answers the reference EMA at its instant and of null answers null, keeping the checkpoints valid |
| Ema.OnBaseUpdate | src/main/java/charting/indicators/Ema.java:82-99 | no events without listeners; otherwise an event at the instant and one per later base instant, in order, each with the reference EMA |
| Ema.PutKeepsValid | src/main/java/charting/indicators/Ema.java:82-86 | after a `put`, clearing the checkpoints from the changed rank on leaves only checkpoints that are still right |
| Ema.RemoveClearsAll | src/main/java/charting/indicators/Ema.java:30-35 | once an instant has left the base its `indexOf` is negative, so `map(null)` clears every checkpoint, and the empty set is valid |
| StandardDeviation.NewDeviation | src/main/java/charting/indicators/StandardDeviation.java:14-21 | the inner `Sma` rejects a length that is not positive |
| StandardDeviation.Map | src/main/java/charting/indicators/StandardDeviation.java:23-51 | `map` of a value at an instant the base holds answers the variance reference; null stays null |
| StandardDeviation.SumDeviations | src/main/java/charting/indicators/StandardDeviation.java:37-48 | the backward walk adds the squared deviations from the average over exactly the window |
| StandardDeviation.VarianceDefined | src/main/java/charting/indicators/StandardDeviation.java:23-51 | the variance is a number exactly when the window is full and NaN-free, and then it is not negative |
| StandardDeviation.ConstantVariance | src/main/java/charting/indicators/StandardDeviation.java:23-51 | a window of equal values has variance 0 |
| StandardDeviation.OnBaseUpdate | src/main/java/charting/indicators/StandardDeviation.java:53-64 | no events without listeners; an absent instant fails when the iterator is opened; otherwise one event per rank from the instant, at most `length` of them, each at its rank's instant: NaN short of `length` values, and at an instant the `Sum` had cached before the update, the spread of the new window around that old cached average |
| StandardDeviation.Signals | src/main/java/charting/indicators/StandardDeviation.java:59-63 | the iterator opened at a rank yields `min(length, remaining)` events at successive instants, valued as for `OnBaseUpdate` |
| StandardDeviation.Read | src/main/java/charting/indicators/StandardDeviation.java:24-51 | `map` at a rank: NaN short of `length` values; at an instant the `Sum` has cached, the spread around that cached average; the `Sum`'s cache only gains entries |
| StandardDeviation.ReadValid | src/main/java/charting/indicators/StandardDeviation.java:24-51 | with an up-to-date cache, `map` at a rank answers the variance reference and leaves the cache up to date |
| StandardDeviation.SignalFromEvents | src/main/java/charting/indicators/StandardDeviation.java:59-63 | any run of iterator events is at successive instants, NaN short of `length`, and the spread around the old cached average wherever the cache held the instant |
| StandardDeviation.UpToDateSignalsView | src/main/java/charting/indicators/StandardDeviation.java:53-64 | when the `Sum`'s cache is up to date, every event carries the deviation the view holds at its instant |
| StandardDeviation.StaleFirstEvent | src/main/java/charting/indicators/StandardDeviation.java:53-64 | length 2 over (1, 1), (2, 3) with the sum at 2 cached, then `put(2, 5)`: the event at 2 is 5 while the view holds 4 there |
| StandardDeviation.PutSignalsChanges | src/main/java/charting/indicators/StandardDeviation.java:53-64 | after a `put`, every rank not signalled keeps the variance it had before: the events cover every change |
| StandardDeviation.OnSmaUpdate | src/main/java/charting/indicators/StandardDeviation.java:66-76 | null is passed on as null; a value at an instant the base lacks fails with NullPointer; otherwise one event with the variance at that instant |
| StandardDeviation.SmaSignalAgrees | src/main/java/charting/indicators/StandardDeviation.java:66-76 | the event caused by an average update carries what the view answers at that instant |
| Bollinger.NewBollinger | src/main/java/charting/indicators/BollingerBands.java:29-38 | both the length and the number of deviations must be positive, else IllegalArgument |
| Bollinger.MapAsWritten | src/main/java/charting/indicators/BollingerBands.java:40-54 | `map` as written agrees with the corrected one whenever `deviations` is 2, and null stays null |
| Bollinger.BothAround | src/main/java/charting/indicators/BollingerBands.java:46-53 | with a numeric average, the corrected bands are `deviations` deviations around it and the bands as written 2 deviations |
| Bollinger.AsWrittenDiffers | src/main/java/charting/indicators/BollingerBands.java:52-53 | for any other `deviations`, a numeric average and a non-zero deviation give bands that differ from the corrected ones |
| Bollinger.IgnoresDeviations | src/main/java/charting/indicators/BollingerBands.java:52-53 | as written, with three deviations the bands are still two deviations wide |
| Bollinger.Map | src/main/java/charting/indicators/BollingerBands.java:40-54 | the corrected `map`, with `c.deviations` where the source has the literal 2: null stays null; NaN bands at an instant the closes lack; otherwise the middle band is the average |
| Bollinger.BandsFrom | src/main/java/charting/indicators/BollingerBands.java:46-53 | NaN bands for a null average; otherwise the middle band is the average and the others lie `width` above and below it |
| Bollinger.BandsAround | src/main/java/charting/indicators/BollingerBands.java:12-15 | the bands lie `deviations` deviations above and below the average |
| Bollinger.MiddleBandBounds | src/main/java/charting/indicators/BollingerBands.java:46-53 | the middle band lies between the least and the greatest close of its window |
| Bollinger.OnBaseUpdate | src/main/java/charting/indicators/BollingerBands.java:56-63 | no event without listeners; otherwise one event at the instant, null exactly for null, NaN bands at an instant the closes lack, and at an instant the `Sma`'s `Sum` had cached before the update, bands two deviations around that old average |
| Bollinger.CurrentAverageSignalsView | src/main/java/charting/indicators/BollingerBands.java:56-63 | with the average's cache up to date, an update signals `map` as written of the new deviation |
| Bollinger.StaleMiddleBand | src/main/java/charting/indicators/BollingerBands.java:37-46 | length 1, a close of 10 read once and then replaced by 20: the event's middle band is 10 while the view holds 20 |
| Bollinger.OnSmaUpdateFixed | src/main/java/charting/indicators/BollingerBands.java:37-46 | the listener the view needs on its own `Sma`: nothing without listeners, null passed on, otherwise one event at the instant whose middle band is the average just signalled |
| Bollinger.FixedSignalsView | src/main/java/charting/indicators/BollingerBands.java:37-46 | with that listener, the average the `Sma` signals reaches the listener as the bands the view holds at that instant |
| Subtraction.Map | src/main/java/charting/indicators/Subtraction.java:27-40 | null stays null; without a subtrahend value at the instant the number is passed through |
| Subtraction.DifferenceValue | src/main/java/charting/indicators/Subtraction.java:27-40 | where both hold the instant, the view answers the base value minus the subtrahend value |
| Subtraction.OnBaseUpdate | src/main/java/charting/indicators/Subtraction.java:42-49 | no event without listeners; otherwise one event at the instant, null exactly for null |
| Subtraction.OnSubtrahendUpdate | src/main/java/charting/indicators/Subtraction.java:51-64 | one event exactly when listeners exist and the base holds the instant, and it carries a number |
| Subtraction.BaseSignalAgrees | src/main/java/charting/indicators/Subtraction.java:42-49 | after a base `put`, the event carries the difference the view now answers |
| Subtraction.SubtrahendSignalAgrees | src/main/java/charting/indicators/Subtraction.java:51-64 | after a subtrahend `put`, the event carries the difference the view now answers |
| Subtraction.NullSubtrahendAgrees | src/main/java/charting/indicators/Subtraction.java:51-64 | when the subtrahend value is gone, the event carries the plain base value, which the view now answers |
| Macd.NewMacd | src/main/java/charting/indicators/Macd.java:21-30 | the inner `Ema`s and `SkipTimeline` accept exactly positive periods, else IllegalArgument |
| Macd.Histogram | src/main/java/charting/indicators/Macd.java:76-78 | the histogram is defined exactly when both lines are, and the signal plus the histogram is the MACD line |
| Macd.Line | src/main/java/charting/indicators/Macd.java:22 | the MACD line has the base's instants |
| Macd.LineIsSubtraction | src/main/java/charting/indicators/Macd.java:22 | each MACD value is the short EMA minus the long EMA at that instant |
| Macd.SignalRef | src/main/java/charting/indicators/Macd.java:28 | the signal is NaN until `long + signal - 2` ranks have passed |
| Macd.SignalAtRank | src/main/java/charting/indicators/Macd.java:28 | the signal EMA answers at exactly the ranks from `long - 1` on, and its answer (NaN where absent) is the reference signal at that rank |
| Macd.ShownAt | src/main/java/charting/indicators/Macd.java:28 | from rank `long - 1` on, the signal is the EMA of the visible line at that rank |
| Macd.HiddenAt | src/main/java/charting/indicators/Macd.java:28 | before rank `long - 1` the signal EMA holds nothing |
| Macd.Map | src/main/java/charting/indicators/Macd.java:32-40 | null stays null; otherwise the MACD value is the given number and the signal is the signal view's answer at the instant, NaN where it has none |
| Macd.Pair | src/main/java/charting/indicators/Macd.java:38-39 | the pair holds the MACD value and the signal view's answer, NaN where that answer is null |
| Macd.LineAt | src/main/java/charting/indicators/Macd.java:59 | `getBase().get` answers at exactly the base's instants, with the line entry of the same rank |
| Macd.ConstantLine | src/main/java/charting/indicators/Macd.java:22 | for a constant base both EMAs equal it, so the line is 0 |
| Macd.ConstantSignal | src/main/java/charting/indicators/Macd.java:28 | for a constant base the signal and the histogram are 0 once defined |
| Macd.OnBaseUpdate | src/main/java/charting/indicators/Macd.java:42-49 | no event without listeners; otherwise one event at the instant, null exactly for null, carrying the new MACD value and the signal view's answer at that moment (NaN for null) |
| Macd.OnSignalUpdate | src/main/java/charting/indicators/Macd.java:51-61 | no event without listeners; a null signal is passed on; otherwise the line's value at the instant with the signal view's answer, failing with NullPointer exactly where the line has no value |
| Macd.BaseSignalAgrees | src/main/java/charting/indicators/Macd.java:42-49 | with the signal view up to date, the event of a line update carries what the view answers at that instant |
| Macd.SignalUpdateAgrees | src/main/java/charting/indicators/Macd.java:51-61 | with the line and the signal view up to date, a signal update carries what the view answers at that instant, and fails with NullPointer exactly where the base holds nothing |
| TrueRange.Calculate | src/main/java/charting/indicators/TrueRange.java:24-35 | without a previous candle the true range is the candle's high minus its low |
| TrueRange.TrueRangeSpan | src/main/java/charting/indicators/TrueRange.java:24-35 | with a previous close, the true range spans from the lesser of low and previous close to the greater of high and previous close, so it is at least high minus low |
| TrueRange.TrueRangeDefined | src/main/java/charting/indicators/TrueRange.java:24-35 | for a candle with low at most high, the true range is a number of at least high minus low |
| TrueRange.Ranges | src/main/java/charting/indicators/TrueRange.java:19-22 | the view has the base's instants and each value is the true range against the previous candle |
| TrueRange.MapIsRef | src/main/java/charting/indicators/TrueRange.java:19-22 | `map` of a base element is its true range against the element before it |
| TrueRange.Respond | src/main/java/charting/indicators/TrueRange.java:47-60 | one or two events, the first at the instant and null exactly for null; the update fails with NullPointer exactly when the base has no last element, or the instant is not the last and has no successor |
| TrueRange.OnBaseUpdate | src/main/java/charting/indicators/TrueRange.java:41-61 | no events and no failure without listeners; otherwise one or two events starting at the instant, and only NullPointer failures |
| TrueRange.UpdateAtMember | src/main/java/charting/indicators/TrueRange.java:41-61 | after a `put`, the events are the new true range at the instant and at its successor, if any, and the update succeeds |
| TrueRange.PutSignals | src/main/java/charting/indicators/TrueRange.java:41-61 | after a `put`, the events carry the view's new values at the instant and its successor |
| TrueRange.PutKeepsOthers | src/main/java/charting/indicators/TrueRange.java:41-61 | every rank other than the instant and its successor keeps its true range: the two events cover every change |
| Atr.NewAtr | src/main/java/charting/indicators/Atr.java:15-23 | the one-argument constructor gives a lazy average over 14 ranges; the other rejects a length that is not positive and otherwise averages lazily over that length |
| Atr.AtrAt | src/main/java/charting/indicators/Atr.java:10-32 | reading the `Sum` through the guarded `calculateSum`, the view answers at exactly the base's instants, with the lazy average of the true ranges up to that instant |
| Atr.OnBaseUpdate | src/main/java/charting/indicators/Atr.java:34-41 | no event without listeners; otherwise the average's event is forwarded unchanged |
| Atr.NotifiesAtr | src/main/java/charting/indicators/Atr.java:34-41 | the forwarded event carries what the view answers at that instant |
| Atr.TrueRangeBounds | src/main/java/charting/indicators/TrueRange.java:24-35 | for well-formed candles within a price band, the true range lies between 0 and the band's width |
| Atr.AtrBounds | src/main/java/charting/indicators/Atr.java:10 | for well-formed candles within a price band, the ATR lies between 0 and the band's width |
| TypicalPrice.Typical | src/main/java/charting/indicators/TypicalPrice.java:18-24 | the typical price is defined exactly when high, low and close are, and three times it is their sum |
| TypicalPrice.Map | src/main/java/charting/indicators/TypicalPrice.java:18-24 | null stays null; otherwise a number exactly when high, low and close are |
| TypicalPrice.TypicalWithin | src/main/java/charting/indicators/TypicalPrice.java:10 | for a well-formed candle the typical price lies between low and high |
| TypicalPrice.TypicalOfFlat | src/main/java/charting/indicators/TypicalPrice.java:10 | a candle whose high, low and close agree has that price as its typical price |
| TypicalPrice.OnBaseUpdate | src/main/java/charting/indicators/TypicalPrice.java:26-33 | no event without listeners; otherwise one event at the instant, null exactly for null |
| TypicalPrice.PutNotifiesView | src/main/java/charting/indicators/TypicalPrice.java:26-33 | after a `put`, the event carries the typical price the view now answers at that instant |
| CandleData.NewCandle | src/main/java/charting/data/DoubleCandle.java:17-34 | construction succeeds exactly for a well-formed candle (high at least open and close, low at most both, volume NaN or non-negative, end after start, current between them), else IllegalArgument |
| CandleData.NewCompleteCandle | src/main/java/charting/data/DoubleCandle.java:36-39 | the short constructor succeeds exactly when the full one with current equal to end does, and its candle is terminated |
| CandleData.Durations | src/main/java/charting/data/Candle.java:23-33 | for a well-formed candle the total duration is positive, the current one lies within it, and the candle is terminated exactly when they are equal |
| CandleData.PriceOrder | src/main/java/charting/data/DoubleCandle.java:28-29 | a well-formed candle's open and close lie between its low and high |
| Num.GetMaxIsGreatest | src/main/java/charting/util/MathUtil.java:46-64 | the maximum is a number exactly for a non-empty NaN-free list, and then it is an element that no element exceeds |
| Converter.DaysBetween | src/main/java/charting/gui/superchart/InterDayTimeAxisPosConverter.java:25 | the count of whole days between two instants, truncated toward zero in both directions |
| Converter.ToIndex | src/main/java/charting/gui/superchart/InterDayTimeAxisPosConverter.java:23-36 | inside the timeline the floor rank; before the first instant minus the whole days back to it; after the last instant the last rank plus the whole days since it; for an empty timeline the whole days since the epoch (day counts truncated toward zero) |
| Converter.ToInstant | src/main/java/charting/gui/superchart/InterDayTimeAxisPosConverter.java:39-52 | an index of the timeline gives its instant; a negative index `n` is `-n` days before the first instant; an index `n` past the end is `n - (size - 1)` days after the last; on an empty timeline `n` days after the epoch (unbounded; `ToInstantChecked` adds Java's failures) |
| Converter.DaysOfPlus | src/main/java/charting/gui/superchart/InterDayTimeAxisPosConverter.java:41 | adding `n` days and counting days back gives `n` |
| Converter.IndexRoundTrip | src/main/java/charting/gui/superchart/InterDayTimeAxisPosConverter.java:23-52 | over unbounded instants, converting any index to an instant and back gives the index |
| Converter.ToInstantChecked | src/main/java/charting/gui/superchart/InterDayTimeAxisPosConverter.java:39-52 | with Java's `long` arithmetic, `toInstant` succeeds exactly when the instant is one an `Instant` can hold, and then answers it; otherwise it fails with ArithmeticException or DateTimeException |
| Converter.PlusDaysChecked | src/main/java/charting/gui/superchart/InterDayTimeAxisPosConverter.java:41 | `plus(n, DAYS)` succeeds exactly when the instant `n` days on is representable, and then is that instant |
| Converter.MinusDaysChecked | src/main/java/charting/gui/superchart/InterDayTimeAxisPosConverter.java:45 | `minus(n, DAYS)` succeeds exactly when the instant `n` days back is representable, including `n = Long.MIN_VALUE`, which fails |
| Converter.CheckedRoundTrip | src/main/java/charting/gui/superchart/InterDayTimeAxisPosConverter.java:23-52 | any index whose instant Java can represent converts to that instant and back to itself |
| Converter.ToIndexIsLong | src/main/java/charting/gui/superchart/InterDayTimeAxisPosConverter.java:23-36 | `toIndex` of a representable instant over a timeline of at most `Integer.MAX_VALUE` entries fits a `long`: it cannot overflow |
| Converter.ToInstantIncreasing | src/main/java/charting/gui/superchart/InterDayTimeAxisPosConverter.java:39-52 | larger indices give later instants |
| Ranges.Length | src/main/java/charting/util/Range.java:6-8 | start plus length is end |
| Ranges.Center | src/main/java/charting/util/Range.java:10-12 | the center is equally far from both ends |
| Ranges.ScaledAbout | src/main/java/charting/util/Range.java:18-20 | each end's distance from the pivot is multiplied by the factor |
| Ranges.Scaled | src/main/java/charting/util/Range.java:14-16 | scaling about the center keeps the center and multiplies the length |
| Ranges.Translated | src/main/java/charting/util/Range.java:22-24 | translation keeps the length and moves the center by the distance |
| Ranges.ToTargetPosition | src/main/java/charting/util/Range.java:29-35 | NaN exactly for a null target |
| Ranges.ToTargetLength | src/main/java/charting/util/Range.java:40-46 | NaN exactly for a null target |
| Ranges.IsPositive | src/main/java/charting/util/Range.java:48-50 | positive exactly when the length is |
| Ranges.ScaleInverse | src/main/java/charting/util/Range.java:18-20 | scaling by `f` and then by `1/f` about the same pivot restores the range |
| Ranges.TranslateInverse | src/main/java/charting/util/Range.java:22-24 | translating by `d` and then by `-d` restores the range |
| Ranges.EndsToEnds | src/main/java/charting/util/Range.java:29-35 | the source's start and end map to the target's start and end |
| Ranges.PositionsAndLengths | src/main/java/charting/util/Range.java:29-46 | the distance between two converted positions is the converted distance |
| Ranges.PositionRoundTrip | src/main/java/charting/util/Range.java:29-35 | converting a position to the target and back restores it |
| Ranges2D.Width | src/main/java/charting/util/Range2D.java:6-8 | the width is the length of the x extent |
| Ranges2D.Height | src/main/java/charting/util/Range2D.java:10-12 | the height is the length of the y extent |
| Ranges2D.CenterX | src/main/java/charting/util/Range2D.java:14-16 | the x center is the center of the x extent |
| Ranges2D.CenterY | src/main/java/charting/util/Range2D.java:18-20 | the y center is the center of the y extent |
| Ranges2D.ScaledAbout | src/main/java/charting/util/Range2D.java:26-32 | each axis is scaled about its pivot, as a 1-dimensional range is |
| Ranges2D.Scaled | src/main/java/charting/util/Range2D.java:22-24 | each axis is scaled about its center, so both centers stay put |
| Ranges2D.Translated | src/main/java/charting/util/Range2D.java:34-37 | each axis is translated by its own distance |
| Ranges2D.ToTargetX | src/main/java/charting/util/Range2D.java:42-48 | x conversion is the 1-dimensional conversion between the x extents, NaN for a null target |
| Ranges2D.ToTargetY | src/main/java/charting/util/Range2D.java:53-59 | y conversion is the 1-dimensional conversion between the y extents, NaN for a null target |
| Ranges2D.ToTargetWidth | src/main/java/charting/util/Range2D.java:64-70 | width conversion is the 1-dimensional length conversion between the x extents |
| Ranges2D.ToTargetHeight | src/main/java/charting/util/Range2D.java:75-81 | height conversion is the 1-dimensional length conversion between the y extents |
| Ranges2D.CornersToCorners | src/main/java/charting/util/Range2D.java:42-59 | the source's corners map to the target's corners |
| Ranges2D.TranslateInverse2D | src/main/java/charting/util/Range2D.java:34-37 | translating by `(dx, dy)` and then by `(-dx, -dy)` restores the range |

## Left out

- StandardDeviation.Map: answers the variance, not its square root. `Math.sqrt` has no exact counterpart on reals. `VarianceDefined` gives the non-negativity that makes the root defined.
- Bollinger.Map: the deviation it receives is taken as given; the square root linking it to the variance is not modelled.
- Floating point: doubles are exact reals or NaN. IEEE rounding, infinities and negative zero are not modelled, so sums and averages are exact.
- Ranges.ToTargetPosition: requires a source of non-zero length; Java divides by zero there and gets an infinity or NaN, which the model does not represent.
- Ranges.ToTargetLength: requires a source of non-zero length, for the same division by zero.
- Ranges2D.ToTargetX: requires a source of non-zero width, for the same division by zero.
- Ranges2D.ToTargetY: requires a source of non-zero height, for the same division by zero.
- Ranges2D.ToTargetWidth: requires a source of non-zero width, for the same division by zero.
- Ranges2D.ToTargetHeight: requires a source of non-zero height, for the same division by zero.
- Converter.ToInstant: answers an instant for every index, over unbounded instants. Java's `plus`/`minus(n, DAYS)` (InterDayTimeAxisPosConverter.java:41, 45, 48) throws ArithmeticException when `n * 86400` or the seconds sum overflows a `long`, and DateTimeException beyond `Instant`'s range; `Converter.ToInstantChecked` models that path and agrees with `ToInstant` exactly where the instant is representable.
- Converter.IndexRoundTrip: holds over unbounded instants; for Java it holds for every index whose instant Java can represent, which `Converter.CheckedRoundTrip` states, and the other indexes throw instead of returning.
- Sum.GetSum: `calculateSum` as written slides a cached NaN neighbour sum (see Findings). `GetSum`, `Map`, `OnBaseUpdate`, `SignalAll` and `Signal`, and through them `Sma.SmaAt`, `Atr.AtrAt` and the other indicators that read a `Sum`, use the guarded calculation; their reference-sum promises are not made for the code as written, whose NaN slide `Sum.NaNShortcutPoisons` exhibits.
- StandardDeviation.OnBaseUpdate: the view registers on the base (StandardDeviation.java:15) before its `Sma`'s `Sum` does (StandardDeviation.java:19), so `map` reads the average through the `Sum`'s cache from before the update. At an instant that cache did not hold, the value depends on how `calculateSum` slides stale neighbours, and the model does not state it; `StandardDeviation.UpToDateSignalsView` gives every value when the cache is up to date.
- Bollinger.OnBaseUpdate: for the same registration order (BollingerBands.java:30, 37), at an instant the `Sma`'s `Sum` did not cache before the update the middle band is not stated; `Bollinger.CurrentAverageSignalsView` gives the event when the cache is up to date.
- Macd.OnBaseUpdate: the signal paired with the new value is a parameter, what `signalEma.get` answers at that moment. The view registers on its line (MappedTimeline.java:20, through the constructor at Macd.java:22) before the signal's skip view does (Macd.java:28), and an `Ema` drops its checkpoints only when notified (Ema.java:86), so that answer may come from checkpoints of before the update; the model does not state which value it is. The line value itself may be stale too: the `Subtraction` hears the short `Ema` first (both `Ema`s register on the base in the order of Macd.java:22), so its first event after a base update is the new short EMA minus the old long one.
- Macd.OnSignalUpdate: the line and signal values it reads are parameters, for the same reason.
- Macd.BaseSignalAgrees: holds for a line value and a signal view that are up to date, which the registration order above does not guarantee.
- Macd.SignalUpdateAgrees: holds for a line and a signal view that are up to date, which the registration order above does not guarantee.
- The `MappedTimeline` iterator's `remove` passes the call to the base iterator; for a tree timeline base that is `OrderStatsTimeline.Modify`, which fails with Unsupported.
- `Range.NAN` and `Range2D.NAN` are constants only used by callers outside this model.
- Listener callbacks: what a listener does when called is not modelled. In particular, a listener that calls back into the timeline is not followed, beyond the `isNotifying` flag.
- Concurrency: the `CopyOnWriteArrayList` of listeners and any multi-threaded use are not modelled.
- Garbage collection: a weak registration's liveness is a field of the registration, not something the model decides.
- Tree parent pointers and `updateHeight` are not modelled; stored sizes and heights are fields of an immutable node.
- `Preconditions.checkIndex` is called by `listIterator(int)`, but the `Preconditions` class in the source only defines `checkArgument`, so checkIndex is not part of this model. An out-of-range index is modelled as an IllegalArgument failure.
- `null` arguments: a null instant, a null `Number` or a null candle field is not modelled. Only null values passed through `map`/`onBaseUpdate` are modelled, as `Option`.
- `MathUtil.getMin`, `getMinIgnoreNan` and `getMaxIgnoreNan`: not used by the modelled core.
- Getters (`getLength`, `isEager`, `getSkips`, `getPeriods` …), `Macd.Values.toString` and the `Timestamped` record are not modelled; they only read fields.
- GUI: the chart, drawings, skins and every other JavaFX class are not modelled. So are the data providers.

## Findings

| source | as written | input that shows it | evidently intended | confidence | as-written member | corrected member |
|---|---|---|---|---|---|---|
| src/main/java/charting/timeline/NotificationBaseTimeline.java:16-42 | `isNotifying` is reset after the loop without `finally` | a listener throws during `onUpdate` | the flag is cleared however the loop ends, so later updates still notify | medium, not executed | Notification.StuckAfterListenerFailure | Notification.GuardedNeverStuck |
| src/main/java/charting/timeline/OrderStatsTreeTimeline.java:17-21 | the tree is changed and `modCount` bumped before `onUpdate` checks for re-entrance | a listener calls `put` of a new instant while being notified | a re-entrant `put` is rejected before anything changes | medium, not executed | OrderStatsTimeline.ReentrantPutAsWrittenChangesContents | OrderStatsTimeline.ReentrantPutRejected |
| src/main/java/charting/timeline/SkipTimeline.java:119-122 | `nextIndex()` returns the base iterator's index unshifted | `skips = 2`, `listIterator(0)` on a base of 3: `nextIndex()` is 2, `previousIndex()` is -1 | `nextIndex()` is the view rank, `previousIndex() + 1` | high, not executed | Skip.NextIndexNotShifted | Skip.FixedIteratorIsListIterator |
| src/main/java/charting/timeline/SkipTimeline.java:88-93 | the view checks `i` against its clamped size, then opens the base at `i + skips` | `skips = 2` over a base of 1 element: `listIterator(0)` fails | an empty view yields an empty iterator | high, not executed | Skip.ShortBaseIteratorFails | Skip.SkipListIteratorFixed |
| src/main/java/charting/timeline/SkipTimeline.java:33-36 | an update below the boundary signals the base element at rank `skips - 1`, which is hidden | `skips = 1`, first `put` into an empty base: the view stays empty but its listener is told of that element | the element that enters the view, base rank `skips`, is signalled, and nothing when the view is empty | medium, not executed | Skip.BoundaryEventOutsideView | Skip.FixedBoundaryReportsView |
| src/main/java/charting/indicators/Sum.java:79-93 | a cached neighbour sum is slid even when it is NaN | lazy length 6 over NaN, 1, 1, 1, 1, 1, 1 with NaN cached at rank 5: the sum at rank 6 comes out NaN instead of 6 | the shortcut only applies to a cached number; a NaN window is summed by iteration | medium, not executed | Sum.NaNShortcutPoisons | Sum.GuardedShortcutSums |
| src/main/java/charting/indicators/BollingerBands.java:52-53 | the bands are `sma ± 2 * v`; the `deviations` field is never read | `deviations = 3`, average 10, deviation 1: bands 12 and 8 | bands at `sma ± deviations * v`: 13 and 7 | high, not executed | Bollinger.IgnoresDeviations | Bollinger.BandsAround |
| src/main/java/charting/indicators/BollingerBands.java:37 | the view keeps its own `Sma` but never listens to it; its deviation registers on the closes before that `Sma`'s `Sum` does, so `map` reads the average before the `Sum` drops its cache | length 1, a close of 10 read once, then replaced by 20: the event's middle band is 10 while the view holds 20 | the view listens to its `Sma`, as `StandardDeviation` and `Macd` do to theirs, and signals the new middle band | medium, not executed | Bollinger.StaleMiddleBand | Bollinger.FixedSignalsView |
| src/main/java/charting/indicators/StandardDeviation.java:15-20 | the view registers on the base before its `Sma`'s `Sum`, so `onBaseUpdate` maps through the `Sum`'s cache from before the update | length 2 over (1, 1), (2, 3) with the sum at 2 cached, then `put(2, 5)`: the event at 2 is 5 while the view holds 4 | every event carries the deviation the view holds, as it does once the `Sum`'s cache is up to date | low: the stale event is transient, since `onSmaUpdate` (StandardDeviation.java:66-76) re-signals the fresh deviation right after; not executed | StandardDeviation.StaleFirstEvent | StandardDeviation.UpToDateSignalsView |
