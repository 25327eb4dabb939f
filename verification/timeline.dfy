/**
 * The `Timeline` contract: a container ordered by instant.
 *
 * A timeline's contents are modelled as a strictly increasing sequence of
 * stamped values (rank 0 is the earliest). Everything a timeline answers is a
 * function of that sequence: the `Arrays.binarySearch`-style `indexOf`, the
 * four rank helpers the interface derives from it by integer arithmetic, and
 * the timestamp lookups. `Insert` is the reference for `put`.
 */
module Timeline {
  import opened Outcomes

  /** An instant: nanoseconds since the epoch. */
  type Instant = int

  /** `Timestamped<T>`: an instant and the value stored there. */
  datatype Stamped<+V> = Stamped(t: Instant, v: V)

  /** The timeline invariant: instants strictly increase with rank. */
  predicate Sorted<V>(s: seq<Stamped<V>>)
  {
    forall i, j | 0 <= i < j < |s| :: s[i].t < s[j].t
  }

  /** Every element of `s` is strictly before `k`. */
  ghost predicate Below<V>(s: seq<Stamped<V>>, k: Instant)
  {
    forall e | e in s :: e.t < k
  }

  /** Every element of `s` is strictly after `k`. */
  ghost predicate Above<V>(s: seq<Stamped<V>>, k: Instant)
  {
    forall e | e in s :: k < e.t
  }

  /** The same elements, irrespective of order. */
  ghost predicate SameElements<V>(a: seq<Stamped<V>>, b: seq<Stamped<V>>)
  {
    (forall e | e in a :: e in b) && (forall e | e in b :: e in a)
  }

  predicate Contains<V>(s: seq<Stamped<V>>, k: Instant)
  {
    exists i | 0 <= i < |s| :: s[i].t == k
  }

  function Values<V>(s: seq<Stamped<V>>): (vs: seq<V>)
    ensures |vs| == |s| && forall i | 0 <= i < |s| :: vs[i] == s[i].v
  {
    seq(|s|, i requires 0 <= i < |s| => s[i].v)
  }

  /** The number of elements strictly before `k`: where `k` would be inserted. */
  function InsertionPoint<V>(s: seq<Stamped<V>>, k: Instant): (p: nat)
    ensures p <= |s|
    ensures forall i | 0 <= i < p :: s[i].t < k
    ensures Sorted(s) ==> forall i | p <= i < |s| :: k <= s[i].t
  {
    if |s| == 0 || k <= s[0].t then 0 else 1 + InsertionPoint(s[1..], k)
  }

  /**
   * `indexOf`: the rank of `k` when present, otherwise `-(insertion point) - 1`,
   * which is what `Arrays.binarySearch` returns on the sorted instants.
   */
  function IndexOf<V>(s: seq<Stamped<V>>, k: Instant): (r: int)
    requires Sorted(s)
    ensures r >= 0 <==> Contains(s, k)
    ensures r >= 0 ==> r < |s| && s[r].t == k
    ensures r < 0 ==> -r - 1 <= |s|
    ensures r < 0 ==> forall i | 0 <= i < -r - 1 :: s[i].t < k
    ensures r < 0 ==> forall i | -r - 1 <= i < |s| :: k < s[i].t
  {
    var p: int := InsertionPoint(s, k);
    if p < |s| && s[p].t == k then p else -p - 1
  }

  // The interface's default methods, on the result `i` of `indexOf` and on `size()`.

  /** `Timeline.floorIndexOf`. */
  function FloorIndexOf(i: int): int
  {
    if i < -1 then -i - 2 else i
  }

  /** `Timeline.ceilingIndexOf`. */
  function CeilingIndexOf(i: int, size: int): int
  {
    if i == -size - 1 then -1
    else if i < 0 then -i - 1
    else i
  }

  /** `Timeline.lowerIndexOf`. */
  function LowerIndexOf(i: int): int
  {
    if i > 0 then i - 1
    else if i < -1 then -i - 2
    else -1
  }

  /** `Timeline.higherIndexOf`. */
  function HigherIndexOf(i: int, size: int): int
  {
    if i == -size - 1 || i == size - 1 then -1
    else if i < 0 then -i - 1
    else i + 1
  }

  /** The rank of the last element at or before `k`, or -1. */
  function FloorIndex<V>(s: seq<Stamped<V>>, k: Instant): (r: int)
    requires Sorted(s)
    ensures -1 <= r < |s|
    ensures r >= 0 ==> s[r].t <= k
    ensures forall i | r < i < |s| :: k < s[i].t
  {
    FloorIndexOf(IndexOf(s, k))
  }

  /** The rank of the first element at or after `k`, or -1 when every element is before `k`. */
  function CeilingIndex<V>(s: seq<Stamped<V>>, k: Instant): (r: int)
    requires Sorted(s)
    ensures -1 <= r < |s|
    ensures r == -1 <==> forall i | 0 <= i < |s| :: s[i].t < k
    ensures r >= 0 ==> k <= s[r].t && forall i | 0 <= i < r :: s[i].t < k
  {
    CeilingIndexOf(IndexOf(s, k), |s|)
  }

  /** The rank of the last element strictly before `k`, or -1. */
  function LowerIndex<V>(s: seq<Stamped<V>>, k: Instant): (r: int)
    requires Sorted(s)
    ensures -1 <= r < |s|
    ensures r >= 0 ==> s[r].t < k
    ensures forall i | r < i < |s| :: k <= s[i].t
  {
    LowerIndexOf(IndexOf(s, k))
  }

  /** The rank of the first element strictly after `k`, or -1 when there is none. */
  function HigherIndex<V>(s: seq<Stamped<V>>, k: Instant): (r: int)
    requires Sorted(s)
    ensures -1 <= r < |s|
    ensures r == -1 <==> forall i | 0 <= i < |s| :: s[i].t <= k
    ensures r >= 0 ==> k < s[r].t && forall i | 0 <= i < r :: s[i].t <= k
  {
    HigherIndexOf(IndexOf(s, k), |s|)
  }

  // Timestamp and rank lookups. `None` is Java's `null`.

  function Get<V>(s: seq<Stamped<V>>, k: Instant): (r: Option<Stamped<V>>)
    requires Sorted(s)
    ensures r.Some? <==> Contains(s, k)
    ensures r.Some? ==> r.value in s && r.value.t == k
  {
    var i := IndexOf(s, k);
    if i < 0 then None else Some(s[i])
  }

  function Floor<V>(s: seq<Stamped<V>>, k: Instant): (r: Option<Stamped<V>>)
    requires Sorted(s)
    ensures r.None? <==> forall e | e in s :: k < e.t
    ensures r.Some? ==> r.value in s && r.value.t <= k
    ensures r.Some? ==> forall e | e in s && e.t <= k :: e.t <= r.value.t
  {
    var i := FloorIndex(s, k);
    if i < 0 then None else Some(s[i])
  }

  function Ceiling<V>(s: seq<Stamped<V>>, k: Instant): (r: Option<Stamped<V>>)
    requires Sorted(s)
    ensures r.None? <==> forall e | e in s :: e.t < k
    ensures r.Some? ==> r.value in s && k <= r.value.t
    ensures r.Some? ==> forall e | e in s && k <= e.t :: r.value.t <= e.t
  {
    var i := CeilingIndex(s, k);
    if i < 0 then None else Some(s[i])
  }

  function Lower<V>(s: seq<Stamped<V>>, k: Instant): (r: Option<Stamped<V>>)
    requires Sorted(s)
    ensures r.None? <==> forall e | e in s :: k <= e.t
    ensures r.Some? ==> r.value in s && r.value.t < k
    ensures r.Some? ==> forall e | e in s && e.t < k :: e.t <= r.value.t
  {
    var i := LowerIndex(s, k);
    if i < 0 then None else Some(s[i])
  }

  function Higher<V>(s: seq<Stamped<V>>, k: Instant): (r: Option<Stamped<V>>)
    requires Sorted(s)
    ensures r.None? <==> forall e | e in s :: e.t <= k
    ensures r.Some? ==> r.value in s && k < r.value.t
    ensures r.Some? ==> forall e | e in s && k < e.t :: r.value.t <= e.t
  {
    var i := HigherIndex(s, k);
    if i < 0 then None else Some(s[i])
  }

  /** Selection by rank for a non-negative rank: `null` past the end. */
  function At<V>(s: seq<Stamped<V>>, i: nat): Option<Stamped<V>>
  {
    if i < |s| then Some(s[i]) else None
  }

  function First<V>(s: seq<Stamped<V>>): (r: Option<Stamped<V>>)
    requires Sorted(s)
    ensures r.None? <==> |s| == 0
    ensures r.Some? ==> r.value in s && forall e | e in s :: r.value.t <= e.t
  {
    if |s| == 0 then None else Some(s[0])
  }

  function Last<V>(s: seq<Stamped<V>>): (r: Option<Stamped<V>>)
    requires Sorted(s)
    ensures r.None? <==> |s| == 0
    ensures r.Some? ==> r.value in s && forall e | e in s :: e.t <= r.value.t
  {
    if |s| == 0 then None else Some(s[|s| - 1])
  }

  /** `Timeline.isEmpty`. */
  function IsEmpty<V>(s: seq<Stamped<V>>): (b: bool)
    ensures b <==> forall k :: !Contains(s, k)
    ensures Sorted(s) ==> (b <==> First(s).None? && Last(s).None?)
  {
    if |s| == 0 then true
    else
      assert Contains(s, s[0].t);
      false
  }

  /**
   * The reference for `put`: insert `(k, v)`, replacing the element at `k` if any.
   */
  function Insert<V>(s: seq<Stamped<V>>, k: Instant, v: V): (r: seq<Stamped<V>>)
    requires Sorted(s)
    ensures Sorted(r)
    ensures Stamped(k, v) in r
    ensures forall e | e in r :: e == Stamped(k, v) || (e in s && e.t != k)
    ensures forall e | e in s && e.t != k :: e in r
    ensures |r| == if Contains(s, k) then |s| else |s| + 1
  {
    if |s| == 0 then [Stamped(k, v)]
    else if k < s[0].t then
      assert !Contains(s, k);
      [Stamped(k, v)] + s
    else if k == s[0].t then
      assert forall e | e in s[1..] :: e.t != k;
      [Stamped(k, v)] + s[1..]
    else
      var rest := Insert(s[1..], k, v);
      ContainsTail(s, k);
      InsertCons(s, k, v, rest);
      [s[0]] + rest
  }

  /** How much `put` of `k` grows `s`: 0 when `k` is already present, else 1. */
  function Growth<V>(s: seq<Stamped<V>>, k: Instant): nat
  {
    if Contains(s, k) then 0 else 1
  }

  /**
   * `r` is `s` with `x` placed at rank `p`: the elements before `p` keep their
   * ranks and those after it are shifted by `d` (1 for an insertion, 0 when
   * `x` replaces the element at `p`).
   */
  ghost predicate Spliced<V>(s: seq<Stamped<V>>, r: seq<Stamped<V>>, p: nat, d: nat, x: Stamped<V>)
  {
    && d <= 1 && p < |r| == |s| + d
    && (forall j | 0 <= j < p :: r[j] == s[j])
    && r[p] == x
    && (forall j | p < j < |r| :: r[j] == s[j - d])
  }

  /**
   * Where `put` leaves everything: the elements before the insertion point stay
   * at their ranks, the new element takes the insertion point, and the elements
   * after it move up by one, unless `k` was already present and is replaced.
   */
  lemma {:induction false} InsertRanks<V>(s: seq<Stamped<V>>, k: Instant, v: V)
    requires Sorted(s)
    ensures Spliced(s, Insert(s, k, v), InsertionPoint(s, k), Growth(s, k), Stamped(k, v))
    decreases |s|
  {
    if |s| == 0 || k <= s[0].t {
      InsertRanksFront(s, k, v);
    } else {
      var tail := s[1..];
      ContainsTail(s, k);
      assert Growth(s, k) == Growth(tail, k);
      InsertRanks(tail, k, v);
      assert Insert(s, k, v) == [s[0]] + Insert(tail, k, v);
      assert InsertionPoint(s, k) == InsertionPoint(tail, k) + 1;
      ConsRanks(s, Insert(tail, k, v), Insert(s, k, v), InsertionPoint(tail, k), Growth(s, k), Stamped(k, v));
    }
  }

  /** The index bookkeeping of `InsertRanks`' recursive step, away from the sortedness facts. */
  lemma ConsRanks<V>(s: seq<Stamped<V>>, rest: seq<Stamped<V>>, r: seq<Stamped<V>>, p: nat, d: nat, x: Stamped<V>)
    requires |s| > 0 && Spliced(s[1..], rest, p, d, x)
    requires r == [s[0]] + rest
    ensures Spliced(s, r, p + 1, d, x)
  {
    forall j | p + 1 < j < |r|
      ensures r[j] == s[j - d]
    {
      assert r[j] == rest[j - 1] == s[1..][j - 1 - d];
    }
    forall j | 0 < j < p + 1
      ensures r[j] == s[j]
    {
      assert r[j] == rest[j - 1] == s[1..][j - 1];
    }
  }

  /** `InsertRanks` when `k` goes in front. */
  lemma InsertRanksFront<V>(s: seq<Stamped<V>>, k: Instant, v: V)
    requires Sorted(s) && (|s| == 0 || k <= s[0].t)
    ensures InsertionPoint(s, k) == 0
    ensures Spliced(s, Insert(s, k, v), 0, Growth(s, k), Stamped(k, v))
  {
    var r := Insert(s, k, v);
    if |s| > 0 && k < s[0].t {
      assert !Contains(s, k);
      assert r == [Stamped(k, v)] + s;
    } else if |s| > 0 {
      assert Contains(s, k);
      assert r == [Stamped(k, v)] + s[1..];
    }
  }

  lemma ContainsTail<V>(s: seq<Stamped<V>>, k: Instant)
    requires |s| > 0 && s[0].t != k
    ensures Contains(s, k) <==> Contains(s[1..], k)
  {
    if Contains(s, k) {
      var i :| 0 <= i < |s| && s[i].t == k;
      assert s[1..][i - 1].t == k;
    }
  }

  /** The recursive step of `Insert`: the head stays in front of the inserted tail. */
  lemma InsertCons<V>(s: seq<Stamped<V>>, k: Instant, v: V, rest: seq<Stamped<V>>)
    requires Sorted(s) && |s| > 0 && s[0].t < k && Sorted(rest)
    requires forall e | e in rest :: e == Stamped(k, v) || (e in s[1..] && e.t != k)
    requires forall e | e in s[1..] && e.t != k :: e in rest
    ensures Sorted([s[0]] + rest)
    ensures forall e | e in [s[0]] + rest :: e == Stamped(k, v) || (e in s && e.t != k)
    ensures forall e | e in s && e.t != k :: e in [s[0]] + rest
  {
    assert forall e | e in rest :: s[0].t < e.t;
    SortedJoin([], s[0], rest);
    forall e | e in s && e.t != k
      ensures e in [s[0]] + rest
    {
      TailMembers(s, e);
    }
  }

  /** Dropping the head of a sorted sequence removes exactly that element. */
  lemma TailMembers<V>(s: seq<Stamped<V>>, e: Stamped<V>)
    requires Sorted(s) && |s| > 0
    ensures e in s[1..] <==> e in s && e != s[0]
  {
    if e in s && e != s[0] {
      var x :| 0 <= x < |s| && s[x] == e;
      assert s[1..][x - 1] == e;
    }
  }

  /** Two sorted sequences with the same elements are equal. */
  lemma {:induction false} SortedUnique<V>(a: seq<Stamped<V>>, b: seq<Stamped<V>>)
    requires Sorted(a) && Sorted(b)
    requires SameElements(a, b)
    ensures a == b
    decreases |a|
  {
    assert |b| > 0 ==> b[0] in a;
    if |a| > 0 {
      assert a[0] in a;
      assert |b| > 0;
      assert b[0] in b;
      var i :| 0 <= i < |a| && a[i] == b[0];
      var j :| 0 <= j < |b| && b[j] == a[0];
      assert a[0].t <= a[i].t;
      assert b[0].t <= b[j].t;
      assert i == 0;
      forall e | e in a[1..]
        ensures e in b[1..]
      {
        TailMembers(a, e);
        TailMembers(b, e);
      }
      forall e | e in b[1..]
        ensures e in a[1..]
      {
        TailMembers(a, e);
        TailMembers(b, e);
      }
      SortedUnique(a[1..], b[1..]);
      assert a == [a[0]] + a[1..];
      assert b == [b[0]] + b[1..];
    }
  }

  /** In a sorted sequence an instant identifies its element. */
  lemma GetIsMember<V>(s: seq<Stamped<V>>, e: Stamped<V>)
    requires Sorted(s)
    ensures e in s <==> Get(s, e.t) == Some(e)
  {
    if e in s {
      var i :| 0 <= i < |s| && s[i] == e;
      assert IndexOf(s, e.t) == i;
    }
  }

  /** The rank `indexOf` gives an element's instant is the element's own rank. */
  lemma IndexOfMember<V>(s: seq<Stamped<V>>, i: nat)
    requires Sorted(s) && i < |s|
    ensures IndexOf(s, s[i].t) == i
  {
  }

  /** `put(k, v)` keeps every entry before `k`'s rank, and `k` lands at that rank. */
  lemma PutKeepsPrefix<V>(a: seq<Stamped<V>>, k: Instant, v: V)
    requires Sorted(a)
    ensures var b := Insert(a, k, v); var p := InsertionPoint(a, k);
      && IndexOf(b, k) == p
      && forall j | 0 <= j < p :: j < |a| && j < |b| && a[j] == b[j]
  {
    InsertRanks(a, k, v);
    IndexOfMember(Insert(a, k, v), InsertionPoint(a, k));
  }

  /**
   * `put` semantics, stated through lookups: the written instant holds the new
   * value, every other instant is untouched, and the size grows only for a new instant.
   */
  lemma InsertLookups<V>(s: seq<Stamped<V>>, k: Instant, v: V, k': Instant)
    requires Sorted(s)
    ensures Get(Insert(s, k, v), k) == Some(Stamped(k, v))
    ensures k' != k ==> Get(Insert(s, k, v), k') == Get(s, k')
  {
    var r := Insert(s, k, v);
    GetIsMember(r, Stamped(k, v));
    if k' != k {
      var g := Get(s, k');
      var g' := Get(r, k');
      if g.Some? {
        GetIsMember(r, g.value);
      }
      if g'.Some? {
        GetIsMember(s, g'.value);
      }
    }
  }

  /** A sorted sequence split around one of its elements. */
  lemma SortedJoin<V>(a: seq<Stamped<V>>, x: Stamped<V>, b: seq<Stamped<V>>)
    ensures Sorted(a + [x] + b) <==> Sorted(a) && Sorted(b) && Below(a, x.t) && Above(b, x.t)
  {
    if Sorted(a + [x] + b) {
      SortedSplit(a, x, b);
    }
    if Sorted(a) && Sorted(b) && Below(a, x.t) && Above(b, x.t) {
      SortedBuild(a, x, b);
    }
  }

  lemma SortedSplit<V>(a: seq<Stamped<V>>, x: Stamped<V>, b: seq<Stamped<V>>)
    requires Sorted(a + [x] + b)
    ensures Sorted(a) && Sorted(b) && Below(a, x.t) && Above(b, x.t)
  {
    var s := a + [x] + b;
    assert s[|a|] == x;
    forall i | 0 <= i < |a|
      ensures s[i] == a[i]
    {
    }
    forall i | 0 <= i < |b|
      ensures s[|a| + 1 + i] == b[i]
    {
    }
    forall e | e in a
      ensures e.t < x.t
    {
      var i :| 0 <= i < |a| && a[i] == e;
    }
    forall e | e in b
      ensures x.t < e.t
    {
      var i :| 0 <= i < |b| && b[i] == e;
    }
  }

  lemma SortedBuild<V>(a: seq<Stamped<V>>, x: Stamped<V>, b: seq<Stamped<V>>)
    requires Sorted(a) && Sorted(b) && Below(a, x.t) && Above(b, x.t)
    ensures Sorted(a + [x] + b)
  {
    var s := a + [x] + b;
    forall i, j | 0 <= i < j < |s|
      ensures s[i].t < s[j].t
    {
      if i < |a| {
        assert s[i] in a;
      } else if i > |a| {
        assert s[i] == b[i - |a| - 1];
      }
      if j < |a| {
        assert s[j] == a[j];
      } else if j > |a| {
        assert s[j] == b[j - |a| - 1];
        assert s[j] in b;
      }
    }
  }

  /** Sorted sequences hold at most one element per instant. */
  lemma SameInstantSame<V>(s: seq<Stamped<V>>, e1: Stamped<V>, e2: Stamped<V>)
    requires Sorted(s) && e1 in s && e2 in s && e1.t == e2.t
    ensures e1 == e2
  {
    var i :| 0 <= i < |s| && s[i] == e1;
    var j :| 0 <= j < |s| && s[j] == e2;
    assert i == j;
  }

  /** The insertion point is the only split with everything before `k` on its left. */
  lemma InsertionPointUnique<V>(s: seq<Stamped<V>>, k: Instant, p: int)
    requires Sorted(s) && 0 <= p <= |s|
    requires forall i | 0 <= i < p :: s[i].t < k
    requires forall i | p <= i < |s| :: k <= s[i].t
    ensures p == InsertionPoint(s, k)
  {
    var q := InsertionPoint(s, k);
    var m := if p < q then p else q;
    if m < |s| {
      assert s[m].t < k || k <= s[m].t;
    }
  }

  lemma InsertionPointJoinLeft<V>(a: seq<Stamped<V>>, x: Stamped<V>, b: seq<Stamped<V>>, k: Instant)
    requires Sorted(a + [x] + b) && Sorted(a) && k < x.t
    ensures InsertionPoint(a + [x] + b, k) == InsertionPoint(a, k)
  {
    var s := a + [x] + b;
    var p := InsertionPoint(a, k);
    forall i | p <= i < |s|
      ensures k <= s[i].t
    {
      if i < |a| {
        assert s[i] == a[i];
      } else {
        assert s[|a|] == x;
      }
    }
    InsertionPointUnique(s, k, p);
  }

  lemma InsertionPointJoinRight<V>(a: seq<Stamped<V>>, x: Stamped<V>, b: seq<Stamped<V>>, k: Instant)
    requires Sorted(a + [x] + b) && Sorted(b) && x.t < k
    ensures InsertionPoint(a + [x] + b, k) == |a| + 1 + InsertionPoint(b, k)
  {
    var s := a + [x] + b;
    var q := InsertionPoint(b, k);
    forall i | 0 <= i < |a| + 1 + q
      ensures s[i].t < k
    {
      if i > |a| {
        assert s[i] == b[i - |a| - 1];
      } else {
        assert s[i].t <= s[|a|].t;
      }
    }
    forall i | |a| + 1 + q <= i < |s|
      ensures k <= s[i].t
    {
      assert s[i] == b[i - |a| - 1];
    }
    InsertionPointUnique(s, k, |a| + 1 + q);
  }

  /** `indexOf` on a sequence split around an element, as the tree's `rank` computes it. */
  lemma IndexOfJoin<V>(a: seq<Stamped<V>>, x: Stamped<V>, b: seq<Stamped<V>>, k: Instant)
    requires Sorted(a) && Sorted(b) && Below(a, x.t) && Above(b, x.t)
    ensures Sorted(a + [x] + b)
    ensures IndexOf(a + [x] + b, k) ==
      if k < x.t then IndexOf(a, k)
      else if k == x.t then |a|
      else if IndexOf(b, k) < 0 then IndexOf(b, k) - |a| - 1
      else IndexOf(b, k) + |a| + 1
  {
    SortedBuild(a, x, b);
    if k < x.t {
      IndexOfJoinLeft(a, x, b, k);
    } else if k == x.t {
      IndexOfJoinAt(a, x, b);
    } else {
      IndexOfJoinRight(a, x, b, k);
    }
  }

  lemma IndexOfJoinLeft<V>(a: seq<Stamped<V>>, x: Stamped<V>, b: seq<Stamped<V>>, k: Instant)
    requires Sorted(a + [x] + b) && Sorted(a) && k < x.t
    ensures IndexOf(a + [x] + b, k) == IndexOf(a, k)
  {
    var s := a + [x] + b;
    InsertionPointJoinLeft(a, x, b, k);
    var p := InsertionPoint(a, k);
    if p < |a| {
      assert s[p] == a[p];
    }
  }

  lemma IndexOfJoinAt<V>(a: seq<Stamped<V>>, x: Stamped<V>, b: seq<Stamped<V>>)
    requires Sorted(a + [x] + b)
    ensures IndexOf(a + [x] + b, x.t) == |a|
  {
    var s := a + [x] + b;
    assert s[|a|] == x;
    IndexOfMember(s, |a|);
  }

  lemma IndexOfJoinRight<V>(a: seq<Stamped<V>>, x: Stamped<V>, b: seq<Stamped<V>>, k: Instant)
    requires Sorted(a + [x] + b) && Sorted(b) && x.t < k
    ensures IndexOf(a + [x] + b, k) ==
      if IndexOf(b, k) < 0 then IndexOf(b, k) - |a| - 1 else IndexOf(b, k) + |a| + 1
  {
    var s := a + [x] + b;
    InsertionPointJoinRight(a, x, b, k);
    var q := InsertionPoint(b, k);
    if q < |b| {
      assert s[|a| + 1 + q] == b[q];
    }
  }

  lemma FloorUnique<V>(s: seq<Stamped<V>>, k: Instant, o: Option<Stamped<V>>)
    requires Sorted(s)
    requires o.None? <==> forall e | e in s :: k < e.t
    requires o.Some? ==> o.value in s && o.value.t <= k
    requires o.Some? ==> forall e | e in s && e.t <= k :: e.t <= o.value.t
    ensures o == Floor(s, k)
  {
    var f := Floor(s, k);
    if o.Some? {
      SameInstantSame(s, o.value, f.value);
    }
  }

  lemma CeilingUnique<V>(s: seq<Stamped<V>>, k: Instant, o: Option<Stamped<V>>)
    requires Sorted(s)
    requires o.None? <==> forall e | e in s :: e.t < k
    requires o.Some? ==> o.value in s && k <= o.value.t
    requires o.Some? ==> forall e | e in s && k <= e.t :: o.value.t <= e.t
    ensures o == Ceiling(s, k)
  {
    var f := Ceiling(s, k);
    if o.Some? {
      SameInstantSame(s, o.value, f.value);
    }
  }

  lemma LowerUnique<V>(s: seq<Stamped<V>>, k: Instant, o: Option<Stamped<V>>)
    requires Sorted(s)
    requires o.None? <==> forall e | e in s :: k <= e.t
    requires o.Some? ==> o.value in s && o.value.t < k
    requires o.Some? ==> forall e | e in s && e.t < k :: e.t <= o.value.t
    ensures o == Lower(s, k)
  {
    var f := Lower(s, k);
    if o.Some? {
      SameInstantSame(s, o.value, f.value);
    }
  }

  lemma HigherUnique<V>(s: seq<Stamped<V>>, k: Instant, o: Option<Stamped<V>>)
    requires Sorted(s)
    requires o.None? <==> forall e | e in s :: e.t <= k
    requires o.Some? ==> o.value in s && k < o.value.t
    requires o.Some? ==> forall e | e in s && k < e.t :: o.value.t <= e.t
    ensures o == Higher(s, k)
  {
    var f := Higher(s, k);
    if o.Some? {
      SameInstantSame(s, o.value, f.value);
    }
  }

  /** Walking with `higher` from the member at `k` moves one rank up. */
  lemma NextAt<V>(s: seq<Stamped<V>>, i: nat, k: Instant)
    requires Sorted(s) && i < |s| && s[i].t == k
    ensures Higher(s, k) == At(s, i + 1)
  {
    HigherOfMember(s, i);
  }

  lemma HigherOfMember<V>(s: seq<Stamped<V>>, i: nat)
    requires Sorted(s) && i < |s|
    ensures Higher(s, s[i].t) == if i + 1 < |s| then Some(s[i + 1]) else None
  {
    var k := s[i].t;
    if i + 1 < |s| {
      forall e | e in s && k < e.t
        ensures s[i + 1].t <= e.t
      {
        var j :| 0 <= j < |s| && s[j] == e;
      }
      assert s[i + 1] in s;
      HigherUnique(s, k, Some(s[i + 1]));
    } else {
      forall e | e in s
        ensures e.t <= k
      {
        var j :| 0 <= j < |s| && s[j] == e;
      }
    }
  }

  /** The predecessor of an element is the previous element by rank. */
  lemma LowerOfMember<V>(s: seq<Stamped<V>>, i: nat)
    requires Sorted(s) && i < |s|
    ensures Lower(s, s[i].t) == if i > 0 then Some(s[i - 1]) else None
  {
    var k := s[i].t;
    if i > 0 {
      forall e | e in s && e.t < k
        ensures e.t <= s[i - 1].t
      {
        var j :| 0 <= j < |s| && s[j] == e;
      }
      assert s[i - 1] in s;
      LowerUnique(s, k, Some(s[i - 1]));
    } else {
      forall e | e in s
        ensures k <= e.t
      {
        var j :| 0 <= j < |s| && s[j] == e;
      }
    }
  }

  /** `put` left of a split point only touches the left part. */
  lemma InsertJoin<V>(a: seq<Stamped<V>>, x: Stamped<V>, b: seq<Stamped<V>>, k: Instant, v: V)
    requires Sorted(a) && Sorted(b) && Below(a, x.t) && Above(b, x.t)
    ensures Sorted(a + [x] + b)
    ensures k < x.t ==> Insert(a + [x] + b, k, v) == Insert(a, k, v) + [x] + b
    ensures k == x.t ==> Insert(a + [x] + b, k, v) == a + [Stamped(k, v)] + b
    ensures x.t < k ==> Insert(a + [x] + b, k, v) == a + [x] + Insert(b, k, v)
  {
    SortedJoin(a, x, b);
    var s := a + [x] + b;
    var lhs := Insert(s, k, v);
    if k < x.t {
      var rhs := Insert(a, k, v) + [x] + b;
      SortedJoin(Insert(a, k, v), x, b);
      SortedUnique(lhs, rhs);
    } else if k == x.t {
      var rhs := a + [Stamped(k, v)] + b;
      SortedJoin(a, Stamped(k, v), b);
      SortedUnique(lhs, rhs);
    } else {
      var rhs := a + [x] + Insert(b, k, v);
      SortedJoin(a, x, Insert(b, k, v));
      SortedUnique(lhs, rhs);
    }
  }

  // The searches on a sorted sequence split around one element: what a
  // binary search tree computes at a node.

  lemma AtJoin<V>(a: seq<Stamped<V>>, x: Stamped<V>, b: seq<Stamped<V>>, i: nat)
    ensures At(a + [x] + b, i) ==
      if i < |a| then At(a, i) else if i == |a| then Some(x) else At(b, i - |a| - 1)
  {
    var s := a + [x] + b;
    if i < |a| {
      assert s[i] == a[i];
    } else if |a| < i < |s| {
      assert s[i] == b[i - |a| - 1];
    }
  }

  lemma GetJoin<V>(a: seq<Stamped<V>>, x: Stamped<V>, b: seq<Stamped<V>>, k: Instant)
    requires Sorted(a) && Sorted(b) && Below(a, x.t) && Above(b, x.t)
    ensures Sorted(a + [x] + b)
    ensures Get(a + [x] + b, k) ==
      if k < x.t then Get(a, k) else if k == x.t then Some(x) else Get(b, k)
  {
    IndexOfJoin(a, x, b, k);
    var s := a + [x] + b;
    var i := IndexOf(s, k);
    if i >= 0 {
      if k < x.t {
        assert s[i] == a[i];
      } else if x.t < k {
        assert s[i] == b[i - |a| - 1];
      }
    }
  }

  lemma FloorJoin<V>(a: seq<Stamped<V>>, x: Stamped<V>, b: seq<Stamped<V>>, k: Instant)
    requires Sorted(a) && Sorted(b) && Below(a, x.t) && Above(b, x.t)
    ensures Sorted(a + [x] + b)
    ensures Floor(a + [x] + b, k) ==
      if k < x.t then Floor(a, k)
      else if k == x.t || Floor(b, k).None? then Some(x)
      else Floor(b, k)
  {
    SortedBuild(a, x, b);
    if k < x.t {
      FloorJoinLeft(a, x, b, k);
    } else if k == x.t || Floor(b, k).None? {
      FloorJoinAt(a, x, b, k);
    } else {
      FloorJoinRight(a, x, b, k);
    }
  }

  lemma FloorJoinLeft<V>(a: seq<Stamped<V>>, x: Stamped<V>, b: seq<Stamped<V>>, k: Instant)
    requires Sorted(a + [x] + b) && Sorted(a) && Below(a, x.t) && Above(b, x.t) && k < x.t
    ensures Floor(a + [x] + b, k) == Floor(a, k)
  {
    FloorUnique(a + [x] + b, k, Floor(a, k));
  }

  lemma FloorJoinAt<V>(a: seq<Stamped<V>>, x: Stamped<V>, b: seq<Stamped<V>>, k: Instant)
    requires Sorted(a + [x] + b) && Sorted(b) && Below(a, x.t) && Above(b, x.t) && x.t <= k && (k == x.t || Floor(b, k).None?)
    ensures Floor(a + [x] + b, k) == Some(x)
  {
    FloorUnique(a + [x] + b, k, Some(x));
  }

  lemma FloorJoinRight<V>(a: seq<Stamped<V>>, x: Stamped<V>, b: seq<Stamped<V>>, k: Instant)
    requires Sorted(a + [x] + b) && Sorted(b) && Below(a, x.t) && Above(b, x.t) && x.t < k && Floor(b, k).Some?
    ensures Floor(a + [x] + b, k) == Floor(b, k)
  {
    FloorUnique(a + [x] + b, k, Floor(b, k));
  }

  lemma LowerJoin<V>(a: seq<Stamped<V>>, x: Stamped<V>, b: seq<Stamped<V>>, k: Instant)
    requires Sorted(a) && Sorted(b) && Below(a, x.t) && Above(b, x.t)
    ensures Sorted(a + [x] + b)
    ensures Lower(a + [x] + b, k) ==
      if k < x.t then Lower(a, k)
      else if k == x.t then Last(a)
      else if Lower(b, k).None? then Some(x)
      else Lower(b, k)
  {
    SortedBuild(a, x, b);
    if k < x.t {
      LowerJoinLeft(a, x, b, k);
    } else if k == x.t {
      LowerJoinAt(a, x, b, k);
    } else if Lower(b, k).None? {
      LowerJoinNext(a, x, b, k);
    } else {
      LowerJoinRight(a, x, b, k);
    }
  }

  lemma LowerJoinLeft<V>(a: seq<Stamped<V>>, x: Stamped<V>, b: seq<Stamped<V>>, k: Instant)
    requires Sorted(a + [x] + b) && Sorted(a) && Below(a, x.t) && Above(b, x.t) && k < x.t
    ensures Lower(a + [x] + b, k) == Lower(a, k)
  {
    LowerUnique(a + [x] + b, k, Lower(a, k));
  }

  lemma LowerJoinAt<V>(a: seq<Stamped<V>>, x: Stamped<V>, b: seq<Stamped<V>>, k: Instant)
    requires Sorted(a + [x] + b) && Sorted(a) && Below(a, x.t) && Above(b, x.t) && k == x.t
    ensures Lower(a + [x] + b, k) == Last(a)
  {
    LowerUnique(a + [x] + b, k, Last(a));
  }

  lemma LowerJoinNext<V>(a: seq<Stamped<V>>, x: Stamped<V>, b: seq<Stamped<V>>, k: Instant)
    requires Sorted(a + [x] + b) && Sorted(b) && Below(a, x.t) && Above(b, x.t) && x.t < k && Lower(b, k).None?
    ensures Lower(a + [x] + b, k) == Some(x)
  {
    LowerUnique(a + [x] + b, k, Some(x));
  }

  lemma LowerJoinRight<V>(a: seq<Stamped<V>>, x: Stamped<V>, b: seq<Stamped<V>>, k: Instant)
    requires Sorted(a + [x] + b) && Sorted(b) && Below(a, x.t) && Above(b, x.t) && x.t < k && Lower(b, k).Some?
    ensures Lower(a + [x] + b, k) == Lower(b, k)
  {
    LowerUnique(a + [x] + b, k, Lower(b, k));
  }

  lemma CeilingJoin<V>(a: seq<Stamped<V>>, x: Stamped<V>, b: seq<Stamped<V>>, k: Instant)
    requires Sorted(a) && Sorted(b) && Below(a, x.t) && Above(b, x.t)
    ensures Sorted(a + [x] + b)
    ensures Ceiling(a + [x] + b, k) ==
      if x.t < k then Ceiling(b, k)
      else if k == x.t || Ceiling(a, k).None? then Some(x)
      else Ceiling(a, k)
  {
    SortedBuild(a, x, b);
    if x.t < k {
      CeilingJoinRight(a, x, b, k);
    } else if k == x.t || Ceiling(a, k).None? {
      CeilingJoinAt(a, x, b, k);
    } else {
      CeilingJoinLeft(a, x, b, k);
    }
  }

  lemma CeilingJoinRight<V>(a: seq<Stamped<V>>, x: Stamped<V>, b: seq<Stamped<V>>, k: Instant)
    requires Sorted(a + [x] + b) && Sorted(b) && Below(a, x.t) && Above(b, x.t) && x.t < k
    ensures Ceiling(a + [x] + b, k) == Ceiling(b, k)
  {
    CeilingUnique(a + [x] + b, k, Ceiling(b, k));
  }

  lemma CeilingJoinAt<V>(a: seq<Stamped<V>>, x: Stamped<V>, b: seq<Stamped<V>>, k: Instant)
    requires Sorted(a + [x] + b) && Sorted(a) && Below(a, x.t) && Above(b, x.t) && k <= x.t && (k == x.t || Ceiling(a, k).None?)
    ensures Ceiling(a + [x] + b, k) == Some(x)
  {
    CeilingUnique(a + [x] + b, k, Some(x));
  }

  lemma CeilingJoinLeft<V>(a: seq<Stamped<V>>, x: Stamped<V>, b: seq<Stamped<V>>, k: Instant)
    requires Sorted(a + [x] + b) && Sorted(a) && Below(a, x.t) && Above(b, x.t) && k < x.t && Ceiling(a, k).Some?
    ensures Ceiling(a + [x] + b, k) == Ceiling(a, k)
  {
    CeilingUnique(a + [x] + b, k, Ceiling(a, k));
  }

  lemma HigherJoin<V>(a: seq<Stamped<V>>, x: Stamped<V>, b: seq<Stamped<V>>, k: Instant)
    requires Sorted(a) && Sorted(b) && Below(a, x.t) && Above(b, x.t)
    ensures Sorted(a + [x] + b)
    ensures Higher(a + [x] + b, k) ==
      if x.t < k then Higher(b, k)
      else if k == x.t then First(b)
      else if Higher(a, k).None? then Some(x)
      else Higher(a, k)
  {
    SortedBuild(a, x, b);
    if x.t < k {
      HigherJoinRight(a, x, b, k);
    } else if k == x.t {
      HigherJoinAt(a, x, b, k);
    } else if Higher(a, k).None? {
      HigherJoinNext(a, x, b, k);
    } else {
      HigherJoinLeft(a, x, b, k);
    }
  }

  lemma HigherJoinRight<V>(a: seq<Stamped<V>>, x: Stamped<V>, b: seq<Stamped<V>>, k: Instant)
    requires Sorted(a + [x] + b) && Sorted(b) && Below(a, x.t) && Above(b, x.t) && x.t < k
    ensures Higher(a + [x] + b, k) == Higher(b, k)
  {
    HigherUnique(a + [x] + b, k, Higher(b, k));
  }

  lemma HigherJoinAt<V>(a: seq<Stamped<V>>, x: Stamped<V>, b: seq<Stamped<V>>, k: Instant)
    requires Sorted(a + [x] + b) && Sorted(b) && Below(a, x.t) && Above(b, x.t) && k == x.t
    ensures Higher(a + [x] + b, k) == First(b)
  {
    HigherUnique(a + [x] + b, k, First(b));
  }

  lemma HigherJoinNext<V>(a: seq<Stamped<V>>, x: Stamped<V>, b: seq<Stamped<V>>, k: Instant)
    requires Sorted(a + [x] + b) && Sorted(a) && Below(a, x.t) && Above(b, x.t) && k < x.t && Higher(a, k).None?
    ensures Higher(a + [x] + b, k) == Some(x)
  {
    HigherUnique(a + [x] + b, k, Some(x));
  }

  lemma HigherJoinLeft<V>(a: seq<Stamped<V>>, x: Stamped<V>, b: seq<Stamped<V>>, k: Instant)
    requires Sorted(a + [x] + b) && Sorted(a) && Below(a, x.t) && Above(b, x.t) && k < x.t && Higher(a, k).Some?
    ensures Higher(a + [x] + b, k) == Higher(a, k)
  {
    HigherUnique(a + [x] + b, k, Higher(a, k));
  }

  // Timelines with the same instants rank alike.

  /** Rank by rank, `a` and `b` hold elements at the same instants. */
  predicate SameInstants<V, W>(a: seq<Stamped<V>>, b: seq<Stamped<W>>)
  {
    |a| == |b| && forall i | 0 <= i < |a| :: a[i].t == b[i].t
  }

  lemma {:induction false} InsertionPointSameInstants<V, W>(a: seq<Stamped<V>>, b: seq<Stamped<W>>, k: Instant)
    requires SameInstants(a, b)
    ensures InsertionPoint(a, k) == InsertionPoint(b, k)
    decreases |a|
  {
    if |a| > 0 && a[0].t < k {
      assert SameInstants(a[1..], b[1..]) by {
        forall i | 0 <= i < |a| - 1
          ensures a[1..][i].t == b[1..][i].t
        {
          assert a[1..][i] == a[i + 1] && b[1..][i] == b[i + 1];
        }
      }
      InsertionPointSameInstants(a[1..], b[1..], k);
    }
  }

  /** `indexOf`, and so every rank helper, depends on the instants alone. */
  lemma SameInstantsIndexOf<V, W>(a: seq<Stamped<V>>, b: seq<Stamped<W>>, k: Instant)
    requires Sorted(a) && SameInstants(a, b)
    ensures Sorted(b)
    ensures IndexOf(a, k) == IndexOf(b, k)
  {
    InsertionPointSameInstants(a, b, k);
  }

  // `get(int)` and the list iterator of a timeline, by rank.

  /** `get(int)`: a negative rank is rejected, a rank past the end gives `null`. */
  function GetIndex<V>(s: seq<Stamped<V>>, i: int): (r: Result<Option<Stamped<V>>>)
    ensures r.Err? <==> i < 0
    ensures r.Err? ==> r.error == IllegalArgument
    ensures r.Ok? ==> (r.value.Some? <==> i < |s|) && (r.value.Some? ==> r.value.value == s[i])
  {
    if i < 0 then Err(IllegalArgument) else Ok(At(s, i))
  }

  /** One step of a list iterator: the position afterwards (its `nextIndex`) and the element passed. */
  datatype Move<+V> = Move(pos: nat, item: Stamped<V>)

  /** `listIterator(i)` checks `0 <= i <= size()`; the iterator starts before rank `i`. */
  function ListStart<V>(s: seq<Stamped<V>>, i: int): (r: Result<nat>)
    ensures r.Ok? <==> 0 <= i <= |s|
    ensures r.Ok? ==> r.value == i
    ensures r.Err? ==> r.error == IllegalArgument
  {
    if 0 <= i <= |s| then Ok(i) else Err(IllegalArgument)
  }

  /** `ListIterator.next`. */
  function ListNext<V>(s: seq<Stamped<V>>, pos: nat): (r: Result<Move<V>>)
    ensures r.Ok? <==> pos < |s|
    ensures r.Ok? ==> r.value == Move(pos + 1, s[pos])
    ensures r.Err? ==> r.error == NoSuchElement
  {
    if pos < |s| then Ok(Move(pos + 1, s[pos])) else Err(NoSuchElement)
  }

  /** `ListIterator.previous`. */
  function ListPrevious<V>(s: seq<Stamped<V>>, pos: nat): (r: Result<Move<V>>)
    requires pos <= |s|
    ensures r.Ok? <==> pos > 0
    ensures r.Ok? ==> r.value == Move(pos - 1, s[pos - 1])
    ensures r.Err? ==> r.error == NoSuchElement
  {
    if pos > 0 then Ok(Move(pos - 1, s[pos - 1])) else Err(NoSuchElement)
  }

  /** `previous` right after `next` returns the same element and goes back to where it started. */
  lemma ListNextPrevious<V>(s: seq<Stamped<V>>, pos: nat)
    requires pos < |s|
    ensures ListNext(s, pos).Ok?
    ensures ListPrevious(s, ListNext(s, pos).value.pos) == Ok(Move(pos, ListNext(s, pos).value.item))
  {
  }

  // The rank just after an instant.

  /** The number of elements at or before `k`: the rank of the first element after it. */
  function After<V>(s: seq<Stamped<V>>, k: Instant): (h: nat)
    requires Sorted(s)
    ensures h <= |s|
    ensures forall i | 0 <= i < h :: s[i].t <= k
    ensures forall i | h <= i < |s| :: k < s[i].t
  {
    InsertionPoint(s, k + 1)
  }

  /** `higherIndexOf(k)` is `After(s, k)`, or -1 when nothing follows `k`. */
  lemma HigherIndexIsAfter<V>(s: seq<Stamped<V>>, k: Instant)
    requires Sorted(s)
    ensures HigherIndex(s, k) == if After(s, k) < |s| then After(s, k) else -1
  {
    var h := After(s, k);
    var r := HigherIndex(s, k);
    if h < |s| {
      assert k < s[h].t;
      assert r != -1;
    }
  }

  /** `After` is the one rank that splits the instants at `k`. */
  lemma AfterUnique<V>(s: seq<Stamped<V>>, k: Instant, h: nat)
    requires Sorted(s) && h <= |s|
    requires forall i | 0 <= i < h :: s[i].t <= k
    requires forall i | h <= i < |s| :: k < s[i].t
    ensures After(s, k) == h
  {
    InsertionPointUnique(s, k + 1, h);
  }

  /** `higher(k)` is the element at rank `After(s, k)`, and the one after it follows that element. */
  lemma HigherStep<V>(s: seq<Stamped<V>>, k: Instant)
    requires Sorted(s) && After(s, k) < |s|
    ensures Higher(s, k) == Some(s[After(s, k)])
    ensures After(s, s[After(s, k)].t) == After(s, k) + 1
  {
    var h := After(s, k);
    HigherUnique(s, k, Some(s[h]));
    AfterUnique(s, s[h].t, h + 1);
  }

  /** The first rank after a member's instant is the next rank. */
  lemma AfterMember<V>(s: seq<Stamped<V>>, h: nat)
    requires Sorted(s) && h < |s|
    ensures After(s, s[h].t) == h + 1
  {
    if h + 1 < |s| {
      assert s[h].t < s[h + 1].t;
    }
  }

  /** `higher(k)` is the element at rank `After(s, k)`, or `null` when there is none. */
  lemma HigherAfter<V>(s: seq<Stamped<V>>, k: Instant)
    requires Sorted(s)
    ensures Higher(s, k) == At(s, After(s, k))
  {
    if After(s, k) < |s| {
      HigherStep(s, k);
    } else {
      forall e | e in s
        ensures e.t <= k
      {
        var j :| 0 <= j < |s| && s[j] == e;
      }
    }
  }

  // Notifications.

  /** One listener call `onUpdate(t, value)`; `None` reports a removed element. */
  datatype Event<+V> = Event(t: Instant, value: Option<V>)
}
