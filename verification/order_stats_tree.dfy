/**
 * The order statistic tree behind `OrderStatsTreeTimeline`: an AVL tree keyed
 * by instant whose nodes also store their subtree size.
 *
 * The Java tree is mutable and keeps parent pointers; here every node is an
 * immutable value and `put` returns the new root. Stored sizes and heights are
 * kept as fields, exactly as the Java `Entry` does, and `Valid` says they are right.
 * Each query is proved equal to the corresponding `Timeline` reference on the
 * in-order sequence of the tree.
 */
module OrderStatsTree {
  import opened Outcomes
  import opened Timeline

  datatype Tree<+V> =
    | Nil
    | Node(key: Instant, value: V, left: Tree<V>, right: Tree<V>, size: int, height: int)

  /** `getSize`: 0 for an empty subtree. */
  function SizeOf<V>(t: Tree<V>): int
  {
    if t.Nil? then 0 else t.size
  }

  /** `getHeight`: -1 for an empty subtree. */
  function HeightOf<V>(t: Tree<V>): int
  {
    if t.Nil? then -1 else t.height
  }

  function MaxInt(a: int, b: int): int
  {
    if a < b then b else a
  }

  /** The in-order sequence: the timeline the tree represents. */
  function Elements<V>(t: Tree<V>): seq<Stamped<V>>
  {
    match t
    case Nil => []
    case Node(k, v, l, r, _, _) => Elements(l) + [Stamped(k, v)] + Elements(r)
  }

  /** Search order, correct stored sizes and heights, and the AVL balance condition. */
  ghost predicate Valid<V>(t: Tree<V>)
  {
    match t
    case Nil => true
    case Node(k, _, l, r, size, height) =>
      Valid(l) && Valid(r)
      && Below(Elements(l), k) && Above(Elements(r), k)
      && size == SizeOf(l) + SizeOf(r) + 1
      && height == 1 + MaxInt(HeightOf(l), HeightOf(r))
      && -1 <= HeightOf(r) - HeightOf(l) <= 1
  }

  lemma {:induction false} ValidFacts<V>(t: Tree<V>)
    requires Valid(t)
    ensures Sorted(Elements(t))
    ensures SizeOf(t) == |Elements(t)|
    ensures HeightOf(t) >= -1
    ensures t.Node? ==> t.height >= 0
  {
    if t.Node? {
      ValidFacts(t.left);
      ValidFacts(t.right);
      SortedJoin(Elements(t.left), Stamped(t.key, t.value), Elements(t.right));
    }
  }

  /** A node whose size and height are recomputed from its children, as the rotations do. */
  function Mk<V>(k: Instant, v: V, l: Tree<V>, r: Tree<V>): Tree<V>
  {
    Node(k, v, l, r, 1 + SizeOf(l) + SizeOf(r), 1 + MaxInt(HeightOf(l), HeightOf(r)))
  }

  lemma MkValid<V>(k: Instant, v: V, l: Tree<V>, r: Tree<V>)
    requires Valid(l) && Valid(r) && Below(Elements(l), k) && Above(Elements(r), k)
    requires -1 <= HeightOf(r) - HeightOf(l) <= 1
    ensures Valid(Mk(k, v, l, r))
  {
  }

  function RotateLeft<V>(a: Tree<V>): Tree<V>
    requires a.Node? && a.right.Node?
  {
    var b := a.right;
    Mk(b.key, b.value, Mk(a.key, a.value, a.left, b.left), b.right)
  }

  function RotateRight<V>(a: Tree<V>): Tree<V>
    requires a.Node? && a.left.Node?
  {
    var b := a.left;
    Mk(b.key, b.value, b.left, Mk(a.key, a.value, b.right, a.right))
  }

  /** `balance`: a single or double rotation when the balance factor reaches 2. */
  function Balance<V>(n: Tree<V>): Tree<V>
    requires n.Node? && Valid(n.left) && Valid(n.right)
  {
    ValidFacts(n.left);
    ValidFacts(n.right);
    var bf := HeightOf(n.right) - HeightOf(n.left);
    if bf == 2 then
      ValidFacts(n.right.left);
      ValidFacts(n.right.right);
      var r := if HeightOf(n.right.right) - HeightOf(n.right.left) == -1 then RotateRight(n.right) else n.right;
      RotateLeft(n.(right := r))
    else if bf == -2 then
      ValidFacts(n.left.left);
      ValidFacts(n.left.right);
      var l := if HeightOf(n.left.right) - HeightOf(n.left.left) == 1 then RotateLeft(n.left) else n.left;
      RotateRight(n.(left := l))
    else
      n
  }

  /** A node that is valid except that its children's heights may differ by two. */
  ghost predicate NearlyValid<V>(n: Tree<V>)
  {
    n.Node? && Valid(n.left) && Valid(n.right)
    && Below(Elements(n.left), n.key) && Above(Elements(n.right), n.key)
    && n.size == SizeOf(n.left) + SizeOf(n.right) + 1
    && n.height == 1 + MaxInt(HeightOf(n.left), HeightOf(n.right))
    && -2 <= HeightOf(n.right) - HeightOf(n.left) <= 2
  }

  /** Three valid subtrees in search order, joined by two keys with compatible heights. */
  lemma {:induction false} JoinValid<V>(a: Tree<V>, x: Stamped<V>, b: Tree<V>, y: Stamped<V>, c: Tree<V>)
    requires Valid(a) && Valid(b) && Valid(c)
    requires Below(Elements(a), x.t) && Above(Elements(b), x.t)
    requires Below(Elements(b), y.t) && Above(Elements(c), y.t) && x.t < y.t
    requires -1 <= HeightOf(b) - HeightOf(a) <= 1
    requires -1 <= HeightOf(c) - (1 + MaxInt(HeightOf(a), HeightOf(b))) <= 1
    ensures Valid(Mk(y.t, y.v, Mk(x.t, x.v, a, b), c))
  {
    MkValid(x.t, x.v, a, b);
    var ab := Mk(x.t, x.v, a, b);
    assert Below(Elements(ab), y.t);
    MkValid(y.t, y.v, ab, c);
  }

  /** The mirror image of `JoinValid`. */
  lemma {:induction false} JoinValidRight<V>(a: Tree<V>, x: Stamped<V>, b: Tree<V>, y: Stamped<V>, c: Tree<V>)
    requires Valid(a) && Valid(b) && Valid(c)
    requires Below(Elements(a), x.t) && Above(Elements(b), x.t)
    requires Below(Elements(b), y.t) && Above(Elements(c), y.t) && x.t < y.t
    requires -1 <= HeightOf(c) - HeightOf(b) <= 1
    requires -1 <= (1 + MaxInt(HeightOf(b), HeightOf(c))) - HeightOf(a) <= 1
    ensures Valid(Mk(x.t, x.v, a, Mk(y.t, y.v, b, c)))
  {
    MkValid(y.t, y.v, b, c);
    var bc := Mk(y.t, y.v, b, c);
    assert Above(Elements(bc), x.t);
    MkValid(x.t, x.v, a, bc);
  }

  /** Four subtrees and three keys, rebuilt as a perfectly rooted pair: the double rotation's result. */
  lemma {:induction false} DoubleJoinValid<V>(a: Tree<V>, x: Stamped<V>, b: Tree<V>, y: Stamped<V>, c: Tree<V>, z: Stamped<V>, d: Tree<V>)
    requires Valid(a) && Valid(b) && Valid(c) && Valid(d)
    requires Below(Elements(a), x.t) && Above(Elements(b), x.t) && Below(Elements(b), y.t)
    requires Above(Elements(c), y.t) && Below(Elements(c), z.t) && Above(Elements(d), z.t)
    requires x.t < y.t < z.t
    requires -1 <= HeightOf(b) - HeightOf(a) <= 1 && -1 <= HeightOf(d) - HeightOf(c) <= 1
    requires -1 <= MaxInt(HeightOf(c), HeightOf(d)) - MaxInt(HeightOf(a), HeightOf(b)) <= 1
    ensures Valid(Mk(y.t, y.v, Mk(x.t, x.v, a, b), Mk(z.t, z.v, c, d)))
  {
    MkValid(x.t, x.v, a, b);
    MkValid(z.t, z.v, c, d);
    var ab := Mk(x.t, x.v, a, b);
    var cd := Mk(z.t, z.v, c, d);
    assert Below(Elements(ab), y.t);
    assert Above(Elements(cd), y.t);
    MkValid(y.t, y.v, ab, cd);
  }

  lemma RightDoubleShape<V>(n: Tree<V>)
    requires NearlyValid(n) && HeightOf(n.right) - HeightOf(n.left) == 2
    requires n.right.Node? && n.right.left.Node?
    requires HeightOf(n.right.right) - HeightOf(n.right.left) == -1
    ensures Balance(n) == Mk(n.right.left.key, n.right.left.value,
                             Mk(n.key, n.value, n.left, n.right.left.left),
                             Mk(n.right.key, n.right.value, n.right.left.right, n.right.right))
  {
  }

  lemma RightSingleShape<V>(n: Tree<V>)
    requires NearlyValid(n) && HeightOf(n.right) - HeightOf(n.left) == 2
    requires n.right.Node?
    requires HeightOf(n.right.right) - HeightOf(n.right.left) != -1
    ensures Balance(n) == Mk(n.right.key, n.right.value, Mk(n.key, n.value, n.left, n.right.left), n.right.right)
  {
  }

  lemma LeftDoubleShape<V>(n: Tree<V>)
    requires NearlyValid(n) && HeightOf(n.right) - HeightOf(n.left) == -2
    requires n.left.Node? && n.left.right.Node?
    requires HeightOf(n.left.right) - HeightOf(n.left.left) == 1
    ensures Balance(n) == Mk(n.left.right.key, n.left.right.value,
                             Mk(n.left.key, n.left.value, n.left.left, n.left.right.left),
                             Mk(n.key, n.value, n.left.right.right, n.right))
  {
  }

  lemma LeftSingleShape<V>(n: Tree<V>)
    requires NearlyValid(n) && HeightOf(n.right) - HeightOf(n.left) == -2
    requires n.left.Node?
    requires HeightOf(n.left.right) - HeightOf(n.left.left) != 1
    ensures Balance(n) == Mk(n.left.key, n.left.value, n.left.left, Mk(n.key, n.value, n.left.right, n.right))
  {
  }

  lemma {:induction false} BalanceRightDouble<V>(n: Tree<V>)
    requires NearlyValid(n) && HeightOf(n.right) - HeightOf(n.left) == 2
    requires n.right.Node? && HeightOf(n.right.right) - HeightOf(n.right.left) == -1
    ensures Valid(Balance(n))
    ensures SameElements(Elements(Balance(n)), Elements(n))
    ensures HeightOf(Balance(n)) == HeightOf(n.right)
  {
    var x, l, r := Stamped(n.key, n.value), n.left, n.right;
    var y, rl, rr := Stamped(r.key, r.value), r.left, r.right;
    ValidFacts(l);
    ValidFacts(rl);
    ValidFacts(rr);
    var z, rll, rlr := Stamped(rl.key, rl.value), rl.left, rl.right;
    ValidFacts(rll);
    ValidFacts(rlr);
    assert y in Elements(r);
    assert z in Elements(rl);
    RightDoubleShape(n);
    DoubleJoinValid(l, x, rll, z, rlr, y, rr);
  }

  lemma {:induction false} BalanceRightSingle<V>(n: Tree<V>)
    requires NearlyValid(n) && HeightOf(n.right) - HeightOf(n.left) == 2
    requires n.right.Node? && HeightOf(n.right.right) - HeightOf(n.right.left) != -1
    ensures Valid(Balance(n))
    ensures SameElements(Elements(Balance(n)), Elements(n))
    ensures HeightOf(n.right) <= HeightOf(Balance(n)) <= HeightOf(n.right) + 1
  {
    var x, l, r := Stamped(n.key, n.value), n.left, n.right;
    var y, rl, rr := Stamped(r.key, r.value), r.left, r.right;
    ValidFacts(l);
    ValidFacts(rl);
    ValidFacts(rr);
    assert y in Elements(r);
    RightSingleShape(n);
    JoinValid(l, x, rl, y, rr);
  }

  lemma {:induction false} BalanceLeftDouble<V>(n: Tree<V>)
    requires NearlyValid(n) && HeightOf(n.right) - HeightOf(n.left) == -2
    requires n.left.Node? && HeightOf(n.left.right) - HeightOf(n.left.left) == 1
    ensures Valid(Balance(n))
    ensures SameElements(Elements(Balance(n)), Elements(n))
    ensures HeightOf(Balance(n)) == HeightOf(n.left)
  {
    var x, l, r := Stamped(n.key, n.value), n.left, n.right;
    var y, ll, lr := Stamped(l.key, l.value), l.left, l.right;
    ValidFacts(r);
    ValidFacts(ll);
    ValidFacts(lr);
    var z, lrl, lrr := Stamped(lr.key, lr.value), lr.left, lr.right;
    ValidFacts(lrl);
    ValidFacts(lrr);
    assert y in Elements(l);
    assert z in Elements(lr);
    LeftDoubleShape(n);
    DoubleJoinValid(ll, y, lrl, z, lrr, x, r);
  }

  lemma {:induction false} BalanceLeftSingle<V>(n: Tree<V>)
    requires NearlyValid(n) && HeightOf(n.right) - HeightOf(n.left) == -2
    requires n.left.Node? && HeightOf(n.left.right) - HeightOf(n.left.left) != 1
    ensures Valid(Balance(n))
    ensures SameElements(Elements(Balance(n)), Elements(n))
    ensures HeightOf(n.left) <= HeightOf(Balance(n)) <= HeightOf(n.left) + 1
  {
    var x, l, r := Stamped(n.key, n.value), n.left, n.right;
    var y, ll, lr := Stamped(l.key, l.value), l.left, l.right;
    ValidFacts(r);
    ValidFacts(ll);
    ValidFacts(lr);
    assert y in Elements(l);
    LeftSingleShape(n);
    JoinValidRight(ll, y, lr, x, r);
  }

  /**
   * `balance` restores the AVL condition after one child grew by one level,
   * keeps the in-order sequence and the size, and changes the height by at most one.
   */
  lemma BalanceSpec<V>(n: Tree<V>)
    requires NearlyValid(n)
    ensures Valid(Balance(n))
    ensures Elements(Balance(n)) == Elements(n)
    ensures SizeOf(Balance(n)) == n.size
    ensures MaxInt(HeightOf(n.left), HeightOf(n.right)) <= HeightOf(Balance(n)) <= n.height
    ensures -1 <= HeightOf(n.right) - HeightOf(n.left) <= 1 ==> Balance(n) == n
  {
    ValidFacts(n.left);
    ValidFacts(n.right);
    var bf := HeightOf(n.right) - HeightOf(n.left);
    if bf == 2 || bf == -2 {
      if bf == 2 {
        if HeightOf(n.right.right) - HeightOf(n.right.left) == -1 {
          BalanceRightDouble(n);
        } else {
          BalanceRightSingle(n);
        }
      } else {
        if HeightOf(n.left.right) - HeightOf(n.left.left) == 1 {
          BalanceLeftDouble(n);
        } else {
          BalanceLeftSingle(n);
        }
      }
      var b := Balance(n);
      ValidFacts(b);
      SortedJoin(Elements(n.left), Stamped(n.key, n.value), Elements(n.right));
      SortedUnique(Elements(b), Elements(n));
      assert |Elements(n)| == |Elements(n.left)| + 1 + |Elements(n.right)|;
    }
  }

  /**
   * The step of `put` after the recursive call into the left subtree: when the
   * subtree grew, bump the size and height and rebalance; otherwise the value
   * was replaced in place and the node keeps its size and height.
   */
  function AttachLeft<V>(t: Tree<V>, e: Tree<V>): Tree<V>
    requires t.Node? && Valid(e) && Valid(t.right)
  {
    if SizeOf(e) != SizeOf(t.left) then
      Balance(Node(t.key, t.value, e, t.right, t.size + 1, 1 + MaxInt(HeightOf(e), HeightOf(t.right))))
    else
      t.(left := e)
  }

  /** The mirror image of `AttachLeft`. */
  function AttachRight<V>(t: Tree<V>, e: Tree<V>): Tree<V>
    requires t.Node? && Valid(t.left) && Valid(e)
  {
    if SizeOf(e) != SizeOf(t.right) then
      Balance(Node(t.key, t.value, t.left, e, t.size + 1, 1 + MaxInt(HeightOf(t.left), HeightOf(e))))
    else
      t.(right := e)
  }

  /** What the recursive call of `put` promises about the new subtree `e` replacing `before`. */
  ghost predicate PutResult<V>(before: Tree<V>, k: Instant, v: V, e: Tree<V>)
    requires Valid(before)
  {
    ValidFacts(before);
    Valid(e) && Elements(e) == Insert(Elements(before), k, v)
    && HeightOf(before) <= HeightOf(e) <= HeightOf(before) + 1
    && (SizeOf(e) == SizeOf(before) ==> HeightOf(e) == HeightOf(before))
  }

  lemma {:induction false} AttachLeftSpec<V>(t: Tree<V>, k: Instant, v: V, e: Tree<V>)
    requires Valid(t) && t.Node? && k < t.key
    requires PutResult(t.left, k, v, e)
    ensures PutResult(t, k, v, AttachLeft(t, e))
  {
    var x, l, r := Stamped(t.key, t.value), t.left, t.right;
    ValidFacts(l);
    ValidFacts(r);
    ValidFacts(e);
    InsertJoin(Elements(l), x, Elements(r), k, v);
    assert Below(Elements(e), x.t);
    if SizeOf(e) != SizeOf(l) {
      AttachLeftGrown(t, k, v, e);
    }
  }

  lemma {:induction false} AttachLeftGrown<V>(t: Tree<V>, k: Instant, v: V, e: Tree<V>)
    requires Valid(t) && t.Node? && k < t.key
    requires PutResult(t.left, k, v, e) && SizeOf(e) != SizeOf(t.left)
    requires Below(Elements(e), t.key)
    ensures Valid(AttachLeft(t, e))
    ensures Elements(AttachLeft(t, e)) == Elements(t.(left := e))
    ensures HeightOf(t) <= HeightOf(AttachLeft(t, e)) <= HeightOf(t) + 1
    ensures SizeOf(AttachLeft(t, e)) == SizeOf(t) + 1
  {
    var l, r := t.left, t.right;
    ValidFacts(l);
    ValidFacts(r);
    ValidFacts(e);
    var n := Node(t.key, t.value, e, r, t.size + 1, 1 + MaxInt(HeightOf(e), HeightOf(r)));
    assert NearlyValid(n);
    BalanceSpec(n);
  }

  lemma {:induction false} AttachRightSpec<V>(t: Tree<V>, k: Instant, v: V, e: Tree<V>)
    requires Valid(t) && t.Node? && t.key < k
    requires PutResult(t.right, k, v, e)
    ensures PutResult(t, k, v, AttachRight(t, e))
  {
    var x, l, r := Stamped(t.key, t.value), t.left, t.right;
    ValidFacts(l);
    ValidFacts(r);
    ValidFacts(e);
    InsertJoin(Elements(l), x, Elements(r), k, v);
    assert Above(Elements(e), x.t);
    if SizeOf(e) != SizeOf(r) {
      AttachRightGrown(t, k, v, e);
    }
  }

  lemma {:induction false} AttachRightGrown<V>(t: Tree<V>, k: Instant, v: V, e: Tree<V>)
    requires Valid(t) && t.Node? && t.key < k
    requires PutResult(t.right, k, v, e) && SizeOf(e) != SizeOf(t.right)
    requires Above(Elements(e), t.key)
    ensures Valid(AttachRight(t, e))
    ensures Elements(AttachRight(t, e)) == Elements(t.(right := e))
    ensures HeightOf(t) <= HeightOf(AttachRight(t, e)) <= HeightOf(t) + 1
    ensures SizeOf(AttachRight(t, e)) == SizeOf(t) + 1
  {
    var l, r := t.left, t.right;
    ValidFacts(l);
    ValidFacts(r);
    ValidFacts(e);
    var n := Node(t.key, t.value, l, e, t.size + 1, 1 + MaxInt(HeightOf(l), HeightOf(e)));
    assert NearlyValid(n);
    BalanceSpec(n);
  }

  /**
   * `put`: insert or replace. The result is a valid AVL tree holding exactly
   * `Insert` of the old contents, one level taller at most.
   */
  function Put<V>(t: Tree<V>, k: Instant, v: V): (r: Tree<V>)
    requires Valid(t)
    ensures Valid(r)
    ensures Sorted(Elements(t)) && Elements(r) == Insert(Elements(t), k, v)
    ensures HeightOf(t) <= HeightOf(r) <= HeightOf(t) + 1
    ensures SizeOf(r) == SizeOf(t) ==> HeightOf(r) == HeightOf(t)
    decreases t
  {
    ValidFacts(t);
    match t
    case Nil => Node(k, v, Nil, Nil, 1, 0)
    case Node(x, xv, l, rt, _, _) =>
      if k < x then
        var e := Put(l, k, v);
        AttachLeftSpec(t, k, v, e);
        AttachLeft(t, e)
      else if x < k then
        var e := Put(rt, k, v);
        AttachRightSpec(t, k, v, e);
        AttachRight(t, e)
      else
        ValidFacts(l);
        ValidFacts(rt);
        InsertJoin(Elements(l), Stamped(x, xv), Elements(rt), k, v);
        t.(value := v)
  }

  /** `ValidFacts` for a node and both children, plus the split of its contents. */
  lemma NodeFacts<V>(t: Tree<V>)
    requires Valid(t) && t.Node?
    ensures Sorted(Elements(t.left)) && Sorted(Elements(t.right))
    ensures Below(Elements(t.left), t.key) && Above(Elements(t.right), t.key)
    ensures SizeOf(t.left) == |Elements(t.left)|
    ensures Elements(t) == Elements(t.left) + [Stamped(t.key, t.value)] + Elements(t.right)
  {
    ValidFacts(t.left);
    ValidFacts(t.right);
  }

  /** `rank`: the tree's `indexOf`, with the `Arrays.binarySearch` encoding. */
  function Rank<V>(t: Tree<V>, k: Instant): (r: int)
    requires Valid(t)
    ensures Sorted(Elements(t)) && r == IndexOf(Elements(t), k)
  {
    ValidFacts(t);
    match t
    case Nil => -1
    case Node(x, xv, l, rt, _, _) =>
      NodeFacts(t);
      IndexOfJoin(Elements(l), Stamped(x, xv), Elements(rt), k);
      if k < x then Rank(l, k)
      else if k == x then SizeOf(l)
      else
        var ri := Rank(rt, k);
        if ri < 0 then ri - SizeOf(l) - 1 else ri + SizeOf(l) + 1
  }

  /** `get(root, instant)`: the entry stored at exactly `k`. */
  function GetEntry<V>(t: Tree<V>, k: Instant): (r: Option<Stamped<V>>)
    requires Valid(t)
    ensures Sorted(Elements(t)) && r == Get(Elements(t), k)
  {
    ValidFacts(t);
    match t
    case Nil => None
    case Node(x, xv, l, rt, _, _) =>
      NodeFacts(t);
      GetJoin(Elements(l), Stamped(x, xv), Elements(rt), k);
      if x == k then Some(Stamped(x, xv))
      else if x < k then GetEntry(rt, k)
      else GetEntry(l, k)
  }

  /** `select`: the entry of rank `i`, or none past the end. */
  function Select<V>(t: Tree<V>, i: nat): (r: Option<Stamped<V>>)
    requires Valid(t)
    ensures r == At(Elements(t), i)
  {
    match t
    case Nil => None
    case Node(x, xv, l, rt, _, _) =>
      NodeFacts(t);
      AtJoin(Elements(l), Stamped(x, xv), Elements(rt), i);
      var leftCount := SizeOf(l);
      if i < leftCount then Select(l, i)
      else if i == leftCount then Some(Stamped(x, xv))
      else Select(rt, i - leftCount - 1)
  }

  /** `getFirst`: the leftmost entry. */
  function FirstEntry<V>(t: Tree<V>): (r: Option<Stamped<V>>)
    requires Valid(t)
    ensures Sorted(Elements(t)) && r == First(Elements(t))
  {
    ValidFacts(t);
    match t
    case Nil => None
    case Node(x, xv, l, _, _, _) =>
      NodeFacts(t);
      if l.Nil? then Some(Stamped(x, xv)) else FirstEntry(l)
  }

  /** `getLast`: the rightmost entry. */
  function LastEntry<V>(t: Tree<V>): (r: Option<Stamped<V>>)
    requires Valid(t)
    ensures Sorted(Elements(t)) && r == Last(Elements(t))
  {
    ValidFacts(t);
    match t
    case Nil => None
    case Node(x, xv, _, rt, _, _) =>
      NodeFacts(t);
      if rt.Nil? then Some(Stamped(x, xv)) else LastEntry(rt)
  }

  /**
   * `lower(root, key, inclusive)`: `floor` when inclusive, `lower` otherwise.
   * At an equal key the exclusive search takes the predecessor; within the
   * subtree that is its rightmost left descendant, and when there is none the
   * unwinding of the recursion yields the nearest ancestor the search went
   * right from, which is the entry the parent-pointer walk finds.
   */
  function LowerEntry<V>(t: Tree<V>, k: Instant, inclusive: bool): (r: Option<Stamped<V>>)
    requires Valid(t)
    ensures Sorted(Elements(t))
    ensures r == if inclusive then Floor(Elements(t), k) else Lower(Elements(t), k)
  {
    ValidFacts(t);
    match t
    case Nil => None
    case Node(x, xv, l, rt, _, _) =>
      NodeFacts(t);
      FloorJoin(Elements(l), Stamped(x, xv), Elements(rt), k);
      LowerJoin(Elements(l), Stamped(x, xv), Elements(rt), k);
      if x == k then
        if inclusive then Some(Stamped(x, xv)) else LastEntry(l)
      else if x > k then LowerEntry(l, k, inclusive)
      else
        var rightFloor := LowerEntry(rt, k, inclusive);
        if rightFloor.Some? && rightFloor.value.t <= k then rightFloor else Some(Stamped(x, xv))
  }

  /** `higher(root, key, inclusive)`: `ceiling` when inclusive, `higher` otherwise. */
  function HigherEntry<V>(t: Tree<V>, k: Instant, inclusive: bool): (r: Option<Stamped<V>>)
    requires Valid(t)
    ensures Sorted(Elements(t))
    ensures r == if inclusive then Ceiling(Elements(t), k) else Higher(Elements(t), k)
  {
    ValidFacts(t);
    match t
    case Nil => None
    case Node(x, xv, l, rt, _, _) =>
      NodeFacts(t);
      CeilingJoin(Elements(l), Stamped(x, xv), Elements(rt), k);
      HigherJoin(Elements(l), Stamped(x, xv), Elements(rt), k);
      if x == k then
        if inclusive then Some(Stamped(x, xv)) else FirstEntry(rt)
      else if x < k then HigherEntry(rt, k, inclusive)
      else
        var leftCeil := HigherEntry(l, k, inclusive);
        if leftCeil.Some? && leftCeil.value.t >= k then leftCeil else Some(Stamped(x, xv))
  }
}
