/**
 * `NotificationBaseTimeline`: the listener registry every timeline shares.
 *
 * A registration is either a strong handle or a weak one; the garbage
 * collector is modelled by the `alive` flag of a weak handle. Listener
 * callbacks are external code: which of them throw is a parameter, and what
 * they do besides throwing (including calls back into the timeline) is not
 * modelled.
 */
module Notification {
  import opened Outcomes

  /** The identity of a listener object (`==` on references). */
  type ListenerId = nat

  datatype Registration =
    | Strong(id: ListenerId)
    | Weak(target: ListenerId, alive: bool)

  datatype Notifier = Notifier(regs: seq<Registration>, isNotifying: bool)

  /** The result of one `onUpdate`: the registry afterwards, who was called, in order, and how it ended. */
  datatype Delivery = Delivery(after: Notifier, called: seq<ListenerId>, outcome: Outcome)

  function NewNotifier(): Notifier
  {
    Notifier([], false)
  }

  /** A strong handle, or a weak one whose referent has not been reclaimed. */
  predicate Live(g: Registration)
  {
    g.Strong? || g.alive
  }

  function Target(g: Registration): ListenerId
  {
    if g.Strong? then g.id else g.target
  }

  /** A live registration whose listener throws. */
  predicate Throws(g: Registration, throwing: set<ListenerId>)
  {
    Live(g) && Target(g) in throwing
  }

  /** The registrations that survive purging, in order. */
  function Purged(regs: seq<Registration>): (r: seq<Registration>)
    ensures |r| <= |regs|
  {
    if |regs| == 0 then []
    else Purged(regs[..|regs| - 1]) + (if Live(regs[|regs| - 1]) then [regs[|regs| - 1]] else [])
  }

  /** The listeners a full delivery calls, in registration order. */
  function Receivers(regs: seq<Registration>): (r: seq<ListenerId>)
    ensures |r| <= |regs|
  {
    if |regs| == 0 then []
    else Receivers(regs[..|regs| - 1]) + (if Live(regs[|regs| - 1]) then [Target(regs[|regs| - 1])] else [])
  }

  /** The position of the first registration whose listener throws, or `|regs|`. */
  function ThrowIndex(regs: seq<Registration>, throwing: set<ListenerId>): (j: nat)
    ensures j <= |regs|
    ensures forall i | 0 <= i < j :: !Throws(regs[i], throwing)
    ensures j < |regs| ==> Throws(regs[j], throwing)
  {
    if |regs| == 0 then 0
    else if Throws(regs[0], throwing) then 0
    else 1 + ThrowIndex(regs[1..], throwing)
  }

  /**
   * What `onUpdate` does, stated declaratively. A re-entrant call fails and
   * changes nothing. Otherwise live listeners are called in order and dead
   * weak handles are dropped; an exception from a listener stops the loop,
   * and the flag is left set because the method has no `finally`.
   */
  function Deliver(n: Notifier, throwing: set<ListenerId>): Delivery
  {
    if n.isNotifying then Delivery(n, [], Fail(IllegalState))
    else
      var j := ThrowIndex(n.regs, throwing);
      if j == |n.regs| then
        Delivery(Notifier(Purged(n.regs), false), Receivers(n.regs), Done)
      else
        Delivery(Notifier(Purged(n.regs[..j]) + n.regs[j..], true), Receivers(n.regs[..j + 1]), Fail(ListenerFailure))
  }

  /**
   * The delivery the method evidently intends: the flag is cleared however the
   * loop ends, as a `finally` block would.
   */
  function DeliverGuarded(n: Notifier, throwing: set<ListenerId>): (d: Delivery)
    ensures d.called == Deliver(n, throwing).called && d.outcome == Deliver(n, throwing).outcome
    ensures d.after.regs == Deliver(n, throwing).after.regs
    ensures d.after.isNotifying == n.isNotifying
  {
    var d := Deliver(n, throwing);
    d.(after := d.after.(isNotifying := n.isNotifying))
  }

  /** As written, one throwing listener makes every later notification fail. */
  lemma StuckAfterListenerFailure(n: Notifier, throwing: set<ListenerId>, later: set<ListenerId>)
    requires !n.isNotifying && ThrowIndex(n.regs, throwing) < |n.regs|
    ensures Deliver(n, throwing).outcome == Fail(ListenerFailure)
    ensures Deliver(Deliver(n, throwing).after, later).outcome == Fail(IllegalState)
  {
  }

  /** With the flag cleared, a notifier that is not notifying never reports re-entrance. */
  lemma GuardedNeverStuck(n: Notifier, throwing: set<ListenerId>)
    requires !n.isNotifying
    ensures DeliverGuarded(n, throwing).outcome != Fail(IllegalState)
    ensures !DeliverGuarded(n, throwing).after.isNotifying
  {
  }

  /** Purging keeps exactly the live registrations. */
  lemma {:induction false} PurgedMembers(regs: seq<Registration>)
    ensures forall g :: g in Purged(regs) <==> g in regs && Live(g)
  {
    if |regs| > 0 {
      var front := regs[..|regs| - 1];
      PurgedMembers(front);
      assert regs == front + [regs[|regs| - 1]];
    }
  }

  /** Purging twice is purging once. */
  lemma {:induction false} PurgedIdempotent(regs: seq<Registration>)
    ensures Purged(Purged(regs)) == Purged(regs)
  {
    if |regs| > 0 {
      var front := regs[..|regs| - 1];
      var last := regs[|regs| - 1];
      PurgedIdempotent(front);
      if Live(last) {
        var p := Purged(front) + [last];
        assert Purged(regs) == p;
        assert p[..|p| - 1] == Purged(front);
        assert Purged(p) == Purged(Purged(front)) + [last];
      } else {
        assert Purged(regs) == Purged(front) + [];
        assert Purged(front) + [] == Purged(front);
      }
    }
  }

  /** The listeners called are the targets of the surviving registrations, in order. */
  lemma {:induction false} ReceiversArePurgedTargets(regs: seq<Registration>)
    ensures |Receivers(regs)| == |Purged(regs)|
    ensures forall i | 0 <= i < |Purged(regs)| :: Receivers(regs)[i] == Target(Purged(regs)[i])
  {
    if |regs| > 0 {
      ReceiversArePurgedTargets(regs[..|regs| - 1]);
    }
  }

  /** `onUpdate`: the delivery loop over a snapshot of the registrations. */
  method OnUpdate(n: Notifier, throwing: set<ListenerId>) returns (d: Delivery)
    ensures d == Deliver(n, throwing)
  {
    if n.isNotifying {
      return Delivery(n, [], Fail(IllegalState));
    }
    var kept: seq<Registration> := [];
    var called: seq<ListenerId> := [];
    var i := 0;
    while i < |n.regs|
      invariant 0 <= i <= |n.regs|
      invariant forall j | 0 <= j < i :: !Throws(n.regs[j], throwing)
      invariant kept == Purged(n.regs[..i])
      invariant called == Receivers(n.regs[..i])
    {
      var g := n.regs[i];
      PrefixStep(n.regs, i);
      if Live(g) {
        called := called + [Target(g)];
        if Target(g) in throwing {
          ThrowIndexAt(n.regs, throwing, i);
          return Delivery(Notifier(kept + n.regs[i..], true), called, Fail(ListenerFailure));
        }
        kept := kept + [g];
      }
      i := i + 1;
    }
    assert n.regs[..i] == n.regs;
    return Delivery(Notifier(kept, false), called, Done);
  }

  /** Extending a prefix by one registration extends its purge and its receivers. */
  lemma PrefixStep(regs: seq<Registration>, i: nat)
    requires i < |regs|
    ensures Purged(regs[..i + 1]) == Purged(regs[..i]) + (if Live(regs[i]) then [regs[i]] else [])
    ensures Receivers(regs[..i + 1]) == Receivers(regs[..i]) + (if Live(regs[i]) then [Target(regs[i])] else [])
  {
    assert regs[..i + 1][..i] == regs[..i];
  }

  /** The first throwing registration is where `ThrowIndex` stops. */
  lemma ThrowIndexAt(regs: seq<Registration>, throwing: set<ListenerId>, i: nat)
    requires i < |regs| && Throws(regs[i], throwing)
    requires forall j | 0 <= j < i :: !Throws(regs[j], throwing)
    ensures ThrowIndex(regs, throwing) == i
  {
  }

  /** `hasListeners`: any registration counts, even a weak one whose referent is gone. */
  function HasListeners(n: Notifier): (b: bool)
    ensures b <==> exists g :: g in n.regs
    ensures !b ==> Receivers(n.regs) == [] && Purged(n.regs) == []
  {
    if |n.regs| == 0 then false
    else
      assert n.regs[0] in n.regs;
      true
  }

  /** Registrations none of which is live are all purged and reach nobody. */
  lemma {:induction false} AllDead(regs: seq<Registration>)
    requires forall i | 0 <= i < |regs| :: !Live(regs[i])
    ensures Purged(regs) == [] && Receivers(regs) == []
  {
    if |regs| > 0 {
      AllDead(regs[..|regs| - 1]);
    }
  }

  /**
   * A registry holding only reclaimed weak handles still reports listeners,
   * although a delivery calls nobody; the purge it does leaves none.
   */
  lemma DeadRegistrationsStillListen(n: Notifier, throwing: set<ListenerId>)
    requires !n.isNotifying && |n.regs| > 0
    requires forall i | 0 <= i < |n.regs| :: !Live(n.regs[i])
    ensures HasListeners(n)
    ensures Deliver(n, throwing).called == [] && Deliver(n, throwing).outcome == Done
    ensures !HasListeners(Deliver(n, throwing).after)
  {
    AllDead(n.regs);
  }

  function AddListener(n: Notifier, id: ListenerId): Notifier
  {
    n.(regs := n.regs + [Strong(id)])
  }

  function AddWeakListener(n: Notifier, id: ListenerId): Notifier
  {
    n.(regs := n.regs + [Weak(id, true)])
  }

  /** The position of the first registration equal to `g`, or `|regs|`. */
  function IndexOfReg(regs: seq<Registration>, g: Registration): (j: nat)
    ensures j <= |regs|
    ensures forall i | 0 <= i < j :: regs[i] != g
    ensures j < |regs| ==> regs[j] == g
  {
    if |regs| == 0 then 0
    else if regs[0] == g then 0
    else 1 + IndexOfReg(regs[1..], g)
  }

  /** A weak handle whose referent is still `id` (a dead handle refers to nothing). */
  predicate RefersTo(g: Registration, id: ListenerId)
  {
    g.Weak? && g.alive && g.target == id
  }

  /** The position of the first weak handle still referring to `id`, or `|regs|`. */
  function IndexOfWeak(regs: seq<Registration>, id: ListenerId): (j: nat)
    ensures j <= |regs|
    ensures forall i | 0 <= i < j :: !RefersTo(regs[i], id)
    ensures j < |regs| ==> RefersTo(regs[j], id)
  {
    if |regs| == 0 then 0
    else if RefersTo(regs[0], id) then 0
    else 1 + IndexOfWeak(regs[1..], id)
  }

  function RemoveAt(regs: seq<Registration>, j: nat): (r: seq<Registration>)
    requires j < |regs|
    ensures |r| == |regs| - 1
    ensures forall g | g in r :: g in regs
  {
    regs[..j] + regs[j + 1..]
  }

  /**
   * `removeListener`: drop the first strong registration of `id`; failing
   * that, the first weak handle whose referent is `id`; otherwise nothing.
   */
  function RemoveListener(n: Notifier, id: ListenerId): (r: Notifier)
    ensures r.isNotifying == n.isNotifying
    ensures Strong(id) in n.regs ==> |r.regs| == |n.regs| - 1
    ensures (exists g | g in n.regs :: g == Strong(id) || RefersTo(g, id)) <==> |r.regs| == |n.regs| - 1
    ensures (forall g | g in n.regs :: g != Strong(id) && !RefersTo(g, id)) ==> r == n
    ensures forall g | g in r.regs :: g in n.regs
  {
    var s := IndexOfReg(n.regs, Strong(id));
    if s < |n.regs| then
      assert n.regs[s] in n.regs;
      n.(regs := RemoveAt(n.regs, s))
    else
      var w := IndexOfWeak(n.regs, id);
      if w < |n.regs| then
        assert n.regs[w] in n.regs;
        n.(regs := RemoveAt(n.regs, w))
      else n
  }

  /** The registration `removeListener` drops is the first strong one of the listener, the rest keeping their order. */
  lemma RemovesFirstStrong(n: Notifier, id: ListenerId, j: nat)
    requires j < |n.regs| && n.regs[j] == Strong(id)
    requires forall i | 0 <= i < j :: n.regs[i] != Strong(id)
    ensures RemoveListener(n, id).regs == n.regs[..j] + n.regs[j + 1..]
  {
    assert IndexOfReg(n.regs, Strong(id)) == j;
  }

  /** Without a strong registration, it is the first weak handle still referring to the listener. */
  lemma RemovesFirstWeak(n: Notifier, id: ListenerId, j: nat)
    requires Strong(id) !in n.regs
    requires j < |n.regs| && RefersTo(n.regs[j], id)
    requires forall i | 0 <= i < j :: !RefersTo(n.regs[i], id)
    ensures RemoveListener(n, id).regs == n.regs[..j] + n.regs[j + 1..]
  {
    assert IndexOfReg(n.regs, Strong(id)) == |n.regs|;
    assert IndexOfWeak(n.regs, id) == j;
  }

  /** Adding a listener and removing it again restores the registry. */
  lemma AddRemove(n: Notifier, id: ListenerId)
    requires Strong(id) !in n.regs
    ensures RemoveListener(AddListener(n, id), id) == n
  {
    var regs := AddListener(n, id).regs;
    forall i | 0 <= i < |n.regs|
      ensures regs[i] != Strong(id)
    {
      assert regs[i] == n.regs[i] && n.regs[i] in n.regs;
    }
    var j := IndexOfReg(regs, Strong(id));
    assert regs[|n.regs|] == Strong(id);
    assert j == |n.regs|;
    assert RemoveAt(regs, j) == n.regs by {
      assert regs[..j] == n.regs;
      assert regs[j + 1..] == [];
    }
  }

  /** The same for a weak registration, as long as its referent is alive. */
  lemma AddWeakRemove(n: Notifier, id: ListenerId)
    requires Strong(id) !in n.regs
    requires forall g | g in n.regs :: !RefersTo(g, id)
    ensures RemoveListener(AddWeakListener(n, id), id) == n
  {
    var regs := AddWeakListener(n, id).regs;
    forall i | 0 <= i < |n.regs|
      ensures regs[i] != Strong(id)
    {
      assert regs[i] == n.regs[i] && n.regs[i] in n.regs;
    }
    forall i | 0 <= i < |n.regs|
      ensures !RefersTo(regs[i], id)
    {
      assert regs[i] == n.regs[i] && n.regs[i] in n.regs;
    }
    assert IndexOfReg(regs, Strong(id)) == |regs|;
    assert RefersTo(regs[|n.regs|], id);
    assert IndexOfWeak(regs, id) == |n.regs|;
    assert RemoveAt(regs, |n.regs|) == n.regs;
  }
}
