/** Suppressed blocks that visible code still leads to are shown again. */
module Unsuppress {
  import opened Graph

  /** An edge from a visible block that is not one of the calls being abstracted. */
  ghost predicate LiveIncoming(g: Cfg, calls: set<(nat, nat)>, hidden: set<nat>, b: nat) {
    b in hidden && b in g.blocks && exists p :: Edge(g, p, b) && p !in hidden && (p, b) !in calls
  }

  ghost predicate HiddenPath(g: Cfg, hidden: set<nat>, p: seq<nat>, a: nat, b: nat) {
    PathFromTo(g, p, a, b) && forall x :: x in p ==> x in hidden
  }

  /** Reached through hidden blocks from one with a live incoming edge. */
  ghost predicate Exposed(g: Cfg, calls: set<(nat, nat)>, hidden: set<nat>, b: nat) {
    exists a, p :: LiveIncoming(g, calls, hidden, a) && HiddenPath(g, hidden, p, a, b)
  }

  ghost function StillHidden(g: Cfg, calls: set<(nat, nat)>, hidden: set<nat>): set<nat> {
    set b | b in hidden && !Exposed(g, calls, hidden, b)
  }

  lemma ExposedSelf(g: Cfg, calls: set<(nat, nat)>, hidden: set<nat>, b: nat)
    requires LiveIncoming(g, calls, hidden, b)
    ensures Exposed(g, calls, hidden, b)
  {
    assert HiddenPath(g, hidden, [b], b, b);
  }

  lemma ExposedNext(g: Cfg, calls: set<(nat, nat)>, hidden: set<nat>, b: nat, c: nat)
    requires Exposed(g, calls, hidden, b) && Edge(g, b, c) && c in hidden
    ensures Exposed(g, calls, hidden, c)
  {
    var a, p :| LiveIncoming(g, calls, hidden, a) && HiddenPath(g, hidden, p, a, b);
    assert HiddenPath(g, hidden, p + [c], a, c);
  }

  // ----- Invariants of the work list

  /** What is queued or already visible is exposed. */
  ghost predicate OnlyExposed(g: Cfg, calls: set<(nat, nat)>, hidden: set<nat>, left: set<nat>, queue: seq<nat>) {
    && left <= hidden
    && (forall b :: b in queue ==> Exposed(g, calls, hidden, b))
    && (forall b :: b in hidden && b !in left ==> Exposed(g, calls, hidden, b))
  }

  ghost predicate SeedsQueued(g: Cfg, calls: set<(nat, nat)>, hidden: set<nat>, left: set<nat>, queue: seq<nat>) {
    forall b :: LiveIncoming(g, calls, hidden, b) && b in left ==> b in queue
  }

  /** Every edge from a block made visible, other than those in `but`, leads to a visible or queued one. */
  ghost predicate NextQueued(g: Cfg, hidden: set<nat>, left: set<nat>, queue: seq<nat>, but: set<nat>) {
    forall b, c :: Edge(g, b, c) && b in hidden && b !in left && b !in but && c in left ==> c in queue
  }

  ghost predicate Covers(g: Cfg, calls: set<(nat, nat)>, hidden: set<nat>, left: set<nat>, queue: seq<nat>,
      but: set<nat>) {
    OnlyExposed(g, calls, hidden, left, queue) && SeedsQueued(g, calls, hidden, left, queue) &&
      NextQueued(g, hidden, left, queue, but)
  }

  lemma DropVisible(g: Cfg, calls: set<(nat, nat)>, hidden: set<nat>, left: set<nat>, queue: seq<nat>)
    requires queue != [] && queue[0] !in left && Covers(g, calls, hidden, left, queue, {})
    ensures Covers(g, calls, hidden, left, queue[1..], {})
  {
    assert queue == [queue[0]] + queue[1..];
  }

  lemma MakeVisible(g: Cfg, calls: set<(nat, nat)>, hidden: set<nat>, left: set<nat>, queue: seq<nat>)
    requires queue != [] && queue[0] in left && Covers(g, calls, hidden, left, queue, {})
    ensures Covers(g, calls, hidden, left - {queue[0]}, queue[1..], {queue[0]})
    ensures queue[0] !in g.blocks ==> Covers(g, calls, hidden, left - {queue[0]}, queue[1..], {})
    ensures Exposed(g, calls, hidden, queue[0])
  {
    assert queue == [queue[0]] + queue[1..];
  }

  lemma SuccessorsCovered(g: Cfg, calls: set<(nat, nat)>, hidden: set<nat>, left: set<nat>, b: nat, queue: seq<nat>,
      queue': seq<nat>)
    requires b in g.blocks && Exposed(g, calls, hidden, b) && Covers(g, calls, hidden, left, queue, {b})
    requires forall c :: c in queue' ==> c in queue || (c in g.blocks[b].succs && c in left)
    requires forall c :: c in queue ==> c in queue'
    requires forall c :: c in g.blocks[b].succs && c in left ==> c in queue'
    ensures Covers(g, calls, hidden, left, queue', {})
  {
    forall c | c in queue' ensures Exposed(g, calls, hidden, c) {
      if c !in queue { ExposedNext(g, calls, hidden, b, c); }
    }
  }

  lemma CoveredIsStillHidden(g: Cfg, calls: set<(nat, nat)>, hidden: set<nat>, left: set<nat>)
    requires Covers(g, calls, hidden, left, [], {})
    ensures left == StillHidden(g, calls, hidden)
  {
    forall b | b in left ensures !Exposed(g, calls, hidden, b) {
      if Exposed(g, calls, hidden, b) {
        var a, p :| LiveIncoming(g, calls, hidden, a) && HiddenPath(g, hidden, p, a, b);
        ExposedIsVisible(g, calls, hidden, left, a, p, b);
      }
    }
  }

  lemma {:induction false} ExposedIsVisible(g: Cfg, calls: set<(nat, nat)>, hidden: set<nat>, left: set<nat>, a: nat,
      p: seq<nat>, b: nat)
    requires Covers(g, calls, hidden, left, [], {})
    requires LiveIncoming(g, calls, hidden, a) && HiddenPath(g, hidden, p, a, b)
    ensures b !in left
  {
    if |p| > 1 {
      var k := |p| - 2;
      PathPrefix(g, p, k);
      assert forall x :: x in p[..k + 1] ==> x in p;
      ExposedIsVisible(g, calls, hidden, left, a, p[..k + 1], p[k]);
      assert Edge(g, p[k], p[k + 1]);
      assert p[k] in p && p[k] in hidden;
    }
  }

  // ----- The program being lifted

  class LiftedBlocks {
    var suppressed: set<nat>

    constructor (blocks: set<nat>)
      ensures suppressed == blocks
    {
      suppressed := blocks;
    }

    /** Removes exactly the exposed blocks, in whatever order the set is visited. */
    method UnsuppressLive(g: Cfg, calls: set<(nat, nat)>)
      requires Inverse(g)
      modifies this
      ensures suppressed == StillHidden(g, calls, old(suppressed))
    {
      if suppressed == {} { return; }
      ghost var hidden := suppressed;
      var queue := Seeds(g, calls);
      while queue != []
        invariant Covers(g, calls, hidden, suppressed, queue, {})
        decreases suppressed, |queue|
      {
        var b := queue[0];
        if b !in suppressed {
          DropVisible(g, calls, hidden, suppressed, queue);
          queue := queue[1..];
          continue;
        }
        MakeVisible(g, calls, hidden, suppressed, queue);
        queue := queue[1..];
        suppressed := suppressed - {b};
        if b in g.blocks {
          ghost var before := queue;
          queue := PushSuccessors(g.blocks[b].succs, queue);
          SuccessorsCovered(g, calls, hidden, suppressed, b, before, queue);
        }
      }
      CoveredIsStillHidden(g, calls, hidden, suppressed);
    }

    method Seeds(g: Cfg, calls: set<(nat, nat)>) returns (queue: seq<nat>)
      requires Inverse(g)
      ensures Covers(g, calls, suppressed, suppressed, queue, {})
    {
      queue := [];
      var rest := suppressed;
      while rest != {}
        invariant rest <= suppressed
        invariant forall b :: b in queue ==> LiveIncoming(g, calls, suppressed, b)
        invariant forall b :: LiveIncoming(g, calls, suppressed, b) ==> b in queue || b in rest
        decreases rest
      {
        var b :| b in rest;
        rest := rest - {b};
        if b in g.blocks {
          var live := HasLivePredecessor(g.blocks[b].preds, calls, b);
          if live {
            queue := queue + [b];
          }
        }
      }
      forall b | b in queue ensures Exposed(g, calls, suppressed, b) { ExposedSelf(g, calls, suppressed, b); }
    }

    method HasLivePredecessor(preds: seq<nat>, calls: set<(nat, nat)>, b: nat) returns (live: bool)
      ensures live <==> exists p :: p in preds && p !in suppressed && (p, b) !in calls
    {
      live := false;
      for i := 0 to |preds|
        invariant live <==> exists k :: 0 <= k < i && preds[k] !in suppressed && (preds[k], b) !in calls
      {
        if preds[i] !in suppressed && (preds[i], b) !in calls { live := true; }
      }
    }

    /** Queues the suppressed successors of a block just made visible. */
    method PushSuccessors(succs: seq<nat>, queue: seq<nat>) returns (queue': seq<nat>)
      ensures forall c :: c in queue' <==> c in queue || (c in succs && c in suppressed)
    {
      queue' := queue;
      for i := 0 to |succs|
        invariant forall c :: c in queue' ==> c in queue || (c in succs && c in suppressed)
        invariant forall c :: c in queue ==> c in queue'
        invariant forall k :: 0 <= k < i && succs[k] in suppressed ==> succs[k] in queue'
      {
        if succs[i] in suppressed {
          queue' := queue' + [succs[i]];
        }
      }
    }
  }

  // ----- What the rule achieves

  /** A set of hidden blocks that only the abstracted calls of visible code enter. */
  ghost predicate Sealed(g: Cfg, calls: set<(nat, nat)>, hidden: set<nat>, s: set<nat>) {
    s <= hidden && forall p: nat, b: nat :: Edge(g, p, b) && b in s && p !in s ==> p !in hidden && (p, b) in calls
  }

  /** The blocks kept hidden are the largest sealed set. */
  lemma StillHiddenIsLargestSealed(g: Cfg, calls: set<(nat, nat)>, hidden: set<nat>)
    requires Closed(g)
    ensures Sealed(g, calls, hidden, StillHidden(g, calls, hidden))
    ensures forall s :: Sealed(g, calls, hidden, s) ==> s <= StillHidden(g, calls, hidden)
  {
    var kept := StillHidden(g, calls, hidden);
    forall p: nat, b: nat | Edge(g, p, b) && b in kept && p !in kept ensures p !in hidden && (p, b) in calls {
      if p in hidden {
        ExposedNext(g, calls, hidden, p, b);
      } else if (p, b) !in calls {
        assert LiveIncoming(g, calls, hidden, b);
        ExposedSelf(g, calls, hidden, b);
      }
    }
    forall s, b | Sealed(g, calls, hidden, s) && b in s ensures b in kept {
      if Exposed(g, calls, hidden, b) {
        var a, p :| LiveIncoming(g, calls, hidden, a) && HiddenPath(g, hidden, p, a, b);
        SealedKeepsOut(g, calls, hidden, s, a, p, b);
      }
    }
  }

  lemma {:induction false} SealedKeepsOut(g: Cfg, calls: set<(nat, nat)>, hidden: set<nat>, s: set<nat>, a: nat,
      p: seq<nat>, b: nat)
    requires Sealed(g, calls, hidden, s)
    requires LiveIncoming(g, calls, hidden, a) && HiddenPath(g, hidden, p, a, b)
    ensures b !in s
  {
    if |p| > 1 {
      var k := |p| - 2;
      PathPrefix(g, p, k);
      assert forall x :: x in p[..k + 1] ==> x in p;
      SealedKeepsOut(g, calls, hidden, s, a, p[..k + 1], p[k]);
      assert Edge(g, p[k], p[k + 1]);
      assert p[k] in p && p[k] in hidden;
    } else {
      var x :| Edge(g, x, a) && x !in hidden && (x, a) !in calls;
    }
  }
}
