/** Natural loops: the body found by walking predecessors back from the latch, and the test
    that the region is entered only at its header. */
module Loops {
  import opened Graph
  import opened Collections
  import opened IdomForest
  import opened Dominators

  /** The natural loop of the edge latch -> header: whatever reaches the latch without passing the header. */
  ghost predicate InNaturalLoop(g: Cfg, header: nat, latch: nat, x: nat) {
    x == header || ReachAvoiding(g, x, latch, header)
  }

  ghost function NaturalLoop(g: Cfg, header: nat, latch: nat): set<nat> {
    set x | x in g.blocks && InNaturalLoop(g, header, latch, x)
  }

  method CollectLoopBody(g: Cfg, header: nat, latch: nat) returns (body: set<nat>)
    requires WellFormed(g) && header in g.blocks && latch in g.blocks
    ensures body == NaturalLoop(g, header, latch)
    ensures forall x :: x in body <==> InNaturalLoop(g, header, latch, x)
  {
    body := {header};
    if header == latch {
      return;
    }
    assert PathFromTo(g, [latch], latch, latch);
    var stack := [latch];
    while stack != []
      invariant header in body && body <= g.blocks.Keys
      invariant latch in body || latch in stack
      invariant forall x :: x in body ==> InNaturalLoop(g, header, latch, x)
      invariant forall x :: x in stack ==> x in g.blocks && InNaturalLoop(g, header, latch, x)
      invariant forall x, p :: x in body && x != header && Edge(g, p, x) ==> p in body || p in stack
      decreases g.blocks.Keys - body, |stack|
    {
      var node := stack[|stack| - 1];
      ghost var before := stack;
      stack := stack[..|stack| - 1];
      assert before == stack + [node];
      if node !in body {
        body := body + {node};
        var preds := g.blocks[node].preds;
        for i := 0 to |preds|
          invariant forall x :: x in stack ==> x in g.blocks && InNaturalLoop(g, header, latch, x)
          invariant forall x :: x in before && x != node ==> x in stack
          invariant forall k :: 0 <= k < i ==> preds[k] in body || preds[k] in stack
        {
          var pred := preds[i];
          assert pred in preds && Edge(g, pred, node);
          if pred !in body {
            PrependToLoop(g, header, latch, pred, node);
            stack := stack + [pred];
          }
        }
      }
    }
    forall x | InNaturalLoop(g, header, latch, x) ensures x in body {
      if x != header {
        var p :| PathFromTo(g, p, x, latch) && header !in p;
        BodyHoldsPath(g, header, latch, body, p);
      }
    }
    assert forall x :: ReachAvoiding(g, x, latch, header) ==> InNaturalLoop(g, header, latch, x);
  }

  lemma PrependToLoop(g: Cfg, header: nat, latch: nat, pred: nat, node: nat)
    requires Edge(g, pred, node) && node != header && InNaturalLoop(g, header, latch, node)
    ensures InNaturalLoop(g, header, latch, pred)
  {
    if pred != header {
      var p :| PathFromTo(g, p, node, latch) && header !in p;
      assert PathFromTo(g, [pred, node], pred, node);
      PathConcat(g, [pred, node], p, pred, node, latch);
    }
  }

  lemma {:induction false} BodyHoldsPath(g: Cfg, header: nat, latch: nat, body: set<nat>, p: seq<nat>)
    requires latch in body
    requires forall x, q :: x in body && x != header && Edge(g, q, x) ==> q in body
    requires IsPath(g, p) && p[|p| - 1] == latch && header !in p
    ensures p[0] in body
  {
    if |p| > 1 {
      PathSuffix(g, p, 1);
      BodyHoldsPath(g, header, latch, body, p[1..]);
      assert Edge(g, p[0], p[1]);
      assert p[1] in p;
    }
  }

  ghost predicate EnteredAt(g: Cfg, body: set<nat>, x: nat) {
    x in body && exists p :: Edge(g, p, x) && p !in body
  }

  /** What the reducibility test decides. */
  ghost predicate IsReducibleRegion(g: Cfg, t: DominatorTree, header: nat, body: set<nat>) {
    && header in body
    && (forall n :: n in body ==> TreeDominates(t, header, n))
    && (forall n :: EnteredAt(g, body, n) ==> n == header)
    && (EnteredAt(g, body, header) || header == g.entry)
  }

  method CheckReducible(g: Cfg, t: DominatorTree, header: nat, body: set<nat>) returns (ok: bool)
    requires WellFormed(g) && Climbs(t.idom, t.rank, t.entry) && body <= g.blocks.Keys
    ensures ok <==> IsReducibleRegion(g, t, header, body)
  {
    if body == {} || header !in body { return false; }
    var entryNodes, rest := {}, body;
    while rest != {}
      invariant rest <= body && entryNodes <= body
      invariant forall n :: n in body && n !in rest ==> TreeDominates(t, header, n)
      invariant forall n :: n in entryNodes <==> n !in rest && EnteredAt(g, body, n)
      decreases rest
    {
      var n :| n in rest;
      var dominated := Dominates(t, header, n);
      if !dominated { return false; }
      if exists p :: p in g.blocks[n].preds && p !in body {
        entryNodes := entryNodes + {n};
      }
      rest := rest - {n};
    }
    if header == g.entry && entryNodes == {} { return true; }
    ok := entryNodes == {header};
    if !ok && entryNodes <= {header} { assert entryNodes == {}; }
  }

  // ----- Natural-loop theorem

  /** If the header dominates the latch, it dominates every reachable block of the loop. */
  lemma HeaderDominatesBody(g: Cfg, header: nat, latch: nat, x: nat)
    requires Dom(g, header, latch) && InNaturalLoop(g, header, latch, x)
    ensures Dom(g, header, x)
  {
    if x != header {
      var q :| PathFromTo(g, q, x, latch) && header !in q;
      forall w | PathFromTo(g, w, g.entry, x) ensures header in w {
        PathConcat(g, w, q, g.entry, x, latch);
      }
    }
  }

  /** No edge enters a natural loop except at the header. */
  lemma EnteredOnlyAtHeader(g: Cfg, header: nat, latch: nat, p: nat, x: nat)
    requires InNaturalLoop(g, header, latch, x) && Edge(g, p, x) && !InNaturalLoop(g, header, latch, p)
    ensures x == header
  {
    if x != header { PrependToLoop(g, header, latch, p, x); }
  }

  /** A reachable header that dominates the loop and is not the entry is entered from outside. */
  lemma HeaderIsEntered(g: Cfg, header: nat, body: set<nat>)
    requires Reachable(g, header) && header in body && header != g.entry
    requires forall n :: n in body ==> Dom(g, header, n)
    ensures EnteredAt(g, body, header)
  {
    var w :| PathFromTo(g, w, g.entry, header);
    var k := FirstVisit(w, header);
    assert Edge(g, w[k - 1], w[k]);
    PathPrefix(g, w, k - 1);
    assert PathFromTo(g, w[..k], g.entry, w[k - 1]) && header !in w[..k];
    assert w[k - 1] !in body;
  }

  /** Every dominance back-edge of a fully reachable graph yields an accepted loop. */
  lemma BackEdgeLoopAccepted(g: Cfg, t: DominatorTree, header: nat, latch: nat, body: set<nat>)
    requires WellFormed(g) && t.entry == g.entry && Converged(g, t.rpo, t.rank, t.idom)
    requires forall b :: b in g.blocks ==> Reachable(g, b)
    requires latch in g.blocks && Edge(g, latch, header) && TreeDominates(t, header, latch)
    requires body <= g.blocks.Keys && forall x :: x in body <==> InNaturalLoop(g, header, latch, x)
    ensures IsReducibleRegion(g, t, header, body)
  {
    DominatesIsDominance(g, t, header, latch);
    forall n | n in body ensures TreeDominates(t, header, n) && Dom(g, header, n) {
      HeaderDominatesBody(g, header, latch, n);
      DominatesIsDominance(g, t, header, n);
    }
    forall n | EnteredAt(g, body, n) ensures n == header {
      var p :| Edge(g, p, n) && p !in body;
      EnteredOnlyAtHeader(g, header, latch, p, n);
    }
    if header != g.entry { HeaderIsEntered(g, header, body); }
  }

  /** Entering an accepted region, from anywhere outside it, means passing the header. */
  lemma {:induction false} AcceptedHasOneEntry(g: Cfg, t: DominatorTree, header: nat, body: set<nat>, w: seq<nat>)
    requires IsReducibleRegion(g, t, header, body)
    requires IsPath(g, w) && w[0] !in body && w[|w| - 1] in body
    ensures header in w
  {
    if |w| > 1 {
      var k := |w| - 2;
      assert Edge(g, w[k], w[k + 1]);
      if w[k] in body {
        PathPrefix(g, w, k);
        AcceptedHasOneEntry(g, t, header, body, w[..k + 1]);
      } else {
        assert EnteredAt(g, body, w[k + 1]);
      }
    }
  }

  // ----- Loop detection

  datatype Loop = Loop(header: nat, latch: nat, body: set<nat>)

  ghost predicate BackEdge(g: Cfg, t: DominatorTree, latch: nat, header: nat) {
    Edge(g, latch, header) && TreeDominates(t, header, latch)
  }

  /** The back-edges whose loop is recorded: accepted regions not made of dispatch blocks only. */
  ghost predicate Eligible(g: Cfg, t: DominatorTree, dispatch: set<nat>, latch: nat, header: nat) {
    var body := NaturalLoop(g, header, latch);
    BackEdge(g, t, latch, header) && IsReducibleRegion(g, t, header, body) && !(body <= dispatch)
  }

  method LoopOfEdge(g: Cfg, t: DominatorTree, dispatch: set<nat>, latch: nat, header: nat) returns (l: Option<Loop>)
    requires WellFormed(g) && Climbs(t.idom, t.rank, t.entry) && Edge(g, latch, header)
    ensures l.Some? <==> Eligible(g, t, dispatch, latch, header)
    ensures l.Some? ==> l.value == Loop(header, latch, NaturalLoop(g, header, latch))
  {
    l := None;
    var dominated := Dominates(t, header, latch);
    if (dominated && header != latch) || (header == latch && latch in g.blocks[latch].preds) {
      var body := CollectLoopBody(g, header, latch);
      var reducible := CheckReducible(g, t, header, body);
      if reducible && !(body <= dispatch) {
        l := Some(Loop(header, latch, body));
      }
    }
  }

  ghost predicate Recorded(g: Cfg, t: DominatorTree, dispatch: set<nat>, loops: map<nat, Loop>) {
    forall h :: h in loops ==> var l := loops[h];
      l.header == h && l.body == NaturalLoop(g, h, l.latch) && Eligible(g, t, dispatch, l.latch, h)
  }

  /** One loop per header, for the first eligible back-edge met; blocks are visited in no
      particular order, so which back-edge that is may vary. */
  method DetectLoops(g: Cfg, t: DominatorTree, dispatch: set<nat>) returns (loops: map<nat, Loop>)
    requires WellFormed(g) && Climbs(t.idom, t.rank, t.entry)
    ensures Recorded(g, t, dispatch, loops)
    ensures forall latch, header :: Eligible(g, t, dispatch, latch, header) ==> header in loops
  {
    loops := map[];
    var rest := g.blocks.Keys;
    while rest != {}
      invariant rest <= g.blocks.Keys && Recorded(g, t, dispatch, loops)
      invariant forall a, h :: Eligible(g, t, dispatch, a, h) && a !in rest ==> h in loops
      decreases rest
    {
      var latch :| latch in rest;
      var succs := g.blocks[latch].succs;
      for i := 0 to |succs|
        invariant Recorded(g, t, dispatch, loops)
        invariant forall a, h :: Eligible(g, t, dispatch, a, h) && a !in rest ==> h in loops
        invariant forall k :: 0 <= k < i && Eligible(g, t, dispatch, latch, succs[k]) ==> succs[k] in loops
      {
        assert Edge(g, latch, succs[i]);
        var l := LoopOfEdge(g, t, dispatch, latch, succs[i]);
        if l.Some? && succs[i] !in loops {
          loops := loops[succs[i] := l.value];
        }
      }
      rest := rest - {latch};
    }
  }

  /** When every block is reachable and nothing is dispatch code, the recorded headers are
      exactly the targets of dominance back-edges. */
  lemma EveryBackEdgeIsEligible(g: Cfg, t: DominatorTree, latch: nat, header: nat)
    requires WellFormed(g) && t.entry == g.entry && Converged(g, t.rpo, t.rank, t.idom)
    requires forall b :: b in g.blocks ==> Reachable(g, b)
    ensures Eligible(g, t, {}, latch, header) <==> BackEdge(g, t, latch, header)
  {
    if BackEdge(g, t, latch, header) {
      var body := NaturalLoop(g, header, latch);
      forall x | InNaturalLoop(g, header, latch, x) ensures x in g.blocks {
        NaturalLoopOfBlocks(g, header, latch, x);
      }
      BackEdgeLoopAccepted(g, t, header, latch, body);
    }
  }

  lemma NaturalLoopOfBlocks(g: Cfg, header: nat, latch: nat, x: nat)
    requires header in g.blocks && latch in g.blocks && InNaturalLoop(g, header, latch, x)
    ensures x in g.blocks
  {
    if x != header {
      var p :| PathFromTo(g, p, x, latch) && header !in p;
      if |p| > 1 { assert Edge(g, p[0], p[1]); }
    }
  }
}
