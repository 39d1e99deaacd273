/** Depth-first search with an explicit stack of (node, next successor index) pairs, and the
    property of its finish order that makes the two-pass component algorithm work. */
module DepthFirst {
  import opened Graph
  import opened Collections

  /** adj lists each block's successors, in some order. */
  ghost predicate Lists(g: Cfg, adj: map<nat, seq<nat>>) {
    adj.Keys == g.blocks.Keys && forall a, b :: a in adj ==> (b in adj[a] <==> Edge(g, a, b))
  }

  ghost predicate Mutual(g: Cfg, a: nat, b: nat) {
    Reach(g, a, b) && Reach(g, b, a)
  }

  lemma MutualTrans(g: Cfg, a: nat, b: nat, c: nat)
    requires Mutual(g, a, b) && Mutual(g, b, c)
    ensures Mutual(g, a, c)
  {
    ReachTrans(g, a, b, c);
    ReachTrans(g, c, b, a);
  }

  /** Someone in u's component finished no earlier than v. */
  ghost predicate FinishedNoLater(g: Cfg, order: seq<nat>, u: nat, v: nat) {
    exists j, i :: 0 <= j <= i < |order| && order[j] == v && Mutual(g, order[i], u)
  }

  /** Someone in u's component is still on the stack. */
  ghost predicate OpenMate(g: Cfg, stack: seq<(nat, nat)>, u: nat) {
    exists k :: 0 <= k < |stack| && Mutual(g, stack[k].0, u)
  }

  ghost predicate OnStack(stack: seq<(nat, nat)>, x: nat) {
    exists k :: 0 <= k < |stack| && stack[k].0 == x
  }

  ghost predicate FinishOrder(g: Cfg, order: seq<nat>, stack: seq<(nat, nat)>) {
    forall u, v {:trigger FinishedNoLater(g, order, u, v)} ::
      u in order && Reach(g, u, v) ==> OpenMate(g, stack, u) || FinishedNoLater(g, order, u, v)
  }

  ghost predicate StackChain(g: Cfg, adj: map<nat, seq<nat>>, stack: seq<(nat, nat)>) {
    && (forall k :: 0 <= k < |stack| ==> stack[k].0 in adj && stack[k].1 <= |adj[stack[k].0]|)
    && (forall k, l :: 0 <= k && l == k + 1 && l < |stack| ==> Edge(g, stack[k].0, stack[l].0))
  }

  ghost predicate DfsState(g: Cfg, adj: map<nat, seq<nat>>, visited: set<nat>, order: seq<nat>,
      stack: seq<(nat, nat)>) {
    && Lists(g, adj) && Closed(g)
    && visited <= g.blocks.Keys
    && Distinct(order)
    && (forall x :: x in order ==> x in visited && !OnStack(stack, x))
    && (forall x :: x in visited ==> x in order || OnStack(stack, x))
    && (forall k :: 0 <= k < |stack| ==> stack[k].0 in visited)
    && (forall k, l :: 0 <= k < l < |stack| ==> stack[k].0 != stack[l].0)
    && (forall x, s :: x in order && Edge(g, x, s) ==> s in visited)
    && StackChain(g, adj, stack)
    && (forall k, m :: 0 <= k < |stack| && 0 <= m < stack[k].1 ==> adj[stack[k].0][m] in visited)
    && FinishOrder(g, order, stack)
  }

  /** An edge leads to a block finished earlier, or back to one its source was reached from. */
  ghost predicate PostOrder(g: Cfg, order: seq<nat>) {
    forall i: nat, v :: i < |order| && Edge(g, order[i], v) ==> FinishedBefore(g, order, i, v)
  }

  ghost predicate FinishedBefore(g: Cfg, order: seq<nat>, i: nat, v: nat)
    requires i < |order|
  {
    (exists k :: 0 <= k < i && order[k] == v) || Reach(g, v, order[i])
  }

  lemma OpenMateGrows(g: Cfg, stack: seq<(nat, nat)>, stack': seq<(nat, nat)>, u: nat)
    requires OpenMate(g, stack, u) && |stack| <= |stack'|
    requires forall k :: 0 <= k < |stack| ==> stack'[k].0 == stack[k].0
    ensures OpenMate(g, stack', u)
  {
    var k :| 0 <= k < |stack| && Mutual(g, stack[k].0, u);
    assert Mutual(g, stack'[k].0, u);
  }

  lemma FinishOrderGrows(g: Cfg, order: seq<nat>, stack: seq<(nat, nat)>, stack': seq<(nat, nat)>)
    requires FinishOrder(g, order, stack) && |stack| <= |stack'|
    requires forall k :: 0 <= k < |stack| ==> stack'[k].0 == stack[k].0
    ensures FinishOrder(g, order, stack')
  {
    forall u, v | u in order && Reach(g, u, v) ensures OpenMate(g, stack', u) || FinishedNoLater(g, order, u, v) {
      if OpenMate(g, stack, u) { OpenMateGrows(g, stack, stack', u); }
    }
  }

  /** Stepping past a successor that is already visited. */
  lemma AdvanceKeeps(g: Cfg, adj: map<nat, seq<nat>>, visited: set<nat>, order: seq<nat>, stack: seq<(nat, nat)>,
      stack': seq<(nat, nat)>)
    requires DfsState(g, adj, visited, order, stack) && stack != []
    requires var (node, idx) := stack[|stack| - 1];
      idx < |adj[node]| && adj[node][idx] in visited && stack' == stack[..|stack| - 1] + [(node, idx + 1)]
    ensures DfsState(g, adj, visited, order, stack')
  {
    SameNodes(stack, stack');
    FinishOrderGrows(g, order, stack, stack');
  }

  lemma SameNodes(stack: seq<(nat, nat)>, stack': seq<(nat, nat)>)
    requires |stack| == |stack'| && forall k :: 0 <= k < |stack| ==> stack'[k].0 == stack[k].0
    ensures forall x :: OnStack(stack, x) <==> OnStack(stack', x)
  {
    forall x ensures OnStack(stack, x) <==> OnStack(stack', x) {
      if OnStack(stack, x) { var k :| 0 <= k < |stack| && stack[k].0 == x; assert stack'[k].0 == x; }
      if OnStack(stack', x) { var k :| 0 <= k < |stack'| && stack'[k].0 == x; assert stack[k].0 == x; }
    }
  }

  /** Stepping past a successor by visiting it. */
  lemma PushKeeps(g: Cfg, adj: map<nat, seq<nat>>, visited: set<nat>, order: seq<nat>, stack: seq<(nat, nat)>,
      stack': seq<(nat, nat)>, succ: nat)
    requires DfsState(g, adj, visited, order, stack) && stack != []
    requires var (node, idx) := stack[|stack| - 1];
      idx < |adj[node]| && adj[node][idx] == succ && succ !in visited
      && stack' == stack[..|stack| - 1] + [(node, idx + 1), (succ, 0)]
    ensures DfsState(g, adj, visited + {succ}, order, stack')
  {
    var n := |stack|;
    assert Edge(g, stack[n - 1].0, succ);
    FinishOrderGrows(g, order, stack, stack');
    forall x ensures OnStack(stack', x) <==> OnStack(stack, x) || x == succ {
      if OnStack(stack, x) { var k :| 0 <= k < n && stack[k].0 == x; assert stack'[k].0 == x; }
      if x == succ { assert stack'[n].0 == x; }
      if OnStack(stack', x) && x != succ { var k :| 0 <= k < n + 1 && stack'[k].0 == x; assert stack[k].0 == x; }
    }
  }

  /** Every node on the stack reaches the top. */
  lemma {:induction false} StackReachesTop(g: Cfg, adj: map<nat, seq<nat>>, stack: seq<(nat, nat)>, k: nat)
    requires StackChain(g, adj, stack) && k < |stack|
    ensures Reach(g, stack[k].0, stack[|stack| - 1].0)
    decreases |stack| - k
  {
    if k == |stack| - 1 {
      ReachSelf(g, stack[k].0);
    } else {
      StackReachesTop(g, adj, stack, k + 1);
      ReachEdge(g, stack[k].0, stack[k + 1].0);
      ReachTrans(g, stack[k].0, stack[k + 1].0, stack[|stack| - 1].0);
    }
  }

  /** When the top is complete and no one below shares its component, all it reaches is finished. */
  lemma ReachedIsFinished(g: Cfg, adj: map<nat, seq<nat>>, visited: set<nat>, order: seq<nat>, stack: seq<(nat, nat)>,
      top: nat)
    requires DfsState(g, adj, visited, order, stack) && stack != []
    requires stack[|stack| - 1].0 == top && stack[|stack| - 1].1 == |adj[top]|
    requires !OpenMate(g, stack[..|stack| - 1], top)
    ensures forall v :: Reach(g, top, v) ==> v in order + [top]
  {
    var s := set w | w in visited && w in order + [top] && Reach(g, top, w);
    ReachSelf(g, top);
    forall x, y | x in s && Edge(g, x, y) ensures y in s {
      ReachStep(g, top, x, y);
      assert y in visited by {
        if x == top {
          var m :| 0 <= m < |adj[top]| && adj[top][m] == y;
        }
      }
      if y !in order && y != top {
        var k :| 0 <= k < |stack| && stack[k].0 == y;
        StackReachesTop(g, adj, stack, k);
        assert stack[..|stack| - 1][k].0 == y && Mutual(g, y, top);
        assert false;
      }
    }
    ClosedSetHoldsReach(g, s, top);
  }

  /** Finishing the top of the stack. */
  lemma PopKeeps(g: Cfg, adj: map<nat, seq<nat>>, visited: set<nat>, order: seq<nat>, stack: seq<(nat, nat)>, top: nat)
    requires DfsState(g, adj, visited, order, stack) && stack != []
    requires stack[|stack| - 1].0 == top && stack[|stack| - 1].1 == |adj[top]|
    ensures DfsState(g, adj, visited, order + [top], stack[..|stack| - 1])
  {
    var stack' := stack[..|stack| - 1];
    var order' := order + [top];
    PopFinishOrder(g, adj, visited, order, stack, top);
    forall x ensures OnStack(stack, x) <==> OnStack(stack', x) || x == top {
      if OnStack(stack, x) && x != top { var k :| 0 <= k < |stack| && stack[k].0 == x; assert stack'[k].0 == x; }
      if OnStack(stack', x) { var k :| 0 <= k < |stack'| && stack'[k].0 == x; assert stack[k].0 == x; }
      if x == top { assert stack[|stack| - 1].0 == x; }
    }
    forall s | Edge(g, top, s) ensures s in visited {
      var m :| 0 <= m < |adj[top]| && adj[top][m] == s;
    }
  }

  lemma PopPostOrder(g: Cfg, adj: map<nat, seq<nat>>, visited: set<nat>, order: seq<nat>, stack: seq<(nat, nat)>,
      top: nat)
    requires DfsState(g, adj, visited, order, stack) && stack != [] && PostOrder(g, order)
    requires stack[|stack| - 1].0 == top && stack[|stack| - 1].1 == |adj[top]|
    ensures PostOrder(g, order + [top])
  {
    var order' := order + [top];
    forall i: nat, v | i < |order'| && Edge(g, order'[i], v) ensures FinishedBefore(g, order', i, v) {
      if i < |order| {
        assert FinishedBefore(g, order, i, v);
        if k :| 0 <= k < i && order[k] == v { assert order'[k] == v; }
      } else {
        var m :| 0 <= m < |adj[top]| && adj[top][m] == v;
        assert v in visited;
        if v in order {
          var k :| 0 <= k < |order| && order[k] == v;
          assert order'[k] == v;
        } else {
          var k :| 0 <= k < |stack| && stack[k].0 == v;
          StackReachesTop(g, adj, stack, k);
        }
      }
    }
  }

  lemma PopFinishOrder(g: Cfg, adj: map<nat, seq<nat>>, visited: set<nat>, order: seq<nat>, stack: seq<(nat, nat)>,
      top: nat)
    requires DfsState(g, adj, visited, order, stack) && stack != []
    requires stack[|stack| - 1].0 == top && stack[|stack| - 1].1 == |adj[top]|
    ensures FinishOrder(g, order + [top], stack[..|stack| - 1])
  {
    var stack' := stack[..|stack| - 1];
    var order' := order + [top];
    ReachSelf(g, top);
    forall u, v | u in order' && Reach(g, u, v) && !OpenMate(g, stack', u)
      ensures FinishedNoLater(g, order', u, v)
    {
      if u in order && FinishedNoLater(g, order, u, v) {
        var j, i :| 0 <= j <= i < |order| && order[j] == v && Mutual(g, order[i], u);
        assert order'[j] == v && Mutual(g, order'[i], u);
      } else {
        MateIsTop(g, stack, top, u, order);
        ReachTrans(g, top, u, v);
        if OpenMate(g, stack', top) {
          var k :| 0 <= k < |stack'| && Mutual(g, stack'[k].0, top);
          MutualTrans(g, stack'[k].0, top, u);
          assert false;
        }
        ReachedIsFinished(g, adj, visited, order, stack, top);
        var j :| 0 <= j < |order'| && order'[j] == v;
        assert order'[|order|] == top;
      }
    }
  }

  lemma MateIsTop(g: Cfg, stack: seq<(nat, nat)>, top: nat, u: nat, order: seq<nat>)
    requires stack != [] && stack[|stack| - 1].0 == top && !OpenMate(g, stack[..|stack| - 1], u)
    requires u == top || OpenMate(g, stack, u)
    ensures Mutual(g, top, u)
  {
    ReachSelf(g, top);
    if u != top {
      assert forall k :: 0 <= k < |stack| - 1 ==> stack[..|stack| - 1][k] == stack[k];
      var k :| 0 <= k < |stack| && Mutual(g, stack[k].0, u);
    }
  }

  /** Visits everything reachable from start that was not yet visited. */
  method DfsFrom(g: Cfg, adj: map<nat, seq<nat>>, start: nat, visited: set<nat>, order: seq<nat>)
    returns (visited': set<nat>, order': seq<nat>)
    requires DfsState(g, adj, visited, order, []) && PostOrder(g, order) && start in g.blocks
    ensures DfsState(g, adj, visited', order', []) && PostOrder(g, order')
    ensures visited + {start} <= visited'
  {
    visited', order' := visited, order;
    if start in visited { return; }
    var stack: seq<(nat, nat)> := [(start, 0)];
    StartKeeps(g, adj, visited, order, start);
    visited' := visited' + {start};
    while stack != []
      invariant DfsState(g, adj, visited', order', stack) && PostOrder(g, order')
      invariant visited + {start} <= visited'
      decreases g.blocks.Keys - visited', |stack|,
        if stack == [] then 0 else |adj[stack[|stack| - 1].0]| - stack[|stack| - 1].1
    {
      ghost var before := stack;
      var (node, idx) := stack[|stack| - 1];
      if idx < |adj[node]| {
        var succ := adj[node][idx];
        stack := stack[..|stack| - 1] + [(node, idx + 1)];
        if succ !in visited' {
          stack := stack + [(succ, 0)];
          assert Edge(g, node, succ);
          PushKeeps(g, adj, visited', order', before, stack, succ);
          visited' := visited' + {succ};
        } else {
          AdvanceKeeps(g, adj, visited', order', before, stack);
        }
      } else {
        PopKeeps(g, adj, visited', order', stack, node);
        PopPostOrder(g, adj, visited', order', stack, node);
        stack := stack[..|stack| - 1];
        order' := order' + [node];
      }
    }
  }

  lemma StartKeeps(g: Cfg, adj: map<nat, seq<nat>>, visited: set<nat>, order: seq<nat>, start: nat)
    requires DfsState(g, adj, visited, order, []) && start in g.blocks && start !in visited
    ensures DfsState(g, adj, visited + {start}, order, [(start, 0)])
  {
    FinishOrderGrows(g, order, [], [(start, 0)]);
    assert forall x :: !OnStack([], x);
    assert [(start, 0)][0].0 == start;
  }
}
