/** Connected components of the graph, edges taken in both directions. */
module Components {
  import opened Graph
  import opened Collections

  function Undirected(g: Cfg): Cfg {
    Cfg(map b | b in g.blocks :: g.blocks[b].(succs := g.blocks[b].succs + g.blocks[b].preds), g.entry)
  }

  lemma JoinedBothWays(g: Cfg)
    requires WellFormed(g)
    ensures forall a, b :: Edge(Undirected(g), a, b) <==> Edge(g, a, b) || Edge(g, b, a)
    ensures forall a, b :: Edge(Undirected(g), a, b) ==> Edge(Undirected(g), b, a) && a in g.blocks && b in g.blocks
  {
    forall a, b ensures Edge(Undirected(g), a, b) <==> Edge(g, a, b) || Edge(g, b, a) {
      if a in g.blocks { assert b in g.blocks[a].preds <==> Edge(g, b, a); }
    }
  }

  lemma {:induction false} ReachBack(g: Cfg, p: seq<nat>, a: nat, b: nat)
    requires WellFormed(g) && PathFromTo(Undirected(g), p, a, b)
    ensures Reach(Undirected(g), b, a)
    decreases |p|
  {
    var u := Undirected(g);
    if |p| == 1 {
      ReachSelf(u, a);
    } else {
      var k := |p| - 2;
      PathPrefix(u, p, k);
      JoinedBothWays(g);
      assert Edge(u, p[k], p[k + 1]);
      ReachBack(g, p[..k + 1], a, p[k]);
      ReachEdge(u, b, p[k]);
      ReachTrans(u, b, p[k], a);
    }
  }

  /** c holds exactly what is connected to a. */
  ghost predicate IsComponentOf(g: Cfg, c: set<nat>, a: nat) {
    forall x :: x in c <==> Reach(Undirected(g), a, x)
  }

  ghost predicate NoneLeaves(g: Cfg, s: set<nat>) {
    s <= g.blocks.Keys && forall a, b :: a in s && Edge(Undirected(g), a, b) ==> b in s
  }

  /** From the component found so far every edge leads into it or to the queue. */
  ghost predicate Spreading(g: Cfg, start: nat, component: set<nat>, queue: seq<nat>) {
    && (start in component || start in queue)
    && (forall b :: b in component || b in queue ==> b in g.blocks && Reach(Undirected(g), start, b))
    && (forall a, b :: a in component && Edge(Undirected(g), a, b) ==> b in component || b in queue)
  }

  method BfsComponent(g: Cfg, start: nat, visited: set<nat>) returns (component: set<nat>, visited': set<nat>)
    requires WellFormed(g) && NoneLeaves(g, visited) && start in g.blocks && start !in visited
    ensures IsComponentOf(g, component, start) && component <= g.blocks.Keys
    ensures visited' == visited + component && component !! visited && NoneLeaves(g, visited')
  {
    component, visited' := {}, visited;
    var queue := [start];
    ReachSelf(Undirected(g), start);
    while queue != []
      invariant Spreading(g, start, component, queue)
      invariant visited' == visited + component && component !! visited
      invariant forall b :: b in queue ==> b !in visited
      decreases g.blocks.Keys - visited', |queue|
    {
      var pc := queue[0];
      assert queue == [pc] + queue[1..];
      if pc in visited' {
        queue := queue[1..];
        continue;
      }
      var succs := Unvisited(g.blocks[pc].succs, visited' + {pc});
      var preds := Unvisited(g.blocks[pc].preds, visited' + {pc});
      SpreadMore(g, start, component, visited, queue, pc, succs + preds);
      visited', component := visited' + {pc}, component + {pc};
      queue := queue[1..] + (succs + preds);
    }
    AllFound(g, start, component, visited);
  }

  function Unvisited(s: seq<nat>, visited: set<nat>): (r: seq<nat>)
    ensures forall x :: x in r <==> x in s && x !in visited
  {
    if s == [] then [] else
      assert s == [s[0]] + s[1..];
      (if s[0] !in visited then [s[0]] else []) + Unvisited(s[1..], visited)
  }

  lemma SpreadMore(g: Cfg, start: nat, component: set<nat>, visited: set<nat>, queue: seq<nat>, pc: nat, next: seq<nat>)
    requires WellFormed(g) && NoneLeaves(g, visited) && queue != [] && queue[0] == pc && pc !in visited
    requires Spreading(g, start, component, queue)
    requires forall x :: x in next <==> Edge(Undirected(g), pc, x) && x !in visited + component + {pc}
    ensures Spreading(g, start, component + {pc}, queue[1..] + next)
    ensures forall x :: x in next ==> x !in visited
  {
    var u := Undirected(g);
    JoinedBothWays(g);
    assert queue == [pc] + queue[1..];
    forall x | x in next ensures x in g.blocks && Reach(u, start, x) { ReachStep(u, start, pc, x); }
    forall a, b | a in component + {pc} && Edge(u, a, b) ensures b in component + {pc} || b in queue[1..] + next {
      assert Edge(u, b, a);
    }
  }

  lemma AllFound(g: Cfg, start: nat, component: set<nat>, visited: set<nat>)
    requires Spreading(g, start, component, []) && NoneLeaves(g, visited)
    ensures IsComponentOf(g, component, start) && NoneLeaves(g, visited + component)
  {
    ClosedSetHoldsReach(Undirected(g), component, start);
  }

  ghost predicate EachIsComponent(g: Cfg, cs: seq<set<nat>>) {
    forall i :: 0 <= i < |cs| ==> IsComponent(g, cs[i])
  }

  ghost predicate IsComponent(g: Cfg, c: set<nat>) { exists a :: a in c && IsComponentOf(g, c, a) }

  ghost predicate Apart(cs: seq<set<nat>>) {
    forall i, j :: 0 <= i < j < |cs| ==> cs[i] !! cs[j]
  }

  ghost predicate InSome(cs: seq<set<nat>>, x: nat) { exists i :: 0 <= i < |cs| && x in cs[i] }

  /** A partition of the blocks into connected components, the entry's first. */
  method FindConnectedComponents(g: Cfg) returns (cs: seq<set<nat>>)
    requires WellFormed(g)
    ensures EachIsComponent(g, cs) && Apart(cs)
    ensures forall x :: x in g.blocks <==> InSome(cs, x)
    ensures g.entry in g.blocks ==> cs != [] && g.entry in cs[0]
  {
    cs := [];
    var visited: set<nat> := {};
    if g.entry in g.blocks {
      cs, visited := AddComponent(g, cs, visited, g.entry);
    }
    var remaining := Sorted(g.blocks.Keys - visited);
    for i := 0 to |remaining|
      invariant Found(g, cs, visited)
      invariant forall x :: x in g.blocks ==> x in visited || x in remaining
      invariant forall k :: 0 <= k < i ==> remaining[k] in visited
      invariant g.entry in g.blocks ==> cs != [] && g.entry in cs[0]
    {
      assert remaining[i] in remaining;
      if remaining[i] in visited { continue; }
      cs, visited := AddComponent(g, cs, visited, remaining[i]);
    }
  }

  /** Whole components, apart from each other, holding what has been visited. */
  ghost predicate Found(g: Cfg, cs: seq<set<nat>>, visited: set<nat>) {
    EachIsComponent(g, cs) && Apart(cs) && NoneLeaves(g, visited) && forall x :: x in visited <==> InSome(cs, x)
  }

  method AddComponent(g: Cfg, cs: seq<set<nat>>, visited: set<nat>, start: nat)
    returns (cs': seq<set<nat>>, visited': set<nat>)
    requires WellFormed(g) && Found(g, cs, visited) && start in g.blocks && start !in visited
    ensures Found(g, cs', visited') && visited <= visited' && start in visited'
    ensures |cs'| == |cs| + 1 && cs'[..|cs|] == cs && start in cs'[|cs|]
  {
    var c;
    c, visited' := BfsComponent(g, start, visited);
    ReachSelf(Undirected(g), start);
    InSomeSnoc(cs, c);
    ApartSnoc(cs, c);
    assert IsComponent(g, c);
    cs' := cs + [c];
  }

  lemma InSomeSnoc(cs: seq<set<nat>>, c: set<nat>)
    ensures forall x :: InSome(cs + [c], x) <==> InSome(cs, x) || x in c
  {
    var cs' := cs + [c];
    forall x ensures InSome(cs', x) <==> InSome(cs, x) || x in c {
      if InSome(cs, x) {
        var i :| 0 <= i < |cs| && x in cs[i];
        assert x in cs'[i];
      }
      if x in c { assert x in cs'[|cs|]; }
    }
  }

  lemma ApartSnoc(cs: seq<set<nat>>, c: set<nat>)
    requires Apart(cs) && forall x :: x in c ==> !InSome(cs, x)
    ensures Apart(cs + [c])
  {
    forall i | 0 <= i < |cs| ensures cs[i] !! c {
      assert forall x :: x in cs[i] ==> InSome(cs, x);
    }
  }

  /** Any member names its component, so the partition does not depend on where searches start. */
  lemma AnyMemberNames(g: Cfg, c: set<nat>, a: nat, b: nat)
    requires WellFormed(g) && IsComponentOf(g, c, a) && b in c
    ensures IsComponentOf(g, c, b)
  {
    var u := Undirected(g);
    var p :| PathFromTo(u, p, a, b);
    ReachBack(g, p, a, b);
    forall x ensures x in c <==> Reach(u, b, x) {
      if x in c { ReachTrans(u, b, a, x); }
      if Reach(u, b, x) { ReachTrans(u, a, b, x); }
    }
  }
}
