/** Strongly connected components: a depth-first pass over successors for the finish order,
    then a sweep over predecessors in reverse finish order. */
module StronglyConnected {
  import opened Graph
  import opened Collections
  import opened DepthFirst

  /** c is exactly the set of blocks mutually reachable with a. */
  ghost predicate IsClassOf(g: Cfg, c: set<nat>, a: nat) {
    a in c && forall b :: b in c <==> b in g.blocks && Mutual(g, a, b)
  }

  ghost predicate IsScc(g: Cfg, c: set<nat>) {
    exists a :: IsClassOf(g, c, a)
  }

  ghost predicate AllSccs(g: Cfg, sccs: seq<set<nat>>) {
    forall c {:trigger IsScc(g, c)} :: c in sccs ==> IsScc(g, c)
  }

  ghost predicate Covered(sccs: seq<set<nat>>, b: nat) {
    exists c :: c in sccs && b in c
  }

  /** The components found so far: whole classes, covering exactly the placed blocks. */
  ghost predicate Classes(g: Cfg, sccs: seq<set<nat>>, placed: set<nat>) {
    && placed <= g.blocks.Keys
    && AllSccs(g, sccs)
    && (forall c :: c in sccs ==> c <= placed)
    && (forall b {:trigger Covered(sccs, b)} :: b in placed ==> Covered(sccs, b))
    && (forall i, j :: 0 <= i < j < |sccs| ==> sccs[i] !! sccs[j])
  }

  lemma SccIsClosed(g: Cfg, c: set<nat>, x: nat, y: nat)
    requires IsScc(g, c) && x in c && y in g.blocks && Mutual(g, x, y)
    ensures y in c
  {
    var a :| IsClassOf(g, c, a);
    MutualTrans(g, a, x, y);
  }

  lemma AssignedIsClosed(g: Cfg, sccs: seq<set<nat>>, placed: set<nat>, x: nat, y: nat)
    requires Classes(g, sccs, placed) && x in placed && y in g.blocks && Mutual(g, x, y)
    ensures y in placed
  {
    assert Covered(sccs, x);
    var c :| c in sccs && x in c;
    SccIsClosed(g, c, x, y);
  }

  /** Among blocks not yet placed, those reaching the last-finished one are in its component. */
  lemma LastFinishedIsReached(g: Cfg, order: seq<nat>, sccs: seq<set<nat>>, placed: set<nat>, idx: nat, x: nat)
    requires FinishOrder(g, order, []) && Distinct(order) && Classes(g, sccs, placed)
    requires forall b :: b in order ==> b in g.blocks
    requires idx < |order| && forall k :: idx < k < |order| ==> order[k] in placed
    requires x in order && x !in placed && Reach(g, x, order[idx])
    ensures Mutual(g, x, order[idx])
  {
    var start := order[idx];
    assert FinishedNoLater(g, order, x, start);
    var j, i :| 0 <= j <= i < |order| && order[j] == start && Mutual(g, order[i], x);
    assert order[i] in order;
    if order[i] in placed {
      AssignedIsClosed(g, sccs, placed, order[i], x);
      assert false;
    }
    assert i == idx;
  }

  /** A set of unassigned blocks that reach start, closed under unassigned predecessors, is start's class. */
  lemma CollectedIsClass(g: Cfg, order: seq<nat>, sccs: seq<set<nat>>, placed: set<nat>, idx: nat, component: set<nat>)
    requires Closed(g) && FinishOrder(g, order, []) && Distinct(order) && Classes(g, sccs, placed)
    requires forall b :: b in g.blocks <==> b in order
    requires idx < |order| && forall k :: idx < k < |order| ==> order[k] in placed
    requires order[idx] in component && component <= g.blocks.Keys && component !! placed
    requires forall x :: x in component ==> Reach(g, x, order[idx])
    requires forall x, p :: x in component && Edge(g, p, x) ==> p in component || p in placed
    ensures IsClassOf(g, component, order[idx])
  {
    var start := order[idx];
    forall b | b in component ensures Mutual(g, start, b) {
      LastFinishedIsReached(g, order, sccs, placed, idx, b);
    }
    forall b | b in g.blocks && Mutual(g, start, b) ensures b in component {
      var p :| PathFromTo(g, p, b, start);
      BackwardsFromStart(g, sccs, placed, component, start, p);
    }
  }

  lemma {:induction false} BackwardsFromStart(g: Cfg, sccs: seq<set<nat>>, placed: set<nat>, component: set<nat>,
      start: nat, p: seq<nat>)
    requires Closed(g) && Classes(g, sccs, placed)
    requires start in component && start in g.blocks && start !in placed
    requires forall x, q :: x in component && Edge(g, q, x) ==> q in component || q in placed
    requires IsPath(g, p) && p[|p| - 1] == start && Mutual(g, start, p[0])
    ensures p[0] in component
  {
    if |p| > 1 {
      assert Edge(g, p[0], p[1]);
      PathSuffix(g, p, 1);
      assert Reach(g, p[1], start);
      ReachStep(g, start, p[0], p[1]);
      BackwardsFromStart(g, sccs, placed, component, start, p[1..]);
      if p[0] in placed {
        AssignedIsClosed(g, sccs, placed, p[0], start);
        assert false;
      }
    }
  }

  /** Everything unassigned that reaches start against the edges, marking it placed. */
  method CollectComponent(g: Cfg, preds: map<nat, seq<nat>>, start: nat, placed0: set<nat>)
    returns (component: set<nat>, placed: set<nat>)
    requires Closed(g) && placed0 <= g.blocks.Keys && start in g.blocks && start !in placed0
    requires preds.Keys == g.blocks.Keys
    requires forall b, p :: b in preds ==> (p in preds[b] <==> Edge(g, p, b))
    ensures component !! placed0 && placed == placed0 + component
    ensures start in component && component <= g.blocks.Keys
    ensures forall x :: x in component ==> Reach(g, x, start)
    ensures forall x, p :: x in component && Edge(g, p, x) ==> p in component || p in placed0
  {
    component, placed := {}, placed0 + {start};
    var stack := [start];
    ReachSelf(g, start);
    while stack != []
      invariant placed <= g.blocks.Keys && start in placed
      invariant forall x :: x in placed <==> x in placed0 || x in component || x in stack
      invariant forall x :: x in component || x in stack ==> x !in placed0 && Reach(g, x, start)
      invariant forall x, p :: x in component && Edge(g, p, x) ==> p in placed
      decreases g.blocks.Keys - placed, |stack|
    {
      var node := stack[|stack| - 1];
      ghost var before := stack;
      stack := stack[..|stack| - 1];
      assert before == stack + [node];
      component := component + {node};
      ghost var marked, rest := placed, stack;
      for i := 0 to |preds[node]|
        invariant marked <= placed <= g.blocks.Keys
        invariant placed == marked ==> stack == rest
        invariant forall x :: x in placed <==> x in placed0 || x in component || x in stack
        invariant forall x :: x in component || x in stack ==> x !in placed0 && Reach(g, x, start)
        invariant forall k :: 0 <= k < i ==> preds[node][k] in placed
      {
        var pred := preds[node][i];
        assert pred in preds[node];
        if pred !in placed {
          ReachEdge(g, pred, node);
          ReachTrans(g, pred, node, start);
          placed := placed + {pred};
          stack := stack + [pred];
        }
      }
    }
  }

  lemma OtherMins(cs: seq<set<nat>>, i: nat, r: seq<set<nat>>)
    requires i < |cs| && multiset(r) == multiset(cs[..i]) && OrderedByMin(r)
    requires cs[i] != {} && forall k :: 0 <= k < i ==> cs[k] !! cs[i]
    ensures forall l :: 0 <= l < |r| ==> Min(r[l]) != Min(cs[i])
  {
    forall l | 0 <= l < |r| ensures Min(r[l]) != Min(cs[i]) {
      assert r[l] in multiset(r);
      assert r[l] in cs[..i];
      var k :| 0 <= k < i && cs[k] == r[l];
      assert IsMin(cs[k], Min(r[l])) && IsMin(cs[i], Min(cs[i]));
    }
  }

  function InsertAt(r: seq<set<nat>>, k: nat, c: set<nat>): (r': seq<set<nat>>)
    requires k <= |r|
    ensures |r'| == |r| + 1 && forall i :: 0 <= i < |r'| ==>
      r'[i] == if i < k then r[i] else if i == k then c else r[i - 1]
  {
    r[..k] + [c] + r[k..]
  }

  lemma InsertKeepsElements(r: seq<set<nat>>, k: nat, c: set<nat>)
    requires k <= |r|
    ensures multiset(InsertAt(r, k, c)) == multiset(r) + multiset{c}
  {
    assert r == r[..k] + r[k..];
  }

  lemma InsertKeepsOrder(r: seq<set<nat>>, k: nat, c: set<nat>)
    requires OrderedByMin(r) && k <= |r| && c != {}
    requires forall l :: 0 <= l < k ==> Min(r[l]) < Min(c)
    requires k < |r| ==> Min(r[k]) > Min(c)
    ensures OrderedByMin(InsertAt(r, k, c))
  {
    var r' := InsertAt(r, k, c);
    forall i | 0 <= i < |r'| ensures r'[i] != {} {}
    forall i, j | 0 <= i < j < |r'| ensures Min(r'[i]) < Min(r'[j]) {
      InsertedPair(r, k, c, i, j);
    }
  }

  lemma InsertedPair(r: seq<set<nat>>, k: nat, c: set<nat>, i: nat, j: nat)
    requires OrderedByMin(r) && k <= |r| && c != {} && i < j <= |r|
    requires forall l :: 0 <= l < k ==> Min(r[l]) < Min(c)
    requires k < |r| ==> Min(r[k]) > Min(c)
    ensures var x := if i < k then r[i] else if i == k then c else r[i - 1];
      var y := if j < k then r[j] else if j == k then c else r[j - 1];
      x != {} && y != {} && Min(x) < Min(y)
  {
    if i == k && j - 1 > k { assert Min(r[k]) < Min(r[j - 1]); }
  }

  /** Orders disjoint nonempty components by their least block. */
  method SortByMin(cs: seq<set<nat>>) returns (r: seq<set<nat>>)
    requires forall i :: 0 <= i < |cs| ==> cs[i] != {}
    requires forall i, j :: 0 <= i < j < |cs| ==> cs[i] !! cs[j]
    ensures multiset(r) == multiset(cs) && OrderedByMin(r)
  {
    r := [];
    for i := 0 to |cs|
      invariant multiset(r) == multiset(cs[..i]) && OrderedByMin(r)
    {
      var m := FindMin(cs[i]);
      var k := 0;
      while k < |r|
        invariant 0 <= k <= |r|
        invariant forall l :: 0 <= l < k ==> Min(r[l]) < m
      {
        var mk := FindMin(r[k]);
        if mk >= m { break; }
        k := k + 1;
      }
      assert cs[..i + 1] == cs[..i] + [cs[i]];
      OtherMins(cs, i, r);
      InsertKeepsOrder(r, k, cs[i]);
      InsertKeepsElements(r, k, cs[i]);
      r := InsertAt(r, k, cs[i]);
    }
    assert cs[..|cs|] == cs;
  }

  /** The strongly connected components, ordered by their least block. */
  method ComputeSccs(g: Cfg) returns (sccs: seq<set<nat>>)
    requires WellFormed(g)
    ensures AllSccs(g, sccs)
    ensures forall b :: b in g.blocks ==> Covered(sccs, b)
    ensures forall i, j :: 0 <= i < j < |sccs| ==> sccs[i] !! sccs[j]
    ensures OrderedByMin(sccs)
  {
    var nodes := Sorted(g.blocks.Keys);
    var succIndex, predIndex := SortedAdjacency(g);
    var visited, order := {}, [];
    assert FinishOrder(g, order, []);
    for i := 0 to |nodes|
      invariant DfsState(g, succIndex, visited, order, []) && PostOrder(g, order)
      invariant forall k :: 0 <= k < i ==> nodes[k] in visited
    {
      assert nodes[i] in nodes;
      visited, order := DfsFrom(g, succIndex, nodes[i], visited, order);
    }
    AllFinished(g, succIndex, nodes, visited, order);
    sccs := [];
    var placed := {};
    var idx := |order|;
    while idx > 0
      invariant 0 <= idx <= |order| && Classes(g, sccs, placed)
      invariant forall k :: idx <= k < |order| ==> order[k] in placed
    {
      idx := idx - 1;
      var start := order[idx];
      assert start in order;
      if start !in placed {
        ghost var before := placed;
        var component;
        component, placed := CollectComponent(g, predIndex, start, placed);
        CollectedIsClass(g, order, sccs, before, idx, component);
        ClassesExtend(g, sccs, before, component, start);
        sccs := sccs + [component];
      }
    }
    CoverAll(g, sccs, placed, order);
    sccs := SortComponents(g, sccs, placed);
  }

  lemma ClassesExtend(g: Cfg, sccs: seq<set<nat>>, placed: set<nat>, component: set<nat>, start: nat)
    requires Classes(g, sccs, placed) && IsClassOf(g, component, start) && component !! placed
    ensures Classes(g, sccs + [component], placed + component)
  {
    var sccs' := sccs + [component];
    forall c | c in sccs' ensures IsScc(g, c) {
      assert c in sccs || c == component;
    }
    forall i, j | 0 <= i < j < |sccs'| ensures sccs'[i] !! sccs'[j] {
      assert sccs[i] in sccs;
    }
    forall b | b in placed + component ensures Covered(sccs', b) {
      if b in placed {
        assert Covered(sccs, b);
        var c :| c in sccs && b in c;
        assert c in sccs';
      } else {
        assert component in sccs';
      }
    }
  }

  lemma CoverAll(g: Cfg, sccs: seq<set<nat>>, placed: set<nat>, order: seq<nat>)
    requires forall b :: b in g.blocks ==> b in order
    requires forall k :: 0 <= k < |order| ==> order[k] in placed
    ensures g.blocks.Keys <= placed
  {
  }

  lemma AllFinished(g: Cfg, adj: map<nat, seq<nat>>, nodes: seq<nat>, visited: set<nat>, order: seq<nat>)
    requires DfsState(g, adj, visited, order, [])
    requires forall b :: b in g.blocks ==> b in nodes
    requires forall k :: 0 <= k < |nodes| ==> nodes[k] in visited
    ensures forall b :: b in g.blocks ==> b in order
    ensures forall x :: x in order ==> x in g.blocks
  {
    forall b | b in g.blocks ensures b in order {
      var k :| 0 <= k < |nodes| && nodes[k] == b;
      assert !OnStack([], b);
    }
  }

  /** Each block's successors and predecessors, in increasing order. */
  method SortedAdjacency(g: Cfg) returns (succIndex: map<nat, seq<nat>>, predIndex: map<nat, seq<nat>>)
    requires WellFormed(g)
    ensures Lists(g, succIndex)
    ensures predIndex.Keys == g.blocks.Keys
    ensures forall b, p :: b in predIndex ==> (p in predIndex[b] <==> Edge(g, p, b))
  {
    succIndex, predIndex := map[], map[];
    var rest := g.blocks.Keys;
    while rest != {}
      invariant rest <= g.blocks.Keys
      invariant succIndex.Keys == g.blocks.Keys - rest && predIndex.Keys == g.blocks.Keys - rest
      invariant forall a, b :: a in succIndex ==> (b in succIndex[a] <==> Edge(g, a, b))
      invariant forall b, p :: b in predIndex ==> (p in predIndex[b] <==> Edge(g, p, b))
      decreases rest
    {
      var node :| node in rest;
      var succs := Sorted(set s | s in g.blocks[node].succs);
      var preds := Sorted(set p | p in g.blocks[node].preds);
      succIndex := succIndex[node := succs];
      predIndex := predIndex[node := preds];
      rest := rest - {node};
    }
  }

  method SortComponents(g: Cfg, sccs: seq<set<nat>>, ghost placed: set<nat>) returns (r: seq<set<nat>>)
    requires Classes(g, sccs, placed) && g.blocks.Keys <= placed
    ensures AllSccs(g, r)
    ensures forall b :: b in g.blocks ==> Covered(r, b)
    ensures forall i, j :: 0 <= i < j < |r| ==> r[i] !! r[j]
    ensures OrderedByMin(r)
  {
    forall i | 0 <= i < |sccs| ensures sccs[i] != {} {
      assert IsScc(g, sccs[i]);
      var a :| IsClassOf(g, sccs[i], a);
    }
    r := SortByMin(sccs);
    SameMembers(sccs, r);
    forall b | b in g.blocks ensures Covered(r, b) {
      assert Covered(sccs, b);
    }
    OrderedAreDisjoint(g, r);
  }

  lemma SameMembers(cs: seq<set<nat>>, r: seq<set<nat>>)
    requires multiset(r) == multiset(cs)
    ensures forall c :: c in cs <==> c in r
  {
    forall c ensures c in cs <==> c in r {
      assert c in multiset(cs) <==> c in multiset(r);
    }
  }

  lemma OrderedAreDisjoint(g: Cfg, r: seq<set<nat>>)
    requires AllSccs(g, r) && OrderedByMin(r)
    ensures forall i, j :: 0 <= i < j < |r| ==> r[i] !! r[j]
  {
    forall i, j | 0 <= i < j < |r| ensures r[i] !! r[j] {
      assert IsScc(g, r[i]) && IsScc(g, r[j]) && Min(r[i]) < Min(r[j]);
      forall x | x in r[i] && x in r[j] ensures false {
        SameClass(g, r[i], r[j], x);
      }
    }
  }

  lemma SameClass(g: Cfg, c: set<nat>, d: set<nat>, x: nat)
    requires IsScc(g, c) && IsScc(g, d) && x in c && x in d
    ensures c == d
  {
    var a :| IsClassOf(g, c, a);
    var b :| IsClassOf(g, d, b);
    forall y | y in c ensures y in d { MutualTrans(g, x, a, y); SccIsClosed(g, d, x, y); }
    forall y | y in d ensures y in c { MutualTrans(g, x, b, y); SccIsClosed(g, c, x, y); }
  }
}
