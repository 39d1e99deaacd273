/** Control-flow graphs, their paths, and dominance as a statement about all paths. */
module Graph {
  import opened Instructions

  datatype Block = Block(
    start: nat, end: nat, instrs: seq<(nat, Shape)>, succs: seq<nat>, preds: seq<nat>)

  datatype Cfg = Cfg(blocks: map<nat, Block>, entry: nat)

  predicate Edge(g: Cfg, a: nat, b: nat) {
    a in g.blocks && b in g.blocks[a].succs
  }

  /** Predecessor lists hold exactly the inverse of the successor lists. */
  ghost predicate Inverse(g: Cfg) {
    forall p, b :: b in g.blocks ==> (p in g.blocks[b].preds <==> Edge(g, p, b))
  }

  /** Every edge leads to a block. */
  ghost predicate Closed(g: Cfg) {
    forall a, b :: Edge(g, a, b) ==> b in g.blocks
  }

  ghost predicate WellFormed(g: Cfg) {
    Inverse(g) && Closed(g) && forall b :: b in g.blocks ==> g.blocks[b].start == b
  }

  /** Instruction addresses are unique. */
  ghost predicate UniquePcs(g: Cfg) {
    forall b, c, j, k :: b in g.blocks && c in g.blocks ==>
      0 <= j < |g.blocks[b].instrs| && 0 <= k < |g.blocks[c].instrs| ==>
      g.blocks[b].instrs[j].0 == g.blocks[c].instrs[k].0 ==> b == c && j == k
  }

  // ----- Paths

  ghost predicate IsPath(g: Cfg, p: seq<nat>) {
    |p| > 0 && forall i, j :: 0 <= i && j == i + 1 && j < |p| ==> Edge(g, p[i], p[j])
  }

  ghost predicate PathFromTo(g: Cfg, p: seq<nat>, a: nat, b: nat) {
    IsPath(g, p) && p[0] == a && p[|p| - 1] == b
  }

  ghost predicate Reach(g: Cfg, a: nat, b: nat) {
    exists p :: PathFromTo(g, p, a, b)
  }

  /** Some path from a to b avoids d. */
  ghost predicate ReachAvoiding(g: Cfg, a: nat, b: nat, d: nat) {
    exists p :: PathFromTo(g, p, a, b) && d !in p
  }

  /** Every path from the entry to b goes through a. */
  ghost predicate Dom(g: Cfg, a: nat, b: nat) {
    forall p :: PathFromTo(g, p, g.entry, b) ==> a in p
  }

  ghost predicate Reachable(g: Cfg, b: nat) { Reach(g, g.entry, b) }

  lemma PathPrefix(g: Cfg, p: seq<nat>, k: nat)
    requires IsPath(g, p) && k < |p|
    ensures PathFromTo(g, p[..k + 1], p[0], p[k])
  {
  }

  lemma PathSuffix(g: Cfg, p: seq<nat>, k: nat)
    requires IsPath(g, p) && k < |p|
    ensures PathFromTo(g, p[k..], p[k], p[|p| - 1])
  {
  }

  lemma PathConcat(g: Cfg, p: seq<nat>, q: seq<nat>, a: nat, m: nat, b: nat)
    requires PathFromTo(g, p, a, m) && PathFromTo(g, q, m, b)
    ensures PathFromTo(g, p + q[1..], a, b)
    ensures forall x :: x in p + q[1..] ==> x in p || x in q
  {
    var r := p + q[1..];
    forall i, j | 0 <= i && j == i + 1 && j < |r| ensures Edge(g, r[i], r[j]) {
      if j < |p| {
      } else if i < |p| {
        assert r[i] == q[0] && r[j] == q[1];
      } else {
        assert r[i] == q[i - |p| + 1] && r[j] == q[j - |p| + 1];
      }
    }
    assert r[|r| - 1] == b by {
      if |q| > 1 { assert r[|r| - 1] == q[|q| - 1]; }
    }
  }

  lemma PathSnoc(g: Cfg, p: seq<nat>, a: nat, m: nat, b: nat)
    requires PathFromTo(g, p, a, m) && Edge(g, m, b)
    ensures PathFromTo(g, p + [b], a, b)
  {
  }

  lemma ReachSelf(g: Cfg, a: nat)
    ensures Reach(g, a, a)
  {
    assert PathFromTo(g, [a], a, a);
  }

  lemma ReachEdge(g: Cfg, a: nat, b: nat)
    requires Edge(g, a, b)
    ensures Reach(g, a, b)
  {
    assert PathFromTo(g, [a, b], a, b);
  }

  lemma ReachTrans(g: Cfg, a: nat, b: nat, c: nat)
    requires Reach(g, a, b) && Reach(g, b, c)
    ensures Reach(g, a, c)
  {
    var p :| PathFromTo(g, p, a, b);
    var q :| PathFromTo(g, q, b, c);
    PathConcat(g, p, q, a, b, c);
  }

  lemma ReachStep(g: Cfg, a: nat, b: nat, c: nat)
    requires Reach(g, a, b) && Edge(g, b, c)
    ensures Reach(g, a, c)
  {
    ReachEdge(g, b, c);
    ReachTrans(g, a, b, c);
  }

  /** A set that holds a and is closed under edges holds everything a reaches. */
  lemma ClosedSetHoldsReach(g: Cfg, s: set<nat>, a: nat)
    requires a in s
    requires forall x, y :: x in s && Edge(g, x, y) ==> y in s
    ensures forall b :: Reach(g, a, b) ==> b in s
  {
    forall b | Reach(g, a, b) ensures b in s {
      var p :| PathFromTo(g, p, a, b);
      ClosedSetHoldsPath(g, s, p);
    }
  }

  lemma {:induction false} ClosedSetHoldsPath(g: Cfg, s: set<nat>, p: seq<nat>)
    requires IsPath(g, p) && p[0] in s
    requires forall x, y :: x in s && Edge(g, x, y) ==> y in s
    ensures p[|p| - 1] in s
  {
    if |p| > 1 {
      PathPrefix(g, p, |p| - 2);
      ClosedSetHoldsPath(g, s, p[..|p| - 1]);
      assert Edge(g, p[|p| - 2], p[|p| - 1]);
    }
  }

  // ----- Dominance facts

  ghost function FirstVisit(w: seq<nat>, x: nat): (k: nat)
    requires x in w
    ensures k < |w| && w[k] == x && x !in w[..k]
  {
    if w[0] == x then 0 else
      assert w == [w[0]] + w[1..];
      var k := 1 + FirstVisit(w[1..], x);
      assert w[..k] == [w[0]] + w[1..][..k - 1];
      k
  }

  lemma DomTrans(g: Cfg, a: nat, b: nat, c: nat)
    requires Dom(g, a, b) && Dom(g, b, c)
    ensures Dom(g, a, c)
  {
    forall w | PathFromTo(g, w, g.entry, c) ensures a in w {
      var k :| 0 <= k < |w| && w[k] == b;
      PathPrefix(g, w, k);
      assert forall x :: x in w[..k + 1] ==> x in w;
    }
  }

  lemma DomAntisymmetric(g: Cfg, a: nat, b: nat)
    requires Dom(g, a, b) && Dom(g, b, a) && Reachable(g, b)
    ensures a == b
  {
    var w :| PathFromTo(g, w, g.entry, b);
    var k := FirstVisit(w, b);
    PathPrefix(g, w, k);
    var x :| 0 <= x < |w[..k + 1]| && w[..k + 1][x] == a;
    PathPrefix(g, w, x);
    assert b in w[..x + 1];
    assert b !in w[..k];
  }

  /** If a dominates d and d dominates u, a path to u does not come back to a after its
      last visit of d. */
  lemma NotRevisited(g: Cfg, a: nat, d: nat, u: nat, w: seq<nat>, m: nat, x: nat)
    requires Dom(g, a, d) && Dom(g, d, u) && a != d
    requires PathFromTo(g, w, g.entry, u) && m < x < |w| && w[m] == d
    requires forall k :: m < k < |w| ==> w[k] != d
    ensures w[x] != a
  {
    if w[x] == a {
      assert d !in w[x..];
      PathPrefix(g, w, x);
      PathPrefix(g, w, m);
      if Dom(g, d, a) { DomAntisymmetric(g, a, d); }
      var q :| PathFromTo(g, q, g.entry, a) && d !in q;
      PathSuffix(g, w, x);
      PathConcat(g, q, w[x..], g.entry, a, u);
      assert false;
    }
  }
}
