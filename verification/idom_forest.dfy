/** Parent-pointer trees: the chain of immediate dominators above a block. */
module IdomForest {

  /** b has been given an immediate dominator. Named so that Climbs is instantiated for
      the blocks a proof speaks of, and not all the way up a chain. */
  predicate Node(idom: map<nat, nat>, b: nat) { b in idom }

  /** idom climbs to the root, strictly decreasing the reverse-post-order rank. */
  ghost predicate Climbs(idom: map<nat, nat>, rank: map<nat, nat>, root: nat) {
    && root in idom && idom[root] == root && root in rank && rank[root] == 0
    && (forall b {:trigger Node(idom, b)} :: Node(idom, b) ==> ClimbsAt(idom, rank, root, b))
  }

  predicate ClimbsAt(idom: map<nat, nat>, rank: map<nat, nat>, root: nat, b: nat)
    requires b in idom
  {
    b in rank && idom[b] in idom && idom[b] in rank && (b != root ==> rank[idom[b]] < rank[b])
  }

  /** b together with everything above it. */
  ghost function Up(idom: map<nat, nat>, rank: map<nat, nat>, root: nat, b: nat): set<nat>
    decreases if b in rank then rank[b] else 0
  {
    if b == root || b !in idom || !ClimbsAt(idom, rank, root, b) then {b}
    else {b} + Up(idom, rank, root, idom[b])
  }

  lemma {:induction false} UpBasics(idom: map<nat, nat>, rank: map<nat, nat>, root: nat, b: nat)
    requires Climbs(idom, rank, root) && Node(idom, b)
    ensures b in Up(idom, rank, root, b) && root in Up(idom, rank, root, b)
    ensures b in rank && idom[b] in rank && Node(idom, idom[b]) && (b != root ==> rank[idom[b]] < rank[b])
    ensures forall z :: z in Up(idom, rank, root, b) ==>
      z in idom && z in rank && rank[z] <= rank[b] && (z != b ==> rank[z] < rank[b])
    decreases if b in rank then rank[b] else 0
  {
    if b != root { UpBasics(idom, rank, root, idom[b]); }
  }

  /** Chains are linear: the part of b's chain at or above z is exactly z's chain. */
  lemma {:induction false} UpLinear(idom: map<nat, nat>, rank: map<nat, nat>, root: nat, b: nat, z: nat)
    requires Climbs(idom, rank, root) && Node(idom, b) && z in Up(idom, rank, root, b)
    ensures Node(idom, z) && z in rank
    ensures Up(idom, rank, root, z) <= Up(idom, rank, root, b)
    ensures forall y :: y in Up(idom, rank, root, b) && y in rank && rank[y] <= rank[z] ==>
      y in Up(idom, rank, root, z)
    decreases if b in rank then rank[b] else 0
  {
    UpBasics(idom, rank, root, b);
    if b != root && z != b {
      UpLinear(idom, rank, root, idom[b], z);
    }
  }

  lemma ClimbsUpdate(idom: map<nat, nat>, rank: map<nat, nat>, root: nat, b: nat, y: nat)
    requires Climbs(idom, rank, root) && b in rank && b != root
    requires Node(idom, y) && y in rank && rank[y] < rank[b]
    ensures Climbs(idom[b := y], rank, root)
  {
    var idom' := idom[b := y];
    forall c | Node(idom', c) ensures ClimbsAt(idom', rank, root, c) {
      if c != b { assert Node(idom, c); }
    }
  }

  /** Redirecting b to y replaces what hangs above b and changes no chain that misses b. */
  lemma {:induction false} UpUpdate(idom: map<nat, nat>, rank: map<nat, nat>, root: nat, b: nat, y: nat, v: nat)
    requires Climbs(idom, rank, root) && b in rank && b != root
    requires Node(idom, y) && y in rank && rank[y] < rank[b]
    requires Node(idom, v)
    ensures b !in Up(idom, rank, root, v) ==> Up(idom[b := y], rank, root, v) == Up(idom, rank, root, v)
    ensures b in Up(idom, rank, root, v) ==>
      forall z :: z in Up(idom[b := y], rank, root, v) <==>
        (z in Up(idom, rank, root, v) && z in rank && rank[z] >= rank[b]) || z in Up(idom, rank, root, y)
    decreases if v in rank then rank[v] else 0
  {
    ClimbsUpdate(idom, rank, root, b, y);
    assert Node(idom[b := y], v);
    UpBasics(idom, rank, root, v);
    if v == root {
    } else if v == b {
      UpBasics(idom, rank, root, y);
      UpUpdate(idom, rank, root, b, y, y);
    } else {
      UpUpdate(idom, rank, root, b, y, idom[v]);
      UpBasics(idom, rank, root, idom[v]);
    }
  }

  lemma UpUpdated(idom: map<nat, nat>, rank: map<nat, nat>, root: nat, b: nat, y: nat)
    requires Climbs(idom, rank, root) && b in rank && b != root
    requires Node(idom, y) && y in rank && rank[y] < rank[b]
    ensures Up(idom[b := y], rank, root, b) == {b} + Up(idom, rank, root, y)
    ensures Up(idom[b := y], rank, root, y) == Up(idom, rank, root, y)
  {
    ClimbsUpdate(idom, rank, root, b, y);
    assert Node(idom[b := y], b);
    UpBasics(idom, rank, root, y);
    UpUpdate(idom, rank, root, b, y, y);
  }

  /** Of two nodes, the lower-ranked one is not above the other, so lifting it loses no common ancestor. */
  lemma LiftKeepsCommon(idom: map<nat, nat>, rank: map<nat, nat>, root: nat, b: nat, c: nat)
    requires Climbs(idom, rank, root) && Node(idom, b) && Node(idom, c)
    requires b in rank && c in rank && rank[b] > rank[c]
    ensures Node(idom, idom[b]) && idom[b] in rank && rank[idom[b]] < rank[b]
    ensures Up(idom, rank, root, idom[b]) * Up(idom, rank, root, c)
         == Up(idom, rank, root, b) * Up(idom, rank, root, c)
    ensures Up(idom, rank, root, c) * Up(idom, rank, root, idom[b])
         == Up(idom, rank, root, c) * Up(idom, rank, root, b)
  {
    UpBasics(idom, rank, root, b);
    UpBasics(idom, rank, root, c);
    assert b !in Up(idom, rank, root, c);
  }
}
