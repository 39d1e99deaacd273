/** The iterative dominator computation over reverse post-order, with idom rewritten in place. */
module Dominators {
  import opened Graph
  import opened Collections
  import opened IdomForest

  datatype DominatorTree = DominatorTree(idom: map<nat, nat>, rpo: seq<nat>, rank: map<nat, nat>, entry: nat)

  // ----- What the reverse post-order provides

  /** rank inverts rpo; rpo lists the reachable blocks, entry first, and every other block
      has a predecessor placed before it. */
  ghost predicate GoodOrder(g: Cfg, rpo: seq<nat>, rank: map<nat, nat>) {
    && |rpo| > 0 && rpo[0] == g.entry
    && (forall i :: 0 <= i < |rpo| ==> rpo[i] in rank && rank[rpo[i]] == i)
    && (forall b :: b in rank ==> rank[b] < |rpo| && rpo[rank[b]] == b)
    && (forall b {:trigger Reachable(g, b)} :: b in rank <==> b in g.blocks && Reachable(g, b))
    && (forall b {:trigger HasForwardPred(g, rank, b)} ::
      b in rank && b != g.entry ==> HasForwardPred(g, rank, b))
  }

  ghost predicate ForwardPred(g: Cfg, rank: map<nat, nat>, q: nat, b: nat) {
    q in rank && b in rank && Edge(g, q, b) && rank[q] < rank[b]
  }

  ghost predicate HasForwardPred(g: Cfg, rank: map<nat, nat>, b: nat) {
    exists q :: ForwardPred(g, rank, q, b)
  }

  ghost predicate IsDescent(g: Cfg, rank: map<nat, nat>, w: seq<nat>) {
    |w| > 0 && forall i: nat, j: nat :: j == i + 1 && j < |w| ==> ForwardPred(g, rank, w[i], w[j])
  }

  /** A path of edges that lead forward joins a to b. */
  ghost predicate Descends(g: Cfg, rank: map<nat, nat>, a: nat, b: nat) {
    exists w :: IsDescent(g, rank, w) && w[0] == a && w[|w| - 1] == b
  }

  /** An edge that does not lead forward leads back up such a path. */
  ghost predicate Retreats(g: Cfg, rank: map<nat, nat>) {
    forall q, b :: q in rank && b in rank && Edge(g, q, b) && rank[b] <= rank[q] ==> Descends(g, rank, b, q)
  }

  // ----- Meets of chains

  /** z is on the chain of every processed block of ps. */
  ghost predicate Common(idom: map<nat, nat>, rank: map<nat, nat>, root: nat, ps: seq<nat>, z: nat) {
    forall p :: p in ps && Node(idom, p) ==> z in Up(idom, rank, root, p)
  }

  /** y is the nearest common ancestor of the processed blocks of ps. */
  ghost predicate MeetOf(idom: map<nat, nat>, rank: map<nat, nat>, root: nat, ps: seq<nat>, y: nat) {
    Node(idom, y) && forall z :: z in Up(idom, rank, root, y) <==> Common(idom, rank, root, ps, z)
  }

  ghost predicate Inverts(rpo: seq<nat>, rank: map<nat, nat>) {
    forall b {:trigger rank[b]} :: b in rank ==> rank[b] < |rpo| && rpo[rank[b]] == b
  }

  /** Walks the two nodes up the tree until they meet. */
  method Intersect(n1: nat, n2: nat, idom: map<nat, nat>, rank: map<nat, nat>, ghost rpo: seq<nat>, ghost root: nat)
    returns (r: nat)
    requires Climbs(idom, rank, root) && Inverts(rpo, rank)
    requires Node(idom, n1) && Node(idom, n2)
    ensures Node(idom, r)
    ensures Up(idom, rank, root, r) == Up(idom, rank, root, n1) * Up(idom, rank, root, n2)
  {
    var b1, b2 := n1, n2;
    ghost var target := Up(idom, rank, root, n1) * Up(idom, rank, root, n2);
    while b1 != b2
      invariant Node(idom, b1) && Node(idom, b2)
      invariant Up(idom, rank, root, b1) * Up(idom, rank, root, b2) == target
      decreases rank[b1] + rank[b2]
    {
      if rank[b1] > rank[b2] {
        LiftKeepsCommon(idom, rank, root, b1, b2);
        b1 := idom[b1];
      } else {
        LiftKeepsCommon(idom, rank, root, b2, b1);
        b2 := idom[b2];
      }
    }
    r := b1;
  }

  /** The first processed predecessor, intersected with the other processed ones. */
  method MeetPredecessors(ps: seq<nat>, idom: map<nat, nat>, rank: map<nat, nat>, ghost rpo: seq<nat>, ghost root: nat)
    returns (m: Option<nat>)
    requires Climbs(idom, rank, root) && Inverts(rpo, rank)
    ensures m.None? <==> forall p :: p in ps ==> p !in idom
    ensures m.Some? ==> MeetOf(idom, rank, root, ps, m.value)
  {
    m := None;
    for i := 0 to |ps|
      invariant m == None
      invariant forall k :: 0 <= k < i ==> ps[k] !in idom
    {
      if ps[i] in idom {
        m := Some(ps[i]);
        break;
      }
    }
    if m.None? { return; }
    var y := m.value;
    ghost var first := y;
    for i := 0 to |ps|
      invariant Node(idom, y)
      invariant Up(idom, rank, root, y) <= Up(idom, rank, root, first)
      invariant forall k :: 0 <= k < i && ps[k] in idom ==> Up(idom, rank, root, y) <= Up(idom, rank, root, ps[k])
      invariant forall z :: Common(idom, rank, root, ps, z) ==> z in Up(idom, rank, root, y)
    {
      if ps[i] != y && ps[i] in idom {
        y := Intersect(ps[i], y, idom, rank, rpo, root);
      }
    }
    m := Some(y);
  }

  // ----- The invariant of the sweeps

  /** Some path from x to d stays, after x, strictly below x's rank. */
  ghost predicate PathBelow(g: Cfg, rank: map<nat, nat>, x: nat, d: nat) {
    x in rank && exists p :: PathFromTo(g, p, x, d) && Below(rank, p)
  }

  ghost predicate Below(rank: map<nat, nat>, p: seq<nat>) {
    |p| > 0 && p[0] in rank && forall i :: 0 < i < |p| ==> p[i] in rank && rank[p[i]] > rank[p[0]]
  }

  ghost predicate Hangs(g: Cfg, rank: map<nat, nat>, idom: map<nat, nat>) {
    forall d :: Node(idom, d) && d != g.entry ==> PathBelow(g, rank, idom[d], d)
  }

  /** Every true dominator is on the chain. */
  ghost predicate DomsOnChain(g: Cfg, rank: map<nat, nat>, idom: map<nat, nat>) {
    forall d, a :: Node(idom, d) && Dom(g, a, d) ==> a in Up(idom, rank, g.entry, d)
  }

  ghost predicate PredClosed(g: Cfg, rank: map<nat, nat>, idom: map<nat, nat>) {
    forall c, q :: Node(idom, c) && ForwardPred(g, rank, q, c) ==> Node(idom, q)
  }

  /** What is common to all processed predecessors of c is still above idom[c]. */
  ghost predicate NeverBelowMeet(g: Cfg, rank: map<nat, nat>, idom: map<nat, nat>) {
    forall c, z :: Node(idom, c) && c in g.blocks && c != g.entry ==>
      Common(idom, rank, g.entry, g.blocks[c].preds, z) ==> z in Up(idom, rank, g.entry, idom[c])
  }

  /** The chain above c lies on the chain of each forward predecessor, as far as the
      sweep, at position i, has not yet overtaken it. */
  ghost predicate ForwardAgrees(g: Cfg, rank: map<nat, nat>, idom: map<nat, nat>, i: nat) {
    forall c, q :: Node(idom, c) && c != g.entry && ForwardPred(g, rank, q, c) ==>
      AgreesOn(rank, Up(idom, rank, g.entry, idom[c]), Up(idom, rank, g.entry, q), rank[c] < i, i)
  }

  ghost predicate AgreesOn(rank: map<nat, nat>, above: set<nat>, chain: set<nat>, all: bool, i: nat) {
    forall z :: z in above && z in rank && (all || rank[z] >= i) ==> z in chain
  }

  ghost predicate SweepInv(g: Cfg, rpo: seq<nat>, rank: map<nat, nat>, idom: map<nat, nat>, i: nat) {
    && GoodOrder(g, rpo, rank) && Inverse(g) && i <= |rpo|
    && Climbs(idom, rank, g.entry)
    && PredClosed(g, rank, idom)
    && (forall k :: 0 <= k < i ==> rpo[k] in idom)
    && Hangs(g, rank, idom)
    && DomsOnChain(g, rank, idom)
    && NeverBelowMeet(g, rank, idom)
    && ForwardAgrees(g, rank, idom, i)
  }

  /** One update of the sweep: b, at position i, is redirected to the meet of its
      processed predecessors. */
  ghost predicate Update(g: Cfg, rpo: seq<nat>, rank: map<nat, nat>, idom: map<nat, nat>, i: nat, b: nat, y: nat) {
    && SweepInv(g, rpo, rank, idom, i) && i < |rpo| && b == rpo[i] && b in g.blocks && b != g.entry
    && MeetOf(idom, rank, g.entry, g.blocks[b].preds, y)
  }

  /** The new parent is above every forward predecessor, hence strictly above b. */
  lemma UpdateClimbs(g: Cfg, rpo: seq<nat>, rank: map<nat, nat>, idom: map<nat, nat>, i: nat, b: nat, y: nat)
    requires Update(g, rpo, rank, idom, i, b, y)
    ensures b in rank && rank[b] == i && y in rank && rank[y] < rank[b]
    ensures Climbs(idom[b := y], rank, g.entry)
    ensures forall q :: ForwardPred(g, rank, q, b) ==>
      Node(idom, q) && Up(idom, rank, g.entry, y) <= Up(idom, rank, g.entry, q)
  {
    forall q | ForwardPred(g, rank, q, b)
      ensures Node(idom, q) && Up(idom, rank, g.entry, y) <= Up(idom, rank, g.entry, q)
      ensures y in rank && rank[y] < rank[b]
    {
      assert rpo[rank[q]] == q && Node(idom, q);
      assert q in g.blocks[b].preds;
      UpBasics(idom, rank, g.entry, q);
      UpBasics(idom, rank, g.entry, y);
    }
    assert HasForwardPred(g, rank, b);
    ClimbsUpdate(idom, rank, g.entry, b, y);
  }

  /** An update of a block that already had a parent moves it up its own chain. */
  lemma UpdateLifts(g: Cfg, rpo: seq<nat>, rank: map<nat, nat>, idom: map<nat, nat>, i: nat, b: nat, y: nat)
    requires Update(g, rpo, rank, idom, i, b, y) && b in idom
    ensures y in Up(idom, rank, g.entry, idom[b])
  {
    assert Node(idom, b);
    UpBasics(idom, rank, g.entry, y);
    assert Common(idom, rank, g.entry, g.blocks[b].preds, y);
  }

  /** How an update changes the chain of v: nothing if b is not on it; otherwise the part
      from b upwards becomes b's new chain, and the whole only shrinks. */
  lemma Redirect(g: Cfg, rpo: seq<nat>, rank: map<nat, nat>, idom: map<nat, nat>, i: nat, b: nat, y: nat, v: nat)
    requires Update(g, rpo, rank, idom, i, b, y) && Node(idom, v)
    ensures b in rank && rank[b] == i && v in rank
    ensures b !in Up(idom, rank, g.entry, v) ==>
      Up(idom[b := y], rank, g.entry, v) == Up(idom, rank, g.entry, v)
    ensures b in Up(idom, rank, g.entry, v) ==> forall z :: z in Up(idom[b := y], rank, g.entry, v) <==>
      (z in Up(idom, rank, g.entry, v) && z in rank && rank[z] >= i) || z in Up(idom, rank, g.entry, y)
    ensures rank[v] < i ==> b !in Up(idom, rank, g.entry, v)
    ensures Up(idom[b := y], rank, g.entry, v) <= Up(idom, rank, g.entry, v)
  {
    UpdateClimbs(g, rpo, rank, idom, i, b, y);
    UpUpdate(idom, rank, g.entry, b, y, v);
    UpBasics(idom, rank, g.entry, v);
    if b in Up(idom, rank, g.entry, v) {
      UpLinear(idom, rank, g.entry, v, b);
      UpdateLifts(g, rpo, rank, idom, i, b, y);
      UpBasics(idom, rank, g.entry, b);
      UpLinear(idom, rank, g.entry, b, y);
      UpLinear(idom, rank, g.entry, v, y);
    }
  }

  /** The chain of b, and of anything not above b, after the update. */
  lemma RedirectSelf(g: Cfg, rpo: seq<nat>, rank: map<nat, nat>, idom: map<nat, nat>, i: nat, b: nat, y: nat)
    requires Update(g, rpo, rank, idom, i, b, y)
    ensures Up(idom[b := y], rank, g.entry, b) == {b} + Up(idom, rank, g.entry, y)
    ensures Up(idom[b := y], rank, g.entry, y) == Up(idom, rank, g.entry, y)
    ensures forall z :: z in Up(idom, rank, g.entry, y) ==> z in rank && rank[z] < i
  {
    UpdateClimbs(g, rpo, rank, idom, i, b, y);
    UpUpdated(idom, rank, g.entry, b, y);
    UpBasics(idom, rank, g.entry, y);
  }

  lemma KeepsPredClosed(g: Cfg, rpo: seq<nat>, rank: map<nat, nat>, idom: map<nat, nat>, i: nat, b: nat, y: nat)
    requires Update(g, rpo, rank, idom, i, b, y)
    ensures PredClosed(g, rank, idom[b := y])
  {
    var idom' := idom[b := y];
    UpdateClimbs(g, rpo, rank, idom, i, b, y);
    forall c, q | Node(idom', c) && ForwardPred(g, rank, q, c) ensures Node(idom', q) {
      if c != b { assert Node(idom, c); }
      assert Node(idom, q);
    }
  }

  lemma KeepsForwardAgrees(g: Cfg, rpo: seq<nat>, rank: map<nat, nat>, idom: map<nat, nat>, i: nat, b: nat, y: nat)
    requires Update(g, rpo, rank, idom, i, b, y)
    ensures ForwardAgrees(g, rank, idom[b := y], i + 1)
  {
    var idom' := idom[b := y];
    var root := g.entry;
    forall c, q | Node(idom', c) && c != root && ForwardPred(g, rank, q, c)
      ensures AgreesOn(rank, Up(idom', rank, root, idom'[c]), Up(idom', rank, root, q), rank[c] < i + 1, i + 1)
    {
      if c == b {
        UpdateClimbs(g, rpo, rank, idom, i, b, y);
        RedirectSelf(g, rpo, rank, idom, i, b, y);
        Redirect(g, rpo, rank, idom, i, b, y, q);
      } else {
        ForwardAgreesAt(g, rpo, rank, idom, i, b, y, c, q);
      }
    }
  }

  lemma ForwardAgreesAt(g: Cfg, rpo: seq<nat>, rank: map<nat, nat>, idom: map<nat, nat>, i: nat, b: nat, y: nat,
      c: nat, q: nat)
    requires Update(g, rpo, rank, idom, i, b, y)
    requires Node(idom, c) && c != g.entry && c != b && ForwardPred(g, rank, q, c)
    ensures AgreesOn(rank, Up(idom[b := y], rank, g.entry, idom[c]), Up(idom[b := y], rank, g.entry, q),
                     rank[c] < i + 1, i + 1)
  {
    var root := g.entry;
    assert rpo[rank[c]] == c && rank[c] != i;
    assert Node(idom, q);
    assert AgreesOn(rank, Up(idom, rank, root, idom[c]), Up(idom, rank, root, q), rank[c] < i, i);
    UpBasics(idom, rank, root, c);
    UpBasics(idom, rank, root, idom[c]);
    Redirect(g, rpo, rank, idom, i, b, y, idom[c]);
    Redirect(g, rpo, rank, idom, i, b, y, q);
    RedirectSelf(g, rpo, rank, idom, i, b, y);
  }

  lemma KeepsNeverBelowMeet(g: Cfg, rpo: seq<nat>, rank: map<nat, nat>, idom: map<nat, nat>, i: nat, b: nat, y: nat)
    requires Update(g, rpo, rank, idom, i, b, y)
    ensures NeverBelowMeet(g, rank, idom[b := y])
  {
    var idom' := idom[b := y];
    forall c, z | Node(idom', c) && c in g.blocks && c != g.entry
      && Common(idom', rank, g.entry, g.blocks[c].preds, z)
      ensures z in Up(idom', rank, g.entry, idom'[c])
    {
      if c == b {
        MeetStaysAbove(g, rpo, rank, idom, i, b, y, z);
      } else {
        OthersStayAbove(g, rpo, rank, idom, i, b, y, c, z);
      }
    }
  }

  lemma MeetStaysAbove(g: Cfg, rpo: seq<nat>, rank: map<nat, nat>, idom: map<nat, nat>, i: nat, b: nat, y: nat, z: nat)
    requires Update(g, rpo, rank, idom, i, b, y)
    requires Common(idom[b := y], rank, g.entry, g.blocks[b].preds, z)
    ensures z in Up(idom[b := y], rank, g.entry, y)
  {
    var idom' := idom[b := y];
    var root := g.entry;
    var ps := g.blocks[b].preds;
    UpdateClimbs(g, rpo, rank, idom, i, b, y);
    RedirectSelf(g, rpo, rank, idom, i, b, y);
    assert HasForwardPred(g, rank, b);
    var q :| ForwardPred(g, rank, q, b);
    assert q in ps && Node(idom, q) && Node(idom', q);
    Redirect(g, rpo, rank, idom, i, b, y, q);
    UpBasics(idom, rank, root, q);
    assert z in rank && rank[z] < i;
    forall p | p in ps && Node(idom, p) ensures z in Up(idom, rank, root, p) {
      assert Node(idom', p);
      Redirect(g, rpo, rank, idom, i, b, y, p);
    }
  }

  lemma OthersStayAbove(g: Cfg, rpo: seq<nat>, rank: map<nat, nat>, idom: map<nat, nat>, i: nat, b: nat, y: nat,
      c: nat, z: nat)
    requires Update(g, rpo, rank, idom, i, b, y)
    requires Node(idom[b := y], c) && c in g.blocks && c != g.entry && c != b
    requires Common(idom[b := y], rank, g.entry, g.blocks[c].preds, z)
    ensures z in Up(idom[b := y], rank, g.entry, idom[b := y][c])
  {
    var idom' := idom[b := y];
    var root := g.entry;
    var ps := g.blocks[c].preds;
    assert Node(idom, c);
    UpBasics(idom, rank, root, c);
    forall p | p in ps && Node(idom, p) ensures z in Up(idom, rank, root, p) {
      assert Node(idom', p);
      Redirect(g, rpo, rank, idom, i, b, y, p);
    }
    assert z in Up(idom, rank, root, idom[c]);
    Redirect(g, rpo, rank, idom, i, b, y, idom[c]);
    if b in Up(idom, rank, root, idom[c]) {
      assert HasForwardPred(g, rank, c);
      var q :| ForwardPred(g, rank, q, c);
      assert q in ps && Node(idom, q) && Node(idom', q);
      assert AgreesOn(rank, Up(idom, rank, root, idom[c]), Up(idom, rank, root, q), rank[c] < i, i);
      Redirect(g, rpo, rank, idom, i, b, y, q);
    }
  }

  // ----- Paths along chains

  /** From any node above v there is a path down to v that stays below it. */
  lemma {:induction false} ChainPath(g: Cfg, rank: map<nat, nat>, idom: map<nat, nat>, v: nat, z: nat)
    requires Climbs(idom, rank, g.entry) && Hangs(g, rank, idom)
    requires Node(idom, v) && z in Up(idom, rank, g.entry, v)
    ensures PathBelow(g, rank, z, v)
    decreases if v in rank then rank[v] else 0
  {
    UpBasics(idom, rank, g.entry, v);
    if z == v {
      assert PathFromTo(g, [v], v, v) && Below(rank, [v]);
    } else {
      var w := idom[v];
      ChainPath(g, rank, idom, w, z);
      UpBasics(idom, rank, g.entry, w);
      var p :| PathFromTo(g, p, z, w) && Below(rank, p);
      var q :| PathFromTo(g, q, w, v) && Below(rank, q);
      PathConcat(g, p, q, z, w, v);
      var r := p + q[1..];
      forall k | 0 < k < |r| ensures r[k] in rank && rank[r[k]] > rank[z] {
        if k >= |p| { assert r[k] == q[k - |p| + 1]; }
      }
      assert Below(rank, r);
    }
  }

  lemma PathBelowStep(g: Cfg, rank: map<nat, nat>, x: nat, q: nat, b: nat)
    requires PathBelow(g, rank, x, q) && Edge(g, q, b) && b in rank && rank[b] > rank[x]
    ensures PathBelow(g, rank, x, b)
  {
    var p :| PathFromTo(g, p, x, q) && Below(rank, p);
    assert PathFromTo(g, [q, b], q, b);
    PathConcat(g, p, [q, b], x, q, b);
    assert Below(rank, p + [q, b][1..]);
  }

  lemma KeepsHangs(g: Cfg, rpo: seq<nat>, rank: map<nat, nat>, idom: map<nat, nat>, i: nat, b: nat, y: nat)
    requires Update(g, rpo, rank, idom, i, b, y)
    ensures Hangs(g, rank, idom[b := y])
  {
    var idom' := idom[b := y];
    UpdateHangs(g, rpo, rank, idom, i, b, y);
    forall d | Node(idom', d) && d != g.entry ensures PathBelow(g, rank, idom'[d], d) {
      if d != b { assert Node(idom, d); }
    }
  }

  lemma UpdateHangs(g: Cfg, rpo: seq<nat>, rank: map<nat, nat>, idom: map<nat, nat>, i: nat, b: nat, y: nat)
    requires Update(g, rpo, rank, idom, i, b, y)
    ensures PathBelow(g, rank, y, b)
  {
    UpdateClimbs(g, rpo, rank, idom, i, b, y);
    assert HasForwardPred(g, rank, b);
    var q :| ForwardPred(g, rank, q, b);
    UpBasics(idom, rank, g.entry, y);
    ChainPath(g, rank, idom, q, y);
    PathBelowStep(g, rank, y, q, b);
  }

  lemma KeepsDomsOnChain(g: Cfg, rpo: seq<nat>, rank: map<nat, nat>, idom: map<nat, nat>, i: nat, b: nat, y: nat)
    requires Update(g, rpo, rank, idom, i, b, y)
    ensures DomsOnChain(g, rank, idom[b := y])
  {
    var idom' := idom[b := y];
    forall d, a | Node(idom', d) && Dom(g, a, d) ensures a in Up(idom', rank, g.entry, d) {
      if d == b {
        DomOfUpdated(g, rpo, rank, idom, i, b, y, a);
      } else {
        DomOfOther(g, rpo, rank, idom, i, b, y, d, a);
      }
    }
  }

  lemma DomOfOther(g: Cfg, rpo: seq<nat>, rank: map<nat, nat>, idom: map<nat, nat>, i: nat, b: nat, y: nat, d: nat,
      a: nat)
    requires Update(g, rpo, rank, idom, i, b, y) && Node(idom, d) && Dom(g, a, d)
    ensures a in Up(idom[b := y], rank, g.entry, d)
  {
    Redirect(g, rpo, rank, idom, i, b, y, d);
    UpBasics(idom, rank, g.entry, d);
    if b in Up(idom, rank, g.entry, d) && rank[a] < i {
      DomAboveLow(g, rank, idom, b, d, a);
      DomOfUpdated(g, rpo, rank, idom, i, b, y, a);
      RedirectSelf(g, rpo, rank, idom, i, b, y);
    }
  }

  /** A dominator of b is b itself or is common to all its processed predecessors. */
  lemma DomOfUpdated(g: Cfg, rpo: seq<nat>, rank: map<nat, nat>, idom: map<nat, nat>, i: nat, b: nat, y: nat, a: nat)
    requires Update(g, rpo, rank, idom, i, b, y) && Dom(g, a, b)
    ensures a in Up(idom[b := y], rank, g.entry, b)
  {
    RedirectSelf(g, rpo, rank, idom, i, b, y);
    if a != b {
      forall p | p in g.blocks[b].preds && Node(idom, p) ensures a in Up(idom, rank, g.entry, p) {
        DomOfPred(g, p, b, a);
      }
    }
  }

  lemma DomOfPred(g: Cfg, p: nat, b: nat, a: nat)
    requires Edge(g, p, b) && Dom(g, a, b) && a != b
    ensures Dom(g, a, p)
  {
    forall w | PathFromTo(g, w, g.entry, p) ensures a in w {
      assert PathFromTo(g, [p, b], p, b);
      PathConcat(g, w, [p, b], g.entry, p, b);
    }
  }

  /** A dominator of d ranked above b, where b is on d's chain, dominates b. */
  lemma DomAboveLow(g: Cfg, rank: map<nat, nat>, idom: map<nat, nat>, b: nat, d: nat, a: nat)
    requires Climbs(idom, rank, g.entry) && Hangs(g, rank, idom)
    requires Node(idom, d) && b in Up(idom, rank, g.entry, d) && b in rank
    requires Dom(g, a, d) && a in rank && rank[a] < rank[b]
    ensures Dom(g, a, b)
  {
    ChainPath(g, rank, idom, d, b);
    var q :| PathFromTo(g, q, b, d) && Below(rank, q);
    assert a !in q;
    forall w | PathFromTo(g, w, g.entry, b) ensures a in w {
      PathConcat(g, w, q, g.entry, b, d);
    }
  }

  lemma UpdateKeepsInv(g: Cfg, rpo: seq<nat>, rank: map<nat, nat>, idom: map<nat, nat>, i: nat, b: nat, y: nat)
    requires Update(g, rpo, rank, idom, i, b, y)
    ensures SweepInv(g, rpo, rank, idom[b := y], i + 1)
  {
    UpdateClimbs(g, rpo, rank, idom, i, b, y);
    KeepsPredClosed(g, rpo, rank, idom, i, b, y);
    KeepsForwardAgrees(g, rpo, rank, idom, i, b, y);
    KeepsNeverBelowMeet(g, rpo, rank, idom, i, b, y);
    KeepsHangs(g, rpo, rank, idom, i, b, y);
    KeepsDomsOnChain(g, rpo, rank, idom, i, b, y);
  }

  // ----- Reverse post-order

  ghost predicate HasLaterPred(g: Cfg, post: seq<nat>, k: nat) {
    k < |post| && exists j :: k < j < |post| && Edge(g, post[j], post[k])
  }

  ghost predicate CalledFrom(g: Cfg, open: set<nat>, x: nat) {
    x == g.entry || exists q :: q in open && Edge(g, q, x)
  }

  /** The depth-first state while the calls for `open` are active: the other visited blocks
      are finished, each listed once, and each is followed by one of its predecessors unless
      that predecessor is still open. */
  ghost predicate DfsInv(g: Cfg, visited: set<nat>, post: seq<nat>, open: set<nat>) {
    && open <= visited
    && Distinct(post)
    && (forall x :: x in post ==> x in visited && x in g.blocks && x !in open)
    && (forall x :: x in visited && x in g.blocks && x !in open ==> x in post)
    && (forall x, s :: x in post && Edge(g, x, s) ==> s in visited)
    && (forall x :: x in visited ==> Reachable(g, x))
    && (forall k {:trigger HasLaterPred(g, post, k)} :: 0 <= k < |post| ==>
      HasLaterPred(g, post, k) || CalledFrom(g, open, post[k]))
  }

  /** a is finished after b: later in the list, or still open when b is listed or called. */
  ghost predicate Later(post: seq<nat>, stack: seq<nat>, a: nat, b: nat) {
    || (a in stack && b in post)
    || (exists i, j :: 0 <= i < j < |stack| && stack[i] == a && stack[j] == b)
    || (exists i, j :: 0 <= i < j < |post| && post[i] == b && post[j] == a)
  }

  ghost predicate IsFall(g: Cfg, post: seq<nat>, stack: seq<nat>, w: seq<nat>) {
    |w| > 0 && forall i: nat, j: nat :: j == i + 1 && j < |w| ==> Edge(g, w[i], w[j]) && Later(post, stack, w[i], w[j])
  }

  /** A path leads from a to b along which blocks are finished ever earlier. */
  ghost predicate Falls(g: Cfg, post: seq<nat>, stack: seq<nat>, a: nat, b: nat) {
    exists w :: IsFall(g, post, stack, w) && w[0] == a && w[|w| - 1] == b
  }

  /** An edge to a block not finished earlier leads back up such a path. */
  ghost predicate EdgesFall(g: Cfg, post: seq<nat>, stack: seq<nat>) {
    forall x, s :: x in post && s in g.blocks && Edge(g, x, s) && !Later(post, stack, x, s) ==>
      Falls(g, post, stack, s, x)
  }

  ghost predicate IsStack(g: Cfg, open: set<nat>, stack: seq<nat>) {
    && (forall x :: x in open <==> x in stack)
    && forall i: nat, j: nat :: j == i + 1 && j < |stack| ==> Edge(g, stack[i], stack[j])
  }

  lemma FallsKept(g: Cfg, post: seq<nat>, stack: seq<nat>, post': seq<nat>, stack': seq<nat>, a: nat, b: nat)
    requires Falls(g, post, stack, a, b)
    requires forall x, y :: Later(post, stack, x, y) ==> Later(post', stack', x, y)
    ensures Falls(g, post', stack', a, b)
  {
    var w :| IsFall(g, post, stack, w) && w[0] == a && w[|w| - 1] == b;
    assert IsFall(g, post', stack', w);
  }

  lemma OpeningKeepsFalls(g: Cfg, post: seq<nat>, stack: seq<nat>, node: nat)
    requires EdgesFall(g, post, stack)
    ensures EdgesFall(g, post, stack + [node])
  {
    var stack' := stack + [node];
    forall x, y | Later(post, stack, x, y) ensures Later(post, stack', x, y) {
      if i, j :| 0 <= i < j < |stack| && stack[i] == x && stack[j] == y {
        assert stack'[i] == x && stack'[j] == y;
      }
    }
    forall x, s | x in post && s in g.blocks && Edge(g, x, s) && !Later(post, stack', x, s)
      ensures Falls(g, post, stack', s, x)
    {
      FallsKept(g, post, stack, post, stack', s, x);
    }
  }

  lemma LaterFinished(post: seq<nat>, stack: seq<nat>, node: nat, x: nat, y: nat)
    requires Later(post, stack + [node], x, y)
    ensures Later(post + [node], stack, x, y)
  {
    var post', stack0 := post + [node], stack + [node];
    if x in stack0 && y in post {
      if x == node {
        var i :| 0 <= i < |post| && post[i] == y;
        assert post'[i] == y && post'[|post|] == x;
      } else {
        assert x in stack && y in post';
      }
    } else if i, j :| 0 <= i < j < |stack0| && stack0[i] == x && stack0[j] == y {
      assert stack[i] == x;
      if j < |stack| { assert stack[j] == y; } else { assert post'[|post|] == y; }
    } else {
      var i, j :| 0 <= i < j < |post| && post[i] == y && post[j] == x;
      assert post'[i] == y && post'[j] == x;
    }
  }

  /** When node is finished its own edges fall: to what is finished already, or up the stack. */
  lemma FinishingKeepsFalls(g: Cfg, visited: set<nat>, post: seq<nat>, open: set<nat>, stack: seq<nat>, node: nat)
    requires DfsInv(g, visited, post, open + {node}) && node in g.blocks
    requires forall s :: Edge(g, node, s) ==> s in visited
    requires EdgesFall(g, post, stack + [node]) && IsStack(g, open + {node}, stack + [node])
    ensures EdgesFall(g, post + [node], stack)
  {
    var post', stack0 := post + [node], stack + [node];
    forall x, y | Later(post, stack0, x, y) ensures Later(post', stack, x, y) {
      LaterFinished(post, stack, node, x, y);
    }
    forall x, s | x in post' && s in g.blocks && Edge(g, x, s) && !Later(post', stack, x, s)
      ensures Falls(g, post', stack, s, x)
    {
      if x in post {
        FallsKept(g, post, stack0, post', stack, s, x);
      } else {
        FinishedFalls(g, visited, post, open, stack, node, s);
      }
    }
  }

  lemma LaterListed(post: seq<nat>, stack: seq<nat>, node: nat, s: nat)
    ensures s in post ==> Later(post + [node], stack, node, s)
  {
    var post' := post + [node];
    if s in post {
      var i :| 0 <= i < |post| && post[i] == s;
      assert post'[i] == s && post'[|post|] == node;
    }
  }

  lemma FinishedFalls(g: Cfg, visited: set<nat>, post: seq<nat>, open: set<nat>, stack: seq<nat>, node: nat, s: nat)
    requires DfsInv(g, visited, post, open + {node}) && IsStack(g, open + {node}, stack + [node])
    requires s in visited && s in g.blocks && Edge(g, node, s) && !Later(post + [node], stack, node, s)
    ensures Falls(g, post + [node], stack, s, node)
  {
    var stack0 := stack + [node];
    LaterListed(post, stack, node, s);
    assert s in stack0;
    var i: nat :| i < |stack0| && stack0[i] == s;
    StackFalls(g, post, stack, node, i);
    assert stack0[i..][0] == s && stack0[i..][|stack0[i..]| - 1] == node;
  }

  lemma StackFalls(g: Cfg, post: seq<nat>, stack: seq<nat>, node: nat, i: nat)
    requires i <= |stack|
    requires forall k: nat, l: nat :: l == k + 1 && l < |stack| + 1 ==>
      Edge(g, (stack + [node])[k], (stack + [node])[l])
    ensures IsFall(g, post + [node], stack, (stack + [node])[i..])
  {
    var post', stack0 := post + [node], stack + [node];
    var w := stack0[i..];
    forall k: nat, l: nat | l == k + 1 && l < |w| ensures Edge(g, w[k], w[l]) && Later(post', stack, w[k], w[l]) {
      assert w[k] == stack0[i + k] && w[l] == stack0[i + l];
      assert Later(post, stack0, stack0[i + k], stack0[i + l]);
      LaterFinished(post, stack, node, w[k], w[l]);
    }
  }

  ghost predicate DfsState(g: Cfg, visited: set<nat>, post: seq<nat>, open: set<nat>, stack: seq<nat>) {
    DfsInv(g, visited, post, open) && IsStack(g, open, stack) && EdgesFall(g, post, stack)
  }

  ghost predicate Called(g: Cfg, open: set<nat>, stack: seq<nat>, node: nat) {
    Reachable(g, node) && CalledFrom(g, open, node) && (stack != [] ==> Edge(g, stack[|stack| - 1], node))
  }

  lemma DfsOpen(g: Cfg, visited: set<nat>, post: seq<nat>, open: set<nat>, stack: seq<nat>, node: nat)
    requires DfsState(g, visited, post, open, stack) && Called(g, open, stack, node)
    requires node !in visited
    ensures DfsState(g, visited + {node}, post, open + {node}, stack + [node])
  {
    OpeningKeepsFalls(g, post, stack, node);
  }

  lemma DfsCall(g: Cfg, open: set<nat>, stack: seq<nat>, node: nat, s: nat)
    requires Reachable(g, node) && Edge(g, node, s)
    ensures Called(g, open + {node}, stack + [node], s)
  {
    ReachStep(g, g.entry, node, s);
  }

  lemma DfsDone(g: Cfg, visited: set<nat>, post: seq<nat>, open: set<nat>, stack: seq<nat>, node: nat)
    requires DfsState(g, visited, post, open + {node}, stack + [node]) && IsStack(g, open, stack)
    requires node !in open && node in g.blocks && CalledFrom(g, open, node)
    requires forall s :: Edge(g, node, s) ==> s in visited
    ensures DfsState(g, visited, post + [node], open, stack)
  {
    DfsFinish(g, visited, post, open, node);
    FinishingKeepsFalls(g, visited, post, open, stack, node);
  }

  method DfsPostOrder(g: Cfg, node: nat, visited: set<nat>, post: seq<nat>, ghost open: set<nat>, ghost stack: seq<nat>)
    returns (visited': set<nat>, post': seq<nat>)
    requires DfsState(g, visited, post, open, stack) && Called(g, open, stack, node)
    ensures DfsState(g, visited', post', open, stack)
    ensures visited <= visited' && node in visited'
    ensures node !in visited && node in g.blocks ==> |post'| > 0 && post'[|post'| - 1] == node
    decreases g.blocks.Keys - visited
  {
    visited', post' := visited, post;
    if node in visited { return; }
    visited' := visited' + {node};
    if node !in g.blocks { return; }
    var succs := g.blocks[node].succs;
    DfsOpen(g, visited, post, open, stack, node);
    for i := 0 to |succs|
      invariant visited + {node} <= visited'
      invariant DfsState(g, visited', post', open + {node}, stack + [node])
      invariant forall j :: 0 <= j < i ==> succs[j] in visited'
    {
      assert Edge(g, node, succs[i]);
      DfsCall(g, open, stack, node, succs[i]);
      visited', post' := DfsPostOrder(g, succs[i], visited', post', open + {node}, stack + [node]);
    }
    DfsDone(g, visited', post', open, stack, node);
    post' := post' + [node];
  }

  lemma DfsFinish(g: Cfg, visited: set<nat>, post: seq<nat>, open: set<nat>, node: nat)
    requires DfsInv(g, visited, post, open + {node}) && node !in open && node in g.blocks
    requires CalledFrom(g, open, node)
    requires forall s :: Edge(g, node, s) ==> s in visited
    ensures DfsInv(g, visited, post + [node], open)
  {
    var post' := post + [node];
    forall k | 0 <= k < |post'| ensures HasLaterPred(g, post', k) || CalledFrom(g, open, post'[k]) {
      if k < |post| {
        if HasLaterPred(g, post, k) {
          var j :| k < j < |post| && Edge(g, post[j], post[k]);
          assert Edge(g, post'[j], post'[k]);
        } else if !CalledFrom(g, open, post[k]) {
          assert Edge(g, post'[|post|], post'[k]);
        }
      }
    }
  }

  /** The blocks reachable from the entry in reverse post-order, and the position of each. */
  method ComputeRpo(g: Cfg) returns (rpo: seq<nat>, rank: map<nat, nat>)
    ensures g.entry in g.blocks ==> GoodOrder(g, rpo, rank) && Inverts(rpo, rank) && Retreats(g, rank)
    ensures g.entry !in g.blocks ==> rpo == [] && rank == map[]
  {
    ReachSelf(g, g.entry);
    var visited, post := DfsPostOrder(g, g.entry, {}, [], {}, []);
    rpo := Reversed(post);
    rank := map[];
    for i := 0 to |rpo|
      invariant forall b :: b in rank <==> b in rpo[..i]
      invariant forall b {:trigger rank[b]} :: b in rank ==> rank[b] < i && rpo[rank[b]] == b
    {
      rank := rank[rpo[i] := i];
    }
    if g.entry in g.blocks {
      PostOrderIsGood(g, visited, post, rpo, rank);
      PostOrderRetreats(g, post, rpo, rank);
    } else {
      NothingVisited(g, post);
    }
  }

  lemma LaterIsBefore(post: seq<nat>, rpo: seq<nat>, rank: map<nat, nat>, a: nat, b: nat)
    requires rpo == Reversed(post) && (forall i :: 0 <= i < |rpo| ==> rpo[i] in rank && rank[rpo[i]] == i)
    ensures Later(post, [], a, b) ==> a in rank && b in rank && rank[a] < rank[b]
  {
    if i, j :| 0 <= i < j < |post| && post[i] == b && post[j] == a {
      assert rpo[|post| - 1 - i] == b && rpo[|post| - 1 - j] == a;
    }
  }

  lemma PostOrderRetreats(g: Cfg, post: seq<nat>, rpo: seq<nat>, rank: map<nat, nat>)
    requires rpo == Reversed(post) && GoodOrder(g, rpo, rank) && EdgesFall(g, post, [])
    ensures Retreats(g, rank)
  {
    forall q, b | q in rank && b in rank && Edge(g, q, b) && rank[b] <= rank[q] ensures Descends(g, rank, b, q) {
      assert rpo[rank[q]] == q && post[|post| - 1 - rank[q]] == q;
      assert q in post && Reachable(g, b) && b in g.blocks;
      LaterIsBefore(post, rpo, rank, q, b);
      var w :| IsFall(g, post, [], w) && w[0] == b && w[|w| - 1] == q;
      forall i: nat, j: nat | j == i + 1 && j < |w| ensures ForwardPred(g, rank, w[i], w[j]) {
        LaterIsBefore(post, rpo, rank, w[i], w[j]);
      }
      assert IsDescent(g, rank, w);
    }
  }

  lemma NothingVisited(g: Cfg, post: seq<nat>)
    requires g.entry !in g.blocks && forall x :: x in post ==> x in g.blocks && Reachable(g, x)
    ensures |post| == 0
  {
    assert |post| > 0 ==> post[0] in post;
    ClosedSetHoldsReach(g, {g.entry}, g.entry);
  }

  lemma PostOrderIsGood(g: Cfg, visited: set<nat>, post: seq<nat>, rpo: seq<nat>, rank: map<nat, nat>)
    requires g.entry in g.blocks && g.entry in visited
    requires DfsInv(g, visited, post, {})
    requires |post| > 0 && post[|post| - 1] == g.entry
    requires rpo == Reversed(post)
    requires forall b :: b in rank <==> b in rpo
    requires Inverts(rpo, rank)
    ensures GoodOrder(g, rpo, rank)
  {
    forall b ensures b in rank <==> b in post {
      if b in post {
        var k :| 0 <= k < |post| && post[k] == b;
        assert rpo[|post| - 1 - k] == b;
      }
    }
    forall i | 0 <= i < |rpo| ensures rpo[i] in rank && rank[rpo[i]] == i {
      assert rpo[i] in rpo;
      assert rpo[rank[rpo[i]]] == rpo[i];
    }
    ClosedSetHoldsReach(g, visited, g.entry);
    forall b | b in rank && b != g.entry ensures HasForwardPred(g, rank, b) {
      RankHasForwardPred(g, post, rpo, rank, b);
    }
  }

  lemma RankHasForwardPred(g: Cfg, post: seq<nat>, rpo: seq<nat>, rank: map<nat, nat>, b: nat)
    requires forall k {:trigger HasLaterPred(g, post, k)} :: 0 <= k < |post| ==>
      HasLaterPred(g, post, k) || post[k] == g.entry
    requires rpo == Reversed(post) && Inverts(rpo, rank)
    requires forall i :: 0 <= i < |rpo| ==> rpo[i] in rank && rank[rpo[i]] == i
    requires b in rank && b != g.entry
    ensures HasForwardPred(g, rank, b)
  {
    var k := |post| - 1 - rank[b];
    assert post[k] == b && HasLaterPred(g, post, k);
    var j :| k < j < |post| && Edge(g, post[j], post[k]);
    assert rpo[|post| - 1 - j] == post[j];
    assert ForwardPred(g, rank, post[j], b);
  }

  // ----- The fixed point

  /** What remains to be climbed: every update lowers it. */
  ghost function Potential(bs: seq<nat>, top: nat, rank: map<nat, nat>, idom: map<nat, nat>): nat {
    if bs == [] then 0 else Potential(bs[1..], top, rank, idom) + Cost(top, rank, idom, bs[0])
  }

  ghost function Cost(top: nat, rank: map<nat, nat>, idom: map<nat, nat>, b: nat): nat {
    if b in idom && idom[b] in rank then rank[idom[b]] else top
  }

  lemma {:induction false} PotentialUpdate(bs: seq<nat>, top: nat, rank: map<nat, nat>, idom: map<nat, nat>, b: nat,
      y: nat)
    requires Cost(top, rank, idom[b := y], b) < Cost(top, rank, idom, b)
    ensures Potential(bs, top, rank, idom[b := y]) <= Potential(bs, top, rank, idom)
    ensures b in bs ==> Potential(bs, top, rank, idom[b := y]) < Potential(bs, top, rank, idom)
  {
    if bs != [] { PotentialUpdate(bs[1..], top, rank, idom, b, y); }
  }

  /** b's parent is on the chain of each of its processed predecessors. */
  ghost predicate Settled(g: Cfg, rank: map<nat, nat>, idom: map<nat, nat>, b: nat) {
    b in g.blocks && Node(idom, b) && forall p :: p in g.blocks[b].preds && Node(idom, p) ==>
      Up(idom, rank, g.entry, idom[b]) <= Up(idom, rank, g.entry, p)
  }

  /** The fixed point: chains hold the true dominators, and nothing else can be changed. */
  ghost predicate Converged(g: Cfg, rpo: seq<nat>, rank: map<nat, nat>, idom: map<nat, nat>) {
    && SweepInv(g, rpo, rank, idom, |rpo|)
    && forall k :: 0 < k < |rpo| ==> Settled(g, rank, idom, rpo[k])
  }

  /** One pass over the blocks in reverse post-order. */
  method Sweep(g: Cfg, rpo: seq<nat>, rank: map<nat, nat>, idom: map<nat, nat>)
    returns (idom': map<nat, nat>, changed: bool)
    requires SweepInv(g, rpo, rank, idom, 0) && Inverts(rpo, rank)
    ensures SweepInv(g, rpo, rank, idom', |rpo|)
    ensures changed ==> Potential(rpo, |rpo|, rank, idom') < Potential(rpo, |rpo|, rank, idom)
    ensures !changed ==> Converged(g, rpo, rank, idom') && idom' == idom
  {
    idom', changed := idom, false;
    for i := 0 to |rpo|
      invariant SweepInv(g, rpo, rank, idom', i)
      invariant changed ==> Potential(rpo, |rpo|, rank, idom') < Potential(rpo, |rpo|, rank, idom)
      invariant !changed ==> idom' == idom
      invariant !changed ==> forall k :: 0 < k < i ==> Settled(g, rank, idom, rpo[k])
    {
      if rpo[i] == g.entry {
        EntryKeepsInv(g, rpo, rank, idom', i);
        continue;
      }
      var change;
      idom', change := Revise(g, rpo, rank, idom', i);
      changed := changed || change;
    }
  }

  /** Gives the i-th block of the order the meet of its processed predecessors. */
  method Revise(g: Cfg, rpo: seq<nat>, rank: map<nat, nat>, idom: map<nat, nat>, i: nat)
    returns (idom': map<nat, nat>, changed: bool)
    requires SweepInv(g, rpo, rank, idom, i) && Inverts(rpo, rank) && i < |rpo| && rpo[i] != g.entry
    ensures SweepInv(g, rpo, rank, idom', i + 1)
    ensures changed ==> Potential(rpo, |rpo|, rank, idom') < Potential(rpo, |rpo|, rank, idom)
    ensures !changed ==> idom' == idom && Settled(g, rank, idom, rpo[i])
  {
    idom', changed := idom, false;
    var b := rpo[i];
    InRpoIsBlock(g, rpo, rank, i);
    var m := MeetPredecessors(g.blocks[b].preds, idom, rank, rpo, g.entry);
    SomePredProcessed(g, rpo, rank, idom, i);
    var newIdom := m.value;
    UpdateKeepsInv(g, rpo, rank, idom, i, b, newIdom);
    if b !in idom || idom[b] != newIdom {
      UpdateLowers(g, rpo, rank, idom, i, b, newIdom);
      idom', changed := idom[b := newIdom], true;
    } else {
      assert idom[b := newIdom] == idom;
      MeetSettles(g, rpo, rank, idom, i, b, newIdom);
    }
  }

  lemma InRpoIsBlock(g: Cfg, rpo: seq<nat>, rank: map<nat, nat>, i: nat)
    requires GoodOrder(g, rpo, rank) && i < |rpo|
    ensures rpo[i] in g.blocks && rpo[i] in rank
  {
    assert Reachable(g, rpo[i]) || !Reachable(g, rpo[i]);
  }

  lemma EntryKeepsInv(g: Cfg, rpo: seq<nat>, rank: map<nat, nat>, idom: map<nat, nat>, i: nat)
    requires SweepInv(g, rpo, rank, idom, i) && i < |rpo| && rpo[i] == g.entry
    ensures i == 0 && SweepInv(g, rpo, rank, idom, i + 1)
  {
    forall c, q | Node(idom, c) && c != g.entry && ForwardPred(g, rank, q, c)
      ensures AgreesOn(rank, Up(idom, rank, g.entry, idom[c]), Up(idom, rank, g.entry, q), rank[c] < 1, 1)
    {
      assert rpo[rank[c]] == c;
      assert AgreesOn(rank, Up(idom, rank, g.entry, idom[c]), Up(idom, rank, g.entry, q), rank[c] < 0, 0);
    }
  }

  lemma SomePredProcessed(g: Cfg, rpo: seq<nat>, rank: map<nat, nat>, idom: map<nat, nat>, i: nat)
    requires SweepInv(g, rpo, rank, idom, i) && i < |rpo| && rpo[i] != g.entry && rpo[i] in g.blocks
    ensures exists p :: p in g.blocks[rpo[i]].preds && p in idom
  {
    assert HasForwardPred(g, rank, rpo[i]);
    var q :| ForwardPred(g, rank, q, rpo[i]);
    assert rpo[rank[q]] == q;
  }

  lemma UpdateLowers(g: Cfg, rpo: seq<nat>, rank: map<nat, nat>, idom: map<nat, nat>, i: nat, b: nat, y: nat)
    requires Update(g, rpo, rank, idom, i, b, y) && Inverts(rpo, rank)
    requires b !in idom || idom[b] != y
    ensures Potential(rpo, |rpo|, rank, idom[b := y]) < Potential(rpo, |rpo|, rank, idom)
  {
    UpdateClimbs(g, rpo, rank, idom, i, b, y);
    if b in idom {
      UpdateLifts(g, rpo, rank, idom, i, b, y);
      assert Node(idom, b);
      UpBasics(idom, rank, g.entry, idom[b]);
    }
    PotentialUpdate(rpo, |rpo|, rank, idom, b, y);
  }

  lemma MeetSettles(g: Cfg, rpo: seq<nat>, rank: map<nat, nat>, idom: map<nat, nat>, i: nat, b: nat, y: nat)
    requires Update(g, rpo, rank, idom, i, b, y) && b in idom && idom[b] == y
    ensures Settled(g, rank, idom, b)
  {
    assert Node(idom, b);
  }

  /** The dominator tree. Terminates because every change moves a block up its own chain. */
  method Compute(g: Cfg) returns (t: DominatorTree)
    requires Inverse(g)
    ensures t.entry == g.entry
    ensures g.entry in g.blocks ==> Converged(g, t.rpo, t.rank, t.idom) && Retreats(g, t.rank)
    ensures g.entry !in g.blocks ==> t.rpo == [] && t.idom == map[g.entry := g.entry]
  {
    var rpo, rank := ComputeRpo(g);
    var idom: map<nat, nat> := map[g.entry := g.entry];
    if g.entry !in g.blocks {
      return DominatorTree(idom, rpo, rank, g.entry);
    }
    InitialInv(g, rpo, rank, idom);
    var changed := true;
    while changed
      invariant SweepInv(g, rpo, rank, idom, 0)
      invariant !changed ==> Converged(g, rpo, rank, idom)
      decreases Potential(rpo, |rpo|, rank, idom) + if changed then 1 else 0
    {
      idom, changed := Sweep(g, rpo, rank, idom);
      NextSweep(g, rpo, rank, idom);
    }
    t := DominatorTree(idom, rpo, rank, g.entry);
  }

  lemma NextSweep(g: Cfg, rpo: seq<nat>, rank: map<nat, nat>, idom: map<nat, nat>)
    requires SweepInv(g, rpo, rank, idom, |rpo|)
    ensures SweepInv(g, rpo, rank, idom, 0)
  {
    forall c, q | Node(idom, c) && c != g.entry && ForwardPred(g, rank, q, c)
      ensures AgreesOn(rank, Up(idom, rank, g.entry, idom[c]), Up(idom, rank, g.entry, q), rank[c] < 0, 0)
    {
      assert AgreesOn(rank, Up(idom, rank, g.entry, idom[c]), Up(idom, rank, g.entry, q), rank[c] < |rpo|, |rpo|);
    }
  }

  lemma InitialInv(g: Cfg, rpo: seq<nat>, rank: map<nat, nat>, idom: map<nat, nat>)
    requires GoodOrder(g, rpo, rank) && Inverse(g) && idom == map[g.entry := g.entry]
    ensures SweepInv(g, rpo, rank, idom, 0)
  {
    assert rpo[0] in rank;
    forall d, a | Node(idom, d) && Dom(g, a, d) ensures a in Up(idom, rank, g.entry, d) {
      assert PathFromTo(g, [g.entry], g.entry, g.entry);
    }
    assert rank[g.entry] == 0;
  }

  // ----- Dominance

  /** Does a dominate b, according to the tree? */
  method Dominates(t: DominatorTree, a: nat, b: nat) returns (r: bool)
    requires Climbs(t.idom, t.rank, t.entry)
    ensures r == TreeDominates(t, a, b)
  {
    if a == b { return true; }
    var cur := b;
    if cur in t.idom { UpOfNode(t, cur); }
    while true
      invariant b in t.idom <==> cur in t.idom
      invariant cur in t.idom ==> cur in t.rank
      invariant cur in t.idom ==> (a in Up(t.idom, t.rank, t.entry, b) <==> a in Up(t.idom, t.rank, t.entry, cur))
      invariant cur != a
      decreases if cur in t.rank then t.rank[cur] else 0
    {
      if cur !in t.idom { return false; }
      assert Node(t.idom, cur);
      UpBasics(t.idom, t.rank, t.entry, cur);
      var dom := t.idom[cur];
      if dom == cur { return false; }
      if dom == a { return true; }
      UpOfNode(t, dom);
      cur := dom;
    }
  }

  lemma UpOfNode(t: DominatorTree, b: nat)
    requires Climbs(t.idom, t.rank, t.entry) && b in t.idom
    ensures b in t.rank
  {
    assert Node(t.idom, b);
  }

  ghost predicate TreeDominates(t: DominatorTree, a: nat, b: nat) {
    a == b || (b in t.idom && a in Up(t.idom, t.rank, t.entry, b))
  }

  /** Once converged, everything on b's chain lies on every path from the entry to b. */
  lemma {:induction false} ChainOnPath(g: Cfg, rpo: seq<nat>, rank: map<nat, nat>, idom: map<nat, nat>, w: seq<nat>,
      b: nat, a: nat)
    requires Converged(g, rpo, rank, idom)
    requires PathFromTo(g, w, g.entry, b) && b in g.blocks && Node(idom, b)
    requires a in Up(idom, rank, g.entry, b)
    ensures a in w
    decreases |w|
  {
    if b != g.entry && a != b {
      var k := |w| - 2;
      assert Edge(g, w[k], w[k + 1]);
      PathPrefix(g, w, k);
      var p := w[k];
      assert Reachable(g, p) && Reachable(g, b);
      assert Node(idom, p) by { assert rpo[rank[p]] == p; }
      assert rpo[rank[b]] == b && Settled(g, rank, idom, rpo[rank[b]]);
      UpBasics(idom, rank, g.entry, b);
      ChainOnPath(g, rpo, rank, idom, w[..k + 1], p, a);
    }
  }

  /** The dominance query means dominance: a is on every path from the entry to b. */
  lemma DominatesIsDominance(g: Cfg, t: DominatorTree, a: nat, b: nat)
    requires t.entry == g.entry && Converged(g, t.rpo, t.rank, t.idom)
    requires b in g.blocks && Reachable(g, b)
    ensures TreeDominates(t, a, b) <==> Dom(g, a, b)
  {
    assert t.rpo[t.rank[b]] == b;
    assert Node(t.idom, b);
    UpBasics(t.idom, t.rank, t.entry, b);
    if TreeDominates(t, a, b) {
      forall w | PathFromTo(g, w, g.entry, b) ensures a in w {
        ChainOnPath(g, t.rpo, t.rank, t.idom, w, b, a);
      }
    }
  }

  /** The recorded parent is the immediate dominator: a strict one that all others dominate. */
  lemma ParentIsImmediate(g: Cfg, t: DominatorTree, b: nat)
    requires t.entry == g.entry && Converged(g, t.rpo, t.rank, t.idom)
    requires b in g.blocks && Reachable(g, b) && b != g.entry
    ensures b in t.idom && t.idom[b] != b && Dom(g, t.idom[b], b)
    ensures forall a :: Dom(g, a, b) && a != b ==> Dom(g, a, t.idom[b])
  {
    assert t.rpo[t.rank[b]] == b;
    assert Node(t.idom, b);
    UpBasics(t.idom, t.rank, t.entry, b);
    var d := t.idom[b];
    UpBasics(t.idom, t.rank, t.entry, d);
    InRpoIsBlock(g, t.rpo, t.rank, t.rank[d]);
    DominatesIsDominance(g, t, d, b);
    forall a | Dom(g, a, b) && a != b ensures Dom(g, a, d) {
      DominatesIsDominance(g, t, a, b);
      DominatesIsDominance(g, t, a, d);
    }
  }
}
