/** How many sweeps the fixed point of the value graph takes. */
module SsaConvergence {
  import opened Instructions
  import opened Graph
  import opened Collections
  import opened Ssa
  import opened Dominators

  // ----- Orders in which every edge leads forward

  ghost predicate Before(order: seq<nat>, a: nat, b: nat) {
    exists i, j :: 0 <= i < j < |order| && order[i] == a && order[j] == b
  }

  ghost predicate AllForward(g: Cfg, order: seq<nat>) {
    && Distinct(order) && (forall b :: b in order <==> b in g.blocks)
    && forall a, b :: Edge(g, a, b) ==> Before(order, a, b)
  }

  /** What comes in at a block depends on its predecessors only. */
  lemma InOfAgrees(g: Cfg, outs: BlockMap, outs': BlockMap, b: nat)
    requires b in g.blocks
    requires forall p :: p in g.blocks[b].preds ==> (p in outs <==> p in outs') && (p in outs ==> outs[p] == outs'[p])
    ensures InOf(g, outs, b) == InOf(g, outs', b)
  {
    forall r: Reg ensures InOf(g, outs, b)[r] == InOf(g, outs', b)[r] {
      assert Incoming(g, outs, b, r) == Incoming(g, outs', b, r);
    }
  }

  /** After i visits the blocks visited have what they were given, and the others what they had. */
  lemma {:induction false} VisitedOnce(g: Cfg, order: seq<nat>, s: State, i: nat, k: nat)
    requires Distinct(order) && forall b :: b in order ==> b in g.blocks
    requires i <= |order| && k < |order|
    ensures var t, b := SweptTo(g, order, s, i), order[k];
      if k < i then
        && b in t.ins && b in t.outs
        && t.ins[b] == InOf(g, SweptTo(g, order, s, k).outs, b) && t.outs[b] == OutOf(g, b, t.ins[b])
      else
        && (b in t.ins <==> b in s.ins) && (b in t.outs <==> b in s.outs)
        && (b in s.ins ==> t.ins[b] == s.ins[b]) && (b in s.outs ==> t.outs[b] == s.outs[b])
    decreases i
  {
    if i > 0 {
      assert order[i - 1] in order && order[k] in order;
      VisitedOnce(g, order, s, i - 1, k);
    }
  }

  /** Where every edge leads forward the second sweep changes nothing. */
  lemma ForwardSettles(g: Cfg, order: seq<nat>)
    requires Inverse(g) && AllForward(g, order)
    ensures !ChangesAt(g, order, 1)
  {
    var s0, s := Swept(g, order, 0), Swept(g, order, 1);
    assert s == SweptTo(g, order, s0, |order|);
    forall i: nat | i < |order| ensures SweptTo(g, order, s, i + 1) == SweptTo(g, order, s, i) {
      StaysSettled(g, order, s0, s, i);
      StaysSettled(g, order, s0, s, i + 1);
    }
  }

  lemma {:induction false} StaysSettled(g: Cfg, order: seq<nat>, s0: State, s: State, i: nat)
    requires Inverse(g) && AllForward(g, order) && i <= |order| && s == SweptTo(g, order, s0, |order|)
    ensures SweptTo(g, order, s, i) == s
    decreases i
  {
    if i > 0 {
      StaysSettled(g, order, s0, s, i - 1);
      var b := order[i - 1];
      assert b in order;
      VisitedOnce(g, order, s0, |order|, i - 1);
      forall p | p in g.blocks[b].preds
        ensures p in s.outs && p in SweptTo(g, order, s0, i - 1).outs
        ensures s.outs[p] == SweptTo(g, order, s0, i - 1).outs[p]
      {
        ForwardIsKept(g, order, s0, p, i - 1);
      }
      InOfAgrees(g, s.outs, SweptTo(g, order, s0, i - 1).outs, b);
      assert s.ins[b := s.ins[b]] == s.ins && s.outs[b := s.outs[b]] == s.outs;
    }
  }

  lemma ForwardIsKept(g: Cfg, order: seq<nat>, s0: State, p: nat, j: nat)
    requires Inverse(g) && AllForward(g, order) && j < |order|
    requires order[j] in g.blocks && p in g.blocks[order[j]].preds
    ensures var s, t := SweptTo(g, order, s0, |order|), SweptTo(g, order, s0, j);
      p in s.outs && p in t.outs && s.outs[p] == t.outs[p]
  {
    assert Edge(g, p, order[j]);
    var i, k :| 0 <= i < k < |order| && order[i] == p && order[k] == order[j];
    assert k == j;
    VisitedOnce(g, order, s0, |order|, i);
    VisitedOnce(g, order, s0, j, i);
  }

  // ----- Reverse post-order, with loops

  /** Every block is reached from the entry, which has no predecessors, and the order is a depth-first
      search's. */
  ghost predicate Setting(g: Cfg, rpo: seq<nat>, rank: map<nat, nat>) {
    && WellFormed(g) && GoodOrder(g, rpo, rank) && Retreats(g, rank) && rank.Keys == g.blocks.Keys
    && g.entry in g.blocks && g.blocks[g.entry].preds == []
  }

  /** The values a block's predecessors leave as it is swept: those before it have been swept already. */
  ghost function Mixed(rank: map<nat, nat>, s: State, s': State, b: nat): BlockMap
    requires b in rank
  {
    map p | p in rank && p in (if rank[p] < rank[b] then s'.outs else s.outs)
      :: (if rank[p] < rank[b] then s'.outs else s.outs)[p]
  }

  ghost predicate GivenAt(g: Cfg, rank: map<nat, nat>, s: State, s': State, b: nat) {
    && b in g.blocks && b in rank && b in s'.ins && b in s'.outs
    && s'.ins[b] == InOf(g, Mixed(rank, s, s', b), b) && s'.outs[b] == OutOf(g, b, s'.ins[b])
  }

  /** s' is what a sweep makes of s. */
  ghost predicate SweepOf(g: Cfg, rank: map<nat, nat>, s: State, s': State) {
    forall b {:trigger GivenAt(g, rank, s, s', b)} :: b in g.blocks ==> GivenAt(g, rank, s, s', b)
  }

  lemma SweepIsSweepOf(g: Cfg, rpo: seq<nat>, rank: map<nat, nat>, s: State)
    requires Setting(g, rpo, rank) && forall b :: b in rpo ==> b in g.blocks
    ensures SweepOf(g, rank, s, SweptTo(g, rpo, s, |rpo|))
  {
    var s' := SweptTo(g, rpo, s, |rpo|);
    OrderDistinct(g, rpo, rank);
    forall b | b in g.blocks ensures GivenAt(g, rank, s, s', b) {
      var k := rank[b];
      VisitedOnce(g, rpo, s, |rpo|, k);
      var outs, mixed := SweptTo(g, rpo, s, k).outs, Mixed(rank, s, s', b);
      forall p | p in g.blocks[b].preds ensures (p in outs <==> p in mixed) && (p in outs ==> outs[p] == mixed[p]) {
        assert Edge(g, p, b) && p in rank;
        VisitedOnce(g, rpo, s, k, rank[p]);
        VisitedOnce(g, rpo, s, |rpo|, rank[p]);
      }
      InOfAgrees(g, outs, mixed, b);
    }
  }

  lemma OrderDistinct(g: Cfg, rpo: seq<nat>, rank: map<nat, nat>)
    requires GoodOrder(g, rpo, rank)
    ensures Distinct(rpo)
  {
  }

  // ----- One register

  /** How late the block comes that the value is from. */
  ghost function OwnerRank(rank: map<nat, nat>, v: Value): nat {
    match v
    case InstrDef(_, _, b) => if b in rank then rank[b] else 0
    case Phi(b, _) => if b in rank then rank[b] else 0
    case _ => 0
  }

  ghost predicate Owns(s: State, r: Reg, b: nat) { b in s.ins && s.ins[b][r] == Phi(b, r) }

  /** A value that comes in is from an earlier block, and what every predecessor before b leaves, unless
      it is b's own phi; and without an edge leading back to b two of those predecessors then differ. */
  ghost predicate RightAt(g: Cfg, rank: map<nat, nat>, r: Reg, s: State, b: nat) {
    && b in g.blocks && b in rank && b in s.ins && b in s.outs && s.outs[b] == OutOf(g, b, s.ins[b])
    && (b == g.entry ==> s.ins[b][r] == Param(r))
    && (b != g.entry ==> Owns(s, r, b) || OwnerRank(rank, s.ins[b][r]) < rank[b])
    && (forall p {:trigger ForwardPred(g, rank, p, b)} :: ForwardPred(g, rank, p, b) ==>
      Owns(s, r, b) || (p in s.outs && s.ins[b][r] == s.outs[p][r]))
    && (Owns(s, r, b) ==> HasRetreat(g, rank, b) || ForwardDiffer(g, rank, r, s, b))
  }

  ghost predicate HasRetreat(g: Cfg, rank: map<nat, nat>, b: nat) {
    exists q :: q in rank && b in rank && Edge(g, q, b) && rank[b] <= rank[q]
  }

  ghost predicate ForwardDiffer(g: Cfg, rank: map<nat, nat>, r: Reg, s: State, b: nat) {
    exists p, q {:trigger ForwardPred(g, rank, p, b), ForwardPred(g, rank, q, b)} ::
      ForwardPred(g, rank, p, b) && ForwardPred(g, rank, q, b) && p in s.outs && q in s.outs &&
        s.outs[p][r] != s.outs[q][r]
  }

  ghost predicate Right(g: Cfg, rank: map<nat, nat>, r: Reg, s: State) {
    forall b {:trigger RightAt(g, rank, r, s, b)} :: b in g.blocks ==> RightAt(g, rank, r, s, b)
  }

  /** What a block leaves is from it or from before it. */
  lemma OutIsLow(g: Cfg, rank: map<nat, nat>, r: Reg, s: State, b: nat)
    requires RightAt(g, rank, r, s, b)
    ensures OwnerRank(rank, s.outs[b][r]) <= rank[b]
  {
    assert s.outs[b][r] == After(b, g.blocks[b].instrs, s.ins[b], r);
  }

  lemma MergedFacts(b: nat, r: Reg, incoming: set<Value>, v: Value)
    requires v == Merged(b, r, incoming) && incoming != {}
    ensures v == Phi(b, r) || incoming == {v}
    ensures v == Phi(b, r) ==> incoming == {v} || exists x, y :: x in incoming && y in incoming && x != y
  {
    if v == Phi(b, r) && |incoming| > 1 {
      var x :| x in incoming;
      assert |incoming - {x}| == |incoming| - 1;
      var y :| y in incoming - {x};
      assert x in incoming && y in incoming && x != y;
    } else if |incoming| == 1 {
      assert v in incoming;
    }
  }

  /** What is given to b when it is swept, from the predecessors before it and those after. */
  lemma GivenFacts(g: Cfg, rpo: seq<nat>, rank: map<nat, nat>, r: Reg, s: State, s': State, b: nat) returns (p: nat)
    requires Setting(g, rpo, rank) && GivenAt(g, rank, s, s', b) && b != g.entry
    requires forall q :: ForwardPred(g, rank, q, b) ==> q in s'.outs
    ensures ForwardPred(g, rank, p, b) && s'.outs[p][r] in Incoming(g, Mixed(rank, s, s', b), b, r)
    ensures s'.ins[b][r] == Merged(b, r, Incoming(g, Mixed(rank, s, s', b), b, r))
    ensures forall v :: v in Incoming(g, Mixed(rank, s, s', b), b, r) <==>
      FromForward(g, rank, r, s', b, v) || FromRetreat(g, rank, r, s, b, v)
  {
    assert HasForwardPred(g, rank, b);
    p :| ForwardPred(g, rank, p, b);
    assert p in g.blocks[b].preds;
    var mixed := Mixed(rank, s, s', b);
    assert p in mixed && mixed[p] == s'.outs[p];
    forall v ensures v in Incoming(g, mixed, b, r) <==>
      FromForward(g, rank, r, s', b, v) || FromRetreat(g, rank, r, s, b, v) {
      if v in Incoming(g, mixed, b, r) {
        var q :| q in g.blocks[b].preds && q in mixed && mixed[q][r] == v;
        assert Edge(g, q, b);
        if rank[q] < rank[b] { assert ForwardPred(g, rank, q, b); }
      }
      if FromForward(g, rank, r, s', b, v) {
        var q :| ForwardPred(g, rank, q, b) && q in s'.outs && s'.outs[q][r] == v;
        assert q in g.blocks[b].preds && q in mixed;
      }
      if FromRetreat(g, rank, r, s, b, v) {
        var q :| q in rank && Edge(g, q, b) && rank[b] <= rank[q] && q in s.outs && s.outs[q][r] == v;
        assert q in g.blocks[b].preds && q in mixed;
      }
    }
  }

  ghost predicate FromForward(g: Cfg, rank: map<nat, nat>, r: Reg, s: State, b: nat, v: Value) {
    exists q :: ForwardPred(g, rank, q, b) && q in s.outs && s.outs[q][r] == v
  }

  ghost predicate FromRetreat(g: Cfg, rank: map<nat, nat>, r: Reg, s: State, b: nat, v: Value) {
    b in rank && exists q :: q in rank && Edge(g, q, b) && rank[b] <= rank[q] && q in s.outs && s.outs[q][r] == v
  }

  lemma {:induction false} RightAfter(g: Cfg, rpo: seq<nat>, rank: map<nat, nat>, r: Reg, s: State, s': State, b: nat)
    requires Setting(g, rpo, rank) && SweepOf(g, rank, s, s') && b in g.blocks
    ensures RightAt(g, rank, r, s', b)
    decreases rank[b]
  {
    assert GivenAt(g, rank, s, s', b);
    forall p | ForwardPred(g, rank, p, b) ensures p in s'.outs && OwnerRank(rank, s'.outs[p][r]) < rank[b] {
      RightAfter(g, rpo, rank, r, s, s', p);
      OutIsLow(g, rank, r, s', p);
    }
    if b != g.entry {
      var p := GivenFacts(g, rpo, rank, r, s, s', b);
      RightFromGiven(g, rank, r, s, s', b, Incoming(g, Mixed(rank, s, s', b), b, r), p);
    }
  }

  lemma RightFromGiven(g: Cfg, rank: map<nat, nat>, r: Reg, s: State, s': State, b: nat, incoming: set<Value>, p: nat)
    requires GivenAt(g, rank, s, s', b) && b != g.entry
    requires forall q {:trigger ForwardPred(g, rank, q, b)} :: ForwardPred(g, rank, q, b) ==>
      q in s'.outs && OwnerRank(rank, s'.outs[q][r]) < rank[b]
    requires ForwardPred(g, rank, p, b) && s'.outs[p][r] in incoming && s'.ins[b][r] == Merged(b, r, incoming)
    requires forall v :: v in incoming <==> FromForward(g, rank, r, s', b, v) || FromRetreat(g, rank, r, s, b, v)
    ensures RightAt(g, rank, r, s', b)
  {
    var v := s'.ins[b][r];
    MergedFacts(b, r, incoming, v);
    forall q | ForwardPred(g, rank, q, b) ensures Owns(s', r, b) || v == s'.outs[q][r] {
      assert FromForward(g, rank, r, s', b, s'.outs[q][r]);
    }
    if Owns(s', r, b) && !HasRetreat(g, rank, b) {
      assert OwnerRank(rank, Phi(b, r)) == rank[b];
      var x, y :| x in incoming && y in incoming && x != y;
      assert FromForward(g, rank, r, s', b, x) && FromForward(g, rank, r, s', b, y);
      var q :| ForwardPred(g, rank, q, b) && q in s'.outs && s'.outs[q][r] == x;
      var q' :| ForwardPred(g, rank, q', b) && q' in s'.outs && s'.outs[q'][r] == y;
    }
  }

  // ----- What a later sweep changes

  /** A phi is only ever seen where its block has it. */
  lemma {:induction false} PhiIsOwned(g: Cfg, rpo: seq<nat>, rank: map<nat, nat>, r: Reg, s: State, b: nat, h: nat)
    requires Setting(g, rpo, rank) && Right(g, rank, r, s) && b in g.blocks
    ensures b in s.ins && b in s.outs
    ensures s.ins[b][r] == Phi(h, r) || s.outs[b][r] == Phi(h, r) ==> h in g.blocks && Owns(s, r, h)
    decreases rank[b]
  {
    assert RightAt(g, rank, r, s, b);
    assert s.outs[b][r] == After(b, g.blocks[b].instrs, s.ins[b], r);
    if b != g.entry && !Owns(s, r, b) {
      assert HasForwardPred(g, rank, b);
      var p :| ForwardPred(g, rank, p, b);
      PhiIsOwned(g, rpo, rank, r, s, p, h);
    }
  }

  /** Down a path that leads forward nothing is from before its first block, if that block's value is its own. */
  lemma {:induction false} DescentIsHigh(g: Cfg, rpo: seq<nat>, rank: map<nat, nat>, r: Reg, s: State, w: seq<nat>)
    requires Setting(g, rpo, rank) && Right(g, rank, r, s) && IsDescent(g, rank, w) && w[0] in g.blocks &&
      Owns(s, r, w[0]) && w[0] in rank
    ensures w[|w| - 1] in g.blocks && w[|w| - 1] in rank && w[|w| - 1] in s.outs
    ensures rank[w[0]] <= rank[w[|w| - 1]] && rank[w[0]] <= OwnerRank(rank, s.outs[w[|w| - 1]][r])
    decreases |w|
  {
    var x := w[|w| - 1];
    if |w| > 1 {
      var q := w[..|w| - 1];
      DescentIsHigh(g, rpo, rank, r, s, q);
      assert ForwardPred(g, rank, w[|w| - 2], x);
      assert Edge(g, w[|w| - 2], x);
    }
    assert x in g.blocks ==> RightAt(g, rank, r, s, x);
    assert x in g.blocks ==> s.outs[x][r] == After(x, g.blocks[x].instrs, s.ins[x], r);
  }

  /** h has its own phi after the sweep and did not before. */
  ghost predicate NewOwner(s: State, s': State, r: Reg, h: nat) { Owns(s', r, h) && !Owns(s, r, h) && h in s.ins }

  /** b's value has changed to the phi of a new owner, which had the same value before. */
  ghost predicate FollowsNew(g: Cfg, s: State, s': State, r: Reg, b: nat) {
    && b in s.ins && b in s'.ins
    && exists h :: h in g.blocks && NewOwner(s, s', r, h) && s'.ins[b][r] == Phi(h, r) && s.ins[h][r] == s.ins[b][r]
  }

  /** A sweep takes no phi away, and changes values only to new ones. */
  ghost predicate StepAt(g: Cfg, rank: map<nat, nat>, r: Reg, s: State, s': State, b: nat) {
    && b in s.ins && b in s'.ins
    && (Owns(s, r, b) ==> Owns(s', r, b))
    && (s'.ins[b][r] != s.ins[b][r] ==> FollowsNew(g, s, s', r, b))
  }

  ghost predicate Stepping(g: Cfg, rpo: seq<nat>, rank: map<nat, nat>, r: Reg, s: State, s': State) {
    Setting(g, rpo, rank) && SweepOf(g, rank, s, s') && Right(g, rank, r, s) && Right(g, rank, r, s')
  }

  /** A forward predecessor leaves what it did, or has followed a new owner. */
  lemma OutSteps(g: Cfg, rpo: seq<nat>, rank: map<nat, nat>, r: Reg, s: State, s': State, p: nat)
    requires Stepping(g, rpo, rank, r, s, s') && p in g.blocks && StepAt(g, rank, r, s, s', p)
    ensures p in s.outs && p in s'.outs
    ensures s'.outs[p][r] != s.outs[p][r] ==>
      FollowsNew(g, s, s', r, p) && s.outs[p][r] == s.ins[p][r] && s'.outs[p][r] == s'.ins[p][r]
  {
    assert RightAt(g, rank, r, s, p) && RightAt(g, rank, r, s', p);
    assert s.outs[p][r] == After(p, g.blocks[p].instrs, s.ins[p], r);
    assert s'.outs[p][r] == After(p, g.blocks[p].instrs, s'.ins[p], r);
  }

  lemma {:induction false} Steps(g: Cfg, rpo: seq<nat>, rank: map<nat, nat>, r: Reg, s: State, s': State, b: nat)
    requires Stepping(g, rpo, rank, r, s, s') && b in g.blocks
    ensures StepAt(g, rank, r, s, s', b)
    decreases rank[b]
  {
    assert RightAt(g, rank, r, s, b) && RightAt(g, rank, r, s', b);
    forall p | ForwardPred(g, rank, p, b) ensures StepAt(g, rank, r, s, s', p) {
      Steps(g, rpo, rank, r, s, s', p);
    }
    if b != g.entry {
      if Owns(s, r, b) {
        if HasRetreat(g, rank, b) {
          StuckByRetreat(g, rpo, rank, r, s, s', b);
        } else {
          StuckByForward(g, rpo, rank, r, s, s', b);
        }
      } else if s'.ins[b][r] != s.ins[b][r] {
        ChangeFollows(g, rpo, rank, r, s, s', b);
      }
    }
  }

  /** What comes back round a loop is from b or after it, and so differs from what comes in. */
  lemma StuckByRetreat(g: Cfg, rpo: seq<nat>, rank: map<nat, nat>, r: Reg, s: State, s': State, b: nat)
    requires Stepping(g, rpo, rank, r, s, s') && b in g.blocks && b != g.entry
    requires Owns(s, r, b) && HasRetreat(g, rank, b)
    ensures Owns(s', r, b)
  {
    assert GivenAt(g, rank, s, s', b);
    assert RightAt(g, rank, r, s, b) && RightAt(g, rank, r, s', b);
    forall q | ForwardPred(g, rank, q, b) ensures q in s'.outs { assert RightAt(g, rank, r, s', q); }
    var p := GivenFacts(g, rpo, rank, r, s, s', b);
    var q :| q in rank && Edge(g, q, b) && rank[b] <= rank[q];
    assert Descends(g, rank, b, q);
    var w :| IsDescent(g, rank, w) && w[0] == b && w[|w| - 1] == q;
    DescentIsHigh(g, rpo, rank, r, s, w);
    assert RightAt(g, rank, r, s', p);
    OutIsLow(g, rank, r, s', p);
    assert FromRetreat(g, rank, r, s, b, s.outs[q][r]);
    MergedFacts(b, r, Incoming(g, Mixed(rank, s, s', b), b, r), s'.ins[b][r]);
  }

  /** Two predecessors that differed do not come to agree. */
  lemma StuckByForward(g: Cfg, rpo: seq<nat>, rank: map<nat, nat>, r: Reg, s: State, s': State, b: nat)
    requires Stepping(g, rpo, rank, r, s, s') && b in g.blocks && b != g.entry
    requires Owns(s, r, b) && !HasRetreat(g, rank, b)
    requires forall p :: ForwardPred(g, rank, p, b) ==> StepAt(g, rank, r, s, s', p)
    ensures Owns(s', r, b)
  {
    assert RightAt(g, rank, r, s, b) && RightAt(g, rank, r, s', b);
    var p, q :| ForwardPred(g, rank, p, b) && ForwardPred(g, rank, q, b) && p in s.outs && q in s.outs &&
      s.outs[p][r] != s.outs[q][r];
    OutSteps(g, rpo, rank, r, s, s', p);
    OutSteps(g, rpo, rank, r, s, s', q);
    StillDiffer(g, rpo, rank, r, s, s', p, q);
  }

  lemma StillDiffer(g: Cfg, rpo: seq<nat>, rank: map<nat, nat>, r: Reg, s: State, s': State, p: nat, q: nat)
    requires Stepping(g, rpo, rank, r, s, s') && p in g.blocks && q in g.blocks
    requires StepAt(g, rank, r, s, s', p) && StepAt(g, rank, r, s, s', q)
    requires p in s.outs && q in s.outs && s.outs[p][r] != s.outs[q][r]
    ensures p in s'.outs && q in s'.outs && s'.outs[p][r] != s'.outs[q][r]
  {
    OutSteps(g, rpo, rank, r, s, s', p);
    OutSteps(g, rpo, rank, r, s, s', q);
    NewIsNew(g, rpo, rank, r, s, s', p, q);
    NewIsNew(g, rpo, rank, r, s, s', q, p);
  }

  /** A new owner's phi is nowhere before the sweep. */
  lemma NewIsNew(g: Cfg, rpo: seq<nat>, rank: map<nat, nat>, r: Reg, s: State, s': State, p: nat, q: nat)
    requires Stepping(g, rpo, rank, r, s, s') && q in g.blocks && p in s'.ins
    ensures q in s.outs && (FollowsNew(g, s, s', r, p) ==> s'.ins[p][r] != s.outs[q][r])
  {
    assert RightAt(g, rank, r, s, q);
    if FollowsNew(g, s, s', r, p) {
      var h :| h in g.blocks && NewOwner(s, s', r, h) && s'.ins[p][r] == Phi(h, r) && s.ins[h][r] == s.ins[p][r];
      PhiIsOwned(g, rpo, rank, r, s, q, h);
    }
  }

  lemma ChangeFollows(g: Cfg, rpo: seq<nat>, rank: map<nat, nat>, r: Reg, s: State, s': State, b: nat)
    requires Stepping(g, rpo, rank, r, s, s') && b in g.blocks && b != g.entry && !Owns(s, r, b)
    requires b in s.ins && b in s'.ins && s'.ins[b][r] != s.ins[b][r]
    requires forall p :: ForwardPred(g, rank, p, b) ==> StepAt(g, rank, r, s, s', p)
    ensures FollowsNew(g, s, s', r, b)
  {
    assert RightAt(g, rank, r, s, b) && RightAt(g, rank, r, s', b);
    if Owns(s', r, b) {
      assert NewOwner(s, s', r, b);
    } else {
      assert HasForwardPred(g, rank, b);
      var p :| ForwardPred(g, rank, p, b);
      OutSteps(g, rpo, rank, r, s, s', p);
    }
  }

  // ----- How many sweeps

  ghost function Owners(g: Cfg, s: State): set<(nat, Reg)> {
    set b, r: Reg | b in g.blocks && r in AllRegs() && Owns(s, r, b) :: (b, r)
  }

  ghost predicate AllRight(g: Cfg, rank: map<nat, nat>, s: State) {
    && s.ins.Keys == s.outs.Keys == g.blocks.Keys
    && forall r: Reg {:trigger Right(g, rank, r, s)} :: Right(g, rank, r, s)
  }

  ghost predicate AllStep(g: Cfg, rank: map<nat, nat>, s: State, s': State) {
    forall b, r: Reg {:trigger StepAt(g, rank, r, s, s', b)} :: b in g.blocks ==> StepAt(g, rank, r, s, s', b)
  }

  lemma RightNext(g: Cfg, rpo: seq<nat>, rank: map<nat, nat>, s: State, s': State)
    requires Setting(g, rpo, rank) && SweepOf(g, rank, s, s') && s'.ins.Keys == s'.outs.Keys == g.blocks.Keys
    ensures AllRight(g, rank, s')
  {
    forall r: Reg ensures Right(g, rank, r, s') {
      forall b | b in g.blocks ensures RightAt(g, rank, r, s', b) { RightAfter(g, rpo, rank, r, s, s', b); }
    }
  }

  lemma StepNext(g: Cfg, rpo: seq<nat>, rank: map<nat, nat>, s: State, s': State)
    requires Setting(g, rpo, rank) && SweepOf(g, rank, s, s') && AllRight(g, rank, s) && AllRight(g, rank, s')
    ensures AllStep(g, rank, s, s')
  {
    forall b, r: Reg | b in g.blocks ensures StepAt(g, rank, r, s, s', b) {
      assert Right(g, rank, r, s) && Right(g, rank, r, s');
      Steps(g, rpo, rank, r, s, s', b);
    }
  }

  /** Every later sweep that changes something gives some block a phi for some register, and none takes
      one away. */
  lemma OwnersGrow(g: Cfg, rank: map<nat, nat>, s: State, s': State)
    requires AllRight(g, rank, s) && AllRight(g, rank, s') && AllStep(g, rank, s, s')
    ensures Owners(g, s) <= Owners(g, s')
    ensures s' != s ==> Owners(g, s) < Owners(g, s')
  {
    forall k | k in Owners(g, s) ensures k in Owners(g, s') { assert StepAt(g, rank, k.1, s, s', k.0); }
    if s' != s {
      var b, r := SomethingDiffers(g, rank, s, s');
      assert StepAt(g, rank, r, s, s', b);
      var h :| h in g.blocks && NewOwner(s, s', r, h) && s'.ins[b][r] == Phi(h, r) && s.ins[h][r] == s.ins[b][r];
      RegListed(r);
      assert (h, r) in Owners(g, s') && (h, r) !in Owners(g, s);
    }
  }

  lemma RegListed(r: Reg)
    ensures r in AllRegs()
  {
    assert AllRegs()[r] == r;
  }

  /** What blocks leave follows from what comes in. */
  lemma OutsFollow(g: Cfg, rank: map<nat, nat>, s: State, s': State)
    requires AllRight(g, rank, s) && AllRight(g, rank, s')
    requires forall c :: c in g.blocks ==> s.ins[c] == s'.ins[c]
    ensures s == s'
  {
    forall c | c in g.blocks ensures s.outs[c] == s'.outs[c] {
      assert Right(g, rank, 0, s) && Right(g, rank, 0, s');
      assert RightAt(g, rank, 0, s, c) && RightAt(g, rank, 0, s', c);
    }
    assert s.ins == s'.ins && s.outs == s'.outs;
  }

  lemma SomethingDiffers(g: Cfg, rank: map<nat, nat>, s: State, s': State) returns (b: nat, r: Reg)
    requires AllRight(g, rank, s) && AllRight(g, rank, s') && s != s'
    ensures b in g.blocks && s.ins[b][r] != s'.ins[b][r]
  {
    if forall c :: c in g.blocks ==> s.ins[c] == s'.ins[c] { OutsFollow(g, rank, s, s'); }
    b :| b in g.blocks && s.ins[b] != s'.ins[b];
    r :| s.ins[b][r] != s'.ins[b][r];
  }

  lemma OwnersBounded(g: Cfg, s: State)
    ensures |Owners(g, s)| <= 13 * |g.blocks|
  {
    PairsBounded(g.blocks.Keys, Owners(g, s));
  }

  lemma {:induction false} PairsBounded(bs: set<nat>, pairs: set<(nat, Reg)>)
    requires forall k :: k in pairs ==> k.0 in bs
    ensures |pairs| <= 13 * |bs|
    decreases |bs|
  {
    if bs == {} {
      assert pairs == {};
    } else {
      var b :| b in bs;
      var mine := set k | k in pairs && k.0 == b;
      RowBounded(b, mine);
      PairsBounded(bs - {b}, pairs - mine);
      assert pairs == mine + (pairs - mine);
    }
  }

  lemma RowBounded(b: nat, mine: set<(nat, Reg)>)
    requires forall k :: k in mine ==> k.0 == b
    ensures |mine| <= 13
  {
    var all := set r: Reg | r in AllRegs() :: (b, r);
    RowHasThirteen(b, AllRegs());
    forall k | k in mine ensures k in all { RegListed(k.1); }
    SubsetSize(mine, all);
  }

  lemma {:induction false} RowHasThirteen(b: nat, rs: seq<Reg>)
    ensures |set r: Reg | r in rs :: (b, r)| <= |rs|
  {
    if rs != [] {
      RowHasThirteen(b, rs[1..]);
      assert (set r: Reg | r in rs :: (b, r)) == (set r: Reg | r in rs[1..] :: (b, r)) + {(b, rs[0])};
    }
  }

  lemma {:induction false} SubsetSize<T>(a: set<T>, b: set<T>)
    requires a <= b
    ensures |a| <= |b|
    decreases |a|
  {
    if a != {} {
      var x :| x in a;
      SubsetSize(a - {x}, b - {x});
    }
  }

  lemma ProperSubsetSize<T>(a: set<T>, b: set<T>)
    requires a < b
    ensures |a| < |b|
  {
    var x :| x in b && x !in a;
    SubsetSize(a, b - {x});
  }

  /** If every sweep so far has changed something, all but the first have given some block a phi. */
  lemma {:induction false} OwnersCount(g: Cfg, rpo: seq<nat>, rank: map<nat, nat>, n: nat)
    requires Setting(g, rpo, rank) && (forall b :: b in rpo <==> b in g.blocks) && n > 0
    requires forall k: nat :: k < n ==> ChangesAt(g, rpo, k)
    ensures AllRight(g, rank, Swept(g, rpo, n)) && |Owners(g, Swept(g, rpo, n))| >= n - 1
    decreases n
  {
    var s, s' := Swept(g, rpo, n - 1), Swept(g, rpo, n);
    SweptKeys(g, rpo, rank, n);
    SweepIsSweepOf(g, rpo, rank, s);
    RightNext(g, rpo, rank, s, s');
    if n > 1 {
      OwnersCount(g, rpo, rank, n - 1);
      StepNext(g, rpo, rank, s, s');
      OwnersGrow(g, rank, s, s');
      assert ChangesAt(g, rpo, n - 1);
      ChangesShow(g, rpo, rank, s);
      ProperSubsetSize(Owners(g, s), Owners(g, s'));
    }
  }

  lemma {:induction false} KeysInside(g: Cfg, order: seq<nat>, s: State, i: nat)
    requires i <= |order| && (forall b :: b in order ==> b in g.blocks)
    requires s.ins.Keys <= g.blocks.Keys && s.outs.Keys <= g.blocks.Keys
    ensures SweptTo(g, order, s, i).ins.Keys <= g.blocks.Keys && SweptTo(g, order, s, i).outs.Keys <= g.blocks.Keys
  {
    if i > 0 {
      assert order[i - 1] in order;
      KeysInside(g, order, s, i - 1);
    }
  }

  lemma SweepKeys(g: Cfg, rpo: seq<nat>, rank: map<nat, nat>, s: State)
    requires Setting(g, rpo, rank) && (forall b :: b in rpo <==> b in g.blocks)
    requires s.ins.Keys <= g.blocks.Keys && s.outs.Keys <= g.blocks.Keys
    ensures var s' := SweptTo(g, rpo, s, |rpo|); s'.ins.Keys == s'.outs.Keys == g.blocks.Keys
  {
    var s' := SweptTo(g, rpo, s, |rpo|);
    KeysInside(g, rpo, s, |rpo|);
    OrderDistinct(g, rpo, rank);
    forall b | b in g.blocks ensures b in s'.ins && b in s'.outs { VisitedOnce(g, rpo, s, |rpo|, rank[b]); }
  }

  lemma {:induction false} SweptKeys(g: Cfg, rpo: seq<nat>, rank: map<nat, nat>, n: nat)
    requires Setting(g, rpo, rank) && (forall b :: b in rpo <==> b in g.blocks)
    ensures Swept(g, rpo, n).ins.Keys <= g.blocks.Keys && Swept(g, rpo, n).outs.Keys <= g.blocks.Keys
    ensures n > 0 ==> Swept(g, rpo, n).ins.Keys == Swept(g, rpo, n).outs.Keys == g.blocks.Keys
    decreases n
  {
    if n > 0 {
      SweptKeys(g, rpo, rank, n - 1);
      SweepKeys(g, rpo, rank, Swept(g, rpo, n - 1));
    }
  }

  /** A sweep that changes something at some visit has changed something at its end. */
  lemma ChangesShow(g: Cfg, rpo: seq<nat>, rank: map<nat, nat>, s: State)
    requires Setting(g, rpo, rank) && (forall b :: b in rpo <==> b in g.blocks)
    requires Changes(g, rpo, s)
    ensures SweptTo(g, rpo, s, |rpo|) != s
  {
    var i: nat :| i < |rpo| && Moves(g, rpo, s, i);
    OrderDistinct(g, rpo, rank);
    assert rpo[i] in rpo;
    VisitedOnce(g, rpo, s, i, i);
    VisitedOnce(g, rpo, s, i + 1, i);
    VisitedOnce(g, rpo, s, |rpo|, i);
    SameUpdate(g, SweptTo(g, rpo, s, i), rpo[i]);
  }

  lemma SameUpdate(g: Cfg, t: State, b: nat)
    requires b in g.blocks
    ensures b in t.ins && b in t.outs && Visit(g, t, b).ins[b] == t.ins[b] && Visit(g, t, b).outs[b] == t.outs[b] ==>
      Visit(g, t, b) == t
  {
    if b in t.ins && b in t.outs && Visit(g, t, b).ins[b] == t.ins[b] && Visit(g, t, b).outs[b] == t.outs[b] {
      assert t.ins[b := t.ins[b]] == t.ins && t.outs[b := t.outs[b]] == t.outs;
    }
  }

  /** In reverse post-order, loops and all, at most 13 sweeps for each block and two more are made: fewer
      than the cap of 20 for each. */
  lemma LoopsSettle(g: Cfg, rpo: seq<nat>, rank: map<nat, nat>)
    requires Setting(g, rpo, rank) && forall b :: b in rpo <==> b in g.blocks
    ensures exists n: nat :: n < 13 * |g.blocks| + 2 && !ChangesAt(g, rpo, n)
    ensures 13 * |g.blocks| + 2 <= 20 * |g.blocks|
  {
    var n := 13 * |g.blocks| + 2;
    if forall k: nat :: k < n ==> ChangesAt(g, rpo, k) {
      OwnersCount(g, rpo, rank, n);
      OwnersBounded(g, Swept(g, rpo, n));
    }
    assert |g.blocks| > 0;
  }

  /** The dominator tree's order is such a one, where every block is reached and nothing leads to the entry. */
  lemma TreeOrderSettles(g: Cfg, t: DominatorTree)
    requires WellFormed(g) && g.entry in g.blocks && g.blocks[g.entry].preds == []
    requires forall b :: b in g.blocks ==> Reachable(g, b)
    requires Dominators.Converged(g, t.rpo, t.rank, t.idom) && Retreats(g, t.rank)
    ensures Setting(g, t.rpo, t.rank)
  {
    forall b ensures b in t.rank <==> b in g.blocks { assert Reachable(g, b) || !Reachable(g, b); }
  }
}
