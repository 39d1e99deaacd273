/** Register liveness by a worklist over the blocks, with register masks as sets. */
module Liveness {
  import opened Instructions
  import opened Graph
  import opened Collections
  import opened DepthFirst

  // ----- Block summaries

  ghost predicate UsedBeforeDef(instrs: seq<(nat, Shape)>, r: Reg) {
    exists k: nat :: UsedAt(instrs, r, k)
  }

  ghost predicate DefinedIn(instrs: seq<(nat, Shape)>, r: Reg) {
    exists k :: 0 <= k < |instrs| && r in instrs[k].1.Defs()
  }

  method ComputeBlockUseDef(b: Block) returns (use: set<Reg>, def: set<Reg>)
    ensures forall r: Reg :: r in use <==> UsedBeforeDef(b.instrs, r)
    ensures forall r: Reg :: r in def <==> DefinedIn(b.instrs, r)
  {
    use, def := {}, {};
    for i := 0 to |b.instrs|
      invariant forall r: Reg :: r in use <==> UsedBeforeDef(b.instrs[..i], r)
      invariant forall r: Reg :: r in def <==> DefinedIn(b.instrs[..i], r)
    {
      var shape := b.instrs[i].1;
      ghost var before := b.instrs[..i];
      use := use + ((set r | r in shape.Uses()) - def);
      def := def + set r | r in shape.Defs();
      assert b.instrs[..i + 1] == before + [b.instrs[i]];
      forall r: Reg
        ensures DefinedIn(before + [b.instrs[i]], r) <==> DefinedIn(before, r) || r in shape.Defs()
        ensures UsedBeforeDef(before + [b.instrs[i]], r) <==>
          UsedBeforeDef(before, r) || (r in shape.Uses() && !DefinedIn(before, r))
      {
        DefinedSnoc(before, b.instrs[i], r);
        UsedSnoc(before, b.instrs[i], r);
      }
    }
    assert b.instrs[..|b.instrs|] == b.instrs;
  }

  lemma DefinedSnoc(instrs: seq<(nat, Shape)>, last: (nat, Shape), r: Reg)
    ensures DefinedIn(instrs + [last], r) <==> DefinedIn(instrs, r) || r in last.1.Defs()
  {
    var all := instrs + [last];
    if DefinedIn(instrs, r) {
      var k :| 0 <= k < |instrs| && r in instrs[k].1.Defs();
      assert r in all[k].1.Defs();
    }
    if r in last.1.Defs() { assert r in all[|instrs|].1.Defs(); }
  }

  ghost predicate UsedAt(instrs: seq<(nat, Shape)>, r: Reg, k: nat) {
    k < |instrs| && r in instrs[k].1.Uses() && !DefinedIn(instrs[..k], r)
  }

  lemma UsedSnoc(instrs: seq<(nat, Shape)>, last: (nat, Shape), r: Reg)
    ensures UsedBeforeDef(instrs + [last], r) <==>
      UsedBeforeDef(instrs, r) || (r in last.1.Uses() && !DefinedIn(instrs, r))
  {
    var all := instrs + [last];
    assert all[..|instrs|] == instrs;
    if UsedBeforeDef(instrs, r) {
      var k: nat :| UsedAt(instrs, r, k);
      assert all[..k] == instrs[..k] && UsedAt(all, r, k);
    }
    if r in last.1.Uses() && !DefinedIn(instrs, r) { assert UsedAt(all, r, |instrs|); }
    if UsedBeforeDef(all, r) {
      var k: nat :| UsedAt(all, r, k);
      if k < |instrs| { assert all[..k] == instrs[..k] && UsedAt(instrs, r, k); }
    }
  }

  // ----- Liveness as a statement about paths

  ghost predicate Gen(g: Cfg, b: nat, r: Reg) {
    b in g.blocks && UsedBeforeDef(g.blocks[b].instrs, r)
  }

  ghost predicate Kill(g: Cfg, b: nat, r: Reg) {
    b in g.blocks && DefinedIn(g.blocks[b].instrs, r)
  }

  /** p ends in a block that reads r before writing it, and no earlier block writes r. */
  ghost predicate LivePath(g: Cfg, p: seq<nat>, r: Reg) {
    IsPath(g, p) && Gen(g, p[|p| - 1], r) && forall i :: 0 <= i < |p| - 1 ==> !Kill(g, p[i], r)
  }

  ghost predicate LiveIn(g: Cfg, b: nat, r: Reg) {
    exists p :: LivePath(g, p, r) && p[0] == b
  }

  ghost predicate LiveOut(g: Cfg, b: nat, r: Reg) {
    exists s :: Edge(g, b, s) && LiveIn(g, s, r)
  }

  /** Path liveness satisfies the equations; live-out does by definition. */
  lemma LiveInFold(g: Cfg, b: nat, r: Reg)
    ensures LiveIn(g, b, r) <==> Gen(g, b, r) || (LiveOut(g, b, r) && !Kill(g, b, r))
  {
    if LiveIn(g, b, r) {
      var p :| LivePath(g, p, r) && p[0] == b;
      if |p| > 1 {
        PathSuffix(g, p, 1);
        assert LivePath(g, p[1..], r) && Edge(g, p[0], p[1]);
      }
    }
    if Gen(g, b, r) {
      assert LivePath(g, [b], r);
    } else if LiveOut(g, b, r) && !Kill(g, b, r) {
      var s :| Edge(g, b, s) && LiveIn(g, s, r);
      var p :| LivePath(g, p, r) && p[0] == s;
      LivePathCons(g, b, p, r);
    }
  }

  lemma LivePathCons(g: Cfg, b: nat, p: seq<nat>, r: Reg)
    requires LivePath(g, p, r) && Edge(g, b, p[0]) && !Kill(g, b, r)
    ensures LivePath(g, [b] + p, r)
  {
    var q := [b] + p;
    assert PathFromTo(g, [b, p[0]], b, p[0]);
    PathConcat(g, [b, p[0]], p, b, p[0], p[|p| - 1]);
    assert q == [b, p[0]] + p[1..];
    forall i | 0 <= i < |q| - 1 ensures !Kill(g, q[i], r) {
      if i > 0 { assert q[i] == p[i - 1]; }
    }
  }

  // ----- The equations

  ghost predicate Balanced(g: Cfg, liveIn: map<nat, set<Reg>>, liveOut: map<nat, set<Reg>>, b: nat) {
    && b in g.blocks && b in liveIn && b in liveOut
    && (forall r: Reg :: r in liveOut[b] <==> exists s :: Edge(g, b, s) && s in liveIn && r in liveIn[s])
    && (forall r: Reg :: r in liveIn[b] <==> Gen(g, b, r) || (r in liveOut[b] && !Kill(g, b, r)))
  }

  ghost predicate Solution(g: Cfg, liveIn: map<nat, set<Reg>>, liveOut: map<nat, set<Reg>>) {
    liveIn.Keys == g.blocks.Keys == liveOut.Keys &&
    forall b {:trigger Balanced(g, liveIn, liveOut, b)} :: b in g.blocks ==> Balanced(g, liveIn, liveOut, b)
  }

  /** Any solution holds every live path's register at the path's start. */
  lemma {:induction false} SolutionHoldsPath(g: Cfg, liveIn: map<nat, set<Reg>>, liveOut: map<nat, set<Reg>>,
      p: seq<nat>, r: Reg)
    requires Closed(g) && Solution(g, liveIn, liveOut)
    requires LivePath(g, p, r) && p[0] in g.blocks
    ensures r in liveIn[p[0]]
  {
    assert Balanced(g, liveIn, liveOut, p[0]);
    if |p| > 1 {
      assert Edge(g, p[0], p[1]);
      PathSuffix(g, p, 1);
      assert LivePath(g, p[1..], r);
      SolutionHoldsPath(g, liveIn, liveOut, p[1..], r);
      assert !Kill(g, p[0], r);
    }
  }

  /** Path liveness is below every solution of the equations. */
  lemma PathLivenessIsLeast(g: Cfg, liveIn: map<nat, set<Reg>>, liveOut: map<nat, set<Reg>>, b: nat, r: Reg)
    requires Closed(g) && Solution(g, liveIn, liveOut) && b in g.blocks
    ensures LiveIn(g, b, r) ==> r in liveIn[b]
    ensures LiveOut(g, b, r) ==> r in liveOut[b]
  {
    if LiveIn(g, b, r) {
      var p :| LivePath(g, p, r) && p[0] == b;
      SolutionHoldsPath(g, liveIn, liveOut, p, r);
    }
    if LiveOut(g, b, r) {
      var s :| Edge(g, b, s) && LiveIn(g, s, r);
      var p :| LivePath(g, p, r) && p[0] == s;
      SolutionHoldsPath(g, liveIn, liveOut, p, r);
      assert Balanced(g, liveIn, liveOut, b);
    }
  }

  /** The masks never claim more than path liveness. */
  ghost predicate Sound(g: Cfg, liveIn: map<nat, set<Reg>>, liveOut: map<nat, set<Reg>>) {
    && liveIn.Keys == g.blocks.Keys == liveOut.Keys
    && (forall b, r: Reg {:trigger LiveIn(g, b, r)} :: b in g.blocks && r in liveIn[b] ==> LiveIn(g, b, r))
    && (forall b, r: Reg {:trigger LiveOut(g, b, r)} :: b in g.blocks && r in liveOut[b] ==> LiveOut(g, b, r))
  }

  ghost predicate Exact(g: Cfg, liveIn: map<nat, set<Reg>>, liveOut: map<nat, set<Reg>>) {
    && liveIn.Keys == g.blocks.Keys == liveOut.Keys
    && (forall b, r: Reg :: b in g.blocks ==> (r in liveIn[b] <==> LiveIn(g, b, r)))
    && (forall b, r: Reg :: b in g.blocks ==> (r in liveOut[b] <==> LiveOut(g, b, r)))
  }

  lemma SoundSolutionIsExact(g: Cfg, liveIn: map<nat, set<Reg>>, liveOut: map<nat, set<Reg>>)
    requires Closed(g) && Sound(g, liveIn, liveOut) && Solution(g, liveIn, liveOut)
    ensures Exact(g, liveIn, liveOut)
  {
    forall b, r: Reg | b in g.blocks {
      PathLivenessIsLeast(g, liveIn, liveOut, b, r);
    }
  }

  // ----- Counting edges

  function Elems(s: seq<nat>): set<nat> { set x | x in s }

  /** The places successors are listed, one per listed edge. */
  ghost function EdgePositions(g: Cfg, bs: set<nat>): set<(nat, nat)> {
    set b, i | b in bs && b in g.blocks && 0 <= i < |g.blocks[b].succs| :: (b, i)
  }

  ghost function EdgeCount(g: Cfg): nat { |EdgePositions(g, g.blocks.Keys)| }

  ghost function Successors(g: Cfg, bs: seq<nat>): nat {
    if bs == [] then 0
    else
      var b := bs[|bs| - 1];
      Successors(g, bs[..|bs| - 1]) + if b in g.blocks then |g.blocks[b].succs| else 0
  }

  lemma {:induction false} PairsCount(b: nat, n: nat)
    ensures |set i | 0 <= i < n :: (b, i)| == n
  {
    if n > 0 {
      PairsCount(b, n - 1);
      assert (set i | 0 <= i < n :: (b, i)) == (set i | 0 <= i < n - 1 :: (b, i)) + {(b, n - 1)};
    }
  }

  lemma {:induction false} SuccessorsCountEdges(g: Cfg, bs: seq<nat>)
    requires Distinct(bs)
    ensures |EdgePositions(g, Elems(bs))| == Successors(g, bs)
  {
    if bs != [] {
      var n := |bs| - 1;
      var b := bs[n];
      var before := bs[..n];
      SuccessorsCountEdges(g, before);
      assert bs == before + [b];
      assert b !in before;
      assert Elems(bs) == Elems(before) + {b};
      PositionsAdded(g, Elems(before), b);
    }
  }

  lemma PositionsAdded(g: Cfg, bs: set<nat>, b: nat)
    requires b !in bs
    ensures |EdgePositions(g, bs + {b})| == |EdgePositions(g, bs)| + if b in g.blocks then |g.blocks[b].succs| else 0
  {
    var m := if b in g.blocks then |g.blocks[b].succs| else 0;
    var own := set i | 0 <= i < m :: (b, i);
    PairsCount(b, m);
    assert EdgePositions(g, bs + {b}) == EdgePositions(g, bs) + own;
    assert EdgePositions(g, bs) !! own;
  }

  // ----- What is left to change

  /** Sum over bs of how often a block can still change, weighted by how many blocks that re-queues. */
  ghost function Budget(bs: seq<nat>, left: map<nat, nat>, preds: map<nat, seq<nat>>): nat {
    if bs == [] then 0
    else Budget(bs[1..], left, preds) + Weight(left, preds, bs[0])
  }

  ghost function Weight(left: map<nat, nat>, preds: map<nat, seq<nat>>, b: nat): nat {
    if b in left && b in preds then left[b] * |preds[b]| else 0
  }

  lemma {:induction false} BudgetSpent(bs: seq<nat>, left: map<nat, nat>, preds: map<nat, seq<nat>>, b: nat, l: nat)
    requires b in left && b in preds && l < left[b]
    ensures Budget(bs, left[b := l], preds) <= Budget(bs, left, preds)
    ensures b in bs ==> Budget(bs, left[b := l], preds) + |preds[b]| <= Budget(bs, left, preds)
  {
    if bs != [] {
      BudgetSpent(bs[1..], left, preds, b, l);
      WeightDrops(l, left[b], |preds[b]|);
    }
  }

  lemma WeightDrops(l: nat, m: nat, d: nat)
    requires l < m
    ensures l * d + d <= m * d
  {
    assert (l + 1) * d <= m * d;
  }

  /** Adding one entry to b's predecessor list adds one to the total, b being listed once. */
  lemma {:induction false} BudgetGrows(bs: seq<nat>, left: map<nat, nat>, preds: map<nat, seq<nat>>, b: nat, p: nat,
      c: nat)
    requires Distinct(bs) && b in preds && b in left && left[b] == c
    ensures Budget(bs, left, preds[b := preds[b] + [p]]) == Budget(bs, left, preds) + if b in bs then c else 0
  {
    if bs != [] {
      BudgetGrows(bs[1..], left, preds, b, p, c);
      assert bs == [bs[0]] + bs[1..];
      if bs[0] == b {
        assert b !in bs[1..];
        var n := |preds[b]|;
        assert c * (n + 1) == c * n + c;
      }
    }
  }

  lemma {:induction false} BudgetOfEmpty(bs: seq<nat>, left: map<nat, nat>, preds: map<nat, seq<nat>>)
    requires forall b :: b in preds ==> preds[b] == []
    ensures Budget(bs, left, preds) == 0
  {
    if bs != [] { BudgetOfEmpty(bs[1..], left, preds); }
  }

  method AddEdgesFrom(g: Cfg, a: nat, preds: map<nat, seq<nat>>, ghost order: seq<nat>, ghost left: map<nat, nat>)
    returns (preds': map<nat, seq<nat>>)
    requires Closed(g) && Distinct(order) && forall b :: b in g.blocks ==> b in order
    requires left.Keys == g.blocks.Keys == preds.Keys && forall b :: b in left ==> left[b] == 14
    requires a in g.blocks
    ensures preds'.Keys == g.blocks.Keys
    ensures forall b, p :: b in preds' ==> (p in preds'[b] <==> p in preds[b] || (p == a && Edge(g, p, b)))
    ensures Budget(order, left, preds') == Budget(order, left, preds) + 14 * |g.blocks[a].succs|
  {
    preds' := preds;
    var succs := g.blocks[a].succs;
    for j := 0 to |succs|
      invariant preds'.Keys == g.blocks.Keys
      invariant Extended(preds, preds', a, succs[..j])
      invariant Budget(order, left, preds') == Budget(order, left, preds) + 14 * j
    {
      var s := succs[j];
      assert Edge(g, a, s);
      BudgetGrows(order, left, preds', s, a, 14);
      ExtendedSnoc(preds, preds', a, succs, j);
      preds' := preds'[s := preds'[s] + [a]];
    }
    assert succs[..|succs|] == succs;
  }

  /** preds' lists a as a predecessor of each of succs as well. */
  ghost predicate Extended(preds: map<nat, seq<nat>>, preds': map<nat, seq<nat>>, a: nat, succs: seq<nat>)
    requires preds'.Keys == preds.Keys
  {
    forall b, p :: b in preds' ==> (p in preds'[b] <==> p in preds[b] || (p == a && b in succs))
  }

  lemma ExtendedSnoc(preds: map<nat, seq<nat>>, preds': map<nat, seq<nat>>, a: nat, succs: seq<nat>, j: nat)
    requires preds'.Keys == preds.Keys && j < |succs| && succs[j] in preds
    requires Extended(preds, preds', a, succs[..j])
    ensures Extended(preds, preds'[succs[j] := preds'[succs[j]] + [a]], a, succs[..j + 1])
  {
    assert succs[..j + 1] == succs[..j] + [succs[j]];
  }

  /** Predecessor lists rebuilt from the successor lists. */
  method PredecessorMap(g: Cfg, order: seq<nat>, ghost left: map<nat, nat>) returns (preds: map<nat, seq<nat>>)
    requires Closed(g) && Distinct(order) && forall b :: b in g.blocks ==> b in order
    requires left.Keys == g.blocks.Keys && forall b :: b in left ==> left[b] == 14
    ensures preds.Keys == g.blocks.Keys
    ensures forall b, p :: b in preds ==> (p in preds[b] <==> Edge(g, p, b))
    ensures Budget(order, left, preds) == 14 * Successors(g, order)
  {
    preds := map b | b in g.blocks :: [];
    BudgetOfEmpty(order, left, preds);
    for i := 0 to |order|
      invariant preds.Keys == g.blocks.Keys
      invariant forall b, p :: b in preds ==> (p in preds[b] <==> Edge(g, p, b) && p in order[..i])
      invariant Budget(order, left, preds) == 14 * Successors(g, order[..i])
    {
      var a := order[i];
      assert order[..i + 1] == order[..i] + [a];
      assert order[..i + 1][..i] == order[..i];
      if a in g.blocks {
        preds := AddEdgesFrom(g, a, preds, order, left);
      }
    }
    assert order[..|order|] == order;
  }

  // ----- The worklist

  /** All blocks, each once, in reverse post-order of the searches from the entry and then
      from every block; the entry is listed even when it is not a block. */
  method ReversePostorder(g: Cfg) returns (rpo: seq<nat>)
    requires Closed(g)
    ensures Distinct(rpo) && ReversePostOrder(g, rpo)
    ensures forall x :: x in rpo <==> x in g.blocks || x == g.entry
  {
    var adj := map b | b in g.blocks :: g.blocks[b].succs;
    var visited, order := {}, [];
    if g.entry in g.blocks {
      visited, order := DfsFrom(g, adj, g.entry, visited, order);
    }
    order := SearchAll(g, adj, visited, order);
    rpo := Reversed(order);
    ReversedWorklist(order, rpo);
    ReversedPostOrder(g, order, rpo);
    if g.entry !in g.blocks {
      ghost var before := rpo;
      assert forall k :: 0 <= k < |before| ==> (before + [g.entry])[k] == before[k];
      rpo := rpo + [g.entry];
    }
  }

  /** An edge leads to a later block, or back to one its source was reached from. */
  ghost predicate ReversePostOrder(g: Cfg, rpo: seq<nat>) {
    forall i: nat, v :: i < |rpo| && Edge(g, rpo[i], v) ==> ComesLater(g, rpo, i, v)
  }

  ghost predicate ComesLater(g: Cfg, rpo: seq<nat>, i: nat, v: nat)
    requires i < |rpo|
  {
    (exists k :: i < k < |rpo| && rpo[k] == v) || Reach(g, v, rpo[i])
  }

  lemma ReversedPostOrder(g: Cfg, order: seq<nat>, rpo: seq<nat>)
    requires PostOrder(g, order) && |rpo| == |order| && forall i :: 0 <= i < |rpo| ==> rpo[i] == order[|order| - 1 - i]
    ensures ReversePostOrder(g, rpo)
  {
    forall i: nat, v | i < |rpo| && Edge(g, rpo[i], v) ensures ComesLater(g, rpo, i, v) {
      var n := |order| - 1;
      assert FinishedBefore(g, order, n - i, v);
      if k :| 0 <= k < n - i && order[k] == v { assert rpo[n - k] == v; }
    }
  }

  /** Continues the search from every block in turn. */
  method SearchAll(g: Cfg, adj: map<nat, seq<nat>>, visited: set<nat>, order: seq<nat>) returns (order': seq<nat>)
    requires Closed(g) && adj == (map b | b in g.blocks :: g.blocks[b].succs) && DfsState(g, adj, visited, order, [])
    requires PostOrder(g, order)
    ensures Distinct(order') && PostOrder(g, order') && forall x :: x in order' <==> x in g.blocks
  {
    var seen := visited;
    order' := order;
    var all := Sorted(g.blocks.Keys);
    for i := 0 to |all|
      invariant DfsState(g, adj, seen, order', []) && PostOrder(g, order')
      invariant forall k :: 0 <= k < i ==> all[k] in seen
    {
      assert all[i] in all;
      seen, order' := DfsFrom(g, adj, all[i], seen, order');
    }
    AllOrdered(g, adj, seen, order', all);
  }

  lemma AllOrdered(g: Cfg, adj: map<nat, seq<nat>>, visited: set<nat>, order: seq<nat>, all: seq<nat>)
    requires DfsState(g, adj, visited, order, [])
    requires (forall x :: x in all <==> x in g.blocks) && forall k :: 0 <= k < |all| ==> all[k] in visited
    ensures Distinct(order) && forall x :: x in order <==> x in g.blocks
  {
    forall b | b in g.blocks ensures b in order {
      assert b in all;
      assert !OnStack([], b);
    }
  }

  /** Facts about the masks: sound, each live-out covered by the successors' live-ins, and each
      block either untouched or holding its own transfer equation. */
  ghost predicate MaskInv(g: Cfg, liveIn: map<nat, set<Reg>>, liveOut: map<nat, set<Reg>>, seen: set<nat>) {
    && Sound(g, liveIn, liveOut)
    && (forall b {:trigger MaskInvAt(g, liveIn, liveOut, seen, b)} ::
      b in g.blocks ==> MaskInvAt(g, liveIn, liveOut, seen, b))
  }

  ghost predicate MaskInvAt(g: Cfg, liveIn: map<nat, set<Reg>>, liveOut: map<nat, set<Reg>>, seen: set<nat>, b: nat)
    requires b in liveIn && b in liveOut
  {
    && (forall r: Reg :: r in liveOut[b] ==> LiveAfter(g, liveIn, b, r))
    && (b in seen ==> forall r: Reg :: r in liveIn[b] <==> Gen(g, b, r) || (r in liveOut[b] && !Kill(g, b, r)))
    && (b !in seen ==> liveIn[b] == {} && liveOut[b] == {})
  }

  ghost predicate LiveAfter(g: Cfg, liveIn: map<nat, set<Reg>>, b: nat, r: Reg) {
    exists s :: Edge(g, b, s) && s in liveIn && r in liveIn[s]
  }

  /** The masks a block gets when it is processed. */
  ghost predicate Transfer(g: Cfg, liveIn: map<nat, set<Reg>>, b: nat, newIn: set<Reg>, newOut: set<Reg>) {
    && (forall r: Reg :: r in newOut <==> LiveAfter(g, liveIn, b, r))
    && (forall r: Reg :: r in newIn <==> Gen(g, b, r) || (r in newOut && !Kill(g, b, r)))
  }

  /** Processing only adds registers, and adds one whenever an already seen block changes. */
  lemma TransferGrows(g: Cfg, liveIn: map<nat, set<Reg>>, liveOut: map<nat, set<Reg>>, seen: set<nat>, b: nat,
      newIn: set<Reg>, newOut: set<Reg>)
    requires MaskInv(g, liveIn, liveOut, seen) && b in g.blocks && Transfer(g, liveIn, b, newIn, newOut)
    ensures liveIn[b] <= newIn && liveOut[b] <= newOut
    ensures b in seen && (newIn != liveIn[b] || newOut != liveOut[b]) ==> liveOut[b] < newOut
  {
    assert MaskInvAt(g, liveIn, liveOut, seen, b);
    if b in seen && newOut == liveOut[b] {
      assert forall r: Reg :: r in newIn <==> r in liveIn[b];
    }
  }

  lemma TransferKeepsMasks(g: Cfg, liveIn: map<nat, set<Reg>>, liveOut: map<nat, set<Reg>>, seen: set<nat>, b: nat,
      newIn: set<Reg>, newOut: set<Reg>)
    requires MaskInv(g, liveIn, liveOut, seen) && b in g.blocks && Transfer(g, liveIn, b, newIn, newOut)
    ensures MaskInv(g, liveIn[b := newIn], liveOut[b := newOut], seen + {b})
  {
    var liveIn', liveOut' := liveIn[b := newIn], liveOut[b := newOut];
    TransferGrows(g, liveIn, liveOut, seen, b, newIn, newOut);
    TransferIsSound(g, liveIn, liveOut, b, newIn, newOut);
    forall c | c in g.blocks ensures MaskInvAt(g, liveIn', liveOut', seen + {b}, c) {
      assert MaskInvAt(g, liveIn, liveOut, seen, c);
      forall r: Reg | r in liveOut'[c] ensures LiveAfter(g, liveIn', c, r) {
        assert LiveAfter(g, liveIn, c, r);
        var s :| Edge(g, c, s) && s in liveIn && r in liveIn[s];
        assert r in liveIn'[s];
      }
    }
  }

  lemma TransferIsSound(g: Cfg, liveIn: map<nat, set<Reg>>, liveOut: map<nat, set<Reg>>, b: nat, newIn: set<Reg>,
      newOut: set<Reg>)
    requires Sound(g, liveIn, liveOut) && b in g.blocks && Transfer(g, liveIn, b, newIn, newOut)
    ensures Sound(g, liveIn[b := newIn], liveOut[b := newOut])
  {
    forall r: Reg | r in newOut ensures LiveOut(g, b, r) {
      assert LiveAfter(g, liveIn, b, r);
      var s :| Edge(g, b, s) && s in liveIn && r in liveIn[s];
      assert LiveIn(g, s, r);
    }
    forall r: Reg | r in newIn ensures LiveIn(g, b, r) {
      LiveInFold(g, b, r);
    }
  }

  /** A block whose equation held, and none of whose successors changed, still balances. */
  lemma BalanceKept(g: Cfg, liveIn: map<nat, set<Reg>>, liveOut: map<nat, set<Reg>>, b: nat, newIn: set<Reg>,
      newOut: set<Reg>, c: nat)
    requires b in g.blocks && b in liveIn && b in liveOut && c != b && !Edge(g, c, b)
    requires Balanced(g, liveIn, liveOut, c)
    ensures Balanced(g, liveIn[b := newIn], liveOut[b := newOut], c)
  {
  }

  lemma {:induction false} RegCount(s: set<Reg>, n: nat)
    requires n <= 13 && forall r :: r in s ==> r < n
    ensures |s| <= n
  {
    if n > 0 {
      var last: Reg := n - 1;
      RegCount(s - {last}, n - 1);
    }
  }

  lemma {:induction false} ProperSubsetSmaller(s: set<Reg>, t: set<Reg>)
    requires s <= t
    ensures |s| <= |t| && (s != t ==> |s| < |t|)
  {
    if s != {} {
      var x :| x in s;
      ProperSubsetSmaller(s - {x}, t - {x});
    }
  }

  method BlockTransfer(g: Cfg, liveIn: map<nat, set<Reg>>, b: nat) returns (newIn: set<Reg>, newOut: set<Reg>)
    requires b in g.blocks
    ensures Transfer(g, liveIn, b, newIn, newOut)
  {
    newOut := {};
    var succs := g.blocks[b].succs;
    for i := 0 to |succs|
      invariant forall r: Reg :: r in newOut <==>
        exists k :: 0 <= k < i && succs[k] in liveIn && r in liveIn[succs[k]]
    {
      if succs[i] in liveIn { newOut := newOut + liveIn[succs[i]]; }
    }
    forall r: Reg ensures r in newOut <==> LiveAfter(g, liveIn, b, r) {
      if r in newOut {
        var k :| 0 <= k < |succs| && succs[k] in liveIn && r in liveIn[succs[k]];
        assert Edge(g, b, succs[k]);
      }
    }
    var use, def := ComputeBlockUseDef(g.blocks[b]);
    newIn := use + (newOut - def);
  }

  /** Queues those of ps that are not queued yet. */
  method Enqueue(worklist: seq<nat>, inWorklist: set<nat>, ps: seq<nat>) returns (w: seq<nat>, q: set<nat>)
    requires Distinct(worklist) && inWorklist == Elems(worklist)
    ensures Distinct(w) && q == Elems(w)
    ensures forall x :: x in w <==> x in worklist || x in ps
    ensures |w| <= |worklist| + |ps|
  {
    w, q := worklist, inWorklist;
    for i := 0 to |ps|
      invariant Distinct(w) && q == Elems(w)
      invariant forall x :: x in w <==> x in worklist || x in ps[..i]
      invariant |w| <= |worklist| + i
    {
      if ps[i] !in q {
        q := q + {ps[i]};
        w := w + [ps[i]];
      }
    }
    assert ps[..|ps|] == ps;
  }

  ghost predicate SettledOutside(g: Cfg, liveIn: map<nat, set<Reg>>, liveOut: map<nat, set<Reg>>, worklist: seq<nat>) {
    forall b {:trigger Balanced(g, liveIn, liveOut, b)} ::
      b in g.blocks && b !in worklist ==> Balanced(g, liveIn, liveOut, b)
  }

  lemma SettledAfterChange(g: Cfg, liveIn: map<nat, set<Reg>>, liveOut: map<nat, set<Reg>>, w0: seq<nat>,
      w1: seq<nat>, b: nat, newIn: set<Reg>, newOut: set<Reg>)
    requires Sound(g, liveIn, liveOut) && b in g.blocks && Transfer(g, liveIn, b, newIn, newOut)
    requires forall c {:trigger Balanced(g, liveIn, liveOut, c)} ::
      c in g.blocks && c !in w0 && c != b ==> Balanced(g, liveIn, liveOut, c)
    requires forall c :: c in w0 || Edge(g, c, b) ==> c in w1
    ensures SettledOutside(g, liveIn[b := newIn], liveOut[b := newOut], w1)
  {
    forall c | c in g.blocks && c !in w1 ensures Balanced(g, liveIn[b := newIn], liveOut[b := newOut], c) {
      if c != b {
        BalanceKept(g, liveIn, liveOut, b, newIn, newOut, c);
      } else {
        TransferBalances(g, liveIn, liveOut, b, newIn, newOut);
      }
    }
  }

  lemma TransferBalances(g: Cfg, liveIn: map<nat, set<Reg>>, liveOut: map<nat, set<Reg>>, b: nat, newIn: set<Reg>,
      newOut: set<Reg>)
    requires b in g.blocks && b in liveIn && b in liveOut && Transfer(g, liveIn, b, newIn, newOut)
    requires !Edge(g, b, b) || liveIn[b] == newIn
    ensures Balanced(g, liveIn[b := newIn], liveOut[b := newOut], b)
  {
    var liveIn' := liveIn[b := newIn];
    forall r: Reg ensures LiveAfter(g, liveIn, b, r) <==> LiveAfter(g, liveIn', b, r) {
      if LiveAfter(g, liveIn, b, r) {
        var s :| Edge(g, b, s) && s in liveIn && r in liveIn[s];
        assert s in liveIn' && r in liveIn'[s];
      }
    }
  }

  /** How often each block can still change: at most 14 times in all. */
  ghost predicate LeftInv(g: Cfg, liveOut: map<nat, set<Reg>>, seen: set<nat>, left: map<nat, nat>) {
    left.Keys == g.blocks.Keys == liveOut.Keys &&
    forall b :: b in g.blocks ==> left[b] + |liveOut[b]| + (if b in seen then 1 else 0) == 14
  }

  lemma ChangeSpends(g: Cfg, liveIn: map<nat, set<Reg>>, liveOut: map<nat, set<Reg>>, seen: set<nat>,
      left: map<nat, nat>, b: nat, newIn: set<Reg>, newOut: set<Reg>)
    requires MaskInv(g, liveIn, liveOut, seen) && b in g.blocks && Transfer(g, liveIn, b, newIn, newOut)
    requires LeftInv(g, liveOut, seen, left) && (newIn != liveIn[b] || newOut != liveOut[b])
    ensures |newOut| <= 13 && 13 - |newOut| < left[b]
    ensures LeftInv(g, liveOut[b := newOut], seen + {b}, left[b := 13 - |newOut|])
  {
    TransferGrows(g, liveIn, liveOut, seen, b, newIn, newOut);
    GrowthSpends(g, liveOut, seen, left, b, newOut);
  }

  lemma GrowthSpends(g: Cfg, liveOut: map<nat, set<Reg>>, seen: set<nat>, left: map<nat, nat>, b: nat, newOut: set<Reg>)
    requires LeftInv(g, liveOut, seen, left) && b in g.blocks
    requires liveOut[b] <= newOut && (b in seen ==> liveOut[b] != newOut)
    ensures |newOut| <= 13 && 13 - |newOut| < left[b]
    ensures LeftInv(g, liveOut[b := newOut], seen + {b}, left[b := 13 - |newOut|])
  {
    RegCount(newOut, 13);
    ProperSubsetSmaller(liveOut[b], newOut);
  }

  /** The state of the loop between pops. */
  ghost predicate LoopInv(g: Cfg, order: seq<nat>, preds: map<nat, seq<nat>>, liveIn: map<nat, set<Reg>>,
      liveOut: map<nat, set<Reg>>,
                          left: map<nat, nat>, seen: set<nat>, worklist: seq<nat>, inWorklist: set<nat>) {
    && (forall b :: b in g.blocks ==> b in order) && preds.Keys == g.blocks.Keys
    && (forall c, p :: c in preds ==> (p in preds[c] <==> Edge(g, p, c)))
    && MaskInv(g, liveIn, liveOut, seen) && LeftInv(g, liveOut, seen, left)
    && SettledOutside(g, liveIn, liveOut, worklist)
    && Distinct(worklist) && inWorklist == Elems(worklist)
  }

  lemma ChangeKeepsInv(g: Cfg, order: seq<nat>, preds: map<nat, seq<nat>>, liveIn: map<nat, set<Reg>>,
      liveOut: map<nat, set<Reg>>,
                       left: map<nat, nat>, seen: set<nat>, w0: seq<nat>, w1: seq<nat>, b: nat, newIn: set<Reg>,
                         newOut: set<Reg>)
    requires b in g.blocks && preds.Keys == g.blocks.Keys && forall c :: c in g.blocks ==> c in order
    requires forall c, p :: c in preds ==> (p in preds[c] <==> Edge(g, p, c))
    requires MaskInv(g, liveIn, liveOut, seen) && LeftInv(g, liveOut, seen, left)
    requires forall c {:trigger Balanced(g, liveIn, liveOut, c)} ::
      c in g.blocks && c !in w0 && c != b ==> Balanced(g, liveIn, liveOut, c)
    requires Transfer(g, liveIn, b, newIn, newOut) && (newIn != liveIn[b] || newOut != liveOut[b])
    requires Distinct(w1) && forall x :: x in w1 <==> x in w0 || x in preds[b]
    ensures |newOut| <= 13 && 13 - |newOut| < left[b]
    ensures LoopInv(g, order, preds, liveIn[b := newIn], liveOut[b := newOut], left[b := 13 - |newOut|], seen + {b},
      w1, Elems(w1))
    ensures Budget(order, left[b := 13 - |newOut|], preds) + |preds[b]| <= Budget(order, left, preds)
  {
    ChangeSpends(g, liveIn, liveOut, seen, left, b, newIn, newOut);
    BudgetSpent(order, left, preds, b, 13 - |newOut|);
    SettledAfterChange(g, liveIn, liveOut, w0, w1, b, newIn, newOut);
    TransferKeepsMasks(g, liveIn, liveOut, seen, b, newIn, newOut);
    Assemble(g, order, preds, liveIn[b := newIn], liveOut[b := newOut], left[b := 13 - |newOut|], seen + {b}, w1);
  }

  lemma Assemble(g: Cfg, order: seq<nat>, preds: map<nat, seq<nat>>, liveIn: map<nat, set<Reg>>,
      liveOut: map<nat, set<Reg>>,
                 left: map<nat, nat>, seen: set<nat>, w: seq<nat>)
    requires preds.Keys == g.blocks.Keys && forall c :: c in g.blocks ==> c in order
    requires forall c, p :: c in preds ==> (p in preds[c] <==> Edge(g, p, c))
    requires MaskInv(g, liveIn, liveOut, seen) && LeftInv(g, liveOut, seen, left)
    requires SettledOutside(g, liveIn, liveOut, w) && Distinct(w)
    ensures LoopInv(g, order, preds, liveIn, liveOut, left, seen, w, Elems(w))
  {
  }

  /** Processes one popped block. */
  method Process(g: Cfg, preds: map<nat, seq<nat>>, b: nat, liveIn: map<nat, set<Reg>>, liveOut: map<nat, set<Reg>>,
                 worklist: seq<nat>, inWorklist: set<nat>, ghost order: seq<nat>, ghost left: map<nat, nat>,
                   ghost seen: set<nat>)
    returns (liveIn': map<nat, set<Reg>>, liveOut': map<nat, set<Reg>>, worklist': seq<nat>, inWorklist': set<nat>,
             ghost left': map<nat, nat>, ghost seen': set<nat>)
    requires b in g.blocks && preds.Keys == g.blocks.Keys && forall c :: c in g.blocks ==> c in order
    requires forall c, p :: c in preds ==> (p in preds[c] <==> Edge(g, p, c))
    requires MaskInv(g, liveIn, liveOut, seen) && LeftInv(g, liveOut, seen, left)
    requires forall c {:trigger Balanced(g, liveIn, liveOut, c)} ::
      c in g.blocks && c !in worklist && c != b ==> Balanced(g, liveIn, liveOut, c)
    requires Distinct(worklist) && inWorklist == Elems(worklist)
    ensures LoopInv(g, order, preds, liveIn', liveOut', left', seen', worklist', inWorklist')
    ensures |worklist'| + Budget(order, left', preds) <= |worklist| + Budget(order, left, preds)
  {
    liveIn', liveOut', worklist', inWorklist', left', seen' := liveIn, liveOut, worklist, inWorklist, left, seen;
    var newIn, newOut := BlockTransfer(g, liveIn, b);
    if newIn != liveIn[b] || newOut != liveOut[b] {
      worklist', inWorklist' := Enqueue(worklist, inWorklist, preds[b]);
      ChangeKeepsInv(g, order, preds, liveIn, liveOut, left, seen, worklist, worklist', b, newIn, newOut);
      liveIn', liveOut' := liveIn[b := newIn], liveOut[b := newOut];
      left', seen' := left[b := 13 - |newOut|], seen + {b};
    } else {
      TransferBalances(g, liveIn, liveOut, b, newIn, newOut);
      assert liveIn[b := newIn] == liveIn && liveOut[b := newOut] == liveOut;
    }
  }

  /** Liveness, with the code's cutoff on the number of worklist pops. The masks are always
      within path liveness; if the worklist ran empty they are exactly it, the least solution
      of the equations; and the cutoff cannot strike when there are no more edges than blocks. */
  method ComputeLiveness(g: Cfg)
    returns (liveIn: map<nat, set<Reg>>, liveOut: map<nat, set<Reg>>, pops: nat, complete: bool)
    requires Closed(g)
    ensures Sound(g, liveIn, liveOut)
    ensures complete ==> Solution(g, liveIn, liveOut) && Exact(g, liveIn, liveOut)
    ensures pops <= |g.blocks.Keys + {g.entry}| + 14 * EdgeCount(g)
    ensures g.entry in g.blocks && EdgeCount(g) <= |g.blocks| ==> complete
  {
    var rpo, preds, worklist;
    ghost var left, seen;
    liveIn, liveOut, rpo, preds, worklist, left, seen := Start(g);
    var inWorklist := Elems(worklist);
    var maxIterations := |g.blocks| * 15;
    pops, complete := 0, true;
    ghost var bound := |g.blocks.Keys + {g.entry}| + 14 * EdgeCount(g);
    while worklist != []
      invariant LoopInv(g, rpo, preds, liveIn, liveOut, left, seen, worklist, inWorklist)
      invariant pops + |worklist| + Budget(rpo, left, preds) <= bound
      invariant complete
      decreases bound - pops
    {
      var b := worklist[|worklist| - 1];
      PopKeepsInv(g, rpo, preds, liveIn, liveOut, left, seen, worklist, inWorklist);
      worklist := worklist[..|worklist| - 1];
      inWorklist := inWorklist - {b};
      pops := pops + 1;
      if pops > maxIterations {
        complete := false;
        break;
      }
      if b in g.blocks {
        liveIn, liveOut, worklist, inWorklist, left, seen :=
          Process(g, preds, b, liveIn, liveOut, worklist, inWorklist, rpo, left, seen);
      }
    }
    if complete { SoundSolutionIsExact(g, liveIn, liveOut); }
  }

  /** Empty masks, the predecessor lists, and every block queued. */
  method Start(g: Cfg)
    returns (liveIn: map<nat, set<Reg>>, liveOut: map<nat, set<Reg>>, rpo: seq<nat>, preds: map<nat, seq<nat>>,
      worklist: seq<nat>,
             ghost left: map<nat, nat>, ghost seen: set<nat>)
    requires Closed(g)
    ensures LoopInv(g, rpo, preds, liveIn, liveOut, left, seen, worklist, Elems(worklist))
    ensures |worklist| + Budget(rpo, left, preds) <= |g.blocks.Keys + {g.entry}| + 14 * EdgeCount(g)
  {
    liveIn, liveOut, left, seen := InitialMasks(g);
    rpo := ReversePostorder(g);
    preds := PredecessorMap(g, rpo, left);
    worklist := Reversed(rpo);
    ReversedWorklist(rpo, worklist);
    StartBudget(g, rpo, preds, left);
    InitialInv(g, rpo, preds, liveIn, liveOut, left, seen, worklist);
  }

  lemma StartBudget(g: Cfg, rpo: seq<nat>, preds: map<nat, seq<nat>>, left: map<nat, nat>)
    requires Distinct(rpo) && forall x :: x in rpo <==> x in g.blocks || x == g.entry
    requires Budget(rpo, left, preds) == 14 * Successors(g, rpo)
    ensures |rpo| + Budget(rpo, left, preds) <= |g.blocks.Keys + {g.entry}| + 14 * EdgeCount(g)
  {
    OrderCounts(g, rpo);
  }

  method InitialMasks(g: Cfg)
    returns (liveIn: map<nat, set<Reg>>, liveOut: map<nat, set<Reg>>, ghost left: map<nat, nat>, ghost seen: set<nat>)
    ensures MaskInv(g, liveIn, liveOut, seen) && LeftInv(g, liveOut, seen, left)
    ensures left.Keys == g.blocks.Keys && forall b :: b in left ==> left[b] == 14
  {
    liveIn := map b | b in g.blocks :: {};
    liveOut := map b | b in g.blocks :: {};
    left := map b | b in g.blocks :: 14;
    seen := {};
  }

  lemma InitialInv(g: Cfg, order: seq<nat>, preds: map<nat, seq<nat>>, liveIn: map<nat, set<Reg>>,
      liveOut: map<nat, set<Reg>>,
                   left: map<nat, nat>, seen: set<nat>, worklist: seq<nat>)
    requires MaskInv(g, liveIn, liveOut, seen) && LeftInv(g, liveOut, seen, left)
    requires Distinct(worklist) && forall b :: b in g.blocks ==> b in worklist && b in order
    requires preds.Keys == g.blocks.Keys && forall c, p :: c in preds ==> (p in preds[c] <==> Edge(g, p, c))
    ensures LoopInv(g, order, preds, liveIn, liveOut, left, seen, worklist, Elems(worklist))
  {
  }

  lemma PopKeepsInv(g: Cfg, order: seq<nat>, preds: map<nat, seq<nat>>, liveIn: map<nat, set<Reg>>,
      liveOut: map<nat, set<Reg>>,
                    left: map<nat, nat>, seen: set<nat>, worklist: seq<nat>, inWorklist: set<nat>)
    requires LoopInv(g, order, preds, liveIn, liveOut, left, seen, worklist, inWorklist) && worklist != []
    ensures var w, b := worklist[..|worklist| - 1], worklist[|worklist| - 1];
      && Distinct(w) && inWorklist - {b} == Elems(w)
      && (forall c {:trigger Balanced(g, liveIn, liveOut, c)} ::
        c in g.blocks && c !in w && c != b ==> Balanced(g, liveIn, liveOut, c))
      && (b !in g.blocks ==> LoopInv(g, order, preds, liveIn, liveOut, left, seen, w, inWorklist - {b}))
  {
    PopDistinct(worklist);
  }

  lemma PopDistinct(w: seq<nat>)
    requires w != [] && Distinct(w)
    ensures Distinct(w[..|w| - 1]) && w[|w| - 1] !in w[..|w| - 1]
    ensures Elems(w[..|w| - 1]) == Elems(w) - {w[|w| - 1]}
    ensures forall x :: x in w <==> x in w[..|w| - 1] || x == w[|w| - 1]
  {
    assert w == w[..|w| - 1] + [w[|w| - 1]];
  }

  lemma ReversedWorklist(rpo: seq<nat>, w: seq<nat>)
    requires Distinct(rpo) && |w| == |rpo| && forall i :: 0 <= i < |w| ==> w[i] == rpo[|rpo| - 1 - i]
    ensures Distinct(w) && forall x :: x in w <==> x in rpo
  {
    forall x | x in rpo ensures x in w {
      var k :| 0 <= k < |rpo| && rpo[k] == x;
      assert w[|rpo| - 1 - k] == x;
    }
  }

  lemma OrderCounts(g: Cfg, rpo: seq<nat>)
    requires Distinct(rpo) && forall x :: x in rpo <==> x in g.blocks || x == g.entry
    ensures |rpo| == |g.blocks.Keys + {g.entry}|
    ensures Successors(g, rpo) == EdgeCount(g)
  {
    SuccessorsCountEdges(g, rpo);
    assert EdgePositions(g, Elems(rpo)) == EdgePositions(g, g.blocks.Keys);
    DistinctCount(rpo);
    assert Elems(rpo) == g.blocks.Keys + {g.entry};
  }

  lemma {:induction false} DistinctCount(s: seq<nat>)
    requires Distinct(s)
    ensures |Elems(s)| == |s|
  {
    if s != [] {
      var n := |s| - 1;
      PopDistinct(s);
      DistinctCount(s[..n]);
      assert Elems(s) == Elems(s[..n]) + {s[n]};
    }
  }
}
