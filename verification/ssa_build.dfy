/** Building the value graph: sweeps until nothing changes, or until there have been too many. */
module SsaBuild {
  import opened Instructions
  import opened Graph
  import opened Ssa
  import opened SsaConvergence

  /** The loop stops after this many sweeps, settled or not. */
  function Cap(g: Cfg): nat { (if |g.blocks| == 0 then 1 else |g.blocks|) * 20 }

  /** The first n sweeps have each changed something. */
  ghost predicate KeptChanging(g: Cfg, order: seq<nat>, n: nat)
    requires forall b :: b in order ==> b in g.blocks
  {
    forall k: nat :: k < n ==> ChangesAt(g, order, k)
  }

  /** The value graph; `converged` says that the last sweep changed nothing. It is so whenever the cap leaves
      room, and the cap does where every edge leads forward, and in reverse post-order whatever the loops. */
  method Build(g: Cfg, rpo: seq<nat>)
    returns (p: Program, converged: bool, sweeps: nat, ghost order: seq<nat>, ghost ins: BlockMap, ghost outs: BlockMap)
    requires WellFormed(g) && UniquePcs(g) && forall b :: b in rpo ==> b in g.blocks
    ensures ReadsRecorded(g, ins, p)
    ensures converged ==> Converged(g, ins, outs) && PhisRecorded(g, outs, p)
    ensures converged ==> Describes(g, p)
    ensures rpo <= order && forall b :: b in order <==> b in g.blocks
    ensures 0 < sweeps <= Cap(g) && State(ins, outs) == Swept(g, order, sweeps)
    ensures KeptChanging(g, order, if converged then sweeps - 1 else sweeps)
    ensures converged <==> !ChangesAt(g, order, sweeps - 1)
    ensures !converged ==> sweeps == Cap(g)
    ensures AllForward(g, order) ==> converged && sweeps <= 2
    ensures forall rank :: Setting(g, rpo, rank) ==> converged && sweeps <= 13 * |g.blocks| + 2
  {
    var pcToBlock := PcToBlock(g);
    var blockOrder := BlockOrder(g, rpo);
    order := blockOrder;
    var blockIn, blockOut, phis;
    blockIn, blockOut, phis, converged, sweeps := Solve(g, blockOrder);
    ins, outs := blockIn, blockOut;
    ConvergesForward(g, order, sweeps, converged);
    ConvergesInRpo(g, rpo, order, sweeps, converged);
    var operands, phiUses := InsertPhiOperands(g, blockOut, phis);
    var useOf, uses := RecordUses(g, blockIn, phiUses);
    p := Program(operands, useOf, uses, pcToBlock);
    if converged {
      PhisAreComplete(g, blockOut, phis, operands, phiUses, p);
    }
  }

  /** After n sweeps, of which the last changed something or not. */
  ghost predicate Counted(g: Cfg, order: seq<nat>, n: nat, changed: bool, s: State)
    requires forall b :: b in order ==> b in g.blocks
  {
    && s == Swept(g, order, n)
    && (n == 0 ==> changed) && KeptChanging(g, order, if changed then n else n - 1)
    && (n > 0 ==> (changed <==> ChangesAt(g, order, n - 1)))
  }

  lemma CountedNext(g: Cfg, order: seq<nat>, n: nat, s: State, s': State, changed: bool)
    requires (forall b :: b in order ==> b in g.blocks) && Counted(g, order, n, true, s)
    requires s' == SweptTo(g, order, s, |order|) && (changed <==> Changes(g, order, s))
    ensures Counted(g, order, n + 1, changed, s')
  {
    assert changed <==> ChangesAt(g, order, n);
    if changed {
      forall k: nat | k < n + 1 ensures ChangesAt(g, order, k) { }
    }
  }

  ghost predicate Reached(g: Cfg, ins: BlockMap, outs: BlockMap, phis: set<(nat, Reg)>) {
    Converged(g, ins, outs) && forall b :: b in g.blocks ==> PhisMade(g, outs, phis, b)
  }

  method SweepOnce(g: Cfg, order: seq<nat>, ghost n: nat, ins: BlockMap, outs: BlockMap, phis: set<(nat, Reg)>)
    returns (ins': BlockMap, outs': BlockMap, phis': set<(nat, Reg)>, changed: bool)
    requires (forall b :: b in order <==> b in g.blocks) && Counted(g, order, n, true, State(ins, outs))
    requires ins.Keys <= g.blocks.Keys && outs.Keys <= g.blocks.Keys
    ensures ins'.Keys == outs'.Keys == g.blocks.Keys && Counted(g, order, n + 1, changed, State(ins', outs'))
    ensures !changed ==> Reached(g, ins', outs', phis')
  {
    ins', outs', phis', changed := Ssa.Sweep(g, order, ins, outs, phis);
    CountedNext(g, order, n, State(ins, outs), State(ins', outs'), changed);
  }

  method Solve(g: Cfg, order: seq<nat>)
    returns (blockIn: BlockMap, blockOut: BlockMap, phis: set<(nat, Reg)>, converged: bool, sweeps: nat)
    requires forall b :: b in order <==> b in g.blocks
    ensures 0 < sweeps <= Cap(g) && (!converged ==> sweeps == Cap(g))
    ensures blockIn.Keys == g.blocks.Keys && Counted(g, order, sweeps, !converged, State(blockIn, blockOut))
    ensures converged ==> Reached(g, blockIn, blockOut, phis)
  {
    blockIn, blockOut, phis := map[], map[], {};
    var changed := true;
    var maxIterations := (if |g.blocks| == 0 then 1 else |g.blocks|) * 20;
    sweeps := 0;
    while changed && sweeps < maxIterations
      invariant sweeps <= maxIterations && Counted(g, order, sweeps, changed, State(blockIn, blockOut))
      invariant blockIn.Keys <= g.blocks.Keys && blockOut.Keys <= g.blocks.Keys
      invariant sweeps > 0 ==> blockIn.Keys == g.blocks.Keys
      invariant !changed ==> Reached(g, blockIn, blockOut, phis)
      decreases maxIterations - sweeps
    {
      blockIn, blockOut, phis, changed := SweepOnce(g, order, sweeps, blockIn, blockOut, phis);
      sweeps := sweeps + 1;
    }
    converged := !changed;
  }

  lemma ConvergesForward(g: Cfg, order: seq<nat>, sweeps: nat, converged: bool)
    requires WellFormed(g) && (forall b :: b in order <==> b in g.blocks) && 0 < sweeps <= Cap(g)
    requires KeptChanging(g, order, if converged then sweeps - 1 else sweeps)
    requires !converged ==> sweeps == Cap(g)
    ensures AllForward(g, order) ==> converged && sweeps <= 2
  {
    if AllForward(g, order) { ForwardSettles(g, order); }
  }

  lemma ConvergesInRpo(g: Cfg, rpo: seq<nat>, order: seq<nat>, sweeps: nat, converged: bool)
    requires (forall b :: b in order <==> b in g.blocks) && 0 < sweeps <= Cap(g)
    requires (forall b :: b in g.blocks ==> b in rpo) ==> order == rpo
    requires KeptChanging(g, order, if converged then sweeps - 1 else sweeps)
    requires !converged ==> sweeps == Cap(g)
    ensures forall rank :: Setting(g, rpo, rank) ==> converged && sweeps <= 13 * |g.blocks| + 2
  {
    forall rank | Setting(g, rpo, rank) ensures converged && sweeps <= 13 * |g.blocks| + 2 {
      assert forall b :: b in g.blocks ==> b in rank && rpo[rank[b]] == b;
      LoopsSettle(g, rpo, rank);
    }
  }
}
