/** A value with one recorded reader, followed along the paths from its definition. */
module SingleReaders {
  import opened Instructions
  import opened Graph
  import opened Ssa
  import opened SsaReaching

  /** Along a path from d's block that does not redefine the register, d stays the value. */
  lemma {:induction false} CarriedForward(g: Cfg, ins: BlockMap, outs: BlockMap, p: Program, d: Value, i: nat,
      w: seq<nat>)
    requires WellFormed(g) && Converged(g, ins, outs) && PhisRecorded(g, outs, p)
    requires WrittenAt(g, d, i) && outs[d.block][d.reg] == d
    requires forall s :: s in UsesOf(p.uses, d) ==> s.AtInstr?
    requires IsPath(g, w) && |w| > 1 && w[0] == d.block && w[|w| - 1] in g.blocks
    requires forall x :: 0 < x < |w| - 1 ==> w[x] in g.blocks && LastDef(g.blocks[w[x]].instrs, d.reg).None?
    ensures ins[w[|w| - 1]][d.reg] == d
  {
    var n := |w| - 1;
    var q, b := w[n - 1], w[n];
    assert Edge(g, q, b);
    if n > 1 {
      PathPrefix(g, w, n - 1);
      CarriedForward(g, ins, outs, p, d, i, w[..n]);
      assert ConvergedAt(g, ins, outs, q);
    }
    CarriedOver(g, ins, outs, p, d, q, b);
  }

  /** A value that is no phi's operand enters a block as itself. */
  lemma CarriedOver(g: Cfg, ins: BlockMap, outs: BlockMap, p: Program, d: Value, q: nat, b: nat)
    requires WellFormed(g) && Converged(g, ins, outs) && PhisRecorded(g, outs, p)
    requires d.InstrDef? && q in g.blocks && b in g.blocks && Edge(g, q, b) && outs[q][d.reg] == d
    requires forall s :: s in UsesOf(p.uses, d) ==> s.AtInstr?
    ensures ins[b][d.reg] == d
  {
    assert ConvergedAt(g, ins, outs, b);
    assert q in g.blocks[b].preds;
    assert d in Incoming(g, outs, b, d.reg);
    assert AtPhi(b, d.reg) in UsesOf(p.uses, d) <==> IsPhiOperand(g, outs, b, d.reg, d);
  }

  /** The read at instruction j of the last block of w sees what instruction i of the first
      block wrote: nothing in between writes the register. */
  ghost predicate Undisturbed(g: Cfg, w: seq<nat>, i: nat, j: nat, r: Reg) {
    && IsPath(g, w) && (forall x :: 0 <= x < |w| ==> w[x] in g.blocks)
    && i < |g.blocks[w[0]].instrs| && j < |g.blocks[w[|w| - 1]].instrs|
    && if |w| == 1 then i < j && LastDef(g.blocks[w[0]].instrs[i + 1..j], r).None?
       else
         && LastDef(g.blocks[w[0]].instrs[i + 1..], r).None?
         && (forall x :: 0 < x < |w| - 1 ==> LastDef(g.blocks[w[x]].instrs, r).None?)
         && LastDef(g.blocks[w[|w| - 1]].instrs[..j], r).None?
  }

  lemma {:induction false} LastDefSplit(xs: seq<(nat, Shape)>, ys: seq<(nat, Shape)>, r: Reg)
    ensures LastDef(xs + ys, r) == if LastDef(ys, r).Some? then LastDef(ys, r) else LastDef(xs, r)
  {
    if ys == [] {
      assert xs + ys == xs;
    } else {
      var n := |ys| - 1;
      LastDefSplit(xs, ys[..n], r);
      assert (xs + ys)[..|xs + ys| - 1] == xs + ys[..n];
    }
  }

  /** The value of the register just after its definition, until the next one in the block. */
  lemma DefinedUntil(g: Cfg, ins: BlockMap, d: Value, i: nat, j: nat)
    requires WrittenAt(g, d, i) && d.block in ins && i < j <= |g.blocks[d.block].instrs|
    requires LastDef(g.blocks[d.block].instrs[i + 1..j], d.reg).None?
    ensures ValueAt(g, ins, d.block, j, d.reg) == d
  {
    var instrs := g.blocks[d.block].instrs;
    assert instrs[..j] == instrs[..i + 1] + instrs[i + 1..j];
    LastDefSplit(instrs[..i + 1], instrs[i + 1..j], d.reg);
    assert instrs[..i + 1][..i] == instrs[..i];
  }

  /** A value with a single recorded reader and no phi uses is read nowhere else, along any path,
      before its register is written again. */
  lemma SingleReader(g: Cfg, ins: BlockMap, outs: BlockMap, p: Program, d: Value, i: nat, u: nat, q: Reg, w: seq<nat>,
      j: nat, pc: nat)
    requires WellFormed(g) && Converged(g, ins, outs) && ReadsRecorded(g, ins, p) && PhisRecorded(g, outs, p)
    requires WrittenAt(g, d, i) && UsesOf(p.uses, d) == {AtInstr(u, q)}
    requires |w| > 0 && w[0] == d.block && Undisturbed(g, w, i, j, d.reg)
    requires ReadsAt(g, w[|w| - 1], j, pc, d.reg)
    ensures pc == u
  {
    var b := w[|w| - 1];
    if |w| == 1 {
      DefinedUntil(g, ins, d, i, j);
    } else {
      var n := |g.blocks[d.block].instrs|;
      assert g.blocks[d.block].instrs[i + 1..n] == g.blocks[d.block].instrs[i + 1..];
      DefinedUntil(g, ins, d, i, n);
      assert ConvergedAt(g, ins, outs, d.block);
      assert g.blocks[d.block].instrs[..n] == g.blocks[d.block].instrs;
      CarriedForward(g, ins, outs, p, d, i, w);
    }
    assert ValueAt(g, ins, b, j, d.reg) == d;
    assert UseRecorded(g, ins, p.useOf, p.uses, b, j, pc, d.reg);
  }
}
