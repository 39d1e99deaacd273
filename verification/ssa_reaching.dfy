/** What the converged value graph says about runs. */
module SsaReaching {
  import opened Instructions
  import opened Graph
  import opened Collections
  import opened Ssa

  // ----- The last definition on a path

  /** The last definition of r on the path, whose blocks are executed in full. */
  ghost function LastOnPath(g: Cfg, p: seq<nat>, r: Reg): Option<Value> {
    if p == [] then None
    else
      var b := p[|p| - 1];
      if b in g.blocks && LastDef(g.blocks[b].instrs, r).Some?
      then Some(InstrDef(LastDef(g.blocks[b].instrs, r).value, r, b))
      else LastOnPath(g, p[..|p| - 1], r)
  }

  /** The last definition of r on a path that stops before instruction j of its last block. */
  ghost function LastBefore(g: Cfg, p: seq<nat>, j: nat, r: Reg): Option<Value>
    requires p != [] && p[|p| - 1] in g.blocks && j <= |g.blocks[p[|p| - 1]].instrs|
  {
    var b := p[|p| - 1];
    match LastDef(g.blocks[b].instrs[..j], r)
    case Some(pc) => Some(InstrDef(pc, r, b))
    case None => LastOnPath(g, p[..|p| - 1], r)
  }

  // ----- The operand closure

  ghost predicate OperandOf(g: Cfg, outs: BlockMap, w: Value, v: Value) {
    v.Phi? && IsPhiOperand(g, outs, v.block, v.reg, w)
  }

  /** w can be reached from v through phi operands. */
  ghost predicate FeedsIn(g: Cfg, outs: BlockMap, n: nat, w: Value, v: Value)
    decreases n
  {
    if n == 0 then w == v else exists u :: OperandOf(g, outs, u, v) && FeedsIn(g, outs, n - 1, w, u)
  }

  ghost predicate Feeds(g: Cfg, outs: BlockMap, w: Value, v: Value) {
    exists n: nat :: FeedsIn(g, outs, n, w, v)
  }

  lemma FeedsSelf(g: Cfg, outs: BlockMap, v: Value)
    ensures Feeds(g, outs, v, v)
  {
    assert FeedsIn(g, outs, 0, v, v);
  }

  lemma FeedsStep(g: Cfg, outs: BlockMap, w: Value, u: Value, v: Value)
    requires Feeds(g, outs, w, u) && OperandOf(g, outs, u, v)
    ensures Feeds(g, outs, w, v)
  {
    var n: nat :| FeedsIn(g, outs, n, w, u);
    assert FeedsIn(g, outs, n + 1, w, v);
  }

  lemma OnlyPhisAreFed(g: Cfg, outs: BlockMap, w: Value, v: Value)
    requires Feeds(g, outs, w, v) && !v.Phi?
    ensures w == v
  {
    var n: nat :| FeedsIn(g, outs, n, w, v);
  }

  // ----- Reaching definitions

  /** What reaches the start of a block along an edge is there, or is an operand of the phi there. */
  lemma EdgeFeeds(g: Cfg, ins: BlockMap, outs: BlockMap, q: nat, b: nat, r: Reg, w: Value)
    requires Inverse(g) && Converged(g, ins, outs) && Edge(g, q, b) && b in g.blocks
    requires Feeds(g, outs, w, outs[q][r])
    ensures Feeds(g, outs, w, ins[b][r])
  {
    assert ConvergedAt(g, ins, outs, b) && q in g.blocks[b].preds;
    var incoming := Incoming(g, outs, b, r);
    assert outs[q][r] in incoming;
    if |incoming| > 1 {
      assert OperandOf(g, outs, outs[q][r], ins[b][r]);
      FeedsStep(g, outs, w, outs[q][r], ins[b][r]);
    }
  }

  /** The definition reaching a block's start along a path from the entry: the last one on the
      path, or the parameter where an entry without predecessors passed it through. */
  lemma {:induction false} PathFeeds(g: Cfg, ins: BlockMap, outs: BlockMap, p: seq<nat>, r: Reg)
    requires WellFormed(g) && Converged(g, ins, outs)
    requires IsPath(g, p) && p[0] == g.entry && p[|p| - 1] in g.blocks
    ensures g.entry in g.blocks
    ensures var b := p[|p| - 1];
      match LastOnPath(g, p[..|p| - 1], r)
      case Some(d) => Feeds(g, outs, d, ins[b][r])
      case None => g.blocks[g.entry].preds == [] ==> Feeds(g, outs, Param(r), ins[b][r])
    decreases |p|
  {
    var b := p[|p| - 1];
    assert ConvergedAt(g, ins, outs, b);
    if |p| == 1 {
      FeedsSelf(g, outs, ins[b][r]);
    } else {
      var q := p[|p| - 2];
      assert Edge(g, q, p[|p| - 1]);
      var before := p[..|p| - 1];
      PathPrefix(g, p, |p| - 2);
      PathFeeds(g, ins, outs, before, r);
      assert ConvergedAt(g, ins, outs, q);
      if LastDef(g.blocks[q].instrs, r).Some? {
        FeedsSelf(g, outs, outs[q][r]);
        EdgeFeeds(g, ins, outs, q, b, r, outs[q][r]);
      } else if LastOnPath(g, before[..|before| - 1], r).Some? {
        EdgeFeeds(g, ins, outs, q, b, r, LastOnPath(g, before[..|before| - 1], r).value);
      } else if g.blocks[g.entry].preds == [] {
        EdgeFeeds(g, ins, outs, q, b, r, Param(r));
      }
    }
  }

  /** Reaching definitions: on every entry path to a use, the last definition of the register
      is in the operand closure of the value the use reads. */
  lemma ReachingDefinition(g: Cfg, ins: BlockMap, outs: BlockMap, p: seq<nat>, j: nat, r: Reg)
    requires WellFormed(g) && Converged(g, ins, outs)
    requires IsPath(g, p) && p[0] == g.entry && p[|p| - 1] in g.blocks
    requires j <= |g.blocks[p[|p| - 1]].instrs|
    ensures g.entry in g.blocks
    ensures var v := ValueAt(g, ins, p[|p| - 1], j, r);
      match LastBefore(g, p, j, r)
      case Some(d) => Feeds(g, outs, d, v)
      case None => g.blocks[g.entry].preds == [] ==> Feeds(g, outs, Param(r), v)
  {
    PathFeeds(g, ins, outs, p, r);
    FeedsSelf(g, outs, ValueAt(g, ins, p[|p| - 1], j, r));
  }

  // ----- The recorded operands

  /** w can be reached from v through the operands the tables record. */
  ghost predicate RecordedFeedsIn(p: Program, n: nat, w: Value, v: Value)
    decreases n
  {
    if n == 0 then w == v else exists u :: u in OperandsOf(p.operands, v) && RecordedFeedsIn(p, n - 1, w, u)
  }

  ghost predicate RecordedFeeds(p: Program, w: Value, v: Value) {
    exists n: nat :: RecordedFeedsIn(p, n, w, v)
  }

  lemma OperandIsRecorded(g: Cfg, outs: BlockMap, p: Program, u: Value, v: Value)
    requires PhisRecorded(g, outs, p)
    ensures OperandOf(g, outs, u, v) <==> u in OperandsOf(p.operands, v)
  {
    if v.Phi? { assert u in OperandsOf(p.operands, Phi(v.block, v.reg)) <==> IsPhiOperand(g, outs, v.block, v.reg, u); }
  }

  lemma {:induction false} FeedsAsRecordedIn(g: Cfg, outs: BlockMap, p: Program, n: nat, w: Value, v: Value)
    requires PhisRecorded(g, outs, p)
    ensures FeedsIn(g, outs, n, w, v) <==> RecordedFeedsIn(p, n, w, v)
  {
    if n > 0 {
      forall u
        ensures OperandOf(g, outs, u, v) && FeedsIn(g, outs, n - 1, w, u) <==>
          u in OperandsOf(p.operands, v) && RecordedFeedsIn(p, n - 1, w, u)
      {
        OperandIsRecorded(g, outs, p, u, v);
        FeedsAsRecordedIn(g, outs, p, n - 1, w, u);
      }
    }
  }

  /** The closure through recorded operands is the closure at the fixed point. */
  lemma FeedsAsRecorded(g: Cfg, outs: BlockMap, p: Program, w: Value, v: Value)
    requires PhisRecorded(g, outs, p)
    ensures Feeds(g, outs, w, v) <==> RecordedFeeds(p, w, v)
  {
    forall n: nat ensures FeedsIn(g, outs, n, w, v) <==> RecordedFeedsIn(p, n, w, v) {
      FeedsAsRecordedIn(g, outs, p, n, w, v);
    }
  }

  /** Reaching definitions, in the tables: on every entry path to an instruction, the last definition
      of a register it reads is in the recorded operand closure of the recorded value of the use. */
  lemma RecordedReaches(g: Cfg, ins: BlockMap, outs: BlockMap, t: Program, p: seq<nat>, j: nat, pc: nat, r: Reg)
    requires WellFormed(g) && Converged(g, ins, outs) && ReadsRecorded(g, ins, t) && PhisRecorded(g, outs, t)
    requires IsPath(g, p) && p[0] == g.entry && ReadsAt(g, p[|p| - 1], j, pc, r)
    ensures (pc, r) in t.useOf && g.entry in g.blocks
    ensures match LastBefore(g, p, j, r)
      case Some(d) => RecordedFeeds(t, d, t.useOf[(pc, r)])
      case None => g.blocks[g.entry].preds == [] ==> RecordedFeeds(t, Param(r), t.useOf[(pc, r)])
  {
    ReachingDefinition(g, ins, outs, p, j, r);
    assert UseRecorded(g, ins, t.useOf, t.uses, p[|p| - 1], j, pc, r);
    match LastBefore(g, p, j, r)
    case Some(d) => FeedsAsRecorded(g, outs, t, d, t.useOf[(pc, r)]);
    case None => FeedsAsRecorded(g, outs, t, Param(r), t.useOf[(pc, r)]);
  }

  // ----- Uses of plain definitions

  /** InstrDef value d is written by instruction i of its block. */
  ghost predicate WrittenAt(g: Cfg, d: Value, i: nat) {
    d.InstrDef? && d.block in g.blocks && i < |g.blocks[d.block].instrs|
      && g.blocks[d.block].instrs[i].0 == d.pc && d.reg in g.blocks[d.block].instrs[i].1.Defs()
  }

  /** Instruction i of block d comes before instruction j of block b on every path. */
  ghost predicate Precedes(g: Cfg, d: nat, i: nat, b: nat, j: nat) {
    if d == b then i < j else Dom(g, d, b)
  }

  lemma LastDefOfOne(x: (nat, Shape), r: Reg)
    ensures LastDef([x], r) == if r in x.1.Defs() then Some(x.0) else None
  {
    assert [x][..0] == [];
  }

  lemma {:induction false} LastDefIsLast(instrs: seq<(nat, Shape)>, r: Reg)
    ensures LastDef(instrs, r).Some? <==> exists k :: 0 <= k < |instrs| && r in instrs[k].1.Defs()
    ensures LastDef(instrs, r).Some? ==>
      exists k :: 0 <= k < |instrs| && instrs[k].0 == LastDef(instrs, r).value && r in instrs[k].1.Defs()
  {
    if instrs != [] {
      var n := |instrs| - 1;
      LastDefIsLast(instrs[..n], r);
      assert instrs == instrs[..n] + [instrs[n]];
    }
  }

  /** What the last definition on a path is: an instruction of one of its blocks. */
  lemma {:induction false} LastOnPathIsOnPath(g: Cfg, p: seq<nat>, r: Reg)
    ensures LastOnPath(g, p, r).Some? ==> LastOnPath(g, p, r).value.InstrDef? && LastOnPath(g, p, r).value.block in p
    ensures forall b :: b in p && b in g.blocks && LastDef(g.blocks[b].instrs, r).Some? ==> LastOnPath(g, p, r).Some?
  {
    if p != [] {
      assert p == p[..|p| - 1] + [p[|p| - 1]];
      LastOnPathIsOnPath(g, p[..|p| - 1], r);
    }
  }

  /** A use of a plain definition, reached by a path carrying some definition, reads that one. */
  lemma PlainUseReads(g: Cfg, ins: BlockMap, outs: BlockMap, p: seq<nat>, j: nat, r: Reg, d: Value)
    requires WellFormed(g) && Converged(g, ins, outs)
    requires IsPath(g, p) && p[0] == g.entry && p[|p| - 1] in g.blocks
    requires j <= |g.blocks[p[|p| - 1]].instrs|
    requires d.InstrDef? && ValueAt(g, ins, p[|p| - 1], j, r) == d
    ensures LastBefore(g, p, j, r).Some? ==> LastBefore(g, p, j, r) == Some(d)
    ensures g.entry in g.blocks && (g.blocks[g.entry].preds == [] ==> LastBefore(g, p, j, r) == Some(d))
  {
    ReachingDefinition(g, ins, outs, p, j, r);
    match LastBefore(g, p, j, r)
    case Some(w) => OnlyPhisAreFed(g, outs, w, d);
    case None =>
      if g.blocks[g.entry].preds == [] {
        OnlyPhisAreFed(g, outs, Param(r), d);
        assert false;
      }
  }

  /** d is the last definition of r on every entry path to the use. */
  ghost predicate AlwaysReads(g: Cfg, b: nat, j: nat, r: Reg, d: Value)
    requires b in g.blocks && j <= |g.blocks[b].instrs|
  {
    forall p :: PathFromTo(g, p, g.entry, b) ==> LastBefore(g, p, j, r) == Some(d)
  }

  /** For a reachable use of a plain definition d, the dominance check decides exactly whether
      d is what every run reads there. */
  lemma PlainUseDominated(g: Cfg, ins: BlockMap, outs: BlockMap, b: nat, j: nat, r: Reg, d: Value, i: nat)
    requires WellFormed(g) && UniquePcs(g) && Converged(g, ins, outs)
    requires b in g.blocks && j <= |g.blocks[b].instrs| && Reachable(g, b)
    requires WrittenAt(g, d, i) && d.reg == r && ValueAt(g, ins, b, j, r) == d
    ensures AlwaysReads(g, b, j, r, d) <==> Precedes(g, d.block, i, b, j)
  {
    if Precedes(g, d.block, i, b, j) {
      forall p | PathFromTo(g, p, g.entry, b) ensures LastBefore(g, p, j, r) == Some(d) {
        PrecedesIsMet(g, p, b, j, r, d, i);
        PlainUseReads(g, ins, outs, p, j, r, d);
      }
    }
    if AlwaysReads(g, b, j, r, d) {
      ReadsMeansPrecedes(g, b, j, r, d, i);
    }
  }

  lemma PrecedesIsMet(g: Cfg, p: seq<nat>, b: nat, j: nat, r: Reg, d: Value, i: nat)
    requires b in g.blocks && j <= |g.blocks[b].instrs| && PathFromTo(g, p, g.entry, b)
    requires WrittenAt(g, d, i) && d.reg == r && Precedes(g, d.block, i, b, j)
    ensures LastBefore(g, p, j, r).Some?
  {
    LastDefIsLast(g.blocks[b].instrs[..j], r);
    if d.block == b {
      assert g.blocks[b].instrs[..j][i] == g.blocks[b].instrs[i];
    } else {
      LastDefIsLast(g.blocks[d.block].instrs, r);
      LastOnPathIsOnPath(g, p[..|p| - 1], r);
      assert p == p[..|p| - 1] + [b];
    }
  }

  lemma ReadsMeansPrecedes(g: Cfg, b: nat, j: nat, r: Reg, d: Value, i: nat)
    requires UniquePcs(g) && b in g.blocks && j <= |g.blocks[b].instrs| && Reachable(g, b)
    requires WrittenAt(g, d, i) && d.reg == r && AlwaysReads(g, b, j, r, d)
    ensures Precedes(g, d.block, i, b, j)
  {
    LastDefIsLast(g.blocks[b].instrs[..j], r);
    if d.block == b {
      var w :| PathFromTo(g, w, g.entry, b);
      var k := FirstVisit(w, b);
      PathPrefix(g, w, k);
      var p := w[..k + 1];
      assert LastBefore(g, p, j, r) == Some(d);
      assert p[..|p| - 1] == w[..k];
      LastOnPathIsOnPath(g, w[..k], r);
      var x :| 0 <= x < j && g.blocks[b].instrs[..j][x].0 == d.pc;
      assert g.blocks[b].instrs[x].0 == g.blocks[b].instrs[i].0;
    } else {
      forall p | PathFromTo(g, p, g.entry, b) ensures d.block in p {
        assert LastBefore(g, p, j, r) == Some(d);
        LastOnPathIsOnPath(g, p[..|p| - 1], r);
      }
    }
  }

  /** Some instruction has written r before instruction j of b, whichever way it was reached. */
  ghost predicate DefinitelyWritten(g: Cfg, b: nat, j: nat, r: Reg)
    requires b in g.blocks && j <= |g.blocks[b].instrs|
  {
    forall p :: PathFromTo(g, p, g.entry, b) ==> LastBefore(g, p, j, r).Some?
  }

  /** A reachable use of a plain definition is preceded by it exactly when the register is
      written on every path to the use. Nothing is assumed of the entry. */
  lemma PlainUsePreceded(g: Cfg, ins: BlockMap, outs: BlockMap, b: nat, j: nat, r: Reg, d: Value, i: nat)
    requires WellFormed(g) && UniquePcs(g) && Converged(g, ins, outs)
    requires b in g.blocks && j <= |g.blocks[b].instrs| && Reachable(g, b)
    requires WrittenAt(g, d, i) && d.reg == r && ValueAt(g, ins, b, j, r) == d
    ensures Precedes(g, d.block, i, b, j) <==> DefinitelyWritten(g, b, j, r)
  {
    if DefinitelyWritten(g, b, j, r) {
      forall p | PathFromTo(g, p, g.entry, b) ensures LastBefore(g, p, j, r) == Some(d) {
        PlainUseReads(g, ins, outs, p, j, r, d);
      }
      ReadsMeansPrecedes(g, b, j, r, d, i);
    }
    if Precedes(g, d.block, i, b, j) {
      forall p | PathFromTo(g, p, g.entry, b) ensures LastBefore(g, p, j, r).Some? {
        PrecedesIsMet(g, p, b, j, r, d, i);
      }
    }
  }

  ghost predicate FreshEntry(g: Cfg) { g.entry in g.blocks && g.blocks[g.entry].preds == [] }

  /** With an entry that has no predecessors, every reachable use of a plain definition is
      preceded by it. */
  lemma FreshEntryPrecedes(g: Cfg, ins: BlockMap, outs: BlockMap, b: nat, j: nat, r: Reg, d: Value, i: nat)
    requires WellFormed(g) && UniquePcs(g) && Converged(g, ins, outs) && FreshEntry(g)
    requires b in g.blocks && j <= |g.blocks[b].instrs| && Reachable(g, b)
    requires WrittenAt(g, d, i) && d.reg == r && ValueAt(g, ins, b, j, r) == d
    ensures Precedes(g, d.block, i, b, j)
  {
    forall p | PathFromTo(g, p, g.entry, b) ensures LastBefore(g, p, j, r).Some? {
      PlainUseReads(g, ins, outs, p, j, r, d);
    }
    PlainUsePreceded(g, ins, outs, b, j, r, d, i);
  }
}
