/** Two programs on which the cross-block fold leaves out a definition that is still mentioned, and the
    code it returns runs differently: one where a reader is folded away before its own turn as a reader,
    and one where a reader is raw text besides. */
module FoldFailures {
  import opened Instructions
  import opened Graph
  import opened Collections
  import opened Ssa
  import opened SsaReaching
  import opened Words
  import opened Expressions
  import opened Folding
  import opened FoldRuns
  import opened Availability
  import opened FoldStep
  import opened FoldRound
  import opened FoldPass
  import Simplifier
  import CfgBuild
  import Dominators

  function LastShape(raw: bool): Shape {
    if raw then StoreImmInd(U64, 5, 0, 7) else Shape.Store(U64, 6, 5, 0)
  }

  // 0:   jump to 100
  // 100: r3 = r1 + 1;   jump to 50
  // 50:  r4 = r3 + 1;   jump to 70
  // 70:  r5 = r4 + 2;   jump to 90
  // 90:  [r5] = 7 if the last reader is to be raw text, or else [r6] = r5;   trap
  function Chain(raw: bool): Cfg {
    Cfg(map[
      0 := Block(0, 50, [(0, Jump(100))], [100], []),
      100 := Block(100, 108, [(100, BinImm(Add, W64, 3, 1, 1)), (104, Jump(-54))], [50], [0]),
      50 := Block(50, 70, [(50, BinImm(Add, W64, 4, 3, 1)), (54, Jump(16))], [70], [100]),
      70 := Block(70, 90, [(70, BinImm(Add, W64, 5, 4, 2)), (74, Jump(16))], [90], [50]),
      90 := Block(90, 100, [(90, LastShape(raw)), (94, Trap)], [], [70])], 0)
  }

  const D: Value := InstrDef(100, 3, 100)
  const E: Value := InstrDef(50, 4, 50)
  const F: Value := InstrDef(70, 5, 70)

  function Regs(r3: Value, r4: Value, r5: Value): RegMap {
    [Param(0), Param(1), Param(2), r3, r4, r5, Param(6), Param(7), Param(8), Param(9), Param(10), Param(11), Param(12)]
  }

  function Before(): BlockMap {
    map[0 := Regs(Param(3), Param(4), Param(5)), 100 := Regs(Param(3), Param(4), Param(5)),
        50 := Regs(D, Param(4), Param(5)),
        70 := Regs(D, E, Param(5)), 90 := Regs(D, E, F)]
  }

  function Behind(): BlockMap {
    map[0 := Regs(Param(3), Param(4), Param(5)), 100 := Regs(D, Param(4), Param(5)), 50 := Regs(D, E, Param(5)),
        70 := Regs(D, E, F), 90 := Regs(D, E, F)]
  }

  function Sum(v: Value, n: int): Tree { Expr.BinOp(Add, Var(v), Const(n)) }

  function LastReader(raw: bool): Tree {
    if raw then Raw("store", [F]) else Expr.Store(U64, Var(Param(6)), 0, Var(F))
  }

  function Lifted(raw: bool): map<nat, Tree> {
    map[0 := Raw("", []), 100 := Sum(Param(1), 1), 104 := Raw("", []), 50 := Sum(D, 1), 54 := Raw("", []),
        70 := Sum(E, 2), 74 := Raw("", []), 90 := LastReader(raw), 94 := Raw("", [])]
  }

  // ----- The graph and its values

  predicate InChain(b: nat) { b == 0 || b == 100 || b == 50 || b == 70 || b == 90 }

  lemma ChainBlocks(raw: bool, b: nat)
    ensures b in Chain(raw).blocks <==> InChain(b)
  {
  }

  lemma ChainEdges(raw: bool, a: nat, b: nat)
    ensures Edge(Chain(raw), a, b) <==>
      (a == 0 && b == 100) || (a == 100 && b == 50) || (a == 50 && b == 70) || (a == 70 && b == 90)
  {
  }

  lemma ChainInverse(raw: bool, p: nat, b: nat)
    requires b in Chain(raw).blocks
    ensures p in Chain(raw).blocks[b].preds <==> Edge(Chain(raw), p, b)
  {
    ChainEdges(raw, p, b);
  }

  /** The instructions of a block, and what they define. */
  lemma ChainInstrs(raw: bool, b: nat)
    requires InChain(b)
    ensures var instrs := Chain(raw).blocks[b].instrs;
      && |instrs| == (if b == 0 then 1 else 2) && Chain(raw).blocks[b].start == b
      && (forall j :: 0 <= j < |instrs| ==> instrs[j].0 == b + 4 * j)
      && instrs[0].1.Defs() == (if b == 100 then [3] else if b == 50 then [4] else if b == 70 then [5] else [])
      && (b != 0 ==> instrs[1].1.Defs() == [])
  {
  }

  lemma ChainWellFormed(raw: bool)
    ensures WellFormed(Chain(raw)) && UniquePcs(Chain(raw)) && FreshEntry(Chain(raw))
  {
    var g := Chain(raw);
    forall p, b | b in g.blocks ensures p in g.blocks[b].preds <==> Edge(g, p, b) { ChainInverse(raw, p, b); }
    forall a, b | Edge(g, a, b) ensures b in g.blocks { ChainEdges(raw, a, b); }
    forall b | b in g.blocks ensures g.blocks[b].start == b { ChainInstrs(raw, b); }
    forall b, c, j, k | b in g.blocks && c in g.blocks && 0 <= j < |g.blocks[b].instrs| && 0 <= k < |g.blocks[c].instrs|
      && g.blocks[b].instrs[j].0 == g.blocks[c].instrs[k].0
      ensures b == c && j == k
    {
      ChainInstrs(raw, b);
      ChainInstrs(raw, c);
    }
  }

  // ----- The graph is the one built from its instructions

  function Decoded(raw: bool): CfgBuild.Program {
    CfgBuild.Program(
      [(0, Jump(100)),
       (50, BinImm(Add, W64, 4, 3, 1)), (54, Jump(16)),
       (70, BinImm(Add, W64, 5, 4, 2)), (74, Jump(16)),
       (90, LastShape(raw)), (94, Trap),
       (100, BinImm(Add, W64, 3, 1, 1)), (104, Jump(-54))],
      108)
  }

  const STARTS: seq<nat> := [0, 50, 70, 90, 100]
  const CUTS: seq<nat> := [0, 1, 3, 5, 7, 9]
  const LEADERS: set<nat> := {0, 50, 70, 90, 100}

  function InOrder(raw: bool): seq<Block> {
    var blocks := Chain(raw).blocks;
    [blocks[0], blocks[50], blocks[70], blocks[90], blocks[100]]
  }

  lemma ChainLeaders(raw: bool)
    ensures CfgBuild.AreLeaders(Decoded(raw), LEADERS)
  {
    var p := Decoded(raw);
    assert CfgBuild.BranchesTo(p.instrs[0], 100) && CfgBuild.BranchesTo(p.instrs[2], 70);
    assert CfgBuild.BranchesTo(p.instrs[4], 90) && CfgBuild.BranchesTo(p.instrs[8], 50);
    forall pc ensures pc in LEADERS <==> CfgBuild.IsLeader(p, pc) {
    }
  }

  lemma BlockInOrder(raw: bool, k: nat)
    requires k < 5
    ensures |InOrder(raw)| == 5 && InOrder(raw)[k] == Chain(raw).blocks[STARTS[k]] && InOrder(raw)[k].start == STARTS[k]
  {
  }

  lemma BlockInstrs(raw: bool, k: nat)
    requires k < 5
    ensures var b, instrs := InOrder(raw)[k], Decoded(raw).instrs;
      && |instrs| == 9 && b.start == instrs[CUTS[k]].0
      && if k == 0 then b.instrs == [instrs[0]] && b.start < b.end
         else b.instrs == [instrs[CUTS[k]], instrs[CUTS[k] + 1]] && b.start < instrs[CUTS[k] + 1].0 < b.end
  {
  }

  lemma BlockPiece(raw: bool, k: nat)
    requires k < 5
    ensures CfgBuild.Piece(Decoded(raw), InOrder(raw)[k], CUTS[k], CUTS[k + 1])
  {
    BlockInstrs(raw, k);
    if k == 0 {
      CfgBuild.PieceOfOne(Decoded(raw), InOrder(raw)[0], 0);
    } else {
      CfgBuild.PieceOfTwo(Decoded(raw), InOrder(raw)[k], CUTS[k]);
    }
  }

  lemma BlockStarts(raw: bool, b: nat)
    ensures CfgBuild.Starts(InOrder(raw), b) <==> b in LEADERS
  {
    forall k: nat | k < 5 ensures InOrder(raw)[k].start == STARTS[k] { BlockInOrder(raw, k); }
    assert STARTS[0] == 0 && STARTS[1] == 50 && STARTS[2] == 70 && STARTS[3] == 90 && STARTS[4] == 100;
  }

  lemma BlockLeads(raw: bool, k: nat, b: nat)
    requires k < 5
    ensures b in InOrder(raw)[k].succs <==> CfgBuild.Leads(InOrder(raw), k, b)
  {
    BlockInOrder(raw, k);
    BlockStarts(raw, b);
  }

  lemma BlockFits(p: CfgBuild.Program, g: Cfg, bs: seq<Block>, raw: bool, k: nat)
    requires p == Decoded(raw) && g == Chain(raw) && bs == InOrder(raw) && k < 5
    ensures CfgBuild.Fits(p, g, bs, CUTS, k)
  {
    BlockInOrder(raw, k);
    BlockInstrs(raw, k);
    BlockPiece(raw, k);
    forall b: nat ensures b in bs[k].succs <==> CfgBuild.Leads(bs, k, b) { BlockLeads(raw, k, b); }
  }

  lemma AllFit(p: CfgBuild.Program, g: Cfg, bs: seq<Block>, raw: bool)
    requires p == Decoded(raw) && g == Chain(raw) && bs == InOrder(raw)
    ensures |bs| == 5 && forall k: nat {:trigger CfgBuild.Fits(p, g, bs, CUTS, k)} :: k < 5 ==>
      CfgBuild.Fits(p, g, bs, CUTS, k)
  {
    forall k: nat | k < 5 ensures CfgBuild.Fits(p, g, bs, CUTS, k) { BlockFits(p, g, bs, raw, k); }
  }

  lemma ChainTiled(p: CfgBuild.Program, g: Cfg, bs: seq<Block>, raw: bool)
    requires p == Decoded(raw) && g == Chain(raw) && bs == InOrder(raw)
    ensures CfgBuild.Tiled(p, bs, CUTS) && g.entry == 0 && g.blocks.Keys == LEADERS
    ensures forall b :: b in LEADERS ==> CfgBuild.Starts(bs, b)
  {
    forall b: nat | b in LEADERS ensures CfgBuild.Starts(bs, b) { BlockStarts(raw, b); }
  }

  /** The builder makes the chain of its instructions. */
  lemma ChainBuilt(p: CfgBuild.Program, g: Cfg, bs: seq<Block>, raw: bool)
    requires p == Decoded(raw) && g == Chain(raw) && bs == InOrder(raw)
    ensures CfgBuild.Decoded(p) && CfgBuild.Built(p, g, bs, CUTS) && CfgBuild.CutOnlyAtLeaders(p, bs, CUTS)
  {
    ChainWellFormed(raw);
    ChainLeaders(raw);
    ChainTiled(p, g, bs, raw);
    AllFit(p, g, bs, raw);
    CfgBuild.IsBuilt(p, g, bs, CUTS, LEADERS);
  }

  // ----- Its values

  lemma LastDefOfTwo(x: (nat, Shape), y: (nat, Shape), r: Reg)
    requires y.1.Defs() == []
    ensures LastDef([x], r) == LastDef([x, y], r) == if r in x.1.Defs() then Some(x.0) else None
  {
    LastDefOfOne(x, r);
    assert [x, y][..1] == [x];
  }

  lemma RegsStep(b: nat, r: Reg)
    requires InChain(b)
    ensures Behind()[b][r] ==
      if r == 3 && b == 100 then D else if r == 4 && b == 50 then E
      else if r == 5 && b == 70 then F else Before()[b][r]
  {
  }

  lemma LastDefAt(raw: bool, b: nat, j: nat, r: Reg)
    requires InChain(b) && 0 < j <= |Chain(raw).blocks[b].instrs|
    ensures LastDef(Chain(raw).blocks[b].instrs[..j], r) ==
      if r in Chain(raw).blocks[b].instrs[0].1.Defs() then Some(b) else None
  {
    var instrs := Chain(raw).blocks[b].instrs;
    ChainInstrs(raw, b);
    if j == 1 {
      assert instrs[..1] == [instrs[0]];
      LastDefOfOne(instrs[0], r);
    } else {
      assert instrs[..2] == [instrs[0], instrs[1]];
      LastDefOfTwo(instrs[0], instrs[1], r);
    }
  }

  /** The value of a register before instruction j of a block, and after the block. */
  lemma ChainValue(raw: bool, b: nat, j: nat, r: Reg)
    requires InChain(b) && j <= |Chain(raw).blocks[b].instrs|
    ensures ValueAt(Chain(raw), Before(), b, j, r) == if j == 0 then Before()[b][r] else Behind()[b][r]
  {
    if j > 0 {
      LastDefAt(raw, b, j, r);
      ChainInstrs(raw, b);
      RegsStep(b, r);
    }
  }

  function PredOf(b: nat): nat { if b == 100 then 0 else if b == 50 then 100 else if b == 70 then 50 else 70 }

  lemma ChainIncoming(raw: bool, b: nat, r: Reg)
    requires InChain(b)
    ensures b == 0 ==>
      Chain(raw).blocks[b].preds == [] && Incoming(Chain(raw), Behind(), b, r) == {} && Before()[b][r] == Param(r)
    ensures b != 0 ==>
      Chain(raw).blocks[b].preds == [PredOf(b)] && Incoming(Chain(raw), Behind(), b, r) == {Before()[b][r]}
  {
    if b != 0 { assert PredOf(b) in Chain(raw).blocks[b].preds && Behind()[PredOf(b)][r] == Before()[b][r]; }
  }

  lemma ChainSettles(raw: bool, b: nat)
    requires InChain(b)
    ensures ConvergedAt(Chain(raw), Before(), Behind(), b)
  {
    var g := Chain(raw);
    forall r: Reg
      ensures if g.blocks[b].preds == [] then Before()[b][r] == (if b == g.entry then Param(r) else Undef(r))
        else IsMerge(b, r, Incoming(g, Behind(), b, r), Before()[b][r])
    {
      ChainIncoming(raw, b, r);
    }
    forall r: Reg ensures Behind()[b][r] == After(b, g.blocks[b].instrs, Before()[b], r) {
      ChainAfter(raw, b, r);
    }
  }

  lemma ChainAfter(raw: bool, b: nat, r: Reg)
    requires InChain(b)
    ensures Behind()[b][r] == After(b, Chain(raw).blocks[b].instrs, Before()[b], r)
  {
    var n := |Chain(raw).blocks[b].instrs|;
    ChainInstrs(raw, b);
    ChainValue(raw, b, n, r);
    assert Chain(raw).blocks[b].instrs[..n] == Chain(raw).blocks[b].instrs;
  }

  lemma ChainConverges(raw: bool)
    ensures Converged(Chain(raw), Before(), Behind())
  {
    forall b | b in Chain(raw).blocks ensures ConvergedAt(Chain(raw), Before(), Behind(), b) { ChainSettles(raw, b); }
  }

  lemma NoMerges(raw: bool, b: nat, r: Reg, v: Value)
    ensures !IsPhiOperand(Chain(raw), Behind(), b, r, v)
  {
    if b in Chain(raw).blocks { ChainIncoming(raw, b, r); }
  }

  // ----- What is read where

  lemma ChainReads(raw: bool, b: nat, j: nat, r: Reg)
    requires InChain(b) && j < |Chain(raw).blocks[b].instrs|
    ensures r in Chain(raw).blocks[b].instrs[j].1.Uses() <==>
      j == 0 && ((b == 100 && r == 1) || (b == 50 && r == 3) || (b == 70 && r == 4) ||
        (b == 90 && (r == 5 || (!raw && r == 6))))
  {
  }

  /** What the value graph records of the chain, whatever else is in the program's tables. */
  ghost predicate Records(raw: bool, p: Program) {
    ReadsRecorded(Chain(raw), Before(), p) && PhisRecorded(Chain(raw), Behind(), p)
  }

  predicate ReadIn(v: Value, b: nat, r: Reg) {
    (v == D && b == 50 && r == 3) || (v == E && b == 70 && r == 4) || (v == F && b == 90 && r == 5)
  }

  lemma ReadOf(raw: bool, b: nat, j: nat, r: Reg, v: Value)
    requires InChain(b) && j < |Chain(raw).blocks[b].instrs| && r in Chain(raw).blocks[b].instrs[j].1.Uses()
    requires v == D || v == E || v == F
    ensures ValueAt(Chain(raw), Before(), b, j, r) == v <==> ReadIn(v, b, r)
    ensures j == 0
  {
    ChainReads(raw, b, j, r);
    ChainValue(raw, b, 0, r);
  }

  lemma OnlyUse(raw: bool, p: Program, v: Value, b: nat, r: Reg, x: UseSite)
    requires Records(raw, p) && ReadIn(v, b, r) && x in UsesOf(p.uses, v)
    ensures x == AtInstr(b, r)
  {
    match x
    case AtInstr(pc, q) => OnlyRead(raw, p, v, b, r, pc, q);
    case AtPhi(c, q) => NoMerges(raw, c, q, v);
  }

  lemma OnlyRead(raw: bool, p: Program, v: Value, b: nat, r: Reg, pc: nat, q: Reg)
    requires ReadsRecorded(Chain(raw), Before(), p) && ReadIn(v, b, r) && AtInstr(pc, q) in UsesOf(p.uses, v)
    ensures pc == b && q == r
  {
    assert IsReadOf(Chain(raw), Before(), v, pc, q);
    var c, j: nat :| ReadsAt(Chain(raw), c, j, pc, q) && c in Before() && ValueAt(Chain(raw), Before(), c, j, q) == v;
    ReadOf(raw, c, j, q, v);
    ChainInstrs(raw, c);
  }

  lemma UseThere(raw: bool, p: Program, v: Value, b: nat, r: Reg)
    requires Records(raw, p) && ReadIn(v, b, r)
    ensures AtInstr(b, r) in UsesOf(p.uses, v) && b in p.pcToBlock && p.pcToBlock[b] == b
  {
    ChainInstrs(raw, b);
    ChainReads(raw, b, 0, r);
    ReadOf(raw, b, 0, r, v);
    assert ReadsAt(Chain(raw), b, 0, b, r);
    assert UseRecorded(Chain(raw), Before(), p.useOf, p.uses, b, 0, b, r);
    assert p.pcToBlock[Chain(raw).blocks[b].instrs[0].0] == b;
  }

  /** Each of the three sums is read once, by the next instruction of the chain. */
  lemma ChainUses(raw: bool, p: Program, v: Value, b: nat, r: Reg)
    requires Records(raw, p) && ReadIn(v, b, r)
    ensures UsesOf(p.uses, v) == {AtInstr(b, r)} && SingleUse(p, v, b)
    ensures b in p.pcToBlock && p.pcToBlock[b] == b
  {
    UseThere(raw, p, v, b, r);
    forall x | x in UsesOf(p.uses, v) ensures x == AtInstr(b, r) { OnlyUse(raw, p, v, b, r, x); }
    assert UsesOf(p.uses, v) == {AtInstr(b, r)};
  }

  lemma ChainRegs(raw: bool, b: nat)
    requires InChain(b)
    ensures var m := ValuesAt(Chain(raw), Before(), b, 0);
      (b == 100 ==> m[1] == Param(1)) && (b == 50 ==> m[3] == D) && (b == 70 ==> m[4] == E) &&
      (b == 90 ==> m[5] == F && m[6] == Param(6))
  {
    ChainValue(raw, b, 0, 1);
    ChainValue(raw, b, 0, 3);
    ChainValue(raw, b, 0, 4);
    ChainValue(raw, b, 0, 5);
    ChainValue(raw, b, 0, 6);
  }

  /** No expression is a constant or a copy, or one that simplification changes. */
  lemma ChainSimplified(raw: bool, pc: nat)
    requires pc in Lifted(raw)
    ensures Simplifier.Simplify(Lifted(raw)[pc]) == Lifted(raw)[pc] && !Lifted(raw)[pc].Const? && !Lifted(raw)[pc].Var?
  {
  }

  lemma LiftedFirst(raw: bool, b: nat)
    requires InChain(b)
    ensures b in Lifted(raw)
    ensures Lifted(raw)[b] == Lift(Chain(raw).blocks[b].instrs[0].1, ValuesAt(Chain(raw), Before(), b, 0))
  {
    ChainRegs(raw, b);
  }

  lemma LiftedSecond(raw: bool, b: nat, m: RegMap)
    requires InChain(b) && b != 0
    ensures b + 4 in Lifted(raw) && Lifted(raw)[b + 4] == Lift(Chain(raw).blocks[b].instrs[1].1, m)
  {
  }

  lemma LiftedChain(raw: bool, b: nat, j: nat)
    requires InChain(b) && j < |Chain(raw).blocks[b].instrs|
    ensures b + 4 * j in Lifted(raw)
    ensures Lifted(raw)[b + 4 * j] == Lift(Chain(raw).blocks[b].instrs[j].1, ValuesAt(Chain(raw), Before(), b, j))
  {
    ChainInstrs(raw, b);
    if j == 0 { LiftedFirst(raw, b); } else { LiftedSecond(raw, b, ValuesAt(Chain(raw), Before(), b, j)); }
  }

  /** The expressions are what lifting makes of the chain. */
  lemma LiftedIsLifted(raw: bool)
    ensures IsLifted(Chain(raw), Before(), Lifted(raw))
  {
    forall pc, b: nat, j: nat | Located(Chain(raw), pc, b, j)
      ensures pc in Lifted(raw)
      ensures Lifted(raw)[pc] == Lift(Chain(raw).blocks[b].instrs[j].1, ValuesAt(Chain(raw), Before(), b, j))
    {
      ChainInstrs(raw, b);
      LiftedChain(raw, b, j);
    }
  }

  // ----- Dominance

  lemma ChainDominates(raw: bool, b: nat)
    requires InChain(b) && b != 0
    ensures Dom(Chain(raw), PredOf(b), b)
  {
    forall p | PathFromTo(Chain(raw), p, 0, b) ensures PredOf(b) in p {
      assert Edge(Chain(raw), p[|p| - 2], p[|p| - 1]);
      ChainEdges(raw, p[|p| - 2], b);
    }
  }

  const PATH: seq<nat> := [0, 100, 50, 70, 90]

  lemma ChainPath(raw: bool, k: nat)
    requires k < 5
    ensures PathFromTo(Chain(raw), PATH[..k + 1], 0, PATH[k]) && Reachable(Chain(raw), PATH[k])
    ensures IsPath(Chain(raw), PATH)
  {
    var g := Chain(raw);
    forall i, j | 0 <= i && j == i + 1 && j < 5 ensures Edge(g, PATH[i], PATH[j]) { ChainEdges(raw, PATH[i], PATH[j]); }
    PathPrefix(g, PATH, k);
  }

  lemma ChainReachable(raw: bool, b: nat)
    requires InChain(b)
    ensures Reachable(Chain(raw), b)
  {
    ChainPath(raw, if b == 0 then 0 else if b == 100 then 1 else if b == 50 then 2 else if b == 70 then 3 else 4);
  }

  /** Each sum's block dominates its reader's, in every tree the computation can end with. */
  lemma TreeOfChain(raw: bool, t: Dominators.DominatorTree, b: nat)
    requires t.entry == 0 && Dominators.Converged(Chain(raw), t.rpo, t.rank, t.idom) && InChain(b) && b != 0
    ensures Dominators.TreeDominates(t, PredOf(b), b)
  {
    ChainReachable(raw, b);
    ChainDominates(raw, b);
    Dominators.DominatesIsDominance(Chain(raw), t, PredOf(b), b);
  }

  // ----- The pass goes wrong on it

  function Start(raw: bool): Code { Code(Lifted(raw), {}) }

  const SUMS: set<Value> := {D, E, F}

  lemma SumReady(raw: bool, t: Dominators.DominatorTree, p: Program, v: Value, b: nat, r: Reg)
    requires t.entry == 0 && Dominators.Converged(Chain(raw), t.rpo, t.rank, t.idom) && Records(raw, p)
    requires ReadIn(v, b, r)
    ensures Ready(SUMS, Start(raw), t, p, map[], v, b)
  {
    ChainUses(raw, p, v, b, r);
    TreeOfChain(raw, t, b);
    SumShallow(raw, v);
  }

  lemma SumShallow(raw: bool, v: Value)
    requires v in SUMS
    ensures v.InstrDef? && v.pc in Lifted(raw) && !HasSideEffects(Lifted(raw)[v.pc]) && Depth(Lifted(raw)[v.pc]) < 2
  {
    SumIsShallow(if v == D then Param(1) else if v == E then D else E, if v == F then 2 else 1);
  }

  lemma SumIsShallow(v: Value, n: int)
    ensures !HasSideEffects(Sum(v, n)) && Depth(Sum(v, n)) < 2
  {
  }

  /** What is gathered from the chain holds a stale candidate, and one named in raw text if the last
      reader is, though every reader mentions its variable, whatever tree and tables the earlier passes
      end with. */
  lemma ChainIsNotClean(raw: bool, t: Dominators.DominatorTree, p: Program, cs: set<Candidate>)
    requires t.entry == 0 && Dominators.Converged(Chain(raw), t.rpo, t.rank, t.idom) && Records(raw, p)
    requires Gathers(SUMS, Start(raw), t, p, map[], cs)
    ensures Stale(cs, (D, 50), (E, 70)) && (F, 90) in cs && (NamedInRaw(Start(raw), (F, 90)) <==> raw)
    ensures AllMentioned(Start(raw), cs) && !Clean(Start(raw), cs)
  {
    SumsGathered(raw, t, p, cs);
    SumsMentioned(raw);
    AllSumsMentioned(raw, t, p, cs);
    StaleIsNotClean(Start(raw), cs, (D, 50), (E, 70));
  }

  lemma StaleIsNotClean(c: Code, cs: set<Candidate>, k: Candidate, l: Candidate)
    requires Stale(cs, k, l)
    ensures !Clean(c, cs)
  {
  }

  lemma AllSumsMentioned(raw: bool, t: Dominators.DominatorTree, p: Program, cs: set<Candidate>)
    requires Records(raw, p) && Gathers(SUMS, Start(raw), t, p, map[], cs)
    ensures AllMentioned(Start(raw), cs)
  {
    SumsMentioned(raw);
    forall k | k in cs ensures k.1 in Lifted(raw) && k.0 in Vars(Lifted(raw)[k.1]) {
      OnlySums(raw, t, p, cs, k);
    }
  }

  lemma SumsGathered(raw: bool, t: Dominators.DominatorTree, p: Program, cs: set<Candidate>)
    requires t.entry == 0 && Dominators.Converged(Chain(raw), t.rpo, t.rank, t.idom) && Records(raw, p)
    requires Gathers(SUMS, Start(raw), t, p, map[], cs)
    ensures (D, 50) in cs && (E, 70) in cs && (F, 90) in cs
  {
    SumReady(raw, t, p, D, 50, 3);
    SumReady(raw, t, p, E, 70, 4);
    SumReady(raw, t, p, F, 90, 5);
  }

  lemma OnlySums(raw: bool, t: Dominators.DominatorTree, p: Program, cs: set<Candidate>, k: Candidate)
    requires Records(raw, p) && Gathers(SUMS, Start(raw), t, p, map[], cs) && k in cs
    ensures k == (D, 50) || k == (E, 70) || k == (F, 90)
  {
    assert (k.0, k.1) in cs;
    assert k.0 in SUMS && SingleUse(p, k.0, k.1);
    var b, r := if k.0 == D then 50 else if k.0 == E then 70 else 90, if k.0 == D then 3 else if k.0 == E then 4 else 5;
    ChainUses(raw, p, k.0, b, r);
    OneReader(p, k.0, k.1);
  }

  lemma SumsMentioned(raw: bool)
    ensures D in Vars(Lifted(raw)[50]) && E in Vars(Lifted(raw)[70]) && F in Vars(Lifted(raw)[90])
    ensures F in RawVars(Lifted(raw)[90]) <==> raw
  {
    assert PlainVars(Var(D)) == {D} && PlainVars(Var(E)) == {E} && PlainVars(Var(F)) == {F};
    assert RawVars(Var(F)) == {} && RawVars(Var(Param(6))) == {} && F in Names([F]);
  }

  // ----- What the pass makes of it

  const CHAIN: set<Candidate> := {(D, 50), (E, 70), (F, 90)}

  lemma ChainGathers(raw: bool, t: Dominators.DominatorTree, p: Program)
    requires t.entry == 0 && Dominators.Converged(Chain(raw), t.rpo, t.rank, t.idom) && Records(raw, p)
    ensures Gathered(SUMS, Start(raw), t, p, map[]) == CHAIN
  {
    var cs := Gathered(SUMS, Start(raw), t, p, map[]);
    SumsGathered(raw, t, p, cs);
    forall k | k in cs ensures k in CHAIN { OnlySums(raw, t, p, cs, k); }
  }

  /** 50 is folded into 70, then 70 into 90, and last 100 into 50. */
  function Result(raw: bool): Code {
    FoldOne(FoldOne(FoldOne(Start(raw), E, 70), F, 90), D, 50)
  }

  lemma NextInChain(rest: set<Candidate>, k: Candidate)
    requires rest <= CHAIN && Lowest(rest, k) && forall l :: l in rest && l != k ==> k.0.pc < l.0.pc
    ensures LowestOf(rest) == k
  {
  }

  lemma PassResult(raw: bool)
    ensures FoldAll(Start(raw), CHAIN) == Result(raw)
  {
    var c0 := Start(raw);
    var c1 := FoldOne(c0, E, 70);
    var c2 := FoldOne(c1, F, 90);
    FoldFirst(c0, CHAIN, (E, 70));
    assert CHAIN - {(E, 70)} == {(D, 50), (F, 90)};
    FoldFirst(c1, {(D, 50), (F, 90)}, (F, 90));
    assert {(D, 50), (F, 90)} - {(F, 90)} == {(D, 50)};
    FoldFirst(c2, {(D, 50)}, (D, 50));
    assert {(D, 50)} - {(D, 50)} == {};
    FoldNone(Result(raw));
  }

  lemma FoldFirst(c: Code, rest: set<Candidate>, k: Candidate)
    requires rest <= CHAIN && Lowest(rest, k) && forall l :: l in rest && l != k ==> k.0.pc < l.0.pc
    requires k.0.pc in c.exprs && k.1 in c.exprs
    ensures FoldAll(c, rest) == FoldAll(FoldOne(c, k.0, k.1), rest - {k})
  {
    NextInChain(rest, k);
  }

  lemma FoldNone(c: Code)
    ensures FoldAll(c, {}) == c
  {
  }

  // ----- And it runs differently

  /** Control follows the chain. */
  function Along(): World {
    World((t: nat, j: nat, d: Value, x: Word) => 0, (t: nat, j: nat, x: Word, m: Machine) => m,
      (t: nat, b: nat, x: Word) => if t + 1 < 5 then PATH[t + 1] else 0)
  }

  function Zero(): Value -> Word { (v: Value) => 0 }

  ghost function RunOf(raw: bool, c: Code, m: Machine): History {
    ContentHistory(Chain(raw), Behind(), c, PATH, m, Along(), Zero())
  }

  lemma RunsAlong(raw: bool, c: Code, m: Machine)
    ensures IsRun(Chain(raw), Behind(), c, PATH, RunOf(raw, c, m), m, Along())
    ensures forall v :: RunOf(raw, c, m).at(0, 0, v) == 0
  {
    ChainPath(raw, 0);
    HistoriesExist(Chain(raw), Behind(), c, PATH, m, Along(), Zero());
  }

  lemma StartFaithful(raw: bool)
    ensures Stands(Chain(raw), Behind(), Start(raw), Start(raw))
  {
    ChainWellFormed(raw);
    ChainConverges(raw);
    LiftedIsLifted(raw);
    LiftedMeetsNeeds(Chain(raw), Before(), Lifted(raw));
    LiftedStands(Chain(raw), Before(), Behind(), Start(raw));
  }

  predicate SumAt(v: Value, b: nat) { (v == D && b == 100) || (v == E && b == 50) || (v == F && b == 70) }

  lemma DominatesAlong(raw: bool, i: nat, k: nat)
    requires i < k < 5
    ensures Dom(Chain(raw), PATH[i], PATH[k])
    decreases k
  {
    ChainDominates(raw, PATH[k]);
    if i < k - 1 {
      DominatesAlong(raw, i, k - 1);
      DomTrans(Chain(raw), PATH[i], PATH[k - 1], PATH[k]);
    }
  }

  function SumOf(v: Value): Tree { if v == D then Sum(Param(1), 1) else if v == E then Sum(D, 1) else Sum(E, 2) }

  lemma SumPlaced(raw: bool, v: Value, i: nat)
    requires 0 < i < 4 && SumAt(v, PATH[i])
    ensures v.InstrDef? && v.block == PATH[i] == v.pc && v.pc in Lifted(raw) && Lifted(raw)[v.pc] == SumOf(v)
    ensures Computes(Start(raw), v) && WrittenAt(Chain(raw), v, 0)
  {
    ChainInstrs(raw, PATH[i]);
    SumShallow(raw, v);
  }

  lemma SumAbove(raw: bool, i: nat, k: nat)
    requires 0 < i < k < 5
    ensures Reachable(Chain(raw), PATH[i]) && Dom(Chain(raw), PATH[i], PATH[k]) && PATH[i] != PATH[k]
    ensures PATH[k] in Chain(raw).blocks && Chain(raw).blocks[PATH[k]].instrs != []
  {
    ChainReachable(raw, PATH[i]);
    ChainInstrs(raw, PATH[k]);
    DominatesAlong(raw, i, k);
  }

  /** Nothing happens to the machine on the way. */
  lemma SameMachine(raw: bool, c: Code, h: History, m: Machine, k: nat)
    requires IsRun(Chain(raw), Behind(), c, PATH, h, m, Along()) && k < 5
    ensures Then(h, k, 0) == m
  {
    ChainInstrs(raw, PATH[k]);
    MachineStays(Chain(raw), c, PATH, h, m, Along(), k, 1);
  }

  /** On the original, a sum's variable holds the sum wherever the run has got to. */
  lemma SumHolds(raw: bool, m: Machine, v: Value, i: nat, k: nat)
    requires 0 < i < k < 5 && SumAt(v, PATH[i])
    ensures At(RunOf(raw, Start(raw), m), k, 0)(v) == Eval(SumOf(v), At(RunOf(raw, Start(raw), m), k, 0), m)
  {
    RunsAlong(raw, Start(raw), m);
    StartFaithful(raw);
    ChainWellFormed(raw);
    SumPlaced(raw, v, i);
    SumAbove(raw, i, k);
    ValueHeld(Chain(raw), Behind(), Start(raw), PATH, RunOf(raw, Start(raw), m), m, Along(), v, 0, k);
    SameMachine(raw, Start(raw), RunOf(raw, Start(raw), m), m, k);
  }

  lemma SumValue(v: Value, n: nat, x: Word, env: Value -> Word, m: Machine)
    requires env(v) == x && x + n < TWO_64
    ensures Eval(Sum(v, n), env, m) == x + n
  {
    assert Eval(Var(v), env, m) == x && Eval(Const(n), env, m) == n;
  }

  /** A variable that is left out, or a parameter, holds what it held at first. */
  lemma StillZero(raw: bool, c: Code, h: History, m: Machine, v: Value, k: nat)
    requires IsRun(Chain(raw), Behind(), c, PATH, h, m, Along()) && h.at(0, 0, v) == 0
    requires k < 5 && (v.Param? || !Kept(c, v))
    ensures At(h, k, 0)(v) == 0
  {
    ChainInstrs(raw, PATH[k]);
    Untouched(Chain(raw), c, PATH, h, v, k, 1);
  }

  /** From zeroed registers the chain's variables come to 1, 2 and 4. */
  lemma FirstSum(raw: bool, m: Machine, k: nat)
    requires 2 <= k < 5
    ensures At(RunOf(raw, Start(raw), m), k, 0)(D) == 1
  {
    RunsAlong(raw, Start(raw), m);
    StillZero(raw, Start(raw), RunOf(raw, Start(raw), m), m, Param(1), k);
    SumHolds(raw, m, D, 1, k);
    SumValue(Param(1), 1, 0, At(RunOf(raw, Start(raw), m), k, 0), m);
  }

  lemma SecondSum(raw: bool, m: Machine, k: nat)
    requires 3 <= k < 5
    ensures At(RunOf(raw, Start(raw), m), k, 0)(E) == 2
  {
    FirstSum(raw, m, k);
    SumHolds(raw, m, E, 2, k);
    SumValue(D, 1, 1, At(RunOf(raw, Start(raw), m), k, 0), m);
  }

  lemma ThirdSum(raw: bool, m: Machine)
    ensures At(RunOf(raw, Start(raw), m), 4, 0)(F) == 4
  {
    SecondSum(raw, m, 4);
    SumHolds(raw, m, F, 3, 4);
    SumValue(E, 2, 2, At(RunOf(raw, Start(raw), m), 4, 0), m);
  }

  /** Tells 4 from other operands of the last reader. */
  function Telling(): Machine {
    Machine((op, x, y) => 0, (op, x) => 0, (w, a) => 0, (w, a, x) => if x == 4 then 1 else 0, (f, xs) => 0,
      (t, xs) => if xs == [4] then 1 else 0)
  }

  lemma OriginalSees(raw: bool)
    ensures Eval(Lifted(raw)[90], At(RunOf(raw, Start(raw), Telling()), 4, 0), Telling()) == 1
  {
    ThirdSum(raw, Telling());
    ReaderSees(raw, At(RunOf(raw, Start(raw), Telling()), 4, 0), 4);
  }

  lemma ReaderSees(raw: bool, env: Value -> Word, x: Word)
    requires env(F) == x
    ensures Eval(LastReader(raw), env, Telling()) == if x == 4 then 1 else 0
  {
    ContentsOfOne(F, env);
    assert [x] == [4] <==> x == 4;
    assert Eval(Var(F), env, Telling()) == x;
  }

  lemma ResultExpression(raw: bool)
    ensures Result(raw).gone == {50, 70, 100}
    ensures Result(raw).exprs[90] ==
      if raw then LastReader(raw)
      else Expr.Store(U64, Var(Param(6)), 0, Expr.BinOp(Add, Sum(D, 1), Const(2)))
  {
    assert Substitute(Sum(E, 2), E, Sum(D, 1)) == Expr.BinOp(Add, Sum(D, 1), Const(2));
  }

  /** With 100, 50 and 70 left out the last reader sees 0 in raw text, or else 3. */
  lemma ResultSees(raw: bool, h: History)
    requires IsRun(Chain(raw), Behind(), Result(raw), PATH, h, Telling(), Along()) && forall v :: h.at(0, 0, v) == 0
    ensures Eval(Result(raw).exprs[90], At(h, 4, 0), Telling()) == 0
  {
    var env := At(h, 4, 0);
    ResultExpression(raw);
    if raw {
      StillZero(raw, Result(raw), h, Telling(), F, 4);
      ReaderSees(raw, env, 0);
    } else {
      StillZero(raw, Result(raw), h, Telling(), D, 4);
      SumValue(D, 1, 0, env, Telling());
      NestedValue(env, Telling());
      StoreSees(Expr.BinOp(Add, Sum(D, 1), Const(2)), env, 3);
    }
  }

  lemma NestedValue(env: Value -> Word, m: Machine)
    requires env(D) == 0
    ensures Eval(Expr.BinOp(Add, Sum(D, 1), Const(2)), env, m) == 3
  {
    SumValue(D, 1, 0, env, m);
    assert Eval(Const(2), env, m) == 2;
  }

  lemma StoreSees(e: Tree, env: Value -> Word, x: Word)
    requires Eval(e, env, Telling()) == x != 4
    ensures Eval(Expr.Store(U64, Var(Param(6)), 0, e), env, Telling()) == 0
  {
  }

  lemma ResultDiffers(raw: bool)
    ensures !RunsLike(Chain(raw), Behind(), Start(raw), Result(raw))
  {
    var g, c0, c, m := Chain(raw), Start(raw), Result(raw), Telling();
    var h := RunOf(raw, c0, m);
    RunsAlong(raw, c0, m);
    if MatchedBy(g, Behind(), c0, c, PATH, h, m, Along()) {
      var h' :| IsRun(g, Behind(), c, PATH, h', m, Along()) && SameStart(h, h') &&
        SeenEverywhere(g, c0, c, PATH, h, h');
      SeenAtLast(raw, h, h');
      SameMachine(raw, c0, h, m, 4);
      SameMachine(raw, c, h', m, 4);
      OriginalSees(raw);
      ResultSees(raw, h');
      assert false;
    }
  }

  lemma SeenAtLast(raw: bool, h: History, h': History)
    requires SeenEverywhere(Chain(raw), Start(raw), Result(raw), PATH, h, h')
    ensures Eval(Result(raw).exprs[90], At(h', 4, 0), Then(h', 4, 0)) ==
      Eval(Lifted(raw)[90], At(h, 4, 0), Then(h, 4, 0))
  {
    ResultExpression(raw);
    ChainInstrs(raw, 90);
    assert Located(Chain(raw), 90, PATH[4], 0);
    assert SeenAt(Chain(raw), Start(raw), Result(raw), PATH, h, h', 4, 0, 90);
  }

  /** What the pass returns on the chain does not run like it. */
  lemma PassRunsDiffer(raw: bool, t: Dominators.DominatorTree, p: Program)
    requires t.entry == 0 && Dominators.Converged(Chain(raw), t.rpo, t.rank, t.idom) && Records(raw, p)
    ensures !RunsLike(Chain(raw), Behind(), Start(raw), FoldAll(Start(raw), Gathered(SUMS, Start(raw), t, p, map[])))
  {
    ChainGathers(raw, t, p);
    PassResult(raw);
    ResultDiffers(raw);
  }

  // ----- The pass itself

  lemma ChainIsValid(raw: bool, t: Dominators.DominatorTree, p: Program)
    requires t.entry == 0 && Dominators.Converged(Chain(raw), t.rpo, t.rank, t.idom) && Records(raw, p)
    ensures Valid(Setting(Chain(raw), Before(), Behind(), t, p, Start(raw)))
  {
    ChainWellFormed(raw);
    TreeTellsDominance(Chain(raw), t);
    LiftedIsLifted(raw);
    LiftedMeetsNeeds(Chain(raw), Before(), Lifted(raw));
    LiftedIsLiftedOnce(Chain(raw), Before(), Start(raw));
  }

  lemma SumsWritten(raw: bool)
    ensures AllWritten(Chain(raw), SUMS)
  {
    ChainInstrs(raw, 100);
    ChainInstrs(raw, 50);
    ChainInstrs(raw, 70);
    assert WrittenAt(Chain(raw), D, 0) && WrittenAt(Chain(raw), E, 0) && WrittenAt(Chain(raw), F, 0);
  }

  /** The chain is a setting the pass accepts. */
  lemma ChainSetting(raw: bool, t: Dominators.DominatorTree, p: Program) returns (s: Setting)
    requires t.entry == 0 && Dominators.Converged(Chain(raw), t.rpo, t.rank, t.idom) && Records(raw, p)
    ensures s.g == Chain(raw) && s.outs == Behind() && s.t == t && s.p == p && s.c0 == Start(raw)
    ensures Valid(s) && Stands(s.g, s.outs, s.c0, Start(raw)) && AllWritten(s.g, SUMS)
  {
    s := Setting(Chain(raw), Before(), Behind(), t, p, Start(raw));
    ChainIsValid(raw, t, p);
    StartFaithful(raw);
    SumsWritten(raw);
  }

  lemma ChainNamesReads(raw: bool, b: nat, j: nat)
    requires InChain(b) && j < |Chain(raw).blocks[b].instrs|
    ensures NamesItsReads(Chain(raw).blocks[b].instrs[j].1)
  {
  }

  lemma ChainMentions(raw: bool, p: Program)
    requires Records(raw, p)
    ensures ReadersMention(SUMS, p, Start(raw))
  {
    LiftedIsLifted(raw);
    forall b, j | b in Chain(raw).blocks && 0 <= j < |Chain(raw).blocks[b].instrs|
      ensures NamesItsReads(Chain(raw).blocks[b].instrs[j].1)
    {
      ChainBlocks(raw, b);
      ChainNamesReads(raw, b, j);
    }
    LiftedReadersMention(Chain(raw), Before(), p, Start(raw), SUMS);
  }

  lemma StartIntact(raw: bool, p: Program)
    requires Records(raw, p)
    ensures Intact(Chain(raw), Behind(), Start(raw)) && Recorded(Chain(raw), p, Start(raw))
  {
    ChainWellFormed(raw);
    LiftedIsLifted(raw);
    LiftedMeetsNeeds(Chain(raw), Before(), Lifted(raw));
    LiftedIsRecorded(Chain(raw), Before(), p, Start(raw));
  }

  /** However many rounds the pass takes, what it leaves mentions something lost. */
  lemma PassMisses(raw: bool, s: Setting, n: nat)
    requires s.t.entry == 0 && Dominators.Converged(Chain(raw), s.t.rpo, s.t.rank, s.t.idom) && Records(raw, s.p)
    requires s == Setting(Chain(raw), Before(), Behind(), s.t, s.p, Start(raw)) && n > 0
    ensures Dangling(Chain(raw), Rounds(s, SUMS, map[], Start(raw), n))
  {
    ChainIsValid(raw, s.t, s.p);
    StartFaithful(raw);
    SumsWritten(raw);
    ChainMentions(raw, s.p);
    StartIntact(raw, s.p);
    PassIntactExactly(s, SUMS, map[], Start(raw), n);
    ChainIsNotClean(raw, s.t, s.p, Gathered(SUMS, Start(raw), s.t, s.p, map[]));
  }
}
