/** Why the registers an instruction reads must have been written: a program that jumps back to its
    entry, on which the value graph and the fold go wrong. */
module EntryLoop {
  import opened Instructions
  import opened Graph
  import opened Ssa
  import opened SsaReaching
  import opened Words
  import opened Expressions
  import opened Folding
  import opened FoldRuns
  import opened Availability
  import opened FoldStep
  import opened FoldRound
  import opened FoldPass
  import Simplifier
  import CfgBuild
  import Dominators

  // 0:  r3 = r1 + 1;    jump to 10
  // 10: r1 = r1 ^ r2;   jump to 20
  // 20: r4 = r3 + 7;    jump to 0
  function Blocks3(): seq<Block> {
    [Block(0, 10, [(0, BinImm(Add, W64, 3, 1, 1)), (4, Jump(6))], [10], [20]),
     Block(10, 20, [(10, BinReg(Xor, W64, 1, 1, 2)), (14, Jump(6))], [20], [0]),
     Block(20, 28, [(20, BinImm(Add, W64, 4, 3, 7)), (24, Jump(-24))], [0], [10])]
  }

  function Program3(): Cfg { Cfg(map[0 := Blocks3()[0], 10 := Blocks3()[1], 20 := Blocks3()[2]], 0) }

  const D: Value := InstrDef(0, 3, 0)
  const E: Value := InstrDef(10, 1, 10)
  const F: Value := InstrDef(20, 4, 20)

  function Regs(r1: Value, r3: Value, r4: Value): RegMap {
    [Undef(0), r1, Undef(2), r3, r4, Undef(5), Undef(6), Undef(7), Undef(8), Undef(9), Undef(10), Undef(11), Undef(12)]
  }

  /** Every register has one value throughout: its only definition. */
  function Settled3(): BlockMap {
    map[0 := Regs(E, D, F), 10 := Regs(E, D, F), 20 := Regs(E, D, F)]
  }

  function Lifted3(): map<nat, Tree> {
    map[0 := Expr.BinOp(Add, Var(E), Const(1)), 4 := Raw("", []),
        10 := Expr.BinOp(Xor, Var(E), Var(Undef(2))), 14 := Raw("", []),
        20 := Expr.BinOp(Add, Var(D), Const(7)), 24 := Raw("", [])]
  }

  function Start3(): Code { Code(Lifted3(), {}) }

  // ----- The graph is the one built from its instructions

  function Decoded3(): CfgBuild.Program {
    CfgBuild.Program(
      [(0, BinImm(Add, W64, 3, 1, 1)), (4, Jump(6)), (10, BinReg(Xor, W64, 1, 1, 2)), (14, Jump(6)),
       (20, BinImm(Add, W64, 4, 3, 7)), (24, Jump(-24))],
      28)
  }

  lemma Leaders3()
    ensures CfgBuild.AreLeaders(Decoded3(), {0, 10, 20})
  {
    var p := Decoded3();
    assert CfgBuild.BranchesTo(p.instrs[1], 10) && CfgBuild.BranchesTo(p.instrs[3], 20);
    forall pc ensures pc in {0, 10, 20} <==> CfgBuild.IsLeader(p, pc) {
    }
  }

  lemma Leads3(k: nat, b: nat)
    requires k < 3
    ensures b in Blocks3()[k].succs <==> CfgBuild.Leads(Blocks3(), k, b)
  {
    var bs := Blocks3();
    assert CfgBuild.Starts(bs, bs[0].start) && CfgBuild.Starts(bs, bs[1].start) && CfgBuild.Starts(bs, bs[2].start);
  }

  const CUTS3: seq<nat> := [0, 2, 4, 6]

  lemma Instrs3(k: nat)
    requires k < 3
    ensures var b, instrs := Blocks3()[k], Decoded3().instrs;
      && |instrs| == 6 && b.instrs == [instrs[2 * k], instrs[2 * k + 1]]
      && b.start == instrs[2 * k].0 < instrs[2 * k + 1].0 < b.end
  {
  }

  lemma Piece3(k: nat)
    requires k < 3
    ensures CfgBuild.Piece(Decoded3(), Blocks3()[k], CUTS3[k], CUTS3[k + 1])
    ensures Blocks3()[k].start == Decoded3().instrs[CUTS3[k]].0
  {
    Instrs3(k);
    CfgBuild.PieceOfTwo(Decoded3(), Blocks3()[k], 2 * k);
  }

  lemma Kept3(k: nat)
    requires k < 3
    ensures var b := Blocks3()[k]; b.start in Program3().blocks && Program3().blocks[b.start] == b
  {
  }

  lemma Fits3(p: CfgBuild.Program, g: Cfg, bs: seq<Block>, k: nat)
    requires p == Decoded3() && g == Program3() && bs == Blocks3() && k < 3
    ensures CfgBuild.Fits(p, g, bs, CUTS3, k)
  {
    Piece3(k);
    Kept3(k);
    forall b: nat ensures b in bs[k].succs <==> CfgBuild.Leads(bs, k, b) { Leads3(k, b); }
  }

  lemma AllFit3(p: CfgBuild.Program, g: Cfg, bs: seq<Block>)
    requires p == Decoded3() && g == Program3() && bs == Blocks3()
    ensures |bs| == 3 && forall k: nat {:trigger CfgBuild.Fits(p, g, bs, CUTS3, k)} :: k < 3 ==>
      CfgBuild.Fits(p, g, bs, CUTS3, k)
  {
    forall k: nat | k < 3 ensures CfgBuild.Fits(p, g, bs, CUTS3, k) { Fits3(p, g, bs, k); }
  }

  lemma Tiled3(p: CfgBuild.Program, g: Cfg, bs: seq<Block>)
    requires p == Decoded3() && g == Program3() && bs == Blocks3()
    ensures CfgBuild.Tiled(p, bs, CUTS3) && g.entry == 0 && g.blocks.Keys == {0, 10, 20}
    ensures forall b :: b in {0, 10, 20} ==> CfgBuild.Starts(bs, b)
  {
    assert bs[0].start == 0 && bs[1].start == 10 && bs[2].start == 20;
  }

  lemma Sound3(p: CfgBuild.Program, g: Cfg)
    requires p == Decoded3() && g == Program3()
    ensures WellFormed(g) && CfgBuild.AreLeaders(p, {0, 10, 20})
  {
    WellFormed3();
    Leaders3();
  }

  /** The builder makes this graph of the program. */
  lemma Built3(p: CfgBuild.Program, g: Cfg, bs: seq<Block>)
    requires p == Decoded3() && g == Program3() && bs == Blocks3()
    ensures CfgBuild.Decoded(p) && CfgBuild.Built(p, g, bs, CUTS3) && CfgBuild.CutOnlyAtLeaders(p, bs, CUTS3)
  {
    Sound3(p, g);
    Tiled3(p, g, bs);
    AllFit3(p, g, bs);
    CfgBuild.IsBuilt(p, g, bs, CUTS3, {0, 10, 20});
  }

  /** No expression is a constant or a copy, or one that simplification changes. */
  lemma Simplified3(pc: nat)
    requires pc in Lifted3()
    ensures Simplifier.Simplify(Lifted3()[pc]) == Lifted3()[pc] && !Lifted3()[pc].Const? && !Lifted3()[pc].Var?
  {
  }

  // ----- Its values

  lemma Incoming3(b: nat, r: Reg)
    requires b in Program3().blocks
    ensures Program3().blocks[b].preds != []
    ensures Incoming(Program3(), Settled3(), b, r) == {Settled3()[b][r]}
  {
    var g, s := Program3(), Settled3();
    var q := g.blocks[b].preds[0];
    assert q in g.blocks[b].preds && s[q][r] == s[b][r];
  }

  lemma After3(b: nat, r: Reg)
    requires b in Program3().blocks
    ensures Settled3()[b][r] == After(b, Program3().blocks[b].instrs, Settled3()[b], r)
  {
    var instrs := Program3().blocks[b].instrs;
    LastDefOfOne(instrs[0], r);
    assert instrs[..1] == [instrs[0]];
  }

  lemma Settles3(b: nat)
    requires b in Program3().blocks
    ensures ConvergedAt(Program3(), Settled3(), Settled3(), b)
  {
    var g, s := Program3(), Settled3();
    forall r: Reg
      ensures g.blocks[b].preds != [] && Incoming(g, s, b, r) == {s[b][r]}
      ensures s[b][r] == After(b, g.blocks[b].instrs, s[b], r)
    {
      Incoming3(b, r);
      After3(b, r);
    }
  }

  lemma Converges3()
    ensures Converged(Program3(), Settled3(), Settled3())
  {
    forall b | b in Program3().blocks ensures ConvergedAt(Program3(), Settled3(), Settled3(), b) {
      Settles3(b);
    }
  }

  lemma WellFormed3()
    ensures WellFormed(Program3()) && UniquePcs(Program3())
  {
    var g := Program3();
    assert forall b :: b in g.blocks ==> b in {0, 10, 20};
    assert forall p, b :: Edge(g, p, b) <==> (p, b) in {(0, 10), (10, 20), (20, 0)};
    assert forall b, j :: b in g.blocks && 0 <= j < |g.blocks[b].instrs| ==> g.blocks[b].instrs[j].0 == b + 4 * j;
  }

  /** The first instruction reads a definition that comes after it. */
  lemma UseNotPreceded()
    ensures var g := Program3();
      && WellFormed(g) && UniquePcs(g) && Converged(g, Settled3(), Settled3()) && Reachable(g, 0)
      && WrittenAt(g, E, 0) && ValueAt(g, Settled3(), 0, 0, 1) == E
      && !Precedes(g, E.block, 0, 0, 0)
  {
    var g := Program3();
    WellFormed3();
    Converges3();
    ReachSelf(g, 0);
    assert PathFromTo(g, [0], 0, 0) && E.block !in [0];
  }

  lemma ValueAt3(b: nat)
    requires b in Program3().blocks
    ensures ValuesAt(Program3(), Settled3(), b, 0) == Settled3()[b]
  {
  }

  lemma LiftedAt3(b: nat, j: nat)
    requires b in Program3().blocks && j < |Program3().blocks[b].instrs|
    ensures Program3().blocks[b].instrs[j].0 == b + 4 * j && b + 4 * j in Lifted3()
    ensures Lifted3()[b + 4 * j] == Lift(Program3().blocks[b].instrs[j].1, ValuesAt(Program3(), Settled3(), b, j))
  {
    assert b == 0 || b == 10 || b == 20;
    if j == 0 { ValueAt3(b); }
  }

  /** The expressions are what lifting makes of the program. */
  lemma Lifted3IsLifted()
    ensures IsLifted(Program3(), Settled3(), Lifted3())
  {
    var g := Program3();
    forall pc, b: nat, j: nat | Located(g, pc, b, j)
      ensures pc in Lifted3() && Lifted3()[pc] == Lift(g.blocks[b].instrs[j].1, ValuesAt(g, Settled3(), b, j))
    {
      LiftedAt3(b, j);
    }
  }

  // ----- The pass admits a fold

  ghost predicate Records3(p: Program) {
    ReadsRecorded(Program3(), Settled3(), p) && PhisRecorded(Program3(), Settled3(), p)
  }

  lemma Reads3(b: nat, j: nat, r: Reg)
    requires b in Program3().blocks && j < |Program3().blocks[b].instrs|
    ensures r in Program3().blocks[b].instrs[j].1.Uses() <==>
      j == 0 && ((b == 0 && r == 1) || (b == 10 && (r == 1 || r == 2)) || (b == 20 && r == 3))
    ensures j == 0 ==> ValueAt(Program3(), Settled3(), b, j, r) == Settled3()[b][r]
    ensures Program3().blocks[b].instrs[j].0 == b + 4 * j
  {
  }

  lemma NoMerges3(b: nat, r: Reg, v: Value)
    ensures !IsPhiOperand(Program3(), Settled3(), b, r, v)
  {
    if b in Program3().blocks { Incoming3(b, r); }
  }

  lemma OnlyUse3(p: Program, x: UseSite)
    requires Records3(p) && x in UsesOf(p.uses, D)
    ensures x == AtInstr(20, 3)
  {
    match x
    case AtInstr(pc, q) => OnlyRead3(p, pc, q);
    case AtPhi(b, q) => NoMerges3(b, q, D);
  }

  lemma OnlyRead3(p: Program, pc: nat, q: Reg)
    requires ReadsRecorded(Program3(), Settled3(), p) && AtInstr(pc, q) in UsesOf(p.uses, D)
    ensures pc == 20 && q == 3
  {
    assert IsReadOf(Program3(), Settled3(), D, pc, q);
    var b, j: nat :| ReadsAt(Program3(), b, j, pc, q) && b in Settled3() &&
      ValueAt(Program3(), Settled3(), b, j, q) == D;
    Reads3(b, j, q);
  }

  lemma SingleUse3(p: Program)
    requires Records3(p)
    ensures SingleUse(p, D, 20) && 20 in p.pcToBlock && p.pcToBlock[20] == 20
  {
    var g := Program3();
    Reads3(20, 0, 3);
    assert ReadsAt(g, 20, 0, 20, 3);
    assert UseRecorded(g, Settled3(), p.useOf, p.uses, 20, 0, 20, 3);
    forall x | x in UsesOf(p.uses, D) ensures x == AtInstr(20, 3) { OnlyUse3(p, x); }
    assert UsesOf(p.uses, D) == {AtInstr(20, 3)};
    assert p.pcToBlock[g.blocks[20].instrs[0].0] == 20;
  }

  const PATH3: seq<nat> := [0, 10, 20]

  lemma Path3()
    ensures PathFromTo(Program3(), PATH3, 0, 20) && IsPath(Program3(), PATH3) && Reachable(Program3(), 20)
  {
  }

  lemma TreeOf3(t: Dominators.DominatorTree)
    requires t.entry == 0 && Dominators.Converged(Program3(), t.rpo, t.rank, t.idom)
    ensures Dominators.TreeDominates(t, 0, 20)
  {
    Path3();
    forall p | PathFromTo(Program3(), p, 0, 20) ensures 0 in p { assert p[0] == 0; }
    Dominators.DominatesIsDominance(Program3(), t, 0, 20);
  }

  /** E is read twice and F nowhere. */
  lemma OnlyCandidate3(p: Program, d: Value, u: nat)
    requires Records3(p) && d in {D, E, F} && SingleUse(p, d, u)
    ensures d == D && u == 20
  {
    var q :| UsesOf(p.uses, d) == {AtInstr(u, q)};
    assert AtInstr(u, q) in UsesOf(p.uses, d);
    if d == D {
      OnlyUse3(p, AtInstr(u, q));
    } else if d == E {
      UsedAt3(p, 0);
      UsedAt3(p, 10);
      OneSite(p, E, u, AtInstr(0, 1), AtInstr(10, 1));
    } else {
      NeverRead3(p, u, q);
    }
  }

  lemma OneSite(p: Program, d: Value, u: nat, x: UseSite, y: UseSite)
    requires x in UsesOf(p.uses, d) && y in UsesOf(p.uses, d)
    ensures SingleUse(p, d, u) ==> x == y
  {
    if q :| UsesOf(p.uses, d) == {AtInstr(u, q)} {
      assert x in {AtInstr(u, q)} && y in {AtInstr(u, q)};
    }
  }

  lemma NeverRead3(p: Program, u: nat, q: Reg)
    requires Records3(p)
    ensures AtInstr(u, q) !in UsesOf(p.uses, F)
  {
    forall b, j: nat | ReadsAt(Program3(), b, j, u, q) ensures ValueAt(Program3(), Settled3(), b, j, q) != F {
      Reads3(b, j, q);
    }
    assert AtInstr(u, q) in UsesOf(p.uses, F) ==> IsReadOf(Program3(), Settled3(), F, u, q);
  }

  lemma UsedAt3(p: Program, b: nat)
    requires Records3(p) && (b == 0 || b == 10)
    ensures AtInstr(b, 1) in UsesOf(p.uses, E)
  {
    Reads3(b, 0, 1);
    assert ReadsAt(Program3(), b, 0, b, 1);
    assert UseRecorded(Program3(), Settled3(), p.useOf, p.uses, b, 0, b, 1);
  }

  lemma Ready3(t: Dominators.DominatorTree, p: Program, loopBodies: LoopBodies)
    requires Dominators.TreeDominates(t, 0, 20) && SingleUse(p, D, 20) && 20 in p.pcToBlock && p.pcToBlock[20] == 20
    requires 20 !in loopBodies
    ensures Ready({D, E, F}, Start3(), t, p, loopBodies, D, 20)
  {
    SumIsShallow3();
  }

  lemma SumIsShallow3()
    ensures 0 in Lifted3() && !HasSideEffects(Lifted3()[0]) && Depth(Lifted3()[0]) < 2
  {
    assert Depth(Var(E)) == 0 && Depth<Value>(Const(1)) == 0;
  }

  lemma Gathered3(t: Dominators.DominatorTree, p: Program, loopBodies: LoopBodies)
    requires t.entry == 0 && Dominators.Converged(Program3(), t.rpo, t.rank, t.idom) && Records3(p)
    requires 20 !in loopBodies
    ensures Gathered({D, E, F}, Start3(), t, p, loopBodies) == {(D, 20)}
  {
    var cs := Gathered({D, E, F}, Start3(), t, p, loopBodies);
    SingleUse3(p);
    TreeOf3(t);
    Ready3(t, p, loopBodies);
    OnlyOne3(t, p, loopBodies, cs);
  }

  lemma OnlyOne3(t: Dominators.DominatorTree, p: Program, loopBodies: LoopBodies, cs: set<Candidate>)
    requires Records3(p) && Gathers({D, E, F}, Start3(), t, p, loopBodies, cs)
    requires Ready({D, E, F}, Start3(), t, p, loopBodies, D, 20)
    ensures cs == {(D, 20)}
  {
    assert (D, 20) in cs;
    forall k | k in cs ensures k == (D, 20) { OnlyReady3(t, p, loopBodies, cs, k); }
  }

  lemma OnlyReady3(t: Dominators.DominatorTree, p: Program, loopBodies: LoopBodies, cs: set<Candidate>, k: Candidate)
    requires Records3(p) && Gathers({D, E, F}, Start3(), t, p, loopBodies, cs) && k in cs
    ensures k == (D, 20)
  {
    assert (k.0, k.1) in cs;
    OnlyCandidate3(p, k.0, k.1);
  }

  function Folded3(): Code { FoldOne(Start3(), D, 20) }

  lemma Result3()
    ensures FoldAll(Start3(), {(D, 20)}) == Folded3()
  {
    var cs: set<Candidate> := {(D, 20)};
    assert Lowest(cs, (D, 20)) && LowestOf(cs) == (D, 20);
    assert cs - {(D, 20)} == {};
  }

  // ----- Runs from the entry

  /** r2 holds x, and everything else 0. */
  function Zeroed(x: Word): Value -> Word { (v: Value) => if v == Undef(2) then x else 0 }

  function Along3(): World {
    World((t: nat, j: nat, d: Value, x: Word) => 0, (t: nat, j: nat, x: Word, m: Machine) => m,
      (t: nat, b: nat, x: Word) => if t + 1 < 3 then PATH3[t + 1] else 0)
  }

  /** The first trip from the entry to 20. */
  ghost predicate Trip(c: Code, h: History, m: Machine, x: Word) {
    IsRun(Program3(), Settled3(), c, PATH3, h, m, Along3()) && forall v :: h.at(0, 0, v) == Zeroed(x)(v)
  }

  lemma TripExists(c: Code, m: Machine, x: Word) returns (h: History)
    ensures Trip(c, h, m, x)
  {
    Path3();
    h := ContentHistory(Program3(), Settled3(), c, PATH3, m, Along3(), Zeroed(x));
    HistoriesExist(Program3(), Settled3(), c, PATH3, m, Along3(), Zeroed(x));
  }

  lemma Defines3(b: nat, e: nat, v: Value)
    requires b in Program3().blocks && (v == D || v == E || v == F)
    ensures Defines(Program3(), b, e, v) <==> b == v.block && e == 1
    ensures Events(Program3(), b) == 3
  {
  }

  /** The variables have not changed when the first instruction of 0 runs. */
  lemma AtFirst(c: Code, h: History, m: Machine, x: Word)
    requires Trip(c, h, m, x)
    ensures h.at(0, 1, E) == 0
  {
    Defines3(0, 0, E);
    SteadyInBlock(Program3(), c, PATH3, h, 0, 0, 1, E);
  }

  /** E keeps 0 up to its definition. */
  lemma AtSecond(c: Code, h: History, m: Machine, x: Word)
    requires Trip(c, h, m, x)
    ensures h.at(1, 1, E) == 0 && h.at(1, 1, Undef(2)) == x
  {
    var g := Program3();
    forall e: nat | e < 3 ensures !Defines(g, 0, e, E) { Defines3(0, e, E); }
    Defines3(10, 0, E);
    SteadyInBlock(g, c, PATH3, h, 0, 0, 3, E);
    SteadyInBlock(g, c, PATH3, h, 1, 0, 1, E);
    assert h.at(0 + 1, 0, E) == h.at(0, Events(g, PATH3[0]), E);
    Untouched(g, c, PATH3, h, Undef(2), 1, 1);
  }

  lemma FromDefinition(c: Code, h: History, m: Machine, x: Word, t: nat, v: Value)
    requires Trip(c, h, m, x) && t < 2 && ((t == 0 && v == D) || (t == 1 && v == E))
    ensures h.at(2, 1, v) == h.at(t, 2, v)
  {
    var g := Program3();
    forall e: nat | 2 <= e < 3 ensures !Defines(g, PATH3[t], e, v) { Defines3(PATH3[t], e, v); }
    Defines3(20, 1, v);
    Defines3(PATH3[t], 1, v);
    Steady(g, c, PATH3, h, t, 2, 2, 1, v);
  }

  /** In the original D was computed before E was, from what E's variable held at first. */
  lemma FirstHolds(h: History, m: Machine, x: Word)
    requires Trip(Start3(), h, m, x)
    ensures At(h, 2, 0)(D) == 1
  {
    var g, c := Program3(), Start3();
    AtFirst(c, h, m, x);
    assert WrittenIn(g, PATH3, 0, D, 0);
    assert h.at(0, 0 + 2, D) == Stored(c, At(h, 0, 0), Then(h, 0, 0), Along3(), 0, 0, D);
    SumOfE(At(h, 0, 0), Then(h, 0, 0));
    FromDefinition(c, h, m, x, 0, D);
  }

  /** By 20 E holds what r2 did, as long as 10 is kept as it was. */
  lemma SecondHolds(c: Code, h: History, m: Machine, x: Word)
    requires Trip(c, h, m, x) && 10 !in c.gone && 10 in c.exprs && c.exprs[10] == Expr.BinOp(Xor, Var(E), Var(Undef(2)))
    ensures At(h, 2, 0)(E) == x
  {
    var g := Program3();
    AtSecond(c, h, m, x);
    assert WrittenIn(g, PATH3, 1, E, 0);
    assert h.at(1, 0 + 2, E) == Stored(c, At(h, 1, 0), Then(h, 1, 0), Along3(), 1, 0, E);
    XorOfZero(At(h, 1, 0), Then(h, 1, 0), x);
    FromDefinition(c, h, m, x, 1, E);
  }

  lemma XorOfZero(env: Value -> Word, m: Machine, x: Word)
    requires env(E) == 0 && env(Undef(2)) == x
    ensures Eval(Expr.BinOp(Xor, Var(E), Var(Undef(2))), env, m) == x
  {
    BitwiseWithZero(Xor, x);
    assert Eval(Var(E), env, m) == 0 && Eval(Var(Undef(2)), env, m) == x;
  }

  lemma SumOfE(env: Value -> Word, m: Machine)
    ensures Eval(Lifted3()[0], env, m) == ToWord(env(E) + 1)
  {
    assert Eval(Var(E), env, m) == env(E) && Eval(Const(1), env, m) == 1;
  }

  lemma OriginalAtUse(h: History, m: Machine, x: Word)
    requires Trip(Start3(), h, m, x)
    ensures Eval(Lifted3()[20], At(h, 2, 0), Then(h, 2, 0)) == 8
  {
    FirstHolds(h, m, x);
    assert Eval(Var(D), At(h, 2, 0), Then(h, 2, 0)) == 1 && Eval(Const(7), At(h, 2, 0), Then(h, 2, 0)) == 7;
  }

  lemma FoldedExpression()
    ensures Folded3().exprs[20] == Expr.BinOp(Add, Lifted3()[0], Const(7))
    ensures Folded3().exprs[10] == Lifted3()[10] && Folded3().gone == {0}
  {
    assert Substitute(Lifted3()[20], D, Lifted3()[0]) == Expr.BinOp(Add, Lifted3()[0], Const(7));
  }

  lemma FoldedAtUse(h: History, m: Machine, x: Word)
    requires Trip(Folded3(), h, m, x)
    ensures Eval(Folded3().exprs[20], At(h, 2, 0), Then(h, 2, 0)) == ToWord(ToWord(x + 1) + 7)
  {
    FoldedExpression();
    SecondHolds(Folded3(), h, m, x);
    FoldedValue(At(h, 2, 0), Then(h, 2, 0), x);
  }

  lemma FoldedValue(env: Value -> Word, m: Machine, x: Word)
    requires env(E) == x
    ensures Eval(Expr.BinOp(Add, Lifted3()[0], Const(7)), env, m) == ToWord(ToWord(x + 1) + 7)
  {
    SumOfE(env, m);
    assert Eval(Const(7), env, m) == 7;
  }

  lemma SumsDiffer(x: Word)
    requires x != 0
    ensures ToWord(ToWord(x + 1) + 7) != 8
  {
  }

  /** Whatever tree and tables the earlier passes end with, the pass folds D into 20 and nothing else;
      and on the first trip, with any contents of r2 but 0, 20 then comes to something else. */
  lemma FoldChangesValue(t: Dominators.DominatorTree, p: Program, loopBodies: LoopBodies, h: History, h': History,
      m: Machine, x: Word)
    requires t.entry == 0 && Dominators.Converged(Program3(), t.rpo, t.rank, t.idom) && Records3(p)
    requires 20 !in loopBodies && x != 0
    requires Trip(Start3(), h, m, x)
    requires Trip(FoldAll(Start3(), Gathered({D, E, F}, Start3(), t, p, loopBodies)), h', m, x)
    ensures FoldAll(Start3(), Gathered({D, E, F}, Start3(), t, p, loopBodies)) == Folded3()
    ensures Eval(Lifted3()[20], At(h, 2, 0), Then(h, 2, 0)) != Eval(Folded3().exprs[20], At(h', 2, 0), Then(h', 2, 0))
  {
    Gathered3(t, p, loopBodies);
    Result3();
    OriginalAtUse(h, m, x);
    FoldedAtUse(h', m, x);
    SumsDiffer(x);
  }

  /** So what the pass returns does not run like the program. */
  lemma PassRunsDiffer3(t: Dominators.DominatorTree, p: Program, loopBodies: LoopBodies)
    requires t.entry == 0 && Dominators.Converged(Program3(), t.rpo, t.rank, t.idom) && Records3(p)
    requires 20 !in loopBodies
    ensures var c := FoldAll(Start3(), Gathered({D, E, F}, Start3(), t, p, loopBodies));
      !RunsLike(Program3(), Settled3(), Start3(), c)
  {
    Gathered3(t, p, loopBodies);
    Result3();
    Folded3Differs();
  }

  lemma Folded3Differs()
    ensures !RunsLike(Program3(), Settled3(), Start3(), Folded3())
  {
    var m := Machine((op, x, y) => 0, (op, x) => 0, (w, a) => 0, (w, a, x) => 0, (f, xs) => 0, (t, xs) => 0);
    var h := TripExists(Start3(), m, 1);
    NotMatched(h, m);
  }

  lemma NotMatched(h: History, m: Machine)
    requires Trip(Start3(), h, m, 1)
    ensures !MatchedBy(Program3(), Settled3(), Start3(), Folded3(), PATH3, h, m, Along3())
  {
    forall h' | IsRun(Program3(), Settled3(), Folded3(), PATH3, h', m, Along3()) && SameStart(h, h')
      ensures !SeenEverywhere(Program3(), Start3(), Folded3(), PATH3, h, h')
    {
      TripsDiffer(h, h', m);
    }
  }

  lemma TripsDiffer(h: History, h': History, m: Machine)
    requires Trip(Start3(), h, m, 1) && Trip(Folded3(), h', m, 1)
    ensures !SeenEverywhere(Program3(), Start3(), Folded3(), PATH3, h, h')
  {
    ValuesDiffer(h, h', m);
    SeenApart(h, h');
  }

  lemma ValuesDiffer(h: History, h': History, m: Machine)
    requires Trip(Start3(), h, m, 1) && Trip(Folded3(), h', m, 1)
    ensures Eval(Lifted3()[20], At(h, 2, 0), Then(h, 2, 0)) != Eval(Folded3().exprs[20], At(h', 2, 0), Then(h', 2, 0))
  {
    OriginalAtUse(h, m, 1);
    FoldedAtUse(h', m, 1);
    SumsDiffer(1);
  }

  lemma SeenApart(h: History, h': History)
    requires Eval(Lifted3()[20], At(h, 2, 0), Then(h, 2, 0)) != Eval(Folded3().exprs[20], At(h', 2, 0), Then(h', 2, 0))
    ensures !SeenEverywhere(Program3(), Start3(), Folded3(), PATH3, h, h')
  {
    if SeenEverywhere(Program3(), Start3(), Folded3(), PATH3, h, h') { SeenAtUse(h, h'); }
  }

  lemma SeenAtUse(h: History, h': History)
    requires SeenEverywhere(Program3(), Start3(), Folded3(), PATH3, h, h')
    ensures Eval(Folded3().exprs[20], At(h', 2, 0), Then(h', 2, 0)) == Eval(Lifted3()[20], At(h, 2, 0), Then(h, 2, 0))
  {
    FoldedExpression();
    assert Located(Program3(), 20, PATH3[2], 0);
    assert SeenAt(Program3(), Start3(), Folded3(), PATH3, h, h', 2, 0, 20);
  }
}
