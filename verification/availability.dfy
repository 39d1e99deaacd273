/** When what an instruction reads has been defined by then, and freshly lifted code. */
module Availability {
  import opened Instructions
  import opened Graph
  import opened Ssa
  import opened SsaReaching
  import opened Expressions
  import opened Folding
  import opened FoldRuns

  // ----- What reads are available

  /** A phi seen at the start of a block has been passed on every path that has written the
      register before, and on every path when the entry has no predecessors. */
  lemma {:induction false} PhiOnPath(g: Cfg, ins: BlockMap, outs: BlockMap, p: seq<nat>, r: Reg)
    requires WellFormed(g) && Converged(g, ins, outs)
    requires IsPath(g, p) && p[0] == g.entry && p[|p| - 1] in g.blocks
    requires FreshEntry(g) || LastOnPath(g, p[..|p| - 1], r).Some?
    requires ins[p[|p| - 1]][r].Phi?
    ensures ins[p[|p| - 1]][r].block in p
    decreases |p|
  {
    var b := p[|p| - 1];
    assert ConvergedAt(g, ins, outs, b);
    if |p| > 1 && ins[b][r].block != b {
      var q := p[|p| - 2];
      assert Edge(g, q, p[|p| - 1]) && q in g.blocks[b].preds;
      assert ConvergedAt(g, ins, outs, q);
      assert outs[q][r] in Incoming(g, outs, b, r);
      PathPrefix(g, p, |p| - 2);
      PhiOnPath(g, ins, outs, p[..|p| - 1], r);
    }
  }

  /** Whatever value a reachable instruction reads has been defined by then on every run, when
      the register is written on every path there or the entry has no predecessors. */
  lemma ReadsAreAvailable(g: Cfg, ins: BlockMap, outs: BlockMap, b: nat, j: nat, r: Reg)
    requires WellFormed(g) && UniquePcs(g) && Converged(g, ins, outs)
    requires b in g.blocks && j < |g.blocks[b].instrs| && Reachable(g, b)
    requires FreshEntry(g) || DefinitelyWritten(g, b, j, r)
    ensures Available(g, ValueAt(g, ins, b, j, r), b, j)
  {
    var v := ValueAt(g, ins, b, j, r);
    var w :| PathFromTo(g, w, g.entry, b);
    ReachingDefinition(g, ins, outs, w, j, r);
    match v
    case Param(_) =>
    case Undef(_) =>
      UndefNotReached(g, ins, outs, w, j, r);
    case Phi(q, _) =>
      forall p | PathFromTo(g, p, g.entry, b) ensures q in p {
        PhiOnPath(g, ins, outs, p, r);
      }
    case InstrDef(pc, _, d) =>
      PlainUseReads(g, ins, outs, w, j, r, v);
      var i := LastBeforeIsWritten(g, w, j, r);
      if FreshEntry(g) {
        FreshEntryPrecedes(g, ins, outs, b, j, r, v, i);
      } else {
        PlainUsePreceded(g, ins, outs, b, j, r, v, i);
      }
  }

  lemma UndefNotReached(g: Cfg, ins: BlockMap, outs: BlockMap, w: seq<nat>, j: nat, r: Reg)
    requires WellFormed(g) && Converged(g, ins, outs)
    requires IsPath(g, w) && w[0] == g.entry && w[|w| - 1] in g.blocks && j <= |g.blocks[w[|w| - 1]].instrs|
    requires FreshEntry(g) || LastBefore(g, w, j, r).Some?
    ensures !ValueAt(g, ins, w[|w| - 1], j, r).Undef?
  {
    ReachingDefinition(g, ins, outs, w, j, r);
    var v := ValueAt(g, ins, w[|w| - 1], j, r);
    LastOnPathIsOnPath(g, w[..|w| - 1], r);
    match LastBefore(g, w, j, r)
    case Some(d) => if !v.Phi? { OnlyPhisAreFed(g, outs, d, v); }
    case None => if !v.Phi? { OnlyPhisAreFed(g, outs, Param(r), v); }
  }

  lemma {:induction false} LastOnPathIsWritten(g: Cfg, p: seq<nat>, r: Reg) returns (i: nat)
    requires LastOnPath(g, p, r).Some?
    ensures LastOnPath(g, p, r).value.InstrDef? && LastOnPath(g, p, r).value.reg == r
    ensures WrittenAt(g, LastOnPath(g, p, r).value, i)
  {
    var b := p[|p| - 1];
    if b in g.blocks && LastDef(g.blocks[b].instrs, r).Some? {
      LastDefIsLast(g.blocks[b].instrs, r);
      i :| 0 <= i < |g.blocks[b].instrs| && g.blocks[b].instrs[i].0 == LastDef(g.blocks[b].instrs, r).value
        && r in g.blocks[b].instrs[i].1.Defs();
    } else {
      i := LastOnPathIsWritten(g, p[..|p| - 1], r);
    }
  }

  lemma LastBeforeIsWritten(g: Cfg, p: seq<nat>, j: nat, r: Reg) returns (i: nat)
    requires p != [] && p[|p| - 1] in g.blocks && j <= |g.blocks[p[|p| - 1]].instrs|
    requires LastBefore(g, p, j, r).Some?
    ensures LastBefore(g, p, j, r).value.InstrDef? && LastBefore(g, p, j, r).value.reg == r
    ensures WrittenAt(g, LastBefore(g, p, j, r).value, i)
  {
    var b := p[|p| - 1];
    var instrs := g.blocks[b].instrs[..j];
    if LastDef(instrs, r).Some? {
      LastDefIsLast(instrs, r);
      i :| 0 <= i < |instrs| && instrs[i].0 == LastDef(instrs, r).value && r in instrs[i].1.Defs();
    } else {
      i := LastOnPathIsWritten(g, p[..|p| - 1], r);
    }
  }

  // ----- Lifting

  // Where the second result of a host call is kept on the stack.
  const CAPTURE_SLOT: int := -0x108

  /** The expression an instruction is lifted to, when the registers hold the values of m. */
  function Lift(s: Shape, m: RegMap): Tree {
    match s
    case LoadImm(_, v) => Const(v)
    case BinReg(op, _, _, s1, s2) => Expr.BinOp(op, Var(m[s1]), Var(m[s2]))
    case BinImm(op, _, _, src, v) => Expr.BinOp(op, Var(m[src]), Const(v))
    case BinImmRev(op, _, _, src, v) => Expr.BinOp(op, Const(v), Var(m[src]))
    case Unary(op, _, src) => Expr.UnaryOp(op, Var(m[src]))
    case Load(w, _, base, off) =>
      if base == 1 && off == CAPTURE_SLOT && w == U64 then Call("host_call_r8", []) else Expr.Load(w, Var(m[base]), off)
    case Store(w, base, src, off) => Expr.Store(w, Var(m[base]), off, Var(m[src]))
    case LoadAbsolute(w, _, address) => Expr.Load(w, Const(0), address)
    case StoreAbsolute(w, src, address) => Expr.Store(w, Const(0), address, Var(m[src]))
    case Ecalli(_) => Call("ecalli", [])
    case StoreImmInd(_, base, _, _) => Raw("store", [m[base]])
    case CmovReg(_, _, src, cond) => Raw("cmov", [m[cond], m[src]])
    case CmovImm(_, _, cond, _) => Raw("cmov", [m[cond]])
    case JumpInd(reg) => Raw("call_indirect", [m[reg]])
    case LoadImmJumpInd(base, _, _) => Raw("jump_ind", [m[base]])
    case BranchImm(reg, _, _) => Raw("if", [m[reg]])
    case BranchReg(r1, r2, _) => Raw("if", [m[r1], m[r2]])
    case _ => Raw("", [])
  }

  function ValuesAt(g: Cfg, ins: BlockMap, b: nat, j: nat): RegMap
    requires b in g.blocks && b in ins && j <= |g.blocks[b].instrs|
  {
    seq(13, r requires 0 <= r < 13 => ValueAt(g, ins, b, j, r))
  }

  /** Every instruction has its expression, over the values it reads. */
  ghost predicate IsLifted(g: Cfg, ins: BlockMap, orig: map<nat, Tree>) {
    ins.Keys == g.blocks.Keys && forall pc, b: nat, j: nat {:trigger Located(g, pc, b, j)} :: Located(g, pc, b, j) ==>
      pc in orig && orig[pc] == Lift(g.blocks[b].instrs[j].1, ValuesAt(g, ins, b, j))
  }

  /** What the passes rely on: every instruction has an expression, which mentions only values the
      instruction reads; and one without side effects belongs to an instruction that defines one
      register. */
  ghost predicate LiftedFrom(g: Cfg, ins: BlockMap, orig: map<nat, Tree>) {
    ins.Keys == g.blocks.Keys && forall pc, b: nat, j: nat {:trigger Located(g, pc, b, j)} :: Located(g, pc, b, j) ==>
      LiftedAt(g, ins, orig, pc, b, j)
  }

  ghost predicate LiftedAt(g: Cfg, ins: BlockMap, orig: map<nat, Tree>, pc: nat, b: nat, j: nat)
    requires Located(g, pc, b, j) && b in ins
  {
    && pc in orig
    && (forall v :: v in Vars(orig[pc]) ==> ReadsValue(g, ins, b, j, v))
    && (!HasSideEffects(orig[pc]) ==> |g.blocks[b].instrs[j].1.Defs()| == 1)
  }

  ghost predicate ReadsValue(g: Cfg, ins: BlockMap, b: nat, j: nat, v: Value)
    requires b in g.blocks && b in ins && j < |g.blocks[b].instrs|
  {
    exists r: Reg :: r in g.blocks[b].instrs[j].1.Uses() && v == ValueAt(g, ins, b, j, r)
  }

  predicate IsArithmetic(s: Shape) { s.BinReg? || s.BinImm? || s.BinImmRev? || s.Unary? }

  predicate IsMemory(s: Shape) { s.Load? || s.Store? || s.LoadAbsolute? || s.StoreAbsolute? }

  lemma LiftReads(s: Shape, m: RegMap, v: Value)
    requires v in Vars(Lift(s, m))
    ensures exists r: Reg :: r in s.Uses() && v == m[r]
  {
    if IsArithmetic(s) {
      ArithmeticReads(s, m, v);
    } else if IsMemory(s) {
      MemoryReads(s, m, v);
    } else {
      TextReads(s, m, v);
    }
  }

  lemma ArithmeticReads(s: Shape, m: RegMap, v: Value)
    requires IsArithmetic(s) && v in Vars(Lift(s, m))
    ensures exists r: Reg :: r in s.Uses() && v == m[r]
  {
    match s
    case BinReg(op, _, _, s1, s2) =>
      VarsOfBinary(op, Var(m[s1]), Var(m[s2]), v);
      assert s1 in s.Uses() && s2 in s.Uses();
    case BinImm(op, _, _, src, c) =>
      VarsOfBinary(op, Var(m[src]), Const(c), v);
      assert src in s.Uses();
    case BinImmRev(op, _, _, src, c) =>
      VarsOfBinary(op, Const(c), Var(m[src]), v);
      assert src in s.Uses();
    case Unary(_, _, src) =>
      VarOfLeaf(Lift(s, m).operand, m[src], v);
      assert src in s.Uses();
  }

  lemma MemoryReads(s: Shape, m: RegMap, v: Value)
    requires IsMemory(s) && v in Vars(Lift(s, m))
    ensures exists r: Reg :: r in s.Uses() && v == m[r]
  {
    match s
    case Load(_, _, base, _) =>
      if Lift(s, m).Load? { VarOfLeaf(Lift(s, m).base, m[base], v); }
      assert base in s.Uses();
    case Store(_, base, src, _) =>
      if v in Vars(Lift(s, m).base) {
        VarOfLeaf(Lift(s, m).base, m[base], v);
      } else {
        VarOfLeaf(Lift(s, m).stored, m[src], v);
      }
      assert base in s.Uses() && src in s.Uses();
    case LoadAbsolute(w, _, address) => NoVars(w, address);
    case StoreAbsolute(_, src, _) =>
      assert v in Vars(Lift(s, m).base) || v in Vars(Lift(s, m).stored);
      VarOfLeaf(Lift(s, m).stored, m[src], v);
      assert src in s.Uses();
  }

  lemma TextReads(s: Shape, m: RegMap, v: Value)
    requires !IsArithmetic(s) && !IsMemory(s) && v in Vars(Lift(s, m))
    ensures exists r: Reg :: r in s.Uses() && v == m[r]
  {
    match s
    case StoreImmInd(_, base, _, _) => assert base in s.Uses();
    case CmovReg(_, _, src, cond) => assert src in s.Uses() && cond in s.Uses();
    case CmovImm(_, _, cond, _) => assert cond in s.Uses();
    case JumpInd(reg) => assert reg in s.Uses();
    case LoadImmJumpInd(base, _, _) => assert base in s.Uses();
    case BranchImm(reg, _, _) => assert reg in s.Uses();
    case BranchReg(r1, r2, _) => assert r1 in s.Uses() && r2 in s.Uses();
    case _ =>
  }

  predicate NamesItsReads(s: Shape) {
    !s.Ecalli? && !s.Unknown? && !(s.Load? && s.base == 1 && s.offset == CAPTURE_SLOT && s.mem == U64)
  }

  lemma LiftMentions(s: Shape, m: RegMap, r: Reg)
    requires NamesItsReads(s) && r in s.Uses()
    ensures m[r] in Vars(Lift(s, m))
  {
    match s
    case BinReg(_, _, _, s1, s2) => LeafNames(m[s1]); LeafNames(m[s2]);
    case BinImm(_, _, _, src, _) => LeafNames(m[src]);
    case BinImmRev(_, _, _, src, _) => LeafNames(m[src]);
    case Unary(_, _, src) => LeafNames(m[src]);
    case Load(_, _, base, _) => LeafNames(m[base]);
    case Store(_, base, src, _) => LeafNames(m[base]); LeafNames(m[src]);
    case StoreAbsolute(_, src, _) => LeafNames(m[src]);
    case StoreImmInd(_, base, _, _) => assert m[base] in [m[base]];
    case CmovReg(_, _, src, cond) => assert m[cond] in [m[cond], m[src]] && m[src] in [m[cond], m[src]];
    case CmovImm(_, _, cond, _) => assert m[cond] in [m[cond]];
    case JumpInd(reg) => assert m[reg] in [m[reg]];
    case LoadImmJumpInd(base, _, _) => assert m[base] in [m[base]];
    case BranchImm(reg, _, _) => assert m[reg] in [m[reg]];
    case BranchReg(r1, r2, _) => assert m[r1] in [m[r1], m[r2]] && m[r2] in [m[r1], m[r2]];
    case _ =>
  }

  lemma LeafNames(x: Value)
    ensures PlainVars(Var(x)) == {x}
  {
  }

  lemma NoVars(w: MemWidth, address: int)
    ensures Vars<Value>(Expr.Load(w, Const(0), address)) == {}
  {
    assert Vars<Value>(Const(0)) == {};
  }

  lemma VarOfLeaf(e: Tree, x: Value, v: Value)
    requires e == Var(x) && v in Vars(e)
    ensures v == x
  {
  }

  lemma VarsOfBinary(op: BinOp, l: Tree, r: Tree, v: Value)
    requires v in Vars(Expr.BinOp(op, l, r)) && (l.Var? || l.Const?) && (r.Var? || r.Const?)
    ensures l == Var(v) || r == Var(v)
  {
    assert v in Vars(l) || v in Vars(r);
  }

  lemma LiftDefinesOne(s: Shape, m: RegMap)
    requires !HasSideEffects(Lift(s, m))
    ensures |s.Defs()| == 1
  {
  }

  /** Lifting meets what the passes rely on. */
  lemma LiftedMeetsNeeds(g: Cfg, ins: BlockMap, orig: map<nat, Tree>)
    requires IsLifted(g, ins, orig)
    ensures LiftedFrom(g, ins, orig)
  {
    forall pc, b: nat, j: nat | Located(g, pc, b, j) ensures LiftedAt(g, ins, orig, pc, b, j) {
      var s, m := g.blocks[b].instrs[j].1, ValuesAt(g, ins, b, j);
      forall v | v in Vars(orig[pc]) ensures ReadsValue(g, ins, b, j, v) { LiftReads(s, m, v); }
      if !HasSideEffects(orig[pc]) { LiftDefinesOne(s, m); }
    }
  }

  /** Every register a reachable instruction reads is written on every path there, or the entry
      has no predecessors: no read sees what the registers held at first and loses it. */
  ghost predicate ReadsDefined(g: Cfg) {
    FreshEntry(g) ||
    forall b, j, r: Reg {:trigger DefinitelyWritten(g, b, j, r)} ::
      b in g.blocks && Reachable(g, b) && 0 <= j < |g.blocks[b].instrs| && r in g.blocks[b].instrs[j].1.Uses() ==>
        DefinitelyWritten(g, b, j, r)
  }

  /** Freshly lifted code stands for itself, and misses nothing if what is left out defines nothing. */
  lemma LiftedStands(g: Cfg, ins: BlockMap, outs: BlockMap, c0: Code)
    requires WellFormed(g) && UniquePcs(g) && Converged(g, ins, outs) && LiftedFrom(g, ins, c0.exprs)
    requires ReadsDefined(g)
    ensures Stands(g, outs, c0, c0)
    ensures (forall v :: !Lost(g, c0, v)) ==> Intact(g, outs, c0)
  {
    forall pc | pc in c0.exprs ensures StandsAt(g, outs, c0, pc, c0.exprs[pc]) {
      forall b: nat, j: nat | Located(g, pc, b, j) && Reachable(g, b)
        ensures Faithful(g, outs, c0, b, j, c0.exprs[pc], c0.exprs[pc])
      {
        LiftedAvailable(g, ins, outs, c0, pc, b, j);
      }
    }
  }

  lemma LiftedAvailable(g: Cfg, ins: BlockMap, outs: BlockMap, c0: Code, pc: nat, b: nat, j: nat)
    requires WellFormed(g) && UniquePcs(g) && Converged(g, ins, outs) && LiftedFrom(g, ins, c0.exprs)
    requires ReadsDefined(g) && Located(g, pc, b, j) && Reachable(g, b)
    ensures pc in c0.exprs && forall v :: v in Vars(c0.exprs[pc]) ==> Available(g, v, b, j)
  {
    assert LiftedAt(g, ins, c0.exprs, pc, b, j);
    forall v | v in Vars(c0.exprs[pc]) ensures Available(g, v, b, j) {
      assert ReadsValue(g, ins, b, j, v);
      var r: Reg :| r in g.blocks[b].instrs[j].1.Uses() && v == ValueAt(g, ins, b, j, r);
      assert FreshEntry(g) || DefinitelyWritten(g, b, j, r);
      ReadsAreAvailable(g, ins, outs, b, j, r);
    }
  }
}
