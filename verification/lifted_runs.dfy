/** What lifted expressions compute, and runs of the instructions as runs of freshly lifted code. */
module LiftedRuns {
  import opened Instructions
  import opened Graph
  import opened Words
  import opened Ssa
  import opened SsaReaching
  import opened Expressions
  import opened Semantics
  import opened Folding
  import opened FoldRuns
  import opened Availability

  // ----- One instruction

  /** Instructions whose lifted expression comes to what they write. */
  predicate Computed(s: Shape) {
    || s.LoadImm? || s.BinReg? || s.BinImm? || s.BinImmRev? || s.Unary? || s.LoadAbsolute?
    || (s.Load? && !(s.base == 1 && s.offset == CAPTURE_SLOT && s.mem == U64))
  }

  /** The registers the values of m stand for. */
  function RegsOf(m: RegMap, env: Value -> Word): Registers { (r: Reg) => env(m[r]) }

  /** A 32-bit form that comes to what its 64-bit operator does, since lifting drops the width; or growing the heap,
      if what that returns depends on the operand alone. */
  predicate Fits(s: Shape, regs: Registers, m: Machine, fx: Effects) {
    match s
    case BinReg(op, W32, _, a, b) => fx.narrow(op, regs(a), regs(b)) == BinValue(op, regs(a), regs(b), m.other)
    case BinImm(op, W32, _, a, v) => fx.narrow(op, regs(a), ToWord(v)) == BinValue(op, regs(a), ToWord(v), m.other)
    case BinImmRev(op, W32, _, a, v) => fx.narrow(op, ToWord(v), regs(a)) == BinValue(op, ToWord(v), regs(a), m.other)
    case Unary(Sbrk, _, a) => fx.top(regs(a), m) == m.unary(Sbrk, regs(a))
    case _ => true
  }

  /** The lifted expression comes to what the instruction writes exactly when its width, or the state of the heap,
      does not matter. */
  lemma LiftComputes(s: Shape, vals: RegMap, env: Value -> Word, m: Machine, fx: Effects, r: Reg)
    requires Computed(s)
    ensures Yields(Lift(s, vals))
    ensures Eval(Lift(s, vals), env, m) == Written(s, RegsOf(vals, env), m, fx, r) <==>
      Fits(s, RegsOf(vals, env), m, fx)
  {
    match s
    case BinReg(op, _, _, a, b) => EvalOperator(op, Var(vals[a]), Var(vals[b]), env, m);
    case BinImm(op, _, _, a, v) => EvalOperator(op, Var(vals[a]), Const(v), env, m);
    case BinImmRev(op, _, _, a, v) => EvalOperator(op, Const(v), Var(vals[a]), env, m);
    case Unary(_, _, a) => assert Eval(Var(vals[a]), env, m) == env(vals[a]);
    case Load(_, _, base, _) => assert Eval(Var(vals[base]), env, m) == env(vals[base]);
    case LoadAbsolute(_, _, _) => assert Eval<Value>(Const(0), env, m) == 0;
    case _ =>
  }

  lemma EvalOperator(op: BinOp, l: Tree, r: Tree, env: Value -> Word, m: Machine)
    ensures Eval(Expr.BinOp(op, l, r), env, m) == BinValue(op, Eval(l, env, m), Eval(r, env, m), m.other)
  {
  }

  /** A store's expression names the address stored to and the value stored. */
  lemma LiftedStore(s: Shape, vals: RegMap, env: Value -> Word, m: Machine)
    requires s.Store? || s.StoreAbsolute?
    ensures var regs := RegsOf(vals, env);
      Eval(Lift(s, vals), env, m) ==
        if s.Store? then m.store(s.mem, Address(regs(s.base), s.offset), regs(s.src))
        else m.store(s.mem, s.address % TWO_32, regs(s.src))
  {
    assert Eval(Var(vals[s.src]), env, m) == env(vals[s.src]);
    if s.Store? { assert Eval(Var(vals[s.base]), env, m) == env(vals[s.base]); }
    assert Eval<Value>(Const(0), env, m) == 0;
  }

  /** The text of a jump or branch shows what decides it. */
  lemma LiftedControl(s: Shape, vals: RegMap, env: Value -> Word)
    requires Deciding(s, RegsOf(vals, env)) != []
    ensures Lift(s, vals).Raw? && Contents(Lift(s, vals).names, env) == Deciding(s, RegsOf(vals, env))
  {
    match s
    case JumpInd(a) => ContentsOfOne(vals[a], env);
    case LoadImmJumpInd(a, _, _) => ContentsOfOne(vals[a], env);
    case BranchImm(a, _, _) => ContentsOfOne(vals[a], env);
    case BranchReg(a, b, _) => ContentsOfTwo(vals[a], vals[b], env);
  }

  lemma ContentsOfTwo(x: Value, y: Value, env: Value -> Word)
    ensures Contents([x, y], env) == [env(x), env(y)]
  {
    assert [x, y][1..] == [y];
    ContentsOfOne(y, env);
    assert Contents([x, y], env) == [env(x)] + Contents([x, y][1..], env);
  }

  /** A 32-bit addition that wraps is lifted to a 64-bit one that does not. */
  lemma WidthIsDropped(vals: RegMap, env: Value -> Word, m: Machine, fx: Effects)
    requires env(vals[1]) == 0xffff_ffff && fx.narrow(Add, 0xffff_ffff, 1) == 0
    ensures Written(BinImm(Add, W32, 2, 1, 1), RegsOf(vals, env), m, fx, 2) == 0
    ensures Eval(Lift(BinImm(Add, W32, 2, 1, 1), vals), env, m) == 0x1_0000_0000
  {
    EvalOperator(Add, Var(vals[1]), Const(1), env, m);
    assert Eval(Var(vals[1]), env, m) == 0xffff_ffff && Eval<Value>(Const(1), env, m) == 1;
  }

  /** Growing the heap twice by as much returns two addresses, and is lifted to expressions that come to one. */
  lemma GrowthIsDropped(vals: RegMap, env: Value -> Word, m: Machine, fx: Effects)
    requires var m' := Becomes(Unary(Sbrk, 2, 1), RegsOf(vals, env), m, fx);
      fx.top(env(vals[1]), m') != fx.top(env(vals[1]), m)
    ensures var s, m' := Unary(Sbrk, 2, 1), Becomes(Unary(Sbrk, 2, 1), RegsOf(vals, env), m, fx);
      && Written(s, RegsOf(vals, env), m', fx, 2) != Written(s, RegsOf(vals, env), m, fx, 2)
      && !HasSideEffects(Lift(s, vals)) && Eval(Lift(s, vals), env, m') == Eval(Lift(s, vals), env, m)
  {
    var s, m' := Unary(Sbrk, 2, 1), Becomes(Unary(Sbrk, 2, 1), RegsOf(vals, env), m, fx);
    PureIgnoresState(Lift(s, vals), env, m', m);
  }

  /** Nothing with a pure expression acts on the machine, but growing the heap does. */
  lemma PureLeavesMachine(s: Shape, vals: RegMap, regs: Registers, m: Machine, fx: Effects)
    requires !HasSideEffects(Lift(s, vals)) && !IsSbrk(s)
    ensures Becomes(s, regs, m, fx) == m
  {
  }

  // ----- Runs of the instructions

  /** The registers and the machine just before event e of the t-th block, counted as for lifted code. */
  datatype RegRun = RegRun(at: (nat, nat, Reg) -> Word, machine: (nat, nat) -> Machine)

  function RegsAt(rr: RegRun, t: nat, e: nat): Registers { (r: Reg) => rr.at(t, e, r) }

  ghost predicate Same(rr: RegRun, t: nat, e: nat, t': nat, e': nat) {
    rr.machine(t', e') == rr.machine(t, e) && forall r: Reg :: rr.at(t', e', r) == rr.at(t, e, r)
  }

  /** Entering a block does nothing; instruction j does what it does. */
  ghost predicate StepsAt(g: Cfg, p: seq<nat>, rr: RegRun, fx: Effects, t: nat, e: nat)
    requires t < |p| && e < Events(g, p[t])
  {
    if e == 0 then Same(rr, t, 0, t, 1)
    else
      var s := g.blocks[p[t]].instrs[e - 1].1;
      && rr.machine(t, e + 1) == Becomes(s, RegsAt(rr, t, e), rr.machine(t, e), fx)
      && forall r: Reg :: rr.at(t, e + 1, r) == Next(s, RegsAt(rr, t, e), rr.machine(t, e), fx)(r)
  }

  ghost predicate IsRegRun(g: Cfg, p: seq<nat>, rr: RegRun, fx: Effects) {
    && IsPath(g, p) && p[0] == g.entry
    && (forall t: nat, e: nat {:trigger StepsAt(g, p, rr, fx, t, e)} :: t < |p| && e < Events(g, p[t]) ==>
      StepsAt(g, p, rr, fx, t, e))
    && forall t: nat, k: nat {:trigger Same(rr, t, Events(g, p[t]), k, 0)} :: k == t + 1 && k < |p| ==>
      Same(rr, t, Events(g, p[t]), k, 0)
  }

  /** Lifting loses nothing: 32-bit forms come to what their 64-bit operators do, and growing the heap leaves the
      machine as it is and returns what its operand says. */
  ghost predicate AllFit(g: Cfg, p: seq<nat>, rr: RegRun, fx: Effects) {
    forall t: nat, e: nat {:trigger rr.machine(t, e)} :: t < |p| && 0 < e < Events(g, p[t]) ==>
      FitsHere(g.blocks[p[t]].instrs[e - 1].1, RegsAt(rr, t, e), rr.machine(t, e), fx)
  }

  ghost predicate FitsHere(s: Shape, regs: Registers, m: Machine, fx: Effects) {
    Fits(s, regs, m, fx) && (IsSbrk(s) ==> Becomes(s, regs, m, fx) == m)
  }

  /** r has been written before event e of the t-th block. */
  ghost predicate WrittenBefore(g: Cfg, p: seq<nat>, t: nat, e: nat, r: Reg)
    requires t < |p| && e <= Events(g, p[t])
    decreases t, e
  {
    if e == 0 then t > 0 && WrittenBefore(g, p, t - 1, Events(g, p[t - 1]), r)
    else WrittenBefore(g, p, t, e - 1, r) || (e > 1 && r in g.blocks[p[t]].instrs[e - 2].1.Defs())
  }

  /** The value graph has not lost track of r: it has been written, or the entry has no predecessors. */
  ghost predicate Known(g: Cfg, p: seq<nat>, t: nat, e: nat, r: Reg)
    requires t < |p| && e <= Events(g, p[t])
  {
    FreshEntry(g) || WrittenBefore(g, p, t, e, r)
  }

  /** The value r has then, according to the value graph. */
  ghost function ValueThen(g: Cfg, ins: BlockMap, outs: BlockMap, p: seq<nat>, t: nat, e: nat, r: Reg): Value
    requires t < |p| && p[t] in g.blocks && e <= Events(g, p[t]) && p[t] in ins && (t > 0 ==> p[t - 1] in outs)
  {
    if e > 0 then ValueAt(g, ins, p[t], e - 1, r) else if t == 0 then Param(r) else outs[p[t - 1]][r]
  }

  /** The world in which lifted code runs as the instructions do: it supplies what expressions do not compute. */
  ghost function WorldOf(p: seq<nat>, rr: RegRun): World {
    World(
      (t: nat, j: nat, d: Value, x: Word) => rr.at(t, j + 2, d.reg),
      (t: nat, j: nat, x: Word, m: Machine) => rr.machine(t, j + 2),
      (t: nat, b: nat, x: Word) => if t + 1 < |p| then p[t + 1] else 0)
  }

  ghost function LiftedHistory(g: Cfg, outs: BlockMap, c0: Code, p: seq<nat>, rr: RegRun): History {
    ContentHistory(g, outs, c0, p, rr.machine(0, 0), WorldOf(p, rr),
      (v: Value) => if v.Param? then rr.at(0, 0, v.reg) else 0)
  }

  ghost predicate Context(g: Cfg, ins: BlockMap, outs: BlockMap, c0: Code, p: seq<nat>, rr: RegRun, fx: Effects,
      h: History) {
    && WellFormed(g) && UniquePcs(g) && g.entry in g.blocks && Converged(g, ins, outs)
    && IsLifted(g, ins, c0.exprs) && c0.gone == {} && ReadsDefined(g)
    && IsRegRun(g, p, rr, fx) && AllFit(g, p, rr, fx)
    && IsHistory(g, outs, c0, p, h, rr.machine(0, 0), WorldOf(p, rr))
    && forall r: Reg :: h.at(0, 0, Param(r)) == rr.at(0, 0, r)
  }

  /** Lifted code is where the instructions are: the machine is in the same state, and what the value graph says r
      is holds what r does. */
  ghost predicate Tracks(g: Cfg, ins: BlockMap, outs: BlockMap, p: seq<nat>, rr: RegRun, h: History, t: nat, e: nat)
    requires t < |p| && p[t] in g.blocks && e <= Events(g, p[t]) && p[t] in ins && (t > 0 ==> p[t - 1] in outs)
  {
    && h.machine(t, e) == rr.machine(t, e)
    && forall r: Reg {:trigger HoldsAt(g, ins, outs, p, rr, h, t, e, r)} :: HoldsAt(g, ins, outs, p, rr, h, t, e, r)
  }

  ghost predicate HoldsAt(g: Cfg, ins: BlockMap, outs: BlockMap, p: seq<nat>, rr: RegRun, h: History, t: nat, e: nat,
      r: Reg)
    requires t < |p| && p[t] in g.blocks && e <= Events(g, p[t]) && p[t] in ins && (t > 0 ==> p[t - 1] in outs)
  {
    Known(g, p, t, e, r) ==>
      var v := ValueThen(g, ins, outs, p, t, e, r);
      !v.Undef? && v.reg == r && h.at(t, e, v) == rr.at(t, e, r)
  }

  lemma {:induction false} OnPathInBlocks(g: Cfg, p: seq<nat>, t: nat)
    requires WellFormed(g) && IsPath(g, p) && p[0] in g.blocks && t < |p|
    ensures p[t] in g.blocks
  {
    if t > 0 {
      OnPathInBlocks(g, p, t - 1);
      assert Edge(g, p[t - 1], p[t]);
    }
  }

  lemma PathFacts(g: Cfg, ins: BlockMap, outs: BlockMap, c0: Code, p: seq<nat>, rr: RegRun, fx: Effects, h: History,
      t: nat)
    requires Context(g, ins, outs, c0, p, rr, fx, h) && t < |p|
    ensures p[t] in g.blocks && p[t] in ins && (t > 0 ==> p[t - 1] in outs && p[t - 1] in g.blocks && p[t - 1] in ins)
    ensures ConvergedAt(g, ins, outs, p[t]) && (t > 0 ==> ConvergedAt(g, ins, outs, p[t - 1]))
  {
    OnPathInBlocks(g, p, t);
    if t > 0 { OnPathInBlocks(g, p, t - 1); }
    assert ConvergedAt(g, ins, outs, p[t]);
  }

  lemma TracksAtFirst(g: Cfg, ins: BlockMap, outs: BlockMap, c0: Code, p: seq<nat>, rr: RegRun, fx: Effects, h: History)
    requires Context(g, ins, outs, c0, p, rr, fx, h) && p[0] in g.blocks && p[0] in ins
    ensures Tracks(g, ins, outs, p, rr, h, 0, 0)
  {
  }

  lemma TracksNextBlock(g: Cfg, ins: BlockMap, outs: BlockMap, c0: Code, p: seq<nat>, rr: RegRun, fx: Effects,
      h: History, t: nat)
    requires Context(g, ins, outs, c0, p, rr, fx, h) && t + 1 < |p| && p[t] in g.blocks && p[t] in ins && p[t] in outs
    requires p[t + 1] in g.blocks && p[t + 1] in ins && (t > 0 ==> p[t - 1] in outs)
    requires Tracks(g, ins, outs, p, rr, h, t, Events(g, p[t]))
    ensures Tracks(g, ins, outs, p, rr, h, t + 1, 0)
  {
    var b, n := p[t], Events(g, p[t]);
    assert ConvergedAt(g, ins, outs, b);
    assert g.blocks[b].instrs[..|g.blocks[b].instrs|] == g.blocks[b].instrs;
    var k := t + 1;
    assert h.machine(k, 0) == h.machine(t, n);
    assert Same(rr, t, n, k, 0);
    forall r: Reg ensures HoldsAt(g, ins, outs, p, rr, h, k, 0, r) {
      var v := outs[b][r];
      assert HoldsAt(g, ins, outs, p, rr, h, t, n, r) && v == ValueThen(g, ins, outs, p, t, n, r);
      assert h.at(t + 1, 0, v) == h.at(t, n, v);
    }
  }

  lemma TracksEnter(g: Cfg, ins: BlockMap, outs: BlockMap, c0: Code, p: seq<nat>, rr: RegRun, fx: Effects,
      h: History, t: nat)
    requires Context(g, ins, outs, c0, p, rr, fx, h) && t < |p| && p[t] in g.blocks && p[t] in ins
    requires t > 0 ==> p[t - 1] in outs
    requires Tracks(g, ins, outs, p, rr, h, t, 0)
    ensures Tracks(g, ins, outs, p, rr, h, t, 1)
  {
    assert StepsAt(g, p, rr, fx, t, 0);
    assert Evolved(g, c0, p, h, WorldOf(p, rr), t, 0);
    forall r: Reg ensures HoldsAt(g, ins, outs, p, rr, h, t, 1, r) {
      assert HoldsAt(g, ins, outs, p, rr, h, t, 0, r);
      if Known(g, p, t, 1, r) { ValueEnters(g, ins, outs, c0, p, rr, fx, h, t, r); }
    }
  }

  /** What comes in is what the block before left, or the phi that takes it. */
  lemma ValueEnters(g: Cfg, ins: BlockMap, outs: BlockMap, c0: Code, p: seq<nat>, rr: RegRun, fx: Effects,
      h: History, t: nat, r: Reg)
    requires Context(g, ins, outs, c0, p, rr, fx, h) && t < |p| && p[t] in g.blocks && p[t] in ins
    requires t > 0 ==> p[t - 1] in outs
    requires HoldsAt(g, ins, outs, p, rr, h, t, 0, r) && Known(g, p, t, 0, r)
    ensures ValueThen(g, ins, outs, p, t, 1, r) == ins[p[t]][r] && !ins[p[t]][r].Undef? && ins[p[t]][r].reg == r
    ensures h.at(t, 1, ins[p[t]][r]) == h.at(t, 0, ValueThen(g, ins, outs, p, t, 0, r))
  {
    var b := p[t];
    var v := ins[b][r];
    assert g.blocks[b].instrs[..0] == [];
    PathFacts(g, ins, outs, c0, p, rr, fx, h, t);
    if t == 0 {
      assert v == Param(r) && !Defines(g, b, 0, v);
      assert h.at(0, 0 + 1, v) == h.at(0, 0, v);
    } else {
      var q := p[t - 1];
      assert Edge(g, q, p[t]);
      assert q in g.blocks[b].preds && outs[q][r] in Incoming(g, outs, b, r);
      if |Incoming(g, outs, b, r)| > 1 {
        assert v == Phi(b, r) && JoinsAt(g, outs, p, h, t, v) && Meets(g, outs, p, t, v);
      } else {
        assert v == outs[q][r];
        PassesThrough(g, outs, c0, p, h, rr, t, v);
      }
    }
  }

  /** Entering a block changes nothing but the phis where several values meet. */
  lemma PassesThrough(g: Cfg, outs: BlockMap, c0: Code, p: seq<nat>, h: History, rr: RegRun, t: nat, v: Value)
    requires Frame(g, c0, p, h) && Joins(g, outs, p, h) && t < |p| && p[t] in g.blocks
    requires v.Phi? && v.block == p[t] ==> |Incoming(g, outs, p[t], v.reg)| <= 1
    ensures h.at(t, 1, v) == h.at(t, 0, v)
  {
    if v.Phi? && v.block == p[t] {
      assert JoinsAt(g, outs, p, h, t, v) && !Meets(g, outs, p, t, v);
    } else {
      assert !Defines(g, p[t], 0, v);
      assert h.at(t, 0 + 1, v) == h.at(t, 0, v);
    }
  }

  // ----- Registers the value graph has not lost

  lemma {:induction false} PassedIsWritten(g: Cfg, p: seq<nat>, t: nat, e: nat, r: Reg)
    requires t < |p| && p[t] in g.blocks && 0 < e <= Events(g, p[t])
    requires t > 0 ==> (LastOnPath(g, p[..t], r).Some? ==> WrittenBefore(g, p, t - 1, Events(g, p[t - 1]), r))
    requires LastDef(g.blocks[p[t]].instrs[..e - 1], r).Some? || LastOnPath(g, p[..t], r).Some?
    ensures WrittenBefore(g, p, t, e, r)
    decreases e
  {
    if e == 1 {
      assert WrittenBefore(g, p, t, 0, r);
    } else {
      var instrs := g.blocks[p[t]].instrs[..e - 1];
      assert instrs[..e - 2] == g.blocks[p[t]].instrs[..e - 2] && instrs[e - 2] == g.blocks[p[t]].instrs[e - 2];
      if r !in instrs[e - 2].1.Defs() { PassedIsWritten(g, p, t, e - 1, r); }
    }
  }

  lemma {:induction false} OnPathIsWritten(g: Cfg, p: seq<nat>, t: nat, r: Reg)
    requires t < |p| && LastOnPath(g, p[..t + 1], r).Some?
    ensures WrittenBefore(g, p, t, Events(g, p[t]), r)
  {
    assert p[..t + 1][..t] == p[..t];
    if t > 0 && LastOnPath(g, p[..t], r).Some? { OnPathIsWritten(g, p, t - 1, r); }
    if p[t] in g.blocks {
      var instrs := g.blocks[p[t]].instrs;
      assert instrs[..|instrs|] == instrs;
      PassedIsWritten(g, p, t, Events(g, p[t]), r);
    } else {
      assert WrittenBefore(g, p, t, 0, r);
    }
  }

  /** What an instruction reads has been written, or the entry has no predecessors. */
  lemma ReadsAreKnown(g: Cfg, p: seq<nat>, t: nat, j: nat, u: Reg)
    requires ReadsDefined(g) && IsPath(g, p) && p[0] == g.entry && t < |p| && p[t] in g.blocks
    requires j < |g.blocks[p[t]].instrs| && u in g.blocks[p[t]].instrs[j].1.Uses()
    ensures Known(g, p, t, j + 1, u)
  {
    if !FreshEntry(g) {
      var q := p[..t + 1];
      PathPrefix(g, p, t);
      assert DefinitelyWritten(g, p[t], j, u);
      assert LastBefore(g, q, j, u).Some? && q[..|q| - 1] == p[..t];
      if LastOnPath(g, p[..t], u).Some? { OnPathIsWritten(g, p, t - 1, u); }
      PassedIsWritten(g, p, t, j + 1, u);
    }
  }

  // ----- One instruction of a run

  lemma FitsAlike(s: Shape, regs: Registers, regs': Registers, m: Machine, fx: Effects)
    requires AgreeOn(s.Uses(), regs, regs')
    ensures Fits(s, regs, m, fx) <==> Fits(s, regs', m, fx)
  {
    match s
    case BinReg(_, _, _, a, b) => assert a in s.Uses() && b in s.Uses();
    case _ => UsesFirst(s);
  }

  /** What a lifted expression comes to where the values hold what the registers read do. */
  lemma LiftWrites(s: Shape, vals: RegMap, env: Value -> Word, regs: Registers, m: Machine, fx: Effects, r: Reg)
    requires Computed(s) && AgreeOn(s.Uses(), RegsOf(vals, env), regs) && Fits(s, regs, m, fx) && r in s.Defs()
    ensures Eval(Lift(s, vals), env, m) == Next(s, regs, m, fx)(r)
  {
    var regs0 := RegsOf(vals, env);
    FitsAlike(s, regs0, regs, m, fx);
    LiftComputes(s, vals, env, m, fx, r);
    LooksOnlyAtUses(s, regs0, regs, m, fx, r);
    DefsAreWritten(s, regs0, m, fx, r);
  }

  lemma YieldsIsComputed(s: Shape, vals: RegMap)
    ensures Yields(Lift(s, vals)) <==> Computed(s)
  {
  }

  lemma ReadsHold(g: Cfg, ins: BlockMap, outs: BlockMap, c0: Code, p: seq<nat>, rr: RegRun, fx: Effects, h: History,
      t: nat, j: nat)
    requires Context(g, ins, outs, c0, p, rr, fx, h) && t < |p| && p[t] in g.blocks && p[t] in ins
    requires (t > 0 ==> p[t - 1] in outs) && j < |g.blocks[p[t]].instrs|
    requires Tracks(g, ins, outs, p, rr, h, t, j + 1)
    ensures AgreeOn(g.blocks[p[t]].instrs[j].1.Uses(), RegsOf(ValuesAt(g, ins, p[t], j), At(h, t, j)),
      RegsAt(rr, t, j + 1))
  {
    forall u: Reg | u in g.blocks[p[t]].instrs[j].1.Uses()
      ensures RegsOf(ValuesAt(g, ins, p[t], j), At(h, t, j))(u) == RegsAt(rr, t, j + 1)(u)
    {
      ReadsAreKnown(g, p, t, j, u);
      assert HoldsAt(g, ins, outs, p, rr, h, t, j + 1, u);
      assert ValueThen(g, ins, outs, p, t, j + 1, u) == ValueAt(g, ins, p[t], j, u);
    }
  }

  lemma PureStays(s: Shape, vals: RegMap, regs: Registers, m: Machine, fx: Effects)
    requires FitsHere(s, regs, m, fx)
    ensures !HasSideEffects(Lift(s, vals)) ==> Becomes(s, regs, m, fx) == m
  {
    if !HasSideEffects(Lift(s, vals)) && !IsSbrk(s) { PureLeavesMachine(s, vals, regs, m, fx); }
  }

  lemma MachineTracks(g: Cfg, ins: BlockMap, outs: BlockMap, c0: Code, p: seq<nat>, rr: RegRun, fx: Effects, h: History,
      t: nat, j: nat)
    requires Context(g, ins, outs, c0, p, rr, fx, h) && t < |p| && p[t] in g.blocks && p[t] in ins
    requires j < |g.blocks[p[t]].instrs| && h.machine(t, j + 1) == rr.machine(t, j + 1)
    ensures h.machine(t, j + 2) == rr.machine(t, j + 2)
  {
    var (pc, s) := g.blocks[p[t]].instrs[j];
    var e: nat := j + 1;
    var m := rr.machine(t, e);
    assert StepsAt(g, p, rr, fx, t, e);
    assert h.machine(t, e) == m && Evolved(g, c0, p, h, WorldOf(p, rr), t, e);
    assert Located(g, pc, p[t], j);
    KeepsArithmetic(s, RegsAt(rr, t, e), m, fx);
    assert rr.machine(t, e) == m && FitsHere(s, RegsAt(rr, t, e), m, fx);
    PureStays(s, ValuesAt(g, ins, p[t], j), RegsAt(rr, t, e), m, fx);
  }

  /** A register the instruction writes. */
  lemma WrittenTracks(g: Cfg, ins: BlockMap, outs: BlockMap, c0: Code, p: seq<nat>, rr: RegRun, fx: Effects, h: History,
      t: nat, j: nat, r: Reg)
    requires Context(g, ins, outs, c0, p, rr, fx, h) && t < |p| && p[t] in g.blocks && p[t] in ins
    requires (t > 0 ==> p[t - 1] in outs) && j < |g.blocks[p[t]].instrs|
    requires Tracks(g, ins, outs, p, rr, h, t, j + 1) && r in g.blocks[p[t]].instrs[j].1.Defs()
    ensures HoldsAt(g, ins, outs, p, rr, h, t, j + 2, r)
  {
    var (pc, s) := g.blocks[p[t]].instrs[j];
    var v := InstrDef(pc, r, p[t]);
    var vals, e: nat := ValuesAt(g, ins, p[t], j), j + 1;
    assert g.blocks[p[t]].instrs[..j + 1][..j] == g.blocks[p[t]].instrs[..j];
    assert v == ValueThen(g, ins, outs, p, t, j + 2, r);
    assert Located(g, pc, p[t], j) && WrittenIn(g, p, t, v, j) && Kept(c0, v);
    YieldsIsComputed(s, vals);
    if Computed(s) {
      ReadsHold(g, ins, outs, c0, p, rr, fx, h, t, j);
      assert rr.machine(t, e) == h.machine(t, e) && StepsAt(g, p, rr, fx, t, e);
      LiftWrites(s, vals, At(h, t, j), RegsAt(rr, t, e), rr.machine(t, e), fx, r);
    }
  }

  /** A register it does not write. */
  lemma UnwrittenTracks(g: Cfg, ins: BlockMap, outs: BlockMap, c0: Code, p: seq<nat>, rr: RegRun, fx: Effects,
      h: History, t: nat, j: nat, r: Reg)
    requires Context(g, ins, outs, c0, p, rr, fx, h) && t < |p| && p[t] in g.blocks && p[t] in ins
    requires (t > 0 ==> p[t - 1] in outs) && j < |g.blocks[p[t]].instrs|
    requires HoldsAt(g, ins, outs, p, rr, h, t, j + 1, r) && r !in g.blocks[p[t]].instrs[j].1.Defs()
    ensures HoldsAt(g, ins, outs, p, rr, h, t, j + 2, r)
  {
    var s, e: nat := g.blocks[p[t]].instrs[j].1, j + 1;
    assert g.blocks[p[t]].instrs[..j + 1][..j] == g.blocks[p[t]].instrs[..j];
    var v := ValueThen(g, ins, outs, p, t, e, r);
    assert v == ValueThen(g, ins, outs, p, t, e + 1, r);
    if Known(g, p, t, e + 1, r) {
      assert Known(g, p, t, e, r);
      assert !Defines(g, p[t], e, v);
      assert h.at(t, e + 1, v) == h.at(t, e, v);
      assert StepsAt(g, p, rr, fx, t, e);
      ChangesOnlyDefs(s, RegsAt(rr, t, e), rr.machine(t, e), fx, r);
    }
  }

  lemma TracksStep(g: Cfg, ins: BlockMap, outs: BlockMap, c0: Code, p: seq<nat>, rr: RegRun, fx: Effects, h: History,
      t: nat, j: nat)
    requires Context(g, ins, outs, c0, p, rr, fx, h) && t < |p| && p[t] in g.blocks && p[t] in ins
    requires (t > 0 ==> p[t - 1] in outs) && j < |g.blocks[p[t]].instrs|
    requires Tracks(g, ins, outs, p, rr, h, t, j + 1)
    ensures Tracks(g, ins, outs, p, rr, h, t, j + 2)
  {
    MachineTracks(g, ins, outs, c0, p, rr, fx, h, t, j);
    var e: nat := j + 2;
    forall r: Reg ensures HoldsAt(g, ins, outs, p, rr, h, t, e, r) {
      assert HoldsAt(g, ins, outs, p, rr, h, t, e - 1, r);
      if r in g.blocks[p[t]].instrs[j].1.Defs() {
        WrittenTracks(g, ins, outs, c0, p, rr, fx, h, t, j, r);
      } else {
        UnwrittenTracks(g, ins, outs, c0, p, rr, fx, h, t, j, r);
      }
    }
  }

  // ----- Whole runs

  lemma {:induction false} TracksAlways(g: Cfg, ins: BlockMap, outs: BlockMap, c0: Code, p: seq<nat>, rr: RegRun,
      fx: Effects, h: History, t: nat, e: nat)
    requires Context(g, ins, outs, c0, p, rr, fx, h) && t < |p| && e <= Events(g, p[t])
    ensures p[t] in g.blocks && p[t] in ins && (t > 0 ==> p[t - 1] in outs) && Tracks(g, ins, outs, p, rr, h, t, e)
    decreases t, e
  {
    PathFacts(g, ins, outs, c0, p, rr, fx, h, t);
    if e > 0 {
      TracksAlways(g, ins, outs, c0, p, rr, fx, h, t, e - 1);
      if e == 1 {
        TracksEnter(g, ins, outs, c0, p, rr, fx, h, t);
      } else {
        TracksStep(g, ins, outs, c0, p, rr, fx, h, t, e - 2);
      }
    } else if t == 0 {
      TracksAtFirst(g, ins, outs, c0, p, rr, fx, h);
    } else {
      TracksAlways(g, ins, outs, c0, p, rr, fx, h, t - 1, Events(g, p[t - 1]));
      TracksNextBlock(g, ins, outs, c0, p, rr, fx, h, t - 1);
    }
  }

  /** Just before instruction j of the t-th block the lifted code finds the machine as the instructions do, and in the
      value of each register what they find in the register. */
  ghost predicate Matches(g: Cfg, ins: BlockMap, p: seq<nat>, rr: RegRun, h: History, t: nat, j: nat) {
    t < |p| && p[t] in g.blocks && p[t] in ins && j <= |g.blocks[p[t]].instrs| ==>
      && h.machine(t, j + 1) == rr.machine(t, j + 1)
      && forall r: Reg :: Known(g, p, t, j + 1, r) ==> h.at(t, j + 1, ValueAt(g, ins, p[t], j, r)) == rr.at(t, j + 1, r)
  }

  /** Every run of the instructions is one of freshly lifted code, in a world that supplies what host calls, unknown
      opcodes and conditional moves leave in the registers and what instructions with side effects make of the
      machine; registers and values then hold the same throughout. */
  lemma LiftedRunsLike(g: Cfg, ins: BlockMap, outs: BlockMap, c0: Code, p: seq<nat>, rr: RegRun, fx: Effects)
    requires WellFormed(g) && UniquePcs(g) && g.entry in g.blocks && Converged(g, ins, outs)
    requires IsLifted(g, ins, c0.exprs) && c0.gone == {} && ReadsDefined(g)
    requires IsRegRun(g, p, rr, fx) && AllFit(g, p, rr, fx)
    ensures var h := LiftedHistory(g, outs, c0, p, rr);
      && IsRun(g, outs, c0, p, h, rr.machine(0, 0), WorldOf(p, rr))
      && forall t: nat, j: nat {:trigger Matches(g, ins, p, rr, h, t, j)} :: Matches(g, ins, p, rr, h, t, j)
  {
    var h := LiftedHistory(g, outs, c0, p, rr);
    var init := (v: Value) => if v.Param? then rr.at(0, 0, v.reg) else 0;
    HistoriesExist(g, outs, c0, p, rr.machine(0, 0), WorldOf(p, rr), init);
    forall t: nat, j: nat ensures Matches(g, ins, p, rr, h, t, j) {
      if t < |p| && p[t] in g.blocks && p[t] in ins && j <= |g.blocks[p[t]].instrs| {
        TracksAlways(g, ins, outs, c0, p, rr, fx, h, t, j + 1);
        TracksMatches(g, ins, outs, p, rr, h, t, j);
      }
    }
  }

  lemma TracksMatches(g: Cfg, ins: BlockMap, outs: BlockMap, p: seq<nat>, rr: RegRun, h: History, t: nat, j: nat)
    requires t < |p| && p[t] in g.blocks && j <= |g.blocks[p[t]].instrs| && p[t] in ins && (t > 0 ==> p[t - 1] in outs)
    requires Tracks(g, ins, outs, p, rr, h, t, j + 1)
    ensures Matches(g, ins, p, rr, h, t, j)
  {
    forall r: Reg | Known(g, p, t, j + 1, r) ensures h.at(t, j + 1, ValueAt(g, ins, p[t], j, r)) == rr.at(t, j + 1, r) {
      assert HoldsAt(g, ins, outs, p, rr, h, t, j + 1, r);
    }
  }
}
