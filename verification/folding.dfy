/** Runs of lifted code, and folding a definition into its single use in another block. */
module Folding {
  import opened Graph
  import opened Ssa
  import opened SsaReaching
  import opened Words
  import opened Expressions

  type Tree = Expr<Value>

  /** Lifted code: an expression for each instruction, and the addresses that are left out. */
  datatype Code = Code(exprs: map<nat, Tree>, gone: set<nat>)

  /** The part of the machine outside the code, given when an instruction runs and what its expression comes
      to: what a store, a call or raw text stores, what an instruction with side effects makes of the
      memory and of all that is outside, and where control goes after a block. */
  datatype World = World(
    result: (nat, nat, Value, Word) -> Word,
    change: (nat, nat, Word, Machine) -> Machine,
    next: (nat, nat, Word) -> nat)

  // ----- Runs

  /** The content of each variable, and the state of the machine, just before event e of the t-th block of
      a run. Event 0 is entering the block, which defines its phis; event j + 1 is instruction j. */
  datatype History = History(at: (nat, nat, Value) -> Word, machine: (nat, nat) -> Machine)

  function Events(g: Cfg, b: nat): nat { if b in g.blocks then |g.blocks[b].instrs| + 1 else 1 }

  /** Event e of block b defines v. */
  ghost predicate Defines(g: Cfg, b: nat, e: nat, v: Value) {
    if v.Phi? then e == 0 && v.block == b
    else v.InstrDef? && v.block == b && e > 0 && WrittenAt(g, v, e - 1)
  }

  predicate Kept(c: Code, v: Value) { v.InstrDef? ==> v.pc !in c.gone }

  /** Variables change only where a definition that is kept defines them. */
  ghost predicate Frame(g: Cfg, c: Code, p: seq<nat>, h: History) {
    && (forall t: nat, e: nat, v {:trigger h.at(t, e, v), Defines(g, p[t], e, v)} ::
      t < |p| && e < Events(g, p[t]) && !(Kept(c, v) && Defines(g, p[t], e, v)) ==> h.at(t, e + 1, v) == h.at(t, e, v))
    && (forall t: nat, v :: t + 1 < |p| ==> h.at(t + 1, 0, v) == h.at(t, Events(g, p[t]), v))
  }

  /** Where several values meet a phi takes that of the block control came from. */
  ghost predicate Joins(g: Cfg, outs: BlockMap, p: seq<nat>, h: History) {
    forall t: nat, v: Value {:trigger JoinsAt(g, outs, p, h, t, v)} :: t < |p| && v.Phi? && v.block == p[t] ==>
      JoinsAt(g, outs, p, h, t, v)
  }

  ghost predicate JoinsAt(g: Cfg, outs: BlockMap, p: seq<nat>, h: History, t: nat, v: Value)
    requires t < |p| && v.Phi?
  {
    h.at(t, 1, v) == if Meets(g, outs, p, t, v) then h.at(t, 0, outs[p[t - 1]][v.reg]) else h.at(t, 0, v)
  }

  ghost predicate Meets(g: Cfg, outs: BlockMap, p: seq<nat>, t: nat, v: Value)
    requires t < |p| && v.Phi?
  {
    0 < t && p[t - 1] in outs && p[t] in g.blocks && |Incoming(g, outs, p[t], v.reg)| > 1
  }

  /** The variables an instruction's expression sees. */
  ghost function At(h: History, t: nat, j: nat): Value -> Word { (v: Value) => h.at(t, j + 1, v) }

  /** The machine it sees. */
  ghost function Then(h: History, t: nat, j: nat): Machine { h.machine(t, j + 1) }

  /** Its expression comes to what it stores. */
  predicate Yields(e: Tree) { !e.Call? && !e.Raw? && !e.Store? }

  /** What d stores: its expression's value, or what the world makes of it. */
  ghost function Stored(c: Code, env: Value -> Word, m: Machine, w: World, t: nat, j: nat, d: Value): Word
    requires d.InstrDef?
  {
    if d.pc !in c.exprs then w.result(t, j, d, 0)
    else
      var x := Eval(c.exprs[d.pc], env, m);
      if Yields(c.exprs[d.pc]) then x else w.result(t, j, d, x)
  }

  /** What the instruction at pc makes of the machine: nothing, if it is pure or left out. */
  ghost function Moved(c: Code, env: Value -> Word, m: Machine, w: World, t: nat, j: nat, pc: nat): Machine {
    if pc in c.exprs && pc !in c.gone && HasSideEffects(c.exprs[pc])
    then Keeping(m, w.change(t, j, Eval(c.exprs[pc], env, m), m))
    else m
  }

  /** The machine's state changes at instructions with side effects. */
  ghost predicate Evolves(g: Cfg, c: Code, p: seq<nat>, h: History, m: Machine, w: World) {
    && h.machine(0, 0) == m
    && (forall t: nat, e: nat {:trigger Evolved(g, c, p, h, w, t, e)} :: t < |p| && e < Events(g, p[t]) ==>
      Evolved(g, c, p, h, w, t, e))
    && (forall t: nat, k: nat {:trigger h.machine(k, 0), p[t]} :: k == t + 1 && k < |p| ==>
      h.machine(k, 0) == h.machine(t, Events(g, p[t])))
  }

  ghost predicate Evolved(g: Cfg, c: Code, p: seq<nat>, h: History, w: World, t: nat, e: nat)
    requires t < |p| && e < Events(g, p[t])
  {
    h.machine(t, e + 1) ==
      if e == 0 then h.machine(t, 0)
      else Moved(c, At(h, t, e - 1), h.machine(t, e), w, t, e - 1, g.blocks[p[t]].instrs[e - 1].0)
  }

  /** Each definition that is kept stores its value. */
  ghost predicate Executes(g: Cfg, c: Code, p: seq<nat>, h: History, w: World) {
    forall t: nat, j: nat, d {:trigger WrittenIn(g, p, t, d, j)} :: WrittenIn(g, p, t, d, j) && Kept(c, d) ==>
      h.at(t, j + 2, d) == Stored(c, At(h, t, j), Then(h, t, j), w, t, j, d)
  }

  ghost predicate WrittenIn(g: Cfg, p: seq<nat>, t: nat, d: Value, j: nat) {
    t < |p| && d.InstrDef? && d.block == p[t] && WrittenAt(g, d, j)
  }

  /** h is how the variables change when c executes along p, a path from the entry. */
  ghost predicate IsHistory(g: Cfg, outs: BlockMap, c: Code, p: seq<nat>, h: History, m: Machine, w: World) {
    && IsPath(g, p) && p[0] == g.entry
    && Frame(g, c, p, h) && Joins(g, outs, p, h) && Executes(g, c, p, h, w) && Evolves(g, c, p, h, m, w)
  }

  /** What the last instruction of the t-th block hands to control: nothing, if it is pure or left out. */
  ghost function Outcome(g: Cfg, c: Code, p: seq<nat>, h: History, t: nat): Word
    requires t < |p|
  {
    if p[t] !in g.blocks || g.blocks[p[t]].instrs == [] then 0
    else
      var j := |g.blocks[p[t]].instrs| - 1;
      var pc := g.blocks[p[t]].instrs[j].0;
      if pc in c.exprs && pc !in c.gone && HasSideEffects(c.exprs[pc])
      then Eval(c.exprs[pc], At(h, t, j), Then(h, t, j))
      else 0
  }

  /** Control goes where the world takes it, given what the blocks' last instructions come to. */
  ghost predicate Steered(g: Cfg, c: Code, p: seq<nat>, h: History, w: World) {
    forall t: nat :: t + 1 < |p| ==> p[t + 1] == w.next(t, p[t], Outcome(g, c, p, h, t))
  }

  ghost predicate IsRun(g: Cfg, outs: BlockMap, c: Code, p: seq<nat>, h: History, m: Machine, w: World) {
    IsHistory(g, outs, c, p, h, m, w) && Steered(g, c, p, h, w)
  }

  lemma HistoryPrefix(g: Cfg, outs: BlockMap, c: Code, p: seq<nat>, k: nat, h: History, m: Machine, w: World)
    requires IsHistory(g, outs, c, p, h, m, w) && k < |p|
    ensures IsHistory(g, outs, c, p[..k + 1], h, m, w)
  {
    var q := p[..k + 1];
    forall t: nat, e: nat, v | t < |q| && e < Events(g, q[t]) && !(Kept(c, v) && Defines(g, q[t], e, v))
      ensures h.at(t, e + 1, v) == h.at(t, e, v)
    {
      assert q[t] == p[t] && e < Events(g, p[t]);
      assert Defines(g, p[t], e, v) <==> Defines(g, q[t], e, v);
      assert h.at(t, e + 1, v) == h.at(t, e, v);
    }
    forall t: nat, v | t + 1 < |q| ensures h.at(t + 1, 0, v) == h.at(t, Events(g, q[t]), v) {
      assert q[t] == p[t];
    }
    forall t: nat, v: Value | t < |q| && v.Phi? && v.block == q[t] ensures JoinsAt(g, outs, q, h, t, v) {
      assert JoinsAt(g, outs, p, h, t, v);
      assert q[t] == p[t] && (t > 0 ==> q[t - 1] == p[t - 1]);
    }
    forall t: nat, j: nat, d | WrittenIn(g, q, t, d, j) && Kept(c, d)
      ensures h.at(t, j + 2, d) == Stored(c, At(h, t, j), Then(h, t, j), w, t, j, d)
    {
      assert WrittenIn(g, p, t, d, j);
    }
    EvolvesPrefix(g, c, p, k, h, m, w);
  }

  lemma EvolvesPrefix(g: Cfg, c: Code, p: seq<nat>, k: nat, h: History, m: Machine, w: World)
    requires Evolves(g, c, p, h, m, w) && k < |p|
    ensures Evolves(g, c, p[..k + 1], h, m, w)
  {
    var q := p[..k + 1];
    forall t: nat, e: nat | t < |q| && e < Events(g, q[t]) ensures Evolved(g, c, q, h, w, t, e) {
      assert q[t] == p[t] && h.machine(t, e) == h.machine(t, e);
      assert Evolved(g, c, p, h, w, t, e);
    }
    forall t: nat, l: nat | l == t + 1 && l < |q| ensures h.machine(l, 0) == h.machine(t, Events(g, q[t])) {
      assert q[t] == p[t] && h.machine(l, 0) == h.machine(l, 0);
    }
  }

  /** Arithmetic is the same throughout a run. */
  lemma {:induction false} ArithmeticStays(g: Cfg, c: Code, p: seq<nat>, h: History, m: Machine, w: World, t: nat,
      e: nat)
    requires Evolves(g, c, p, h, m, w) && t < |p| && e <= Events(g, p[t])
    ensures SameArithmetic(h.machine(t, e), m)
    decreases t, e
  {
    if e > 0 {
      var x: nat := e - 1;
      ArithmeticStays(g, c, p, h, m, w, t, x);
      assert Evolved(g, c, p, h, w, t, x);
    } else if t > 0 {
      var u: nat := t - 1;
      ArithmeticStays(g, c, p, h, m, w, u, Events(g, p[u]));
      assert h.machine(u + 1, 0) == h.machine(u, Events(g, p[u]));
    }
  }

  /** If the world changes nothing the machine stays as it is. */
  lemma {:induction false} MachineStays(g: Cfg, c: Code, p: seq<nat>, h: History, m: Machine, w: World, t: nat, e: nat)
    requires Evolves(g, c, p, h, m, w) && t < |p| && e <= Events(g, p[t])
    requires forall u, j, x, n :: w.change(u, j, x, n) == n
    ensures h.machine(t, e) == m
    decreases t, e
  {
    if e > 0 {
      var x: nat := e - 1;
      MachineStays(g, c, p, h, m, w, t, x);
      assert Evolved(g, c, p, h, w, t, x);
    } else if t > 0 {
      var u: nat := t - 1;
      MachineStays(g, c, p, h, m, w, u, Events(g, p[u]));
      assert h.machine(u + 1, 0) == h.machine(u, Events(g, p[u]));
    }
  }

  lemma {:induction false} SteadyInBlock(g: Cfg, c: Code, p: seq<nat>, h: History, t: nat, a: nat, z: nat, v: Value)
    requires Frame(g, c, p, h) && t < |p| && a <= z <= Events(g, p[t])
    requires forall e: nat :: a <= e < z ==> !Defines(g, p[t], e, v)
    ensures h.at(t, a, v) == h.at(t, z, v)
    decreases z
  {
    if a < z {
      SteadyInBlock(g, c, p, h, t, a, z - 1, v);
      assert !Defines(g, p[t], z - 1, v);
    }
  }

  /** A variable whose block is not visited again, and that is not defined in the rest of the
      block at t, is unchanged from there to any later point. */
  lemma {:induction false} Steady(g: Cfg, c: Code, p: seq<nat>, h: History, t: nat, a: nat, k: nat, z: nat, v: Value)
    requires Frame(g, c, p, h) && t < k < |p| && a <= Events(g, p[t]) && z <= Events(g, p[k])
    requires forall e: nat :: a <= e < Events(g, p[t]) ==> !Defines(g, p[t], e, v)
    requires forall x :: t < x <= k ==> !(v.InstrDef? || v.Phi?) || p[x] != v.block
    ensures h.at(t, a, v) == h.at(k, z, v)
    decreases k
  {
    SteadyInBlock(g, c, p, h, k, 0, z, v);
    assert h.at(k - 1 + 1, 0, v) == h.at(k - 1, Events(g, p[k - 1]), v);
    if k - 1 == t {
      SteadyInBlock(g, c, p, h, t, a, Events(g, p[t]), v);
    } else {
      Steady(g, c, p, h, t, a, k - 1, Events(g, p[k - 1]), v);
    }
  }

  /** A variable that no kept definition defines keeps what it started with. */
  lemma {:induction false} Untouched(g: Cfg, c: Code, p: seq<nat>, h: History, v: Value, t: nat, e: nat)
    requires Frame(g, c, p, h) && t < |p| && e <= Events(g, p[t])
    requires v.Param? || v.Undef? || !Kept(c, v)
    ensures h.at(t, e, v) == h.at(0, 0, v)
    decreases t, e
  {
    if e > 0 {
      var x: nat := e - 1;
      Untouched(g, c, p, h, v, t, x);
      assert Defines(g, p[t], x, v) ==> !Kept(c, v);
      assert h.at(t, x + 1, v) == h.at(t, x, v);
    } else if t > 0 {
      Untouched(g, c, p, h, v, t - 1, Events(g, p[t - 1]));
      assert h.at(t - 1 + 1, 0, v) == h.at(t - 1, Events(g, p[t - 1]), v);
    }
  }

  // ----- Histories exist

  /** What v holds before event e of the t-th block of p, when the variables start as init. */
  ghost function Content(g: Cfg, outs: BlockMap, c: Code, p: seq<nat>, m: Machine, w: World, init: Value -> Word,
      t: nat, e: nat, v: Value): Word
    decreases t, e
  {
    if e == 0 then
      if t == 0 || t > |p| then init(v) else Content(g, outs, c, p, m, w, init, t - 1, Events(g, p[t - 1]), v)
    else if t >= |p| then Content(g, outs, c, p, m, w, init, t, e - 1, v)
    else if v.Phi? then
      if e == 1 && v.block == p[t] && Meets(g, outs, p, t, v)
      then Content(g, outs, c, p, m, w, init, t, 0, outs[p[t - 1]][v.reg])
      else Content(g, outs, c, p, m, w, init, t, e - 1, v)
    else if !Kept(c, v) || !Defines(g, p[t], e - 1, v) then Content(g, outs, c, p, m, w, init, t, e - 1, v)
    else
      Stored(c, (x: Value) => Content(g, outs, c, p, m, w, init, t, e - 1, x),
        MachineAt(g, outs, c, p, m, w, init, t, e - 1), w, t, e - 2, v)
  }

  /** The state of the machine then. */
  ghost function MachineAt(g: Cfg, outs: BlockMap, c: Code, p: seq<nat>, m: Machine, w: World, init: Value -> Word,
      t: nat, e: nat): Machine
    decreases t, e
  {
    if e == 0 then
      if t == 0 || t > |p| then m else MachineAt(g, outs, c, p, m, w, init, t - 1, Events(g, p[t - 1]))
    else if t >= |p| || e == 1 || e > Events(g, p[t]) then MachineAt(g, outs, c, p, m, w, init, t, e - 1)
    else
      Moved(c, (x: Value) => Content(g, outs, c, p, m, w, init, t, e - 1, x),
        MachineAt(g, outs, c, p, m, w, init, t, e - 1), w, t, e - 2, g.blocks[p[t]].instrs[e - 2].0)
  }

  ghost function ContentHistory(g: Cfg, outs: BlockMap, c: Code, p: seq<nat>, m: Machine, w: World,
      init: Value -> Word): History {
    History((t, e, v) => Content(g, outs, c, p, m, w, init, t, e, v),
      (t: nat, e: nat) => MachineAt(g, outs, c, p, m, w, init, t, e))
  }

  /** Code executes along every entry path, from any contents. */
  lemma HistoriesExist(g: Cfg, outs: BlockMap, c: Code, p: seq<nat>, m: Machine, w: World, init: Value -> Word)
    requires IsPath(g, p) && p[0] == g.entry
    ensures var h := ContentHistory(g, outs, c, p, m, w, init);
      IsHistory(g, outs, c, p, h, m, w) && forall v :: h.at(0, 0, v) == init(v)
  {
    var h := ContentHistory(g, outs, c, p, m, w, init);
    forall t: nat, e: nat, v | t < |p| && e < Events(g, p[t]) && !(Kept(c, v) && Defines(g, p[t], e, v))
      ensures h.at(t, e + 1, v) == h.at(t, e, v)
    {
      assert Content(g, outs, c, p, m, w, init, t, e + 1, v) == Content(g, outs, c, p, m, w, init, t, e, v);
    }
    forall t: nat, v | t + 1 < |p| ensures h.at(t + 1, 0, v) == h.at(t, Events(g, p[t]), v) {
      assert Content(g, outs, c, p, m, w, init, t + 1, 0, v) ==
        Content(g, outs, c, p, m, w, init, t, Events(g, p[t]), v);
    }
    forall t: nat, v: Value | t < |p| && v.Phi? && v.block == p[t] ensures JoinsAt(g, outs, p, h, t, v) {
      assert h.at(t, 1, v) == Content(g, outs, c, p, m, w, init, t, 1, v);
    }
    forall t: nat, j: nat, d | WrittenIn(g, p, t, d, j) && Kept(c, d)
      ensures h.at(t, j + 2, d) == Stored(c, At(h, t, j), Then(h, t, j), w, t, j, d)
    {
      ContentStores(g, outs, c, p, m, w, init, t, j, d);
    }
    StateEvolves(g, outs, c, p, m, w, init);
  }

  lemma StateEvolves(g: Cfg, outs: BlockMap, c: Code, p: seq<nat>, m: Machine, w: World, init: Value -> Word)
    requires |p| > 0
    ensures Evolves(g, c, p, ContentHistory(g, outs, c, p, m, w, init), m, w)
  {
    var h := ContentHistory(g, outs, c, p, m, w, init);
    forall t: nat, e: nat | t < |p| && e < Events(g, p[t]) ensures Evolved(g, c, p, h, w, t, e) {
      assert h.machine(t, e + 1) == MachineAt(g, outs, c, p, m, w, init, t, e + 1);
      if e > 0 {
        var before := (x: Value) => Content(g, outs, c, p, m, w, init, t, e, x);
        MovedAgrees(c, before, At(h, t, e - 1), h.machine(t, e), w, t, e - 1, g.blocks[p[t]].instrs[e - 1].0);
      }
    }
    forall t: nat, k: nat | k == t + 1 && k < |p| ensures h.machine(k, 0) == h.machine(t, Events(g, p[t])) {
      assert h.machine(k, 0) == MachineAt(g, outs, c, p, m, w, init, t + 1, 0);
    }
  }

  lemma MovedAgrees(c: Code, env: Value -> Word, env': Value -> Word, m: Machine, w: World, t: nat, j: nat, pc: nat)
    requires forall v :: env(v) == env'(v)
    ensures Moved(c, env, m, w, t, j, pc) == Moved(c, env', m, w, t, j, pc)
  {
    if pc in c.exprs { EvalAgrees(c.exprs[pc], env, env', m); }
  }

  lemma ContentStores(g: Cfg, outs: BlockMap, c: Code, p: seq<nat>, m: Machine, w: World, init: Value -> Word, t: nat,
      j: nat, d: Value)
    requires WrittenIn(g, p, t, d, j) && Kept(c, d)
    ensures var h := ContentHistory(g, outs, c, p, m, w, init);
      h.at(t, j + 2, d) == Stored(c, At(h, t, j), Then(h, t, j), w, t, j, d)
  {
    var h := ContentHistory(g, outs, c, p, m, w, init);
    assert Defines(g, p[t], j + 1, d);
    var before := (x: Value) => Content(g, outs, c, p, m, w, init, t, j + 1, x);
    assert Content(g, outs, c, p, m, w, init, t, j + 2, d) == Stored(c, before, Then(h, t, j), w, t, j, d);
    if d.pc in c.exprs { EvalAgrees(c.exprs[d.pc], before, At(h, t, j), Then(h, t, j)); }
  }

  // ----- Availability

  /** v has been defined, on every run, when instruction j of block b executes. */
  ghost predicate Available(g: Cfg, v: Value, b: nat, j: nat) {
    match v
    case Param(_) => true
    case Undef(_) => false
    case Phi(q, _) => Dom(g, q, b)
    case InstrDef(_, _, d) => exists i :: WrittenAt(g, v, i) && Precedes(g, d, i, b, j)
  }

  lemma AvailableLater(g: Cfg, v: Value, d: nat, i: nat, u: nat, j: nat)
    requires Available(g, v, d, i) && d != u && Dom(g, d, u) && Reachable(g, u) && Reachable(g, d)
    ensures Available(g, v, u, j)
  {
    match v
    case Param(_) =>
    case Phi(q, _) => DomTrans(g, q, d, u);
    case InstrDef(_, _, b) =>
      var x :| WrittenAt(g, v, x) && Precedes(g, b, x, d, i);
      if b != d {
        DomTrans(g, b, d, u);
        if b == u { DomAntisymmetric(g, u, d); }
      }
      assert Precedes(g, b, x, u, j);
  }

  /** d is visited at t, and not again. */
  ghost predicate IsLastVisit(p: seq<nat>, d: nat, t: nat) {
    t < |p| && p[t] == d && forall x :: t < x < |p| ==> p[x] != d
  }

  ghost function LastVisit(p: seq<nat>, d: nat): (t: nat)
    requires d in p
    ensures IsLastVisit(p, d, t)
  {
    if p[|p| - 1] == d then |p| - 1 else
      assert p == p[..|p| - 1] + [p[|p| - 1]];
      LastVisit(p[..|p| - 1], d)
  }

  /** An operand available at d's definition keeps its content from d's last execution to u. */
  lemma OperandSteady(g: Cfg, c: Code, p: seq<nat>, h: History, v: Value, d: nat, i: nat, u: nat, j: nat, t: nat)
    requires UniquePcs(g) && Available(g, v, d, i) && d != u && Dom(g, d, u)
    requires PathFromTo(g, p, g.entry, u) && Frame(g, c, p, h)
    requires d in g.blocks && u in g.blocks && i < |g.blocks[d].instrs| && j < |g.blocks[u].instrs|
    requires IsLastVisit(p, d, t)
    ensures h.at(t, i + 1, v) == h.at(|p| - 1, j + 1, v)
  {
    var k := |p| - 1;
    forall x | t < x <= k ensures !(v.InstrDef? || v.Phi?) || p[x] != v.block {
      if (v.InstrDef? || v.Phi?) && v.block != d {
        assert Dom(g, v.block, d);
        NotRevisited(g, v.block, d, u, p, t, x);
      }
    }
    forall e: nat | i + 1 <= e < Events(g, p[t]) ensures !Defines(g, p[t], e, v) {
      if v.InstrDef? && v.block == d {
        var y :| WrittenAt(g, v, y) && Precedes(g, d, y, d, i);
      }
    }
    Steady(g, c, p, h, t, i + 1, k, j + 1, v);
  }

  /** What d stored on its last execution is what u sees. */
  lemma DefinitionSteady(g: Cfg, c: Code, p: seq<nat>, h: History, d: Value, i: nat, u: nat, j: nat, t: nat)
    requires UniquePcs(g) && WrittenAt(g, d, i) && d.block != u && Dom(g, d.block, u) && IsLastVisit(p, d.block, t)
    requires PathFromTo(g, p, g.entry, u) && Frame(g, c, p, h)
    requires u in g.blocks && j < |g.blocks[u].instrs|
    ensures h.at(t, i + 2, d) == h.at(|p| - 1, j + 1, d)
  {
    assert p[|p| - 1] == u;
    DefinitionLasts(g, c, p, h, d, i, t, |p| - 1, j + 1);
  }

  lemma DefinitionLasts(g: Cfg, c: Code, p: seq<nat>, h: History, d: Value, i: nat, t: nat, k: nat, z: nat)
    requires UniquePcs(g) && WrittenAt(g, d, i) && Frame(g, c, p, h)
    requires t < k < |p| && p[t] == d.block && z <= Events(g, p[k]) && forall x :: t < x <= k ==> p[x] != d.block
    ensures h.at(t, i + 2, d) == h.at(k, z, d)
  {
    forall e: nat | i + 2 <= e < Events(g, p[t]) ensures !Defines(g, p[t], e, d) {
      if WrittenAt(g, d, e - 1) { WrittenOnce(g, d, i, e - 1); }
    }
    Steady(g, c, p, h, t, i + 2, k, z, d);
  }

  lemma WrittenOnce(g: Cfg, d: Value, i: nat, k: nat)
    requires UniquePcs(g) && WrittenAt(g, d, i) && WrittenAt(g, d, k)
    ensures i == k
  {
  }

  // ----- Faithful expressions

  ghost predicate AllAvailable(g: Cfg, e: Tree, b: nat, j: nat) { forall v :: v in Vars(e) ==> Available(g, v, b, j) }

  /** e can stand for e0 at instruction j of block b: it mentions only available variables and
      has e0's value whenever the original code gets there. */
  ghost predicate Faithful(g: Cfg, outs: BlockMap, c0: Code, b: nat, j: nat, e: Tree, e0: Tree) {
    && AllAvailable(g, e, b, j)
    && (forall p, h, m, w :: IsHistory(g, outs, c0, p, h, m, w) && p[|p| - 1] == b ==>
      Eval(e, At(h, |p| - 1, j), Then(h, |p| - 1, j)) == Eval(e0, At(h, |p| - 1, j), Then(h, |p| - 1, j)))
  }

  /** The original code computes d: it is kept, and its expression is pure. */
  predicate Computes(c0: Code, d: Value) {
    d.InstrDef? && d.pc in c0.exprs && d.pc !in c0.gone && !HasSideEffects(c0.exprs[d.pc])
  }

  /** Folding the definition d into u's expression keeps it faithful. */
  lemma FoldIsFaithful(g: Cfg, outs: BlockMap, c0: Code, d: Value, i: nat, eD: Tree, u: nat, j: nat, eU: Tree,
      eU0: Tree)
    requires UniquePcs(g) && WrittenAt(g, d, i) && Computes(c0, d)
    requires d.block != u && Dom(g, d.block, u) && Reachable(g, u)
    requires u in g.blocks && j < |g.blocks[u].instrs|
    requires Faithful(g, outs, c0, d.block, i, eD, c0.exprs[d.pc]) && Faithful(g, outs, c0, u, j, eU, eU0)
    requires !HasSideEffects(eD)
    ensures Faithful(g, outs, c0, u, j, Substitute(eU, d, eD), eU0)
  {
    SubstituteVars(eU, d, eD);
    DominatorReachable(g, d.block, u);
    forall v | v in Vars(Substitute(eU, d, eD)) ensures Available(g, v, u, j) {
      if v !in Vars(eU) {
        assert v in Vars(eD);
        AvailableLater(g, v, d.block, i, u, j);
      }
    }
    forall p, h, m, w | IsHistory(g, outs, c0, p, h, m, w) && p[|p| - 1] == u
      ensures Eval(Substitute(eU, d, eD), At(h, |p| - 1, j), Then(h, |p| - 1, j)) ==
        Eval(eU0, At(h, |p| - 1, j), Then(h, |p| - 1, j))
    {
      FoldKeepsValue(g, outs, c0, d, i, eD, u, j, p, h, m, w);
      SubstituteEval(eU, d, eD, At(h, |p| - 1, j), Then(h, |p| - 1, j));
    }
  }

  lemma DominatorReachable(g: Cfg, d: nat, u: nat)
    requires Dom(g, d, u) && Reachable(g, u)
    ensures Reachable(g, d)
  {
    var w :| PathFromTo(g, w, g.entry, u);
    var k :| 0 <= k < |w| && w[k] == d;
    PathPrefix(g, w, k);
  }

  /** Where u executes, d's variable holds what d's expression would evaluate to there. */
  lemma FoldKeepsValue(g: Cfg, outs: BlockMap, c0: Code, d: Value, i: nat, eD: Tree, u: nat, j: nat, p: seq<nat>,
      h: History, m: Machine, w: World)
    requires UniquePcs(g) && WrittenAt(g, d, i) && Computes(c0, d)
    requires d.block != u && Dom(g, d.block, u)
    requires u in g.blocks && j < |g.blocks[u].instrs|
    requires Faithful(g, outs, c0, d.block, i, eD, c0.exprs[d.pc]) && !HasSideEffects(eD)
    requires IsHistory(g, outs, c0, p, h, m, w) && p[|p| - 1] == u
    ensures At(h, |p| - 1, j)(d) == Eval(eD, At(h, |p| - 1, j), Then(h, |p| - 1, j))
  {
    assert PathFromTo(g, p, g.entry, u) && d.block in p;
    var t := LastVisit(p, d.block);
    DefinitionSteady(g, c0, p, h, d, i, u, j, t);
    StoresFaithfully(g, outs, c0, d, i, eD, p, t, h, m, w);
    ComesToTheSame(g, c0, d.block, i, eD, u, j, p, t, h, m, w);
  }

  lemma ComesToTheSame(g: Cfg, c: Code, d: nat, i: nat, e: Tree, u: nat, j: nat, p: seq<nat>, t: nat, h: History,
      m: Machine, w: World)
    requires UniquePcs(g) && d != u && Dom(g, d, u) && AllAvailable(g, e, d, i) && !HasSideEffects(e)
    requires PathFromTo(g, p, g.entry, u) && IsLastVisit(p, d, t) && Frame(g, c, p, h) && Evolves(g, c, p, h, m, w)
    requires d in g.blocks && u in g.blocks && i < |g.blocks[d].instrs| && j < |g.blocks[u].instrs|
    ensures Eval(e, At(h, t, i), Then(h, t, i)) == Eval(e, At(h, |p| - 1, j), Then(h, |p| - 1, j))
  {
    OperandsSteady(g, c, d, i, e, u, j, p, t, h, Then(h, t, i));
    PureInRun(g, c, p, h, m, w, t, i, |p| - 1, j, e, At(h, |p| - 1, j));
  }

  lemma OperandsSteady(g: Cfg, c: Code, d: nat, i: nat, e: Tree, u: nat, j: nat, p: seq<nat>, t: nat, h: History,
      m: Machine)
    requires UniquePcs(g) && d != u && Dom(g, d, u) && AllAvailable(g, e, d, i)
    requires PathFromTo(g, p, g.entry, u) && IsLastVisit(p, d, t) && Frame(g, c, p, h)
    requires d in g.blocks && u in g.blocks && i < |g.blocks[d].instrs| && j < |g.blocks[u].instrs|
    ensures Eval(e, At(h, t, i), m) == Eval(e, At(h, |p| - 1, j), m)
  {
    var before, now := At(h, t, i), At(h, |p| - 1, j);
    forall v | v in Vars(e) ensures before(v) == now(v) {
      OperandSteady(g, c, p, h, v, d, i, u, j, t);
    }
    EvalAgrees(e, before, now, m);
  }

  /** A pure expression comes to the same at any two points of a run. */
  lemma PureInRun(g: Cfg, c: Code, p: seq<nat>, h: History, m: Machine, w: World, t: nat, i: nat, k: nat, j: nat,
      e: Tree, env: Value -> Word)
    requires Evolves(g, c, p, h, m, w) && !HasSideEffects(e)
    requires t < |p| && i + 1 <= Events(g, p[t]) && k < |p| && j + 1 <= Events(g, p[k])
    ensures Eval(e, env, Then(h, t, i)) == Eval(e, env, Then(h, k, j))
  {
    ArithmeticStays(g, c, p, h, m, w, t, i + 1);
    ArithmeticStays(g, c, p, h, m, w, k, j + 1);
    PureIgnoresState(e, env, Then(h, t, i), Then(h, k, j));
  }

  /** Each execution of a pure definition stores what a faithful expression comes to. */
  lemma StoresFaithfully(g: Cfg, outs: BlockMap, c0: Code, d: Value, i: nat, eD: Tree, p: seq<nat>, t: nat,
      h: History, m: Machine, w: World)
    requires WrittenAt(g, d, i) && Computes(c0, d) && Faithful(g, outs, c0, d.block, i, eD, c0.exprs[d.pc])
    requires IsHistory(g, outs, c0, p, h, m, w) && t < |p| && p[t] == d.block
    ensures h.at(t, i + 2, d) == Eval(eD, At(h, t, i), Then(h, t, i))
  {
    var q := p[..t + 1];
    HistoryPrefix(g, outs, c0, p, t, h, m, w);
    assert q[|q| - 1] == d.block && |q| - 1 == t;
    assert WrittenIn(g, p, t, d, i);
    PureYields(c0.exprs[d.pc]);
  }

  lemma PureYields(e: Tree)
    requires !HasSideEffects(e)
    ensures Yields(e)
  {
  }
}
