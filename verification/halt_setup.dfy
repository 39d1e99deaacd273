/** Removing register setup before a program halt, as dead-code elimination over one block. */
module HaltSetup {
  import opened Instructions
  import opened Words
  import opened Graph
  import opened Liveness
  import opened Semantics
  import Expressions

  // ----- Running a block

  /** What instructions compute and do to memory, left arbitrary but for what they may look at. */
  datatype Machine<!M> = Machine(
    value: (Shape, seq<Word>, M, Reg) -> Word,
    memory: (Shape, seq<Word>, M) -> M)

  datatype State<M> = State(regs: Reg -> Word, memory: M, trace: seq<(Shape, seq<Word>)>)

  /** A conditional move also reads the value it may leave in place. */
  function Reads(s: Shape): seq<Reg> {
    match s
    case CmovReg(_, d, _, _) => s.Uses() + [d]
    case CmovImm(_, d, _, _) => s.Uses() + [d]
    case _ => s.Uses()
  }

  predicate SideEffecting(s: Shape) {
    || s.Store? || s.StoreAbsolute? || s.StoreImm? || s.StoreImmInd?
    || s.Jump? || s.JumpInd? || s.LoadImmJump? || s.LoadImmJumpInd? || s.BranchImm? || s.BranchReg?
    || s.Ecalli? || s.Unknown? || s.Trap?
  }

  predicate Eliminable(s: Shape) {
    || s.Fallthrough? || s.LoadImm? || s.BinReg? || s.BinImm? || s.BinImmRev? || s.Unary?
    || s.Load? || s.LoadAbsolute? || s.CmovReg? || s.CmovImm?
  }

  function Values(rs: seq<Reg>, regs: Reg -> Word): seq<Word> {
    if rs == [] then [] else [regs(rs[0])] + Values(rs[1..], regs)
  }

  /** Stores, host calls, jumps and heap growth act on memory; stores, host calls and jumps are
      recorded with the operands they see. */
  function Step<M>(m: Machine<M>, st: State<M>, s: Shape): State<M> {
    var ops := Values(Reads(s), st.regs);
    State(
      (r: Reg) => if r in s.Defs() then m.value(s, ops, st.memory, r) else st.regs(r),
      if SideEffecting(s) || IsSbrk(s) then m.memory(s, ops, st.memory) else st.memory,
      if SideEffecting(s) then st.trace + [(s, ops)] else st.trace)
  }

  function Run<M>(m: Machine<M>, st: State<M>, instrs: seq<(nat, Shape)>): State<M>
    decreases |instrs|
  {
    if instrs == [] then st else Run(m, Step(m, st, instrs[0].1), instrs[1..])
  }

  function Without(instrs: seq<(nat, Shape)>, gone: set<nat>): seq<(nat, Shape)> {
    if instrs == [] then []
    else (if instrs[0].0 in gone then [] else [instrs[0]]) + Without(instrs[1..], gone)
  }

  // ----- The instruction set is such a machine

  /** Registers that hold the operands listed. */
  function Holding(rs: seq<Reg>, ops: seq<Word>): (regs: Registers)
    requires |rs| == |ops|
  {
    if rs == [] then (r: Reg) => 0
    else
      var rest := Holding(rs[1..], ops[1..]);
      (r: Reg) => if r == rs[0] then ops[0] else rest(r)
  }

  lemma {:induction false} HoldingValues(rs: seq<Reg>, regs: Registers)
    ensures |Values(rs, regs)| == |rs| && AgreeOn(rs, Holding(rs, Values(rs, regs)), regs)
  {
    if rs != [] { HoldingValues(rs[1..], regs); }
  }

  function Operands(s: Shape, ops: seq<Word>): Registers {
    if |ops| == |Reads(s)| then Holding(Reads(s), ops) else (r: Reg) => 0
  }

  /** Instructions as machines of this kind, shown the operands they list and no other register. */
  function Actual(fx: Effects): Machine<Expressions.Machine> {
    Machine(
      (s: Shape, ops: seq<Word>, m: Expressions.Machine, r: Reg) => Written(s, Operands(s, ops), m, fx, r),
      (s: Shape, ops: seq<Word>, m: Expressions.Machine) => Becomes(s, Operands(s, ops), m, fx))
  }

  /** Seeing only what they list, instructions do all that they do. */
  lemma StepIsSemantics(s: Shape, st: State<Expressions.Machine>, fx: Effects, r: Reg)
    ensures Step(Actual(fx), st, s).regs(r) == Next(s, st.regs, st.memory, fx)(r)
    ensures Step(Actual(fx), st, s).memory == Becomes(s, st.regs, st.memory, fx)
  {
    var seen := Operands(s, Values(Reads(s), st.regs));
    HoldingValues(Reads(s), st.regs);
    ReadsCoverUses(s, seen, st.regs);
    ActsOnlyByUses(s, seen, st.regs, st.memory, fx);
    if r in s.Defs() {
      LooksOnlyAtUses(s, seen, st.regs, st.memory, fx, r);
      DefsAreWritten(s, seen, st.memory, fx, r);
    } else {
      ChangesOnlyDefs(s, st.regs, st.memory, fx, r);
    }
  }

  lemma ReadsCoverUses(s: Shape, regs: Registers, regs': Registers)
    requires AgreeOn(Reads(s), regs, regs')
    ensures AgreeOn(s.Uses(), regs, regs') && (IsCmov(s) ==> forall r :: r in s.Defs() ==> regs(r) == regs'(r))
  {
  }

  /** What is recorded is what ends a block, or acts on the machine otherwise than by growing the heap. */
  lemma SideEffectsAct(s: Shape)
    ensures SideEffecting(s) <==>
      s.IsTerminator() || (!IsSbrk(s) && exists regs, m, fx :: Becomes(s, regs, m, fx) != m)
  {
    if SideEffecting(s) && !s.IsTerminator() {
      var regs: Registers := (r: Reg) => 0;
      var m := Uniform(0);
      var fx := Effects(
        (op, a, b) => 0, (a, n) => 0, (a, n) => n, (w, a, v, n) => Uniform(1), (t, ops, n) => Uniform(1),
        (t, ops, n, r) => 0);
      assert Becomes(s, regs, m, fx).load(U8, 0) == 1 && m.load(U8, 0) == 0;
    }
  }

  /** A machine whose memory holds v everywhere. */
  function Uniform(v: Word): Expressions.Machine {
    Expressions.Machine((op, a, b) => 0, (op, a) => 0, (w, a) => v, (w, a, x) => 0, (f, ops) => 0, (t, ops) => 0)
  }

  // ----- The scan

  function RegSet(rs: seq<Reg>): set<Reg> { set r | r in rs }

  /** Registers still wanted before the instructions, by what each one lists as its uses. */
  function Needed(instrs: seq<(nat, Shape)>, halt: set<nat>): set<Reg> {
    if instrs == [] then {} else
      var after := Needed(instrs[1..], halt);
      if instrs[0].0 in halt || Droppable(instrs[0].1, after) then after
      else (after - RegSet(instrs[0].1.Defs())) + RegSet(instrs[0].1.Uses())
  }

  predicate Droppable(s: Shape, needed: set<Reg>) {
    !SideEffecting(s) && Eliminable(s) && RegSet(s.Defs()) !! needed
  }

  predicate Drops(instrs: seq<(nat, Shape)>, halt: set<nat>)
    requires instrs != []
  {
    instrs[0].0 !in halt && Droppable(instrs[0].1, Needed(instrs[1..], halt))
  }

  function Redundant(instrs: seq<(nat, Shape)>, halt: set<nat>): set<nat> {
    if instrs == [] then {} else
      (if Drops(instrs, halt) then {instrs[0].0} else {}) + Redundant(instrs[1..], halt)
  }

  method ScanBlock(instrs: seq<(nat, Shape)>, halt: set<nat>) returns (eliminated: set<nat>)
    ensures eliminated == Redundant(instrs, halt)
  {
    eliminated := {};
    var needed: set<Reg> := {};
    var i := |instrs|;
    assert instrs[i..] == [];
    while i > 0
      invariant 0 <= i <= |instrs|
      invariant needed == Needed(instrs[i..], halt)
      invariant eliminated == Redundant(instrs[i..], halt)
    {
      i := i - 1;
      var (pc, s) := instrs[i];
      assert instrs[i..][0] == (pc, s) && instrs[i..][1..] == instrs[i + 1..];
      if pc in halt {
        continue;
      }
      if SideEffecting(s) {
        needed := (needed - RegSet(s.Defs())) + RegSet(s.Uses());
        continue;
      }
      if Eliminable(s) && RegSet(s.Defs()) !! needed {
        eliminated := eliminated + {pc};
        continue;
      }
      needed := (needed - RegSet(s.Defs())) + RegSet(s.Uses());
    }
    assert instrs[0..] == instrs;
  }

  // ----- Halt blocks

  const HALT_ADDRESS: int := -0x10000

  /** The block loads the halt address and jumps to it. */
  predicate IsHaltBlock(instrs: seq<(nat, Shape)>) {
    |instrs| >= 2 &&
    var load, jump := instrs[|instrs| - 2].1, instrs[|instrs| - 1].1;
    load.LoadImm? && load.value == HALT_ADDRESS && jump.JumpInd? && jump.reg == load.dst
  }

  function HaltPcs(instrs: seq<(nat, Shape)>): set<nat>
    requires |instrs| >= 2
  {
    {instrs[|instrs| - 2].0, instrs[|instrs| - 1].0}
  }

  ghost predicate DistinctPcs(instrs: seq<(nat, Shape)>) {
    forall i, j :: 0 <= i < j < |instrs| ==> instrs[i].0 != instrs[j].0
  }

  /** None of the instructions is at one of the addresses. */
  ghost predicate Misses(instrs: seq<(nat, Shape)>, pcs: set<nat>) {
    forall i :: 0 <= i < |instrs| ==> instrs[i].0 !in pcs
  }

  ghost predicate InBlock(g: Cfg, b: nat, pc: nat) {
    b in g.blocks && IsHaltBlock(g.blocks[b].instrs) && pc in Redundant(g.blocks[b].instrs, HaltPcs(g.blocks[b].instrs))
  }

  /** What the scan finds in every halt block, and nothing else. */
  method RedundantHaltSetupPcs(g: Cfg) returns (eliminated: set<nat>)
    ensures forall pc :: pc in eliminated <==> exists b :: InBlock(g, b, pc)
  {
    eliminated := {};
    var rest := g.blocks.Keys;
    while rest != {}
      invariant rest <= g.blocks.Keys
      invariant forall pc :: pc in eliminated <==> exists b :: b !in rest && InBlock(g, b, pc)
      decreases rest
    {
      var b :| b in rest;
      rest := rest - {b};
      var instrs := g.blocks[b].instrs;
      if IsHaltBlock(instrs) {
        var found := ScanBlock(instrs, HaltPcs(instrs));
        ghost var before := eliminated;
        eliminated := eliminated + found;
        assert forall pc :: pc in found <==> InBlock(g, b, pc);
      }
    }
  }

  // ----- What has to hold for the removal to be invisible

  /** Registers truly read before being written in what is kept. */
  ghost function TrulyNeeded(instrs: seq<(nat, Shape)>, halt: set<nat>): set<Reg> {
    if instrs == [] then {} else
      var after := TrulyNeeded(instrs[1..], halt);
      if instrs[0].0 in halt || Drops(instrs, halt) then after
      else (after - RegSet(instrs[0].1.Defs())) + RegSet(Reads(instrs[0].1))
  }

  /** Nothing dropped grows the heap, or sets what a kept conditional move may leave in place. */
  ghost predicate DropsSafely(instrs: seq<(nat, Shape)>, halt: set<nat>) {
    instrs != [] ==>
      DropsSafely(instrs[1..], halt) &&
      (Drops(instrs, halt) ==> !IsSbrk(instrs[0].1) && RegSet(instrs[0].1.Defs()) !! TrulyNeeded(instrs[1..], halt))
  }

  /** The same effects so far, and the same values in the registers that still matter. */
  ghost predicate Alike<M(!new)>(s: State<M>, t: State<M>, rs: set<Reg>) {
    s.memory == t.memory && s.trace == t.trace && forall r :: r in rs ==> s.regs(r) == t.regs(r)
  }

  lemma {:induction false} SameValues(rs: seq<Reg>, f: Reg -> Word, h: Reg -> Word)
    requires forall r :: r in rs ==> f(r) == h(r)
    ensures Values(rs, f) == Values(rs, h)
  {
    if rs != [] { SameValues(rs[1..], f, h); }
  }

  lemma StepAlike<M(!new)>(m: Machine<M>, s: State<M>, t: State<M>, shape: Shape, after: set<Reg>)
    requires Alike(s, t, (after - RegSet(shape.Defs())) + RegSet(Reads(shape)))
    ensures Alike(Step(m, s, shape), Step(m, t, shape), after)
  {
    assert forall r :: r in Reads(shape) ==> r in RegSet(Reads(shape));
    SameValues(Reads(shape), s.regs, t.regs);
    forall r | r in after ensures Step(m, s, shape).regs(r) == Step(m, t, shape).regs(r) {
      if r !in shape.Defs() { assert r !in RegSet(shape.Defs()); }
    }
  }

  lemma StepInvisible<M(!new)>(m: Machine<M>, s: State<M>, t: State<M>, shape: Shape, after: set<Reg>)
    requires Alike(s, t, after) && !SideEffecting(shape) && !IsSbrk(shape) && RegSet(shape.Defs()) !! after
    ensures Alike(Step(m, s, shape), t, after)
  {
    forall r | r in after ensures Step(m, s, shape).regs(r) == t.regs(r) {
      assert r in shape.Defs() <==> r in RegSet(shape.Defs());
    }
  }

  /** The rest of a halt block, from some instruction on. */
  ghost predicate HaltSuffix(instrs: seq<(nat, Shape)>, halt: set<nat>) {
    IsHaltBlock(instrs) && halt == HaltPcs(instrs) && forall i :: 0 <= i < |instrs| - 2 ==> instrs[i].0 !in halt
  }

  /** The removed addresses, within these instructions, are those the scan drops. */
  ghost predicate RemovesDropped(instrs: seq<(nat, Shape)>, halt: set<nat>, gone: set<nat>) {
    forall i :: 0 <= i < |instrs| ==> (instrs[i].0 in gone <==> Drops(instrs[i..], halt))
  }

  lemma RemovesDroppedRest(instrs: seq<(nat, Shape)>, halt: set<nat>, gone: set<nat>)
    requires instrs != [] && RemovesDropped(instrs, halt, gone)
    ensures RemovesDropped(instrs[1..], halt, gone) && (instrs[0].0 in gone <==> Drops(instrs, halt))
  {
    var rest := instrs[1..];
    forall i | 0 <= i < |rest| ensures rest[i].0 in gone <==> Drops(rest[i..], halt) {
      assert rest[i..] == instrs[i + 1..] && rest[i] == instrs[i + 1];
    }
    assert instrs[0..] == instrs;
  }

  lemma HaltSuffixRest(instrs: seq<(nat, Shape)>, halt: set<nat>)
    requires HaltSuffix(instrs, halt) && |instrs| > 2
    ensures HaltSuffix(instrs[1..], halt)
  {
    var rest := instrs[1..];
    assert forall i :: 0 <= i < |rest| ==> rest[i] == instrs[i + 1];
  }

  /** The two halt instructions do the same from any two states with the same effects so far. */
  lemma HaltAlike<M(!new)>(m: Machine<M>, s: State<M>, t: State<M>, instrs: seq<(nat, Shape)>, halt: set<nat>,
      gone: set<nat>)
    requires HaltSuffix(instrs, halt) && |instrs| == 2 && RemovesDropped(instrs, halt, gone) && Alike(s, t, {})
    ensures Alike(Run(m, s, instrs), Run(m, t, Without(instrs, gone)), {})
  {
    var load, jump := instrs[0].1, instrs[1].1;
    HaltStays(instrs, halt, gone);
    StepAlike(m, s, t, load, {load.dst});
    StepAlike(m, Step(m, s, load), Step(m, t, load), jump, {});
    RunTwo(m, s, instrs);
    RunTwo(m, t, instrs);
  }

  lemma HaltStays(instrs: seq<(nat, Shape)>, halt: set<nat>, gone: set<nat>)
    requires HaltSuffix(instrs, halt) && |instrs| == 2 && RemovesDropped(instrs, halt, gone)
    ensures Without(instrs, gone) == instrs
  {
    RemovesDroppedRest(instrs, halt, gone);
    RemovesDroppedRest(instrs[1..], halt, gone);
    assert Without(instrs[1..], gone) == instrs[1..];
  }

  lemma RunTwo<M(!new)>(m: Machine<M>, s: State<M>, instrs: seq<(nat, Shape)>)
    requires |instrs| == 2
    ensures Run(m, s, instrs) == Step(m, Step(m, s, instrs[0].1), instrs[1].1)
  {
    var rest, mid := instrs[1..], Step(m, s, instrs[0].1);
    assert Run(m, s, instrs) == Run(m, mid, rest);
    assert Run(m, mid, rest) == Run(m, Step(m, mid, rest[0].1), rest[1..]);
    assert rest[1..] == [] && rest[0] == instrs[1];
  }

  lemma {:induction false} RunAlike<M(!new)>(m: Machine<M>, s: State<M>, t: State<M>, instrs: seq<(nat, Shape)>,
      halt: set<nat>, gone: set<nat>)
    requires HaltSuffix(instrs, halt) && DropsSafely(instrs, halt) && RemovesDropped(instrs, halt, gone)
    requires Alike(s, t, TrulyNeeded(instrs, halt))
    ensures Alike(Run(m, s, instrs), Run(m, t, Without(instrs, gone)), {})
    decreases |instrs|
  {
    if |instrs| == 2 {
      HaltAlike(m, s, t, instrs, halt, gone);
    } else {
      var rest, shape := instrs[1..], instrs[0].1;
      RemovesDroppedRest(instrs, halt, gone);
      HaltSuffixRest(instrs, halt);
      if Drops(instrs, halt) {
        StepInvisible(m, s, t, shape, TrulyNeeded(rest, halt));
        RunAlike(m, Step(m, s, shape), t, rest, halt, gone);
        assert Without(instrs, gone) == Without(rest, gone);
      } else {
        StepAlike(m, s, t, shape, TrulyNeeded(rest, halt));
        RunAlike(m, Step(m, s, shape), Step(m, t, shape), rest, halt, gone);
        WithoutKeepsFirst(instrs, gone);
      }
    }
  }

  lemma WithoutKeepsFirst(instrs: seq<(nat, Shape)>, gone: set<nat>)
    requires instrs != [] && instrs[0].0 !in gone
    ensures var kept := Without(instrs, gone);
      kept != [] && kept[0] == instrs[0] && kept[1..] == Without(instrs[1..], gone)
  {
  }

  // ----- The removal is invisible

  /** Memory at the halt, and every operand stored, passed to the host or jumped on, are the same.
      Registers at the halt are not observed. */
  ghost predicate SameEffects<M(!new)>(m: Machine<M>, st: State<M>, instrs: seq<(nat, Shape)>, gone: set<nat>) {
    var full, less := Run(m, st, instrs), Run(m, st, Without(instrs, gone));
    full.memory == less.memory && full.trace == less.trace
  }

  lemma {:induction false} RedundantAreDropped(instrs: seq<(nat, Shape)>, halt: set<nat>, i: nat)
    requires DistinctPcs(instrs) && i < |instrs|
    ensures instrs[i].0 in Redundant(instrs, halt) <==> Drops(instrs[i..], halt)
    decreases |instrs|
  {
    var rest := instrs[1..];
    assert forall k :: 0 <= k < |rest| ==> rest[k] == instrs[k + 1];
    assert instrs[0..] == instrs;
    if i > 0 {
      RedundantAreDropped(rest, halt, i - 1);
      assert rest[i - 1..] == instrs[i..];
    } else {
      RedundantFrom(rest, halt, instrs[0].0);
    }
  }

  lemma {:induction false} RedundantFrom(instrs: seq<(nat, Shape)>, halt: set<nat>, pc: nat)
    requires forall i :: 0 <= i < |instrs| ==> instrs[i].0 != pc
    ensures pc !in Redundant(instrs, halt)
    decreases |instrs|
  {
    if instrs != [] {
      assert forall k :: 0 <= k < |instrs[1..]| ==> instrs[1..][k] == instrs[k + 1];
      RedundantFrom(instrs[1..], halt, pc);
    }
  }

  lemma RemovesOwn(g: Cfg, b: nat, gone: set<nat>)
    requires UniquePcs(g) && b in g.blocks && IsHaltBlock(g.blocks[b].instrs)
    requires forall pc :: pc in gone <==> exists c :: InBlock(g, c, pc)
    ensures RemovesDropped(g.blocks[b].instrs, HaltPcs(g.blocks[b].instrs), gone)
  {
    var instrs := g.blocks[b].instrs;
    var halt := HaltPcs(instrs);
    forall i | 0 <= i < |instrs| ensures instrs[i].0 in gone <==> Drops(instrs[i..], halt) {
      RedundantAreDropped(instrs, halt, i);
      assert instrs[i].0 in Redundant(instrs, halt) <==> InBlock(g, b, instrs[i].0);
      if instrs[i].0 in gone {
        var c :| InBlock(g, c, instrs[i].0);
        var k := RedundantIsThere(g.blocks[c].instrs, HaltPcs(g.blocks[c].instrs), instrs[i].0);
      }
    }
  }

  lemma {:induction false} RedundantIsThere(instrs: seq<(nat, Shape)>, halt: set<nat>, pc: nat) returns (k: nat)
    requires pc in Redundant(instrs, halt)
    ensures k < |instrs| && instrs[k].0 == pc
    decreases |instrs|
  {
    if Drops(instrs, halt) && instrs[0].0 == pc {
      k := 0;
    } else {
      k := RedundantIsThere(instrs[1..], halt, pc);
      k := k + 1;
    }
  }

  /** Running a halt block without everything the scan of the whole function removes. */
  lemma HaltSetupIsDead<M(!new)>(g: Cfg, b: nat, gone: set<nat>, m: Machine<M>, st: State<M>)
    requires UniquePcs(g) && b in g.blocks && IsHaltBlock(g.blocks[b].instrs)
    requires forall pc :: pc in gone <==> exists c :: InBlock(g, c, pc)
    requires DropsSafely(g.blocks[b].instrs, HaltPcs(g.blocks[b].instrs))
    ensures SameEffects(m, st, g.blocks[b].instrs, gone)
  {
    RemovesOwn(g, b, gone);
    RunAlike(m, st, st, g.blocks[b].instrs, HaltPcs(g.blocks[b].instrs), gone);
  }

  // ----- How much is removed

  /** What is left of the body. */
  function Kept(instrs: seq<(nat, Shape)>, halt: set<nat>): seq<(nat, Shape)> {
    if instrs == [] then []
    else (if instrs[0].0 in halt || Drops(instrs, halt) then [] else [instrs[0]]) + Kept(instrs[1..], halt)
  }

  lemma UsedCons(first: (nat, Shape), rest: seq<(nat, Shape)>, r: Reg)
    ensures UsedBeforeDef([first] + rest, r) <==>
      r in first.1.Uses() || (r !in first.1.Defs() && UsedBeforeDef(rest, r))
  {
    var all := [first] + rest;
    if r in first.1.Uses() { assert UsedAt(all, r, 0); }
    if r !in first.1.Defs() && UsedBeforeDef(rest, r) {
      var k: nat :| UsedAt(rest, r, k);
      DefinedCons(first, rest[..k], r);
      assert all[..k + 1] == [first] + rest[..k];
      assert UsedAt(all, r, k + 1);
    }
    if UsedBeforeDef(all, r) {
      var k: nat :| UsedAt(all, r, k);
      if k > 0 {
        assert all[..k] == [first] + rest[..k - 1];
        DefinedCons(first, rest[..k - 1], r);
        assert UsedAt(rest, r, k - 1);
      }
    }
  }

  lemma DefinedCons(first: (nat, Shape), rest: seq<(nat, Shape)>, r: Reg)
    ensures DefinedIn([first] + rest, r) <==> r in first.1.Defs() || DefinedIn(rest, r)
  {
    var all := [first] + rest;
    if r in first.1.Defs() { assert r in all[0].1.Defs(); }
    if DefinedIn(rest, r) {
      var k :| 0 <= k < |rest| && r in rest[k].1.Defs();
      assert all[k + 1] == rest[k];
    }
    if DefinedIn(all, r) && r !in first.1.Defs() {
      var k :| 0 <= k < |all| && r in all[k].1.Defs();
      assert rest[k - 1] == all[k];
    }
  }

  /** A register counts as needed exactly when what is kept reads it before writing it. */
  lemma {:induction false} NeededIsRead(instrs: seq<(nat, Shape)>, halt: set<nat>, r: Reg)
    ensures r in Needed(instrs, halt) <==> UsedBeforeDef(Kept(instrs, halt), r)
    decreases |instrs|
  {
    if instrs != [] {
      NeededIsRead(instrs[1..], halt, r);
      if instrs[0].0 in halt || Drops(instrs, halt) {
        assert Kept(instrs, halt) == Kept(instrs[1..], halt);
      } else {
        UsedCons(instrs[0], Kept(instrs[1..], halt), r);
        assert r in RegSet(instrs[0].1.Uses()) <==> r in instrs[0].1.Uses();
        assert r in RegSet(instrs[0].1.Defs()) <==> r in instrs[0].1.Defs();
      }
    }
  }

  /** An instruction before the halt stays exactly when it has effects or defines a register that what is kept after
      it reads. */
  lemma StaysExactly(instrs: seq<(nat, Shape)>, halt: set<nat>, i: nat)
    requires i < |instrs| && instrs[i].0 !in halt
    ensures !Drops(instrs[i..], halt) <==>
      || SideEffecting(instrs[i].1)
      || exists d :: d in instrs[i].1.Defs() && UsedBeforeDef(Kept(instrs[i + 1..], halt), d)
  {
    var s, rest := instrs[i].1, instrs[i + 1..];
    assert instrs[i..][0] == instrs[i] && instrs[i..][1..] == rest;
    forall d ensures d in s.Defs() ==> (d in Needed(rest, halt) <==> UsedBeforeDef(Kept(rest, halt), d)) {
      if d in s.Defs() { NeededIsRead(rest, halt, d); }
    }
    assert forall d :: d in s.Defs() <==> d in RegSet(s.Defs());
  }

  /** Nothing more could go: scanning what is kept removes nothing. */
  lemma {:induction false} ScanIsIdempotent(instrs: seq<(nat, Shape)>, halt: set<nat>)
    ensures Needed(Kept(instrs, halt), halt) == Needed(instrs, halt)
    ensures Redundant(Kept(instrs, halt), halt) == {}
    decreases |instrs|
  {
    if instrs != [] {
      ScanIsIdempotent(instrs[1..], halt);
      if instrs[0].0 in halt || Drops(instrs, halt) {
        assert Kept(instrs, halt) == Kept(instrs[1..], halt);
      } else {
        assert Kept(instrs, halt)[1..] == Kept(instrs[1..], halt);
      }
    }
  }

  // ----- When it is not

  /** A machine whose memory counts how often the heap was grown. */
  function CountingMachine(): Machine<nat> {
    Machine((s, ops, k, r) => 0, (s, ops, k) => if IsSbrk(s) then k + 1 else k)
  }

  function Sbrks(instrs: seq<(nat, Shape)>): nat {
    if instrs == [] then 0 else Sbrks(instrs[1..]) + if IsSbrk(instrs[0].1) then 1 else 0
  }

  lemma {:induction false} CountingRun(st: State<nat>, instrs: seq<(nat, Shape)>)
    ensures Run(CountingMachine(), st, instrs).memory == st.memory + Sbrks(instrs)
    decreases |instrs|
  {
    if instrs != [] {
      CountingRun(Step(CountingMachine(), st, instrs[0].1), instrs[1..]);
    }
  }

  lemma {:induction false} FewerSbrks(instrs: seq<(nat, Shape)>, gone: set<nat>)
    ensures Sbrks(Without(instrs, gone)) <= Sbrks(instrs)
    ensures (exists i :: 0 <= i < |instrs| && instrs[i].0 in gone && IsSbrk(instrs[i].1)) ==>
      Sbrks(Without(instrs, gone)) < Sbrks(instrs)
  {
    if instrs != [] {
      var rest := instrs[1..];
      FewerSbrks(rest, gone);
      if instrs[0].0 in gone {
        assert Without(instrs, gone) == Without(rest, gone);
      } else {
        WithoutKeepsFirst(instrs, gone);
      }
      if i :| 0 <= i < |instrs| && instrs[i].0 in gone && IsSbrk(instrs[i].1) {
        if i > 0 { assert rest[i - 1] == instrs[i]; }
      }
    }
  }

  ghost predicate NoCmovKept(instrs: seq<(nat, Shape)>, halt: set<nat>) {
    instrs != [] ==> NoCmovKept(instrs[1..], halt) && (IsCmov(instrs[0].1) ==>
      instrs[0].0 in halt || Drops(instrs, halt))
  }

  ghost predicate DropsSbrk(instrs: seq<(nat, Shape)>, gone: set<nat>) {
    exists i :: 0 <= i < |instrs| && instrs[i].0 in gone && IsSbrk(instrs[i].1)
  }

  lemma {:induction false} ListedUsesSuffice(instrs: seq<(nat, Shape)>, halt: set<nat>, gone: set<nat>)
    requires NoCmovKept(instrs, halt) && RemovesDropped(instrs, halt, gone) && !DropsSbrk(instrs, gone)
    ensures TrulyNeeded(instrs, halt) == Needed(instrs, halt) && DropsSafely(instrs, halt)
    decreases |instrs|
  {
    if instrs != [] {
      RemovesDroppedRest(instrs, halt, gone);
      assert forall k :: 0 <= k < |instrs[1..]| ==> instrs[1..][k] == instrs[k + 1];
      ListedUsesSuffice(instrs[1..], halt, gone);
    }
  }

  /** Some heap growth before the halt returns an address that nothing kept after it reads. */
  ghost predicate IdleSbrk(instrs: seq<(nat, Shape)>, halt: set<nat>) {
    exists i :: 0 <= i < |instrs| && IdleSbrkAt(instrs, halt, i)
  }

  ghost predicate IdleSbrkAt(instrs: seq<(nat, Shape)>, halt: set<nat>, i: nat) {
    && i < |instrs| && instrs[i].0 !in halt && IsSbrk(instrs[i].1)
    && !UsedBeforeDef(Kept(instrs[i + 1..], halt), instrs[i].1.dst)
  }

  lemma IdleSbrkIsDropped(instrs: seq<(nat, Shape)>, halt: set<nat>, gone: set<nat>)
    requires RemovesDropped(instrs, halt, gone)
    ensures IdleSbrk(instrs, halt) <==> DropsSbrk(instrs, gone)
  {
    forall i: nat | i < |instrs| && IsSbrk(instrs[i].1) ensures IdleSbrkAt(instrs, halt, i) <==> instrs[i].0 in gone {
      assert instrs[i..][0] == instrs[i] && instrs[i..][1..] == instrs[i + 1..];
      assert RegSet(instrs[i].1.Defs()) == {instrs[i].1.dst};
      NeededIsRead(instrs[i + 1..], halt, instrs[i].1.dst);
    }
    if IdleSbrk(instrs, halt) {
      var i: nat :| i < |instrs| && IdleSbrkAt(instrs, halt, i);
      assert instrs[i].0 in gone;
    }
    if DropsSbrk(instrs, gone) {
      var i: nat :| i < |instrs| && instrs[i].0 in gone && IsSbrk(instrs[i].1);
      assert IdleSbrkAt(instrs, halt, i);
    }
  }

  /** Where no conditional move is kept, the removal is invisible exactly when every heap growth
      before the halt has its result read by what is kept. */
  lemma InvisibleExactly(g: Cfg, b: nat, gone: set<nat>)
    requires UniquePcs(g) && b in g.blocks && IsHaltBlock(g.blocks[b].instrs)
    requires forall pc :: pc in gone <==> exists c :: InBlock(g, c, pc)
    requires NoCmovKept(g.blocks[b].instrs, HaltPcs(g.blocks[b].instrs))
    ensures (forall m: Machine<nat>, st: State<nat> :: SameEffects(m, st, g.blocks[b].instrs, gone)) <==>
      !IdleSbrk(g.blocks[b].instrs, HaltPcs(g.blocks[b].instrs))
  {
    var instrs := g.blocks[b].instrs;
    RemovesOwn(g, b, gone);
    IdleSbrkIsDropped(instrs, HaltPcs(instrs), gone);
    if DropsSbrk(instrs, gone) {
      var m, st := CountingMachine(), ZeroState();
      FewerSbrks(instrs, gone);
      CountingRun(st, instrs);
      CountingRun(st, Without(instrs, gone));
      assert !SameEffects(m, st, instrs, gone);
    } else {
      ListedUsesSuffice(instrs, HaltPcs(instrs), gone);
      forall m: Machine<nat>, st: State<nat> ensures SameEffects(m, st, instrs, gone) {
        HaltSetupIsDead(g, b, gone, m, st);
      }
    }
  }

  /** The block `r1 = sbrk(r2); halt`, at any addresses: the removal leaves the heap one growth
      smaller. */
  lemma SbrkIsRemoved(sbrk: (nat, Shape), tail: seq<(nat, Shape)>, instrs: seq<(nat, Shape)>, gone: set<nat>,
      st: State<nat>)
    requires sbrk.1 == Unary(Sbrk, 1, 2) && |tail| == 2
    requires instrs == [sbrk] + tail && IsHaltBlock(instrs) && DistinctPcs(instrs)
    requires gone == Redundant(instrs, HaltPcs(instrs))
    ensures sbrk.0 in gone && !SameEffects(CountingMachine(), st, instrs, gone)
  {
    var halt := HaltPcs(instrs);
    assert instrs[0] == sbrk && instrs[1] == tail[0] && instrs[2] == tail[1];
    assert tail[1..] == [tail[1]] + [] && tail == [tail[0]] + tail[1..];
    ScanCons(tail[1], [], halt);
    ScanCons(tail[0], tail[1..], halt);
    ScanCons(sbrk, tail, halt);
    assert instrs[0].0 in gone && IsSbrk(instrs[0].1);
    FewerSbrks(instrs, gone);
    CountingRun(st, instrs);
    CountingRun(st, Without(instrs, gone));
  }

  lemma ScanCons(first: (nat, Shape), rest: seq<(nat, Shape)>, halt: set<nat>)
    ensures Needed([first] + rest, halt) ==
      if first.0 in halt || Droppable(first.1, Needed(rest, halt)) then Needed(rest, halt)
      else (Needed(rest, halt) - RegSet(first.1.Defs())) + RegSet(first.1.Uses())
    ensures Redundant([first] + rest, halt) ==
      (if first.0 !in halt && Droppable(first.1, Needed(rest, halt)) then {first.0} else {}) + Redundant(rest, halt)
  {
    assert ([first] + rest)[1..] == rest;
  }

  /** A kept conditional move may leave in place what the scan has removed, since it does not list
      its own destination: whatever follows, the load is dropped. */
  lemma CmovHidesItsDestination(load: (nat, Shape), cmov: (nat, Shape), rest: seq<(nat, Shape)>, halt: set<nat>)
    requires load.1.LoadImm? && cmov.1.CmovReg? && load.1.dst == cmov.1.dst
    requires cmov.1.dst != cmov.1.src && cmov.1.dst != cmov.1.cond
    requires cmov.1.dst in Needed(rest, halt) && load.0 !in halt && cmov.0 !in halt
    ensures Redundant([load] + ([cmov] + rest), halt) == {load.0} + Redundant(rest, halt)
  {
    ScanCons(cmov, rest, halt);
    ScanCons(load, [cmov] + rest, halt);
    assert cmov.1.dst in RegSet(cmov.1.Defs());
    assert cmov.1.dst !in Needed([cmov] + rest, halt);
    assert RegSet(load.1.Defs()) == {load.1.dst};
  }

  lemma StoreIsKept(store: (nat, Shape), tail: seq<(nat, Shape)>, halt: set<nat>)
    requires store.1.Store? && store.0 !in halt
    requires |tail| == 2 && tail[0].0 in halt && tail[1].0 in halt
    ensures store.1.src in Needed([store] + tail, halt) && Redundant([store] + tail, halt) == {}
  {
    assert tail[1..] == [tail[1]] + [] && tail == [tail[0]] + tail[1..];
    ScanCons(tail[1], [], halt);
    ScanCons(tail[0], tail[1..], halt);
    ScanCons(store, tail, halt);
    assert store.1.src in RegSet(store.1.Uses());
  }

  function ZeroState(): State<nat> { State((r: Reg) => 0, 0, []) }

  /** Moves when the condition register is not 0, loads immediates, and leaves memory alone. */
  function MovingMachine(): Machine<nat> {
    Machine(
      (s: Shape, ops: seq<Word>, k: nat, r: Reg) =>
        if s.LoadImm? then ToWord(s.value)
        else if s.CmovReg? && |ops| == 3 then (if ops[1] != 0 then ops[0] else ops[2])
        else 0,
      (s, ops, k) => k)
  }

  lemma {:induction false} TraceGrows<M(!new)>(m: Machine<M>, st: State<M>, instrs: seq<(nat, Shape)>)
    ensures |Run(m, st, instrs).trace| >= |st.trace| && Run(m, st, instrs).trace[..|st.trace|] == st.trace
    decreases |instrs|
  {
    if instrs != [] {
      TraceGrows(m, Step(m, st, instrs[0].1), instrs[1..]);
    }
  }

  lemma MoveStep(st: State<nat>)
    requires st.regs(2) == 0 && st.regs(3) == 0
    ensures var moved := Step(MovingMachine(), st, CmovReg(false, 1, 2, 3));
      moved.regs(1) == st.regs(1) && moved.regs(0) == st.regs(0) && moved.trace == st.trace
  {
    var s := CmovReg(false, 1, 2, 3);
    assert Reads(s) == [2, 3, 1];
    assert Values([2, 3, 1], st.regs) == [st.regs(2)] + ([st.regs(3)] + ([st.regs(1)] + []));
  }

  lemma StoreStep(st: State<nat>)
    ensures Step(MovingMachine(), st, Store(U64, 0, 1, 0)).trace ==
      st.trace + [(Store(U64, 0, 1, 0), [st.regs(0), st.regs(1)])]
  {
    var s := Store(U64, 0, 1, 0);
    assert Reads(s) == [0, 1];
    assert Values([0, 1], st.regs) == [st.regs(0)] + ([st.regs(1)] + []);
    assert Values(Reads(s), st.regs) == [st.regs(0), st.regs(1)];
  }

  lemma RunCons<M(!new)>(m: Machine<M>, st: State<M>, first: (nat, Shape), rest: seq<(nat, Shape)>)
    ensures Run(m, st, [first] + rest) == Run(m, Step(m, st, first.1), rest)
  {
    assert ([first] + rest)[1..] == rest;
  }

  /** A conditional move then a store, from a state where r2 and r3 are 0. */
  lemma StoresOld(st: State<nat>, cmov: (nat, Shape), store: (nat, Shape), tail: seq<(nat, Shape)>)
    requires cmov.1 == CmovReg(false, 1, 2, 3) && store.1 == Store(U64, 0, 1, 0)
    requires st.regs(2) == 0 && st.regs(3) == 0 && st.trace == []
    ensures var t := Run(MovingMachine(), st, [cmov] + ([store] + tail)).trace;
      t != [] && t[0].1 == [st.regs(0), st.regs(1)]
  {
    var m := MovingMachine();
    var moved := Step(m, st, cmov.1);
    MoveStep(st);
    StoreStep(moved);
    RunCons(m, st, cmov, [store] + tail);
    RunCons(m, moved, store, tail);
    TraceGrows(m, Step(m, moved, store.1), tail);
  }

  lemma LoadIsRemoved(load: (nat, Shape), cmov: (nat, Shape), store: (nat, Shape), tail: seq<(nat, Shape)>,
      instrs: seq<(nat, Shape)>)
    requires load.1 == LoadImm(1, 5) && cmov.1 == CmovReg(false, 1, 2, 3) && store.1 == Store(U64, 0, 1, 0)
    requires |tail| == 2 && instrs == [load] + ([cmov] + ([store] + tail)) && IsHaltBlock(instrs) && DistinctPcs(instrs)
    ensures Without(instrs, Redundant(instrs, HaltPcs(instrs))) == [cmov] + ([store] + tail)
  {
    var rest := [cmov] + ([store] + tail);
    var halt := HaltPcs(instrs);
    assert instrs[0] == load && instrs[1] == cmov && instrs[2] == store && instrs[3] == tail[0] && instrs[4] == tail[1];
    StoreIsKept(store, tail, halt);
    CmovHidesItsDestination(load, cmov, [store] + tail, halt);
    assert Redundant(instrs, halt) == {load.0};
    assert instrs[1..] == rest;
    forall k | 0 <= k < |rest| ensures rest[k].0 !in {load.0} { assert rest[k] == instrs[k + 1]; }
    WithoutNone(rest, {load.0});
  }

  lemma StoredDiffers(load: (nat, Shape), cmov: (nat, Shape), store: (nat, Shape), tail: seq<(nat, Shape)>,
      m: Machine<nat>, st: State<nat>)
    requires load.1 == LoadImm(1, 5) && cmov.1 == CmovReg(false, 1, 2, 3) && store.1 == Store(U64, 0, 1, 0)
    requires m == MovingMachine() && st.trace == [] && forall r: Reg :: st.regs(r) == 0
    ensures var rest := [cmov] + ([store] + tail);
      Run(m, st, [load] + rest).trace != Run(m, st, rest).trace
  {
    var rest := [cmov] + ([store] + tail);
    var loaded := Step(m, st, load.1);
    LoadStep(st);
    StoresOld(st, cmov, store, tail);
    StoresOld(loaded, cmov, store, tail);
    RunCons(m, st, load, rest);
    assert [loaded.regs(0), loaded.regs(1)][1] != [st.regs(0), st.regs(1)][1];
  }

  /** The block `r1 = 5; if r3 != 0 then r1 = r2; [r0] = r1; halt`, at any addresses: with the
      registers zero it stores 5, and after the removal what r1 held. */
  lemma CmovKeepsRemovedValue(load: (nat, Shape), cmov: (nat, Shape), store: (nat, Shape), tail: seq<(nat, Shape)>,
                              instrs: seq<(nat, Shape)>, gone: set<nat>, m: Machine<nat>, st: State<nat>)
    requires load.1 == LoadImm(1, 5) && cmov.1 == CmovReg(false, 1, 2, 3) && store.1 == Store(U64, 0, 1, 0)
    requires |tail| == 2 && instrs == [load] + ([cmov] + ([store] + tail)) && IsHaltBlock(instrs) && DistinctPcs(instrs)
    requires gone == Redundant(instrs, HaltPcs(instrs))
    requires m == MovingMachine() && st.trace == [] && forall r: Reg :: st.regs(r) == 0
    ensures !SameEffects(m, st, instrs, gone)
  {
    var rest := [cmov] + ([store] + tail);
    LoadIsRemoved(load, cmov, store, tail, instrs);
    StoredDiffers(load, cmov, store, tail, m, st);
    assert Without(instrs, gone) == rest && instrs == [load] + rest;
    assert Run(m, st, instrs).trace != Run(m, st, Without(instrs, gone)).trace;
  }

  lemma LoadStep(st: State<nat>)
    ensures var loaded := Step(MovingMachine(), st, LoadImm(1, 5));
      loaded.regs(1) == 5 && (forall r: Reg :: r != 1 ==> loaded.regs(r) == st.regs(r)) && loaded.trace == st.trace
  {
    var m, s := MovingMachine(), LoadImm(1, 5);
    assert s.Defs() == [1];
    assert m.value(s, Values(Reads(s), st.regs), st.memory, 1) == 5;
  }

  lemma {:induction false} WithoutNone(instrs: seq<(nat, Shape)>, gone: set<nat>)
    requires Misses(instrs, gone)
    ensures Without(instrs, gone) == instrs
  {
    if instrs != [] {
      assert forall k :: 0 <= k < |instrs[1..]| ==> instrs[1..][k] == instrs[k + 1];
      WithoutNone(instrs[1..], gone);
    }
  }
}
