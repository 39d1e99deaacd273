/** The value graph over registers: each definition is a value, joins make phi values, and a
    fixed point over the blocks decides which value each use reads. A value is named here by
    what makes it unique, rather than by its index in a vector. */
module Ssa {
  import opened Instructions
  import opened Graph
  import opened Collections

  datatype Value =
    | Param(reg: Reg)
    | Undef(reg: Reg)
    | InstrDef(pc: nat, reg: Reg, block: nat)
    | Phi(block: nat, reg: Reg)

  datatype UseSite = AtInstr(pc: nat, reg: Reg) | AtPhi(block: nat, reg: Reg)

  // A value for each of r0..r12.
  type RegMap = m: seq<Value> | |m| == 13
    witness seq(13, (i: int) => Undef(0))

  type BlockMap = map<nat, RegMap>

  datatype Program = Program(
    operands: map<Value, set<Value>>,
    useOf: map<(nat, Reg), Value>,
    uses: map<Value, set<UseSite>>,
    pcToBlock: map<nat, nat>)

  // ----- What the passes over a block compute

  /** The last instruction of the list that writes r. */
  function LastDef(instrs: seq<(nat, Shape)>, r: Reg): Option<nat> {
    if instrs == [] then None
    else
      var (pc, shape) := instrs[|instrs| - 1];
      if r in shape.Defs() then Some(pc) else LastDef(instrs[..|instrs| - 1], r)
  }

  /** The value of r after the instructions, given its value before them. */
  function After(b: nat, instrs: seq<(nat, Shape)>, m: RegMap, r: Reg): Value {
    match LastDef(instrs, r)
    case Some(pc) => InstrDef(pc, r, b)
    case None => m[r]
  }

  function ValueAt(g: Cfg, ins: BlockMap, b: nat, j: nat, r: Reg): Value
    requires b in g.blocks && b in ins && j <= |g.blocks[b].instrs|
  {
    After(b, g.blocks[b].instrs[..j], ins[b], r)
  }

  /** The values the processed predecessors of b leave in r. */
  function Incoming(g: Cfg, outs: BlockMap, b: nat, r: Reg): set<Value>
    requires b in g.blocks
  {
    set p | p in g.blocks[b].preds && p in outs :: outs[p][r]
  }

  ghost predicate IsMerge(b: nat, r: Reg, incoming: set<Value>, v: Value) {
    if incoming == {} then v == Undef(r)
    else if |incoming| == 1 then incoming == {v}
    else v == Phi(b, r)
  }

  ghost predicate IsBlockIn(g: Cfg, outs: BlockMap, b: nat, m: RegMap)
    requires b in g.blocks
  {
    forall r: Reg ::
      if g.blocks[b].preds == [] then m[r] == (if b == g.entry then Param(r) else Undef(r))
      else IsMerge(b, r, Incoming(g, outs, b, r), m[r])
  }

  ghost predicate IsBlockOut(g: Cfg, b: nat, m: RegMap, m': RegMap)
    requires b in g.blocks
  {
    forall r: Reg :: m'[r] == After(b, g.blocks[b].instrs, m, r)
  }

  /** A sweep would change nothing. */
  ghost predicate Converged(g: Cfg, ins: BlockMap, outs: BlockMap) {
    && ins.Keys == g.blocks.Keys == outs.Keys
    && forall b {:trigger ConvergedAt(g, ins, outs, b)} :: b in g.blocks ==> ConvergedAt(g, ins, outs, b)
  }

  ghost predicate ConvergedAt(g: Cfg, ins: BlockMap, outs: BlockMap, b: nat) {
    b in g.blocks && b in ins && b in outs && IsBlockIn(g, outs, b, ins[b]) && IsBlockOut(g, b, ins[b], outs[b])
  }

  // ----- A sweep, as a function of the state before it

  datatype State = State(ins: BlockMap, outs: BlockMap)

  ghost function Merged(b: nat, r: Reg, incoming: set<Value>): (v: Value)
    ensures IsMerge(b, r, incoming, v)
  {
    if incoming == {} then Undef(r)
    else if |incoming| == 1 then
      var v :| v in incoming;
      SingletonSet(incoming, v);
      v
    else Phi(b, r)
  }

  ghost function InOf(g: Cfg, outs: BlockMap, b: nat): (m: RegMap)
    requires b in g.blocks
    ensures IsBlockIn(g, outs, b, m)
  {
    seq(13, r requires 0 <= r < 13 =>
      if g.blocks[b].preds == [] then (if b == g.entry then Param(r) else Undef(r))
      else Merged(b, r, Incoming(g, outs, b, r)))
  }

  ghost function OutOf(g: Cfg, b: nat, m: RegMap): (m': RegMap)
    requires b in g.blocks
    ensures IsBlockOut(g, b, m, m')
  {
    seq(13, r requires 0 <= r < 13 => After(b, g.blocks[b].instrs, m, r))
  }

  lemma OneBlockIn(g: Cfg, outs: BlockMap, b: nat, m: RegMap)
    requires b in g.blocks && IsBlockIn(g, outs, b, m)
    ensures m == InOf(g, outs, b)
  {
    var n := InOf(g, outs, b);
    forall r: Reg ensures m[r] == n[r] {
      if g.blocks[b].preds != [] { OneMerge(b, r, Incoming(g, outs, b, r), m[r], n[r]); }
    }
  }

  lemma OneMerge(b: nat, r: Reg, incoming: set<Value>, v: Value, w: Value)
    requires IsMerge(b, r, incoming, v) && IsMerge(b, r, incoming, w)
    ensures v == w
  {
    if |incoming| == 1 { assert v in incoming && w in {v}; }
  }

  lemma OneBlockOut(g: Cfg, b: nat, m: RegMap, m': RegMap)
    requires b in g.blocks && IsBlockOut(g, b, m, m')
    ensures m' == OutOf(g, b, m)
  {
    var n := OutOf(g, b, m);
    forall r: Reg ensures m'[r] == n[r] { }
  }

  /** The state after block b has been looked at. */
  ghost function Visit(g: Cfg, s: State, b: nat): State
    requires b in g.blocks
  {
    var m := InOf(g, s.outs, b);
    State(s.ins[b := m], s.outs[b := OutOf(g, b, m)])
  }

  /** The state after the first i blocks of the order have been. */
  ghost function SweptTo(g: Cfg, order: seq<nat>, s: State, i: nat): State
    requires i <= |order| && forall b :: b in order ==> b in g.blocks
  {
    if i == 0 then s else
      assert order[i - 1] in order;
      Visit(g, SweptTo(g, order, s, i - 1), order[i - 1])
  }

  /** The i-th visit of a sweep from s changes something. */
  ghost predicate Moves(g: Cfg, order: seq<nat>, s: State, i: nat)
    requires forall b :: b in order ==> b in g.blocks
  {
    i < |order| && SweptTo(g, order, s, i + 1) != SweptTo(g, order, s, i)
  }

  ghost predicate ChangesBefore(g: Cfg, order: seq<nat>, s: State, n: nat)
    requires forall b :: b in order ==> b in g.blocks
  {
    exists i: nat :: i < n && Moves(g, order, s, i)
  }

  lemma ChangesSnoc(g: Cfg, order: seq<nat>, s: State, n: nat)
    requires forall b :: b in order ==> b in g.blocks
    ensures ChangesBefore(g, order, s, n + 1) <==> ChangesBefore(g, order, s, n) || Moves(g, order, s, n)
  {
    if ChangesBefore(g, order, s, n) {
      var i: nat :| i < n && Moves(g, order, s, i);
      assert i < n + 1 && Moves(g, order, s, i);
    }
    if Moves(g, order, s, n) { assert n < n + 1; }
  }

  /** A sweep from s changes something. */
  ghost predicate Changes(g: Cfg, order: seq<nat>, s: State)
    requires forall b :: b in order ==> b in g.blocks
  {
    ChangesBefore(g, order, s, |order|)
  }

  /** The state after n sweeps from nothing. */
  ghost function Swept(g: Cfg, order: seq<nat>, n: nat): State
    requires forall b :: b in order ==> b in g.blocks
  {
    if n == 0 then State(map[], map[]) else SweptTo(g, order, Swept(g, order, n - 1), |order|)
  }

  /** The sweep after n others changes something. */
  ghost predicate ChangesAt(g: Cfg, order: seq<nat>, n: nat)
    requires forall b :: b in order ==> b in g.blocks
  {
    Changes(g, order, Swept(g, order, n))
  }

  method MergeIncoming(g: Cfg, outs: BlockMap, b: nat, r: Reg) returns (v: Value)
    requires b in g.blocks
    ensures IsMerge(b, r, Incoming(g, outs, b, r), v)
  {
    var incoming := Incoming(g, outs, b, r);
    if incoming == {} {
      v := Undef(r);
    } else if |incoming| == 1 {
      v :| v in incoming;
      SingletonSet(incoming, v);
    } else {
      v := Phi(b, r);
    }
  }

  method BlockIn(g: Cfg, outs: BlockMap, b: nat, phis: set<(nat, Reg)>) returns (m: RegMap, phis': set<(nat, Reg)>)
    requires b in g.blocks
    ensures IsBlockIn(g, outs, b, m)
    ensures phis <= phis' && PhisMade(g, outs, phis', b)
  {
    phis' := phis;
    if g.blocks[b].preds == [] {
      m := seq(13, i requires 0 <= i < 13 => if b == g.entry then Param(i) else Undef(i));
      assert forall r: Reg :: Incoming(g, outs, b, r) == {};
      return;
    }
    m := seq(13, i requires 0 <= i < 13 => Undef(i));
    for r := 0 to 13
      invariant |m| == 13 && phis <= phis'
      invariant forall q: Reg :: q < r ==> IsMerge(b, q, Incoming(g, outs, b, q), m[q])
      invariant forall q: Reg :: q < r && |Incoming(g, outs, b, q)| > 1 ==> (b, q) in phis'
    {
      var v := MergeIncoming(g, outs, b, r);
      if |Incoming(g, outs, b, r)| > 1 {
        phis' := phis' + {(b, r)};
      }
      m := m[r := v];
    }
  }

  /** Every join of b that sees several values has its phi. */
  ghost predicate PhisMade(g: Cfg, outs: BlockMap, phis: set<(nat, Reg)>, b: nat) {
    b in g.blocks && forall r: Reg :: |Incoming(g, outs, b, r)| > 1 ==> (b, r) in phis
  }

  lemma SingletonSet(s: set<Value>, v: Value)
    requires |s| == 1 && v in s
    ensures s == {v}
  {
    assert |s - {v}| == 0;
  }

  method BlockOut(g: Cfg, b: nat, m: RegMap) returns (m': RegMap)
    requires b in g.blocks
    ensures IsBlockOut(g, b, m, m')
  {
    m' := m;
    var instrs := g.blocks[b].instrs;
    for i := 0 to |instrs|
      invariant forall r: Reg :: m'[r] == After(b, instrs[..i], m, r)
    {
      var (pc, shape) := instrs[i];
      ghost var before := m';
      m' := seq(13, r requires 0 <= r < 13 => if r in shape.Defs() then InstrDef(pc, r, b) else m'[r]);
      assert instrs[..i + 1][..i] == instrs[..i];
    }
    assert instrs[..|instrs|] == instrs;
  }

  // ----- The fixed point

  ghost predicate SettledAt(g: Cfg, ins: BlockMap, outs: BlockMap, phis: set<(nat, Reg)>, b: nat) {
    ConvergedAt(g, ins, outs, b) && PhisMade(g, outs, phis, b)
  }

  method SweepBlock(g: Cfg, b: nat, ins: BlockMap, outs: BlockMap, phis: set<(nat, Reg)>)
    returns (ins': BlockMap, outs': BlockMap, phis': set<(nat, Reg)>, changed: bool)
    requires b in g.blocks
    ensures ins'.Keys == ins.Keys + {b} && outs'.Keys == outs.Keys + {b} && phis <= phis'
    ensures !changed ==> ins' == ins && outs' == outs && SettledAt(g, ins', outs', phis', b)
    ensures State(ins', outs') == Visit(g, State(ins, outs), b)
    ensures changed <==> State(ins', outs') != State(ins, outs)
  {
    ins', outs', changed := ins, outs, false;
    var m;
    m, phis' := BlockIn(g, outs, b, phis);
    OneBlockIn(g, outs, b, m);
    if b !in ins' || ins'[b] != m {
      ins', changed := ins'[b := m], true;
    }
    var m' := BlockOut(g, b, m);
    OneBlockOut(g, b, m, m');
    if b !in outs' || outs'[b] != m' {
      outs', changed := outs'[b := m'], true;
    }
  }

  lemma SettledGrows(g: Cfg, ins: BlockMap, outs: BlockMap, phis: set<(nat, Reg)>, phis': set<(nat, Reg)>, b: nat)
    requires SettledAt(g, ins, outs, phis, b) && phis <= phis'
    ensures SettledAt(g, ins, outs, phis', b)
  {
  }

  lemma SweptNext(g: Cfg, order: seq<nat>, s: State, i: nat, before: State, after: State)
    requires i < |order| && forall b :: b in order ==> b in g.blocks
    requires before == SweptTo(g, order, s, i) && order[i] in order && after == Visit(g, before, order[i])
    ensures after == SweptTo(g, order, s, i + 1)
    ensures ChangesBefore(g, order, s, i + 1) <==> ChangesBefore(g, order, s, i) || after != before
  {
    ChangesSnoc(g, order, s, i);
  }

  /** One pass over the blocks; if it changes nothing, everything is settled. */
  method Sweep(g: Cfg, order: seq<nat>, ins: BlockMap, outs: BlockMap, phis: set<(nat, Reg)>)
    returns (ins': BlockMap, outs': BlockMap, phis': set<(nat, Reg)>, changed: bool)
    requires forall b :: b in order <==> b in g.blocks
    requires ins.Keys <= g.blocks.Keys && outs.Keys <= g.blocks.Keys
    ensures ins'.Keys == g.blocks.Keys == outs'.Keys
    ensures !changed ==> Converged(g, ins', outs') && forall b :: b in g.blocks ==> PhisMade(g, outs', phis', b)
    ensures State(ins', outs') == SweptTo(g, order, State(ins, outs), |order|)
    ensures changed <==> Changes(g, order, State(ins, outs))
  {
    ins', outs', phis', changed := ins, outs, phis, false;
    ghost var s := State(ins, outs);
    for i := 0 to |order|
      invariant MidSweep(g, order, s, i, State(ins', outs'), phis', changed)
    {
      assert order[i] in order;
      ghost var before, state := phis', State(ins', outs');
      var change;
      ins', outs', phis', change := SweepBlock(g, order[i], ins', outs', phis');
      MidSweepNext(g, order, s, i, state, before, changed, State(ins', outs'), phis', change);
      changed := changed || change;
    }
    SweepEnds(g, order, s, State(ins', outs'), phis', changed);
  }

  /** The first i blocks have been looked at; nothing has changed so far only if all of them are settled. */
  ghost predicate MidSweep(g: Cfg, order: seq<nat>, s: State, i: nat, t: State, phis: set<(nat, Reg)>, changed: bool)
    requires i <= |order| && forall b :: b in order ==> b in g.blocks
  {
    && t == SweptTo(g, order, s, i) && (changed <==> ChangesBefore(g, order, s, i))
    && t.ins.Keys <= g.blocks.Keys && t.outs.Keys <= g.blocks.Keys
    && (forall k :: 0 <= k < i ==> order[k] in t.ins && order[k] in t.outs)
    && (!changed ==> t == s && PrefixSettled(g, order, i, s.ins, s.outs, phis))
  }

  lemma MidSweepNext(g: Cfg, order: seq<nat>, s: State, i: nat, t: State, phis: set<(nat, Reg)>, changed: bool,
      t': State, phis': set<(nat, Reg)>, change: bool)
    requires i < |order| && order[i] in order && forall b :: b in order ==> b in g.blocks
    requires MidSweep(g, order, s, i, t, phis, changed) && t' == Visit(g, t, order[i]) && (change <==> t' != t)
    requires phis <= phis' && (!change ==> SettledAt(g, t'.ins, t'.outs, phis', order[i]))
    ensures MidSweep(g, order, s, i + 1, t', phis', changed || change)
  {
    SweptNext(g, order, s, i, t, t');
    if !changed && !change { PrefixGrows(g, order, i, s.ins, s.outs, phis, phis'); }
  }

  lemma SweepEnds(g: Cfg, order: seq<nat>, s: State, t: State, phis: set<(nat, Reg)>, changed: bool)
    requires forall b :: b in order <==> b in g.blocks
    requires MidSweep(g, order, s, |order|, t, phis, changed)
    ensures t.ins.Keys == g.blocks.Keys == t.outs.Keys
    ensures !changed ==> Converged(g, t.ins, t.outs) && forall b :: b in g.blocks ==> PhisMade(g, t.outs, phis, b)
  {
    forall b | b in g.blocks ensures b in t.ins && b in t.outs {
      var k :| 0 <= k < |order| && order[k] == b;
    }
    if !changed { AllSettled(g, order, s.ins, s.outs, phis); }
  }

  ghost predicate PrefixSettled(g: Cfg, order: seq<nat>, n: nat, ins: BlockMap, outs: BlockMap, phis: set<(nat, Reg)>) {
    forall k {:trigger SettledAt(g, ins, outs, phis, order[k])} :: 0 <= k < n && k < |order| ==>
      SettledAt(g, ins, outs, phis, order[k])
  }

  lemma PrefixGrows(g: Cfg, order: seq<nat>, n: nat, ins: BlockMap, outs: BlockMap, phis: set<(nat, Reg)>,
      phis': set<(nat, Reg)>)
    requires PrefixSettled(g, order, n, ins, outs, phis) && phis <= phis'
    requires n < |order| && SettledAt(g, ins, outs, phis', order[n])
    ensures PrefixSettled(g, order, n + 1, ins, outs, phis')
  {
    forall k | 0 <= k < n + 1 ensures SettledAt(g, ins, outs, phis', order[k]) {
      if k < n { SettledGrows(g, ins, outs, phis, phis', order[k]); }
    }
  }

  lemma AllSettled(g: Cfg, order: seq<nat>, ins: BlockMap, outs: BlockMap, phis: set<(nat, Reg)>)
    requires ins.Keys == g.blocks.Keys == outs.Keys
    requires PrefixSettled(g, order, |order|, ins, outs, phis) && forall b :: b in order <==> b in g.blocks
    ensures Converged(g, ins, outs) && forall b :: b in g.blocks ==> PhisMade(g, outs, phis, b)
  {
    forall b | b in g.blocks ensures SettledAt(g, ins, outs, phis, b) {
      var k :| 0 <= k < |order| && order[k] == b;
      assert SettledAt(g, ins, outs, phis, order[k]);
    }
  }

  // ----- Recording uses

  function UsesOf(uses: map<Value, set<UseSite>>, v: Value): set<UseSite> {
    if v in uses then uses[v] else {}
  }

  function AddUse(uses: map<Value, set<UseSite>>, v: Value, s: UseSite): (r: map<Value, set<UseSite>>)
    ensures forall w :: UsesOf(r, w) == UsesOf(uses, w) + if w == v then {s} else {}
  {
    uses[v := UsesOf(uses, v) + {s}]
  }

  /** Instruction j of block b, at pc, reads r. */
  ghost predicate ReadsAt(g: Cfg, b: nat, j: nat, pc: nat, r: Reg) {
    b in g.blocks && j < |g.blocks[b].instrs| && g.blocks[b].instrs[j].0 == pc && r in g.blocks[b].instrs[j].1.Uses()
  }

  ghost predicate UseRecorded(g: Cfg, ins: BlockMap, useOf: map<(nat, Reg), Value>, uses: map<Value, set<UseSite>>,
      b: nat, j: nat, pc: nat, r: Reg)
    requires ReadsAt(g, b, j, pc, r) && b in ins
  {
    && (pc, r) in useOf && useOf[(pc, r)] == ValueAt(g, ins, b, j, r)
    && AtInstr(pc, r) in UsesOf(uses, useOf[(pc, r)])
  }

  /** Each instruction read is listed under the value it reads, and nothing else is. */
  ghost predicate ReadsRecorded(g: Cfg, ins: BlockMap, p: Program) {
    && ins.Keys == g.blocks.Keys
    && (forall b: nat, j: nat, pc, r: Reg {:trigger ReadsAt(g, b, j, pc, r)} ::
      ReadsAt(g, b, j, pc, r) ==> UseRecorded(g, ins, p.useOf, p.uses, b, j, pc, r))
    && (forall v, pc, r: Reg :: AtInstr(pc, r) in UsesOf(p.uses, v) ==> IsReadOf(g, ins, v, pc, r))
    && (forall b, j :: b in g.blocks && 0 <= j < |g.blocks[b].instrs| ==>
      g.blocks[b].instrs[j].0 in p.pcToBlock && p.pcToBlock[g.blocks[b].instrs[j].0] == b)
  }

  /** Each join of several values is listed under each of them, and has them and no others as operands. */
  ghost predicate PhisRecorded(g: Cfg, outs: BlockMap, p: Program) {
    && (forall v, b: nat, r: Reg :: AtPhi(b, r) in UsesOf(p.uses, v) <==> IsPhiOperand(g, outs, b, r, v))
    && (forall u :: u in p.operands ==> u.Phi?)
    && (forall b: nat, r: Reg, v :: v in OperandsOf(p.operands, Phi(b, r)) <==> IsPhiOperand(g, outs, b, r, v))
  }

  function OperandsOf(operands: map<Value, set<Value>>, u: Value): set<Value> {
    if u in operands then operands[u] else {}
  }

  /** The recorded reads and phis are those of a fixed point. */
  ghost predicate Describes(g: Cfg, p: Program) {
    exists ins, outs :: Converged(g, ins, outs) && ReadsRecorded(g, ins, p) && PhisRecorded(g, outs, p)
  }

  ghost predicate IsReadOf(g: Cfg, ins: BlockMap, v: Value, pc: nat, r: Reg) {
    exists b, j :: ReadsAt(g, b, j, pc, r) && b in ins && ValueAt(g, ins, b, j, r) == v
  }

  ghost predicate IsPhiOperand(g: Cfg, outs: BlockMap, b: nat, r: Reg, v: Value) {
    b in g.blocks && |Incoming(g, outs, b, r)| > 1 && v in Incoming(g, outs, b, r)
  }

  // ----- Building the program

  /** The use lists so far: the reads of the instructions in done, on top of the phi uses. */
  ghost predicate RecordsSoFar(g: Cfg, ins: BlockMap, phiUses: map<Value, set<UseSite>>, done: set<(nat, nat)>,
                               useOf: map<(nat, Reg), Value>, uses: map<Value, set<UseSite>>) {
    && ins.Keys == g.blocks.Keys
    && (forall b: nat, j: nat, pc, r: Reg {:trigger ReadsAt(g, b, j, pc, r)} ::
      ReadsAt(g, b, j, pc, r) && (b, j) in done ==> UseRecorded(g, ins, useOf, uses, b, j, pc, r))
    && (forall v, pc, r: Reg :: AtInstr(pc, r) in UsesOf(uses, v) ==> IsReadOf(g, ins, v, pc, r))
    && (forall v, b, r: Reg :: AtPhi(b, r) in UsesOf(uses, v) <==> AtPhi(b, r) in UsesOf(phiUses, v))
  }

  lemma RecordOne(g: Cfg, ins: BlockMap, phiUses: map<Value, set<UseSite>>, done: set<(nat, nat)>,
                  useOf: map<(nat, Reg), Value>, uses: map<Value, set<UseSite>>, b: nat, j: nat, pc: nat, r: Reg)
    requires UniquePcs(g) && RecordsSoFar(g, ins, phiUses, done, useOf, uses) && (b, j) !in done
    requires ReadsAt(g, b, j, pc, r)
    ensures var v := ValueAt(g, ins, b, j, r);
      RecordsSoFar(g, ins, phiUses, done, useOf[(pc, r) := v], AddUse(uses, v, AtInstr(pc, r)))
  {
    var v := ValueAt(g, ins, b, j, r);
    assert IsReadOf(g, ins, v, pc, r);
  }

  method RecordInstr(g: Cfg, ghost ins: BlockMap, ghost phiUses: map<Value, set<UseSite>>, b: nat, j: nat, cur: RegMap,
                     useOf: map<(nat, Reg), Value>, uses: map<Value, set<UseSite>>, ghost done: set<(nat, nat)>)
    returns (useOf': map<(nat, Reg), Value>, uses': map<Value, set<UseSite>>)
    requires UniquePcs(g) && RecordsSoFar(g, ins, phiUses, done, useOf, uses) && (b, j) !in done
    requires b in g.blocks && j < |g.blocks[b].instrs|
    requires forall r: Reg :: cur[r] == ValueAt(g, ins, b, j, r)
    ensures RecordsSoFar(g, ins, phiUses, done + {(b, j)}, useOf', uses')
  {
    useOf', uses' := useOf, uses;
    var (pc, shape) := g.blocks[b].instrs[j];
    var regs := shape.Uses();
    for k := 0 to |regs|
      invariant RecordsSoFar(g, ins, phiUses, done, useOf', uses')
      invariant ReadsNoted(g, ins, useOf', uses', b, j, pc, regs[..k])
    {
      var r := regs[k];
      assert regs[..k + 1] == regs[..k] + [r];
      assert ReadsAt(g, b, j, pc, r);
      RecordOne(g, ins, phiUses, done, useOf', uses', b, j, pc, r);
      ReadNoted(g, ins, useOf', uses', b, j, pc, regs[..k], r);
      useOf', uses' := useOf'[(pc, r) := cur[r]], AddUse(uses', cur[r], AtInstr(pc, r));
    }
    assert regs[..|regs|] == regs;
    forall r: Reg | ReadsAt(g, b, j, pc, r) ensures UseRecorded(g, ins, useOf', uses', b, j, pc, r) {
      assert r in regs;
    }
  }

  ghost predicate ReadsNoted(g: Cfg, ins: BlockMap, useOf: map<(nat, Reg), Value>, uses: map<Value, set<UseSite>>,
      b: nat, j: nat, pc: nat, regs: seq<Reg>) {
    b in ins && forall r :: r in regs ==> ReadsAt(g, b, j, pc, r) && UseRecorded(g, ins, useOf, uses, b, j, pc, r)
  }

  lemma ReadNoted(g: Cfg, ins: BlockMap, useOf: map<(nat, Reg), Value>, uses: map<Value, set<UseSite>>, b: nat,
      j: nat, pc: nat, regs: seq<Reg>, r: Reg)
    requires ReadsNoted(g, ins, useOf, uses, b, j, pc, regs) && ReadsAt(g, b, j, pc, r)
    ensures var v := ValueAt(g, ins, b, j, r);
      ReadsNoted(g, ins, useOf[(pc, r) := v], AddUse(uses, v, AtInstr(pc, r)), b, j, pc, regs + [r])
  {
  }

  /** Records the reads of every instruction of b. */
  method RecordBlock(g: Cfg, ins: BlockMap, ghost phiUses: map<Value, set<UseSite>>, b: nat,
                     useOf: map<(nat, Reg), Value>, uses: map<Value, set<UseSite>>, ghost done: set<(nat, nat)>)
    returns (useOf': map<(nat, Reg), Value>, uses': map<Value, set<UseSite>>, ghost done': set<(nat, nat)>)
    requires UniquePcs(g) && RecordsSoFar(g, ins, phiUses, done, useOf, uses) && b in g.blocks
    requires forall j :: (b, j) !in done
    ensures RecordsSoFar(g, ins, phiUses, done', useOf', uses')
    ensures done' == done + set j | 0 <= j < |g.blocks[b].instrs| :: (b, j)
  {
    useOf', uses', done' := useOf, uses, done;
    var instrs := g.blocks[b].instrs;
    var cur := ins[b];
    for j := 0 to |instrs|
      invariant RecordsSoFar(g, ins, phiUses, done', useOf', uses')
      invariant done' == done + set k | 0 <= k < j :: (b, k)
      invariant forall r: Reg :: cur[r] == ValueAt(g, ins, b, j, r)
    {
      useOf', uses' := RecordInstr(g, ins, phiUses, b, j, cur, useOf', uses', done');
      done' := done' + {(b, j)};
      cur := StepDefs(g, ins, b, j, cur);
    }
  }

  method StepDefs(g: Cfg, ghost ins: BlockMap, b: nat, j: nat, cur: RegMap) returns (next: RegMap)
    requires b in g.blocks && b in ins && j < |g.blocks[b].instrs|
    requires forall r: Reg :: cur[r] == ValueAt(g, ins, b, j, r)
    ensures forall r: Reg :: next[r] == ValueAt(g, ins, b, j + 1, r)
  {
    var (pc, shape) := g.blocks[b].instrs[j];
    next := seq(13, r requires 0 <= r < 13 => if r in shape.Defs() then InstrDef(pc, r, b) else cur[r]);
    assert g.blocks[b].instrs[..j + 1][..j] == g.blocks[b].instrs[..j];
  }

  /** Gives each phi made that still joins several values its operands, and records those uses. */
  method InsertPhiOperands(g: Cfg, outs: BlockMap, phis: set<(nat, Reg)>)
    returns (operands: map<Value, set<Value>>, uses: map<Value, set<UseSite>>)
    ensures PhisInserted(g, outs, phis, {}, operands, uses)
  {
    operands, uses := map[], map[];
    var rest := phis;
    while rest != {}
      invariant rest <= phis && PhisInserted(g, outs, phis, rest, operands, uses)
      decreases rest
    {
      var key :| key in rest;
      assert rest == (rest - {key}) + {key};
      rest := rest - {key};
      operands, uses := InsertPhi(g, outs, phis, rest, key, operands, uses);
    }
  }

  method InsertPhi(g: Cfg, outs: BlockMap, ghost phis: set<(nat, Reg)>, ghost rest: set<(nat, Reg)>, key: (nat, Reg),
                   operands: map<Value, set<Value>>, uses: map<Value, set<UseSite>>)
    returns (operands': map<Value, set<Value>>, uses': map<Value, set<UseSite>>)
    requires key in phis && key !in rest && PhisInserted(g, outs, phis, rest + {key}, operands, uses)
    ensures PhisInserted(g, outs, phis, rest, operands', uses')
  {
    operands', uses' := operands, uses;
    var (b, r) := key;
    if b in g.blocks {
      var incoming := Incoming(g, outs, b, r);
      if |incoming| > 1 {
        uses' := AddPhiUses(uses, b, r, incoming);
        PhiInserted(g, outs, phis, rest, key, operands, uses, uses');
        operands' := operands[Phi(b, r) := incoming];
        return;
      }
    }
    PhiSkipped(g, outs, phis, rest, key, operands, uses);
  }

  lemma PhiSkipped(g: Cfg, outs: BlockMap, phis: set<(nat, Reg)>, rest: set<(nat, Reg)>, key: (nat, Reg),
                   operands: map<Value, set<Value>>, uses: map<Value, set<UseSite>>)
    requires key !in rest && (key.0 in g.blocks ==> |Incoming(g, outs, key.0, key.1)| <= 1)
    requires PhisInserted(g, outs, phis, rest + {key}, operands, uses)
    ensures PhisInserted(g, outs, phis, rest, operands, uses)
  {
    forall b: nat, r: Reg, v ensures IsPhiOperand(g, outs, b, r, v) ==> (b, r) != key {}
  }

  lemma PhiInserted(g: Cfg, outs: BlockMap, phis: set<(nat, Reg)>, rest: set<(nat, Reg)>, key: (nat, Reg),
                    operands: map<Value, set<Value>>, uses: map<Value, set<UseSite>>, uses': map<Value, set<UseSite>>)
    requires key in phis && key !in rest && key.0 in g.blocks && |Incoming(g, outs, key.0, key.1)| > 1
    requires PhisInserted(g, outs, phis, rest + {key}, operands, uses)
    requires forall v ::
      UsesOf(uses', v) == UsesOf(uses, v) + if v in Incoming(g, outs, key.0, key.1) then {AtPhi(key.0, key.1)} else {}
    ensures PhisInserted(g, outs, phis, rest, operands[Phi(key.0, key.1) := Incoming(g, outs, key.0, key.1)], uses')
  {
    PhiUseInserted(g, outs, phis, rest, key, uses, uses');
    OperandsInserted(g, outs, phis, rest, key, operands);
  }

  lemma PhiUseInserted(g: Cfg, outs: BlockMap, phis: set<(nat, Reg)>, rest: set<(nat, Reg)>, key: (nat, Reg),
                       uses: map<Value, set<UseSite>>, uses': map<Value, set<UseSite>>)
    requires key in phis && key !in rest && key.0 in g.blocks && |Incoming(g, outs, key.0, key.1)| > 1
    requires PhiUsesMatch(g, outs, phis, rest + {key}, uses)
    requires forall v ::
      UsesOf(uses', v) == UsesOf(uses, v) + if v in Incoming(g, outs, key.0, key.1) then {AtPhi(key.0, key.1)} else {}
    ensures PhiUsesMatch(g, outs, phis, rest, uses')
  {
    forall v, b: nat, r: Reg
      ensures AtPhi(b, r) in UsesOf(uses', v) <==> (b, r) in phis && (b, r) !in rest && IsPhiOperand(g, outs, b, r, v)
    {
      assert AtPhi(b, r) in UsesOf(uses, v) <==>
        (b, r) in phis && (b, r) !in rest + {key} && IsPhiOperand(g, outs, b, r, v);
      PhiUseAt(UsesOf(uses, v), UsesOf(uses', v), v in Incoming(g, outs, key.0, key.1), key, b, r);
    }
  }

  lemma PhiUseAt(uses: set<UseSite>, uses': set<UseSite>, added: bool, key: (nat, Reg), b: nat, r: Reg)
    requires uses' == uses + if added then {AtPhi(key.0, key.1)} else {}
    ensures AtPhi(b, r) in uses' <==> AtPhi(b, r) in uses || (added && (b, r) == key)
  {
  }

  lemma OperandsInserted(g: Cfg, outs: BlockMap, phis: set<(nat, Reg)>, rest: set<(nat, Reg)>, key: (nat, Reg),
      operands: map<Value, set<Value>>)
    requires key in phis && key !in rest && key.0 in g.blocks && |Incoming(g, outs, key.0, key.1)| > 1
    requires OperandsMatch(g, outs, phis, rest + {key}, operands)
    ensures OperandsMatch(g, outs, phis, rest, operands[Phi(key.0, key.1) := Incoming(g, outs, key.0, key.1)])
  {
    var operands' := operands[Phi(key.0, key.1) := Incoming(g, outs, key.0, key.1)];
    forall b: nat, r: Reg, v
      ensures v in OperandsOf(operands', Phi(b, r)) <==>
        (b, r) in phis && (b, r) !in rest && IsPhiOperand(g, outs, b, r, v)
    {
      if (b, r) != key { assert OperandsOf(operands', Phi(b, r)) == OperandsOf(operands, Phi(b, r)); }
    }
  }

  ghost predicate PhisInserted(g: Cfg, outs: BlockMap, phis: set<(nat, Reg)>, rest: set<(nat, Reg)>,
                               operands: map<Value, set<Value>>, uses: map<Value, set<UseSite>>) {
    && PhiUsesMatch(g, outs, phis, rest, uses) && OperandsMatch(g, outs, phis, rest, operands)
    && (forall v, pc, r: Reg :: AtInstr(pc, r) !in UsesOf(uses, v))
  }

  ghost predicate PhiUsesMatch(g: Cfg, outs: BlockMap, phis: set<(nat, Reg)>, rest: set<(nat, Reg)>,
      uses: map<Value, set<UseSite>>) {
    forall v, b: nat, r: Reg :: AtPhi(b, r) in UsesOf(uses, v) <==>
      (b, r) in phis && (b, r) !in rest && IsPhiOperand(g, outs, b, r, v)
  }

  ghost predicate OperandsMatch(g: Cfg, outs: BlockMap, phis: set<(nat, Reg)>, rest: set<(nat, Reg)>,
      operands: map<Value, set<Value>>) {
    && (forall u :: u in operands ==> u.Phi?)
    && (forall b: nat, r: Reg, v :: v in OperandsOf(operands, Phi(b, r)) <==>
      (b, r) in phis && (b, r) !in rest && IsPhiOperand(g, outs, b, r, v))
  }

  method AddPhiUses(uses: map<Value, set<UseSite>>, b: nat, r: Reg, incoming: set<Value>)
    returns (uses': map<Value, set<UseSite>>)
    ensures forall v :: UsesOf(uses', v) == UsesOf(uses, v) + if v in incoming then {AtPhi(b, r)} else {}
  {
    uses' := uses;
    var rest := incoming;
    while rest != {}
      invariant rest <= incoming
      invariant forall v ::
        UsesOf(uses', v) == UsesOf(uses, v) + if v in incoming && v !in rest then {AtPhi(b, r)} else {}
      decreases rest
    {
      var op :| op in rest;
      uses' := AddUse(uses', op, AtPhi(b, r));
      rest := rest - {op};
    }
  }

  method PcToBlock(g: Cfg) returns (m: map<nat, nat>)
    requires UniquePcs(g)
    ensures forall b, j :: b in g.blocks && 0 <= j < |g.blocks[b].instrs| ==>
      g.blocks[b].instrs[j].0 in m && m[g.blocks[b].instrs[j].0] == b
  {
    m := map[];
    var rest := g.blocks.Keys;
    while rest != {}
      invariant rest <= g.blocks.Keys
      invariant forall b, j :: b in g.blocks && b !in rest && 0 <= j < |g.blocks[b].instrs| ==>
        g.blocks[b].instrs[j].0 in m && m[g.blocks[b].instrs[j].0] == b
      decreases rest
    {
      var b :| b in rest;
      var instrs := g.blocks[b].instrs;
      for j := 0 to |instrs|
        invariant forall c, k :: c in g.blocks && c !in rest && 0 <= k < |g.blocks[c].instrs| ==>
          g.blocks[c].instrs[k].0 in m && m[g.blocks[c].instrs[k].0] == c
        invariant forall k :: 0 <= k < j ==> instrs[k].0 in m && m[instrs[k].0] == b
      {
        m := m[instrs[j].0 := b];
      }
      rest := rest - {b};
    }
  }

  /** Reverse post-order first, then the blocks it misses. */
  method BlockOrder(g: Cfg, rpo: seq<nat>) returns (order: seq<nat>)
    requires forall b :: b in rpo ==> b in g.blocks
    ensures forall b :: b in order <==> b in g.blocks
    ensures rpo <= order && ((forall b :: b in g.blocks ==> b in rpo) ==> order == rpo)
  {
    order := rpo;
    var all := Sorted(g.blocks.Keys);
    for i := 0 to |all|
      invariant rpo <= order && ((forall b :: b in g.blocks ==> b in rpo) ==> order == rpo)
      invariant forall b :: b in order ==> b in g.blocks
      invariant forall b :: b in rpo || b in all[..i] ==> b in order
    {
      assert all[i] in all;
      if all[i] !in order { order := order + [all[i]]; }
    }
    assert all[..|all|] == all;
  }

  lemma PhisAreComplete(g: Cfg, outs: BlockMap, phis: set<(nat, Reg)>, operands: map<Value, set<Value>>,
      phiUses: map<Value, set<UseSite>>, p: Program)
    requires PhisInserted(g, outs, phis, {}, operands, phiUses) && p.operands == operands
    requires forall b :: b in g.blocks ==> PhisMade(g, outs, phis, b)
    requires forall v, b, q: Reg :: AtPhi(b, q) in UsesOf(p.uses, v) <==> AtPhi(b, q) in UsesOf(phiUses, v)
    ensures PhisRecorded(g, outs, p)
  {
    forall b: nat, r: Reg, v | IsPhiOperand(g, outs, b, r, v) ensures (b, r) in phis {
      assert PhisMade(g, outs, phis, b);
    }
  }

  method RecordUses(g: Cfg, ins: BlockMap, phiUses: map<Value, set<UseSite>>)
    returns (useOf: map<(nat, Reg), Value>, uses: map<Value, set<UseSite>>)
    requires UniquePcs(g) && ins.Keys == g.blocks.Keys
    requires forall v, pc, r: Reg :: AtInstr(pc, r) !in UsesOf(phiUses, v)
    ensures forall b: nat, j: nat, pc, q: Reg {:trigger ReadsAt(g, b, j, pc, q)} ::
      ReadsAt(g, b, j, pc, q) ==> UseRecorded(g, ins, useOf, uses, b, j, pc, q)
    ensures forall v, pc, q: Reg :: AtInstr(pc, q) in UsesOf(uses, v) ==> IsReadOf(g, ins, v, pc, q)
    ensures forall v, b, q: Reg :: AtPhi(b, q) in UsesOf(uses, v) <==> AtPhi(b, q) in UsesOf(phiUses, v)
  {
    useOf, uses := map[], phiUses;
    ghost var done: set<(nat, nat)> := {};
    var rest := g.blocks.Keys;
    while rest != {}
      invariant rest <= g.blocks.Keys
      invariant RecordsSoFar(g, ins, phiUses, done, useOf, uses)
      invariant forall b, j :: (b, j) in done ==> b in g.blocks && b !in rest
      invariant forall b, j :: b in g.blocks && b !in rest && 0 <= j < |g.blocks[b].instrs| ==> (b, j) in done
      decreases rest
    {
      var b :| b in rest;
      useOf, uses, done := RecordBlock(g, ins, phiUses, b, useOf, uses, done);
      rest := rest - {b};
    }
  }

  // ----- Queries

  /** The only reader of the value, when it has exactly one reading instruction and feeds no phi. */
  method SingleInstructionUsePc(p: Program, v: Value) returns (pc: Option<nat>)
    ensures pc.Some? <==> exists s :: UsesOf(p.uses, v) == {s} && s.AtInstr?
    ensures pc.Some? ==> exists r :: UsesOf(p.uses, v) == {AtInstr(pc.value, r)}
  {
    pc := None;
    var uses := UsesOf(p.uses, v);
    if |uses| == 1 {
      var s :| s in uses;
      assert |uses - {s}| == 0;
      assert uses == {s};
      if s.AtInstr? { pc := Some(s.pc); }
    }
  }
}
