/** One cross-block fold: when it keeps values, and when nothing that is left out is missed. */
module FoldStep {
  import opened Instructions
  import opened Graph
  import opened Ssa
  import opened SsaReaching
  import opened Expressions
  import opened Folding
  import opened FoldRuns
  import opened Availability
  import Dominators
  import IdomForest

  /** What the pass works with, and the code it started from. */
  datatype Setting = Setting(g: Cfg, ins: BlockMap, outs: BlockMap, t: Dominators.DominatorTree, p: Program, c0: Code)

  ghost predicate Valid(s: Setting) {
    && WellFormed(s.g) && UniquePcs(s.g)
    && ReadsRecorded(s.g, s.ins, s.p) && PhisRecorded(s.g, s.outs, s.p)
    && TellsDominance(s.g, s.t)
    && LiftedOnce(s.g, s.c0)
  }

  /** What the tree says dominates does, and comes earlier in reverse post-order. */
  ghost predicate TellsDominance(g: Cfg, t: Dominators.DominatorTree) {
    forall a, b {:trigger Dominators.TreeDominates(t, a, b)} :: Dominators.TreeDominates(t, a, b) && a != b ==>
      Dominated(g, t, a, b)
  }

  ghost predicate Dominated(g: Cfg, t: Dominators.DominatorTree, a: nat, b: nat) {
    && a in g.blocks && b in g.blocks && Reachable(g, a) && Reachable(g, b) && Dom(g, a, b)
    && a in t.rank && b in t.rank && t.rank[a] < t.rank[b] < |t.rpo|
  }

  /** The computed dominator tree does. */
  lemma TreeTellsDominance(g: Cfg, t: Dominators.DominatorTree)
    requires t.entry == g.entry && Dominators.Converged(g, t.rpo, t.rank, t.idom)
    ensures TellsDominance(g, t)
  {
    forall a, b | Dominators.TreeDominates(t, a, b) && a != b ensures Dominated(g, t, a, b) {
      StrictlyDominated(g, t, a, b);
    }
  }

  ghost predicate SharesPure(c0: Code, d: Value, d': Value)
    requires d.InstrDef? && d'.InstrDef?
  {
    d.pc == d'.pc && d.pc in c0.exprs && !HasSideEffects(c0.exprs[d.pc])
  }

  /** Every instruction has an expression, and a pure one belongs to a single definition. */
  ghost predicate LiftedOnce(g: Cfg, c0: Code) {
    && (forall pc, b: nat, j: nat {:trigger Located(g, pc, b, j)} :: Located(g, pc, b, j) ==> pc in c0.exprs)
    && (forall d, i: nat, d', i': nat {:trigger WrittenAt(g, d, i), WrittenAt(g, d', i')} ::
      WrittenAt(g, d, i) && WrittenAt(g, d', i') && SharesPure(c0, d, d') ==> d == d')
  }

  lemma LiftedIsLiftedOnce(g: Cfg, ins: BlockMap, c0: Code)
    requires UniquePcs(g) && LiftedFrom(g, ins, c0.exprs)
    ensures LiftedOnce(g, c0)
  {
    forall pc, b: nat, j: nat | Located(g, pc, b, j) ensures pc in c0.exprs {
      assert LiftedAt(g, ins, c0.exprs, pc, b, j);
    }
    forall d, i: nat, d', i': nat | WrittenAt(g, d, i) && WrittenAt(g, d', i') && SharesPure(c0, d, d')
      ensures d == d'
    {
      assert Located(g, d.pc, d.block, i) && Located(g, d.pc, d'.block, i');
      assert LiftedAt(g, ins, c0.exprs, d.pc, d.block, i);
    }
  }

  ghost predicate SingleUse(p: Program, d: Value, u: nat) {
    exists q :: UsesOf(p.uses, d) == {AtInstr(u, q)}
  }

  /** The proof obligations the pass checks before folding d into the instruction at u. */
  ghost predicate Foldable(s: Setting, d: Value, u: nat) {
    && (exists i :: WrittenAt(s.g, d, i)) && Computes(s.c0, d) && SingleUse(s.p, d, u)
    && u in s.p.pcToBlock && d.block != s.p.pcToBlock[u]
    && Dominators.TreeDominates(s.t, d.block, s.p.pcToBlock[u])
  }

  /** d's expression replaces d in the expression at u, and d is left out. */
  function FoldOne(c: Code, d: Value, u: nat): Code
    requires d.InstrDef? && d.pc in c.exprs && u in c.exprs
  {
    Code(c.exprs[u := Substitute(c.exprs[u], d, c.exprs[d.pc])], c.gone + {d.pc})
  }

  /** A variable is mentioned where a use of it is recorded, or where such a use was folded to. */
  ghost predicate Recorded(g: Cfg, p: Program, c: Code) {
    forall pc, v {:trigger Mentions(g, c, pc, v)} :: Mentions(g, c, pc, v) && v.InstrDef? ==> RecordedAt(p, c, pc, v)
  }

  ghost predicate RecordedAt(p: Program, c: Code, pc: nat, v: Value) {
    exists y, r :: AtInstr(y, r) in UsesOf(p.uses, v) && (y == pc || y in c.gone)
  }

  /** Freshly lifted code mentions what is recorded. */
  lemma LiftedIsRecorded(g: Cfg, ins: BlockMap, p: Program, c0: Code)
    requires UniquePcs(g) && LiftedFrom(g, ins, c0.exprs) && ReadsRecorded(g, ins, p)
    ensures Recorded(g, p, c0)
  {
    forall pc, v | Mentions(g, c0, pc, v) && v.InstrDef? ensures RecordedAt(p, c0, pc, v) {
      var b, j: nat :| Located(g, pc, b, j) && Reachable(g, b);
      assert LiftedAt(g, ins, c0.exprs, pc, b, j);
      assert ReadsValue(g, ins, b, j, v);
      var r: Reg :| r in g.blocks[b].instrs[j].1.Uses() && v == ValueAt(g, ins, b, j, r);
      assert ReadsAt(g, b, j, pc, r);
      assert UseRecorded(g, ins, p.useOf, p.uses, b, j, pc, r);
      assert AtInstr(pc, r) in UsesOf(p.uses, v);
    }
  }

  // ----- Where the reader is

  lemma ReaderAt(s: Setting, d: Value, u: nat) returns (j: nat)
    requires Valid(s) && SingleUse(s.p, d, u)
    ensures u in s.p.pcToBlock && Located(s.g, u, s.p.pcToBlock[u], j) && u in s.c0.exprs
  {
    var q :| UsesOf(s.p.uses, d) == {AtInstr(u, q)};
    assert AtInstr(u, q) in UsesOf(s.p.uses, d);
    assert IsReadOf(s.g, s.ins, d, u, q);
    var b, k: nat :| ReadsAt(s.g, b, k, u, q);
    j := k;
    assert Located(s.g, u, b, j);
    assert s.p.pcToBlock[s.g.blocks[b].instrs[j].0] == b;
  }

  lemma StrictlyDominated(g: Cfg, t: Dominators.DominatorTree, a: nat, b: nat)
    requires t.entry == g.entry && Dominators.Converged(g, t.rpo, t.rank, t.idom)
    requires Dominators.TreeDominates(t, a, b) && a != b
    ensures Dominated(g, t, a, b)
  {
    assert IdomForest.Node(t.idom, b);
    IdomForest.UpBasics(t.idom, t.rank, t.entry, b);
    assert t.rpo[t.rank[b]] == b && t.rpo[t.rank[a]] == a;
    Dominators.InRpoIsBlock(g, t.rpo, t.rank, t.rank[a]);
    Dominators.InRpoIsBlock(g, t.rpo, t.rank, t.rank[b]);
    assert Reachable(g, a) && Reachable(g, b);
    Dominators.DominatesIsDominance(g, t, a, b);
  }

  /** Where the definition and its reader are. */
  lemma ReaderLocated(s: Setting, d: Value, u: nat) returns (i: nat, j: nat)
    requires Valid(s) && Foldable(s, d, u)
    ensures var b := s.p.pcToBlock[u];
      && WrittenAt(s.g, d, i) && Located(s.g, d.pc, d.block, i) && Located(s.g, u, b, j) && u in s.c0.exprs
      && Reachable(s.g, b) && Reachable(s.g, d.block) && u != d.pc && Dom(s.g, d.block, b)
      && d.block in s.t.rank && b in s.t.rank && s.t.rank[d.block] < s.t.rank[b] < |s.t.rpo|
      && d.pc in s.p.pcToBlock && s.p.pcToBlock[d.pc] == d.block
  {
    j := ReaderAt(s, d, u);
    var k: nat :| WrittenAt(s.g, d, k);
    i := k;
    assert s.p.pcToBlock[s.g.blocks[d.block].instrs[i].0] == d.block;
    assert Dominated(s.g, s.t, d.block, s.p.pcToBlock[u]);
  }

  // ----- Values

  lemma SameEffectsUpdate(c0: Code, c: Code, c': Code, u: nat, x: nat)
    requires SameEffects(c0, c) && u in c.exprs && c'.exprs.Keys == c.exprs.Keys && c'.gone == c.gone + {x}
    requires forall pc :: pc in c.exprs && pc != u ==> c'.exprs[pc] == c.exprs[pc]
    requires SameKind(c'.exprs[u], c.exprs[u])
    requires x in c0.exprs && !HasSideEffects(c0.exprs[x])
    ensures SameEffects(c0, c')
  {
  }

  lemma AllStandUpdate(g: Cfg, outs: BlockMap, c0: Code, exprs: map<nat, Tree>, u: nat, e: Tree)
    requires AllStand(g, outs, c0, exprs) && u in c0.exprs && StandsAt(g, outs, c0, u, e)
    ensures AllStand(g, outs, c0, exprs[u := e])
  {
    forall pc | pc in c0.exprs && pc in exprs[u := e] ensures StandsAt(g, outs, c0, pc, exprs[u := e][pc]) {
      if pc != u { assert StandsAt(g, outs, c0, pc, exprs[pc]); }
    }
  }

  lemma SubstituteSameKind(e: Tree, d: Value, repl: Tree)
    requires !HasSideEffects(repl)
    ensures SameKind(Substitute(e, d, repl), e)
  {
    SubstitutePure(e, d, repl);
  }

  /** One fold keeps every expression's value. */
  lemma FoldStands(s: Setting, c: Code, d: Value, u: nat)
    requires Valid(s) && Stands(s.g, s.outs, s.c0, c) && Foldable(s, d, u) && d.pc in c.exprs && u in c.exprs
    ensures Stands(s.g, s.outs, s.c0, FoldOne(c, d, u))
  {
    var i, j := ReaderLocated(s, d, u);
    FoldSameEffects(s.c0, c, d, u);
    ReaderStands(s, c.exprs, d, u, i);
    FoldAllStand(s.g, s.outs, s.c0, c, d, u);
  }

  lemma FoldSameEffects(c0: Code, c: Code, d: Value, u: nat)
    requires SameEffects(c0, c) && Computes(c0, d) && d.pc in c.exprs && u in c.exprs
    ensures !HasSideEffects(c.exprs[d.pc]) && SameEffects(c0, FoldOne(c, d, u))
  {
    assert SameKind(c.exprs[d.pc], c0.exprs[d.pc]);
    SubstituteSameKind(c.exprs[u], d, c.exprs[d.pc]);
    SameEffectsUpdate(c0, c, FoldOne(c, d, u), u, d.pc);
  }

  lemma FoldAllStand(g: Cfg, outs: BlockMap, c0: Code, c: Code, d: Value, u: nat)
    requires AllStand(g, outs, c0, c.exprs) && d.InstrDef? && d.pc in c.exprs && u in c.exprs && u in c0.exprs
    requires StandsAt(g, outs, c0, u, Substitute(c.exprs[u], d, c.exprs[d.pc]))
    ensures AllStand(g, outs, c0, FoldOne(c, d, u).exprs)
  {
    AllStandUpdate(g, outs, c0, c.exprs, u, Substitute(c.exprs[u], d, c.exprs[d.pc]));
  }

  lemma ReaderStands(s: Setting, exprs: map<nat, Tree>, d: Value, u: nat, i: nat)
    requires Valid(s) && AllStand(s.g, s.outs, s.c0, exprs) && Foldable(s, d, u) && d.pc in exprs && u in exprs
    requires WrittenAt(s.g, d, i) && !HasSideEffects(exprs[d.pc]) && u in s.c0.exprs
    ensures StandsAt(s.g, s.outs, s.c0, u, Substitute(exprs[u], d, exprs[d.pc]))
  {
    var eD, eU := exprs[d.pc], exprs[u];
    var k, j := ReaderLocated(s, d, u);
    assert StandsAt(s.g, s.outs, s.c0, u, eU) && StandsAt(s.g, s.outs, s.c0, d.pc, eD);
    forall b: nat, l: nat | Located(s.g, u, b, l) && Reachable(s.g, b)
      ensures Faithful(s.g, s.outs, s.c0, b, l, Substitute(eU, d, eD), s.c0.exprs[u])
    {
      assert b == s.p.pcToBlock[u];
      assert Located(s.g, d.pc, d.block, i);
      FoldIsFaithful(s.g, s.outs, s.c0, d, i, eD, b, l, eU, s.c0.exprs[u]);
    }
  }

  // ----- Nothing is missed

  /** What a fold makes lost is the folded variable only. */
  lemma NewlyLost(s: Setting, c: Code, d: Value, u: nat, v: Value)
    requires LiftedOnce(s.g, s.c0) && Foldable(s, d, u) && d.pc in c.exprs && u in c.exprs
    ensures Lost(s.g, FoldOne(c, d, u), v) <==> Lost(s.g, c, v) || v == d
  {
    var i: nat :| WrittenAt(s.g, d, i);
    if Lost(s.g, FoldOne(c, d, u), v) && v.pc == d.pc {
      var k: nat :| WrittenAt(s.g, v, k);
    }
  }

  /** No faithful expression mentions the variable it defines. */
  lemma NotInOwn(s: Setting, c: Code, d: Value, i: nat)
    requires Valid(s) && Stands(s.g, s.outs, s.c0, c) && WrittenAt(s.g, d, i) && Reachable(s.g, d.block)
    requires d.pc in c.exprs
    ensures d !in Vars(c.exprs[d.pc])
  {
    assert StandsAt(s.g, s.outs, s.c0, d.pc, c.exprs[d.pc]);
    assert Located(s.g, d.pc, d.block, i);
    assert Faithful(s.g, s.outs, s.c0, d.block, i, c.exprs[d.pc], s.c0.exprs[d.pc]);
    NotAvailableToItself(s.g, d, i);
  }

  lemma NotAvailableToItself(g: Cfg, d: Value, i: nat)
    requires UniquePcs(g) && WrittenAt(g, d, i)
    ensures !Available(g, d, d.block, i)
  {
    forall k: nat | WrittenAt(g, d, k) ensures k == i { WrittenOnce(g, d, i, k); }
  }

  /** What the reader mentions after the fold. */
  lemma MentionsAfter(s: Setting, c: Code, d: Value, u: nat, i: nat, x: nat, v: Value)
    requires d.InstrDef? && Located(s.g, d.pc, d.block, i) && Reachable(s.g, d.block) && d.pc != u
    requires d.pc in c.exprs && u in c.exprs && d.pc !in c.gone && d !in Vars(c.exprs[d.pc])
    requires Mentions(s.g, FoldOne(c, d, u), x, v)
    ensures x != d.pc && (Mentions(s.g, c, x, v) || (x == u && d in PlainVars(c.exprs[u]) && Mentions(s.g, c, d.pc, v)))
    ensures v == d ==> (x == u ==> d in RawVars(c.exprs[u])) && Mentions(s.g, c, x, d)
  {
    SubstituteVars(c.exprs[u], d, c.exprs[d.pc]);
    var b, k :| Located(s.g, x, b, k) && Reachable(s.g, b);
  }

  /** A fold whose reader is kept, and does not name the variable in raw text, misses nothing. */
  lemma FoldIntact(s: Setting, c: Code, d: Value, u: nat)
    requires Valid(s) && Stands(s.g, s.outs, s.c0, c) && Foldable(s, d, u) && d.pc in c.exprs && u in c.exprs
    requires Intact(s.g, s.outs, c) && Recorded(s.g, s.p, c)
    requires d.pc !in c.gone && u !in c.gone && d !in RawVars(c.exprs[u])
    ensures Intact(s.g, s.outs, FoldOne(c, d, u)) && Recorded(s.g, s.p, FoldOne(c, d, u))
  {
    var i, j := ReaderLocated(s, d, u);
    NotInOwn(s, c, d, i);
    MissesNothing(s, c, d, u, i);
  }

  lemma MissesNothing(s: Setting, c: Code, d: Value, u: nat, i: nat)
    requires PhisRecorded(s.g, s.outs, s.p) && LiftedOnce(s.g, s.c0) && Foldable(s, d, u)
    requires Located(s.g, d.pc, d.block, i) && Reachable(s.g, d.block) && d.pc != u
    requires d.pc in c.exprs && u in c.exprs && d !in Vars(c.exprs[d.pc])
    requires Intact(s.g, s.outs, c) && Recorded(s.g, s.p, c)
    requires d.pc !in c.gone && u !in c.gone && d !in RawVars(c.exprs[u])
    ensures Intact(s.g, s.outs, FoldOne(c, d, u)) && Recorded(s.g, s.p, FoldOne(c, d, u))
  {
    var c' := FoldOne(c, d, u);
    forall x, v | Mentions(s.g, c', x, v) ensures !Lost(s.g, c', v) && (v.InstrDef? ==> RecordedAt(s.p, c', x, v)) {
      MentionFollows(s, c, d, u, i, x, v);
    }
    forall b: nat, r: Reg, v | IsPhiOperand(s.g, s.outs, b, r, v) ensures !Lost(s.g, c', v) {
      NewlyLost(s, c, d, u, v);
      assert AtPhi(b, r) in UsesOf(s.p.uses, v);
    }
  }

  lemma MentionFollows(s: Setting, c: Code, d: Value, u: nat, i: nat, x: nat, v: Value)
    requires LiftedOnce(s.g, s.c0) && Foldable(s, d, u)
    requires Located(s.g, d.pc, d.block, i) && Reachable(s.g, d.block) && d.pc != u
    requires d.pc in c.exprs && u in c.exprs && d !in Vars(c.exprs[d.pc])
    requires !Dangling(s.g, c) && Recorded(s.g, s.p, c)
    requires d.pc !in c.gone && u !in c.gone && d !in RawVars(c.exprs[u])
    requires Mentions(s.g, FoldOne(c, d, u), x, v)
    ensures !Lost(s.g, FoldOne(c, d, u), v) && (v.InstrDef? ==> RecordedAt(s.p, FoldOne(c, d, u), x, v))
  {
    var c' := FoldOne(c, d, u);
    var q :| UsesOf(s.p.uses, d) == {AtInstr(u, q)};
    MentionsAfter(s, c, d, u, i, x, v);
    NewlyLost(s, c, d, u, v);
    if v == d { assert RecordedAt(s.p, c, x, d); }
    if Mentions(s.g, c, x, v) {
      if v.InstrDef? { RecordedStays(s.p, c, c', x, x, v); }
    } else if v.InstrDef? {
      RecordedStays(s.p, c, c', d.pc, x, v);
    }
  }

  lemma RecordedStays(p: Program, c: Code, c': Code, y: nat, x: nat, v: Value)
    requires RecordedAt(p, c, y, v) && c.gone <= c'.gone && (y == x || y in c'.gone)
    ensures RecordedAt(p, c', x, v)
  {
  }
}
