/** What it takes for rewritten code, with definitions left out, to run like the original. */
module FoldRuns {
  import opened Instructions
  import opened Graph
  import opened Ssa
  import opened SsaReaching
  import opened Words
  import opened Expressions
  import opened Folding

  /** Instruction j of block b is at pc. */
  ghost predicate Located(g: Cfg, pc: nat, b: nat, j: nat) {
    b in g.blocks && j < |g.blocks[b].instrs| && g.blocks[b].instrs[j].0 == pc
  }

  /** Every expression of reachable code has, on every run of the original, the original's value;
      only pure definitions are left out. */
  ghost predicate Stands(g: Cfg, outs: BlockMap, c0: Code, c: Code) {
    SameEffects(c0, c) && AllStand(g, outs, c0, c.exprs)
  }

  /** The same instructions have side effects, and none of those is left out. */
  ghost predicate SameEffects(c0: Code, c: Code) {
    && c.exprs.Keys == c0.exprs.Keys && c0.gone <= c.gone
    && (forall pc :: pc in c0.exprs ==> SameKind(c.exprs[pc], c0.exprs[pc]))
    && (forall pc :: pc in c.gone && pc !in c0.gone ==> pc in c0.exprs && !HasSideEffects(c0.exprs[pc]))
  }

  predicate SameKind(e: Tree, e0: Tree) {
    (HasSideEffects(e) <==> HasSideEffects(e0)) && (Yields(e) <==> Yields(e0))
  }

  ghost predicate AllStand(g: Cfg, outs: BlockMap, c0: Code, exprs: map<nat, Tree>) {
    forall pc :: pc in c0.exprs && pc in exprs ==> StandsAt(g, outs, c0, pc, exprs[pc])
  }

  ghost predicate StandsAt(g: Cfg, outs: BlockMap, c0: Code, pc: nat, e: Tree)
    requires pc in c0.exprs
  {
    forall b: nat, j: nat {:trigger Located(g, pc, b, j)} :: Located(g, pc, b, j) && Reachable(g, b) ==>
      Faithful(g, outs, c0, b, j, e, c0.exprs[pc])
  }

  /** v's definition is left out. */
  ghost predicate Lost(g: Cfg, c: Code, v: Value) {
    v.InstrDef? && v.pc in c.gone && exists i :: WrittenAt(g, v, i)
  }

  /** The instruction at pc is reachable, kept, and its expression mentions v. */
  ghost predicate Mentions(g: Cfg, c: Code, pc: nat, v: Value) {
    pc in c.exprs && pc !in c.gone && v in Vars(c.exprs[pc]) && exists b, j :: Located(g, pc, b, j) && Reachable(g, b)
  }

  /** Some kept instruction mentions a variable whose definition is left out. */
  ghost predicate Dangling(g: Cfg, c: Code) {
    exists pc, v :: Mentions(g, c, pc, v) && Lost(g, c, v)
  }

  ghost predicate PhisKept(g: Cfg, outs: BlockMap, c: Code) {
    forall b: nat, r: Reg, v :: IsPhiOperand(g, outs, b, r, v) ==> !Lost(g, c, v)
  }

  /** Nothing that is left out is missed. */
  ghost predicate Intact(g: Cfg, outs: BlockMap, c: Code) { !Dangling(g, c) && PhisKept(g, outs, c) }

  /** A pure definition's variable holds its expression wherever its block dominates. */
  lemma ValueHeld(g: Cfg, outs: BlockMap, c: Code, p: seq<nat>, h: History, m: Machine, w: World, d: Value, i: nat,
      k: nat)
    requires UniquePcs(g) && Stands(g, outs, c, c) && IsHistory(g, outs, c, p, h, m, w) && k < |p|
    requires WrittenAt(g, d, i) && Computes(c, d) && Reachable(g, d.block) && d.block != p[k] && Dom(g, d.block, p[k])
    requires p[k] in g.blocks && g.blocks[p[k]].instrs != []
    ensures At(h, k, 0)(d) == Eval(c.exprs[d.pc], At(h, k, 0), Then(h, k, 0))
  {
    var q := p[..k + 1];
    HistoryPrefix(g, outs, c, p, k, h, m, w);
    assert q[|q| - 1] == p[k] && |q| - 1 == k;
    assert StandsAt(g, outs, c, d.pc, c.exprs[d.pc]);
    assert Located(g, d.pc, d.block, i);
    FoldKeepsValue(g, outs, c, d, i, c.exprs[d.pc], p[k], 0, q, h, m, w);
  }

  // ----- Histories of the two agree

  ghost predicate SameStart(h: History, h': History) { forall v :: h.at(0, 0, v) == h'.at(0, 0, v) }

  /** Two histories on the same path, of the original and of the rewritten code. */
  ghost predicate Paired(g: Cfg, outs: BlockMap, c0: Code, c: Code, p: seq<nat>, h: History, h': History, m: Machine,
      w: World) {
    && WellFormed(g) && UniquePcs(g) && Stands(g, outs, c0, c) && Intact(g, outs, c)
    && IsHistory(g, outs, c0, p, h, m, w) && IsHistory(g, outs, c, p, h', m, w) && SameStart(h, h')
  }

  lemma OnPathReachable(g: Cfg, p: seq<nat>, t: nat)
    requires IsPath(g, p) && p[0] == g.entry && t < |p|
    ensures Reachable(g, p[t])
  {
    PathPrefix(g, p, t);
  }

  /** Variables that are not lost have the same contents throughout. */
  lemma {:induction false} Agree(g: Cfg, outs: BlockMap, c0: Code, c: Code, p: seq<nat>, h: History, h': History,
      m: Machine, w: World, t: nat, e: nat, v: Value)
    requires Paired(g, outs, c0, c, p, h, h', m, w) && !Lost(g, c, v)
    requires t < |p| && e <= Events(g, p[t])
    ensures h.at(t, e, v) == h'.at(t, e, v)
    decreases t, e, 1
  {
    if e == 0 {
      if t > 0 {
        assert h.at(t - 1 + 1, 0, v) == h.at(t - 1, Events(g, p[t - 1]), v) &&
          h'.at(t - 1 + 1, 0, v) == h'.at(t - 1, Events(g, p[t - 1]), v);
        Agree(g, outs, c0, c, p, h, h', m, w, t - 1, Events(g, p[t - 1]), v);
      }
    } else if v.Phi? && e == 1 && v.block == p[t] {
      AgreeAtPhi(g, outs, c0, c, p, h, h', m, w, t, v);
    } else if v.InstrDef? && Defines(g, p[t], e - 1, v) {
      AgreeAtDefinition(g, outs, c0, c, p, h, h', m, w, t, e - 2, v);
    } else {
      Agree(g, outs, c0, c, p, h, h', m, w, t, e - 1, v);
      assert !Defines(g, p[t], e - 1, v);
      assert h.at(t, e - 1, v) == h.at(t, e - 1 + 1, v) && h'.at(t, e - 1, v) == h'.at(t, e - 1 + 1, v);
    }
  }

  lemma {:induction false} AgreeAtPhi(g: Cfg, outs: BlockMap, c0: Code, c: Code, p: seq<nat>, h: History, h': History,
      m: Machine, w: World, t: nat, v: Value)
    requires Paired(g, outs, c0, c, p, h, h', m, w) && !Lost(g, c, v)
    requires t < |p| && v.Phi? && v.block == p[t]
    ensures h.at(t, 1, v) == h'.at(t, 1, v)
    decreases t, 1, 0
  {
    assert JoinsAt(g, outs, p, h, t, v) && JoinsAt(g, outs, p, h', t, v);
    if Meets(g, outs, p, t, v) {
      var q, b := p[t - 1], p[t];
      assert Edge(g, q, p[t]);
      assert q in g.blocks[b].preds;
      assert outs[q][v.reg] in Incoming(g, outs, b, v.reg);
      assert IsPhiOperand(g, outs, b, v.reg, outs[q][v.reg]);
      Agree(g, outs, c0, c, p, h, h', m, w, t, 0, outs[q][v.reg]);
    } else {
      Agree(g, outs, c0, c, p, h, h', m, w, t, 0, v);
    }
  }

  lemma {:induction false} AgreeAtDefinition(g: Cfg, outs: BlockMap, c0: Code, c: Code, p: seq<nat>, h: History,
      h': History, m: Machine, w: World, t: nat, j: nat, v: Value)
    requires Paired(g, outs, c0, c, p, h, h', m, w) && !Lost(g, c, v)
    requires WrittenIn(g, p, t, v, j)
    ensures h.at(t, j + 2, v) == h'.at(t, j + 2, v)
    decreases t, j + 2, 0
  {
    assert Kept(c, v) && Kept(c0, v);
    assert h.at(t, j + 2, v) == Stored(c0, At(h, t, j), Then(h, t, j), w, t, j, v);
    assert h'.at(t, j + 2, v) == Stored(c, At(h', t, j), Then(h', t, j), w, t, j, v);
    if v.pc in c0.exprs { SeenAlike(g, outs, c0, c, p, h, h', m, w, t, j, v.pc); }
  }

  /** A kept instruction comes to the same value in both. */
  lemma {:induction false} SeenAlike(g: Cfg, outs: BlockMap, c0: Code, c: Code, p: seq<nat>, h: History, h': History,
      m: Machine, w: World, t: nat, j: nat, pc: nat)
    requires Paired(g, outs, c0, c, p, h, h', m, w)
    requires t < |p| && Located(g, pc, p[t], j) && pc in c0.exprs && pc !in c.gone
    ensures Eval(c.exprs[pc], At(h', t, j), Then(h', t, j)) == Eval(c0.exprs[pc], At(h, t, j), Then(h, t, j))
    decreases t, j + 1, 2
  {
    OnPathReachable(g, p, t);
    forall v | v in Vars(c.exprs[pc]) ensures At(h', t, j)(v) == At(h, t, j)(v) {
      assert Mentions(g, c, pc, v);
      Agree(g, outs, c0, c, p, h, h', m, w, t, j + 1, v);
    }
    MachinesAgree(g, outs, c0, c, p, h, h', m, w, t, j + 1);
    EvalAgrees(c.exprs[pc], At(h', t, j), At(h, t, j), Then(h, t, j));
    HistoryPrefix(g, outs, c0, p, t, h, m, w);
    var q := p[..t + 1];
    assert q[|q| - 1] == p[t];
    assert StandsAt(g, outs, c0, pc, c.exprs[pc]);
    assert Faithful(g, outs, c0, p[t], j, c.exprs[pc], c0.exprs[pc]);
  }

  /** The machine is in the same state in both. */
  lemma {:induction false} MachinesAgree(g: Cfg, outs: BlockMap, c0: Code, c: Code, p: seq<nat>, h: History,
      h': History, m: Machine, w: World, t: nat, e: nat)
    requires Paired(g, outs, c0, c, p, h, h', m, w)
    requires t < |p| && e <= Events(g, p[t])
    ensures h.machine(t, e) == h'.machine(t, e)
    decreases t, e, 1
  {
    if e > 1 {
      MachinesAgreeAfter(g, outs, c0, c, p, h, h', m, w, t, e - 2);
    } else if e == 1 {
      MachinesAgree(g, outs, c0, c, p, h, h', m, w, t, 0);
      assert Evolved(g, c0, p, h, w, t, 0) && Evolved(g, c, p, h', w, t, 0);
    } else if t > 0 {
      var u: nat := t - 1;
      MachinesAgree(g, outs, c0, c, p, h, h', m, w, u, Events(g, p[u]));
      assert h.machine(u + 1, 0) == h.machine(u, Events(g, p[u]));
      assert h'.machine(u + 1, 0) == h'.machine(u, Events(g, p[u]));
    }
  }

  lemma {:induction false} MachinesAgreeAfter(g: Cfg, outs: BlockMap, c0: Code, c: Code, p: seq<nat>, h: History,
      h': History, m: Machine, w: World, t: nat, j: nat)
    requires Paired(g, outs, c0, c, p, h, h', m, w)
    requires t < |p| && j + 2 <= Events(g, p[t])
    ensures h.machine(t, j + 2) == h'.machine(t, j + 2)
    decreases t, j + 2, 0
  {
    var pc := g.blocks[p[t]].instrs[j].0;
    MachinesAgree(g, outs, c0, c, p, h, h', m, w, t, j + 1);
    assert h.machine(t, j + 1) == h'.machine(t, j + 1);
    assert Evolved(g, c0, p, h, w, t, j + 1) && Evolved(g, c, p, h', w, t, j + 1);
    if pc in c0.exprs && pc !in c.gone { SeenAlike(g, outs, c0, c, p, h, h', m, w, t, j, pc); }
    MovedAlike(c0, c, At(h, t, j), At(h', t, j), Then(h, t, j), w, t, j, pc);
  }

  lemma MovedAlike(c0: Code, c: Code, env: Value -> Word, env': Value -> Word, m: Machine, w: World, t: nat, j: nat,
      pc: nat)
    requires SameEffects(c0, c)
    requires pc in c0.exprs && pc !in c.gone ==> Eval(c.exprs[pc], env', m) == Eval(c0.exprs[pc], env, m)
    ensures Moved(c0, env, m, w, t, j, pc) == Moved(c, env', m, w, t, j, pc)
  {
    if pc in c0.exprs { assert SameKind(c.exprs[pc], c0.exprs[pc]); }
  }

  // ----- Runs of the two match

  lemma OutcomeAlike(g: Cfg, outs: BlockMap, c0: Code, c: Code, p: seq<nat>, h: History, h': History, m: Machine,
      w: World, t: nat)
    requires Paired(g, outs, c0, c, p, h, h', m, w) && t < |p|
    ensures Outcome(g, c0, p, h, t) == Outcome(g, c, p, h', t)
  {
    if p[t] in g.blocks && g.blocks[p[t]].instrs != [] {
      var j := |g.blocks[p[t]].instrs| - 1;
      var pc := g.blocks[p[t]].instrs[j].0;
      if pc in c0.exprs && pc !in c0.gone && HasSideEffects(c0.exprs[pc]) {
        SeenAlike(g, outs, c0, c, p, h, h', m, w, t, j, pc);
      }
    }
  }

  /** The two histories see the same at every instruction that is kept. */
  ghost predicate SeenEverywhere(g: Cfg, c0: Code, c: Code, p: seq<nat>, h: History, h': History) {
    forall t: nat, j: nat, pc {:trigger SeenAt(g, c0, c, p, h, h', t, j, pc)} ::
      SeenAt(g, c0, c, p, h, h', t, j, pc)
  }

  ghost predicate SeenAt(g: Cfg, c0: Code, c: Code, p: seq<nat>, h: History, h': History, t: nat, j: nat,
      pc: nat) {
    t < |p| && Located(g, pc, p[t], j) && pc in c0.exprs && pc in c.exprs && pc !in c.gone ==>
      Eval(c.exprs[pc], At(h', t, j), Then(h', t, j)) == Eval(c0.exprs[pc], At(h, t, j), Then(h, t, j))
  }

  /** A run of the original is matched by a run of the rewritten code on the same path, from the
      same contents, that sees the same at every kept instruction. */
  ghost predicate MatchedBy(g: Cfg, outs: BlockMap, c0: Code, c: Code, p: seq<nat>, h: History, m: Machine, w: World) {
    exists h' :: IsRun(g, outs, c, p, h', m, w) && SameStart(h, h') && SeenEverywhere(g, c0, c, p, h, h')
  }

  ghost predicate MatchedFrom(g: Cfg, outs: BlockMap, c0: Code, c: Code, p: seq<nat>, h': History, m: Machine,
      w: World) {
    exists h :: IsRun(g, outs, c0, p, h, m, w) && SameStart(h, h') && SeenEverywhere(g, c0, c, p, h, h')
  }

  /** The original and the rewritten code have the same runs: along the same paths, from the same
      contents, with every kept instruction coming to what it came to in the original. */
  lemma RunsMatch(g: Cfg, outs: BlockMap, c0: Code, c: Code, p: seq<nat>, h: History, m: Machine, w: World)
    requires WellFormed(g) && UniquePcs(g) && Stands(g, outs, c0, c) && Intact(g, outs, c)
    requires IsRun(g, outs, c0, p, h, m, w)
    ensures MatchedBy(g, outs, c0, c, p, h, m, w)
  {
    var init := (v: Value) => h.at(0, 0, v);
    var h' := ContentHistory(g, outs, c, p, m, w, init);
    HistoriesExist(g, outs, c, p, m, w, init);
    PairedSees(g, outs, c0, c, p, h, h', m, w);
    assert IsRun(g, outs, c, p, h', m, w);
  }

  /** Conversely every run of the rewritten code is one of the original. */
  lemma RunsAreOriginal(g: Cfg, outs: BlockMap, c0: Code, c: Code, p: seq<nat>, h': History, m: Machine, w: World)
    requires WellFormed(g) && UniquePcs(g) && Stands(g, outs, c0, c) && Intact(g, outs, c)
    requires IsRun(g, outs, c, p, h', m, w)
    ensures MatchedFrom(g, outs, c0, c, p, h', m, w)
  {
    var init := (v: Value) => h'.at(0, 0, v);
    var h := ContentHistory(g, outs, c0, p, m, w, init);
    HistoriesExist(g, outs, c0, p, m, w, init);
    PairedSees(g, outs, c0, c, p, h, h', m, w);
    assert IsRun(g, outs, c0, p, h, m, w);
  }

  /** c runs like c0: every run of one is a run of the other, seeing the same. */
  ghost predicate RunsLike(g: Cfg, outs: BlockMap, c0: Code, c: Code) {
    && (forall p, h, m, w :: IsRun(g, outs, c0, p, h, m, w) ==> MatchedBy(g, outs, c0, c, p, h, m, w))
    && (forall p, h', m, w :: IsRun(g, outs, c, p, h', m, w) ==> MatchedFrom(g, outs, c0, c, p, h', m, w))
  }

  lemma IntactRunsLike(g: Cfg, outs: BlockMap, c0: Code, c: Code)
    requires WellFormed(g) && UniquePcs(g) && Stands(g, outs, c0, c) && Intact(g, outs, c)
    ensures RunsLike(g, outs, c0, c)
  {
    forall p, h, m, w | IsRun(g, outs, c0, p, h, m, w) ensures MatchedBy(g, outs, c0, c, p, h, m, w) {
      RunsMatch(g, outs, c0, c, p, h, m, w);
    }
    forall p, h', m, w | IsRun(g, outs, c, p, h', m, w) ensures MatchedFrom(g, outs, c0, c, p, h', m, w) {
      RunsAreOriginal(g, outs, c0, c, p, h', m, w);
    }
  }

  lemma PairedSees(g: Cfg, outs: BlockMap, c0: Code, c: Code, p: seq<nat>, h: History, h': History, m: Machine,
      w: World)
    requires Paired(g, outs, c0, c, p, h, h', m, w)
    ensures SeenEverywhere(g, c0, c, p, h, h')
    ensures Steered(g, c0, p, h, w) <==> Steered(g, c, p, h', w)
  {
    forall t: nat, j: nat, pc ensures SeenAt(g, c0, c, p, h, h', t, j, pc) {
      if t < |p| && Located(g, pc, p[t], j) && pc in c0.exprs && pc in c.exprs && pc !in c.gone {
        SeenAlike(g, outs, c0, c, p, h, h', m, w, t, j, pc);
      }
    }
    forall t: nat | t < |p| ensures Outcome(g, c0, p, h, t) == Outcome(g, c, p, h', t) {
      OutcomeAlike(g, outs, c0, c, p, h, h', m, w, t);
    }
  }
}
