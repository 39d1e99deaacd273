/** A round of folds: the candidates gathered at its start, folded in order of their addresses. */
module FoldRound {
  import opened Graph
  import opened Ssa
  import opened SsaReaching
  import opened Expressions
  import opened Folding
  import opened FoldRuns
  import opened FoldStep
  import Dominators

  type Candidate = (Value, nat)

  /** Each candidate may be folded as the code stands. */
  ghost predicate Admitted(s: Setting, c: Code, cs: set<Candidate>) {
    forall k {:trigger Foldable(s, k.0, k.1)} :: k in cs ==>
      Foldable(s, k.0, k.1) && k.0.pc !in c.gone && k.1 !in c.gone
  }

  // ----- When a round goes wrong

  /** k's reader is itself the definition of a candidate that is folded before k. */
  predicate Stale(cs: set<Candidate>, k: Candidate, l: Candidate) {
    k in cs && l in cs && k.0.InstrDef? && l.0.InstrDef? && l.0.pc == k.1 && l.0.pc < k.0.pc
  }

  predicate NamedInRaw(c: Code, k: Candidate) { k.1 in c.exprs && k.0 in RawVars(c.exprs[k.1]) }

  /** What can be checked before the round: no reader names the candidate in raw text, and none
      is the definition of a candidate at a lower address. */
  ghost predicate Clean(c: Code, cs: set<Candidate>) {
    (forall k :: k in cs ==> !NamedInRaw(c, k)) && NoneStale(cs)
  }

  ghost predicate NoneStale(cs: set<Candidate>) {
    forall k, l :: !Stale(cs, k, l)
  }

  /** Every reader mentions what it is recorded to read. */
  ghost predicate AllMentioned(c: Code, cs: set<Candidate>) {
    forall k {:trigger MentionedBy(c, k)} :: k in cs ==> MentionedBy(c, k)
  }

  ghost predicate MentionedBy(c: Code, k: Candidate) { k.1 in c.exprs && k.0 in Vars(c.exprs[k.1]) }

  // ----- The state of a round

  ghost predicate FoldedAt(cs: set<Candidate>, rest: set<Candidate>, pc: nat) {
    exists k :: k in cs && k !in rest && k.0.InstrDef? && k.0.pc == pc
  }

  /** The code c after some of the candidates, with those in rest still to come. */
  ghost predicate InRound(s: Setting, c1: Code, cs: set<Candidate>, rest: set<Candidate>, c: Code) {
    && Stands(s.g, s.outs, s.c0, c) && rest <= cs && c1.exprs.Keys == c.exprs.Keys
    && (forall pc :: pc in c.gone <==> pc in c1.gone || FoldedAt(cs, rest, pc))
    && (forall k, l :: k in cs && k !in rest && l in rest && k.0.InstrDef? && l.0.InstrDef? ==> k.0.pc <= l.0.pc)
    && (forall pc :: pc in c.exprs ==> RawVars(c.exprs[pc]) == RawVars(c1.exprs[pc]))
  }

  ghost predicate Lowest(rest: set<Candidate>, k: Candidate) {
    k in rest && k.0.InstrDef? && forall l :: l in rest && l.0.InstrDef? ==> k.0.pc <= l.0.pc
  }

  lemma OneCandidate(s: Setting, cs: set<Candidate>, c: Code, k: Candidate, l: Candidate)
    requires Valid(s) && Admitted(s, c, cs) && k in cs && l in cs && k.0.InstrDef? && l.0.InstrDef? && k.0.pc == l.0.pc
    ensures k == l
  {
    assert Foldable(s, k.0, k.1) && Foldable(s, l.0, l.1);
    var i: nat :| WrittenAt(s.g, k.0, i);
    var j: nat :| WrittenAt(s.g, l.0, j);
    assert k.0 == l.0;
    var q :| UsesOf(s.p.uses, k.0) == {AtInstr(k.1, q)};
    var r :| UsesOf(s.p.uses, l.0) == {AtInstr(l.1, r)};
    assert AtInstr(k.1, q) in {AtInstr(l.1, r)};
  }

  /** A candidate still to come is kept, and can be folded. */
  lemma StillThere(s: Setting, c1: Code, cs: set<Candidate>, rest: set<Candidate>, c: Code, k: Candidate)
    requires Valid(s) && Admitted(s, c1, cs) && InRound(s, c1, cs, rest, c) && k in rest
    ensures Foldable(s, k.0, k.1) && k.0.pc !in c.gone && k.0.pc in c.exprs && k.1 in c.exprs
    ensures !HasSideEffects(c.exprs[k.0.pc])
  {
    assert Foldable(s, k.0, k.1);
    var i, j := ReaderLocated(s, k.0, k.1);
    if FoldedAt(cs, rest, k.0.pc) {
      var l :| l in cs && l !in rest && l.0.InstrDef? && l.0.pc == k.0.pc;
      OneCandidate(s, cs, c1, k, l);
    }
  }

  /** Its reader is kept too, unless the candidate is stale. */
  lemma ReaderStillThere(s: Setting, c1: Code, cs: set<Candidate>, rest: set<Candidate>, c: Code, k: Candidate)
    requires Valid(s) && Admitted(s, c1, cs) && InRound(s, c1, cs, rest, c) && k in rest
    ensures k.1 in c.gone ==> exists l :: Stale(cs, k, l)
  {
    assert Foldable(s, k.0, k.1);
    var i, j := ReaderLocated(s, k.0, k.1);
    if k.1 in c.gone {
      assert FoldedAt(cs, rest, k.1);
      var l :| l in cs && l !in rest && l.0.InstrDef? && l.0.pc == k.1;
      assert Stale(cs, k, l);
    }
  }

  /** A stale candidate's reader has been folded away when its turn comes. */
  lemma StaleReaderGone(s: Setting, c1: Code, cs: set<Candidate>, rest: set<Candidate>, c: Code, k: Candidate,
      l: Candidate)
    requires Valid(s) && Admitted(s, c1, cs) && InRound(s, c1, cs, rest, c) && Lowest(rest, k) && Stale(cs, k, l)
    ensures k.1 in c.gone
  {
    assert l !in rest;
    assert FoldedAt(cs, rest, k.1);
  }

  lemma RoundStep(s: Setting, c1: Code, cs: set<Candidate>, rest: set<Candidate>, c: Code, k: Candidate)
    requires Valid(s) && Admitted(s, c1, cs) && InRound(s, c1, cs, rest, c) && Lowest(rest, k)
    ensures k.0.pc in c.exprs && k.1 in c.exprs && InRound(s, c1, cs, rest - {k}, FoldOne(c, k.0, k.1))
  {
    StillThere(s, c1, cs, rest, c, k);
    FoldStands(s, c, k.0, k.1);
    FoldedNext(s, c1, cs, rest, c, FoldOne(c, k.0, k.1), k);
  }

  lemma FoldedNext(s: Setting, c1: Code, cs: set<Candidate>, rest: set<Candidate>, c: Code, c': Code, k: Candidate)
    requires InRound(s, c1, cs, rest, c) && Lowest(rest, k) && k.0.pc in c.exprs && k.1 in c.exprs
    requires !HasSideEffects(c.exprs[k.0.pc]) && c' == FoldOne(c, k.0, k.1) && Stands(s.g, s.outs, s.c0, c')
    ensures InRound(s, c1, cs, rest - {k}, c')
  {
    SubstituteVars(c.exprs[k.1], k.0, c.exprs[k.0.pc]);
    PureHasNoRaw(c.exprs[k.0.pc]);
    FoldedPcs(cs, rest, k);
  }

  lemma FoldedPcs(cs: set<Candidate>, rest: set<Candidate>, k: Candidate)
    requires rest <= cs && k in rest && k.0.InstrDef?
    ensures forall pc :: FoldedAt(cs, rest - {k}, pc) <==> FoldedAt(cs, rest, pc) || pc == k.0.pc
  {
    var rest' := rest - {k};
    forall pc ensures FoldedAt(cs, rest', pc) <==> FoldedAt(cs, rest, pc) || pc == k.0.pc {
      if pc == k.0.pc { assert k in cs && k !in rest'; }
      if FoldedAt(cs, rest, pc) {
        var l :| l in cs && l !in rest && l.0.InstrDef? && l.0.pc == pc;
        assert l !in rest';
      }
    }
  }

  // ----- Clean rounds

  lemma CleanStep(s: Setting, c1: Code, cs: set<Candidate>, rest: set<Candidate>, c: Code, k: Candidate)
    requires Valid(s) && Admitted(s, c1, cs) && InRound(s, c1, cs, rest, c) && Lowest(rest, k)
    requires Clean(c1, cs) && Intact(s.g, s.outs, c) && Recorded(s.g, s.p, c)
    requires k.0.pc in c.exprs && k.1 in c.exprs
    ensures Intact(s.g, s.outs, FoldOne(c, k.0, k.1)) && Recorded(s.g, s.p, FoldOne(c, k.0, k.1))
  {
    StillThere(s, c1, cs, rest, c, k);
    ReaderStillThere(s, c1, cs, rest, c, k);
    assert !NamedInRaw(c1, k);
    FoldIntact(s, c, k.0, k.1);
  }

  // ----- Rounds that are not clean

  lemma MentionedStep(s: Setting, c1: Code, cs: set<Candidate>, rest: set<Candidate>, c: Code, k: Candidate)
    requires Valid(s) && Admitted(s, c1, cs) && InRound(s, c1, cs, rest, c) && Lowest(rest, k)
    requires AllMentioned(c, rest) && k.0.pc in c.exprs && k.1 in c.exprs
    ensures AllMentioned(FoldOne(c, k.0, k.1), rest - {k})
  {
    forall l | l in rest - {k} ensures MentionedBy(FoldOne(c, k.0, k.1), l) {
      assert MentionedBy(c, l);
      if l.0 == k.0 { OneCandidate(s, cs, c1, k, l); }
      StillMentions(c, k.0, k.1, l);
    }
  }

  lemma StillMentions(c: Code, d: Value, u: nat, l: Candidate)
    requires d.InstrDef? && d.pc in c.exprs && u in c.exprs
    requires l.1 in c.exprs && l.0 in Vars(c.exprs[l.1]) && l.0 != d
    ensures l.0 in Vars(FoldOne(c, d, u).exprs[l.1])
  {
    SubstituteVars(c.exprs[u], d, c.exprs[d.pc]);
  }

  /** Raw text that is kept names a variable that is lost: nothing later mends that. */
  ghost predicate RawDangling(g: Cfg, c: Code) {
    exists x, v :: NamesLost(g, c, x, v)
  }

  ghost predicate NamesLost(g: Cfg, c: Code, x: nat, v: Value) {
    Mentions(g, c, x, v) && v in RawVars(c.exprs[x]) && Lost(g, c, v)
  }

  lemma RawDanglingStays(s: Setting, c: Code, d: Value, u: nat)
    requires LiftedOnce(s.g, s.c0) && Foldable(s, d, u) && d.pc in c.exprs && u in c.exprs
    requires !HasSideEffects(c.exprs[d.pc]) && RawDangling(s.g, c)
    ensures RawDangling(s.g, FoldOne(c, d, u))
  {
    var x, v :| NamesLost(s.g, c, x, v);
    PureHasNoRaw(c.exprs[d.pc]);
    SubstituteVars(c.exprs[u], d, c.exprs[d.pc]);
    NewlyLost(s, c, d, u, v);
    assert NamesLost(s.g, FoldOne(c, d, u), x, v);
  }

  /** Folding into raw text, which stays as it is. */
  lemma RawReaderDangles(s: Setting, c: Code, d: Value, u: nat, b: nat, j: nat)
    requires LiftedOnce(s.g, s.c0) && Foldable(s, d, u) && d.pc in c.exprs && u in c.exprs && u != d.pc
    requires Located(s.g, u, b, j) && Reachable(s.g, b)
    requires d in RawVars(c.exprs[u]) && u !in c.gone
    ensures RawDangling(s.g, FoldOne(c, d, u))
  {
    SubstituteVars(c.exprs[u], d, c.exprs[d.pc]);
    NewlyLost(s, c, d, u, d);
    assert NamesLost(s.g, FoldOne(c, d, u), u, d);
  }

  /** Raw readers are never folded away. */
  lemma RawReaderKept(s: Setting, c1: Code, cs: set<Candidate>, rest: set<Candidate>, c: Code, k: Candidate)
    requires Valid(s) && Admitted(s, c1, cs) && InRound(s, c1, cs, rest, c) && k in cs && k.1 in c.exprs
    requires k.0 in RawVars(c.exprs[k.1])
    ensures k.1 !in c.gone
  {
    assert Foldable(s, k.0, k.1);
    if FoldedAt(cs, rest, k.1) {
      var l :| l in cs && l !in rest && l.0.InstrDef? && l.0.pc == k.1;
      assert Foldable(s, l.0, l.1);
      PureHasNoRaw(c.exprs[k.1]);
    }
  }

  /** How late the block of an instruction comes in reverse post-order. */
  function RankOf(s: Setting, pc: nat): nat {
    if pc in s.p.pcToBlock && s.p.pcToBlock[pc] in s.t.rank then s.t.rank[s.p.pcToBlock[pc]] else 0
  }

  /** A stale candidate whose reader no other stale candidate's reader comes after. */
  ghost predicate LastStale(s: Setting, cs: set<Candidate>, k: Candidate, l: Candidate) {
    Stale(cs, k, l) && forall x, y :: Stale(cs, x, y) ==> RankOf(s, x.1) <= RankOf(s, k.1)
  }

  lemma {:induction false} LastStaleExists(s: Setting, c: Code, cs: set<Candidate>, k: Candidate, l: Candidate)
    returns (k': Candidate, l': Candidate)
    requires Valid(s) && Admitted(s, c, cs) && Stale(cs, k, l) && RankOf(s, k.1) < |s.t.rpo|
    ensures LastStale(s, cs, k', l')
    decreases |s.t.rpo| - RankOf(s, k.1)
  {
    if x, y :| Stale(cs, x, y) && RankOf(s, x.1) > RankOf(s, k.1) {
      RankBounded(s, c, cs, x);
      k', l' := LastStaleExists(s, c, cs, x, y);
    } else {
      k', l' := k, l;
    }
  }

  lemma RankBounded(s: Setting, c: Code, cs: set<Candidate>, k: Candidate)
    requires Valid(s) && Admitted(s, c, cs) && k in cs
    ensures RankOf(s, k.1) < |s.t.rpo|
  {
    assert Foldable(s, k.0, k.1);
    var i, j := ReaderLocated(s, k.0, k.1);
  }

  /** A kept instruction, at least as late as r, mentions d. */
  ghost predicate Carried(s: Setting, c: Code, r: nat, d: Value) {
    exists x :: Mentions(s.g, c, x, d) && RankOf(s, x) >= r
  }

  /** The carrier is folded away: its reader, which is kept, mentions d from then on. */
  lemma CarrierFolded(s: Setting, c1: Code, cs: set<Candidate>, rest: set<Candidate>, c: Code, k: Candidate, r: nat,
      d: Value)
    requires Valid(s) && Admitted(s, c1, cs) && InRound(s, c1, cs, rest, c) && Lowest(rest, k)
    requires MentionedBy(c, k) && k.0.pc in c.exprs
    requires Mentions(s.g, c, k.0.pc, d) && RankOf(s, k.0.pc) >= r
    requires forall x, y :: Stale(cs, x, y) ==> RankOf(s, x.1) <= r
    ensures Carried(s, FoldOne(c, k.0, k.1), r, d) || RawDangling(s.g, FoldOne(c, k.0, k.1))
  {
    StillThere(s, c1, cs, rest, c, k);
    ReaderStillThere(s, c1, cs, rest, c, k);
    var i, j := ReaderLocated(s, k.0, k.1);
    ReaderCarries(s, c, k.0, k.1, s.p.pcToBlock[k.1], j, r, d);
  }

  lemma ReaderCarries(s: Setting, c: Code, k: Value, u: nat, b: nat, j: nat, r: nat, d: Value)
    requires LiftedOnce(s.g, s.c0) && Foldable(s, k, u) && k.pc in c.exprs && u in c.exprs && u != k.pc
    requires Located(s.g, u, b, j) && Reachable(s.g, b) && u !in c.gone && RankOf(s, u) >= r
    requires k in Vars(c.exprs[u]) && !HasSideEffects(c.exprs[k.pc]) && d in Vars(c.exprs[k.pc])
    ensures Carried(s, FoldOne(c, k, u), r, d) || RawDangling(s.g, FoldOne(c, k, u))
  {
    if k in RawVars(c.exprs[u]) {
      RawReaderDangles(s, c, k, u, b, j);
    } else {
      PureHasNoRaw(c.exprs[k.pc]);
      SubstituteVars(c.exprs[u], k, c.exprs[k.pc]);
      assert Mentions(s.g, FoldOne(c, k, u), u, d);
    }
  }

  /** The carrier is kept. */
  lemma CarrierStays(s: Setting, c: Code, d: Value, u: nat, r: nat, v: Value, x: nat)
    requires d.InstrDef? && d.pc in c.exprs && u in c.exprs
    requires Mentions(s.g, c, x, v) && RankOf(s, x) >= r && x != d.pc && (x == u ==> v != d)
    ensures Carried(s, FoldOne(c, d, u), r, v)
  {
    SubstituteVars(c.exprs[u], d, c.exprs[d.pc]);
    assert Mentions(s.g, FoldOne(c, d, u), x, v);
  }

  lemma CarriedStep(s: Setting, c1: Code, cs: set<Candidate>, rest: set<Candidate>, c: Code, k: Candidate,
      a: Candidate, b: Candidate)
    requires Valid(s) && Admitted(s, c1, cs) && InRound(s, c1, cs, rest, c) && Lowest(rest, k)
    requires MentionedBy(c, k) && k.0.pc in c.exprs
    requires CarriedStale(s, cs, c, a, b)
    ensures Carried(s, FoldOne(c, k.0, k.1), RankOf(s, a.1), a.0) || RawDangling(s.g, FoldOne(c, k.0, k.1))
  {
    var x :| Mentions(s.g, c, x, a.0) && RankOf(s, x) >= RankOf(s, a.1);
    if x == k.0.pc {
      CarrierFolded(s, c1, cs, rest, c, k, RankOf(s, a.1), a.0);
    } else {
      if x == k.1 && a.0 == k.0 {
        OneCandidate(s, cs, c1, k, a);
        StaleReaderGone(s, c1, cs, rest, c, k, b);
      }
      CarrierStays(s, c, k.0, k.1, RankOf(s, a.1), a.0, x);
    }
  }

  /** Something kept will mention something lost when the round is over. */
  ghost predicate Doomed(s: Setting, cs: set<Candidate>, rest: set<Candidate>, c: Code) {
    || RawDangling(s.g, c)
    || SomeNamed(c, rest)
    || StaleCarried(s, cs, c)
  }

  ghost predicate SomeNamed(c: Code, rest: set<Candidate>) { exists k :: NamedOf(c, rest, k) }

  ghost predicate NamedOf(c: Code, rest: set<Candidate>, k: Candidate) { k in rest && NamedInRaw(c, k) }

  ghost predicate StaleCarried(s: Setting, cs: set<Candidate>, c: Code) {
    exists a, b :: CarriedStale(s, cs, c, a, b)
  }

  ghost predicate CarriedStale(s: Setting, cs: set<Candidate>, c: Code, a: Candidate, b: Candidate) {
    LastStale(s, cs, a, b) && Carried(s, c, RankOf(s, a.1), a.0)
  }

  lemma DoomedAtFirst(s: Setting, c1: Code, cs: set<Candidate>)
    requires Valid(s) && Admitted(s, c1, cs) && AllMentioned(c1, cs) && !Clean(c1, cs)
    ensures Doomed(s, cs, cs, c1)
  {
    if k :| k in cs && NamedInRaw(c1, k) {
      assert NamedOf(c1, cs, k);
    }
    if k, l :| Stale(cs, k, l) {
      RankBounded(s, c1, cs, k);
      var a, b := LastStaleExists(s, c1, cs, k, l);
      assert Foldable(s, a.0, a.1);
      var i, j := ReaderLocated(s, a.0, a.1);
      assert MentionedBy(c1, a);
      assert Mentions(s.g, c1, a.1, a.0);
      assert CarriedStale(s, cs, c1, a, b);
    }
  }

  /** A candidate named in raw text whose turn has come. */
  lemma NamedTurn(s: Setting, c1: Code, cs: set<Candidate>, rest: set<Candidate>, c: Code, k: Candidate)
    requires Valid(s) && Admitted(s, c1, cs) && InRound(s, c1, cs, rest, c) && Lowest(rest, k)
    requires NamedInRaw(c, k) && k.0.pc in c.exprs
    ensures RawDangling(s.g, FoldOne(c, k.0, k.1))
  {
    StillThere(s, c1, cs, rest, c, k);
    RawReaderKept(s, c1, cs, rest, c, k);
    var i, j := ReaderLocated(s, k.0, k.1);
    RawReaderDangles(s, c, k.0, k.1, s.p.pcToBlock[k.1], j);
  }

  /** Any other stays named. */
  lemma StaysNamed(c: Code, rest: set<Candidate>, k: Candidate, n: Candidate)
    requires k.0.InstrDef? && k.0.pc in c.exprs && k.1 in c.exprs && NamedOf(c, rest, n) && n != k
    ensures NamedOf(FoldOne(c, k.0, k.1), rest - {k}, n)
  {
    SubstituteVars(c.exprs[k.1], k.0, c.exprs[k.0.pc]);
  }

  lemma NamedDooms(s: Setting, c1: Code, cs: set<Candidate>, rest: set<Candidate>, c: Code, k: Candidate)
    requires Valid(s) && Admitted(s, c1, cs) && InRound(s, c1, cs, rest, c) && Lowest(rest, k)
    requires SomeNamed(c, rest) && k.0.pc in c.exprs && k.1 in c.exprs
    ensures SomeNamed(FoldOne(c, k.0, k.1), rest - {k}) || RawDangling(s.g, FoldOne(c, k.0, k.1))
  {
    var n :| NamedOf(c, rest, n);
    if n == k {
      NamedTurn(s, c1, cs, rest, c, k);
    } else {
      StaysNamed(c, rest, k, n);
    }
  }

  lemma CarriedDooms(s: Setting, c1: Code, cs: set<Candidate>, rest: set<Candidate>, c: Code, k: Candidate)
    requires Valid(s) && Admitted(s, c1, cs) && InRound(s, c1, cs, rest, c) && Lowest(rest, k)
    requires MentionedBy(c, k) && StaleCarried(s, cs, c) && k.0.pc in c.exprs
    ensures StaleCarried(s, cs, FoldOne(c, k.0, k.1)) || RawDangling(s.g, FoldOne(c, k.0, k.1))
  {
    var a, b :| CarriedStale(s, cs, c, a, b);
    CarriedStep(s, c1, cs, rest, c, k, a, b);
    assert CarriedStale(s, cs, FoldOne(c, k.0, k.1), a, b) || RawDangling(s.g, FoldOne(c, k.0, k.1));
  }

  lemma RawDangles(s: Setting, c1: Code, cs: set<Candidate>, rest: set<Candidate>, c: Code, k: Candidate)
    requires Valid(s) && Admitted(s, c1, cs) && InRound(s, c1, cs, rest, c) && k in rest && k.0.InstrDef?
    requires RawDangling(s.g, c) && k.0.pc in c.exprs && k.1 in c.exprs
    ensures RawDangling(s.g, FoldOne(c, k.0, k.1))
  {
    StillThere(s, c1, cs, rest, c, k);
    RawDanglingStays(s, c, k.0, k.1);
  }

  lemma DoomedStep(s: Setting, c1: Code, cs: set<Candidate>, rest: set<Candidate>, c: Code, k: Candidate)
    requires Valid(s) && Admitted(s, c1, cs) && InRound(s, c1, cs, rest, c) && Lowest(rest, k)
    requires AllMentioned(c, rest) && Doomed(s, cs, rest, c) && k.0.pc in c.exprs && k.1 in c.exprs
    ensures Doomed(s, cs, rest - {k}, FoldOne(c, k.0, k.1))
  {
    if RawDangling(s.g, c) {
      RawDangles(s, c1, cs, rest, c, k);
    } else if SomeNamed(c, rest) {
      NamedDooms(s, c1, cs, rest, c, k);
    } else {
      assert MentionedBy(c, k);
      CarriedDooms(s, c1, cs, rest, c, k);
    }
  }

  lemma DoomedAtLast(s: Setting, c1: Code, cs: set<Candidate>, c: Code)
    requires Valid(s) && Admitted(s, c1, cs) && InRound(s, c1, cs, {}, c) && Doomed(s, cs, {}, c)
    ensures Dangling(s.g, c)
  {
    if RawDangling(s.g, c) {
      var x, v :| NamesLost(s.g, c, x, v);
    } else {
      var a, b :| CarriedStale(s, cs, c, a, b);
      assert Foldable(s, a.0, a.1);
      assert FoldedAt(cs, {}, a.0.pc);
      assert Lost(s.g, c, a.0);
    }
  }

  // ----- The whole round

  lemma {:induction false} LowestExists(rest: set<Candidate>)
    requires rest != {} && forall k :: k in rest ==> k.0.InstrDef?
    ensures exists k :: Lowest(rest, k)
    decreases rest
  {
    var k :| k in rest;
    if rest == {k} {
      assert Lowest(rest, k);
    } else {
      LowestExists(rest - {k});
      var l :| Lowest(rest - {k}, l);
      assert Lowest(rest, if k.0.pc < l.0.pc then k else l);
    }
  }

  ghost function LowestOf(rest: set<Candidate>): (k: Candidate)
    requires exists k :: Lowest(rest, k)
    ensures Lowest(rest, k)
  {
    var k :| Lowest(rest, k); k
  }

  /** The code after the candidates in rest have been folded in order of address. */
  ghost function FoldAll(c: Code, rest: set<Candidate>): Code
    decreases |rest|
  {
    if exists k :: Lowest(rest, k) then
      var k := LowestOf(rest);
      FoldAll(if k.0.pc in c.exprs && k.1 in c.exprs then FoldOne(c, k.0, k.1) else c, rest - {k})
    else c
  }

  /** There is one next candidate, and folding it leads to the same end. */
  lemma FoldAllStep(s: Setting, c1: Code, cs: set<Candidate>, rest: set<Candidate>, c: Code, k: Candidate)
    requires Valid(s) && Admitted(s, c1, cs) && InRound(s, c1, cs, rest, c) && Lowest(rest, k)
    ensures k.0.pc in c.exprs && k.1 in c.exprs && FoldAll(c, rest) == FoldAll(FoldOne(c, k.0, k.1), rest - {k})
  {
    StillThere(s, c1, cs, rest, c, k);
    OneCandidate(s, cs, c1, k, LowestOf(rest));
  }

  /** The candidate that comes next, while there are any. */
  lemma NextFold(s: Setting, c1: Code, cs: set<Candidate>, rest: set<Candidate>, c: Code) returns (k: Candidate)
    requires Valid(s) && Admitted(s, c1, cs) && InRound(s, c1, cs, rest, c) && rest != {}
    ensures Lowest(rest, k) && k.0.pc in c.exprs && k.1 in c.exprs
    ensures InRound(s, c1, cs, rest - {k}, FoldOne(c, k.0, k.1))
    ensures FoldAll(c, rest) == FoldAll(FoldOne(c, k.0, k.1), rest - {k})
  {
    forall l | l in rest ensures l.0.InstrDef? { assert Foldable(s, l.0, l.1); }
    LowestExists(rest);
    k := LowestOf(rest);
    FoldAllStep(s, c1, cs, rest, c, k);
    RoundStep(s, c1, cs, rest, c, k);
  }

  lemma {:induction false} RoundEnds(s: Setting, c1: Code, cs: set<Candidate>, rest: set<Candidate>, c: Code)
    requires Valid(s) && Admitted(s, c1, cs) && InRound(s, c1, cs, rest, c)
    ensures InRound(s, c1, cs, {}, FoldAll(c, rest))
    decreases |rest|
  {
    if rest != {} {
      var k := NextFold(s, c1, cs, rest, c);
      RoundEnds(s, c1, cs, rest - {k}, FoldOne(c, k.0, k.1));
    }
  }

  /** A clean round leaves nothing that is missed. */
  lemma {:induction false} CleanRound(s: Setting, c1: Code, cs: set<Candidate>, rest: set<Candidate>, c: Code)
    requires Valid(s) && Admitted(s, c1, cs) && InRound(s, c1, cs, rest, c)
    requires Clean(c1, cs) && Intact(s.g, s.outs, c) && Recorded(s.g, s.p, c)
    ensures Intact(s.g, s.outs, FoldAll(c, rest)) && Recorded(s.g, s.p, FoldAll(c, rest))
    decreases |rest|
  {
    if rest != {} {
      var k := NextFold(s, c1, cs, rest, c);
      CleanStep(s, c1, cs, rest, c, k);
      CleanRound(s, c1, cs, rest - {k}, FoldOne(c, k.0, k.1));
    }
  }

  lemma MentionedNext(s: Setting, c1: Code, cs: set<Candidate>, rest: set<Candidate>, c: Code)
    returns (k: Candidate, rest': set<Candidate>, c': Code)
    requires Valid(s) && Admitted(s, c1, cs) && InRound(s, c1, cs, rest, c) && rest != {} && AllMentioned(c, rest)
    ensures Lowest(rest, k) && k.0.pc in c.exprs && k.1 in c.exprs && rest' == rest - {k} && c' == FoldOne(c, k.0, k.1)
    ensures |rest'| < |rest| && InRound(s, c1, cs, rest', c') && FoldAll(c, rest) == FoldAll(c', rest')
    ensures AllMentioned(c', rest')
  {
    k := NextFold(s, c1, cs, rest, c);
    MentionedStep(s, c1, cs, rest, c, k);
    rest', c' := rest - {k}, FoldOne(c, k.0, k.1);
  }

  lemma DoomedNext(s: Setting, c1: Code, cs: set<Candidate>, rest: set<Candidate>, c: Code)
    returns (rest': set<Candidate>, c': Code)
    requires Valid(s) && Admitted(s, c1, cs) && InRound(s, c1, cs, rest, c) && rest != {}
    requires AllMentioned(c, rest) && Doomed(s, cs, rest, c)
    ensures |rest'| < |rest| && InRound(s, c1, cs, rest', c') && FoldAll(c, rest) == FoldAll(c', rest')
    ensures AllMentioned(c', rest') && Doomed(s, cs, rest', c')
  {
    var k;
    k, rest', c' := MentionedNext(s, c1, cs, rest, c);
    DoomedStep(s, c1, cs, rest, c, k);
  }

  /** A round that is not clean leaves something mentioned that is lost. */
  lemma {:induction false} DoomedRound(s: Setting, c1: Code, cs: set<Candidate>, rest: set<Candidate>, c: Code)
    requires Valid(s) && Admitted(s, c1, cs) && InRound(s, c1, cs, rest, c)
    requires AllMentioned(c, rest) && Doomed(s, cs, rest, c)
    ensures Dangling(s.g, FoldAll(c, rest))
    decreases |rest|
  {
    if rest != {} {
      var rest', c' := DoomedNext(s, c1, cs, rest, c);
      DoomedRound(s, c1, cs, rest', c');
    } else {
      DoomedAtLast(s, c1, cs, c);
    }
  }

  /** Every variable still there that is used once is mentioned by its reader, if that is there. */
  ghost predicate ReadersMention(vars: set<Value>, p: Program, c: Code) {
    forall d, u {:trigger SingleUse(p, d, u)} ::
      d in vars && d.InstrDef? && SingleUse(p, d, u) && d.pc !in c.gone && u !in c.gone ==>
      u in c.exprs && d in Vars(c.exprs[u])
  }

  /** Expressions are at least as deep as before. */
  ghost predicate Deepened(c1: Code, c: Code) {
    c.exprs.Keys == c1.exprs.Keys && forall pc :: pc in c1.exprs ==> Depth(c.exprs[pc]) >= Depth(c1.exprs[pc])
  }

  lemma DeepenedStep(c1: Code, c: Code, d: Value, u: nat)
    requires Deepened(c1, c) && d.InstrDef? && d.pc in c.exprs && u in c.exprs
    ensures Deepened(c1, FoldOne(c, d, u))
  {
    SubstituteDeepens(c.exprs[u], d, c.exprs[d.pc]);
  }

  lemma {:induction false} RoundDeepens(s: Setting, c1: Code, cs: set<Candidate>, rest: set<Candidate>, c: Code)
    requires Valid(s) && Admitted(s, c1, cs) && InRound(s, c1, cs, rest, c) && Deepened(c1, c)
    ensures Deepened(c1, FoldAll(c, rest))
    decreases |rest|
  {
    if rest != {} {
      var k := NextFold(s, c1, cs, rest, c);
      DeepenedStep(c1, c, k.0, k.1);
      RoundDeepens(s, c1, cs, rest - {k}, FoldOne(c, k.0, k.1));
    }
  }
}
