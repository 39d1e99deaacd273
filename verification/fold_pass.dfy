/** Cross-block folding as the pass that rewrites expressions and leaves definitions out, in place. */
module FoldPass {
  import opened Graph
  import opened Collections
  import opened Ssa
  import opened SsaReaching
  import opened Expressions
  import opened Folding
  import opened FoldRuns
  import opened Availability
  import opened FoldStep
  import opened FoldRound
  import Dominators
  import IdomForest

  ghost predicate DefinedAbove(t: Dominators.DominatorTree, v: Value, b: nat) {
    v.Param? || ((v.InstrDef? || v.Phi?) && Dominators.TreeDominates(t, v.block, b))
  }

  method DefinitionDominatesUse(p: Program, v: Value, usePc: nat, t: Dominators.DominatorTree) returns (ok: bool)
    requires IdomForest.Climbs(t.idom, t.rank, t.entry)
    ensures ok <==> (usePc in p.pcToBlock && DefinedAbove(t, v, p.pcToBlock[usePc]))
  {
    if usePc !in p.pcToBlock { return false; }
    match v
    case Param(_) => ok := true;
    case Undef(_) => ok := false;
    case InstrDef(_, _, b) => ok := Dominators.Dominates(t, b, p.pcToBlock[usePc]);
    case Phi(b, _) => ok := Dominators.Dominates(t, b, p.pcToBlock[usePc]);
  }

  type LoopBodies = map<nat, set<nat>>

  /** All that the pass asks before folding d into the instruction at u. */
  ghost predicate Ready(vars: set<Value>, c: Code, t: Dominators.DominatorTree, p: Program, loopBodies: LoopBodies,
      d: Value, u: nat) {
    && d in vars && d.InstrDef? && d.pc !in c.gone && d.pc in c.exprs
    && !HasSideEffects(c.exprs[d.pc]) && Depth(c.exprs[d.pc]) < 2
    && SingleUse(p, d, u)
    && u != d.pc && u !in c.gone && u in p.pcToBlock
    && d.block != p.pcToBlock[u] && DefinedAbove(t, d, p.pcToBlock[u])
    && !(p.pcToBlock[u] in loopBodies && d.block in loopBodies[p.pcToBlock[u]])
  }

  ghost predicate Gathers(vars: set<Value>, c: Code, t: Dominators.DominatorTree, p: Program, loopBodies: LoopBodies,
      cs: set<Candidate>) {
    forall d, u: nat :: (d, u) in cs <==> Ready(vars, c, t, p, loopBodies, d, u)
  }

  ghost predicate AllWritten(g: Cfg, vars: set<Value>) {
    forall d :: d in vars ==> exists i :: WrittenAt(g, d, i)
  }

  lemma ReadyIsFoldable(s: Setting, vars: set<Value>, c: Code, loopBodies: LoopBodies, d: Value, u: nat)
    requires Stands(s.g, s.outs, s.c0, c) && AllWritten(s.g, vars) && Ready(vars, c, s.t, s.p, loopBodies, d, u)
    ensures Foldable(s, d, u)
  {
  }

  lemma OneReader(p: Program, d: Value, u: nat)
    requires SingleUse(p, d, u)
    ensures forall x :: SingleUse(p, d, x) ==> x == u
  {
    var q :| UsesOf(p.uses, d) == {AtInstr(u, q)};
    forall x | SingleUse(p, d, x) ensures x == u {
      var r :| UsesOf(p.uses, d) == {AtInstr(x, r)};
      assert AtInstr(x, r) in UsesOf(p.uses, d);
    }
  }

  ghost function Left(vars: set<Value>, gone: set<nat>): set<Value> {
    set d | d in vars && (d.InstrDef? ==> d.pc !in gone)
  }

  /** A round leaves out the definitions of its candidates, and so fewer remain. */
  lemma RoundFoldsAway(s: Setting, vars: set<Value>, c1: Code, cs: set<Candidate>, c: Code)
    requires InRound(s, c1, cs, {}, c) && Admitted(s, c1, cs) && forall k :: k in cs ==> k.0 in vars
    ensures c1.gone <= c.gone && forall pc :: pc in c.gone && pc !in c1.gone ==> FoldedAway(s, vars, pc)
    ensures cs != {} ==> Left(vars, c.gone) < Left(vars, c1.gone)
  {
    forall pc | pc in c.gone && pc !in c1.gone ensures FoldedAway(s, vars, pc) {
      assert FoldedAt(cs, {}, pc);
      var k :| k in cs && k.0.InstrDef? && k.0.pc == pc;
      assert Foldable(s, k.0, k.1);
    }
    if cs != {} {
      var k :| k in cs;
      assert Foldable(s, k.0, k.1);
      assert FoldedAt(cs, {}, k.0.pc);
      assert k.0 in Left(vars, c1.gone) && k.0 !in Left(vars, c.gone);
    }
  }

  // ----- A condition on the program before the pass

  /** Whatever might be folded: its reader does not name it in raw text, and a reader that is itself
      a variable's definition comes after it. */
  ghost predicate Orderly(vars: set<Value>, c: Code, p: Program) {
    forall d, u {:trigger SingleUse(p, d, u)} ::
      d in vars && d.InstrDef? && SingleUse(p, d, u) && u in p.pcToBlock && p.pcToBlock[u] != d.block ==>
      !NamedInRaw(c, (d, u)) && forall e :: e in vars && e.InstrDef? && e.pc == u ==> d.pc < u
  }

  /** Any round gathered from orderly code is clean. */
  lemma OrderlyIsClean(vars: set<Value>, c: Code, t: Dominators.DominatorTree, p: Program, loopBodies: LoopBodies,
      cs: set<Candidate>)
    requires Orderly(vars, c, p) && Gathers(vars, c, t, p, loopBodies, cs)
    ensures Clean(c, cs)
  {
    forall k | k in cs ensures Ready(vars, c, t, p, loopBodies, k.0, k.1) && !NamedInRaw(c, k) {
      assert (k.0, k.1) in cs;
      assert SingleUse(p, k.0, k.1);
    }
    forall k, l ensures !Stale(cs, k, l) {
      if k in cs && l in cs {
        assert SingleUse(p, k.0, k.1) && Ready(vars, c, t, p, loopBodies, l.0, l.1);
      }
    }
  }

  // ----- The one round of a pass

  /** The candidates there are before the pass. */
  ghost function Gathered(vars: set<Value>, c: Code, t: Dominators.DominatorTree, p: Program,
      loopBodies: LoopBodies): (cs: set<Candidate>)
    ensures Gathers(vars, c, t, p, loopBodies, cs)
  {
    set d, u | d in vars && u in p.pcToBlock && Ready(vars, c, t, p, loopBodies, d, u) :: (d, u)
  }

  /** What can be gathered holds no stale candidate and none named in raw text. */
  ghost predicate GathersClean(vars: set<Value>, c: Code, t: Dominators.DominatorTree, p: Program,
      loopBodies: LoopBodies) {
    Clean(c, Gathered(vars, c, t, p, loopBodies))
  }

  lemma GatheredIsOne(vars: set<Value>, c: Code, t: Dominators.DominatorTree, p: Program, loopBodies: LoopBodies,
      cs: set<Candidate>)
    requires Gathers(vars, c, t, p, loopBodies, cs)
    ensures cs == Gathered(vars, c, t, p, loopBodies)
  {
    forall k ensures k in cs <==> k in Gathered(vars, c, t, p, loopBodies) {
      assert k == (k.0, k.1);
    }
  }

  /** In freshly lifted code readers mention what they read, unless they are host calls, unknown
      opcodes or loads of the capture slot, which are lifted to text without it. */
  lemma LiftedReadersMention(g: Cfg, ins: BlockMap, p: Program, c0: Code, vars: set<Value>)
    requires IsLifted(g, ins, c0.exprs) && ReadsRecorded(g, ins, p)
    requires forall b, j ::
      b in g.blocks && 0 <= j < |g.blocks[b].instrs| && UsesOneOf(p, vars, g.blocks[b].instrs[j].0) ==>
      NamesItsReads(g.blocks[b].instrs[j].1)
    ensures ReadersMention(vars, p, c0)
  {
    forall d, u | d in vars && SingleUse(p, d, u) ensures u in c0.exprs && d in Vars(c0.exprs[u]) {
      var q :| UsesOf(p.uses, d) == {AtInstr(u, q)};
      assert AtInstr(u, q) in UsesOf(p.uses, d);
      assert IsReadOf(g, ins, d, u, q);
      var b, j: nat :| ReadsAt(g, b, j, u, q) && b in ins && ValueAt(g, ins, b, j, q) == d;
      assert Located(g, u, b, j) && UsesOneOf(p, vars, u);
      LiftMentions(g.blocks[b].instrs[j].1, ValuesAt(g, ins, b, j), q);
    }
  }

  ghost predicate UsesOneOf(p: Program, vars: set<Value>, u: nat) { exists d :: d in vars && SingleUse(p, d, u) }

  lemma GatheredIsMentioned(s: Setting, vars: set<Value>, loopBodies: LoopBodies, c: Code)
    requires ReadersMention(vars, s.p, c)
    ensures AllMentioned(c, Gathered(vars, c, s.t, s.p, loopBodies))
  {
    forall k | k in Gathered(vars, c, s.t, s.p, loopBodies) ensures k.1 in c.exprs && k.0 in Vars(c.exprs[k.1]) {
      assert Ready(vars, c, s.t, s.p, loopBodies, k.0, k.1);
      assert SingleUse(s.p, k.0, k.1);
    }
  }

  lemma RoundOutcome(s: Setting, c1: Code, cs: set<Candidate>)
    requires Valid(s) && Stands(s.g, s.outs, s.c0, c1) && Admitted(s, c1, cs)
    ensures Clean(c1, cs) && Intact(s.g, s.outs, c1) && Recorded(s.g, s.p, c1) ==>
      Intact(s.g, s.outs, FoldAll(c1, cs)) && Recorded(s.g, s.p, FoldAll(c1, cs))
    ensures !Clean(c1, cs) && AllMentioned(c1, cs) ==> Dangling(s.g, FoldAll(c1, cs))
  {
    if Clean(c1, cs) && Intact(s.g, s.outs, c1) && Recorded(s.g, s.p, c1) {
      CleanRound(s, c1, cs, cs, c1);
    }
    if !Clean(c1, cs) && AllMentioned(c1, cs) {
      DoomedAtFirst(s, c1, cs);
      DoomedRound(s, c1, cs, cs, c1);
    }
  }

  ghost predicate NoneReady(vars: set<Value>, c: Code, t: Dominators.DominatorTree, p: Program,
      loopBodies: LoopBodies) {
    forall d, u :: !Ready(vars, c, t, p, loopBodies, d, u)
  }

  /** After a round nothing is ready to fold: substitution makes no expression shallower or purer, and
      what is left out stays so. */
  lemma NoSecondRound(s: Setting, vars: set<Value>, loopBodies: LoopBodies, c1: Code, cs: set<Candidate>)
    requires Valid(s) && AllWritten(s.g, vars) && Stands(s.g, s.outs, s.c0, c1)
    requires Gathers(vars, c1, s.t, s.p, loopBodies, cs)
    ensures NoneReady(vars, FoldAll(c1, cs), s.t, s.p, loopBodies)
    ensures Gathered(vars, FoldAll(c1, cs), s.t, s.p, loopBodies) == {}
  {
    var c := FoldAll(c1, cs);
    ReadyIsAdmitted(s, vars, c1, loopBodies, cs);
    RoundEnds(s, c1, cs, cs, c1);
    RoundDeepens(s, c1, cs, cs, c1);
    forall d, u: nat ensures !Ready(vars, c, s.t, s.p, loopBodies, d, u) {
      StillReady(s, vars, loopBodies, c1, c, d, u);
      if (d, u) in cs && d.InstrDef? { assert FoldedAt(cs, {}, d.pc); }
    }
  }

  /** What is ready after a round was ready before it. */
  lemma StillReady(s: Setting, vars: set<Value>, loopBodies: LoopBodies, c1: Code, c: Code, d: Value, u: nat)
    requires Stands(s.g, s.outs, s.c0, c1) && Stands(s.g, s.outs, s.c0, c) && Deepened(c1, c) && c1.gone <= c.gone
    ensures Ready(vars, c, s.t, s.p, loopBodies, d, u) ==> Ready(vars, c1, s.t, s.p, loopBodies, d, u)
  {
  }

  ghost predicate IsRound(s: Setting, vars: set<Value>, loopBodies: LoopBodies, c1: Code, c: Code) {
    c == FoldAll(c1, Gathered(vars, c1, s.t, s.p, loopBodies))
  }

  /** A second round changes nothing. */
  lemma SecondRound(s: Setting, vars: set<Value>, loopBodies: LoopBodies, c1: Code, c2: Code, c3: Code)
    requires Valid(s) && AllWritten(s.g, vars) && Stands(s.g, s.outs, s.c0, c1)
    requires c2 == c1 || IsRound(s, vars, loopBodies, c1, c2)
    requires IsRound(s, vars, loopBodies, c2, c3)
    ensures IsRound(s, vars, loopBodies, c1, c3)
  {
    NoSecondRound(s, vars, loopBodies, c1, Gathered(vars, c1, s.t, s.p, loopBodies));
  }

  ghost function NextRound(s: Setting, vars: set<Value>, loopBodies: LoopBodies, c: Code): (c': Code)
    ensures IsRound(s, vars, loopBodies, c, c')
  {
    FoldAll(c, Gathered(vars, c, s.t, s.p, loopBodies))
  }

  /** The code after a number of rounds. */
  ghost function Rounds(s: Setting, vars: set<Value>, loopBodies: LoopBodies, c: Code, n: nat): Code
    decreases n
  {
    if n == 0 then c else NextRound(s, vars, loopBodies, Rounds(s, vars, loopBodies, c, n - 1))
  }

  /** However many rounds there are, the first does all the folding. */
  lemma {:induction false} RoundsAreOne(s: Setting, vars: set<Value>, loopBodies: LoopBodies, c: Code, n: nat)
    requires Valid(s) && AllWritten(s.g, vars) && Stands(s.g, s.outs, s.c0, c) && n > 0
    ensures IsRound(s, vars, loopBodies, c, Rounds(s, vars, loopBodies, c, n))
    decreases n
  {
    var before := Rounds(s, vars, loopBodies, c, n - 1);
    if n > 1 { RoundsAreOne(s, vars, loopBodies, c, n - 1); }
    SecondRound(s, vars, loopBodies, c, before, NextRound(s, vars, loopBodies, before));
  }

  /** Whatever the number of rounds, nothing is missed after them if and only if what can be gathered
      before them is clean; otherwise something kept mentions a definition that is left out. */
  lemma PassIntactExactly(s: Setting, vars: set<Value>, loopBodies: LoopBodies, c: Code, n: nat)
    requires Valid(s) && AllWritten(s.g, vars) && Stands(s.g, s.outs, s.c0, c) && ReadersMention(vars, s.p, c)
    requires Intact(s.g, s.outs, c) && Recorded(s.g, s.p, c) && n > 0
    ensures var c' := Rounds(s, vars, loopBodies, c, n);
      && (Intact(s.g, s.outs, c') <==> GathersClean(vars, c, s.t, s.p, loopBodies))
      && (Dangling(s.g, c') <==> !GathersClean(vars, c, s.t, s.p, loopBodies))
  {
    var cs := Gathered(vars, c, s.t, s.p, loopBodies);
    RoundsAreOne(s, vars, loopBodies, c, n);
    ReadyIsAdmitted(s, vars, c, loopBodies, cs);
    GatheredIsMentioned(s, vars, loopBodies, c);
    RoundOutcome(s, c, cs);
  }

  /** What is newly left out was a single-reader definition that the pass was entitled to fold. */
  ghost predicate OnlyFoldedAway(s: Setting, vars: set<Value>, c1: Code, c: Code) {
    c1.gone <= c.gone && forall pc :: pc in c.gone && pc !in c1.gone ==> FoldedAway(s, vars, pc)
  }

  /** What the pass makes of the code c1. */
  lemma PassOutcome(s: Setting, vars: set<Value>, loopBodies: LoopBodies, c1: Code, cs: set<Candidate>)
    requires Valid(s) && AllWritten(s.g, vars) && Stands(s.g, s.outs, s.c0, c1)
    requires cs == Gathered(vars, c1, s.t, s.p, loopBodies)
    ensures Stands(s.g, s.outs, s.c0, FoldAll(c1, cs)) && OnlyFoldedAway(s, vars, c1, FoldAll(c1, cs))
    ensures GathersClean(vars, c1, s.t, s.p, loopBodies) && Intact(s.g, s.outs, c1) && Recorded(s.g, s.p, c1) ==>
      Intact(s.g, s.outs, FoldAll(c1, cs)) && RunsLike(s.g, s.outs, s.c0, FoldAll(c1, cs))
    ensures !GathersClean(vars, c1, s.t, s.p, loopBodies) && ReadersMention(vars, s.p, c1) ==>
      Dangling(s.g, FoldAll(c1, cs))
  {
    ReadyIsAdmitted(s, vars, c1, loopBodies, cs);
    RoundEnds(s, c1, cs, cs, c1);
    RoundFoldsAway(s, vars, c1, cs, FoldAll(c1, cs));
    RoundOutcome(s, c1, cs);
    if ReadersMention(vars, s.p, c1) { GatheredIsMentioned(s, vars, loopBodies, c1); }
    if Clean(c1, cs) && Intact(s.g, s.outs, c1) && Recorded(s.g, s.p, c1) {
      IntactRunsLike(s.g, s.outs, s.c0, FoldAll(c1, cs));
    }
  }

  // ----- The pass

  class LiftedProgram {
    var variables: set<Value>
    var expressions: map<nat, Tree>
    var eliminated: set<nat>

    ghost function Now(): Code
      reads this
    {
      Code(expressions, eliminated)
    }

    ghost function Remaining(): set<Value>
      reads this
    {
      Left(variables, eliminated)
    }

    /** The instruction to fold d into, if every condition of the pass holds. */
    method Candidate(t: Dominators.DominatorTree, p: Program, loopBodies: LoopBodies, d: Value) returns (u: Option<nat>)
      requires IdomForest.Climbs(t.idom, t.rank, t.entry) && d in variables && d.InstrDef?
      ensures u.Some? ==> Ready(variables, Now(), t, p, loopBodies, d, u.value)
      ensures u.None? ==> forall x :: !Ready(variables, Now(), t, p, loopBodies, d, x)
    {
      u := None;
      if d.pc in eliminated || d.pc !in expressions { return; }
      var e := expressions[d.pc];
      if HasSideEffects(e) || Depth(e) >= 2 { return; }
      var usePc := SingleInstructionUsePc(p, d);
      if usePc.None? { return; }
      assert SingleUse(p, d, usePc.value);
      OneReader(p, d, usePc.value);
      if usePc.value == d.pc || usePc.value in eliminated { return; }
      if usePc.value !in p.pcToBlock || d.block == p.pcToBlock[usePc.value] { return; }
      var dominated := DefinitionDominatesUse(p, d, usePc.value, t);
      if !dominated { return; }
      var useBlock := p.pcToBlock[usePc.value];
      if useBlock in loopBodies && d.block in loopBodies[useBlock] { return; }
      u := usePc;
    }

    method GatherCandidates(t: Dominators.DominatorTree, p: Program, loopBodies: LoopBodies)
      returns (candidates: set<Candidate>)
      requires IdomForest.Climbs(t.idom, t.rank, t.entry) && forall d :: d in variables ==> d.InstrDef?
      ensures Gathers(variables, Now(), t, p, loopBodies, candidates)
    {
      candidates := {};
      var rest := variables;
      while rest != {}
        invariant rest <= variables
        invariant forall d, u: nat :: (d, u) in candidates <==>
          d !in rest && Ready(variables, Now(), t, p, loopBodies, d, u)
        decreases rest
      {
        var d :| d in rest;
        rest := rest - {d};
        var u := Candidate(t, p, loopBodies, d);
        if u.Some? {
          candidates := candidates + {(d, u.value)};
          OneReader(p, d, u.value);
        }
      }
    }

    /** Folds d into the expression at u and leaves d's own out. */
    method FoldInto(d: Value, u: nat)
      requires d.InstrDef? && d.pc in expressions && u in expressions
      modifies this`expressions, this`eliminated
      ensures Now() == FoldOne(old(Now()), d, u)
    {
      expressions := expressions[u := Substitute(expressions[u], d, expressions[d.pc])];
      eliminated := eliminated + {d.pc};
    }

    /** Folds the candidates in order of definition address, as the expressions stand by then. What
        is kept misses nothing if the round is clean; and, where every reader mentions what it is
        recorded to read, only then. */
    method FoldCandidates(candidates: set<Candidate>, ghost s: Setting) returns (changed: bool)
      requires Valid(s) && Stands(s.g, s.outs, s.c0, Now()) && Admitted(s, Now(), candidates)
      modifies this`expressions, this`eliminated
      ensures Now() == FoldAll(old(Now()), candidates) && InRound(s, old(Now()), candidates, {}, Now())
      ensures changed <==> candidates != {}
      ensures candidates == {} ==> Now() == old(Now())
      ensures Clean(old(Now()), candidates) && Intact(s.g, s.outs, old(Now())) && Recorded(s.g, s.p, old(Now())) ==>
        Intact(s.g, s.outs, Now()) && Recorded(s.g, s.p, Now())
      ensures !Clean(old(Now()), candidates) && AllMentioned(old(Now()), candidates) ==> Dangling(s.g, Now())
    {
      changed := false;
      var rest := candidates;
      ghost var c1 := Now();
      while rest != {}
        invariant InRound(s, c1, candidates, rest, Now())
        invariant FoldAll(Now(), rest) == FoldAll(c1, candidates)
        invariant changed <==> rest != candidates
        invariant !changed ==> Now() == c1
        decreases rest
      {
        CandidatesAreDefinitions(s, c1, candidates, rest);
        var k := LowestDefinition(rest);
        var (d, u) := k;
        FoldAllStep(s, c1, candidates, rest, Now(), k);
        RoundStep(s, c1, candidates, rest, Now(), k);
        rest := rest - {k};
        if d.pc in expressions && u in expressions {
          FoldInto(d, u);
          changed := true;
        }
      }
      RoundOutcome(s, c1, candidates);
    }

    /** Gathers the definitions that may be folded now, and folds them. */
    method FoldGathered(t: Dominators.DominatorTree, p: Program, loopBodies: LoopBodies, ghost s: Setting)
      returns (changed: bool)
      requires Valid(s) && s.t == t && s.p == p && Stands(s.g, s.outs, s.c0, Now()) && AllWritten(s.g, variables)
      requires IdomForest.Climbs(t.idom, t.rank, t.entry)
      modifies this`expressions, this`eliminated
      ensures IsRound(s, variables, loopBodies, old(Now()), Now()) && Stands(s.g, s.outs, s.c0, Now())
      ensures if changed then Remaining() < old(Remaining()) else Remaining() == old(Remaining())
    {
      var candidates := GatherCandidates(t, p, loopBodies);
      ReadyIsAdmitted(s, variables, Now(), loopBodies, candidates);
      changed := FoldCandidates(candidates, s);
      RoundFoldsAway(s, variables, old(Now()), candidates, Now());
      GatheredIsOne(variables, old(Now()), t, p, loopBodies, candidates);
    }

    /** The whole pass: the candidates there are before it are folded, and nothing else. Every
        expression keeps, on every run of the original, the original's value, and each definition left
        out had a single reader. If the candidates are clean the result, with their definitions left
        out, runs like the original; if not, and readers mention what they read, it mentions one of them. */
    method FoldCrossBlock(g: Cfg, t: Dominators.DominatorTree, p: Program, loopBodies: LoopBodies, ghost s: Setting)
      requires Valid(s) && s.g == g && s.t == t && s.p == p && Stands(g, s.outs, s.c0, Now())
      requires AllWritten(g, variables)
      requires IdomForest.Climbs(t.idom, t.rank, t.entry)
      modifies this`expressions, this`eliminated
      ensures |g.blocks| <= 1 ==> Now() == old(Now())
      ensures |g.blocks| > 1 ==> Now() == FoldAll(old(Now()), Gathered(variables, old(Now()), t, p, loopBodies))
      ensures |g.blocks| > 1 ==> NoneReady(variables, Now(), t, p, loopBodies)
      ensures Stands(g, s.outs, s.c0, Now()) && OnlyFoldedAway(s, variables, old(Now()), Now())
      ensures Intact(g, s.outs, old(Now())) && Recorded(g, p, old(Now())) ==>
        GathersClean(variables, old(Now()), t, p, loopBodies) ==>
        Intact(g, s.outs, Now()) && RunsLike(g, s.outs, s.c0, Now())
      ensures |g.blocks| > 1 && ReadersMention(variables, p, old(Now())) ==>
        !GathersClean(variables, old(Now()), t, p, loopBodies) ==>
        Dangling(g, Now())
    {
      ghost var first := Gathered(variables, Now(), t, p, loopBodies);
      if |g.blocks| <= 1 {
        if Intact(g, s.outs, Now()) { IntactRunsLike(g, s.outs, s.c0, Now()); }
        return;
      }
      PassOutcome(s, variables, loopBodies, Now(), first);
      NoSecondRound(s, variables, loopBodies, Now(), first);
      FoldRounds(t, p, loopBodies, s);
    }

    /** Gathers and folds until nothing changes: the first round does it all. */
    method FoldRounds(t: Dominators.DominatorTree, p: Program, loopBodies: LoopBodies, ghost s: Setting)
      requires Valid(s) && s.t == t && s.p == p && Stands(s.g, s.outs, s.c0, Now()) && AllWritten(s.g, variables)
      requires IdomForest.Climbs(t.idom, t.rank, t.entry)
      modifies this`expressions, this`eliminated
      ensures IsRound(s, variables, loopBodies, old(Now()), Now())
    {
      ghost var c1 := Now();
      var changed := true;
      while changed
        invariant (changed && Now() == c1) || IsRound(s, variables, loopBodies, c1, Now())
        invariant Stands(s.g, s.outs, s.c0, Now())
        decreases Remaining(), changed
      {
        ghost var c := Now();
        changed := FoldGathered(t, p, loopBodies, s);
        SecondRound(s, variables, loopBodies, c1, c, Now());
      }
    }

    method LowestDefinition(cs: set<Candidate>) returns (c: Candidate)
      requires cs != {} && forall c :: c in cs ==> c.0.InstrDef?
      ensures Lowest(cs, c)
    {
      c :| c in cs;
      var rest := cs - {c};
      while rest != {}
        invariant rest <= cs && c in cs
        invariant forall x :: x in cs && x !in rest ==> c.0.pc <= x.0.pc
        decreases rest
      {
        var x :| x in rest;
        if x.0.pc < c.0.pc { c := x; }
        rest := rest - {x};
      }
    }
  }

  lemma CandidatesAreDefinitions(s: Setting, c: Code, cs: set<Candidate>, rest: set<Candidate>)
    requires Admitted(s, c, cs) && rest <= cs
    ensures forall k :: k in rest ==> k.0.InstrDef?
  {
    forall k | k in rest ensures k.0.InstrDef? { assert Foldable(s, k.0, k.1); }
  }

  lemma ReadyIsAdmitted(s: Setting, vars: set<Value>, c: Code, loopBodies: LoopBodies, cs: set<Candidate>)
    requires Stands(s.g, s.outs, s.c0, c) && AllWritten(s.g, vars)
    requires Gathers(vars, c, s.t, s.p, loopBodies, cs)
    ensures Admitted(s, c, cs) && forall k :: k in cs ==> k.0 in vars
  {
    forall k | k in cs ensures Foldable(s, k.0, k.1) && k.0.pc !in c.gone && k.1 !in c.gone && k.0 in vars {
      assert (k.0, k.1) in cs;
      ReadyIsFoldable(s, vars, c, loopBodies, k.0, k.1);
    }
  }

  /** pc is the definition of a variable that the pass was entitled to fold into its one reader. */
  ghost predicate FoldedAway(s: Setting, vars: set<Value>, pc: nat) {
    exists d, u {:trigger Foldable(s, d, u)} :: d in vars && d.InstrDef? && d.pc == pc && Foldable(s, d, u)
  }
}
