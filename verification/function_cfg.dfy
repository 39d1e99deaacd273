/** The graph of one function: its own blocks, with edges standing in for the calls it makes. */
module FunctionCfg {
  import opened Graph
  import opened Collections

  datatype Function = Function(entry: nat, blocks: set<nat>)

  /** A block that sets a return address and jumps to a callee. */
  datatype CallPattern = CallPattern(caller: nat, jumpTarget: nat, returnPc: nat)

  // ----- What the edges of the result are

  predicate Kept(g: Cfg, f: Function, a: nat, b: nat) {
    Edge(g, a, b) && a in f.blocks && b in f.blocks
  }

  /** Execution comes back from a call at b, both inside the function. */
  predicate Returns(f: Function, p: CallPattern) { p.caller in f.blocks && p.returnPc in f.blocks }

  /** The call leaves through a block of this function, and does not come back to it statically. */
  predicate Bounces(f: Function, p: CallPattern) {
    p.caller in f.blocks && p.returnPc !in f.blocks && p.jumpTarget in f.blocks
  }

  ghost predicate Resumed(f: Function, calls: seq<CallPattern>, a: nat, b: nat) {
    exists i :: 0 <= i < |calls| && Returns(f, calls[i]) && calls[i].caller == a && calls[i].returnPc == b
  }

  ghost predicate EntersNothing(g: Cfg, f: Function, calls: seq<CallPattern>, b: nat) {
    forall a :: !Kept(g, f, a, b) && !Resumed(f, calls, a, b)
  }

  /** Blocks only an indirect jump can lead to. */
  ghost function Orphans(g: Cfg, f: Function, calls: seq<CallPattern>, table: set<nat>): set<nat> {
    set b | b in g.blocks && b in f.blocks && b != f.entry && b in table && EntersNothing(g, f, calls, b)
  }

  /** The next orphan after the caller, or failing that the first. */
  ghost predicate IsPick(orphans: set<nat>, caller: nat, b: nat) {
    b in orphans &&
    if exists x :: x in orphans && x > caller
    then b > caller && forall x :: x in orphans && x > caller ==> b <= x
    else forall x :: x in orphans ==> b <= x
  }

  ghost function After(orphans: set<nat>, caller: nat): set<nat> { set x | x in orphans && x > caller }

  ghost function Pick(orphans: set<nat>, caller: nat): (b: nat)
    requires orphans != {}
    ensures IsPick(orphans, caller, b)
  {
    if After(orphans, caller) != {} then
      var b := Min(After(orphans, caller));
      assert b in After(orphans, caller) && forall x :: x in orphans && x > caller ==> x in After(orphans, caller);
      b
    else
      assert forall x :: x in orphans && x > caller ==> x in After(orphans, caller);
      Min(orphans)
  }

  /** Each bouncing call takes one orphan as its continuation, while there are any. */
  ghost function Continued(f: Function, calls: seq<CallPattern>, orphans: set<nat>): seq<(nat, nat)> {
    if calls == [] then []
    else if Bounces(f, calls[0]) && orphans != {} then
      var b := Pick(orphans, calls[0].caller);
      [(calls[0].jumpTarget, b)] + Continued(f, calls[1..], orphans - {b})
    else Continued(f, calls[1..], orphans)
  }

  ghost predicate FunctionEdge(g: Cfg, f: Function, calls: seq<CallPattern>, table: set<nat>, a: nat, b: nat) {
    Kept(g, f, a, b) || Resumed(f, calls, a, b) || (a, b) in Continued(f, calls, Orphans(g, f, calls, table))
  }

  /** Every edge with an end in the graph has both ends there. */
  ghost predicate NoneDangles(g: Cfg, f: Function, calls: seq<CallPattern>, table: set<nat>) {
    forall a, b :: FunctionEdge(g, f, calls, table, a, b) ==> (a in g.blocks <==> b in g.blocks)
  }

  /** Successor and predecessor lists say the same edges, each list as far as its block exists. */
  ghost predicate Records(sub: Cfg, edges: iset<(nat, nat)>) {
    && (forall a: nat, b: nat :: Edge(sub, a, b) <==> a in sub.blocks && (a, b) in edges)
    && (forall a: nat, b: nat :: b in sub.blocks ==> (a in sub.blocks[b].preds <==> (a, b) in edges))
  }

  ghost function KeptEdges(g: Cfg, f: Function): iset<(nat, nat)> { iset a: nat, b: nat | Kept(g, f, a, b) :: (a, b) }

  ghost function ResumedEdges(f: Function, calls: seq<CallPattern>): iset<(nat, nat)> {
    iset a: nat, b: nat | Resumed(f, calls, a, b) :: (a, b)
  }

  ghost function Links(links: seq<(nat, nat)>): iset<(nat, nat)> { iset e | e in links }

  lemma RecordsWellFormed(sub: Cfg, edges: iset<(nat, nat)>)
    requires Records(sub, edges) && forall b :: b in sub.blocks ==> sub.blocks[b].start == b
    ensures WellFormed(sub) <==> forall a: nat, b: nat :: (a, b) in edges ==> (a in sub.blocks <==> b in sub.blocks)
  {
    if WellFormed(sub) {
      forall a: nat, b: nat | (a, b) in edges ensures a in sub.blocks <==> b in sub.blocks {
        if b in sub.blocks { assert a in sub.blocks[b].preds; assert Edge(sub, a, b); }
        if a in sub.blocks { assert Edge(sub, a, b); }
      }
    }
    if forall a: nat, b: nat :: (a, b) in edges ==> (a in sub.blocks <==> b in sub.blocks) {
      forall a: nat, b: nat | b in sub.blocks ensures a in sub.blocks[b].preds <==> Edge(sub, a, b) {
        assert (a, b) in edges ==> a in sub.blocks;
      }
      forall a: nat, b: nat | Edge(sub, a, b) ensures b in sub.blocks {
        assert (a, b) in edges;
      }
    }
  }

  // ----- Building it

  function Retain(s: seq<nat>, keep: set<nat>): (r: seq<nat>)
    ensures forall x :: x in r <==> x in s && x in keep
  {
    if s == [] then [] else
      assert s == [s[0]] + s[1..];
      (if s[0] in keep then [s[0]] else []) + Retain(s[1..], keep)
  }

  predicate SameBlock(a: Block, b: Block) { a.start == b.start && a.end == b.end && a.instrs == b.instrs }

  /** The function's blocks as they are, whatever their edges; those the graph does not have are
      passed over. */
  ghost predicate SameBlocks(g: Cfg, f: Function, sub: Cfg) {
    && sub.entry == f.entry && sub.blocks.Keys == f.blocks * g.blocks.Keys
    && forall b :: b in sub.blocks ==> SameBlock(sub.blocks[b], g.blocks[b])
  }

  method Restrict(g: Cfg, f: Function) returns (sub: Cfg)
    requires WellFormed(g)
    ensures SameBlocks(g, f, sub) && WellFormed(sub)
    ensures Records(sub, KeptEdges(g, f))
  {
    var blocks: map<nat, Block> := map[];
    var rest := f.blocks;
    while rest != {}
      invariant rest <= f.blocks && blocks.Keys == (f.blocks - rest) * g.blocks.Keys
      invariant forall b :: b in blocks ==> SameBlock(blocks[b], g.blocks[b])
      invariant forall b :: b in blocks ==> blocks[b].succs == Retain(g.blocks[b].succs, f.blocks)
      invariant forall b :: b in blocks ==> blocks[b].preds == Retain(g.blocks[b].preds, f.blocks)
      decreases rest
    {
      var b :| b in rest;
      if b in g.blocks {
        var block := g.blocks[b];
        blocks := blocks[b := block.(succs := Retain(block.succs, f.blocks), preds := Retain(block.preds, f.blocks))];
      }
      rest := rest - {b};
    }
    sub := Cfg(blocks, f.entry);
    forall a: nat, b: nat | b in sub.blocks ensures a in sub.blocks[b].preds <==> (a, b) in KeptEdges(g, f) {
      assert a in g.blocks[b].preds <==> Edge(g, a, b);
    }
    RecordsWellFormed(sub, KeptEdges(g, f));
  }

  function WithSuccessor(g: Cfg, a: nat, b: nat): Cfg {
    if a in g.blocks && b !in g.blocks[a].succs then
      g.(blocks := g.blocks[a := g.blocks[a].(succs := g.blocks[a].succs + [b])])
    else g
  }

  function WithPredecessor(g: Cfg, a: nat, b: nat): Cfg {
    if b in g.blocks && a !in g.blocks[b].preds then
      g.(blocks := g.blocks[b := g.blocks[b].(preds := g.blocks[b].preds + [a])])
    else g
  }

  /** An edge recorded at both of its ends, where these exist. */
  lemma LinkKeeps(g: Cfg, edges: iset<(nat, nat)>, a: nat, b: nat, g': Cfg)
    requires Records(g, edges) && g' == WithPredecessor(WithSuccessor(g, a, b), a, b)
    ensures Records(g', edges + iset{(a, b)}) && g'.entry == g.entry && g'.blocks.Keys == g.blocks.Keys
    ensures forall x :: x in g.blocks ==> SameBlock(g'.blocks[x], g.blocks[x])
    ensures WellFormed(g) && (a in g.blocks <==> b in g.blocks) ==> WellFormed(g')
  {
    var more := edges + iset{(a, b)};
    LinkAddsSuccessor(g, a, b, g');
    LinkAddsPredecessor(g, a, b, g');
    assert forall x: nat, y: nat :: (x, y) in more <==> (x, y) in edges || (x == a && y == b);
    if WellFormed(g) {
      RecordsWellFormed(g, edges);
      RecordsWellFormed(g', more);
    }
  }

  lemma LinkAddsSuccessor(g: Cfg, a: nat, b: nat, g': Cfg)
    requires g' == WithPredecessor(WithSuccessor(g, a, b), a, b)
    ensures forall x, y :: Edge(g', x, y) <==> Edge(g, x, y) || (x == a && y == b && a in g.blocks)
  {
    var mid := WithSuccessor(g, a, b);
    assert forall x, y :: Edge(mid, x, y) <==> Edge(g, x, y) || (x == a && y == b && a in g.blocks);
    assert forall x, y :: Edge(g', x, y) <==> Edge(mid, x, y);
  }

  lemma LinkAddsPredecessor(g: Cfg, a: nat, b: nat, g': Cfg)
    requires g' == WithPredecessor(WithSuccessor(g, a, b), a, b)
    ensures g'.blocks.Keys == g.blocks.Keys
    ensures forall x: nat, y: nat :: y in g.blocks ==>
      (x in g'.blocks[y].preds <==> x in g.blocks[y].preds || (x == a && y == b))
  {
  }

  method Resume(g: Cfg, f: Function, calls: seq<CallPattern>, restricted: Cfg) returns (sub: Cfg)
    requires SameBlocks(g, f, restricted) && Records(restricted, KeptEdges(g, f))
    ensures SameBlocks(g, f, sub) && Records(sub, KeptEdges(g, f) + ResumedEdges(f, calls))
  {
    sub := restricted;
    assert KeptEdges(g, f) + ResumedEdges(f, calls[..0]) == KeptEdges(g, f);
    for i := 0 to |calls|
      invariant SameBlocks(g, f, sub) && Records(sub, KeptEdges(g, f) + ResumedEdges(f, calls[..i]))
    {
      var p := calls[i];
      ResumedSnoc(f, calls, i);
      ghost var before := sub;
      if Returns(f, p) {
        sub := WithSuccessor(sub, p.caller, p.returnPc);
        sub := WithPredecessor(sub, p.caller, p.returnPc);
        LinkKeeps(before, KeptEdges(g, f) + ResumedEdges(f, calls[..i]), p.caller, p.returnPc, sub);
      }
      assert KeptEdges(g, f) + ResumedEdges(f, calls[..i + 1]) ==
        (KeptEdges(g, f) + ResumedEdges(f, calls[..i])) +
          if Returns(f, p) then iset{(p.caller, p.returnPc)} else iset{};
      assert !Returns(f, p) ==>
        (KeptEdges(g, f) + ResumedEdges(f, calls[..i])) + iset{} == KeptEdges(g, f) + ResumedEdges(f, calls[..i]);
    }
    assert calls[..|calls|] == calls;
  }

  lemma ResumedSnoc(f: Function, calls: seq<CallPattern>, i: nat)
    requires i < |calls|
    ensures forall a, b :: Resumed(f, calls[..i + 1], a, b) <==>
      Resumed(f, calls[..i], a, b) || (Returns(f, calls[i]) && calls[i].caller == a && calls[i].returnPc == b)
  {
    forall a, b
      ensures Resumed(f, calls[..i + 1], a, b) <==>
        Resumed(f, calls[..i], a, b) || (Returns(f, calls[i]) && calls[i].caller == a && calls[i].returnPc == b)
    {
      if Resumed(f, calls[..i], a, b) {
        var k :| 0 <= k < i && Returns(f, calls[..i][k]) && calls[..i][k].caller == a && calls[..i][k].returnPc == b;
        assert calls[..i + 1][k] == calls[k];
      }
      if Returns(f, calls[i]) && calls[i].caller == a && calls[i].returnPc == b {
        assert calls[..i + 1][i] == calls[i];
      }
      if Resumed(f, calls[..i + 1], a, b) {
        var k :| 0 <= k < i + 1 && Returns(f, calls[..i + 1][k]) && calls[..i + 1][k].caller == a &&
          calls[..i + 1][k].returnPc == b;
        if k < i { assert calls[..i][k] == calls[k]; }
      }
    }
  }

  /** Blocks without predecessors that the jump table names. */
  method FindOrphans(sub: Cfg, table: set<nat>) returns (orphans: set<nat>)
    ensures forall b :: b in orphans <==> b in sub.blocks && b != sub.entry && b in table && sub.blocks[b].preds == []
  {
    orphans := set b | b in sub.blocks && b != sub.entry && b in table && sub.blocks[b].preds == [];
  }

  method ChooseOrphan(orphans: set<nat>, caller: nat) returns (b: nat)
    requires orphans != {}
    ensures b == Pick(orphans, caller)
  {
    var sorted := Sorted(orphans);
    var i := 0;
    while i < |sorted| && sorted[i] <= caller
      invariant i <= |sorted| && forall k :: 0 <= k < i ==> sorted[k] <= caller
    {
      i := i + 1;
    }
    var x :| x in orphans;
    assert x in sorted;
    b := if i < |sorted| then sorted[i] else sorted[0];
    forall y | y in orphans && (i < |sorted| ==> y > caller) ensures b <= y {
      var k :| 0 <= k < |sorted| && sorted[k] == y;
    }
    assert b in sorted;
    if exists y :: y in orphans && y > caller {
      var y :| y in orphans && y > caller;
      var k :| 0 <= k < |sorted| && sorted[k] == y;
      assert i < |sorted|;
    }
    PickUnique(orphans, caller, b);
  }

  lemma PickUnique(orphans: set<nat>, caller: nat, b: nat)
    requires IsPick(orphans, caller, b)
    ensures b == Pick(orphans, caller)
  {
    var c := Pick(orphans, caller);
  }

  ghost predicate AreOrphans(sub: Cfg, table: set<nat>, orphans: set<nat>) {
    forall b :: b in orphans <==> b in sub.blocks && b != sub.entry && b in table && sub.blocks[b].preds == []
  }

  /** Makes an orphan the continuation of a call that lands at `a`. */
  method Adopt(sub: Cfg, table: set<nat>, orphans: set<nat>, a: nat, caller: nat, ghost edges: iset<(nat, nat)>)
    returns (sub': Cfg, b: nat)
    requires Records(sub, edges) && AreOrphans(sub, table, orphans) && orphans != {}
    ensures b == Pick(orphans, caller) && b in orphans
    ensures Records(sub', edges + iset{(a, b)}) && sub'.entry == sub.entry && sub'.blocks.Keys == sub.blocks.Keys
    ensures forall x :: x in sub.blocks ==> SameBlock(sub'.blocks[x], sub.blocks[x])
    ensures AreOrphans(sub', table, orphans - {b})
  {
    b := ChooseOrphan(orphans, caller);
    sub' := WithSuccessor(sub, a, b);
    sub' := WithPredecessor(sub', a, b);
    LinkKeeps(sub, edges, a, b, sub');
    LinkAdopts(sub, sub', a, b);
  }

  method Continue(g: Cfg, f: Function, calls: seq<CallPattern>, table: set<nat>, resumed: Cfg) returns (sub: Cfg)
    requires SameBlocks(g, f, resumed) && Records(resumed, KeptEdges(g, f) + ResumedEdges(f, calls))
    ensures SameBlocks(g, f, sub)
    ensures var links := Continued(f, calls, Orphans(g, f, calls, table));
      Records(sub, KeptEdges(g, f) + ResumedEdges(f, calls) + Links(links))
  {
    OrphansAreUnentered(g, f, calls, table, resumed);
    ghost var entering := KeptEdges(g, f) + ResumedEdges(f, calls);
    sub := ContinueCalls(g, f, calls, table, resumed, Orphans(g, f, calls, table), entering);
  }

  method ContinueCalls(ghost g: Cfg, f: Function, calls: seq<CallPattern>, table: set<nat>, resumed: Cfg,
                       ghost orphans: set<nat>, ghost entering: iset<(nat, nat)>)
    returns (sub: Cfg)
    requires SameBlocks(g, f, resumed) && AreOrphans(resumed, table, orphans) && Records(resumed, entering)
    ensures SameBlocks(g, f, sub) && Records(sub, entering + Links(Continued(f, calls, orphans)))
  {
    sub := resumed;
    ghost var done: seq<(nat, nat)>, left := [], orphans;
    assert calls[0..] == calls && entering + Links([]) == entering &&
      [] + Continued(f, calls, orphans) == Continued(f, calls, orphans);
    for i := 0 to |calls|
      invariant SameBlocks(g, f, sub) && AreOrphans(sub, table, left) && Records(sub, entering + Links(done))
      invariant Continued(f, calls, orphans) == done + Continued(f, calls[i..], left)
    {
      ghost var link, before := [], left;
      sub, left, link := ContinueCall(g, f, calls[i], table, sub, left, entering + Links(done));
      ContinuedStep(f, calls, i, before, left, link, done);
      assert (entering + Links(done)) + Links(link) == entering + Links(done + link);
      done := done + link;
    }
    assert calls[|calls|..] == [] && done + [] == done;
  }

  lemma ContinuedStep(f: Function, calls: seq<CallPattern>, i: nat, before: set<nat>, left: set<nat>,
      link: seq<(nat, nat)>, done: seq<(nat, nat)>)
    requires i < |calls|
    requires if Bounces(f, calls[i]) && before != {}
      then link == [(calls[i].jumpTarget, Pick(before, calls[i].caller))] &&
        left == before - {Pick(before, calls[i].caller)}
      else link == [] && left == before
    ensures done + Continued(f, calls[i..], before) == (done + link) + Continued(f, calls[i + 1..], left)
  {
    assert calls[i..][0] == calls[i] && calls[i..][1..] == calls[i + 1..];
    assert Continued(f, calls[i..], before) == link + Continued(f, calls[i + 1..], left);
  }

  method ContinueCall(ghost g: Cfg, f: Function, p: CallPattern, table: set<nat>, sub: Cfg, ghost left: set<nat>,
      ghost edges: iset<(nat, nat)>)
    returns (sub': Cfg, ghost left': set<nat>, ghost link: seq<(nat, nat)>)
    requires SameBlocks(g, f, sub) && AreOrphans(sub, table, left) && Records(sub, edges)
    ensures SameBlocks(g, f, sub') && AreOrphans(sub', table, left') && Records(sub', edges + Links(link))
    ensures if Bounces(f, p) && left != {}
      then link == [(p.jumpTarget, Pick(left, p.caller))] && left' == left - {Pick(left, p.caller)}
      else link == [] && left' == left
  {
    sub', left', link := sub, left, [];
    assert edges + Links(link) == edges;
    if Bounces(f, p) {
      var orphans := FindOrphans(sub, table);
      assert orphans == left;
      if orphans != {} {
        var b;
        sub', b := Adopt(sub, table, orphans, p.jumpTarget, p.caller, edges);
        left', link := left - {b}, [(p.jumpTarget, b)];
        assert Links(link) == iset{(p.jumpTarget, b)};
      }
    }
  }

  lemma OrphansAreUnentered(g: Cfg, f: Function, calls: seq<CallPattern>, table: set<nat>, resumed: Cfg)
    requires SameBlocks(g, f, resumed) && Records(resumed, KeptEdges(g, f) + ResumedEdges(f, calls))
    ensures AreOrphans(resumed, table, Orphans(g, f, calls, table))
  {
    var entering := KeptEdges(g, f) + ResumedEdges(f, calls);
    NoEdgeNoPredecessor(resumed, entering);
    assert forall a: nat, b: nat :: (a, b) in entering <==> Kept(g, f, a, b) || Resumed(f, calls, a, b);
  }

  /** Blocks without predecessors are those no edge enters. */
  lemma NoEdgeNoPredecessor(sub: Cfg, edges: iset<(nat, nat)>)
    requires Records(sub, edges)
    ensures forall b :: b in sub.blocks ==> (sub.blocks[b].preds == [] <==> forall a: nat :: (a, b) !in edges)
  {
    forall b | b in sub.blocks ensures sub.blocks[b].preds == [] <==> forall a: nat :: (a, b) !in edges {
      if sub.blocks[b].preds != [] {
        assert sub.blocks[b].preds[0] in sub.blocks[b].preds;
      } else {
        assert forall a: nat :: a !in sub.blocks[b].preds;
      }
    }
  }

  lemma LinkAdopts(g: Cfg, g': Cfg, a: nat, b: nat)
    requires b in g.blocks && g' == WithPredecessor(WithSuccessor(g, a, b), a, b)
    ensures g'.blocks.Keys == g.blocks.Keys
    ensures forall x :: x in g.blocks ==> (g'.blocks[x].preds == [] <==> g.blocks[x].preds == [] && x != b)
  {
  }

  /** The edges are the program's own, those over calls that return here, and the continuations,
      in successor and predecessor lists alike. The result is well formed unless a call names a
      block of the function that the program does not have. */
  method BuildFunctionCfg(g: Cfg, f: Function, calls: seq<CallPattern>, table: set<nat>) returns (sub: Cfg)
    requires WellFormed(g)
    ensures SameBlocks(g, f, sub)
    ensures forall a, b :: Edge(sub, a, b) <==> a in g.blocks && FunctionEdge(g, f, calls, table, a, b)
    ensures forall a, b :: b in sub.blocks ==> (a in sub.blocks[b].preds <==> FunctionEdge(g, f, calls, table, a, b))
    ensures WellFormed(sub) <==> NoneDangles(g, f, calls, table)
  {
    var restricted := Restrict(g, f);
    var resumed := Resume(g, f, calls, restricted);
    sub := Continue(g, f, calls, table, resumed);
    ghost var links := Continued(f, calls, Orphans(g, f, calls, table));
    ghost var edges := KeptEdges(g, f) + ResumedEdges(f, calls) + Links(links);
    assert forall a: nat, b: nat :: (a, b) in edges <==> FunctionEdge(g, f, calls, table, a, b);
    EdgesInside(g, f, calls, table);
    RecordsWellFormed(sub, edges);
  }

  /** Edges join blocks the function lists. */
  lemma EdgesInside(g: Cfg, f: Function, calls: seq<CallPattern>, table: set<nat>)
    ensures forall a, b :: FunctionEdge(g, f, calls, table, a, b) ==> a in f.blocks && b in f.blocks
  {
    var orphans := Orphans(g, f, calls, table);
    ContinuedMatches(f, calls, orphans);
  }

  /** Functions made of the program's blocks have no such call. */
  lemma NoneDanglesInside(g: Cfg, f: Function, calls: seq<CallPattern>, table: set<nat>)
    requires f.blocks <= g.blocks.Keys
    ensures NoneDangles(g, f, calls, table)
  {
    EdgesInside(g, f, calls, table);
  }

  // ----- The continuations

  ghost function Bouncing(f: Function, calls: seq<CallPattern>): nat {
    if calls == [] then 0 else Bouncing(f, calls[1..]) + if Bounces(f, calls[0]) then 1 else 0
  }

  /** Continuations lead from a bouncing call's landing block to distinct orphans, as many as
      calls and orphans allow. */
  lemma {:induction false} ContinuedMatches(f: Function, calls: seq<CallPattern>, orphans: set<nat>)
    ensures var links := Continued(f, calls, orphans);
      && (forall k :: 0 <= k < |links| ==> links[k].1 in orphans && links[k].0 in f.blocks)
      && (forall j, k :: 0 <= j < k < |links| ==> links[j].1 != links[k].1)
      && |links| == if Bouncing(f, calls) < |orphans| then Bouncing(f, calls) else |orphans|
  {
    if calls != [] {
      if Bounces(f, calls[0]) && orphans != {} {
        ContinuedMatches(f, calls[1..], orphans - {Pick(orphans, calls[0].caller)});
      } else {
        ContinuedMatches(f, calls[1..], orphans);
      }
    }
  }

  /** An adopted orphan is entered from nowhere but its call, and the entry is never adopted. */
  lemma ContinuationHasOneSource(g: Cfg, f: Function, calls: seq<CallPattern>, table: set<nat>, a: nat, b: nat)
    requires (a, b) in Continued(f, calls, Orphans(g, f, calls, table))
    ensures b != f.entry && forall x :: FunctionEdge(g, f, calls, table, x, b) <==> x == a
  {
    var orphans := Orphans(g, f, calls, table);
    var links := Continued(f, calls, orphans);
    ContinuedMatches(f, calls, orphans);
    var k :| 0 <= k < |links| && links[k] == (a, b);
    assert b in orphans;
    assert EntersNothing(g, f, calls, b);
    forall x | (x, b) in links ensures x == a {
      var j :| 0 <= j < |links| && links[j] == (x, b);
    }
  }
}
