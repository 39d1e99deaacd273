/** Cutting a decoded program into basic blocks and connecting them. */
module CfgBuild {
  import opened Instructions
  import opened Graph
  import opened Collections

  datatype Program = Program(instrs: seq<(nat, Shape)>, codeLen: nat)

  /** Addresses increase and lie inside the code. */
  ghost predicate Decoded(p: Program) {
    && (forall i, j :: 0 <= i < j < |p.instrs| ==> p.instrs[i].0 < p.instrs[j].0)
    && (forall i :: 0 <= i < |p.instrs| ==> p.instrs[i].0 < p.codeLen)
  }

  /** Offsets are relative to the instruction; backward targets stop at 0. */
  function JumpTarget(pc: nat, offset: int): nat {
    if offset >= 0 then pc + offset else if pc < -offset then 0 else pc + offset
  }

  predicate FallsThrough(s: Shape) { s.IsConditionalBranch() || !s.IsTerminator() }

  /** Where control can statically go from instruction i: to the next one, or to the instruction a
      branch names. */
  ghost predicate StaticStep(p: Program, i: nat, j: nat) {
    i < |p.instrs| && j < |p.instrs| &&
    ((FallsThrough(p.instrs[i].1) && j == i + 1) || BranchesTo(p.instrs[i], p.instrs[j].0))
  }

  predicate BranchesTo(instr: (nat, Shape), pc: nat) {
    instr.1.HasBranchOffset() && JumpTarget(instr.0, instr.1.offset) == pc
  }

  // ----- Leaders

  ghost predicate IsLeader(p: Program, pc: nat) {
    || pc == 0
    || (exists i :: 0 <= i < |p.instrs| && BranchesTo(p.instrs[i], pc))
    || Follows(p, |p.instrs|, pc)
  }

  ghost predicate AreLeaders(p: Program, leaders: set<nat>) {
    forall pc :: pc in leaders <==> IsLeader(p, pc)
  }

  /** One of the first n instructions is a terminator just before this address. */
  ghost predicate Follows(p: Program, n: nat, pc: nat) {
    exists i :: 0 <= i < n && i < |p.instrs| - 1 && p.instrs[i].1.IsTerminator() && p.instrs[i + 1].0 == pc
  }

  method IdentifyLeaders(p: Program) returns (leaders: set<nat>)
    ensures AreLeaders(p, leaders)
  {
    leaders := {0};
    for i := 0 to |p.instrs|
      invariant forall pc :: pc in leaders <==> pc == 0 || exists k :: 0 <= k < i && BranchesTo(p.instrs[k], pc)
    {
      var (pc, s) := p.instrs[i];
      if s.HasBranchOffset() {
        leaders := leaders + {JumpTarget(pc, s.offset)};
      }
    }
    ghost var targets := leaders;
    for i := 0 to |p.instrs|
      invariant forall pc :: pc in leaders <==> (pc in targets || Follows(p, i, pc))
    {
      if p.instrs[i].1.IsTerminator() && i + 1 < |p.instrs| {
        leaders := leaders + {p.instrs[i + 1].0};
      }
    }
  }

  // ----- Blocks

  /** How many instructions lie below an address. */
  ghost function Below(instrs: seq<(nat, Shape)>, x: nat): nat {
    if instrs == [] || instrs[0].0 >= x then 0 else 1 + Below(instrs[1..], x)
  }

  lemma {:induction false} BelowSplits(instrs: seq<(nat, Shape)>, x: nat)
    requires forall i, j :: 0 <= i < j < |instrs| ==> instrs[i].0 < instrs[j].0
    ensures Below(instrs, x) <= |instrs|
    ensures forall k :: 0 <= k < |instrs| ==> (instrs[k].0 < x <==> k < Below(instrs, x))
  {
    if instrs != [] && instrs[0].0 < x {
      var rest := instrs[1..];
      BelowSplits(rest, x);
      forall k | 0 <= k < |instrs| ensures instrs[k].0 < x <==> k < Below(instrs, x) {
        if k > 0 { assert instrs[k] == rest[k - 1]; }
      }
    }
  }

  /** The instructions from lo up to hi are the ones between the two counts. */
  method CollectRange(p: Program, lo: nat, hi: nat) returns (r: seq<(nat, Shape)>)
    requires Decoded(p)
    ensures lo > hi ==> r == []
    ensures lo <= hi ==>
      Below(p.instrs, lo) <= Below(p.instrs, hi) <= |p.instrs| &&
        r == p.instrs[Below(p.instrs, lo)..Below(p.instrs, hi)]
  {
    r := [];
    ghost var a, b := Below(p.instrs, lo), Below(p.instrs, hi);
    BelowSplits(p.instrs, lo);
    BelowSplits(p.instrs, hi);
    assert b < |p.instrs| ==> p.instrs[b].0 >= hi;
    for i := 0 to |p.instrs|
      invariant lo > hi ==> r == []
      invariant lo <= hi ==> r == if i <= a then [] else p.instrs[a..if i < b then i else b]
    {
      var (pc, s) := p.instrs[i];
      assert (lo <= pc <==> a <= i) && (pc < hi <==> i < b);
      assert a <= i ==> p.instrs[a..i + 1] == p.instrs[a..i] + [(pc, s)];
      if lo <= pc && pc < hi {
        r := r + [(pc, s)];
      }
    }
  }

  /** The blocks hold consecutive pieces of the program, cut at `cuts`. */
  ghost predicate Pieces(p: Program, bs: seq<Block>, cuts: seq<nat>) {
    && |cuts| == |bs| + 1 && cuts[0] == 0 && cuts[|bs|] <= |p.instrs|
    && (forall k, l :: 0 <= k < l < |cuts| ==> cuts[k] < cuts[l])
    && (forall k :: 0 <= k < |bs| ==> Piece(p, bs[k], cuts[k], cuts[k + 1]))
    && (forall k, l :: 0 <= k < l < |bs| ==> bs[k].start < bs[l].start)
  }

  ghost predicate Piece(p: Program, b: Block, lo: nat, hi: nat) {
    && lo < hi <= |p.instrs| && b.instrs == p.instrs[lo..hi]
    && forall i :: lo <= i < hi ==> b.start <= p.instrs[i].0 < b.end
  }

  /** A block starts at instruction c, with its address. */
  ghost predicate StartsBlock(p: Program, bs: seq<Block>, cuts: seq<nat>, c: nat) {
    exists k :: 0 <= k < |bs| && k < |cuts| && cuts[k] == c && c < |p.instrs| && bs[k].start == p.instrs[c].0
  }

  /** Every leader below `x` that is an instruction starts a block. */
  ghost predicate LeadersCut(p: Program, leaders: set<nat>, bs: seq<Block>, cuts: seq<nat>, x: nat) {
    forall c: nat :: c < |p.instrs| && p.instrs[c].0 < x && p.instrs[c].0 in leaders ==> StartsBlock(p, bs, cuts, c)
  }

  /** Every block starts at one of the first n leaders and is cut from the program at the first
      instruction there, and so is a piece for each of these leaders. */
  ghost predicate CutAtLeaders(p: Program, sorted: seq<nat>, n: nat, bs: seq<Block>, cuts: seq<nat>) {
    && |cuts| == |bs| + 1
    && (forall k :: 0 <= k < |bs| ==> bs[k].start in sorted && Below(p.instrs, bs[k].start) == cuts[k])
    && (forall t :: 0 <= t < n && t < |sorted| ==> Below(p.instrs, sorted[t]) in cuts)
  }

  lemma CutSnoc(p: Program, sorted: seq<nat>, n: nat, bs: seq<Block>, cuts: seq<nat>, block: Block, hi: nat)
    requires CutAtLeaders(p, sorted, n, bs, cuts) && n < |sorted|
    requires block.start == sorted[n] && cuts[|bs|] == Below(p.instrs, sorted[n])
    ensures CutAtLeaders(p, sorted, n + 1, bs + [block], cuts + [hi])
  {
    assert forall x :: x in cuts ==> x in cuts + [hi];
    assert block.start in sorted && cuts[|bs|] in cuts;
  }

  /** A piece of the program begins exactly where the first instruction at or after a leader is. */
  ghost predicate CutOnlyAt(p: Program, leaders: set<nat>, bs: seq<Block>, cuts: seq<nat>) {
    && |cuts| == |bs| + 1
    && (forall k :: 0 <= k < |bs| ==> bs[k].start in leaders && Below(p.instrs, bs[k].start) == cuts[k])
    && (forall l :: l in leaders ==> Below(p.instrs, l) in cuts)
  }

  lemma CutByAll(p: Program, leaders: set<nat>, sorted: seq<nat>, bs: seq<Block>, cuts: seq<nat>)
    requires forall l :: l in leaders <==> l in sorted
    requires CutAtLeaders(p, sorted, |sorted|, bs, cuts)
    ensures CutOnlyAt(p, leaders, bs, cuts)
  {
    forall l | l in leaders ensures Below(p.instrs, l) in cuts {
      var t :| 0 <= t < |sorted| && sorted[t] == l;
    }
    forall k | 0 <= k < |bs| ensures bs[k].start in leaders {
      assert bs[k].start in sorted;
    }
  }

  /** The leaders are the program's, and the blocks are cut there and nowhere else. */
  ghost predicate CutOnlyAtLeaders(p: Program, bs: seq<Block>, cuts: seq<nat>) {
    exists leaders: set<nat> :: CutOnlyAt(p, leaders, bs, cuts) && AreLeaders(p, leaders)
  }

  lemma CutKept(p: Program, leaders: set<nat>, bs: seq<Block>, cs: seq<Block>, cuts: seq<nat>)
    requires CutOnlyAt(p, leaders, bs, cuts) && SameButEdges(bs, cs)
    ensures CutOnlyAt(p, leaders, cs, cuts)
  {
    forall k | 0 <= k < |cs| ensures cs[k].start in leaders && Below(p.instrs, cs[k].start) == cuts[k] {
      assert bs[k].start in leaders;
    }
  }

  ghost predicate Unconnected(bs: seq<Block>) {
    forall k :: 0 <= k < |bs| ==> bs[k].succs == [] && bs[k].preds == []
  }

  /** The blocks of the first n leaders. */
  ghost predicate CutUpTo(p: Program, leaders: set<nat>, sorted: seq<nat>, n: nat, bs: seq<Block>, cuts: seq<nat>) {
    && Pieces(p, bs, cuts) && cuts[|bs|] == Bound(p, sorted, n)
    && (forall k :: 0 <= k < |bs| && n < |sorted| ==> bs[k].start < sorted[n])
    && LeadersCut(p, leaders, bs, cuts, EndOf(p, sorted, n))
    && CutAtLeaders(p, sorted, n, bs, cuts)
  }

  /** Where the piece before the n-th leader ends. */
  function EndOf(p: Program, sorted: seq<nat>, n: nat): nat { if n < |sorted| then sorted[n] else p.codeLen }

  method CreateBlocks(p: Program, leaders: set<nat>) returns (bs: seq<Block>, ghost cuts: seq<nat>)
    requires Decoded(p) && 0 in leaders
    ensures Pieces(p, bs, cuts) && cuts[|bs|] == |p.instrs| && Unconnected(bs)
    ensures LeadersCut(p, leaders, bs, cuts, p.codeLen)
    ensures CutOnlyAt(p, leaders, bs, cuts)
  {
    var sorted := Sorted(leaders);
    bs, cuts := [], [0];
    CutNothing(p, leaders, sorted);
    for i := 0 to |sorted|
      invariant CutUpTo(p, leaders, sorted, i, bs, cuts) && Unconnected(bs)
    {
      var start := sorted[i];
      var end := if i + 1 < |sorted| then sorted[i + 1] else p.codeLen;
      var instrs := CollectRange(p, start, end);
      BoundIs(p, sorted, i);
      assert instrs == p.instrs[Bound(p, sorted, i)..Bound(p, sorted, i + 1)];
      var block := Block(start, end, instrs, [], []);
      if instrs != [] {
        CutOneMore(p, leaders, sorted, bs, cuts, i, block);
        bs, cuts := bs + [block], cuts + [Bound(p, sorted, i + 1)];
      } else {
        CutNoMore(p, leaders, sorted, bs, cuts, i);
      }
    }
    CutByAll(p, leaders, sorted, bs, cuts);
  }

  lemma CutNothing(p: Program, leaders: set<nat>, sorted: seq<nat>)
    requires Decoded(p) && Increasing(sorted) && 0 in sorted
    ensures CutUpTo(p, leaders, sorted, 0, [], [0])
  {
    FirstLeader(p, sorted);
  }

  lemma CutOneMore(p: Program, leaders: set<nat>, sorted: seq<nat>, bs: seq<Block>, cuts: seq<nat>, i: nat,
      block: Block)
    requires Decoded(p) && Increasing(sorted) && i < |sorted| && forall x :: x in leaders <==> x in sorted
    requires CutUpTo(p, leaders, sorted, i, bs, cuts) && Bound(p, sorted, i) < Bound(p, sorted, i + 1) <= |p.instrs|
    requires block.start == sorted[i] && block.end == EndOf(p, sorted, i + 1)
    requires block.instrs == p.instrs[Bound(p, sorted, i)..Bound(p, sorted, i + 1)]
    ensures CutUpTo(p, leaders, sorted, i + 1, bs + [block], cuts + [Bound(p, sorted, i + 1)])
  {
    var lo, hi := Bound(p, sorted, i), Bound(p, sorted, i + 1);
    BoundIs(p, sorted, i);
    PieceSnoc(p, bs, cuts, block, lo, hi);
    LeadersSnoc(p, leaders, sorted, bs, cuts, i, block);
    CutSnoc(p, sorted, i, bs, cuts, block, hi);
  }

  lemma CutNoMore(p: Program, leaders: set<nat>, sorted: seq<nat>, bs: seq<Block>, cuts: seq<nat>, i: nat)
    requires Decoded(p) && Increasing(sorted) && i < |sorted| && forall x :: x in leaders <==> x in sorted
    requires CutUpTo(p, leaders, sorted, i, bs, cuts) && Bound(p, sorted, i) == Bound(p, sorted, i + 1)
    ensures CutUpTo(p, leaders, sorted, i + 1, bs, cuts)
  {
    NoLeaderSkipped(p, leaders, sorted, bs, cuts, i);
    assert cuts[|bs|] in cuts;
  }

  /** The first instruction at or after the i-th leader; all of them after the last. */
  ghost function Bound(p: Program, sorted: seq<nat>, i: nat): nat {
    if i < |sorted| then Below(p.instrs, sorted[i]) else |p.instrs|
  }

  lemma FirstLeader(p: Program, sorted: seq<nat>)
    requires Increasing(sorted) && 0 in sorted
    ensures sorted[0] == 0 && Bound(p, sorted, 0) == 0
  {
    var k :| 0 <= k < |sorted| && sorted[k] == 0;
    InOrder(sorted, 0, k);
  }

  lemma {:induction false} BelowAll(instrs: seq<(nat, Shape)>, x: nat)
    requires forall i :: 0 <= i < |instrs| ==> instrs[i].0 < x
    ensures Below(instrs, x) == |instrs|
  {
    if instrs != [] {
      assert forall i :: 0 <= i < |instrs[1..]| ==> instrs[1..][i] == instrs[i + 1];
      BelowAll(instrs[1..], x);
    }
  }

  lemma BoundIs(p: Program, sorted: seq<nat>, i: nat)
    requires Decoded(p) && Increasing(sorted) && i < |sorted|
    ensures var end := if i + 1 < |sorted| then sorted[i + 1] else p.codeLen;
      && Bound(p, sorted, i) <= Bound(p, sorted, i + 1) <= |p.instrs|
      && (sorted[i] > end ==> Bound(p, sorted, i) == |p.instrs|)
      && (sorted[i] <= end ==> Bound(p, sorted, i + 1) == Below(p.instrs, end))
    ensures forall c :: 0 <= c < |p.instrs| ==> (sorted[i] <= p.instrs[c].0 <==> Bound(p, sorted, i) <= c)
    ensures forall c :: 0 <= c < |p.instrs| ==>
      (p.instrs[c].0 < (if i + 1 < |sorted| then sorted[i + 1] else p.codeLen) <==> c < Bound(p, sorted, i + 1))
  {
    BelowSplits(p.instrs, sorted[i]);
    if i + 1 < |sorted| {
      BelowSplits(p.instrs, sorted[i + 1]);
      var b := Below(p.instrs, sorted[i + 1]);
      assert b < |p.instrs| ==> p.instrs[b].0 >= sorted[i + 1];
    } else {
      BelowSplits(p.instrs, p.codeLen);
      BelowAll(p.instrs, p.codeLen);
      if sorted[i] >= p.codeLen { BelowAll(p.instrs, sorted[i]); }
    }
  }

  lemma PieceSnoc(p: Program, bs: seq<Block>, cuts: seq<nat>, block: Block, lo: nat, hi: nat)
    requires Pieces(p, bs, cuts) && cuts[|bs|] == lo && Piece(p, block, lo, hi)
    requires forall k :: 0 <= k < |bs| ==> bs[k].start < block.start
    ensures Pieces(p, bs + [block], cuts + [hi])
  {
    var bs', cuts' := bs + [block], cuts + [hi];
    forall k | 0 <= k < |bs'| ensures Piece(p, bs'[k], cuts'[k], cuts'[k + 1]) {
      if k < |bs| { assert Piece(p, bs[k], cuts[k], cuts[k + 1]); }
    }
  }

  lemma LeadersSnoc(p: Program, leaders: set<nat>, sorted: seq<nat>, bs: seq<Block>, cuts: seq<nat>, i: nat,
      block: Block)
    requires Decoded(p) && Increasing(sorted) && i < |sorted| && forall x :: x in leaders <==> x in sorted
    requires |cuts| == |bs| + 1 && cuts[|bs|] == Bound(p, sorted, i) && block.start == sorted[i]
    requires LeadersCut(p, leaders, bs, cuts, sorted[i])
    ensures LeadersCut(p, leaders, bs + [block], cuts + [Bound(p, sorted, i + 1)], EndOf(p, sorted, i + 1))
  {
    var bs', cuts' := bs + [block], cuts + [Bound(p, sorted, i + 1)];
    var x := if i + 1 < |sorted| then sorted[i + 1] else p.codeLen;
    forall c: nat | c < |p.instrs| && p.instrs[c].0 < x && p.instrs[c].0 in leaders
      ensures StartsBlock(p, bs', cuts', c)
    {
      if p.instrs[c].0 < sorted[i] {
        var k :| 0 <= k < |bs| && k < |cuts| && cuts[k] == c && bs[k].start == p.instrs[c].0;
        assert bs'[k] == bs[k] && cuts'[k] == c;
      } else {
        OnlyLeader(p, sorted, i, c);
        assert bs'[|bs|] == block && cuts'[|bs|] == c;
      }
    }
  }

  /** Between two leaders only the first is one. */
  lemma OnlyLeader(p: Program, sorted: seq<nat>, i: nat, c: nat)
    requires Decoded(p) && Increasing(sorted) && i < |sorted| && c < |p.instrs|
    requires sorted[i] <= p.instrs[c].0 && p.instrs[c].0 in sorted
    requires i + 1 < |sorted| ==> p.instrs[c].0 < sorted[i + 1]
    ensures p.instrs[c].0 == sorted[i] && Bound(p, sorted, i) == c
  {
    var k :| 0 <= k < |sorted| && sorted[k] == p.instrs[c].0;
    InOrder(sorted, k, i);
    if i + 1 < |sorted| { InOrder(sorted, i + 1, k); }
    BelowSplits(p.instrs, sorted[i]);
    var b := Below(p.instrs, sorted[i]);
    assert b <= c && p.instrs[b].0 >= sorted[i];
  }

  lemma InOrder(sorted: seq<nat>, i: nat, j: nat)
    requires Increasing(sorted) && i < |sorted| && j < |sorted|
    ensures i < j <==> sorted[i] < sorted[j]
  {
  }

  lemma NoLeaderSkipped(p: Program, leaders: set<nat>, sorted: seq<nat>, bs: seq<Block>, cuts: seq<nat>, i: nat)
    requires Decoded(p) && Increasing(sorted) && i < |sorted| && forall x :: x in leaders <==> x in sorted
    requires Bound(p, sorted, i) == Bound(p, sorted, i + 1) && LeadersCut(p, leaders, bs, cuts, sorted[i])
    ensures LeadersCut(p, leaders, bs, cuts, if i + 1 < |sorted| then sorted[i + 1] else p.codeLen)
  {
    BoundIs(p, sorted, i);
  }

  // ----- Edges

  function Last(b: Block): (nat, Shape)
    requires b.instrs != []
  {
    b.instrs[|b.instrs| - 1]
  }

  ghost predicate Starts(bs: seq<Block>, pc: nat) {
    exists k :: 0 <= k < |bs| && bs[k].start == pc
  }

  /** Block k's last instruction branches to b's address, or falls through to the next block b. */
  ghost predicate Leads(bs: seq<Block>, k: nat, b: nat) {
    k < |bs| && bs[k].instrs != [] &&
    ((BranchesTo(Last(bs[k]), b) && Starts(bs, b)) ||
     (FallsThrough(Last(bs[k]).1) && k + 1 < |bs| && bs[k + 1].start == b))
  }

  predicate SameButEdges(bs: seq<Block>, cs: seq<Block>) {
    |bs| == |cs| && forall k :: 0 <= k < |bs| ==>
      bs[k].start == cs[k].start && bs[k].end == cs[k].end && bs[k].instrs == cs[k].instrs
  }

  method SuccessorsOf(bs: seq<Block>, starts: set<nat>, k: nat) returns (succs: seq<nat>)
    requires k < |bs| && bs[k].instrs != [] && forall pc :: pc in starts <==> Starts(bs, pc)
    ensures forall b :: b in succs <==> Leads(bs, k, b)
  {
    var (pc, s) := Last(bs[k]);
    var next := if k + 1 < |bs| then [bs[k + 1].start] else [];
    if s.HasBranchOffset() {
      var target := JumpTarget(pc, s.offset);
      succs := if target in starts then [target] else [];
      if s.IsConditionalBranch() {
        succs := succs + next;
      }
    } else if s.Trap? || s.JumpInd? || s.LoadImmJumpInd? {
      succs := [];
    } else {
      succs := next;
    }
  }

  /** Predecessors by block start: everything that leads there. */
  ghost predicate PredsOf(bs: seq<Block>, preds: map<nat, seq<nat>>, n: nat) {
    forall p, b :: IsPred(preds, p, b) <==> LeadsFrom(bs, n, p, b)
  }

  predicate IsPred(preds: map<nat, seq<nat>>, p: nat, b: nat) { b in preds && p in preds[b] }

  ghost predicate LeadsFrom(bs: seq<Block>, n: nat, p: nat, b: nat) {
    exists k :: 0 <= k < n && k < |bs| && bs[k].start == p && b in bs[k].succs
  }

  method ConnectBlocks(bs: seq<Block>) returns (cs: seq<Block>)
    requires forall k :: 0 <= k < |bs| ==> bs[k].instrs != []
    ensures SameButEdges(bs, cs)
    ensures forall k: nat, b :: k < |cs| ==> (b in cs[k].succs <==> Leads(bs, k, b))
    ensures forall k: nat, p :: k < |cs| ==> (p in cs[k].preds <==> LeadsFrom(cs, |cs|, p, cs[k].start))
  {
    var starts := set k | 0 <= k < |bs| :: bs[k].start;
    assert forall pc :: pc in starts <==> Starts(bs, pc);
    cs := bs;
    for k := 0 to |bs|
      invariant SameButEdges(bs, cs)
      invariant forall j: nat, b :: j < k ==> (b in cs[j].succs <==> Leads(bs, j, b))
    {
      var succs := SuccessorsOf(bs, starts, k);
      cs := cs[k := cs[k].(succs := succs)];
    }
    ghost var linked := cs;
    var preds := CollectPredecessors(cs);
    for k := 0 to |cs|
      invariant SameButEdges(linked, cs) && |cs| == |linked|
      invariant forall j :: 0 <= j < |cs| ==> cs[j].succs == linked[j].succs
      invariant forall j: nat, p :: j < k ==> (p in cs[j].preds <==> LeadsFrom(linked, |linked|, p, linked[j].start))
    {
      var found := if cs[k].start in preds then preds[cs[k].start] else [];
      assert forall p: nat :: p in found <==> IsPred(preds, p, linked[k].start);
      cs := cs[k := cs[k].(preds := found)];
    }
    assert forall p, b :: LeadsFrom(cs, |cs|, p, b) <==> LeadsFrom(linked, |linked|, p, b);
  }

  method CollectPredecessors(bs: seq<Block>) returns (preds: map<nat, seq<nat>>)
    ensures PredsOf(bs, preds, |bs|)
  {
    preds := map[];
    for k := 0 to |bs|
      invariant PredsOf(bs, preds, k)
    {
      ghost var before := preds;
      for i := 0 to |bs[k].succs|
        invariant forall p, b :: IsPred(preds, p, b) <==>
          (IsPred(before, p, b) || (p == bs[k].start && b in bs[k].succs[..i]))
      {
        var s := bs[k].succs[i];
        preds := preds[s := (if s in preds then preds[s] else []) + [bs[k].start]];
        assert bs[k].succs[..i + 1] == bs[k].succs[..i] + [s];
      }
      assert bs[k].succs[..|bs[k].succs|] == bs[k].succs;
      LeadsFromSnoc(bs, k);
    }
  }

  lemma LeadsFromSnoc(bs: seq<Block>, n: nat)
    requires n < |bs|
    ensures forall p, b :: LeadsFrom(bs, n + 1, p, b) <==>
      LeadsFrom(bs, n, p, b) || (p == bs[n].start && b in bs[n].succs)
  {
    forall p, b
      ensures LeadsFrom(bs, n + 1, p, b) <==> LeadsFrom(bs, n, p, b) || (p == bs[n].start && b in bs[n].succs)
    {
      if p == bs[n].start && b in bs[n].succs { assert LeadsFrom(bs, n + 1, p, b); }
    }
  }

  // ----- The graph

  /** The blocks of the graph are the program's pieces, cut at every leader and connected by where
      their last instructions lead. */
  ghost predicate Built(p: Program, g: Cfg, bs: seq<Block>, cuts: seq<nat>) {
    && g.entry == 0
    && Pieces(p, bs, cuts) && cuts[|bs|] == |p.instrs|
    && (forall c: nat :: c < |p.instrs| && IsLeader(p, p.instrs[c].0) ==> StartsBlock(p, bs, cuts, c))
    && (forall b :: b in g.blocks <==> Starts(bs, b))
    && (forall k :: 0 <= k < |bs| ==> bs[k].start in g.blocks && g.blocks[bs[k].start] == bs[k])
    && (forall k: nat, b :: k < |bs| ==> (b in bs[k].succs <==> Leads(bs, k, b)))
    && (forall k: nat, q :: k < |bs| ==> (q in bs[k].preds <==> LeadsFrom(bs, |bs|, q, bs[k].start)))
  }

  method Build(p: Program) returns (g: Cfg, ghost bs: seq<Block>, ghost cuts: seq<nat>)
    requires Decoded(p)
    ensures Built(p, g, bs, cuts) && (p.instrs != [] ==> CutOnlyAtLeaders(p, bs, cuts))
    ensures WellFormed(g) && UniquePcs(g) && (g.blocks == map[] <==> p.instrs == [])
  {
    if p.instrs == [] {
      g, bs, cuts := Cfg(map[], 0), [], [0];
      return;
    }
    var leaders := IdentifyLeaders(p);
    var created;
    created, cuts := CreateBlocks(p, leaders);
    forall k | 0 <= k < |created| ensures created[k].instrs != [] {
      assert Piece(p, created[k], cuts[k], cuts[k + 1]);
    }
    var connected := ConnectBlocks(created);
    bs := connected;
    ConnectedPieces(p, created, connected, cuts);
    CutKept(p, leaders, created, connected, cuts);
    var blocks := ByStart(connected);
    g := Cfg(blocks, 0);
    BuiltWellFormed(p, g, bs, cuts);
    assert connected != [] && connected[0].start in blocks;
  }

  method ByStart(bs: seq<Block>) returns (blocks: map<nat, Block>)
    requires forall j, k :: 0 <= j < k < |bs| ==> bs[j].start != bs[k].start
    ensures forall b :: b in blocks <==> Starts(bs, b)
    ensures forall k :: 0 <= k < |bs| ==> bs[k].start in blocks && blocks[bs[k].start] == bs[k]
  {
    blocks := map[];
    for k := 0 to |bs|
      invariant forall b :: b in blocks <==> exists j :: 0 <= j < k && bs[j].start == b
      invariant forall j :: 0 <= j < k ==> bs[j].start in blocks && blocks[bs[j].start] == bs[j]
    {
      blocks := blocks[bs[k].start := bs[k]];
    }
  }

  lemma ConnectedPieces(p: Program, bs: seq<Block>, cs: seq<Block>, cuts: seq<nat>)
    requires Pieces(p, bs, cuts) && SameButEdges(bs, cs)
    ensures Pieces(p, cs, cuts)
    ensures forall k: nat, b :: Leads(bs, k, b) <==> Leads(cs, k, b)
    ensures forall c: nat :: StartsBlock(p, bs, cuts, c) ==> StartsBlock(p, cs, cuts, c)
  {
    assert forall b :: Starts(bs, b) <==> Starts(cs, b);
    forall k: nat | k < |cs| ensures Piece(p, cs[k], cuts[k], cuts[k + 1]) {
      assert Piece(p, bs[k], cuts[k], cuts[k + 1]);
    }
    forall c: nat | StartsBlock(p, bs, cuts, c) ensures StartsBlock(p, cs, cuts, c) {
      var k :| 0 <= k < |bs| && k < |cuts| && cuts[k] == c && c < |p.instrs| && bs[k].start == p.instrs[c].0;
      assert cs[k].start == p.instrs[c].0;
    }
  }

  // ----- What the graph says about the program

  // ----- What ends a block, and where it leads, shape by shape

  /** Control never goes on to the next instruction. */
  predicate EndsHere(s: Shape) {
    match s
    case Trap => true
    case Jump(_) => true
    case JumpInd(_) => true
    case LoadImmJump(_, _, _) => true
    case LoadImmJumpInd(_, _, _) => true
    case _ => false
  }

  /** Control goes on, or to where the branch says. */
  predicate Splits(s: Shape) {
    match s
    case BranchImm(_, _, _) => true
    case BranchReg(_, _, _) => true
    case _ => false
  }

  /** The address a direct jump or branch names. */
  function NamedTarget(pc: nat, s: Shape): Option<nat> {
    match s
    case Jump(o) => Some(if pc + o >= 0 then pc + o else 0)
    case LoadImmJump(_, _, o) => Some(if pc + o >= 0 then pc + o else 0)
    case BranchImm(_, _, o) => Some(if pc + o >= 0 then pc + o else 0)
    case BranchReg(_, _, o) => Some(if pc + o >= 0 then pc + o else 0)
    case _ => None
  }

  /** A block's successors by its last instruction: nothing after a trap or an indirect jump, the named block
      only after a direct jump, that and the next after a branch, and the next after anything else. */
  lemma LeavesByShape(p: Program, g: Cfg, bs: seq<Block>, cuts: seq<nat>, k: nat, b: nat)
    requires Built(p, g, bs, cuts) && k < |bs|
    ensures bs[k].instrs != []
    ensures var (pc, s) := Last(bs[k]);
      b in bs[k].succs <==>
        || (NamedTarget(pc, s) == Some(b) && Starts(bs, b))
        || (!EndsHere(s) && k + 1 < |bs| && bs[k + 1].start == b)
  {
    assert Piece(p, bs[k], cuts[k], cuts[k + 1]);
    assert b in bs[k].succs <==> Leads(bs, k, b);
  }

  /** The leaders, by the shapes that branch or do not let control simply go on. */
  lemma LeadersByShape(p: Program, pc: nat)
    ensures IsLeader(p, pc) <==>
      || pc == 0
      || (exists i :: 0 <= i < |p.instrs| && NamedTarget(p.instrs[i].0, p.instrs[i].1) == Some(pc))
      || (exists i :: 0 < i < |p.instrs| && p.instrs[i].0 == pc && StopsBefore(p, i))
  {
    forall i | 0 <= i < |p.instrs|
      ensures BranchesTo(p.instrs[i], pc) <==> NamedTarget(p.instrs[i].0, p.instrs[i].1) == Some(pc)
    {
    }
    if Follows(p, |p.instrs|, pc) {
      var i :| 0 <= i < |p.instrs| - 1 && p.instrs[i].1.IsTerminator() && p.instrs[i + 1].0 == pc;
      assert StopsBefore(p, i + 1);
    }
    if i :| 0 < i < |p.instrs| && p.instrs[i].0 == pc && StopsBefore(p, i) {
      assert p.instrs[i - 1].1.IsTerminator() && p.instrs[i - 1 + 1].0 == pc;
    }
  }

  predicate StopsBefore(p: Program, i: nat) {
    0 < i <= |p.instrs| && (EndsHere(p.instrs[i - 1].1) || Splits(p.instrs[i - 1].1))
  }

  /** Whatever does not let control simply go on stands last in its block. */
  lemma EndsBlock(p: Program, g: Cfg, bs: seq<Block>, cuts: seq<nat>, b: nat, j: nat)
    requires Built(p, g, bs, cuts) && b in g.blocks && j < |g.blocks[b].instrs|
    requires EndsHere(g.blocks[b].instrs[j].1) || Splits(g.blocks[b].instrs[j].1)
    ensures j == |g.blocks[b].instrs| - 1
  {
    TerminatorsAreLast(p, g, bs, cuts, b, j);
  }

  // ----- Blocks and their instructions

  /** Instruction c is the j-th of block k. */
  lemma PieceAt(p: Program, g: Cfg, bs: seq<Block>, cuts: seq<nat>, k: nat, j: nat)
    requires Built(p, g, bs, cuts) && k < |bs| && j < |bs[k].instrs|
    ensures cuts[k] + j < cuts[k + 1] <= |p.instrs| && bs[k].instrs[j] == p.instrs[cuts[k] + j]
  {
    assert Piece(p, bs[k], cuts[k], cuts[k + 1]);
    CutsGrow(p, g, bs, cuts, k + 1, |bs|);
  }

  lemma CutsGrow(p: Program, g: Cfg, bs: seq<Block>, cuts: seq<nat>, k: nat, l: nat)
    requires Built(p, g, bs, cuts) && k <= l <= |bs|
    ensures cuts[k] <= cuts[l]
  {
  }

  /** The block an instruction lies in. */
  ghost function BlockOf(p: Program, g: Cfg, bs: seq<Block>, cuts: seq<nat>, c: nat): (k: nat)
    requires Built(p, g, bs, cuts) && c < |p.instrs|
    ensures k < |bs| && cuts[k] <= c < cuts[k + 1]
  {
    FindPiece(cuts, c)
  }

  ghost function FindPiece(cuts: seq<nat>, c: nat): (k: nat)
    requires |cuts| > 1 && cuts[0] <= c < cuts[|cuts| - 1]
    ensures k + 1 < |cuts| && cuts[k] <= c < cuts[k + 1]
  {
    if c < cuts[1] then 0 else 1 + FindPiece(cuts[1..], c)
  }

  lemma OneBlock(p: Program, g: Cfg, bs: seq<Block>, cuts: seq<nat>, c: nat, k: nat)
    requires Built(p, g, bs, cuts) && c < |p.instrs| && k < |bs| && cuts[k] <= c < cuts[k + 1]
    ensures k == BlockOf(p, g, bs, cuts, c)
  {
    var l := BlockOf(p, g, bs, cuts, c);
    if k < l {
      CutsGrow(p, g, bs, cuts, k + 1, l);
    } else if l < k {
      CutsGrow(p, g, bs, cuts, l + 1, k);
    }
  }

  lemma OneAddress(p: Program, x: nat, y: nat)
    requires Decoded(p) && x < |p.instrs| && y < |p.instrs|
    ensures p.instrs[x].0 == p.instrs[y].0 <==> x == y
  {
  }

  lemma BuiltUnique(p: Program, g: Cfg, bs: seq<Block>, cuts: seq<nat>)
    requires Decoded(p) && Built(p, g, bs, cuts)
    ensures UniquePcs(g)
  {
    forall b, c, i, j | b in g.blocks && c in g.blocks && 0 <= i < |g.blocks[b].instrs| && 0 <= j < |g.blocks[c].instrs|
      && g.blocks[b].instrs[i].0 == g.blocks[c].instrs[j].0
      ensures b == c && i == j
    {
      var k :| 0 <= k < |bs| && bs[k].start == b;
      var l :| 0 <= l < |bs| && bs[l].start == c;
      PieceAt(p, g, bs, cuts, k, i);
      PieceAt(p, g, bs, cuts, l, j);
      var x, y := cuts[k] + i, cuts[l] + j;
      OneAddress(p, x, y);
      OneBlock(p, g, bs, cuts, x, k);
      OneBlock(p, g, bs, cuts, y, l);
    }
  }

  /** Predecessors are the inverse of successors, edges lead to blocks, addresses are unique. */
  lemma BuiltWellFormed(p: Program, g: Cfg, bs: seq<Block>, cuts: seq<nat>)
    requires Decoded(p) && Built(p, g, bs, cuts)
    ensures WellFormed(g) && UniquePcs(g)
    ensures p.instrs != [] && p.instrs[0].0 == 0 ==> g.entry in g.blocks
  {
    BuiltUnique(p, g, bs, cuts);
    forall q, b | b in g.blocks ensures q in g.blocks[b].preds <==> Edge(g, q, b) {
      var k :| 0 <= k < |bs| && bs[k].start == b;
      if LeadsFrom(bs, |bs|, q, b) {
        var l :| 0 <= l < |bs| && bs[l].start == q && b in bs[l].succs;
      }
      if Edge(g, q, b) {
        var l :| 0 <= l < |bs| && bs[l].start == q;
      }
    }
    forall a, b | Edge(g, a, b) ensures b in g.blocks {
      var k :| 0 <= k < |bs| && bs[k].start == a;
      assert Leads(bs, k, b);
    }
    if p.instrs != [] && p.instrs[0].0 == 0 {
      assert IsLeader(p, p.instrs[0].0);
      assert StartsBlock(p, bs, cuts, 0);
    }
  }

  ghost function Concat(bs: seq<Block>): seq<(nat, Shape)> {
    if bs == [] then [] else bs[0].instrs + Concat(bs[1..])
  }

  lemma {:induction false} ConcatFrom(p: Program, bs: seq<Block>, cuts: seq<nat>, k: nat)
    requires Pieces(p, bs, cuts) && cuts[|bs|] == |p.instrs| && k <= |bs|
    ensures cuts[k] <= |p.instrs| && Concat(bs[k..]) == p.instrs[cuts[k]..]
    decreases |bs| - k
  {
    if k < |bs| {
      ConcatFrom(p, bs, cuts, k + 1);
      assert Piece(p, bs[k], cuts[k], cuts[k + 1]);
      assert bs[k..][1..] == bs[k + 1..];
      assert p.instrs[cuts[k]..] == p.instrs[cuts[k]..cuts[k + 1]] + p.instrs[cuts[k + 1]..];
    }
  }

  /** The blocks, in order of address, hold the whole program and nothing else. */
  lemma BlocksHoldProgram(p: Program, g: Cfg, bs: seq<Block>, cuts: seq<nat>)
    requires Built(p, g, bs, cuts)
    ensures Concat(bs) == p.instrs
  {
    ConcatFrom(p, bs, cuts, 0);
    assert bs[0..] == bs && p.instrs[0..] == p.instrs;
  }

  /** An instruction after a terminator, or branched to, is the first of its block. */
  lemma LeaderIsFirst(p: Program, g: Cfg, bs: seq<Block>, cuts: seq<nat>, c: nat)
    requires Built(p, g, bs, cuts) && c < |p.instrs| && IsLeader(p, p.instrs[c].0)
    ensures var k := BlockOf(p, g, bs, cuts, c); cuts[k] == c && bs[k].start == p.instrs[c].0
  {
    assert StartsBlock(p, bs, cuts, c);
    var k :| 0 <= k < |bs| && k < |cuts| && cuts[k] == c && bs[k].start == p.instrs[c].0;
    OneBlock(p, g, bs, cuts, c, k);
  }

  lemma TerminatorEndsPiece(p: Program, g: Cfg, bs: seq<Block>, cuts: seq<nat>, k: nat, c: nat)
    requires Built(p, g, bs, cuts) && k < |bs| && cuts[k] <= c < cuts[k + 1] <= |p.instrs|
    requires p.instrs[c].1.IsTerminator()
    ensures c == cuts[k + 1] - 1
  {
    if c + 1 < cuts[k + 1] {
      assert Follows(p, |p.instrs|, p.instrs[c + 1].0);
      LeaderIsFirst(p, g, bs, cuts, c + 1);
      OneBlock(p, g, bs, cuts, c + 1, k);
    }
  }

  /** Terminators are only ever the last instruction of a block. */
  lemma TerminatorsAreLast(p: Program, g: Cfg, bs: seq<Block>, cuts: seq<nat>, b: nat, j: nat)
    requires Built(p, g, bs, cuts) && b in g.blocks && j < |g.blocks[b].instrs|
    requires g.blocks[b].instrs[j].1.IsTerminator()
    ensures j == |g.blocks[b].instrs| - 1
  {
    var k :| 0 <= k < |bs| && bs[k].start == b;
    PieceAt(p, g, bs, cuts, k, j);
    assert Piece(p, bs[k], cuts[k], cuts[k + 1]);
    TerminatorEndsPiece(p, g, bs, cuts, k, cuts[k] + j);
  }

  /** Two instructions next to each other in a block, or the ends of an edge. */
  ghost predicate Covered(p: Program, g: Cfg, bs: seq<Block>, cuts: seq<nat>, i: nat, j: nat)
    requires Built(p, g, bs, cuts) && i < |p.instrs| && j < |p.instrs|
  {
    var k, l := BlockOf(p, g, bs, cuts, i), BlockOf(p, g, bs, cuts, j);
    if j == cuts[l] then i == cuts[k + 1] - 1 && Edge(g, bs[k].start, bs[l].start)
    else k == l && j == i + 1
  }

  /** The last instruction of block k, seen from the program. */
  lemma LastOf(p: Program, g: Cfg, bs: seq<Block>, cuts: seq<nat>, k: nat)
    requires Built(p, g, bs, cuts) && k < |bs|
    ensures 0 < cuts[k + 1] <= |p.instrs| && bs[k].instrs != [] && Last(bs[k]) == p.instrs[cuts[k + 1] - 1]
  {
    assert Piece(p, bs[k], cuts[k], cuts[k + 1]);
  }

  lemma BranchIsCovered(p: Program, g: Cfg, bs: seq<Block>, cuts: seq<nat>, i: nat, j: nat)
    requires Built(p, g, bs, cuts) && i < |p.instrs| && j < |p.instrs| && BranchesTo(p.instrs[i], p.instrs[j].0)
    ensures Covered(p, g, bs, cuts, i, j)
  {
    var k, l := BlockOf(p, g, bs, cuts, i), BlockOf(p, g, bs, cuts, j);
    LeaderIsFirst(p, g, bs, cuts, j);
    LastOf(p, g, bs, cuts, k);
    TerminatorEndsPiece(p, g, bs, cuts, k, i);
    assert Starts(bs, bs[l].start);
    assert Leads(bs, k, bs[l].start);
  }

  lemma NextStarts(p: Program, g: Cfg, bs: seq<Block>, cuts: seq<nat>, k: nat)
    requires Built(p, g, bs, cuts) && k + 1 < |bs| && bs[k].instrs != [] && FallsThrough(Last(bs[k]).1)
    ensures Edge(g, bs[k].start, bs[k + 1].start) && cuts[k + 1] < cuts[k + 2]
  {
    assert Leads(bs, k, bs[k + 1].start);
  }

  lemma NextStays(p: Program, g: Cfg, bs: seq<Block>, cuts: seq<nat>, i: nat)
    requires Built(p, g, bs, cuts) && i + 1 < |p.instrs| && i + 1 < cuts[BlockOf(p, g, bs, cuts, i) + 1]
    ensures Covered(p, g, bs, cuts, i, i + 1)
  {
    OneBlock(p, g, bs, cuts, i + 1, BlockOf(p, g, bs, cuts, i));
  }

  lemma NextLeaves(p: Program, g: Cfg, bs: seq<Block>, cuts: seq<nat>, i: nat)
    requires Built(p, g, bs, cuts) && i + 1 < |p.instrs| && FallsThrough(p.instrs[i].1)
    requires i + 1 == cuts[BlockOf(p, g, bs, cuts, i) + 1]
    ensures Covered(p, g, bs, cuts, i, i + 1)
  {
    var k := BlockOf(p, g, bs, cuts, i);
    assert k + 1 < |bs|;
    LastOf(p, g, bs, cuts, k);
    NextStarts(p, g, bs, cuts, k);
    OneBlock(p, g, bs, cuts, i + 1, k + 1);
  }

  lemma NextIsCovered(p: Program, g: Cfg, bs: seq<Block>, cuts: seq<nat>, i: nat)
    requires Built(p, g, bs, cuts) && i + 1 < |p.instrs| && FallsThrough(p.instrs[i].1)
    ensures Covered(p, g, bs, cuts, i, i + 1)
  {
    if i + 1 == cuts[BlockOf(p, g, bs, cuts, i) + 1] {
      NextLeaves(p, g, bs, cuts, i);
    } else {
      NextStays(p, g, bs, cuts, i);
    }
  }

  /** Every static step of the program stays inside a block or crosses a recorded edge. */
  lemma StepIsCovered(p: Program, g: Cfg, bs: seq<Block>, cuts: seq<nat>, i: nat, j: nat)
    requires Built(p, g, bs, cuts) && StaticStep(p, i, j)
    ensures Covered(p, g, bs, cuts, i, j)
  {
    if BranchesTo(p.instrs[i], p.instrs[j].0) {
      BranchIsCovered(p, g, bs, cuts, i, j);
    } else {
      NextIsCovered(p, g, bs, cuts, i);
    }
  }

  /** Blocks are as long as they can be: a block begins at an instruction if and only if it is the
      first at or after some leader. */
  lemma CutsExactly(p: Program, g: Cfg, bs: seq<Block>, cuts: seq<nat>, c: nat)
    requires Built(p, g, bs, cuts) && CutOnlyAtLeaders(p, bs, cuts) && c < |p.instrs|
    ensures cuts[BlockOf(p, g, bs, cuts, c)] == c <==> exists l :: IsLeader(p, l) && Below(p.instrs, l) == c
  {
    var k := BlockOf(p, g, bs, cuts, c);
    var leaders: set<nat> :| CutOnlyAt(p, leaders, bs, cuts) && AreLeaders(p, leaders);
    if cuts[k] == c { assert IsLeader(p, bs[k].start); }
    if l :| IsLeader(p, l) && Below(p.instrs, l) == c {
      var i :| 0 <= i < |cuts| && cuts[i] == c;
      assert i < |bs|;
      OneBlock(p, g, bs, cuts, c, i);
    }
  }

  ghost predicate StaticRun(p: Program, r: seq<nat>) {
    && |r| > 0 && (forall i :: 0 <= i < |r| ==> r[i] < |p.instrs|)
    && forall i, j :: 0 <= i && j == i + 1 && j < |r| ==> StaticStep(p, r[i], r[j])
  }

  /** The blocks a run enters. */
  ghost function Entered(p: Program, g: Cfg, bs: seq<Block>, cuts: seq<nat>, r: seq<nat>): seq<nat>
    requires Built(p, g, bs, cuts) && r != [] && forall i :: 0 <= i < |r| ==> r[i] < |p.instrs|
  {
    var k := BlockOf(p, g, bs, cuts, r[|r| - 1]);
    if |r| == 1 then [bs[k].start]
    else Entered(p, g, bs, cuts, r[..|r| - 1]) + if cuts[k] == r[|r| - 1] then [bs[k].start] else []
  }

  /** Every run of static steps is a walk through the graph. */
  lemma {:induction false} RunIsWalk(p: Program, g: Cfg, bs: seq<Block>, cuts: seq<nat>, r: seq<nat>)
    requires Built(p, g, bs, cuts) && StaticRun(p, r)
    ensures PathFromTo(g, Entered(p, g, bs, cuts, r),
      bs[BlockOf(p, g, bs, cuts, r[0])].start, bs[BlockOf(p, g, bs, cuts, r[|r| - 1])].start)
    decreases |r|
  {
    if |r| > 1 {
      var n := |r| - 1;
      RunIsWalk(p, g, bs, cuts, r[..n]);
      assert StaticStep(p, r[n - 1], r[n]);
      StepIsCovered(p, g, bs, cuts, r[n - 1], r[n]);
      var first := bs[BlockOf(p, g, bs, cuts, r[0])].start;
      StepExtends(p, g, bs, cuts, r[n - 1], r[n], Entered(p, g, bs, cuts, r[..n]), first);
    }
  }

  lemma StepExtends(p: Program, g: Cfg, bs: seq<Block>, cuts: seq<nat>, i: nat, j: nat, w: seq<nat>, a: nat)
    requires Built(p, g, bs, cuts) && i < |p.instrs| && j < |p.instrs| && Covered(p, g, bs, cuts, i, j)
    requires PathFromTo(g, w, a, bs[BlockOf(p, g, bs, cuts, i)].start)
    ensures var l := BlockOf(p, g, bs, cuts, j);
      PathFromTo(g, w + if cuts[l] == j then [bs[l].start] else [], a, bs[l].start)
  {
    var k, l := BlockOf(p, g, bs, cuts, i), BlockOf(p, g, bs, cuts, j);
    if cuts[l] == j { PathSnoc(g, w, a, bs[k].start, bs[l].start); } else { assert w + [] == w; }
  }

  /** Nothing else is an edge: one leaves a block only where its last instruction branches to the
      other's start, or falls through to the other's first instruction. */
  lemma EdgesAreSteps(p: Program, g: Cfg, bs: seq<Block>, cuts: seq<nat>, k: nat, l: nat)
    requires Built(p, g, bs, cuts) && k < |bs| && l < |bs|
    ensures var last := cuts[k + 1] - 1;
      && last < |p.instrs|
      && (Edge(g, bs[k].start, bs[l].start) <==>
        (BranchesTo(p.instrs[last], bs[l].start) || (FallsThrough(p.instrs[last].1) && cuts[l] == last + 1)))
  {
    LastOf(p, g, bs, cuts, k);
    assert Starts(bs, bs[l].start);
    assert Edge(g, bs[k].start, bs[l].start) <==> Leads(bs, k, bs[l].start);
    if l != k + 1 {
      if l < k + 1 { assert cuts[l] < cuts[k + 1]; } else { assert cuts[k + 1] < cuts[l]; }
      if k + 1 < |bs| { StartsDiffer(p, g, bs, cuts, k + 1, l); }
    }
  }

  lemma StartsDiffer(p: Program, g: Cfg, bs: seq<Block>, cuts: seq<nat>, k: nat, l: nat)
    requires Built(p, g, bs, cuts) && k < |bs| && l < |bs| && k != l
    ensures bs[k].start != bs[l].start
  {
  }

  // ----- Telling that a graph is the one built

  /** Block k is the piece of the program between its cuts, with the edges its last instruction says. */
  ghost predicate Fits(p: Program, g: Cfg, bs: seq<Block>, cuts: seq<nat>, k: nat) {
    && k < |bs| && |cuts| == |bs| + 1 && Piece(p, bs[k], cuts[k], cuts[k + 1])
    && bs[k].start == p.instrs[cuts[k]].0 && bs[k].start in g.blocks && g.blocks[bs[k].start] == bs[k]
    && forall b :: b in bs[k].succs <==> Leads(bs, k, b)
  }

  ghost predicate Tiled(p: Program, bs: seq<Block>, cuts: seq<nat>) {
    && Decoded(p) && |cuts| == |bs| + 1 && cuts[0] == 0 && cuts[|bs|] == |p.instrs|
    && forall k, l :: 0 <= k < l < |cuts| ==> cuts[k] < cuts[l]
  }

  lemma FitPieces(p: Program, g: Cfg, bs: seq<Block>, cuts: seq<nat>)
    requires Tiled(p, bs, cuts)
    requires forall k: nat {:trigger Fits(p, g, bs, cuts, k)} :: k < |bs| ==> Fits(p, g, bs, cuts, k)
    ensures Pieces(p, bs, cuts)
    ensures forall k :: 0 <= k < |bs| ==> bs[k].start == p.instrs[cuts[k]].0 && bs[k].start in g.blocks
  {
    forall k: nat | k < |bs|
      ensures Piece(p, bs[k], cuts[k], cuts[k + 1]) && bs[k].start == p.instrs[cuts[k]].0 && bs[k].start in g.blocks
    {
      assert Fits(p, g, bs, cuts, k);
    }
  }

  /** Blocks that tile the program, one starting at each leader, with the edges their last instructions
      say, are what the builder makes of it. */
  lemma IsBuilt(p: Program, g: Cfg, bs: seq<Block>, cuts: seq<nat>, leaders: set<nat>)
    requires Tiled(p, bs, cuts) && WellFormed(g) && g.entry == 0
    requires AreLeaders(p, leaders) && g.blocks.Keys == leaders && forall b :: b in leaders ==> Starts(bs, b)
    requires forall k: nat {:trigger Fits(p, g, bs, cuts, k)} :: k < |bs| ==> Fits(p, g, bs, cuts, k)
    ensures Built(p, g, bs, cuts) && CutOnlyAtLeaders(p, bs, cuts)
  {
    FitPieces(p, g, bs, cuts);
    forall c: nat | c < |p.instrs| && IsLeader(p, p.instrs[c].0) ensures StartsBlock(p, bs, cuts, c) {
      var k: nat :| k < |bs| && bs[k].start == p.instrs[c].0;
      OneAddress(p, c, cuts[k]);
    }
    forall k: nat | k < |bs|
      ensures g.blocks[bs[k].start] == bs[k] && forall b :: b in bs[k].succs <==> Leads(bs, k, b)
    {
      assert Fits(p, g, bs, cuts, k);
    }
    forall k: nat, q | k < |bs| ensures q in bs[k].preds <==> LeadsFrom(bs, |bs|, q, bs[k].start) {
      assert q in g.blocks[bs[k].start].preds <==> Edge(g, q, bs[k].start);
    }
    CutAtStarts(p, bs, cuts, leaders);
  }

  lemma PieceOfOne(p: Program, b: Block, lo: nat)
    requires lo < |p.instrs| && b.instrs == [p.instrs[lo]] && b.start <= p.instrs[lo].0 < b.end
    ensures Piece(p, b, lo, lo + 1)
  {
  }

  lemma PieceOfTwo(p: Program, b: Block, lo: nat)
    requires lo + 1 < |p.instrs| && b.instrs == [p.instrs[lo], p.instrs[lo + 1]]
    requires b.start <= p.instrs[lo].0 < b.end && b.start <= p.instrs[lo + 1].0 < b.end
    ensures Piece(p, b, lo, lo + 2)
  {
    assert p.instrs[lo..lo + 2] == [p.instrs[lo], p.instrs[lo + 1]];
  }

  lemma BelowAt(p: Program, c: nat)
    requires Decoded(p) && c < |p.instrs|
    ensures Below(p.instrs, p.instrs[c].0) == c
  {
    BelowSplits(p.instrs, p.instrs[c].0);
    var n := Below(p.instrs, p.instrs[c].0);
    assert n <= c;
    assert p.instrs[n].0 >= p.instrs[c].0;
  }

  lemma CutAtStarts(p: Program, bs: seq<Block>, cuts: seq<nat>, leaders: set<nat>)
    requires Decoded(p) && Pieces(p, bs, cuts)
    requires forall k :: 0 <= k < |bs| ==> bs[k].start == p.instrs[cuts[k]].0
    requires forall b :: b in leaders <==> Starts(bs, b)
    ensures CutOnlyAt(p, leaders, bs, cuts)
  {
    forall k: nat | k < |bs| ensures bs[k].start in leaders && Below(p.instrs, bs[k].start) == cuts[k] {
      assert Piece(p, bs[k], cuts[k], cuts[k + 1]);
      BelowAt(p, cuts[k]);
    }
    forall l | l in leaders ensures Below(p.instrs, l) in cuts {
      var k: nat :| k < |bs| && bs[k].start == l;
      assert cuts[k] in cuts;
    }
  }
}
