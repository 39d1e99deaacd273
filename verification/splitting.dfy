/** Splitting a component into functions: its entry, the prologues it calls, and what belongs to each. */
module Splitting {
  import opened Instructions
  import opened Graph
  import opened Collections
  import opened Assignment
  import CfgBuild
  import Components
  import FunctionCfg

  const STACK_POINTER: Reg := 2

  /** The block makes room on the stack, or stores to it, before anything else. */
  predicate StartsWithPrologue(b: Block) {
    b.instrs != [] &&
    match b.instrs[0].1
    case BinImm(_, _, dst, src, value) => dst == STACK_POINTER && src == STACK_POINTER && value < 0
    case Store(_, base, _, _) => base == STACK_POINTER
    case _ => false
  }

  predicate EndsWithJump(g: Cfg, p: nat) {
    p in g.blocks && g.blocks[p].instrs != [] && g.blocks[p].instrs[|g.blocks[p].instrs| - 1].1.Jump?
  }

  /** Some block of the component jumps there. */
  predicate IsCallTarget(g: Cfg, component: set<nat>, b: nat)
    requires b in g.blocks
  {
    exists p :: p in g.blocks[b].preds && p in component && EndsWithJump(g, p)
  }

  predicate OpensFunction(g: Cfg, component: set<nat>, b: nat) {
    b in g.blocks && StartsWithPrologue(g.blocks[b]) && IsCallTarget(g, component, b)
  }

  /** No block of the component leads there. */
  predicate IsOpening(g: Cfg, component: set<nat>, b: nat) {
    b in component && b in g.blocks && forall p :: p in g.blocks[b].preds ==> p !in component
  }

  function Openings(g: Cfg, component: set<nat>): set<nat> { set b | b in component && IsOpening(g, component, b) }

  ghost function ComponentEntry(g: Cfg, component: set<nat>): nat
    requires component != {}
  {
    if Openings(g, component) != {} then Collections.Min(Openings(g, component)) else Collections.Min(component)
  }

  method FindComponentEntry(g: Cfg, component: set<nat>) returns (e: nat)
    requires component != {}
    ensures e == ComponentEntry(g, component) && e in component
  {
    var openings := Openings(g, component);
    if openings != {} {
      e := FindMin(openings);
    } else {
      e := FindMin(component);
    }
  }

  /** The component's entry, and then in order of address the prologues it calls. */
  ghost predicate AreEntries(g: Cfg, component: set<nat>, entries: seq<nat>) {
    && component != {} && entries != [] && entries[0] == ComponentEntry(g, component)
    && Increasing(entries[1..])
    && forall b :: b in entries[1..] <==> b in component && b != entries[0] && OpensFunction(g, component, b)
  }

  method ListEntries(g: Cfg, component: set<nat>) returns (entries: seq<nat>)
    requires component != {}
    ensures AreEntries(g, component, entries)
  {
    var e := FindComponentEntry(g, component);
    var prologues := set b | b in component && b != e && OpensFunction(g, component, b);
    var sorted := Sorted(prologues);
    entries := [e] + sorted;
    assert entries[1..] == sorted;
  }

  function OwnedBy(owner: map<nat, nat>, e: nat): set<nat> { set b | b in owner && owner[b] == e }

  /** One function for the whole component, or one for each entry with the blocks nearest to it. */
  method SplitAtPrologues(g: Cfg, component: set<nat>)
    returns (functions: seq<FunctionCfg.Function>, ghost entries: seq<nat>, ghost dist: map<nat, nat>,
      ghost owner: map<nat, nat>)
    requires component != {}
    ensures |component| == 1 ==> functions == [FunctionCfg.Function(Collections.Min(component), component)]
    ensures |component| > 1 ==> AreEntries(g, component, entries)
    ensures |component| > 1 && |entries| == 1 ==>
      functions == [FunctionCfg.Function(ComponentEntry(g, component), component)]
    ensures |component| > 1 && |entries| > 1 ==>
      && Nearest(g, component, entries, dist, owner) && |functions| == |entries|
      && forall i :: 0 <= i < |entries| ==> functions[i] == FunctionCfg.Function(entries[i], OwnedBy(owner, entries[i]))
  {
    entries, dist, owner := [], map[], map[];
    if |component| <= 1 {
      var e := FindMin(component);
      return [FunctionCfg.Function(e, component)], entries, dist, owner;
    }
    var listed := ListEntries(g, component);
    entries := listed;
    if |listed| == 1 {
      return [FunctionCfg.Function(listed[0], component)], entries, dist, owner;
    }
    var owners, distances := AssignBlocksToEntries(g, component, listed);
    owner, dist := owners, distances;
    forall i | 0 <= i < |listed| ensures listed[i] in owners && owners[listed[i]] == listed[i] {
      EntryOwnsItself(g, component, listed, distances, owners, i);
    }
    functions := CollectFunctions(listed, owners);
  }

  method CollectFunctions(entries: seq<nat>, owner: map<nat, nat>) returns (functions: seq<FunctionCfg.Function>)
    requires forall i :: 0 <= i < |entries| ==> entries[i] in owner && owner[entries[i]] == entries[i]
    ensures |functions| == |entries|
    ensures forall i :: 0 <= i < |entries| ==>
      functions[i] == FunctionCfg.Function(entries[i], OwnedBy(owner, entries[i]))
  {
    functions := [];
    for i := 0 to |entries|
      invariant |functions| == i
      invariant forall k :: 0 <= k < i ==> functions[k] == FunctionCfg.Function(entries[k], OwnedBy(owner, entries[k]))
    {
      var blocks := OwnedBy(owner, entries[i]);
      assert entries[i] in blocks;
      if blocks != {} {
        functions := functions + [FunctionCfg.Function(entries[i], blocks)];
      }
    }
  }

  // ----- What belongs to a function

  lemma EntriesInside(g: Cfg, component: set<nat>, entries: seq<nat>, i: nat)
    requires AreEntries(g, component, entries) && i < |entries|
    ensures entries[i] in component
    ensures forall k: nat :: k < |entries| && entries[k] == entries[i] ==> k == i
  {
    if i > 0 { assert entries[1..][i - 1] == entries[i] && entries[i] in entries[1..]; }
    forall k: nat | k < |entries| && entries[k] == entries[i] ensures k == i {
      if k > 0 { assert entries[1..][k - 1] == entries[k] && entries[k] in entries[1..]; }
    }
  }

  /** Every entry is in its own function, so none is left without blocks. */
  lemma EntryOwnsItself(g: Cfg, component: set<nat>, entries: seq<nat>, dist: map<nat, nat>, owner: map<nat, nat>,
      i: nat)
    requires AreEntries(g, component, entries) && Nearest(g, component, entries, dist, owner) && i < |entries|
    ensures entries[i] in owner && owner[entries[i]] == entries[i]
  {
    var e := entries[i];
    EntriesInside(g, component, entries, i);
    assert Inside(g, component, [e], entries[i], e);
    assert Within(dist, e, 1);
    assert OwnedAt(g, owner, e, dist[e]);
  }

  /** A block gets a function exactly when some entry leads to it inside the component. */
  lemma AssignedExactly(g: Cfg, component: set<nat>, entries: seq<nat>, dist: map<nat, nat>, owner: map<nat, nat>,
      b: nat)
    requires Nearest(g, component, entries, dist, owner)
    ensures b in owner <==> exists i: nat, p :: i < |entries| && Inside(g, component, p, entries[i], b)
  {
    if b in owner {
      assert OwnedAt(g, owner, b, dist[b]);
      var p :| Owned(g, owner, p, owner[b], b) && |p| == dist[b] + 1;
      var i: nat :| i < |entries| && entries[i] == owner[b];
      assert Inside(g, component, p, entries[i], b);
    }
    if i: nat, p :| i < |entries| && Inside(g, component, p, entries[i], b) {
      assert Within(dist, b, |p|);
    }
  }

  /** Only the component's entry can be listed before a smaller one: the smallest of the entries a block
      is nearest to owns it unless the component's is one of them and larger than another. */
  lemma LargerOwnsExactly(g: Cfg, component: set<nat>, entries: seq<nat>, dist: map<nat, nat>, owner: map<nat, nat>,
      b: nat)
    requires AreEntries(g, component, entries) && Nearest(g, component, entries, dist, owner) && b in dist
    ensures OwnerIsSmallest(g, component, entries, dist, owner, b) <==>
      !(Tied(g, component, entries, dist, 0, b) && exists k: nat ::
        Tied(g, component, entries, dist, k, b) && entries[k] < entries[0])
  {
    var f := OwnerIsFirstTied(g, component, entries, dist, owner, b);
    forall k: nat | Tied(g, component, entries, dist, k, b) && f != 0 ensures entries[f] <= entries[k] {
      NoneBefore(g, component, entries, dist, f, k, b);
      LaterIsLarger(entries, f, k);
    }
    if Tied(g, component, entries, dist, 0, b) { NoneBefore(g, component, entries, dist, f, 0, b); }
  }

  lemma LaterIsLarger(entries: seq<nat>, i: nat, k: nat)
    requires 0 < i <= k < |entries| && Increasing(entries[1..])
    ensures entries[i] <= entries[k]
  {
    var rest := entries[1..];
    assert rest[i - 1] == entries[i] && rest[k - 1] == entries[k];
  }

  /** So functions are made of the program's blocks, and the graph of each is well formed whatever calls
      there are. */
  lemma SplitsDoNotDangle(g: Cfg, component: set<nat>, entries: seq<nat>, dist: map<nat, nat>, owner: map<nat, nat>,
                          e: nat, calls: seq<FunctionCfg.CallPattern>, table: set<nat>)
    requires component <= g.blocks.Keys && Nearest(g, component, entries, dist, owner)
    ensures FunctionCfg.NoneDangles(g, FunctionCfg.Function(e, OwnedBy(owner, e)), calls, table)
  {
    FunctionCfg.NoneDanglesInside(g, FunctionCfg.Function(e, OwnedBy(owner, e)), calls, table);
  }

  // ----- A component whose entry has the larger address

  // 0:  trap
  // 10: sp = sp - 16;   jump to 30
  // 20: branch to 30
  // 25: jump to 10
  // 30: trap
  function Joining(): Cfg {
    Cfg(map[
      0 := Block(0, 10, [(0, Trap)], [], []),
      10 := Block(10, 20, [(10, BinImm(Add, W64, 2, 2, -16)), (14, Jump(16))], [30], [25]),
      20 := Block(20, 25, [(20, BranchImm(3, 0, 10))], [30, 25], []),
      25 := Block(25, 30, [(25, Jump(-15))], [10], [20]),
      30 := Block(30, 31, [(30, Trap)], [], [10, 20])], 0)
  }

  const JOINED: set<nat> := {10, 20, 25, 30}
  const LEADERS: set<nat> := {0, 10, 20, 25, 30}
  const CUTS: seq<nat> := [0, 1, 3, 4, 5, 6]

  lemma JoiningEdges(a: nat, b: nat)
    ensures Edge(Joining(), a, b) <==>
      (b == 30 && (a == 10 || a == 20)) || (a == 20 && b == 25) || (a == 25 && b == 10)
  {
  }

  lemma JoiningInstrs(b: nat, j: nat)
    requires b in Joining().blocks && j < |Joining().blocks[b].instrs|
    ensures Joining().blocks[b].instrs[j].0 == b + 4 * j && j < 2 && (b == 10 || j == 0) && b in LEADERS
  {
  }

  lemma JoiningWellFormed()
    ensures WellFormed(Joining())
  {
    var g := Joining();
    forall p, b | b in g.blocks ensures p in g.blocks[b].preds <==> Edge(g, p, b) { JoiningEdges(p, b); }
    forall a, b | Edge(g, a, b) ensures b in g.blocks { JoiningEdges(a, b); }
  }

  function Decoded(): CfgBuild.Program {
    CfgBuild.Program(
      [(0, Trap), (10, BinImm(Add, W64, 2, 2, -16)), (14, Jump(16)), (20, BranchImm(3, 0, 10)), (25, Jump(-15)),
       (30, Trap)],
      31)
  }

  function InOrder(): seq<Block> {
    var blocks := Joining().blocks;
    [blocks[0], blocks[10], blocks[20], blocks[25], blocks[30]]
  }

  lemma JoiningLeaders()
    ensures CfgBuild.AreLeaders(Decoded(), LEADERS)
  {
    var p := Decoded();
    assert CfgBuild.BranchesTo(p.instrs[2], 30) && CfgBuild.BranchesTo(p.instrs[4], 10);
    assert p.instrs[1].0 == 10 && p.instrs[3].0 == 20 && p.instrs[4].0 == 25 && p.instrs[5].0 == 30;
    assert p.instrs[0].1.IsTerminator() && p.instrs[2].1.IsTerminator() && p.instrs[3].1.IsTerminator();
    forall pc ensures pc in LEADERS <==> CfgBuild.IsLeader(p, pc) {
    }
  }

  lemma BlockInstrs(k: nat)
    requires k < 5
    ensures |InOrder()| == 5
    ensures var b, instrs := InOrder()[k], Decoded().instrs;
      && |instrs| == 6 && b.start == instrs[CUTS[k]].0 && b.start in Joining().blocks && Joining().blocks[b.start] == b
      && if k == 1 then b.instrs == [instrs[1], instrs[2]] && b.start < instrs[2].0 < b.end
         else b.instrs == [instrs[CUTS[k]]] && b.start < b.end && CUTS[k + 1] == CUTS[k] + 1
  {
  }

  lemma BlockPiece(k: nat)
    requires k < 5
    ensures CfgBuild.Piece(Decoded(), InOrder()[k], CUTS[k], CUTS[k + 1])
  {
    BlockInstrs(k);
    if k == 1 {
      CfgBuild.PieceOfTwo(Decoded(), InOrder()[1], 1);
    } else {
      CfgBuild.PieceOfOne(Decoded(), InOrder()[k], CUTS[k]);
    }
  }

  lemma BlockStarts(b: nat)
    ensures CfgBuild.Starts(InOrder(), b) <==> b in LEADERS
  {
    var bs := InOrder();
    assert bs[0].start == 0 && bs[1].start == 10 && bs[2].start == 20 && bs[3].start == 25 && bs[4].start == 30;
  }

  lemma BlockLeads(k: nat, b: nat)
    requires k < 5
    ensures b in InOrder()[k].succs <==> CfgBuild.Leads(InOrder(), k, b)
  {
    BlockStarts(b);
  }

  lemma BlockFits(p: CfgBuild.Program, g: Cfg, bs: seq<Block>, k: nat)
    requires p == Decoded() && g == Joining() && bs == InOrder() && k < 5
    ensures CfgBuild.Fits(p, g, bs, CUTS, k)
  {
    BlockInstrs(k);
    BlockPiece(k);
    forall b: nat ensures b in bs[k].succs <==> CfgBuild.Leads(bs, k, b) { BlockLeads(k, b); }
  }

  lemma AllFit(p: CfgBuild.Program, g: Cfg, bs: seq<Block>)
    requires p == Decoded() && g == Joining() && bs == InOrder()
    ensures |bs| == 5 && forall k: nat {:trigger CfgBuild.Fits(p, g, bs, CUTS, k)} :: k < 5 ==>
      CfgBuild.Fits(p, g, bs, CUTS, k)
  {
    forall k: nat | k < 5 ensures CfgBuild.Fits(p, g, bs, CUTS, k) { BlockFits(p, g, bs, k); }
  }

  lemma JoiningTiled(p: CfgBuild.Program, g: Cfg, bs: seq<Block>)
    requires p == Decoded() && g == Joining() && bs == InOrder()
    ensures CfgBuild.Tiled(p, bs, CUTS) && g.entry == 0 && g.blocks.Keys == LEADERS
    ensures forall b :: b in LEADERS ==> CfgBuild.Starts(bs, b)
  {
    forall b: nat | b in LEADERS ensures CfgBuild.Starts(bs, b) { BlockStarts(b); }
  }

  /** The builder makes this graph of its instructions. */
  lemma JoiningBuilt(p: CfgBuild.Program, g: Cfg, bs: seq<Block>)
    requires p == Decoded() && g == Joining() && bs == InOrder()
    ensures CfgBuild.Decoded(p) && CfgBuild.Built(p, g, bs, CUTS) && CfgBuild.CutOnlyAtLeaders(p, bs, CUTS)
  {
    JoiningWellFormed();
    JoiningLeaders();
    JoiningTiled(p, g, bs);
    AllFit(p, g, bs);
    CfgBuild.IsBuilt(p, g, bs, CUTS, LEADERS);
  }

  /** All but the program's entry are one component. */
  lemma JoiningIsComponent()
    ensures Components.IsComponent(Joining(), JOINED)
  {
    var g, u := Joining(), Components.Undirected(Joining());
    assert Edge(u, 20, 30) && Edge(u, 20, 25) && Edge(u, 25, 10);
    ReachSelf(u, 20);
    ReachStep(u, 20, 20, 30);
    ReachStep(u, 20, 20, 25);
    ReachStep(u, 20, 25, 10);
    forall a, b | a in JOINED && Edge(u, a, b) ensures b in JOINED {
      JoiningNeighbours(a, b);
    }
    ClosedSetHoldsReach(u, JOINED, 20);
    assert Components.IsComponentOf(g, JOINED, 20);
  }

  lemma JoiningNeighbours(a: nat, b: nat)
    requires a in JOINED && Edge(Components.Undirected(Joining()), a, b)
    ensures b in JOINED
  {
    assert b in Joining().blocks[a].succs || b in Joining().blocks[a].preds;
  }

  lemma JoiningOpenings()
    ensures Openings(Joining(), JOINED) == {20}
  {
    var g := Joining();
    assert 25 in g.blocks[10].preds && 20 in g.blocks[25].preds && 20 in g.blocks[30].preds;
    assert g.blocks[20].preds == [];
  }

  lemma JoiningPrologues(b: nat)
    requires b in JOINED
    ensures OpensFunction(Joining(), JOINED, b) <==> b == 10
  {
    var g := Joining();
    assert 25 in g.blocks[10].preds && EndsWithJump(g, 25);
  }

  /** 20 is the one block nothing leads to, and 10 the one prologue jumped to. */
  lemma JoiningEntries(entries: seq<nat>)
    requires AreEntries(Joining(), JOINED, entries)
    ensures entries == [20, 10]
  {
    var rest := entries[1..];
    JoiningOpenings();
    forall b ensures b in rest <==> b == 10 {
      if b in JOINED { JoiningPrologues(b); }
    }
    OnlyOne(rest, 10);
    assert entries == [entries[0]] + rest;
  }

  lemma OnlyOne(s: seq<nat>, x: nat)
    requires Increasing(s) && forall b :: b in s <==> b == x
    ensures s == [x]
  {
    assert x in s;
    EndsDiffer(s);
    assert s[0] in s && s[|s| - 1] in s;
  }

  lemma EndsDiffer(s: seq<nat>)
    requires Increasing(s) && s != []
    ensures |s| == 1 || s[0] < s[|s| - 1]
  {
  }

  /** 30 is one step from both entries, and goes to 20, which has the larger address. */
  lemma LargerEntryWins(entries: seq<nat>, dist: map<nat, nat>, owner: map<nat, nat>)
    requires AreEntries(Joining(), JOINED, entries) && Nearest(Joining(), JOINED, entries, dist, owner)
    ensures entries == [20, 10] && 30 in owner && owner[30] == 20
    ensures !OwnerIsSmallest(Joining(), JOINED, entries, dist, owner, 30)
  {
    JoiningEntries(entries);
    NextToBoth(dist, owner);
    NotAnEntry(dist, owner);
    JoiningPaths();
    FirstEntryOwns(Joining(), JOINED, entries, dist, owner, 30, [20, 30]);
    assert Tied(Joining(), JOINED, entries, dist, 1, 30);
  }

  lemma FirstEntryOwns(g: Cfg, component: set<nat>, entries: seq<nat>, dist: map<nat, nat>, owner: map<nat, nat>,
      b: nat, p: seq<nat>)
    requires entries != [] && FirstWins(g, component, entries, dist, owner) && b in dist && b in owner
    requires Inside(g, component, p, entries[0], b) && |p| == dist[b] + 1
    ensures owner[b] == entries[0]
  {
    assert ListedBy(entries, owner[b], 0);
  }

  lemma JoiningPaths()
    ensures Inside(Joining(), JOINED, [20, 30], 20, 30) && Inside(Joining(), JOINED, [10, 30], 10, 30)
  {
    JoiningEdges(20, 30);
    JoiningEdges(10, 30);
  }

  lemma NextToBoth(dist: map<nat, nat>, owner: map<nat, nat>)
    requires Shortest(Joining(), JOINED, [20, 10], dist)
    ensures 30 in dist && dist[30] <= 1
  {
    var entries: seq<nat> := [20, 10];
    JoiningPaths();
    assert Inside(Joining(), JOINED, [20, 30], entries[0], 30);
    assert Within(dist, 30, 2);
  }

  lemma NotAnEntry(dist: map<nat, nat>, owner: map<nat, nat>)
    requires Nearest(Joining(), JOINED, [20, 10], dist, owner) && 30 in dist
    ensures dist[30] > 0
  {
    assert OwnedAt(Joining(), owner, 30, dist[30]);
    var p :| Owned(Joining(), owner, p, owner[30], 30) && |p| == dist[30] + 1;
  }
}
