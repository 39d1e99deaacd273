/** Strongly connected regions entered at several blocks, set aside as irreducible. */
module Irreducible {
  import opened Graph
  import opened StronglyConnected
  import opened Loops

  /** More than one of the region's blocks has a predecessor outside it. */
  ghost predicate MultiEntry(g: Cfg, c: set<nat>) {
    exists x, y :: EnteredAt(g, c, x) && EnteredAt(g, c, y) && x != y
  }

  ghost predicate SetAside(g: Cfg, sccs: seq<set<nat>>, x: nat) {
    exists c :: c in sccs && x in c && |c| > 1 && MultiEntry(g, c)
  }

  method CountsEntries(g: Cfg, c: set<nat>) returns (several: bool)
    requires WellFormed(g) && c <= g.blocks.Keys
    ensures several <==> MultiEntry(g, c)
  {
    var entryNodes, rest := {}, c;
    while rest != {}
      invariant rest <= c && entryNodes <= c
      invariant forall n :: n in entryNodes <==> n !in rest && EnteredAt(g, c, n)
      decreases rest
    {
      var n :| n in rest;
      if exists p :: p in g.blocks[n].preds && p !in c {
        entryNodes := entryNodes + {n};
      }
      rest := rest - {n};
    }
    several := |entryNodes| > 1;
    SeveralElements(entryNodes);
  }

  lemma SeveralElements(s: set<nat>)
    ensures |s| > 1 <==> exists x, y :: x in s && y in s && x != y
  {
    if s != {} {
      var x :| x in s;
      var rest := s - {x};
      assert s == rest + {x};
      if |s| > 1 {
        var y :| y in rest;
      } else {
        assert rest == {};
      }
    }
  }

  /** The blocks of every region of two or more blocks with several entries. */
  method CollectIrreducible(g: Cfg, sccs: seq<set<nat>>) returns (blocks: set<nat>)
    requires WellFormed(g) && forall c :: c in sccs ==> c <= g.blocks.Keys
    ensures forall x :: x in blocks <==> SetAside(g, sccs, x)
  {
    blocks := {};
    for i := 0 to |sccs|
      invariant forall x :: x in blocks <==> SetAside(g, sccs[..i], x)
    {
      assert sccs[..i + 1] == sccs[..i] + [sccs[i]];
      SetAsideSnoc(g, sccs[..i], sccs[i]);
      if |sccs[i]| > 1 {
        var several := CountsEntries(g, sccs[i]);
        if several {
          blocks := blocks + sccs[i];
        }
      }
    }
    assert sccs[..|sccs|] == sccs;
  }

  lemma SetAsideSnoc(g: Cfg, sccs: seq<set<nat>>, c: set<nat>)
    ensures forall x :: SetAside(g, sccs + [c], x) <==> SetAside(g, sccs, x) || (x in c && |c| > 1 && MultiEntry(g, c))
  {
    forall x
      ensures SetAside(g, sccs + [c], x) <==> SetAside(g, sccs, x) || (x in c && |c| > 1 && MultiEntry(g, c))
    {
      assert c in sccs + [c];
      assert forall d :: d in sccs ==> d in sccs + [c];
    }
  }

  // ----- What several entries mean

  /** One block of the region is on every path into it. */
  ghost predicate HasHeader(g: Cfg, c: set<nat>) {
    exists h :: h in c && forall x :: x in c ==> Dom(g, h, x)
  }

  /** A path that ends in the region enters it somewhere, or starts there. */
  lemma {:induction false} WhereEntered(g: Cfg, c: set<nat>, w: seq<nat>) returns (k: nat)
    requires IsPath(g, w) && w[|w| - 1] in c
    ensures k < |w| && w[k] in c && (forall i :: 0 <= i < k ==> w[i] !in c) && (k > 0 ==> EnteredAt(g, c, w[k]))
  {
    if w[0] in c {
      k := 0;
    } else {
      PathSuffix(g, w, 1);
      k := WhereEntered(g, c, w[1..]);
      k := k + 1;
      assert Edge(g, w[k - 1], w[k]);
    }
  }

  /** From the entry to a block outside the region that leads into it, no path meets the region. */
  lemma OutsidePath(g: Cfg, c: set<nat>, p: nat, x: nat, w: seq<nat>, i: nat)
    requires WellFormed(g) && IsScc(g, c) && x in c && p !in c && Edge(g, p, x)
    requires PathFromTo(g, w, g.entry, p) && i < |w|
    ensures w[i] !in c
  {
    if w[i] in c {
      PathSuffix(g, w, i);
      var a :| IsClassOf(g, c, a);
      ReachTrans(g, a, w[i], p);
      ReachEdge(g, p, x);
      ReachTrans(g, p, x, a);
    }
  }

  /** What dominates a block entered from outside, within its region, is that block. */
  lemma EnteredDominator(g: Cfg, c: set<nat>, h: nat, x: nat)
    requires WellFormed(g) && IsScc(g, c) && forall b :: b in g.blocks ==> Reachable(g, b)
    requires EnteredAt(g, c, x) && h in c && Dom(g, h, x)
    ensures h == x
  {
    var p :| Edge(g, p, x) && p !in c;
    assert Reachable(g, p);
    var w :| PathFromTo(g, w, g.entry, p);
    PathSnoc(g, w, g.entry, p, x);
    var k :| 0 <= k < |w + [x]| && (w + [x])[k] == h;
    if k < |w| { OutsidePath(g, c, p, x, w, k); }
  }

  /** With every block reachable, a region of mutually reachable blocks has several entries exactly
      when no block of it dominates the rest: there is no header to build a loop on. */
  lemma MultiEntryMeansNoHeader(g: Cfg, c: set<nat>)
    requires WellFormed(g) && IsScc(g, c) && forall b :: b in g.blocks ==> Reachable(g, b)
    ensures MultiEntry(g, c) <==> !HasHeader(g, c)
  {
    if MultiEntry(g, c) && HasHeader(g, c) {
      var h :| h in c && forall x :: x in c ==> Dom(g, h, x);
      var x, y :| EnteredAt(g, c, x) && EnteredAt(g, c, y) && x != y;
      EnteredDominator(g, c, h, x);
      EnteredDominator(g, c, h, y);
    }
    if !MultiEntry(g, c) {
      var h := OnlyEntry(g, c);
    }
  }

  lemma OnlyEntry(g: Cfg, c: set<nat>) returns (h: nat)
    requires WellFormed(g) && IsScc(g, c) && forall b :: b in g.blocks ==> Reachable(g, b)
    requires !MultiEntry(g, c)
    ensures h in c && forall x :: x in c ==> Dom(g, h, x)
  {
    var a :| IsClassOf(g, c, a);
    var w :| PathFromTo(g, w, g.entry, a);
    var k := WhereEntered(g, c, w);
    h := w[k];
    forall x, v | x in c && PathFromTo(g, v, g.entry, x) ensures h in v {
      var l := WhereEntered(g, c, v);
      assert w[0] == v[0];
      assert v[l] in v;
      if k > 0 && l > 0 { assert v[l] == h; }
    }
  }
}
