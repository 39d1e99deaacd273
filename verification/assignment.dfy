/** Sharing a component's blocks among function entries: each block goes to the nearest entry. */
module Assignment {
  import opened Graph

  /** A path that stays inside the component. */
  ghost predicate Inside(g: Cfg, component: set<nat>, p: seq<nat>, a: nat, b: nat) {
    PathFromTo(g, p, a, b) && forall x :: x in p ==> x in component
  }

  /** A path all of whose blocks belong to `a`. */
  ghost predicate Owned(g: Cfg, owner: map<nat, nat>, p: seq<nat>, a: nat, b: nat) {
    PathFromTo(g, p, a, b) && forall x :: x in p ==> x in owner && owner[x] == a
  }

  /** No entry has a shorter path to anything than the recorded distance. */
  ghost predicate Shortest(g: Cfg, component: set<nat>, entries: seq<nat>, dist: map<nat, nat>) {
    forall i: nat, p, b :: i < |entries| && Inside(g, component, p, entries[i], b) ==> Within(dist, b, |p|)
  }

  predicate Within(dist: map<nat, nat>, b: nat, n: nat) { b in dist && dist[b] < n }

  /** The owner is an entry, and a path of the recorded length leads from it through blocks it owns. */
  ghost predicate Attained(g: Cfg, entries: seq<nat>, dist: map<nat, nat>, owner: map<nat, nat>) {
    forall b :: b in dist ==> b in owner && owner[b] in entries && OwnedAt(g, owner, b, dist[b])
  }

  ghost predicate OwnedAt(g: Cfg, owner: map<nat, nat>, b: nat, d: nat)
    requires b in owner
  {
    exists p :: Owned(g, owner, p, owner[b], b) && |p| == d + 1
  }

  ghost predicate ListedBy(entries: seq<nat>, e: nat, i: nat) {
    exists j :: 0 <= j <= i && j < |entries| && entries[j] == e
  }

  /** Among entries at the same distance the one listed first owns the block. */
  ghost predicate FirstWins(g: Cfg, component: set<nat>, entries: seq<nat>, dist: map<nat, nat>, owner: map<nat, nat>) {
    forall i: nat, p, b ::
      i < |entries| && b in dist && b in owner && Inside(g, component, p, entries[i], b) && |p| == dist[b] + 1 ==>
      ListedBy(entries, owner[b], i)
  }

  ghost predicate Nearest(g: Cfg, component: set<nat>, entries: seq<nat>, dist: map<nat, nat>, owner: map<nat, nat>) {
    && dist.Keys == owner.Keys && dist.Keys <= component
    && Shortest(g, component, entries, dist)
    && Attained(g, entries, dist, owner)
    && FirstWins(g, component, entries, dist, owner)
  }

  // ----- Invariants of the search from one entry

  /** b's distance comes from p, or p has since come closer and b is due for an update. */
  ghost predicate Parent(g: Cfg, dist: map<nat, nat>, owner: map<nat, nat>, p: nat, b: nat) {
    && Edge(g, p, b) && p in dist && p in owner && b in dist && b in owner
    && (dist[p] + 1 < dist[b] || (dist[p] + 1 == dist[b] && owner[p] == owner[b]))
  }

  ghost predicate Lineage(g: Cfg, dist: map<nat, nat>, owner: map<nat, nat>) {
    forall b :: Tracked(dist, owner, b) ==> if dist[b] == 0 then owner[b] == b else HasParent(g, dist, owner, b)
  }

  predicate Tracked(dist: map<nat, nat>, owner: map<nat, nat>, b: nat) { b in dist && b in owner }

  ghost predicate HasParent(g: Cfg, dist: map<nat, nat>, owner: map<nat, nat>, b: nat) {
    exists p :: Parent(g, dist, owner, p, b)
  }

  /** The edge from b to s is relaxed, or on the queue to be. */
  ghost predicate Relaxed(dist: map<nat, nat>, queue: seq<(nat, nat)>, b: nat, s: nat)
    requires b in dist
  {
    (s in dist && dist[s] <= dist[b] + 1) || (s, dist[b] + 1) in queue
  }

  ghost predicate AllRelaxed(g: Cfg, component: set<nat>, dist: map<nat, nat>, queue: seq<(nat, nat)>) {
    forall b, s :: b in dist && s in component && Edge(g, b, s) ==> Relaxed(dist, queue, b, s)
  }

  /** Every relaxed edge but those of pc from its n-th successor on. */
  ghost predicate RelaxedBut(g: Cfg, component: set<nat>, dist: map<nat, nat>, queue: seq<(nat, nat)>, pc: nat,
      n: nat) {
    pc in g.blocks && pc in dist && n <= |g.blocks[pc].succs| &&
    forall b, s :: b in dist && s in component && Edge(g, b, s) && (b == pc ==> s in g.blocks[pc].succs[..n]) ==>
      Relaxed(dist, queue, b, s)
  }

  ghost predicate Source(g: Cfg, dist: map<nat, nat>, owner: map<nat, nat>, e: nat, p: nat, s: nat, d: nat) {
    Edge(g, p, s) && p in dist && p in owner && owner[p] == e && dist[p] < d
  }

  ghost predicate Improves(before: map<nat, nat>, s: nat, d: nat) { s in before ==> d < before[s] }

  ghost predicate Queued(g: Cfg, component: set<nat>, before: map<nat, nat>, dist: map<nat, nat>,
      owner: map<nat, nat>, e: nat, item: (nat, nat)) {
    item == (e, 0) ||
    (item.0 in component && Improves(before, item.0, item.1) && item.1 > 0 &&
     HasSource(g, dist, owner, e, item.0, item.1))
  }

  ghost predicate HasSource(g: Cfg, dist: map<nat, nat>, owner: map<nat, nat>, e: nat, s: nat, d: nat) {
    exists p :: Source(g, dist, owner, e, p, s, d)
  }

  ghost predicate AllQueued(g: Cfg, component: set<nat>, before: map<nat, nat>, dist: map<nat, nat>,
      owner: map<nat, nat>, e: nat, queue: seq<(nat, nat)>) {
    forall k :: 0 <= k < |queue| ==> Queued(g, component, before, dist, owner, e, queue[k])
  }

  /** What the search from e has changed, it has brought closer and made e's. */
  ghost predicate Changed(before: map<nat, nat>, ownerBefore: map<nat, nat>, dist: map<nat, nat>,
      owner: map<nat, nat>, e: nat) {
    && (forall b :: b in before ==> b in dist && dist[b] <= before[b])
    && forall b :: b in dist && b in owner ==>
      (b in before && b in ownerBefore && dist[b] == before[b] && owner[b] == ownerBefore[b]) ||
      (owner[b] == e && Improves(before, b, dist[b]))
  }

  ghost predicate Search(g: Cfg, component: set<nat>, before: map<nat, nat>, ownerBefore: map<nat, nat>,
      dist: map<nat, nat>, owner: map<nat, nat>, e: nat, queue: seq<(nat, nat)>) {
    && dist.Keys == owner.Keys && dist.Keys <= component && before.Keys == ownerBefore.Keys
    && SelfOwned(before, ownerBefore)
    && Lineage(g, dist, owner)
    && AllQueued(g, component, before, dist, owner, e, queue)
    && Changed(before, ownerBefore, dist, owner, e)
    && Begun(component, dist, e, queue)
  }

  ghost predicate SelfOwned(dist: map<nat, nat>, owner: map<nat, nat>) {
    forall b :: b in dist && dist[b] == 0 && b in owner ==> owner[b] == b
  }

  /** The search has started from e, or is about to. */
  ghost predicate Begun(component: set<nat>, dist: map<nat, nat>, e: nat, queue: seq<(nat, nat)>) {
    e in component ==> (e in dist && dist[e] == 0) || (e, 0) in queue
  }

  ghost function Total(order: seq<nat>, dist: map<nat, nat>): nat {
    if order == [] then 0 else Total(order[1..], dist) + if order[0] in dist then dist[order[0]] else 0
  }

  lemma {:induction false} TotalDrops(order: seq<nat>, dist: map<nat, nat>, b: nat, d: nat)
    requires b in dist && d < dist[b]
    ensures Total(order, dist[b := d]) <= Total(order, dist)
    ensures b in order ==> Total(order, dist[b := d]) < Total(order, dist)
  {
    if order != [] { TotalDrops(order[1..], dist, b, d); }
  }

  ghost function Listing(s: set<nat>): (r: seq<nat>)
    ensures forall x :: x in r <==> x in s
  {
    if s == {} then [] else
      var x :| x in s;
      [x] + Listing(s - {x})
  }

  // ----- One assignment

  lemma AcceptLineage(g: Cfg, dist: map<nat, nat>, owner: map<nat, nat>, e: nat, pc: nat, d: nat)
    requires dist.Keys == owner.Keys && Lineage(g, dist, owner)
    requires if d == 0 then pc == e else HasSource(g, dist, owner, e, pc, d)
    requires pc in dist ==> d < dist[pc]
    ensures Lineage(g, dist[pc := d], owner[pc := e])
  {
    var dist', owner' := dist[pc := d], owner[pc := e];
    forall b | Tracked(dist', owner', b)
      ensures if dist'[b] == 0 then owner'[b] == b else HasParent(g, dist', owner', b)
    {
      assert b != pc ==> Tracked(dist, owner, b);
      if dist'[b] == 0 {
      } else if b == pc {
        var p :| Source(g, dist, owner, e, p, pc, d);
        assert Parent(g, dist', owner', p, b);
      } else {
        var p :| Parent(g, dist, owner, p, b);
        assert Parent(g, dist', owner', p, b);
      }
    }
  }

  lemma AcceptQueued(g: Cfg, component: set<nat>, before: map<nat, nat>, dist: map<nat, nat>, owner: map<nat, nat>,
      e: nat, queue: seq<(nat, nat)>, pc: nat, d: nat)
    requires queue != [] && AllQueued(g, component, before, dist, owner, e, queue)
    requires pc in dist ==> d < dist[pc]
    ensures AllQueued(g, component, before, dist[pc := d], owner[pc := e], e, queue[1..])
  {
    var dist', owner' := dist[pc := d], owner[pc := e];
    forall k | 0 <= k < |queue[1..]| ensures Queued(g, component, before, dist', owner', e, queue[1..][k]) {
      var item := queue[k + 1];
      assert Queued(g, component, before, dist, owner, e, item);
      if item != (e, 0) {
        var p :| Source(g, dist, owner, e, p, item.0, item.1);
        assert Source(g, dist', owner', e, p, item.0, item.1);
      }
    }
  }

  lemma AcceptChanged(before: map<nat, nat>, ownerBefore: map<nat, nat>, dist: map<nat, nat>, owner: map<nat, nat>,
      e: nat, pc: nat, d: nat)
    requires dist.Keys == owner.Keys && Changed(before, ownerBefore, dist, owner, e)
    requires pc in dist ==> d < dist[pc]
    requires Improves(before, pc, d) || (pc == e && d == 0)
    ensures Changed(before, ownerBefore, dist[pc := d], owner[pc := e], e)
  {
    if pc in before { assert pc in dist; }
  }

  lemma AcceptBegun(component: set<nat>, dist: map<nat, nat>, e: nat, queue: seq<(nat, nat)>, pc: nat, d: nat)
    requires queue != [] && queue[0] == (pc, d) && Begun(component, dist, e, queue)
    requires pc in dist ==> d < dist[pc]
    ensures Begun(component, dist[pc := d], e, queue[1..])
  {
    assert queue == [queue[0]] + queue[1..];
  }

  lemma AcceptSource(g: Cfg, component: set<nat>, before: map<nat, nat>, dist: map<nat, nat>, owner: map<nat, nat>,
      e: nat, queue: seq<(nat, nat)>)
    requires queue != [] && AllQueued(g, component, before, dist, owner, e, queue)
    ensures if queue[0].1 == 0 then queue[0].0 == e else HasSource(g, dist, owner, e, queue[0].0, queue[0].1)
    ensures Improves(before, queue[0].0, queue[0].1) || queue[0] == (e, 0)
  {
    assert Queued(g, component, before, dist, owner, e, queue[0]);
  }

  /** Accepting (pc, d) keeps everything, but leaves pc's own edges to be relaxed. */
  lemma AcceptKeeps(g: Cfg, component: set<nat>, before: map<nat, nat>, ownerBefore: map<nat, nat>,
      dist: map<nat, nat>, owner: map<nat, nat>, e: nat, queue: seq<(nat, nat)>, pc: nat, d: nat)
    requires queue != [] && queue[0] == (pc, d) && pc in component
    requires Search(g, component, before, ownerBefore, dist, owner, e, queue)
    requires pc in dist ==> d < dist[pc]
    ensures Search(g, component, before, ownerBefore, dist[pc := d], owner[pc := e], e, queue[1..])
  {
    AcceptSource(g, component, before, dist, owner, e, queue);
    AcceptLineage(g, dist, owner, e, pc, d);
    AcceptQueued(g, component, before, dist, owner, e, queue, pc, d);
    AcceptChanged(before, ownerBefore, dist, owner, e, pc, d);
    AcceptBegun(component, dist, e, queue, pc, d);
    AcceptKeys(component, dist, owner, e, pc, d);
    Assemble(g, component, before, ownerBefore, dist[pc := d], owner[pc := e], e, queue[1..]);
  }

  lemma AcceptKeys(component: set<nat>, dist: map<nat, nat>, owner: map<nat, nat>, e: nat, pc: nat, d: nat)
    requires dist.Keys == owner.Keys && dist.Keys <= component && pc in component
    ensures dist[pc := d].Keys == owner[pc := e].Keys && dist[pc := d].Keys <= component
  {
  }

  lemma Assemble(g: Cfg, component: set<nat>, before: map<nat, nat>, ownerBefore: map<nat, nat>, dist: map<nat, nat>,
      owner: map<nat, nat>, e: nat, queue: seq<(nat, nat)>)
    requires dist.Keys == owner.Keys && dist.Keys <= component && before.Keys == ownerBefore.Keys
    requires SelfOwned(before, ownerBefore) && Lineage(g, dist, owner)
    requires AllQueued(g, component, before, dist, owner, e, queue)
    requires Changed(before, ownerBefore, dist, owner, e) && Begun(component, dist, e, queue)
    ensures Search(g, component, before, ownerBefore, dist, owner, e, queue)
  {
  }

  lemma AcceptRelaxes(g: Cfg, component: set<nat>, dist: map<nat, nat>, queue: seq<(nat, nat)>, pc: nat, d: nat)
    requires queue != [] && queue[0] == (pc, d)
    requires pc in dist ==> d < dist[pc]
    requires AllRelaxed(g, component, dist, queue)
    ensures pc in g.blocks ==> RelaxedBut(g, component, dist[pc := d], queue[1..], pc, 0)
    ensures pc !in g.blocks ==> AllRelaxed(g, component, dist[pc := d], queue[1..])
  {
    var dist' := dist[pc := d];
    forall b, s | b in dist' && s in component && Edge(g, b, s) && b != pc ensures Relaxed(dist', queue[1..], b, s) {
      assert Relaxed(dist, queue, b, s);
      if (s, dist[b] + 1) in queue {
        var k :| 0 <= k < |queue| && queue[k] == (s, dist[b] + 1);
        if k > 0 { assert queue[1..][k - 1] == queue[k]; }
      }
    }
  }

  /** Dropping an item that would not bring its block closer. */
  lemma SkipKeeps(g: Cfg, component: set<nat>, before: map<nat, nat>, ownerBefore: map<nat, nat>, dist: map<nat, nat>,
      owner: map<nat, nat>, e: nat, queue: seq<(nat, nat)>)
    requires queue != [] && Search(g, component, before, ownerBefore, dist, owner, e, queue)
    requires AllRelaxed(g, component, dist, queue)
    requires queue[0].0 in component ==> queue[0].0 in dist && dist[queue[0].0] <= queue[0].1
    ensures Search(g, component, before, ownerBefore, dist, owner, e, queue[1..])
    ensures AllRelaxed(g, component, dist, queue[1..])
  {
    forall b, s | b in dist && s in component && Edge(g, b, s) ensures Relaxed(dist, queue[1..], b, s) {
      assert Relaxed(dist, queue, b, s);
      if (s, dist[b] + 1) in queue {
        var k :| 0 <= k < |queue| && queue[k] == (s, dist[b] + 1);
        if k > 0 { assert queue[1..][k - 1] == queue[k]; }
      }
    }
    if (e, 0) in queue {
      var k :| 0 <= k < |queue| && queue[k] == (e, 0);
      if k > 0 { assert queue[1..][k - 1] == queue[k]; }
    }
  }

  /** At the same distance the block already has a different owner only if that owner keeps it. */
  lemma TieNeverWins(g: Cfg, component: set<nat>, before: map<nat, nat>, ownerBefore: map<nat, nat>,
      dist: map<nat, nat>, owner: map<nat, nat>, e: nat, queue: seq<(nat, nat)>)
    requires queue != [] && Search(g, component, before, ownerBefore, dist, owner, e, queue)
    requires queue[0].0 in dist && dist[queue[0].0] == queue[0].1
    ensures owner[queue[0].0] == e
  {
    assert Queued(g, component, before, dist, owner, e, queue[0]);
  }

  /** One more block reached, or the distances less in total. */
  lemma AcceptCloser(order: seq<nat>, component: set<nat>, dist: map<nat, nat>, pc: nat, d: nat)
    requires pc in component && pc in order && dist.Keys <= component && (pc in dist ==> d < dist[pc])
    ensures component - dist[pc := d].Keys <= component - dist.Keys
    ensures component - dist[pc := d].Keys == component - dist.Keys ==> Total(order, dist[pc := d]) < Total(order, dist)
  {
    if pc in dist {
      TotalDrops(order, dist, pc, d);
    } else {
      assert pc in component - dist.Keys && pc !in component - dist[pc := d].Keys;
    }
  }

  lemma Accept(g: Cfg, order: seq<nat>, component: set<nat>, before: map<nat, nat>, ownerBefore: map<nat, nat>,
      dist: map<nat, nat>, owner: map<nat, nat>, e: nat, queue: seq<(nat, nat)>, pc: nat, d: nat)
    requires queue != [] && queue[0] == (pc, d) && pc in component && pc in order
    requires Search(g, component, before, ownerBefore, dist, owner, e, queue) && AllRelaxed(g, component, dist, queue)
    requires pc in dist ==> d < dist[pc]
    ensures Search(g, component, before, ownerBefore, dist[pc := d], owner[pc := e], e, queue[1..])
    ensures pc in g.blocks ==> RelaxedBut(g, component, dist[pc := d], queue[1..], pc, 0)
    ensures pc !in g.blocks ==> AllRelaxed(g, component, dist[pc := d], queue[1..])
    ensures component - dist[pc := d].Keys <= component - dist.Keys
    ensures component - dist[pc := d].Keys == component - dist.Keys ==> Total(order, dist[pc := d]) < Total(order, dist)
  {
    AcceptKeeps(g, component, before, ownerBefore, dist, owner, e, queue, pc, d);
    AcceptRelaxes(g, component, dist, queue, pc, d);
    AcceptCloser(order, component, dist, pc, d);
  }

  /** The search from one entry, pruned where it does not come closer. */
  method SearchFrom(g: Cfg, component: set<nat>, e: nat, before: map<nat, nat>, ownerBefore: map<nat, nat>)
    returns (dist: map<nat, nat>, owner: map<nat, nat>)
    requires before.Keys == ownerBefore.Keys && before.Keys <= component
    requires Lineage(g, before, ownerBefore) && AllRelaxed(g, component, before, [])
    ensures Search(g, component, before, ownerBefore, dist, owner, e, [])
    ensures AllRelaxed(g, component, dist, [])
  {
    var queue := [(e, 0)];
    dist, owner := before, ownerBefore;
    ghost var order := Listing(component);
    assert queue[0] == (e, 0);
    while queue != []
      invariant Search(g, component, before, ownerBefore, dist, owner, e, queue)
      invariant AllRelaxed(g, component, dist, queue)
      decreases component - dist.Keys, Total(order, dist), |queue|
    {
      var (pc, d) := queue[0];
      if pc !in component {
        SkipKeeps(g, component, before, ownerBefore, dist, owner, e, queue);
        queue := queue[1..];
        continue;
      }
      if pc in dist && dist[pc] == d { TieNeverWins(g, component, before, ownerBefore, dist, owner, e, queue); }
      var closer := pc !in dist || d < dist[pc] || (d == dist[pc] && e < owner[pc]);
      if !closer {
        SkipKeeps(g, component, before, ownerBefore, dist, owner, e, queue);
        queue := queue[1..];
        continue;
      }
      dist, owner, queue := Visit(g, order, component, before, ownerBefore, dist, owner, e, queue[1..], pc, d, queue);
    }
  }

  /** Gives pc to e at distance d, and queues what that brings closer. */
  method Visit(g: Cfg, ghost order: seq<nat>, component: set<nat>, ghost before: map<nat, nat>,
      ghost ownerBefore: map<nat, nat>, dist: map<nat, nat>, owner: map<nat, nat>, e: nat, rest: seq<(nat, nat)>,
      pc: nat, d: nat, ghost queue: seq<(nat, nat)>)
    returns (dist': map<nat, nat>, owner': map<nat, nat>, queue': seq<(nat, nat)>)
    requires queue != [] && queue[0] == (pc, d) && rest == queue[1..] && pc in component && pc in order
    requires Search(g, component, before, ownerBefore, dist, owner, e, queue) && AllRelaxed(g, component, dist, queue)
    requires pc in dist ==> d < dist[pc]
    ensures Search(g, component, before, ownerBefore, dist', owner', e, queue')
    ensures AllRelaxed(g, component, dist', queue')
    ensures dist' == dist[pc := d] && owner' == owner[pc := e]
    ensures component - dist'.Keys <= component - dist.Keys
    ensures component - dist'.Keys == component - dist.Keys ==> Total(order, dist') < Total(order, dist)
  {
    Accept(g, order, component, before, ownerBefore, dist, owner, e, queue, pc, d);
    dist', owner', queue' := dist[pc := d], owner[pc := e], rest;
    if pc in g.blocks {
      queue' := Push(g, component, before, ownerBefore, dist', owner', e, queue', pc);
    }
  }

  /** Queues the successors that pc brings closer. */
  method Push(g: Cfg, component: set<nat>, ghost before: map<nat, nat>, ghost ownerBefore: map<nat, nat>,
      dist: map<nat, nat>, ghost owner: map<nat, nat>, ghost e: nat, queue: seq<(nat, nat)>, pc: nat)
    returns (queue': seq<(nat, nat)>)
    requires Search(g, component, before, ownerBefore, dist, owner, e, queue)
    requires RelaxedBut(g, component, dist, queue, pc, 0) && owner[pc] == e
    ensures Search(g, component, before, ownerBefore, dist, owner, e, queue')
    ensures AllRelaxed(g, component, dist, queue')
  {
    queue' := queue;
    var succs := g.blocks[pc].succs;
    for i := 0 to |succs|
      invariant Search(g, component, before, ownerBefore, dist, owner, e, queue')
      invariant RelaxedBut(g, component, dist, queue', pc, i)
    {
      var s := succs[i];
      if s in component && (s !in dist || dist[pc] + 1 < dist[s]) {
        PushQueues(g, component, before, ownerBefore, dist, owner, e, queue', pc, s);
        PushRelaxes(g, component, dist, queue', queue' + [(s, dist[pc] + 1)], pc, i);
        queue' := queue' + [(s, dist[pc] + 1)];
      } else {
        PushRelaxes(g, component, dist, queue', queue', pc, i);
      }
    }
    assert succs[..|succs|] == succs;
  }

  ghost predicate Closer(component: set<nat>, dist: map<nat, nat>, pc: nat, s: nat) {
    s in component && pc in dist && (s in dist ==> dist[pc] + 1 < dist[s])
  }

  lemma PushQueues(g: Cfg, component: set<nat>, before: map<nat, nat>, ownerBefore: map<nat, nat>,
      dist: map<nat, nat>, owner: map<nat, nat>, e: nat, queue: seq<(nat, nat)>, pc: nat, s: nat)
    requires Search(g, component, before, ownerBefore, dist, owner, e, queue)
    requires Closer(component, dist, pc, s) && Edge(g, pc, s) && owner[pc] == e
    ensures Search(g, component, before, ownerBefore, dist, owner, e, queue + [(s, dist[pc] + 1)])
  {
    var item := (s, dist[pc] + 1);
    var queue' := queue + [item];
    assert Source(g, dist, owner, e, pc, s, dist[pc] + 1);
    QueuesMore(g, component, before, dist, owner, e, queue, item);
    Assemble(g, component, before, ownerBefore, dist, owner, e, queue');
  }

  lemma QueuesMore(g: Cfg, component: set<nat>, before: map<nat, nat>, dist: map<nat, nat>, owner: map<nat, nat>,
      e: nat, queue: seq<(nat, nat)>, item: (nat, nat))
    requires AllQueued(g, component, before, dist, owner, e, queue)
    requires Queued(g, component, before, dist, owner, e, item)
    ensures AllQueued(g, component, before, dist, owner, e, queue + [item])
  {
    var queue' := queue + [item];
    forall k | 0 <= k < |queue'| ensures Queued(g, component, before, dist, owner, e, queue'[k]) {
      if k < |queue| { assert queue'[k] == queue[k]; }
    }
  }

  lemma PushRelaxes(g: Cfg, component: set<nat>, dist: map<nat, nat>, queue: seq<(nat, nat)>, queue': seq<(nat, nat)>,
      pc: nat, i: nat)
    requires RelaxedBut(g, component, dist, queue, pc, i) && i < |g.blocks[pc].succs|
    requires queue' == if Closer(component, dist, pc, g.blocks[pc].succs[i])
      then queue + [(g.blocks[pc].succs[i], dist[pc] + 1)] else queue
    ensures RelaxedBut(g, component, dist, queue', pc, i + 1)
  {
    var succs := g.blocks[pc].succs;
    assert succs[..i + 1] == succs[..i] + [succs[i]];
    forall b, s | b in dist && s in component && Edge(g, b, s) && (b == pc ==> s in succs[..i + 1])
      ensures Relaxed(dist, queue', b, s)
    {
      if b == pc && s !in succs[..i] {
        assert s == succs[i];
        if Closer(component, dist, pc, s) { assert queue'[|queue|] == (s, dist[pc] + 1); }
      } else {
        assert Relaxed(dist, queue, b, s);
      }
    }
  }

  // ----- What the recorded distances mean

  lemma {:induction false} PathBounds(g: Cfg, component: set<nat>, dist: map<nat, nat>, p: seq<nat>, a: nat, b: nat)
    requires AllRelaxed(g, component, dist, []) && a in dist && dist[a] == 0 && Inside(g, component, p, a, b)
    ensures b in dist && dist[b] < |p|
    decreases |p|
  {
    if |p| > 1 {
      var k := |p| - 2;
      PathPrefix(g, p, k);
      assert forall x :: x in p[..k + 1] ==> x in p;
      PathBounds(g, component, dist, p[..k + 1], a, p[k]);
      assert Edge(g, p[k], p[k + 1]) && p[k + 1] in p;
      assert Relaxed(dist, [], p[k], b);
    }
  }

  lemma {:induction false} OwnedPath(g: Cfg, component: set<nat>, dist: map<nat, nat>, owner: map<nat, nat>, b: nat)
    returns (p: seq<nat>)
    requires dist.Keys == owner.Keys && dist.Keys <= component
    requires Lineage(g, dist, owner) && AllRelaxed(g, component, dist, []) && b in dist
    ensures Owned(g, owner, p, owner[b], b) && |p| == dist[b] + 1
    decreases dist[b]
  {
    assert Tracked(dist, owner, b);
    if dist[b] == 0 {
      p := [b];
    } else {
      var q :| Parent(g, dist, owner, q, b);
      assert Relaxed(dist, [], q, b);
      p := OwnedPath(g, component, dist, owner, q);
      assert PathFromTo(g, [q, b], q, b);
      PathConcat(g, p, [q, b], owner[b], q, b);
      assert [q, b][1..] == [b];
      p := p + [b];
    }
  }

  ghost predicate Rounds(g: Cfg, component: set<nat>, entries: seq<nat>, dist: map<nat, nat>, owner: map<nat, nat>) {
    && dist.Keys == owner.Keys && dist.Keys <= component
    && Lineage(g, dist, owner) && AllRelaxed(g, component, dist, [])
    && (forall i :: 0 <= i < |entries| && entries[i] in component ==> entries[i] in dist && dist[entries[i]] == 0)
    && (forall b :: b in owner ==> owner[b] in entries)
    && FirstWins(g, component, entries, dist, owner)
  }

  lemma RoundsShortest(g: Cfg, component: set<nat>, entries: seq<nat>, dist: map<nat, nat>, owner: map<nat, nat>)
    requires Rounds(g, component, entries, dist, owner)
    ensures Shortest(g, component, entries, dist)
  {
    forall i: nat, p, b | i < |entries| && Inside(g, component, p, entries[i], b) ensures Within(dist, b, |p|) {
      assert p[0] in p;
      PathBounds(g, component, dist, p, entries[i], b);
    }
  }

  lemma FirstStillWins(g: Cfg, component: set<nat>, entries: seq<nat>, e: nat, before: map<nat, nat>,
      ownerBefore: map<nat, nat>, dist: map<nat, nat>, owner: map<nat, nat>)
    requires dist.Keys == owner.Keys && before.Keys == ownerBefore.Keys && Changed(before, ownerBefore, dist, owner, e)
    requires forall b :: b in ownerBefore ==> ownerBefore[b] in entries
    requires Shortest(g, component, entries, before) && FirstWins(g, component, entries, before, ownerBefore)
    ensures FirstWins(g, component, entries + [e], dist, owner)
  {
    var es := entries + [e];
    forall i: nat, p, b | i < |es| && b in dist && b in owner && Inside(g, component, p, es[i], b) && |p| == dist[b] + 1
      ensures ListedBy(es, owner[b], i)
    {
      if i == |entries| {
        if owner[b] == e {
          assert es[i] == e;
        } else {
          var j :| 0 <= j < |entries| && entries[j] == ownerBefore[b];
          assert es[j] == owner[b];
        }
      } else {
        assert es[i] == entries[i];
        assert Within(before, b, |p|);
        assert ListedBy(entries, ownerBefore[b], i);
        var j :| 0 <= j <= i && j < |entries| && entries[j] == ownerBefore[b];
        assert es[j] == entries[j];
      }
    }
  }

  lemma NextRound(g: Cfg, component: set<nat>, entries: seq<nat>, e: nat, before: map<nat, nat>,
      ownerBefore: map<nat, nat>, dist: map<nat, nat>, owner: map<nat, nat>)
    requires Rounds(g, component, entries, before, ownerBefore)
    requires Search(g, component, before, ownerBefore, dist, owner, e, []) && AllRelaxed(g, component, dist, [])
    ensures Rounds(g, component, entries + [e], dist, owner)
  {
    RoundsShortest(g, component, entries, before, ownerBefore);
    FirstStillWins(g, component, entries, e, before, ownerBefore, dist, owner);
  }

  /** Every block is given to the nearest of the entries that reach it. */
  method AssignBlocksToEntries(g: Cfg, component: set<nat>, entries: seq<nat>)
    returns (owner: map<nat, nat>, dist: map<nat, nat>)
    ensures Nearest(g, component, entries, dist, owner)
  {
    owner, dist := map[], map[];
    for k := 0 to |entries|
      invariant Rounds(g, component, entries[..k], dist, owner)
    {
      ghost var before, ownerBefore := dist, owner;
      dist, owner := SearchFrom(g, component, entries[k], dist, owner);
      NextRound(g, component, entries[..k], entries[k], before, ownerBefore, dist, owner);
      assert entries[..k + 1] == entries[..k] + [entries[k]];
    }
    assert entries[..|entries|] == entries;
    RoundsNearest(g, component, entries, dist, owner);
  }

  lemma RoundsNearest(g: Cfg, component: set<nat>, entries: seq<nat>, dist: map<nat, nat>, owner: map<nat, nat>)
    requires Rounds(g, component, entries, dist, owner)
    ensures Nearest(g, component, entries, dist, owner)
  {
    RoundsShortest(g, component, entries, dist, owner);
    forall b | b in dist
      ensures b in owner && owner[b] in entries && OwnedAt(g, owner, b, dist[b])
    {
      var p := OwnedPath(g, component, dist, owner, b);
    }
  }

  // ----- Ties

  /** The i-th entry is as near to b as any. */
  ghost predicate Tied(g: Cfg, component: set<nat>, entries: seq<nat>, dist: map<nat, nat>, i: nat, b: nat) {
    i < |entries| && b in dist && exists p :: Inside(g, component, p, entries[i], b) && |p| == dist[b] + 1
  }

  ghost predicate FirstTied(g: Cfg, component: set<nat>, entries: seq<nat>, dist: map<nat, nat>, i: nat, b: nat) {
    Tied(g, component, entries, dist, i, b) && forall k: nat :: k < i ==> !Tied(g, component, entries, dist, k, b)
  }

  ghost predicate OwnerIsSmallest(g: Cfg, component: set<nat>, entries: seq<nat>, dist: map<nat, nat>,
      owner: map<nat, nat>, b: nat) {
    b in owner && forall k: nat :: Tied(g, component, entries, dist, k, b) ==> owner[b] <= entries[k]
  }

  lemma OwnerTied(g: Cfg, component: set<nat>, entries: seq<nat>, dist: map<nat, nat>, owner: map<nat, nat>, j: nat,
      b: nat)
    requires Nearest(g, component, entries, dist, owner) && b in dist && j < |entries| && entries[j] == owner[b]
    ensures Tied(g, component, entries, dist, j, b)
  {
    assert OwnedAt(g, owner, b, dist[b]);
    var p :| Owned(g, owner, p, owner[b], b) && |p| == dist[b] + 1;
    assert Inside(g, component, p, entries[j], b);
  }

  lemma {:induction false} FirstTiedExists(g: Cfg, component: set<nat>, entries: seq<nat>, dist: map<nat, nat>,
      j: nat, b: nat)
    returns (i: nat)
    requires Tied(g, component, entries, dist, j, b)
    ensures i <= j && FirstTied(g, component, entries, dist, i, b)
  {
    if k: nat :| k < j && Tied(g, component, entries, dist, k, b) {
      i := FirstTiedExists(g, component, entries, dist, k, b);
    } else {
      i := j;
    }
  }

  /** The owner is the first listed of the nearest entries. */
  lemma OwnerIsFirstTied(g: Cfg, component: set<nat>, entries: seq<nat>, dist: map<nat, nat>, owner: map<nat, nat>,
      b: nat)
    returns (i: nat)
    requires Nearest(g, component, entries, dist, owner) && b in dist
    ensures FirstTied(g, component, entries, dist, i, b) && owner[b] == entries[i]
  {
    var j :| 0 <= j < |entries| && entries[j] == owner[b];
    OwnerTied(g, component, entries, dist, owner, j, b);
    i := FirstTiedExists(g, component, entries, dist, j, b);
    var k := TiedIsListed(g, component, entries, dist, owner, i, b);
    OwnerTied(g, component, entries, dist, owner, k, b);
    NoneBefore(g, component, entries, dist, i, k, b);
  }

  lemma TiedIsListed(g: Cfg, component: set<nat>, entries: seq<nat>, dist: map<nat, nat>, owner: map<nat, nat>,
      i: nat, b: nat)
    returns (k: nat)
    requires FirstWins(g, component, entries, dist, owner) && b in owner && Tied(g, component, entries, dist, i, b)
    ensures k <= i && k < |entries| && entries[k] == owner[b]
  {
    var p :| Inside(g, component, p, entries[i], b) && |p| == dist[b] + 1;
    assert ListedBy(entries, owner[b], i);
    var l :| 0 <= l <= i && l < |entries| && entries[l] == owner[b];
    k := l;
  }

  lemma NoneBefore(g: Cfg, component: set<nat>, entries: seq<nat>, dist: map<nat, nat>, i: nat, k: nat, b: nat)
    requires FirstTied(g, component, entries, dist, i, b) && Tied(g, component, entries, dist, k, b)
    ensures i <= k
  {
  }

  /** The smallest of the nearest entries owns a block exactly when it is listed first of them. */
  lemma SmallestWinsExactly(g: Cfg, component: set<nat>, entries: seq<nat>, dist: map<nat, nat>, owner: map<nat, nat>,
      b: nat)
    requires Nearest(g, component, entries, dist, owner) && b in dist
    ensures OwnerIsSmallest(g, component, entries, dist, owner, b) <==>
      forall i: nat, k: nat ::
        FirstTied(g, component, entries, dist, i, b) && Tied(g, component, entries, dist, k, b) ==>
          entries[i] <= entries[k]
  {
    var f := OwnerIsFirstTied(g, component, entries, dist, owner, b);
    forall i: nat | FirstTied(g, component, entries, dist, i, b) ensures i == f {
      NoneBefore(g, component, entries, dist, f, i, b);
      NoneBefore(g, component, entries, dist, i, f, b);
    }
  }

  /** So with entries listed in increasing order the smallest always wins a tie. */
  lemma IncreasingEntriesWin(g: Cfg, component: set<nat>, entries: seq<nat>, dist: map<nat, nat>, owner: map<nat, nat>)
    requires Nearest(g, component, entries, dist, owner)
    requires forall i, j :: 0 <= i < j < |entries| ==> entries[i] <= entries[j]
    ensures forall b :: b in dist ==> OwnerIsSmallest(g, component, entries, dist, owner, b)
  {
    forall b | b in dist ensures OwnerIsSmallest(g, component, entries, dist, owner, b) {
      SmallestWinsExactly(g, component, entries, dist, owner, b);
      forall i: nat, k: nat | FirstTied(g, component, entries, dist, i, b) && Tied(g, component, entries, dist, k, b)
        ensures entries[i] <= entries[k]
      {
        NoneBefore(g, component, entries, dist, i, k, b);
      }
    }
  }
}
