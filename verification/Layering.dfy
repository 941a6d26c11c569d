/** Columns of the attack graph: the longest hop distance from an entry, by repeated relaxation. */
module Layering {
  import opened Grouping

  /** A walk of |ids| - 1 links, possibly none. */
  ghost predicate IsTrail(links: seq<Link>, ids: seq<string>) {
    |ids| >= 1 && forall i :: 0 <= i < |ids| - 1 ==> HasKey(links, (ids[i], ids[i + 1]))
  }

  ghost predicate TrailTo(links: seq<Link>, ids: seq<string>, id: string) {
    IsTrail(links, ids) && ids[|ids| - 1] == id
  }

  ghost predicate Acyclic(links: seq<Link>) {
    forall ids :: IsWalk(links, ids) ==> ids[0] != ids[|ids| - 1]
  }

  function NodeIds(nodes: seq<Node>): set<string> { set n | n in nodes :: n.id }

  /** Every link joins two nodes of the model, as the builder guarantees. */
  ghost predicate Closed(model: Model) {
    forall l :: l in model.links ==> l.from in NodeIds(model.nodes) && l.to in NodeIds(model.nodes)
  }

  /** k is the number of links on the longest walk that ends at id. */
  ghost predicate IsLongest(links: seq<Link>, id: string, k: nat) {
    && (exists ids :: TrailTo(links, ids, id) && |ids| == k + 1)
    && (forall ids :: TrailTo(links, ids, id) ==> |ids| <= k + 1)
  }

  /** Every column is the length of some walk to the node. */
  ghost predicate Sound(links: seq<Link>, layer: map<string, nat>) {
    forall id :: id in layer ==> exists ids :: TrailTo(links, ids, id) && |ids| == layer[id] + 1
  }

  /** Every walk of at most k links is accounted for. */
  ghost predicate CoversUpTo(links: seq<Link>, layer: map<string, nat>, k: int) {
    forall ids :: IsTrail(links, ids) && |ids| <= k + 1 && ids[|ids| - 1] in layer ==>
      layer[ids[|ids| - 1]] + 1 >= |ids|
  }

  ghost predicate Settled(links: seq<Link>, layer: map<string, nat>) {
    forall l :: l in links && l.from in layer && l.to in layer ==> layer[l.to] >= layer[l.from] + 1
  }

  lemma ExtendTrail(links: seq<Link>, layer: map<string, nat>, l: Link)
    requires Sound(links, layer) && l in links && l.from in layer
    ensures Sound(links, layer[l.to := layer[l.from] + 1])
  {
    var ids :| TrailTo(links, ids, l.from) && |ids| == layer[l.from] + 1;
    var more := ids + [l.to];
    forall i | 0 <= i < |more| - 1 ensures HasKey(links, (more[i], more[i + 1])) {
      if i == |ids| - 1 { assert KeyOf(l) == (more[i], more[i + 1]); }
    }
    assert TrailTo(links, more, l.to);
    var layer' := layer[l.to := layer[l.from] + 1];
    forall id | id in layer' ensures exists ids :: TrailTo(links, ids, id) && |ids| == layer'[id] + 1 {
      if id != l.to { assert id in layer && layer'[id] == layer[id]; }
    }
  }

  /** One pass relaxes every link against at least the columns it started from. */
  lemma PassCoversMore(links: seq<Link>, start: map<string, nat>, layer: map<string, nat>, k: nat)
    requires CoversUpTo(links, start, k) && start.Keys == layer.Keys
    requires forall id :: id in start ==> layer[id] >= start[id]
    requires forall l :: l in links ==> l.from in start && l.to in start && layer[l.to] >= start[l.from] + 1
    ensures CoversUpTo(links, layer, k + 1)
  {
    forall ids | IsTrail(links, ids) && |ids| <= k + 2 && ids[|ids| - 1] in layer
      ensures layer[ids[|ids| - 1]] + 1 >= |ids|
    {
      if |ids| > 1 {
        var n := |ids|;
        assert HasKey(links, (ids[n - 2], ids[n - 2 + 1]));
        var l :| l in links && KeyOf(l) == (ids[n - 2], ids[n - 1]);
        var front := ids[..n - 1];
        assert IsTrail(links, front) by {
          forall i | 0 <= i < |front| - 1 ensures HasKey(links, (front[i], front[i + 1])) {
            assert HasKey(links, (ids[i], ids[i + 1]));
          }
        }
        assert start[ids[n - 2]] + 1 >= |front|;
      }
    }
  }

  lemma {:induction false} SettledCovers(links: seq<Link>, layer: map<string, nat>, ids: seq<string>)
    requires Settled(links, layer) && IsTrail(links, ids)
    requires forall id :: id in ids ==> id in layer
    ensures layer[ids[|ids| - 1]] + 1 >= |ids|
    decreases |ids|
  {
    if |ids| > 1 {
      var n := |ids|;
      assert HasKey(links, (ids[n - 2], ids[n - 2 + 1]));
      var l :| l in links && KeyOf(l) == (ids[n - 2], ids[n - 1]);
      var front := ids[..n - 1];
      forall i | 0 <= i < |front| - 1 ensures HasKey(links, (front[i], front[i + 1])) {
        assert HasKey(links, (ids[i], ids[i + 1]));
      }
      SettledCovers(links, layer, front);
    }
  }

  // ----- a walk without repetition is no longer than the node list

  lemma {:induction false} NoRepeatsIsShort(ids: seq<string>, all: set<string>)
    requires forall i :: 0 <= i < |ids| ==> ids[i] in all
    requires forall i, j :: 0 <= i < j < |ids| ==> ids[i] != ids[j]
    ensures |ids| <= |all|
    decreases |ids|
  {
    if ids != [] {
      var last := ids[|ids| - 1];
      NoRepeatsIsShort(ids[..|ids| - 1], all - {last});
    }
  }

  lemma {:induction false} NodeIdsFew(nodes: seq<Node>)
    ensures |NodeIds(nodes)| <= |nodes|
    decreases |nodes|
  {
    if nodes != [] {
      var front, last := nodes[..|nodes| - 1], nodes[|nodes| - 1];
      NodeIdsFew(front);
      assert nodes == front + [last];
      assert NodeIds(nodes) == NodeIds(front) + {last.id};
    }
  }

  lemma TrailInNodes(model: Model, ids: seq<string>)
    requires Closed(model) && IsTrail(model.links, ids) && ids[|ids| - 1] in NodeIds(model.nodes)
    ensures forall id :: id in ids ==> id in NodeIds(model.nodes)
  {
    forall i | 0 <= i < |ids| ensures ids[i] in NodeIds(model.nodes) {
      if i < |ids| - 1 {
        assert HasKey(model.links, (ids[i], ids[i + 1]));
        var l :| l in model.links && KeyOf(l) == (ids[i], ids[i + 1]);
      }
    }
  }

  lemma NoReturn(links: seq<Link>, ids: seq<string>, i: nat, j: nat)
    requires Acyclic(links) && IsTrail(links, ids) && i < j < |ids|
    ensures ids[i] != ids[j]
  {
    var loop := ids[i..j + 1];
    forall x | 0 <= x < |loop| - 1 ensures HasKey(links, (loop[x], loop[x + 1])) {
      assert HasKey(links, (ids[i + x], ids[i + x + 1]));
    }
    assert IsWalk(links, loop) && loop[0] == ids[i] && loop[|loop| - 1] == ids[j];
  }

  lemma AcyclicTrailsAreShort(model: Model, ids: seq<string>)
    requires Closed(model) && Acyclic(model.links) && IsTrail(model.links, ids)
    requires ids[|ids| - 1] in NodeIds(model.nodes)
    ensures |ids| <= |model.nodes|
  {
    TrailInNodes(model, ids);
    forall i, j | 0 <= i < j < |ids| ensures ids[i] != ids[j] { NoReturn(model.links, ids, i, j); }
    NoRepeatsIsShort(ids, NodeIds(model.nodes));
    NodeIdsFew(model.nodes);
  }

  // ----- the relaxation loop

  ghost predicate Relaxed(links: seq<Link>, start: map<string, nat>, layer: map<string, nat>) {
    && layer.Keys == start.Keys
    && (forall id :: id in start ==> layer[id] >= start[id])
    && (forall l :: l in links && l.from in start && l.to in start ==> layer[l.to] >= start[l.from] + 1)
  }

  lemma RaiseRelaxes(links: seq<Link>, start: map<string, nat>, layer: map<string, nat>, l: Link, column: nat)
    requires Relaxed(links, start, layer) && l.from in start && l.to in start
    requires column >= layer[l.to] && column >= layer[l.from] + 1
    ensures Relaxed(links + [l], start, layer[l.to := column])
  {
  }

  /** One link's turn: its target is raised, or stays where it is. */
  lemma RelaxOne(links: seq<Link>, done: seq<Link>, start: map<string, nat>, layer: map<string, nat>, l: Link)
    requires Sound(links, layer) && Relaxed(done, start, layer) && l in links && l.from in start && l.to in start
    ensures var next := layer[l.from] + 1;
            if next > layer[l.to] then Sound(links, layer[l.to := next]) && Relaxed(done + [l], start, layer[l.to := next])
            else Relaxed(done + [l], start, layer)
  {
    var next := layer[l.from] + 1;
    if next > layer[l.to] {
      ExtendTrail(links, layer, l);
      RaiseRelaxes(done, start, layer, l, next);
    } else {
      assert layer[l.to := layer[l.to]] == layer;
      RaiseRelaxes(done, start, layer, l, layer[l.to]);
    }
  }

  /** One pass over the links. */
  method RelaxPass(model: Model, start: map<string, nat>) returns (layer: map<string, nat>, changed: bool)
    requires Closed(model) && start.Keys == NodeIds(model.nodes) && Sound(model.links, start)
    ensures layer.Keys == start.Keys && Sound(model.links, layer)
    ensures forall id :: id in start ==> layer[id] >= start[id]
    ensures forall l :: l in model.links ==> layer[l.to] >= start[l.from] + 1
    ensures !changed ==> layer == start
  {
    layer, changed := start, false;
    forall l | l in model.links ensures l.from in start && l.to in start {}
    for j := 0 to |model.links|
      invariant Sound(model.links, layer) && Relaxed(model.links[..j], start, layer)
      invariant !changed ==> layer == start
    {
      var link := model.links[j];
      assert link in model.links && model.links[..j + 1] == model.links[..j] + [link];
      var next := (if link.from in layer then layer[link.from] else 0) + 1;
      var column := if link.to in layer then layer[link.to] else 0;
      RelaxOne(model.links, model.links[..j], start, layer, link);
      if next > column {
        layer := layer[link.to := next];
        changed := true;
      }
    }
    assert model.links[..|model.links|] == model.links;
  }

  /** The columns. On cyclic links the loop still stops, after one pass per node. */
  method AssignLayers(model: Model) returns (layer: map<string, nat>)
    requires Closed(model)
    ensures layer.Keys == NodeIds(model.nodes) && Sound(model.links, layer)
    ensures Acyclic(model.links) ==> forall id :: id in layer ==> IsLongest(model.links, id, layer[id])
  {
    layer := map id | id in NodeIds(model.nodes) :: 0;
    forall id | id in layer ensures exists ids :: TrailTo(model.links, ids, id) && |ids| == layer[id] + 1 {
      assert TrailTo(model.links, [id], id);
    }
    var pass, changed := 0, true;
    while pass < |model.nodes| && changed
      invariant 0 <= pass <= |model.nodes|
      invariant layer.Keys == NodeIds(model.nodes) && Sound(model.links, layer)
      invariant CoversUpTo(model.links, layer, pass)
      invariant !changed ==> Settled(model.links, layer)
      decreases |model.nodes| - pass + if changed then 1 else 0
    {
      ghost var start := layer;
      layer, changed := RelaxPass(model, layer);
      PassCoversMore(model.links, start, layer, pass);
      pass := pass + 1;
    }
    if Acyclic(model.links) {
      forall id | id in layer ensures IsLongest(model.links, id, layer[id]) {
        forall ids | TrailTo(model.links, ids, id) ensures |ids| <= layer[id] + 1 {
          if changed {
            AcyclicTrailsAreShort(model, ids);
          } else {
            TrailInNodes(model, ids);
            SettledCovers(model.links, layer, ids);
          }
        }
      }
    }
  }

  /** Longest-path columns send every link strictly rightwards. */
  lemma LinksGoRight(model: Model, layer: map<string, nat>, l: Link)
    requires Closed(model) && layer.Keys == NodeIds(model.nodes) && l in model.links
    requires forall id :: id in layer ==> IsLongest(model.links, id, layer[id])
    ensures layer[l.from] < layer[l.to]
  {
    assert Sound(model.links, layer);
    ExtendTrail(model.links, layer, l);
    var more := layer[l.to := layer[l.from] + 1];
    var ids :| TrailTo(model.links, ids, l.to) && |ids| == more[l.to] + 1;
  }
}
