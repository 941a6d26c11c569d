/** What a complete run leaves behind: upserts of everything it saw, then the reconcile. */
module Convergence {
  import opened Basics
  import opened GraphStore
  import opened EdgeWrites
  import opened GraphRepository

  // ----- partial work composes

  lemma PartsCompose(g: Store, h: Store, h': Store, ns: seq<NodeMutation>, es: seq<EdgeMutation>)
    requires DistinctNodes(ns)
    requires PartlyDelivered(g, h, ns, es) && PartlyDelivered(h, h', ns, es)
    ensures PartlyDelivered(g, h', ns, es)
  {
    forall id
      ensures VertexAt(h', id) == VertexAt(g, id)
           || exists m :: m in ns && m.id == id && VertexAt(h', id) == Some(PutVertex(VertexAt(g, id), m))
    {
      if VertexAt(h', id) != VertexAt(h, id) && VertexAt(h, id) != VertexAt(g, id) {
        var m :| m in ns && m.id == id && VertexAt(h, id) == Some(PutVertex(VertexAt(g, id), m));
        var m' :| m' in ns && m'.id == id && VertexAt(h', id) == Some(PutVertex(VertexAt(h, id), m'));
        SameIdSame(ns, m, m');
        PutVertexTwice(VertexAt(g, id), m);
      }
    }
    forall k ensures EdgeReached(g, h', es, k) { EdgeReachedThrough(g, h, h', es, k); }
  }

  /** A complete delivery after parts of it is a complete delivery. */
  lemma DeliveredAfterParts(g: Store, h: Store, h': Store, ns: seq<NodeMutation>, es: seq<EdgeMutation>)
    requires DistinctNodes(ns) && PartlyDelivered(g, h, ns, es) && Delivered(h, h', ns, es)
    ensures Delivered(g, h', ns, es)
  {
    var a, b := PutNodes(g, ns), PutNodes(h, ns);
    PutNodesAt(g, ns, "");
    PutNodesAt(h, ns, "");
    forall id ensures VertexAt(a, id) == VertexAt(b, id) { NodePassAbsorbs(g, h, ns, id); }
    SameVertices(a, b);
    forall k ensures EdgeReached(a, h', es, k) && (CanHold(b, k) <==> CanHold(a, k)) {
      PartsCreateNoMore(g, h, ns, es, k);
      PutNodesKeepEndpoints(h, ns, k);
      EdgeReachedElsewhere(g, h, a, b, es, k);
      EdgeReachedThrough(a, b, h', es, k);
    }
    forall m | m in es ensures EdgeDone(a, h', m) { assert EdgeDone(b, h', m); }
  }

  /** The vertices may have grown meanwhile. */
  lemma EdgeReachedElsewhere(g: Store, h: Store, a: Store, b: Store, es: seq<EdgeMutation>, k: EdgeKey)
    requires EdgeReached(g, h, es, k) && (HasEndpoints(h, k) ==> HasEndpoints(b, k))
    requires EdgeAt(a, k) == EdgeAt(g, k) && EdgeAt(b, k) == EdgeAt(h, k)
    ensures EdgeReached(a, b, es, k)
  {
    var ws :| WrittenBy(g, h, es, k, ws);
    assert WrittenBy(a, b, es, k, ws);
  }

  /** Batches of edges one after the other are one batch. */
  lemma EdgesPutAfter(g: Store, h: Store, h': Store, a: seq<EdgeMutation>, b: seq<EdgeMutation>, es: seq<EdgeMutation>)
    requires EdgesPut(g, h, a) && EdgesPut(h, h', b)
    requires forall m :: m in es <==> m in a || m in b
    ensures EdgesPut(g, h', es)
  {
    forall k ensures EdgeReached(g, h', es, k) {
      EdgeReachedOfMore(g, h, a, es, k);
      EdgeReachedOfMore(h, h', b, es, k);
      EdgeReachedThrough(g, h, h', es, k);
    }
    forall m | m in es ensures EdgeDone(g, h', m) {
      ReachedCanHold(g, h, a, m.key);
      if m in b {
        assert EdgeDone(h, h', m);
      } else {
        assert EdgeDone(g, h, m);
        StaysDone(h, h', b, m.key);
      }
    }
  }

  lemma StaysDone(h: Store, h': Store, es: seq<EdgeMutation>, k: EdgeKey)
    requires EdgesInProgress(h, h', es)
    ensures k in h.edges ==> k in h'.edges && NotOlderThan(h'.edges[k].version, h.edges[k].version)
    ensures !CanHold(h, k) ==> k !in h'.edges
  {
    assert EdgeReached(h, h', es, k);
    var ws :| WrittenBy(h, h', es, k, ws);
    PutAllKeeps(EdgeAt(h, k), ws);
  }

  lemma EdgeReachedOfMore(g: Store, h: Store, es: seq<EdgeMutation>, es': seq<EdgeMutation>, k: EdgeKey)
    requires EdgeReached(g, h, es, k) && forall m :: m in es ==> m in es'
    ensures EdgeReached(g, h, es', k)
  {
    var ws :| WrittenBy(g, h, es, k, ws);
    assert WrittenBy(g, h, es', k, ws);
  }

  lemma PartsOfMore(g: Store, h: Store, ns: seq<NodeMutation>, es: seq<EdgeMutation>,
                    ns': seq<NodeMutation>, es': seq<EdgeMutation>)
    requires PartlyDelivered(g, h, ns, es)
    requires (forall m :: m in ns ==> m in ns') && (forall m :: m in es ==> m in es')
    ensures PartlyDelivered(g, h, ns', es')
  {
    forall k ensures EdgeReached(g, h, es', k) { EdgeReachedOfMore(g, h, es, es', k); }
  }

  /** One pass over the vertices and then over the edges is a complete delivery. */
  lemma DeliverDelivers(g: Store, ns: seq<NodeMutation>, es: seq<EdgeMutation>)
    ensures Delivered(g, Deliver(g, ns, es), ns, es)
  {
    var a := PutNodes(g, ns);
    NothingInProgress(a, es);
    PutSome(a, a, es, es);
  }

  lemma NothingDelivered(g: Store, ns: seq<NodeMutation>, es: seq<EdgeMutation>)
    ensures PartlyDelivered(g, g, ns, es)
  {
    NothingInProgress(g, es);
  }

  /** A batch without edges changes none. */
  lemma NoEdgesPut(g: Store, h: Store)
    requires SomeEdgesPut(g, h, [])
    ensures forall k :: EdgeAt(h, k) == EdgeAt(g, k)
  {
    forall k ensures EdgeAt(h, k) == EdgeAt(g, k) {
      assert EdgeReached(g, h, [], k);
      var ws :| WrittenBy(g, h, [], k, ws);
      WritesAreListed([], k, ws);
    }
  }

  lemma {:induction false} PutNodesConcat(g: Store, a: seq<NodeMutation>, b: seq<NodeMutation>)
    ensures PutNodes(g, a + b) == PutNodes(PutNodes(g, a), b)
    decreases |b|
  {
    if b == [] {
      assert a + b == a;
    } else {
      assert (a + b)[..|a + b| - 1] == a + b[..|b| - 1];
      PutNodesConcat(g, a, b[..|b| - 1]);
    }
  }

  // ----- what lacks an endpoint does not change while the batch is delivered

  lemma PartsCreateNoMore(g: Store, h: Store, ns: seq<NodeMutation>, es: seq<EdgeMutation>, k: EdgeKey)
    requires DistinctNodes(ns) && PartlyDelivered(g, h, ns, es)
    ensures CanHold(PutNodes(h, ns), k) <==> CanHold(PutNodes(g, ns), k)
  {
    PutNodesKeepEdges(g, ns);
    PutNodesKeepEdges(h, ns);
    NodePassAbsorbs(g, h, ns, k.from);
    NodePassAbsorbs(g, h, ns, k.to);
    assert VertexAt(PutNodes(h, ns), k.from) == VertexAt(PutNodes(g, ns), k.from);
    assert VertexAt(PutNodes(h, ns), k.to) == VertexAt(PutNodes(g, ns), k.to);
    assert EdgeReached(g, h, es, k);
    var ws :| WrittenBy(g, h, es, k, ws);
    PutAllKeeps(EdgeAt(g, k), ws);
    PutNodesKeepEndpoints(h, ns, k);
  }

  lemma PutNodesKeepEndpoints(g: Store, ns: seq<NodeMutation>, k: EdgeKey)
    ensures HasEndpoints(g, k) ==> HasEndpoints(PutNodes(g, ns), k)
  {
    PutNodesKeep(g, ns, k.from);
    PutNodesKeep(g, ns, k.to);
  }

  lemma {:induction false} PutNodesKeep(g: Store, ns: seq<NodeMutation>, id: string)
    ensures id in g.vertices ==> id in PutNodes(g, ns).vertices
    decreases |ns|
  {
    if ns != [] { PutNodesKeep(g, ns[..|ns| - 1], id); }
  }

  lemma {:induction false} PutNodesKeepEdges(g: Store, ns: seq<NodeMutation>)
    ensures PutNodes(g, ns).edges == g.edges
    decreases |ns|
  {
    if ns != [] { PutNodesKeepEdges(g, ns[..|ns| - 1]); }
  }

  lemma {:induction false} LackingAfterParts(g: Store, h: Store, ns: seq<NodeMutation>, es: seq<EdgeMutation>, list: seq<EdgeMutation>)
    requires DistinctNodes(ns) && PartlyDelivered(g, h, ns, es)
    ensures Lacking(PutNodes(h, ns), list) == Lacking(PutNodes(g, ns), list)
    decreases |list|
  {
    PutNodesKeepEdges(g, ns);
    PutNodesKeepEdges(h, ns);
    if list != [] {
      LackingAfterParts(g, h, ns, es, list[..|list| - 1]);
      PartsCreateNoMore(g, h, ns, es, list[|list| - 1].key);
    }
  }

  lemma {:induction false} LackingAfterEdges(g: Store, h: Store, a: seq<EdgeMutation>, b: seq<EdgeMutation>)
    requires EdgesInProgress(g, h, a)
    ensures Lacking(h, b) == Lacking(g, b)
    decreases |b|
  {
    if b != [] {
      LackingAfterEdges(g, h, a, b[..|b| - 1]);
      ReachedCanHold(g, h, a, b[|b| - 1].key);
    }
  }

  // ----- interrupted reconciles compose

  lemma PartStale(g: Store, ids: set<string>, keys: set<EdgeKey>, r: Reconcile)
    requires ids <= StaleVertices(g, r)
    ensures var h := DropEdges(DropVertices(g, ids), keys);
            && StaleVertices(h, r) == StaleVertices(g, r) - ids
            && (forall more: set<string> :: StaleEdges(DropVertices(h, more), r)
                                         == StaleEdges(DropVertices(g, ids + more), r) - keys)
  {
    var h := DropEdges(DropVertices(g, ids), keys);
    forall more: set<string>
      ensures StaleEdges(DropVertices(h, more), r) == StaleEdges(DropVertices(g, ids + more), r) - keys
    {
      var a, b := DropVertices(h, more), DropVertices(g, ids + more);
      assert forall k :: k in a.edges <==> k in b.edges && k !in keys;
    }
  }

  lemma DropVerticesOfPart(g: Store, ids: set<string>, keys: set<EdgeKey>, more: set<string>)
    ensures DropVertices(DropEdges(DropVertices(g, ids), keys), more) == DropEdges(DropVertices(g, ids + more), keys)
  {
    var a, b := DropVertices(DropEdges(DropVertices(g, ids), keys), more), DropEdges(DropVertices(g, ids + more), keys);
    assert a.vertices == b.vertices;
    assert forall k :: k in a.edges <==> k in b.edges;
    assert a.edges == b.edges;
  }

  lemma SameDrop(g: Store, a: set<EdgeKey>, b: set<EdgeKey>, c: set<EdgeKey>)
    requires forall k :: k in g.edges ==> (k in a || k in b <==> k in c)
    ensures DropEdges(DropEdges(g, a), b) == DropEdges(g, c)
  {
    assert g.edges - a - b == g.edges - c;
  }

  lemma ReconcileAbsorbsParts(g: Store, h: Store, r: Reconcile)
    requires PartlyReconciled(g, h, r)
    ensures Reconciled(h, r) == Reconciled(g, r)
  {
    var ids, keys :| ReconciledPart(g, h, r, ids, keys);
    PartStale(g, ids, keys, r);
    var all, rest := StaleVertices(g, r), StaleVertices(h, r);
    assert ids + rest == all;
    var x := DropVertices(g, all);
    DropVerticesOfPart(g, ids, keys, rest);
    KeptKeysStale(g, ids, rest, keys, r);
    assert DropVertices(h, rest) == DropEdges(x, keys);
    assert StaleEdges(DropVertices(h, rest), r) == StaleEdges(x, r) - keys;
    forall k | k in x.edges && k in keys ensures k in StaleEdges(x, r) {}
    SameDrop(x, keys, StaleEdges(x, r) - keys, StaleEdges(x, r));
  }

  lemma DropTwice(g: Store, ids: set<string>, keys: set<EdgeKey>, ids': set<string>, keys': set<EdgeKey>)
    ensures var h := DropEdges(DropVertices(g, ids), keys);
            var x := DropVertices(g, ids + ids');
            DropEdges(DropVertices(h, ids'), keys') == DropEdges(x, (set k | k in keys && k in x.edges) + keys')
  {
    var h := DropEdges(DropVertices(g, ids), keys);
    var x := DropVertices(g, ids + ids');
    var both := (set k | k in keys && k in x.edges) + keys';
    var a, b := DropEdges(DropVertices(h, ids'), keys'), DropEdges(x, both);
    assert a.vertices == b.vertices;
    assert forall k :: k in a.edges <==> k in b.edges;
    assert a.edges == b.edges;
  }

  lemma ReconcilePartsCompose(g: Store, h: Store, h': Store, r: Reconcile)
    requires PartlyReconciled(g, h, r) && PartlyReconciled(h, h', r)
    ensures PartlyReconciled(g, h', r)
  {
    var ids, keys :| ReconciledPart(g, h, r, ids, keys);
    var ids', keys' :| ReconciledPart(h, h', r, ids', keys');
    PartStale(g, ids, keys, r);
    DropTwice(g, ids, keys, ids', keys');
    var x := DropVertices(g, ids + ids');
    KeptKeysStale(g, ids, ids', keys, r);
    assert ReconciledPart(g, h', r, ids + ids', (set k | k in keys && k in x.edges) + keys');
  }

  lemma KeptKeysStale(g: Store, ids: set<string>, more: set<string>, keys: set<EdgeKey>, r: Reconcile)
    requires keys <= StaleEdges(DropVertices(g, ids), r)
    ensures var x := DropVertices(g, ids + more); (set k | k in keys && k in x.edges) <= StaleEdges(x, r)
  {
    var x := DropVertices(g, ids + more);
    forall k | k in keys && k in x.edges ensures k in StaleEdges(x, r) {
      assert k in StaleEdges(DropVertices(g, ids), r);
    }
  }

  lemma NothingReconciled(g: Store, r: Reconcile)
    ensures PartlyReconciled(g, g, r)
  {
    DropVerticesMore(g, {}, {}, r);
    DropEdgesMore(g, {}, {}, r);
    assert ReconciledPart(g, g, r, {}, {});
  }

  lemma CapKept(g: Store, h: Store, r: Reconcile, limit: nat)
    requires PartlyReconciled(g, h, r) && UnderCap(g, r, limit)
    ensures UnderCap(h, r, limit) && StaleCount(h, r) <= StaleCount(g, r)
  {
    var ids, keys :| ReconciledPart(g, h, r, ids, keys);
    PartStale(g, ids, keys, r);
    var all, rest := StaleVertices(g, r), StaleVertices(h, r);
    assert ids + rest == all;
    CardinalityWithin(rest, all);
    CardinalityWithin(StaleEdges(DropVertices(h, rest), r), StaleEdges(DropVertices(g, all), r));
  }

  // ----- convergence

  predicate Stamped(r: Reconcile, props: Props) {
    InScope(r, props) && HasText(props, "collection_run_id", r.runId)
  }

  predicate Unscoped(props: Props) { "collection_scope" !in props }

  /** What a run emits: scoped elements carry its stamps; shared vertices carry no scope at all. */
  predicate EmittedBy(r: Reconcile, ns: seq<NodeMutation>, es: seq<EdgeMutation>) {
    && (forall m :: m in ns ==> Stamped(r, m.props) || Unscoped(m.props))
    && (forall m :: m in es ==> Stamped(r, m.props))
  }

  /** Everything stored in the scope was left by other runs, before this reconcile. */
  predicate OnlyOlderRuns(g: Store, r: Reconcile) {
    && (forall id :: id in g.vertices && InScope(r, g.vertices[id].props) ==>
          Stale(r, g.vertices[id].props, g.vertices[id].version))
    && (forall k :: k in g.edges && InScope(r, g.edges[k].props) ==> Stale(r, g.edges[k].props, g.edges[k].version))
  }

  /** The store has nothing newer than what the run writes, and shared vertices are unscoped in it. */
  predicate NothingNewer(g: Store, ns: seq<NodeMutation>, es: seq<EdgeMutation>) {
    && (forall m :: m in ns && m.id in g.vertices ==> Older(g.vertices[m.id].version, m.observedAt))
    && (forall m :: m in es && m.key in g.edges ==> Older(g.edges[m.key].version, m.observedAt))
    && (forall m :: m in ns && Unscoped(m.props) && m.id in g.vertices ==> Unscoped(g.vertices[m.id].props))
  }

  ghost predicate Emits(ns: seq<NodeMutation>, id: string) { exists m :: m in ns && m.id == id }

  ghost predicate EmitsScoped(r: Reconcile, ns: seq<NodeMutation>, id: string) {
    exists m :: m in ns && m.id == id && Stamped(r, m.props)
  }

  /** One vertex id after a complete run: in the scope exactly when the run emitted it there,
      written when emitted, and untouched when neither emitted nor in the scope before. */
  ghost predicate VertexConverged(g: Store, f: Store, ns: seq<NodeMutation>, r: Reconcile, id: string) {
    && ((id in f.vertices && InScope(r, f.vertices[id].props)) <==> EmitsScoped(r, ns, id))
    && (forall m :: m in ns && m.id == id ==> VertexAt(f, id) == Some(PutVertex(VertexAt(g, id), m)))
    && (!Emits(ns, id) && !(id in g.vertices && InScope(r, g.vertices[id].props)) ==>
          VertexAt(f, id) == VertexAt(g, id))
  }

  /** What the run wrote at the key, one or several times over what was there, with nothing older left. */
  ghost predicate Overwritten(g: Store, f: Store, es: seq<EdgeMutation>, k: EdgeKey) {
    && k in f.edges && (forall m :: m in es && m.key == k ==> !Older(f.edges[k].version, m.observedAt))
    && exists ws :: ws != [] && WrittenBy(g, f, es, k, ws)
  }

  /** One edge key after a complete run: in the scope exactly when emitted with both endpoints
      still there; an edge of another scope goes only when it lost an endpoint. */
  ghost predicate EdgeConverged(g: Store, f: Store, es: seq<EdgeMutation>, r: Reconcile, k: EdgeKey) {
    && ((k in f.edges && InScope(r, f.edges[k].props)) <==> Lists(es, k) && HasEndpoints(f, k))
    && (Lists(es, k) && HasEndpoints(f, k) ==> Overwritten(g, f, es, k))
    && (!Lists(es, k) && !(k in g.edges && InScope(r, g.edges[k].props)) ==>
          EdgeAt(f, k) == if HasEndpoints(f, k) then EdgeAt(g, k) else None)
  }

  /** f is what a complete run should leave of g. */
  ghost predicate Converged(g: Store, f: Store, ns: seq<NodeMutation>, es: seq<EdgeMutation>, r: Reconcile) {
    && (forall id :: VertexConverged(g, f, ns, r, id))
    && (forall k :: EdgeConverged(g, f, es, r, k))
    && NoDangling(f)
  }

  lemma DeliveredKeepsEndpoints(g: Store, h: Store, ns: seq<NodeMutation>, es: seq<EdgeMutation>)
    requires Delivered(g, h, ns, es) && NoDangling(g)
    ensures NoDangling(h)
  {
    var a := PutNodes(g, ns);
    PutNodesKeepEdges(g, ns);
    forall k | k in h.edges ensures HasEndpoints(h, k) {
      assert EdgeReached(a, h, es, k);
      ReachedCanHold(a, h, es, k);
      PutNodesKeepEndpoints(g, ns, k);
    }
  }

  lemma FreshVertex(g: Store, h: Store, m: NodeMutation, r: Reconcile)
    requires VertexAt(h, m.id) == Some(PutVertex(VertexAt(g, m.id), m))
    requires m.id in g.vertices ==> Older(g.vertices[m.id].version, m.observedAt)
    requires Stamped(r, m.props)
    ensures InScope(r, h.vertices[m.id].props) && m.id !in StaleVertices(h, r)
  {
    var p := h.vertices[m.id].props;
    assert forall key :: key in m.props ==> key in p && p[key] == m.props[key];
  }

  lemma SharedVertex(g: Store, h: Store, m: NodeMutation, r: Reconcile)
    requires VertexAt(h, m.id) == Some(PutVertex(VertexAt(g, m.id), m))
    requires Unscoped(m.props) && (m.id in g.vertices ==> Unscoped(g.vertices[m.id].props))
    ensures Unscoped(h.vertices[m.id].props) && m.id !in StaleVertices(h, r)
  {
  }

  /** The first of a run's own writes stamps the edge, and the others keep it so. */
  lemma {:induction false} FreshEdge(was: Option<Edge>, ws: seq<EdgeMutation>, r: Reconcile) returns (m: EdgeMutation)
    requires ws != [] && (was.Some? ==> Older(was.value.version, ws[0].observedAt))
    requires forall m :: m in ws ==> Stamped(r, m.props)
    ensures m in ws && PutAll(was, ws).Some?
    ensures var e := PutAll(was, ws).value; Stamped(r, e.props) && e.version == Some(m.observedAt)
    decreases |ws|
  {
    var front, last := ws[..|ws| - 1], ws[|ws| - 1];
    assert last in ws;
    if front == [] {
      StampedStays(r, if was.Some? then was.value.props else map[], last.props);
      return last;
    }
    assert forall m :: m in front ==> m in ws;
    m := FreshEdge(was, front, r);
    var e := PutAll(was, front).value;
    if Older(e.version, last.observedAt) {
      StampedStays(r, e.props, last.props);
      m := last;
    }
  }

  lemma StampedStays(r: Reconcile, under: Props, over: Props)
    requires Stamped(r, over)
    ensures Stamped(r, under + over)
  {
    var p := under + over;
    assert forall key :: key in over ==> key in p && p[key] == over[key];
  }

  /** What one vertex id looks like after the run. */
  lemma VertexAfterRun(g: Store, h: Store, ns: seq<NodeMutation>, es: seq<EdgeMutation>, r: Reconcile, id: string)
    requires DistinctNodes(ns) && Delivered(g, h, ns, es)
    requires EmittedBy(r, ns, es) && OnlyOlderRuns(g, r) && NothingNewer(g, ns, es)
    ensures VertexConverged(g, Reconciled(h, r), ns, r, id)
  {
    PutNodesAt(g, ns, id);
    assert VertexAt(h, id) == VertexAt(PutNodes(g, ns), id);
    if m :| m in ns && m.id == id {
      EmittedVertexAfterRun(g, h, ns, es, r, m);
      forall m' | m' in ns && m'.id == id ensures m' == m { SameIdSame(ns, m, m'); }
    } else {
      assert VertexAt(h, id) == VertexAt(g, id);
    }
  }

  lemma EmittedVertexAfterRun(g: Store, h: Store, ns: seq<NodeMutation>, es: seq<EdgeMutation>, r: Reconcile, m: NodeMutation)
    requires DistinctNodes(ns) && m in ns && EmittedBy(r, ns, es) && NothingNewer(g, ns, es)
    requires VertexAt(h, m.id) == Some(PutVertex(VertexAt(g, m.id), m))
    ensures var f := Reconciled(h, r);
            && VertexAt(f, m.id) == Some(PutVertex(VertexAt(g, m.id), m))
            && (InScope(r, f.vertices[m.id].props) <==> Stamped(r, m.props))
  {
    if Stamped(r, m.props) { FreshVertex(g, h, m, r); } else { SharedVertex(g, h, m, r); }
  }

  /** An emitted edge that could be written carries the run's stamps. */
  lemma EmittedEdge(g: Store, h: Store, ns: seq<NodeMutation>, es: seq<EdgeMutation>, r: Reconcile, k: EdgeKey)
    requires Delivered(g, h, ns, es) && EmittedBy(r, ns, es) && NothingNewer(g, ns, es)
    requires Lists(es, k) && HasEndpoints(h, k)
    ensures Overwritten(g, h, es, k) && Stamped(r, h.edges[k].props)
    ensures exists m :: m in es && h.edges[k].version == Some(m.observedAt)
  {
    var a := PutNodes(g, ns);
    PutNodesKeepEdges(g, ns);
    var n :| n in es && n.key == k;
    assert EdgeDone(a, h, n) && EdgeReached(a, h, es, k);
    var ws :| WrittenBy(a, h, es, k, ws);
    assert EdgeAt(a, k) == EdgeAt(g, k);
    if ws == [] { assert false; }
    assert ws[0] in ws && WrittenBy(g, h, es, k, ws);
    var m := FreshEdge(EdgeAt(g, k), ws, r);
    forall m | m in es && m.key == k ensures !Older(h.edges[k].version, m.observedAt) { assert EdgeDone(a, h, m); }
  }

  /** What one edge key looks like after the run. */
  lemma EdgeAfterRun(g: Store, h: Store, ns: seq<NodeMutation>, es: seq<EdgeMutation>, r: Reconcile, k: EdgeKey)
    requires Delivered(g, h, ns, es) && NoDangling(g)
    requires EmittedBy(r, ns, es) && OnlyOlderRuns(g, r) && NothingNewer(g, ns, es)
    ensures var f := Reconciled(h, r);
            EdgeConverged(g, f, es, r, k) && (k in f.edges ==> HasEndpoints(f, k))
  {
    var f := Reconciled(h, r);
    DeliveredKeepsEndpoints(g, h, ns, es);
    var f1 := DropVertices(h, StaleVertices(h, r));
    assert f.vertices == f1.vertices;
    assert forall id :: id in f.vertices ==> id in h.vertices;
    assert k in f1.edges <==> k in h.edges && HasEndpoints(f, k);
    if Lists(es, k) {
      if HasEndpoints(f, k) {
        EmittedEdge(g, h, ns, es, r, k);
        assert EdgeAt(f, k) == EdgeAt(h, k);
        StillOverwritten(g, h, f, es, k);
      }
    } else {
      UnlistedEdge(g, h, ns, es, k);
    }
  }

  lemma StillOverwritten(g: Store, h: Store, f: Store, es: seq<EdgeMutation>, k: EdgeKey)
    requires Overwritten(g, h, es, k) && EdgeAt(f, k) == EdgeAt(h, k) && HasEndpoints(f, k)
    ensures Overwritten(g, f, es, k)
  {
    var ws :| ws != [] && WrittenBy(g, h, es, k, ws);
    assert WrittenBy(g, f, es, k, ws);
  }

  lemma UnlistedEdge(g: Store, h: Store, ns: seq<NodeMutation>, es: seq<EdgeMutation>, k: EdgeKey)
    requires Delivered(g, h, ns, es) && !Lists(es, k)
    ensures EdgeAt(h, k) == EdgeAt(g, k)
  {
    PutNodesKeepEdges(g, ns);
    assert EdgeReached(PutNodes(g, ns), h, es, k);
    var ws :| WrittenBy(PutNodes(g, ns), h, es, k, ws);
    WritesAreListed(es, k, ws);
  }

  lemma WritesAreListed(es: seq<EdgeMutation>, k: EdgeKey, ws: seq<EdgeMutation>)
    requires WritesOf(es, k, ws)
    ensures ws != [] ==> Lists(es, k)
  {
    if ws != [] { assert ws[0] in ws; }
  }

  /** Convergence: after a complete run that nobody else wrote beside, the scope holds exactly what
      the run emitted, and the rest of the graph is as before. */
  lemma CompleteRunConverges(g: Store, h: Store, ns: seq<NodeMutation>, es: seq<EdgeMutation>, r: Reconcile)
    requires DistinctNodes(ns) && Delivered(g, h, ns, es) && NoDangling(g)
    requires EmittedBy(r, ns, es) && OnlyOlderRuns(g, r) && NothingNewer(g, ns, es)
    ensures Converged(g, Reconciled(h, r), ns, es, r)
  {
    var f := Reconciled(h, r);
    forall id ensures VertexConverged(g, f, ns, r, id) { VertexAfterRun(g, h, ns, es, r, id); }
    forall k ensures EdgeConverged(g, f, es, r, k) && (k in f.edges ==> HasEndpoints(f, k)) {
      EdgeAfterRun(g, h, ns, es, r, k);
    }
  }

  /** Where the run's writes of a key have one date, what is left there is what one of them makes of it. */
  lemma ConvergedByOneWrite(g: Store, f: Store, ns: seq<NodeMutation>, es: seq<EdgeMutation>, r: Reconcile, k: EdgeKey)
    returns (m: EdgeMutation)
    requires Converged(g, f, ns, es, r) && Lists(es, k) && HasEndpoints(f, k)
    requires forall m, m' :: m in es && m' in es && m.key == k == m'.key ==> m.observedAt == m'.observedAt
    ensures m in es && m.key == k && EdgeAt(f, k) == Some(PutEdge(EdgeAt(g, k), m))
  {
    assert EdgeConverged(g, f, es, r, k);
    var ws :| ws != [] && WrittenBy(g, f, es, k, ws);
    m := ws[0];
    FirstDecides(EdgeAt(g, k), ws);
  }

  /** A converged scope is ready for its next run: a later reconcile under another run id finds
      only older runs there, so convergence holds run after run. */
  lemma ReadyForNextRun(g: Store, h: Store, ns: seq<NodeMutation>, es: seq<EdgeMutation>, r: Reconcile, next: Reconcile)
    requires DistinctNodes(ns) && Delivered(g, h, ns, es) && NoDangling(g)
    requires EmittedBy(r, ns, es) && OnlyOlderRuns(g, r) && NothingNewer(g, ns, es)
    requires next.scope == r.scope && next.accountId == r.accountId && next.region == r.region
    requires next.runId != r.runId
    requires forall m :: m in ns ==> m.observedAt < next.observedAt
    requires forall m :: m in es ==> m.observedAt < next.observedAt
    ensures OnlyOlderRuns(Reconciled(h, r), next)
  {
    var f := Reconciled(h, r);
    forall id | id in f.vertices && InScope(next, f.vertices[id].props)
      ensures Stale(next, f.vertices[id].props, f.vertices[id].version)
    {
      VertexAfterRun(g, h, ns, es, r, id);
      assert InScope(r, f.vertices[id].props);
      var m :| m in ns && m.id == id && Stamped(r, m.props);
      assert VertexAt(f, id) == Some(PutVertex(VertexAt(g, id), m));
    }
    forall k | k in f.edges && InScope(next, f.edges[k].props)
      ensures Stale(next, f.edges[k].props, f.edges[k].version)
    {
      EdgeAfterRun(g, h, ns, es, r, k);
      assert InScope(r, f.edges[k].props);
      EmittedEdge(g, h, ns, es, r, k);
      var m :| m in es && h.edges[k].version == Some(m.observedAt);
    }
  }
}
