/** Exactly when a run's reconcile is safe from the other writers: which of their operations can make
    it select an element that was stored at or after the reconcile's own time. */
module ReconcileSafety {
  import opened Basics
  import opened GraphStore

  // ----- what staleness looks at

  predicate SameStamps(p: Props, q: Props) {
    forall key :: key in {"collection_scope", "account_id", "collection_region", "collection_run_id"} ==>
      (key in p <==> key in q) && (key in p ==> p[key] == q[key])
  }

  /** Carries all four stamps of a collection run. */
  predicate Stamped(p: Props) {
    "collection_scope" in p && "account_id" in p && "collection_region" in p && "collection_run_id" in p
  }

  lemma StaleByStamps(r: Reconcile, p: Props, q: Props, version: Option<int>)
    requires SameStamps(p, q)
    ensures Stale(r, p, version) <==> Stale(r, q, version)
  {
    assert forall key, text :: key in {"collection_scope", "account_id", "collection_region"} ==> (HasText(p, key, text) <==> HasText(q, key, text));
  }

  /** The operations other writers have in hand: each may happen any number of times, in any order. */
  datatype Others = Others(nodes: set<NodeMutation>, edges: set<EdgeMutation>, reconciles: set<Reconcile>)

  predicate Theirs(s: Step, o: Others) {
    match s
    case PutNodeStep(m) => m in o.nodes
    case PutEdgeStep(m) => m in o.edges
    case SweepVertices(r, _) => r in o.reconciles
    case SweepEdges(r, _) => r in o.reconciles
  }

  predicate AllTheirs(steps: seq<Step>, o: Others) {
    forall s :: s in steps ==> Theirs(s, o)
  }

  // ----- one vertex

  /** Writers either all stamp the vertex, or all leave it without a scope, as shared vertices are. */
  predicate StampedAlike(v: Vertex, id: string, o: Others) {
    || (Stamped(v.props) && forall m :: m in o.nodes && m.id == id ==> Stamped(m.props))
    || ("collection_scope" !in v.props && forall m :: m in o.nodes && m.id == id ==> "collection_scope" !in m.props)
  }

  predicate NewerWrite(v: Vertex, m: NodeMutation, id: string) {
    m.id == id && Older(v.version, m.observedAt)
  }

  /** Some reconcile is later than the stored vertex, or than a newer write of it, and in its scope. */
  predicate CanBeSwept(v: Vertex, id: string, o: Others) {
    exists q :: q in o.reconciles &&
      (Stale(q, v.props, v.version) || exists m :: m in o.nodes && NewerWrite(v, m, id) && Stale(q, m.props, Some(m.observedAt)))
  }

  predicate HasStaleWrite(id: string, o: Others, r: Reconcile) {
    exists m :: m in o.nodes && m.id == id && Stale(r, m.props, Some(m.observedAt))
  }

  /** The vertex has the stamps and version of a write. */
  predicate IsAsWritten(v: Vertex, m: NodeMutation) {
    v.version == Some(m.observedAt) && SameStamps(v.props, m.props)
  }

  /** The vertex as stored, or as some newer write left it; a vertex without a scope stays so. */
  predicate NeverSwept(v: Vertex, id: string, o: Others, now: Vertex) {
    if "collection_scope" !in v.props then "collection_scope" !in now.props
    else now == v || exists m :: m in o.nodes && NewerWrite(v, m, id) && IsAsWritten(now, m)
  }

  lemma WrittenOver(v: Vertex, m: NodeMutation)
    requires Stamped(m.props) && Older(v.version, m.observedAt)
    ensures IsAsWritten(PutVertex(Some(v), m), m)
  {
  }

  lemma SweepNeedsStale(v: Vertex, id: string, o: Others, now: Vertex, q: Reconcile)
    requires NeverSwept(v, id, o, now) && q in o.reconciles && Stale(q, now.props, now.version)
    ensures CanBeSwept(v, id, o)
  {
    if now != v {
      var m :| m in o.nodes && NewerWrite(v, m, id) && IsAsWritten(now, m);
      StaleByStamps(q, now.props, m.props, now.version);
    }
  }

  /** One step on a vertex nobody can sweep. */
  lemma UnsweptStep(g: Store, v: Vertex, id: string, o: Others, s: Step)
    requires StampedAlike(v, id, o) && Theirs(s, o) && Enabled(g, s) && !CanBeSwept(v, id, o)
    requires id in g.vertices && NeverSwept(v, id, o, g.vertices[id])
    ensures id in Apply(g, s).vertices && NeverSwept(v, id, o, Apply(g, s).vertices[id])
  {
    var now := g.vertices[id];
    match s
    case PutNodeStep(m) =>
      if m.id == id && Older(now.version, m.observedAt) && "collection_scope" in v.props {
        WrittenOver(now, m);
        assert NewerWrite(v, m, id);
      }
    case SweepVertices(q, ids) =>
      if id in ids { SweepNeedsStale(v, id, o, now, q); }
    case _ =>
  }

  lemma {:induction false} UnsweptRun(g: Store, v: Vertex, id: string, o: Others, steps: seq<Step>)
    requires StampedAlike(v, id, o) && AllTheirs(steps, o) && AllEnabled(g, steps) && !CanBeSwept(v, id, o)
    requires id in g.vertices && NeverSwept(v, id, o, g.vertices[id])
    ensures id in Run(g, steps).vertices && NeverSwept(v, id, o, Run(g, steps).vertices[id])
    decreases |steps|
  {
    if steps != [] {
      assert Theirs(steps[0], o);
      UnsweptStep(g, v, id, o, steps[0]);
      UnsweptRun(Apply(g, steps[0]), v, id, o, steps[1..]);
    }
  }

  lemma FreshStays(v: Vertex, id: string, o: Others, now: Vertex, r: Reconcile)
    requires NeverSwept(v, id, o, now) && NotBefore(v.version, r.observedAt)
    ensures !Stale(r, now.props, now.version)
  {
  }

  /** If present: not before the reconcile, or without a scope, or as one of the writes. */
  predicate OnlyWrites(id: string, o: Others, r: Reconcile, g: Store) {
    id in g.vertices ==>
      var now := g.vertices[id];
      NotBefore(now.version, r.observedAt) || "collection_scope" !in now.props
      || exists m :: m in o.nodes && m.id == id && IsAsWritten(now, m)
  }

  lemma OnlyWritesStep(g: Store, v: Vertex, id: string, o: Others, r: Reconcile, s: Step)
    requires StampedAlike(v, id, o) && Theirs(s, o) && OnlyWrites(id, o, r, g)
    requires Unscoped(v, id, o, g)
    ensures OnlyWrites(id, o, r, Apply(g, s)) && Unscoped(v, id, o, Apply(g, s))
  {
    if s.PutNodeStep? && s.node.id == id && "collection_scope" in v.props {
      if id in g.vertices && Older(g.vertices[id].version, s.node.observedAt) { WrittenOver(g.vertices[id], s.node); }
    }
  }

  /** A vertex that started without a scope never has one. */
  predicate Unscoped(v: Vertex, id: string, o: Others, g: Store) {
    "collection_scope" !in v.props && id in g.vertices ==> "collection_scope" !in g.vertices[id].props
  }

  lemma {:induction false} OnlyWritesRun(g: Store, v: Vertex, id: string, o: Others, r: Reconcile, steps: seq<Step>)
    requires StampedAlike(v, id, o) && AllTheirs(steps, o) && OnlyWrites(id, o, r, g) && Unscoped(v, id, o, g)
    ensures OnlyWrites(id, o, r, Run(g, steps))
    decreases |steps|
  {
    if steps != [] {
      assert Theirs(steps[0], o);
      OnlyWritesStep(g, v, id, o, r, steps[0]);
      OnlyWritesRun(Apply(g, steps[0]), v, id, o, r, steps[1..]);
    }
  }

  lemma OnlyStaleWritesAreStale(id: string, o: Others, r: Reconcile, g: Store)
    requires OnlyWrites(id, o, r, g) && id in StaleVertices(g, r)
    ensures HasStaleWrite(id, o, r)
  {
    var now := g.vertices[id];
    var m :| m in o.nodes && m.id == id && IsAsWritten(now, m);
    StaleByStamps(r, now.props, m.props, now.version);
  }

  /** In no interleaving of the others' operations does the reconcile select the vertex. */
  ghost predicate VertexIsSafe(g: Store, id: string, o: Others, r: Reconcile) {
    forall steps :: AllTheirs(steps, o) && AllEnabled(g, steps) ==> id !in StaleVertices(Run(g, steps), r)
  }

  lemma RunTwo(g: Store, s: Step, t: Step)
    ensures Run(g, [s, t]) == Apply(Apply(g, s), t)
    ensures AllEnabled(g, [s, t]) <==> Enabled(g, s) && Enabled(Apply(g, s), t)
  {
    var h := Apply(g, s);
    assert [s, t][1..] == [t] && [t][1..] == [];
    assert Run(h, [t]) == Run(Apply(h, t), []) == Apply(h, t);
    assert AllEnabled(h, [t]) == Enabled(h, t);
  }

  /** The vertex gone, by one or two steps. */
  lemma SweptOnce(g: Store, id: string, o: Others) returns (steps: seq<Step>)
    requires id in g.vertices && StampedAlike(g.vertices[id], id, o) && CanBeSwept(g.vertices[id], id, o)
    ensures AllTheirs(steps, o) && AllEnabled(g, steps)
    ensures Run(g, steps).vertices == g.vertices - {id}
    ensures forall k :: k in Run(g, steps).edges <==> k in g.edges && k.from != id && k.to != id
  {
    var v := g.vertices[id];
    var q :| q in o.reconciles &&
      (Stale(q, v.props, v.version) || exists m :: m in o.nodes && NewerWrite(v, m, id) && Stale(q, m.props, Some(m.observedAt)));
    var sweep := SweepVertices(q, {id});
    if Stale(q, v.props, v.version) {
      steps := [sweep];
      LastStep(g, [], sweep);
      assert [] + [sweep] == steps && Run(g, []) == g;
    } else {
      var m :| m in o.nodes && NewerWrite(v, m, id) && Stale(q, m.props, Some(m.observedAt));
      var put := PutNodeStep(m);
      var h := Apply(g, put);
      WrittenOver(v, m);
      StaleByStamps(q, h.vertices[id].props, m.props, Some(m.observedAt));
      steps := [put, sweep];
      RunTwo(g, put, sweep);
      assert h.vertices - {id} == g.vertices - {id};
    }
  }

  /** Exactly when a vertex stored at or after a reconcile's time is safe from that reconcile: unless
      the others hold both a reconcile that can remove it and a write of it that is stale. */
  lemma VertexSafeExactlyWhen(g: Store, id: string, o: Others, r: Reconcile)
    requires id in g.vertices && NotBefore(g.vertices[id].version, r.observedAt)
    requires StampedAlike(g.vertices[id], id, o)
    ensures VertexIsSafe(g, id, o, r) <==> !(CanBeSwept(g.vertices[id], id, o) && HasStaleWrite(id, o, r))
  {
    var v := g.vertices[id];
    if CanBeSwept(v, id, o) && HasStaleWrite(id, o, r) {
      var m :| m in o.nodes && m.id == id && Stale(r, m.props, Some(m.observedAt));
      var steps := SweptOnce(g, id, o);
      var put := PutNodeStep(m);
      LastStep(g, steps, put);
      assert AllTheirs(steps + [put], o) && AllEnabled(g, steps + [put]);
      assert id in StaleVertices(Run(g, steps + [put]), r);
    } else {
      forall steps | AllTheirs(steps, o) && AllEnabled(g, steps) ensures id !in StaleVertices(Run(g, steps), r) {
        if CanBeSwept(v, id, o) {
          OnlyWritesRun(g, v, id, o, r, steps);
          if id in StaleVertices(Run(g, steps), r) { OnlyStaleWritesAreStale(id, o, r, Run(g, steps)); }
        } else {
          UnsweptRun(g, v, id, o, steps);
          FreshStays(v, id, o, Run(g, steps).vertices[id], r);
        }
      }
    }
  }

  /** For a vertex a run wrote itself: when the write took effect, its own stamps and time decide. */
  lemma OwnWritesSafeExactlyWhen(g: Store, m: NodeMutation, o: Others, r: Reconcile)
    requires m.observedAt >= r.observedAt && Stamped(m.props)
    requires m.id in g.vertices ==> Older(g.vertices[m.id].version, m.observedAt)
    requires forall w :: w in o.nodes && w.id == m.id ==> Stamped(w.props)
    ensures VertexIsSafe(UpsertNode(g, m), m.id, o, r)
       <==> !(HasStaleWrite(m.id, o, r)
              && exists q :: q in o.reconciles &&
                   (Stale(q, m.props, Some(m.observedAt))
                    || exists w :: w in o.nodes && w.id == m.id && w.observedAt > m.observedAt && Stale(q, w.props, Some(w.observedAt))))
  {
    var v := UpsertNode(g, m).vertices[m.id];
    if m.id in g.vertices { WrittenOver(g.vertices[m.id], m); }
    assert IsAsWritten(v, m);
    forall q ensures Stale(q, v.props, v.version) <==> Stale(q, m.props, Some(m.observedAt)) { StaleByStamps(q, v.props, m.props, v.version); }
    assert forall w :: NewerWrite(v, w, m.id) <==> w.id == m.id && w.observedAt > m.observedAt;
    VertexSafeExactlyWhen(UpsertNode(g, m), m.id, o, r);
  }

  // ----- one edge

  predicate EdgeStamped(e: Edge, key: EdgeKey, o: Others) {
    Stamped(e.props) && forall m :: m in o.edges && m.key == key ==> Stamped(m.props)
  }

  predicate NewerEdgeWrite(e: Edge, m: EdgeMutation, key: EdgeKey) {
    m.key == key && Older(e.version, m.observedAt)
  }

  predicate EdgeCanBeSwept(e: Edge, key: EdgeKey, o: Others) {
    exists q :: q in o.reconciles &&
      (Stale(q, e.props, e.version) || exists m :: m in o.edges && NewerEdgeWrite(e, m, key) && Stale(q, m.props, Some(m.observedAt)))
  }

  predicate HasStaleEdgeWrite(key: EdgeKey, o: Others, r: Reconcile) {
    exists m :: m in o.edges && m.key == key && Stale(r, m.props, Some(m.observedAt))
  }

  predicate Rewritten(id: string, o: Others) { exists m :: m in o.nodes && m.id == id }

  /** The others can remove the endpoint, its edges with it, and write it again. */
  predicate CanBounce(g: Store, id: string, o: Others) {
    id in g.vertices && CanBeSwept(g.vertices[id], id, o) && Rewritten(id, o)
  }

  predicate EdgeAsWritten(e: Edge, m: EdgeMutation) {
    e.version == Some(m.observedAt) && SameStamps(e.props, m.props)
  }

  predicate EdgeNeverSwept(e: Edge, key: EdgeKey, o: Others, now: Edge) {
    now == e || exists m :: m in o.edges && NewerEdgeWrite(e, m, key) && EdgeAsWritten(now, m)
  }

  lemma EdgeWrittenOver(e: Edge, m: EdgeMutation)
    requires Stamped(m.props) && Older(e.version, m.observedAt)
    ensures EdgeAsWritten(PutEdge(Some(e), m), m)
  {
  }

  lemma EdgeSweepNeedsStale(e: Edge, key: EdgeKey, o: Others, now: Edge, q: Reconcile)
    requires EdgeNeverSwept(e, key, o, now) && q in o.reconciles && Stale(q, now.props, now.version)
    ensures EdgeCanBeSwept(e, key, o)
  {
    if now != e {
      var m :| m in o.edges && NewerEdgeWrite(e, m, key) && EdgeAsWritten(now, m);
      StaleByStamps(q, now.props, m.props, now.version);
    }
  }

  /** An endpoint that nobody can sweep is there; of one that can be, nothing is asked. */
  predicate EndpointKept(v: Vertex, id: string, o: Others, g: Store) {
    !CanBeSwept(v, id, o) ==> id in g.vertices && NeverSwept(v, id, o, g.vertices[id])
  }

  /** Gone for good. */
  predicate LeftForGood(id: string, o: Others, g: Store) { id !in g.vertices && !Rewritten(id, o) }

  /** The edge was never swept, or it went with an endpoint that nobody writes again. */
  predicate EdgeKept(e: Edge, key: EdgeKey, o: Others, g: Store) {
    if key in g.edges then EdgeNeverSwept(e, key, o, g.edges[key])
    else LeftForGood(key.from, o, g) || LeftForGood(key.to, o, g)
  }

  predicate Guarded(v: Vertex, id: string, o: Others) { StampedAlike(v, id, o) && !(CanBeSwept(v, id, o) && Rewritten(id, o)) }

  lemma EndpointStep(g: Store, v: Vertex, id: string, o: Others, s: Step)
    requires Guarded(v, id, o) && Theirs(s, o) && Enabled(g, s) && EndpointKept(v, id, o, g)
    ensures EndpointKept(v, id, o, Apply(g, s))
  {
    if !CanBeSwept(v, id, o) { UnsweptStep(g, v, id, o, s); }
  }

  /** A sweep that takes a guarded endpoint takes it for good. */
  lemma EndpointLeaves(g: Store, v: Vertex, id: string, o: Others, q: Reconcile, ids: set<string>)
    requires Guarded(v, id, o) && q in o.reconciles && ids <= StaleVertices(g, q) && EndpointKept(v, id, o, g) && id in ids
    ensures LeftForGood(id, o, DropVertices(g, ids))
  {
    if !CanBeSwept(v, id, o) { SweepNeedsStale(v, id, o, g.vertices[id], q); }
  }

  lemma EdgeStep(g: Store, from: Vertex, to: Vertex, e: Edge, key: EdgeKey, o: Others, s: Step)
    requires Guarded(from, key.from, o) && Guarded(to, key.to, o) && EdgeStamped(e, key, o) && !EdgeCanBeSwept(e, key, o)
    requires Theirs(s, o) && Enabled(g, s)
    requires EndpointKept(from, key.from, o, g) && EndpointKept(to, key.to, o, g) && EdgeKept(e, key, o, g)
    ensures EdgeKept(e, key, o, Apply(g, s))
  {
    match s
    case PutNodeStep(_) =>
    case PutEdgeStep(m) =>
      if m.key == key && key in g.edges && Older(g.edges[key].version, m.observedAt) {
        EdgeWrittenOver(g.edges[key], m);
        assert NewerEdgeWrite(e, m, key);
      }
    case SweepVertices(q, ids) =>
      if key.from in ids { EndpointLeaves(g, from, key.from, o, q, ids); }
      if key.to in ids { EndpointLeaves(g, to, key.to, o, q, ids); }
    case SweepEdges(q, keys) =>
      if key in keys { EdgeSweepNeedsStale(e, key, o, g.edges[key], q); }
  }

  lemma {:induction false} EdgeRun(g: Store, from: Vertex, to: Vertex, e: Edge, key: EdgeKey, o: Others, steps: seq<Step>)
    requires Guarded(from, key.from, o) && Guarded(to, key.to, o) && EdgeStamped(e, key, o) && !EdgeCanBeSwept(e, key, o)
    requires AllTheirs(steps, o) && AllEnabled(g, steps)
    requires EndpointKept(from, key.from, o, g) && EndpointKept(to, key.to, o, g) && EdgeKept(e, key, o, g)
    ensures EdgeKept(e, key, o, Run(g, steps))
    decreases |steps|
  {
    if steps != [] {
      assert Theirs(steps[0], o);
      EdgeStep(g, from, to, e, key, o, steps[0]);
      EndpointStep(g, from, key.from, o, steps[0]);
      EndpointStep(g, to, key.to, o, steps[0]);
      EdgeRun(Apply(g, steps[0]), from, to, e, key, o, steps[1..]);
    }
  }

  predicate OnlyEdgeWrites(key: EdgeKey, o: Others, r: Reconcile, g: Store) {
    key in g.edges ==>
      NotBefore(g.edges[key].version, r.observedAt) || exists m :: m in o.edges && m.key == key && EdgeAsWritten(g.edges[key], m)
  }

  lemma {:induction false} OnlyEdgeWritesRun(g: Store, e: Edge, key: EdgeKey, o: Others, r: Reconcile, steps: seq<Step>)
    requires EdgeStamped(e, key, o) && AllTheirs(steps, o) && OnlyEdgeWrites(key, o, r, g)
    ensures OnlyEdgeWrites(key, o, r, Run(g, steps))
    decreases |steps|
  {
    if steps != [] {
      assert Theirs(steps[0], o);
      OnlyEdgeWritesStep(g, e, key, o, r, steps[0]);
      OnlyEdgeWritesRun(Apply(g, steps[0]), e, key, o, r, steps[1..]);
    }
  }

  lemma OnlyEdgeWritesStep(g: Store, e: Edge, key: EdgeKey, o: Others, r: Reconcile, s: Step)
    requires EdgeStamped(e, key, o) && Theirs(s, o) && OnlyEdgeWrites(key, o, r, g)
    ensures OnlyEdgeWrites(key, o, r, Apply(g, s))
  {
    if s.PutEdgeStep? && s.edge.key == key && key in g.edges && Older(g.edges[key].version, s.edge.observedAt) {
      EdgeWrittenOver(g.edges[key], s.edge);
    }
  }

  ghost predicate EdgeIsSafe(g: Store, key: EdgeKey, o: Others, r: Reconcile) {
    forall steps :: AllTheirs(steps, o) && AllEnabled(g, steps) ==> key !in StaleEdges(Run(g, steps), r)
  }

  /** The edge gone and both endpoints there. */
  lemma EdgeGone(g: Store, key: EdgeKey, o: Others) returns (steps: seq<Step>)
    requires key in g.edges && HasEndpoints(g, key) && EdgeStamped(g.edges[key], key, o)
    requires StampedAlike(g.vertices[key.from], key.from, o) && StampedAlike(g.vertices[key.to], key.to, o)
    requires EdgeCanBeSwept(g.edges[key], key, o) || CanBounce(g, key.from, o) || CanBounce(g, key.to, o)
    ensures AllTheirs(steps, o) && AllEnabled(g, steps)
    ensures key !in Run(g, steps).edges && HasEndpoints(Run(g, steps), key)
  {
    if EdgeCanBeSwept(g.edges[key], key, o) {
      steps := EdgeSweptOnce(g, key, o);
    } else if CanBounce(g, key.from, o) {
      steps := Bounced(g, key.from, o);
    } else {
      steps := Bounced(g, key.to, o);
    }
  }

  lemma Bounced(g: Store, id: string, o: Others) returns (steps: seq<Step>)
    requires CanBounce(g, id, o) && StampedAlike(g.vertices[id], id, o)
    ensures AllTheirs(steps, o) && AllEnabled(g, steps)
    ensures Run(g, steps).vertices.Keys == g.vertices.Keys
    ensures forall k :: k in Run(g, steps).edges ==> k.from != id && k.to != id
  {
    var first := SweptOnce(g, id, o);
    var m :| m in o.nodes && m.id == id;
    steps := first + [PutNodeStep(m)];
    LastStep(g, first, PutNodeStep(m));
    assert g.vertices.Keys - {id} + {id} == g.vertices.Keys;
  }

  lemma LastStep(g: Store, first: seq<Step>, s: Step)
    ensures Run(g, first + [s]) == Apply(Run(g, first), s)
    ensures AllEnabled(g, first + [s]) <==> AllEnabled(g, first) && Enabled(Run(g, first), s)
  {
    var h := Run(g, first);
    RunConcat(g, first, [s]);
    assert [s][1..] == [];
    assert Run(h, [s]) == Run(Apply(h, s), []) == Apply(h, s);
    assert AllEnabled(h, [s]) == Enabled(h, s);
  }

  lemma EdgeSweptOnce(g: Store, key: EdgeKey, o: Others) returns (steps: seq<Step>)
    requires key in g.edges && EdgeStamped(g.edges[key], key, o) && EdgeCanBeSwept(g.edges[key], key, o)
    ensures AllTheirs(steps, o) && AllEnabled(g, steps)
    ensures key !in Run(g, steps).edges && Run(g, steps).vertices == g.vertices
  {
    var e := g.edges[key];
    var q :| q in o.reconciles &&
      (Stale(q, e.props, e.version) || exists m :: m in o.edges && NewerEdgeWrite(e, m, key) && Stale(q, m.props, Some(m.observedAt)));
    var sweep := SweepEdges(q, {key});
    if Stale(q, e.props, e.version) {
      steps := [sweep];
      LastStep(g, [], sweep);
      assert [] + [sweep] == steps && Run(g, []) == g;
    } else {
      var m :| m in o.edges && NewerEdgeWrite(e, m, key) && Stale(q, m.props, Some(m.observedAt));
      var put := PutEdgeStep(m);
      EdgeWrittenOver(e, m);
      StaleByStamps(q, Apply(g, put).edges[key].props, m.props, Some(m.observedAt));
      steps := [put, sweep];
      RunTwo(g, put, sweep);
    }
  }

  /** Exactly when an edge stored at or after a reconcile's time is safe from it: unless the others
      hold a stale write of it, and can remove it by a sweep of its own or by making an endpoint go
      and come back. */
  lemma EdgeSafeExactlyWhen(g: Store, key: EdgeKey, o: Others, r: Reconcile)
    requires key in g.edges && HasEndpoints(g, key) && NotBefore(g.edges[key].version, r.observedAt)
    requires EdgeStamped(g.edges[key], key, o)
    requires StampedAlike(g.vertices[key.from], key.from, o) && StampedAlike(g.vertices[key.to], key.to, o)
    ensures EdgeIsSafe(g, key, o, r)
       <==> !(HasStaleEdgeWrite(key, o, r)
              && (EdgeCanBeSwept(g.edges[key], key, o) || CanBounce(g, key.from, o) || CanBounce(g, key.to, o)))
  {
    var e, from, to := g.edges[key], g.vertices[key.from], g.vertices[key.to];
    if !HasStaleEdgeWrite(key, o, r) {
      forall steps | AllTheirs(steps, o) && AllEnabled(g, steps) ensures key !in StaleEdges(Run(g, steps), r) {
        OnlyEdgeWritesRun(g, e, key, o, r, steps);
        NoStaleEdge(key, o, r, Run(g, steps));
      }
    } else if EdgeCanBeSwept(e, key, o) || CanBounce(g, key.from, o) || CanBounce(g, key.to, o) {
      EdgeUnsafe(g, key, o, r);
    } else {
      forall steps | AllTheirs(steps, o) && AllEnabled(g, steps) ensures key !in StaleEdges(Run(g, steps), r) {
        EdgeRun(g, from, to, e, key, o, steps);
      }
    }
  }

  lemma NoStaleEdge(key: EdgeKey, o: Others, r: Reconcile, h: Store)
    requires OnlyEdgeWrites(key, o, r, h) && !HasStaleEdgeWrite(key, o, r)
    ensures key !in StaleEdges(h, r)
  {
    if key in StaleEdges(h, r) {
      var now := h.edges[key];
      var m :| m in o.edges && m.key == key && EdgeAsWritten(now, m);
      StaleByStamps(r, now.props, m.props, now.version);
    }
  }

  lemma EdgeUnsafe(g: Store, key: EdgeKey, o: Others, r: Reconcile)
    requires key in g.edges && HasEndpoints(g, key) && EdgeStamped(g.edges[key], key, o) && HasStaleEdgeWrite(key, o, r)
    requires StampedAlike(g.vertices[key.from], key.from, o) && StampedAlike(g.vertices[key.to], key.to, o)
    requires EdgeCanBeSwept(g.edges[key], key, o) || CanBounce(g, key.from, o) || CanBounce(g, key.to, o)
    ensures !EdgeIsSafe(g, key, o, r)
  {
    var m :| m in o.edges && m.key == key && Stale(r, m.props, Some(m.observedAt));
    var first := EdgeGone(g, key, o);
    LastStep(g, first, PutEdgeStep(m));
    assert AllTheirs(first + [PutEdgeStep(m)], o);
    assert Run(g, first + [PutEdgeStep(m)]).edges[key] == Edge(m.props, Some(m.observedAt));
  }
}
