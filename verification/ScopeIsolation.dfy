/** What a reconcile may touch, said of the stored properties themselves: a run removes what its own
    scope, account and region hold from older runs, and nothing of anyone else's. */
module ScopeIsolation {
  import opened Basics
  import opened GraphStore
  import opened EdgeWrites
  import opened GraphRepository
  import opened Convergence

  predicate Differs(props: Props, key: string, text: string) { key !in props || props[key] != Text(text) }

  predicate Equals(props: Props, key: string, text: string) { key in props && props[key] == Text(text) }

  /** Another scope's, another account's, or another region's. */
  predicate Elsewhere(r: Reconcile, props: Props) {
    || Differs(props, "collection_scope", r.scope)
    || (r.accountId.Some? && Differs(props, "account_id", r.accountId.value))
    || (r.region.Some? && Differs(props, "collection_region", r.region.value))
  }

  /** Seen by the run itself, or by nobody that says so. */
  predicate OfTheRun(r: Reconcile, props: Props) {
    "collection_run_id" !in props || props["collection_run_id"] == Text(r.runId)
  }

  predicate Recent(r: Reconcile, version: Option<int>) { version.None? || r.observedAt <= version.value }

  /** Nothing a reconcile may not select is selected. */
  lemma SelectedExactlyWhen(g: Store, r: Reconcile)
    ensures forall id :: id in g.vertices ==>
              (id in StaleVertices(g, r) <==>
                 !Elsewhere(r, g.vertices[id].props) && !OfTheRun(r, g.vertices[id].props) && !Recent(r, g.vertices[id].version))
    ensures forall k :: k in g.edges ==>
              (k in StaleEdges(g, r) <==>
                 !Elsewhere(r, g.edges[k].props) && !OfTheRun(r, g.edges[k].props) && !Recent(r, g.edges[k].version))
  {
  }

  /** However far a sweep came, a vertex of another scope, account or region is as it was; so is one the
      run saw, and one written since. */
  lemma VertexSpared(g: Store, h: Store, r: Reconcile, id: string)
    requires PartlyReconciled(g, h, r) && id in g.vertices
    requires var v := g.vertices[id]; Elsewhere(r, v.props) || OfTheRun(r, v.props) || Recent(r, v.version)
    ensures id in h.vertices && h.vertices[id] == g.vertices[id]
  {
    SelectedExactlyWhen(g, r);
    var ids, keys :| ReconciledPart(g, h, r, ids, keys);
  }

  /** So is an edge, as long as its endpoints stay. */
  lemma EdgeSpared(g: Store, h: Store, r: Reconcile, k: EdgeKey)
    requires PartlyReconciled(g, h, r) && NoDangling(g) && k in g.edges && k.from in h.vertices && k.to in h.vertices
    requires var e := g.edges[k]; Elsewhere(r, e.props) || OfTheRun(r, e.props) || Recent(r, e.version)
    ensures k in h.edges && h.edges[k] == g.edges[k]
  {
    var ids, keys :| ReconciledPart(g, h, r, ids, keys);
    SelectedExactlyWhen(DropVertices(g, ids), r);
  }

  /** A reconcile that meets no cap leaves no vertex of its own scope, account and region that another
      run wrote before it. */
  lemma VertexSweptExactlyWhen(g: Store, r: Reconcile, id: string)
    requires id in g.vertices
    ensures var v := g.vertices[id];
            id !in Reconciled(g, r).vertices
            <==> && Equals(v.props, "collection_scope", r.scope)
                 && (r.accountId.Some? ==> Equals(v.props, "account_id", r.accountId.value))
                 && (r.region.Some? ==> Equals(v.props, "collection_region", r.region.value))
                 && "collection_run_id" in v.props && v.props["collection_run_id"] != Text(r.runId)
                 && v.version.Some? && v.version.value < r.observedAt
  {
    SelectedExactlyWhen(g, r);
  }

  /** Nor such an edge, and beside them only edges that lost an endpoint go. */
  lemma EdgeSweptExactlyWhen(g: Store, r: Reconcile, k: EdgeKey)
    requires k in g.edges && NoDangling(g)
    ensures var e := g.edges[k];
            k !in Reconciled(g, r).edges
            <==> || k.from !in Reconciled(g, r).vertices || k.to !in Reconciled(g, r).vertices
                 || (&& Equals(e.props, "collection_scope", r.scope)
                     && (r.accountId.Some? ==> Equals(e.props, "account_id", r.accountId.value))
                     && (r.region.Some? ==> Equals(e.props, "collection_region", r.region.value))
                     && "collection_run_id" in e.props && e.props["collection_run_id"] != Text(r.runId)
                     && e.version.Some? && e.version.value < r.observedAt)
  {
    assert HasEndpoints(g, k);
    SelectedExactlyWhen(DropVertices(g, StaleVertices(g, r)), r);
  }

  // ----- a whole run

  /** Parts of a delivery touch no vertex that the run does not write. */
  lemma UnwrittenVertex(g: Store, h: Store, ns: seq<NodeMutation>, es: seq<EdgeMutation>, id: string)
    requires PartlyDelivered(g, h, ns, es) && forall m :: m in ns ==> m.id != id
    ensures VertexAt(h, id) == VertexAt(g, id)
  {
  }

  lemma UnwrittenEdge(g: Store, h: Store, ns: seq<NodeMutation>, es: seq<EdgeMutation>, k: EdgeKey)
    requires PartlyDelivered(g, h, ns, es) && forall m :: m in es ==> m.key != k
    ensures EdgeAt(h, k) == EdgeAt(g, k)
  {
    assert EdgeReached(g, h, es, k);
    var ws :| WrittenBy(g, h, es, k, ws);
    WritesAreListed(es, k, ws);
  }

  /** However far a run came, a vertex it did not emit and that is not of its scope, account and region is
      as it was. */
  lemma OtherVertexUntouched(g: Store, h: Store, f: Store, ns: seq<NodeMutation>, es: seq<EdgeMutation>, r: Reconcile, id: string)
    requires PartlyDelivered(g, h, ns, es) && PartlyReconciled(h, f, r)
    requires id in g.vertices && Elsewhere(r, g.vertices[id].props) && forall m :: m in ns ==> m.id != id
    ensures id in f.vertices && f.vertices[id] == g.vertices[id]
  {
    UnwrittenVertex(g, h, ns, es, id);
    assert VertexAt(h, id) == Some(g.vertices[id]);
    VertexSpared(h, f, r, id);
  }

  /** And so is an edge, as long as its endpoints stay. */
  lemma OtherEdgeUntouched(g: Store, h: Store, f: Store, ns: seq<NodeMutation>, es: seq<EdgeMutation>, r: Reconcile, k: EdgeKey)
    requires PartlyDelivered(g, h, ns, es) && PartlyReconciled(h, f, r) && NoDangling(h)
    requires k in g.edges && Elsewhere(r, g.edges[k].props) && forall m :: m in es ==> m.key != k
    requires k.from in f.vertices && k.to in f.vertices
    ensures k in f.edges && f.edges[k] == g.edges[k]
  {
    UnwrittenEdge(g, h, ns, es, k);
    assert EdgeAt(h, k) == Some(g.edges[k]);
    EdgeSpared(h, f, r, k);
  }

  /** A complete run leaves nothing of an older run in its scope, account and region that it did not emit. */
  lemma OldVertexGone(g: Store, h: Store, ns: seq<NodeMutation>, es: seq<EdgeMutation>, r: Reconcile, id: string)
    requires PartlyDelivered(g, h, ns, es) && id in g.vertices && forall m :: m in ns ==> m.id != id
    requires var v := g.vertices[id];
             && Equals(v.props, "collection_scope", r.scope)
             && (r.accountId.Some? ==> Equals(v.props, "account_id", r.accountId.value))
             && (r.region.Some? ==> Equals(v.props, "collection_region", r.region.value))
             && "collection_run_id" in v.props && v.props["collection_run_id"] != Text(r.runId)
             && v.version.Some? && v.version.value < r.observedAt
    ensures id !in Reconciled(h, r).vertices
  {
    UnwrittenVertex(g, h, ns, es, id);
    assert VertexAt(h, id) == Some(g.vertices[id]);
    VertexSweptExactlyWhen(h, r, id);
  }
}
