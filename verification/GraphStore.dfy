/** The resource graph as a value, the versioned upserts and stale drops that change it,
    and what holds over every interleaving of such steps. */
module GraphStore {
  import opened Basics

  datatype Value = Text(text: string) | Number(number: int) | Flag(flag: bool)

  type Props = map<string, Value>

  /** `version` is the source_updated_at stamp; an element written by someone else may lack it. */
  datatype Vertex = Vertex(labelName: string, props: Props, version: Option<int>)

  datatype Edge = Edge(props: Props, version: Option<int>)

  /** Stands for the hash of label, source and target that is an edge's id. */
  datatype EdgeKey = EdgeKey(labelName: string, from: string, to: string)

  datatype Store = Store(vertices: map<string, Vertex>, edges: map<EdgeKey, Edge>)

  datatype NodeMutation = NodeMutation(id: string, labelName: string, props: Props, clear: set<string>, observedAt: int)

  datatype EdgeMutation = EdgeMutation(key: EdgeKey, props: Props, observedAt: int)

  datatype Reconcile = Reconcile(scope: string, runId: string, observedAt: int,
                                 accountId: Option<string>, region: Option<string>)

  // ----- single steps

  predicate Older(version: Option<int>, observedAt: int) {
    version.None? || version.value < observedAt
  }

  function VertexAt(g: Store, id: string): Option<Vertex> {
    if id in g.vertices then Some(g.vertices[id]) else None
  }

  function EdgeAt(g: Store, key: EdgeKey): Option<Edge> {
    if key in g.edges then Some(g.edges[key]) else None
  }

  /** The vertex one upsert leaves: created, refreshed when the write is newer, else untouched. */
  function PutVertex(was: Option<Vertex>, m: NodeMutation): Vertex {
    match was
    case None => Vertex(m.labelName, m.props, Some(m.observedAt))
    case Some(v) =>
      if Older(v.version, m.observedAt) then Vertex(v.labelName, (v.props - m.clear) + m.props, Some(m.observedAt))
      else v
  }

  function PutEdge(was: Option<Edge>, m: EdgeMutation): Edge {
    match was
    case None => Edge(m.props, Some(m.observedAt))
    case Some(e) => if Older(e.version, m.observedAt) then Edge(e.props + m.props, Some(m.observedAt)) else e
  }

  function UpsertNode(g: Store, m: NodeMutation): Store {
    g.(vertices := g.vertices[m.id := PutVertex(VertexAt(g, m.id), m)])
  }

  predicate HasEndpoints(g: Store, key: EdgeKey) {
    key.from in g.vertices && key.to in g.vertices
  }

  /** An edge that does not exist yet and lacks an endpoint is skipped. */
  function UpsertEdge(g: Store, m: EdgeMutation): Store {
    if m.key in g.edges || HasEndpoints(g, m.key) then
      g.(edges := g.edges[m.key := PutEdge(EdgeAt(g, m.key), m)])
    else g
  }

  predicate HasText(props: Props, key: string, text: string) {
    key in props && props[key] == Text(text)
  }

  predicate InScope(r: Reconcile, props: Props) {
    && HasText(props, "collection_scope", r.scope)
    && (r.accountId.Some? ==> HasText(props, "account_id", r.accountId.value))
    && (r.region.Some? ==> HasText(props, "collection_region", r.region.value))
  }

  /** In scope, stamped by another run, and stamped before the reconcile. */
  predicate Stale(r: Reconcile, props: Props, version: Option<int>) {
    && InScope(r, props)
    && "collection_run_id" in props && props["collection_run_id"] != Text(r.runId)
    && version.Some? && version.value < r.observedAt
  }

  function StaleVertices(g: Store, r: Reconcile): set<string> {
    set id | id in g.vertices && Stale(r, g.vertices[id].props, g.vertices[id].version)
  }

  function StaleEdges(g: Store, r: Reconcile): set<EdgeKey> {
    set k | k in g.edges && Stale(r, g.edges[k].props, g.edges[k].version)
  }

  /** Dropping a vertex drops its edges with it. */
  function DropVertices(g: Store, ids: set<string>): Store {
    Store(g.vertices - ids, map k | k in g.edges && k.from !in ids && k.to !in ids :: g.edges[k])
  }

  function DropEdges(g: Store, keys: set<EdgeKey>): Store {
    g.(edges := g.edges - keys)
  }

  ghost predicate NoDangling(g: Store) {
    forall k :: k in g.edges ==> HasEndpoints(g, k)
  }

  // ----- interleavings of steps by any number of writers

  datatype Step =
    | PutNodeStep(node: NodeMutation)
    | PutEdgeStep(edge: EdgeMutation)
    | SweepVertices(r: Reconcile, ids: set<string>)
    | SweepEdges(r: Reconcile, keys: set<EdgeKey>)

  /** A sweep may drop any part of what its reconcile selects: the limit decides how much. */
  predicate Enabled(g: Store, s: Step) {
    match s
    case PutNodeStep(_) => true
    case PutEdgeStep(_) => true
    case SweepVertices(r, ids) => ids <= StaleVertices(g, r)
    case SweepEdges(r, keys) => keys <= StaleEdges(g, r)
  }

  function Apply(g: Store, s: Step): Store {
    match s
    case PutNodeStep(m) => UpsertNode(g, m)
    case PutEdgeStep(m) => UpsertEdge(g, m)
    case SweepVertices(_, ids) => DropVertices(g, ids)
    case SweepEdges(_, keys) => DropEdges(g, keys)
  }

  function Run(g: Store, steps: seq<Step>): Store
    decreases |steps|
  {
    if steps == [] then g else Run(Apply(g, steps[0]), steps[1..])
  }

  predicate AllEnabled(g: Store, steps: seq<Step>)
    decreases |steps|
  {
    steps != [] ==> Enabled(g, steps[0]) && AllEnabled(Apply(g, steps[0]), steps[1..])
  }

  predicate IsPut(s: Step) { s.PutNodeStep? || s.PutEdgeStep? }

  /** No interleaving ever leaves an edge with a missing endpoint. */
  lemma {:induction false} RunsNeverDangle(g: Store, steps: seq<Step>)
    requires NoDangling(g) && AllEnabled(g, steps)
    ensures NoDangling(Run(g, steps))
    decreases |steps|
  {
    if steps != [] {
      assert NoDangling(Apply(g, steps[0]));
      RunsNeverDangle(Apply(g, steps[0]), steps[1..]);
    }
  }

  predicate NotBefore(version: Option<int>, t: int) { version.Some? && version.value >= t }

  predicate NotOlderThan(now: Option<int>, before: Option<int>) { before.Some? ==> NotBefore(now, before.value) }

  lemma {:induction false} RunConcat(g: Store, a: seq<Step>, b: seq<Step>)
    ensures Run(g, a + b) == Run(Run(g, a), b)
    ensures AllEnabled(g, a + b) <==> AllEnabled(g, a) && AllEnabled(Run(g, a), b)
    decreases |a|
  {
    if a == [] {
      assert a + b == b;
    } else {
      assert (a + b)[1..] == a[1..] + b;
      RunConcat(Apply(g, a[0]), a[1..], b);
    }
  }

  /** Without deletions nothing disappears and no stored version ever goes back. */
  lemma {:induction false} VersionsNeverDecrease(g: Store, steps: seq<Step>)
    requires forall s :: s in steps ==> IsPut(s)
    ensures forall id :: id in g.vertices ==>
              id in Run(g, steps).vertices
              && NotOlderThan(Run(g, steps).vertices[id].version, g.vertices[id].version)
    ensures forall k :: k in g.edges ==>
              k in Run(g, steps).edges && NotOlderThan(Run(g, steps).edges[k].version, g.edges[k].version)
    decreases |steps|
  {
    if steps != [] {
      assert IsPut(steps[0]);
      VersionsNeverDecrease(Apply(g, steps[0]), steps[1..]);
    }
  }

  /** A late duplicate of a vertex write changes nothing, whatever other writes came between. */
  lemma LateNodeDuplicate(g: Store, between: seq<Step>, m: NodeMutation)
    requires forall s :: s in between ==> IsPut(s)
    ensures var h := Run(UpsertNode(g, m), between); UpsertNode(h, m) == h
  {
    VersionsNeverDecrease(UpsertNode(g, m), between);
  }

  /** The same for an edge write that was not skipped. */
  lemma LateEdgeDuplicate(g: Store, between: seq<Step>, m: EdgeMutation)
    requires forall s :: s in between ==> IsPut(s)
    requires m.key in g.edges || HasEndpoints(g, m.key)
    ensures var h := Run(UpsertEdge(g, m), between); UpsertEdge(h, m) == h
  {
    VersionsNeverDecrease(UpsertEdge(g, m), between);
  }

  // ----- what can remove a freshly written element

  ghost predicate LaterSweepOf(s: Step, id: string, t: int) {
    s.SweepVertices? && id in s.ids && s.r.observedAt > t
  }

  /** Once a vertex is stamped at t or later, only a sweep dated after t can remove it,
      whatever else is interleaved; until then every reconcile dated up to t spares it. */
  lemma {:induction false} OnlyLaterSweepsRemove(g: Store, steps: seq<Step>, id: string, t: int)
    requires AllEnabled(g, steps)
    requires id in g.vertices && NotBefore(g.vertices[id].version, t)
    requires forall s :: s in steps ==> !LaterSweepOf(s, id, t)
    ensures var h := Run(g, steps); id in h.vertices && NotBefore(h.vertices[id].version, t)
    decreases |steps|
  {
    if steps != [] {
      assert !LaterSweepOf(steps[0], id, t);
      OnlyLaterSweepsRemove(Apply(g, steps[0]), steps[1..], id, t);
    }
  }

  ghost predicate RemovesEdge(s: Step, key: EdgeKey, t: int) {
    || (s.SweepVertices? && (key.from in s.ids || key.to in s.ids))
    || (s.SweepEdges? && key in s.keys && s.r.observedAt > t)
  }

  /** The same for an edge: it goes only with an endpoint, or by an edge sweep dated after it. */
  lemma {:induction false} EdgesGoOnlyWithEndpoints(g: Store, steps: seq<Step>, key: EdgeKey, t: int)
    requires AllEnabled(g, steps)
    requires key in g.edges && NotBefore(g.edges[key].version, t)
    requires forall s :: s in steps ==> !RemovesEdge(s, key, t)
    ensures var h := Run(g, steps); key in h.edges && NotBefore(h.edges[key].version, t)
    decreases |steps|
  {
    if steps != [] {
      assert !RemovesEdge(steps[0], key, t);
      EdgesGoOnlyWithEndpoints(Apply(g, steps[0]), steps[1..], key, t);
    }
  }

  /** The condition is needed: a later run's sweep followed by a delayed write of an older run
      puts the vertex back with an old stamp, and then the first run's reconcile does drop it. */
  lemma DelayedWriteDefeatsReconcile() returns (m: NodeMutation, r: Reconcile, steps: seq<Step>)
    ensures m.observedAt == r.observedAt && HasText(m.props, "collection_run_id", r.runId)
    ensures var g := UpsertNode(Store(map[], map[]), m);
            AllEnabled(g, steps) && m.id in StaleVertices(Run(g, steps), r)
  {
    var mine := map["collection_scope" := Text("s"), "collection_run_id" := Text("mine")];
    var other := map["collection_scope" := Text("s"), "collection_run_id" := Text("other")];
    m := NodeMutation("v", "L", mine, {}, 5);
    r := Reconcile("s", "mine", 5, None, None);
    var later := SweepVertices(Reconcile("s", "later", 9, None, None), {"v"});
    var delayed := PutNodeStep(NodeMutation("v", "L", other, {}, 3));
    steps := [later, delayed];
    var g := UpsertNode(Store(map[], map[]), m);
    assert g.vertices["v"] == Vertex("L", mine, Some(5));
    var h := Apply(g, later);
    assert steps[1..] == [delayed] && steps[1..][1..] == [];
    assert Run(h, [delayed]) == Apply(h, delayed) by { assert [delayed][1..] == []; }
  }

  // ----- at-least-once delivery of one batch

  ghost predicate DistinctNodes(ns: seq<NodeMutation>) {
    forall i, j :: 0 <= i < j < |ns| ==> ns[i].id != ns[j].id
  }

  ghost predicate DistinctEdges(es: seq<EdgeMutation>) {
    forall i, j :: 0 <= i < j < |es| ==> es[i].key != es[j].key
  }

  function PutNodes(g: Store, ns: seq<NodeMutation>): Store {
    if ns == [] then g else UpsertNode(PutNodes(g, ns[..|ns| - 1]), ns[|ns| - 1])
  }

  function PutEdges(g: Store, es: seq<EdgeMutation>): Store {
    if es == [] then g else UpsertEdge(PutEdges(g, es[..|es| - 1]), es[|es| - 1])
  }

  /** One full application of a batch: all its vertices, then all its edges. */
  function Deliver(g: Store, ns: seq<NodeMutation>, es: seq<EdgeMutation>): Store {
    PutEdges(PutNodes(g, ns), es)
  }

  /** h is g after any of the vertex writes of the batch, in any order and any number of times. */
  ghost predicate SomeNodesPut(g: Store, h: Store, ns: seq<NodeMutation>) {
    forall id :: VertexAt(h, id) == VertexAt(g, id)
              || exists m :: m in ns && m.id == id && VertexAt(h, id) == Some(PutVertex(VertexAt(g, id), m))
  }

  /** An edge after the writes of one key, in this order. */
  function PutAll(was: Option<Edge>, ws: seq<EdgeMutation>): Option<Edge> {
    if ws == [] then was else Some(PutEdge(PutAll(was, ws[..|ws| - 1]), ws[|ws| - 1]))
  }

  /** Writes of k that the list holds, in any order and number. */
  ghost predicate WritesOf(es: seq<EdgeMutation>, k: EdgeKey, ws: seq<EdgeMutation>) {
    forall m :: m in ws ==> m in es && m.key == k
  }

  ghost predicate WrittenBy(g: Store, h: Store, es: seq<EdgeMutation>, k: EdgeKey, ws: seq<EdgeMutation>) {
    && WritesOf(es, k, ws) && EdgeAt(h, k) == PutAll(EdgeAt(g, k), ws)
    && (ws != [] ==> k in g.edges || HasEndpoints(h, k))
  }

  ghost predicate EdgeReached(g: Store, h: Store, es: seq<EdgeMutation>, k: EdgeKey) {
    exists ws :: WrittenBy(g, h, es, k, ws)
  }

  ghost predicate SomeEdgesPut(g: Store, h: Store, es: seq<EdgeMutation>) {
    forall k :: EdgeReached(g, h, es, k)
  }

  lemma {:induction false} PutAllConcat(was: Option<Edge>, a: seq<EdgeMutation>, b: seq<EdgeMutation>)
    ensures PutAll(was, a + b) == PutAll(PutAll(was, a), b)
    decreases |b|
  {
    if b == [] {
      assert a + b == a;
    } else {
      assert (a + b)[..|a + b| - 1] == a + b[..|b| - 1];
      PutAllConcat(was, a, b[..|b| - 1]);
    }
  }

  /** Of writes of one date the first decides. */
  lemma {:induction false} FirstDecides(was: Option<Edge>, ws: seq<EdgeMutation>)
    requires ws != [] && forall m :: m in ws ==> m.observedAt == ws[0].observedAt
    ensures PutAll(was, ws) == Some(PutEdge(was, ws[0]))
    decreases |ws|
  {
    var front := ws[..|ws| - 1];
    if front != [] {
      assert forall m :: m in front ==> m in ws;
      FirstDecides(was, front);
    }
  }

  lemma EdgeUntouched(g: Store, h: Store, es: seq<EdgeMutation>, k: EdgeKey)
    requires EdgeAt(h, k) == EdgeAt(g, k)
    ensures EdgeReached(g, h, es, k)
  {
    assert WrittenBy(g, h, es, k, []);
  }

  /** One more write. */
  lemma EdgeReachedOnce(g: Store, h: Store, h': Store, es: seq<EdgeMutation>, m: EdgeMutation)
    requires EdgeReached(g, h, es, m.key) && m in es && h'.vertices == h.vertices
    requires EdgeAt(h', m.key) == if m.key in h.edges || HasEndpoints(h, m.key) then Some(PutEdge(EdgeAt(h, m.key), m)) else EdgeAt(h, m.key)
    ensures EdgeReached(g, h', es, m.key)
  {
    var ws :| WrittenBy(g, h, es, m.key, ws);
    if m.key in h.edges || HasEndpoints(h, m.key) {
      assert (ws + [m])[..|ws|] == ws;
      assert WrittenBy(g, h', es, m.key, ws + [m]);
    } else {
      assert WrittenBy(g, h', es, m.key, ws);
    }
  }

  lemma EdgeReachedThrough(g: Store, h: Store, h': Store, es: seq<EdgeMutation>, k: EdgeKey)
    requires EdgeReached(g, h, es, k) && EdgeReached(h, h', es, k)
    requires HasEndpoints(h, k) ==> HasEndpoints(h', k)
    ensures EdgeReached(g, h', es, k)
  {
    var a :| WrittenBy(g, h, es, k, a);
    var b :| WrittenBy(h, h', es, k, b);
    PutAllConcat(EdgeAt(g, k), a, b);
    assert WrittenBy(g, h', es, k, a + b);
  }

  /** A key that no list repeats is written as by its one write. */
  lemma EdgeReachedByOne(g: Store, h: Store, es: seq<EdgeMutation>, k: EdgeKey) returns (m: EdgeMutation)
    requires DistinctEdges(es) && EdgeReached(g, h, es, k) && EdgeAt(h, k) != EdgeAt(g, k)
    ensures m in es && m.key == k && EdgeAt(h, k) == Some(PutEdge(EdgeAt(g, k), m))
    ensures k in g.edges || HasEndpoints(h, k)
  {
    var ws :| WrittenBy(g, h, es, k, ws);
    m := ws[0];
    forall m' | m' in ws ensures m' == m { SameKeySame(es, m, m'); }
    FirstDecides(EdgeAt(g, k), ws);
  }

  lemma SameKeySame(es: seq<EdgeMutation>, m: EdgeMutation, m': EdgeMutation)
    requires DistinctEdges(es) && m in es && m' in es && m.key == m'.key
    ensures m == m'
  {
    var i :| 0 <= i < |es| && es[i] == m;
    var j :| 0 <= j < |es| && es[j] == m';
  }

  lemma PutVertexTwice(was: Option<Vertex>, m: NodeMutation)
    ensures PutVertex(Some(PutVertex(was, m)), m) == PutVertex(was, m)
  {
  }

  /** What one full pass over the vertices does to each id. */
  lemma {:induction false} PutNodesAt(g: Store, ns: seq<NodeMutation>, id: string)
    requires DistinctNodes(ns)
    ensures PutNodes(g, ns).edges == g.edges
    ensures forall m :: m in ns && m.id == id ==> VertexAt(PutNodes(g, ns), id) == Some(PutVertex(VertexAt(g, id), m))
    ensures (forall m :: m in ns ==> m.id != id) ==> VertexAt(PutNodes(g, ns), id) == VertexAt(g, id)
    decreases |ns|
  {
    if ns != [] {
      var front, last := ns[..|ns| - 1], ns[|ns| - 1];
      PutNodesAt(g, front, id);
      assert forall m :: m in ns <==> m in front || m == last;
      if last.id == id {
        forall m | m in front ensures m.id != id {
          var i :| 0 <= i < |front| && front[i] == m;
          assert ns[i].id != ns[|ns| - 1].id;
        }
      }
    }
  }

  /** What one full pass over the edges does to each key. */
  lemma {:induction false} PutEdgesAt(g: Store, es: seq<EdgeMutation>, k: EdgeKey)
    requires DistinctEdges(es)
    ensures PutEdges(g, es).vertices == g.vertices
    ensures forall m :: m in es && m.key == k ==>
              EdgeAt(PutEdges(g, es), k)
              == if k in g.edges || HasEndpoints(g, k) then Some(PutEdge(EdgeAt(g, k), m)) else None
    ensures (forall m :: m in es ==> m.key != k) ==> EdgeAt(PutEdges(g, es), k) == EdgeAt(g, k)
    decreases |es|
  {
    if es != [] {
      var front, last := es[..|es| - 1], es[|es| - 1];
      PutEdgesAt(g, front, k);
      UpsertEdgeAt(PutEdges(g, front), last, k);
      assert forall m :: m in es <==> m in front || m == last;
      if last.key == k {
        forall m | m in front ensures m.key != k {
          var i :| 0 <= i < |front| && front[i] == m;
          assert es[i].key != es[|es| - 1].key;
        }
      }
    }
  }

  lemma UpsertEdgeAt(g: Store, m: EdgeMutation, k: EdgeKey)
    ensures UpsertEdge(g, m).vertices == g.vertices
    ensures EdgeAt(UpsertEdge(g, m), k)
         == if m.key == k && (k in g.edges || HasEndpoints(g, k)) then Some(PutEdge(EdgeAt(g, k), m)) else EdgeAt(g, k)
  {
  }

  function ValueAt(props: Props, key: string): Option<Value> { if key in props then Some(props[key]) else None }

  /** One vertex write, property by property: nothing but its vertex changes, and that only if it is new or
      its stored date is missing or earlier. Its label stays, what the write sets is set, what it clears and
      does not set is gone, and the rest stays. */
  lemma VertexWriteExactly(g: Store, m: NodeMutation)
    ensures var h := UpsertNode(g, m);
            && h.edges == g.edges && m.id in h.vertices && (forall id :: id != m.id ==> VertexAt(h, id) == VertexAt(g, id))
            && (m.id !in g.vertices ==> h.vertices[m.id] == Vertex(m.labelName, m.props, Some(m.observedAt)))
            && (m.id in g.vertices ==>
                  var v, w := g.vertices[m.id], h.vertices[m.id];
                  && w.labelName == v.labelName
                  && (v.version.Some? && v.version.value >= m.observedAt ==> w == v)
                  && (v.version.None? || v.version.value < m.observedAt ==>
                        w.version == Some(m.observedAt)
                        && forall key :: ValueAt(w.props, key) == if key in m.props then Some(m.props[key])
                                                                 else if key in m.clear then None else ValueAt(v.props, key)))
  {
  }

  /** One edge write: it is stored exactly if it was or both its endpoints are, and changes only if it is
      new or its stored date is missing or earlier; then what it sets is set and the rest stays. */
  lemma EdgeWriteExactly(g: Store, m: EdgeMutation)
    ensures var h := UpsertEdge(g, m);
            && h.vertices == g.vertices && (forall k :: k != m.key ==> EdgeAt(h, k) == EdgeAt(g, k))
            && (m.key in h.edges <==> m.key in g.edges || (m.key.from in g.vertices && m.key.to in g.vertices))
            && (m.key in h.edges && m.key !in g.edges ==> h.edges[m.key] == Edge(m.props, Some(m.observedAt)))
            && (m.key in g.edges ==>
                  var e, f := g.edges[m.key], h.edges[m.key];
                  && (e.version.Some? && e.version.value >= m.observedAt ==> f == e)
                  && (e.version.None? || e.version.value < m.observedAt ==>
                        f.version == Some(m.observedAt)
                        && forall key :: ValueAt(f.props, key) == if key in m.props then Some(m.props[key]) else ValueAt(e.props, key)))
  {
  }

  /** Dropping vertices takes them, and of the edges exactly those that touch one. */
  lemma DropExactly(g: Store, ids: set<string>)
    ensures var h := DropVertices(g, ids);
            && (forall id :: VertexAt(h, id) == if id in ids then None else VertexAt(g, id))
            && (forall k :: EdgeAt(h, k) == if k.from in ids || k.to in ids then None else EdgeAt(g, k))
  {
  }

  lemma SameStore(a: Store, b: Store)
    requires forall id :: VertexAt(a, id) == VertexAt(b, id)
    requires forall k :: EdgeAt(a, k) == EdgeAt(b, k)
    ensures a == b
  {
    assert forall id :: (id in a.vertices <==> VertexAt(a, id).Some?) && (id in b.vertices <==> VertexAt(b, id).Some?);
    assert forall k :: (k in a.edges <==> EdgeAt(a, k).Some?) && (k in b.edges <==> EdgeAt(b, k).Some?);
    assert a.vertices.Keys == b.vertices.Keys && a.edges.Keys == b.edges.Keys;
    forall id | id in a.vertices ensures a.vertices[id] == b.vertices[id] {
      assert VertexAt(a, id) == VertexAt(b, id);
    }
    forall k | k in a.edges ensures a.edges[k] == b.edges[k] {
      assert EdgeAt(a, k) == EdgeAt(b, k);
    }
    assert a.vertices == b.vertices && a.edges == b.edges;
  }

  /** A full pass over the vertices absorbs any partial passes before it. */
  lemma NodePassAbsorbs(g: Store, h: Store, ns: seq<NodeMutation>, id: string)
    requires DistinctNodes(ns) && SomeNodesPut(g, h, ns)
    ensures VertexAt(PutNodes(h, ns), id) == VertexAt(PutNodes(g, ns), id)
  {
    PutNodesAt(g, ns, id);
    PutNodesAt(h, ns, id);
    if m :| m in ns && m.id == id {
      PutVertexTwice(VertexAt(g, id), m);
      if VertexAt(h, id) != VertexAt(g, id) {
        var m' :| m' in ns && m'.id == id && VertexAt(h, id) == Some(PutVertex(VertexAt(g, id), m'));
        var i :| 0 <= i < |ns| && ns[i] == m;
        var j :| 0 <= j < |ns| && ns[j] == m';
        assert i == j;
      }
    }
  }

  /** A full pass over the edges absorbs any partial passes before it, even ones that ran while
      some endpoints were still missing. */
  lemma EdgePassAbsorbs(g: Store, h: Store, a: Store, b: Store, es: seq<EdgeMutation>, k: EdgeKey)
    requires DistinctEdges(es) && SomeEdgesPut(g, h, es)
    requires a.vertices == b.vertices && a.edges == g.edges && b.edges == h.edges
    requires forall id :: id in h.vertices ==> id in b.vertices
    ensures EdgeAt(PutEdges(b, es), k) == EdgeAt(PutEdges(a, es), k)
  {
    PutEdgesAt(a, es, k);
    PutEdgesAt(b, es, k);
    assert EdgeAt(a, k) == EdgeAt(g, k) && EdgeAt(b, k) == EdgeAt(h, k);
    if EdgeAt(h, k) != EdgeAt(g, k) {
      var m' := EdgeReachedByOne(g, h, es, k);
      assert EdgeAt(PutEdges(a, es), k) == Some(PutEdge(EdgeAt(g, k), m'));
      assert EdgeAt(PutEdges(b, es), k) == Some(PutEdge(EdgeAt(h, k), m'));
      assert PutEdge(Some(PutEdge(EdgeAt(g, k), m')), m') == PutEdge(EdgeAt(g, k), m');
    } else {
      assert k in h.edges <==> k in g.edges;
    }
  }

  /** Everything a set of partial deliveries of one batch can have done to g. */
  ghost predicate PartlyDelivered(g: Store, h: Store, ns: seq<NodeMutation>, es: seq<EdgeMutation>) {
    && SomeNodesPut(g, h, ns) && SomeEdgesPut(g, h, es)
    && (forall id :: id in g.vertices ==> id in h.vertices)
  }

  predicate StepOf(s: Step, ns: seq<NodeMutation>, es: seq<EdgeMutation>) {
    (s.PutNodeStep? && s.node in ns) || (s.PutEdgeStep? && s.edge in es)
  }

  lemma PartStep(g: Store, h: Store, s: Step, ns: seq<NodeMutation>, es: seq<EdgeMutation>)
    requires DistinctNodes(ns)
    requires PartlyDelivered(g, h, ns, es) && StepOf(s, ns, es)
    ensures PartlyDelivered(g, Apply(h, s), ns, es)
  {
    var h' := Apply(h, s);
    match s {
      case PutNodeStep(m) =>
        forall id
          ensures VertexAt(h', id) == VertexAt(g, id)
               || exists m :: m in ns && m.id == id && VertexAt(h', id) == Some(PutVertex(VertexAt(g, id), m))
        {
          if id == m.id {
            if VertexAt(h, id) != VertexAt(g, id) {
              var m' :| m' in ns && m'.id == id && VertexAt(h, id) == Some(PutVertex(VertexAt(g, id), m'));
              var i :| 0 <= i < |ns| && ns[i] == m;
              var j :| 0 <= j < |ns| && ns[j] == m';
              assert i == j;
              PutVertexTwice(VertexAt(g, id), m);
            }
            assert VertexAt(h', id) == Some(PutVertex(VertexAt(g, id), m));
          } else {
            assert VertexAt(h', id) == VertexAt(h, id);
          }
        }
        forall k ensures EdgeReached(g, h', es, k) {
          EdgeUntouched(h, h', es, k);
          EdgeReachedThrough(g, h, h', es, k);
        }
      case PutEdgeStep(m) =>
        assert forall id :: VertexAt(h', id) == VertexAt(h, id);
        forall k ensures EdgeReached(g, h', es, k) {
          UpsertEdgeAt(h, m, k);
          if k == m.key {
            EdgeReachedOnce(g, h, h', es, m);
          } else {
            EdgeUntouched(h, h', es, k);
            EdgeReachedThrough(g, h, h', es, k);
          }
        }
    }
  }

  lemma {:induction false} PartialRuns(g: Store, h: Store, w: seq<Step>, ns: seq<NodeMutation>, es: seq<EdgeMutation>)
    requires DistinctNodes(ns)
    requires PartlyDelivered(g, h, ns, es)
    requires forall s :: s in w ==> StepOf(s, ns, es)
    ensures PartlyDelivered(g, Run(h, w), ns, es)
    decreases |w|
  {
    if w != [] {
      PartStep(g, h, w[0], ns, es);
      PartialRuns(g, Apply(h, w[0]), w[1..], ns, es);
    }
  }

  lemma DeliveryAbsorbsParts(g: Store, h: Store, ns: seq<NodeMutation>, es: seq<EdgeMutation>)
    requires DistinctNodes(ns) && DistinctEdges(es) && PartlyDelivered(g, h, ns, es)
    ensures Deliver(h, ns, es) == Deliver(g, ns, es)
  {
    var a, b := PutNodes(g, ns), PutNodes(h, ns);
    PutNodesAt(g, ns, "");
    PutNodesAt(h, ns, "");
    forall id ensures VertexAt(a, id) == VertexAt(b, id) { NodePassAbsorbs(g, h, ns, id); }
    SameVertices(a, b);
    forall id | id in h.vertices ensures id in b.vertices {
      PutNodesAt(h, ns, id);
      assert VertexAt(b, id).Some?;
    }
    forall k ensures EdgeAt(PutEdges(b, es), k) == EdgeAt(PutEdges(a, es), k) {
      EdgePassAbsorbs(g, h, a, b, es, k);
    }
    PutEdgesAt(a, es, EdgeKey("", "", ""));
    PutEdgesAt(b, es, EdgeKey("", "", ""));
    assert forall id :: VertexAt(PutEdges(a, es), id) == VertexAt(PutEdges(b, es), id);
    SameStore(PutEdges(a, es), PutEdges(b, es));
  }

  lemma SameVertices(a: Store, b: Store)
    requires forall id :: VertexAt(a, id) == VertexAt(b, id)
    ensures a.vertices == b.vertices
  {
    var b' := Store(b.vertices, a.edges);
    assert forall id :: VertexAt(b', id) == VertexAt(b, id);
    assert forall k :: EdgeAt(b', k) == EdgeAt(a, k);
    SameStore(a, b');
  }

  /** At-least-once delivery has exactly-once effect: whatever parts of a batch were applied
      before, in any order and any number of times, one complete delivery gives the state of a
      single one. */
  lemma RedeliveryIsExactlyOnce(g: Store, w: seq<Step>, ns: seq<NodeMutation>, es: seq<EdgeMutation>)
    requires DistinctNodes(ns) && DistinctEdges(es)
    requires forall s :: s in w ==> StepOf(s, ns, es)
    ensures Deliver(Run(g, w), ns, es) == Deliver(g, ns, es)
  {
    forall k ensures EdgeReached(g, g, es, k) { EdgeUntouched(g, g, es, k); }
    assert PartlyDelivered(g, g, ns, es);
    PartialRuns(g, g, w, ns, es);
    DeliveryAbsorbsParts(g, Run(g, w), ns, es);
  }

  lemma {:induction false} SettledStep(g: Store, s: Step, ns: seq<NodeMutation>, es: seq<EdgeMutation>)
    requires DistinctNodes(ns) && DistinctEdges(es) && StepOf(s, ns, es)
    ensures var d := Deliver(g, ns, es); Apply(d, s) == d
  {
    var a, d := PutNodes(g, ns), Deliver(g, ns, es);
    match s {
      case PutNodeStep(m) =>
        PutNodesAt(g, ns, m.id);
        PutEdgesAt(a, es, EdgeKey("", "", ""));
        assert VertexAt(d, m.id) == Some(PutVertex(VertexAt(g, m.id), m));
        PutVertexTwice(VertexAt(g, m.id), m);
        assert d.vertices[m.id := d.vertices[m.id]] == d.vertices;
      case PutEdgeStep(m) =>
        PutEdgesAt(a, es, m.key);
        if m.key in d.edges {
          assert EdgeAt(d, m.key) == Some(PutEdge(EdgeAt(a, m.key), m));
          assert d.edges[m.key := d.edges[m.key]] == d.edges;
        }
    }
  }

  /** Nor do stragglers matter: parts of the batch that arrive after it was delivered change nothing. */
  lemma {:induction false} StragglersAreHarmless(g: Store, w: seq<Step>, ns: seq<NodeMutation>, es: seq<EdgeMutation>)
    requires DistinctNodes(ns) && DistinctEdges(es)
    requires forall s :: s in w ==> StepOf(s, ns, es)
    ensures Run(Deliver(g, ns, es), w) == Deliver(g, ns, es)
    decreases |w|
  {
    if w != [] {
      SettledStep(g, w[0], ns, es);
      StragglersAreHarmless(g, w[1..], ns, es);
    }
  }
}
