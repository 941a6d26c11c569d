/** The graph writer: chunked, retried upserts and the batched stale drop, run against a store
    whose every call may fail, may have been applied in part, or may lose its reply. Every
    unconstrained choice (`*`) below is the environment's. */
module GraphRepository {
  import opened Basics
  import opened GraphStore
  import opened Packing
  import opened EdgeWrites

  const RECONCILE_MAX_BATCHES := 1000
  const MUTATION_CHUNK_MAX_BYTES := 512 * 1024

  class Graph {
    var vertices: map<string, Vertex>
    var edges: map<EdgeKey, Edge>

    constructor ()
      ensures Value() == Store(map[], map[])
    {
      vertices, edges := map[], map[];
    }

    function Value(): Store
      reads this
    {
      Store(vertices, edges)
    }

    method PutNode(m: NodeMutation)
      modifies this
      ensures Value() == UpsertNode(old(Value()), m)
    {
      if m.id in vertices {
        var v := vertices[m.id];
        if Older(v.version, m.observedAt) {
          vertices := vertices[m.id := Vertex(v.labelName, (v.props - m.clear) + m.props, Some(m.observedAt))];
        } else {
          assert vertices[m.id := v] == vertices;
        }
      } else {
        vertices := vertices[m.id := Vertex(m.labelName, m.props, Some(m.observedAt))];
      }
    }

    /** The result says whether the upsert yielded the edge; it does not when an endpoint is missing. */
    method PutEdge(m: EdgeMutation) returns (written: bool)
      modifies this
      ensures Value() == UpsertEdge(old(Value()), m)
      ensures written <==> m.key in edges
    {
      if m.key in edges {
        var e := edges[m.key];
        if Older(e.version, m.observedAt) {
          edges := edges[m.key := Edge(e.props + m.props, Some(m.observedAt))];
        } else {
          assert edges[m.key := e] == edges;
        }
        written := true;
      } else if m.key.from in vertices && m.key.to in vertices {
        edges := edges[m.key := Edge(m.props, Some(m.observedAt))];
        written := true;
      } else {
        written := false;
      }
    }

    method RemoveVertices(ids: set<string>)
      modifies this
      ensures Value() == DropVertices(old(Value()), ids)
    {
      vertices := vertices - ids;
      edges := map k | k in edges && k.from !in ids && k.to !in ids :: edges[k];
    }

    method RemoveEdges(keys: set<EdgeKey>)
      modifies this
      ensures Value() == DropEdges(old(Value()), keys)
    {
      edges := edges - keys;
    }
  }

  // ----- partial application of a list of writes

  /** Some of the vertex writes have been applied to g, and nothing else. */
  ghost predicate NodesInProgress(g: Store, h: Store, ns: seq<NodeMutation>) {
    SomeNodesPut(g, h, ns) && h.edges == g.edges
  }

  ghost predicate NodeDone(g: Store, h: Store, m: NodeMutation) {
    VertexAt(h, m.id) == Some(PutVertex(VertexAt(g, m.id), m))
  }

  lemma SameIdSame(ns: seq<NodeMutation>, m: NodeMutation, m': NodeMutation)
    requires DistinctNodes(ns) && m in ns && m' in ns && m.id == m'.id
    ensures m == m'
  {
    var i :| 0 <= i < |ns| && ns[i] == m;
    var j :| 0 <= j < |ns| && ns[j] == m';
  }

  lemma NodeProgress(g: Store, h: Store, m: NodeMutation, ns: seq<NodeMutation>)
    requires DistinctNodes(ns) && NodesInProgress(g, h, ns) && m in ns
    ensures var h' := UpsertNode(h, m);
            && NodesInProgress(g, h', ns) && NodeDone(g, h', m)
            && forall n :: n in ns && NodeDone(g, h, n) ==> NodeDone(g, h', n)
  {
    var h' := UpsertNode(h, m);
    if VertexAt(h, m.id) != VertexAt(g, m.id) {
      var m' :| m' in ns && m'.id == m.id && VertexAt(h, m.id) == Some(PutVertex(VertexAt(g, m.id), m'));
      SameIdSame(ns, m, m');
      PutVertexTwice(VertexAt(g, m.id), m);
    }
    assert VertexAt(h', m.id) == Some(PutVertex(VertexAt(g, m.id), m));
    assert forall id :: id != m.id ==> VertexAt(h', id) == VertexAt(h, id);
    forall n | n in ns && NodeDone(g, h, n) ensures NodeDone(g, h', n) {
      if n.id == m.id { SameIdSame(ns, m, n); }
    }
  }

  lemma AllNodesDone(g: Store, h: Store, ns: seq<NodeMutation>)
    requires DistinctNodes(ns) && NodesInProgress(g, h, ns)
    requires forall m :: m in ns ==> NodeDone(g, h, m)
    ensures h == PutNodes(g, ns)
  {
    PutNodesAt(g, ns, "");
    forall id ensures VertexAt(h, id) == VertexAt(PutNodes(g, ns), id) {
      PutNodesAt(g, ns, id);
      if m :| m in ns && m.id == id { assert NodeDone(g, h, m); }
    }
    SameStore(h, PutNodes(g, ns));
  }

  /** Chunks and elements of one batch may be written in any order, and any of them again: once each has
      been, the store is that of one pass over the batch. */
  lemma NodesInAnyOrder(g: Store, writes: seq<NodeMutation>, ns: seq<NodeMutation>)
    requires DistinctNodes(ns) && (forall m :: m in writes ==> m in ns) && forall m :: m in ns ==> m in writes
    ensures PutNodes(g, writes) == PutNodes(g, ns)
  {
    SomeWrites(g, writes, ns);
    AllNodesDone(g, PutNodes(g, writes), ns);
  }

  lemma {:induction false} SomeWrites(g: Store, writes: seq<NodeMutation>, ns: seq<NodeMutation>)
    requires DistinctNodes(ns) && forall m :: m in writes ==> m in ns
    ensures NodesInProgress(g, PutNodes(g, writes), ns)
    ensures forall m :: m in writes ==> NodeDone(g, PutNodes(g, writes), m)
    decreases |writes|
  {
    if writes != [] {
      var front, last := writes[..|writes| - 1], writes[|writes| - 1];
      assert forall m :: m in writes <==> m in front || m == last;
      SomeWrites(g, front, ns);
      NodeProgress(g, PutNodes(g, front), last, ns);
    }
  }

  // ----- the repository

  /** The reported edge count can go below zero, when skips are counted twice. */
  datatype WriteResult = WriteResult(nodes: nat, edges: int, skipped: nat, tombstoned: nat)

  method RetryNode(graph: Graph, m: NodeMutation, ghost g: Store, ghost ns: seq<NodeMutation>) returns (ok: bool)
    requires DistinctNodes(ns) && m in ns && NodesInProgress(g, graph.Value(), ns)
    modifies graph
    ensures NodesInProgress(g, graph.Value(), ns)
    ensures ok ==> NodeDone(g, graph.Value(), m)
    ensures forall n :: n in ns && NodeDone(g, old(graph.Value()), n) ==> NodeDone(g, graph.Value(), n)
  {
    for attempt := 1 to TRANSIENT_ATTEMPTS + 1
      invariant NodesInProgress(g, graph.Value(), ns)
      invariant forall n :: n in ns && NodeDone(g, old(graph.Value()), n) ==> NodeDone(g, graph.Value(), n)
    {
      var applied: bool := *;
      if applied {
        NodeProgress(g, graph.Value(), m, ns);
        graph.PutNode(m);
      }
      var answered: bool := *;
      if applied && answered { return true; }
      var transient: bool := *;
      if !transient { return false; }
    }
    ok := false;
  }

  /** One chained traversal that may stop anywhere; its answer may be lost or unreadable. */
  method TryNodeChunk(graph: Graph, chunk: seq<NodeMutation>, ghost g: Store, ghost ns: seq<NodeMutation>) returns (ok: bool)
    requires DistinctNodes(ns) && NodesInProgress(g, graph.Value(), ns)
    requires forall m :: m in chunk ==> m in ns
    modifies graph
    ensures NodesInProgress(g, graph.Value(), ns)
    ensures ok ==> forall m :: m in chunk ==> NodeDone(g, graph.Value(), m)
    ensures forall n :: n in ns && NodeDone(g, old(graph.Value()), n) ==> NodeDone(g, graph.Value(), n)
  {
    var reach: nat := *;
    var i := 0;
    while i < |chunk| && i < reach
      invariant 0 <= i <= |chunk|
      invariant NodesInProgress(g, graph.Value(), ns)
      invariant forall j :: 0 <= j < i ==> NodeDone(g, graph.Value(), chunk[j])
      invariant forall n :: n in ns && NodeDone(g, old(graph.Value()), n) ==> NodeDone(g, graph.Value(), n)
    {
      NodeProgress(g, graph.Value(), chunk[i], ns);
      graph.PutNode(chunk[i]);
      i := i + 1;
    }
    var answered: bool := *;
    ok := i == |chunk| && answered;
  }

  method WriteNodeChunk(graph: Graph, chunk: seq<NodeMutation>, ghost g: Store, ghost ns: seq<NodeMutation>) returns (ok: bool)
    requires DistinctNodes(ns) && NodesInProgress(g, graph.Value(), ns)
    requires forall m :: m in chunk ==> m in ns
    modifies graph
    ensures NodesInProgress(g, graph.Value(), ns)
    ensures ok ==> forall m :: m in chunk ==> NodeDone(g, graph.Value(), m)
    ensures forall n :: n in ns && NodeDone(g, old(graph.Value()), n) ==> NodeDone(g, graph.Value(), n)
  {
    var attempt, transient := 1, true;
    while attempt <= TRANSIENT_ATTEMPTS && transient
      invariant NodesInProgress(g, graph.Value(), ns)
      invariant forall n :: n in ns && NodeDone(g, old(graph.Value()), n) ==> NodeDone(g, graph.Value(), n)
      decreases TRANSIENT_ATTEMPTS + 1 - attempt
    {
      ok := TryNodeChunk(graph, chunk, g, ns);
      if ok { return; }
      transient := *;
      attempt := attempt + 1;
    }
    // Element by element: idempotent upserts make the repeat safe.
    for i := 0 to |chunk|
      invariant NodesInProgress(g, graph.Value(), ns)
      invariant forall j :: 0 <= j < i ==> NodeDone(g, graph.Value(), chunk[j])
      invariant forall n :: n in ns && NodeDone(g, old(graph.Value()), n) ==> NodeDone(g, graph.Value(), n)
    {
      ok := RetryNode(graph, chunk[i], g, ns);
      if !ok { return; }
    }
    ok := true;
  }

  method WriteNodes(graph: Graph, nodes: seq<NodeMutation>, chunks: seq<seq<NodeMutation>>) returns (ok: bool)
    requires DistinctNodes(nodes) && Flatten(chunks) == nodes
    modifies graph
    ensures NodesInProgress(old(graph.Value()), graph.Value(), nodes)
    ensures ok ==> graph.Value() == PutNodes(old(graph.Value()), nodes)
  {
    ghost var g := graph.Value();
    for i := 0 to |chunks|
      invariant NodesInProgress(g, graph.Value(), nodes)
      invariant forall j, m :: 0 <= j < i && m in chunks[j] ==> NodeDone(g, graph.Value(), m)
    {
      forall m | m in chunks[i] ensures m in nodes { FlattenMember(chunks, i, m); }
      forall j, m | 0 <= j < i && m in chunks[j] ensures m in nodes { FlattenMember(chunks, j, m); }
      ok := WriteNodeChunk(graph, chunks[i], g, nodes);
      if !ok { return; }
    }
    forall m | m in nodes ensures NodeDone(g, graph.Value(), m) {
      var i := BatchWith(chunks, m);
    }
    AllNodesDone(g, graph.Value(), nodes);
    ok := true;
  }

  /** The part of a chunk that one chained traversal applies. */
  method ApplyReached(graph: Graph, chunk: seq<EdgeMutation>, reach: nat)
    modifies graph
    ensures graph.Value() == PutEdges(old(graph.Value()), Reached(chunk, reach))
  {
    ghost var g := graph.Value();
    var n := |Reached(chunk, reach)|;
    for i := 0 to n
      invariant graph.Value() == PutEdges(g, chunk[..i])
    {
      assert chunk[..i + 1][..i] == chunk[..i];
      var written := graph.PutEdge(chunk[i]);
    }
    assert Reached(chunk, reach) == chunk[..n];
  }

  predicate CanMove(ps: seq<Phase>, c: nat) {
    c < |ps| && (ps[c].Isolating? || MayStart(ps, c))
  }

  /** The writer's phases and shared list are those of the machine, and its store is the graph. */
  ghost predicate Tracks(s: Writing, ps: seq<Phase>, skipped: seq<EdgeMutation>, h: Store) {
    ps == PhasesOf(s.chunks) && skipped == s.skipped && h == s.store
  }

  /** One chunk's chained traversal: a readable reply names what it wrote, an unreadable one starts an
      isolation, and a call that throws is caught by one. */
  method ChainChunk(graph: Graph, chunk: seq<EdgeMutation>, skipped: seq<EdgeMutation>, c: nat, ghost s: Writing)
    returns (phase: Phase, skipped': seq<EdgeMutation>, ghost reach: nat, ghost reply: Reply)
    requires c < |s.chunks| && skipped == s.skipped && graph.Value() == s.store
    modifies graph
    ensures var t := AfterChain(chunk, s, c, reach, reply);
            graph.Value() == t.store && skipped' == t.skipped && phase == t.chunks[c].phase
    ensures WorkLeft(chunk, phase) < WorkLeft(chunk, Waiting)
  {
    var upTo: nat, answer: Reply := *, *;
    reach, reply := upTo, answer;
    ApplyReached(graph, chunk, upTo);
    if answer.Readable? && upTo >= |chunk| { return Wrote, skipped + Unwritten(graph.Value(), chunk), reach, reply; }
    phase, skipped' := if chunk == [] then Wrote else Isolating(answer.Unreadable?, 0, 1), skipped;
  }

  /** One attempt at one element of a chunk being isolated. */
  method AttemptElement(graph: Graph, chunk: seq<EdgeMutation>, phase: Phase, skipped: seq<EdgeMutation>, c: nat, ghost s: Writing)
    returns (phase': Phase, skipped': seq<EdgeMutation>, ghost applied: bool, ghost answered: bool, ghost transient: bool)
    requires c < |s.chunks| && skipped == s.skipped && graph.Value() == s.store && s.chunks[c].phase == phase
    requires phase.Isolating? && phase.pos < |chunk| && phase.attempt <= TRANSIENT_ATTEMPTS
    modifies graph
    ensures var t := AfterAttempt(chunk, s, c, applied, answered, transient);
            graph.Value() == t.store && skipped' == t.skipped && phase' == t.chunks[c].phase
    ensures WorkLeft(chunk, phase') < WorkLeft(chunk, phase)
  {
    var Isolating(first, pos, attempt) := phase;
    var reaches: bool, replies: bool, again: bool := *, *, *;
    applied, answered, transient := reaches, replies, again;
    var written := false;
    if reaches { written := graph.PutEdge(chunk[pos]); }
    skipped' := skipped;
    if reaches && replies {
      if !written { skipped' := skipped + [chunk[pos]]; }
      phase' := if pos + 1 == |chunk| then Wrote else Isolating(first, pos + 1, 1);
    } else if again && attempt < TRANSIENT_ATTEMPTS {
      phase' := Isolating(first, pos, attempt + 1);
    } else {
      phase' := if first then Isolating(false, 0, 1) else Lost;
    }
  }

  /** One move of one chunk. */
  method MoveChunk(graph: Graph, chunks: Chunks, ps: seq<Phase>, skipped: seq<EdgeMutation>, c: nat, ghost s: Writing)
    returns (ps': seq<Phase>, skipped': seq<EdgeMutation>, ghost e: EdgeWrites.Event)
    requires |s.chunks| == |chunks| && Tracks(s, ps, skipped, graph.Value()) && CanMove(ps, c)
    requires ps[c].Isolating? ==> ps[c].pos < |chunks[c]| && ps[c].attempt <= TRANSIENT_ATTEMPTS
    modifies graph
    ensures Tracks(After(chunks, s, e), ps', skipped', graph.Value())
    ensures |ps'| == |ps| && TotalWork(chunks, ps') < TotalWork(chunks, ps)
  {
    var phase;
    if ps[c].Waiting? {
      ghost var reach, reply;
      phase, skipped', reach, reply := ChainChunk(graph, chunks[c], skipped, c, s);
      e := Chain(c, reach, reply);
    } else {
      ghost var applied, answered, transient;
      phase, skipped', applied, answered, transient := AttemptElement(graph, chunks[c], ps[c], skipped, c, s);
      e := Attempt(c, applied, answered, transient);
    }
    ps' := ps[c := phase];
    WorkUpdate(chunks, ps, c, phase);
  }

  /** Chunks are written side by side; which one moves next is left open. A chunk that is lost ends
      the write, though others may still move. `schedule` is what happened. */
  method WriteEdges(graph: Graph, edges: seq<EdgeMutation>, chunks: Chunks)
    returns (ok: bool, skipped: seq<EdgeMutation>, ghost schedule: seq<EdgeWrites.Event>)
    requires Flatten(chunks) == edges
    modifies graph
    ensures EdgesInProgress(old(graph.Value()), graph.Value(), edges)
    ensures var s := EdgeWrites.Run(chunks, Start(old(graph.Value()), |chunks|), schedule);
            s.store == graph.Value() && s.skipped == skipped && (ok <==> Finished(s))
    ensures ok ==> EdgesPut(old(graph.Value()), graph.Value(), edges)
  {
    ghost var g := graph.Value();
    ghost var s := Start(g, |chunks|);
    var ps: seq<Phase> := seq(|chunks|, i => Waiting);
    skipped, schedule := [], [];
    var stop := false;
    while !stop && exists c :: 0 <= c < |ps| && CanMove(ps, c)
      invariant |ps| == |chunks| && s == EdgeWrites.Run(chunks, Start(g, |chunks|), schedule)
      invariant Tracks(s, ps, skipped, graph.Value())
      decreases TotalWork(chunks, ps), !stop
    {
      RunKeepsInv(g, edges, chunks, schedule);
      var c: nat :| c < |ps| && CanMove(ps, c);
      assert Fits(g, s.store, chunks[c], s.chunks[c]);
      ghost var e;
      ps, skipped, e := MoveChunk(graph, chunks, ps, skipped, c, s);
      RunMore(chunks, Start(g, |chunks|), schedule, e);
      s, schedule := After(chunks, s, e), schedule + [e];
      if exists b :: 0 <= b < |ps| && ps[b].Lost? { stop := *; }
    }
    RunKeepsInv(g, edges, chunks, schedule);
    ok := forall c :: 0 <= c < |ps| ==> ps[c].Wrote?;
    if ok { FinishedWrites(g, edges, chunks, schedule); }
  }

  // ----- the batched stale drop

  method PickUpTo<T(==)>(all: set<T>, limit: nat) returns (picked: set<T>)
    ensures picked <= all && |picked| == if |all| < limit then |all| else limit
  {
    picked := {};
    var left := all;
    while left != {} && |picked| < limit
      invariant picked !! left && picked + left == all && |picked| <= limit
      decreases left
    {
      var x :| x in left;
      left := left - {x};
      picked := picked + {x};
    }
    assert |picked + left| == |picked| + |left|;
    if left == {} { assert picked == all; }
  }

  lemma DropVerticesMore(g: Store, a: set<string>, b: set<string>, r: Reconcile)
    ensures DropVertices(DropVertices(g, a), b) == DropVertices(g, a + b)
    ensures StaleVertices(DropVertices(g, a), r) == StaleVertices(g, r) - a
    ensures DropVertices(g, {}) == g
  {
    var x, y := DropVertices(DropVertices(g, a), b), DropVertices(g, a + b);
    assert x.vertices == y.vertices;
    assert x.edges == y.edges;
    assert DropVertices(g, {}).vertices == g.vertices && DropVertices(g, {}).edges == g.edges;
  }

  lemma DropEdgesMore(g: Store, a: set<EdgeKey>, b: set<EdgeKey>, r: Reconcile)
    ensures DropEdges(DropEdges(g, a), b) == DropEdges(g, a + b)
    ensures StaleEdges(DropEdges(g, a), r) == StaleEdges(g, r) - a
    ensures DropEdges(g, {}) == g
  {
    assert g.edges - a - b == g.edges - (a + b);
    assert g.edges - {} == g.edges;
  }

  /** One count-and-drop. It is answered, or it failed and may have dropped any part. */
  method TryDropVertices(graph: Graph, r: Reconcile, limit: nat, ghost g: Store, ghost gone: set<string>)
    returns (answered: bool, stale: nat, ghost gone': set<string>)
    requires limit > 0 && gone <= StaleVertices(g, r) && graph.Value() == DropVertices(g, gone)
    modifies graph
    ensures gone <= gone' <= StaleVertices(g, r) && graph.Value() == DropVertices(g, gone')
    ensures stale <= limit && (answered ==> stale == |gone'| - |gone|)
    ensures answered && stale < limit ==> gone' == StaleVertices(g, r)
  {
    DropVerticesMore(g, gone, {}, r);
    var selected := StaleVertices(graph.Value(), r);
    var counted := PickUpTo(selected, limit);
    stale, answered, gone' := |counted|, *, gone;
    var reached: bool := *;
    if !reached { return false, stale, gone; }
    if stale == 0 { return true, stale, gone; }
    var dropped := PickUpTo(selected, limit);
    if !answered {
      dropped :| dropped <= selected && |dropped| <= limit;
    }
    DropVerticesMore(g, gone, dropped, r);
    DroppedOf(StaleVertices(g, r), gone, dropped);
    graph.RemoveVertices(dropped);
    gone' := gone + dropped;
  }

  /** One retried count-and-drop over vertices. */
  method SweepVertexBatch(graph: Graph, r: Reconcile, limit: nat, ghost g: Store, ghost gone: set<string>)
    returns (ok: bool, stale: nat, ghost gone': set<string>, ghost clean: bool)
    requires limit > 0 && gone <= StaleVertices(g, r) && graph.Value() == DropVertices(g, gone)
    modifies graph
    ensures gone <= gone' <= StaleVertices(g, r) && graph.Value() == DropVertices(g, gone')
    ensures ok && stale < limit ==> gone' == StaleVertices(g, r)
    ensures ok ==> stale <= limit && stale <= |gone'| - |gone|
    ensures ok && clean ==> stale == |gone'| - |gone|
  {
    gone', clean, stale := gone, true, 0;
    for attempt := 1 to TRANSIENT_ATTEMPTS + 1
      invariant gone <= gone' <= StaleVertices(g, r) && graph.Value() == DropVertices(g, gone')
      invariant clean ==> gone' == gone
    {
      CardinalityWithin(gone, gone');
      ok, stale, gone' := TryDropVertices(graph, r, limit, g, gone');
      if ok { return; }
      clean := false;
      var transient: bool := *;
      if !transient { return; }
    }
    ok := false;
  }

  /** Dropping some of what is left of `all`, and what dropping as many as are left means. */
  lemma DroppedOf<T>(all: set<T>, gone: set<T>, dropped: set<T>)
    requires gone <= all && dropped <= all - gone
    ensures gone <= gone + dropped <= all
    ensures |gone + dropped| == |gone| + |dropped|
    ensures |dropped| == |all - gone| ==> gone + dropped == all
  {
    CardinalityGrows(gone, dropped);
    if |dropped| == |all - gone| { AllPicked(all - gone, dropped); }
  }

  lemma CardinalityGrows<T>(a: set<T>, b: set<T>)
    requires a !! b
    ensures |a + b| == |a| + |b|
  {
  }

  lemma CardinalityWithin<T>(a: set<T>, b: set<T>)
    requires a <= b
    ensures |a| <= |b|
  {
    assert b == a + (b - a);
  }

  lemma AllPicked<T>(all: set<T>, picked: set<T>)
    requires picked <= all && |picked| == |all|
    ensures picked == all
  {
    assert |all - picked| == |all| - |picked|;
  }

  /** One count-and-drop. It is answered, or it failed and may have dropped any part. */
  method TryDropEdges(graph: Graph, r: Reconcile, limit: nat, ghost g: Store, ghost gone: set<EdgeKey>)
    returns (answered: bool, stale: nat, ghost gone': set<EdgeKey>)
    requires limit > 0 && gone <= StaleEdges(g, r) && graph.Value() == DropEdges(g, gone)
    modifies graph
    ensures gone <= gone' <= StaleEdges(g, r) && graph.Value() == DropEdges(g, gone')
    ensures stale <= limit && (answered ==> stale == |gone'| - |gone|)
    ensures answered && stale < limit ==> gone' == StaleEdges(g, r)
  {
    DropEdgesMore(g, gone, {}, r);
    var selected := StaleEdges(graph.Value(), r);
    var counted := PickUpTo(selected, limit);
    stale, answered, gone' := |counted|, *, gone;
    var reached: bool := *;
    if !reached { return false, stale, gone; }
    if stale == 0 { return true, stale, gone; }
    var dropped := PickUpTo(selected, limit);
    if !answered {
      dropped :| dropped <= selected && |dropped| <= limit;
    }
    DropEdgesMore(g, gone, dropped, r);
    DroppedOf(StaleEdges(g, r), gone, dropped);
    graph.RemoveEdges(dropped);
    gone' := gone + dropped;
  }

  method SweepEdgeBatch(graph: Graph, r: Reconcile, limit: nat, ghost g: Store, ghost gone: set<EdgeKey>)
    returns (ok: bool, stale: nat, ghost gone': set<EdgeKey>, ghost clean: bool)
    requires limit > 0 && gone <= StaleEdges(g, r) && graph.Value() == DropEdges(g, gone)
    modifies graph
    ensures gone <= gone' <= StaleEdges(g, r) && graph.Value() == DropEdges(g, gone')
    ensures ok && stale < limit ==> gone' == StaleEdges(g, r)
    ensures ok ==> stale <= limit && stale <= |gone'| - |gone|
    ensures ok && clean ==> stale == |gone'| - |gone|
  {
    gone', clean, stale := gone, true, 0;
    for attempt := 1 to TRANSIENT_ATTEMPTS + 1
      invariant gone <= gone' <= StaleEdges(g, r) && graph.Value() == DropEdges(g, gone')
      invariant clean ==> gone' == gone
    {
      CardinalityWithin(gone, gone');
      ok, stale, gone' := TryDropEdges(graph, r, limit, g, gone');
      if ok { return; }
      clean := false;
      var transient: bool := *;
      if !transient { return; }
    }
    ok := false;
  }

  /** The drop loop over vertices. `complete` is false only when it met its batch cap. */
  method SweepStaleVertices(graph: Graph, r: Reconcile, limit: nat)
    returns (ok: bool, tombstoned: nat, complete: bool, ghost ids: set<string>, ghost clean: bool)
    requires limit > 0
    modifies graph
    ensures ids <= StaleVertices(old(graph.Value()), r) && graph.Value() == DropVertices(old(graph.Value()), ids)
    ensures ok ==> tombstoned <= |ids| && (clean ==> tombstoned == |ids|)
    ensures ok && complete ==> ids == StaleVertices(old(graph.Value()), r)
    ensures ok && |StaleVertices(old(graph.Value()), r)| < limit * RECONCILE_MAX_BATCHES ==> complete
  {
    ghost var g := graph.Value();
    ids, tombstoned, clean, ok, complete := {}, 0, true, true, false;
    DropVerticesMore(g, {}, {}, r);
    var batches, stale := 0, limit;
    while stale == limit && batches < RECONCILE_MAX_BATCHES
      invariant ids <= StaleVertices(g, r) && graph.Value() == DropVertices(g, ids)
      invariant tombstoned <= |ids| && (clean ==> tombstoned == |ids|)
      invariant stale < limit ==> ids == StaleVertices(g, r)
      invariant stale <= limit && batches <= RECONCILE_MAX_BATCHES
      invariant stale == limit ==> |ids| >= limit * batches
      decreases RECONCILE_MAX_BATCHES - batches
    {
      ghost var fine;
      ok, stale, ids, fine := SweepVertexBatch(graph, r, limit, g, ids);
      clean := clean && fine;
      if !ok { return; }
      tombstoned := tombstoned + stale;
      batches := batches + 1;
    }
    complete := stale < limit;
    CardinalityWithin(ids, StaleVertices(g, r));
  }

  method SweepStaleEdges(graph: Graph, r: Reconcile, limit: nat)
    returns (ok: bool, tombstoned: nat, complete: bool, ghost keys: set<EdgeKey>, ghost clean: bool)
    requires limit > 0
    modifies graph
    ensures keys <= StaleEdges(old(graph.Value()), r) && graph.Value() == DropEdges(old(graph.Value()), keys)
    ensures ok ==> tombstoned <= |keys| && (clean ==> tombstoned == |keys|)
    ensures ok && complete ==> keys == StaleEdges(old(graph.Value()), r)
    ensures ok && |StaleEdges(old(graph.Value()), r)| < limit * RECONCILE_MAX_BATCHES ==> complete
  {
    ghost var g := graph.Value();
    keys, tombstoned, clean, ok, complete := {}, 0, true, true, false;
    DropEdgesMore(g, {}, {}, r);
    var batches, stale := 0, limit;
    while stale == limit && batches < RECONCILE_MAX_BATCHES
      invariant keys <= StaleEdges(g, r) && graph.Value() == DropEdges(g, keys)
      invariant tombstoned <= |keys| && (clean ==> tombstoned == |keys|)
      invariant stale < limit ==> keys == StaleEdges(g, r)
      invariant stale <= limit && batches <= RECONCILE_MAX_BATCHES
      invariant stale == limit ==> |keys| >= limit * batches
      decreases RECONCILE_MAX_BATCHES - batches
    {
      ghost var fine;
      ok, stale, keys, fine := SweepEdgeBatch(graph, r, limit, g, keys);
      clean := clean && fine;
      if !ok { return; }
      tombstoned := tombstoned + stale;
      batches := batches + 1;
    }
    complete := stale < limit;
    CardinalityWithin(keys, StaleEdges(g, r));
  }

  /** Both drop loops, vertices first. */
  method Sweep(graph: Graph, r: Reconcile, limit: nat) returns (ok: bool, tombstoned: nat, ghost clean: bool)
    requires limit > 0
    modifies graph
    ensures PartlyReconciled(old(graph.Value()), graph.Value(), r)
    ensures ok && UnderCap(old(graph.Value()), r, limit) ==> graph.Value() == Reconciled(old(graph.Value()), r)
    ensures ok && UnderCap(old(graph.Value()), r, limit) ==>
              tombstoned <= StaleCount(old(graph.Value()), r)
              && (clean ==> tombstoned == StaleCount(old(graph.Value()), r))
  {
    ghost var g := graph.Value();
    var complete;
    ghost var ids: set<string>, keys: set<EdgeKey>, fine;
    ok, tombstoned, complete, ids, fine := SweepStaleVertices(graph, r, limit);
    ghost var g1 := graph.Value();
    clean := fine;
    DropEdgesMore(g1, {}, {}, r);
    assert ReconciledPart(g, g1, r, ids, {});
    CardinalityWithin(ids, StaleVertices(g, r));
    if !ok { return; }
    var more;
    ok, more, complete, keys, fine := SweepStaleEdges(graph, r, limit);
    clean := clean && fine;
    CardinalityWithin(keys, StaleEdges(g1, r));
    assert ReconciledPart(g, graph.Value(), r, ids, keys);
    if ok { tombstoned := tombstoned + more; }
  }

  /** Everything stale gone: the single set deletion that the batched loops amount to. */
  function Reconciled(g: Store, r: Reconcile): Store {
    var g1 := DropVertices(g, StaleVertices(g, r));
    DropEdges(g1, StaleEdges(g1, r))
  }

  /** How many selected elements the two loops drop between them. */
  function StaleCount(g: Store, r: Reconcile): nat {
    |StaleVertices(g, r)| + |StaleEdges(DropVertices(g, StaleVertices(g, r)), r)|
  }

  ghost predicate UnderCap(g: Store, r: Reconcile, limit: nat) {
    && |StaleVertices(g, r)| < limit * RECONCILE_MAX_BATCHES
    && |StaleEdges(DropVertices(g, StaleVertices(g, r)), r)| < limit * RECONCILE_MAX_BATCHES
  }

  /** Removes only elements the reconcile selects, and edges of removed vertices. */
  ghost predicate PartlyReconciled(g: Store, h: Store, r: Reconcile) {
    exists ids, keys :: ReconciledPart(g, h, r, ids, keys)
  }

  ghost predicate ReconciledPart(g: Store, h: Store, r: Reconcile, ids: set<string>, keys: set<EdgeKey>) {
    && ids <= StaleVertices(g, r) && keys <= StaleEdges(DropVertices(g, ids), r)
    && h == DropEdges(DropVertices(g, ids), keys)
  }

  /** A write without deletions: every stored element stays. */
  ghost predicate NothingDeleted(g: Store, h: Store) {
    g.vertices.Keys <= h.vertices.Keys && g.edges.Keys <= h.edges.Keys
  }

  lemma PartsDeleteNothing(g: Store, h: Store, ns: seq<NodeMutation>, es: seq<EdgeMutation>)
    requires PartlyDelivered(g, h, ns, es)
    ensures NothingDeleted(g, h)
  {
    forall k | k in g.edges ensures k in h.edges {
      assert EdgeReached(g, h, es, k);
      var ws :| WrittenBy(g, h, es, k, ws);
      PutAllKeeps(EdgeAt(g, k), ws);
    }
  }

  lemma NodesThenEdges(g: Store, a: Store, h: Store, ns: seq<NodeMutation>, es: seq<EdgeMutation>)
    requires NodesInProgress(g, a, ns) && EdgesInProgress(a, h, es)
    ensures PartlyDelivered(g, h, ns, es)
  {
    assert forall id :: VertexAt(h, id) == VertexAt(a, id);
    forall k ensures EdgeReached(g, h, es, k) {
      EdgeUntouched(g, a, es, k);
      assert EdgeReached(a, h, es, k);
      EdgeReachedThrough(g, a, h, es, k);
    }
    forall id | id in g.vertices ensures id in h.vertices {
      assert VertexAt(a, id) == VertexAt(g, id) || VertexAt(a, id).Some?;
    }
  }

  /** One complete delivery of a batch: every vertex and every edge applied. */
  ghost predicate Delivered(g: Store, h: Store, ns: seq<NodeMutation>, es: seq<EdgeMutation>) {
    EdgesPut(PutNodes(g, ns), h, es)
  }

  /** A finished edge phase, for some cut into chunks and some interleaving. */
  ghost predicate EdgePhase(g: Store, edges: seq<EdgeMutation>, w: Writing) {
    Finished(w) && exists chunks, schedule :: EdgePhaseOf(g, edges, w, chunks, schedule)
  }

  ghost predicate EdgePhaseOf(g: Store, edges: seq<EdgeMutation>, w: Writing, chunks: Chunks, schedule: seq<EdgeWrites.Event>) {
    Flatten(chunks) == edges && w == EdgeWrites.Run(chunks, Start(g, |chunks|), schedule)
  }

  /** Some chunk's first isolation failed after it had recorded a skip. */
  ghost predicate SkippedTwice(w: Writing) { exists p :: p in w.chunks && p.again != [] }

  /** The counts of a result: skips are those lacking an endpoint and the repeated ones, and the edges
      are right exactly when none was repeated. */
  ghost predicate CountsOf(g: Store, nodes: seq<NodeMutation>, edges: seq<EdgeMutation>, w: Writing, r: WriteResult) {
    && r.nodes == |nodes| && r.edges + r.skipped == |edges|
    && r.skipped == |Lacking(g, edges)| + |Repeated(w.chunks)|
    && (r.edges == |edges| - |Lacking(g, edges)| <==> !SkippedTwice(w))
  }

  lemma CountsRight(g: Store, edges: seq<EdgeMutation>, w: Writing)
    requires EdgePhase(g, edges, w)
    ensures |w.skipped| == |Lacking(g, edges)| + |Repeated(w.chunks)|
    ensures |Repeated(w.chunks)| == 0 <==> !SkippedTwice(w)
  {
    var chunks, schedule :| EdgePhaseOf(g, edges, w, chunks, schedule);
    FinishedWrites(g, edges, chunks, schedule);
    NothingRepeated(w.chunks);
  }

  class Repository {
    const graph: Graph
    const chunkSize: nat
    const reconcileBatchSize: nat

    constructor (graph: Graph, chunkSize: nat, reconcileBatchSize: nat)
      requires 1 <= chunkSize <= 200 && 1 <= reconcileBatchSize
      ensures this.graph == graph && this.reconcileBatchSize == reconcileBatchSize && this.chunkSize == chunkSize
    {
      this.graph, this.chunkSize, this.reconcileBatchSize := graph, chunkSize, reconcileBatchSize;
    }

    /** The upserts of one write: all vertices, then all edges. */
    method Upsert(nodes: seq<NodeMutation>, edges: seq<EdgeMutation>,
                  nodeBytes: NodeMutation -> nat, edgeBytes: EdgeMutation -> nat)
      returns (ok: bool, skipped: nat, ghost written: Writing)
      requires DistinctNodes(nodes)
      modifies graph
      ensures PartlyDelivered(old(graph.Value()), graph.Value(), nodes, edges)
      ensures ok ==> Delivered(old(graph.Value()), graph.Value(), nodes, edges)
      ensures ok ==> EdgePhase(PutNodes(old(graph.Value()), nodes), edges, written) && skipped == |written.skipped|
    {
      ghost var g := graph.Value();
      skipped, written := 0, Start(g, 0);
      var nodeChunks := ChunkElements(nodes, nodeBytes, chunkSize, MUTATION_CHUNK_MAX_BYTES);
      PackSplits(WithinChunk(nodeBytes, chunkSize, MUTATION_CHUNK_MAX_BYTES), [], nodes);
      assert [] + nodes == nodes;
      ok := WriteNodes(graph, nodes, nodeChunks);
      ghost var g1 := graph.Value();
      if !ok {
        NothingInProgress(g1, edges);
        NodesThenEdges(g, g1, g1, nodes, edges);
        return;
      }
      var edgeChunks := ChunkElements(edges, edgeBytes, chunkSize, MUTATION_CHUNK_MAX_BYTES);
      PackSplits(WithinChunk(edgeBytes, chunkSize, MUTATION_CHUNK_MAX_BYTES), [], edges);
      assert [] + edges == edges;
      var lacking;
      ghost var schedule;
      ok, lacking, schedule := WriteEdges(graph, edges, edgeChunks);
      NodesThenEdges(g, g1, graph.Value(), nodes, edges);
      skipped, written := |lacking|, EdgeWrites.Run(edgeChunks, Start(g1, |edgeChunks|), schedule);
      assert EdgePhaseOf(g1, edges, written, edgeChunks, schedule);
    }

    /** One write: the upserts, and only when they all succeeded the reconcile. None is a thrown
        error; `swept` says whether the reconcile was reached, `before` is the store it found. */
    method Write(nodes: seq<NodeMutation>, edges: seq<EdgeMutation>, reconcile: Option<Reconcile>,
                 nodeBytes: NodeMutation -> nat, edgeBytes: EdgeMutation -> nat)
      returns (result: Option<WriteResult>, ghost swept: bool, ghost clean: bool, ghost written: Writing, ghost before: Store)
      requires reconcileBatchSize > 0 && DistinctNodes(nodes)
      modifies graph
      ensures swept ==> reconcile.Some?
      ensures swept ==> Delivered(old(graph.Value()), before, nodes, edges)
                        && PartlyReconciled(before, graph.Value(), reconcile.value)
      ensures !swept ==> PartlyDelivered(old(graph.Value()), graph.Value(), nodes, edges)
      ensures result.Some? ==> swept == reconcile.Some?
      ensures result.Some? && !swept ==> Delivered(old(graph.Value()), graph.Value(), nodes, edges)
      ensures result.Some? && !swept ==> result.value.tombstoned == 0
      ensures result.Some? && swept && UnderCap(before, reconcile.value, reconcileBatchSize) ==>
                && graph.Value() == Reconciled(before, reconcile.value)
                && result.value.tombstoned <= StaleCount(before, reconcile.value)
                && (clean ==> result.value.tombstoned == StaleCount(before, reconcile.value))
      ensures result.Some? ==>
                && EdgePhase(PutNodes(old(graph.Value()), nodes), edges, written)
                && CountsOf(PutNodes(old(graph.Value()), nodes), nodes, edges, written, result.value)
    {
      clean, swept := true, false;
      ghost var g1 := PutNodes(graph.Value(), nodes);
      var ok, skipped;
      ok, skipped, written := Upsert(nodes, edges, nodeBytes, edgeBytes);
      before := graph.Value();
      if !ok { return None, swept, clean, written, before; }
      CountsRight(g1, edges, written);
      var tombstoned := 0;
      if reconcile.Some? {
        swept := true;
        ok, tombstoned, clean := Sweep(graph, reconcile.value, reconcileBatchSize);
        if !ok { return None, swept, clean, written, before; }
      }
      result := Some(WriteResult(|nodes|, |edges| - skipped, skipped, tombstoned));
    }
  }
}
