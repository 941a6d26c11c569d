/** The edge phase of one write. Chunks are written side by side into one shared list of skipped edges:
    a chunk whose reply is unreadable is isolated element by element, and one that fails, there or
    before, is isolated again, or for the first time, into the same list. A schedule of events is an
    interleaving of the chunks with the environment's choices. */
module EdgeWrites {
  import opened Basics
  import opened GraphStore
  import opened Packing

  const TRANSIENT_ATTEMPTS := 6

  // ----- partial application of a list of edge writes

  ghost predicate EdgesInProgress(g: Store, h: Store, es: seq<EdgeMutation>) {
    SomeEdgesPut(g, h, es) && h.vertices == g.vertices
  }

  predicate CanHold(g: Store, key: EdgeKey) { key in g.edges || HasEndpoints(g, key) }

  /** Nothing older than the write is left at its key. */
  ghost predicate EdgeDone(g: Store, h: Store, m: EdgeMutation) {
    if CanHold(g, m.key) then m.key in h.edges && !Older(h.edges[m.key].version, m.observedAt) else m.key !in h.edges
  }

  /** Each of the edges was applied, and nothing else. */
  ghost predicate EdgesPut(g: Store, h: Store, es: seq<EdgeMutation>) {
    EdgesInProgress(g, h, es) && forall m :: m in es ==> EdgeDone(g, h, m)
  }

  lemma EdgeProgress(g: Store, h: Store, m: EdgeMutation, es: seq<EdgeMutation>)
    requires EdgesInProgress(g, h, es) && m in es
    ensures var h' := UpsertEdge(h, m);
            && EdgesInProgress(g, h', es) && EdgeDone(g, h', m)
            && forall n :: n in es && EdgeDone(g, h, n) ==> EdgeDone(g, h', n)
  {
    var h' := UpsertEdge(h, m);
    forall k ensures EdgeReached(g, h', es, k) {
      UpsertEdgeAt(h, m, k);
      if k == m.key {
        EdgeReachedOnce(g, h, h', es, m);
      } else {
        EdgeUntouched(h, h', es, k);
        EdgeReachedThrough(g, h, h', es, k);
      }
    }
    ReachedCanHold(g, h, es, m.key);
  }

  lemma NothingInProgress(g: Store, es: seq<EdgeMutation>)
    ensures EdgesInProgress(g, g, es)
  {
    forall k ensures EdgeReached(g, g, es, k) { EdgeUntouched(g, g, es, k); }
  }

  /** What can be created does not change while edges are written. */
  lemma ReachedCanHold(g: Store, h: Store, es: seq<EdgeMutation>, k: EdgeKey)
    requires EdgeReached(g, h, es, k) && h.vertices == g.vertices
    ensures CanHold(h, k) <==> CanHold(g, k)
  {
    var ws :| WrittenBy(g, h, es, k, ws);
    if EdgeAt(g, k).Some? { PutAllKeeps(EdgeAt(g, k), ws); }
  }

  lemma {:induction false} PutAllKeeps(was: Option<Edge>, ws: seq<EdgeMutation>)
    ensures was.Some? ==> PutAll(was, ws).Some? && NotOlderThan(PutAll(was, ws).value.version, was.value.version)
    decreases |ws|
  {
    if ws != [] { PutAllKeeps(was, ws[..|ws| - 1]); }
  }

  ghost predicate Lists(es: seq<EdgeMutation>, k: EdgeKey) { exists m :: m in es && m.key == k }

  /** An edge listed more than once under one date is left as by one of its writes, whichever came first. */
  lemma OneDateOneWrite(g: Store, h: Store, es: seq<EdgeMutation>, k: EdgeKey) returns (m: EdgeMutation)
    requires EdgesPut(g, h, es) && CanHold(g, k) && Lists(es, k)
    requires forall m, m' :: m in es && m' in es && m.key == k == m'.key ==> m.observedAt == m'.observedAt
    ensures m in es && m.key == k && EdgeAt(h, k) == Some(GraphStore.PutEdge(EdgeAt(g, k), m))
  {
    m :| m in es && m.key == k;
    assert EdgeDone(g, h, m) && EdgeReached(g, h, es, k);
    var ws :| WrittenBy(g, h, es, k, ws);
    if ws != [] {
      m := ws[0];
      FirstDecides(EdgeAt(g, k), ws);
    }
  }

  /** With no key listed twice, every edge applied is one pass over the edges. */
  lemma PutOnce(g: Store, h: Store, es: seq<EdgeMutation>)
    requires DistinctEdges(es) && EdgesPut(g, h, es)
    ensures h == PutEdges(g, es)
  {
    var once := PutEdges(g, es);
    PutEdgesAt(g, es, EdgeKey("", "", ""));
    assert forall id :: VertexAt(h, id) == VertexAt(once, id);
    forall k ensures EdgeAt(h, k) == EdgeAt(once, k) { PutOnceAt(g, h, es, k); }
    SameStore(h, once);
  }

  lemma PutOnceAt(g: Store, h: Store, es: seq<EdgeMutation>, k: EdgeKey)
    requires DistinctEdges(es) && EdgesPut(g, h, es)
    ensures EdgeAt(h, k) == EdgeAt(PutEdges(g, es), k)
  {
    PutEdgesAt(g, es, k);
    assert EdgeReached(g, h, es, k);
    var ws :| WrittenBy(g, h, es, k, ws);
    if ws != [] { assert ws[0] in ws && Lists(es, k); }
    if Lists(es, k) && CanHold(g, k) {
      forall m, m' | m in es && m' in es && m.key == k == m'.key ensures m.observedAt == m'.observedAt { SameKeySame(es, m, m'); }
      var m := OneDateOneWrite(g, h, es, k);
    } else if m :| m in es && m.key == k {
      assert EdgeDone(g, h, m);
    }
  }

  /** The edges that cannot be created from g: not stored and short of an endpoint. */
  function Lacking(g: Store, es: seq<EdgeMutation>): seq<EdgeMutation> {
    if es == [] then [] else
      var rest := Lacking(g, es[..|es| - 1]);
      var last := es[|es| - 1];
      if CanHold(g, last.key) then rest else rest + [last]
  }

  lemma {:induction false} LackingConcat(g: Store, a: seq<EdgeMutation>, b: seq<EdgeMutation>)
    ensures Lacking(g, a + b) == Lacking(g, a) + Lacking(g, b)
    decreases |b|
  {
    if b == [] {
      assert a + b == a;
    } else {
      assert (a + b)[..|a + b| - 1] == a + b[..|b| - 1];
      LackingConcat(g, a, b[..|b| - 1]);
    }
  }

  // ----- the machine

  /** How the reply to a chunk's one chained traversal comes out: it names what was written, it cannot
      be read, or the call throws after any part of the chunk was applied. */
  datatype Reply = Readable | Unreadable | Thrown

  /** `first`: the isolation started by an unreadable reply, whose failure is caught; else the one in
      the handler, whose failure ends the write. */
  datatype Phase = Waiting | Isolating(first: bool, pos: nat, attempt: nat) | Wrote | Lost

  /** `own` is all the chunk has put in the shared list; `again` what its first isolation had put there
      when it failed. */
  datatype Progress = Progress(phase: Phase, own: seq<EdgeMutation>, again: seq<EdgeMutation>)

  datatype Writing = Writing(store: Store, skipped: seq<EdgeMutation>, chunks: seq<Progress>)

  type Chunks = seq<seq<EdgeMutation>>

  datatype Event =
    | Chain(chunk: nat, reach: nat, reply: Reply)
    | Attempt(chunk: nat, applied: bool, answered: bool, transient: bool)

  function Start(g: Store, n: nat): Writing {
    Writing(g, [], seq(n, i => Progress(Waiting, [], [])))
  }

  /** Chunks start in order, and none once a chunk has failed. */
  predicate MayStart(ps: seq<Phase>, c: nat) {
    c < |ps| && ps[c].Waiting? && (forall b :: 0 <= b < |ps| ==> !ps[b].Lost?) && (forall b :: 0 <= b < c ==> !ps[b].Waiting?)
  }

  function PhasesOf(ps: seq<Progress>): (r: seq<Phase>)
    ensures |r| == |ps| && forall c :: 0 <= c < |ps| ==> r[c] == ps[c].phase
  {
    seq(|ps|, c requires 0 <= c < |ps| => ps[c].phase)
  }

  function Unwritten(h: Store, es: seq<EdgeMutation>): seq<EdgeMutation> {
    if es == [] then [] else
      var rest := Unwritten(h, es[..|es| - 1]);
      if es[|es| - 1].key in h.edges then rest else rest + [es[|es| - 1]]
  }

  function Reached(chunk: seq<EdgeMutation>, reach: nat): seq<EdgeMutation> {
    if reach < |chunk| then chunk[..reach] else chunk
  }

  function AfterChain(chunk: seq<EdgeMutation>, s: Writing, c: nat, reach: nat, reply: Reply): Writing
    requires c < |s.chunks|
  {
    var store := PutEdges(s.store, Reached(chunk, reach));
    if reply.Readable? && reach >= |chunk| then
      var missing := Unwritten(store, chunk);
      Writing(store, s.skipped + missing, s.chunks[c := Progress(Wrote, missing, [])])
    else
      Writing(store, s.skipped, s.chunks[c := Progress(if chunk == [] then Wrote else Isolating(reply.Unreadable?, 0, 1), [], [])])
  }

  function Missing(h: Store, m: EdgeMutation): seq<EdgeMutation> { if m.key in h.edges then [] else [m] }

  function Advanced(h: Store, chunk: seq<EdgeMutation>, p: Progress): Progress
    requires p.phase.Isolating? && p.phase.pos < |chunk|
  {
    var pos := p.phase.pos;
    Progress(if pos + 1 == |chunk| then Wrote else Isolating(p.phase.first, pos + 1, 1), p.own + Missing(h, chunk[pos]), p.again)
  }

  function Failed(p: Progress, transient: bool): Progress
    requires p.phase.Isolating?
  {
    if transient && p.phase.attempt < TRANSIENT_ATTEMPTS then p.(phase := p.phase.(attempt := p.phase.attempt + 1))
    else if p.phase.first then Progress(Isolating(false, 0, 1), p.own, p.own)
    else p.(phase := Lost)
  }

  function AfterAttempt(chunk: seq<EdgeMutation>, s: Writing, c: nat, applied: bool, answered: bool, transient: bool): Writing
    requires c < |s.chunks| && s.chunks[c].phase.Isolating? && s.chunks[c].phase.pos < |chunk|
  {
    var p := s.chunks[c];
    var m := chunk[p.phase.pos];
    var store := if applied then UpsertEdge(s.store, m) else s.store;
    if applied && answered then
      Writing(store, s.skipped + Missing(store, m), s.chunks[c := Advanced(store, chunk, p)])
    else
      Writing(store, s.skipped, s.chunks[c := Failed(p, transient)])
  }

  function After(chunks: Chunks, s: Writing, e: Event): Writing {
    if e.chunk >= |chunks| || |s.chunks| != |chunks| then s
    else match e
      case Chain(c, reach, reply) =>
        if MayStart(PhasesOf(s.chunks), c) then AfterChain(chunks[c], s, c, reach, reply) else s
      case Attempt(c, applied, answered, transient) =>
        if s.chunks[c].phase.Isolating? && s.chunks[c].phase.pos < |chunks[c]| then
          AfterAttempt(chunks[c], s, c, applied, answered, transient)
        else s
  }

  function Run(chunks: Chunks, s: Writing, schedule: seq<Event>): Writing {
    if schedule == [] then s
    else After(chunks, Run(chunks, s, schedule[..|schedule| - 1]), schedule[|schedule| - 1])
  }

  predicate Finished(s: Writing) { forall c :: 0 <= c < |s.chunks| ==> s.chunks[c].phase.Wrote? }

  /** What one attempt at one element comes to. Applied and answered, it is recorded as skipped exactly when
      the edge is still not there, and the isolation moves on; else nothing is recorded, and the attempt is
      repeated when the failure is transient and it was not the sixth. Otherwise an isolation begun by an
      unreadable reply is begun anew, and any other one loses the chunk. */
  lemma AttemptExactly(chunk: seq<EdgeMutation>, s: Writing, c: nat, applied: bool, answered: bool, transient: bool)
    requires c < |s.chunks| && s.chunks[c].phase.Isolating? && s.chunks[c].phase.pos < |chunk|
    ensures var t, p := AfterAttempt(chunk, s, c, applied, answered, transient), s.chunks[c].phase;
            var m := chunk[p.pos];
            && t.store == (if applied then UpsertEdge(s.store, m) else s.store)
            && (forall b :: 0 <= b < |s.chunks| && b != c ==> t.chunks[b] == s.chunks[b])
            && (applied && answered ==>
                  && t.skipped == s.skipped + (if m.key in t.store.edges then [] else [m])
                  && t.chunks[c].phase == (if p.pos + 1 == |chunk| then Wrote else Isolating(p.first, p.pos + 1, 1)))
            && (!(applied && answered) ==>
                  && t.skipped == s.skipped
                  && t.chunks[c].phase == (if transient && p.attempt < 6 then Isolating(p.first, p.pos, p.attempt + 1)
                                           else if p.first then Isolating(false, 0, 1) else Lost))
  {
  }

  /** What a chunk's one chained traversal comes to: its front is applied; a readable reply to all of it
      records the edges that are still not there, and anything else begins an isolation. */
  lemma ChainExactly(chunk: seq<EdgeMutation>, s: Writing, c: nat, reach: nat, reply: Reply)
    requires c < |s.chunks| && chunk != []
    ensures var t := AfterChain(chunk, s, c, reach, reply);
            && t.store == PutEdges(s.store, if reach < |chunk| then chunk[..reach] else chunk)
            && (forall b :: 0 <= b < |s.chunks| && b != c ==> t.chunks[b] == s.chunks[b])
            && (reply.Readable? && reach >= |chunk| ==>
                  && t.chunks[c].phase == Wrote && s.skipped <= t.skipped
                  && forall m :: m in t.skipped[|s.skipped|..] <==> m in chunk && m.key !in t.store.edges)
            && (!(reply.Readable? && reach >= |chunk|) ==>
                  t.skipped == s.skipped && t.chunks[c].phase == Isolating(reply.Unreadable?, 0, 1))
  {
    var t := AfterChain(chunk, s, c, reach, reply);
    if reply.Readable? && reach >= |chunk| {
      assert t.skipped[|s.skipped|..] == Unwritten(t.store, chunk);
      UnwrittenListed(t.store, chunk);
    }
  }

  lemma {:induction false} UnwrittenListed(h: Store, es: seq<EdgeMutation>)
    ensures forall m :: m in Unwritten(h, es) <==> m in es && m.key !in h.edges
    decreases |es|
  {
    if es != [] {
      UnwrittenListed(h, es[..|es| - 1]);
      assert forall m :: m in es <==> m in es[..|es| - 1] || m == es[|es| - 1];
    }
  }

  /** What lacks an endpoint: an edge that is not stored and misses the vertex at one end. */
  lemma {:induction false} LackingListed(g: Store, es: seq<EdgeMutation>)
    ensures forall m :: m in Lacking(g, es) <==>
              m in es && m.key !in g.edges && (m.key.from !in g.vertices || m.key.to !in g.vertices)
    decreases |es|
  {
    if es != [] {
      LackingListed(g, es[..|es| - 1]);
      assert forall m :: m in es <==> m in es[..|es| - 1] || m == es[|es| - 1];
    }
  }

  // ----- what every event keeps

  ghost predicate DoneUpTo(g: Store, h: Store, chunk: seq<EdgeMutation>, n: nat) {
    n <= |chunk| && forall j :: 0 <= j < n ==> EdgeDone(g, h, chunk[j])
  }

  ghost predicate ChunkOk(g: Store, h: Store, chunk: seq<EdgeMutation>, p: Progress) {
    match p.phase
    case Waiting => p.own == [] && p.again == []
    case Isolating(first, pos, attempt) =>
      && pos < |chunk| && 1 <= attempt <= TRANSIENT_ATTEMPTS && DoneUpTo(g, h, chunk, pos)
      && p.own == p.again + Lacking(g, chunk[..pos]) && (first ==> p.again == [])
    case Wrote => DoneUpTo(g, h, chunk, |chunk|) && p.own == p.again + Lacking(g, chunk)
    case Lost => true
  }

  /** What a failed first isolation leaves is what the front of its chunk lacks. */
  ghost predicate AgainOk(g: Store, chunk: seq<EdgeMutation>, p: Progress) {
    p.again == [] || exists j :: 0 <= j < |chunk| && p.again == Lacking(g, chunk[..j])
  }

  ghost predicate Fits(g: Store, h: Store, chunk: seq<EdgeMutation>, p: Progress) {
    ChunkOk(g, h, chunk, p) && AgainOk(g, chunk, p)
  }

  function Owns(ps: seq<Progress>): seq<EdgeMutation> {
    if ps == [] then [] else Owns(ps[..|ps| - 1]) + ps[|ps| - 1].own
  }

  ghost predicate Inv(g: Store, edges: seq<EdgeMutation>, chunks: Chunks, s: Writing) {
    && |s.chunks| == |chunks| && EdgesInProgress(g, s.store, edges)
    && (forall c :: 0 <= c < |chunks| ==> Fits(g, s.store, chunks[c], s.chunks[c]))
    && multiset(s.skipped) == multiset(Owns(s.chunks))
  }

  lemma OwnsOneMore(front: seq<Progress>, last: Progress)
    ensures multiset(Owns(front + [last])) == multiset(Owns(front)) + multiset(last.own)
  {
    assert (front + [last])[..|front|] == front;
  }

  lemma {:induction false} OwnsUpdate(ps: seq<Progress>, c: nat, p: Progress, more: seq<EdgeMutation>)
    requires c < |ps| && p.own == ps[c].own + more
    ensures multiset(Owns(ps[c := p])) == multiset(Owns(ps)) + multiset(more)
    decreases |ps|
  {
    var front, last := ps[..|ps| - 1], ps[|ps| - 1];
    assert ps == front + [last];
    OwnsOneMore(front, last);
    if c == |ps| - 1 {
      assert ps[c := p] == front + [p];
      OwnsOneMore(front, p);
    } else {
      assert ps[c := p] == front[c := p] + [last];
      OwnsOneMore(front[c := p], last);
      OwnsUpdate(front, c, p, more);
    }
  }

  lemma {:induction false} OwnsNothing(n: nat)
    ensures Owns(seq(n, i => Progress(Waiting, [], []))) == []
  {
    if n > 0 {
      OwnsNothing(n - 1);
      assert seq(n, i => Progress(Waiting, [], []))[..n - 1] == seq(n - 1, i => Progress(Waiting, [], []));
    }
  }

  lemma StartOk(g: Store, edges: seq<EdgeMutation>, chunks: Chunks)
    ensures Inv(g, edges, chunks, Start(g, |chunks|))
  {
    OwnsNothing(|chunks|);
    NothingInProgress(g, edges);
  }

  /** Applying more of the batch keeps the store a partial application and undoes nothing. */
  lemma {:induction false} PutSome(g: Store, h: Store, some: seq<EdgeMutation>, edges: seq<EdgeMutation>)
    requires EdgesInProgress(g, h, edges) && forall m :: m in some ==> m in edges
    ensures var h' := PutEdges(h, some);
            && EdgesInProgress(g, h', edges)
            && (forall m :: m in some ==> EdgeDone(g, h', m))
            && (forall n :: n in edges && EdgeDone(g, h, n) ==> EdgeDone(g, h', n))
    decreases |some|
  {
    if some != [] {
      var front, last := some[..|some| - 1], some[|some| - 1];
      assert forall m :: m in some <==> m in front || m == last;
      PutSome(g, h, front, edges);
      EdgeProgress(g, PutEdges(h, front), last, edges);
    }
  }

  lemma {:induction false} UnwrittenIsLacking(g: Store, h: Store, es: seq<EdgeMutation>)
    requires forall m :: m in es ==> EdgeDone(g, h, m)
    ensures Unwritten(h, es) == Lacking(g, es)
    decreases |es|
  {
    if es != [] {
      assert EdgeDone(g, h, es[|es| - 1]);
      UnwrittenIsLacking(g, h, es[..|es| - 1]);
    }
  }

  ghost predicate Later(g: Store, edges: seq<EdgeMutation>, h: Store, h': Store) {
    EdgesInProgress(g, h', edges) && forall n :: n in edges && EdgeDone(g, h, n) ==> EdgeDone(g, h', n)
  }

  /** Chunks not touched stay as they were. */
  lemma FitsLater(g: Store, h: Store, h': Store, edges: seq<EdgeMutation>, chunk: seq<EdgeMutation>, p: Progress)
    requires Fits(g, h, chunk, p) && Later(g, edges, h, h') && forall m :: m in chunk ==> m in edges
    ensures Fits(g, h', chunk, p)
  {
    forall j | 0 <= j < |chunk| && EdgeDone(g, h, chunk[j]) ensures EdgeDone(g, h', chunk[j]) {
      assert chunk[j] in edges;
    }
  }

  lemma ChunkMembers(edges: seq<EdgeMutation>, chunks: Chunks, c: nat)
    requires Flatten(chunks) == edges && c < |chunks|
    ensures forall m :: m in chunks[c] ==> m in edges
  {
    forall m | m in chunks[c] ensures m in edges { FlattenMember(chunks, c, m); }
  }

  /** One chunk changed, the store further along: the invariant holds again. */
  lemma InvAfter(g: Store, edges: seq<EdgeMutation>, chunks: Chunks, s: Writing, c: nat, store: Store, p: Progress, more: seq<EdgeMutation>)
    requires Flatten(chunks) == edges && Inv(g, edges, chunks, s) && c < |chunks|
    requires Later(g, edges, s.store, store) && Fits(g, store, chunks[c], p) && p.own == s.chunks[c].own + more
    ensures Inv(g, edges, chunks, Writing(store, s.skipped + more, s.chunks[c := p]))
  {
    OwnsUpdate(s.chunks, c, p, more);
    forall b | 0 <= b < |chunks| ensures Fits(g, store, chunks[b], s.chunks[c := p][b]) {
      ChunkMembers(edges, chunks, b);
      if b != c { FitsLater(g, s.store, store, edges, chunks[b], s.chunks[b]); }
    }
  }

  lemma InvAfterQuietly(g: Store, edges: seq<EdgeMutation>, chunks: Chunks, s: Writing, c: nat, store: Store, p: Progress)
    requires Flatten(chunks) == edges && Inv(g, edges, chunks, s) && c < |chunks|
    requires Later(g, edges, s.store, store) && Fits(g, store, chunks[c], p) && p.own == s.chunks[c].own
    ensures Inv(g, edges, chunks, Writing(store, s.skipped, s.chunks[c := p]))
  {
    assert s.skipped + [] == s.skipped && p.own + [] == p.own;
    InvAfter(g, edges, chunks, s, c, store, p, []);
  }

  lemma WroteFits(g: Store, h: Store, chunk: seq<EdgeMutation>, missing: seq<EdgeMutation>)
    requires (forall m :: m in chunk ==> EdgeDone(g, h, m)) && missing == Lacking(g, chunk)
    ensures Fits(g, h, chunk, Progress(Wrote, missing, []))
  {
    assert [] + missing == missing;
  }

  lemma BegunFits(g: Store, h: Store, chunk: seq<EdgeMutation>, first: bool)
    ensures Fits(g, h, chunk, Progress(if chunk == [] then Wrote else Isolating(first, 0, 1), [], []))
  {
    assert chunk[..0] == [];
  }

  /** One more element of an isolation answered. */
  lemma AdvancedFits(g: Store, h: Store, chunk: seq<EdgeMutation>, p: Progress)
    requires p.phase.Isolating? && Fits(g, h, chunk, p) && EdgeDone(g, h, chunk[p.phase.pos])
    ensures Fits(g, h, chunk, Advanced(h, chunk, p))
  {
    var pos := p.phase.pos;
    var missing := Missing(h, chunk[pos]);
    assert chunk[..pos + 1][..pos] == chunk[..pos];
    assert Lacking(g, chunk[..pos + 1]) == Lacking(g, chunk[..pos]) + missing;
    assert p.again + Lacking(g, chunk[..pos]) + missing == p.again + Lacking(g, chunk[..pos + 1]);
    if pos + 1 == |chunk| { assert chunk[..pos + 1] == chunk; }
  }

  /** A failed attempt: tried again, or its isolation caught and begun anew, or the write lost. */
  lemma FailedFits(g: Store, h: Store, chunk: seq<EdgeMutation>, p: Progress, transient: bool)
    requires p.phase.Isolating? && Fits(g, h, chunk, p)
    ensures Fits(g, h, chunk, Failed(p, transient)) && Failed(p, transient).own == p.own
  {
    if !(transient && p.phase.attempt < TRANSIENT_ATTEMPTS) && p.phase.first {
      assert chunk[..0] == [] && p.own + [] == p.own;
      assert p.own == Lacking(g, chunk[..p.phase.pos]);
    }
  }

  lemma ChainKeepsInv(g: Store, edges: seq<EdgeMutation>, chunks: Chunks, s: Writing, c: nat, reach: nat, reply: Reply)
    requires Flatten(chunks) == edges && Inv(g, edges, chunks, s)
    requires c < |chunks| && s.chunks[c].phase.Waiting?
    ensures Inv(g, edges, chunks, AfterChain(chunks[c], s, c, reach, reply))
  {
    var chunk := chunks[c];
    ChunkMembers(edges, chunks, c);
    PutSome(g, s.store, Reached(chunk, reach), edges);
    var store := PutEdges(s.store, Reached(chunk, reach));
    assert Fits(g, s.store, chunk, s.chunks[c]) && s.chunks[c].own == [];
    if reply.Readable? && reach >= |chunk| {
      UnwrittenIsLacking(g, store, chunk);
      var missing := Unwritten(store, chunk);
      WroteFits(g, store, chunk, missing);
      InvAfter(g, edges, chunks, s, c, store, Progress(Wrote, missing, []), missing);
    } else {
      BegunFits(g, store, chunk, reply.Unreadable?);
      InvAfterQuietly(g, edges, chunks, s, c, store, Progress(if chunk == [] then Wrote else Isolating(reply.Unreadable?, 0, 1), [], []));
    }
  }

  lemma AttemptMovesOn(g: Store, edges: seq<EdgeMutation>, chunk: seq<EdgeMutation>, h: Store, p: Progress, applied: bool)
    requires EdgesInProgress(g, h, edges) && Fits(g, h, chunk, p) && p.phase.Isolating?
    requires forall m :: m in chunk ==> m in edges
    ensures var h' := if applied then UpsertEdge(h, chunk[p.phase.pos]) else h;
            && Later(g, edges, h, h') && Fits(g, h', chunk, p) && (applied ==> EdgeDone(g, h', chunk[p.phase.pos]))
  {
    EdgeProgress(g, h, chunk[p.phase.pos], edges);
    if applied { FitsLater(g, h, UpsertEdge(h, chunk[p.phase.pos]), edges, chunk, p); }
  }

  lemma AttemptKeepsInv(g: Store, edges: seq<EdgeMutation>, chunks: Chunks, s: Writing, c: nat, applied: bool, answered: bool, transient: bool)
    requires Flatten(chunks) == edges && Inv(g, edges, chunks, s)
    requires c < |chunks| && s.chunks[c].phase.Isolating? && s.chunks[c].phase.pos < |chunks[c]|
    ensures Inv(g, edges, chunks, AfterAttempt(chunks[c], s, c, applied, answered, transient))
  {
    var chunk, p := chunks[c], s.chunks[c];
    ChunkMembers(edges, chunks, c);
    assert Fits(g, s.store, chunk, p);
    AttemptMovesOn(g, edges, chunk, s.store, p, applied);
    var store := if applied then UpsertEdge(s.store, chunk[p.phase.pos]) else s.store;
    if applied && answered {
      AdvancedFits(g, store, chunk, p);
      InvAfter(g, edges, chunks, s, c, store, Advanced(store, chunk, p), Missing(store, chunk[p.phase.pos]));
    } else {
      FailedFits(g, store, chunk, p, transient);
      InvAfterQuietly(g, edges, chunks, s, c, store, Failed(p, transient));
    }
  }

  lemma {:induction false} RunKeepsInv(g: Store, edges: seq<EdgeMutation>, chunks: Chunks, schedule: seq<Event>)
    requires Flatten(chunks) == edges
    ensures Inv(g, edges, chunks, Run(chunks, Start(g, |chunks|), schedule))
    decreases |schedule|
  {
    if schedule == [] {
      StartOk(g, edges, chunks);
    } else {
      RunKeepsInv(g, edges, chunks, schedule[..|schedule| - 1]);
      var s, e := Run(chunks, Start(g, |chunks|), schedule[..|schedule| - 1]), schedule[|schedule| - 1];
      if e.chunk < |chunks| {
        match e
        case Chain(c, reach, reply) =>
          if MayStart(PhasesOf(s.chunks), c) { ChainKeepsInv(g, edges, chunks, s, c, reach, reply); }
        case Attempt(c, applied, answered, transient) =>
          if s.chunks[c].phase.Isolating? && s.chunks[c].phase.pos < |chunks[c]| {
            AttemptKeepsInv(g, edges, chunks, s, c, applied, answered, transient);
          }
      }
    }
  }

  // ----- what a finished edge phase has skipped

  /** All that failed first isolations had recorded. */
  function Repeated(ps: seq<Progress>): seq<EdgeMutation> {
    if ps == [] then [] else Repeated(ps[..|ps| - 1]) + ps[|ps| - 1].again
  }

  lemma {:induction false} OwnsAreLacking(g: Store, h: Store, chunks: Chunks, ps: seq<Progress>)
    requires |ps| == |chunks|
    requires forall c :: 0 <= c < |ps| ==> ps[c].phase.Wrote? && Fits(g, h, chunks[c], ps[c])
    ensures multiset(Owns(ps)) == multiset(Lacking(g, Flatten(chunks))) + multiset(Repeated(ps))
    decreases |ps|
  {
    if ps == [] {
      assert Flatten(chunks) == [];
    } else {
      var n := |ps| - 1;
      OwnsAreLacking(g, h, chunks[..n], ps[..n]);
      assert chunks == chunks[..n] + [chunks[n]];
      FlattenConcat(chunks[..n], [chunks[n]]);
      FlattenOne(chunks[n]);
      LackingConcat(g, Flatten(chunks[..n]), chunks[n]);
    }
  }

  lemma {:induction false} NothingRepeated(ps: seq<Progress>)
    ensures Repeated(ps) == [] <==> forall c :: 0 <= c < |ps| ==> ps[c].again == []
    decreases |ps|
  {
    if ps != [] { NothingRepeated(ps[..|ps| - 1]); }
  }

  /** What a finished edge phase comes to, in any interleaving: every edge applied; the list holds
      each edge that lacks an endpoint, and once more each one that a failed first isolation had
      recorded. */
  lemma FinishedWrites(g: Store, edges: seq<EdgeMutation>, chunks: Chunks, schedule: seq<Event>)
    requires Flatten(chunks) == edges
    requires Finished(Run(chunks, Start(g, |chunks|), schedule))
    ensures var s := Run(chunks, Start(g, |chunks|), schedule);
            && EdgesPut(g, s.store, edges)
            && multiset(s.skipped) == multiset(Lacking(g, edges)) + multiset(Repeated(s.chunks))
            && |s.skipped| == |Lacking(g, edges)| + |Repeated(s.chunks)|
  {
    RunKeepsInv(g, edges, chunks, schedule);
    var s := Run(chunks, Start(g, |chunks|), schedule);
    OwnsAreLacking(g, s.store, chunks, s.chunks);
    forall m | m in edges ensures EdgeDone(g, s.store, m) {
      var c := BatchWith(chunks, m);
      var j :| 0 <= j < |chunks[c]| && chunks[c][j] == m;
      assert Fits(g, s.store, chunks[c], s.chunks[c]);
    }
    assert |multiset(s.skipped)| == |s.skipped|;
    assert |multiset(Lacking(g, edges)) + multiset(Repeated(s.chunks))| == |Lacking(g, edges)| + |Repeated(s.chunks)|;
  }

  /** Exactly when the skipped list, and so the two edge counts of the result, are right: unless some
      chunk's first isolation failed after it had recorded a skip. */
  lemma SkippedIsLackingExactlyWhen(g: Store, edges: seq<EdgeMutation>, chunks: Chunks, schedule: seq<Event>)
    requires Flatten(chunks) == edges
    requires Finished(Run(chunks, Start(g, |chunks|), schedule))
    ensures var s := Run(chunks, Start(g, |chunks|), schedule);
            && |s.chunks| == |chunks|
            && (multiset(s.skipped) == multiset(Lacking(g, edges)) <==> forall c :: 0 <= c < |chunks| ==> s.chunks[c].again == [])
            && (|s.skipped| == |Lacking(g, edges)| <==> forall c :: 0 <= c < |chunks| ==> s.chunks[c].again == [])
  {
    FinishedWrites(g, edges, chunks, schedule);
    RunKeepsInv(g, edges, chunks, schedule);
    var s := Run(chunks, Start(g, |chunks|), schedule);
    NothingRepeated(s.chunks);
    if multiset(s.skipped) == multiset(Lacking(g, edges)) {
      assert |multiset(s.skipped)| == |multiset(Lacking(g, edges))|;
    }
  }

  /** Only an unreadable reply leads there. */
  lemma {:induction false} RepeatsNeedUnreadable(g: Store, chunks: Chunks, schedule: seq<Event>, c: nat)
    requires c < |chunks|
    ensures var s := Run(chunks, Start(g, |chunks|), schedule);
            && |s.chunks| == |chunks|
            && (s.chunks[c].again != [] || (s.chunks[c].phase.Isolating? && s.chunks[c].phase.first)
                ==> exists reach :: Chain(c, reach, Unreadable) in schedule)
    decreases |schedule|
  {
    if schedule != [] {
      var before, e := schedule[..|schedule| - 1], schedule[|schedule| - 1];
      RepeatsNeedUnreadable(g, chunks, before, c);
      assert forall x :: x in schedule <==> x in before || x == e;
    }
  }

  // ----- the order of the list

  /** No chunk starts before the earlier ones are written, as with a single worker. */
  predicate OneAtATime(g: Store, chunks: Chunks, schedule: seq<Event>) {
    schedule == []
    || var front, e := schedule[..|schedule| - 1], schedule[|schedule| - 1];
       && OneAtATime(g, chunks, front)
       && (e.Chain? ==> EarlierWrote(Run(chunks, Start(g, |chunks|), front).chunks, e.chunk))
  }

  predicate EarlierWrote(ps: seq<Progress>, c: nat) {
    forall b :: 0 <= b < c && b < |ps| ==> ps[b].phase.Wrote?
  }

  ghost predicate InTurn(ps: seq<Progress>) {
    forall c :: 0 <= c < |ps| ==> (ps[c].phase.Waiting? ==> ps[c].own == []) && (!ps[c].phase.Waiting? ==> EarlierWrote(ps, c))
  }

  lemma {:induction false} OwnsUpdateLast(ps: seq<Progress>, c: nat, p: Progress, more: seq<EdgeMutation>)
    requires c < |ps| && p.own == ps[c].own + more && forall b :: c < b < |ps| ==> ps[b].own == []
    ensures Owns(ps[c := p]) == Owns(ps) + more
    decreases |ps|
  {
    var front, last := ps[..|ps| - 1], ps[|ps| - 1];
    if c == |ps| - 1 {
      assert ps[c := p][..|ps| - 1] == front;
    } else {
      OwnsUpdateLast(front, c, p, more);
      assert ps[c := p][..|ps| - 1] == front[c := p];
    }
  }

  /** A chunk that moves while all later ones wait adds to the end. */
  lemma TurnAdds(ps: seq<Progress>, c: nat, p: Progress, more: seq<EdgeMutation>)
    requires InTurn(ps) && c < |ps| && !ps[c].phase.Wrote? && EarlierWrote(ps, c)
    requires p.own == ps[c].own + more && !p.phase.Waiting?
    ensures InTurn(ps[c := p]) && Owns(ps[c := p]) == Owns(ps) + more
  {
    assert forall b :: c < b < |ps| ==> ps[b].phase.Waiting?;
    OwnsUpdateLast(ps, c, p, more);
    var qs := ps[c := p];
    forall b | 0 <= b < |qs| && !qs[b].phase.Waiting? ensures EarlierWrote(qs, b) {
      assert b <= c;
    }
  }

  lemma {:induction false} InTurnRun(g: Store, chunks: Chunks, schedule: seq<Event>)
    requires OneAtATime(g, chunks, schedule)
    ensures var s := Run(chunks, Start(g, |chunks|), schedule);
            |s.chunks| == |chunks| && InTurn(s.chunks) && s.skipped == Owns(s.chunks)
    decreases |schedule|
  {
    if schedule == [] {
      OwnsNothing(|chunks|);
    } else {
      var front, e := schedule[..|schedule| - 1], schedule[|schedule| - 1];
      InTurnRun(g, chunks, front);
      var s := Run(chunks, Start(g, |chunks|), front);
      if e.chunk < |chunks| { InTurnStep(chunks, s, e); }
    }
  }

  lemma InTurnStep(chunks: Chunks, s: Writing, e: Event)
    requires e.chunk < |chunks| == |s.chunks| && InTurn(s.chunks) && s.skipped == Owns(s.chunks)
    requires e.Chain? ==> EarlierWrote(s.chunks, e.chunk)
    ensures var t := After(chunks, s, e); |t.chunks| == |chunks| && InTurn(t.chunks) && t.skipped == Owns(t.chunks)
  {
    var c := e.chunk;
    var t := After(chunks, s, e);
    var p, p' := s.chunks[c], t.chunks[c];
    if e.Chain? && MayStart(PhasesOf(s.chunks), c) {
      TurnAdds(s.chunks, c, p', p'.own);
      assert t.chunks == s.chunks[c := p'] && t.skipped == s.skipped + p'.own;
    } else if e.Attempt? && p.phase.Isolating? && p.phase.pos < |chunks[c]| {
      assert p.own <= p'.own;
      TurnAdds(s.chunks, c, p', p'.own[|p.own|..]);
      assert t.chunks == s.chunks[c := p'] && t.skipped == s.skipped + p'.own[|p.own|..];
    }
  }

  lemma {:induction false} OwnsAreLackingInOrder(g: Store, h: Store, chunks: Chunks, ps: seq<Progress>)
    requires |ps| == |chunks|
    requires forall c :: 0 <= c < |ps| ==> ps[c].phase.Wrote? && Fits(g, h, chunks[c], ps[c]) && ps[c].again == []
    ensures Owns(ps) == Lacking(g, Flatten(chunks))
    decreases |ps|
  {
    if ps == [] {
      assert Flatten(chunks) == [];
    } else {
      var n := |ps| - 1;
      OwnsAreLackingInOrder(g, h, chunks[..n], ps[..n]);
      assert chunks == chunks[..n] + [chunks[n]];
      FlattenConcat(chunks[..n], [chunks[n]]);
      FlattenOne(chunks[n]);
      LackingConcat(g, Flatten(chunks[..n]), chunks[n]);
      assert ps[n].own == [] + Lacking(g, chunks[n]) == Lacking(g, chunks[n]);
    }
  }

  /** One chunk after the other, and no repeats: the list is what is lacking, in order. */
  lemma SkippedInOrder(g: Store, edges: seq<EdgeMutation>, chunks: Chunks, schedule: seq<Event>)
    requires Flatten(chunks) == edges && OneAtATime(g, chunks, schedule)
    requires Finished(Run(chunks, Start(g, |chunks|), schedule))
    requires forall p :: p in Run(chunks, Start(g, |chunks|), schedule).chunks ==> p.again == []
    ensures Run(chunks, Start(g, |chunks|), schedule).skipped == Lacking(g, edges)
  {
    RunKeepsInv(g, edges, chunks, schedule);
    InTurnRun(g, chunks, schedule);
    var s := Run(chunks, Start(g, |chunks|), schedule);
    OwnsAreLackingInOrder(g, s.store, chunks, s.chunks);
  }

  // ----- both conditions are needed

  lemma RunOne(chunks: Chunks, s: Writing, a: Event)
    ensures Run(chunks, s, [a]) == After(chunks, s, a)
  {
    assert [a][..0] == [];
    assert Run(chunks, s, [a][..0]) == s;
  }

  lemma RunMore(chunks: Chunks, s: Writing, es: seq<Event>, a: Event)
    ensures Run(chunks, s, es + [a]) == After(chunks, Run(chunks, s, es), a)
  {
    assert (es + [a])[..|es|] == es;
  }

  lemma RunFour(chunks: Chunks, s: Writing, a: Event, b: Event, c: Event, d: Event) returns (es: seq<Event>)
    ensures Run(chunks, s, es) == After(chunks, After(chunks, After(chunks, After(chunks, s, a), b), c), d)
  {
    RunOne(chunks, s, a);
    RunMore(chunks, s, [a], b);
    RunMore(chunks, s, [a] + [b], c);
    RunMore(chunks, s, [a] + [b] + [c], d);
    es := [a] + [b] + [c] + [d];
  }

  function Orphan(labelName: string): EdgeMutation { EdgeMutation(EdgeKey(labelName, "a", "b"), map[], 0) }

  /** Two edges without endpoints, an unreadable reply, and an isolation that records the first and
      fails on the second: the first is counted twice, and the edges written come out as minus one. */
  lemma SkipCountedTwice() returns (edges: seq<EdgeMutation>, schedule: seq<Event>)
    ensures DistinctEdges(edges) && |edges| == 2
    ensures var s := Run([edges], Start(Store(map[], map[]), 1), schedule);
            Finished(s) && s.skipped == [edges[0], edges[0], edges[1]] && |edges| - |s.skipped| == -1
  {
    var a, b, g := Orphan("A"), Orphan("B"), Store(map[], map[]);
    edges := [a, b];
    var chunks := [edges];
    var e1, e2, e3 := Chain(0, 2, Unreadable), Attempt(0, true, true, false), Attempt(0, false, false, false);
    var s0 := Start(g, 1);
    assert s0 == Writing(g, [], [Progress(Waiting, [], [])]);
    var s2 := FirstRecorded(a, b);
    var s3 := FirstFailed(a, b, s2);
    SecondIsolation(a, b);
    schedule := RunFour(chunks, s0, e1, e2, e3, e2);
    RunMore(chunks, s0, schedule, e2);
    schedule := schedule + [e2];
  }

  lemma FirstFailed(a: EdgeMutation, b: EdgeMutation, s: Writing) returns (t: Writing)
    requires s == Writing(Store(map[], map[]), [a], [Progress(Isolating(true, 1, 1), [a], [])])
    ensures t == After([[a, b]], s, Attempt(0, false, false, false))
    ensures t == Writing(Store(map[], map[]), [a], [Progress(Isolating(false, 0, 1), [a], [a])])
  {
    t := Writing(Store(map[], map[]), [a], [Progress(Isolating(false, 0, 1), [a], [a])]);
  }

  lemma FirstRecorded(a: EdgeMutation, b: EdgeMutation) returns (s: Writing)
    requires a.key != b.key
    ensures var chunks := [[a, b]];
            s == After(chunks, After(chunks, Writing(Store(map[], map[]), [], [Progress(Waiting, [], [])]), Chain(0, 2, Unreadable)),
                       Attempt(0, true, true, false))
    ensures s == Writing(Store(map[], map[]), [a], [Progress(Isolating(true, 1, 1), [a], [])])
  {
    var g, chunks := Store(map[], map[]), [[a, b]];
    var none := Writing(g, [], [Progress(Waiting, [], [])]);
    assert [a, b][..1] == [a] && [a][..0] == [];
    assert PutEdges(g, []) == g && PutEdges(g, [a]) == g && PutEdges(g, [a, b]) == g;
    var s1 := Writing(g, [], [Progress(Isolating(true, 0, 1), [], [])]);
    assert After(chunks, none, Chain(0, 2, Unreadable)) == s1;
    s := Writing(g, [a], [Progress(Isolating(true, 1, 1), [a], [])]);
    assert [] + [a] == [a];
    assert After(chunks, s1, Attempt(0, true, true, false)) == s;
  }

  lemma SecondIsolation(a: EdgeMutation, b: EdgeMutation)
    ensures var chunks, e := [[a, b]], Attempt(0, true, true, false);
            After(chunks, After(chunks, Writing(Store(map[], map[]), [a], [Progress(Isolating(false, 0, 1), [a], [a])]), e), e)
            == Writing(Store(map[], map[]), [a, a, b], [Progress(Wrote, [a, a, b], [a])])
  {
    var g, chunks, e := Store(map[], map[]), [[a, b]], Attempt(0, true, true, false);
    var s4 := Writing(g, [a, a], [Progress(Isolating(false, 1, 1), [a, a], [a])]);
    assert [a] + [a] == [a, a] && [a, a] + [b] == [a, a, b];
    assert After(chunks, Writing(g, [a], [Progress(Isolating(false, 0, 1), [a], [a])]), e) == s4;
    assert After(chunks, s4, e) == Writing(g, [a, a, b], [Progress(Wrote, [a, a, b], [a])]);
  }

  /** Two chunks side by side: the later one's edge can come first in the list. */
  lemma SkipsOutOfOrder(a: EdgeMutation, b: EdgeMutation) returns (schedule: seq<Event>)
    requires a.key != b.key
    ensures var s := Run([[a], [b]], Start(Store(map[], map[]), 2), schedule);
            Finished(s) && s.skipped == [b, a] && Lacking(Store(map[], map[]), [a, b]) == [a, b]
  {
    var g := Store(map[], map[]);
    var chunks, s0 := [[a], [b]], Start(g, 2);
    var e1, e2, e3, e4 := Chain(0, 0, Thrown), Chain(1, 0, Thrown), Attempt(1, true, true, false), Attempt(0, true, true, false);
    var s2 := BothThrown(a, b);
    schedule := RunFour(chunks, s0, e1, e2, e3, e4);
    LaterFirst(a, b, s2);
    assert [a, b][..1] == [a] && [a][..0] == [];
    assert Lacking(g, [a]) == [a];
  }

  lemma BothThrown(a: EdgeMutation, b: EdgeMutation) returns (s: Writing)
    ensures s == After([[a], [b]], After([[a], [b]], Start(Store(map[], map[]), 2), Chain(0, 0, Thrown)), Chain(1, 0, Thrown))
    ensures s == Writing(Store(map[], map[]), [], [Progress(Isolating(false, 0, 1), [], []), Progress(Isolating(false, 0, 1), [], [])])
  {
    var g, chunks := Store(map[], map[]), [[a], [b]];
    var none, begun := Progress(Waiting, [], []), Progress(Isolating(false, 0, 1), [], []);
    assert Start(g, 2) == Writing(g, [], [none, none]);
    assert [a][..0] == [] && [b][..0] == [] && PutEdges(g, []) == g;
    assert After(chunks, Writing(g, [], [none, none]), Chain(0, 0, Thrown)) == Writing(g, [], [begun, none]);
    s := Writing(g, [], [begun, begun]);
    assert After(chunks, Writing(g, [], [begun, none]), Chain(1, 0, Thrown)) == s;
  }

  lemma LaterFirst(a: EdgeMutation, b: EdgeMutation, s: Writing)
    requires s == Writing(Store(map[], map[]), [], [Progress(Isolating(false, 0, 1), [], []), Progress(Isolating(false, 0, 1), [], [])])
    ensures After([[a], [b]], After([[a], [b]], s, Attempt(1, true, true, false)), Attempt(0, true, true, false))
         == Writing(Store(map[], map[]), [b, a], [Progress(Wrote, [a], []), Progress(Wrote, [b], [])])
  {
    var g, chunks, begun := Store(map[], map[]), [[a], [b]], Progress(Isolating(false, 0, 1), [], []);
    assert [] + [b] == [b] && [] + [a] == [a] && [b] + [a] == [b, a];
    var t := Writing(g, [b], [begun, Progress(Wrote, [b], [])]);
    assert After(chunks, s, Attempt(1, true, true, false)) == t;
    assert After(chunks, t, Attempt(0, true, true, false)) == Writing(g, [b, a], [Progress(Wrote, [a], []), Progress(Wrote, [b], [])]);
  }

  // ----- every interleaving ends

  function WorkLeft(chunk: seq<EdgeMutation>, phase: Phase): nat {
    var round := TRANSIENT_ATTEMPTS + 1;
    match phase
    case Waiting => 2 * round * |chunk| + 5
    case Isolating(first, pos, attempt) =>
      (if first then round * |chunk| + 2 else 0)
      + (if pos < |chunk| && attempt <= TRANSIENT_ATTEMPTS then round * (|chunk| - pos) - attempt + 2 else 0)
    case _ => 0
  }

  function TotalWork(chunks: Chunks, ps: seq<Phase>): nat
    requires |ps| == |chunks|
  {
    if ps == [] then 0 else TotalWork(chunks[..|ps| - 1], ps[..|ps| - 1]) + WorkLeft(chunks[|ps| - 1], ps[|ps| - 1])
  }

  lemma {:induction false} WorkUpdate(chunks: Chunks, ps: seq<Phase>, c: nat, phase: Phase)
    requires |ps| == |chunks| && c < |ps|
    ensures TotalWork(chunks, ps[c := phase]) + WorkLeft(chunks[c], ps[c]) == TotalWork(chunks, ps) + WorkLeft(chunks[c], phase)
    decreases |ps|
  {
    var n := |ps| - 1;
    if c == n {
      assert ps[c := phase][..n] == ps[..n];
    } else {
      WorkUpdate(chunks[..n], ps[..n], c, phase);
      assert ps[c := phase][..n] == ps[..n][c := phase];
    }
  }
}
