/** The tail of a collection run: duplicates merged, scope stamps added, batches shipped over an
    at-least-once channel, and the reconcile asked for only when every service was collected. */
module Collector {
  import opened Basics
  import opened GraphStore
  import opened EdgeWrites
  import opened GraphRepository
  import opened Convergence
  import opened ScopeIsolation
  import opened Packing

  // ----- what the collection stages produced

  /** None is an undefined or null property. */
  type RawProps = map<string, Option<Value>>

  datatype RawNode = RawNode(id: string, labelName: string, props: RawProps, clear: Option<seq<string>>, observedAt: Option<int>)

  datatype RawEdge = RawEdge(key: EdgeKey, props: RawProps, observedAt: Option<int>)

  datatype Status = Succeeded | Failed | Skipped

  datatype Coverage = Coverage(service: string, status: Status, failureType: string, completedAt: int, nodes: nat, edges: nat)

  // ----- merging duplicates

  function PreferDefined(earlier: RawProps, later: RawProps): RawProps {
    earlier + (map k | k in later && later[k].Some? :: later[k])
  }

  function MergeNode(earlier: RawNode, later: RawNode): RawNode {
    RawNode(later.id, later.labelName, PreferDefined(earlier.props, later.props),
            if later.clear.Some? then later.clear else earlier.clear,
            if later.observedAt.Some? then later.observedAt else earlier.observedAt)
  }

  function IdsOf(nodes: seq<RawNode>): seq<string> {
    if nodes == [] then [] else
      var rest := IdsOf(nodes[..|nodes| - 1]);
      var id := nodes[|nodes| - 1].id;
      if id in rest then rest else rest + [id]
  }

  function MergedNode(nodes: seq<RawNode>, id: string): (r: Option<RawNode>)
    ensures r.Some? <==> id in IdsOf(nodes)
    ensures r.Some? ==> r.value.id == id
  {
    if nodes == [] then None else
      var rest := MergedNode(nodes[..|nodes| - 1], id);
      var last := nodes[|nodes| - 1];
      if last.id != id then rest else if rest.None? then Some(last) else Some(MergeNode(rest.value, last))
  }

  /** One node per id, in order of first appearance. */
  function Merged(nodes: seq<RawNode>): (merged: seq<RawNode>)
    ensures |merged| == |IdsOf(nodes)| && forall i :: 0 <= i < |merged| ==> merged[i].id == IdsOf(nodes)[i]
  {
    var ids := IdsOf(nodes);
    seq(|ids|, i requires 0 <= i < |ids| => MergedNode(nodes, ids[i]).value)
  }

  method MergeDuplicateNodes(nodes: seq<RawNode>) returns (merged: seq<RawNode>)
    ensures merged == Merged(nodes)
  {
    var order: seq<string>, byId: map<string, RawNode> := [], map[];
    for i := 0 to |nodes|
      invariant MergedSoFar(nodes[..i], order, byId)
    {
      assert nodes[..i + 1] == nodes[..i] + [nodes[i]];
      var node := nodes[i];
      MergeOneMore(nodes[..i], order, byId, node);
      if node.id in byId {
        byId := byId[node.id := MergeNode(byId[node.id], node)];
      } else {
        order := order + [node.id];
        byId := byId[node.id := node];
      }
    }
    assert nodes[..|nodes|] == nodes;
    merged := [];
    for i := 0 to |order|
      invariant merged == Merged(nodes)[..i]
    {
      assert order[i] in order;
      merged := merged + [byId[order[i]]];
    }
  }

  ghost predicate MergedSoFar(nodes: seq<RawNode>, order: seq<string>, byId: map<string, RawNode>) {
    && order == IdsOf(nodes)
    && (forall id :: id in byId <==> id in order)
    && (forall id :: MergedNode(nodes, id) == if id in byId then Some(byId[id]) else None)
  }

  lemma MergeOneMore(nodes: seq<RawNode>, order: seq<string>, byId: map<string, RawNode>, node: RawNode)
    requires MergedSoFar(nodes, order, byId)
    ensures MergedSoFar(nodes + [node], if node.id in byId then order else order + [node.id],
                        byId[node.id := if node.id in byId then MergeNode(byId[node.id], node) else node])
  {
    assert (nodes + [node])[..|nodes|] == nodes;
    forall id ensures MergedNode(nodes + [node], id)
                   == if node.id != id then MergedNode(nodes, id)
                      else if id in byId then Some(MergeNode(byId[id], node)) else Some(node)
    {
    }
  }

  /** Whether some node carries a defined value for the key, and the last such value. */
  function LastDefined(nodes: seq<RawNode>, id: string, key: string): Option<Value> {
    if nodes == [] then None else
      var last := nodes[|nodes| - 1];
      if last.id == id && key in last.props && last.props[key].Some? then last.props[key]
      else LastDefined(nodes[..|nodes| - 1], id, key)
  }

  function Defined(props: RawProps, key: string): Option<Value> {
    if key in props then props[key] else None
  }

  /** Merging only ever adds information: each property ends with the last defined value any stage
      reported for it, and never becomes undefined once some stage defined it. */
  lemma {:induction false} MergeKeepsLastDefined(nodes: seq<RawNode>, id: string, key: string)
    ensures MergedNode(nodes, id).Some? <==> exists n :: n in nodes && n.id == id
    ensures MergedNode(nodes, id).Some? ==> Defined(MergedNode(nodes, id).value.props, key) == LastDefined(nodes, id, key)
    ensures MergedNode(nodes, id).None? ==> LastDefined(nodes, id, key).None?
    decreases |nodes|
  {
    if nodes != [] {
      MergeKeepsLastDefined(nodes[..|nodes| - 1], id, key);
      assert nodes == nodes[..|nodes| - 1] + [nodes[|nodes| - 1]];
    }
  }

  /** The merged list has one node for each id that occurs, and no id twice. */
  lemma {:induction false} MergedIds(nodes: seq<RawNode>)
    ensures forall id :: id in IdsOf(nodes) <==> exists n :: n in nodes && n.id == id
    ensures forall i, j :: 0 <= i < j < |IdsOf(nodes)| ==> IdsOf(nodes)[i] != IdsOf(nodes)[j]
    decreases |nodes|
  {
    if nodes != [] {
      MergedIds(nodes[..|nodes| - 1]);
      assert nodes == nodes[..|nodes| - 1] + [nodes[|nodes| - 1]];
    }
  }

  /** The last report of an id. */
  predicate LastOf(nodes: seq<RawNode>, id: string, i: int) {
    0 <= i < |nodes| && nodes[i].id == id && forall j :: i < j < |nodes| ==> nodes[j].id != id
  }

  /** What else a merged vertex keeps: the label of its last report, and the last list of properties to
      clear and the last date that any report gave. */
  lemma {:induction false} MergeKeepsLast(nodes: seq<RawNode>, id: string)
    ensures MergedNode(nodes, id).Some? ==>
              var n := MergedNode(nodes, id).value;
              && (exists i :: LastOf(nodes, id, i) && n.labelName == nodes[i].labelName)
              && n.clear == LastClear(nodes, id) && n.observedAt == LastDate(nodes, id)
    ensures MergedNode(nodes, id).None? ==> LastClear(nodes, id).None? && LastDate(nodes, id).None?
    decreases |nodes|
  {
    if nodes != [] {
      var front, last := nodes[..|nodes| - 1], nodes[|nodes| - 1];
      MergeKeepsLast(front, id);
      if last.id == id {
        assert LastOf(nodes, id, |nodes| - 1);
      } else if i :| LastOf(front, id, i) && MergedNode(front, id).Some? && MergedNode(front, id).value.labelName == front[i].labelName {
        assert LastOf(nodes, id, i);
      }
    }
  }

  function LastClear(nodes: seq<RawNode>, id: string): Option<seq<string>> {
    if nodes == [] then None
    else if nodes[|nodes| - 1].id == id && nodes[|nodes| - 1].clear.Some? then nodes[|nodes| - 1].clear
    else LastClear(nodes[..|nodes| - 1], id)
  }

  function LastDate(nodes: seq<RawNode>, id: string): Option<int> {
    if nodes == [] then None
    else if nodes[|nodes| - 1].id == id && nodes[|nodes| - 1].observedAt.Some? then nodes[|nodes| - 1].observedAt
    else LastDate(nodes[..|nodes| - 1], id)
  }

  predicate FirstOf(nodes: seq<RawNode>, id: string, i: int) {
    0 <= i < |nodes| && nodes[i].id == id && forall j :: 0 <= j < i ==> nodes[j].id != id
  }

  /** Ids come in the order of their first reports. */
  lemma {:induction false} OrderOfFirstReports(nodes: seq<RawNode>, i: nat, j: nat) returns (a: int, b: int)
    requires i < j < |IdsOf(nodes)|
    ensures FirstOf(nodes, IdsOf(nodes)[i], a) && FirstOf(nodes, IdsOf(nodes)[j], b) && a < b
    decreases |nodes|
  {
    var front, n := nodes[..|nodes| - 1], |nodes| - 1;
    if j < |IdsOf(front)| {
      a, b := OrderOfFirstReports(front, i, j);
    } else {
      a := FirstReport(front, IdsOf(front)[i]);
      b := n;
      MergedIds(front);
      forall k | 0 <= k < n ensures nodes[k].id != IdsOf(nodes)[j] { assert front[k] in front; }
    }
  }

  lemma FirstReport(nodes: seq<RawNode>, id: string) returns (a: int)
    requires id in IdsOf(nodes)
    ensures FirstOf(nodes, id, a)
  {
    MergedIds(nodes);
    a :| 0 <= a < |nodes| && nodes[a].id == id;
    while exists j :: 0 <= j < a && nodes[j].id == id
      invariant 0 <= a < |nodes| && nodes[a].id == id
      decreases a
    {
      var j :| 0 <= j < a && nodes[j].id == id;
      a := j;
    }
  }

  // ----- coverage

  function FailedServices(coverage: seq<Coverage>): seq<string> {
    if coverage == [] then [] else
      var rest := FailedServices(coverage[..|coverage| - 1]);
      var last := coverage[|coverage| - 1];
      if last.status.Failed? then rest + [last.service] else rest
  }

  function RetryableServices(coverage: seq<Coverage>): seq<string> {
    if coverage == [] then [] else
      var rest := RetryableServices(coverage[..|coverage| - 1]);
      var last := coverage[|coverage| - 1];
      if last.status.Failed? && last.failureType in {"THROTTLED", "TIMEOUT", "TRANSIENT"} then rest + [last.service]
      else rest
  }

  lemma {:induction false} FailedServicesListed(coverage: seq<Coverage>)
    ensures FailedServices(coverage) == [] <==> forall c :: c in coverage ==> !c.status.Failed?
    ensures forall s :: s in FailedServices(coverage) <==> exists c :: c in coverage && c.service == s && c.status.Failed?
    ensures forall s :: s in RetryableServices(coverage) <==>
              exists c :: c in coverage && c.service == s && c.status.Failed?
                       && (c.failureType == "THROTTLED" || c.failureType == "TIMEOUT" || c.failureType == "TRANSIENT")
    decreases |coverage|
  {
    if coverage != [] {
      FailedServicesListed(coverage[..|coverage| - 1]);
      assert coverage == coverage[..|coverage| - 1] + [coverage[|coverage| - 1]];
    }
  }

  // ----- scope stamps

  datatype RunInfo = RunInfo(accountId: string, region: string, runId: string, completedAt: int)

  const INTERNET_NODE_ID := "arn:aws:khalifa:global:internet"

  function ScopeOf(run: RunInfo): string { "resource-inventory:" + run.region }

  function ReconcileOf(run: RunInfo): Reconcile {
    Reconcile(ScopeOf(run), run.runId, run.completedAt, Some(run.accountId), Some(run.region))
  }

  function Stamps(run: RunInfo): Props {
    map["account_id" := Text(run.accountId), "collection_region" := Text(run.region),
        "collection_scope" := Text(ScopeOf(run)), "collection_run_id" := Text(run.runId), "active" := Flag(true)]
  }

  /** Vertices every account writes under one global id are left unscoped. `managed` says whether
      an id is that of an AWS-managed policy. */
  predicate IsShared(node: RawNode, managed: string -> bool) {
    node.id == INTERNET_NODE_ID || managed(node.id) || node.labelName == "ExternalAccount"
  }

  function DefinedProps(props: RawProps): Props {
    map k | k in props && props[k].Some? && k != "" :: props[k].value
  }

  function StampOr(observedAt: Option<int>, fallback: int): int {
    if observedAt.Some? then observedAt.value else fallback
  }

  function ScopedNode(node: RawNode, run: RunInfo, managed: string -> bool): NodeMutation {
    var shared := IsShared(node, managed);
    var props := (DefinedProps(node.props) + if shared then map[] else Stamps(run))["arn" := Text(node.id)];
    var clear := if node.clear.None? then {} else set k | k in node.clear.value && k !in props;
    NodeMutation(node.id, node.labelName, props, clear, StampOr(node.observedAt, run.completedAt))
  }

  function CoverageId(run: RunInfo, service: string): string {
    "arn:aws:khalifa:" + run.region + ":" + run.accountId + ":collection-coverage/" + service
  }

  function CoverageProps(record: Coverage, run: RunInfo): Props {
    var base := map["id" := Text(record.service), "arn" := Text(CoverageId(run, record.service)), "region" := Text(run.region),
                    "service" := Text(record.service), "status" := Text(StatusText(record.status)),
                    "complete" := Flag(!record.status.Failed?),
                    "completed_at" := Number(record.completedAt), "last_attempt_at" := Number(record.completedAt),
                    "failure_type" := Text(record.failureType),
                    "node_count" := Number(record.nodes), "edge_count" := Number(record.edges)];
    if record.status.Succeeded? then base["last_success_at" := Number(record.completedAt)] else base
  }

  /** A coverage vertex keeps the time its own stage ended, which is not after the run's. */
  function CoverageNode(record: Coverage, run: RunInfo): NodeMutation {
    NodeMutation(CoverageId(run, record.service), "CollectionCoverage", CoverageProps(record, run) + Stamps(run), {}, record.completedAt)
  }

  function StatusText(status: Status): string {
    match status
    case Succeeded => "SUCCEEDED"
    case Failed => "FAILED"
    case Skipped => "SKIPPED"
  }

  function ScopedEdge(edge: RawEdge, run: RunInfo): EdgeMutation {
    EdgeMutation(edge.key, DefinedProps(edge.props) + Stamps(run), StampOr(edge.observedAt, run.completedAt))
  }

  function InventoryRecord(coverage: seq<Coverage>, nodes: nat, edges: nat, run: RunInfo): Coverage {
    var failed := FailedServices(coverage) != [];
    Coverage("resource-inventory", if failed then Failed else Succeeded, if failed then "PARTIAL" else "",
             run.completedAt, nodes, edges)
  }

  function MapNodes(nodes: seq<RawNode>, run: RunInfo, managed: string -> bool): seq<NodeMutation> {
    seq(|nodes|, i requires 0 <= i < |nodes| => ScopedNode(nodes[i], run, managed))
  }

  function MapCoverage(coverage: seq<Coverage>, run: RunInfo): seq<NodeMutation> {
    seq(|coverage|, i requires 0 <= i < |coverage| => CoverageNode(coverage[i], run))
  }

  function MapEdges(edges: seq<RawEdge>, run: RunInfo): seq<EdgeMutation> {
    seq(|edges|, i requires 0 <= i < |edges| => ScopedEdge(edges[i], run))
  }

  // ----- what the stamps say

  predicate Says(props: Props, key: string, text: string) { key in props && props[key] == Text(text) }

  /** The five stamps of the run that wrote the element. */
  predicate CarriesStamps(props: Props, run: RunInfo) {
    && Says(props, "account_id", run.accountId) && Says(props, "collection_region", run.region)
    && Says(props, "collection_scope", "resource-inventory:" + run.region) && Says(props, "collection_run_id", run.runId)
    && "active" in props && props["active"] == Flag(true)
  }

  /** A property a stage defined, under a name that is not empty. */
  predicate IsDefined(props: RawProps, key: string) { key != "" && key in props && props[key].Some? }

  /** An emitted vertex is left without the run's stamps exactly when it is the internet, an AWS-managed
      policy or an outside account; its id, label and defined properties are those the stages gave it. */
  lemma EmittedVertexExactly(node: RawNode, run: RunInfo, managed: string -> bool)
    ensures var m := ScopedNode(node, run, managed);
            var shared := node.id == "arn:aws:khalifa:global:internet" || managed(node.id) || node.labelName == "ExternalAccount";
            && m.id == node.id && m.labelName == node.labelName
            && m.observedAt == (if node.observedAt.Some? then node.observedAt.value else run.completedAt)
            && Says(m.props, "arn", node.id)
            && (!shared ==> CarriesStamps(m.props, run))
            && (shared ==> forall key :: key in m.props ==> key == "arn" || IsDefined(node.props, key))
            && (forall key :: IsDefined(node.props, key) && key !in OWN_KEYS ==> key in m.props && m.props[key] == node.props[key].value)
            && (forall key :: key in m.props && key !in OWN_KEYS ==> IsDefined(node.props, key))
            && (forall key :: key in m.clear <==> node.clear.Some? && key in node.clear.value && key !in m.props)
  {
  }

  const OWN_KEYS := {"arn", "account_id", "collection_region", "collection_scope", "collection_run_id", "active"}

  /** A shared vertex keeps even those of them that a stage set. */
  lemma SharedVertexKeeps(node: RawNode, run: RunInfo, managed: string -> bool, key: string)
    requires node.id == "arn:aws:khalifa:global:internet" || managed(node.id) || node.labelName == "ExternalAccount"
    requires IsDefined(node.props, key) && key != "arn"
    ensures var m := ScopedNode(node, run, managed); key in m.props && m.props[key] == node.props[key].value
  {
  }

  /** An emitted edge always carries the stamps. */
  lemma EmittedEdgeExactly(edge: RawEdge, run: RunInfo)
    ensures var m := ScopedEdge(edge, run);
            && m.key == edge.key && CarriesStamps(m.props, run)
            && m.observedAt == (if edge.observedAt.Some? then edge.observedAt.value else run.completedAt)
            && (forall key :: IsDefined(edge.props, key) && key !in OWN_KEYS ==> key in m.props && m.props[key] == edge.props[key].value)
            && (forall key :: key in m.props && key !in OWN_KEYS ==> IsDefined(edge.props, key))
  {
  }

  /** A coverage vertex is its account's and region's for the service, dated when the service ended. It is
      complete unless the service failed, and dates a success only when it succeeded. */
  lemma CoverageVertexExactly(record: Coverage, run: RunInfo)
    ensures var m := CoverageNode(record, run);
            && m.id == "arn:aws:khalifa:" + run.region + ":" + run.accountId + ":collection-coverage/" + record.service
            && m.labelName == "CollectionCoverage" && m.observedAt == record.completedAt && CarriesStamps(m.props, run)
    ensures CompletedAsRecorded(CoverageNode(record, run).props, record)
  {
    CoveragePropsSay(record, run);
  }

  predicate CompletedAsRecorded(props: Props, record: Coverage) {
    && "complete" in props && (props["complete"] == Flag(true) <==> !record.status.Failed?)
    && ("last_success_at" in props <==> record.status.Succeeded?)
  }

  lemma CoveragePropsSay(record: Coverage, run: RunInfo)
    ensures CompletedAsRecorded(CoverageProps(record, run), record)
    ensures "complete" !in Stamps(run) && "last_success_at" !in Stamps(run)
  {
  }

  /** The run's own record: complete exactly when no service failed, with what the run emitted. */
  lemma InventoryExactly(coverage: seq<Coverage>, nodes: nat, edges: nat, run: RunInfo)
    ensures var r := InventoryRecord(coverage, nodes, edges, run);
            && r.service == "resource-inventory" && r.completedAt == run.completedAt && r.nodes == nodes && r.edges == edges
            && (r.status.Succeeded? <==> forall c :: c in coverage ==> !c.status.Failed?)
            && (r.status.Failed? <==> r.failureType == "PARTIAL") && (r.status.Failed? || r.status.Succeeded?)
  {
    FailedServicesListed(coverage);
  }

  /** The reconcile a run asks for is its own account's, region's and scope's, dated at its end. */
  lemma ReconcileExactly(run: RunInfo)
    ensures var r := ReconcileOf(run);
            && r.scope == "resource-inventory:" + run.region && r.runId == run.runId && r.observedAt == run.completedAt
            && r.accountId == Some(run.accountId) && r.region == Some(run.region)
  {
  }

  /** Properties of another scope, account or region than the run's. */
  predicate OfAnother(run: RunInfo, props: Props) {
    || !Says(props, "collection_scope", "resource-inventory:" + run.region)
    || !Says(props, "account_id", run.accountId) || !Says(props, "collection_region", run.region)
  }

  lemma NodeStamped(n: RawNode, run: RunInfo, managed: string -> bool)
    requires "collection_scope" !in n.props
    ensures var m := ScopedNode(n, run, managed); Stamped(ReconcileOf(run), m.props) || Unscoped(m.props)
  {
    StampsAreStamped(run);
    if !IsShared(n, managed) {
      var base := DefinedProps(n.props) + Stamps(run);
      assert forall k :: k in Stamps(run) ==> base["arn" := Text(n.id)][k] == Stamps(run)[k];
    }
  }

  lemma StampsAreStamped(run: RunInfo)
    ensures Stamped(ReconcileOf(run), Stamps(run)) && "arn" !in Stamps(run)
  {
  }

  /** Stamps written over other properties stay. */
  lemma StampedOver(r: Reconcile, props: Props, stamps: Props)
    requires Stamped(r, stamps)
    ensures Stamped(r, props + stamps)
  {
  }

  /** Everything a run emits is either stamped with its scope or shared and unscoped. A shared
      vertex is unscoped as long as no stage put a scope on it. */
  lemma RunEmitsStamped(nodes: seq<RawNode>, coverage: seq<Coverage>, edges: seq<RawEdge>, run: RunInfo, managed: string -> bool)
    requires forall n :: n in nodes ==> "collection_scope" !in n.props
    ensures EmittedBy(ReconcileOf(run), MapNodes(nodes, run, managed) + MapCoverage(coverage, run), MapEdges(edges, run))
  {
    StampsAreStamped(run);
    forall n | n in nodes ensures var m := ScopedNode(n, run, managed); Stamped(ReconcileOf(run), m.props) || Unscoped(m.props) {
      NodeStamped(n, run, managed);
    }
    forall c | c in coverage ensures Stamped(ReconcileOf(run), CoverageNode(c, run).props) { CoverageStamped(c, run); }
    forall e | e in edges ensures Stamped(ReconcileOf(run), ScopedEdge(e, run).props) {
      StampedOver(ReconcileOf(run), DefinedProps(e.props), Stamps(run));
    }
  }

  lemma CoverageStamped(c: Coverage, run: RunInfo)
    ensures Stamped(ReconcileOf(run), CoverageNode(c, run).props)
  {
    StampsAreStamped(run);
    StampedOver(ReconcileOf(run), CoverageProps(c, run), Stamps(run));
  }

  // ----- shipping

  /** The HTTP client: one batch posted until a reply arrives, at most `attempts` times. A post may
      never reach the writer, may fail there part-way, or may succeed and lose its reply. */
  method PostUpserts(repo: Repository, nodes: seq<NodeMutation>, edges: seq<EdgeMutation>, attempts: nat,
                     nodeBytes: NodeMutation -> nat, edgeBytes: EdgeMutation -> nat)
    returns (ok: bool, written: int, skipped: nat, ghost posts: nat, ghost repeats: nat)
    requires repo.reconcileBatchSize > 0 && DistinctNodes(nodes)
    modifies repo.graph
    ensures ok ==> Delivered(old(repo.graph.Value()), repo.graph.Value(), nodes, edges)
    ensures PartlyDelivered(old(repo.graph.Value()), repo.graph.Value(), nodes, edges)
    ensures 1 <= posts <= if attempts <= 1 then 1 else attempts
    ensures ok ==> written + skipped == |nodes| + |edges|
                   && skipped == |Lacking(PutNodes(old(repo.graph.Value()), nodes), edges)| + repeats
  {
    ghost var g := repo.graph.Value();
    var attempt := 1;
    written, skipped, posts, repeats := 0, 0, 0, 0;
    NothingDelivered(g, nodes, edges);
    while true
      invariant PartlyDelivered(g, repo.graph.Value(), nodes, edges)
      invariant posts == attempt - 1 && 1 <= attempt && (attempt == 1 || attempt <= attempts)
      decreases attempts - attempt
    {
      var canRetry := attempt < attempts;
      posts := posts + 1;
      ghost var h := repo.graph.Value();
      var arrived: bool, replied: bool := *, *;
      if arrived {
        LackingAfterParts(g, h, nodes, edges, edges);
        var result;
        ghost var swept, clean, phase, before;
        result, swept, clean, phase, before := repo.Write(nodes, edges, None, nodeBytes, edgeBytes);
        PartsCompose(g, h, repo.graph.Value(), nodes, edges);
        if result.Some? { DeliveredAfterParts(g, h, repo.graph.Value(), nodes, edges); }
        if result.Some? && replied {
          return true, result.value.nodes + result.value.edges, result.value.skipped, posts, |Repeated(phase.chunks)|;
        }
      }
      var busy: bool := *;
      if !busy || !canRetry { return false, 0, 0, posts, 0; }
      attempt := attempt + 1;
    }
  }

  method PostReconcile(repo: Repository, r: Reconcile, attempts: nat,
                       nodeBytes: NodeMutation -> nat, edgeBytes: EdgeMutation -> nat)
    returns (ok: bool, tombstoned: nat)
    requires repo.reconcileBatchSize > 0
    modifies repo.graph
    ensures ok && UnderCap(old(repo.graph.Value()), r, repo.reconcileBatchSize) ==> tombstoned <= StaleCount(old(repo.graph.Value()), r)
    ensures PartlyReconciled(old(repo.graph.Value()), repo.graph.Value(), r)
    ensures ok && UnderCap(old(repo.graph.Value()), r, repo.reconcileBatchSize) ==>
              repo.graph.Value() == Reconciled(old(repo.graph.Value()), r)
  {
    ghost var g := repo.graph.Value();
    var attempt := 1;
    NothingReconciled(g, r);
    while true
      invariant PartlyReconciled(g, repo.graph.Value(), r)
      decreases attempts - attempt
    {
      var canRetry := attempt < attempts;
      ghost var h := repo.graph.Value();
      var arrived: bool, replied: bool := *, *;
      if arrived {
        ReconcileAbsorbsParts(g, h, r);
        if UnderCap(g, r, repo.reconcileBatchSize) { CapKept(g, h, r, repo.reconcileBatchSize); }
        NothingReconciled(h, r);
        var result;
        ghost var swept, clean, phase, before;
        result, swept, clean, phase, before := repo.Write([], [], Some(r), nodeBytes, edgeBytes);
        EmptyPart(h, if swept then before else repo.graph.Value());
        ReconcilePartsCompose(g, h, repo.graph.Value(), r);
        if result.Some? && replied { return true, result.value.tombstoned; }
      }
      var busy: bool := *;
      if !busy || !canRetry { return false, 0; }
      attempt := attempt + 1;
    }
  }

  method ShipNodes(repo: Repository, nodes: seq<NodeMutation>, batches: seq<seq<NodeMutation>>, attempts: nat,
                   nodeBytes: NodeMutation -> nat, edgeBytes: EdgeMutation -> nat)
    returns (ok: bool, written: int, skipped: nat, ghost repeats: nat)
    requires repo.reconcileBatchSize > 0 && DistinctNodes(nodes) && Flatten(batches) == nodes
    modifies repo.graph
    ensures PartlyDelivered(old(repo.graph.Value()), repo.graph.Value(), nodes, [])
    ensures ok ==> repo.graph.Value() == PutNodes(old(repo.graph.Value()), nodes) && written + skipped == |nodes| && skipped == repeats
  {
    ghost var g := repo.graph.Value();
    written, skipped, repeats := 0, 0, 0;
    NothingDelivered(g, nodes, []);
    for i := 0 to |batches|
      invariant written + skipped == |Flatten(batches[..i])| && skipped == repeats
      invariant repo.graph.Value() == PutNodes(g, Flatten(batches[..i]))
      invariant PartlyDelivered(g, repo.graph.Value(), nodes, [])
    {
      Cut(batches, i);
      ghost var a := Flatten(batches[..i]);
      var b := batches[i];
      forall x, y | 0 <= x < y < |b| ensures b[x].id != b[y].id {
        assert nodes[|a| + x].id != nodes[|a| + y].id;
      }
      forall m | m in b ensures m in nodes { FlattenMember(batches, i, m); }
      ghost var h := repo.graph.Value();
      var w, k;
      ghost var posts, more;
      ok, w, k, posts, more := PostUpserts(repo, b, [], attempts, nodeBytes, edgeBytes);
      PartsOfMore(h, repo.graph.Value(), b, [], nodes, []);
      PartsCompose(g, h, repo.graph.Value(), nodes, []);
      if !ok { return; }
      written, skipped, repeats := written + w, skipped + k, repeats + more;
      DeliveredNodes(h, repo.graph.Value(), b);
      PutNodesConcat(g, a, b);
    }
    assert batches[..|batches|] == batches;
    ok := true;
  }

  lemma EmptyPart(g: Store, h: Store)
    requires PartlyDelivered(g, h, [], []) || Delivered(g, h, [], [])
    ensures h == g
  {
    NoEdgesPut(g, h);
    SameStore(h, g);
  }

  lemma DeliveredNodes(g: Store, h: Store, ns: seq<NodeMutation>)
    requires Delivered(g, h, ns, [])
    ensures h == PutNodes(g, ns)
  {
    NoEdgesPut(PutNodes(g, ns), h);
    SameStore(h, PutNodes(g, ns));
  }

  method ShipEdges(repo: Repository, edges: seq<EdgeMutation>, batches: seq<seq<EdgeMutation>>, attempts: nat,
                   nodeBytes: NodeMutation -> nat, edgeBytes: EdgeMutation -> nat)
    returns (ok: bool, written: int, skipped: nat, ghost repeats: nat)
    requires repo.reconcileBatchSize > 0 && Flatten(batches) == edges
    modifies repo.graph
    ensures PartlyDelivered(old(repo.graph.Value()), repo.graph.Value(), [], edges)
    ensures ok ==> EdgesPut(old(repo.graph.Value()), repo.graph.Value(), edges)
    ensures ok ==> written + skipped == |edges| && skipped == |Lacking(old(repo.graph.Value()), edges)| + repeats
  {
    ghost var g := repo.graph.Value();
    written, skipped, repeats := 0, 0, 0;
    NothingDelivered(g, [], edges);
    NothingInProgress(g, []);
    assert batches[..0] == [];
    for i := 0 to |batches|
      invariant written + skipped == |Flatten(batches[..i])| && skipped == |Lacking(g, Flatten(batches[..i]))| + repeats
      invariant EdgesPut(g, repo.graph.Value(), Flatten(batches[..i]))
      invariant PartlyDelivered(g, repo.graph.Value(), [], edges)
    {
      Cut(batches, i);
      ghost var a := Flatten(batches[..i]);
      var b := batches[i];
      forall m | m in b ensures m in edges { FlattenMember(batches, i, m); }
      assert forall m :: m in a + b <==> m in a || m in b;
      ghost var h := repo.graph.Value();
      var w, k;
      ghost var posts, more;
      ok, w, k, posts, more := PostUpserts(repo, [], b, attempts, nodeBytes, edgeBytes);
      PartsOfMore(h, repo.graph.Value(), [], b, [], edges);
      PartsCompose(g, h, repo.graph.Value(), [], edges);
      if !ok { return; }
      written, skipped, repeats := written + w, skipped + k, repeats + more;
      LackingAfterEdges(g, h, a, b);
      LackingConcat(g, a, b);
      EdgesPutAfter(g, h, repo.graph.Value(), a, b, a + b);
    }
    assert batches[..|batches|] == batches;
    ok := true;
  }

  lemma Cut<T>(batches: seq<seq<T>>, i: nat)
    requires i < |batches|
    ensures Flatten(batches[..i + 1]) == Flatten(batches[..i]) + batches[i]
    ensures Flatten(batches) == Flatten(batches[..i]) + batches[i] + Flatten(batches[i + 1..])
  {
    var x, y, z, w := batches[..i], batches[i], batches[i + 1..], batches[..i + 1];
    CutSeq(batches, i);
    CutParts(x, y, z);
    assert w == x + [y];
  }

  lemma CutSeq<T>(s: seq<T>, i: nat)
    requires i < |s|
    ensures s[..i + 1] == s[..i] + [s[i]] && s == s[..i] + [s[i]] + s[i + 1..]
  {
  }

  lemma CutParts<T>(x: seq<seq<T>>, batch: seq<T>, z: seq<seq<T>>)
    ensures Flatten(x + [batch]) == Flatten(x) + batch
    ensures Flatten(x + [batch] + z) == Flatten(x) + batch + Flatten(z)
  {
    FlattenConcat(x, [batch]);
    FlattenConcat(x + [batch], z);
    FlattenOne(batch);
  }

  /** How mutations are serialised and measured: outside this model, so any functions will do. */
  datatype Wire = Wire(nodeJson: NodeMutation -> string, edgeJson: EdgeMutation -> string,
                       nodeBytes: NodeMutation -> nat, edgeBytes: EdgeMutation -> nat,
                       observedAt: string, maxBytes: nat, attempts: nat)

  /** All vertex batches, then all edge batches. */
  method ShipAll(repo: Repository, nodes: seq<NodeMutation>, edges: seq<EdgeMutation>, nodeBatches: seq<seq<NodeMutation>>,
                 edgeBatches: seq<seq<EdgeMutation>>, wire: Wire)
    returns (ok: bool, written: int, skipped: nat, ghost repeats: nat)
    requires repo.reconcileBatchSize > 0 && DistinctNodes(nodes)
    requires Flatten(nodeBatches) == nodes && Flatten(edgeBatches) == edges
    modifies repo.graph
    ensures PartlyDelivered(old(repo.graph.Value()), repo.graph.Value(), nodes, edges)
    ensures ok ==> Delivered(old(repo.graph.Value()), repo.graph.Value(), nodes, edges)
    ensures ok ==> written + skipped == |nodes| + |edges|
                   && skipped == |Lacking(PutNodes(old(repo.graph.Value()), nodes), edges)| + repeats
  {
    ghost var g := repo.graph.Value();
    ok, written, skipped, repeats := ShipNodes(repo, nodes, nodeBatches, wire.attempts, wire.nodeBytes, wire.edgeBytes);
    ghost var g1 := repo.graph.Value();
    PartsOfMore(g, g1, nodes, [], nodes, edges);
    if !ok { return; }
    var w, k;
    ghost var more;
    ok, w, k, more := ShipEdges(repo, edges, edgeBatches, wire.attempts, wire.nodeBytes, wire.edgeBytes);
    PartsOfMore(g1, repo.graph.Value(), [], edges, nodes, edges);
    PartsCompose(g, g1, repo.graph.Value(), nodes, edges);
    written, skipped, repeats := written + w, skipped + k, repeats + more;
  }

  /** What the collector is told: skips, and with them writes, may count an edge twice. */
  datatype Totals = Totals(written: int, skipped: nat, tombstoned: nat)

  /** All batches are cut before the first is sent. */
  method SendBatches(repo: Repository, nodes: seq<NodeMutation>, edges: seq<EdgeMutation>, wire: Wire)
    returns (ok: bool, written: int, skipped: nat, ghost repeats: nat)
    requires repo.reconcileBatchSize > 0 && DistinctNodes(nodes)
    modifies repo.graph
    ensures PartlyDelivered(old(repo.graph.Value()), repo.graph.Value(), nodes, edges)
    ensures ok ==> Delivered(old(repo.graph.Value()), repo.graph.Value(), nodes, edges)
    ensures ok ==> written + skipped == |nodes| + |edges|
                   && skipped == |Lacking(PutNodes(old(repo.graph.Value()), nodes), edges)| + repeats
  {
    NothingDelivered(repo.graph.Value(), nodes, edges);
    var nodeBatches := AppendBatches(nodes, Nodes, wire.nodeJson, wire.observedAt, wire.maxBytes);
    if nodeBatches.TooLarge? { return false, 0, 0, 0; }
    var edgeBatches := AppendBatches(edges, Edges, wire.edgeJson, wire.observedAt, wire.maxBytes);
    if edgeBatches.TooLarge? { return false, 0, 0, 0; }
    PackSplits(WithinBytes(Nodes, wire.nodeJson, wire.observedAt, wire.maxBytes), [], nodes);
    PackSplits(WithinBytes(Edges, wire.edgeJson, wire.observedAt, wire.maxBytes), [], edges);
    assert [] + nodes == nodes && [] + edges == edges;
    ok, written, skipped, repeats := ShipAll(repo, nodes, edges, nodeBatches.batches, edgeBatches.batches, wire);
  }

  /** The reconcile goes last, and only if every batch was confirmed: `upserted` says whether that point
      was reached, `before` is the store there. */
  method WriteGraphInBatches(repo: Repository, nodes: seq<NodeMutation>, edges: seq<EdgeMutation>,
                             reconcile: Option<Reconcile>, wire: Wire)
    returns (ok: bool, totals: Totals, ghost upserted: bool, ghost repeats: nat, ghost before: Store)
    requires repo.reconcileBatchSize > 0 && DistinctNodes(nodes)
    modifies repo.graph
    ensures ok ==> upserted
    ensures PartlyDelivered(old(repo.graph.Value()), before, nodes, edges)
    ensures !upserted || reconcile.None? ==> repo.graph.Value() == before
    ensures upserted ==> Delivered(old(repo.graph.Value()), before, nodes, edges)
    ensures upserted ==> totals.written + totals.skipped == |nodes| + |edges|
    ensures upserted ==> totals.skipped == |Lacking(PutNodes(old(repo.graph.Value()), nodes), edges)| + repeats
    ensures reconcile.None? ==> totals.tombstoned == 0
    ensures upserted && reconcile.Some? ==> PartlyReconciled(before, repo.graph.Value(), reconcile.value)
    ensures ok && reconcile.Some? && UnderCap(before, reconcile.value, repo.reconcileBatchSize) ==>
              && repo.graph.Value() == Reconciled(before, reconcile.value)
              && totals.tombstoned <= StaleCount(before, reconcile.value)
  {
    var written, skipped;
    ok, written, skipped, repeats := SendBatches(repo, nodes, edges, wire);
    upserted, before, totals := ok, repo.graph.Value(), Totals(written, skipped, 0);
    if ok && reconcile.Some? {
      var tombstoned;
      ok, tombstoned := PostReconcile(repo, reconcile.value, wire.attempts, wire.nodeBytes, wire.edgeBytes);
      totals := totals.(tombstoned := tombstoned);
    }
  }

  /** What the run assumes of its own output: no coverage vertex twice, no stage sets a scope itself,
      and each service reports once. */
  ghost predicate WellFormed(merged: seq<RawNode>, coverage: seq<Coverage>, run: RunInfo) {
    && (forall i, j :: 0 <= i < j < |coverage| ==> coverage[i].service != coverage[j].service)
    && (forall c :: c in coverage ==> c.service != "resource-inventory")
    && (forall n, s :: n in merged ==> n.id != CoverageId(run, s))
    && (forall n :: n in merged ==> "collection_scope" !in n.props)
  }

  lemma EmittedDistinct(merged: seq<RawNode>, edges: seq<RawEdge>, coverage: seq<Coverage>, run: RunInfo, managed: string -> bool)
    requires WellFormed(merged, coverage, run)
    requires forall i, j :: 0 <= i < j < |merged| ==> merged[i].id != merged[j].id
    ensures DistinctNodes(MapNodes(merged, run, managed) + MapCoverage(coverage + [InventoryRecord(coverage, |merged|, |edges|, run)], run))
  {
    var last := InventoryRecord(coverage, |merged|, |edges|, run);
    var a, b := MapNodes(merged, run, managed), MapCoverage(coverage + [last], run);
    CoverageDistinct(coverage, last, run);
    forall i, j | 0 <= i < |a| && 0 <= j < |b| ensures a[i].id != b[j].id { assert merged[i] in merged; }
    DistinctJoined(a, b);
  }

  lemma DistinctJoined(a: seq<NodeMutation>, b: seq<NodeMutation>)
    requires DistinctNodes(a) && DistinctNodes(b)
    requires forall i, j :: 0 <= i < |a| && 0 <= j < |b| ==> a[i].id != b[j].id
    ensures DistinctNodes(a + b)
  {
  }

  lemma CoverageDistinct(coverage: seq<Coverage>, last: Coverage, run: RunInfo)
    requires forall i, j :: 0 <= i < j < |coverage| ==> coverage[i].service != coverage[j].service
    requires forall c :: c in coverage ==> c.service != last.service
    ensures DistinctNodes(MapCoverage(coverage + [last], run))
  {
    var all := coverage + [last];
    forall x, y | 0 <= x < y < |all| ensures CoverageId(run, all[x].service) != CoverageId(run, all[y].service) {
      assert all[x] in coverage;
      CoverageIdTells(run, all[x].service, all[y].service);
    }
  }

  lemma CoverageIdTells(run: RunInfo, s: string, t: string)
    ensures CoverageId(run, s) == CoverageId(run, t) ==> s == t
  {
    var head := "arn:aws:khalifa:" + run.region + ":" + run.accountId + ":collection-coverage/";
    assert CoverageId(run, s)[|head|..] == s && CoverageId(run, t)[|head|..] == t;
  }

  /** The tail of collect, for stages that already ran. */
  method Collect(repo: Repository, nodes: seq<RawNode>, edges: seq<RawEdge>, coverage: seq<Coverage>,
                 run: RunInfo, managed: string -> bool, wire: Wire)
    returns (ok: bool, ghost upserted: bool, ghost ns: seq<NodeMutation>, ghost es: seq<EdgeMutation>, ghost before: Store)
    requires repo.reconcileBatchSize > 0
    requires WellFormed(Merged(nodes), coverage, run)
    modifies repo.graph
    ensures DistinctNodes(ns) && es == MapEdges(edges, run)
    ensures ns == MapNodes(Merged(nodes), run, managed)
                  + MapCoverage(coverage + [InventoryRecord(coverage, |Merged(nodes)|, |edges|, run)], run)
    ensures upserted ==> Delivered(old(repo.graph.Value()), before, ns, es)
    // every id the stages reported is written, and with it one vertex for each coverage record
    ensures forall n :: n in nodes ==> exists m :: m in ns && m.id == n.id
    ensures forall c :: c in coverage ==> CoverageNode(c, run) in ns
    // a run with a failed service, or one whose upserts did not all get through, deletes nothing
    ensures FailedServices(coverage) != [] || !upserted ==> NothingDeleted(old(repo.graph.Value()), repo.graph.Value())
    // whatever else happens, only elements stale for this run's reconcile are ever removed
    ensures upserted && FailedServices(coverage) == [] ==>
              PartlyReconciled(before, repo.graph.Value(), ReconcileOf(run))
    // a vertex of another scope, account or region that the run did not emit is as it was
    ensures forall id :: id in old(repo.graph.Value()).vertices && OfAnother(run, old(repo.graph.Value()).vertices[id].props)
                         && (forall m :: m in ns ==> m.id != id) ==>
              VertexAt(repo.graph.Value(), id) == VertexAt(old(repo.graph.Value()), id)
    // a complete run converges
    ensures ok && FailedServices(coverage) == []
            && NoDangling(old(repo.graph.Value()))
            && OnlyOlderRuns(old(repo.graph.Value()), ReconcileOf(run))
            && NothingNewer(old(repo.graph.Value()), ns, es)
            && UnderCap(before, ReconcileOf(run), repo.reconcileBatchSize) ==>
              Converged(old(repo.graph.Value()), repo.graph.Value(), ns, es, ReconcileOf(run))
  {
    ghost var g := repo.graph.Value();
    var merged := MergeDuplicateNodes(nodes);
    MergedIds(nodes);
    EmittedDistinct(merged, edges, coverage, run, managed);
    var failed := FailedServices(coverage);
    var all := coverage + [InventoryRecord(coverage, |merged|, |edges|, run)];
    var scopedNodes := MapNodes(merged, run, managed) + MapCoverage(all, run);
    var scopedEdges := MapEdges(edges, run);
    ns, es := scopedNodes, scopedEdges;
    EmittedAll(nodes, merged, coverage, all, run, managed);
    RunEmitsStamped(merged, all, edges, run, managed);
    var reconcile := if |failed| == 0 then Some(ReconcileOf(run)) else None;
    var totals;
    ghost var repeats;
    ok, totals, upserted, repeats, before := WriteGraphInBatches(repo, scopedNodes, scopedEdges, reconcile, wire);
    PartsDeleteNothing(g, before, ns, es);
    OthersUntouched(g, before, repo.graph.Value(), ns, es, run);
    if upserted && NoDangling(g) && OnlyOlderRuns(g, ReconcileOf(run)) && NothingNewer(g, ns, es) {
      CompleteRunConverges(g, before, ns, es, ReconcileOf(run));
    }
  }

  lemma OthersUntouched(g: Store, h: Store, f: Store, ns: seq<NodeMutation>, es: seq<EdgeMutation>, run: RunInfo)
    requires PartlyDelivered(g, h, ns, es) && (f == h || PartlyReconciled(h, f, ReconcileOf(run)))
    ensures forall id :: id in g.vertices && OfAnother(run, g.vertices[id].props) && (forall m :: m in ns ==> m.id != id) ==>
              VertexAt(f, id) == VertexAt(g, id)
  {
    if f == h { NothingReconciled(h, ReconcileOf(run)); }
    forall id | id in g.vertices && OfAnother(run, g.vertices[id].props) && (forall m :: m in ns ==> m.id != id)
      ensures VertexAt(f, id) == VertexAt(g, id)
    {
      OtherVertexUntouched(g, h, f, ns, es, ReconcileOf(run), id);
    }
  }

  lemma EmittedAll(nodes: seq<RawNode>, merged: seq<RawNode>, coverage: seq<Coverage>, all: seq<Coverage>,
                   run: RunInfo, managed: string -> bool)
    requires |merged| == |IdsOf(nodes)| && forall i :: 0 <= i < |merged| ==> merged[i].id == IdsOf(nodes)[i]
    requires coverage <= all
    ensures var ns := MapNodes(merged, run, managed) + MapCoverage(all, run);
            && (forall n :: n in nodes ==> exists m :: m in ns && m.id == n.id)
            && (forall c :: c in coverage ==> CoverageNode(c, run) in ns)
  {
    MergedEmitted(nodes, merged, run, managed);
    var a, b := MapNodes(merged, run, managed), MapCoverage(all, run);
    forall c | c in coverage ensures CoverageNode(c, run) in b {
      var i :| 0 <= i < |coverage| && coverage[i] == c;
      assert b[i] == CoverageNode(c, run);
    }
  }

  lemma MergedEmitted(nodes: seq<RawNode>, merged: seq<RawNode>, run: RunInfo, managed: string -> bool)
    requires |merged| == |IdsOf(nodes)| && forall i :: 0 <= i < |merged| ==> merged[i].id == IdsOf(nodes)[i]
    ensures forall n :: n in nodes ==> exists m :: m in MapNodes(merged, run, managed) && m.id == n.id
  {
    MergedIds(nodes);
    var a := MapNodes(merged, run, managed);
    forall n | n in nodes ensures exists m :: m in a && m.id == n.id {
      assert n.id in IdsOf(nodes);
      var i :| 0 <= i < |IdsOf(nodes)| && IdsOf(nodes)[i] == n.id;
      assert a[i].id == n.id && a[i] in a;
    }
  }
}
