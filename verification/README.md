# Khalifa: graph ingestion, attack graph and permission analyses, verified

This project models the parts of Khalifa that decide what the security graph holds and what is read off it, and proves what they keep.

- **Ingestion** (`GraphStore`, `ReconcileSafety`, `EdgeWrites`, `GraphRepository`, `Packing`, `Collector`, `Convergence`, `ScopeIsolation`). A collection run merges what its stages report, stamps it with account, region, scope and run id, packs it into byte-limited batches and posts them over a channel that may lose, cut short or repeat a post. Each element is upserted only when newer; an edge without its endpoints is skipped; a complete run then drops what it no longer saw, in limited batches. `GraphStore` has the store as a value and traces of steps by any number of writers; `ReconcileSafety` says which operations of the others a run's reconcile is safe from; `EdgeWrites` is the edge phase of one write as a machine; `GraphRepository` has the classes that change the store, chunk by chunk, with failures at every step; `Convergence` and `Collector` put a whole run together; `ScopeIsolation` says what a run never touches.
- **Attack graph** (`GraphBuilder`, `DrawingLaws`, `Grouping`, `CardSharing`, `Layering`, `CardLayout`). Paths are drawn with policy chains folded into one hop, indistinguishable siblings share a card, columns are longest-path layers, and cards are placed in lanes.
- **Permission analyses** (`Glob`, `GlobCost`, `GlobMeaning`, `Policy`, `Escalation`, `EscalationRule`, `SearchBound`, `PassRole`, `PassRoleRule`, `Resolver`, `EffectiveActions`, `Rightsizer`, `RightsizerRule`). The glob matcher and what it means, the backward search over trust, pass-role detection in two phases, the effective-permission resolver, and the least-privilege rewriter.
- **Small state machines** (`Pools`, `Connection`, `Pagination`, `Organisation`). Asynchronous code is a state machine over the steps between awaits; a schedule chooses who moves next, so a lemma over all schedules is about all interleavings.

Loops and objects that the source updates in place are methods and classes here, each proved against a specification function or a stated property; the lemmas are about those specifications. Where a specification follows the code closely, another module says what it means over the fields of the data alone, in both directions and without naming it: `ScopeIsolation`, `CardSharing`, `DrawingLaws`, `GlobMeaning`, `EscalationRule`, `PassRoleRule`, `EffectiveActions`, `RightsizerRule`. A fault of the environment (a lost reply, a chunk that stops part-way, an abort, a socket that drops) is an unconstrained choice in a method, so its `ensures` holds for every fault.

What the code does where one might expect otherwise, with the exact condition:

- A `*` in the *text* is consumed by an equal character of the pattern before it is read as a wildcard, so `globMatch('*', '*a')` is false. The matcher means what it says exactly for texts without `*` (`Glob.GlobMatchExactlyWhen`).
- The comment above the matcher bounds its work by pattern length times text length. That fails on `*` against one character and a few such cases, exactly those of `GlobCost.CostsMore`, where the work is at most the two lengths together (`GlobCost.CostWithinProductExactlyWhen`, `GlobCost.CostOtherwise`).
- `appendBatches` refuses an oversize item only when it comes first; later it gets a batch of its own over the limit (`Packing.BatchesWithinExactlyWhen`).
- A colon-less wildcard such as `*`, consolidated alone, is rewritten to `*:` and loses uses it matched (`Rightsizer.ConsolidationKeepsExactlyWhen`). So can an operation with a line break, which may collapse to a prefix it lacks (`Rightsizer.TargetKeepsExactlyWhen`, `Rightsizer.LostAtLineEnd`).
- A search bound can miss principals within it. For n ARNs the bounds that never do are those up to two and from n on, or from n - 1 on for everyone but the target (`SearchBound.BoundIsSafeExactlyWhen`, `SearchBound.BoundIsSafeForOthersExactlyWhen`); the default of three is safe up to three ARNs, or four.
- A link drawn by a single statement that is recorded again with another kind keeps its first kind (`GraphBuilder.DrawnKindIsStrongest`).
- A run's reconcile can drop what the run wrote. It does in some interleaving exactly when the other writers hold both a reconcile that can remove the element and a stale write of it (`ReconcileSafety.VertexSafeExactlyWhen`, `ReconcileSafety.EdgeSafeExactlyWhen`).
- A skipped edge can be listed twice and the reported edge count go below zero: exactly when a chunk's reply was unreadable and its first isolation failed after it had recorded a skip (`EdgeWrites.SkippedIsLackingExactlyWhen`).
- A path opened by several principals has link keys that no longer join its ids, unless all but the last are the start itself (`GraphBuilder.OpenedChainsExactlyWhen`).
- While a replacement connection opens, a caller may be handed the repository of the dropped one (`Connection.HandedOutIsCurrentExactlyWhen`).

`dafny verify dfyconfig.toml` checks the whole project.

## Model

| member | source | states |
|---|---|---|
| `Glob.GlobMatchLoop` | packages/risk-engine/src/glob.ts:5-28 | the matcher returns what the scan function says of the lower-cased strings, in exactly the number of loop rounds counted for them |
| `Glob.ScanLoop` | packages/risk-engine/src/glob.ts:8-28 | the same of the two loops themselves, which end on every pattern and text |
| `GlobCost.CostWithinProductExactlyWhen` | packages/risk-engine/src/glob.ts:1-4 | the loops go round at most pattern length times text length times if and only if none of this holds: the pattern alone is empty, the text alone is empty and the pattern begins with a star, or the pattern is nothing but stars, one of the two is a single character, and the text does not begin with a star |
| `GlobCost.CostOtherwise` | packages/risk-engine/src/glob.ts:1-4 | where that bound fails, the rounds are at most the two lengths together |
| `GlobCost.OneStarOneCharacter` | packages/risk-engine/src/glob.ts:8-28 | `*` against one character takes two rounds |
| `GlobCost.RoundsAfterStar` | packages/risk-engine/src/glob.ts:12-20 | once a star is taken, a bound on the rounds left from any point of the scan: a backtrack gives up a text position, which pays for the pattern walked since the star |
| `Glob.GlobMatchSound` | packages/risk-engine/src/glob.ts:5-28 | a match reported is a match in the wildcard meaning (`*` any string, `?` any one character), for every pattern and text |
| `Glob.GlobMatchExact` | packages/risk-engine/src/glob.ts:5-28 | on texts without `*`, the loop and the wildcard meaning agree for every pattern, so its backtracking to the last star only loses nothing |
| `Glob.GlobMatchExactlyWhen` | packages/risk-engine/src/glob.ts:5-28 | the loop agrees with the wildcard meaning on every pattern if and only if the text holds no `*` |
| `Glob.WitnessMissed` | packages/risk-engine/src/glob.ts:12-20 | for any text with a `*`, a pattern the loop wrongly rejects |
| `Glob.WitnessMatches` | packages/risk-engine/src/glob.ts:12-20 | that same pattern does match the text in the wildcard meaning |
| `Glob.GlobMatchReflexive` | packages/risk-engine/src/glob.ts:5-28 | every text matches itself, stars included |
| `Policy.ActionMatchMeaning` | lambdas/policy-evaluator/policy-parser.ts:79-84 | for a used action without `*`, an action pattern matches exactly when it is one of the two full wildcards or matches in the wildcard meaning over lower-cased text |
| `Policy.ActionMatchReflexive` | lambdas/policy-evaluator/policy-parser.ts:79-84 | every action pattern covers itself |
| `Policy.WildcardMatches` | lambdas/policy-evaluator/policy-parser.ts:79-84 | a bare wildcard covers every action |
| `Packing.AppendBatches` | lambdas/shared/graph-batch-writer.ts:26-50 | refuses exactly when the first item alone is over the limit; otherwise yields the greedy batches of the whole list |
| `Packing.PayloadGrows` | lambdas/shared/graph-batch-writer.ts:37-46 | the running byte count is the exact size of the JSON payload, a comma counted for every item but the first |
| `Packing.PackSplits` | lambdas/shared/graph-batch-writer.ts:26-50 | batches concatenate to the input in order, none is empty, and each is within the limit or a single item |
| `Packing.GreedyIsOptimal` | lambdas/shared/graph-batch-writer.ts:26-50 | no order-preserving split into accepted batches has fewer batches than the greedy one |
| `Packing.BatchesAreOptimal` | lambdas/shared/graph-batch-writer.ts:26-66 | when each item fits alone, the batches are the input in order, each within the byte limit, and as few as any such split |
| `Packing.BatchesWithinExactlyWhen` | lambdas/shared/graph-batch-writer.ts:26-50 | batching succeeds with every batch within the limit if and only if each item fits alone |
| `Packing.OversizeBatch` | lambdas/shared/graph-batch-writer.ts:32-46 | an oversize item anywhere ends in a batch over the limit, when it is not refused |
| `Packing.BytesHereditary` | lambdas/shared/graph-batch-writer.ts:37-46 | a part of a batch that fits also fits |
| `Packing.ChunkElements` | lambdas/shared/graph-repository.ts:212-231 | the chunk loop yields the greedy chunks under the count and size limits, oversize elements alone |
| `Packing.ChunksAreOptimal` | lambdas/shared/graph-repository.ts:212-231 | those chunks are a legal split of the elements in order with as few chunks as any legal split |
| `GraphStore.RunsNeverDangle` | lambdas/shared/graph-repository.ts:330-345 | in every interleaving of upserts, edge upserts and drops by any number of writers, no edge ever lacks an endpoint |
| `GraphStore.VersionsNeverDecrease` | lambdas/shared/graph-repository.ts:330-345 | without drops, every stored vertex and edge stays, and its version never goes down |
| `GraphStore.LateNodeDuplicate` | lambdas/shared/graph-repository.ts:330-345 | a duplicate of a vertex write that arrives after any drop-free trace changes nothing |
| `GraphStore.LateEdgeDuplicate` | lambdas/shared/graph-repository.ts:435-459 | the same for a written edge |
| `GraphStore.OnlyLaterSweepsRemove` | lambdas/shared/graph-repository.ts:246-261 | a vertex stays, at a version not before t, through any trace with no reconcile of it dated after t |
| `ReconcileSafety.VertexSafeExactlyWhen` | lambdas/shared/graph-repository.ts:246-261 | for any set of other writers' vertex writes, edge writes and reconciles, each done any number of times in any interleaving: a vertex stored at or after a reconcile's time is never selected by it if and only if they do not hold both a reconcile that can remove it, as stored or as a newer write leaves it, and a write of it that is stale |
| `ReconcileSafety.OwnWritesSafeExactlyWhen` | lambdas/shared/graph-repository.ts:246-261 | the same for a vertex the run itself wrote, in terms of its own stamps and time and of theirs |
| `ReconcileSafety.SweptOnce` | lambdas/shared/graph-repository.ts:246-261 | the removal such a reconcile allows, in one or two steps |
| `GraphStore.EdgesGoOnlyWithEndpoints` | lambdas/shared/graph-repository.ts:246-261 | an edge disappears only by a later-dated sweep of it or of one of its endpoints |
| `ReconcileSafety.EdgeSafeExactlyWhen` | lambdas/shared/graph-repository.ts:246-261 | an edge stored at or after a reconcile's time is never selected by it if and only if the others do not hold a stale write of it together with a way to remove it: a sweep of its own, or of an endpoint that they also write again |
| `GraphStore.DelayedWriteDefeatsReconcile` | lambdas/shared/graph-repository.ts:246-261 | a trace in which a later run's sweep and a delayed older write make a run's reconcile select an element the run itself wrote |
| `GraphStore.PutNodesAt` | lambdas/shared/graph-repository.ts:83-111 | a full pass over distinct vertices applies exactly the write for each id to what was there, and leaves other ids and all edges alone |
| `GraphStore.PutEdgesAt` | lambdas/shared/graph-repository.ts:116-135 | a full pass over distinct edges applies each write where the edge exists or both endpoints do, and skips it otherwise |
| `GraphStore.PutVertexTwice` | lambdas/shared/graph-repository.ts:330-345 | one vertex write applied twice is the write applied once |
| `GraphStore.DeliveryAbsorbsParts` | lambdas/shared/graph-repository.ts:83-135 | delivering a batch whole after any partial applications of it gives one full application |
| `GraphStore.RedeliveryIsExactlyOnce` | lambdas/shared/graph-writer-client.ts:85-107 | any sequence of single writes of a batch, in any order and number, followed by one whole delivery, has the effect of one delivery |
| `GraphStore.StragglersAreHarmless` | lambdas/shared/graph-writer-client.ts:85-107 | duplicates of a delivered batch that arrive late, in any order and number, change nothing |
| `GraphRepository.Graph.PutNode` | lambdas/shared/graph-repository.ts:330-345 | the stored vertex is created, refreshed when the write is newer, or untouched; nothing else changes |
| `GraphRepository.Graph.PutEdge` | lambdas/shared/graph-repository.ts:435-459 | the edge is written when it exists or both endpoints do; the answer says whether; nothing else changes |
| `GraphRepository.Graph.RemoveVertices` | lambdas/shared/graph-repository.ts:246-261 | the vertices go and with them exactly their edges |
| `GraphRepository.WriteNodes` | lambdas/shared/graph-repository.ts:83-111 | under chunk failures, partial chunks and element retries: success means every vertex was applied once, failure leaves a partial application |
| `EdgeWrites.FinishedWrites` | lambdas/shared/graph-repository.ts:116-135 | in any interleaving of the chunks, replies and retries, a finished edge phase has applied every edge and nothing else, and its list holds each edge that lacks an endpoint and once more each one a failed first isolation had recorded |
| `EdgeWrites.SkippedIsLackingExactlyWhen` | lambdas/shared/graph-repository.ts:116-135 | the skipped list is the edges that lack an endpoint, and its length their number, if and only if no chunk's first isolation failed after it had recorded a skip |
| `EdgeWrites.RepeatsNeedUnreadable` | lambdas/shared/graph-repository.ts:119-134 | only a chunk whose reply was unreadable can repeat a skip |
| `EdgeWrites.SkipCountedTwice` | lambdas/shared/graph-repository.ts:119-134 | one chunk of two edges without endpoints, an unreadable reply and an isolation that fails on the second: the first is listed twice and the edge count comes out as minus one |
| `EdgeWrites.SkippedInOrder` | lambdas/shared/graph-repository.ts:116-135 | with one chunk at a time and no repeats the list is what is lacking, in order |
| `EdgeWrites.SkipsOutOfOrder` | lambdas/shared/graph-repository.ts:116-135 | with two chunks side by side the later one's edge can come first |
| `EdgeWrites.PutOnce` | lambdas/shared/graph-repository.ts:435-459 | edges applied in any order and any number of times leave one pass over them when none is listed twice |
| `EdgeWrites.OneDateOneWrite` | lambdas/shared/graph-repository.ts:435-459 | an edge listed more than once under one date is left exactly as one of its writes makes it |
| `GraphRepository.WriteEdges` | lambdas/shared/graph-repository.ts:116-135 | whichever chunk moves next, the store and the shared list are those of the interleaving that happened; success is every chunk written and every edge applied, keys listed more than once included |
| `GraphRepository.ChainChunk` | lambdas/shared/graph-repository.ts:118-127 | one chained traversal: a readable reply lists the unwritten edges, an unreadable one starts an isolation within the try, a thrown call one in the handler |
| `GraphRepository.AttemptElement` | lambdas/shared/graph-repository.ts:191-207 | one attempt at one element of an isolation: recorded once when it answers, tried again when transient, and a first isolation that fails begins anew into the same list |
| `GraphRepository.TryDropVertices` | lambdas/shared/graph-repository.ts:157-173 | an answered count-and-drop removes exactly as many stale vertices as it counted; a failed one removes only stale vertices |
| `GraphRepository.SweepVertexBatch` | lambdas/shared/graph-repository.ts:157-173 | retries keep that: when fewer than the batch size are reported, all stale vertices are gone |
| `GraphRepository.SweepStaleVertices` | lambdas/shared/graph-repository.ts:154-179 | the batched loop removes only stale vertices, all of them when it ends below the batch size, and the cap is not met while the stale count is under it |
| `GraphRepository.SweepStaleEdges` | lambdas/shared/graph-repository.ts:154-179 | the same for stale edges after the vertices are gone |
| `GraphRepository.Sweep` | lambdas/shared/graph-repository.ts:149-181 | under the cap, the limit/count/drop loops over vertices and edges amount to one set deletion; the reported total equals the number dropped when no reply was lost |
| `GraphRepository.Repository.Upsert` | lambdas/shared/graph-repository.ts:83-143 | success is one full delivery of the batch; any failure leaves a partial one and deletes nothing |
| `GraphRepository.Repository.Write` | lambdas/shared/graph-repository.ts:72-189 | nothing is swept unless every write succeeded and a reconcile was asked for; skips are the edges that lack an endpoint and the repeated ones, and the edge count is right if and only if none was repeated |
| `GraphRepository.PartsDeleteNothing` | lambdas/shared/graph-repository.ts:72-143 | however a write is cut short before its reconcile, no vertex and no edge is lost |
| `GraphRepository.NodeProgress` | lambdas/shared/graph-repository.ts:95-110 | one more write of a batch keeps the store a partial application of that batch |
| `GraphRepository.NodesInAnyOrder` | lambdas/shared/graph-repository.ts:83-111 | the writes of a batch in any order, each at least once, give one pass over the batch |
| `Convergence.PartsCompose` | lambdas/shared/graph-repository.ts:83-135 | partial deliveries of one batch compose to a partial delivery |
| `Convergence.DeliverDelivers` | lambdas/shared/graph-repository.ts:72-143 | one pass over the vertices and then over the edges is a complete delivery, repeated keys or not |
| `Convergence.DeliveredAfterParts` | lambdas/shared/graph-repository.ts:83-135 | a complete delivery after any parts of the same batch is a complete delivery |
| `Convergence.EdgesPutAfter` | lambdas/shared/graph-repository.ts:116-135 | edge batches delivered one after the other are one batch delivered, whatever keys they share |
| `Convergence.ReconcileAbsorbsParts` | lambdas/shared/graph-repository.ts:149-181 | a reconcile repeated after an interrupted one ends where one reconcile ends |
| `Convergence.ReconcilePartsCompose` | lambdas/shared/graph-repository.ts:149-181 | interrupted reconciles compose to an interrupted reconcile |
| `Convergence.CapKept` | lambdas/shared/graph-repository.ts:149-181 | a store under the batch cap stays under it through an interrupted reconcile |
| `Convergence.VertexAfterRun` | lambdas/collector/index.ts:826-910 | what a complete run leaves at each vertex id: kept with the run's values when emitted, gone when it was in the scope and not emitted, untouched otherwise |
| `Convergence.EdgeAfterRun` | lambdas/collector/index.ts:881-910 | the same for each edge key, with both endpoints present: what is left was written by one or several of the run's writes of that key, and nothing older than any of them |
| `Convergence.CompleteRunConverges` | lambdas/collector/index.ts:826-910 | after a complete run over older data the scope holds exactly the emitted vertices, and exactly the emitted edges whose endpoints exist; other scopes and unscoped elements are untouched |
| `Convergence.ConvergedByOneWrite` | lambdas/collector/index.ts:881-910 | where the run's writes of a key have one date, the edge left there is what one of them makes of what was there |
| `Convergence.ReadyForNextRun` | lambdas/collector/index.ts:826-910 | the converged store meets the premise of the next run of the same scope |
| `Collector.MergeDuplicateNodes` | lambdas/collector/index.ts:220-236 | the merging loop gives one node per id in order of first appearance |
| `Collector.MergeKeepsLastDefined` | lambdas/collector/index.ts:209-236 | each property of a merged node is the last defined value any stage gave, so no later undefined value erases one |
| `Collector.MergedIds` | lambdas/collector/index.ts:220-236 | the ids of the merged nodes are exactly those of the input, each once |
| `Collector.FailedServicesListed` | lambdas/collector/index.ts:191-202 | exactly the failed services are listed, and as retryable exactly those that failed by throttling, a timeout or transiently |
| `Collector.RunEmitsStamped` | lambdas/collector/index.ts:826-891 | everything a run emits carries its scope, account, region and run id, or is a shared vertex without a scope |
| `Collector.EmittedDistinct` | lambdas/collector/index.ts:826-891 | distinct resource ids and coverage ids make distinct vertex writes |
| `Collector.Collect` | lambdas/collector/index.ts:811-910 | what is sent is each merged vertex and coverage record with its stamps, the run's own record included; a failed service or a lost upsert deletes nothing; a vertex of another scope, account or region that was not sent is as it was; a complete run under the cap converges, edge keys reported more than once included |
| `Collector.PostUpserts` | lambdas/shared/graph-writer-client.ts:85-107 | a batch posted until a reply comes: success is one delivery, failure a partial one, at most the allowed number of posts |
| `Collector.PostReconcile` | lambdas/shared/graph-writer-client.ts:85-107 | a reconcile posted over the same channel removes only stale elements, and all of them on success under the cap |
| `Collector.WriteGraphInBatches` | lambdas/shared/graph-batch-writer.ts:68-94 | all vertices before all edges before the reconcile, which is sent only when every upsert batch was accepted; the summed writes and skips account for every element, skips being the edges that lack an endpoint and the repeated ones |
| `Grouping.DrawnLinkJoinsAllMembers` | ui/lib/attack-graph.ts:559-604 | a drawn link stands for a link with the same caption, kind and cross-account flag between every pair of members of its two cards |
| `Grouping.EveryLinkIsDrawn` | ui/lib/attack-graph.ts:599-604 | every link of the model is drawn between its cards with its own caption, kind and flag |
| `Grouping.GroupsAreFaithful` | ui/lib/attack-graph.ts:566-594 | nodes that share a card have identical incoming and outgoing links, for any set of expanded groups |
| `Grouping.GroupingPreservesReach` | ui/lib/attack-graph.ts:559-622 | x reaches y by a non-empty path if and only if the card of x reaches the card of y |
| `Grouping.FillBuckets` | ui/lib/attack-graph.ts:565-585 | buckets hold exactly the nodes with equal signatures, in order |
| `Grouping.CollapseBuckets` | ui/lib/attack-graph.ts:587-594 | exactly the members of buckets of two or more that are not expanded are sent to their first member |
| `Grouping.MembersMatchCards` | ui/lib/attack-graph.ts:587-594 | the members map and the card map describe the same groups |
| `Grouping.KeptAreCards` | ui/lib/attack-graph.ts:609 | every node's card is among the kept nodes, and a node is kept exactly when it is its own card |
| `Grouping.PathKeysAreDrawn` | ui/lib/attack-graph.ts:611-616 | the link keys of a mapped path are keys of drawn links |
| `Grouping.DrawLinks` | ui/lib/attack-graph.ts:597-604 | the drawn links and the key map agree with the mapping of every link |
| `Grouping.GroupSiblings` | ui/lib/attack-graph.ts:559-622 | the grouped model, its card map, members and mapped paths, and reach preserved in both directions for all nodes |
| `Layering.AssignLayers` | ui/lib/attack-graph.ts:627-638 | on acyclic links each column is the number of links on the longest path ending at the node, within one pass per node; on cyclic links the loop stops |
| `Layering.RelaxPass` | ui/lib/attack-graph.ts:628-637 | a pass that changes nothing leaves every link settled, and one that does moves every link's target past where its source was |
| `Layering.AcyclicTrailsAreShort` | ui/lib/attack-graph.ts:628 | on acyclic links no path has more vertices than the graph, so the pass bound suffices |
| `Layering.SettledCovers` | ui/lib/attack-graph.ts:637 | once a pass changes nothing, no path is longer than its end's column |
| `Layering.LinksGoRight` | ui/lib/attack-graph.ts:627-638 | longest-path columns send every link strictly to the right |
| `CardLayout.LayoutAttackGraph` | ui/lib/attack-graph.ts:626-705 | one position per node in its column; no two cards overlap; each card in its account's lane and on the canvas; lanes disjoint, ranked, stacked from the top and each as tall as its fullest cell; the width is the one asked for or what the columns need; on acyclic links the cards of a cell stand by the mean height of the cards that link to them |
| `CardLayout.CentresApart` | ui/lib/attack-graph.ts:692-695 | cards of different lanes, columns or slots do not overlap, for any spacing of at least the default |
| `CardLayout.LanesRanked` | ui/lib/attack-graph.ts:640-649 | lanes come out internet first, then outside accounts, then collected ones |
| `CardLayout.LanesCover` | ui/lib/attack-graph.ts:644-649 | every node's account has exactly one lane |
| `CardLayout.OrderKeyIsLexicographic` | ui/lib/attack-graph.ts:640-643 | the one-number key orders nodes by rank, then by column |
| `CardLayout.RowsOf` | ui/lib/attack-graph.ts:666-669 | a lane is as tall as its fullest column and no taller |
| `CardLayout.StackBands` | ui/lib/attack-graph.ts:663-673 | lanes stack downwards with a gap and never overlap |
| `CardLayout.PlaceCards` | ui/lib/attack-graph.ts:683-698 | every cell's cards occupy its slots one each, whatever order the barycentre gives |
| `CardLayout.GroupedModelIsDrawable` | ui/lib/attack-graph.ts:559-626 | a grouped model meets the layout's premises |
| `GraphBuilder.Builder.AddNode` | ui/lib/attack-graph.ts:267-281 | the first vertex with an id decides its node |
| `GraphBuilder.Builder.AddLink` | ui/lib/attack-graph.ts:283-323 | the link and its recorded statements become what one more hop makes of them; nothing else changes |
| `GraphBuilder.Builder.FoldHop` | ui/lib/attack-graph.ts:360-377 | a folded chain adds the statement's risks to its principal and one hop, with the statement's kind, to what it grants, if the path goes on |
| `GraphBuilder.Builder.AddPath` | ui/lib/attack-graph.ts:345-395 | the recorded path's link keys join consecutive node ids, all present in the graph, its ids are the drawn vertices in order, and the graph changes by exactly the path's steps |
| `GraphBuilder.Builder.DrawNext` | ui/lib/attack-graph.ts:355-386 | one round folds a whole policy chain or draws one vertex, always advances, and what it did is the front of what was left to draw |
| `GraphBuilder.Builder.AddEntry` | ui/lib/attack-graph.ts:398-430 | every entry vertex is linked to the start, and every path that starts there is opened by them |
| `GraphBuilder.Builder.Build` | ui/lib/attack-graph.ts:432-439 | the model lists exactly the nodes and links drawn, ids and keys distinct, links closed over nodes, path keys present |
| `GraphBuilder.GrantedHistory` | ui/lib/attack-graph.ts:288-323 | after any history of hops on a link first created by a grant, what its kind is: the strongest of several statements, or the first grant's |
| `GraphBuilder.DrawnByStrongest` | ui/lib/attack-graph.ts:288-323 | that kind is the strongest recorded if and only if there are several statements or the only one was last recorded as it was first |
| `GraphBuilder.DrawnFromHops` | ui/lib/attack-graph.ts:283-323 | whatever else is drawn, the link between two nodes and its statements are the history of the hops between them, the first of which decides its plain look |
| `GraphBuilder.DrawnKindIsStrongest` | ui/lib/attack-graph.ts:283-323 | in any drawing, a link first drawn by a grant is of the strongest kind of its recorded statements if and only if there are several of them or the only one was last recorded as it was first |
| `GraphBuilder.KindNotStrongest` | ui/lib/attack-graph.ts:288-323 | two paths through one statement, a deny on the first and an allow on the second: the link stays a deny though an allow is all that is recorded |
| `GraphBuilder.DrawnCount` | ui/lib/attack-graph.ts:355-386 | a path draws at least its plain vertices, and exactly those when its policy chains are well formed |
| `GraphBuilder.NextMove` | ui/lib/attack-graph.ts:355-386 | the next round from any vertex: a chain of policies closed by a statement, with what it grants, or a plain vertex, and where the loop goes on |
| `GraphBuilder.OpenedChainsExactlyWhen` | ui/lib/attack-graph.ts:423-428 | a path opened at its start has link keys that join consecutive ids if and only if every opener but the last listed is that start itself |
| `GraphBuilder.TwoPrincipalsBreakTheChain` | ui/lib/attack-graph.ts:417-428 | two principals in front of a path: the ids and keys that come out, which do not join |
| `GraphBuilder.PathsChainExactlyWhen` | ui/lib/attack-graph.ts:443-458 | over a whole graph, a path chains if and only if its start has no entry or one that meets that condition |
| `GraphBuilder.BuildAttackGraph` | ui/lib/attack-graph.ts:443-458 | the model of any paths and entries is well formed and closed, lists exactly what the steps of the paths and then of the entries draw, and its paths are the drawn ones opened by their entries, chained exactly when the openers allow |
| `GraphBuilder.HopsAgreeExactlyWhen` | api-service/src/routes/attack-paths.ts:40-43 | for a path that starts at a plain vertex, the drawing has the API's hop count if and only if every policy chain on it is well formed |
| `Escalation.Finder.Dfs` | lambdas/policy-evaluator/escalation-detector.ts:90-100 | the recursive search over shared visited and results ends on cyclic trust and computes the specified search |
| `Escalation.SearchIsSound` | lambdas/policy-evaluator/escalation-detector.ts:82-104 | every result is a chain of one to maxHops real trust edges into the target, starting at the reported source |
| `Escalation.SearchIsComplete` | lambdas/policy-evaluator/escalation-detector.ts:82-104 | with a bound of at least the number of ARNs, a principal is reported if and only if a trust chain of any length joins it to the role |
| `Escalation.AlmostComplete` | lambdas/policy-evaluator/escalation-detector.ts:82-104 | with one less, everyone but the target itself is still reported |
| `SearchBound.BoundIsSafeExactlyWhen` | lambdas/policy-evaluator/escalation-detector.ts:82-104 | for n ARNs and any bound: on all edges every principal with a chain within the bound is reported if and only if the bound is at most two or at least n |
| `SearchBound.BoundIsSafeForOthersExactlyWhen` | lambdas/policy-evaluator/escalation-detector.ts:82-104 | for principals other than the target: if and only if the bound is at most two or at least n - 1 |
| `SearchBound.TwoHopsAreSafe` | lambdas/policy-evaluator/escalation-detector.ts:90-100 | a bound of at most two misses nobody within it |
| `SearchBound.TrapMisses` | lambdas/policy-evaluator/escalation-detector.ts:86-100 | for every bound of three or more, edges on which a principal three trusts away is missed, because the one before it was first met at the bound |
| `SearchBound.TrapArns` | lambdas/policy-evaluator/escalation-detector.ts:86-100 | those edges can be made to have any number of ARNs from the bound plus one, or plus two, on |
| `Escalation.DeduplicatedKeys` | lambdas/policy-evaluator/escalation-detector.ts:112-120 | deduplication keeps exactly one path for each source, target and type, and only paths it was given |
| `Escalation.DeduplicatePaths` | lambdas/policy-evaluator/escalation-detector.ts:112-120 | the loop with its seen set is that deduplication |
| `Escalation.DetectEscalationPaths` | lambdas/policy-evaluator/escalation-detector.ts:19-80 | the two passes over the roles, deduplicated, are the specified detection |
| `Escalation.DetectionIsSound` | lambdas/policy-evaluator/escalation-detector.ts:19-80 | every detected path is a real bounded chain from a wanted source into a role that is admin or holds an escalation action |
| `Escalation.DetectedOnceExactlyWhen` | lambdas/policy-evaluator/escalation-detector.ts:19-80 | for any bound: one path for a source, role and kind when the role matters, the source is wanted and the search reports it, and none otherwise |
| `SearchBound.DetectionFindsAllWithin` | lambdas/policy-evaluator/escalation-detector.ts:19-80 | with a safe bound, one path is detected for exactly the wanted sources within it of a role that matters |
| `PassRole.PassRoleCapability` | lambdas/policy-evaluator/pass-role.ts:101-145 | a capability is kept exactly when the account parses, some Allow covers iam:PassRole and some compute action set is allowed |
| `PassRole.DetectPassRoleEscalations` | lambdas/policy-evaluator/pass-role.ts:182-213 | the double loop over capabilities and roles reports the specified paths, in order |
| `PassRole.SummaryRefinesRule` | lambdas/policy-evaluator/pass-role.ts:84-213 | the two-phase summary accepts a principal, role and service exactly when the statement-by-statement rule does |
| `PassRole.DetectionRefinesRule` | lambdas/policy-evaluator/pass-role.ts:101-213 | a triple is reported if and only if some listed principal and role satisfy the rule over the principal's documents |
| `PassRole.AllowAddsDenyRemoves` | lambdas/policy-evaluator/pass-role.ts:84-145 | adding an Allow statement never loses a triple and adding a Deny never gains one |
| `PassRole.PassedToServices` | lambdas/policy-evaluator/pass-role.ts:71-82 | unconditional, limited to the listed services, or not modelled, exactly by the operators and keys present |
| `Resolver.Resolve` | lambdas/policy-evaluator/effect-resolver.ts:25-202 | the literal denies, the wide and narrow phases come to the stated sets for every list of policies; the conditional grants are listed in order, each unless its action was denied when its statement was reached; nothing but `*` is both allowed and denied, what is allowed by name is within the limits, and without limits it is the allows minus the literal denies |
| `Resolver.OverlapOnlyInStar` | lambdas/policy-evaluator/effect-resolver.ts:63-181 | an entry both allowed and denied can only be `*` |
| `Resolver.AllowedWithinLimits` | lambdas/policy-evaluator/effect-resolver.ts:92-181 | an allowed entry other than a bare wildcard is matched by an Allow of the boundary, when it parses, and of every parseable SCP |
| `Resolver.UnlimitedIsDifference` | lambdas/policy-evaluator/effect-resolver.ts:63-143 | without boundary and SCPs: the unconditional Allow actions minus the literal Deny actions |
| `Resolver.OrderDoesNotMatter` | lambdas/policy-evaluator/effect-resolver.ts:63-181 | the same statements in any order and number give the same allowed and denied sets |
| `Resolver.GrantedExactlyWhen` | lambdas/policy-evaluator/effect-resolver.ts:71-87 | a conditional grant is listed if and only if a conditional Allow that may hold makes it before anything denied its action: a literal Deny anywhere, or a limit on an Allow further up |
| `Resolver.OrderMattersForGrants` | lambdas/policy-evaluator/effect-resolver.ts:71-181 | the order of statements does matter for the grants: where the boundary denies an action, a conditional Allow of it is listed before a plain one and not after it |
| `Resolver.CheckActionAllowed` | lambdas/policy-evaluator/effect-resolver.ts:204-240 | denied exactly when a denied pattern matches, allowed outright exactly when none does and an allowed one matches; otherwise the first matching grant decides: met, not met, or undecided without context; an implicit deny exactly when none matches |
| `Rightsizer.Recommend` | lambdas/shared/rightsizer.ts:74-146 | kept, removed and recommended actions, the current policy, and the risk and confidence thresholds |
| `Rightsizer.StayingMembers` | lambdas/shared/rightsizer.ts:97-113 | an allowed action is kept exactly when a recent use matches it or it is a safe read; the rest are removed |
| `Rightsizer.ConsolidateActions` | lambdas/shared/rightsizer.ts:166-201 | the two nested loops compute the consolidation of each service in order |
| `Rightsizer.ConsolidatedIsTargets` | lambdas/shared/rightsizer.ts:166-201 | the consolidated list holds exactly one target for each kept action and nothing else |
| `Rightsizer.TargetCovers` | lambdas/shared/rightsizer.ts:177-199 | an action's target matches every star-free use the action matches, unless the action collapses to a prefix it does not have |
| `Rightsizer.OneLineIsNeverCut` | lambdas/shared/rightsizer.ts:185 | an operation without a line break, where the prefix expression stops, never does |
| `Rightsizer.TargetKeepsExactlyWhen` | lambdas/shared/rightsizer.ts:177-199 | for an action without a star up to the end of its first operation word, the target matches every star-free use the action matches if and only if it does not collapse to a prefix it lacks |
| `Rightsizer.CutLoses` | lambdas/shared/rightsizer.ts:185 | for each that does, a use that its target loses |
| `Rightsizer.LostAtLineEnd` | lambdas/shared/rightsizer.ts:166-201 | a whole family of kept lists that lose a use: an operation of one word, more text and a line break, beside two that have the break right after the word |
| `Rightsizer.RecentUseStaysAllowed` | lambdas/shared/rightsizer.ts:84-130 | a recent star-free use that some allowed pattern with a colon matches is matched by the recommended policy, through `service:*` and `prefix*` rewriting |
| `Rightsizer.ConsolidationKeepsExactlyWhen` | lambdas/shared/rightsizer.ts:166-201 | consolidating a pattern alone loses no use it matched if and only if it has a colon or no wildcard |
| `Rightsizer.ColonlessLoses` | lambdas/shared/rightsizer.ts:170-171 | for every colon-less wildcard pattern, a use that is lost |
| `Rightsizer.RiskOf` | lambdas/shared/rightsizer.ts:132-134 | high above half removed, low up to a fifth |
| `Pools.PoolSafety` | lambdas/shared/concurrency.ts:18-32 | in every interleaving each index is claimed once, in order, by one worker, and at most min(concurrency, n) operations are in flight |
| `Pools.StoppedForGood` | lambdas/shared/concurrency.ts:23-31 | once a failure is recorded (or an abort signalled) no schedule starts another index |
| `Pools.EveryRunEnds` | lambdas/shared/concurrency.ts:23-35 | a run takes at most 2n + min(concurrency, n) turns, and until it is finished some worker can move |
| `Pools.MapMeansAll` | lambdas/shared/concurrency.ts:18-35 | a finished call has failed exactly when some operation fails; otherwise result i is operation i's value |
| `Pools.MapBounded` | lambdas/shared/concurrency.ts:9-36 | with any choice of who moves next: refused outside 1..64, resolved exactly when every operation succeeds, with the values in input order; otherwise one operation's failure |
| `Pools.CollectsEveryFailure` | lambdas/runtime/index.ts:455-473 | the errors are exactly the failures among the started items, each once, and unless aborted every item was started |
| `Pools.RunBounded` | lambdas/runtime/index.ts:445-474 | resolves exactly when every attempted item succeeded, and otherwise reports one reason for each failure |
| `Connection.OneAttemptAtATime` | lambdas/graph-writer/index.ts:95-127 | at most one unfinished connect attempt of the current generation, and later callers join it |
| `Connection.NothingInstalledAcrossClose` | lambdas/graph-writer/index.ts:83-127 | an attempt begun before a close installs no connection or repository after it, in any interleaving; if nobody asks again the writer stays empty |
| `Connection.NoConnectionLeaks` | lambdas/graph-writer/index.ts:83-127 | an open connection is the current one or was told to close |
| `Connection.OvertakenConnectionsAreClosed` | lambdas/graph-writer/index.ts:99-127 | a connection of an overtaken attempt was told to close, unless already lost |
| `Connection.HandedOutIsCurrentExactlyWhen` | lambdas/graph-writer/index.ts:95-96 | the stored repository handed to a caller is the current connection's if and only if that connection is not still being opened |
| `Connection.StaleRepositoryHandedOut` | lambdas/graph-writer/index.ts:95-111 | an interleaving in which a caller is handed the repository of a dropped connection |
| `Connection.NeptuneGraphWriter.GetRepository` | lambdas/graph-writer/index.ts:95-104 | hands out the stored repository only over an open connection, else joins or begins an attempt |
| `Connection.NeptuneGraphWriter.ResumeWithHeaders` | lambdas/graph-writer/index.ts:100-108 | an overtaken attempt creates no connection |
| `Connection.NeptuneGraphWriter.ResumeAfterOpen` | lambdas/graph-writer/index.ts:109-126 | an overtaken or failed attempt closes its connection and clears the field only if it is still its own |
| `Connection.NeptuneGraphWriter.CloseConnection` | lambdas/graph-writer/index.ts:83-93 | a close starts a new generation and tells the current connection to close |
| `Connection.NeptuneGraphWriter.Write` | lambdas/graph-writer/index.ts:59-81 | at most maxAttempts tries, all but the last failed retryably; a try asks at most one repository, over a connection that was opened; the write succeeds exactly when the last one asked wrote, whatever happens while it waits for a connection, an answer, a close or the next try |
| `Connection.NeptuneGraphWriter.AwaitRepository` | lambdas/graph-writer/index.ts:62-66 | the repository a try gets, stored or from the attempt it waits for, is over a connection that was opened |
| `Connection.HandedWasOpened` | lambdas/graph-writer/index.ts:95-127 | a repository handed out, stored or by an attempt that resolved, is over a connection whose opening succeeded |
| `Pagination.CollectPaginatedBounded` | lambdas/shared/pagination.ts:5-27 | stops within maxPages, never sends a token twice, and comes to the one verdict for the answers it got |
| `Pagination.VerdictIsUnique` | lambdas/shared/pagination.ts:15-27 | end, repeated token, failed load and truncation exclude each other and determine the items: the concatenation of the pages |
| `Pagination.CollectPaginated` | lambdas/shared/pagination.ts:29-38 | returns the concatenation of the pages exactly when the listing ends within the bound |
| `Pagination.RepeatNeverEnds` | lambdas/shared/pagination.ts:23-24 | where a token is always answered alike, a listing that repeats one would never end, so refusing it loses nothing |
| `Organisation.ListAccountsForParents` | lambdas/shared/account-inventory.ts:105-143 | visits no parent twice, ends on cycles, fails exactly when a reachable parent cannot be listed, and otherwise returns each account under a reachable parent once, as the last visited parent lists it |
| `Organisation.ListParent` | lambdas/shared/account-inventory.ts:118-139 | one parent's accounts set over those found, and its child units, exactly when both listings end |
| `Organisation.ClosedHoldsReachable` | lambdas/shared/account-inventory.ts:113-139 | a set that holds the roots and the children of its members holds everything reachable |
| `Organisation.DiscoverAccounts` | lambdas/shared/account-inventory.ts:181-207 | the accounts are those found and those listed, each once and sorted by id; found ones are as a parent lists them, the rest are active, without a parent, and named when names are wanted and known |
| `Organisation.NameListedAccounts` | lambdas/shared/account-inventory.ts:148-170 | exactly the listed accounts that the list of all accounts names get that name, and none when it cannot be read |
| `Organisation.SortKeeps` | lambdas/shared/account-inventory.ts:204-206 | sorting by id keeps the accounts, each once, and orders them |
| `Organisation.WorkItemsOfActive` | lambdas/shared/account-inventory.ts:93-103 | items exist exactly for active accounts and listed regions, global ones exactly for the first region |
| `Organisation.WorkItemsNeverRepeat` | lambdas/shared/account-inventory.ts:93-103 | no two items share account and region, nor two global ones an account |
| `Organisation.OneItemPerAccountAndRegion` | lambdas/shared/account-inventory.ts:93-103 | an item for each active account and region and no other, a global one for each active account |
| `ScopeIsolation.SelectedExactlyWhen` | lambdas/shared/graph-repository.ts:246-261 | a reconcile selects a vertex or an edge if and only if its scope, account and region are the reconcile's, it names another run, and its date is older; each is said of the stored property |
| `ScopeIsolation.VertexSpared` | lambdas/shared/graph-repository.ts:149-181 | however far a sweep came, a vertex whose scope, account or region differs, or that the run saw, or that is not older, is as it was |
| `ScopeIsolation.EdgeSpared` | lambdas/shared/graph-repository.ts:149-181 | the same of an edge whose endpoints stay |
| `ScopeIsolation.VertexSweptExactlyWhen` | lambdas/shared/graph-repository.ts:149-181 | a reconcile that meets no cap removes a vertex if and only if scope, account and region are its own, the run id is another and the date is older |
| `ScopeIsolation.EdgeSweptExactlyWhen` | lambdas/shared/graph-repository.ts:149-181 | the same of an edge, or it lost an endpoint |
| `GraphStore.VertexWriteExactly` | lambdas/shared/graph-repository.ts:330-345 | one vertex write: created as sent, or left alone when not newer, or else each property is the one sent, absent when cleared, or as it was; the label stays, and every other vertex and edge |
| `GraphStore.EdgeWriteExactly` | lambdas/shared/graph-repository.ts:435-459 | one edge write: there afterwards if and only if it was or both endpoints are, with the same rule for dates and properties, and no other edge changes |
| `GraphStore.DropExactly` | lambdas/shared/graph-repository.ts:149-165 | dropping vertices removes those, the edges with an endpoint among them, and nothing else |
| `EdgeWrites.AttemptExactly` | lambdas/shared/graph-repository.ts:191-207 | one attempt at one edge of an isolation: applied and answered, the edge is listed as skipped if and only if it is not in the store, and the next edge is up; otherwise it is tried again up to six attempts in all when the fault is transient, or the isolation starts over once, or the chunk is lost; no other chunk moves |
| `EdgeWrites.ChainExactly` | lambdas/shared/graph-repository.ts:116-135 | one chained traversal: the store has the part of the chunk that was reached; read in full, exactly the edges of the chunk that are not in the store are listed; otherwise the chunk is isolated and nothing is listed |
| `EdgeWrites.LackingListed` | lambdas/shared/graph-repository.ts:116-135 | the lacking edges are exactly those neither in the store nor with both endpoints in it |
| `ScopeIsolation.OtherVertexUntouched` | lambdas/collector/index.ts:892-910 | however far a run came, a vertex it did not emit and whose scope, account or region is another is as it was |
| `ScopeIsolation.OtherEdgeUntouched` | lambdas/collector/index.ts:893-910 | and so is such an edge, as long as its endpoints stay |
| `ScopeIsolation.OldVertexGone` | lambdas/collector/index.ts:893-910 | after a complete run under the cap, no vertex of its scope, account and region is left that an older run wrote and this one did not emit |
| `Collector.EmittedVertexExactly` | lambdas/collector/index.ts:826-858 | a vertex comes out without the run's stamps only when it is the internet, managed, or an external account; every other carries them, with its own date or the run's, each defined property as it was, and the clears that no property fills |
| `Collector.SharedVertexKeeps` | lambdas/collector/index.ts:836-840 | a shared vertex keeps every property it came with, those named like stamps included |
| `Collector.EmittedEdgeExactly` | lambdas/collector/index.ts:881-891 | an edge carries the run's stamps, its own date or the run's, and each defined property as it was |
| `Collector.CoverageVertexExactly` | lambdas/collector/index.ts:297-320 | the vertex of a coverage record: its id from region, account and service, the run's stamps, the record's time and counts |
| `Collector.InventoryExactly` | lambdas/collector/index.ts:811-825 | the run's own coverage record: succeeded exactly when no service failed, else failed as partial, with the counts of vertices and edges |
| `Collector.ReconcileExactly` | lambdas/collector/index.ts:893-910 | the reconcile a run sends names its own region's scope, run id, time, account and region |
| `Collector.MergeKeepsLast` | lambdas/collector/index.ts:209-236 | a merged node has the type of the last report, and the last clears and date any report gave |
| `Collector.OrderOfFirstReports` | lambdas/collector/index.ts:220-236 | merged nodes stand in the order of their first reports |
| `CardSharing.BucketSays` | ui/lib/attack-graph.ts:567-585 | two nodes fall in one bucket if and only if account, external, type, stage and the multiset of risks agree, and each link of the one in or out has a like one of the other: same other end, caption, kind and flag |
| `CardSharing.ShareCardExactlyWhen` | ui/lib/attack-graph.ts:559-594 | two nodes are drawn as one card if and only if neither is the internet, they agree in all of that, and the first node like them is not expanded |
| `CardSharing.DrawnAsFirst` | ui/lib/attack-graph.ts:587-594 | a node beside another like it is drawn as the first of them, or as itself when that one is expanded |
| `CardSharing.FirstLinkDrawn` | ui/lib/attack-graph.ts:597-604 | of the links between two cards the first is drawn, with its own caption, kind, flag and policy, and no other |
| `CardSharing.DistinctInOrder` | ui/lib/attack-graph.ts:611-616 | the ids and keys of a path stay in the order of their first places, each once |
| `CardSharing.PathDrawn` | ui/lib/attack-graph.ts:611-616 | a drawn path visits exactly the cards of its ids and the drawn keys of its links, from its start's card |
| `GraphBuilder.StrongestIs` | ui/lib/attack-graph.ts:297-304 | of recorded statements the strongest is access if and only if one is, deny if and only if all are, and conditional otherwise |
| `GraphBuilder.KindOfMany` | ui/lib/attack-graph.ts:288-323 | after any hops on a link, granted or plain: with several statements it is access if and only if one of them is, deny if and only if all are, else conditional, its caption is the verb of that kind with their number, and it names no one policy; with one or none it is as the first hop drew it |
| `GraphBuilder.DrawnKindOfMany` | ui/lib/attack-graph.ts:283-323 | so in any drawing of any paths: the statements of a link are exactly those of its hops, each of its last kind, and that decides the kind and caption |
| `GraphBuilder.DigitsSay` | ui/lib/attack-graph.ts:304 | the number in that caption is the number of statements in decimal |
| `DrawingLaws.FoldsExactlyWhen` | ui/lib/attack-graph.ts:355-377 | what follows a vertex folds if and only if it is one or more policies or policy documents and then a statement |
| `DrawingLaws.PlainPathDrawn` | ui/lib/attack-graph.ts:378-386 | a path without policies and statements is drawn vertex by vertex, in order |
| `DrawingLaws.ChainPathDrawn` | ui/lib/attack-graph.ts:345-377 | a principal, policies, a statement and a target are drawn as two nodes and one hop, captioned by the statement and made by the first policy: a deny if and only if it denies, conditional if and only if it does not and has conditions |
| `DrawingLaws.CaptionExactly` | ui/lib/attack-graph.ts:348-382 | a plain hop's caption is the label of the first edge between the two, or that they are connected |
| `DrawingLaws.NodesAsDrawn` | ui/lib/attack-graph.ts:267-281 | exactly the ids drawn are nodes, each as its first vertex says, with that vertex's risks and those folded into it later, no text twice |
| `DrawingLaws.CrossingExactlyWhen` | ui/lib/attack-graph.ts:316-319 | in any drawing a link is marked as crossing accounts if and only if both of its nodes have a twelve-digit account and they differ |
| `DrawingLaws.OpenedExactly` | ui/lib/attack-graph.ts:423-428 | the ids and keys of an opened path: its openers, the last listed first, each linked to the start, and then its own |
| `DrawingLaws.OpenersExactly` | ui/lib/attack-graph.ts:398-422 | who opens a start: nobody, the internet, the outside principals, or the one unresolved account when none are known |
| `CardLayout.LastColumnIsSomeNodes` | ui/lib/attack-graph.ts:652-659 | the last column is some node's, or the first |
| `CardLayout.SpacingFits` | ui/lib/attack-graph.ts:660-662 | columns are between 320 and 520 apart; in between they fill the asked width exactly |
| `EffectiveActions.NamedAllowedExactlyWhen` | lambdas/policy-evaluator/effect-resolver.ts:63-181 | a named action is allowed if and only if no Deny names it, boundary and service control policies cover it, and an Allow without conditions lists it, or lists a bare wildcard that does not exclude it beside a boundary that lists it |
| `EffectiveActions.NamedDeniedExactlyWhen` | lambdas/policy-evaluator/effect-resolver.ts:63-181 | a named action is denied if and only if a Deny names it, or an Allow offers it and a limit does not cover it |
| `EffectiveActions.StarUnderLimitsExactlyWhen` | lambdas/policy-evaluator/effect-resolver.ts:108-181 | under limits `*` is allowed if and only if an Allow without conditions lists a bare wildcard and so does an Allow of the parsed boundary, where there is one |
| `EffectiveActions.ConditionalExactlyWhen` | lambdas/policy-evaluator/effect-resolver.ts:63-143 | a conditional grant is listed if and only if no Deny names its action and an Allow with conditions that are not known to fail makes it, before a limit took that action away from a statement further up |
| `EffectiveActions.StarWithoutLimitsExactlyWhen` | lambdas/policy-evaluator/effect-resolver.ts:126-143 | without limits a wildcard is allowed if and only if an Allow without conditions lists it and no Deny does |
| `PassRoleRule.ActionCountsExactlyWhen` | lambdas/policy-evaluator/pass-role.ts:84-99 | an action counts as allowed if and only if an Allow without conditions applies to it and no Deny does that has neither conditions nor excluded resources and lists `*` as a resource |
| `PassRoleRule.StartsSays` | lambdas/policy-evaluator/pass-role.ts:137-142 | a service can be started if and only if every action of one of its sets is so allowed |
| `PassRoleRule.LimitSays` | lambdas/policy-evaluator/pass-role.ts:71-82 | conditions admit a service if and only if there are none, or all are about the passed service under a string operator and one of their values matches it |
| `PassRoleRule.AccountExactlyWhen` | lambdas/policy-evaluator/pass-role.ts:55-57 | an ARN is of an account if and only if it reads `arn:aws`, a partition suffix, `:iam::`, the twelve digits, a colon and anything |
| `PassRoleRule.RuleSays` | lambdas/policy-evaluator/pass-role.ts:84-213 | the rule over the fields of statements and role: same account, another role, a trusted service, an Allow that passes the role and no Deny that forbids it, and a way to start the service |
| `PassRoleRule.ReportedExactlyWhen` | lambdas/policy-evaluator/pass-role.ts:101-213 | a principal, role and service are reported if and only if that rule holds of them |
| `PassRoleRule.DeniedServiceNeverReported` | lambdas/policy-evaluator/pass-role.ts:84-145 | where every way to start a service holds an action denied everywhere, no path of the principal names the service |
| `PassRoleRule.StatementsListed` | lambdas/policy-evaluator/pass-role.ts:108-115 | the statements of documents are exactly those of the ones that parse |
| `EscalationRule.WantedExactlyWhen` | lambdas/policy-evaluator/escalation-detector.ts:105-110 | a source is kept if and only if no account is asked for, or its ARN shows none, or it shows that one in full |
| `EscalationRule.MattersSays` | lambdas/policy-evaluator/escalation-detector.ts:34-59 | a role matters as admin, or as one that is not and may do one of the escalation actions |
| `EscalationRule.DetectedIsReal` | lambdas/policy-evaluator/escalation-detector.ts:19-80 | every detected path is a chain of at most maxHops edges, end to end, from a wanted source into a role that matters |
| `EscalationRule.AllDetected` | lambdas/policy-evaluator/escalation-detector.ts:19-80 | with a bound of at least the number of ARNs, a path is detected wherever any chain of trust joins a wanted source to a role that matters |
| `EscalationRule.FirstIsKept` | lambdas/policy-evaluator/escalation-detector.ts:112-120 | of the paths with one source, target and type the first is kept and no other |
| `GlobMeaning.CaseDoesNotMatter` | packages/risk-engine/src/glob.ts:5-7 | patterns and texts that differ only in the case of ASCII letters match alike |
| `GlobMeaning.StarFreeExactlyWhen` | packages/risk-engine/src/glob.ts:5-28 | without `*` a pattern matches if and only if the lengths are equal and every character is `?` or the same letter in either case |
| `GlobMeaning.StarExactlyWhen` | packages/risk-engine/src/glob.ts:5-28 | a pattern with a `*` matches a star-free text if and only if what is before it matches a beginning and what is after it an end that do not overlap |
| `GlobMeaning.LiteralExactlyWhen` | packages/risk-engine/src/glob.ts:5-28 | a pattern without wildcards matches exactly the same text in any case |
| `GlobMeaning.ResourceMatchMeaning` | lambdas/policy-evaluator/policy-parser.ts:86-89 | for a resource without `*`, a resource pattern matches if and only if it is a bare star or matches in the wildcard meaning over lower-cased text |
| `GlobMeaning.PrefixExactlyWhen` | lambdas/policy-evaluator/policy-parser.ts:79-89 | `head*` matches exactly what begins with the head in any case, as an action and as a resource |
| `RightsizerRule.DomainStripped` | lambdas/shared/rightsizer.ts:89-92 | a use is named after its source without the first `.amazonaws.com` in it |
| `RightsizerRule.NoDomainKept` | lambdas/shared/rightsizer.ts:89-92 | a source without one is kept whole |
| `RightsizerRule.KeptExactlyWhen` | lambdas/shared/rightsizer.ts:82-164 | a pattern stays if and only if a use by that principal since the cutoff matches it, or reads are kept and it names a reading verb; else it is removed |
| `RightsizerRule.PrefixExactly` | lambdas/shared/rightsizer.ts:184-186 | an operation is shortened to its text up to the first capital and the small letters after it, and what follows a line break stays |
| `RightsizerRule.PrefixWhole` | lambdas/shared/rightsizer.ts:184-186 | an operation without a capital stays whole |
| `RightsizerRule.BecomesExactly` | lambdas/shared/rightsizer.ts:166-199 | with ten operations or more of its service a kept pattern becomes the whole service; with three or more, two of which begin with its prefix, that prefix; else it stays |
| `Connection.TryEndsExactly` | lambdas/graph-writer/index.ts:62-80 | a try succeeds, is tried again, or is final, exactly by what the wait and the repository said |
| `Pagination.JoinedExactly` | lambdas/shared/pagination.ts:15-22 | the items are the pages' items one after the other, none lost or repeated |
| `Pagination.EndsExactlyWhen` | lambdas/shared/pagination.ts:19-24 | a listing ends at a page without a next token, all before it with one, no token twice |
| `Organisation.FoundAccountExactly` | lambdas/shared/account-inventory.ts:118-143 | a found account is as its parent lists it last, with that name and state, or an unknown state when it gives none |
| `Organisation.HealthyExactlyWhen` | lambdas/shared/account-inventory.ts:118-143 | a parent can be listed if and only if both listings end and every account has an id |
| `Organisation.LastNameExactly` | lambdas/shared/account-inventory.ts:148-170 | the name an id gets is the last non-empty one listed for it |

## Left out

- ReconcileSafety.VertexSafeExactlyWhen: all writers of a vertex stamp it, or all leave it without a scope, as the collector does by id; coverage vertices carry their stage's earlier time and are outside it.
- Collector.Collect: takes stage outputs, tags, exposure and coverage as inputs, with distinct coverage ids. Which of several equally dated writes of one edge key stays depends on the order in which retries and chunks apply them, and is left open.
- GraphRepository.Repository.Write: vertex chunks are written one after another, as `GraphRepository.NodesInAnyOrder` shows their order not to matter. Invalid ids and `clearProperties` validation errors are not modelled, and timestamps are integers.
- GraphRepository.Graph.PutNode: each Gremlin traversal is its intended upsert or drop on the abstract store.
- Packing.AppendBatches: the JSON text of an item is a function parameter and its characters stand for bytes.
- Glob.GlobMatchLoop: lower-casing is ASCII only.
- Rightsizer.RecentUseStaysAllowed: uses without `*`, on which the matcher itself is exact, and patterns that do not collapse to a prefix they lack (`Rightsizer.CutAtLineEnd`), which takes a line break in an operation name; `Rightsizer.LostAtLineEnd` shows the loss there.
- Rightsizer.TargetKeepsExactlyWhen: an action with a star before the end of its first operation word is outside it; there a cut may or may not lose a use.
- Escalation.DetectEscalationPaths: risk level, conditions, ids and times of a path are not modelled, nor is lateral movement.
- Escalation.DeduplicatePaths: a key joined from several texts, here and for links (`Grouping.KeyOf`), is a tuple of them; that two could join to one text is not modelled.
- PassRole.DetectPassRoleEscalations: the order of the services of a path is not modelled; the passable admin role is an input.
- Resolver.Resolve: the evaluation of conditions is an uninterpreted verdict; the order of a result set, the evaluated-policy list and the blast radius are not modelled.
- CardLayout.LayoutAttackGraph: the order within a cell is stated for acyclic links; that it leaves few crossings is not. Widths are real numbers.
- GraphBuilder.Builder.AddPath: permission lists, scores, severities and display texts are not modelled, nor is which way an edge was walked. A statement's permission caption is an input.
- Pools.MapBounded: an operation's outcome is a function of its item and index, which loses nothing because each index is started at most once.
- Connection.NeptuneGraphWriter.Write: how a repository answers a try, and whether not getting one is final, are parameters; a wait that is too long is one more way not to get one, and the abandoned await goes on as an event. A socket opens only while its attempt awaits it.
- Organisation.DiscoverAccounts: how two ids compare is a parameter, any total order.
- The HTTP server, credentials, environment parsing, cloud clients, the per-service collectors, the scoring engine, the React components, the recompute worker, the changelog diff and the plan analyzers are not part of this model.
