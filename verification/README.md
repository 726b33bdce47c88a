# A verified model of the retrieval SDK's algorithms

This project models, in Dafny 4.11, the self-contained algorithms of a Go SDK for
retrieval-augmented generation, and proves what they promise.

* **Community detection** (`modularity.dfy`, `sweeps.dfy`, `louvain_*.dfy`, `coarsening.dfy`, `community.dfy`,
  `label_propagation.dfy`, `same_communities.dfy`). Two-phase Louvain and label propagation over mutable label and
  degree tables. Both detectors are instances of one theory of improving sweeps. Each Louvain move strictly raises
  modularity, or keeps it and gives the node a smaller key; so no labelling recurs, the sweeps stop without their cap,
  and what they stop at is stable. Coarsening preserves the modularity of every labelling at every resolution, so
  modularity on the original graph never falls from level to level of the hierarchy, and at its top, short of the level
  cap, no two communities would do better as one. Neither detector's result depends on the order in which the graph is
  listed.
* **Graph construction** (`union_find.dfy`, `resolve.dfy`, `canonicalize.dfy`, `canonical_merges.dfy`,
  `canonical_order.dfy`, `graph_construction.dfy`). Union-find with path halving over an array computes exactly the
  single-link clusters; names and endpoints are rewritten, then merged by exact match with weights conserved. Which
  relations survive, and when the merged graph does not depend on the order of the inputs, is settled by exact
  conditions on the inputs.
* **Graph storage, traversal and paths** (`provenance.dfy`, `upserts.dfy`, `entity_upserts.dfy`, `traversal.dfy`,
  `store.dfy`, `neighborhoods.dfy`, `path.dfy`). Union-merging upserts, provenance-counted removal, breadth-first
  distances under depth and fan-out caps, and a backtracking search that finds every simple path once.
* **Bounded fan-out and its clients** (`fanout.dfy`, `benchmark.dfy`, `benchmark_metrics.dfy`, `scoreboard.dfy`,
  `active_retrieval.dfy`). An interleaved step system of workers, tokens and contexts, quantified over every schedule;
  the parallel benchmark refines it, both clients agree with their sequential forms, and every run of either ends.
* **Caches** (`linked_list.dfy`, `recency.dfy`, `lru.dfy`, `cache_runs.dfy`, `memo.dfy`, `memo_interleaved.dfy`,
  `grader_cache.dfy`, `judge_cache.dfy`). One generic class over a doubly linked ring refines a recency sequence; over
  it, the memoising wrappers are transparent, also to concurrent calls, and a larger capacity never loses a hit.
* **Text splitting** (`splitter.dfy`) and **the reflection loop of `Ask`** (`reflection.dfy`, `ask.dfy`).

`orders.dfy`, `sorting.dfy`, `first_occurrences.dfy`, `sums.dfy`, `strings.dfy`, `ids.dfy`, `options.dfy`, `graphs.dfy`
and `raw_graph.dfy` hold the shared vocabulary. Code that changes state in the original is imperative here, and each method is tied to a
specification function or relation about which the properties are proved.

Conventions. Weights, scores and similarities are real numbers. In the graph modules an identifier is an integer that
stands for its place in the order of strings, with the empty string at zero; where the characters matter (names, cache
keys, texts) strings are sequences of bytes. A map iteration yields keys in an arbitrary order. Errors are values. Models,
embedders, retrievers, graders and planners are arbitrary functions, of the round where they may change between rounds.
A mutex makes a method one atomic step; what runs between two such steps may interleave with other calls.

Where the code and its documentation disagree the model follows the code:

* A chunk may exceed the requested size by a fifth (`ingest/splitter.go:31` says it may not);
  `Splitter.SizeAsDocumentedIff` says for which sizes the documented bound holds.
* Grader weights default together, not one by one (`rag/options.go:99-106`); see `Reflection.WeightsAsDocumentedIff` and
  `Reflection.ScoreAsDocumentedIff`.
* A name shared by entities of two types is rewritten once, to the name of its last bearer's cluster, not per type
  (`graph/resolve.go:172-179`), which can undo a merge; see `Resolve.MergeUndone` and, for the exact condition,
  `Resolve.MergesKeptIff`.
* Two entities can share an ID when a type holds a colon, and relations that use the second one's name are dropped; see
  `GraphConstruction.ColonTypeLosesName` and, for the exact conditions, `CanonicalOrder.LookupKnowsIff`,
  `CanonicalOrder.AllNamedResolveIff` and `GraphConstruction.AllResolvedSurviveIff`.
* The names, the lookup and the endpoints of a merged graph can depend on the input order; see
  `CanonicalOrder.EndpointsMayDisagree` and, for the exact conditions, `CanonicalOrder.NamesOrderFreeIff`,
  `CanonicalOrder.LookupOrderFreeIff` and `CanonicalOrder.MergeOrderFreeIff`.
* Cache keys join their parts by NUL (and passages by 0x01), so parts that hold these characters can collide; see
  `GraderCache.NulCollides`, `JudgeCache.JudgeNulCollides`, `JudgeCache.JudgeAnswerCollides` and
  `JudgeCache.SeparatorCollides`, and for the exact conditions `GraderCache.KeysDistinguish` and
  `JudgeCache.JudgeKeysDistinguish`.

## Model

| member | source | states |
|---|---|---|
| Modularity.MoveDelta | graph/louvain.go:164-203 | relabelling one node changes any symmetric agreement sum by twice the difference of the node's pulls to the two communities |
| Modularity.GainIsPull | graph/louvain.go:190 | the gain computed from the weight into a community and its summed degree is half the modularity change of inserting the isolated node there |
| Modularity.BondMeans | graph/louvain.go:190 | the bond of a pair is its share of the total weight less the resolution times the product of its degrees over the squared total |
| Sweeps.SweepsTerminate | graph/louvain.go:161-209 | for any improving rule the sweeps reach a fixpoint within as many rounds as there are labellings, and any larger cap gives the same result |
| Sweeps.HistoryGrows | graph/louvain.go:161-209 | as long as each sweep moves something no labelling recurs |
| Sweeps.FixpointIffSettled | graph/louvain.go:206-208 | a sweep ends where it began exactly when no visit changes the labelling |
| Sweeps.SettledOrClimbs | graph/louvain.go:161-209 | sweeps under a cap of n end settled, or have improved the labelling n times |
| LouvainMoves.ChoiceUnique | graph/louvain.go:183-194 | the largest gain never below zero, ties to the smallest key with the current community standing in for gain zero, determine one community |
| LouvainMoves.MoveImproves | graph/louvain.go:164-203 | every executed move strictly raises resolution-scaled modularity, or keeps it and gives the node a strictly smaller key |
| LouvainMoves.StaysIffContent | graph/louvain.go:183-202 | a node stays put exactly when no candidate beats the larger of zero and its own gain, ties included |
| LouvainMoves.LouvainSettles | graph/louvain.go:161-209 | from any labelling the sweeps settle, without a cap, where every node is content |
| LouvainPass.WeightsInto | graph/louvain.go:168-173 | the table of weights into neighbouring communities, the node's self-loop left out |
| LouvainPass.BestCommunity | graph/louvain.go:181-194 | the candidate scan over the isolated tables returns the choice of the specification |
| LouvainPass.SweepOnce | graph/louvain.go:163-205 | one sweep equals the specified sweep, and between visits the community degree table holds the summed degrees of the members |
| LouvainPass.Normalize | graph/louvain.go:213-224 | every community is renamed to its lowest member |
| LouvainPass.CanonicalSamePartition | graph/louvain.go:211-224 | renaming keeps the partition, and each label is the least node of its class |
| LouvainPass.Pass | graph/louvain.go:119-225 | the whole pass with its early exits equals as many specified sweeps as the cap allows, renamed |
| LouvainPassProperties.PassRaisesQuality | graph/louvain.go:119-225 | the pass returns a canonical partition whose modularity is at least that of the singletons |
| LouvainPassProperties.PassConverges | graph/louvain.go:161-209 | with a cap no smaller than the number of labellings the result no longer depends on the cap, and no neighbouring community offers a node more than the larger of zero and its own gain |
| LouvainStable.ApartIsStable | graph/louvain.go:119-225 | a pass of one sweep at least that leaves all nodes apart leaves no two whose merger would raise modularity |
| LouvainStable.PassSettledOrClimbed | graph/louvain.go:153-209 | a pass under a cap of n ends where no node has a better neighbouring community, or has improved the labelling n times |
| Coarsening.AgreementLifts | graph/louvain.go:240-273 | block sums turn the agreement of a labelling of super-nodes into that of the labelling it induces below |
| Coarsening.CoarseDegree | graph/louvain.go:240-273 | a super-node's degree is the sum of its members' degrees |
| Coarsening.TotalWeightKept | graph/louvain.go:240-273 | coarsening keeps the total weight 2m |
| Coarsening.CoarseIsGraph | graph/louvain.go:240-273 | the aggregated adjacency is again symmetric and non-negative over the super-nodes |
| Coarsening.QualityLifts | graph/louvain.go:222-275 | every labelling of the super-nodes has, at any resolution, the modularity of the labelling it induces on the finer graph |
| LouvainCoarsen.OwnersCompose | graph/louvain.go:229-247 | composing canonical ownerships gives a canonical ownership of the entities |
| LouvainCoarsen.SuperNodes | graph/louvain.go:229-247 | one super-node per class, holding exactly the class's entities, named by the lowest and listed in order |
| LouvainCoarsen.AddRow | graph/louvain.go:262-272 | one source row adds each entry to the block of its super-nodes' pair |
| LouvainCoarsen.Coarsen | graph/louvain.go:228-275 | the new nodes stand for the composed ownership and the new adjacency is the block sum of the old |
| Communities.BuildAdjacency | graph/community.go:170-188 | the weight of a pair is the sum over the relations joining it in either direction, self-loops and unknown ends skipped; symmetric and non-negative |
| Communities.RelationsByLabel | graph/community.go:219-229 | the relations listed under a label are exactly those with both ends carrying it |
| Communities.CommunitiesFromLabels | graph/community.go:204-245 | the communities are exactly the classes of the labelling, each once, members sorted, named by level and lowest member, in ID order |
| Communities.ListsItsRelations | graph/community.go:219-240 | at level 0 a community lists, sorted, the relations with both ends among its members, one ID for each; at higher levels none |
| LouvainDetect.FaithfulCoarsening | graph/louvain.go:66-91 | a working graph whose modularity reflects the original graph's stays so through pass and coarsening |
| LouvainDetect.PassRaisesOriginal | graph/louvain.go:66-91 | a pass on a coarsened graph does not lower modularity measured on the original graph |
| LouvainDetect.Project | graph/louvain.go:70-79 | every entity gets the community of the working node that holds it |
| LouvainDetect.BuildLevels | graph/louvain.go:63-92 | levels are partitions that refine each other, modularity never falls, counts strictly fall but at the last, and the loop ends for one of its two reasons |
| LouvainDetect.ParentHoldsAll | graph/louvain.go:281-295 | the parent found through the first entity alone is the one next-level community that holds any member, and it holds all |
| LouvainDetect.AssignParents | graph/louvain.go:281-295 | each child is linked to a community holding its first entity if there is one, and to nothing else |
| LouvainDetect.LevelsBounded | graph/louvain.go:66-91 | with strictly falling counts there are no more levels than entities |
| LouvainDetect.FlattenSorted | graph/louvain.go:100-110 | the concatenated levels are in strictly ascending order of level and ID, so all community IDs are distinct |
| LouvainDetect.TopIsStable | graph/louvain.go:63-92 | unless the hierarchy reaches 64 levels, giving two communities of its top one label does not raise modularity on the original graph |
| LouvainDetect.FirstIsSettled | graph/louvain.go:33-79 | on the first level no entity has a better neighbouring community, or a hundred sweeps have each improved the labelling |
| LouvainDetect.Detect | graph/louvain.go:44-112 | the hierarchy: partitions of the entities, nested, parents wired, modularity non-decreasing, counts falling, at most as many levels as entities; its first level settled and its top stable in the sense of the two rows above |
| SameCommunities.SameHierarchy | graph/community.go:23-28 | same graph, same hierarchy: whatever order entities, relations and map keys come in, two results are equal, parents included |
| SameCommunities.SamePropagation | graph/community.go:31-37 | the same for label propagation |
| LabelPropagation.PreferredUnique | graph/community.go:76-131 | heaviest label, then nearest to the current one, then lowest, is a single label |
| LabelPropagation.MoveRaisesShared | graph/community.go:59-71 | every move strictly raises the total weight of edges whose ends share a label |
| LabelPropagation.StaysDominant | graph/community.go:91-131 | an entity keeps its label exactly when it has no neighbours or no label among them carries more weight |
| LabelPropagation.PropagationSettles | graph/community.go:59-71 | propagation settles without its cap, and then each entity with neighbours carries a label of maximal incident weight |
| LabelPropagation.PropagatesFar | graph/community.go:39-71 | under the cap every entity with neighbours ends with a label of maximal incident weight, or a hundred sweeps have each raised the weight of the edges whose ends share a label |
| LabelPropagation.DominantNeighborLabel | graph/community.go:91-131 | the two scans over the sorted labels compute the specified label |
| LabelPropagation.Propagate | graph/community.go:52-71 | the loop with its early exit equals the specified sweeps up to the cap |
| LabelPropagation.Detect | graph/community.go:44-74 | one level of communities, the classes of the labels propagation ends with, which are as far as the row PropagatesFar says |
| UnionFind.HalvingKeepsRoot | graph/resolve.go:120-127 | halving a path changes no root |
| UnionFind.AttachMovesRoot | graph/resolve.go:128-140 | attaching the higher root below the lower moves exactly the trees of the higher |
| UnionFind.Find | graph/resolve.go:120-127 | terminates because links never point up, returns the root and changes no root |
| UnionFind.Union | graph/resolve.go:128-140 | merges exactly the two trees under the lower root |
| UnionFind.RootsAreClusters | graph/resolve.go:112-157 | two indices share a root exactly when a chain of links joins them, and each root is its cluster's least index |
| UnionFind.UnionSound | graph/resolve.go:128-140 | uniting linked indices keeps every index connected to its root |
| Resolve.SortByName | graph/resolve.go:87-96 | a permutation of the indices sorted stably by name |
| Resolve.LinkedIff | graph/resolve.go:141-157 | two entities are linked exactly when they have one type and one name, or the vectors of their names, the lexically lower first, are at least as similar as the threshold |
| Resolve.ScanPairs | graph/resolve.go:141-157 | after the double loop the array's roots are sound and complete for the links of same type and same or similar name |
| Resolve.CanonicalNameUnique | graph/resolve.go:159-170 | longest member name, ties lexically lowest, is one name per cluster |
| Resolve.CanonicalNameIsLongest | graph/resolve.go:159-170 | no name of the cluster is longer than the canonical one, nor as long and lexically lower |
| Resolve.CanonicalNames | graph/resolve.go:159-170 | each root is given its cluster's canonical name |
| Resolve.RewriteTable | graph/resolve.go:172-179 | each input name is mapped to the canonical name of its last bearer's cluster, and nothing else is |
| Resolve.ResolveEntities | graph/resolve.go:75-197 | the first name that cannot be embedded is the error; else entities and relations are rewritten by the clusters, nothing else changed |
| Resolve.TypesNeverMerge | graph/resolve.go:145-147 | entities of different types are never in one cluster |
| Resolve.EndpointsFollow | graph/resolve.go:186-195 | an endpoint that names an input entity names an output entity after the rewrite |
| Resolve.OwnClusterIff | graph/resolve.go:172-185 | an entity gets its own cluster's canonical name exactly when the cluster of the last bearer of its name has the same one; always when no other type bears the name |
| Resolve.AllOwnIff | graph/resolve.go:159-185 | every entity gets its own cluster's canonical name exactly when, wherever two types bear one input name, their clusters have one canonical name |
| Resolve.MergesKeptIff | graph/resolve.go:159-185 | every cluster's members come out under one name exactly when, for any two members of a cluster, the clusters of the last bearers of their names have one canonical name |
| Resolve.OwnNamesKeepMerges | graph/resolve.go:159-185 | own canonical names suffice for that |
| Resolve.KeptWithoutOwn | graph/resolve.go:172-185 | they are not necessary: three entities of two types whose clusters keep one name each although one entity gets another cluster's |
| Resolve.MergeUndone | graph/resolve.go:172-185 | for every embedder that finds two names similar, three entities of two types of which two linked ones come out under two names |
| Canonicalize.UnionStrings | graph/canonicalize.go:106-119 | both lists' non-blank members, each once, in order of first occurrence |
| Canonicalize.MergeEntities | graph/canonicalize.go:24-51 | one accumulator per ID: its first bearer, exactly the provenance of all bearers, and the first occurrences of their trimmed descriptions that are not blank |
| Canonicalize.NamesToIds | graph/canonicalize.go:53-58 | a normalized name leads to the highest ID among the output entities that bear it |
| Canonicalize.MergeRelations | graph/canonicalize.go:64-88 | one accumulator per ID: the endpoints, label and trimmed description of its first maker, the summed weight and the provenance of all makers |
| Canonicalize.Canonicalize | graph/canonicalize.go:18-98 | the output lists exactly the accumulated entities and relations in ID order with sorted provenance |
| Canonicalize.WeightConserved | graph/canonicalize.go:64-94 | output weights sum to the weights of exactly the inputs whose two endpoints resolve |
| Canonicalize.EndpointsExist | graph/canonicalize.go:64-98 | every output endpoint is an output entity ID |
| CanonicalOrder.PlainTypesAgree | graph/canonicalize.go:25-38 | with types free of colons equal IDs come from equal normalized names |
| CanonicalOrder.PlainTypesApart | graph/canonicalize.go:25-38 | with types free of colons entities of different types never share an ID |
| CanonicalOrder.OrderIrrelevant | graph/canonicalize.go:18-98 | where the highest ID of every name has that name only, IDs, provenance, weights and the lookup are the same for every order of the inputs |
| CanonicalMerges.SomeMerge | graph/canonicalize.go:18-98 | every input has a merge, so statements about all merges of an input are not empty |
| CanonicalOrder.AgreeingTopsFirm | graph/canonicalize.go:25-58 | so it is when IDs determine names |
| CanonicalOrder.LookupIsTop | graph/canonicalize.go:53-58 | then the lookup leads each name to the highest ID among its bearers |
| CanonicalOrder.LookupOrderFreeIff | graph/canonicalize.go:25-58 | for all inputs: the lookup is the same for every order of the entities exactly when the bearers of each name's highest ID all bear that name |
| CanonicalOrder.NamesOrderFreeIff | graph/canonicalize.go:25-51 | for all inputs: the normalized names of merged entities are the same for every order exactly when IDs determine names |
| CanonicalOrder.EndpointsPermuted | graph/canonicalize.go:75-85 | where the lookup is order-free and relations that make one ID have one pair of endpoints, these are the same for every order of the inputs |
| CanonicalOrder.EndpointsOrderFreeIff | graph/canonicalize.go:64-88 | where the lookup is order-free, the merges of all rearrangements of the inputs have the same endpoints exactly when relations that make one ID have one pair of endpoints |
| CanonicalOrder.MergeOrderFreeIff | graph/canonicalize.go:18-98 | for all inputs: lookup and endpoints are order-free exactly when both conditions hold |
| CanonicalOrder.PlainEndpointsClear | graph/canonicalize.go:25-74 | types, normalized names and relation labels free of colons suffice for that |
| CanonicalOrder.EndpointsMayDisagree | graph/canonicalize.go:74 | three entities of a plain type and two relations whose two orders give one merged relation different sources |
| CanonicalOrder.LookupKnowsIff | graph/canonicalize.go:30-58 | the lookup knows exactly the normalized names of the first bearers of IDs |
| CanonicalOrder.SurvivesIff | graph/canonicalize.go:64-88 | a relation resolves exactly when both its endpoints normalize to such names, and then its ID is in the output |
| CanonicalOrder.AllNamedResolveIff | graph/canonicalize.go:30-70 | every relation between named entities resolves exactly when every non-blank normalized name is that of the first bearer of some ID |
| CanonicalOrder.AgreeingNamesKept | graph/canonicalize.go:30-58 | which is so when IDs determine names |
| GraphConstruction.AllResolvedSurviveIff | graph/resolve.go:162-196 | after resolution, every relation whose endpoints exactly name input entities resolves in the merge exactly when every resolved name is non-blank and that of the first bearer of some ID; a relation that resolves has its ID in the output |
| GraphConstruction.PlainTypesReachable | graph/canonicalize.go:25-58 | types free of colons and canonical forms that are not blank suffice for that |
| GraphConstruction.ColonTypeLosesName | graph/canonicalize.go:30-58 | with a colon in a type two entities can share an ID and one name be lost to the lookup |
| Provenance.MergeStrings | store/graph.go:220-233 | both lists' non-blank chunks, each once, in order of first occurrence |
| Provenance.RemoveFrom | store/graph.go:253-261 | exactly the elements at the places not dropped, in order |
| Provenance.RemovalIsExact | store/graph.go:56-84 | afterwards no list mentions a dropped chunk, none is empty, and nothing else is lost |
| Provenance.RemoveUndoesUpsertIff | store/graph.go:41-84 | upserting items with only fresh chunks and removing these restores IDs and provenance exactly when every stored item had provenance and no touched one was blank or cited a blank chunk |
| GraphStore.RemoveUndoesUpsert | store/graph.go:41-84 | the same for the stored graph, entities and relations together |
| GraphStore.NothingDropped | store/graph.go:56-84 | after a removal no stored item cites a dropped chunk, every survivor has provenance, and exactly the items with other provenance survive |
| Upserts.UpsertMerges | store/graph.go:205-218 | under every non-blank relation ID: the link stored before or else the first to come, the stored weight plus all incoming weights, all provenance, and the descriptions combined one by one; other IDs unchanged, and under the blank ID the last to come |
| EntityUpserts.UpsertMerges | store/graph.go:196-203 | the same for entities, with their name and type |
| GraphStore.InMemoryStore.UpsertGraph | store/graph.go:41-52 | a well-keyed namespace becomes the merge of the two rows above and stays well-keyed; all other namespaces unchanged |
| GraphStore.InMemoryStore.RemoveGraphBySource | store/graph.go:56-84 | an absent namespace is left alone; else exactly the items that cite another chunk remain, each with all its fields but the dropped chunks, all other namespaces unchanged |
| GraphStore.InMemoryStore.Neighborhood | store/graph.go:88-171 | with the depth clamped to 0 to 2: exactly the entities within it of the known seeds, each with its shortest distance, and exactly the stored relations with both ends reached, in ID order |
| Neighborhoods.NeighborhoodMeans | store/graph.go:88-171 | where no entity has more than 64 ends of relations, the distances are those along stored relations in either direction |
| Neighborhoods.StepsToFirst64 | store/graph.go:126-131 | in general a step leads to the first 64 of the sorted neighbours that exist |
| GraphStore.NeighborhoodsNest | store/graph.go:88-171 | a larger depth adds entities and relations only and changes no distance |
| Traversal.AdjacencyUnique | store/graph.go:103-111 | the sorted neighbour lists do not depend on the order the relation map is read in |
| Traversal.BuildAdjacency | store/graph.go:103-111 | each list holds the neighbours in both directions with repetitions, sorted |
| Traversal.Search | store/graph.go:113-145 | the level-by-level loop computes exactly the shortest distances in the graph cut to 64 neighbours per node |
| Traversal.DeeperExtends | store/graph.go:125-145 | a deeper search keeps all distances found by a shallower one |
| Traversal.EmptyFrontierStops | store/graph.go:125 | an empty frontier means the search is complete for every larger depth |
| Paths.RankedAsPromised | graph/path.go:118-195 | a listed path has one or two edges; one edge scores its weight, two score the decay times both weights, times 1.1 exactly when a chunk is cited by both; scores fall along the list, equal ones in the order of their entities |
| Paths.ScorePath | graph/path.go:170-195 | length decay times edge weights times one bonus factor per co-attested consecutive pair |
| Paths.ShareChunk | graph/path.go:199-214 | true exactly when a chunk is cited by both relations |
| Paths.PathSearch.EnumPaths | graph/path.go:133-164 | appends exactly what the specification finds, and the visited set is restored on return |
| Paths.FoundIff | graph/path.go:133-164 | for any length bound the search lists exactly the scored simple continuations of the current path to the goal |
| Paths.FoundOnce | graph/path.go:133-164 | with no edge listed twice no path is found twice, for any length bound |
| Paths.BuildEdgeTable | graph/path.go:77-106 | per entity exactly its incident edges between known entities, sorted by neighbour and relation |
| Paths.TableOnce | graph/path.go:84-106 | with distinct relation IDs no edge is listed twice |
| Paths.RankPaths | graph/path.go:71-127 | the output holds exactly the scored simple paths between the valid seed pairs, scored and ordered as RankedAsPromised says with the decay 0.5 unless set; with distinct relation IDs and pairs each exactly once |
| Paths.RankingUniqueIff | graph/path.go:110-127 | the ranking is the only one exactly when no two of its paths have both score and entities in common |
| Fanout.AlwaysKept | internal/fanout/fanout.go:65-151 | in every state of every schedule: tokens belong to workers between acquiring and leaving and never exceed the cap, slots are written with their own index, and the derived context is done only for a reason |
| Fanout.CapHolds | internal/fanout/fanout.go:78-82 | never more tasks run than tokens are held, nor more tokens than the cap |
| Fanout.NeverStuck | internal/fanout/fanout.go:112-151 | while some worker is not done some worker can act, whatever was cancelled, failed or panicked |
| Fanout.RunsEnd | internal/fanout/fanout.go:112-151 | no schedule lets the workers act more than six times each |
| Fanout.CanFinish | internal/fanout/fanout.go:84-89 | every partial run can be completed without outside help |
| Fanout.WrittenOnce | internal/fanout/fanout.go:100-102 | a slot once written stays the same for the rest of the run |
| Fanout.FinishedRun | internal/fanout/fanout.go:65-95 | when all workers are done every token is back, slot i is written with index i, and the top-level error is set exactly when there were tasks and the caller's context is done |
| Fanout.CollectsAll | internal/fanout/fanout.go:54-58 | without fail-fast and cancellation slot i holds what task i ended in |
| Fanout.SkipsOnlyAfterFailure | internal/fanout/fanout.go:28-39 | with fail-fast an uncancelled run without a failed task skips none |
| Fanout.NoneStartsLate | internal/fanout/fanout.go:112-130 | once the derived context is done no waiting task starts any more, in any continuation |
| Benchmark.NormalizeParallelism | eval/benchmark.go:305-310 | the worker count, one for every setting below two |
| Benchmark.RunSequential | eval/benchmark.go:342-360 | the loop returns the specified run: all results, the first error, or a crash at a panic |
| Benchmark.SequentialIff | eval/benchmark.go:342-360 | the sequential run completes with a list exactly when every example succeeds with that list's entry |
| Benchmark.RefinesFanout | eval/benchmark.go:370-412 | forgetting the task bodies, every schedule of the parallel runner is a schedule of the fan-out |
| Benchmark.AlwaysKept | eval/benchmark.go:376-411 | in every state a skipped example implies a recorded error, a recorded error is that of an attempted example, and slots match what became of the examples |
| Benchmark.Conclude | eval/benchmark.go:414-429 | nil error exactly when nothing is recorded and every slot is a plain end; else the recorded error or that of a slot |
| Benchmark.NilErrorIff | eval/benchmark.go:370-430 | under every schedule the error is nil exactly when no attempted example failed or panicked and no slot was cancelled, and then every example was attempted and no skipped slot shows |
| Benchmark.ParallelIsSequential | eval/benchmark.go:342-430 | a nil error means the sequential run's list, whatever the schedule |
| Benchmark.FailsTogether | eval/benchmark.go:342-430 | uncancelled and without panics the parallel run fails exactly when the sequential one does, with the error of some failing example |
| Benchmark.NeverStuck | eval/benchmark.go:376-412 | the runner with its gate never blocks before all workers are done |
| Benchmark.GateHolds | eval/benchmark.go:376-392 | once an error is recorded no example whose task has not read the gate is attempted, in any continuation |
| Benchmark.RunsEnd | eval/benchmark.go:370-412 | no schedule has more than nine steps per example, cancellations from outside aside |
| Benchmark.CanFinish | eval/benchmark.go:370-412 | every partial run can be completed without a cancellation from outside |
| BenchmarkMetrics.AggregateBenchmarkMetrics | eval/benchmark.go:475-590 | the scoreboard as folds over the examples, or the index error exactly when an adopted round has no bucket |
| Scoreboard.AnswersMean | eval/benchmark.go:475-590 | exact-match rate, mean token score and phrase recall in terms of the examples' fields |
| Scoreboard.ReflectionMeans | eval/benchmark.go:475-590 | mean rounds, adopted-round counts and early-adoption rate likewise |
| Scoreboard.SignalsMean | eval/benchmark.go:475-590 | follow-ups, fire rate, groundedness and answer relevance likewise |
| Scoreboard.OverflowsIff | eval/benchmark.go:552-560 | the index error occurs exactly when some example reflected and one adopted a round above those of all that did |
| BenchmarkMetrics.OrderForgotten | eval/benchmark.go:475-590 | neither scoreboard nor index error depends on the order of the examples |
| BenchmarkMetrics.ReflectedNeverOverflows | eval/benchmark.go:552-560 | examples that adopt rounds only when they reflected never cause the index error |
| ActiveRetrieval.UnionHits | rag/active_retrieval.go:81-113 | the map-and-order loop with its stable sort and cut computes the specified union |
| ActiveRetrieval.UnionMeans | rag/active_retrieval.go:70-113 | one hit per chunk ID with its maximum score over all inputs, every chunk present, by score and then first occurrence, cut to the first capK |
| ActiveRetrieval.UnionUnique | rag/active_retrieval.go:70-113 | that description determines chunks, places and scores |
| ActiveRetrieval.GradeRelevanceOnly | rag/active_retrieval.go:127-149 | one relevance per hit, neutral on error, and their maximum from zero |
| ActiveRetrieval.SlotsAreRetrievals | rag/active_retrieval.go:276-302 | under every schedule without cancellation and panics slot i holds the retrieval of planned query i |
| ActiveRetrieval.RunFollowupsSequential | rag/active_retrieval.go:228-242 | the hits of the queries that succeed, in planner order |
| ActiveRetrieval.RetrievedMeans | rag/active_retrieval.go:228-242 | those are exactly the hits of the retrievals that succeed |
| ActiveRetrieval.RunFollowupsParallel | rag/active_retrieval.go:303-313 | for every finished schedule, cancelled and panicking ones included, one list per query in planner order, empty where the slot holds no value |
| ActiveRetrieval.ValuesAreRetrieved | rag/active_retrieval.go:257-313 | without cancellation and panics these are the hits of the sequential dispatch |
| ActiveRetrieval.ValuesAmongRetrieved | rag/active_retrieval.go:303-311 | otherwise, values being those of their retrievals, there are no hits but those of the sequential dispatch |
| ActiveRetrieval.DispatchesAgree | rag/active_retrieval.go:218-242 | without cancellation and panics the hits of a round do not depend on the kind of dispatch |
| ActiveRetrieval.SomeFanout | rag/active_retrieval.go:302 | every plan has a schedule without cancellation and panics, and it is one of the finished ones |
| ActiveRetrieval.EffectiveCaps | rag/active_retrieval.go:47-68 | a positive setting is used as it is; the others become 2, 4 and 0.4 |
| ActiveRetrieval.Budget.RunActiveRetrieval | rag/active_retrieval.go:174-255 | no follow-ups when nothing is left, a seed hit reaches the floor or the planner, shown the relevances of the seed, fails; else its plan as far as both caps allow; counters move by exactly their number; the hits are the union of the seed and what the dispatch brought, whatever became of its tasks |
| LinkedList.List.InsertFront | rag/grader_cache.go:133 | the ring stays well linked and the element comes first |
| LinkedList.List.Remove | rag/grader_cache.go:141 | the ring closes around the removed element and keeps the order of the rest |
| LinkedList.List.MoveToFront | rag/grader_cache.go:117 | the element comes first, the others keep their order |
| Lru.Cache.Get | rag/grader_cache.go:109-120 | returns what the recency sequence holds, refreshes exactly that entry and counts hit or miss |
| Lru.Cache.Put | rag/grader_cache.go:125-145 | the entry comes to the front of the recency sequence, which is cut to the capacity; an eviction is counted exactly for a new key in a full cache |
| Lru.Cache.Stats | rag/grader_cache.go:149-159 | the counters and the number of entries |
| CacheRuns.Replay | eval/judge_cache.go:57-138 | any sequence of operations on the linked structure gives the contents, counters and results of the abstract run |
| CacheRuns.RunKeeps | rag/grader_cache.go:109-159 | in every run keys are distinct and within the capacity, hits and misses add up to the gets, and evictions are new-key inserts less the current size |
| CacheRuns.HitIsLastPut | rag/grader_cache.go:107-145 | a hit returns the value last put under its key |
| Memo.Ask | eval/judge_cache.go:212-223 | a call nobody disturbs: a hit answers without the inner call, a success is kept, an error is not |
| Memo.EntriesWereAnswered | rag/grader_cache.go:194-196 | every entry of every run is an earlier success of the inner function for its key |
| Memo.RepliesAreAnswers | rag/grader_cache.go:235-261 | whatever the inner function does, a reply is its answer now or its earlier success for that key |
| Memo.Transparent | rag/grader_cache.go:192-261 | the wrapper is invisible when the inner function answers calls of one key alike, errors included |
| Memo.HoldsMostRecent | rag/grader_cache.go:125-145 | with an inner function that never fails the cache holds the most recent keys up to its capacity, in order |
| Memo.MoreCapacityKeepsHits | rag/grader_cache.go:109-145 | raising the capacity never turns a hit into a miss, even when the inner function fails now and then |
| MemoInterleaved.AlwaysKept | eval/judge_cache.go:212-223 | under every interleaving of lookups, inner returns and insertions of concurrent calls, keys stay distinct and within the capacity, and every entry and reply is an answer the inner function gave for its key |
| MemoInterleaved.AnsweredByCall | eval/judge_cache.go:212-223 | a finished call was answered by its own inner function or by that of a call with its key |
| MemoInterleaved.Transparent | eval/judge_cache.go:175-223 | concurrent calls are answered as uncached ones when the inner function answers calls of one key alike |
| MemoInterleaved.SequentialRun | eval/judge_cache.go:212-223 | the sequential run is one of these interleavings |
| GraderCache.KeysDistinguish | rag/grader_cache.go:179-190 | for whatever texts and chunk IDs are in use: a question shares its key only with questions alike up to normalisation exactly when its joined text splits into a text and an ID in use at no NUL but the separator |
| GraderCache.PlainIdsSplitOnce | rag/grader_cache.go:179-190 | chunk IDs free of NUL suffice for that |
| GraderCache.NulCollides | rag/grader_cache.go:179-190 | for every query and every chunk ID holding a NUL, a longer query about the shorter ID behind the NUL has the same key, where both are in normal form |
| GraderCache.CachingGrader.ScoreRelevance | rag/grader_cache.go:235-246 | a relevance question steps the cache under its key and returns the relevance side |
| GraderCache.CachingGrader.ScoreSupport | rag/grader_cache.go:250-261 | a support question steps the cache under its key and returns the support side |
| GraderCache.GraderTransparent | rag/grader_cache.go:192-261 | in every run of questions whose joined texts split once, the wrapped grader answers as the inner one, if that answers questions alike up to normalisation alike |
| GraderCache.ConcurrentGraderTransparent | rag/grader_cache.go:192-261 | so it does to concurrent questions, however their lookups, inner calls and insertions interleave |
| JudgeCache.JoinIff | eval/judge_cache.go:165-171 | joined passages coincide exactly for the same passages, or for none and one blank one |
| JudgeCache.JudgeKeysDistinguish | eval/judge_cache.go:159-173 | for whatever queries, answers and passages are in use: a request shares its key only with requests alike up to normalisation exactly when its joined text, split at two NUL and cut at 0x01, reads in no other way |
| JudgeCache.CutsIff | eval/judge_cache.go:165-171 | the ways to cut a text at its 0x01 are exactly the lists of passages in use that join to it |
| JudgeCache.SeparableReadsOnce | eval/judge_cache.go:159-173 | queries and answers free of NUL and passages free of 0x01 suffice for that |
| JudgeCache.JudgeNulCollides | eval/judge_cache.go:159-173 | a NUL in a normal query lets what follows it move into the answer without changing the key |
| JudgeCache.JudgeAnswerCollides | eval/judge_cache.go:159-173 | a NUL in a normal answer lets what follows it move into the first passage without changing the key |
| JudgeCache.SeparatorCollides | eval/judge_cache.go:165-171 | a 0x01 in a normal passage lets it share its key with two passages |
| JudgeCache.CachingJudge.Judge | eval/judge_cache.go:212-223 | a request steps the cache under its key and returns the reply |
| JudgeCache.JudgeTransparent | eval/judge_cache.go:175-223 | in every run of requests whose joined texts read in one way, the wrapped judge answers as the inner one, if that answers requests alike up to normalisation alike |
| JudgeCache.ConcurrentJudgeTransparent | eval/judge_cache.go:175-223 | so it does to concurrent requests, as those of the parallel benchmark |
| Splitter.FindBreak | ingest/splitter.go:114-134 | break at the last blank line of the hard window, else after the last word of the soft one, else at its end; the text goes on past a blank line |
| Splitter.SpansFollow | ingest/splitter.go:112-141 | before trimming, every span but the last ends at a break; the next one starts past a blank line there and back by the overlap, or one byte on where that would not get further |
| Splitter.CutWindows | ingest/splitter.go:112-141 | the loop terminates for every overlap and cuts the specified windows, the spans of the row above trimmed |
| Splitter.SplitText | ingest/splitter.go:102-149 | a short text is one chunk; else the chunks are the trimmed spans that are not empty, spans following one another with an overlap of 0 when negative, the one asked for when below the size, half the size otherwise; every byte that is not white space lies in a chunk, no chunk exceeds maxChars + maxChars/5 bytes, and without overlap the bytes that are not white space are those of the text, in order |
| Splitter.SizeAsDocumentedIff | ingest/splitter.go:29-33 | chunks are no larger than asked for, whatever the text, exactly when the size asked for is below five |
| Reflection.GradeRound | rag/reflection.go:127-163 | both scores of each packed hit, neutral on error, and the largest relevance from zero |
| Reflection.RoundAggregateScore | rag/reflection.go:168-182 | the weighted mean of both sides, zero without scores |
| Reflection.ScoreOfOne | rag/reflection.go:168-182 | a single chunk scores the weighted sum of its sides, half and half when no weight is positive |
| Reflection.ScoreOfBoth | rag/reflection.go:168-182 | scores of two parts of a round combine as means do |
| Reflection.TopMeans | rag/reflection.go:127-163 | the top relevance bounds all relevances and, when above zero, is one of them |
| Reflection.PickBestRound | rag/reflection.go:208-222 | the earliest round of highest aggregate score |
| Reflection.WeightsAsDocumentedIff | rag/reflection.go:172-175 | the weights default one by one, as documented, exactly when both are positive or neither is |
| Reflection.ScoreAsDocumentedIff | rag/reflection.go:168-182 | the score of a round is the documented one exactly when its weights are, or there are no scores, or the side whose weight is not positive sums to zero |
| Ask.Decide | rag/ask.go:256-316 | the decision of each mode: rule first, then unchanged evidence, then the model with its rewrite rules and the limit; a model is asked exactly when neither of the first two stops |
| Ask.GoOn | rag/ask.go:317-338 | a stop is extended exactly under the adaptive budget, limit and threshold; the next query is a rewrite or the question |
| Ask.AskRound | rag/ask.go:396-425 | the round retrieves for its own query, plans follow-ups for that seed when active retrieval is on, and takes text, packed hits and top score from the evidence gathered; the shared counters move by exactly the follow-ups, within the per-round cap |
| Ask.Reflect | rag/ask.go:168-364 | a successful run is a transcript in which each round answers from what its own query retrieved, within what is left of the follow-ups, is graded for that query and decided as it must be, goes on only for a reason, ends at a stop nothing extends, adopts a recorded round and accounts for all follow-ups |
| Ask.OneExtension | rag/ask.go:321-333 | of two recorded rounds before the last at most one stops, and only with the adaptive extension on |
| Ask.RunShape | rag/ask.go:168-364 | rounds are numbered 1..n within the limit, the last stops and at most one before it, the adopted round is recorded, follow-ups add up to what was used within the per-Ask cap, and the model is asked at most once a round |

## Left out

* Model, embedder, reranker, compressor, HTTP, database and file input and output: arbitrary functions or absent.
* Floating-point rounding, and not-a-number as an input: weights, scores and similarities are real numbers.
* Observers, metrics of tokens and time, traces, prompts and rendering: they do not feed back into the algorithms.
* Parsing of the deciding model's reply: the parsed reply, or its failure, is a parameter of each round.
* Ask.Reflect: the original has one loop for rule mode and one for model and hybrid mode; they differ in the decision only, so one loop with `Ask.Decide` stands for both.
* Ask in the off mode and in an unknown mode: one round without a loop.
* The token budget of an Ask call: several stages absorb its error, so it bounds nothing about a successful answer.
* LabelPropagation.DominantNeighborLabel: the common prefix length of two identifiers is an arbitrary function of them.
* LouvainDetect.Detect: requires distinct entity IDs; the identifier of a community is the pair of its level and lowest member, and the final sort is proved to change nothing because the list is already sorted.
* Resolve.ResolveEntities: similarity and embedding are arbitrary functions; similarity is taken in name order and need not be symmetric.
* Canonicalize.Canonicalize: entity and relation metadata and the joining of descriptions.
* GraphStore.InMemoryStore.UpsertGraph: merged descriptions are an arbitrary function of the two; weights and descriptions are not restored by a later removal.
* GraphStore name lookup: a filter over the entities.
* Paths.RankPaths: paths of equal score and equal entities over parallel relations may come in either order; see Paths.RankingUniqueIff.
* Fanout.AlwaysKept: the stack captured with a panic, and goroutines not yet spawned, which are the same as workers not yet scheduled.
* Benchmark.NilErrorIff: the progress callback counts as part of the example's attempt; scoring of one answer is a parameter.
* ActiveRetrieval.RunFollowupsSequential: a retrieval that panics ends the process there, while the fan-out recovers it; only the latter is modelled.
* Lru.Cache.Stats: a snapshot is one atomic step, so the looser reading of counters under concurrent calls is not modelled.
* SameCommunities.SameHierarchy: weights are real numbers; sums of floating-point weights may differ in their last digits with the order of the relations.
* GraderCache.KeysDistinguish: the digest is taken to be injective, and normalisation is an arbitrary function that keeps the empty string.
* Splitter.SplitText: what TrimSpace takes off is a parameter of which only that it takes off nothing but white space is assumed; Splitter.AsciiTrims gives the instance for white space of ASCII.
* Markdown sections, document metadata and chunk identifiers: bookkeeping around the text splitter.
* Global and drift search, hybrid retrieval, rerankers, evaluation of retrieval and the agentic loops: bounded loops and sums that would add easier members.
