/** The in-memory graph store: upserts, removals by source, and the bounded traversal. */
module GraphStore {
  import opened Ids
  import opened Sums
  import opened Sorting
  import opened Graphs
  import opened LouvainPass
  import opened Provenance
  import opened FirstOccurrences
  import opened Traversal
  import opened Upserts
  import EntityUpserts

  /* ---- Projection to provenance ---- */

  function EntitySources(m: map<Id, Entity>): Table {
    map id | id in m :: m[id].sources
  }

  function RelationSources(m: map<Id, Relation>): Table {
    map id | id in m :: m[id].sources
  }

  function EntityItems(es: seq<Entity>): (items: seq<Item>)
    ensures |items| == |es|
  {
    seq(|es|, i requires 0 <= i < |es| => Item(es[i].id, es[i].sources))
  }

  function RelationItems(rs: seq<Relation>): (items: seq<Item>)
    ensures |items| == |rs|
  {
    seq(|rs|, i requires 0 <= i < |rs| => Item(rs[i].id, rs[i].sources))
  }

  lemma SameTable(t: Table, u: Table)
    requires forall id :: id in t <==> id in u
    requires forall id :: id in t && id in u ==> t[id] == u[id]
    ensures t == u
  {
    forall id
      ensures id in t <==> id in u
      ensures id in t ==> t[id] == u[id]
    {
    }
    SameMap(t, u);
  }

  lemma {:induction false} EntityUpsertsProject(describe: Describe, m: map<Id, Entity>, es: seq<Entity>)
    requires forall id :: id in m ==> m[id].id == id
    ensures EntitySources(UpsertEntities(describe, m, es)) == UpsertAll(EntitySources(m), EntityItems(es))
    ensures forall id :: id in UpsertEntities(describe, m, es) ==> UpsertEntities(describe, m, es)[id].id == id
  {
    hide Firsts;
    if es == [] {
    } else {
      var init := es[..|es| - 1];
      EntityUpsertsProject(describe, m, init);
      assert EntityItems(es)[..|es| - 1] == EntityItems(init);
      var was, now := UpsertEntities(describe, m, init), UpsertEntities(describe, m, es);
      var t := UpsertAll(EntitySources(m), EntityItems(es));
      forall id
        ensures id in EntitySources(now) <==> id in t
        ensures id in EntitySources(now) && id in t ==> EntitySources(now)[id] == t[id]
      {
        assert id in EntitySources(was) <==> id in UpsertAll(EntitySources(m), EntityItems(init));
      }
      SameTable(EntitySources(now), t);
    }
  }

  lemma {:induction false} RelationUpsertsProject(describe: Describe, m: map<Id, Relation>, rs: seq<Relation>)
    requires forall id :: id in m ==> m[id].id == id
    ensures RelationSources(UpsertRelations(describe, m, rs)) == UpsertAll(RelationSources(m), RelationItems(rs))
    ensures forall id :: id in UpsertRelations(describe, m, rs) ==> UpsertRelations(describe, m, rs)[id].id == id
  {
    hide Firsts;
    if rs == [] {
    } else {
      var init := rs[..|rs| - 1];
      RelationUpsertsProject(describe, m, init);
      assert RelationItems(rs)[..|rs| - 1] == RelationItems(init);
      var was, now := UpsertRelations(describe, m, init), UpsertRelations(describe, m, rs);
      var t := UpsertAll(RelationSources(m), RelationItems(rs));
      forall id
        ensures id in RelationSources(now) <==> id in t
        ensures id in RelationSources(now) && id in t ==> RelationSources(now)[id] == t[id]
      {
        assert id in RelationSources(was) <==> id in UpsertAll(RelationSources(m), RelationItems(init));
      }
      SameTable(RelationSources(now), t);
    }
  }

  lemma {:induction false} RemovalProjects(s: NsGraph, drop: set<Id>)
    ensures EntitySources(RemovedGraph(s, drop).entities) == Removed(EntitySources(s.entities), drop)
    ensures RelationSources(RemovedGraph(s, drop).relations) == Removed(RelationSources(s.relations), drop)
  {
    hide Kept;
    SameTable(EntitySources(RemovedGraph(s, drop).entities), Removed(EntitySources(s.entities), drop));
    SameTable(RelationSources(RemovedGraph(s, drop).relations), Removed(RelationSources(s.relations), drop));
  }

  /** The chunks of drop are new to the store and cover all incoming provenance. */
  ghost predicate FreshFor(s: NsGraph, g: Graph, drop: set<Id>) {
    && Fresh(EntitySources(s.entities), EntityItems(g.entities), drop)
    && Fresh(RelationSources(s.relations), RelationItems(g.relations), drop)
  }

  ghost predicate SameProvenanceGraph(s: NsGraph, t: NsGraph) {
    && SameProvenance(EntitySources(s.entities), EntitySources(t.entities))
    && SameProvenance(RelationSources(s.relations), RelationSources(t.relations))
  }

  /** Every stored item has provenance; what g touches is neither blank nor cites a blank chunk. */
  ghost predicate Restorable(s: NsGraph, g: Graph) {
    && AllSourced(EntitySources(s.entities)) && NoBlankTouched(EntitySources(s.entities), EntityItems(g.entities))
    && AllSourced(RelationSources(s.relations)) && NoBlankTouched(RelationSources(s.relations), RelationItems(g.relations))
  }

  /** Removing the chunks of an upsert restores IDs and provenance exactly when s is restorable. */
  lemma {:induction false} RemoveUndoesUpsert(describe: Describe, s: NsGraph, g: Graph, drop: set<Id>)
    requires WellKeyed(s) && FreshFor(s, g, drop)
    ensures SameProvenanceGraph(s, RemovedGraph(Upserted(describe, s, g), drop)) <==> Restorable(s, g)
  {
    hide AllSourced, NoBlankTouched, SameProvenance, Removed, UpsertAll, Fresh;
    EntityUpsertsProject(describe, s.entities, g.entities);
    RelationUpsertsProject(describe, s.relations, g.relations);
    RemovalProjects(Upserted(describe, s, g), drop);
    RemoveUndoesUpsertIff(EntitySources(s.entities), EntityItems(g.entities), drop);
    RemoveUndoesUpsertIff(RelationSources(s.relations), RelationItems(g.relations), drop);
  }

  /** After a removal no stored item cites a dropped chunk and every survivor has provenance. */
  lemma {:induction false} NothingDropped(s: NsGraph, drop: set<Id>)
    ensures AllSourced(EntitySources(RemovedGraph(s, drop).entities))
    ensures AllSourced(RelationSources(RemovedGraph(s, drop).relations))
    ensures forall id, c :: id in RemovedGraph(s, drop).entities && c in RemovedGraph(s, drop).entities[id].sources ==>
      c !in drop
    ensures forall id, c :: id in RemovedGraph(s, drop).relations && c in RemovedGraph(s, drop).relations[id].sources ==>
      c !in drop
    ensures forall id :: id in RemovedGraph(s, drop).entities <==>
      id in s.entities && exists c :: c in s.entities[id].sources && c !in drop
    ensures forall id :: id in RemovedGraph(s, drop).relations <==>
      id in s.relations && exists c :: c in s.relations[id].sources && c !in drop
  {
    RemovalIsExact(EntitySources(s.entities), drop);
    RemovalIsExact(RelationSources(s.relations), drop);
    RemovalProjects(s, drop);
    hide Kept, Removed;
    var t := RemovedGraph(s, drop);
    forall id
      ensures id in t.entities <==> id in EntitySources(t.entities)
      ensures id in t.entities ==> t.entities[id].sources == EntitySources(t.entities)[id]
      ensures id in t.relations <==> id in RelationSources(t.relations)
      ensures id in t.relations ==> t.relations[id].sources == RelationSources(t.relations)[id]
    {
    }
  }

  /**
    t is s with g merged into it, field by field: the first name, type and link to come, all
    weight, all provenance.
  */
  ghost predicate IsUnion(describe: Describe, s: NsGraph, g: Graph, t: NsGraph) {
    && EntityUpserts.AreMerged(describe, s.entities, g.entities, t.entities)
    && AreMerged(describe, s.relations, g.relations, t.relations)
  }

  lemma UpsertIsUnion(describe: Describe, s: NsGraph, g: Graph)
    requires WellKeyed(s)
    ensures WellKeyed(Upserted(describe, s, g)) && IsUnion(describe, s, g, Upserted(describe, s, g))
  {
    hide UpsertEntities, UpsertRelations, AreMerged, EntityUpserts.AreMerged;
    EntityUpserts.UpsertMerges(describe, s.entities, g.entities);
    UpsertMerges(describe, s.relations, g.relations);
  }

  /** t is s without the dropped chunks: what cites nothing else is gone, the rest keeps all but those chunks. */
  ghost predicate IsWithout(s: NsGraph, drop: set<Id>, t: NsGraph) {
    && (forall id :: id in t.entities <==> id in s.entities && exists c :: c in s.entities[id].sources && c !in drop)
    && (forall id :: id in t.relations <==> id in s.relations && exists c :: c in s.relations[id].sources && c !in drop)
    && (forall id :: id in t.entities && id in s.entities ==>
      && t.entities[id] == s.entities[id].(sources := t.entities[id].sources)
      && Filters(s.entities[id].sources, drop, t.entities[id].sources))
    && (forall id :: id in t.relations && id in s.relations ==>
      && t.relations[id] == s.relations[id].(sources := t.relations[id].sources)
      && Filters(s.relations[id].sources, drop, t.relations[id].sources))
  }

  lemma RemovedIsWithout(s: NsGraph, drop: set<Id>)
    ensures IsWithout(s, drop, RemovedGraph(s, drop))
  {
    hide Filters, AllSourced;
    NothingDropped(s, drop);
    var t := RemovedGraph(s, drop);
    forall id | id in t.entities
      ensures Filters(s.entities[id].sources, drop, t.entities[id].sources)
    {
      KeptFilters(s.entities[id].sources, drop);
    }
    forall id | id in t.relations
      ensures Filters(s.relations[id].sources, drop, t.relations[id].sources)
    {
      KeptFilters(s.relations[id].sources, drop);
    }
  }

  /* ---- The store ---- */

  datatype Subgraph = Subgraph(entities: seq<Entity>, relations: seq<Relation>, depth: map<Id, nat>)

  ghost predicate Ascends(ids: seq<Id>) {
    forall i, j :: 0 <= i < j < |ids| ==> ids[i] < ids[j]
  }

  /** Depths clamped to [0, MAX_GRAPH_DEPTH]. */
  function Clamp(depth: int): nat {
    if depth < 0 then 0 else if depth > MAX_GRAPH_DEPTH then MAX_GRAPH_DEPTH else depth
  }

  /** rs lists, in ID order, exactly the stored relations with both ends reached. */
  ghost predicate ListsInner(relations: map<Id, Relation>, depth: map<Id, nat>, ids: seq<Id>, rs: seq<Relation>) {
    && Ascends(ids) && |rs| == |ids|
    && (forall id :: id in ids <==> id in relations && relations[id].source in depth && relations[id].target in depth)
    && (forall i :: 0 <= i < |ids| ==> ids[i] in relations && rs[i] == relations[ids[i]])
  }

  /** es lists, in ID order, exactly the reached entities. */
  ghost predicate ListsReached(entities: map<Id, Entity>, depth: map<Id, nat>, ids: seq<Id>, es: seq<Entity>) {
    && Ascends(ids) && |es| == |ids|
    && (forall id :: id in ids <==> id in depth)
    && (forall i :: 0 <= i < |ids| ==> ids[i] in entities && es[i] == entities[ids[i]])
  }

  /** sub is the part of g within limit capped steps of the seeds. */
  ghost predicate IsNeighborhood(g: NsGraph, seedIDs: seq<Id>, limit: nat, sub: Subgraph) {
    exists adj ::
      && IsAdjacency(g.relations, adj)
      && IsDistance(g.entities.Keys, adj, SeedSet(seedIDs), limit, sub.depth)
      && (exists ids :: ListsReached(g.entities, sub.depth, ids, sub.entities))
      && (exists ids :: ListsInner(g.relations, sub.depth, ids, sub.relations))
  }

  /** The drained keys, ascending. */
  method SortedKeys(keys: set<Id>) returns (ids: seq<Id>)
    ensures Ascends(ids) && forall id :: id in ids <==> id in keys
  {
    var list := Drain(keys);
    SortDistinct(list);
    ids := SortIds(list);
  }

  lemma ReachedExist(ents: set<Id>, adj: Traversal.Adjacency, seeds: set<Id>, limit: nat, depth: map<Id, nat>)
    requires IsDistance(ents, adj, seeds, limit, depth)
    ensures forall id :: id in depth ==> id in ents
  {
    forall id | id in depth
      ensures id in ents
    {
      var path :| IsWalk(ents, adj, seeds, path, id) && |path| == depth[id] + 1;
      if |path| > 1 {
        assert Steps(ents, adj, path[|path| - 2], path[(|path| - 2) + 1]);
      }
    }
  }

  method ListReached(entities: map<Id, Entity>, depth: map<Id, nat>) returns (es: seq<Entity>, ghost ids: seq<Id>)
    requires forall id :: id in depth ==> id in entities
    ensures ListsReached(entities, depth, ids, es)
  {
    var sorted := SortedKeys(depth.Keys);
    forall i | 0 <= i < |sorted|
      ensures sorted[i] in entities
    {
      assert sorted[i] in sorted;
    }
    es := seq(|sorted|, i requires 0 <= i < |sorted| => entities[sorted[i]]);
    ids := sorted;
  }

  method ListInner(relations: map<Id, Relation>, depth: map<Id, nat>) returns (rs: seq<Relation>, ghost ids: seq<Id>)
    ensures ListsInner(relations, depth, ids, rs)
  {
    var relIDs: set<Id> := {};
    var todo := relations.Keys;
    while todo != {}
      invariant todo <= relations.Keys
      invariant forall id :: id in relIDs <==>
        id in relations && id !in todo && relations[id].source in depth && relations[id].target in depth
    {
      var id := Next(todo);
      if relations[id].source in depth && relations[id].target in depth {
        relIDs := relIDs + {id};
      }
      todo := todo - {id};
    }
    var sorted := SortedKeys(relIDs);
    forall i | 0 <= i < |sorted|
      ensures sorted[i] in relations
    {
      assert sorted[i] in sorted;
    }
    rs := seq(|sorted|, i requires 0 <= i < |sorted| => relations[sorted[i]]);
    ids := sorted;
  }

  method UpsertEachEntity(describe: Describe, m: map<Id, Entity>, items: seq<Entity>)
    returns (entities: map<Id, Entity>)
    ensures entities == UpsertEntities(describe, m, items)
  {
    entities := m;
    for i := 0 to |items|
      invariant entities == UpsertEntities(describe, m, items[..i])
    {
      assert items[..i + 1][..i] == items[..i];
      var e := items[i];
      var existing := EntityAt(entities, e.id);
      if existing.id == EMPTY_ID {
        entities := entities[e.id := e];
      } else {
        var sources := MergeStrings(existing.sources, e.sources);
        entities := entities[e.id := existing.(sources := sources, description := describe(existing.description, e.description))];
      }
    }
    assert items[..|items|] == items;
  }

  method UpsertEachRelation(describe: Describe, m: map<Id, Relation>, items: seq<Relation>)
    returns (relations: map<Id, Relation>)
    ensures relations == UpsertRelations(describe, m, items)
  {
    relations := m;
    for i := 0 to |items|
      invariant relations == UpsertRelations(describe, m, items[..i])
    {
      assert items[..i + 1][..i] == items[..i];
      var r := items[i];
      var existing := RelationAt(relations, r.id);
      if existing.id == EMPTY_ID {
        relations := relations[r.id := r];
      } else {
        var sources := MergeStrings(existing.sources, r.sources);
        relations := relations[r.id := existing.(sources := sources, description := describe(existing.description, r.description),
                                                weight := existing.weight + r.weight)];
      }
    }
    assert items[..|items|] == items;
  }

  /** Graphs by namespace, changed in place. */
  class InMemoryStore {
    var graphs: map<Id, NsGraph>

    constructor ()
      ensures graphs == map[]
    {
      graphs := map[];
    }

    function At(namespace: Id): NsGraph
      reads this
    {
      if namespace in graphs then graphs[namespace] else EMPTY_GRAPH
    }

    /** Union-merges g into the namespace's graph, creating it if absent. */
    method UpsertGraph(describe: Describe, namespace: Id, g: Graph)
      modifies this
      ensures graphs == old(graphs)[namespace := Upserted(describe, old(At(namespace)), g)]
      ensures WellKeyed(old(At(namespace))) ==>
        WellKeyed(At(namespace)) && IsUnion(describe, old(At(namespace)), g, At(namespace))
    {
      var ng := At(namespace);
      var entities := UpsertEachEntity(describe, ng.entities, g.entities);
      var relations := UpsertEachRelation(describe, ng.relations, g.relations);
      graphs := graphs[namespace := NsGraph(entities, relations)];
      if WellKeyed(ng) {
        UpsertIsUnion(describe, ng, g);
      }
    }

    /** Drops the chunks from all provenance and collects what is left without any. */
    method RemoveGraphBySource(namespace: Id, chunkIDs: seq<Id>)
      modifies this
      ensures namespace !in old(graphs) ==> graphs == old(graphs)
      ensures namespace in old(graphs) ==>
        && graphs == old(graphs)[namespace := RemovedGraph(old(graphs)[namespace], SeedSet(chunkIDs))]
        && IsWithout(old(graphs)[namespace], (set c | c in chunkIDs), graphs[namespace])
    {
      if namespace !in graphs {
        return;
      }
      var ng, drop := graphs[namespace], set c | c in chunkIDs;
      var entities := DropEntities(ng.entities, drop);
      var relations := DropRelations(ng.relations, drop);
      RemovedParts(ng, drop, entities, relations);
      RemovedIsWithout(ng, drop);
      graphs := graphs[namespace := NsGraph(entities, relations)];
    }

    /** The subgraph within the clamped depth of the known seeds. */
    method Neighborhood(namespace: Id, seedIDs: seq<Id>, depth: int) returns (sub: Subgraph)
      ensures namespace !in graphs ==> sub == Subgraph([], [], map[])
      ensures namespace in graphs ==>
        IsNeighborhood(graphs[namespace], seedIDs, if depth < 0 then 0 else if depth > 2 then 2 else depth, sub)
    {
      hide IsAdjacency, IsDistance, ListsReached, ListsInner;
      if namespace !in graphs {
        return Subgraph([], [], map[]);
      }
      var ng := graphs[namespace];
      var adj := BuildAdjacency(ng.relations);
      var reached := Search(ng.entities.Keys, adj, seedIDs, Clamp(depth));
      ReachedExist(ng.entities.Keys, adj, SeedSet(seedIDs), Clamp(depth), reached);
      ghost var entIds, relIds;
      var es, rs;
      es, entIds := ListReached(ng.entities, reached);
      rs, relIds := ListInner(ng.relations, reached);
      sub := Subgraph(es, rs, reached);
    }
  }

  method DropEntities(m: map<Id, Entity>, drop: set<Id>) returns (r: map<Id, Entity>)
    ensures forall id :: id in r <==> id in m && Kept(m[id].sources, drop) != []
    ensures forall id :: id in r ==> r[id] == m[id].(sources := Kept(m[id].sources, drop))
  {
    hide Kept;
    r := m;
    var todo := m.Keys;
    while todo != {}
      invariant todo <= m.Keys
      invariant forall id :: id in r <==> id in m && (id in todo || Kept(m[id].sources, drop) != [])
      invariant forall id :: id in r ==>
        r[id] == if id in todo then m[id] else m[id].(sources := Kept(m[id].sources, drop))
    {
      var id := Next(todo);
      var kept := RemoveFrom(r[id].sources, drop);
      if |kept| == 0 {
        r := r - {id};
      } else {
        r := r[id := r[id].(sources := kept)];
      }
      todo := todo - {id};
    }
  }

  method DropRelations(m: map<Id, Relation>, drop: set<Id>) returns (r: map<Id, Relation>)
    ensures forall id :: id in r <==> id in m && Kept(m[id].sources, drop) != []
    ensures forall id :: id in r ==> r[id] == m[id].(sources := Kept(m[id].sources, drop))
  {
    hide Kept;
    r := m;
    var todo := m.Keys;
    while todo != {}
      invariant todo <= m.Keys
      invariant forall id :: id in r <==> id in m && (id in todo || Kept(m[id].sources, drop) != [])
      invariant forall id :: id in r ==>
        r[id] == if id in todo then m[id] else m[id].(sources := Kept(m[id].sources, drop))
    {
      var id := Next(todo);
      var kept := RemoveFrom(r[id].sources, drop);
      if |kept| == 0 {
        r := r - {id};
      } else {
        r := r[id := r[id].(sources := kept)];
      }
      todo := todo - {id};
    }
  }

  lemma RemovedParts(ng: NsGraph, drop: set<Id>, entities: map<Id, Entity>, relations: map<Id, Relation>)
    requires forall id :: id in entities <==> id in ng.entities && Kept(ng.entities[id].sources, drop) != []
    requires forall id :: id in entities ==>
      entities[id] == ng.entities[id].(sources := Kept(ng.entities[id].sources, drop))
    requires forall id :: id in relations <==> id in ng.relations && Kept(ng.relations[id].sources, drop) != []
    requires forall id :: id in relations ==>
      relations[id] == ng.relations[id].(sources := Kept(ng.relations[id].sources, drop))
    ensures NsGraph(entities, relations) == RemovedGraph(ng, drop)
  {
    hide Kept;
    var g := RemovedGraph(ng, drop);
    forall id
      ensures id in entities <==> id in g.entities
      ensures id in entities ==> entities[id] == g.entities[id]
      ensures id in relations <==> id in g.relations
      ensures id in relations ==> relations[id] == g.relations[id]
    {
    }
    SameMap(entities, g.entities);
    SameMap(relations, g.relations);
  }

  /** A larger depth adds entities and relations only, and changes no distance. */
  lemma {:induction false} NeighborhoodsNest(g: NsGraph, seedIDs: seq<Id>, j: nat, k: nat, near: Subgraph, far: Subgraph)
    requires j <= k && IsNeighborhood(g, seedIDs, j, near) && IsNeighborhood(g, seedIDs, k, far)
    ensures forall b :: b in near.depth ==> b in far.depth && far.depth[b] == near.depth[b]
    ensures forall b :: b in far.depth && far.depth[b] <= j ==> b in near.depth
    ensures forall e :: e in near.entities ==> e in far.entities
    ensures forall r :: r in near.relations ==> r in far.relations
  {
    hide IsAdjacency, IsDistance, ListsReached, ListsInner;
    var adj :| IsAdjacency(g.relations, adj) && IsDistance(g.entities.Keys, adj, SeedSet(seedIDs), j, near.depth);
    var adj' :| IsAdjacency(g.relations, adj') && IsDistance(g.entities.Keys, adj', SeedSet(seedIDs), k, far.depth);
    DistanceByLists(g.relations, g.entities.Keys, adj, adj', SeedSet(seedIDs), k, far.depth);
    DeeperExtends(g.entities.Keys, adj, SeedSet(seedIDs), j, k, near.depth, far.depth);
    var ids :| ListsReached(g.entities, near.depth, ids, near.entities);
    var ids' :| ListsReached(g.entities, far.depth, ids', far.entities);
    ReachedNest(g.entities, near.depth, far.depth, ids, ids', near.entities, far.entities);
    var rids :| ListsInner(g.relations, near.depth, rids, near.relations);
    var rids' :| ListsInner(g.relations, far.depth, rids', far.relations);
    InnerNest(g.relations, near.depth, far.depth, rids, rids', near.relations, far.relations);
  }

  lemma ReachedNest(entities: map<Id, Entity>, near: map<Id, nat>, far: map<Id, nat>, ids: seq<Id>, ids': seq<Id>,
                    es: seq<Entity>, es': seq<Entity>)
    requires ListsReached(entities, near, ids, es) && ListsReached(entities, far, ids', es')
    requires forall b :: b in near ==> b in far
    ensures forall e :: e in es ==> e in es'
  {
    hide Ascends;
    forall i | 0 <= i < |es|
      ensures es[i] in es'
    {
      var id := ids[i];
      assert id in ids;
      var k :| 0 <= k < |ids'| && ids'[k] == id;
      assert es'[k] == es[i];
    }
  }

  lemma InnerNest(relations: map<Id, Relation>, near: map<Id, nat>, far: map<Id, nat>, ids: seq<Id>, ids': seq<Id>,
                  rs: seq<Relation>, rs': seq<Relation>)
    requires ListsInner(relations, near, ids, rs) && ListsInner(relations, far, ids', rs')
    requires forall b :: b in near ==> b in far
    ensures forall r :: r in rs ==> r in rs'
  {
    hide Ascends;
    forall i | 0 <= i < |rs|
      ensures rs[i] in rs'
    {
      var id := ids[i];
      assert id in ids;
      var k :| 0 <= k < |ids'| && ids'[k] == id;
      assert rs'[k] == rs[i];
    }
  }

  /** Distances depend on the neighbour lists only, which the relations determine. */
  lemma {:induction false} DistanceByLists(relations: map<Id, Relation>, ents: set<Id>, adj: Traversal.Adjacency,
                                           adj': Traversal.Adjacency, seeds: set<Id>, limit: nat, depth: map<Id, nat>)
    requires IsAdjacency(relations, adj) && IsAdjacency(relations, adj')
    requires IsDistance(ents, adj', seeds, limit, depth)
    ensures IsDistance(ents, adj, seeds, limit, depth)
  {
    hide IsAdjacency, Capped;
    forall path, b
      ensures IsWalk(ents, adj, seeds, path, b) <==> IsWalk(ents, adj', seeds, path, b)
    {
      forall i | 0 <= i < |path| - 1
        ensures Steps(ents, adj, path[i], path[i + 1]) <==> Steps(ents, adj', path[i], path[i + 1])
      {
        AdjacencyUnique(relations, adj, adj', path[i]);
      }
    }
  }
}
