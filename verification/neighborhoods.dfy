/** The neighbourhood in terms of the stored relations alone. */
module Neighborhoods {
  import opened Ids
  import opened Sums
  import opened Sorting
  import opened Graphs
  import opened Traversal
  import opened Upserts
  import opened GraphStore

  /** A relation joins a and b, in either direction. */
  ghost predicate Adjoins(r: Relation, a: Id, b: Id) {
    (r.source == a && r.target == b) || (r.source == b && r.target == a)
  }

  ghost predicate Adjacent(relations: map<Id, Relation>, a: Id, b: Id) {
    exists k :: k in relations && Adjoins(relations[k], a, b)
  }

  ghost predicate AdjacentBy(relations: map<Id, Relation>, keys: set<Id>, a: Id, b: Id)
    requires keys <= relations.Keys
  {
    exists k :: k in keys && Adjoins(relations[k], a, b)
  }

  lemma EndsMeans(r: Relation, a: Id, b: Id)
    ensures b in Ends(r, a) <==> Adjoins(r, a, b)
    ensures |Ends(r, a)| == (if r.source == a then 1 else 0) + (if r.target == a then 1 else 0)
  {
  }

  lemma {:induction false} NeighboursMeans(relations: map<Id, Relation>, keys: set<Id>, a: Id, b: Id)
    requires keys <= relations.Keys
    ensures b in Neighbours(relations, keys, a) <==> AdjacentBy(relations, keys, a, b)
    decreases keys
  {
    hide Ends, Adjoins;
    if keys == {} {
    } else {
      var k := Pick(keys);
      NeighboursMeans(relations, keys - {k}, a, b);
      EndsMeans(relations[k], a, b);
      if AdjacentBy(relations, keys, a, b) {
        var j :| j in keys && Adjoins(relations[j], a, b);
        assert j == k || j in keys - {k};
      }
    }
  }

  /** The relations that start at a, and those that end there. */
  ghost function Starting(relations: map<Id, Relation>, keys: set<Id>, a: Id): set<Id>
    requires keys <= relations.Keys
  {
    set k | k in keys && relations[k].source == a
  }

  ghost function Ending(relations: map<Id, Relation>, keys: set<Id>, a: Id): set<Id>
    requires keys <= relations.Keys
  {
    set k | k in keys && relations[k].target == a
  }

  lemma {:induction false} NeighboursCount(relations: map<Id, Relation>, keys: set<Id>, a: Id)
    requires keys <= relations.Keys
    ensures |Neighbours(relations, keys, a)| == |Starting(relations, keys, a)| + |Ending(relations, keys, a)|
    decreases keys
  {
    hide Ends;
    if keys == {} {
    } else {
      var k := Pick(keys);
      var rest := keys - {k};
      NeighboursCount(relations, rest, a);
      EndsMeans(relations[k], a, a);
      CountOne(Starting(relations, keys, a), Starting(relations, rest, a), k);
      CountOne(Ending(relations, keys, a), Ending(relations, rest, a), k);
    }
  }

  lemma CountOne(all: set<Id>, rest: set<Id>, k: Id)
    requires k !in rest && forall x :: x in all <==> x in rest || (x == k && k in all)
    ensures |all| == |rest| + if k in all then 1 else 0
  {
    forall x
      ensures x in all <==> x in rest || (x == k && k in all)
    {
    }
    if k in all {
      SameSet(all, rest + {k});
    } else {
      SameSet(all, rest);
    }
  }

  /** In general the traversal steps to the first 64 of the sorted neighbours that exist. */
  lemma StepsToFirst64(ents: set<Id>, adj: Traversal.Adjacency, a: Id, b: Id)
    ensures Steps(ents, adj, a, b) <==>
      b in ents && exists i :: 0 <= i < 64 && i < |Traversal.ListAt(adj, a)| && Traversal.ListAt(adj, a)[i] == b
  {
    var list := Traversal.ListAt(adj, a);
    if i :| 0 <= i < 64 && i < |list| && list[i] == b {
      assert Capped(list)[i] == b;
    }
    if b in Capped(list) {
      var i :| 0 <= i < |Capped(list)| && Capped(list)[i] == b;
      assert list[i] == b;
    }
  }

  /** No entity has more than 64 ends of relations. */
  ghost predicate Sparse(relations: map<Id, Relation>) {
    forall a :: |Starting(relations, relations.Keys, a)| + |Ending(relations, relations.Keys, a)| <= 64
  }

  /** Then the traversal steps along every stored relation, in either direction. */
  lemma StepsMeans(ents: set<Id>, relations: map<Id, Relation>, adj: Traversal.Adjacency, a: Id, b: Id)
    requires IsAdjacency(relations, adj) && Sparse(relations)
    ensures Steps(ents, adj, a, b) <==> b in ents && Adjacent(relations, a, b)
  {
    hide Neighbours, Starting, Ending, Sorted, Adjoins;
    var list := Traversal.ListAt(adj, a);
    NeighboursMeans(relations, relations.Keys, a, b);
    NeighboursCount(relations, relations.Keys, a);
    assert |multiset(list)| == |list|;
    assert multiset(list) == Neighbours(relations, relations.Keys, a);
    assert |list| <= 64;
    assert b in list <==> b in multiset(list);
  }

  /** A walk along stored relations, through known entities, from a known seed to b. */
  ghost predicate IsTrail(g: NsGraph, seedIDs: seq<Id>, path: seq<Id>, b: Id) {
    && path != [] && path[0] in seedIDs && path[|path| - 1] == b
    && (forall i :: 0 <= i < |path| ==> path[i] in g.entities)
    && forall i :: 0 <= i < |path| - 1 ==> Adjacent(g.relations, path[i], path[i + 1])
  }

  lemma TrailIsWalk(g: NsGraph, adj: Traversal.Adjacency, seedIDs: seq<Id>, path: seq<Id>, b: Id)
    requires IsAdjacency(g.relations, adj) && Sparse(g.relations)
    ensures IsTrail(g, seedIDs, path, b) <==> IsWalk(g.entities.Keys, adj, SeedSet(seedIDs), path, b)
  {
    hide IsAdjacency, Steps, Adjacent, Sparse;
    forall i | 0 <= i < |path| - 1
      ensures Steps(g.entities.Keys, adj, path[i], path[i + 1]) <==>
        path[i + 1] in g.entities && Adjacent(g.relations, path[i], path[i + 1])
    {
      StepsMeans(g.entities.Keys, g.relations, adj, path[i], path[i + 1]);
    }
    if IsWalk(g.entities.Keys, adj, SeedSet(seedIDs), path, b) {
      forall i | 0 <= i < |path|
        ensures path[i] in g.entities
      {
        if i > 0 {
          assert Steps(g.entities.Keys, adj, path[i - 1], path[(i - 1) + 1]);
        }
      }
    }
  }

  /**
    Where no entity has more than 64 ends of relations the neighbourhood holds exactly the
    entities within limit relations of a known seed, each with its distance, and exactly the
    relations among them.
  */
  lemma {:induction false} NeighborhoodMeans(g: NsGraph, seedIDs: seq<Id>, limit: nat, sub: Subgraph)
    requires IsNeighborhood(g, seedIDs, limit, sub) && Sparse(g.relations)
    ensures forall b :: b in sub.depth <==> exists path :: IsTrail(g, seedIDs, path, b) && |path| <= limit + 1
    ensures forall b :: b in sub.depth ==> exists path :: IsTrail(g, seedIDs, path, b) && |path| == sub.depth[b] + 1
    ensures forall b, path :: b in sub.depth && IsTrail(g, seedIDs, path, b) ==> sub.depth[b] + 1 <= |path|
    ensures forall e :: e in sub.entities <==> exists b :: b in sub.depth && b in g.entities && e == g.entities[b]
    ensures forall r :: r in sub.relations <==>
      exists k :: k in g.relations && r == g.relations[k] && r.source in sub.depth && r.target in sub.depth
  {
    hide IsAdjacency, IsTrail, IsWalk, Sparse;
    var adj :| IsAdjacency(g.relations, adj) && IsDistance(g.entities.Keys, adj, SeedSet(seedIDs), limit, sub.depth);
    forall path, b
      ensures IsTrail(g, seedIDs, path, b) <==> IsWalk(g.entities.Keys, adj, SeedSet(seedIDs), path, b)
    {
      TrailIsWalk(g, adj, seedIDs, path, b);
    }
    Listed(g, sub);
  }

  lemma Listed(g: NsGraph, sub: Subgraph)
    requires exists ids :: ListsReached(g.entities, sub.depth, ids, sub.entities)
    requires exists ids :: ListsInner(g.relations, sub.depth, ids, sub.relations)
    ensures forall e :: e in sub.entities <==> exists b :: b in sub.depth && b in g.entities && e == g.entities[b]
    ensures forall r :: r in sub.relations <==>
      exists k :: k in g.relations && r == g.relations[k] && r.source in sub.depth && r.target in sub.depth
  {
    hide ListsReached, ListsInner;
    var ids :| ListsReached(g.entities, sub.depth, ids, sub.entities);
    var rids :| ListsInner(g.relations, sub.depth, rids, sub.relations);
    forall e
      ensures e in sub.entities <==> exists b :: b in sub.depth && b in g.entities && e == g.entities[b]
    {
      EntityListed(g.entities, sub.depth, ids, sub.entities, e);
    }
    forall r
      ensures r in sub.relations <==>
        exists k :: k in g.relations && r == g.relations[k] && r.source in sub.depth && r.target in sub.depth
    {
      RelationListed(g.relations, sub.depth, rids, sub.relations, r);
    }
  }

  lemma EntityListed(entities: map<Id, Entity>, depth: map<Id, nat>, ids: seq<Id>, es: seq<Entity>, e: Entity)
    requires ListsReached(entities, depth, ids, es)
    ensures e in es <==> exists b :: b in depth && b in entities && e == entities[b]
  {
    hide Ascends;
    if b :| b in depth && b in entities && e == entities[b] {
      assert b in ids;
      var i :| 0 <= i < |ids| && ids[i] == b;
      assert es[i] == e;
    }
    if e in es {
      var i :| 0 <= i < |es| && es[i] == e;
      var b := ids[i];
      assert b in ids;
    }
  }

  lemma RelationListed(relations: map<Id, Relation>, depth: map<Id, nat>, ids: seq<Id>, rs: seq<Relation>, r: Relation)
    requires ListsInner(relations, depth, ids, rs)
    ensures r in rs <==> exists k :: k in relations && r == relations[k] && r.source in depth && r.target in depth
  {
    hide Ascends;
    if k :| k in relations && r == relations[k] && r.source in depth && r.target in depth {
      assert k in ids;
      var i :| 0 <= i < |ids| && ids[i] == k;
      assert rs[i] == r;
    }
    if r in rs {
      var i :| 0 <= i < |rs| && rs[i] == r;
      var k := ids[i];
      assert k in ids;
    }
  }
}
