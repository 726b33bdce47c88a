/** Breadth-first traversal with depth and fan-out caps. */
module Traversal {
  import opened Ids
  import opened Sums
  import opened Sorting
  import opened Graphs

  const MAX_GRAPH_DEPTH: nat := 2
  const MAX_GRAPH_FANOUT: nat := 64

  /* ---- Adjacency ---- */

  /** What one relation adds to the neighbour list of id; a self-loop adds twice. */
  ghost function Ends(r: Relation, id: Id): multiset<Id> {
    (if r.source == id then multiset{r.target} else multiset{}) + (if r.target == id then multiset{r.source} else multiset{})
  }

  ghost function Neighbours(relations: map<Id, Relation>, keys: set<Id>, id: Id): multiset<Id>
    requires keys <= relations.Keys
  {
    if keys == {} then multiset{}
    else Ends(relations[Pick(keys)], id) + Neighbours(relations, keys - {Pick(keys)}, id)
  }

  lemma {:induction false} NeighboursRemove(relations: map<Id, Relation>, keys: set<Id>, id: Id, x: Id)
    requires keys <= relations.Keys && x in keys
    ensures Neighbours(relations, keys, id) == Ends(relations[x], id) + Neighbours(relations, keys - {x}, id)
    decreases keys
  {
    var y := Pick(keys);
    if y != x {
      NeighboursRemove(relations, keys - {y}, id, x);
      NeighboursRemove(relations, keys - {x}, id, y);
      assert keys - {y} - {x} == keys - {x} - {y};
    }
  }

  type Adjacency = map<Id, seq<Id>>

  function ListAt(adj: Adjacency, id: Id): seq<Id> {
    if id in adj then adj[id] else []
  }

  /** Every list holds the neighbours by the given relations, in both directions. */
  ghost predicate Holds(relations: map<Id, Relation>, keys: set<Id>, adj: Adjacency)
    requires keys <= relations.Keys
  {
    forall id :: multiset(ListAt(adj, id)) == Neighbours(relations, keys, id)
  }

  /** The lists of the traversal: sorted, with repetitions for parallel relations. */
  ghost predicate IsAdjacency(relations: map<Id, Relation>, adj: Adjacency) {
    Holds(relations, relations.Keys, adj) && forall id :: Sorted(ListAt(adj, id))
  }

  /** The adjacency is determined by the relations, whatever order the map yields them in. */
  lemma {:induction false} AdjacencyUnique(relations: map<Id, Relation>, adj: Adjacency, adj': Adjacency, id: Id)
    requires IsAdjacency(relations, adj) && IsAdjacency(relations, adj')
    ensures ListAt(adj, id) == ListAt(adj', id)
  {
    SortedUnique(ListAt(adj, id), ListAt(adj', id));
  }

  lemma {:induction false} HoldsStep(relations: map<Id, Relation>, done: set<Id>, k: Id, adj: Adjacency, next: Adjacency)
    requires done + {k} <= relations.Keys && k !in done && Holds(relations, done, adj)
    requires forall id :: multiset(ListAt(next, id)) == multiset(ListAt(adj, id)) + Ends(relations[k], id)
    ensures Holds(relations, done + {k}, next)
  {
    hide Ends;
    forall id
      ensures multiset(ListAt(next, id)) == Neighbours(relations, done + {k}, id)
    {
      NeighboursRemove(relations, done + {k}, id, k);
      assert done + {k} - {k} == done;
    }
  }

  method AppendAt(adj: Adjacency, id: Id, x: Id) returns (next: Adjacency)
    ensures forall y :: ListAt(next, y) == if y == id then ListAt(adj, y) + [x] else ListAt(adj, y)
  {
    next := adj[id := ListAt(adj, id) + [x]];
  }

  method Link(adj: Adjacency, r: Relation) returns (next: Adjacency)
    ensures forall id :: multiset(ListAt(next, id)) == multiset(ListAt(adj, id)) + Ends(r, id)
  {
    hide ListAt;
    var mid := AppendAt(adj, r.source, r.target);
    next := AppendAt(mid, r.target, r.source);
  }

  method SortLists(adj: Adjacency) returns (sorted: Adjacency)
    ensures forall id :: ListAt(sorted, id) == SortIds(ListAt(adj, id))
  {
    sorted := adj;
    var todo := adj.Keys;
    while todo != {}
      invariant todo <= adj.Keys && sorted.Keys == adj.Keys
      invariant forall id :: id in adj ==> sorted[id] == if id in todo then adj[id] else SortIds(adj[id])
    {
      var id := Next(todo);
      sorted := sorted[id := SortIds(sorted[id])];
      todo := todo - {id};
    }
  }

  method BuildAdjacency(relations: map<Id, Relation>) returns (adj: Adjacency)
    ensures IsAdjacency(relations, adj)
  {
    hide Ends, Holds, Sorted, ListAt;
    var lists: Adjacency := map[];
    var todo := relations.Keys;
    ghost var done: set<Id> := {};
    assert Holds(relations, done, lists) by {
      NoneHeld(relations);
    }
    while todo != {}
      invariant todo !! done && todo + done == relations.Keys
      invariant Holds(relations, done, lists)
    {
      var k := Next(todo);
      ghost var was := lists;
      lists := Link(lists, relations[k]);
      HoldsStep(relations, done, k, was, lists);
      todo, done := todo - {k}, done + {k};
    }
    assert done == relations.Keys;
    adj := SortLists(lists);
    SortedHolds(relations, lists, adj);
  }

  lemma NoneHeld(relations: map<Id, Relation>)
    ensures Holds(relations, {}, map[])
  {
  }

  lemma SortedHolds(relations: map<Id, Relation>, lists: Adjacency, adj: Adjacency)
    requires Holds(relations, relations.Keys, lists) && forall id :: ListAt(adj, id) == SortIds(ListAt(lists, id))
    ensures IsAdjacency(relations, adj)
  {
    hide Neighbours, Sorted, ListAt;
  }

  /* ---- Walks ---- */

  /** The entities a traversal may step to from a: the first 64 sorted neighbours that exist. */
  ghost predicate Steps(ents: set<Id>, adj: Adjacency, a: Id, b: Id) {
    b in ents && b in Capped(ListAt(adj, a))
  }

  function Capped(list: seq<Id>): seq<Id> {
    if |list| > MAX_GRAPH_FANOUT then list[..MAX_GRAPH_FANOUT] else list
  }

  /** A walk along steps from a known seed to b. */
  ghost predicate IsWalk(ents: set<Id>, adj: Adjacency, seeds: set<Id>, path: seq<Id>, b: Id) {
    && path != [] && path[0] in seeds && path[0] in ents && path[|path| - 1] == b
    && forall i :: 0 <= i < |path| - 1 ==> Steps(ents, adj, path[i], path[i + 1])
  }

  /** What at most k steps reach. */
  ghost function Ball(ents: set<Id>, adj: Adjacency, seeds: set<Id>, k: nat): set<Id> {
    if k == 0 then set x | x in ents && x in seeds
    else Ball(ents, adj, seeds, k - 1) + Around(ents, adj, Ball(ents, adj, seeds, k - 1))
  }

  ghost function Around(ents: set<Id>, adj: Adjacency, s: set<Id>): set<Id> {
    set b | b in ents && SteppedTo(ents, adj, s, b)
  }

  ghost predicate SteppedTo(ents: set<Id>, adj: Adjacency, s: set<Id>, b: Id) {
    exists a :: a in s && Steps(ents, adj, a, b)
  }

  lemma {:induction false} BallGrows(ents: set<Id>, adj: Adjacency, seeds: set<Id>, j: nat, k: nat)
    requires j <= k
    ensures Ball(ents, adj, seeds, j) <= Ball(ents, adj, seeds, k)
    decreases k
  {
    if j < k {
      BallGrows(ents, adj, seeds, j, k - 1);
    }
  }

  lemma {:induction false} WalkInBall(ents: set<Id>, adj: Adjacency, seeds: set<Id>, path: seq<Id>, b: Id)
    requires IsWalk(ents, adj, seeds, path, b)
    ensures b in Ball(ents, adj, seeds, |path| - 1)
    decreases |path|
  {
    hide Steps;
    if |path| > 1 {
      var init := path[..|path| - 1];
      var a := path[|path| - 2];
      forall i | 0 <= i < |init| - 1
        ensures Steps(ents, adj, init[i], init[i + 1])
      {
        assert Steps(ents, adj, path[i], path[i + 1]);
      }
      WalkInBall(ents, adj, seeds, init, a);
      assert Steps(ents, adj, path[|path| - 2], path[(|path| - 2) + 1]);
      StepsTo(ents, adj, Ball(ents, adj, seeds, |path| - 2), a, b);
    }
  }

  lemma StepsTo(ents: set<Id>, adj: Adjacency, s: set<Id>, a: Id, b: Id)
    requires a in s && Steps(ents, adj, a, b)
    ensures b in Around(ents, adj, s)
  {
  }

  lemma {:induction false} BallHasWalk(ents: set<Id>, adj: Adjacency, seeds: set<Id>, k: nat, b: Id)
    returns (path: seq<Id>)
    requires b in Ball(ents, adj, seeds, k)
    ensures IsWalk(ents, adj, seeds, path, b) && |path| <= k + 1
  {
    hide Steps;
    if k == 0 {
      path := [b];
    } else if b in Ball(ents, adj, seeds, k - 1) {
      path := BallHasWalk(ents, adj, seeds, k - 1, b);
    } else {
      var a :| a in Ball(ents, adj, seeds, k - 1) && Steps(ents, adj, a, b);
      var init := BallHasWalk(ents, adj, seeds, k - 1, a);
      path := init + [b];
      forall i | 0 <= i < |path| - 1
        ensures Steps(ents, adj, path[i], path[i + 1])
      {
        if i < |init| - 1 {
          assert Steps(ents, adj, init[i], init[i + 1]);
        }
      }
    }
  }

  /** depth gives exactly the entities within limit steps, each with its shortest distance. */
  ghost predicate IsDistance(ents: set<Id>, adj: Adjacency, seeds: set<Id>, limit: nat, depth: map<Id, nat>) {
    && (forall b :: b in depth <==> exists path :: IsWalk(ents, adj, seeds, path, b) && |path| <= limit + 1)
    && (forall b :: b in depth ==> exists path :: IsWalk(ents, adj, seeds, path, b) && |path| == depth[b] + 1)
    && (forall b, path :: b in depth && IsWalk(ents, adj, seeds, path, b) ==> depth[b] + 1 <= |path|)
  }

  /** reached holds the ball of radius k, each entity with the radius at which it appears. */
  ghost predicate Reached(ents: set<Id>, adj: Adjacency, seeds: set<Id>, k: nat, depth: map<Id, nat>) {
    && (forall b :: b in depth <==> b in Ball(ents, adj, seeds, k))
    && (forall b :: b in depth ==> depth[b] <= k && b in Ball(ents, adj, seeds, depth[b]))
    && (forall b, j: nat :: b in depth && b in Ball(ents, adj, seeds, j) ==> depth[b] <= j)
  }

  lemma {:induction false} ReachedIsDistance(ents: set<Id>, adj: Adjacency, seeds: set<Id>, k: nat, depth: map<Id, nat>)
    requires Reached(ents, adj, seeds, k, depth)
    ensures IsDistance(ents, adj, seeds, k, depth)
  {
    hide Ball, IsWalk;
    forall b
      ensures b in depth ==> exists path :: IsWalk(ents, adj, seeds, path, b) && |path| <= k + 1
      ensures b in depth ==> exists path :: IsWalk(ents, adj, seeds, path, b) && |path| == depth[b] + 1
    {
      if b in depth {
        var path := BallHasWalk(ents, adj, seeds, depth[b], b);
        WalkNonEmpty(ents, adj, seeds, path, b);
        WalkInBall(ents, adj, seeds, path, b);
      }
    }
    forall b, path | IsWalk(ents, adj, seeds, path, b)
      ensures |path| <= k + 1 ==> b in depth
      ensures b in depth ==> depth[b] + 1 <= |path|
    {
      WalkNonEmpty(ents, adj, seeds, path, b);
      WalkInBall(ents, adj, seeds, path, b);
      if |path| <= k + 1 {
        BallGrows(ents, adj, seeds, |path| - 1, k);
      }
    }
  }

  lemma WalkNonEmpty(ents: set<Id>, adj: Adjacency, seeds: set<Id>, path: seq<Id>, b: Id)
    requires IsWalk(ents, adj, seeds, path, b)
    ensures |path| >= 1
  {
  }

  /** A larger depth only adds entities and never changes a distance. */
  lemma {:induction false} DeeperExtends(ents: set<Id>, adj: Adjacency, seeds: set<Id>, j: nat, k: nat,
                                         near: map<Id, nat>, far: map<Id, nat>)
    requires j <= k && IsDistance(ents, adj, seeds, j, near) && IsDistance(ents, adj, seeds, k, far)
    ensures forall b :: b in near ==> b in far && far[b] == near[b]
    ensures forall b :: b in far && far[b] <= j ==> b in near
  {
    hide IsWalk;
    forall b | b in near
      ensures b in far && far[b] == near[b]
    {
      var path :| IsWalk(ents, adj, seeds, path, b) && |path| == near[b] + 1;
      var short :| IsWalk(ents, adj, seeds, short, b) && |short| <= j + 1;
      var best :| IsWalk(ents, adj, seeds, best, b) && |best| == far[b] + 1;
    }
  }

  /* ---- The level-by-level search ---- */

  /** frontier lists the entities at distance exactly k. */
  ghost predicate IsFrontier(depth: map<Id, nat>, k: nat, frontier: seq<Id>) {
    forall b :: b in frontier <==> b in depth && depth[b] == k
  }

  /**
    reached while hop h expands the frontier: was, plus what the first i frontier nodes (and
    the partial list) step to.
  */
  ghost predicate Expanding(ents: set<Id>, adj: Adjacency, was: map<Id, nat>, frontier: seq<Id>, hop: nat, i: nat,
                            reached: map<Id, nat>, next: seq<Id>)
    requires i <= |frontier|
  {
    && (forall b :: b in was ==> b in reached && reached[b] == was[b])
    && (forall b :: b in reached && b !in was ==> reached[b] == hop && SteppedFrom(ents, adj, frontier, b))
    && (forall b :: b in next <==> b in reached && b !in was)
    && (forall j, b :: 0 <= j < i && Steps(ents, adj, frontier[j], b) ==> b in reached)
  }

  ghost predicate SteppedFrom(ents: set<Id>, adj: Adjacency, frontier: seq<Id>, b: Id) {
    exists a :: a in frontier && Steps(ents, adj, a, b)
  }

  /** One frontier node: its capped neighbours that exist and are new. */
  method ExpandNode(ents: set<Id>, adj: Adjacency, ghost was: map<Id, nat>, frontier: seq<Id>, hop: nat, i: nat,
                    reached0: map<Id, nat>, next0: seq<Id>) returns (reached: map<Id, nat>, next: seq<Id>)
    requires i < |frontier| && Expanding(ents, adj, was, frontier, hop, i, reached0, next0)
    ensures Expanding(ents, adj, was, frontier, hop, i + 1, reached, next)
  {
    reached, next := reached0, next0;
    var neighbors := Capped(ListAt(adj, frontier[i]));
    assert frontier[i] in frontier;
    for m := 0 to |neighbors|
      invariant Expanding(ents, adj, was, frontier, hop, i, reached, next)
      invariant forall b :: b in ents && b in neighbors[..m] ==> b in reached
    {
      var n := neighbors[m];
      if n !in ents || n in reached {
        continue;
      }
      assert Steps(ents, adj, frontier[i], n) && SteppedFrom(ents, adj, frontier, n);
      reached := reached[n := hop];
      next := next + [n];
    }
    assert neighbors[..|neighbors|] == neighbors;
  }

  /** Expanding the whole frontier of radius hop - 1 yields radius hop. */
  lemma {:induction false} LevelDone(ents: set<Id>, adj: Adjacency, seeds: set<Id>, was: map<Id, nat>,
                                     frontier: seq<Id>, hop: nat, reached: map<Id, nat>, next: seq<Id>)
    requires hop > 0 && Reached(ents, adj, seeds, hop - 1, was) && IsFrontier(was, hop - 1, frontier)
    requires Expanding(ents, adj, was, frontier, hop, |frontier|, reached, next)
    ensures Reached(ents, adj, seeds, hop, reached) && IsFrontier(reached, hop, next)
  {
    hide Steps, Ball, SteppedFrom;
    forall b
      ensures b in reached <==> b in Ball(ents, adj, seeds, hop)
    {
      LevelMembers(ents, adj, seeds, was, frontier, hop, reached, next, b);
    }
    forall b | b in reached
      ensures reached[b] <= hop && b in Ball(ents, adj, seeds, reached[b])
    {
    }
    forall b, j: nat | b in reached && b in Ball(ents, adj, seeds, j)
      ensures reached[b] <= j
    {
      if b !in was && j < hop {
        BallGrows(ents, adj, seeds, j, hop - 1);
      }
    }
  }

  lemma {:induction false} LevelMembers(ents: set<Id>, adj: Adjacency, seeds: set<Id>, was: map<Id, nat>,
                                        frontier: seq<Id>, hop: nat, reached: map<Id, nat>, next: seq<Id>, b: Id)
    requires hop > 0 && Reached(ents, adj, seeds, hop - 1, was) && IsFrontier(was, hop - 1, frontier)
    requires Expanding(ents, adj, was, frontier, hop, |frontier|, reached, next)
    ensures b in reached <==> b in Ball(ents, adj, seeds, hop)
  {
    hide Steps, Ball;
    BallNext(ents, adj, seeds, hop - 1, b);
    if b in reached && b !in was {
      var a :| a in frontier && Steps(ents, adj, a, b);
      StepExists(ents, adj, a, b);
    }
    if b in Ball(ents, adj, seeds, hop) && b !in was {
      var a :| a in Ball(ents, adj, seeds, hop - 1) && Steps(ents, adj, a, b);
      OldStepsStay(ents, adj, seeds, was, hop - 1, a, b);
      assert a in frontier;
      var j :| 0 <= j < |frontier| && frontier[j] == a;
      assert Steps(ents, adj, frontier[j], b);
    }
  }

  lemma StepExists(ents: set<Id>, adj: Adjacency, a: Id, b: Id)
    requires Steps(ents, adj, a, b)
    ensures b in ents
  {
  }

  /** A step from an entity nearer than k stays within radius k. */
  lemma {:induction false} OldStepsStay(ents: set<Id>, adj: Adjacency, seeds: set<Id>, was: map<Id, nat>, k: nat, a: Id,
                                        b: Id)
    requires Reached(ents, adj, seeds, k, was) && a in was && Steps(ents, adj, a, b)
    ensures was[a] < k ==> b in Ball(ents, adj, seeds, k)
  {
    hide Steps;
    StepExists(ents, adj, a, b);
    if was[a] < k {
      StepsTo(ents, adj, Ball(ents, adj, seeds, was[a]), a, b);
      assert b in Ball(ents, adj, seeds, was[a] + 1);
      BallGrows(ents, adj, seeds, was[a] + 1, k);
    }
  }

  /** An empty frontier means the search is complete for every radius. */
  lemma {:induction false} EmptyFrontierStops(ents: set<Id>, adj: Adjacency, seeds: set<Id>, k: nat, n: nat,
                                              depth: map<Id, nat>)
    requires k <= n && Reached(ents, adj, seeds, k, depth) && IsFrontier(depth, k, [])
    ensures Reached(ents, adj, seeds, n, depth)
    decreases n
  {
    hide Steps, Ball;
    if k < n {
      EmptyFrontierStops(ents, adj, seeds, k, n - 1, depth);
      forall b
        ensures b in depth <==> b in Ball(ents, adj, seeds, n)
      {
        BallNext(ents, adj, seeds, n - 1, b);
        if b in Ball(ents, adj, seeds, n) && b !in depth {
          var a :| a in Ball(ents, adj, seeds, n - 1) && Steps(ents, adj, a, b);
          assert a in depth && depth[a] != k;
          OldStepsStay(ents, adj, seeds, depth, k, a, b);
        }
      }
    }
  }

  lemma BallNext(ents: set<Id>, adj: Adjacency, seeds: set<Id>, k: nat, b: Id)
    ensures b in Ball(ents, adj, seeds, k + 1) <==>
      b in Ball(ents, adj, seeds, k) || (b in ents && exists a :: a in Ball(ents, adj, seeds, k) && Steps(ents, adj, a, b))
  {
    hide Steps;
  }

  ghost function SeedSet(seedIDs: seq<Id>): set<Id> {
    set s | s in seedIDs
  }

  /** The seeds that exist, each once. */
  method Seed(ents: set<Id>, ghost adj: Adjacency, seedIDs: seq<Id>) returns (reached: map<Id, nat>, frontier: seq<Id>)
    ensures Reached(ents, adj, SeedSet(seedIDs), 0, reached) && IsFrontier(reached, 0, frontier)
  {
    reached, frontier := map[], [];
    for i := 0 to |seedIDs|
      invariant forall b :: b in reached <==> b in ents && b in seedIDs[..i]
      invariant forall b :: b in reached ==> reached[b] == 0
      invariant forall b :: b in frontier <==> b in reached
    {
      var id := seedIDs[i];
      if id in ents && id !in reached {
        reached := reached[id := 0];
        frontier := frontier + [id];
      }
    }
    assert seedIDs[..|seedIDs|] == seedIDs;
  }

  /** The search: every entity within limit steps of a known seed, with its distance. */
  method Search(ents: set<Id>, adj: Adjacency, seedIDs: seq<Id>, limit: nat) returns (reached: map<Id, nat>)
    ensures IsDistance(ents, adj, SeedSet(seedIDs), limit, reached)
  {
    hide Reached, IsFrontier, Expanding, IsDistance;
    ghost var seeds := SeedSet(seedIDs);
    var frontier;
    reached, frontier := Seed(ents, adj, seedIDs);
    frontier := SortFrontier(frontier, reached, 0);
    var hop := 1;
    while hop <= limit && |frontier| > 0
      invariant 1 <= hop <= limit + 1
      invariant Reached(ents, adj, seeds, hop - 1, reached) && IsFrontier(reached, hop - 1, frontier)
    {
      ghost var was := reached;
      var next: seq<Id> := [];
      NothingExpanded(ents, adj, was, frontier, hop);
      for i := 0 to |frontier|
        invariant Expanding(ents, adj, was, frontier, hop, i, reached, next)
      {
        reached, next := ExpandNode(ents, adj, was, frontier, hop, i, reached, next);
      }
      LevelDone(ents, adj, seeds, was, frontier, hop, reached, next);
      frontier := SortFrontier(next, reached, hop);
      hop := hop + 1;
    }
    if hop <= limit {
      assert frontier == [];
      EmptyFrontierStops(ents, adj, seeds, hop - 1, limit, reached);
    }
    ReachedIsDistance(ents, adj, seeds, limit, reached);
  }

  lemma NothingExpanded(ents: set<Id>, adj: Adjacency, was: map<Id, nat>, frontier: seq<Id>, hop: nat)
    ensures Expanding(ents, adj, was, frontier, hop, 0, was, [])
  {
  }

  /** Sorting the frontier keeps its members. */
  method SortFrontier(frontier: seq<Id>, ghost depth: map<Id, nat>, ghost k: nat) returns (sorted: seq<Id>)
    requires IsFrontier(depth, k, frontier)
    ensures IsFrontier(depth, k, sorted)
  {
    sorted := SortIds(frontier);
    SortMembers(frontier);
  }
}
