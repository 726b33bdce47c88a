/**
  Same graph, same communities: what the two detectors return does not depend on the order
  in which entities and relations are listed, nor on that of any map they iterate over.
*/
module SameCommunities {
  import Orders
  import LabelPropagation
  import Sums
  import Sweeps
  import opened Ids
  import opened Sorting
  import opened Modularity
  import opened Coarsening
  import opened Graphs
  import opened LouvainPass
  import opened LouvainPassProperties
  import opened LouvainCoarsen
  import opened Communities
  import opened LouvainDetect

  /* ---- Rearranged relations ---- */

  lemma {:induction false} JoinedWithout(known: set<Id>, rs: seq<Relation>, n: nat, k: nat, i: Id, j: Id)
    requires k < n <= |rs|
    ensures n - 1 <= |rs[..k] + rs[k + 1..]|
    ensures JoinedWeight(known, rs, n, i, j) == JoinedWeight(known, rs[..k] + rs[k + 1..], n - 1, i, j)
      + if Joins(known, rs[k], i, j) then EdgeWeight(rs[k]) else 0.0
    decreases n
  {
    var rest := rs[..k] + rs[k + 1..];
    if k == n - 1 {
      JoinedPrefix(known, rs, rest, n - 1, i, j);
    } else {
      JoinedWithout(known, rs, n - 1, k, i, j);
      assert rest[n - 2] == rs[n - 1];
    }
  }

  lemma {:induction false} JoinedPrefix(known: set<Id>, rs: seq<Relation>, qs: seq<Relation>, n: nat, i: Id, j: Id)
    requires n <= |rs| && n <= |qs| && forall k :: 0 <= k < n ==> rs[k] == qs[k]
    ensures JoinedWeight(known, rs, n, i, j) == JoinedWeight(known, qs, n, i, j)
  {
    if n == 0 {
    } else {
      JoinedPrefix(known, rs, qs, n - 1, i, j);
    }
  }

  lemma {:induction false} JoinedPermuted(known: set<Id>, rs: seq<Relation>, qs: seq<Relation>, i: Id, j: Id)
    requires multiset(rs) == multiset(qs)
    ensures JoinedWeight(known, rs, |rs|, i, j) == JoinedWeight(known, qs, |qs|, i, j)
    decreases |rs|
  {
    hide Joins, EdgeWeight;
    assert |multiset(rs)| == |rs| && |multiset(qs)| == |qs|;
    if rs == [] {
    } else {
      var last := |rs| - 1;
      var k := Orders.FoundAgain(rs, qs, last);
      Orders.WithoutOne(rs, last);
      Orders.WithoutOne(qs, k);
      JoinedPermuted(known, rs[..last] + rs[last + 1..], qs[..k] + qs[k + 1..], i, j);
      JoinedWithout(known, rs, |rs|, last, i, j);
      JoinedWithout(known, qs, |qs|, k, i, j);
    }
  }

  lemma {:induction false} InsideConcat(a: seq<Relation>, b: seq<Relation>, labels: Labels, l: Id)
    ensures Inside(a + b, labels, l) == Inside(a, labels, l) + Inside(b, labels, l)
    decreases |b|
  {
    if b == [] {
      assert a + b == a;
    } else {
      var init, last := b[..|b| - 1], b[|b| - 1];
      InsideConcat(a, init, labels, l);
      assert (a + b)[..|a + b| - 1] == a + init;
    }
  }

  lemma InsideWithout(rs: seq<Relation>, k: nat, labels: Labels, l: Id)
    requires k < |rs|
    ensures multiset(Inside(rs, labels, l))
         == multiset(Inside(rs[..k] + rs[k + 1..], labels, l)) + multiset(Inside([rs[k]], labels, l))
  {
    hide Inside;
    var front, back := rs[..k], rs[k + 1..];
    InsideConcat(front, back, labels, l);
    InsideConcat(front, [rs[k]], labels, l);
    InsideConcat(front + [rs[k]], back, labels, l);
    assert rs == front + [rs[k]] + back;
  }

  lemma InsideStepsTogether(rs: seq<Relation>, i: nat, qs: seq<Relation>, k: nat, labels: Labels, l: Id)
    requires i < |rs| && k < |qs| && rs[i] == qs[k]
    requires multiset(Inside(rs[..i] + rs[i + 1..], labels, l)) == multiset(Inside(qs[..k] + qs[k + 1..], labels, l))
    ensures multiset(Inside(rs, labels, l)) == multiset(Inside(qs, labels, l))
  {
    hide Inside;
    InsideWithout(rs, i, labels, l);
    InsideWithout(qs, k, labels, l);
  }

  lemma {:induction false} InsidePermuted(rs: seq<Relation>, qs: seq<Relation>, labels: Labels, l: Id)
    requires multiset(rs) == multiset(qs)
    ensures multiset(Inside(rs, labels, l)) == multiset(Inside(qs, labels, l))
    decreases |rs|
  {
    hide Inside;
    SameCount(rs, qs);
    if rs == [] {
      assert rs == qs;
    } else {
      var last := |rs| - 1;
      var k := Orders.FoundAgain(rs, qs, last);
      Orders.WithoutOne(rs, last);
      Orders.WithoutOne(qs, k);
      InsidePermuted(rs[..last] + rs[last + 1..], qs[..k] + qs[k + 1..], labels, l);
      InsideStepsTogether(rs, last, qs, k, labels, l);
    }
  }

  lemma SameCount<T>(xs: seq<T>, ys: seq<T>)
    requires multiset(xs) == multiset(ys)
    ensures |xs| == |ys|
  {
    assert |multiset(xs)| == |multiset(ys)|;
  }

  /** Two listings of one graph: the same entity IDs and the same relations. */
  ghost predicate SameGraph(g: Graph, h: Graph) {
    multiset(EntityIds(g)) == multiset(EntityIds(h)) && multiset(g.relations) == multiset(h.relations)
  }

  lemma SameEntities(g: Graph, h: Graph)
    requires SameGraph(g, h)
    ensures EntitySet(g) == EntitySet(h) && |g.entities| == |h.entities|
    ensures SortIds(EntityIds(g)) == SortIds(EntityIds(h))
  {
    Orders.Rearranged(EntityIds(g), EntityIds(h));
    SortedUnique(SortIds(EntityIds(g)), SortIds(EntityIds(h)));
    assert |multiset(EntityIds(g))| == |multiset(EntityIds(h))|;
  }

  /** adj is what buildAdjacency returns for g. */
  ghost predicate IsAdjacency(g: Graph, adj: Adjacency) {
    && IsGraph(EntitySet(g), adj) && Sparse(adj)
    && forall i, j :: Weight(adj, i, j) == JoinedWeight(EntitySet(g), g.relations, |g.relations|, i, j)
  }

  lemma SameAdjacency(g: Graph, h: Graph, adj: Adjacency, adj': Adjacency)
    requires SameGraph(g, h) && IsAdjacency(g, adj) && IsAdjacency(h, adj')
    ensures adj == adj'
  {
    hide JoinedWeight, Sparse;
    SameEntities(g, h);
    forall i, j
      ensures Weight(adj, i, j) == Weight(adj', i, j)
    {
      JoinedPermuted(EntitySet(g), g.relations, h.relations, i, j);
    }
    SparseUnique(adj, adj');
  }

  /* ---- One labelling, one level ---- */

  lemma {:induction false} AscendingUnique(xs: seq<Id>, ys: seq<Id>)
    requires Ascending(xs) && Ascending(ys) && forall x :: x in xs <==> x in ys
    ensures xs == ys
  {
    AscendingDistinct(xs);
    AscendingDistinct(ys);
    forall x
      ensures x in xs <==> x in ys
    {
    }
    Orders.SameMembersRearranged(xs, ys);
    SortedUnique(xs, ys);
  }

  /** Equal but for the parents, which come later. */
  ghost predicate SameCommunity(c: Community, d: Community) {
    d == c.(parent := d.parent)
  }

  /** Two communities of one labelling that share a member are one. */
  lemma ClassUnique(c: Community, d: Community, labels: Labels, level: nat, rs: seq<Relation>, qs: seq<Relation>, x: Id)
    requires IsCommunity(c, labels, level, rs) && IsCommunity(d, labels, level, qs) && multiset(rs) == multiset(qs)
    requires x in c.entityIds && x in d.entityIds
    ensures SameCommunity(c, d)
  {
    hide Inside, Ascending;
    AscendingUnique(c.entityIds, d.entityIds);
    var l := At(labels, c.entityIds[0]);
    InsidePermuted(rs, qs, labels, l);
    SortedUnique(SortIds(Inside(rs, labels, l)), SortIds(Inside(qs, labels, l)));
  }

  ghost predicate SameLevel(a: seq<Community>, b: seq<Community>) {
    |a| == |b| && forall i :: 0 <= i < |a| ==> SameCommunity(a[i], b[i])
  }

  lemma LowestsKept(a: seq<Community>, b: seq<Community>, labels: Labels, level: nat, rs: seq<Relation>,
                    qs: seq<Relation>, x: Id)
    requires IsLevel(a, labels, level, rs) && IsLevel(b, labels, level, qs) && multiset(rs) == multiset(qs)
    requires x in Lowests(a)
    ensures x in Lowests(b)
  {
    hide IsCommunity;
    var i :| 0 <= i < |a| && Lowests(a)[i] == x;
    assert IsCommunity(a[i], labels, level, rs);
    LowestMember(a[i], labels, level, rs);
    var j :| 0 <= j < |b| && x in b[j].entityIds;
    ClassUnique(a[i], b[j], labels, level, rs, qs, x);
    assert Lowests(b)[j] == x;
  }

  lemma LowestMember(c: Community, labels: Labels, level: nat, relations: seq<Relation>)
    requires IsCommunity(c, labels, level, relations)
    ensures c.id.lowest in c.entityIds && c.id.lowest in labels
  {
    assert c.entityIds[0] in c.entityIds;
  }

  lemma {:induction false} LevelUnique(a: seq<Community>, b: seq<Community>, labels: Labels, level: nat,
                                       rs: seq<Relation>, qs: seq<Relation>)
    requires IsLevel(a, labels, level, rs) && IsLevel(b, labels, level, qs) && multiset(rs) == multiset(qs)
    ensures SameLevel(a, b)
  {
    hide IsCommunity;
    forall x
      ensures x in Lowests(a) <==> x in Lowests(b)
    {
      if x in Lowests(a) {
        LowestsKept(a, b, labels, level, rs, qs, x);
      }
      if x in Lowests(b) {
        LowestsKept(b, a, labels, level, qs, rs, x);
      }
    }
    AscendingUnique(Lowests(a), Lowests(b));
    forall i | 0 <= i < |a|
      ensures SameCommunity(a[i], b[i])
    {
      assert Lowests(a)[i] == Lowests(b)[i];
      LowestMember(a[i], labels, level, rs);
      LowestMember(b[i], labels, level, qs);
      ClassUnique(a[i], b[i], labels, level, rs, qs, a[i].id.lowest);
    }
  }

  /* ---- One trace ---- */

  /** A pass depends on the IDs of the nodes and on the adjacency only. */
  lemma SamePass(a: Work, b: Work, resolution: real)
    requires Orders.Distinct(IdsOf(a.0)) && Orders.Distinct(IdsOf(b.0)) && NodeIds(a.0) == NodeIds(b.0) && a.1 == b.1
    ensures PassOf(a, resolution) == PassOf(b, resolution)
  {
    hide Sweeps.Rounds, Canonical, TotalWeight;
    forall x
      ensures x in IdsOf(a.0) <==> x in IdsOf(b.0)
    {
      assert x in NodeIds(a.0) <==> x in NodeIds(b.0);
    }
    Orders.SameMembersRearranged(IdsOf(a.0), IdsOf(b.0));
    SortedUnique(SortIds(IdsOf(a.0)), SortIds(IdsOf(b.0)));
  }

  lemma SameNodes(a: seq<Node>, b: seq<Node>, ents: set<Id>, owner: Labels)
    requires Represents(a, ents, owner) && Represents(b, ents, owner)
    ensures NodeIds(a) == NodeIds(b) && Orders.Distinct(IdsOf(a)) && Orders.Distinct(IdsOf(b))
  {
    hide IsCanonical, Ascending, Holds;
    forall x
      ensures x in NodeIds(a) <==> x in NodeIds(b)
    {
    }
    Sums.SameSet(NodeIds(a), NodeIds(b));
  }

  lemma SameCoarse(fine: Work, fine': Work, coarse: Work, coarse': Work, resolution: real)
    requires CoarseStep(fine, coarse, resolution) && CoarseStep(fine', coarse', resolution)
    requires NodeIds(fine.0) == NodeIds(fine'.0) && fine.1 == fine'.1
    requires PassOf(fine, resolution) == PassOf(fine', resolution)
    requires NodeIds(coarse.0) == NodeIds(coarse'.0) && Sparse(coarse.1) && Sparse(coarse'.1)
    ensures coarse.1 == coarse'.1
  {
    hide Block, PassOf, Sparse, Maps, NodeIds;
    SparseUnique(coarse.1, coarse'.1);
  }

  lemma TracedParts(works: seq<Work>, labels: seq<Labels>, ents: set<Id>, adj0: Adjacency, resolution: real, k: nat)
    requires Traced(works, labels, ents, adj0, resolution) && k < |works|
    ensures |works| == |labels| && Represents(works[k].0, ents, Previous(ents, labels, k)) && Sparse(works[k].1)
    ensures labels[k] == Compose(PassOf(works[k], resolution), Previous(ents, labels, k))
    ensures if k == 0 then works[k].1 == adj0 else CoarseStep(works[k - 1], works[k], resolution)
  {
    hide Represents, Previous, PassOf, CoarseStep, Sparse, Compose, Faithful, IsWorkingGraph;
    assert TracedAt(works, labels, ents, adj0, resolution, k);
  }

  /** The passes over one graph give the same labels, level by level. */
  lemma {:induction false} SameTrace(works: seq<Work>, labels: seq<Labels>, works': seq<Work>, labels': seq<Labels>,
                                     ents: set<Id>, adj0: Adjacency, resolution: real, k: nat)
    requires Traced(works, labels, ents, adj0, resolution) && Traced(works', labels', ents, adj0, resolution)
    requires k < |works| && k < |works'|
    ensures |works| == |labels| && |works'| == |labels'| && labels[k] == labels'[k]
    ensures works[k].1 == works'[k].1 && NodeIds(works[k].0) == NodeIds(works'[k].0)
    ensures PassOf(works[k], resolution) == PassOf(works'[k], resolution)
  {
    hide Traced, Represents, PassOf, CoarseStep, Sparse, Compose, Identity, NodeIds, IdsOf, Orders.Distinct;
    TracedParts(works, labels, ents, adj0, resolution, k);
    TracedParts(works', labels', ents, adj0, resolution, k);
    if k == 0 {
      SameNodes(works[k].0, works'[k].0, ents, Identity(ents));
    } else {
      SameTrace(works, labels, works', labels', ents, adj0, resolution, k - 1);
      SameNodes(works[k].0, works'[k].0, ents, labels[k - 1]);
      SameCoarse(works[k - 1], works'[k - 1], works[k], works'[k], resolution);
    }
    SamePass(works[k], works'[k], resolution);
  }

  /* ---- One hierarchy ---- */

  lemma LevelParts(g: Graph, adj0: Adjacency, resolution: real, levels: seq<seq<Community>>, labels: seq<Labels>,
                   works: seq<Work>, k: nat)
    requires IsHierarchy(g, adj0, resolution, levels, labels, works) && k < |levels|
    ensures |levels| == |labels| == |works| && IsCanonical(EntitySet(g), labels[k])
    ensures IsLevel(levels[k], labels[k], k, g.relations)
    ensures |levels[k]| == |Fixpoints(EntitySet(g), labels[k])|
  {
    hide IsCanonical, IsLevel, Fixpoints, Coarser, Rising, ParentsWired, Shrinking, Ended, TracedAt;
    LevelCount(levels[k], EntitySet(g), labels[k], k, g.relations);
  }

  /** The levels of two hierarchies of one graph are the same but for the parents. */
  lemma {:induction false} SameLevelAt(g: Graph, h: Graph, adj0: Adjacency, resolution: real,
      levels: seq<seq<Community>>, labels: seq<Labels>, works: seq<Work>,
      levels': seq<seq<Community>>, labels': seq<Labels>, works': seq<Work>, k: nat)
    requires SameGraph(g, h) && k < |levels| && k < |levels'|
    requires IsHierarchy(g, adj0, resolution, levels, labels, works)
    requires IsHierarchy(h, adj0, resolution, levels', labels', works')
    ensures SameLevel(levels[k], levels'[k])
  {
    SameEntities(g, h);
    LevelParts(g, adj0, resolution, levels, labels, works, k);
    LevelParts(h, adj0, resolution, levels', labels', works', k);
    HierarchyTrace(g, adj0, resolution, levels, labels, works);
    HierarchyTrace(h, adj0, resolution, levels', labels', works');
    hide IsHierarchy, IsCanonical, IsLevel, Traced, EntitySet;
    SameTrace(works, labels, works', labels', EntitySet(g), adj0, resolution, k);
    LevelUnique(levels[k], levels'[k], labels[k], k, g.relations, h.relations);
  }

  lemma HierarchyTrace(g: Graph, adj0: Adjacency, resolution: real, levels: seq<seq<Community>>, labels: seq<Labels>,
                       works: seq<Work>)
    requires IsHierarchy(g, adj0, resolution, levels, labels, works)
    ensures Traced(works, labels, EntitySet(g), adj0, resolution) && |works| == |labels| == |levels|
    ensures 1 <= |levels| <= LOUVAIN_MAX_LEVELS && Shrinking(levels, |g.entities|, |levels| - 1)
    ensures Ended(levels, |g.entities|)
    ensures ParentsWired(levels)
  {
    hide IsCanonical, IsLevel, Coarser, Rising, ParentsWired, Shrinking, Ended, TracedAt;
  }

  /** A loop that stops because a pass merged nothing stops every loop with the same counts. */
  lemma StopsTogether(levels: seq<seq<Community>>, levels': seq<seq<Community>>, n: nat)
    requires |levels'| <= LOUVAIN_MAX_LEVELS && Ended(levels, n) && levels' != []
    requires Shrinking(levels', n, |levels'| - 1)
    requires forall k :: 0 <= k < |levels| && k < |levels'| ==> |levels[k]| == |levels'[k]|
    ensures |levels'| <= |levels|
  {
    var last := |levels| - 1;
    assert last < |levels'| ==> Before(levels, n, last) == Before(levels', n, last);
    assert last < |levels'| - 1 ==> Fewer(levels', n, last);
  }

  /** A hierarchy does not end before another one of the same graph. */
  lemma SameDepth(g: Graph, h: Graph, adj0: Adjacency, resolution: real,
      levels: seq<seq<Community>>, labels: seq<Labels>, works: seq<Work>,
      levels': seq<seq<Community>>, labels': seq<Labels>, works': seq<Work>)
    requires SameGraph(g, h)
    requires IsHierarchy(g, adj0, resolution, levels, labels, works)
    requires IsHierarchy(h, adj0, resolution, levels', labels', works')
    ensures |levels'| <= |levels|
  {
    hide IsHierarchy, Traced, ParentsWired, SameGraph, EntitySet, Shrinking, Ended, SameCommunity;
    SameEntities(g, h);
    HierarchyTrace(g, adj0, resolution, levels, labels, works);
    HierarchyTrace(h, adj0, resolution, levels', labels', works');
    forall k | 0 <= k < |levels| && k < |levels'|
      ensures |levels[k]| == |levels'[k]|
    {
      SameLevelAt(g, h, adj0, resolution, levels, labels, works, levels', labels', works', k);
    }
    StopsTogether(levels, levels', |g.entities|);
  }

  /** The parents follow from the level above. */
  lemma SameParent(c: Community, d: Community, above: seq<Community>, above': seq<Community>)
    requires SameCommunity(c, d) && SameLevel(above, above') && c.entityIds != []
    requires IsChildOf(c, above) && IsChildOf(d, above')
    ensures c == d
  {
    var i: nat :| ParentIs(c, above, i);
    var j: nat :| ParentIs(d, above', j);
    var e := c.entityIds[0];
    assert e in c.entityIds;
    assert SameCommunity(above[j], above'[j]);
    assert e in above[j].entityIds;
    assert i == j;
  }

  /** Two hierarchies of one graph are equal, however its entities and relations are listed. */
  lemma {:induction false} SameHierarchy(g: Graph, h: Graph, adj: Adjacency, adj': Adjacency, resolution: real,
      levels: seq<seq<Community>>, labels: seq<Labels>, works: seq<Work>,
      levels': seq<seq<Community>>, labels': seq<Labels>, works': seq<Work>)
    requires SameGraph(g, h) && IsAdjacency(g, adj) && IsAdjacency(h, adj')
    requires IsHierarchy(g, adj, resolution, levels, labels, works)
    requires IsHierarchy(h, adj', resolution, levels', labels', works')
    ensures levels == levels'
  {
    hide IsHierarchy, Traced, ParentsWired, Shrinking, Ended, SameGraph, IsAdjacency, SameLevel, IsLevel, IsCanonical;
    hide EntitySet;
    SameAdjacency(g, h, adj, adj');
    SameGraphBack(g, h);
    SameDepth(g, h, adj, resolution, levels, labels, works, levels', labels', works');
    SameDepth(h, g, adj, resolution, levels', labels', works', levels, labels, works);
    HierarchyTrace(g, adj, resolution, levels, labels, works);
    HierarchyTrace(h, adj, resolution, levels', labels', works');
    forall k | 0 <= k < |levels|
      ensures levels[k] == levels'[k]
    {
      SameLevelAt(g, h, adj, resolution, levels, labels, works, levels', labels', works', k);
      if k + 1 < |levels| {
        SameLevelAt(g, h, adj, resolution, levels, labels, works, levels', labels', works', k + 1);
      }
      LevelParts(g, adj, resolution, levels, labels, works, k);
      WiredAlike(levels, levels', k, labels[k], g.relations);
    }
  }

  lemma SameGraphBack(g: Graph, h: Graph)
    requires SameGraph(g, h)
    ensures SameGraph(h, g)
  {
  }

  lemma WiredAlike(levels: seq<seq<Community>>, levels': seq<seq<Community>>, k: nat, labels: Labels,
                   relations: seq<Relation>)
    requires |levels| == |levels'| && k < |levels| && ParentsWired(levels) && ParentsWired(levels')
    requires SameLevel(levels[k], levels'[k]) && (k + 1 < |levels| ==> SameLevel(levels[k + 1], levels'[k + 1]))
    requires IsLevel(levels[k], labels, k, relations)
    ensures levels[k] == levels'[k]
  {
    hide IsChildOf;
    forall i | 0 <= i < |levels[k]|
      ensures levels[k][i] == levels'[k][i]
    {
      assert SameCommunity(levels[k][i], levels'[k][i]);
      assert IsCommunity(levels[k][i], labels, k, relations);
      if k + 1 < |levels| {
        SameParent(levels[k][i], levels'[k][i], levels[k + 1], levels'[k + 1]);
      }
    }
  }

  /** Label propagation returns the same communities, too. */
  lemma SamePropagation(g: Graph, h: Graph, near: LabelPropagation.Affinity, adj: Adjacency, adj': Adjacency,
                        labels: Labels, labels': Labels, comms: seq<Community>, comms': seq<Community>)
    requires SameGraph(g, h) && IsAdjacency(g, adj) && IsAdjacency(h, adj')
    requires LabelPropagation.IsPropagation(g, near, adj, labels, comms)
    requires LabelPropagation.IsPropagation(h, near, adj', labels', comms')
    ensures comms == comms'
  {
    hide Sweeps.Rounds, IsLevel;
    SameEntities(g, h);
    SameAdjacency(g, h, adj, adj');
    LevelUnique(comms, comms', labels, 0, g.relations, h.relations);
    forall i | 0 <= i < |comms|
      ensures comms[i] == comms'[i]
    {
      assert comms[i] in comms && comms'[i] in comms';
    }
  }
}
