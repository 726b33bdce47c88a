/** The whole detector: pass, label, coarsen, repeat; then parents and flattening. */
module LouvainDetect {
  import Orders
  import opened Ids
  import opened Sums
  import opened Sorting
  import opened Modularity
  import opened Coarsening
  import opened Graphs
  import opened Options
  import opened LouvainPass
  import opened LouvainPassProperties
  import LouvainMoves
  import opened LouvainStable
  import opened LouvainCoarsen
  import opened Communities

  const LOUVAIN_MAX_LEVELS: nat := 64
  const LOUVAIN_MAX_PASS_ITERS: nat := 100

  /* ---- Counting classes ---- */

  ghost function Fixpoints(ents: set<Id>, c: Labels): set<Id> {
    set e | e in ents && At(c, e) == e
  }

  ghost function Elements(xs: seq<Id>): set<Id> {
    set x | x in xs
  }

  lemma {:induction false} DistinctSize(xs: seq<Id>)
    requires Orders.Distinct(xs)
    ensures |Elements(xs)| == |xs|
  {
    if xs == [] {
    } else {
      var init, last := xs[..|xs| - 1], xs[|xs| - 1];
      DistinctSize(init);
      assert last !in init;
      assert xs == init + [last];
      forall x
        ensures x in Elements(xs) <==> x in Elements(init) + {last}
      {
      }
      SameSet(Elements(xs), Elements(init) + {last});
    }
  }

  /** A working graph has as many nodes as its ownership has classes. */
  lemma {:induction false} NodeCount(nodes: seq<Node>, ents: set<Id>, owner: Labels)
    requires Represents(nodes, ents, owner)
    ensures |nodes| == |Fixpoints(ents, owner)|
  {
    DistinctSize(IdsOf(nodes));
    forall x
      ensures x in NodeIds(nodes) <==> x in Fixpoints(ents, owner)
    {
    }
    SameSet(NodeIds(nodes), Fixpoints(ents, owner));
  }

  function Lowests(comms: seq<Community>): (ids: seq<Id>)
    ensures |ids| == |comms| && forall i :: 0 <= i < |ids| ==> ids[i] == comms[i].id.lowest
  {
    seq(|comms|, i requires 0 <= i < |comms| => comms[i].id.lowest)
  }

  /** A canonical labelling names every class by a fixpoint, so classes and fixpoints are equally many. */
  lemma {:induction false} LevelCount(comms: seq<Community>, ents: set<Id>, c: Labels, level: nat,
                                      relations: seq<Relation>)
    requires IsLevel(comms, c, level, relations) && IsCanonical(ents, c)
    ensures |comms| == |Fixpoints(ents, c)|
  {
    DistinctSize(Lowests(comms));
    forall x
      ensures x in Elements(Lowests(comms)) <==> x in Fixpoints(ents, c)
    {
      if x in Lowests(comms) {
        var i :| 0 <= i < |comms| && Lowests(comms)[i] == x;
        LowestIsLabel(comms[i], ents, c, level, relations);
      }
      if x in Fixpoints(ents, c) {
        var i :| 0 <= i < |comms| && x in comms[i].entityIds;
        LowestIsLabel(comms[i], ents, c, level, relations);
        assert Lowests(comms)[i] == x;
      }
    }
    SameSet(Elements(Lowests(comms)), Fixpoints(ents, c));
  }

  /** In a canonical level the lowest member is the label of the whole community. */
  lemma {:induction false} LowestIsLabel(c: Community, ents: set<Id>, labels: Labels, level: nat,
                                         relations: seq<Relation>)
    requires IsCommunity(c, labels, level, relations) && IsCanonical(ents, labels)
    ensures c.id.lowest in ents && labels[c.id.lowest] == c.id.lowest
    ensures forall e :: e in c.entityIds <==> e in ents && labels[e] == c.id.lowest
  {
    var first := c.entityIds[0];
    assert first in c.entityIds;
    var l := labels[first];
    assert l in ents && labels[l] == l;
    assert l in c.entityIds;
    var k :| 0 <= k < |c.entityIds| && c.entityIds[k] == l;
  }

  /* ---- The invariant linking working graph and original graph ---- */

  /** Every labelling of the working graph has the modularity it induces on the original. */
  ghost predicate Faithful(ids: set<Id>, adj: Adjacency, ents: set<Id>, adj0: Adjacency, resolution: real, owner: Labels) {
    forall q :: Quality(ids, adj, resolution, q) == Quality(ents, adj0, resolution, Compose(q, owner))
  }

  lemma {:induction false} ComposeAssociative(q: Labels, p: Labels, owner: Labels)
    requires forall e :: e in owner ==> owner[e] in p
    ensures Compose(Compose(q, p), owner) == Compose(q, Compose(p, owner))
  {
    forall e | e in owner
      ensures Compose(Compose(q, p), owner)[e] == Compose(q, Compose(p, owner))[e]
    {
      var i := owner[e];
      assert i in p;
    }
    SameMap(Compose(Compose(q, p), owner), Compose(q, Compose(p, owner)));
  }

  lemma {:induction false} FaithfulCoarsening(ids: set<Id>, adj: Adjacency, ents: set<Id>, adj0: Adjacency,
                                              resolution: real, owner: Labels, p: Labels, P: set<Id>, coarse: Adjacency)
    requires Faithful(ids, adj, ents, adj0, resolution, owner)
    requires IsCoarse(ids, adj, p, P, coarse) && p.Keys == ids
    requires forall e :: e in owner ==> owner[e] in p
    ensures Faithful(P, coarse, ents, adj0, resolution, Compose(p, owner))
  {
    hide Quality, Compose, IsCoarse;
    forall q
      ensures Quality(P, coarse, resolution, q) == Quality(ents, adj0, resolution, Compose(q, Compose(p, owner)))
    {
      QualityLifts(ids, adj, resolution, p, P, coarse, q);
      ComposeAssociative(q, p, owner);
    }
  }

  lemma {:induction false} FaithfulInitially(ents: set<Id>, adj0: Adjacency, resolution: real)
    ensures Faithful(ents, adj0, ents, adj0, resolution, Identity(ents))
  {
    hide Agreement, Bond;
    forall q
      ensures Quality(ents, adj0, resolution, q) == Quality(ents, adj0, resolution, Compose(q, Identity(ents)))
    {
      SamePartition(ents, q, Compose(q, Identity(ents)), Bond(ents, adj0, resolution));
    }
  }

  lemma ComposeIdentity(ids: set<Id>, owner: Labels)
    requires forall e :: e in owner ==> owner[e] in ids
    ensures Compose(Identity(ids), owner) == owner
  {
    forall e | e in owner
      ensures Compose(Identity(ids), owner)[e] == owner[e]
    {
      var i := owner[e];
      assert i in ids;
    }
    SameMap(Compose(Identity(ids), owner), owner);
  }

  /** A pass on a faithful working graph does not lower modularity on the original graph. */
  lemma {:induction false} PassRaisesOriginal(nodes: seq<Node>, adj: Adjacency, ents: set<Id>, adj0: Adjacency,
                                              resolution: real, owner: Labels, maxIters: nat)
    requires IsWorkingGraph(nodes, adj) && Faithful(NodeIds(nodes), adj, ents, adj0, resolution, owner)
    requires forall e :: e in owner ==> owner[e] in NodeIds(nodes)
    ensures Quality(ents, adj0, resolution, Compose(PassResult(nodes, adj, resolution, maxIters), owner))
         >= Quality(ents, adj0, resolution, owner)
  {
    hide Quality, PassResult, IsWorkingGraph, NodeIds, Compose;
    PassRaisesQuality(nodes, adj, resolution, maxIters);
    ComposeIdentity(NodeIds(nodes), owner);
  }

  /* ---- Projecting a partition to entities; parents ---- */

  /** The label of every entity is the community of the working node that holds it. */
  method Project(nodes: seq<Node>, partition: Labels, ghost ents: set<Id>, ghost owner: Labels)
    returns (entityLabel: Labels)
    requires Represents(nodes, ents, owner) && IsCanonical(NodeIds(nodes), partition)
    ensures entityLabel == Compose(partition, owner)
  {
    hide *;
    ghost var both := Compose(partition, owner);
    ProjectFacts(nodes, partition, ents, owner);
    entityLabel := map[];
    for n := 0 to |nodes|
      invariant forall e :: e in entityLabel <==> HeldBefore(nodes, n, e)
      invariant forall e :: e in entityLabel ==> e in both && entityLabel[e] == both[e]
    {
      HeldNext(nodes, n);
      var members := nodes[n].members;
      for m := 0 to |members|
        invariant forall e :: e in entityLabel <==> HeldBefore(nodes, n, e) || e in members[..m]
        invariant forall e :: e in entityLabel ==> e in both && entityLabel[e] == both[e]
      {
        var e := members[m];
        assert e in members;
        entityLabel := entityLabel[e := partition[nodes[n].id]];
      }
      assert members[..|members|] == members;
    }
    forall e
      ensures e in entityLabel <==> e in both
      ensures e in entityLabel ==> entityLabel[e] == both[e]
    {
    }
    SameMap(entityLabel, both);
  }

  ghost predicate HeldBefore(nodes: seq<Node>, n: nat, e: Id)
    requires n <= |nodes|
  {
    exists j :: 0 <= j < n && e in nodes[j].members
  }

  lemma HeldNext(nodes: seq<Node>, n: nat)
    requires n < |nodes|
    ensures forall e :: HeldBefore(nodes, n + 1, e) <==> HeldBefore(nodes, n, e) || e in nodes[n].members
  {
  }

  lemma {:induction false} ProjectFacts(nodes: seq<Node>, partition: Labels, ents: set<Id>, owner: Labels)
    requires Represents(nodes, ents, owner) && IsCanonical(NodeIds(nodes), partition)
    ensures forall n :: 0 <= n < |nodes| ==> nodes[n].id in partition
    ensures forall n, e :: 0 <= n < |nodes| && e in nodes[n].members ==>
      e in Compose(partition, owner) && Compose(partition, owner)[e] == partition[nodes[n].id]
    ensures forall e :: e in Compose(partition, owner) <==> HeldBefore(nodes, |nodes|, e)
    ensures forall e :: !HeldBefore(nodes, 0, e)
  {
    hide Compose, IdsOf, NodeIds;
    hide IsCanonical, Orders.Distinct, Ascending;
    CanonicalDomain(NodeIds(nodes), partition);
    OwnersCompose(NodeIds(nodes), ents, owner, partition);
    CanonicalDomain(ents, Compose(partition, owner));
    CanonicalDomain(ents, owner);
    NodesIn(nodes);
    forall n, e | 0 <= n < |nodes| && e in nodes[n].members
      ensures e in Compose(partition, owner) && Compose(partition, owner)[e] == partition[nodes[n].id]
    {
      assert Holds(nodes[n], ents, owner);
    }
    forall e | e in Compose(partition, owner)
      ensures HeldBefore(nodes, |nodes|, e)
    {
      var n := NodeAt(nodes, owner[e]);
      assert Holds(nodes[n], ents, owner);
    }
  }

  ghost predicate HasParent(parents: seq<Community>, e: Id, id: CommunityId) {
    exists j :: 0 <= j < |parents| && parents[j].id == id && e in parents[j].entityIds
  }

  /** The parent is a community holding the child's first entity, if there is one. */
  ghost predicate Linked(child: Community, parents: seq<Community>, linked: Community) {
    && linked == child.(parent := linked.parent)
    && if child.entityIds == [] then linked.parent == child.parent
       else match linked.parent
         case Some(id) => HasParent(parents, child.entityIds[0], id)
         case None => forall j :: 0 <= j < |parents| ==> child.entityIds[0] !in parents[j].entityIds
  }

  function ParentIn(entityToParent: map<Id, CommunityId>, child: Community): Option<CommunityId> {
    if child.entityIds == [] then child.parent
    else if child.entityIds[0] in entityToParent then Some(entityToParent[child.entityIds[0]])
    else None
  }

  method ParentTable(parents: seq<Community>) returns (entityToParent: map<Id, CommunityId>)
    ensures forall e :: e in entityToParent ==> HasParent(parents, e, entityToParent[e])
    ensures forall j, e :: 0 <= j < |parents| && e in parents[j].entityIds ==> e in entityToParent
  {
    entityToParent := map[];
    for j := 0 to |parents|
      invariant forall e :: e in entityToParent ==> HasParent(parents, e, entityToParent[e])
      invariant forall k, e :: 0 <= k < j && e in parents[k].entityIds ==> e in entityToParent
    {
      var es := parents[j].entityIds;
      for m := 0 to |es|
        invariant forall e :: e in entityToParent ==> HasParent(parents, e, entityToParent[e])
        invariant forall k, e :: 0 <= k < j && e in parents[k].entityIds ==> e in entityToParent
        invariant forall e :: e in es[..m] ==> e in entityToParent
      {
        assert es[m] in parents[j].entityIds;
        entityToParent := entityToParent[es[m] := parents[j].id];
      }
      assert es[..|es|] == es;
    }
  }

  method AssignParents(children: seq<Community>, parents: seq<Community>) returns (linked: seq<Community>)
    ensures |linked| == |children|
    ensures forall i :: 0 <= i < |children| ==> Linked(children[i], parents, linked[i])
  {
    var entityToParent := ParentTable(parents);
    linked := [];
    for i := 0 to |children|
      invariant |linked| == i
      invariant forall k :: 0 <= k < i ==> Linked(children[k], parents, linked[k])
    {
      var child := children[i].(parent := ParentIn(entityToParent, children[i]));
      assert Linked(children[i], parents, child) by {
        LookupLinks(children[i], parents, entityToParent);
      }
      linked := linked + [child];
    }
  }

  lemma LookupLinks(child: Community, parents: seq<Community>, entityToParent: map<Id, CommunityId>)
    requires forall e :: e in entityToParent ==> HasParent(parents, e, entityToParent[e])
    requires forall j, e :: 0 <= j < |parents| && e in parents[j].entityIds ==> e in entityToParent
    ensures Linked(child, parents, child.(parent := ParentIn(entityToParent, child)))
  {
    if child.entityIds != [] {
      var e := child.entityIds[0];
      assert e in entityToParent ==> HasParent(parents, e, entityToParent[e]);
      if e !in entityToParent {
        forall j | 0 <= j < |parents|
          ensures e !in parents[j].entityIds
        {
        }
      }
    }
  }

  /* ---- The level loop ---- */

  /** Entities together at the finer level stay together at the coarser one. */
  ghost predicate Coarser(ents: set<Id>, fine: Labels, coarse: Labels) {
    forall e, f :: e in ents && f in ents && At(fine, e) == At(fine, f) ==> At(coarse, e) == At(coarse, f)
  }

  /** What the loop knows about the working graph: it stands for the classes of owner. */
  ghost predicate Working(nodes: seq<Node>, adj: Adjacency, ents: set<Id>, adj0: Adjacency, resolution: real,
                          owner: Labels) {
    && IsWorkingGraph(nodes, adj)
    && Represents(nodes, ents, owner)
    && Faithful(NodeIds(nodes), adj, ents, adj0, resolution, owner)
  }

  lemma {:induction false} LevelStep(nodes: seq<Node>, ents: set<Id>, owner: Labels, partition: Labels)
    requires Represents(nodes, ents, owner) && IsCanonical(NodeIds(nodes), partition)
    ensures IsCanonical(ents, Compose(partition, owner)) && Coarser(ents, owner, Compose(partition, owner))
    ensures Fixpoints(ents, Compose(partition, owner)) <= Fixpoints(ents, owner)
    ensures forall e :: e in owner ==> owner[e] in NodeIds(nodes)
  {
    hide Compose, NodeIds, Ascending, Orders.Distinct, Holds;
    OwnersCompose(NodeIds(nodes), ents, owner, partition);
  }

  /** One level: pass, projection and communities. */
  method DetectLevel(g: Graph, nodes: seq<Node>, adj: Adjacency, resolution: real, level: nat,
                     ghost ents: set<Id>, ghost adj0: Adjacency, ghost owner: Labels)
    returns (partition: Labels, ghost entityLabel: Labels, comms: seq<Community>)
    requires Working(nodes, adj, ents, adj0, resolution, owner)
    ensures IsCanonical(NodeIds(nodes), partition) && entityLabel == Compose(partition, owner)
    ensures partition == PassResult(nodes, adj, resolution, LOUVAIN_MAX_PASS_ITERS)
    ensures IsCanonical(ents, entityLabel) && Coarser(ents, owner, entityLabel)
    ensures IsLevel(comms, entityLabel, level, g.relations)
    ensures forall c :: c in comms ==> c.parent == None
    ensures Quality(ents, adj0, resolution, entityLabel) >= Quality(ents, adj0, resolution, owner)
    ensures |comms| == |Fixpoints(ents, entityLabel)| <= |nodes|
  {
    hide *;
    WorkingParts(nodes, adj, ents, adj0, resolution, owner);
    partition := Pass(nodes, adj, resolution, LOUVAIN_MAX_PASS_ITERS);
    PassRaisesQuality(nodes, adj, resolution, LOUVAIN_MAX_PASS_ITERS);
    LevelStep(nodes, ents, owner, partition);
    PassRaisesOriginal(nodes, adj, ents, adj0, resolution, owner, LOUVAIN_MAX_PASS_ITERS);
    var projected := Project(nodes, partition, ents, owner);
    entityLabel := projected;
    comms := CommunitiesFromLabels(g.relations, projected, level);
    LevelCount(comms, ents, entityLabel, level, g.relations);
    NodeCount(nodes, ents, owner);
    Subset(Fixpoints(ents, entityLabel), Fixpoints(ents, owner));
  }

  lemma Subset(a: set<Id>, b: set<Id>)
    requires a <= b
    ensures |a| <= |b|
  {
    Sums.SubsetSize(a, b);
  }

  lemma WorkingParts(nodes: seq<Node>, adj: Adjacency, ents: set<Id>, adj0: Adjacency, resolution: real, owner: Labels)
    requires Working(nodes, adj, ents, adj0, resolution, owner)
    ensures IsWorkingGraph(nodes, adj) && Represents(nodes, ents, owner)
    ensures Faithful(NodeIds(nodes), adj, ents, adj0, resolution, owner)
  {
  }

  /** The next working graph stands for the communities just emitted. */
  method NextLevel(nodes: seq<Node>, adj: Adjacency, partition: Labels, ghost ents: set<Id>, ghost adj0: Adjacency,
                   ghost resolution: real, ghost owner: Labels)
    returns (newNodes: seq<Node>, newAdj: Adjacency)
    requires Working(nodes, adj, ents, adj0, resolution, owner) && IsCanonical(NodeIds(nodes), partition)
    ensures Working(newNodes, newAdj, ents, adj0, resolution, Compose(partition, owner))
    ensures |newNodes| == |Fixpoints(ents, Compose(partition, owner))|
    ensures IsCoarse(NodeIds(nodes), adj, partition, NodeIds(newNodes), newAdj) && (Sparse(adj) ==> Sparse(newAdj))
  {
    hide *;
    WorkingParts(nodes, adj, ents, adj0, resolution, owner);
    newNodes, newAdj := Coarsen(nodes, adj, partition, ents, owner);
    NodeCount(newNodes, ents, Compose(partition, owner));
    GraphKeys(nodes, adj, partition);
    LevelStep(nodes, ents, owner, partition);
    FaithfulCoarsening(NodeIds(nodes), adj, ents, adj0, resolution, owner, partition, NodeIds(newNodes), newAdj);
    WorkingFrom(newNodes, newAdj, ents, adj0, resolution, Compose(partition, owner));
  }

  lemma WorkingFrom(nodes: seq<Node>, adj: Adjacency, ents: set<Id>, adj0: Adjacency, resolution: real, owner: Labels)
    requires IsWorkingGraph(nodes, adj) && Represents(nodes, ents, owner)
    requires Faithful(NodeIds(nodes), adj, ents, adj0, resolution, owner)
    ensures Working(nodes, adj, ents, adj0, resolution, owner)
  {
  }

  /** Every entity its own node. */
  method Singletons(ids: seq<Id>, ghost ents: set<Id>, adj: Adjacency, ghost resolution: real)
    returns (nodes: seq<Node>)
    requires Orders.Distinct(ids) && (forall x :: x in ents <==> x in ids) && IsGraph(ents, adj)
    ensures Working(nodes, adj, ents, adj, resolution, Identity(ents)) && |nodes| == |ids|
  {
    hide Faithful, IsGraph;
    nodes := seq(|ids|, i requires 0 <= i < |ids| => Node(ids[i], [ids[i]]));
    assert IdsOf(nodes) == ids;
    forall x
      ensures x in NodeIds(nodes) <==> x in ents
    {
    }
    SameSet(NodeIds(nodes), ents);
    FaithfulInitially(ents, adj, resolution);
  }

  /* ---- The hierarchy ---- */

  ghost function Before(levels: seq<seq<Community>>, n: nat, k: nat): nat
    requires k <= |levels|
  {
    if k == 0 then n else |levels[k - 1]|
  }

  /** Each level is a partition of the entities named by its labels, coarser than the one below. */
  ghost predicate AreLevels(levels: seq<seq<Community>>, labels: seq<Labels>, ents: set<Id>, relations: seq<Relation>) {
    && |levels| == |labels|
    && (forall k :: 0 <= k < |levels| ==> IsCanonical(ents, labels[k]) && IsLevel(levels[k], labels[k], k, relations))
    && (forall k :: 0 < k < |levels| ==> Coarser(ents, labels[k - 1], labels[k]))
  }

  /** Modularity on the original graph never falls from one level to the next. */
  ghost predicate Rising(ents: set<Id>, adj0: Adjacency, resolution: real, labels: seq<Labels>) {
    forall k :: 0 <= k < |labels| ==>
      Quality(ents, adj0, resolution, labels[k]) >= Quality(ents, adj0, resolution, Previous(ents, labels, k))
  }

  /** The labelling a level starts from: singletons, then the level below. */
  ghost function Previous(ents: set<Id>, labels: seq<Labels>, k: nat): Labels
    requires k <= |labels|
  {
    if k == 0 then Identity(ents) else labels[k - 1]
  }

  /** Community counts strictly fall on the first m levels and never rise. */
  ghost predicate Shrinking(levels: seq<seq<Community>>, n: nat, m: nat) {
    && (forall k :: 0 <= k < |levels| ==> NoMore(levels, n, k))
    && (forall k :: 0 <= k < |levels| && k < m ==> Fewer(levels, n, k))
  }

  ghost predicate NoMore(levels: seq<seq<Community>>, n: nat, k: nat)
    requires k < |levels|
  {
    |levels[k]| <= Before(levels, n, k)
  }

  ghost predicate Fewer(levels: seq<seq<Community>>, n: nat, k: nat)
    requires k < |levels|
  {
    |levels[k]| < Before(levels, n, k)
  }

  /** A working graph: its nodes and adjacency. */
  type Work = (seq<Node>, Adjacency)

  /** The labels are what passes over successively coarsened working graphs give, the first of them over adj0 itself. */
  ghost predicate Traced(works: seq<Work>, labels: seq<Labels>, ents: set<Id>, adj0: Adjacency, resolution: real) {
    && |works| == |labels|
    && (forall k :: 0 <= k < |works| ==> TracedAt(works, labels, ents, adj0, resolution, k))
  }

  ghost predicate TracedAt(works: seq<Work>, labels: seq<Labels>, ents: set<Id>, adj0: Adjacency, resolution: real,
                           k: nat)
    requires k < |works| == |labels|
  {
    && LevelWork(works[k], labels[k], Previous(ents, labels, k), ents, adj0, resolution)
    && Sparse(works[k].1) && if k == 0 then works[k].1 == adj0 else CoarseStep(works[k - 1], works[k], resolution)
  }

  ghost predicate LevelWork(work: Work, l: Labels, owner: Labels, ents: set<Id>, adj0: Adjacency, resolution: real) {
    && Working(work.0, work.1, ents, adj0, resolution, owner)
    && l == Compose(PassOf(work, resolution), owner)
  }

  ghost function PassOf(work: Work, resolution: real): Labels {
    PassResult(work.0, work.1, resolution, LOUVAIN_MAX_PASS_ITERS)
  }

  ghost predicate CoarseStep(fine: Work, coarse: Work, resolution: real) {
    IsCoarse(NodeIds(fine.0), fine.1, PassOf(fine, resolution), NodeIds(coarse.0), coarse.1)
  }

  /** The loop ends when a pass merges nothing, or at the level cap. */
  ghost predicate Ended(levels: seq<seq<Community>>, n: nat) {
    |levels| > 0 && (|levels| == LOUVAIN_MAX_LEVELS || |levels[|levels| - 1]| == Before(levels, n, |levels| - 1))
  }

  lemma {:induction false} TraceExtends(works: seq<Work>, labels: seq<Labels>, ents: set<Id>, adj0: Adjacency,
                                        resolution: real, work: Work, l: Labels)
    requires Traced(works, labels, ents, adj0, resolution)
    requires LevelWork(work, l, Previous(ents, labels, |labels|), ents, adj0, resolution)
    requires Sparse(work.1) && if works == [] then work.1 == adj0 else CoarseStep(works[|works| - 1], work, resolution)
    ensures Traced(works + [work], labels + [l], ents, adj0, resolution)
  {
    hide LevelWork, CoarseStep, Identity, Sparse;
    var works', labels' := works + [work], labels + [l];
    forall k | 0 <= k < |works'|
      ensures TracedAt(works', labels', ents, adj0, resolution, k)
    {
      assert Previous(ents, labels', k) == Previous(ents, labels, k);
      if k < |works| {
        assert TracedAt(works, labels, ents, adj0, resolution, k);
      }
    }
  }

  lemma {:induction false} AreLevelsExtend(levels: seq<seq<Community>>, labels: seq<Labels>, ents: set<Id>,
                                           relations: seq<Relation>, comms: seq<Community>, l: Labels)
    requires AreLevels(levels, labels, ents, relations)
    requires IsCanonical(ents, l) && IsLevel(comms, l, |levels|, relations)
    requires Coarser(ents, Previous(ents, labels, |labels|), l)
    ensures AreLevels(levels + [comms], labels + [l], ents, relations)
  {
    hide IsCanonical, IsLevel, Coarser;
  }

  lemma {:induction false} RisingExtends(ents: set<Id>, adj0: Adjacency, resolution: real, labels: seq<Labels>,
                                         l: Labels)
    requires Rising(ents, adj0, resolution, labels)
    requires Quality(ents, adj0, resolution, l) >= Quality(ents, adj0, resolution, Previous(ents, labels, |labels|))
    ensures Rising(ents, adj0, resolution, labels + [l])
  {
    hide Quality, Identity;
    forall k | 0 <= k <= |labels|
      ensures Previous(ents, labels + [l], k) == Previous(ents, labels, k)
    {
    }
  }

  lemma {:induction false} ShrinkingExtends(levels: seq<seq<Community>>, n: nat, comms: seq<Community>)
    requires Shrinking(levels, n, |levels|) && |comms| <= Before(levels, n, |levels|)
    ensures Shrinking(levels + [comms], n, |levels|)
    ensures |comms| < Before(levels, n, |levels|) ==> Shrinking(levels + [comms], n, |levels| + 1)
  {
    var next := levels + [comms];
    forall k | 0 <= k < |next|
      ensures NoMore(next, n, k) && (k < |levels| ==> Fewer(next, n, k))
    {
      if k < |levels| {
        assert Fewer(levels, n, k) && next[k] == levels[k];
      }
    }
  }

  /** With strictly falling counts there are no more levels than entities. */
  lemma {:induction false} LevelsBounded(levels: seq<seq<Community>>, n: nat, k: nat)
    requires k < |levels| && Shrinking(levels, n, |levels| - 1)
    requires forall i :: 0 <= i < |levels| ==> |levels[i]| >= 1
    ensures k < n && (k + 1 < |levels| ==> |levels[k]| + k + 1 <= n)
  {
    assert NoMore(levels, n, k);
    if k + 1 < |levels| {
      assert Fewer(levels, n, k);
    }
    if k == 0 {
    } else {
      LevelsBounded(levels, n, k - 1);
    }
  }

  method BuildLevels(g: Graph, ids: seq<Id>, adj0: Adjacency, resolution: real, ghost ents: set<Id>)
    returns (levels: seq<seq<Community>>, ghost labels: seq<Labels>, ghost works: seq<Work>)
    requires Orders.Distinct(ids) && (forall x :: x in ents <==> x in ids) && IsGraph(ents, adj0) && Sparse(adj0)
    ensures AreLevels(levels, labels, ents, g.relations)
    ensures Rising(ents, adj0, resolution, labels)
    ensures 1 <= |levels| <= LOUVAIN_MAX_LEVELS && Shrinking(levels, |ids|, |levels| - 1)
    ensures Traced(works, labels, ents, adj0, resolution) && Ended(levels, |ids|)
    ensures forall k, c :: 0 <= k < |levels| && c in levels[k] ==> c.parent == None
  {
    hide Traced, LevelWork, CoarseStep, Previous, AreLevels, Rising, Shrinking, Working, IsCanonical, IsLevel, Coarser;
    hide IsGraph, Quality, Compose, Identity, Orders.Distinct, Sparse;
    var nodes := Singletons(ids, ents, adj0, resolution);
    var adj := adj0;
    levels, labels, works := [], [], [];
    ghost var owner := Identity(ents);
    var converged := false;
    Nothing(ents, adj0, resolution, g.relations, |ids|);
    while |levels| < LOUVAIN_MAX_LEVELS && !converged
      invariant |labels| == |levels| <= LOUVAIN_MAX_LEVELS
      invariant AreLevels(levels, labels, ents, g.relations) && Rising(ents, adj0, resolution, labels)
      invariant forall k, c :: 0 <= k < |levels| && c in levels[k] ==> c.parent == None
      invariant Traced(works, labels, ents, adj0, resolution)
      invariant converged ==> 1 <= |levels| && Shrinking(levels, |ids|, |levels| - 1) && Ended(levels, |ids|)
      invariant !converged ==> Shrinking(levels, |ids|, |levels|)
      invariant !converged ==>
        Working(nodes, adj, ents, adj0, resolution, owner) && |nodes| == Before(levels, |ids|, |levels|)
      invariant !converged ==> owner == Previous(ents, labels, |labels|)
      invariant !converged ==> Sparse(adj) && |works| == |labels|
      invariant !converged ==>
        if works == [] then adj == adj0 else CoarseStep(works[|works| - 1], (nodes, adj), resolution)
      decreases LOUVAIN_MAX_LEVELS - |levels|
    {
      var level := |levels|;
      ghost var entityLabel;
      var partition, comms;
      partition, entityLabel, comms := DetectLevel(g, nodes, adj, resolution, level, ents, adj0, owner);
      AreLevelsExtend(levels, labels, ents, g.relations, comms, entityLabel);
      RisingExtends(ents, adj0, resolution, labels, entityLabel);
      ShrinkingExtends(levels, |ids|, comms);
      LevelWorkIs((nodes, adj), partition, owner, ents, adj0, resolution);
      TraceExtends(works, labels, ents, adj0, resolution, (nodes, adj), entityLabel);
      LastPrevious(ents, labels, entityLabel, levels, comms, |ids|);
      works := works + [(nodes, adj)];
      levels, labels := levels + [comms], labels + [entityLabel];
      if |comms| >= |nodes| {
        converged := true;
      } else {
        ghost var work := (nodes, adj);
        nodes, adj := NextLevel(nodes, adj, partition, ents, adj0, resolution, owner);
        CoarseStepIs(work, (nodes, adj), resolution);
        owner := entityLabel;
      }
    }
    if !converged {
      ShrinkingWeaken(levels, |ids|);
    }
  }

  lemma Nothing(ents: set<Id>, adj0: Adjacency, resolution: real, relations: seq<Relation>, n: nat)
    ensures AreLevels([], [], ents, relations) && Rising(ents, adj0, resolution, []) && Shrinking([], n, 0)
    ensures Traced([], [], ents, adj0, resolution) && Previous(ents, [], 0) == Identity(ents)
  {
  }

  lemma LastPrevious(ents: set<Id>, labels: seq<Labels>, l: Labels, levels: seq<seq<Community>>, comms: seq<Community>,
                     n: nat)
    ensures Previous(ents, labels + [l], |labels + [l]|) == l
    ensures Before(levels + [comms], n, |levels|) == Before(levels, n, |levels|)
    ensures Before(levels + [comms], n, |levels + [comms]|) == |comms|
  {
  }

  lemma CoarseStepIs(fine: Work, coarse: Work, resolution: real)
    requires IsCoarse(NodeIds(fine.0), fine.1, PassResult(fine.0, fine.1, resolution, LOUVAIN_MAX_PASS_ITERS),
                      NodeIds(coarse.0), coarse.1)
    ensures CoarseStep(fine, coarse, resolution)
  {
  }

  lemma LevelWorkIs(work: Work, partition: Labels, owner: Labels, ents: set<Id>, adj0: Adjacency, resolution: real)
    requires partition == PassResult(work.0, work.1, resolution, LOUVAIN_MAX_PASS_ITERS)
    requires Working(work.0, work.1, ents, adj0, resolution, owner)
    ensures LevelWork(work, Compose(partition, owner), owner, ents, adj0, resolution)
  {
  }

  lemma ShrinkingWeaken(levels: seq<seq<Community>>, n: nat)
    requires Shrinking(levels, n, |levels|) && |levels| > 0
    ensures Shrinking(levels, n, |levels| - 1)
  {
  }

  /* ---- Wiring and flattening ---- */

  /** child's parent is the one community above that holds its members, and holds them all. */
  ghost predicate ParentIs(child: Community, parents: seq<Community>, j: nat) {
    && j < |parents|
    && child.parent == Some(parents[j].id)
    && (forall e :: e in child.entityIds ==> e in parents[j].entityIds)
    && (forall i, e :: 0 <= i < |parents| && e in child.entityIds && e in parents[i].entityIds ==> i == j)
  }

  /** Refinement makes the parent found through the first entity the parent of all members. */
  lemma {:induction false} ParentHoldsAll(child: Community, fine: Labels, parents: seq<Community>, coarse: Labels,
                                          ents: set<Id>, k: nat, relations: seq<Relation>, linked: Community)
    returns (j: nat)
    requires IsCanonical(ents, fine) && IsCanonical(ents, coarse) && Coarser(ents, fine, coarse)
    requires IsCommunity(child, fine, k, relations) && IsLevel(parents, coarse, k + 1, relations)
    requires Linked(child, parents, linked)
    ensures ParentIs(linked, parents, j)
  {
    hide IsLevel, IsCommunity;
    LowestIsLabel(child, ents, fine, k, relations);
    var e0 := FirstOf(child, fine, k, relations);
    j := HolderOf(parents, coarse, ents, k + 1, relations, e0);
    forall e | e in child.entityIds
      ensures e in parents[j].entityIds
    {
      assert At(fine, e) == At(fine, e0);
    }
    forall i, e | 0 <= i < |parents| && e in child.entityIds && e in parents[i].entityIds
      ensures i == j
    {
      assert e in parents[j].entityIds;
      assert coarse[e] == parents[j].id.lowest;
      OneHolder(parents, coarse, ents, k + 1, relations, i, j, e);
    }
    assert linked.parent.Some? && HasParent(parents, e0, linked.parent.value);
    var i :| 0 <= i < |parents| && parents[i].id == linked.parent.value && e0 in parents[i].entityIds;
  }

  lemma FirstOf(c: Community, labels: Labels, level: nat, relations: seq<Relation>) returns (e: Id)
    requires IsCommunity(c, labels, level, relations)
    ensures c.entityIds != [] && e == c.entityIds[0] && e in c.entityIds
  {
    e := c.entityIds[0];
  }

  /** The members of a level's communities are told apart by their labels. */
  lemma {:induction false} HolderOf(comms: seq<Community>, labels: Labels, ents: set<Id>, level: nat,
                                    relations: seq<Relation>, e: Id)
    returns (j: nat)
    requires IsLevel(comms, labels, level, relations) && IsCanonical(ents, labels) && e in ents
    ensures j < |comms| && e in comms[j].entityIds
    ensures forall x :: x in comms[j].entityIds <==> x in ents && labels[x] == labels[e]
    ensures comms[j].id.lowest == labels[e]
  {
    hide IsCommunity, IsCanonical;
    assert e in labels by {
      CanonicalDomain(ents, labels);
    }
    j :| 0 <= j < |comms| && e in comms[j].entityIds;
    LowestIsLabel(comms[j], ents, labels, level, relations);
  }

  lemma CanonicalDomain(ents: set<Id>, labels: Labels)
    requires IsCanonical(ents, labels)
    ensures labels.Keys == ents
  {
  }

  lemma OneHolder(comms: seq<Community>, labels: Labels, ents: set<Id>, level: nat, relations: seq<Relation>, i: nat,
                  j: nat, e: Id)
    requires IsLevel(comms, labels, level, relations) && IsCanonical(ents, labels)
    requires i < |comms| && j < |comms| && e in comms[i].entityIds && e in comms[j].entityIds
    ensures i == j
  {
    hide IsCommunity, IsCanonical;
    LowestIsLabel(comms[i], ents, labels, level, relations);
    LowestIsLabel(comms[j], ents, labels, level, relations);
  }

  ghost predicate IsChildOf(child: Community, parents: seq<Community>) {
    exists j :: ParentIs(child, parents, j)
  }

  /** Below the top every community has its parent; at the top none has. */
  ghost predicate ParentsWired(levels: seq<seq<Community>>) {
    forall k, i :: 0 <= k < |levels| && 0 <= i < |levels[k]| ==>
      if k == |levels| - 1 then levels[k][i].parent == None else IsChildOf(levels[k][i], levels[k + 1])
  }

  lemma {:induction false} LinkedLevel(comms: seq<Community>, fine: Labels, parents: seq<Community>, coarse: Labels,
                                       ents: set<Id>, k: nat, relations: seq<Relation>, linked: seq<Community>)
    requires IsCanonical(ents, fine) && IsCanonical(ents, coarse) && Coarser(ents, fine, coarse)
    requires IsLevel(comms, fine, k, relations) && IsLevel(parents, coarse, k + 1, relations)
    requires |linked| == |comms| && forall i :: 0 <= i < |comms| ==> Linked(comms[i], parents, linked[i])
    ensures IsLevel(linked, fine, k, relations)
    ensures forall i :: 0 <= i < |linked| ==> IsChildOf(linked[i], parents)
  {
    hide IsCanonical, Coarser;
    forall i | 0 <= i < |linked|
      ensures IsChildOf(linked[i], parents)
      ensures IsCommunity(linked[i], fine, k, relations) && linked[i].id == comms[i].id
      ensures linked[i].entityIds == comms[i].entityIds
    {
      var j := ParentHoldsAll(comms[i], fine, parents, coarse, ents, k, relations, linked[i]);
    }
  }

  lemma LevelsAt(levels: seq<seq<Community>>, labels: seq<Labels>, ents: set<Id>, relations: seq<Relation>, k: nat)
    requires AreLevels(levels, labels, ents, relations) && k + 1 < |levels|
    ensures |labels| == |levels|
    ensures IsCanonical(ents, labels[k]) && IsLevel(levels[k], labels[k], k, relations)
    ensures IsCanonical(ents, labels[k + 1]) && IsLevel(levels[k + 1], labels[k + 1], k + 1, relations)
    ensures Coarser(ents, labels[k], labels[k + 1])
  {
    hide IsCanonical, IsLevel, Coarser;
    assert Coarser(ents, labels[(k + 1) - 1], labels[k + 1]);
  }

  lemma LevelReplaced(levels: seq<seq<Community>>, labels: seq<Labels>, ents: set<Id>, relations: seq<Relation>, k: nat,
                      linked: seq<Community>)
    requires AreLevels(levels, labels, ents, relations) && k < |levels|
    requires IsLevel(linked, labels[k], k, relations)
    ensures AreLevels(levels[k := linked], labels, ents, relations)
  {
    hide IsCanonical, IsLevel, Coarser;
  }

  /** Two communities of one table have the same members and ID. */
  ghost predicate SameShape(a: seq<seq<Community>>, b: seq<seq<Community>>) {
    |a| == |b| && forall k :: 0 <= k < |a| ==> |a[k]| == |b[k]|
  }

  method WireParents(levels0: seq<seq<Community>>, ghost labels: seq<Labels>, ghost ents: set<Id>,
                     ghost relations: seq<Relation>)
    returns (levels: seq<seq<Community>>)
    requires AreLevels(levels0, labels, ents, relations) && levels0 != []
    requires forall k, c :: 0 <= k < |levels0| && c in levels0[k] ==> c.parent == None
    ensures AreLevels(levels, labels, ents, relations) && SameShape(levels, levels0) && |levels| == |levels0|
    ensures ParentsWired(levels)
  {
    hide AreLevels, IsChildOf, IsLevel, IsCanonical, Coarser, Linked;
    levels := levels0;
    for k := 0 to |levels0| - 1
      invariant SameShape(levels, levels0) && AreLevels(levels, labels, ents, relations)
      invariant forall m :: k <= m < |levels| ==> levels[m] == levels0[m]
      invariant forall m, i :: 0 <= m < k && 0 <= i < |levels[m]| ==> IsChildOf(levels[m][i], levels0[m + 1])
      invariant forall m :: 0 < m <= k ==> SameMembers(levels0[m], levels[m])
      invariant SameMembers(levels0[0], levels[0])
    {
      var linked := AssignParents(levels[k], levels[k + 1]);
      LevelsAt(levels, labels, ents, relations, k);
      LinkedLevel(levels[k], labels[k], levels[k + 1], labels[k + 1], ents, k, relations, linked);
      LevelReplaced(levels, labels, ents, relations, k, linked);
      LinkedSame(levels[k], levels[k + 1], linked);
      levels := levels[k := linked];
    }
    forall k, i | 0 <= k < |levels| && 0 <= i < |levels[k]|
      ensures if k == |levels| - 1 then levels[k][i].parent == None else IsChildOf(levels[k][i], levels[k + 1])
    {
      if k == |levels| - 1 {
        assert levels[k][i] in levels0[k];
      } else {
        SameParents(levels[k][i], levels0[k + 1], levels[k + 1]);
      }
    }
  }

  /** Filling in parents changes neither IDs nor members. */
  ghost predicate SameMembers(a: seq<Community>, b: seq<Community>) {
    |a| == |b| && forall i :: 0 <= i < |a| ==> a[i].id == b[i].id && a[i].entityIds == b[i].entityIds
  }

  lemma LinkedSame(comms: seq<Community>, parents: seq<Community>, linked: seq<Community>)
    requires |linked| == |comms| && forall i :: 0 <= i < |comms| ==> Linked(comms[i], parents, linked[i])
    ensures SameMembers(comms, linked)
  {
  }

  lemma SameParents(child: Community, parents: seq<Community>, later: seq<Community>)
    requires IsChildOf(child, parents) && SameMembers(parents, later)
    ensures IsChildOf(child, later)
  {
    var j :| ParentIs(child, parents, j);
    assert ParentIs(child, later, j);
  }

  function Flatten(levels: seq<seq<Community>>): seq<Community> {
    if levels == [] then [] else Flatten(levels[..|levels| - 1]) + levels[|levels| - 1]
  }

  ghost predicate IdBefore(a: Community, b: Community) {
    a.id.level < b.id.level || (a.id.level == b.id.level && a.id.lowest < b.id.lowest)
  }

  /** The concatenated levels are already in (level, ID) order, with all IDs distinct. */
  lemma {:induction false} FlattenSorted(levels: seq<seq<Community>>, labels: seq<Labels>, ents: set<Id>,
                                         relations: seq<Relation>, k: nat)
    requires AreLevels(levels, labels, ents, relations) && k <= |levels|
    ensures forall a, b :: 0 <= a < b < |Flatten(levels[..k])| ==>
      IdBefore(Flatten(levels[..k])[a], Flatten(levels[..k])[b])
    ensures forall a :: 0 <= a < |Flatten(levels[..k])| ==> Flatten(levels[..k])[a].id.level < k
  {
    hide IsCanonical, Coarser;
    if k == 0 {
    } else {
      FlattenSorted(levels, labels, ents, relations, k - 1);
      assert levels[..k][..k - 1] == levels[..k - 1];
      var front, last := Flatten(levels[..k - 1]), levels[k - 1];
      assert IsLevel(last, labels[k - 1], k - 1, relations);
      assert forall i :: 0 <= i < |last| ==> IsCommunity(last[i], labels[k - 1], k - 1, relations);
      assert Flatten(levels[..k]) == front + last;
    }
  }

  /** Every entity lies in some community of every level, so no level is empty. */
  lemma LevelNonEmpty(comms: seq<Community>, labels: Labels, ents: set<Id>, level: nat, relations: seq<Relation>, e: Id)
    requires IsLevel(comms, labels, level, relations) && IsCanonical(ents, labels) && e in ents
    ensures |comms| >= 1
  {
    assert e in labels;
  }

  /** What Detect returns for a graph with at least one entity. */
  ghost predicate IsHierarchy(g: Graph, adj0: Adjacency, resolution: real, levels: seq<seq<Community>>,
                              labels: seq<Labels>, works: seq<Work>) {
    var ents := EntitySet(g);
    && AreLevels(levels, labels, ents, g.relations)
    && ParentsWired(levels)
    && Rising(ents, adj0, resolution, labels)
    && 1 <= |levels| <= LOUVAIN_MAX_LEVELS && |levels| <= |g.entities|
    && Shrinking(levels, |g.entities|, |levels| - 1) && Ended(levels, |g.entities|)
    && Traced(works, labels, ents, adj0, resolution)
  }

  /* ---- What the hierarchy achieves ---- */

  /** The labelling with the class of a given to b. */
  ghost function Together(c: Labels, a: Id, b: Id): Labels {
    map e | e in c :: if c[e] == a then b else c[e]
  }

  /** Giving two communities of the level one label does not raise modularity on the original graph. */
  ghost predicate NoMergerGains(ents: set<Id>, adj0: Adjacency, resolution: real, comms: seq<Community>, labels: Labels) {
    forall i, j :: 0 <= i < |comms| && 0 <= j < |comms| && i != j ==>
      Quality(ents, adj0, resolution, Together(labels, comms[i].id.lowest, comms[j].id.lowest))
      <= Quality(ents, adj0, resolution, labels)
  }

  /**
    On the first level no entity has a better neighbouring community, or else a hundred
    sweeps have each improved modularity.
  */
  ghost predicate FirstSettled(ents: set<Id>, adj0: Adjacency, resolution: real, labels: Labels) {
    var net := LouvainMoves.Net(ents, adj0, resolution);
    (forall e :: e in ents ==> NothingBetter(net, labels, e)) || Climbed(net, labels, 100)
  }

  /** A coarser ownership with as many classes is the same. */
  lemma {:induction false} NothingMerged(nodes: seq<Node>, ents: set<Id>, owner: Labels, partition: Labels)
    requires Represents(nodes, ents, owner) && IsCanonical(NodeIds(nodes), partition)
    requires |Fixpoints(ents, Compose(partition, owner))| >= |Fixpoints(ents, owner)|
    ensures partition == Identity(NodeIds(nodes))
  {
    hide IsCanonical, Ascending, Orders.Distinct, Holds, Compose;
    var ids, both := NodeIds(nodes), Compose(partition, owner);
    LevelStep(nodes, ents, owner, partition);
    SameSize(Fixpoints(ents, both), Fixpoints(ents, owner));
    OwnersCompose(ids, ents, owner, partition);
    CanonicalDomain(ids, partition);
    CanonicalDomain(ents, both);
    CanonicalDomain(ents, owner);
    forall i
      ensures i in partition <==> i in Identity(ids)
      ensures i in partition ==> partition[i] == i
    {
      if i in ids {
        assert i in Fixpoints(ents, owner);
        assert i in Fixpoints(ents, both);
      }
    }
    SameMap(partition, Identity(ids));
  }

  lemma SameSize(a: set<Id>, b: set<Id>)
    requires a <= b && |a| >= |b|
    ensures forall x :: x in b ==> x in a
  {
    if x :| x in b && x !in a {
      Sums.SubsetSize(a, b - {x});
      assert false;
    }
  }

  lemma TogetherComposed(ids: set<Id>, owner: Labels, a: Id, b: Id)
    requires forall e :: e in owner ==> owner[e] in ids
    requires a in ids
    ensures Compose(Identity(ids)[a := b], owner) == Together(owner, a, b)
  {
    forall e | e in owner
      ensures Compose(Identity(ids)[a := b], owner)[e] == Together(owner, a, b)[e]
    {
      var i := owner[e];
      assert i in ids;
    }
    SameMap(Compose(Identity(ids)[a := b], owner), Together(owner, a, b));
  }

  /** A last working graph whose pass merges nothing carries its stability to the original graph. */
  lemma {:induction false} LastIsStable(work: Work, l: Labels, owner: Labels, ents: set<Id>, adj0: Adjacency,
                                        resolution: real, a: Id, b: Id)
    requires LevelWork(work, l, owner, ents, adj0, resolution) && resolution >= 0.0
    requires PassOf(work, resolution) == Identity(NodeIds(work.0))
    requires a in NodeIds(work.0) && b in NodeIds(work.0) && a != b
    ensures Quality(ents, adj0, resolution, Together(l, a, b)) <= Quality(ents, adj0, resolution, l)
  {
    hide *;
    var ids := NodeIds(work.0);
    LevelWorkParts(work, l, owner, ents, adj0, resolution);
    LevelStep(work.0, ents, owner, PassOf(work, resolution));
    ComposeIdentity(ids, owner);
    TogetherComposed(ids, owner, a, b);
    FaithfulAt(work, ents, adj0, resolution, owner, Identity(ids));
    FaithfulAt(work, ents, adj0, resolution, owner, Identity(ids)[a := b]);
    ApartIsStable(work.0, work.1, resolution, 100, a, b);
  }

  lemma LevelWorkParts(work: Work, l: Labels, owner: Labels, ents: set<Id>, adj0: Adjacency, resolution: real)
    requires LevelWork(work, l, owner, ents, adj0, resolution)
    ensures IsWorkingGraph(work.0, work.1) && Represents(work.0, ents, owner)
    ensures Faithful(NodeIds(work.0), work.1, ents, adj0, resolution, owner)
    ensures IsCanonical(NodeIds(work.0), PassOf(work, resolution))
    ensures PassOf(work, resolution) == PassResult(work.0, work.1, resolution, 100)
    ensures l == Compose(PassOf(work, resolution), owner)
  {
    hide IsWorkingGraph, Represents, Faithful, PassResult, IsCanonical, Compose;
    PassRaisesQuality(work.0, work.1, resolution, LOUVAIN_MAX_PASS_ITERS);
  }

  lemma FaithfulAt(work: Work, ents: set<Id>, adj0: Adjacency, resolution: real, owner: Labels, q: Labels)
    requires Faithful(NodeIds(work.0), work.1, ents, adj0, resolution, owner)
    ensures Quality(NodeIds(work.0), work.1, resolution, q) == Quality(ents, adj0, resolution, Compose(q, owner))
  {
    hide Quality, Compose;
  }

  /** The parts of a hierarchy at one level. */
  lemma HierarchyAt(g: Graph, adj0: Adjacency, resolution: real, levels: seq<seq<Community>>, labels: seq<Labels>,
                    works: seq<Work>, k: nat)
    requires IsHierarchy(g, adj0, resolution, levels, labels, works) && k < |levels|
    ensures |levels| == |labels| == |works|
    ensures LevelWork(works[k], labels[k], Previous(EntitySet(g), labels, k), EntitySet(g), adj0, resolution)
    ensures IsCanonical(EntitySet(g), labels[k]) && IsLevel(levels[k], labels[k], k, g.relations)
    ensures k == 0 ==> works[k].1 == adj0
    ensures |levels| < 64 && k == |levels| - 1 ==> |levels[k]| == Before(levels, |g.entities|, k)
  {
    hide IsCanonical, IsLevel, Coarser, Rising, ParentsWired, Shrinking, LevelWork, CoarseStep, Sparse, Before;
    assert TracedAt(works, labels, EntitySet(g), adj0, resolution, k);
  }

  /** What a level starts from has as many classes as the level below has communities. */
  lemma ClassesBelow(g: Graph, adj0: Adjacency, resolution: real, levels: seq<seq<Community>>, labels: seq<Labels>,
                     works: seq<Work>, k: nat)
    requires IsHierarchy(g, adj0, resolution, levels, labels, works) && k < |levels| == |labels|
    requires Orders.Distinct(EntityIds(g))
    ensures |Fixpoints(EntitySet(g), Previous(EntitySet(g), labels, k))| == Before(levels, |g.entities|, k)
  {
    hide IsHierarchy, Fixpoints, IsCanonical, IsLevel, LevelWork;
    if k == 0 {
      EveryEntityApart(g);
    } else {
      HierarchyAt(g, adj0, resolution, levels, labels, works, k - 1);
      LevelCount(levels[k - 1], EntitySet(g), labels[k - 1], k - 1, g.relations);
    }
  }

  lemma EveryEntityApart(g: Graph)
    requires Orders.Distinct(EntityIds(g))
    ensures |Fixpoints(EntitySet(g), Identity(EntitySet(g)))| == |g.entities|
  {
    hide Orders.Distinct;
    DistinctSize(EntityIds(g));
    forall e
      ensures e in Fixpoints(EntitySet(g), Identity(EntitySet(g))) <==> e in Elements(EntityIds(g))
    {
    }
    SameSet(Fixpoints(EntitySet(g), Identity(EntitySet(g))), Elements(EntityIds(g)));
  }

  /** Unless the hierarchy reaches 64 levels, no two communities of its top would raise modularity as one. */
  lemma {:induction false} TopIsStable(g: Graph, adj0: Adjacency, resolution: real, levels: seq<seq<Community>>,
                                       labels: seq<Labels>, works: seq<Work>)
    requires IsHierarchy(g, adj0, resolution, levels, labels, works) && Orders.Distinct(EntityIds(g))
    requires resolution >= 0.0 && |levels| < 64
    ensures levels != [] && |labels| == |levels|
    ensures NoMergerGains(EntitySet(g), adj0, resolution, levels[|levels| - 1], labels[|levels| - 1])
  {
    hide Fixpoints, IsCanonical, IsLevel, LevelWork, Orders.Distinct, Before, PassOf, Represents, NodeIds, EntitySet;
    hide Identity, IsWorkingGraph, Faithful, Quality, Together, Compose, Previous;
    LevelsThere(g, adj0, resolution, levels, labels, works);
    hide IsHierarchy;
    var k, ents := |levels| - 1, EntitySet(g);
    var work, owner, top := works[k], Previous(ents, labels, k), levels[k];
    HierarchyAt(g, adj0, resolution, levels, labels, works, k);
    ClassesBelow(g, adj0, resolution, levels, labels, works, k);
    LevelCount(top, ents, labels[k], k, g.relations);
    LevelWorkParts(work, labels[k], owner, ents, adj0, resolution);
    NothingMerged(work.0, ents, owner, PassOf(work, resolution));
    forall i, j | 0 <= i < |top| && 0 <= j < |top| && i != j
      ensures Quality(ents, adj0, resolution, Together(labels[k], top[i].id.lowest, top[j].id.lowest))
           <= Quality(ents, adj0, resolution, labels[k])
    {
      TopNodes(work, labels[k], owner, ents, resolution, top, k, g.relations, i);
      TopNodes(work, labels[k], owner, ents, resolution, top, k, g.relations, j);
      LevelApart(top, labels[k], k, g.relations, i, j);
      LastIsStable(work, labels[k], owner, ents, adj0, resolution, top[i].id.lowest, top[j].id.lowest);
    }
  }

  lemma LevelsThere(g: Graph, adj0: Adjacency, resolution: real, levels: seq<seq<Community>>, labels: seq<Labels>,
                    works: seq<Work>)
    requires IsHierarchy(g, adj0, resolution, levels, labels, works)
    ensures levels != [] && |labels| == |levels| == |works|
  {
    hide IsCanonical, IsLevel, Coarser, Rising, ParentsWired, Shrinking, LevelWork, CoarseStep, Sparse, Before;
    hide TracedAt;
  }

  lemma LevelApart(comms: seq<Community>, labels: Labels, level: nat, relations: seq<Relation>, i: nat, j: nat)
    requires IsLevel(comms, labels, level, relations) && i < |comms| && j < |comms| && i != j
    ensures comms[i].id.lowest != comms[j].id.lowest
  {
    hide IsCommunity;
    if i < j {
      assert comms[i].id.lowest < comms[j].id.lowest;
    } else {
      assert comms[j].id.lowest < comms[i].id.lowest;
    }
  }

  /** After a pass that merged nothing the communities are the working nodes. */
  lemma TopNodes(work: Work, l: Labels, owner: Labels, ents: set<Id>, resolution: real, top: seq<Community>, k: nat,
                 relations: seq<Relation>, i: nat)
    requires Represents(work.0, ents, owner) && l == Compose(PassOf(work, resolution), owner)
    requires PassOf(work, resolution) == Identity(NodeIds(work.0))
    requires IsCanonical(NodeIds(work.0), PassOf(work, resolution))
    requires IsCanonical(ents, l) && IsLevel(top, l, k, relations) && i < |top|
    ensures top[i].id.lowest in NodeIds(work.0)
  {
    LevelStep(work.0, ents, owner, PassOf(work, resolution));
    ComposeIdentity(NodeIds(work.0), owner);
    LowestIsLabel(top[i], ents, l, k, relations);
    hide Compose, IsCommunity, NodeIds, PassOf, Ascending, Orders.Distinct, Holds;
    assert owner[top[i].id.lowest] == top[i].id.lowest;
  }

  /** The first level is settled, or a hundred sweeps have each improved modularity. */
  lemma FirstIsSettled(g: Graph, adj0: Adjacency, resolution: real, levels: seq<seq<Community>>,
                       labels: seq<Labels>, works: seq<Work>)
    requires IsHierarchy(g, adj0, resolution, levels, labels, works)
    ensures labels != [] && FirstSettled(EntitySet(g), adj0, resolution, labels[0])
  {
    hide *;
    LevelsThere(g, adj0, resolution, levels, labels, works);
    HierarchyAt(g, adj0, resolution, levels, labels, works, 0);
    var ents, work := EntitySet(g), works[0];
    StartsApart(ents, labels);
    LevelWorkParts(work, labels[0], Identity(ents), ents, adj0, resolution);
    FirstNodes(work, ents);
    ComposedWithIdentity(ents, PassOf(work, resolution));
    PassSettledOrClimbed(work.0, work.1, resolution, 100);
    FirstSettledFrom(ents, adj0, resolution, labels[0]);
  }

  lemma FirstSettledFrom(ents: set<Id>, adj0: Adjacency, resolution: real, l: Labels)
    requires var net := LouvainMoves.Net(ents, adj0, resolution);
      (forall v :: v in net.ids ==> NothingBetter(net, l, v)) || Climbed(net, l, 100)
    ensures FirstSettled(ents, adj0, resolution, l)
  {
  }

  lemma StartsApart(ents: set<Id>, labels: seq<Labels>)
    ensures Previous(ents, labels, 0) == Identity(ents)
  {
  }

  lemma FirstNodes(work: Work, ents: set<Id>)
    requires Represents(work.0, ents, Identity(ents))
    ensures NodeIds(work.0) == ents
  {
    hide Ascending, Holds, IsCanonical, Orders.Distinct;
    forall i
      ensures i in NodeIds(work.0) <==> i in ents
    {
    }
    SameSet(NodeIds(work.0), ents);
  }

  lemma ComposedWithIdentity(ents: set<Id>, p: Labels)
    requires IsCanonical(ents, p)
    ensures Compose(p, Identity(ents)) == p
  {
    CanonicalDomain(ents, p);
    forall e
      ensures e in Compose(p, Identity(ents)) <==> e in p
      ensures e in p ==> Compose(p, Identity(ents))[e] == p[e]
    {
    }
    SameMap(Compose(p, Identity(ents)), p);
  }

  /** The community hierarchy of a graph. */
  method Detect(g: Graph, resolution: real)
    returns (all: seq<Community>, ghost levels: seq<seq<Community>>, ghost labels: seq<Labels>, ghost works: seq<Work>,
             ghost adj0: Adjacency)
    requires Orders.Distinct(EntityIds(g))
    ensures g.entities == [] ==> all == []
    ensures IsGraph(EntitySet(g), adj0) && Sparse(adj0)
    ensures forall i, j :: Weight(adj0, i, j) == JoinedWeight(EntitySet(g), g.relations, |g.relations|, i, j)
    ensures g.entities != [] ==>
      all == Flatten(levels) && IsHierarchy(g, adj0, if resolution <= 0.0 then 1.0 else resolution, levels, labels, works)
    ensures forall a, b :: 0 <= a < b < |all| ==> IdBefore(all[a], all[b])
    ensures g.entities != [] ==>
      var res := if resolution <= 0.0 then 1.0 else resolution;
      && |levels| == |labels| >= 1
      && FirstSettled(EntitySet(g), adj0, res, labels[0])
      && (|levels| < 64 ==> NoMergerGains(EntitySet(g), adj0, res, levels[|levels| - 1], labels[|levels| - 1]))
  {
    hide *;
    var res := if resolution <= 0.0 then 1.0 else resolution;
    var ids := SortIds(EntityIds(g));
    SameLength(EntityIds(g));
    var adj := BuildAdjacency(g);
    adj0 := adj;
    levels, labels, works := [], [], [];
    if |ids| == 0 {
      return [], [], [], [], adj0;
    }
    SortDistinct(EntityIds(g));
    EntityMembers(g);
    var built;
    built, labels, works := BuildLevels(g, ids, adj, res, EntitySet(g));
    var wired := WireParents(built, labels, EntitySet(g), g.relations);
    levels := wired;
    SameShapeShrinks(built, wired, |ids|);
    assert ids[0] in ids;
    AllNonEmpty(wired, labels, EntitySet(g), g.relations, ids[0]);
    LevelsBounded(wired, |ids|, |wired| - 1);
    FlattenSorted(wired, labels, EntitySet(g), g.relations, |wired|);
    assert wired[..|wired|] == wired;
    all := Flatten(wired);
    HierarchyFrom(g, adj, res, wired, labels, works);
    LevelsThere(g, adj, res, wired, labels, works);
    FirstIsSettled(g, adj, res, wired, labels, works);
    if |wired| < 64 {
      TopIsStable(g, adj, res, wired, labels, works);
    }
  }

  lemma EntityMembers(g: Graph)
    ensures forall x :: x in EntitySet(g) <==> x in SortIds(EntityIds(g))
  {
    SortMembers(EntityIds(g));
  }

  lemma HierarchyFrom(g: Graph, adj0: Adjacency, resolution: real, levels: seq<seq<Community>>, labels: seq<Labels>,
                      works: seq<Work>)
    requires AreLevels(levels, labels, EntitySet(g), g.relations) && ParentsWired(levels)
    requires Rising(EntitySet(g), adj0, resolution, labels)
    requires 1 <= |levels| <= LOUVAIN_MAX_LEVELS && |levels| <= |g.entities|
    requires Shrinking(levels, |g.entities|, |levels| - 1) && Ended(levels, |g.entities|)
    requires Traced(works, labels, EntitySet(g), adj0, resolution)
    ensures IsHierarchy(g, adj0, resolution, levels, labels, works)
  {
  }

  lemma SameLength(xs: seq<Id>)
    ensures |SortIds(xs)| == |xs|
  {
    assert |multiset(SortIds(xs))| == |multiset(xs)|;
  }

  lemma SameShapeShrinks(a: seq<seq<Community>>, b: seq<seq<Community>>, n: nat)
    requires a != [] && SameShape(b, a) && Shrinking(a, n, |a| - 1) && Ended(a, n)
    ensures Shrinking(b, n, |b| - 1) && Ended(b, n)
  {
    forall k | 0 <= k < |b|
      ensures NoMore(b, n, k) && (k < |b| - 1 ==> Fewer(b, n, k))
    {
      assert NoMore(a, n, k) && (k < |a| - 1 ==> Fewer(a, n, k));
      assert Before(b, n, k) == Before(a, n, k);
    }
  }

  lemma AllNonEmpty(levels: seq<seq<Community>>, labels: seq<Labels>, ents: set<Id>, relations: seq<Relation>, e: Id)
    requires AreLevels(levels, labels, ents, relations) && e in ents
    ensures forall k :: 0 <= k < |levels| ==> |levels[k]| >= 1
  {
    forall k | 0 <= k < |levels|
      ensures |levels[k]| >= 1
    {
      LevelNonEmpty(levels[k], labels[k], ents, k, relations, e);
    }
  }
}
