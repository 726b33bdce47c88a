/** What the local-move phase achieves, for every graph, resolution and iteration cap. */
module LouvainPassProperties {
  import opened Ids
  import opened Sums
  import opened Modularity
  import opened Sorting
  import opened Sweeps
  import opened LouvainMoves
  import opened LouvainPass

  /** A partition named canonically: every label is the lowest node of its own class. */
  ghost predicate IsCanonical(ids: set<Id>, p: Labels) {
    && IsLabelling(ids, p)
    && (forall i :: i in ids ==> p[i] <= i && p[p[i]] == p[i])
  }

  ghost predicate SameClasses(ids: set<Id>, p: Labels, c: Labels) {
    forall i, j :: i in ids && j in ids ==> (At(p, i) == At(p, j) <==> At(c, i) == At(c, j))
  }

  lemma {:induction false} CanonicalIs(ids: set<Id>, c: Labels)
    ensures IsCanonical(ids, Canonical(ids, c)) && SameClasses(ids, Canonical(ids, c), c)
  {
    hide Canonical;
    assert Canonical(ids, c).Keys == ids by {
      CanonicalKeys(ids, c);
    }
    forall i, j | i in ids && j in ids
      ensures Canonical(ids, c)[i] in ids && Canonical(ids, c)[i] <= i
      ensures Canonical(ids, c)[Canonical(ids, c)[i]] == Canonical(ids, c)[i]
      ensures Canonical(ids, c)[i] == Canonical(ids, c)[j] <==> At(c, i) == At(c, j)
    {
      CanonicalSamePartition(ids, c, i, j);
    }
  }

  lemma CanonicalKeys(ids: set<Id>, c: Labels)
    ensures Canonical(ids, c).Keys == ids
  {
  }

  lemma IdentityIs(ids: set<Id>)
    ensures IsCanonical(ids, Identity(ids)) && SameClasses(ids, Identity(ids), Identity(ids))
  {
  }

  /** The labels before renaming: a labelling of the run with the same classes. */
  lemma {:induction false} PassLabels(nodes: seq<Node>, adj: Adjacency, resolution: real, maxIters: nat)
    returns (c: Labels)
    requires IsWorkingGraph(nodes, adj)
    ensures IsLabelling(NodeIds(nodes), c)
    ensures SameClasses(NodeIds(nodes), PassResult(nodes, adj, resolution, maxIters), c)
    ensures IsCanonical(NodeIds(nodes), PassResult(nodes, adj, resolution, maxIters))
    ensures Quality(NodeIds(nodes), adj, resolution, c) >= Quality(NodeIds(nodes), adj, resolution, Identity(NodeIds(nodes)))
    ensures TotalWeight(NodeIds(nodes), adj) != 0.0 ==>
      c == Rounds(Visit(Net(NodeIds(nodes), adj, resolution)), Identity(NodeIds(nodes)), SortIds(IdsOf(nodes)), maxIters)
  {
    hide *;
    var ids, order := NodeIds(nodes), SortIds(IdsOf(nodes));
    var net := Net(ids, adj, resolution);
    Setup(nodes, adj, resolution, maxIters);
    if TotalWeight(ids, adj) == 0.0 {
      c := Identity(ids);
      IdentityIs(ids);
    } else {
      c := Rounds(Visit(net), Identity(ids), order, maxIters);
      RoundsRaiseQuality(net, Identity(ids), order, maxIters);
      QIsQuality(net, c);
      QIsQuality(net, Identity(ids));
      CanonicalIs(ids, c);
    }
  }

  lemma QIsQuality(net: Net, c: Labels)
    ensures Q(net)(c) == Quality(net.ids, net.adj, net.resolution, c)
  {
  }

  /** Modularity never falls below that of the singleton partition the pass starts from. */
  lemma {:induction false} PassRaisesQuality(nodes: seq<Node>, adj: Adjacency, resolution: real, maxIters: nat)
    requires IsWorkingGraph(nodes, adj)
    ensures IsCanonical(NodeIds(nodes), PassResult(nodes, adj, resolution, maxIters))
    ensures Quality(NodeIds(nodes), adj, resolution, PassResult(nodes, adj, resolution, maxIters))
         >= Quality(NodeIds(nodes), adj, resolution, Identity(NodeIds(nodes)))
  {
    hide PassResult, IsWorkingGraph, Agreement, Bond, NodeIds, IsCanonical;
    var ids := NodeIds(nodes);
    var c := PassLabels(nodes, adj, resolution, maxIters);
    SamePartition(ids, PassResult(nodes, adj, resolution, maxIters), c, Bond(ids, adj, resolution));
  }

  /** No neighbouring community offers v more than max(0, what its own community gives). */
  ghost predicate NothingBetter(net: Net, p: Labels, v: Id) {
    var own := Gains(net, p, v)(At(p, v));
    forall k :: k in Candidates(net.adj, p, v) ==>
      Gains(net, p, v)(k) <= if own > 0.0 then own else 0.0
  }

  lemma {:induction false} GainsRenamed(net: Net, c: Labels, p: Labels, v: Id, j: Id)
    requires SameClasses(net.ids, p, c)
    requires v in net.ids && j in net.ids
    ensures Gains(net, p, v)(At(p, j)) == Gains(net, c, v)(At(c, j))
  {
    hide Sum, Bond;
    var b := Bond(net.ids, net.adj, net.resolution);
    SumEq(net.ids - {v}, PullTerm(p, b, v, At(p, j)), PullTerm(c, b, v, At(c, j)));
  }

  /** Without edges every gain is zero. */
  lemma {:induction false} NoEdgesNoGain(net: Net, p: Labels, v: Id)
    requires TotalWeight(net.ids, net.adj) == 0.0
    ensures NothingBetter(net, p, v)
  {
    hide Sum, TotalWeight;
    forall k
      ensures Gains(net, p, v)(k) == 0.0
    {
      SumZero(net.ids - {v}, PullTerm(p, Bond(net.ids, net.adj, net.resolution), v, k));
    }
  }

  /**
    With a cap no smaller than the number of labellings the pass converges: the result no
    longer depends on the cap and no node has a better neighbouring community.
  */
  lemma {:induction false} PassConverges(nodes: seq<Node>, adj: Adjacency, resolution: real, maxIters: nat, v: Id)
    requires IsWorkingGraph(nodes, adj) && v in NodeIds(nodes)
    requires maxIters >= |Labellings(NodeIds(nodes), NodeIds(nodes))|
    ensures PassResult(nodes, adj, resolution, maxIters)
         == PassResult(nodes, adj, resolution, |Labellings(NodeIds(nodes), NodeIds(nodes))|)
    ensures NothingBetter(Net(NodeIds(nodes), adj, resolution), PassResult(nodes, adj, resolution, maxIters), v)
  {
    hide *;
    var ids, order := NodeIds(nodes), SortIds(IdsOf(nodes));
    var net, p := Net(ids, adj, resolution), PassResult(nodes, adj, resolution, maxIters);
    Setup(nodes, adj, resolution, maxIters);
    Setup(nodes, adj, resolution, |Labellings(ids, ids)|);
    if TotalWeight(ids, adj) == 0.0 {
      NoEdgesNoGain(net, p, v);
    } else {
      LouvainSettles(net, Identity(ids), order, maxIters);
      var c := PassLabels(nodes, adj, resolution, maxIters);
      RenamedContent(net, c, p, v);
    }
  }

  lemma {:induction false} RenamedContent(net: Net, c: Labels, p: Labels, v: Id)
    requires Valid(net) && v in net.ids
    requires SameClasses(net.ids, p, c)
    requires Content(net, c, v)
    ensures NothingBetter(net, p, v)
  {
    hide Gains, TotalWeight, Candidates, SameClasses, Valid;
    GainsRenamed(net, c, p, v, v);
    forall k | k in Candidates(net.adj, p, v)
      ensures Gains(net, p, v)(k) <= if Gains(net, p, v)(At(p, v)) > 0.0 then Gains(net, p, v)(At(p, v)) else 0.0
    {
      var k' := RenamedCandidate(net, c, p, v, k);
    }
  }

  lemma {:induction false} RenamedCandidate(net: Net, c: Labels, p: Labels, v: Id, k: Id) returns (k': Id)
    requires Valid(net) && v in net.ids
    requires SameClasses(net.ids, p, c)
    requires k in Candidates(net.adj, p, v)
    ensures k' in Candidates(net.adj, c, v) && Gains(net, p, v)(k) == Gains(net, c, v)(k')
  {
    hide Gains, TotalWeight, SameClasses;
    if k == At(p, v) {
      GainsRenamed(net, c, p, v, v);
      k' := At(c, v);
    } else {
      var j :| j in net.adj[v] && j != v && At(p, j) == k;
      GainsRenamed(net, c, p, v, j);
      k' := At(c, j);
    }
  }
}
