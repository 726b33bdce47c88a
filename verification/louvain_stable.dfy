/** What a Louvain pass leaves stable, whatever its cap. */
module LouvainStable {
  import opened Ids
  import opened Sums
  import opened Modularity
  import opened Sorting
  import opened Sweeps
  import opened LouvainMoves
  import opened LouvainPass
  import opened LouvainPassProperties

  /* ---- A pass that leaves all nodes apart ---- */

  lemma NotLower(ids: set<Id>, c: Labels, i: Id)
    requires IsLabelling(ids, c) && SameClasses(ids, Identity(ids), c) && i in ids && c[i] <= i
    requires forall j :: j in ids && j < i ==> c[j] == j
    ensures c[i] == i
  {
    var j := c[i];
    assert At(Identity(ids), j) == At(Identity(ids), i) <==> At(c, j) == At(c, i);
  }

  /** An injective renaming that raises no key is the identity. */
  lemma {:induction false} NoneLower(ids: set<Id>, c: Labels)
    requires IsLabelling(ids, c) && SameClasses(ids, Identity(ids), c) && forall i :: i in ids ==> c[i] <= i
    ensures c == Identity(ids)
  {
    var lower := set i | i in ids && c[i] < i;
    if lower != {} {
      var i := Least(lower);
      forall j | j in ids && j < i
        ensures c[j] == j
      {
        assert j !in lower;
      }
      NotLower(ids, c, i);
      assert false;
    }
    forall i | i in ids
      ensures c[i] == i
    {
      assert i !in lower;
    }
    SameMap(c, Identity(ids));
  }

  lemma NotBelow(ids: set<Id>, c: Labels)
    requires IsLabelling(ids, c) && SameClasses(ids, Identity(ids), c)
    ensures !Below(ids, c, Identity(ids))
  {
    if Below(ids, c, Identity(ids)) {
      NoneLower(ids, c);
      assert false;
    }
  }

  /** A pass with a sweep at least that leaves all nodes apart has moved none, so every node is content apart. */
  lemma {:induction false} ApartContent(nodes: seq<Node>, adj: Adjacency, resolution: real, n: nat, v: Id)
    requires IsWorkingGraph(nodes, adj) && n >= 1 && v in NodeIds(nodes) && TotalWeight(NodeIds(nodes), adj) != 0.0
    requires PassResult(nodes, adj, resolution, n) == Identity(NodeIds(nodes))
    ensures Content(Net(NodeIds(nodes), adj, resolution), Identity(NodeIds(nodes)), v)
  {
    hide *;
    var ids, order := NodeIds(nodes), SortIds(IdsOf(nodes));
    var net := Net(ids, adj, resolution);
    Setup(nodes, adj, resolution, n);
    var c := PassLabels(nodes, adj, resolution, n);
    VisitsImprove(net);
    RoundsImprove(ids, Visit(net), Better(ids, Q(net)), Identity(ids), order, 0, n);
    NotBetter(net, c);
    assert c == Identity(ids) by {
      NeverBetter(net, c);
    }
    BackSettled(ids, Visit(net), Better(ids, Q(net)), Identity(ids), order, n);
    SettledContent(net, Identity(ids), v);
  }

  lemma NotBetter(net: Net, c: Labels)
    requires IsLabelling(net.ids, c) && SameClasses(net.ids, Identity(net.ids), c)
    ensures !Better(net.ids, Q(net))(c, Identity(net.ids))
  {
    hide Agreement, Bond;
    SamePartition(net.ids, Identity(net.ids), c, Bond(net.ids, net.adj, net.resolution));
    NotBelow(net.ids, c);
  }

  lemma NeverBetter(net: Net, c: Labels)
    requires SameOrBetter(Better(net.ids, Q(net)), c, Identity(net.ids))
    requires !Better(net.ids, Q(net))(c, Identity(net.ids))
    ensures c == Identity(net.ids)
  {
  }

  lemma SettledContent(net: Net, c: Labels, v: Id)
    requires Settled(net.ids, Visit(net), c) && IsLabelling(net.ids, c) && v in net.ids
    ensures Content(net, c, v)
  {
    hide Choice, Content;
    assert Visit(net)(c, v) == c;
    assert c[v := Choice(net, c, v)][v] == c[v];
    StaysIffContent(net, c, v);
  }

  /* ---- What contentment means for pairs ---- */

  lemma NullModel(resolution: real, d: real, e: real, twoM: real)
    requires resolution >= 0.0 && d >= 0.0 && e >= 0.0 && twoM != 0.0
    ensures Gain(0.0, d, e, twoM, resolution) <= 0.0
  {
    var a, b := resolution * d * e, Product(twoM, twoM);
    assert a >= 0.0 && b > 0.0;
    assert a / b >= 0.0;
  }

  lemma DegreesNonNegative(ids: set<Id>, adj: Adjacency, i: Id)
    requires IsGraph(ids, adj)
    ensures Degree(ids, adj, i) >= 0.0
  {
    SumNonNegative(ids, Incident(adj, i));
  }

  /** Among singletons a node pulls with its bond, and its own community not at all. */
  lemma {:induction false} PullsApart(ids: set<Id>, bond: (Id, Id) -> real, v: Id, k: Id)
    requires v in ids && k in ids && v != k
    ensures Pull(ids, Identity(ids), bond, v, k) == bond(v, k)
    ensures Pull(ids, Identity(ids), bond, v, v) == 0.0
  {
    hide Sum;
    forall y | y in ids - {v}
      ensures PullTerm(Identity(ids), bond, v, v)(y) == 0.0
      ensures PullTerm(Identity(ids), bond, v, k)(y) == if y == k then bond(v, k) else 0.0
    {
      assert At(Identity(ids), y) == y;
    }
    SumPoint(ids - {v}, PullTerm(Identity(ids), bond, v, k), k);
    SumZero(ids - {v}, PullTerm(Identity(ids), bond, v, v));
  }

  /** When all nodes are content apart no two of them gain from each other. */
  lemma {:induction false} ApartNoGain(net: Net, v: Id, k: Id)
    requires Valid(net) && net.resolution >= 0.0 && v in net.ids && k in net.ids && v != k
    requires Content(net, Identity(net.ids), v)
    ensures Bond(net.ids, net.adj, net.resolution)(v, k) <= 0.0
  {
    hide Sum, TotalWeight, Degree;
    var c, bond := Identity(net.ids), Bond(net.ids, net.adj, net.resolution);
    if k in net.adj[v] {
      assert At(c, k) == k && k in Candidates(net.adj, c, v);
      PullsApart(net.ids, bond, v, k);
      assert Gains(net, c, v)(k) == bond(v, k) && Gains(net, c, v)(v) == 0.0;
    } else {
      DegreesNonNegative(net.ids, net.adj, v);
      DegreesNonNegative(net.ids, net.adj, k);
      NullModel(net.resolution, Degree(net.ids, net.adj, v), Degree(net.ids, net.adj, k),
                TotalWeight(net.ids, net.adj));
    }
  }

  /** Putting a into b changes the modularity of the singletons by twice their bond. */
  lemma {:induction false} PairDelta(ids: set<Id>, adj: Adjacency, resolution: real, a: Id, b: Id)
    requires IsGraph(ids, adj) && a in ids && b in ids && a != b
    ensures Quality(ids, adj, resolution, Identity(ids)[a := b])
         == Quality(ids, adj, resolution, Identity(ids)) + 2.0 * Bond(ids, adj, resolution)(a, b)
  {
    hide Sum, Bond, Agreement, IsGraph;
    var c, bond := Identity(ids), Bond(ids, adj, resolution);
    BondSymmetric(ids, adj, resolution);
    MoveDelta(ids, c, bond, a, b);
    PullsApart(ids, bond, a, b);
  }

  /** A pass with a sweep at least that leaves all nodes apart leaves no two whose merger would raise modularity. */
  lemma {:induction false} ApartIsStable(nodes: seq<Node>, adj: Adjacency, resolution: real, n: nat, a: Id, b: Id)
    requires IsWorkingGraph(nodes, adj) && n >= 1 && resolution >= 0.0
    requires PassResult(nodes, adj, resolution, n) == Identity(NodeIds(nodes))
    requires a in NodeIds(nodes) && b in NodeIds(nodes) && a != b
    ensures Quality(NodeIds(nodes), adj, resolution, Identity(NodeIds(nodes))[a := b])
         <= Quality(NodeIds(nodes), adj, resolution, Identity(NodeIds(nodes)))
  {
    hide *;
    var ids := NodeIds(nodes);
    GraphOf(nodes, adj);
    PairDelta(ids, adj, resolution, a, b);
    if TotalWeight(ids, adj) == 0.0 {
      NoBond(ids, adj, resolution, a, b);
    } else {
      ApartContent(nodes, adj, resolution, n, a);
      Setup(nodes, adj, resolution, n);
      ApartNoGain(Net(ids, adj, resolution), a, b);
    }
  }

  lemma GraphOf(nodes: seq<Node>, adj: Adjacency)
    requires IsWorkingGraph(nodes, adj)
    ensures IsGraph(NodeIds(nodes), adj)
  {
  }

  lemma NoBond(ids: set<Id>, adj: Adjacency, resolution: real, a: Id, b: Id)
    requires TotalWeight(ids, adj) == 0.0
    ensures Bond(ids, adj, resolution)(a, b) == 0.0
  {
  }

  /* ---- Settled, or at work to the last ---- */

  /** Where n sweeps, each an improvement, lead from the singletons to the classes of p. */
  ghost predicate Climbed(net: Net, p: Labels, n: nat) {
    exists c :: SameClasses(net.ids, p, c) && ClimbsTo(Better(net.ids, Q(net)), Identity(net.ids), c, n)
  }

  /**
    A pass under a cap of n ends where no node has a better neighbouring community, or has
    improved modularity n times.
  */
  lemma {:induction false} PassSettledOrClimbed(nodes: seq<Node>, adj: Adjacency, resolution: real, n: nat)
    requires IsWorkingGraph(nodes, adj)
    ensures var net, p := Net(NodeIds(nodes), adj, resolution), PassResult(nodes, adj, resolution, n);
      (forall v :: v in net.ids ==> NothingBetter(net, p, v)) || Climbed(net, p, n)
  {
    hide *;
    var ids, order := NodeIds(nodes), SortIds(IdsOf(nodes));
    var net, p := Net(ids, adj, resolution), PassResult(nodes, adj, resolution, n);
    Setup(nodes, adj, resolution, n);
    if TotalWeight(ids, adj) == 0.0 {
      forall v | v in net.ids
        ensures NothingBetter(net, p, v)
      {
        NoEdgesNoGain(net, p, v);
      }
    } else {
      var c := PassLabels(nodes, adj, resolution, n);
      VisitsImprove(net);
      SettledOrClimbs(ids, Visit(net), Better(ids, Q(net)), Identity(ids), order, n);
      if Settled(ids, Visit(net), c) {
        forall v | v in net.ids
          ensures NothingBetter(net, p, v)
        {
          SettledContent(net, c, v);
          RenamedContent(net, c, p, v);
        }
      } else {
        ClimbedTo(net, p, c, n);
      }
    }
  }

  lemma ClimbedTo(net: Net, p: Labels, c: Labels, n: nat)
    requires SameClasses(net.ids, p, c) && ClimbsTo(Better(net.ids, Q(net)), Identity(net.ids), c, n)
    ensures Climbed(net, p, n)
  {
  }
}
