/**
  Weighted undirected graphs, labellings of their nodes, and the two quantities the
  detectors improve: the weight inside communities and resolution-scaled modularity.
*/
module Modularity {
  import opened Ids
  import opened Sums

  type Adjacency = map<Id, map<Id, real>>
  type Labels = map<Id, Id>

  function Weight(adj: Adjacency, i: Id, j: Id): real {
    if i in adj && j in adj[i] then adj[i][j] else 0.0
  }

  /** What buildAdjacency and coarsen establish. */
  ghost predicate IsGraph(ids: set<Id>, adj: Adjacency) {
    && adj.Keys == ids
    && (forall i :: i in ids ==> adj[i].Keys <= ids)
    && (forall i, j :: Weight(adj, i, j) == Weight(adj, j, i))
    && (forall i, j :: Weight(adj, i, j) >= 0.0)
  }

  /** Rows hold positive entries only, as those of buildAdjacency and coarsen do. */
  ghost predicate Sparse(adj: Adjacency) {
    forall i, j :: i in adj && j in adj[i] ==> adj[i][j] > 0.0
  }

  /** Such adjacencies are determined by their nodes and weights. */
  lemma SparseUnique(a: Adjacency, b: Adjacency)
    requires Sparse(a) && Sparse(b) && a.Keys == b.Keys && forall i, j :: Weight(a, i, j) == Weight(b, i, j)
    ensures a == b
  {
    forall i | i in a
      ensures i in b && a[i] == b[i]
    {
      assert i in a.Keys;
      forall j
        ensures j in a[i] <==> j in b[i]
        ensures j in a[i] && j in b[i] ==> a[i][j] == b[i][j]
      {
        assert Weight(a, i, j) == Weight(b, i, j);
      }
      SameMap(a[i], b[i]);
    }
    SameMap(a, b);
  }

  function At(c: Labels, i: Id): Id {
    if i in c then c[i] else i
  }

  /** c labels exactly the nodes in ids, with names of nodes. */
  ghost predicate IsLabelling(ids: set<Id>, c: Labels) {
    && c.Keys == ids
    && forall i :: i in ids ==> c[i] in ids
  }

  /* ---- Sum of a symmetric bond over the pairs that share a label ---- */

  ghost function Masked(c: Labels, b: (Id, Id) -> real): (Id, Id) -> real {
    (i: Id, j: Id) => if At(c, i) == At(c, j) then b(i, j) else 0.0
  }

  ghost function Agreement(ids: set<Id>, c: Labels, b: (Id, Id) -> real): real {
    Sum2(ids, ids, Masked(c, b))
  }

  /** The bond of v, taken out of its community, to the members of community k. */
  ghost function Pull(ids: set<Id>, c: Labels, b: (Id, Id) -> real, v: Id, k: Id): real {
    Sum(ids - {v}, PullTerm(c, b, v, k))
  }

  ghost function PullTerm(c: Labels, b: (Id, Id) -> real, v: Id, k: Id): Id -> real {
    (j: Id) => if At(c, j) == k then b(v, j) else 0.0
  }

  lemma {:induction false} Isolate(ids: set<Id>, c: Labels, b: (Id, Id) -> real, v: Id)
    requires v in ids
    requires forall i, j :: i in ids && j in ids ==> b(i, j) == b(j, i)
    ensures Agreement(ids, c, b)
         == Sum2(ids - {v}, ids - {v}, Masked(c, b)) + 2.0 * Pull(ids, c, b, v, At(c, v)) + b(v, v)
  {
    hide Sum;
    var m, rest := Masked(c, b), ids - {v};
    var pull := PullTerm(c, b, v, At(c, v));
    SumRemove(ids, Row(ids, m), v);
    SumRemove(ids, Slice(m, v), v);
    SumEq(rest, Slice(m, v), pull);
    forall i | i in rest
      ensures Row(ids, m)(i) == pull(i) + Row(rest, m)(i)
    {
      SumRemove(ids, Slice(m, i), v);
    }
    SumPlus(rest, pull, Row(rest, m), Row(ids, m));
  }

  /** The label of v plays no part in the sums over the others. */
  lemma {:induction false} RestUnmoved(ids: set<Id>, c: Labels, c': Labels, b: (Id, Id) -> real, v: Id, k: Id)
    requires forall j :: j in ids - {v} ==> At(c', j) == At(c, j)
    ensures Sum2(ids - {v}, ids - {v}, Masked(c', b)) == Sum2(ids - {v}, ids - {v}, Masked(c, b))
    ensures Pull(ids, c', b, v, k) == Pull(ids, c, b, v, k)
  {
    hide Sum, Sum2;
    Sum2Eq(ids - {v}, ids - {v}, Masked(c', b), Masked(c, b));
    SumEq(ids - {v}, PullTerm(c', b, v, k), PullTerm(c, b, v, k));
  }

  /** Moving one node changes the agreement by twice the difference of the two pulls. */
  lemma {:induction false} MoveDelta(ids: set<Id>, c: Labels, b: (Id, Id) -> real, v: Id, k: Id)
    requires v in ids && v in c
    requires forall i, j :: i in ids && j in ids ==> b(i, j) == b(j, i)
    ensures Agreement(ids, c[v := k], b)
         == Agreement(ids, c, b) + 2.0 * (Pull(ids, c, b, v, k) - Pull(ids, c, b, v, c[v]))
  {
    hide Sum2, Pull, Masked, Agreement;
    Isolate(ids, c, b, v);
    Isolate(ids, c[v := k], b, v);
    RestUnmoved(ids, c, c[v := k], b, v, k);
  }

  /** Only the induced partition matters. */
  lemma {:induction false} SamePartition(ids: set<Id>, c: Labels, c': Labels, b: (Id, Id) -> real)
    requires forall i, j :: i in ids && j in ids ==> (At(c, i) == At(c, j) <==> At(c', i) == At(c', j))
    ensures Agreement(ids, c, b) == Agreement(ids, c', b)
  {
    Sum2Eq(ids, ids, Masked(c, b), Masked(c', b));
  }

  /* ---- Modularity ---- */

  ghost function Incident(adj: Adjacency, i: Id): Id -> real {
    (j: Id) => Weight(adj, i, j)
  }

  ghost function Degree(ids: set<Id>, adj: Adjacency, i: Id): real {
    Sum(ids, Incident(adj, i))
  }

  ghost function Degrees(ids: set<Id>, adj: Adjacency): Id -> real {
    (i: Id) => Degree(ids, adj, i)
  }

  /** 2m: every undirected edge counted from both ends. */
  ghost function TotalWeight(ids: set<Id>, adj: Adjacency): real {
    Sum(ids, Degrees(ids, adj))
  }

  /** The gain formula of the code: weight into a community against the null model. */
  function Gain(toComm: real, degree: real, commDegree: real, twoM: real, resolution: real): real
    requires twoM != 0.0
  {
    toComm / twoM - resolution * degree * commDegree / Product(twoM, twoM)
  }

  /** A product kept apart from its factors, so that the solver does not expand squares. */
  function Product(a: real, b: real): (p: real)
    ensures a != 0.0 && b != 0.0 ==> p != 0.0
  {
    a * b
  }

  ghost function Bond(ids: set<Id>, adj: Adjacency, resolution: real): (Id, Id) -> real {
    var twoM := TotalWeight(ids, adj);
    (i: Id, j: Id) =>
      if twoM == 0.0 then 0.0
      else Gain(Weight(adj, i, j), Degree(ids, adj, i), Degree(ids, adj, j), twoM, resolution)
  }

  /** The bond of a pair: its share of the weight, less what the degrees alone would predict. */
  lemma BondMeans(ids: set<Id>, adj: Adjacency, resolution: real, i: Id, j: Id)
    requires TotalWeight(ids, adj) != 0.0
    ensures var twoM := TotalWeight(ids, adj);
      Bond(ids, adj, resolution)(i, j)
      == Weight(adj, i, j) / twoM - resolution * Degree(ids, adj, i) * Degree(ids, adj, j) / (twoM * twoM)
  {
    hide TotalWeight, Degree;
  }

  /** The modularity of a labelling, for any resolution. */
  ghost function Quality(ids: set<Id>, adj: Adjacency, resolution: real, c: Labels): real {
    Agreement(ids, c, Bond(ids, adj, resolution))
  }

  lemma GainAdditive(a: real, a': real, d: real, s: real, s': real, twoM: real, resolution: real)
    requires twoM != 0.0
    ensures Gain(a + a', d, s + s', twoM, resolution)
         == Gain(a, d, s, twoM, resolution) + Gain(a', d, s', twoM, resolution)
  {
    var k, square := resolution * d, Product(twoM, twoM);
    Distribute(k, s, s');
    SplitQuotient(a, a', twoM);
    SplitQuotient(k * s, k * s', square);
  }

  lemma SplitQuotient(a: real, b: real, m: real)
    requires m != 0.0
    ensures (a + b) / m == a / m + b / m
  {
  }

  lemma GainZero(d: real, twoM: real, resolution: real)
    requires twoM != 0.0
    ensures Gain(0.0, d, 0.0, twoM, resolution) == 0.0
  {
  }

  lemma {:induction false} GainAdditiveLeft(a: real, a': real, d: real, d': real, s: real, twoM: real, resolution: real)
    requires twoM != 0.0
    ensures Gain(a + a', d + d', s, twoM, resolution)
         == Gain(a, d, s, twoM, resolution) + Gain(a', d', s, twoM, resolution)
  {
    hide Gain;
    GainSymmetric(a + a', d + d', s, twoM, resolution);
    GainSymmetric(a, d, s, twoM, resolution);
    GainSymmetric(a', d', s, twoM, resolution);
    GainAdditive(a, a', s, d, d', twoM, resolution);
  }

  lemma GainSymmetric(w: real, d: real, d': real, twoM: real, resolution: real)
    requires twoM != 0.0
    ensures Gain(w, d, d', twoM, resolution) == Gain(w, d', d, twoM, resolution)
  {
    assert resolution * d * d' == resolution * d' * d;
  }

  lemma BondSymmetric(ids: set<Id>, adj: Adjacency, resolution: real)
    requires IsGraph(ids, adj)
    ensures forall i, j :: Bond(ids, adj, resolution)(i, j) == Bond(ids, adj, resolution)(j, i)
  {
    forall i, j
      ensures Bond(ids, adj, resolution)(i, j) == Bond(ids, adj, resolution)(j, i)
    {
      var twoM := TotalWeight(ids, adj);
      if twoM != 0.0 {
        GainSymmetric(Weight(adj, i, j), Degree(ids, adj, i), Degree(ids, adj, j), twoM, resolution);
      }
    }
  }

  /** Members of community k: f where the label is k, zero elsewhere. */
  ghost function In(c: Labels, k: Id, f: Id -> real): Id -> real {
    (j: Id) => if At(c, j) == k then f(j) else 0.0
  }

  /** The gain the code computes from two sums is the pull of the community. */
  lemma {:induction false} GainIsPull(s: set<Id>, ids: set<Id>, adj: Adjacency, resolution: real,
                                      c: Labels, v: Id, k: Id)
    requires TotalWeight(ids, adj) != 0.0
    ensures Sum(s, PullTerm(c, Bond(ids, adj, resolution), v, k))
         == Gain(Sum(s, In(c, k, Incident(adj, v))), Degree(ids, adj, v),
                 Sum(s, In(c, k, Degrees(ids, adj))), TotalWeight(ids, adj), resolution)
    decreases s
  {
    hide Degree, TotalWeight;
    var d, twoM := Degree(ids, adj, v), TotalWeight(ids, adj);
    if s == {} {
      GainZero(d, twoM, resolution);
    } else {
      var x := Pick(s);
      var a, k' := In(c, k, Incident(adj, v)), In(c, k, Degrees(ids, adj));
      GainIsPull(s - {x}, ids, adj, resolution, c, v, k);
      GainAdditive(a(x), Sum(s - {x}, a), d, k'(x), Sum(s - {x}, k'), twoM, resolution);
      GainZero(d, twoM, resolution);
    }
  }
}
