/** The label-propagation detector: its moves, its potential, and its stopping point. */
module LabelPropagation {
  import opened Ids
  import opened Sums
  import opened Sorting
  import opened Modularity
  import opened Sweeps
  import opened Coarsening
  import opened Graphs
  import opened LouvainPass
  import opened Communities

  const LABEL_PROPAGATION_MAX_ITERS: nat := 100

  /** Length of the common prefix of two identifiers, which the ranks do not record. */
  type Affinity = (Id, Id) -> nat

  /** Weight of v's edges into label l. */
  ghost function LabelWeight(adj: Adjacency, c: Labels, v: Id): Id -> real {
    (l: Id) => if v in adj then Sum(adj[v].Keys, In(c, l, Incident(adj, v))) else 0.0
  }

  /** The labels carried by v's neighbours. */
  ghost function NeighbourLabels(adj: Adjacency, c: Labels, v: Id): set<Id> {
    if v in adj then set j | j in adj[v] :: At(c, j) else {}
  }

  /** No neighbouring label carries more incident weight than l. */
  ghost predicate IsDominant(labels: set<Id>, weight: Id -> real, l: Id) {
    forall k :: k in labels ==> weight(k) <= weight(l)
  }

  /** Among the labels: the heaviest, of those the one nearest to cur, of those the lowest. */
  ghost predicate IsPreferred(labels: set<Id>, weight: Id -> real, near: Affinity, cur: Id, best: Id) {
    && best in labels
    && forall k :: k in labels ==>
      || weight(k) < weight(best)
      || (weight(k) == weight(best) && near(k, cur) < near(best, cur))
      || (weight(k) == weight(best) && near(k, cur) == near(best, cur) && best <= k)
  }

  ghost function Preferred(labels: set<Id>, weight: Id -> real, near: Affinity, cur: Id): (best: Id)
    requires labels != {}
    ensures IsPreferred(labels, weight, near, cur, best)
    decreases labels
  {
    var x := Pick(labels);
    var rest := labels - {x};
    assert forall y :: y in labels ==> y == x || y in rest;
    if rest == {} then x
    else
      var b := Preferred(rest, weight, near, cur);
      if weight(b) < weight(x) || (weight(b) == weight(x) && near(b, cur) < near(x, cur))
         || (weight(b) == weight(x) && near(b, cur) == near(x, cur) && x < b)
      then x else b
  }

  lemma PreferredUnique(labels: set<Id>, weight: Id -> real, near: Affinity, cur: Id, a: Id, b: Id)
    requires IsPreferred(labels, weight, near, cur, a) && IsPreferred(labels, weight, near, cur, b)
    ensures a == b
  {
  }

  /** The label v takes: its own without neighbours or when it is dominant, else the preferred one. */
  ghost function Adopted(adj: Adjacency, near: Affinity, c: Labels, v: Id): Id {
    var labels, weight := NeighbourLabels(adj, c, v), LabelWeight(adj, c, v);
    if labels == {} || IsDominant(labels, weight, At(c, v)) then At(c, v)
    else Preferred(labels, weight, near, At(c, v))
  }

  ghost function Visit(adj: Adjacency, near: Affinity): Rule {
    (c: Labels, v: Id) => c[v := Adopted(adj, near, c, v)]
  }

  /* ---- The potential ---- */

  /** Total weight of edges whose ends share a label, each edge counted from both ends. */
  ghost function SharedWeight(ids: set<Id>, adj: Adjacency): Labels -> real {
    (c: Labels) => Agreement(ids, c, Weights(adj))
  }

  ghost function Higher(q: Labels -> real): Order {
    (c: Labels, d: Labels) => q(c) > q(d)
  }

  ghost predicate NoLoops(adj: Adjacency) {
    forall i :: Weight(adj, i, i) == 0.0
  }

  /** What an isolated node would gain from label l is the weight of its edges into l. */
  lemma {:induction false} PullIsLabelWeight(ids: set<Id>, adj: Adjacency, c: Labels, v: Id, l: Id)
    requires IsGraph(ids, adj) && NoLoops(adj) && v in ids
    ensures Pull(ids, c, Weights(adj), v, l) == LabelWeight(adj, c, v)(l)
  {
    hide Sum;
    var f, g := PullTerm(c, Weights(adj), v, l), In(c, l, Incident(adj, v));
    SumRemove(ids, g, v);
    SumEq(ids - {v}, f, g);
    SumSubset(ids, adj[v].Keys, g);
  }

  /** Every move strictly raises the shared weight. */
  lemma {:induction false} MoveRaisesShared(ids: set<Id>, adj: Adjacency, near: Affinity, c: Labels, v: Id)
    requires IsGraph(ids, adj) && NoLoops(adj) && IsLabelling(ids, c) && v in ids
    requires Adopted(adj, near, c, v) != c[v]
    ensures SharedWeight(ids, adj)(c[v := Adopted(adj, near, c, v)]) > SharedWeight(ids, adj)(c)
    ensures Adopted(adj, near, c, v) in ids
  {
    hide Pull, LabelWeight, Agreement, NoLoops, NeighbourLabels;
    var best, labels, weight := Adopted(adj, near, c, v), NeighbourLabels(adj, c, v), LabelWeight(adj, c, v);
    assert IsPreferred(labels, weight, near, At(c, v), best);
    var k :| k in labels && weight(k) > weight(At(c, v));
    MoveDelta(ids, c, Weights(adj), v, best);
    PullIsLabelWeight(ids, adj, c, v, best);
    PullIsLabelWeight(ids, adj, c, v, c[v]);
    NeighbourLabelsIn(ids, adj, c, v);
  }

  lemma NeighbourLabelsIn(ids: set<Id>, adj: Adjacency, c: Labels, v: Id)
    requires IsGraph(ids, adj) && IsLabelling(ids, c)
    ensures NeighbourLabels(adj, c, v) <= ids
  {
  }

  lemma {:induction false} PropagationImproves(ids: set<Id>, adj: Adjacency, near: Affinity)
    requires IsGraph(ids, adj) && NoLoops(adj)
    ensures Improving(ids, Visit(adj, near), Higher(SharedWeight(ids, adj)))
  {
    hide SharedWeight, Adopted, IsGraph, NoLoops;
    forall c, v | IsLabelling(ids, c) && v in ids
      ensures IsLabelling(ids, Visit(adj, near)(c, v))
      ensures Visit(adj, near)(c, v) == c || Higher(SharedWeight(ids, adj))(Visit(adj, near)(c, v), c)
    {
      var best := Adopted(adj, near, c, v);
      if best == c[v] {
        assert c[v := best] == c;
      } else {
        MoveRaisesShared(ids, adj, near, c, v);
      }
    }
    HigherIsStrict(SharedWeight(ids, adj));
  }

  lemma HigherIsStrict(q: Labels -> real)
    ensures StrictOrder(Higher(q))
  {
  }

  /**
    Propagation settles within a bounded number of sweeps, and then every entity with
    neighbours carries a label of maximal incident weight.
  */
  lemma {:induction false} PropagationSettles(ids: set<Id>, adj: Adjacency, near: Affinity, c: Labels, order: seq<Id>,
                                              n: nat, v: Id)
    requires IsGraph(ids, adj) && NoLoops(adj) && IsLabelling(ids, c) && Covers(order, ids) && v in ids
    requires n >= |Labellings(ids, ids)|
    ensures var d := Rounds(Visit(adj, near), c, order, n);
      NeighbourLabels(adj, d, v) == {} || IsDominant(NeighbourLabels(adj, d, v), LabelWeight(adj, d, v), At(d, v))
    ensures Rounds(Visit(adj, near), c, order, n) == Rounds(Visit(adj, near), c, order, |Labellings(ids, ids)|)
  {
    hide SharedWeight, LabelWeight, IsGraph, NoLoops, Rounds, Labellings, NeighbourLabels, Improving, Higher;
    PropagationImproves(ids, adj, near);
    SweepsTerminate(ids, Visit(adj, near), Higher(SharedWeight(ids, adj)), c, order, n);
    RoundsImprove(ids, Visit(adj, near), Higher(SharedWeight(ids, adj)), c, order, 0, n);
    var d := Rounds(Visit(adj, near), c, order, n);
    assert Visit(adj, near)(d, v) == d[v := Adopted(adj, near, d, v)];
    StaysDominant(adj, near, d, v);
  }

  /** Keeping one's label is the same as its being dominant. */
  lemma StaysDominant(adj: Adjacency, near: Affinity, c: Labels, v: Id)
    ensures Adopted(adj, near, c, v) == At(c, v) <==>
      NeighbourLabels(adj, c, v) == {} || IsDominant(NeighbourLabels(adj, c, v), LabelWeight(adj, c, v), At(c, v))
  {
    hide LabelWeight, NeighbourLabels;
  }

  /* ---- The code ---- */

  /** weightByLabel after the neighbours in done. */
  ghost predicate Weighed(done: set<Id>, c: Labels, f: Id -> real, weightByLabel: map<Id, real>) {
    && (forall l :: Get(weightByLabel, l) == Sum(done, In(c, l, f)))
    && (forall l :: l in weightByLabel <==> Carried(done, c, l))
  }

  ghost predicate Carried(done: set<Id>, c: Labels, l: Id) {
    exists j :: j in done && At(c, j) == l
  }

  lemma WeighedNone(c: Labels, f: Id -> real)
    ensures Weighed({}, c, f, map[])
  {
  }

  lemma {:induction false} WeighedStep(done: set<Id>, nbr: Id, c: Labels, f: Id -> real, weightByLabel: map<Id, real>)
    requires Weighed(done, c, f, weightByLabel) && nbr !in done
    ensures Weighed(done + {nbr}, c, f, weightByLabel[At(c, nbr) := Get(weightByLabel, At(c, nbr)) + f(nbr)])
  {
    hide Sum;
    var l0 := At(c, nbr);
    var next := weightByLabel[l0 := Get(weightByLabel, l0) + f(nbr)];
    forall l
      ensures Get(next, l) == Sum(done + {nbr}, In(c, l, f))
      ensures l in next <==> Carried(done + {nbr}, c, l)
    {
      SumAdd1(done, In(c, l, f), nbr);
      if l == l0 {
        assert nbr in done + {nbr};
      }
    }
  }

  lemma {:induction false} WeighedAll(ids: set<Id>, adj: Adjacency, c: Labels, v: Id, weightByLabel: map<Id, real>)
    requires IsGraph(ids, adj) && v in ids && Weighed(adj[v].Keys, c, Incident(adj, v), weightByLabel)
    ensures forall l :: Get(weightByLabel, l) == LabelWeight(adj, c, v)(l) >= 0.0
    ensures weightByLabel.Keys == NeighbourLabels(adj, c, v)
  {
    hide Sum;
    forall l
      ensures Get(weightByLabel, l) == LabelWeight(adj, c, v)(l) >= 0.0
    {
      SumNonNegative(adj[v].Keys, In(c, l, Incident(adj, v)));
    }
    forall l
      ensures l in weightByLabel.Keys <==> l in NeighbourLabels(adj, c, v)
    {
      assert l in weightByLabel <==> Carried(adj[v].Keys, c, l);
    }
    SameSet(weightByLabel.Keys, NeighbourLabels(adj, c, v));
  }

  method WeightByLabel(ghost ids: set<Id>, adj: Adjacency, c: Labels, v: Id) returns (weightByLabel: map<Id, real>)
    requires IsGraph(ids, adj) && IsLabelling(ids, c) && v in ids
    ensures forall l :: Get(weightByLabel, l) == LabelWeight(adj, c, v)(l) >= 0.0
    ensures weightByLabel.Keys == NeighbourLabels(adj, c, v)
  {
    hide Weighed, LabelWeight, NeighbourLabels;
    weightByLabel := map[];
    var todo := adj[v].Keys;
    ghost var done: set<Id> := {};
    WeighedNone(c, Incident(adj, v));
    while todo != {}
      invariant todo !! done && todo + done == adj[v].Keys
      invariant Weighed(done, c, Incident(adj, v), weightByLabel)
    {
      var nbr := Next(todo);
      WeighedStep(done, nbr, c, Incident(adj, v), weightByLabel);
      weightByLabel := weightByLabel[c[nbr] := Get(weightByLabel, c[nbr]) + adj[v][nbr]];
      todo, done := todo - {nbr}, done + {nbr};
    }
    assert done == adj[v].Keys;
    WeighedAll(ids, adj, c, v, weightByLabel);
  }

  /** The highest incident weight over any single label. */
  method MaxWeight(labels: seq<Id>, weightByLabel: map<Id, real>) returns (maxW: real)
    requires labels != [] && forall l :: l in labels <==> l in weightByLabel
    ensures forall l :: l in weightByLabel ==> weightByLabel[l] <= maxW
    ensures exists l :: l in weightByLabel && weightByLabel[l] == maxW
  {
    maxW := Get(weightByLabel, labels[0]);
    ghost var top := labels[0];
    assert top in labels;
    for i := 1 to |labels|
      invariant forall j :: 0 <= j < i ==> Get(weightByLabel, labels[j]) <= maxW
      invariant top in weightByLabel && weightByLabel[top] == maxW
    {
      assert labels[i] in labels;
      if Get(weightByLabel, labels[i]) > maxW {
        maxW, top := Get(weightByLabel, labels[i]), labels[i];
      }
    }
    forall l | l in weightByLabel
      ensures weightByLabel[l] <= maxW
    {
      assert l in labels;
    }
  }

  /** The first label, in ascending order, of greatest affinity among those of weight maxW. */
  method NearestMaximal(labels: seq<Id>, weightByLabel: map<Id, real>, near: Affinity, cur: Id, maxW: real)
    returns (best: Id)
    requires Sorted(labels) && forall l :: l in labels <==> l in weightByLabel
    requires exists l :: l in weightByLabel && weightByLabel[l] == maxW
    ensures best in weightByLabel && weightByLabel[best] == maxW
    ensures forall l :: l in weightByLabel && weightByLabel[l] == maxW ==>
      near(l, cur) < near(best, cur) || (near(l, cur) == near(best, cur) && best <= l)
  {
    best := EMPTY_ID;
    var bestPrefix: int := -1;
    for i := 0 to |labels|
      invariant bestPrefix >= -1
      invariant bestPrefix >= 0 ==>
        best in labels[..i] && Get(weightByLabel, best) == maxW && near(best, cur) == bestPrefix
      invariant forall j :: 0 <= j < i && Get(weightByLabel, labels[j]) == maxW ==>
        near(labels[j], cur) < bestPrefix || (near(labels[j], cur) == bestPrefix && best <= labels[j])
    {
      if Get(weightByLabel, labels[i]) == maxW {
        var p := near(labels[i], cur);
        if p > bestPrefix {
          best, bestPrefix := labels[i], p;
        }
      }
    }
    assert labels[..|labels|] == labels;
    forall l | l in weightByLabel && weightByLabel[l] == maxW
      ensures near(l, cur) < bestPrefix || (near(l, cur) == bestPrefix && best <= l)
    {
      assert l in labels;
      var j :| 0 <= j < |labels| && labels[j] == l;
    }
  }

  ghost function Table(weightByLabel: map<Id, real>): Id -> real {
    (l: Id) => Get(weightByLabel, l)
  }

  /** The scans over the sorted labels: the maximum, then the nearest maximal label. */
  method ScanLabels(labels: seq<Id>, weightByLabel: map<Id, real>, near: Affinity, cur: Id) returns (best: Id)
    requires labels != [] && Sorted(labels) && forall l :: l in labels <==> l in weightByLabel
    requires forall l :: Get(weightByLabel, l) >= 0.0
    ensures if IsDominant(weightByLabel.Keys, Table(weightByLabel), cur) then best == cur
      else IsPreferred(weightByLabel.Keys, Table(weightByLabel), near, cur, best)
  {
    hide Sorted;
    var maxW := MaxWeight(labels, weightByLabel);
    var top :| top in weightByLabel && weightByLabel[top] == maxW;
    if Get(weightByLabel, cur) == maxW {
      return cur;
    }
    best := NearestMaximal(labels, weightByLabel, near, cur, maxW);
    assert Table(weightByLabel)(top) > Table(weightByLabel)(cur) by {
      assert Get(weightByLabel, top) == maxW;
    }
  }

  /** The label a node should adopt; ok is false when it has no neighbours. */
  method DominantNeighborLabel(ghost ids: set<Id>, adj: Adjacency, near: Affinity, c: Labels, v: Id)
    returns (best: Id, ok: bool)
    requires IsGraph(ids, adj) && IsLabelling(ids, c) && v in ids
    ensures ok <==> NeighbourLabels(adj, c, v) != {}
    ensures ok ==> best == Adopted(adj, near, c, v)
  {
    hide LabelWeight, NeighbourLabels, IsGraph, Sorted;
    var weightByLabel := WeightByLabel(ids, adj, c, v);
    if weightByLabel.Keys == {} {
      return EMPTY_ID, false;
    }
    var labels := Drain(weightByLabel.Keys);
    var some := Next(weightByLabel.Keys);
    assert some in SortIds(labels);
    best := ScanLabels(SortIds(labels), weightByLabel, near, c[v]);
    ok := true;
    ScannedIsAdopted(adj, near, c, v, weightByLabel, best);
  }

  lemma ScannedIsAdopted(adj: Adjacency, near: Affinity, c: Labels, v: Id, weightByLabel: map<Id, real>, best: Id)
    requires v in c && weightByLabel.Keys == NeighbourLabels(adj, c, v) != {}
    requires forall l :: Get(weightByLabel, l) == LabelWeight(adj, c, v)(l)
    requires if IsDominant(weightByLabel.Keys, Table(weightByLabel), c[v]) then best == c[v]
      else IsPreferred(weightByLabel.Keys, Table(weightByLabel), near, c[v], best)
    ensures best == Adopted(adj, near, c, v)
  {
    hide LabelWeight, NeighbourLabels;
    var labels, weight := NeighbourLabels(adj, c, v), LabelWeight(adj, c, v);
    assert forall l :: Table(weightByLabel)(l) == weight(l);
    if !IsDominant(labels, weight, c[v]) {
      PreferredUnique(labels, weight, near, c[v], best, Preferred(labels, weight, near, c[v]));
    }
  }

  /** Sweeps over the sorted entities until nothing moves or the cap is reached. */
  method Propagate(ids: seq<Id>, ghost ents: set<Id>, adj: Adjacency, near: Affinity, maxIters: nat)
    returns (labels: Labels)
    requires IsGraph(ents, adj) && NoLoops(adj) && Covers(ids, ents)
    ensures IsLabelling(ents, labels)
    ensures labels == Rounds(Visit(adj, near), Identity(ents), ids, maxIters)
  {
    hide IsGraph, NoLoops, Adopted, NeighbourLabels, SharedWeight, Improving;
    var start := map id | id in ids :: id;
    forall id
      ensures id in start <==> id in Identity(ents)
      ensures id in start ==> start[id] == Identity(ents)[id]
    {
    }
    SameMap(start, Identity(ents));
    labels := start;
    PropagationImproves(ents, adj, near);
    var iter, moved := 0, true;
    while iter < maxIters && moved
      invariant iter <= maxIters && IsLabelling(ents, labels)
      invariant labels == Rounds(Visit(adj, near), Identity(ents), ids, iter)
      invariant !moved ==> iter > 0 && Rounds(Visit(adj, near), Identity(ents), ids, iter - 1) == labels
    {
      NextRound(Visit(adj, near), Identity(ents), ids, iter);
      labels, moved := PropagateOnce(ids, ents, adj, near, labels);
      iter := iter + 1;
    }
    if !moved {
      FixpointPersists(Visit(adj, near), Identity(ents), ids, iter - 1, maxIters);
    }
  }

  method VisitEntity(ghost ents: set<Id>, adj: Adjacency, near: Affinity, labels0: Labels, id: Id)
    returns (labels: Labels, moved: bool)
    requires IsGraph(ents, adj) && IsLabelling(ents, labels0) && id in ents
    ensures labels == Visit(adj, near)(labels0, id)
    ensures moved <==> labels != labels0
  {
    hide IsGraph, NeighbourLabels, LabelWeight;
    var best, ok := DominantNeighborLabel(ents, adj, near, labels0, id);
    labels, moved := labels0, false;
    assert labels0[id := labels0[id]] == labels0;
    if ok && best != labels0[id] {
      labels, moved := labels0[id := best], true;
      assert labels[id] != labels0[id];
    }
  }

  method PropagateOnce(ids: seq<Id>, ghost ents: set<Id>, adj: Adjacency, near: Affinity, labels0: Labels)
    returns (labels: Labels, moved: bool)
    requires IsGraph(ents, adj) && NoLoops(adj) && Covers(ids, ents) && IsLabelling(ents, labels0)
    ensures labels == Sweep(Visit(adj, near), labels0, ids, |ids|) && IsLabelling(ents, labels)
    ensures !moved ==> labels == labels0
  {
    hide IsGraph, NoLoops, Visit, SharedWeight, Improving, IsLabelling;
    labels, moved := labels0, false;
    for n := 0 to |ids|
      invariant labels == Sweep(Visit(adj, near), labels0, ids, n) && IsLabelling(ents, labels)
      invariant !moved ==> labels == labels0
    {
      VisitKeepsLabels(ents, adj, near, labels, ids[n]);
      var movedNow;
      labels, movedNow := VisitEntity(ents, adj, near, labels, ids[n]);
      moved := moved || movedNow;
    }
  }

  lemma VisitKeepsLabels(ents: set<Id>, adj: Adjacency, near: Affinity, c: Labels, v: Id)
    requires IsGraph(ents, adj) && NoLoops(adj) && IsLabelling(ents, c) && v in ents
    ensures IsLabelling(ents, Visit(adj, near)(c, v))
  {
    hide IsGraph, NoLoops, Visit, SharedWeight, IsLabelling;
    PropagationImproves(ents, adj, near);
  }

  /** The communities of the labels that propagation from singletons ends with. */
  ghost predicate IsPropagation(g: Graph, near: Affinity, adj: Adjacency, labels: Labels, comms: seq<Community>) {
    && IsLevel(comms, labels, 0, g.relations) && (forall c :: c in comms ==> c.parent.None?)
    && labels == Rounds(Visit(adj, near), Identity(EntitySet(g)), SortIds(EntityIds(g)), LABEL_PROPAGATION_MAX_ITERS)
  }

  /**
    Every entity with neighbours carries a label of maximal incident weight, or else a
    hundred sweeps have each raised the weight of the edges whose ends share a label.
  */
  ghost predicate DominantOrClimbed(ents: set<Id>, adj: Adjacency, labels: Labels) {
    (forall v :: v in ents ==>
      NeighbourLabels(adj, labels, v) == {} ||
      IsDominant(NeighbourLabels(adj, labels, v), LabelWeight(adj, labels, v), At(labels, v)))
    || ClimbsTo(Higher(SharedWeight(ents, adj)), Identity(ents), labels, 100)
  }

  lemma SingletonLabels(ents: set<Id>)
    ensures IsLabelling(ents, Identity(ents))
  {
  }

  lemma {:induction false} PropagatesFar(ents: set<Id>, adj: Adjacency, near: Affinity, order: seq<Id>)
    requires IsGraph(ents, adj) && NoLoops(adj) && Covers(order, ents) && IsLabelling(ents, Identity(ents))
    ensures DominantOrClimbed(ents, adj, Rounds(Visit(adj, near), Identity(ents), order, LABEL_PROPAGATION_MAX_ITERS))
  {
    hide SharedWeight, LabelWeight, IsGraph, NoLoops, Rounds, NeighbourLabels, Improving, Higher, IsDominant, ClimbsTo;
    PropagationImproves(ents, adj, near);
    SettledOrClimbs(ents, Visit(adj, near), Higher(SharedWeight(ents, adj)), Identity(ents), order, 100);
    var d := Rounds(Visit(adj, near), Identity(ents), order, 100);
    if Settled(ents, Visit(adj, near), d) {
      forall v | v in ents
        ensures NeighbourLabels(adj, d, v) == {} ||
          IsDominant(NeighbourLabels(adj, d, v), LabelWeight(adj, d, v), At(d, v))
      {
        assert Visit(adj, near)(d, v) == d;
        assert d[v := Adopted(adj, near, d, v)][v] == Adopted(adj, near, d, v);
        StaysDominant(adj, near, d, v);
      }
    }
  }

  /** A single level of communities, from the labels propagation ends with. */
  method Detect(g: Graph, near: Affinity) returns (comms: seq<Community>, ghost adj: Adjacency, ghost labels: Labels)
    ensures IsGraph(EntitySet(g), adj) && NoLoops(adj) && Sparse(adj)
    ensures forall i, j :: Weight(adj, i, j) == JoinedWeight(EntitySet(g), g.relations, |g.relations|, i, j)
    ensures g.entities == [] ==> comms == []
    ensures g.entities != [] ==>
      IsPropagation(g, near, adj, labels, comms) && DominantOrClimbed(EntitySet(g), adj, labels)
  {
    hide IsGraph, JoinedWeight, IsLevel, Rounds, Visit, IsLabelling, Sparse, DominantOrClimbed;
    var ids := SortIds(EntityIds(g));
    SortMembers(EntityIds(g));
    var built := BuildAdjacency(g);
    adj := built;
    if g.entities == [] {
      return [], adj, map[];
    }
    forall i | 0 <= i < |ids|
      ensures ids[i] in EntitySet(g)
    {
      assert ids[i] in ids;
    }
    var found := Propagate(ids, EntitySet(g), built, near, LABEL_PROPAGATION_MAX_ITERS);
    labels := found;
    assert IsLabelling(EntitySet(g), Identity(EntitySet(g))) by {
      SingletonLabels(EntitySet(g));
    }
    PropagatesFar(EntitySet(g), adj, near, ids);
    comms := CommunitiesFromLabels(g.relations, found, 0);
  }
}
