/** The local-move phase as the code runs it: mutable label and degree tables. */
module LouvainPass {
  import Orders
  import opened Ids
  import opened Sums
  import opened Modularity
  import opened Sorting
  import opened Sweeps
  import opened LouvainMoves

  /** A working node and the finest-level entities collapsed into it. */
  datatype Node = Node(id: Id, members: seq<Id>)

  function IdsOf(nodes: seq<Node>): (ids: seq<Id>)
    ensures |ids| == |nodes|
    ensures forall i :: 0 <= i < |nodes| ==> ids[i] == nodes[i].id
  {
    seq(|nodes|, i requires 0 <= i < |nodes| => nodes[i].id)
  }

  function NodeIds(nodes: seq<Node>): set<Id> {
    set x | x in IdsOf(nodes)
  }

  ghost predicate IsWorkingGraph(nodes: seq<Node>, adj: Adjacency) {
    Orders.Distinct(IdsOf(nodes)) && IsGraph(NodeIds(nodes), adj)
  }

  function Get(m: map<Id, real>, k: Id): real {
    if k in m then m[k] else 0.0
  }

  function Identity(ids: set<Id>): Labels {
    map i | i in ids :: i
  }

  /** The keys of a map drained into a list, in whatever order iteration yields them. */
  method Drain(keys: set<Id>) returns (list: seq<Id>)
    ensures Orders.Distinct(list)
    ensures forall k :: k in SortIds(list) <==> k in keys
  {
    list := [];
    var todo := keys;
    while todo != {}
      invariant Orders.Distinct(list)
      invariant forall k :: k in keys <==> k in list || k in todo
      invariant forall k :: k in list ==> k !in todo
    {
      var k := Next(todo);
      list, todo := list + [k], todo - {k};
    }
    SortMembers(list);
  }

  /* ---- Canonical names: the lowest member of each community ---- */

  ghost function Class(ids: set<Id>, c: Labels, k: Id): set<Id> {
    set j | j in ids && At(c, j) == k
  }

  ghost function Least(s: set<Id>): (m: Id)
    requires s != {}
    ensures m in s && forall x :: x in s ==> m <= x
    decreases s
  {
    var x := Pick(s);
    var rest := s - {x};
    assert forall y :: y in s ==> y == x || y in rest;
    if rest == {} then x
    else
      var m := Least(rest);
      if x < m then x else m
  }

  ghost function Canonical(ids: set<Id>, c: Labels): Labels {
    map i | i in ids :: assert i in Class(ids, c, At(c, i)); Least(Class(ids, c, At(c, i)))
  }

  /** Canonical renaming keeps the partition and names each group by its least member. */
  lemma {:induction false} CanonicalSamePartition(ids: set<Id>, c: Labels, i: Id, j: Id)
    requires i in ids && j in ids
    ensures Canonical(ids, c)[i] in ids && Canonical(ids, c)[i] <= i
    ensures At(c, Canonical(ids, c)[i]) == At(c, i)
    ensures Canonical(ids, c)[i] == Canonical(ids, c)[j] <==> At(c, i) == At(c, j)
    ensures Canonical(ids, c)[i] == Canonical(ids, c)[Canonical(ids, c)[i]]
  {
    assert i in Class(ids, c, At(c, i));
    assert j in Class(ids, c, At(c, j));
    var r := Canonical(ids, c)[i];
    assert r in Class(ids, c, At(c, i));
    assert Canonical(ids, c)[j] in Class(ids, c, At(c, j));
  }

  /** The partition an uncapped reader would expect from the pass, as one expression. */
  ghost function PassResult(nodes: seq<Node>, adj: Adjacency, resolution: real, maxIters: nat): Labels {
    var ids := NodeIds(nodes);
    if TotalWeight(ids, adj) == 0.0 then Identity(ids)
    else Canonical(ids, Rounds(Visit(Net(ids, adj, resolution)), Identity(ids), SortIds(IdsOf(nodes)), maxIters))
  }

  /* ---- Bookkeeping of community degrees ---- */

  lemma {:induction false} TakenOut(ids: set<Id>, c: Labels, k: Id, v: Id, f: Id -> real)
    requires v in ids
    ensures Sum(ids, In(c, k, f)) == Sum(ids - {v}, In(c, k, f)) + if At(c, v) == k then f(v) else 0.0
  {
    hide Sum;
    SumRemove(ids, In(c, k, f), v);
  }

  lemma {:induction false} PutBack(ids: set<Id>, c: Labels, k: Id, v: Id, best: Id, f: Id -> real)
    requires v in ids
    ensures Sum(ids, In(c[v := best], k, f)) == Sum(ids - {v}, In(c, k, f)) + if best == k then f(v) else 0.0
  {
    hide Sum;
    TakenOut(ids, c[v := best], k, v, f);
    SumEq(ids - {v}, In(c[v := best], k, f), In(c, k, f));
  }

  /** commDegree holds the summed degree of every community's members. */
  ghost predicate DegreesAgree(s: set<Id>, c: Labels, f: Id -> real, commDegree: map<Id, real>) {
    forall k :: Get(commDegree, k) == Sum(s, In(c, k, f))
  }

  lemma {:induction false} IncidentSum(ids: set<Id>, adj: Adjacency, i: Id)
    requires IsGraph(ids, adj) && i in ids
    ensures Degree(ids, adj, i) == Sum(adj[i].Keys, Incident(adj, i))
  {
    hide Sum;
    SumSubset(ids, adj[i].Keys, Incident(adj, i));
  }

  /** One node's row: the weights added to its degree and to 2m. */
  method RowWeight(ghost ids: set<Id>, adj: Adjacency, id: Id) returns (d: real)
    requires IsGraph(ids, adj) && id in ids
    ensures d == Degree(ids, adj, id)
  {
    d := 0.0;
    var todo := adj[id].Keys;
    ghost var done: set<Id> := {};
    while todo != {}
      invariant todo !! done && todo + done == adj[id].Keys
      invariant d == Sum(done, Incident(adj, id))
    {
      var nbr := Next(todo);
      SumAdd1(done, Incident(adj, id), nbr);
      d, todo, done := d + adj[id][nbr], todo - {nbr}, done + {nbr};
    }
    assert done == adj[id].Keys;
    IncidentSum(ids, adj, id);
  }

  /** The degree table and 2m. */
  method Tally(nodes: seq<Node>, adj: Adjacency) returns (degree: map<Id, real>, twoM: real)
    requires IsWorkingGraph(nodes, adj)
    ensures forall i :: i in NodeIds(nodes) ==> Get(degree, i) == Degree(NodeIds(nodes), adj, i)
    ensures twoM == TotalWeight(NodeIds(nodes), adj)
  {
    hide Degree, Sum, IsGraph;
    ghost var ids := NodeIds(nodes);
    ghost var seen: set<Id> := {};
    degree, twoM := map[], 0.0;
    assert Sum(seen, Degrees(ids, adj)) == 0.0 by {
      SumZero(seen, Degrees(ids, adj));
    }
    for i := 0 to |nodes|
      invariant forall x :: x in seen <==> exists j :: 0 <= j < i && IdsOf(nodes)[j] == x
      invariant forall x :: x in seen ==> Get(degree, x) == Degree(ids, adj, x)
      invariant degree.Keys == seen
      invariant twoM == Sum(seen, Degrees(ids, adj))
    {
      var id := nodes[i].id;
      assert id == IdsOf(nodes)[i] && id in IdsOf(nodes);
      assert id !in seen;
      var d := RowWeight(ids, adj, id);
      SumAdd1(seen, Degrees(ids, adj), id);
      degree := degree[id := Get(degree, id) + d];
      twoM := twoM + d;
      seen := seen + {id};
    }
    forall x
      ensures x in seen <==> x in ids
    {
    }
    SameSet(seen, ids);
  }

  lemma {:induction false} OneMore(done: set<Id>, nbr: Id, c: Labels, k: Id, v: Id, f: Id -> real)
    requires nbr !in done
    ensures Sum(done + {nbr} - {v}, In(c, k, f))
         == Sum(done - {v}, In(c, k, f)) + if nbr != v && At(c, nbr) == k then f(nbr) else 0.0
  {
    hide Sum;
    if nbr == v {
      assert done + {nbr} - {v} == done - {v};
    } else {
      assert done + {nbr} - {v} == done - {v} + {nbr};
      SumAdd1(done - {v}, In(c, k, f), nbr);
    }
  }

  /** toComm after the neighbours in done: the weight into each community met so far. */
  ghost predicate Into(done: set<Id>, c: Labels, v: Id, f: Id -> real, toComm: map<Id, real>) {
    && (forall k :: Get(toComm, k) == Sum(done - {v}, In(c, k, f)))
    && (forall k :: k in toComm <==> Met(done, c, v, k))
  }

  ghost predicate Met(done: set<Id>, c: Labels, v: Id, k: Id) {
    exists j :: j in done && j != v && At(c, j) == k
  }

  lemma {:induction false} IntoNone(c: Labels, v: Id, f: Id -> real)
    ensures Into({}, c, v, f, map[])
  {
    assert {} - {v} == {};
  }

  lemma {:induction false} IntoStep(done: set<Id>, nbr: Id, c: Labels, v: Id, f: Id -> real, toComm: map<Id, real>)
    requires Into(done, c, v, f, toComm) && nbr !in done
    ensures Into(done + {nbr}, c, v, f,
      if nbr == v then toComm else toComm[At(c, nbr) := Get(toComm, At(c, nbr)) + f(nbr)])
  {
    hide Sum, In;
    var k0 := At(c, nbr);
    var next := if nbr == v then toComm else toComm[k0 := Get(toComm, k0) + f(nbr)];
    forall k
      ensures Get(next, k) == Sum(done + {nbr} - {v}, In(c, k, f))
      ensures k in next <==> Met(done + {nbr}, c, v, k)
    {
      OneMore(done, nbr, c, k, v, f);
      if nbr != v && k == k0 {
        assert nbr in done + {nbr};
      }
    }
  }

  lemma {:induction false} IntoAll(ids: set<Id>, adj: Adjacency, c: Labels, v: Id, toComm: map<Id, real>)
    requires IsGraph(ids, adj) && v in ids
    requires Into(adj[v].Keys, c, v, Incident(adj, v), toComm)
    ensures forall k :: Get(toComm, k) == Sum(ids - {v}, In(c, k, Incident(adj, v)))
    ensures toComm.Keys + {At(c, v)} == Candidates(adj, c, v)
  {
    hide Sum;
    forall k
      ensures Get(toComm, k) == Sum(ids - {v}, In(c, k, Incident(adj, v)))
    {
      SumSubset(ids - {v}, adj[v].Keys - {v}, In(c, k, Incident(adj, v)));
    }
    forall k
      ensures k in toComm.Keys + {At(c, v)} <==> k in Candidates(adj, c, v)
    {
      assert k in toComm <==> Met(adj[v].Keys, c, v, k);
    }
  }

  /** The weight from v into each community, v itself left out. */
  method WeightsInto(ghost ids: set<Id>, adj: Adjacency, community: Labels, v: Id) returns (toComm: map<Id, real>)
    requires IsGraph(ids, adj) && IsLabelling(ids, community) && v in ids
    ensures forall k :: Get(toComm, k) == Sum(ids - {v}, In(community, k, Incident(adj, v)))
    ensures toComm.Keys + {community[v]} == Candidates(adj, community, v)
  {
    hide Into, Sum, In, Candidates;
    toComm := map[];
    var todo := adj[v].Keys;
    ghost var done: set<Id> := {};
    IntoNone(community, v, Incident(adj, v));
    while todo != {}
      invariant todo !! done && todo + done == adj[v].Keys
      invariant Into(done, community, v, Incident(adj, v), toComm)
    {
      var nbr := Next(todo);
      IntoStep(done, nbr, community, v, Incident(adj, v), toComm);
      if nbr != v {
        toComm := toComm[community[nbr] := Get(toComm, community[nbr]) + adj[v][nbr]];
      }
      todo, done := todo - {nbr}, done + {nbr};
    }
    assert done == adj[v].Keys;
    IntoAll(ids, adj, community, v, toComm);
  }

  /* ---- The scan and the sweeps ---- */

  ghost function Prefix(xs: seq<Id>, n: nat): set<Id>
    requires n <= |xs|
  {
    set i | 0 <= i < n :: xs[i]
  }

  /** One step of the scan keeps the best of the candidates seen. */
  lemma ScanStep(seen: set<Id>, gains: Id -> real, cur: Id, best: Id, gain: real, k: Id)
    requires IsChoice(seen, gains, cur, best, gain)
    ensures var better := gains(k) > gain || (gains(k) == gain && k < best);
      IsChoice(seen + {k}, gains, cur, if better then k else best, if better then gains(k) else gain)
  {
  }

  lemma {:induction false} CodeGain(net: Net, c: Labels, v: Id, k: Id, toComm: map<Id, real>, commDegree: map<Id, real>)
    requires Valid(net)
    requires Get(toComm, k) == Sum(net.ids - {v}, In(c, k, Incident(net.adj, v)))
    requires DegreesAgree(net.ids - {v}, c, Degrees(net.ids, net.adj), commDegree)
    ensures Gain(Get(toComm, k), Degree(net.ids, net.adj, v), Get(commDegree, k), TotalWeight(net.ids, net.adj), net.resolution)
         == Gains(net, c, v)(k)
  {
    hide Sum, Degree, TotalWeight, Gain;
    GainIsPull(net.ids - {v}, net.ids, net.adj, net.resolution, c, v, k);
  }

  /** The candidate scan returns the choice of the specification. */
  method BestCommunity(net: Net, c: Labels, v: Id, candidates: seq<Id>, toComm: map<Id, real>,
                       commDegree: map<Id, real>, degree: real, twoM: real) returns (bestComm: Id)
    requires Valid(net) && IsLabelling(net.ids, c) && v in net.ids
    requires twoM == TotalWeight(net.ids, net.adj) && degree == Degree(net.ids, net.adj, v)
    requires forall k :: k in candidates <==> k in Candidates(net.adj, c, v)
    requires forall k :: Get(toComm, k) == Sum(net.ids - {v}, In(c, k, Incident(net.adj, v)))
    requires DegreesAgree(net.ids - {v}, c, Degrees(net.ids, net.adj), commDegree)
    ensures bestComm == Choice(net, c, v)
  {
    hide Sum, Degree, TotalWeight, Gain, Gains, Choice, IsChoice, DegreesAgree, Candidates, IsGraph;
    ghost var gains := Gains(net, c, v);
    bestComm := c[v];
    var bestGain := 0.0;
    ghost var seen: set<Id> := {};
    assert IsChoice(seen, gains, c[v], bestComm, bestGain) by {
      NothingScanned(gains, c[v]);
    }
    for i := 0 to |candidates|
      invariant forall k :: k in seen <==> k in candidates[..i]
      invariant IsChoice(seen, gains, c[v], bestComm, bestGain)
    {
      var k := candidates[i];
      var gain := Gain(Get(toComm, k), degree, Get(commDegree, k), twoM, net.resolution);
      CodeGain(net, c, v, k, toComm, commDegree);
      ScanStep(seen, gains, c[v], bestComm, bestGain, k);
      if gain > bestGain || (gain == bestGain && k < bestComm) {
        bestGain, bestComm := gain, k;
      }
      seen := seen + {k};
    }
    assert candidates[..|candidates|] == candidates;
    forall k
      ensures k in seen <==> k in Candidates(net.adj, c, v)
    {
    }
    SameSet(seen, Candidates(net.adj, c, v));
    var b, g := TheChoice(net, c, v);
    ChoiceUnique(seen, gains, c[v], bestComm, bestGain, b, g);
  }

  lemma NothingScanned(gains: Id -> real, cur: Id)
    ensures IsChoice({}, gains, cur, cur, 0.0)
  {
  }

  lemma TheChoice(net: Net, c: Labels, v: Id) returns (best: Id, gain: real)
    requires v in c
    ensures best == Choice(net, c, v)
    ensures IsChoice(Candidates(net.adj, c, v), Gains(net, c, v), c[v], best, gain)
  {
    hide Choice;
    best := Choice(net, c, v);
    gain :| IsChoice(Candidates(net.adj, c, v), Gains(net, c, v), At(c, v), best, gain);
  }

  lemma {:induction false} RemoveDegree(ids: set<Id>, c: Labels, v: Id, f: Id -> real, commDegree: map<Id, real>)
    requires v in ids && v in c && DegreesAgree(ids, c, f, commDegree)
    ensures DegreesAgree(ids - {v}, c, f, commDegree[c[v] := Get(commDegree, c[v]) - f(v)])
  {
    hide Sum, In;
    var next := commDegree[c[v] := Get(commDegree, c[v]) - f(v)];
    forall k
      ensures Get(next, k) == Sum(ids - {v}, In(c, k, f))
    {
      TakenOut(ids, c, k, v, f);
    }
  }

  lemma {:induction false} InsertDegree(ids: set<Id>, c: Labels, v: Id, best: Id, f: Id -> real,
                                        commDegree: map<Id, real>)
    requires v in ids && DegreesAgree(ids - {v}, c, f, commDegree)
    ensures DegreesAgree(ids, c[v := best], f, commDegree[best := Get(commDegree, best) + f(v)])
  {
    hide Sum, In;
    var next := commDegree[best := Get(commDegree, best) + f(v)];
    forall k
      ensures Get(next, k) == Sum(ids, In(c[v := best], k, f))
    {
      PutBack(ids, c, k, v, best, f);
    }
  }

  lemma Labelled(net: Net, c: Labels, v: Id)
    requires Valid(net) && IsLabelling(net.ids, c) && v in net.ids
    ensures v in c && IsGraph(net.ids, net.adj) && Degrees(net.ids, net.adj)(v) == Degree(net.ids, net.adj, v)
  {
  }

  lemma Relabelled(net: Net, c: Labels, v: Id, best: Id) returns (d: Labels)
    requires IsGraph(net.ids, net.adj) && v in net.ids && IsLabelling(net.ids, c) && best == Choice(net, c, v)
    ensures d == c[v := best] == Visit(net)(c, v) && IsLabelling(net.ids, d)
    ensures d == c <==> best == c[v]
  {
    hide Choice, IsGraph;
    VisitLabels(net, c, v);
    d := c[v := best];
    if best == c[v] {
      assert d == c;
    } else {
      assert d[v] != c[v];
    }
  }

  /** One node's visit: out of its community, scan, into the chosen one. */
  method VisitOnce(net: Net, nodeID: Id, degree: map<Id, real>, twoM: real, community0: Labels,
                   commDegree0: map<Id, real>)
    returns (community: Labels, commDegree: map<Id, real>, moved: bool)
    requires Valid(net) && nodeID in net.ids && IsLabelling(net.ids, community0)
    requires Get(degree, nodeID) == Degree(net.ids, net.adj, nodeID)
    requires twoM == TotalWeight(net.ids, net.adj)
    requires DegreesAgree(net.ids, community0, Degrees(net.ids, net.adj), commDegree0)
    ensures community == Visit(net)(community0, nodeID)
    ensures IsLabelling(net.ids, community)
    ensures DegreesAgree(net.ids, community, Degrees(net.ids, net.adj), commDegree)
    ensures moved <==> community != community0
  {
    hide *;
    Labelled(net, community0, nodeID);
    var cur, d := community0[nodeID], Get(degree, nodeID);
    var toComm := WeightsInto(net.ids, net.adj, community0, nodeID);
    RemoveDegree(net.ids, community0, nodeID, Degrees(net.ids, net.adj), commDegree0);
    commDegree := commDegree0[cur := Get(commDegree0, cur) - d];
    var candidates := Drain(toComm.Keys + {cur});
    var bestComm := BestCommunity(net, community0, nodeID, SortIds(candidates), toComm, commDegree, d, twoM);
    InsertDegree(net.ids, community0, nodeID, bestComm, Degrees(net.ids, net.adj), commDegree);
    commDegree := commDegree[bestComm := Get(commDegree, bestComm) + d];
    ghost var target := Relabelled(net, community0, nodeID, bestComm);
    community, moved := community0, false;
    if bestComm != cur {
      community, moved := community0[nodeID := bestComm], true;
    }
    assert community == target;
  }

  /** One sweep over the nodes; commDegree agrees with the labels between visits. */
  method SweepOnce(net: Net, order: seq<Id>, degree: map<Id, real>, twoM: real, community0: Labels,
                   commDegree0: map<Id, real>)
    returns (community: Labels, commDegree: map<Id, real>, moved: bool)
    requires Valid(net) && Covers(order, net.ids) && IsLabelling(net.ids, community0)
    requires forall i :: i in net.ids ==> Get(degree, i) == Degree(net.ids, net.adj, i)
    requires twoM == TotalWeight(net.ids, net.adj)
    requires DegreesAgree(net.ids, community0, Degrees(net.ids, net.adj), commDegree0)
    ensures community == Sweep(Visit(net), community0, order, |order|)
    ensures IsLabelling(net.ids, community) && community.Keys == net.ids
    ensures DegreesAgree(net.ids, community, Degrees(net.ids, net.adj), commDegree)
    ensures !moved ==> community == community0
  {
    hide Sum, Degree, TotalWeight, DegreesAgree, Visit, IsGraph, Get;
    community, commDegree, moved := community0, commDegree0, false;
    for n := 0 to |order|
      invariant community == Sweep(Visit(net), community0, order, n)
      invariant IsLabelling(net.ids, community)
      invariant DegreesAgree(net.ids, community, Degrees(net.ids, net.adj), commDegree)
      invariant !moved ==> community == community0
    {
      var movedNow;
      community, commDegree, movedNow := VisitOnce(net, order[n], degree, twoM, community, commDegree);
      moved := moved || movedNow;
    }
  }

  /** The table of initial community degrees: every node alone. */
  method InitialDegrees(nodes: seq<Node>, degree: map<Id, real>, ghost f: Id -> real)
    returns (commDegree: map<Id, real>)
    requires Orders.Distinct(IdsOf(nodes))
    requires forall i :: i in NodeIds(nodes) ==> Get(degree, i) == f(i)
    ensures DegreesAgree(NodeIds(nodes), Identity(NodeIds(nodes)), f, commDegree)
  {
    commDegree := map[];
    for i := 0 to |nodes|
      invariant forall k :: k in commDegree <==> k in IdsOf(nodes)[..i]
      invariant forall k :: k in commDegree ==> commDegree[k] == f(k)
    {
      var id := nodes[i].id;
      assert id == IdsOf(nodes)[i] && id in NodeIds(nodes) && id !in IdsOf(nodes)[..i];
      commDegree := commDegree[id := Get(commDegree, id) + Get(degree, id)];
    }
    assert IdsOf(nodes)[..|nodes|] == IdsOf(nodes);
    forall x
      ensures x in commDegree.Keys <==> x in NodeIds(nodes)
    {
    }
    SameSet(commDegree.Keys, NodeIds(nodes));
    SingletonDegrees(NodeIds(nodes), f, commDegree);
  }

  lemma {:induction false} SingletonDegrees(ids: set<Id>, f: Id -> real, commDegree: map<Id, real>)
    requires commDegree.Keys == ids && forall k :: k in ids ==> commDegree[k] == f(k)
    ensures DegreesAgree(ids, Identity(ids), f, commDegree)
  {
    hide Sum;
    forall k
      ensures Get(commDegree, k) == Sum(ids, In(Identity(ids), k, f))
    {
      if k in ids {
        SumPoint(ids, In(Identity(ids), k, f), k);
      } else {
        SumZero(ids, In(Identity(ids), k, f));
      }
    }
  }

  /** Renames every community to its lowest member, visiting the nodes in order. */
  method Normalize(ids: set<Id>, order: seq<Id>, community: Labels) returns (out: Labels)
    requires Covers(order, ids) && community.Keys == ids
    ensures out == Canonical(ids, community)
  {
    var rep: Labels := map[];
    for i := 0 to |order|
      invariant forall j :: 0 <= j < i ==> community[order[j]] in rep
      invariant forall k :: k in rep ==> rep[k] in ids && community[rep[k]] == k
      invariant forall j :: 0 <= j < i ==> rep[community[order[j]]] <= order[j]
    {
      var c := community[order[i]];
      if c !in rep || order[i] < rep[c] {
        rep := rep[c := order[i]];
      }
    }
    out := map[];
    for i := 0 to |order|
      invariant forall x :: x in out <==> x in order[..i]
      invariant forall x :: x in out ==> out[x] == rep[community[x]]
    {
      out := out[order[i] := rep[community[order[i]]]];
    }
    assert order[..|order|] == order;
    forall x
      ensures x in out.Keys <==> x in ids
    {
    }
    SameSet(out.Keys, ids);
    forall x | x in ids
      ensures out[x] == Canonical(ids, community)[x]
    {
      LeastIsRep(ids, order, community, rep, x);
    }
    SameMap(out, Canonical(ids, community));
  }

  lemma {:induction false} LeastIsRep(ids: set<Id>, order: seq<Id>, community: Labels, rep: Labels, x: Id)
    requires Covers(order, ids) && community.Keys == ids && x in ids
    requires forall j :: 0 <= j < |order| ==> community[order[j]] in rep
    requires forall k :: k in rep ==> rep[k] in ids && community[rep[k]] == k
    requires forall j :: 0 <= j < |order| ==> rep[community[order[j]]] <= order[j]
    ensures community[x] in rep && rep[community[x]] == Canonical(ids, community)[x]
  {
    var group := Class(ids, community, At(community, x));
    var j :| 0 <= j < |order| && order[j] == x;
    var r := rep[community[x]];
    assert x in group && r in group;
    var least := Least(group);
    assert least in group;
    var l :| 0 <= l < |order| && order[l] == least;
  }

  lemma Setup(nodes: seq<Node>, adj: Adjacency, resolution: real, maxIters: nat)
    requires IsWorkingGraph(nodes, adj)
    ensures var ids, order := NodeIds(nodes), SortIds(IdsOf(nodes));
      var visit := Visit(Net(ids, adj, resolution));
      && Covers(order, ids) && IsLabelling(ids, Identity(ids)) && Identity(ids).Keys == ids && Orders.Distinct(IdsOf(nodes))
      && Rounds(visit, Identity(ids), order, 0) == Identity(ids)
      && (TotalWeight(ids, adj) == 0.0 ==> PassResult(nodes, adj, resolution, maxIters) == Identity(ids))
      && (TotalWeight(ids, adj) != 0.0 ==>
        Valid(Net(ids, adj, resolution)) &&
        PassResult(nodes, adj, resolution, maxIters) == Canonical(ids, Rounds(visit, Identity(ids), order, maxIters)))
    ensures forall i :: i in NodeIds(nodes) ==> Degrees(NodeIds(nodes), adj)(i) == Degree(NodeIds(nodes), adj, i)
  {
    hide TotalWeight, Visit, Degree, Canonical, IsGraph;
    SortMembers(IdsOf(nodes));
    var order := SortIds(IdsOf(nodes));
    assert forall i :: 0 <= i < |order| ==> order[i] in order;
  }

  lemma NextRound(visit: Rule, c: Labels, order: seq<Id>, n: nat)
    ensures Rounds(visit, c, order, n + 1) == Sweep(visit, Rounds(visit, c, order, n), order, |order|)
  {
  }

  /** The local-move phase: sweeps until nothing moves or the cap is reached. */
  method Pass(nodes: seq<Node>, adj: Adjacency, resolution: real, maxIters: nat) returns (out: Labels)
    requires IsWorkingGraph(nodes, adj)
    ensures out == PassResult(nodes, adj, resolution, maxIters)
  {
    hide *;
    Setup(nodes, adj, resolution, maxIters);
    var ids := NodeIds(nodes);
    var net := Net(ids, adj, resolution);
    var community := Identity(ids);
    var degree, twoM := Tally(nodes, adj);
    if twoM == 0.0 {
      return community;
    }
    var commDegree := InitialDegrees(nodes, degree, Degrees(ids, adj));
    var order := SortIds(IdsOf(nodes));
    var iter, moved := 0, true;
    while iter < maxIters && moved
      invariant iter <= maxIters
      invariant community == Rounds(Visit(net), Identity(ids), order, iter)
      invariant IsLabelling(ids, community) && community.Keys == ids
      invariant DegreesAgree(ids, community, Degrees(ids, adj), commDegree)
      invariant !moved ==> iter > 0 && Rounds(Visit(net), Identity(ids), order, iter - 1) == community
    {
      NextRound(Visit(net), Identity(ids), order, iter);
      community, commDegree, moved := SweepOnce(net, order, degree, twoM, community, commDegree);
      iter := iter + 1;
    }
    if !moved {
      FixpointPersists(Visit(net), Identity(ids), order, iter - 1, maxIters);
    }
    out := Normalize(ids, order, community);
  }
}
