/** The coarsening phase as the code runs it: member lists and adjacency rebuilt in place. */
module LouvainCoarsen {
  import Orders
  import opened Ids
  import opened Sums
  import opened Sorting
  import opened Modularity
  import opened Coarsening
  import opened LouvainPass
  import opened LouvainPassProperties

  ghost predicate Ascending(xs: seq<Id>) {
    forall i, j :: 0 <= i < j < |xs| ==> xs[i] < xs[j]
  }

  /** owner assigns every entity to the working node that holds it. */
  ghost predicate Represents(nodes: seq<Node>, ents: set<Id>, owner: Labels) {
    && Orders.Distinct(IdsOf(nodes))
    && IsCanonical(ents, owner)
    && (forall i :: i in NodeIds(nodes) <==> i in ents && owner[i] == i)
    && (forall n :: 0 <= n < |nodes| ==> Ascending(nodes[n].members) && Holds(nodes[n], ents, owner))
  }

  ghost predicate Holds(node: Node, ents: set<Id>, owner: Labels) {
    forall e :: e in node.members <==> e in ents && At(owner, e) == node.id
  }

  /** The composite owner is canonical again. */
  lemma {:induction false} OwnersCompose(ids: set<Id>, ents: set<Id>, owner: Labels, partition: Labels)
    requires IsCanonical(ents, owner) && IsCanonical(ids, partition)
    requires forall i :: i in ids <==> i in ents && owner[i] == i
    ensures IsCanonical(ents, Compose(partition, owner))
    ensures forall e :: e in ents ==> owner[e] in ids && Compose(partition, owner)[e] == partition[owner[e]]
    ensures forall i :: i in ids ==> Compose(partition, owner)[i] == partition[i]
  {
    var both := Compose(partition, owner);
    forall e | e in ents
      ensures owner[e] in ids && both[e] == partition[owner[e]]
      ensures both[e] in ents && both[e] <= e && both[both[e]] == both[e]
    {
      var i := owner[e];
      assert owner[i] == i && i in ids;
      var r := partition[i];
      assert r in ids;
    }
    forall x
      ensures x in both.Keys <==> x in ents
    {
    }
    SameSet(both.Keys, ents);
  }

  /* ---- Member lists ---- */

  ghost predicate InGroup(nodes: seq<Node>, n: nat, partition: Labels, rep: Id, e: Id)
    requires n <= |nodes|
  {
    exists j :: 0 <= j < n && At(partition, nodes[j].id) == rep && e in nodes[j].members
  }

  ghost predicate Disjoint(nodes: seq<Node>) {
    && (forall j :: 0 <= j < |nodes| ==> Orders.Distinct(nodes[j].members))
    && (forall j, k, e :: 0 <= j < k < |nodes| && e in nodes[j].members ==> e !in nodes[k].members)
  }

  lemma DistinctConcat(a: seq<Id>, b: seq<Id>)
    requires Orders.Distinct(a) && Orders.Distinct(b) && forall e :: e in a ==> e !in b
    ensures Orders.Distinct(a + b)
  {
    forall i, j | 0 <= i < j < |a + b|
      ensures (a + b)[i] != (a + b)[j]
    {
      if i < |a| <= j {
        var e := a[i];
        assert e in a;
      }
    }
  }

  method GroupMembers(nodes: seq<Node>, partition: Labels) returns (membersByRep: map<Id, seq<Id>>)
    requires Disjoint(nodes) && forall n :: 0 <= n < |nodes| ==> nodes[n].id in partition
    ensures forall rep :: rep in membersByRep <==> exists n :: 0 <= n < |nodes| && At(partition, nodes[n].id) == rep
    ensures forall rep :: rep in membersByRep ==> Orders.Distinct(membersByRep[rep])
    ensures forall rep, e :: rep in membersByRep ==>
      (e in membersByRep[rep] <==> InGroup(nodes, |nodes|, partition, rep, e))
  {
    membersByRep := map[];
    for n := 0 to |nodes|
      invariant forall rep :: rep in membersByRep <==> exists j :: 0 <= j < n && At(partition, nodes[j].id) == rep
      invariant forall rep :: rep in membersByRep ==> Orders.Distinct(membersByRep[rep])
      invariant forall rep, e :: rep in membersByRep ==>
        (e in membersByRep[rep] <==> InGroup(nodes, n, partition, rep, e))
    {
      var rep0 := partition[nodes[n].id];
      var list := if rep0 in membersByRep then membersByRep[rep0] else [];
      forall e | e in list
        ensures e !in nodes[n].members
      {
        assert InGroup(nodes, n, partition, rep0, e);
      }
      DistinctConcat(list, nodes[n].members);
      forall rep, e
        ensures InGroup(nodes, n + 1, partition, rep, e) <==>
          InGroup(nodes, n, partition, rep, e) || (rep == rep0 && e in nodes[n].members)
      {
      }
      membersByRep := membersByRep[rep0 := list + nodes[n].members];
    }
  }

  /** Sorting a repetition-free list that has exactly the elements of a group. */
  lemma SortedMembers(list: seq<Id>)
    requires Orders.Distinct(list)
    ensures Ascending(SortIds(list)) && forall e :: e in SortIds(list) <==> e in list
  {
    SortDistinct(list);
    SortMembers(list);
  }

  lemma AscendingDistinct(xs: seq<Id>)
    requires Ascending(xs)
    ensures Orders.Distinct(xs)
  {
  }

  lemma RepresentsDisjoint(nodes: seq<Node>, ents: set<Id>, owner: Labels)
    requires Represents(nodes, ents, owner)
    ensures Disjoint(nodes)
  {
    hide IsCanonical;
    forall j, k, e | 0 <= j < k < |nodes| && e in nodes[j].members
      ensures e !in nodes[k].members
    {
      assert Holds(nodes[j], ents, owner) && Holds(nodes[k], ents, owner);
      assert IdsOf(nodes)[j] != IdsOf(nodes)[k];
    }
  }

  /** The gathered members of rep are exactly the entities the composite owner sends to it. */
  lemma {:induction false} GroupIsClass(nodes: seq<Node>, ents: set<Id>, owner: Labels, partition: Labels, rep: Id,
                                        e: Id)
    requires Represents(nodes, ents, owner) && IsCanonical(NodeIds(nodes), partition)
    ensures InGroup(nodes, |nodes|, partition, rep, e) <==> e in ents && At(Compose(partition, owner), e) == rep
  {
    OwnersCompose(NodeIds(nodes), ents, owner, partition);
    if InGroup(nodes, |nodes|, partition, rep, e) {
      var j :| 0 <= j < |nodes| && At(partition, nodes[j].id) == rep && e in nodes[j].members;
      assert Holds(nodes[j], ents, owner);
    }
    if e in ents && At(Compose(partition, owner), e) == rep {
      var i := owner[e];
      assert i in NodeIds(nodes) && i in IdsOf(nodes);
      var j :| 0 <= j < |nodes| && IdsOf(nodes)[j] == i;
      assert Holds(nodes[j], ents, owner);
    }
  }

  /** A canonical class starts, once sorted, with its own name. */
  lemma LowestMember(ents: set<Id>, both: Labels, rep: Id, members: seq<Id>)
    requires IsCanonical(ents, both) && rep in ents && both[rep] == rep
    requires Ascending(members) && forall e :: e in members <==> e in ents && At(both, e) == rep
    ensures members != [] && members[0] == rep
  {
    assert rep in members;
    var k :| 0 <= k < |members| && members[k] == rep;
    var m := members[0];
    assert m in members;
  }

  ghost predicate GoodNode(node: Node, rep: Id, ents: set<Id>, both: Labels) {
    node.id == rep && Ascending(node.members) && Holds(node, ents, both)
  }

  /** The super-node of one class: its members sorted, named by the lowest. */
  method SuperNode(list: seq<Id>, ghost rep: Id, ghost ents: set<Id>, ghost both: Labels) returns (node: Node)
    requires IsCanonical(ents, both) && rep in ents && both[rep] == rep
    requires Orders.Distinct(list) && forall e :: e in list <==> e in ents && At(both, e) == rep
    ensures GoodNode(node, rep, ents, both)
  {
    hide IsCanonical, Ascending, Orders.Distinct;
    var members := SortIds(list);
    SortedMembers(list);
    LowestMember(ents, both, rep, members);
    node := Node(members[0], members);
  }

  /** The nodes of a table listed by ascending ID. */
  method InOrder(byID: map<Id, Node>) returns (newNodes: seq<Node>)
    requires forall r :: r in byID ==> byID[r].id == r
    ensures Ascending(IdsOf(newNodes))
    ensures forall r :: r in IdsOf(newNodes) <==> r in byID
    ensures forall n :: 0 <= n < |newNodes| ==> newNodes[n].id in byID && newNodes[n] == byID[newNodes[n].id]
  {
    var reps := Drain(byID.Keys);
    var order := SortIds(reps);
    SortedMembers(reps);
    forall i | 0 <= i < |order|
      ensures order[i] in byID
    {
      assert order[i] in order;
    }
    newNodes := seq(|order|, i requires 0 <= i < |order| => byID[order[i]]);
    assert IdsOf(newNodes) == order;
  }

  /** One super-node per class, found through its lowest member, listed in ID order. */
  method SuperNodes(nodes: seq<Node>, partition: Labels, ghost ents: set<Id>, ghost owner: Labels)
    returns (newNodes: seq<Node>, repToNewID: Labels)
    requires Represents(nodes, ents, owner) && IsCanonical(NodeIds(nodes), partition)
    ensures Represents(newNodes, ents, Compose(partition, owner)) && Ascending(IdsOf(newNodes))
    ensures forall r :: r in NodeIds(newNodes) ==> r in repToNewID && repToNewID[r] == r
    ensures Maps(NodeIds(nodes), partition, NodeIds(newNodes))
  {
    hide IsCanonical, Compose, Represents, Ascending, Orders.Distinct, Holds, GoodNode, IdsOf, Maps;
    ghost var both := Compose(partition, owner);
    var membersByRep := GatherFrom(nodes, partition, ents, owner);
    var byID: map<Id, Node> := map[];
    repToNewID := map[];
    var todo := membersByRep.Keys;
    while todo != {}
      invariant todo <= membersByRep.Keys
      invariant forall r :: r in byID <==> r in membersByRep && r !in todo
      invariant forall r :: r in repToNewID <==> r in membersByRep && r !in todo
      invariant forall r :: r in repToNewID ==> repToNewID[r] == r
      invariant forall r :: r in byID ==> byID[r].id == r && GoodNode(byID[r], r, ents, both)
    {
      var rep := Next(todo);
      var node := SuperNode(membersByRep[rep], rep, ents, both);
      assert node.id == rep by {
        GoodName(node, rep, ents, both);
      }
      repToNewID := repToNewID[rep := node.id];
      byID := byID[node.id := node];
      todo := todo - {rep};
    }
    newNodes := InOrder(byID);
    NewRepresents(nodes, partition, ents, owner, newNodes);
  }

  lemma GoodName(node: Node, rep: Id, ents: set<Id>, both: Labels)
    requires GoodNode(node, rep, ents, both)
    ensures node.id == rep
  {
  }

  /** The classes of the composite owner, keyed by their lowest member. */
  method GatherFrom(nodes: seq<Node>, partition: Labels, ghost ents: set<Id>, ghost owner: Labels)
    returns (membersByRep: map<Id, seq<Id>>)
    requires Represents(nodes, ents, owner) && IsCanonical(NodeIds(nodes), partition)
    ensures IsCanonical(ents, Compose(partition, owner))
    ensures forall r :: r in membersByRep <==> r in ents && At(Compose(partition, owner), r) == r
    ensures forall r :: r in membersByRep ==> r in Compose(partition, owner) && Orders.Distinct(membersByRep[r])
    ensures forall r, e :: r in membersByRep ==>
      (e in membersByRep[r] <==> e in ents && At(Compose(partition, owner), e) == r)
  {
    hide IsCanonical, Compose, Represents, Orders.Distinct, InGroup, Disjoint;
    RepresentsDisjoint(nodes, ents, owner);
    ClassNames(nodes, ents, owner, partition);
    membersByRep := GroupMembers(nodes, partition);
    forall r, e
      ensures InGroup(nodes, |nodes|, partition, r, e) <==> e in ents && At(Compose(partition, owner), e) == r
    {
      GroupIsClass(nodes, ents, owner, partition, r, e);
    }
  }

  lemma NodeAt(nodes: seq<Node>, i: Id) returns (n: nat)
    requires i in NodeIds(nodes)
    ensures n < |nodes| && nodes[n].id == i
  {
    assert i in IdsOf(nodes);
    n :| 0 <= n < |nodes| && IdsOf(nodes)[n] == i;
  }

  lemma NodesIn(nodes: seq<Node>)
    ensures forall n :: 0 <= n < |nodes| ==> nodes[n].id in NodeIds(nodes)
  {
    forall n | 0 <= n < |nodes|
      ensures nodes[n].id in NodeIds(nodes)
    {
      assert IdsOf(nodes)[n] in IdsOf(nodes);
    }
  }

  /** The names of the new classes are the labels of the partition. */
  lemma {:induction false} ClassNames(nodes: seq<Node>, ents: set<Id>, owner: Labels, partition: Labels)
    requires Represents(nodes, ents, owner) && IsCanonical(NodeIds(nodes), partition)
    ensures IsCanonical(ents, Compose(partition, owner)) && Compose(partition, owner).Keys == ents
    ensures forall n :: 0 <= n < |nodes| ==> nodes[n].id in partition
    ensures forall r :: (r in ents && At(Compose(partition, owner), r) == r) <==>
      exists n :: 0 <= n < |nodes| && At(partition, nodes[n].id) == r
  {
    hide Compose, NodeIds, IdsOf, Orders.Distinct, Ascending, Holds;
    OwnersCompose(NodeIds(nodes), ents, owner, partition);
    NodesIn(nodes);
    var both := Compose(partition, owner);
    forall r
      ensures (r in ents && At(both, r) == r) <==> exists n :: 0 <= n < |nodes| && At(partition, nodes[n].id) == r
    {
      if r in ents && At(both, r) == r {
        var n := NodeAt(nodes, owner[r]);
        assert At(partition, nodes[n].id) == r;
      }
      if n :| 0 <= n < |nodes| && At(partition, nodes[n].id) == r {
        assert partition[nodes[n].id] == r && both[r] == r;
      }
    }
  }

  lemma {:induction false} NewRepresents(nodes: seq<Node>, partition: Labels, ents: set<Id>, owner: Labels,
                                         newNodes: seq<Node>)
    requires Represents(nodes, ents, owner) && IsCanonical(NodeIds(nodes), partition)
    requires Ascending(IdsOf(newNodes))
    requires forall r :: r in IdsOf(newNodes) <==> r in ents && At(Compose(partition, owner), r) == r
    requires forall n :: 0 <= n < |newNodes| ==> GoodNode(newNodes[n], newNodes[n].id, ents, Compose(partition, owner))
    ensures Represents(newNodes, ents, Compose(partition, owner))
    ensures Maps(NodeIds(nodes), partition, NodeIds(newNodes))
  {
    hide Compose, Ascending, Holds, IsCanonical;
    ClassNames(nodes, ents, owner, partition);
    AscendingDistinct(IdsOf(newNodes));
    forall c | c in NodeIds(newNodes)
      ensures exists i :: i in NodeIds(nodes) && At(partition, i) == c
    {
      var n :| 0 <= n < |nodes| && At(partition, nodes[n].id) == c;
      assert IdsOf(nodes)[n] in NodeIds(nodes);
    }
    forall i | i in NodeIds(nodes)
      ensures At(partition, i) in NodeIds(newNodes)
    {
      assert i in IdsOf(nodes);
      var n :| 0 <= n < |nodes| && IdsOf(nodes)[n] == i;
      assert At(partition, nodes[n].id) == At(partition, i);
    }
  }

  /* ---- Adjacency ---- */

  /** a has rows for exactly the nodes in P, and f gives its weights. */
  ghost predicate Holding(a: Adjacency, P: set<Id>, f: (Id, Id) -> real) {
    && a.Keys == P
    && (forall c :: c in P ==> a[c].Keys <= P)
    && (forall c, d :: Weight(a, c, d) == f(c, d))
  }

  /** The blocks after the rows of the nodes in done and the entries seen of row src. */
  ghost function SoFar(ids: set<Id>, p: Labels, b: (Id, Id) -> real, done: set<Id>, src: Id, seen: set<Id>): (Id, Id) -> real {
    (c: Id, d: Id) => Sum2(done, ids, BlockMask(p, b, c, d)) + Sum(seen, Slice(BlockMask(p, b, c, d), src))
  }

  method Bump(a: Adjacency, c: Id, d: Id, w: real) returns (r: Adjacency)
    requires c in a
    ensures r.Keys == a.Keys
    ensures forall x :: x in a ==> r[x].Keys == if x == c then a[x].Keys + {d} else a[x].Keys
    ensures forall x, y :: Weight(r, x, y) == Weight(a, x, y) + if x == c && y == d then w else 0.0
    ensures Sparse(a) && w > 0.0 ==> Sparse(r)
  {
    r := a[c := a[c][d := Get(a[c], d) + w]];
  }

  lemma {:induction false} EntryAdded(ids: set<Id>, p: Labels, b: (Id, Id) -> real, done: set<Id>, src: Id,
                                      seen: set<Id>, dst: Id, P: set<Id>, a: Adjacency, r: Adjacency)
    requires Holding(a, P, SoFar(ids, p, b, done, src, seen)) && dst !in seen && At(p, dst) in P
    requires r.Keys == a.Keys
    requires forall x :: x in a ==> r[x].Keys == if x == At(p, src) then a[x].Keys + {At(p, dst)} else a[x].Keys
    requires forall x, y :: Weight(r, x, y) == Weight(a, x, y) + if x == At(p, src) && y == At(p, dst) then b(src, dst) else 0.0
    ensures Holding(r, P, SoFar(ids, p, b, done, src, seen + {dst}))
  {
    hide Sum, Sum2;
    forall c, d
      ensures Weight(r, c, d) == SoFar(ids, p, b, done, src, seen + {dst})(c, d)
    {
      SumAdd1(seen, Slice(BlockMask(p, b, c, d), src), dst);
    }
  }

  lemma {:induction false} RowEnds(ids: set<Id>, adj: Adjacency, p: Labels, done: set<Id>, src: Id, P: set<Id>,
                                   a: Adjacency)
    requires IsGraph(ids, adj) && src in ids && src !in done
    requires Holding(a, P, SoFar(ids, p, Weights(adj), done, src, adj[src].Keys))
    ensures Holding(a, P, SoFar(ids, p, Weights(adj), done + {src}, EMPTY_ID, {}))
  {
    hide Sum;
    forall c, d
      ensures Weight(a, c, d) == SoFar(ids, p, Weights(adj), done + {src}, EMPTY_ID, {})(c, d)
    {
      var mask := BlockMask(p, Weights(adj), c, d);
      SumAdd1(done, Row(ids, mask), src);
      SumSubset(ids, adj[src].Keys, Slice(mask, src));
      SumZero({}, Slice(mask, EMPTY_ID));
    }
  }

  lemma {:induction false} RowStarts(ids: set<Id>, p: Labels, b: (Id, Id) -> real, done: set<Id>, src: Id, P: set<Id>,
                                     a: Adjacency)
    requires Holding(a, P, SoFar(ids, p, b, done, EMPTY_ID, {}))
    ensures Holding(a, P, SoFar(ids, p, b, done, src, {}))
  {
    hide Sum, Sum2;
    forall c, d
      ensures Weight(a, c, d) == SoFar(ids, p, b, done, src, {})(c, d)
    {
      SumZero({}, Slice(BlockMask(p, b, c, d), src));
      SumZero({}, Slice(BlockMask(p, b, c, d), EMPTY_ID));
    }
  }

  /** One entry of a source row, added to the entry of the super-nodes' pair. */
  method AddEntry(newAdj0: Adjacency, ghost ids: set<Id>, adj: Adjacency, partition: Labels, repToNewID: Labels,
                  ghost P: set<Id>, ghost done: set<Id>, src: Id, ghost seen: set<Id>, dst: Id)
    returns (newAdj: Adjacency)
    requires IsGraph(ids, adj) && partition.Keys == ids && src in ids && dst in adj[src] && dst !in seen
    requires forall i :: i in ids ==>
      partition[i] in repToNewID && repToNewID[partition[i]] == partition[i] && partition[i] in P
    requires Holding(newAdj0, P, SoFar(ids, partition, Weights(adj), done, src, seen))
    ensures Holding(newAdj, P, SoFar(ids, partition, Weights(adj), done, src, seen + {dst}))
    ensures Sparse(adj) && Sparse(newAdj0) ==> Sparse(newAdj)
  {
    hide Sum, Sum2, SoFar;
    var newSrc, newDst := repToNewID[partition[src]], repToNewID[partition[dst]];
    newAdj := Bump(newAdj0, newSrc, newDst, adj[src][dst]);
    EntryAdded(ids, partition, Weights(adj), done, src, seen, dst, P, newAdj0, newAdj);
  }

  /** One source row: every entry is added to the entry of the super-nodes' pair. */
  method AddRow(newAdj0: Adjacency, ghost ids: set<Id>, adj: Adjacency, partition: Labels, repToNewID: Labels,
                ghost P: set<Id>, ghost done: set<Id>, src: Id) returns (newAdj: Adjacency)
    requires IsGraph(ids, adj) && partition.Keys == ids && src in ids && src !in done
    requires forall i :: i in ids ==>
      partition[i] in repToNewID && repToNewID[partition[i]] == partition[i] && partition[i] in P
    requires Holding(newAdj0, P, SoFar(ids, partition, Weights(adj), done, EMPTY_ID, {}))
    ensures Holding(newAdj, P, SoFar(ids, partition, Weights(adj), done + {src}, EMPTY_ID, {}))
    ensures Sparse(adj) && Sparse(newAdj0) ==> Sparse(newAdj)
  {
    hide Sum, Sum2, SoFar, Holding, Weights, Sparse;
    newAdj := newAdj0;
    RowStarts(ids, partition, Weights(adj), done, src, P, newAdj);
    var keys := Drain(adj[src].Keys);
    var dstIDs := SortIds(keys);
    SortDistinct(keys);
    ghost var seen: set<Id> := {};
    for n := 0 to |dstIDs|
      invariant forall x :: x in seen <==> x in dstIDs[..n]
      invariant Holding(newAdj, P, SoFar(ids, partition, Weights(adj), done, src, seen))
      invariant Sparse(adj) && Sparse(newAdj0) ==> Sparse(newAdj)
    {
      var dst := dstIDs[n];
      assert dst in dstIDs && dst !in dstIDs[..n];
      newAdj := AddEntry(newAdj, ids, adj, partition, repToNewID, P, done, src, seen, dst);
      seen := seen + {dst};
    }
    assert dstIDs[..|dstIDs|] == dstIDs;
    forall x
      ensures x in seen <==> x in adj[src].Keys
    {
    }
    SameSet(seen, adj[src].Keys);
    RowEnds(ids, adj, partition, done, src, P, newAdj);
  }

  /** An adjacency with an empty row for every new node. */
  method EmptyRows(newNodes: seq<Node>) returns (newAdj: Adjacency)
    ensures newAdj.Keys == NodeIds(newNodes)
    ensures (forall c :: c in newAdj ==> newAdj[c] == map[]) && Sparse(newAdj)
  {
    newAdj := map[];
    for n := 0 to |newNodes|
      invariant forall x :: x in newAdj <==> x in IdsOf(newNodes)[..n]
      invariant forall x :: x in newAdj ==> newAdj[x] == map[]
    {
      newAdj := newAdj[newNodes[n].id := map[]];
    }
    assert IdsOf(newNodes)[..|newNodes|] == IdsOf(newNodes);
    forall x
      ensures x in newAdj.Keys <==> x in NodeIds(newNodes)
    {
    }
    SameSet(newAdj.Keys, NodeIds(newNodes));
  }

  lemma {:induction false} EmptyHolds(ids: set<Id>, p: Labels, b: (Id, Id) -> real, P: set<Id>, a: Adjacency)
    requires a.Keys == P && forall c :: c in P ==> a[c] == map[]
    ensures Holding(a, P, SoFar(ids, p, b, {}, EMPTY_ID, {}))
  {
    forall c, d
      ensures Weight(a, c, d) == SoFar(ids, p, b, {}, EMPTY_ID, {})(c, d)
    {
      SumZero({}, Row(ids, BlockMask(p, b, c, d)));
      SumZero({}, Slice(BlockMask(p, b, c, d), EMPTY_ID));
    }
  }

  lemma {:induction false} AllRowsDone(ids: set<Id>, adj: Adjacency, p: Labels, P: set<Id>, a: Adjacency)
    requires Holding(a, P, SoFar(ids, p, Weights(adj), ids, EMPTY_ID, {})) && Maps(ids, p, P)
    ensures IsCoarse(ids, adj, p, P, a)
  {
    hide Sum, Sum2;
    forall c, d
      ensures Weight(a, c, d) == Block(ids, p, Weights(adj), c, d)
    {
      SumZero({}, Slice(BlockMask(p, Weights(adj), c, d), EMPTY_ID));
    }
  }

  /**
    Coarsening: the new nodes represent the composed ownership, and the new adjacency is
    the block sum of the old one.
  */
  method Coarsen(nodes: seq<Node>, adj: Adjacency, partition: Labels, ghost ents: set<Id>, ghost owner: Labels)
    returns (newNodes: seq<Node>, newAdj: Adjacency)
    requires IsWorkingGraph(nodes, adj)
    requires Represents(nodes, ents, owner) && IsCanonical(NodeIds(nodes), partition)
    ensures Represents(newNodes, ents, Compose(partition, owner)) && Ascending(IdsOf(newNodes))
    ensures IsCoarse(NodeIds(nodes), adj, partition, NodeIds(newNodes), newAdj)
    ensures IsWorkingGraph(newNodes, newAdj) && (Sparse(adj) ==> Sparse(newAdj))
  {
    hide *;
    ghost var ids := NodeIds(nodes);
    GraphKeys(nodes, adj, partition);
    var repToNewID;
    newNodes, repToNewID := SuperNodes(nodes, partition, ents, owner);
    ghost var P := NodeIds(newNodes);
    MapsInto(ids, partition, P);
    forall i | i in ids
      ensures partition[i] in repToNewID && repToNewID[partition[i]] == partition[i]
    {
      var r := partition[i];
      assert r in P;
    }
    newAdj := EmptyRows(newNodes);
    EmptyHolds(ids, partition, Weights(adj), P, newAdj);
    var keys := Drain(adj.Keys);
    var srcIDs := SortIds(keys);
    DrainedOnce(keys);
    ghost var done: set<Id> := {};
    for n := 0 to |srcIDs|
      invariant forall x :: x in done <==> x in srcIDs[..n]
      invariant Holding(newAdj, P, SoFar(ids, partition, Weights(adj), done, EMPTY_ID, {}))
      invariant Sparse(adj) ==> Sparse(newAdj)
    {
      var src := srcIDs[n];
      assert src in srcIDs && src !in srcIDs[..n];
      newAdj := AddRow(newAdj, ids, adj, partition, repToNewID, P, done, src);
      done := done + {src};
    }
    assert srcIDs[..|srcIDs|] == srcIDs;
    forall x
      ensures x in done <==> x in ids
    {
    }
    SameSet(done, ids);
    AllRowsDone(ids, adj, partition, P, newAdj);
    CoarseIsGraph(ids, adj, partition, P, newAdj);
    WorkingAgain(newNodes, newAdj, ents, Compose(partition, owner));
  }

  lemma GraphKeys(nodes: seq<Node>, adj: Adjacency, partition: Labels)
    requires IsWorkingGraph(nodes, adj) && IsCanonical(NodeIds(nodes), partition)
    ensures IsGraph(NodeIds(nodes), adj) && adj.Keys == NodeIds(nodes) && partition.Keys == NodeIds(nodes)
  {
  }

  lemma MapsInto(ids: set<Id>, p: Labels, P: set<Id>)
    requires Maps(ids, p, P) && p.Keys == ids
    ensures forall i :: i in ids ==> p[i] in P
  {
    forall i | i in ids
      ensures p[i] in P
    {
      assert At(p, i) in P;
    }
  }

  lemma DrainedOnce(keys: seq<Id>)
    requires Orders.Distinct(keys)
    ensures forall i, j :: 0 <= i < j < |SortIds(keys)| ==> SortIds(keys)[i] != SortIds(keys)[j]
  {
    SortDistinct(keys);
  }

  lemma WorkingAgain(nodes: seq<Node>, adj: Adjacency, ents: set<Id>, owner: Labels)
    requires Represents(nodes, ents, owner) && IsGraph(NodeIds(nodes), adj)
    ensures IsWorkingGraph(nodes, adj)
  {
  }
}
