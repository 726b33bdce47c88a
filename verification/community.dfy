/** Adjacency and communities: what both detectors start from and end with. */
module Communities {
  import Orders
  import opened Ids
  import opened Sums
  import opened Sorting
  import opened Modularity
  import opened Graphs
  import opened Options
  import opened LouvainPass
  import opened LouvainCoarsen

  /* ---- buildAdjacency ---- */

  /** r joins i and j, in either direction, and both ends are known. */
  predicate Joins(known: set<Id>, r: Relation, i: Id, j: Id) {
    && r.source != r.target && r.source in known && r.target in known
    && ((r.source == i && r.target == j) || (r.source == j && r.target == i))
  }

  /** The summed weight of the first n relations joining i and j. */
  ghost function JoinedWeight(known: set<Id>, relations: seq<Relation>, n: nat, i: Id, j: Id): real
    requires n <= |relations|
  {
    if n == 0 then 0.0 else
      var w := if Joins(known, relations[n - 1], i, j) then EdgeWeight(relations[n - 1]) else 0.0;
      JoinedWeight(known, relations, n - 1, i, j) + w
  }

  ghost function Joined(known: set<Id>, relations: seq<Relation>, n: nat): (Id, Id) -> real
    requires n <= |relations|
  {
    (i: Id, j: Id) => JoinedWeight(known, relations, n, i, j)
  }

  lemma {:induction false} JoinedFacts(known: set<Id>, relations: seq<Relation>, n: nat, i: Id, j: Id)
    requires n <= |relations|
    ensures JoinedWeight(known, relations, n, i, j) == JoinedWeight(known, relations, n, j, i) >= 0.0
    ensures i == j ==> JoinedWeight(known, relations, n, i, j) == 0.0
  {
    if n == 0 {
    } else {
      JoinedFacts(known, relations, n - 1, i, j);
    }
  }

  lemma {:induction false} JoinedIsGraph(known: set<Id>, relations: seq<Relation>, adj: Adjacency)
    requires Holding(adj, known, Joined(known, relations, |relations|))
    ensures IsGraph(known, adj)
    ensures forall i, j :: Weight(adj, i, j) == JoinedWeight(known, relations, |relations|, i, j)
    ensures forall i :: Weight(adj, i, i) == 0.0
  {
    hide JoinedWeight;
    forall i, j
      ensures Weight(adj, i, j) == JoinedWeight(known, relations, |relations|, i, j)
      ensures Weight(adj, i, j) == Weight(adj, j, i) >= 0.0
      ensures i == j ==> Weight(adj, i, j) == 0.0
    {
      JoinedFacts(known, relations, |relations|, i, j);
    }
  }

  predicate Skipped(known: set<Id>, r: Relation) {
    r.source == r.target || r.source !in known || r.target !in known
  }

  lemma SkippedRelation(known: set<Id>, relations: seq<Relation>, n: nat, adj: Adjacency)
    requires n < |relations| && Holding(adj, known, Joined(known, relations, n))
    requires Skipped(known, relations[n])
    ensures Holding(adj, known, Joined(known, relations, n + 1))
  {
  }

  /** Both directions of one relation. */
  method AddEdge(adj0: Adjacency, ghost known: set<Id>, ghost relations: seq<Relation>, ghost n: nat, r: Relation)
    returns (adj: Adjacency)
    requires n < |relations| && relations[n] == r && !Skipped(known, r)
    requires Holding(adj0, known, Joined(known, relations, n))
    ensures Holding(adj, known, Joined(known, relations, n + 1)) && (Sparse(adj0) ==> Sparse(adj))
  {
    hide JoinedWeight, Sparse;
    var w := EdgeWeight(r);
    var mid := Bump(adj0, r.source, r.target, w);
    adj := Bump(mid, r.target, r.source, w);
    forall x, y
      ensures Weight(adj, x, y) == JoinedWeight(known, relations, n + 1, x, y)
    {
      NextJoined(known, relations, n, x, y);
    }
  }

  lemma NextJoined(known: set<Id>, relations: seq<Relation>, n: nat, i: Id, j: Id)
    requires n < |relations|
    ensures JoinedWeight(known, relations, n + 1, i, j) == JoinedWeight(known, relations, n, i, j)
      + if Joins(known, relations[n], i, j) then EdgeWeight(relations[n]) else 0.0
  {
  }

  /** The symmetric adjacency: parallel relations sum, self-loops and unknown ends are skipped. */
  method BuildAdjacency(g: Graph) returns (adj: Adjacency)
    ensures IsGraph(EntitySet(g), adj)
    ensures forall i, j :: Weight(adj, i, j) == JoinedWeight(EntitySet(g), g.relations, |g.relations|, i, j)
    ensures (forall i :: Weight(adj, i, i) == 0.0) && Sparse(adj)
  {
    hide JoinedWeight, IsGraph, Holding, Joined;
    var known := EntitySet(g);
    adj := map id | id in known :: map[];
    assert Sparse(adj);
    hide Sparse;
    assert Holding(adj, known, Joined(known, g.relations, 0)) by {
      NoneJoined(known, g.relations, adj);
    }
    for n := 0 to |g.relations|
      invariant Holding(adj, known, Joined(known, g.relations, n)) && Sparse(adj)
    {
      if Skipped(known, g.relations[n]) {
        SkippedRelation(known, g.relations, n, adj);
      } else {
        adj := AddEdge(adj, known, g.relations, n, g.relations[n]);
      }
    }
    JoinedIsGraph(known, g.relations, adj);
  }

  lemma NoneJoined(known: set<Id>, relations: seq<Relation>, adj: Adjacency)
    requires adj.Keys == known && forall id :: id in known ==> adj[id] == map[]
    ensures Holding(adj, known, Joined(known, relations, 0))
  {
  }

  /* ---- communitiesFromLabels ---- */

  /** IDs of the relations with both ends labelled l. */
  function Inside(relations: seq<Relation>, labels: Labels, l: Id): seq<Id> {
    if relations == [] then [] else
      var r := relations[|relations| - 1];
      Inside(relations[..|relations| - 1], labels, l) +
      if r.source in labels && r.target in labels && labels[r.source] == l == labels[r.target] then [r.id] else []
  }

  /** r has both ends in label l. */
  ghost predicate IsInside(r: Relation, labels: Labels, l: Id) {
    r.source in labels && r.target in labels && labels[r.source] == l && labels[r.target] == l
  }

  /** They are the IDs of those relations, one for each. */
  lemma {:induction false} InsideMeans(relations: seq<Relation>, labels: Labels, l: Id)
    ensures forall id :: id in Inside(relations, labels, l) <==>
      exists k :: 0 <= k < |relations| && relations[k].id == id && IsInside(relations[k], labels, l)
    ensures |Inside(relations, labels, l)| == |set k | 0 <= k < |relations| && IsInside(relations[k], labels, l)|
  {
    var places := set k | 0 <= k < |relations| && IsInside(relations[k], labels, l);
    if relations == [] {
      assert places == {};
    } else {
      var n := |relations| - 1;
      var init, last := relations[..n], relations[n];
      InsideMeans(init, labels, l);
      var before := set k | 0 <= k < |init| && IsInside(init[k], labels, l);
      forall k
        ensures k in places <==> k in before || (k == n && IsInside(last, labels, l))
      {
        assert 0 <= k < n ==> init[k] == relations[k];
      }
      if IsInside(last, labels, l) {
        SameSet(places, before + {n});
      } else {
        SameSet(places, before);
      }
      InsideMembers(relations, labels, l);
    }
  }

  lemma InsideMembers(relations: seq<Relation>, labels: Labels, l: Id)
    requires relations != []
    requires var init := relations[..|relations| - 1];
      forall id :: id in Inside(init, labels, l) <==>
        exists k :: 0 <= k < |init| && init[k].id == id && IsInside(init[k], labels, l)
    ensures forall id :: id in Inside(relations, labels, l) <==>
      exists k :: 0 <= k < |relations| && relations[k].id == id && IsInside(relations[k], labels, l)
  {
    var init, last := relations[..|relations| - 1], relations[|relations| - 1];
    forall id
      ensures id in Inside(relations, labels, l) <==>
        exists k :: 0 <= k < |relations| && relations[k].id == id && IsInside(relations[k], labels, l)
    {
      if k :| 0 <= k < |init| && init[k].id == id && IsInside(init[k], labels, l) {
        assert relations[k] == init[k];
      }
      assert relations[|relations| - 1] == last;
    }
  }

  /** c is the class of its first member: sorted, named by level and lowest member. */
  ghost predicate IsCommunity(c: Community, labels: Labels, level: nat, relations: seq<Relation>) {
    && c.level == level
    && c.entityIds != [] && Ascending(c.entityIds)
    && c.id == CommunityId(level, c.entityIds[0])
    && (forall e :: e in c.entityIds <==> e in labels && At(labels, e) == At(labels, c.entityIds[0]))
    && c.relationIds == if level == 0 then SortIds(Inside(relations, labels, At(labels, c.entityIds[0]))) else []
  }

  /** The communities are the classes of the labelling, each once, in ID order. */
  ghost predicate IsLevel(comms: seq<Community>, labels: Labels, level: nat, relations: seq<Relation>) {
    && (forall i :: 0 <= i < |comms| ==> IsCommunity(comms[i], labels, level, relations))
    && (forall i, j :: 0 <= i < j < |comms| ==> comms[i].id.lowest < comms[j].id.lowest)
    && (forall e :: e in labels ==> exists i :: 0 <= i < |comms| && e in comms[i].entityIds)
  }

  /** Entity IDs grouped by labels, in whatever order the map yields them. */
  method GroupByLabel(labels: Labels) returns (members: map<Id, seq<Id>>)
    ensures forall l :: l in members ==> Orders.Distinct(members[l]) && members[l] != []
    ensures forall l, e :: l in members ==> (e in members[l] <==> e in labels && labels[e] == l)
    ensures forall e :: e in labels ==> labels[e] in members
  {
    members := map[];
    var todo := labels.Keys;
    while todo != {}
      invariant todo <= labels.Keys
      invariant forall l :: l in members ==> Orders.Distinct(members[l]) && members[l] != []
      invariant forall l, e :: l in members ==> (e in members[l] <==> e in labels && e !in todo && labels[e] == l)
      invariant forall e :: e in labels && e !in todo ==> labels[e] in members
    {
      var id := Next(todo);
      var l := labels[id];
      var list := if l in members then members[l] else [];
      assert Orders.Distinct(list + [id]);
      members := members[l := list + [id]];
      todo := todo - {id};
    }
  }

  function ListAt(m: map<Id, seq<Id>>, l: Id): seq<Id> {
    if l in m then m[l] else []
  }

  lemma InsideStep(relations: seq<Relation>, n: nat, labels: Labels, l: Id)
    requires n < |relations|
    ensures var r := relations[n];
      Inside(relations[..n + 1], labels, l) == Inside(relations[..n], labels, l)
        + if r.source in labels && r.target in labels && labels[r.source] == l && labels[r.target] == l then [r.id] else []
  {
    assert relations[..n + 1][..n] == relations[..n];
  }

  method AppendId(m: map<Id, seq<Id>>, l: Id, id: Id) returns (next: map<Id, seq<Id>>)
    ensures forall y :: ListAt(next, y) == ListAt(m, y) + if y == l then [id] else []
  {
    next := m[l := ListAt(m, l) + [id]];
  }

  /** Level-0 relations by the label both ends carry. */
  method RelationsByLabel(relations: seq<Relation>, labels: Labels) returns (rels: map<Id, seq<Id>>)
    ensures forall l :: ListAt(rels, l) == Inside(relations, labels, l)
  {
    hide Inside;
    rels := map[];
    forall l
      ensures Inside(relations[..0], labels, l) == []
    {
      NothingInside(labels, l);
    }
    for n := 0 to |relations|
      invariant forall l :: ListAt(rels, l) == Inside(relations[..n], labels, l)
    {
      hide ListAt;
      var r := relations[n];
      forall l
        ensures Inside(relations[..n + 1], labels, l) == Inside(relations[..n], labels, l)
          + if r.source in labels && r.target in labels && labels[r.source] == l && labels[r.target] == l then [r.id] else []
      {
        InsideStep(relations, n, labels, l);
      }
      if r.source in labels && r.target in labels && labels[r.source] == labels[r.target] {
        rels := AppendId(rels, labels[r.source], r.id);
      }
    }
    assert relations[..|relations|] == relations;
  }

  lemma NothingInside(labels: Labels, l: Id)
    ensures Inside([], labels, l) == []
  {
  }

  /** The community of one labels. */
  method MakeCommunity(list: seq<Id>, labels: Labels, ghost l: Id, level: nat, relIDs: seq<Id>,
                       ghost relations: seq<Relation>)
    returns (c: Community)
    requires Orders.Distinct(list) && list != [] && forall e :: e in list <==> e in labels && labels[e] == l
    requires relIDs == if level == 0 then Inside(relations, labels, l) else []
    ensures IsCommunity(c, labels, level, relations) && c.entityIds[0] in labels && labels[c.entityIds[0]] == l
    ensures c.parent == None
    ensures forall e :: e in c.entityIds <==> e in list
  {
    var ids := SortIds(list);
    SortedMembers(list);
    assert list[0] in ids;
    assert ids[0] in ids;
    c := Community(CommunityId(level, ids[0]), level, None, ids, SortIds(relIDs));
  }

  ghost predicate OneEach(out: set<Community>) {
    forall c, d :: c in out && d in out && c.id.lowest == d.id.lowest ==> c == d
  }

  /** Communities listed by ascending ID. */
  method InIdOrder(out: set<Community>) returns (comms: seq<Community>)
    requires OneEach(out)
    ensures forall i, j :: 0 <= i < j < |comms| ==> comms[i].id.lowest < comms[j].id.lowest
    ensures forall c :: c in comms <==> c in out
  {
    var byLowest: map<Id, Community> := map[];
    var todo := out;
    while todo != {}
      invariant todo <= out
      invariant forall k :: k in byLowest ==> byLowest[k].id.lowest == k && byLowest[k] in out
      invariant forall c :: c in out && c !in todo ==> c.id.lowest in byLowest && byLowest[c.id.lowest] == c
    {
      var c := Next(todo);
      byLowest := byLowest[c.id.lowest := c];
      todo := todo - {c};
    }
    comms := ByKey(byLowest);
  }

  method ByKey(byLowest: map<Id, Community>) returns (comms: seq<Community>)
    requires forall k :: k in byLowest ==> byLowest[k].id.lowest == k
    ensures forall i, j :: 0 <= i < j < |comms| ==> comms[i].id.lowest < comms[j].id.lowest
    ensures forall c :: c in comms <==> c.id.lowest in byLowest && byLowest[c.id.lowest] == c
  {
    hide Orders.Distinct, Sorted;
    var keys := Drain(byLowest.Keys);
    var order := SortIds(keys);
    SortedMembers(keys);
    forall i | 0 <= i < |order|
      ensures order[i] in byLowest
    {
      assert order[i] in order;
    }
    comms := seq(|order|, i requires 0 <= i < |order| => byLowest[order[i]]);
    assert forall i :: 0 <= i < |order| ==> comms[i] == byLowest[order[i]] && comms[i].id.lowest == order[i];
    forall c: Community | c.id.lowest in byLowest && byLowest[c.id.lowest] == c
      ensures c in comms
    {
      assert c.id.lowest in order;
      var i :| 0 <= i < |order| && order[i] == c.id.lowest;
      assert comms[i] == c;
    }
  }

  /** c is the community of label l. */
  ghost predicate CommunityOf(c: Community, labels: Labels, level: nat, relations: seq<Relation>, l: Id) {
    IsCommunity(c, labels, level, relations) && At(labels, c.id.lowest) == l
  }

  method CommunitiesFromLabels(relations: seq<Relation>, labels: Labels, level: nat) returns (comms: seq<Community>)
    ensures IsLevel(comms, labels, level, relations)
    ensures forall c :: c in comms ==> c.parent == None
  {
    hide Orders.Distinct, Ascending, IsCommunity;
    var members := GroupByLabel(labels);
    var rels: map<Id, seq<Id>> := map[];
    if level == 0 {
      rels := RelationsByLabel(relations, labels);
    }
    var out: set<Community> := {};
    var todo := members.Keys;
    while todo != {}
      invariant todo <= members.Keys && OneEach(out)
      invariant forall c :: c in out ==> IsCommunity(c, labels, level, relations) && At(labels, c.id.lowest) !in todo
      invariant forall c :: c in out ==> c.parent == None
      invariant forall l :: l in members && l !in todo ==>
        exists c :: c in out && CommunityOf(c, labels, level, relations, l)
    {
      var l := Next(todo);
      var c := MakeCommunity(members[l], labels, l, level, ListAt(rels, l), relations);
      LowestIsFirst(c, labels, level, relations);
      assert CommunityOf(c, labels, level, relations, l);
      out := out + {c};
      todo := todo - {l};
    }
    comms := InIdOrder(out);
    forall e | e in labels
      ensures exists i :: 0 <= i < |comms| && e in comms[i].entityIds
    {
      var c :| c in out && CommunityOf(c, labels, level, relations, labels[e]);
      InItsCommunity(c, labels, level, relations, e);
      assert c in comms;
    }
  }

  lemma LowestIsFirst(c: Community, labels: Labels, level: nat, relations: seq<Relation>)
    requires IsCommunity(c, labels, level, relations)
    ensures c.id.lowest == c.entityIds[0]
  {
  }

  /**
    At level 0 a community lists, sorted, the relations with both ends among its members, one
    ID for each; at higher levels none.
  */
  lemma ListsItsRelations(c: Community, labels: Labels, level: nat, relations: seq<Relation>)
    requires IsCommunity(c, labels, level, relations)
    ensures Sorted(c.relationIds) && (level > 0 ==> c.relationIds == [])
    ensures level == 0 ==> forall id :: id in c.relationIds <==>
      exists k :: 0 <= k < |relations| && relations[k].id == id && HasBothEnds(c, relations[k])
    ensures level == 0 ==> |c.relationIds| == |set k | 0 <= k < |relations| && HasBothEnds(c, relations[k])|
  {
    if level == 0 {
      var l := At(labels, c.entityIds[0]);
      assert c.entityIds[0] in c.entityIds;
      forall r: Relation
        ensures HasBothEnds(c, r) <==> IsInside(r, labels, l)
      {
      }
      hide Inside, HasBothEnds, IsInside;
      var inside := Inside(relations, labels, l);
      InsideMeans(relations, labels, l);
      forall id
        ensures id in c.relationIds <==> id in inside
      {
        SameElements(c.relationIds, inside, id);
      }
      assert |multiset(c.relationIds)| == |multiset(inside)|;
      var a := set k | 0 <= k < |relations| && IsInside(relations[k], labels, l);
      var b := set k | 0 <= k < |relations| && HasBothEnds(c, relations[k]);
      forall k
        ensures k in a <==> k in b
      {
      }
      SameSet(a, b);
    }
  }

  ghost predicate HasBothEnds(c: Community, r: Relation) {
    r.source in c.entityIds && r.target in c.entityIds
  }

  lemma InItsCommunity(c: Community, labels: Labels, level: nat, relations: seq<Relation>, e: Id)
    requires e in labels && CommunityOf(c, labels, level, relations, labels[e])
    ensures e in c.entityIds
  {
  }
}
