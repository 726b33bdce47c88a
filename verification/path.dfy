/** Ranking the simple paths between seed pairs of a subgraph. */
module Paths {
  import opened Ids
  import opened Sums
  import opened Graphs
  import opened Orders

  const MAX_PATH_LEN: nat := 2
  const DEFAULT_LENGTH_DECAY := 0.5
  const PROVENANCE_BONUS := 0.1

  datatype RankedPath = RankedPath(entityIds: seq<Id>, relationIds: seq<Id>, score: real)

  datatype Edge = Edge(to: Id, relID: Id)

  type Adjacency = map<Id, seq<Edge>>

  function EdgesAt(adj: Adjacency, id: Id): seq<Edge> {
    if id in adj then adj[id] else []
  }

  /* ---- Scores ---- */

  ghost function Power(base: real, n: nat): real {
    if n == 0 then 1.0 else Power(base, n - 1) * base
  }

  /** A relation missing from the table reads as the zero relation. */
  function RelationOf(relByID: map<Id, Relation>, id: Id): Relation {
    if id in relByID then relByID[id] else Relation(EMPTY_ID, EMPTY_ID, EMPTY_ID, "", "", [], 0.0)
  }

  ghost function WeightProduct(relByID: map<Id, Relation>, rels: seq<Id>, n: nat): real
    requires n <= |rels|
  {
    if n == 0 then 1.0 else WeightProduct(relByID, rels, n - 1) * EdgeWeight(RelationOf(relByID, rels[n - 1]))
  }

  /** Two relations cite a common chunk. */
  ghost predicate CoAttested(a: Relation, b: Relation) {
    exists c :: c in a.sources && c in b.sources
  }

  /** Consecutive co-attested pairs among the first n + 1 relations. */
  ghost function CoAttestedPairs(relByID: map<Id, Relation>, rels: seq<Id>, n: nat): nat
    requires n == 0 || n < |rels|
  {
    if n == 0 then 0 else
      CoAttestedPairs(relByID, rels, n - 1) +
      if CoAttested(RelationOf(relByID, rels[n - 1]), RelationOf(relByID, rels[n])) then 1 else 0
  }

  /** Length decay times edge weights times one bonus factor per co-attested pair. */
  ghost function Score(relByID: map<Id, Relation>, rels: seq<Id>, decay: real): real {
    if rels == [] then 0.0 else
      var weighted := Power(decay, |rels| - 1) * WeightProduct(relByID, rels, |rels|);
      Boosted(weighted, CoAttestedPairs(relByID, rels, |rels| - 1))
  }

  ghost function Boosted(weighted: real, pairs: nat): real {
    weighted * Power(1.0 + PROVENANCE_BONUS, pairs)
  }

  lemma BoostedNone(weighted: real)
    ensures Boosted(weighted, 0) == weighted
  {
  }

  lemma BoostedMore(weighted: real, pairs: nat)
    ensures Boosted(weighted, pairs + 1) == Boosted(weighted, pairs) * (1.0 + PROVENANCE_BONUS)
  {
    Associate(weighted, Power(1.0 + PROVENANCE_BONUS, pairs), 1.0 + PROVENANCE_BONUS);
  }

  lemma Associate(a: real, b: real, c: real)
    ensures a * (b * c) == (a * b) * c
  {
  }

  method ShareChunk(a: Relation, b: Relation) returns (shared: bool)
    ensures shared <==> CoAttested(a, b)
  {
    if |a.sources| == 0 || |b.sources| == 0 {
      return false;
    }
    var seen := set c | c in a.sources;
    for i := 0 to |b.sources|
      invariant forall c :: c in b.sources[..i] ==> c !in seen
    {
      var c := b.sources[i];
      if c in seen {
        assert c in a.sources && c in b.sources;
        return true;
      }
      assert b.sources[..i + 1] == b.sources[..i] + [c];
    }
    assert b.sources[..|b.sources|] == b.sources;
    shared := false;
  }

  method ScorePath(relIDs: seq<Id>, relByID: map<Id, Relation>, decay: real) returns (score: real)
    ensures score == Score(relByID, relIDs, decay)
  {
    hide CoAttested, EdgeWeight;
    var edges := |relIDs|;
    if edges == 0 {
      return 0.0;
    }
    score := 1.0;
    for i := 0 to edges - 1
      invariant score == Power(decay, i)
    {
      score := score * decay;
    }
    score := TimesWeights(score, relIDs, relByID);
    score := TimesBonuses(score, relIDs, relByID);
  }

  method TimesWeights(base: real, relIDs: seq<Id>, relByID: map<Id, Relation>) returns (score: real)
    ensures score == base * WeightProduct(relByID, relIDs, |relIDs|)
  {
    hide EdgeWeight;
    score := base;
    for i := 0 to |relIDs|
      invariant score == base * WeightProduct(relByID, relIDs, i)
    {
      Associate(base, WeightProduct(relByID, relIDs, i), EdgeWeight(RelationOf(relByID, relIDs[i])));
      score := score * EdgeWeight(RelationOf(relByID, relIDs[i]));
    }
  }

  method TimesBonuses(weighted: real, relIDs: seq<Id>, relByID: map<Id, Relation>) returns (score: real)
    requires relIDs != []
    ensures score == Boosted(weighted, CoAttestedPairs(relByID, relIDs, |relIDs| - 1))
  {
    hide CoAttested, RelationOf, Boosted;
    score := weighted;
    BoostedNone(weighted);
    for i := 0 to |relIDs| - 1
      invariant score == Boosted(weighted, CoAttestedPairs(relByID, relIDs, i))
    {
      var shared := ShareChunk(RelationOf(relByID, relIDs[i]), RelationOf(relByID, relIDs[i + 1]));
      if shared {
        BoostedMore(weighted, CoAttestedPairs(relByID, relIDs, i));
        score := score * (1.0 + PROVENANCE_BONUS);
      }
    }
  }

  /* ---- Simple paths ---- */

  /** rels leads from ents[0] along ents, one adjacency entry per step. */
  ghost predicate IsTrail(adj: Adjacency, ents: seq<Id>, rels: seq<Id>) {
    && |ents| == |rels| + 1
    && forall i :: 0 <= i < |rels| ==> IsStep(adj, ents, rels, i)
  }

  ghost predicate IsStep(adj: Adjacency, ents: seq<Id>, rels: seq<Id>, i: nat)
    requires i < |rels| && |ents| == |rels| + 1
  {
    Edge(ents[i + 1], rels[i]) in EdgesAt(adj, ents[i])
  }

  /** p continues the trail (curEnts, curRels) to dst as a simple path of at most maxLen edges. */
  ghost predicate Continues(adj: Adjacency, dst: Id, curEnts: seq<Id>, curRels: seq<Id>, maxLen: nat, ents: seq<Id>,
                            rels: seq<Id>) {
    && IsTrail(adj, ents, rels) && Distinct(ents)
    && |curRels| < |rels| <= maxLen && curEnts <= ents && curRels <= rels
    && ents[|ents| - 1] == dst
  }

  /** What the search finds from the first n edges of its current node. */
  ghost function FoundTo(adj: Adjacency, relByID: map<Id, Relation>, cur: Id, dst: Id, curEnts: seq<Id>,
                         curRels: seq<Id>, visited: set<Id>, decay: real, maxLen: nat, n: nat): seq<RankedPath>
    requires n <= |EdgesAt(adj, cur)| && |curRels| < maxLen
    decreases maxLen - |curRels|, n
  {
    if n == 0 then [] else
      FoundTo(adj, relByID, cur, dst, curEnts, curRels, visited, decay, maxLen, n - 1)
      + FoundBy(adj, relByID, EdgesAt(adj, cur)[n - 1], dst, curEnts, curRels, visited, decay, maxLen)
  }

  /** What the search finds through one edge. */
  ghost function FoundBy(adj: Adjacency, relByID: map<Id, Relation>, e: Edge, dst: Id, curEnts: seq<Id>,
                         curRels: seq<Id>, visited: set<Id>, decay: real, maxLen: nat): seq<RankedPath>
    requires |curRels| < maxLen
    decreases maxLen - |curRels|, 0
  {
    var ents, rels := curEnts + [e.to], curRels + [e.relID];
    if e.to in visited then []
    else if e.to == dst then [RankedPath(ents, rels, Score(relByID, rels, decay))]
    else if |rels| >= maxLen then []
    else FoundTo(adj, relByID, e.to, dst, ents, rels, visited + {e.to}, decay, maxLen, |EdgesAt(adj, e.to)|)
  }

  ghost function Found(adj: Adjacency, relByID: map<Id, Relation>, cur: Id, dst: Id, curEnts: seq<Id>, curRels: seq<Id>,
                       visited: set<Id>, decay: real, maxLen: nat): seq<RankedPath>
  {
    if |curRels| >= maxLen then []
    else FoundTo(adj, relByID, cur, dst, curEnts, curRels, visited, decay, maxLen, |EdgesAt(adj, cur)|)
  }

  /** The depth-first search: its path set and its result list, both changed in place. */
  class PathSearch {
    var visited: set<Id>
    var out: seq<RankedPath>

    constructor (from: Id)
      ensures visited == {from} && out == []
    {
      visited, out := {from}, [];
    }

    /** Appends what Found describes, and restores visited on return. */
    method EnumPaths(adj: Adjacency, relByID: map<Id, Relation>, cur: Id, dst: Id, curEnts: seq<Id>, curRels: seq<Id>,
                     decay: real, maxLen: nat)
      modifies this
      ensures visited == old(visited)
      ensures out == old(out) + Found(adj, relByID, cur, dst, curEnts, curRels, old(visited), decay, maxLen)
      decreases maxLen - |curRels|
    {
      hide Score, EdgesAt;
      if |curRels| >= maxLen {
        return;
      }
      var edges := EdgesAt(adj, cur);
      for n := 0 to |edges|
        invariant visited == old(visited)
        invariant out == old(out) + FoundTo(adj, relByID, cur, dst, curEnts, curRels, old(visited), decay, maxLen, n)
      {
        var e := edges[n];
        if e.to in visited {
          continue;
        }
        var nextEnts, nextRels := curEnts + [e.to], curRels + [e.relID];
        if e.to == dst {
          var score := ScorePath(nextRels, relByID, decay);
          out := out + [RankedPath(nextEnts, nextRels, score)];
          continue;
        }
        visited := visited + {e.to};
        EnumPaths(adj, relByID, e.to, dst, nextEnts, nextRels, decay, maxLen);
        visited := visited - {e.to};
      }
    }
  }

  /* ---- The search finds every simple path, once ---- */

  /** A simple trail to cur that has not met dst, with visited its members. */
  ghost predicate IsPartial(adj: Adjacency, cur: Id, dst: Id, curEnts: seq<Id>, curRels: seq<Id>, visited: set<Id>) {
    && IsTrail(adj, curEnts, curRels) && Distinct(curEnts)
    && curEnts[|curEnts| - 1] == cur && dst !in curEnts
    && forall x :: x in visited <==> x in curEnts
  }

  lemma ExtendPartial(adj: Adjacency, cur: Id, dst: Id, curEnts: seq<Id>, curRels: seq<Id>, visited: set<Id>, e: Edge)
    requires IsPartial(adj, cur, dst, curEnts, curRels, visited) && e in EdgesAt(adj, cur) && e.to !in visited
    ensures IsTrail(adj, curEnts + [e.to], curRels + [e.relID]) && Distinct(curEnts + [e.to])
    ensures e.to != dst ==> IsPartial(adj, e.to, dst, curEnts + [e.to], curRels + [e.relID], visited + {e.to})
  {
    var ents, rels := curEnts + [e.to], curRels + [e.relID];
    forall i | 0 <= i < |rels|
      ensures IsStep(adj, ents, rels, i)
    {
      if i < |curRels| {
        assert IsStep(adj, curEnts, curRels, i);
      }
    }
    forall i, j | 0 <= i < j < |ents|
      ensures ents[i] != ents[j]
    {
      if j == |curEnts| {
        assert ents[i] in curEnts;
      }
    }
  }

  /** p is a scored continuation of the trail. */
  ghost predicate IsHit(adj: Adjacency, relByID: map<Id, Relation>, dst: Id, curEnts: seq<Id>, curRels: seq<Id>,
                        decay: real, maxLen: nat, p: RankedPath) {
    Continues(adj, dst, curEnts, curRels, maxLen, p.entityIds, p.relationIds) && p.score == Score(relByID, p.relationIds, decay)
  }

  ghost predicate Through(p: RankedPath, curEnts: seq<Id>, curRels: seq<Id>, e: Edge) {
    curEnts + [e.to] <= p.entityIds && curRels + [e.relID] <= p.relationIds
  }

  /** A trail that reaches dst as its end and repeats nothing stops there. */
  lemma EndsAtFirstVisit(ents: seq<Id>, dst: Id, i: nat)
    requires Distinct(ents) && i < |ents| && ents[i] == dst && ents[|ents| - 1] == dst
    ensures i == |ents| - 1
  {
  }

  lemma {:induction false} FoundByIff(adj: Adjacency, relByID: map<Id, Relation>, cur: Id, e: Edge, dst: Id,
                                      curEnts: seq<Id>, curRels: seq<Id>, visited: set<Id>, decay: real, maxLen: nat,
                                      p: RankedPath)
    requires IsPartial(adj, cur, dst, curEnts, curRels, visited) && |curRels| < maxLen && e in EdgesAt(adj, cur)
    ensures p in FoundBy(adj, relByID, e, dst, curEnts, curRels, visited, decay, maxLen) <==>
      IsHit(adj, relByID, dst, curEnts, curRels, decay, maxLen, p) && Through(p, curEnts, curRels, e)
    decreases maxLen - |curRels|, 0
  {
    hide Score;
    var ents, rels := curEnts + [e.to], curRels + [e.relID];
    if IsHit(adj, relByID, dst, curEnts, curRels, decay, maxLen, p) && Through(p, curEnts, curRels, e) {
      ThroughNew(adj, dst, curEnts, curRels, visited, maxLen, p, e, cur);
    }
    if e.to !in visited {
      ExtendPartial(adj, cur, dst, curEnts, curRels, visited, e);
      if e.to == dst {
        assert |ents| == |rels| + 1;
        if Through(p, curEnts, curRels, e) && IsHit(adj, relByID, dst, curEnts, curRels, decay, maxLen, p) {
          assert p.entityIds[|curEnts|] == e.to;
          EndsAtFirstVisit(p.entityIds, dst, |curEnts|);
          assert p.entityIds == ents && p.relationIds == rels;
        }
      } else if |rels| < maxLen {
        FoundIff(adj, relByID, e.to, dst, ents, rels, visited + {e.to}, decay, maxLen, p);
      }
    }
  }

  /** A simple continuation through e goes somewhere new, and further unless e leads to dst. */
  lemma ThroughNew(adj: Adjacency, dst: Id, curEnts: seq<Id>, curRels: seq<Id>, visited: set<Id>, maxLen: nat,
                   p: RankedPath, e: Edge, cur: Id)
    requires IsPartial(adj, cur, dst, curEnts, curRels, visited)
    requires Continues(adj, dst, curEnts, curRels, maxLen, p.entityIds, p.relationIds)
    requires Through(p, curEnts, curRels, e)
    ensures e.to !in visited
    ensures e.to != dst ==> |curRels| + 1 < |p.relationIds| <= maxLen
  {
    var next := e.to;
    assert p.entityIds[|curEnts|] == next;
    forall i | 0 <= i < |curEnts|
      ensures curEnts[i] != next
    {
      assert p.entityIds[i] == curEnts[i];
    }
    assert next !in curEnts;
  }

  lemma {:induction false} FoundToIff(adj: Adjacency, relByID: map<Id, Relation>, cur: Id, dst: Id, curEnts: seq<Id>,
                                      curRels: seq<Id>, visited: set<Id>, decay: real, maxLen: nat, n: nat,
                                      p: RankedPath)
    requires IsPartial(adj, cur, dst, curEnts, curRels, visited) && |curRels| < maxLen && n <= |EdgesAt(adj, cur)|
    ensures p in FoundTo(adj, relByID, cur, dst, curEnts, curRels, visited, decay, maxLen, n) <==>
      IsHit(adj, relByID, dst, curEnts, curRels, decay, maxLen, p) &&
      exists k :: 0 <= k < n && Through(p, curEnts, curRels, EdgesAt(adj, cur)[k])
    decreases maxLen - |curRels|, n
  {
    hide IsHit, IsPartial, Through, EdgesAt, FoundBy;
    if n == 0 {
    } else {
      FoundToIff(adj, relByID, cur, dst, curEnts, curRels, visited, decay, maxLen, n - 1, p);
      FoundByIff(adj, relByID, cur, EdgesAt(adj, cur)[n - 1], dst, curEnts, curRels, visited, decay, maxLen, p);
    }
  }

  /** The search lists exactly the scored simple continuations of at most maxLen edges. */
  lemma {:induction false} FoundIff(adj: Adjacency, relByID: map<Id, Relation>, cur: Id, dst: Id, curEnts: seq<Id>,
                                    curRels: seq<Id>, visited: set<Id>, decay: real, maxLen: nat, p: RankedPath)
    requires IsPartial(adj, cur, dst, curEnts, curRels, visited)
    ensures p in Found(adj, relByID, cur, dst, curEnts, curRels, visited, decay, maxLen) <==>
      IsHit(adj, relByID, dst, curEnts, curRels, decay, maxLen, p)
    decreases maxLen - |curRels|, |EdgesAt(adj, cur)| + 1
  {
    hide Score;
    if |curRels| < maxLen {
      FoundToIff(adj, relByID, cur, dst, curEnts, curRels, visited, decay, maxLen, |EdgesAt(adj, cur)|, p);
      if IsHit(adj, relByID, dst, curEnts, curRels, decay, maxLen, p) {
        FirstEdge(adj, cur, dst, curEnts, curRels, visited, maxLen, p);
      }
    }
  }

  lemma FirstEdge(adj: Adjacency, cur: Id, dst: Id, curEnts: seq<Id>, curRels: seq<Id>, visited: set<Id>, maxLen: nat,
                  p: RankedPath)
    requires IsPartial(adj, cur, dst, curEnts, curRels, visited)
    requires Continues(adj, dst, curEnts, curRels, maxLen, p.entityIds, p.relationIds)
    ensures exists k :: 0 <= k < |EdgesAt(adj, cur)| && Through(p, curEnts, curRels, EdgesAt(adj, cur)[k])
  {
    var i := |curRels|;
    assert IsStep(adj, p.entityIds, p.relationIds, i);
    assert p.entityIds[i] == curEnts[i];
    var e := Edge(p.entityIds[i + 1], p.relationIds[i]);
    var k :| 0 <= k < |EdgesAt(adj, cur)| && EdgesAt(adj, cur)[k] == e;
    assert Through(p, curEnts, curRels, e);
  }

  /* ---- No path twice ---- */

  ghost predicate EdgesOnce(adj: Adjacency) {
    forall id :: Distinct(EdgesAt(adj, id))
  }

  lemma DifferConcat(a: seq<RankedPath>, b: seq<RankedPath>)
    requires Distinct(a) && Distinct(b) && forall p :: p in a ==> p !in b
    ensures Distinct(a + b)
  {
    forall i, j | 0 <= i < j < |a + b|
      ensures (a + b)[i] != (a + b)[j]
    {
      if i < |a| <= j {
        assert a[i] in a;
      }
    }
  }

  /** Nothing found through the first n edges is found through a later, different edge. */
  lemma FoundApart(adj: Adjacency, relByID: map<Id, Relation>, cur: Id, dst: Id, curEnts: seq<Id>, curRels: seq<Id>,
                   visited: set<Id>, decay: real, maxLen: nat, n: nat, p: RankedPath)
    requires IsPartial(adj, cur, dst, curEnts, curRels, visited) && |curRels| < maxLen && n < |EdgesAt(adj, cur)|
    requires EdgesOnce(adj)
    requires p in FoundTo(adj, relByID, cur, dst, curEnts, curRels, visited, decay, maxLen, n)
    ensures p !in FoundBy(adj, relByID, EdgesAt(adj, cur)[n], dst, curEnts, curRels, visited, decay, maxLen)
  {
    hide Score, IsPartial, IsHit, FoundTo, FoundBy, Through;
    var e := EdgesAt(adj, cur)[n];
    FoundToIff(adj, relByID, cur, dst, curEnts, curRels, visited, decay, maxLen, n, p);
    FoundByIff(adj, relByID, cur, e, dst, curEnts, curRels, visited, decay, maxLen, p);
    var k :| 0 <= k < n && Through(p, curEnts, curRels, EdgesAt(adj, cur)[k]);
    if Through(p, curEnts, curRels, e) {
      OneFirstEdge(p, curEnts, curRels, EdgesAt(adj, cur)[k], e);
      assert false;
    }
  }

  /** With no edge listed twice no path is found twice. */
  lemma {:induction false} FoundOnce(adj: Adjacency, relByID: map<Id, Relation>, cur: Id, dst: Id, curEnts: seq<Id>,
                                     curRels: seq<Id>, visited: set<Id>, decay: real, maxLen: nat, n: nat)
    requires IsPartial(adj, cur, dst, curEnts, curRels, visited) && |curRels| < maxLen && n <= |EdgesAt(adj, cur)|
    requires EdgesOnce(adj)
    ensures Distinct(FoundTo(adj, relByID, cur, dst, curEnts, curRels, visited, decay, maxLen, n))
    decreases maxLen - |curRels|, n
  {
    hide Score, IsPartial, EdgesOnce;
    if n == 0 {
    } else {
      var e := EdgesAt(adj, cur)[n - 1];
      var front := FoundTo(adj, relByID, cur, dst, curEnts, curRels, visited, decay, maxLen, n - 1);
      var back := FoundBy(adj, relByID, e, dst, curEnts, curRels, visited, decay, maxLen);
      FoundOnce(adj, relByID, cur, dst, curEnts, curRels, visited, decay, maxLen, n - 1);
      if e.to !in visited && e.to != dst && |curRels| + 1 < maxLen {
        ExtendPartial(adj, cur, dst, curEnts, curRels, visited, e);
        FoundOnce(adj, relByID, e.to, dst, curEnts + [e.to], curRels + [e.relID], visited + {e.to}, decay, maxLen,
                  |EdgesAt(adj, e.to)|);
      }
      forall p | p in front
        ensures p !in back
      {
        FoundApart(adj, relByID, cur, dst, curEnts, curRels, visited, decay, maxLen, n - 1, p);
      }
      DifferConcat(front, back);
    }
  }

  lemma OneFirstEdge(p: RankedPath, curEnts: seq<Id>, curRels: seq<Id>, e: Edge, f: Edge)
    requires Through(p, curEnts, curRels, e) && Through(p, curEnts, curRels, f)
    ensures e == f
  {
    assert p.entityIds[|curEnts|] == (curEnts + [e.to])[|curEnts|] == (curEnts + [f.to])[|curEnts|];
    assert p.relationIds[|curRels|] == (curRels + [e.relID])[|curRels|] == (curRels + [f.relID])[|curRels|];
  }

  /* ---- The adjacency of a subgraph ---- */

  /** r is an edge between a and b, both known. */
  ghost predicate Joins(known: set<Id>, r: Relation, a: Id, b: Id) {
    && a != b && a in known && b in known
    && ((r.source == a && r.target == b) || (r.source == b && r.target == a))
  }

  /** What one relation adds to the edge list of id. */
  ghost function Adds(known: set<Id>, r: Relation, id: Id): multiset<Edge> {
    if r.source == r.target || r.source !in known || r.target !in known then multiset{}
    else if id == r.source then multiset{Edge(r.target, r.id)}
    else if id == r.target then multiset{Edge(r.source, r.id)}
    else multiset{}
  }

  ghost function Incident(known: set<Id>, rels: seq<Relation>, n: nat, id: Id): multiset<Edge>
    requires n <= |rels|
  {
    if n == 0 then multiset{} else Incident(known, rels, n - 1, id) + Adds(known, rels[n - 1], id)
  }

  ghost predicate DistinctIds(rels: seq<Relation>) {
    forall i, j :: 0 <= i < j < |rels| ==> rels[i].id != rels[j].id
  }

  lemma AddsIff(known: set<Id>, r: Relation, id: Id, e: Edge)
    ensures e in Adds(known, r, id) <==> r.id == e.relID && Joins(known, r, id, e.to)
    ensures Adds(known, r, id)[e] <= 1
  {
  }

  lemma {:induction false} IncidentIff(known: set<Id>, rels: seq<Relation>, n: nat, id: Id, e: Edge)
    requires n <= |rels|
    ensures e in Incident(known, rels, n, id) <==>
      exists k :: 0 <= k < n && rels[k].id == e.relID && Joins(known, rels[k], id, e.to)
  {
    hide Adds, Joins;
    if n == 0 {
    } else {
      IncidentIff(known, rels, n - 1, id, e);
      AddsIff(known, rels[n - 1], id, e);
    }
  }

  lemma {:induction false} IncidentOnce(known: set<Id>, rels: seq<Relation>, n: nat, id: Id, e: Edge)
    requires n <= |rels| && DistinctIds(rels)
    ensures Incident(known, rels, n, id)[e] <= 1
  {
    hide Adds, Joins;
    if n == 0 {
    } else {
      IncidentOnce(known, rels, n - 1, id, e);
      AddsIff(known, rels[n - 1], id, e);
      IncidentIff(known, rels, n - 1, id, e);
    }
  }

  predicate EdgeBefore(a: Edge, b: Edge) {
    if a.to != b.to then a.to < b.to else a.relID < b.relID
  }

  /** The edges of each known entity, sorted by neighbour and then by relation. */
  ghost predicate IsEdgeTable(known: set<Id>, rels: seq<Relation>, adj: Adjacency) {
    forall id :: multiset(EdgesAt(adj, id)) == Incident(known, rels, |rels|, id) && Ordered(EdgeBefore, EdgesAt(adj, id))
  }

  /** With distinct relation IDs the table lists each incident edge once. */
  lemma TableOnce(known: set<Id>, rels: seq<Relation>, adj: Adjacency)
    requires IsEdgeTable(known, rels, adj) && DistinctIds(rels)
    ensures EdgesOnce(adj)
  {
    forall id
      ensures Distinct(EdgesAt(adj, id))
    {
      forall e: Edge
        ensures multiset(EdgesAt(adj, id))[e] <= 1
      {
        IncidentOnce(known, rels, |rels|, id, e);
      }
      CountsDiffer(EdgesAt(adj, id));
    }
  }

  lemma TableIff(known: set<Id>, rels: seq<Relation>, adj: Adjacency, id: Id, e: Edge)
    requires IsEdgeTable(known, rels, adj)
    ensures e in EdgesAt(adj, id) <==>
      exists k :: 0 <= k < |rels| && rels[k].id == e.relID && Joins(known, rels[k], id, e.to)
  {
    hide Joins, Ordered;
    IncidentIff(known, rels, |rels|, id, e);
    assert e in EdgesAt(adj, id) <==> e in multiset(EdgesAt(adj, id));
  }

  method AppendEdge(adj: Adjacency, id: Id, e: Edge) returns (next: Adjacency)
    ensures forall y :: EdgesAt(next, y) == if y == id then EdgesAt(adj, y) + [e] else EdgesAt(adj, y)
  {
    next := adj[id := EdgesAt(adj, id) + [e]];
  }

  method AddRelation(known: set<Id>, adj: Adjacency, rel: Relation) returns (next: Adjacency)
    ensures forall id :: multiset(EdgesAt(next, id)) == multiset(EdgesAt(adj, id)) + Adds(known, rel, id)
  {
    hide EdgesAt;
    if rel.source == rel.target || rel.source !in known || rel.target !in known {
      return adj;
    }
    next := AppendEdge(adj, rel.source, Edge(rel.target, rel.id));
    next := AppendEdge(next, rel.target, Edge(rel.source, rel.id));
  }

  method SortEdges(adj: Adjacency) returns (sorted: Adjacency)
    ensures forall id :: EdgesAt(sorted, id) == SortBy(EdgeBefore, EdgesAt(adj, id))
  {
    sorted := adj;
    var todo := adj.Keys;
    while todo != {}
      invariant todo <= adj.Keys && sorted.Keys == adj.Keys
      invariant forall id :: id in adj ==> sorted[id] == if id in todo then adj[id] else SortBy(EdgeBefore, adj[id])
    {
      var id := Next(todo);
      sorted := sorted[id := SortBy(EdgeBefore, sorted[id])];
      todo := todo - {id};
    }
  }

  lemma SortedTable(known: set<Id>, rels: seq<Relation>, lists: Adjacency, adj: Adjacency)
    requires forall id :: multiset(EdgesAt(lists, id)) == Incident(known, rels, |rels|, id)
    requires forall id :: EdgesAt(adj, id) == SortBy(EdgeBefore, EdgesAt(lists, id))
    ensures IsEdgeTable(known, rels, adj)
  {
    hide EdgesAt, SortBy;
    forall id
      ensures Ordered(EdgeBefore, EdgesAt(adj, id))
    {
      SortOrdered(EdgeBefore, EdgesAt(lists, id));
    }
  }

  /** The last of the first n relations with the ID is at k. */
  ghost predicate LastWith(rels: seq<Relation>, n: nat, k: int, id: Id)
    requires n <= |rels|
  {
    0 <= k < n && rels[k].id == id && forall j :: k < j < n ==> rels[j].id != id
  }

  /** The last relation with a given ID. */
  ghost predicate IsTable(rels: seq<Relation>, n: nat, relByID: map<Id, Relation>)
    requires n <= |rels|
  {
    && (forall k :: 0 <= k < n ==> rels[k].id in relByID)
    && (forall id :: id in relByID ==> exists k :: LastWith(rels, n, k, id) && rels[k] == relByID[id])
  }

  lemma NoEdges()
    ensures forall id :: EdgesAt(map[], id) == []
  {
  }

  lemma TableNext(rels: seq<Relation>, n: nat, relByID: map<Id, Relation>)
    requires n < |rels| && IsTable(rels, n, relByID)
    ensures IsTable(rels, n + 1, relByID[rels[n].id := rels[n]])
  {
    var next := relByID[rels[n].id := rels[n]];
    forall id | id in next
      ensures exists k :: LastWith(rels, n + 1, k, id) && rels[k] == next[id]
    {
      if id == rels[n].id {
        assert LastWith(rels, n + 1, n, id);
      } else {
        var k :| LastWith(rels, n, k, id) && rels[k] == relByID[id];
        assert LastWith(rels, n + 1, k, id);
      }
    }
  }

  lemma EmptyTable(rels: seq<Relation>)
    ensures IsTable(rels, 0, map[])
  {
  }

  method BuildEdgeTable(known: set<Id>, rels: seq<Relation>) returns (adj: Adjacency, relByID: map<Id, Relation>)
    ensures IsEdgeTable(known, rels, adj) && IsTable(rels, |rels|, relByID)
  {
    hide EdgesAt, Adds, SortBy, Ordered, IsEdgeTable, IsTable;
    var lists: Adjacency := map[];
    relByID := map[];
    NoEdges();
    EmptyTable(rels);
    for n := 0 to |rels|
      invariant IsTable(rels, n, relByID)
      invariant forall id :: multiset(EdgesAt(lists, id)) == Incident(known, rels, n, id)
    {
      TableNext(rels, n, relByID);
      relByID := relByID[rels[n].id := rels[n]];
      lists := AddRelation(known, lists, rels[n]);
    }
    adj := SortEdges(lists);
    SortedTable(known, rels, lists, adj);
  }

  /* ---- Ranking ---- */

  predicate ValidPair(known: set<Id>, pair: (Id, Id)) {
    pair.0 != EMPTY_ID && pair.1 != EMPTY_ID && pair.0 != pair.1 && pair.0 in known && pair.1 in known
  }

  ghost function FoundFor(known: set<Id>, adj: Adjacency, relByID: map<Id, Relation>, pair: (Id, Id), decay: real)
    : seq<RankedPath>
  {
    if ValidPair(known, pair) then Found(adj, relByID, pair.0, pair.1, [pair.0], [], {pair.0}, decay, MAX_PATH_LEN) else []
  }

  ghost function FoundForAll(known: set<Id>, adj: Adjacency, relByID: map<Id, Relation>, pairs: seq<(Id, Id)>,
                             decay: real, n: nat): seq<RankedPath>
    requires n <= |pairs|
  {
    if n == 0 then [] else
      FoundForAll(known, adj, relByID, pairs, decay, n - 1) + FoundFor(known, adj, relByID, pairs[n - 1], decay)
  }

  /** A path from a to b in the subgraph, with no entity twice. */
  ghost predicate IsSimplePath(known: set<Id>, rels: seq<Relation>, a: Id, b: Id, p: RankedPath) {
    && |p.entityIds| == |p.relationIds| + 1 && 0 < |p.relationIds| <= MAX_PATH_LEN
    && p.entityIds[0] == a && p.entityIds[|p.entityIds| - 1] == b && Distinct(p.entityIds)
    && forall i :: 0 <= i < |p.relationIds| ==> IsHop(known, rels, p, i)
  }

  ghost predicate IsHop(known: set<Id>, rels: seq<Relation>, p: RankedPath, i: nat)
    requires i < |p.relationIds| && |p.entityIds| == |p.relationIds| + 1
  {
    exists k :: 0 <= k < |rels| && rels[k].id == p.relationIds[i] && Joins(known, rels[k], p.entityIds[i], p.entityIds[i + 1])
  }

  lemma StepIsHop(known: set<Id>, rels: seq<Relation>, adj: Adjacency, p: RankedPath, i: nat)
    requires IsEdgeTable(known, rels, adj) && i < |p.relationIds| && |p.entityIds| == |p.relationIds| + 1
    ensures IsStep(adj, p.entityIds, p.relationIds, i) <==> IsHop(known, rels, p, i)
  {
    hide IsEdgeTable, EdgesAt, Joins;
    TableIff(known, rels, adj, p.entityIds[i], Edge(p.entityIds[i + 1], p.relationIds[i]));
  }

  lemma StartsPartial(adj: Adjacency, a: Id, b: Id)
    requires a != b
    ensures IsPartial(adj, a, b, [a], [], {a})
  {
  }

  /** The search from one seed lists exactly the scored simple paths to the other. */
  lemma FoundForIff(known: set<Id>, rels: seq<Relation>, adj: Adjacency, relByID: map<Id, Relation>, pair: (Id, Id),
                    decay: real, p: RankedPath)
    requires IsEdgeTable(known, rels, adj)
    ensures p in FoundFor(known, adj, relByID, pair, decay) <==>
      ValidPair(known, pair) && IsSimplePath(known, rels, pair.0, pair.1, p) && p.score == Score(relByID, p.relationIds, decay)
  {
    hide Score, IsEdgeTable, Distinct, IsStep, IsHop, Found;
    if ValidPair(known, pair) {
      StartsPartial(adj, pair.0, pair.1);
      FoundIff(adj, relByID, pair.0, pair.1, [pair.0], [], {pair.0}, decay, MAX_PATH_LEN, p);
      if |p.entityIds| == |p.relationIds| + 1 {
        forall i | 0 <= i < |p.relationIds|
          ensures IsStep(adj, p.entityIds, p.relationIds, i) <==> IsHop(known, rels, p, i)
        {
          StepIsHop(known, rels, adj, p, i);
        }
      }
    }
  }

  lemma {:induction false} FoundForAllIff(known: set<Id>, rels: seq<Relation>, adj: Adjacency,
                                          relByID: map<Id, Relation>, pairs: seq<(Id, Id)>, decay: real, n: nat,
                                          p: RankedPath)
    requires IsEdgeTable(known, rels, adj) && n <= |pairs|
    ensures p in FoundForAll(known, adj, relByID, pairs, decay, n) <==>
      p.score == Score(relByID, p.relationIds, decay) &&
      exists k :: 0 <= k < n && ValidPair(known, pairs[k]) && IsSimplePath(known, rels, pairs[k].0, pairs[k].1, p)
  {
    hide Score, IsEdgeTable, IsSimplePath, ValidPair, FoundFor;
    if n == 0 {
    } else {
      FoundForAllIff(known, rels, adj, relByID, pairs, decay, n - 1, p);
      FoundForIff(known, rels, adj, relByID, pairs[n - 1], decay, p);
    }
  }

  /** What a later pair finds no earlier pair has found. */
  lemma FoundByOnePair(known: set<Id>, rels: seq<Relation>, adj: Adjacency, relByID: map<Id, Relation>,
                       pairs: seq<(Id, Id)>, decay: real, n: nat, p: RankedPath)
    requires IsEdgeTable(known, rels, adj) && n < |pairs| && Distinct(pairs)
    requires p in FoundForAll(known, adj, relByID, pairs, decay, n)
    ensures p !in FoundFor(known, adj, relByID, pairs[n], decay)
  {
    hide Score, IsEdgeTable, ValidPair, FoundFor, FoundForAll, IsHop;
    assert forall k :: 0 <= k < n ==> pairs[k] != pairs[n];
    FoundForAllIff(known, rels, adj, relByID, pairs, decay, n, p);
    FoundForIff(known, rels, adj, relByID, pairs[n], decay, p);
  }

  lemma {:induction false} FoundForAllOnce(known: set<Id>, rels: seq<Relation>, adj: Adjacency,
                                           relByID: map<Id, Relation>, pairs: seq<(Id, Id)>, decay: real, n: nat)
    requires IsEdgeTable(known, rels, adj) && n <= |pairs| && DistinctIds(rels) && Distinct(pairs)
    ensures Distinct(FoundForAll(known, adj, relByID, pairs, decay, n))
  {
    hide IsEdgeTable, FoundFor, DistinctIds;
    if n == 0 {
    } else {
      hide Distinct;
      FoundForAllOnce(known, rels, adj, relByID, pairs, decay, n - 1);
      FoundForOnce(known, rels, adj, relByID, pairs[n - 1], decay);
      var front := FoundForAll(known, adj, relByID, pairs, decay, n - 1);
      var back := FoundFor(known, adj, relByID, pairs[n - 1], decay);
      forall p | p in front
        ensures p !in back
      {
        FoundByOnePair(known, rels, adj, relByID, pairs, decay, n - 1, p);
      }
      DifferConcat(front, back);
    }
  }

  lemma FoundForOnce(known: set<Id>, rels: seq<Relation>, adj: Adjacency, relByID: map<Id, Relation>, pair: (Id, Id),
                     decay: real)
    requires IsEdgeTable(known, rels, adj) && DistinctIds(rels)
    ensures Distinct(FoundFor(known, adj, relByID, pair, decay))
  {
    hide Score, IsEdgeTable, FoundTo;
    if ValidPair(known, pair) {
      StartsPartial(adj, pair.0, pair.1);
      TableOnce(known, rels, adj);
      FoundOnce(adj, relByID, pair.0, pair.1, [pair.0], [], {pair.0}, decay, MAX_PATH_LEN, |EdgesAt(adj, pair.0)|);
    }
  }

  /** Entity-ID sequences compared as their NUL-joined keys are. */
  predicate KeyBefore(a: seq<Id>, b: seq<Id>) {
    if b == [] then false
    else if a == [] then true
    else a[0] < b[0] || (a[0] == b[0] && KeyBefore(a[1..], b[1..]))
  }

  predicate RanksBefore(a: RankedPath, b: RankedPath) {
    if a.score != b.score then a.score > b.score else KeyBefore(a.entityIds, b.entityIds)
  }

  lemma {:induction false} KeyAsymmetric(a: seq<Id>, b: seq<Id>)
    requires KeyBefore(a, b)
    ensures !KeyBefore(b, a)
  {
    if a != [] && b != [] && a[0] == b[0] {
      KeyAsymmetric(a[1..], b[1..]);
    }
  }

  lemma {:induction false} KeyAtMostTransitive(a: seq<Id>, b: seq<Id>, c: seq<Id>)
    requires !KeyBefore(b, a) && !KeyBefore(c, b)
    ensures !KeyBefore(c, a)
  {
    if a != [] && b != [] && c != [] && a[0] == b[0] == c[0] {
      KeyAtMostTransitive(a[1..], b[1..], c[1..]);
    }
  }

  lemma RanksWeakly()
    ensures WeakOrder(RanksBefore)
  {
    forall a, b | RanksBefore(a, b)
      ensures !RanksBefore(b, a)
    {
      if a.score == b.score {
        KeyAsymmetric(a.entityIds, b.entityIds);
      }
    }
    forall a, b, c | !RanksBefore(b, a) && !RanksBefore(c, b)
      ensures !RanksBefore(c, a)
    {
      if a.score == b.score == c.score {
        KeyAtMostTransitive(a.entityIds, b.entityIds, c.entityIds);
      }
    }
  }

  function EffectiveDecay(decay: real): real {
    if decay <= 0.0 then DEFAULT_LENGTH_DECAY else decay
  }

  /** out ranks the scored simple paths between the valid seed pairs, and nothing else. */
  ghost predicate IsRanking(known: set<Id>, rels: seq<Relation>, pairs: seq<(Id, Id)>, relByID: map<Id, Relation>,
                            decay: real, out: seq<RankedPath>) {
    && Ordered(RanksBefore, out)
    && forall p :: p in out <==> IsRanked(known, rels, pairs, relByID, decay, p)
  }

  ghost predicate IsRanked(known: set<Id>, rels: seq<Relation>, pairs: seq<(Id, Id)>, relByID: map<Id, Relation>,
                           decay: real, p: RankedPath) {
    && p.score == Score(relByID, p.relationIds, decay)
    && exists k :: 0 <= k < |pairs| && ValidPair(known, pairs[k]) && IsSimplePath(known, rels, pairs[k].0, pairs[k].1, p)
  }

  /** A direct path scores its weight; one of two edges the decayed product, a tenth more if a chunk attests both. */
  ghost predicate ScoresAsPromised(relByID: map<Id, Relation>, decay: real, p: RankedPath) {
    && (|p.relationIds| == 1 ==> p.score == EdgeWeight(RelationOf(relByID, p.relationIds[0])))
    && (|p.relationIds| == 2 ==>
      var r, q := RelationOf(relByID, p.relationIds[0]), RelationOf(relByID, p.relationIds[1]);
      p.score == decay * EdgeWeight(r) * EdgeWeight(q) * if exists c :: c in r.sources && c in q.sources then 1.1 else 1.0)
  }

  lemma ScoreOfOne(relByID: map<Id, Relation>, rels: seq<Id>, decay: real)
    requires |rels| == 1
    ensures Score(relByID, rels, decay) == EdgeWeight(RelationOf(relByID, rels[0]))
  {
    hide EdgeWeight, RelationOf, CoAttested;
    var w := EdgeWeight(RelationOf(relByID, rels[0]));
    assert Power(decay, 0) == 1.0 && WeightProduct(relByID, rels, 1) == w;
    BoostedNone(w);
    assert CoAttestedPairs(relByID, rels, 0) == 0;
    assert 1.0 * w == w;
  }

  lemma ScoreOfTwo(relByID: map<Id, Relation>, rels: seq<Id>, decay: real)
    requires |rels| == 2
    ensures var r, q := RelationOf(relByID, rels[0]), RelationOf(relByID, rels[1]);
      Score(relByID, rels, decay) == decay * EdgeWeight(r) * EdgeWeight(q) * if CoAttested(r, q) then 1.1 else 1.0
  {
    hide EdgeWeight, RelationOf, CoAttested;
    var r, q := RelationOf(relByID, rels[0]), RelationOf(relByID, rels[1]);
    var a, b := EdgeWeight(r), EdgeWeight(q);
    assert Power(decay, 1) == decay;
    assert WeightProduct(relByID, rels, 2) == a * b by {
      assert WeightProduct(relByID, rels, 1) == a;
    }
    Associate(decay, a, b);
    BoostedNone(decay * a * b);
    BoostedMore(decay * a * b, 0);
    assert CoAttestedPairs(relByID, rels, 1) == if CoAttested(r, q) then 1 else 0;
  }

  /**
    No path is longer than two edges, scores fall along the list, and equal scores come in the
    order of their entities.
  */
  ghost predicate RanksAsPromised(relByID: map<Id, Relation>, decay: real, out: seq<RankedPath>) {
    && (forall p :: p in out ==> 1 <= |p.relationIds| <= 2 && ScoresAsPromised(relByID, decay, p))
    && (forall i, j :: 0 <= i < j < |out| ==> out[i].score >= out[j].score)
    && forall i, j :: 0 <= i < j < |out| && out[i].score == out[j].score ==>
      !KeyBefore(out[j].entityIds, out[i].entityIds)
  }

  lemma RankedAsPromised(known: set<Id>, rels: seq<Relation>, pairs: seq<(Id, Id)>, relByID: map<Id, Relation>,
                         lengthDecay: real, out: seq<RankedPath>)
    requires IsRanking(known, rels, pairs, relByID, EffectiveDecay(lengthDecay), out)
    ensures RanksAsPromised(relByID, if lengthDecay <= 0.0 then 0.5 else lengthDecay, out)
  {
    hide Score, KeyBefore, RelationOf, EdgeWeight;
    var decay := EffectiveDecay(lengthDecay);
    forall p | p in out
      ensures 1 <= |p.relationIds| <= 2 && ScoresAsPromised(relByID, decay, p)
    {
      assert IsRanked(known, rels, pairs, relByID, decay, p);
      if |p.relationIds| == 1 {
        ScoreOfOne(relByID, p.relationIds, decay);
      } else {
        ScoreOfTwo(relByID, p.relationIds, decay);
      }
    }
    forall i, j | 0 <= i < j < |out|
      ensures out[i].score >= out[j].score
      ensures out[i].score == out[j].score ==> !KeyBefore(out[j].entityIds, out[i].entityIds)
    {
      assert !RanksBefore(out[j], out[i]);
    }
  }

  lemma RankingOf(known: set<Id>, rels: seq<Relation>, adj: Adjacency, relByID: map<Id, Relation>, pairs: seq<(Id, Id)>,
                  decay: real, out: seq<RankedPath>)
    requires IsEdgeTable(known, rels, adj)
    requires multiset(out) == multiset(FoundForAll(known, adj, relByID, pairs, decay, |pairs|))
    requires Ordered(RanksBefore, out)
    ensures IsRanking(known, rels, pairs, relByID, decay, out)
    ensures DistinctIds(rels) && Distinct(pairs) ==> Distinct(out)
  {
    hide Score, IsEdgeTable, IsSimplePath, FoundFor, FoundForAll, RanksBefore, DistinctIds, Distinct, Ordered, Distinct;
    var found := FoundForAll(known, adj, relByID, pairs, decay, |pairs|);
    Rearranged(out, found);
    forall p
      ensures p in out <==> IsRanked(known, rels, pairs, relByID, decay, p)
    {
      FoundForAllIff(known, rels, adj, relByID, pairs, decay, |pairs|, p);
    }
    if DistinctIds(rels) && Distinct(pairs) {
      FoundForAllOnce(known, rels, adj, relByID, pairs, decay, |pairs|);
    }
  }

  lemma {:induction false} KeyTotal(a: seq<Id>, b: seq<Id>)
    ensures a == b || KeyBefore(a, b) || KeyBefore(b, a)
  {
    if a == [] || b == [] {
    } else if a[0] == b[0] {
      KeyTotal(a[1..], b[1..]);
      assert a == [a[0]] + a[1..] && b == [b[0]] + b[1..];
    }
  }

  /** No two listed paths have both score and entities in common. */
  ghost predicate NoTies(out: seq<RankedPath>) {
    forall i, j :: 0 <= i < j < |out| ==> !(out[i].score == out[j].score && out[i].entityIds == out[j].entityIds)
  }

  lemma NoTiesUntied(out: seq<RankedPath>)
    ensures NoTies(out) <==> Untied(RanksBefore, out)
  {
    forall i, j | 0 <= i < j < |out|
      ensures Tied(RanksBefore, out[i], out[j]) <==>
        out[i].score == out[j].score && out[i].entityIds == out[j].entityIds
    {
      KeyTotal(out[i].entityIds, out[j].entityIds);
      if KeyBefore(out[i].entityIds, out[i].entityIds) {
        KeyAsymmetric(out[i].entityIds, out[i].entityIds);
      }
    }
  }

  /** The ranking is the only one exactly when no two of its paths tie, as paths over parallel relations may. */
  lemma RankingUniqueIff(known: set<Id>, rels: seq<Relation>, pairs: seq<(Id, Id)>, relByID: map<Id, Relation>,
                         decay: real, out: seq<RankedPath>)
    requires IsRanking(known, rels, pairs, relByID, decay, out) && Distinct(out)
    ensures (forall other :: IsRanking(known, rels, pairs, relByID, decay, other) && Distinct(other) ==> other == out)
      <==> NoTies(out)
  {
    hide IsRanked, RanksBefore, NoTies, Untied, Ordered, Distinct;
    RanksWeakly();
    NoTiesUntied(out);
    OnlyArrangementIff(RanksBefore, out);
    forall other
      ensures IsRanking(known, rels, pairs, relByID, decay, other) && Distinct(other) <==>
        multiset(other) == multiset(out) && Ordered(RanksBefore, other)
    {
      if IsRanking(known, rels, pairs, relByID, decay, other) && Distinct(other) {
        SameMembersRearranged(other, out);
      }
      if multiset(other) == multiset(out) && Ordered(RanksBefore, other) {
        Rearranged(out, other);
      }
    }
  }

  method SortPaths(found: seq<RankedPath>) returns (out: seq<RankedPath>)
    ensures multiset(out) == multiset(found) && Ordered(RanksBefore, out)
  {
    RanksWeakly();
    SortOrdered(RanksBefore, found);
    out := SortBy(RanksBefore, found);
  }

  /** Ranks the paths; with distinct relation IDs and distinct pairs no path is listed twice. */
  method RankPaths(lengthDecay: real, entities: seq<Entity>, relations: seq<Relation>, pairs: seq<(Id, Id)>)
    returns (out: seq<RankedPath>, ghost relByID: map<Id, Relation>)
    ensures IsTable(relations, |relations|, relByID)
    ensures IsRanking(set e | e in entities :: e.id, relations, pairs, relByID, EffectiveDecay(lengthDecay), out)
    ensures DistinctIds(relations) && Distinct(pairs) ==> Distinct(out)
    ensures RanksAsPromised(relByID, if lengthDecay <= 0.0 then 0.5 else lengthDecay, out)
  {
    hide RanksAsPromised, EdgeWeight, RelationOf;
    hide Found, IsEdgeTable, IsTable, IsRanking, Ordered, Distinct, DistinctIds, Distinct, EffectiveDecay;
    var decay := EffectiveDecay(lengthDecay);
    var known := set e | e in entities :: e.id;
    var adj, table := BuildEdgeTable(known, relations);
    relByID := table;
    out := [];
    for n := 0 to |pairs|
      invariant out == FoundForAll(known, adj, table, pairs, decay, n)
    {
      var from, to := pairs[n].0, pairs[n].1;
      if from == EMPTY_ID || to == EMPTY_ID || from == to {
        continue;
      }
      if from !in known || to !in known {
        continue;
      }
      var search := new PathSearch(from);
      search.EnumPaths(adj, table, from, to, [from], [], decay, MAX_PATH_LEN);
      out := out + search.out;
    }
    var found := out;
    out := SortPaths(found);
    RankingOf(known, relations, adj, table, pairs, decay, out);
    RankedAsPromised(known, relations, pairs, table, lengthDecay, out);
  }
}
