/** Union-merging a graph into a stored one, and what that leaves under every ID. */
module Upserts {
  import opened Ids
  import opened Graphs
  import opened Provenance
  import opened FirstOccurrences

  /** One namespace's graph. */
  datatype NsGraph = NsGraph(entities: map<Id, Entity>, relations: map<Id, Relation>)

  const EMPTY_GRAPH := NsGraph(map[], map[])
  const ZERO_ENTITY := Entity(EMPTY_ID, "", "", "", [])
  const ZERO_RELATION := Relation(EMPTY_ID, EMPTY_ID, EMPTY_ID, "", "", [], 0.0)

  /** mergeDescription: any way of combining two descriptions. */
  type Describe = (string, string) -> string

  function MergeEntity(describe: Describe, existing: Entity, incoming: Entity): Entity {
    if existing.id == EMPTY_ID then incoming
    else existing.(sources := Firsts(EMPTY_ID, existing.sources + incoming.sources),
                   description := describe(existing.description, incoming.description))
  }

  function MergeRelation(describe: Describe, existing: Relation, incoming: Relation): Relation {
    if existing.id == EMPTY_ID then incoming
    else existing.(sources := Firsts(EMPTY_ID, existing.sources + incoming.sources),
                   description := describe(existing.description, incoming.description),
                   weight := existing.weight + incoming.weight)
  }

  function EntityAt(m: map<Id, Entity>, id: Id): Entity {
    if id in m then m[id] else ZERO_ENTITY
  }

  function RelationAt(m: map<Id, Relation>, id: Id): Relation {
    if id in m then m[id] else ZERO_RELATION
  }

  /** Items are stored under their own IDs. */
  ghost predicate WellKeyed(g: NsGraph) {
    && (forall id :: id in g.entities ==> g.entities[id].id == id)
    && (forall id :: id in g.relations ==> g.relations[id].id == id)
  }

  /* ---- Upserts as functions ---- */

  function UpsertEntities(describe: Describe, m: map<Id, Entity>, es: seq<Entity>): map<Id, Entity> {
    if es == [] then m else
      var before, e := UpsertEntities(describe, m, es[..|es| - 1]), es[|es| - 1];
      before[e.id := MergeEntity(describe, EntityAt(before, e.id), e)]
  }

  function UpsertRelations(describe: Describe, m: map<Id, Relation>, rs: seq<Relation>): map<Id, Relation> {
    if rs == [] then m else
      var before, r := UpsertRelations(describe, m, rs[..|rs| - 1]), rs[|rs| - 1];
      before[r.id := MergeRelation(describe, RelationAt(before, r.id), r)]
  }

  function Upserted(describe: Describe, s: NsGraph, g: Graph): NsGraph {
    NsGraph(UpsertEntities(describe, s.entities, g.entities), UpsertRelations(describe, s.relations, g.relations))
  }

  function RemovedGraph(s: NsGraph, drop: set<Id>): NsGraph {
    NsGraph(
      map id | id in s.entities && Kept(s.entities[id].sources, drop) != [] ::
        s.entities[id].(sources := Kept(s.entities[id].sources, drop)),
      map id | id in s.relations && Kept(s.relations[id].sources, drop) != [] ::
        s.relations[id].(sources := Kept(s.relations[id].sources, drop)))
  }

  /* ---- What arrives under an ID ---- */

  ghost predicate Arrives(rs: seq<Relation>, id: Id) {
    exists k :: 0 <= k < |rs| && rs[k].id == id
  }

  /** k is the place of the first incoming relation with the ID. */
  ghost predicate FirstWith(rs: seq<Relation>, id: Id, k: int) {
    0 <= k < |rs| && rs[k].id == id && forall j :: 0 <= j < k ==> rs[j].id != id
  }

  ghost predicate LastWith(rs: seq<Relation>, id: Id, k: int) {
    0 <= k < |rs| && rs[k].id == id && forall j :: k < j < |rs| ==> rs[j].id != id
  }

  /** The summed weight of the incoming relations with the ID. */
  ghost function WeightOf(rs: seq<Relation>, id: Id): real {
    if rs == [] then 0.0
    else WeightOf(rs[..|rs| - 1], id) + if rs[|rs| - 1].id == id then rs[|rs| - 1].weight else 0.0
  }

  ghost predicate Cites(rs: seq<Relation>, id: Id, c: Id) {
    exists k :: 0 <= k < |rs| && rs[k].id == id && c in rs[k].sources
  }

  ghost predicate SameLink(r: Relation, q: Relation) {
    r.source == q.source && r.target == q.target && r.relation == q.relation
  }

  /** The link is that stored before or, failing that, the first to come. */
  ghost predicate KeepsLink(m: map<Id, Relation>, rs: seq<Relation>, id: Id, r: Relation) {
    if id in m then SameLink(r, m[id]) else exists k :: FirstWith(rs, id, k) && SameLink(r, rs[k])
  }

  ghost predicate AddsWeight(m: map<Id, Relation>, rs: seq<Relation>, id: Id, r: Relation) {
    r.weight == (if id in m then m[id].weight else 0.0) + WeightOf(rs, id)
  }

  ghost predicate AddsSources(m: map<Id, Relation>, rs: seq<Relation>, id: Id, r: Relation) {
    forall c :: c != EMPTY_ID ==> (c in r.sources <==> (id in m && c in m[id].sources) || Cites(rs, id, c))
  }

  /** The descriptions under the ID, those that come combined one by one with what is there. */
  ghost function TextOf(describe: Describe, m: map<Id, Relation>, rs: seq<Relation>, id: Id): string {
    if rs == [] then
      if id in m then m[id].description else ""
    else
      var init, last := rs[..|rs| - 1], rs[|rs| - 1];
      if last.id != id then TextOf(describe, m, init, id)
      else if id in m || Arrives(init, id) then describe(TextOf(describe, m, init, id), last.description)
      else last.description
  }

  /** What is stored under a non-blank ID: one link, and all weight and provenance. */
  ghost predicate IsMerged(describe: Describe, m: map<Id, Relation>, rs: seq<Relation>, id: Id, r: Relation) {
    && r.id == id && KeepsLink(m, rs, id, r) && AddsWeight(m, rs, id, r) && AddsSources(m, rs, id, r)
    && r.description == TextOf(describe, m, rs, id)
  }

  /** n is m after the upserts: merged ID by ID, but for the blank ID, under which the last to come is stored. */
  ghost predicate AreMerged(describe: Describe, m: map<Id, Relation>, rs: seq<Relation>, n: map<Id, Relation>) {
    && (forall id :: id in n <==> id in m || Arrives(rs, id))
    && (forall id :: id in n && id != EMPTY_ID ==> IsMerged(describe, m, rs, id, n[id]))
    && (forall id :: id in m && !Arrives(rs, id) ==> n[id] == m[id])
    && (forall k :: LastWith(rs, EMPTY_ID, k) ==> EMPTY_ID in n && n[EMPTY_ID] == rs[k])
  }

  lemma ArrivesNext(rs: seq<Relation>, id: Id)
    requires rs != []
    ensures Arrives(rs, id) <==> Arrives(rs[..|rs| - 1], id) || rs[|rs| - 1].id == id
  {
    var init := rs[..|rs| - 1];
    if Arrives(init, id) {
      var k :| 0 <= k < |init| && init[k].id == id;
      assert rs[k] == init[k];
    }
  }

  lemma CitesNext(rs: seq<Relation>, id: Id, c: Id)
    requires rs != []
    ensures Cites(rs, id, c) <==> Cites(rs[..|rs| - 1], id, c) || (rs[|rs| - 1].id == id && c in rs[|rs| - 1].sources)
  {
    var init := rs[..|rs| - 1];
    if Cites(init, id, c) {
      var k :| 0 <= k < |init| && init[k].id == id && c in init[k].sources;
      assert rs[k] == init[k];
    }
  }

  lemma FirstNext(rs: seq<Relation>, id: Id, k: int)
    requires rs != [] && FirstWith(rs[..|rs| - 1], id, k)
    ensures FirstWith(rs, id, k) && rs[k] == rs[..|rs| - 1][k]
  {
  }

  lemma KeepsLinkNext(m: map<Id, Relation>, rs: seq<Relation>, id: Id, r: Relation, next: Relation)
    requires rs != [] && KeepsLink(m, rs[..|rs| - 1], id, r) && SameLink(next, r)
    ensures KeepsLink(m, rs, id, next)
  {
    if id !in m {
      var k :| FirstWith(rs[..|rs| - 1], id, k) && SameLink(r, rs[..|rs| - 1][k]);
      FirstNext(rs, id, k);
    }
  }

  /** One more incoming relation with another ID changes nothing about this one. */
  lemma MergedSkip(describe: Describe, m: map<Id, Relation>, rs: seq<Relation>, id: Id, r: Relation)
    requires rs != [] && rs[|rs| - 1].id != id && IsMerged(describe, m, rs[..|rs| - 1], id, r)
    ensures IsMerged(describe, m, rs, id, r)
  {
    hide KeepsLink, Cites;
    KeepsLinkNext(m, rs, id, r, r);
    forall c
      ensures Cites(rs, id, c) <==> Cites(rs[..|rs| - 1], id, c)
    {
      CitesNext(rs, id, c);
    }
  }

  lemma {:induction false} NoneArrives(rs: seq<Relation>, id: Id)
    requires !Arrives(rs, id)
    ensures WeightOf(rs, id) == 0.0 && forall c :: !Cites(rs, id, c)
  {
    if rs == [] {
    } else {
      ArrivesNext(rs, id);
      NoneArrives(rs[..|rs| - 1], id);
    }
  }

  /** One more with this ID is merged into what is there. */
  lemma MergedNext(describe: Describe, m: map<Id, Relation>, rs: seq<Relation>, id: Id, r: Relation)
    requires rs != [] && rs[|rs| - 1].id == id && id != EMPTY_ID && (id in m || Arrives(rs[..|rs| - 1], id))
    requires IsMerged(describe, m, rs[..|rs| - 1], id, r)
    ensures IsMerged(describe, m, rs, id, MergeRelation(describe, r, rs[|rs| - 1]))
  {
    hide KeepsLink, Cites, Firsts;
    var next := MergeRelation(describe, r, rs[|rs| - 1]);
    KeepsLinkNext(m, rs, id, r, next);
    forall c
      ensures Cites(rs, id, c) <==> Cites(rs[..|rs| - 1], id, c) || c in rs[|rs| - 1].sources
    {
      CitesNext(rs, id, c);
    }
  }

  /** The first with its ID is stored as it comes. */
  lemma MergedFirst(describe: Describe, m: map<Id, Relation>, rs: seq<Relation>, id: Id)
    requires rs != [] && rs[|rs| - 1].id == id && id !in m && !Arrives(rs[..|rs| - 1], id)
    ensures IsMerged(describe, m, rs, id, rs[|rs| - 1])
  {
    hide Cites;
    NoneArrives(rs[..|rs| - 1], id);
    assert FirstWith(rs, id, |rs| - 1);
    forall c
      ensures Cites(rs, id, c) <==> c in rs[|rs| - 1].sources
    {
      CitesNext(rs, id, c);
    }
  }

  lemma NothingMerged(describe: Describe, m: map<Id, Relation>, id: Id)
    requires id in m && m[id].id == id
    ensures IsMerged(describe, m, [], id, m[id])
  {
  }

  /** What one more upsert leaves under an ID. */
  lemma MergedAt(describe: Describe, m: map<Id, Relation>, rs: seq<Relation>, before: map<Id, Relation>, id: Id)
    requires rs != [] && AreMerged(describe, m, rs[..|rs| - 1], before)
    ensures var last := rs[|rs| - 1];
      var n := before[last.id := MergeRelation(describe, RelationAt(before, last.id), last)];
      && (id in n <==> id in m || Arrives(rs, id))
      && (id in n && id != EMPTY_ID ==> IsMerged(describe, m, rs, id, n[id]))
      && (id in m && !Arrives(rs, id) ==> n[id] == m[id])
  {
    hide IsMerged, Arrives, LastWith;
    var last := rs[|rs| - 1];
    ArrivesNext(rs, id);
    if id != EMPTY_ID {
      if id != last.id {
        if id in before {
          MergedSkip(describe, m, rs, id, before[id]);
        }
      } else if id in before {
        MergedIds(describe, m, rs[..|rs| - 1], id, before[id]);
        MergedNext(describe, m, rs, id, before[id]);
      } else {
        MergedFirst(describe, m, rs, id);
      }
    }
  }

  lemma MergedIds(describe: Describe, m: map<Id, Relation>, rs: seq<Relation>, id: Id, r: Relation)
    requires IsMerged(describe, m, rs, id, r)
    ensures r.id == id
  {
  }

  /** Under the blank ID the last to come replaces what is there. */
  lemma BlankReplaced(describe: Describe, m: map<Id, Relation>, rs: seq<Relation>, before: map<Id, Relation>, k: int)
    requires rs != [] && LastWith(rs, EMPTY_ID, k) && AreMerged(describe, m, rs[..|rs| - 1], before)
    requires EMPTY_ID in before ==> before[EMPTY_ID].id == EMPTY_ID
    ensures var last := rs[|rs| - 1];
      var n := before[last.id := MergeRelation(describe, RelationAt(before, last.id), last)];
      EMPTY_ID in n && n[EMPTY_ID] == rs[k]
  {
    hide IsMerged, Arrives;
    if k < |rs| - 1 {
      assert LastWith(rs[..|rs| - 1], EMPTY_ID, k);
    }
  }

  /** Upserting relations merges them ID by ID. */
  lemma {:induction false} UpsertMerges(describe: Describe, m: map<Id, Relation>, rs: seq<Relation>)
    requires forall id :: id in m ==> m[id].id == id
    ensures AreMerged(describe, m, rs, UpsertRelations(describe, m, rs))
    ensures forall id :: id in UpsertRelations(describe, m, rs) ==> UpsertRelations(describe, m, rs)[id].id == id
  {
    if rs == [] {
      forall id | id in m
        ensures IsMerged(describe, m, rs, id, m[id])
      {
        NothingMerged(describe, m, id);
      }
    } else {
      var init, last := rs[..|rs| - 1], rs[|rs| - 1];
      UpsertMerges(describe, m, init);
      hide AreMerged, IsMerged, Arrives, LastWith, Firsts;
      var before := UpsertRelations(describe, m, init);
      var n := before[last.id := MergeRelation(describe, RelationAt(before, last.id), last)];
      forall id
        ensures id in n <==> id in m || Arrives(rs, id)
        ensures id in n && id != EMPTY_ID ==> IsMerged(describe, m, rs, id, n[id])
        ensures id in m && !Arrives(rs, id) ==> n[id] == m[id]
      {
        MergedAt(describe, m, rs, before, id);
      }
      forall k | LastWith(rs, EMPTY_ID, k)
        ensures EMPTY_ID in n && n[EMPTY_ID] == rs[k]
      {
        BlankReplaced(describe, m, rs, before, k);
      }
      AreMergedFrom(describe, m, rs, n);
    }
  }

  lemma AreMergedFrom(describe: Describe, m: map<Id, Relation>, rs: seq<Relation>, n: map<Id, Relation>)
    requires forall id :: id in n <==> id in m || Arrives(rs, id)
    requires forall id :: id in n && id != EMPTY_ID ==> IsMerged(describe, m, rs, id, n[id])
    requires forall id :: id in m && !Arrives(rs, id) ==> n[id] == m[id]
    requires forall k :: LastWith(rs, EMPTY_ID, k) ==> EMPTY_ID in n && n[EMPTY_ID] == rs[k]
    ensures AreMerged(describe, m, rs, n)
  {
  }
}
