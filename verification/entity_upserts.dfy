/** What union-merging leaves of the entities under every ID. */
module EntityUpserts {
  import opened Ids
  import opened Graphs
  import opened FirstOccurrences
  import Upserts

  /* ---- What arrives under an ID ---- */

  ghost predicate Arrives(es: seq<Entity>, id: Id) {
    exists k :: 0 <= k < |es| && es[k].id == id
  }

  /** k is the place of the first incoming entity with the ID. */
  ghost predicate FirstWith(es: seq<Entity>, id: Id, k: int) {
    0 <= k < |es| && es[k].id == id && forall j :: 0 <= j < k ==> es[j].id != id
  }

  ghost predicate LastWith(es: seq<Entity>, id: Id, k: int) {
    0 <= k < |es| && es[k].id == id && forall j :: k < j < |es| ==> es[j].id != id
  }

  ghost predicate Cites(es: seq<Entity>, id: Id, c: Id) {
    exists k :: 0 <= k < |es| && es[k].id == id && c in es[k].sources
  }

  ghost predicate SameLabel(e: Entity, f: Entity) {
    e.name == f.name && e.kind == f.kind
  }

  /** Name and type are those stored before or, failing that, the first to come. */
  ghost predicate KeepsLabel(m: map<Id, Entity>, es: seq<Entity>, id: Id, e: Entity) {
    if id in m then SameLabel(e, m[id]) else exists k :: FirstWith(es, id, k) && SameLabel(e, es[k])
  }

  ghost predicate AddsSources(m: map<Id, Entity>, es: seq<Entity>, id: Id, e: Entity) {
    forall c :: c != EMPTY_ID ==> (c in e.sources <==> (id in m && c in m[id].sources) || Cites(es, id, c))
  }

  /** The descriptions under the ID, those that come combined one by one with what is there. */
  ghost function TextOf(describe: Upserts.Describe, m: map<Id, Entity>, es: seq<Entity>, id: Id): string {
    if es == [] then
      if id in m then m[id].description else ""
    else
      var init, last := es[..|es| - 1], es[|es| - 1];
      if last.id != id then TextOf(describe, m, init, id)
      else if id in m || Arrives(init, id) then describe(TextOf(describe, m, init, id), last.description)
      else last.description
  }

  /** What is stored under a non-blank ID: one name and type, and all provenance. */
  ghost predicate IsMerged(describe: Upserts.Describe, m: map<Id, Entity>, es: seq<Entity>, id: Id, e: Entity) {
    && e.id == id && KeepsLabel(m, es, id, e) && AddsSources(m, es, id, e)
    && e.description == TextOf(describe, m, es, id)
  }

  /** n is m after the upserts: merged ID by ID, but for the blank ID, under which the last to come is stored. */
  ghost predicate AreMerged(describe: Upserts.Describe, m: map<Id, Entity>, es: seq<Entity>, n: map<Id, Entity>) {
    && (forall id :: id in n <==> id in m || Arrives(es, id))
    && (forall id :: id in n && id != EMPTY_ID ==> IsMerged(describe, m, es, id, n[id]))
    && (forall id :: id in m && !Arrives(es, id) ==> n[id] == m[id])
    && (forall k :: LastWith(es, EMPTY_ID, k) ==> EMPTY_ID in n && n[EMPTY_ID] == es[k])
  }

  lemma ArrivesNext(es: seq<Entity>, id: Id)
    requires es != []
    ensures Arrives(es, id) <==> Arrives(es[..|es| - 1], id) || es[|es| - 1].id == id
  {
    var init := es[..|es| - 1];
    if Arrives(init, id) {
      var k :| 0 <= k < |init| && init[k].id == id;
      assert es[k] == init[k];
    }
  }

  lemma CitesNext(es: seq<Entity>, id: Id, c: Id)
    requires es != []
    ensures Cites(es, id, c) <==> Cites(es[..|es| - 1], id, c) || (es[|es| - 1].id == id && c in es[|es| - 1].sources)
  {
    var init := es[..|es| - 1];
    if Cites(init, id, c) {
      var k :| 0 <= k < |init| && init[k].id == id && c in init[k].sources;
      assert es[k] == init[k];
    }
  }

  lemma FirstNext(es: seq<Entity>, id: Id, k: int)
    requires es != [] && FirstWith(es[..|es| - 1], id, k)
    ensures FirstWith(es, id, k) && es[k] == es[..|es| - 1][k]
  {
  }

  lemma KeepsLabelNext(m: map<Id, Entity>, es: seq<Entity>, id: Id, e: Entity, next: Entity)
    requires es != [] && KeepsLabel(m, es[..|es| - 1], id, e) && SameLabel(next, e)
    ensures KeepsLabel(m, es, id, next)
  {
    if id !in m {
      var k :| FirstWith(es[..|es| - 1], id, k) && SameLabel(e, es[..|es| - 1][k]);
      FirstNext(es, id, k);
    }
  }

  /** One more incoming entity with another ID changes nothing about this one. */
  lemma MergedSkip(describe: Upserts.Describe, m: map<Id, Entity>, es: seq<Entity>, id: Id, e: Entity)
    requires es != [] && es[|es| - 1].id != id && IsMerged(describe, m, es[..|es| - 1], id, e)
    ensures IsMerged(describe, m, es, id, e)
  {
    hide KeepsLabel, Cites;
    KeepsLabelNext(m, es, id, e, e);
    forall c
      ensures Cites(es, id, c) <==> Cites(es[..|es| - 1], id, c)
    {
      CitesNext(es, id, c);
    }
  }

  lemma {:induction false} NoneArrives(es: seq<Entity>, id: Id)
    requires !Arrives(es, id)
    ensures forall c :: !Cites(es, id, c)
  {
    if es == [] {
    } else {
      ArrivesNext(es, id);
      NoneArrives(es[..|es| - 1], id);
    }
  }

  /** One more with this ID is merged into what is there. */
  lemma MergedNext(describe: Upserts.Describe, m: map<Id, Entity>, es: seq<Entity>, id: Id, e: Entity)
    requires es != [] && es[|es| - 1].id == id && id != EMPTY_ID && (id in m || Arrives(es[..|es| - 1], id))
    requires IsMerged(describe, m, es[..|es| - 1], id, e)
    ensures IsMerged(describe, m, es, id, Upserts.MergeEntity(describe, e, es[|es| - 1]))
  {
    hide KeepsLabel, Cites, Firsts;
    var next := Upserts.MergeEntity(describe, e, es[|es| - 1]);
    KeepsLabelNext(m, es, id, e, next);
    forall c
      ensures Cites(es, id, c) <==> Cites(es[..|es| - 1], id, c) || c in es[|es| - 1].sources
    {
      CitesNext(es, id, c);
    }
  }

  /** The first with its ID is stored as it comes. */
  lemma MergedFirst(describe: Upserts.Describe, m: map<Id, Entity>, es: seq<Entity>, id: Id)
    requires es != [] && es[|es| - 1].id == id && id !in m && !Arrives(es[..|es| - 1], id)
    ensures IsMerged(describe, m, es, id, es[|es| - 1])
  {
    hide Cites;
    NoneArrives(es[..|es| - 1], id);
    assert FirstWith(es, id, |es| - 1);
    forall c
      ensures Cites(es, id, c) <==> c in es[|es| - 1].sources
    {
      CitesNext(es, id, c);
    }
  }

  lemma NothingMerged(describe: Upserts.Describe, m: map<Id, Entity>, id: Id)
    requires id in m && m[id].id == id
    ensures IsMerged(describe, m, [], id, m[id])
  {
  }

  /** What one more upsert leaves under an ID. */
  lemma MergedAt(describe: Upserts.Describe, m: map<Id, Entity>, es: seq<Entity>, before: map<Id, Entity>, id: Id)
    requires es != [] && AreMerged(describe, m, es[..|es| - 1], before)
    ensures var last := es[|es| - 1];
      var n := before[last.id := Upserts.MergeEntity(describe, Upserts.EntityAt(before, last.id), last)];
      && (id in n <==> id in m || Arrives(es, id))
      && (id in n && id != EMPTY_ID ==> IsMerged(describe, m, es, id, n[id]))
      && (id in m && !Arrives(es, id) ==> n[id] == m[id])
  {
    hide IsMerged, Arrives, LastWith;
    var last := es[|es| - 1];
    ArrivesNext(es, id);
    if id != EMPTY_ID {
      if id != last.id {
        if id in before {
          MergedSkip(describe, m, es, id, before[id]);
        }
      } else if id in before {
        MergedIds(describe, m, es[..|es| - 1], id, before[id]);
        MergedNext(describe, m, es, id, before[id]);
      } else {
        MergedFirst(describe, m, es, id);
      }
    }
  }

  lemma MergedIds(describe: Upserts.Describe, m: map<Id, Entity>, es: seq<Entity>, id: Id, e: Entity)
    requires IsMerged(describe, m, es, id, e)
    ensures e.id == id
  {
  }

  /** Under the blank ID the last to come replaces what is there. */
  lemma BlankReplaced(describe: Upserts.Describe, m: map<Id, Entity>, es: seq<Entity>, before: map<Id, Entity>, k: int)
    requires es != [] && LastWith(es, EMPTY_ID, k) && AreMerged(describe, m, es[..|es| - 1], before)
    requires EMPTY_ID in before ==> before[EMPTY_ID].id == EMPTY_ID
    ensures var last := es[|es| - 1];
      var n := before[last.id := Upserts.MergeEntity(describe, Upserts.EntityAt(before, last.id), last)];
      EMPTY_ID in n && n[EMPTY_ID] == es[k]
  {
    hide IsMerged, Arrives;
    if k < |es| - 1 {
      assert LastWith(es[..|es| - 1], EMPTY_ID, k);
    }
  }

  /** Upserting entities merges them ID by ID. */
  lemma {:induction false} UpsertMerges(describe: Upserts.Describe, m: map<Id, Entity>, es: seq<Entity>)
    requires forall id :: id in m ==> m[id].id == id
    ensures AreMerged(describe, m, es, Upserts.UpsertEntities(describe, m, es))
    ensures forall id :: id in Upserts.UpsertEntities(describe, m, es) ==>
      Upserts.UpsertEntities(describe, m, es)[id].id == id
  {
    if es == [] {
      forall id | id in m
        ensures IsMerged(describe, m, es, id, m[id])
      {
        NothingMerged(describe, m, id);
      }
    } else {
      var init, last := es[..|es| - 1], es[|es| - 1];
      UpsertMerges(describe, m, init);
      hide AreMerged, IsMerged, Arrives, LastWith, Firsts;
      var before := Upserts.UpsertEntities(describe, m, init);
      var n := before[last.id := Upserts.MergeEntity(describe, Upserts.EntityAt(before, last.id), last)];
      forall id
        ensures id in n <==> id in m || Arrives(es, id)
        ensures id in n && id != EMPTY_ID ==> IsMerged(describe, m, es, id, n[id])
        ensures id in m && !Arrives(es, id) ==> n[id] == m[id]
      {
        MergedAt(describe, m, es, before, id);
      }
      forall k | LastWith(es, EMPTY_ID, k)
        ensures EMPTY_ID in n && n[EMPTY_ID] == es[k]
      {
        BlankReplaced(describe, m, es, before, k);
      }
      AreMergedFrom(describe, m, es, n);
    }
  }

  lemma AreMergedFrom(describe: Upserts.Describe, m: map<Id, Entity>, es: seq<Entity>, n: map<Id, Entity>)
    requires forall id :: id in n <==> id in m || Arrives(es, id)
    requires forall id :: id in n && id != EMPTY_ID ==> IsMerged(describe, m, es, id, n[id])
    requires forall id :: id in m && !Arrives(es, id) ==> n[id] == m[id]
    requires forall k :: LastWith(es, EMPTY_ID, k) ==> EMPTY_ID in n && n[EMPTY_ID] == es[k]
    ensures AreMerged(describe, m, es, n)
  {
  }
}
