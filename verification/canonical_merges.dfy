/** Every input has a merge, so that statements about all merges of an input are not empty. */
module CanonicalMerges {
  import Orders
  import opened FirstOccurrences
  import opened RawGraph
  import opened Canonicalize

  lemma SomeKeys<V>(m: map<string, V>, todo: set<string>) returns (keys: seq<string>)
    requires todo <= m.Keys
    ensures Orders.Distinct(keys) && forall k :: k in keys <==> k in todo
    decreases |todo|
  {
    if todo == {} {
      keys := [];
    } else {
      var k :| k in todo;
      var rest := SomeKeys(m, todo - {k});
      keys := [k] + rest;
    }
  }

  lemma {:induction false} SomeEntTable(norm: Text, entities: seq<RawEntity>, n: nat)
    returns (accs: map<string, CanonEntity>)
    requires n <= |entities|
    ensures EntTable(norm, entities, n, accs)
  {
    hide EntTable, Orders.Distinct, IsEntAcc;
    if n == 0 {
      accs := map[];
      NoEntities(norm, entities);
    } else {
      accs := SomeEntTable(norm, entities, n - 1);
      var e := entities[n - 1];
      if norm(e.name) == "" {
        EntTableSkip(norm, entities, n - 1, accs);
      } else {
        var id := CanonId(norm, e);
        AccHasId(norm, entities, n - 1, accs);
        var acc := if id in accs then accs[id] else CanonEntity(id, e.name, e.kind, [], []);
        acc := acc.(sources := Firsts("", acc.sources + e.sources));
        EntTableStep(norm, entities, n - 1, accs, acc);
        accs := accs[id := acc];
      }
    }
  }

  lemma {:induction false} SomeNames(norm: Text, accs: map<string, CanonEntity>, ids: seq<string>, n: nat)
    returns (byName: map<string, string>)
    requires Ascending(ids) && (forall k :: 0 <= k < |ids| ==> ids[k] in accs) && n <= |ids|
    ensures NamedTo(norm, accs, ids, n, byName)
  {
    hide NamedTo, Ascending;
    if n == 0 {
      byName := map[];
      NamedNone(norm, accs, ids);
    } else {
      byName := SomeNames(norm, accs, ids, n - 1);
      NamedStep(norm, accs, ids, n - 1, byName);
      byName := byName[norm(accs[ids[n - 1]].name) := ids[n - 1]];
    }
  }

  lemma {:induction false} SomeRelTable(norm: Text, byName: map<string, string>, relations: seq<RawRelation>, n: nat)
    returns (accs: map<string, CanonRelation>)
    requires n <= |relations|
    ensures RelTable(norm, byName, relations, n, accs)
  {
    hide RelTable, Orders.Distinct, IsRelAcc;
    if n == 0 {
      accs := map[];
      NoRelations(norm, byName, relations);
    } else {
      accs := SomeRelTable(norm, byName, relations, n - 1);
      var r := relations[n - 1];
      if !Resolves(norm, byName, r) {
        RelTableSkip(norm, byName, relations, n - 1, accs);
      } else {
        var id := RelationId(norm, byName, r);
        RelHasId(norm, byName, relations, n - 1, accs);
        var acc := if id in accs then accs[id]
                   else CanonRelation(id, byName[norm(r.source)], byName[norm(r.target)], r.relation, "", [], 0.0);
        acc := acc.(weight := acc.weight + r.weight, sources := Firsts("", acc.sources + r.sources));
        RelTableStep(norm, byName, relations, n - 1, accs, acc);
        accs := accs[id := acc];
      }
    }
  }

  /** Every input has a merge. */
  lemma SomeMerge(norm: Text, entities: seq<RawEntity>, relations: seq<RawRelation>) returns (t: Tables, g: CanonGraph)
    ensures IsMerge(norm, entities, relations, t, g)
  {
    hide EntTable, RelTable, IsByName, NamedTo, ListsEntities, ListsRelations, ListedEntities, ListedRelations;
    hide Orders.Distinct, Ascending;
    var ents := SomeEntTable(norm, entities, |entities|);
    AccHasId(norm, entities, |entities|, ents);
    var keys := SomeKeys(ents, ents.Keys);
    var ids := SortStrings(keys);
    forall k | 0 <= k < |ids|
      ensures ids[k] in ents
    {
      assert ids[k] in ids;
    }
    var byName := SomeNames(norm, ents, ids, |ids|);
    NamedAll(norm, ents, ids, byName);
    var rels := SomeRelTable(norm, byName, relations, |relations|);
    RelDistinct(norm, byName, relations, rels);
    var relKeys := SomeKeys(rels, rels.Keys);
    t, g := Tables(ents, byName, rels), CanonGraph(ListedEntities(ents, ids), ListedRelations(rels, SortStrings(relKeys)));
  }
}
