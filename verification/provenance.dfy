/** Provenance bookkeeping: which chunks an item cites, through upserts and removals. */
module Provenance {
  import opened Ids
  import Orders
  import opened FirstOccurrences

  /** The chunks of xs that are not dropped, in order. */
  function Kept(xs: seq<Id>, drop: set<Id>): (r: seq<Id>)
    ensures forall s :: s in r <==> s in xs && s !in drop
  {
    if xs == [] then [] else
      var init, last := Kept(xs[..|xs| - 1], drop), xs[|xs| - 1];
      assert xs == xs[..|xs| - 1] + [last];
      if last in drop then init else init + [last]
  }

  /** out lists the elements of xs at the given places, which are those not dropped, in order. */
  ghost predicate FiltersAt(xs: seq<Id>, drop: set<Id>, out: seq<Id>, places: seq<nat>) {
    && |places| == |out|
    && (forall i :: 0 <= i < |places| ==> places[i] < |xs| && out[i] == xs[places[i]])
    && (forall i, j :: 0 <= i < j < |places| ==> places[i] < places[j])
    && (forall k: nat :: k in places <==> k < |xs| && xs[k] !in drop)
  }

  ghost predicate Filters(xs: seq<Id>, drop: set<Id>, out: seq<Id>) {
    exists places :: FiltersAt(xs, drop, out, places)
  }

  lemma FiltersNext(xs: seq<Id>, drop: set<Id>, out: seq<Id>, places: seq<nat>)
    requires xs != [] && FiltersAt(xs[..|xs| - 1], drop, out, places)
    ensures var n, last := |xs| - 1, xs[|xs| - 1];
      if last in drop then FiltersAt(xs, drop, out, places) else FiltersAt(xs, drop, out + [last], places + [n])
  {
    var n, last := |xs| - 1, xs[|xs| - 1];
    forall i | 0 <= i < |places|
      ensures places[i] < n && out[i] == xs[places[i]]
    {
      assert xs[..n][places[i]] == xs[places[i]];
    }
    var next: seq<nat> := if last in drop then places else places + [n];
    forall k: nat
      ensures k in next <==> k < |xs| && xs[k] !in drop
    {
      assert k in places <==> k < n && xs[..n][k] !in drop;
      assert k in next <==> k in places || (k == n && last !in drop);
    }
  }

  lemma {:induction false} KeptFilters(xs: seq<Id>, drop: set<Id>)
    ensures Filters(xs, drop, Kept(xs, drop))
  {
    hide FiltersAt;
    if xs == [] {
      NothingFiltered(drop);
    } else {
      var init := xs[..|xs| - 1];
      KeptFilters(init, drop);
      var places :| FiltersAt(init, drop, Kept(init, drop), places);
      FiltersNext(xs, drop, Kept(init, drop), places);
    }
  }

  lemma NothingFiltered(drop: set<Id>)
    ensures FiltersAt([], drop, [], [])
  {
  }

  /** mergeStrings: both lists in order, each non-blank chunk once. */
  method MergeStrings(a: seq<Id>, b: seq<Id>) returns (out: seq<Id>)
    ensures out == Firsts(EMPTY_ID, a + b) && Orders.Distinct(out)
    ensures forall s :: s in out <==> s != EMPTY_ID && (s in a || s in b)
    ensures forall i, j :: 0 <= i < j < |out| ==> OccursFirst(a + b, out[i], out[j])
  {
    hide OccursFirst;
    out := [];
    var seen: set<Id> := {};
    var group := a + b;
    for i := 0 to |group|
      invariant out == Firsts(EMPTY_ID, group[..i])
      invariant forall s :: s in seen <==> s in out
    {
      assert group[..i + 1][..i] == group[..i];
      if group[i] == EMPTY_ID || group[i] in seen {
        continue;
      }
      seen := seen + {group[i]};
      out := out + [group[i]];
    }
    assert group[..|group|] == group;
    forall i, j | 0 <= i < j < |out|
      ensures OccursFirst(group, out[i], out[j])
    {
      FirstsInOrder(EMPTY_ID, group, i, j);
    }
  }

  /** removeFrom. */
  method RemoveFrom(values: seq<Id>, drop: set<Id>) returns (out: seq<Id>)
    ensures out == Kept(values, drop) && Filters(values, drop, out)
  {
    hide Filters;
    KeptFilters(values, drop);
    out := [];
    for i := 0 to |values|
      invariant out == Kept(values[..i], drop)
    {
      assert values[..i + 1][..i] == values[..i];
      if values[i] !in drop {
        out := out + [values[i]];
      }
    }
    assert values[..|values|] == values;
  }

  /* ---- Provenance tables ---- */

  /** The chunk lists of stored items by ID, and an incoming item. */
  type Table = map<Id, seq<Id>>
  datatype Item = Item(id: Id, sources: seq<Id>)

  /** One upsert: a stored item under a non-blank ID is merged into, anything else is replaced. */
  function Upsert1(t: Table, item: Item): Table {
    if item.id in t && item.id != EMPTY_ID then t[item.id := Firsts(EMPTY_ID, t[item.id] + item.sources)]
    else t[item.id := item.sources]
  }

  function UpsertAll(t: Table, items: seq<Item>): Table {
    if items == [] then t else Upsert1(UpsertAll(t, items[..|items| - 1]), items[|items| - 1])
  }

  function Removed(t: Table, drop: set<Id>): Table {
    map id | id in t && Kept(t[id], drop) != [] :: Kept(t[id], drop)
  }

  /** The same items with the same sets of chunks. */
  ghost predicate SameProvenance(t: Table, u: Table) {
    && (forall id :: id in t <==> id in u)
    && (forall id, s :: id in t && id in u ==> (s in t[id] <==> s in u[id]))
  }

  ghost predicate Touched(items: seq<Item>, id: Id) {
    exists i :: 0 <= i < |items| && items[i].id == id
  }

  /** Everything incoming is to be dropped, and nothing dropped is stored. */
  ghost predicate Fresh(t: Table, items: seq<Item>, drop: set<Id>) {
    && (forall i, s :: 0 <= i < |items| && s in items[i].sources ==> s in drop)
    && (forall id, s :: id in t && s in t[id] ==> s !in drop)
  }

  /** What the entry of id looks like, up to dropped chunks, after the upserts. */
  ghost predicate EntryAfter(t: Table, items: seq<Item>, drop: set<Id>, u: Table, id: Id)
    requires id in u
  {
    if id in t && id != EMPTY_ID then
      forall s :: s !in drop ==> (s in u[id] <==> s in t[id] && (Touched(items, id) ==> s != EMPTY_ID))
    else if Touched(items, id) then
      forall s :: s in u[id] ==> s in drop
    else
      id in t && u[id] == t[id]
  }

  lemma {:induction false} TouchedStep(items: seq<Item>, id: Id)
    requires items != []
    ensures Touched(items, id) <==> Touched(items[..|items| - 1], id) || items[|items| - 1].id == id
  {
    var init, last := items[..|items| - 1], items[|items| - 1];
    if last.id == id {
      assert items[|items| - 1].id == id;
    }
    if Touched(init, id) {
      var i :| 0 <= i < |init| && init[i].id == id;
      assert items[i].id == id;
    }
    if Touched(items, id) && last.id != id {
      var i :| 0 <= i < |items| && items[i].id == id;
      assert init[i].id == id;
    }
  }

  lemma {:induction false} UpsertsAfter(t: Table, items: seq<Item>, drop: set<Id>)
    requires Fresh(t, items, drop)
    ensures forall id :: id in UpsertAll(t, items) <==> id in t || Touched(items, id)
    ensures forall id :: id in UpsertAll(t, items) ==> EntryAfter(t, items, drop, UpsertAll(t, items), id)
  {
    if items == [] {
    } else {
      var init, last := items[..|items| - 1], items[|items| - 1];
      UpsertsAfter(t, init, drop);
      var was, now := UpsertAll(t, init), UpsertAll(t, items);
      forall id
        ensures id in now <==> id in t || Touched(items, id)
        ensures id in now ==> EntryAfter(t, items, drop, now, id)
      {
        TouchedStep(items, id);
        if id in was {
          assert EntryAfter(t, init, drop, was, id);
        }
      }
    }
  }

  /** No stored chunk list is empty. */
  ghost predicate AllSourced(t: Table) {
    forall id :: id in t ==> t[id] != []
  }

  /** Upserting touches no stored item that has a blank ID or cites a blank chunk. */
  ghost predicate NoBlankTouched(t: Table, items: seq<Item>) {
    forall id :: id in t && Touched(items, id) ==> id != EMPTY_ID && EMPTY_ID !in t[id]
  }

  lemma NonEmptyHas(xs: seq<Id>) returns (s: Id)
    requires xs != []
    ensures s in xs
  {
    s := xs[0];
  }

  lemma {:induction false} RestoredEntry(t: Table, items: seq<Item>, drop: set<Id>, id: Id)
    requires Fresh(t, items, drop) && AllSourced(t) && NoBlankTouched(t, items)
    ensures var u := UpsertAll(t, items);
      && (id in t <==> id in Removed(u, drop))
      && forall s :: id in t && id in Removed(u, drop) ==> (s in t[id] <==> s in Removed(u, drop)[id])
  {
    var u := UpsertAll(t, items);
    UpsertsAfter(t, items, drop);
    if id in t {
      var s := NonEmptyHas(t[id]);
      assert id in u && EntryAfter(t, items, drop, u, id);
      assert s in Kept(u[id], drop);
    } else if id in u {
      assert EntryAfter(t, items, drop, u, id);
      if Kept(u[id], drop) != [] {
        var s := NonEmptyHas(Kept(u[id], drop));
        assert false;
      }
    }
  }

  /**
    Upserting items that cite only fresh chunks and then removing those chunks restores
    the stored IDs and provenance exactly when every stored item had provenance and no
    touched one was blank or cited a blank chunk.
  */
  lemma {:induction false} RemoveUndoesUpsertIff(t: Table, items: seq<Item>, drop: set<Id>)
    requires Fresh(t, items, drop)
    ensures SameProvenance(t, Removed(UpsertAll(t, items), drop)) <==> AllSourced(t) && NoBlankTouched(t, items)
  {
    var u := UpsertAll(t, items);
    if AllSourced(t) && NoBlankTouched(t, items) {
      forall id
        ensures id in t <==> id in Removed(u, drop)
        ensures forall s :: id in t && id in Removed(u, drop) ==> (s in t[id] <==> s in Removed(u, drop)[id])
      {
        RestoredEntry(t, items, drop, id);
      }
    }
    if SameProvenance(t, Removed(u, drop)) {
      UpsertsAfter(t, items, drop);
      forall id | id in t
        ensures t[id] != []
        ensures Touched(items, id) ==> id != EMPTY_ID && EMPTY_ID !in t[id]
      {
        assert id in Removed(u, drop) && EntryAfter(t, items, drop, u, id);
        var s := NonEmptyHas(Removed(u, drop)[id]);
        assert s in t[id];
      }
    }
  }

  /** After a removal no list mentions a dropped chunk, none is empty, and nothing else is lost. */
  lemma {:induction false} RemovalIsExact(t: Table, drop: set<Id>)
    ensures AllSourced(Removed(t, drop))
    ensures forall id, s :: id in Removed(t, drop) && s in Removed(t, drop)[id] ==> s !in drop
    ensures forall id :: id in Removed(t, drop) <==> id in t && exists s :: s in t[id] && s !in drop
    ensures forall id, s :: id in t && s in t[id] && s !in drop ==> id in Removed(t, drop) && s in Removed(t, drop)[id]
  {
    forall id
      ensures id in Removed(t, drop) <==> id in t && exists s :: s in t[id] && s !in drop
    {
      if id in t && Kept(t[id], drop) != [] {
        var s := NonEmptyHas(Kept(t[id], drop));
      }
    }
  }
}
