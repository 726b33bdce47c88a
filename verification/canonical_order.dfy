/** What of the merged graph depends on the order of the extractions, and what does not. */
module CanonicalOrder {
  import Orders
  import opened Options
  import opened Strings
  import opened RawGraph
  import opened Canonicalize
  import opened CanonicalMerges

  /** Equal IDs come from equal normalized names. */
  ghost predicate NamesAgree(norm: Text, entities: seq<RawEntity>) {
    forall i, j :: 0 <= i < |entities| && 0 <= j < |entities| && Meet(norm, entities[i], entities[j]) ==>
      norm(entities[i].name) == norm(entities[j].name)
  }

  /** Two named entities get the same ID. */
  ghost predicate Meet(norm: Text, e: RawEntity, f: RawEntity) {
    norm(e.name) != "" && norm(f.name) != "" && CanonId(norm, e) == CanonId(norm, f)
  }

  ghost function UpToColon(s: string): string {
    if s == [] || s[0] == ':' then [] else [s[0]] + UpToColon(s[1..])
  }

  lemma {:induction false} PrefixUpToColon(k: string, n: string)
    requires ':' !in k
    ensures UpToColon(k + ":" + n) == k
  {
    if k == [] {
      assert (k + ":" + n)[0] == ':';
    } else {
      PrefixUpToColon(k[1..], n);
      assert (k + ":" + n)[1..] == k[1..] + ":" + n;
    }
  }

  lemma SplitAtColon(k: string, n: string, k': string, n': string)
    requires ':' !in k && ':' !in k' && k + ":" + n == k' + ":" + n'
    ensures k == k' && n == n'
  {
    PrefixUpToColon(k, n);
    PrefixUpToColon(k', n');
    assert (k + ":" + n)[|k| + 1..] == n && (k' + ":" + n')[|k'| + 1..] == n';
  }

  /** Where types hold no colon, entities of different types never share an ID. */
  lemma PlainTypesApart(norm: Text, e: RawEntity, f: RawEntity)
    requires ':' !in e.kind && ':' !in f.kind && CanonId(norm, e) == CanonId(norm, f)
    ensures e.kind == f.kind && norm(e.name) == norm(f.name)
  {
    SplitAtColon(e.kind, norm(e.name), f.kind, norm(f.name));
  }

  /** Types without a colon suffice. */
  lemma PlainTypesAgree(norm: Text, entities: seq<RawEntity>)
    requires forall i :: 0 <= i < |entities| ==> ':' !in entities[i].kind
    ensures NamesAgree(norm, entities)
  {
    forall i, j | 0 <= i < |entities| && 0 <= j < |entities| && CanonId(norm, entities[i]) == CanonId(norm, entities[j])
      ensures norm(entities[i].name) == norm(entities[j].name)
    {
      SplitAtColon(entities[i].kind, norm(entities[i].name), entities[j].kind, norm(entities[j].name));
    }
  }

  /* ---- The lookup, from the entities alone ---- */

  /** The highest ID among the entities whose name normalizes to n, a blank n being no name. */
  function TopId(norm: Text, entities: seq<RawEntity>, n: string): (top: Option<string>)
    ensures top.Some? <==> exists i :: 0 <= i < |entities| && norm(entities[i].name) == n != ""
    ensures top.Some? ==>
      exists i :: 0 <= i < |entities| && norm(entities[i].name) == n && top.value == CanonId(norm, entities[i])
  {
    if entities == [] then None
    else
      var front, e := entities[..|entities| - 1], entities[|entities| - 1];
      var before := TopId(norm, front, n);
      assert entities == front + [e];
      if norm(e.name) != n || n == "" then before
      else if before.None? || Before(before.value, CanonId(norm, e)) then Some(CanonId(norm, e))
      else before
  }

  lemma {:induction false} TopIdIsTop(norm: Text, entities: seq<RawEntity>, n: string, i: nat)
    requires i < |entities| && norm(entities[i].name) == n != ""
    ensures TopId(norm, entities, n).Some? && AtMost(CanonId(norm, entities[i]), TopId(norm, entities, n).value)
  {
    var last := |entities| - 1;
    var id := CanonId(norm, entities[i]);
    Irreflexive(CanonId(norm, entities[last]));
    if i < last {
      var front := entities[..last];
      TopIdIsTop(norm, front, n, i);
      var before := TopId(norm, front, n);
      if norm(entities[last].name) == n && Before(before.value, CanonId(norm, entities[last])) {
        Asymmetric(before.value, CanonId(norm, entities[last]));
        AtMostTransitive(id, before.value, CanonId(norm, entities[last]));
      }
    }
  }

  /* ---- Permuted inputs ---- */

  lemma {:induction false} BearsPermuted(norm: Text, xs: seq<RawEntity>, ys: seq<RawEntity>, id: string, s: string)
    requires multiset(xs) == multiset(ys)
    ensures BearsBefore(norm, xs, |xs|, id) ==> BearsBefore(norm, ys, |ys|, id)
    ensures SourceOf(norm, xs, |xs|, id, s) ==> SourceOf(norm, ys, |ys|, id, s)
  {
    if BearsBefore(norm, xs, |xs|, id) {
      var i :| 0 <= i < |xs| && Bears(norm, xs[i], id);
      var j := Orders.FoundAgain(xs, ys, i);
    }
    if SourceOf(norm, xs, |xs|, id, s) {
      var i :| 0 <= i < |xs| && Bears(norm, xs[i], id) && s in xs[i].sources;
      var j := Orders.FoundAgain(xs, ys, i);
    }
  }

  /** When IDs determine names, the name of an accumulator normalizes like any of its bearers. */
  lemma {:induction false} AccName(norm: Text, entities: seq<RawEntity>, accs: map<string, CanonEntity>, i: nat)
    requires NamesAgree(norm, entities) && EntTable(norm, entities, |entities|, accs)
    requires i < |entities| && norm(entities[i].name) != ""
    ensures CanonId(norm, entities[i]) in accs
    ensures norm(accs[CanonId(norm, entities[i])].name) == norm(entities[i].name)
  {
    var id := CanonId(norm, entities[i]);
    assert Bears(norm, entities[i], id);
    assert IsEntAcc(norm, entities, |entities|, id, accs[id]);
    var f :| 0 <= f < |entities| && FirstBearer(norm, entities, f, id) && accs[id].name == entities[f].name;
    assert Meet(norm, entities[f], entities[i]);
  }

  lemma {:induction false} NamesPermuted(norm: Text, xs: seq<RawEntity>, ys: seq<RawEntity>,
                                         accs: map<string, CanonEntity>, accs': map<string, CanonEntity>, id: string)
    requires multiset(xs) == multiset(ys) && NamesAgree(norm, ys)
    requires EntTable(norm, xs, |xs|, accs) && EntTable(norm, ys, |ys|, accs')
    requires id in accs
    ensures id in accs' && norm(accs'[id].name) == norm(accs[id].name)
  {
    assert IsEntAcc(norm, xs, |xs|, id, accs[id]);
    var i :| 0 <= i < |xs| && FirstBearer(norm, xs, i, id) && accs[id].name == xs[i].name;
    var j := Orders.FoundAgain(xs, ys, i);
    AccName(norm, ys, accs', j);
  }

  lemma AgreePermuted(norm: Text, xs: seq<RawEntity>, ys: seq<RawEntity>)
    requires multiset(xs) == multiset(ys) && NamesAgree(norm, xs)
    ensures NamesAgree(norm, ys)
  {
    forall i, j | 0 <= i < |ys| && 0 <= j < |ys| && Meet(norm, ys[i], ys[j])
      ensures norm(ys[i].name) == norm(ys[j].name)
    {
      var i' := Orders.FoundAgain(ys, xs, i);
      var j' := Orders.FoundAgain(ys, xs, j);
      assert Meet(norm, xs[i'], xs[j']);
    }
  }

  /* ---- The lookup under permutation ---- */

  /** The bearers of a name's highest ID all bear that name. */
  predicate TopsFirm(norm: Text, entities: seq<RawEntity>) {
    forall i, j | 0 <= i < |entities| && 0 <= j < |entities| ::
      Tops(norm, entities, entities[i], entities[j]) ==> norm(entities[j].name) == norm(entities[i].name)
  }

  /** f bears the highest ID of e's name. */
  predicate Tops(norm: Text, entities: seq<RawEntity>, e: RawEntity, f: RawEntity) {
    norm(f.name) != "" && TopId(norm, entities, norm(e.name)) == Some(CanonId(norm, f))
  }

  /** So it is when IDs determine names. */
  lemma AgreeingTopsFirm(norm: Text, entities: seq<RawEntity>)
    requires NamesAgree(norm, entities)
    ensures TopsFirm(norm, entities)
  {
    hide TopId;
    forall i, j | 0 <= i < |entities| && 0 <= j < |entities| && Tops(norm, entities, entities[i], entities[j])
      ensures norm(entities[j].name) == norm(entities[i].name)
    {
      var n := norm(entities[i].name);
      var b :| 0 <= b < |entities| && norm(entities[b].name) == n && TopId(norm, entities, n).value == CanonId(norm, entities[b]);
      assert Meet(norm, entities[b], entities[j]);
    }
  }

  ghost predicate IsLookup(norm: Text, entities: seq<RawEntity>, t: Tables) {
    EntTable(norm, entities, |entities|, t.ents) && IsByName(norm, t.ents, t.byName)
  }

  lemma AccOf(norm: Text, entities: seq<RawEntity>, t: Tables, id: string) returns (f: nat)
    requires IsLookup(norm, entities, t) && id in t.ents
    ensures FirstBearer(norm, entities, f, id) && t.ents[id].name == entities[f].name
  {
    hide SourceOf, Orders.Distinct;
    assert IsEntAcc(norm, entities, |entities|, id, t.ents[id]);
    f :| 0 <= f < |entities| && FirstBearer(norm, entities, f, id) && t.ents[id].name == entities[f].name;
  }

  lemma BornByTable(norm: Text, entities: seq<RawEntity>, t: Tables, j: nat)
    requires IsLookup(norm, entities, t) && j < |entities| && norm(entities[j].name) != ""
    ensures CanonId(norm, entities[j]) in t.ents
  {
    assert Bears(norm, entities[j], CanonId(norm, entities[j]));
    assert BearsBefore(norm, entities, |entities|, CanonId(norm, entities[j]));
  }

  /**
    What the lookup gives a name is an ID that some first bearer of that name bears, and no
    higher than its highest.
  */
  lemma LookupBelowTop(norm: Text, entities: seq<RawEntity>, t: Tables, n: string) returns (f: nat)
    requires IsLookup(norm, entities, t) && n in t.byName
    ensures n != "" && FirstBearer(norm, entities, f, t.byName[n]) && norm(entities[f].name) == n
    ensures TopId(norm, entities, n).Some? && AtMost(t.byName[n], TopId(norm, entities, n).value)
  {
    hide TopId, EntTable;
    f := AccOf(norm, entities, t, t.byName[n]);
    TopIdIsTop(norm, entities, n, f);
  }

  /** Where the highest ID of a name is first borne under that name the lookup leads there. */
  lemma LookupAtTop(norm: Text, entities: seq<RawEntity>, t: Tables, n: string, f: nat)
    requires IsLookup(norm, entities, t) && TopId(norm, entities, n).Some?
    requires FirstBearer(norm, entities, f, TopId(norm, entities, n).value) && norm(entities[f].name) == n
    ensures n in t.byName && t.byName[n] == TopId(norm, entities, n).value
  {
    hide TopId, EntTable;
    var top := TopId(norm, entities, n).value;
    BornByTable(norm, entities, t, f);
    var g := AccOf(norm, entities, t, top);
    assert g == f;
    assert n in t.byName && AtMost(top, t.byName[n]);
    var h := LookupBelowTop(norm, entities, t, n);
    Total(top, t.byName[n]);
  }

  /** With firm tops the lookup leads every name to its highest ID. */
  lemma LookupIsTop(norm: Text, entities: seq<RawEntity>, t: Tables, n: string)
    requires TopsFirm(norm, entities) && IsLookup(norm, entities, t)
    ensures n in t.byName <==> TopId(norm, entities, n).Some?
    ensures n in t.byName ==> TopId(norm, entities, n) == Some(t.byName[n])
  {
    hide TopId, IsLookup;
    if TopId(norm, entities, n).Some? {
      var top := TopId(norm, entities, n).value;
      var j :| 0 <= j < |entities| && norm(entities[j].name) == n && top == CanonId(norm, entities[j]);
      var f := FirstBearerExists(norm, entities, j);
      assert Tops(norm, entities, entities[j], entities[f]);
      LookupAtTop(norm, entities, t, n, f);
    }
    if n in t.byName {
      var f := LookupBelowTop(norm, entities, t, n);
    }
  }

  lemma TopIdKept(norm: Text, xs: seq<RawEntity>, ys: seq<RawEntity>, n: string)
    requires multiset(xs) == multiset(ys) && TopId(norm, xs, n).Some?
    ensures TopId(norm, ys, n).Some? && AtMost(TopId(norm, xs, n).value, TopId(norm, ys, n).value)
  {
    hide TopId;
    var i :| 0 <= i < |xs| && norm(xs[i].name) == n && TopId(norm, xs, n).value == CanonId(norm, xs[i]);
    var j := Orders.FoundAgain(xs, ys, i);
    TopIdIsTop(norm, ys, n, j);
  }

  lemma TopIdPermuted(norm: Text, xs: seq<RawEntity>, ys: seq<RawEntity>, n: string)
    requires multiset(xs) == multiset(ys)
    ensures TopId(norm, xs, n) == TopId(norm, ys, n)
  {
    hide TopId;
    if TopId(norm, xs, n).Some? {
      TopIdKept(norm, xs, ys, n);
    }
    if TopId(norm, ys, n).Some? {
      TopIdKept(norm, ys, xs, n);
      Total(TopId(norm, xs, n).value, TopId(norm, ys, n).value);
    }
  }

  lemma FirmPermuted(norm: Text, xs: seq<RawEntity>, ys: seq<RawEntity>)
    requires multiset(xs) == multiset(ys) && TopsFirm(norm, xs)
    ensures TopsFirm(norm, ys)
  {
    hide TopId;
    forall i, j | 0 <= i < |ys| && 0 <= j < |ys| && Tops(norm, ys, ys[i], ys[j])
      ensures norm(ys[j].name) == norm(ys[i].name)
    {
      var i' := Orders.FoundAgain(ys, xs, i);
      var j' := Orders.FoundAgain(ys, xs, j);
      TopIdPermuted(norm, xs, ys, norm(ys[i].name));
      assert Tops(norm, xs, xs[i'], xs[j']);
    }
  }

  /** The lookup is then the same function for every order. */
  lemma {:induction false} ByNamePermuted(norm: Text, xs: seq<RawEntity>, ys: seq<RawEntity>, t: Tables, t': Tables)
    requires multiset(xs) == multiset(ys) && TopsFirm(norm, xs) && IsLookup(norm, xs, t) && IsLookup(norm, ys, t')
    ensures t.byName == t'.byName
  {
    hide IsLookup, TopsFirm, TopId;
    FirmPermuted(norm, xs, ys);
    forall n
      ensures n in t.byName <==> n in t'.byName
      ensures n in t.byName && n in t'.byName ==> t.byName[n] == t'.byName[n]
    {
      TopIdPermuted(norm, xs, ys, n);
      LookupIsTop(norm, xs, t, n);
      LookupIsTop(norm, ys, t', n);
    }
  }

  /** xs with its element i brought to the front. */
  ghost function Fronted<T>(xs: seq<T>, i: nat): (r: seq<T>)
    requires i < |xs|
    ensures |r| == |xs| && r[0] == xs[i]
  {
    [xs[i]] + (xs[..i] + xs[i + 1..])
  }

  lemma FrontedPermutes<T>(xs: seq<T>, i: nat)
    requires i < |xs|
    ensures multiset(Fronted(xs, i)) == multiset(xs)
  {
    Orders.WithoutOne(xs, i);
  }

  /** The lookups of all rearrangements of the entities are one. */
  ghost predicate LookupOrderFree(norm: Text, xs: seq<RawEntity>) {
    forall ys, t, t' :: multiset(xs) == multiset(ys) && IsLookup(norm, xs, t) && IsLookup(norm, ys, t') ==>
      t.byName == t'.byName
  }

  /** A bearer of the highest ID of a name that bears another one hides it when it comes first. */
  lemma {:induction false} TopHidden(norm: Text, xs: seq<RawEntity>, i: nat, j: nat)
    requires i < |xs| && j < |xs| && Tops(norm, xs, xs[i], xs[j]) && norm(xs[j].name) != norm(xs[i].name)
    ensures !LookupOrderFree(norm, xs)
  {
    hide IsLookup, IsMerge, TopId, Fronted;
    var n := norm(xs[i].name);
    var top := CanonId(norm, xs[j]);
    var b :| 0 <= b < |xs| && norm(xs[b].name) == n && top == CanonId(norm, xs[b]);
    var t, g := SomeMerge(norm, xs, []);
    var t1, g1 := SomeMerge(norm, Fronted(xs, b), []);
    var t2, g2 := SomeMerge(norm, Fronted(xs, j), []);
    MergeHasLookup(norm, xs, [], t, g);
    MergeHasLookup(norm, Fronted(xs, b), [], t1, g1);
    MergeHasLookup(norm, Fronted(xs, j), [], t2, g2);
    FrontedPermutes(xs, b);
    FrontedPermutes(xs, j);
    TopIdPermuted(norm, xs, Fronted(xs, b), n);
    LookupAtTop(norm, Fronted(xs, b), t1, n, 0);
    if n in t2.byName && t2.byName[n] == top {
      var f := LookupBelowTop(norm, Fronted(xs, j), t2, n);
      assert false;
    }
  }

  lemma MergeHasLookup(norm: Text, entities: seq<RawEntity>, relations: seq<RawRelation>, t: Tables, g: CanonGraph)
    requires IsMerge(norm, entities, relations, t, g)
    ensures IsLookup(norm, entities, t)
  {
    hide EntTable, IsByName, RelTable, ListsEntities, ListsRelations;
  }

  /** The lookup does not depend on the order of the entities exactly when its tops are firm. */
  lemma {:induction false} LookupOrderFreeIff(norm: Text, xs: seq<RawEntity>)
    ensures LookupOrderFree(norm, xs) <==> TopsFirm(norm, xs)
  {
    hide IsLookup, Tops;
    if TopsFirm(norm, xs) {
      forall ys, t, t' | multiset(xs) == multiset(ys) && IsLookup(norm, xs, t) && IsLookup(norm, ys, t')
        ensures t.byName == t'.byName
      {
        ByNamePermuted(norm, xs, ys, t, t');
      }
    } else {
      var i, j :| 0 <= i < |xs| && 0 <= j < |xs| && Tops(norm, xs, xs[i], xs[j]) && norm(xs[j].name) != norm(xs[i].name);
      TopHidden(norm, xs, i, j);
    }
  }

  /** The normalized names of the merged entities are those of every rearrangement. */
  ghost predicate NamesOrderFree(norm: Text, xs: seq<RawEntity>) {
    forall ys, t, t', id ::
      multiset(xs) == multiset(ys) && IsLookup(norm, xs, t) && IsLookup(norm, ys, t') && id in t.ents && id in t'.ents ==>
      norm(t.ents[id].name) == norm(t'.ents[id].name)
  }

  /** The bearer in front names its ID. */
  lemma FrontNames(norm: Text, entities: seq<RawEntity>, t: Tables)
    requires IsLookup(norm, entities, t) && entities != [] && norm(entities[0].name) != ""
    ensures var id := CanonId(norm, entities[0]); id in t.ents && t.ents[id].name == entities[0].name
  {
    hide EntTable, IsByName;
    BornByTable(norm, entities, t, 0);
    var f := AccOf(norm, entities, t, CanonId(norm, entities[0]));
  }

  /**
    The normalized names of merged entities do not depend on the order of the inputs exactly
    when IDs determine names.
  */
  lemma {:induction false} NamesOrderFreeIff(norm: Text, xs: seq<RawEntity>)
    ensures NamesOrderFree(norm, xs) <==> NamesAgree(norm, xs)
  {
    hide IsMerge, Fronted, EntTable, IsByName;
    if NamesAgree(norm, xs) {
      forall ys, t, t', id |
        multiset(xs) == multiset(ys) && IsLookup(norm, xs, t) && IsLookup(norm, ys, t') && id in t.ents && id in t'.ents
        ensures norm(t.ents[id].name) == norm(t'.ents[id].name)
      {
        AgreePermuted(norm, xs, ys);
        NamesPermuted(norm, xs, ys, t.ents, t'.ents, id);
      }
    } else {
      var i, j :| 0 <= i < |xs| && 0 <= j < |xs| && Meet(norm, xs[i], xs[j]) && norm(xs[i].name) != norm(xs[j].name);
      var id := CanonId(norm, xs[i]);
      var t, g := SomeMerge(norm, xs, []);
      var t1, g1 := SomeMerge(norm, Fronted(xs, i), []);
      var t2, g2 := SomeMerge(norm, Fronted(xs, j), []);
      MergeHasLookup(norm, xs, [], t, g);
      MergeHasLookup(norm, Fronted(xs, i), [], t1, g1);
      MergeHasLookup(norm, Fronted(xs, j), [], t2, g2);
      FrontedPermutes(xs, i);
      FrontedPermutes(xs, j);
      BornByTable(norm, xs, t, i);
      FrontNames(norm, Fronted(xs, i), t1);
      FrontNames(norm, Fronted(xs, j), t2);
    }
  }

  /* ---- Relations under permutation ---- */

  lemma {:induction false} WeightWithout(norm: Text, byName: map<string, string>, rs: seq<RawRelation>, n: nat, k: nat,
                                         id: string)
    requires k < n <= |rs|
    ensures n - 1 <= |rs[..k] + rs[k + 1..]|
    ensures WeightTo(norm, byName, rs, n, id)
         == WeightTo(norm, byName, rs[..k] + rs[k + 1..], n - 1, id)
            + if Makes(norm, byName, rs[k], id) then rs[k].weight else 0.0
    decreases n
  {
    var rest := rs[..k] + rs[k + 1..];
    if k < n - 1 {
      WeightWithout(norm, byName, rs, n - 1, k, id);
      assert rest[n - 2] == rs[n - 1];
    } else {
      WeightPrefix(norm, byName, rs, rest, n - 1, id);
    }
  }

  lemma {:induction false} WeightPrefix(norm: Text, byName: map<string, string>, rs: seq<RawRelation>,
                                        qs: seq<RawRelation>, n: nat, id: string)
    requires n <= |rs| && n <= |qs| && forall i :: 0 <= i < n ==> rs[i] == qs[i]
    ensures WeightTo(norm, byName, rs, n, id) == WeightTo(norm, byName, qs, n, id)
  {
    if n == 0 {
    } else {
      WeightPrefix(norm, byName, rs, qs, n - 1, id);
    }
  }

  lemma {:induction false} WeightPermuted(norm: Text, byName: map<string, string>, rs: seq<RawRelation>,
                                          qs: seq<RawRelation>, id: string)
    requires multiset(rs) == multiset(qs)
    ensures WeightTo(norm, byName, rs, |rs|, id) == WeightTo(norm, byName, qs, |qs|, id)
    decreases |rs|
  {
    hide Makes;
    assert |multiset(rs)| == |rs| && |multiset(qs)| == |qs|;
    if rs == [] {
    } else {
      var last := |rs| - 1;
      var k := Orders.FoundAgain(rs, qs, last);
      var rs', qs' := rs[..last] + rs[last + 1..], qs[..k] + qs[k + 1..];
      Orders.WithoutOne(rs, last);
      Orders.WithoutOne(qs, k);
      WeightPermuted(norm, byName, rs', qs', id);
      WeightWithout(norm, byName, rs, |rs|, last, id);
      WeightWithout(norm, byName, qs, |qs|, k, id);
    }
  }

  lemma {:induction false} MadePermuted(norm: Text, byName: map<string, string>, rs: seq<RawRelation>,
                                        qs: seq<RawRelation>, id: string, s: string)
    requires multiset(rs) == multiset(qs)
    ensures MadeBefore(norm, byName, rs, |rs|, id) ==> MadeBefore(norm, byName, qs, |qs|, id)
    ensures RelSource(norm, byName, rs, |rs|, id, s) ==> RelSource(norm, byName, qs, |qs|, id, s)
  {
    hide Makes;
    if MadeBefore(norm, byName, rs, |rs|, id) {
      var i :| 0 <= i < |rs| && Makes(norm, byName, rs[i], id);
      var j := Orders.FoundAgain(rs, qs, i);
    }
    if RelSource(norm, byName, rs, |rs|, id, s) {
      var i :| 0 <= i < |rs| && Makes(norm, byName, rs[i], id) && s in rs[i].sources;
      var j := Orders.FoundAgain(rs, qs, i);
    }
  }

  /* ---- The theorem ---- */

  /** IDs, provenance and weights coincide. */
  ghost predicate SameData(g: CanonGraph, h: CanonGraph) {
    && EntIds(g.entities) == EntIds(h.entities) && RelIds(g.relations) == RelIds(h.relations)
    && (forall i :: 0 <= i < |g.entities| && i < |h.entities| ==> g.entities[i].sources == h.entities[i].sources)
    && (forall i :: 0 <= i < |g.relations| && i < |h.relations| ==>
      g.relations[i].sources == h.relations[i].sources && g.relations[i].weight == h.relations[i].weight)
  }

  lemma SortedSame(xs: seq<string>, ys: seq<string>)
    requires Orders.Distinct(xs) && Orders.Distinct(ys) && forall s :: s in xs <==> s in ys
    ensures SortStrings(xs) == SortStrings(ys)
  {
    AscendingUnique(SortStrings(xs), SortStrings(ys));
  }

  lemma {:induction false} EntitiesPermuted(norm: Text, xs: seq<RawEntity>, ys: seq<RawEntity>, es: seq<CanonEntity>,
                                            fs: seq<CanonEntity>, accs: map<string, CanonEntity>,
                                            accs': map<string, CanonEntity>)
    requires multiset(xs) == multiset(ys)
    requires EntTable(norm, xs, |xs|, accs) && EntTable(norm, ys, |ys|, accs')
    requires ListsEntities(es, accs) && ListsEntities(fs, accs')
    ensures EntIds(es) == EntIds(fs)
    ensures forall i :: 0 <= i < |es| && i < |fs| ==> es[i].sources == fs[i].sources
  {
    hide BearsBefore, SourceOf, Ascending, Orders.Distinct, FirstBearer;
    forall id
      ensures id in EntIds(es) <==> id in EntIds(fs)
    {
      BearsPermuted(norm, xs, ys, id, "");
      BearsPermuted(norm, ys, xs, id, "");
    }
    AscendingUnique(EntIds(es), EntIds(fs));
    forall i | 0 <= i < |es| && i < |fs|
      ensures es[i].sources == fs[i].sources
    {
      var id := es[i].id;
      assert EntIds(es)[i] == EntIds(fs)[i];
      assert IsEntAcc(norm, xs, |xs|, id, accs[id]) && IsEntAcc(norm, ys, |ys|, id, accs'[id]);
      forall s
        ensures s in accs[id].sources <==> s in accs'[id].sources
      {
        BearsPermuted(norm, xs, ys, id, s);
        BearsPermuted(norm, ys, xs, id, s);
      }
      SortedSame(accs[id].sources, accs'[id].sources);
    }
  }

  lemma {:induction false} RelationsPermuted(norm: Text, byName: map<string, string>, rs: seq<RawRelation>,
                                             qs: seq<RawRelation>, out: seq<CanonRelation>, out': seq<CanonRelation>,
                                             accs: map<string, CanonRelation>, accs': map<string, CanonRelation>)
    requires multiset(rs) == multiset(qs)
    requires RelTable(norm, byName, rs, |rs|, accs) && RelTable(norm, byName, qs, |qs|, accs')
    requires ListsRelations(out, accs) && ListsRelations(out', accs')
    ensures RelIds(out) == RelIds(out')
    ensures forall i :: 0 <= i < |out| && i < |out'| ==>
      out[i].sources == out'[i].sources && out[i].weight == out'[i].weight
  {
    hide MadeBefore, RelSource, Ascending, Orders.Distinct, FirstMaker, WeightTo;
    forall id
      ensures id in RelIds(out) <==> id in RelIds(out')
    {
      MadePermuted(norm, byName, rs, qs, id, "");
      MadePermuted(norm, byName, qs, rs, id, "");
    }
    AscendingUnique(RelIds(out), RelIds(out'));
    forall i | 0 <= i < |out| && i < |out'|
      ensures out[i].sources == out'[i].sources && out[i].weight == out'[i].weight
    {
      var id := out[i].id;
      assert RelIds(out)[i] == RelIds(out')[i];
      assert IsRelAcc(norm, byName, rs, |rs|, id, accs[id]) && IsRelAcc(norm, byName, qs, |qs|, id, accs'[id]);
      WeightPermuted(norm, byName, rs, qs, id);
      forall s
        ensures s in accs[id].sources <==> s in accs'[id].sources
      {
        MadePermuted(norm, byName, rs, qs, id, s);
        MadePermuted(norm, byName, qs, rs, id, s);
      }
      SortedSame(accs[id].sources, accs'[id].sources);
    }
  }

  /** IDs, provenance and weights do not depend on the order of the inputs. */
  lemma {:induction false} OrderIrrelevant(norm: Text, xs: seq<RawEntity>, ys: seq<RawEntity>, rs: seq<RawRelation>,
                                           qs: seq<RawRelation>, t: Tables, t': Tables, g: CanonGraph, g': CanonGraph)
    requires multiset(xs) == multiset(ys) && multiset(rs) == multiset(qs) && TopsFirm(norm, xs)
    requires IsMerge(norm, xs, rs, t, g) && IsMerge(norm, ys, qs, t', g')
    ensures SameData(g, g') && t.byName == t'.byName
  {
    hide EntTable, RelTable, IsByName, ListsEntities, ListsRelations, TopsFirm;
    ByNamePermuted(norm, xs, ys, t, t');
    EntitiesPermuted(norm, xs, ys, g.entities, g'.entities, t.ents, t'.ents);
    RelationsPermuted(norm, t.byName, rs, qs, g.relations, g'.relations, t.rels, t'.rels);
  }

  /* ---- Endpoints ---- */

  /** The ID a relation makes, and its endpoints. */
  datatype Made = Made(id: string, source: string, target: string)

  function MadeOf(norm: Text, entities: seq<RawEntity>, r: RawRelation): Option<Made> {
    var src, dst := TopId(norm, entities, norm(r.source)), TopId(norm, entities, norm(r.target));
    if src.None? || dst.None? then None
    else Some(Made(src.value + "::" + r.relation + "::" + dst.value, src.value, dst.value))
  }

  /** Relations that make one ID make it with one pair of endpoints. */
  predicate EndpointsClear(norm: Text, entities: seq<RawEntity>, rs: seq<RawRelation>) {
    forall i, j | 0 <= i < |rs| && 0 <= j < |rs| :: !Clash(norm, entities, rs[i], rs[j])
  }

  predicate Clash(norm: Text, entities: seq<RawEntity>, r: RawRelation, q: RawRelation) {
    var made, other := MadeOf(norm, entities, r), MadeOf(norm, entities, q);
    made.Some? && other.Some? && made.value.id == other.value.id && made != other
  }

  function MadeBy(norm: Text, byName: map<string, string>, r: RawRelation): Made
    requires Resolves(norm, byName, r)
  {
    Made(RelationId(norm, byName, r), byName[norm(r.source)], byName[norm(r.target)])
  }

  lemma MadeIs(norm: Text, entities: seq<RawEntity>, t: Tables, r: RawRelation)
    requires TopsFirm(norm, entities) && EntTable(norm, entities, |entities|, t.ents)
    requires IsByName(norm, t.ents, t.byName)
    ensures MadeOf(norm, entities, r).Some? <==> Resolves(norm, t.byName, r)
    ensures Resolves(norm, t.byName, r) ==> MadeOf(norm, entities, r) == Some(MadeBy(norm, t.byName, r))
  {
    hide TopsFirm, EntTable, IsByName, TopId;
    LookupIsTop(norm, entities, t, norm(r.source));
    LookupIsTop(norm, entities, t, norm(r.target));
  }

  /** acc has the endpoints with which some relation makes its ID. */
  lemma {:induction false} AccIsMade(norm: Text, entities: seq<RawEntity>, rs: seq<RawRelation>, t: Tables, id: string)
    returns (i: nat)
    requires TopsFirm(norm, entities) && EntTable(norm, entities, |entities|, t.ents)
    requires IsByName(norm, t.ents, t.byName)
    requires RelTable(norm, t.byName, rs, |rs|, t.rels) && id in t.rels
    ensures i < |rs| && MadeOf(norm, entities, rs[i]) == Some(Made(id, t.rels[id].source, t.rels[id].target))
    ensures forall j :: 0 <= j < i ==>
      MadeOf(norm, entities, rs[j]).None? || MadeOf(norm, entities, rs[j]).value.id != id
  {
    hide TopsFirm, EntTable, IsByName, Orders.Distinct, WeightTo, RelSource, MadeOf;
    assert IsRelAcc(norm, t.byName, rs, |rs|, id, t.rels[id]);
    i :| 0 <= i < |rs| && FirstMaker(norm, t.byName, rs, i, id)
      && t.rels[id].source == t.byName[norm(rs[i].source)] && t.rels[id].target == t.byName[norm(rs[i].target)];
    MadeIs(norm, entities, t, rs[i]);
    forall j | 0 <= j < i
      ensures MadeOf(norm, entities, rs[j]).None? || MadeOf(norm, entities, rs[j]).value.id != id
    {
      MadeIs(norm, entities, t, rs[j]);
      assert !Makes(norm, t.byName, rs[j], id);
    }
  }

  ghost predicate SameEndpoints(g: CanonGraph, h: CanonGraph) {
    && |g.relations| == |h.relations|
    && forall k :: 0 <= k < |g.relations| ==>
      && g.relations[k].id == h.relations[k].id
      && g.relations[k].source == h.relations[k].source && g.relations[k].target == h.relations[k].target
  }

  /** Where endpoints are clear they are the same for every order. */
  lemma {:induction false} EndpointsPermuted(norm: Text, xs: seq<RawEntity>, ys: seq<RawEntity>, rs: seq<RawRelation>,
                                             qs: seq<RawRelation>, t: Tables, t': Tables, g: CanonGraph, g': CanonGraph)
    requires multiset(xs) == multiset(ys) && multiset(rs) == multiset(qs) && TopsFirm(norm, xs)
    requires IsMerge(norm, xs, rs, t, g) && IsMerge(norm, ys, qs, t', g') && EndpointsClear(norm, xs, rs)
    ensures SameEndpoints(g, g')
  {
    hide EntTable, RelTable, IsByName, ListsEntities, TopsFirm, Ascending, Orders.Distinct, TopId, MadeOf;
    OrderIrrelevant(norm, xs, ys, rs, qs, t, t', g, g');
    FirmPermuted(norm, xs, ys);
    assert RelIds(g.relations) == RelIds(g'.relations);
    forall k | 0 <= k < |g.relations|
      ensures g.relations[k].id == g'.relations[k].id
      ensures g.relations[k].source == g'.relations[k].source && g.relations[k].target == g'.relations[k].target
    {
      var id := RelIds(g.relations)[k];
      assert RelIds(g'.relations)[k] == id;
      var i := AccIsMade(norm, xs, rs, t, id);
      var j := AccIsMade(norm, ys, qs, t', id);
      var j' := Orders.FoundAgain(qs, rs, j);
      SameMade(norm, xs, ys, t, t', qs[j]);
      assert !Clash(norm, xs, rs[i], rs[j']);
    }
  }

  lemma SameMade(norm: Text, xs: seq<RawEntity>, ys: seq<RawEntity>, t: Tables, t': Tables, r: RawRelation)
    requires TopsFirm(norm, xs) && EntTable(norm, xs, |xs|, t.ents) && IsByName(norm, t.ents, t.byName)
    requires TopsFirm(norm, ys) && EntTable(norm, ys, |ys|, t'.ents) && IsByName(norm, t'.ents, t'.byName)
    requires t.byName == t'.byName
    ensures MadeOf(norm, xs, r) == MadeOf(norm, ys, r)
  {
    hide TopsFirm, EntTable, IsByName, TopId, MadeOf;
    MadeIs(norm, xs, t, r);
    MadeIs(norm, ys, t', r);
  }

  /** The relation in front decides the endpoints of its ID. */
  lemma {:induction false} FrontDecides(norm: Text, entities: seq<RawEntity>, rs: seq<RawRelation>, t: Tables,
                                        g: CanonGraph) returns (k: nat)
    requires TopsFirm(norm, entities) && IsMerge(norm, entities, rs, t, g) && rs != []
    requires MadeOf(norm, entities, rs[0]).Some?
    ensures k < |g.relations|
    ensures Made(g.relations[k].id, g.relations[k].source, g.relations[k].target) == MadeOf(norm, entities, rs[0]).value
  {
    hide EntTable, IsByName, ListsEntities, TopsFirm, Ascending, Orders.Distinct, TopId, MadeOf, IsRelAcc;
    MadeIs(norm, entities, t, rs[0]);
    var id := RelationId(norm, t.byName, rs[0]);
    assert Makes(norm, t.byName, rs[0], id);
    assert id in RelIds(g.relations);
    k :| 0 <= k < |g.relations| && RelIds(g.relations)[k] == id;
    var i := AccIsMade(norm, entities, rs, t, id);
  }

  /** The merges of every rearrangement of the inputs have the endpoints of every merge of the inputs themselves. */
  ghost predicate OrderFree(norm: Text, xs: seq<RawEntity>, rs: seq<RawRelation>) {
    forall ys, qs, t, t', g, g' ::
      multiset(xs) == multiset(ys) && multiset(rs) == multiset(qs) &&
      IsMerge(norm, xs, rs, t, g) && IsMerge(norm, ys, qs, t', g') ==>
      SameEndpoints(g, g')
  }

  /** Two relations that clash give different endpoints, each when it comes first. */
  lemma {:induction false} ClashShows(norm: Text, xs: seq<RawEntity>, rs: seq<RawRelation>, i: nat, j: nat)
    requires TopsFirm(norm, xs) && i < |rs| && j < |rs| && Clash(norm, xs, rs[i], rs[j])
    ensures !OrderFree(norm, xs, rs)
  {
    hide TopsFirm, IsMerge, MadeOf, SameData, Orders.Distinct;
    var t, g := SomeMerge(norm, xs, rs);
    var t1, g1 := SomeMerge(norm, xs, Fronted(rs, i));
    var t2, g2 := SomeMerge(norm, xs, Fronted(rs, j));
    FrontedPermutes(rs, i);
    FrontedPermutes(rs, j);
    var k1 := FrontDecides(norm, xs, Fronted(rs, i), t1, g1);
    var k2 := FrontDecides(norm, xs, Fronted(rs, j), t2, g2);
    if OrderFree(norm, xs, rs) {
      assert SameEndpoints(g, g1) && SameEndpoints(g, g2);
      OncePerId(norm, xs, rs, t, g, k1, k2);
      assert false;
    }
  }

  lemma OncePerId(norm: Text, xs: seq<RawEntity>, rs: seq<RawRelation>, t: Tables, g: CanonGraph, i: nat, j: nat)
    requires IsMerge(norm, xs, rs, t, g) && i < |g.relations| && j < |g.relations|
    requires g.relations[i].id == g.relations[j].id
    ensures i == j
  {
    hide EntTable, RelTable, IsByName, ListsEntities, Ascending;
    AscendingDistinct(RelIds(g.relations));
    assert RelIds(g.relations)[i] == RelIds(g.relations)[j];
  }

  /**
    With firm tops, the endpoints of the merged relations are the same for every
    order of the inputs exactly when they are clear from the inputs.
  */
  lemma {:induction false} EndpointsOrderFreeIff(norm: Text, xs: seq<RawEntity>, rs: seq<RawRelation>)
    requires TopsFirm(norm, xs)
    ensures OrderFree(norm, xs, rs) <==> EndpointsClear(norm, xs, rs)
  {
    hide TopsFirm, IsMerge, Clash, SameEndpoints;
    if EndpointsClear(norm, xs, rs) {
      forall ys, qs, t, t', g, g' |
        multiset(xs) == multiset(ys) && multiset(rs) == multiset(qs) &&
        IsMerge(norm, xs, rs, t, g) && IsMerge(norm, ys, qs, t', g')
        ensures SameEndpoints(g, g')
      {
        EndpointsPermuted(norm, xs, ys, rs, qs, t, t', g, g');
      }
    } else {
      var i, j :| 0 <= i < |rs| && 0 <= j < |rs| && Clash(norm, xs, rs[i], rs[j]);
      ClashShows(norm, xs, rs, i, j);
    }
  }

  /** Lookup and endpoints together are order-free exactly under these two conditions on the inputs. */
  lemma MergeOrderFreeIff(norm: Text, xs: seq<RawEntity>, rs: seq<RawRelation>)
    ensures LookupOrderFree(norm, xs) && OrderFree(norm, xs, rs) <==> TopsFirm(norm, xs) && EndpointsClear(norm, xs, rs)
  {
    hide LookupOrderFree, OrderFree, TopsFirm, EndpointsClear;
    LookupOrderFreeIff(norm, xs);
    if TopsFirm(norm, xs) {
      EndpointsOrderFreeIff(norm, xs, rs);
    }
  }

  predicate Plain(s: string) {
    ':' !in s
  }

  /** An ID splits into its parts when none of them holds a colon. */
  lemma SplitMade(k: string, n: string, r: string, k2: string, n2: string, k': string, n': string, r': string,
                  k2': string, n2': string)
    requires Plain(k) && Plain(n) && Plain(r) && Plain(k2) && Plain(k') && Plain(n') && Plain(r') && Plain(k2')
    requires (k + ":" + n) + "::" + r + "::" + (k2 + ":" + n2) == (k' + ":" + n') + "::" + r' + "::" + (k2' + ":" + n2')
    ensures k == k' && n == n' && r == r' && k2 == k2' && n2 == n2'
  {
    var c, c' := k2 + ":" + n2, k2' + ":" + n2';
    var b, b' := r + ":" + (":" + c), r' + ":" + (":" + c');
    var a, a' := n + ":" + (":" + b), n' + ":" + (":" + b');
    assert (k + ":" + n) + "::" + r + "::" + c == k + ":" + a;
    assert (k' + ":" + n') + "::" + r' + "::" + c' == k' + ":" + a';
    SplitAtColon(k, a, k', a');
    SplitAtColon(n, ":" + b, n', ":" + b');
    assert (":" + b)[1..] == b && (":" + b')[1..] == b';
    SplitAtColon(r, ":" + c, r', ":" + c');
    assert (":" + c)[1..] == c && (":" + c')[1..] == c';
    SplitAtColon(k2, n2, k2', n2');
  }

  /** The highest ID of a name ends in the name. */
  lemma TopIdParts(norm: Text, xs: seq<RawEntity>, n: string) returns (kind: string)
    requires TopId(norm, xs, n).Some? && forall i :: 0 <= i < |xs| ==> Plain(xs[i].kind) && Plain(norm(xs[i].name))
    ensures Plain(kind) && Plain(n) && TopId(norm, xs, n).value == kind + ":" + n
  {
    hide TopId, Plain;
    var i :| 0 <= i < |xs| && norm(xs[i].name) == n && TopId(norm, xs, n).value == CanonId(norm, xs[i]);
    kind := xs[i].kind;
  }

  lemma NoPlainClash(norm: Text, xs: seq<RawEntity>, r: RawRelation, q: RawRelation)
    requires Plain(r.relation) && Plain(q.relation)
    requires forall i :: 0 <= i < |xs| ==> Plain(xs[i].kind) && Plain(norm(xs[i].name))
    ensures !Clash(norm, xs, r, q)
  {
    hide TopId, Plain;
    var a, b, c, d := norm(r.source), norm(r.target), norm(q.source), norm(q.target);
    if TopId(norm, xs, a).Some? && TopId(norm, xs, b).Some? && TopId(norm, xs, c).Some? && TopId(norm, xs, d).Some? {
      var ka := TopIdParts(norm, xs, a);
      var kb := TopIdParts(norm, xs, b);
      var kc := TopIdParts(norm, xs, c);
      var kd := TopIdParts(norm, xs, d);
      if MadeOf(norm, xs, r).value.id == MadeOf(norm, xs, q).value.id {
        SplitMade(ka, a, r.relation, kb, b, kc, c, q.relation, kd, d);
      }
    }
  }

  /** Types, normalized names and relation labels free of colons make endpoints clear. */
  lemma PlainEndpointsClear(norm: Text, xs: seq<RawEntity>, rs: seq<RawRelation>)
    requires forall i :: 0 <= i < |xs| ==> Plain(xs[i].kind) && Plain(norm(xs[i].name))
    requires forall i :: 0 <= i < |rs| ==> Plain(rs[i].relation)
    ensures EndpointsClear(norm, xs, rs)
  {
    hide Clash, Plain;
    forall i, j | 0 <= i < |rs| && 0 <= j < |rs|
      ensures !Clash(norm, xs, rs[i], rs[j])
    {
      NoPlainClash(norm, xs, rs[i], rs[j]);
    }
  }

  lemma OnlyBearer(norm: Text, entities: seq<RawEntity>, i: nat)
    requires i < |entities| && norm(entities[i].name) != ""
    requires forall j :: 0 <= j < |entities| && norm(entities[j].name) == norm(entities[i].name) ==> j == i
    ensures TopId(norm, entities, norm(entities[i].name)) == Some(CanonId(norm, entities[i]))
  {
    hide TopId;
    var top := TopId(norm, entities, norm(entities[i].name));
    assert top.Some?;
  }

  ghost predicate Lists(g: CanonGraph, made: Made) {
    exists k :: 0 <= k < |g.relations| && Made(g.relations[k].id, g.relations[k].source, g.relations[k].target) == made
  }

  /** norm leaves s alone. */
  predicate Fixes(norm: Text, s: string) {
    norm(s) == s
  }

  /** Three entities of type t: a, a::r and b. */
  function ColonNames(): seq<RawEntity> {
    [RawEntity("a", "t", "", []), RawEntity("a::r", "t", "", []), RawEntity("b", "t", "", [])]
  }

  lemma ColonIds(norm: Text)
    requires Fixes(norm, "a") && Fixes(norm, "a::r") && Fixes(norm, "b")
    ensures TopId(norm, ColonNames(), "a") == Some("t:a")
    ensures TopId(norm, ColonNames(), "a::r") == Some("t:a::r")
    ensures TopId(norm, ColonNames(), "b") == Some("t:b")
  {
    hide TopId;
    var es := ColonNames();
    assert |"a"| == 1 && |"a::r"| == 4 && |"b"| == 1 && "a" != "b";
    OnlyBearer(norm, es, 0);
    OnlyBearer(norm, es, 1);
    OnlyBearer(norm, es, 2);
    assert CanonId(norm, es[0]) == "t:a" && CanonId(norm, es[1]) == "t:a::r" && CanonId(norm, es[2]) == "t:b";
  }

  /** Inputs with types free of colons whose two orders give one relation different sources. */
  lemma {:induction false} EndpointsMayDisagree(norm: Text, t: Tables, t': Tables, g: CanonGraph, g': CanonGraph)
    requires Fixes(norm, "a") && Fixes(norm, "a::r") && Fixes(norm, "b")
    requires var r, q := RawRelation("a", "b", "r::q", "", [], 1.0), RawRelation("a::r", "b", "q", "", [], 1.0);
      IsMerge(norm, ColonNames(), [r, q], t, g) && IsMerge(norm, ColonNames(), [q, r], t', g')
    ensures Lists(g, Made("t:a::r::q::t:b", "t:a", "t:b")) && Lists(g', Made("t:a::r::q::t:b", "t:a::r", "t:b"))
  {
    hide IsMerge, MadeOf, TopsFirm, ColonNames;
    var r, q := RawRelation("a", "b", "r::q", "", [], 1.0), RawRelation("a::r", "b", "q", "", [], 1.0);
    ColonMade(norm, r, q);
    var k := FrontDecides(norm, ColonNames(), [r, q], t, g);
    var k' := FrontDecides(norm, ColonNames(), [q, r], t', g');
  }

  lemma ColonMade(norm: Text, r: RawRelation, q: RawRelation)
    requires Fixes(norm, "a") && Fixes(norm, "a::r") && Fixes(norm, "b")
    requires r.source == "a" && r.relation == "r::q" && q.source == "a::r" && q.relation == "q"
    requires r.target == q.target == "b"
    ensures TopsFirm(norm, ColonNames())
    ensures MadeOf(norm, ColonNames(), r) == Some(Made("t:a::r::q::t:b", "t:a", "t:b"))
    ensures MadeOf(norm, ColonNames(), q) == Some(Made("t:a::r::q::t:b", "t:a::r", "t:b"))
  {
    hide TopId, NamesAgree, TopsFirm;
    PlainTypesAgree(norm, ColonNames());
    AgreeingTopsFirm(norm, ColonNames());
    hide ColonNames;
    ColonIds(norm);
    ColonText();
  }

  lemma ColonText()
    ensures "t:a" + "::" + "r::q" + "::" + "t:b" == "t:a::r::q::t:b" == "t:a::r" + "::" + "q" + "::" + "t:b"
  {
  }

  /* ---- Which relations reach the graph ---- */

  /** The non-blank normalized name n is that of the first bearer of some ID. */
  predicate FirstNamed(norm: Text, entities: seq<RawEntity>, n: string) {
    exists i | 0 <= i < |entities| :: norm(entities[i].name) == n && FirstBearer(norm, entities, i, CanonId(norm, entities[i]))
  }

  /** The lookup knows exactly these names. */
  lemma {:induction false} LookupKnowsIff(norm: Text, entities: seq<RawEntity>, t: Tables, n: string)
    requires EntTable(norm, entities, |entities|, t.ents) && IsByName(norm, t.ents, t.byName)
    ensures n in t.byName <==> FirstNamed(norm, entities, n)
  {
    hide SourceOf, Orders.Distinct;
    if n in t.byName {
      var id := t.byName[n];
      assert IsEntAcc(norm, entities, |entities|, id, t.ents[id]);
    }
    if FirstNamed(norm, entities, n) {
      var i :| 0 <= i < |entities| && norm(entities[i].name) == n && FirstBearer(norm, entities, i, CanonId(norm, entities[i]));
      var id := CanonId(norm, entities[i]);
      assert BearsBefore(norm, entities, |entities|, id);
      assert IsEntAcc(norm, entities, |entities|, id, t.ents[id]);
      var f :| 0 <= f < |entities| && FirstBearer(norm, entities, f, id) && t.ents[id].name == entities[f].name;
      assert f == i;
    }
  }

  /**
    A relation keeps its ID in the output exactly when both its endpoints normalize to first
    bearers' names; else it is dropped.
  */
  lemma {:induction false} SurvivesIff(norm: Text, entities: seq<RawEntity>, relations: seq<RawRelation>, t: Tables,
                                       g: CanonGraph, r: RawRelation)
    requires IsMerge(norm, entities, relations, t, g)
    ensures Resolves(norm, t.byName, r) <==>
      FirstNamed(norm, entities, norm(r.source)) && FirstNamed(norm, entities, norm(r.target))
    ensures r in relations && Resolves(norm, t.byName, r) ==> RelationId(norm, t.byName, r) in RelIds(g.relations)
  {
    hide EntTable, IsByName, Ascending, Orders.Distinct, ListsEntities, IsRelAcc, FirstNamed;
    LookupKnowsIff(norm, entities, t, norm(r.source));
    LookupKnowsIff(norm, entities, t, norm(r.target));
    if r in relations && Resolves(norm, t.byName, r) {
      var i :| 0 <= i < |relations| && relations[i] == r;
      assert Makes(norm, t.byName, relations[i], RelationId(norm, t.byName, r));
    }
  }

  /** e bears a non-blank name that normalizes like n. */
  ghost predicate Named(norm: Text, entities: seq<RawEntity>, n: string) {
    exists i :: 0 <= i < |entities| && norm(entities[i].name) == norm(n) != ""
  }

  /** Every non-blank normalized name is that of the first bearer of some ID. */
  predicate NamesKept(norm: Text, entities: seq<RawEntity>) {
    forall i | 0 <= i < |entities| :: norm(entities[i].name) != "" ==> FirstNamed(norm, entities, norm(entities[i].name))
  }

  /** Every relation between named entities resolves exactly when no name is lost to another's ID. */
  lemma {:induction false} AllNamedResolveIff(norm: Text, entities: seq<RawEntity>, t: Tables)
    requires EntTable(norm, entities, |entities|, t.ents) && IsByName(norm, t.ents, t.byName)
    ensures NamesKept(norm, entities) <==>
      forall r: RawRelation :: Named(norm, entities, r.source) && Named(norm, entities, r.target) ==>
        Resolves(norm, t.byName, r)
  {
    hide EntTable, IsByName, FirstNamed;
    forall n
      ensures n in t.byName <==> FirstNamed(norm, entities, n)
    {
      LookupKnowsIff(norm, entities, t, n);
    }
    if !NamesKept(norm, entities) {
      var i :| 0 <= i < |entities| && norm(entities[i].name) != "" && !FirstNamed(norm, entities, norm(entities[i].name));
      var name := entities[i].name;
      var r := RawRelation(name, name, "", "", [], 0.0);
      assert Named(norm, entities, r.source) && Named(norm, entities, r.target) && !Resolves(norm, t.byName, r);
    }
  }

  lemma {:induction false} FirstBearerExists(norm: Text, entities: seq<RawEntity>, i: nat) returns (f: nat)
    requires i < |entities| && norm(entities[i].name) != ""
    ensures f <= i && FirstBearer(norm, entities, f, CanonId(norm, entities[i]))
    decreases i
  {
    var id := CanonId(norm, entities[i]);
    if j :| 0 <= j < i && Bears(norm, entities[j], id) {
      f := FirstBearerExists(norm, entities, j);
    } else {
      f := i;
    }
  }

  /** When IDs determine names no name is lost. */
  lemma {:induction false} AgreeingNamesKept(norm: Text, entities: seq<RawEntity>)
    requires NamesAgree(norm, entities)
    ensures NamesKept(norm, entities)
  {
    forall i | 0 <= i < |entities| && norm(entities[i].name) != ""
      ensures FirstNamed(norm, entities, norm(entities[i].name))
    {
      var f := FirstBearerExists(norm, entities, i);
      assert Meet(norm, entities[f], entities[i]);
    }
  }
}
