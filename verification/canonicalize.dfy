/** Exact-match merging of extractions into one graph with stable IDs. */
module Canonicalize {
  import Orders
  import opened FirstOccurrences
  import opened Strings
  import opened RawGraph

  /** strings.ToLower after strings.TrimSpace, and strings.TrimSpace: any functions on strings. */
  type Text = string -> string

  datatype CanonEntity = CanonEntity(id: string, name: string, kind: string, descs: seq<string>, sources: seq<string>)

  datatype CanonRelation = CanonRelation(id: string, source: string, target: string, relation: string,
                                         description: string, sources: seq<string>, weight: real)

  datatype CanonGraph = CanonGraph(entities: seq<CanonEntity>, relations: seq<CanonRelation>)

  /* ---- Provenance lists ---- */

  /** b appended to a, blanks and repetitions dropped. */
  method UnionStrings(a: seq<string>, b: seq<string>) returns (out: seq<string>)
    ensures out == Firsts("", a + b) && Orders.Distinct(out)
    ensures forall s :: s in out <==> s != "" && (s in a || s in b)
    ensures forall i, j :: 0 <= i < j < |out| ==> OccursFirst(a + b, out[i], out[j])
  {
    hide OccursFirst;
    out := [];
    var seen: set<string> := {};
    var group := a + b;
    for i := 0 to |group|
      invariant out == Firsts("", group[..i]) && forall s :: s in seen <==> s in out
    {
      assert group[..i + 1][..i] == group[..i];
      if group[i] == "" || group[i] in seen {
        continue;
      }
      seen := seen + {group[i]};
      out := out + [group[i]];
    }
    assert group[..|group|] == group;
    forall i, j | 0 <= i < j < |out|
      ensures OccursFirst(group, out[i], out[j])
    {
      FirstsInOrder("", group, i, j);
    }
  }

  /* ---- Sorted lists of strings ---- */

  ghost predicate Ascending(xs: seq<string>) {
    forall i, j :: 0 <= i < j < |xs| ==> Before(xs[i], xs[j])
  }

  /** Insertion into an ascending list, standing for the library's sort. */
  function Insert(x: string, xs: seq<string>): (r: seq<string>)
    requires Ascending(xs) && x !in xs
    ensures Ascending(r) && forall y :: y in r <==> y == x || y in xs
  {
    if xs == [] then [x]
    else if Before(x, xs[0]) then
      assert forall i :: 0 <= i < |xs| ==> Before(x, xs[i]) by {
        forall i | 0 < i < |xs|
          ensures Before(x, xs[i])
        {
          Transitive(x, xs[0], xs[i]);
        }
      }
      [x] + xs
    else
      var tail := Insert(x, xs[1..]);
      Total(x, xs[0]);
      assert xs == [xs[0]] + xs[1..];
      assert forall i :: 0 <= i < |tail| ==> Before(xs[0], tail[i]) by {
        forall i | 0 <= i < |tail|
          ensures Before(xs[0], tail[i])
        {
          assert tail[i] in tail;
        }
      }
      [xs[0]] + tail
  }

  function SortStrings(xs: seq<string>): (r: seq<string>)
    requires Orders.Distinct(xs)
    ensures Ascending(r) && forall y :: y in r <==> y in xs
  {
    if xs == [] then []
    else
      assert xs == [xs[0]] + xs[1..];
      Insert(xs[0], SortStrings(xs[1..]))
  }

  /** Ascending lists with the same elements are equal. */
  lemma {:induction false} AscendingUnique(xs: seq<string>, ys: seq<string>)
    requires Ascending(xs) && Ascending(ys) && forall s :: s in xs <==> s in ys
    ensures xs == ys
  {
    if xs == [] {
      assert forall i :: 0 <= i < |ys| ==> ys[i] in ys;
    } else {
      assert xs[0] in xs;
      assert ys != [];
      assert ys[0] in ys;
      if xs[0] != ys[0] {
        var i :| 0 <= i < |ys| && ys[i] == xs[0];
        var j :| 0 <= j < |xs| && xs[j] == ys[0];
        Asymmetric(xs[0], ys[0]);
      }
      forall s
        ensures s in xs[1..] <==> s in ys[1..]
      {
        Irreflexive(xs[0]);
        assert s in xs <==> s == xs[0] || s in xs[1..];
        assert s in ys <==> s == ys[0] || s in ys[1..];
      }
      AscendingUnique(xs[1..], ys[1..]);
    }
  }

  /* ---- Entities ---- */

  function CanonId(norm: Text, e: RawEntity): string {
    e.kind + ":" + norm(e.name)
  }

  /** e has a name to speak of and the given ID. */
  predicate Bears(norm: Text, e: RawEntity, id: string) {
    norm(e.name) != "" && CanonId(norm, e) == id
  }

  /** What the first n entities contribute to id: its first bearer, and all provenance. */
  ghost predicate IsEntAcc(norm: Text, entities: seq<RawEntity>, n: nat, id: string, acc: CanonEntity)
    requires n <= |entities|
  {
    && acc.id == id && Orders.Distinct(acc.sources)
    && (exists i ::
      0 <= i < n && FirstBearer(norm, entities, i, id) && acc.name == entities[i].name && acc.kind == entities[i].kind)
    && (forall s :: s in acc.sources <==> s != "" && SourceOf(norm, entities, n, id, s))
  }

  predicate FirstBearer(norm: Text, entities: seq<RawEntity>, i: nat, id: string) {
    i < |entities| && Bears(norm, entities[i], id) && forall j :: 0 <= j < i ==> !Bears(norm, entities[j], id)
  }

  ghost predicate SourceOf(norm: Text, entities: seq<RawEntity>, n: nat, id: string, s: string)
    requires n <= |entities|
  {
    exists i :: 0 <= i < n && Bears(norm, entities[i], id) && s in entities[i].sources
  }

  ghost predicate BearsBefore(norm: Text, entities: seq<RawEntity>, n: nat, id: string)
    requires n <= |entities|
  {
    exists i :: 0 <= i < n && Bears(norm, entities[i], id)
  }

  ghost predicate EntTable(norm: Text, entities: seq<RawEntity>, n: nat, accs: map<string, CanonEntity>)
    requires n <= |entities|
  {
    && (forall id :: id in accs <==> BearsBefore(norm, entities, n, id))
    && (forall id :: id in accs ==> IsEntAcc(norm, entities, n, id, accs[id]))
  }

  lemma EntTableSkip(norm: Text, entities: seq<RawEntity>, n: nat, accs: map<string, CanonEntity>)
    requires n < |entities| && EntTable(norm, entities, n, accs) && norm(entities[n].name) == ""
    ensures EntTable(norm, entities, n + 1, accs)
  {
    forall id
      ensures BearsBefore(norm, entities, n + 1, id) <==> BearsBefore(norm, entities, n, id)
      ensures forall s :: SourceOf(norm, entities, n + 1, id, s) <==> SourceOf(norm, entities, n, id, s)
    {
    }
    forall id | id in accs
      ensures IsEntAcc(norm, entities, n + 1, id, accs[id])
    {
      assert IsEntAcc(norm, entities, n, id, accs[id]);
    }
  }

  lemma EntTableStep(norm: Text, entities: seq<RawEntity>, n: nat, accs: map<string, CanonEntity>, acc: CanonEntity)
    requires n < |entities| && EntTable(norm, entities, n, accs) && norm(entities[n].name) != ""
    requires var id, e := CanonId(norm, entities[n]), entities[n];
      && acc.id == id && Orders.Distinct(acc.sources)
      && (if id in accs then acc.name == accs[id].name && acc.kind == accs[id].kind else acc.name == e.name && acc.kind == e.kind)
      && forall s :: s in acc.sources <==> s != "" && ((id in accs && s in accs[id].sources) || s in e.sources)
    ensures EntTable(norm, entities, n + 1, accs[CanonId(norm, entities[n]) := acc])
  {
    var id0 := CanonId(norm, entities[n]);
    var next := accs[id0 := acc];
    forall id
      ensures BearsBefore(norm, entities, n + 1, id) <==> BearsBefore(norm, entities, n, id) || id == id0
    {
      if id == id0 {
        assert Bears(norm, entities[n], id);
      }
    }
    forall id, s
      ensures SourceOf(norm, entities, n + 1, id, s) <==>
        SourceOf(norm, entities, n, id, s) || (id == id0 && s in entities[n].sources)
    {
    }
    forall id | id in next
      ensures IsEntAcc(norm, entities, n + 1, id, next[id])
    {
      if id in accs {
        assert IsEntAcc(norm, entities, n, id, accs[id]);
      } else {
        assert FirstBearer(norm, entities, n, id);
        forall s
          ensures !SourceOf(norm, entities, n, id, s)
        {
        }
      }
    }
  }

  /** The trimmed descriptions of the bearers of id among the first n entities. */
  ghost function DescsOf(norm: Text, trim: Text, entities: seq<RawEntity>, n: nat, id: string): seq<string>
    requires n <= |entities|
  {
    if n == 0 then [] else
      DescsOf(norm, trim, entities, n - 1, id) +
      if Bears(norm, entities[n - 1], id) then [trim(entities[n - 1].description)] else []
  }

  /** Every accumulator holds the first occurrences of its bearers' descriptions that are not blank. */
  ghost predicate DescTable(norm: Text, trim: Text, entities: seq<RawEntity>, n: nat, accs: map<string, CanonEntity>)
    requires n <= |entities|
  {
    forall id :: Described(norm, trim, entities, n, accs, id)
  }

  ghost predicate Described(norm: Text, trim: Text, entities: seq<RawEntity>, n: nat, accs: map<string, CanonEntity>,
                            id: string)
    requires n <= |entities|
  {
    Firsts("", DescsOf(norm, trim, entities, n, id)) == (if id in accs then accs[id].descs else [])
    && (id !in accs ==> DescsOf(norm, trim, entities, n, id) == [])
  }

  lemma FirstsNext(xs: seq<string>, d: string)
    ensures Firsts("", xs + [d]) == if d == "" || d in Firsts("", xs) then Firsts("", xs) else Firsts("", xs) + [d]
  {
    assert (xs + [d])[..|xs + [d]| - 1] == xs;
  }

  lemma DescsNext(norm: Text, trim: Text, entities: seq<RawEntity>, n: nat, id: string)
    requires n < |entities|
    ensures Bears(norm, entities[n], id) ==>
      DescsOf(norm, trim, entities, n + 1, id) == DescsOf(norm, trim, entities, n, id) + [trim(entities[n].description)]
    ensures !Bears(norm, entities[n], id) ==>
      DescsOf(norm, trim, entities, n + 1, id) == DescsOf(norm, trim, entities, n, id)
  {
  }

  lemma DescTableNext(norm: Text, trim: Text, entities: seq<RawEntity>, n: nat, accs: map<string, CanonEntity>,
                      acc: CanonEntity)
    requires n < |entities| && DescTable(norm, trim, entities, n, accs) && norm(entities[n].name) != ""
    requires var id, d := CanonId(norm, entities[n]), trim(entities[n].description);
      var before := if id in accs then accs[id].descs else [];
      acc.descs == if d == "" || d in before then before else before + [d]
    ensures DescTable(norm, trim, entities, n + 1, accs[CanonId(norm, entities[n]) := acc])
  {
    hide Firsts;
    var id0, m := CanonId(norm, entities[n]), n + 1;
    var next := accs[id0 := acc];
    forall id
      ensures Described(norm, trim, entities, m, next, id)
    {
      assert Described(norm, trim, entities, n, accs, id);
      DescsNext(norm, trim, entities, n, id);
      if id == id0 {
        FirstsNext(DescsOf(norm, trim, entities, n, id), trim(entities[n].description));
      }
    }
  }

  lemma DescTableSkip(norm: Text, trim: Text, entities: seq<RawEntity>, n: nat, accs: map<string, CanonEntity>)
    requires n < |entities| && DescTable(norm, trim, entities, n, accs) && norm(entities[n].name) == ""
    ensures DescTable(norm, trim, entities, n + 1, accs)
  {
    hide Firsts;
    var m := n + 1;
    forall id
      ensures Described(norm, trim, entities, m, accs, id)
    {
      assert Described(norm, trim, entities, n, accs, id);
      DescsNext(norm, trim, entities, n, id);
    }
  }

  lemma NoDescs(norm: Text, trim: Text, entities: seq<RawEntity>)
    ensures DescTable(norm, trim, entities, 0, map[])
  {
  }

  method MergeEntities(norm: Text, trim: Text, entities: seq<RawEntity>) returns (accs: map<string, CanonEntity>)
    ensures EntTable(norm, entities, |entities|, accs) && DescTable(norm, trim, entities, |entities|, accs)
  {
    hide IsEntAcc, BearsBefore, EntTable, Orders.Distinct, Bears, DescTable;
    accs := map[];
    NoDescs(norm, trim, entities);
    assert EntTable(norm, entities, 0, accs) by {
      NoEntities(norm, entities);
    }
    for n := 0 to |entities|
      invariant EntTable(norm, entities, n, accs) && DescTable(norm, trim, entities, n, accs)
    {
      var e := entities[n];
      var name := norm(e.name);
      if name == "" {
        EntTableSkip(norm, entities, n, accs);
        DescTableSkip(norm, trim, entities, n, accs);
        continue;
      }
      var id := e.kind + ":" + name;
      AccHasId(norm, entities, n, accs);
      var acc := if id in accs then accs[id] else CanonEntity(id, e.name, e.kind, [], []);
      var d := trim(e.description);
      if d != "" && d !in acc.descs {
        acc := acc.(descs := acc.descs + [d]);
      }
      var sources := UnionStrings(acc.sources, e.sources);
      acc := acc.(sources := sources);
      EntTableStep(norm, entities, n, accs, acc);
      DescTableNext(norm, trim, entities, n, accs, acc);
      accs := accs[id := acc];
    }
  }

  lemma NoEntities(norm: Text, entities: seq<RawEntity>)
    ensures EntTable(norm, entities, 0, map[])
  {
  }

  lemma AccHasId(norm: Text, entities: seq<RawEntity>, n: nat, accs: map<string, CanonEntity>)
    requires n <= |entities| && EntTable(norm, entities, n, accs)
    ensures forall id :: id in accs ==> accs[id].id == id && Orders.Distinct(accs[id].sources)
    ensures forall id :: id in accs ==> "" !in accs[id].sources
  {
    forall id | id in accs
      ensures accs[id].id == id && Orders.Distinct(accs[id].sources) && "" !in accs[id].sources
    {
      assert IsEntAcc(norm, entities, n, id, accs[id]);
    }
  }

  /* ---- Names to IDs ---- */

  /** id is the highest ID among the output entities whose name normalizes to n. */
  ghost predicate IsByName(norm: Text, accs: map<string, CanonEntity>, byName: map<string, string>) {
    && (forall n :: n in byName <==> exists id :: id in accs && norm(accs[id].name) == n)
    && (forall n :: n in byName ==> byName[n] in accs && norm(accs[byName[n]].name) == n)
    && (forall n, id :: n in byName && id in accs && norm(accs[id].name) == n ==> AtMost(id, byName[n]))
  }

  /** Drains the keys of the table in iteration order. */
  method Keys<V>(m: map<string, V>) returns (keys: seq<string>)
    ensures Orders.Distinct(keys) && forall k :: k in keys <==> k in m
  {
    keys := [];
    var todo := m.Keys;
    while todo != {}
      invariant todo <= m.Keys && Orders.Distinct(keys)
      invariant forall k :: k in keys <==> k in m && k !in todo
    {
      var k :| k in todo;
      keys, todo := keys + [k], todo - {k};
    }
  }

  /** byName after the first n IDs: for each name met, the latest of its IDs. */
  ghost predicate NamedTo(norm: Text, accs: map<string, CanonEntity>, ids: seq<string>, n: nat,
                          byName: map<string, string>)
    requires n <= |ids| && forall k :: 0 <= k < |ids| ==> ids[k] in accs
  {
    && (forall k :: 0 <= k < n ==> norm(accs[ids[k]].name) in byName && AtMost(ids[k], byName[norm(accs[ids[k]].name)]))
    && (forall name :: name in byName ==>
      byName[name] in accs && norm(accs[byName[name]].name) == name && byName[name] in ids[..n])
  }

  lemma NamedStep(norm: Text, accs: map<string, CanonEntity>, ids: seq<string>, n: nat, byName: map<string, string>)
    requires n < |ids| && Ascending(ids) && forall k :: 0 <= k < |ids| ==> ids[k] in accs
    requires NamedTo(norm, accs, ids, n, byName)
    ensures NamedTo(norm, accs, ids, n + 1, byName[norm(accs[ids[n]].name) := ids[n]])
  {
    forall k | 0 <= k <= n
      ensures AtMost(ids[k], ids[n])
    {
      Irreflexive(ids[n]);
      if k < n {
        Asymmetric(ids[k], ids[n]);
      }
    }
  }

  lemma NamedAll(norm: Text, accs: map<string, CanonEntity>, ids: seq<string>, byName: map<string, string>)
    requires (forall k :: 0 <= k < |ids| ==> ids[k] in accs) && forall id :: id in accs ==> id in ids
    requires NamedTo(norm, accs, ids, |ids|, byName)
    ensures IsByName(norm, accs, byName)
  {
    forall id | id in accs
      ensures norm(accs[id].name) in byName && AtMost(id, byName[norm(accs[id].name)])
    {
      assert id in ids;
      var k :| 0 <= k < |ids| && ids[k] == id;
    }
  }

  method NamesToIds(norm: Text, accs: map<string, CanonEntity>, ids: seq<string>) returns (byName: map<string, string>)
    requires Ascending(ids) && forall id :: id in ids <==> id in accs
    ensures IsByName(norm, accs, byName)
  {
    hide NamedTo, Ascending;
    forall k | 0 <= k < |ids|
      ensures ids[k] in accs
    {
      assert ids[k] in ids;
    }
    byName := map[];
    assert NamedTo(norm, accs, ids, 0, byName) by {
      NamedNone(norm, accs, ids);
    }
    for n := 0 to |ids|
      invariant NamedTo(norm, accs, ids, n, byName)
    {
      NamedStep(norm, accs, ids, n, byName);
      byName := byName[norm(accs[ids[n]].name) := ids[n]];
    }
    NamedAll(norm, accs, ids, byName);
  }

  lemma NamedNone(norm: Text, accs: map<string, CanonEntity>, ids: seq<string>)
    requires forall k :: 0 <= k < |ids| ==> ids[k] in accs
    ensures NamedTo(norm, accs, ids, 0, map[])
  {
  }

  /* ---- Relations ---- */

  /** Both endpoints name an entity. */
  predicate Resolves(norm: Text, byName: map<string, string>, r: RawRelation) {
    norm(r.source) in byName && norm(r.target) in byName
  }

  function RelationId(norm: Text, byName: map<string, string>, r: RawRelation): string
    requires Resolves(norm, byName, r)
  {
    byName[norm(r.source)] + "::" + r.relation + "::" + byName[norm(r.target)]
  }

  predicate Makes(norm: Text, byName: map<string, string>, r: RawRelation, id: string) {
    Resolves(norm, byName, r) && RelationId(norm, byName, r) == id
  }

  /** Summed weight of the first n relations that make id. */
  ghost function WeightTo(norm: Text, byName: map<string, string>, relations: seq<RawRelation>, n: nat, id: string): real
    requires n <= |relations|
  {
    if n == 0 then 0.0 else
      var w := if Makes(norm, byName, relations[n - 1], id) then relations[n - 1].weight else 0.0;
      WeightTo(norm, byName, relations, n - 1, id) + w
  }

  ghost predicate MadeBefore(norm: Text, byName: map<string, string>, relations: seq<RawRelation>, n: nat, id: string)
    requires n <= |relations|
  {
    exists i :: 0 <= i < n && Makes(norm, byName, relations[i], id)
  }

  ghost predicate RelSource(norm: Text, byName: map<string, string>, relations: seq<RawRelation>, n: nat, id: string,
                            s: string)
    requires n <= |relations|
  {
    exists i :: 0 <= i < n && Makes(norm, byName, relations[i], id) && s in relations[i].sources
  }

  ghost predicate FirstMaker(norm: Text, byName: map<string, string>, relations: seq<RawRelation>, i: nat, id: string) {
    i < |relations| && Makes(norm, byName, relations[i], id) && forall j :: 0 <= j < i ==> !Makes(norm, byName, relations[j], id)
  }

  /** acc carries the endpoints of the ID's first maker, and the weight and provenance of all. */
  ghost predicate IsRelAcc(norm: Text, byName: map<string, string>, relations: seq<RawRelation>, n: nat, id: string,
                           acc: CanonRelation)
    requires n <= |relations|
  {
    && acc.id == id && Orders.Distinct(acc.sources)
    && (exists i :: 0 <= i < n && FirstMaker(norm, byName, relations, i, id)
         && acc.source == byName[norm(relations[i].source)] && acc.target == byName[norm(relations[i].target)]
         && acc.relation == relations[i].relation)
    && acc.weight == WeightTo(norm, byName, relations, n, id)
    && (forall s :: s in acc.sources <==> s != "" && RelSource(norm, byName, relations, n, id, s))
  }

  ghost predicate RelTable(norm: Text, byName: map<string, string>, relations: seq<RawRelation>, n: nat,
                           accs: map<string, CanonRelation>)
    requires n <= |relations|
  {
    && (forall id :: id in accs <==> MadeBefore(norm, byName, relations, n, id))
    && (forall id :: id in accs ==> IsRelAcc(norm, byName, relations, n, id, accs[id]))
  }

  lemma {:induction false} NothingMade(norm: Text, byName: map<string, string>, relations: seq<RawRelation>, n: nat,
                                       id: string)
    requires n <= |relations| && !MadeBefore(norm, byName, relations, n, id)
    ensures WeightTo(norm, byName, relations, n, id) == 0.0
    ensures forall s :: !RelSource(norm, byName, relations, n, id, s)
  {
    if n == 0 {
    } else {
      NothingMade(norm, byName, relations, n - 1, id);
    }
  }

  lemma {:induction false} RelTableSkip(norm: Text, byName: map<string, string>, relations: seq<RawRelation>, n: nat,
                                        accs: map<string, CanonRelation>)
    requires n < |relations| && RelTable(norm, byName, relations, n, accs) && !Resolves(norm, byName, relations[n])
    ensures RelTable(norm, byName, relations, n + 1, accs)
  {
    forall id
      ensures MadeBefore(norm, byName, relations, n + 1, id) <==> MadeBefore(norm, byName, relations, n, id)
      ensures forall s :: RelSource(norm, byName, relations, n + 1, id, s) <==>
        RelSource(norm, byName, relations, n, id, s)
    {
    }
    forall id | id in accs
      ensures IsRelAcc(norm, byName, relations, n + 1, id, accs[id])
    {
      assert IsRelAcc(norm, byName, relations, n, id, accs[id]);
    }
  }

  /** The accumulator of relation n's ID after adding it. */
  ghost predicate IsAdded(norm: Text, byName: map<string, string>, r: RawRelation, accs: map<string, CanonRelation>,
                          acc: CanonRelation)
    requires Resolves(norm, byName, r)
  {
    var id := RelationId(norm, byName, r);
    && acc.id == id && Orders.Distinct(acc.sources)
    && (if id in accs then
          acc.source == accs[id].source && acc.target == accs[id].target && acc.relation == accs[id].relation
        else
          acc.source == byName[norm(r.source)] && acc.target == byName[norm(r.target)] && acc.relation == r.relation)
    && acc.weight == (if id in accs then accs[id].weight else 0.0) + r.weight
    && forall s :: s in acc.sources <==> s != "" && ((id in accs && s in accs[id].sources) || s in r.sources)
  }

  lemma {:induction false} RelTableStep(norm: Text, byName: map<string, string>, relations: seq<RawRelation>, n: nat,
                                        accs: map<string, CanonRelation>, acc: CanonRelation)
    requires n < |relations| && RelTable(norm, byName, relations, n, accs) && Resolves(norm, byName, relations[n])
    requires IsAdded(norm, byName, relations[n], accs, acc)
    ensures RelTable(norm, byName, relations, n + 1, accs[RelationId(norm, byName, relations[n]) := acc])
  {
    var id0 := RelationId(norm, byName, relations[n]);
    var next := accs[id0 := acc];
    forall id
      ensures MadeBefore(norm, byName, relations, n + 1, id) <==> MadeBefore(norm, byName, relations, n, id) || id == id0
    {
      if id == id0 {
        assert Makes(norm, byName, relations[n], id);
      }
    }
    forall id | id in next
      ensures IsRelAcc(norm, byName, relations, n + 1, id, next[id])
    {
      RelAccStep(norm, byName, relations, n, accs, acc, id);
    }
  }

  lemma {:induction false} RelAccStep(norm: Text, byName: map<string, string>, relations: seq<RawRelation>, n: nat,
                                      accs: map<string, CanonRelation>, acc: CanonRelation, id: string)
    requires n < |relations| && RelTable(norm, byName, relations, n, accs) && Resolves(norm, byName, relations[n])
    requires IsAdded(norm, byName, relations[n], accs, acc)
    requires id in accs || id == RelationId(norm, byName, relations[n])
    ensures IsRelAcc(norm, byName, relations, n + 1, id, if id == RelationId(norm, byName, relations[n]) then acc else accs[id])
  {
    var id0 := RelationId(norm, byName, relations[n]);
    forall s
      ensures RelSource(norm, byName, relations, n + 1, id, s) <==>
        RelSource(norm, byName, relations, n, id, s) || (id == id0 && s in relations[n].sources)
    {
    }
    if id in accs {
      assert IsRelAcc(norm, byName, relations, n, id, accs[id]);
    } else {
      NothingMade(norm, byName, relations, n, id);
      assert FirstMaker(norm, byName, relations, n, id);
    }
  }

  /** The trimmed description and the label are those of the first maker. */
  ghost predicate FromFirstMaker(norm: Text, trim: Text, byName: map<string, string>, relations: seq<RawRelation>,
                                 n: nat, id: string, acc: CanonRelation)
    requires n <= |relations|
  {
    exists i :: 0 <= i < n && FirstMaker(norm, byName, relations, i, id) &&
      acc.description == trim(relations[i].description) && acc.relation == relations[i].relation
  }

  ghost predicate RelDescTable(norm: Text, trim: Text, byName: map<string, string>, relations: seq<RawRelation>, n: nat,
                               accs: map<string, CanonRelation>)
    requires n <= |relations|
  {
    forall id :: id in accs ==> FromFirstMaker(norm, trim, byName, relations, n, id, accs[id])
  }

  lemma RelDescNext(norm: Text, trim: Text, byName: map<string, string>, relations: seq<RawRelation>, n: nat,
                    accs: map<string, CanonRelation>, acc: CanonRelation)
    requires n < |relations| && RelTable(norm, byName, relations, n, accs) && Resolves(norm, byName, relations[n])
    requires RelDescTable(norm, trim, byName, relations, n, accs)
    requires var id, r := RelationId(norm, byName, relations[n]), relations[n];
      if id in accs then acc.description == accs[id].description && acc.relation == accs[id].relation
      else acc.description == trim(r.description) && acc.relation == r.relation
    ensures RelDescTable(norm, trim, byName, relations, n + 1, accs[RelationId(norm, byName, relations[n]) := acc])
  {
    hide IsRelAcc, RelationId, Resolves;
    var id0 := RelationId(norm, byName, relations[n]);
    forall id | id in accs
      ensures FromFirstMaker(norm, trim, byName, relations, n + 1, id, accs[id])
    {
      assert FromFirstMaker(norm, trim, byName, relations, n, id, accs[id]);
    }
    if id0 !in accs {
      assert !MadeBefore(norm, byName, relations, n, id0);
      assert FirstMaker(norm, byName, relations, n, id0);
    }
  }

  lemma RelDescSkip(norm: Text, trim: Text, byName: map<string, string>, relations: seq<RawRelation>, n: nat,
                    accs: map<string, CanonRelation>)
    requires n < |relations| && RelDescTable(norm, trim, byName, relations, n, accs)
    ensures RelDescTable(norm, trim, byName, relations, n + 1, accs)
  {
    hide FirstMaker;
    forall id | id in accs
      ensures FromFirstMaker(norm, trim, byName, relations, n + 1, id, accs[id])
    {
      assert FromFirstMaker(norm, trim, byName, relations, n, id, accs[id]);
    }
  }

  lemma NoRelDescs(norm: Text, trim: Text, byName: map<string, string>, relations: seq<RawRelation>)
    ensures RelDescTable(norm, trim, byName, relations, 0, map[])
  {
  }

  method MergeRelations(norm: Text, trim: Text, byName: map<string, string>, relations: seq<RawRelation>)
    returns (accs: map<string, CanonRelation>)
    ensures RelTable(norm, byName, relations, |relations|, accs)
    ensures RelDescTable(norm, trim, byName, relations, |relations|, accs)
  {
    hide IsRelAcc, MadeBefore, RelTable, RelDescTable, Orders.Distinct;
    accs := map[];
    NoRelDescs(norm, trim, byName, relations);
    assert RelTable(norm, byName, relations, 0, accs) by {
      NoRelations(norm, byName, relations);
    }
    for n := 0 to |relations|
      invariant RelTable(norm, byName, relations, n, accs) && RelDescTable(norm, trim, byName, relations, n, accs)
    {
      var r := relations[n];
      if norm(r.source) !in byName || norm(r.target) !in byName {
        RelTableSkip(norm, byName, relations, n, accs);
        RelDescSkip(norm, trim, byName, relations, n, accs);
        continue;
      }
      var src, dst := byName[norm(r.source)], byName[norm(r.target)];
      var id := src + "::" + r.relation + "::" + dst;
      RelHasId(norm, byName, relations, n, accs);
      var acc := if id in accs then accs[id] else CanonRelation(id, src, dst, r.relation, trim(r.description), [], 0.0);
      var sources := UnionStrings(acc.sources, r.sources);
      acc := acc.(weight := acc.weight + r.weight, sources := sources);
      RelTableStep(norm, byName, relations, n, accs, acc);
      RelDescNext(norm, trim, byName, relations, n, accs, acc);
      accs := accs[id := acc];
    }
  }

  lemma NoRelations(norm: Text, byName: map<string, string>, relations: seq<RawRelation>)
    ensures RelTable(norm, byName, relations, 0, map[])
  {
  }

  lemma RelHasId(norm: Text, byName: map<string, string>, relations: seq<RawRelation>, n: nat,
                 accs: map<string, CanonRelation>)
    requires n <= |relations| && RelTable(norm, byName, relations, n, accs)
    ensures forall id :: id in accs ==> accs[id].id == id && "" !in accs[id].sources
  {
    forall id | id in accs
      ensures accs[id].id == id && "" !in accs[id].sources
    {
      assert IsRelAcc(norm, byName, relations, n, id, accs[id]);
    }
  }

  /* ---- The merged graph ---- */

  function EntIds(es: seq<CanonEntity>): (ids: seq<string>)
    ensures |ids| == |es| && forall i :: 0 <= i < |es| ==> ids[i] == es[i].id
  {
    seq(|es|, i requires 0 <= i < |es| => es[i].id)
  }

  function RelIds(rs: seq<CanonRelation>): (ids: seq<string>)
    ensures |ids| == |rs| && forall i :: 0 <= i < |rs| ==> ids[i] == rs[i].id
  {
    seq(|rs|, i requires 0 <= i < |rs| => rs[i].id)
  }

  /** es lists the table in ascending ID order, provenance sorted. */
  ghost predicate ListsEntities(es: seq<CanonEntity>, accs: map<string, CanonEntity>) {
    && Ascending(EntIds(es)) && (forall id :: id in EntIds(es) <==> id in accs)
    && (forall i :: 0 <= i < |es| ==> es[i].id in accs && Orders.Distinct(accs[es[i].id].sources))
    && (forall i :: 0 <= i < |es| ==> es[i] == accs[es[i].id].(sources := SortStrings(accs[es[i].id].sources)))
  }

  ghost predicate ListsRelations(rs: seq<CanonRelation>, accs: map<string, CanonRelation>) {
    && Ascending(RelIds(rs)) && (forall id :: id in RelIds(rs) <==> id in accs)
    && (forall i :: 0 <= i < |rs| ==> rs[i].id in accs && Orders.Distinct(accs[rs[i].id].sources))
    && (forall i :: 0 <= i < |rs| ==> rs[i] == accs[rs[i].id].(sources := SortStrings(accs[rs[i].id].sources)))
  }

  datatype Tables = Tables(ents: map<string, CanonEntity>, byName: map<string, string>, rels: map<string, CanonRelation>)

  /** g is the merge of the inputs, by way of the tables t. */
  ghost predicate IsMerge(norm: Text, entities: seq<RawEntity>, relations: seq<RawRelation>, t: Tables, g: CanonGraph) {
    && EntTable(norm, entities, |entities|, t.ents)
    && IsByName(norm, t.ents, t.byName)
    && RelTable(norm, t.byName, relations, |relations|, t.rels)
    && ListsEntities(g.entities, t.ents) && ListsRelations(g.relations, t.rels)
  }

  function ListedEntities(accs: map<string, CanonEntity>, ids: seq<string>): (es: seq<CanonEntity>)
    requires Ascending(ids) && forall id :: id in ids <==> id in accs
    requires forall id :: id in accs ==> accs[id].id == id && Orders.Distinct(accs[id].sources)
    ensures ListsEntities(es, accs)
  {
    var es := seq(|ids|, i requires 0 <= i < |ids| =>
      assert ids[i] in ids; accs[ids[i]].(sources := SortStrings(accs[ids[i]].sources)));
    assert EntIds(es) == ids by {
      assert forall i :: 0 <= i < |ids| ==> ids[i] in ids;
    }
    es
  }

  function ListedRelations(accs: map<string, CanonRelation>, ids: seq<string>): (rs: seq<CanonRelation>)
    requires Ascending(ids) && forall id :: id in ids <==> id in accs
    requires forall id :: id in accs ==> accs[id].id == id && Orders.Distinct(accs[id].sources)
    ensures ListsRelations(rs, accs)
  {
    var rs := seq(|ids|, i requires 0 <= i < |ids| =>
      assert ids[i] in ids; accs[ids[i]].(sources := SortStrings(accs[ids[i]].sources)));
    assert RelIds(rs) == ids by {
      assert forall i :: 0 <= i < |ids| ==> ids[i] in ids;
    }
    rs
  }

  lemma RelDistinct(norm: Text, byName: map<string, string>, relations: seq<RawRelation>,
                    accs: map<string, CanonRelation>)
    requires RelTable(norm, byName, relations, |relations|, accs)
    ensures forall id :: id in accs ==> accs[id].id == id && Orders.Distinct(accs[id].sources)
  {
    forall id | id in accs
      ensures accs[id].id == id && Orders.Distinct(accs[id].sources)
    {
      assert IsRelAcc(norm, byName, relations, |relations|, id, accs[id]);
    }
  }

  method Canonicalize(norm: Text, trim: Text, entities: seq<RawEntity>, relations: seq<RawRelation>)
    returns (g: CanonGraph, ghost t: Tables)
    ensures IsMerge(norm, entities, relations, t, g)
    ensures DescTable(norm, trim, entities, |entities|, t.ents)
    ensures RelDescTable(norm, trim, t.byName, relations, |relations|, t.rels)
  {
    hide DescTable, RelDescTable;
    hide EntTable, RelTable, IsByName, ListsEntities, ListsRelations, ListedEntities, ListedRelations, Orders.Distinct;
    hide Ascending;
    var ents := MergeEntities(norm, trim, entities);
    AccHasId(norm, entities, |entities|, ents);
    var entKeys := Keys(ents);
    var ids := SortStrings(entKeys);
    var byName := NamesToIds(norm, ents, ids);
    var rels := MergeRelations(norm, trim, byName, relations);
    RelDistinct(norm, byName, relations, rels);
    var relKeys := Keys(rels);
    g := CanonGraph(ListedEntities(ents, ids), ListedRelations(rels, SortStrings(relKeys)));
    t := Tables(ents, byName, rels);
  }

  /* ---- Conservation of weight, and valid endpoints ---- */

  ghost function TotalOut(rs: seq<CanonRelation>): real {
    if rs == [] then 0.0 else TotalOut(rs[..|rs| - 1]) + rs[|rs| - 1].weight
  }

  /** Weight of the first n inputs whose two endpoints resolve. */
  ghost function TotalIn(norm: Text, byName: map<string, string>, relations: seq<RawRelation>, n: nat): real
    requires n <= |relations|
  {
    if n == 0 then 0.0 else
      TotalIn(norm, byName, relations, n - 1) + if Resolves(norm, byName, relations[n - 1]) then relations[n - 1].weight else 0.0
  }

  ghost function SumOver(norm: Text, byName: map<string, string>, relations: seq<RawRelation>, n: nat, ids: seq<string>): real
    requires n <= |relations|
  {
    if ids == [] then 0.0
    else SumOver(norm, byName, relations, n, ids[..|ids| - 1]) + WeightTo(norm, byName, relations, n, ids[|ids| - 1])
  }

  lemma {:induction false} SumOverStep(norm: Text, byName: map<string, string>, relations: seq<RawRelation>, n: nat,
                                       ids: seq<string>)
    requires n < |relations| && Orders.Distinct(ids)
    ensures SumOver(norm, byName, relations, n + 1, ids) == SumOver(norm, byName, relations, n, ids)
      + if Resolves(norm, byName, relations[n]) && RelationId(norm, byName, relations[n]) in ids then relations[n].weight else 0.0
  {
    hide RelationId, Resolves;
    if ids == [] {
    } else {
      var init, last := ids[..|ids| - 1], ids[|ids| - 1];
      SumOverStep(norm, byName, relations, n, init);
      assert ids == init + [last] && last !in init;
    }
  }

  lemma {:induction false} SumOverNone(norm: Text, byName: map<string, string>, relations: seq<RawRelation>,
                                       ids: seq<string>)
    ensures SumOver(norm, byName, relations, 0, ids) == 0.0
  {
    if ids == [] {
    } else {
      SumOverNone(norm, byName, relations, ids[..|ids| - 1]);
    }
  }

  lemma {:induction false} SumOverAll(norm: Text, byName: map<string, string>, relations: seq<RawRelation>, n: nat,
                                      ids: seq<string>)
    requires n <= |relations| && Orders.Distinct(ids)
    requires forall i :: 0 <= i < |relations| && Resolves(norm, byName, relations[i]) ==>
      RelationId(norm, byName, relations[i]) in ids
    ensures SumOver(norm, byName, relations, n, ids) == TotalIn(norm, byName, relations, n)
  {
    hide RelationId, Resolves;
    if n == 0 {
      SumOverNone(norm, byName, relations, ids);
    } else {
      SumOverAll(norm, byName, relations, n - 1, ids);
      SumOverStep(norm, byName, relations, n - 1, ids);
    }
  }

  lemma {:induction false} TotalIsSum(norm: Text, byName: map<string, string>, relations: seq<RawRelation>,
                                      rs: seq<CanonRelation>)
    requires forall i :: 0 <= i < |rs| ==> rs[i].weight == WeightTo(norm, byName, relations, |relations|, rs[i].id)
    ensures TotalOut(rs) == SumOver(norm, byName, relations, |relations|, RelIds(rs))
  {
    if rs == [] {
    } else {
      TotalIsSum(norm, byName, relations, rs[..|rs| - 1]);
      assert RelIds(rs)[..|rs| - 1] == RelIds(rs[..|rs| - 1]);
    }
  }

  lemma AscendingDistinct(ids: seq<string>)
    requires Ascending(ids)
    ensures Orders.Distinct(ids)
  {
    forall i, j | 0 <= i < j < |ids|
      ensures ids[i] != ids[j]
    {
      Asymmetric(ids[i], ids[j]);
    }
  }

  /** Output weights sum to the weights of exactly the inputs whose two endpoints resolve. */
  lemma {:induction false} WeightConserved(norm: Text, entities: seq<RawEntity>, relations: seq<RawRelation>, t: Tables,
                                           g: CanonGraph)
    requires IsMerge(norm, entities, relations, t, g)
    ensures TotalOut(g.relations) == TotalIn(norm, t.byName, relations, |relations|)
  {
    hide EntTable, IsByName, ListsEntities, Ascending, Orders.Distinct, RelationId;
    var ids := RelIds(g.relations);
    AscendingDistinct(ids);
    forall i | 0 <= i < |g.relations|
      ensures g.relations[i].weight == WeightTo(norm, t.byName, relations, |relations|, g.relations[i].id)
    {
      assert IsRelAcc(norm, t.byName, relations, |relations|, g.relations[i].id, t.rels[g.relations[i].id]);
    }
    forall i | 0 <= i < |relations| && Resolves(norm, t.byName, relations[i])
      ensures RelationId(norm, t.byName, relations[i]) in ids
    {
      assert Makes(norm, t.byName, relations[i], RelationId(norm, t.byName, relations[i]));
    }
    TotalIsSum(norm, t.byName, relations, g.relations);
    SumOverAll(norm, t.byName, relations, |relations|, ids);
  }

  /** Every output endpoint is an output entity ID. */
  lemma {:induction false} EndpointsExist(norm: Text, entities: seq<RawEntity>, relations: seq<RawRelation>, t: Tables,
                                          g: CanonGraph, i: nat)
    requires IsMerge(norm, entities, relations, t, g) && i < |g.relations|
    ensures g.relations[i].source in EntIds(g.entities) && g.relations[i].target in EntIds(g.entities)
  {
    hide EntTable, Ascending, Orders.Distinct, RelationId;
    assert IsRelAcc(norm, t.byName, relations, |relations|, g.relations[i].id, t.rels[g.relations[i].id]);
  }
}
