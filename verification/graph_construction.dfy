/** Resolution followed by canonicalization: which relations reach the graph. */
module GraphConstruction {
  import opened RawGraph
  import opened Resolve
  import opened Canonicalize
  import opened CanonicalOrder

  ghost predicate Names(entities: seq<RawEntity>, name: string) {
    exists i :: 0 <= i < |entities| && entities[i].name == name
  }

  lemma RenamedNamed(m: Embedder, threshold: real, norm: Text, entities: seq<RawEntity>, relations: seq<RawRelation>,
                     rewrite: map<string, string>, out: Outcome)
    requires IsResolution(m, threshold, entities, relations, rewrite, out)
    ensures out.Resolved? && |out.entities| == |entities|
    ensures forall i :: 0 <= i < |entities| ==>
      out.entities[i].name == Rename(rewrite, entities[i].name) && out.entities[i].kind == entities[i].kind
    ensures |out.relations| == |relations|
    ensures forall r :: 0 <= r < |relations| ==> out.relations[r] == RenameRelation(rewrite, relations[r])
  {
    hide IsRewrite;
  }

  /** Every resolved name is non-blank and that of the first bearer of some ID. */
  ghost predicate AllReachable(norm: Text, out: seq<RawEntity>) {
    forall i :: 0 <= i < |out| ==> norm(out[i].name) != "" && FirstNamed(norm, out, norm(out[i].name))
  }

  /**
    After resolution every relation whose endpoints exactly name input entities reaches the
    graph, exactly when every resolved name is reachable.
  */
  lemma {:induction false} AllResolvedSurviveIff(m: Embedder, threshold: real, norm: Text,
      entities: seq<RawEntity>, relations: seq<RawRelation>, rewrite: map<string, string>, out: Outcome,
      t: Tables, g: CanonGraph)
    requires IsResolution(m, threshold, entities, relations, rewrite, out)
    requires IsMerge(norm, out.entities, out.relations, t, g)
    ensures AllReachable(norm, out.entities) <==>
      forall r: RawRelation :: Names(entities, r.source) && Names(entities, r.target) ==>
        Resolves(norm, t.byName, RenameRelation(rewrite, r))
    ensures forall r :: 0 <= r < |relations| && Resolves(norm, t.byName, out.relations[r]) ==>
      RelationId(norm, t.byName, out.relations[r]) in RelIds(g.relations)
  {
    hide IsResolution, IsMerge, FirstNamed, Resolves, RelationId;
    RenamedNamed(m, threshold, norm, entities, relations, rewrite, out);
    if AllReachable(norm, out.entities) {
      forall r: RawRelation | Names(entities, r.source) && Names(entities, r.target)
        ensures Resolves(norm, t.byName, RenameRelation(rewrite, r))
      {
        SurvivesIff(norm, out.entities, out.relations, t, g, RenameRelation(rewrite, r));
      }
    } else {
      var i :|
        0 <= i < |entities| &&
        !(norm(out.entities[i].name) != "" && FirstNamed(norm, out.entities, norm(out.entities[i].name)));
      var name := entities[i].name;
      var r := RawRelation(name, name, "", "", [], 0.0);
      SurvivesIff(norm, out.entities, out.relations, t, g, RenameRelation(rewrite, r));
      BlankNeverFirst(norm, out.entities);
      assert Names(entities, r.source) && Names(entities, r.target) && !Resolves(norm, t.byName, RenameRelation(rewrite, r));
    }
    forall r | 0 <= r < |relations| && Resolves(norm, t.byName, out.relations[r])
      ensures RelationId(norm, t.byName, out.relations[r]) in RelIds(g.relations)
    {
      SurvivesIff(norm, out.entities, out.relations, t, g, out.relations[r]);
    }
  }

  lemma BlankNeverFirst(norm: Text, entities: seq<RawEntity>)
    ensures !FirstNamed(norm, entities, "")
  {
  }

  /** Types without a colon make every resolved name reachable that is not blank. */
  lemma {:induction false} PlainTypesReachable(m: Embedder, threshold: real, norm: Text, entities: seq<RawEntity>,
                                               relations: seq<RawRelation>, rewrite: map<string, string>, out: Outcome)
    requires IsResolution(m, threshold, entities, relations, rewrite, out)
    requires forall i :: 0 <= i < |entities| ==>
      ':' !in entities[i].kind && norm(Rename(rewrite, entities[i].name)) != ""
    ensures AllReachable(norm, out.entities)
  {
    hide IsResolution, FirstNamed, NamesAgree;
    RenamedNamed(m, threshold, norm, entities, relations, rewrite, out);
    PlainTypesAgree(norm, out.entities);
    AgreeingNamesKept(norm, out.entities);
  }

  /** With a colon in a type, two entities may share an ID and one name be lost to the lookup. */
  lemma {:induction false} ColonTypeLosesName(norm: Text, entities: seq<RawEntity>, t: Tables)
    requires Fixes(norm, "c") && Fixes(norm, "b:c")
    requires entities == [RawEntity("c", "a:b", "", []), RawEntity("b:c", "a", "", [])]
    requires EntTable(norm, entities, 2, t.ents) && IsByName(norm, t.ents, t.byName)
    ensures Named(norm, entities, "b:c") && "b:c" !in t.byName
  {
    hide EntTable, IsByName;
    assert CanonId(norm, entities[0]) == "a:b:c" == CanonId(norm, entities[1]);
    assert norm(entities[1].name) == "b:c";
    assert Bears(norm, entities[0], CanonId(norm, entities[1]));
    LookupKnowsIff(norm, entities, t, "b:c");
  }
}
