/** The knowledge graph: entities, relations and detected communities. */
module Graphs {
  import opened Ids
  import opened Options

  datatype Entity = Entity(id: Id, name: string, kind: string, description: string, sources: seq<Id>)

  datatype Relation = Relation(id: Id, source: Id, target: Id, relation: string, description: string,
                               sources: seq<Id>, weight: real)

  datatype Graph = Graph(entities: seq<Entity>, relations: seq<Relation>)

  /** The identifier "L<level>-<lowest member>", which determines both parts. */
  datatype CommunityId = CommunityId(level: nat, lowest: Id)

  datatype Community = Community(id: CommunityId, level: nat, parent: Option<CommunityId>,
                                 entityIds: seq<Id>, relationIds: seq<Id>)

  function EntityIds(g: Graph): (ids: seq<Id>)
    ensures |ids| == |g.entities|
    ensures forall i :: 0 <= i < |ids| ==> ids[i] == g.entities[i].id
  {
    seq(|g.entities|, i requires 0 <= i < |g.entities| => g.entities[i].id)
  }

  function EntitySet(g: Graph): set<Id> {
    set x | x in EntityIds(g)
  }

  /** A relation without a positive weight counts as one. */
  function EdgeWeight(r: Relation): (w: real)
    ensures w > 0.0 && (r.weight > 0.0 ==> w == r.weight) && (r.weight <= 0.0 ==> w == 1.0)
  {
    if r.weight > 0.0 then r.weight else 1.0
  }
}
