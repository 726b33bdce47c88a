/** Entities and relations as extracted: endpoints are still names. */
module RawGraph {

  datatype RawEntity = RawEntity(name: string, kind: string, description: string, sources: seq<string>)

  datatype RawRelation = RawRelation(source: string, target: string, relation: string, description: string,
                                     sources: seq<string>, weight: real)
}
