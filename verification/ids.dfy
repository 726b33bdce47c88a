/** Identifiers of entities, relations, chunks and communities. */
module Ids {
  /**
    An identifier is a string of the original, which compares identifiers for equality and
    order only; here it is its place in the order of strings, with "" at zero.
  */
  type Id = int

  const EMPTY_ID: Id := 0
}
