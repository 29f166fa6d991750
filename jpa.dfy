/**
 * A Spring Data JPA table with a generated identity column, as the two controllers use it: a
 * finite map from id to row and the next value of the identity sequence.
 */
module Jpa {
  import opened Wrappers

  /** The row `save` stored and returned, with the table and identity counter afterwards. */
  datatype Saved<T> = Saved(row: T, rows: map<int, T>, nextId: int)

  /**
   * `repository.save(entity)`, where `id` is the entity's id and `withFreshId` the entity with
   * its id set to `nextId`. An entity without an id is inserted under the next identity value;
   * one whose id names a row replaces that row; one whose id names no row is inserted as a new
   * row, again under the next identity value.
   */
  function SaveRow<T>(rows: map<int, T>, nextId: int, entity: T, id: Option<int>, withFreshId: T): (s: Saved<T>)
    ensures id.Some? && id.value in rows ==>
              s.row == entity && s.rows == rows[id.value := entity] && s.nextId == nextId
    ensures !(id.Some? && id.value in rows) ==>
              s.row == withFreshId && s.rows == rows[nextId := withFreshId] && s.nextId == nextId + 1
  {
    if id.Some? && id.value in rows then Saved(entity, rows[id.value := entity], nextId)
    else Saved(withFreshId, rows[nextId := withFreshId], nextId + 1)
  }
}
