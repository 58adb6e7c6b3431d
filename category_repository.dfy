/**
 * The queries of CategoryRepository as filters over the category table.
 */
module CategoryQueries {
  import opened Wrappers
  import opened Categories

  /** `findByIdAndStatus(id, status)`: the row with that id, if it has
      exactly that status. */
  function FindByIdAndStatus(store: map<string, Category>, id: string, status: CategoryStatus): Option<Category> {
    if id in store && store[id].status == status then Some(store[id]) else None
  }

  /** `findAllByStatus(status)`. */
  function FindAllByStatus(store: map<string, Category>, status: CategoryStatus): set<Category> {
    set c | c in store.Values && c.status == status
  }

  /** A found category has the status asked for, is listed under it, and an
      id is found under one status at most. */
  lemma FoundByIdAndStatus(store: map<string, Category>, id: string, status: CategoryStatus, other: CategoryStatus)
    requires FindByIdAndStatus(store, id, status).Some?
    ensures FindByIdAndStatus(store, id, status).value.status == status
    ensures FindByIdAndStatus(store, id, status).value in FindAllByStatus(store, status)
    ensures other != status ==> FindByIdAndStatus(store, id, other).None?
  {
  }

  /** The status queries split the table. */
  lemma CategoryStatusPartition(store: map<string, Category>)
    ensures FindAllByStatus(store, INACTIVE) + FindAllByStatus(store, ACTIVE) + FindAllByStatus(store, DELETED) == store.Values
    ensures FindAllByStatus(store, INACTIVE) !! FindAllByStatus(store, ACTIVE)
    ensures FindAllByStatus(store, INACTIVE) !! FindAllByStatus(store, DELETED)
    ensures FindAllByStatus(store, ACTIVE) !! FindAllByStatus(store, DELETED)
  {
  }
}
