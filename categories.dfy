/**
 * The Category entity (a row of the categories table) and the parent chains
 * its `parent_id` column forms. The entity allows any parent, itself
 * included, so a chain need not end: `RootedAt` says that it does, and
 * `ParentHeight` decides it.
 */
module Categories {
  import opened Wrappers

  datatype CategoryStatus = INACTIVE | ACTIVE | DELETED

  /** The id of a built category that has not been saved yet. */
  const UNSAVED_ID: string := ""

  /** A category row; `parentId` is the optional parent reference. The
      inverse `courses` list is derived from the course links and not stored. */
  datatype Category = Category(id: string, name: string, status: CategoryStatus, parentId: Option<string>)

  /** `Category.builder().name(..).parentCategory(..).build()`: status defaults
      to INACTIVE and the parent reference is the given parent's id, if any. */
  function Build(name: string, parent: Option<Category>): (c: Category)
    ensures c.status == INACTIVE
    ensures c.name == name
    ensures c.parentId == (if parent.Some? then Some(parent.value.id) else None)
  {
    Category(UNSAVED_ID, name, INACTIVE, if parent.Some? then Some(parent.value.id) else None)
  }

  /** The length of the `name` column: no length is given, so JPA's default. */
  const NAME_COLUMN_LENGTH: nat := 255

  /** The row's name fits its column; the database refuses a longer one. */
  predicate NameFitsColumn(c: Category) {
    |c.name| <= NAME_COLUMN_LENGTH
  }

  /** Every row is stored under its own id (the primary key). */
  predicate KeysMatch(store: map<string, Category>) {
    forall k :: k in store ==> store[k].id == k
  }

  /** Every parent reference names a stored row (the parent_id foreign key). */
  predicate ParentsPresent(store: map<string, Category>) {
    forall k :: k in store && store[k].parentId.Some? ==> store[k].parentId.value in store
  }

  /** Following parents from `id` through `store` reaches, after exactly
      `height` steps, a category without a parent. */
  predicate RootedAt(store: map<string, Category>, id: string, height: nat)
    decreases height
  {
    id in store &&
    match store[id].parentId
    case None => height == 0
    case Some(p) => height > 0 && RootedAt(store, p, height - 1)
  }

  /** The ids on the chain from `id` up to its root, `id` first. */
  ghost function AncestorIds(store: map<string, Category>, id: string, height: nat): (ids: seq<string>)
    requires RootedAt(store, id, height)
    ensures |ids| == height + 1 && ids[0] == id
    ensures forall i :: 0 <= i < |ids| ==> ids[i] in store
    decreases height
  {
    match store[id].parentId
    case None => [id]
    case Some(p) => [id] + AncestorIds(store, p, height - 1)
  }

  /** A chain ends in at most one way. */
  lemma {:induction false} HeightUnique(store: map<string, Category>, id: string, h1: nat, h2: nat)
    requires RootedAt(store, id, h1) && RootedAt(store, id, h2)
    ensures h1 == h2
    decreases h1
  {
    match store[id].parentId
    case None =>
    case Some(p) => HeightUnique(store, p, h1 - 1, h2 - 1);
  }

  /** The i-th ancestor is rooted `height - i` steps below the root, and
      links to the next one (or is the root). */
  lemma {:induction false} AncestorAt(store: map<string, Category>, id: string, height: nat, i: nat)
    requires RootedAt(store, id, height)
    requires i <= height
    ensures RootedAt(store, AncestorIds(store, id, height)[i], height - i)
    ensures i < height ==> store[AncestorIds(store, id, height)[i]].parentId == Some(AncestorIds(store, id, height)[i + 1])
    ensures i == height ==> store[AncestorIds(store, id, height)[i]].parentId.None?
    decreases i
  {
    match store[id].parentId
    case None =>
    case Some(p) =>
      if i > 0 {
        AncestorAt(store, p, height - 1, i - 1);
      } else {
        assert AncestorIds(store, p, height - 1)[0] == p;
      }
  }

  /** A chain that ends visits no category twice. */
  lemma AncestorsDistinct(store: map<string, Category>, id: string, height: nat)
    requires RootedAt(store, id, height)
    ensures forall i, j :: 0 <= i < j <= height ==>
      AncestorIds(store, id, height)[i] != AncestorIds(store, id, height)[j]
  {
    var ids := AncestorIds(store, id, height);
    forall i, j | 0 <= i < j <= height
      ensures ids[i] != ids[j]
    {
      AncestorAt(store, id, height, i);
      AncestorAt(store, id, height, j);
      if ids[i] == ids[j] {
        HeightUnique(store, ids[i], height - i, height - j);
      }
    }
  }

  /** A category that is its own parent has a chain that never ends. */
  lemma {:induction false} SelfParentNeverRooted(store: map<string, Category>, id: string, height: nat)
    requires id in store && store[id].parentId == Some(id)
    ensures !RootedAt(store, id, height)
    decreases height
  {
    if height > 0 {
      SelfParentNeverRooted(store, id, height - 1);
    }
  }

  /** Walks up from `id`, refusing a parent already in `visited` or missing
      from the table; yields the number of steps to the root. */
  function Climb(store: map<string, Category>, id: string, visited: set<string>): (r: Option<nat>)
    requires id in store
    ensures r.Some? ==> RootedAt(store, id, r.value)
    decreases store.Keys - visited
  {
    match store[id].parentId
    case None => Some(0)
    case Some(p) =>
      if p !in store || p in visited then None
      else
        match Climb(store, p, visited + {p})
        case None => None
        case Some(h) => Some(h + 1)
  }

  /** Along a chain that ends and avoids `visited`, the walk reaches the root. */
  lemma {:induction false} ClimbComplete(store: map<string, Category>, id: string, height: nat, visited: set<string>)
    requires RootedAt(store, id, height)
    requires forall i :: 1 <= i <= height ==> AncestorIds(store, id, height)[i] !in visited
    ensures Climb(store, id, visited) == Some(height)
    decreases height
  {
    match store[id].parentId
    case None =>
    case Some(p) =>
      var ids := AncestorIds(store, id, height);
      var rest := AncestorIds(store, p, height - 1);
      assert rest == ids[1..];
      AncestorsDistinct(store, id, height);
      forall i | 1 <= i <= height - 1
        ensures rest[i] !in visited + {p}
      {
        assert rest[i] == ids[i + 1];
      }
      ClimbComplete(store, p, height - 1, visited + {p});
  }

  /** The length of the parent chain of `id` if it ends, `None` if it runs
      into a cycle (or `id` is not in the table). */
  function ParentHeight(store: map<string, Category>, id: string): (r: Option<nat>)
    ensures r.Some? ==> RootedAt(store, id, r.value)
  {
    if id !in store then None else Climb(store, id, {id})
  }

  /** `ParentHeight` finds every chain that ends. */
  lemma ParentHeightComplete(store: map<string, Category>, id: string, height: nat)
    requires RootedAt(store, id, height)
    ensures ParentHeight(store, id) == Some(height)
  {
    AncestorsDistinct(store, id, height);
    ClimbComplete(store, id, height, {id});
  }
}
