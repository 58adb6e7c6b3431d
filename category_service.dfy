/**
 * CategoryService: lookups, creation, update and the status machine
 * INACTIVE -> ACTIVE -> INACTIVE | DELETED over the category table.
 */
module CategoryServices {
  import opened Wrappers
  import opened Categories
  import CategoryQueries
  import opened CategoryMapping
  import Requests

  /** `findByIdAndStatus(id, status)`: a null id yields null without a
      lookup; otherwise the row with that id and exactly that status, or
      NotFound. */
  function FindByIdAndStatus(store: map<string, Category>, id: Option<string>, status: CategoryStatus): (r: Result<Option<Category>>)
    ensures id.None? ==> r == Ok(None)
    ensures id.Some? ==> (r.Ok? <==> id.value in store && store[id.value].status == status)
    ensures id.Some? && r.Ok? ==> r.value == Some(store[id.value]) && r.value.value.status == status
    ensures r.Err? ==> r.error == NotFound
  {
    match id
    case None => Ok(None)
    case Some(k) =>
      match CategoryQueries.FindByIdAndStatus(store, k, status)
      case None => Err(NotFound)
      case Some(c) => Ok(Some(c))
  }

  /** The three status-changing operations. */
  datatype StatusChange = Activate | Deactivate | Delete

  /** The status each operation looks the category up with. */
  function Required(op: StatusChange): CategoryStatus {
    match op
    case Activate => INACTIVE
    case Deactivate => ACTIVE
    case Delete => ACTIVE
  }

  /** The status each operation sets. */
  function Target(op: StatusChange): CategoryStatus {
    match op
    case Activate => ACTIVE
    case Deactivate => INACTIVE
    case Delete => DELETED
  }

  /** The new status, or `None` where the lookup raises NotFound. */
  function Transition(op: StatusChange, s: CategoryStatus): (r: Option<CategoryStatus>)
    ensures r.Some? ==> r.value != s
  {
    if s == Required(op) then Some(Target(op)) else None
  }

  /** No operation applies to a DELETED category; DELETE applies only to an
      ACTIVE one; activating twice fails the second time; deactivating an
      INACTIVE category fails at the lookup. */
  lemma TransitionFacts(op: StatusChange, s: CategoryStatus)
    ensures Transition(op, DELETED).None?
    ensures Transition(Delete, s).Some? <==> s == ACTIVE
    ensures Transition(Activate, s).Some? ==> Transition(Activate, Transition(Activate, s).value).None?
    ensures Transition(Deactivate, INACTIVE).None?
  {
  }

  /** The renderings of the categories named by `ids`; StackOverflow if
      any chain never ends. */
  function RenderAll(store: map<string, Category>, ids: set<string>): (r: Result<set<CategoryResponse>>)
    requires ids <= store.Keys
    ensures r.Ok? <==> forall id :: id in ids ==> RenderStored(store, id).Ok?
    ensures r.Ok? ==> forall resp :: resp in r.value <==> exists id :: id in ids && RenderStored(store, id) == Ok(resp)
    ensures r.Err? ==> r.error == StackOverflow
  {
    if forall id :: id in ids ==> RenderStored(store, id).Ok? then
      Ok(set id | id in ids :: RenderStored(store, id).value)
    else
      Err(StackOverflow)
  }

  /** Making a category its own parent is accepted, and its rendering then
      overflows the stack. */
  lemma SelfParentUpdateOverflows(store: map<string, Category>, id: string, request: Requests.UpdateCategoryRequest)
    requires KeysMatch(store) && id in store && store[id].status == ACTIVE
    requires request.parentCategoryId == Some(id)
    ensures FindByIdAndStatus(store, request.parentCategoryId, ACTIVE) == Ok(Some(store[id]))
    ensures RenderStored(store[id := Updated(store[id], Some(store[id]), request)], id) == Err(StackOverflow)
  {
    var updated := store[id := Updated(store[id], Some(store[id]), request)];
    assert updated[id].parentId == Some(id);
    forall height: nat
      ensures !RootedAt(updated, id, height)
    {
      SelfParentNeverRooted(updated, id, height);
    }
  }

  class CategoryService {
    /** The category table. */
    var categories: map<string, Category>

    ghost predicate Valid()
      reads this
    {
      KeysMatch(categories) && ParentsPresent(categories) &&
      forall k :: k in categories ==> NameFitsColumn(categories[k])
    }

    constructor()
      ensures Valid() && categories == map[]
    {
      categories := map[];
    }

    /** `getActiveCategoryById`: the rendering of an ACTIVE category. */
    function GetActiveCategoryById(id: Option<string>): (r: Result<Option<CategoryResponse>>)
      reads this
      ensures id.None? ==> r == Ok(None)
      ensures id.Some? && !(id.value in categories && categories[id.value].status == ACTIVE) ==> r == Err(NotFound)
      ensures id.Some? && id.value in categories && categories[id.value].status == ACTIVE ==>
        (r.Ok? <==> RenderStored(categories, id.value).Ok?) &&
        (r.Ok? ==> r.value == Some(RenderStored(categories, id.value).value)) &&
        (r.Err? ==> r.error == StackOverflow)
    {
      match FindByIdAndStatus(categories, id, ACTIVE)
      case Err(e) => Err(e)
      case Ok(None) => Ok(None)
      case Ok(Some(c)) =>
        match RenderStored(categories, id.value)
        case Err(e) => Err(e)
        case Ok(resp) => Ok(Some(resp))
    }

    /** `getAllActiveCategories`: every ACTIVE category rendered. */
    function GetAllActiveCategories(): (r: Result<set<CategoryResponse>>)
      reads this
      ensures r.Ok? <==> forall id :: id in categories && categories[id].status == ACTIVE ==> RenderStored(categories, id).Ok?
      ensures r.Ok? ==> forall resp :: resp in r.value <==>
        exists id :: id in categories && categories[id].status == ACTIVE && RenderStored(categories, id) == Ok(resp)
      ensures r.Ok? ==> forall id :: id in categories && categories[id].status == ACTIVE ==>
        RenderStored(categories, id).Ok? && RenderStored(categories, id).value in r.value
      ensures r.Err? ==> r.error == StackOverflow
    {
      RenderAll(categories, set id | id in categories && categories[id].status == ACTIVE)
    }

    /** `createCategory`: the parent is resolved as ACTIVE (NotFound
        otherwise), a row named as requested with default status INACTIVE is
        saved under the generated id `newId`, and the saved row is rendered.
        The request is not validated, so a null name fails at the NOT NULL
        column and a name longer than the column is refused at save. */
    method CreateCategory(request: Requests.CreateCategoryRequest, newId: string) returns (r: Result<CategoryResponse>)
      requires Valid() && newId !in categories
      modifies this
      ensures Valid()
      ensures FindByIdAndStatus(old(categories), request.parentCategoryId, ACTIVE).Err? ==>
        r == Err(NotFound) && categories == old(categories)
      ensures FindByIdAndStatus(old(categories), request.parentCategoryId, ACTIVE).Ok? && request.name.None? ==>
        r == Err(DataIntegrityViolation) && categories == old(categories)
      ensures FindByIdAndStatus(old(categories), request.parentCategoryId, ACTIVE).Ok? && request.name.Some? &&
              |request.name.value| > NAME_COLUMN_LENGTH ==>
        r == Err(DataIntegrityViolation) && categories == old(categories)
      ensures FindByIdAndStatus(old(categories), request.parentCategoryId, ACTIVE).Ok? && request.name.Some? &&
              |request.name.value| <= NAME_COLUMN_LENGTH ==>
        categories == old(categories)[newId := Build(request.name.value, FindByIdAndStatus(old(categories), request.parentCategoryId, ACTIVE).value).(id := newId)] &&
        r == RenderStored(categories, newId)
    {
      var parent := FindByIdAndStatus(categories, request.parentCategoryId, ACTIVE);
      if parent.Err? {
        return Err(parent.error);
      }
      if request.name.None? {
        return Err(DataIntegrityViolation);
      }
      var category := Build(request.name.value, parent.value);
      if !NameFitsColumn(category) {
        return Err(DataIntegrityViolation);
      }
      var saved := category.(id := newId);
      categories := categories[newId := saved];
      r := RenderStored(categories, newId);
    }

    /** `updateCategory`: the category and the given parent must both be
        ACTIVE (NotFound otherwise); the mapper's update is saved, unless its
        name is longer than the column, and the row rendered. The parent may
        be the category itself. */
    method UpdateCategory(id: string, request: Requests.UpdateCategoryRequest) returns (r: Result<CategoryResponse>)
      requires Valid()
      modifies this
      ensures Valid()
      ensures FindByIdAndStatus(old(categories), Some(id), ACTIVE).Err? ||
              FindByIdAndStatus(old(categories), request.parentCategoryId, ACTIVE).Err? ==>
        r == Err(NotFound) && categories == old(categories)
      ensures FindByIdAndStatus(old(categories), Some(id), ACTIVE).Ok? &&
              FindByIdAndStatus(old(categories), request.parentCategoryId, ACTIVE).Ok? &&
              !NameFitsColumn(Updated(old(categories)[id], FindByIdAndStatus(old(categories), request.parentCategoryId, ACTIVE).value, request)) ==>
        r == Err(DataIntegrityViolation) && categories == old(categories)
      ensures FindByIdAndStatus(old(categories), Some(id), ACTIVE).Ok? &&
              FindByIdAndStatus(old(categories), request.parentCategoryId, ACTIVE).Ok? &&
              NameFitsColumn(Updated(old(categories)[id], FindByIdAndStatus(old(categories), request.parentCategoryId, ACTIVE).value, request)) ==>
        categories == old(categories)[id := Updated(old(categories)[id], FindByIdAndStatus(old(categories), request.parentCategoryId, ACTIVE).value, request)] &&
        r == RenderStored(categories, id)
    {
      var category := FindByIdAndStatus(categories, Some(id), ACTIVE);
      if category.Err? {
        return Err(category.error);
      }
      var parent := FindByIdAndStatus(categories, request.parentCategoryId, ACTIVE);
      if parent.Err? {
        return Err(parent.error);
      }
      var updated := CategoryMapping.UpdateCategory(category.value.value, parent.value, request);
      if !NameFitsColumn(updated) {
        return Err(DataIntegrityViolation);
      }
      categories := categories[id := updated];
      r := RenderStored(categories, id);
    }

    /** `activateCategory`: INACTIVE -> ACTIVE, NotFound otherwise. */
    method ActivateCategory(id: string) returns (r: Outcome)
      requires Valid()
      modifies this
      ensures Valid()
      ensures r.Pass? <==> id in old(categories) && Transition(Activate, old(categories)[id].status).Some?
      ensures r.Pass? ==> categories == old(categories)[id := old(categories)[id].(status := Transition(Activate, old(categories)[id].status).value)]
      ensures r.Fail? ==> r.error == NotFound && categories == old(categories)
    {
      var category := FindByIdAndStatus(categories, Some(id), INACTIVE);
      if category.Err? {
        return Fail(category.error);
      }
      var c := category.value.value;
      categories := categories[id := c.(status := ACTIVE)];
      r := Pass;
    }

    /** `deActivateCategory`: ACTIVE -> INACTIVE, NotFound otherwise. The
        lookup already demands ACTIVE, so its "already inactive" branch is
        dead. */
    method DeActivateCategory(id: string) returns (r: Outcome)
      requires Valid()
      modifies this
      ensures Valid()
      ensures r.Pass? <==> id in old(categories) && Transition(Deactivate, old(categories)[id].status).Some?
      ensures r.Pass? ==> categories == old(categories)[id := old(categories)[id].(status := Transition(Deactivate, old(categories)[id].status).value)]
      ensures r.Fail? ==> r.error == NotFound && categories == old(categories)
    {
      var category := FindByIdAndStatus(categories, Some(id), ACTIVE);
      if category.Err? {
        return Fail(category.error);
      }
      var c := category.value.value;
      if c.status == ACTIVE {
        categories := categories[id := c.(status := INACTIVE)];
      } else {
        assert false;
      }
      r := Pass;
    }

    /** `deleteCategory`: ACTIVE -> DELETED, NotFound otherwise. */
    method DeleteCategory(id: string) returns (r: Outcome)
      requires Valid()
      modifies this
      ensures Valid()
      ensures r.Pass? <==> id in old(categories) && Transition(Delete, old(categories)[id].status).Some?
      ensures r.Pass? ==> categories == old(categories)[id := old(categories)[id].(status := Transition(Delete, old(categories)[id].status).value)]
      ensures r.Fail? ==> r.error == NotFound && categories == old(categories)
    {
      var category := FindByIdAndStatus(categories, Some(id), ACTIVE);
      if category.Err? {
        return Fail(category.error);
      }
      var c := category.value.value;
      categories := categories[id := c.(status := DELETED)];
      r := Pass;
    }
  }
}
