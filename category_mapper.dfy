/**
 * CategoryMapper: the two renderings of a category with its parent chain,
 * and the partial update. A category is named by its id in the category
 * table; the renderings read the chain through the table.
 */
module CategoryMapping {
  import opened Wrappers
  import opened JavaStrings
  import opened Categories
  import Requests

  /** A rendered category; `parentCategory` nests the next level. */
  datatype CategoryResponse = CategoryResponse(id: string, name: string, parentCategory: Option<CategoryResponse>)

  /** The categories named by `ids` nested into one response: the first
      outermost, each next one as the parent link of the one before. */
  function Render(store: map<string, Category>, ids: seq<string>): Option<CategoryResponse>
    requires forall i :: 0 <= i < |ids| ==> ids[i] in store
  {
    if ids == [] then None
    else Some(CategoryResponse(store[ids[0]].id, store[ids[0]].name, Render(store, ids[1..])))
  }

  /** The ids of a response, outermost first. */
  function Ids(r: Option<CategoryResponse>): seq<string> {
    match r
    case None => []
    case Some(c) => [c.id] + Ids(c.parentCategory)
  }

  function Reverse<T>(s: seq<T>): seq<T> {
    seq(|s|, i requires 0 <= i < |s| => s[|s| - 1 - i])
  }

  lemma ReverseSnoc<T>(s: seq<T>, x: T)
    ensures Reverse(s + [x]) == [x] + Reverse(s)
  {
    assert forall i :: 0 <= i < |s| + 1 ==> Reverse(s + [x])[i] == ([x] + Reverse(s))[i];
  }

  /** Rendering a list of stored rows keeps their ids, in order. */
  lemma {:induction false} IdsOfRender(store: map<string, Category>, ids: seq<string>)
    requires KeysMatch(store)
    requires forall i :: 0 <= i < |ids| ==> ids[i] in store
    ensures Ids(Render(store, ids)) == ids
    decreases |ids|
  {
    if ids != [] {
      IdsOfRender(store, ids[1..]);
    }
  }

  /** `toResponse`: null for a null category; otherwise the id and name,
      with the parent rendered the same way. The result nests the chain from
      the category up to its root, the category outermost. */
  function ToResponse(store: map<string, Category>, category: Option<string>, ghost height: nat): (r: Option<CategoryResponse>)
    requires category.Some? ==> RootedAt(store, category.value, height)
    ensures category.None? ==> r.None?
    ensures category.Some? ==> r == Render(store, AncestorIds(store, category.value, height))
    ensures category.Some? ==> |Ids(r)| == height + 1
    decreases height
  {
    match category
    case None => None
    case Some(id) =>
      var c := store[id];
      var parent := match c.parentId
        case None => None
        case Some(p) => ToResponse(store, Some(p), height - 1);
      Some(CategoryResponse(c.id, c.name, parent))
  }

  /** `toResponseNotRecursive`: walks up the chain, wrapping the response
      built so far as the parent link of each ancestor, so the root ends up
      outermost and the category innermost. */
  method ToResponseNotRecursive(store: map<string, Category>, category: Option<string>, ghost height: nat)
    returns (r: Option<CategoryResponse>)
    requires category.Some? ==> RootedAt(store, category.value, height)
    ensures category.None? ==> r.None?
    ensures category.Some? ==> r == Render(store, Reverse(AncestorIds(store, category.value, height)))
  {
    if category.None? {
      return None;
    }
    ghost var ids := AncestorIds(store, category.value, height);
    var c := store[category.value];
    var response := CategoryResponse(c.id, c.name, None);
    ghost var i := 0;
    assert ids[..1] == [ids[0]];
    while c.parentId.Some?
      invariant 0 <= i <= height
      invariant c == store[ids[i]]
      invariant Some(response) == Render(store, Reverse(ids[..i + 1]))
      decreases height - i
    {
      AncestorAt(store, category.value, height, i);
      c := store[c.parentId.value];
      ReverseSnoc(ids[..i + 1], ids[i + 1]);
      assert ids[..i + 2] == ids[..i + 1] + [ids[i + 1]];
      i := i + 1;
      response := CategoryResponse(c.id, c.name, Some(response));
    }
    AncestorAt(store, category.value, height, i);
    assert ids[..i + 1] == ids;
    r := Some(response);
  }

  /** The loop renders the chain in the reverse nesting order of the
      recursion, and the two agree only for a category without a parent. */
  lemma RenderingsReversed(store: map<string, Category>, id: string, height: nat)
    requires KeysMatch(store) && RootedAt(store, id, height)
    ensures Ids(Render(store, Reverse(AncestorIds(store, id, height))))
         == Reverse(Ids(Render(store, AncestorIds(store, id, height))))
    ensures Render(store, AncestorIds(store, id, height)) == Render(store, Reverse(AncestorIds(store, id, height)))
        <==> height == 0
  {
    var ids := AncestorIds(store, id, height);
    IdsOfRender(store, ids);
    IdsOfRender(store, Reverse(ids));
    if height == 0 {
      assert Reverse(ids) == ids;
    } else {
      AncestorsDistinct(store, id, height);
      assert Reverse(ids)[0] == ids[height] != ids[0];
    }
  }

  /** A stored category rendered with `toResponse`: NotFound for an id not
      in the table, StackOverflow (the JVM's StackOverflowError) when its
      parent chain never ends. */
  function RenderStored(store: map<string, Category>, id: string): (r: Result<CategoryResponse>)
    ensures id !in store ==> r == Err(NotFound)
    ensures r.Err? ==> r.error == NotFound || r.error == StackOverflow
    ensures r.Ok? ==> exists height :: RootedAt(store, id, height) && Some(r.value) == ToResponse(store, Some(id), height)
    ensures (forall height :: !RootedAt(store, id, height)) && id in store ==> r == Err(StackOverflow)
  {
    if id !in store then Err(NotFound)
    else match ParentHeight(store, id)
      case None => Err(StackOverflow)
      case Some(height) => Ok(ToResponse(store, Some(id), height).value)
  }

  /** Every stored category whose chain ends renders. */
  lemma RenderStoredComplete(store: map<string, Category>, id: string, height: nat)
    requires RootedAt(store, id, height)
    ensures RenderStored(store, id) == Ok(ToResponse(store, Some(id), height).value)
  {
    ParentHeightComplete(store, id, height);
  }

  /** `updateCategory` on a copy of the row: the name is replaced, as given
      and untrimmed, when the request's name is non-blank; the parent is
      replaced when one was resolved. Nothing else changes. */
  function Updated(category: Category, parent: Option<Category>, request: Requests.UpdateCategoryRequest): (r: Category)
    ensures r.id == category.id && r.status == category.status
    ensures request.name.Some? && !IsBlank(request.name.value) ==> r.name == request.name.value
    ensures request.name.None? || IsBlank(request.name.value) ==> r.name == category.name
    ensures parent.Some? ==> r.parentId == Some(parent.value.id)
    ensures parent.None? ==> r.parentId == category.parentId
  {
    var named := if request.name.Some? && Trim(request.name.value) != [] then category.(name := request.name.value) else category;
    if parent.Some? then named.(parentId := Some(parent.value.id)) else named
  }

  /** The setter sequence of `updateCategory`. */
  method UpdateCategory(category: Category, parent: Option<Category>, request: Requests.UpdateCategoryRequest)
    returns (updated: Category)
    ensures updated == Updated(category, parent, request)
  {
    updated := category;
    if request.name.Some? && Trim(request.name.value) != [] {
      updated := updated.(name := request.name.value);
    }
    if parent.Some? {
      updated := updated.(parentId := Some(parent.value.id));
    }
  }

  /** An update never clears a parent and never blanks a non-blank name,
      and applying it twice is applying it once. */
  lemma UpdatedKeepsParentAndName(category: Category, parent: Option<Category>, request: Requests.UpdateCategoryRequest)
    ensures category.parentId.Some? ==> Updated(category, parent, request).parentId.Some?
    ensures !IsBlank(category.name) ==> !IsBlank(Updated(category, parent, request).name)
    ensures Updated(Updated(category, parent, request), parent, request) == Updated(category, parent, request)
  {
  }
}
