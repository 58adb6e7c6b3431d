/**
 * CourseMapper: building a new course from a validated create request,
 * the partial update from an update request, and the response record.
 */
module CourseMapping {
  import opened Wrappers
  import opened JavaStrings
  import opened Courses
  import opened CategoryMapping
  import Requests
  import Principals
  import Ratings

  /** The instructor profile the identity service returns for the caller.
      The record has two nullable components; their names are not part of
      this model. */
  datatype UserSelfResponse = UserSelfResponse(first: Option<string>, second: Option<string>)

  /** What the circuit breaker's fallback returns when the identity service
      cannot be reached. */
  const FALLBACK_PROFILE: UserSelfResponse := UserSelfResponse(Some("Author info is currently unreachable."), None)

  datatype CourseResponse = CourseResponse(
    id: string,
    title: string,
    description: string,
    instructor: UserSelfResponse,
    price: real,
    categories: set<Option<CategoryResponse>>)

  /** One category link rendered with CategoryMapper.toResponse: a null link
      stays null. */
  function RenderLink(store: map<string, Categories.Category>, link: Option<string>): (r: Result<Option<CategoryResponse>>)
    ensures link.None? ==> r == Ok(None)
    ensures link.Some? ==> (r.Ok? <==> RenderStored(store, link.value).Ok?)
    ensures link.Some? && r.Ok? ==> r.value == Some(RenderStored(store, link.value).value)
  {
    match link
    case None => Ok(None)
    case Some(id) =>
      match RenderStored(store, id)
      case Err(e) => Err(e)
      case Ok(resp) => Ok(Some(resp))
  }

  /** `toResponse`: id, title, description and price copied; the instructor
      is the profile given, whatever the course's instructor id; each link
      rendered. Rendering fails with StackOverflow on a cyclic chain, and with
      NotFound on a link to a missing row (which the foreign key rules out). */
  function ToResponse(course: Course, profile: UserSelfResponse, store: map<string, Categories.Category>): (r: Result<CourseResponse>)
    ensures r.Ok? <==> forall l :: l in course.categories ==> RenderLink(store, l).Ok?
    ensures r.Ok? ==> r.value.id == course.id && r.value.title == course.title &&
                      r.value.description == course.description && r.value.price == course.price
    ensures r.Ok? ==> r.value.instructor == profile
    ensures r.Ok? ==> forall resp :: resp in r.value.categories <==>
      exists l :: l in course.categories && RenderLink(store, l) == Ok(resp)
    ensures r.Err? ==> r.error == NotFound || r.error == StackOverflow
  {
    if forall l :: l in course.categories ==> RenderLink(store, l).Ok? then
      Ok(CourseResponse(course.id, course.title, course.description, profile, course.price,
                        set l | l in course.categories :: RenderLink(store, l).value))
    else if exists l :: l in course.categories && RenderLink(store, l) == Err(NotFound) then
      Err(NotFound)
    else
      Err(StackOverflow)
  }

  /** The response does not depend on the course's instructor id, and a null
      link comes out as a null category. */
  lemma ResponseIgnoresInstructorId(course: Course, instructorId: string, profile: UserSelfResponse, store: map<string, Categories.Category>)
    ensures ToResponse(course.(instructorId := instructorId), profile, store) == ToResponse(course, profile, store)
    ensures None in course.categories && ToResponse(course, profile, store).Ok? ==>
      None in ToResponse(course, profile, store).value.categories
  {
    if None in course.categories && ToResponse(course, profile, store).Ok? {
      assert RenderLink(store, None) == Ok(None);
    }
  }

  /** A page of courses rendered; it fails when any course fails. */
  function ToResponses(courses: set<Course>, profile: UserSelfResponse, store: map<string, Categories.Category>): (r: Result<set<CourseResponse>>)
    ensures r.Ok? <==> forall c :: c in courses ==> ToResponse(c, profile, store).Ok?
    ensures r.Ok? ==> forall resp :: resp in r.value <==> exists c :: c in courses && ToResponse(c, profile, store) == Ok(resp)
  {
    if forall c :: c in courses ==> ToResponse(c, profile, store).Ok? then
      Ok(set c | c in courses :: ToResponse(c, profile, store).value)
    else if exists c :: c in courses && ToResponse(c, profile, store) == Err(NotFound) then
      Err(NotFound)
    else
      Err(StackOverflow)
  }

  /** `toEntity`: a new course of the caller, with the request's title,
      description and price verbatim (untrimmed) and the resolved links. The
      request has passed validation, so its fields are present. */
  function ToEntity(principal: Principals.UserPrincipal, request: Requests.CreateCourseRequest, categories: set<Option<string>>): (c: Course)
    requires request.title.Some? && request.description.Some? && request.price.Some?
    ensures c.instructorId == principal.id
    ensures c.title == request.title.value && c.description == request.description.value && c.price == request.price.value
    ensures c.categories == categories
    ensures c.status == PENDING && c.rating == 0.0 && c.ratingCount == 0
  {
    Build(request.title.value, request.description.value, principal.id, request.price.value, Some(categories))
  }

  /** `updateCourse` on a copy of the row: a non-blank title or description
      replaces the old one trimmed, a present price replaces the old one, a
      non-empty resolved category set replaces the links; nothing else
      changes. */
  function Patched(course: Course, categories: Option<set<Option<string>>>, request: Requests.UpdateCourseRequest): (r: Course)
    ensures r.id == course.id && r.instructorId == course.instructorId && r.status == course.status
    ensures r.createdAt == course.createdAt && r.rating == course.rating && r.ratingCount == course.ratingCount
    ensures request.title.Some? && !IsBlank(request.title.value) ==> r.title == Trim(request.title.value)
    ensures request.title.None? || IsBlank(request.title.value) ==> r.title == course.title
    ensures request.description.Some? && !IsBlank(request.description.value) ==> r.description == Trim(request.description.value)
    ensures request.description.None? || IsBlank(request.description.value) ==> r.description == course.description
    ensures request.price.Some? ==> r.price == request.price.value
    ensures request.price.None? ==> r.price == course.price
    ensures categories.Some? && categories.value != {} ==> r.categories == categories.value
    ensures categories.None? || categories.value == {} ==> r.categories == course.categories
  {
    course.(
      title := if request.title.Some? && Trim(request.title.value) != [] then Trim(request.title.value) else course.title,
      description := if request.description.Some? && Trim(request.description.value) != [] then Trim(request.description.value) else course.description,
      price := if request.price.Some? then request.price.value else course.price,
      categories := if categories.Some? && categories.value != {} then categories.value else course.categories)
  }

  /** The setter sequence of `updateCourse`. */
  method UpdateCourse(course: Course, categories: Option<set<Option<string>>>, request: Requests.UpdateCourseRequest)
    returns (updated: Course)
    ensures updated == Patched(course, categories, request)
  {
    updated := course;
    if request.title.Some? && Trim(request.title.value) != [] {
      updated := updated.(title := Trim(request.title.value));
    }
    if request.description.Some? && Trim(request.description.value) != [] {
      updated := updated.(description := Trim(request.description.value));
    }
    if request.price.Some? {
      updated := updated.(price := request.price.value);
    }
    if categories.Some? && categories.value != {} {
      updated := updated.(categories := categories.value);
    }
  }

  /** Applying the same update twice is applying it once, since trimming is
      idempotent; a replaced title or description is already trimmed. */
  lemma PatchedIdempotent(course: Course, categories: Option<set<Option<string>>>, request: Requests.UpdateCourseRequest)
    ensures Patched(Patched(course, categories, request), categories, request) == Patched(course, categories, request)
    ensures var r := Patched(course, categories, request);
      (r.title != course.title ==> Trim(r.title) == r.title) &&
      (r.description != course.description ==> Trim(r.description) == r.description)
  {
    if request.title.Some? {
      TrimIdempotent(request.title.value);
    }
    if request.description.Some? {
      TrimIdempotent(request.description.value);
    }
  }

  /** The rating fields of a row replaced by a rating state. */
  function WithRating(course: Course, s: Ratings.RatingState): (r: Course)
    ensures RatingOf(r) == s
    ensures r.(rating := course.rating, ratingCount := course.ratingCount) == course
  {
    course.(rating := s.rating, ratingCount := s.count)
  }
}
