/**
 * CourseService: the course lifecycle PENDING -> PUBLISHED -> DELETED, the
 * owner-or-admin gate in front of every change, partial update, the read
 * queries, and the two rating listeners. The instructor profile fetched
 * from the identity service and the clock are parameters.
 */
module CourseServices {
  import opened Wrappers
  import opened JavaStrings
  import opened Courses
  import opened CourseQueries
  import opened CourseMapping
  import opened Principals
  import Ratings
  import Requests
  import Categories
  import CategoryServices

  const SECONDS_PER_DAY: int := 86400

  /** `validateUserIsCourseOwnerOrAdmin`: an ADMIN authority or being the
      course's instructor passes; anything else is Unauthorized. */
  function ValidateUserIsCourseOwnerOrAdmin(instructorId: string, principal: UserPrincipal): (r: Outcome)
    ensures r.Fail? ==> r.error == Unauthorized
  {
    if ROLE_ADMIN in Authorities(principal) then Pass
    else if instructorId == principal.id then Pass
    else Fail(Unauthorized)
  }

  /** The gate read in terms of the principal: an admin, or the owner. */
  lemma GateMeans(instructorId: string, principal: UserPrincipal)
    ensures ValidateUserIsCourseOwnerOrAdmin(instructorId, principal).Pass? <==>
      principal.role == ROLE_ADMIN || instructorId == principal.id
  {
    AdminAuthorityIffAdminRole(principal);
  }

  /** The ownership test of `isUserOwnerOfCourse`: ids only. */
  predicate OwnsCourse(course: Course, principal: UserPrincipal) {
    course.instructorId == principal.id
  }

  /** An admin passes the gate for a course the ownership test says is not
      theirs; for everyone else the two agree. */
  lemma GateAndOwnershipDiffer(course: Course, principal: UserPrincipal)
    ensures principal.role == ROLE_ADMIN ==> ValidateUserIsCourseOwnerOrAdmin(course.instructorId, principal).Pass?
    ensures principal.role != ROLE_ADMIN ==>
      (ValidateUserIsCourseOwnerOrAdmin(course.instructorId, principal).Pass? <==> OwnsCourse(course, principal))
  {
    GateMeans(course.instructorId, principal);
  }

  /** The operations that look a course up by status. */
  datatype CourseOp = Publish | Delete | Update | AddRating | RemoveRating | ShowOwn

  /** The statuses each operation finds a course in; any other is NotFound. */
  function Admits(op: CourseOp): set<CourseStatus> {
    match op
    case Publish => {PENDING}
    case Delete => {PUBLISHED}
    case Update => {PUBLISHED, PENDING}
    case AddRating => {PUBLISHED}
    case RemoveRating => {PUBLISHED}
    case ShowOwn => {PUBLISHED}
  }

  /** The status an operation leaves. */
  function After(op: CourseOp, s: CourseStatus): CourseStatus {
    match op
    case Publish => PUBLISHED
    case Delete => DELETED
    case _ => s
  }

  function Rank(s: CourseStatus): nat {
    match s
    case PENDING => 0
    case PUBLISHED => 1
    case DELETED => 2
  }

  /** No operation finds a DELETED course, a PENDING one cannot be deleted,
      and the status only moves forward. */
  lemma LifecycleFacts(op: CourseOp, s: CourseStatus)
    ensures DELETED !in Admits(op)
    ensures PENDING !in Admits(Delete)
    ensures s in Admits(op) ==> Rank(s) <= Rank(After(op, s))
    ensures s in Admits(op) && (op == Publish || op == Delete) ==> Rank(s) < Rank(After(op, s))
  {
  }

  /** The requested category ids resolved as ACTIVE categories: a null id
      stays null, any other must name an ACTIVE category (NotFound otherwise). */
  function ResolveCategories(store: map<string, Categories.Category>, ids: set<Option<string>>): (r: Result<set<Option<string>>>)
    ensures r.Ok? <==> forall i :: i in ids ==> CategoryServices.FindByIdAndStatus(store, i, Categories.ACTIVE).Ok?
    ensures r.Err? ==> r.error == NotFound
    ensures r.Ok? && Categories.KeysMatch(store) ==> r.value == ids
  {
    if forall i :: i in ids ==> CategoryServices.FindByIdAndStatus(store, i, Categories.ACTIVE).Ok? then
      Ok(set i | i in ids :: match CategoryServices.FindByIdAndStatus(store, i, Categories.ACTIVE)
                             case Ok(Some(c)) => Some(c.id)
                             case _ => None)
    else
      Err(NotFound)
  }

  /** The course `updateCourse` saves, or the error it raises first: NotFound
      unless PUBLISHED or PENDING, Unauthorized from the gate, NotFound for a
      category id that is not ACTIVE. */
  function UpdateStep(courses: map<string, Course>, store: map<string, Categories.Category>, courseId: string,
                      principal: UserPrincipal, request: Requests.UpdateCourseRequest): (r: Result<Course>)
    ensures FindByIdAndStatusIn(courses, courseId, Admits(Update)).None? ==> r == Err(NotFound)
    ensures (FindByIdAndStatusIn(courses, courseId, Admits(Update)).Some? &&
             ValidateUserIsCourseOwnerOrAdmin(courses[courseId].instructorId, principal).Fail?) ==> r == Err(Unauthorized)
    ensures r.Err? ==> r.error == NotFound || r.error == Unauthorized
    ensures r.Ok? ==> courseId in courses && courses[courseId].status in Admits(Update)
    ensures r.Ok? ==> r.value.status == courses[courseId].status && r.value.id == courses[courseId].id
    ensures r.Ok? ==> RatingOf(r.value) == RatingOf(courses[courseId]) && r.value.instructorId == courses[courseId].instructorId
    ensures r.Ok? && request.categoryIds.None? ==> r.value.categories == courses[courseId].categories
    ensures (FindByIdAndStatusIn(courses, courseId, Admits(Update)).Some? &&
             ValidateUserIsCourseOwnerOrAdmin(courses[courseId].instructorId, principal).Pass? &&
             request.categoryIds.Some? &&
             exists i :: i in request.categoryIds.value && CategoryServices.FindByIdAndStatus(store, i, Categories.ACTIVE).Err?)
            ==> r == Err(NotFound)
    ensures (FindByIdAndStatusIn(courses, courseId, Admits(Update)).Some? &&
             ValidateUserIsCourseOwnerOrAdmin(courses[courseId].instructorId, principal).Pass? &&
             (request.categoryIds.None? ||
              forall i :: i in request.categoryIds.value ==> CategoryServices.FindByIdAndStatus(store, i, Categories.ACTIVE).Ok?))
            ==> r.Ok?
    ensures r.Ok? && request.categoryIds.None? ==> r.value == Patched(courses[courseId], None, request)
    ensures r.Ok? && request.categoryIds.Some? ==>
      r.value == Patched(courses[courseId], Some(ResolveCategories(store, request.categoryIds.value).value), request)
    ensures r.Ok? && Categories.KeysMatch(store) ==> r.value == Patched(courses[courseId], request.categoryIds, request)
  {
    match FindByIdAndStatusIn(courses, courseId, Admits(Update))
    case None => Err(NotFound)
    case Some(course) =>
      if ValidateUserIsCourseOwnerOrAdmin(course.instructorId, principal).Fail? then Err(Unauthorized)
      else if request.categoryIds.None? then Ok(Patched(course, None, request))
      else
        match ResolveCategories(store, request.categoryIds.value)
        case Err(e) => Err(e)
        case Ok(categories) => Ok(Patched(course, Some(categories), request))
  }

  /** The courses `searchCourses` renders: all PUBLISHED ones when the
      keyword has no text, else the keyword search, which ignores status. */
  function SearchSelection(courses: map<string, Course>, keyword: Option<string>): (r: set<Course>)
    ensures keyword.None? || !HasText(keyword.value) ==> forall c :: c in r <==> c in courses.Values && c.status == PUBLISHED
    ensures keyword.Some? && HasText(keyword.value) ==> forall c :: c in r <==> c in courses.Values && MatchesKeyword(c, keyword.value)
  {
    if keyword.None? || !HasText(keyword.value) then FindAllByStatus(courses, PUBLISHED)
    else SearchByTitleOrDescription(courses, keyword.value)
  }

  /** A keyword search can return a DELETED course. */
  lemma SearchMayReturnDeleted() returns (courses: map<string, Course>, keyword: string)
    ensures HasText(keyword)
    ensures exists c :: c in SearchSelection(courses, Some(keyword)) && c.status == DELETED
  {
    var c := Course("c", "Java", "Basics", "i", 0.0, DELETED, 0, 0.0, 0, {});
    courses := map["c" := c];
    keyword := "Java";
    assert !IsWhitespace(keyword[0]);
    assert OccursAt(ToLowerAscii(c.title), ToLowerAscii(keyword), 0);
    assert courses["c"] == c;
  }

  /** An event of the rating service: a course and one rating value, which
      the message may leave null. */
  datatype RatingEvent = RatingEvent(courseId: string, rating: Option<real>)

  class CourseService {
    /** The course table. */
    var courses: map<string, Course>
    const categoryService: CategoryServices.CategoryService
    /** `course.courses.popular.min-rating`, 4.5 unless configured. */
    const minPopularRating: real
    /** `course.courses.recent.days`, 10 unless configured. */
    const recentDays: int

    ghost predicate Valid()
      reads this
    {
      forall id :: id in courses ==>
        courses[id].id == id && Ratings.Consistent(RatingOf(courses[id])) && FitsColumns(courses[id])
    }

    constructor(categoryService: CategoryServices.CategoryService, minPopularRating: real := 4.5, recentDays: int := 10)
      ensures Valid() && courses == map[]
      ensures this.categoryService == categoryService
      ensures this.minPopularRating == minPopularRating && this.recentDays == recentDays
    {
      courses := map[];
      this.categoryService := categoryService;
      this.minPopularRating := minPopularRating;
      this.recentDays := recentDays;
    }

    /** `findCourseByIdAndStatusIn`: the course, or NotFound. */
    function FindCourseByIdAndStatusIn(id: string, statuses: set<CourseStatus>): (r: Result<Course>)
      reads this
      ensures r.Ok? <==> id in courses && courses[id].status in statuses
      ensures r.Ok? ==> r.value == courses[id]
      ensures r.Err? ==> r.error == NotFound
    {
      match FindByIdAndStatusIn(courses, id, statuses)
      case None => Err(NotFound)
      case Some(c) => Ok(c)
    }

    /** `isPublishedCourseExist`: false for an id without text, else whether
        a PUBLISHED course has that id. */
    function IsPublishedCourseExist(courseId: Option<string>): (b: bool)
      reads this
      ensures courseId.None? || !HasText(courseId.value) ==> !b
      ensures courseId.Some? && HasText(courseId.value) ==> (b <==> FindCourseByIdAndStatusIn(courseId.value, {PUBLISHED}).Ok?)
    {
      if courseId.None? || !HasText(courseId.value) then false
      else ExistsByIdAndStatusIn(courses, courseId.value, {PUBLISHED})
    }

    /** `isUserOwnerOfCourse`: for a PUBLISHED or PENDING course, whether the
        principal is its instructor; no admin bypass. */
    function IsUserOwnerOfCourse(courseId: string, principal: UserPrincipal): (r: Result<bool>)
      reads this
      ensures r.Ok? <==> FindCourseByIdAndStatusIn(courseId, {PUBLISHED, PENDING}).Ok?
      ensures r.Ok? ==> (r.value <==> OwnsCourse(courses[courseId], principal))
      ensures r.Err? ==> r.error == NotFound
    {
      match FindCourseByIdAndStatusIn(courseId, {PUBLISHED, PENDING})
      case Err(e) => Err(e)
      case Ok(c) => Ok(c.instructorId == principal.id)
    }

    /** `courseRepository.save` of a row under its id: refused when the title
        or description is longer than its column. */
    method Save(course: Course) returns (r: Outcome)
      requires Valid() && Ratings.Consistent(RatingOf(course))
      modifies this
      ensures Valid()
      ensures r.Pass? <==> FitsColumns(course)
      ensures r.Pass? ==> courses == old(courses)[course.id := course]
      ensures r.Fail? ==> r.error == DataIntegrityViolation && courses == old(courses)
    {
      if !FitsColumns(course) {
        return Fail(DataIntegrityViolation);
      }
      courses := courses[course.id := course];
      r := Pass;
    }

    /** `createCourse`: a request failing validation is rejected before the
        service runs; the category ids are resolved as ACTIVE; the new course
        is saved under the generated id `newId` with creation time `now`, and
        rendered with the caller's profile. */
    method CreateCourse(principal: UserPrincipal, request: Requests.CreateCourseRequest, profile: UserSelfResponse,
                        newId: string, now: int) returns (r: Result<CourseResponse>)
      requires Valid() && newId !in courses
      modifies this
      ensures Valid()
      ensures !Requests.IsValid(request) ==> r == Err(IllegalArgument) && courses == old(courses)
      ensures Requests.IsValid(request) && ResolveCategories(categoryService.categories, request.categories.value).Err? ==>
        r == Err(NotFound) && courses == old(courses)
      ensures Requests.IsValid(request) && ResolveCategories(categoryService.categories, request.categories.value).Ok? ==>
        var c := ToEntity(principal, request, ResolveCategories(categoryService.categories, request.categories.value).value).(id := newId, createdAt := now);
        (FitsColumns(c) ==> courses == old(courses)[newId := c] && r == ToResponse(c, profile, categoryService.categories)) &&
        (!FitsColumns(c) ==> r == Err(DataIntegrityViolation) && courses == old(courses))
    {
      if !Requests.IsValid(request) {
        return Err(IllegalArgument);
      }
      var categories := ResolveCategories(categoryService.categories, request.categories.value);
      if categories.Err? {
        return Err(categories.error);
      }
      var course := ToEntity(principal, request, categories.value);
      var saved := course.(id := newId, createdAt := now);
      var outcome := Save(saved);
      if outcome.Fail? {
        return Err(outcome.error);
      }
      r := ToResponse(saved, profile, categoryService.categories);
    }

    /** `updateCourse`: the course `UpdateStep` yields is saved and rendered. */
    method UpdateCourse(courseId: string, principal: UserPrincipal, request: Requests.UpdateCourseRequest,
                        profile: UserSelfResponse) returns (r: Result<CourseResponse>)
      requires Valid()
      modifies this
      ensures Valid()
      ensures UpdateStep(old(courses), categoryService.categories, courseId, principal, request).Err? ==>
        r == Err(UpdateStep(old(courses), categoryService.categories, courseId, principal, request).error) && courses == old(courses)
      ensures UpdateStep(old(courses), categoryService.categories, courseId, principal, request).Ok? ==>
        var c := UpdateStep(old(courses), categoryService.categories, courseId, principal, request).value;
        (FitsColumns(c) ==> courses == old(courses)[courseId := c] && r == ToResponse(c, profile, categoryService.categories)) &&
        (!FitsColumns(c) ==> r == Err(DataIntegrityViolation) && courses == old(courses))
    {
      var found := FindCourseByIdAndStatusIn(courseId, {PUBLISHED, PENDING});
      if found.Err? {
        return Err(found.error);
      }
      var course := found.value;
      var gate := ValidateUserIsCourseOwnerOrAdmin(course.instructorId, principal);
      if gate.Fail? {
        return Err(gate.error);
      }
      var categories: Option<set<Option<string>>> := None;
      if request.categoryIds.Some? {
        var resolved := ResolveCategories(categoryService.categories, request.categoryIds.value);
        if resolved.Err? {
          return Err(resolved.error);
        }
        categories := Some(resolved.value);
      }
      var updated := CourseMapping.UpdateCourse(course, categories, request);
      var outcome := Save(updated);
      if outcome.Fail? {
        return Err(outcome.error);
      }
      r := ToResponse(updated, profile, categoryService.categories);
    }

    /** `publishCourse`: a PENDING course becomes PUBLISHED. */
    method PublishCourse(id: string, principal: UserPrincipal) returns (r: Outcome)
      requires Valid()
      modifies this
      ensures Valid()
      ensures FindByIdAndStatusIn(old(courses), id, Admits(Publish)).None? ==> r == Fail(NotFound) && courses == old(courses)
      ensures FindByIdAndStatusIn(old(courses), id, Admits(Publish)).Some? &&
              ValidateUserIsCourseOwnerOrAdmin(old(courses)[id].instructorId, principal).Fail? ==>
        r == Fail(Unauthorized) && courses == old(courses)
      ensures r.Pass? <==> FindByIdAndStatusIn(old(courses), id, Admits(Publish)).Some? &&
                           ValidateUserIsCourseOwnerOrAdmin(old(courses)[id].instructorId, principal).Pass?
      ensures r.Pass? ==> courses == old(courses)[id := old(courses)[id].(status := After(Publish, old(courses)[id].status))]
    {
      var found := FindCourseByIdAndStatusIn(id, {PENDING});
      if found.Err? {
        return Fail(found.error);
      }
      var course := found.value;
      r := ValidateUserIsCourseOwnerOrAdmin(course.instructorId, principal);
      if r.Fail? {
        return;
      }
      course := course.(status := PUBLISHED);
      r := Save(course);
    }

    /** `deleteCourse`: a PUBLISHED course becomes DELETED. */
    method DeleteCourse(id: string, principal: UserPrincipal) returns (r: Outcome)
      requires Valid()
      modifies this
      ensures Valid()
      ensures FindByIdAndStatusIn(old(courses), id, Admits(Delete)).None? ==> r == Fail(NotFound) && courses == old(courses)
      ensures FindByIdAndStatusIn(old(courses), id, Admits(Delete)).Some? &&
              ValidateUserIsCourseOwnerOrAdmin(old(courses)[id].instructorId, principal).Fail? ==>
        r == Fail(Unauthorized) && courses == old(courses)
      ensures r.Pass? <==> FindByIdAndStatusIn(old(courses), id, Admits(Delete)).Some? &&
                           ValidateUserIsCourseOwnerOrAdmin(old(courses)[id].instructorId, principal).Pass?
      ensures r.Pass? ==> courses == old(courses)[id := old(courses)[id].(status := After(Delete, old(courses)[id].status))]
    {
      var found := FindCourseByIdAndStatusIn(id, {PUBLISHED});
      if found.Err? {
        return Fail(found.error);
      }
      var course := found.value;
      r := ValidateUserIsCourseOwnerOrAdmin(course.instructorId, principal);
      if r.Fail? {
        return;
      }
      course := course.(status := DELETED);
      r := Save(course);
    }

    /** `getAllPublishedCourses`. */
    function GetAllPublishedCourses(profile: UserSelfResponse): (r: Result<set<CourseResponse>>)
      reads this, categoryService
      ensures r.Ok? <==> forall c :: c in courses.Values && c.status == PUBLISHED ==> ToResponse(c, profile, categoryService.categories).Ok?
      ensures r.Ok? ==> forall resp :: resp in r.value ==>
        exists c :: c in courses.Values && c.status == PUBLISHED && ToResponse(c, profile, categoryService.categories) == Ok(resp)
      ensures r.Ok? ==> forall c :: c in courses.Values && c.status == PUBLISHED ==>
        ToResponse(c, profile, categoryService.categories).value in r.value
    {
      ToResponses(FindAllByStatus(courses, PUBLISHED), profile, categoryService.categories)
    }

    /** `getMyCourses`: every course of the caller, in any status. */
    function GetMyCourses(principal: UserPrincipal, profile: UserSelfResponse): (r: Result<set<CourseResponse>>)
      reads this, categoryService
      ensures r.Ok? <==> forall c :: c in courses.Values && OwnsCourse(c, principal) ==> ToResponse(c, profile, categoryService.categories).Ok?
      ensures r.Ok? ==> forall resp :: resp in r.value ==>
        exists c :: c in courses.Values && OwnsCourse(c, principal) && ToResponse(c, profile, categoryService.categories) == Ok(resp)
      ensures r.Ok? ==> forall c :: c in courses.Values && OwnsCourse(c, principal) ==>
        ToResponse(c, profile, categoryService.categories).value in r.value
    {
      ToResponses(FindAllByInstructorIdEquals(courses, principal.id), profile, categoryService.categories)
    }

    /** `getMyCourseById`: a PUBLISHED course, behind the gate. */
    function GetMyCourseById(id: string, principal: UserPrincipal, profile: UserSelfResponse): (r: Result<CourseResponse>)
      reads this, categoryService
      ensures FindCourseByIdAndStatusIn(id, Admits(ShowOwn)).Err? ==> r == Err(NotFound)
      ensures (FindCourseByIdAndStatusIn(id, Admits(ShowOwn)).Ok? &&
               ValidateUserIsCourseOwnerOrAdmin(courses[id].instructorId, principal).Fail?) ==> r == Err(Unauthorized)
      ensures r.Ok? ==> id in courses && courses[id].status == PUBLISHED &&
                        ValidateUserIsCourseOwnerOrAdmin(courses[id].instructorId, principal).Pass? &&
                        r == ToResponse(courses[id], profile, categoryService.categories)
      ensures (FindCourseByIdAndStatusIn(id, Admits(ShowOwn)).Ok? &&
               ValidateUserIsCourseOwnerOrAdmin(courses[id].instructorId, principal).Pass?) ==>
                r == ToResponse(courses[id], profile, categoryService.categories)
    {
      match FindCourseByIdAndStatusIn(id, {PUBLISHED})
      case Err(e) => Err(e)
      case Ok(c) =>
        match ValidateUserIsCourseOwnerOrAdmin(c.instructorId, principal)
        case Fail(e) => Err(e)
        case Pass => ToResponse(c, profile, categoryService.categories)
    }

    /** `getCoursesByCategory`: the PUBLISHED courses linked to an ACTIVE
        category. */
    function GetCoursesByCategory(categoryId: string, profile: UserSelfResponse): (r: Result<set<CourseResponse>>)
      reads this, categoryService
      ensures CategoryServices.FindByIdAndStatus(categoryService.categories, Some(categoryId), Categories.ACTIVE).Err? ==> r == Err(NotFound)
      ensures CategoryServices.FindByIdAndStatus(categoryService.categories, Some(categoryId), Categories.ACTIVE).Ok? ==>
        (r.Ok? <==> forall c :: c in courses.Values && c.status == PUBLISHED && Some(categoryId) in c.categories ==>
                      ToResponse(c, profile, categoryService.categories).Ok?)
      ensures r.Ok? ==> forall resp :: resp in r.value ==>
        exists c :: c in courses.Values && c.status == PUBLISHED && Some(categoryId) in c.categories &&
                    ToResponse(c, profile, categoryService.categories) == Ok(resp)
      ensures r.Ok? ==> forall c :: c in courses.Values && c.status == PUBLISHED && Some(categoryId) in c.categories ==>
        ToResponse(c, profile, categoryService.categories).value in r.value
    {
      match CategoryServices.FindByIdAndStatus(categoryService.categories, Some(categoryId), Categories.ACTIVE)
      case Err(e) => Err(e)
      case Ok(_) => ToResponses(FindAllByCategoriesAndStatus(courses, {categoryId}, PUBLISHED), profile, categoryService.categories)
    }

    /** `searchCourses`. */
    function SearchCourses(keyword: Option<string>, profile: UserSelfResponse): (r: Result<set<CourseResponse>>)
      reads this, categoryService
      ensures r.Ok? <==> forall c :: c in SearchSelection(courses, keyword) ==> ToResponse(c, profile, categoryService.categories).Ok?
      ensures r.Ok? ==> forall resp :: resp in r.value ==>
        exists c :: c in SearchSelection(courses, keyword) && ToResponse(c, profile, categoryService.categories) == Ok(resp)
      ensures r.Ok? ==> forall c :: c in SearchSelection(courses, keyword) ==>
        ToResponse(c, profile, categoryService.categories).value in r.value
    {
      ToResponses(SearchSelection(courses, keyword), profile, categoryService.categories)
    }

    /** `getPopularCourses`: rated strictly above the configured minimum. */
    function GetPopularCourses(profile: UserSelfResponse): (r: Result<set<CourseResponse>>)
      reads this, categoryService
      ensures r.Ok? <==> forall c :: c in courses.Values && c.rating > minPopularRating ==> ToResponse(c, profile, categoryService.categories).Ok?
      ensures r.Ok? ==> forall resp :: resp in r.value ==>
        exists c :: c in courses.Values && c.rating > minPopularRating && ToResponse(c, profile, categoryService.categories) == Ok(resp)
      ensures r.Ok? ==> forall c :: c in courses.Values && c.rating > minPopularRating ==>
        ToResponse(c, profile, categoryService.categories).value in r.value
    {
      ToResponses(FindAllByRatingGreaterThan(courses, minPopularRating), profile, categoryService.categories)
    }

    /** `getRecentCourses`: created strictly after `recentDays` days before
        `now` (seconds). */
    function GetRecentCourses(now: int, profile: UserSelfResponse): (r: Result<set<CourseResponse>>)
      reads this, categoryService
      ensures r.Ok? <==> forall c :: c in courses.Values && c.createdAt > now - recentDays * SECONDS_PER_DAY ==>
        ToResponse(c, profile, categoryService.categories).Ok?
      ensures r.Ok? ==> forall resp :: resp in r.value ==>
        exists c :: c in courses.Values && c.createdAt > now - recentDays * SECONDS_PER_DAY &&
                    ToResponse(c, profile, categoryService.categories) == Ok(resp)
      ensures r.Ok? ==> forall c :: c in courses.Values && c.createdAt > now - recentDays * SECONDS_PER_DAY ==>
        ToResponse(c, profile, categoryService.categories).value in r.value
    {
      ToResponses(FindAllByCreatedAtAfter(courses, now - recentDays * SECONDS_PER_DAY), profile, categoryService.categories)
    }

    /** `listenAddCourseRating`: a PUBLISHED course takes one more rating
        into its mean; a null rating fails when it is unboxed. */
    method ListenAddCourseRating(event: RatingEvent) returns (r: Outcome)
      requires Valid()
      modifies this
      ensures Valid()
      ensures FindByIdAndStatusIn(old(courses), event.courseId, Admits(AddRating)).None? ==> r == Fail(NotFound) && courses == old(courses)
      ensures FindByIdAndStatusIn(old(courses), event.courseId, Admits(AddRating)).Some? && event.rating.None? ==>
        r == Fail(NullPointer) && courses == old(courses)
      ensures FindByIdAndStatusIn(old(courses), event.courseId, Admits(AddRating)).Some? && event.rating.Some? ==>
        r == Pass &&
        courses == old(courses)[event.courseId := WithRating(old(courses)[event.courseId], Ratings.Add(RatingOf(old(courses)[event.courseId]), event.rating.value))]
    {
      var found := FindCourseByIdAndStatusIn(event.courseId, {PUBLISHED});
      if found.Err? {
        return Fail(found.error);
      }
      if event.rating.None? {
        return Fail(NullPointer);
      }
      var course := found.value;
      var nowAverageRating := (course.rating * course.ratingCount as real + event.rating.value) / (course.ratingCount + 1) as real;
      course := course.(ratingCount := course.ratingCount + 1);
      course := course.(rating := nowAverageRating);
      assert course == WithRating(found.value, Ratings.Add(RatingOf(found.value), event.rating.value));
      r := Save(course);
    }

    /** `listenDeleteCourseRating`: a PUBLISHED course drops one rating from
        its mean; a count of zero is saved unchanged. The rating is unboxed
        only from a count of two on, so only there does a null one fail. */
    method ListenDeleteCourseRating(event: RatingEvent) returns (r: Outcome)
      requires Valid()
      modifies this
      ensures Valid()
      ensures FindByIdAndStatusIn(old(courses), event.courseId, Admits(RemoveRating)).None? ==> r == Fail(NotFound) && courses == old(courses)
      ensures FindByIdAndStatusIn(old(courses), event.courseId, Admits(RemoveRating)).Some? &&
              event.rating.None? && old(courses)[event.courseId].ratingCount >= 2 ==>
        r == Fail(NullPointer) && courses == old(courses)
      ensures FindByIdAndStatusIn(old(courses), event.courseId, Admits(RemoveRating)).Some? && event.rating.Some? ==>
        r == Pass &&
        courses == old(courses)[event.courseId := WithRating(old(courses)[event.courseId], Ratings.Remove(RatingOf(old(courses)[event.courseId]), event.rating.value))]
      ensures FindByIdAndStatusIn(old(courses), event.courseId, Admits(RemoveRating)).Some? &&
              event.rating.None? && old(courses)[event.courseId].ratingCount < 2 ==>
        r == Pass &&
        courses == old(courses)[event.courseId := WithRating(old(courses)[event.courseId], Ratings.Remove(RatingOf(old(courses)[event.courseId]), 0.0))]
    {
      var found := FindCourseByIdAndStatusIn(event.courseId, {PUBLISHED});
      if found.Err? {
        return Fail(found.error);
      }
      var course := found.value;
      if course.ratingCount == 1 {
        course := course.(ratingCount := 0);
        course := course.(rating := 0.0);
      } else if course.ratingCount >= 2 {
        if event.rating.None? {
          return Fail(NullPointer);
        }
        var nowAverageRating := (course.rating * course.ratingCount as real - event.rating.value) / (course.ratingCount - 1) as real;
        course := course.(ratingCount := course.ratingCount - 1);
        course := course.(rating := nowAverageRating);
      }
      assert event.rating.Some? ==> course == WithRating(found.value, Ratings.Remove(RatingOf(found.value), event.rating.value));
      assert event.rating.None? ==> course == WithRating(found.value, Ratings.Remove(RatingOf(found.value), 0.0));
      r := Save(course);
    }
  }

  /** An ADD event followed by a DELETE event with the same value leaves a
      stored course as it was. */
  lemma AddThenDeleteRestoresCourse(course: Course, value: real)
    requires Ratings.Consistent(RatingOf(course))
    ensures var added := WithRating(course, Ratings.Add(RatingOf(course), value));
      WithRating(added, Ratings.Remove(RatingOf(added), value)) == course
  {
    Ratings.AddThenRemove(RatingOf(course), value);
  }
}
