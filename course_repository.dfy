/**
 * The queries of CourseRepository as filters over the course table (a map
 * from id to row). Pages are modelled as the sets of matching rows: paging
 * and sorting are not modelled.
 */
module CourseQueries {
  import opened Wrappers
  import opened JavaStrings
  import opened Courses

  const ALL_STATUSES: set<CourseStatus> := {PENDING, PUBLISHED, DELETED}

  /** `findByIdAndStatusIn(id, statuses)`. */
  function FindByIdAndStatusIn(store: map<string, Course>, id: string, statuses: set<CourseStatus>): Option<Course> {
    if id in store && store[id].status in statuses then Some(store[id]) else None
  }

  /** `existsByIdAndStatusIn(id, statuses)`: the same condition as the finder. */
  function ExistsByIdAndStatusIn(store: map<string, Course>, id: string, statuses: set<CourseStatus>): (b: bool)
    ensures b <==> FindByIdAndStatusIn(store, id, statuses).Some?
    ensures b ==> FindByIdAndStatusIn(store, id, statuses) == Some(store[id])
  {
    id in store && store[id].status in statuses
  }

  /** `findByIdAndStatusNot(id, status)`. */
  function FindByIdAndStatusNot(store: map<string, Course>, id: string, status: CourseStatus): Option<Course> {
    if id in store && store[id].status != status then Some(store[id]) else None
  }

  /** Excluding one status is the same as admitting the other two. */
  lemma StatusNotIsComplement(store: map<string, Course>, id: string, status: CourseStatus)
    ensures FindByIdAndStatusNot(store, id, status) == FindByIdAndStatusIn(store, id, ALL_STATUSES - {status})
  {
  }

  /** `findAllByStatus(status)`. */
  function FindAllByStatus(store: map<string, Course>, status: CourseStatus): set<Course> {
    set c | c in store.Values && c.status == status
  }

  /** The three status queries split the table: together they return every
      course, and no course twice. */
  lemma StatusPartition(store: map<string, Course>)
    ensures FindAllByStatus(store, PENDING) + FindAllByStatus(store, PUBLISHED) + FindAllByStatus(store, DELETED) == store.Values
    ensures FindAllByStatus(store, PENDING) !! FindAllByStatus(store, PUBLISHED)
    ensures FindAllByStatus(store, PENDING) !! FindAllByStatus(store, DELETED)
    ensures FindAllByStatus(store, PUBLISHED) !! FindAllByStatus(store, DELETED)
  {
  }

  /** A course found by id under one status is listed under that status. */
  lemma FoundIsListed(store: map<string, Course>, id: string, status: CourseStatus)
    requires FindByIdAndStatusIn(store, id, {status}).Some?
    ensures FindByIdAndStatusIn(store, id, {status}).value in FindAllByStatus(store, status)
  {
  }

  predicate MatchesKeyword(c: Course, keyword: string) {
    Contains(ToLowerAscii(c.title), ToLowerAscii(keyword)) ||
    Contains(ToLowerAscii(c.description), ToLowerAscii(keyword))
  }

  /** `searchByTitleOrDescription(keyword)`: lower-cased substring match on
      title or description, with no status condition. */
  function SearchByTitleOrDescription(store: map<string, Course>, keyword: string): set<Course> {
    set c | c in store.Values && MatchesKeyword(c, keyword)
  }

  /** The search ignores the case of the keyword. */
  lemma SearchIgnoresKeywordCase(store: map<string, Course>, keyword: string)
    ensures SearchByTitleOrDescription(store, keyword) == SearchByTitleOrDescription(store, ToLowerAscii(keyword))
  {
    LowerIdempotent(keyword);
  }

  /** With an empty keyword every course matches, whatever its status,
      DELETED ones included. */
  lemma SearchEmptyKeywordReturnsAll(store: map<string, Course>)
    ensures SearchByTitleOrDescription(store, []) == store.Values
  {
    forall c | c in store.Values
      ensures MatchesKeyword(c, [])
    {
      ContainsEmpty(ToLowerAscii(c.title));
    }
  }

  predicate LinkedToAny(c: Course, categoryIds: set<string>) {
    exists id :: id in categoryIds && Some(id) in c.categories
  }

  /** `findAllByCategoriesAndStatus(categories, status)`: a join with the
      category links; a null link joins nothing. */
  function FindAllByCategoriesAndStatus(store: map<string, Course>, categoryIds: set<string>, status: CourseStatus): set<Course> {
    set c | c in store.Values && c.status == status && LinkedToAny(c, categoryIds)
  }

  /** Only courses with exactly the given status come back, and asking for
      more categories returns the union of the answers. */
  lemma CategoriesQueryShape(store: map<string, Course>, a: set<string>, b: set<string>, status: CourseStatus)
    ensures FindAllByCategoriesAndStatus(store, a, status) <= FindAllByStatus(store, status)
    ensures FindAllByCategoriesAndStatus(store, a + b, status)
         == FindAllByCategoriesAndStatus(store, a, status) + FindAllByCategoriesAndStatus(store, b, status)
  {
  }

  /** `findAllByRatingGreaterThan(threshold)`: strictly greater, any status. */
  function FindAllByRatingGreaterThan(store: map<string, Course>, threshold: real): set<Course> {
    set c | c in store.Values && c.rating > threshold
  }

  /** A higher threshold returns fewer courses, and a course rated exactly at
      the threshold is not returned. */
  lemma RatingThresholdAntitone(store: map<string, Course>, low: real, high: real)
    requires low <= high
    ensures FindAllByRatingGreaterThan(store, high) <= FindAllByRatingGreaterThan(store, low)
    ensures forall c :: c in FindAllByRatingGreaterThan(store, high) ==> c.rating != high
  {
  }

  /** `findAllByCreatedAtAfter(time)`: strictly after, any status. */
  function FindAllByCreatedAtAfter(store: map<string, Course>, time: int): set<Course> {
    set c | c in store.Values && c.createdAt > time
  }

  /** A later cut-off returns fewer courses. */
  lemma CreatedAfterAntitone(store: map<string, Course>, early: int, late: int)
    requires early <= late
    ensures FindAllByCreatedAtAfter(store, late) <= FindAllByCreatedAtAfter(store, early)
    ensures forall c :: c in FindAllByCreatedAtAfter(store, late) ==> c.createdAt != late
  {
  }

  /** `findAllByInstructorIdEquals(instructorId)`: any status. */
  function FindAllByInstructorIdEquals(store: map<string, Course>, instructorId: string): set<Course> {
    set c | c in store.Values && c.instructorId == instructorId
  }

  /** Changing the status of a course (to DELETED, say) does not take it out
      of, or put it into, its instructor's list. */
  lemma InstructorQueryIgnoresStatus(store: map<string, Course>, id: string, status: CourseStatus, instructorId: string)
    requires id in store
    ensures var changed := store[id].(status := status);
      (store[id] in FindAllByInstructorIdEquals(store, instructorId)) <==>
      (changed in FindAllByInstructorIdEquals(store[id := changed], instructorId))
  {
    var changed := store[id].(status := status);
    assert store[id := changed][id] == changed;
  }
}
