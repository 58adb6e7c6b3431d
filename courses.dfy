/**
 * The Course entity (a row of the COURSES table, with its links in the
 * course_categories join table) and its builder defaults.
 */
module Courses {
  import opened Wrappers
  import Ratings

  datatype CourseStatus = PENDING | PUBLISHED | DELETED

  /** Column lengths declared on the entity. */
  const TITLE_COLUMN_LENGTH: nat := 150
  const DESCRIPTION_COLUMN_LENGTH: nat := 1000

  /** The id and creation time of a built course that has not been saved yet:
      the database generates the id and stamps the creation time on save. */
  const UNSAVED_ID: string := ""
  const UNSAVED_TIME: int := 0

  /**
   * A course row. `price` is a decimal, `rating` a mean, `ratingCount` a
   * count; `createdAt` is a timestamp in seconds. A category link is the id
   * of a category, or `None` for a null member of the category set.
   */
  datatype Course = Course(
    id: string,
    title: string,
    description: string,
    instructorId: string,
    price: real,
    status: CourseStatus,
    createdAt: int,
    rating: real,
    ratingCount: int,
    categories: set<Option<string>>)

  function RatingOf(c: Course): Ratings.RatingState {
    Ratings.RatingState(c.rating, c.ratingCount)
  }

  /** `Course.builder()...build()`: the fields given are copied, and the
      defaulted ones start as PENDING, an unrated (0.0, 0) pair and an empty
      category set unless one is supplied. */
  function Build(title: string, description: string, instructorId: string, price: real,
                 categories: Option<set<Option<string>>>): (c: Course)
    ensures c.status == PENDING
    ensures c.rating == 0.0 && c.ratingCount == 0
    ensures Ratings.Consistent(RatingOf(c))
    ensures c.categories == (if categories.Some? then categories.value else {})
    ensures c.title == title && c.description == description
    ensures c.instructorId == instructorId && c.price == price
  {
    Course(UNSAVED_ID, title, description, instructorId, price, PENDING, UNSAVED_TIME, 0.0, 0,
           if categories.Some? then categories.value else {})
  }

  /** The row fits the declared column lengths (the database refuses it otherwise). */
  predicate FitsColumns(c: Course) {
    |c.title| <= TITLE_COLUMN_LENGTH && |c.description| <= DESCRIPTION_COLUMN_LENGTH
  }
}
