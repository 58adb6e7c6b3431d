/**
 * Request records and the bean-validation constraints of CreateCourseRequest
 * as one predicate. A Java `null` is `None`. The update and category request
 * records are given by the fields the service reads from them.
 */
module Requests {
  import opened Wrappers
  import opened JavaStrings
  import Courses

  datatype CreateCourseRequest = CreateCourseRequest(
    title: Option<string>,
    description: Option<string>,
    price: Option<real>,
    categories: Option<set<Option<string>>>)

  datatype UpdateCourseRequest = UpdateCourseRequest(
    title: Option<string>,
    description: Option<string>,
    price: Option<real>,
    categoryIds: Option<set<Option<string>>>)

  /** Its @NotNull on `name` is not enforced: the controller does not ask for validation. */
  datatype CreateCategoryRequest = CreateCategoryRequest(name: Option<string>, parentCategoryId: Option<string>)

  datatype UpdateCategoryRequest = UpdateCategoryRequest(name: Option<string>, parentCategoryId: Option<string>)

  const TITLE_MAX_LENGTH: nat := 150
  const DESCRIPTION_MAX_LENGTH: nat := 2000
  const MIN_CATEGORIES: nat := 1
  const MAX_CATEGORIES: nat := 3

  /** The characters the title pattern `^[^\\/:*?"<>|]+$` excludes. */
  predicate IsForbiddenTitleChar(c: char) {
    c == '\\' || c == '/' || c == ':' || c == '*' || c == '?' || c == '\"' || c == '<' || c == '>' || c == '|'
  }

  /** @Pattern on a non-null title: one or more characters, none forbidden. */
  predicate MatchesTitlePattern(s: string) {
    |s| >= 1 && forall k :: 0 <= k < |s| ==> !IsForbiddenTitleChar(s[k])
  }

  /** @NotBlank: non-null, and something is left after `trim()`. */
  predicate NotBlank(s: Option<string>) {
    s.Some? && !IsBlank(s.value)
  }

  /** @Size(max): a null value passes. */
  predicate SizeAtMost(s: Option<string>, max: nat) {
    s.None? || |s.value| <= max
  }

  predicate ValidTitle(title: Option<string>) {
    (title.None? || MatchesTitlePattern(title.value)) && NotBlank(title) && SizeAtMost(title, TITLE_MAX_LENGTH)
  }

  predicate ValidDescription(description: Option<string>) {
    NotBlank(description) && SizeAtMost(description, DESCRIPTION_MAX_LENGTH)
  }

  /** @NotNull and @DecimalMin("0.0"), which is inclusive. */
  predicate ValidPrice(price: Option<real>) {
    price.Some? && price.value >= 0.0
  }

  /** @NotNull and @Size(min = 1, max = 3); a null member counts as a member. */
  predicate ValidCategories(categories: Option<set<Option<string>>>) {
    categories.Some? && MIN_CATEGORIES <= |categories.value| <= MAX_CATEGORIES
  }

  /** All constraints of CreateCourseRequest. */
  predicate IsValid(r: CreateCourseRequest) {
    ValidTitle(r.title) && ValidDescription(r.description) && ValidPrice(r.price) && ValidCategories(r.categories)
  }

  /** The title constraints read as one condition: present, 1 to 150
      characters, none of the nine forbidden ones, and one of them above
      U+0020. */
  lemma ValidTitleMeans(title: Option<string>)
    ensures ValidTitle(title) <==>
      title.Some? && 1 <= |title.value| <= TITLE_MAX_LENGTH &&
      (forall k :: 0 <= k < |title.value| ==> !IsForbiddenTitleChar(title.value[k])) &&
      (exists k :: 0 <= k < |title.value| && !IsTrimmable(title.value[k]))
  {
  }

  /** A valid request's title fits the title column. */
  lemma ValidTitleFitsColumn(r: CreateCourseRequest)
    requires IsValid(r)
    ensures |r.title.value| <= Courses.TITLE_COLUMN_LENGTH
  {
  }

  /** A request can pass validation with a description longer than the
      1000-character description column. */
  lemma ValidDescriptionMayOverflowColumn() returns (r: CreateCourseRequest)
    ensures IsValid(r)
    ensures |r.description.value| > Courses.DESCRIPTION_COLUMN_LENGTH
  {
    var description := seq(Courses.DESCRIPTION_COLUMN_LENGTH + 1, _ => 'a');
    assert !IsTrimmable(description[0]);
    var title := "Course";
    assert !IsTrimmable(title[0]);
    r := CreateCourseRequest(Some(title), Some(description), Some(0.0), Some({Some("category")}));
  }
}
