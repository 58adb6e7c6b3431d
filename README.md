# Course service: a Dafny model

This project models the core of the course-catalog service of CourseHub.

- **Courses** move through PENDING → PUBLISHED → DELETED. An owner-or-admin gate stands in front of every change. A partial update applies only non-blank fields. Two rating listeners keep a running mean and count.
- **Create-course validation** is one predicate over the request.
- **Categories** move through INACTIVE ⇄ ACTIVE → DELETED. A category renders with its parent chain in two ways: the recursive `toResponse` and the loop `toResponseNotRecursive`.
- **Security**:
  - the access token is taken from a Bearer header (section 2.1 of RFC 6750) or from an `access_token` cookie;
  - claims are checked against the fixed issuer (the `iss` claim, section 4.1.1 of RFC 7519);
  - the role is parsed from its exact enum name;
  - the Feign interceptor forwards the caller's credential.

Shape of the model:

- **Entities.** `Course` and `Category` are datatypes, i.e. table rows. The services are classes whose fields are the tables (`map` from id to row). An in-place setter followed by `save` becomes a map update.
- **Repositories.** The repository queries are filter functions over those maps.
- **Mapper updates.** The mapper's in-place updates are methods from row to row, each specified by a function (`Patched`, `Updated`).
- **Errors.** Every Java exception the core raises is an `Err`/`Fail` value:
  - `NotFoundException` → `NotFound`
  - `UnauthorizedOperationException` → `Unauthorized`
  - a failed `valueOf`, a rejected request or a blank token handed to the JWT library → `IllegalArgument`
  - a null `Double` rating unboxed in arithmetic → `NullPointer`
  - a NOT NULL or column-length violation at save → `DataIntegrityViolation` (course title 150, description 1000, category name 255, JPA's default)
  - the JVM's `StackOverflowError` on a cyclic parent chain → `StackOverflow`
- **Cyclic category chains.** Nothing in the code prevents one: `updateCategory` accepts a category as its own parent (`CategoryServices.SelfParentUpdateOverflows`).
  - `Categories.ParentHeight` decides whether a chain ends.
  - The renderings take the chain's length as a ghost measure.
  - On such a chain the recursive `toResponse` overflows the stack, but the `while` loop of `toResponseNotRecursive` never ends. The loop is modelled only for chains that end (`CategoryMapping.ToResponseNotRecursive` requires `RootedAt`), so its non-termination is not modelled.
- **Description length.** A create request may carry a description of up to 2000 characters, but the description column holds 1000 (`Requests.ValidDescriptionMayOverflowColumn`). Such a request passes validation and then fails at save with `DataIntegrityViolation`.

All source paths below are relative to the repository root.

## Model

| member | source | states |
|---|---|---|
| JavaStrings.Trim | src/main/java/com/coursehub/course_service/mapper/CourseMapper.java:100-106 | `String.trim()`: the result is the middle of the input with characters ≤ U+0020 cut from both ends; it is empty iff the input is blank |
| JavaStrings.TrimIdempotent | src/main/java/com/coursehub/course_service/mapper/CourseMapper.java:100-106 | trimming twice is trimming once |
| JavaStrings.ToLowerAscii | src/main/java/com/coursehub/course_service/repository/CourseRepository.java:24-25 | `LOWER` keeps the length and lower-cases each ASCII letter |
| JavaStrings.LowerIdempotent | src/main/java/com/coursehub/course_service/repository/CourseRepository.java:24-25 | lower-casing twice is lower-casing once |
| JavaStrings.ContainsEmpty | src/main/java/com/coursehub/course_service/repository/CourseRepository.java:24-25 | `LIKE '%%'` matches every string |
| Ratings.Add | src/main/java/com/coursehub/course_service/service/concretes/CourseService.java:255-259 | an ADD raises the count by one and the total (mean × count) by the value; from count 0 the mean is the value; count ≥ 0 with a zero mean at count 0 is preserved |
| Ratings.Remove | src/main/java/com/coursehub/course_service/service/concretes/CourseService.java:273-284 | count 1 resets to exactly (0.0, 0); count ≥ 2 lowers count by one and total by the value; count ≤ 0 is unchanged; the count never goes negative |
| Ratings.SameTotalSameState | src/main/java/com/coursehub/course_service/service/concretes/CourseService.java:255-281 | for a positive count, the count and the total determine the mean |
| Ratings.AddThenRemove | src/main/java/com/coursehub/course_service/service/concretes/CourseService.java:251-287 | ADD(v) then REMOVE(v) restores any consistent state, (0.0, 0) included |
| Ratings.RemoveThenAdd | src/main/java/com/coursehub/course_service/service/concretes/CourseService.java:251-287 | REMOVE(v) then ADD(v) restores a state with count ≥ 2 |
| Ratings.AddKeepsBounds | src/main/java/com/coursehub/course_service/service/concretes/CourseService.java:255-256 | adding a value within [lo, hi] keeps a mean within [lo, hi] |
| Ratings.MeanWithin | src/main/java/com/coursehub/course_service/service/concretes/CourseService.java:255-256 | the arithmetic step behind AddKeepsBounds |
| Ratings.AddAllTotal | src/main/java/com/coursehub/course_service/service/concretes/CourseService.java:251-262 | n ADD events raise the count by n and the total by the sum of the values |
| Ratings.MeanOfAdds | src/main/java/com/coursehub/course_service/service/concretes/CourseService.java:251-262 | from an unrated course, n ADD events leave the arithmetic mean of the values and count n |
| Courses.Build | src/main/java/com/coursehub/course_service/model/Course.java:47-76 | a built course is PENDING, unrated (0.0, 0) and consistent, with an empty category set unless one is given |
| Categories.Build | src/main/java/com/coursehub/course_service/model/Category.java:31-38 | a built category is INACTIVE and refers to the given parent, or to none |
| Categories.AncestorIds | src/main/java/com/coursehub/course_service/model/Category.java:36-38 | a chain that ends after h steps lists h + 1 stored ids, starting at the category |
| Categories.HeightUnique | src/main/java/com/coursehub/course_service/model/Category.java:36-38 | a parent chain ends in at most one way |
| Categories.AncestorAt | src/main/java/com/coursehub/course_service/model/Category.java:36-38 | the i-th ancestor links to the next one, and the last has no parent |
| Categories.AncestorsDistinct | src/main/java/com/coursehub/course_service/model/Category.java:36-38 | a chain that ends visits no category twice |
| Categories.SelfParentNeverRooted | src/main/java/com/coursehub/course_service/model/Category.java:36-38 | a category that is its own parent has a chain that never ends |
| Categories.Climb | src/main/java/com/coursehub/course_service/mapper/CategoryMapper.java:44-53 | a walk up the chain that avoids revisiting ids returns only true chain lengths |
| Categories.ClimbComplete | src/main/java/com/coursehub/course_service/mapper/CategoryMapper.java:44-53 | the walk finds every chain that ends |
| Categories.ParentHeight | src/main/java/com/coursehub/course_service/mapper/CategoryMapper.java:20-32 | a length it returns is the length of the chain |
| Categories.ParentHeightComplete | src/main/java/com/coursehub/course_service/mapper/CategoryMapper.java:20-32 | every chain that ends has its length found |
| CourseQueries.ExistsByIdAndStatusIn | src/main/java/com/coursehub/course_service/repository/CourseRepository.java:57 | `existsByIdAndStatusIn` holds exactly when `findByIdAndStatusIn` finds the course |
| CourseQueries.StatusNotIsComplement | src/main/java/com/coursehub/course_service/repository/CourseRepository.java:55 | `findByIdAndStatusNot(s)` is `findByIdAndStatusIn` of the other two statuses |
| CourseQueries.StatusPartition | src/main/java/com/coursehub/course_service/repository/CourseRepository.java:47 | the three `findAllByStatus` answers are disjoint and cover the table |
| CourseQueries.FoundIsListed | src/main/java/com/coursehub/course_service/repository/CourseRepository.java:45-47 | a course found by id under a status is listed under that status |
| CourseQueries.SearchIgnoresKeywordCase | src/main/java/com/coursehub/course_service/repository/CourseRepository.java:21-30 | the search ignores the keyword's case |
| CourseQueries.SearchEmptyKeywordReturnsAll | src/main/java/com/coursehub/course_service/repository/CourseRepository.java:21-30 | an empty keyword returns every course, whatever its status |
| CourseQueries.CategoriesQueryShape | src/main/java/com/coursehub/course_service/repository/CourseRepository.java:33-43 | only courses with exactly the given status come back; more categories give the union of the answers |
| CourseQueries.RatingThresholdAntitone | src/main/java/com/coursehub/course_service/repository/CourseRepository.java:49 | `>` is strict, and a higher threshold returns fewer courses |
| CourseQueries.CreatedAfterAntitone | src/main/java/com/coursehub/course_service/repository/CourseRepository.java:51 | "after" is strict, and a later cut-off returns fewer courses |
| CourseQueries.InstructorQueryIgnoresStatus | src/main/java/com/coursehub/course_service/repository/CourseRepository.java:53 | a status change, deletion included, does not move a course in or out of its instructor's list |
| CategoryQueries.FoundByIdAndStatus | src/main/java/com/coursehub/course_service/repository/CategoryRepository.java:16-19 | a found category has the status asked for, is listed under it, and is found under no other status |
| CategoryQueries.CategoryStatusPartition | src/main/java/com/coursehub/course_service/repository/CategoryRepository.java:16 | the three `findAllByStatus` answers are disjoint and cover the table |
| Requests.ValidTitleMeans | src/main/java/com/coursehub/course_service/dto/request/CreateCourseRequest.java:9-12 | a valid title is present, 1 to 150 characters long, free of `\ / : * ? " < > \|`, and has a character above U+0020 |
| Requests.ValidTitleFitsColumn | src/main/java/com/coursehub/course_service/dto/request/CreateCourseRequest.java:11 | a valid title fits the 150-character title column |
| Requests.ValidDescriptionMayOverflowColumn | src/main/java/com/coursehub/course_service/dto/request/CreateCourseRequest.java:14-24 | a request passes every constraint with a description longer than the 1000-character column |
| Principals.ValueOf | src/main/java/com/coursehub/course_service/security/UserRole.java:6-11 | `valueOf` yields a role exactly when the name is that role's authority string |
| Principals.ValueOfIsExact | src/main/java/com/coursehub/course_service/security/UserPrincipal.java:28 | another case, the bare role word or a trailing space is rejected |
| Principals.NewPrincipal | src/main/java/com/coursehub/course_service/security/UserPrincipal.java:24-29 | the constructor stores id, username and email as given, leaves the password unset, and fails with IllegalArgument exactly when the role name is not a constant |
| Principals.Authorities | src/main/java/com/coursehub/course_service/security/UserPrincipal.java:31-34 | the authorities are exactly the role, once |
| Principals.AdminAuthorityIffAdminRole | src/main/java/com/coursehub/course_service/security/UserPrincipal.java:31-34 | holding the ADMIN authority is having the ADMIN role |
| JwtTokens.FirstTokenCookie | src/main/java/com/coursehub/course_service/security/JwtService.java:61-70 | the position found carries a non-empty `access_token` value, and no earlier cookie does |
| JwtTokens.ResolveToken | src/main/java/com/coursehub/course_service/security/JwtService.java:51-73 | the loop yields the token the header-then-cookie rule selects |
| JwtTokens.BearerHeaderWins | src/main/java/com/coursehub/course_service/security/JwtService.java:53-57 | a "Bearer " header wins over any cookie, and the token is what follows the 7-character prefix |
| JwtTokens.OtherHeaderIgnored | src/main/java/com/coursehub/course_service/security/JwtService.java:55-59 | a header without the exact prefix is treated as absent |
| JwtTokens.EmptyTokenCookieSkipped | src/main/java/com/coursehub/course_service/security/JwtService.java:63-67 | an `access_token` cookie with an empty value is skipped and the scan goes on |
| JwtTokens.ParseToken | src/main/java/com/coursehub/course_service/security/JwtService.java:75-106 | a token without text is an IllegalArgument error (the library's argument check, not caught as a JwtException); otherwise a principal comes back exactly for an accepted token with the expected issuer, all claims present and a known role, and it has the claims' id, subject, email and role. An unknown role is an IllegalArgument error; everything else is anonymous |
| JwtTokens.ForeignIssuerAnonymous | src/main/java/com/coursehub/course_service/security/JwtService.java:87-97 | a token from another issuer leaves the caller anonymous, unless it is blank and refused first |
| JwtTokens.EmptyBearerEscapes | src/main/java/com/coursehub/course_service/security/JwtService.java:53-78 | the header "Bearer " with nothing after it resolves to the empty token, whatever the cookies, and that token escapes as an IllegalArgument error whatever the parser |
| JwtTokens.VerifyAccessToken | src/main/java/com/coursehub/course_service/security/JwtService.java:40-48 | with no token the caller is anonymous and there is no error; otherwise the token is parsed |
| FeignForwarding.Added | src/main/java/com/coursehub/course_service/config/FeignConfig.java:32-46 | at most one header is added, and it is the Authorization header |
| FeignForwarding.RequestTemplate.Header | src/main/java/com/coursehub/course_service/config/FeignConfig.java:34 | a header is appended |
| FeignForwarding.RequestInterceptor | src/main/java/com/coursehub/course_service/config/FeignConfig.java:25-50 | with no current request nothing is added; otherwise the headers gain exactly the forwarded Authorization value, if any |
| FeignForwarding.BearerForwardedAsRead | src/main/java/com/coursehub/course_service/config/FeignConfig.java:32-35 | a Bearer header is forwarded as the verifier reads it |
| FeignForwarding.OtherHeaderForwarded | src/main/java/com/coursehub/course_service/config/FeignConfig.java:32-35 | a non-Bearer header is forwarded verbatim although the verifier ignores it |
| FeignForwarding.CookieForwardedAsBearer | src/main/java/com/coursehub/course_service/config/FeignConfig.java:36-46 | with no header, the interceptor picks the same cookie as the verifier and sends "Bearer " + its value |
| FeignForwarding.ForwardedCookieRoundTrip | src/main/java/com/coursehub/course_service/config/FeignConfig.java:36-46 | the forwarded cookie credential is read back by the verifier as the same token |
| CategoryMapping.IdsOfRender | src/main/java/com/coursehub/course_service/mapper/CategoryMapper.java:20-32 | rendering stored rows keeps their ids in order |
| CategoryMapping.ToResponse | src/main/java/com/coursehub/course_service/mapper/CategoryMapper.java:20-32 | null gives null; otherwise the result nests the chain from the category up to its root, category outermost, at depth chain length + 1 |
| CategoryMapping.ToResponseNotRecursive | src/main/java/com/coursehub/course_service/mapper/CategoryMapper.java:36-56 | null gives null; otherwise the result nests the same chain root outermost |
| CategoryMapping.ReverseSnoc | src/main/java/com/coursehub/course_service/mapper/CategoryMapper.java:44-53 | wrapping one more ancestor around the reversed prefix |
| CategoryMapping.RenderingsReversed | src/main/java/com/coursehub/course_service/mapper/CategoryMapper.java:20-56 | the loop's flattened ids are the reverse of the recursion's, and the two renderings agree iff the category has no parent |
| CategoryMapping.RenderStored | src/main/java/com/coursehub/course_service/mapper/CategoryMapper.java:20-32 | a missing row gives NotFound, a chain that never ends gives StackOverflow, and anything else renders as ToResponse does |
| CategoryMapping.RenderStoredComplete | src/main/java/com/coursehub/course_service/mapper/CategoryMapper.java:20-32 | every stored category whose chain ends renders |
| CategoryMapping.Updated | src/main/java/com/coursehub/course_service/mapper/CategoryMapper.java:67-76 | a non-blank name replaces the old one untrimmed; a resolved parent replaces the old one; id and status are kept |
| CategoryMapping.UpdateCategory | src/main/java/com/coursehub/course_service/mapper/CategoryMapper.java:67-76 | the setter sequence yields the update above |
| CategoryMapping.UpdatedKeepsParentAndName | src/main/java/com/coursehub/course_service/mapper/CategoryMapper.java:67-76 | an update never clears a parent, never blanks a non-blank name, and is idempotent |
| CategoryServices.FindByIdAndStatus | src/main/java/com/coursehub/course_service/service/concretes/CategoryService.java:52-67 | a null id gives null without a lookup; otherwise the row comes back iff it exists with exactly that status, else NotFound |
| CategoryServices.Transition | src/main/java/com/coursehub/course_service/service/concretes/CategoryService.java:124-160 | a status change always changes the status |
| CategoryServices.TransitionFacts | src/main/java/com/coursehub/course_service/service/concretes/CategoryService.java:124-160 | nothing applies to DELETED; delete needs ACTIVE; activating twice fails; deactivating INACTIVE fails at the lookup |
| CategoryServices.RenderAll | src/main/java/com/coursehub/course_service/service/concretes/CategoryService.java:82-84 | a page renders iff each category renders, and holds exactly their renderings |
| CategoryServices.SelfParentUpdateOverflows | src/main/java/com/coursehub/course_service/service/concretes/CategoryService.java:108-122 | an ACTIVE category is accepted as its own parent, and the saved row then fails to render with StackOverflow |
| CategoryServices.CategoryService.constructor | src/main/java/com/coursehub/course_service/service/concretes/CategoryService.java:27-29 | an empty table is valid |
| CategoryServices.CategoryService.GetActiveCategoryById | src/main/java/com/coursehub/course_service/service/concretes/CategoryService.java:70-76 | NotFound unless ACTIVE; otherwise the rendering, or StackOverflow |
| CategoryServices.CategoryService.GetAllActiveCategories | src/main/java/com/coursehub/course_service/service/concretes/CategoryService.java:78-88 | the page renders iff every ACTIVE category renders (else StackOverflow), and then holds exactly the renderings of the ACTIVE categories |
| CategoryServices.CategoryService.CreateCategory | src/main/java/com/coursehub/course_service/service/concretes/CategoryService.java:91-106 | a parent that is not ACTIVE gives NotFound; a null name or one longer than the 255-character column gives DataIntegrityViolation, changing nothing; otherwise an INACTIVE row with the resolved parent is added under a new id and rendered. Both keys-equal-ids and present parents are kept |
| CategoryServices.CategoryService.UpdateCategory | src/main/java/com/coursehub/course_service/service/concretes/CategoryService.java:108-122 | the target and a given parent must be ACTIVE (NotFound); an updated name longer than the 255-character column gives DataIntegrityViolation; otherwise the mapper's update is saved and rendered; each error changes nothing |
| CategoryServices.CategoryService.ActivateCategory | src/main/java/com/coursehub/course_service/service/concretes/CategoryService.java:124-135 | INACTIVE becomes ACTIVE; anything else is NotFound and changes nothing |
| CategoryServices.CategoryService.DeActivateCategory | src/main/java/com/coursehub/course_service/service/concretes/CategoryService.java:137-149 | ACTIVE becomes INACTIVE; anything else is NotFound; the "already inactive" branch is unreachable |
| CategoryServices.CategoryService.DeleteCategory | src/main/java/com/coursehub/course_service/service/concretes/CategoryService.java:151-160 | ACTIVE becomes DELETED; anything else is NotFound and changes nothing |
| CourseMapping.RenderLink | src/main/java/com/coursehub/course_service/mapper/CourseMapper.java:44-47 | a null link renders as null; any other link renders as its category |
| CourseMapping.ToResponse | src/main/java/com/coursehub/course_service/mapper/CourseMapper.java:37-49 | id, title, description and price are copied; the instructor is the given profile; the categories are exactly the links' renderings; it fails only when a link fails |
| CourseMapping.ResponseIgnoresInstructorId | src/main/java/com/coursehub/course_service/mapper/CourseMapper.java:37-49 | the response does not depend on the course's instructor id, and a null link gives a null category |
| CourseMapping.ToResponses | src/main/java/com/coursehub/course_service/service/concretes/CourseService.java:135-136 | a page renders iff each course does, and holds exactly their responses |
| CourseMapping.ToEntity | src/main/java/com/coursehub/course_service/mapper/CourseMapper.java:65-73 | the new course belongs to the caller, copies title, description and price verbatim, takes the resolved links, and starts PENDING and unrated |
| CourseMapping.Patched | src/main/java/com/coursehub/course_service/mapper/CourseMapper.java:99-115 | a non-blank title or description replaces the old one trimmed; a present price replaces the old one; a non-empty category set replaces the links; id, instructor, status, rating and creation time are kept |
| CourseMapping.UpdateCourse | src/main/java/com/coursehub/course_service/mapper/CourseMapper.java:99-115 | the setter sequence yields the update above |
| CourseMapping.PatchedIdempotent | src/main/java/com/coursehub/course_service/mapper/CourseMapper.java:99-115 | applying the same update twice is applying it once; a replaced title or description is already trimmed |
| CourseMapping.WithRating | src/main/java/com/coursehub/course_service/service/concretes/CourseService.java:255-281 | only the rating fields change |
| CourseServices.ValidateUserIsCourseOwnerOrAdmin | src/main/java/com/coursehub/course_service/service/concretes/CourseService.java:298-305 | a failing gate is Unauthorized |
| CourseServices.GateMeans | src/main/java/com/coursehub/course_service/service/concretes/CourseService.java:298-305 | the gate passes iff the caller is an admin or the course's instructor |
| CourseServices.GateAndOwnershipDiffer | src/main/java/com/coursehub/course_service/service/concretes/CourseService.java:290-305 | an admin passes the gate whatever `isUserOwnerOfCourse` says; for others the two agree |
| CourseServices.LifecycleFacts | src/main/java/com/coursehub/course_service/service/concretes/CourseService.java:83-126 | no operation finds a DELETED course; a PENDING one cannot be deleted; the status only moves forward |
| CourseServices.ResolveCategories | src/main/java/com/coursehub/course_service/service/concretes/CourseService.java:71-97 | resolution succeeds iff every non-null id names an ACTIVE category (else NotFound), and it returns the requested ids, null included |
| CourseServices.UpdateStep | src/main/java/com/coursehub/course_service/service/concretes/CourseService.java:83-105 | NotFound unless PUBLISHED or PENDING; Unauthorized from the gate; then NotFound iff a sent category id is not ACTIVE, else success. The result is the mapper's update of the stored course with the resolved ids (none when `categoryIds` is null; exactly the sent ids when the category table's keys are its ids), so status, id, instructor and rating are kept |
| CourseServices.SearchSelection | src/main/java/com/coursehub/course_service/service/concretes/CourseService.java:176-190 | a keyword without text selects the PUBLISHED courses; one with text selects the keyword matches in any status |
| CourseServices.SearchMayReturnDeleted | src/main/java/com/coursehub/course_service/service/concretes/CourseService.java:187-189 | a keyword search can return a DELETED course |
| CourseServices.AddThenDeleteRestoresCourse | src/main/java/com/coursehub/course_service/service/concretes/CourseService.java:251-287 | an ADD event followed by a DELETE event with the same value leaves a stored course as it was |
| CourseServices.CourseService.constructor | src/main/java/com/coursehub/course_service/service/concretes/CourseService.java:53-63 | the configured minimum rating and day count are kept; defaults 4.5 and 10 |
| CourseServices.CourseService.FindCourseByIdAndStatusIn | src/main/java/com/coursehub/course_service/service/concretes/CourseService.java:233-237 | the course iff it exists with one of the statuses, else NotFound |
| CourseServices.CourseService.IsPublishedCourseExist | src/main/java/com/coursehub/course_service/service/concretes/CourseService.java:240-244 | false for an id without text; otherwise whether a PUBLISHED course has that id |
| CourseServices.CourseService.IsUserOwnerOfCourse | src/main/java/com/coursehub/course_service/service/concretes/CourseService.java:290-296 | for a PUBLISHED or PENDING course, whether the caller is its instructor; NotFound otherwise |
| CourseServices.CourseService.Save | src/main/java/com/coursehub/course_service/model/Course.java:35-39 | a row longer than its columns is refused with DataIntegrityViolation; otherwise it is stored under its id |
| CourseServices.CourseService.CreateCourse | src/main/java/com/coursehub/course_service/service/concretes/CourseService.java:66-80 | an invalid request gives IllegalArgument and a category that is not ACTIVE gives NotFound, both changing nothing; otherwise the caller's new PENDING course is saved (or refused by the columns) and rendered |
| CourseServices.CourseService.UpdateCourse | src/main/java/com/coursehub/course_service/service/concretes/CourseService.java:83-105 | the errors of UpdateStep change nothing; otherwise its course is saved (or refused by the columns) and rendered |
| CourseServices.CourseService.PublishCourse | src/main/java/com/coursehub/course_service/service/concretes/CourseService.java:108-116 | succeeds iff the course is PENDING and the gate passes, and then only its status changes, to PUBLISHED; NotFound or Unauthorized change nothing |
| CourseServices.CourseService.DeleteCourse | src/main/java/com/coursehub/course_service/service/concretes/CourseService.java:118-126 | succeeds iff the course is PUBLISHED and the gate passes, and then only its status changes, to DELETED; NotFound or Unauthorized change nothing |
| CourseServices.CourseService.GetAllPublishedCourses | src/main/java/com/coursehub/course_service/service/concretes/CourseService.java:128-137 | the page renders iff every PUBLISHED course renders, and then holds exactly their responses |
| CourseServices.CourseService.GetMyCourses | src/main/java/com/coursehub/course_service/service/concretes/CourseService.java:140-147 | the page renders iff every course of the caller, in any status, renders, and then holds exactly their responses |
| CourseServices.CourseService.GetMyCourseById | src/main/java/com/coursehub/course_service/service/concretes/CourseService.java:150-160 | NotFound unless PUBLISHED, Unauthorized unless the gate passes, else the course's response |
| CourseServices.CourseService.GetCoursesByCategory | src/main/java/com/coursehub/course_service/service/concretes/CourseService.java:163-174 | NotFound unless the category is ACTIVE; then the page renders iff every PUBLISHED course linked to it renders, and holds exactly their responses |
| CourseServices.CourseService.SearchCourses | src/main/java/com/coursehub/course_service/service/concretes/CourseService.java:176-190 | the page renders iff every course the search selects renders, and then holds exactly their responses |
| CourseServices.CourseService.GetPopularCourses | src/main/java/com/coursehub/course_service/service/concretes/CourseService.java:192-200 | the page renders iff every course rated strictly above the configured minimum renders, and then holds exactly their responses |
| CourseServices.CourseService.GetRecentCourses | src/main/java/com/coursehub/course_service/service/concretes/CourseService.java:202-212 | the page renders iff every course created strictly after `recentDays` days before `now` renders, and then holds exactly their responses |
| CourseServices.CourseService.ListenAddCourseRating | src/main/java/com/coursehub/course_service/service/concretes/CourseService.java:251-262 | a PUBLISHED course takes the ADD step and nothing else changes; a null rating fails with NullPointer and a course that is not PUBLISHED with NotFound, both changing nothing |
| CourseServices.CourseService.ListenDeleteCourseRating | src/main/java/com/coursehub/course_service/service/concretes/CourseService.java:269-287 | a PUBLISHED course takes the REMOVE step (reset at 1, inverse formula from 2, unchanged at 0) and nothing else changes; a null rating fails with NullPointer only from a count of 2 on; a course that is not PUBLISHED gives NotFound; failures change nothing |

Invariants the service classes keep:

- `CourseService.Valid`:
  - rows are stored under their ids;
  - every course has a non-negative rating count, and a zero mean when the count is 0;
  - every course fits its columns.
- `CategoryService.Valid`:
  - rows are stored under their ids;
  - every parent reference names a stored row;
  - every name fits its 255-character column.

## Left out

- I/O is not modelled: HTTP, the identity-service call with its circuit breaker, RabbitMQ, and logging.
  - The instructor profile is a parameter of each service operation. `CourseMapping.FALLBACK_PROFILE` is the fallback value.
  - The generated ids (`newId`) and the clock (`now`, in seconds) are parameters too.
  - A failure of the identity service other than the fallback is not modelled.
- JWT cryptography is a parameter `parse`: HMAC key decoding, signature and expiry checks, and claim type checks. It returns the claims of an accepted token and `None` where jjwt throws a JwtException.
- Controllers, the security filter chain, the authentication entry point and the exception-to-HTTP mapping are not modelled.
  - Principals reaching the services are taken to be non-null.
  - Path-variable ids (course and category ids) are non-null strings, as Spring binds a required path variable; the `NullPointerException` a null category id would cause in `activateCategory`, `deActivateCategory` and `deleteCategory` is not modelled.
  - A rating event's `courseId` is a non-null string. Its `rating` may be null.
  - `CourseServices.CourseService.CreateCourse` models the `@Valid` rejection of the controller as `Err(IllegalArgument)`; it is not part of the service itself.
- Concurrency is not modelled. Each listener or service call is one atomic step; the unversioned read-modify-write races of the rating listeners are out of scope.
- Entities are values. A JPA managed entity is loaded, mutated through setters and saved back; the model replaces the row in the table instead.
  - Aliasing between entity instances is not modelled.
  - Lazy loading is not modelled.
  - The inverse `Category.courses` list is not modelled.
- Course and category links are modelled by category id.
  - A link always renders the category's current row.
  - The resolved link set equals the sent ids only when the category table is stored under its own ids (`Categories.KeysMatch`). The course operations do not require the category service's invariant, so `CreateCourse` and `UpdateCourse` state their links up to that premise (`CourseServices.ResolveCategories`, `CourseServices.UpdateStep`).
  - A null member of a course's category set is kept as a null link. What Hibernate does when persisting it is not modelled.
- Arithmetic is exact, not machine-level:
  - the `Double` rating and the `BigDecimal` price are `real`, with no IEEE rounding;
  - the `Long` count and the `long` day count do not overflow.
- Ratings.Add: requires a count other than −1, because the division by zero there yields an infinite or NaN `Double` in the source. Stored courses never have that count.
- CourseMapping.ToEntity: requires title, description and price to be present. Only validated requests reach it.
- Query-engine detail is simplified:
  - pages are sets: pagination, sorting and duplicates from the category join are not modelled;
  - `LOWER` is ASCII lower-casing, and `%` and `_` in a keyword are read literally;
  - string lengths count `char`s, as `String.length()` does, with no UTF-16 or column-encoding detail.
- `@CreationTimestamp` is the `now` parameter. `@UpdateTimestamp` (`updatedAt`) is not modelled.
- Some files are not part of this model: `UpdateCourseRequest`, `UpdateCategoryRequest`, `UserSelfResponse`, the status enums and `UnauthorizedOperationException`.
  - Their shapes are taken from how the core uses them. The two components of `UserSelfResponse` are left unnamed.
  - Any validation annotations on the update requests are not modelled. Updates are limited only by the column lengths at save.
