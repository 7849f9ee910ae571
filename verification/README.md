# Learning-platform backend: reviews, ratings, catalogue and access control

A Dafny model of the core of a Spring backend for a training platform. Learners
review courses and instructors, and instructors are listed in a catalogue.

The model covers three parts:

- **Review and rating engine.**
  - A user may review a course or an instructor at most once.
  - Every create, update or delete of an instructor review recomputes that
    instructor's stored rating from the whole review table. The stored rating is
    0 with no reviews; otherwise it is the mean rounded HALF_UP to one decimal.
  - Course and instructor averages are also computed on demand, as exact means.
- **Catalogue and account mutations.**
  - Courses, with a course/instructor association that supports add, remove and
    replace.
  - Instructor profiles.
  - User accounts, whose usernames and emails stay unique. The password encoder
    is an opaque function.
- **Access decisions.**
  - The security filter chain: public paths, the 401 body, and the CORS policy.
  - The `@PreAuthorize` gates of the four controllers.
  - The in-body author/owner/admin checks that answer 403.
  - The role normalisation of the login/registration response.

The persisted state is one immutable `Store`:

- a map per table;
- the review table as a sequence in insertion order;
- one id counter per table.

Every service operation is a pure function from a store to
`Result<Committed<T>, Error>`. The error cases are datatype variants; nothing is
thrown. A controller endpoint is a function from the principal, the request and
the store to an `Http.Exchange`. That exchange holds the response (`Ok`,
`Forbidden`, `Denied` or `Failed`) and the store the request leaves behind. A
failed request leaves the store unchanged, as its transaction rolls back.

Ratings and prices are exact rationals. The stored instructor rating is a whole
number of tenths, characterised by the integer predicate `Ratings.IsHalfUp`.
`Ratings.HalfUpTenths` computes it as `floor((20*sum + n) / (2*n))` for a
non-negative sum, and symmetrically for a negative one.

Modules, one per source component:

- `Wrappers`: `Option` and `Result`.
- `Domain`: entities, the store, errors, store invariants, the `Optional`
  single-match query.
- `Ratings`: sums, means, HALF_UP rounding.
- `Text`: ASCII upper-casing and substring containment.
- `ReviewRepository`, `InstructorRepository`, `CourseRepository`: the
  derived-query filters.
- `UserService`, `InstructorService`, `CourseService`, `ReviewService`: the
  service implementations.
- `ReviewInvariants`: the invariants the review operations preserve.
- `SecurityConfig`, `Http`, `AuthResponse`: the security configuration, response
  statuses and the auth response body.
- `ReviewController`, `InstructorController`, `CourseController`,
  `UserController`: the endpoints.

Four facts about the code shape the model:

- **Derived ratings.** The rating aggregator is not the only writer of an
  instructor's `rating`: `createInstructor` stores a rating supplied in the
  request body. "Every stored rating equals its derived rating"
  (`InstructorService.RatingsConsistent`) is therefore not an invariant of every
  operation:
  - `InstructorService.CreateInstructorMayStoreUnderivedRating` exhibits a
    creation that breaks it.
  - Each other mutation has a lemma showing it keeps the property: the review
    creations, updates and deletions (`ReviewInvariants`), the recompute, the
    profile update and deletion (`InstructorService`), course creation, update,
    deletion and the three association edits (`CourseService`), and the account
    mutations (`InstructorService.UserMutationsPreserveRatings`).
- **Rating range.** No range is validated on a review's rating, so any integer
  rating is admitted, negative ones included.
- **Error statuses.** A catch-all exception handler answers every exception a
  controller raises with 500
  (`src/main/java/com/plasturgie/app/exception/GlobalExceptionHandler.java:26-37`).
  That includes the access-denied exception of a failed `@PreAuthorize` and the
  resource-not-found exception. Only the explicit in-body refusals are 403. See
  `Http.StatusCode`.
- **Course averages.** The course average is computed on demand from the review
  table; no course aggregate is stored.

## Model

| member | source | states |
|---|---|---|
| `Domain.SingleMatch` | src/main/java/com/plasturgie/app/repository/InstructorRepository.java:14 | An `Optional`-returning derived query: empty exactly when no row matches; the unique matching key when one does; a non-unique-result error exactly when two distinct rows match |
| `Ratings.SumAppend` | src/main/java/com/plasturgie/app/service/impl/InstructorServiceImpl.java:92-95 | The sum over concatenated rating lists is the sum of the parts |
| `Ratings.SumBounds` | src/main/java/com/plasturgie/app/service/impl/InstructorServiceImpl.java:92-95 | n ratings within [lo, hi] sum to a value within [n*lo, n*hi] |
| `Ratings.Mean` | src/main/java/com/plasturgie/app/service/impl/ReviewServiceImpl.java:156-163 | `average().orElse(0.0)` as an exact rational: 0 for no ratings, otherwise the value whose product with the count is the sum |
| `Ratings.HalfUpUnique` | src/main/java/com/plasturgie/app/service/impl/InstructorServiceImpl.java:97-98 | HALF_UP rounding of a fraction names exactly one integer |
| `Ratings.HalfUpNegate` | src/main/java/com/plasturgie/app/service/impl/InstructorServiceImpl.java:97-98 | HALF_UP rounds ties away from zero: negating the fraction negates its rounding |
| `Ratings.HalfUpOfNonNegative` | src/main/java/com/plasturgie/app/service/impl/InstructorServiceImpl.java:97-98 | For a non-negative fraction, floor((2*num + den)/(2*den)) is its HALF_UP rounding |
| `Ratings.HalfUpTenths` | src/main/java/com/plasturgie/app/service/impl/InstructorServiceImpl.java:97-98 | The tenths kept by `setScale(1, HALF_UP)` of sum/n are the HALF_UP rounding of 10*sum/n, for either sign of the sum |
| `Ratings.RoundedTenths` | src/main/java/com/plasturgie/app/service/impl/InstructorServiceImpl.java:89-100 | No ratings give 0 tenths; otherwise the tenths are the HALF_UP rounding of the mean times ten |
| `Ratings.RoundedRating` | src/main/java/com/plasturgie/app/service/impl/InstructorServiceImpl.java:89-100 | The stored rating is exactly 0 for no reviews, otherwise a whole number of tenths rounding the mean HALF_UP |
| `Ratings.MeanWithinBounds` | src/main/java/com/plasturgie/app/service/impl/ReviewServiceImpl.java:160-163 | The exact mean lies between the least and the greatest rating |
| `Ratings.RatingWithinBounds` | src/main/java/com/plasturgie/app/service/impl/InstructorServiceImpl.java:91-100 | The rounded rating lies between the least and the greatest rating |
| `Ratings.TenthsWithinBounds` | src/main/java/com/plasturgie/app/service/impl/InstructorServiceImpl.java:97-98 | A HALF_UP rounding of 10*sum/n with sum within [n*lo, n*hi] lies within [10*lo, 10*hi] |
| `Ratings.RoundingExamples` | src/main/java/com/plasturgie/app/service/impl/InstructorServiceImpl.java:89-100 | [3,4,5] gives 4.0, [4,5] gives 4.5, [4,4,5] gives 4.3, no reviews give 0 |
| `Text.ToUpper` | src/main/java/com/plasturgie/app/dto/AuthResponse.java:32 | Upper-casing keeps the length and upper-cases each character |
| `Text.ToUpperProperties` | src/main/java/com/plasturgie/app/dto/AuthResponse.java:32 | Upper-casing leaves no lower-case letter, is idempotent, and leaves an upper-case string unchanged |
| `Text.ContainsTransitive` | src/main/java/com/plasturgie/app/repository/CourseRepository.java:17 | A substring of a substring is a substring |
| `Text.ContainsToUpper` | src/main/java/com/plasturgie/app/repository/CourseRepository.java:17 | Upper-casing both sides preserves containment |
| `Text.ContainsEmpty` | src/main/java/com/plasturgie/app/repository/CourseRepository.java:17 | Every string contains the empty string |
| `ReviewRepository.Filter` | src/main/java/com/plasturgie/app/repository/ReviewRepository.java:15-25 | A derived list query returns exactly the rows satisfying its condition, never more rows than the table |
| `ReviewRepository.Single` | src/main/java/com/plasturgie/app/repository/ReviewRepository.java:21-23 | An `Optional` review query: empty exactly when no row matches; a non-unique-result error exactly when two rows match; otherwise the one matching row |
| `ReviewRepository.FindByCourse` | src/main/java/com/plasturgie/app/repository/ReviewRepository.java:15 | Exactly the reviews of that course |
| `ReviewRepository.FindByInstructor` | src/main/java/com/plasturgie/app/repository/ReviewRepository.java:17 | Exactly the reviews of that instructor |
| `ReviewRepository.FindByUser` | src/main/java/com/plasturgie/app/repository/ReviewRepository.java:19 | Exactly the reviews written by that user |
| `ReviewRepository.FindByUserAndCourse` | src/main/java/com/plasturgie/app/repository/ReviewRepository.java:21 | Empty iff the user has not reviewed the course; non-unique error iff two such reviews exist; otherwise the single such review |
| `ReviewRepository.FindByUserAndInstructor` | src/main/java/com/plasturgie/app/repository/ReviewRepository.java:23 | Empty iff the user has not reviewed the instructor; non-unique error iff two such reviews exist; otherwise the single such review |
| `ReviewRepository.OneReviewNeverTwice` | src/main/java/com/plasturgie/app/repository/ReviewRepository.java:21-23 | With one review per user and subject, neither lookup fails as non-unique |
| `ReviewRepository.FindByRating` | src/main/java/com/plasturgie/app/repository/ReviewRepository.java:25 | Exactly the reviews with that rating value |
| `ReviewRepository.IndexOf` | src/main/java/com/plasturgie/app/service/impl/ReviewServiceImpl.java:76-77 | `findById` on the review table: absent iff no row has the id, else a position holding that id |
| `ReviewRepository.RatingsOf` | src/main/java/com/plasturgie/app/service/impl/ReviewServiceImpl.java:160-161 | The rating column, position by position |
| `ReviewRepository.RemoveAt` | src/main/java/com/plasturgie/app/service/impl/ReviewServiceImpl.java:143 | Deleting a row shifts the later rows down by one and keeps the earlier ones |
| `ReviewRepository.FilterConcat` | src/main/java/com/plasturgie/app/repository/ReviewRepository.java:15-25 | A query over concatenated tables is the concatenation of the query results |
| `ReviewRepository.FilterAppend` | src/main/java/com/plasturgie/app/repository/ReviewRepository.java:15-25 | Saving a row extends exactly the queries that select it, by that row |
| `ReviewRepository.FilterSplice` | src/main/java/com/plasturgie/app/repository/ReviewRepository.java:15-25 | Replacing or deleting rows a query does not select leaves its result unchanged |
| `ReviewRepository.FilterNone` | src/main/java/com/plasturgie/app/repository/ReviewRepository.java:15-25 | A query selecting none of the rows returns nothing |
| `ReviewRepository.RatingsOfAppend` | src/main/java/com/plasturgie/app/service/impl/ReviewServiceImpl.java:160-161 | The rating column of concatenated rows is the concatenation of the columns |
| `InstructorRepository.FindByExpertise` | src/main/java/com/plasturgie/app/repository/InstructorRepository.java:16 | Exactly the instructors with that expertise, a subset of all instructors |
| `InstructorRepository.FindByRatingGreaterThanEqual` | src/main/java/com/plasturgie/app/repository/InstructorRepository.java:18 | Exactly the instructors rated at least the bound, a subset of all instructors |
| `InstructorRepository.MinRatingMonotone` | src/main/java/com/plasturgie/app/repository/InstructorRepository.java:18 | A higher minimum selects a subset |
| `InstructorRepository.FindByUser` | src/main/java/com/plasturgie/app/repository/InstructorRepository.java:14 | Empty iff no profile is linked to the user; otherwise the unique linked profile, or a non-unique-result error iff two are linked |
| `CourseRepository.FindByCategory` | src/main/java/com/plasturgie/app/repository/CourseRepository.java:13 | Exactly the courses of that category |
| `CourseRepository.FindByMode` | src/main/java/com/plasturgie/app/repository/CourseRepository.java:15 | Exactly the courses of that mode |
| `CourseRepository.FindByTitleContainingIgnoreCase` | src/main/java/com/plasturgie/app/repository/CourseRepository.java:17 | Exactly the courses whose upper-cased title contains the upper-cased query |
| `CourseRepository.FindByCertificationEligible` | src/main/java/com/plasturgie/app/repository/CourseRepository.java:19 | Exactly the courses with that eligibility flag |
| `CourseRepository.FindByPriceLessThanEqual` | src/main/java/com/plasturgie/app/repository/CourseRepository.java:21 | Exactly the courses priced at most the ceiling |
| `CourseRepository.MaxPriceMonotone` | src/main/java/com/plasturgie/app/repository/CourseRepository.java:21 | A higher ceiling selects a superset |
| `CourseRepository.TitleSearchIgnoresQueryCase` | src/main/java/com/plasturgie/app/repository/CourseRepository.java:17 | Upper-casing the query does not change the result |
| `CourseRepository.EmptyTitleQuerySelectsAll` | src/main/java/com/plasturgie/app/repository/CourseRepository.java:17 | The empty query selects every course |
| `CourseRepository.TitleSearchNarrows` | src/main/java/com/plasturgie/app/repository/CourseRepository.java:17 | A query containing another selects a subset of what the shorter one selects |
| `UserService.ExistsByUsername` | src/main/java/com/plasturgie/app/service/impl/UserServiceImpl.java:101-103 | True iff the username is among those held by some account |
| `UserService.ExistsByEmail` | src/main/java/com/plasturgie/app/service/impl/UserServiceImpl.java:106-108 | True iff the email is among those held by some account |
| `UserService.FindById` | src/main/java/com/plasturgie/app/service/impl/UserServiceImpl.java:46-50 | The stored user, or NotFound("User", "id") exactly for an unknown id |
| `UserService.FindByUsername` | src/main/java/com/plasturgie/app/service/impl/UserServiceImpl.java:52-56 | A key of a user with that username; NotFound exactly when the username is free |
| `UserService.FindByUsernameTotal` | src/main/java/com/plasturgie/app/service/impl/UserServiceImpl.java:52-56 | With unique usernames the lookup succeeds exactly for a taken username |
| `UserService.RegisterUser` | src/main/java/com/plasturgie/app/service/impl/UserServiceImpl.java:24-44 | The username is checked before the email and each error is raised iff its condition holds; succeeds iff neither name is taken and a password is given; the stored user holds the encoded password and the given fields under a fresh id, and nothing else changes |
| `UserService.RegisterUserPreservesWf` | src/main/java/com/plasturgie/app/service/impl/UserServiceImpl.java:26-43 | After a registration usernames and emails are still unique across all users |
| `UserService.RegisterUserTakesNames` | src/main/java/com/plasturgie/app/service/impl/UserServiceImpl.java:26-43 | A registration adds exactly its username and email to the taken ones, after which both exist |
| `UserService.UpdateUser` | src/main/java/com/plasturgie/app/service/impl/UserServiceImpl.java:63-92 | Succeeds iff the user exists and neither a changed username nor a changed email is held by another account; each conflict is raised iff its condition holds (username first); the password is re-encoded only when present and non-empty; exactly that user's fields change |
| `UserService.UpdateUserKeepingIdentityNeverConflicts` | src/main/java/com/plasturgie/app/service/impl/UserServiceImpl.java:68-78 | Keeping one's own username and email never fails |
| `UserService.UpdateUserPreservesWf` | src/main/java/com/plasturgie/app/service/impl/UserServiceImpl.java:63-92 | An update keeps usernames and emails unique |
| `UserService.DeleteUser` | src/main/java/com/plasturgie/app/service/impl/UserServiceImpl.java:94-99 | Removes exactly that user, or NotFound iff unknown |
| `UserService.DeleteUserPreservesWf` | src/main/java/com/plasturgie/app/service/impl/UserServiceImpl.java:94-99 | Deleting a user keeps the store well formed |
| `InstructorService.DerivedRating` | src/main/java/com/plasturgie/app/service/impl/InstructorServiceImpl.java:89-100 | 0 when the instructor has no reviews; always a whole number of tenths; with reviews, the HALF_UP rounding of ten times their mean |
| `InstructorService.CreateInstructor` | src/main/java/com/plasturgie/app/service/impl/InstructorServiceImpl.java:31-43 | Fails iff the user is unknown; links the user, defaults a missing rating to 0 and keeps a provided one, under the next id, which the counter then passes |
| `InstructorService.CreateInstructorMayStoreUnderivedRating` | src/main/java/com/plasturgie/app/service/impl/InstructorServiceImpl.java:37-40 | A provided rating can leave a consistent store with a rating that disagrees with the instructor's reviews |
| `InstructorService.CreateInstructorPreservesWf` | src/main/java/com/plasturgie/app/service/impl/InstructorServiceImpl.java:31-43 | Creating a profile keeps the store well formed |
| `InstructorService.GetInstructorById` | src/main/java/com/plasturgie/app/service/impl/InstructorServiceImpl.java:45-49 | The stored profile, or NotFound("Instructor", "id") exactly for an unknown id |
| `InstructorService.GetInstructorByUser` | src/main/java/com/plasturgie/app/service/impl/InstructorServiceImpl.java:51-55 | The only profile linked to the user; NotFound("Instructor", "userId") iff none is; a non-unique-result error iff two are |
| `InstructorService.UpdateInstructor` | src/main/java/com/plasturgie/app/service/impl/InstructorServiceImpl.java:72-81 | Only bio and expertise change; rating, user link and every other table stay; NotFound iff unknown |
| `InstructorService.UpdateInstructorPreserves` | src/main/java/com/plasturgie/app/service/impl/InstructorServiceImpl.java:72-81 | A profile edit keeps ratings derived and the store well formed |
| `InstructorService.UpdateInstructorRating` | src/main/java/com/plasturgie/app/service/impl/InstructorServiceImpl.java:83-104 | Exactly 0 with no reviews, else the HALF_UP rounding of the mean to tenths; only that profile's rating changes |
| `InstructorService.UpdateInstructorRatingIdempotent` | src/main/java/com/plasturgie/app/service/impl/InstructorServiceImpl.java:83-104 | Recomputing again with the same reviews changes nothing |
| `InstructorService.UpdateInstructorRatingWithinBounds` | src/main/java/com/plasturgie/app/service/impl/InstructorServiceImpl.java:91-100 | The recomputed rating lies between the least and the greatest review rating |
| `InstructorService.UpdateInstructorRatingPreserves` | src/main/java/com/plasturgie/app/service/impl/InstructorServiceImpl.java:83-104 | After a recompute that rating is derived; a consistent store stays consistent and well formed |
| `InstructorService.DeleteInstructor` | src/main/java/com/plasturgie/app/service/impl/InstructorServiceImpl.java:106-111 | Removes exactly that profile, or NotFound iff unknown |
| `InstructorService.DeleteInstructorPreserves` | src/main/java/com/plasturgie/app/service/impl/InstructorServiceImpl.java:106-111 | Deleting a profile keeps the other ratings derived and the store well formed |
| `InstructorService.UserMutationsPreserveRatings` | src/main/java/com/plasturgie/app/service/impl/UserServiceImpl.java:24-99 | Registering, editing or deleting an account keeps every instructor rating derived |
| `CourseService.CreateCourse` | src/main/java/com/plasturgie/app/service/impl/CourseServiceImpl.java:29-33 | The saved course holds the given fields and no instructors, under the next id, which the counter then passes; no other table changes |
| `CourseService.CreateCoursePreserves` | src/main/java/com/plasturgie/app/service/impl/CourseServiceImpl.java:29-33 | Creating a course keeps the store well formed and ratings derived |
| `CourseService.GetCourseById` | src/main/java/com/plasturgie/app/service/impl/CourseServiceImpl.java:35-39 | The stored course, or NotFound("Course", "id") exactly for an unknown id |
| `CourseService.CoursesOfInstructor` | src/main/java/com/plasturgie/app/service/impl/CourseServiceImpl.java:56-59 | Exactly the courses whose instructor set holds the instructor |
| `CourseService.UpdateCourse` | src/main/java/com/plasturgie/app/service/impl/CourseServiceImpl.java:76-90 | Exactly the seven editable fields are overwritten; the instructor set and other tables stay; NotFound iff unknown |
| `CourseService.UpdateCoursePreserves` | src/main/java/com/plasturgie/app/service/impl/CourseServiceImpl.java:76-90 | A course edit keeps the store well formed and every instructor rating derived |
| `CourseService.AddInstructorToCourse` | src/main/java/com/plasturgie/app/service/impl/CourseServiceImpl.java:92-100 | Course looked up before instructor; on success the instructor set gains exactly that instructor |
| `CourseService.RemoveInstructorFromCourse` | src/main/java/com/plasturgie/app/service/impl/CourseServiceImpl.java:102-110 | Course then instructor looked up; on success the set loses exactly that instructor; an unknown instructor is NotFound |
| `CourseService.SetInstructorsForCourse` | src/main/java/com/plasturgie/app/service/impl/CourseServiceImpl.java:112-125 | The set becomes exactly the given ids; fails, changing nothing, iff the course or any id is unknown |
| `CourseService.AddInstructorIdempotent` | src/main/java/com/plasturgie/app/service/impl/CourseServiceImpl.java:92-100 | Adding twice equals adding once |
| `CourseService.RemoveNonMemberIsNoOp` | src/main/java/com/plasturgie/app/service/impl/CourseServiceImpl.java:102-110 | Removing a known non-member changes nothing |
| `CourseService.RemoveUndoesAdd` | src/main/java/com/plasturgie/app/service/impl/CourseServiceImpl.java:92-110 | Removing undoes adding a non-member |
| `CourseService.SetCurrentInstructorsIsNoOp` | src/main/java/com/plasturgie/app/service/impl/CourseServiceImpl.java:112-125 | Replacing the set by itself changes nothing |
| `CourseService.SetInstructorsOverridesAdd` | src/main/java/com/plasturgie/app/service/impl/CourseServiceImpl.java:92-125 | A replace after an add gives the same result as the replace alone |
| `CourseService.AssociationPreserves` | src/main/java/com/plasturgie/app/service/impl/CourseServiceImpl.java:92-125 | Add, remove and replace each keep the store well formed and keep every instructor rating derived |
| `CourseService.AddShowsInCoursesOfInstructor` | src/main/java/com/plasturgie/app/service/impl/CourseServiceImpl.java:56-59 | After an add, the instructor's course collection gains exactly that course |
| `CourseService.DeleteCourse` | src/main/java/com/plasturgie/app/service/impl/CourseServiceImpl.java:127-132 | Removes exactly that course, or NotFound iff unknown, removing nothing |
| `CourseService.DeleteCoursePreserves` | src/main/java/com/plasturgie/app/service/impl/CourseServiceImpl.java:127-132 | A course deletion keeps the store well formed and every instructor rating derived |
| `ReviewService.CreateCourseReview` | src/main/java/com/plasturgie/app/service/impl/ReviewServiceImpl.java:35-50 | User then course must exist; succeeds iff both exist and the user has not reviewed the course; IllegalState iff one earlier review exists, non-unique error iff two do; on success exactly one review is appended and no other table changes |
| `ReviewService.CreateInstructorReview` | src/main/java/com/plasturgie/app/service/impl/ReviewServiceImpl.java:52-72 | User then instructor must exist; succeeds iff both exist and the user has not reviewed the instructor; IllegalState iff one earlier review exists, non-unique error iff two do; on success one review is appended and only that instructor's rating changes, to the derived one |
| `ReviewService.CreateInstructorReviewRating` | src/main/java/com/plasturgie/app/service/impl/ReviewServiceImpl.java:66-69 | The new rating is the rounded mean of the earlier ratings together with the new one |
| `ReviewService.DerivedRatingAppend` | src/main/java/com/plasturgie/app/service/impl/ReviewServiceImpl.java:66-69 | Appending a review changes only its own instructor's derived rating |
| `ReviewService.DerivedRatingSplice` | src/main/java/com/plasturgie/app/service/impl/ReviewServiceImpl.java:122-147 | Rewriting or removing reviews of other subjects leaves an instructor's derived rating unchanged |
| `ReviewService.ReviewIndex` | src/main/java/com/plasturgie/app/service/impl/ReviewServiceImpl.java:74-78 | A position holding the id, or NotFound("Review", "id") iff none does |
| `ReviewService.GetReviewById` | src/main/java/com/plasturgie/app/service/impl/ReviewServiceImpl.java:74-78 | A stored review with that id, or NotFound iff none |
| `ReviewService.GetReviewByUserAndCourse` | src/main/java/com/plasturgie/app/service/impl/ReviewServiceImpl.java:95-100 | Succeeds iff exactly one review by the user of the course exists and returns it; NotFound iff none; non-unique error iff two |
| `ReviewService.GetReviewByUserAndInstructor` | src/main/java/com/plasturgie/app/service/impl/ReviewServiceImpl.java:102-107 | Succeeds iff exactly one review by the user of the instructor exists and returns it; NotFound iff none; non-unique error iff two |
| `ReviewService.UpdateReview` | src/main/java/com/plasturgie/app/service/impl/ReviewServiceImpl.java:114-130 | NotFound for an unknown id; for a stored review, succeeds iff its instructor (if any) still exists, else NotFound("Instructor"); only rating and comment change; the instructor rating is recomputed iff the review is about an instructor |
| `ReviewService.DeleteReview` | src/main/java/com/plasturgie/app/service/impl/ReviewServiceImpl.java:132-149 | NotFound for an unknown id; for a stored review, succeeds iff its instructor (if any) still exists, else NotFound("Instructor"); the review is removed and an instructor review's rating is recomputed from the rest |
| `ReviewService.AverageRatingForCourse` | src/main/java/com/plasturgie/app/service/impl/ReviewServiceImpl.java:151-164 | NotFound iff the course is unknown; 0 with no reviews; otherwise the exact unrounded mean |
| `ReviewService.AverageRatingForInstructor` | src/main/java/com/plasturgie/app/service/impl/ReviewServiceImpl.java:166-179 | NotFound iff the instructor is unknown; 0 with no reviews; otherwise the exact unrounded mean |
| `ReviewInvariants.SavedPreservesWf` | src/main/java/com/plasturgie/app/service/impl/ReviewServiceImpl.java:46-49 | Saving a fresh review for a not-yet-reviewed subject keeps ids distinct and one review per user and subject |
| `ReviewInvariants.CreateCourseReviewPreserves` | src/main/java/com/plasturgie/app/service/impl/ReviewServiceImpl.java:35-50 | A course review keeps every rating derived and the store well formed |
| `ReviewInvariants.CreateInstructorReviewPreserves` | src/main/java/com/plasturgie/app/service/impl/ReviewServiceImpl.java:52-72 | An instructor review keeps every rating derived and the store well formed |
| `ReviewInvariants.ReplacePreservesWf` | src/main/java/com/plasturgie/app/service/impl/ReviewServiceImpl.java:119-122 | Rewriting rating and comment in place keeps the review table well formed |
| `ReviewInvariants.UpdatedPosition` | src/main/java/com/plasturgie/app/service/impl/ReviewServiceImpl.java:114-130 | An update rewrites exactly one position, the one holding the id |
| `ReviewInvariants.UpdateReviewPreservesWf` | src/main/java/com/plasturgie/app/service/impl/ReviewServiceImpl.java:114-130 | An update keeps the store well formed |
| `ReviewInvariants.UpdateReviewPreservesRatings` | src/main/java/com/plasturgie/app/service/impl/ReviewServiceImpl.java:114-130 | An update keeps every stored rating derived |
| `ReviewInvariants.RemovePreservesWf` | src/main/java/com/plasturgie/app/service/impl/ReviewServiceImpl.java:143 | Deleting a row keeps the review table well formed |
| `ReviewInvariants.DeletedPosition` | src/main/java/com/plasturgie/app/service/impl/ReviewServiceImpl.java:132-149 | A delete removes exactly the position holding the id and recomputes only that review's instructor |
| `ReviewInvariants.DeleteReviewPreservesWf` | src/main/java/com/plasturgie/app/service/impl/ReviewServiceImpl.java:132-149 | A delete keeps the store well formed |
| `ReviewInvariants.DeleteReviewPreservesRatings` | src/main/java/com/plasturgie/app/service/impl/ReviewServiceImpl.java:132-149 | A delete keeps every stored rating derived |
| `SecurityConfig.HasRole` | src/main/java/com/plasturgie/app/controller/UserController.java:24 | `hasRole('X')` holds iff some granted authority is "ROLE_" followed by exactly X |
| `SecurityConfig.AdminRoleIsAdmin` | src/main/java/com/plasturgie/app/controller/ReviewController.java:115-116 | The `ROLE_ADMIN` authority check in handler bodies agrees with `hasRole('ADMIN')` |
| `SecurityConfig.MatchesAll` | src/main/java/com/plasturgie/app/config/SecurityConfig.java:129 | A `/**` pattern matches iff the path starts with the prefix and ends there or continues with "/" |
| `SecurityConfig.IsPublic` | src/main/java/com/plasturgie/app/config/SecurityConfig.java:129 | A path is public iff it lies at or under `/api/auth`, `/api/public` or `/actuator` |
| `SecurityConfig.UnauthorizedBody` | src/main/java/com/plasturgie/app/config/SecurityConfig.java:119-125 | The 401 body is the fixed JSON head, the detail and the closing tail, with length and detail recoverable |
| `SecurityConfig.FilterChain` | src/main/java/com/plasturgie/app/config/SecurityConfig.java:127-131 | A request passes iff its path is public or a principal is present; otherwise it gets the 401 body |
| `SecurityConfig.UnauthorizedBodyCarriesDetail` | src/main/java/com/plasturgie/app/config/SecurityConfig.java:119-125 | The 401 body is the fixed JSON head, the exception detail and the closing tail, and the detail can be read back |
| `SecurityConfig.UnauthorizedBodyInjective` | src/main/java/com/plasturgie/app/config/SecurityConfig.java:119-125 | Different details give different 401 bodies |
| `SecurityConfig.PublicPathExamples` | src/main/java/com/plasturgie/app/config/SecurityConfig.java:129 | The bare prefixes and paths below them are public; `/api/authx`, `/api/publicity` and `/api` are not |
| `SecurityConfig.NotUnder` | src/main/java/com/plasturgie/app/config/SecurityConfig.java:129 | A path that departs from "prefix/" within its length is not matched by the prefix pattern |
| `SecurityConfig.ControllerPathsNeedAuthentication` | src/main/java/com/plasturgie/app/config/SecurityConfig.java:131 | Every path under a controller base is protected and is challenged without a principal |
| `SecurityConfig.CorsAllows` | src/main/java/com/plasturgie/app/config/SecurityConfig.java:93-99 | A cross-origin request is allowed iff its origin and method are listed |
| `SecurityConfig.CorsAllowsExactly` | src/main/java/com/plasturgie/app/config/SecurityConfig.java:93-99 | For every origin and method: allowed iff the origin is one of the four listed and the method one of GET, POST, PUT, PATCH, DELETE, OPTIONS |
| `SecurityConfig.CorsPolicyShape` | src/main/java/com/plasturgie/app/config/SecurityConfig.java:93-99 | Exactly four origins and six methods; HEAD, TRACE and unlisted ports are refused |
| `Http.StatusCode` | src/main/java/com/plasturgie/app/exception/GlobalExceptionHandler.java:26-37 | 200 iff Ok, 403 iff an explicit refusal, and 500 for every thrown error, the pre-authorization denial included |
| `AuthResponse.NormalizeRole` | src/main/java/com/plasturgie/app/dto/AuthResponse.java:32 | A missing role becomes "LEARNER"; a present one is upper-cased character by character |
| `AuthResponse.Make` | src/main/java/com/plasturgie/app/dto/AuthResponse.java:18-33 | Token, user id, username and email as given, token type "Bearer", role normalised |
| `AuthResponse.NormalizeRoleStable` | src/main/java/com/plasturgie/app/dto/AuthResponse.java:32 | Normalising is idempotent and leaves an upper-case role, and every role constant name, unchanged |
| `AuthResponse.NormalizeRoleExamples` | src/main/java/com/plasturgie/app/dto/AuthResponse.java:32 | "learner" becomes "LEARNER", "Admin" becomes "ADMIN", and a missing role equals "learner" |
| `ReviewController.CreateCourseReview` | src/main/java/com/plasturgie/app/controller/ReviewController.java:37-46 | Denied iff the caller is neither LEARNER nor ADMIN; past the gate, succeeds iff the caller's account and the course exist and the caller has not reviewed it, and fails otherwise; a success stores exactly the review (next id, caller as author, path course, the body's rating and comment, the clock's time), advances the counter, changes no other table, and equals the service's result; nothing is written on failure |
| `ReviewController.CreateInstructorReview` | src/main/java/com/plasturgie/app/controller/ReviewController.java:48-57 | The same gate; past it, succeeds iff the caller's account and the instructor exist and the caller has not reviewed them; a success stores exactly the review with the caller as author, changes only the reviews, the counter and that instructor's rating (to the derived one), and equals the service's result |
| `ReviewController.GetReviewById` | src/main/java/com/plasturgie/app/controller/ReviewController.java:59-63 | The review with that id, or NotFound iff none |
| `ReviewController.GetReviewsByCourse` | src/main/java/com/plasturgie/app/controller/ReviewController.java:65-70 | NotFound iff the course is unknown, else exactly its reviews |
| `ReviewController.GetReviewsByInstructor` | src/main/java/com/plasturgie/app/controller/ReviewController.java:72-77 | NotFound iff the instructor is unknown, else exactly its reviews |
| `ReviewController.GetReviewsByUser` | src/main/java/com/plasturgie/app/controller/ReviewController.java:79-85 | Exactly the reviews the caller wrote, or NotFound iff the caller's account is gone |
| `ReviewController.GetReviewsByRating` | src/main/java/com/plasturgie/app/controller/ReviewController.java:87-91 | Exactly the reviews with that rating |
| `ReviewController.GetAverageRatingForCourse` | src/main/java/com/plasturgie/app/controller/ReviewController.java:93-97 | Answers iff the course exists, with the exact mean of its review ratings (0 when unreviewed); otherwise NotFound("Course") |
| `ReviewController.GetAverageRatingForInstructor` | src/main/java/com/plasturgie/app/controller/ReviewController.java:99-103 | Answers iff the instructor exists, with the exact mean of its review ratings (0 when unreviewed); otherwise NotFound("Instructor") |
| `ReviewController.UpdateReview` | src/main/java/com/plasturgie/app/controller/ReviewController.java:105-122 | A missing review is NotFound for every caller; for a stored review, 403 iff the caller is neither author nor admin, and success iff they are and its instructor (if any) exists; a success is the service update; a refusal writes nothing |
| `ReviewController.DeleteReview` | src/main/java/com/plasturgie/app/controller/ReviewController.java:124-140 | A missing review is NotFound for every caller; for a stored review, 403 iff the caller is neither author nor admin, and success iff they are and its instructor (if any) exists; a success is the service deletion and removes exactly that row |
| `ReviewController.EditForbiddenExactly` | src/main/java/com/plasturgie/app/controller/ReviewController.java:112-118 | With distinct ids, 403 iff the review exists, the caller is not its author and not an admin |
| `ReviewController.AuthorOrAdminNeverForbidden` | src/main/java/com/plasturgie/app/controller/ReviewController.java:130-136 | Neither the author nor an admin is ever refused an edit or a delete |
| `InstructorController.CreateInstructor` | src/main/java/com/plasturgie/app/controller/InstructorController.java:28-36 | Admin only; succeeds iff the user exists, else NotFound("User"); a success stores under the next id exactly the profile linking that user with the body's bio and expertise and its rating or 0, advances the counter, changes nothing else, and equals the service's result |
| `InstructorController.GetAllInstructors` | src/main/java/com/plasturgie/app/controller/InstructorController.java:38-42 | Every profile |
| `InstructorController.GetInstructorById` | src/main/java/com/plasturgie/app/controller/InstructorController.java:44-48 | The profile, or NotFound iff unknown |
| `InstructorController.LinkedLookup` | src/main/java/com/plasturgie/app/service/impl/InstructorServiceImpl.java:51-55 | The lookup by user succeeds iff exactly one profile is linked, is NotFound iff none is, and is non-unique iff two or more are |
| `InstructorController.ProfileOfUser` | src/main/java/com/plasturgie/app/controller/InstructorController.java:50-55 | User NotFound first; then succeeds iff exactly one profile is linked to the user and returns it; NotFound("Instructor", "userId") iff none is linked; non-unique error iff two or more are |
| `InstructorController.GetInstructorByUser` | src/main/java/com/plasturgie/app/controller/InstructorController.java:50-55 | Succeeds iff the user exists and exactly one profile is linked, returning that profile; with the user present, every other outcome is NotFound or the non-unique error |
| `InstructorController.GetInstructorsByExpertise` | src/main/java/com/plasturgie/app/controller/InstructorController.java:57-61 | Exactly the profiles with that expertise |
| `InstructorController.GetInstructorsByMinRating` | src/main/java/com/plasturgie/app/controller/InstructorController.java:63-67 | Exactly the profiles rated at least the bound |
| `InstructorController.GetCurrentInstructor` | src/main/java/com/plasturgie/app/controller/InstructorController.java:69-75 | Denied iff the caller lacks the INSTRUCTOR role; past the gate, succeeds iff the caller's account exists and exactly one profile is linked to it, returning the caller's own profile; non-unique error iff two or more are linked |
| `InstructorController.UpdateInstructor` | src/main/java/com/plasturgie/app/controller/InstructorController.java:77-93 | Denied iff neither admin nor admitted by the bean; past the gate, succeeds iff the profile exists and the caller is admin or its user; NotFound for an unknown profile, 403 iff neither admin nor the profile's user; a success changes only bio and expertise and equals the service's result |
| `InstructorController.UpdateInstructorBeanIrrelevant` | src/main/java/com/plasturgie/app/controller/InstructorController.java:84-89 | Past the gate, the outcome does not depend on what the instructor-security bean answered |
| `InstructorController.UpdateInstructorRating` | src/main/java/com/plasturgie/app/controller/InstructorController.java:95-100 | Admin only; past the gate, succeeds iff the profile exists, else NotFound("Instructor"); only that profile's rating changes, to the derived one |
| `InstructorController.DeleteInstructor` | src/main/java/com/plasturgie/app/controller/InstructorController.java:102-107 | Admin only; succeeds iff the profile exists, else NotFound("Instructor"); a success removes exactly that key from the profiles, changes nothing else, and equals the service's result |
| `CourseController.CurrentInstructor` | src/main/java/com/plasturgie/app/controller/CourseController.java:41-42 | The caller's profile as looked up: it succeeds iff the profile whose id is the caller's user id exists and is the only one linked to its user, and it then yields that profile |
| `CourseController.AutoAssign` | src/main/java/com/plasturgie/app/controller/CourseController.java:38-47 | The new course gains the caller's looked-up profile when the caller has the instructor authority and the lookup succeeds; any failure is swallowed with the store unchanged |
| `CourseController.CreateCourse` | src/main/java/com/plasturgie/app/controller/CourseController.java:30-50 | Denied iff neither INSTRUCTOR nor ADMIN, and always succeeds otherwise; the saved course holds the body's fields, and its instructors are the looked-up profile or none; the store changes only by that course under the next id and the advanced counter |
| `CourseController.AutoAssignIntended` | src/main/java/com/plasturgie/app/controller/CourseController.java:38-47 | The corrected assignment: only the caller's own profile can be added, and it is added when it is the only one |
| `CourseController.CreateCourseIntended` | src/main/java/com/plasturgie/app/controller/CourseController.java:30-50 | The corrected creation: always succeeds for INSTRUCTOR or ADMIN, every assigned instructor is the caller's own profile, an instructor with a profile gets it assigned, and the store changes only by the new course and the counter |
| `CourseController.GetAllCourses` | src/main/java/com/plasturgie/app/controller/CourseController.java:52-56 | Every course |
| `CourseController.GetCourseById` | src/main/java/com/plasturgie/app/controller/CourseController.java:58-62 | The course, or NotFound iff unknown |
| `CourseController.GetCoursesByCategory` | src/main/java/com/plasturgie/app/controller/CourseController.java:64-68 | Exactly the courses of that category |
| `CourseController.GetCoursesByMode` | src/main/java/com/plasturgie/app/controller/CourseController.java:70-74 | Exactly the courses of that mode |
| `CourseController.GetCoursesByInstructor` | src/main/java/com/plasturgie/app/controller/CourseController.java:76-81 | NotFound iff the instructor is unknown, else exactly the courses it teaches |
| `CourseController.SearchCourses` | src/main/java/com/plasturgie/app/controller/CourseController.java:83-87 | Exactly the courses whose title contains the query, ignoring case |
| `CourseController.GetCoursesByCertificationEligible` | src/main/java/com/plasturgie/app/controller/CourseController.java:89-93 | Exactly the courses with that flag |
| `CourseController.GetCoursesByMaxPrice` | src/main/java/com/plasturgie/app/controller/CourseController.java:95-99 | Exactly the courses priced at most the ceiling |
| `CourseController.UpdateCourse` | src/main/java/com/plasturgie/app/controller/CourseController.java:101-130 | Unknown course is NotFound before any decision; 403 iff the caller is not admin and the profile numbered like the caller's user id does not teach the course; success iff the gate passes, the course exists and the caller is admin or that check passes; a success writes the seven body fields and keeps the instructor set |
| `CourseController.UpdateCourseIntended` | src/main/java/com/plasturgie/app/controller/CourseController.java:101-130 | The corrected check: succeeds iff the caller is INSTRUCTOR or ADMIN, the course exists, and the caller is admin or a user whose own profile teaches it; 403 iff neither holds; a success writes the seven body fields and keeps the instructor set |
| `CourseController.SelfOnly` | src/main/java/com/plasturgie/app/controller/CourseController.java:140-146 | An admin passes; anyone else passes iff the named profile is theirs, and is otherwise refused with 403, or NotFound for an unknown profile |
| `CourseController.AddInstructorToCourse` | src/main/java/com/plasturgie/app/controller/CourseController.java:132-150 | Past the gate, succeeds iff course and profile exist and the caller is admin or the profile's user; otherwise NotFound for course or instructor, or 403 iff a non-admin names a profile that is not theirs; a success adds exactly that instructor and equals the service's result |
| `CourseController.RemoveInstructorFromCourse` | src/main/java/com/plasturgie/app/controller/CourseController.java:152-170 | Past the gate, succeeds iff course and profile exist and the caller is admin or the profile's user; otherwise NotFound for course or instructor, or 403 iff a non-admin names a profile that is not theirs; a success removes exactly that instructor and equals the service's result |
| `CourseController.SetInstructorsForCourse` | src/main/java/com/plasturgie/app/controller/CourseController.java:172-180 | Admin only; succeeds iff the course and every id exist; a success replaces only that course's instructor set with exactly those ids, changes nothing else, and equals the service's result |
| `CourseController.DeleteCourse` | src/main/java/com/plasturgie/app/controller/CourseController.java:182-187 | Admin only; succeeds iff the course exists; a success removes exactly that key from the courses, changes nothing else, and equals the service's result |
| `CourseController.InstructorRoleIsInstructor` | src/main/java/com/plasturgie/app/controller/CourseController.java:112 | The `ROLE_INSTRUCTOR` authority check agrees with `hasRole('INSTRUCTOR')` |
| `CourseController.UpdateCourseAdmitsStranger` | src/main/java/com/plasturgie/app/controller/CourseController.java:112-126 | A caller with no profile may edit a course taught by the profile numbered like the caller's user id; the corrected check refuses them |
| `CourseController.UpdateCourseRefusesTeacher` | src/main/java/com/plasturgie/app/controller/CourseController.java:112-126 | A user whose own profile teaches the course, under a different number, is refused; the corrected check admits them |
| `CourseController.CreateCourseAssignsStranger` | src/main/java/com/plasturgie/app/controller/CourseController.java:38-47 | A caller with no profile gets someone else's profile assigned to the new course; the corrected creation assigns nobody |
| `UserController.GetAllUsers` | src/main/java/com/plasturgie/app/controller/UserController.java:23-28 | Admin only, and an admin always gets every account |
| `UserController.GetUserById` | src/main/java/com/plasturgie/app/controller/UserController.java:30-38 | Denied iff neither admin nor admitted by the user-security bean; then the account, or NotFound iff unknown |
| `UserController.GetCurrentUser` | src/main/java/com/plasturgie/app/controller/UserController.java:40-45 | The caller's own account, or NotFound iff it is gone |
| `UserController.UpdateUser` | src/main/java/com/plasturgie/app/controller/UserController.java:47-56 | The same gate; past it, NotFound for an unknown account, each conflict error iff its condition holds, and success iff neither holds; a success writes the body's fields to exactly that account; a failure writes nothing |
| `UserController.DeleteUser` | src/main/java/com/plasturgie/app/controller/UserController.java:58-63 | Admin only; succeeds iff the account exists, else NotFound("User"); a success removes exactly that key from the accounts, changes nothing else, and equals the service's result |
| `UserController.CheckUsernameAvailability` | src/main/java/com/plasturgie/app/controller/UserController.java:65-69 | True iff no account holds the username |
| `UserController.CheckEmailAvailability` | src/main/java/com/plasturgie/app/controller/UserController.java:71-75 | True iff no account holds the email |
| `UserController.AvailabilityPredictsRegistration` | src/main/java/com/plasturgie/app/controller/UserController.java:65-75 | An available username and email with a password register successfully, after which both are unavailable |
| `UserController.SelfMeansSameId` | src/main/java/com/plasturgie/app/controller/UserController.java:30-48 | With a bean comparing the path id to the caller's id, a non-admin is denied exactly on other accounts |

## Left out

- The token provider, the token filter, the user-details service and the `UserPrincipal` class are not part of this model. The principal is an input: its id and its authority names.
- The `userSecurity` and `instructorSecurity` beans are not part of this model. Their answers are arbitrary functions in `Http.Env`.
- The login and registration controller is not part of this model. Only the response body it builds is modelled, as `AuthResponse.Make`.
- The BCrypt encoder is an arbitrary function `encode` in `Http.Env`. The clock that stamps `createdAt` is the input `now`.
- Floating point is not modelled:
  - `double` averages are exact rationals.
  - `BigDecimal.valueOf(double).setScale(1, HALF_UP)` is exact HALF_UP rounding of the rational mean. This assumes the decimal rendering of the double mean rounds the same way, which holds for realistic review counts.
  - Integer sums do not overflow.
- Concurrency is not modelled: the check-then-insert race of review creation, and transaction isolation. Every operation runs alone and is all-or-nothing.
- Bean validation of request bodies (`@Valid`) is not modelled. The entity constraints behind it are not part of this model.
- Request-body fields other than those modelled are assumed absent or ignored: a review's id, author or subject, an instructor's user or courses, and a course's instructors. Only rating and comment (reviews), bio, expertise and rating (instructor creation), and the seven editable course fields are taken from bodies.
- Null handling: a missing password, a missing instructor rating and a missing role are `None`. Other nulls in bodies, and a null `Boolean` flag, are not modelled.
- Foreign keys and cascades are not modelled. Deleting a user, an instructor or a course leaves reviews and course associations that name it. Whether the database rejects or cascades such deletes depends on a schema that is not part of this model.
- Path-variable conversion failures, such as an unknown `Mode` constant, are not modelled. `Mode` is its constant name.
- List endpoints answer with sets of keys or sequences in table order. JPA's `findAll` order is not modelled.
- `CourseController.CreateCourse`: the response is the course as stored at the end of the request, assuming the session stays open for the whole request. Otherwise the returned entity would not show the automatically added instructor.
- `Text.ToUpper`: upper-cases ASCII letters only, so `AuthResponse.NormalizeRole` and the ignore-case title search do not model locale-sensitive or non-ASCII case mapping.
- `Http.StatusCode`: only the status of the catch-all handler is modelled, not its JSON body. The handlers for bad credentials and validation errors are not reached by the modelled operations.
- The CORS headers, credentials flag and max age, the disabled CSRF protection, and bean wiring are not modelled. Sessions are stateless: every decision in the model is a function of the current request and the store.
- The enrollment and event repositories are not part of this model. They have no callers among the modelled files.
- `CourseService.CoursesOfInstructor`: an instructor's course collection is read as the inverse of each course's instructor set. This assumes `Instructor.courses` is mapped by `Course.instructors`; the entity classes that declare the mapping are not part of this model.
- `InstructorService.RatingsConsistent` is not proved for `InstructorService.CreateInstructor`, because a rating supplied on creation is stored as given (see `InstructorService.CreateInstructorMayStoreUnderivedRating`).

## Findings

| source | as written | input that shows it | evidently intended | confidence | as-written member | corrected member |
|---|---|---|---|---|---|---|
| src/main/java/com/plasturgie/app/controller/CourseController.java:112-126 | The edit check fetches the profile whose instructor id equals the caller's user id, then the profile linked to that profile's user, and asks whether it teaches the course | Profile 3 belongs to user 7 and teaches course 1; user 3 has no profile. User 3, with the instructor role, may edit course 1, and user 7 is refused | The caller's own profile, the one linked to the caller's user, must teach the course | high; not executed | `CourseController.UpdateCourse` (counterexamples `CourseController.UpdateCourseAdmitsStranger`, `CourseController.UpdateCourseRefusesTeacher`) | `CourseController.UpdateCourseIntended` |
| src/main/java/com/plasturgie/app/controller/CourseController.java:38-47 | Course creation assigns the profile found by the same instructor-id-equals-user-id lookup | User 3, with the instructor role and no profile, creates a course; profile 3, which belongs to user 7, is assigned to it | The creating instructor's own profile is assigned | high; not executed | `CourseController.CreateCourse` (counterexample `CourseController.CreateCourseAssignsStranger`) | `CourseController.CreateCourseIntended` |
