/** Reviews of courses and instructors: one review per user and subject, and
    the instructor rating recomputed after every change to an instructor
    review. */
module ReviewService {
  import opened Wrappers
  import opened Domain
  import opened ReviewRepository
  import Ratings
  import UserService
  import InstructorService
  import CourseService

  /** The fields a review request body contributes. */
  datatype ReviewDetails = ReviewDetails(rating: int, comment: string)

  /** A review saved with the next id from the review sequence. */
  function Saved(s: Store, x: Review): Store {
    s.(reviews := s.reviews + [x], nextReviewId := s.nextReviewId + 1)
  }

  /** `createCourseReview`: user, then course, then the duplicate check;
      nothing is written unless all pass, and no instructor changes. */
  function CreateCourseReview(s: Store, now: int, d: ReviewDetails, userId: Id, courseId: Id): (r: Result<Committed<Review>, Error>)
    ensures userId !in s.users ==> r == Err(NotFound("User", "id"))
    ensures userId in s.users && courseId !in s.courses ==> r == Err(NotFound("Course", "id"))
    ensures r.Ok? <==> userId in s.users && courseId in s.courses && !Reviewed(s.reviews, userId, OfCourse(courseId))
    ensures r == Err(IllegalState("User has already reviewed this course")) <==>
      && userId in s.users && courseId in s.courses
      && Reviewed(s.reviews, userId, OfCourse(courseId)) && !ReviewedTwice(s.reviews, userId, OfCourse(courseId))
    ensures r == Err(NonUniqueResult("Review")) <==>
      userId in s.users && courseId in s.courses && ReviewedTwice(s.reviews, userId, OfCourse(courseId))
    ensures r.Ok? ==>
      var x := r.value.value;
      var t := r.value.store;
      && x == Review(s.nextReviewId, userId, OfCourse(courseId), d.rating, d.comment, now)
      && t.reviews == s.reviews + [x] && t.nextReviewId == s.nextReviewId + 1
      && t.users == s.users && t.instructors == s.instructors && t.courses == s.courses
  {
    var _ :- UserService.FindById(s, userId);
    var _ :- CourseService.GetCourseById(s, courseId);
    var found :- FindByUserAndCourse(s.reviews, userId, courseId);
    if found.Some? then
      Err(IllegalState("User has already reviewed this course"))
    else
      var x := Review(s.nextReviewId, userId, OfCourse(courseId), d.rating, d.comment, now);
      Ok(Committed(x, Saved(s, x)))
  }

  /** `createInstructorReview`: user, then instructor, then the duplicate
      check; the review is saved and the instructor's rating recomputed in
      the same transaction. */
  function CreateInstructorReview(s: Store, now: int, d: ReviewDetails, userId: Id, instructorId: Id): (r: Result<Committed<Review>, Error>)
    ensures userId !in s.users ==> r == Err(NotFound("User", "id"))
    ensures userId in s.users && instructorId !in s.instructors ==> r == Err(NotFound("Instructor", "id"))
    ensures r.Ok? <==>
      userId in s.users && instructorId in s.instructors && !Reviewed(s.reviews, userId, OfInstructor(instructorId))
    ensures r == Err(IllegalState("User has already reviewed this instructor")) <==>
      && userId in s.users && instructorId in s.instructors
      && Reviewed(s.reviews, userId, OfInstructor(instructorId)) && !ReviewedTwice(s.reviews, userId, OfInstructor(instructorId))
    ensures r == Err(NonUniqueResult("Review")) <==>
      userId in s.users && instructorId in s.instructors && ReviewedTwice(s.reviews, userId, OfInstructor(instructorId))
    ensures r.Ok? ==>
      var x := r.value.value;
      var t := r.value.store;
      && x == Review(s.nextReviewId, userId, OfInstructor(instructorId), d.rating, d.comment, now)
      && t.reviews == s.reviews + [x] && t.nextReviewId == s.nextReviewId + 1
      && instructorId in s.instructors && instructorId in t.instructors
      && t.instructors == s.instructors[instructorId := s.instructors[instructorId].(rating := t.instructors[instructorId].rating)]
      && t.instructors[instructorId].rating == InstructorService.DerivedRating(t.reviews, instructorId)
      && t.users == s.users && t.courses == s.courses
  {
    var _ :- UserService.FindById(s, userId);
    var _ :- InstructorService.GetInstructorById(s, instructorId);
    var found :- FindByUserAndInstructor(s.reviews, userId, instructorId);
    if found.Some? then
      Err(IllegalState("User has already reviewed this instructor"))
    else
      var x := Review(s.nextReviewId, userId, OfInstructor(instructorId), d.rating, d.comment, now);
      var c := InstructorService.UpdateInstructorRating(Saved(s, x), instructorId).value;
      Ok(Committed(x, c.store))
  }

  /** The rating stored by a new instructor review is the rounded mean of the
      instructor's earlier ratings together with the new one. */
  lemma CreateInstructorReviewRating(s: Store, now: int, d: ReviewDetails, userId: Id, instructorId: Id)
    requires CreateInstructorReview(s, now, d, userId, instructorId).Ok?
    ensures
      var t := CreateInstructorReview(s, now, d, userId, instructorId).value.store;
      t.instructors[instructorId].rating ==
        Ratings.RoundedRating(RatingsOf(FindByInstructor(s.reviews, instructorId)) + [d.rating])
  {
    var x := CreateInstructorReview(s, now, d, userId, instructorId).value.value;
    DerivedRatingAppend(s.reviews, x, instructorId);
  }

  /** Appending a review changes only the derived rating of its own instructor,
      which then takes the new rating into account. */
  lemma DerivedRatingAppend(rs: seq<Review>, x: Review, k: Id)
    ensures InstructorService.DerivedRating(rs + [x], k) ==
      if x.subject == OfInstructor(k) then Ratings.RoundedRating(RatingsOf(FindByInstructor(rs, k)) + [x.rating])
      else InstructorService.DerivedRating(rs, k)
  {
    FilterAppend(rs, x, AboutInstructor(k));
    var mine := FindByInstructor(rs, k);
    if x.subject == OfInstructor(k) {
      assert FindByInstructor(rs + [x], k) == mine + [x];
      RatingsOfAppend(mine, [x]);
      assert RatingsOf([x]) == [x.rating];
    } else {
      assert FindByInstructor(rs + [x], k) == mine;
    }
  }

  /** Replacing or removing a review of another subject leaves an instructor's
      derived rating unchanged. */
  lemma DerivedRatingSplice(rs: seq<Review>, i: nat, mid: seq<Review>, k: Id)
    requires i < |rs| && rs[i].subject != OfInstructor(k)
    requires forall y :: y in mid ==> y.subject != OfInstructor(k)
    ensures InstructorService.DerivedRating(rs[..i] + mid + rs[i + 1..], k) == InstructorService.DerivedRating(rs, k)
  {
    FilterSplice(rs, i, mid, AboutInstructor(k));
  }

  /** `getReviewById`: the position of the review in the table. */
  function ReviewIndex(s: Store, id: Id): (r: Result<nat, Error>)
    ensures r.Ok? <==> exists i :: 0 <= i < |s.reviews| && s.reviews[i].id == id
    ensures r.Ok? ==> r.value < |s.reviews| && s.reviews[r.value].id == id
    ensures r.Err? ==> r.error == NotFound("Review", "id")
  {
    match IndexOf(s.reviews, id)
    case Some(i) => Ok(i)
    case None => Err(NotFound("Review", "id"))
  }

  /** `getReviewById`. */
  function GetReviewById(s: Store, id: Id): (r: Result<Review, Error>)
    ensures r.Ok? <==> exists i :: 0 <= i < |s.reviews| && s.reviews[i].id == id
    ensures r.Ok? ==> r.value in s.reviews && r.value.id == id
    ensures r.Err? ==> r.error == NotFound("Review", "id")
  {
    var i :- ReviewIndex(s, id);
    Ok(s.reviews[i])
  }

  /** `getReviewByUserAndCourse`. */
  function GetReviewByUserAndCourse(s: Store, userId: Id, courseId: Id): (r: Result<Review, Error>)
    ensures r.Ok? <==> Reviewed(s.reviews, userId, OfCourse(courseId)) && !ReviewedTwice(s.reviews, userId, OfCourse(courseId))
    ensures r.Ok? ==> r.value in s.reviews && r.value.userId == userId && r.value.subject == OfCourse(courseId)
    ensures r == Err(NotFound("Review", "user and course")) <==> !Reviewed(s.reviews, userId, OfCourse(courseId))
    ensures r == Err(NonUniqueResult("Review")) <==> ReviewedTwice(s.reviews, userId, OfCourse(courseId))
  {
    var found :- FindByUserAndCourse(s.reviews, userId, courseId);
    match found
    case Some(x) => Ok(x)
    case None => Err(NotFound("Review", "user and course"))
  }

  /** `getReviewByUserAndInstructor`. */
  function GetReviewByUserAndInstructor(s: Store, userId: Id, instructorId: Id): (r: Result<Review, Error>)
    ensures r.Ok? <==> Reviewed(s.reviews, userId, OfInstructor(instructorId)) && !ReviewedTwice(s.reviews, userId, OfInstructor(instructorId))
    ensures r.Ok? ==> r.value in s.reviews && r.value.userId == userId && r.value.subject == OfInstructor(instructorId)
    ensures r == Err(NotFound("Review", "user and instructor")) <==> !Reviewed(s.reviews, userId, OfInstructor(instructorId))
    ensures r == Err(NonUniqueResult("Review")) <==> ReviewedTwice(s.reviews, userId, OfInstructor(instructorId))
  {
    var found :- FindByUserAndInstructor(s.reviews, userId, instructorId);
    match found
    case Some(x) => Ok(x)
    case None => Err(NotFound("Review", "user and instructor"))
  }

  /** The instructor an instructor review names still has a profile, so its
      rating can be recomputed; a course review needs nothing. */
  predicate RatingTargetExists(s: Store, subject: Subject) {
    subject.OfInstructor? ==> subject.instructorId in s.instructors
  }

  /** `updateReview`: copies rating and comment only (author, subject and
      creation time are kept); an instructor review then has its
      instructor's rating recomputed, in the same transaction. */
  function UpdateReview(s: Store, id: Id, d: ReviewDetails): (r: Result<Committed<Review>, Error>)
    ensures ReviewIndex(s, id).Ok? ==>
      (r.Ok? <==> RatingTargetExists(s, s.reviews[ReviewIndex(s, id).value].subject))
    ensures ReviewIndex(s, id).Ok? && r.Err? ==> r.error == NotFound("Instructor", "id")
    ensures (forall i :: 0 <= i < |s.reviews| ==> s.reviews[i].id != id) ==> r == Err(NotFound("Review", "id"))
    ensures r.Ok? ==>
      var x := r.value.value;
      var t := r.value.store;
      exists i :: 0 <= i < |s.reviews| && s.reviews[i].id == id
        && x == s.reviews[i].(rating := d.rating, comment := d.comment)
        && t.reviews == s.reviews[i := x]
        && t.users == s.users && t.courses == s.courses && t.nextReviewId == s.nextReviewId
        && (x.subject.OfCourse? ==> t.instructors == s.instructors)
        && (x.subject.OfInstructor? ==>
              var k := x.subject.instructorId;
              && k in s.instructors
              && t.instructors == s.instructors[k := s.instructors[k].(rating := InstructorService.DerivedRating(t.reviews, k))])
  {
    var i :- ReviewIndex(s, id);
    var x := s.reviews[i].(rating := d.rating, comment := d.comment);
    var saved := s.(reviews := s.reviews[i := x]);
    match x.subject
    case OfCourse(_) => Ok(Committed(x, saved))
    case OfInstructor(k) =>
      var c :- InstructorService.UpdateInstructorRating(saved, k);
      Ok(Committed(x, c.store))
  }

  /** `deleteReview`: removes the review and, for an instructor review,
      recomputes that instructor's rating from the remaining reviews. */
  function DeleteReview(s: Store, id: Id): (r: Result<Store, Error>)
    ensures ReviewIndex(s, id).Ok? ==>
      (r.Ok? <==> RatingTargetExists(s, s.reviews[ReviewIndex(s, id).value].subject))
    ensures ReviewIndex(s, id).Ok? && r.Err? ==> r.error == NotFound("Instructor", "id")
    ensures (forall i :: 0 <= i < |s.reviews| ==> s.reviews[i].id != id) ==> r == Err(NotFound("Review", "id"))
    ensures r.Ok? ==>
      var t := r.value;
      exists i :: 0 <= i < |s.reviews| && s.reviews[i].id == id
        && t.reviews == s.reviews[..i] + s.reviews[i + 1..]
        && t.users == s.users && t.courses == s.courses && t.nextReviewId == s.nextReviewId
        && (s.reviews[i].subject.OfCourse? ==> t.instructors == s.instructors)
        && (s.reviews[i].subject.OfInstructor? ==>
              var k := s.reviews[i].subject.instructorId;
              && k in s.instructors
              && t.instructors == s.instructors[k := s.instructors[k].(rating := InstructorService.DerivedRating(t.reviews, k))])
  {
    var i :- ReviewIndex(s, id);
    var x := s.reviews[i];
    var removed := s.(reviews := RemoveAt(s.reviews, i));
    match x.subject
    case OfCourse(_) => Ok(removed)
    case OfInstructor(k) =>
      var c :- InstructorService.UpdateInstructorRating(removed, k);
      Ok(c.store)
  }

  /** `calculateAverageRatingForCourse`: 0 with no reviews, else the exact mean. */
  function AverageRatingForCourse(s: Store, courseId: Id): (r: Result<real, Error>)
    ensures r.Ok? <==> courseId in s.courses
    ensures r.Err? ==> r.error == NotFound("Course", "id")
    ensures r.Ok? ==>
      var rs := RatingsOf(FindByCourse(s.reviews, courseId));
      && (|rs| == 0 ==> r.value == 0.0)
      && (|rs| > 0 ==> r.value * (|rs| as real) == Ratings.Sum(rs) as real)
  {
    var _ :- CourseService.GetCourseById(s, courseId);
    Ok(Ratings.Mean(RatingsOf(FindByCourse(s.reviews, courseId))))
  }

  /** `calculateAverageRatingForInstructor`: 0 with no reviews, else the exact mean. */
  function AverageRatingForInstructor(s: Store, instructorId: Id): (r: Result<real, Error>)
    ensures r.Ok? <==> instructorId in s.instructors
    ensures r.Err? ==> r.error == NotFound("Instructor", "id")
    ensures r.Ok? ==>
      var rs := RatingsOf(FindByInstructor(s.reviews, instructorId));
      && (|rs| == 0 ==> r.value == 0.0)
      && (|rs| > 0 ==> r.value * (|rs| as real) == Ratings.Sum(rs) as real)
  {
    var _ :- InstructorService.GetInstructorById(s, instructorId);
    Ok(Ratings.Mean(RatingsOf(FindByInstructor(s.reviews, instructorId))))
  }
}
