/** The review endpoints under /api/reviews: who may write a review, and the
    author-or-admin check that guards editing and deleting one. */
module ReviewController {
  import opened Wrappers
  import opened Domain
  import opened ReviewRepository
  import opened SecurityConfig
  import Http
  import ReviewService
  import UserService
  import CourseService
  import InstructorService
  import Ratings

  /** `hasRole('LEARNER') or hasRole('ADMIN')`, the gate on creating reviews. */
  predicate MayWriteReviews(p: Principal) {
    HasRole(p, "LEARNER") || HasRole(p, "ADMIN")
  }

  /** The author-or-admin check of the update and delete bodies. */
  predicate MayEdit(p: Principal, x: Review) {
    x.userId == p.id || IsAdmin(p)
  }

  /** POST /course/{courseId}: the author is always the caller. */
  function CreateCourseReview(env: Http.Env, p: Principal, courseId: Id, body: ReviewService.ReviewDetails, s: Store): (x: Http.Exchange<Review>)
    ensures x.response.Denied? <==> !MayWriteReviews(p)
    ensures !x.response.Ok? ==> x.store == s
    ensures x.response.Ok? ==>
      && x.response.body.userId == p.id
      && x.response.body.subject == OfCourse(courseId)
      && x.response.body == Review(s.nextReviewId, p.id, OfCourse(courseId), body.rating, body.comment, env.now)
      && x.store.reviews == s.reviews + [x.response.body]
      && x.store == s.(reviews := x.store.reviews, nextReviewId := s.nextReviewId + 1)
    ensures x.response.Ok? ==>
      ReviewService.CreateCourseReview(s, env.now, body, p.id, courseId) == Ok(Committed(x.response.body, x.store))
    ensures MayWriteReviews(p) && p.id !in s.users ==> x.response == Http.Failed(NotFound("User", "id"))
    ensures MayWriteReviews(p) ==>
      (x.response.Ok? <==> p.id in s.users && courseId in s.courses && !Reviewed(s.reviews, p.id, OfCourse(courseId)))
    ensures (MayWriteReviews(p) && p.id in s.users && courseId in s.courses && Reviewed(s.reviews, p.id, OfCourse(courseId)))
      ==> x.response.Failed?
  {
    if !MayWriteReviews(p) then Http.Exchange(Http.Denied, s)
    else Http.Commit(s, ReviewService.CreateCourseReview(s, env.now, body, p.id, courseId))
  }

  /** POST /instructor/{instructorId}: the author is always the caller, and
      the instructor's stored rating is recomputed with the new review. */
  function CreateInstructorReview(env: Http.Env, p: Principal, instructorId: Id, body: ReviewService.ReviewDetails, s: Store): (x: Http.Exchange<Review>)
    ensures x.response.Denied? <==> !MayWriteReviews(p)
    ensures !x.response.Ok? ==> x.store == s
    ensures x.response.Ok? ==>
      && x.response.body.userId == p.id
      && x.response.body.subject == OfInstructor(instructorId)
      && x.store.reviews == s.reviews + [x.response.body]
      && instructorId in x.store.instructors
      && x.store.instructors[instructorId].rating == InstructorService.DerivedRating(x.store.reviews, instructorId)
      && x.response.body == Review(s.nextReviewId, p.id, OfInstructor(instructorId), body.rating, body.comment, env.now)
      && instructorId in s.instructors
      && x.store == s.(reviews := x.store.reviews, nextReviewId := s.nextReviewId + 1,
                       instructors := s.instructors[instructorId := x.store.instructors[instructorId]])
      && x.store.instructors[instructorId] == s.instructors[instructorId].(rating := x.store.instructors[instructorId].rating)
    ensures x.response.Ok? ==>
      ReviewService.CreateInstructorReview(s, env.now, body, p.id, instructorId) == Ok(Committed(x.response.body, x.store))
    ensures MayWriteReviews(p) && p.id !in s.users ==> x.response == Http.Failed(NotFound("User", "id"))
    ensures MayWriteReviews(p) ==>
      (x.response.Ok? <==>
        p.id in s.users && instructorId in s.instructors && !Reviewed(s.reviews, p.id, OfInstructor(instructorId)))
    ensures (MayWriteReviews(p) && p.id in s.users && instructorId in s.instructors
             && Reviewed(s.reviews, p.id, OfInstructor(instructorId)))
      ==> x.response.Failed?
  {
    if !MayWriteReviews(p) then Http.Exchange(Http.Denied, s)
    else Http.Commit(s, ReviewService.CreateInstructorReview(s, env.now, body, p.id, instructorId))
  }

  /** GET /{id}. */
  function GetReviewById(s: Store, id: Id): (r: Http.Response<Review>)
    ensures r.Ok? <==> exists i :: 0 <= i < |s.reviews| && s.reviews[i].id == id
    ensures r.Ok? ==> r.body in s.reviews && r.body.id == id
    ensures !r.Ok? ==> r == Http.Failed(NotFound("Review", "id"))
  {
    Http.Answer(ReviewService.GetReviewById(s, id))
  }

  /** GET /course/{courseId}: an unknown course is not found, a known one
      lists exactly its reviews. */
  function GetReviewsByCourse(s: Store, courseId: Id): (r: Http.Response<seq<Review>>)
    ensures r.Ok? <==> courseId in s.courses
    ensures !r.Ok? ==> r == Http.Failed(NotFound("Course", "id"))
    ensures r.Ok? ==> forall x :: x in r.body <==> x in s.reviews && x.subject == OfCourse(courseId)
  {
    match CourseService.GetCourseById(s, courseId)
    case Err(e) => Http.Failed(e)
    case Ok(_) => Http.Ok(FindByCourse(s.reviews, courseId))
  }

  /** GET /instructor/{instructorId}. */
  function GetReviewsByInstructor(s: Store, instructorId: Id): (r: Http.Response<seq<Review>>)
    ensures r.Ok? <==> instructorId in s.instructors
    ensures !r.Ok? ==> r == Http.Failed(NotFound("Instructor", "id"))
    ensures r.Ok? ==> forall x :: x in r.body <==> x in s.reviews && x.subject == OfInstructor(instructorId)
  {
    match InstructorService.GetInstructorById(s, instructorId)
    case Err(e) => Http.Failed(e)
    case Ok(_) => Http.Ok(FindByInstructor(s.reviews, instructorId))
  }

  /** GET /user: the caller's own reviews, and nobody else's. */
  function GetReviewsByUser(p: Principal, s: Store): (r: Http.Response<seq<Review>>)
    ensures r.Ok? <==> p.id in s.users
    ensures !r.Ok? ==> r == Http.Failed(NotFound("User", "id"))
    ensures r.Ok? ==> forall x :: x in r.body <==> x in s.reviews && x.userId == p.id
  {
    match UserService.FindById(s, p.id)
    case Err(e) => Http.Failed(e)
    case Ok(_) => Http.Ok(FindByUser(s.reviews, p.id))
  }

  /** GET /rating/{rating}. */
  function GetReviewsByRating(s: Store, rating: int): (r: Http.Response<seq<Review>>)
    ensures r.Ok?
    ensures forall x :: x in r.body <==> x in s.reviews && x.rating == rating
  {
    Http.Ok(FindByRating(s.reviews, rating))
  }

  /** GET /course/{courseId}/average. */
  function GetAverageRatingForCourse(s: Store, courseId: Id): (r: Http.Response<real>)
    ensures r.Ok? <==> courseId in s.courses
    ensures !r.Ok? ==> r == Http.Failed(NotFound("Course", "id"))
    ensures r.Ok? && |FindByCourse(s.reviews, courseId)| == 0 ==> r.body == 0.0
    ensures r.Ok? ==> r.body == Ratings.Mean(RatingsOf(FindByCourse(s.reviews, courseId)))
  {
    Http.Answer(ReviewService.AverageRatingForCourse(s, courseId))
  }

  /** GET /instructor/{instructorId}/average. */
  function GetAverageRatingForInstructor(s: Store, instructorId: Id): (r: Http.Response<real>)
    ensures r.Ok? <==> instructorId in s.instructors
    ensures !r.Ok? ==> r == Http.Failed(NotFound("Instructor", "id"))
    ensures r.Ok? && |FindByInstructor(s.reviews, instructorId)| == 0 ==> r.body == 0.0
    ensures r.Ok? ==> r.body == Ratings.Mean(RatingsOf(FindByInstructor(s.reviews, instructorId)))
  {
    Http.Answer(ReviewService.AverageRatingForInstructor(s, instructorId))
  }

  /** PUT /{id}: the review is looked up first, so a missing review is not
      found for every caller; an existing one may be changed only by its
      author or an admin, and anyone else gets 403 with nothing written. */
  function UpdateReview(p: Principal, id: Id, body: ReviewService.ReviewDetails, s: Store): (x: Http.Exchange<Review>)
    ensures (forall i :: 0 <= i < |s.reviews| ==> s.reviews[i].id != id) ==> x == Http.Exchange(Http.Failed(NotFound("Review", "id")), s)
    ensures !x.response.Ok? ==> x.store == s
    ensures !x.response.Denied?
    ensures x.response.Forbidden? ==> Http.StatusCode(x.response) == 403
    ensures x.response.Ok? ==>
      && MayEdit(p, x.response.body)
      && x.response.body.id == id
      && x.response.body.rating == body.rating
      && x.response.body.comment == body.comment
      && ReviewService.UpdateReview(s, id, body) == Ok(Committed(x.response.body, x.store))
    ensures ReviewService.ReviewIndex(s, id).Ok? ==>
      var target := s.reviews[ReviewService.ReviewIndex(s, id).value];
      && (x.response.Forbidden? <==> !MayEdit(p, target))
      && (x.response.Ok? <==> MayEdit(p, target) && ReviewService.RatingTargetExists(s, target.subject))
  {
    match ReviewService.GetReviewById(s, id)
    case Err(e) => Http.Exchange(Http.Failed(e), s)
    case Ok(existing) =>
      if !MayEdit(p, existing) then Http.Exchange(Http.Forbidden, s)
      else Http.Commit(s, ReviewService.UpdateReview(s, id, body))
  }

  /** DELETE /{id}: the same lookup-then-ownership order as an update. */
  function DeleteReview(p: Principal, id: Id, s: Store): (x: Http.Exchange<Http.Empty>)
    ensures (forall i :: 0 <= i < |s.reviews| ==> s.reviews[i].id != id) ==> x == Http.Exchange(Http.Failed(NotFound("Review", "id")), s)
    ensures !x.response.Ok? ==> x.store == s
    ensures !x.response.Denied?
    ensures x.response.Ok? ==> |x.store.reviews| == |s.reviews| - 1
    ensures x.response.Ok? ==> ReviewService.DeleteReview(s, id) == Ok(x.store)
    ensures ReviewService.ReviewIndex(s, id).Ok? ==>
      var gone := s.reviews[ReviewService.ReviewIndex(s, id).value];
      && (x.response.Forbidden? <==> !MayEdit(p, gone))
      && (x.response.Ok? <==> MayEdit(p, gone) && ReviewService.RatingTargetExists(s, gone.subject))
      && (x.response.Ok? ==> x.store.reviews == RemoveAt(s.reviews, ReviewService.ReviewIndex(s, id).value))
  {
    match ReviewService.GetReviewById(s, id)
    case Err(e) => Http.Exchange(Http.Failed(e), s)
    case Ok(existing) =>
      if !MayEdit(p, existing) then Http.Exchange(Http.Forbidden, s)
      else Http.CommitEmpty(s, ReviewService.DeleteReview(s, id))
  }

  /** With distinct review ids, the 403 of an update or a delete is answered
      exactly when the review exists, the caller did not write it and the
      caller is not an admin. */
  lemma EditForbiddenExactly(p: Principal, id: Id, body: ReviewService.ReviewDetails, s: Store)
    requires ReviewIdsDistinct(s.reviews)
    ensures UpdateReview(p, id, body, s).response.Forbidden? <==>
      exists i :: 0 <= i < |s.reviews| && s.reviews[i].id == id && s.reviews[i].userId != p.id && !IsAdmin(p)
    ensures DeleteReview(p, id, s).response.Forbidden? <==>
      exists i :: 0 <= i < |s.reviews| && s.reviews[i].id == id && s.reviews[i].userId != p.id && !IsAdmin(p)
  {
    var r := ReviewService.GetReviewById(s, id);
    if r.Ok? {
      var j :| 0 <= j < |s.reviews| && s.reviews[j].id == id;
      var k :| 0 <= k < |s.reviews| && s.reviews[k] == r.value;
      assert j == k;
    }
  }

  /** An admin is never refused an edit, and neither is a review's author. */
  lemma AuthorOrAdminNeverForbidden(p: Principal, id: Id, body: ReviewService.ReviewDetails, s: Store)
    requires ReviewIdsDistinct(s.reviews)
    requires IsAdmin(p) || forall i :: 0 <= i < |s.reviews| && s.reviews[i].id == id ==> s.reviews[i].userId == p.id
    ensures !UpdateReview(p, id, body, s).response.Forbidden?
    ensures !DeleteReview(p, id, s).response.Forbidden?
  {
    EditForbiddenExactly(p, id, body, s);
  }
}
