/** The store invariants the review operations preserve: every instructor's
    stored rating stays equal to the rating derived from its reviews, and the
    review table keeps distinct ids and at most one review per user and subject. */
module ReviewInvariants {
  import opened Wrappers
  import opened Domain
  import opened ReviewRepository
  import opened InstructorService
  import opened ReviewService

  /** Saving a review with a fresh id, for a user and subject not yet
      reviewed together, keeps the store well formed. */
  lemma SavedPreservesWf(s: Store, x: Review)
    requires Wf(s) && x.id == s.nextReviewId
    requires forall i :: 0 <= i < |s.reviews| ==> s.reviews[i].userId != x.userId || s.reviews[i].subject != x.subject
    ensures Wf(Saved(s, x))
  {
    var t := Saved(s, x);
    assert forall i :: 0 <= i < |s.reviews| ==> t.reviews[i] == s.reviews[i];
    assert t.reviews[|s.reviews|] == x;
  }

  lemma CreateCourseReviewPreserves(s: Store, now: int, d: ReviewDetails, userId: Id, courseId: Id)
    requires CreateCourseReview(s, now, d, userId, courseId).Ok?
    ensures RatingsConsistent(s) ==> RatingsConsistent(CreateCourseReview(s, now, d, userId, courseId).value.store)
    ensures Wf(s) ==> Wf(CreateCourseReview(s, now, d, userId, courseId).value.store)
  {
    var c := CreateCourseReview(s, now, d, userId, courseId).value;
    forall k | k in c.store.instructors
      ensures DerivedRating(c.store.reviews, k) == DerivedRating(s.reviews, k)
    {
      DerivedRatingAppend(s.reviews, c.value, k);
    }
    if Wf(s) {
      SavedPreservesWf(s, c.value);
    }
  }

  lemma CreateInstructorReviewPreserves(s: Store, now: int, d: ReviewDetails, userId: Id, instructorId: Id)
    requires CreateInstructorReview(s, now, d, userId, instructorId).Ok?
    ensures RatingsConsistent(s) ==> RatingsConsistent(CreateInstructorReview(s, now, d, userId, instructorId).value.store)
    ensures Wf(s) ==> Wf(CreateInstructorReview(s, now, d, userId, instructorId).value.store)
  {
    var c := CreateInstructorReview(s, now, d, userId, instructorId).value;
    var t := c.store;
    if RatingsConsistent(s) {
      forall k | k in t.instructors
        ensures t.instructors[k].rating == DerivedRating(t.reviews, k)
      {
        if k != instructorId {
          DerivedRatingAppend(s.reviews, c.value, k);
          assert t.instructors[k] == s.instructors[k];
        }
      }
    }
    if Wf(s) {
      SavedPreservesWf(s, c.value);
      UpdateInstructorRatingPreserves(Saved(s, c.value), instructorId);
    }
  }

  /** Changing only rating and comment at one position keeps ids, authors and
      subjects, hence the well-formedness of the review table. */
  lemma ReplacePreservesWf(s: Store, i: nat, x: Review)
    requires Wf(s) && i < |s.reviews|
    requires x.id == s.reviews[i].id && x.userId == s.reviews[i].userId && x.subject == s.reviews[i].subject
    ensures Wf(s.(reviews := s.reviews[i := x]))
  {
  }

  /** The position an update rewrote. */
  lemma UpdatedPosition(s: Store, id: Id, d: ReviewDetails) returns (i: nat)
    requires UpdateReview(s, id, d).Ok?
    ensures i < |s.reviews| && s.reviews[i].id == id
    ensures UpdateReview(s, id, d).value.value == s.reviews[i].(rating := d.rating, comment := d.comment)
    ensures UpdateReview(s, id, d).value.store.reviews == s.reviews[..i] + [UpdateReview(s, id, d).value.value] + s.reviews[i + 1..]
  {
    var c := UpdateReview(s, id, d).value;
    i :| 0 <= i < |s.reviews| && s.reviews[i].id == id
        && c.value == s.reviews[i].(rating := d.rating, comment := d.comment)
        && c.store.reviews == s.reviews[i := c.value];
    assert s.reviews[i := c.value] == s.reviews[..i] + [c.value] + s.reviews[i + 1..];
  }

  lemma UpdateReviewPreservesWf(s: Store, id: Id, d: ReviewDetails)
    requires Wf(s) && UpdateReview(s, id, d).Ok?
    ensures Wf(UpdateReview(s, id, d).value.store)
  {
    var c := UpdateReview(s, id, d).value;
    var i := UpdatedPosition(s, id, d);
    ReplacePreservesWf(s, i, c.value);
    assert s.reviews[i := c.value] == c.store.reviews;
  }

  lemma UpdateReviewPreservesRatings(s: Store, id: Id, d: ReviewDetails)
    requires RatingsConsistent(s) && UpdateReview(s, id, d).Ok?
    ensures RatingsConsistent(UpdateReview(s, id, d).value.store)
  {
    var c := UpdateReview(s, id, d).value;
    var i := UpdatedPosition(s, id, d);
    forall k | k in c.store.instructors
      ensures c.store.instructors[k].rating == DerivedRating(c.store.reviews, k)
    {
      if c.value.subject != OfInstructor(k) {
        DerivedRatingSplice(s.reviews, i, [c.value], k);
      }
    }
  }

  /** Removing one review keeps the review table well formed. */
  lemma RemovePreservesWf(s: Store, i: nat)
    requires Wf(s) && i < |s.reviews|
    ensures Wf(s.(reviews := s.reviews[..i] + s.reviews[i + 1..]))
  {
    var rs := s.reviews[..i] + s.reviews[i + 1..];
    assert forall j :: 0 <= j < |rs| ==> rs[j] == s.reviews[if j < i then j else j + 1];
  }

  /** The position a delete removed. */
  lemma DeletedPosition(s: Store, id: Id) returns (i: nat)
    requires DeleteReview(s, id).Ok?
    ensures i < |s.reviews| && s.reviews[i].id == id
    ensures DeleteReview(s, id).value.reviews == s.reviews[..i] + s.reviews[i + 1..]
    ensures forall k :: k in DeleteReview(s, id).value.instructors && s.reviews[i].subject != OfInstructor(k) ==>
      k in s.instructors && DeleteReview(s, id).value.instructors[k] == s.instructors[k]
    ensures forall k :: k in DeleteReview(s, id).value.instructors && s.reviews[i].subject == OfInstructor(k) ==>
      DeleteReview(s, id).value.instructors[k].rating == DerivedRating(DeleteReview(s, id).value.reviews, k)
  {
    var t := DeleteReview(s, id).value;
    i := ReviewIndex(s, id).value;
    var removed := s.(reviews := RemoveAt(s.reviews, i));
    assert removed.reviews == s.reviews[..i] + s.reviews[i + 1..];
    match s.reviews[i].subject
    case OfCourse(_) =>
      assert t == removed;
    case OfInstructor(k) =>
      assert t == InstructorService.UpdateInstructorRating(removed, k).value.store;
  }

  lemma DeleteReviewPreservesWf(s: Store, id: Id)
    requires Wf(s) && DeleteReview(s, id).Ok?
    ensures Wf(DeleteReview(s, id).value)
  {
    var i := DeletedPosition(s, id);
    RemovePreservesWf(s, i);
  }

  lemma DeleteReviewPreservesRatings(s: Store, id: Id)
    requires RatingsConsistent(s) && DeleteReview(s, id).Ok?
    ensures RatingsConsistent(DeleteReview(s, id).value)
  {
    var t := DeleteReview(s, id).value;
    var i := DeletedPosition(s, id);
    assert t.reviews == s.reviews[..i] + [] + s.reviews[i + 1..];
    forall k | k in t.instructors
      ensures t.instructors[k].rating == DerivedRating(t.reviews, k)
    {
      if s.reviews[i].subject != OfInstructor(k) {
        DerivedRatingSplice(s.reviews, i, [], k);
        assert t.instructors[k] == s.instructors[k];
      }
    }
  }
}
