/** The derived queries of the review repository, over the review table kept
    in insertion order. */
module ReviewRepository {
  import opened Wrappers
  import opened Domain

  /** The rows a derived query selects, in table order. */
  function Filter(rs: seq<Review>, p: Review -> bool): (r: seq<Review>)
    ensures forall x :: x in r <==> x in rs && p(x)
    ensures |r| <= |rs|
  {
    if |rs| == 0 then []
    else Filter(rs[..|rs| - 1], p) + (if p(rs[|rs| - 1]) then [rs[|rs| - 1]] else [])
  }

  /** An `Optional`-returning derived query over the review table: empty when
      no row matches, the matching row when exactly one does, and a
      non-unique-result error when two rows match. */
  function Single(rs: seq<Review>, p: Review -> bool): (r: Result<Option<Review>, Error>)
    ensures r == Ok(None) <==> forall i :: 0 <= i < |rs| ==> !p(rs[i])
    ensures r.Err? <==> exists i, j :: 0 <= i < j < |rs| && p(rs[i]) && p(rs[j])
    ensures r.Err? ==> r.error == NonUniqueResult("Review")
    ensures r.Ok? && r.value.Some? ==>
      exists i :: 0 <= i < |rs| && rs[i] == r.value.value && p(rs[i]) && forall j :: 0 <= j < |rs| && p(rs[j]) ==> j == i
  {
    if |rs| == 0 then Ok(None)
    else
      var init := rs[..|rs| - 1];
      var last := rs[|rs| - 1];
      assert forall i :: 0 <= i < |init| ==> init[i] == rs[i];
      var rest := Single(init, p);
      if !p(last) then rest
      else if rest == Ok(None) then Ok(Some(last))
      else
        assert exists i :: 0 <= i < |init| && p(init[i]);
        Err(NonUniqueResult("Review"))
  }

  /** Some row records a review by the user of the subject. */
  predicate Reviewed(rs: seq<Review>, userId: Id, subject: Subject) {
    exists i :: 0 <= i < |rs| && rs[i].userId == userId && rs[i].subject == subject
  }

  /** Two rows record a review by the user of the subject. */
  predicate ReviewedTwice(rs: seq<Review>, userId: Id, subject: Subject) {
    exists i, j :: 0 <= i < j < |rs| && rs[i].userId == userId && rs[i].subject == subject
                                     && rs[j].userId == userId && rs[j].subject == subject
  }

  /** `findByCourse`. */
  function FindByCourse(rs: seq<Review>, courseId: Id): (r: seq<Review>)
    ensures forall x :: x in r <==> x in rs && x.subject == OfCourse(courseId)
  {
    Filter(rs, (x: Review) => x.subject == OfCourse(courseId))
  }

  /** The row selector of `findByInstructor`. */
  function AboutInstructor(instructorId: Id): Review -> bool {
    (x: Review) => x.subject == OfInstructor(instructorId)
  }

  /** `findByInstructor`. */
  function FindByInstructor(rs: seq<Review>, instructorId: Id): (r: seq<Review>)
    ensures forall x :: x in r <==> x in rs && x.subject == OfInstructor(instructorId)
  {
    Filter(rs, AboutInstructor(instructorId))
  }

  /** `findByUser`. */
  function FindByUser(rs: seq<Review>, userId: Id): (r: seq<Review>)
    ensures forall x :: x in r <==> x in rs && x.userId == userId
  {
    Filter(rs, (x: Review) => x.userId == userId)
  }

  /** `findByRating`. */
  function FindByRating(rs: seq<Review>, rating: int): (r: seq<Review>)
    ensures forall x :: x in r <==> x in rs && x.rating == rating
  {
    Filter(rs, (x: Review) => x.rating == rating)
  }

  /** `findByUserAndCourse`: empty exactly when that user has not reviewed
      that course, and a non-unique-result error when two rows record it. */
  function FindByUserAndCourse(rs: seq<Review>, userId: Id, courseId: Id): (r: Result<Option<Review>, Error>)
    ensures r == Ok(None) <==> !Reviewed(rs, userId, OfCourse(courseId))
    ensures r.Err? <==> ReviewedTwice(rs, userId, OfCourse(courseId))
    ensures r.Err? ==> r.error == NonUniqueResult("Review")
    ensures r.Ok? && r.value.Some? ==>
      && r.value.value in rs && r.value.value.userId == userId && r.value.value.subject == OfCourse(courseId)
      && !ReviewedTwice(rs, userId, OfCourse(courseId))
  {
    Single(rs, (x: Review) => x.userId == userId && x.subject == OfCourse(courseId))
  }

  /** `findByUserAndInstructor`: empty exactly when that user has not reviewed
      that instructor, and a non-unique-result error when two rows record it. */
  function FindByUserAndInstructor(rs: seq<Review>, userId: Id, instructorId: Id): (r: Result<Option<Review>, Error>)
    ensures r == Ok(None) <==> !Reviewed(rs, userId, OfInstructor(instructorId))
    ensures r.Err? <==> ReviewedTwice(rs, userId, OfInstructor(instructorId))
    ensures r.Err? ==> r.error == NonUniqueResult("Review")
    ensures r.Ok? && r.value.Some? ==>
      && r.value.value in rs && r.value.value.userId == userId && r.value.value.subject == OfInstructor(instructorId)
      && !ReviewedTwice(rs, userId, OfInstructor(instructorId))
  {
    Single(rs, (x: Review) => x.userId == userId && x.subject == OfInstructor(instructorId))
  }

  /** On a table with one review per user and subject, the two lookups never
      fail with the non-unique error. */
  lemma OneReviewNeverTwice(rs: seq<Review>, userId: Id, courseId: Id, instructorId: Id)
    requires OneReviewPerSubject(rs)
    ensures FindByUserAndCourse(rs, userId, courseId).Ok?
    ensures FindByUserAndInstructor(rs, userId, instructorId).Ok?
  {
  }

  /** The position of the row with primary key `id` (`findById`). */
  function IndexOf(rs: seq<Review>, id: Id): (r: Option<nat>)
    ensures r.Some? ==> r.value < |rs| && rs[r.value].id == id
    ensures r.None? <==> forall i :: 0 <= i < |rs| ==> rs[i].id != id
  {
    if |rs| == 0 then None
    else if rs[|rs| - 1].id == id then Some(|rs| - 1)
    else IndexOf(rs[..|rs| - 1], id)
  }

  /** The `rating` column of the rows, as `mapToInt(Review::getRating)`. */
  function RatingsOf(rs: seq<Review>): (xs: seq<int>)
    ensures |xs| == |rs|
    ensures forall i :: 0 <= i < |rs| ==> xs[i] == rs[i].rating
  {
    seq(|rs|, i requires 0 <= i < |rs| => rs[i].rating)
  }

  /** The table without the row at position i (`delete`). */
  function RemoveAt(rs: seq<Review>, i: nat): (r: seq<Review>)
    requires i < |rs|
    ensures |r| == |rs| - 1
    ensures forall j :: 0 <= j < i ==> r[j] == rs[j]
    ensures forall j :: i <= j < |r| ==> r[j] == rs[j + 1]
  {
    rs[..i] + rs[i + 1..]
  }

  lemma {:induction false} FilterConcat(a: seq<Review>, b: seq<Review>, p: Review -> bool)
    ensures Filter(a + b, p) == Filter(a, p) + Filter(b, p)
    decreases |b|
  {
    if |b| == 0 {
      assert a + b == a;
    } else {
      assert (a + b)[..|a + b| - 1] == a + b[..|b| - 1];
      FilterConcat(a, b[..|b| - 1], p);
    }
  }

  /** Appending a row leaves every query that does not select it unchanged,
      and extends every query that does by exactly that row. */
  lemma FilterAppend(rs: seq<Review>, x: Review, p: Review -> bool)
    ensures Filter(rs + [x], p) == Filter(rs, p) + (if p(x) then [x] else [])
  {
    assert (rs + [x])[..|rs|] == rs;
  }

  /** Replacing or removing a row the query does not select leaves it unchanged. */
  lemma FilterSplice(rs: seq<Review>, i: nat, mid: seq<Review>, p: Review -> bool)
    requires i < |rs|
    requires !p(rs[i])
    requires forall x :: x in mid ==> !p(x)
    ensures Filter(rs[..i] + mid + rs[i + 1..], p) == Filter(rs, p)
  {
    assert rs == rs[..i] + [rs[i]] + rs[i + 1..];
    FilterConcat(rs[..i] + [rs[i]], rs[i + 1..], p);
    FilterConcat(rs[..i], [rs[i]], p);
    FilterConcat(rs[..i] + mid, rs[i + 1..], p);
    FilterConcat(rs[..i], mid, p);
    FilterNone(mid, p);
    FilterNone([rs[i]], p);
  }

  lemma {:induction false} FilterNone(rs: seq<Review>, p: Review -> bool)
    requires forall x :: x in rs ==> !p(x)
    ensures Filter(rs, p) == []
  {
    if |rs| > 0 {
      assert forall x :: x in rs[..|rs| - 1] ==> x in rs;
      FilterNone(rs[..|rs| - 1], p);
    }
  }

  /** The rating column of concatenated rows is the concatenation of their columns. */
  lemma RatingsOfAppend(a: seq<Review>, b: seq<Review>)
    ensures RatingsOf(a + b) == RatingsOf(a) + RatingsOf(b)
  {
  }
}
