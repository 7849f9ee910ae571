/** The derived queries of the instructor repository. */
module InstructorRepository {
  import opened Wrappers
  import opened Domain

  /** `findByExpertise`. */
  function FindByExpertise(m: map<Id, Instructor>, expertise: string): (r: set<Id>)
    ensures r <= m.Keys
    ensures forall k :: k in r <==> k in m && m[k].expertise == expertise
  {
    set k | k in m && m[k].expertise == expertise
  }

  /** `findByRatingGreaterThanEqual`. */
  function FindByRatingGreaterThanEqual(m: map<Id, Instructor>, minRating: real): (r: set<Id>)
    ensures r <= m.Keys
    ensures forall k :: k in r <==> k in m && m[k].rating >= minRating
  {
    set k | k in m && m[k].rating >= minRating
  }

  /** A higher minimum rating selects a subset. */
  lemma MinRatingMonotone(m: map<Id, Instructor>, lo: real, hi: real)
    requires lo <= hi
    ensures FindByRatingGreaterThanEqual(m, hi) <= FindByRatingGreaterThanEqual(m, lo)
  {
  }

  /** `findByUser`: an `Optional` query, so no match is empty, one match is
      that instructor, and several matches raise a non-unique-result error. */
  function FindByUser(m: map<Id, Instructor>, userId: Id): (r: Result<Option<Id>, Error>)
    ensures r == Ok(None) <==> forall k :: k in m ==> m[k].userId != userId
    ensures r.Ok? && r.value.Some? ==>
      && r.value.value in m
      && m[r.value.value].userId == userId
      && forall k :: k in m && m[k].userId == userId ==> k == r.value.value
    ensures r.Err? <==> exists a, b :: a in m && b in m && a != b && m[a].userId == userId && m[b].userId == userId
    ensures r.Err? ==> r.error == NonUniqueResult("Instructor")
  {
    SingleMatch(m, (i: Instructor) => i.userId == userId, "Instructor")
  }
}
