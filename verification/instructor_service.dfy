/** Instructor profiles, and the stored rating that is recomputed from the
    instructor's reviews. */
module InstructorService {
  import opened Wrappers
  import opened Domain
  import Ratings
  import ReviewRepository
  import InstructorRepository
  import UserService

  /** The profile fields of a request body; a missing rating is `None`. */
  datatype InstructorDetails = InstructorDetails(bio: string, expertise: string, rating: Option<real>)

  /** The rating `updateInstructorRating` derives for instructor `k` from the
      review table: 0 with no reviews, else the mean rounded HALF_UP to one
      decimal. */
  function DerivedRating(reviews: seq<Review>, k: Id): (r: real)
    ensures (forall x :: x in reviews ==> x.subject != OfInstructor(k)) ==> r == 0.0
    ensures (10.0 * r).Floor as real == 10.0 * r
    ensures
      var xs := ReviewRepository.RatingsOf(ReviewRepository.FindByInstructor(reviews, k));
      |xs| > 0 ==> Ratings.IsHalfUp(10 * Ratings.Sum(xs), |xs|, (10.0 * r).Floor)
  {
    var found := ReviewRepository.FindByInstructor(reviews, k);
    assert |found| > 0 ==> found[0] in found;
    Ratings.RoundedRating(ReviewRepository.RatingsOf(found))
  }

  /** Every stored instructor rating equals the one derived from its reviews. */
  predicate RatingsConsistent(s: Store) {
    forall k :: k in s.instructors ==> s.instructors[k].rating == DerivedRating(s.reviews, k)
  }

  /** `createInstructor`: links the looked-up user, defaults a missing rating
      to 0 and keeps a provided one. */
  function CreateInstructor(s: Store, details: InstructorDetails, userId: Id): (r: Result<Committed<Id>, Error>)
    ensures r.Ok? <==> userId in s.users
    ensures r.Err? ==> r.error == NotFound("User", "id")
    ensures r.Ok? ==> r.value.value == s.nextInstructorId && r.value.store.nextInstructorId == s.nextInstructorId + 1
    ensures r.Ok? ==>
      var id := r.value.value;
      var t := r.value.store;
      && id in t.instructors
      && t.instructors[id] == Instructor(userId, details.bio, details.expertise,
                                         if details.rating.Some? then details.rating.value else 0.0)
      && (IdsFresh(s) ==> id !in s.instructors && t.instructors == s.instructors[id := t.instructors[id]])
      && t.users == s.users && t.courses == s.courses && t.reviews == s.reviews
  {
    var _ :- UserService.FindById(s, userId);
    var id: Id := s.nextInstructorId;
    var profile := Instructor(userId, details.bio, details.expertise, details.rating.GetOr(0.0));
    Ok(Committed(id, s.(instructors := s.instructors[id := profile], nextInstructorId := id + 1)))
  }

  /** A provided rating is stored as given, so a new profile need not agree
      with its (empty) review list. */
  lemma CreateInstructorMayStoreUnderivedRating()
    ensures
      var s := Store(map[1 := User("ada", "ada@x", "h", "Ada", "L", INSTRUCTOR)], map[], map[], [], 2, 0, 0, 0);
      var r := CreateInstructor(s, InstructorDetails("", "", Some(4.5)), 1);
      && RatingsConsistent(s)
      && r.Ok?
      && !RatingsConsistent(r.value.store)
  {
    var s := Store(map[1 := User("ada", "ada@x", "h", "Ada", "L", INSTRUCTOR)], map[], map[], [], 2, 0, 0, 0);
    var t := CreateInstructor(s, InstructorDetails("", "", Some(4.5)), 1).value.store;
    assert DerivedRating(t.reviews, 0) == 0.0;
    assert t.instructors[0].rating == 4.5;
  }

  /** Creating a profile keeps the store well formed. */
  lemma CreateInstructorPreservesWf(s: Store, details: InstructorDetails, userId: Id)
    requires Wf(s)
    requires CreateInstructor(s, details, userId).Ok?
    ensures Wf(CreateInstructor(s, details, userId).value.store)
  {
  }

  /** `getInstructorById`. */
  function GetInstructorById(s: Store, id: Id): (r: Result<Instructor, Error>)
    ensures r.Ok? <==> id in s.instructors
    ensures r.Ok? ==> r.value == s.instructors[id]
    ensures r.Err? ==> r.error == NotFound("Instructor", "id")
  {
    if id in s.instructors then Ok(s.instructors[id]) else Err(NotFound("Instructor", "id"))
  }

  /** `getInstructorByUser`: the key of the profile linked to that user. */
  function GetInstructorByUser(s: Store, userId: Id): (r: Result<Id, Error>)
    ensures r.Ok? ==> r.value in s.instructors && s.instructors[r.value].userId == userId
    ensures r == Err(NotFound("Instructor", "userId")) <==>
      forall k :: k in s.instructors ==> s.instructors[k].userId != userId
    ensures r.Ok? ==> forall k :: k in s.instructors && s.instructors[k].userId == userId ==> k == r.value
    ensures r == Err(NonUniqueResult("Instructor")) <==>
      exists a, b :: a in s.instructors && b in s.instructors && a != b
        && s.instructors[a].userId == userId && s.instructors[b].userId == userId
    ensures r.Err? ==> r.error == NotFound("Instructor", "userId") || r.error == NonUniqueResult("Instructor")
  {
    var found :- InstructorRepository.FindByUser(s.instructors, userId);
    if found.None? then Err(NotFound("Instructor", "userId")) else Ok(found.value)
  }

  /** `updateInstructor`: copies bio and expertise only; rating and user
      link are untouched, as is every other table. */
  function UpdateInstructor(s: Store, id: Id, details: InstructorDetails): (r: Result<Committed<Instructor>, Error>)
    ensures r.Ok? <==> id in s.instructors
    ensures r.Err? ==> r.error == NotFound("Instructor", "id")
    ensures r.Ok? ==>
      var i := r.value.value;
      && i.bio == details.bio && i.expertise == details.expertise
      && i.userId == s.instructors[id].userId && i.rating == s.instructors[id].rating
      && r.value.store == s.(instructors := s.instructors[id := i])
  {
    var profile :- GetInstructorById(s, id);
    var updated := profile.(bio := details.bio, expertise := details.expertise);
    Ok(Committed(updated, s.(instructors := s.instructors[id := updated])))
  }

  /** Profile edits keep ratings derived and the store well formed. */
  lemma UpdateInstructorPreserves(s: Store, id: Id, details: InstructorDetails)
    requires UpdateInstructor(s, id, details).Ok?
    ensures RatingsConsistent(s) ==> RatingsConsistent(UpdateInstructor(s, id, details).value.store)
    ensures Wf(s) ==> Wf(UpdateInstructor(s, id, details).value.store)
  {
  }

  /** `updateInstructorRating`: recomputes the stored rating from the
      instructor's reviews and changes nothing else. */
  function UpdateInstructorRating(s: Store, id: Id): (r: Result<Committed<Instructor>, Error>)
    ensures r.Ok? <==> id in s.instructors
    ensures r.Err? ==> r.error == NotFound("Instructor", "id")
    ensures r.Ok? ==>
      var rs := ReviewRepository.RatingsOf(ReviewRepository.FindByInstructor(s.reviews, id));
      var i := r.value.value;
      && (|rs| == 0 ==> i.rating == 0.0)
      && (|rs| > 0 ==> Ratings.IsHalfUp(10 * Ratings.Sum(rs), |rs|, (10.0 * i.rating).Floor))
      && (10.0 * i.rating).Floor as real == 10.0 * i.rating
      && i == s.instructors[id].(rating := i.rating)
      && r.value.store == s.(instructors := s.instructors[id := i])
  {
    var profile :- GetInstructorById(s, id);
    var updated := profile.(rating := DerivedRating(s.reviews, id));
    Ok(Committed(updated, s.(instructors := s.instructors[id := updated])))
  }

  /** Recomputing twice with an unchanged review table gives the same store
      as recomputing once. */
  lemma UpdateInstructorRatingIdempotent(s: Store, id: Id)
    requires id in s.instructors
    ensures
      var once := UpdateInstructorRating(s, id).value.store;
      UpdateInstructorRating(once, id) == Ok(Committed(once.instructors[id], once))
  {
    var once := UpdateInstructorRating(s, id).value.store;
    assert once.reviews == s.reviews;
    assert once.instructors[id].(rating := DerivedRating(once.reviews, id)) == once.instructors[id];
    assert once.instructors[id := once.instructors[id]] == once.instructors;
  }

  /** The recomputed rating lies between the least and the greatest review
      rating of the instructor. */
  lemma UpdateInstructorRatingWithinBounds(s: Store, id: Id, lo: int, hi: int)
    requires id in s.instructors
    requires ReviewRepository.FindByInstructor(s.reviews, id) != []
    requires forall x :: x in ReviewRepository.FindByInstructor(s.reviews, id) ==> lo <= x.rating <= hi
    ensures lo as real <= UpdateInstructorRating(s, id).value.value.rating <= hi as real
  {
    var mine := ReviewRepository.FindByInstructor(s.reviews, id);
    var rs := ReviewRepository.RatingsOf(mine);
    assert forall i :: 0 <= i < |rs| ==> lo <= rs[i] <= hi by {
      forall i | 0 <= i < |rs| ensures lo <= rs[i] <= hi {
        assert mine[i] in mine;
      }
    }
    Ratings.RatingWithinBounds(rs, lo, hi);
  }

  /** After a recompute, that instructor's rating is derived; the others keep
      theirs, so a consistent store stays consistent. */
  lemma UpdateInstructorRatingPreserves(s: Store, id: Id)
    requires id in s.instructors
    ensures
      var t := UpdateInstructorRating(s, id).value.store;
      && t.instructors[id].rating == DerivedRating(t.reviews, id)
      && (RatingsConsistent(s) ==> RatingsConsistent(t))
      && (Wf(s) ==> Wf(t))
  {
  }

  /** `deleteInstructor`: removes exactly that profile, or NotFound. */
  function DeleteInstructor(s: Store, id: Id): (r: Result<Store, Error>)
    ensures r.Ok? <==> id in s.instructors
    ensures r.Err? ==> r.error == NotFound("Instructor", "id")
    ensures r.Ok? ==> r.value.instructors.Keys == s.instructors.Keys - {id}
    ensures r.Ok? ==> forall k :: k in r.value.instructors ==> r.value.instructors[k] == s.instructors[k]
    ensures r.Ok? ==> r.value == s.(instructors := r.value.instructors)
  {
    var _ :- GetInstructorById(s, id);
    Ok(s.(instructors := s.instructors - {id}))
  }

  /** Deleting a profile keeps the remaining ratings derived and the store well formed. */
  lemma DeleteInstructorPreserves(s: Store, id: Id)
    requires id in s.instructors
    ensures RatingsConsistent(s) ==> RatingsConsistent(DeleteInstructor(s, id).value)
    ensures Wf(s) ==> Wf(DeleteInstructor(s, id).value)
  {
  }

  /** Account registration, edits and deletion leave the profiles and the
      reviews alone, so every rating that was derived stays derived. */
  lemma UserMutationsPreserveRatings(s: Store, encode: string -> string, dto: UserService.UserDto, id: Id)
    ensures RatingsConsistent(s) && UserService.RegisterUser(s, encode, dto).Ok? ==>
      RatingsConsistent(UserService.RegisterUser(s, encode, dto).value.store)
    ensures RatingsConsistent(s) && UserService.UpdateUser(s, encode, id, dto).Ok? ==>
      RatingsConsistent(UserService.UpdateUser(s, encode, id, dto).value.store)
    ensures RatingsConsistent(s) && UserService.DeleteUser(s, id).Ok? ==>
      RatingsConsistent(UserService.DeleteUser(s, id).value)
  {
  }
}
