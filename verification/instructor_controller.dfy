/** The instructor endpoints under /api/instructors: admin-only profile
    management, and profile edits open to the profile's own user. */
module InstructorController {
  import opened Wrappers
  import opened Domain
  import opened SecurityConfig
  import Http
  import InstructorRepository
  import InstructorService
  import UserService

  /** POST with `?userId=`: admin only. */
  function CreateInstructor(p: Principal, body: InstructorService.InstructorDetails, userId: Id, s: Store): (x: Http.Exchange<Id>)
    ensures x.response.Denied? <==> !HasRole(p, "ADMIN")
    ensures !x.response.Ok? ==> x.store == s
    ensures HasRole(p, "ADMIN") ==> (x.response.Ok? <==> userId in s.users)
    ensures x.response.Ok? ==>
      x.response.body in x.store.instructors && x.store.instructors[x.response.body].userId == userId
    ensures x.response.Failed? ==> x.response.error == NotFound("User", "id")
    ensures x.response.Ok? ==>
      && x.response.body == s.nextInstructorId
      && x.store == s.(instructors := s.instructors[s.nextInstructorId := Instructor(userId, body.bio, body.expertise,
                                                     if body.rating.Some? then body.rating.value else 0.0)],
                       nextInstructorId := s.nextInstructorId + 1)
    ensures x.response.Ok? ==>
      InstructorService.CreateInstructor(s, body, userId) == Ok(Committed(x.response.body, x.store))
  {
    if !HasRole(p, "ADMIN") then Http.Exchange(Http.Denied, s)
    else Http.Commit(s, InstructorService.CreateInstructor(s, body, userId))
  }

  /** GET: every profile. */
  function GetAllInstructors(s: Store): (r: Http.Response<set<Id>>)
    ensures r.Ok? && r.body == s.instructors.Keys
  {
    Http.Ok(s.instructors.Keys)
  }

  /** GET /{id}. */
  function GetInstructorById(s: Store, id: Id): (r: Http.Response<Instructor>)
    ensures r.Ok? <==> id in s.instructors
    ensures r.Ok? ==> r.body == s.instructors[id]
    ensures !r.Ok? ==> r == Http.Failed(NotFound("Instructor", "id"))
  {
    Http.Answer(InstructorService.GetInstructorById(s, id))
  }

  /** The keys of the profiles linked to the user. */
  function Linked(s: Store, userId: Id): set<Id> {
    set k | k in s.instructors && s.instructors[k].userId == userId
  }

  /** The profile lookup by user succeeds exactly when one profile is linked,
      fails as not found exactly when none is, and as non-unique exactly when
      two or more are. */
  lemma LinkedLookup(s: Store, userId: Id)
    ensures InstructorService.GetInstructorByUser(s, userId).Ok? <==> |Linked(s, userId)| == 1
    ensures InstructorService.GetInstructorByUser(s, userId) == Err(NotFound("Instructor", "userId")) <==> Linked(s, userId) == {}
    ensures InstructorService.GetInstructorByUser(s, userId) == Err(NonUniqueResult("Instructor")) <==> |Linked(s, userId)| >= 2
  {
    var r := InstructorService.GetInstructorByUser(s, userId);
    var ks := Linked(s, userId);
    assert forall k :: k in s.instructors && s.instructors[k].userId == userId ==> k in ks;
    AtLeastTwo(ks);
    if r.Ok? {
      assert r.value in ks;
      assert ks == {r.value};
    }
    if |ks| == 1 {
      var k := TheOnly(ks);
      assert k in ks;
    }
    if ks != {} {
      var k :| k in ks;
      assert r != Err(NotFound("Instructor", "userId"));
    }
  }

  /** The profile linked to a user: the user must exist, then exactly one
      profile must name it. */
  function ProfileOfUser(s: Store, userId: Id): (r: Http.Response<Instructor>)
    ensures userId !in s.users ==> r == Http.Failed(NotFound("User", "id"))
    ensures r.Ok? <==> userId in s.users && |Linked(s, userId)| == 1
    ensures r.Ok? ==> r.body in s.instructors.Values && r.body.userId == userId
    ensures userId in s.users ==> (r == Http.Failed(NotFound("Instructor", "userId")) <==> Linked(s, userId) == {})
    ensures userId in s.users ==> (r == Http.Failed(NonUniqueResult("Instructor")) <==> |Linked(s, userId)| >= 2)
  {
    LinkedLookup(s, userId);
    var found := InstructorService.GetInstructorByUser(s, userId);
    if userId !in s.users then Http.Failed(NotFound("User", "id"))
    else if found.Err? then Http.Failed(found.error)
    else Http.Ok(s.instructors[found.value])
  }

  /** GET /by-user/{userId}. */
  function GetInstructorByUser(s: Store, userId: Id): (r: Http.Response<Instructor>)
    ensures r.Ok? <==> userId in s.users && |Linked(s, userId)| == 1
    ensures r.Ok? ==> r.body in s.instructors.Values && r.body.userId == userId
    ensures !r.Ok? ==> r.Failed?
    ensures userId in s.users && !r.Ok? ==>
      r.error == NotFound("Instructor", "userId") || r.error == NonUniqueResult("Instructor")
  {
    ProfileOfUser(s, userId)
  }

  /** GET /by-expertise/{expertise}. */
  function GetInstructorsByExpertise(s: Store, expertise: string): (r: Http.Response<set<Id>>)
    ensures r.Ok?
    ensures forall k :: k in r.body <==> k in s.instructors && s.instructors[k].expertise == expertise
  {
    Http.Ok(InstructorRepository.FindByExpertise(s.instructors, expertise))
  }

  /** GET /by-min-rating/{minRating}. */
  function GetInstructorsByMinRating(s: Store, minRating: real): (r: Http.Response<set<Id>>)
    ensures r.Ok?
    ensures forall k :: k in r.body <==> k in s.instructors && s.instructors[k].rating >= minRating
  {
    Http.Ok(InstructorRepository.FindByRatingGreaterThanEqual(s.instructors, minRating))
  }

  /** GET /me: instructors only; the caller's own profile. */
  function GetCurrentInstructor(p: Principal, s: Store): (r: Http.Response<Instructor>)
    ensures r.Denied? <==> !HasRole(p, "INSTRUCTOR")
    ensures r.Ok? ==> r.body in s.instructors.Values && r.body.userId == p.id
    ensures HasRole(p, "INSTRUCTOR") && p.id !in s.users ==> r == Http.Failed(NotFound("User", "id"))
    ensures HasRole(p, "INSTRUCTOR") ==> (r.Ok? <==> p.id in s.users && |Linked(s, p.id)| == 1)
    ensures HasRole(p, "INSTRUCTOR") && p.id in s.users ==>
      (r == Http.Failed(NonUniqueResult("Instructor")) <==> |Linked(s, p.id)| >= 2)
  {
    if !HasRole(p, "INSTRUCTOR") then Http.Denied else ProfileOfUser(s, p.id)
  }

  /** The pre-authorization of an instructor edit: admin, or whatever the
      instructor-security bean answers for this id and caller. */
  predicate MayAttemptEdit(env: Http.Env, p: Principal, id: Id) {
    HasRole(p, "ADMIN") || env.isCurrentInstructor(id, p)
  }

  /** PUT /{id}: past the pre-authorization, the profile is looked up, and a
      caller who is neither an admin nor the profile's user is refused with
      403 whatever the bean answered. */
  function UpdateInstructor(env: Http.Env, p: Principal, id: Id, body: InstructorService.InstructorDetails, s: Store): (x: Http.Exchange<Instructor>)
    ensures x.response.Denied? <==> !MayAttemptEdit(env, p, id)
    ensures !x.response.Ok? ==> x.store == s
    ensures MayAttemptEdit(env, p, id) && id !in s.instructors ==> x.response == Http.Failed(NotFound("Instructor", "id"))
    ensures x.response.Forbidden? <==>
      MayAttemptEdit(env, p, id) && id in s.instructors && !IsAdmin(p) && s.instructors[id].userId != p.id
    ensures x.response.Ok? ==>
      && id in s.instructors
      && (IsAdmin(p) || s.instructors[id].userId == p.id)
      && x.response.body == s.instructors[id].(bio := body.bio, expertise := body.expertise)
      && x.store == s.(instructors := s.instructors[id := x.response.body])
    ensures MayAttemptEdit(env, p, id) ==>
      (x.response.Ok? <==> id in s.instructors && (IsAdmin(p) || s.instructors[id].userId == p.id))
    ensures x.response.Ok? ==>
      InstructorService.UpdateInstructor(s, id, body) == Ok(Committed(x.response.body, x.store))
  {
    if !MayAttemptEdit(env, p, id) then Http.Exchange(Http.Denied, s)
    else
      match InstructorService.GetInstructorById(s, id)
      case Err(e) => Http.Exchange(Http.Failed(e), s)
      case Ok(existing) =>
        if !IsAdmin(p) && existing.userId != p.id then Http.Exchange(Http.Forbidden, s)
        else Http.Commit(s, InstructorService.UpdateInstructor(s, id, body))
  }

  /** The bean only widens who reaches the ownership check: for two beans
      that both admit the caller, the outcome is the same. */
  lemma UpdateInstructorBeanIrrelevant(e1: Http.Env, e2: Http.Env, p: Principal, id: Id, body: InstructorService.InstructorDetails, s: Store)
    requires MayAttemptEdit(e1, p, id) && MayAttemptEdit(e2, p, id)
    ensures UpdateInstructor(e1, p, id, body, s) == UpdateInstructor(e2, p, id, body, s)
  {
  }

  /** PUT /{id}/update-rating: admin only. */
  function UpdateInstructorRating(p: Principal, id: Id, s: Store): (x: Http.Exchange<Instructor>)
    ensures x.response.Denied? <==> !HasRole(p, "ADMIN")
    ensures !x.response.Ok? ==> x.store == s
    ensures x.response.Ok? ==>
      && id in x.store.instructors
      && x.response.body == x.store.instructors[id]
      && x.response.body.rating == InstructorService.DerivedRating(x.store.reviews, id)
      && id in s.instructors
      && x.response.body == s.instructors[id].(rating := x.response.body.rating)
      && x.store == s.(instructors := s.instructors[id := x.response.body])
    ensures HasRole(p, "ADMIN") ==> (x.response.Ok? <==> id in s.instructors)
    ensures x.response.Failed? ==> x.response.error == NotFound("Instructor", "id")
  {
    if !HasRole(p, "ADMIN") then Http.Exchange(Http.Denied, s)
    else Http.Commit(s, InstructorService.UpdateInstructorRating(s, id))
  }

  /** DELETE /{id}: admin only. */
  function DeleteInstructor(p: Principal, id: Id, s: Store): (x: Http.Exchange<Http.Empty>)
    ensures x.response.Denied? <==> !HasRole(p, "ADMIN")
    ensures !x.response.Ok? ==> x.store == s
    ensures HasRole(p, "ADMIN") ==> (x.response.Ok? <==> id in s.instructors)
    ensures x.response.Ok? ==> x.store.instructors.Keys == s.instructors.Keys - {id}
    ensures x.response.Failed? ==> x.response.error == NotFound("Instructor", "id")
    ensures x.response.Ok? ==> x.store == s.(instructors := s.instructors - {id})
    ensures x.response.Ok? ==> InstructorService.DeleteInstructor(s, id) == Ok(x.store)
  {
    if !HasRole(p, "ADMIN") then Http.Exchange(Http.Denied, s)
    else Http.CommitEmpty(s, InstructorService.DeleteInstructor(s, id))
  }
}
