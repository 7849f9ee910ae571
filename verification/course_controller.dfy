/** The course endpoints under /api/courses: course creation with automatic
    assignment of the creating instructor, the instructor-or-admin check on
    edits, and the association endpoints. */
module CourseController {
  import opened Wrappers
  import opened Domain
  import opened SecurityConfig
  import Http
  import CourseRepository
  import CourseService
  import InstructorService

  /** `hasRole('INSTRUCTOR') or hasRole('ADMIN')`. */
  predicate MayManageCourses(p: Principal) {
    HasRole(p, "INSTRUCTOR") || HasRole(p, "ADMIN")
  }

  /** The caller's instructor profile as the controller looks it up: the
      profile whose instructor id equals the caller's user id is fetched,
      and then the profile linked to that profile's user. Whatever user
      that is, the answer can only be the profile numbered like the caller. */
  function CurrentInstructor(s: Store, p: Principal): (r: Result<Id, Error>)
    ensures r.Ok? ==> r.value == p.id && p.id in s.instructors
    ensures r.Ok? <==>
      && p.id in s.instructors
      && forall k :: k in s.instructors && s.instructors[k].userId == s.instructors[p.id].userId ==> k == p.id
  {
    match InstructorService.GetInstructorById(s, p.id)
    case Err(e) => Err(e)
    case Ok(inst) => InstructorService.GetInstructorByUser(s, inst.userId)
  }

  /** The body's `ROLE_INSTRUCTOR` authority check. */
  predicate IsInstructor(p: Principal) {
    HasAuthority(p, "ROLE_INSTRUCTOR")
  }

  /** The automatic assignment after a course is created: an instructor
      caller whose looked-up profile resolves is added to the course; every
      failure on the way is swallowed and leaves the store as it was. */
  function AutoAssign(s: Store, courseId: Id, p: Principal): (t: Store)
    requires courseId in s.courses
    ensures t.users == s.users && t.instructors == s.instructors && t.reviews == s.reviews
    ensures t.courses.Keys == s.courses.Keys
    ensures forall k :: k in t.courses && k != courseId ==> t.courses[k] == s.courses[k]
    ensures t.courses[courseId].instructors ==
      s.courses[courseId].instructors + (if IsInstructor(p) && CurrentInstructor(s, p).Ok? then {p.id} else {})
    ensures t.courses[courseId] == s.courses[courseId].(instructors := t.courses[courseId].instructors)
  {
    if !IsInstructor(p) then s
    else
      match CurrentInstructor(s, p)
      case Err(_) => s
      case Ok(j) =>
        match CourseService.AddInstructorToCourse(s, courseId, j)
        case Err(_) => s
        case Ok(c) => c.store
  }

  /** POST: the course is saved with no instructors; an instructor caller is
      then added by the profile lookup above. The body is the course as
      stored at the end of the request. */
  function CreateCourse(p: Principal, body: CourseService.CourseDetails, s: Store): (x: Http.Exchange<Course>)
    ensures x.response.Denied? <==> !MayManageCourses(p)
    ensures !x.response.Ok? ==> x.store == s
    ensures x.response.Ok? ==>
      && x.response.body == Course(body.title, body.description, body.category, body.durationHours, body.mode,
                                   body.price, body.certificationEligible, x.response.body.instructors)
      && x.response.body.instructors == (if IsInstructor(p) && CurrentInstructor(s, p).Ok? then {p.id} else {})
      && x.store.users == s.users && x.store.instructors == s.instructors && x.store.reviews == s.reviews
    ensures x.response.Ok? && IdsFresh(s) ==> x.store.courses.Keys == s.courses.Keys + {s.nextCourseId}
    ensures MayManageCourses(p) ==> x.response.Ok?
    ensures x.response.Ok? ==>
      x.store == s.(courses := s.courses[s.nextCourseId := x.response.body], nextCourseId := s.nextCourseId + 1)
  {
    if !MayManageCourses(p) then Http.Exchange(Http.Denied, s)
    else
      var created := CourseService.CreateCourse(s, body);
      var t := AutoAssign(created.store, created.value, p);
      Http.Exchange(Http.Ok(t.courses[created.value]), t)
  }

  /** Profile k is the caller's one and only instructor profile. */
  predicate OwnProfileIs(s: Store, p: Principal, k: Id) {
    && k in s.instructors && s.instructors[k].userId == p.id
    && forall j :: j in s.instructors && s.instructors[j].userId == p.id ==> j == k
  }

  /** The automatic assignment as evidently intended: the caller's own
      profile, the one linked to the caller's user id, is added. */
  function AutoAssignIntended(s: Store, courseId: Id, p: Principal): (t: Store)
    requires courseId in s.courses
    ensures t.users == s.users && t.instructors == s.instructors && t.reviews == s.reviews
    ensures t.courses.Keys == s.courses.Keys
    ensures forall k :: k in t.courses && k != courseId ==> t.courses[k] == s.courses[k]
    ensures t.courses[courseId] == s.courses[courseId].(instructors := t.courses[courseId].instructors)
    ensures forall k :: k in t.courses[courseId].instructors - s.courses[courseId].instructors ==>
      IsInstructor(p) && k in s.instructors && s.instructors[k].userId == p.id
    ensures IsInstructor(p) ==> forall k :: OwnProfileIs(s, p, k) ==> k in t.courses[courseId].instructors
  {
    if !IsInstructor(p) then s
    else
      match InstructorService.GetInstructorByUser(s, p.id)
      case Err(_) => s
      case Ok(j) => CourseService.AddInstructorToCourse(s, courseId, j).value.store
  }

  /** POST as evidently intended: the creating instructor's own profile is
      assigned. */
  function CreateCourseIntended(p: Principal, body: CourseService.CourseDetails, s: Store): (x: Http.Exchange<Course>)
    ensures x.response.Denied? <==> !MayManageCourses(p)
    ensures !x.response.Ok? ==> x.store == s
    ensures x.response.Ok? ==>
      && x.response.body == Course(body.title, body.description, body.category, body.durationHours, body.mode,
                                   body.price, body.certificationEligible, x.response.body.instructors)
      && (forall k :: k in x.response.body.instructors ==> IsInstructor(p) && k in s.instructors && s.instructors[k].userId == p.id)
      && x.store.users == s.users && x.store.instructors == s.instructors && x.store.reviews == s.reviews
    ensures x.response.Ok? && IsInstructor(p) ==> forall k :: OwnProfileIs(s, p, k) ==> k in x.response.body.instructors
    ensures MayManageCourses(p) ==> x.response.Ok?
    ensures x.response.Ok? ==>
      x.store == s.(courses := s.courses[s.nextCourseId := x.response.body], nextCourseId := s.nextCourseId + 1)
  {
    if !MayManageCourses(p) then Http.Exchange(Http.Denied, s)
    else
      var created := CourseService.CreateCourse(s, body);
      var t := AutoAssignIntended(created.store, created.value, p);
      Http.Exchange(Http.Ok(t.courses[created.value]), t)
  }

  /** GET: every course. */
  function GetAllCourses(s: Store): (r: Http.Response<set<Id>>)
    ensures r.Ok? && r.body == s.courses.Keys
  {
    Http.Ok(s.courses.Keys)
  }

  /** GET /{id}. */
  function GetCourseById(s: Store, id: Id): (r: Http.Response<Course>)
    ensures r.Ok? <==> id in s.courses
    ensures r.Ok? ==> r.body == s.courses[id]
    ensures !r.Ok? ==> r == Http.Failed(NotFound("Course", "id"))
  {
    Http.Answer(CourseService.GetCourseById(s, id))
  }

  /** GET /by-category/{category}. */
  function GetCoursesByCategory(s: Store, category: string): (r: Http.Response<set<Id>>)
    ensures r.Ok?
    ensures forall k :: k in r.body <==> k in s.courses && s.courses[k].category == category
  {
    Http.Ok(CourseRepository.FindByCategory(s.courses, category))
  }

  /** GET /by-mode/{mode}. */
  function GetCoursesByMode(s: Store, mode: string): (r: Http.Response<set<Id>>)
    ensures r.Ok?
    ensures forall k :: k in r.body <==> k in s.courses && s.courses[k].mode == mode
  {
    Http.Ok(CourseRepository.FindByMode(s.courses, mode))
  }

  /** GET /by-instructor/{instructorId}: an unknown instructor is not found. */
  function GetCoursesByInstructor(s: Store, instructorId: Id): (r: Http.Response<set<Id>>)
    ensures r.Ok? <==> instructorId in s.instructors
    ensures !r.Ok? ==> r == Http.Failed(NotFound("Instructor", "id"))
    ensures r.Ok? ==> forall k :: k in r.body <==> k in s.courses && instructorId in s.courses[k].instructors
  {
    match InstructorService.GetInstructorById(s, instructorId)
    case Err(e) => Http.Failed(e)
    case Ok(_) => Http.Ok(CourseService.CoursesOfInstructor(s, instructorId))
  }

  /** GET /search?title=. */
  function SearchCourses(s: Store, title: string): (r: Http.Response<set<Id>>)
    ensures r.Ok?
    ensures forall k :: k in r.body <==> k in s.courses && CourseRepository.TitleMatches(s.courses[k].title, title)
  {
    Http.Ok(CourseRepository.FindByTitleContainingIgnoreCase(s.courses, title))
  }

  /** GET /certification-eligible/{eligible}. */
  function GetCoursesByCertificationEligible(s: Store, eligible: bool): (r: Http.Response<set<Id>>)
    ensures r.Ok?
    ensures forall k :: k in r.body <==> k in s.courses && s.courses[k].certificationEligible == eligible
  {
    Http.Ok(CourseRepository.FindByCertificationEligible(s.courses, eligible))
  }

  /** GET /max-price/{maxPrice}. */
  function GetCoursesByMaxPrice(s: Store, maxPrice: real): (r: Http.Response<set<Id>>)
    ensures r.Ok?
    ensures forall k :: k in r.body <==> k in s.courses && s.courses[k].price <= maxPrice
  {
    Http.Ok(CourseRepository.FindByPriceLessThanEqual(s.courses, maxPrice))
  }

  /** Past the pre-authorization, whether the caller counts as teaching the
      course, decided by the given profile lookup. */
  predicate Teaches(lookup: Result<Id, Error>, p: Principal, course: Course) {
    IsInstructor(p) && lookup.Ok? && lookup.value in course.instructors
  }

  /** PUT /{id} as written: the course is looked up first; the caller may
      edit it when admin or when the profile numbered like the caller's
      user id teaches it, and is otherwise refused with 403. */
  function UpdateCourse(p: Principal, id: Id, body: CourseService.CourseDetails, s: Store): (x: Http.Exchange<Course>)
    ensures x.response.Denied? <==> !MayManageCourses(p)
    ensures !x.response.Ok? ==> x.store == s
    ensures MayManageCourses(p) && id !in s.courses ==> x.response == Http.Failed(NotFound("Course", "id"))
    ensures x.response.Forbidden? <==>
      && MayManageCourses(p) && id in s.courses && !IsAdmin(p)
      && !(IsInstructor(p) && CurrentInstructor(s, p).Ok? && p.id in s.courses[id].instructors)
    ensures x.response.Ok? ==> id in s.courses && (IsAdmin(p) || (IsInstructor(p) && p.id in s.courses[id].instructors))
    ensures x.response.Ok? ==> x.response.body.instructors == s.courses[id].instructors
    ensures x.response.Ok? <==>
      && MayManageCourses(p) && id in s.courses
      && (IsAdmin(p) || (IsInstructor(p) && CurrentInstructor(s, p).Ok? && p.id in s.courses[id].instructors))
    ensures x.response.Ok? ==>
      && x.response.body == Course(body.title, body.description, body.category, body.durationHours, body.mode,
                                     body.price, body.certificationEligible, s.courses[id].instructors)
      && x.store == s.(courses := s.courses[id := x.response.body])
  {
    if !MayManageCourses(p) then Http.Exchange(Http.Denied, s)
    else
      match CourseService.GetCourseById(s, id)
      case Err(e) => Http.Exchange(Http.Failed(e), s)
      case Ok(existing) =>
        if !Teaches(CurrentInstructor(s, p), p, existing) && !IsAdmin(p) then Http.Exchange(Http.Forbidden, s)
        else Http.Commit(s, CourseService.UpdateCourse(s, id, body))
  }

  /** The caller has exactly one instructor profile, and it teaches the course. */
  predicate OwnProfileTeaches(s: Store, p: Principal, course: Course) {
    exists k :: OwnProfileIs(s, p, k) && k in course.instructors
  }

  /** PUT /{id} as evidently intended: the caller's own profile, the one
      linked to the caller's user id, must teach the course. */
  function UpdateCourseIntended(p: Principal, id: Id, body: CourseService.CourseDetails, s: Store): (x: Http.Exchange<Course>)
    ensures x.response.Denied? <==> !MayManageCourses(p)
    ensures !x.response.Ok? ==> x.store == s
    ensures MayManageCourses(p) && id !in s.courses ==> x.response == Http.Failed(NotFound("Course", "id"))
    ensures x.response.Ok? ==>
      && id in s.courses
      && (IsAdmin(p) || exists k :: k in s.instructors && s.instructors[k].userId == p.id && k in s.courses[id].instructors)
    ensures x.response.Forbidden? <==>
      && MayManageCourses(p) && id in s.courses && !IsAdmin(p)
      && !(IsInstructor(p) && OwnProfileTeaches(s, p, s.courses[id]))
    ensures x.response.Ok? <==>
      && MayManageCourses(p) && id in s.courses
      && (IsAdmin(p) || (IsInstructor(p) && OwnProfileTeaches(s, p, s.courses[id])))
    ensures x.response.Ok? ==>
      && x.response.body == Course(body.title, body.description, body.category, body.durationHours, body.mode,
                                     body.price, body.certificationEligible, s.courses[id].instructors)
      && x.store == s.(courses := s.courses[id := x.response.body])
  {
    if !MayManageCourses(p) then Http.Exchange(Http.Denied, s)
    else
      match CourseService.GetCourseById(s, id)
      case Err(e) => Http.Exchange(Http.Failed(e), s)
      case Ok(existing) =>
        if !Teaches(InstructorService.GetInstructorByUser(s, p.id), p, existing) && !IsAdmin(p) then Http.Exchange(Http.Forbidden, s)
        else Http.Commit(s, CourseService.UpdateCourse(s, id, body))
  }

  /** The check of the association endpoints: an admin passes; anyone else
      must be the user of the instructor profile named in the path, which is
      looked up first (an unknown profile is not found). */
  function SelfOnly(p: Principal, instructorId: Id, s: Store): (r: Option<Http.Response<Course>>)
    ensures r.None? <==> IsAdmin(p) || (instructorId in s.instructors && s.instructors[instructorId].userId == p.id)
    ensures r.Some? ==> r.value == (if instructorId in s.instructors then Http.Forbidden
                                    else Http.Failed(NotFound("Instructor", "id")))
  {
    if IsAdmin(p) then None
    else
      match InstructorService.GetInstructorById(s, instructorId)
      case Err(e) => Some(Http.Failed(e))
      case Ok(i) => if i.userId != p.id then Some(Http.Forbidden) else None
  }

  /** POST /{courseId}/instructors/{instructorId}: an instructor may add only
      their own profile; an admin may add any. */
  function AddInstructorToCourse(p: Principal, courseId: Id, instructorId: Id, s: Store): (x: Http.Exchange<Course>)
    ensures x.response.Denied? <==> !MayManageCourses(p)
    ensures !x.response.Ok? ==> x.store == s
    ensures x.response.Forbidden? <==>
      MayManageCourses(p) && !IsAdmin(p) && instructorId in s.instructors && s.instructors[instructorId].userId != p.id
    ensures x.response.Ok? ==>
      && courseId in s.courses && instructorId in s.instructors
      && (IsAdmin(p) || s.instructors[instructorId].userId == p.id)
      && x.response.body == s.courses[courseId].(instructors := s.courses[courseId].instructors + {instructorId})
      && x.store == s.(courses := s.courses[courseId := x.response.body])
    ensures MayManageCourses(p) ==>
      (x.response.Ok? <==>
        courseId in s.courses && instructorId in s.instructors && (IsAdmin(p) || s.instructors[instructorId].userId == p.id))
    ensures x.response.Failed? ==>
      x.response.error == NotFound("Course", "id") || x.response.error == NotFound("Instructor", "id")
    ensures x.response.Ok? ==>
      CourseService.AddInstructorToCourse(s, courseId, instructorId) == Ok(Committed(x.response.body, x.store))
  {
    if !MayManageCourses(p) then Http.Exchange(Http.Denied, s)
    else
      match SelfOnly(p, instructorId, s)
      case Some(refusal) => Http.Exchange(refusal, s)
      case None => Http.Commit(s, CourseService.AddInstructorToCourse(s, courseId, instructorId))
  }

  /** DELETE /{courseId}/instructors/{instructorId}: an instructor may remove
      only their own profile; an admin may remove any. */
  function RemoveInstructorFromCourse(p: Principal, courseId: Id, instructorId: Id, s: Store): (x: Http.Exchange<Course>)
    ensures x.response.Denied? <==> !MayManageCourses(p)
    ensures !x.response.Ok? ==> x.store == s
    ensures x.response.Forbidden? <==>
      MayManageCourses(p) && !IsAdmin(p) && instructorId in s.instructors && s.instructors[instructorId].userId != p.id
    ensures x.response.Ok? ==>
      && courseId in s.courses && instructorId in s.instructors
      && (IsAdmin(p) || s.instructors[instructorId].userId == p.id)
      && x.response.body == s.courses[courseId].(instructors := s.courses[courseId].instructors - {instructorId})
      && x.store == s.(courses := s.courses[courseId := x.response.body])
    ensures MayManageCourses(p) ==>
      (x.response.Ok? <==>
        courseId in s.courses && instructorId in s.instructors && (IsAdmin(p) || s.instructors[instructorId].userId == p.id))
    ensures x.response.Failed? ==>
      x.response.error == NotFound("Course", "id") || x.response.error == NotFound("Instructor", "id")
    ensures x.response.Ok? ==>
      CourseService.RemoveInstructorFromCourse(s, courseId, instructorId) == Ok(Committed(x.response.body, x.store))
  {
    if !MayManageCourses(p) then Http.Exchange(Http.Denied, s)
    else
      match SelfOnly(p, instructorId, s)
      case Some(refusal) => Http.Exchange(refusal, s)
      case None => Http.Commit(s, CourseService.RemoveInstructorFromCourse(s, courseId, instructorId))
  }

  /** PUT /{courseId}/instructors: admin only. */
  function SetInstructorsForCourse(p: Principal, courseId: Id, ids: set<Id>, s: Store): (x: Http.Exchange<Course>)
    ensures x.response.Denied? <==> !HasRole(p, "ADMIN")
    ensures !x.response.Ok? ==> x.store == s
    ensures HasRole(p, "ADMIN") ==> (x.response.Ok? <==> courseId in s.courses && ids <= s.instructors.Keys)
    ensures x.response.Ok? ==> x.response.body.instructors == ids && courseId in x.store.courses && x.store.courses[courseId] == x.response.body
    ensures x.response.Ok? ==>
      && courseId in s.courses
      && x.response.body == s.courses[courseId].(instructors := ids)
      && x.store == s.(courses := s.courses[courseId := x.response.body])
    ensures x.response.Ok? ==> CourseService.SetInstructorsForCourse(s, courseId, ids) == Ok(Committed(x.response.body, x.store))
  {
    if !HasRole(p, "ADMIN") then Http.Exchange(Http.Denied, s)
    else Http.Commit(s, CourseService.SetInstructorsForCourse(s, courseId, ids))
  }

  /** DELETE /{id}: admin only. */
  function DeleteCourse(p: Principal, id: Id, s: Store): (x: Http.Exchange<Http.Empty>)
    ensures x.response.Denied? <==> !HasRole(p, "ADMIN")
    ensures !x.response.Ok? ==> x.store == s
    ensures HasRole(p, "ADMIN") ==> (x.response.Ok? <==> id in s.courses)
    ensures x.response.Ok? ==> x.store.courses.Keys == s.courses.Keys - {id}
    ensures x.response.Ok? ==> x.store == s.(courses := s.courses - {id})
    ensures x.response.Ok? ==> CourseService.DeleteCourse(s, id) == Ok(x.store)
  {
    if !HasRole(p, "ADMIN") then Http.Exchange(Http.Denied, s)
    else Http.CommitEmpty(s, CourseService.DeleteCourse(s, id))
  }

  /** `hasRole('INSTRUCTOR')` and the body's authority check agree. */
  lemma InstructorRoleIsInstructor(p: Principal)
    ensures HasRole(p, "INSTRUCTOR") <==> IsInstructor(p)
  {
    assert "ROLE_" + "INSTRUCTOR" == "ROLE_INSTRUCTOR";
  }

  /** The edit check as written admits an instructor-role caller with no
      instructor profile at all, as soon as the profile whose id equals the
      caller's user id teaches the course; the intended check refuses them. */
  lemma UpdateCourseAdmitsStranger(p: Principal, id: Id, body: CourseService.CourseDetails, s: Store)
    requires IsInstructor(p) && !IsAdmin(p)
    requires id in s.courses && p.id in s.instructors && p.id in s.courses[id].instructors
    requires forall k :: k in s.instructors ==> s.instructors[k].userId != p.id
    requires forall k :: k in s.instructors && s.instructors[k].userId == s.instructors[p.id].userId ==> k == p.id
    ensures UpdateCourse(p, id, body, s).response.Ok?
    ensures UpdateCourseIntended(p, id, body, s).response.Forbidden?
  {
    InstructorRoleIsInstructor(p);
  }

  /** The edit check as written refuses the user whose own (only) profile
      teaches the course whenever that profile's id differs from the user's
      id and no profile with the user's id teaches it; the intended check
      admits them. */
  lemma UpdateCourseRefusesTeacher(p: Principal, k: Id, id: Id, body: CourseService.CourseDetails, s: Store)
    requires IsInstructor(p) && !IsAdmin(p)
    requires id in s.courses && k in s.instructors && k in s.courses[id].instructors && p.id !in s.courses[id].instructors
    requires s.instructors[k].userId == p.id
    requires forall j :: j in s.instructors && s.instructors[j].userId == p.id ==> j == k
    ensures UpdateCourse(p, id, body, s).response.Forbidden?
    ensures UpdateCourseIntended(p, id, body, s).response.Ok?
  {
    InstructorRoleIsInstructor(p);
    assert OwnProfileTeaches(s, p, s.courses[id]);
  }

  /** Course creation as written assigns the profile whose id equals the
      caller's user id, even to a caller who has no profile of their own;
      the intended creation assigns nobody to such a caller. */
  lemma CreateCourseAssignsStranger(p: Principal, body: CourseService.CourseDetails, s: Store)
    requires IsInstructor(p)
    requires p.id in s.instructors
    requires forall k :: k in s.instructors ==> s.instructors[k].userId != p.id
    requires forall k :: k in s.instructors && s.instructors[k].userId == s.instructors[p.id].userId ==> k == p.id
    ensures CreateCourse(p, body, s).response.Ok?
    ensures CreateCourse(p, body, s).response.body.instructors == {p.id}
    ensures CreateCourseIntended(p, body, s).response.body.instructors == {}
  {
    InstructorRoleIsInstructor(p);
  }
}
