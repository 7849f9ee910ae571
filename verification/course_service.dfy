/** The course catalogue and the course/instructor association. */
module CourseService {
  import opened Wrappers
  import opened Domain
  import InstructorService

  /** The editable fields of a course request body. */
  datatype CourseDetails = CourseDetails(
    title: string,
    description: string,
    category: string,
    durationHours: int,
    mode: string,
    price: real,
    certificationEligible: bool)

  /** `createCourse`: the new course starts without instructors. */
  function CreateCourse(s: Store, d: CourseDetails): (c: Committed<Id>)
    ensures c.value == s.nextCourseId && c.store.nextCourseId == s.nextCourseId + 1
    ensures c.value in c.store.courses
    ensures c.store.courses[c.value] ==
      Course(d.title, d.description, d.category, d.durationHours, d.mode, d.price, d.certificationEligible, {})
    ensures IdsFresh(s) ==> c.value !in s.courses && c.store.courses == s.courses[c.value := c.store.courses[c.value]]
    ensures c.store.users == s.users && c.store.instructors == s.instructors && c.store.reviews == s.reviews
  {
    var id: Id := s.nextCourseId;
    var course := Course(d.title, d.description, d.category, d.durationHours, d.mode, d.price, d.certificationEligible, {});
    Committed(id, s.(courses := s.courses[id := course], nextCourseId := id + 1))
  }

  /** Creating a course keeps the store well formed and every rating derived. */
  lemma CreateCoursePreserves(s: Store, d: CourseDetails)
    ensures Wf(s) ==> Wf(CreateCourse(s, d).store)
    ensures InstructorService.RatingsConsistent(s) ==> InstructorService.RatingsConsistent(CreateCourse(s, d).store)
  {
  }

  /** `getCourseById`. */
  function GetCourseById(s: Store, id: Id): (r: Result<Course, Error>)
    ensures r.Ok? <==> id in s.courses
    ensures r.Ok? ==> r.value == s.courses[id]
    ensures r.Err? ==> r.error == NotFound("Course", "id")
  {
    if id in s.courses then Ok(s.courses[id]) else Err(NotFound("Course", "id"))
  }

  /** `getCoursesByInstructor`: the instructor's own course collection, the
      inverse side of the association owned by the courses. */
  function CoursesOfInstructor(s: Store, instructorId: Id): (r: set<Id>)
    ensures r <= s.courses.Keys
    ensures forall k :: k in r <==> k in s.courses && instructorId in s.courses[k].instructors
  {
    set k | k in s.courses && instructorId in s.courses[k].instructors
  }

  /** `updateCourse`: overwrites exactly the seven editable fields; the
      instructor set and every other table are untouched. */
  function UpdateCourse(s: Store, id: Id, d: CourseDetails): (r: Result<Committed<Course>, Error>)
    ensures r.Ok? <==> id in s.courses
    ensures r.Err? ==> r.error == NotFound("Course", "id")
    ensures r.Ok? ==>
      var c := r.value.value;
      && c == Course(d.title, d.description, d.category, d.durationHours, d.mode, d.price,
                     d.certificationEligible, s.courses[id].instructors)
      && r.value.store == s.(courses := s.courses[id := c])
  {
    var course :- GetCourseById(s, id);
    var updated := course.(title := d.title, description := d.description, category := d.category,
                           durationHours := d.durationHours, mode := d.mode, price := d.price,
                           certificationEligible := d.certificationEligible);
    Ok(Committed(updated, s.(courses := s.courses[id := updated])))
  }

  /** The course with a replaced instructor set, committed. */
  function WithInstructors(s: Store, id: Id, course: Course, members: set<Id>): Committed<Course> {
    var updated := course.(instructors := members);
    Committed(updated, s.(courses := s.courses[id := updated]))
  }

  /** `addInstructorToCourse`: the course is looked up before the instructor. */
  function AddInstructorToCourse(s: Store, courseId: Id, instructorId: Id): (r: Result<Committed<Course>, Error>)
    ensures courseId !in s.courses ==> r == Err(NotFound("Course", "id"))
    ensures courseId in s.courses && instructorId !in s.instructors ==> r == Err(NotFound("Instructor", "id"))
    ensures r.Ok? <==> courseId in s.courses && instructorId in s.instructors
    ensures r.Ok? ==>
      && r.value.value.instructors == s.courses[courseId].instructors + {instructorId}
      && r.value.value == s.courses[courseId].(instructors := r.value.value.instructors)
      && r.value.store == s.(courses := s.courses[courseId := r.value.value])
  {
    var course :- GetCourseById(s, courseId);
    var _ :- InstructorService.GetInstructorById(s, instructorId);
    Ok(WithInstructors(s, courseId, course, course.instructors + {instructorId}))
  }

  /** `removeInstructorFromCourse`: an unknown instructor id is NotFound even
      though removing a non-member changes nothing. */
  function RemoveInstructorFromCourse(s: Store, courseId: Id, instructorId: Id): (r: Result<Committed<Course>, Error>)
    ensures courseId !in s.courses ==> r == Err(NotFound("Course", "id"))
    ensures courseId in s.courses && instructorId !in s.instructors ==> r == Err(NotFound("Instructor", "id"))
    ensures r.Ok? <==> courseId in s.courses && instructorId in s.instructors
    ensures r.Ok? ==>
      && r.value.value.instructors == s.courses[courseId].instructors - {instructorId}
      && r.value.value == s.courses[courseId].(instructors := r.value.value.instructors)
      && r.value.store == s.(courses := s.courses[courseId := r.value.value])
  {
    var course :- GetCourseById(s, courseId);
    var _ :- InstructorService.GetInstructorById(s, instructorId);
    Ok(WithInstructors(s, courseId, course, course.instructors - {instructorId}))
  }

  /** `setInstructorsForCourse`: the set becomes exactly the given ids, or
      the whole call fails on the first unknown one. */
  function SetInstructorsForCourse(s: Store, courseId: Id, ids: set<Id>): (r: Result<Committed<Course>, Error>)
    ensures courseId !in s.courses ==> r == Err(NotFound("Course", "id"))
    ensures courseId in s.courses && !(ids <= s.instructors.Keys) ==> r == Err(NotFound("Instructor", "id"))
    ensures r.Ok? <==> courseId in s.courses && ids <= s.instructors.Keys
    ensures r.Ok? ==>
      && r.value.value.instructors == ids
      && r.value.value == s.courses[courseId].(instructors := ids)
      && r.value.store == s.(courses := s.courses[courseId := r.value.value])
  {
    var course :- GetCourseById(s, courseId);
    if ids <= s.instructors.Keys then Ok(WithInstructors(s, courseId, course, ids))
    else Err(NotFound("Instructor", "id"))
  }

  /** Adding an instructor twice is the same as adding it once. */
  lemma AddInstructorIdempotent(s: Store, courseId: Id, instructorId: Id)
    requires AddInstructorToCourse(s, courseId, instructorId).Ok?
    ensures
      var once := AddInstructorToCourse(s, courseId, instructorId).value;
      AddInstructorToCourse(once.store, courseId, instructorId) == Ok(once)
  {
    var once := AddInstructorToCourse(s, courseId, instructorId).value;
    assert once.store.courses[courseId := once.value] == once.store.courses;
  }

  /** Removing an instructor that does not teach the course changes nothing. */
  lemma RemoveNonMemberIsNoOp(s: Store, courseId: Id, instructorId: Id)
    requires courseId in s.courses && instructorId in s.instructors
    requires instructorId !in s.courses[courseId].instructors
    ensures RemoveInstructorFromCourse(s, courseId, instructorId).value.store == s
  {
    assert s.courses[courseId].instructors - {instructorId} == s.courses[courseId].instructors;
    assert s.courses[courseId := s.courses[courseId]] == s.courses;
  }

  /** Removing undoes adding an instructor that was not a member. */
  lemma RemoveUndoesAdd(s: Store, courseId: Id, instructorId: Id)
    requires courseId in s.courses && instructorId in s.instructors
    requires instructorId !in s.courses[courseId].instructors
    ensures
      var added := AddInstructorToCourse(s, courseId, instructorId).value.store;
      RemoveInstructorFromCourse(added, courseId, instructorId).value.store == s
  {
    var members := s.courses[courseId].instructors;
    assert members + {instructorId} - {instructorId} == members;
    assert s.courses[courseId := s.courses[courseId]] == s.courses;
  }

  /** Setting the instructor set to its current value changes nothing. */
  lemma SetCurrentInstructorsIsNoOp(s: Store, courseId: Id)
    requires courseId in s.courses && s.courses[courseId].instructors <= s.instructors.Keys
    ensures SetInstructorsForCourse(s, courseId, s.courses[courseId].instructors) == Ok(Committed(s.courses[courseId], s))
  {
    assert s.courses[courseId := s.courses[courseId]] == s.courses;
  }

  /** Setting the instructor set overrides an earlier add. */
  lemma SetInstructorsOverridesAdd(s: Store, courseId: Id, instructorId: Id, ids: set<Id>)
    requires courseId in s.courses && instructorId in s.instructors
    ensures
      var added := AddInstructorToCourse(s, courseId, instructorId).value.store;
      SetInstructorsForCourse(added, courseId, ids) == SetInstructorsForCourse(s, courseId, ids)
  {
    var added := AddInstructorToCourse(s, courseId, instructorId).value.store;
    var c := s.courses[courseId].(instructors := ids);
    assert added.courses[courseId].(instructors := ids) == c;
    assert added.courses[courseId := c] == s.courses[courseId := c];
  }

  /** Edits to the association keep the store well formed and every rating derived. */
  lemma AssociationPreserves(s: Store, courseId: Id, instructorId: Id, ids: set<Id>)
    ensures Wf(s) && AddInstructorToCourse(s, courseId, instructorId).Ok? ==>
      Wf(AddInstructorToCourse(s, courseId, instructorId).value.store)
    ensures Wf(s) && RemoveInstructorFromCourse(s, courseId, instructorId).Ok? ==>
      Wf(RemoveInstructorFromCourse(s, courseId, instructorId).value.store)
    ensures Wf(s) && SetInstructorsForCourse(s, courseId, ids).Ok? ==>
      Wf(SetInstructorsForCourse(s, courseId, ids).value.store)
    ensures InstructorService.RatingsConsistent(s) && AddInstructorToCourse(s, courseId, instructorId).Ok? ==>
      InstructorService.RatingsConsistent(AddInstructorToCourse(s, courseId, instructorId).value.store)
    ensures InstructorService.RatingsConsistent(s) && RemoveInstructorFromCourse(s, courseId, instructorId).Ok? ==>
      InstructorService.RatingsConsistent(RemoveInstructorFromCourse(s, courseId, instructorId).value.store)
    ensures InstructorService.RatingsConsistent(s) && SetInstructorsForCourse(s, courseId, ids).Ok? ==>
      InstructorService.RatingsConsistent(SetInstructorsForCourse(s, courseId, ids).value.store)
  {
  }

  /** After an add, the instructor's course collection gains exactly that course. */
  lemma AddShowsInCoursesOfInstructor(s: Store, courseId: Id, instructorId: Id)
    requires AddInstructorToCourse(s, courseId, instructorId).Ok?
    ensures CoursesOfInstructor(AddInstructorToCourse(s, courseId, instructorId).value.store, instructorId)
      == CoursesOfInstructor(s, instructorId) + {courseId}
  {
  }

  /** `deleteCourse`: removes exactly that course, or NotFound without removing anything. */
  function DeleteCourse(s: Store, id: Id): (r: Result<Store, Error>)
    ensures r.Ok? <==> id in s.courses
    ensures r.Err? ==> r.error == NotFound("Course", "id")
    ensures r.Ok? ==> r.value.courses.Keys == s.courses.Keys - {id}
    ensures r.Ok? ==> forall k :: k in r.value.courses ==> r.value.courses[k] == s.courses[k]
    ensures r.Ok? ==> r.value == s.(courses := r.value.courses)
  {
    var _ :- GetCourseById(s, id);
    Ok(s.(courses := s.courses - {id}))
  }

  /** Editing a course's details keeps the store well formed and every rating derived. */
  lemma UpdateCoursePreserves(s: Store, id: Id, d: CourseDetails)
    ensures Wf(s) && UpdateCourse(s, id, d).Ok? ==> Wf(UpdateCourse(s, id, d).value.store)
    ensures InstructorService.RatingsConsistent(s) && UpdateCourse(s, id, d).Ok? ==>
      InstructorService.RatingsConsistent(UpdateCourse(s, id, d).value.store)
  {
  }

  /** Deleting a course keeps the store well formed and every rating derived:
      the course's reviews stay, and they never count toward an instructor. */
  lemma DeleteCoursePreserves(s: Store, id: Id)
    ensures Wf(s) && DeleteCourse(s, id).Ok? ==> Wf(DeleteCourse(s, id).value)
    ensures InstructorService.RatingsConsistent(s) && DeleteCourse(s, id).Ok? ==>
      InstructorService.RatingsConsistent(DeleteCourse(s, id).value)
  {
  }
}
