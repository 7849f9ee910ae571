/** The entities of the learning platform and the in-memory store that stands
    for the relational database behind the JPA repositories. */
module Domain {
  import opened Wrappers

  /** Primary keys are Java `Long`s; any value may arrive as a path variable. */
  type Id = int

  /** The user role enum, by its constant names. */
  datatype Role = ADMIN | INSTRUCTOR | COMPANY_REP | LEARNER

  /** `Role.name()`. */
  function RoleName(r: Role): string {
    match r
    case ADMIN => "ADMIN"
    case INSTRUCTOR => "INSTRUCTOR"
    case COMPANY_REP => "COMPANY_REP"
    case LEARNER => "LEARNER"
  }

  datatype User = User(
    username: string,
    email: string,
    passwordHash: string,
    firstName: string,
    lastName: string,
    role: Role)

  /** An instructor profile; `rating` is the stored `BigDecimal`, as an exact rational. */
  datatype Instructor = Instructor(
    userId: Id,
    bio: string,
    expertise: string,
    rating: real)

  /** A course; `mode` is the `Mode` enum constant's name. The many-to-many
      course/instructor association is owned here, as a set of instructor ids. */
  datatype Course = Course(
    title: string,
    description: string,
    category: string,
    durationHours: int,
    mode: string,
    price: real,
    certificationEligible: bool,
    instructors: set<Id>)

  /** What a review is about: exactly one of a course or an instructor. */
  datatype Subject = OfCourse(courseId: Id) | OfInstructor(instructorId: Id)

  datatype Review = Review(
    id: Id,
    userId: Id,
    subject: Subject,
    rating: int,
    comment: string,
    createdAt: int)

  /** The persisted state. Reviews are kept in insertion (id) order. */
  datatype Store = Store(
    users: map<Id, User>,
    instructors: map<Id, Instructor>,
    courses: map<Id, Course>,
    reviews: seq<Review>,
    nextUserId: nat,
    nextInstructorId: nat,
    nextCourseId: nat,
    nextReviewId: nat)

  /** The exceptions the services throw, by kind. */
  datatype Error =
    | NotFound(resource: string, field: string)   // ResourceNotFoundException
    | IllegalState(message: string)               // IllegalStateException
    | IllegalArgument(message: string)            // IllegalArgumentException
    | NonUniqueResult(resource: string)           // Optional query that matched several rows
    | EncoderFailure                              // the password encoder rejected a null password

  /** A committed transaction: its return value and the store after it. */
  datatype Committed<+T> = Committed(value: T, store: Store)

  /** Every key and review id was drawn from its table's sequence. */
  predicate IdsFresh(s: Store) {
    && (forall k :: k in s.users ==> 0 <= k < s.nextUserId)
    && (forall k :: k in s.instructors ==> 0 <= k < s.nextInstructorId)
    && (forall k :: k in s.courses ==> 0 <= k < s.nextCourseId)
    && (forall i :: 0 <= i < |s.reviews| ==> 0 <= s.reviews[i].id < s.nextReviewId)
  }

  predicate ReviewIdsDistinct(rs: seq<Review>) {
    forall i, j :: 0 <= i < j < |rs| ==> rs[i].id != rs[j].id
  }

  /** At most one review per (user, course) and per (user, instructor). */
  predicate OneReviewPerSubject(rs: seq<Review>) {
    forall i, j :: 0 <= i < j < |rs| ==> rs[i].userId != rs[j].userId || rs[i].subject != rs[j].subject
  }

  predicate UniqueUsernames(users: map<Id, User>) {
    forall a, b :: a in users && b in users && a != b ==> users[a].username != users[b].username
  }

  predicate UniqueEmails(users: map<Id, User>) {
    forall a, b :: a in users && b in users && a != b ==> users[a].email != users[b].email
  }

  /** The store invariants: fresh ids, distinct review ids, one review per
      user and subject, and unique usernames and emails. Each mutating
      service operation has a lemma showing it keeps them. */
  predicate Wf(s: Store) {
    && IdsFresh(s)
    && ReviewIdsDistinct(s.reviews)
    && OneReviewPerSubject(s.reviews)
    && UniqueUsernames(s.users)
    && UniqueEmails(s.users)
  }

  /** The element of a one-element set. */
  function TheOnly(ks: set<Id>): (k: Id)
    requires |ks| == 1
    ensures ks == {k}
  {
    SingletonShape(ks);
    var k :| k in ks && ks == {k}; k
  }

  lemma SingletonShape(ks: set<Id>)
    requires |ks| == 1
    ensures exists w :: w in ks && ks == {w}
  {
    if forall w :: w !in ks {
      assert false;
    }
    var w :| w in ks;
    assert |ks - {w}| == 0;
    assert ks - {w} == {};
    assert ks == {w};
  }

  /** A set has at least two elements exactly when two distinct values are in it. */
  lemma AtLeastTwo(ks: set<Id>)
    ensures |ks| >= 2 <==> exists a, b :: a in ks && b in ks && a != b
  {
    if |ks| >= 2 {
      if forall a :: a !in ks {
        assert false;
      }
      var a :| a in ks;
      var rest := ks - {a};
      assert |rest| >= 1;
      if forall b :: b !in rest {
        assert false;
      }
      var b :| b in rest;
      assert b in ks && a != b;
    }
    if exists a, b :: a in ks && b in ks && a != b {
      var a, b :| a in ks && b in ks && a != b;
      assert |{a, b}| == 2;
      assert ks == {a, b} + (ks - {a, b});
    }
  }

  /** An `Optional` derived query over a table: empty when no row matches,
      the matching key when exactly one does, and a non-unique-result error
      when several do. */
  function SingleMatch<V>(m: map<Id, V>, p: V -> bool, resource: string): (r: Result<Option<Id>, Error>)
    ensures r == Ok(None) <==> forall k :: k in m ==> !p(m[k])
    ensures r.Ok? && r.value.Some? ==>
      && r.value.value in m
      && p(m[r.value.value])
      && forall k :: k in m && p(m[k]) ==> k == r.value.value
    ensures r.Err? <==> exists a, b :: a in m && b in m && a != b && p(m[a]) && p(m[b])
    ensures r.Err? ==> r.error == NonUniqueResult(resource)
  {
    var ks := set k | k in m && p(m[k]);
    AtLeastTwo(ks);
    if |ks| == 0 then
      assert forall k :: k in m && p(m[k]) ==> k in ks;
      Ok(None)
    else if |ks| == 1 then
      var k := TheOnly(ks);
      assert k in ks;
      assert forall j :: j in m && p(m[j]) ==> j in ks;
      Ok(Some(k))
    else
      Err(NonUniqueResult(resource))
  }
}
