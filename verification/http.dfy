/** What a controller method answers, and the collaborators the controllers
    consult that are outside this model. */
module Http {
  import opened Wrappers
  import opened Domain
  import opened SecurityConfig

  /** The outcome of one controller call. */
  datatype Response<+T> =
    | Ok(body: T)           // 200 with the body
    | Forbidden             // the explicit 403 a controller body returns
    | Denied                // the `@PreAuthorize` expression was false
    | Failed(error: Error)  // a service call threw

  /** The empty body of a successful delete. */
  datatype Empty = Empty

  /** A response with the store it leaves behind. */
  datatype Exchange<+T> = Exchange(response: Response<T>, store: Store)

  /** The HTTP status: the catch-all exception handler answers every
      exception a controller method raises, the pre-authorization rejection
      included, with 500. */
  function StatusCode<T>(r: Response<T>): (code: int)
    ensures code == 200 <==> r.Ok?
    ensures code == 403 <==> r.Forbidden?
    ensures code == 500 <==> r.Denied? || r.Failed?
  {
    match r
    case Ok(_) => 200
    case Forbidden => 403
    case Denied => 500
    case Failed(_) => 500
  }

  /** A read-only service result as a response. */
  function Answer<T>(r: Result<T, Error>): Response<T> {
    match r
    case Ok(v) => Response.Ok(v)
    case Err(e) => Failed(e)
  }

  /** A transactional service result: committed on success, rolled back on failure. */
  function Commit<T>(s: Store, r: Result<Committed<T>, Error>): Exchange<T> {
    match r
    case Ok(c) => Exchange(Response.Ok(c.value), c.store)
    case Err(e) => Exchange(Failed(e), s)
  }

  /** A transactional service result with no value. */
  function CommitEmpty(s: Store, r: Result<Store, Error>): Exchange<Empty> {
    match r
    case Ok(t) => Exchange(Response.Ok(Empty), t)
    case Err(e) => Exchange(Failed(e), s)
  }

  /** The collaborators outside this model: the clock that stamps new reviews,
      the password encoder, and the two security beans the method-security
      expressions call (`@userSecurity.isCurrentUser(id, principal)` and
      `@instructorSecurity.isCurrentInstructor(id, principal)`). */
  datatype Env = Env(
    now: int,
    encode: string -> string,
    isCurrentUser: (Id, Principal) -> bool,
    isCurrentInstructor: (Id, Principal) -> bool)
}
