/** The account endpoints under /api/users: admin-only listing and deletion,
    reads and edits open to an admin or the account itself, and the
    availability checks the registration form uses. */
module UserController {
  import opened Wrappers
  import opened Domain
  import opened SecurityConfig
  import Http
  import UserService

  /** `hasRole('ADMIN') or @userSecurity.isCurrentUser(#id, #currentUser)`. */
  predicate AdminOrSelf(env: Http.Env, p: Principal, id: Id) {
    HasRole(p, "ADMIN") || env.isCurrentUser(id, p)
  }

  /** GET: admin only. */
  function GetAllUsers(p: Principal, s: Store): (r: Http.Response<set<Id>>)
    ensures r.Denied? <==> !HasRole(p, "ADMIN")
    ensures HasRole(p, "ADMIN") ==> r.Ok?
    ensures r.Ok? ==> r.body == s.users.Keys
  {
    if !HasRole(p, "ADMIN") then Http.Denied else Http.Ok(s.users.Keys)
  }

  /** GET /{id}. */
  function GetUserById(env: Http.Env, p: Principal, id: Id, s: Store): (r: Http.Response<User>)
    ensures r.Denied? <==> !AdminOrSelf(env, p, id)
    ensures AdminOrSelf(env, p, id) ==> (r.Ok? <==> id in s.users)
    ensures r.Ok? ==> id in s.users && r.body == s.users[id]
    ensures r.Failed? ==> r.error == NotFound("User", "id")
  {
    if !AdminOrSelf(env, p, id) then Http.Denied else Http.Answer(UserService.FindById(s, id))
  }

  /** GET /me: the caller's own account. */
  function GetCurrentUser(p: Principal, s: Store): (r: Http.Response<User>)
    ensures r.Ok? <==> p.id in s.users
    ensures r.Ok? ==> r.body == s.users[p.id]
    ensures !r.Ok? ==> r == Http.Failed(NotFound("User", "id"))
  {
    Http.Answer(UserService.FindById(s, p.id))
  }

  /** PUT /{id}. */
  function UpdateUser(env: Http.Env, p: Principal, id: Id, dto: UserService.UserDto, s: Store): (x: Http.Exchange<User>)
    ensures x.response.Denied? <==> !AdminOrSelf(env, p, id)
    ensures !x.response.Ok? ==> x.store == s
    ensures AdminOrSelf(env, p, id) && id !in s.users ==> x.response == Http.Failed(NotFound("User", "id"))
    ensures AdminOrSelf(env, p, id) && id in s.users ==>
      (x.response == Http.Failed(IllegalArgument("Username is already taken!")) <==>
        s.users[id].username != dto.username && UserService.ExistsByUsername(s.users, dto.username))
    ensures AdminOrSelf(env, p, id) && id in s.users ==>
      (x.response == Http.Failed(IllegalArgument("Email is already in use!")) <==>
        && !(s.users[id].username != dto.username && UserService.ExistsByUsername(s.users, dto.username))
        && s.users[id].email != dto.email && UserService.ExistsByEmail(s.users, dto.email))
    ensures AdminOrSelf(env, p, id) ==>
      (x.response.Ok? <==>
        && id in s.users
        && !(s.users[id].username != dto.username && UserService.ExistsByUsername(s.users, dto.username))
        && !(s.users[id].email != dto.email && UserService.ExistsByEmail(s.users, dto.email)))
    ensures x.response.Ok? ==>
      && id in s.users
      && x.response.body.username == dto.username && x.response.body.email == dto.email
      && x.response.body.firstName == dto.firstName && x.response.body.lastName == dto.lastName
      && x.response.body.role == dto.role
      && (if dto.password.Some? && dto.password.value != "" then x.response.body.passwordHash == env.encode(dto.password.value)
          else x.response.body.passwordHash == s.users[id].passwordHash)
      && x.store == s.(users := s.users[id := x.response.body])
  {
    if !AdminOrSelf(env, p, id) then Http.Exchange(Http.Denied, s)
    else Http.Commit(s, UserService.UpdateUser(s, env.encode, id, dto))
  }

  /** DELETE /{id}: admin only. */
  function DeleteUser(p: Principal, id: Id, s: Store): (x: Http.Exchange<Http.Empty>)
    ensures x.response.Denied? <==> !HasRole(p, "ADMIN")
    ensures !x.response.Ok? ==> x.store == s
    ensures HasRole(p, "ADMIN") ==> (x.response.Ok? <==> id in s.users)
    ensures x.response.Ok? ==> x.store.users.Keys == s.users.Keys - {id}
    ensures x.response.Failed? ==> x.response.error == NotFound("User", "id")
    ensures x.response.Ok? ==> x.store == s.(users := s.users - {id})
    ensures x.response.Ok? ==> UserService.DeleteUser(s, id) == Ok(x.store)
  {
    if !HasRole(p, "ADMIN") then Http.Exchange(Http.Denied, s)
    else Http.CommitEmpty(s, UserService.DeleteUser(s, id))
  }

  /** GET /check/username: available exactly when no account holds it. */
  function CheckUsernameAvailability(s: Store, username: string): (r: Http.Response<bool>)
    ensures r.Ok?
    ensures r.body <==> forall k :: k in s.users ==> s.users[k].username != username
  {
    Http.Ok(!UserService.ExistsByUsername(s.users, username))
  }

  /** GET /check/email: available exactly when no account holds it. */
  function CheckEmailAvailability(s: Store, email: string): (r: Http.Response<bool>)
    ensures r.Ok?
    ensures r.body <==> forall k :: k in s.users ==> s.users[k].email != email
  {
    Http.Ok(!UserService.ExistsByEmail(s.users, email))
  }

  /** The availability checks predict registration: a registration with an
      available username and email and a password succeeds, after which
      both are taken. */
  lemma AvailabilityPredictsRegistration(s: Store, encode: string -> string, dto: UserService.UserDto)
    requires CheckUsernameAvailability(s, dto.username).body
    requires CheckEmailAvailability(s, dto.email).body
    requires dto.password.Some?
    ensures UserService.RegisterUser(s, encode, dto).Ok?
    ensures
      var t := UserService.RegisterUser(s, encode, dto).value.store;
      !CheckUsernameAvailability(t, dto.username).body && !CheckEmailAvailability(t, dto.email).body
  {
    var c := UserService.RegisterUser(s, encode, dto).value;
    assert c.store.users[c.value].username == dto.username;
  }

  /** With a bean that compares the path id with the caller's id, a
      non-admin can read and edit only their own account. */
  lemma SelfMeansSameId(env: Http.Env, p: Principal, id: Id, dto: UserService.UserDto, s: Store)
    requires forall i: Id, q: Principal :: env.isCurrentUser(i, q) <==> i == q.id
    requires !IsAdmin(p)
    ensures GetUserById(env, p, id, s).Denied? <==> id != p.id
    ensures UpdateUser(env, p, id, dto, s).response.Denied? <==> id != p.id
  {
    AdminRoleIsAdmin(p);
  }
}
