/** Account management: registration and update keep usernames and emails
    unique; the password is stored only through the password encoder, which
    is an uninterpreted function here. */
module UserService {
  import opened Wrappers
  import opened Domain

  /** The registration / update request body. A missing password is `None`. */
  datatype UserDto = UserDto(
    username: string,
    email: string,
    password: Option<string>,
    firstName: string,
    lastName: string,
    role: Role)

  /** The usernames and the emails currently held by some account. */
  function Usernames(users: map<Id, User>): set<string> {
    set k | k in users :: users[k].username
  }

  function Emails(users: map<Id, User>): set<string> {
    set k | k in users :: users[k].email
  }

  /** `existsByUsername`: some stored account has the username. */
  function ExistsByUsername(users: map<Id, User>, username: string): (b: bool)
    ensures b <==> username in Usernames(users)
  {
    exists k :: k in users && users[k].username == username
  }

  /** `existsByEmail`: some stored account has the email. */
  function ExistsByEmail(users: map<Id, User>, email: string): (b: bool)
    ensures b <==> email in Emails(users)
  {
    exists k :: k in users && users[k].email == email
  }

  /** `findById`: the user, or NotFound. */
  function FindById(s: Store, id: Id): (r: Result<User, Error>)
    ensures r.Ok? <==> id in s.users
    ensures r.Ok? ==> r.value == s.users[id]
    ensures r.Err? ==> r.error == NotFound("User", "id")
  {
    if id in s.users then Ok(s.users[id]) else Err(NotFound("User", "id"))
  }

  /** `findByUsername`: the key of the user with that username, NotFound when
      there is none (and a non-unique-result error if the table held two). */
  function FindByUsername(s: Store, username: string): (r: Result<Id, Error>)
    ensures r.Ok? ==> r.value in s.users && s.users[r.value].username == username
    ensures r == Err(NotFound("User", "username")) <==> !ExistsByUsername(s.users, username)
    ensures r.Err? ==> r.error == NotFound("User", "username") || r.error == NonUniqueResult("User")
  {
    var found :- SingleMatch(s.users, (u: User) => u.username == username, "User");
    if found.None? then Err(NotFound("User", "username")) else Ok(found.value)
  }

  /** With unique usernames the lookup succeeds exactly for a taken username. */
  lemma FindByUsernameTotal(s: Store, username: string)
    requires UniqueUsernames(s.users)
    ensures FindByUsername(s, username).Ok? <==> ExistsByUsername(s.users, username)
  {
  }

  /** The stored form of a registration request. */
  function NewUser(dto: UserDto, hash: string): User {
    User(dto.username, dto.email, hash, dto.firstName, dto.lastName, dto.role)
  }

  /** `registerUser`: the username is checked before the email, and a null
      password makes the encoder throw. */
  function RegisterUser(s: Store, encode: string -> string, dto: UserDto): (r: Result<Committed<Id>, Error>)
    ensures r == Err(IllegalArgument("Username is already taken!")) <==> ExistsByUsername(s.users, dto.username)
    ensures r == Err(IllegalArgument("Email is already in use!")) <==>
      !ExistsByUsername(s.users, dto.username) && ExistsByEmail(s.users, dto.email)
    ensures r == Err(EncoderFailure) <==>
      !ExistsByUsername(s.users, dto.username) && !ExistsByEmail(s.users, dto.email) && dto.password.None?
    ensures r.Ok? <==>
      !ExistsByUsername(s.users, dto.username) && !ExistsByEmail(s.users, dto.email) && dto.password.Some?
    ensures r.Ok? ==>
      var id := r.value.value;
      var t := r.value.store;
      && dto.password.Some?
      && id in t.users
      && t.users[id] == User(dto.username, dto.email, encode(dto.password.value), dto.firstName, dto.lastName, dto.role)
      && (IdsFresh(s) ==> id !in s.users && t.users == s.users[id := t.users[id]])
      && t.instructors == s.instructors && t.courses == s.courses && t.reviews == s.reviews
  {
    if ExistsByUsername(s.users, dto.username) then
      Err(IllegalArgument("Username is already taken!"))
    else if ExistsByEmail(s.users, dto.email) then
      Err(IllegalArgument("Email is already in use!"))
    else if dto.password.None? then
      Err(EncoderFailure)
    else
      var id: Id := s.nextUserId;
      var user := NewUser(dto, encode(dto.password.value));
      Ok(Committed(id, s.(users := s.users[id := user], nextUserId := id + 1)))
  }

  /** Registration keeps the store well formed: in particular usernames and
      emails stay unique across all users. */
  lemma RegisterUserPreservesWf(s: Store, encode: string -> string, dto: UserDto)
    requires Wf(s)
    requires RegisterUser(s, encode, dto).Ok?
    ensures Wf(RegisterUser(s, encode, dto).value.store)
  {
    var c := RegisterUser(s, encode, dto).value;
    assert c.store.users == s.users[c.value := c.store.users[c.value]];
    assert forall k :: k in s.users ==> s.users[k].username != dto.username;
    assert forall k :: k in s.users ==> s.users[k].email != dto.email;
  }

  /** On a store with fresh ids, a registration adds exactly the new username
      and email to the taken ones, so both are then reported as existing. */
  lemma RegisterUserTakesNames(s: Store, encode: string -> string, dto: UserDto)
    requires IdsFresh(s)
    requires RegisterUser(s, encode, dto).Ok?
    ensures Usernames(RegisterUser(s, encode, dto).value.store.users) == Usernames(s.users) + {dto.username}
    ensures Emails(RegisterUser(s, encode, dto).value.store.users) == Emails(s.users) + {dto.email}
    ensures ExistsByUsername(RegisterUser(s, encode, dto).value.store.users, dto.username)
    ensures ExistsByEmail(RegisterUser(s, encode, dto).value.store.users, dto.email)
  {
    var c := RegisterUser(s, encode, dto).value;
    var t := c.store.users;
    assert t == s.users[c.value := t[c.value]];
    assert forall k :: k in s.users ==> k in t && t[k] == s.users[k];
    assert dto.username in Usernames(t) by {
      assert t[c.value].username == dto.username;
    }
    assert dto.email in Emails(t) by {
      assert t[c.value].email == dto.email;
    }
  }

  /** `updateUser`: a username or email conflict is raised only when the
      value changes and another user already holds it; the password hash is
      replaced only for a non-empty new password. */
  function UpdateUser(s: Store, encode: string -> string, id: Id, dto: UserDto): (r: Result<Committed<User>, Error>)
    ensures id !in s.users ==> r == Err(NotFound("User", "id"))
    ensures id in s.users ==>
      (r == Err(IllegalArgument("Username is already taken!")) <==>
        s.users[id].username != dto.username && ExistsByUsername(s.users, dto.username))
    ensures id in s.users ==>
      (r == Err(IllegalArgument("Email is already in use!")) <==>
        && !(s.users[id].username != dto.username && ExistsByUsername(s.users, dto.username))
        && s.users[id].email != dto.email && ExistsByEmail(s.users, dto.email))
    ensures r.Ok? <==>
      && id in s.users
      && !(s.users[id].username != dto.username && ExistsByUsername(s.users, dto.username))
      && !(s.users[id].email != dto.email && ExistsByEmail(s.users, dto.email))
    ensures r.Ok? ==>
      var u := r.value.value;
      && id in s.users
      && r.value.store == s.(users := s.users[id := u])
      && u.username == dto.username && u.email == dto.email
      && u.firstName == dto.firstName && u.lastName == dto.lastName && u.role == dto.role
      && (if dto.password.Some? && dto.password.value != "" then u.passwordHash == encode(dto.password.value)
          else u.passwordHash == s.users[id].passwordHash)
  {
    var user :- FindById(s, id);
    if user.username != dto.username && ExistsByUsername(s.users, dto.username) then
      Err(IllegalArgument("Username is already taken!"))
    else if user.email != dto.email && ExistsByEmail(s.users, dto.email) then
      Err(IllegalArgument("Email is already in use!"))
    else
      var hash := if dto.password.Some? && |dto.password.value| > 0 then encode(dto.password.value) else user.passwordHash;
      var updated := user.(username := dto.username, email := dto.email, passwordHash := hash,
                           firstName := dto.firstName, lastName := dto.lastName, role := dto.role);
      Ok(Committed(updated, s.(users := s.users[id := updated])))
  }

  /** Keeping one's own username and email never raises a conflict. */
  lemma UpdateUserKeepingIdentityNeverConflicts(s: Store, encode: string -> string, id: Id, dto: UserDto)
    requires id in s.users
    requires dto.username == s.users[id].username && dto.email == s.users[id].email
    ensures UpdateUser(s, encode, id, dto).Ok?
  {
  }

  /** An update keeps usernames and emails unique. */
  lemma UpdateUserPreservesWf(s: Store, encode: string -> string, id: Id, dto: UserDto)
    requires Wf(s)
    requires UpdateUser(s, encode, id, dto).Ok?
    ensures Wf(UpdateUser(s, encode, id, dto).value.store)
  {
    var t := UpdateUser(s, encode, id, dto).value.store;
    forall a, b | a in t.users && b in t.users && a != b
      ensures t.users[a].username != t.users[b].username && t.users[a].email != t.users[b].email
    {
      if a == id || b == id {
        var other := if a == id then b else a;
        assert other in s.users && other != id;
        if s.users[id].username != dto.username {
          assert !ExistsByUsername(s.users, dto.username);
        }
        if s.users[id].email != dto.email {
          assert !ExistsByEmail(s.users, dto.email);
        }
      }
    }
  }

  /** `deleteUser`: removes exactly that user, or NotFound. */
  function DeleteUser(s: Store, id: Id): (r: Result<Store, Error>)
    ensures r.Ok? <==> id in s.users
    ensures r.Err? ==> r.error == NotFound("User", "id")
    ensures r.Ok? ==> r.value.users.Keys == s.users.Keys - {id}
    ensures r.Ok? ==> forall k :: k in r.value.users ==> r.value.users[k] == s.users[k]
    ensures r.Ok? ==> r.value == s.(users := r.value.users)
  {
    var _ :- FindById(s, id);
    Ok(s.(users := s.users - {id}))
  }

  /** Deleting a user keeps the store well formed. */
  lemma DeleteUserPreservesWf(s: Store, id: Id)
    requires Wf(s) && id in s.users
    ensures Wf(DeleteUser(s, id).value)
  {
  }
}
