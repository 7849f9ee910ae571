/** The body returned on login and registration. */
module AuthResponse {
  import opened Wrappers
  import opened Domain
  import Text

  /** The serialized fields: access_token, token_type, user_id, username,
      email and role. */
  datatype AuthResponse = AuthResponse(
    token: string,
    tokenType: string,
    userId: Id,
    username: string,
    email: string,
    role: string)

  /** The token type every response carries. */
  const Bearer: string := "Bearer"

  /** The role as stored by the constructor: upper-cased, or "LEARNER" when absent. */
  function NormalizeRole(role: Option<string>): (r: string)
    ensures role.None? ==> r == "LEARNER"
    ensures role.Some? ==> |r| == |role.value| && Text.IsUpperCase(r)
    ensures role.Some? ==> forall i :: 0 <= i < |r| ==> r[i] == Text.UpperChar(role.value[i])
  {
    match role
    case None => "LEARNER"
    case Some(s) => Text.ToUpper(s)
  }

  /** The five-argument constructor: fields as given, default token type, normalised role. */
  function Make(token: string, userId: Id, username: string, email: string, role: Option<string>): (a: AuthResponse)
    ensures a.tokenType == Bearer
    ensures a.token == token && a.userId == userId && a.username == username && a.email == email
    ensures a.role == NormalizeRole(role)
  {
    AuthResponse(token, Bearer, userId, username, email, NormalizeRole(role))
  }

  /** Normalisation is idempotent, and leaves an already upper-case role,
      in particular the name of every role constant, unchanged. */
  lemma NormalizeRoleStable(role: string, r: Role)
    ensures NormalizeRole(Some(NormalizeRole(Some(role)))) == NormalizeRole(Some(role))
    ensures Text.IsUpperCase(role) ==> NormalizeRole(Some(role)) == role
    ensures NormalizeRole(Some(RoleName(r))) == RoleName(r)
  {
    Text.ToUpperProperties(role);
    Text.ToUpperProperties(RoleName(r));
  }

  /** Upper-casing maps the lower-case spelling of a role to its constant name. */
  lemma NormalizeRoleExamples()
    ensures NormalizeRole(Some("learner")) == "LEARNER"
    ensures NormalizeRole(Some("Admin")) == "ADMIN"
    ensures NormalizeRole(None) == NormalizeRole(Some("learner"))
  {
  }
}
