/** The HTTP security filter chain: which paths are public, the 401 answer to
    an unauthenticated request, and the CORS policy. Sessions are stateless,
    so every decision is a function of the current request alone. */
module SecurityConfig {
  import opened Wrappers
  import opened Domain

  /** The authenticated principal the token filter installs: the user's id
      and its granted authority names (such as "ROLE_ADMIN"). */
  datatype Principal = Principal(id: Id, authorities: set<string>)

  predicate HasAuthority(p: Principal, authority: string) {
    authority in p.authorities
  }

  /** `hasRole('X')`: the authority "ROLE_X" is granted, that is, some
      granted authority is the "ROLE_" prefix followed by exactly the role. */
  function HasRole(p: Principal, role: string): (b: bool)
    ensures b <==> exists a :: a in p.authorities && |a| >= 5 && a[..5] == "ROLE_" && a[5..] == role
  {
    var a := "ROLE_" + role;
    assert a[..5] == "ROLE_" && a[5..] == role;
    assert forall x :: |x| >= 5 && x[..5] == "ROLE_" && x[5..] == role ==> x == a by {
      forall x | |x| >= 5 && x[..5] == "ROLE_" && x[5..] == role
        ensures x == a
      {
        assert x == x[..5] + x[5..];
      }
    }
    HasAuthority(p, a)
  }

  /** The granted-authority check the controllers perform in their bodies. */
  predicate IsAdmin(p: Principal) {
    HasAuthority(p, "ROLE_ADMIN")
  }

  /** The body check and the `hasRole('ADMIN')` expression agree. */
  lemma AdminRoleIsAdmin(p: Principal)
    ensures HasRole(p, "ADMIN") <==> IsAdmin(p)
  {
    assert "ROLE_" + "ADMIN" == "ROLE_ADMIN";
  }

  /** The `permitAll` patterns, each without its trailing double-star segment. */
  const PublicPrefixes: seq<string> := ["/api/auth", "/api/public", "/actuator"]

  /** An Ant pattern ending in a double-star segment matches the prefix
      itself and everything below it: the path starts with the prefix and
      either ends there or continues with a new segment. */
  function MatchesAll(path: string, prefix: string): (b: bool)
    ensures b <==> prefix <= path && (|path| == |prefix| || path[|prefix|] == '/')
  {
    assert prefix <= path && |path| > |prefix| ==> prefix + [path[|prefix|]] == path[..|prefix| + 1];
    path == prefix || prefix + "/" <= path
  }

  /** A path is public exactly when it lies at or under one of the three
      `permitAll` prefixes. */
  function IsPublic(path: string): (b: bool)
    ensures b <==> MatchesAll(path, "/api/auth") || MatchesAll(path, "/api/public") || MatchesAll(path, "/actuator")
  {
    assert PublicPrefixes[0] == "/api/auth" && PublicPrefixes[1] == "/api/public" && PublicPrefixes[2] == "/actuator";
    exists i | 0 <= i < |PublicPrefixes| :: MatchesAll(path, PublicPrefixes[i])
  }

  /** The decision of the filter chain for one request. */
  datatype Access = Permit | Challenge(body: string)

  /** The fixed text of the 401 body before and after the exception's detail. */
  const BodyHead: string := "{\"error\": \"Unauthorized\", \"message\": \"Authentication required: "
  const BodyTail: string := "\"}"

  /** The JSON body the authentication entry point writes with status 401:
      the detail framed by the fixed head and tail, nothing added or lost. */
  function UnauthorizedBody(detail: string): (body: string)
    ensures |body| == |BodyHead| + |detail| + |BodyTail|
    ensures BodyHead <= body
    ensures body[|BodyHead|..|body| - |BodyTail|] == detail
    ensures body[|body| - |BodyTail|..] == BodyTail
  {
    "{\"error\": \"Unauthorized\", \"message\": \"Authentication required: " + detail + "\"}"
  }

  /** Public paths are let through; every other path needs a principal, and
      without one the request is answered with the 401 body. */
  function FilterChain(path: string, principal: Option<Principal>, detail: string): (a: Access)
    ensures a.Permit? <==> IsPublic(path) || principal.Some?
    ensures a.Challenge? ==> a.body == UnauthorizedBody(detail)
  {
    if IsPublic(path) || principal.Some? then Permit else Challenge(UnauthorizedBody(detail))
  }

  /** The 401 body carries the error "Unauthorized" and a message made of
      the fixed prefix and the exception's detail, which can be read back. */
  lemma UnauthorizedBodyCarriesDetail(detail: string)
    ensures UnauthorizedBody(detail) == BodyHead + detail + BodyTail
    ensures BodyHead <= UnauthorizedBody(detail)
    ensures UnauthorizedBody(detail)[|BodyHead|..|UnauthorizedBody(detail)| - |BodyTail|] == detail
  {
    var b := UnauthorizedBody(detail);
    assert b == BodyHead + detail + BodyTail;
    assert b[|BodyHead|..|b| - |BodyTail|] == detail;
  }

  /** Distinct details give distinct 401 bodies. */
  lemma UnauthorizedBodyInjective(d1: string, d2: string)
    requires UnauthorizedBody(d1) == UnauthorizedBody(d2)
    ensures d1 == d2
  {
    UnauthorizedBodyCarriesDetail(d1);
    UnauthorizedBodyCarriesDetail(d2);
  }

  /** The bare prefixes and the paths below them are public; a path that only
      extends a prefix's last segment (such as "/api/authx") is not. */
  lemma PublicPathExamples()
    ensures IsPublic("/api/auth") && IsPublic("/api/auth/login") && IsPublic("/api/public/")
    ensures IsPublic("/actuator/health")
    ensures !IsPublic("/api/authx") && !IsPublic("/api/publicity") && !IsPublic("/api")
  {
    assert MatchesAll("/api/auth", PublicPrefixes[0]);
    assert MatchesAll("/api/auth/login", PublicPrefixes[0]);
    assert MatchesAll("/api/public/", PublicPrefixes[1]);
    assert MatchesAll("/actuator/health", PublicPrefixes[2]);
    NotUnder("/api/authx", "/api/auth", 9);
    NotUnder("/api/authx", "/api/public", 5);
    NotUnder("/api/authx", "/actuator", 2);
    NotUnder("/api/publicity", "/api/auth", 5);
    NotUnder("/api/publicity", "/api/public", 11);
    NotUnder("/api/publicity", "/actuator", 2);
    NotUnder("/api", "/api/auth", 4);
    NotUnder("/api", "/api/public", 4);
    NotUnder("/api", "/actuator", 2);
  }

  /** A path other than the prefix that differs from the prefix followed by
      "/" at some position within it (or ends before it) is not below it. */
  lemma NotUnder(path: string, q: string, at: nat)
    requires path != q && at <= |q|
    requires at < |path| ==> path[at] != (q + "/")[at]
    ensures !MatchesAll(path, q)
  {
  }

  /** The base paths of the four controllers. */
  const ControllerBases: seq<string> := ["/api/reviews", "/api/instructors", "/api/courses", "/api/users"]

  /** Every path under a controller base is protected: without a principal the
      request is challenged, whatever the rest of the path is. */
  lemma ControllerPathsNeedAuthentication(i: nat, rest: string, detail: string)
    requires i < |ControllerBases|
    ensures !IsPublic(ControllerBases[i] + rest)
    ensures FilterChain(ControllerBases[i] + rest, None, detail) == Challenge(UnauthorizedBody(detail))
  {
    var path := ControllerBases[i] + rest;
    forall j | 0 <= j < |PublicPrefixes|
      ensures !MatchesAll(path, PublicPrefixes[j])
    {
      var q := PublicPrefixes[j];
      var at := if j == 2 then 2 else 5;
      assert path[at] == ControllerBases[i][at];
    }
  }

  /** The CORS origins and methods. */
  const AllowedOrigins: set<string> :=
    {"http://localhost:4200", "http://localhost:5000", "http://0.0.0.0:5000", "http://localhost:8080"}
  const AllowedMethods: set<string> := {"GET", "POST", "PUT", "PATCH", "DELETE", "OPTIONS"}

  /** A cross-origin request is allowed exactly for a listed origin and a
      listed method. */
  function CorsAllows(origin: string, verb: string): (ok: bool)
    ensures ok <==> origin in AllowedOrigins && verb in AllowedMethods
  {
    origin in AllowedOrigins && verb in AllowedMethods
  }

  /** Spelled out over the configured literals: the four origins (the
      front-end on 4200, the two 5000 hosts and 8080) and the six methods. */
  lemma CorsAllowsExactly(origin: string, verb: string)
    ensures CorsAllows(origin, verb) <==>
      && (|| origin == "http://localhost:4200" || origin == "http://localhost:5000"
          || origin == "http://0.0.0.0:5000" || origin == "http://localhost:8080")
      && (|| verb == "GET" || verb == "POST" || verb == "PUT"
          || verb == "PATCH" || verb == "DELETE" || verb == "OPTIONS")
  {
  }

  /** The policy admits exactly four origins and six methods: HEAD and TRACE
      are refused, and so is any other port of localhost. */
  lemma CorsPolicyShape()
    ensures |AllowedOrigins| == 4 && |AllowedMethods| == 6
    ensures !CorsAllows("http://localhost:4200", "HEAD") && !CorsAllows("http://localhost:4200", "TRACE")
    ensures !CorsAllows("http://localhost:3000", "GET")
    ensures CorsAllows("http://0.0.0.0:5000", "PATCH")
  {
  }
}
