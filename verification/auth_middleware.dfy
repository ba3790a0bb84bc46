/** The API gates every protected route calls first: `withAuth` (a verified bearer
    token) and `withRole` (its single `role` claim is one of the allowed roles). */
module AuthMiddleware {
  import opened Wrappers
  import opened Jwt
  import Http

  /** Either the ready-to-send error response or the decoded identity. */
  datatype AuthResult = Denied(response: Http.Failure) | Authenticated(user: Claims)

  /** The gate of an unseen module (`withPermission`), kept as a parameter: given the
      Authorization header and a permission name it denies or authenticates. */
  type PermissionGate = (Option<string>, string) -> AuthResult

  /** A token that is present and non-empty; the empty string is falsy in `if (!token)`. */
  predicate HasToken(authorization: Option<string>) {
    var t := TokenFromHeader(authorization);
    t.Some? && t.value != ""
  }

  /** `withAuth`: 401 without a token, 401 when verification fails, else the claims. */
  function WithAuth(authorization: Option<string>, verify: Verifier): (r: AuthResult)
    ensures !HasToken(authorization) ==> r == Denied(Http.AuthenticationRequired)
    ensures r.Authenticated? ==>
      && authorization.Some?
      && BearerPrefix <= authorization.value
      && |authorization.value| > |BearerPrefix|
      && verify(authorization.value[|BearerPrefix|..]) == Some(r.user)
    ensures r.Denied? ==> r.response.status == 401
    ensures HasToken(authorization) ==>
      (r.Denied? <==> verify(TokenFromHeader(authorization).value).None?)
  {
    var token := TokenFromHeader(authorization);
    if token.None? || token.value == "" then
      Denied(Http.AuthenticationRequired)
    else
      match verify(token.value)
      case None => Denied(Http.InvalidOrExpiredToken)
      case Some(claims) => Authenticated(claims)
  }

  /** Without a usable token the verifier is never consulted: any two verifiers give the
      same answer. */
  lemma NoTokenIgnoresVerifier(authorization: Option<string>, v1: Verifier, v2: Verifier)
    requires !HasToken(authorization)
    ensures WithAuth(authorization, v1) == WithAuth(authorization, v2) == Denied(Http.AuthenticationRequired)
  {
  }

  /** The header `"Bearer "` carries an empty token, which counts as no token. */
  lemma EmptyBearerIsMissing(verify: Verifier)
    ensures WithAuth(Some("Bearer "), verify) == Denied(Http.AuthenticationRequired)
  {
    TokenFromHeaderEdges();
  }

  /** A well-formed header whose token the verifier rejects is "Invalid or expired token";
      one it accepts yields exactly the decoded claims. */
  lemma WithAuthOnBearer(t: string, verify: Verifier)
    requires t != ""
    ensures verify(t).None? ==> WithAuth(Some(BearerPrefix + t), verify) == Denied(Http.InvalidOrExpiredToken)
    ensures verify(t).Some? ==> WithAuth(Some(BearerPrefix + t), verify) == Authenticated(verify(t).value)
  {
    TokenFromBearerHeader(t);
  }

  /** The `allowedRoles.includes(user.role)` test on the single role claim. */
  predicate RoleAllowed(claims: Claims, allowedRoles: seq<string>) {
    claims.role.Some? && claims.role.value in allowedRoles
  }

  /** `withRole`: `withAuth` failures pass through untouched; an identity whose role is
      not allowed gets 403; otherwise the very result of `withAuth`. */
  function WithRole(authorization: Option<string>, verify: Verifier, allowedRoles: seq<string>): (r: AuthResult)
    ensures WithAuth(authorization, verify).Denied? ==> r == WithAuth(authorization, verify)
    ensures r.Authenticated? ==> r == WithAuth(authorization, verify) && RoleAllowed(r.user, allowedRoles)
    ensures WithAuth(authorization, verify).Authenticated? && !RoleAllowed(WithAuth(authorization, verify).user, allowedRoles)
      ==> r == Denied(Http.InsufficientPermissions)
  {
    var auth := WithAuth(authorization, verify);
    if auth.Denied? then auth
    else if !RoleAllowed(auth.user, allowedRoles) then Denied(Http.InsufficientPermissions)
    else auth
  }

  /** With no allowed role nobody passes. */
  lemma WithRoleEmptyNeverSucceeds(authorization: Option<string>, verify: Verifier)
    ensures WithRole(authorization, verify, []).Denied?
  {
  }

  /** Enlarging the allowed roles never turns a success into a failure. */
  lemma WithRoleMonotone(authorization: Option<string>, verify: Verifier, small: seq<string>, large: seq<string>)
    requires forall x :: x in small ==> x in large
    ensures WithRole(authorization, verify, small).Authenticated? ==> WithRole(authorization, verify, large).Authenticated?
  {
  }

  /** A success of `withRole` is a success of `withAuth` for an identity whose role is
      allowed, and conversely: the role gate is an any-of test on one claim. */
  lemma WithRoleCharacterization(authorization: Option<string>, verify: Verifier, allowedRoles: seq<string>)
    ensures WithRole(authorization, verify, allowedRoles).Authenticated? <==>
      (WithAuth(authorization, verify).Authenticated? && RoleAllowed(WithAuth(authorization, verify).user, allowedRoles))
  {
  }
}
