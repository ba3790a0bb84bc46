/** `useAuthStore`: the client's record of who is logged in. Three operations change it
    (`login`, `logout` and `updateUser`), and whatever sequence of them runs, the store is
    authenticated exactly when it holds a token, which is exactly when it holds a user. */
module AuthStore {
  import opened Wrappers
  import opened Records

  /** The user the client keeps: the login answer without the password hash. */
  datatype ClientUser = ClientUser(id: string, name: string, email: string, role: UserRole)

  /** A `Partial<User>`: the fields an update supplies. */
  datatype UserPatch = UserPatch(id: Option<string>, name: Option<string>, email: Option<string>, role: Option<UserRole>)

  datatype AuthState = AuthState(user: Option<ClientUser>, token: Option<string>, isAuthenticated: bool)

  /** The state the store is created with: no user, no token, not authenticated. */
  const Initial := AuthState(None, None, false)

  /** The store's invariant: the flag, the token and the user are present together. */
  predicate Consistent(s: AuthState) {
    (s.isAuthenticated <==> s.token.Some?) && (s.isAuthenticated <==> s.user.Some?)
  }

  /** `login(user, token)`: both are kept and the flag is raised, whatever came before. */
  function Login(s: AuthState, user: ClientUser, token: string): (r: AuthState)
    ensures Consistent(r) && r.isAuthenticated
    ensures r.user == Some(user) && r.token == Some(token)
  {
    AuthState(Some(user), Some(token), true)
  }

  /** `logout()`: back to the initial state, whatever came before. */
  function Logout(s: AuthState): (r: AuthState)
    ensures Consistent(r) && !r.isAuthenticated
    ensures r.user.None? && r.token.None?
  {
    Initial
  }

  /** `{ ...user, ...patch }`: each supplied field replaces the user's, the rest stay. */
  function Merge(u: ClientUser, p: UserPatch): ClientUser {
    ClientUser(p.id.GetOr(u.id), p.name.GetOr(u.name), p.email.GetOr(u.email), p.role.GetOr(u.role))
  }

  /** `updateUser(patch)`: merge into the user when there is one, keep no user when there
      is none; the token and the flag are not touched. */
  function UpdateUser(s: AuthState, p: UserPatch): (r: AuthState)
    ensures r.token == s.token && r.isAuthenticated == s.isAuthenticated
    ensures r.user.Some? <==> s.user.Some?
    ensures Consistent(s) ==> Consistent(r)
  {
    s.(user := if s.user.Some? then Some(Merge(s.user.value, p)) else None)
  }

  lemma InitialConsistent()
    ensures Consistent(Initial) && !Initial.isAuthenticated
  {
  }

  /** A merge changes exactly the supplied fields. */
  lemma MergeChangesSupplied(u: ClientUser, p: UserPatch)
    ensures p.id.None? ==> Merge(u, p).id == u.id
    ensures p.name.None? ==> Merge(u, p).name == u.name
    ensures p.email.None? ==> Merge(u, p).email == u.email
    ensures p.role.None? ==> Merge(u, p).role == u.role
    ensures p.id.Some? ==> Merge(u, p).id == p.id.value
    ensures p.name.Some? ==> Merge(u, p).name == p.name.value
    ensures p.email.Some? ==> Merge(u, p).email == p.email.value
    ensures p.role.Some? ==> Merge(u, p).role == p.role.value
  {
  }

  /** The later of two patches wins field by field. */
  function Then(p: UserPatch, q: UserPatch): UserPatch {
    UserPatch(if q.id.Some? then q.id else p.id, if q.name.Some? then q.name else p.name,
              if q.email.Some? then q.email else p.email, if q.role.Some? then q.role else p.role)
  }

  /** Two updates in a row are one update with the later patch winning; an empty patch
      changes nothing, and applying a patch twice is applying it once. */
  lemma UpdatesCompose(s: AuthState, p: UserPatch, q: UserPatch)
    ensures UpdateUser(UpdateUser(s, p), q) == UpdateUser(s, Then(p, q))
    ensures UpdateUser(s, UserPatch(None, None, None, None)) == s
    ensures UpdateUser(UpdateUser(s, p), p) == UpdateUser(s, p)
  {
  }

  /** Once logged out, no update brings a user back. */
  lemma UpdateAfterLogout(s: AuthState, p: UserPatch)
    ensures UpdateUser(Logout(s), p) == Initial
  {
  }

  /** One call on the store. */
  datatype Call = CallLogin(user: ClientUser, token: string) | CallLogout | CallUpdate(patch: UserPatch)

  function Step(s: AuthState, c: Call): AuthState {
    match c
    case CallLogin(user, token) => Login(s, user, token)
    case CallLogout => Logout(s)
    case CallUpdate(patch) => UpdateUser(s, patch)
  }

  /** The state after `calls`, in order, from `s`. */
  function Run(s: AuthState, calls: seq<Call>): AuthState
    decreases |calls|
  {
    if calls == [] then s else Run(Step(s, calls[0]), calls[1..])
  }

  /** Every state the store can reach from its initial state keeps the invariant. */
  lemma {:induction false} RunKeepsConsistent(s: AuthState, calls: seq<Call>)
    requires Consistent(s)
    ensures Consistent(Run(s, calls))
    decreases |calls|
  {
    if calls != [] {
      RunKeepsConsistent(Step(s, calls[0]), calls[1..]);
    }
  }

  /** Updates alone never log anyone in or out. */
  lemma {:induction false} UpdatesKeepLogin(s: AuthState, calls: seq<Call>)
    requires forall i :: 0 <= i < |calls| ==> calls[i].CallUpdate?
    ensures Run(s, calls).token == s.token && Run(s, calls).isAuthenticated == s.isAuthenticated
    ensures Run(s, calls).user.Some? <==> s.user.Some?
    decreases |calls|
  {
    if calls != [] {
      UpdatesKeepLogin(Step(s, calls[0]), calls[1..]);
    }
  }

  /** The last login or logout decides the token: after `calls` ending in a login and
      then updates only, the token is that login's. */
  lemma LoginThenUpdates(s: AuthState, user: ClientUser, token: string, updates: seq<Call>)
    requires forall i :: 0 <= i < |updates| ==> updates[i].CallUpdate?
    ensures Run(s, [CallLogin(user, token)] + updates).token == Some(token)
    ensures Run(s, [CallLogin(user, token)] + updates).isAuthenticated
  {
    assert ([CallLogin(user, token)] + updates)[1..] == updates;
    UpdatesKeepLogin(Login(s, user, token), updates);
  }
}
