/** The simpler page guard of `src/lib/middleware.ts`: public pages pass, everything
    else needs a verified `auth-token` cookie, and the role plays no part. */
module RootGuard {
  import opened Wrappers
  import opened PageGuard

  /** `middleware` of `src/lib/middleware.ts`; both branches after verification continue. */
  function Middleware(path: string, cookie: Option<string>, verify: PageVerifier): (d: Decision)
    ensures d == Next || d == Redirect(LoginPage)
  {
    if IsPublic(path) then Next
    else if !HasCookie(cookie) then Redirect(LoginPage)
    else match verify(cookie.value)
      case Rejected => Redirect(LoginPage)
      case Threw => Redirect(LoginPage)
      case Verified(_) =>
        if path == "/" then Next
        else Next
  }

  /** The guard passes exactly the public pages and the requests with a cookie that
      verifies, whatever the path or the role it carries. */
  lemma RootGuardCharacterization(path: string, cookie: Option<string>, verify: PageVerifier)
    ensures Middleware(path, cookie, verify) == Next <==>
      IsPublic(path) || (HasCookie(cookie) && verify(cookie.value).Verified?)
  {
  }

  /** Two verifiers that accept and reject the same cookies give the same decision: the
      role claim never matters. */
  lemma RoleIrrelevant(path: string, cookie: Option<string>, v1: PageVerifier, v2: PageVerifier)
    requires HasCookie(cookie) ==> (v1(cookie.value).Verified? <==> v2(cookie.value).Verified?)
    ensures Middleware(path, cookie, v1) == Middleware(path, cookie, v2)
  {
  }

  /** The `config.matcher` patterns `/`, `/login` and `/register` (exact paths). */
  predicate RunsOn(path: string) {
    path == "/" || path == LoginPage || path == RegisterPage
  }

  /** The guard as configured: only the root page can ever be redirected. */
  function Guard(path: string, cookie: Option<string>, verify: PageVerifier): (d: Decision)
    ensures d.Redirect? ==> path == "/"
    ensures RunsOn(path) ==> d == Middleware(path, cookie, verify)
    ensures !RunsOn(path) ==> d == Next
  {
    if RunsOn(path) then Middleware(path, cookie, verify) else Next
  }
}
