/** The cookie-based page guard of the application (`src/middleware.ts`): public pages
    pass, everyone else needs a verified `auth-token` cookie, and the `/admin` and
    `/cashier` areas are reserved for the matching role. */
module PageGuard {
  import opened Wrappers

  /** What the guard tells Next.js: continue, or redirect to another page. */
  datatype Decision = Next | Redirect(target: string)

  /** The outcome of the cookie verifier of a module this model does not include
      (`@/utils/auth`): a payload with an optional role, a falsy payload, or a throw. */
  datatype Verification = Verified(role: Option<string>) | Rejected | Threw

  type PageVerifier = string -> Verification

  const LoginPage := "/login"
  const RegisterPage := "/register"
  const AdminArea := "/admin"
  const CashierArea := "/cashier"
  const AdminDashboard := "/admin/dashboard"
  const CashierDashboard := "/cashier/dashboard"

  /** `publicPaths.some(path => pathname.startsWith(path))`: a prefix test, so
      `/login-x` is public too. */
  predicate IsPublic(path: string) {
    LoginPage <= path || RegisterPage <= path
  }

  predicate IsAdminPath(path: string) { AdminArea <= path }

  predicate IsCashierPath(path: string) { CashierArea <= path }

  /** A cookie that is present and non-empty. */
  predicate HasCookie(cookie: Option<string>) {
    cookie.Some? && cookie.value != ""
  }

  /** Whether a role string is exactly `admin` / `cashier`. */
  predicate HasRole(role: Option<string>, name: string) {
    role.Some? && role.value == name
  }

  /** `middleware` of `src/middleware.ts`. */
  function Middleware(path: string, cookie: Option<string>, verify: PageVerifier): (d: Decision)
    ensures IsPublic(path) ==> d == Next
    ensures !IsPublic(path) && !HasCookie(cookie) ==> d == Redirect(LoginPage)
    ensures !IsPublic(path) && HasCookie(cookie) && !verify(cookie.value).Verified? ==> d == Redirect(LoginPage)
    ensures d.Redirect? ==> d.target in {LoginPage, AdminDashboard, CashierDashboard}
  {
    if IsPublic(path) then Next
    else if !HasCookie(cookie) then Redirect(LoginPage)
    else match verify(cookie.value)
      case Rejected => Redirect(LoginPage)
      case Threw => Redirect(LoginPage)
      case Verified(role) =>
        if IsAdminPath(path) && !HasRole(role, "admin") then
          Redirect(if HasRole(role, "cashier") then CashierDashboard else LoginPage)
        else if IsCashierPath(path) && !HasRole(role, "cashier") then
          Redirect(if HasRole(role, "admin") then AdminDashboard else LoginPage)
        else Next
  }

  /** Access guarantee: a request that proceeds into the admin area is public or carries
      a verified cookie whose role is `admin`; likewise for the cashier area. */
  lemma AreasRequireRole(path: string, cookie: Option<string>, verify: PageVerifier)
    requires Middleware(path, cookie, verify) == Next
    ensures !IsPublic(path) ==> HasCookie(cookie) && verify(cookie.value).Verified?
    ensures !IsPublic(path) && IsAdminPath(path) ==> HasRole(verify(cookie.value).role, "admin")
    ensures !IsPublic(path) && IsCashierPath(path) ==> HasRole(verify(cookie.value).role, "cashier")
  {
  }

  /** The role-based redirects: a cashier sent away from the admin area lands on the
      cashier dashboard, an admin sent away from the cashier area on the admin dashboard,
      and any other verified role on the login page. */
  lemma AreaRedirects(path: string, cookie: Option<string>, verify: PageVerifier)
    requires !IsPublic(path) && HasCookie(cookie) && verify(cookie.value).Verified?
    ensures var role := verify(cookie.value).role;
      && (IsAdminPath(path) && HasRole(role, "cashier") ==> Middleware(path, cookie, verify) == Redirect(CashierDashboard))
      && (IsCashierPath(path) && HasRole(role, "admin") ==> Middleware(path, cookie, verify) == Redirect(AdminDashboard))
      && ((IsAdminPath(path) || IsCashierPath(path)) && !HasRole(role, "admin") && !HasRole(role, "cashier")
          ==> Middleware(path, cookie, verify) == Redirect(LoginPage))
      && (!IsAdminPath(path) && !IsCashierPath(path) ==> Middleware(path, cookie, verify) == Next)
  {
    var role := verify(cookie.value).role;
    if IsCashierPath(path) {
      assert !IsAdminPath(path) by { assert path[1] == 'c'; assert AdminArea[1] == 'a'; }
    }
  }

  /** No redirect loops: following a redirect with the same cookie always proceeds. */
  lemma {:induction false} NoRedirectLoop(path: string, cookie: Option<string>, verify: PageVerifier)
    requires Middleware(path, cookie, verify).Redirect?
    ensures Middleware(Middleware(path, cookie, verify).target, cookie, verify) == Next
  {
    var target := Middleware(path, cookie, verify).target;
    if target == LoginPage {
      assert IsPublic(target);
    } else if target == CashierDashboard {
      assert !IsPublic(target) by {
        assert target[1] != LoginPage[1] && target[1] != RegisterPage[1];
      }
      assert !IsAdminPath(target) by { assert target[1] != AdminArea[1]; }
      assert IsCashierPath(target);
    } else {
      assert !IsPublic(target) by {
        assert target[1] != LoginPage[1] && target[1] != RegisterPage[1];
      }
      assert IsAdminPath(target);
    }
  }

  /** The `config.matcher` patterns `/admin/:path*`, `/cashier/:path*`, `/login` and
      `/register`. */
  predicate RunsOn(path: string) {
    || path == AdminArea || AdminArea + "/" <= path
    || path == CashierArea || CashierArea + "/" <= path
    || path == LoginPage || path == RegisterPage
  }

  /** The guard as deployed: paths outside the matcher are never intercepted. */
  function Guard(path: string, cookie: Option<string>, verify: PageVerifier): (d: Decision)
    ensures !RunsOn(path) ==> d == Next
    ensures RunsOn(path) ==> d == Middleware(path, cookie, verify)
  {
    if RunsOn(path) then Middleware(path, cookie, verify) else Next
  }

  /** A path like `/administrator` starts with `/admin` but is outside the matcher, so it
      is never guarded, even without a cookie. */
  lemma MatcherExcludesLookalikes(verify: PageVerifier)
    ensures Guard("/administrator", None, verify) == Next
    ensures Middleware("/administrator", None, verify) == Redirect(LoginPage)
  {
    var p := "/administrator";
    assert !(AdminArea + "/" <= p) by { assert p[6] != '/'; }
    assert !(CashierArea + "/" <= p) by { assert p[1] != 'c'; }
    assert !IsPublic(p) by { assert p[1] != 'l' && p[1] != 'r'; }
  }
}
