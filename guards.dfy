/**
 * The client's route guards (ClientApp/src/app/guards/) and its route table
 * (ClientApp/src/app/app.routes.ts). A guard's `router.navigate` call is returned as a value.
 */
module Guards {
  import opened Wrappers

  /**
   * What the guards ask the auth service: `isAuthenticated()` (class guards),
   * `isAuthenticatedValue()` and `isAdmin()` (functional guards), and `getUserRole()`.
   * They are independent inputs here; nothing ties them together.
   */
  datatype AuthState = AuthState(isAuthenticated: bool, isAuthenticatedValue: bool, isAdmin: bool, role: Option<string>)

  /** `router.navigate(commands, { queryParams: { returnUrl } })`. */
  datatype Navigation = Navigation(commands: seq<string>, returnUrl: Option<string>)

  /** A guard's answer and the navigation it started, if any. */
  datatype GuardResult = GuardResult(allow: bool, navigation: Option<Navigation>)

  /** The snapshot of the route being activated; no guard reads it. */
  datatype RouteSnapshot = RouteSnapshot(path: string)

  const LoginCommand: seq<string> := ["/login"]
  const HomeCommand: seq<string> := ["/"]

  /** A denial navigates exactly once, an approval never. */
  predicate NavigatesIffDenied(g: GuardResult) {
    g.allow <==> g.navigation.None?
  }

  /** `AuthGuard.canActivate` (auth.guard.ts). */
  function AuthGuard(auth: AuthState, route: RouteSnapshot, stateUrl: string): (g: GuardResult)
    ensures g.allow <==> auth.isAuthenticated
    ensures NavigatesIffDenied(g)
    ensures !g.allow ==> g.navigation == Some(Navigation(LoginCommand, Some(stateUrl)))
  {
    if auth.isAuthenticated then GuardResult(true, None)
    else GuardResult(false, Some(Navigation(LoginCommand, Some(stateUrl))))
  }

  /** `AdminGuard.canActivate` (admin.guard.ts): authentication first, then the exact role name. */
  function AdminGuard(auth: AuthState, route: RouteSnapshot, stateUrl: string): (g: GuardResult)
    ensures g.allow <==> auth.isAuthenticated && auth.role == Some("Admin")
    ensures NavigatesIffDenied(g)
    ensures !auth.isAuthenticated ==> g.navigation == Some(Navigation(LoginCommand, Some(stateUrl)))
    ensures auth.isAuthenticated && !g.allow ==> g.navigation == Some(Navigation(HomeCommand, None))
  {
    if !auth.isAuthenticated then GuardResult(false, Some(Navigation(LoginCommand, Some(stateUrl))))
    else if auth.role == Some("Admin") then GuardResult(true, None)
    else GuardResult(false, Some(Navigation(HomeCommand, None)))
  }

  /** `authGuard` (auth.guard.functional.ts). */
  function AuthGuardFn(auth: AuthState, route: RouteSnapshot, stateUrl: string): (g: GuardResult)
    ensures g.allow <==> auth.isAuthenticatedValue
    ensures NavigatesIffDenied(g)
    ensures !g.allow ==> g.navigation == Some(Navigation(LoginCommand, Some(stateUrl)))
  {
    if auth.isAuthenticatedValue then GuardResult(true, None)
    else GuardResult(false, Some(Navigation(LoginCommand, Some(stateUrl))))
  }

  /** `adminGuard` (admin.guard.functional.ts): `isAdmin()` alone decides; a denial goes home. */
  function AdminGuardFn(auth: AuthState): (g: GuardResult)
    ensures g.allow <==> auth.isAdmin
    ensures NavigatesIffDenied(g)
    ensures !g.allow ==> g.navigation == Some(Navigation(HomeCommand, None))
  {
    if auth.isAdmin then GuardResult(true, None)
    else GuardResult(false, Some(Navigation(HomeCommand, None)))
  }

  /** The returned navigation never sends an unauthenticated caller home, nor the functional admin guard anyone to login. */
  lemma GuardRedirectTargets(auth: AuthState, route: RouteSnapshot, stateUrl: string)
    ensures !auth.isAuthenticated ==> AdminGuard(auth, route, stateUrl).navigation.value.commands == LoginCommand
    ensures AdminGuardFn(auth).navigation.Some? ==> AdminGuardFn(auth).navigation.value.commands != LoginCommand
    ensures AdminGuard(auth, route, stateUrl).navigation.Some? && AdminGuard(auth, route, stateUrl).navigation.value.commands == HomeCommand
            ==> auth.isAuthenticated
  {
  }

  /** The decisions depend on the auth state and the URL only: the route snapshot plays no part. */
  lemma GuardsIgnoreRoute(auth: AuthState, r1: RouteSnapshot, r2: RouteSnapshot, stateUrl: string)
    ensures AuthGuard(auth, r1, stateUrl) == AuthGuard(auth, r2, stateUrl)
    ensures AdminGuard(auth, r1, stateUrl) == AdminGuard(auth, r2, stateUrl)
    ensures AuthGuardFn(auth, r1, stateUrl) == AuthGuardFn(auth, r2, stateUrl)
  {
  }

  /**
   * The class and the functional admin guard agree for an authenticated caller whose `isAdmin()`
   * means role "Admin"; the functional one admits an unauthenticated caller when `isAdmin()` is true.
   */
  lemma AdminGuardsCompared(auth: AuthState, route: RouteSnapshot, stateUrl: string)
    requires auth.isAdmin <==> auth.role == Some("Admin")
    ensures auth.isAuthenticated ==> AdminGuard(auth, route, stateUrl) == AdminGuardFn(auth)
    ensures !auth.isAuthenticated && auth.isAdmin ==> AdminGuardFn(auth).allow && !AdminGuard(auth, route, stateUrl).allow
  {
  }

  /** The guards a route lists. */
  datatype GuardName = AuthGuardName | AdminGuardName

  datatype Component = HomeComponent | LoginComponent | BlogComponent | CmsComponent | DraftsComponent

  datatype PathMatch = Prefix | Full

  datatype Route = Route(path: string, component: Option<Component>, pathMatch: PathMatch,
                         canActivate: seq<GuardName>, redirectTo: Option<string>)

  /** `routes`, in order. */
  const Routes: seq<Route> := [
    Route("", Some(HomeComponent), Full, [], None),
    Route("login", Some(LoginComponent), Prefix, [], None),
    Route("blog", Some(BlogComponent), Prefix, [], None),
    Route("cms", Some(CmsComponent), Prefix, [AuthGuardName, AdminGuardName], None),
    Route("drafts", Some(DraftsComponent), Prefix, [AuthGuardName, AdminGuardName], None),
    Route("**", None, Prefix, [], Some(""))
  ]

  /**
   * The route a one-segment path selects: the first entry whose path equals it (the empty path only
   * under full matching), or the wildcard.
   */
  function Resolve(path: string): (i: nat)
    ensures i < |Routes|
    ensures Routes[i].path == path || Routes[i].path == "**"
    ensures forall k :: 0 <= k < i ==> Routes[k].path != path
  {
    if path == "" then 0
    else if path == "login" then 1
    else if path == "blog" then 2
    else if path == "cms" then 3
    else if path == "drafts" then 4
    else 5
  }

  /** One guard of the functional pair, as the route table uses them. */
  function RunGuard(name: GuardName, auth: AuthState, route: RouteSnapshot, stateUrl: string): (g: GuardResult)
    ensures name == AuthGuardName ==> (g.allow <==> auth.isAuthenticatedValue)
    ensures name == AdminGuardName ==> (g.allow <==> auth.isAdmin)
    ensures NavigatesIffDenied(g)
  {
    match name
    case AuthGuardName => AuthGuardFn(auth, route, stateUrl)
    case AdminGuardName => AdminGuardFn(auth)
  }

  /** Activation: every listed guard must allow. */
  function CanActivate(guards: seq<GuardName>, auth: AuthState, route: RouteSnapshot, stateUrl: string): (b: bool)
    ensures b <==> forall k :: 0 <= k < |guards| ==> RunGuard(guards[k], auth, route, stateUrl).allow
  {
    if guards == [] then true
    else RunGuard(guards[0], auth, route, stateUrl).allow && CanActivate(guards[1..], auth, route, stateUrl)
  }

  /** The table's shape: home on the exact empty path, open login and blog, guarded cms and drafts, wildcard last. */
  lemma RouteTableShape()
    ensures Routes[0].path == "" && Routes[0].component == Some(HomeComponent) && Routes[0].pathMatch == Full
    ensures Routes[1].canActivate == [] && Routes[2].canActivate == []
    ensures Routes[3].path == "cms" && Routes[3].canActivate == [AuthGuardName, AdminGuardName]
    ensures Routes[4].path == "drafts" && Routes[4].canActivate == [AuthGuardName, AdminGuardName]
    ensures Routes[|Routes| - 1].path == "**" && Routes[|Routes| - 1].redirectTo == Some("")
    ensures forall k :: 0 <= k < |Routes| - 1 ==> Routes[k].path != "**"
  {
  }

  /**
   * The CMS and drafts pages open exactly for a caller who is both authenticated and an admin;
   * login, blog, home and unknown paths open for everyone (an unknown path redirects home).
   */
  lemma AdminPagesNeedBothGuards(path: string, auth: AuthState, route: RouteSnapshot, stateUrl: string)
    ensures var r := Routes[Resolve(path)];
      && (path == "cms" || path == "drafts" ==>
            (CanActivate(r.canActivate, auth, route, stateUrl) <==> auth.isAuthenticatedValue && auth.isAdmin))
      && (path != "cms" && path != "drafts" ==> CanActivate(r.canActivate, auth, route, stateUrl))
      && (r.path == "**" ==> r.redirectTo == Some("") && path !in {"", "login", "blog", "cms", "drafts"})
  {
  }
}
