/** investigatorGuard: who may open the investigator pages. */
module InvestigatorGuard {
  import opened Wrappers
  import opened Model
  import AdminGuard

  /**
   * No session goes to the login page; an admin is redirected to '/investigator', the guarded
   * route itself; every other role passes.
   */
  function CanActivate(user: Option<User>): (d: Decision)
    ensures user.None? <==> d == RedirectTo(LOGIN_ROUTE)
    ensures user.Some? && user.value.role == ADMIN_ROLE <==> d == RedirectTo(INVESTIGATOR_ROUTE)
    ensures d == Allow <==> user.Some? && user.value.role != ADMIN_ROLE
  {
    if user.None? then RedirectTo(LOGIN_ROUTE)
    else if user.value.role == ADMIN_ROLE then RedirectTo(INVESTIGATOR_ROUTE)
    else Allow
  }

  /** The guard never sends anyone to the admin page. */
  lemma InvestigatorGuardTable(user: Option<User>)
    ensures CanActivate(user) != RedirectTo(ADMIN_ROUTE)
    ensures user.Some? && user.value.role == INVESTIGATOR_ROLE ==> CanActivate(user) == Allow
  {
  }

  /** The route this guard protects (the route table puts it on '/investigator'). */
  const GUARDED_ROUTE: string := INVESTIGATOR_ROUTE

  /**
   * As written, an admin is redirected to the very route the guard protects, where the guard
   * runs again with the same verdict: the redirect never settles.
   */
  lemma AdminRedirectLoops(admin: User)
    requires admin.role == ADMIN_ROLE
    ensures CanActivate(Some(admin)) == RedirectTo(GUARDED_ROUTE)
  {
  }

  /** The evidently intended guard: an admin is sent to the admin pages, as adminGuard sends investigators home. */
  function CanActivateIntended(user: Option<User>): (d: Decision)
    ensures user.None? <==> d == RedirectTo(LOGIN_ROUTE)
    ensures user.Some? && user.value.role == ADMIN_ROLE <==> d == RedirectTo(ADMIN_ROUTE)
    ensures d == Allow <==> user.Some? && user.value.role != ADMIN_ROLE
  {
    if user.None? then RedirectTo(LOGIN_ROUTE)
    else if user.value.role == ADMIN_ROLE then RedirectTo(ADMIN_ROUTE)
    else Allow
  }

  /**
   * With the intended guard every redirect settles in one step: it never points back at the
   * guarded route, and it goes either to the unguarded login page or to the admin pages,
   * whose guard lets that user through.
   */
  lemma IntendedRedirectSettles(user: Option<User>)
    ensures CanActivateIntended(user) != RedirectTo(GUARDED_ROUTE)
    ensures CanActivateIntended(user).RedirectTo? ==>
              CanActivateIntended(user).route == LOGIN_ROUTE ||
              (CanActivateIntended(user).route == ADMIN_ROUTE && AdminGuard.CanActivate(user) == Allow)
  {
  }
}
