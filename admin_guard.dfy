/** adminGuard: who may open the admin pages, and where everybody else is sent. */
module AdminGuard {
  import opened Wrappers
  import opened Model

  /** No session goes to the login page, an investigator to the investigator page; anyone else passes. */
  function CanActivate(user: Option<User>): (d: Decision)
    ensures user.None? <==> d == RedirectTo(LOGIN_ROUTE)
    ensures user.Some? && user.value.role == INVESTIGATOR_ROLE <==> d == RedirectTo(INVESTIGATOR_ROUTE)
    ensures d == Allow <==> user.Some? && user.value.role != INVESTIGATOR_ROLE
  {
    if user.None? then RedirectTo(LOGIN_ROUTE)
    else if user.value.role == INVESTIGATOR_ROLE then RedirectTo(INVESTIGATOR_ROUTE)
    else Allow
  }

  /** The guard never sends anyone to the admin page, and admins (or unknown roles) pass. */
  lemma AdminGuardTable(user: Option<User>)
    ensures CanActivate(user) != RedirectTo(ADMIN_ROUTE)
    ensures user.Some? && user.value.role == ADMIN_ROLE ==> CanActivate(user) == Allow
  {
  }
}
