/** The client route guard of frontend/src/components/ProtectedRoute.tsx: what the
    component renders given the authentication context and the route's allowed
    roles. */
module ProtectedRoute {
  import opened Common
  import RolesGuard

  /** What the component returns: the loading placeholder, a redirect, or the
      protected children. */
  datatype View = LoadingView | Redirect(path: string) | RenderChildren

  /** The logged-in user of the authentication context. */
  datatype ClientUser = ClientUser(role: UserRole)

  const LoginPath := "/login"
  const CitizenDashboard := "/citizen/dashboard"
  const OfficerDashboard := "/officer/dashboard"

  /** The chain of early returns: loading, then no user, then a role outside the
      allowed ones, then the children. */
  function Decide(loading: bool, user: Option<ClientUser>, allowedRoles: seq<UserRole>): (v: View)
  {
    if loading then LoadingView
    else if user.None? then Redirect(LoginPath)
    else if user.value.role !in allowedRoles then
      Redirect(if user.value.role == Citizen then CitizenDashboard else OfficerDashboard)
    else RenderChildren
  }

  /** While the context is loading, the placeholder shows whatever the user and roles. */
  lemma LoadingWins(user: Option<ClientUser>, allowedRoles: seq<UserRole>)
    ensures Decide(true, user, allowedRoles) == LoadingView
  {
  }

  /** Not loading and not logged in sends the visitor to the login page. */
  lemma NoUserGoesToLogin(allowedRoles: seq<UserRole>)
    ensures Decide(false, None, allowedRoles) == Redirect(LoginPath)
  {
  }

  /** A logged-in user whose role is not allowed goes to their own dashboard, a
      citizen to the citizen one and any other role to the officer one, and never
      to the login page. */
  lemma WrongRoleGoesToDashboard(u: ClientUser, allowedRoles: seq<UserRole>)
    requires u.role !in allowedRoles
    ensures Decide(false, Some(u), allowedRoles).Redirect?
    ensures Decide(false, Some(u), allowedRoles).path == CitizenDashboard <==> u.role == Citizen
    ensures Decide(false, Some(u), allowedRoles).path == OfficerDashboard <==> u.role != Citizen
    ensures Decide(false, Some(u), allowedRoles).path != LoginPath
  {
  }

  /** The children render exactly when nothing is loading, someone is logged in and
      their role is allowed. */
  lemma RendersIff(loading: bool, user: Option<ClientUser>, allowedRoles: seq<UserRole>)
    ensures Decide(loading, user, allowedRoles) == RenderChildren
            <==> !loading && user.Some? && user.value.role in allowedRoles
  {
  }

  /** For a logged-in user the client guard renders exactly where the server's role
      guard, given the same roles, admits the user. */
  lemma AgreesWithRolesGuard(u: ClientUser, allowedRoles: seq<UserRole>)
    ensures Decide(false, Some(u), allowedRoles) == RenderChildren
            <==> RolesGuard.CanActivate(Some(allowedRoles), Some(RolesGuard.RequestUser(Some(u.role))))
  {
  }
}
