/** The role check of backend/src/auth/roles.guard.ts. The roles metadata of the
    handler or class is a parameter (None when no `@Roles` decorator applies), and
    so is the request's authenticated user. */
module RolesGuard {
  import opened Common

  /** The `user` the authentication strategy attached to the request; its role may
      be missing. */
  datatype RequestUser = RequestUser(role: Option<UserRole>)

  /** `requiredRoles.some(role => user.role === role)`, element by element. */
  function AnyRoleIs(required: seq<UserRole>, role: UserRole): (b: bool)
    ensures b <==> role in required
  {
    if required == [] then false
    else required[0] == role || AnyRoleIs(required[1..], role)
  }

  /** `canActivate`: no metadata lets everyone through; otherwise a request without a
      user or without a role is refused, and a user is admitted exactly when their
      role is one of the required ones. */
  function CanActivate(required: Option<seq<UserRole>>, user: Option<RequestUser>): (allowed: bool)
    ensures required.None? ==> allowed
    ensures required.Some? && (user.None? || user.value.role.None?) ==> !allowed
    ensures required.Some? && user.Some? && user.value.role.Some? ==>
              (allowed <==> user.value.role.value in required.value)
  {
    if required.None? then true
    else if user.None? || user.value.role.None? then false
    else AnyRoleIs(required.value, user.value.role.value)
  }

  /** Requiring one more role never turns an admission into a refusal. */
  lemma Monotonic(required: seq<UserRole>, extra: UserRole, user: Option<RequestUser>)
    ensures CanActivate(Some(required), user) ==> CanActivate(Some(required + [extra]), user)
    ensures CanActivate(Some(required), user) ==> CanActivate(Some([extra] + required), user)
  {
  }

  /** An empty roles list is present metadata, so it refuses every request. */
  lemma EmptyRequiredDeniesAll(user: Option<RequestUser>)
    ensures !CanActivate(Some([]), user)
  {
  }
}
