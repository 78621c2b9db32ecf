/** src/middlewares/rbac.middleware.ts: the role gate in front of a route. */
module Rbac {
  import opened Wrappers
  import opened Domain
  import opened Http

  const AuthenticationRequired := "Authentication required"
  const InsufficientPermissions := "Insufficient permissions"

  /**
   * `requireRole(...allowedRoles)` applied to a request carrying `user`
   * (None when no authentication ran before it).
   */
  function RequireRole(allowedRoles: seq<Role>, user: Option<AuthUser>): (g: Gate)
    ensures user.None? ==> g == Refuse(Reply(401, AuthenticationRequired))
    ensures user.Some? && user.value.role !in allowedRoles ==> g == Refuse(Reply(403, InsufficientPermissions))
    ensures g.Next? <==> user.Some? && user.value.role in allowedRoles
  {
    if user.None? then Refuse(Reply(401, AuthenticationRequired))
    else if user.value.role !in allowedRoles then Refuse(Reply(403, InsufficientPermissions))
    else Next
  }

  /** With no allowed role, every request is refused. */
  lemma NoRoleAdmitsNobody(user: Option<AuthUser>)
    ensures RequireRole([], user).Refuse?
  {
  }

  /** Allowing more roles never refuses a request that fewer roles let through. */
  lemma MoreRolesAdmitMore(fewer: seq<Role>, more: seq<Role>, user: Option<AuthUser>)
    requires forall r :: r in fewer ==> r in more
    ensures RequireRole(fewer, user).Next? ==> RequireRole(more, user).Next?
  {
  }

  /** Only the role is consulted: the user's id and phone do not matter. */
  lemma OnlyTheRoleMatters(allowedRoles: seq<Role>, a: AuthUser, b: AuthUser)
    requires a.role == b.role
    ensures RequireRole(allowedRoles, Some(a)) == RequireRole(allowedRoles, Some(b))
  {
  }
}
