/** middleware/role.js: lets a request through only when its user holds one
    of the required roles. */
module RoleMiddleware {
  import opened Common
  import opened Auth
  import opened AuthMiddleware

  /** `roleMiddleware(requiredRoles)` applied to a request whose user (set by
      the auth middleware) may be absent: `next` exactly when a user is present
      and its role is one of the required roles, otherwise 403. */
  function RoleGate(requiredRoles: seq<string>, user: Option<Claims>): (outcome: Outcome)
    ensures outcome == Next || outcome == Respond(Reply(403, "Access denied"))
  {
    if user.None? || user.value.role !in requiredRoles then Respond(Reply(403, "Access denied"))
    else Next
  }

  /** The gate passes exactly the users whose role is listed. */
  lemma RoleGatePasses(requiredRoles: seq<string>, user: Option<Claims>)
    ensures RoleGate(requiredRoles, user) == Next <==>
      exists i :: 0 <= i < |requiredRoles| && user.Some? && requiredRoles[i] == user.value.role
  {
    if user.Some? && user.value.role in requiredRoles {
      var i :| 0 <= i < |requiredRoles| && requiredRoles[i] == user.value.role;
    }
  }

  /** A request without a user is always refused. */
  lemma AbsentUserDenied(requiredRoles: seq<string>)
    ensures RoleGate(requiredRoles, None) == Respond(Reply(403, "Access denied"))
  {
  }

  /** An empty list of roles refuses every caller. */
  lemma EmptyRolesDenyAll(user: Option<Claims>)
    ensures RoleGate([], user) == Respond(Reply(403, "Access denied"))
  {
  }

  /** Requiring more roles never turns away a user who was let through. */
  lemma RoleGateMonotone(requiredRoles: seq<string>, moreRoles: seq<string>, user: Option<Claims>)
    requires forall r :: r in requiredRoles ==> r in moreRoles
    ensures RoleGate(requiredRoles, user) == Next ==> RoleGate(moreRoles, user) == Next
  {
  }
}
