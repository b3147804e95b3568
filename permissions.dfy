/**
 * The decisions register takes before anything is written: which permissions the new
 * user receives, whether that grant is allowed for the role, and whether an agent's
 * manager is acceptable.
 */
module Permissions {
  import opened Wrappers
  import opened Users

  /**
   * The permission list of a new user: the explicit list when one is given and is
   * non-empty, otherwise the role's default row, or nothing for a role without one.
   */
  function ResolvePermissions(explicit: Option<seq<Permission>>, role: Role,
                              rolePermissions: map<Role, seq<Permission>>): seq<Permission>
  {
    if explicit.None? || |explicit.value| == 0 then
      if role in rolePermissions then rolePermissions[role] else []
    else
      explicit.value
  }

  /** Only the admin role may hold the wildcard permission. */
  predicate GrantAllowed(role: Role, permissions: seq<Permission>) {
    role == ADMIN || WILDCARD !in permissions
  }

  /** A manager reference is acceptable when it names a user whose role is manager or admin. */
  predicate ManagerValid(manager: Option<User>) {
    manager.Some? && (manager.value.role == MANAGER || manager.value.role == ADMIN)
  }

  /** What register stores for a new user once validation passed. */
  datatype Draft = Draft(permissions: seq<Permission>, manager: Option<UserId>)

  /**
   * The validation chain of register, in the order the controller runs it: the grant
   * check first, then (for agents only) the presence and the validity of the manager.
   */
  function ValidateRegistration(users: map<UserId, User>, rolePermissions: map<Role, seq<Permission>>,
                                role: Role, explicit: Option<seq<Permission>>,
                                managerId: Option<UserId>): (r: Result<Draft, AuthError>)
    ensures var perms := ResolvePermissions(explicit, role, rolePermissions);
      && (r == Err(InvalidGrant) <==> !GrantAllowed(role, perms))
      && (r == Err(MissingManager) <==> GrantAllowed(role, perms) && role == AGENT && managerId.None?)
      && (r == Err(InvalidManager) <==>
            GrantAllowed(role, perms) && role == AGENT && managerId.Some?
            && !ManagerValid(FindById(users, managerId.value)))
      && (r.Ok? <==>
            GrantAllowed(role, perms)
            && (role == AGENT ==> managerId.Some? && ManagerValid(FindById(users, managerId.value))))
    ensures r.Err? ==> r.error in {InvalidGrant, MissingManager, InvalidManager}
    ensures r.Ok? ==>
      && r.value.permissions == ResolvePermissions(explicit, role, rolePermissions)
      && (role != ADMIN ==> WILDCARD !in r.value.permissions)
      && (r.value.manager.Some? <==> role == AGENT)
      && (r.value.manager.Some? ==> r.value.manager == managerId
                                     && ManagerValid(FindById(users, r.value.manager.value)))
  {
    var perms := ResolvePermissions(explicit, role, rolePermissions);
    if !GrantAllowed(role, perms) then
      Err(InvalidGrant)
    else if role == AGENT then
      if managerId.None? then Err(MissingManager)
      else if !ManagerValid(FindById(users, managerId.value)) then Err(InvalidManager)
      else Ok(Draft(perms, managerId))
    else
      Ok(Draft(perms, None))
  }

  /** The wildcard is refused for a non-admin even when it comes from the role's defaults. */
  lemma DefaultWildcardRefused(users: map<UserId, User>, rolePermissions: map<Role, seq<Permission>>,
                               role: Role, explicit: Option<seq<Permission>>, managerId: Option<UserId>)
    requires role != ADMIN && role in rolePermissions && WILDCARD in rolePermissions[role]
    requires explicit.None? || explicit.value == []
    ensures ValidateRegistration(users, rolePermissions, role, explicit, managerId) == Err(InvalidGrant)
  {
  }
}
