/**
 * The four handlers of the authentication controller — register, login, request a
 * password reset, reset the password with the one-time code — as methods of a service
 * that holds the user directory and the audit log. Clock readings, the random draw of
 * the code and the outcome of sending the email are parameters.
 */
module AuthController {
  import opened Wrappers
  import opened Users
  import opened Permissions
  import opened Otp
  import opened Tokens

  /** A user record satisfies the role rules the controller enforces on creation. */
  ghost predicate UserFollowsRoleRules(users: map<UserId, User>, u: User) {
    && (u.role != ADMIN ==> WILDCARD !in u.permissions)
    && (u.manager.Some? ==> u.role == AGENT)
    && (u.role == AGENT ==> u.manager.Some? && ManagerValid(FindById(users, u.manager.value)))
  }

  /**
   * The directory is consistent: the email index and the records agree, ids are below
   * the next fresh id, the reset code and its expiry are present together, and every
   * user follows the role rules.
   */
  ghost predicate DirectoryInvariant(users: map<UserId, User>, byEmail: map<Email, UserId>, nextId: nat) {
    && (forall e :: e in byEmail ==> byEmail[e] in users && users[byEmail[e]].email == e)
    && (forall id :: id in users ==>
          && users[id].id == id
          && id < nextId
          && users[id].email in byEmail && byEmail[users[id].email] == id
          && (users[id].resetPasswordOTP.Some? <==> users[id].resetPasswordExpires.Some?)
          && UserFollowsRoleRules(users, users[id]))
  }

  /** Adding a fresh user that follows the role rules keeps the directory consistent. */
  lemma InsertKeepsInvariant(users: map<UserId, User>, byEmail: map<Email, UserId>, nextId: nat, u: User)
    requires DirectoryInvariant(users, byEmail, nextId)
    requires u.id == nextId && u.email !in byEmail
    requires u.resetPasswordOTP.None? && u.resetPasswordExpires.None?
    requires UserFollowsRoleRules(users, u)
    ensures DirectoryInvariant(users[u.id := u], byEmail[u.email := u.id], nextId + 1)
  {
  }

  /**
   * Replacing a user's record by one with the same id, email, role, permissions and
   * manager, whose reset code and expiry are present together, keeps the directory consistent.
   */
  lemma UpdateKeepsInvariant(users: map<UserId, User>, byEmail: map<Email, UserId>, nextId: nat, u: User)
    requires DirectoryInvariant(users, byEmail, nextId)
    requires u.id in users
    requires var w := users[u.id];
      u.email == w.email && u.role == w.role && u.permissions == w.permissions && u.manager == w.manager
    requires u.resetPasswordOTP.Some? <==> u.resetPasswordExpires.Some?
    ensures DirectoryInvariant(users[u.id := u], byEmail, nextId)
  {
  }

  class AuthService {
    /** The role → default permissions table. */
    const rolePermissions: map<Role, seq<Permission>>
    /** The universal permission list admins receive at login. */
    const allPermissions: seq<Permission>

    var users: map<UserId, User>
    var byEmail: map<Email, UserId>
    var audit: seq<AuditEntry>
    var nextId: nat

    ghost predicate Valid()
      reads this
    {
      DirectoryInvariant(users, byEmail, nextId)
    }

    constructor (rolePermissions: map<Role, seq<Permission>>, allPermissions: seq<Permission>)
      ensures Valid()
      ensures this.rolePermissions == rolePermissions && this.allPermissions == allPermissions
      ensures users == map[] && byEmail == map[] && audit == [] && nextId == 0
    {
      this.rolePermissions := rolePermissions;
      this.allPermissions := allPermissions;
      users := map[];
      byEmail := map[];
      audit := [];
      nextId := 0;
    }

    /**
     * register: validates the grant and the manager, then writes one user and one
     * audit entry. A taken email is refused by the store when the user is saved.
     */
    method Register(caller: Option<Caller>, nome: string, email: Email, senha: string, role: Role,
                    permissions: Option<seq<Permission>>, managerId: Option<UserId>)
      returns (res: Outcome)
      requires Valid()
      modifies this
      ensures Valid()
      ensures var v := ValidateRegistration(old(users), rolePermissions, role, permissions, managerId);
        if v.Err? then
          res == Failed(v.error) && unchanged(this)
        else if email in old(byEmail) then
          res == Failed(DuplicateEmail) && unchanged(this)
        else
          var u := User(old(nextId), nome, email, Hashed(senha), role, v.value.permissions,
                        v.value.manager, None, None);
          var actor := if caller.Some? then caller.value else Caller(u.id, u.email);
          && res == Done
          && users == old(users)[u.id := u]
          && byEmail == old(byEmail)[email := u.id]
          && nextId == old(nextId) + 1
          && audit == old(audit) + [AuditEntry(actor.id, actor.email, RegisterUser,
                                               RegisterDetails(u.id, u.email, u.role))]
    {
      var userPermissions := ResolvePermissions(permissions, role, rolePermissions);
      if role != ADMIN && WILDCARD in userPermissions {
        return Failed(InvalidGrant);
      }

      var manager: Option<User> := None;
      if role == AGENT {
        if managerId.None? {
          return Failed(MissingManager);
        }
        manager := FindById(users, managerId.value);
        if !ManagerValid(manager) {
          return Failed(InvalidManager);
        }
      }

      var user := User(nextId, nome, email, Hashed(senha), role, userPermissions,
                       if manager.Some? then Some(manager.value.id) else None, None, None);
      if email in byEmail {
        return Failed(DuplicateEmail);
      }
      InsertKeepsInvariant(users, byEmail, nextId, user);
      users := users[user.id := user];
      byEmail := byEmail[email := user.id];
      nextId := nextId + 1;

      var actor := if caller.Some? then caller.value else Caller(user.id, user.email);
      audit := audit + [AuditEntry(actor.id, actor.email, RegisterUser,
                                   RegisterDetails(user.id, user.email, user.role))];
      res := Done;
    }

    /**
     * login: checks the password and issues a token. Admins are given the universal
     * permission list in the token and in the returned view only; the stored record is
     * never changed. One audit entry is written on success and none on failure.
     */
    method Login(email: Email, senha: string, now: Millis) returns (res: Result<Session, AuthError>)
      requires Valid()
      modifies this
      ensures Valid()
      ensures users == old(users) && byEmail == old(byEmail) && nextId == old(nextId)
      ensures email !in byEmail ==> res == Err(UserNotFound) && audit == old(audit)
      ensures email in byEmail && !PasswordMatches(users[byEmail[email]].senha, senha) ==>
                res == Err(WrongPassword) && audit == old(audit)
      ensures email in byEmail && PasswordMatches(users[byEmail[email]].senha, senha) ==>
                var u := users[byEmail[email]];
                var perms := if u.role == ADMIN then allPermissions else u.permissions;
                && res.Ok?
                && res.value.token == Sign(Claims(u.id, u.role, perms), now)
                && res.value.user == PublicUser(u.id, u.nome, u.email, u.role, perms)
                && audit == old(audit) + [AuditEntry(u.id, u.email, Action.Login, LoginDetails)]
    {
      if email !in byEmail {
        return Err(UserNotFound);
      }
      var user := users[byEmail[email]];
      if !PasswordMatches(user.senha, senha) {
        return Err(WrongPassword);
      }

      if user.role == ADMIN {
        user := user.(permissions := allPermissions);
      }
      var token := Sign(Claims(user.id, user.role, user.permissions), now);

      audit := audit + [AuditEntry(user.id, user.email, Action.Login, LoginDetails)];
      res := Ok(Session(token, Project(user)));
    }

    /**
     * requestPasswordReset: stores the code for the draw `r` and its expiry on the user,
     * overwriting any earlier code, and then sends it; a failed delivery is reported but
     * the stored code stays.
     */
    method RequestPasswordReset(email: Email, now: Millis, r: nat, delivered: bool)
      returns (res: Outcome)
      requires Valid()
      requires r < OTP_DRAWS
      modifies this
      ensures Valid()
      ensures byEmail == old(byEmail) && nextId == old(nextId) && audit == old(audit)
      ensures email !in byEmail ==> res == Failed(UserNotFound) && users == old(users)
      ensures email in byEmail ==>
                var id := byEmail[email];
                && users == old(users)[id := old(users)[id].(resetPasswordOTP := Some(OtpCode(r)),
                                                             resetPasswordExpires := Some(OtpExpiry(now)))]
                && res == (if delivered then Done else Failed(DeliveryFailed))
    {
      if email !in byEmail {
        return Failed(UserNotFound);
      }
      var id := byEmail[email];
      var user := users[id];

      var otp := OtpCode(r);
      var expires := OtpExpiry(now);

      user := user.(resetPasswordOTP := Some(otp));
      user := user.(resetPasswordExpires := Some(expires));
      UpdateKeepsInvariant(users, byEmail, nextId, user);
      users := users[id := user];

      if !delivered {
        return Failed(DeliveryFailed);
      }
      res := Done;
    }

    /**
     * resetPasswordWithOTP: when a code is presented, is the stored one and has not
     * expired, replaces the password and clears both reset fields. A request without a
     * code is refused (the corrected guard `OtpAccepted`).
     */
    method ResetPasswordWithOtp(email: Email, otp: Option<string>, novaSenha: string, now: Millis)
      returns (res: Outcome)
      requires Valid()
      modifies this
      ensures Valid()
      ensures byEmail == old(byEmail) && nextId == old(nextId) && audit == old(audit)
      ensures email !in byEmail ==> res == Failed(UserNotFound) && users == old(users)
      ensures email in byEmail ==>
                var id := byEmail[email];
                var u := old(users)[id];
                && (res == Done <==>
                      otp.Some? && u.resetPasswordOTP == otp && u.resetPasswordExpires.Some?
                      && now <= u.resetPasswordExpires.value)
                && (res == Done ==>
                      users == old(users)[id := u.(senha := Hashed(novaSenha),
                                                   resetPasswordOTP := None,
                                                   resetPasswordExpires := None)])
                && (res != Done ==> res == Failed(InvalidOrExpiredOtp) && users == old(users))
    {
      if email !in byEmail {
        return Failed(UserNotFound);
      }
      var id := byEmail[email];
      var user := users[id];

      OtpAcceptedWhenPaired(user.resetPasswordOTP, user.resetPasswordExpires, otp, now);
      if !OtpAccepted(user.resetPasswordOTP, user.resetPasswordExpires, otp, now) {
        return Failed(InvalidOrExpiredOtp);
      }

      user := user.(senha := Hashed(novaSenha));
      user := user.(resetPasswordOTP := None);
      user := user.(resetPasswordExpires := None);
      UpdateKeepsInvariant(users, byEmail, nextId, user);
      users := users[id := user];
      res := Done;
    }
  }
}
