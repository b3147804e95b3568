/**
 * The records the authentication controller reads and writes: users of the directory,
 * the entries of the audit log and the authenticated caller of a request.
 */
module Users {
  import opened Wrappers

  /** A document id of the user collection (an ObjectId in the store). */
  type UserId = nat
  type Email = string
  type Role = string
  /** An opaque capability token; `WILDCARD` stands for every capability. */
  type Permission = string
  /** A clock reading in milliseconds, as `Date.now()` returns it. */
  type Millis = nat

  const ADMIN: Role := "admin"
  const MANAGER: Role := "manager"
  const AGENT: Role := "agent"
  const WILDCARD: Permission := "*"

  /**
   * A stored password. The store hashes `senha` before saving; hashing is modelled
   * as an injective wrapper, so a presented password matches exactly when it is the
   * one that was stored.
   */
  datatype Credential = Hashed(secret: string)

  /** The password comparison the User model offers (`comparePassword`). */
  predicate PasswordMatches(stored: Credential, presented: string) {
    stored == Hashed(presented)
  }

  datatype User = User(
    id: UserId,
    nome: string,
    email: Email,
    senha: Credential,
    role: Role,
    permissions: seq<Permission>,
    manager: Option<UserId>,
    resetPasswordOTP: Option<string>,
    resetPasswordExpires: Option<int>)

  /** The identity the authentication middleware attached to the request (`req.user`). */
  datatype Caller = Caller(id: UserId, email: Email)

  datatype Action = RegisterUser | Login

  datatype Details =
    | RegisterDetails(createdUserId: UserId, createdUserEmail: Email, role: Role)
    | LoginDetails

  /** One record of the audit collection. */
  datatype AuditEntry = AuditEntry(userId: UserId, userEmail: Email, action: Action, details: Details)

  /** The failures the four operations report, one per distinct branch of the controller. */
  datatype AuthError =
    | InvalidGrant
    | MissingManager
    | InvalidManager
    | DuplicateEmail
    | UserNotFound
    | WrongPassword
    | InvalidOrExpiredOtp
    | DeliveryFailed

  /** The acknowledgement-only outcome of register and of the two password-reset steps. */
  datatype Outcome = Done | Failed(error: AuthError)

  /** `findById` on the directory. */
  function FindById(users: map<UserId, User>, id: UserId): Option<User> {
    if id in users then Some(users[id]) else None
  }
}
