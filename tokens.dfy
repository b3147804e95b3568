/** The bearer token login issues and the public view of the user it returns. */
module Tokens {
  import opened Users

  /** `expiresIn: '8h'`, in seconds. */
  const TOKEN_LIFETIME_S: nat := 8 * 60 * 60

  /** The claim set signed into the token. */
  datatype Claims = Claims(id: UserId, role: Role, permissions: seq<Permission>)

  /** A signed token: its claims, its issue time and its expiry, both in whole seconds. */
  datatype Token = Token(claims: Claims, iat: nat, exp: nat)

  /** What login returns about the user: everything but the password and the reset fields. */
  datatype PublicUser = PublicUser(id: UserId, nome: string, email: Email, role: Role, permissions: seq<Permission>)

  datatype Session = Session(token: Token, user: PublicUser)

  /**
   * Signs `claims` at the clock reading `now` (milliseconds): the issue time is `now`
   * in whole seconds and the token lives for 8 hours from it.
   */
  function Sign(claims: Claims, now: Millis): (t: Token)
    ensures t.claims == claims
    ensures t.iat * 1000 <= now < t.iat * 1000 + 1000
    ensures t.exp == t.iat + TOKEN_LIFETIME_S
  {
    var iat := now / 1000;
    Token(claims, iat, iat + TOKEN_LIFETIME_S)
  }

  /** The public projection of a user record. */
  function Project(u: User): PublicUser {
    PublicUser(u.id, u.nome, u.email, u.role, u.permissions)
  }
}
