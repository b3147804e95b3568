/**
 * End-to-end runs of the controller on a fresh directory, checked against the
 * contracts of its four handlers alone.
 */
module Scenarios {
  import opened Wrappers
  import opened Users
  import opened Permissions
  import opened Otp
  import opened Tokens
  import opened AuthController

  /**
   * A manager registers itself, then an agent is registered under it and logs in:
   * both registrations succeed, the agent's token carries the agent's stored (default)
   * permissions, and the log holds two register entries and one login entry.
   */
  method RegisterAgentThenLogin(defaults: map<Role, seq<Permission>>, all: seq<Permission>, secret: string)
    returns (managerOutcome: Outcome, agentOutcome: Outcome, session: Result<Session, AuthError>,
             log: seq<AuditEntry>)
    requires MANAGER in defaults ==> WILDCARD !in defaults[MANAGER]
    requires AGENT in defaults ==> WILDCARD !in defaults[AGENT]
    ensures managerOutcome == Done && agentOutcome == Done
    ensures session.Ok?
    ensures session.value.token.claims == Claims(1, AGENT, ResolvePermissions(None, AGENT, defaults))
    ensures session.value.user.email == "a@x.com"
    ensures |log| == 3
    ensures log[0] == AuditEntry(0, "m@x.com", RegisterUser, RegisterDetails(0, "m@x.com", MANAGER))
    ensures log[1] == AuditEntry(1, "a@x.com", RegisterUser, RegisterDetails(1, "a@x.com", AGENT))
    ensures log[2] == AuditEntry(1, "a@x.com", Action.Login, LoginDetails)
  {
    var svc := new AuthService(defaults, all);
    managerOutcome := svc.Register(None, "Maria", "m@x.com", "m-secret", MANAGER, None, None);
    assert svc.users[0].role == MANAGER;
    assert "a@x.com" != "m@x.com" by { assert "a@x.com"[0] != "m@x.com"[0]; }
    agentOutcome := svc.Register(None, "Ana", "a@x.com", secret, AGENT, None, Some(0));
    session := svc.Login("a@x.com", secret, 1000);
    log := svc.audit;
  }

  /**
   * A user asks for a reset, confirms it within the 10 minutes and then logs in:
   * the first confirmation succeeds, a second one with the same code fails, the old
   * password no longer works and the new one does.
   */
  method ResetThenLogin(t: Millis, r: nat, oldSecret: string, newSecret: string)
    returns (requested: Outcome, first: Outcome, second: Outcome,
             oldLogin: Result<Session, AuthError>, newLogin: Result<Session, AuthError>)
    requires r < OTP_DRAWS
    requires oldSecret != newSecret
    ensures requested == Done && first == Done
    ensures second == Failed(InvalidOrExpiredOtp)
    ensures oldLogin == Err(WrongPassword)
    ensures newLogin.Ok? && newLogin.value.user.email == "a@x.com"
  {
    var svc := new AuthService(map[], []);
    var registered := svc.Register(None, "Ana", "a@x.com", oldSecret, MANAGER, Some(["reports"]), None);
    assert registered == Done;
    requested := svc.RequestPasswordReset("a@x.com", t, r, true);
    first := svc.ResetPasswordWithOtp("a@x.com", Some(OtpCode(r)), newSecret, t + 60 * 1000);
    second := svc.ResetPasswordWithOtp("a@x.com", Some(OtpCode(r)), "another", t + 2 * 60 * 1000);
    oldLogin := svc.Login("a@x.com", oldSecret, t + 3 * 60 * 1000);
    newLogin := svc.Login("a@x.com", newSecret, t + 4 * 60 * 1000);
  }

  /**
   * Two reset requests, the second overwriting the first; a confirmation with the
   * first request's code succeeds exactly when both draws were the same and the
   * second code has not expired.
   */
  method OverwrittenCode(t1: Millis, t2: Millis, r1: nat, r2: nat, now: Millis) returns (res: Outcome)
    requires r1 < OTP_DRAWS && r2 < OTP_DRAWS
    ensures res == Done <==> r1 == r2 && now <= OtpExpiry(t2)
    ensures res != Done ==> res == Failed(InvalidOrExpiredOtp)
  {
    var svc := new AuthService(map[], []);
    var registered := svc.Register(None, "Ana", "a@x.com", "secret", MANAGER, Some(["reports"]), None);
    assert registered == Done;
    var sent1 := svc.RequestPasswordReset("a@x.com", t1, r1, true);
    var sent2 := svc.RequestPasswordReset("a@x.com", t2, r2, true);
    OtpCodeInjective(r1, r2);
    res := svc.ResetPasswordWithOtp("a@x.com", Some(OtpCode(r1)), "new-secret", now);
  }
}
