/**
 * The one-time code of the password-reset flow: how a code is drawn and rendered,
 * how long it lives, and when a presented code is accepted.
 */
module Otp {
  import opened Wrappers
  import opened Decimal

  /** The lifetime of a code: 10 minutes in milliseconds. */
  const OTP_LIFETIME_MS: nat := 10 * 60 * 1000
  /** The smallest code; codes are 100000 plus a draw. */
  const OTP_BASE: nat := 100000
  /** The number of codes 100000..999999, one per draw. */
  const OTP_DRAWS: nat := 900000

  /** The code for the draw `r`: the decimal rendering of 100000 + r, six digits long. */
  function OtpCode(r: nat): (code: string)
    requires r < OTP_DRAWS
    ensures |code| == 6 && AllDigits(code) && code[0] != '0'
    ensures DecimalValue(code) == OTP_BASE + r
  {
    var n := OTP_BASE + r;
    assert Pow10(5) == 100000 && Pow10(6) == 1000000;
    DecimalLength(n, 5);
    DecimalRoundTrip(n);
    DecimalString(n)
  }

  /** The expiry stored with a code drawn at `now`. */
  function OtpExpiry(now: int): int {
    now + OTP_LIFETIME_MS
  }

  /**
   * A stored expiry counts as passed when it is present and earlier than `now`; an
   * absent expiry never compares as earlier than a number.
   */
  predicate Expired(expires: Option<int>, now: int) {
    expires.Some? && expires.value < now
  }

  /**
   * The reset guard exactly as the controller writes it: the stored code differs from
   * the presented one, or the expiry has passed, means refusal. Either code may be absent.
   */
  predicate OtpAcceptedAsWritten(stored: Option<string>, expires: Option<int>, presented: Option<string>,
                                 now: int) {
    !(stored != presented || Expired(expires, now))
  }

  /**
   * The guard as evidently intended: a code must be presented, and it must equal the
   * stored one whose expiry has not passed.
   */
  predicate OtpAccepted(stored: Option<string>, expires: Option<int>, presented: Option<string>, now: int) {
    presented.Some? && OtpAcceptedAsWritten(stored, expires, presented, now)
  }

  /**
   * The guard as written lets a request without a code through for every account
   * without a pending reset (both fields absent, as after a completed reset).
   */
  lemma AsWrittenAcceptsMissingCode(now: int)
    ensures OtpAcceptedAsWritten(None, None, None, now)
  {
  }

  /** The intended guard refuses a request without a code, whatever is stored. */
  lemma OtpAcceptedRefusesMissingCode(stored: Option<string>, expires: Option<int>, now: int)
    ensures !OtpAccepted(stored, expires, None, now)
  {
  }

  /** For a presented code the two guards agree: the correction changes nothing else. */
  lemma OtpAcceptedAgreesWhenPresented(stored: Option<string>, expires: Option<int>, presented: string,
                                       now: int)
    ensures OtpAccepted(stored, expires, Some(presented), now) ==
              OtpAcceptedAsWritten(stored, expires, Some(presented), now)
  {
  }

  /** Two draws give the same code only when they are the same draw. */
  lemma OtpCodeInjective(r1: nat, r2: nat)
    requires r1 < OTP_DRAWS && r2 < OTP_DRAWS
    ensures OtpCode(r1) == OtpCode(r2) <==> r1 == r2
  {
  }

  /**
   * When code and expiry are stored together, as every operation keeps them, the
   * guard accepts exactly the stored code up to and including the expiry instant.
   */
  lemma OtpAcceptedWhenPaired(stored: Option<string>, expires: Option<int>, presented: Option<string>,
                               now: int)
    requires stored.Some? <==> expires.Some?
    ensures OtpAccepted(stored, expires, presented, now) <==>
              presented.Some? && stored == presented && expires.Some? && now <= expires.value
  {
  }

  /** A freshly issued code is accepted until its expiry, the expiry instant included. */
  lemma IssuedCodeAccepted(r: nat, issuedAt: int, now: int)
    requires r < OTP_DRAWS
    requires now <= OtpExpiry(issuedAt)
    ensures OtpAccepted(Some(OtpCode(r)), Some(OtpExpiry(issuedAt)), Some(OtpCode(r)), now)
  {
  }

  /** After the 10 minutes are over no code is accepted, the right one included. */
  lemma ExpiredCodeRejected(stored: string, issuedAt: int, presented: Option<string>, now: int)
    requires now > OtpExpiry(issuedAt)
    ensures !OtpAccepted(Some(stored), Some(OtpExpiry(issuedAt)), presented, now)
  {
  }

  /** Cleared fields accept no code. */
  lemma ClearedCodeRejected(presented: Option<string>, now: int)
    ensures !OtpAccepted(None, None, presented, now)
  {
  }

  /**
   * When a second request overwrote the code of a first one, the first code is
   * accepted only if both draws were the same.
   */
  lemma OnlyNewestCodeAccepted(r1: nat, r2: nat, issuedAt: int, now: int)
    requires r1 < OTP_DRAWS && r2 < OTP_DRAWS
    ensures OtpAccepted(Some(OtpCode(r2)), Some(OtpExpiry(issuedAt)), Some(OtpCode(r1)), now) <==>
              r1 == r2 && now <= OtpExpiry(issuedAt)
  {
    OtpCodeInjective(r1, r2);
  }
}
