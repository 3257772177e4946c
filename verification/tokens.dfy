/** Day-pass tokens (src/lib/tokens.ts): issued after a confirmed payment, valid for 24 hours,
    signed with a server-held secret. The HS256 signature itself (section 3.2 of RFC 7518, as
    used by RFC 7519) is abstracted as a pair of functions; what is modelled is the claim set
    the server builds (its payload and the `exp` claim that `setExpirationTime('24h')` adds),
    the library's `exp` test, the application's own expiry test, and how a missing secret is
    handled. */
module Tokens {
  import opened Wrappers

  /** 24 hours in milliseconds. */
  const DayMs: int := 24 * 60 * 60 * 1000

  /** 24 hours in seconds, the span `setExpirationTime('24h')` adds. */
  const DaySeconds: int := 24 * 60 * 60

  datatype DayPassPayload = DayPassPayload(sessionId: string, purchasedAt: int, expiresAt: int)

  /** The claim set inside a token: the application's payload plus the registered `exp` claim
      (section 4.1.4 of RFC 7519), in whole seconds since the epoch, when there is one. */
  datatype Claims = Claims(payload: DayPassPayload, exp: Option<int>)

  /** The signing library's HS256 layer: `sign` makes a token from a claim set and a key,
      `verify` returns the claim set of a token whose signature checks out under the key.
      The library's own time check is not part of `verify`; it is `ExpClaimLive` below. */
  datatype Signer = Signer(sign: (Claims, string) -> string,
                           verify: (string, string) -> Option<Claims>)

  /** What is assumed of the signing library: a token verifies, under the key it was signed
      with, to exactly the claim set it was made from. */
  ghost predicate Sound(s: Signer) {
    forall c: Claims, key: string {:trigger s.sign(c, key)} :: s.verify(s.sign(c, key), key) == Some(c)
  }

  /** The library's clock reading in seconds: `Math.floor(ms / 1000)` (Dafny's `/` is the
      floor for a positive divisor). */
  function EpochSeconds(ms: int): (r: int)
    ensures r * 1000 <= ms < r * 1000 + 1000
  {
    ms / 1000
  }

  /** The library's expiry test: a claim set without `exp` passes; one with `exp` passes only
      while the current second is still before it. */
  predicate ExpClaimLive(c: Claims, now: int) {
    c.exp.None? || EpochSeconds(now) < c.exp.value
  }

  datatype TokenError = SecretNotConfigured

  /** `getSecret`: the `TOKEN_SECRET` setting; an absent or empty setting throws. */
  function GetSecret(tokenSecret: Option<string>): (r: Result<string, TokenError>)
    ensures r.Ok? <==> tokenSecret.Some? && |tokenSecret.value| > 0
    ensures r.Ok? ==> r.value == tokenSecret.value
  {
    if tokenSecret.None? || |tokenSecret.value| == 0 then Err(SecretNotConfigured) else Ok(tokenSecret.value)
  }

  /** The payload `createDayPassToken` signs at time `now` (milliseconds). */
  function NewPayload(sessionId: string, now: int): (p: DayPassPayload)
    ensures p.sessionId == sessionId && p.purchasedAt == now
    ensures p.expiresAt - p.purchasedAt == DayMs
  {
    DayPassPayload(sessionId, now, now + DayMs)
  }

  /** The claim set `createDayPassToken` signs: the payload, and an `exp` 24 hours after the
      current second. The `exp` claim is the payload's `expiresAt` rounded down to a second. */
  function NewClaims(sessionId: string, now: int): (c: Claims)
    ensures c.payload == NewPayload(sessionId, now)
    ensures c.exp.Some?
    ensures c.payload.expiresAt - 1000 < c.exp.value * 1000 <= c.payload.expiresAt
  {
    Claims(NewPayload(sessionId, now), Some(EpochSeconds(now) + DaySeconds))
  }

  /** The first instant (milliseconds) at which the library refuses a token issued at `issuedAt`:
      the start of the second its `exp` claim names. It is never later than the payload's
      `expiresAt`, and earlier by less than a second. */
  function LibraryCutoff(issuedAt: int): (t: int)
    ensures issuedAt + DayMs - 1000 < t <= issuedAt + DayMs
    ensures forall now: int :: ExpClaimLive(NewClaims("", issuedAt), now) <==> now < t
  {
    (EpochSeconds(issuedAt) + DaySeconds) * 1000
  }

  /** `createDayPassToken`: a missing secret makes it throw. */
  function CreateDayPassToken(sessionId: string, now: int, tokenSecret: Option<string>, signer: Signer)
    : (r: Result<string, TokenError>)
    ensures r.Err? <==> GetSecret(tokenSecret).Err?
    ensures r.Ok? ==> r.value == signer.sign(NewClaims(sessionId, now), tokenSecret.value)
  {
    match GetSecret(tokenSecret)
    case Err(e) => Err(e)
    case Ok(secret) => Ok(signer.sign(NewClaims(sessionId, now), secret))
  }

  /** `verifyDayPassToken`: the library refuses a bad signature or a passed `exp`, the
      application then refuses a payload whose `expiresAt` lies before `now` (one expiring
      exactly now passes that second test); every failure, a missing secret included, becomes
      `null`. */
  function VerifyDayPassToken(token: string, now: int, tokenSecret: Option<string>, signer: Signer)
    : (r: Option<DayPassPayload>)
    ensures GetSecret(tokenSecret).Err? ==> r.None?
    ensures r.Some? ==> && signer.verify(token, tokenSecret.value).Some?
                        && signer.verify(token, tokenSecret.value).value.payload == r.value
                        && ExpClaimLive(signer.verify(token, tokenSecret.value).value, now)
                        && r.value.expiresAt >= now
    ensures (&& GetSecret(tokenSecret).Ok?
             && signer.verify(token, tokenSecret.value).Some?
             && ExpClaimLive(signer.verify(token, tokenSecret.value).value, now)
             && signer.verify(token, tokenSecret.value).value.payload.expiresAt >= now) ==> r.Some?
  {
    match GetSecret(tokenSecret)
    case Err(_) => None
    case Ok(secret) =>
      match signer.verify(token, secret)
      case None => None
      case Some(claims) =>
        if !ExpClaimLive(claims, now) then None
        else if claims.payload.expiresAt < now then None
        else Some(claims.payload)
  }

  /** An issued token verifies, under the same secret, to the payload it was made from until
      the library's cutoff and never after. The cutoff falls before the payload's `expiresAt`,
      so the application's own expiry test never refuses a token the server issued; a token
      is accepted at least until one second before `expiresAt`, and never at `expiresAt`. */
  lemma IssuedTokenLifetime(sessionId: string, issuedAt: int, now: int, tokenSecret: Option<string>,
                            signer: Signer)
    requires Sound(signer)
    requires GetSecret(tokenSecret).Ok?
    ensures var token := CreateDayPassToken(sessionId, issuedAt, tokenSecret, signer).value;
            var r := VerifyDayPassToken(token, now, tokenSecret, signer);
            && (r.Some? <==> now < LibraryCutoff(issuedAt))
            && (r.Some? ==> r.value == DayPassPayload(sessionId, issuedAt, issuedAt + DayMs))
            && (r.Some? ==> now < issuedAt + DayMs)
            && (now + 1000 <= issuedAt + DayMs ==> r.Some?)
  {
    var c := NewClaims(sessionId, issuedAt);
    assert signer.verify(signer.sign(c, tokenSecret.value), tokenSecret.value) == Some(c);
    assert ExpClaimLive(c, now) <==> ExpClaimLive(NewClaims("", issuedAt), now);
  }

  /** A missing secret is asymmetric: issuing throws, but verifying quietly answers `null`. */
  lemma MissingSecretOnlyBreaksIssuing(sessionId: string, token: string, now: int,
                                       tokenSecret: Option<string>, signer: Signer)
    requires tokenSecret.None? || tokenSecret == Some("")
    ensures CreateDayPassToken(sessionId, now, tokenSecret, signer) == Err(SecretNotConfigured)
    ensures VerifyDayPassToken(token, now, tokenSecret, signer).None?
  {
  }
}
