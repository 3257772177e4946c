/** Client-side premium state (src/lib/premium.ts): a free quota of two evaluations per calendar
    day counted in browser storage, and an unverified look at the day-pass token's expiry.

    Browser storage is a value: the usage slot is what `localStorage` holds under 'dailyUsage',
    already decoded (a stored record reads back as the record that was written). The date
    string and the clock are parameters. */
module Premium {
  import opened Wrappers
  import opened Text
  import opened Json
  import opened Tokens

  const FreeLimit: int := 2

  datatype DailyUsage = DailyUsage(count: int, date: string)

  /** The 'dailyUsage' entry: absent or empty, present but not parseable, or a record. */
  datatype UsageSlot = NoRecord | Unreadable | Stored(usage: DailyUsage)

  /** `getDailyUsage`: the stored record if it is dated today, otherwise a zero count for today. */
  function GetDailyUsage(slot: UsageSlot, today: string): (u: DailyUsage)
    ensures u.date == today
    ensures slot.Stored? && slot.usage.date == today ==> u == slot.usage
    ensures !(slot.Stored? && slot.usage.date == today) ==> u.count == 0
  {
    match slot
    case Stored(usage) => if usage.date != today then DailyUsage(0, today) else usage
    case _ => DailyUsage(0, today)
  }

  /** `incrementDailyUsage`: today's count plus one, written back and returned. */
  function IncrementDailyUsage(slot: UsageSlot, today: string): (r: (DailyUsage, UsageSlot))
    ensures r.1 == Stored(r.0)
    ensures r.0 == DailyUsage(GetDailyUsage(slot, today).count + 1, today)
    ensures GetDailyUsage(r.1, today).count == GetDailyUsage(slot, today).count + 1
  {
    var current := GetDailyUsage(slot, today);
    var updated := DailyUsage(current.count + 1, today);
    (updated, Stored(updated))
  }

  /** `getUsageRemaining`: what is left of today's free quota, never negative. */
  function GetUsageRemaining(slot: UsageSlot, today: string): (r: int)
    ensures r >= 0
    ensures r > 0 <==> GetDailyUsage(slot, today).count < FreeLimit
    ensures GetDailyUsage(slot, today).count >= 0 ==> r <= FreeLimit
    ensures GetDailyUsage(slot, today).count <= FreeLimit ==> r == FreeLimit - GetDailyUsage(slot, today).count
    ensures GetDailyUsage(slot, today).count >= FreeLimit ==> r == 0
  {
    var usage := GetDailyUsage(slot, today);
    if FreeLimit - usage.count > 0 then FreeLimit - usage.count else 0
  }

  /** A slot as the application itself leaves it: no record, or a record with a count that is
      not negative. */
  predicate WrittenByApp(slot: UsageSlot) {
    slot.Stored? ==> slot.usage.count >= 0
  }

  /** Recording an evaluation keeps the slot in that form, so the remaining quota the
      application shows always lies in [0, 2]. */
  lemma IncrementKeepsQuotaInRange(slot: UsageSlot, today: string)
    requires WrittenByApp(slot)
    ensures WrittenByApp(IncrementDailyUsage(slot, today).1)
    ensures 0 <= GetUsageRemaining(IncrementDailyUsage(slot, today).1, today) < FreeLimit
    ensures 0 <= GetUsageRemaining(slot, today) <= FreeLimit
  {
  }

  /** The slot after `n` evaluations recorded on the same day. */
  function RecordEvaluations(slot: UsageSlot, today: string, n: nat): UsageSlot
    decreases n
  {
    if n == 0 then slot else RecordEvaluations(IncrementDailyUsage(slot, today).1, today, n - 1)
  }

  /** Each recorded evaluation adds exactly one to today's count. */
  lemma {:induction false} RecordEvaluationsCounts(slot: UsageSlot, today: string, n: nat)
    ensures GetDailyUsage(RecordEvaluations(slot, today, n), today).count == GetDailyUsage(slot, today).count + n
    decreases n
  {
    if n > 0 {
      RecordEvaluationsCounts(IncrementDailyUsage(slot, today).1, today, n - 1);
    }
  }

  /** A record from another day counts for nothing: the full quota is available again. */
  lemma NewDayRestoresQuota(usage: DailyUsage, today: string)
    requires usage.date != today
    ensures GetUsageRemaining(Stored(usage), today) == FreeLimit
    ensures IncrementDailyUsage(Stored(usage), today).0 == DailyUsage(1, today)
  {
  }

  /** The token's payload segment decoded: the `expiresAt` it claims, if it is a number.
      `decodeSegment` stands for `JSON.parse(atob(segment))`, `None` when either throws. */
  function ClaimedExpiry(token: string, decodeSegment: string -> Option<Value>): (r: Option<real>)
    ensures r.Some? ==> |Split(token, '.')| == 3
    ensures r.Some? <==> && |Split(token, '.')| == 3
                         && decodeSegment(Split(token, '.')[1]).Some?
                         && Get(decodeSegment(Split(token, '.')[1]).value, "expiresAt").Some?
                         && Get(decodeSegment(Split(token, '.')[1]).value, "expiresAt").value.JNum?
    ensures r.Some? ==> r.value == Get(decodeSegment(Split(token, '.')[1]).value, "expiresAt").value.n
  {
    var parts := Split(token, '.');
    if |parts| != 3 then None
    else
      match decodeSegment(parts[1])
      case None => None
      case Some(payload) =>
        match Get(payload, "expiresAt")
        case Some(JNum(x)) => Some(x)
        case _ => None
  }

  /** `hasDayPass`: a stored token of three dot-separated segments whose payload claims an
      expiry strictly after `now`. The signature is not checked here; the server does that. */
  function HasDayPass(token: Option<string>, now: int, decodeSegment: string -> Option<Value>): (r: bool)
    ensures r ==> token.Some? && Occurrences(token.value, '.') == 2
    ensures r <==> && token.Some? && |token.value| > 0
                   && ClaimedExpiry(token.value, decodeSegment).Some?
                   && ClaimedExpiry(token.value, decodeSegment).value > now as real
  {
    if token.None? || |token.value| == 0 then false
    else
      SplitCount(token.value, '.');
      var expiry := ClaimedExpiry(token.value, decodeSegment);
      expiry.Some? && expiry.value > now as real
  }

  /** `canEvaluate`: a day pass, or free quota left today. */
  function CanEvaluate(token: Option<string>, slot: UsageSlot, today: string, now: int,
                       decodeSegment: string -> Option<Value>): (r: bool)
    ensures r <==> HasDayPass(token, now, decodeSegment) || GetDailyUsage(slot, today).count < FreeLimit
  {
    HasDayPass(token, now, decodeSegment) || GetUsageRemaining(slot, today) > 0
  }

  /** The free quota: starting a day with nothing recorded, a user without a day pass may
      evaluate exactly twice. */
  lemma TwoFreeEvaluationsPerDay(token: Option<string>, slot: UsageSlot, today: string, now: int,
                                 decodeSegment: string -> Option<Value>, n: nat)
    requires !(slot.Stored? && slot.usage.date == today)
    requires !HasDayPass(token, now, decodeSegment)
    ensures CanEvaluate(token, RecordEvaluations(slot, today, n), today, now, decodeSegment) <==> n < FreeLimit
  {
    RecordEvaluationsCounts(slot, today, n);
  }

  /** Browser and server disagree about a pass in its last fraction of a second: for a token
      the server issued, whose payload segment reads back with the `expiresAt` it was given,
      the browser still shows a day pass while the server already refuses it exactly from the
      library's cutoff up to `expiresAt`; whenever the server accepts, the browser agrees. */
  lemma ExpiryWindowDisagrees(sessionId: string, issuedAt: int, now: int, tokenSecret: Option<string>,
                              signer: Signer, token: string, decodeSegment: string -> Option<Value>)
    requires Sound(signer)
    requires CreateDayPassToken(sessionId, issuedAt, tokenSecret, signer) == Ok(token)
    requires ClaimedExpiry(token, decodeSegment) == Some((issuedAt + DayMs) as real)
    ensures HasDayPass(Some(token), now, decodeSegment) && VerifyDayPassToken(token, now, tokenSecret, signer).None?
            <==> LibraryCutoff(issuedAt) <= now < issuedAt + DayMs
    ensures VerifyDayPassToken(token, now, tokenSecret, signer).Some? ==> HasDayPass(Some(token), now, decodeSegment)
  {
    IssuedTokenLifetime(sessionId, issuedAt, now, tokenSecret, signer);
  }
}
