/** The per-client fixed-window rate limiter of the evaluation endpoint
    (src/app/api/evaluate/route.ts): at most ten requests per client key in a window of one
    minute that opens with the key's first request. The process-wide map is an explicit value
    threaded through each call; the clock is a parameter. */
module RateLimit {
  import opened Wrappers
  import opened Text

  const WindowMs: int := 60 * 1000
  const MaxRequests: int := 10
  /** Above this many entries, a request first sweeps out every expired entry. */
  const SweepThreshold: int := 10000

  datatype Entry = Entry(count: int, resetTime: int)

  type Table = map<string, Entry>

  datatype Decision = Decision(allowed: bool, remaining: int, resetIn: int)

  datatype Step = Step(table: Table, decision: Decision)

  /** `getRateLimitKey`: the first hop of `X-Forwarded-For`, trimmed; else `X-Real-IP`; else
      the shared key 'unknown'. */
  function GetRateLimitKey(forwardedFor: Option<string>, realIp: Option<string>): (key: string)
    ensures forwardedFor.Some? ==> IsTrimmed(key) && ',' !in key
    ensures forwardedFor.Some? ==>
              exists pre: string, post: string :: Trim(pre) == key && forwardedFor.value == pre + post
                                                  && ',' !in pre && (post == [] || post[0] == ',')
    ensures forwardedFor.None? && realIp.Some? ==> key == realIp.value
    ensures forwardedFor.None? && realIp.None? ==> key == "unknown"
  {
    if forwardedFor.Some? then
      var parts := Split(forwardedFor.value, ',');
      SplitFirst(forwardedFor.value, ',');
      var pre := parts[0];
      var post := forwardedFor.value[|pre|..];
      assert forwardedFor.value == pre + post;
      Trim(pre)
    else realIp.GetOr("unknown")
  }

  /** The entries a sweep at `now` removes: those whose window closed strictly before `now`. */
  predicate Expired(e: Entry, now: int) {
    now > e.resetTime
  }

  /** The clean-up loop: every expired entry removed, every other entry kept as is. */
  function Sweep(table: Table, now: int): (t: Table)
    ensures forall k :: k in t <==> k in table && !Expired(table[k], now)
    ensures forall k | k in t :: t[k] == table[k]
  {
    map k | k in table && !Expired(table[k], now) :: table[k]
  }

  /** The map as the request finds it after the periodic clean-up. */
  function Housekeep(table: Table, now: int): (t: Table)
    ensures |table| <= SweepThreshold ==> t == table
    ensures |table| > SweepThreshold ==> forall k :: k in t <==> k in table && !Expired(table[k], now)
    ensures forall k | k in t :: k in table && t[k] == table[k]
  {
    if |table| > SweepThreshold then Sweep(table, now) else table
  }

  /** `checkRateLimit(key)` at time `now`. The key's entry is looked up before the clean-up;
      an entry that is missing or whose window has closed opens a new window. */
  function CheckRateLimit(table: Table, key: string, now: int): (s: Step)
    ensures key in s.table
    ensures key !in table || Expired(table[key], now) ==>
              s.table[key] == Entry(1, now + WindowMs) && s.decision == Decision(true, MaxRequests - 1, WindowMs)
    ensures key in table && !Expired(table[key], now) && table[key].count >= MaxRequests ==>
              s.table[key] == table[key] && s.decision == Decision(false, 0, table[key].resetTime - now)
    ensures key in table && !Expired(table[key], now) && table[key].count < MaxRequests ==>
              && s.table[key] == Entry(table[key].count + 1, table[key].resetTime)
              && s.decision == Decision(true, MaxRequests - s.table[key].count, table[key].resetTime - now)
    ensures forall k | k != key :: k in s.table <==> k in Housekeep(table, now)
    ensures forall k | k != key && k in s.table :: k in table && s.table[k] == table[k]
  {
    var swept := Housekeep(table, now);
    if key !in table || Expired(table[key], now) then
      Step(swept[key := Entry(1, now + WindowMs)], Decision(true, MaxRequests - 1, WindowMs))
    else
      var entry := table[key];
      if entry.count >= MaxRequests then
        Step(swept, Decision(false, 0, entry.resetTime - now))
      else
        var bumped := Entry(entry.count + 1, entry.resetTime);
        Step(swept[key := bumped], Decision(true, MaxRequests - bumped.count, entry.resetTime - now))
  }

  /** Every entry counts between one and ten requests, in a window that closes no later than
      one window length after `now`. */
  ghost predicate Inv(table: Table, now: int) {
    forall k | k in table :: 1 <= table[k].count <= MaxRequests && table[k].resetTime <= now + WindowMs
  }

  /** The invariant survives any request at any later time, and the decision stays within
      bounds: `remaining` in [0, 9] and `resetIn` in [0, 60000]. */
  lemma CheckRateLimitKeepsInv(table: Table, key: string, before: int, now: int)
    requires Inv(table, before) && before <= now
    ensures Inv(CheckRateLimit(table, key, now).table, now)
    ensures var d := CheckRateLimit(table, key, now).decision;
            0 <= d.remaining < MaxRequests && 0 <= d.resetIn <= WindowMs
  {
  }

  /** The decisions for successive requests from one key at the given times. */
  function Run(table: Table, key: string, times: seq<int>): (ds: seq<Decision>)
    ensures |ds| == |times|
    decreases |times|
  {
    if |times| == 0 then []
    else
      var s := CheckRateLimit(table, key, times[0]);
      [s.decision] + Run(s.table, key, times[1..])
  }

  /** Inside a live window that already counts `c` requests, the i-th further request is
      allowed exactly when `c + i` is still below the limit. */
  lemma {:induction false} LiveWindow(table: Table, key: string, times: seq<int>)
    requires key in table && 1 <= table[key].count <= MaxRequests
    requires forall i | 0 <= i < |times| :: !Expired(table[key], times[i])
    ensures forall i | 0 <= i < |times| :: Run(table, key, times)[i].allowed <==> table[key].count + i < MaxRequests
  {
    if |times| > 0 {
      var s := CheckRateLimit(table, key, times[0]);
      assert s.table[key].resetTime == table[key].resetTime;
      assert s.table[key].count == if table[key].count < MaxRequests then table[key].count + 1 else MaxRequests;
      LiveWindow(s.table, key, times[1..]);
      forall i | 0 <= i < |times|
        ensures Run(table, key, times)[i].allowed <==> table[key].count + i < MaxRequests
      {
        if i > 0 {
          assert Run(table, key, times)[i] == Run(s.table, key, times[1..])[i - 1];
        }
      }
    }
  }

  /** The limit: a client whose window has closed (or who never called) gets exactly ten
      requests through within the next minute; the eleventh and every later one in that
      minute is refused. */
  lemma TenPerWindow(table: Table, key: string, times: seq<int>)
    requires |times| > 0
    requires key !in table || Expired(table[key], times[0])
    requires forall i | 0 <= i < |times| :: times[i] <= times[0] + WindowMs
    ensures forall i | 0 <= i < |times| :: Run(table, key, times)[i].allowed <==> i < MaxRequests
  {
    var s := CheckRateLimit(table, key, times[0]);
    var rest := times[1..];
    LiveWindow(s.table, key, rest);
    forall i | 0 <= i < |times| ensures Run(table, key, times)[i].allowed <==> i < MaxRequests {
      if i > 0 {
        assert Run(table, key, times)[i] == Run(s.table, key, rest)[i - 1];
      }
    }
  }

  /** `Math.ceil(x / d)` for a positive divisor. */
  function CeilDiv(x: int, d: int): (r: int)
    requires d > 0
    ensures d * (r - 1) < x <= d * r
  {
    -((-x) / d)
  }

  /** The `Retry-After` seconds of a refusal under the invariant lie in [0, 60]. */
  lemma RetryAfterBounds(table: Table, key: string, before: int, now: int)
    requires Inv(table, before) && before <= now
    requires !CheckRateLimit(table, key, now).decision.allowed
    ensures 0 <= CeilDiv(CheckRateLimit(table, key, now).decision.resetIn, 1000) <= 60
  {
    CheckRateLimitKeepsInv(table, key, before, now);
  }
}
