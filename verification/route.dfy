/** The evaluation endpoint `POST /api/evaluate` (src/app/api/evaluate/route.ts): configuration
    check, premium bypass, per-client rate limiting, input validation, evaluation, output check.

    A request is reduced to what the handler reads from it: the three headers and the body,
    which is either a parsed JSON value or the message of the error `req.json()` threw. The
    limiter's map is threaded through as a value and the clock is a parameter. */
module Route {
  import opened Wrappers
  import opened Json
  import opened Types
  import opened Validators
  import opened Prompt
  import opened Orchestrator
  import opened Tokens
  import opened RateLimit

  /** What the server is configured with and the libraries it calls. */
  datatype Server = Server(
    openAiKey: Option<string>,
    tokenSecret: Option<string>,
    signer: Signer,
    matches: (Pattern, string) -> bool,
    decode: string -> Option<Value>)

  datatype Request = Request(
    authorization: Option<string>,
    forwardedFor: Option<string>,
    realIp: Option<string>,
    body: Result<Value, string>)

  datatype Response =
    | ConfigMissing                                   // 500 'OpenAI API key not configured'
    | RateLimited(retryAfter: int)                     // 429 with Retry-After and X-RateLimit-Reset
    | BadRequest(message: string)                      // 400
    | InvalidResult                                    // 500 'Invalid evaluation result'
    | Success(result: EvaluationResult, remaining: int) // 200 with X-RateLimit-Remaining
    | UpstreamRateLimited                              // 429 from the error handler, no headers
    | Failed                                           // 500 'Failed to evaluate resume. Please try again.'
  {
    function Status(): int {
      match this
      case ConfigMissing => 500
      case RateLimited(_) => 429
      case BadRequest(_) => 400
      case InvalidResult => 500
      case Success(_, _) => 200
      case UpstreamRateLimited => 429
      case Failed => 500
    }
  }

  /** The response, the limiter's map afterwards, and the prompts sent to the model. */
  datatype Outcome = Outcome(response: Response, table: Table, prompts: seq<string>)

  const BearerPrefix: string := "Bearer "

  /** The token of an `Authorization: Bearer <token>` header, if it has a non-empty one. */
  function BearerToken(authorization: Option<string>): (r: Option<string>)
    ensures r.Some? ==> authorization == Some(BearerPrefix + r.value) && |r.value| > 0
  {
    if authorization.None? then None
    else
      var h := authorization.value;
      if |h| < |BearerPrefix| || h[..|BearerPrefix|] != BearerPrefix then None
      else
        var token := h[|BearerPrefix|..];
        assert h == BearerPrefix + token;
        if |token| == 0 then None else Some(token)
  }

  /** A header built from a non-empty token yields that token back, and no other header form
      yields one. */
  lemma BearerTokenRoundTrip(token: string)
    requires |token| > 0
    ensures BearerToken(Some(BearerPrefix + token)) == Some(token)
  {
    var h := BearerPrefix + token;
    assert h[..|BearerPrefix|] == BearerPrefix;
    assert h[|BearerPrefix|..] == token;
  }

  /** `hasPremiumAccess`: a bearer token that verifies as an unexpired day pass. */
  function HasPremiumAccess(authorization: Option<string>, now: int, tokenSecret: Option<string>, signer: Signer)
    : (r: bool)
    ensures r <==> exists token: string :: && authorization == Some(BearerPrefix + token) && |token| > 0
                                           && VerifyDayPassToken(token, now, tokenSecret, signer).Some?
  {
    var t := BearerToken(authorization);
    if t.Some? && VerifyDayPassToken(t.value, now, tokenSecret, signer).Some? then true
    else
      assert forall token: string | authorization == Some(BearerPrefix + token) && |token| > 0
        :: t == Some(token) by {
        forall token: string | authorization == Some(BearerPrefix + token) && |token| > 0
          ensures t == Some(token)
        {
          BearerTokenRoundTrip(token);
        }
      }
      false
  }

  /** Whether `sub` occurs in `s` (`String.prototype.includes`). */
  predicate Mentions(s: string, sub: string)
    decreases |s|
  {
    |sub| <= |s| && (s[..|sub|] == sub || Mentions(s[1..], sub))
  }

  /** `sub` sits in `s` starting at position `i`. */
  predicate OccursAt(s: string, sub: string, i: nat) {
    i + |sub| <= |s| && s[i..i + |sub|] == sub
  }

  /** `Mentions` finds `sub` exactly when it sits at some position of `s`. */
  lemma {:induction false} MentionsIffOccurs(s: string, sub: string)
    ensures Mentions(s, sub) <==> exists i: nat :: OccursAt(s, sub, i)
    decreases |s|
  {
    if |sub| <= |s| && s[..|sub|] != sub {
      MentionsIffOccurs(s[1..], sub);
      if Mentions(s[1..], sub) {
        var i: nat :| OccursAt(s[1..], sub, i);
        assert s[1..][i..i + |sub|] == s[i + 1..i + 1 + |sub|];
        assert OccursAt(s, sub, i + 1);
      } else {
        assert !OccursAt(s, sub, 0) by { assert s[0..0 + |sub|] == s[..|sub|]; }
        forall i: nat | 0 < i ensures OccursAt(s, sub, i) ==> OccursAt(s[1..], sub, i - 1) {
          if i + |sub| <= |s| {
            assert s[i..i + |sub|] == s[1..][i - 1..i - 1 + |sub|];
          }
        }
      }
    } else if |sub| <= |s| {
      assert OccursAt(s, sub, 0);
    }
  }

  /** The part of the handler inside its `try`: parse, validate, extract, evaluate, check.
      Validation failures are the only 400s, the two defensive branches are unreachable, and
      only valid requests reach the model. */
  function Handle(server: Server, body: Result<Value, string>, remaining: int, first: Reply, second: Reply)
    : (r: (Response, seq<string>))
    ensures |r.1| <= 2
    ensures |r.1| > 0 ==> body.Ok? && ValidateInput(body.value).Valid?
    ensures r.0.BadRequest? ==> && body.Ok? && ValidateInput(body.value).Invalid?
                                && r.0.message == ValidateInput(body.value).error.Message()
    ensures !r.0.InvalidResult? && !r.0.RateLimited? && !r.0.ConfigMissing?
    ensures r.0.Success? ==> r.0.remaining == remaining && ValidateOutput(ToJson(r.0.result)) && Shaped(r.0.result)
    ensures r.0.Success? <==> body.Ok? && ValidateInput(body.value).Valid?
    ensures body.Err? ==> r.0 == (if Mentions(body.error, "rate_limit") then UpstreamRateLimited else Failed)
    ensures body.Ok? && ValidateInput(body.value).Valid? ==>
              && ExtractInput(body.value).Some?
              && r == Answer(Evaluate(server, ExtractInput(body.value).value, first, second), remaining)
  {
    match body
    case Err(message) =>
      (if Mentions(message, "rate_limit") then UpstreamRateLimited else Failed, [])
    case Ok(v) =>
      match ValidateInput(v)
      case Invalid(e) => (BadRequest(e.Message()), [])
      case Valid => HandleValid(server, v, remaining, first, second)
  }

  /** The handler once validation has passed: extract, evaluate, check the output. */
  function HandleValid(server: Server, v: Value, remaining: int, first: Reply, second: Reply)
    : (r: (Response, seq<string>))
    requires ValidateInput(v).Valid?
    ensures 1 <= |r.1| <= 2
    ensures r.0.Success? && r.0.remaining == remaining && ValidateOutput(ToJson(r.0.result)) && Shaped(r.0.result)
    ensures ExtractInput(v).Some? && r == Answer(Evaluate(server, ExtractInput(v).value, first, second), remaining)
  {
    ValidatedInputExtracts(v);
    match ExtractInput(v)
    case None => (BadRequest("Failed to parse request"), [])
    case Some(input) => Respond(server, input, remaining, first, second)
  }

  /** `evaluateResume` on an extracted request, with the server's matcher and decoder. */
  function Evaluate(server: Server, input: EvaluationRequest, first: Reply, second: Reply): Evaluation {
    EvaluateResume(input.resumeText, input.jobTitle, input.jobPosting, server.matches, server.decode, first, second)
  }

  /** A 200 carrying the evaluation's result, and the prompts the evaluation sent. */
  function Answer(e: Evaluation, remaining: int): (Response, seq<string>) {
    (Success(e.result, remaining), e.calls)
  }

  /** Evaluate an extracted request and apply the output check, which every evaluation passes:
      the answer is always the evaluation's result, after the evaluation's one or two calls. */
  function Respond(server: Server, input: EvaluationRequest, remaining: int, first: Reply, second: Reply)
    : (r: (Response, seq<string>))
    ensures 1 <= |r.1| <= 2
    ensures r.0.Success? && r.0.remaining == remaining && ValidateOutput(ToJson(r.0.result)) && Shaped(r.0.result)
    ensures r == Answer(Evaluate(server, input, first, second), remaining)
  {
    var e := Evaluate(server, input, first, second);
    EvaluationAlwaysValid(input.resumeText, input.jobTitle, input.jobPosting,
                          server.matches, server.decode, first, second);
    if !ValidateOutput(ToJson(e.result)) then (InvalidResult, e.calls)
    else (Success(e.result, remaining), e.calls)
  }

  predicate Configured(server: Server) {
    server.openAiKey.Some? && |server.openAiKey.value| > 0
  }

  /** What every response of the handler satisfies once the API key is configured: the model
      is consulted, at most twice, only for a request that passed validation; a 400 carries
      exactly the message of the first failing check; the defensive output check never fires;
      and a 200 is sent exactly for valid input, with a result that passes the output check. */
  predicate Sane(o: Outcome, body: Result<Value, string>) {
    && |o.prompts| <= 2
    && (|o.prompts| > 0 ==> body.Ok? && ValidateInput(body.value).Valid?)
    && (o.response.BadRequest? ==> && body.Ok? && ValidateInput(body.value).Invalid?
                                   && o.response.message == ValidateInput(body.value).error.Message())
    && !o.response.InvalidResult?
    && !o.response.ConfigMissing?
    && (o.response.Success? ==> ValidateOutput(ToJson(o.response.result)) && Shaped(o.response.result))
    && (o.response.Success? <==> !o.response.RateLimited? && body.Ok? && ValidateInput(body.value).Valid?)
  }

  /** The premium path: no rate-limit bookkeeping, and -1 reported as remaining. */
  function PremiumPost(server: Server, req: Request, table: Table, first: Reply, second: Reply)
    : (o: Outcome)
    ensures Sane(o, req.body)
    ensures o.table == table && !o.response.RateLimited?
    ensures o.response.Success? ==> o.response.remaining == -1
  {
    Served(server, req.body, table, -1, first, second)
  }

  /** A request the limiter lets through: the handler's answer, with the map as given. */
  function Served(server: Server, body: Result<Value, string>, table: Table, remaining: int,
                  first: Reply, second: Reply)
    : (o: Outcome)
    ensures Sane(o, body)
    ensures o.table == table && !o.response.RateLimited?
    ensures o.response.Success? ==> o.response.remaining == remaining
  {
    var (response, prompts) := Handle(server, body, remaining, first, second);
    Outcome(response, table, prompts)
  }

  /** The metered path: the request is counted against its client key before its body is even
      read; a refusal answers 429 with the seconds until the window closes, rounded up. */
  function MeteredPost(server: Server, req: Request, table: Table, now: int, first: Reply, second: Reply)
    : (o: Outcome)
    ensures Sane(o, req.body)
    ensures var step := CheckRateLimit(table, GetRateLimitKey(req.forwardedFor, req.realIp), now);
            && o.table == step.table
            && (o.response.RateLimited? <==> !step.decision.allowed)
            && (o.response.RateLimited? ==> o.response.retryAfter == CeilDiv(step.decision.resetIn, 1000))
            && (o.response.Success? ==> o.response.remaining == step.decision.remaining)
  {
    var step := CheckRateLimit(table, GetRateLimitKey(req.forwardedFor, req.realIp), now);
    if !step.decision.allowed then
      Outcome(RateLimited(CeilDiv(step.decision.resetIn, 1000)), step.table, [])
    else
      Served(server, req.body, step.table, step.decision.remaining, first, second)
  }

  /** `POST`, at time `now`, with the model's answers to a first and a possible second call. */
  function Post(server: Server, req: Request, table: Table, now: int, first: Reply, second: Reply)
    : (o: Outcome)
    ensures !Configured(server) ==> o == Outcome(ConfigMissing, table, [])
    ensures Configured(server) ==> Sane(o, req.body)
    ensures Configured(server) && HasPremiumAccess(req.authorization, now, server.tokenSecret, server.signer) ==>
              o == PremiumPost(server, req, table, first, second)
    ensures Configured(server) && !HasPremiumAccess(req.authorization, now, server.tokenSecret, server.signer) ==>
              o == MeteredPost(server, req, table, now, first, second)
  {
    if !Configured(server) then Outcome(ConfigMissing, table, [])
    else if HasPremiumAccess(req.authorization, now, server.tokenSecret, server.signer) then
      PremiumPost(server, req, table, first, second)
    else
      MeteredPost(server, req, table, now, first, second)
  }

  /** A request the validator rejects still uses up one of the client's ten requests. */
  lemma RejectedRequestsCount(server: Server, req: Request, table: Table, now: int, first: Reply, second: Reply)
    requires Configured(server) && !HasPremiumAccess(req.authorization, now, server.tokenSecret, server.signer)
    requires var key := GetRateLimitKey(req.forwardedFor, req.realIp);
             key !in table || Expired(table[key], now)
    requires req.body.Ok? && ValidateInput(req.body.value).Invalid?
    ensures var o := Post(server, req, table, now, first, second);
            var key := GetRateLimitKey(req.forwardedFor, req.realIp);
            o.response.Status() == 400 && o.table[key] == Entry(1, now + WindowMs) && o.prompts == []
  {
  }

  /** A holder of a day pass that the signing library still accepts (issued less than 24
      hours ago, up to the cutoff `LibraryCutoff`) is never refused by the limiter and leaves
      the limiter's map exactly as it found it, however many requests the client has already
      made. */
  lemma DayPassBypassesLimiter(server: Server, req: Request, table: Table, now: int, first: Reply, second: Reply,
                               sessionId: string, issuedAt: int, token: string)
    requires Configured(server) && Sound(server.signer)
    requires CreateDayPassToken(sessionId, issuedAt, server.tokenSecret, server.signer) == Ok(token)
    requires |token| > 0 && req.authorization == Some(BearerPrefix + token)
    requires issuedAt <= now < LibraryCutoff(issuedAt)
    ensures var o := Post(server, req, table, now, first, second);
            o.table == table && !o.response.RateLimited?
  {
    IssuedTokenLifetime(sessionId, issuedAt, now, server.tokenSecret, server.signer);
    BearerTokenRoundTrip(token);
    assert HasPremiumAccess(req.authorization, now, server.tokenSecret, server.signer);
  }

  /** From the library's cutoff on, the same bearer header no longer grants premium access:
      the request goes through the limiter like any other. */
  lemma ExpiredDayPassIsMetered(server: Server, authorization: Option<string>, now: int,
                                sessionId: string, issuedAt: int, token: string)
    requires Sound(server.signer)
    requires CreateDayPassToken(sessionId, issuedAt, server.tokenSecret, server.signer) == Ok(token)
    requires |token| > 0 && authorization == Some(BearerPrefix + token)
    requires now >= LibraryCutoff(issuedAt)
    ensures !HasPremiumAccess(authorization, now, server.tokenSecret, server.signer)
  {
    IssuedTokenLifetime(sessionId, issuedAt, now, server.tokenSecret, server.signer);
    assert forall t: string | authorization == Some(BearerPrefix + t) :: t == token by {
      forall t: string | authorization == Some(BearerPrefix + t) ensures t == token {
        assert t == (BearerPrefix + t)[|BearerPrefix|..];
        assert token == (BearerPrefix + token)[|BearerPrefix|..];
      }
    }
  }
}
