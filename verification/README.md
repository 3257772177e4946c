# ResumeHacker evaluation core in Dafny

ResumeHacker scores a pasted resume against a job posting. The browser form checks the three
fields and posts them to `POST /api/evaluate`. The endpoint then does the following, in order:

- checks its configuration;
- lets holders of a signed 24-hour day pass skip the per-client rate limiter;
- validates the request body;
- builds a prompt with optional overlays (one for short resumes, one for senior resumes);
- asks a language model for a JSON verdict.

The model's answer is normalised into a fixed shape: a verdict, an integral score in [0,100],
exactly five keyword gaps and exactly three suggestions. The model is asked at most once more
if its first answer is unusable. If a call fails or both answers are unusable, a fixed fallback
result is returned. In the browser, a free quota of two evaluations per day is counted in local
storage, and the day pass's expiry is read without checking its signature.

This project models that core as pure functions over immutable data. Each file is one module:

| file | module | models |
|---|---|---|
| `wrappers.dfy` | `Wrappers` | `Option` and `Result` |
| `text.dfy` | `Text` | JavaScript `trim` and one-character `split` |
| `json.dfy` | `Json` | JSON values; objects are maps, `None` is `undefined` |
| `types.dfy` | `Types` | result and request records, `FALLBACK_RESULT`, the camelCase JSON form |
| `validators.dfy` | `Validators` | `validateInput`, `extractInput`, `validateOutput` |
| `normalizer.dfy` | `Normalizer` | `parseAndValidateResponse` |
| `prompt.dfy` | `Prompt` | `countWords`, `detectSeniorExperience`, `buildEvaluationPrompt` |
| `orchestrator.dfy` | `Orchestrator` | `callLLM` and the retry-once protocol `evaluateResume` |
| `tokens.dfy` | `Tokens` | day-pass creation and verification |
| `ratelimit.dfy` | `RateLimit` | the client key and the fixed-window limiter |
| `route.dfy` | `Route` | `hasPremiumAccess` and the `POST` handler |
| `premium.dfy` | `Premium` | the browser's daily quota and day-pass check |
| `resume_form.dfy` | `ResumeForm` | the form's field errors, counter colour and submit gate |

Everything outside the program is a parameter:

- the clock (`now`, in milliseconds) and today's date string;
- the model's answers to the first and the possible second call (`Reply` values);
- `JSON.parse` and `atob`, as a `decode` function that may fail;
- the seniority regular expressions, as a `matches(pattern, text)` predicate;
- the HS256 signature layer of the signing library, as a `Signer` pair of functions over the
  token's claim set. Lemmas that need its round trip assume it through the predicate
  `Tokens.Sound`. The library's `exp` test is modelled explicitly.

The process-wide rate-limit map and the browser's storage entry are explicit values passed in
and returned.

Behaviour worth knowing:

- **Retry-After can be 0.** A refused request's `resetIn` lies in [0, 60000] and can be 0. The
  window is live while `now <= resetTime`, so a request at exactly `resetTime` from a client at
  the limit gets `resetIn` 0 and `Retry-After: 0` (`RateLimit.CheckRateLimitKeepsInv`).
- **The server ends a day pass up to a second early.** The signing library also writes an
  `exp` claim, in whole seconds: the issuing second plus 86400. It refuses the token from the
  start of that second, which is up to 999 ms before the payload's `expiresAt`. So the
  application's own `expiresAt < now` test never refuses a token the server issued. In that
  last fraction of a second the browser still shows a day pass the server refuses
  (`Tokens.IssuedTokenLifetime`, `Premium.ExpiryWindowDisagrees`).
- **The form does not check the posting's length.** A posting under 100 characters is submitted
  and refused by the server (`ResumeForm.ShortPostingPassesFormOnly`).
- **A parse-error message can trigger a 429.** The handler's error branch answers 429 whenever an
  error message contains `rate_limit`. That includes the message of a `req.json()` parse error
  (`Route.Handle`).

## Model

| member | source | states |
|---|---|---|
| Text.Trim | src/components/ResumeForm.tsx:30 | `trim` removes exactly the leading and trailing whitespace run: the result is a contiguous slice of the input with no whitespace at either end, with only whitespace before and after it, and is empty iff the input is blank |
| Text.TrimEmptyIffBlank | src/components/ResumeForm.tsx:30-35 | trimming leaves nothing exactly when the text is all whitespace, so the form's 'required' checks reject exactly the blank fields |
| Text.TrimUnique | src/lib/validators.ts:100-104 | any non-whitespace-ended text wrapped in whitespace on both sides trims to exactly that text (a characterisation independent of the definition) |
| Text.TrimIdempotent | src/lib/validators.ts:100-104 | trimming text the form already trimmed changes nothing, so the server sees the submitted values unchanged |
| Text.Split | src/lib/premium.ts:85 | `split` on one character yields at least one piece and no piece contains the separator |
| Text.JoinSplit | src/lib/premium.ts:85 | the pieces joined back with the separator give the original string |
| Text.SplitCount | src/lib/premium.ts:85-86 | there is one piece more than separators, so "three parts" means exactly two dots |
| Text.SplitFirst | src/app/api/evaluate/route.ts:15 | the first piece is the longest separator-free prefix, and a separator follows it whenever it is not the whole string |
| Types.ParseVerdict | src/lib/validators.ts:10 | a string is accepted exactly when it names one of Pass, Borderline, Weak, and the verdict returned is the one it names |
| Types.ParseStatus | src/lib/validators.ts:11 | a string is accepted exactly when it is 'missing' or 'weak', and the status returned is the one it names |
| Types.FallbackShape | src/lib/types.ts:36-51 | the fallback is Borderline with score 50, five gaps all 'missing', three non-empty suggestions |
| Validators.ResumeField | src/lib/validators.ts:30 | `resumeText` is used unless it is null or undefined, and only then `resume` |
| Validators.ValidateInput | src/lib/validators.ts:22-75 | a non-object is 'Invalid request body'; the body is accepted iff all three fields are strings with trimmed lengths in [50,15000], [2,100], [100,20000]; a rejection names a check that fails and no earlier check fails |
| Validators.ValidateOutput | src/lib/validators.ts:115-167 | the output check as written: an object whose verdict is one of the three names, whose `atsScore` is an integral number in [0,100], with five gaps carrying string keywords and known statuses and three string suggestions; what it means for a result is stated by `ValidateOutputIffShaped` |
| Validators.MinimumsBeforeMaximums | src/lib/validators.ts:50-72 | once the fields are present, any too-short field is reported before any too-long one |
| Validators.EmptyResumeTextIsRequired | src/lib/validators.ts:30-36 | an empty `resumeText` does not fall back to `resume` and is reported as missing |
| Validators.ExtractInput | src/lib/validators.ts:80-105 | non-null iff the body is an object whose three fields are strings; each extracted field is the trimmed input |
| Validators.ValidatedInputExtracts | src/app/api/evaluate/route.ts:111-118 | whatever `validateInput` accepts, `extractInput` turns into trimmed fields within the bounds, so the 'Failed to parse request' branch is unreachable |
| Validators.ValidateOutputIffShaped | src/lib/validators.ts:115-167 | a result's JSON passes the output check iff the score is in [0,100] and there are exactly five gaps and three suggestions (verdict and statuses are valid by type) |
| Validators.FallbackPassesValidateOutput | src/lib/types.ts:36-51 | the fallback result passes the output check |
| Normalizer.FirstIndexOf | src/lib/evaluateResume.ts:19 | the position of the first occurrence of a character, none iff it does not occur; no occurrence comes before it |
| Normalizer.LastIndexOf | src/lib/evaluateResume.ts:19 | the position of the last occurrence of a character, none iff it does not occur; no occurrence comes after it |
| Normalizer.BraceSpan | src/lib/evaluateResume.ts:19-22 | no match iff no `{` has a `}` after it; otherwise the span runs from the first `{` to the last `}` |
| Normalizer.ExtractBraced | src/lib/evaluateResume.ts:19-26 | the text handed to `JSON.parse` is that span, braces included |
| Normalizer.Round | src/lib/evaluateResume.ts:52 | `Math.round` gives the integer within half a unit, halves rounding up |
| Normalizer.ClampScore | src/lib/evaluateResume.ts:52 | the score is in [0,100]: the rounded score when it is in range, 0 below, 100 above |
| Normalizer.ClampExamples | src/lib/evaluateResume.ts:52 | -10 gives 0, 142 gives 100, 55.6 gives 56 |
| Normalizer.Take | src/lib/evaluateResume.ts:67 | `slice(0, n)` gives the first n elements, or all of them when there are fewer |
| Normalizer.Pad | src/lib/evaluateResume.ts:69-72 | the padding loop keeps the list as its prefix, fills with the placeholder only, and stops at exactly n elements (a longer list is left as is) |
| Normalizer.AcceptGap | src/lib/evaluateResume.ts:56-66 | an entry is accepted iff it is an object whose keyword is a string that is not blank and whose status is the string 'missing' or 'weak'; the accepted gap holds the trimmed keyword and the status named by that string |
| Normalizer.AcceptedGaps | src/lib/evaluateResume.ts:55-66 | the filter-and-map keeps at most as many gaps as there were entries, each with a trimmed, non-empty keyword |
| Normalizer.AcceptedGapsAppend | src/lib/evaluateResume.ts:55-66 | the filter distributes over concatenation: entries are judged independently and the survivors keep their order |
| Normalizer.AcceptedGapsSnoc | src/lib/evaluateResume.ts:55-66 | one more entry extends the accepted list by that entry's gap exactly when `AcceptGap` accepts it, leaving earlier verdicts alone |
| Normalizer.AcceptedSuggestions | src/lib/evaluateResume.ts:75-76 | the filter keeps at most as many suggestions as there were entries, none of them blank |
| Normalizer.AcceptedSuggestionsAppend | src/lib/evaluateResume.ts:75-76 | the filter distributes over concatenation |
| Normalizer.AcceptedSuggestionsSnoc | src/lib/evaluateResume.ts:75-76 | one more entry extends the accepted suggestions by that very string exactly when it is a string that is not blank |
| Normalizer.NormalizeGaps | src/lib/evaluateResume.ts:55-72 | exactly five gaps: the first (up to five) accepted entries in order, then the placeholder gap |
| Normalizer.NormalizeSuggestions | src/lib/evaluateResume.ts:75-82 | exactly three suggestions: the first (up to three) non-blank strings, untrimmed and in order, then the placeholder; none is blank |
| Normalizer.Normalize | src/lib/evaluateResume.ts:31-94 | a result is produced iff the verdict is known, the score is a number and both lists are arrays, so the final length check never rejects; the result has the fixed shape, the raw verdict, the clamped score and the normalised lists |
| Normalizer.ParseAndValidate | src/lib/evaluateResume.ts:17-95 | null when there is no brace span or it does not decode; when it decodes, exactly the normalisation of the decoded value, which has the fixed shape |
| Normalizer.NormalizedPassesValidateOutput | src/lib/evaluateResume.ts:89-94 | every non-null normaliser result passes `validateOutput` |
| Normalizer.CanonicalGapsRoundTrip | src/lib/evaluateResume.ts:55-72 | five gaps with trimmed, non-empty keywords come back from their JSON encoding unchanged |
| Normalizer.CanonicalSuggestionsRoundTrip | src/lib/evaluateResume.ts:75-82 | three non-blank suggestions come back from their JSON encoding unchanged |
| Normalizer.NormalizeRoundTrip | src/lib/evaluateResume.ts:55-94 | an answer that already has the fixed shape, trimmed keywords and non-blank suggestions comes back unchanged |
| Prompt.SplitWs | src/lib/prompt.ts:100 | `split(/\s+/)` always yields a piece, and the first is non-empty iff the text starts with a non-whitespace character |
| Prompt.CountWords | src/lib/prompt.ts:99-101 | `countWords` (trim, split on whitespace runs, drop empty pieces) equals the number of maximal non-whitespace runs in the text |
| Prompt.WordEndsOfPadded | src/lib/prompt.ts:99-101 | whitespace around a text adds no word ends, which is why trimming first does not change the count |
| Prompt.CountWordsZeroIffBlank | src/lib/prompt.ts:99-101 | the count is 0 exactly for empty or whitespace-only text |
| Prompt.AnyMatch | src/lib/prompt.ts:108-119 | the loop returns true iff some pattern in the list matches |
| Prompt.DetectSenior | src/lib/prompt.ts:106-122 | senior iff the title pattern or either experience pattern matches |
| Prompt.ChooseOverlay | src/lib/prompt.ts:145-149 | the short overlay iff short; the senior overlay iff not short and senior; neither otherwise |
| Prompt.BuildEvaluationPrompt | src/lib/prompt.ts:133-181 | the metadata reports the word count, `isShortResume` iff fewer than 350 words and the seniority test; the prompt is the header for the chosen overlay (base prompt, overlay, safety rules) followed by title, posting and resume in that order and the closing instruction |
| Prompt.PromptLayout | src/lib/prompt.ts:142-171 | every prompt, whatever the inputs and overlay, starts with the base prompt and ends with 'Respond with JSON only.' |
| Prompt.OverlayPrecedence | src/lib/prompt.ts:138-149 | a short resume gets the short overlay even when senior, and `isSeniorResume` is still reported |
| Orchestrator.CallLLM | src/lib/evaluateResume.ts:100-120 | the content is returned iff the request succeeded with non-empty content; failures and empty content are errors |
| Orchestrator.Protocol | src/lib/evaluateResume.ts:137-170 | one or two calls, all with the same prompt; a failed first call gives the fallback after one call; a second call happens iff the first call succeeded with an answer that could not be normalised; a usable first answer is the result; otherwise a usable second answer is the result, and the fallback when the second is unusable or failed; the result has the fixed shape |
| Orchestrator.EvaluateResume | src/lib/evaluateResume.ts:132-171 | the same guarantees, for the prompt `buildEvaluationPrompt` produces for the request |
| Orchestrator.EvaluationAlwaysValid | src/lib/evaluateResume.ts:132-171 | whatever the model answers or fails to answer, the result passes `validateOutput` |
| Orchestrator.UsableFirstAnswerIsFinal | src/lib/evaluateResume.ts:143-170 | a usable first answer is returned as is after exactly one call |
| Orchestrator.UsableRetryIsFinal | src/lib/evaluateResume.ts:143-170 | after an unusable first answer, a usable second answer is returned as is after exactly two calls |
| Tokens.GetSecret | src/lib/tokens.ts:3-9 | the secret is available iff the setting is present and non-empty |
| Tokens.NewPayload | src/lib/tokens.ts:18-21 | the payload carries the session id, `purchasedAt` is the issuing instant, and it expires exactly 24 hours later |
| Tokens.EpochSeconds | src/lib/tokens.ts:23 | the library's clock in seconds is the millisecond clock rounded down to a whole second |
| Tokens.NewClaims | src/lib/tokens.ts:21-23 | the signed claim set is the payload plus an `exp` claim, which is the payload's `expiresAt` rounded down to a whole second |
| Tokens.LibraryCutoff | src/lib/tokens.ts:23-31 | the library passes the token's `exp` exactly before an instant that lies less than one second before, or at, `issuedAt + 86400000` |
| Tokens.CreateDayPassToken | src/lib/tokens.ts:17-25 | issuing fails iff the secret is missing; otherwise it signs the claim set (session id, now, now + 86400000, and the `exp` claim) with the secret |
| Tokens.VerifyDayPassToken | src/lib/tokens.ts:27-43 | a missing secret, a bad signature, a passed `exp` or an `expiresAt` before now gives null, never an error; a verified claim set whose `exp` is still ahead and whose `expiresAt >= now` yields its payload |
| Tokens.IssuedTokenLifetime | src/lib/tokens.ts:17-43 | an issued token verifies, to the payload it was made from, exactly before the library's cutoff: always until one second before `issuedAt + 86400000`, and never at or after it |
| Tokens.MissingSecretOnlyBreaksIssuing | src/lib/tokens.ts:3-43 | without a secret, issuing fails but verifying just answers null |
| RateLimit.GetRateLimitKey | src/app/api/evaluate/route.ts:12-17 | with `X-Forwarded-For`, the key is the trimmed text before its first comma; otherwise `X-Real-IP`; otherwise 'unknown' |
| RateLimit.Sweep | src/app/api/evaluate/route.ts:24-30 | removes exactly the entries whose window closed before `now` and keeps the rest unchanged |
| RateLimit.Housekeep | src/app/api/evaluate/route.ts:24-30 | at most 10000 entries are left as they are; above that exactly the expired entries are removed; no entry is ever added or changed |
| RateLimit.CheckRateLimit | src/app/api/evaluate/route.ts:19-44 | a new or expired key opens a window (1, now+60000) with 9 remaining; a live key below 10 is incremented by one with remaining 10 - count; a key at 10 is refused and left unchanged; other keys change only by the sweep, which runs above 10000 entries |
| RateLimit.CheckRateLimitKeepsInv | src/app/api/evaluate/route.ts:19-44 | counts stay in [1,10] and windows close within a minute of any later request; remaining is in [0,9] and resetIn in [0,60000] |
| RateLimit.LiveWindow | src/app/api/evaluate/route.ts:38-43 | inside a live window already holding c requests, the i-th further request is allowed iff c + i < 10 |
| RateLimit.TenPerWindow | src/app/api/evaluate/route.ts:32-43 | from a new or expired key, the first ten requests within the minute are allowed and every later one in it is refused |
| RateLimit.CeilDiv | src/app/api/evaluate/route.ts:90 | `Math.ceil(x / d)` is the least integer r with x <= d*r |
| RateLimit.RetryAfterBounds | src/app/api/evaluate/route.ts:84-96 | the Retry-After seconds of a refusal lie in [0,60] |
| Route.BearerToken | src/app/api/evaluate/route.ts:49-56 | a token is taken only from a header of the form 'Bearer ' + token with a non-empty token |
| Route.BearerTokenRoundTrip | src/app/api/evaluate/route.ts:49-56 | a header built from a non-empty token yields that token |
| Route.HasPremiumAccess | src/app/api/evaluate/route.ts:46-64 | premium iff the header is 'Bearer ' + a non-empty token that verifies as an unexpired day pass |
| Route.Handle | src/app/api/evaluate/route.ts:99-155 | at most two model calls and only for valid input; every 400 carries the first failing check's message; the output-check 500 never happens; 200 iff the body parsed and validated, and then the 200 carries `evaluateResume`'s result for the extracted fields after exactly its calls; a body error gives 429 when its message contains 'rate_limit' and 500 otherwise |
| Route.MentionsIffOccurs | src/app/api/evaluate/route.ts:143 | `includes` holds exactly when the text occurs at some position of the message |
| Route.HandleValid | src/app/api/evaluate/route.ts:111-137 | validated input always ends in a 200 carrying `evaluateResume`'s result for the extracted fields, after exactly its one or two calls; the result passes the output check |
| Route.Respond | src/app/api/evaluate/route.ts:120-137 | an extracted request is answered 200 with exactly the result `evaluateResume` gives it, after exactly its calls, and that result passes the output check |
| Route.PremiumPost | src/app/api/evaluate/route.ts:76-137 | the premium path leaves the limiter's map untouched, is never refused by it, and reports -1 remaining |
| Route.MeteredPost | src/app/api/evaluate/route.ts:79-137 | the request is counted before its body is read; 429 iff the limiter refuses, with Retry-After = ceil(resetIn/1000); a 200 reports the limiter's remaining count |
| Route.Post | src/app/api/evaluate/route.ts:66-156 | a missing API key answers 500 with nothing changed; otherwise premium requests take the premium path and all others the metered path, and every response satisfies the handler's guarantees |
| Route.RejectedRequestsCount | src/app/api/evaluate/route.ts:80-109 | a request answered 400 has still opened the client's window and made no model call |
| Route.DayPassBypassesLimiter | src/app/api/evaluate/route.ts:76-97 | a day pass issued no later than now and still before the library's cutoff leaves the limiter's map unchanged and is never refused by it |
| Route.ExpiredDayPassIsMetered | src/app/api/evaluate/route.ts:46-64 | from the library's cutoff on, the same bearer header no longer grants premium access |
| Premium.GetDailyUsage | src/lib/premium.ts:35-55 | a record dated today is returned unchanged; a missing, unreadable or older record gives count 0 for today |
| Premium.IncrementDailyUsage | src/lib/premium.ts:57-69 | the returned record is today's count plus one, dated today, and it is what is stored |
| Premium.GetUsageRemaining | src/lib/premium.ts:71-75 | `max(0, 2 - count)`: never negative, positive iff today's count is below 2, exactly 2 - count up to the limit and 0 from it on |
| Premium.IncrementKeepsQuotaInRange | src/lib/premium.ts:57-75 | records the application writes keep non-negative counts, so the remaining quota stays in [0,2] |
| Premium.RecordEvaluationsCounts | src/lib/premium.ts:57-69 | n recorded evaluations on one day raise the count by exactly n |
| Premium.NewDayRestoresQuota | src/lib/premium.ts:47-50 | a record from another day leaves the full quota, and the next increment stores count 1 |
| Premium.ClaimedExpiry | src/lib/premium.ts:85-89 | an expiry is read iff the token has exactly three dot-separated parts and the middle one decodes to a value whose `expiresAt` is a number, and then it is that number |
| Premium.HasDayPass | src/lib/premium.ts:79-93 | true iff a non-empty token has three parts whose payload claims a numeric `expiresAt` strictly after now |
| Premium.CanEvaluate | src/lib/premium.ts:95-101 | allowed iff there is a day pass or today's count is below 2 |
| Premium.TwoFreeEvaluationsPerDay | src/lib/premium.ts:71-101 | without a day pass, a user starting a day with nothing recorded may evaluate exactly twice |
| Premium.ExpiryWindowDisagrees | src/lib/premium.ts:79-93 | for an issued token, the browser shows a day pass the server refuses exactly from the library's cutoff until `expiresAt`; whenever the server accepts, the browser agrees |
| ResumeForm.GetValidationError | src/components/ResumeForm.tsx:23-43 | no error until touched; blank is 'required'; too short is judged on the trimmed length and too long on the raw length; no error iff the trimmed length reaches the minimum and the raw length stays within the maximum |
| ResumeForm.PercentageThreshold | src/components/ResumeForm.tsx:17-19 | "at least 90 percent of max" is 10 * current >= 9 * max |
| ResumeForm.GetCounterStyle | src/components/ResumeForm.tsx:16-21 | red iff over the maximum; amber iff within it and at least 90 percent of a positive maximum; grey otherwise |
| ResumeForm.IsValid | src/components/ResumeForm.tsx:51-58 | the form is valid iff neither field would show an error once touched |
| ResumeForm.HandleSubmit | src/components/ResumeForm.tsx:60-73 | submits iff the form is valid and the posting is not blank, and then submits the three values trimmed |
| ResumeForm.RequestBody | src/app/evaluate/page.tsx:47 | the body the page posts carries the submission under `resumeText`, `jobTitle` and `jobPosting`, so the server extracts exactly the three submitted strings, trimmed |
| ResumeForm.SubmissionMeetsServerBounds | src/components/ResumeForm.tsx:11-14 | whatever the form submits passes the server's resume and title checks, and is accepted outright when the posting is within the server's bounds |
| ResumeForm.ShortPostingPassesFormOnly | src/components/ResumeForm.tsx:66-72 | a posting under 100 characters after trimming is submitted, and the server refuses it as too short |

## Left out

- The OpenAI request itself: network I/O. A call's outcome is a `Reply` value. The model name,
  temperature, token limit and response format are not modelled.
- `JSON.parse` and `atob`: foreign decoders, passed in as `decode` functions that may fail.
  The response normaliser is modelled over any decoder. The brace span always starts with `{`,
  so a real decoder can only yield an object there; the `null` payload case therefore never
  reaches the field checks.
- The HS256 signature and the JWT header: the `Signer` pair stands for them. The library's `exp`
  check (section 4.1.4 of RFC 7519, no clock tolerance) is modelled. The library reads the clock
  for `exp` a moment after `createDayPassToken` reads it; the model uses one instant for both.
- The regular-expression engine behind the seniority patterns: `matches` is uninterpreted.
- `getTimeUntilReset`: local-time calendar arithmetic for display only.
- The `typeof window` guards and `getTodayString`: storage and the date are parameters.
- `sessionStorage`, and the JSON text of the usage record: the usage slot holds the decoded record.
- A stored usage record that parses but has a non-numeric count is not modelled.
- String lengths: JavaScript counts UTF-16 code units, the model counts characters. The two
  differ only for characters outside the Basic Multilingual Plane.
- Numbers are exact reals rather than IEEE doubles. This affects `Math.round` and the counter's
  percentage only at rounding boundaries.
- `hasDayPass` with a non-numeric `expiresAt`: JavaScript compares after coercion (a numeric
  string can pass). The model treats every non-number as no pass.
- Concurrency: requests are handled one at a time, so the shared map is never updated by two
  requests at once.
- Logging, and response headers beyond the computed status, Retry-After and remaining values.
- Stripe checkout and payment verification, and the purely presentational components and pages.
- RateLimit.CheckRateLimitKeepsInv: resetIn is bounded below by 0, not by 1, because the code
  refuses at `now == resetTime` with resetIn 0.
