/** The evaluation protocol `evaluateResume` (src/lib/evaluateResume.ts): build the prompt, ask
    the model, normalise the answer, ask once more if the answer was unusable, and fall back to
    the fixed result whenever a call fails or both answers are unusable.

    The model is an oracle. Its answers to the first call and to a possible second call are
    parameters; the second is looked at only if the protocol makes that call. */
module Orchestrator {
  import opened Wrappers
  import opened Json
  import opened Types
  import opened Validators
  import opened Normalizer
  import opened Prompt

  /** What one chat-completion request produced: the message content (possibly missing), or a
      failure of the request itself (network, quota, service error). */
  datatype Reply = Completion(content: Option<string>) | RequestFailed

  datatype CallError = CallFailed | NoResponse

  /** `callLLM`: the content of the reply; a failed request, and a missing or empty content
      ('No response from OpenAI'), are thrown as errors. */
  function CallLLM(reply: Reply): (r: Result<string, CallError>)
    ensures r.Ok? <==> reply.Completion? && reply.content.Some? && |reply.content.value| > 0
    ensures r.Ok? ==> r.value == reply.content.value
    ensures reply.RequestFailed? ==> r == Err(CallFailed)
  {
    match reply
    case RequestFailed => Err(CallFailed)
    case Completion(content) =>
      if content.None? || |content.value| == 0 then Err(NoResponse) else Ok(content.value)
  }

  /** The outcome of one evaluation: the result and the prompts sent to the model, in order. */
  datatype Evaluation = Evaluation(result: EvaluationResult, calls: seq<string>)

  /** What the normaliser makes of one reply: `None` for a failed call or an unusable answer. */
  function Parsed(reply: Reply, decode: string -> Option<Value>): Option<EvaluationResult> {
    if CallLLM(reply).Ok? then ParseAndValidate(CallLLM(reply).value, decode) else None
  }

  /** What the retry-once protocol guarantees for a given prompt: one or two calls, all with
      that prompt; a failed first call gives the fallback without retry; a second call happens
      exactly when the first answer arrived but could not be normalised; a usable first answer
      is the result, otherwise a usable retry answer is, otherwise the fallback. */
  predicate Follows(e: Evaluation, prompt: string, decode: string -> Option<Value>, first: Reply, second: Reply) {
    && 1 <= |e.calls| <= 2
    && (forall i | 0 <= i < |e.calls| :: e.calls[i] == prompt)
    && (CallLLM(first).Err? ==> e.result == Fallback && |e.calls| == 1)
    && (|e.calls| == 2 <==> CallLLM(first).Ok? && Parsed(first, decode).None?)
    && (Parsed(first, decode).Some? ==> e.result == Parsed(first, decode).value)
    && (CallLLM(first).Ok? && Parsed(first, decode).None? && Parsed(second, decode).Some? ==>
          e.result == Parsed(second, decode).value)
    && (CallLLM(first).Ok? && Parsed(first, decode).None? && Parsed(second, decode).None? ==>
          e.result == Fallback)
    && Shaped(e.result)
  }

  /** The retry-once protocol for a given prompt. */
  function Protocol(prompt: string, decode: string -> Option<Value>, first: Reply, second: Reply): (e: Evaluation)
    ensures Follows(e, prompt, decode, first, second)
  {
    FallbackShape();
    match CallLLM(first)
    case Err(_) => Evaluation(Fallback, [prompt])
    case Ok(content) =>
      match ParseAndValidate(content, decode)
      case Some(result) => Evaluation(result, [prompt])
      case None =>
        match CallLLM(second)
        case Err(_) => Evaluation(Fallback, [prompt, prompt])
        case Ok(retryContent) =>
          match ParseAndValidate(retryContent, decode)
          case Some(result) => Evaluation(result, [prompt, prompt])
          case None => Evaluation(Fallback, [prompt, prompt])
  }

  /** `evaluateResume`: the protocol run on the prompt built for the request. */
  function EvaluateResume(resumeText: string, jobTitle: string, jobPosting: string,
                          matches: (Pattern, string) -> bool, decode: string -> Option<Value>,
                          first: Reply, second: Reply): (e: Evaluation)
    ensures Follows(e, BuildEvaluationPrompt(resumeText, jobTitle, jobPosting, matches).prompt, decode, first, second)
  {
    Protocol(BuildEvaluationPrompt(resumeText, jobTitle, jobPosting, matches).prompt, decode, first, second)
  }

  /** Whatever the model answers, or fails to answer, the result passes the endpoint's output
      check. */
  lemma EvaluationAlwaysValid(resumeText: string, jobTitle: string, jobPosting: string,
                              matches: (Pattern, string) -> bool, decode: string -> Option<Value>,
                              first: Reply, second: Reply)
    ensures ValidateOutput(ToJson(EvaluateResume(resumeText, jobTitle, jobPosting, matches,
                                                 decode, first, second).result))
  {
    var e := EvaluateResume(resumeText, jobTitle, jobPosting, matches, decode, first, second);
    ValidateOutputIffShaped(e.result);
  }

  /** A usable first answer is returned as is, and the model is asked only once. */
  lemma UsableFirstAnswerIsFinal(resumeText: string, jobTitle: string, jobPosting: string,
                                 matches: (Pattern, string) -> bool, decode: string -> Option<Value>,
                                 first: Reply, second: Reply, r: EvaluationResult)
    requires Parsed(first, decode) == Some(r)
    ensures EvaluateResume(resumeText, jobTitle, jobPosting, matches, decode, first, second)
            == Evaluation(r, [BuildEvaluationPrompt(resumeText, jobTitle, jobPosting, matches).prompt])
  {
  }

  /** An unusable first answer followed by a usable retry: the retry's result is returned,
      after exactly two calls with the same prompt. */
  lemma UsableRetryIsFinal(resumeText: string, jobTitle: string, jobPosting: string,
                           matches: (Pattern, string) -> bool, decode: string -> Option<Value>,
                           first: Reply, second: Reply, r: EvaluationResult)
    requires CallLLM(first).Ok? && Parsed(first, decode).None?
    requires Parsed(second, decode) == Some(r)
    ensures var prompt := BuildEvaluationPrompt(resumeText, jobTitle, jobPosting, matches).prompt;
            EvaluateResume(resumeText, jobTitle, jobPosting, matches, decode, first, second)
            == Evaluation(r, [prompt, prompt])
  {
  }
}
