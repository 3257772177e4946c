/** The records that flow through the evaluation pipeline, the fixed fallback result, and the
    JSON shape in which a result leaves the server (src/lib/types.ts). */
module Types {
  import opened Wrappers
  import opened Json

  datatype Verdict = Pass | Borderline | Weak

  /** 'missing': expected but absent from the resume; 'weak': present but vague or buried. */
  datatype KeywordStatus = KeywordMissing | KeywordWeak

  datatype KeywordGap = KeywordGap(keyword: string, status: KeywordStatus)

  datatype EvaluationResult = EvaluationResult(
    verdict: Verdict,
    atsScore: int,
    keywordGaps: seq<KeywordGap>,
    improvementSuggestions: seq<string>)

  datatype EvaluationRequest = EvaluationRequest(resumeText: string, jobTitle: string, jobPosting: string)

  function VerdictName(v: Verdict): string {
    match v
    case Pass => "Pass"
    case Borderline => "Borderline"
    case Weak => "Weak"
  }

  /** `VALID_VERDICTS.includes(s)`, returning the verdict it names. */
  function ParseVerdict(s: string): (r: Option<Verdict>)
    ensures r.Some? ==> VerdictName(r.value) == s
    ensures r.None? ==> forall v: Verdict :: VerdictName(v) != s
  {
    if s == "Pass" then Some(Pass)
    else if s == "Borderline" then Some(Borderline)
    else if s == "Weak" then Some(Weak)
    else None
  }

  function StatusName(k: KeywordStatus): string {
    match k
    case KeywordMissing => "missing"
    case KeywordWeak => "weak"
  }

  /** `VALID_STATUSES.includes(s)`, returning the status it names. */
  function ParseStatus(s: string): (r: Option<KeywordStatus>)
    ensures r.Some? ==> StatusName(r.value) == s
    ensures r.None? ==> forall k: KeywordStatus :: StatusName(k) != s
  {
    if s == "missing" then Some(KeywordMissing)
    else if s == "weak" then Some(KeywordWeak)
    else None
  }

  /** The guaranteed shape of every result the endpoint returns: an integral score in [0,100],
      exactly five keyword gaps and exactly three suggestions. */
  predicate Shaped(r: EvaluationResult) {
    && 0 <= r.atsScore <= 100
    && |r.keywordGaps| == 5
    && |r.improvementSuggestions| == 3
  }

  const FallbackSuggestions: seq<string> := [
    "Re-submit your resume for a more accurate evaluation",
    "Ensure your resume is in plain text format",
    "Check that your job title is specific and accurate"
  ]

  /** `FALLBACK_RESULT`: returned whenever the model cannot produce a usable answer. */
  const Fallback: EvaluationResult := EvaluationResult(
    Borderline,
    50,
    [ KeywordGap("Unable to extract keyword 1", KeywordMissing),
      KeywordGap("Unable to extract keyword 2", KeywordMissing),
      KeywordGap("Unable to extract keyword 3", KeywordMissing),
      KeywordGap("Unable to extract keyword 4", KeywordMissing),
      KeywordGap("Unable to extract keyword 5", KeywordMissing) ],
    FallbackSuggestions)

  /** The fallback is a Borderline 50 with five 'missing' gaps and three non-empty suggestions. */
  lemma FallbackShape()
    ensures Fallback.verdict == Borderline && Fallback.atsScore == 50
    ensures Shaped(Fallback)
    ensures forall i | 0 <= i < 5 :: Fallback.keywordGaps[i].status == KeywordMissing
    ensures forall i | 0 <= i < 3 :: |Fallback.improvementSuggestions[i]| > 0
  {
  }

  function GapToJson(g: KeywordGap): Value {
    JObj(map["keyword" := JStr(g.keyword), "status" := JStr(StatusName(g.status))])
  }

  function StringsToJson(ss: seq<string>): (v: Value)
    ensures v.JArr? && |v.items| == |ss|
    ensures forall i | 0 <= i < |ss| :: v.items[i] == JStr(ss[i])
  {
    JArr(seq(|ss|, i requires 0 <= i < |ss| => JStr(ss[i])))
  }

  function GapsToJson(gs: seq<KeywordGap>): (v: Value)
    ensures v.JArr? && |v.items| == |gs|
    ensures forall i | 0 <= i < |gs| :: v.items[i] == GapToJson(gs[i])
  {
    JArr(seq(|gs|, i requires 0 <= i < |gs| => GapToJson(gs[i])))
  }

  /** The camelCase JSON object the endpoint sends (`NextResponse.json(result)`). */
  function ToJson(r: EvaluationResult): Value {
    JObj(map[
      "verdict" := JStr(VerdictName(r.verdict)),
      "atsScore" := JNum(r.atsScore as real),
      "keywordGaps" := GapsToJson(r.keywordGaps),
      "improvementSuggestions" := StringsToJson(r.improvementSuggestions)])
  }
}
