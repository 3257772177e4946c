/** The request boundary and the output shape check (src/lib/validators.ts). */
module Validators {
  import opened Wrappers
  import opened Text
  import opened Json
  import opened Types

  const MaxResumeLength: nat := 15000
  const MinResumeLength: nat := 50
  const MaxJobTitleLength: nat := 100
  const MinJobTitleLength: nat := 2
  const MaxJobPostingLength: nat := 20000
  const MinJobPostingLength: nat := 100

  /** The reasons `validateInput` gives, in the order its checks run. */
  datatype InputError =
    | InvalidBody
    | ResumeRequired | TitleRequired | PostingRequired
    | ResumeTooShort | TitleTooShort | PostingTooShort
    | ResumeTooLong | TitleTooLong | PostingTooLong
  {
    /** Position of the check that reports this error. */
    function Rank(): nat {
      match this
      case InvalidBody => 0
      case ResumeRequired => 1
      case TitleRequired => 2
      case PostingRequired => 3
      case ResumeTooShort => 4
      case TitleTooShort => 5
      case PostingTooShort => 6
      case ResumeTooLong => 7
      case TitleTooLong => 8
      case PostingTooLong => 9
    }

    /** The message returned to the caller with status 400. */
    function Message(): string {
      match this
      case InvalidBody => "Invalid request body"
      case ResumeRequired => "Resume text is required"
      case TitleRequired => "Job title is required"
      case PostingRequired => "Job posting is required"
      case ResumeTooShort => "Resume too short (min 50 characters)"
      case TitleTooShort => "Job title too short (min 2 characters)"
      case PostingTooShort => "Job posting too short (min 100 characters)"
      case ResumeTooLong => "Resume too long (max 15000 characters)"
      case TitleTooLong => "Job title too long (max 100 characters)"
      case PostingTooLong => "Job posting too long (max 20000 characters)"
    }
  }

  datatype Validation = Valid | Invalid(error: InputError)

  /** `body.resumeText ?? body.resume`: the legacy name is consulted only when the new one is
      `null` or `undefined`. */
  function ResumeField(body: Value): (r: Option<Value>)
    ensures Get(body, "resumeText").Some? && !Get(body, "resumeText").value.JNull?
            ==> r == Get(body, "resumeText")
    ensures Get(body, "resumeText").None? || Get(body, "resumeText").value.JNull?
            ==> r == Get(body, "resume")
  {
    var primary := Get(body, "resumeText");
    if primary.None? || primary.value.JNull? then Get(body, "resume") else primary
  }

  /** Passes `!x || typeof x !== 'string'` negated: a non-empty string. */
  predicate Present(x: Option<Value>) {
    AsString(x).Some? && |AsString(x).value| > 0
  }

  /** The trimmed length of a field that is a string (0 otherwise; only consulted once
      `Present` holds). */
  function TrimmedLength(x: Option<Value>): nat {
    if AsString(x).Some? then |Trim(AsString(x).value)| else 0
  }

  /** Whether the check that reports `e` fails on `body`, each check judged on its own. */
  predicate Fails(body: Value, e: InputError) {
    match e
    case InvalidBody => !IsObjectLike(body)
    case ResumeRequired => !Present(ResumeField(body))
    case TitleRequired => !Present(Get(body, "jobTitle"))
    case PostingRequired => !Present(Get(body, "jobPosting"))
    case ResumeTooShort => TrimmedLength(ResumeField(body)) < MinResumeLength
    case TitleTooShort => TrimmedLength(Get(body, "jobTitle")) < MinJobTitleLength
    case PostingTooShort => TrimmedLength(Get(body, "jobPosting")) < MinJobPostingLength
    case ResumeTooLong => TrimmedLength(ResumeField(body)) > MaxResumeLength
    case TitleTooLong => TrimmedLength(Get(body, "jobTitle")) > MaxJobTitleLength
    case PostingTooLong => TrimmedLength(Get(body, "jobPosting")) > MaxJobPostingLength
  }

  /** The request the boundary is meant to admit: an object whose three fields are strings
      whose trimmed lengths lie within the inclusive bounds. */
  predicate Admissible(body: Value) {
    && body.JObj?
    && AsString(ResumeField(body)).Some?
    && AsString(Get(body, "jobTitle")).Some?
    && AsString(Get(body, "jobPosting")).Some?
    && MinResumeLength <= TrimmedLength(ResumeField(body)) <= MaxResumeLength
    && MinJobTitleLength <= TrimmedLength(Get(body, "jobTitle")) <= MaxJobTitleLength
    && MinJobPostingLength <= TrimmedLength(Get(body, "jobPosting")) <= MaxJobPostingLength
  }

  /** `validateInput`. */
  function ValidateInput(input: Value): (r: Validation)
    ensures r == Invalid(InvalidBody) <==> !IsObjectLike(input)
    ensures r.Valid? <==> Admissible(input)
    ensures r.Invalid? ==> Fails(input, r.error)
    ensures r.Invalid? ==> forall e: InputError :: e.Rank() < r.error.Rank() ==> !Fails(input, e)
  {
    var resume := ResumeField(input);
    var title := Get(input, "jobTitle");
    var posting := Get(input, "jobPosting");
    if !IsObjectLike(input) then Invalid(InvalidBody)
    else if !Present(resume) then Invalid(ResumeRequired)
    else if !Present(title) then Invalid(TitleRequired)
    else if !Present(posting) then Invalid(PostingRequired)
    else if TrimmedLength(resume) < MinResumeLength then Invalid(ResumeTooShort)
    else if TrimmedLength(title) < MinJobTitleLength then Invalid(TitleTooShort)
    else if TrimmedLength(posting) < MinJobPostingLength then Invalid(PostingTooShort)
    else if TrimmedLength(resume) > MaxResumeLength then Invalid(ResumeTooLong)
    else if TrimmedLength(title) > MaxJobTitleLength then Invalid(TitleTooLong)
    else if TrimmedLength(posting) > MaxJobPostingLength then Invalid(PostingTooLong)
    else Valid
  }

  /** Every minimum check runs before any maximum check: once the three fields are strings, a
      too-short field is reported even if another field is too long. */
  lemma MinimumsBeforeMaximums(input: Value)
    requires IsObjectLike(input)
    requires Present(ResumeField(input)) && Present(Get(input, "jobTitle")) && Present(Get(input, "jobPosting"))
    requires Fails(input, ResumeTooShort) || Fails(input, TitleTooShort) || Fails(input, PostingTooShort)
    ensures ValidateInput(input).Invalid?
    ensures ValidateInput(input).error in {ResumeTooShort, TitleTooShort, PostingTooShort}
  {
  }

  /** An empty `resumeText` does not fall back to `resume`: it is reported as missing. */
  lemma EmptyResumeTextIsRequired(input: Value)
    requires input.JObj? && Get(input, "resumeText") == Some(JStr(""))
    ensures ValidateInput(input) == Invalid(ResumeRequired)
  {
  }

  /** `extractInput`: the three fields trimmed, or `null` if any is not a string. */
  function ExtractInput(input: Value): (r: Option<EvaluationRequest>)
    ensures r.Some? <==> IsObjectLike(input) && AsString(ResumeField(input)).Some?
                         && AsString(Get(input, "jobTitle")).Some? && AsString(Get(input, "jobPosting")).Some?
    ensures r.Some? ==> && r.value.resumeText == Trim(AsString(ResumeField(input)).value)
                        && r.value.jobTitle == Trim(AsString(Get(input, "jobTitle")).value)
                        && r.value.jobPosting == Trim(AsString(Get(input, "jobPosting")).value)
  {
    if !IsObjectLike(input) then None
    else
      var resume := AsString(ResumeField(input));
      var title := AsString(Get(input, "jobTitle"));
      var posting := AsString(Get(input, "jobPosting"));
      if resume.None? || title.None? || posting.None? then None
      else Some(EvaluationRequest(Trim(resume.value), Trim(title.value), Trim(posting.value)))
  }

  /** A request whose fields already lie within the bounds. */
  predicate InBounds(req: EvaluationRequest) {
    && MinResumeLength <= |req.resumeText| <= MaxResumeLength
    && MinJobTitleLength <= |req.jobTitle| <= MaxJobTitleLength
    && MinJobPostingLength <= |req.jobPosting| <= MaxJobPostingLength
  }

  /** Whatever `validateInput` accepts, `extractInput` turns into a request whose fields are
      trimmed and within the bounds: the `null` branch after validation is unreachable. */
  lemma ValidatedInputExtracts(input: Value)
    requires ValidateInput(input).Valid?
    ensures ExtractInput(input).Some?
    ensures InBounds(ExtractInput(input).value)
    ensures IsTrimmed(ExtractInput(input).value.resumeText)
    ensures IsTrimmed(ExtractInput(input).value.jobTitle)
    ensures IsTrimmed(ExtractInput(input).value.jobPosting)
  {
  }

  /** A keyword-gap element accepted by `validateOutput`. */
  predicate ValidGapValue(k: Value) {
    && IsObjectLike(k)
    && AsString(Get(k, "keyword")).Some?
    && AsString(Get(k, "status")).Some?
    && ParseStatus(AsString(Get(k, "status")).value).Some?
  }

  /** `validateOutput`: the type guard the endpoint applies to the result before sending it. */
  predicate ValidateOutput(output: Value) {
    && IsObjectLike(output)
    && AsString(Get(output, "verdict")).Some?
    && ParseVerdict(AsString(Get(output, "verdict")).value).Some?
    && Get(output, "atsScore").Some?
    && Get(output, "atsScore").value.JNum?
    && 0.0 <= Get(output, "atsScore").value.n <= 100.0
    && Get(output, "atsScore").value.n == Get(output, "atsScore").value.n.Floor as real
    && Get(output, "keywordGaps").Some?
    && Get(output, "keywordGaps").value.JArr?
    && |Get(output, "keywordGaps").value.items| == 5
    && (forall i | 0 <= i < 5 :: ValidGapValue(Get(output, "keywordGaps").value.items[i]))
    && Get(output, "improvementSuggestions").Some?
    && Get(output, "improvementSuggestions").value.JArr?
    && |Get(output, "improvementSuggestions").value.items| == 3
    && (forall i | 0 <= i < 3 :: Get(output, "improvementSuggestions").value.items[i].JStr?)
  }

  /** A typed result passes the output check exactly when it has the guaranteed shape. */
  lemma ValidateOutputIffShaped(r: EvaluationResult)
    ensures ValidateOutput(ToJson(r)) <==> Shaped(r)
  {
    var v := ToJson(r);
    assert Get(v, "atsScore") == Some(JNum(r.atsScore as real));
    assert Get(v, "keywordGaps") == Some(GapsToJson(r.keywordGaps));
    assert Get(v, "improvementSuggestions") == Some(StringsToJson(r.improvementSuggestions));
    if Shaped(r) {
      assert Get(v, "verdict") == Some(JStr(VerdictName(r.verdict)));
      assert ParseVerdict(VerdictName(r.verdict)).Some? by {
        match r.verdict
        case Pass => case Borderline => case Weak =>
      }
      forall i | 0 <= i < 5 ensures ValidGapValue(GapsToJson(r.keywordGaps).items[i]) {
        var g := r.keywordGaps[i];
        assert GapsToJson(r.keywordGaps).items[i] == GapToJson(g);
        assert Get(GapToJson(g), "status") == Some(JStr(StatusName(g.status)));
        assert ParseStatus(StatusName(g.status)).Some? by {
          match g.status
          case KeywordMissing => case KeywordWeak =>
        }
      }
    }
  }

  /** `FALLBACK_RESULT` passes the output check. */
  lemma FallbackPassesValidateOutput()
    ensures ValidateOutput(ToJson(Fallback))
  {
    FallbackShape();
    ValidateOutputIffShaped(Fallback);
  }
}
