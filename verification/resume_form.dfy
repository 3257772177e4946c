/** The evaluation form's client-side checks (src/components/ResumeForm.tsx): per-field error
    messages, the character counter's colour, the submit gate, and how they line up with the
    server's `validateInput`. The form's state (field values, touched flags, the job-posting
    text area) is passed in as values. */
module ResumeForm {
  import opened Wrappers
  import opened Text
  import opened Json
  import opened Validators
  import opened Types

  datatype Field = TitleInput | ResumeInput
  {
    /** `LIMITS[field].min`. */
    function Min(): nat {
      match this
      case TitleInput => 2
      case ResumeInput => 50
    }

    /** `LIMITS[field].max`. */
    function Max(): nat {
      match this
      case TitleInput => 100
      case ResumeInput => 15000
    }
  }

  /** The messages the form shows under a field. */
  datatype FormError = Required(field: Field) | TooShort(field: Field) | TooLong(field: Field)
  {
    function Message(): string {
      match this
      case Required(TitleInput) => "Job title is required"
      case Required(ResumeInput) => "Resume is required"
      case TooShort(TitleInput) => "Minimum 2 characters required"
      case TooShort(ResumeInput) => "Minimum 50 characters required"
      case TooLong(TitleInput) => "Maximum 100 characters exceeded"
      case TooLong(ResumeInput) => "Maximum 15000 characters exceeded"
    }
  }

  /** `getValidationError`: nothing until the field is touched; then blank, too short after
      trimming, or too long counting the raw text (surrounding blanks included). */
  function GetValidationError(field: Field, value: string, touched: bool): (r: Option<FormError>)
    ensures !touched ==> r.None?
    ensures touched && IsBlank(value) ==> r == Some(Required(field))
    ensures r.Some? ==> r.value.field == field
    ensures r == Some(TooShort(field)) <==> touched && 0 < |Trim(value)| < field.Min()
    ensures r == Some(TooLong(field)) <==> touched && field.Min() <= |Trim(value)| && |value| > field.Max()
    ensures r.None? <==> !touched || (field.Min() <= |Trim(value)| && |value| <= field.Max())
  {
    if !touched then None
    else
      var trimmed := Trim(value);
      if |trimmed| == 0 then Some(Required(field))
      else if |trimmed| < field.Min() then Some(TooShort(field))
      else if |value| > field.Max() then Some(TooLong(field))
      else None
  }

  datatype CounterStyle = Neutral | NearLimit | OverLimit
  {
    /** The CSS classes of each style. */
    function Classes(): string {
      match this
      case Neutral => "text-gray-500"
      case NearLimit => "text-amber-600"
      case OverLimit => "text-red-600 font-medium"
    }
  }

  /** `getCounterStyle`: red past the maximum, amber from 90% of it, grey below. With a zero
      maximum and an empty field the percentage is `NaN`, which is grey. */
  function GetCounterStyle(current: nat, max: nat): (r: CounterStyle)
    ensures r == OverLimit <==> current > max
    ensures r == NearLimit <==> current <= max && max > 0 && 10 * current >= 9 * max
    ensures r == Neutral <==> current <= max && (max == 0 || 10 * current < 9 * max)
  {
    if current > max then OverLimit
    else if max > 0 && (PercentageThreshold(current, max); (current as real / max as real) * 100.0 >= 90.0)
    then NearLimit
    else Neutral
  }

  /** `(current / max) * 100 >= 90`, in exact arithmetic, is `10 * current >= 9 * max`. */
  lemma PercentageThreshold(current: nat, max: nat)
    requires max > 0
    ensures (current as real / max as real) * 100.0 >= 90.0 <==> 10 * current >= 9 * max
  {
    var c := current as real;
    var m := max as real;
    var q := c / m;
    assert q >= 0.9 <==> c >= 0.9 * m by {
      assert q * m == c;
      if q >= 0.9 {
        ProductSign(q - 0.9, m);
        assert (q - 0.9) * m == c - 0.9 * m;
      } else {
        ProductSign(0.9 - q, m);
        assert (0.9 - q) * m == 0.9 * m - c;
      }
    }
    assert q * 100.0 >= 90.0 <==> q >= 0.9;
    assert c >= 0.9 * m <==> 10 * current >= 9 * max;
  }

  lemma ProductSign(a: real, b: real)
    requires b > 0.0
    ensures a >= 0.0 ==> a * b >= 0.0
    ensures a > 0.0 ==> a * b > 0.0
  {
  }

  /** The form's `isValid`: the four bounds, which hold exactly when neither field would show
      an error once touched. */
  predicate IsValid(jobTitle: string, resume: string): (r: bool)
    ensures r <==> GetValidationError(TitleInput, jobTitle, true).None?
                   && GetValidationError(ResumeInput, resume, true).None?
  {
    && |Trim(jobTitle)| >= TitleInput.Min()
    && |jobTitle| <= TitleInput.Max()
    && |Trim(resume)| >= ResumeInput.Min()
    && |resume| <= ResumeInput.Max()
  }

  /** What the form hands to its `onSubmit`. */
  datatype Submission = Submission(resume: string, jobTitle: string, jobPosting: string)

  /** The guard of `handleSubmit`: a valid form and a job posting that is not blank (`None`
      when the text area is not mounted). Everything is submitted trimmed. */
  function HandleSubmit(jobTitle: string, resume: string, jobPostingArea: Option<string>)
    : (r: Option<Submission>)
    ensures r.Some? <==> IsValid(jobTitle, resume) && jobPostingArea.Some? && !IsBlank(jobPostingArea.value)
    ensures r.Some? ==> r.value == Submission(Trim(resume), Trim(jobTitle), Trim(jobPostingArea.value))
  {
    var jobPosting := if jobPostingArea.Some? then Some(Trim(jobPostingArea.value)) else None;
    if !IsValid(jobTitle, resume) || jobPosting.None? || |jobPosting.value| == 0 then None
    else Some(Submission(Trim(resume), Trim(jobTitle), jobPosting.value))
  }

  /** The JSON body the evaluate page posts for a submission: the server extracts from it
      exactly the three submitted strings, trimmed. */
  function RequestBody(s: Submission): (r: Value)
    ensures ExtractInput(r) == Some(EvaluationRequest(Trim(s.resume), Trim(s.jobTitle), Trim(s.jobPosting)))
  {
    FieldNamesDistinct();
    var v := JObj(map["resumeText" := JStr(s.resume), "jobTitle" := JStr(s.jobTitle), "jobPosting" := JStr(s.jobPosting)]);
    assert ResumeField(v) == Some(JStr(s.resume));
    assert Get(v, "jobTitle") == Some(JStr(s.jobTitle));
    assert Get(v, "jobPosting") == Some(JStr(s.jobPosting));
    v
  }

  /** The form's limits agree with the server's for the resume and the title: whatever the
      form submits passes the server's checks on those two fields, so the server accepts it
      as soon as the job posting is within the server's bounds. */
  lemma SubmissionMeetsServerBounds(jobTitle: string, resume: string, jobPostingArea: Option<string>)
    requires HandleSubmit(jobTitle, resume, jobPostingArea).Some?
    ensures var s := HandleSubmit(jobTitle, resume, jobPostingArea).value;
            var body := RequestBody(s);
            && !Fails(body, ResumeRequired) && !Fails(body, TitleRequired) && !Fails(body, PostingRequired)
            && !Fails(body, ResumeTooShort) && !Fails(body, ResumeTooLong)
            && !Fails(body, TitleTooShort) && !Fails(body, TitleTooLong)
            && (MinJobPostingLength <= |s.jobPosting| <= MaxJobPostingLength ==> ValidateInput(body).Valid?)
  {
    var s := HandleSubmit(jobTitle, resume, jobPostingArea).value;
    TrimIdempotent(jobTitle);
    TrimIdempotent(resume);
    TrimIdempotent(jobPostingArea.value);
    TrimmedSubmissionPasses(s);
  }

  /** The server's view of a body built from trimmed fields whose lengths lie within the
      form's bounds. */
  lemma TrimmedSubmissionPasses(s: Submission)
    requires Trim(s.resume) == s.resume && Trim(s.jobTitle) == s.jobTitle && Trim(s.jobPosting) == s.jobPosting
    requires ResumeInput.Min() <= |s.resume| <= ResumeInput.Max()
    requires TitleInput.Min() <= |s.jobTitle| <= TitleInput.Max()
    requires |s.jobPosting| > 0
    ensures var body := RequestBody(s);
            && !Fails(body, ResumeRequired) && !Fails(body, TitleRequired) && !Fails(body, PostingRequired)
            && !Fails(body, ResumeTooShort) && !Fails(body, ResumeTooLong)
            && !Fails(body, TitleTooShort) && !Fails(body, TitleTooLong)
            && (MinJobPostingLength <= |s.jobPosting| <= MaxJobPostingLength ==> ValidateInput(body).Valid?)
  {
    BodyFields(s);
    TrimmedFieldsPass(RequestBody(s), s);
  }

  /** The same, for any object whose three fields read back as the submission's strings. */
  lemma TrimmedFieldsPass(body: Value, s: Submission)
    requires body.JObj?
    requires ResumeField(body) == Some(JStr(s.resume))
    requires Get(body, "jobTitle") == Some(JStr(s.jobTitle)) && Get(body, "jobPosting") == Some(JStr(s.jobPosting))
    requires Trim(s.resume) == s.resume && Trim(s.jobTitle) == s.jobTitle && Trim(s.jobPosting) == s.jobPosting
    requires ResumeInput.Min() <= |s.resume| <= ResumeInput.Max()
    requires TitleInput.Min() <= |s.jobTitle| <= TitleInput.Max()
    requires |s.jobPosting| > 0
    ensures && !Fails(body, ResumeRequired) && !Fails(body, TitleRequired) && !Fails(body, PostingRequired)
            && !Fails(body, ResumeTooShort) && !Fails(body, ResumeTooLong)
            && !Fails(body, TitleTooShort) && !Fails(body, TitleTooLong)
            && (MinJobPostingLength <= |s.jobPosting| <= MaxJobPostingLength ==> ValidateInput(body).Valid?)
  {
  }

  /** The three fields of a request body read back as the submitted strings. */
  lemma BodyFields(s: Submission)
    ensures Validators.ResumeField(RequestBody(s)) == Some(JStr(s.resume))
    ensures Get(RequestBody(s), "jobTitle") == Some(JStr(s.jobTitle))
    ensures Get(RequestBody(s), "jobPosting") == Some(JStr(s.jobPosting))
  {
    FieldNamesDistinct();
    var m := RequestBody(s).members;
    assert m == map["resumeText" := JStr(s.resume), "jobTitle" := JStr(s.jobTitle), "jobPosting" := JStr(s.jobPosting)];
    assert Get(RequestBody(s), "resumeText") == Some(m["resumeText"]);
  }

  /** The three field names of the body are different keys. */
  lemma FieldNamesDistinct()
    ensures "resumeText" != "jobTitle" && "resumeText" != "jobPosting" && "jobTitle" != "jobPosting"
  {
    assert "resumeText"[0] != "jobTitle"[0];
    assert "resumeText"[0] != "jobPosting"[0];
    assert |"jobTitle"| != |"jobPosting"|;
  }

  /** The form does not check the job posting's length: a posting under 100 characters after
      trimming is submitted, and the server answers 400 'Job posting too short'. */
  lemma ShortPostingPassesFormOnly(jobTitle: string, resume: string, jobPostingArea: Option<string>)
    requires HandleSubmit(jobTitle, resume, jobPostingArea).Some?
    requires |Trim(jobPostingArea.value)| < MinJobPostingLength
    ensures ValidateInput(RequestBody(HandleSubmit(jobTitle, resume, jobPostingArea).value)) == Invalid(PostingTooShort)
  {
    SubmissionMeetsServerBounds(jobTitle, resume, jobPostingArea);
    var s := HandleSubmit(jobTitle, resume, jobPostingArea).value;
    TrimIdempotent(jobPostingArea.value);
    BodyFields(s);
  }
}
