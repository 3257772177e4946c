/** The prompt builder (src/lib/prompt.ts): counts the words of the resume, picks at most one
    overlay (the short-resume overlay before the senior one), always adds the safety rules, and
    embeds the three inputs verbatim in a fixed template. */
module Prompt {
  import opened Text

  // The fixed prompt fragments, character for character.

  const BasePrompt: string := @"You are an Applicant Tracking System (ATS) evaluator.

Your task is to evaluate a resume strictly for ATS screening purposes,
not human review.

INPUTS:
- Resume text
- Target job title
- Job posting (the actual job description)

EVALUATION RULES:
- Extract keywords and requirements DIRECTLY from the job posting
- Compare the resume against the SPECIFIC requirements in the job posting
- Penalize vague phrases, keyword stuffing, and irrelevant experience
- Do NOT reward formatting, design, or personality
- If unsure, default conservatively
- Prioritize keywords that appear multiple times in the job posting

VERDICT CRITERIA:
- Pass: Resume likely survives ATS filters for this role
- Borderline: Resume may survive but has clear risks
- Weak: Resume unlikely to pass ATS filters

OUTPUT REQUIREMENTS:
Respond in JSON ONLY with the following structure:

{
  ""verdict"": ""Pass | Borderline | Weak"",
  ""ats_score"": number (0–100),
  ""keyword_gaps"": [
    { ""keyword"": ""keyword 1"", ""status"": ""missing"" },
    { ""keyword"": ""keyword 2"", ""status"": ""weak"" },
    { ""keyword"": ""keyword 3"", ""status"": ""missing"" },
    { ""keyword"": ""keyword 4"", ""status"": ""weak"" },
    { ""keyword"": ""keyword 5"", ""status"": ""missing"" }
  ],
  ""improvement_suggestions"": [
    ""Blunt, specific improvement"",
    ""Blunt, specific improvement"",
    ""Blunt, specific improvement""
  ]
}

KEYWORD STATUS DEFINITIONS:
- ""missing"": Keyword is expected for this role but NOT found in resume
- ""weak"": Keyword exists but is vague, buried, or lacks context

STYLE RULES:
- Be direct and neutral
- No encouragement or motivational language
- No filler explanations
- No disclaimers
- No emojis"

  const ShortResumeOverlay: string := @"
ADDITIONAL CONTEXT:
This resume is short or early-career.

ADJUSTMENTS:
- Expect fewer roles and bullet points
- Focus evaluation on core skills coverage and relevance
- Do NOT penalize lack of seniority
- Penalize missing foundational keywords more heavily"

  const SeniorResumeOverlay: string := @"
ADDITIONAL CONTEXT:
This resume represents a senior role.

ADJUSTMENTS:
- Expect measurable impact and ownership
- Penalize vague leadership language
- Penalize missing system-level or strategic keywords
- Be stricter with Pass verdicts"

  const SafetyRules: string := @"
SAFETY RULES:
- Only use requirements EXPLICITLY stated in the job posting
- Do NOT invent additional requirements beyond what's in the posting
- If a requirement in the job posting is ambiguous, interpret conservatively
- Never infer education, certifications, or years unless stated in resume
- Keywords must come from the job posting, not general assumptions"
  const TitleLabel: string := "\n\n---\n\nTARGET JOB TITLE: "
  const PostingLabel: string := "\n\nJOB POSTING:\n"
  const ResumeLabel: string := "\n\n---\n\nRESUME TEXT:\n"
  const JsonOnly: string := "Respond with JSON only."
  const ClosingLead: string := "\n\n---\n\nNow evaluate this resume against the job posting above. "
  const Closing: string := ClosingLead + JsonOnly

  /** Resumes with fewer words than this are treated as short or early-career. */
  const ShortResumeWordLimit: nat := 350

  // ---------------------------------------------------------------------------------------
  // Word count: `text.trim().split(/\s+/).filter(word => word.length > 0).length`
  // ---------------------------------------------------------------------------------------

  /** `s.split(/\s+/)`: the pieces between maximal whitespace runs (an empty piece before a
      leading run and after a trailing one). */
  function SplitWs(s: string): (parts: seq<string>)
    ensures |parts| >= 1
    ensures |parts[0]| > 0 <==> |s| > 0 && !IsWhitespace(s[0])
    decreases |s|
  {
    if |s| == 0 then [""]
    else if IsWhitespace(s[0]) then [""] + SplitWs(s[LeadingBlanks(s)..])
    else
      var rest := SplitWs(s[1..]);
      [[s[0]] + rest[0]] + rest[1..]
  }

  /** `.filter(word => word.length > 0)`. */
  function NonEmpty(ws: seq<string>): (r: seq<string>)
    ensures |r| <= |ws|
  {
    if |ws| == 0 then []
    else (if |ws[0]| > 0 then [ws[0]] else []) + NonEmpty(ws[1..])
  }

  /** `countWords`, as the source writes it; it is the number of maximal non-whitespace runs
      in the text (`WordEnds`, defined without splitting or trimming). */
  function CountWords(text: string): (r: nat)
    ensures r == WordEnds(text)
  {
    var t := Trim(text);
    assert |NonEmpty(SplitWs(t))| == WordEnds(t) by { NonEmptySplitCountsWords(t); }
    assert WordEnds(text) == WordEnds(t) by { WordEndsOfPadded(text, LeadingBlanks(text), t); }
    |NonEmpty(SplitWs(t))|
  }

  /** A word ends at position 0: a non-whitespace character followed by whitespace or by the end. */
  predicate WordEndsAtStart(s: string)
    requires |s| > 0
  {
    !IsWhitespace(s[0]) && (|s| == 1 || IsWhitespace(s[1]))
  }

  /** The number of maximal runs of non-whitespace characters, counted by their last position. */
  function WordEnds(s: string): nat {
    if |s| == 0 then 0
    else (if WordEndsAtStart(s) then 1 else 0) + WordEnds(s[1..])
  }

  lemma {:induction false} WordEndsOfBlank(s: string)
    requires IsBlank(s)
    ensures WordEnds(s) == 0
  {
    if |s| > 0 {
      WordEndsOfBlank(s[1..]);
    }
  }

  lemma {:induction false} WordEndsDropBlanks(s: string, k: nat)
    requires k <= |s| && IsBlank(s[..k])
    ensures WordEnds(s) == WordEnds(s[k..])
  {
    if k > 0 {
      assert IsWhitespace(s[..k][0]);
      assert s[1..][..k - 1] == s[1..k];
      WordEndsDropBlanks(s[1..], k - 1);
      assert s[1..][k - 1..] == s[k..];
    }
  }

  lemma {:induction false} WordEndsAppendBlanks(r: string, b: string)
    requires IsBlank(b)
    ensures WordEnds(r + b) == WordEnds(r)
  {
    if |r| == 0 {
      assert r + b == b;
      WordEndsOfBlank(b);
    } else {
      assert (r + b)[1..] == r[1..] + b;
      WordEndsAppendBlanks(r[1..], b);
      if |b| > 0 {
        assert |r| == 1 ==> IsWhitespace((r + b)[1]);
      }
    }
  }

  /** Splitting on whitespace runs and dropping empty pieces leaves one piece per word. */
  lemma {:induction false} NonEmptySplitCountsWords(s: string)
    ensures |NonEmpty(SplitWs(s))| == WordEnds(s)
    decreases |s|
  {
    if |s| == 0 {
    } else if IsWhitespace(s[0]) {
      var k := LeadingBlanks(s);
      NonEmptySplitCountsWords(s[k..]);
      WordEndsDropBlanks(s, k);
      assert SplitWs(s) == [""] + SplitWs(s[k..]);
      assert ([""] + SplitWs(s[k..]))[1..] == SplitWs(s[k..]);
    } else {
      var rest := SplitWs(s[1..]);
      NonEmptySplitCountsWords(s[1..]);
      var parts := [[s[0]] + rest[0]] + rest[1..];
      assert SplitWs(s) == parts;
      assert parts[1..] == rest[1..];
      assert NonEmpty(parts) == [parts[0]] + NonEmpty(rest[1..]);
      assert rest == [rest[0]] + rest[1..];
      assert NonEmpty(rest) == (if |rest[0]| > 0 then [rest[0]] else []) + NonEmpty(rest[1..]);
    }
  }

  /** Whitespace around a text adds no word ends. */
  lemma WordEndsOfPadded(text: string, lead: nat, t: string)
    requires lead + |t| <= |text|
    requires IsBlank(text[..lead]) && t == text[lead..lead + |t|] && IsBlank(text[lead + |t|..])
    ensures WordEnds(text) == WordEnds(t)
  {
    var tail := text[lead + |t|..];
    WordEndsDropBlanks(text, lead);
    SuffixSlices(text, lead, |t|);
    assert text[lead..] == t + tail;
    WordEndsAppendBlanks(t, tail);
  }

  /** The count is 0 exactly for empty or whitespace-only text. */
  lemma CountWordsZeroIffBlank(text: string)
    ensures CountWords(text) == 0 <==> IsBlank(text)
  {
    var t := Trim(text);
    var parts := SplitWs(t);
    if !IsBlank(text) {
      assert parts == [parts[0]] + parts[1..];
      assert |NonEmpty(parts)| >= 1;
    } else {
      assert t == "";
    }
  }

  // ---------------------------------------------------------------------------------------
  // Seniority: the patterns are an uninterpreted matcher
  // ---------------------------------------------------------------------------------------

  /** The three seniority patterns: a senior job title (senior, lead, principal, staff, director,
      VP, C-level, manager, architect, ...), a two-digit number of years, and 8 or 9 years. */
  datatype Pattern = SeniorTitle | TwoDigitYears | EightOrNineYears

  const TitlePatterns: seq<Pattern> := [SeniorTitle]
  const ExperiencePatterns: seq<Pattern> := [TwoDigitYears, EightOrNineYears]

  /** `for (const pattern of patterns) if (pattern.test(text)) return true; return false`. */
  function AnyMatch(patterns: seq<Pattern>, text: string, matches: (Pattern, string) -> bool): (r: bool)
    ensures r <==> exists i | 0 <= i < |patterns| :: matches(patterns[i], text)
  {
    if |patterns| == 0 then false
    else if matches(patterns[0], text) then true
    else
      var r := AnyMatch(patterns[1..], text, matches);
      assert r ==> exists i | 0 <= i < |patterns| :: matches(patterns[i], text) by {
        if r {
          var i :| 0 <= i < |patterns[1..]| && matches(patterns[1..][i], text);
          assert matches(patterns[i + 1], text);
        }
      }
      assert (exists i | 0 <= i < |patterns| :: matches(patterns[i], text)) ==> r by {
        if exists i | 0 <= i < |patterns| :: matches(patterns[i], text) {
          var i :| 0 <= i < |patterns| && matches(patterns[i], text);
          assert i > 0;
          assert patterns[1..][i - 1] == patterns[i];
        }
      }
      r
  }

  /** `detectSeniorExperience`: the title patterns first, then the experience patterns. */
  function DetectSenior(text: string, matches: (Pattern, string) -> bool): (r: bool)
    ensures r <==> matches(SeniorTitle, text) || matches(TwoDigitYears, text) || matches(EightOrNineYears, text)
  {
    assert TitlePatterns[0] == SeniorTitle;
    assert ExperiencePatterns[0] == TwoDigitYears && ExperiencePatterns[1] == EightOrNineYears;
    AnyMatch(TitlePatterns, text, matches) || AnyMatch(ExperiencePatterns, text, matches)
  }

  // ---------------------------------------------------------------------------------------
  // Overlay selection and the prompt
  // ---------------------------------------------------------------------------------------

  datatype Overlay = NoOverlay | ShortOverlay | SeniorOverlay

  /** The `if (isShortResume) ... else if (isSeniorResume) ...` choice. */
  function ChooseOverlay(isShort: bool, isSenior: bool): (o: Overlay)
    ensures o == ShortOverlay <==> isShort
    ensures o == SeniorOverlay <==> !isShort && isSenior
    ensures o == NoOverlay <==> !isShort && !isSenior
  {
    if isShort then ShortOverlay else if isSenior then SeniorOverlay else NoOverlay
  }

  /** What an overlay adds to the prompt: `'\n' + OVERLAY`, or nothing. */
  function OverlayBlock(o: Overlay): string {
    match o
    case NoOverlay => ""
    case ShortOverlay => "\n" + ShortResumeOverlay
    case SeniorOverlay => "\n" + SeniorResumeOverlay
  }

  /** Everything before the inputs: base prompt, overlay, safety rules. */
  function Header(o: Overlay): string {
    BasePrompt + (OverlayBlock(o) + "\n" + SafetyRules)
  }

  /** The template the inputs are embedded in. */
  function InputSection(jobTitle: string, jobPosting: string, resumeText: string): string {
    InputBody(jobTitle, jobPosting, resumeText) + Closing
  }

  /** The three inputs with their labels, in the order title, posting, resume. */
  function InputBody(jobTitle: string, jobPosting: string, resumeText: string): string {
    TitleLabel + jobTitle + PostingLabel + jobPosting + ResumeLabel + resumeText
  }

  datatype PromptMetadata = PromptMetadata(isShortResume: bool, isSeniorResume: bool, wordCount: nat)

  datatype BuiltPrompt = BuiltPrompt(prompt: string, metadata: PromptMetadata)

  /** `buildEvaluationPrompt`. `matches` decides whether a seniority pattern matches a text. */
  function BuildEvaluationPrompt(resumeText: string, jobTitle: string, jobPosting: string,
                                 matches: (Pattern, string) -> bool): (r: BuiltPrompt)
    ensures r.metadata.wordCount == CountWords(resumeText)
    ensures r.metadata.isShortResume <==> CountWords(resumeText) < ShortResumeWordLimit
    ensures r.metadata.isSeniorResume <==> DetectSenior(resumeText, matches)
    ensures r.prompt == Header(ChooseOverlay(r.metadata.isShortResume, r.metadata.isSeniorResume))
                        + InputSection(jobTitle, jobPosting, resumeText)
  {
    var wordCount := CountWords(resumeText);
    var isShort := wordCount < ShortResumeWordLimit;
    var isSenior := DetectSenior(resumeText, matches);
    var prompt := BasePrompt + (OverlayBlock(ChooseOverlay(isShort, isSenior)) + "\n" + SafetyRules);
    var prompt := prompt + InputSection(jobTitle, jobPosting, resumeText);
    BuiltPrompt(prompt, PromptMetadata(isShort, isSenior, wordCount))
  }

  /** `p` starts with `head` and ends with `last`. */
  predicate Framed(p: string, head: string, last: string) {
    && |head| <= |p| && p[..|head|] == head
    && |last| <= |p| && p[|p| - |last|..] == last
  }

  /** The ends of every prompt: it starts with the base prompt and ends with the JSON-only
      instruction (what lies between is the `BuildEvaluationPrompt` layout). */
  lemma PromptLayout(resumeText: string, jobTitle: string, jobPosting: string,
                     matches: (Pattern, string) -> bool)
    ensures Framed(BuildEvaluationPrompt(resumeText, jobTitle, jobPosting, matches).prompt, BasePrompt, JsonOnly)
  {
    var b := BuildEvaluationPrompt(resumeText, jobTitle, jobPosting, matches);
    var o := ChooseOverlay(b.metadata.isShortResume, b.metadata.isSeniorResume);
    PromptParts(resumeText, jobTitle, jobPosting, matches);
    FramedText(b.prompt, BasePrompt, OverlayBlock(o) + "\n" + SafetyRules,
               InputBody(jobTitle, jobPosting, resumeText), ClosingLead, JsonOnly);
  }

  /** The two ends of a text framed by a head and a tail, for arbitrary fragments, so that
      the solver never looks inside the (long) fixed texts. */
  lemma FramedText(p: string, base: string, mid: string, body: string, lead: string, last: string)
    requires p == (base + mid) + (body + (lead + last))
    ensures Framed(p, base, last)
  {
    assert p == base + (mid + body + lead + last);
    assert p == (base + mid + body + lead) + last;
  }

  lemma PromptParts(resumeText: string, jobTitle: string, jobPosting: string,
                    matches: (Pattern, string) -> bool)
    ensures var b := BuildEvaluationPrompt(resumeText, jobTitle, jobPosting, matches);
            var o := ChooseOverlay(b.metadata.isShortResume, b.metadata.isSeniorResume);
            b.prompt == (BasePrompt + (OverlayBlock(o) + "\n" + SafetyRules))
                        + (InputBody(jobTitle, jobPosting, resumeText) + (ClosingLead + JsonOnly))
  {
  }

  /** The overlay a resume gets depends only on its word count and seniority: a short resume
      gets the short overlay even when it is senior, and the seniority flag is reported anyway. */
  lemma OverlayPrecedence(resumeText: string, jobTitle: string, jobPosting: string,
                          matches: (Pattern, string) -> bool)
    ensures var b := BuildEvaluationPrompt(resumeText, jobTitle, jobPosting, matches);
            var o := ChooseOverlay(b.metadata.isShortResume, b.metadata.isSeniorResume);
            && (CountWords(resumeText) < 350 ==> o == ShortOverlay)
            && (CountWords(resumeText) >= 350 && DetectSenior(resumeText, matches) ==> o == SeniorOverlay)
            && (CountWords(resumeText) >= 350 && !DetectSenior(resumeText, matches) ==> o == NoOverlay)
            && (b.metadata.isSeniorResume <==> DetectSenior(resumeText, matches))
  {
  }
}
