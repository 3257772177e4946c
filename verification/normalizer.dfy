/** The response normaliser `parseAndValidateResponse` (src/lib/evaluateResume.ts): it cuts the
    JSON text out of the model's reply, checks the fields it cannot repair, and repairs the rest
    (clamps the score, filters, truncates and pads the two lists) so that every result it
    returns has the fixed shape. */
module Normalizer {
  import opened Wrappers
  import opened Text
  import opened Json
  import opened Types
  import opened Validators

  const GapCount: nat := 5
  const SuggestionCount: nat := 3
  const PlaceholderGap: KeywordGap := KeywordGap("No additional keyword identified", KeywordMissing)
  const PlaceholderSuggestion: string := "Review overall resume clarity and keyword alignment"

  // ---------------------------------------------------------------------------------------
  // Cutting the JSON text out of the reply: `content.match(/\{[\s\S]*\}/)`
  // ---------------------------------------------------------------------------------------

  /** Index of the first occurrence of `c`. */
  function FirstIndexOf(s: string, c: char): (r: Option<nat>)
    ensures r.None? <==> c !in s
    ensures r.Some? ==> r.value < |s| && s[r.value] == c && c !in s[..r.value]
  {
    if |s| == 0 then None
    else if s[0] == c then Some(0)
    else
      var rest := FirstIndexOf(s[1..], c);
      assert s[1..] == s[..|s|][1..];
      if rest.None? then None
      else
        assert s[..rest.value + 1] == [s[0]] + s[1..][..rest.value];
        Some(rest.value + 1)
  }

  /** Index of the last occurrence of `c`. */
  function LastIndexOf(s: string, c: char): (r: Option<nat>)
    ensures r.None? <==> c !in s
    ensures r.Some? ==> r.value < |s| && s[r.value] == c && c !in s[r.value + 1..]
  {
    if |s| == 0 then None
    else if s[|s| - 1] == c then Some(|s| - 1)
    else
      var rest := LastIndexOf(s[..|s| - 1], c);
      assert s == s[..|s| - 1] + [s[|s| - 1]];
      if rest.None? then None
      else
        assert s[rest.value + 1..] == s[..|s| - 1][rest.value + 1..] + [s[|s| - 1]];
        Some(rest.value)
  }

  lemma FirstIndexAtMost(s: string, c: char, i: nat)
    requires i < |s| && s[i] == c
    ensures FirstIndexOf(s, c).Some? && FirstIndexOf(s, c).value <= i
  {
    assert c in s;
  }

  lemma LastIndexAtLeast(s: string, c: char, j: nat)
    requires j < |s| && s[j] == c
    ensures LastIndexOf(s, c).Some? && LastIndexOf(s, c).value >= j
  {
    assert c in s;
  }

  /** Some `{` has a `}` somewhere after it. */
  predicate HasBracePair(s: string) {
    exists i, j | 0 <= i < j < |s| :: s[i] == '{' && s[j] == '}'
  }

  /** The span the greedy regular expression matches: from the first `{` to the last `}`,
      provided that `}` comes after that `{`. */
  function BraceSpan(content: string): (r: Option<(nat, nat)>)
    ensures r.None? <==> !HasBracePair(content)
    ensures r.Some? ==> var (i, j) := r.value;
      && i < j < |content|
      && content[i] == '{' && content[j] == '}'
      && '{' !in content[..i] && '}' !in content[j + 1..]
  {
    var first := FirstIndexOf(content, '{');
    var last := LastIndexOf(content, '}');
    if first.None? || last.None? || last.value <= first.value then
      assert !HasBracePair(content) by {
        forall i: nat, j: nat | i < j < |content| && content[i] == '{'
          ensures content[j] != '}'
        {
          FirstIndexAtMost(content, '{', i);
          if content[j] == '}' {
            LastIndexAtLeast(content, '}', j);
          }
        }
      }
      None
    else
      Some((first.value, last.value))
  }

  /** The text handed to the JSON decoder: the matched span, braces included. */
  function ExtractBraced(content: string): (r: Option<string>)
    ensures r.None? <==> !HasBracePair(content)
    ensures r.Some? ==> |r.value| >= 2 && r.value[0] == '{' && r.value[|r.value| - 1] == '}'
    ensures r.Some? ==> r.value == content[BraceSpan(content).value.0..BraceSpan(content).value.1 + 1]
  {
    match BraceSpan(content)
    case None => None
    case Some((i, j)) => Some(content[i..j + 1])
  }

  // ---------------------------------------------------------------------------------------
  // The score: `Math.max(0, Math.min(100, Math.round(ats_score)))`
  // ---------------------------------------------------------------------------------------

  /** `Math.round`: the nearest integer, halves rounded up. */
  function Round(x: real): (r: int)
    ensures r as real - 0.5 <= x < r as real + 0.5
  {
    (x + 0.5).Floor
  }

  /** The score put into the result: the rounded score, clamped into [0,100]. */
  function ClampScore(x: real): (r: int)
    ensures 0 <= r <= 100
    ensures 0 <= Round(x) <= 100 ==> r == Round(x)
    ensures Round(x) < 0 ==> r == 0
    ensures Round(x) > 100 ==> r == 100
  {
    var rounded := Round(x);
    if rounded > 100 then 100 else if rounded < 0 then 0 else rounded
  }

  /** The worked examples: -10 clamps to 0, 142 to 100, and 55.6 rounds to 56. */
  lemma ClampExamples()
    ensures ClampScore(-10.0) == 0
    ensures ClampScore(142.0) == 100
    ensures ClampScore(55.6) == 56
  {
    assert Round(55.6) == 56;
  }

  // ---------------------------------------------------------------------------------------
  // The two lists: filter, truncate, pad
  // ---------------------------------------------------------------------------------------

  /** `s.slice(0, n)`. */
  function Take<T>(s: seq<T>, n: nat): (r: seq<T>)
    ensures |r| <= n && |r| <= |s|
    ensures |r| == n || |r| == |s|
    ensures r == s[..|r|]
  {
    if |s| <= n then s else s[..n]
  }

  /** `while (s.length < n) s.push(fill)`: appends `fill` until there are `n` elements. */
  function Pad<T>(s: seq<T>, n: nat, fill: T): (r: seq<T>)
    ensures |s| <= n ==> |r| == n
    ensures |s| >= n ==> r == s
    ensures |s| <= |r| && r[..|s|] == s
    ensures forall i | |s| <= i < |r| :: r[i] == fill
    decreases n - |s|
  {
    if |s| >= n then s else Pad(s + [fill], n, fill)
  }

  /** The filter-and-map applied to one element of `keyword_gaps`: an object whose keyword is a
      string that is not blank and whose status is 'missing' or 'weak' becomes a gap with the
      keyword trimmed; anything else is dropped. */
  function AcceptGap(k: Value): (r: Option<KeywordGap>)
    ensures r.Some? <==>
              && IsObjectLike(k)
              && AsString(Get(k, "keyword")).Some? && !IsBlank(AsString(Get(k, "keyword")).value)
              && AsString(Get(k, "status")).Some?
              && (AsString(Get(k, "status")).value == "missing" || AsString(Get(k, "status")).value == "weak")
    ensures r.Some? ==> r.value.keyword == Trim(AsString(Get(k, "keyword")).value)
    ensures r.Some? ==> StatusName(r.value.status) == AsString(Get(k, "status")).value
    ensures r.Some? ==> |r.value.keyword| > 0 && IsTrimmed(r.value.keyword)
  {
    var keyword := AsString(Get(k, "keyword"));
    var status := AsString(Get(k, "status"));
    if IsObjectLike(k) && keyword.Some? && |Trim(keyword.value)| > 0
       && status.Some? && ParseStatus(status.value).Some?
    then Some(KeywordGap(Trim(keyword.value), ParseStatus(status.value).value))
    else None
  }

  /** The accepted elements of `keyword_gaps`, in their original order. */
  function AcceptedGaps(items: seq<Value>): (r: seq<KeywordGap>)
    ensures |r| <= |items|
    ensures forall i | 0 <= i < |r| :: |r[i].keyword| > 0 && IsTrimmed(r[i].keyword)
  {
    if |items| == 0 then []
    else
      var head := AcceptGap(items[0]);
      (if head.Some? then [head.value] else []) + AcceptedGaps(items[1..])
  }

  /** Filtering distributes over concatenation: elements are judged one at a time and the
      survivors keep their relative order. */
  lemma {:induction false} AcceptedGapsAppend(a: seq<Value>, b: seq<Value>)
    ensures AcceptedGaps(a + b) == AcceptedGaps(a) + AcceptedGaps(b)
  {
    if |a| == 0 {
      assert a + b == b;
    } else {
      var head := AcceptGap(a[0]);
      var h := if head.Some? then [head.value] else [];
      assert (a + b)[0] == a[0];
      assert (a + b)[1..] == a[1..] + b;
      assert AcceptedGaps(a + b) == h + AcceptedGaps(a[1..] + b);
      AcceptedGapsAppend(a[1..], b);
      assert h + (AcceptedGaps(a[1..]) + AcceptedGaps(b)) == (h + AcceptedGaps(a[1..])) + AcceptedGaps(b);
    }
  }

  /** The filter judges the elements one after another: one more element extends the accepted
      list by that element's gap, if it has one, and leaves the earlier verdicts alone. */
  lemma AcceptedGapsSnoc(items: seq<Value>, k: Value)
    ensures AcceptedGaps(items + [k])
         == AcceptedGaps(items) + (if AcceptGap(k).Some? then [AcceptGap(k).value] else [])
  {
    AcceptedGapsAppend(items, [k]);
    assert [k][1..] == [];
  }

  /** The five gaps of the result: the first five accepted gaps, then placeholders. */
  function NormalizeGaps(items: seq<Value>): (r: seq<KeywordGap>)
    ensures |r| == GapCount
    ensures var accepted := AcceptedGaps(items);
            var k := if |accepted| < GapCount then |accepted| else GapCount;
            && r[..k] == accepted[..k]
            && forall i | k <= i < GapCount :: r[i] == PlaceholderGap
    ensures forall i | 0 <= i < |r| :: |r[i].keyword| > 0 && IsTrimmed(r[i].keyword)
  {
    var taken := Take(AcceptedGaps(items), GapCount);
    var r := Pad(taken, GapCount, PlaceholderGap);
    assert forall i | 0 <= i < |r| :: r[i] == PlaceholderGap || r[i] in AcceptedGaps(items) by {
      forall i | 0 <= i < |r| ensures r[i] == PlaceholderGap || r[i] in AcceptedGaps(items) {
        if i < |taken| {
          assert r[i] == r[..|taken|][i];
        }
      }
    }
    r
  }

  /** The filter applied to `improvement_suggestions`: strings that are not blank; the string
      itself is kept untrimmed. */
  function AcceptedSuggestions(items: seq<Value>): (r: seq<string>)
    ensures |r| <= |items|
    ensures forall i | 0 <= i < |r| :: !IsBlank(r[i])
  {
    if |items| == 0 then []
    else
      var head := if items[0].JStr? && |Trim(items[0].s)| > 0 then [items[0].s] else [];
      head + AcceptedSuggestions(items[1..])
  }

  /** Filtering distributes over concatenation. */
  lemma {:induction false} AcceptedSuggestionsAppend(a: seq<Value>, b: seq<Value>)
    ensures AcceptedSuggestions(a + b) == AcceptedSuggestions(a) + AcceptedSuggestions(b)
  {
    if |a| == 0 {
      assert a + b == b;
    } else {
      assert (a + b)[1..] == a[1..] + b;
      AcceptedSuggestionsAppend(a[1..], b);
    }
  }

  /** One more element extends the accepted suggestions by that element exactly when it is a
      string that is not blank. */
  lemma AcceptedSuggestionsSnoc(items: seq<Value>, v: Value)
    ensures AcceptedSuggestions(items + [v])
         == AcceptedSuggestions(items) + (if v.JStr? && !IsBlank(v.s) then [v.s] else [])
  {
    AcceptedSuggestionsAppend(items, [v]);
    assert [v][1..] == [];
  }

  lemma PlaceholderSuggestionNotBlank()
    ensures !IsBlank(PlaceholderSuggestion)
  {
    assert PlaceholderSuggestion[|PlaceholderSuggestion| - 1] == 't';
  }

  /** The three suggestions of the result: the first three accepted, then the placeholder. */
  function NormalizeSuggestions(items: seq<Value>): (r: seq<string>)
    ensures |r| == SuggestionCount
    ensures var accepted := AcceptedSuggestions(items);
            var k := if |accepted| < SuggestionCount then |accepted| else SuggestionCount;
            && r[..k] == accepted[..k]
            && forall i | k <= i < SuggestionCount :: r[i] == PlaceholderSuggestion
    ensures forall i | 0 <= i < |r| :: !IsBlank(r[i])
  {
    var taken := Take(AcceptedSuggestions(items), SuggestionCount);
    var r := Pad(taken, SuggestionCount, PlaceholderSuggestion);
    PlaceholderSuggestionNotBlank();
    assert forall i | 0 <= i < |r| :: !IsBlank(r[i]) by {
      forall i | 0 <= i < |r| ensures !IsBlank(r[i]) {
        if i < |taken| {
          assert r[i] == r[..|taken|][i];
          assert r[i] in AcceptedSuggestions(items);
        }
      }
    }
    r
  }

  // ---------------------------------------------------------------------------------------
  // The whole normaliser
  // ---------------------------------------------------------------------------------------

  /** The checks the normaliser cannot repair: a known verdict, a numeric `ats_score`, and
      `keyword_gaps` and `improvement_suggestions` that are arrays. */
  predicate Repairable(raw: Value) {
    && AsString(Get(raw, "verdict")).Some?
    && ParseVerdict(AsString(Get(raw, "verdict")).value).Some?
    && Get(raw, "ats_score").Some? && Get(raw, "ats_score").value.JNum?
    && Get(raw, "keyword_gaps").Some? && Get(raw, "keyword_gaps").value.JArr?
    && Get(raw, "improvement_suggestions").Some? && Get(raw, "improvement_suggestions").value.JArr?
  }

  /** Everything `parseAndValidateResponse` does after `JSON.parse`. The last test (the list
      lengths) is kept as written; `Normalize`'s contract shows it never rejects anything. */
  function Normalize(raw: Value): (r: Option<EvaluationResult>)
    ensures r.Some? <==> Repairable(raw)
    ensures r.Some? ==> Shaped(r.value)
    ensures r.Some? ==> Get(raw, "verdict") == Some(JStr(VerdictName(r.value.verdict)))
    ensures r.Some? ==> r.value.atsScore == ClampScore(Get(raw, "ats_score").value.n)
    ensures r.Some? ==> r.value.keywordGaps == NormalizeGaps(Get(raw, "keyword_gaps").value.items)
    ensures r.Some? ==> r.value.improvementSuggestions
                        == NormalizeSuggestions(Get(raw, "improvement_suggestions").value.items)
  {
    var verdict := AsString(Get(raw, "verdict"));
    var score := Get(raw, "ats_score");
    var gaps := Get(raw, "keyword_gaps");
    var suggestions := Get(raw, "improvement_suggestions");
    if verdict.None? || |verdict.value| == 0 || ParseVerdict(verdict.value).None? then None
    else if score.None? || !score.value.JNum? then None
    else if gaps.None? || !gaps.value.JArr? then None
    else if suggestions.None? || !suggestions.value.JArr? then None
    else
      var keywordGaps := NormalizeGaps(gaps.value.items);
      var improvements := NormalizeSuggestions(suggestions.value.items);
      if |keywordGaps| != GapCount || |improvements| != SuggestionCount then None
      else Some(EvaluationResult(ParseVerdict(verdict.value).value, ClampScore(score.value.n),
                                 keywordGaps, improvements))
  }

  /** `parseAndValidateResponse`. `decode` is `JSON.parse`: it yields a value, or `None` where
      `JSON.parse` throws. */
  function ParseAndValidate(content: string, decode: string -> Option<Value>): (r: Option<EvaluationResult>)
    ensures !HasBracePair(content) ==> r.None?
    ensures HasBracePair(content) && decode(ExtractBraced(content).value).None? ==> r.None?
    ensures r.Some? ==> Shaped(r.value)
    ensures r.Some? ==> decode(ExtractBraced(content).value).Some?
                        && Normalize(decode(ExtractBraced(content).value).value) == r
    ensures HasBracePair(content) && decode(ExtractBraced(content).value).Some? ==>
              r == Normalize(decode(ExtractBraced(content).value).value)
  {
    match ExtractBraced(content)
    case None => None
    case Some(text) =>
      match decode(text)
      case None => None
      case Some(raw) => Normalize(raw)
  }

  /** Every result of the normaliser passes the endpoint's output check. */
  lemma NormalizedPassesValidateOutput(raw: Value)
    requires Normalize(raw).Some?
    ensures ValidateOutput(ToJson(Normalize(raw).value))
  {
    ValidateOutputIffShaped(Normalize(raw).value);
  }

  // ---------------------------------------------------------------------------------------
  // Round trip: a well-formed answer comes back unchanged
  // ---------------------------------------------------------------------------------------

  /** A result the normaliser has nothing to repair in: the fixed shape, keywords trimmed and
      non-empty, suggestions not blank. */
  predicate Canonical(r: EvaluationResult) {
    && Shaped(r)
    && (forall i | 0 <= i < |r.keywordGaps| ::
          |r.keywordGaps[i].keyword| > 0 && IsTrimmed(r.keywordGaps[i].keyword))
    && (forall i | 0 <= i < |r.improvementSuggestions| :: !IsBlank(r.improvementSuggestions[i]))
  }

  /** The snake_case JSON object the model is asked to answer with. */
  function ToRawJson(r: EvaluationResult): Value {
    JObj(map[
      "verdict" := JStr(VerdictName(r.verdict)),
      "ats_score" := JNum(r.atsScore as real),
      "keyword_gaps" := GapsToJson(r.keywordGaps),
      "improvement_suggestions" := StringsToJson(r.improvementSuggestions)])
  }

  lemma AcceptGapOfCanonical(g: KeywordGap)
    requires |g.keyword| > 0 && IsTrimmed(g.keyword)
    ensures AcceptGap(GapToJson(g)) == Some(g)
  {
    assert Get(GapToJson(g), "keyword") == Some(JStr(g.keyword));
    assert Get(GapToJson(g), "status") == Some(JStr(StatusName(g.status)));
    TrimUnique("", g.keyword, "");
    assert "" + g.keyword + "" == g.keyword;
    assert ParseStatus(StatusName(g.status)) == Some(g.status) by {
      match g.status
      case KeywordMissing => case KeywordWeak =>
    }
  }

  lemma {:induction false} AcceptedGapsOfCanonical(gs: seq<KeywordGap>)
    requires forall i | 0 <= i < |gs| :: |gs[i].keyword| > 0 && IsTrimmed(gs[i].keyword)
    ensures AcceptedGaps(GapsToJson(gs).items) == gs
  {
    if |gs| > 0 {
      var items := GapsToJson(gs).items;
      assert items[1..] == GapsToJson(gs[1..]).items;
      AcceptedGapsOfCanonical(gs[1..]);
      assert items[0] == GapToJson(gs[0]);
      AcceptGapOfCanonical(gs[0]);
    }
  }

  lemma {:induction false} AcceptedSuggestionsOfCanonical(ss: seq<string>)
    requires forall i | 0 <= i < |ss| :: !IsBlank(ss[i])
    ensures AcceptedSuggestions(StringsToJson(ss).items) == ss
  {
    if |ss| > 0 {
      var items := StringsToJson(ss).items;
      assert items[1..] == StringsToJson(ss[1..]).items;
      AcceptedSuggestionsOfCanonical(ss[1..]);
      assert items[0] == JStr(ss[0]);
    }
  }

  /** An answer that already has the fixed shape, trimmed keywords and non-blank suggestions is
      returned exactly as the model sent it. */
  lemma NormalizeRoundTrip(r: EvaluationResult)
    requires Canonical(r)
    ensures Normalize(ToRawJson(r)) == Some(r)
  {
    var raw := ToRawJson(r);
    RawJsonFields(r);
    assert ParseVerdict(VerdictName(r.verdict)) == Some(r.verdict) by {
      match r.verdict
      case Pass => case Borderline => case Weak =>
    }
    assert ClampScore(r.atsScore as real) == r.atsScore by {
      assert Round(r.atsScore as real) == r.atsScore;
    }
    CanonicalGapsRoundTrip(r.keywordGaps);
    CanonicalSuggestionsRoundTrip(r.improvementSuggestions);
  }

  /** Five canonical gaps come back from their encoding unchanged. */
  lemma CanonicalGapsRoundTrip(gs: seq<KeywordGap>)
    requires |gs| == GapCount
    requires forall i | 0 <= i < |gs| :: |gs[i].keyword| > 0 && IsTrimmed(gs[i].keyword)
    ensures NormalizeGaps(GapsToJson(gs).items) == gs
  {
    AcceptedGapsOfCanonical(gs);
    var r := NormalizeGaps(GapsToJson(gs).items);
    assert r == r[..GapCount];
  }

  /** Three non-blank suggestions come back from their encoding unchanged. */
  lemma CanonicalSuggestionsRoundTrip(ss: seq<string>)
    requires |ss| == SuggestionCount
    requires forall i | 0 <= i < |ss| :: !IsBlank(ss[i])
    ensures NormalizeSuggestions(StringsToJson(ss).items) == ss
  {
    AcceptedSuggestionsOfCanonical(ss);
    var r := NormalizeSuggestions(StringsToJson(ss).items);
    assert r == r[..SuggestionCount];
  }

  /** The four fields of an encoded result read back as their encodings. */
  lemma RawJsonFields(r: EvaluationResult)
    ensures Get(ToRawJson(r), "verdict") == Some(JStr(VerdictName(r.verdict)))
    ensures Get(ToRawJson(r), "ats_score") == Some(JNum(r.atsScore as real))
    ensures Get(ToRawJson(r), "keyword_gaps") == Some(GapsToJson(r.keywordGaps))
    ensures Get(ToRawJson(r), "improvement_suggestions") == Some(StringsToJson(r.improvementSuggestions))
  {
  }
}
