/**
 * The scorer's `/analyze` handler (nlp-service/app.py, analyze_resume). Skill extraction
 * (spaCy matching against the skills list) is a parameter `skills: string -> set<string>`;
 * what remains is set algebra, the score formula in exact arithmetic with Python 3's
 * round-half-to-even, the clamp at 100, and the choice of summary sentences.
 */
module Scoring {
  import opened Wrappers

  const ValidatedSkillBonus: nat := 5
  const MaxScore: nat := 100

  /**
   * The request body. `Falsy` is JSON that Python treats as false (`null`, `{}`, `[]`,
   * `0`, `""`, `false`). `Malformed` is a body on which the handler raises before it
   * answers. `JsonObject` is an object whose texts, when present, are strings and whose
   * `validated_skills`, when present, is a list of strings, turned into a set.
   */
  datatype RequestBody =
    | Falsy
    | Malformed
    | JsonObject(resumeText: Option<string>, jdText: Option<string>, validatedSkills: Option<set<string>>)

  /**
   * The sentences a summary may contain, in the order they are appended. Which skills the
   * key-skills and lacking sentences list (the first three of an unordered set) is not modelled.
   */
  datatype Sentence = Opening(score: int) | KeySkills | Boosted | Lacking | AllRequired

  /** A successful response: exactly these four fields. */
  datatype Analysis = Analysis(
    matchScore: int,
    summary: seq<Sentence>,
    matchedSkills: set<string>,
    missingSkills: set<string>)

  /** The handler's answers; ServerError is the catch-all `except` around the whole handler. */
  datatype AnalyzeResponse = InvalidBody | MissingText | ServerError | Analyzed(analysis: Analysis)

  function HttpStatus(r: AnalyzeResponse): int
  {
    match r
    case InvalidBody => 400
    case MissingText => 400
    case ServerError => 500
    case Analyzed(_) => 200
  }

  /** Python 3's `round(p / q)` for a non-negative fraction: floor, then up when the remainder is past half or a tie has an odd floor. */
  function RoundHalfEven(p: nat, q: nat): (r: nat)
    requires q > 0
    ensures q * r - q < p < q * r + q
  {
    var f := p / q;
    var rem := p % q;
    if 2 * rem < q then f
    else if 2 * rem > q then f + 1
    else if f % 2 == 0 then f
    else f + 1
  }

  /** `r` is an integer nearest to p / q, and the even one when p / q lies exactly halfway. */
  predicate NearestEven(p: nat, q: nat, r: int)
  {
    && q * (2 * r - 1) <= 2 * p <= q * (2 * r + 1)
    && (2 * p == q * (2 * r - 1) || 2 * p == q * (2 * r + 1) ==> r % 2 == 0)
  }

  lemma MulMonotone(q: nat, a: int, b: int)
    requires a <= b
    ensures q * a <= q * b
  {
  }

  lemma MulStrict(q: nat, a: int, b: int)
    requires q > 0 && a < b
    ensures q * a < q * b
  {
    assert q * b == q * a + q * (b - a);
    MulMonotone(q, 1, b - a);
  }

  lemma MulLinear(q: nat, f: int, c: int)
    ensures q * (2 * f + c) == 2 * (q * f) + q * c
  {
  }

  /** RoundHalfEven rounds to the nearest integer, ties to even. */
  lemma RoundHalfEvenIsNearest(p: nat, q: nat)
    requires q > 0
    ensures NearestEven(p, q, RoundHalfEven(p, q))
  {
    var f, rem := p / q, p % q;
    assert p == q * f + rem;
    MulLinear(q, f, -1);
    MulLinear(q, f, 1);
    MulLinear(q, f, 3);
    MulLinear(q, f + 1, -1);
    MulLinear(q, f + 1, 1);
    assert q * (f + 1) == q * f + q;
  }

  /** At most one integer is nearest-with-ties-to-even. */
  lemma NearestEvenUnique(p: nat, q: nat, r1: int, r2: int)
    requires q > 0 && NearestEven(p, q, r1) && NearestEven(p, q, r2)
    ensures r1 == r2
  {
    if r1 < r2 {
      NearestEvenOrdered(p, p, q, r2, r1);
    } else if r2 < r1 {
      NearestEvenOrdered(p, p, q, r1, r2);
    }
  }

  /** Nearest integers of ordered numerators are ordered. */
  lemma NearestEvenOrdered(p1: nat, p2: nat, q: nat, r1: int, r2: int)
    requires q > 0 && p1 <= p2 && NearestEven(p1, q, r1) && NearestEven(p2, q, r2)
    ensures r1 <= r2
  {
    if r1 > r2 {
      if r1 > r2 + 1 {
        MulStrict(q, 2 * r2 + 1, 2 * r1 - 1);
      }
      assert false;
    }
  }

  /** Rounding an exact quotient gives the quotient back. */
  lemma RoundExact(q: nat, k: nat)
    requires q > 0
    ensures RoundHalfEven(q * k, q) == k
  {
    MulLinear(q, k, -1);
    MulLinear(q, k, 1);
    assert NearestEven(q * k, q, k);
    RoundHalfEvenIsNearest(q * k, q);
    NearestEvenUnique(q * k, q, k, RoundHalfEven(q * k, q));
  }

  /** A larger numerator never rounds to a smaller integer. */
  lemma RoundMonotone(p1: nat, p2: nat, q: nat)
    requires q > 0 && p1 <= p2
    ensures RoundHalfEven(p1, q) <= RoundHalfEven(p2, q)
  {
    RoundHalfEvenIsNearest(p1, q);
    RoundHalfEvenIsNearest(p2, q);
    NearestEvenOrdered(p1, p2, q, RoundHalfEven(p1, q), RoundHalfEven(p2, q));
  }

  /**
   * `min(round(base + bonus), 100)` where base = 100 * matched / jdCount (0 when the job
   * description has no recognised skill) and bonus = 5 per matched, validated skill.
   * The sum is the exact fraction (100 * matched + 5 * boosted * jdCount) / jdCount.
   */
  function FinalScore(matched: nat, jdCount: nat, boosted: nat): (r: int)
    ensures 0 <= r <= MaxScore
  {
    var raw := if jdCount == 0 then ValidatedSkillBonus * boosted
               else RoundHalfEven(MaxScore * matched + ValidatedSkillBonus * boosted * jdCount, jdCount);
    if raw < MaxScore then raw else MaxScore
  }

  /**
   * The score is the integer nearest to 100 * matched / jdCount + 5 * boosted, the even one
   * on a tie, capped at 100.
   */
  lemma FinalScoreIsRoundedSum(matched: nat, jdCount: nat, boosted: nat, n: int)
    requires jdCount > 0
    requires NearestEven(MaxScore * matched + ValidatedSkillBonus * boosted * jdCount, jdCount, n)
    ensures FinalScore(matched, jdCount, boosted) == if n < MaxScore then n else MaxScore
  {
    var p := MaxScore * matched + ValidatedSkillBonus * boosted * jdCount;
    RoundHalfEvenIsNearest(p, jdCount);
    NearestEvenUnique(p, jdCount, n, RoundHalfEven(p, jdCount));
  }

  /** The summary's sentences for a score, the matched and missing skills and the bonus. */
  function Summary(score: int, matched: set<string>, bonus: nat, missing: set<string>): (r: seq<Sentence>)
    ensures 2 <= |r| <= 4 && r[0] == Opening(score)
    ensures r[|r| - 1] == (if missing == {} then AllRequired else Lacking)
  {
    [Opening(score)]
    + (if matched != {} then [KeySkills] else [])
    + (if bonus > 0 then [Boosted] else [])
    + (if missing != {} then [Lacking] else [AllRequired])
  }

  function GetOr<T>(v: Option<T>, default: T): T
  {
    if v.Some? then v.value else default
  }

  /** The text fields, empty when absent. */
  function ResumeTextOf(body: RequestBody): string
    requires body.JsonObject?
  {
    GetOr(body.resumeText, "")
  }

  function JdTextOf(body: RequestBody): string
    requires body.JsonObject?
  {
    GetOr(body.jdText, "")
  }

  /** POST /analyze. */
  function AnalyzeResume(body: RequestBody, skills: string -> set<string>): (r: AnalyzeResponse)
    ensures r == InvalidBody <==> body.Falsy?
    ensures r == MissingText <==> body.JsonObject? && (ResumeTextOf(body) == "" || JdTextOf(body) == "")
    ensures r == ServerError <==> body.Malformed?
    ensures HttpStatus(r) == 400 <==> body.Falsy? || (body.JsonObject? && (ResumeTextOf(body) == "" || JdTextOf(body) == ""))
  {
    match body
    case Falsy => InvalidBody
    case Malformed => ServerError
    case JsonObject(_, _, validatedField) =>
      var resumeText := ResumeTextOf(body);
      var jdText := JdTextOf(body);
      var validated := GetOr(validatedField, {});
      if resumeText == "" || jdText == "" then MissingText
      else
        var resumeSkills := skills(resumeText);
        var jdSkills := skills(jdText);
        var matched := resumeSkills * jdSkills;
        var missing := jdSkills - resumeSkills;
        var boosted := |matched * validated|;
        var score := FinalScore(|matched|, |jdSkills|, boosted);
        Analyzed(Analysis(score, Summary(score, matched, ValidatedSkillBonus * boosted, missing), matched, missing))
  }

  /** The body the backend sends for one resume. */
  function Request(resumeText: string, jdText: string, validated: set<string>): RequestBody
  {
    JsonObject(Some(resumeText), Some(jdText), Some(validated))
  }

  /** Both texts non-empty: the handler always answers with an analysis. */
  lemma AnalyzesNonEmptyTexts(resumeText: string, jdText: string, validated: set<string>, skills: string -> set<string>)
    requires resumeText != "" && jdText != ""
    ensures AnalyzeResume(Request(resumeText, jdText, validated), skills).Analyzed?
  {
  }

  /**
   * The matched and missing skills split the job description's skills: disjoint, their
   * union is exactly the job description's skills, matched ones are also the resume's.
   */
  lemma SkillsPartition(resumeText: string, jdText: string, validated: set<string>, skills: string -> set<string>)
    requires resumeText != "" && jdText != ""
    ensures var a := AnalyzeResume(Request(resumeText, jdText, validated), skills).analysis;
      && a.matchedSkills * a.missingSkills == {}
      && a.matchedSkills + a.missingSkills == skills(jdText)
      && a.matchedSkills <= skills(resumeText)
      && a.missingSkills !! skills(resumeText)
  {
  }

  /**
   * The handler's score is the integer nearest to 100 * |matched| / |jd skills| plus 5 for
   * each matched skill that is validated, the even one on a tie, capped at 100.
   */
  lemma AnalyzeScoreIsRoundedSum(resumeText: string, jdText: string, validated: set<string>,
                                 skills: string -> set<string>, n: int)
    requires resumeText != "" && jdText != "" && skills(jdText) != {}
    requires var jd := skills(jdText); var m := skills(resumeText) * jd;
      NearestEven(MaxScore * |m| + ValidatedSkillBonus * |m * validated| * |jd|, |jd|, n)
    ensures AnalyzeResume(Request(resumeText, jdText, validated), skills).analysis.matchScore
         == if n < MaxScore then n else MaxScore
  {
    var jd := skills(jdText);
    var m := skills(resumeText) * jd;
    FinalScoreIsRoundedSum(|m|, |jd|, |m * validated|, n);
  }

  /** The score always lies in 0..100. */
  lemma ScoreInRange(body: RequestBody, skills: string -> set<string>)
    requires AnalyzeResume(body, skills).Analyzed?
    ensures 0 <= AnalyzeResume(body, skills).analysis.matchScore <= MaxScore
  {
  }

  /** A resume holding every skill of a job description that has at least one skill scores 100. */
  lemma FullMatchScoresMax(resumeText: string, jdText: string, validated: set<string>, skills: string -> set<string>)
    requires resumeText != "" && jdText != ""
    requires skills(jdText) != {} && skills(jdText) <= skills(resumeText)
    ensures AnalyzeResume(Request(resumeText, jdText, validated), skills).analysis.matchScore == MaxScore
  {
    var jd := skills(jdText);
    var matched := skills(resumeText) * jd;
    assert matched == jd;
    var boosted := |matched * validated|;
    var q := |jd|;
    assert MaxScore * q + ValidatedSkillBonus * boosted * q == q * (MaxScore + ValidatedSkillBonus * boosted);
    RoundExact(q, MaxScore + ValidatedSkillBonus * boosted);
  }

  /** With no recognised skill in the job description the score is 0, yet the summary says all required skills are present. */
  lemma NoJdSkillsScoresZero(resumeText: string, jdText: string, validated: set<string>, skills: string -> set<string>)
    requires resumeText != "" && jdText != "" && skills(jdText) == {}
    ensures var a := AnalyzeResume(Request(resumeText, jdText, validated), skills).analysis;
      a.matchScore == 0 && AllRequired in a.summary && Boosted !in a.summary
  {
    var a := AnalyzeResume(Request(resumeText, jdText, validated), skills).analysis;
    assert skills(resumeText) * skills(jdText) == {};
    assert a.summary == [Opening(0), AllRequired];
  }

  lemma SubsetCardinality(a: set<string>, b: set<string>)
    requires a <= b
    ensures |a| <= |b|
  {
    assert b == a + (b - a);
  }

  /** More validated matches never lower the final score. */
  lemma FinalScoreMonotone(matched: nat, jdCount: nat, b1: nat, b2: nat)
    requires b1 <= b2
    ensures FinalScore(matched, jdCount, b1) <= FinalScore(matched, jdCount, b2)
  {
    if jdCount > 0 {
      MulMonotone(ValidatedSkillBonus * jdCount, b1, b2);
      assert ValidatedSkillBonus * b1 * jdCount == (ValidatedSkillBonus * jdCount) * b1;
      assert ValidatedSkillBonus * b2 * jdCount == (ValidatedSkillBonus * jdCount) * b2;
      RoundMonotone(MaxScore * matched + ValidatedSkillBonus * b1 * jdCount,
                    MaxScore * matched + ValidatedSkillBonus * b2 * jdCount, jdCount);
    }
  }

  /**
   * Validated skills only ever raise a score: a larger validated set never lowers it.
   */
  lemma ValidatedSkillsOnlyBoost(resumeText: string, jdText: string, v1: set<string>, v2: set<string>, skills: string -> set<string>)
    requires resumeText != "" && jdText != ""
    requires v1 <= v2
    ensures AnalyzeResume(Request(resumeText, jdText, v1), skills).analysis.matchScore
         <= AnalyzeResume(Request(resumeText, jdText, v2), skills).analysis.matchScore
  {
    var jd := skills(jdText);
    var matched := skills(resumeText) * jd;
    SubsetCardinality(matched * v1, matched * v2);
    FinalScoreMonotone(|matched|, |jd|, |matched * v1|, |matched * v2|);
  }

  /** Validated skills that the resume does not match with the job description do not change the response. */
  lemma UnmatchedValidatedSkillsIgnored(resumeText: string, jdText: string, validated: set<string>, skills: string -> set<string>)
    requires resumeText != "" && jdText != ""
    ensures AnalyzeResume(Request(resumeText, jdText, validated), skills)
         == AnalyzeResume(Request(resumeText, jdText, validated * (skills(resumeText) * skills(jdText))), skills)
  {
    var matched := skills(resumeText) * skills(jdText);
    assert matched * validated == matched * (validated * matched);
  }

  /**
   * The summary's optional sentences: key skills exactly when something matched, the
   * boosted sentence exactly when the bonus is positive (a matched skill is validated),
   * and "all required skills" exactly when nothing is missing, "lacking" otherwise.
   */
  lemma SummarySentences(resumeText: string, jdText: string, validated: set<string>, skills: string -> set<string>)
    requires resumeText != "" && jdText != ""
    ensures var a := AnalyzeResume(Request(resumeText, jdText, validated), skills).analysis;
      && (KeySkills in a.summary <==> a.matchedSkills != {})
      && (Boosted in a.summary <==> a.matchedSkills * validated != {})
      && (AllRequired in a.summary <==> a.missingSkills == {})
      && (Lacking in a.summary <==> a.missingSkills != {})
      && a.summary[0] == Opening(a.matchScore)
  {
    var a := AnalyzeResume(Request(resumeText, jdText, validated), skills).analysis;
    var boosted := a.matchedSkills * validated;
    assert boosted != {} <==> |boosted| > 0;
    assert Summary(a.matchScore, a.matchedSkills, ValidatedSkillBonus * |boosted|, a.missingSkills) == a.summary;
    SummaryMembership(a.matchScore, a.matchedSkills, ValidatedSkillBonus * |boosted|, a.missingSkills);
  }

  /** Which sentences a summary holds, for any score, skill sets and bonus. */
  lemma SummaryMembership(score: int, matched: set<string>, bonus: nat, missing: set<string>)
    ensures var r := Summary(score, matched, bonus, missing);
      && (KeySkills in r <==> matched != {})
      && (Boosted in r <==> bonus > 0)
      && (AllRequired in r <==> missing == {})
      && (Lacking in r <==> missing != {})
  {
  }
}
