/** `ScoringEngine` (backend/app/scoring_engine.py:276-771): the engine object with its weights
    and strict-mode switch, and its scoring steps as the loops the source runs. Each method is
    proved to compute what the functions of the `Scoring` and `Report` modules say. */
module Engine {
  import opened Strings
  import opened TextPreprocessor
  import opened KeywordExtractor
  import opened ResumeParser
  import opened Results
  import opened Scoring
  import opened Report

  // ---------------------------------------------------------------- the counting loops

  /** `sum(1 for kw in terms if kw.lower() in text.lower())`. */
  method CountMentions(terms: seq<string>, text: string) returns (n: nat)
    ensures n == CountMentioned(terms, text)
  {
    var textLower := Lower(text);
    n := 0;
    for i := 0 to |terms|
      invariant n == CountMentioned(terms[..i], text)
    {
      assert terms[..i + 1][..i] == terms[..i];
      if Contains(textLower, Lower(terms[i])) {
        n := n + 1;
      }
    }
    PrefixWhole(terms);
  }

  /** `[kw for kw in terms if kw.lower() not in text.lower()]`. */
  method AbsentTerms(terms: seq<string>, text: string) returns (missing: seq<string>)
    ensures missing == Absent(terms, text)
  {
    var textLower := Lower(text);
    missing := [];
    for i := 0 to |terms|
      invariant missing == Absent(terms[..i], text)
    {
      AbsentStep(terms, i, text);
      if !Contains(textLower, Lower(terms[i])) {
        missing := missing + [terms[i]];
      }
    }
    PrefixWhole(terms);
  }

  lemma AbsentStep(terms: seq<string>, i: nat, text: string)
    requires i < |terms|
    ensures Absent(terms[..i + 1], text) == Absent(terms[..i], text) + if Mentions(text, terms[i]) then [] else [terms[i]]
  {
    assert terms[..i + 1][..i] == terms[..i];
  }

  /** `sum(1 for exp in experiences if exp['recency'] <= 3)`. */
  method CountRecentRoles(exps: seq<Experience>) returns (n: nat)
    ensures n == CountRecent(exps)
  {
    n := 0;
    for i := 0 to |exps|
      invariant n == CountRecent(exps[..i])
    {
      assert exps[..i + 1][..i] == exps[..i];
      if exps[i].recency <= 3 {
        n := n + 1;
      }
    }
    PrefixWhole(exps);
  }

  /** `sum(1 for exp in experiences if exp['years'] < 1)`. */
  method CountShortRoles(exps: seq<Experience>) returns (n: nat)
    ensures n == CountShort(exps)
  {
    n := 0;
    for i := 0 to |exps|
      invariant n == CountShort(exps[..i])
    {
      assert exps[..i + 1][..i] == exps[..i];
      if exps[i].years < 1 {
        n := n + 1;
      }
    }
    PrefixWhole(exps);
  }

  /** The loop of `_score_experience_relevance` (lines 446-470) over the roles, for the given
      keywords: the summed relevance and one evidence line per role mentioning a keyword. */
  method SumRelevance(exps: seq<Experience>, keywords: seq<string>) returns (totalScore: real, evidence: seq<Evidence>)
    ensures totalScore == RelevanceTotal(exps, keywords)
    ensures evidence == RelevanceEvidence(exps, keywords)
  {
    totalScore := 0.0;
    evidence := [];
    for i := 0 to |exps|
      invariant totalScore == RelevanceTotal(exps[..i], keywords)
      invariant evidence == RelevanceEvidence(exps[..i], keywords)
    {
      var exp := exps[i];
      var matches := CountMentions(keywords, RoleText(exp));
      RelevanceStep(exps, i, keywords);
      totalScore := totalScore + Relevance(exp, keywords);
      if matches > 0 {
        evidence := evidence + [RelevantRole(exp.title, exp.startYear, exp.endYear, matches)];
      }
    }
    PrefixWhole(exps);
  }

  /** One more role adds its relevance to the total and, when it mentions a keyword, one
      evidence line. */
  lemma RelevanceStep(exps: seq<Experience>, i: nat, keywords: seq<string>)
    requires i < |exps|
    ensures RelevanceTotal(exps[..i + 1], keywords) == RelevanceTotal(exps[..i], keywords) + Relevance(exps[i], keywords)
    ensures var e := exps[i];
      var matches := CountMentioned(keywords, RoleText(e));
      RelevanceEvidence(exps[..i + 1], keywords)
        == RelevanceEvidence(exps[..i], keywords)
           + (if matches > 0 then [RelevantRole(e.title, e.startYear, e.endYear, matches)] else [])
  {
    assert exps[..i + 1][..i] == exps[..i];
  }

  lemma CountSatisfiedStep(required: seq<string>, i: nat, found: set<string>)
    requires i < |required|
    ensures CountSatisfied(required[..i + 1], found)
         == CountSatisfied(required[..i], found) + if Satisfied(required[i], found) then 1 else 0
  {
    assert required[..i + 1][..i] == required[..i];
  }

  /** The gap loop of `_detect_red_flags` (lines 673-676): a flag for each neighbouring pair of
      roles more than a year apart. */
  method GapFlagsLoop(exps: seq<Experience>) returns (gaps: seq<RedFlag>)
    ensures gaps == GapFlags(exps)
  {
    gaps := [];
    if exps != [] {
      for i := 0 to |exps| - 1
        invariant gaps == GapsBefore(exps, i)
      {
        var gap := exps[i].startYear - exps[i + 1].endYear;
        if gap > 1 {
          gaps := gaps + [EmploymentGap(gap, exps[i + 1].endYear, exps[i].startYear)];
        }
      }
    }
  }

  /** The weak-claim loop of `_detect_red_flags` (lines 679-682) over `phrases`, given whether
      the resume holds a must-have. */
  method WeakClaimsLoop(phrases: seq<string>, resumeLower: string, anyMust: bool) returns (weak: seq<RedFlag>)
    ensures anyMust ==> weak == WeakClaims(Present(phrases, resumeLower))
    ensures !anyMust ==> weak == []
  {
    weak := [];
    for k := 0 to |phrases|
      invariant anyMust ==> weak == WeakClaims(Present(phrases[..k], resumeLower))
      invariant !anyMust ==> weak == []
    {
      assert phrases[..k + 1][..k] == phrases[..k];
      if Contains(resumeLower, phrases[k]) && anyMust {
        WeakClaimsAppend(Present(phrases[..k], resumeLower), phrases[k]);
        weak := weak + [WeakClaim(phrases[k])];
      }
    }
    PrefixWhole(phrases);
  }

  /** A weak-claim flag per phrase, in order. */
  lemma WeakClaimsAppend(phrases: seq<string>, phrase: string)
    ensures WeakClaims(phrases + [phrase]) == WeakClaims(phrases) + [WeakClaim(phrase)]
  {
    assert forall i :: 0 <= i < |phrases| ==> (phrases + [phrase])[i] == phrases[i];
  }

  // ---------------------------------------------------------------- the engine

  class ScoringEngine {
    const weights: map<Category, real>
    const strictMode: bool

    /** `__init__` (lines 282-284): `weights or self._default_weights()`, so both a missing and
        an empty weight map select the defaults. */
    constructor (weights: Option<map<Category, real>>, strictMode: bool)
      ensures weights.Some? && weights.value != map[] ==> this.weights == weights.value
      ensures weights.None? || weights.value == map[] ==> this.weights == DefaultWeights()
      ensures this.strictMode == strictMode
    {
      if weights.Some? && weights.value != map[] {
        this.weights := weights.value;
      } else {
        this.weights := DefaultWeights();
      }
      this.strictMode := strictMode;
    }

    /** `_score_keyword_skills` (lines 391-429). */
    method ScoreKeywordSkills(resume: string, must: seq<string>, nice: seq<string>) returns (s: CategoryScore)
      ensures s == KeywordSkillsScore(resume, must, nice)
    {
      var matchedMust := CountMentions(must, resume);
      var matchedNice := CountMentions(nice, resume);
      var totalMust := if must != [] then |must| else 1;
      var totalNice := if nice != [] then |nice| else 1;
      var score: real;
      if must != [] {
        score := Fraction(matchedMust, totalMust) * 70.0 + Fraction(matchedNice, totalNice) * 30.0;
      } else {
        score := Fraction(matchedNice, totalNice) * 100.0;
      }
      score := MinReal(100.0, MaxReal(0.0, score));
      var resumeLower := Lower(resume);
      var evidence := [];
      for i := 0 to |must|
        invariant evidence == KeywordEvidence(resume, must[..i])
      {
        assert must[..i + 1][..i] == must[..i];
        if Contains(resumeLower, Lower(must[i])) {
          evidence := evidence + [KeywordFound(must[i], FindSnippet(resume, must[i], SnippetContext))];
        }
      }
      PrefixWhole(must);
      s := CategoryScore(score, KeywordDetails(matchedMust, totalMust, matchedNice, totalNice), evidence);
    }

    /** `_score_experience_relevance` (lines 431-478); the tool lexicon is the flattened
        technology table. */
    method ScoreExperienceRelevance(exps: seq<Experience>, jd: string) returns (s: CategoryScore)
      ensures s == ExperienceRelevanceScore(exps, jd)
    {
      if exps == [] {
        return CategoryScore(0.0, NoExperienceFound, []);
      }
      var roleKeywords := ExtractRoleKeywords(jd);
      var totalScore, evidence := SumRelevance(exps, roleKeywords + Lexicon);
      var recent := CountRecentRoles(exps);
      s := CategoryScore(MinReal(100.0, Mean(totalScore, |exps|) * 100.0), RelevanceDetails(recent), evidence);
    }

    /** `_score_role_match` (lines 480-514). */
    method ScoreRoleMatch(exps: seq<Experience>, jd: string) returns (s: CategoryScore)
      ensures s == RoleMatchScore(exps, jd)
    {
      var roles := Roles(exps);
      var jdLines := Split(jd, '\n');
      var target := Lower(jdLines[0]);
      var score := 0.0;
      var evidence := [];
      for i := 0 to |roles|
        invariant score == RoleLoopScore(roles[..i], target)
        invariant evidence == RoleEvidence(roles[..i], target)
      {
        assert roles[..i + 1][..i] == roles[..i];
        var role := roles[i];
        if Contains(target, role) || Contains(role, target) {
          score := 95.0;
          evidence := evidence + [ExactRole(role)];
        } else if AnyContained(role, AdjacentMarkers) {
          score := MaxReal(score, 70.0);
          evidence := evidence + [AdjacentRole(role)];
        }
      }
      PrefixWhole(roles);
      if evidence == [] {
        score := 20.0;
        evidence := [LimitedRoleOverlap];
      }
      s := CategoryScore(score, RoleDetails(roles), evidence);
    }

    /** `_score_education_match` (lines 552-588). */
    method ScoreEducationMatch(education: seq<Education>, jd: string) returns (s: CategoryScore)
      ensures s == EducationMatchScore(education, jd)
    {
      var required := ExtractDegreeRequirements(jd);
      if required == [] {
        return CategoryScore(75.0, NoDegreeRequirement, [NoDegreeInJd]);
      }
      if education == [] {
        return CategoryScore(30.0, MissingEducation, [NoEducationInResume]);
      }
      var found := FoundDegrees(education);
      var matched := 0;
      for i := 0 to |required|
        invariant matched == CountSatisfied(required[..i], found)
      {
        CountSatisfiedStep(required, i, found);
        if exists f :: f in found && Contains(f, required[i]) {
          matched := matched + 1;
        }
      }
      PrefixWhole(required);
      s := CategoryScore(Fraction(matched, |required|) * 100.0, EducationDetails(found, required), [DegreesFound(found)]);
    }

    /** `_score_tooling_match` (lines 590-630). */
    method ScoreToolingMatch(resume: string, jd: string) returns (s: CategoryScore)
      ensures s == ToolingMatchScore(resume, jd)
    {
      var matchedTools := FilterPresent(Lexicon, Lower(resume));
      var jdTools := FilterPresent(Lexicon, Lower(jd));
      if jdTools == [] {
        return CategoryScore(50.0, NoToolsInJd, [NoToolsNamed]);
      }
      var matched := 0;
      for i := 0 to |jdTools|
        invariant matched == CountIn(jdTools[..i], matchedTools)
      {
        assert jdTools[..i + 1][..i] == jdTools[..i];
        if jdTools[i] in matchedTools {
          matched := matched + 1;
        }
      }
      PrefixWhole(jdTools);
      s := CategoryScore(Fraction(matched, |jdTools|) * 100.0, ToolingDetails(matched, |jdTools|),
                         [ToolsMatched(matched, |jdTools|)]);
    }

    /** `_score_recency_match` (lines 632-650). */
    method ScoreRecencyMatch(exps: seq<Experience>) returns (s: CategoryScore)
      ensures s == RecencyMatchScore(exps)
    {
      if exps == [] {
        return CategoryScore(0.0, NoExperience, []);
      }
      var recent := CountRecentRoles(exps);
      s := CategoryScore(Fraction(recent, |exps|) * 100.0, RecencyDetails(recent), [RecentRoles(recent)]);
    }

    /** `_detect_red_flags` (lines 652-684). */
    method DetectRedFlags(resume: string, exps: seq<Experience>, must: seq<string>) returns (flags: seq<RedFlag>)
      ensures flags == RedFlagsOf(resume, exps, must)
    {
      var missing := AbsentTerms(must, resume);
      var missingFlags := if missing != [] then [MissingMustHaves(|missing|, missing[..Min(3, |missing|)])] else [];
      var shortJobs := CountShortRoles(exps);
      var hoppingFlags := if shortJobs >= 2 then [JobHopping(shortJobs)] else [];
      var gapFlags := GapFlagsLoop(exps);
      var weakFlags := WeakClaimsLoop(WeakPhrases, Lower(resume), AnyMustInResume(resume, must));
      assert missingFlags == MissingFlags(resume, must);
      flags := missingFlags + hoppingFlags + gapFlags + weakFlags;
    }

    /** `_calculate_overall_score` (lines 686-692): the weighted sum over the categories that
        have a weight and a score, rounded to one decimal. */
    method CalculateOverallScore(scores: map<Category, CategoryScore>) returns (total: real)
      ensures total == Round1(WeightedSum(scores, weights, AllCategories))
    {
      total := 0.0;
      for k := 0 to |AllCategories|
        invariant total == WeightedSum(scores, weights, AllCategories[..k])
      {
        assert AllCategories[..k + 1][..k] == AllCategories[..k];
        var c := AllCategories[k];
        if c in weights && c in scores {
          total := total + scores[c].score * weights[c];
        }
      }
      PrefixWhole(AllCategories);
      total := Round1(total);
    }

    /** `_generate_actions` (lines 703-746). A missing category in `scores` is a `KeyError` in
        the source, hence the precondition. */
    method GenerateActions(resume: string, must: seq<string>, nice: seq<string>,
                           scores: map<Category, CategoryScore>) returns (a: Actions)
      requires HasActionScores(scores)
      ensures a == ActionsFor(resume, must, nice, scores)
    {
      var strong := if scores[KeywordSkills].score >= 70.0 then [StrongKeywords] else [];
      var relevant := if scores[ExperienceRelevance].score >= 70.0 then [RelevantExperience] else [];
      var matching := if scores[RoleMatch].score >= 70.0 then [MatchingRole] else [];
      var gaps := AbsentTerms(must, resume);
      var missingNice := AbsentTerms(nice, resume);
      var addNice := if missingNice != [] then [AddNiceToHaves(missingNice[..Min(3, |missingNice|)])] else [];
      var seniority := scores[SeniorityMatch].details;
      var highlight := if seniority.SeniorityDetails? && seniority.gap < 0 then [HighlightAchievements] else [];
      var atsKeywords := AbsentTerms(must, resume);
      a := Actions(strong + relevant + matching, gaps, addNice + highlight, atsKeywords[..Min(5, |atsKeywords|)]);
    }

    /** `_create_keyword_matches` (lines 748-771). */
    method CreateKeywordMatches(resume: string, keywords: seq<string>, kind: MatchKind) returns (ms: seq<KeywordMatch>)
      ensures ms == KeywordMatchesFor(resume, keywords, kind)
    {
      var resumeLower := Lower(resume);
      ms := [];
      for i := 0 to |keywords|
        invariant |ms| == i && forall k :: 0 <= k < i ==> ms[k] == MatchFor(resume, keywords[k], kind)
      {
        var matched := Contains(resumeLower, Lower(keywords[i]));
        var evidence := "";
        if matched {
          evidence := FindSnippet(resume, keywords[i], SnippetContext);
        }
        ms := ms + [KeywordMatch(keywords[i], matched, evidence, kind)];
      }
    }

    /** The score dictionary of `analyze` (lines 319-348), red flags included. */
    method ScoreAll(resume: string, jd: string, exps: seq<Experience>, education: seq<Education>,
                    must: seq<string>, nice: seq<string>)
      returns (scores: map<Category, CategoryScore>, flags: seq<RedFlag>)
      ensures scores == ScoresFor(resume, jd, exps, education, must, nice)
      ensures flags == RedFlagsOf(resume, exps, must)
    {
      var keyword := ScoreKeywordSkills(resume, must, nice);
      var experience := ScoreExperienceRelevance(exps, jd);
      var role := ScoreRoleMatch(exps, jd);
      var seniority := SeniorityMatchScore(TotalYears(exps), jd);
      var educationScore := ScoreEducationMatch(education, jd);
      var tooling := ScoreToolingMatch(resume, jd);
      var recency := ScoreRecencyMatch(exps);
      flags := DetectRedFlags(resume, exps, must);
      scores := ScoreMap(keyword, experience, role, seniority, educationScore, tooling, recency, RedFlagsCategory(flags));
      ScoresForParts(resume, jd, exps, education, must, nice,
                     keyword, experience, role, seniority, educationScore, tooling, recency, flags);
    }

    lemma ScoresForParts(resume: string, jd: string, exps: seq<Experience>, education: seq<Education>,
                         must: seq<string>, nice: seq<string>,
                         keyword: CategoryScore, experience: CategoryScore, role: CategoryScore,
                         seniority: CategoryScore, educationScore: CategoryScore, tooling: CategoryScore,
                         recency: CategoryScore, flags: seq<RedFlag>)
      requires keyword == KeywordSkillsScore(resume, must, nice)
      requires experience == ExperienceRelevanceScore(exps, jd) && role == RoleMatchScore(exps, jd)
      requires seniority == SeniorityMatchScore(TotalYears(exps), jd)
      requires educationScore == EducationMatchScore(education, jd) && tooling == ToolingMatchScore(resume, jd)
      requires recency == RecencyMatchScore(exps) && flags == RedFlagsOf(resume, exps, must)
      ensures ScoreMap(keyword, experience, role, seniority, educationScore, tooling, recency, RedFlagsCategory(flags))
              == ScoresFor(resume, jd, exps, education, must, nice)
    {
      var expected := ScoresFor(resume, jd, exps, education, must, nice);
      assert expected == ScoreMap(KeywordSkillsScore(resume, must, nice), ExperienceRelevanceScore(exps, jd),
                                  RoleMatchScore(exps, jd), SeniorityMatchScore(TotalYears(exps), jd),
                                  EducationMatchScore(education, jd), ToolingMatchScore(resume, jd),
                                  RecencyMatchScore(exps), RedFlagsCategory(RedFlagsOf(resume, exps, must)));
    }

    /** The rest of `analyze` (lines 350-389) once the scores and flags are known: the overall
        score with the strict-mode penalty, the label, the actions and the keyword matches. */
    method Conclude(resume: string, must: seq<string>, nice: seq<string>,
                  scores: map<Category, CategoryScore>, flags: seq<RedFlag>) returns (r: AnalysisResult)
      requires HasActionScores(scores)
      ensures r == Assemble(scores, flags, KeywordMatchesFor(resume, must, MustHave),
                            KeywordMatchesFor(resume, nice, NiceToHave), ActionsFor(resume, must, nice, scores),
                            weights, strictMode)
    {
      var overall := CalculateOverallScore(scores);
      if strictMode && |flags| > 0 {
        overall := MaxReal(0.0, overall - 20.0);
      }
      var actions := GenerateActions(resume, must, nice, scores);
      var mustMatches := CreateKeywordMatches(resume, must, MustHave);
      var niceMatches := CreateKeywordMatches(resume, nice, NiceToHave);
      r := AnalysisResult(overall, LabelOf(overall), scores, mustMatches, niceMatches, flags, actions,
                          Metadata(Version, strictMode, weights));
    }

    /** `analyze` (lines 300-389) on a resume whose job entries and education section the
        section patterns captured as `entries` and `educationSection`, in `currentYear`. */
    method Analyze(resume: string, jd: string, entries: seq<RawEntry>, educationSection: Option<string>,
                   currentYear: int) returns (r: AnalysisResult)
      ensures NoDup(Terms(r.mustHave)) && Elems(Terms(r.mustHave)) == MustHaveSet(jd)
      ensures NoDup(Terms(r.niceToHave)) && Elems(Terms(r.niceToHave)) == NiceToHaveSet(jd)
      ensures r == AnalysisFor(resume, jd, ExperienceRecords(entries, currentYear), EducationRecords(educationSection),
                               Terms(r.mustHave), Terms(r.niceToHave), weights, strictMode)
    {
      var must := ExtractMustHaves(jd);
      var nice := ExtractNiceToHaves(jd);
      var exps := ExtractWorkExperience(entries, currentYear);
      assert exps == ExperienceRecords(entries, currentYear);
      var education := ExtractEducation(educationSection);
      RecordsOfKinds(education);
      assert education == EducationRecords(educationSection);
      var scores, flags := ScoreAll(resume, jd, exps, education, must, nice);
      r := Conclude(resume, must, nice, scores, flags);
    }
  }
}
