/** What `analyze` (backend/app/scoring_engine.py:300-389) puts together from the category
    scores: the red flags, the weighted overall score, the label, the actions and the keyword
    matches, and the result as a whole; with what is proved about them. */
module Report {
  import opened Strings
  import opened TextPreprocessor
  import opened KeywordExtractor
  import opened ResumeParser
  import opened Results
  import opened Scoring

  // ---------------------------------------------------------------- H. red flags

  /** A "Missing N must-have keywords" flag naming the first three missing, when any is missing. */
  function MissingFlags(resume: string, must: seq<string>): (flags: seq<RedFlag>)
    ensures |flags| <= 1
    ensures flags != [] <==> !AllMentioned(must, resume)
    ensures forall f :: f in flags ==> f.MissingMustHaves? && 1 <= f.count && |f.examples| <= 3
  {
    var missing := Absent(must, resume);
    CountAllMentioned(must, resume);
    if missing == [] then [] else [MissingMustHaves(|missing|, missing[..Min(3, |missing|)])]
  }

  /** `sum(1 for exp in experiences if exp['years'] < 1)`. */
  function CountShort(exps: seq<Experience>): (n: nat)
    ensures n <= |exps|
  {
    if exps == [] then 0
    else CountShort(exps[..|exps| - 1]) + (if exps[|exps| - 1].years < 1 then 1 else 0)
  }

  /** A job-hopping flag when two or more roles lasted under a year. */
  function HoppingFlags(exps: seq<Experience>): (flags: seq<RedFlag>)
    ensures flags != [] <==> CountShort(exps) >= 2
    ensures |flags| <= 1
  {
    var short := CountShort(exps);
    if short >= 2 then [JobHopping(short)] else []
  }

  /** More than a year between the start of role `i` and the end of the role listed after it. */
  predicate HasGap(exps: seq<Experience>, i: nat)
    requires i + 1 < |exps|
  {
    exps[i].startYear - exps[i + 1].endYear > 1
  }

  function GapFlag(exps: seq<Experience>, i: nat): RedFlag
    requires i + 1 < |exps|
  {
    EmploymentGap(exps[i].startYear - exps[i + 1].endYear, exps[i + 1].endYear, exps[i].startYear)
  }

  /** The gap flags of the first `n` neighbouring pairs. */
  function GapsBefore(exps: seq<Experience>, n: nat): (flags: seq<RedFlag>)
    requires n < |exps|
    ensures |flags| <= n
    ensures forall f :: f in flags ==> exists i :: 0 <= i < n && HasGap(exps, i) && f == GapFlag(exps, i)
    ensures forall i :: 0 <= i < n && HasGap(exps, i) ==> GapFlag(exps, i) in flags
  {
    if n == 0 then []
    else GapsBefore(exps, n - 1) + (if HasGap(exps, n - 1) then [GapFlag(exps, n - 1)] else [])
  }

  /** One flag per neighbouring pair of roles with a gap of more than a year. */
  function GapFlags(exps: seq<Experience>): (flags: seq<RedFlag>)
    ensures exps != [] ==> |flags| < |exps|
    ensures forall f :: f in flags ==> f.EmploymentGap? && f.gap > 1 && f.gap == f.toYear - f.fromYear
  {
    if exps == [] then [] else GapsBefore(exps, |exps| - 1)
  }

  predicate NoGaps(exps: seq<Experience>)
  {
    forall i :: 0 <= i < |exps| - 1 ==> !HasGap(exps, i)
  }

  lemma GapFlagsEmpty(exps: seq<Experience>)
    ensures GapFlags(exps) == [] <==> NoGaps(exps)
  {
    var flags := GapFlags(exps);
    if exps != [] && !NoGaps(exps) {
      var i :| 0 <= i < |exps| - 1 && HasGap(exps, i);
      assert GapFlag(exps, i) in flags;
    }
    if flags != [] {
      assert flags[0] in GapsBefore(exps, |exps| - 1);
      var i :| 0 <= i < |exps| - 1 && HasGap(exps, i) && flags[0] == GapFlag(exps, i);
    }
  }

  const WeakPhrases: seq<string> := ["familiar with", "knowledge of", "basic", "some experience"]

  /** `any(must in resume_lower for must in must_haves)`: the must-have is not lower-cased. */
  predicate AnyMustInResume(resume: string, must: seq<string>)
  {
    exists i :: 0 <= i < |must| && Contains(Lower(resume), must[i])
  }

  lemma AnyMustElems(resume: string, must: seq<string>)
    ensures AnyMustInResume(resume, must) <==> exists x :: x in Elems(must) && Contains(Lower(resume), x)
  {
    if exists x :: x in Elems(must) && Contains(Lower(resume), x) {
      var x :| x in Elems(must) && Contains(Lower(resume), x);
      var i :| 0 <= i < |must| && must[i] == x;
    }
  }

  function WeakClaims(phrases: seq<string>): (flags: seq<RedFlag>)
    ensures |flags| == |phrases| && forall i :: 0 <= i < |phrases| ==> flags[i] == WeakClaim(phrases[i])
  {
    seq(|phrases|, i requires 0 <= i < |phrases| => WeakClaim(phrases[i]))
  }

  /** A weak-claim flag per weak phrase in the resume, when the resume holds a must-have. */
  function WeakFlags(resume: string, must: seq<string>): (flags: seq<RedFlag>)
    ensures |flags| <= 4
    ensures forall f :: f in flags ==> f.WeakClaim? && f.phrase in WeakPhrases && Contains(Lower(resume), f.phrase)
    ensures flags == [] <==> !AnyMustInResume(resume, must) || Present(WeakPhrases, Lower(resume)) == []
  {
    if AnyMustInResume(resume, must) then WeakClaims(Present(WeakPhrases, Lower(resume))) else []
  }

  /** `_detect_red_flags` (lines 652-684), in the order the source appends them. */
  function RedFlagsOf(resume: string, exps: seq<Experience>, must: seq<string>): (flags: seq<RedFlag>)
    ensures |flags| <= |exps| + 6
  {
    MissingFlags(resume, must) + HoppingFlags(exps) + GapFlags(exps) + WeakFlags(resume, must)
  }

  /** No flag is raised exactly when every must-have is mentioned, fewer than two roles are
      short, no two neighbouring roles leave a gap, and no weak phrase stands beside a must-have. */
  lemma NoRedFlags(resume: string, exps: seq<Experience>, must: seq<string>)
    ensures RedFlagsOf(resume, exps, must) == []
      <==> && AllMentioned(must, resume)
           && CountShort(exps) < 2
           && NoGaps(exps)
           && (!AnyMustInResume(resume, must) || Present(WeakPhrases, Lower(resume)) == [])
  {
    GapFlagsEmpty(exps);
  }

  /** How many flags are raised depends on which must-haves were extracted, not their order. */
  lemma RedFlagsCountOrder(resume: string, exps: seq<Experience>, must: seq<string>, must': seq<string>)
    requires Elems(must) == Elems(must')
    ensures |RedFlagsOf(resume, exps, must)| == |RedFlagsOf(resume, exps, must')|
  {
    AllMentionedElems(must, resume);
    AllMentionedElems(must', resume);
    AnyMustElems(resume, must);
    AnyMustElems(resume, must');
  }

  /** The red-flags category: 100 less 15 per flag, never below 0 (lines 344-348). */
  function RedFlagsCategory(flags: seq<RedFlag>): (s: CategoryScore)
    ensures 0.0 <= s.score <= 100.0
    ensures s.score == 100.0 <==> flags == []
    ensures s.score == 0.0 <==> |flags| >= 7
    ensures |s.evidence| == |flags| && forall i :: 0 <= i < |flags| ==> s.evidence[i] == Flagged(flags[i])
  {
    CategoryScore(Max(0, 100 - |flags| * 15) as real, FlagDetails(|flags|),
                  seq(|flags|, i requires 0 <= i < |flags| => Flagged(flags[i])))
  }

  // ---------------------------------------------------------------- overall score and label

  /** `_default_weights` (lines 286-298). */
  function DefaultWeights(): (w: map<Category, real>)
    ensures WeightsNonNegative(w)
  {
    map[KeywordSkills := 0.30, ExperienceRelevance := 0.20, RoleMatch := 0.10, SeniorityMatch := 0.10,
        EducationMatch := 0.10, ToolingStackMatch := 0.10, RecencyMatch := 0.05, RedFlags := 0.05]
  }

  /** The weights of the categories `cs` that have one. */
  function WeightTotal(weights: map<Category, real>, cs: seq<Category>): real
  {
    if cs == [] then 0.0
    else WeightTotal(weights, cs[..|cs| - 1]) + (if cs[|cs| - 1] in weights then weights[cs[|cs| - 1]] else 0.0)
  }

  /** The default weights add up to one. */
  lemma DefaultWeightsTotal()
    ensures WeightTotal(DefaultWeights(), AllCategories) == 1.0
  {
    var w := DefaultWeights();
    var cs := AllCategories;
    assert cs[..1][..0] == [];
    assert WeightTotal(w, cs[..1]) == 0.30;
    assert cs[..2][..1] == cs[..1];
    assert WeightTotal(w, cs[..2]) == 0.50;
    assert cs[..3][..2] == cs[..2];
    assert WeightTotal(w, cs[..3]) == 0.60;
    assert cs[..4][..3] == cs[..3];
    assert WeightTotal(w, cs[..4]) == 0.70;
    assert cs[..5][..4] == cs[..4];
    assert WeightTotal(w, cs[..5]) == 0.80;
    assert cs[..6][..5] == cs[..5];
    assert WeightTotal(w, cs[..6]) == 0.90;
    assert cs[..7][..6] == cs[..6];
    assert WeightTotal(w, cs[..7]) == 0.95;
    assert cs[..7] == cs[..|cs| - 1];
  }

  /** `sum(scores[c].score * weights[c])` over the categories that have a weight and a score. */
  function WeightedSum(scores: map<Category, CategoryScore>, weights: map<Category, real>, cs: seq<Category>): real
  {
    if cs == [] then 0.0
    else
      var c := cs[|cs| - 1];
      WeightedSum(scores, weights, cs[..|cs| - 1]) + (if c in weights && c in scores then scores[c].score * weights[c] else 0.0)
  }

  predicate ScoresInRange(scores: map<Category, CategoryScore>)
  {
    forall c :: c in scores ==> 0.0 <= scores[c].score <= 100.0
  }

  predicate WeightsNonNegative(weights: map<Category, real>)
  {
    forall c :: c in weights ==> weights[c] >= 0.0
  }

  /** With non-negative weights the weighted sum lies between 0 and 100 times the weight total. */
  lemma {:induction false} WeightedSumRange(scores: map<Category, CategoryScore>, weights: map<Category, real>, cs: seq<Category>)
    requires ScoresInRange(scores) && WeightsNonNegative(weights)
    ensures 0.0 <= WeightedSum(scores, weights, cs) <= 100.0 * WeightTotal(weights, cs)
  {
    if cs != [] {
      var c := cs[|cs| - 1];
      var init := cs[..|cs| - 1];
      WeightedSumRange(scores, weights, init);
      var w := if c in weights then weights[c] else 0.0;
      var x := if c in weights && c in scores then scores[c].score * weights[c] else 0.0;
      TermRange(scores, weights, c);
      SumStep(WeightedSum(scores, weights, init), WeightTotal(weights, init), x, w);
    }
  }

  /** One category's share lies between 0 and 100 times its weight. */
  lemma TermRange(scores: map<Category, CategoryScore>, weights: map<Category, real>, c: Category)
    requires ScoresInRange(scores) && WeightsNonNegative(weights)
    ensures var w := if c in weights then weights[c] else 0.0;
      var x := if c in weights && c in scores then scores[c].score * weights[c] else 0.0;
      0.0 <= x <= 100.0 * w
  {
    if c in weights && c in scores {
      ProductRange(scores[c].score, weights[c]);
    }
  }

  lemma SumStep(sum: real, total: real, x: real, w: real)
    requires 0.0 <= sum <= 100.0 * total && 0.0 <= x <= 100.0 * w
    ensures 0.0 <= sum + x <= 100.0 * (total + w)
  {
  }

  lemma ProductRange(score: real, weight: real)
    requires 0.0 <= score <= 100.0 && weight >= 0.0
    ensures 0.0 <= score * weight <= 100.0 * weight
  {
  }

  /** Sums over the same scores give the same result. */
  lemma {:induction false} WeightedSumSameScores(a: map<Category, CategoryScore>, b: map<Category, CategoryScore>,
                                                 weights: map<Category, real>, cs: seq<Category>)
    requires forall c :: c in cs ==> (c in a <==> c in b) && (c in a ==> a[c].score == b[c].score)
    ensures WeightedSum(a, weights, cs) == WeightedSum(b, weights, cs)
  {
    if cs != [] {
      WeightedSumSameScores(a, b, weights, cs[..|cs| - 1]);
    }
  }

  lemma OverallSameScores(a: map<Category, CategoryScore>, b: map<Category, CategoryScore>,
                          weights: map<Category, real>, strictMode: bool, flagCount: nat)
    requires forall c :: c in AllCategories ==> c in a && c in b && a[c].score == b[c].score
    ensures OverallScore(a, weights, strictMode, flagCount) == OverallScore(b, weights, strictMode, flagCount)
  {
    WeightedSumSameScores(a, b, weights, AllCategories);
  }

  /** `round(x, 1)`, halves rounded up. */
  function Round1(x: real): (r: real)
    ensures x - 0.05 < r <= x + 0.05
  {
    ((10.0 * x + 0.5).Floor as real) / 10.0
  }

  lemma Round1Monotone(a: real, b: real)
    requires a <= b
    ensures Round1(a) <= Round1(b)
  {
    assert (10.0 * a + 0.5).Floor <= (10.0 * b + 0.5).Floor;
  }

  lemma Round1Range(x: real)
    requires 0.0 <= x <= 100.0
    ensures 0.0 <= Round1(x) <= 100.0
  {
    assert 0 <= (10.0 * x + 0.5).Floor <= 1000;
  }

  /** Strict mode takes 20 points off, never below 0, when a flag was raised (lines 350-354). */
  function StrictPenalty(score: real, strictMode: bool, flagCount: nat): (r: real)
    ensures r <= score || r == 0.0
    ensures score >= 0.0 ==> r >= 0.0
    ensures !strictMode || flagCount == 0 ==> r == score
    ensures strictMode && flagCount > 0 && score >= 20.0 ==> r == score - 20.0
  {
    if strictMode && flagCount > 0 then MaxReal(0.0, score - 20.0) else score
  }

  /** `_calculate_overall_score` (lines 686-692) followed by the strict-mode penalty. */
  function OverallScore(scores: map<Category, CategoryScore>, weights: map<Category, real>,
                        strictMode: bool, flagCount: nat): (r: real)
    ensures var total := WeightedSum(scores, weights, AllCategories);
      && (!strictMode || flagCount == 0 ==> total - 0.05 < r <= total + 0.05)
      && (strictMode && flagCount > 0 ==> r == 0.0 || total - 20.05 < r <= total - 19.95)
      && (total >= 0.0 ==> r >= 0.0)
  {
    StrictPenalty(Round1(WeightedSum(scores, weights, AllCategories)), strictMode, flagCount)
  }

  /** With the default weights and scores between 0 and 100, so is the overall score. */
  lemma OverallInRange(scores: map<Category, CategoryScore>, strictMode: bool, flagCount: nat)
    requires ScoresInRange(scores)
    ensures 0.0 <= OverallScore(scores, DefaultWeights(), strictMode, flagCount) <= 100.0
  {
    DefaultWeightsTotal();
    WeightedSumRange(scores, DefaultWeights(), AllCategories);
    Round1Range(WeightedSum(scores, DefaultWeights(), AllCategories));
  }

  /** `_get_label` (lines 694-701). */
  function LabelOf(score: real): (l: Label)
    ensures l == StrongMatch <==> score >= 75.0
    ensures l == MediumMatch <==> 50.0 <= score < 75.0
    ensures l == WeakMatch <==> score < 50.0
  {
    if score >= 75.0 then StrongMatch else if score >= 50.0 then MediumMatch else WeakMatch
  }

  function LabelRank(l: Label): (n: nat)
    ensures n <= 2
  {
    match l
    case WeakMatch => 0
    case MediumMatch => 1
    case StrongMatch => 2
  }

  /** A higher score never gets a lower label. */
  lemma LabelMonotone(a: real, b: real)
    requires a <= b
    ensures LabelRank(LabelOf(a)) <= LabelRank(LabelOf(b))
  {
  }

  /** Strict mode never raises the overall score, and changes nothing when no flag was raised. */
  lemma StrictNeverRaises(scores: map<Category, CategoryScore>, weights: map<Category, real>, flagCount: nat)
    requires ScoresInRange(scores) && WeightsNonNegative(weights)
    ensures OverallScore(scores, weights, true, flagCount) <= OverallScore(scores, weights, false, flagCount)
    ensures flagCount == 0 ==> OverallScore(scores, weights, true, flagCount) == OverallScore(scores, weights, false, flagCount)
  {
    WeightedSumRange(scores, weights, AllCategories);
    Round1Monotone(0.0, WeightedSum(scores, weights, AllCategories));
    assert Round1(0.0) == 0.0;
  }

  /** Strict mode never improves the label. */
  lemma StrictNeverImproves(scores: map<Category, CategoryScore>, weights: map<Category, real>, flagCount: nat)
    requires ScoresInRange(scores) && WeightsNonNegative(weights)
    ensures LabelRank(LabelOf(OverallScore(scores, weights, true, flagCount)))
         <= LabelRank(LabelOf(OverallScore(scores, weights, false, flagCount)))
  {
    StrictNeverRaises(scores, weights, flagCount);
    LabelMonotone(OverallScore(scores, weights, true, flagCount), OverallScore(scores, weights, false, flagCount));
  }

  // ---------------------------------------------------------------- actions

  /** The good-fit lines for the keyword, experience and role scores of 70 or more. */
  function GoodFitFor(keyword: real, experience: real, role: real): (fit: seq<GoodFit>)
    ensures StrongKeywords in fit <==> keyword >= 70.0
    ensures RelevantExperience in fit <==> experience >= 70.0
    ensures MatchingRole in fit <==> role >= 70.0
  {
    (if keyword >= 70.0 then [StrongKeywords] else [])
    + (if experience >= 70.0 then [RelevantExperience] else [])
    + (if role >= 70.0 then [MatchingRole] else [])
  }

  /** `details.get('gap', 0) < 0` on the seniority details. */
  predicate BelowRequirement(d: Details)
  {
    d.SeniorityDetails? && d.gap < 0
  }

  function SuggestionsFor(resume: string, nice: seq<string>, seniority: Details): (s: seq<Suggestion>)
    ensures HighlightAchievements in s <==> BelowRequirement(seniority)
    ensures |s| > 0 && s[0].AddNiceToHaves? <==> !AllMentioned(nice, resume)
  {
    var missingNice := Absent(nice, resume);
    CountAllMentioned(nice, resume);
    (if missingNice != [] then [AddNiceToHaves(missingNice[..Min(3, |missingNice|)])] else [])
    + (if BelowRequirement(seniority) then [HighlightAchievements] else [])
  }

  predicate HasActionScores(scores: map<Category, CategoryScore>)
  {
    KeywordSkills in scores && ExperienceRelevance in scores && RoleMatch in scores && SeniorityMatch in scores
  }

  /** `_generate_actions` (lines 703-746). */
  function ActionsFor(resume: string, must: seq<string>, nice: seq<string>,
                      scores: map<Category, CategoryScore>): (a: Actions)
    requires HasActionScores(scores)
    ensures a.gaps == Absent(must, resume)
    ensures forall x :: x in a.gaps <==> x in must && !Mentions(resume, x)
    ensures |a.gaps| + CountMentioned(must, resume) == |must|
    ensures |a.atsKeywordsToAdd| == Min(5, |a.gaps|) && a.atsKeywordsToAdd <= a.gaps
  {
    var gaps := Absent(must, resume);
    Actions(GoodFitFor(scores[KeywordSkills].score, scores[ExperienceRelevance].score, scores[RoleMatch].score),
            gaps,
            SuggestionsFor(resume, nice, scores[SeniorityMatch].details),
            gaps[..Min(5, |gaps|)])
  }

  // ---------------------------------------------------------------- keyword matches

  function MatchFor(resume: string, keyword: string, kind: MatchKind): KeywordMatch
  {
    var matched := Mentions(resume, keyword);
    KeywordMatch(keyword, matched, if matched then FindSnippet(resume, keyword, SnippetContext) else "", kind)
  }

  /** `_create_keyword_matches` (lines 748-771). */
  function KeywordMatchesFor(resume: string, keywords: seq<string>, kind: MatchKind): (ms: seq<KeywordMatch>)
    ensures |ms| == |keywords| && Terms(ms) == keywords
    ensures forall i :: 0 <= i < |keywords| ==>
      && ms[i].term == keywords[i] && ms[i].kind == kind
      && (ms[i].matched <==> Mentions(resume, keywords[i]))
      && (ms[i].evidence == [] <==> !ms[i].matched)
  {
    seq(|keywords|, i requires 0 <= i < |keywords| => MatchFor(resume, keywords[i], kind))
  }

  function Terms(ms: seq<KeywordMatch>): (ts: seq<string>)
    ensures |ts| == |ms| && forall i :: 0 <= i < |ms| ==> ts[i] == ms[i].term
  {
    seq(|ms|, i requires 0 <= i < |ms| => ms[i].term)
  }

  /** The terms of the unmatched entries, in order. */
  function Unmatched(ms: seq<KeywordMatch>): seq<string>
  {
    if ms == [] then []
    else Unmatched(ms[..|ms| - 1]) + (if ms[|ms| - 1].matched then [] else [ms[|ms| - 1].term])
  }

  /** The unmatched must-have entries are exactly the gaps the actions list, in order. */
  lemma {:induction false} UnmatchedAreAbsent(resume: string, keywords: seq<string>, kind: MatchKind)
    ensures Unmatched(KeywordMatchesFor(resume, keywords, kind)) == Absent(keywords, resume)
  {
    if keywords != [] {
      var init := keywords[..|keywords| - 1];
      UnmatchedAreAbsent(resume, init, kind);
      assert KeywordMatchesFor(resume, keywords, kind)[..|keywords| - 1] == KeywordMatchesFor(resume, init, kind);
    }
  }

  // ---------------------------------------------------------------- the whole analysis

  /** A score dictionary holding all eight categories. */
  function ScoreMap(keyword: CategoryScore, experience: CategoryScore, role: CategoryScore,
                    seniority: CategoryScore, education: CategoryScore, tooling: CategoryScore,
                    recency: CategoryScore, flags: CategoryScore): (m: map<Category, CategoryScore>)
    ensures KeywordSkills in m && ExperienceRelevance in m && RoleMatch in m && SeniorityMatch in m
    ensures EducationMatch in m && ToolingStackMatch in m && RecencyMatch in m && RedFlags in m
    ensures m[KeywordSkills] == keyword && m[ExperienceRelevance] == experience && m[RoleMatch] == role
    ensures m[SeniorityMatch] == seniority && m[EducationMatch] == education
    ensures m[ToolingStackMatch] == tooling && m[RecencyMatch] == recency && m[RedFlags] == flags
  {
    map[KeywordSkills := keyword, ExperienceRelevance := experience, RoleMatch := role,
        SeniorityMatch := seniority, EducationMatch := education, ToolingStackMatch := tooling,
        RecencyMatch := recency, RedFlags := flags]
  }

  /** The score dictionary `analyze` builds, for given extracted must-haves and nice-to-haves. */
  function ScoresFor(resume: string, jd: string, exps: seq<Experience>, education: seq<Education>,
                     must: seq<string>, nice: seq<string>): map<Category, CategoryScore>
  {
    ScoreMap(KeywordSkillsScore(resume, must, nice), ExperienceRelevanceScore(exps, jd), RoleMatchScore(exps, jd),
             SeniorityMatchScore(TotalYears(exps), jd), EducationMatchScore(education, jd),
             ToolingMatchScore(resume, jd), RecencyMatchScore(exps), RedFlagsCategory(RedFlagsOf(resume, exps, must)))
  }

  /** The score dictionary holds all eight categories, each scored between 0 and 100. */
  lemma ScoresForInRange(resume: string, jd: string, exps: seq<Experience>, education: seq<Education>,
                         must: seq<string>, nice: seq<string>)
    ensures var scores := ScoresFor(resume, jd, exps, education, must, nice);
      (forall c :: c in scores) && ScoresInRange(scores)
  {
    ScoreMapInRange(KeywordSkillsScore(resume, must, nice), ExperienceRelevanceScore(exps, jd), RoleMatchScore(exps, jd),
                    SeniorityMatchScore(TotalYears(exps), jd), EducationMatchScore(education, jd),
                    ToolingMatchScore(resume, jd), RecencyMatchScore(exps), RedFlagsCategory(RedFlagsOf(resume, exps, must)));
  }

  /** Two score dictionaries that differ at most in the keyword and red-flag entries, and not
      in their scores, give the same overall score. */
  lemma OverallScoreMapSame(keyword: CategoryScore, keyword': CategoryScore, experience: CategoryScore,
                            role: CategoryScore, seniority: CategoryScore, education: CategoryScore,
                            tooling: CategoryScore, recency: CategoryScore, flags: CategoryScore, flags': CategoryScore,
                            weights: map<Category, real>, strictMode: bool, flagCount: nat)
    requires keyword.score == keyword'.score && flags.score == flags'.score
    ensures OverallScore(ScoreMap(keyword, experience, role, seniority, education, tooling, recency, flags),
                         weights, strictMode, flagCount)
         == OverallScore(ScoreMap(keyword', experience, role, seniority, education, tooling, recency, flags'),
                         weights, strictMode, flagCount)
  {
    var a := ScoreMap(keyword, experience, role, seniority, education, tooling, recency, flags);
    var b := ScoreMap(keyword', experience, role, seniority, education, tooling, recency, flags');
    forall c | c in AllCategories ensures c in a && c in b && a[c].score == b[c].score {
    }
    OverallSameScores(a, b, weights, strictMode, flagCount);
  }

  lemma ScoreMapInRange(keyword: CategoryScore, experience: CategoryScore, role: CategoryScore,
                        seniority: CategoryScore, education: CategoryScore, tooling: CategoryScore,
                        recency: CategoryScore, flags: CategoryScore)
    requires 0.0 <= keyword.score <= 100.0 && 0.0 <= experience.score <= 100.0
    requires 0.0 <= role.score <= 100.0 && 0.0 <= seniority.score <= 100.0
    requires 0.0 <= education.score <= 100.0 && 0.0 <= tooling.score <= 100.0
    requires 0.0 <= recency.score <= 100.0 && 0.0 <= flags.score <= 100.0
    ensures var m := ScoreMap(keyword, experience, role, seniority, education, tooling, recency, flags);
      (forall c :: c in m) && ScoresInRange(m)
  {
    var m := ScoreMap(keyword, experience, role, seniority, education, tooling, recency, flags);
    forall c ensures c in m && 0.0 <= m[c].score <= 100.0 {
      AllCategoriesComplete(c);
    }
  }

  const Version: string := "1.0.0"

  /** The result of `analyze` (lines 300-389) for given parsed experience and education and
      given extracted must-haves and nice-to-haves. */
  function AnalysisFor(resume: string, jd: string, exps: seq<Experience>, education: seq<Education>,
                       must: seq<string>, nice: seq<string>,
                       weights: map<Category, real>, strictMode: bool): (r: AnalysisResult)
    ensures r.categories == ScoresFor(resume, jd, exps, education, must, nice)
    ensures r.redFlags == RedFlagsOf(resume, exps, must)
    ensures r.overallScore == OverallScore(r.categories, weights, strictMode, |r.redFlags|)
    ensures r.matchLabel == LabelOf(r.overallScore)
    ensures Terms(r.mustHave) == must && Terms(r.niceToHave) == nice
  {
    Assemble(ScoresFor(resume, jd, exps, education, must, nice), RedFlagsOf(resume, exps, must),
             KeywordMatchesFor(resume, must, MustHave), KeywordMatchesFor(resume, nice, NiceToHave),
             ActionsFor(resume, must, nice, ScoresFor(resume, jd, exps, education, must, nice)),
             weights, strictMode)
  }

  /** The result record from its parts: the overall score is computed from the category scores
      and the number of red flags, and the label from the overall score. */
  function Assemble(scores: map<Category, CategoryScore>, flags: seq<RedFlag>,
                    mustHave: seq<KeywordMatch>, niceToHave: seq<KeywordMatch>, actions: Actions,
                    weights: map<Category, real>, strictMode: bool): (r: AnalysisResult)
    ensures r.overallScore == OverallScore(scores, weights, strictMode, |flags|)
    ensures r.matchLabel == LabelOf(r.overallScore)
    ensures r.metadata == Metadata(Version, strictMode, weights)
  {
    AnalysisResult(OverallScore(scores, weights, strictMode, |flags|),
                   LabelOf(OverallScore(scores, weights, strictMode, |flags|)),
                   scores, mustHave, niceToHave, flags, actions, Metadata(Version, strictMode, weights))
  }

  /** With the default weights the overall score lies between 0 and 100. */
  lemma AnalysisInRange(resume: string, jd: string, exps: seq<Experience>, education: seq<Education>,
                        must: seq<string>, nice: seq<string>, strictMode: bool)
    ensures var r := AnalysisFor(resume, jd, exps, education, must, nice, DefaultWeights(), strictMode);
      0.0 <= r.overallScore <= 100.0
  {
    ScoresForInRange(resume, jd, exps, education, must, nice);
    OverallInRange(ScoresFor(resume, jd, exps, education, must, nice), strictMode, |RedFlagsOf(resume, exps, must)|);
  }

  /** The overall score and label do not depend on the order in which the must-haves and
      nice-to-haves were extracted. */
  lemma AnalysisOrderIndependent(resume: string, jd: string, exps: seq<Experience>, education: seq<Education>,
                                 must: seq<string>, must': seq<string>, nice: seq<string>, nice': seq<string>,
                                 weights: map<Category, real>, strictMode: bool)
    requires NoDup(must) && NoDup(must') && Elems(must) == Elems(must')
    requires NoDup(nice) && NoDup(nice') && Elems(nice) == Elems(nice')
    ensures var r := AnalysisFor(resume, jd, exps, education, must, nice, weights, strictMode);
      var r' := AnalysisFor(resume, jd, exps, education, must', nice', weights, strictMode);
      r.overallScore == r'.overallScore && r.matchLabel == r'.matchLabel
  {
    OverallOrderIndependent(resume, jd, exps, education, must, must', nice, nice', weights, strictMode);
  }

  lemma OverallOrderIndependent(resume: string, jd: string, exps: seq<Experience>, education: seq<Education>,
                                must: seq<string>, must': seq<string>, nice: seq<string>, nice': seq<string>,
                                weights: map<Category, real>, strictMode: bool)
    requires NoDup(must) && NoDup(must') && Elems(must) == Elems(must')
    requires NoDup(nice) && NoDup(nice') && Elems(nice) == Elems(nice')
    ensures OverallScore(ScoresFor(resume, jd, exps, education, must, nice), weights, strictMode, |RedFlagsOf(resume, exps, must)|)
         == OverallScore(ScoresFor(resume, jd, exps, education, must', nice'), weights, strictMode, |RedFlagsOf(resume, exps, must')|)
  {
    ExtractionOrder(resume, exps, must, must', nice, nice');
    OverallScoreMapSame(KeywordSkillsScore(resume, must, nice), KeywordSkillsScore(resume, must', nice'),
                        ExperienceRelevanceScore(exps, jd), RoleMatchScore(exps, jd),
                        SeniorityMatchScore(TotalYears(exps), jd), EducationMatchScore(education, jd),
                        ToolingMatchScore(resume, jd), RecencyMatchScore(exps),
                        RedFlagsCategory(RedFlagsOf(resume, exps, must)), RedFlagsCategory(RedFlagsOf(resume, exps, must')),
                        weights, strictMode, |RedFlagsOf(resume, exps, must)|);
  }

  /** The two scores that read the extracted terms: the keyword score and the flag count. */
  lemma ExtractionOrder(resume: string, exps: seq<Experience>,
                        must: seq<string>, must': seq<string>, nice: seq<string>, nice': seq<string>)
    requires NoDup(must) && NoDup(must') && Elems(must) == Elems(must')
    requires NoDup(nice) && NoDup(nice') && Elems(nice) == Elems(nice')
    ensures KeywordSkillsScore(resume, must, nice).score == KeywordSkillsScore(resume, must', nice').score
    ensures |RedFlagsOf(resume, exps, must)| == |RedFlagsOf(resume, exps, must')|
    ensures RedFlagsCategory(RedFlagsOf(resume, exps, must)).score == RedFlagsCategory(RedFlagsOf(resume, exps, must')).score
  {
    RedFlagsCountOrder(resume, exps, must, must');
    KeywordSkillsOrder(resume, must, must', nice, nice');
    FlagsScoreByCount(RedFlagsOf(resume, exps, must), RedFlagsOf(resume, exps, must'));
  }

  /** The red-flags score depends only on how many flags were raised. */
  lemma FlagsScoreByCount(flags: seq<RedFlag>, flags': seq<RedFlag>)
    requires |flags| == |flags'|
    ensures RedFlagsCategory(flags).score == RedFlagsCategory(flags').score
  {
  }
}
