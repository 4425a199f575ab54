/** What each of the seven category scorers of `ScoringEngine` computes
    (backend/app/scoring_engine.py:391-648), as functions of their inputs, and what is proved
    about them. The engine's methods are proved to compute exactly these. */
module Scoring {
  import opened Strings
  import opened TextPreprocessor
  import opened KeywordExtractor
  import opened ResumeParser
  import opened Results

  /** Context words around a snippet: `find_snippet`'s default. */
  const SnippetContext: nat := 10

  // ---------------------------------------------------------------- mentions

  /** `kw.lower() in text.lower()`. */
  predicate Mentions(text: string, kw: string) { Contains(Lower(text), Lower(kw)) }

  predicate AllMentioned(terms: seq<string>, text: string)
  {
    forall i :: 0 <= i < |terms| ==> Mentions(text, terms[i])
  }

  lemma AllMentionedElems(terms: seq<string>, text: string)
    ensures AllMentioned(terms, text) <==> forall x :: x in Elems(terms) ==> Mentions(text, x)
  {
    if AllMentioned(terms, text) {
      forall x | x in Elems(terms) ensures Mentions(text, x) {
        var i :| 0 <= i < |terms| && terms[i] == x;
      }
    }
    if forall x :: x in Elems(terms) ==> Mentions(text, x) {
      forall i | 0 <= i < |terms| ensures Mentions(text, terms[i]) {
        assert terms[i] in Elems(terms);
      }
    }
  }

  /** `sum(1 for kw in terms if kw.lower() in text.lower())`. */
  function CountMentioned(terms: seq<string>, text: string): (n: nat)
    ensures n <= |terms|
  {
    if terms == [] then 0
    else CountMentioned(terms[..|terms| - 1], text) + (if Mentions(text, terms[|terms| - 1]) then 1 else 0)
  }

  /** `[kw for kw in terms if kw.lower() not in text.lower()]`. */
  function Absent(terms: seq<string>, text: string): (r: seq<string>)
    ensures forall x :: x in r <==> x in terms && !Mentions(text, x)
    ensures |r| + CountMentioned(terms, text) == |terms|
  {
    if terms == [] then []
    else
      var last := terms[|terms| - 1];
      assert forall x :: x in terms <==> x in terms[..|terms| - 1] || x == last;
      Absent(terms[..|terms| - 1], text) + (if Mentions(text, last) then [] else [last])
  }

  /** Every term is mentioned exactly when all of them are counted. */
  lemma {:induction false} CountAllMentioned(terms: seq<string>, text: string)
    ensures CountMentioned(terms, text) == |terms| <==> AllMentioned(terms, text)
  {
    if terms != [] {
      var init := terms[..|terms| - 1];
      CountAllMentioned(init, text);
      assert forall i :: 0 <= i < |init| ==> init[i] == terms[i];
    }
  }

  function MentionedSet(terms: set<string>, text: string): set<string>
  {
    set x | x in terms && Mentions(text, x)
  }

  /** For a list without repeats the count depends only on its elements, not their order. */
  lemma {:induction false} CountMentionedCard(terms: seq<string>, text: string)
    requires NoDup(terms)
    ensures CountMentioned(terms, text) == |MentionedSet(Elems(terms), text)|
  {
    if terms != [] {
      var init := terms[..|terms| - 1];
      var last := terms[|terms| - 1];
      assert NoDup(init);
      CountMentionedCard(init, text);
      assert Elems(terms) == Elems(init) + {last};
      assert last !in Elems(init);
      if Mentions(text, last) {
        assert MentionedSet(Elems(terms), text) == MentionedSet(Elems(init), text) + {last};
      } else {
        assert MentionedSet(Elems(terms), text) == MentionedSet(Elems(init), text);
      }
    }
  }

  lemma CountMentionedOrder(a: seq<string>, b: seq<string>, text: string)
    requires NoDup(a) && NoDup(b) && Elems(a) == Elems(b)
    ensures CountMentioned(a, text) == CountMentioned(b, text)
  {
    CountMentionedCard(a, text);
    CountMentionedCard(b, text);
  }

  /** `n / d` for a count out of a non-zero total. */
  function Fraction(n: nat, d: nat): (f: real)
    requires n <= d && d >= 1
    ensures 0.0 <= f <= 1.0
    ensures f == 1.0 <==> n == d
    ensures f == 0.0 <==> n == 0
  {
    var f := n as real / d as real;
    assert f * d as real == n as real;
    f
  }

  // ---------------------------------------------------------------- A. keyword skills

  /** One evidence line per mentioned must-have, in order, with its snippet. */
  function KeywordEvidence(resume: string, must: seq<string>): (ev: seq<Evidence>)
    ensures |ev| == CountMentioned(must, resume)
    ensures forall e :: e in ev ==>
      e.KeywordFound? && e.term in must && Mentions(resume, e.term)
      && |e.snippet| >= 6 && e.snippet[..3] == "..."
  {
    if must == [] then []
    else
      var last := must[|must| - 1];
      KeywordEvidence(resume, must[..|must| - 1])
      + (if Mentions(resume, last) then [KeywordFound(last, FindSnippet(resume, last, SnippetContext))] else [])
  }

  /** `_score_keyword_skills` (lines 391-429). */
  function KeywordSkillsScore(resume: string, must: seq<string>, nice: seq<string>): (s: CategoryScore)
    ensures 0.0 <= s.score <= 100.0
    ensures must != [] && nice == [] ==> s.score <= 70.0
    ensures s.details.KeywordDetails? && s.details.matchedMust == |s.evidence|
  {
    var matchedMust := CountMentioned(must, resume);
    var matchedNice := CountMentioned(nice, resume);
    var totalMust := if must == [] then 1 else |must|;
    var totalNice := if nice == [] then 1 else |nice|;
    var raw := if must != [] then Fraction(matchedMust, totalMust) * 70.0 + Fraction(matchedNice, totalNice) * 30.0
               else Fraction(matchedNice, totalNice) * 100.0;
    CategoryScore(MinReal(100.0, MaxReal(0.0, raw)),
                  KeywordDetails(matchedMust, totalMust, matchedNice, totalNice),
                  KeywordEvidence(resume, must))
  }

  /** The score is full exactly when there are nice-to-haves and every must-have and
      nice-to-have is mentioned: with no nice-to-haves the must-haves earn at most 70. */
  lemma KeywordSkillsFull(resume: string, must: seq<string>, nice: seq<string>)
    ensures KeywordSkillsScore(resume, must, nice).score == 100.0
      <==> nice != [] && AllMentioned(must, resume) && AllMentioned(nice, resume)
  {
    CountAllMentioned(must, resume);
    CountAllMentioned(nice, resume);
  }

  /** The score depends on which terms were extracted, not on the order of the lists. */
  lemma KeywordSkillsOrder(resume: string, must: seq<string>, must': seq<string>, nice: seq<string>, nice': seq<string>)
    requires NoDup(must) && NoDup(must') && Elems(must) == Elems(must')
    requires NoDup(nice) && NoDup(nice') && Elems(nice) == Elems(nice')
    ensures KeywordSkillsScore(resume, must, nice).score == KeywordSkillsScore(resume, must', nice').score
  {
    CountMentionedOrder(must, must', resume);
    CountMentionedOrder(nice, nice', resume);
    NoDupCard(must);
    NoDupCard(must');
    NoDupCard(nice);
    NoDupCard(nice');
  }

  // ---------------------------------------------------------------- B. experience relevance

  /** 1.0 within three years, 0.7 within seven, 0.4 beyond. */
  function RecencyWeight(recency: int): (w: real)
    ensures 0.4 <= w <= 1.0
  {
    if recency <= 3 then 1.0 else if recency <= 7 then 0.7 else 0.4
  }

  /** An older role never weighs more than a more recent one. */
  lemma RecencyWeightMonotone(a: int, b: int)
    requires a <= b
    ensures RecencyWeight(b) <= RecencyWeight(a)
  {
  }

  /** The text a role is searched in: its description, a space and its title. */
  function RoleText(e: Experience): string { e.description + " " + e.title }

  /** The role keywords of the job description followed by the whole tool lexicon. */
  function RelevanceKeywords(jd: string): seq<string>
  {
    Present(RoleVocabulary, Preprocess(jd)) + Lexicon
  }

  /** One role's relevance: the share of keywords its text mentions, weighted by recency. */
  function Relevance(e: Experience, keywords: seq<string>): (r: real)
    ensures 0.0 <= r <= 1.0
    ensures r == 0.0 <==> CountMentioned(keywords, RoleText(e)) == 0
  {
    Fraction(CountMentioned(keywords, RoleText(e)), Max(|keywords|, 1)) * RecencyWeight(e.recency)
  }

  predicate NoneRelevant(exps: seq<Experience>, keywords: seq<string>)
  {
    forall i :: 0 <= i < |exps| ==> CountMentioned(keywords, RoleText(exps[i])) == 0
  }

  /** The summed relevance of the roles. */
  function RelevanceTotal(exps: seq<Experience>, keywords: seq<string>): (t: real)
    ensures 0.0 <= t <= |exps| as real
    ensures t == 0.0 <==> NoneRelevant(exps, keywords)
  {
    if exps == [] then 0.0
    else
      var init := exps[..|exps| - 1];
      assert forall i :: 0 <= i < |init| ==> init[i] == exps[i];
      RelevanceTotal(init, keywords) + Relevance(exps[|exps| - 1], keywords)
  }

  /** One evidence line per role that mentions a keyword. */
  function RelevanceEvidence(exps: seq<Experience>, keywords: seq<string>): (ev: seq<Evidence>)
    ensures ev == [] <==> NoneRelevant(exps, keywords)
    ensures forall e :: e in ev ==> e.RelevantRole? && e.matches > 0
  {
    if exps == [] then []
    else
      var init := exps[..|exps| - 1];
      var e := exps[|exps| - 1];
      var matches := CountMentioned(keywords, RoleText(e));
      assert forall i :: 0 <= i < |init| ==> init[i] == exps[i];
      RelevanceEvidence(init, keywords)
      + (if matches > 0 then [RelevantRole(e.title, e.startYear, e.endYear, matches)] else [])
  }

  /** `len([e for e in experiences if e['recency'] <= 3])`. */
  function CountRecent(exps: seq<Experience>): (n: nat)
    ensures n <= |exps|
  {
    if exps == [] then 0
    else CountRecent(exps[..|exps| - 1]) + (if exps[|exps| - 1].recency <= 3 then 1 else 0)
  }

  /** `total / n` for a total of `n` values each between 0 and 1. */
  function Mean(total: real, n: nat): (m: real)
    requires n >= 1 && 0.0 <= total <= n as real
    ensures 0.0 <= m <= 1.0
    ensures m == 0.0 <==> total == 0.0
  {
    var m := total / n as real;
    assert m * n as real == total;
    m
  }

  /** `_score_experience_relevance` (lines 431-478). */
  function ExperienceRelevanceScore(exps: seq<Experience>, jd: string): (s: CategoryScore)
    ensures exps == [] ==> s == CategoryScore(0.0, NoExperienceFound, [])
    ensures 0.0 <= s.score <= 100.0
    ensures exps != [] ==> (s.score == 0.0 <==> s.evidence == [])
  {
    if exps == [] then CategoryScore(0.0, NoExperienceFound, [])
    else
      var keywords := RelevanceKeywords(jd);
      var mean := Mean(RelevanceTotal(exps, keywords), |exps|);
      CategoryScore(MinReal(100.0, mean * 100.0), RelevanceDetails(CountRecent(exps)),
                    RelevanceEvidence(exps, keywords))
  }

  // ---------------------------------------------------------------- C. role match

  const AdjacentMarkers: seq<string> := ["engineer", "developer", "analyst", "lead"]

  /** The first line of the job description, lower-cased. */
  function TargetRole(jd: string): string { Lower(Split(jd, '\n')[0]) }

  function Roles(exps: seq<Experience>): (roles: seq<string>)
    ensures |roles| == |exps| && forall i :: 0 <= i < |exps| ==> roles[i] == Lower(exps[i].title)
  {
    seq(|exps|, i requires 0 <= i < |exps| => Lower(exps[i].title))
  }

  /** A title inside the target line, or the target line inside a title. */
  predicate IsExactRole(role: string, target: string) { Contains(target, role) || Contains(role, target) }

  predicate AdjacentRoleTitle(role: string) { AnyContained(role, AdjacentMarkers) }

  predicate AnyExact(roles: seq<string>, target: string)
  {
    exists i :: 0 <= i < |roles| && IsExactRole(roles[i], target)
  }

  predicate AnyAdjacent(roles: seq<string>)
  {
    exists i :: 0 <= i < |roles| && AdjacentRoleTitle(roles[i])
  }

  /** The score the loop holds after the given roles, from 0: 95 on an exact match, at least
      70 on an adjacent title. */
  function RoleLoopScore(roles: seq<string>, target: string): (score: real)
    ensures AnyExact(roles, target) ==> score == 95.0
    ensures !AnyExact(roles, target) && AnyAdjacent(roles) ==> score == 70.0
    ensures !AnyExact(roles, target) && !AnyAdjacent(roles) ==> score == 0.0
  {
    if roles == [] then 0.0
    else
      var init := roles[..|roles| - 1];
      var role := roles[|roles| - 1];
      var before := RoleLoopScore(init, target);
      assert forall i :: 0 <= i < |init| ==> init[i] == roles[i];
      if IsExactRole(role, target) then 95.0
      else if AdjacentRoleTitle(role) then MaxReal(before, 70.0)
      else before
  }

  /** The evidence lines of the loop: one per exact or adjacent title. */
  function RoleEvidence(roles: seq<string>, target: string): (ev: seq<Evidence>)
    ensures ev == [] <==> !AnyExact(roles, target) && !AnyAdjacent(roles)
  {
    if roles == [] then []
    else
      var init := roles[..|roles| - 1];
      var role := roles[|roles| - 1];
      assert forall i :: 0 <= i < |init| ==> init[i] == roles[i];
      RoleEvidence(init, target)
      + (if IsExactRole(role, target) then [ExactRole(role)]
         else if AdjacentRoleTitle(role) then [AdjacentRole(role)]
         else [])
  }

  /** `_score_role_match` (lines 480-514). */
  function RoleMatchScore(exps: seq<Experience>, jd: string): (s: CategoryScore)
    ensures s.details == RoleDetails(Roles(exps))
    ensures s.evidence != []
    ensures 20.0 <= s.score <= 95.0
  {
    var roles := Roles(exps);
    var evidence := RoleEvidence(roles, TargetRole(jd));
    if evidence == [] then CategoryScore(20.0, RoleDetails(roles), [LimitedRoleOverlap])
    else CategoryScore(RoleLoopScore(roles, TargetRole(jd)), RoleDetails(roles), evidence)
  }

  /** 95 with an exact title, otherwise 70 with an adjacent title, otherwise 20. */
  lemma RoleMatchLevels(exps: seq<Experience>, jd: string)
    ensures var s := RoleMatchScore(exps, jd).score;
      var roles := Roles(exps);
      && (s == 95.0 <==> AnyExact(roles, TargetRole(jd)))
      && (s == 70.0 <==> !AnyExact(roles, TargetRole(jd)) && AnyAdjacent(roles))
      && (s == 20.0 <==> !AnyExact(roles, TargetRole(jd)) && !AnyAdjacent(roles))
  {
  }

  /** With no work history the role score is 20. */
  lemma RoleMatchWithoutExperience(jd: string)
    ensures RoleMatchScore([], jd).score == 20.0
  {
  }

  // ---------------------------------------------------------------- D. seniority

  /** The score for `total` years of experience against `required` (lines 531-548): 90 and up
      when the requirement is met, 55 one year short, 20 or less further below. */
  function SeniorityValue(total: int, required: nat): (v: int)
    ensures 0 <= v <= 100
    ensures v >= 90 <==> total >= required
    ensures total == required - 1 ==> v == 55
    ensures total <= required - 2 ==> v <= 20
    ensures total <= required - 3 ==> v == 0
  {
    var gap := total - required;
    var score := if gap >= 0 then Min(100, 90 + gap * 2)
                 else if gap >= -1 then 70 + gap * 15
                 else Max(0, 60 + gap * 20);
    Max(0, Min(100, score))
  }

  /** More years never lower the seniority score. */
  lemma SeniorityMonotone(a: int, b: int, required: nat)
    requires a <= b
    ensures SeniorityValue(a, required) <= SeniorityValue(b, required)
  {
  }

  /** `_score_seniority_match` (lines 516-550): 50 when the job description states no years. */
  function SeniorityMatchScore(totalYears: int, jd: string): (s: CategoryScore)
    ensures ExtractYearsRequired(jd).None? ==> s == CategoryScore(50.0, YearsUnknown, [RequirementUnknown])
    ensures 0.0 <= s.score <= 100.0
  {
    SeniorityFrom(totalYears, ExtractYearsRequired(jd))
  }

  /** The seniority score given the requirement already read from the job description. */
  function SeniorityFrom(totalYears: int, requirement: Option<nat>): CategoryScore
  {
    match requirement
    case None => CategoryScore(50.0, YearsUnknown, [RequirementUnknown])
    case Some(required) =>
      CategoryScore(SeniorityValue(totalYears, required) as real,
                    SeniorityDetails(totalYears, required, totalYears - required),
                    [YearsCompared(totalYears, required)])
  }

  lemma SeniorityFromSome(totalYears: int, required: nat)
    ensures var s := SeniorityFrom(totalYears, Some(required));
      && s.details == SeniorityDetails(totalYears, required, totalYears - required)
      && (s.score >= 90.0 <==> totalYears >= required)
  {
    var v := SeniorityValue(totalYears, required);
    assert v as real >= 90.0 <==> v >= 90;
  }

  /** With a stated requirement the score is 90 or more exactly when it is met. */
  lemma SeniorityCompared(totalYears: int, jd: string, required: nat)
    requires ExtractYearsRequired(jd) == Some(required)
    ensures var s := SeniorityMatchScore(totalYears, jd);
      && s.details == SeniorityDetails(totalYears, required, totalYears - required)
      && (s.score >= 90.0 <==> totalYears >= required)
  {
    SeniorityFromSome(totalYears, required);
  }

  // ---------------------------------------------------------------- E. education

  /** `set(e['type'] for e in education)`. */
  function FoundDegrees(education: seq<Education>): set<string>
  {
    set e | e in education :: e.kind
  }

  /** `any(req in found for found in found_degrees)`. */
  predicate Satisfied(req: string, found: set<string>)
  {
    exists f :: f in found && Contains(f, req)
  }

  predicate AllSatisfied(required: seq<string>, found: set<string>)
  {
    forall i :: 0 <= i < |required| ==> Satisfied(required[i], found)
  }

  function CountSatisfied(required: seq<string>, found: set<string>): (n: nat)
    ensures n <= |required|
  {
    if required == [] then 0
    else CountSatisfied(required[..|required| - 1], found) + (if Satisfied(required[|required| - 1], found) then 1 else 0)
  }

  lemma {:induction false} CountAllSatisfied(required: seq<string>, found: set<string>)
    ensures CountSatisfied(required, found) == |required| <==> AllSatisfied(required, found)
  {
    if required != [] {
      var init := required[..|required| - 1];
      CountAllSatisfied(init, found);
      assert forall i :: 0 <= i < |init| ==> init[i] == required[i];
    }
  }

  /** The degree words of the job description (`extract_degree_requirements`). */
  function RequiredDegrees(jd: string): seq<string>
  {
    Present(DegreeVocabulary, Preprocess(jd))
  }

  /** `_score_education_match` (lines 552-588). */
  function EducationMatchScore(education: seq<Education>, jd: string): (s: CategoryScore)
    ensures RequiredDegrees(jd) == [] ==> s == CategoryScore(75.0, NoDegreeRequirement, [NoDegreeInJd])
    ensures RequiredDegrees(jd) != [] && education == [] ==>
      s == CategoryScore(30.0, MissingEducation, [NoEducationInResume])
    ensures 0.0 <= s.score <= 100.0
  {
    var required := RequiredDegrees(jd);
    if required == [] then CategoryScore(75.0, NoDegreeRequirement, [NoDegreeInJd])
    else if education == [] then CategoryScore(30.0, MissingEducation, [NoEducationInResume])
    else
      var found := FoundDegrees(education);
      CategoryScore(Fraction(CountSatisfied(required, found), |required|) * 100.0,
                    EducationDetails(found, required), [DegreesFound(found)])
  }

  /** With a requirement and some education, the score is full exactly when every required
      word occurs in a degree found. */
  lemma EducationFull(education: seq<Education>, jd: string)
    requires RequiredDegrees(jd) != [] && education != []
    ensures EducationMatchScore(education, jd).score == 100.0
      <==> AllSatisfied(RequiredDegrees(jd), FoundDegrees(education))
  {
    CountAllSatisfied(RequiredDegrees(jd), FoundDegrees(education));
  }

  /** A needle's character that the hay lacks rules the needle out. */
  lemma MissingChar(hay: string, needle: string, c: char)
    requires c in needle && c !in hay
    ensures !Contains(hay, needle)
  {
    if Contains(hay, needle) {
      ContainsChars(hay, needle);
    }
  }

  lemma VocabularyLacksGN(f: string)
    requires f in EducationVocabulary
    ensures 'g' !in f && 'n' !in f
  {
    assert f == "bachelor" || f == "master" || f == "phd" || f == "certificate";
  }

  /** The parser only records bachelor, master, phd and certificate, so the required words
      "degree" (no `g` in any of them) and "certification" (no `n`) are never satisfied. */
  lemma DegreeWordsUnsatisfiable(education: seq<Education>)
    requires forall e :: e in education ==> e.kind in EducationVocabulary
    ensures !Satisfied("degree", FoundDegrees(education))
    ensures !Satisfied("certification", FoundDegrees(education))
  {
    forall f | f in FoundDegrees(education)
      ensures !Contains(f, "degree") && !Contains(f, "certification")
    {
      VocabularyLacksGN(f);
      assert "degree"[2] == 'g' && "certification"[12] == 'n';
      MissingChar(f, "degree", 'g');
      MissingChar(f, "certification", 'n');
    }
  }

  /** So a job description asking for a "degree" caps the education score below 100 for
      every resume the parser reads. */
  lemma DegreeCapsEducation(education: seq<Education>, jd: string)
    requires forall e :: e in education ==> e.kind in EducationVocabulary
    requires education != [] && "degree" in RequiredDegrees(jd)
    ensures EducationMatchScore(education, jd).score < 100.0
  {
    DegreeWordsUnsatisfiable(education);
    EducationFull(education, jd);
  }

  // ---------------------------------------------------------------- F. tooling

  /** The lexicon terms occurring in the lower-cased text, in lexicon order. */
  function ToolsIn(text: string): seq<string>
  {
    Present(Lexicon, Lower(text))
  }

  /** `sum(1 for tool in tools if tool in others)`. */
  function CountIn(tools: seq<string>, others: seq<string>): (n: nat)
    ensures n <= |tools|
  {
    if tools == [] then 0
    else CountIn(tools[..|tools| - 1], others) + (if tools[|tools| - 1] in others then 1 else 0)
  }

  lemma {:induction false} CountAllIn(tools: seq<string>, others: seq<string>)
    ensures CountIn(tools, others) == |tools| <==> forall i :: 0 <= i < |tools| ==> tools[i] in others
  {
    if tools != [] {
      var init := tools[..|tools| - 1];
      CountAllIn(init, others);
      assert forall i :: 0 <= i < |init| ==> init[i] == tools[i];
    }
  }

  /** `_score_tooling_match` (lines 590-630). */
  function ToolingMatchScore(resume: string, jd: string): (s: CategoryScore)
    ensures ToolsIn(jd) == [] ==> s == CategoryScore(50.0, NoToolsInJd, [NoToolsNamed])
    ensures 0.0 <= s.score <= 100.0
  {
    var jdTools := ToolsIn(jd);
    if jdTools == [] then CategoryScore(50.0, NoToolsInJd, [NoToolsNamed])
    else
      var matched := CountIn(jdTools, ToolsIn(resume));
      CategoryScore(Fraction(matched, |jdTools|) * 100.0, ToolingDetails(matched, |jdTools|),
                    [ToolsMatched(matched, |jdTools|)])
  }

  /** When the job description names tools, the score is full exactly when the resume names
      every one of them. */
  lemma ToolingFull(resume: string, jd: string)
    requires ToolsIn(jd) != []
    ensures ToolingMatchScore(resume, jd).score == 100.0
      <==> forall t :: t in Lexicon && Contains(Lower(jd), t) ==> Contains(Lower(resume), t)
  {
    var jdTools := ToolsIn(jd);
    CountAllIn(jdTools, ToolsIn(resume));
    if forall t :: t in Lexicon && Contains(Lower(jd), t) ==> Contains(Lower(resume), t) {
      forall i | 0 <= i < |jdTools| ensures jdTools[i] in ToolsIn(resume) {
        assert jdTools[i] in jdTools;
      }
    }
  }

  // ---------------------------------------------------------------- G. recency

  lemma {:induction false} CountAllRecent(exps: seq<Experience>)
    ensures CountRecent(exps) == |exps| <==> forall i :: 0 <= i < |exps| ==> exps[i].recency <= 3
  {
    if exps != [] {
      var init := exps[..|exps| - 1];
      CountAllRecent(init);
      assert forall i :: 0 <= i < |init| ==> init[i] == exps[i];
    }
  }

  /** `_score_recency_match` (lines 632-650). */
  function RecencyMatchScore(exps: seq<Experience>): (s: CategoryScore)
    ensures exps == [] ==> s == CategoryScore(0.0, NoExperience, [])
    ensures 0.0 <= s.score <= 100.0
    ensures exps != [] ==> s.details == RecencyDetails(CountRecent(exps))
  {
    if exps == [] then CategoryScore(0.0, NoExperience, [])
    else
      var recent := CountRecent(exps);
      CategoryScore(Fraction(recent, |exps|) * 100.0, RecencyDetails(recent), [RecentRoles(recent)])
  }

  /** With some history, the score is full exactly when every role ended within three years. */
  lemma RecencyFull(exps: seq<Experience>)
    requires exps != []
    ensures RecencyMatchScore(exps).score == 100.0 <==> forall i :: 0 <= i < |exps| ==> exps[i].recency <= 3
  {
    CountAllRecent(exps);
  }
}
