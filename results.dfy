/** The engine's result records (backend/app/scoring_engine.py:17-44) and `to_dict`
    (backend/app/scoring_engine.py:774-808). Evidence lines and red flags, which the source
    formats as text, are kept as tagged values carrying the numbers and terms the text shows. */
module Results {
  import opened Strings

  /** The eight score categories, in the order `analyze` fills its score dictionary. */
  datatype Category =
    | KeywordSkills
    | ExperienceRelevance
    | RoleMatch
    | SeniorityMatch
    | EducationMatch
    | ToolingStackMatch
    | RecencyMatch
    | RedFlags

  const AllCategories: seq<Category> := [
    KeywordSkills, ExperienceRelevance, RoleMatch, SeniorityMatch,
    EducationMatch, ToolingStackMatch, RecencyMatch, RedFlags]

  lemma AllCategoriesComplete(c: Category)
    ensures c in AllCategories
  {
  }

  /** The dictionary key of each category. */
  function CategoryKey(c: Category): string
  {
    match c
    case KeywordSkills => "keyword_skills"
    case ExperienceRelevance => "experience_relevance"
    case RoleMatch => "role_match"
    case SeniorityMatch => "seniority_match"
    case EducationMatch => "education_match"
    case ToolingStackMatch => "tooling_stack_match"
    case RecencyMatch => "recency_match"
    case RedFlags => "red_flags"
  }

  /** The `details` dictionary of a category score, one variant per shape the scorers build. */
  datatype Details =
    | KeywordDetails(matchedMust: nat, totalMust: nat, matchedNice: nat, totalNice: nat)
    | NoExperienceFound
    | RelevanceDetails(relevantExperiences: nat)
    | RoleDetails(resumeRoles: seq<string>)
    | YearsUnknown
    | SeniorityDetails(resumeYears: int, requiredYears: nat, gap: int)
    | NoDegreeRequirement
    | MissingEducation
    | EducationDetails(foundDegrees: set<string>, requiredDegrees: seq<string>)
    | NoToolsInJd
    | ToolingDetails(matchedTools: nat, requiredTools: nat)
    | NoExperience
    | RecencyDetails(recentExperienceCount: nat)
    | FlagDetails(flagsCount: nat)

  /** One red flag, in place of its sentence. */
  datatype RedFlag =
    | MissingMustHaves(count: nat, examples: seq<string>)
    | JobHopping(shortJobs: nat)
    | EmploymentGap(gap: int, fromYear: int, toYear: int)
    | WeakClaim(phrase: string)

  /** One evidence line, in place of its sentence. */
  datatype Evidence =
    | KeywordFound(term: string, snippet: string)
    | RelevantRole(title: string, startYear: int, endYear: int, matches: nat)
    | ExactRole(role: string)
    | AdjacentRole(role: string)
    | LimitedRoleOverlap
    | RequirementUnknown
    | YearsCompared(resumeYears: int, requiredYears: nat)
    | NoDegreeInJd
    | NoEducationInResume
    | DegreesFound(found: set<string>)
    | NoToolsNamed
    | ToolsMatched(matched: nat, required: nat)
    | RecentRoles(count: nat)
    | Flagged(flag: RedFlag)

  datatype CategoryScore = CategoryScore(score: real, details: Details, evidence: seq<Evidence>)

  /** The `category` field of a keyword match: 'must-have' or 'nice-to-have'. */
  datatype MatchKind = MustHave | NiceToHave

  function KindName(k: MatchKind): string
  {
    match k
    case MustHave => "must-have"
    case NiceToHave => "nice-to-have"
  }

  datatype KeywordMatch = KeywordMatch(term: string, matched: bool, evidence: string, kind: MatchKind)

  datatype Label = StrongMatch | MediumMatch | WeakMatch

  function LabelName(l: Label): string
  {
    match l
    case StrongMatch => "STRONG_MATCH"
    case MediumMatch => "MEDIUM_MATCH"
    case WeakMatch => "WEAK_MATCH"
  }

  /** One line of `good_fit_summary`. */
  datatype GoodFit = StrongKeywords | RelevantExperience | MatchingRole

  /** One line of `resume_tailoring_suggestions`. */
  datatype Suggestion = AddNiceToHaves(terms: seq<string>) | HighlightAchievements

  /** The actions dictionary; `gaps` holds the missing terms its lines name. */
  datatype Actions = Actions(
    goodFitSummary: seq<GoodFit>,
    gaps: seq<string>,
    tailoringSuggestions: seq<Suggestion>,
    atsKeywordsToAdd: seq<string>)

  /** The metadata dictionary without its timestamp. */
  datatype Metadata = Metadata(version: string, strictMode: bool, weights: map<Category, real>)

  datatype AnalysisResult = AnalysisResult(
    overallScore: real,
    matchLabel: Label,
    categories: map<Category, CategoryScore>,
    mustHave: seq<KeywordMatch>,
    niceToHave: seq<KeywordMatch>,
    redFlags: seq<RedFlag>,
    actions: Actions,
    metadata: Metadata)

  // ---------------------------------------------------------------- to_dict

  /** A plain dictionary value. The parts `to_dict` copies over as they are (details,
      evidence, red flags, actions, metadata) stay whole values. */
  datatype Value =
    | Number(x: real)
    | Boolean(b: bool)
    | Text(s: string)
    | List(items: seq<Value>)
    | Object(fields: seq<Field>)
    | DetailsValue(details: Details)
    | EvidenceValue(evidence: seq<Evidence>)
    | FlagsValue(flags: seq<RedFlag>)
    | ActionsValue(actions: Actions)
    | MetadataValue(metadata: Metadata)

  datatype Field = Field(key: string, value: Value)

  function ScoreValue(s: CategoryScore): Value
  {
    Object([Field("score", Number(s.score)), Field("details", DetailsValue(s.details)),
            Field("evidence", EvidenceValue(s.evidence))])
  }

  /** The `categories` entries, in category order. */
  function CategoryFields(m: map<Category, CategoryScore>, cs: seq<Category>): (fs: seq<Field>)
    ensures |fs| <= |cs|
  {
    if cs == [] then []
    else
      var rest := CategoryFields(m, cs[1..]);
      if cs[0] in m then [Field(CategoryKey(cs[0]), ScoreValue(m[cs[0]]))] + rest else rest
  }

  function MatchValue(k: KeywordMatch): Value
  {
    Object([Field("term", Text(k.term)), Field("matched", Boolean(k.matched)),
            Field("evidence", Text(k.evidence)), Field("category", Text(KindName(k.kind)))])
  }

  function MatchValues(ks: seq<KeywordMatch>): (vs: seq<Value>)
    ensures |vs| == |ks| && forall i :: 0 <= i < |ks| ==> vs[i] == MatchValue(ks[i])
  {
    seq(|ks|, i requires 0 <= i < |ks| => MatchValue(ks[i]))
  }

  /** The top-level keys of `to_dict`, in order. */
  const DictKeys: seq<string> :=
    ["overall_score", "label", "categories", "must_have", "nice_to_have", "red_flags", "actions", "metadata"]

  /** `to_dict` (lines 774-808). */
  function ToDict(r: AnalysisResult): (v: Value)
    ensures v.Object? && |v.fields| == 8
    ensures forall i :: 0 <= i < 8 ==> v.fields[i].key == DictKeys[i]
  {
    Object([
      Field("overall_score", Number(r.overallScore)),
      Field("label", Text(LabelName(r.matchLabel))),
      Field("categories", Object(CategoryFields(r.categories, AllCategories))),
      Field("must_have", List(MatchValues(r.mustHave))),
      Field("nice_to_have", List(MatchValues(r.niceToHave))),
      Field("red_flags", FlagsValue(r.redFlags)),
      Field("actions", ActionsValue(r.actions)),
      Field("metadata", MetadataValue(r.metadata))])
  }

  // ---------------------------------------------------------------- reading a dictionary back

  function ParseLabel(s: string): Option<Label>
  {
    if s == "STRONG_MATCH" then Some(StrongMatch)
    else if s == "MEDIUM_MATCH" then Some(MediumMatch)
    else if s == "WEAK_MATCH" then Some(WeakMatch)
    else None
  }

  function ParseKind(s: string): Option<MatchKind>
  {
    if s == "must-have" then Some(MustHave) else if s == "nice-to-have" then Some(NiceToHave) else None
  }

  function ParseCategory(key: string): Option<Category>
  {
    if key == "keyword_skills" then Some(KeywordSkills)
    else if key == "experience_relevance" then Some(ExperienceRelevance)
    else if key == "role_match" then Some(RoleMatch)
    else if key == "seniority_match" then Some(SeniorityMatch)
    else if key == "education_match" then Some(EducationMatch)
    else if key == "tooling_stack_match" then Some(ToolingStackMatch)
    else if key == "recency_match" then Some(RecencyMatch)
    else if key == "red_flags" then Some(RedFlags)
    else None
  }

  function ParseScore(v: Value): Option<CategoryScore>
  {
    if v.Object? && |v.fields| == 3
      && v.fields[0].key == "score" && v.fields[0].value.Number?
      && v.fields[1].key == "details" && v.fields[1].value.DetailsValue?
      && v.fields[2].key == "evidence" && v.fields[2].value.EvidenceValue?
    then Some(CategoryScore(v.fields[0].value.x, v.fields[1].value.details, v.fields[2].value.evidence))
    else None
  }

  function ParseCategories(fs: seq<Field>): Option<map<Category, CategoryScore>>
  {
    if fs == [] then Some(map[])
    else
      match (ParseCategory(fs[0].key), ParseScore(fs[0].value), ParseCategories(fs[1..]))
      case (Some(c), Some(s), Some(m)) => Some(m[c := s])
      case _ => None
  }

  function ParseMatch(v: Value): Option<KeywordMatch>
  {
    if v.Object? && |v.fields| == 4
      && v.fields[0].key == "term" && v.fields[0].value.Text?
      && v.fields[1].key == "matched" && v.fields[1].value.Boolean?
      && v.fields[2].key == "evidence" && v.fields[2].value.Text?
      && v.fields[3].key == "category" && v.fields[3].value.Text?
      && ParseKind(v.fields[3].value.s).Some?
    then Some(KeywordMatch(v.fields[0].value.s, v.fields[1].value.b, v.fields[2].value.s,
                           ParseKind(v.fields[3].value.s).value))
    else None
  }

  function ParseMatches(vs: seq<Value>): Option<seq<KeywordMatch>>
  {
    if vs == [] then Some([])
    else
      match (ParseMatch(vs[0]), ParseMatches(vs[1..]))
      case (Some(k), Some(ks)) => Some([k] + ks)
      case _ => None
  }

  /** Reads a dictionary of the shape `to_dict` produces back into a result. */
  function FromDict(v: Value): Option<AnalysisResult>
  {
    if !(v.Object? && |v.fields| == 8) then None
    else
      var f := v.fields;
      if f[0].key == "overall_score" && f[0].value.Number?
        && f[1].key == "label" && f[1].value.Text? && ParseLabel(f[1].value.s).Some?
        && f[2].key == "categories" && f[2].value.Object? && ParseCategories(f[2].value.fields).Some?
        && f[3].key == "must_have" && f[3].value.List? && ParseMatches(f[3].value.items).Some?
        && f[4].key == "nice_to_have" && f[4].value.List? && ParseMatches(f[4].value.items).Some?
        && f[5].key == "red_flags" && f[5].value.FlagsValue?
        && f[6].key == "actions" && f[6].value.ActionsValue?
        && f[7].key == "metadata" && f[7].value.MetadataValue?
      then
        Some(AnalysisResult(
          f[0].value.x, ParseLabel(f[1].value.s).value, ParseCategories(f[2].value.fields).value,
          ParseMatches(f[3].value.items).value, ParseMatches(f[4].value.items).value,
          f[5].value.flags, f[6].value.actions, f[7].value.metadata))
      else None
  }

  // ---------------------------------------------------------------- to_dict loses nothing

  lemma LabelRoundTrip(l: Label)
    ensures ParseLabel(LabelName(l)) == Some(l)
  {
  }

  lemma KindRoundTrip(k: MatchKind)
    ensures ParseKind(KindName(k)) == Some(k)
  {
  }

  lemma CategoryRoundTrip(c: Category)
    ensures ParseCategory(CategoryKey(c)) == Some(c)
  {
  }

  lemma {:induction false} MatchesRoundTrip(ks: seq<KeywordMatch>)
    ensures ParseMatches(MatchValues(ks)) == Some(ks)
  {
    if ks != [] {
      KindRoundTrip(ks[0].kind);
      assert MatchValues(ks)[1..] == MatchValues(ks[1..]);
      MatchesRoundTrip(ks[1..]);
      assert [ks[0]] + ks[1..] == ks;
    }
  }

  /** The category entries of `cs`, read back, give the scores of the categories in `cs`. */
  lemma {:induction false} CategoriesRoundTrip(m: map<Category, CategoryScore>, cs: seq<Category>)
    ensures ParseCategories(CategoryFields(m, cs)) == Some(map c | c in m && c in cs :: m[c])
  {
    if cs != [] {
      CategoriesRoundTrip(m, cs[1..]);
      var restMap := map c | c in m && c in cs[1..] :: m[c];
      if cs[0] in m {
        CategoryRoundTrip(cs[0]);
        var fs := CategoryFields(m, cs);
        assert fs[1..] == CategoryFields(m, cs[1..]);
        assert ParseScore(fs[0].value) == Some(m[cs[0]]);
        assert restMap[cs[0] := m[cs[0]]] == map c | c in m && c in cs :: m[c];
      } else {
        assert restMap == map c | c in m && c in cs :: m[c];
      }
    }
  }

  lemma RestrictToAll(m: map<Category, CategoryScore>)
    ensures (map c | c in m && c in AllCategories :: m[c]) == m
  {
    forall c | c in m ensures c in AllCategories {
      AllCategoriesComplete(c);
    }
  }

  /** A dictionary of the `to_dict` shape, whose parts read back, reads back whole. */
  lemma ReadBack(x: real, l: Label, cfs: seq<Field>, cm: map<Category, CategoryScore>,
                 mvs: seq<Value>, must: seq<KeywordMatch>, nvs: seq<Value>, nice: seq<KeywordMatch>,
                 flags: seq<RedFlag>, actions: Actions, metadata: Metadata)
    requires ParseCategories(cfs) == Some(cm)
    requires ParseMatches(mvs) == Some(must) && ParseMatches(nvs) == Some(nice)
    ensures FromDict(Object([
      Field("overall_score", Number(x)),
      Field("label", Text(LabelName(l))),
      Field("categories", Object(cfs)),
      Field("must_have", List(mvs)),
      Field("nice_to_have", List(nvs)),
      Field("red_flags", FlagsValue(flags)),
      Field("actions", ActionsValue(actions)),
      Field("metadata", MetadataValue(metadata))]))
      == Some(AnalysisResult(x, l, cm, must, nice, flags, actions, metadata))
  {
    LabelRoundTrip(l);
  }

  /** Reading back what `to_dict` writes gives the result again. */
  lemma DictRoundTrip(r: AnalysisResult)
    ensures FromDict(ToDict(r)) == Some(r)
  {
    MatchesRoundTrip(r.mustHave);
    MatchesRoundTrip(r.niceToHave);
    CategoriesRoundTrip(r.categories, AllCategories);
    RestrictToAll(r.categories);
    ReadBack(r.overallScore, r.matchLabel, CategoryFields(r.categories, AllCategories), r.categories,
             MatchValues(r.mustHave), r.mustHave, MatchValues(r.niceToHave), r.niceToHave,
             r.redFlags, r.actions, r.metadata);
  }

  /** So two different results never give the same dictionary. */
  lemma ToDictInjective(a: AnalysisResult, b: AnalysisResult)
    requires ToDict(a) == ToDict(b)
    ensures a == b
  {
    DictRoundTrip(a);
    DictRoundTrip(b);
  }
}
