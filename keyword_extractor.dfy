/** KeywordExtractor (backend/app/scoring_engine.py:96-213): the technology lexicon, and the
    requirement signals read from a job description. */
module KeywordExtractor {
  import opened Strings
  import opened TextPreprocessor

  const Languages: seq<string> :=
    ["python", "java", "javascript", "typescript", "sql", "scala", "r", "c++", "c#", "go", "rust", "kotlin"]
  const Databases: seq<string> :=
    ["mysql", "postgresql", "mongodb", "cassandra", "dynamodb", "redis", "elasticsearch", "oracle", "sql server"]
  const Cloud: seq<string> := ["aws", "azure", "gcp", "google cloud", "terraform", "cloudformation"]
  const BigData: seq<string> :=
    ["spark", "hadoop", "hive", "kafka", "flink", "airflow", "dbt", "talend", "informatica"]
  const MachineLearning: seq<string> :=
    ["tensorflow", "pytorch", "scikit-learn", "xgboost", "nlp", "neural network", "machine learning"]
  const Tools: seq<string> := ["git", "docker", "kubernetes", "jenkins", "gitlab", "github", "jira", "confluence"]

  /** TECH_STACK with its six category lists laid end to end, in the dict's order. */
  const Lexicon: seq<string> := Languages + Databases + Cloud + BigData + MachineLearning + Tools

  const MustMarkers: seq<string> :=
    ["must have", "required", "requirement", "minimum", "need ", "experience with", "expertise in"]
  const NiceMarkers: seq<string> := ["preferred", "plus", "bonus", "nice to have", "additional", "beneficial"]
  const DegreeVocabulary: seq<string> := ["bachelor", "master", "phd", "certificate", "certification", "degree"]
  const RoleVocabulary: seq<string> :=
    ["engineer", "developer", "analyst", "manager", "architect", "specialist", "lead", "senior"]

  /** `any(kw in hay for kw in needles)`. */
  predicate AnyContained(hay: string, needles: seq<string>)
  {
    exists i :: 0 <= i < |needles| && Contains(hay, needles[i])
  }

  // ---------------------------------------------------------------- quoted terms and acronyms

  predicate NotQuote(c: char) { c != '"' }

  /** `re.findall(r'"([^"]+)"', s)`: the non-empty bodies of quote pairs, left to right. */
  function Quoted(s: string): (r: seq<string>)
    decreases |s|
  {
    if s == [] then []
    else if s[0] != '"' then Quoted(s[1..])
    else
      var n := RunLen(s[1..], NotQuote);
      if 1 <= n && 1 + n < |s| then [s[1..1 + n]] + Quoted(s[2 + n..]) else Quoted(s[1..])
  }

  /** Where the scan of `Quoted` resumes after looking at the first character. */
  function QuotedNext(s: string): (k: nat)
    requires s != []
    ensures 1 <= k <= |s|
  {
    var n := RunLen(s[1..], NotQuote);
    if s[0] == '"' && 1 <= n && 1 + n < |s| then 2 + n else 1
  }

  lemma QuotedUnfold(s: string)
    requires s != []
    ensures var k := QuotedNext(s);
      Quoted(s) == (if k == 1 then [] else [s[1..k - 1]]) + Quoted(s[k..])
  {
  }

  /** A phrase taken at the front sits between two quotes and holds none. */
  lemma QuotedHead(s: string)
    requires s != [] && QuotedNext(s) > 1
    ensures var q := s[1..QuotedNext(s) - 1];
      q != [] && (forall i :: 0 <= i < |q| ==> q[i] != '"') && Contains(s, "\"" + q + "\"")
  {
    var n := RunLen(s[1..], NotQuote);
    var q := s[1..1 + n];
    assert forall i :: 0 <= i < |q| ==> q[i] == s[1..][i];
    assert s[..2 + n] == "\"" + q + "\"";
    ContainsAt(s, "\"" + q + "\"", 0);
  }

  /** Each captured body is non-empty, free of quotes and occurs between quotes in `s`. */
  lemma {:induction false} QuotedShape(s: string)
    ensures forall q :: q in Quoted(s) ==>
      q != [] && (forall i :: 0 <= i < |q| ==> q[i] != '"') && Contains(s, "\"" + q + "\"")
    decreases |s|
  {
    if s != [] {
      var k := QuotedNext(s);
      QuotedUnfold(s);
      QuotedShape(s[k..]);
      forall q | q in Quoted(s[k..]) ensures Contains(s, "\"" + q + "\"") {
        ContainsSuffix(s, k, "\"" + q + "\"");
      }
      if k > 1 {
        QuotedHead(s);
      }
    }
  }

  /** The first quote pair with a non-empty body is captured, and the scan goes on after its
      closing quote. */
  lemma {:induction false} QuotedPair(a: string, q: string, b: string)
    requires forall i :: 0 <= i < |a| ==> a[i] != '"'
    requires q != [] && forall i :: 0 <= i < |q| ==> q[i] != '"'
    ensures Quoted(a + "\"" + q + "\"" + b) == [q] + Quoted(b)
    decreases |a|
  {
    if a == [] {
      assert a + "\"" + q + "\"" + b == "\"" + q + "\"" + b;
      QuotedFront(q, b);
    } else {
      var s := a + "\"" + q + "\"" + b;
      assert s[0] == a[0] && s[1..] == a[1..] + "\"" + q + "\"" + b;
      QuotedPair(a[1..], q, b);
    }
  }

  lemma QuotedFront(q: string, b: string)
    requires q != [] && forall i :: 0 <= i < |q| ==> q[i] != '"'
    ensures Quoted("\"" + q + "\"" + b) == [q] + Quoted(b)
  {
    var s := "\"" + q + "\"" + b;
    assert QuotedNext(s) == 2 + |q| by {
      var t := s[1..];
      assert t == q + "\"" + b;
      assert forall i :: 0 <= i < |q| ==> t[i] == q[i];
      RunLenAtLeast(t, NotQuote, |q|);
      assert t[|q|] == '"';
    }
    QuotedUnfold(s);
    assert s[1..1 + |q|] == q && s[2 + |q|..] == b;
  }

  predicate IsAcronym(w: string) { |w| >= 2 && forall i :: 0 <= i < |w| ==> IsUpper(w[i]) }

  function AcronymsOf(words: seq<string>): (r: seq<string>)
    ensures forall a :: a in r <==> a in words && IsAcronym(a)
  {
    if words == [] then []
    else
      var last := words[|words| - 1];
      assert forall x :: x in words <==> x in words[..|words| - 1] || x == last;
      AcronymsOf(words[..|words| - 1]) + (if IsAcronym(last) then [last] else [])
  }

  /** `re.findall(r'\b[A-Z]{2,}\b', text)`: the upper-case `\w` words of two letters or more
      (a run of capitals touching another word character has no word boundary around it). */
  function Acronyms(text: string): seq<string>
  {
    AcronymsOf(Runs(text, IsWordChar))
  }

  /** Text without capitals has no acronym, as on every path through `preprocess`. */
  lemma NoAcronymsWithoutCapitals(text: string)
    requires NoUpper(text)
    ensures forall a :: a !in Acronyms(text)
  {
    RunsShape(text, IsWordChar);
    var words := Runs(text, IsWordChar);
    forall w | w in words ensures !IsAcronym(w) {
      ContainsChars(text, w);
      assert w[0] in text;
    }
  }

  // ---------------------------------------------------------------- technical terms

  /** The terms `_extract_tech_terms` finds in `text`, as a set: lexicon entries occurring in
      the lower-cased text, and the acronyms, lower-cased. */
  function TechTermsSet(text: string): set<string>
  {
    (set t | t in Lexicon && Contains(Lower(text), t)) + (set a | a in Acronyms(text) :: Lower(a))
  }

  /** Lower-casing a sequence of words lower-cases its element set. */
  lemma LowerAllElems(ws: seq<string>)
    ensures Elems(LowerAll(ws)) == set a | a in ws :: Lower(a)
  {
    var lowered := LowerAll(ws);
    forall x | x in Elems(lowered) ensures x in set a | a in ws :: Lower(a) {
      var i :| 0 <= i < |lowered| && lowered[i] == x;
      assert ws[i] in ws;
    }
  }

  /** `_extract_tech_terms` (lines 151-164). */
  method ExtractTechTerms(text: string) returns (terms: seq<string>)
    ensures NoDup(terms)
    ensures Elems(terms) == TechTermsSet(text)
  {
    var found := FilterPresent(Lexicon, Lower(text));
    var lowered := LowerAll(Acronyms(text));
    ElemsConcat(found, lowered);
    LowerAllElems(Acronyms(text));
    terms := Dedupe(found + lowered);
  }

  // ---------------------------------------------------------------- must-haves and nice-to-haves

  /** What one line contributes to `extract_must_haves`. */
  function LineMustTerms(line: string): set<string>
  {
    if AnyContained(line, MustMarkers) then TechTermsSet(line) + Elems(Quoted(line)) else {}
  }

  function MustTermsOfLines(lines: seq<string>): set<string>
  {
    if lines == [] then {}
    else MustTermsOfLines(lines[..|lines| - 1]) + LineMustTerms(lines[|lines| - 1])
  }

  /** One pass of the `extract_must_haves` loop keeps the collected terms equal to the
      contribution of the lines seen so far. */
  lemma MustStep(lines: seq<string>, i: nat, collected: seq<string>, terms: seq<string>)
    requires i < |lines|
    requires Elems(collected) == MustTermsOfLines(lines[..i])
    requires AnyContained(lines[i], MustMarkers) ==> Elems(terms) == TechTermsSet(lines[i])
    ensures AnyContained(lines[i], MustMarkers) ==>
      Elems(collected + terms + Quoted(lines[i])) == MustTermsOfLines(lines[..i + 1])
    ensures !AnyContained(lines[i], MustMarkers) ==> Elems(collected) == MustTermsOfLines(lines[..i + 1])
  {
    assert lines[..i + 1][..i] == lines[..i];
    ElemsConcat(collected, terms);
    ElemsConcat(collected + terms, Quoted(lines[i]));
  }

  /** The lines `preprocess(text).split('\n')` of a job description. */
  function Lines(jd: string): seq<string>
  {
    Split(Preprocess(jd), '\n')
  }

  /** The must-have terms of a job description, as a set. */
  function MustHaveSet(jd: string): set<string>
  {
    MustTermsOfLines(Lines(jd))
  }

  /** The loop of `extract_must_haves` over the lines. */
  method CollectMustTerms(lines: seq<string>) returns (collected: seq<string>)
    ensures Elems(collected) == MustTermsOfLines(lines)
  {
    collected := [];
    for i := 0 to |lines|
      invariant Elems(collected) == MustTermsOfLines(lines[..i])
    {
      var line := lines[i];
      if AnyContained(line, MustMarkers) {
        var terms := ExtractTechTerms(line);
        MustStep(lines, i, collected, terms);
        collected := collected + terms + Quoted(line);
      } else {
        MustStep(lines, i, collected, []);
      }
    }
    PrefixWhole(lines);
  }

  /** `extract_must_haves` (lines 115-132); the order of the result is unspecified. */
  method ExtractMustHaves(text: string) returns (mustHaves: seq<string>)
    ensures NoDup(mustHaves)
    ensures Elems(mustHaves) == MustHaveSet(text)
  {
    var collected := CollectMustTerms(Lines(text));
    mustHaves := Dedupe(collected);
  }

  function LineNiceTerms(line: string): set<string>
  {
    if AnyContained(line, NiceMarkers) then TechTermsSet(line) else {}
  }

  function NiceTermsOfLines(lines: seq<string>): set<string>
  {
    if lines == [] then {}
    else NiceTermsOfLines(lines[..|lines| - 1]) + LineNiceTerms(lines[|lines| - 1])
  }

  lemma NiceStep(lines: seq<string>, i: nat, collected: seq<string>, terms: seq<string>)
    requires i < |lines|
    requires Elems(collected) == NiceTermsOfLines(lines[..i])
    requires AnyContained(lines[i], NiceMarkers) ==> Elems(terms) == TechTermsSet(lines[i])
    ensures AnyContained(lines[i], NiceMarkers) ==> Elems(collected + terms) == NiceTermsOfLines(lines[..i + 1])
    ensures !AnyContained(lines[i], NiceMarkers) ==> Elems(collected) == NiceTermsOfLines(lines[..i + 1])
  {
    assert lines[..i + 1][..i] == lines[..i];
    ElemsConcat(collected, terms);
  }

  /** The nice-to-have terms of a job description, as a set. */
  function NiceToHaveSet(jd: string): set<string>
  {
    NiceTermsOfLines(Lines(jd))
  }

  /** The loop of `extract_nice_to_haves` over the lines. */
  method CollectNiceTerms(lines: seq<string>) returns (collected: seq<string>)
    ensures Elems(collected) == NiceTermsOfLines(lines)
  {
    collected := [];
    for i := 0 to |lines|
      invariant Elems(collected) == NiceTermsOfLines(lines[..i])
    {
      var line := lines[i];
      if AnyContained(line, NiceMarkers) {
        var terms := ExtractTechTerms(line);
        NiceStep(lines, i, collected, terms);
        collected := collected + terms;
      } else {
        NiceStep(lines, i, collected, []);
      }
    }
    PrefixWhole(lines);
  }

  /** `extract_nice_to_haves` (lines 135-148); the order of the result is unspecified. */
  method ExtractNiceToHaves(text: string) returns (niceToHaves: seq<string>)
    ensures NoDup(niceToHaves)
    ensures Elems(niceToHaves) == NiceToHaveSet(text)
  {
    var collected := CollectNiceTerms(Lines(text));
    niceToHaves := Dedupe(collected);
  }

  /** The lexicon entries occurring in a normalized text; no acronym survives normalization. */
  lemma TechTermsOfNormalized(t: string)
    requires Normalized(t)
    ensures TechTermsSet(t) == set x | x in Lexicon && Contains(t, x)
  {
    LowerFixpoint(t);
    NoAcronymsWithoutCapitals(t);
  }

  /** Normalization leaves one line, so one marker anywhere in the job description makes every
      lexicon term and every quoted phrase anywhere in it a must-have, and none otherwise. */
  lemma MustHavesOneLine(jd: string)
    ensures var t := Preprocess(jd);
      MustHaveSet(jd) ==
        if AnyContained(t, MustMarkers)
        then (set x | x in Lexicon && Contains(t, x)) + Elems(Quoted(t))
        else {}
  {
    var t := Preprocess(jd);
    PreprocessOneLine(jd);
    assert MustTermsOfLines([t]) == LineMustTerms(t) by {
      assert [t][..0] == [];
    }
    TechTermsOfNormalized(t);
  }

  /** The same holds for nice-to-haves, with their own markers and no quoted phrases. */
  lemma NiceToHavesOneLine(jd: string)
    ensures var t := Preprocess(jd);
      NiceToHaveSet(jd) ==
        if AnyContained(t, NiceMarkers) then set x | x in Lexicon && Contains(t, x) else {}
  {
    var t := Preprocess(jd);
    PreprocessOneLine(jd);
    assert NiceTermsOfLines([t]) == LineNiceTerms(t) by {
      assert [t][..0] == [];
    }
    TechTermsOfNormalized(t);
  }

  // ---------------------------------------------------------------- degrees and roles

  /** `extract_degree_requirements` (lines 188-199): the degree words of the normalized text,
      in vocabulary order. */
  method ExtractDegreeRequirements(text: string) returns (degrees: seq<string>)
    ensures degrees == Present(DegreeVocabulary, Preprocess(text))
  {
    degrees := FilterPresent(DegreeVocabulary, Preprocess(text));
  }

  /** `extract_role_keywords` (lines 202-213): the role words of the normalized text, in
      vocabulary order. */
  method ExtractRoleKeywords(text: string) returns (roles: seq<string>)
    ensures roles == Present(RoleVocabulary, Preprocess(text))
  {
    roles := FilterPresent(RoleVocabulary, Preprocess(text));
  }

  // ---------------------------------------------------------------- years required

  function DigitValue(c: char): nat requires IsDigit(c) { c as int - '0' as int }

  /** `int(d)` for a run of decimal digits. */
  function DigitsValue(d: string): nat
    requires forall i :: 0 <= i < |d| ==> IsDigit(d[i])
  {
    if d == [] then 0 else 10 * DigitsValue(d[..|d| - 1]) + DigitValue(d[|d| - 1])
  }

  /** The end of the run of digits that starts at `i`. */
  function DigitsEnd(s: string, i: nat): (j: nat)
    requires i <= |s|
    ensures i <= j <= |s|
    ensures forall k :: i <= k < j ==> IsDigit(s[k])
    ensures j < |s| ==> !IsDigit(s[j])
    decreases |s| - i
  {
    if i < |s| && IsDigit(s[i]) then DigitsEnd(s, i + 1) else i
  }

  /** Where `\s*years?` must start after the digits ending at `j`: past an optional `+` and
      the whitespace that follows it. */
  function AfterPlus(s: string, j: nat): (k: nat)
    requires j <= |s|
    ensures j <= k <= |s|
  {
    var j' := if j < |s| && s[j] == '+' then j + 1 else j;
    SpacesEnd(s, j')
  }

  /** `year` starts at `k` (the optional `s` of `years?` never decides a match). */
  predicate YearAt(s: string, k: nat)
  {
    k + 4 <= |s| && s[k] == 'y' && s[k + 1] == 'e' && s[k + 2] == 'a' && s[k + 3] == 'r'
  }

  /** The pattern `(\d+)\+?\s*years?` matches at `i`. Backtracking cannot help a failed
      attempt: giving back a digit, the `+` or a space leaves that character where `year`
      or the next token must start. */
  predicate SingleMatchAt(s: string, i: nat)
  {
    i < |s| && IsDigit(s[i]) && YearAt(s, AfterPlus(s, DigitsEnd(s, i)))
  }

  /** The number the single pattern captures at `i`. */
  function SingleCapture(s: string, i: nat): nat
    requires SingleMatchAt(s, i)
  {
    DigitsValue(s[i..DigitsEnd(s, i)])
  }

  /** The pattern `(\d+)\s*-\s*(\d+)\s*years?` matches at `i`. */
  predicate RangeMatchAt(s: string, i: nat)
  {
    && i < |s| && IsDigit(s[i])
    && var dash := SpacesEnd(s, DigitsEnd(s, i));
    && dash < |s| && s[dash] == '-'
    && var second := SpacesEnd(s, dash + 1);
    && second < |s| && IsDigit(s[second])
    && YearAt(s, SpacesEnd(s, DigitsEnd(s, second)))
  }

  /** The first number of a range match at `i`. */
  function RangeCapture(s: string, i: nat): nat
    requires RangeMatchAt(s, i)
  {
    DigitsValue(s[i..DigitsEnd(s, i)])
  }

  /** Where `re.findall(single, s)` finds its first match, among the positions from `i` on. */
  function FirstSingle(s: string, i: nat): (r: Option<nat>)
    requires i <= |s|
    ensures r.None? ==> forall k :: i <= k <= |s| ==> !SingleMatchAt(s, k)
    ensures r.Some? ==> i <= r.value < |s| && SingleMatchAt(s, r.value)
    ensures r.Some? ==> forall m :: i <= m < r.value ==> !SingleMatchAt(s, m)
    decreases |s| - i
  {
    if i == |s| then None
    else if SingleMatchAt(s, i) then Some(i)
    else FirstSingle(s, i + 1)
  }

  /** Where `re.findall(range, s)` finds its first match, among the positions from `i` on. */
  function FirstRange(s: string, i: nat): (r: Option<nat>)
    requires i <= |s|
    ensures r.None? ==> forall k :: i <= k <= |s| ==> !RangeMatchAt(s, k)
    ensures r.Some? ==> i <= r.value < |s| && RangeMatchAt(s, r.value)
    decreases |s| - i
  {
    if i == |s| then None
    else if RangeMatchAt(s, i) then Some(i)
    else FirstRange(s, i + 1)
  }

  /** The two patterns tried in order on a normalized text: the number the first pattern
      captures at its leftmost match, else the first number of the leftmost range. */
  function YearsIn(t: string): Option<nat>
  {
    match FirstSingle(t, 0)
    case Some(k) => Some(SingleCapture(t, k))
    case None =>
      match FirstRange(t, 0)
      case Some(k) => Some(RangeCapture(t, k))
      case None => None
  }

  /** `extract_years_required` (lines 167-185). */
  function ExtractYearsRequired(text: string): Option<nat>
  {
    YearsIn(Preprocess(text))
  }

  /** On the preprocessed text the requirement is absent exactly when the year pattern matches
      nowhere, and is otherwise the number captured at the leftmost match. */
  lemma YearsRequiredMatch(text: string)
    ensures var t := Preprocess(text); var r := ExtractYearsRequired(text);
      r.None? <==> forall k :: 0 <= k <= |t| ==> !SingleMatchAt(t, k)
    ensures var t := Preprocess(text); var r := ExtractYearsRequired(text);
      r.Some? ==> exists k :: (0 <= k < |t| && SingleMatchAt(t, k) && r == Some(SingleCapture(t, k)) &&
        forall m :: 0 <= m < k ==> !SingleMatchAt(t, m))
  {
    YearsInSpec(Preprocess(text));
  }

  /** Every range match holds a single match at its second number. */
  lemma RangeHoldsSingle(s: string, i: nat)
    requires RangeMatchAt(s, i)
    ensures exists k :: i < k < |s| && SingleMatchAt(s, k)
  {
    var dash := SpacesEnd(s, DigitsEnd(s, i));
    var second := SpacesEnd(s, dash + 1);
    var end := DigitsEnd(s, second);
    var y := SpacesEnd(s, end);
    assert s[y] == 'y';
    assert AfterPlus(s, end) == y;
    assert SingleMatchAt(s, second);
  }

  /** The range pattern never decides the result: when the single pattern has no match,
      neither has the range pattern. */
  lemma RangeUnreachable(t: string)
    requires FirstSingle(t, 0).None?
    ensures FirstRange(t, 0).None?
  {
    if FirstRange(t, 0).Some? {
      RangeHoldsSingle(t, FirstRange(t, 0).value);
    }
  }

  /** On a normalized text `t`, the result is absent exactly when `t` has no digit run
      followed by an optional `+`, optional whitespace and `year`; otherwise it is the number
      at the leftmost such match. */
  lemma YearsInSpec(t: string)
    ensures YearsIn(t).None? <==> forall k :: 0 <= k <= |t| ==> !SingleMatchAt(t, k)
    ensures YearsIn(t).Some? ==>
      exists k :: (0 <= k < |t| && SingleMatchAt(t, k) && YearsIn(t) == Some(SingleCapture(t, k)) &&
        forall m :: 0 <= m < k ==> !SingleMatchAt(t, m))
  {
    if FirstSingle(t, 0).None? {
      RangeUnreachable(t);
    }
  }
}
