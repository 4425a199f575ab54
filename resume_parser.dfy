/** ResumeParser (backend/app/scoring_engine.py:216-275): work-experience and education records
    built from what the section and entry patterns capture, and the total years of experience.
    The patterns themselves are not modelled: their matches are the inputs. */
module ResumeParser {
  import opened Strings

  /** One match of the job-entry pattern: the title text, the four-digit start year, the
      optional four-digit end year and the description text, as captured (unstripped). */
  datatype RawEntry = RawEntry(title: string, startYear: nat, endYear: Option<nat>, description: string)

  /** The record built for one job entry. `years` and `recency` are stored as the source stores
      them; nothing forces either to be non-negative. */
  datatype Experience = Experience(
    title: string,
    startYear: int,
    endYear: int,
    years: int,
    description: string,
    recency: int)

  /** One education record: the degree word found in the education section. */
  datatype Education = Education(kind: string)

  const EducationVocabulary: seq<string> := ["bachelor", "master", "phd", "certificate"]

  /** The record for one entry (lines 235-247); an open-ended entry ends in `currentYear`. */
  function ToExperience(e: RawEntry, currentYear: int): (x: Experience)
    ensures x.startYear == e.startYear && x.years == x.endYear - x.startYear
    ensures x.recency == currentYear - x.endYear
    ensures x.endYear == if e.endYear.Some? then e.endYear.value else currentYear
    ensures x.title == Strip(e.title) && x.description == Strip(e.description)
    ensures x.years + x.recency == currentYear - e.startYear
    ensures e.endYear.None? ==> x.recency == 0 && x.years == currentYear - e.startYear
    ensures e.endYear.Some? ==> x.endYear == e.endYear.value && x.recency == currentYear - e.endYear.value
  {
    var endYear := match e.endYear case Some(y) => y case None => currentYear;
    Experience(Strip(e.title), e.startYear, endYear, endYear - e.startYear, Strip(e.description), currentYear - endYear)
  }

  /** `extract_work_experience` (lines 220-249): one record per captured entry, in order.
      `currentYear` stands for `datetime.now().year`. */
  method ExtractWorkExperience(entries: seq<RawEntry>, currentYear: int) returns (experiences: seq<Experience>)
    ensures |experiences| == |entries|
    ensures forall i :: 0 <= i < |entries| ==> experiences[i] == ToExperience(entries[i], currentYear)
  {
    experiences := [];
    for i := 0 to |entries|
      invariant |experiences| == i
      invariant forall k :: 0 <= k < i ==> experiences[k] == ToExperience(entries[k], currentYear)
    {
      var record := ToExperience(entries[i], currentYear);
      experiences := experiences + [record];
    }
  }

  /** The records `extract_work_experience` builds, as a function of the captured entries. */
  function ExperienceRecords(entries: seq<RawEntry>, currentYear: int): (r: seq<Experience>)
    ensures |r| == |entries| && forall i :: 0 <= i < |entries| ==> r[i] == ToExperience(entries[i], currentYear)
  {
    seq(|entries|, i requires 0 <= i < |entries| => ToExperience(entries[i], currentYear))
  }

  /** An end year before the start year is kept as is, so `years` is negative: nothing clamps
      `end - start` at zero. */
  lemma NegativeYearsKept(e: RawEntry, currentYear: int)
    ensures e.endYear.Some? && e.endYear.value < e.startYear ==>
      ToExperience(e, currentYear).years == e.endYear.value - e.startYear < 0
  {
  }

  function Kinds(education: seq<Education>): (r: seq<string>)
    ensures |r| == |education| && forall i :: 0 <= i < |r| ==> r[i] == education[i].kind
  {
    seq(|education|, i requires 0 <= i < |education| => education[i].kind)
  }

  /** One record per degree word. */
  function Records(kinds: seq<string>): (r: seq<Education>)
    ensures Kinds(r) == kinds
  {
    var r := seq(|kinds|, i requires 0 <= i < |kinds| => Education(kinds[i]));
    assert Kinds(r) == kinds;
    r
  }

  /** A list of records is fixed by its degree words. */
  lemma RecordsOfKinds(education: seq<Education>)
    ensures Records(Kinds(education)) == education
  {
    var r := Records(Kinds(education));
    assert |r| == |education|;
    forall i | 0 <= i < |r| ensures r[i] == education[i] {
      assert Kinds(r)[i] == Kinds(education)[i];
    }
  }

  /** The records `extract_education` builds, as a function of the education section. */
  function EducationRecords(section: Option<string>): seq<Education>
  {
    match section
    case None => []
    case Some(text) => Records(Present(EducationVocabulary, Lower(text)))
  }

  /** `extract_education` (lines 252-266): with no education section, nothing; otherwise one
      record per word of the four-word vocabulary occurring in the lower-cased section, in
      vocabulary order. */
  method ExtractEducation(section: Option<string>) returns (education: seq<Education>)
    ensures section.None? ==> education == []
    ensures section.Some? ==> Kinds(education) == Present(EducationVocabulary, Lower(section.value))
  {
    education := [];
    if section.Some? {
      education := RecordsPresent(EducationVocabulary, Lower(section.value));
    }
  }

  /** The loop of `extract_education`: a record for each degree word found, in order. */
  method RecordsPresent(vocabulary: seq<string>, sectionLower: string) returns (education: seq<Education>)
    ensures Kinds(education) == Present(vocabulary, sectionLower)
  {
    education := [];
    for k := 0 to |vocabulary|
      invariant Kinds(education) == Present(vocabulary[..k], sectionLower)
    {
      assert vocabulary[..k + 1][..k] == vocabulary[..k];
      if Contains(sectionLower, vocabulary[k]) {
        education := education + [Education(vocabulary[k])];
        assert Kinds(education) == Kinds(education[..|education| - 1]) + [vocabulary[k]];
      }
    }
    PrefixWhole(vocabulary);
  }

  /** Every education record the parser builds names one of the four vocabulary words, once. */
  lemma EducationKindsInVocabulary(education: seq<Education>, section: string)
    requires Kinds(education) == Present(EducationVocabulary, Lower(section))
    ensures forall e :: e in education ==> e.kind in EducationVocabulary
    ensures |education| <= 4
  {
    forall e | e in education ensures e.kind in EducationVocabulary {
      var i :| 0 <= i < |education| && education[i] == e;
      assert Kinds(education)[i] == e.kind;
    }
  }

  /** `calculate_total_years` (lines 269-275): the sum of `years`, 0 with no experience. */
  function TotalYears(experiences: seq<Experience>): int
  {
    if experiences == [] then 0
    else TotalYears(experiences[..|experiences| - 1]) + experiences[|experiences| - 1].years
  }

  lemma {:induction false} TotalYearsAppend(a: seq<Experience>, b: seq<Experience>)
    ensures TotalYears(a + b) == TotalYears(a) + TotalYears(b)
    decreases |b|
  {
    if b == [] {
      assert a + b == a;
    } else {
      assert (a + b)[..|a + b| - 1] == a + b[..|b| - 1];
      TotalYearsAppend(a, b[..|b| - 1]);
    }
  }

  /** Taking one entry out of the list takes its years out of the total. */
  lemma TotalYearsRemove(b: seq<Experience>, k: nat)
    requires k < |b|
    ensures TotalYears(b) == TotalYears(b[..k] + b[k + 1..]) + b[k].years
  {
    var front := b[..k + 1];
    assert b == front + b[k + 1..];
    TotalYearsAppend(front, b[k + 1..]);
    assert front[..k] == b[..k] && front[k] == b[k];
    assert TotalYears(front) == TotalYears(b[..k]) + b[k].years;
    TotalYearsAppend(b[..k], b[k + 1..]);
  }

  /** Dropping the last element of `a` and a matching element of `b` keeps two equal
      multisets equal. */
  lemma MultisetDrop<T>(a: seq<T>, b: seq<T>, k: nat)
    requires multiset(a) == multiset(b) && a != [] && k < |b| && b[k] == a[|a| - 1]
    ensures multiset(a[..|a| - 1]) == multiset(b[..k] + b[k + 1..])
  {
    var last := a[|a| - 1];
    assert a == a[..|a| - 1] + [last];
    assert b == b[..k] + [last] + b[k + 1..];
    assert multiset(a[..|a| - 1]) == multiset(a) - multiset{last};
    assert multiset(b[..k] + b[k + 1..]) == multiset(b) - multiset{last};
  }

  /** The total does not depend on the order of the entries. */
  lemma {:induction false} TotalYearsPermutation(a: seq<Experience>, b: seq<Experience>)
    requires multiset(a) == multiset(b)
    ensures TotalYears(a) == TotalYears(b)
    decreases |a|
  {
    if a != [] {
      var last := a[|a| - 1];
      assert last in multiset(b);
      var k :| 0 <= k < |b| && b[k] == last;
      MultisetDrop(a, b, k);
      TotalYearsPermutation(a[..|a| - 1], b[..k] + b[k + 1..]);
      TotalYearsRemove(b, k);
    }
  }

  /** With every entry dated in order, the total is non-negative. */
  lemma {:induction false} TotalYearsNonNegative(experiences: seq<Experience>)
    requires forall e :: e in experiences ==> e.years >= 0
    ensures TotalYears(experiences) >= 0
  {
    if experiences != [] {
      TotalYearsNonNegative(experiences[..|experiences| - 1]);
    }
  }
}
