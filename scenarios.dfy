/** Worked examples: concrete inputs from the engine's own test suite, run through the model. */
module Scenarios {
  import opened Strings
  import opened TextPreprocessor
  import opened KeywordExtractor
  import opened ResumeParser
  import opened Results
  import opened Scoring

  /** Positions without a digit cannot start a match. */
  lemma {:induction false} FirstSingleSkip(s: string, i: nat, j: nat)
    requires i <= j <= |s|
    requires forall k :: i <= k < j ==> !IsDigit(s[k])
    ensures FirstSingle(s, i) == FirstSingle(s, j)
    decreases j - i
  {
    if i < j {
      FirstSingleSkip(s, i + 1, j);
    }
  }

  /** A single digit at `i`, with no match before it, followed by an optional `+`, spaces and
      `year`, is the number found. */
  lemma YearsAtDigit(s: string, i: nat, y: nat)
    requires i + 1 < |s| && IsDigit(s[i]) && !IsDigit(s[i + 1])
    requires AfterPlus(s, i + 1) == y && YearAt(s, y)
    requires forall k :: 0 <= k < i ==> !SingleMatchAt(s, k)
    ensures YearsIn(s) == Some(DigitValue(s[i]))
  {
    assert DigitsEnd(s, i + 1) == i + 1;
    assert SingleMatchAt(s, i);
    assert s[i..i + 1] == [s[i]];
    assert DigitsValue([s[i]]) == DigitValue(s[i]) by {
      assert [s[i]][..0] == [];
    }
    var f := FirstSingle(s, 0);
    assert f.Some? && f.value == i;
  }

  /** A text opening "minimum 5+ year" asks for 5 years. */
  lemma YearsAfterMinimum(s: string)
    requires |s| >= 15 && s[..15] == "minimum 5+ year"
    ensures YearsIn(s) == Some(5)
  {
    assert forall k :: 0 <= k < 15 ==> s[k] == s[..15][k];
    assert forall k :: 0 <= k < 8 ==> !IsDigit(s[k]);
    assert SpacesEnd(s, 11) == 11;
    assert AfterPlus(s, 9) == 11;
    YearsAtDigit(s, 8, 11);
  }

  /** A text opening "3-5 year" yields 5, the upper end: the single pattern finds "5 year"
      before the range pattern is ever tried. */
  lemma YearsAfterRange(s: string)
    requires |s| >= 8 && s[..8] == "3-5 year"
    ensures YearsIn(s) == Some(5)
  {
    assert forall k :: 0 <= k < 8 ==> s[k] == s[..8][k];
    assert DigitsEnd(s, 1) == 1;
    assert DigitsEnd(s, 0) == 1;
    assert SpacesEnd(s, 1) == 1;
    assert AfterPlus(s, 1) == 1;
    assert !SingleMatchAt(s, 0);
    assert SpacesEnd(s, 4) == 4;
    assert AfterPlus(s, 3) == 4;
    YearsAtDigit(s, 2, 4);
  }

  /** A text opening "7 year" asks for 7 years. */
  lemma YearsAfterSeven(s: string)
    requires |s| >= 6 && s[..6] == "7 year"
    ensures YearsIn(s) == Some(7)
  {
    assert forall k :: 0 <= k < 6 ==> s[k] == s[..6][k];
    assert SpacesEnd(s, 2) == 2;
    assert AfterPlus(s, 1) == 2;
    YearsAtDigit(s, 0, 2);
  }

  lemma HelloWorldNormal(t: string)
    requires t == "hello world"
    ensures Normalized(t)
  {
  }

  /** `preprocess("HELLO World")` is "hello world". */
  lemma PreprocessExampleCase(text: string)
    requires text == "HELLO World"
    ensures Preprocess(text) == "hello world"
  {
    var t := "hello world";
    assert Lower(text) == t;
    HelloWorldNormal(t);
    NormalizedFixpoint(t);
    LowerFixpoint(t);
  }

  lemma HelloWorldTestNormal(t: string)
    requires t == "hello world test"
    ensures Normalized(t)
  {
  }

  /** `preprocess("hello   world\n\ntest")` is "hello world test": each whitespace run becomes
      one space. The text is given as its five pieces. */
  lemma PreprocessExampleSpacing(text: string, a: string, b: string, c: string, d: string, e: string)
    requires a == "hello" && b == "   " && c == "world" && d == "\n\n" && e == "test"
    requires text == a + b + c + d + e
    ensures Preprocess(text) == "hello world test"
  {
    SpacingExampleLower(text, a, b, c, d, e);
    LowerFixpoint(text);
    SpacingExampleCollapse(text, a, b, c, d, e);
    var t := "hello world test";
    HelloWorldTestNormal(t);
    StripFixpoint(t);
  }

  lemma SpacingExampleLower(text: string, a: string, b: string, c: string, d: string, e: string)
    requires a == "hello" && b == "   " && c == "world" && d == "\n\n" && e == "test"
    requires text == a + b + c + d + e
    ensures NoUpper(text)
  {
  }

  lemma SpacingExampleCollapse(text: string, a: string, b: string, c: string, d: string, e: string)
    requires a == "hello" && b == "   " && c == "world" && d == "\n\n" && e == "test"
    requires text == a + b + c + d + e
    ensures Collapse(text) == "hello world test"
  {
    assert text == a + b + (c + d + e);
    CollapseWordBlank(a, b, c + d + e, false);
    CollapseWordBlank(c, d, e, true);
    CollapseFixpoint(e, true);
  }

  /** Texts that lower alike preprocess alike. */
  lemma PreprocessSameLower(a: string, b: string)
    requires Lower(a) == Lower(b)
    ensures Preprocess(a) == Preprocess(b)
  {
  }

  /** A lower-case letter in front of a normalised text that opens with a letter keeps it
      normalised. */
  lemma NormalizedCons(c: char, s: string)
    requires Normalized(s) && s != [] && s[0] != ' ' && !IsUpper(c) && !IsSpace(c)
    ensures Normalized([c] + s)
  {
    var u := [c] + s;
    assert forall i :: 1 <= i < |u| ==> u[i] == s[i - 1];
  }

  lemma MinimumRestNormal(rest: string)
    requires rest == "inimum 5+ years of experience required"
    ensures Normalized(rest) && rest[0] == 'i'
  {
  }

  /** `preprocess("Minimum 5+ years of experience required")` only lowers the capital. The text
      is given as its capital and the rest. */
  lemma PreprocessMinimum(jd: string, rest: string)
    requires rest == "inimum 5+ years of experience required" && jd == ['M'] + rest
    ensures Preprocess(jd) == ['m'] + rest
  {
    var t := ['m'] + rest;
    LowerCons('M', rest);
    LowerCons('m', rest);
    PreprocessSameLower(jd, t);
    MinimumRestNormal(rest);
    NormalizedCons('m', rest);
    NormalizedFixpoint(t);
  }

  lemma RangeNormal(jd: string)
    requires jd == "3-5 years of professional experience"
    ensures Normalized(jd)
  {
  }

  lemma SevenNormal(jd: string)
    requires jd == "7 years experience needed"
    ensures Normalized(jd)
  {
  }

  /** The lowered text asks for 5 years. */
  lemma YearsInMinimum(rest: string)
    requires rest == "inimum 5+ years of experience required"
    ensures YearsIn(['m'] + rest) == Some(5)
  {
    var t := ['m'] + rest;
    assert rest[..14] == "inimum 5+ year";
    assert t[..15] == ['m'] + rest[..14];
    assert ['m'] + "inimum 5+ year" == "minimum 5+ year";
    YearsAfterMinimum(t);
  }

  /** "Minimum 5+ years of experience required", given as its capital and the rest, asks for
      5 years. */
  lemma YearsExampleMinimum(jd: string, rest: string)
    requires rest == "inimum 5+ years of experience required" && jd == ['M'] + rest
    ensures ExtractYearsRequired(jd) == Some(5)
  {
    PreprocessMinimum(jd, rest);
    YearsInMinimum(rest);
  }

  /** "3-5 years of professional experience" asks for 5 years, not 3. */
  lemma YearsExampleRange(jd: string)
    requires jd == "3-5 years of professional experience"
    ensures ExtractYearsRequired(jd) == Some(5)
  {
    RangeNormal(jd);
    assert jd[..8] == "3-5 year";
    NormalizedFixpoint(jd);
    YearsAfterRange(jd);
  }

  /** "7 years experience needed" asks for 7 years. */
  lemma YearsExampleSeven(jd: string)
    requires jd == "7 years experience needed"
    ensures ExtractYearsRequired(jd) == Some(7)
  {
    SevenNormal(jd);
    assert jd[..6] == "7 year";
    NormalizedFixpoint(jd);
    YearsAfterSeven(jd);
  }

  /** Three years against "Minimum 5+ years" is two years short: 60 - 2 * 20 = 20. */
  lemma SeniorityExampleShort(jd: string, rest: string)
    requires rest == "inimum 5+ years of experience required" && jd == ['M'] + rest
    ensures SeniorityMatchScore(3, jd).score == 20.0
    ensures SeniorityMatchScore(5, jd).score == 90.0
  {
    YearsExampleMinimum(jd, rest);
  }

  /** A needle with a character the hay lacks does not occur in it. */
  lemma MissingChar(hay: string, needle: string, c: char)
    requires c in needle && c !in hay
    ensures !Contains(hay, needle)
  {
    if Contains(hay, needle) {
      ContainsChars(hay, needle);
      assert false;
    }
  }

  lemma BachelorDegreeNormal(t: string)
    requires t == "bachelor's degree required"
    ensures Normalized(t)
  {
  }

  /** The first three of six terms: only the first occurs. */
  lemma PresentFirstOfThree(a: string, b: string, c: string, hay: string)
    requires Contains(hay, a) && !Contains(hay, b) && !Contains(hay, c)
    ensures Present([a, b, c], hay) == [a]
  {
    assert [a][..0] == [] && [] + [a] == [a];
    assert Present([a], hay) == [a];
    assert [a, b][..1] == [a] && [a] + [] == [a];
    assert Present([a, b], hay) == [a];
    assert [a, b, c][..2] == [a, b];
  }

  /** Two more absent terms, then one that occurs. */
  lemma PresentLastOfSix(a: string, b: string, c: string, d: string, e: string, f: string, hay: string)
    requires Present([a, b, c], hay) == [a]
    requires !Contains(hay, d) && !Contains(hay, e) && Contains(hay, f)
    ensures Present([a, b, c, d, e, f], hay) == [a, f]
  {
    assert [a, b, c, d][..3] == [a, b, c] && [a] + [] == [a];
    assert Present([a, b, c, d], hay) == [a];
    assert [a, b, c, d, e][..4] == [a, b, c, d];
    assert Present([a, b, c, d, e], hay) == [a];
    assert [a, b, c, d, e, f][..5] == [a, b, c, d, e];
  }

  /** Six terms of which only the first and the last occur give those two, in order. */
  lemma PresentFirstAndLast(a: string, b: string, c: string, d: string, e: string, f: string, hay: string)
    requires Contains(hay, a) && Contains(hay, f)
    requires !Contains(hay, b) && !Contains(hay, c) && !Contains(hay, d) && !Contains(hay, e)
    ensures Present([a, b, c, d, e, f], hay) == [a, f]
  {
    PresentFirstOfThree(a, b, c, hay);
    PresentLastOfSix(a, b, c, d, e, f, hay);
  }

  /** A text holding "bachelor" and "degree" but none of the other four degree words has
      exactly those two, in vocabulary order. */
  lemma DegreeWordsOf(hay: string)
    requires Contains(hay, "bachelor") && Contains(hay, "degree")
    requires !Contains(hay, "master") && !Contains(hay, "phd")
    requires !Contains(hay, "certificate") && !Contains(hay, "certification")
    ensures Present(DegreeVocabulary, hay) == ["bachelor", "degree"]
  {
    PresentFirstAndLast("bachelor", "master", "phd", "certificate", "certification", "degree", hay);
  }

  /** "bachelor's degree required" holds "bachelor" and "degree". */
  lemma BachelorDegreeHolds(t: string)
    requires t == "bachelor's degree required"
    ensures Contains(t, "bachelor") && Contains(t, "degree")
  {
    ContainsAt(t, "bachelor", 0);
    assert t[11..] == "degree required";
    ContainsAt(t, "degree", 11);
  }

  /** "bachelor's degree required" has no 'm' (master), no 'p' (phd) and no 't' (certificate,
      certification). */
  lemma BachelorDegreeLacks(t: string)
    requires t == "bachelor's degree required"
    ensures !Contains(t, "master") && !Contains(t, "phd")
    ensures !Contains(t, "certificate") && !Contains(t, "certification")
  {
    assert 'm' !in t && 'p' !in t && 't' !in t;
    MissingChar(t, "master", 'm');
    MissingChar(t, "phd", 'p');
    MissingChar(t, "certificate", 't');
    MissingChar(t, "certification", 't');
  }

  /** The degree words of "Bachelor's degree required" are "bachelor" and "degree". */
  lemma BachelorDegreeWords(jd: string)
    requires jd == "Bachelor's degree required"
    ensures RequiredDegrees(jd) == ["bachelor", "degree"]
  {
    var t := "bachelor's degree required";
    assert Lower(jd) == t;
    BachelorDegreeNormal(t);
    NormalizedFixpoint(t);
    LowerFixpoint(t);
    BachelorDegreeHolds(t);
    BachelorDegreeLacks(t);
    DegreeWordsOf(t);
  }

  /** `_score_education_match([{'type': 'bachelor'}], "Bachelor's degree required")` is 50. */
  lemma BachelorDegreeExample(education: seq<Education>, jd: string)
    requires education == [Education("bachelor")] && jd == "Bachelor's degree required"
    ensures EducationMatchScore(education, jd).score == 50.0
  {
    BachelorDegreeWords(jd);
    assert "bachelor" in EducationVocabulary;
    BachelorDegreeHalf(education, jd);
  }

  /** A job description asking for a bachelor's degree, whose degree words are "bachelor" and
      "degree", scores a resume with a bachelor record at 50: "bachelor" is satisfied, "degree"
      never is. */
  lemma BachelorDegreeHalf(education: seq<Education>, jd: string)
    requires RequiredDegrees(jd) == ["bachelor", "degree"]
    requires forall e :: e in education ==> e.kind in EducationVocabulary
    requires Education("bachelor") in education
    ensures EducationMatchScore(education, jd).score == 50.0
  {
    var found := FoundDegrees(education);
    assert "bachelor" in found;
    assert Contains("bachelor", "bachelor") by {
      assert "bachelor"[0..8] == "bachelor";
    }
    DegreeWordsUnsatisfiable(education);
    var required := RequiredDegrees(jd);
    assert required[..1] == ["bachelor"] && required[..1][..0] == [];
    assert CountSatisfied(required, found) == 1;
  }
}
