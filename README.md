# ATS resume match analyzer: scoring engine model

This project models the scoring engine of an ATS resume analyzer (`backend/app/scoring_engine.py`)
in Dafny. The engine takes a resume text and a job description and works in four steps:

- It extracts must-have and nice-to-have terms from the job description.
- It reads work-experience and education records out of the resume.
- It scores the resume in eight categories:
  - keyword and skills
  - experience relevance
  - role match
  - seniority
  - education
  - tooling stack
  - recency
  - red flags
- It combines the category scores into a weighted overall score. An optional strict mode
  subtracts a penalty. The overall score gives a label (`STRONG_MATCH`, `MEDIUM_MATCH` or
  `WEAK_MATCH`), along with recommended actions and per-keyword match records.

`to_dict` turns the result record into a plain dictionary.

The modules follow the source's classes:

- `Strings` holds the Python string built-ins the engine relies on, restricted to ASCII:
  `lower`, `split`, `strip`, `in`, `find`, `join`, and the `\w+` / whitespace word splitting.
  It also holds the vocabulary filter (`[t for t in vocabulary if t in text]`).
- `TextPreprocessor` covers `preprocess`, `extract_words`, `extract_ngrams` and `find_snippet`.
- `KeywordExtractor` covers:
  - the technology lexicon;
  - must-have and nice-to-have extraction;
  - tech-term and acronym extraction;
  - quoted terms;
  - degree and role vocabularies;
  - the two regular expressions of `extract_years_required`.
- `ResumeParser` builds experience and education records and sums the years of experience.
- `Results` holds the result records (`CategoryScore`, `KeywordMatch`, `AnalysisResult`) and
  `to_dict`, with a reader that inverts it.
- `Scoring` holds one pure specification function per category scorer, plus lemmas about each.
- `Report` holds:
  - red-flag detection;
  - default weights and the weighted sum;
  - rounding to one decimal;
  - the strict-mode penalty and the label;
  - actions and keyword matches;
  - the whole analysis as a function of its inputs (`AnalysisFor`).
- `Engine` holds the class `ScoringEngine`. Its fields `weights` and `strictMode` are fixed
  by the constructor. Every scorer, the red-flag detector, the overall score, the actions and
  the keyword matches are methods with the source's loops, each proved equal to its
  specification function. `Analyze` runs the whole pipeline and is proved equal to `AnalysisFor`.
- `Scenarios` works through concrete inputs like those of the repository's test suite.

Scores are real numbers. `round(x, 1)` is modelled as rounding half up to one decimal (`Round1`).

Where the code and the expectations written in `backend/tests/test_scoring_engine.py`
disagree, the model follows the code:

- **Year ranges.** The year pattern `(\d+)\+?\s*years?` is tried before the range pattern. In
  "3-5 years" it matches at the 5, so `extract_years_required` returns 5, not the first number
  of the range (see the comment on line 181 and the test at line 94). The range branch can
  never be taken (`KeywordExtractor.RangeUnreachable`, `Scenarios.YearsExampleRange`).
- **Role match without experience.** With no experience records, `_score_role_match` gives 20
  whatever the titles (`Scoring.RoleMatchWithoutExperience`). The test at lines 221-235
  expects more than 50.
- **Education words.** The job-description words "degree" and "certification" can never be
  satisfied, because the education records only carry the kinds
  bachelor/master/phd/certificate. So "Bachelor's degree required" with a bachelor record
  scores 50 (`Scoring.DegreeWordsUnsatisfiable`, `Scenarios.BachelorDegreeExample`). The test at
  lines 297-306 expects more than 50.

## Model

| member | source | states |
|---|---|---|
| Strings.Lower | backend/app/scoring_engine.py:53 | `str.lower` on ASCII: same length, every character mapped by `LowerChar`, and the result has no upper-case letter (`LowerNoUpper`) |
| Strings.LowerFixpoint | backend/app/scoring_engine.py:53 | lower-casing text with no capitals leaves it unchanged |
| Strings.Find | backend/app/scoring_engine.py:80 | `str.find`: -1 exactly when the needle does not occur; otherwise an in-range index where it occurs, and no earlier index has it |
| Strings.Split | backend/app/scoring_engine.py:118 | `split('\n')` always yields at least one piece |
| Strings.SplitPieces | backend/app/scoring_engine.py:118 | no piece holds the separator, and joining the pieces with the separator gives back the text |
| Strings.SplitFirstPiece | backend/app/scoring_engine.py:490-491 | the first line (the target role of `_score_role_match`) is the text up to its first line feed, or all of it when there is none |
| Strings.SplitWithoutSeparator | backend/app/scoring_engine.py:118 | a text with no separator splits into exactly itself |
| Strings.RunsSound | backend/app/scoring_engine.py:61 | every run is a maximal stretch of kept characters: non-empty, bounded by a non-kept character or an end of the text on both sides |
| Strings.RunsComplete | backend/app/scoring_engine.py:61 | every maximal stretch of kept characters is one of the runs |
| Strings.RunsStrip | backend/app/scoring_engine.py:55 | stripping the outer whitespace keeps the whitespace-split words |
| Strings.RunsLower | backend/app/scoring_engine.py:53 | the words of the lower-cased text are the text's words, each lower-cased, in order |
| Strings.Strip | backend/app/scoring_engine.py:55 | `str.strip`: the slice of the input between a leading and a trailing stretch of whitespace, and it neither starts nor ends with whitespace |
| Strings.StripFixpoint | backend/app/scoring_engine.py:55 | stripping a text without outer whitespace leaves it unchanged |
| Strings.JoinStartsWithFirst | backend/app/scoring_engine.py:91 | `' '.join(words)` begins with the first word |
| Strings.Dedupe | backend/app/scoring_engine.py:132 | `list(set(xs))`: no duplicates and exactly the elements of `xs` |
| Strings.NoDupCard | backend/app/scoring_engine.py:132 | a duplicate-free list is as long as its set of elements |
| Strings.Present | backend/app/scoring_engine.py:195-197 | the vocabulary filter keeps exactly the terms that occur in the text, and never more terms than the vocabulary has |
| Strings.FilterPresent | backend/app/scoring_engine.py:195-199 | the filtering loop returns exactly `Present(terms, text)` |
| TextPreprocessor.Preprocess | backend/app/scoring_engine.py:51-55 | the result is normalised (no capitals, whitespace only as single spaces, none at either end) and no longer than the input |
| TextPreprocessor.PreprocessAsJoin | backend/app/scoring_engine.py:51-55 | the result is the input's whitespace-separated words, lower-cased, in order, joined by single spaces, and those are its words |
| TextPreprocessor.RunsCollapse | backend/app/scoring_engine.py:54 | collapsing whitespace runs keeps the whitespace-separated words |
| TextPreprocessor.NormalizedJoin | backend/app/scoring_engine.py:51-55 | a normalised text is its words joined by single spaces |
| TextPreprocessor.CollapseAppend | backend/app/scoring_engine.py:54 | the collapse of two pieces is the collapse of each, the second starting inside a run when the first ends in whitespace |
| TextPreprocessor.CollapseBlank | backend/app/scoring_engine.py:54 | a whitespace run becomes one space, or nothing when it continues a run |
| TextPreprocessor.PreprocessIdempotent | backend/app/scoring_engine.py:51-55 | preprocessing twice equals preprocessing once |
| TextPreprocessor.NormalizedFixpoint | backend/app/scoring_engine.py:51-55 | every normalised text is left unchanged by `preprocess` |
| TextPreprocessor.PreprocessOneLine | backend/app/scoring_engine.py:117-118 | a preprocessed text has no line feed, so `split('\n')` yields it as its only line |
| TextPreprocessor.CollapseLength | backend/app/scoring_engine.py:54 | collapsing whitespace runs never lengthens the text |
| TextPreprocessor.CollapseFixpoint | backend/app/scoring_engine.py:54 | a text already single-spaced with plain spaces is unchanged by the collapse |
| TextPreprocessor.ExtractWords | backend/app/scoring_engine.py:58-62 | a string is extracted exactly when it is a maximal run of word characters of the preprocessed text; each is non-empty and occurs in it |
| TextPreprocessor.ExtractNgrams | backend/app/scoring_engine.py:65-73 | the n-gram set is exactly the joined windows of n consecutive words, and empty when there are fewer than n words |
| TextPreprocessor.FindSnippet | backend/app/scoring_engine.py:76-93 | empty exactly when the term does not occur case-insensitively; otherwise wrapped in `...` on both sides |
| TextPreprocessor.SnippetStartsWithTerm | backend/app/scoring_engine.py:85-93 | for a term without spaces that occurs, the snippet opens (after `...`) with the term's occurrence |
| KeywordExtractor.QuotedShape | backend/app/scoring_engine.py:129 | every quoted term is non-empty, has no quote character and occurs between quotes in the line |
| KeywordExtractor.QuotedPair | backend/app/scoring_engine.py:129 | after quote-free text, a quote pair around a non-empty quote-free body yields that body first, and the scan resumes after the closing quote |
| KeywordExtractor.AcronymsOf | backend/app/scoring_engine.py:161 | the acronyms are exactly the words of two or more capital letters |
| KeywordExtractor.NoAcronymsWithoutCapitals | backend/app/scoring_engine.py:161 | a text without capitals (as every preprocessed line is) yields no acronym |
| KeywordExtractor.ExtractTechTerms | backend/app/scoring_engine.py:151-164 | duplicate-free, with exactly the lexicon terms in the lower-cased text plus the lower-cased acronyms |
| KeywordExtractor.TechTermsOfNormalized | backend/app/scoring_engine.py:151-164 | on a preprocessed line the tech terms are exactly the lexicon terms it contains |
| KeywordExtractor.CollectMustTerms | backend/app/scoring_engine.py:123-130 | the line loop gathers the tech terms and quoted terms of exactly the lines holding a must-have marker |
| KeywordExtractor.ExtractMustHaves | backend/app/scoring_engine.py:115-132 | duplicate-free, with elements equal to the must-have set of the job description |
| KeywordExtractor.MustHavesOneLine | backend/app/scoring_engine.py:115-132 | the must-have set is the lexicon terms and quoted terms of the preprocessed text if it holds a must-have marker, else empty |
| KeywordExtractor.CollectNiceTerms | backend/app/scoring_engine.py:143-146 | the line loop gathers the tech terms of exactly the lines holding a nice-to-have marker |
| KeywordExtractor.ExtractNiceToHaves | backend/app/scoring_engine.py:135-148 | duplicate-free, with elements equal to the nice-to-have set of the job description |
| KeywordExtractor.NiceToHavesOneLine | backend/app/scoring_engine.py:135-148 | the nice-to-have set is the lexicon terms of the preprocessed text if it holds a nice-to-have marker, else empty |
| KeywordExtractor.ExtractDegreeRequirements | backend/app/scoring_engine.py:188-199 | the degree words that occur in the preprocessed text, in vocabulary order |
| KeywordExtractor.ExtractRoleKeywords | backend/app/scoring_engine.py:202-213 | the role words that occur in the preprocessed text, in vocabulary order |
| KeywordExtractor.DigitsEnd | backend/app/scoring_engine.py:173 | `\d+` is greedy: the run covers digits only and stops at the first non-digit |
| KeywordExtractor.FirstSingle | backend/app/scoring_engine.py:173-183 | `re.findall(...)[0]` for the year pattern: no match anywhere, or the leftmost position where the pattern matches |
| KeywordExtractor.FirstRange | backend/app/scoring_engine.py:174-181 | the leftmost match of the range pattern, or none |
| KeywordExtractor.RangeHoldsSingle | backend/app/scoring_engine.py:172-181 | every range match contains a match of the year pattern (at its second number) |
| KeywordExtractor.RangeUnreachable | backend/app/scoring_engine.py:177-181 | when the year pattern finds nothing, the range pattern finds nothing either, so the tuple branch never runs |
| KeywordExtractor.YearsInSpec | backend/app/scoring_engine.py:167-185 | `None` exactly when no position matches; otherwise the number captured at the leftmost match |
| KeywordExtractor.YearsRequiredMatch | backend/app/scoring_engine.py:167-185 | on the preprocessed text: `None` exactly when the year pattern matches nowhere, otherwise the number captured at its leftmost match |
| ResumeParser.ToExperience | backend/app/scoring_engine.py:235-247 | title and description stripped; the start year kept; the end year the captured one or else the current year; years is end minus start and recency is the current year minus the end |
| ResumeParser.ExtractWorkExperience | backend/app/scoring_engine.py:220-249 | one experience record per job match, in order, each built by `ToExperience` |
| ResumeParser.NegativeYearsKept | backend/app/scoring_engine.py:244 | for every entry whose end year is before its start year, `years` is the negative difference: nothing clamps it at zero |
| ResumeParser.Records | backend/app/scoring_engine.py:264 | the education records carry exactly the given kinds, in order |
| ResumeParser.RecordsOfKinds | backend/app/scoring_engine.py:264 | records are determined by their kinds |
| ResumeParser.ExtractEducation | backend/app/scoring_engine.py:252-266 | no section gives no records; otherwise the kinds bachelor/master/phd/certificate found in the lower-cased section, in that order |
| ResumeParser.RecordsPresent | backend/app/scoring_engine.py:262-264 | the loop appends one record per vocabulary kind that occurs |
| ResumeParser.EducationKindsInVocabulary | backend/app/scoring_engine.py:262-264 | every extracted kind is one of the four, and there are at most four records |
| ResumeParser.TotalYearsAppend | backend/app/scoring_engine.py:269-275 | total years of a concatenation is the sum of the totals |
| ResumeParser.TotalYearsPermutation | backend/app/scoring_engine.py:269-275 | the total does not depend on the order of the records |
| ResumeParser.TotalYearsNonNegative | backend/app/scoring_engine.py:269-275 | with no negative durations the total is non-negative |
| Results.AllCategoriesComplete | backend/app/scoring_engine.py:320-348 | the category list names every category, so a full score dictionary has all eight keys |
| Results.ToDict | backend/app/scoring_engine.py:774-808 | `to_dict` yields a dictionary of eight fields whose keys are, in order, `overall_score`, `label`, `categories`, `must_have`, `nice_to_have`, `red_flags`, `actions`, `metadata` |
| Results.LabelRoundTrip | backend/app/scoring_engine.py:694-701 | each label's text reads back as that label |
| Results.KindRoundTrip | backend/app/scoring_engine.py:367-370 | `must-have` / `nice-to-have` read back as their kinds |
| Results.CategoryRoundTrip | backend/app/scoring_engine.py:779-786 | each category key reads back as its category |
| Results.MatchesRoundTrip | backend/app/scoring_engine.py:787-804 | the keyword-match dictionaries read back as the matches |
| Results.CategoriesRoundTrip | backend/app/scoring_engine.py:779-786 | the categories dictionary reads back as the score map restricted to the listed categories |
| Results.DictRoundTrip | backend/app/scoring_engine.py:774-808 | reading `to_dict(r)` back gives `r`, so nothing is lost |
| Results.ToDictInjective | backend/app/scoring_engine.py:774-808 | two results with the same dictionary are equal |
| Scoring.CountMentioned | backend/app/scoring_engine.py:400 | the number of terms found in the lower-cased resume is at most the number of terms |
| Scoring.CountAllMentioned | backend/app/scoring_engine.py:400 | the count equals the number of terms exactly when every term is found |
| Scoring.CountMentionedCard | backend/app/scoring_engine.py:400 | for a duplicate-free list the count is the size of the set of found terms |
| Scoring.CountMentionedOrder | backend/app/scoring_engine.py:400-401 | two duplicate-free lists with the same elements have the same count |
| Scoring.Absent | backend/app/scoring_engine.py:663 | the missing terms are exactly the terms not found; with the found ones they make up the whole list |
| Scoring.Fraction | backend/app/scoring_engine.py:407 | `matched / total` lies in [0, 1], is 1 exactly when all match and 0 exactly when none does |
| Scoring.KeywordEvidence | backend/app/scoring_engine.py:413-418 | one evidence line per found must-have, each naming a found must-have with a `...` snippet |
| Scoring.KeywordSkillsScore | backend/app/scoring_engine.py:391-429 | score in [0, 100]; at most 70 with must-haves and no nice-to-haves; matched_must equals the number of evidence lines |
| Scoring.KeywordSkillsFull | backend/app/scoring_engine.py:403-411 | 100 exactly when every must-have and every nice-to-have is found and there is a nice-to-have |
| Scoring.KeywordSkillsOrder | backend/app/scoring_engine.py:400-411 | the score depends on the extracted terms only as sets |
| Scoring.RecencyWeight | backend/app/scoring_engine.py:452-458 | the weight is 1.0, 0.7 or 0.4, always in [0.4, 1.0] |
| Scoring.RecencyWeightMonotone | backend/app/scoring_engine.py:452-458 | an older role never weighs more |
| Scoring.Relevance | backend/app/scoring_engine.py:461-466 | one role's relevance lies in [0, 1] and is 0 exactly when none of the keywords occurs in its text |
| Scoring.RelevanceTotal | backend/app/scoring_engine.py:449-467 | the sum lies between 0 and the number of roles and is 0 exactly when no role is relevant |
| Scoring.RelevanceEvidence | backend/app/scoring_engine.py:469-470 | evidence is empty exactly when no role is relevant; each line has a positive match count |
| Scoring.CountRecent | backend/app/scoring_engine.py:476 | the recent-role count is at most the number of roles |
| Scoring.Mean | backend/app/scoring_engine.py:472 | the average lies in [0, 1] and is 0 exactly when the total is |
| Scoring.ExperienceRelevanceScore | backend/app/scoring_engine.py:431-478 | no experience gives 0 with the error detail; the score lies in [0, 100] and is 0 exactly when there is no evidence |
| Scoring.RoleLoopScore | backend/app/scoring_engine.py:496-504 | after the loop: 95 if some role matches exactly, else 70 if some role is adjacent, else 0 |
| Scoring.RoleEvidence | backend/app/scoring_engine.py:496-504 | no evidence exactly when no role is exact or adjacent |
| Scoring.RoleMatchScore | backend/app/scoring_engine.py:480-514 | the score lies in [20, 95], there is always evidence, and the details list the resume roles |
| Scoring.RoleMatchLevels | backend/app/scoring_engine.py:496-508 | 95 iff an exact match, 70 iff adjacent without exact, 20 iff neither |
| Scoring.RoleMatchWithoutExperience | backend/app/scoring_engine.py:506-508 | with no experience records the role score is 20 |
| Scoring.SeniorityValue | backend/app/scoring_engine.py:531-543 | in [0, 100]; at least 90 iff the requirement is met; 55 at one year short; at most 20 two short; 0 from three short |
| Scoring.SeniorityMonotone | backend/app/scoring_engine.py:531-543 | more years never lower the seniority score |
| Scoring.SeniorityMatchScore | backend/app/scoring_engine.py:516-550 | no extractable requirement gives 50 with the unknown-requirement evidence; the score lies in [0, 100] |
| Scoring.SeniorityCompared | backend/app/scoring_engine.py:531-548 | with a requirement, the details record years, requirement and gap, and the score is at least 90 iff the requirement is met |
| Scoring.CountSatisfied | backend/app/scoring_engine.py:575 | the satisfied count is at most the number of required degrees |
| Scoring.CountAllSatisfied | backend/app/scoring_engine.py:575 | the count equals the number required exactly when every requirement is satisfied |
| Scoring.EducationMatchScore | backend/app/scoring_engine.py:552-588 | no requirement gives 75, no education gives 30 (with their evidence); the score lies in [0, 100] |
| Scoring.EducationFull | backend/app/scoring_engine.py:574-577 | with requirements and education, 100 exactly when every requirement is a substring of a found kind |
| Scoring.DegreeWordsUnsatisfiable | backend/app/scoring_engine.py:574-575 | "degree" and "certification" are substrings of no education kind |
| Scoring.DegreeCapsEducation | backend/app/scoring_engine.py:574-577 | a job description mentioning "degree" caps the education score below 100 |
| Scoring.CountIn | backend/app/scoring_engine.py:618 | the matched-tool count is at most the number of job-description tools |
| Scoring.CountAllIn | backend/app/scoring_engine.py:618 | the count equals the number of tools exactly when every tool is matched |
| Scoring.ToolingMatchScore | backend/app/scoring_engine.py:590-630 | no tool in the job description gives 50 with its evidence; the score lies in [0, 100] |
| Scoring.ToolingFull | backend/app/scoring_engine.py:598-619 | 100 exactly when every lexicon tool in the job description is also in the resume |
| Scoring.CountAllRecent | backend/app/scoring_engine.py:641 | the recent count equals the number of roles exactly when every role is at most 3 years old |
| Scoring.RecencyMatchScore | backend/app/scoring_engine.py:632-650 | no experience gives 0; the score lies in [0, 100]; the details carry the recent count |
| Scoring.RecencyFull | backend/app/scoring_engine.py:641-642 | 100 exactly when every role is at most 3 years old |
| Report.MissingFlags | backend/app/scoring_engine.py:663-665 | at most one flag, present exactly when some must-have is missing, naming at most three examples |
| Report.CountShort | backend/app/scoring_engine.py:668 | the short-job count is at most the number of roles |
| Report.HoppingFlags | backend/app/scoring_engine.py:668-670 | at most one flag, present exactly when two or more jobs lasted under a year |
| Report.GapsBefore | backend/app/scoring_engine.py:673-676 | after i steps the flags are exactly the gaps between the first i adjacent pairs |
| Report.GapFlags | backend/app/scoring_engine.py:673-676 | fewer gap flags than roles; every flag has a gap above 1 equal to the difference of its years |
| Report.GapFlagsEmpty | backend/app/scoring_engine.py:673-676 | no gap flag exactly when no adjacent pair is more than a year apart |
| Report.AnyMustElems | backend/app/scoring_engine.py:681 | the "any must-have in the resume" test depends only on the set of must-haves |
| Report.WeakFlags | backend/app/scoring_engine.py:679-682 | at most four flags, each for a weak phrase in the resume; none exactly when no must-have is in the resume or no weak phrase is |
| Report.NoRedFlags | backend/app/scoring_engine.py:652-684 | no red flag exactly when all must-haves are found, fewer than two short jobs, no gap, and no weak claim applies |
| Report.RedFlagsOf | backend/app/scoring_engine.py:652-684 | at most one flag per role plus six |
| Report.RedFlagsCountOrder | backend/app/scoring_engine.py:663-682 | the number of flags depends on the must-haves only as a set |
| Report.RedFlagsCategory | backend/app/scoring_engine.py:344-348 | the red-flags score lies in [0, 100]; 100 iff no flag; 0 iff seven or more; one evidence line per flag |
| Report.DefaultWeights | backend/app/scoring_engine.py:287-298 | the default weights are non-negative |
| Report.DefaultWeightsTotal | backend/app/scoring_engine.py:287-298 | the default weights of the eight categories sum to 1 |
| Report.WeightedSumRange | backend/app/scoring_engine.py:688-691 | with scores in [0, 100] and non-negative weights, the sum lies between 0 and 100 times the total weight |
| Report.WeightedSumSameScores | backend/app/scoring_engine.py:688-691 | the sum depends only on the categories' score numbers |
| Report.OverallSameScores | backend/app/scoring_engine.py:686-692 | two score maps with equal numbers give equal overall scores |
| Report.Round1 | backend/app/scoring_engine.py:692 | `round(x, 1)` is within 0.05 of x |
| Report.Round1Monotone | backend/app/scoring_engine.py:692 | rounding preserves order |
| Report.OverallScore | backend/app/scoring_engine.py:350-355 | within 0.05 of the weighted sum; in strict mode with a flag, 0 or within 0.05 of the weighted sum less 20; never negative when the sum is not |
| Report.Round1Range | backend/app/scoring_engine.py:692 | a value in [0, 100] rounds to a value in [0, 100] |
| Report.StrictPenalty | backend/app/scoring_engine.py:353-355 | off, or with no flag, the score is kept; on with flags it drops by 20, floored at 0 |
| Report.OverallInRange | backend/app/scoring_engine.py:350-355 | with default weights and in-range scores the overall score lies in [0, 100] |
| Report.LabelOf | backend/app/scoring_engine.py:694-701 | strong exactly from 75, medium exactly from 50 below 75, weak exactly below 50 |
| Report.LabelMonotone | backend/app/scoring_engine.py:694-701 | a higher overall score never gets a weaker label |
| Report.StrictNeverRaises | backend/app/scoring_engine.py:353-355 | strict mode never raises the overall score, and changes nothing when there is no flag |
| Report.StrictNeverImproves | backend/app/scoring_engine.py:353-358 | strict mode never gives a better label |
| Report.GoodFitFor | backend/app/scoring_engine.py:715-721 | each summary line is present exactly when its category scores at least 70 |
| Report.SuggestionsFor | backend/app/scoring_engine.py:730-736 | the highlight suggestion exactly when the seniority gap is negative; the nice-to-have suggestion comes first exactly when some nice-to-have is missing |
| Report.ActionsFor | backend/app/scoring_engine.py:703-746 | the gaps are `Absent(must, resume)`: one entry per must-have the resume does not mention, in must-have order, as many as the must-haves not found; the ATS keywords are the first min(5, gaps) of them |
| Report.KeywordMatchesFor | backend/app/scoring_engine.py:748-771 | one match per keyword in order, with its term and kind, matched iff found, and evidence exactly when matched |
| Report.UnmatchedAreAbsent | backend/app/scoring_engine.py:758-769 | the unmatched keyword records are exactly the missing terms, in order |
| Report.ScoreMapInRange | backend/app/scoring_engine.py:318-348 | the score dictionary has every one of the eight categories, and all its scores lie in [0, 100] when each scorer's does |
| Report.ScoresForInRange | backend/app/scoring_engine.py:318-348 | every category is present and every score lies in [0, 100] |
| Report.AnalysisFor | backend/app/scoring_engine.py:300-389 | the result's categories, red flags, term lists, overall score (weighted, rounded, strict penalty) and label agree with the scorers |
| Report.AnalysisInRange | backend/app/scoring_engine.py:300-358 | with default weights the overall score of any analysis lies in [0, 100] |
| Report.OverallOrderIndependent | backend/app/scoring_engine.py:309-355 | the overall score is the same for any order of the extracted terms |
| Report.AnalysisOrderIndependent | backend/app/scoring_engine.py:309-358 | the overall score and label are the same for any order of the extracted terms |
| Report.ExtractionOrder | backend/app/scoring_engine.py:320-348 | the keyword score, the flag count and the red-flags score depend on the extracted terms only as sets |
| Engine.CountMentions | backend/app/scoring_engine.py:400 | the counting loop returns `CountMentioned` |
| Engine.AbsentTerms | backend/app/scoring_engine.py:739 | the filtering loop returns exactly the missing terms, in order |
| Engine.CountRecentRoles | backend/app/scoring_engine.py:641 | the counting loop returns `CountRecent` |
| Engine.CountShortRoles | backend/app/scoring_engine.py:668 | the counting loop returns `CountShort` |
| Engine.SumRelevance | backend/app/scoring_engine.py:446-470 | the per-role loop returns the relevance total and evidence |
| Engine.GapFlagsLoop | backend/app/scoring_engine.py:673-676 | the pair loop returns exactly `GapFlags` |
| Engine.WeakClaimsLoop | backend/app/scoring_engine.py:679-682 | the phrase loop flags each present weak phrase when some must-have is in the resume, and nothing otherwise |
| Engine.ScoringEngine.constructor | backend/app/scoring_engine.py:281-284 | given non-empty weights are kept, missing or empty ones become the defaults; strict mode is stored |
| Engine.ScoringEngine.ScoreKeywordSkills | backend/app/scoring_engine.py:391-429 | returns `KeywordSkillsScore` |
| Engine.ScoringEngine.ScoreExperienceRelevance | backend/app/scoring_engine.py:431-478 | returns `ExperienceRelevanceScore` |
| Engine.ScoringEngine.ScoreRoleMatch | backend/app/scoring_engine.py:480-514 | returns `RoleMatchScore` |
| Engine.ScoringEngine.ScoreEducationMatch | backend/app/scoring_engine.py:552-588 | returns `EducationMatchScore` |
| Engine.ScoringEngine.ScoreToolingMatch | backend/app/scoring_engine.py:590-630 | returns `ToolingMatchScore` |
| Engine.ScoringEngine.ScoreRecencyMatch | backend/app/scoring_engine.py:632-650 | returns `RecencyMatchScore` |
| Engine.ScoringEngine.DetectRedFlags | backend/app/scoring_engine.py:652-684 | returns `RedFlagsOf`, the missing, hopping, gap and weak-claim flags in that order |
| Engine.ScoringEngine.CalculateOverallScore | backend/app/scoring_engine.py:686-692 | returns the weighted sum of the engine's weights, rounded to one decimal |
| Engine.ScoringEngine.GenerateActions | backend/app/scoring_engine.py:703-746 | returns `ActionsFor` |
| Engine.ScoringEngine.CreateKeywordMatches | backend/app/scoring_engine.py:748-771 | returns `KeywordMatchesFor` |
| Engine.ScoringEngine.ScoreAll | backend/app/scoring_engine.py:317-348 | returns the eight-category score map and the red flags |
| Engine.ScoringEngine.Conclude | backend/app/scoring_engine.py:350-389 | builds the result from scores and flags: overall score, label, actions, keyword matches and metadata |
| Engine.ScoringEngine.Analyze | backend/app/scoring_engine.py:300-389 | the extracted terms are duplicate-free with the job description's must-have and nice-to-have sets, and the result equals `AnalysisFor` on the parsed records and those terms |
| Scenarios.PreprocessExampleCase | backend/app/scoring_engine.py:51-55 | `preprocess("HELLO World")` is "hello world" |
| Scenarios.PreprocessExampleSpacing | backend/app/scoring_engine.py:51-55 | `preprocess` of "hello", three spaces, "world", two line feeds, "test" is "hello world test" |
| Scenarios.PreprocessMinimum | backend/app/scoring_engine.py:51-55 | `preprocess("Minimum 5+ years of experience required")` only lowers the capital M |
| Scenarios.YearsExampleMinimum | backend/app/scoring_engine.py:167-185 | "Minimum 5+ years of experience required" (given as its capital and the rest) requires 5 years |
| Scenarios.YearsExampleRange | backend/app/scoring_engine.py:167-185 | "3-5 years of professional experience" requires 5 years (the year pattern matches at the 5) |
| Scenarios.YearsExampleSeven | backend/app/scoring_engine.py:167-185 | "7 years experience needed" requires 7 years |
| Scenarios.SeniorityExampleShort | backend/app/scoring_engine.py:531-538 | against "Minimum 5+ years of experience required", 3 years scores 20 and 5 years scores 90 |
| Scenarios.BachelorDegreeHalf | backend/app/scoring_engine.py:574-577 | any job description whose degree words are "bachelor" and "degree", against education records that include a bachelor record, scores 50 |
| Scenarios.BachelorDegreeWords | backend/app/scoring_engine.py:187-197 | the degree words of "Bachelor's degree required" are "bachelor" and "degree", in that order |
| Scenarios.BachelorDegreeExample | backend/app/scoring_engine.py:552-588 | `_score_education_match([{'type': 'bachelor'}], "Bachelor's degree required")` is 50 |

## Left out

- The regular expressions that cut the resume into sections and job entries (lines 225-232 and 256-257) are not modelled. `Analyze` receives the job matches as `RawEntry` values (title, start year, optional end year, description) and the education section as an optional string.
- `datetime.now()` becomes the `currentYear` parameter. The metadata has no timestamp.
- Floating point is not modelled. Scores are exact reals, and `round(x, 1)` rounds halves up (Python rounds the binary value half to even).
- Text is ASCII only: `lower`, `\s`, `\w` and `isspace` are restricted to ASCII characters.
- Python sets have no order. The extraction methods promise only a duplicate-free list with the right elements, and lemmas show that the scores and the label do not depend on the order. The lexicon is a sequence in `TECH_STACK` order.
- Evidence lines, red flags and action lines are tagged values carrying the numbers and terms their sentences show, not the formatted text.
- The `details` dictionaries are one `Details` variant per shape. `analyze`'s `settings` parameter and `_generate_actions`' unused `jd_text` parameter are dropped.
- Weights are a map from the eight categories. Weight keys outside the categories cannot be represented, so `_calculate_overall_score` iterates the category list instead of the dictionary's keys; for category keys the sum is the same.
- The `else 50` of line 577 is unreachable after the early return at line 560 and is not modelled.
- `_score_seniority_match`, `_get_label` and `_default_weights` have no loops and are the functions `Scoring.SeniorityMatchScore`, `Report.LabelOf` and `Report.DefaultWeights`, which the engine calls directly.
- Engine.SumRelevance: the inner keyword loop of lines 462-464 is the `CountMentioned` function inside `Relevance`, not a separate loop.
- `extract_words` and `extract_ngrams` are not called by the engine. They are modelled as functions and methods of their own.
- Logging is left out.
- ExtractNgrams: takes `n` as a natural number. Python accepts a negative `n`, and then slices with negative indices; no caller in the engine passes one, and that case is not modelled.
- QuotedShape: states only what each captured phrase looks like. Which quote pairs are captured, and in what order, is stated one pair at a time by `QuotedPair`, not as a closed form over the whole line.
