# Vlysy CV analyser — a Dafny model of its rule engine and edit pipeline

Vlysy analyses a CV (résumé) pasted or uploaded through a Flask web
application. It reports *corrections*: a span of the CV text, a suggested
replacement, an explanation and a category. It scores the CV and lets the
user apply a selection of corrections back to the text. The language-model
oracle the application asks first is not modelled. This project models the
deterministic core around it:

* **Normalisation and file dispatch** (`attached_assets/resume_parser.py`).
  `parse_resume_text` collapses all whitespace to single spaces.
  `parse_resume_file` picks a parser by file extension or raises the
  "Unsupported file format" error.
* **The segmenter** (`split_text_into_segments`). It splits the text on
  sentence ends and newlines, then greedily packs the pieces into segments
  of about `max_segment_length` characters (module `Segmenter`).
* **The rule scanner.** Every case-insensitive match of every rule of a
  rule table becomes a correction. The replacement is adapted to the case
  of the matched text, and a match whose replacement is empty is dropped
  (modules `Patterns`, `RuleRegistry`, `RuleScanner`).
  * `perform_enhanced_analysis` first adds up to three "missing section"
    corrections, then scans the locale's rule list. When the list is longer
    than 25, it keeps the first 25 of a stable sort by category (modules
    `EnhancedAnalysis`, `CorrectionLimit`).
  * `perform_fallback_analysis` scans the older, smaller rule list.
* **Grounding** (module `Grounding`). Each suggestion the oracle returns is
  located in the CV: first exactly, then ignoring case. A suggestion whose
  text is found neither way is dropped.
* **The fallback scorer and the summary ladder** (module `Scorer`). The
  scorer computes four capped sub-scores, a weighted overall score and
  Python's banker's rounding. The ladder has eight score bands, in German
  or English.
* **The edit applier.** The `/apply_corrections` route is identical in
  `app.py`, `routes.py` and `attached_assets/app.py`. It sorts the selected
  corrections by start offset, highest first, and splices each suggestion
  into the text (module `EditApplier`).
* **The small checks of the web layer** (module `WebForms`):
  * `allowed_file`;
  * the cap of 20 corrections kept in the session;
  * the testimonial form of `/donate`, including its rating parser.

Regular expressions are modelled by a matcher for the patterns the core
uses:
* case-insensitive alternatives of literal words;
* `\s+` between the words of a phrase;
* a leading `\b`, and a trailing `\b` where the pattern has one.

Alternatives are tried in the order Python's backtracking engine tries
them. `re.finditer` is modelled as leftmost, non-overlapping matching, and
its contract says exactly which spans it reports.

Two facts the proofs bring out:
* The weighted overall score of the fallback scorer is at most 29.5, so
  its rounded value is at most 30. The fallback summary is therefore always
  the message of the lowest band, or of the 30–39 band (`WeightedBound`,
  `FallbackSummaryBands`).
* On a valid selection, the edit applier's answer equals replacing every
  selected span of the original text at once. It does not depend on the
  order in which the client listed the corrections (`SimultaneousReplacement`,
  `OrderIndependent`).

## Model

| member | source | states |
|---|---|---|
| TextUtil.FindFrom | ai_analyzer.py:1218 | `str.find` from an offset: the result is an occurrence at or after the offset with none before it; None means there is no occurrence from there on |
| TextUtil.RFind | app.py:206 | the last occurrence of a character (where `rsplit('.', 1)` cuts): it holds the character and no later index does; None means the character does not occur |
| TextUtil.RFindAppend | app.py:206 | the last occurrence in a concatenation is in the second part when it occurs there, else in the first |
| TextUtil.SpaceRunEnd | ai_analyzer.py:100 | the maximal run of `\s` characters from an offset |
| TextUtil.TokenLen | attached_assets/resume_parser.py:97 | the length of the leading maximal run of non-whitespace characters, as `str.split` reads it |
| TextUtil.Words | attached_assets/resume_parser.py:97 | `str.split()` yields only non-empty tokens free of whitespace |
| TextUtil.StripLeft | ai_analyzer.py:107 | the result is a suffix of the input that starts with a non-space, and everything removed is whitespace |
| TextUtil.StripRight | ai_analyzer.py:107 | the result is a prefix of the input that ends with a non-space, and everything removed is whitespace |
| TextUtil.StripEmptyIffBlank | ai_analyzer.py:107 | `s.strip()` is empty exactly when `s` is all whitespace |
| TextUtil.ClampIndex | app.py:496 | Python's slice-index normalisation: a negative index counts from the end, and out-of-range indices are clamped to 0..len |
| TextUtil.PySlice | app.py:496 | Python slicing: never longer than the string, and an ordinary slice for in-range indices |
| TextUtil.IsSpace | ai_analyzer.py:100 | the `\s` class and `str.isspace` on Latin-1: space, tab to carriage return, the separators 0x1c–0x1f, NEL and the no-break space |
| TextUtil.IsWordChar | ai_analyzer.py:1267 | the `\w` class on the letters, digits and underscore of Latin-1; it decides where `\b` holds |
| TextUtil.Lower | ai_analyzer.py:954 | `str.lower()` character by character on Latin-1, so the length is kept |
| TextUtil.Upper | ai_analyzer.py:1274 | `str.upper()` character by character on Latin-1; `ß` and `ÿ`, whose upper case is not a single Latin-1 character, are kept |
| TextUtil.IsUpperStr | ai_analyzer.py:1273 | `str.isupper()`: some cased character and no lower-case one |
| TextUtil.Capitalize | ai_analyzer.py:1276 | `str.capitalize()`: the first character upper-cased and the rest lower-cased |
| TextUtil.Find | ai_analyzer.py:951 | `str.find` from the start of the text (the contract is `FindFrom`'s at offset 0) |
| TextUtil.JoinSpace | attached_assets/resume_parser.py:97 | `" ".join`: the pieces separated by single spaces (its round trip with `split` is `WordsOfJoin`) |
| TextUtil.Strip | ai_analyzer.py:107 | `str.strip()`: `StripLeft` then `StripRight`, so whitespace is removed from both ends and nothing else |
| Patterns.MatchToks | ai_analyzer.py:1267 | a match of a word sequence consumes at least one character per token and ends inside the text |
| Patterns.MatchAlts | ai_analyzer.py:1267 | the first alternative that matches gives a non-empty match; it ends on a word boundary when the pattern closes with `\b` |
| Patterns.MatchAt | ai_analyzer.py:1267 | a match starts at a word boundary and is non-empty |
| Patterns.FindAllFrom | ai_analyzer.py:1267 | `re.finditer`: the reported spans are non-empty, inside the text, in increasing order and pairwise disjoint |
| Patterns.FindAllFromMatches | ai_analyzer.py:1267 | each reported span is the match of the pattern at its start |
| Patterns.FindAllFromComplete | ai_analyzer.py:1267 | no match is missed: every offset where the pattern matches lies inside a reported span |
| Patterns.FoundIffSomeMatch | ai_analyzer.py:1217 | `re.search` succeeds exactly when the pattern matches at some offset |
| Patterns.FindAll | ai_analyzer.py:1267 | `re.finditer` over the whole text: `FindAllFrom` from offset 0 |
| RuleRegistry.ChecksByLocale | ai_analyzer.py:1210-1213 | `'de'` gets the common rules followed by the three German-specific rules; every other locale gets the common rules, which hold the weak phrases |
| RuleRegistry.WeakPhrases | ai_analyzer.py:1133-1151 | the seven weak-phrase rules, English then German, with their replacements, explanations and categories |
| RuleRegistry.Pronouns | ai_analyzer.py:1154-1163 | the four pronoun rules; `I` and `ich` have an empty replacement |
| RuleRegistry.Cliches | ai_analyzer.py:1166-1175 | the four cliché rules |
| RuleRegistry.Formatting | ai_analyzer.py:1178-1185 | the three product-name rules |
| RuleRegistry.VagueTerms | ai_analyzer.py:1188-1196 | the three quantification rules |
| RuleRegistry.GermanSpecific | ai_analyzer.py:1199-1207 | the three German-only rules; `\bargts` has no closing boundary |
| RuleRegistry.CommonChecks | ai_analyzer.py:1212-1213 | the five common tables in check order |
| RuleRegistry.Checks | ai_analyzer.py:1210-1213 | the locale's rule list (its contract is `ChecksByLocale`) |
| RuleRegistry.FallbackChecks | ai_analyzer.py:218-267 | the eight rules of the fallback analysis, in order |
| RuleRegistry.ExperienceKeywords | ai_analyzer.py:1217 | the experience keywords searched for as whole words |
| RuleRegistry.EducationKeywords | ai_analyzer.py:1233 | the education keywords searched for as whole words |
| RuleRegistry.SkillsKeywords | ai_analyzer.py:1249 | the skills keywords, also the scorer's skills test at ai_analyzer.py:583 |
| RuleScanner.CaseTransfer | ai_analyzer.py:1272-1278 | the adapted replacement has the replacement's length, and it is empty exactly when the replacement is |
| RuleScanner.CaseTransferCases | ai_analyzer.py:1272-1278 | an all-upper match gets the replacement upper-cased; a match that starts upper-case gets it capitalised; any other match (a mixed-case one with a lower-case first letter, or one without capitals) gets it verbatim |
| RuleScanner.MatchCorrection | ai_analyzer.py:1268-1292 | one match as a correction, or none when the adapted replacement is empty (its contract is `MatchCorrectionsFromRule`) |
| RuleScanner.MatchCorrections | ai_analyzer.py:1267-1292 | the corrections of one rule over a list of matches, left to right (contracts: `MatchCorrectionsSpans`, `MatchCorrectionsOrdered`) |
| RuleScanner.RuleOutput | ai_analyzer.py:1267-1292 | the corrections of one rule over all its `re.finditer` matches (contract: `ScanRule`) |
| RuleScanner.RuleCorrections | ai_analyzer.py:1266-1292 | the corrections of a rule list, rule by rule (contracts: `RuleCorrectionsGrounded`, `RuleCorrectionsAppend`) |
| RuleScanner.ScanRules | ai_analyzer.py:1266-1292 | the nested scan loop yields exactly the rule-by-rule, left-to-right list of corrections `RuleCorrections` |
| RuleScanner.ScanRule | ai_analyzer.py:1267-1292 | the inner loop over one rule's matches yields exactly that rule's corrections, in match order |
| RuleScanner.RuleCorrectionsSnoc | ai_analyzer.py:1266-1292 | scanning one more rule appends exactly that rule's corrections |
| RuleScanner.MatchCorrectionsSpans | ai_analyzer.py:1267-1292 | every correction a rule produces sits on one of that rule's matches, over a non-empty span |
| RuleScanner.PerformFallbackAnalysis | ai_analyzer.py:205-297 | the fallback analysis is the scan over the fallback rule table |
| RuleScanner.MatchCorrectionsFromRule | ai_analyzer.py:1267-1292 | every correction built from genuine matches is what the rule reports for a match at its start |
| RuleScanner.RuleCorrectionsGrounded | ai_analyzer.py:1266-1292 | every rule correction is a non-empty in-text span whose text is `original`; its suggestion is non-empty; it is a match of one of the rules, with that rule's adapted replacement, explanation and category |
| RuleScanner.RuleCorrectionsAppend | ai_analyzer.py:1266 | the corrections of `a + b` are those of `a` followed by those of `b`, so the output is grouped by rule in check order |
| RuleScanner.MatchCorrectionsOrdered | ai_analyzer.py:1267-1292 | within one rule, corrections come from the matched spans, in increasing order over disjoint spans |
| RuleScanner.EmptyReplacementSilent | ai_analyzer.py:1280-1282 | a rule with an empty replacement contributes no correction |
| RuleScanner.NoMatchNoCorrections | ai_analyzer.py:1266-1292 | a text on which no rule matches gets no rule corrections |
| CorrectionLimit.StrLtIrreflexive | ai_analyzer.py:1297 | Python's string `<` is irreflexive |
| CorrectionLimit.StrLtTransitive | ai_analyzer.py:1297 | Python's string `<` is transitive |
| CorrectionLimit.StrLtTotal | ai_analyzer.py:1297 | any two distinct strings are ordered one way or the other |
| CorrectionLimit.StrLeTotalOrder | ai_analyzer.py:1297 | `<=` on category strings is a total order, as the sort needs |
| CorrectionLimit.OfCategory | ai_analyzer.py:1297 | the subsequence of one category is no longer than the list |
| CorrectionLimit.Insert | ai_analyzer.py:1297 | one insertion step of the sort adds exactly one element |
| CorrectionLimit.SortByCategory | ai_analyzer.py:1297 | the sort keeps the length |
| CorrectionLimit.InsertPermutes | ai_analyzer.py:1297 | an insertion step adds exactly the inserted correction to the multiset |
| CorrectionLimit.InsertSorted | ai_analyzer.py:1297 | an insertion step keeps a list sorted by category |
| CorrectionLimit.InsertStable | ai_analyzer.py:1297 | an insertion step puts the new element after every earlier element of its category |
| CorrectionLimit.SortByCategorySpec | ai_analyzer.py:1297 | `sorted(key=category)` is a permutation, ascending by category, and stable: each category keeps its input order |
| CorrectionLimit.StableSortUnique | ai_analyzer.py:1297 | two category-sorted lists with the same per-category subsequences are equal, so the stable sort has exactly one outcome |
| CorrectionLimit.OfCategoryPrefix | ai_analyzer.py:1297 | cutting a list to a prefix keeps a prefix of each category |
| CorrectionLimit.Cap | ai_analyzer.py:1295-1298 | at most 25 corrections are returned, and a list of at most 25 is returned unchanged |
| CorrectionLimit.CapSpec | ai_analyzer.py:1295-1298 | above 25, the result has exactly 25 corrections, drawn from the input and sorted by category, each category in input order; every dropped correction has a category at or after that of every kept one |
| EnhancedAnalysis.SectionStartSpec | ai_analyzer.py:1218-1220 | the anchor is the first `"\n\n"`, or 0 when there is none |
| EnhancedAnalysis.SectionStart | ai_analyzer.py:1218-1220 | the anchor of a missing-section correction (contract: `SectionStartSpec`) |
| EnhancedAnalysis.MissingSection | ai_analyzer.py:1222-1230 | the correction for one missing section, in the locale's language (contract: `MissingSectionShape`) |
| EnhancedAnalysis.MissingSections | ai_analyzer.py:1217-1263 | the missing-section corrections in check order (contract: `MissingSectionsSpec`) |
| EnhancedAnalysis.Absent | ai_analyzer.py:1217-1263 | the checked sections whose keywords occur nowhere, in check order, never more than were checked (membership: `AbsentMembers`) |
| EnhancedAnalysis.AbsentMembers | ai_analyzer.py:1217-1263 | a section is reported exactly when it is checked and none of its keywords occurs |
| EnhancedAnalysis.Reports | ai_analyzer.py:1217-1263 | one correction per absent section |
| EnhancedAnalysis.AbsentSections | ai_analyzer.py:1217-1263 | the three keyword checks in source order: experience, education, skills |
| EnhancedAnalysis.MissingSectionShape | ai_analyzer.py:1222-1230 | a missing-section correction is anchored at the section start, spans 10 characters and has category `content`; its `original` is the anchored text plus `"..."` and so never equals the text of its span |
| EnhancedAnalysis.MissingSectionsSpec | ai_analyzer.py:1217-1263 | at most three missing-section corrections, and none exactly when all three keyword searches succeed |
| EnhancedAnalysis.CheckMissingSections | ai_analyzer.py:1217-1263 | the three appending checks produce exactly `MissingSections` |
| EnhancedAnalysis.ReportsSnoc | ai_analyzer.py:1221-1263 | each failed keyword check appends its section's correction to those reported so far |
| EnhancedAnalysis.PerformEnhancedAnalysis | ai_analyzer.py:1116-1298 | the result is the 25-limit applied to the missing-section corrections followed by the scan over the locale's rules |
| EnhancedAnalysis.EnhancedAnalysisShape | ai_analyzer.py:1295-1298 | at most 25 corrections; below the limit, the missing-section corrections come first and all the rest follow unchanged; above it, 25 corrections of the full list, sorted by category |
| EnhancedAnalysis.EnhancedRuleCorrectionsByLocale | ai_analyzer.py:1210-1213 | for `'de'` the corrections of the German-specific rules are appended after all the others; other locales get none of them |
| Grounding.Ground | ai_analyzer.py:950-960 | a located suggestion lies inside the text |
| Grounding.GroundSpec | ai_analyzer.py:950-960 | the position is the first exact occurrence when there is one, else the first occurrence ignoring case; there is none exactly when the text occurs neither way |
| Grounding.GroundedSpanMatches | ai_analyzer.py:950-966 | the grounded span spells the suggestion's `original` up to case |
| Grounding.GroundOne | ai_analyzer.py:946-970 | the correction built for one suggestion, or none when it is skipped (contract: `GroundOneSpec`) |
| Grounding.GroundAll | ai_analyzer.py:945-972 | the corrections of a suggestion list, in order (contract: `GroundAllSpec`) |
| Grounding.GroundSuggestions | ai_analyzer.py:945-972 | the loop over the suggestions produces exactly `GroundAll`, in list order |
| Grounding.GroundOneSpec | ai_analyzer.py:946-970 | a suggestion is dropped exactly when its `original` is missing or empty or not found; a kept one keeps its `original` and takes the other fields or their defaults |
| Grounding.GroundAllSpec | ai_analyzer.py:945-972 | at most one correction per suggestion; each has a non-empty `original`, lies inside the text with `end - start == len(original)`, and spells its `original` up to case |
| Segmenter.NewlineRunEnd | ai_analyzer.py:100 | the maximal run of newlines from an offset (`\n+`) |
| Segmenter.SeparatorAt | ai_analyzer.py:100 | a separator match is non-empty and inside the text |
| Segmenter.SplitFrom | ai_analyzer.py:100 | `re.split` always yields at least one piece (what the pieces are is stated by `SplitUnitsTile`) |
| Segmenter.SplitUnits | ai_analyzer.py:100 | the `re.split` of the text at each whitespace run after `.`, `!` or `?` and at each newline run (contract: `SplitUnitsTile`) |
| Segmenter.SplitSpans | ai_analyzer.py:100 | the offsets of the pieces `re.split` returns |
| Segmenter.SplitSeparators | ai_analyzer.py:100 | the separators `re.split` removes, in order |
| Segmenter.Interleave | ai_analyzer.py:100 | pieces and separators laid end to end, alternately |
| Segmenter.SplitSpansEnds | ai_analyzer.py:100 | one span per piece; the first starts where the scan starts and the last ends at the end of the text |
| Segmenter.SplitSpansPieces | ai_analyzer.py:100 | each piece is the text between its span's offsets |
| Segmenter.SplitSpansSeparators | ai_analyzer.py:100 | between two consecutive pieces there is exactly one separator match, from the end of one to the start of the next |
| Segmenter.SplitSpansNoSeparatorInside | ai_analyzer.py:100 | no separator match starts inside a piece |
| Segmenter.SplitRebuilds | ai_analyzer.py:100 | there is one separator fewer than pieces, and pieces and separators laid end to end give back the text |
| Segmenter.SplitUnitsTile | ai_analyzer.py:100 | `re.split` tiles the text: the pieces are the slices between consecutive separator matches, none holds the start of a separator, and pieces and separators laid end to end are the text |
| Segmenter.SegmentsOf | ai_analyzer.py:112-122 | one stripped segment per group |
| Segmenter.SplitTextIntoSegments | ai_analyzer.py:88-124 | the packing loop yields exactly the segments of the greedy grouping of the split pieces |
| Segmenter.Push | ai_analyzer.py:105-118 | one iteration of the packing loop (contract: `PushStep`) |
| Segmenter.Pack | ai_analyzer.py:105-118 | the packing loop over the pieces (contracts: `PackCovers`, `PackNoBlank`, `PackLimit`, `PackGreedy`) |
| Segmenter.Groups | ai_analyzer.py:105-122 | the groups of pieces that make up the segments (contracts: `GroupsCoverUnits`, `GroupsRespectLimit`) |
| Segmenter.Segments | ai_analyzer.py:88-124 | the segments of a text (contracts: `SplitTextIntoSegments`, `SegmentsNonEmpty`) |
| Segmenter.PackStep | ai_analyzer.py:105-118 | the grouping of one more piece is the grouping so far with that piece pushed |
| Segmenter.PushStep | ai_analyzer.py:107-118 | one iteration: a piece that does not fit behind a non-empty current segment closes it (emitting its stripped text) and starts a new one; otherwise it is appended after a space, or alone when the current segment is empty |
| Segmenter.FinalStep | ai_analyzer.py:121-122 | after the loop, a non-empty current segment is emitted stripped, after the others |
| Segmenter.PackCovers | ai_analyzer.py:105-118 | the closed groups laid end to end, followed by the open one, are exactly the non-blank pieces so far |
| Segmenter.PackNoBlank | ai_analyzer.py:105-118 | no group holds a blank piece, no closed group is empty, and once a group is closed the current one is non-empty |
| Segmenter.PackShape | ai_analyzer.py:105-118 | the packing loop's invariant: the groups laid end to end are the non-blank pieces so far, no group is empty and no group holds a blank piece |
| Segmenter.PackLimit | ai_analyzer.py:111 | a group of two or more pieces is at most `max_segment_length + 1` characters long |
| Segmenter.PackGreedy | ai_analyzer.py:111-113 | each closed group was closed because the next piece did not fit |
| Segmenter.GroupsCoverUnits | ai_analyzer.py:105-122 | the segments cover the non-blank pieces exactly, in order, each once, and no group is empty |
| Segmenter.GroupsRespectLimit | ai_analyzer.py:111-118 | multi-piece segments exceed the limit by at most the joining space, and every group boundary is forced by the limit |
| Segmenter.JoinNonBlank | ai_analyzer.py:116-117 | joining non-blank pieces gives a non-blank string |
| Segmenter.SegmentsNonEmpty | ai_analyzer.py:88-124 | no segment is empty |
| Segmenter.SegmentsOfNonEmpty | ai_analyzer.py:112-122 | groups of non-blank pieces give non-empty stripped segments |
| Scorer.RoundHalfEven | ai_analyzer.py:636-643 | Python's `round`: within 0.5 of its argument, and ties go to the even integer |
| Scorer.EducationTerms | ai_analyzer.py:587 | the education terms of the content score |
| Scorer.GrammarPatterns | ai_analyzer.py:605-609 | the three grammar patterns, in counting order; the article pattern has no closing boundary |
| Scorer.ContentScore | ai_analyzer.py:575-588 | 5 points per achievement up to 20, plus 10 for a skills term and 10 for an education term (bounds: `SubScoreBounds`) |
| Scorer.FormatScore | ai_analyzer.py:591-599 | 2 points per bullet up to 15, plus 3 per section header up to 15 (bounds: `SubScoreBounds`) |
| Scorer.GrammarErrors | ai_analyzer.py:610-612 | the total `re.findall` count of the grammar patterns |
| Scorer.LanguageScore | ai_analyzer.py:615 | 15 less 5 per grammar error, never below 0 (bounds: `SubScoreBounds`) |
| Scorer.Conciseness | ai_analyzer.py:621-629 | the conciseness score of a word count (contracts: `ConcisenessFull`, `SubScoreBounds`) |
| Scorer.Weighted | ai_analyzer.py:632 | the weighted overall score (bound: `WeightedBound`) |
| Scorer.Category | ai_analyzer.py:638-641 | a raw score rescaled to 100 and rounded (bounds: `FallbackScoreBounds`) |
| Scorer.GermanSummary | ai_analyzer.py:737-753 | the German message of each band |
| Scorer.EnglishSummary | ai_analyzer.py:754-770 | the English message of each band |
| Scorer.ScoreSummary | ai_analyzer.py:726-770 | `get_score_summary` (contracts: `ScoreSummaryLocale`, `FallbackSummaryBands`) |
| Scorer.Band | ai_analyzer.py:737-770 | the eight bands of the summary ladder: below 30, each ten-point band from 30 to 89, and 90 and above |
| Scorer.ScoreSummaryLocale | ai_analyzer.py:737-770 | every locale other than `'de'` gets the English ladder, and the message depends on the score only through its band |
| Scorer.BandMonotone | ai_analyzer.py:737-770 | a higher score never falls into a lower band |
| Scorer.FallbackScore | ai_analyzer.py:571-646 | the report is the rounded weighted overall score, the four sub-scores rescaled to 100 and rounded, and the summary of the rounded overall score |
| Scorer.SubScoreBounds | ai_analyzer.py:574-629 | content 0..40, format 0..30, language 0..15 (0 exactly from three grammar errors on), conciseness 0..15 |
| Scorer.ConcisenessFull | ai_analyzer.py:624-629 | conciseness is full exactly for 300 to 600 words |
| Scorer.WeightedBound | ai_analyzer.py:632 | the weighted overall score lies in 0..29.5, so its rounded value is at most 30 |
| Scorer.FallbackScoreBounds | ai_analyzer.py:636-641 | every category lies in 0..100 and the overall score in 0..30 |
| Scorer.FallbackSummaryBands | ai_analyzer.py:643 | for overall scores 0..30 the summary is the lowest-band message, or the 30–39 message for exactly 30 |
| EditApplier.InsertDesc | app.py:491 | an insertion step adds one element, at the head or behind the old head |
| EditApplier.Splice | app.py:494-496 | one splice with Python slicing (contract: `SpliceAllLength`) |
| EditApplier.SpliceAll | app.py:493-496 | the splices applied in list order (contracts: `SpliceAllAppend`, `SpliceAllIsRebuild`, `SpliceAllLength`) |
| EditApplier.Rebuild | app.py:491-496 | the simultaneous replacement of every span of the original text, the reference the splice loop is proved against (`SpliceAllIsRebuild`, `SimultaneousReplacement`) |
| EditApplier.SortDesc | app.py:491 | the sort keeps the length |
| EditApplier.ApplyCorrections | app.py:479-500 | 400 exactly when the body or one of its two keys is missing; otherwise the answer is the splices applied in descending start order, and an empty selection returns the text unchanged |
| EditApplier.InsertDescSpec | app.py:491 | an insertion step is a permutation step and keeps starts non-increasing |
| EditApplier.SortDescSpec | app.py:491 | `sorted(key=start, reverse=True)` is a permutation with non-increasing starts |
| EditApplier.SpliceAllAppend | app.py:493-496 | splices inside a prefix leave the rest of the text untouched |
| EditApplier.SpliceAllIsRebuild | app.py:493-496 | splicing right to left equals rebuilding the text from the original pieces |
| EditApplier.SpliceAllLength | app.py:493-496 | the result's length is the text's plus each suggestion's length change |
| EditApplier.DeltaSort | app.py:491 | sorting does not change the total length change |
| EditApplier.InsertChain | app.py:491 | inserting a disjoint edit into a right-to-left chain keeps it a chain |
| EditApplier.SortedChain | app.py:491-496 | a valid selection, sorted, is a right-to-left chain of in-text edits |
| EditApplier.SimultaneousReplacement | app.py:491-496 | on a valid selection the answer is the simultaneous replacement of every selected span of the original text, with the expected length |
| EditApplier.StrictDescUnique | app.py:491 | two strictly descending lists with the same elements are equal |
| EditApplier.OrderIndependent | app.py:491-496 | on valid selections the answer does not depend on the order the client listed the corrections in |
| ResumeParser.NewlineRun | attached_assets/resume_parser.py:100 | the maximal run of leading newlines |
| ResumeParser.CollapseNewlines | attached_assets/resume_parser.py:100 | `re.sub(r'\n{3,}', '\n\n', s)` (contract: `CollapseNoNewline`) |
| ResumeParser.ParseResumeText | attached_assets/resume_parser.py:86-102 | `parse_resume_text` (contracts: `SubstitutionDead`, `ParseResumeTextShape`, `ParseResumeTextIdempotent`, `BlankGivesEmpty`) |
| ResumeParser.CollapseNoNewline | attached_assets/resume_parser.py:100 | the `\n{3,}` substitution leaves a text without newlines unchanged |
| ResumeParser.JoinTokensSingleSpaced | attached_assets/resume_parser.py:97 | joining tokens with spaces gives single spaces between non-space characters |
| ResumeParser.WordsOfJoin | attached_assets/resume_parser.py:97 | `split()` undoes `" ".join` on tokens (the round trip) |
| ResumeParser.SubstitutionDead | attached_assets/resume_parser.py:97-100 | the substitution never changes anything: the result is `" ".join(text.split())` |
| ResumeParser.ParseResumeTextShape | attached_assets/resume_parser.py:86-102 | the result has no leading or trailing whitespace and only single spaces between tokens, and it holds the input's tokens in order |
| ResumeParser.ParseResumeTextIdempotent | attached_assets/resume_parser.py:86-102 | normalising twice is normalising once |
| ResumeParser.WordsOfBlank | attached_assets/resume_parser.py:97 | a blank text has no tokens |
| ResumeParser.BlankGivesEmpty | attached_assets/resume_parser.py:86-102 | the result is empty exactly when the input is all whitespace |
| ResumeParser.WordsNonEmpty | attached_assets/resume_parser.py:97 | a text with a non-space character has a token |
| ResumeParser.Extension | attached_assets/resume_parser.py:14 | `os.path.splitext(...)[1]` is empty or a dot-led suffix of the path |
| ResumeParser.ParseResumeFile | attached_assets/resume_parser.py:4-23 | `parse_resume_file`'s choice of reader (contract: `ParseResumeFileSpec`) |
| ResumeParser.ParseResumeFileSpec | attached_assets/resume_parser.py:4-23 | a file is parsed exactly when its extension, ignoring case, is `.pdf`, `.docx` or `.txt`; otherwise the error names the lower-cased extension |
| WebForms.AllowedFileSpec | app.py:205-206 | accepted exactly when the name has a dot and the text after the last dot is, ignoring case, `pdf`, `docx` or `txt` |
| WebForms.AllowedFile | app.py:205-206 | `allowed_file` (contract: `AllowedFileSpec`) |
| WebForms.AllowedFileAccepts | app.py:205-206 | `cv.PDF` and `a.b.txt` are accepted: only the last extension counts, in any case |
| WebForms.AllowedFileRefuses | app.py:205-206 | `pdf`, `cv.pdf.exe` and `cv.` are refused: no dot, a wrong last extension, an empty extension |
| WebForms.DottedExtension | app.py:77 | each extension the filter accepts, with its dot, is one the file parser dispatches on |
| WebForms.AllowedUploadIsParsed | app.py:231-248 | an accepted name without slashes and not starting with a dot, saved in a directory, reaches one of the three parsers |
| WebForms.DotFileNotParsed | app.py:205-206 | `allowed_file` accepts `.pdf`, while `parse_resume_file` (attached_assets/resume_parser.py:14) reads no extension in `uploads/.pdf` and refuses it; a fact about the two functions on their own, since the upload route renames such a file first |
| WebForms.CapSessionCorrections | app.py:314-318 | at most 20 corrections are kept: the first ones, in order, and all of them when there are at most 20 |
| WebForms.ParseRatingSpec | app.py:623-628 | a rating is kept exactly when it is a non-empty digit string with value 1..5, and it is then that value |
| WebForms.DigitValue | app.py:625-628 | a single digit from 1 to 5 gives itself, and a leading zero is accepted |
| WebForms.ParseRating | app.py:623-628 | the rating of the testimonial form (contract: `ParseRatingSpec`) |
| WebForms.SubmitTestimonial | app.py:613-638 | the POST branch of `/donate` (contract: `SubmitTestimonialSpec`) |
| WebForms.SubmitTestimonialSpec | app.py:613-638 | a testimonial is created exactly when the stripped name and text are non-empty; it starts unapproved and carries the parsed rating |

## Left out

- The language-model oracle is left out: the API calls, the JSON extraction from its answers and `analyze_segment`. Grounding starts from the oracle's suggestion list, given as a parameter.
- `score_resume_with_api` and the retry and exception plumbing are left out. The model starts from the fallback branch of `score_resume`.
- Scorer.FallbackScore: the achievement, bullet and section-header patterns use a lazy `.*?`, line anchors and character classes. Their match counts are parameters and are not computed from the text.
- Scorer.FallbackScore: arithmetic is on exact reals. Binary floating point could differ from exact arithmetic on a `round` tie; its rounding error is not modelled.
- Case mapping and the `\w` and `\s` classes are modelled on Latin-1 (U+0000 to U+00FF) only. Python applies them to all of Unicode, so:
  - whitespace outside Latin-1 (U+1680, U+2000 to U+200A, U+2028, U+2029, U+202F, U+205F, U+3000) is whitespace to `str.split`, `str.strip` and `\s` but not to `IsSpace`; an em space splits a token in `parse_resume_text` but not in `ParseResumeText`;
  - `IsWordChar` misses the Latin-1 word characters ª µ º ² ³ ¹ ¼ ½ ¾ and every letter or digit outside Latin-1 (ł, ő, Cyrillic), so `\b` can fall elsewhere next to them;
  - case mapping outside Latin-1 (the `.lower()` fallback of grounding, and `IGNORECASE`) is not modelled, nor multi-character mappings: `ß`.upper() is `SS`, and `İ`.lower() is two characters, which shifts every later offset of the lower-cased text.
- WebForms.ParseRatingSpec: only ASCII digits count as digits. Python's `str.isdigit` also accepts other Unicode digits.
- `secure_filename` is not modelled. `AllowedUploadIsParsed` assumes the saved name is the uploaded one. `secure_filename` drops leading dots and non-ASCII characters, so `.pdf` and `Лебенслауф.pdf` are both saved as `pdf`; the `rsplit('.', 1)[1]` at app.py:244 then raises `IndexError`, and the `except` at app.py:257 reports "Error parsing file" without calling the parser.
- File decoding is left out. The PDF, DOCX and TXT readers are external libraries, so `ParseResumeFile` only chooses the reader.
- Flask, sessions, the database and templates are left out, and so are the 405 branch of `/apply_corrections` and the other routes. The session cap is modelled generically over the list it truncates.
- EditApplier.ApplyCorrections: a selected entry without `position` or `suggestion` raises a `KeyError` in the route. Here every entry has these fields. A JSON `null` is not distinguished from a missing key (both are `None` here), while the route's `in data` test accepts a `null`: a `null` `resume_text` with an empty selection answers 200 with `{"corrected_text": null}`, a `null` `resume_text` with a non-empty selection raises `TypeError` (500), and a `null` `selected_corrections` raises `TypeError` in `sorted` (500).
- EditApplier.SortDescSpec: stability of the sort on equal starts is implemented by `InsertDesc` but not stated by a lemma. For valid selections, starts are distinct and order is fixed (`StrictDescUnique`).
- The other scan loops in `ai_analyzer.py` (inside `analyze_segment`), the cover-letter generation and `extract_*` helpers are not part of this model.
