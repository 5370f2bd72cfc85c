/** The rule-based fallback of `score_resume` and `get_score_summary`.

    The four raw sub-scores are capped counters; the overall score is their
    weighted sum with weights 0.4, 0.3, 0.15 and 0.15, and every reported
    number goes through Python's `round`.  Arithmetic is on exact reals. */
module Scorer {
  import opened TextUtil
  import opened Patterns
  import opened RuleRegistry

  function Min(a: int, b: int): int {
    if a <= b then a else b
  }

  function Max(a: int, b: int): int {
    if a >= b then a else b
  }

  /** Python's `round(x)`: the nearest integer, ties to the even one. */
  function RoundHalfEven(x: real): (r: int)
    ensures -0.5 <= x - r as real <= 0.5
    ensures (x - r as real == 0.5 || x - r as real == -0.5) ==> r % 2 == 0
  {
    var f := x.Floor;
    var d := x - f as real;
    if d < 0.5 then f
    else if d > 0.5 then f + 1
    else if f % 2 == 0 then f
    else f + 1
  }

  /** `\b(?:bachelor|master|diplom|...|universität)\b`. */
  function EducationTerms(): Pattern {
    Keywords(["bachelor", "master", "diplom", "doktor", "phd", "ausbildung",
              "studium", "university", "hochschule", "universität"])
  }

  function Verbs(): seq<string> {
    ["has", "have", "is", "am", "are", "was", "were"]
  }

  /** The three grammar patterns, in the order they are counted:
      `\bi\s+(?:has|...|were)\b`, `\b(?:a|an)\s+(?:[aeiou]|hour|honor)` (no
      closing boundary) and `\b(?:he|she|it|they)\s+(?:has|...|were)\b`. */
  function GrammarPatterns(): seq<Pattern> {
    [ Pattern(Cross(["i"], [Spaces], Verbs()), true),
      Pattern(Cross(["a", "an"], [Spaces], ["a", "e", "i", "o", "u", "hour", "honor"]), false),
      Pattern(Cross(["he", "she", "it", "they"], [Spaces], Verbs()), true) ]
  }

  /** Raw content score: 5 points per achievement up to 20, 10 for a skills
      term, 10 for an education term.  `achievements` is the number of
      matches of the achievement pattern. */
  function ContentScore(text: string, achievements: nat): int {
    Min(achievements * 5, 20)
      + (if Found(text, SkillsKeywords()) then 10 else 0)
      + (if Found(text, EducationTerms()) then 10 else 0)
  }

  /** Raw format score: 2 points per bullet up to 15, 3 per section header
      up to 15 (both counts are matches of their patterns). */
  function FormatScore(bullets: nat, headers: nat): int {
    Min(bullets * 2, 15) + Min(headers * 3, 15)
  }

  /** Total number of `re.findall` matches over a list of patterns. */
  function MatchCount(text: string, patterns: seq<Pattern>): nat {
    if patterns == [] then 0
    else MatchCount(text, patterns[..|patterns| - 1]) + |FindAll(text, patterns[|patterns| - 1])|
  }

  function GrammarErrors(text: string): nat {
    MatchCount(text, GrammarPatterns())
  }

  /** Raw language score: 15 less 5 per grammar error, never below 0. */
  function LanguageScore(errors: nat): int {
    Max(0, 15 - errors * 5)
  }

  /** Raw conciseness score of a word count: full marks for 300 to 600
      words, proportionally less below, one point less per 100 words above. */
  function Conciseness(words: nat): real {
    if 300 <= words <= 600 then 15.0
    else if words < 300 then words as real / 300.0 * 15.0
    else if 15.0 - (words - 600) as real / 100.0 < 0.0 then 0.0
    else 15.0 - (words - 600) as real / 100.0
  }

  function Weighted(content: int, format: int, language: int, conciseness: real): real {
    content as real * 0.4 + format as real * 0.3 + language as real * 0.15 + conciseness * 0.15
  }

  /** A raw score out of `maximum` on the 100-point scale, rounded. */
  function Category(raw: real, maximum: real): int
    requires maximum != 0.0
  {
    RoundHalfEven(raw * 100.0 / maximum)
  }

  /** Summary message of the eight-band ladder: band 7 is 90 and above,
      band 1 is 30 to 39, band 0 is below 30. */
  function Band(score: int): (b: nat)
    ensures b <= 7
    ensures b == 0 <==> score < 30
    ensures 1 <= b <= 6 ==> 20 + 10 * b <= score < 30 + 10 * b
    ensures b == 7 <==> score >= 90
  {
    if score >= 90 then 7
    else if score >= 80 then 6
    else if score >= 70 then 5
    else if score >= 60 then 4
    else if score >= 50 then 3
    else if score >= 40 then 2
    else if score >= 30 then 1
    else 0
  }

  function GermanSummary(band: nat): string {
    match band
    case 7 => "Ausgezeichneter Lebenslauf, der "
              + "deutsche Standards hervorragend "
              + "erfüllt. Sofort einsatzbereit."
    case 6 => "Sehr guter Lebenslauf mit wenigen "
              + "Verbesserungsmöglichkeiten."
    case 5 => "Guter Lebenslauf, der grundlegende "
              + "Anforderungen erfüllt, aber noch "
              + "optimiert werden kann."
    case 4 => "Solider Lebenslauf mit mehreren "
              + "Verbesserungsmöglichkeiten."
    case 3 => "Durchschnittlicher Lebenslauf, der "
              + "deutliche Überarbeitung benötigt."
    case 2 => "Schwacher Lebenslauf, der erhebliche "
              + "Verbesserungen erfordert."
    case 1 => "Unzureichender Lebenslauf mit "
              + "grundlegenden Mängeln."
    case _ => "Kritisch mangelhafter Lebenslauf, "
              + "der eine komplette Überarbeitung "
              + "benötigt."
  }

  function EnglishSummary(band: nat): string {
    match band
    case 7 => "Excellent CV that meets German "
              + "standards exceptionally well. "
              + "Ready for immediate use."
    case 6 => "Very good CV with few areas for "
              + "improvement."
    case 5 => "Good CV that meets basic "
              + "requirements but can still be "
              + "optimized."
    case 4 => "Solid CV with several areas for "
              + "improvement."
    case 3 => "Average CV that needs significant "
              + "revision."
    case 2 => "Weak CV that requires substantial "
              + "improvements."
    case 1 => "Insufficient CV with fundamental "
              + "deficiencies."
    case _ => "Critical deficiencies in CV, "
              + "requires complete revision."
  }

  /** `get_score_summary(score, language)`: German for `'de'`, English for
      every other value. */
  function ScoreSummary(score: int, language: string): string {
    if language == "de" then GermanSummary(Band(score)) else EnglishSummary(Band(score))
  }

  /** Any locale other than `'de'` gets the English ladder, and the message
      depends on the score only through its band. */
  lemma ScoreSummaryLocale(score: int, language: string)
    ensures language != "de" ==> ScoreSummary(score, language) == ScoreSummary(score, "en")
    ensures forall other :: Band(other) == Band(score) ==>
      ScoreSummary(other, language) == ScoreSummary(score, language)
  {
  }

  /** The bands are ordered like the scores. */
  lemma BandMonotone(a: int, b: int)
    requires a <= b
    ensures Band(a) <= Band(b)
  {
  }

  /** The result of the fallback: the rounded overall score, the four
      categories on a 100-point scale and the summary. */
  datatype ScoreReport = ScoreReport(
    overall: int, content: int, format: int, language: int, conciseness: int, summary: string)

  /** The fallback branch of `score_resume`.  The achievement, bullet and
      section-header patterns are not literal alternatives (a lazy `.*?`,
      line anchors, character classes), so their match counts come in as
      `achievements`, `bullets` and `headers`. */
  method FallbackScore(text: string, language: string, achievements: nat, bullets: nat, headers: nat)
    returns (r: ScoreReport)
    ensures var content := ContentScore(text, achievements);
      var format := FormatScore(bullets, headers);
      var lang := LanguageScore(GrammarErrors(text));
      var conc := Conciseness(|Words(text)|);
      && r.overall == RoundHalfEven(Weighted(content, format, lang, conc))
      && r.content == Category(content as real, 40.0)
      && r.format == Category(format as real, 30.0)
      && r.language == Category(lang as real, 15.0)
      && r.conciseness == Category(conc, 15.0)
    ensures r.summary == ScoreSummary(r.overall, language)
  {
    var contentScore := 0;
    contentScore := contentScore + Min(achievements * 5, 20);
    if Found(text, SkillsKeywords()) {
      contentScore := contentScore + 10;
    }
    if Found(text, EducationTerms()) {
      contentScore := contentScore + 10;
    }

    var formatScore := 0;
    formatScore := formatScore + Min(bullets * 2, 15);
    formatScore := formatScore + Min(headers * 3, 15);

    var patterns := GrammarPatterns();
    var grammarErrors := 0;
    for i := 0 to |patterns|
      invariant grammarErrors == MatchCount(text, patterns[..i])
    {
      assert patterns[..i + 1][..i] == patterns[..i];
      grammarErrors := grammarErrors + |FindAll(text, patterns[i])|;
    }
    assert patterns[..|patterns|] == patterns;
    assert grammarErrors == GrammarErrors(text);
    assert contentScore == ContentScore(text, achievements);
    assert formatScore == FormatScore(bullets, headers);
    var languageScore := Max(0, 15 - grammarErrors * 5);

    SubScoreBounds(text, achievements, bullets, headers, grammarErrors, |Words(text)|);
    var wordCount := |Words(text)|;
    var concisenessScore := Conciseness(wordCount);
    assert languageScore == LanguageScore(GrammarErrors(text));

    var overallScore := contentScore as real * 0.4 + formatScore as real * 0.3
                        + languageScore as real * 0.15 + concisenessScore * 0.15;
    assert overallScore == Weighted(contentScore, formatScore, languageScore, concisenessScore);
    var overall := RoundHalfEven(overallScore);
    r := ScoreReport(overall,
                     Category(contentScore as real, 40.0),
                     Category(formatScore as real, 30.0),
                     Category(languageScore as real, 15.0),
                     Category(concisenessScore, 15.0),
                     ScoreSummary(overall, language));
  }

  /** The raw sub-scores stay in their ranges: content 0..40, format 0..30,
      language 0..15 (0 from three errors on), conciseness 0..15. */
  lemma SubScoreBounds(text: string, achievements: nat, bullets: nat, headers: nat, errors: nat, words: nat)
    ensures 0 <= ContentScore(text, achievements) <= 40
    ensures 0 <= FormatScore(bullets, headers) <= 30
    ensures 0 <= LanguageScore(errors) <= 15
    ensures LanguageScore(errors) == 0 <==> errors >= 3
    ensures 0.0 <= Conciseness(words) <= 15.0
  {
  }

  /** Conciseness is full exactly for 300 to 600 words. */
  lemma ConcisenessFull(words: nat)
    ensures Conciseness(words) == 15.0 <==> 300 <= words <= 600
  {
    if words < 300 {
      assert words as real / 300.0 * 15.0 == words as real / 20.0;
    }
  }

  /** In exact arithmetic the weighted overall score of the fallback is at
      most 16 + 9 + 2.25 + 2.25 = 29.5, so its rounded value is at most 30. */
  lemma WeightedBound(text: string, achievements: nat, bullets: nat, headers: nat)
    ensures var w := Weighted(ContentScore(text, achievements), FormatScore(bullets, headers),
                              LanguageScore(GrammarErrors(text)), Conciseness(|Words(text)|));
      0.0 <= w <= 29.5 && 0 <= RoundHalfEven(w) <= 30
  {
    SubScoreBounds(text, achievements, bullets, headers, GrammarErrors(text), |Words(text)|);
  }

  /** Every category of the fallback lies in 0..100, and the overall score
      in 0..30. */
  lemma FallbackScoreBounds(text: string, achievements: nat, bullets: nat, headers: nat)
    ensures 0 <= Category(ContentScore(text, achievements) as real, 40.0) <= 100
    ensures 0 <= Category(FormatScore(bullets, headers) as real, 30.0) <= 100
    ensures 0 <= Category(LanguageScore(GrammarErrors(text)) as real, 15.0) <= 100
    ensures 0 <= Category(Conciseness(|Words(text)|), 15.0) <= 100
    ensures 0 <= RoundHalfEven(Weighted(ContentScore(text, achievements), FormatScore(bullets, headers),
                                        LanguageScore(GrammarErrors(text)), Conciseness(|Words(text)|))) <= 30
  {
    SubScoreBounds(text, achievements, bullets, headers, GrammarErrors(text), |Words(text)|);
    WeightedBound(text, achievements, bullets, headers);
  }

  /** Whatever the text, the fallback's overall score lies in 0..30, so its
      summary is the message of the 30-39 band (for exactly 30) or of the
      lowest band, in German for `'de'` and in English otherwise. */
  lemma FallbackSummaryBands(score: int, language: string)
    requires 0 <= score <= 30
    ensures ScoreSummary(score, language) ==
      (if language == "de" then GermanSummary(if score == 30 then 1 else 0)
       else EnglishSummary(if score == 30 then 1 else 0))
  {
  }
}
