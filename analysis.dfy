/** `perform_enhanced_analysis`: up to three "missing section"
    corrections, then the rule corrections of the locale's rule list, and
    the 25-correction limit over the whole list. */
module EnhancedAnalysis {
  import opened TextUtil
  import opened Patterns
  import opened Corrections
  import opened RuleRegistry
  import opened RuleScanner
  import opened CorrectionLimit

  /** The three sections whose absence is reported.  The long texts are
      written as concatenations of short pieces, which keeps the terms the
      verifier builds for them small. */
  datatype Section = Experience | Education | Skills {
    /** The keyword search that must fail for the section to be reported. */
    function Keywords(): Pattern {
      match this
      case Experience => ExperienceKeywords()
      case Education => EducationKeywords()
      case Skills => SkillsKeywords()
    }

    /** The template offered as the correction's suggestion. */
    function Suggestion(german: bool): string {
      match this
      case Experience =>
        if german then "BERUFSERFAHRUNG\n"
                       + "[Company Name] | [Position] "
                       + "| [Zeitraum]\n"
                       + "• Verantwortlich für [Hauptaufgabe]\n"
                       + "• Erfolgreich [messbare Leistung] "
                       + "um X% verbessert\n"
                       + "• [Weitere relevante Erfolge]"
        else "PROFESSIONAL EXPERIENCE\n"
             + "[Company Name] | [Position] "
             + "| [Time Period]\n"
             + "• Responsible for [main responsibility]\n"
             + "• Successfully improved [measurable "
             + "achievement] by X%\n"
             + "• [Other relevant achievements]"
      case Education =>
        if german then "BILDUNG\n"
                       + "[Universität/Hochschule] | [Abschluss] "
                       + "| [Zeitraum]\n"
                       + "• Schwerpunkt: [Fachrichtung]\n"
                       + "• Relevante Kurse: [Kursbeispiele]"
        else "EDUCATION\n"
             + "[University/College] | [Degree] "
             + "| [Time Period]\n"
             + "• Focus: [Field of Study]\n"
             + "• Relevant Coursework: [Course "
             + "examples]"
      case Skills =>
        if german then "FÄHIGKEITEN\n"
                       + "• Technische Fähigkeiten: [Liste "
                       + "relevanter technischer Fähigkeiten]\n"
                       + "• Sprachen: [Sprachkenntnisse "
                       + "mit Niveauangabe]\n"
                       + "• Soft Skills: [Relevante Soft "
                       + "Skills]"
        else "SKILLS\n"
             + "• Technical Skills: [List of "
             + "relevant technical skills]\n"
             + "• Languages: [Language proficiencies "
             + "with level]\n"
             + "• Soft Skills: [Relevant soft "
             + "skills]"
    }

    function Explanation(german: bool): string {
      match this
      case Experience =>
        if german then "Ein Lebenslauf ohne Berufserfahrung "
                       + "ist unvollständig. Fügen Sie "
                       + "einen klar gekennzeichneten "
                       + "Abschnitt hinzu."
        else "A CV without work experience "
             + "section is incomplete. Add a "
             + "clearly labeled section."
      case Education =>
        if german then "Bildung ist ein wesentlicher "
                       + "Bestandteil eines Lebenslaufs. "
                       + "Fügen Sie einen Abschnitt mit "
                       + "Ihren Abschlüssen hinzu."
        else "Education is an essential component "
             + "of a CV. Add a section with "
             + "your degrees."
      case Skills =>
        if german then "Ein Fähigkeiten-Abschnitt hilft "
                       + "Arbeitgebern, Ihre wichtigsten "
                       + "Kompetenzen schnell zu erfassen."
        else "A skills section helps employers "
             + "quickly identify your key competencies."
    }
  }

  /** Where a missing-section correction is anchored: the first blank line
      (`"\n\n"`), or the start of the text when there is none. */
  function SectionStart(text: string): nat {
    match Find(text, "\n\n")
    case Some(i) => i
    case None => 0
  }

  /** The anchor is the first blank line when there is one, else 0. */
  lemma SectionStartSpec(text: string)
    ensures SectionStart(text) == 0 || OccursAt(text, "\n\n", SectionStart(text))
    ensures forall j :: 0 <= j < SectionStart(text) ==> !OccursAt(text, "\n\n", j)
    ensures !OccursAt(text, "\n\n", SectionStart(text)) ==> forall j :: 0 <= j ==> !OccursAt(text, "\n\n", j)
  {
  }

  /** The correction reported for a missing section anchored at `start`. */
  function MissingSection(text: string, start: nat, section: Section, language: string): Correction {
    Correction(PySlice(text, start, start + 10) + "...", start, start + 10,
               section.Suggestion(language == "de"), section.Explanation(language == "de"), "content")
  }

  /** The sections among `sections` whose keywords occur nowhere, in order. */
  function Absent(text: string, sections: seq<Section>): (r: seq<Section>)
    ensures |r| <= |sections|
  {
    if sections == [] then []
    else (if Found(text, sections[0].Keywords()) then [] else [sections[0]]) + Absent(text, sections[1..])
  }

  /** A section is kept exactly when it is checked and its keywords occur
      nowhere. */
  lemma {:induction false} AbsentMembers(text: string, sections: seq<Section>)
    ensures forall s :: s in Absent(text, sections) <==> s in sections && !Found(text, s.Keywords())
  {
    if sections != [] {
      AbsentMembers(text, sections[1..]);
      assert sections == [sections[0]] + sections[1..];
    }
  }

  /** The three checks in source order. */
  function AllSections(): seq<Section> {
    [Experience, Education, Skills]
  }

  /** The corrections reporting `sections` as missing, in order. */
  function Reports(text: string, start: nat, sections: seq<Section>, language: string): (r: seq<Correction>)
    ensures |r| == |sections|
  {
    if sections == [] then []
    else
      var last := sections[|sections| - 1];
      Reports(text, start, sections[..|sections| - 1], language) + [MissingSection(text, start, last, language)]
  }

  /** The missing-section corrections: one per absent section, in the
      order experience, education, skills. */
  function MissingSections(text: string, language: string): seq<Correction> {
    Reports(text, SectionStart(text), Absent(text, AllSections()), language)
  }

  /** The three checks one after the other. */
  lemma AbsentSections(text: string)
    ensures Absent(text, AllSections()) ==
      (if Found(text, ExperienceKeywords()) then [] else [Experience])
      + (if Found(text, EducationKeywords()) then [] else [Education])
      + (if Found(text, SkillsKeywords()) then [] else [Skills])
  {
    AbsentThree(text, Experience, Education, Skills);
  }

  /** Filtering three sections is three independent checks. */
  lemma AbsentThree(text: string, a: Section, b: Section, c: Section)
    ensures Absent(text, [a, b, c]) ==
      (if Found(text, a.Keywords()) then [] else [a])
      + (if Found(text, b.Keywords()) then [] else [b])
      + (if Found(text, c.Keywords()) then [] else [c])
  {
    assert [a, b, c] == [a] + [b, c] && [b, c] == [b] + [c] && [c] == [c] + [];
    AbsentCons(text, a, [b, c]);
    AbsentCons(text, b, [c]);
    AbsentCons(text, c, []);
    Concat3(if Found(text, a.Keywords()) then [] else [a],
            if Found(text, b.Keywords()) then [] else [b],
            if Found(text, c.Keywords()) then [] else [c]);
  }

  lemma Concat3<T>(x: seq<T>, y: seq<T>, z: seq<T>)
    ensures x + (y + (z + [])) == x + y + z
  {
    assert z + [] == z;
  }

  lemma AbsentCons(text: string, s: Section, rest: seq<Section>)
    ensures Absent(text, [s] + rest) == (if Found(text, s.Keywords()) then [] else [s]) + Absent(text, rest)
  {
    assert ([s] + rest)[1..] == rest;
  }

  /** Each missing-section correction is anchored at `start` and ten
      characters long, with an `original` that is the anchored text plus
      `"..."` and so never the text of its own span. */
  lemma MissingSectionShape(text: string, start: nat, section: Section, language: string)
    ensures var c := MissingSection(text, start, section, language);
      && c.category == "content"
      && c.start == start && c.end == start + 10
      && |c.original| == |PySlice(text, c.start, c.end)| + 3
      && c.original[|c.original| - 3..] == "..."
      && c.original != PySlice(text, c.start, c.end)
  {
  }

  /** The three checks of `perform_enhanced_analysis`: at most three
      corrections, none exactly when every section's keywords occur, and a
      section is reported exactly when its keywords occur nowhere. */
  lemma MissingSectionsSpec(text: string, language: string)
    ensures |MissingSections(text, language)| <= 3
    ensures MissingSections(text, language) == [] <==>
      Found(text, ExperienceKeywords()) && Found(text, EducationKeywords()) && Found(text, SkillsKeywords())
  {
    AbsentSections(text);
  }

  /** The three section checks of `perform_enhanced_analysis`, appending
      to an initially empty list. */
  method CheckMissingSections(text: string, language: string) returns (corrections: seq<Correction>)
    ensures corrections == MissingSections(text, language)
  {
    var start := SectionStart(text);
    corrections := [];
    ghost var absent: seq<Section> := [];
    if !Found(text, ExperienceKeywords()) {
      ReportsSnoc(text, start, absent, Experience, language);
      corrections := corrections + [MissingSection(text, start, Experience, language)];
      absent := absent + [Experience];
    }
    ghost var e := if Found(text, ExperienceKeywords()) then [] else [Experience];
    assert absent == e;
    if !Found(text, EducationKeywords()) {
      ReportsSnoc(text, start, absent, Education, language);
      corrections := corrections + [MissingSection(text, start, Education, language)];
      absent := absent + [Education];
    }
    ghost var d := if Found(text, EducationKeywords()) then [] else [Education];
    assert absent == e + d;
    if !Found(text, SkillsKeywords()) {
      ReportsSnoc(text, start, absent, Skills, language);
      corrections := corrections + [MissingSection(text, start, Skills, language)];
      absent := absent + [Skills];
    }
    assert corrections == Reports(text, start, absent, language);
    AbsentSections(text);
    assert absent == Absent(text, AllSections());
  }

  /** Reporting one more absent section appends its correction. */
  lemma ReportsSnoc(text: string, start: nat, sections: seq<Section>, s: Section, language: string)
    ensures Reports(text, start, sections + [s], language) ==
      Reports(text, start, sections, language) + [MissingSection(text, start, s, language)]
  {
    assert (sections + [s])[..|sections|] == sections;
  }

  /** `perform_enhanced_analysis` without its oracle: the missing-section
      corrections, then the scan over the locale's rules, then the limit. */
  method PerformEnhancedAnalysis(text: string, language: string) returns (corrections: seq<Correction>)
    ensures corrections == Cap(MissingSections(text, language) + RuleCorrections(text, Checks(language)))
  {
    var checks := Checks(language);
    var missing := CheckMissingSections(text, language);
    var scanned := ScanRules(text, checks);
    corrections := Cap(missing + scanned);
  }

  /** The result of the enhanced analysis, `Cap(missing + scanned)` with
      the lists `PerformEnhancedAnalysis` builds: at most 25 corrections;
      when the limit does not bite, the missing-section corrections come
      first and the rule corrections follow unchanged; when it bites, the
      result is 25 corrections of the full list, sorted by category. */
  lemma EnhancedAnalysisShape(missing: seq<Correction>, scanned: seq<Correction>)
    ensures var all := missing + scanned;
      && |Cap(all)| <= MaxCorrections
      && (|all| <= MaxCorrections ==> Cap(all) == all && missing <= Cap(all))
      && (|all| > MaxCorrections ==>
            |Cap(all)| == MaxCorrections && multiset(Cap(all)) <= multiset(all) && SortedByCategory(Cap(all)))
  {
    if |missing + scanned| > MaxCorrections {
      CapSpec(missing + scanned);
    }
  }

  /** The German-only rules contribute their corrections, after all the
      others, exactly for `'de'`. */
  lemma EnhancedRuleCorrectionsByLocale(text: string, language: string)
    ensures RuleCorrections(text, Checks(language)) ==
      RuleCorrections(text, Checks("en")) + (if language == "de" then RuleCorrections(text, GermanSpecific()) else [])
  {
    ChecksByLocale(language);
    if language == "de" {
      SplitRules(text, Checks(language), Checks("en"), GermanSpecific());
    }
  }

  lemma SplitRules(text: string, all: seq<Rule>, base: seq<Rule>, extra: seq<Rule>)
    requires all == base + extra
    ensures RuleCorrections(text, all) == RuleCorrections(text, base) + RuleCorrections(text, extra)
  {
    RuleCorrectionsAppend(text, base, extra);
  }
}
