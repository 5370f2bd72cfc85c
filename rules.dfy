/** The rule tables of `perform_enhanced_analysis` and
    `perform_fallback_analysis`, and the keyword searches that decide the
    "missing section" corrections. */
module RuleRegistry {
  import opened Patterns

  /** `{"pattern", "replacement", "explanation", "category"}`. */
  datatype Rule = Rule(pattern: Pattern, replacement: string, explanation: Explanation, category: string)

  /** Why a rule fires: the `explanation` text a correction carries. */
  datatype Explanation =
    | ActionVerbsLeadership
    | ProfessionalContribution
    | StrongerVerbs
    | TeamRole
    | AktivFormulierungen
    | StaerkereVerben
    | AktiveRolle
    | FirstPersonPronouns
    | PossessivePronouns
    | IchVermeiden
    | Possessivpronomen
    | CollaborationExamples
    | InnovationExamples
    | TeamarbeitBeispiele
    | WorkEthic
    | ProductNames
    | ProgrammingLanguages
    | QuantifyAchievements
    | TeamSize
    | ErfolgeQuantifizieren
    | PraezisereBegriffe
    | VollstaendigeWoerter
    | Rechtschreibfehler
    | ActionVerbs
    | ProfessionalTerminology
    | AvoidFirstPerson
    | OverusedPhrases
    | SpecificSkills
    | FullWords
    | SpellingErrors
  {
    function Text(): string {
      match this
      case ActionVerbsLeadership => "Use action verbs instead of passive phrases to show proactive leadership"
      case ProfessionalContribution => "Use more professional terminology to describe your contributions"
      case StrongerVerbs => "Use stronger action verbs to demonstrate your contribution"
      case TeamRole => "Specify your role in the team rather than just mentioning team membership"
      case AktivFormulierungen => "Verwenden Sie Aktiv-Formulierungen statt passiver Ausdrücke"
      case StaerkereVerben => "Nutzen Sie stärkere Verben, um Ihre Beiträge hervorzuheben"
      case AktiveRolle => "Verdeutlichen Sie Ihre aktive Rolle statt nur Beteiligung zu erwähnen"
      case FirstPersonPronouns => "Avoid first-person pronouns in CVs; start sentences with action verbs instead"
      case PossessivePronouns => "Avoid possessive pronouns in CVs for a more professional tone"
      case IchVermeiden => "Vermeiden Sie 'ich' im Lebenslauf; beginnen Sie Sätze direkt mit Verben"
      case Possessivpronomen => "Vermeiden Sie Possessivpronomen im Lebenslauf"
      case CollaborationExamples => "Replace overused clichés with specific examples of collaboration"
      case InnovationExamples => "Avoid clichés and use concrete examples of innovation"
      case TeamarbeitBeispiele => "Ersetzen Sie Floskeln durch konkrete Beispiele Ihrer Teamarbeit"
      case WorkEthic => "Show your work ethic through specific achievements rather than generic terms"
      case ProductNames => "Use proper capitalization for product names"
      case ProgrammingLanguages => "Use correct capitalization for programming languages"
      case QuantifyAchievements => "Quantify your achievements with specific numbers or percentages"
      case TeamSize => "Specify the size of the team you managed for greater impact"
      case ErfolgeQuantifizieren => "Quantifizieren Sie Ihre Erfolge mit konkreten Zahlen"
      case PraezisereBegriffe => "Verwenden Sie präzisere Begriffe zur Beschreibung Ihrer Fähigkeiten"
      case VollstaendigeWoerter => "Verwenden Sie vollständige Wörter statt Abkürzungen"
      case Rechtschreibfehler => "Korrigieren Sie Rechtschreibfehler"
      case ActionVerbs => "Use action verbs instead of passive phrases"
      case ProfessionalTerminology => "Use more professional terminology"
      case AvoidFirstPerson => "Avoid using first-person pronouns in CVs"
      case OverusedPhrases => "Avoid overused phrases and clichés"
      case SpecificSkills => "Be more specific and professional in describing skills"
      case FullWords => "Use full words instead of abbreviations"
      case SpellingErrors => "Fix spelling errors"
    }
  }

  /** `\bresponsible for\b` and the like: one literal, closed by `\b`. */
  function Phrase(s: string): Pattern
    requires s != []
  {
    Keywords([s])
  }

  /** English and German weak phrases; active for every locale. */
  function WeakPhrases(): seq<Rule> {
    [ Rule(Phrase("responsible for"), "managed", ActionVerbsLeadership, "clarity"),
      // \bhelped (with|to)?\b
      Rule(Pattern([AltOf(Lit("helped with")), AltOf(Lit("helped to")), AltOf(Lit("helped "))], true),
           "assisted with", ProfessionalContribution, "professional language"),
      Rule(Keywords(["worked on", "worked with"]), "developed", StrongerVerbs, "clarity"),
      Rule(Keywords(["part of a team", "part of the team"]), "collaborated with team members to", TeamRole, "content"),
      Rule(Phrase("zuständig für"), "verantwortete", AktivFormulierungen, "clarity"),
      // \bhabe (mitge)?arbeitet\b
      Rule(Keywords(["habe mitgearbeitet", "habe arbeitet"]), "entwickelte", StaerkereVerben, "clarity"),
      Rule(Phrase("war beteiligt an"), "koordinierte", AktiveRolle, "content") ]
  }

  function Pronouns(): seq<Rule> {
    [ Rule(Phrase("i"), "", FirstPersonPronouns, "professional language"),
      Rule(Phrase("my"), "the", PossessivePronouns, "professional language"),
      Rule(Phrase("ich"), "", IchVermeiden, "professional language"),
      // \bmein(e)?\b
      Rule(Keywords(["meine", "mein"]), "die", Possessivpronomen, "professional language") ]
  }

  function Cliches(): seq<Rule> {
    [ Rule(Phrase("team player"), "collaborative professional", CollaborationExamples, "content"),
      Rule(Phrase("thinking outside the box"), "implementing innovative solutions", InnovationExamples, "content"),
      Rule(Phrase("teamfähig"), "arbeitete effektiv im Team bei [Projektname]", TeamarbeitBeispiele, "content"),
      Rule(Phrase("hardworking"), "delivered projects consistently ahead of deadline", WorkEthic, "content") ]
  }

  function Formatting(): seq<Rule> {
    [ Rule(Phrase("ms office"), "Microsoft Office", ProductNames, "formatting"),
      // \b(java ?script|type ?script)\b
      Rule(Keywords(["java script", "javascript", "type script", "typescript"]), "JavaScript", ProgrammingLanguages, "formatting"),
      Rule(Phrase("c++"), "C++", ProgrammingLanguages, "formatting") ]
  }

  function VagueTerms(): seq<Rule> {
    [ Rule(Pattern(Cross(["significantly", "substantially", "greatly"], Lit(" "),
                         ["improved", "increased", "decreased", "reduced"]), true),
           "improved by X%", QuantifyAchievements, "achievement"),
      Rule(Keywords(["managed a team", "led a team"]), "managed a team of X members", TeamSize, "achievement"),
      Rule(Phrase("verbesserte Prozesse"), "verbesserte Prozesse, was zu einer X% Effizienzsteigerung führte", ErfolgeQuantifizieren, "achievement") ]
  }

  function GermanSpecific(): seq<Rule> {
    [ // \b(?:gute|sehr gute|ausgezeichnete)\s+kenntnisse\b
      Rule(Pattern(Cross(["gute", "sehr gute", "ausgezeichnete"], [Spaces], ["kenntnisse"]), true),
           "Fortgeschrittene Kenntnisse", PraezisereBegriffe, "professional language"),
      // \bargts, with no closing boundary
      Rule(Pattern([AltOf(Lit("argts"))], false), "arbeitet", VollstaendigeWoerter, "professional language"),
      Rule(Phrase("interagirt"), "interagiert", Rechtschreibfehler, "spelling") ]
  }

  /** The rules every locale gets, in check order. */
  function CommonChecks(): seq<Rule> {
    WeakPhrases() + Pronouns() + Cliches() + Formatting() + VagueTerms()
  }

  /** The rule list `perform_enhanced_analysis` assembles for a locale. */
  function Checks(language: string): seq<Rule> {
    if language == "de" then CommonChecks() + GermanSpecific() else CommonChecks()
  }

  /** The German-specific rules are appended exactly for `'de'`; any other
      locale value gets the English list, which already holds the German
      weak phrases. */
  lemma ChecksByLocale(language: string)
    ensures language == "de" ==> Checks(language) == Checks("en") + GermanSpecific()
    ensures language != "de" ==> Checks(language) == Checks("en")
    ensures WeakPhrases() <= Checks(language)
    ensures |Checks(language)| == |Checks("en")| + (if language == "de" then 3 else 0)
  {
    var c := CommonChecks();
    assert WeakPhrases() <= c;
  }

  /** The older, smaller rule list of `perform_fallback_analysis`. */
  function FallbackChecks(): seq<Rule> {
    [ Rule(Phrase("responsible for"), "managed", ActionVerbs, "clarity"),
      Rule(Phrase("helped"), "assisted", ProfessionalTerminology, "professional language"),
      Rule(Phrase("i"), "", AvoidFirstPerson, "professional language"),
      Rule(Phrase("team player"), "collaborative professional", OverusedPhrases, "content"),
      Rule(Phrase("ms office"), "Microsoft Office", ProductNames, "formatting"),
      Rule(Pattern(Cross(["gute", "sehr gute", "ausgezeichnete"], [Spaces], ["kenntnisse"]), true),
           "Fortgeschrittene Kenntnisse", SpecificSkills, "professional language"),
      Rule(Pattern([AltOf(Lit("argts"))], false), "arbeitet", FullWords, "professional language"),
      Rule(Phrase("interagirt"), "interagiert", SpellingErrors, "spelling") ]
  }

  /** Keywords whose absence triggers a "missing section" correction. */
  function ExperienceKeywords(): Pattern {
    Keywords(["experience", "work", "employment", "berufserfahrung", "arbeitserfahrung", "tätigkeiten"])
  }

  function EducationKeywords(): Pattern {
    Keywords(["education", "ausbildung", "bildung", "studium", "akademisch"])
  }

  /** Also the scorer's "skills section present" test. */
  function SkillsKeywords(): Pattern {
    Keywords(["skills", "fähigkeiten", "kenntnisse", "kompetenzen"])
  }
}
