/** The scan loop shared by `perform_enhanced_analysis` and
    `perform_fallback_analysis`: every match of every rule becomes a
    correction whose suggestion is the rule's replacement adapted to the
    case of the matched text; matches whose suggestion comes out empty are
    dropped. */
module RuleScanner {
  import opened TextUtil
  import opened Patterns
  import opened Corrections
  import opened RuleRegistry

  /** The case-transfer conditional: an all-upper match gets the
      replacement in upper case, a match starting with an upper-case letter
      gets it capitalised, any other match gets it verbatim. */
  function CaseTransfer(original: string, replacement: string): (r: string)
    requires original != []
    ensures |r| == |replacement|
    ensures r == [] <==> replacement == []
  {
    if IsUpperStr(original) then Upper(replacement)
    else if IsUpper(original[0]) then Capitalize(replacement)
    else replacement
  }

  /** What the three branches of the case transfer promise, character by
      character; a match that is not all upper case and does not start with
      an upper-case letter (in particular one without upper-case letters)
      keeps the replacement exactly as written in the rule table. */
  lemma CaseTransferCases(original: string, replacement: string)
    requires original != []
    ensures IsUpperStr(original) ==>
      forall i :: 0 <= i < |replacement| ==> CaseTransfer(original, replacement)[i] == ToUpper(replacement[i])
    ensures !IsUpperStr(original) && IsUpper(original[0]) && replacement != [] ==>
      CaseTransfer(original, replacement)[0] == ToUpper(replacement[0]) &&
      forall i :: 1 <= i < |replacement| ==> CaseTransfer(original, replacement)[i] == ToLower(replacement[i])
    ensures !IsUpperStr(original) && !IsUpper(original[0]) ==>
      CaseTransfer(original, replacement) == replacement
    ensures (forall i :: 0 <= i < |original| ==> !IsUpper(original[i])) ==>
      CaseTransfer(original, replacement) == replacement
  {
    if forall i :: 0 <= i < |original| ==> !IsUpper(original[i]) {
      assert forall i :: 0 <= i < |original| && IsCased(original[i]) ==> IsLower(original[i]);
    }
  }

  /** The spans a matcher may report: non-empty and inside the text. */
  predicate SpansIn(text: string, spans: seq<Span>) {
    forall k :: 0 <= k < |spans| ==> spans[k].start < spans[k].end <= |text|
  }

  /** One match of `rule` as a correction, or None when the adapted
      replacement is empty. */
  function MatchCorrection(text: string, rule: Rule, s: Span): Option<Correction>
    requires s.start < s.end <= |text|
  {
    var original := text[s.start..s.end];
    var replacement := CaseTransfer(original, rule.replacement);
    if replacement == [] then None
    else Some(Correction(original, s.start, s.end, replacement, rule.explanation.Text(), rule.category))
  }

  /** The corrections one rule contributes, left to right over its matches. */
  function MatchCorrections(text: string, rule: Rule, spans: seq<Span>): seq<Correction>
    requires SpansIn(text, spans)
  {
    if spans == [] then []
    else
      var init := MatchCorrections(text, rule, spans[..|spans| - 1]);
      match MatchCorrection(text, rule, spans[|spans| - 1])
      case Some(c) => init + [c]
      case None => init
  }

  /** The corrections one rule contributes over all its matches. */
  function RuleOutput(text: string, rule: Rule): seq<Correction> {
    MatchCorrections(text, rule, FindAll(text, rule.pattern))
  }

  /** The corrections of a rule list: rule by rule in list order. */
  function RuleCorrections(text: string, rules: seq<Rule>): seq<Correction> {
    if rules == [] then []
    else RuleCorrections(text, rules[..|rules| - 1]) + RuleOutput(text, rules[|rules| - 1])
  }

  /** The scan loop: `for check in checks`, each rule's matches in turn. */
  method ScanRules(text: string, rules: seq<Rule>) returns (corrections: seq<Correction>)
    ensures corrections == RuleCorrections(text, rules)
  {
    corrections := [];
    for i := 0 to |rules|
      invariant corrections == RuleCorrections(text, rules[..i])
    {
      var found := ScanRule(text, rules[i]);
      assert rules[..i + 1][..i] == rules[..i];
      corrections := corrections + found;
    }
    assert rules[..|rules|] == rules;
  }

  /** The inner loop `for match in re.finditer(check["pattern"], text,
      re.IGNORECASE)` for one rule. */
  method ScanRule(text: string, rule: Rule) returns (corrections: seq<Correction>)
    ensures corrections == RuleOutput(text, rule)
  {
    var spans := FindAll(text, rule.pattern);
    corrections := [];
    for j := 0 to |spans|
      invariant corrections == MatchCorrections(text, rule, spans[..j])
    {
      var startPos, endPos := spans[j].start, spans[j].end;
      var original := text[startPos..endPos];
      var replacement := CaseTransfer(original, rule.replacement);
      assert spans[..j + 1][..j] == spans[..j];
      if replacement == [] {
        continue;
      }
      var correction := Correction(original, startPos, endPos, replacement, rule.explanation.Text(), rule.category);
      corrections := corrections + [correction];
    }
    assert spans[..|spans|] == spans;
  }

  /** `perform_fallback_analysis`: the scan over the older rule list. */
  method PerformFallbackAnalysis(text: string) returns (corrections: seq<Correction>)
    ensures corrections == RuleCorrections(text, FallbackChecks())
  {
    corrections := ScanRules(text, FallbackChecks());
  }

  /** Correction `c` is what `rule` reports for its match at `c.start`. */
  predicate FromRule(text: string, c: Correction, rule: Rule) {
    && 0 <= c.start < c.end <= |text|
    && MatchAt(text, c.start, rule.pattern) == Some(c.end)
    && c.original == text[c.start..c.end]
    && c.suggestion == CaseTransfer(c.original, rule.replacement)
    && c.suggestion != []
    && c.explanation == rule.explanation.Text()
    && c.category == rule.category
  }

  lemma {:induction false} MatchCorrectionsFromRule(text: string, rule: Rule, spans: seq<Span>)
    requires SpansIn(text, spans)
    requires forall k :: 0 <= k < |spans| ==> MatchAt(text, spans[k].start, rule.pattern) == Some(spans[k].end)
    ensures forall c :: c in MatchCorrections(text, rule, spans) ==> FromRule(text, c, rule)
  {
    if spans != [] {
      MatchCorrectionsFromRule(text, rule, spans[..|spans| - 1]);
    }
  }

  /** Every rule correction is grounded in the text: a non-empty in-bounds
      span whose text is `original`, a match of one of the rules, with that
      rule's case-adapted replacement (never empty), explanation and
      category. */
  lemma {:induction false} RuleCorrectionsGrounded(text: string, rules: seq<Rule>)
    ensures forall c :: c in RuleCorrections(text, rules) ==>
      0 <= c.start < c.end <= |text| && c.original == text[c.start..c.end] && c.suggestion != [] &&
      exists rule :: rule in rules && FromRule(text, c, rule)
  {
    if rules != [] {
      var rule := rules[|rules| - 1];
      var init := rules[..|rules| - 1];
      RuleCorrectionsGrounded(text, init);
      FindAllFromMatches(text, rule.pattern, 0);
      MatchCorrectionsFromRule(text, rule, FindAll(text, rule.pattern));
      forall c | c in RuleCorrections(text, rules)
        ensures exists r :: r in rules && FromRule(text, c, r)
      {
        if c in RuleCorrections(text, init) {
          var r :| r in init && FromRule(text, c, r);
          assert r in rules;
        } else {
          assert FromRule(text, c, rule);
        }
      }
    }
  }

  /** Rule lists concatenate: the corrections of `a + b` are those of `a`
      followed by those of `b`, so the output is grouped rule by rule in
      check order. */
  lemma {:induction false} RuleCorrectionsAppend(text: string, a: seq<Rule>, b: seq<Rule>)
    ensures RuleCorrections(text, a + b) == RuleCorrections(text, a) + RuleCorrections(text, b)
  {
    if b == [] {
      assert a + b == a;
    } else {
      var b', rule := b[..|b| - 1], b[|b| - 1];
      SplitLast(a, b);
      RuleCorrectionsAppend(text, a, b');
      RuleCorrectionsSnoc(text, a + b', rule);
      RuleCorrectionsSnoc(text, b', rule);
    }
  }

  lemma SplitLast<T>(a: seq<T>, b: seq<T>)
    requires b != []
    ensures a + b == (a + b[..|b| - 1]) + [b[|b| - 1]]
    ensures b == b[..|b| - 1] + [b[|b| - 1]]
  {
  }

  /** One more rule adds its own corrections at the end. */
  lemma RuleCorrectionsSnoc(text: string, rules: seq<Rule>, rule: Rule)
    ensures RuleCorrections(text, rules + [rule]) ==
      RuleCorrections(text, rules) + RuleOutput(text, rule)
  {
    var all := rules + [rule];
    assert all[..|all| - 1] == rules;
  }

  /** Every correction of a rule sits on a span the matcher reported. */
  lemma {:induction false} MatchCorrectionsSpans(text: string, rule: Rule, spans: seq<Span>)
    requires SpansIn(text, spans)
    ensures forall c :: c in MatchCorrections(text, rule, spans) ==>
      0 <= c.start < c.end && Span(c.start, c.end) in spans
  {
    if spans != [] {
      var init := spans[..|spans| - 1];
      MatchCorrectionsSpans(text, rule, init);
      forall s | s in init ensures s in spans {
        var k :| 0 <= k < |init| && init[k] == s;
        assert spans[k] == s;
      }
    }
  }

  /** Within one rule the corrections run left to right over disjoint
      spans. */
  lemma {:induction false} MatchCorrectionsOrdered(text: string, rule: Rule, spans: seq<Span>)
    requires SpansIn(text, spans)
    requires forall k, l :: 0 <= k < l < |spans| ==> spans[k].end <= spans[l].start
    ensures forall k, l :: 0 <= k < l < |MatchCorrections(text, rule, spans)| ==>
      MatchCorrections(text, rule, spans)[k].end <= MatchCorrections(text, rule, spans)[l].start
  {
    if spans != [] {
      var init, last := spans[..|spans| - 1], spans[|spans| - 1];
      MatchCorrectionsOrdered(text, rule, init);
      MatchCorrectionsSpans(text, rule, init);
      forall s | s in init ensures s.end <= last.start {
        var k :| 0 <= k < |init| && init[k] == s;
        assert spans[k] == s;
      }
    }
  }

  /** A rule whose replacement is empty (the `i` and `ich` rules) never
      contributes a correction. */
  lemma {:induction false} EmptyReplacementSilent(text: string, rule: Rule, spans: seq<Span>)
    requires SpansIn(text, spans)
    requires rule.replacement == []
    ensures MatchCorrections(text, rule, spans) == []
  {
    if spans != [] {
      EmptyReplacementSilent(text, rule, spans[..|spans| - 1]);
    }
  }

  /** A text on which no rule matches anywhere gets no rule corrections. */
  lemma {:induction false} NoMatchNoCorrections(text: string, rules: seq<Rule>)
    requires forall r, q :: r in rules && 0 <= q <= |text| ==> MatchAt(text, q, r.pattern).None?
    ensures RuleCorrections(text, rules) == []
  {
    if rules != [] {
      var rule := rules[|rules| - 1];
      NoMatchNoCorrections(text, rules[..|rules| - 1]);
      FoundIffSomeMatch(text, rule.pattern);
    }
  }
}
