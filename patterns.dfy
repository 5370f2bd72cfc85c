/** The patterns that stand for the analyser's regular expressions, and
    Python's `re.finditer` over them with `re.IGNORECASE`.

    Every rule pattern of the analyser has the shape `\b(alt1|alt2|...)`,
    optionally followed by a closing `\b`, where each alternative is a run
    of literal characters and `\s+` gaps.  Optional groups and character
    classes are unfolded into their literal alternatives, listed in the
    order the backtracking engine tries them; the first alternative that
    matches (and meets the closing boundary) wins, as in Python's `re`. */
module Patterns {
  import opened TextUtil

  /** A literal character, compared without regard to case, or `\s+`. */
  datatype Tok = Ch(c: char) | Spaces

  /** An alternative has a first token, so it never matches the empty string. */
  datatype Alt = Alt(head: Tok, tail: seq<Tok>)

  datatype Pattern = Pattern(alts: seq<Alt>, boundaryAfter: bool)

  /** A half-open range `[start, end)` of the text. */
  datatype Span = Span(start: nat, end: nat)

  function Toks(a: Alt): seq<Tok> {
    [a.head] + a.tail
  }

  function Lit(s: string): seq<Tok> {
    seq(|s|, i requires 0 <= i < |s| => Ch(s[i]))
  }

  function AltOf(toks: seq<Tok>): Alt
    requires toks != []
  {
    Alt(toks[0], toks[1..])
  }

  /** The alternatives of `(f1|f2|...)<sep>(s1|s2|...)`, in the engine's order. */
  function Cross(firsts: seq<string>, sep: seq<Tok>, seconds: seq<string>): seq<Alt>
    requires forall i :: 0 <= i < |firsts| ==> firsts[i] != []
  {
    if firsts == [] then []
    else
      seq(|seconds|, j requires 0 <= j < |seconds| => AltOf(Lit(firsts[0]) + sep + Lit(seconds[j])))
      + Cross(firsts[1..], sep, seconds)
  }

  /** `\bw1|w2|...\b` over plain words. */
  function Keywords(ws: seq<string>): Pattern
    requires forall i :: 0 <= i < |ws| ==> ws[i] != []
  {
    Pattern(seq(|ws|, i requires 0 <= i < |ws| => AltOf(Lit(ws[i]))), true)
  }

  /** The regex assertion `\b` at offset `p`. */
  predicate Boundary(text: string, p: nat) {
    (0 < p <= |text| && IsWordChar(text[p - 1])) != (p < |text| && IsWordChar(text[p]))
  }

  /** End of the match of a token sequence at `p`, if it matches.  A
      `\s+` gap takes the whole whitespace run: every gap in the analyser's
      patterns is followed by a non-space literal, so giving characters back
      could never help the match. */
  function MatchToks(text: string, p: nat, toks: seq<Tok>): (r: Option<nat>)
    requires p <= |text|
    ensures r.Some? ==> p + |toks| <= r.value <= |text|
    decreases toks
  {
    if toks == [] then Some(p)
    else if p == |text| then None
    else match toks[0]
      case Ch(c) =>
        if ToLower(text[p]) == ToLower(c) then MatchToks(text, p + 1, toks[1..]) else None
      case Spaces =>
        if IsSpace(text[p]) then MatchToks(text, SpaceRunEnd(text, p), toks[1..]) else None
  }

  /** The first alternative that matches at `p` and, when asked for, ends on a boundary. */
  function MatchAlts(text: string, p: nat, alts: seq<Alt>, boundaryAfter: bool): (r: Option<nat>)
    requires p <= |text|
    ensures r.Some? ==> p < r.value <= |text|
    ensures r.Some? && boundaryAfter ==> Boundary(text, r.value)
  {
    if alts == [] then None
    else match MatchToks(text, p, Toks(alts[0]))
      case Some(e) =>
        if !boundaryAfter || Boundary(text, e) then Some(e)
        else MatchAlts(text, p, alts[1..], boundaryAfter)
      case None => MatchAlts(text, p, alts[1..], boundaryAfter)
  }

  /** End of the match of the whole pattern at `p` (leading `\b` included). */
  function MatchAt(text: string, p: nat, pat: Pattern): (r: Option<nat>)
    requires p <= |text|
    ensures r.Some? ==> p < r.value <= |text| && Boundary(text, p)
  {
    if Boundary(text, p) then MatchAlts(text, p, pat.alts, pat.boundaryAfter) else None
  }

  /** Offset `q` lies inside one of the spans. */
  predicate Covered(spans: seq<Span>, q: int) {
    exists k :: 0 <= k < |spans| && spans[k].start <= q < spans[k].end
  }

  /** Python's `re.finditer` from offset `p`: the leftmost match, then the
      leftmost match from its end, and so on.  The contract, together with
      `FindAllFromMatches` and `FindAllFromComplete`, says this completely:
      the spans are matches, in order and disjoint, and no offset outside
      them starts a match. */
  function FindAllFrom(text: string, pat: Pattern, p: nat): (spans: seq<Span>)
    requires p <= |text|
    ensures forall k :: 0 <= k < |spans| ==> p <= spans[k].start < spans[k].end <= |text|
    ensures forall k, l :: 0 <= k < l < |spans| ==> spans[k].end <= spans[l].start
    decreases |text| - p
  {
    match MatchAt(text, p, pat)
    case Some(e) => [Span(p, e)] + FindAllFrom(text, pat, e)
    case None =>
      if p == |text| then [] else FindAllFrom(text, pat, p + 1)
  }

  /** Every offset where the pattern matches lies inside a reported span. */
  lemma {:induction false} FindAllFromComplete(text: string, pat: Pattern, p: nat)
    requires p <= |text|
    ensures forall q :: p <= q <= |text| && MatchAt(text, q, pat).Some? ==> Covered(FindAllFrom(text, pat, p), q)
    decreases |text| - p
  {
    match MatchAt(text, p, pat)
    case Some(e) =>
      FindAllFromComplete(text, pat, e);
      CoveredCons(Span(p, e), FindAllFrom(text, pat, e));
    case None =>
      if p < |text| {
        FindAllFromComplete(text, pat, p + 1);
      }
  }

  lemma CoveredCons(s: Span, rest: seq<Span>)
    ensures forall q :: s.start <= q < s.end ==> Covered([s] + rest, q)
    ensures forall q :: Covered(rest, q) ==> Covered([s] + rest, q)
  {
    var spans := [s] + rest;
    forall q | s.start <= q < s.end ensures Covered(spans, q) {
      assert spans[0] == s;
    }
    forall q | Covered(rest, q) ensures Covered(spans, q) {
      var k :| 0 <= k < |rest| && rest[k].start <= q < rest[k].end;
      assert spans[k + 1] == rest[k];
    }
  }

  /** Every span `re.finditer` reports is a match of the pattern at its
      start, ending where the match ends. */
  lemma {:induction false} FindAllFromMatches(text: string, pat: Pattern, p: nat)
    requires p <= |text|
    ensures forall k :: 0 <= k < |FindAllFrom(text, pat, p)| ==>
      MatchAt(text, FindAllFrom(text, pat, p)[k].start, pat) == Some(FindAllFrom(text, pat, p)[k].end)
    decreases |text| - p
  {
    match MatchAt(text, p, pat)
    case Some(e) =>
      FindAllFromMatches(text, pat, e);
    case None =>
      if p < |text| {
        FindAllFromMatches(text, pat, p + 1);
      }
  }

  function FindAll(text: string, pat: Pattern): seq<Span> {
    FindAllFrom(text, pat, 0)
  }

  /** `re.search` succeeds exactly when some offset starts a match. */
  predicate Found(text: string, pat: Pattern) {
    FindAll(text, pat) != []
  }

  lemma FoundIffSomeMatch(text: string, pat: Pattern)
    ensures Found(text, pat) <==> exists q :: 0 <= q <= |text| && MatchAt(text, q, pat).Some?
  {
    var spans := FindAll(text, pat);
    FindAllFromMatches(text, pat, 0);
    FindAllFromComplete(text, pat, 0);
    if spans != [] {
      assert MatchAt(text, spans[0].start, pat).Some?;
    }
  }
}
