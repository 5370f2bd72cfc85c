/** `split_text_into_segments`: the text is cut into sentence or line
    units, and the non-blank units are packed greedily, joined by single
    spaces, into segments of about `max_segment_length` characters. */
module Segmenter {
  import opened TextUtil

  /** A sentence end: one of `.`, `!`, `?`. */
  predicate IsSentenceEnd(c: char) {
    c == '.' || c == '!' || c == '?'
  }

  function NewlineRunEnd(text: string, p: nat): (e: nat)
    requires p <= |text|
    ensures p <= e <= |text|
    ensures forall i :: p <= i < e ==> text[i] == '\n'
    ensures e == |text| || text[e] != '\n'
    decreases |text| - p
  {
    if p < |text| && text[p] == '\n' then NewlineRunEnd(text, p + 1) else p
  }

  /** End of the separator `(?<=[.!?])\s+|\n+` matched at `p`, if any: the
      first alternative (a whitespace run right after a sentence end) is
      tried first, then a run of newlines. */
  function SeparatorAt(text: string, p: nat): (r: Option<nat>)
    requires p <= |text|
    ensures r.Some? ==> p < r.value <= |text|
  {
    if 0 < p < |text| && IsSentenceEnd(text[p - 1]) && IsSpace(text[p]) then
      assert IsSpace(text[p]);
      Some(SpaceRunEnd(text, p + 1))
    else if p < |text| && text[p] == '\n' then Some(NewlineRunEnd(text, p + 1))
    else None
  }

  /** `re.split` from a unit starting at `start`, scanning from `p`. */
  function SplitFrom(text: string, start: nat, p: nat): (units: seq<string>)
    requires start <= p <= |text|
    ensures units != []
    decreases |text| - p
  {
    if p == |text| then [text[start..]]
    else match SeparatorAt(text, p)
      case Some(e) => [text[start..p]] + SplitFrom(text, e, e)
      case None => SplitFrom(text, start, p + 1)
  }

  /** Where the units of `SplitFrom(text, start, p)` lie in the text: one
      span per unit, in order. */
  function SplitSpans(text: string, start: nat, p: nat): (spans: seq<(nat, nat)>)
    requires start <= p <= |text|
    decreases |text| - p
  {
    if p == |text| then [(start, |text|)]
    else match SeparatorAt(text, p)
      case Some(e) => [(start, p)] + SplitSpans(text, e, e)
      case None => SplitSpans(text, start, p + 1)
  }

  /** One span per split piece, the first starting at `start`, the last
      ending at the end of the text. */
  lemma {:induction false} SplitSpansEnds(text: string, start: nat, p: nat)
    requires start <= p <= |text|
    ensures var sp := SplitSpans(text, start, p);
      |sp| == |SplitFrom(text, start, p)| && sp[0].0 == start && sp[|sp| - 1].1 == |text|
    decreases |text| - p
  {
    if p < |text| {
      match SeparatorAt(text, p)
      case Some(e) =>
        SplitSpansEnds(text, e, e);
      case None =>
        SplitSpansEnds(text, start, p + 1);
    }
  }

  /** The piece `unit` lies at `span` of the text. */
  predicate PieceAt(text: string, span: (nat, nat), unit: string) {
    span.0 <= span.1 <= |text| && unit == text[span.0..span.1]
  }

  /** Each span holds its piece. */
  lemma {:induction false} SplitSpansPieces(text: string, start: nat, p: nat)
    requires start <= p <= |text|
    ensures forall i :: 0 <= i < |SplitSpans(text, start, p)| && i < |SplitFrom(text, start, p)| ==>
      PieceAt(text, SplitSpans(text, start, p)[i], SplitFrom(text, start, p)[i])
    decreases |text| - p
  {
    if p < |text| {
      match SeparatorAt(text, p)
      case Some(e) =>
        SplitSpansPieces(text, e, e);
        SplitSpansEnds(text, e, e);
        var sp', units' := SplitSpans(text, e, e), SplitFrom(text, e, e);
        var sp, units := SplitSpans(text, start, p), SplitFrom(text, start, p);
        assert sp == [(start, p)] + sp' && units == [text[start..p]] + units';
        forall i | 1 <= i < |sp| && i < |units| ensures PieceAt(text, sp[i], units[i]) {
          assert 0 <= i - 1 < |sp'| && i - 1 < |units'|;
          assert sp[i] == sp'[i - 1] && units[i] == units'[i - 1];
        }
      case None =>
        SplitSpansPieces(text, start, p + 1);
        assert SplitSpans(text, start, p) == SplitSpans(text, start, p + 1);
        assert SplitFrom(text, start, p) == SplitFrom(text, start, p + 1);
    }
  }

  /** The separator match that starts where piece `a` ends ends where
      piece `b` starts. */
  predicate SeparatedBy(text: string, a: (nat, nat), b: (nat, nat)) {
    a.1 <= |text| && SeparatorAt(text, a.1) == Some(b.0)
  }

  /** Between consecutive pieces lies exactly the separator match found
      where the earlier piece ends. */
  lemma {:induction false} SplitSpansSeparators(text: string, start: nat, p: nat)
    requires start <= p <= |text|
    ensures forall i :: 0 <= i < |SplitSpans(text, start, p)| - 1 ==>
      SeparatedBy(text, SplitSpans(text, start, p)[i], SplitSpans(text, start, p)[i + 1])
    decreases |text| - p
  {
    if p < |text| {
      match SeparatorAt(text, p)
      case Some(e) =>
        SplitSpansSeparators(text, e, e);
        SplitSpansEnds(text, e, e);
        var sp' := SplitSpans(text, e, e);
        var sp := SplitSpans(text, start, p);
        assert sp == [(start, p)] + sp';
        forall i | 1 <= i < |sp| - 1 ensures SeparatedBy(text, sp[i], sp[i + 1]) {
          assert sp[i] == sp'[i - 1] && sp[i + 1] == sp'[i];
        }
      case None =>
        SplitSpansSeparators(text, start, p + 1);
        assert SplitSpans(text, start, p) == SplitSpans(text, start, p + 1);
    }
  }

  /** No offset in `[a, b)` starts a separator match. */
  predicate NoSeparatorIn(text: string, a: nat, b: nat)
    requires b <= |text|
  {
    forall k :: a <= k < b ==> SeparatorAt(text, k) == None
  }

  /** No offset inside the span starts a separator match. */
  predicate SeparatorFree(text: string, span: (nat, nat)) {
    span.1 <= |text| && NoSeparatorIn(text, span.0, span.1)
  }

  /** No offset inside a piece starts a separator: `re.split` cuts at
      every match and only there. */
  lemma {:induction false} SplitSpansNoSeparatorInside(text: string, start: nat, p: nat)
    requires start <= p <= |text|
    requires NoSeparatorIn(text, start, p)
    ensures forall i :: 0 <= i < |SplitSpans(text, start, p)| ==> SeparatorFree(text, SplitSpans(text, start, p)[i])
    decreases |text| - p
  {
    if p < |text| {
      match SeparatorAt(text, p)
      case Some(e) =>
        SplitSpansNoSeparatorInside(text, e, e);
        var sp' := SplitSpans(text, e, e);
        var sp := SplitSpans(text, start, p);
        assert sp == [(start, p)] + sp';
        forall i | 1 <= i < |sp| ensures SeparatorFree(text, sp[i]) {
          assert sp[i] == sp'[i - 1];
        }
      case None =>
        assert NoSeparatorIn(text, start, p + 1);
        SplitSpansNoSeparatorInside(text, start, p + 1);
        assert SplitSpans(text, start, p) == SplitSpans(text, start, p + 1);
    }
  }

  /** The split of the whole text: its pieces and the separator matches
      between them, laid end to end, are the text; each separator is the
      match found where the previous piece ends; and no piece holds the
      start of a separator match. */
  lemma SplitUnitsTile(text: string)
    ensures var sp, units := SplitSpans(text, 0, 0), SplitUnits(text);
      && |sp| == |units| && sp[0].0 == 0 && sp[|sp| - 1].1 == |text|
      && (forall i :: 0 <= i < |sp| ==> PieceAt(text, sp[i], units[i]))
      && (forall i :: 0 <= i < |sp| - 1 ==> SeparatedBy(text, sp[i], sp[i + 1]))
      && (forall i :: 0 <= i < |sp| ==> SeparatorFree(text, sp[i]))
    ensures |SplitUnits(text)| == |SplitSeparators(text, 0, 0)| + 1
    ensures Interleave(SplitUnits(text), SplitSeparators(text, 0, 0)) == text
  {
    SplitRebuilds(text, 0, 0);
    assert text[0..] == text;
    SplitSpansEnds(text, 0, 0);
    SplitSpansPieces(text, 0, 0);
    SplitSpansSeparators(text, 0, 0);
    SplitSpansNoSeparatorInside(text, 0, 0);
  }

  /** The separator matches `SplitFrom(text, start, p)` cuts out, in order. */
  function SplitSeparators(text: string, start: nat, p: nat): seq<string>
    requires start <= p <= |text|
    decreases |text| - p
  {
    if p == |text| then []
    else match SeparatorAt(text, p)
      case Some(e) => [text[p..e]] + SplitSeparators(text, e, e)
      case None => SplitSeparators(text, start, p + 1)
  }

  /** Pieces and separators alternately, starting and ending with a piece. */
  function Interleave(units: seq<string>, seps: seq<string>): string
    requires |units| == |seps| + 1
  {
    if seps == [] then units[0] else units[0] + seps[0] + Interleave(units[1..], seps[1..])
  }

  /** Putting the separators back between the pieces gives the text back. */
  lemma {:induction false} SplitRebuilds(text: string, start: nat, p: nat)
    requires start <= p <= |text|
    ensures |SplitFrom(text, start, p)| == |SplitSeparators(text, start, p)| + 1
    ensures Interleave(SplitFrom(text, start, p), SplitSeparators(text, start, p)) == text[start..]
    decreases |text| - p
  {
    if p < |text| {
      match SeparatorAt(text, p)
      case Some(e) =>
        SplitRebuilds(text, e, e);
        InterleaveCons(text[start..p], text[p..e], SplitFrom(text, e, e), SplitSeparators(text, e, e));
        SliceThree(text, start, p, e);
      case None =>
        SplitRebuilds(text, start, p + 1);
        assert SplitFrom(text, start, p) == SplitFrom(text, start, p + 1);
        assert SplitSeparators(text, start, p) == SplitSeparators(text, start, p + 1);
    }
  }

  lemma InterleaveCons(u: string, sep: string, units: seq<string>, seps: seq<string>)
    requires |units| == |seps| + 1
    ensures Interleave([u] + units, [sep] + seps) == u + sep + Interleave(units, seps)
  {
    assert ([u] + units)[1..] == units && ([sep] + seps)[1..] == seps;
  }

  lemma SliceThree(text: string, a: nat, b: nat, c: nat)
    requires a <= b <= c <= |text|
    ensures text[a..] == text[a..b] + text[b..c] + text[c..]
  {
  }

  /** The units of `re.split(r'(?<=[.!?])\s+|\n+', text)`. */
  function SplitUnits(text: string): seq<string> {
    SplitFrom(text, 0, 0)
  }

  /** The packing state: the groups of units already closed, and the units
      of the segment being built. */
  datatype Packing = Packing(closed: seq<seq<string>>, open: seq<string>)

  /** One iteration of the packing loop. */
  function Push(st: Packing, unit: string, maxLen: int): Packing {
    if IsBlank(unit) then st
    else if |JoinSpace(st.open)| + |unit| > maxLen && st.open != [] then Packing(st.closed + [st.open], [unit])
    else Packing(st.closed, st.open + [unit])
  }

  function Pack(units: seq<string>, maxLen: int): Packing {
    if units == [] then Packing([], [])
    else Push(Pack(units[..|units| - 1], maxLen), units[|units| - 1], maxLen)
  }

  /** The groups of units that make up the segments, in order. */
  function Groups(units: seq<string>, maxLen: int): seq<seq<string>> {
    var st := Pack(units, maxLen);
    st.closed + (if st.open == [] then [] else [st.open])
  }

  /** The segments: each group joined by single spaces, then stripped. */
  function SegmentsOf(groups: seq<seq<string>>): (segs: seq<string>)
    ensures |segs| == |groups|
  {
    if groups == [] then []
    else SegmentsOf(groups[..|groups| - 1]) + [Strip(JoinSpace(groups[|groups| - 1]))]
  }

  function Segments(text: string, maxLen: int): seq<string> {
    SegmentsOf(Groups(SplitUnits(text), maxLen))
  }

  /** `split_text_into_segments(text, max_segment_length)`. */
  method SplitTextIntoSegments(text: string, maxLen: int) returns (segments: seq<string>)
    ensures segments == Segments(text, maxLen)
  {
    var sentences := SplitUnits(text);
    segments := [];
    var current := "";
    for i := 0 to |sentences|
      invariant current == JoinSpace(Pack(sentences[..i], maxLen).open)
      invariant segments == SegmentsOf(Pack(sentences[..i], maxLen).closed)
    {
      ghost var st := Pack(sentences[..i], maxLen);
      var sentence := sentences[i];
      PackStep(sentences, i, maxLen);
      StripEmptyIffBlank(sentence);
      if Strip(sentence) == [] {
        continue;
      }
      OpenJoin(sentences[..i], maxLen);
      PushStep(st, sentence, maxLen);
      if |current| + |sentence| > maxLen && current != [] {
        segments := segments + [Strip(current)];
        current := sentence;
      } else {
        if current != [] {
          current := current + " ";
        }
        current := current + sentence;
      }
    }
    assert sentences[..|sentences|] == sentences;
    OpenJoin(sentences, maxLen);
    FinalStep(Pack(sentences, maxLen));
    if current != [] {
      segments := segments + [Strip(current)];
    }
  }

  /** One more unit packs like one more iteration of the loop. */
  lemma PackStep(units: seq<string>, i: nat, maxLen: int)
    requires i < |units|
    ensures Pack(units[..i + 1], maxLen) == Push(Pack(units[..i], maxLen), units[i], maxLen)
  {
    assert units[..i + 1][..i] == units[..i];
  }

  /** What one iteration of the loop does to the segment being built (its
      units joined by spaces) and to the segments already emitted. */
  lemma PushStep(st: Packing, u: string, maxLen: int)
    requires !IsBlank(u)
    requires JoinSpace(st.open) == [] <==> st.open == []
    ensures var cur, st' := JoinSpace(st.open), Push(st, u, maxLen);
      if |cur| + |u| > maxLen && cur != [] then
        JoinSpace(st'.open) == u && SegmentsOf(st'.closed) == SegmentsOf(st.closed) + [Strip(cur)]
      else
        JoinSpace(st'.open) == (if cur != [] then cur + " " else cur) + u && st'.closed == st.closed
  {
    var cur := JoinSpace(st.open);
    if |cur| + |u| > maxLen && cur != [] {
      SegmentsOfSnoc(st.closed, st.open);
    } else {
      JoinSpaceSnoc(st.open, u);
      if cur == [] {
        assert cur + u == u;
      }
    }
  }

  /** The last segment is emitted when the segment being built is not empty. */
  lemma FinalStep(st: Packing)
    ensures SegmentsOf(st.closed + (if st.open == [] then [] else [st.open])) ==
      SegmentsOf(st.closed) + (if st.open == [] then [] else [Strip(JoinSpace(st.open))])
  {
    if st.open == [] {
      assert st.closed + [] == st.closed;
    } else {
      SegmentsOfSnoc(st.closed, st.open);
    }
  }

  lemma SegmentsOfSnoc(gs: seq<seq<string>>, g: seq<string>)
    ensures SegmentsOf(gs + [g]) == SegmentsOf(gs) + [Strip(JoinSpace(g))]
  {
    assert (gs + [g])[..|gs|] == gs;
  }

  /** The segment being built is empty exactly when it has no units. */
  lemma OpenJoin(units: seq<string>, maxLen: int)
    ensures JoinSpace(Pack(units, maxLen).open) == [] <==> Pack(units, maxLen).open == []
  {
    PackShape(units, maxLen);
    var open := Pack(units, maxLen).open;
    forall k | 0 <= k < |open| ensures open[k] != [] {
      assert open[k] in open;
    }
    JoinSpaceEmpty(open);
  }

  /** `" ".join` of a non-empty list ending in `u`. */
  lemma {:induction false} JoinSpaceSnoc(ws: seq<string>, u: string)
    ensures JoinSpace(ws + [u]) == if ws == [] then u else JoinSpace(ws) + " " + u
  {
    if |ws| == 1 {
      assert ws + [u] == [ws[0], u];
    } else if ws != [] {
      JoinSpaceSnoc(ws[1..], u);
      assert (ws + [u])[1..] == ws[1..] + [u];
    }
  }

  /** Joining units none of which is empty gives the empty string exactly
      for the empty list. */
  lemma JoinSpaceEmpty(ws: seq<string>)
    requires forall k :: 0 <= k < |ws| ==> ws[k] != []
    ensures JoinSpace(ws) == [] <==> ws == []
  {
    if |ws| > 1 {
      assert |JoinSpace(ws)| >= 1 + |JoinSpace(ws[1..])|;
    }
  }

  /** The non-blank units, in order. */
  function NonBlank(units: seq<string>): seq<string> {
    if units == [] then []
    else NonBlank(units[..|units| - 1]) + (if IsBlank(units[|units| - 1]) then [] else [units[|units| - 1]])
  }

  /** The groups laid end to end. */
  function Flatten(groups: seq<seq<string>>): seq<string> {
    if groups == [] then [] else Flatten(groups[..|groups| - 1]) + groups[|groups| - 1]
  }

  /** Group `k` of `groups` followed by `next` was closed because the next
      unit did not fit. */
  predicate Full(g: seq<string>, next: seq<string>, maxLen: int) {
    next != [] && |JoinSpace(g)| + |next[0]| > maxLen
  }

  /** The shape the packing loop maintains: the groups laid end to end
      are the non-blank units so far, and no group is empty. */
  predicate WellPacked(st: Packing, units: seq<string>) {
    && Flatten(st.closed) + st.open == NonBlank(units)
    && (forall u :: u in st.open ==> !IsBlank(u))
    && (forall k :: 0 <= k < |st.closed| ==> st.closed[k] != [])
    && (forall k :: 0 <= k < |st.closed| ==> forall u :: u in st.closed[k] ==> !IsBlank(u))
    && (st.closed != [] ==> st.open != [])
  }

  lemma PackShape(units: seq<string>, maxLen: int)
    ensures WellPacked(Pack(units, maxLen), units)
  {
    PackCovers(units, maxLen);
    PackNoBlank(units, maxLen);
  }

  /** Laid end to end, the groups are the non-blank units so far. */
  lemma {:induction false} PackCovers(units: seq<string>, maxLen: int)
    ensures Flatten(Pack(units, maxLen).closed) + Pack(units, maxLen).open == NonBlank(units)
  {
    if units != [] {
      var init, u := units[..|units| - 1], units[|units| - 1];
      PackCovers(init, maxLen);
      var st := Pack(init, maxLen);
      if !IsBlank(u) && |JoinSpace(st.open)| + |u| > maxLen && st.open != [] {
        FlattenSnoc(st.closed, st.open);
      }
    }
  }

  lemma FlattenSnoc(gs: seq<seq<string>>, g: seq<string>)
    ensures Flatten(gs + [g]) == Flatten(gs) + g
  {
    assert (gs + [g])[..|gs|] == gs;
  }

  /** No group is empty or holds a blank unit, and the segment being built
      is empty only before the first group is closed. */
  lemma {:induction false} PackNoBlank(units: seq<string>, maxLen: int)
    ensures var st := Pack(units, maxLen);
      && (forall u :: u in st.open ==> !IsBlank(u))
      && (forall k :: 0 <= k < |st.closed| ==> st.closed[k] != [])
      && (forall k :: 0 <= k < |st.closed| ==> forall u :: u in st.closed[k] ==> !IsBlank(u))
      && (st.closed != [] ==> st.open != [])
  {
    if units != [] {
      var init, u := units[..|units| - 1], units[|units| - 1];
      PackNoBlank(init, maxLen);
      var st := Pack(init, maxLen);
      if !IsBlank(u) && |JoinSpace(st.open)| + |u| > maxLen && st.open != [] {
        var st' := Push(st, u, maxLen);
        forall k | 0 <= k < |st'.closed| ensures st'.closed[k] == if k < |st.closed| then st.closed[k] else st.open {
        }
      }
    }
  }

  /** A group of two or more units is at most `maxLen + 1` long. */
  lemma {:induction false} PackLimit(units: seq<string>, maxLen: int)
    ensures var st := Pack(units, maxLen);
      && (forall k :: 0 <= k < |st.closed| && |st.closed[k]| >= 2 ==> |JoinSpace(st.closed[k])| <= maxLen + 1)
      && (|st.open| >= 2 ==> |JoinSpace(st.open)| <= maxLen + 1)
  {
    if units != [] {
      var init, u := units[..|units| - 1], units[|units| - 1];
      PackLimit(init, maxLen);
      var st := Pack(init, maxLen);
      var st' := Push(st, u, maxLen);
      if !IsBlank(u) {
        if |JoinSpace(st.open)| + |u| > maxLen && st.open != [] {
          forall k | 0 <= k < |st.closed| ensures st'.closed[k] == st.closed[k] {
          }
        } else {
          JoinSpaceSnoc(st.open, u);
        }
      }
    }
  }

  /** Every closed group of `st` was closed because the next unit did not
      fit. */
  predicate Greedy(st: Packing, maxLen: int) {
    forall k :: 0 <= k < |st.closed| ==> Full(st.closed[k], NextGroup(st, k), maxLen)
  }

  /** The group that follows closed group `k`. */
  function NextGroup(st: Packing, k: nat): seq<string>
    requires k < |st.closed|
  {
    if k + 1 < |st.closed| then st.closed[k + 1] else st.open
  }

  lemma {:induction false} PackGreedy(units: seq<string>, maxLen: int)
    ensures Greedy(Pack(units, maxLen), maxLen)
  {
    if units != [] {
      var init, u := units[..|units| - 1], units[|units| - 1];
      PackGreedy(init, maxLen);
      PackShape(init, maxLen);
      var st := Pack(init, maxLen);
      var st' := Push(st, u, maxLen);
      if !IsBlank(u) {
        if |JoinSpace(st.open)| + |u| > maxLen && st.open != [] {
          forall k | 0 <= k < |st'.closed|
            ensures Full(st'.closed[k], NextGroup(st', k), maxLen)
          {
            if k < |st.closed| {
              assert st'.closed[k] == st.closed[k];
              assert Full(st.closed[k], NextGroup(st, k), maxLen);
              if k + 1 < |st.closed| {
                assert st'.closed[k + 1] == st.closed[k + 1];
              } else {
                assert st'.closed[k + 1] == st.open;
              }
            } else {
              assert st'.closed[k] == st.open && st'.open == [u];
            }
          }
        } else if st.open != [] {
          assert (st.open + [u])[0] == st.open[0];
          forall k | 0 <= k < |st'.closed|
            ensures Full(st'.closed[k], NextGroup(st', k), maxLen)
          {
            assert Full(st.closed[k], NextGroup(st, k), maxLen);
          }
        }
      }
    }
  }

  /** The segments cover the text's non-blank units exactly: laid end to
      end, the groups are those units in their original order, each once;
      no group is empty; consecutive units of a group are joined by one
      space. */
  lemma GroupsCoverUnits(units: seq<string>, maxLen: int)
    ensures Flatten(Groups(units, maxLen)) == NonBlank(units)
    ensures forall k :: 0 <= k < |Groups(units, maxLen)| ==> Groups(units, maxLen)[k] != []
  {
    PackShape(units, maxLen);
    var st := Pack(units, maxLen);
    var gs := Groups(units, maxLen);
    if st.open != [] {
      assert gs[..|gs| - 1] == st.closed;
    } else {
      assert gs == st.closed;
    }
  }

  /** A segment built from two or more units is at most one character
      longer than the limit (the check ignores the joining space); only a
      single unit can exceed it.  A group is closed only because the first
      unit of the next group would have pushed it over the limit. */
  lemma GroupsRespectLimit(units: seq<string>, maxLen: int)
    ensures forall k :: 0 <= k < |Groups(units, maxLen)| && |Groups(units, maxLen)[k]| >= 2 ==>
      |JoinSpace(Groups(units, maxLen)[k])| <= maxLen + 1
    ensures forall k :: 0 <= k < |Groups(units, maxLen)| - 1 ==>
      Full(Groups(units, maxLen)[k], Groups(units, maxLen)[k + 1], maxLen)
  {
    PackLimit(units, maxLen);
    PackGreedy(units, maxLen);
    var st := Pack(units, maxLen);
    var gs := Groups(units, maxLen);
    assert Greedy(st, maxLen);
    forall k | 0 <= k < |gs| ensures gs[k] == if k < |st.closed| then st.closed[k] else st.open {
    }
    forall k | 0 <= k < |gs| - 1
      ensures Full(gs[k], gs[k + 1], maxLen)
    {
      assert Full(st.closed[k], NextGroup(st, k), maxLen);
    }
  }

  /** A group of non-blank units joins to a non-blank string. */
  lemma {:induction false} JoinNonBlank(g: seq<string>)
    requires g != [] && forall u :: u in g ==> !IsBlank(u)
    ensures !IsBlank(JoinSpace(g))
  {
    var init, u := g[..|g| - 1], g[|g| - 1];
    assert g == init + [u];
    JoinSpaceSnoc(init, u);
    var j := JoinSpace(g);
    assert u in g;
    var i :| 0 <= i < |u| && !IsSpace(u[i]);
    assert j[|j| - |u| + i] == u[i];
  }

  /** No segment is empty. */
  lemma SegmentsNonEmpty(text: string, maxLen: int)
    ensures forall k :: 0 <= k < |Segments(text, maxLen)| ==> Segments(text, maxLen)[k] != []
  {
    var units := SplitUnits(text);
    PackShape(units, maxLen);
    var st := Pack(units, maxLen);
    var gs := Groups(units, maxLen);
    forall k | 0 <= k < |gs| ensures gs[k] != [] && forall u :: u in gs[k] ==> !IsBlank(u) {
      if k == |st.closed| {
        assert gs[k] == st.open;
      }
    }
    SegmentsOfNonEmpty(gs);
  }

  lemma {:induction false} SegmentsOfNonEmpty(gs: seq<seq<string>>)
    requires forall k :: 0 <= k < |gs| ==> gs[k] != [] && forall u :: u in gs[k] ==> !IsBlank(u)
    ensures forall k :: 0 <= k < |SegmentsOf(gs)| ==> SegmentsOf(gs)[k] != []
  {
    if gs != [] {
      SegmentsOfNonEmpty(gs[..|gs| - 1]);
      var g := gs[|gs| - 1];
      JoinNonBlank(g);
      StripEmptyIffBlank(JoinSpace(g));
    }
  }
}
