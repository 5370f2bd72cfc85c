/** The `/apply_corrections` route (identical in `app.py`, `routes.py` and
    `attached_assets/app.py`): the selected corrections are sorted by start
    offset, highest first, and each suggestion is spliced into the text in
    that order, so that splicing never shifts an offset still to be used. */
module EditApplier {
  import opened TextUtil

  /** A selected correction: `position.start`, `position.end` and
      `suggestion` of the client's JSON. */
  datatype Edit = Edit(start: int, end: int, suggestion: string)

  /** The JSON body; a key the client left out is None, and a body that is
      not JSON at all is a None payload. */
  datatype Payload = Payload(selected: Option<seq<Edit>>, resumeText: Option<string>)

  /** The 200 answer with the corrected text, or the 400 "Invalid data
      format" answer. */
  datatype Response = Corrected(text: string) | InvalidData

  /** `text[:e.start] + e.suggestion + text[e.end:]`, Python slicing. */
  function Splice(text: string, e: Edit): string {
    PySlice(text, 0, e.start) + e.suggestion + PySlice(text, e.end, |text|)
  }

  /** The splices applied one after the other, in list order. */
  function SpliceAll(text: string, es: seq<Edit>): string
    decreases |es|
  {
    if es == [] then text else SpliceAll(Splice(text, es[0]), es[1..])
  }

  /** `x` placed before the first element with a smaller start, so that
      equal starts keep their input order. */
  function InsertDesc(s: seq<Edit>, x: Edit): (r: seq<Edit>)
    ensures |r| == |s| + 1
    ensures r[0] == x || (s != [] && r[0] == s[0])
  {
    if s == [] then [x]
    else if s[0].start < x.start then [x] + s
    else [s[0]] + InsertDesc(s[1..], x)
  }

  /** `sorted(es, key=start, reverse=True)`. */
  function SortDesc(es: seq<Edit>): (r: seq<Edit>)
    ensures |r| == |es|
  {
    if es == [] then [] else InsertDesc(SortDesc(es[..|es| - 1]), es[|es| - 1])
  }

  /** Start offsets never increase along `s`. */
  predicate Descending(s: seq<Edit>) {
    |s| <= 1 || (s[1].start <= s[0].start && Descending(s[1..]))
  }

  /** The route handler. */
  method ApplyCorrections(data: Option<Payload>) returns (resp: Response)
    ensures resp.InvalidData? <==>
      data.None? || data.value.selected.None? || data.value.resumeText.None?
    ensures resp.Corrected? ==>
      resp.text == SpliceAll(data.value.resumeText.value, SortDesc(data.value.selected.value))
    ensures data.Some? && data.value.selected == Some([]) && data.value.resumeText.Some? ==>
      resp == Corrected(data.value.resumeText.value)
  {
    if data.None? || data.value.selected.None? || data.value.resumeText.None? {
      return InvalidData;
    }
    var selectedCorrections := data.value.selected.value;
    var resumeText := data.value.resumeText.value;
    var sortedCorrections := SortDesc(selectedCorrections);
    for i := 0 to |sortedCorrections|
      invariant SpliceAll(resumeText, sortedCorrections[i..]) ==
        SpliceAll(data.value.resumeText.value, sortedCorrections)
    {
      var correction := sortedCorrections[i];
      var start := correction.start;
      var end := correction.end;
      assert sortedCorrections[i..][1..] == sortedCorrections[i + 1..];
      resumeText := PySlice(resumeText, 0, start) + correction.suggestion + PySlice(resumeText, end, |resumeText|);
    }
    return Corrected(resumeText);
  }

  // ---------------------------------------------------------------------
  // The sort

  lemma {:induction false} InsertDescSpec(s: seq<Edit>, x: Edit)
    requires Descending(s)
    ensures multiset(InsertDesc(s, x)) == multiset(s) + multiset{x}
    ensures Descending(InsertDesc(s, x))
  {
    if s != [] && s[0].start >= x.start {
      InsertDescSpec(s[1..], x);
      assert s == [s[0]] + s[1..];
      assert InsertDesc(s, x)[1..] == InsertDesc(s[1..], x);
    }
  }

  /** The sort is a permutation and leaves the starts in non-increasing
      order. */
  lemma {:induction false} SortDescSpec(es: seq<Edit>)
    ensures multiset(SortDesc(es)) == multiset(es)
    ensures Descending(SortDesc(es))
  {
    if es != [] {
      var init := es[..|es| - 1];
      SortDescSpec(init);
      InsertDescSpec(SortDesc(init), es[|es| - 1]);
      assert es == init + [es[|es| - 1]];
    }
  }

  // ---------------------------------------------------------------------
  // Simultaneous replacement

  /** `ds` lists in-bounds edits from the right end of a text of length
      `bound` leftwards, each ending at or before the start of the one
      before it. */
  predicate Chain(ds: seq<Edit>, bound: int) {
    ds == [] || (0 <= ds[0].start <= ds[0].end <= bound && Chain(ds[1..], ds[0].start))
  }

  /** The text with every edit of `ds` applied to the ORIGINAL text at once:
      the piece left of the rightmost span (rebuilt in the same way), its
      suggestion, and the original text right of it. */
  function Rebuild(text: string, ds: seq<Edit>): string
    requires Chain(ds, |text|)
    decreases |ds|
  {
    if ds == [] then text
    else Rebuild(text[..ds[0].start], ds[1..]) + ds[0].suggestion + text[ds[0].end..]
  }

  lemma {:induction false} ChainWeaken(ds: seq<Edit>, b: int, b': int)
    requires Chain(ds, b) && b <= b'
    ensures Chain(ds, b')
  {
  }

  /** Text appended after every span does not take part in the splices. */
  lemma {:induction false} SpliceAllAppend(u: string, w: string, es: seq<Edit>)
    requires Chain(es, |u|)
    ensures SpliceAll(u + w, es) == SpliceAll(u, es) + w
    decreases |es|
  {
    if es != [] {
      var e := es[0];
      assert (u + w)[..e.start] == u[..e.start];
      assert (u + w)[e.end..] == u[e.end..] + w;
      assert Splice(u + w, e) == Splice(u, e) + w;
      ChainWeaken(es[1..], e.start, |Splice(u, e)|);
      SpliceAllAppend(Splice(u, e), w, es[1..]);
    }
  }

  /** Splicing right to left is replacing every span of the original text
      at once. */
  lemma {:induction false} SpliceAllIsRebuild(text: string, ds: seq<Edit>)
    requires Chain(ds, |text|)
    ensures SpliceAll(text, ds) == Rebuild(text, ds)
    decreases |ds|
  {
    if ds != [] {
      var d := ds[0];
      var left, right := text[..d.start], d.suggestion + text[d.end..];
      assert Splice(text, d) == left + right;
      SpliceAllAppend(left, right, ds[1..]);
      SpliceAllIsRebuild(left, ds[1..]);
    }
  }

  /** Sum over the edits of `len(suggestion) - (end - start)`. */
  function Delta(es: seq<Edit>): int {
    if es == [] then 0 else (|es[0].suggestion| - (es[0].end - es[0].start)) + Delta(es[1..])
  }

  /** The result is as long as the text plus the length change of every
      edit. */
  lemma {:induction false} SpliceAllLength(text: string, ds: seq<Edit>)
    requires Chain(ds, |text|)
    ensures |SpliceAll(text, ds)| == |text| + Delta(ds)
    decreases |ds|
  {
    if ds != [] {
      var d := ds[0];
      ChainWeaken(ds[1..], d.start, |Splice(text, d)|);
      SpliceAllLength(Splice(text, d), ds[1..]);
    }
  }

  lemma {:induction false} DeltaInsert(s: seq<Edit>, x: Edit)
    ensures Delta(InsertDesc(s, x)) == Delta(s) + Delta([x])
  {
    if s != [] && s[0].start >= x.start {
      DeltaInsert(s[1..], x);
    }
  }

  lemma {:induction false} DeltaSort(es: seq<Edit>)
    ensures Delta(SortDesc(es)) == Delta(es)
  {
    if es != [] {
      var init, x := es[..|es| - 1], es[|es| - 1];
      DeltaSort(init);
      DeltaInsert(SortDesc(init), x);
      DeltaSnoc(init, x);
      assert es == init + [x];
    }
  }

  lemma {:induction false} DeltaSnoc(s: seq<Edit>, x: Edit)
    ensures Delta(s + [x]) == Delta(s) + Delta([x])
  {
    if s != [] {
      assert (s + [x])[1..] == s[1..] + [x];
      DeltaSnoc(s[1..], x);
    }
  }

  // ---------------------------------------------------------------------
  // Selections the route handles predictably

  /** Two spans that do not overlap (an empty span may touch the other). */
  predicate Apart(a: Edit, b: Edit) {
    a.end <= b.start || b.end <= a.start
  }

  /** In-bounds corrections with pairwise-disjoint spans and distinct starts. */
  predicate ValidSelection(text: string, sel: seq<Edit>) {
    && (forall i :: 0 <= i < |sel| ==> 0 <= sel[i].start <= sel[i].end <= |text|)
    && (forall i, j :: 0 <= i < j < |sel| ==> sel[i].start != sel[j].start && Apart(sel[i], sel[j]))
  }

  /** Starts strictly decrease along `s`. */
  predicate StrictDesc(s: seq<Edit>) {
    |s| <= 1 || (s[1].start < s[0].start && StrictDesc(s[1..]))
  }

  lemma {:induction false} InsertChain(s: seq<Edit>, x: Edit, bound: int)
    requires Chain(s, bound) && StrictDesc(s)
    requires 0 <= x.start <= x.end <= bound
    requires forall y :: y in s ==> y.start != x.start && Apart(x, y)
    ensures Chain(InsertDesc(s, x), bound) && StrictDesc(InsertDesc(s, x))
  {
    if s != [] && s[0].start >= x.start {
      assert s[0] in s;
      forall y | y in s[1..] ensures y.start != x.start && Apart(x, y) {
        assert y in s;
      }
      InsertChain(s[1..], x, s[0].start);
    } else if s != [] {
      assert s[0] in s;
    }
  }

  /** Sorting a valid selection gives a right-to-left chain with strictly
      decreasing starts. */
  lemma {:induction false} SortedChain(text: string, sel: seq<Edit>)
    requires ValidSelection(text, sel)
    ensures Chain(SortDesc(sel), |text|) && StrictDesc(SortDesc(sel))
  {
    if sel != [] {
      var init, x := sel[..|sel| - 1], sel[|sel| - 1];
      assert ValidSelection(text, init);
      SortedChain(text, init);
      SortDescSpec(init);
      forall y | y in SortDesc(init) ensures y.start != x.start && Apart(x, y) {
        assert y in multiset(init);
        var i :| 0 <= i < |init| && init[i] == y;
        assert sel[i] == y;
      }
      InsertChain(SortDesc(init), x, |text|);
    }
  }

  /** For a valid selection the route's answer is the simultaneous
      replacement of every selected span of the original text, and its
      length is the text's plus each suggestion's length change. */
  lemma SimultaneousReplacement(text: string, sel: seq<Edit>)
    requires ValidSelection(text, sel)
    ensures Chain(SortDesc(sel), |text|)
    ensures SpliceAll(text, SortDesc(sel)) == Rebuild(text, SortDesc(sel))
    ensures |SpliceAll(text, SortDesc(sel))| == |text| + Delta(sel)
  {
    SortedChain(text, sel);
    SpliceAllIsRebuild(text, SortDesc(sel));
    SpliceAllLength(text, SortDesc(sel));
    DeltaSort(sel);
  }

  lemma {:induction false} StrictDescHead(s: seq<Edit>)
    requires StrictDesc(s) && s != []
    ensures forall y :: y in s[1..] ==> y.start < s[0].start
  {
    if |s| > 1 {
      StrictDescHead(s[1..]);
    }
  }

  /** Every element of a strictly descending list other than its head
      starts before the head. */
  lemma InStrictDesc(a: seq<Edit>, y: Edit)
    requires StrictDesc(a) && y in a
    ensures y == a[0] || y.start < a[0].start
  {
    StrictDescHead(a);
    if y != a[0] {
      assert a == [a[0]] + a[1..];
      assert y in a[1..];
    }
  }

  /** The element with the highest start heads both lists. */
  lemma HeadsEqual(a: seq<Edit>, b: seq<Edit>)
    requires StrictDesc(a) && StrictDesc(b) && multiset(a) == multiset(b) && a != []
    ensures b != [] && a[0] == b[0]
  {
    assert |b| == |multiset(b)| == |multiset(a)| == |a|;
    assert b[0] in multiset(a) && a[0] in multiset(b);
    InStrictDesc(a, b[0]);
    InStrictDesc(b, a[0]);
  }

  /** Two strictly descending lists with the same elements are equal. */
  lemma {:induction false} StrictDescUnique(a: seq<Edit>, b: seq<Edit>)
    requires StrictDesc(a) && StrictDesc(b) && multiset(a) == multiset(b)
    ensures a == b
  {
    if a == [] {
      assert |b| == |multiset(b)| == 0;
    } else {
      HeadsEqual(a, b);
      assert a == [a[0]] + a[1..] && b == [b[0]] + b[1..];
      assert multiset(a[1..]) == multiset(a) - multiset{a[0]} == multiset(b) - multiset{b[0]} == multiset(b[1..]);
      StrictDescUnique(a[1..], b[1..]);
    }
  }

  /** The answer does not depend on the order in which the client listed
      the corrections. */
  lemma OrderIndependent(text: string, a: seq<Edit>, b: seq<Edit>)
    requires ValidSelection(text, a) && ValidSelection(text, b)
    requires multiset(a) == multiset(b)
    ensures SpliceAll(text, SortDesc(a)) == SpliceAll(text, SortDesc(b))
  {
    SortedChain(text, a);
    SortedChain(text, b);
    SortDescSpec(a);
    SortDescSpec(b);
    StrictDescUnique(SortDesc(a), SortDesc(b));
  }
}
