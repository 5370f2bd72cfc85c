/** The grounding step of `analyze_with_groq`: the oracle returns bare
    `original` strings, and each is located in the CV text to give it a
    position; suggestions that cannot be located are dropped. */
module Grounding {
  import opened TextUtil
  import opened Corrections

  /** One entry of the oracle's JSON list; a key the oracle left out is
      None. */
  datatype RawSuggestion = RawSuggestion(
    original: Option<string>,
    suggestion: Option<string>,
    explanation: Option<string>,
    category: Option<string>)

  /** `dict.get(key, default)`. */
  function GetOr(v: Option<string>, default: string): string {
    match v
    case Some(s) => s
    case None => default
  }

  /** `text.find(s)`, and when that fails the first match of `s.lower()` in
      `text.lower()`. */
  function Ground(text: string, s: string): (r: Option<nat>)
    ensures r.Some? ==> r.value + |s| <= |text|
  {
    match Find(text, s)
    case Some(i) => Some(i)
    case None => Find(Lower(text), Lower(s))
  }

  /** The position is the first exact occurrence when there is one, else
      the first occurrence ignoring case, and there is none exactly when
      `s` occurs neither way. */
  lemma GroundSpec(text: string, s: string)
    ensures (exists i :: OccursAt(text, s, i)) ==>
      Ground(text, s).Some? && OccursAt(text, s, Ground(text, s).value) &&
      forall j :: 0 <= j < Ground(text, s).value ==> !OccursAt(text, s, j)
    ensures (forall i :: !OccursAt(text, s, i)) && Ground(text, s).Some? ==>
      && OccursAt(Lower(text), Lower(s), Ground(text, s).value)
      && forall j :: 0 <= j < Ground(text, s).value ==> !OccursAt(Lower(text), Lower(s), j)
    ensures Ground(text, s).None? <==>
      (forall i :: !OccursAt(text, s, i)) && (forall i :: !OccursAt(Lower(text), Lower(s), i))
  {
    if Find(text, s).None? && Find(Lower(text), Lower(s)).Some? {
      var i := Find(Lower(text), Lower(s)).value;
      assert OccursAt(Lower(text), Lower(s), i);
    }
  }

  /** Lower-casing commutes with slicing. */
  lemma LowerSlice(text: string, i: nat, j: nat)
    requires i <= j <= |text|
    ensures Lower(text[i..j]) == Lower(text)[i..j]
  {
  }

  /** Either way the grounded span spells `s` up to case. */
  lemma GroundedSpanMatches(text: string, s: string)
    requires Ground(text, s).Some?
    ensures var p := Ground(text, s).value;
      Lower(text[p..p + |s|]) == Lower(s)
  {
    var p := Ground(text, s).value;
    LowerSlice(text, p, p + |s|);
    if Find(text, s).Some? {
      assert text[p..p + |s|] == s;
    } else {
      assert OccursAt(Lower(text), Lower(s), p);
    }
  }

  /** The correction built for one suggestion, or None when it is skipped. */
  function GroundOne(text: string, raw: RawSuggestion): Option<Correction> {
    var original := GetOr(raw.original, "");
    if original == [] then None
    else match Ground(text, original)
      case None => None
      case Some(start) =>
        Some(Correction(original, start, start + |original|, GetOr(raw.suggestion, ""),
                        GetOr(raw.explanation, "Improves CV presentation"), GetOr(raw.category, "content")))
  }

  /** The corrections of a suggestion list, in list order. */
  function GroundAll(text: string, raws: seq<RawSuggestion>): seq<Correction> {
    if raws == [] then []
    else
      var init := GroundAll(text, raws[..|raws| - 1]);
      match GroundOne(text, raws[|raws| - 1])
      case Some(c) => init + [c]
      case None => init
  }

  /** The loop over the oracle's suggestions. */
  method GroundSuggestions(text: string, raws: seq<RawSuggestion>) returns (corrections: seq<Correction>)
    ensures corrections == GroundAll(text, raws)
  {
    corrections := [];
    for k := 0 to |raws|
      invariant corrections == GroundAll(text, raws[..k])
    {
      assert raws[..k + 1][..k] == raws[..k];
      var raw := raws[k];
      var original := GetOr(raw.original, "");
      if original == [] {
        continue;
      }
      var found := Find(text, original);
      var startPos: nat;
      if found.Some? {
        startPos := found.value;
      } else {
        var matches := Find(Lower(text), Lower(original));
        if matches.Some? {
          startPos := matches.value;
        } else {
          continue;
        }
      }
      var correction := Correction(original, startPos, startPos + |original|, GetOr(raw.suggestion, ""),
                                   GetOr(raw.explanation, "Improves CV presentation"), GetOr(raw.category, "content"));
      corrections := corrections + [correction];
    }
    assert raws[..|raws|] == raws;
  }

  /** A suggestion is dropped exactly when its `original` is missing or
      empty or occurs in the text neither exactly nor ignoring case; a kept
      one keeps its `original`, and the oracle's other fields or their
      defaults. */
  lemma GroundOneSpec(text: string, raw: RawSuggestion)
    ensures var original := GetOr(raw.original, "");
      GroundOne(text, raw).None? <==> original == [] || Ground(text, original).None?
    ensures GroundOne(text, raw).Some? ==>
      var c := GroundOne(text, raw).value;
      && raw.original == Some(c.original)
      && c.suggestion == GetOr(raw.suggestion, "")
      && c.explanation == GetOr(raw.explanation, "Improves CV presentation")
      && c.category == GetOr(raw.category, "content")
  {
  }

  /** Every grounded correction has a non-empty `original`, lies inside the
      text with `end - start == len(original)`, and spells its `original`
      up to case; at most one correction per suggestion. */
  lemma {:induction false} GroundAllSpec(text: string, raws: seq<RawSuggestion>)
    ensures |GroundAll(text, raws)| <= |raws|
    ensures forall c :: c in GroundAll(text, raws) ==>
      && c.original != []
      && 0 <= c.start && c.end == c.start + |c.original| <= |text|
      && Lower(text[c.start..c.end]) == Lower(c.original)
  {
    if raws != [] {
      GroundAllSpec(text, raws[..|raws| - 1]);
      var raw := raws[|raws| - 1];
      var original := GetOr(raw.original, "");
      if original != [] && Ground(text, original).Some? {
        GroundedSpanMatches(text, original);
      }
    }
  }
}
