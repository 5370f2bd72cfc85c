/** Character classes, the length-preserving case mapping and the few
    Python `str` primitives (`find`, `split`, `strip`, `" ".join`) that the
    analyser, the web layer and the text normaliser build on.

    Characters are Unicode code points.  Case mapping and the "cased"
    classes cover ASCII and the Latin-1 letters (which include the German
    umlauts); every mapping here keeps the length of a string. */
module TextUtil {

  datatype Option<T> = None | Some(value: T)

  /** Whitespace as Python's `str.isspace`, `str.split()`, `str.strip()`
      and the regex class `\s` see it, restricted to Latin-1. */
  predicate IsSpace(c: char) {
    var n := c as int;
    n == 0x20 || 0x09 <= n <= 0x0d || 0x1c <= n <= 0x1f || n == 0x85 || n == 0xa0
  }

  predicate IsUpper(c: char) {
    var n := c as int;
    'A' <= c <= 'Z' || (0xc0 <= n <= 0xde && n != 0xd7)
  }

  predicate IsLower(c: char) {
    var n := c as int;
    'a' <= c <= 'z' || (0xdf <= n <= 0xff && n != 0xf7)
  }

  predicate IsCased(c: char) {
    IsUpper(c) || IsLower(c)
  }

  predicate IsDigit(c: char) {
    '0' <= c <= '9'
  }

  /** A character of the regex class `\w`: letters, digits and underscore. */
  predicate IsWordChar(c: char) {
    IsCased(c) || IsDigit(c) || c == '_'
  }

  function ToLower(c: char): char {
    if IsUpper(c) then (c as int + 32) as char else c
  }

  /** `ß` and `ÿ` have no single-character upper case and are kept. */
  function ToUpper(c: char): char {
    var n := c as int;
    if 'a' <= c <= 'z' || (0xe0 <= n <= 0xfe && n != 0xf7) then (n - 32) as char else c
  }

  function Lower(s: string): string {
    seq(|s|, i requires 0 <= i < |s| => ToLower(s[i]))
  }

  function Upper(s: string): string {
    seq(|s|, i requires 0 <= i < |s| => ToUpper(s[i]))
  }

  /** Python's `str.isupper()`: some cased character and no lower-case one. */
  predicate IsUpperStr(s: string) {
    (exists i :: 0 <= i < |s| && IsCased(s[i])) && forall i :: 0 <= i < |s| ==> !IsLower(s[i])
  }

  /** Python's `str.capitalize()`: first character upper, the rest lower. */
  function Capitalize(s: string): string {
    if s == [] then [] else [ToUpper(s[0])] + Lower(s[1..])
  }

  /** `pat` occurs in `text` at offset `i`. */
  predicate OccursAt(text: string, pat: string, i: int) {
    0 <= i && i + |pat| <= |text| && text[i..i + |pat|] == pat
  }

  /** Python's `text.find(pat, from)`: the first offset at or after `from`
      where `pat` occurs, or None for -1. */
  function FindFrom(text: string, pat: string, from: nat): (r: Option<nat>)
    ensures r.Some? ==> from <= r.value && OccursAt(text, pat, r.value)
    ensures r.Some? ==> forall j :: from <= j < r.value ==> !OccursAt(text, pat, j)
    ensures r.None? ==> forall j :: from <= j ==> !OccursAt(text, pat, j)
    decreases |text| - from
  {
    if from + |pat| > |text| then None
    else if text[from..from + |pat|] == pat then Some(from)
    else FindFrom(text, pat, from + 1)
  }

  function Find(text: string, pat: string): (r: Option<nat>)
  {
    FindFrom(text, pat, 0)
  }

  /** Last offset of `c` in `s`, if any (`str.rfind`). */
  function RFind(s: string, c: char): (r: Option<nat>)
    ensures r.Some? ==> r.value < |s| && s[r.value] == c && (forall j :: r.value < j < |s| ==> s[j] != c)
    ensures r.None? ==> forall j :: 0 <= j < |s| ==> s[j] != c
  {
    if s == [] then None
    else if s[|s| - 1] == c then Some(|s| - 1)
    else RFind(s[..|s| - 1], c)
  }

  /** The last occurrence in `p + s` is the last one in `s` when `s` has
      one, and otherwise the last one in `p`. */
  lemma {:induction false} RFindAppend(p: string, s: string, c: char)
    ensures RFind(p + s, c) ==
      match RFind(s, c)
      case Some(i) => Some(|p| + i)
      case None => RFind(p, c)
    decreases |s|
  {
    if s == [] {
      assert p + s == p;
    } else {
      assert (p + s)[..|p + s| - 1] == p + s[..|s| - 1];
      if s[|s| - 1] != c {
        RFindAppend(p, s[..|s| - 1], c);
      }
    }
  }

  /** End of the whitespace run starting at `p`. */
  function SpaceRunEnd(text: string, p: nat): (e: nat)
    requires p <= |text|
    ensures p <= e <= |text|
    ensures forall i :: p <= i < e ==> IsSpace(text[i])
    ensures e == |text| || !IsSpace(text[e])
    decreases |text| - p
  {
    if p < |text| && IsSpace(text[p]) then SpaceRunEnd(text, p + 1) else p
  }

  /** Number of leading non-whitespace characters. */
  function TokenLen(s: string): (k: nat)
    ensures k <= |s|
    ensures forall i :: 0 <= i < k ==> !IsSpace(s[i])
    ensures k < |s| ==> IsSpace(s[k])
  {
    if s == [] || IsSpace(s[0]) then 0 else 1 + TokenLen(s[1..])
  }

  /** Python's `s.split()` with no argument: the maximal runs of
      non-whitespace characters, in order. */
  function Words(s: string): (ws: seq<string>)
    ensures forall k :: 0 <= k < |ws| ==> IsToken(ws[k])
    decreases |s|
  {
    if s == [] then []
    else if IsSpace(s[0]) then Words(s[1..])
    else
      var k := TokenLen(s);
      [s[..k]] + Words(s[k..])
  }

  /** A non-empty string without whitespace. */
  predicate IsToken(w: string) {
    w != [] && forall i :: 0 <= i < |w| ==> !IsSpace(w[i])
  }

  /** Python's `" ".join(ws)`. */
  function JoinSpace(ws: seq<string>): string {
    if ws == [] then []
    else if |ws| == 1 then ws[0]
    else ws[0] + " " + JoinSpace(ws[1..])
  }

  predicate IsBlank(s: string) {
    forall i :: 0 <= i < |s| ==> IsSpace(s[i])
  }

  function StripLeft(s: string): (r: string)
    ensures |r| <= |s| && r == s[|s| - |r|..]
    ensures r == [] || !IsSpace(r[0])
    ensures forall i :: 0 <= i < |s| - |r| ==> IsSpace(s[i])
  {
    if s != [] && IsSpace(s[0]) then StripLeft(s[1..]) else s
  }

  function StripRight(s: string): (r: string)
    ensures |r| <= |s| && r == s[..|r|]
    ensures r == [] || !IsSpace(r[|r| - 1])
    ensures forall i :: |r| <= i < |s| ==> IsSpace(s[i])
  {
    if s != [] && IsSpace(s[|s| - 1]) then StripRight(s[..|s| - 1]) else s
  }

  /** Python's `s.strip()`. */
  function Strip(s: string): string {
    StripRight(StripLeft(s))
  }

  /** `s.strip()` is empty exactly when `s` is blank, the test the segmenter
      and the testimonial form use. */
  lemma StripEmptyIffBlank(s: string)
    ensures Strip(s) == [] <==> IsBlank(s)
  {
    var l := StripLeft(s);
    if Strip(s) != [] {
      assert !IsSpace(Strip(s)[0]);
      assert Strip(s)[0] == l[0] == s[|s| - |l|];
    }
  }

  /** Where a Python slice bound `i` lands in a sequence of length `n`:
      negative bounds count from the end, and both ends are clamped. */
  function ClampIndex(i: int, n: nat): (k: nat)
    ensures k <= n
    ensures 0 <= i <= n ==> k == i
    ensures i > n ==> k == n
    ensures i < 0 ==> k == (if i + n < 0 then 0 else i + n)
  {
    if i < 0 then (if i + n < 0 then 0 else i + n) else if i > n then n else i
  }

  /** Python's `s[i:j]` for arbitrary integers: never fails, and is empty
      when the clamped start is not before the clamped end. */
  function PySlice(s: string, i: int, j: int): (r: string)
    ensures |r| <= |s|
    ensures 0 <= i <= j <= |s| ==> r == s[i..j]
  {
    var a, b := ClampIndex(i, |s|), ClampIndex(j, |s|);
    if a < b then s[a..b] else []
  }
}
