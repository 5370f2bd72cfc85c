/** `attached_assets/resume_parser.py`: the whitespace normalisation of
    pasted CV text and the choice of a file parser by extension. */
module ResumeParser {
  import opened TextUtil

  // ---------------------------------------------------------------------
  // parse_resume_text

  /** Number of leading newlines of `s`. */
  function NewlineRun(s: string): (k: nat)
    ensures k <= |s|
    ensures forall i :: 0 <= i < k ==> s[i] == '\n'
    ensures k < |s| ==> s[k] != '\n'
  {
    if s != [] && s[0] == '\n' then 1 + NewlineRun(s[1..]) else 0
  }

  /** `re.sub(r'\n{3,}', '\n\n', s)`: every run of three or more newlines,
      taken whole, becomes two. */
  function CollapseNewlines(s: string): string
    decreases |s|
  {
    if s == [] then []
    else
      var k := NewlineRun(s);
      if k >= 3 then "\n\n" + CollapseNewlines(s[k..])
      else [s[0]] + CollapseNewlines(s[1..])
  }

  /** `" ".join(text.split())`, then the newline substitution. */
  function ParseResumeText(text: string): string {
    CollapseNewlines(JoinSpace(Words(text)))
  }

  /** The substitution leaves a text without newlines alone. */
  lemma {:induction false} CollapseNoNewline(s: string)
    requires forall i :: 0 <= i < |s| ==> s[i] != '\n'
    ensures CollapseNewlines(s) == s
    decreases |s|
  {
    if s != [] {
      CollapseNoNewline(s[1..]);
    }
  }

  /** A list of tokens joined by single spaces: every whitespace character
      is a space with a non-whitespace character on either side. */
  predicate SingleSpaced(r: string) {
    forall i :: 0 <= i < |r| && IsSpace(r[i]) ==>
      r[i] == ' ' && 0 < i < |r| - 1 && !IsSpace(r[i - 1]) && !IsSpace(r[i + 1])
  }

  lemma {:induction false} JoinTokensSingleSpaced(ws: seq<string>)
    requires forall k :: 0 <= k < |ws| ==> IsToken(ws[k])
    ensures SingleSpaced(JoinSpace(ws))
    ensures ws != [] ==> JoinSpace(ws) != [] && !IsSpace(JoinSpace(ws)[0])
  {
    if |ws| > 1 {
      JoinTokensSingleSpaced(ws[1..]);
      var w, rest := ws[0], JoinSpace(ws[1..]);
      var r := JoinSpace(ws);
      assert r == w + " " + rest;
      forall i | 0 <= i < |r| && IsSpace(r[i])
        ensures r[i] == ' ' && 0 < i < |r| - 1 && !IsSpace(r[i - 1]) && !IsSpace(r[i + 1])
      {
        if i > |w| {
          assert r[i] == rest[i - |w| - 1];
          if i - 1 > |w| {
            assert r[i - 1] == rest[i - 1 - |w| - 1];
          }
          assert r[i + 1] == rest[i + 1 - |w| - 1];
        } else if i == |w| {
          assert r[i - 1] == w[|w| - 1];
          assert r[i + 1] == rest[0];
        }
      }
    }
  }

  /** A token followed by whitespace or nothing is read back whole. */
  lemma {:induction false} TokenLenOf(w: string, rest: string)
    requires IsToken(w)
    requires rest == [] || IsSpace(rest[0])
    ensures TokenLen(w + rest) == |w|
    decreases |w|
  {
    if |w| > 1 {
      assert (w + rest)[1..] == w[1..] + rest;
      TokenLenOf(w[1..], rest);
    }
  }

  /** `split()` undoes `" ".join` on tokens. */
  lemma {:induction false} WordsOfJoin(ws: seq<string>)
    requires forall k :: 0 <= k < |ws| ==> IsToken(ws[k])
    ensures Words(JoinSpace(ws)) == ws
  {
    if ws == [] {
    } else if |ws| == 1 {
      var w := ws[0];
      TokenLenOf(w, []);
      assert w + [] == w;
      assert w[|w|..] == [];
    } else {
      var w, rest := ws[0], JoinSpace(ws[1..]);
      var s := w + (" " + rest);
      assert JoinSpace(ws) == s;
      TokenLenOf(w, " " + rest);
      assert s[..|w|] == w && s[|w|..] == " " + rest;
      assert (" " + rest)[1..] == rest;
      WordsOfJoin(ws[1..]);
    }
  }

  /** No newline survives the joining, so the substitution never changes
      anything: the result is `" ".join(text.split())`. */
  lemma SubstitutionDead(text: string)
    ensures ParseResumeText(text) == JoinSpace(Words(text))
  {
    JoinTokensSingleSpaced(Words(text));
    var j := JoinSpace(Words(text));
    forall i | 0 <= i < |j| ensures j[i] != '\n' {
      assert IsSpace('\n');
    }
    CollapseNoNewline(j);
  }

  /** The normalised text has no leading or trailing whitespace, its only
      whitespace is single spaces between tokens, and it holds the same
      tokens in the same order. */
  lemma ParseResumeTextShape(text: string)
    ensures SingleSpaced(ParseResumeText(text))
    ensures ParseResumeText(text) != [] ==>
      !IsSpace(ParseResumeText(text)[0]) && !IsSpace(ParseResumeText(text)[|ParseResumeText(text)| - 1])
    ensures Words(ParseResumeText(text)) == Words(text)
  {
    SubstitutionDead(text);
    JoinTokensSingleSpaced(Words(text));
    WordsOfJoin(Words(text));
  }

  /** Normalising twice is normalising once. */
  lemma ParseResumeTextIdempotent(text: string)
    ensures ParseResumeText(ParseResumeText(text)) == ParseResumeText(text)
  {
    ParseResumeTextShape(text);
    SubstitutionDead(ParseResumeText(text));
    SubstitutionDead(text);
  }

  lemma {:induction false} WordsOfBlank(s: string)
    requires IsBlank(s)
    ensures Words(s) == []
    decreases |s|
  {
    if s != [] {
      WordsOfBlank(s[1..]);
    }
  }

  /** Whitespace-only input normalises to the empty string. */
  lemma BlankGivesEmpty(text: string)
    ensures IsBlank(text) <==> ParseResumeText(text) == []
  {
    SubstitutionDead(text);
    if IsBlank(text) {
      WordsOfBlank(text);
    } else {
      var i :| 0 <= i < |text| && !IsSpace(text[i]);
      WordsNonEmpty(text, i);
      JoinTokensSingleSpaced(Words(text));
    }
  }

  lemma {:induction false} WordsNonEmpty(s: string, i: nat)
    requires i < |s| && !IsSpace(s[i])
    ensures Words(s) != []
    decreases |s|
  {
    if IsSpace(s[0]) {
      WordsNonEmpty(s[1..], i - 1);
    }
  }

  // ---------------------------------------------------------------------
  // parse_resume_file

  /** The parsers a file can be handed to. */
  datatype FileKind = Pdf | Docx | Txt

  datatype Dispatch = Parse(kind: FileKind) | Unsupported(message: string)

  /** `os.path.splitext(path)[1]` on a POSIX path: from the last dot of the
      last path component to the end, unless that component has only dots
      before it, in which case the extension is empty. */
  function Extension(path: string): (ext: string)
    ensures |ext| <= |path|
    ensures ext == [] || (ext[0] == '.' && ext == path[|path| - |ext|..])
  {
    var nameStart := match RFind(path, '/') case Some(i) => i + 1 case None => 0;
    match RFind(path, '.')
    case None => []
    case Some(d) =>
      if d >= nameStart && exists k :: nameStart <= k < d && path[k] != '.' then path[d..] else []
  }

  /** `parse_resume_file`: the parser chosen by the lower-cased extension,
      or the `ValueError` for any other extension. */
  function ParseResumeFile(path: string): Dispatch {
    var ext := Lower(Extension(path));
    if ext == ".pdf" then Parse(Pdf)
    else if ext == ".docx" then Parse(Docx)
    else if ext == ".txt" then Parse(Txt)
    else Unsupported("Unsupported file format: " + ext)
  }

  /** A file is parsed exactly when its extension, ignoring case, is one of
      the three; otherwise the error names the lower-cased extension. */
  lemma ParseResumeFileSpec(path: string)
    ensures ParseResumeFile(path).Parse? <==> Lower(Extension(path)) in {".pdf", ".docx", ".txt"}
    ensures ParseResumeFile(path).Unsupported? ==>
      ParseResumeFile(path).message == "Unsupported file format: " + Lower(Extension(path))
  {
  }
}
