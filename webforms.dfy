/** The small checks of the web layer (`app.py`, `routes.py`,
    `attached_assets/app.py`): the upload filename filter, the cap on the
    corrections kept in the session, and the testimonial form of `/donate`. */
module WebForms {
  import opened TextUtil
  import opened ResumeParser

  // ---------------------------------------------------------------------
  // allowed_file

  /** `ALLOWED_EXTENSIONS`. */
  function AllowedExtensions(): set<string> {
    {"pdf", "docx", "txt"}
  }

  /** `'.' in filename and filename.rsplit('.', 1)[1].lower() in ALLOWED_EXTENSIONS`. */
  function AllowedFile(filename: string): bool {
    match RFind(filename, '.')
    case None => false
    case Some(i) => Lower(filename[i + 1..]) in AllowedExtensions()
  }

  /** A filename is accepted exactly when it contains a dot and the text
      after its last dot is, ignoring case, `pdf`, `docx` or `txt`. */
  lemma AllowedFileSpec(filename: string)
    ensures AllowedFile(filename) <==>
      exists i :: 0 <= i < |filename| && filename[i] == '.' &&
        (forall j :: i < j < |filename| ==> filename[j] != '.') &&
        Lower(filename[i + 1..]) in {"pdf", "docx", "txt"}
  {
    if !AllowedFile(filename) && RFind(filename, '.').Some? {
      var k := RFind(filename, '.').value;
      forall i | 0 <= i < |filename| && filename[i] == '.' && (forall j :: i < j < |filename| ==> filename[j] != '.')
        ensures !(Lower(filename[i + 1..]) in {"pdf", "docx", "txt"})
      {
        assert !(i < k) && !(k < i);
      }
    }
  }

  /** Names whose last extension is allowed are accepted, whatever the
      case of the extension and whatever comes before it. */
  lemma AllowedFileAccepts()
    ensures AllowedFile("cv.PDF") && AllowedFile("a.b.txt")
  {
    assert "cv.PDF"[..5] == "cv.PD" && "cv.PD"[..4] == "cv.P" && "cv.P"[..3] == "cv.";
    assert RFind("cv.PDF", '.') == Some(2);
    assert "cv.PDF"[3..] == "PDF";
    assert Lower("PDF") == "pdf";
    assert "a.b.txt"[..6] == "a.b.tx" && "a.b.tx"[..5] == "a.b.t" && "a.b.t"[..4] == "a.b.";
    assert RFind("a.b.txt", '.') == Some(3);
    assert "a.b.txt"[4..] == "txt";
    assert Lower("txt") == "txt";
  }

  /** A name with no dot, or whose last extension is anything else (even
      when an earlier one is allowed, or when it is empty), is refused. */
  lemma AllowedFileRefuses()
    ensures !AllowedFile("pdf") && !AllowedFile("cv.pdf.exe") && !AllowedFile("cv.")
  {
    assert RFind("pdf", '.') == None;
    assert "cv.pdf.exe"[..9] == "cv.pdf.ex" && "cv.pdf.ex"[..8] == "cv.pdf.e" && "cv.pdf.e"[..7] == "cv.pdf.";
    assert RFind("cv.pdf.exe", '.') == Some(6);
    assert "cv.pdf.exe"[7..] == "exe";
    assert Lower("exe") == "exe";
    assert RFind("cv.", '.') == Some(2);
    assert "cv."[3..] == "";
  }

  /** The upload path: a file name that passes `allowed_file`, saved as
      `dir + "/" + name`, reaches one of the three parsers when the name
      has no slash and does not start with a dot; a bare `".pdf"` passes
      the filter but is refused by the parser, which sees no extension. */
  lemma AllowedUploadIsParsed(dir: string, name: string)
    requires AllowedFile(name)
    requires forall i :: 0 <= i < |name| ==> name[i] != '/'
    requires name[0] != '.'
    ensures ParseResumeFile(dir + "/" + name).Parse?
  {
    var prefix := dir + "/";
    var path := prefix + name;
    var d := RFind(name, '.').value;
    RFindAppend(prefix, name, '.');
    RFindAppend(prefix, name, '/');
    assert RFind(prefix, '/') == Some(|dir|);
    assert path[|prefix|] == name[0];
    assert path[|prefix| + d..] == name[d..];
    var ext := Lower(name[d + 1..]);
    assert Lower(name[d..]) == ['.'] + ext;
    assert Extension(path) == name[d..];
    DottedExtension(ext);
    ParseResumeFileSpec(path);
  }

  /** The extensions `allowed_file` accepts, with their dot, are the ones
      `parse_resume_file` dispatches on. */
  lemma DottedExtension(e: string)
    requires e in AllowedExtensions()
    ensures ['.'] + e in {".pdf", ".docx", ".txt"}
  {
    assert ['.'] + "pdf" == ".pdf" && ['.'] + "docx" == ".docx" && ['.'] + "txt" == ".txt";
  }

  /** `allowed_file` and `parse_resume_file`, taken on their own, disagree
      on a name that is only an extension: `".pdf"` passes the filter, but
      `os.path.splitext` reads a leading dot as part of the stem, so the
      parser sees no extension and refuses the file. */
  lemma DotFileNotParsed()
    ensures AllowedFile(".pdf") && ParseResumeFile("uploads/.pdf").Unsupported?
  {
    assert ".pdf"[..3] == ".pd" && ".pd"[..2] == ".p" && ".p"[..1] == ".";
    assert RFind(".pdf", '.') == Some(0);
    assert ".pdf"[1..] == "pdf";
    assert Lower("pdf") == "pdf";
    var path := "uploads/.pdf";
    assert path[7] == '/' && path[8] == '.' && path[9] == 'p' && path[10] == 'd' && path[11] == 'f';
    assert RFind(path, '.') == Some(8);
    assert RFind(path, '/') == Some(7);
    assert Extension(path) == [];
    assert Lower([]) == [];
  }

  // ---------------------------------------------------------------------
  // The session cap in `analyze`

  const MaxSessionCorrections := 20

  /** `if len(corrections) > 20: corrections = corrections[:20]`. */
  method CapSessionCorrections<T>(corrections: seq<T>) returns (kept: seq<T>)
    ensures |kept| == if |corrections| < MaxSessionCorrections then |corrections| else MaxSessionCorrections
    ensures kept == corrections[..|kept|]
  {
    kept := corrections;
    if |kept| > MaxSessionCorrections {
      kept := kept[..MaxSessionCorrections];
    }
  }

  // ---------------------------------------------------------------------
  // The testimonial form of `/donate`

  /** A non-empty string of ASCII digits (`str.isdigit()` on such input). */
  predicate IsDigits(s: string) {
    s != [] && forall i :: 0 <= i < |s| ==> IsDigit(s[i])
  }

  /** `int(s)` of a digit string. */
  function DigitsValue(s: string): (v: nat)
    requires forall i :: 0 <= i < |s| ==> IsDigit(s[i])
  {
    if s == [] then 0
    else
      assert IsDigit(s[|s| - 1]);
      10 * DigitsValue(s[..|s| - 1]) + (s[|s| - 1] as int - '0' as int)
  }

  /** The rating: an integer from 1 to 5 when the field is a digit string
      with that value, otherwise None. */
  function ParseRating(rating: Option<string>): Option<int> {
    if rating.Some? && rating.value != [] && IsDigits(rating.value) then
      var v := DigitsValue(rating.value);
      if v < 1 || v > 5 then None else Some(v)
    else None
  }

  /** A rating is kept exactly when it is all digits and its value is in
      1..5, and then it is that value; a single digit from 1 to 5 gives
      itself, and leading zeros are accepted. */
  lemma ParseRatingSpec(rating: Option<string>)
    ensures ParseRating(rating).Some? <==>
      rating.Some? && IsDigits(rating.value) && 1 <= DigitsValue(rating.value) <= 5
    ensures ParseRating(rating).Some? ==>
      1 <= ParseRating(rating).value <= 5 && ParseRating(rating).value == DigitsValue(rating.value)
  {
  }

  lemma {:induction false} DigitValue(d: char)
    requires '1' <= d <= '5'
    ensures ParseRating(Some([d])) == Some(d as int - '0' as int)
    ensures ParseRating(Some(['0', d])) == Some(d as int - '0' as int)
  {
    assert [d][..0] == [];
    assert IsDigits([d]);
    assert DigitsValue([d]) == d as int - '0' as int;
    assert ['0', d][..1] == ['0'];
    assert ['0'][..0] == [];
    assert IsDigits(['0', d]);
    assert DigitsValue(['0']) == 0;
  }

  /** A stored testimonial; it always starts unapproved. */
  datatype Testimonial = Testimonial(
    name: string, position: string, company: string, text: string, rating: Option<int>, approved: bool)

  /** The form fields; a field the form did not send is None. */
  datatype TestimonialForm = TestimonialForm(
    name: Option<string>, position: Option<string>, company: Option<string>,
    text: Option<string>, rating: Option<string>)

  function FieldOr(v: Option<string>): string {
    match v
    case Some(s) => s
    case None => ""
  }

  /** The POST branch of `donate`: the testimonial created, or None when
      the name or the text is missing or blank. */
  function SubmitTestimonial(form: TestimonialForm): Option<Testimonial> {
    var name := Strip(FieldOr(form.name));
    var position := Strip(FieldOr(form.position));
    var company := Strip(FieldOr(form.company));
    var text := Strip(FieldOr(form.text));
    if name == [] || text == [] then None
    else Some(Testimonial(name, position, company, text, ParseRating(form.rating), false))
  }

  /** A testimonial is created exactly when the name and the text both hold
      a non-whitespace character; it is then unapproved, its name and text
      are non-empty, and its rating is the parsed rating. */
  lemma SubmitTestimonialSpec(form: TestimonialForm)
    ensures SubmitTestimonial(form).Some? <==>
      !IsBlank(FieldOr(form.name)) && !IsBlank(FieldOr(form.text))
    ensures SubmitTestimonial(form).Some? ==>
      var t := SubmitTestimonial(form).value;
      && !t.approved && t.name != [] && t.text != []
      && t.rating == ParseRating(form.rating)
      && (t.rating.Some? ==> 1 <= t.rating.value <= 5)
  {
    StripEmptyIffBlank(FieldOr(form.name));
    StripEmptyIffBlank(FieldOr(form.text));
  }
}
