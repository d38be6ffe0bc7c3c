/** `DocumentGenerator`: a personalised document is written under the output folder as
    `<email>_<company>_<role>` plus the format's extension, each part first sanitised, and
    recorded in the database with the email, company and role read back from that name.
    Rendering (markdown to HTML to PDF, the DOCX writer) and the database session are
    oracles: the model receives whether writing raised and what the commit returned. */
module DocGenerator {
  import opened Wrappers
  import Text

  // ---------------------------------------------------------------- file names

  /** The characters a file name may not contain. */
  const InvalidChars: string := "<>:\"/\\|?*"

  const MaxPartLength: nat := 50

  function SanitizeChar(c: char): char {
    if c in InvalidChars then '_' else c
  }

  /** `_sanitize_filename`: every invalid character replaced by `_`, then cut to 50. */
  function Sanitized(s: string): (r: string)
    ensures |r| == if |s| < MaxPartLength then |s| else MaxPartLength
    ensures forall k :: 0 <= k < |r| ==> r[k] == SanitizeChar(s[k])
  {
    var m := seq(|s|, k requires 0 <= k < |s| => SanitizeChar(s[k]));
    if |m| <= MaxPartLength then m else m[..MaxPartLength]
  }

  /** A sanitised name has none of the invalid characters and at most 50 characters. */
  lemma SanitizedClean(s: string)
    ensures |Sanitized(s)| <= MaxPartLength
    ensures forall c :: c in InvalidChars ==> c !in Sanitized(s)
  {
  }

  /** A name that is already clean and short enough is left alone. */
  lemma SanitizedKeepsClean(s: string)
    requires |s| <= MaxPartLength && forall c :: c in InvalidChars ==> c !in s
    ensures Sanitized(s) == s
  {
  }

  /** Sanitising twice is sanitising once. */
  lemma SanitizedIdempotent(s: string)
    ensures Sanitized(Sanitized(s)) == Sanitized(s)
  {
    SanitizedClean(s);
    SanitizedKeepsClean(Sanitized(s));
  }

  /** The loop over the invalid characters, each replaced everywhere in turn, then the slice. */
  method SanitizeFilename(filename: string) returns (r: string)
    ensures r == Sanitized(filename)
  {
    var f := filename;
    var i := 0;
    while i < |InvalidChars|
      invariant 0 <= i <= |InvalidChars|
      invariant |f| == |filename|
      invariant forall k :: 0 <= k < |f| ==> f[k] == if filename[k] in InvalidChars[..i] then '_' else filename[k]
    {
      f := Text.ReplaceChar(f, InvalidChars[i], '_');
      i := i + 1;
    }
    assert InvalidChars[..i] == InvalidChars;
    r := if |f| <= MaxPartLength then f else f[..MaxPartLength];
  }

  function BaseFilename(email: string, company: string, role: string): string {
    Sanitized(email) + "_" + Sanitized(company) + "_" + Sanitized(role)
  }

  datatype Format = Markdown | Pdf | Docx

  function ParseFormat(s: string): (f: Option<Format>)
    ensures f.Some? <==> s in ["markdown", "pdf", "docx"]
    ensures f.Some? ==> FormatName(f.value) == s
  {
    if s == "markdown" then Some(Markdown) else if s == "pdf" then Some(Pdf)
    else if s == "docx" then Some(Docx) else None
  }

  function FormatName(f: Format): string {
    match f
    case Markdown => "markdown"
    case Pdf => "pdf"
    case Docx => "docx"
  }

  function Extension(f: Format): string {
    match f
    case Markdown => ".md"
    case Pdf => ".pdf"
    case Docx => ".docx"
  }

  /** `os.path.join(folder, name)` for a relative `name`. */
  function PathJoin(folder: string, name: string): string {
    if folder == [] || Text.EndsWith(folder, "/") then folder + name else folder + "/" + name
  }

  lemma PathJoinEndsWith(folder: string, name: string)
    ensures |name| <= |PathJoin(folder, name)| && PathJoin(folder, name)[|PathJoin(folder, name)| - |name|..] == name
  {
    if folder == [] || Text.EndsWith(folder, "/") {
      assert (folder + name)[|folder|..] == name;
    } else {
      assert (folder + "/" + name)[|folder| + 1..] == name;
    }
  }

  /** The generated file lies directly inside the output folder: its name has no `/`, is
      neither `.` nor `..`, and is at most 157 characters long, whatever the inputs. */
  lemma FileStaysInFolder(folder: string, email: string, company: string, role: string, f: Format)
    ensures var name := BaseFilename(email, company, role) + Extension(f);
            PathJoin(folder, name)[|PathJoin(folder, name)| - |name|..] == name
            && '/' !in name && name != "." && name != ".." && |name| <= 157
  {
    var e, c, r := Sanitized(email), Sanitized(company), Sanitized(role);
    SanitizedClean(email);
    SanitizedClean(company);
    SanitizedClean(role);
    assert '/' in InvalidChars;
    assert '/' !in e && '/' !in c && '/' !in r;
    var ext := Extension(f);
    assert '/' !in ext && |ext| <= 5;
    var name := e + "_" + c + "_" + r + ext;
    assert name == BaseFilename(email, company, role) + ext;
    assert '/' !in name;
    assert |name| >= 3;
    PathJoinEndsWith(folder, name);
  }

  // ---------------------------------------------------------------- the database record

  /** `base_filename.split('_')`: parts 0, 1 and 2, the last two defaulting to empty. */
  function RecordFields(base: string): (string, string, string) {
    var parts := Text.Split(base, '_');
    (parts[0], if |parts| > 1 then parts[1] else "", if |parts| > 2 then parts[2] else "")
  }

  /** When no sanitised part contains `_`, the record gets exactly the sanitised inputs. */
  lemma RecordFieldsRoundTrip(email: string, company: string, role: string)
    requires '_' !in Sanitized(email) && '_' !in Sanitized(company) && '_' !in Sanitized(role)
    ensures RecordFields(BaseFilename(email, company, role)) == (Sanitized(email), Sanitized(company), Sanitized(role))
  {
    var e, c, r := Sanitized(email), Sanitized(company), Sanitized(role);
    Text.SplitPrefix(e, c + "_" + r, '_');
    Text.SplitPrefix(c, r, '_');
    Text.SplitWithout(r, '_');
    assert e + "_" + c + "_" + r == e + ['_'] + (c + ['_'] + r);
  }

  /** An ordinary address with an underscore is recorded cut short at it. */
  lemma RecordFieldsCutEmail()
    ensures RecordFields(BaseFilename("john_doe@x.com", "Acme", "Dev")) == ("john", "doe@x.com", "Acme")
  {
    CleanExample();
    CutExample();
  }

  lemma CleanExample()
    ensures BaseFilename("john_doe@x.com", "Acme", "Dev") == "john" + ['_'] + ("doe@x.com" + ['_'] + ("Acme" + ['_'] + "Dev"))
  {
    SanitizedKeepsClean("john_doe@x.com");
    SanitizedKeepsClean("Acme");
    SanitizedKeepsClean("Dev");
  }

  lemma CutExample()
    ensures RecordFields("john" + ['_'] + ("doe@x.com" + ['_'] + ("Acme" + ['_'] + "Dev"))) == ("john", "doe@x.com", "Acme")
  {
    Text.SplitPrefix("john", "doe@x.com" + ['_'] + ("Acme" + ['_'] + "Dev"), '_');
    Text.SplitPrefix("doe@x.com", "Acme" + ['_'] + "Dev", '_');
    Text.SplitPrefix("Acme", "Dev", '_');
  }

  /** The fields the record was meant to carry: the sanitised inputs themselves. */
  function IntendedRecordFields(email: string, company: string, role: string): (f: (string, string, string))
    ensures f.0 + "_" + f.1 + "_" + f.2 == BaseFilename(email, company, role)
  {
    (Sanitized(email), Sanitized(company), Sanitized(role))
  }

  /** The intended fields agree with the split-back wherever the split-back is right, and
      name the student's real (sanitised) address even when it contains `_`. */
  lemma IntendedRecordFieldsCorrect(email: string, company: string, role: string)
    ensures '_' !in Sanitized(email) && '_' !in Sanitized(company) && '_' !in Sanitized(role) ==>
              IntendedRecordFields(email, company, role) == RecordFields(BaseFilename(email, company, role))
    ensures IntendedRecordFields(email, company, role).0 == Sanitized(email)
    ensures |email| <= MaxPartLength && (forall c :: c in InvalidChars ==> c !in email) ==>
              IntendedRecordFields(email, company, role).0 == email
  {
    if '_' !in Sanitized(email) && '_' !in Sanitized(company) && '_' !in Sanitized(role) {
      RecordFieldsRoundTrip(email, company, role);
    }
    if |email| <= MaxPartLength && (forall c :: c in InvalidChars ==> c !in email) {
      SanitizedKeepsClean(email);
    }
  }

  datatype DocumentRecord = DocumentRecord(
    jobId: nat, studentEmail: string, company: string, role: string,
    documentType: string, filePath: string, content: string)

  /** The dictionary `generate_document` returns. */
  datatype GenResult =
    | Generated(filePath: string, documentType: string, documentId: nat)
    | Unrecorded(filePath: string, documentType: string, error: string)
    | GenError(error: string)

  /** `generate_document`: the format dispatch, then the file, then the record. `written`
      is the exception rendering or writing the file raised, if any; `stored` the id the
      commit gave the record, or its exception. The record is only kept on success. */
  function GenerateDocument(folder: string, content: string, email: string, company: string, role: string,
                            jobId: nat, formatType: string, written: Option<string>, stored: Result<nat, string>)
    : (out: (GenResult, Option<DocumentRecord>))
    ensures ParseFormat(formatType).None? ==> out == (GenError("Unsupported format type: " + formatType), None)
    ensures out.0.GenError? ==> out.1.None?
    ensures ParseFormat(formatType).Some? && written.Some? ==> out == (GenError(written.value), None)
    ensures out.0.Generated? <==> ParseFormat(formatType).Some? && written.None? && stored.Ok?
    ensures out.1.Some? <==> out.0.Generated?
    ensures out.0.Generated? ==> out.0.documentId == stored.value && out.1.value.filePath == out.0.filePath
                                 && out.0.documentType == formatType == out.1.value.documentType
                                 && out.1.value.content == content && out.1.value.jobId == jobId
    ensures out.0.Generated? || out.0.Unrecorded? ==>
              out.0.filePath == PathJoin(folder, BaseFilename(email, company, role) + Extension(ParseFormat(formatType).value))
  {
    match ParseFormat(formatType)
    case None => (GenError("Unsupported format type: " + formatType), None)
    case Some(f) =>
      var base := BaseFilename(email, company, role);
      var path := PathJoin(folder, base + Extension(f));
      if written.Some? then (GenError(written.value), None)
      else
        var fields := RecordFields(base);
        match stored
        case Err(e) => (Unrecorded(path, FormatName(f), e), None)
        case Ok(id) =>
          (Generated(path, FormatName(f), id),
           Some(DocumentRecord(jobId, fields.0, fields.1, fields.2, FormatName(f), path, content)))
  }

  /** The record of a generated document names the sanitised email, company and role as
      long as none of them contains `_`. */
  lemma GeneratedRecordFields(folder: string, content: string, email: string, company: string, role: string,
                              jobId: nat, formatType: string, stored: Result<nat, string>)
    requires ParseFormat(formatType).Some? && stored.Ok?
    requires '_' !in Sanitized(email) && '_' !in Sanitized(company) && '_' !in Sanitized(role)
    ensures var rec := GenerateDocument(folder, content, email, company, role, jobId, formatType, None, stored).1.value;
            rec.studentEmail == Sanitized(email) && rec.company == Sanitized(company) && rec.role == Sanitized(role)
  {
    RecordFieldsRoundTrip(email, company, role);
  }

  // ---------------------------------------------------------------- DOCX conversion

  /** What one non-blank markdown line becomes in the DOCX document. */
  datatype Block =
    | Heading(level: nat, text: string)
    | Bullet(text: string)
    | Numbered(text: string)
    | Paragraph(text: string)

  /** The first matching prefix decides; the text is what follows it. */
  function ClassifyLine(line: string): (b: Block)
    ensures b.Heading? ==> 1 <= b.level <= 3 && line == Hashes(b.level) + " " + b.text
    ensures b.Bullet? ==> line == "* " + b.text || line == "- " + b.text
    ensures b.Numbered? ==> line == "1. " + b.text || line == "1) " + b.text
    ensures b.Paragraph? ==> b.text == line && forall p :: p in MarkerPrefixes ==> !Text.StartsWith(line, p)
  {
    if Text.StartsWith(line, "# ") then Heading(1, line[2..])
    else if Text.StartsWith(line, "## ") then Heading(2, line[3..])
    else if Text.StartsWith(line, "### ") then Heading(3, line[4..])
    else if Text.StartsWith(line, "* ") || Text.StartsWith(line, "- ") then Bullet(line[2..])
    else if Text.StartsWith(line, "1. ") || Text.StartsWith(line, "1) ") then Numbered(line[3..])
    else Paragraph(line)
  }

  function Hashes(n: nat): string {
    if n == 0 then "" else "#" + Hashes(n - 1)
  }

  const MarkerPrefixes: seq<string> := ["# ", "## ", "### ", "* ", "- ", "1. ", "1) "]

  /** The blocks of the stripped, non-blank lines, in order. */
  function BlocksOf(lines: seq<string>): (bs: seq<Block>)
    ensures |bs| <= |lines|
  {
    if lines == [] then []
    else
      var init := BlocksOf(lines[..|lines| - 1]);
      var line := Text.Trim(lines[|lines| - 1], Text.IsPySpace);
      if line == "" then init else init + [ClassifyLine(line)]
  }

  /** Blank lines vanish and every other line gives exactly one block. */
  lemma {:induction false} BlocksCount(lines: seq<string>)
    ensures |BlocksOf(lines)| == |NonBlank(lines)|
  {
    if lines != [] {
      BlocksCount(lines[..|lines| - 1]);
    }
  }

  function NonBlank(lines: seq<string>): seq<string> {
    if lines == [] then []
    else
      var init := NonBlank(lines[..|lines| - 1]);
      var line := Text.Trim(lines[|lines| - 1], Text.IsPySpace);
      if line == "" then init else init + [line]
  }

  /** The loop of `_generate_docx` over the content's lines. */
  method DocxBlocks(content: string) returns (blocks: seq<Block>)
    ensures blocks == BlocksOf(Text.Split(content, '\n'))
  {
    var lines := Text.Split(content, '\n');
    blocks := [];
    var i := 0;
    while i < |lines|
      invariant 0 <= i <= |lines|
      invariant blocks == BlocksOf(lines[..i])
    {
      assert lines[..i + 1][..i] == lines[..i];
      var line := Text.Trim(lines[i], Text.IsPySpace);
      if line != "" {
        blocks := blocks + [ClassifyLine(line)];
      }
      i := i + 1;
    }
    assert lines[..i] == lines;
  }
}
