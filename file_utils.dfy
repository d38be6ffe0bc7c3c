/** The Node server's file helpers: MIME validation, parser choice by extension, the
    processing-log line, the CSV stream reader and the per-student output directory. */
module FileUtils {
  import opened Wrappers
  import Text
  import Records

  // ---------------------------------------------------------------- MIME validation

  const MimeCsv: string := "text/csv"
  const MimePdf: string := "application/pdf"
  const MimeDocx: string := "application/vnd.openxmlformats-officedocument.wordprocessingml.document"
  const MimeDoc: string := "application/msword"
  const MimeText: string := "text/plain"

  const JobDescMimes: seq<string> := [MimePdf, MimeDocx, MimeDoc, MimeText]

  datatype MimeCheck = MimeCheck(isValid: bool, message: string)

  /** `validateFileMimeType(fieldname, mimetype)`: a `csv` file must be exactly text/csv, a
      `jobDesc` file one of four document types, and any other field is refused by name. */
  function ValidateFileMimeType(field: string, mime: string): (r: MimeCheck)
    ensures r.isValid <==> (field == "csv" && mime == MimeCsv) || (field == "jobDesc" && mime in JobDescMimes)
    ensures field != "csv" && field != "jobDesc" ==>
              r.message == "Unexpected field: " + field + ". Expected 'csv' or 'jobDesc'."
  {
    if field == "csv" then
      if mime == MimeCsv then MimeCheck(true, "Valid CSV file")
      else MimeCheck(false, "Invalid file type for CSV. Only text/csv is allowed.")
    else if field == "jobDesc" then
      if mime in JobDescMimes then MimeCheck(true, "Valid job description file")
      else MimeCheck(false, "Invalid file type for job description. Only PDF, DOCX, DOC, or TXT files are allowed.")
    else MimeCheck(false, "Unexpected field: " + field + ". Expected 'csv' or 'jobDesc'.")
  }

  // ---------------------------------------------------------------- extensions

  /** The last path component (POSIX separators). */
  function BaseName(path: string): (b: string)
    ensures '/' !in b && Text.EndsWith(path, b)
  {
    var i := Text.LastIndexOf(path, '/');
    assert path[|path| - |path[i + 1..]|..] == path[i + 1..];
    path[i + 1..]
  }

  /** The extension of one path component. */
  function ComponentExtension(b: string): (e: string)
    ensures e == [] || (e[0] == '.' && '.' !in e[1..] && Text.EndsWith(b, e))
    ensures '/' !in b ==> '/' !in e
  {
    var d := Text.LastIndexOf(b, '.');
    if d <= 0 || b == ".." then ""
    else
      assert b[d..][1..] == b[d + 1..];
      assert b[|b| - |b[d..]|..] == b[d..];
      b[d..]
  }

  /** Node's `path.extname`: from the last `.` of the last component to its end; empty when
      there is no dot, when the only dot starts the component, or for `..`. Trailing `/`s are
      not stripped here, so `a.txt/` gives the empty extension where Node gives `.txt`; the
      names this is applied to are uploaded file names, which carry no separator. */
  function ExtName(path: string): (e: string)
    ensures e == [] || (e[0] == '.' && '.' !in e[1..] && '/' !in e && Text.EndsWith(path, e))
  {
    var b := BaseName(path);
    var e := ComponentExtension(b);
    assert e != [] ==> path[|path| - |e|..] == b[|b| - |e|..];
    e
  }

  lemma AsciiLowerSlice(s: string, i: int)
    requires 0 <= i <= |s|
    ensures Text.AsciiLower(s)[i..] == Text.AsciiLower(s[i..])
  {
  }

  lemma LastIndexOfLower(s: string, c: char)
    requires !('A' <= c <= 'Z') && !('a' <= c <= 'z')
    ensures Text.LastIndexOf(Text.AsciiLower(s), c) == Text.LastIndexOf(s, c)
  {
    var l := Text.AsciiLower(s);
    assert forall k :: 0 <= k < |s| ==> (l[k] == c <==> s[k] == c);
  }

  lemma BaseNameLower(path: string)
    ensures BaseName(Text.AsciiLower(path)) == Text.AsciiLower(BaseName(path))
  {
    LastIndexOfLower(path, '/');
    AsciiLowerSlice(path, Text.LastIndexOf(path, '/') + 1);
  }

  lemma ComponentExtensionLower(b: string)
    ensures ComponentExtension(Text.AsciiLower(b)) == Text.AsciiLower(ComponentExtension(b))
  {
    LastIndexOfLower(b, '.');
    var d := Text.LastIndexOf(b, '.');
    var l := Text.AsciiLower(b);
    if d > 0 && b != ".." {
      AsciiLowerSlice(b, d);
    } else if d > 0 {
      assert l == "..";
    }
  }

  /** Lower-casing a name and then taking its extension gives the lower-cased extension. */
  lemma ExtNameLower(path: string)
    ensures ExtName(Text.AsciiLower(path)) == Text.AsciiLower(ExtName(path))
  {
    BaseNameLower(path);
    ComponentExtensionLower(BaseName(path));
  }

  datatype Parser = PdfParser | DocxParser | TxtParser | CsvParser

  /** The `switch` on a lower-cased extension. */
  function ParserForExtension(ext: string): (p: Option<Parser>)
    ensures p == Some(PdfParser) <==> ext == ".pdf"
    ensures p == Some(DocxParser) <==> ext == ".docx" || ext == ".doc"
    ensures p == Some(TxtParser) <==> ext == ".txt"
    ensures p == Some(CsvParser) <==> ext == ".csv"
  {
    if ext == ".pdf" then Some(PdfParser)
    else if ext == ".docx" || ext == ".doc" then Some(DocxParser)
    else if ext == ".txt" then Some(TxtParser)
    else if ext == ".csv" then Some(CsvParser)
    else None
  }

  /** `getParserForFile(filename)`: chosen by the lower-cased extension. */
  function GetParserForFile(filename: string): (p: Option<Parser>)
    ensures p == ParserForExtension(Text.AsciiLower(ExtName(filename)))
  {
    ParserForExtension(Text.AsciiLower(ExtName(filename)))
  }

  lemma AsciiLowerIdempotent(s: string)
    ensures Text.AsciiLower(Text.AsciiLower(s)) == Text.AsciiLower(s)
  {
  }

  /** The choice of parser ignores the case of the file name. */
  lemma ParserIgnoresCase(filename: string)
    ensures GetParserForFile(Text.AsciiLower(filename)) == GetParserForFile(filename)
  {
    ExtNameLower(filename);
    AsciiLowerIdempotent(ExtName(filename));
  }

  /** A document parser's result, with the message prefix its own `catch` adds; the library
      call itself (pdf-parse, mammoth, the file read) is the `raw` outcome. */
  function ParseDocument(p: Parser, raw: Result<string, string>): (r: Result<string, string>)
    requires p != CsvParser
    ensures r.Ok? <==> raw.Ok?
    ensures r.Ok? ==> r.value == raw.value
    ensures r.Err? ==> r.error == (match p
                                   case PdfParser => "Error parsing PDF: "
                                   case DocxParser => "Error parsing DOCX: "
                                   case TxtParser => "Error parsing TXT: ") + raw.error
  {
    match raw
    case Ok(text) => Ok(text)
    case Err(m) =>
      match p
      case PdfParser => Err("Error parsing PDF: " + m)
      case DocxParser => Err("Error parsing DOCX: " + m)
      case TxtParser => Err("Error parsing TXT: " + m)
  }

  // ---------------------------------------------------------------- processing log

  /** One processing-log entry. */
  function LogLine(timestamp: string, rollNumber: string, status: string, message: Option<string>): string {
    timestamp + " | " + rollNumber + " | " + status + " | " + message.GetOr("") + "\n"
  }

  /** When no field contains `|` or a newline, an entry splits back into its four fields,
      each padded by the separator's spaces. */
  lemma LogLineFields(ts: string, roll: string, status: string, message: Option<string>)
    requires '|' !in ts && '|' !in roll && '|' !in status && '|' !in message.GetOr("")
    ensures var line := LogLine(ts, roll, status, message);
            line[|line| - 1] == '\n'
            && Text.Split(line[..|line| - 1], '|') == [ts + " ", " " + roll + " ", " " + status + " ", " " + message.GetOr("")]
  {
    var m := message.GetOr("");
    var line := LogLine(ts, roll, status, message);
    var body := (ts + " ") + ['|'] + ((" " + roll + " ") + ['|'] + ((" " + status + " ") + ['|'] + (" " + m)));
    assert line[..|line| - 1] == body;
    Text.SplitWithout(" " + m, '|');
    Text.SplitPrefix(" " + status + " ", " " + m, '|');
    Text.SplitPrefix(" " + roll + " ", (" " + status + " ") + ['|'] + (" " + m), '|');
    Text.SplitPrefix(ts + " ", (" " + roll + " ") + ['|'] + ((" " + status + " ") + ['|'] + (" " + m)), '|');
  }

  /** The append-only processing log. */
  class ProcessingLog {
    var entries: seq<string>

    constructor ()
      ensures entries == []
    {
      entries := [];
    }

    /** `logStatus(rollNumber, status, message)`: appends one entry, changing nothing before it. */
    method LogStatus(timestamp: string, rollNumber: string, status: string, message: Option<string>)
      modifies this
      ensures entries == old(entries) + [LogLine(timestamp, rollNumber, status, message)]
    {
      entries := entries + [LogLine(timestamp, rollNumber, status, message)];
    }
  }

  // ---------------------------------------------------------------- CSV stream

  datatype StreamEvent = Data(row: Records.Row) | StreamError(message: string) | End

  /** The state of the promise `parseCSV` returns. */
  datatype Settlement = Pending | Resolved(rows: seq<Records.Row>) | Rejected(message: string)

  /** The promise settles at the first `end` (with every row seen so far, in stream order) or
      at the first `error`; it stays pending while neither has arrived. */
  function CsvOutcome(events: seq<StreamEvent>, seen: seq<Records.Row>): Settlement {
    if events == [] then Pending
    else match events[0]
      case Data(row) => CsvOutcome(events[1..], seen + [row])
      case StreamError(m) => Rejected(m)
      case End => Resolved(seen)
  }

  function DataEvents(rows: seq<Records.Row>): (es: seq<StreamEvent>)
    ensures |es| == |rows| && forall k :: 0 <= k < |rows| ==> es[k] == Data(rows[k])
  {
    if rows == [] then [] else [Data(rows[0])] + DataEvents(rows[1..])
  }

  /** A stream of rows followed by `end` resolves to exactly those rows, in order. */
  lemma {:induction false} CsvRowsInOrder(seen: seq<Records.Row>, rows: seq<Records.Row>, rest: seq<StreamEvent>)
    ensures CsvOutcome(DataEvents(rows) + [End] + rest, seen) == Resolved(seen + rows)
    decreases |rows|
  {
    if rows != [] {
      var es := DataEvents(rows) + [End] + rest;
      assert es[1..] == DataEvents(rows[1..]) + [End] + rest;
      CsvRowsInOrder(seen + [rows[0]], rows[1..], rest);
      assert seen + [rows[0]] + rows[1..] == seen + rows;
    }
  }

  /** `parseCSV(filePath)`: the handlers push each row and settle the promise once. */
  method ParseCsv(events: seq<StreamEvent>) returns (r: Settlement)
    ensures r == CsvOutcome(events, [])
  {
    var results: seq<Records.Row> := [];
    var i := 0;
    r := Pending;
    while i < |events| && r.Pending?
      invariant 0 <= i <= |events|
      invariant r.Pending? ==> CsvOutcome(events, []) == CsvOutcome(events[i..], results)
      invariant !r.Pending? ==> r == CsvOutcome(events, [])
      decreases |events| - i
    {
      assert events[i..][1..] == events[i + 1..];
      match events[i] {
        case Data(row) => results := results + [row];
        case StreamError(m) => r := Rejected(m);
        case End => r := Resolved(results);
      }
      i := i + 1;
    }
  }

  // ---------------------------------------------------------------- output directory

  /** Node's `path.normalize` on an absolute path held as its segments: empty and `.`
      segments vanish, and `..` removes the segment before it (at the root there is none). */
  function Resolve(dir: seq<string>, segments: seq<string>): seq<string>
    decreases |segments|
  {
    if segments == [] then dir
    else if segments[0] == "" || segments[0] == "." then Resolve(dir, segments[1..])
    else if segments[0] == ".." then Resolve(if dir == [] then [] else dir[..|dir| - 1], segments[1..])
    else Resolve(dir + [segments[0]], segments[1..])
  }

  /** A segment `path.normalize` keeps as it is. */
  predicate PlainSegment(x: string) {
    x != "" && x != "." && x != ".." && '/' !in x
  }

  /** `path.join(__dirname, '../outputs')`, for the module directory `utilsDir`. */
  function OutputsDir(utilsDir: seq<string>): seq<string>
    requires |utilsDir| >= 1
  {
    utilsDir[..|utilsDir| - 1] + ["outputs"]
  }

  /** `createStudentDirectory(rollNumber)`: `path.join(__dirname, '../outputs', rollNumber)`,
      which joins the three with `/` and normalises the result; `utilsDir` is the segments of
      `__dirname`. The directory is identified by its segments, so a trailing `/` is immaterial. */
  function StudentDirectory(utilsDir: seq<string>, rollNumber: string): seq<string> {
    Resolve(utilsDir, ["..", "outputs"] + Text.Split(rollNumber, '/'))
  }

  lemma {:induction false} ResolvePlain(dir: seq<string>, segments: seq<string>)
    requires forall k :: 0 <= k < |segments| ==> PlainSegment(segments[k])
    ensures Resolve(dir, segments) == dir + segments
    decreases |segments|
  {
    if segments != [] {
      ResolvePlain(dir + [segments[0]], segments[1..]);
      assert dir + [segments[0]] + segments[1..] == dir + segments;
    }
  }

  /** Without a `..` segment, normalisation never climbs: the result extends the directory. */
  lemma {:induction false} ResolveWithin(dir: seq<string>, segments: seq<string>)
    requires ".." !in segments
    ensures |dir| <= |Resolve(dir, segments)| && Resolve(dir, segments)[..|dir|] == dir
    decreases |segments|
  {
    if segments != [] {
      assert ".." !in segments[1..];
      if segments[0] == "" || segments[0] == "." {
        ResolveWithin(dir, segments[1..]);
      } else {
        ResolveWithin(dir + [segments[0]], segments[1..]);
        assert (dir + [segments[0]])[..|dir|] == dir;
      }
    }
  }

  lemma OutputsDirOf(utilsDir: seq<string>, segments: seq<string>)
    requires |utilsDir| >= 1
    ensures Resolve(utilsDir, ["..", "outputs"] + segments) == Resolve(OutputsDir(utilsDir), segments)
  {
    var all := ["..", "outputs"] + segments;
    assert all[1..] == ["outputs"] + segments;
    assert all[1..][1..] == segments;
  }

  /** A roll number without a `..` segment gets a directory inside `outputs`; with a single
      plain segment it gets exactly `outputs/<rollNumber>`. */
  lemma StudentDirectoryInOutputs(utilsDir: seq<string>, rollNumber: string)
    requires |utilsDir| >= 1
    ensures var d := StudentDirectory(utilsDir, rollNumber);
            var o := OutputsDir(utilsDir);
            (".." !in Text.Split(rollNumber, '/') ==> |o| <= |d| && d[..|o|] == o)
            && (PlainSegment(rollNumber) ==> d == o + [rollNumber])
  {
    OutputsDirOf(utilsDir, Text.Split(rollNumber, '/'));
    if ".." !in Text.Split(rollNumber, '/') {
      ResolveWithin(OutputsDir(utilsDir), Text.Split(rollNumber, '/'));
    }
    if PlainSegment(rollNumber) {
      Text.SplitWithout(rollNumber, '/');
      ResolvePlain(OutputsDir(utilsDir), [rollNumber]);
    }
  }

  /** Roll numbers that are single plain segments get distinct directories. */
  lemma StudentDirectoryInjective(utilsDir: seq<string>, a: string, b: string)
    requires |utilsDir| >= 1 && PlainSegment(a) && PlainSegment(b)
    ensures StudentDirectory(utilsDir, a) == StudentDirectory(utilsDir, b) <==> a == b
  {
    StudentDirectoryInOutputs(utilsDir, a);
    StudentDirectoryInOutputs(utilsDir, b);
    var o := OutputsDir(utilsDir);
    if StudentDirectory(utilsDir, a) == StudentDirectory(utilsDir, b) {
      assert (o + [a])[|o|] == a && (o + [b])[|o|] == b;
    }
  }

  lemma DirectoryOf(utilsDir: seq<string>, rollNumber: string, segments: seq<string>)
    requires |utilsDir| >= 1 && Text.Split(rollNumber, '/') == segments
    ensures StudentDirectory(utilsDir, rollNumber) == Resolve(OutputsDir(utilsDir), segments)
  {
    OutputsDirOf(utilsDir, segments);
  }

  /** `./a` and `a` share one directory. */
  lemma DotSegmentAlias(utilsDir: seq<string>)
    requires |utilsDir| >= 1
    ensures StudentDirectory(utilsDir, "./a") == StudentDirectory(utilsDir, "a")
  {
    var o := OutputsDir(utilsDir);
    Text.SplitWithout("a", '/');
    assert "./a" == "." + ['/'] + "a";
    Text.SplitPrefix(".", "a", '/');
    DirectoryOf(utilsDir, "a", ["a"]);
    DirectoryOf(utilsDir, "./a", [".", "a"]);
    assert [".", "a"][1..] == ["a"];
    assert Resolve(o, [".", "a"]) == Resolve(o, ["a"]);
  }

  /** `b/../a` and `a` share one directory. */
  lemma ParentSegmentAlias(utilsDir: seq<string>)
    requires |utilsDir| >= 1
    ensures StudentDirectory(utilsDir, "b/../a") == StudentDirectory(utilsDir, "a")
  {
    var o := OutputsDir(utilsDir);
    Text.SplitWithout("a", '/');
    assert "../a" == ".." + ['/'] + "a";
    Text.SplitPrefix("..", "a", '/');
    assert "b/../a" == "b" + ['/'] + "../a";
    Text.SplitPrefix("b", "../a", '/');
    DirectoryOf(utilsDir, "a", ["a"]);
    DirectoryOf(utilsDir, "b/../a", ["b", "..", "a"]);
    assert ["b", "..", "a"][1..] == ["..", "a"] && ["..", "a"][1..] == ["a"];
    assert (o + ["b"])[..|o + ["b"]| - 1] == o;
    assert Resolve(o, ["b", "..", "a"]) == Resolve(o + ["b"], ["..", "a"]);
    assert Resolve(o + ["b"], ["..", "a"]) == Resolve(o, ["a"]);
  }

  /** `../x` names a directory beside `outputs`, not inside it. */
  lemma ParentSegmentEscapes(utilsDir: seq<string>)
    requires |utilsDir| >= 1
    ensures StudentDirectory(utilsDir, "../x") == utilsDir[..|utilsDir| - 1] + ["x"]
  {
    var o := OutputsDir(utilsDir);
    Text.SplitWithout("x", '/');
    assert "../x" == ".." + ['/'] + "x";
    Text.SplitPrefix("..", "x", '/');
    DirectoryOf(utilsDir, "../x", ["..", "x"]);
    assert ["..", "x"][1..] == ["x"];
    assert o[..|o| - 1] == utilsDir[..|utilsDir| - 1];
    assert Resolve(o, ["..", "x"]) == Resolve(utilsDir[..|utilsDir| - 1], ["x"]);
    ResolvePlain(utilsDir[..|utilsDir| - 1], ["x"]);
  }
}
