/** The Python service's own batch pipeline: a job registry kept in memory, a background
    loop that scores every student against the job description's skills, the status and
    email thresholds, the job-status query and the checks of the upload endpoint. The skill
    extraction itself (tokenising, stop words, lemmatising, word-boundary search) is an
    oracle: the loop receives each profile's extracted skills, or the exception it raised. */
module MatchApp {
  import opened Wrappers
  import Text
  import Records

  // ---------------------------------------------------------------- skills and the score

  /** `{category: [skill, ...]}` in insertion order. */
  type Skills = seq<(string, seq<string>)>

  /** The categories' lists concatenated in order, as the `extend` loops build them. */
  function Flatten(skills: Skills): (flat: seq<string>)
    ensures forall c, x :: 0 <= c < |skills| && x in skills[c].1 ==> x in flat
    ensures forall x :: x in flat ==> exists c :: 0 <= c < |skills| && x in skills[c].1
  {
    if skills == [] then []
    else
      var init := skills[..|skills| - 1];
      var rest := Flatten(init);
      assert forall c :: 0 <= c < |init| ==> init[c] == skills[c];
      rest + skills[|skills| - 1].1
  }

  /** The distinct skills both lists contain. */
  function Matches(student: seq<string>, job: seq<string>): set<string> {
    set x | x in student && x in job
  }

  function Distinct(s: seq<string>): set<string> {
    set x | x in s
  }

  /** The score the source computes: 0 without job skills, otherwise the share of the job's
      flattened list that the student's distinct skills cover, in percent, capped at 100. */
  function MatchScore(student: Skills, job: Skills): real {
    var jobFlat := Flatten(job);
    if job == [] || jobFlat == [] then 0.0
    else
      var raw := |Matches(Flatten(student), jobFlat)| as real / |jobFlat| as real * 100.0;
      if raw < 100.0 then raw else 100.0
  }

  lemma {:induction false} DistinctBound(s: seq<string>)
    ensures |Distinct(s)| <= |s|
  {
    if s != [] {
      DistinctBound(s[..|s| - 1]);
      assert Distinct(s) == Distinct(s[..|s| - 1]) + {s[|s| - 1]} by {
        assert s == s[..|s| - 1] + [s[|s| - 1]];
      }
    }
  }

  lemma {:induction false} SubsetBound(a: set<string>, b: set<string>)
    requires a <= b
    ensures |a| <= |b|
    decreases |b|
  {
    if a != {} {
      var x :| x in a;
      SubsetBound(a - {x}, b - {x});
    }
  }

  /** A job without duplicate skills, all of which the student has, scores exactly 100. */
  predicate NoDuplicates(s: seq<string>) {
    forall i, j :: 0 <= i < j < |s| ==> s[i] != s[j]
  }

  lemma {:induction false} DistinctExact(s: seq<string>)
    requires NoDuplicates(s)
    ensures |Distinct(s)| == |s|
  {
    if s != [] {
      var init := s[..|s| - 1];
      DistinctExact(init);
      assert s == init + [s[|s| - 1]];
      assert s[|s| - 1] !in Distinct(init);
      assert Distinct(s) == Distinct(init) + {s[|s| - 1]};
    }
  }

  /** A share of `m` out of `n >= m` is a percentage. */
  lemma PercentBound(m: nat, n: nat)
    requires 0 < n && m <= n
    ensures 0.0 <= m as real / n as real * 100.0 <= 100.0
    ensures m == n ==> m as real / n as real * 100.0 == 100.0
  {
    var q := m as real / n as real;
    assert q * n as real == m as real;
    assert q <= 1.0 by {
      if q > 1.0 {
        assert q * n as real > 1.0 * n as real;
      }
    }
  }

  /** The distinct matches never outnumber the job's flattened list. */
  lemma MatchesBound(student: seq<string>, job: seq<string>)
    ensures |Matches(student, job)| <= |job|
  {
    SubsetBound(Matches(student, job), Distinct(job));
    DistinctBound(job);
  }

  /** The score is a percentage: never negative and never above 100, and the cap at 100
      never changes the value, since the distinct matches cannot outnumber the job's list. */
  lemma ScoreBounds(student: Skills, job: Skills)
    ensures 0.0 <= MatchScore(student, job) <= 100.0
    ensures var jobFlat := Flatten(job);
            jobFlat != [] ==>
              MatchScore(student, job) == |Matches(Flatten(student), jobFlat)| as real / |jobFlat| as real * 100.0
  {
    var jobFlat := Flatten(job);
    if jobFlat != [] {
      var m := Matches(Flatten(student), jobFlat);
      MatchesBound(Flatten(student), jobFlat);
      PercentBound(|m|, |jobFlat|);
      assert job != [];
    }
  }

  /** No shared skill gives 0; every skill of a duplicate-free job gives 100. */
  lemma ScoreExtremes(student: Skills, job: Skills)
    ensures (forall x :: x in Flatten(job) ==> x !in Flatten(student)) ==> MatchScore(student, job) == 0.0
    ensures Flatten(job) != [] && NoDuplicates(Flatten(job)) && (forall x :: x in Flatten(job) ==> x in Flatten(student)) ==>
              MatchScore(student, job) == 100.0
  {
    var jobFlat := Flatten(job);
    var studentFlat := Flatten(student);
    if jobFlat != [] {
      assert job != [];
      if forall x :: x in jobFlat ==> x !in studentFlat {
        assert Matches(studentFlat, jobFlat) == {};
      }
      if NoDuplicates(jobFlat) && (forall x :: x in jobFlat ==> x in studentFlat) {
        assert Matches(studentFlat, jobFlat) == Distinct(jobFlat);
        DistinctExact(jobFlat);
        PercentBound(|jobFlat|, |jobFlat|);
      }
    }
  }

  /** `calculate_match_score`: flatten both dictionaries, intersect, divide, cap. */
  method CalculateMatchScore(student: Skills, job: Skills) returns (score: real)
    ensures score == MatchScore(student, job)
    ensures 0.0 <= score <= 100.0
  {
    ScoreBounds(student, job);
    if job == [] {
      return 0.0;
    }
    var studentFlat := [];
    var i := 0;
    while i < |student|
      invariant 0 <= i <= |student|
      invariant studentFlat == Flatten(student[..i])
    {
      assert student[..i + 1][..i] == student[..i];
      studentFlat := studentFlat + student[i].1;
      i := i + 1;
    }
    assert student[..i] == student;
    var jobFlat := [];
    i := 0;
    while i < |job|
      invariant 0 <= i <= |job|
      invariant jobFlat == Flatten(job[..i])
    {
      assert job[..i + 1][..i] == job[..i];
      jobFlat := jobFlat + job[i].1;
      i := i + 1;
    }
    assert job[..i] == job;
    if jobFlat == [] {
      return 0.0;
    }
    var matches := set x | x in studentFlat && x in jobFlat;
    score := |matches| as real / |jobFlat| as real * 100.0;
    if score >= 100.0 {
      score := 100.0;
    }
  }

  // ---------------------------------------------------------------- thresholds

  datatype PyStatus = Success | PartialSuccess | Failure | Error

  function PyStatusName(s: PyStatus): string {
    match s
    case Success => "Success"
    case PartialSuccess => "Partial Success"
    case Failure => "Failure"
    case Error => "Error"
  }

  /** Success from 70, Partial Success from 40, Failure below. */
  function Classify(score: real): (s: PyStatus)
    ensures s != Error
  {
    if score >= 70.0 then Success else if score >= 40.0 then PartialSuccess else Failure
  }

  /** The simulated email goes out from 50. */
  predicate EmailSent(score: real) {
    score >= 50.0
  }

  /** The thresholds nest: a Success always sends the email, a Failure never does, and a
      Partial Success sends it exactly when the score reaches 50. */
  lemma ThresholdsNest(score: real)
    ensures Classify(score) == Success ==> EmailSent(score)
    ensures Classify(score) == Failure ==> !EmailSent(score)
    ensures Classify(score) == PartialSuccess ==> (EmailSent(score) <==> score >= 50.0)
    ensures Classify(score) == Success <==> score >= 70.0
    ensures Classify(score) == Failure <==> score < 40.0
  {
  }

  // ---------------------------------------------------------------- the per-student loop

  datatype PyResult =
    | Scored(name: string, rollNumber: string, status: PyStatus, emailSent: bool, matchScore: real, skills: Skills)
    | Errored(name: string, rollNumber: string, error: string)

  const NameKeys: seq<string> := ["full name of the student", "Name", "name"]
  const IdKeys: seq<string> := ["Roll_Number", "RollNumber", "ID", "StudentID"]

  /** The display name of record `i`: the first PRESENT name key, else `Student <i+1>`. */
  function StudentName(row: Records.Row, i: nat): string {
    Records.GetChain(row, NameKeys, "Student " + Text.NatToString(i + 1))
  }

  /** The id of record `i`: the first PRESENT id key, else `S<1000+i>`. */
  function StudentId(row: Records.Row, i: nat): string {
    Records.GetChain(row, IdKeys, "S" + Text.NatToString(1000 + i))
  }

  /** The result of record `i`, given what the profile analysis returned or raised. */
  function ResultFor(row: Records.Row, i: nat, analysis: Result<Skills, string>, job: Skills): PyResult {
    match analysis
    case Err(e) => Errored(StudentName(row, i), StudentId(row, i), e)
    case Ok(skills) =>
      var score := MatchScore(skills, job);
      Scored(StudentName(row, i), StudentId(row, i), Classify(score), EmailSent(score), score, skills)
  }

  /** The results of records `0..n-1`. */
  function ResultsUpTo(rows: seq<Records.Row>, analyses: seq<Result<Skills, string>>, job: Skills, n: nat): (rs: seq<PyResult>)
    requires n <= |rows| <= |analyses|
    ensures |rs| == n
  {
    if n == 0 then [] else ResultsUpTo(rows, analyses, job, n - 1) + [ResultFor(rows[n - 1], n - 1, analyses[n - 1], job)]
  }

  /** One result per record, in roster order: result `k` is the result of record `k` alone. */
  lemma {:induction false} ResultsInOrder(rows: seq<Records.Row>, analyses: seq<Result<Skills, string>>, job: Skills, n: nat, k: nat)
    requires k < n <= |rows| <= |analyses|
    ensures ResultsUpTo(rows, analyses, job, n)[k] == ResultFor(rows[k], k, analyses[k], job)
    decreases n
  {
    var prev := ResultsUpTo(rows, analyses, job, n - 1);
    assert ResultsUpTo(rows, analyses, job, n) == prev + [ResultFor(rows[n - 1], n - 1, analyses[n - 1], job)];
    if k < n - 1 {
      ResultsInOrder(rows, analyses, job, n - 1, k);
    }
  }

  /** Each result names its own record and, when scored, carries a percentage whose status
      and email flag follow the thresholds; only a raised analysis gives `Error`. */
  lemma ResultShape(row: Records.Row, i: nat, analysis: Result<Skills, string>, job: Skills)
    ensures var r := ResultFor(row, i, analysis, job);
            r.name == StudentName(row, i) && r.rollNumber == StudentId(row, i)
            && (analysis.Err? <==> r.Errored?)
            && (r.Scored? ==> 0.0 <= r.matchScore <= 100.0 && r.status == Classify(r.matchScore)
                              && r.emailSent == EmailSent(r.matchScore) && r.status != Error)
  {
    if analysis.Ok? {
      ScoreBounds(analysis.value, job);
    }
  }

  /** The defaults: with no name key present the name is `Student <i+1>`, with no id key the
      id is `S<1000+i>`; a present key wins even when its value is empty. */
  lemma NameAndIdChains(row: Records.Row, i: nat)
    ensures (forall k :: 0 <= k < |NameKeys| ==> Records.Get(row, NameKeys[k]).None?) ==>
              StudentName(row, i) == "Student " + Text.NatToString(i + 1)
    ensures Records.Get(row, "full name of the student").Some? ==>
              StudentName(row, i) == Records.Get(row, "full name of the student").value
    ensures (forall k :: 0 <= k < |IdKeys| ==> Records.Get(row, IdKeys[k]).None?) ==>
              StudentId(row, i) == "S" + Text.NatToString(1000 + i)
    ensures Records.Get(row, "Roll_Number").Some? ==> StudentId(row, i) == Records.Get(row, "Roll_Number").value
  {
    assert NameKeys[0] == "full name of the student" && IdKeys[0] == "Roll_Number";
    Records.GetChainFirstPresent(row, NameKeys, "Student " + Text.NatToString(i + 1));
    Records.GetChainFirstPresent(row, IdKeys, "S" + Text.NatToString(1000 + i));
  }

  /** A job in the registry: `results`, `completedAt` and `jobSkills` are absent until set. */
  datatype JobRecord = JobRecord(
    id: string,
    status: string,
    createdAt: string,
    totalStudents: nat,
    processedStudents: nat,
    jobDescriptionLength: nat,
    csvFilename: string,
    jobDescFilename: string,
    jobSkills: Option<Skills>,
    results: Option<seq<PyResult>>,
    completedAt: Option<string>)

  /** The job a finished loop leaves: every record has one result, in order. */
  function Completed(j: JobRecord, rows: seq<Records.Row>, analyses: seq<Result<Skills, string>>, job: Skills, at: string): JobRecord
    requires |rows| <= |analyses|
  {
    j.(totalStudents := |rows|, jobSkills := Some(job),
       processedStudents := if rows == [] then j.processedStudents else |rows|,
       status := "completed", results := Some(ResultsUpTo(rows, analyses, job, |rows|)), completedAt := Some(at))
  }

  datatype StatusReply =
    | NotFound(error: string)
    | Progress(jobId: string, status: string, totalStudents: nat, processedStudents: nat, results: Option<seq<PyResult>>)

  /** The submission as the endpoint sees it: the file parts by field name, their client
      file names, and those names after `secure_filename` (an oracle). */
  datatype Part = Part(filename: string, securedName: string)

  /** How the job description is read: by the secured name's suffix, anything else as text. */
  datatype Extractor = PdfText | DocxText | PlainText

  function ExtractorFor(securedName: string): (e: Extractor)
    ensures e == PdfText <==> Text.EndsWith(securedName, ".pdf")
    ensures e == DocxText <==> !Text.EndsWith(securedName, ".pdf") && Text.EndsWith(securedName, ".docx")
  {
    if Text.EndsWith(securedName, ".pdf") then PdfText
    else if Text.EndsWith(securedName, ".docx") then DocxText
    else PlainText
  }

  datatype UploadReply =
    | UploadError(code: nat, error: string)
    | UploadAccepted(jobId: string, status: string, message: string)

  /** `extract_text_from_pdf` / `extract_text_from_docx`: one piece per page or paragraph
      followed by a newline; an exception (None) ends the extraction with what was read. */
  function PiecesText(pieces: seq<Option<string>>): string {
    if pieces == [] || pieces[0].None? then "" else pieces[0].value + "\n" + PiecesText(pieces[1..])
  }

  /** The text gathered when extraction stops after `n` pieces. */
  lemma {:induction false} PiecesTextPrefix(pieces: seq<Option<string>>, n: nat)
    requires n < |pieces| && forall k :: 0 <= k <= n ==> pieces[k].Some?
    ensures PiecesText(pieces[..n + 1]) == PiecesText(pieces[..n]) + pieces[n].value + "\n"
  {
    if n > 0 {
      PiecesTextPrefix(pieces[1..], n - 1);
      assert pieces[1..][..n] == pieces[..n + 1][1..];
      assert pieces[1..][..n - 1] == pieces[..n][1..];
    }
  }

  method ExtractPieces(pieces: seq<Option<string>>) returns (text: string)
    ensures text == PiecesText(pieces)
  {
    text := "";
    var i := 0;
    while i < |pieces|
      invariant 0 <= i <= |pieces|
      invariant forall k :: 0 <= k < i ==> pieces[k].Some?
      invariant text == PiecesText(pieces[..i])
    {
      if pieces[i].None? {
        PiecesTextStops(pieces, i);
        return;
      }
      PiecesTextPrefix(pieces, i);
      text := text + pieces[i].value + "\n";
      i := i + 1;
    }
    assert pieces[..i] == pieces;
  }

  /** The first failing piece ends the text: nothing after it is read. */
  lemma {:induction false} PiecesTextStops(pieces: seq<Option<string>>, n: nat)
    requires n < |pieces| && pieces[n].None? && forall k :: 0 <= k < n ==> pieces[k].Some?
    ensures PiecesText(pieces) == PiecesText(pieces[..n])
  {
    if n > 0 {
      PiecesTextStops(pieces[1..], n - 1);
      assert pieces[1..][..n - 1] == pieces[..n][1..];
    }
  }

  /** The body of one iteration: name and id, then the score and its classification, or
      the error result when the analysis raised. */
  method ProcessStudent(row: Records.Row, i: nat, analysis: Result<Skills, string>, jobSkills: Skills)
    returns (r: PyResult)
    ensures r == ResultFor(row, i, analysis, jobSkills)
  {
    var name := StudentName(row, i);
    var id := StudentId(row, i);
    match analysis {
      case Err(e) =>
        r := Errored(name, id, e);
      case Ok(skills) =>
        var score := CalculateMatchScore(skills, jobSkills);
        var status := if score >= 70.0 then Success else if score >= 40.0 then PartialSuccess else Failure;
        r := Scored(name, id, status, score >= 50.0, score, skills);
    }
  }

  /** The job description's text: by the secured name's suffix, a PDF's pages or a DOCX's
      paragraphs through the piecewise extractor, anything else read whole as text. */
  function JobDescriptionText(securedName: string, pieces: seq<Option<string>>, plain: Result<string, string>): Result<string, string> {
    if ExtractorFor(securedName) == PlainText then plain else Ok(PiecesText(pieces))
  }

  /** `plain` is what reading the file as text gives, or the error it raises (a file that is
      not UTF-8 raises `UnicodeDecodeError`); the two extractors catch their own errors. */
  method ReadJobDescription(securedName: string, pieces: seq<Option<string>>, plain: Result<string, string>)
    returns (text: Result<string, string>)
    ensures text == JobDescriptionText(securedName, pieces, plain)
    ensures ExtractorFor(securedName) == PlainText ==> text == plain
    ensures ExtractorFor(securedName) != PlainText ==> text.Ok?
  {
    if Text.EndsWith(securedName, ".pdf") {
      var t := ExtractPieces(pieces);
      text := Ok(t);
    } else if Text.EndsWith(securedName, ".docx") {
      var t := ExtractPieces(pieces);
      text := Ok(t);
    } else {
      text := plain;
    }
  }

  /** Both file parts are present and both carry a file name. */
  predicate PartsPresent(parts: map<string, Part>) {
    "csv" in parts && "jobDesc" in parts && parts["csv"].filename != "" && parts["jobDesc"].filename != ""
  }

  class Registry {
    var jobs: map<string, JobRecord>

    constructor ()
      ensures jobs == map[]
    {
      jobs := map[];
    }

    /** `process_student_data`: the roster size is stored, then the job description is
        analysed outside any `try`: when that raises, the background thread dies and the job
        stays as it is, never completed. Otherwise the counter is raised before each record is
        worked on, exactly one result is produced per record, and only after the loop are the
        status, the results and the completion time stored. `jobAnalysis` is what analysing
        the job description returned or raised, `analyses[i]` the same for record i's profile. */
    method ProcessStudentData(jobId: string, rows: seq<Records.Row>, jobAnalysis: Result<Skills, string>,
                              analyses: seq<Result<Skills, string>>, at: string)
      returns (outcome: Result<seq<PyResult>, string>)
      requires jobId in jobs
      requires |analyses| == |rows|
      modifies this
      ensures jobAnalysis.Err? ==>
                outcome == Err(jobAnalysis.error)
                && jobs == old(jobs)[jobId := old(jobs)[jobId].(totalStudents := |rows|)]
      ensures jobAnalysis.Ok? ==>
                jobs == old(jobs)[jobId := Completed(old(jobs)[jobId], rows, analyses, jobAnalysis.value, at)]
                && outcome == Ok(ResultsUpTo(rows, analyses, jobAnalysis.value, |rows|))
    {
      var job := jobs[jobId];
      ghost var before := jobs;
      jobs := jobs[jobId := job.(totalStudents := |rows|)];
      if jobAnalysis.Err? {
        return Err(jobAnalysis.error);
      }
      var jobSkills := jobAnalysis.value;
      var started := job.(totalStudents := |rows|, jobSkills := Some(jobSkills));
      jobs := jobs[jobId := started];
      var results := [];
      var i := 0;
      while i < |rows|
        invariant 0 <= i <= |rows|
        invariant jobs == before[jobId := started.(processedStudents := if i == 0 then job.processedStudents else i)]
        invariant results == ResultsUpTo(rows, analyses, jobSkills, i)
      {
        jobs := jobs[jobId := jobs[jobId].(processedStudents := i + 1)];
        assert jobs == before[jobId := started.(processedStudents := i + 1)];
        var r := ProcessStudent(rows[i], i, analyses[i], jobSkills);
        assert results + [r] == ResultsUpTo(rows, analyses, jobSkills, i + 1);
        results := results + [r];
        i := i + 1;
      }
      var finished := jobs[jobId].(status := "completed", results := Some(results), completedAt := Some(at));
      assert finished == Completed(job, rows, analyses, jobSkills, at);
      jobs := jobs[jobId := finished];
      assert jobs == before[jobId := finished];
      return Ok(results);
    }

    /** `GET /api/job/<id>`: 404 for an unknown id; results only once the job is completed. */
    function JobStatus(jobId: string): (r: StatusReply)
      reads this
      ensures jobId !in jobs <==> r == NotFound("Job not found")
      ensures r.Progress? ==> r.jobId == jobId && r.processedStudents == jobs[jobId].processedStudents
                              && r.totalStudents == jobs[jobId].totalStudents
      ensures r.Progress? && jobs[jobId].status != "completed" ==> r.results.None?
      ensures r.Progress? && jobs[jobId].status == "completed" ==> r.results == jobs[jobId].results
    {
      if jobId !in jobs then NotFound("Job not found")
      else
        var j := jobs[jobId];
        Progress(jobId, j.status, j.totalStudents, j.processedStudents,
                 if j.status == "completed" then j.results else None)
    }

    /** `POST /api/upload` up to the start of the background loop: the missing-part and
        empty-name checks, the two saves, the CSV read, the job description read by suffix,
        and the new job record; an exception outside the CSV read's own `try` answers 500
        with its message. `saveError` is what the first failing save raised, if one did (a
        secured name that is empty makes `file.save` target the upload folder itself and
        raise); `roster` is the CSV read's outcome, `pages` the pieces the chosen extractor
        yields and `plain` the outcome of reading the file as text. */
    method Upload(parts: map<string, Part>, saveError: Option<string>, roster: Result<seq<Records.Row>, string>,
                  pages: seq<Option<string>>, plain: Result<string, string>, jobId: string, now: string)
      returns (reply: UploadReply)
      modifies this
      ensures "csv" !in parts || "jobDesc" !in parts ==> reply == UploadError(400, "Missing files")
      ensures "csv" in parts && "jobDesc" in parts && (parts["csv"].filename == "" || parts["jobDesc"].filename == "") ==>
                reply == UploadError(400, "No selected files")
      ensures PartsPresent(parts) && saveError.Some? ==> reply == UploadError(500, saveError.value)
      ensures PartsPresent(parts) && saveError.None? && roster.Err? ==>
                reply == UploadError(400, "Error reading CSV file: " + roster.error)
      ensures PartsPresent(parts) && saveError.None? && roster.Ok?
              && JobDescriptionText(parts["jobDesc"].securedName, pages, plain).Err? ==>
                reply == UploadError(500, JobDescriptionText(parts["jobDesc"].securedName, pages, plain).error)
      ensures reply.UploadAccepted? <==>
                PartsPresent(parts) && saveError.None? && roster.Ok?
                && JobDescriptionText(parts["jobDesc"].securedName, pages, plain).Ok?
      ensures !reply.UploadAccepted? ==> jobs == old(jobs)
      ensures reply.UploadAccepted? ==>
                var text := JobDescriptionText(parts["jobDesc"].securedName, pages, plain).value;
                reply == UploadAccepted(jobId, "processing", "Files uploaded successfully and processing started")
                && jobs == old(jobs)[jobId := JobRecord(jobId, "processing", now, |roster.value|, 0, |text|,
                                                        parts["csv"].securedName, parts["jobDesc"].securedName,
                                                        None, None, None)]
    {
      if "csv" !in parts || "jobDesc" !in parts {
        return UploadError(400, "Missing files");
      }
      var csvPart := parts["csv"];
      var jdPart := parts["jobDesc"];
      if csvPart.filename == "" || jdPart.filename == "" {
        return UploadError(400, "No selected files");
      }
      if saveError.Some? {
        return UploadError(500, saveError.value);
      }
      if roster.Err? {
        return UploadError(400, "Error reading CSV file: " + roster.error);
      }
      var text := ReadJobDescription(jdPart.securedName, pages, plain);
      if text.Err? {
        return UploadError(500, text.error);
      }
      jobs := jobs[jobId := JobRecord(jobId, "processing", now, |roster.value|, 0, |text.value|,
                                      csvPart.securedName, jdPart.securedName, None, None, None)];
      reply := UploadAccepted(jobId, "processing", "Files uploaded successfully and processing started");
    }
  }

  /** Results exist only for a completed job, one per record: what a client polling the job
      after the loop reads back is exactly the loop's results. */
  lemma CompletedJobReports(j: JobRecord, rows: seq<Records.Row>, analyses: seq<Result<Skills, string>>, job: Skills, at: string)
    requires |rows| <= |analyses|
    ensures var c := Completed(j, rows, analyses, job, at);
            c.status == "completed" && c.results.Some? && |c.results.value| == |rows| == c.totalStudents
            && (rows != [] ==> c.processedStudents == c.totalStudents)
            && forall k :: 0 <= k < |rows| ==> c.results.value[k].name == StudentName(rows[k], k)
  {
    var c := Completed(j, rows, analyses, job, at);
    forall k | 0 <= k < |rows| ensures c.results.value[k].name == StudentName(rows[k], k) {
      ResultsInOrder(rows, analyses, job, |rows|, k);
      ResultShape(rows[k], k, analyses[k], job);
    }
  }
}
