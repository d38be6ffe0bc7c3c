/** `processStudentData`: check the submission, create a Job, then walk the roster in order,
    turning each record into exactly one StudentResult appended to the Job, and finally mark
    the Job completed. The document store is a `Database` object whose fields are the three
    collections and the processing log; every other service is an oracle. */
module StudentController {
  import opened Wrappers
  import Text
  import Records
  import FileUtils
  import LlmService
  import JobSchema
  import StudentSchema
  import ReportSchema

  // ---------------------------------------------------------------- state and oracles

  /** The stored collections: jobs by jobId, students by email (the unique key the controller
      looks them up by), reports by position (a report's id is its index), and the log. */
  datatype State = State(
    jobs: map<string, JobSchema.Job>,
    students: map<string, StudentSchema.Student>,
    reports: seq<ReportSchema.Report>,
    log: seq<string>)

  /** The store calls of one record's try block, in the order the source makes them:
      `Student.findOne`, `studentDoc.save`, `report.save`, `Student.findByIdAndUpdate` (the
      report reference) and `Job.findOneAndUpdate` (on the missing-data path or after delivery). */
  datatype StoreCall = FindStudent | SaveStudent | SaveReport | ReferenceReport | UpdateJob

  /** What the outside world does while one record is processed. Each store call succeeds or
      throws on its own: `throwsAt` is the call of the try block that throws, if the block gets
      that far (the calls after it are never made), and `catchUpdateThrows` says whether the
      catch block's own Job update throws as well. A store call throws `storeError`.
      `dirError` is what `createStudentDirectory(rollNumber)` throws, if it does: its
      `mkdirSync` runs before any store call of the block. */
  datatype RecordEnv = RecordEnv(
    dirError: Option<string>,
    throwsAt: Option<StoreCall>,
    catchUpdateThrows: bool,
    storeError: string,
    now: nat,
    random: nat,
    stamp: string,
    reply: LlmService.ProviderReply,
    pdf: Result<string, string>,
    emailSent: bool)

  /** A file the request carried: where it was stored and the client's name for it. */
  datatype Upload = Upload(path: string, originalName: string)

  datatype Submission = Submission(csv: Option<Upload>, jobDesc: Option<Upload>)

  /** What the outside world does during one request. `roster` is the CSV stream's outcome,
      `jobDescription` the raw outcome of the document parser, `jobId` the fresh uuid. */
  datatype Oracles = Oracles(
    roster: Result<seq<Records.Row>, string>,
    jobDescription: Result<string, string>,
    jobId: string,
    createdAt: nat,
    storeUp: bool,
    storeError: string,
    llm: LlmService.LlmEnv,
    records: nat -> RecordEnv,
    completionStoreUp: bool,
    completedAt: nat)

  datatype Body =
    | ErrorBody(error: string)
    | Accepted(jobId: string, status: string, message: string, totalStudents: nat)

  datatype Response = Response(code: nat, body: Body)

  /** The fixed inputs of the record loop. */
  datatype Context = Context(jobId: string, jobTitle: string, jobDescription: string, llm: LlmService.LlmEnv)

  // ---------------------------------------------------------------- record fields

  /** `row[key]` read as a string, `""` when absent. */
  function Value(row: Records.Row, key: string): string {
    Records.Get(row, key).GetOr("")
  }

  const RollKeys: seq<string> := ["Roll_Number", "ID", "StudentID"]

  /** The roll number of the try block: the first truthy roll column, else `student-<ms>-<n>`. */
  function RollNumber(row: Records.Row, now: nat, random: nat): string {
    Records.FirstTruthy(row, RollKeys, "student-" + Text.NatToString(now) + "-" + Text.NatToString(random % 1000))
  }

  /** The roll number of the catch block: the same chain ending in `unknown`. */
  function CatchRollNumber(row: Records.Row): string {
    Records.FirstTruthy(row, RollKeys, "unknown")
  }

  function DisplayName(row: Records.Row): string { Records.FirstTruthy(row, ["Name"], "Unknown") }
  function DisplayEmail(row: Records.Row): string { Records.FirstTruthy(row, ["Email"], "unknown@example.com") }

  predicate HasIdentity(row: Records.Row) {
    Records.Truthy(row, "Name") && Records.Truthy(row, "Email")
  }

  /** The job title: the first line of the first 100 characters, trimmed. */
  function JobTitle(jobDescription: string): (t: string)
    ensures |t| <= 100 && '\n' !in t
    ensures Text.IsInfix(t, jobDescription)
  {
    var head := if |jobDescription| <= 100 then jobDescription else jobDescription[..100];
    var first := Text.Split(head, '\n')[0];
    Text.SplitPartsOmitSeparator(head, '\n');
    FirstPartIsPrefix(head, '\n');
    var t := Text.Trim(first, Text.IsJsSpace);
    InfixOfPrefix(t, first, head);
    InfixOfPrefix(t, head, jobDescription);
    t
  }

  lemma InfixOfPrefix(t: string, p: string, s: string)
    requires |p| <= |s| && s[..|p|] == p
    requires Text.IsInfix(t, p)
    ensures Text.IsInfix(t, s)
  {
    var i :| 0 <= i <= |p| && Text.OccursAt(t, p, i);
    assert s[i..i + |t|] == p[i..i + |t|];
    assert Text.OccursAt(t, s, i);
  }

  lemma {:induction false} FirstPartIsPrefix(s: string, sep: char)
    ensures |Text.Split(s, sep)[0]| <= |s| && s[..|Text.Split(s, sep)[0]|] == Text.Split(s, sep)[0]
  {
    if s != [] {
      FirstPartIsPrefix(s[1..], sep);
    }
  }

  // ---------------------------------------------------------------- store updates

  /** The `$inc`/`$push` update: one result appended and the counter raised, together. */
  function AppendResult(st: State, jobId: string, r: JobSchema.StudentResult): State {
    if jobId in st.jobs then
      var j := st.jobs[jobId];
      st.(jobs := st.jobs[jobId := j.(results := j.results + [r], processedStudents := j.processedStudents + 1)])
    else st
  }

  function Log(st: State, line: string): State {
    st.(log := st.log + [line])
  }

  function FailureResult(row: Records.Row, rollNumber: string, error: string, now: nat): JobSchema.StudentResult {
    JobSchema.StudentResult(DisplayName(row), DisplayEmail(row), rollNumber, JobSchema.Failure,
                            None, false, Some(error), Some(now))
  }

  /** The result object the source writes for a failure: no `pdfPath`, no `emailSent`. */
  function FailureDoc(row: Records.Row, rollNumber: string, error: string, now: nat): JobSchema.ResultDoc {
    JobSchema.ResultDoc(Some(DisplayName(row)), Some(DisplayEmail(row)), Some(rollNumber), Some("Failure"),
                        None, None, Some(error), Some(now))
  }

  const MissingDataError: string := "Missing required student data"
  const MissingDataLog: string := "Missing required student data (Name or Email)"

  predicate Throws(env: RecordEnv, call: StoreCall) {
    env.throwsAt == Some(call)
  }

  /** The result of one loop iteration: carry on, or an exception escaped the loop. */
  datatype Step = Continue(st: State) | Abort(st: State)

  /** The outer `catch` of one record: log the failure, then append a Failure result; when that
      update throws too, the exception escapes the loop. */
  function Catch(st: State, ctx: Context, row: Records.Row, env: RecordEnv, message: string): Step {
    var roll := CatchRollNumber(row);
    var logged := Log(st, FileUtils.LogLine(env.stamp, roll, "Failure", Some(message)));
    if env.catchUpdateThrows then Abort(logged)
    else Continue(AppendResult(logged, ctx.jobId, FailureResult(row, roll, message, env.now)))
  }

  // ---------------------------------------------------------------- find or create the student

  function SkillDocs(skills: seq<Records.RawSkill>): (d: seq<StudentSchema.SkillDoc>)
    ensures |d| == |skills|
    ensures forall k :: 0 <= k < |skills| ==> d[k] == StudentSchema.SkillDoc(Some(skills[k].name), Some(skills[k].level))
  {
    if skills == [] then [] else [StudentSchema.SkillDoc(Some(skills[0].name), Some(skills[0].level))] + SkillDocs(skills[1..])
  }

  /** The Student document written for a record whose email is not yet stored. */
  function NewStudentDoc(row: Records.Row, rollNumber: string): StudentSchema.StudentDoc {
    StudentSchema.StudentDoc(
      Some(Value(row, "Name")), Some(Value(row, "Email")), Some(rollNumber),
      Records.EitherOr(row, "University", "College"), Records.Get(row, "Degree"),
      Records.EitherOr(row, "Major", "Specialization"), Records.Get(row, "Graduation_Year"),
      SkillDocs(Records.SkillsUpTo(row, 5)))
  }

  predicate RollTaken(students: map<string, StudentSchema.Student>, rollNumber: string) {
    exists e | e in students :: students[e].rollNumber == rollNumber
  }

  /** The message of the unique-index violation on `rollNumber`. */
  function DuplicateRollMessage(rollNumber: string): string {
    "E11000 duplicate key error collection: students index: rollNumber_1 dup key: { rollNumber: \"" + rollNumber + "\" }"
  }

  /** `Student.findOne({email})`, and when there is none, `new Student(...).save()`, which
      validates the document before the store is asked. `throwsAt` names the store call that
      throws `storeError`, if any. */
  function FindOrCreate(st: State, row: Records.Row, rollNumber: string, now: nat,
                        throwsAt: Option<StoreCall>, storeError: string): (r: Result<State, string>)
    ensures throwsAt == Some(FindStudent) ==> r == Err(storeError)
    ensures r.Ok? ==> Value(row, "Email") in r.value.students
    ensures r.Ok? ==> r.value.jobs == st.jobs && r.value.reports == st.reports && r.value.log == st.log
    ensures r.Ok? && Value(row, "Email") in st.students ==> r.value == st
    ensures Value(row, "Email") in st.students && throwsAt != Some(FindStudent) ==> r.Ok?
    ensures r.Ok? && Value(row, "Email") !in st.students ==>
              r.value.students == st.students[Value(row, "Email") := r.value.students[Value(row, "Email")]]
              && throwsAt != Some(SaveStudent) && !RollTaken(st.students, rollNumber)
              && Ok(r.value.students[Value(row, "Email")]) == StudentSchema.CastStudent(NewStudentDoc(row, rollNumber), now)
    ensures r.Err? ==> Value(row, "Email") !in st.students || throwsAt == Some(FindStudent)
  {
    var email := Value(row, "Email");
    if throwsAt == Some(FindStudent) then Err(storeError)
    else if email in st.students then Ok(st)
    else match StudentSchema.CastStudent(NewStudentDoc(row, rollNumber), now)
      case Err(m) => Err(m)
      case Ok(s) =>
        if throwsAt == Some(SaveStudent) then Err(storeError)
        else if RollTaken(st.students, rollNumber) then Err(DuplicateRollMessage(rollNumber))
        else Ok(st.(students := st.students[email := s]))
  }

  // ---------------------------------------------------------------- one record

  /** The try block after validation ends either done, or failed with a message in the state
      reached so far (a Student created before the failure stays). */
  datatype Outcome = Done(st: State) | Failed(st: State, message: string)

  function ReportDocFor(row: Records.Row, ctx: Context, pdfPath: string, llmResponse: Option<string>): ReportSchema.ReportDoc {
    ReportSchema.ReportDoc(Some(Value(row, "Email")), Some(ctx.jobTitle), Some(ctx.jobDescription), None,
                           [], [], [], [], Some(pdfPath), llmResponse, Some(ctx.jobId))
  }

  function StatusFor(emailSent: bool): JobSchema.ResultStatus {
    if emailSent then JobSchema.Success else JobSchema.PartialSuccess
  }

  function DeliveryMessage(emailSent: bool): string {
    if emailSent then "Completed successfully" else "PDF generated but email not sent"
  }

  /** The result of a delivered record. */
  function DeliveryResult(row: Records.Row, env: RecordEnv, rollNumber: string, pdfPath: string): JobSchema.StudentResult {
    JobSchema.StudentResult(Value(row, "Name"), Value(row, "Email"), rollNumber, StatusFor(env.emailSent),
                            Some(pdfPath), env.emailSent, None, Some(env.now))
  }

  /** Store the report, reference it from the student, deliver, log and append the result.
      Each of the three store calls may throw; what was stored before it stays. */
  function Deliver(st: State, ctx: Context, row: Records.Row, env: RecordEnv, rollNumber: string,
                   pdfPath: string, report: ReportSchema.Report): Outcome
    requires Value(row, "Email") in st.students
  {
    var email := Value(row, "Email");
    var id := |st.reports|;
    if Throws(env, SaveReport) then Failed(st, env.storeError)
    else
      var withReport := st.(reports := st.reports + [report]);
      if Throws(env, ReferenceReport) then Failed(withReport, env.storeError)
      else
        var s := st.students[email];
        var referenced := withReport.(students := st.students[email := s.(reports := s.reports + [id])]);
        var logged := Log(referenced, FileUtils.LogLine(env.stamp, rollNumber, JobSchema.ResultStatusName(StatusFor(env.emailSent)),
                                                        Some(DeliveryMessage(env.emailSent))));
        if Throws(env, UpdateJob) then Failed(logged, env.storeError)
        else Done(AppendResult(logged, ctx.jobId, DeliveryResult(row, env, rollNumber, pdfPath)))
  }

  /** The try block for a record with a name and an email: the roll number, the student's
      output directory, then find-or-create and generation. */
  function Attempt(st: State, ctx: Context, row: Records.Row, env: RecordEnv): Outcome {
    var rollNumber := RollNumber(row, env.now, env.random);
    if env.dirError.Some? then Failed(st, env.dirError.value)
    else match FindOrCreate(st, row, rollNumber, env.now, env.throwsAt, env.storeError)
    case Err(m) => Failed(st, m)
    case Ok(st1) => Generate(st1, ctx, row, env, rollNumber)
  }

  /** Generation, rendering, the report and delivery, once the student is stored. The call
      `llmService.generateDocument(studentData, jobDescription)` is represented by its outcome,
      which `LlmService.OutcomeIgnoresPrompt` shows equal to what `LlmService.GenerateDocument`
      gives for this row and job description. */
  function Generate(st1: State, ctx: Context, row: Records.Row, env: RecordEnv, rollNumber: string): Outcome
    requires Value(row, "Email") in st1.students
  {
    var outcome := LlmService.DocumentOutcome(ctx.llm, env.reply);
    if outcome.Err? then Failed(st1, outcome.error)
    else match env.pdf
      case Err(m) => Failed(st1, m)
      case Ok(pdfPath) =>
        match ReportSchema.CastReport(ReportDocFor(row, ctx, pdfPath, outcome.value), env.now)
        case Err(m) => Failed(st1, m)
        case Ok(report) => Deliver(st1, ctx, row, env, rollNumber, pdfPath, report)
  }

  /** One iteration of the record loop: the missing-data path or the try block, each of which
      hands a thrown exception to the catch. */
  function RecordStep(st: State, ctx: Context, row: Records.Row, env: RecordEnv): Step {
    if !HasIdentity(row) then
      var logged := Log(st, FileUtils.LogLine(env.stamp, "Unknown", "Failure", Some(MissingDataLog)));
      if Throws(env, UpdateJob) then Catch(logged, ctx, row, env, env.storeError)
      else Continue(AppendResult(logged, ctx.jobId, FailureResult(row, "unknown", MissingDataError, env.now)))
    else match Attempt(st, ctx, row, env)
      case Done(s) => Continue(s)
      case Failed(s, m) => Catch(s, ctx, row, env, m)
  }

  /** The loop from record `i` on. */
  function Run(st: State, ctx: Context, rows: seq<Records.Row>, envs: nat -> RecordEnv, i: nat): Step
    decreases |rows| - i
  {
    if i >= |rows| then Continue(st)
    else match RecordStep(st, ctx, rows[i], envs(i))
      case Abort(s) => Abort(s)
      case Continue(s) => Run(s, ctx, rows, envs, i + 1)
  }

  // ---------------------------------------------------------------- the request

  function CompleteJob(st: State, jobId: string, at: nat): State {
    if jobId in st.jobs then
      st.(jobs := st.jobs[jobId := st.jobs[jobId].(status := JobSchema.JobCompleted, completedAt := Some(at))])
    else st
  }

  function JobDocFor(jobId: string, total: nat, jobDescription: string): JobSchema.JobDoc {
    JobSchema.JobDoc(Some(jobId), Some("processing"), Some(total), Some(0), Some(|jobDescription|),
                     Some(JobTitle(jobDescription)), [])
  }

  function DuplicateJobMessage(jobId: string): string {
    "E11000 duplicate key error collection: jobs index: jobId_1 dup key: { jobId: \"" + jobId + "\" }"
  }

  /** The parser the job description's lower-cased extension selects, if it is one of the three. */
  function JobDescParser(originalName: string): (p: Option<FileUtils.Parser>)
    ensures p.Some? ==> p.value != FileUtils.CsvParser
  {
    var ext := Text.AsciiLower(FileUtils.ExtName(originalName));
    if ext == ".pdf" then Some(FileUtils.PdfParser)
    else if ext == ".docx" then Some(FileUtils.DocxParser)
    else if ext == ".txt" then Some(FileUtils.TxtParser)
    else None
  }

  /** The checks before any Job exists: the roster rows and the job description, or the
      response that ends the request. */
  function Admission(sub: Submission, o: Oracles): Result<(seq<Records.Row>, string), Response> {
    if sub.csv.None? || sub.jobDesc.None? then
      Err(Response(400, ErrorBody("Both CSV and job description files are required")))
    else if o.roster.Err? then Err(Response(500, ErrorBody(o.roster.error)))
    else if o.roster.value == [] then Err(Response(400, ErrorBody("No student data found in CSV file")))
    else match JobDescParser(sub.jobDesc.value.originalName)
      case None => Err(Response(400, ErrorBody("Unsupported job description file format")))
      case Some(p) =>
        match FileUtils.ParseDocument(p, o.jobDescription)
        case Err(m) => Err(Response(500, ErrorBody(m)))
        case Ok(jd) => Ok((o.roster.value, jd))
  }

  /** The whole request: the new state and the response sent. */
  function ProcessSubmission(st: State, sub: Submission, o: Oracles): (State, Response) {
    match Admission(sub, o)
    case Err(resp) => (st, resp)
    case Ok((rows, jd)) =>
      if !o.storeUp then (st, Response(500, ErrorBody(o.storeError)))
      else match JobSchema.CastJob(JobDocFor(o.jobId, |rows|, jd), o.createdAt)
        case Err(m) => (st, Response(500, ErrorBody(m)))
        case Ok(job) =>
          if o.jobId in st.jobs then (st, Response(500, ErrorBody(DuplicateJobMessage(o.jobId))))
          else
            var started := st.(jobs := st.jobs[o.jobId := job]);
            var resp := Response(202, Accepted(o.jobId, "processing", "Processing started", |rows|));
            var ctx := Context(o.jobId, JobTitle(jd), jd, o.llm);
            match Run(started, ctx, rows, o.records, 0)
            case Abort(s) => (s, resp)
            case Continue(s) => (if o.completionStoreUp then CompleteJob(s, o.jobId, o.completedAt) else s, resp)
  }

  // ---------------------------------------------------------------- the store, imperatively

  class Database {
    var jobs: map<string, JobSchema.Job>
    var students: map<string, StudentSchema.Student>
    var reports: seq<ReportSchema.Report>
    var log: seq<string>

    function Snapshot(): State
      reads this
    {
      State(jobs, students, reports, log)
    }

    constructor (initial: State)
      ensures Snapshot() == initial
    {
      jobs := initial.jobs;
      students := initial.students;
      reports := initial.reports;
      log := initial.log;
    }

    /** `logStatus(...)`: one line appended to the processing log. */
    method LogStatus(stamp: string, rollNumber: string, status: string, message: string)
      modifies this
      ensures Snapshot() == Log(old(Snapshot()), FileUtils.LogLine(stamp, rollNumber, status, Some(message)))
    {
      log := log + [FileUtils.LogLine(stamp, rollNumber, status, Some(message))];
    }

    /** `Job.findOneAndUpdate({jobId}, {$inc: {processedStudents: 1}, $push: {results: r}})`. */
    method PushResult(jobId: string, r: JobSchema.StudentResult)
      modifies this
      ensures Snapshot() == AppendResult(old(Snapshot()), jobId, r)
    {
      if jobId in jobs {
        var j := jobs[jobId];
        jobs := jobs[jobId := j.(results := j.results + [r], processedStudents := j.processedStudents + 1)];
      }
    }

    /** The student lookup and, for a new email, the creation with the skills loop. */
    method FindOrCreateStudent(row: Records.Row, rollNumber: string, now: nat,
                               throwsAt: Option<StoreCall>, storeError: string) returns (err: Option<string>)
      modifies this
      ensures var r := FindOrCreate(old(Snapshot()), row, rollNumber, now, throwsAt, storeError);
              if err.None? then r == Ok(Snapshot()) else r == Err(err.value) && Snapshot() == old(Snapshot())
    {
      if throwsAt == Some(FindStudent) {
        return Some(storeError);
      }
      var email := Value(row, "Email");
      if email in students {
        return None;
      }
      var raw := Records.ExtractSkills(row);
      var doc := StudentSchema.StudentDoc(
        Some(Value(row, "Name")), Some(email), Some(rollNumber),
        Records.EitherOr(row, "University", "College"), Records.Get(row, "Degree"),
        Records.EitherOr(row, "Major", "Specialization"), Records.Get(row, "Graduation_Year"),
        SkillDocs(raw));
      assert doc == NewStudentDoc(row, rollNumber);
      var cast := StudentSchema.CastStudent(doc, now);
      if cast.Err? {
        return Some(cast.error);
      }
      if throwsAt == Some(SaveStudent) {
        return Some(storeError);
      }
      if RollTaken(students, rollNumber) {
        return Some(DuplicateRollMessage(rollNumber));
      }
      students := students[email := cast.value];
      return None;
    }

    /** The try block after validation, as the source runs it. */
    method TryRecord(ctx: Context, row: Records.Row, env: RecordEnv) returns (err: Option<string>)
      modifies this
      ensures var o := Attempt(old(Snapshot()), ctx, row, env);
              if err.None? then o == Done(Snapshot()) else o == Failed(Snapshot(), err.value)
    {
      var rollNumber := RollNumber(row, env.now, env.random);
      if env.dirError.Some? {
        return env.dirError;
      }
      err := FindOrCreateStudent(row, rollNumber, env.now, env.throwsAt, env.storeError);
      if err.Some? {
        return;
      }
      err := GenerateAndDeliver(ctx, row, env, rollNumber);
    }

    method GenerateAndDeliver(ctx: Context, row: Records.Row, env: RecordEnv, rollNumber: string) returns (err: Option<string>)
      requires Value(row, "Email") in students
      modifies this
      ensures var o := Generate(old(Snapshot()), ctx, row, env, rollNumber);
              if err.None? then o == Done(Snapshot()) else o == Failed(Snapshot(), err.value)
    {
      var outcome := LlmService.DocumentOutcome(ctx.llm, env.reply);
      if outcome.Err? {
        return Some(outcome.error);
      }
      if env.pdf.Err? {
        return Some(env.pdf.error);
      }
      var pdfPath := env.pdf.value;
      var cast := ReportSchema.CastReport(ReportDocFor(row, ctx, pdfPath, outcome.value), env.now);
      if cast.Err? {
        return Some(cast.error);
      }
      err := DeliverReport(ctx, row, env, rollNumber, pdfPath, cast.value);
    }

    method DeliverReport(ctx: Context, row: Records.Row, env: RecordEnv, rollNumber: string,
                         pdfPath: string, report: ReportSchema.Report) returns (err: Option<string>)
      requires Value(row, "Email") in students
      modifies this
      ensures var o := Deliver(old(Snapshot()), ctx, row, env, rollNumber, pdfPath, report);
              if err.None? then o == Done(Snapshot()) else o == Failed(Snapshot(), err.value)
    {
      if Throws(env, SaveReport) {
        return Some(env.storeError);
      }
      var email := Value(row, "Email");
      var id := |reports|;
      reports := reports + [report];
      if Throws(env, ReferenceReport) {
        return Some(env.storeError);
      }
      var s := students[email];
      students := students[email := s.(reports := s.reports + [id])];
      var status := StatusFor(env.emailSent);
      LogStatus(env.stamp, rollNumber, JobSchema.ResultStatusName(status), DeliveryMessage(env.emailSent));
      if Throws(env, UpdateJob) {
        return Some(env.storeError);
      }
      PushResult(ctx.jobId, DeliveryResult(row, env, rollNumber, pdfPath));
      return None;
    }

    /** The outer `catch`; `aborted` when its own Job update throws. */
    method CatchFailure(ctx: Context, row: Records.Row, env: RecordEnv, message: string) returns (aborted: bool)
      modifies this
      ensures Catch(old(Snapshot()), ctx, row, env, message) == (if aborted then Abort(Snapshot()) else Continue(Snapshot()))
    {
      var roll := CatchRollNumber(row);
      LogStatus(env.stamp, roll, "Failure", message);
      if env.catchUpdateThrows {
        return true;
      }
      PushResult(ctx.jobId, FailureResult(row, roll, message, env.now));
      return false;
    }

    /** One iteration of the record loop; `aborted` when an exception escapes it. */
    method ProcessRecord(ctx: Context, row: Records.Row, env: RecordEnv) returns (aborted: bool)
      modifies this
      ensures RecordStep(old(Snapshot()), ctx, row, env) == (if aborted then Abort(Snapshot()) else Continue(Snapshot()))
    {
      if !HasIdentity(row) {
        LogStatus(env.stamp, "Unknown", "Failure", MissingDataLog);
        if Throws(env, UpdateJob) {
          aborted := CatchFailure(ctx, row, env, env.storeError);
          return;
        }
        PushResult(ctx.jobId, FailureResult(row, "unknown", MissingDataError, env.now));
        return false;
      }
      var err := TryRecord(ctx, row, env);
      if err.Some? {
        aborted := CatchFailure(ctx, row, env, err.value);
        return;
      }
      return false;
    }

    /** `processStudentData(req, res)`. */
    method ProcessStudentData(sub: Submission, o: Oracles) returns (resp: Response)
      modifies this
      ensures (Snapshot(), resp) == ProcessSubmission(old(Snapshot()), sub, o)
    {
      var admitted := Admission(sub, o);
      if admitted.Err? {
        return admitted.error;
      }
      var rows := admitted.value.0;
      var jd := admitted.value.1;
      if !o.storeUp {
        return Response(500, ErrorBody(o.storeError));
      }
      var cast := JobSchema.CastJob(JobDocFor(o.jobId, |rows|, jd), o.createdAt);
      if cast.Err? {
        return Response(500, ErrorBody(cast.error));
      }
      if o.jobId in jobs {
        return Response(500, ErrorBody(DuplicateJobMessage(o.jobId)));
      }
      jobs := jobs[o.jobId := cast.value];
      resp := Response(202, Accepted(o.jobId, "processing", "Processing started", |rows|));
      var ctx := Context(o.jobId, JobTitle(jd), jd, o.llm);
      ghost var started := Snapshot();
      var i := 0;
      var aborted := false;
      while i < |rows| && !aborted
        invariant 0 <= i <= |rows|
        invariant Run(started, ctx, rows, o.records, 0) ==
                  (if aborted then Abort(Snapshot()) else Run(Snapshot(), ctx, rows, o.records, i))
        decreases |rows| - i, if aborted then 0 else 1
      {
        aborted := ProcessRecord(ctx, rows[i], o.records(i));
        i := i + 1;
      }
      if aborted {
        return;
      }
      if o.completionStoreUp && o.jobId in jobs {
        jobs := jobs[o.jobId := jobs[o.jobId].(status := JobSchema.JobCompleted, completedAt := Some(o.completedAt))];
      }
    }
  }
}
