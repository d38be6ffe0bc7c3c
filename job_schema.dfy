/** The Job document and the StudentResult entries embedded in it. */
module JobSchema {
  import opened Wrappers
  import opened SchemaRules
  import Text

  // ---------------------------------------------------------------- StudentResult

  datatype ResultStatus = Success | PartialSuccess | Failure | Processing

  function ResultStatusName(s: ResultStatus): string {
    match s
    case Success => "Success"
    case PartialSuccess => "Partial Success"
    case Failure => "Failure"
    case Processing => "Processing"
  }

  /** The enum check on `status`: a string passes exactly when it names one of the four values. */
  function ParseResultStatus(v: string): (r: Option<ResultStatus>)
    ensures r.Some? ==> ResultStatusName(r.value) == v
    ensures r.None? ==> forall s :: ResultStatusName(s) != v
  {
    if v == "Success" then Some(Success)
    else if v == "Partial Success" then Some(PartialSuccess)
    else if v == "Failure" then Some(Failure)
    else if v == "Processing" then Some(Processing)
    else None
  }

  /** A StudentResult as stored. */
  datatype StudentResult = StudentResult(
    name: string,
    email: string,
    rollNumber: string,
    status: ResultStatus,
    pdfPath: Option<string>,
    emailSent: bool,
    error: Option<string>,
    processedAt: Option<nat>)

  /** A StudentResult as a caller writes it, before defaults and validation. */
  datatype ResultDoc = ResultDoc(
    name: Option<string>,
    email: Option<string>,
    rollNumber: Option<string>,
    status: Option<string>,
    pdfPath: Option<string>,
    emailSent: Option<bool>,
    error: Option<string>,
    processedAt: Option<nat>)

  /** What the schema demands of a stored StudentResult. */
  predicate ValidResult(r: StudentResult) {
    r.name != "" && r.email != "" && r.rollNumber != ""
  }

  function ResultErrors(prefix: string, d: ResultDoc): seq<FieldError> {
    CheckRequired(prefix + "name", "name", d.name)
    + CheckRequired(prefix + "email", "email", d.email)
    + CheckRequired(prefix + "rollNumber", "rollNumber", d.rollNumber)
    + (if d.status.Some? && ParseResultStatus(d.status.value).None?
       then [EnumError(prefix + "status", "status", d.status.value)] else [])
  }

  /** Casting applies the defaults (`status` Processing, `emailSent` false) and rejects a
      missing or empty name, email or rollNumber and a status outside the enum. */
  function CastResult(prefix: string, d: ResultDoc): (r: Result<StudentResult, seq<FieldError>>)
    ensures r.Ok? <==> RequiredString(d.name) && RequiredString(d.email) && RequiredString(d.rollNumber)
                       && (d.status.None? || ParseResultStatus(d.status.value).Some?)
    ensures r.Ok? ==> ValidResult(r.value)
    ensures r.Ok? ==> r.value.name == d.name.value && r.value.email == d.email.value
                      && r.value.rollNumber == d.rollNumber.value
    ensures r.Ok? ==> ResultStatusName(r.value.status) == d.status.GetOr("Processing")
    ensures r.Ok? ==> r.value.emailSent == d.emailSent.GetOr(false)
    ensures r.Ok? ==> r.value.pdfPath == d.pdfPath && r.value.error == d.error && r.value.processedAt == d.processedAt
    ensures r.Err? ==> r.error != []
  {
    var errs := ResultErrors(prefix, d);
    if errs != [] then Err(errs)
    else
      var status := if d.status.None? then Processing else ParseResultStatus(d.status.value).value;
      Ok(StudentResult(d.name.value, d.email.value, d.rollNumber.value, status, d.pdfPath,
                       d.emailSent.GetOr(false), d.error, d.processedAt))
  }

  // ---------------------------------------------------------------- Job

  datatype JobStatus = JobProcessing | JobCompleted | JobFailed

  function JobStatusName(s: JobStatus): string {
    match s
    case JobProcessing => "processing"
    case JobCompleted => "completed"
    case JobFailed => "failed"
  }

  function ParseJobStatus(v: string): (r: Option<JobStatus>)
    ensures r.Some? ==> JobStatusName(r.value) == v
    ensures r.None? ==> forall s :: JobStatusName(s) != v
  {
    if v == "processing" then Some(JobProcessing)
    else if v == "completed" then Some(JobCompleted)
    else if v == "failed" then Some(JobFailed)
    else None
  }

  datatype Job = Job(
    jobId: string,
    status: JobStatus,
    createdAt: nat,
    completedAt: Option<nat>,
    totalStudents: nat,
    processedStudents: nat,
    jobDescriptionLength: Option<nat>,
    jobDescriptionTitle: Option<string>,
    results: seq<StudentResult>)

  datatype JobDoc = JobDoc(
    jobId: Option<string>,
    status: Option<string>,
    totalStudents: Option<nat>,
    processedStudents: Option<nat>,
    jobDescriptionLength: Option<nat>,
    jobDescriptionTitle: Option<string>,
    results: seq<ResultDoc>)

  function CastResults(d: seq<ResultDoc>, from: nat): (r: Result<seq<StudentResult>, seq<FieldError>>)
    ensures r.Ok? <==> forall i :: 0 <= i < |d| ==> CastResult("", d[i]).Ok?
    ensures r.Ok? ==> |r.value| == |d| && forall i :: 0 <= i < |d| ==> Ok(r.value[i]) == CastResult("", d[i])
  {
    if d == [] then Ok([])
    else
      var prefix := "results." + Text.NatToString(from) + ".";
      var head := CastResult(prefix, d[0]);
      var tail := CastResults(d[1..], from + 1);
      if head.Ok? && tail.Ok? then Ok([head.value] + tail.value)
      else Err((if head.Err? then head.error else []) + (if tail.Err? then tail.error else []))
  }

  function JobErrors(d: JobDoc): seq<FieldError> {
    CheckRequired("jobId", "jobId", d.jobId)
    + (if d.status.Some? && ParseJobStatus(d.status.value).None?
       then [EnumError("status", "status", d.status.value)] else [])
    + (if d.totalStudents.None? then [RequiredError("totalStudents", "totalStudents")] else [])
  }

  /** `new Job(doc).save()`: `jobId` and `totalStudents` are required, `status` defaults to
      processing and must be in the enum, `processedStudents` defaults to 0, `createdAt` to now,
      and every embedded result must cast. */
  function CastJob(d: JobDoc, now: nat): (r: Result<Job, string>)
    ensures r.Ok? <==> RequiredString(d.jobId) && d.totalStudents.Some?
                       && (d.status.None? || ParseJobStatus(d.status.value).Some?)
                       && forall i :: 0 <= i < |d.results| ==> CastResult("", d.results[i]).Ok?
    ensures r.Ok? ==> r.value.jobId == d.jobId.value && r.value.totalStudents == d.totalStudents.value
    ensures r.Ok? ==> JobStatusName(r.value.status) == d.status.GetOr("processing")
    ensures r.Ok? ==> r.value.processedStudents == d.processedStudents.GetOr(0)
    ensures r.Ok? ==> r.value.createdAt == now && r.value.completedAt.None?
    ensures r.Ok? ==> |r.value.results| == |d.results|
  {
    var results := CastResults(d.results, 0);
    var errs := JobErrors(d) + (if results.Err? then results.error else []);
    if errs != [] || results.Err? then Err(ValidationMessage("Job", errs))
    else
      var status := if d.status.None? then JobProcessing else ParseJobStatus(d.status.value).value;
      Ok(Job(d.jobId.value, status, now, None, d.totalStudents.value, d.processedStudents.GetOr(0),
             d.jobDescriptionLength, d.jobDescriptionTitle, results.value))
  }
}
