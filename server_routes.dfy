/** The Express server's own rules: which uploaded files are admitted, how they are named on
    disk, and the three read-only queries over stored jobs and students. */
module ServerRoutes {
  import opened Wrappers
  import Text
  import Sorting
  import FileUtils
  import JobSchema
  import StudentSchema
  import ReportSchema

  // ---------------------------------------------------------------- upload admission

  const UploadLimit: nat := 10 * 1024 * 1024

  const CsvMessage: string := "Only CSV files are allowed for student data"
  const JobDescriptionMessage: string := "Only PDF, DOCX, or TXT files are allowed for job descriptions"

  const FilterJobDescMimes: seq<string> := [FileUtils.MimePdf, FileUtils.MimeDocx, FileUtils.MimeText]

  /** The `fileFilter` as written: it admits `csv` and `jobDescription` files. */
  function FileFilter(field: string, mime: string): (r: Result<(), string>)
    ensures r.Ok? <==> (field == "csv" && mime == FileUtils.MimeCsv)
                       || (field == "jobDescription" && mime in FilterJobDescMimes)
    ensures r.Err? && field == "csv" ==> r.error == CsvMessage
    ensures r.Err? && field == "jobDescription" ==> r.error == JobDescriptionMessage
    ensures field != "csv" && field != "jobDescription" ==> r == Err("Unexpected field")
  {
    if field == "csv" then
      if mime == FileUtils.MimeCsv then Ok(()) else Err(CsvMessage)
    else if field == "jobDescription" then
      if mime in FilterJobDescMimes then Ok(()) else Err(JobDescriptionMessage)
    else Err("Unexpected field")
  }

  /** The upload route declares the fields `csv` and `jobDesc`, one file each. */
  const RouteFields: seq<string> := ["csv", "jobDesc"]

  /** Admission of one file by the upload middleware: a field the route does not declare, or
      a second file for a field, is an unexpected field; then the filter decides; then the size
      limit applies. `seen` counts the files of that field already admitted. */
  function AdmitWith(filter: (string, string) -> Result<(), string>,
                     field: string, mime: string, size: nat, seen: nat): Result<(), string> {
    if field !in RouteFields || seen >= 1 then Err("Unexpected field")
    else if filter(field, mime).Err? then filter(field, mime)
    else if size > UploadLimit then Err("File too large")
    else Ok(())
  }

  function Admit(field: string, mime: string, size: nat, seen: nat): (r: Result<(), string>)
    ensures r.Ok? ==> size <= UploadLimit && field in RouteFields && seen == 0
  {
    AdmitWith(FileFilter, field, mime, size, seen)
  }

  /** As written, no job-description file is ever admitted: the route's field `jobDesc` is one
      the filter refuses, and the filter's `jobDescription` is one the route refuses. So no
      request carries the two files the controller requires. */
  lemma NoJobDescriptionAdmitted(field: string, mime: string, size: nat, seen: nat)
    requires field != "csv"
    ensures Admit(field, mime, size, seen).Err?
  {
  }

  /** The concrete case: a plain-text job description under the route's own field name. */
  lemma JobDescTextRejected()
    ensures Admit("jobDesc", FileUtils.MimeText, 100, 0) == Err("Unexpected field")
  {
  }

  /** The filter the route evidently needs: keyed on `jobDesc`, the field it declares. */
  function FileFilterForRoute(field: string, mime: string): (r: Result<(), string>)
    ensures r.Ok? <==> (field == "csv" && mime == FileUtils.MimeCsv)
                       || (field == "jobDesc" && mime in FilterJobDescMimes)
  {
    if field == "csv" then
      if mime == FileUtils.MimeCsv then Ok(()) else Err(CsvMessage)
    else if field == "jobDesc" then
      if mime in FilterJobDescMimes then Ok(()) else Err(JobDescriptionMessage)
    else Err("Unexpected field")
  }

  function AdmitCorrected(field: string, mime: string, size: nat, seen: nat): (r: Result<(), string>)
  {
    AdmitWith(FileFilterForRoute, field, mime, size, seen)
  }

  /** With the corrected filter, a first file under a declared field is admitted exactly when
      its MIME type suits the field and it is within the size limit. */
  lemma AdmitCorrectedExactly(field: string, mime: string, size: nat)
    requires field in RouteFields
    ensures AdmitCorrected(field, mime, size, 0).Ok? <==>
              size <= UploadLimit
              && (if field == "csv" then mime == FileUtils.MimeCsv else mime in FilterJobDescMimes)
  {
  }

  /** The corrected filter admits a subset of what `validateFileMimeType` accepts: the same
      rule for `csv`, and for `jobDesc` everything but application/msword. */
  lemma CorrectedFilterWithinValidator(field: string, mime: string)
    ensures FileFilterForRoute(field, mime).Ok? <==>
              FileUtils.ValidateFileMimeType(field, mime).isValid && mime != FileUtils.MimeDoc
  {
  }

  // ---------------------------------------------------------------- stored file names

  /** The disk name of an upload: the upload time in milliseconds, a dash, the client's name. */
  function StoredFilename(now: nat, originalName: string): string {
    Text.NatToString(now) + "-" + originalName
  }

  /** The time and the original name can be read back from a stored name: the time is the
      digits before the first dash and the original name is everything after it. */
  lemma StoredFilenameParts(now: nat, originalName: string)
    ensures var s := StoredFilename(now, originalName);
            var d := Text.IndexOf(s, '-');
            d == |Text.NatToString(now)|
            && s[d + 1..] == originalName
            && Text.ParseDigits(s[..d]) == now
  {
    var digits := Text.NatToString(now);
    var s := StoredFilename(now, originalName);
    Text.NatToStringHasNo(now, '-');
    assert s[|digits|] == '-';
    assert forall k :: 0 <= k < |digits| ==> s[k] == digits[k];
    assert s[..|digits|] == digits;
    assert s[|digits| + 1..] == originalName;
    Text.ParseNatToString(now);
  }

  // ---------------------------------------------------------------- job queries

  function CreatedAt(j: JobSchema.Job): int { j.createdAt }

  /** `Job.find().sort({createdAt: -1}).limit(10)` over the collection in its natural order. */
  function RecentJobs(jobs: seq<JobSchema.Job>): seq<JobSchema.Job> {
    Sorting.TopN(jobs, CreatedAt, 10)
  }

  /** The list holds the ten newest jobs (all of them when there are fewer), newest first:
      every listed job is stored, and a stored job left out is no newer than any listed one. */
  lemma RecentJobsCorrect(jobs: seq<JobSchema.Job>)
    ensures |RecentJobs(jobs)| == if |jobs| < 10 then |jobs| else 10
    ensures Sorting.SortedDesc(RecentJobs(jobs), CreatedAt)
    ensures forall j :: j in RecentJobs(jobs) ==> j in jobs
    ensures forall j, k :: j in jobs && j !in RecentJobs(jobs) && 0 <= k < |RecentJobs(jobs)| ==>
              j.createdAt <= RecentJobs(jobs)[k].createdAt
  {
    Sorting.TopNSorted(jobs, CreatedAt, 10);
    Sorting.TopNMembers(jobs, CreatedAt, 10);
    forall j | j in jobs && j !in RecentJobs(jobs)
      ensures forall k :: 0 <= k < |RecentJobs(jobs)| ==> j.createdAt <= RecentJobs(jobs)[k].createdAt
    {
      Sorting.TopNExcluded(jobs, CreatedAt, 10, j);
    }
  }

  /** `GET /api/job/:jobId`: the first job with that id, or 404. */
  function FindJob(jobs: seq<JobSchema.Job>, jobId: string): (r: Result<JobSchema.Job, (int, string)>)
    ensures r.Ok? ==> r.value in jobs && r.value.jobId == jobId
    ensures r.Err? <==> forall k :: 0 <= k < |jobs| ==> jobs[k].jobId != jobId
    ensures r.Err? ==> r.error == (404, "Job not found")
  {
    if jobs == [] then Err((404, "Job not found"))
    else if jobs[0].jobId == jobId then Ok(jobs[0])
    else FindJob(jobs[1..], jobId)
  }

  // ---------------------------------------------------------------- student reports

  /** `populate('reports')`: each reference replaced by the report it names; a reference to a
      report that no longer exists is dropped. Reports are identified by their position. */
  function Populate(ids: seq<nat>, reports: seq<ReportSchema.Report>): (r: seq<ReportSchema.Report>)
    ensures |r| <= |ids|
    ensures forall x :: x in r ==> x in reports
    ensures (forall k :: 0 <= k < |ids| ==> ids[k] < |reports|) ==>
              |r| == |ids| && forall k :: 0 <= k < |ids| ==> r[k] == reports[ids[k]]
  {
    if ids == [] then []
    else if ids[0] < |reports| then [reports[ids[0]]] + Populate(ids[1..], reports)
    else Populate(ids[1..], reports)
  }

  /** `GET /api/student/:email/reports`: the student's reports in reference order, or 404. */
  function StudentReports(students: map<string, StudentSchema.Student>, reports: seq<ReportSchema.Report>,
                          email: string): (r: Result<seq<ReportSchema.Report>, (int, string)>)
    ensures r.Err? <==> email !in students
    ensures r.Err? ==> r.error == (404, "Student not found")
    ensures r.Ok? ==> r.value == Populate(students[email].reports, reports)
  {
    if email !in students then Err((404, "Student not found"))
    else Ok(Populate(students[email].reports, reports))
  }
}
