/** The Report document: one generated analysis of one student against one job description. */
module ReportSchema {
  import opened Wrappers
  import opened SchemaRules
  import Text

  datatype Report = Report(
    student: string,
    jobTitle: string,
    jobDescription: string,
    matchScore: Option<int>,
    strengths: seq<string>,
    weaknesses: seq<string>,
    recommendations: seq<string>,
    resources: seq<string>,
    pdfPath: string,
    llmResponse: string,
    createdAt: nat,
    jobId: string)

  /** A report as a caller writes it. `student` is the reference to the owning Student. */
  datatype ReportDoc = ReportDoc(
    student: Option<string>,
    jobTitle: Option<string>,
    jobDescription: Option<string>,
    matchScore: Option<int>,
    strengths: seq<string>,
    weaknesses: seq<string>,
    recommendations: seq<string>,
    resources: seq<string>,
    pdfPath: Option<string>,
    llmResponse: Option<string>,
    jobId: Option<string>)

  /** The decimal text of an integer, as JavaScript writes it. */
  function IntToString(v: int): string {
    if v < 0 then "-" + Text.NatToString(-v) else Text.NatToString(v)
  }

  /** The `min: 0, max: 100` checks of `matchScore`, which is optional. */
  function ScoreErrors(v: Option<int>): (errs: seq<FieldError>)
    ensures errs == [] <==> v.None? || 0 <= v.value <= 100
  {
    if v.None? then []
    else if v.value < 0 then
      [FieldError("matchScore", "Path `matchScore` (" + IntToString(v.value) + ") is less than minimum allowed value (0).")]
    else if v.value > 100 then
      [FieldError("matchScore", "Path `matchScore` (" + IntToString(v.value) + ") is more than maximum allowed value (100).")]
    else []
  }

  function ReportErrors(d: ReportDoc): (errs: seq<FieldError>)
    ensures errs == [] <==> RequiredString(d.student) && RequiredString(d.jobTitle) && RequiredString(d.jobDescription)
                            && RequiredString(d.pdfPath) && RequiredString(d.llmResponse) && RequiredString(d.jobId)
                            && (d.matchScore.None? || 0 <= d.matchScore.value <= 100)
  {
    var a := CheckRequired("student", "student", d.student);
    var b := CheckRequired("jobTitle", "jobTitle", d.jobTitle);
    var c := CheckRequired("jobDescription", "jobDescription", d.jobDescription);
    var e := ScoreErrors(d.matchScore);
    var f := CheckRequired("pdfPath", "pdfPath", d.pdfPath);
    var g := CheckRequired("llmResponse", "llmResponse", d.llmResponse);
    var h := CheckRequired("jobId", "jobId", d.jobId);
    assert |a + b + c + e + f + g + h| == |a| + |b| + |c| + |e| + |f| + |g| + |h|;
    a + b + c + e + f + g + h
  }

  /** `new Report(doc).save()`: six required fields, a score in [0, 100] when given, and
      `createdAt` set to the current time. */
  function CastReport(d: ReportDoc, now: nat): (r: Result<Report, string>)
    ensures r.Ok? <==> RequiredString(d.student) && RequiredString(d.jobTitle) && RequiredString(d.jobDescription)
                       && RequiredString(d.pdfPath) && RequiredString(d.llmResponse) && RequiredString(d.jobId)
                       && (d.matchScore.None? || 0 <= d.matchScore.value <= 100)
    ensures r.Ok? ==> r.value.student == d.student.value && r.value.jobTitle == d.jobTitle.value
                      && r.value.jobDescription == d.jobDescription.value && r.value.pdfPath == d.pdfPath.value
                      && r.value.llmResponse == d.llmResponse.value && r.value.jobId == d.jobId.value
    ensures r.Ok? ==> r.value.matchScore == d.matchScore && r.value.createdAt == now
    ensures r.Ok? ==> r.value.strengths == d.strengths && r.value.weaknesses == d.weaknesses
                      && r.value.recommendations == d.recommendations && r.value.resources == d.resources
    ensures r.Err? ==> r.error == ValidationMessage("Report", ReportErrors(d))
  {
    var errs := ReportErrors(d);
    if errs != [] then Err(ValidationMessage("Report", errs))
    else Ok(Report(d.student.value, d.jobTitle.value, d.jobDescription.value, d.matchScore,
                   d.strengths, d.weaknesses, d.recommendations, d.resources,
                   d.pdfPath.value, d.llmResponse.value, now, d.jobId.value))
  }
}
