/** What the record loop of `processStudentData` guarantees, stated over its specification. */
module ControllerProperties {
  import opened Wrappers
  import Text
  import Records
  import FileUtils
  import LlmService
  import JobSchema
  import StudentSchema
  import ReportSchema
  import opened StudentController

  // ---------------------------------------------------------------- results and counter

  /** `after` is `before` with one result per record of `rows` appended, in order, each naming
      that record's student, and the counter raised by the same amount; nothing else changed. */
  predicate Extends(before: JobSchema.Job, after: JobSchema.Job, rows: seq<Records.Row>) {
    |after.results| == |before.results| + |rows|
    && after.results[..|before.results|] == before.results
    && after.processedStudents == before.processedStudents + |rows|
    && after.(results := before.results, processedStudents := before.processedStudents) == before
    && forall k :: 0 <= k < |rows| ==>
         after.results[|before.results| + k].name == DisplayName(rows[k])
         && after.results[|before.results| + k].email == DisplayEmail(rows[k])
         && JobSchema.ValidResult(after.results[|before.results| + k])
  }

  lemma ExtendsNothing(j: JobSchema.Job)
    ensures Extends(j, j, [])
  {
    assert j.results[..|j.results|] == j.results;
  }

  lemma ExtendsTrans(a: JobSchema.Job, b: JobSchema.Job, c: JobSchema.Job, r1: seq<Records.Row>, r2: seq<Records.Row>)
    requires Extends(a, b, r1) && Extends(b, c, r2)
    ensures Extends(a, c, r1 + r2)
  {
    assert c.results[..|a.results|] == c.results[..|b.results|][..|a.results|];
    forall k | 0 <= k < |r1 + r2|
      ensures c.results[|a.results| + k].name == DisplayName((r1 + r2)[k])
              && c.results[|a.results| + k].email == DisplayEmail((r1 + r2)[k])
              && JobSchema.ValidResult(c.results[|a.results| + k])
    {
      if k < |r1| {
        assert c.results[|a.results| + k] == c.results[..|b.results|][|a.results| + k];
      } else {
        assert (r1 + r2)[k] == r2[k - |r1|];
      }
    }
  }

  function Appended(j: JobSchema.Job, r: JobSchema.StudentResult): JobSchema.Job {
    j.(results := j.results + [r], processedStudents := j.processedStudents + 1)
  }

  lemma AppendedExtends(j: JobSchema.Job, r: JobSchema.StudentResult, row: Records.Row)
    requires r.name == DisplayName(row) && r.email == DisplayEmail(row) && JobSchema.ValidResult(r)
    ensures Extends(j, Appended(j, r), [row])
  {
    assert (j.results + [r])[..|j.results|] == j.results;
  }

  lemma DisplayNonEmpty(row: Records.Row)
    ensures DisplayName(row) != "" && DisplayEmail(row) != ""
  {
  }

  lemma RollNumberNonEmpty(row: Records.Row, now: nat, random: nat)
    ensures RollNumber(row, now, random) != "" && CatchRollNumber(row) != ""
  {
  }

  /** Generation, once the student is stored, either fails before anything is stored, leaving
      the state as it was, or validates a report of this job for this student and hands it to
      delivery, whose store calls may still throw (see `DeliverShape`). */
  lemma GenerateShape(st1: State, ctx: Context, row: Records.Row, env: RecordEnv, roll: string)
    requires Value(row, "Email") in st1.students
    ensures var o := Generate(st1, ctx, row, env, roll);
            (o.Failed? && o.st == st1)
            || (env.pdf.Ok? && ctx.jobTitle != ""
                && exists report: ReportSchema.Report ::
                     report.jobId == ctx.jobId && report.student == Value(row, "Email")
                     && o == Deliver(st1, ctx, row, env, roll, env.pdf.value, report))
  {
    var o := Generate(st1, ctx, row, env, roll);
    var outcome := LlmService.DocumentOutcome(ctx.llm, env.reply);
    if outcome.Ok? && env.pdf.Ok? {
      var cast := ReportSchema.CastReport(ReportDocFor(row, ctx, env.pdf.value, outcome.value), env.now);
      if cast.Ok? {
        assert o == Deliver(st1, ctx, row, env, roll, env.pdf.value, cast.value);
      }
    }
  }

  /** Delivery, store call by store call: a throwing `report.save` stores nothing; a throwing
      reference update leaves the stored report behind, unreferenced; a throwing Job update
      leaves the report, its reference and the delivery log line behind. No failure touches a
      job, and delivery completes exactly when none of its three store calls throws. */
  lemma DeliverShape(st: State, ctx: Context, row: Records.Row, env: RecordEnv, roll: string,
                     pdfPath: string, report: ReportSchema.Report)
    requires Value(row, "Email") in st.students
    ensures var o := Deliver(st, ctx, row, env, roll, pdfPath, report);
            var email := Value(row, "Email");
            var referenced := st.students[email := st.students[email].(reports := st.students[email].reports + [|st.reports|])];
            var line := FileUtils.LogLine(env.stamp, roll, JobSchema.ResultStatusName(StatusFor(env.emailSent)),
                                          Some(DeliveryMessage(env.emailSent)));
            (Throws(env, SaveReport) ==> o == Failed(st, env.storeError))
            && (!Throws(env, SaveReport) ==> o.st.reports == st.reports + [report])
            && (Throws(env, ReferenceReport) ==> o.Failed? && o.st.students == st.students && o.st.log == st.log)
            && (!Throws(env, SaveReport) && !Throws(env, ReferenceReport) ==>
                  o.st.students == referenced && o.st.log == st.log + [line])
            && (o.Failed? ==> o.st.jobs == st.jobs && o.message == env.storeError)
            && (o.Done? <==> !Throws(env, SaveReport) && !Throws(env, ReferenceReport) && !Throws(env, UpdateJob))
            && (o.Done? ==> o.st == AppendResult(o.st.(jobs := st.jobs), ctx.jobId, DeliveryResult(row, env, roll, pdfPath)))
  {
  }

  /** The try block either fails in the state it reached (the state before it, the state with
      the new Student, or a delivery cut short by a throwing store call) or finds or creates
      the student and completes delivery of a report of this job for this student. */
  lemma AttemptShape(st: State, ctx: Context, row: Records.Row, env: RecordEnv)
    ensures var o := Attempt(st, ctx, row, env);
            var roll := RollNumber(row, env.now, env.random);
            var f := FindOrCreate(st, row, roll, env.now, env.throwsAt, env.storeError);
            (o.Failed? ==>
               o.st == st
               || (f.Ok? && (o.st == f.value
                             || (env.pdf.Ok? && exists report: ReportSchema.Report ::
                                   report.jobId == ctx.jobId && report.student == Value(row, "Email")
                                   && o == Deliver(f.value, ctx, row, env, roll, env.pdf.value, report)))))
            && (o.Done? ==>
                  f.Ok? && env.pdf.Ok? && ctx.jobTitle != ""
                  && exists report: ReportSchema.Report ::
                       report.jobId == ctx.jobId && report.student == Value(row, "Email")
                       && o == Deliver(f.value, ctx, row, env, roll, env.pdf.value, report))
  {
    var f := FindOrCreate(st, row, RollNumber(row, env.now, env.random), env.now, env.throwsAt, env.storeError);
    if f.Ok? {
      GenerateShape(f.value, ctx, row, env, RollNumber(row, env.now, env.random));
    }
  }

  /** The try block, when it fails, has left the job untouched; when it completes, it has
      appended exactly the delivery result. */
  lemma AttemptJobs(st: State, ctx: Context, row: Records.Row, env: RecordEnv)
    requires ctx.jobId in st.jobs
    ensures Attempt(st, ctx, row, env).Failed? ==> Attempt(st, ctx, row, env).st.jobs == st.jobs
    ensures Attempt(st, ctx, row, env).Done? ==>
              env.pdf.Ok?
              && Attempt(st, ctx, row, env).st.jobs ==
                 st.jobs[ctx.jobId := Appended(st.jobs[ctx.jobId],
                                               DeliveryResult(row, env, RollNumber(row, env.now, env.random), env.pdf.value))]
  {
    var roll := RollNumber(row, env.now, env.random);
    var f := FindOrCreate(st, row, roll, env.now, env.throwsAt, env.storeError);
    if env.dirError.None? && f.Ok? {
      assert Attempt(st, ctx, row, env) == Generate(f.value, ctx, row, env, roll);
      GenerateJobs(f.value, ctx, row, env, roll);
    }
  }

  lemma GenerateJobs(st1: State, ctx: Context, row: Records.Row, env: RecordEnv, roll: string)
    requires Value(row, "Email") in st1.students && ctx.jobId in st1.jobs
    ensures var o := Generate(st1, ctx, row, env, roll);
            (o.Failed? ==> o.st.jobs == st1.jobs)
            && (o.Done? ==>
                  env.pdf.Ok?
                  && o.st.jobs == st1.jobs[ctx.jobId := Appended(st1.jobs[ctx.jobId], DeliveryResult(row, env, roll, env.pdf.value))])
  {
    var outcome := LlmService.DocumentOutcome(ctx.llm, env.reply);
    if outcome.Ok? && env.pdf.Ok? {
      var cast := ReportSchema.CastReport(ReportDocFor(row, ctx, env.pdf.value, outcome.value), env.now);
      if cast.Ok? {
        assert Generate(st1, ctx, row, env, roll) == Deliver(st1, ctx, row, env, roll, env.pdf.value, cast.value);
        DeliverShape(st1, ctx, row, env, roll, env.pdf.value, cast.value);
      }
    }
  }

  /** Every iteration that does not abort appends exactly one result for its record and raises
      the counter with it; an aborted iteration leaves the job as it was. */
  lemma RecordStepExtends(st: State, ctx: Context, row: Records.Row, env: RecordEnv)
    requires ctx.jobId in st.jobs
    ensures var step := RecordStep(st, ctx, row, env);
            ctx.jobId in step.st.jobs
            && step.st.jobs == st.jobs[ctx.jobId := step.st.jobs[ctx.jobId]]
            && (step.Continue? ==> Extends(st.jobs[ctx.jobId], step.st.jobs[ctx.jobId], [row]))
            && (step.Abort? ==> step.st.jobs == st.jobs)
  {
    var j := st.jobs[ctx.jobId];
    DisplayNonEmpty(row);
    RollNumberNonEmpty(row, env.now, env.random);
    if !HasIdentity(row) {
      var logged := Log(st, FileUtils.LogLine(env.stamp, "Unknown", "Failure", Some(MissingDataLog)));
      if Throws(env, UpdateJob) {
        CatchExtends(logged, ctx, row, env, env.storeError);
      } else {
        AppendedExtends(j, FailureResult(row, "unknown", MissingDataError, env.now), row);
      }
    } else {
      AttemptJobs(st, ctx, row, env);
      match Attempt(st, ctx, row, env)
      case Done(s) =>
        AppendedExtends(j, DeliveryResult(row, env, RollNumber(row, env.now, env.random), env.pdf.value), row);
      case Failed(s, m) =>
        CatchExtends(s, ctx, row, env, m);
    }
  }

  /** The catch appends one Failure result for its record, or aborts leaving the jobs as they were. */
  lemma CatchExtends(st: State, ctx: Context, row: Records.Row, env: RecordEnv, message: string)
    requires ctx.jobId in st.jobs
    ensures var step := Catch(st, ctx, row, env, message);
            ctx.jobId in step.st.jobs
            && step.st.jobs == st.jobs[ctx.jobId := step.st.jobs[ctx.jobId]]
            && (step.Continue? ==> Extends(st.jobs[ctx.jobId], step.st.jobs[ctx.jobId], [row]))
            && (step.Abort? ==> step.st.jobs == st.jobs)
  {
    DisplayNonEmpty(row);
    RollNumberNonEmpty(row, env.now, env.random);
    AppendedExtends(st.jobs[ctx.jobId], FailureResult(row, CatchRollNumber(row), message, env.now), row);
  }

  /** Run from record `i`: when the loop finishes, the job has gained exactly one result per
      remaining record, in roster order; when it aborts at record `n`, it has gained the
      results of records `i..n-1` and no more. */
  lemma {:induction false} RunExtends(st: State, ctx: Context, rows: seq<Records.Row>, envs: nat -> RecordEnv, i: nat)
    requires ctx.jobId in st.jobs && i <= |rows|
    ensures var r := Run(st, ctx, rows, envs, i);
            ctx.jobId in r.st.jobs
            && r.st.jobs == st.jobs[ctx.jobId := r.st.jobs[ctx.jobId]]
            && (r.Continue? ==> Extends(st.jobs[ctx.jobId], r.st.jobs[ctx.jobId], rows[i..]))
            && (r.Abort? ==> exists n :: i <= n < |rows| && Extends(st.jobs[ctx.jobId], r.st.jobs[ctx.jobId], rows[i..n]))
    decreases |rows| - i
  {
    var j := st.jobs[ctx.jobId];
    if i == |rows| {
      ExtendsNothing(j);
      assert rows[i..] == [];
      return;
    }
    var step := RecordStep(st, ctx, rows[i], envs(i));
    RecordStepExtends(st, ctx, rows[i], envs(i));
    if step.Abort? {
      assert Run(st, ctx, rows, envs, i) == step;
      ExtendsNothing(j);
      assert rows[i..i] == [];
    } else {
      assert Run(st, ctx, rows, envs, i) == Run(step.st, ctx, rows, envs, i + 1);
      RunExtends(step.st, ctx, rows, envs, i + 1);
      var r := Run(step.st, ctx, rows, envs, i + 1);
      PrependStep(st.jobs, step.st.jobs, r.st.jobs, ctx.jobId, rows, i, i + 1, r.Continue?);
    }
  }

  /** One more record in front of a run, stated over the job collections alone. */
  lemma PrependStep(m0: map<string, JobSchema.Job>, m1: map<string, JobSchema.Job>, m2: map<string, JobSchema.Job>,
                    id: string, rows: seq<Records.Row>, i: nat, m: nat, finished: bool)
    requires i < |rows| && m == i + 1
    requires id in m0 && id in m1 && id in m2
    requires m1 == m0[id := m1[id]] && m2 == m1[id := m2[id]]
    requires Extends(m0[id], m1[id], [rows[i]])
    requires finished ==> Extends(m1[id], m2[id], rows[m..])
    requires !finished ==> exists n :: m <= n < |rows| && Extends(m1[id], m2[id], rows[m..n])
    ensures m2 == m0[id := m2[id]]
    ensures finished ==> Extends(m0[id], m2[id], rows[i..])
    ensures !finished ==> exists n :: i <= n < |rows| && Extends(m0[id], m2[id], rows[i..n])
  {
    if finished {
      PrependRow(m0[id], m1[id], m2[id], rows, i);
    } else {
      PrependRowAborted(m0[id], m1[id], m2[id], rows, i, m);
    }
  }

  lemma PrependRow(a: JobSchema.Job, b: JobSchema.Job, c: JobSchema.Job, rows: seq<Records.Row>, i: nat)
    requires i < |rows| && Extends(a, b, [rows[i]]) && Extends(b, c, rows[i + 1..])
    ensures Extends(a, c, rows[i..])
  {
    ExtendsTrans(a, b, c, [rows[i]], rows[i + 1..]);
    assert [rows[i]] + rows[i + 1..] == rows[i..];
  }

  lemma PrependRowAborted(a: JobSchema.Job, b: JobSchema.Job, c: JobSchema.Job, rows: seq<Records.Row>, i: nat, m: nat)
    requires i < |rows| && m == i + 1 && Extends(a, b, [rows[i]])
    requires exists n :: m <= n < |rows| && Extends(b, c, rows[m..n])
    ensures exists n :: i <= n < |rows| && Extends(a, c, rows[i..n])
  {
    var n :| m <= n < |rows| && Extends(b, c, rows[m..n]);
    ExtendsTrans(a, b, c, [rows[i]], rows[i + 1..n]);
    assert [rows[i]] + rows[i + 1..n] == rows[i..n];
  }

  // ---------------------------------------------------------------- the request as a whole

  /** A request answered with anything but 202 changes nothing: in particular no Job exists for it. */
  lemma RejectedChangesNothing(st: State, sub: Submission, o: Oracles)
    requires ProcessSubmission(st, sub, o).1.code != 202
    ensures ProcessSubmission(st, sub, o).0 == st
  {
  }

  /** Both files are required, the roster must be non-empty and the job description must be a
      .pdf, .docx or .txt file (any letter case); these are answered with 400 before any Job exists. */
  lemma SubmissionChecks(st: State, sub: Submission, o: Oracles)
    ensures sub.csv.None? || sub.jobDesc.None? ==>
              ProcessSubmission(st, sub, o) == (st, Response(400, ErrorBody("Both CSV and job description files are required")))
    ensures sub.csv.Some? && sub.jobDesc.Some? && o.roster == Ok([]) ==>
              ProcessSubmission(st, sub, o) == (st, Response(400, ErrorBody("No student data found in CSV file")))
    ensures sub.csv.Some? && sub.jobDesc.Some? && o.roster.Ok? && o.roster.value != []
            && Text.AsciiLower(FileUtils.ExtName(sub.jobDesc.value.originalName)) !in [".pdf", ".docx", ".txt"] ==>
              ProcessSubmission(st, sub, o) == (st, Response(400, ErrorBody("Unsupported job description file format")))
  {
    if sub.csv.None? || sub.jobDesc.None? {
      RejectedAtAdmission(st, sub, o, Response(400, ErrorBody("Both CSV and job description files are required")));
    } else if o.roster == Ok([]) {
      RejectedAtAdmission(st, sub, o, Response(400, ErrorBody("No student data found in CSV file")));
    } else if o.roster.Ok? && Text.AsciiLower(FileUtils.ExtName(sub.jobDesc.value.originalName)) !in [".pdf", ".docx", ".txt"] {
      assert JobDescParser(sub.jobDesc.value.originalName).None?;
      RejectedAtAdmission(st, sub, o, Response(400, ErrorBody("Unsupported job description file format")));
    }
  }

  /** A request turned away by the checks leaves the state as it was and answers with the
      checks' response. */
  lemma RejectedAtAdmission(st: State, sub: Submission, o: Oracles, resp: Response)
    requires Admission(sub, o) == Err(resp)
    ensures ProcessSubmission(st, sub, o) == (st, resp)
  {
  }

  /** What a 202 answer means: the checks passed, the store was up, the Job cast and its
      jobId was fresh; the final state is the loop's, completed when the loop finished and
      the completion update reached the store. */
  lemma AcceptedShape(st: State, sub: Submission, o: Oracles)
    requires ProcessSubmission(st, sub, o).1.code == 202
    ensures Admission(sub, o).Ok? && o.storeUp && o.jobId !in st.jobs
    ensures var rows := Admission(sub, o).value.0;
            var jd := Admission(sub, o).value.1;
            var job := JobSchema.CastJob(JobDocFor(o.jobId, |rows|, jd), o.createdAt);
            job.Ok?
            && job.value.status == JobSchema.JobProcessing && job.value.completedAt.None?
            && job.value.totalStudents == |rows| && job.value.processedStudents == 0 && job.value.results == []
            && var run := Run(st.(jobs := st.jobs[o.jobId := job.value]), Context(o.jobId, JobTitle(jd), jd, o.llm), rows, o.records, 0);
               ProcessSubmission(st, sub, o).0 ==
                 (if run.Abort? || !o.completionStoreUp then run.st else CompleteJob(run.st, o.jobId, o.completedAt))
  {
    var rows := Admission(sub, o).value.0;
    var jd := Admission(sub, o).value.1;
    var job := JobSchema.CastJob(JobDocFor(o.jobId, |rows|, jd), o.createdAt);
    assert JobSchema.JobStatusName(job.value.status) == "processing";
  }

  /** The loop over a fresh job: it gains one result per processed record in roster order,
      its counter follows, and all records are processed unless the loop aborted. */
  lemma RunFreshJob(started: State, ctx: Context, rows: seq<Records.Row>, envs: nat -> RecordEnv)
    requires ctx.jobId in started.jobs
    requires started.jobs[ctx.jobId].results == [] && started.jobs[ctx.jobId].processedStudents == 0
    ensures ctx.jobId in Run(started, ctx, rows, envs, 0).st.jobs
    ensures var r := Run(started, ctx, rows, envs, 0);
            var j := r.st.jobs[ctx.jobId];
            j == started.jobs[ctx.jobId].(results := j.results, processedStudents := j.processedStudents)
            && j.processedStudents == |j.results| <= |rows|
            && (r.Continue? ==> |j.results| == |rows|)
            && (forall k :: 0 <= k < |j.results| ==> j.results[k].email == DisplayEmail(rows[k]))
  {
    RunExtends(started, ctx, rows, envs, 0);
    StepFresh(started.jobs[ctx.jobId], Run(started, ctx, rows, envs, 0), ctx.jobId, rows);
  }

  lemma StepFresh(job: JobSchema.Job, r: Step, id: string, rows: seq<Records.Row>)
    requires job.results == [] && job.processedStudents == 0
    requires id in r.st.jobs
    requires r.Continue? ==> Extends(job, r.st.jobs[id], rows[0..])
    requires r.Abort? ==> exists n :: 0 <= n < |rows| && Extends(job, r.st.jobs[id], rows[0..n])
    ensures var j := r.st.jobs[id];
            j == job.(results := j.results, processedStudents := j.processedStudents)
            && j.processedStudents == |j.results| <= |rows|
            && (r.Continue? ==> |j.results| == |rows|)
            && (forall k :: 0 <= k < |j.results| ==> j.results[k].email == DisplayEmail(rows[k]))
  {
    if r.Continue? {
      assert rows[0..] == rows[..|rows|];
      FreshExtends(job, r.st.jobs[id], rows, |rows|);
    } else {
      var n :| 0 <= n < |rows| && Extends(job, r.st.jobs[id], rows[0..n]);
      assert rows[0..n] == rows[..n];
      FreshExtends(job, r.st.jobs[id], rows, n);
    }
  }

  lemma FreshExtends(job: JobSchema.Job, j: JobSchema.Job, rows: seq<Records.Row>, n: nat)
    requires job.results == [] && job.processedStudents == 0
    requires n <= |rows| && Extends(job, j, rows[..n])
    ensures j == job.(results := j.results, processedStudents := j.processedStudents)
    ensures j.processedStudents == |j.results| == n
    ensures forall k :: 0 <= k < |j.results| ==> j.results[k].email == DisplayEmail(rows[k])
  {
    forall k | 0 <= k < n ensures j.results[k].email == DisplayEmail(rows[k]) {
      assert rows[..n][k] == rows[k];
      assert j.results[0 + k].email == DisplayEmail(rows[..n][k]);
    }
  }

  /** An accepted request has created its Job, which counts the roster; from then on the job
      holds one result per processed record in roster order, its counter equals its number of
      results, and it is `completed` only once every record has been processed, when the
      counter equals `totalStudents`. */
  lemma AcceptedJob(st: State, sub: Submission, o: Oracles)
    requires ProcessSubmission(st, sub, o).1.code == 202
    ensures Admission(sub, o).Ok?
    ensures var rows := Admission(sub, o).value.0;
            var s := ProcessSubmission(st, sub, o).0;
            o.jobId !in st.jobs && o.jobId in s.jobs
            && s.jobs[o.jobId].totalStudents == |rows|
            && s.jobs[o.jobId].processedStudents == |s.jobs[o.jobId].results| <= |rows|
            && (forall k :: 0 <= k < |s.jobs[o.jobId].results| ==> s.jobs[o.jobId].results[k].email == DisplayEmail(rows[k]))
            && (s.jobs[o.jobId].status == JobSchema.JobCompleted ==>
                  s.jobs[o.jobId].processedStudents == s.jobs[o.jobId].totalStudents)
  {
    AcceptedShape(st, sub, o);
    var rows := Admission(sub, o).value.0;
    var jd := Admission(sub, o).value.1;
    var job := JobSchema.CastJob(JobDocFor(o.jobId, |rows|, jd), o.createdAt).value;
    var started := st.(jobs := st.jobs[o.jobId := job]);
    var ctx := Context(o.jobId, JobTitle(jd), jd, o.llm);
    RunFreshJob(started, ctx, rows, o.records);
  }

  /** The Job becomes `completed`, with its completion time, when no iteration aborted and
      the final update reached the store; an aborted loop leaves it `processing`. */
  lemma CompletionRule(st: State, sub: Submission, o: Oracles)
    requires ProcessSubmission(st, sub, o).1.code == 202
    ensures Admission(sub, o).Ok?
    ensures var rows := Admission(sub, o).value.0;
            var jd := Admission(sub, o).value.1;
            var job := JobSchema.CastJob(JobDocFor(o.jobId, |rows|, jd), o.createdAt).value;
            var run := Run(st.(jobs := st.jobs[o.jobId := job]), Context(o.jobId, JobTitle(jd), jd, o.llm), rows, o.records, 0);
            var s := ProcessSubmission(st, sub, o).0;
            o.jobId in s.jobs
            && (run.Abort? ==> s.jobs[o.jobId].status == JobSchema.JobProcessing && s.jobs[o.jobId].completedAt.None?)
            && (run.Continue? && o.completionStoreUp ==>
                  s.jobs[o.jobId].status == JobSchema.JobCompleted && s.jobs[o.jobId].completedAt == Some(o.completedAt))
  {
    AcceptedShape(st, sub, o);
    var rows := Admission(sub, o).value.0;
    var jd := Admission(sub, o).value.1;
    var job := JobSchema.CastJob(JobDocFor(o.jobId, |rows|, jd), o.createdAt).value;
    var started := st.(jobs := st.jobs[o.jobId := job]);
    RunExtends(started, Context(o.jobId, JobTitle(jd), jd, o.llm), rows, o.records, 0);
  }

  // ---------------------------------------------------------------- one record, by path

  /** A record without a truthy Name or Email becomes the fixed Failure result, logged under
      `Unknown`, and no Student or Report is touched. */
  lemma MissingIdentity(st: State, ctx: Context, row: Records.Row, env: RecordEnv)
    requires !HasIdentity(row) && !Throws(env, UpdateJob)
    ensures var s := RecordStep(st, ctx, row, env).st;
            RecordStep(st, ctx, row, env).Continue?
            && s.students == st.students && s.reports == st.reports
            && s.log == st.log + [FileUtils.LogLine(env.stamp, "Unknown", "Failure", Some("Missing required student data (Name or Email)"))]
            && s == AppendResult(s.(jobs := st.jobs), ctx.jobId,
                 JobSchema.StudentResult(DisplayName(row), DisplayEmail(row), "unknown", JobSchema.Failure,
                                         None, false, Some("Missing required student data"), Some(env.now)))
  {
  }

  /** The result object the source writes for a failure casts, with `emailSent` defaulting to
      false, to exactly the result the model stores. */
  lemma FailureDocCasts(row: Records.Row, rollNumber: string, error: string, now: nat)
    requires rollNumber != ""
    ensures JobSchema.CastResult("", FailureDoc(row, rollNumber, error, now)) == Ok(FailureResult(row, rollNumber, error, now))
  {
    DisplayNonEmpty(row);
  }

  /** When generation throws, the record goes to the catch with the service's message: no
      report is stored, no report is referenced, no email is sent. A Student created for the
      record beforehand stays. */
  lemma GenerationFailure(st: State, ctx: Context, row: Records.Row, env: RecordEnv)
    requires HasIdentity(row) && env.dirError.None?
    requires FindOrCreate(st, row, RollNumber(row, env.now, env.random), env.now, env.throwsAt, env.storeError).Ok?
    requires LlmService.DocumentOutcome(ctx.llm, env.reply).Err?
    ensures var m := LlmService.DocumentOutcome(ctx.llm, env.reply).error;
            var st1 := FindOrCreate(st, row, RollNumber(row, env.now, env.random), env.now, env.throwsAt, env.storeError).value;
            Text.StartsWith(m, "Error calling LLM service: ")
            && RecordStep(st, ctx, row, env) == Catch(st1, ctx, row, env, m)
            && Catch(st1, ctx, row, env, m).st.reports == st.reports
            && Catch(st1, ctx, row, env, m).st.students == st1.students
  {
  }

  /** When the student's output directory cannot be created, the record goes to the catch
      with that error before any store call: no Student is found or created, even for a new
      email, and no report is stored. */
  lemma DirectoryFailure(st: State, ctx: Context, row: Records.Row, env: RecordEnv)
    requires HasIdentity(row) && env.dirError.Some?
    ensures var step := RecordStep(st, ctx, row, env);
            var m := env.dirError.value;
            step == Catch(st, ctx, row, env, m)
            && step.st.students == st.students && step.st.reports == st.reports
            && step.st.log == st.log + [FileUtils.LogLine(env.stamp, CatchRollNumber(row), "Failure", Some(m))]
            && (step.Continue? <==> !env.catchUpdateThrows)
  {
  }

  /** A record that reaches delivery stores one report, appends its id to the student's
      references, and is `Success` exactly when the email was sent, `Partial Success` otherwise. */
  lemma Delivered(st: State, ctx: Context, row: Records.Row, env: RecordEnv)
    requires HasIdentity(row)
    requires Attempt(st, ctx, row, env).Done?
    ensures var s := Attempt(st, ctx, row, env).st;
            var email := Value(row, "Email");
            |s.reports| == |st.reports| + 1
            && email in s.students
            && |s.students[email].reports| >= 1
            && s.students[email].reports[|s.students[email].reports| - 1] == |st.reports|
            && s.reports[|st.reports|].jobId == ctx.jobId
            && s.reports[|st.reports|].student == email
            && (StatusFor(env.emailSent) == JobSchema.Success <==> env.emailSent)
  {
    var roll := RollNumber(row, env.now, env.random);
    var found := FindOrCreate(st, row, roll, env.now, env.throwsAt, env.storeError);
    assert found.Ok?;
    var f := found.value;
    var outcome := LlmService.DocumentOutcome(ctx.llm, env.reply);
    assert outcome.Ok? && env.pdf.Ok?;
    var cast := ReportSchema.CastReport(ReportDocFor(row, ctx, env.pdf.value, outcome.value), env.now);
    assert cast.Ok?;
    assert Attempt(st, ctx, row, env) == Deliver(f, ctx, row, env, roll, env.pdf.value, cast.value);
    DeliverShape(f, ctx, row, env, roll, env.pdf.value, cast.value);
  }

  /** A job description whose first line is blank gives an empty title, which the Report
      schema refuses: no record of that job can reach delivery. */
  lemma BlankTitleNoReports(st: State, ctx: Context, row: Records.Row, env: RecordEnv)
    requires ctx.jobTitle == ""
    ensures !Attempt(st, ctx, row, env).Done?
  {
    AttemptShape(st, ctx, row, env);
  }

  /** A job description whose first line is empty or holds only whitespace gives the empty
      title, whatever follows it. */
  lemma BlankFirstLine(line: string, rest: string)
    requires '\n' !in line && forall k :: 0 <= k < |line| ==> Text.IsJsSpace(line[k])
    requires rest == [] || rest[0] == '\n'
    ensures JobTitle(line + rest) == ""
  {
    var jd := line + rest;
    var head := if |jd| <= 100 then jd else jd[..100];
    var first: string;
    if |head| <= |line| {
      assert head == line[..|head|];
      Text.SplitWithout(head, '\n');
      first := head;
    } else {
      assert head == line + ['\n'] + head[|line| + 1..];
      Text.SplitPrefix(line, head[|line| + 1..], '\n');
      first := line;
    }
    assert Text.Split(head, '\n')[0] == first;
    assert forall k :: 0 <= k < |first| ==> Text.IsJsSpace(first[k]);
    AllSpaceTrims(first, Text.IsJsSpace);
  }

  lemma AllSpaceTrims(s: string, isSpace: char -> bool)
    requires forall k :: 0 <= k < |s| ==> isSpace(s[k])
    ensures Text.Trim(s, isSpace) == ""
  {
  }

  // ---------------------------------------------------------------- students

  /** Once a record has found or created the student for an email, every later lookup of that
      email finds it and changes nothing: creation keyed on email happens at most once. */
  lemma FindOrCreateIdempotent(st: State, row: Records.Row, roll: string, now: nat,
                               throwsAt: Option<StoreCall>, storeError: string,
                               row2: Records.Row, roll2: string, now2: nat,
                               throwsAt2: Option<StoreCall>, storeError2: string)
    requires FindOrCreate(st, row, roll, now, throwsAt, storeError).Ok?
    requires Value(row2, "Email") == Value(row, "Email") && throwsAt2 != Some(FindStudent)
    ensures var s := FindOrCreate(st, row, roll, now, throwsAt, storeError).value;
            FindOrCreate(s, row2, roll2, now2, throwsAt2, storeError2) == Ok(s)
  {
  }

  /** A new student gets the skills of the truthy columns `Skill1..Skill5`, in column order,
      each with its level column or `Beginner`; so at most five. An existing student is reused
      as stored. */
  lemma NewStudentSkills(st: State, row: Records.Row, roll: string, now: nat,
                         throwsAt: Option<StoreCall>, storeError: string)
    requires FindOrCreate(st, row, roll, now, throwsAt, storeError).Ok?
    ensures var s := FindOrCreate(st, row, roll, now, throwsAt, storeError).value.students[Value(row, "Email")];
            var raw := Records.SkillsUpTo(row, 5);
            (Value(row, "Email") in st.students ==> s == st.students[Value(row, "Email")])
            && (Value(row, "Email") !in st.students ==>
                  |s.skills| == |raw| <= 5
                  && s.rollNumber == roll && s.reports == []
                  && forall k :: 0 <= k < |raw| ==>
                       s.skills[k].name == raw[k].name && StudentSchema.SkillLevelName(s.skills[k].level) == raw[k].level)
  {
    Records.SkillsUpToBound(row, 5);
    var raw := Records.SkillsUpTo(row, 5);
    if Value(row, "Email") !in st.students {
      var s := FindOrCreate(st, row, roll, now, throwsAt, storeError).value.students[Value(row, "Email")];
      var doc := NewStudentDoc(row, roll);
      assert Ok(s) == StudentSchema.CastStudent(doc, now);
      assert doc.skills == SkillDocs(raw);
      forall k | 0 <= k < |raw|
        ensures s.skills[k].name == raw[k].name && StudentSchema.SkillLevelName(s.skills[k].level) == raw[k].level
      {
        assert doc.skills[k] == StudentSchema.SkillDoc(Some(raw[k].name), Some(raw[k].level));
        assert Ok(s.skills[k]) == StudentSchema.CastSkill("", doc.skills[k]);
      }
    }
  }

  /** The roll number of a record that reaches the student lookup is its first truthy roll
      column, or `student-<ms>-<n>` with n below 1000. */
  lemma RollNumberChain(row: Records.Row, now: nat, random: nat)
    ensures (forall k :: 0 <= k < |RollKeys| ==> !Records.Truthy(row, RollKeys[k])) ==>
              RollNumber(row, now, random) == "student-" + Text.NatToString(now) + "-" + Text.NatToString(random % 1000)
    ensures Records.Truthy(row, "Roll_Number") ==> RollNumber(row, now, random) == Value(row, "Roll_Number")
    ensures !Records.Truthy(row, "Roll_Number") && Records.Truthy(row, "ID") ==> RollNumber(row, now, random) == Value(row, "ID")
    ensures !Records.Truthy(row, "Roll_Number") && !Records.Truthy(row, "ID") && Records.Truthy(row, "StudentID") ==>
              RollNumber(row, now, random) == Value(row, "StudentID")
    ensures (forall k :: 0 <= k < |RollKeys| ==> !Records.Truthy(row, RollKeys[k])) ==> CatchRollNumber(row) == "unknown"
  {
    assert RollKeys[0] == "Roll_Number" && RollKeys[1] == "ID" && RollKeys[2] == "StudentID";
    if !Records.Truthy(row, "Roll_Number") && Records.Truthy(row, "ID") {
      assert forall j :: 0 <= j < 1 ==> !Records.Truthy(row, RollKeys[j]);
    }
    if !Records.Truthy(row, "Roll_Number") && !Records.Truthy(row, "ID") && Records.Truthy(row, "StudentID") {
      assert forall j :: 0 <= j < 2 ==> !Records.Truthy(row, RollKeys[j]);
    }
  }

  // ---------------------------------------------------------------- store invariant

  /** The store's consistency: students are filed under their own email, roll numbers are
      unique, reports reference stored students and are referenced by valid ids, and every
      job's counter equals its number of results, all of which satisfy the schema. */
  predicate Consistent(st: State) {
    StudentsConsistent(st) && JobsConsistent(st.jobs)
  }

  predicate StudentsConsistent(st: State) {
    (forall e :: e in st.students ==> st.students[e].email == e)
    && (forall e1, e2 :: e1 in st.students && e2 in st.students && e1 != e2 ==>
          st.students[e1].rollNumber != st.students[e2].rollNumber)
    && (forall e, k :: e in st.students && 0 <= k < |st.students[e].reports| ==> st.students[e].reports[k] < |st.reports|)
    && (forall k :: 0 <= k < |st.reports| ==> st.reports[k].student in st.students)
  }

  predicate JobConsistent(j: JobSchema.Job) {
    j.processedStudents == |j.results|
    && forall k :: 0 <= k < |j.results| ==> JobSchema.ValidResult(j.results[k])
  }

  predicate JobsConsistent(jobs: map<string, JobSchema.Job>) {
    forall id :: id in jobs ==> JobConsistent(jobs[id])
  }

  lemma ExtendsConsistent(a: JobSchema.Job, b: JobSchema.Job, rows: seq<Records.Row>)
    requires JobConsistent(a) && Extends(a, b, rows)
    ensures JobConsistent(b)
  {
    forall k | 0 <= k < |b.results| ensures JobSchema.ValidResult(b.results[k]) {
      if k < |a.results| {
        assert b.results[k] == b.results[..|a.results|][k];
      } else {
        var k2 := k - |a.results|;
        assert 0 <= k2 < |rows|;
        assert b.results[|a.results| + k2].name == DisplayName(rows[k2]);
      }
    }
  }

  lemma FindOrCreateConsistent(st: State, row: Records.Row, roll: string, now: nat,
                               throwsAt: Option<StoreCall>, storeError: string)
    requires StudentsConsistent(st)
    requires FindOrCreate(st, row, roll, now, throwsAt, storeError).Ok?
    ensures StudentsConsistent(FindOrCreate(st, row, roll, now, throwsAt, storeError).value)
  {
    var email := Value(row, "Email");
    if email !in st.students {
      var s := FindOrCreate(st, row, roll, now, throwsAt, storeError).value;
      assert s.students[email].rollNumber == roll;
      assert s.students[email].reports == [];
    }
  }

  /** Delivery keeps the students consistent however far it gets. */
  lemma DeliverConsistent(st1: State, ctx: Context, row: Records.Row, env: RecordEnv, roll: string,
                          pdfPath: string, report: ReportSchema.Report)
    requires StudentsConsistent(st1) && Value(row, "Email") in st1.students
    requires report.student == Value(row, "Email")
    ensures StudentsConsistent(Deliver(st1, ctx, row, env, roll, pdfPath, report).st)
  {
    var email := Value(row, "Email");
    var s := Deliver(st1, ctx, row, env, roll, pdfPath, report).st;
    DeliverShape(st1, ctx, row, env, roll, pdfPath, report);
    if Throws(env, SaveReport) {
      return;
    }
    assert s.reports == st1.reports + [report];
    forall k | 0 <= k < |s.reports| ensures s.reports[k].student in s.students {
      if k < |st1.reports| { assert s.reports[k] == st1.reports[k]; }
    }
    if Throws(env, ReferenceReport) {
      assert s.students == st1.students;
      forall e, k | e in s.students && 0 <= k < |s.students[e].reports|
        ensures s.students[e].reports[k] < |s.reports|
      {
        assert s.students[e].reports[k] == st1.students[e].reports[k];
      }
      return;
    }
    assert s.students == st1.students[email := st1.students[email].(reports := st1.students[email].reports + [|st1.reports|])];
    forall e, k | e in s.students && 0 <= k < |s.students[e].reports|
      ensures s.students[e].reports[k] < |s.reports|
    {
      if e == email && k == |s.students[e].reports| - 1 {
      } else {
        assert s.students[e].reports[k] == st1.students[e].reports[k];
      }
    }
  }

  lemma AttemptStudentsConsistent(st: State, ctx: Context, row: Records.Row, env: RecordEnv)
    requires StudentsConsistent(st)
    ensures StudentsConsistent(Attempt(st, ctx, row, env).st)
  {
    var roll := RollNumber(row, env.now, env.random);
    var f := FindOrCreate(st, row, roll, env.now, env.throwsAt, env.storeError);
    var o := Attempt(st, ctx, row, env);
    AttemptShape(st, ctx, row, env);
    if f.Ok? {
      FindOrCreateConsistent(st, row, roll, env.now, env.throwsAt, env.storeError);
      if o.st != st && o.st != f.value {
        var report: ReportSchema.Report :| report.jobId == ctx.jobId && report.student == Value(row, "Email")
                       && o == Deliver(f.value, ctx, row, env, roll, env.pdf.value, report);
        DeliverConsistent(f.value, ctx, row, env, roll, env.pdf.value, report);
      }
    }
  }

  lemma RecordStepStudentsConsistent(st: State, ctx: Context, row: Records.Row, env: RecordEnv)
    requires StudentsConsistent(st)
    ensures StudentsConsistent(RecordStep(st, ctx, row, env).st)
  {
    var s := RecordStep(st, ctx, row, env).st;
    if !HasIdentity(row) {
      assert s.students == st.students && s.reports == st.reports;
    } else {
      AttemptStudentsConsistent(st, ctx, row, env);
      match Attempt(st, ctx, row, env)
      case Done(d) =>
        assert s == d;
      case Failed(f, m) =>
        assert s == Catch(f, ctx, row, env, m).st;
        assert s.students == f.students && s.reports == f.reports;
    }
  }

  /** Each iteration keeps the store consistent. */
  lemma RecordStepConsistent(st: State, ctx: Context, row: Records.Row, env: RecordEnv)
    requires Consistent(st) && ctx.jobId in st.jobs
    ensures Consistent(RecordStep(st, ctx, row, env).st)
  {
    var step := RecordStep(st, ctx, row, env);
    RecordStepStudentsConsistent(st, ctx, row, env);
    RecordStepExtends(st, ctx, row, env);
    if step.Continue? {
      ExtendsConsistent(st.jobs[ctx.jobId], step.st.jobs[ctx.jobId], [row]);
    }
    assert JobsConsistent(step.st.jobs);
  }

  /** The whole loop keeps the store consistent. */
  lemma {:induction false} RunConsistent(st: State, ctx: Context, rows: seq<Records.Row>, envs: nat -> RecordEnv, i: nat)
    requires Consistent(st) && ctx.jobId in st.jobs
    ensures Consistent(Run(st, ctx, rows, envs, i).st)
    decreases |rows| - i
  {
    if i < |rows| {
      RecordStepConsistent(st, ctx, rows[i], envs(i));
      RecordStepExtends(st, ctx, rows[i], envs(i));
      match RecordStep(st, ctx, rows[i], envs(i))
      case Abort(s) =>
      case Continue(s) => RunConsistent(s, ctx, rows, envs, i + 1);
    }
  }

  /** The whole request keeps the store consistent. */
  lemma ProcessSubmissionConsistent(st: State, sub: Submission, o: Oracles)
    requires Consistent(st)
    ensures Consistent(ProcessSubmission(st, sub, o).0)
  {
    if ProcessSubmission(st, sub, o).1.code == 202 {
      AcceptedShape(st, sub, o);
      var rows := Admission(sub, o).value.0;
      var jd := Admission(sub, o).value.1;
      var job := JobSchema.CastJob(JobDocFor(o.jobId, |rows|, jd), o.createdAt).value;
      var ctx := Context(o.jobId, JobTitle(jd), jd, o.llm);
      StartedConsistent(st, o.jobId, job);
      RunConsistent(st.(jobs := st.jobs[o.jobId := job]), ctx, rows, o.records, 0);
      var r := Run(st.(jobs := st.jobs[o.jobId := job]), ctx, rows, o.records, 0);
      CompletionConsistent(r.st, o.jobId, o.completedAt);
    }
  }

  lemma StartedConsistent(st: State, id: string, job: JobSchema.Job)
    requires Consistent(st) && job.processedStudents == 0 && job.results == []
    ensures Consistent(st.(jobs := st.jobs[id := job]))
  {
    assert JobConsistent(job);
  }

  lemma CompletionConsistent(st: State, id: string, at: nat)
    requires Consistent(st)
    ensures Consistent(CompleteJob(st, id, at))
  {
    if id in st.jobs {
      assert JobConsistent(CompleteJob(st, id, at).jobs[id]);
    }
  }
}
