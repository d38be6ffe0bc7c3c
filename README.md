# Student roster pipeline — a verified model

This project models a batch pipeline for student rosters.

A recruiter uploads a CSV roster and a job description. The Node server then does the following:

- It checks both files and creates a Job in the document store.
- It walks the roster row by row, in order. For each record it finds or creates the Student and asks an LLM provider (OpenAI or a local Ollama server) for a personalised analysis. It renders a PDF, stores a Report, emails the student and appends exactly one StudentResult to the Job.
- At the end it marks the Job `completed`.

A Python service runs a second version of the same pipeline. It has:

- an in-memory job registry;
- a skill-match score with status and email thresholds;
- a document processor that indexes roster rows and job-description chunks into a vector store;
- an agent that writes personalised documents from what the store holds;
- a document generator that writes markdown, PDF or DOCX files under sanitised names;
- an Ollama client with a one-time fallback to an alternative model.

The React front end validates the uploads, shows the progress of a job and simulates a profile analysis.

What is outside the model becomes a parameter or an oracle:

- the database, the vector store and the HTTP providers;
- the file parsers, the clocks and `Math.random`;
- the NLP skill extraction.

The operations themselves are modelled as follows:

- Code that computes a value is a Dafny function, with lemmas relating it to the source's promises.
- The controller's call to the LLM service is represented by its outcome, `LlmService.DocumentOutcome`. The lemma `LlmService.OutcomeIgnoresPrompt` proves that this outcome equals the one `LlmService.GenerateDocument` returns for the same row and job description.
- Code that changes state step by step is a method or a class. Examples are the controller's store updates and record loop, the Python job registry, the vector-store index, the log and the elapsed-time counter. Each method is proved against the specification function it must agree with.

Modules follow the source files:

| file | module | models |
|---|---|---|
| student_controller.dfy | `StudentController` | `processStudentData`: specification functions and the `Database` class |
| controller_properties.dfy | `ControllerProperties` | what the controller promises |
| server_routes.dfy | `ServerRoutes` | `server/server.js` |
| file_utils.dfy | `FileUtils` | `server/utils/fileUtils.js` |
| llm_service.dfy | `LlmService` | `server/services/llmService.js` |
| json.dfy | `Json` | `JSON.stringify` of a row, used by the service's prompts |
| job_schema.dfy, student_schema.dfy, report_schema.dfy | schema modules | the three document models |
| schema_rules.dfy | `SchemaRules` | the validation rules the three models share |
| match_app.dfy | `MatchApp` | `python_backend/app.py` |
| doc_generator.dfy | `DocGenerator` | `generator.py` |
| doc_processor.dfy | `DocProcessor` | `document_processor.py` |
| llm_agent.dfy | `LlmAgent` | `agent.py` |
| ollama_client.dfy | `OllamaClient` | `ollama_client.py` |
| api_service.dfy | `ApiService` | `src/services/api.js` |
| processing_status.dfy | `ProcessingStatus` | the progress component |
| csv_uploader.dfy | `CsvUploader` | the CSV upload component |
| jd_uploader.dfy | `JdUploader` | the job-description upload component |
| records.dfy, sorting.dfy, text.dfy, wrappers.dfy | shared helpers | roster rows, stable sorting, strings, `Option`/`Result` |

## Model

| member | source | states |
|---|---|---|
| StudentController.JobTitle | server/controllers/studentController.js:60 | the title has at most 100 characters, holds no newline, and occurs in the job description |
| StudentController.SkillDocs | server/controllers/studentController.js:128-150 | one skill document per extracted skill, in order, with the same name and level |
| StudentController.FindOrCreate | server/controllers/studentController.js:124-154 | a raising lookup fails with the store's message; otherwise a known email reuses the stored student and changes nothing, and a new email adds exactly one student under it only when its save does not raise, its roll number is free and the document casts; jobs, reports and log are never touched |
| StudentController.JobDescParser | server/controllers/studentController.js:42-54 | only the PDF, DOCX or TXT parser is ever chosen for a job description, never the CSV parser |
| StudentController.Database.constructor | server/controllers/studentController.js:26 | the store starts as the given collections and log |
| StudentController.Database.LogStatus | server/utils/fileUtils.js:107-118 | exactly one log line is appended; the collections are unchanged |
| StudentController.Database.PushResult | server/controllers/studentController.js:104-110 | the `$inc`/`$push` update appends one result and raises the counter in the same step |
| StudentController.Database.FindOrCreateStudent | server/controllers/studentController.js:124-154 | the lookup-then-save, including its skills loop, leaves the state `FindOrCreate` specifies |
| StudentController.Database.TryRecord | server/controllers/studentController.js:115-205 | the try block leaves the state `Attempt` specifies and reports failure exactly when it fails |
| StudentController.Database.GenerateAndDeliver | server/controllers/studentController.js:156-205 | generation, rendering, report and delivery leave the state `Generate` specifies |
| StudentController.Database.DeliverReport | server/controllers/studentController.js:162-205 | report save, student reference, log and result append leave the state `Deliver` specifies, and the failure message is returned exactly when one of those store calls raises |
| StudentController.Database.ProcessRecord | server/controllers/studentController.js:87-234 | one loop iteration, try and catch included, does exactly what `RecordStep` specifies, including aborting the loop |
| StudentController.Database.CatchFailure | server/controllers/studentController.js:206-233 | the catch block logs the failure and appends the failure result, or aborts the loop when its own Job update raises, as `Catch` specifies |
| StudentController.Database.ProcessStudentData | server/controllers/studentController.js:26-262 | the whole request leaves the state and sends the response `ProcessSubmission` specifies |
| ControllerProperties.ExtendsTrans | server/controllers/studentController.js:87-235 | results appended for two runs of records are the results of the concatenated run |
| ControllerProperties.AppendedExtends | server/controllers/studentController.js:104-110 | appending one valid result naming a record extends the job by that record |
| ControllerProperties.DisplayNonEmpty | server/controllers/studentController.js:94-95 | a failure result always has a non-empty name and email |
| ControllerProperties.RollNumberNonEmpty | server/controllers/studentController.js:116-119 | both roll-number chains always give a non-empty roll number |
| ControllerProperties.GenerateShape | server/controllers/studentController.js:156-205 | generation either fails before any store call, leaving the state as it was, or renders a PDF and hands a report of this job for this student to delivery |
| ControllerProperties.DeliverShape | server/controllers/studentController.js:162-205 | each store call of delivery may raise on its own: a raising report save changes nothing; a raising reference keeps the saved report but no reference and no log line; a raising Job update keeps report, reference and log line; no failure touches a job; delivery completes exactly when none of the three raises, and then appends the delivery result |
| ControllerProperties.AttemptShape | server/controllers/studentController.js:115-205 | the try block fails in the state it reached: unchanged, with at most the found or created student, or part-way through delivery; it completes only by finding or creating the student and delivering a report of this job for this student |
| ControllerProperties.AttemptJobs | server/controllers/studentController.js:115-205 | a failed try leaves every job as it was; a completed one appends exactly the delivery result built from the record, the email outcome and the PDF path |
| ControllerProperties.RecordStepExtends | server/controllers/studentController.js:87-234 | an iteration that does not abort appends exactly one result for its record and raises the counter with it; an aborted one changes no job |
| ControllerProperties.RunExtends | server/controllers/studentController.js:87-235 | a finished loop has appended one result per record, in roster order; a loop aborted at record n has appended exactly those before n |
| ControllerProperties.RejectedChangesNothing | server/controllers/studentController.js:29-54 | a request answered with anything but 202 changes nothing; in particular it creates no Job |
| ControllerProperties.SubmissionChecks | server/controllers/studentController.js:29-54 | a missing file, an empty roster or an unsupported job-description extension gets its 400 answer before any Job exists |
| ControllerProperties.AcceptedShape | server/controllers/studentController.js:56-82 | a 202 answer means the checks passed, the store was up, the Job cast and its id was fresh; the final state is the loop's |
| ControllerProperties.RunFreshJob | server/controllers/studentController.js:63-235 | over a fresh job the loop leaves one result per processed record, in roster order, with the counter equal to their number; every record is processed unless the loop aborted |
| ControllerProperties.AcceptedJob | server/controllers/studentController.js:26-252 | an accepted request's Job counts the roster, holds one result per processed record in order, and is `completed` only when every record was processed |
| ControllerProperties.CompletionRule | server/controllers/studentController.js:245-252 | the Job becomes `completed` with a completion time exactly when no iteration aborted and the update reached the store; otherwise it stays `processing` |
| ControllerProperties.MissingIdentity | server/controllers/studentController.js:91-113 | a record without a truthy Name or Email, when the Job update does not raise, gets the fixed Failure result, logged under `Unknown`; no Student or Report is touched |
| ControllerProperties.FailureDocCasts | server/controllers/studentController.js:216-223 | the failure object the catch writes casts under the Job schema to exactly the stored result |
| ControllerProperties.GenerationFailure | server/controllers/studentController.js:206-233 | when generation throws after the directory was created and the student was found or created, the iteration is the catch block with the service's message; no report is stored or referenced, and a Student created just before stays |
| ControllerProperties.DirectoryFailure | server/controllers/studentController.js:122 | when the student's output directory cannot be created, the iteration is the catch block with that error, before any store call: no Student is found or created and no report is stored; the loop goes on exactly when the catch's Job update does not raise |
| ControllerProperties.Delivered | server/controllers/studentController.js:162-196 | a completed delivery stores one report of this job for this student, appends its id to the student's references, and is `Success` exactly when the email was sent |
| ControllerProperties.BlankTitleNoReports | server/controllers/studentController.js:163-172 | with an empty title no record can reach delivery, because the Report schema requires `jobTitle` |
| ControllerProperties.BlankFirstLine | server/controllers/studentController.js:60 | a job description whose first line is empty or only JavaScript whitespace, with or without more lines, gives an empty title |
| ControllerProperties.FindOrCreateIdempotent | server/controllers/studentController.js:125-154 | once an email is found or created, later lookups of that email find it and change nothing |
| ControllerProperties.NewStudentSkills | server/controllers/studentController.js:128-151 | a new student gets the truthy `Skill1..Skill5` columns in order with their levels, so at most five skills; an existing student is reused as stored |
| ControllerProperties.RollNumberChain | server/controllers/studentController.js:116-119 | the roll number is `Roll_Number`, else `ID`, else `StudentID`, else `student-<ms>-<n>`; the catch block's chain ends in `unknown` |
| ControllerProperties.ExtendsConsistent | server/controllers/studentController.js:104-110 | appending results preserves the job invariant: counter equals number of results, all valid |
| ControllerProperties.FindOrCreateConsistent | server/controllers/studentController.js:124-154 | finding or creating a student preserves: students filed under their email, roll numbers unique, report ids valid |
| ControllerProperties.DeliverConsistent | server/controllers/studentController.js:162-178 | storing a report and referencing it preserves the student invariant |
| ControllerProperties.RecordStepConsistent | server/controllers/studentController.js:87-234 | each iteration keeps the whole store consistent |
| ControllerProperties.RunConsistent | server/controllers/studentController.js:87-235 | the whole loop keeps the store consistent |
| ControllerProperties.ProcessSubmissionConsistent | server/controllers/studentController.js:26-262 | the whole request keeps the store consistent |
| SchemaRules.CheckRequired | server/models/Job.js:4-15 | a required String fails exactly when missing or empty, with the `Path ... is required.` error |
| SchemaRules.ValidationMessage | server/models/Job.js:3-34 | a failed save's message starts with `<Model> validation failed: ` |
| JobSchema.ParseResultStatus | server/models/Job.js:16-20 | a status string parses to the enum value it names, and fails exactly when it names none of the four |
| JobSchema.CastResult | server/models/Job.js:3-34 | a result casts exactly when name, email and roll number are non-empty and the status is in the enum; status defaults to Processing and `emailSent` to false |
| JobSchema.ParseJobStatus | server/models/Job.js:42-46 | a job status parses to the value it names, and fails exactly when it is not processing, completed or failed |
| JobSchema.CastResults | server/models/Job.js:68 | an array of results casts exactly when every element does, element by element in order |
| JobSchema.CastJob | server/models/Job.js:36-69 | a job casts exactly when `jobId` is given, `totalStudents` present, status valid and all results cast; defaults for status, counter and `createdAt` |
| StudentSchema.ParseSkillLevel | server/models/Student.js:8-12 | a level parses exactly when it is one of the four enum values |
| StudentSchema.CastSkill | server/models/Student.js:3-13 | a skill casts exactly when its name is non-empty and its level, if given, is in the enum; level defaults to Beginner |
| StudentSchema.CastSkills | server/models/Student.js:42 | the skills array casts exactly when every element does, in order |
| StudentSchema.CastStudent | server/models/Student.js:15-55 | a student casts exactly when name, email and roll number are non-empty and every skill casts; no reports, both dates now |
| ReportSchema.ScoreErrors | server/models/Report.js:17-21 | an optional score errs exactly when below 0 or above 100 |
| ReportSchema.ReportErrors | server/models/Report.js:3-50 | no errors exactly when the six required fields are present and the score is in range |
| ReportSchema.CastReport | server/models/Report.js:3-50 | a report casts exactly when it has no errors, carrying the given fields and `createdAt` now |
| FileUtils.ValidateFileMimeType | server/utils/fileUtils.js:126-158 | a `csv` file passes only as text/csv, a `jobDesc` file only as one of four document types, any other field is refused by name |
| FileUtils.BaseName | server/utils/fileUtils.js:166 | the last path component has no `/` and is a suffix of the path |
| FileUtils.ExtName | server/utils/fileUtils.js:166 | the extension is empty, or a `.` followed by no other dot and no `/`, ending the name |
| FileUtils.ExtNameLower | server/utils/fileUtils.js:166 | the extension of the lower-cased name is the lower-cased extension |
| FileUtils.ParserForExtension | server/utils/fileUtils.js:168-181 | `.pdf` selects the PDF parser, `.docx` or `.doc` the DOCX parser, `.txt` the text parser, `.csv` the CSV parser, each exactly; anything else none |
| FileUtils.GetParserForFile | server/utils/fileUtils.js:165-182 | the parser is the one the lower-cased extension selects |
| FileUtils.ParserIgnoresCase | server/utils/fileUtils.js:166 | a file name and its lower-cased form select the same parser |
| FileUtils.ParseDocument | server/utils/fileUtils.js:47-86 | a parser passes the text through, or fails with its own message prefix |
| FileUtils.LogLineFields | server/utils/fileUtils.js:115 | when no field holds `\|` or a newline, a log line splits back into its four fields |
| FileUtils.ProcessingLog.constructor | server/utils/fileUtils.js:107-118 | the log starts empty |
| FileUtils.ProcessingLog.LogStatus | server/utils/fileUtils.js:107-118 | one entry is appended and every earlier entry is kept |
| FileUtils.DataEvents | server/utils/fileUtils.js:30-40 | a row stream has one data event per row, in order |
| FileUtils.CsvRowsInOrder | server/utils/fileUtils.js:30-40 | rows followed by `end` resolve to exactly those rows, in stream order |
| FileUtils.ParseCsv | server/utils/fileUtils.js:30-40 | the event handlers settle the promise at the first `end` or `error`, as `CsvOutcome` specifies |
| FileUtils.StudentDirectoryInOutputs | server/utils/fileUtils.js:93-99 | the joined and normalised directory stays under `outputs/` when the roll number has no `..` segment, and is `outputs/<roll number>` for a single plain segment |
| FileUtils.StudentDirectoryInjective | server/utils/fileUtils.js:93-99 | roll numbers that are single plain segments get the same directory exactly when they are equal |
| FileUtils.DotSegmentAlias | server/utils/fileUtils.js:94 | `./a` and `a` get the same directory, because `path.join` normalises |
| FileUtils.ParentSegmentAlias | server/utils/fileUtils.js:94 | `b/../a` and `a` get the same directory |
| FileUtils.ParentSegmentEscapes | server/utils/fileUtils.js:94 | `../x` leaves `outputs/` for a sibling directory `x` |
| LlmService.Or | server/services/llmService.js:12 | `v \|\| fallback`: a set, non-empty variable wins, otherwise the fallback |
| LlmService.OpenAiUserMessage | server/services/llmService.js:72-88 | the user message contains the serialised row and the job description |
| LlmService.OllamaPrompt | server/services/llmService.js:121-139 | the prompt contains the serialised row and the job description |
| LlmService.ChatContent | server/services/llmService.js:100 | the content is read when every step of the path exists; otherwise the TypeError message |
| LlmService.CallOpenAi | server/services/llmService.js:56-104 | no request without a key; the request carries the key as a bearer token; every error has the OpenAI prefix; success exactly when a readable body came back |
| LlmService.CallOllama | server/services/llmService.js:112-150 | the generation request carries the prompt; errors have the Ollama prefix; success exactly when the provider replied |
| LlmService.Endpoint | server/services/llmService.js:12 | the endpoint is never empty: the configured `LLM_ENDPOINT` when set, `openai` otherwise; `LlmService.GenerateDocument` proves that only `openai` and `ollama` send a request |
| LlmService.GenerateDocument | server/services/llmService.js:9-24 | an unknown endpoint or a missing key sends nothing; every request holds the job description and the serialised row; every error carries the service prefix; success exactly when a readable reply came back |
| LlmService.DocumentOutcome | server/services/llmService.js:9-24 | every error carries the service prefix; the call succeeds exactly when the provider replied and, for the chat endpoint, a key is configured and the reply has a first choice with a message |
| LlmService.OutcomeIgnoresPrompt | server/services/llmService.js:9-24 | the outcome of a call is fixed by the configuration and the reply, whatever row and job description went into the prompt |
| LlmService.Rethrow | server/services/llmService.js:21-23 | success passes unchanged; any error is re-thrown under the service prefix |
| LlmService.GenerateEmbeddings | server/services/llmService.js:31-48 | the request uses `OLLAMA_URL` and the embed model or their defaults; failure exactly when the request failed, with its prefix |
| Json.EscapeChar | server/services/llmService.js:75 | each character's escape is non-empty and never holds a raw newline |
| Json.Escape | server/services/llmService.js:75 | escaped text holds no raw newline |
| Json.Quote | server/services/llmService.js:75 | a quoted string is one line, opening and closing with a quote |
| Json.Entries | server/services/llmService.js:75 | one line per column, in column order |
| Json.UnescapeEscape | server/services/llmService.js:75 | decoding what `JSON.stringify` escaped gives back the original text |
| ServerRoutes.FileFilter | server/server.js:37-58 | as written, it admits `csv` as text/csv and `jobDescription` as PDF, DOCX or text; any other field gets `Unexpected field` |
| ServerRoutes.Admit | server/server.js:34-68 | an admitted file is within 10 MiB, under a field the route declares, and the first for that field |
| ServerRoutes.NoJobDescriptionAdmitted | server/server.js:44-68 | as written, no file under `jobDesc` or `jobDescription` is ever admitted |
| ServerRoutes.JobDescTextRejected | server/server.js:44-68 | a plain-text job description under `jobDesc` is refused as an unexpected field |
| ServerRoutes.FileFilterForRoute | server/server.js:37-58 | the filter keyed on the route's `jobDesc` field admits the same MIME types |
| ServerRoutes.AdmitCorrectedExactly | server/server.js:34-68 | with that filter, a first file under a declared field is admitted exactly when its MIME type suits the field and it fits the size limit |
| ServerRoutes.CorrectedFilterWithinValidator | server/server.js:45-49 | that filter accepts a subset of what `validateFileMimeType` accepts |
| ServerRoutes.StoredFilenameParts | server/server.js:29-31 | the upload time and the original name can be read back from a stored file name |
| ServerRoutes.RecentJobsCorrect | server/server.js:96 | the ten newest jobs (all when fewer), newest first; a job left out is no newer than any listed |
| ServerRoutes.FindJob | server/server.js:76-91 | a job with that id is returned; 404 exactly when none exists |
| ServerRoutes.Populate | server/server.js:107 | references become the reports they name, in order; dangling ones are dropped |
| ServerRoutes.StudentReports | server/server.js:105-118 | 404 exactly for an unknown email; otherwise the student's populated reports |
| Sorting.SortDescCorrect | src/services/api.js:25 | the stable sort is ordered largest first and is a permutation of its input |
| Sorting.TopNSorted | server/server.js:96 | the top n are sorted largest first |
| Sorting.TopNMembers | server/server.js:96 | every element of the top n comes from the input |
| Sorting.TopNExcluded | server/server.js:96 | an element left out is no larger than any element kept |
| Sorting.SortDescTopTwo | src/services/api.js:25 | the first two elements of the sorted list are a largest element and a largest among the rest, taken from distinct positions |
| Records.FirstTruthy | server/controllers/studentController.js:116-119 | `a \|\| b \|\| fallback`: the first truthy column's value, else the fallback |
| Records.GetChainFirstPresent | python_backend/app.py:215-216 | nested `dict.get`: the first present key wins, whatever its value |
| Records.SkillsUpToMembers | server/controllers/studentController.js:130-139 | a skill is extracted exactly when some truthy `SkillJ` column (J up to n) yields it |
| Records.SkillsUpToNonEmpty | server/controllers/studentController.js:133-137 | every extracted skill has a non-empty name and level |
| Records.ExtractSkills | server/controllers/studentController.js:129-139 | the `for j = 1..5` loop pushes the skills `SkillsUpTo` specifies, at most five |
| MatchApp.Flatten | python_backend/app.py:152-159 | a skill is in the flattened list exactly when some category lists it |
| MatchApp.ScoreBounds | python_backend/app.py:147-168 | the score is within [0, 100], and the cap at 100 never changes it |
| MatchApp.ScoreExtremes | python_backend/app.py:161-168 | no shared skill scores 0; a student with every skill of a duplicate-free job scores 100 |
| MatchApp.CalculateMatchScore | python_backend/app.py:147-168 | the loop computes `MatchScore`, a percentage |
| MatchApp.Classify | python_backend/app.py:225-230 | Success from 70, Partial Success from 40, Failure below; never Error |
| MatchApp.ThresholdsNest | python_backend/app.py:225-233 | a Success always sends the email and a Failure never does; a Partial Success sends it exactly from 50 |
| MatchApp.ResultsInOrder | python_backend/app.py:209-256 | one result per record, in order, each the result of that record |
| MatchApp.ResultShape | python_backend/app.py:210-256 | each result names its record; a scored one has a percentage whose status and email flag follow the thresholds; only a raised analysis gives Error |
| MatchApp.NameAndIdChains | python_backend/app.py:215-216 | no name key gives `Student <i+1>`, no id key gives `S<1000+i>`; a present key wins even when empty |
| MatchApp.ExtractorFor | python_backend/app.py:304-312 | `.pdf` selects the PDF reader, else `.docx` the DOCX reader, else plain text |
| MatchApp.PiecesTextPrefix | python_backend/app.py:82-102 | each piece read adds its text and a newline |
| MatchApp.ExtractPieces | python_backend/app.py:82-102 | the extraction loop returns the pieces' text up to the first exception |
| MatchApp.PiecesTextStops | python_backend/app.py:82-102 | nothing after the first failing piece is read |
| MatchApp.ProcessStudent | python_backend/app.py:210-256 | one iteration computes `ResultFor` |
| MatchApp.ReadJobDescription | python_backend/app.py:303-312 | the description is read by suffix; the PDF and DOCX readers never fail as a whole, while a plain-text read may raise and its error is passed on |
| MatchApp.Registry.constructor | python_backend/app.py:196 | the registry starts empty |
| MatchApp.Registry.ProcessStudentData | python_backend/app.py:196-263 | when the job analysis raises, outside the try, the job keeps status `processing` with only its total set and the error is returned; otherwise the loop raises the counter per record, produces exactly one result per record, and stores status, results and completion time at the end |
| MatchApp.Registry.JobStatus | python_backend/app.py:345-363 | 404 exactly for an unknown id; results only once the job is completed |
| MatchApp.Registry.Upload | python_backend/app.py:270-343 | missing parts or empty names give their 400, a raising save or plain-text read gives the outer 500, an unreadable CSV gives its 400; none adds a job; otherwise, and only then, the upload is accepted and one processing job counting the roster rows and the description's length is added |
| MatchApp.CompletedJobReports | python_backend/app.py:258-261 | a completed job carries exactly one result per record, the loop's results |
| DocGenerator.Sanitized | python_backend/document_generator/generator.py:72-87 | every invalid character becomes `_`, other characters are kept, cut to 50 |
| DocGenerator.SanitizedClean | python_backend/document_generator/generator.py:72-87 | a sanitised name has no invalid character and at most 50 characters |
| DocGenerator.SanitizedKeepsClean | python_backend/document_generator/generator.py:72-87 | a clean, short name is left alone |
| DocGenerator.SanitizedIdempotent | python_backend/document_generator/generator.py:72-87 | sanitising twice is sanitising once |
| DocGenerator.SanitizeFilename | python_backend/document_generator/generator.py:72-87 | the replace loop and slice compute `Sanitized` |
| DocGenerator.ParseFormat | python_backend/document_generator/generator.py:62-70 | exactly markdown, pdf and docx are supported formats |
| DocGenerator.PathJoinEndsWith | python_backend/document_generator/generator.py:97 | the joined path ends with the file name |
| DocGenerator.FileStaysInFolder | python_backend/document_generator/generator.py:59-103 | the generated name has no `/`, is not `.` or `..`, and is at most 157 characters, so the file lies directly in the output folder |
| DocGenerator.RecordFieldsRoundTrip | python_backend/document_generator/generator.py:113-118 | when no sanitised part contains `_`, the record gets exactly the sanitised email, company and role |
| DocGenerator.RecordFieldsCutEmail | python_backend/document_generator/generator.py:113-118 | an email with `_` is recorded cut short at it |
| DocGenerator.IntendedRecordFields | python_backend/document_generator/generator.py:113-118 | the intended fields join back to the base file name |
| DocGenerator.IntendedRecordFieldsCorrect | python_backend/document_generator/generator.py:113-118 | the intended fields agree with the split-back wherever it is right, and always name the sanitised email |
| DocGenerator.GenerateDocument | python_backend/document_generator/generator.py:31-151 | an unknown format or a failing write gives an error and no record; a record is kept exactly on success, naming the written file |
| DocGenerator.GeneratedRecordFields | python_backend/document_generator/generator.py:113-125 | a generated record names the sanitised email, company and role when none contains `_` |
| DocGenerator.ClassifyLine | python_backend/document_generator/generator.py:247-261 | the first matching marker decides the block kind, and the block's text is what follows it |
| DocGenerator.BlocksCount | python_backend/document_generator/generator.py:240-261 | blank lines vanish and every other line gives exactly one block |
| DocGenerator.DocxBlocks | python_backend/document_generator/generator.py:240-261 | the DOCX loop produces `BlocksOf` of the content's lines |
| DocProcessor.ParseFileKind | python_backend/vector_db/document_processor.py:71-96 | exactly pdf, docx, txt and csv are known types |
| DocProcessor.ExtractText | python_backend/vector_db/document_processor.py:71-96 | an unknown type or a raising reader gives empty text; otherwise the reader's text |
| DocProcessor.DictSet | python_backend/vector_db/document_processor.py:154 | after `d[k] = v`, k reads v and every other key is unchanged |
| DocProcessor.DictUpdateGet | python_backend/vector_db/document_processor.py:154 | after `d.update(row)`, each column reads as the row's value and other keys keep theirs |
| DocProcessor.RowPairs | python_backend/vector_db/document_processor.py:157 | at most one piece per column |
| DocProcessor.RowPairsMembers | python_backend/vector_db/document_processor.py:157 | every non-empty column contributes its `key: value` piece |
| DocProcessor.StudentSpecs | python_backend/vector_db/document_processor.py:136-165 | one chunk per roster row, with that row's text and metadata |
| DocProcessor.StudentMetadataFields | python_backend/vector_db/document_processor.py:136-165 | a row's metadata carries every column, overriding fixed keys, and otherwise names the document and the row |
| DocProcessor.StudentMetadataEmail | python_backend/vector_db/document_processor.py:141 | without an `email` column the metadata email is `Email`'s value, or empty |
| DocProcessor.Stem | python_backend/vector_db/document_processor.py:194 | the stem is a prefix of the name |
| DocProcessor.CompanyRole | python_backend/vector_db/document_processor.py:194-197 | the company is always the first `_` part of the stem, never its default |
| DocProcessor.CompanyRoleRoundTrip | python_backend/vector_db/document_processor.py:194-197 | a name `<company>_<role>.<ext>` gives back exactly that company and role |
| DocProcessor.CompanyRoleNoUnderscore | python_backend/vector_db/document_processor.py:194-197 | a name without `_` gives its whole stem as the company and Unknown as the role |
| DocProcessor.JobSpecs | python_backend/vector_db/document_processor.py:203-219 | one chunk per text piece, with index, company and role metadata |
| DocProcessor.ChunksOf | python_backend/vector_db/document_processor.py:160-171 | chunk i carries the document, index i, its spec's text and metadata, and the first id the vector store returned for it, none exactly when it returned none |
| DocProcessor.StoredEntriesMembers | python_backend/vector_db/vector_store.py:74-81 | the store holds a chunk's entry exactly when its call returned ids, and every chunk's entry when every call did |
| DocProcessor.Index.constructor | python_backend/vector_db/document_processor.py:25-32 | the chunk table and the vector store start empty |
| DocProcessor.Index.IndexChunks | python_backend/vector_db/document_processor.py:131-179 | the vector store gains, in order, the entry of each chunk whose call returned ids and no other; the result is the commit's, and the chunks are committed, one per spec in order, exactly when the commit succeeds |
| DocProcessor.Index.ProcessDocument | python_backend/vector_db/document_processor.py:34-69 | an unknown id, empty text, unknown type or unreadable roster gives False and changes nothing; otherwise the matching processor indexes that document's chunks, the vector store gains the accepted ones, and it succeeds exactly when the commit does |
| LlmAgent.DictChain | python_backend/llm_agent/agent.py:114-115 | the first present key's value wins, else the default |
| LlmAgent.NameChain | python_backend/llm_agent/agent.py:114-115 | name from `name`, else `Name`, else `full name of the student`, else `Student`; email from `email`, else `Email`, else empty |
| LlmAgent.JobDescriptionEmpty | python_backend/llm_agent/agent.py:97-101 | the joined description is empty exactly when there is no hit, or one empty hit |
| LlmAgent.GeneratePersonalizedDocument | python_backend/llm_agent/agent.py:28-57 | the guards come first, then the document; its behaviour is proved by `LlmAgent.Guards` (the two error answers, whatever the model says) and `LlmAgent.GeneratedDocument` (the front matter and the model's lines past the guards) |
| LlmAgent.Guards | python_backend/llm_agent/agent.py:44-57 | without student data the answer is the email error, without a description the company/role error, whatever the model would answer |
| LlmAgent.GeneratedDocument | python_backend/llm_agent/agent.py:143-163 | past the guards (student data found, joined description non-empty) the first eight lines are the front matter and the rest the model's lines; a model failure comes back as text |
| LlmAgent.JsonSpanShape | python_backend/llm_agent/agent.py:216-218 | the span is braced with no `{` before it and no `}` after it, and is missing exactly when no `{` is followed by a `}` |
| LlmAgent.JsonSpanEmbedded | python_backend/llm_agent/agent.py:216-218 | JSON wrapped in brace-free chatter is recovered exactly |
| LlmAgent.AnalyzeMatch | python_backend/llm_agent/agent.py:205-237 | parsed exactly when the model answered and the span (or the whole text) parses; otherwise the fixed fallback, carrying the message of a failed call |
| OllamaClient.SystemField | python_backend/llm_agent/ollama_client.py:55-56 | `system` is sent exactly for a non-empty system prompt |
| OllamaClient.GenerateOutcome | python_backend/llm_agent/ollama_client.py:30-79 | at most two requests: the first for the current model, a second only after a request error and only for the alternative; the answer or error text is the last request's |
| OllamaClient.Client.constructor | python_backend/llm_agent/ollama_client.py:20-28 | the base URL drops `/api/generate`; the given model unless missing or empty |
| OllamaClient.Client.Generate | python_backend/llm_agent/ollama_client.py:30-79 | returns `Generated` and always restores the model, so the client is unchanged after each call |
| OllamaClient.UrlRoundTrip | python_backend/llm_agent/ollama_client.py:26-41 | a configured URL ending in its only `/api/generate` is rebuilt exactly |
| OllamaClient.Embedding | python_backend/llm_agent/ollama_client.py:81-104 | the embedding field, empty when absent or on a request error |
| OllamaClient.ListModels | python_backend/llm_agent/ollama_client.py:106-122 | model names in server order; empty on a request error; an entry without `name` raises |
| OllamaClient.Names | python_backend/llm_agent/ollama_client.py:118 | names succeed exactly when every entry has one, and keep their order |
| ApiService.DedupeKeys | src/services/api.js:89 | de-duplication keeps every key exactly once |
| ApiService.DedupeFirst | src/services/api.js:264-275 | de-duplication keeps exactly the first occurrences, in order |
| ApiService.ScoreOf | src/services/api.js:21 | a score is within [0, 99] |
| ApiService.FitScores | src/services/api.js:19-22 | one score per selected role, in selection order, labelled with the role |
| ApiService.High | src/services/api.js:26-28 | exactly the roles scoring above 70 |
| ApiService.HighSorted | src/services/api.js:26-28 | filtering keeps the descending order |
| ApiService.RecommendedHigh | src/services/api.js:25-28 | when some role scores above 70, the recommendations are exactly those roles, best first |
| ApiService.RecommendedFallback | src/services/api.js:31-36 | otherwise the first recommendation is a best-scoring role and, with two or more roles, the second a best-scoring one among the others; undefined when nothing was selected |
| ApiService.CollectedMembers | src/services/api.js:80-86 | a skill is collected exactly when some selected role lists it |
| ApiService.Without | src/services/api.js:92 | exactly the skills not matched, keeping distinctness |
| ApiService.Matched | src/services/api.js:52-54 | exactly the names of Advanced or Intermediate skills |
| ApiService.MissingRule | src/services/api.js:80-92 | missing skills have no duplicates, share nothing with the matched ones, and are the selected roles' skills not matched |
| ApiService.AnalyzeProfile | src/services/api.js:10-105 | the analysis, including the per-role collection loop, computes `Analysis` |
| ApiService.MatchedRule | src/services/api.js:39-54 | matched skills are at most five and come from the first row's Advanced or Intermediate skills only |
| ApiService.RoleTopics | src/services/api.js:173-243 | each role has two or three topics, the default list otherwise |
| ApiService.TopicCount | src/services/api.js:252 | one or two topics per role |
| ApiService.Picked | src/services/api.js:248-257 | the topics taken are a prefix of the role's list |
| ApiService.GeneratedCount | src/services/api.js:252-255 | between one and two topics per selected role are collected |
| ApiService.GdTopicsRule | src/services/api.js:260-275 | titles are unique, each the first occurrence in order; the default list is used exactly when no role was selected |
| ApiService.CollectTopics | src/services/api.js:248-257 | the push loop collects `Generated` |
| ApiService.UniqueTopics | src/services/api.js:264-275 | the title-dedupe loop keeps exactly the first occurrences |
| ApiService.GenerateGdTopics | src/services/api.js:168-276 | the whole method computes `GdTopics` |
| ProcessingStatus.ProgressIsRounded | src/components/ProcessingStatus.js:32-35 | with a positive total, the percentage is the integer nearest to 100·processed/total, halves rounding up |
| ProcessingStatus.ProgressBounds | src/components/ProcessingStatus.js:33-34 | when processed is at most the total, progress is within [0, 100] and monotone, 0 for none and 100 for all; 0 without a positive total |
| ProcessingStatus.FormatTimeParse | src/components/ProcessingStatus.js:26-30 | the display reads back as the same number of seconds: minutes, a colon, and two digits below 60 |
| ProcessingStatus.StatusVariant | src/components/ProcessingStatus.js:37-48 | `secondary` exactly for statuses other than the three known ones |
| ProcessingStatus.ProcessingSeconds | src/components/ProcessingStatus.js:7-18 | never more seconds than ticks |
| ProcessingStatus.ProcessingSecondsExtremes | src/components/ProcessingStatus.js:7-18 | every tick during processing counts, and none outside it |
| ProcessingStatus.ElapsedCounter.constructor | src/components/ProcessingStatus.js:5 | the counter starts at 0 |
| ProcessingStatus.ElapsedCounter.Tick | src/components/ProcessingStatus.js:9-12 | a tick adds one second only while the status is `processing` |
| ProcessingStatus.ElapsedCounter.Run | src/components/ProcessingStatus.js:7-18 | a run of ticks adds exactly `ProcessingSeconds` |
| CsvUploader.ValidateFile | src/components/CsvUploader.js:11-23 | valid exactly for a `.csv` name within 5 MiB; type is checked before size |
| CsvUploader.CaseVariantRefused | src/components/CsvUploader.js:13 | the extension check is case-sensitive: every other letter case of `csv` is refused, whatever the size |
| CsvUploader.Preview | src/components/CsvUploader.js:58-61 | the preview is the first five rows, or all when fewer |
| CsvUploader.Component.constructor | src/components/CsvUploader.js:6-8 | no file, no error, no preview |
| CsvUploader.Component.HandleFileChange | src/components/CsvUploader.js:25-86 | the rows go upward exactly for a valid file that parsed to at least one row; otherwise `onUpload(null)` with the matching error and state |
| JdUploader.Extension | src/components/JobDescriptionUploader.js:12 | the lower-cased text from the last `.`, never longer than the name |
| JdUploader.ValidateFile | src/components/JobDescriptionUploader.js:9-24 | valid exactly for a `.pdf`, `.docx` or `.txt` extension within 10 MiB; extension checked first |
| JdUploader.ExtensionOf | src/components/JobDescriptionUploader.js:12 | a name ending `.<ext>` with no dot in ext has extension `.<ext>` lower-cased |
| JdUploader.NoDotRefused | src/components/JobDescriptionUploader.js:12-16 | a name with no dot is refused |
| JdUploader.AnyCaseAccepted | src/components/JobDescriptionUploader.js:12-16 | an allowed extension in any letter case is accepted within the size limit: the check ignores case |
| JdUploader.Component.constructor | src/components/JobDescriptionUploader.js:5-6 | no file, no error |
| JdUploader.Component.HandleFileChange | src/components/JobDescriptionUploader.js:26-51 | `onUpload(file)` exactly for a valid file; otherwise `onUpload(null)` with the matching error and state |

## Left out

- Concurrency. The Node loop runs after the 202 answer, the Python loop in a background thread, and the React effects asynchronously. Each is modelled as a sequential run. The Python race (the status is set to `completed` before the results are stored, python_backend/app.py:259-260) is not modelled.
- I/O and external services are parameters or oracles: the document store, the vector store, the HTTP providers, file reads, PDF and DOCX rendering, SMTP, and the file-system clean-up. `setupFolders` and the directories `mkdir` creates are left out. A raising `createStudentDirectory` is an outcome of the record (`dirError`).
- NLP skill extraction (tokenising, stop words, lemmatising) is an oracle. The model receives each profile's extracted skills, or the exception raised.
- The text splitter is an oracle. The model receives the chunk texts.
- `secure_filename` is an oracle. The model receives its result.
- Floating point. `round(match_score, 2)`, NaN and infinity are not modelled, and JavaScript numbers are exact rationals. `Math.round` is modelled exactly, as `floor(x + 1/2)`.
- Prompt wording is kept only as far as the contracts use it: the job description and the serialised row occur in every prompt.
- Topic descriptions and key points in the group-discussion topics are not modelled; only titles matter to the selection.
- The simulated delays (`setTimeout`, `time.sleep`) are not modelled.
- The DOM input reset is not modelled, nor is the asynchronous completion of Papa.parse. The parse outcome is a parameter.
- Lower-casing is ASCII-only. Unicode case mapping is not modelled.
- The pandas index of a row is the row's position.
- DocProcessor.RowPairs: every roster cell is read as a string, and an empty string counts as blank. pandas reads a blank cell as NaN, which is truthy, so the source writes a `key: nan` piece for it. pandas also reads a numeric column as numbers: `101` is printed as `101.0` when the column holds a blank, and `0` is falsy and dropped.
- DocProcessor.RowPairsMembers: states its property over string cells only, for the same reason.
- MatchApp.NameAndIdChains: the name and id come from string cells. A present but blank cell gives the text `nan` in the source, and a numeric id column gives `101` or `101.0`, not the cell's text.
- StudentController.JobTitle: the 100-character cut and `jobDescriptionLength` count characters. JavaScript counts UTF-16 code units, so the two differ for characters outside the Basic Multilingual Plane, and the cut may split a surrogate pair.
- Json.Entries: lists the columns in header order. A JavaScript object lists integer-like keys (`"0"`, `"42"`) first, in ascending numeric order, so a roster with such headers is serialised in a different order.
- StudentController.RecordEnv: the student's directory creation may raise, and then no store call is made. Otherwise at most one of the record's store calls raises, and the catch block's Job update is a separate outcome. A try block stops at its first raising call, so no outcome is lost. Log writes (`fs.appendFileSync`) are assumed not to raise. `sendEmail` is not part of this model; its result is the boolean `emailSent`, and it is assumed not to raise.
- Duplicate CSV headers are not modelled. A row's first column with a given name is the one read.
- A database session's rollback is modelled as restoring the chunk table. The vector store is not rolled back, as in the source.
- DocProcessor.StoredEntries: a chunk whose call returned no ids is counted as not stored. When Chroma's `add_documents` succeeds and the following `persist` raises (python_backend/vector_db/vector_store.py:75-76), the store does hold that chunk.
- ProcessingStatus.ElapsedCounter.Run: the counter is never reset when a new job's data arrives, as in the source. The effect's interval re-creation is modelled as one tick per second.
- The interview-audio endpoint, the other front-end components and the scripts are not part of this model.
- Wiring defects that the model does not reproduce:
  - server/server.js uses `Job` and `Student` without importing them (lines 80, 96, 107). The model treats them as the imported models.
  - python_backend/vector_db/document_processor.py:43 uses `Session` without importing it. The model treats it as the database session.
- src/components/ProcessingStatus.js:82 tests for status `'error'`, a value the Job schema never stores. Rendering is not modelled.
- LlmAgent.GeneratedDocument: the front matter's company and role are read from the student's metadata rather than the request's arguments (python_backend/llm_agent/agent.py:154-155). This is modelled as written.

## Findings

| source | as written | input that shows it | evidently intended | confidence | as-written member | corrected member |
|---|---|---|---|---|---|---|
| server/server.js:44-68 | the file filter admits job descriptions under the field `jobDescription`, but the upload route declares `jobDesc`, so no job-description file is ever admitted and no upload reaches the controller with both files | a plain-text job description of 100 bytes under field `jobDesc`: refused with `Unexpected field` | the filter keyed on `jobDesc`, the field the route and the controller use | not executed | ServerRoutes.JobDescTextRejected | ServerRoutes.AdmitCorrectedExactly |
| python_backend/document_generator/generator.py:113-118 | the record's email, company and role are recovered by splitting the base file name on `_`, which cuts any part that itself contains `_` | email `john_doe@x.com`, company `Acme`, role `Dev`: recorded as (`john`, `doe@x.com`, `Acme`) | the record carries the sanitised inputs themselves | not executed | DocGenerator.RecordFieldsCutEmail | DocGenerator.IntendedRecordFieldsCorrect |
