/** `LLMAgent`: builds a personalised document for a student and a (company, role) pair
    from what the vector store holds, and asks the model to score a match as JSON. The vector
    store searches, the model call, the JSON parser and the date are parameters. */
module LlmAgent {
  import opened Wrappers
  import Text
  import DocProcessor

  type Dict = DocProcessor.Dict

  /** `f"{v}"` of a metadata value. */
  function Show(v: DocProcessor.MetaValue): string {
    match v
    case StrValue(s) => s
    case IntValue(i) => if i < 0 then "-" + Text.NatToString(-i) else Text.NatToString(i)
  }

  /** `d.get(keys[0], d.get(keys[1], ... default))`: the first present key wins. */
  function DictChain(d: Dict, keys: seq<string>, default: string): (r: string)
    ensures (forall i :: 0 <= i < |keys| ==> DocProcessor.DictGet(d, keys[i]).None?) ==> r == default
    ensures forall i :: 0 <= i < |keys| && DocProcessor.DictGet(d, keys[i]).Some?
              && (forall j :: 0 <= j < i ==> DocProcessor.DictGet(d, keys[j]).None?)
              ==> r == Show(DocProcessor.DictGet(d, keys[i]).value)
  {
    if keys == [] then default
    else if DocProcessor.DictGet(d, keys[0]).Some? then Show(DocProcessor.DictGet(d, keys[0]).value)
    else DictChain(d, keys[1..], default)
  }

  const NameKeys: seq<string> := ["name", "Name", "full name of the student"]
  const EmailKeys: seq<string> := ["email", "Email"]

  function StudentName(d: Dict): string { DictChain(d, NameKeys, "Student") }
  function StudentEmail(d: Dict): string { DictChain(d, EmailKeys, "") }

  /** The name is taken from `name`, else `Name`, else `full name of the student`, else it
      is `Student`; a present key wins even when its value is empty. */
  lemma NameChain(d: Dict)
    ensures DocProcessor.DictGet(d, "name").Some? ==> StudentName(d) == Show(DocProcessor.DictGet(d, "name").value)
    ensures DocProcessor.DictGet(d, "name").None? && DocProcessor.DictGet(d, "Name").Some? ==>
              StudentName(d) == Show(DocProcessor.DictGet(d, "Name").value)
    ensures DocProcessor.DictGet(d, "name").None? && DocProcessor.DictGet(d, "Name").None?
            && DocProcessor.DictGet(d, "full name of the student").Some? ==>
              StudentName(d) == Show(DocProcessor.DictGet(d, "full name of the student").value)
    ensures DocProcessor.DictGet(d, "name").None? && DocProcessor.DictGet(d, "Name").None?
            && DocProcessor.DictGet(d, "full name of the student").None? ==>
              StudentName(d) == "Student"
    ensures DocProcessor.DictGet(d, "email").Some? ==> StudentEmail(d) == Show(DocProcessor.DictGet(d, "email").value)
    ensures DocProcessor.DictGet(d, "email").None? && DocProcessor.DictGet(d, "Email").None? ==> StudentEmail(d) == ""
  {
    assert NameKeys[0] == "name" && NameKeys[1] == "Name" && NameKeys[2] == "full name of the student";
    assert EmailKeys[0] == "email" && EmailKeys[1] == "Email";
    if DocProcessor.DictGet(d, "name").None? && DocProcessor.DictGet(d, "Name").Some? {
      assert forall j :: 0 <= j < 1 ==> DocProcessor.DictGet(d, NameKeys[j]).None?;
    }
    if DocProcessor.DictGet(d, "name").None? && DocProcessor.DictGet(d, "Name").None? {
      assert forall j :: 0 <= j < 2 ==> DocProcessor.DictGet(d, NameKeys[j]).None?;
    }
  }

  // ---------------------------------------------------------------- the personalised document

  /** `_get_student_data`: the metadata of the first hit of the student search, else `{}`. */
  function StudentData(hits: seq<Dict>): Dict {
    if hits == [] then [] else hits[0]
  }

  /** `_get_job_description`: the texts of the job-description hits joined by a blank line. */
  function JobDescription(hits: seq<string>): string {
    Text.Join(hits, "\n\n")
  }

  /** The joined description is empty exactly when there is at most one hit and it is empty. */
  lemma {:induction false} JobDescriptionEmpty(hits: seq<string>)
    ensures JobDescription(hits) == "" <==> |hits| == 0 || (|hits| == 1 && hits[0] == "")
  {
    if |hits| > 1 {
      assert |JobDescription(hits)| >= 2;
    }
  }

  /** The front matter lines: `---`, the four fields, the date, `---` and an empty line. The
      company and role are read from the student's metadata, not from the request. */
  function HeaderLines(d: Dict, today: string): seq<string> {
    ["---", "student_name: " + StudentName(d), "student_email: " + StudentEmail(d),
     "company: " + DictChain(d, ["company"], ""), "role: " + DictChain(d, ["role"], ""),
     "generated_date: " + today, "---", ""]
  }

  function Header(d: Dict, today: string): string {
    Text.Join(HeaderLines(d, today), "\n") + "\n"
  }

  /** `_generate_document`: the header and the model's text, or the model's failure as text. */
  function GenerateDocumentText(d: Dict, llm: Result<string, string>, today: string): string {
    match llm
    case Ok(text) => Header(d, today) + text
    case Err(e) => "Error generating document: " + e
  }

  /** `generate_personalized_document`: the two guards, then the document. */
  function GeneratePersonalizedDocument(email: string, company: string, role: string, studentHits: seq<Dict>,
                                        jobHits: seq<string>, llm: Result<string, string>, today: string): string {
    var d := StudentData(studentHits);
    if d == [] then "Error: No student data found for email: " + email
    else
      var jd := JobDescription(jobHits);
      if jd == "" then "Error: No job description found for company: " + company + ", role: " + role
      else GenerateDocumentText(d, llm, today)
  }

  /** Without student data the answer is the email error whatever the other inputs are, so
      the model's outcome never matters; without a job description, the company/role error. */
  lemma Guards(email: string, company: string, role: string, studentHits: seq<Dict>, jobHits: seq<string>,
               llm1: Result<string, string>, llm2: Result<string, string>, today: string)
    ensures StudentData(studentHits) == [] ==>
              GeneratePersonalizedDocument(email, company, role, studentHits, jobHits, llm1, today)
              == GeneratePersonalizedDocument(email, company, role, studentHits, jobHits, llm2, today)
              == "Error: No student data found for email: " + email
    ensures StudentData(studentHits) != [] && (|jobHits| == 0 || (|jobHits| == 1 && jobHits[0] == "")) ==>
              GeneratePersonalizedDocument(email, company, role, studentHits, jobHits, llm1, today)
              == GeneratePersonalizedDocument(email, company, role, studentHits, jobHits, llm2, today)
              == "Error: No job description found for company: " + company + ", role: " + role
  {
    JobDescriptionEmpty(jobHits);
  }

  /** With data, a description and a model answer, the document's first eight lines are the
      front matter and the rest are the answer's lines, provided no field holds a newline; a
      model failure is returned as text instead of raised. */
  lemma GeneratedDocument(email: string, company: string, role: string, studentHits: seq<Dict>,
                          jobHits: seq<string>, llm: Result<string, string>, today: string)
    requires StudentData(studentHits) != [] && JobDescription(jobHits) != ""
    ensures var d := StudentData(studentHits);
            var doc := GeneratePersonalizedDocument(email, company, role, studentHits, jobHits, llm, today);
            (llm.Err? ==> doc == "Error generating document: " + llm.error)
            && (llm.Ok? && (forall k :: 0 <= k < |HeaderLines(d, today)| ==> '\n' !in HeaderLines(d, today)[k]) ==>
                  Text.Split(doc, '\n') == HeaderLines(d, today) + Text.Split(llm.value, '\n'))
  {
    JobDescriptionEmpty(jobHits);
    var d := StudentData(studentHits);
    if llm.Ok? && (forall k :: 0 <= k < |HeaderLines(d, today)| ==> '\n' !in HeaderLines(d, today)[k]) {
      Text.SplitJoinPrefix(HeaderLines(d, today), llm.value, '\n');
    }
  }

  // ---------------------------------------------------------------- match analysis

  /** `re.search(r'({.*})', text, re.DOTALL)`: from the first `{` to the last `}` after it. */
  function JsonSpan(text: string): Option<string> {
    var f := Text.IndexOf(text, '{');
    var l := Text.LastIndexOf(text, '}');
    if 0 <= f < l then Some(text[f..l + 1]) else None
  }

  /** The span is braced, sits in the text with no `{` before it and no `}` after it, and is
      missing exactly when no `{` is followed by a `}`. */
  lemma JsonSpanShape(text: string)
    ensures JsonSpan(text).None? <==> forall i, j :: 0 <= i < j < |text| && text[i] == '{' ==> text[j] != '}'
    ensures JsonSpan(text).Some? ==>
              var s := JsonSpan(text).value;
              |s| >= 2 && s[0] == '{' && s[|s| - 1] == '}'
              && exists pre, post :: text == pre + s + post && '{' !in pre && '}' !in post
  {
    JsonSpanMissing(text);
    JsonSpanBraced(text);
  }

  lemma JsonSpanMissing(text: string)
    ensures JsonSpan(text).None? <==> forall i, j :: 0 <= i < j < |text| && text[i] == '{' ==> text[j] != '}'
  {
    var f := Text.IndexOf(text, '{');
    var l := Text.LastIndexOf(text, '}');
    if 0 <= f < l {
      assert JsonSpan(text).Some?;
      assert text[f] == '{' && text[l] == '}';
    } else {
      assert JsonSpan(text) == None;
      NoBracePair(text, f, l);
    }
  }

  lemma JsonSpanBraced(text: string)
    ensures JsonSpan(text).Some? ==>
              var s := JsonSpan(text).value;
              |s| >= 2 && s[0] == '{' && s[|s| - 1] == '}'
              && exists pre, post :: text == pre + s + post && '{' !in pre && '}' !in post
  {
    var f := Text.IndexOf(text, '{');
    var l := Text.LastIndexOf(text, '}');
    if 0 <= f < l {
      assert JsonSpan(text) == Some(text[f..l + 1]);
      SpanSplit(text, f, l);
    }
  }

  /** The text from a `{` with none before it to a `}` with none after it. */
  lemma SpanSplit(text: string, f: int, l: int)
    requires 0 <= f < l < |text| && text[f] == '{' && text[l] == '}'
    requires forall k :: 0 <= k < f ==> text[k] != '{'
    requires forall k :: l < k < |text| ==> text[k] != '}'
    ensures var s := text[f..l + 1];
            |s| >= 2 && s[0] == '{' && s[|s| - 1] == '}'
            && exists pre, post :: text == pre + s + post && '{' !in pre && '}' !in post
  {
    var pre, s, post := text[..f], text[f..l + 1], text[l + 1..];
    assert text == pre + s + post;
    assert '{' !in pre && '}' !in post;
  }

  lemma NoBracePair(text: string, f: int, l: int)
    requires f == Text.IndexOf(text, '{') && l == Text.LastIndexOf(text, '}')
    requires !(0 <= f < l)
    ensures forall i, j :: 0 <= i < j < |text| && text[i] == '{' ==> text[j] != '}'
  {
    forall i, j | 0 <= i < j < |text| && text[i] == '{' ensures text[j] != '}' {
      assert 0 <= f <= i;
      assert l < j;
    }
  }

  /** JSON wrapped in chatter that has no braces is recovered exactly. */
  lemma JsonSpanEmbedded(pre: string, json: string, post: string)
    requires '{' !in pre && '}' !in post
    requires |json| >= 2 && json[0] == '{' && json[|json| - 1] == '}'
    ensures JsonSpan(pre + json + post) == Some(json)
  {
    var text := pre + json + post;
    assert text[|pre|] == '{';
    assert Text.IndexOf(text, '{') == |pre|;
    assert text[|pre| + |json| - 1] == '}';
    assert Text.LastIndexOf(text, '}') == |pre| + |json| - 1;
    assert text[|pre|..|pre| + |json|] == json;
  }

  datatype Analysis =
    | Parsed(json: string)
    | Fallback(matchScore: int, strengths: seq<string>, improvementAreas: seq<string>, assessment: string)

  /** `analyze_match`: the braced span (or the whole answer) if it parses, otherwise the
      fallback; a failing model call gives the fallback carrying its message. `parses` is
      `json.loads` succeeding. */
  function AnalyzeMatch(llm: Result<string, string>, parses: string -> bool): (a: Analysis)
    ensures a.Fallback? ==> a.matchScore == 0 && a.strengths == [] && a.improvementAreas == ["Error analyzing match"]
    ensures a.Parsed? <==> llm.Ok? && parses(if JsonSpan(llm.value).Some? then JsonSpan(llm.value).value else llm.value)
    ensures a.Parsed? && JsonSpan(llm.value).Some? ==> a.json == JsonSpan(llm.value).value
    ensures llm.Err? ==> a.assessment == "Error analyzing match: " + llm.error
    ensures llm.Ok? && a.Fallback? ==> a.assessment == "Error analyzing match"
  {
    match llm
    case Err(e) => Fallback(0, [], ["Error analyzing match"], "Error analyzing match: " + e)
    case Ok(text) =>
      var candidate := if JsonSpan(text).Some? then JsonSpan(text).value else text;
      if parses(candidate) then Parsed(candidate) else Fallback(0, [], ["Error analyzing match"], "Error analyzing match")
  }
}
