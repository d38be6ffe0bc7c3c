/** The Node-side LLM service: choose a provider from the environment, build its request
    from the roster row and the job description, and read the generated text out of the
    reply. The HTTP exchange itself is a parameter: the model receives the reply the provider
    gave to the request it was sent. */
module LlmService {
  import opened Wrappers
  import Text
  import Records
  import Json

  /** The environment variables the service reads; an empty value counts as unset. */
  datatype LlmEnv = LlmEnv(
    endpoint: Option<string>,
    openAiKey: Option<string>,
    openAiModel: Option<string>,
    ollamaUrl: Option<string>,
    ollamaModel: Option<string>,
    ollamaEmbedModel: Option<string>)

  /** JavaScript `v || fallback` on an environment variable. */
  function Or(v: Option<string>, fallback: string): (r: string)
    ensures v.Some? && v.value != "" ==> r == v.value
    ensures v.None? || v.value == "" ==> r == fallback
  {
    if v.Some? && v.value != "" then v.value else fallback
  }

  const OpenAiUrl: string := "https://api.openai.com/v1/chat/completions"
  const DefaultOpenAiModel: string := "gpt-3.5-turbo"
  const DefaultGenerateUrl: string := "http://localhost:11434/api/generate"
  const DefaultOllamaModel: string := "mistral:latest"
  const DefaultEmbedUrl: string := "http://localhost:11434/api/embeddings"
  const DefaultEmbedModel: string := "nomic-embed-text"

  const SystemPrompt: string :=
    "You are a career counselor analyzing a student profile against a job description. Provide a detailed analysis of how well the student matches the job, highlighting strengths, areas for improvement, and specific recommendations."

  const OpenAiUserHead: string :=
    "\n"
    + "              Student Profile:\n"
    + "              "

  const OpenAiUserMiddle: string :=
    "\n"
    + "              \n"
    + "              Job Description:\n"
    + "              "

  const OpenAiUserTail: string :=
    "\n"
    + "              \n"
    + "              Please provide a detailed analysis of how well this student matches the job description. Include:\n"
    + "              1. Overall match assessment\n"
    + "              2. Key strengths relevant to the position\n"
    + "              3. Skills gaps and areas for improvement\n"
    + "              4. Specific recommendations for the student to better prepare for this role\n"
    + "              5. Suggested resources or courses that would help the student\n"
    + "            "

  const OllamaPromptHead: string :=
    "\n"
    + "          You are a career counselor analyzing a student profile against a job description. Provide a detailed analysis of how well the student matches the job, highlighting strengths, areas for improvement, and specific recommendations.\n"
    + "          \n"
    + "          Student Profile:\n"
    + "          "

  const OllamaPromptMiddle: string :=
    "\n"
    + "          \n"
    + "          Job Description:\n"
    + "          "

  const OllamaPromptTail: string :=
    "\n"
    + "          \n"
    + "          Please provide a detailed analysis of how well this student matches the job description. Include:\n"
    + "          1. Overall match assessment (with a percentage score)\n"
    + "          2. Key strengths relevant to the position\n"
    + "          3. Skills gaps and areas for improvement\n"
    + "          4. Specific recommendations for the student to better prepare for this role\n"
    + "          5. Suggested resources or courses that would help the student\n"
    + "          6. A personalized career development plan\n"
    + "          \n"
    + "          Format your response in a professional manner suitable for a PDF report. Use clear headings and bullet points where appropriate.\n"
    + "        "

  /** The user message sent to the chat-completion provider. */
  function OpenAiUserMessage(row: Records.Row, jobDescription: string): (m: string)
    ensures Text.IsInfix(jobDescription, m) && Text.IsInfix(Json.Stringify(row), m)
  {
    Text.InfixOfConcat(OpenAiUserHead + Json.Stringify(row) + OpenAiUserMiddle, jobDescription, OpenAiUserTail);
    Text.InfixOfConcat(OpenAiUserHead, Json.Stringify(row), OpenAiUserMiddle + jobDescription + OpenAiUserTail);
    assert OpenAiUserHead + Json.Stringify(row) + (OpenAiUserMiddle + jobDescription + OpenAiUserTail)
        == OpenAiUserHead + Json.Stringify(row) + OpenAiUserMiddle + jobDescription + OpenAiUserTail;
    OpenAiUserHead + Json.Stringify(row) + OpenAiUserMiddle + jobDescription + OpenAiUserTail
  }

  /** The single prompt sent to the local generation provider. */
  function OllamaPrompt(row: Records.Row, jobDescription: string): (m: string)
    ensures Text.IsInfix(jobDescription, m) && Text.IsInfix(Json.Stringify(row), m)
  {
    Text.InfixOfConcat(OllamaPromptHead + Json.Stringify(row) + OllamaPromptMiddle, jobDescription, OllamaPromptTail);
    Text.InfixOfConcat(OllamaPromptHead, Json.Stringify(row), OllamaPromptMiddle + jobDescription + OllamaPromptTail);
    assert OllamaPromptHead + Json.Stringify(row) + (OllamaPromptMiddle + jobDescription + OllamaPromptTail)
        == OllamaPromptHead + Json.Stringify(row) + OllamaPromptMiddle + jobDescription + OllamaPromptTail;
    OllamaPromptHead + Json.Stringify(row) + OllamaPromptMiddle + jobDescription + OllamaPromptTail
  }

  /** A request the service sends. Chat completions carry temperature 0.7 and at most 1000
      tokens; generation carries `stream: false`, temperature 0.7 and at most 2000 tokens. */
  datatype ProviderRequest =
    | ChatCompletion(url: string, authorization: string, model: string, system: string, user: string,
                     temperature: real, maxTokens: nat)
    | Generate(url: string, model: string, prompt: string, stream: bool, temperature: real, maxTokens: nat)
    | Embed(url: string, model: string, prompt: string)

  datatype ChatMessage = ChatMessage(content: Option<string>)
  datatype Choice = Choice(message: Option<ChatMessage>)

  /** The parts of a reply body the service reads. */
  datatype ReplyBody = ReplyBody(choices: Option<seq<Choice>>, response: Option<string>, embedding: Option<seq<real>>)

  /** What the HTTP client yields for a request: a failure with its message, or a body. */
  datatype ProviderReply = RequestFailed(message: string) | Replied(body: ReplyBody)

  /** The outcome of one service call: the request it sent, if any, and the generated text
      (possibly undefined) or the message of the error it throws. */
  datatype LlmCall = LlmCall(request: Option<ProviderRequest>, outcome: Result<Option<string>, string>)

  /** `response.data.choices[0].message.content`, with the TypeError an undefined step raises. */
  function ChatContent(body: ReplyBody): (r: Result<Option<string>, string>)
    ensures r.Ok? <==> body.choices.Some? && |body.choices.value| > 0 && body.choices.value[0].message.Some?
    ensures r.Ok? ==> r.value == body.choices.value[0].message.value.content
  {
    if body.choices.None? then Err("Cannot read properties of undefined (reading '0')")
    else if |body.choices.value| == 0 then Err("Cannot read properties of undefined (reading 'message')")
    else if body.choices.value[0].message.None? then Err("Cannot read properties of undefined (reading 'content')")
    else Ok(body.choices.value[0].message.value.content)
  }

  const ServicePrefix: string := "Error calling LLM service: "
  const OpenAiPrefix: string := "OpenAI API error: "
  const OllamaPrefix: string := "Ollama API error: "

  function CallOpenAi(env: LlmEnv, row: Records.Row, jobDescription: string, reply: ProviderReply): (c: LlmCall)
    ensures Or(env.openAiKey, "") == "" ==> c == LlmCall(None, Err(OpenAiPrefix + "OpenAI API key not configured"))
    ensures Or(env.openAiKey, "") != "" ==>
              c.request.Some? && c.request.value.ChatCompletion?
              && c.request.value.authorization == "Bearer " + env.openAiKey.value
              && c.request.value.user == OpenAiUserMessage(row, jobDescription)
    ensures c.outcome.Err? ==> Text.StartsWith(c.outcome.error, OpenAiPrefix)
    ensures c.outcome.Ok? <==> c.request.Some? && reply.Replied? && ChatContent(reply.body).Ok?
    ensures c.outcome.Ok? ==> c.outcome.value == ChatContent(reply.body).value
  {
    if env.openAiKey.None? || env.openAiKey.value == "" then
      LlmCall(None, Err(OpenAiPrefix + "OpenAI API key not configured"))
    else
      var req := ChatCompletion(OpenAiUrl, "Bearer " + env.openAiKey.value, Or(env.openAiModel, DefaultOpenAiModel),
                                SystemPrompt, OpenAiUserMessage(row, jobDescription), 0.7, 1000);
      match reply
      case RequestFailed(m) => LlmCall(Some(req), Err(OpenAiPrefix + m))
      case Replied(body) =>
        match ChatContent(body)
        case Ok(text) => LlmCall(Some(req), Ok(text))
        case Err(m) => LlmCall(Some(req), Err(OpenAiPrefix + m))
  }

  function CallOllama(env: LlmEnv, row: Records.Row, jobDescription: string, reply: ProviderReply): (c: LlmCall)
    ensures c.request.Some? && c.request.value.Generate? && c.request.value.prompt == OllamaPrompt(row, jobDescription)
    ensures c.outcome.Err? ==> Text.StartsWith(c.outcome.error, OllamaPrefix)
    ensures c.outcome.Ok? <==> reply.Replied?
    ensures c.outcome.Ok? ==> c.outcome.value == reply.body.response
  {
    var req := Generate(Or(env.ollamaUrl, DefaultGenerateUrl), Or(env.ollamaModel, DefaultOllamaModel),
                        OllamaPrompt(row, jobDescription), false, 0.7, 2000);
    match reply
    case RequestFailed(m) => LlmCall(Some(req), Err(OllamaPrefix + m))
    case Replied(body) => LlmCall(Some(req), Ok(body.response))
  }

  /** The endpoint `LLM_ENDPOINT || 'openai'` names: never empty, the configured one when set. */
  function Endpoint(env: LlmEnv): (e: string)
    ensures e != ""
    ensures env.endpoint.Some? && env.endpoint.value != "" ==> e == env.endpoint.value
    ensures env.endpoint.None? || env.endpoint.value == "" ==> e == "openai"
  {
    Or(env.endpoint, "openai")
  }

  /** The prompt text a request carries to the model. */
  function PromptOf(req: ProviderRequest): string {
    match req
    case ChatCompletion(_, _, _, _, user, _, _) => user
    case Generate(_, _, prompt, _, _, _) => prompt
    case Embed(_, _, prompt) => prompt
  }

  /** `generatePersonalizedDocument(row, jobDescription)`. Every error it throws carries the
      service prefix; no request leaves for an unknown endpoint or a missing API key; any
      request that leaves holds the job description and the serialised row, and a chat
      request carries the key as a bearer token; the call succeeds exactly when the provider
      answered with a body the service can read. */
  function GenerateDocument(env: LlmEnv, row: Records.Row, jobDescription: string, reply: ProviderReply): (c: LlmCall)
    ensures c.outcome.Err? ==> Text.StartsWith(c.outcome.error, ServicePrefix)
    ensures Endpoint(env) != "openai" && Endpoint(env) != "ollama" ==>
              c == LlmCall(None, Err(ServicePrefix + ("Unsupported LLM endpoint: " + Endpoint(env))))
    ensures Endpoint(env) == "openai" && Or(env.openAiKey, "") == "" ==>
              c == LlmCall(None, Err(ServicePrefix + (OpenAiPrefix + "OpenAI API key not configured")))
    ensures Endpoint(env) == "openai" && Or(env.openAiKey, "") != "" ==>
              c.request.Some? && c.request.value.ChatCompletion?
              && c.request.value.authorization == "Bearer " + env.openAiKey.value
    ensures Endpoint(env) == "ollama" ==> c.request.Some? && c.request.value.Generate?
    ensures c.request.Some? ==>
              Text.IsInfix(jobDescription, PromptOf(c.request.value))
              && Text.IsInfix(Json.Stringify(row), PromptOf(c.request.value))
    ensures c.outcome.Ok? <==>
              c.request.Some? && reply.Replied? && (c.request.value.Generate? || ChatContent(reply.body).Ok?)
    ensures c.outcome.Ok? ==>
              c.outcome.value == (if c.request.value.Generate? then reply.body.response else ChatContent(reply.body).value)
  {
    var endpoint := Endpoint(env);
    if endpoint == "openai" then Rethrow(CallOpenAi(env, row, jobDescription, reply))
    else if endpoint == "ollama" then Rethrow(CallOllama(env, row, jobDescription, reply))
    else Rethrow(LlmCall(None, Err("Unsupported LLM endpoint: " + endpoint)))
  }

  /** What `generatePersonalizedDocument` yields, in terms of the configuration and the
      provider's reply alone: the text the reply carries, or the error the call throws. */
  function DocumentOutcome(env: LlmEnv, reply: ProviderReply): (r: Result<Option<string>, string>)
    ensures r.Err? ==> Text.StartsWith(r.error, ServicePrefix)
    ensures r.Ok? <==> reply.Replied? && (Endpoint(env) == "ollama"
                         || (Endpoint(env) == "openai" && Or(env.openAiKey, "") != "" && ChatContent(reply.body).Ok?))
  {
    var endpoint := Endpoint(env);
    var inner: Result<Option<string>, string> :=
      if endpoint == "openai" then
        if Or(env.openAiKey, "") == "" then Err(OpenAiPrefix + "OpenAI API key not configured")
        else match reply
          case RequestFailed(m) => Err(OpenAiPrefix + m)
          case Replied(body) =>
            match ChatContent(body)
            case Ok(text) => Ok(text)
            case Err(m) => Err(OpenAiPrefix + m)
      else if endpoint == "ollama" then
        match reply
        case RequestFailed(m) => Err(OllamaPrefix + m)
        case Replied(body) => Ok(body.response)
      else Err("Unsupported LLM endpoint: " + endpoint);
    match inner
    case Ok(v) => Ok(v)
    case Err(m) =>
      assert (ServicePrefix + m)[..|ServicePrefix|] == ServicePrefix;
      Err(ServicePrefix + m)
  }

  /** The outcome of a call does not depend on the student row or the job description that
      went into the prompt: it is fixed by the configuration and the provider's reply. */
  lemma OutcomeIgnoresPrompt(env: LlmEnv, row: Records.Row, jobDescription: string, reply: ProviderReply)
    ensures GenerateDocument(env, row, jobDescription, reply).outcome == DocumentOutcome(env, reply)
  {
  }

  /** The outer `catch` that re-throws any error under the service prefix. */
  function Rethrow(c: LlmCall): (w: LlmCall)
    ensures w.request == c.request
    ensures c.outcome.Ok? ==> w == c
    ensures c.outcome.Err? ==> w.outcome == Err(ServicePrefix + c.outcome.error)
    ensures w.outcome.Err? ==> Text.StartsWith(w.outcome.error, ServicePrefix)
  {
    match c.outcome
    case Ok(_) => c
    case Err(m) =>
      assert (ServicePrefix + m)[..|ServicePrefix|] == ServicePrefix;
      LlmCall(c.request, Err(ServicePrefix + m))
  }

  /** `generateEmbeddings(text)`; note that it shares `OLLAMA_URL` with generation. */
  function GenerateEmbeddings(env: LlmEnv, text: string, reply: ProviderReply): (r: (ProviderRequest, Result<Option<seq<real>>, string>))
    ensures r.0 == Embed(Or(env.ollamaUrl, DefaultEmbedUrl), Or(env.ollamaEmbedModel, DefaultEmbedModel), text)
    ensures r.1.Err? <==> reply.RequestFailed?
    ensures reply.RequestFailed? ==> r.1.error == "Error generating embeddings: " + reply.message
    ensures reply.Replied? ==> r.1.value == reply.body.embedding
  {
    var req := Embed(Or(env.ollamaUrl, DefaultEmbedUrl), Or(env.ollamaEmbedModel, DefaultEmbedModel), text);
    match reply
    case RequestFailed(m) => (req, Err("Error generating embeddings: " + m))
    case Replied(body) => (req, Ok(body.embedding))
  }
}
