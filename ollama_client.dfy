/** `OllamaClient`: a client of the Ollama HTTP API holding a base URL and the model in use.
    `generate` falls back once to the alternative model and then puts the original model
    back. The HTTP server is a parameter mapping each request to its reply. */
module OllamaClient {
  import opened Wrappers
  import Text

  /** What `requests.post`/`get` gives back: the decoded JSON body, or a request error. */
  datatype Reply<T> = Answered(body: T) | RequestError(message: string)

  /** The generation payload; `system` is present only for a non-empty system prompt.
      The sampling options (temperature 0.7, top_p 0.9, top_k 40) are constants. */
  datatype GenerateRequest = GenerateRequest(url: string, model: string, prompt: string, system: Option<string>, numPredict: int)

  /** `if system_prompt: payload["system"] = system_prompt`. */
  function SystemField(systemPrompt: Option<string>): (f: Option<string>)
    ensures f.Some? <==> systemPrompt.Some? && systemPrompt.value != ""
    ensures f.Some? ==> f == systemPrompt
  {
    if systemPrompt.Some? && systemPrompt.value != "" then systemPrompt else None
  }

  function Payload(baseUrl: string, model: string, prompt: string, systemPrompt: Option<string>, maxTokens: int): GenerateRequest {
    GenerateRequest(baseUrl + "/api/generate", model, prompt, SystemField(systemPrompt), maxTokens)
  }

  /** The `response` field of a reply body, `''` when absent. */
  function ResponseText(body: Option<string>): string {
    if body.Some? then body.value else ""
  }

  /** What `generate` returns: the answer for the current model; on a request error, when the
      current model is not the alternative, whatever the same call returns for the
      alternative; otherwise the error as text. */
  function Generated(baseUrl: string, model: string, alternative: string, prompt: string, systemPrompt: Option<string>,
                     maxTokens: int, server: GenerateRequest -> Reply<Option<string>>): string
    decreases if model != alternative then 1 else 0
  {
    match server(Payload(baseUrl, model, prompt, systemPrompt, maxTokens))
    case Answered(body) => ResponseText(body)
    case RequestError(e) =>
      if model != alternative then Generated(baseUrl, alternative, alternative, prompt, systemPrompt, maxTokens, server)
      else "Error generating text: " + e
  }

  /** The requests `generate` sends, in order. */
  function Sent(baseUrl: string, model: string, alternative: string, prompt: string, systemPrompt: Option<string>,
                maxTokens: int, server: GenerateRequest -> Reply<Option<string>>): seq<GenerateRequest>
  {
    var first := Payload(baseUrl, model, prompt, systemPrompt, maxTokens);
    if server(first).RequestError? && model != alternative
    then [first, Payload(baseUrl, alternative, prompt, systemPrompt, maxTokens)]
    else [first]
  }

  /** At most two requests go out, the first for the current model, a second only after a
      request error and only for the alternative; the answer is the first request's if it
      was answered, otherwise the second's, and an error text names the LAST failure. */
  lemma GenerateOutcome(baseUrl: string, model: string, alternative: string, prompt: string, systemPrompt: Option<string>,
                        maxTokens: int, server: GenerateRequest -> Reply<Option<string>>)
    ensures var sent := Sent(baseUrl, model, alternative, prompt, systemPrompt, maxTokens, server);
            var text := Generated(baseUrl, model, alternative, prompt, systemPrompt, maxTokens, server);
            1 <= |sent| <= 2 && sent[0].model == model && sent[|sent| - 1].model in {model, alternative}
            && (forall k :: 0 <= k < |sent| ==> sent[k].system == SystemField(systemPrompt) && sent[k].prompt == prompt)
            && (server(sent[|sent| - 1]).Answered? ==> text == ResponseText(server(sent[|sent| - 1]).body))
            && (server(sent[|sent| - 1]).RequestError? ==> text == "Error generating text: " + server(sent[|sent| - 1]).message)
            && (|sent| == 2 <==> server(sent[0]).RequestError? && model != alternative)
  {
  }

  class Client {
    var baseUrl: string
    var model: string
    var alternativeModel: string

    /** `OLLAMA_URL` without `/api/generate`; the given model unless it is missing or empty. */
    constructor (ollamaUrl: string, model: Option<string>, configModel: string, configAlternative: string)
      ensures baseUrl == Text.RemoveAll(ollamaUrl, "/api/generate")
      ensures this.model == (if model.Some? && model.value != "" then model.value else configModel)
      ensures alternativeModel == configAlternative
    {
      baseUrl := Text.RemoveAll(ollamaUrl, "/api/generate");
      this.model := if model.Some? && model.value != "" then model.value else configModel;
      alternativeModel := configAlternative;
    }

    /** `generate`: switches `model` to the alternative for the retry and always restores it,
        so the client's state is the same after every call. */
    method Generate(prompt: string, systemPrompt: Option<string>, maxTokens: int,
                    server: GenerateRequest -> Reply<Option<string>>) returns (text: string)
      modifies this
      ensures model == old(model) && baseUrl == old(baseUrl) && alternativeModel == old(alternativeModel)
      ensures text == Generated(baseUrl, model, alternativeModel, prompt, systemPrompt, maxTokens, server)
      decreases if model != alternativeModel then 1 else 0
    {
      var reply := server(Payload(baseUrl, model, prompt, systemPrompt, maxTokens));
      if reply.Answered? {
        return ResponseText(reply.body);
      }
      if model != alternativeModel {
        var backup := model;
        model := alternativeModel;
        text := Generate(prompt, systemPrompt, maxTokens, server);
        model := backup;
        return;
      }
      return "Error generating text: " + reply.message;
    }
  }

  /** A configured URL that ends in the one occurrence of `/api/generate` gives back the
      same URL for generation requests. */
  lemma UrlRoundTrip(host: string)
    requires forall i :: 0 <= i < |host| ==> !Text.StartsWith((host + "/api/generate")[i..], "/api/generate")
    ensures Text.RemoveAll(host + "/api/generate", "/api/generate") + "/api/generate" == host + "/api/generate"
  {
    Text.RemoveAllTrailing(host, "/api/generate");
  }

  /** `get_embedding`: the `embedding` field, `[]` when absent or on a request error. The
      request names the model `nomic-embed-text`. */
  function Embedding(reply: Reply<Option<seq<real>>>): (v: seq<real>)
    ensures reply.RequestError? ==> v == []
    ensures reply.Answered? && reply.body.Some? ==> v == reply.body.value
  {
    if reply.Answered? && reply.body.Some? then reply.body.value else []
  }

  /** One entry of `models` in a tags reply; `name` may be missing. */
  datatype ModelEntry = ModelEntry(name: Option<string>)

  /** `list_models`: the names in server order; `[]` on a request error or without `models`.
      An entry without `name` raises a KeyError, which the handler does not catch. */
  function ListModels(reply: Reply<Option<seq<ModelEntry>>>): (r: Result<seq<string>, string>)
    ensures reply.RequestError? ==> r == Ok([])
    ensures reply.Answered? && reply.body.Some? ==>
              (r.Ok? <==> forall k :: 0 <= k < |reply.body.value| ==> reply.body.value[k].name.Some?)
    ensures r.Ok? && reply.Answered? && reply.body.Some? ==>
              |r.value| == |reply.body.value|
              && forall k :: 0 <= k < |r.value| ==> reply.body.value[k].name == Some(r.value[k])
  {
    match reply
    case RequestError(_) => Ok([])
    case Answered(body) =>
      if body.None? then Ok([]) else Names(body.value)
  }

  function Names(entries: seq<ModelEntry>): (r: Result<seq<string>, string>)
    ensures r.Ok? <==> forall k :: 0 <= k < |entries| ==> entries[k].name.Some?
    ensures r.Ok? ==> |r.value| == |entries| && forall k :: 0 <= k < |entries| ==> entries[k].name == Some(r.value[k])
  {
    if entries == [] then Ok([])
    else if entries[0].name.None? then Err("KeyError: 'name'")
    else
      var rest := Names(entries[1..]);
      if rest.Err? then rest else Ok([entries[0].name.value] + rest.value)
  }
}
