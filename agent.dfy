/** The `POST /api/agent` handler: validates the prompt, picks the tool, asks the model
    and wraps the outcome in a JSON response. */
module Agent {
  import opened Js
  import opened Http

  /** The destructured `{ prompt, toolType }` of `req.json()`, or the message of the
      exception reading or destructuring the body threw (None when it has none). */
  datatype RequestBody =
    | Fields(prompt: JsValue, toolType: JsValue)
    | Unparsable(message: Option<string>)

  /** The arguments of `client.responses.create`. */
  datatype OracleRequest = OracleRequest(model: string, tools: seq<string>, input: string)

  /** What the model call produced: its `output_text`, or the `message` of the
      exception it threw (None when the exception has no message). */
  datatype OracleReply =
    | Answered(outputText: string)
    | Threw(message: Option<string>)

  const WebSearch: string := "web_search"
  const ModelName: string := "gpt-4o-mini"
  const NoResponse: string := "No response generated"
  const PromptRequired: string := "prompt is required"
  const InvalidToolType: string := "Invalid tool type"
  const UnknownError: string := "unknown error"

  /** `!prompt || typeof prompt !== "string"` rejects everything else. */
  predicate ValidPrompt(prompt: JsValue) {
    prompt.Str? && prompt.s != ""
  }

  /** `toolType || "web_search"`. */
  function SelectedToolType(toolType: JsValue): (t: JsValue)
    ensures !Truthy(toolType) ==> t == Str(WebSearch)
    ensures Truthy(toolType) ==> t == toolType
    ensures Truthy(t)
  {
    if Truthy(toolType) then toolType else Str(WebSearch)
  }

  /** The request the handler sends to the model, or None when it answers without asking it. */
  function OracleCall(body: RequestBody): (call: Option<OracleRequest>)
    ensures call.Some? <==>
      body.Fields? && ValidPrompt(body.prompt) && SelectedToolType(body.toolType) == Str(WebSearch)
    ensures call.Some? ==>
      call.value == OracleRequest(ModelName, [WebSearch], body.prompt.s)
  {
    match body
    case Unparsable(_) => None
    case Fields(prompt, toolType) =>
      if !Truthy(prompt) || !prompt.Str? then None
      else if SelectedToolType(toolType) == Str(WebSearch) then
        Some(OracleRequest(ModelName, [WebSearch], prompt.s))
      else None
  }

  /** `err?.message ?? "unknown error"`: only a missing message falls back. */
  function ErrorMessage(message: Option<string>): (e: string)
    ensures message.Some? ==> e == message.value
    ensures message.None? ==> e == UnknownError
  {
    match message
    case Some(m) => m
    case None => UnknownError
  }

  /** The whole handler, from the request body and the model's reply to the response.
      The reply is consulted only when `OracleCall(body)` is a request. */
  function Handle(body: RequestBody, reply: OracleReply): (r: Response)
    ensures r.status == 200 <==> OracleCall(body).Some? && reply.Answered?
    ensures r.status == 400 <==> body.Fields? && OracleCall(body).None?
    ensures r.status == 500 <==> body.Unparsable? || (OracleCall(body).Some? && reply.Threw?)
    ensures r.status == 200 ==>
      r.body.OutputBody? && r.body.output != "" && r.body.toolType == Str(WebSearch)
    ensures r.status != 200 ==> r.body.ErrorBody?
  {
    match body
    case Unparsable(message) => Failure(500, ErrorMessage(message))
    case Fields(prompt, toolType) =>
      if !Truthy(prompt) || !prompt.Str? then Failure(400, PromptRequired)
      else
        var selected := SelectedToolType(toolType);
        if selected == Str(WebSearch) then
          match reply
          case Threw(message) => Failure(500, ErrorMessage(message))
          case Answered(text) =>
            var output := if text != "" then text else NoResponse;
            Response(200, OutputBody(output, selected))
        else Failure(400, InvalidToolType)
  }

  /** A missing, empty or non-string prompt is refused before the tool type is looked at,
      whatever the tool type, and the model is not asked. */
  lemma PromptCheckedFirst(prompt: JsValue, toolType: JsValue, reply: OracleReply)
    requires !ValidPrompt(prompt)
    ensures Handle(Fields(prompt, toolType), reply) == Failure(400, PromptRequired)
    ensures OracleCall(Fields(prompt, toolType)) == None
  {
  }

  /** An absent or empty tool type selects web search. */
  lemma ToolTypeDefaultsToWebSearch(prompt: JsValue, toolType: JsValue)
    requires ValidPrompt(prompt) && !Truthy(toolType)
    ensures OracleCall(Fields(prompt, toolType)) == Some(OracleRequest(ModelName, [WebSearch], prompt.s))
  {
  }

  /** Every selected tool type other than `web_search` is refused without asking the model. */
  lemma OtherToolTypesRefused(prompt: JsValue, toolType: JsValue, reply: OracleReply)
    requires ValidPrompt(prompt) && Truthy(toolType) && toolType != Str(WebSearch)
    ensures Handle(Fields(prompt, toolType), reply) == Failure(400, InvalidToolType)
    ensures OracleCall(Fields(prompt, toolType)) == None
  {
  }

  /** On web search the output is the model's text, or the fallback when that text is
      empty, and the response echoes the selected tool type. */
  lemma WebSearchAnswer(body: RequestBody, text: string)
    requires OracleCall(body).Some?
    ensures Handle(body, Answered(text)) ==
      Response(200, OutputBody(if text == "" then NoResponse else text, Str(WebSearch)))
  {
  }

  /** A thrown error becomes a 500 carrying its message, or "unknown error" without one. */
  lemma ThrownErrorEnvelope(body: RequestBody, message: Option<string>)
    requires body.Unparsable? || OracleCall(body).Some?
    ensures body.Unparsable? ==> Handle(body, Threw(message)) == Failure(500, ErrorMessage(body.message))
    ensures body.Fields? ==> Handle(body, Threw(message)) == Failure(500, ErrorMessage(message))
  {
  }

  /** When the model is not asked, its reply cannot influence the response. */
  lemma ReplyIgnoredWithoutCall(body: RequestBody, r1: OracleReply, r2: OracleReply)
    requires OracleCall(body).None?
    ensures Handle(body, r1) == Handle(body, r2)
  {
  }
}
