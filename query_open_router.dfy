/**
 * `queryAI` of queryOpenRouter.js: it builds a client with attribution
 * headers, a message list that gains a system message only when one is
 * given, and a request whose sampling fields are passed through and whose
 * `transforms` turns from a list into a string when compression is asked
 * for. Any failure is replaced by an error that names only the model.
 */
module QueryOpenRouter {
  import opened Wrappers
  import opened Js
  import opened Chat

  const AttributionHeaders := [("HTTP-Referer", "https://github.com/EAddario/askhal"), ("X-Title", "Ask HAL")]

  /** The message list: the user message, preceded by the system message when that is truthy. */
  function MessagesFor(systemMessage: JsValue, userPrompt: JsValue): seq<Message> {
    (if Truthy(systemMessage) then [Message(System, systemMessage)] else []) + [Message(User, userPrompt)]
  }

  /** The sampling fields as sent: each written `(x) && x`. */
  function PassedThrough(p: Tuning): (t: Tuning)
    ensures t == p
  {
    AndSelf(p.temperature);
    AndSelf(p.topP);
    AndSelf(p.topK);
    AndSelf(p.frequencyPenalty);
    AndSelf(p.presencePenalty);
    AndSelf(p.repetitionPenalty);
    Tuning(
      And(p.temperature, p.temperature),
      And(p.topP, p.topP),
      And(p.topK, p.topK),
      And(p.frequencyPenalty, p.frequencyPenalty),
      And(p.presencePenalty, p.presencePenalty),
      And(p.repetitionPenalty, p.repetitionPenalty))
  }

  /** The request the function ends up sending. */
  function RequestFor(aiModelName: string, systemMessage: JsValue, userPrompt: JsValue, outputStream: JsValue,
                      compressPrompt: JsValue, aiParameters: Tuning): Request
  {
    Request(
      aiModelName,
      MessagesFor(systemMessage, userPrompt),
      Some(if Truthy(compressPrompt) then Str("middle-out") else Arr([])),
      outputStream,
      Some(aiParameters))
  }

  /**
   * The client and request as the function builds them: a one-element list
   * that the system message is unshifted onto, and a request object whose
   * `transforms` is overwritten.
   */
  method Prepare(aiModelName: string, systemMessage: JsValue, userPrompt: JsValue, outputStream: JsValue,
                 compressPrompt: JsValue, apiKey: JsValue, aiParameters: Tuning)
    returns (client: Client, request: Request)
    ensures client == Client(OpenRouterBaseUrl, apiKey, AttributionHeaders)
    ensures request == RequestFor(aiModelName, systemMessage, userPrompt, outputStream, compressPrompt, aiParameters)
  {
    client := Client(OpenRouterBaseUrl, apiKey, AttributionHeaders);
    var messages := [Message(User, userPrompt)];
    if Truthy(systemMessage) {
      messages := [Message(System, systemMessage)] + messages;
    }
    request := Request(aiModelName, messages, Some(Arr([])), outputStream, Some(PassedThrough(aiParameters)));
    if Truthy(compressPrompt) {
      request := request.(transforms := Some(Str("middle-out")));
    }
  }

  /**
   * The list ends with the user message; it has two messages, the system
   * message first, exactly when the system message is truthy, and one
   * otherwise.
   */
  lemma MessagesShape(systemMessage: JsValue, userPrompt: JsValue)
    ensures var m := MessagesFor(systemMessage, userPrompt);
      && 1 <= |m| <= 2
      && m[|m| - 1] == Message(User, userPrompt)
      && (|m| == 2 <==> Truthy(systemMessage))
      && (|m| == 2 ==> m[0] == Message(System, systemMessage))
  {
  }

  /** Every sampling field is sent as supplied; in particular a supplied `0` is sent as `0`, not dropped. */
  lemma TuningSentAsSupplied(aiModelName: string, systemMessage: JsValue, userPrompt: JsValue, outputStream: JsValue,
                             compressPrompt: JsValue, aiParameters: Tuning)
    ensures RequestFor(aiModelName, systemMessage, userPrompt, outputStream, compressPrompt, aiParameters).tuning == Some(aiParameters)
  {
  }

  /** `transforms` is the empty list unless compression is asked for, and then the string `middle-out`. */
  lemma TransformsSwitch(aiModelName: string, systemMessage: JsValue, userPrompt: JsValue, outputStream: JsValue,
                         compressPrompt: JsValue, aiParameters: Tuning)
    ensures var r := RequestFor(aiModelName, systemMessage, userPrompt, outputStream, compressPrompt, aiParameters);
      && (Truthy(compressPrompt) <==> r.transforms == Some(Str("middle-out")))
      && (!Truthy(compressPrompt) <==> r.transforms == Some(Arr([])))
  {
  }

  /** `model` and `stream` are copied, and nothing else in the request depends on them. */
  lemma ModelAndStreamOnlyCopied(m1: string, m2: string, s1: JsValue, s2: JsValue, systemMessage: JsValue, userPrompt: JsValue,
                                 compressPrompt: JsValue, aiParameters: Tuning)
    ensures var r1 := RequestFor(m1, systemMessage, userPrompt, s1, compressPrompt, aiParameters);
      var r2 := RequestFor(m2, systemMessage, userPrompt, s2, compressPrompt, aiParameters);
      && r1.model == m1 && r1.stream == s1
      && r1.(model := m2, stream := s2) == r2
  {
  }

  /** `chunk.choices[0].delta.content || ''`: a chunk without content writes the empty string. */
  function ChunkText(content: JsValue): (r: JsValue)
    ensures Truthy(content) ==> r == content
    ensures !Truthy(content) ==> r == Str("")
  {
    Or(content, Str(""))
  }

  const FailurePrefix := "could not query model ["

  /** The error thrown in place of any failure. */
  function QueryFailure(aiModelName: string): JsError {
    PlainError(FailurePrefix + aiModelName + "]")
  }

  /** The model name a failure message carries, if it has the failure's form. */
  function ModelNamed(message: string): Option<string> {
    if |message| > |FailurePrefix| && message[..|FailurePrefix|] == FailurePrefix && message[|message| - 1] == ']'
    then Some(message[|FailurePrefix|..|message| - 1])
    else None
  }

  /** The thrown error carries the model name and can be traced back to it. */
  lemma QueryFailureNamesModel(aiModelName: string)
    ensures ModelNamed(QueryFailure(aiModelName).message) == Some(aiModelName)
  {
    var m := QueryFailure(aiModelName).message;
    assert m[..|FailurePrefix|] == FailurePrefix;
    assert m[|FailurePrefix|..|m| - 1] == aiModelName;
  }

  /** The `try`/`catch` around the call. */
  function Settle(aiModelName: string, call: CallOutcome): QueryReport {
    match call
    case Answered(_) => QueryReport(Returned(()), [])
    case Failed(e, response) =>
      var details := match response
        case None => []
        case Some(resp) => ["status: " + resp.status, "data: " + resp.data];
      QueryReport(Threw(QueryFailure(aiModelName)), ["could not query model [" + aiModelName + "] - " + e.message] + details)
  }

  /**
   * A failure always throws the same new error, whatever the original was;
   * the original message, and the response status and data when there is a
   * response, only reach the error log.
   */
  lemma FailureReplacedByNamedError(aiModelName: string, call: CallOutcome)
    requires call.Failed?
    ensures var r := Settle(aiModelName, call);
      && r.outcome == Threw(QueryFailure(aiModelName))
      && r.errorLog[0] == "could not query model [" + aiModelName + "] - " + call.error.message
      && (|r.errorLog| == 3 <==> call.response.Some?)
      && (|r.errorLog| == 1 <==> call.response.None?)
      && (call.response.Some? ==>
            r.errorLog[1..] == ["status: " + call.response.value.status, "data: " + call.response.value.data])
  {
  }
}
