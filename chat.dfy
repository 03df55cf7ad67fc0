/**
 * The chat-completion request the three query functions hand to the
 * OpenRouter client, and what the client call can come back with.
 */
module Chat {
  import opened Wrappers
  import opened Js

  datatype Role = System | User

  /** `{ "role": ..., "content": ... }` */
  datatype Message = Message(role: Role, content: JsValue)

  /**
   * The six sampling fields, in request order: `temperature`, `top_p`,
   * `top_k`, `frequency_penalty`, `presence_penalty`, `repetition_penalty`.
   * The same record holds the caller's `aiParameters` object, where a
   * missing property is `Undef`.
   */
  datatype Tuning = Tuning(
    temperature: JsValue,
    topP: JsValue,
    topK: JsValue,
    frequencyPenalty: JsValue,
    presencePenalty: JsValue,
    repetitionPenalty: JsValue)

  /** A request body; `transforms` and the sampling fields are absent from some callers' requests. */
  datatype Request = Request(
    model: string,
    messages: seq<Message>,
    transforms: Option<JsValue>,
    stream: JsValue,
    tuning: Option<Tuning>)

  /** The options the client is built with: base URL, key and default headers. */
  datatype Client = Client(baseUrl: string, apiKey: JsValue, headers: seq<(string, string)>)

  const OpenRouterBaseUrl := "https://openrouter.ai/api/v1"

  /** The `response` of a failed call, with `status` and `data` already rendered as text. */
  datatype ApiResponse = ApiResponse(status: string, data: string)

  /** How `client.chat.completions.create` ends: an answer, or an error that may carry a response. */
  datatype CallOutcome = Answered(content: JsValue) | Failed(error: JsError, response: Option<ApiResponse>)

  /** How a query function ends, and the error lines it logs on the way. */
  datatype QueryReport = QueryReport(outcome: Completion<()>, errorLog: seq<string>)
}
