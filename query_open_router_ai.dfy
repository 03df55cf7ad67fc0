/**
 * `queryAI` of queryOpenRouterAI.js: one request literal whose sampling
 * fields fall back to the config.js defaults through `||`, with a fixed
 * two-message list; a failure is logged and thrown again unchanged.
 */
module QueryOpenRouterAI {
  import opened Wrappers
  import opened Js
  import opened Chat
  import Config
  import QueryOpenRouter

  /**
   * The client of this file, and the same literal at askhal.js:20-23: the
   * key comes from `OPENROUTER_API_KEY`, and there are no extra headers.
   */
  function ClientFor(apiKey: JsValue): Client {
    Client(OpenRouterBaseUrl, apiKey, [])
  }

  /**
   * The same endpoint and key as the client of queryOpenRouter.js, but
   * without its attribution headers.
   */
  lemma SameEndpointWithoutAttribution(apiKey: JsValue)
    ensures var c := ClientFor(apiKey);
      && c.baseUrl == OpenRouterBaseUrl && c.apiKey == apiKey
      && c == Client(OpenRouterBaseUrl, apiKey, QueryOpenRouter.AttributionHeaders).(headers := [])
      && c.headers != QueryOpenRouter.AttributionHeaders
  {
  }

  /** Each field written `aiParameters.X || X`. */
  function WithDefaults(p: Tuning): (t: Tuning)
    ensures Truthy(p.temperature) ==> t.temperature == p.temperature
    ensures !Truthy(p.temperature) ==> t.temperature == Config.Defaults.temperature
    ensures Truthy(p.topP) ==> t.topP == p.topP
    ensures !Truthy(p.topP) ==> t.topP == Config.Defaults.topP
    ensures Truthy(p.topK) ==> t.topK == p.topK
    ensures !Truthy(p.topK) ==> t.topK == Config.Defaults.topK
    ensures Truthy(p.frequencyPenalty) ==> t.frequencyPenalty == p.frequencyPenalty
    ensures !Truthy(p.frequencyPenalty) ==> t.frequencyPenalty == Config.Defaults.frequencyPenalty
    ensures Truthy(p.presencePenalty) ==> t.presencePenalty == p.presencePenalty
    ensures !Truthy(p.presencePenalty) ==> t.presencePenalty == Config.Defaults.presencePenalty
    ensures Truthy(p.repetitionPenalty) ==> t.repetitionPenalty == p.repetitionPenalty
    ensures !Truthy(p.repetitionPenalty) ==> t.repetitionPenalty == Config.Defaults.repetitionPenalty
  {
    Tuning(
      Or(p.temperature, Config.Defaults.temperature),
      Or(p.topP, Config.Defaults.topP),
      Or(p.topK, Config.Defaults.topK),
      Or(p.frequencyPenalty, Config.Defaults.frequencyPenalty),
      Or(p.presencePenalty, Config.Defaults.presencePenalty),
      Or(p.repetitionPenalty, Config.Defaults.repetitionPenalty))
  }

  /** The request literal. */
  function RequestFor(aiModelName: string, systemMessage: JsValue, userPrompt: JsValue, outputStream: JsValue,
                      aiParameters: Tuning): Request
  {
    Request(
      aiModelName,
      [Message(System, systemMessage), Message(User, userPrompt)],
      None,
      outputStream,
      Some(WithDefaults(aiParameters)))
  }

  /** A supplied `0` temperature or `top_p` is falsy, so `1.0` is sent instead, each field on its own. */
  lemma ZeroBecomesOne(p: Tuning)
    ensures p.temperature == Num(0.0) ==> WithDefaults(p).temperature == Num(1.0)
    ensures p.topP == Num(0.0) ==> WithDefaults(p).topP == Num(1.0)
  {
  }

  /** A falsy `top_k`, `frequency_penalty` or `presence_penalty` is sent as `0`, each field on its own. */
  lemma FalsyPenaltiesSendZero(p: Tuning)
    ensures !Truthy(p.topK) ==> WithDefaults(p).topK == Num(0.0)
    ensures !Truthy(p.frequencyPenalty) ==> WithDefaults(p).frequencyPenalty == Num(0.0)
    ensures !Truthy(p.presencePenalty) ==> WithDefaults(p).presencePenalty == Num(0.0)
  {
  }

  /**
   * Whenever a field falls back, the value sent lies in the range the
   * config comments give for it; so when every field falls back, the
   * whole tuning does.
   */
  lemma FallbackWithinDocumentedRanges(p: Tuning)
    ensures var t := WithDefaults(p);
      && (!Truthy(p.temperature) ==> Config.TemperatureInRange(t.temperature))
      && (!Truthy(p.topP) ==> Config.TopPInRange(t.topP))
      && (!Truthy(p.topK) ==> Config.TopKInRange(t.topK))
      && (!Truthy(p.frequencyPenalty) ==> Config.PenaltyInRange(t.frequencyPenalty))
      && (!Truthy(p.presencePenalty) ==> Config.PenaltyInRange(t.presencePenalty))
      && (!Truthy(p.repetitionPenalty) ==> Config.RepetitionInRange(t.repetitionPenalty))
  {
  }

  /** Truthy values are sent unchecked: one far outside its documented range reaches the request as is. */
  lemma TruthyValuesUnchecked(p: Tuning)
    requires p.temperature == Num(5.0)
    ensures WithDefaults(p).temperature == Num(5.0) && !Config.TemperatureInRange(WithDefaults(p).temperature)
  {
  }

  /**
   * The message list is always the system message then the user prompt,
   * even for an empty system message, where queryOpenRouter.js sends the
   * user prompt alone.
   */
  lemma AlwaysTwoMessages(aiModelName: string, systemMessage: JsValue, userPrompt: JsValue, outputStream: JsValue,
                          aiParameters: Tuning)
    ensures var r := RequestFor(aiModelName, systemMessage, userPrompt, outputStream, aiParameters);
      && r.messages == [Message(System, systemMessage), Message(User, userPrompt)]
      && r.model == aiModelName && r.stream == outputStream
    ensures systemMessage == Str("") ==>
      |QueryOpenRouter.MessagesFor(systemMessage, userPrompt)| == 1 < |RequestFor(aiModelName, systemMessage, userPrompt, outputStream, aiParameters).messages|
  {
  }

  /** The `try`/`catch` around the call: log one line, throw the same error. */
  function Rethrow(aiModelName: string, call: CallOutcome): (r: QueryReport)
    ensures call.Failed? ==> r.outcome == Threw(call.error)
    ensures call.Answered? <==> r.errorLog == []
  {
    match call
    case Answered(_) => QueryReport(Returned(()), [])
    case Failed(e, _) => QueryReport(Threw(e), ["Error querying the AI model: " + aiModelName])
  }
}
