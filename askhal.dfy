/**
 * askhal.js, the first version of the tool: a start-up guard on the API
 * key, a single-file reader (the same text as processContextFile.js, so
 * `ProcessContextFile.ReadFile` stands for it), a fixed code-review system
 * message around the file, a fixed joke prompt, and a query whose failure
 * is logged and thrown again unchanged.
 */
module AskHal {
  import opened Wrappers
  import opened Js
  import opened Text
  import opened Environment
  import opened Chat
  import ProcessContextFile
  import QueryOpenRouterAI

  const ReviewPrefix := "You are an experienced developer tasked with code reviewing the following program: "

  const JokePrompt := "Generate a joke that relates to the program above"

  const MissingKeyMessage := "Error: OpenRouter API Key not defined in environment variable. Program terminated."

  /** The system message: the fixed prefix, then the file's content. */
  function SystemMessage(context: string): string {
    ReviewPrefix + context
  }

  /** The context a system message was built from. */
  function ContextOf(systemMessage: string): Option<string> {
    if |systemMessage| >= |ReviewPrefix| && systemMessage[..|ReviewPrefix|] == ReviewPrefix
    then Some(systemMessage[|ReviewPrefix|..])
    else None
  }

  /** The context is carried whole: it can be read back from the system message. */
  lemma SystemMessageCarriesContext(context: string)
    ensures ContextOf(SystemMessage(context)) == Some(context)
  {
    var m := SystemMessage(context);
    assert m[..|ReviewPrefix|] == ReviewPrefix;
    assert m[|ReviewPrefix|..] == context;
  }

  /** The request of askhal.js `queryAI`: system then user, and neither `transforms` nor sampling fields. */
  function QueryRequest(aiModelName: string, systemMessage: string, userPrompt: string, outputStream: JsValue): Request {
    Request(aiModelName, [Message(System, Str(systemMessage)), Message(User, Str(userPrompt))], None, outputStream, None)
  }

  /** One run of the program: how it ends, what it read, the client and request it built, and its error lines. */
  datatype Run = Run(
    outcome: Completion<()>,
    accessed: seq<Access>,
    client: Option<Client>,
    request: Option<Request>,
    errorLog: seq<string>)

  /** `main`: read the file, build the two messages, query; any error is logged once more and thrown again. */
  function Main(env: Env, client: Client, aiModelName: string, inputFilePath: string, inputFileType: string,
                outputStream: JsValue, call: CallOutcome): Run
  {
    var read := ProcessContextFile.ReadFile(env, inputFilePath, inputFileType);
    match read.outcome
    case Exited(status) => Run(Exited(status), read.accessed, Some(client), None, read.errorLog)
    case Threw(e) => Run(Threw(e), read.accessed, Some(client), None, read.errorLog + ["Error executing program"])
    case Returned(context) =>
      var request := QueryRequest(aiModelName, SystemMessage(context), JokePrompt, outputStream);
      var query := QueryOpenRouterAI.Rethrow(aiModelName, call);
      var failed := if query.outcome.Threw? then ["Error executing program"] else [];
      Run(query.outcome, read.accessed, Some(client), Some(request), query.errorLog + failed)
  }

  /** Loading the module: the key guard, the client, then `main`. */
  function Program(apiKey: JsValue, env: Env, aiModelName: string, inputFilePath: string, inputFileType: string,
                   outputStream: JsValue, call: CallOutcome): Run
  {
    if !Truthy(apiKey) then Run(Exited(1), [], None, None, [MissingKeyMessage])
    else Main(env, QueryOpenRouterAI.ClientFor(apiKey), aiModelName, inputFilePath, inputFileType, outputStream, call)
  }

  /**
   * A missing or empty key ends the process with status 1 before any client
   * is built or file read; a present key is the one the client gets.
   */
  lemma ApiKeyGuard(apiKey: JsValue, env: Env, aiModelName: string, inputFilePath: string, inputFileType: string,
                    outputStream: JsValue, call: CallOutcome)
    ensures var r := Program(apiKey, env, aiModelName, inputFilePath, inputFileType, outputStream, call);
      && (!Truthy(apiKey) <==> r.client.None?)
      && (!Truthy(apiKey) ==> r.outcome == Exited(1) && r.accessed == [] && r.request.None?)
      && (Truthy(apiKey) ==> r.client == Some(Client(OpenRouterBaseUrl, apiKey, [])))
  {
  }

  /** `html` is not in this whitelist: the run ends with status 1 and reads nothing. */
  lemma HtmlRejected(apiKey: JsValue, env: Env, aiModelName: string, inputFilePath: string, outputStream: JsValue,
                     call: CallOutcome)
    ensures var r := Program(apiKey, env, aiModelName, inputFilePath, "html", outputStream, call);
      r.outcome == Exited(1) && r.accessed == [] && r.request.None?
  {
    ProcessContextFile.HtmlNotAccepted(env, inputFilePath);
  }

  /**
   * A readable, non-blank file reaches the model unchanged: the system
   * message is the prefix followed by exactly the file's content, and the
   * user message is the joke prompt.
   */
  lemma {:induction false} FileReachesModelVerbatim(apiKey: JsValue, env: Env, aiModelName: string, inputFilePath: string,
                                                    inputFileType: string, outputStream: JsValue, call: CallOutcome, content: string)
    requires Truthy(apiKey)
    requires inputFileType in ProcessContextFile.ValidFileTypes
    requires Fetched(env, ProcessContextFile.SourceOf(inputFilePath, inputFileType)) == Success(content)
    requires !IsBlank(content)
    ensures var r := Program(apiKey, env, aiModelName, inputFilePath, inputFileType, outputStream, call);
      && r.request.Some?
      && r.request.value.messages == [Message(System, Str(ReviewPrefix + content)), Message(User, Str(JokePrompt))]
      && r.request.value.model == aiModelName
      && r.request.value.transforms.None? && r.request.value.tuning.None?
  {
    ProcessContextFile.ReturnsContentVerbatim(env, inputFilePath, inputFileType, content);
  }

  /** A read error and a query error are both thrown out of `main` unchanged, after one more log line. */
  lemma {:induction false} ErrorsRethrownUnchanged(apiKey: JsValue, env: Env, aiModelName: string, inputFilePath: string,
                                                   inputFileType: string, outputStream: JsValue, call: CallOutcome)
    requires Truthy(apiKey)
    ensures var r := Program(apiKey, env, aiModelName, inputFilePath, inputFileType, outputStream, call);
      var read := ProcessContextFile.ReadFile(env, inputFilePath, inputFileType);
      && (read.outcome.Threw? ==> r.outcome == Threw(read.outcome.error) && r.errorLog == read.errorLog + ["Error executing program"])
      && (read.outcome.Returned? && call.Failed? ==>
            r.outcome == Threw(call.error) && r.errorLog == ["Error querying the AI model: " + aiModelName, "Error executing program"])
  {
  }
}
