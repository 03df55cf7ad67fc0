/**
 * The outside world of the context readers, as data. Each source is a total
 * function from a locator to the text it yields or the error it throws:
 * `files` stands for `fs.readFile(path, 'utf8')`, `web` for `axios.get(url)`
 * followed by `convert` of html-to-text, and `office` for
 * `officeParser.parseOfficeAsync(path, …)`, whatever parser options the
 * caller passes.
 */
module Environment {
  import opened Wrappers
  import opened Js

  datatype Env = Env(
    files: string -> Result<string, JsError>,
    web: string -> Result<string, JsError>,
    office: string -> Result<string, JsError>)

  /** One access to the outside world, recorded in the order it happens. */
  datatype Access = ReadText(path: string) | Fetch(url: string) | ParseOffice(path: string)

  /** What an access yields: the source it names, asked for its locator. */
  function Fetched(env: Env, access: Access): Result<string, JsError> {
    match access
    case ReadText(p) => env.files(p)
    case Fetch(u) => env.web(u)
    case ParseOffice(p) => env.office(p)
  }

  /** What a reader reports: how it ended, what it touched, the line count it logged and the error lines it logged. */
  datatype Report = Report(outcome: Completion<string>, accessed: seq<Access>, linesProcessed: Option<nat>, errorLog: seq<string>)
}
