# askhal context readers and request builders, in Dafny

askhal is a small command-line tool. It reads a program or document (the
*context*), wraps it in a code-review system message, and asks a hosted
chat-completion model (OpenRouter) about it. This project models its
deterministic core and proves what that core promises:

- **processContext.js `readFile`** (module `ProcessContext`). The method
  `ReadContext` follows the source step by step:
  - it checks the type against the nine-entry whitelist;
  - it splits the locator list on commas;
  - a `while` loop (`Accumulate`) reads every entry in order, with one space
    after each;
  - it rejects an empty result and counts the lines;
  - it replaces whitespace with the regular expression of line 61;
  - on any error it logs the message that the error's `code` selects, and
    throws the error again.

  `ReadContext` is proved equal to the specification function
  `ReadContextSpec`. The properties are lemmas about that function.
- **Its string operations** (module `Text`): `trim`, `split(',')`,
  `split(/\r\n|\r|\n/)` and the `replace(/[\n\r\t]|\s+/gm, ' ')` of line 61.
  Whitespace is the exact WhiteSpace and LineTerminator set of ECMA-262,
  sections 12.2 and 12.3.
- **queryOpenRouter.js `queryAI`** (module `QueryOpenRouter`). The method
  `Prepare` builds the client and request the way the source does, unshifting
  the system message and overwriting `transforms`. The module also has the
  fallback for streamed chunks and the `catch` that replaces every failure.
- **queryOpenRouterAI.js `queryAI`** (module `QueryOpenRouterAI`): a request
  literal whose sampling fields fall back through `||` to the config.js
  defaults (module `Config`), and a `catch` that throws the error again
  unchanged.
- **processContextFile.js `readFile`** (module `ProcessContextFile`): the
  single-file reader with an eight-type whitelist that ends the process.
  askhal.js:32-55 is the same function, text for text, so module `AskHal`
  calls `ProcessContextFile.ReadFile` for it.
- **askhal.js** (module `AskHal`): the start-up guard on the API key, the
  fixed system message around the file, the fixed joke prompt, the
  two-message request and `main`'s rethrow.

JavaScript semantics are spelled out in module `Js`:
- values are `Undef | Null | Bool | Num | Str | Arr`;
- ToBoolean is `Truthy`;
- `&&` and `||` return one of their operands;
- `acc += s` converts `undefined` to the text `"undefined"`;
- a call ends by returning, by throwing a `JsError`, or by `process.exit`.

The outside world is data (module `Environment`). Files, web pages
(fetched, then converted to text) and office documents are three total
functions from a locator to a text or an error. Every report records, in
order, the accesses made.

Two lines of processContext.js do what their authors evidently did not
intend (see Findings). `ProcessContext` therefore takes a `Variant`:
`AsWritten` is the code as it stands, and `Corrected` is the evident intent.
The tests at tests/processContext.tests.js:15, :23 and :94 expect the
corrected behaviour. Even corrected, a read result keeps the trailing
separator space (`ResultKeepsTrailingSpace`). So the exact-match tests at
tests/processContext.tests.js:15 (txt) and :23 (xlsx) would still see
`Hello, World! ` and not `Hello, World!`, with the code as written or
corrected.

## Model

| member | source | states |
|---|---|---|
| Text.TrimLeavesNoOuterWs | processContext.js:52 | the result of `trim` neither starts nor ends with whitespace |
| Text.TrimStartKeepsSuffix | processContext.js:52 | the leading half of `trim` keeps the rest of the string, starting at its first non-whitespace character |
| Text.TrimStartDropsBlank | processContext.js:52 | the leading part `trim` removes is all whitespace |
| Text.TrimEndKeepsPrefix | processContext.js:52 | the trailing half of `trim` keeps the front of the string, ending at its last non-whitespace character |
| Text.TrimEndDropsBlank | processContext.js:52 | the trailing part `trim` removes is all whitespace |
| Text.TrimEmptyIffBlank | processContext.js:52 | `trim` gives the empty string exactly when the string is all whitespace, so `trim() === ''` is the blank test |
| Text.TrimUnchanged | processContextFile.js:30 | a text that neither starts nor ends with whitespace is its own trim |
| Text.Split | processContext.js:26 | `split(',')` yields at least one piece, and no piece holds a comma |
| Text.JoinSplit | processContext.js:26 | `split(',')` loses nothing: joining the pieces with the comma gives back the locator list |
| Text.SplitJoin | processContext.js:34 | comma-free pieces joined with commas split back into exactly those pieces |
| Text.SplitWithoutSeparator | processContext.js:45 | a locator without a comma is a single entry |
| Text.SplitLines | processContext.js:58 | `split(/\r\n\|\r\|\n/)` yields at least one line, and no line holds a CR or LF |
| Text.LineCountIsTerminatorsPlusOne | processContext.js:58 | the logged line count is one more than the number of line terminators |
| Text.CrLfCountsOnce | processContextFile.js:30 | a CRLF ends exactly one line wherever it stands, so two texts joined by CRLF count their lines added |
| Text.Normalize | processContext.js:61 | the replacement never lengthens the text, and every whitespace character left is a plain space, so no LF, CR or TAB remains |
| Text.NormalizeKeepsText | processContext.js:61 | every non-whitespace character survives the replacement, in order |
| Text.NormalizeControlRun | processContext.js:61 | a string made only of LF, CR and TAB becomes as many spaces: each is replaced on its own |
| Text.NormalizeCollapsesRun | processContext.js:61 | a whitespace-only string that starts with any other whitespace character becomes a single space |
| Text.NormalizeBlank | processContext.js:61 | any whitespace-only string: each leading LF, CR and TAB becomes its own space, and whatever whitespace follows them becomes one more space |
| Text.NormalizeConcat | processContext.js:61 | the replacement works piece by piece: two texts that do not meet inside a whitespace run are replaced independently |
| Text.NormalizeRunInText | processContext.js:61 | a whitespace run between two texts becomes one space per leading LF, CR or TAB plus one space for the rest of the run, while both texts are replaced on their own |
| Text.NormalizeControlRunExample | processContext.js:61 | `a\n\nb` becomes `a  b`: two line feeds give two spaces |
| Text.NormalizeSpacedRunExample | processContext.js:61 | `a \n b` becomes `a b`: a run that starts with a space gives one space, the line feed inside it included |
| Text.NormalizeFixesSpacedText | processContext.js:61 | text whose only whitespace is isolated plain spaces comes out unchanged |
| Text.NormalizeKeepsTrailingSpace | processContext.js:61 | whitespace at the end of the input leaves a space at the end of the output |
| Js.And | queryOpenRouter.js:38 | `a && b` yields one of its operands and is truthy exactly when both are |
| Js.Or | queryOpenRouterAI.js:27 | `a \|\| b` yields one of its operands and is truthy exactly when either is |
| Js.AndSelf | queryOpenRouter.js:38-43 | `(x) && x` is `x` itself for every value, falsy ones included |
| ProcessContext.ClassifyMatchesTable | processContext.js:63-79 | the `if` chain agrees with the code table: a listed code selects its class, and every other code, or none, selects the catch-all |
| ProcessContext.MessagesIdentifyCause | processContext.js:63-79 | two different classes never log the same line for one path |
| ProcessContext.WebUrl | processContext.js:36-38 | the URL always has a scheme: an entry that has one is used untrimmed, and any other entry becomes `http://` plus the trimmed entry |
| ProcessContext.LeadingSpaceDoublesScheme | processContext.js:36-37 | a space before an explicit scheme defeats the test, so the trimmed entry gets a second scheme: the URL starts `http://http://` |
| ProcessContext.ReadsWhatItTouches | processContext.js:26-48 | one loop iteration touches at most one source and reads exactly what it touches: the trimmed txt path, the URL `WebUrl` computes (which has a scheme), or, corrected, the trimmed office path; only the office arm as written touches nothing, and it then throws the ReferenceError |
| ProcessContext.ReadOne | processContext.js:27-48 | the per-entry code of the three arms, the unbound `txtFile` of the office arm included, computes what `ReadEntry` specifies |
| ProcessContext.Accumulate | processContext.js:26-30 | the loop touches what `Gather` specifies and throws exactly when it does; otherwise the accumulator is the initial text followed by every text and its space |
| ProcessContext.ReadContext | processContext.js:16-83 | the whole reader, step by step, returns exactly `ReadContextSpec` |
| ProcessContext.GatherAllRead | processContext.js:26-30 | when every source is read, the text is each source's text followed by one space, in list order, and the sources are touched in list order |
| ProcessContext.GatherFirstFailure | processContext.js:27-29 | the first source that throws ends the loop with its error, and no later source is touched |
| ProcessContext.UnknownTypeRejectedUntouched | processContext.js:17-20 | a type outside the nine-entry whitelist throws `'T' is not a valid file type` before any source is touched |
| ProcessContext.NothingTouchedExactly | processContext.js:17-48 | nothing is touched exactly when the type is refused, or is an office type in the code as written |
| ProcessContext.SourcesJoinedInOrder | processContext.js:26-61 | when every source is read, the result is the replacement applied to the initial text plus every text and its space; it is reported empty exactly when that content is blank, with the log line `context P is empty` and nothing logged otherwise, and the logged count is that of the trimmed content |
| ProcessContext.FirstFailureRethrown | processContext.js:62-81 | the first failing source's error is thrown again unchanged, after the one line its `code` selects, and later sources are not touched |
| ProcessContext.UndefinedPrefixAsWritten | processContext.js:23 | as written, a successful read always yields the text `undefined` followed by the sources, so the empty check never fires |
| ProcessContext.CorrectedReportsEmptyExactly | processContext.js:52-56 | with the accumulator starting at `''`, the read reports an empty context exactly when every source is blank, and then logs `context P is empty` |
| ProcessContext.OfficeNeverParsedAsWritten | processContext.js:44-48 | as written, every office type throws the ReferenceError for `txtFile` before the parser runs, and logs only the catch-all line |
| ProcessContext.CorrectedParsesEveryOfficeFile | processContext.js:45-48 | corrected, the office arm hands every trimmed entry to the parser, in list order |
| ProcessContext.ResultKeepsTrailingSpace | processContext.js:61 | a returned result is not trimmed: it ends with the separator space after the last source |
| ProcessContext.EmptyFileAsWritten | processContext.js:23 | as written, an empty txt file is returned as `undefined ` instead of being reported empty |
| ProcessContext.EmptyFileCorrected | processContext.js:52-56 | corrected, the same empty file is reported as an empty context |
| QueryOpenRouter.PassedThrough | queryOpenRouter.js:38-43 | the sampling fields as sent equal the supplied fields, a supplied `0` included |
| QueryOpenRouter.Prepare | queryOpenRouter.js:19-47 | the unshift and overwrite code builds the client with the fixed base URL, the given key and exactly the two attribution headers, and builds the request `RequestFor` describes |
| QueryOpenRouter.MessagesShape | queryOpenRouter.js:28-31 | the list ends with the user message, and has two messages, the system message first, exactly when the system message is truthy |
| QueryOpenRouter.TuningSentAsSupplied | queryOpenRouter.js:38-43 | the sampling record is sent exactly as supplied, so a `0` temperature stays `0` |
| QueryOpenRouter.TransformsSwitch | queryOpenRouter.js:36-47 | `transforms` is the string `middle-out` exactly when compression is asked for, and the empty list exactly when it is not |
| QueryOpenRouter.ModelAndStreamOnlyCopied | queryOpenRouter.js:34-37 | `model` and `stream` are copied, and changing them changes nothing else in the request |
| QueryOpenRouter.ChunkText | queryOpenRouter.js:55 | a chunk with content writes that content, and a chunk without it writes the empty string |
| QueryOpenRouter.QueryFailureNamesModel | queryOpenRouter.js:70 | the thrown message carries the model name, and the name can be read back from it |
| QueryOpenRouter.FailureReplacedByNamedError | queryOpenRouter.js:63-70 | every failure throws the same new error, whatever the original; the log holds the original message, then `status: …` and `data: …` exactly when there is a response |
| QueryOpenRouterAI.SameEndpointWithoutAttribution | queryOpenRouterAI.js:7-10 | this file's client talks to the same OpenRouter endpoint with the given key as queryOpenRouter.js's, but sends no attribution headers |
| QueryOpenRouterAI.WithDefaults | queryOpenRouterAI.js:27-32 | each sampling field is the supplied value when truthy, and the config default otherwise |
| QueryOpenRouterAI.ZeroBecomesOne | config.js:2-3 | a supplied `0` temperature is sent as `1.0`, and so is a supplied `0` top_p, each whatever the other fields are |
| QueryOpenRouterAI.FalsyPenaltiesSendZero | config.js:4-6 | each of top_k, frequency_penalty and presence_penalty, when falsy, is sent as `0`, whatever the other fields are |
| QueryOpenRouterAI.FallbackWithinDocumentedRanges | config.js:2-7 | whenever a field falls back, the value sent lies in the range the config comments give for it |
| QueryOpenRouterAI.TruthyValuesUnchecked | queryOpenRouterAI.js:27 | a truthy value is sent unchecked, even one outside its documented range |
| QueryOpenRouterAI.AlwaysTwoMessages | queryOpenRouterAI.js:25-36 | the list is always the system message then the user prompt, even for an empty system message, where queryOpenRouter.js sends one message; `model` and `stream` are copied |
| QueryOpenRouterAI.Rethrow | queryOpenRouterAI.js:50-53 | a failed query throws its own error again, and a line is logged exactly when the query fails |
| ProcessContextFile.ReadFile | processContextFile.js:14-37 | the process exits with status 1 exactly for a type outside the eight-entry whitelist, and then before any read; otherwise exactly one source is read, `fs.readFile` for `txt` and the office parser for the rest |
| ProcessContextFile.ReturnsContentVerbatim | processContextFile.js:30-32 | non-blank content is returned exactly as read, and the logged count is one more than the terminators of the trimmed content |
| ProcessContextFile.BlankContentRejected | processContextFile.js:26-28 | empty or whitespace-only content throws `Error: file P is empty`, logged by the catch |
| ProcessContextFile.ReadErrorRethrown | processContextFile.js:33-36 | a failed read is logged and thrown again unchanged |
| ProcessContextFile.ReturnsExactlyNonBlank | processContextFile.js:21-32 | the reader returns exactly when the source yields a non-blank text, and then returns that text |
| ProcessContextFile.OneLineTxtVerbatim | processContextFile.js:26-32 | a `txt` file whose text has no outer whitespace and no line terminator is returned as read, counted as one line |
| ProcessContextFile.HelloWorldVerbatim | tests/processContextFile.tests.js:9-16 | a txt file holding `Hello, World!` comes back verbatim, counted as one line |
| ProcessContextFile.HtmlNotAccepted | processContextFile.js:5 | `html`, which processContext.js accepts, ends the process with status 1 and reads nothing |
| AskHal.SystemMessageCarriesContext | askhal.js:112 | the system message is the fixed review prefix followed by the whole context, which can be read back from it |
| AskHal.ApiKeyGuard | askhal.js:15-23 | a missing or empty key ends the process with status 1 before the client is built or any file is read; a present key is the one the client gets |
| AskHal.HtmlRejected | askhal.js:33-37 | `html` is not in askhal's eight-entry whitelist: the run ends with status 1, reads nothing and sends nothing |
| AskHal.FileReachesModelVerbatim | askhal.js:109-115 | a readable non-blank file reaches the model unchanged, as the prefix plus exactly the file's content, followed by the joke prompt, with no transforms or sampling fields |
| AskHal.ErrorsRethrownUnchanged | askhal.js:116-119 | a read error and a query error are both thrown out of `main` unchanged, after one more log line |

## Left out

- The options of the office parser. processContext.js:48 passes `ignoreNotes: true` and `outputErrorToConsole: false`, while processContextFile.js:24 and askhal.js:42 pass none, so only the latter include speaker notes. One `Env.office` stands for both calls, and the model does not distinguish the two configurations.
- The real `fs`, `axios`, `html-to-text` and `officeparser` calls. They are the three functions of `Environment.Env`. A web entry's fetch and its conversion are one function, because only the converted text reaches the accumulator.
- The chat client, the network call, and the `for await` loop over streamed chunks. Only the chunk fallback (`ChunkText`) and the request and error handling are modelled. A call's outcome is a parameter of `Settle`, `Rethrow` and `AskHal.Main`.
- Word-wrapping at width 160 of a non-streamed answer. It is a foreign library.
- `chalk` colouring, and the progress lines of `log.info` (`Reading …`, `Fetching …`, `Processed N lines`). The line count is kept as a value (`linesProcessed`), not as a printed line. Error lines are kept in `errorLog`.
- `JSON.stringify` of a failed response's data. Status and data arrive already rendered as text.
- util.js `checkAPIKey`, which no core file calls.
- The top-level invocation of askhal.js (lines 137-142), its success and failure messages and its final `process.exit(1)`.
- Numbers are opaque reals. NaN, -0 and numeric formatting are not modelled, and no range check is invented, since the code has none.
- UTF-16 code units. A Dafny `char` is a Unicode scalar value, while JavaScript strings are sequences of UTF-16 code units, so lone surrogates and the `.length` of text outside the Basic Multilingual Plane are not modelled. Every whitespace character `trim` and `\s` recognise lies in that plane, so no modelled operation depends on the difference.
- The asynchronous scheduling of the `await`s. Each call is modelled as completing before the next statement.

## Findings

| source | as written | input that shows it | evidently intended | confidence | as-written member | corrected member |
|---|---|---|---|---|---|---|
| processContext.js:23 | `let fileContent;` leaves the accumulator `undefined`, so the first `+=` puts the text `undefined` in front of the content and the empty check at line 52 can never fire | type `txt`, one path whose file is empty: the reader returns `undefined ` | start at `''`, so that an empty source is reported as `context P is empty` (tests/processContext.tests.js:94) | high, not executed | ProcessContext.EmptyFileAsWritten | ProcessContext.CorrectedReportsEmptyExactly |
| processContext.js:47 | the office arm's progress line names `txtFile`, which is bound only inside the txt arm, so every office type throws a ReferenceError before the parser runs | type `xlsx` with any path: the reader throws `txtFile is not defined` and logs `cannot read context P` | name the office arm's own loop variable, so that every trimmed entry reaches the parser (tests/processContext.tests.js:23) | high, not executed | ProcessContext.OfficeNeverParsedAsWritten | ProcessContext.CorrectedParsesEveryOfficeFile |
