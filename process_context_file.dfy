/**
 * `readFile` of processContextFile.js, the single-file reader that came
 * before processContext.js: an eight-type whitelist that ends the process,
 * a txt/office dispatch on the path as given, an emptiness check, a logged
 * line count, and the content returned exactly as read.
 */
module ProcessContextFile {
  import opened Wrappers
  import opened Js
  import opened Text
  import opened Environment

  const ValidFileTypes := ["docx", "odt", "odp", "ods", "pdf", "pptx", "txt", "xlsx"]

  function EmptyFileError(inputFilePath: string): JsError {
    PlainError("Error: file " + inputFilePath + " is empty")
  }

  /** Where a whitelisted type is read from: `fs.readFile` for `txt`, the office parser otherwise. */
  function SourceOf(inputFilePath: string, inputFileType: string): Access {
    if inputFileType == "txt" then ReadText(inputFilePath) else ParseOffice(inputFilePath)
  }

  function ReadFile(env: Env, inputFilePath: string, inputFileType: string): (r: Report)
    ensures r.outcome.Exited? <==> inputFileType !in ValidFileTypes
    ensures r.outcome.Exited? ==> r.outcome.status == 1 && r.accessed == []
    ensures !r.outcome.Exited? ==> r.accessed == [SourceOf(inputFilePath, inputFileType)]
  {
    if inputFileType !in ValidFileTypes then
      Report(Exited(1), [], None,
        ["Error: " + inputFileType + " is not a valid file type",
         "Program only supports the following file types: " + Join(ValidFileTypes, ", ")])
    else
      var source := SourceOf(inputFilePath, inputFileType);
      var caught := ["Error reading file " + inputFilePath];
      match Fetched(env, source)
      case Failure(e) => Report(Threw(e), [source], None, caught)
      case Success(fileContent) =>
        if fileContent == "" || Trim(fileContent) == "" then Report(Threw(EmptyFileError(inputFilePath)), [source], None, caught)
        else Report(Returned(fileContent), [source], Some(LineCount(Trim(fileContent))), [])
  }

  /**
   * Readable, non-blank content is returned exactly as read, and the logged
   * count is one more than the line terminators of the trimmed content.
   */
  lemma {:induction false} ReturnsContentVerbatim(env: Env, inputFilePath: string, inputFileType: string, content: string)
    requires inputFileType in ValidFileTypes
    requires Fetched(env, SourceOf(inputFilePath, inputFileType)) == Success(content)
    requires !IsBlank(content)
    ensures ReadFile(env, inputFilePath, inputFileType)
         == Report(Returned(content), [SourceOf(inputFilePath, inputFileType)], Some(Terminators(Trim(content)) + 1), [])
  {
    TrimEmptyIffBlank(content);
    LineCountIsTerminatorsPlusOne(Trim(content));
  }

  /** Empty or whitespace-only content is refused with the empty-file error, which the catch logs and throws again. */
  lemma BlankContentRejected(env: Env, inputFilePath: string, inputFileType: string, content: string)
    requires inputFileType in ValidFileTypes
    requires Fetched(env, SourceOf(inputFilePath, inputFileType)) == Success(content)
    requires IsBlank(content)
    ensures var r := ReadFile(env, inputFilePath, inputFileType);
      r.outcome == Threw(EmptyFileError(inputFilePath)) && r.errorLog == ["Error reading file " + inputFilePath]
  {
    TrimEmptyIffBlank(content);
  }

  /** A failed read is logged and thrown again unchanged. */
  lemma ReadErrorRethrown(env: Env, inputFilePath: string, inputFileType: string, e: JsError)
    requires inputFileType in ValidFileTypes
    requires Fetched(env, SourceOf(inputFilePath, inputFileType)) == Failure(e)
    ensures var r := ReadFile(env, inputFilePath, inputFileType);
      r.outcome == Threw(e) && r.errorLog == ["Error reading file " + inputFilePath]
  {
  }

  /** The reader returns a value exactly when the source yields one that is not blank, and then it is that value. */
  lemma {:induction false} ReturnsExactlyNonBlank(env: Env, inputFilePath: string, inputFileType: string)
    ensures var r := ReadFile(env, inputFilePath, inputFileType);
      var read := Fetched(env, SourceOf(inputFilePath, inputFileType));
      && (r.outcome.Returned? <==> inputFileType in ValidFileTypes && read.Success? && !IsBlank(read.value))
      && (r.outcome.Returned? ==> r.outcome.value == read.value)
  {
    var read := Fetched(env, SourceOf(inputFilePath, inputFileType));
    if read.Success? && read.value != "" {
      TrimEmptyIffBlank(read.value);
    }
  }

  /** A `txt` file holding `Hello, World!` comes back verbatim, counted as one line. */
  lemma HelloWorldVerbatim(env: Env, inputFilePath: string)
    requires env.files(inputFilePath) == Success("Hello, World!")
    ensures ReadFile(env, inputFilePath, "txt") == Report(Returned("Hello, World!"), [ReadText(inputFilePath)], Some(1), [])
  {
    var s := "Hello, World!";
    assert !IsWs(s[0]) && !IsWs(s[|s| - 1]);
    HelloWorldHasNoTerminators();
    OneLineTxtVerbatim(env, inputFilePath, s);
  }

  /** Text without outer whitespace or line terminators is one line, returned as read. */
  lemma OneLineTxtVerbatim(env: Env, inputFilePath: string, content: string)
    requires env.files(inputFilePath) == Success(content)
    requires content != [] && !IsWs(content[0]) && !IsWs(content[|content| - 1]) && Terminators(content) == 0
    ensures ReadFile(env, inputFilePath, "txt") == Report(Returned(content), [ReadText(inputFilePath)], Some(1), [])
  {
    TrimUnchanged(content);
    assert !IsBlank(content) by {
      assert !IsWs(content[0]);
    }
    ReturnsContentVerbatim(env, inputFilePath, "txt", content);
  }

  lemma HelloWorldHasNoTerminators()
    ensures Terminators("Hello, World!") == 0
  {
    var s := "Hello, World!";
    forall i | 0 <= i < |s| ensures s[i] != '\r' && s[i] != '\n' {
    }
    NoTerminators(s);
  }

  lemma {:induction false} NoTerminators(s: string)
    requires forall i :: 0 <= i < |s| ==> s[i] != '\r' && s[i] != '\n'
    ensures Terminators(s) == 0
  {
    if s != [] {
      NoTerminators(s[1..]);
    }
  }

  /** `html`, which processContext.js accepts, is not in this whitelist. */
  lemma HtmlNotAccepted(env: Env, inputFilePath: string)
    ensures ReadFile(env, inputFilePath, "html").outcome == Exited(1)
    ensures ReadFile(env, inputFilePath, "html").accessed == []
  {
  }
}
