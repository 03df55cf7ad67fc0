/**
 * `readFile(contextPath, contextType)` of processContext.js: checks the
 * type against a whitelist, splits the locator list on commas, reads every
 * source in order into an accumulator (one space after each), rejects an
 * empty result, logs a line count, replaces whitespace, and on any error
 * logs a message chosen by the error's `code` and throws the error again.
 *
 * Two lines of the source do what their authors evidently did not intend
 * (`let fileContent;` leaves the accumulator `undefined`, and the office
 * arm names the unbound `txtFile`). The model takes a `Variant`: `AsWritten`
 * is the code as it stands, `Corrected` starts the accumulator at `''` and
 * lets the office arm reach the parser.
 */
module ProcessContext {
  import opened Wrappers
  import opened Js
  import opened Text
  import opened Environment

  const ValidContextTypes: seq<string> := ["docx", "html", "odt", "odp", "ods", "pdf", "pptx", "txt", "xlsx"]

  datatype Variant = AsWritten | Corrected

  /** The three arms of the `switch`. */
  datatype Kind = Txt | Web | Office

  function KindOf(contextType: string): Kind {
    if contextType == "txt" then Txt
    else if contextType == "html" then Web
    else Office
  }

  /** `let fileContent;` as written; `let fileContent = '';` corrected. */
  function InitialAccumulator(variant: Variant): JsValue {
    if variant == AsWritten then Undef else Str("")
  }

  /** What the first `+=` turns the initial accumulator into. */
  function InitialText(variant: Variant): string {
    if variant == AsWritten then "undefined" else ""
  }

  // ---------------------------------------------------------------- errors

  /** The error thrown before the `try` for a type outside the whitelist. */
  function InvalidTypeError(contextType: string): JsError {
    PlainError("'" + contextType + "' is not a valid file type")
  }

  function InvalidTypeLog(contextType: string): string {
    "'" + contextType + "' is not a valid file type. Only " + Join(ValidContextTypes, ", ") + " are supported"
  }

  /** The error the `EEMPTY` branch throws. */
  function EmptyContextError(contextPath: string): JsError {
    JsError("Error", "context " + contextPath + " is empty", Some("EEMPTY"))
  }

  /** Evaluating `txtFile` in the office arm, where no such binding is in scope. */
  const UnboundTxtFile: JsError := JsError("ReferenceError", "txtFile is not defined", None)

  /** The message classes of the `catch` block, in the order its `if` chain tests them. */
  datatype Cause = NotFound | PermissionDenied | Empty | Timeout | NetworkFailure | BadResponse | InvalidPath | Unreadable

  function Classify(code: Option<string>): Cause {
    if code == Some("ENOENT") then NotFound
    else if code == Some("EACCES") then PermissionDenied
    else if code == Some("EEMPTY") then Empty
    else if code == Some("ECONNABORTED") || code == Some("ETIMEDOUT") then Timeout
    else if code == Some("ERR_NETWORK") then NetworkFailure
    else if code == Some("ERR_BAD_RESPONSE") then BadResponse
    else if code == Some("ERR_BAD_REQUEST") || code == Some("ERR_INVALID_URL") then InvalidPath
    else Unreadable
  }

  /** The line `log.error` writes for each class. */
  function ErrorMessage(cause: Cause, contextPath: string): string {
    match cause
    case NotFound => "context " + contextPath + " not found"
    case PermissionDenied => "permission denied when accessing context " + contextPath
    case Empty => "context " + contextPath + " is empty"
    case Timeout => "connection timeout getting context " + contextPath
    case NetworkFailure => "network error getting context " + contextPath
    case BadResponse => "context response cannot be parsed properly from " + contextPath
    case InvalidPath => "context path " + contextPath + " is not valid"
    case Unreadable => "cannot read context " + contextPath
  }

  /** The codes each class stands for, as a table; the catch-all has none. */
  function CodesOf(cause: Cause): set<string> {
    match cause
    case NotFound => {"ENOENT"}
    case PermissionDenied => {"EACCES"}
    case Empty => {"EEMPTY"}
    case Timeout => {"ECONNABORTED", "ETIMEDOUT"}
    case NetworkFailure => {"ERR_NETWORK"}
    case BadResponse => {"ERR_BAD_RESPONSE"}
    case InvalidPath => {"ERR_BAD_REQUEST", "ERR_INVALID_URL"}
    case Unreadable => {}
  }

  /** The `if` chain agrees with the table: a listed code picks its class, and every other code or none is the catch-all. */
  lemma ClassifyMatchesTable(code: Option<string>, cause: Cause)
    ensures cause != Unreadable ==> (Classify(code) == cause <==> code.Some? && code.value in CodesOf(cause))
    ensures Classify(code) == Unreadable <==> forall c: Cause :: code.Some? ==> code.value !in CodesOf(c)
  {
    if Classify(code) != Unreadable {
      var c := Classify(code);
      assert code.Some? && code.value in CodesOf(c);
    }
  }

  /** The length of each message without the path: all differ. */
  function FixedLength(cause: Cause): nat {
    match cause
    case NotFound => 18
    case PermissionDenied => 41
    case Empty => 17
    case Timeout => 35
    case NetworkFailure => 30
    case BadResponse => 48
    case InvalidPath => 26
    case Unreadable => 20
  }

  /** The logged line identifies its class: two classes never log the same line for one path. */
  lemma {:induction false} MessagesIdentifyCause(c1: Cause, c2: Cause, contextPath: string)
    requires c1 != c2
    ensures ErrorMessage(c1, contextPath) != ErrorMessage(c2, contextPath)
  {
    assert |ErrorMessage(c1, contextPath)| == |contextPath| + FixedLength(c1);
    assert |ErrorMessage(c2, contextPath)| == |contextPath| + FixedLength(c2);
  }

  // ---------------------------------------------------------------- one source

  /** Line 36: `/^https?:\/\//i`. Only ASCII letters fold under the `i` flag of a non-Unicode pattern. */
  function FoldAscii(c: char): char {
    if 'A' <= c <= 'Z' then (c as int + 32) as char else c
  }

  predicate StartsWithFolded(s: string, prefix: string) {
    |prefix| <= |s| && forall i :: 0 <= i < |prefix| ==> FoldAscii(s[i]) == prefix[i]
  }

  predicate HasScheme(url: string) {
    StartsWithFolded(url, "http://") || StartsWithFolded(url, "https://")
  }

  /** Lines 36-38: an entry without a scheme is trimmed and gets `http://`; one with a scheme is used untrimmed. */
  function WebUrl(entry: string): (url: string)
    ensures HasScheme(url)
    ensures HasScheme(entry) ==> url == entry
    ensures !HasScheme(entry) ==> url == "http://" + Trim(entry)
  {
    if HasScheme(entry) then entry else "http://" + Trim(entry)
  }

  /** A space before the scheme defeats the test, so the trimmed entry gets a second scheme. */
  lemma LeadingSpaceDoublesScheme(rest: string)
    ensures WebUrl(" http://" + rest) == "http://" + Trim(" http://" + rest)
    ensures var url := WebUrl(" http://" + rest); |url| >= 14 && url[..14] == "http://http://"
  {
    assert !StartsWithFolded(" http://" + rest, "http://") by {
      assert FoldAscii((" http://" + rest)[0]) != 'h';
    }
    assert !StartsWithFolded(" http://" + rest, "https://") by {
      assert FoldAscii((" http://" + rest)[0]) != 'h';
    }
    TrimKeepsSchemePrefix(rest);
  }

  /** Trimming `" http://…"` drops the one leading space and keeps the scheme. */
  lemma TrimKeepsSchemePrefix(rest: string)
    ensures var t := Trim(" http://" + rest); |t| >= 7 && t[..7] == "http://"
  {
    var s := " http://" + rest;
    var u := "http://" + rest;
    assert s[1..] == u;
    assert TrimStart(u) == u;
    assert TrimStart(s) == u;
    TrimEndKeepsPrefix(u);
    TrimEndKeepsVisible(u, 6);
    var r := TrimEnd(u);
    assert r[..7] == u[..7];
  }

  /** The accesses one entry causes, before anything is read. */
  function Touches(kind: Kind, variant: Variant, entry: string): seq<Access> {
    match kind
    case Txt => [ReadText(Trim(entry))]
    case Web => [Fetch(WebUrl(entry))]
    case Office => if variant == AsWritten then [] else [ParseOffice(Trim(entry))]
  }

  datatype Step = Step(result: Result<string, JsError>, accessed: seq<Access>)

  /** One iteration of a `for…of` loop: the text it reads or the error it throws, and what it touches. */
  function ReadEntry(env: Env, kind: Kind, variant: Variant, entry: string): Step {
    match kind
    case Txt => Step(env.files(Trim(entry)), Touches(kind, variant, entry))
    case Web => Step(env.web(WebUrl(entry)), Touches(kind, variant, entry))
    case Office =>
      if variant == AsWritten then Step(Failure(UnboundTxtFile), [])
      else Step(env.office(Trim(entry)), Touches(kind, variant, entry))
  }

  /**
   * One iteration touches at most one source, and what it reads is exactly
   * what it touches: the trimmed path for `txt` and office types, a URL with
   * a scheme for `web`. Only the office arm as written touches nothing, and
   * then it throws the ReferenceError of line 47.
   */
  lemma ReadsWhatItTouches(env: Env, kind: Kind, variant: Variant, entry: string)
    ensures var s := ReadEntry(env, kind, variant, entry);
      && |s.accessed| <= 1
      && (s.accessed == [] <==> kind == Office && variant == AsWritten)
      && (s.accessed == [] ==> s.result == Failure(UnboundTxtFile))
      && (s.accessed != [] ==> s.result == Fetched(env, s.accessed[0]))
      && (kind == Txt ==> s.accessed == [ReadText(Trim(entry))])
      && (kind == Office && variant == Corrected ==> s.accessed == [ParseOffice(Trim(entry))])
      && (kind == Web ==> s.accessed == [Fetch(WebUrl(entry))] && HasScheme(s.accessed[0].url))
  {
  }

  // ---------------------------------------------------------------- all sources

  /**
   * The loop over `entries`, from the left: each read text followed by one
   * space; the first error ends it, and the accesses made so far stay.
   */
  function Gather(env: Env, kind: Kind, variant: Variant, entries: seq<string>): Step
    decreases |entries|
  {
    if entries == [] then Step(Success(""), [])
    else
      var before := Gather(env, kind, variant, entries[..|entries| - 1]);
      if before.result.Failure? then before
      else
        var last := ReadEntry(env, kind, variant, entries[|entries| - 1]);
        var result := match last.result
          case Failure(e) => Failure(e)
          case Success(t) => Success(before.result.value + t + " ");
        Step(result, before.accessed + last.accessed)
  }

  /** The `catch` block: log the class message, throw the same error. */
  function Caught(e: JsError, accessed: seq<Access>, contextPath: string): Report {
    Report(Threw(e), accessed, None, [ErrorMessage(Classify(e.code), contextPath)])
  }

  /** The whole of `readFile`, as a function of its arguments and the environment. */
  function ReadContextSpec(contextPath: string, contextType: string, env: Env, variant: Variant): Report {
    if contextType !in ValidContextTypes then
      Report(Threw(InvalidTypeError(contextType)), [], None, [InvalidTypeLog(contextType)])
    else
      var g := Gather(env, KindOf(contextType), variant, Split(contextPath, ','));
      match g.result
      case Failure(e) => Caught(e, g.accessed, contextPath)
      case Success(text) =>
        var content := InitialText(variant) + text;
        if Trim(content) == "" then Caught(EmptyContextError(contextPath), g.accessed, contextPath)
        else Report(Returned(Normalize(content)), g.accessed, Some(LineCount(Trim(content))), [])
  }

  /** The accumulator after `count` iterations that read `collected`. */
  function AccumulatorAfter(variant: Variant, count: nat, collected: string): JsValue {
    if count == 0 then InitialAccumulator(variant) else Str(InitialText(variant) + collected)
  }

  /** One unfolding of `Gather`, spelled out for the loop. */
  lemma GatherStep(env: Env, kind: Kind, variant: Variant, entries: seq<string>)
    requires entries != []
    ensures var before := Gather(env, kind, variant, entries[..|entries| - 1]);
      var last := ReadEntry(env, kind, variant, entries[|entries| - 1]);
      Gather(env, kind, variant, entries) ==
        if before.result.Failure? then before
        else if last.result.Failure? then Step(Failure(last.result.error), before.accessed + last.accessed)
        else Step(Success(before.result.value + last.result.value + " "), before.accessed + last.accessed)
  {
  }

  /** What one more iteration of the loop does to `Gather` and to the accumulator. */
  lemma GatherExtends(env: Env, kind: Kind, variant: Variant, entries: seq<string>, i: nat)
    requires i < |entries|
    requires Gather(env, kind, variant, entries[..i]).result.Success?
    ensures var before := Gather(env, kind, variant, entries[..i]);
      var last := ReadEntry(env, kind, variant, entries[i]);
      && Gather(env, kind, variant, entries[..i + 1]).accessed == before.accessed + last.accessed
      && (last.result.Failure? ==> Gather(env, kind, variant, entries[..i + 1]).result == last.result)
      && (last.result.Success? ==>
            var after := Gather(env, kind, variant, entries[..i + 1]);
            && after.result == Success(before.result.value + last.result.value + " ")
            && AccumulatorAfter(variant, i + 1, after.result.value)
               == AppendString(AccumulatorAfter(variant, i, before.result.value), last.result.value + " "))
  {
    var before := Gather(env, kind, variant, entries[..i]);
    var last := ReadEntry(env, kind, variant, entries[i]);
    var prefix := entries[..i + 1];
    assert |prefix| - 1 == i;
    assert prefix[..i] == entries[..i] && prefix[i] == entries[i];
    GatherStep(env, kind, variant, prefix);
    if last.result.Success? {
      if i == 0 {
        assert entries[..i] == [];
      }
      AccumulatorAppend(variant, i, before.result.value, last.result.value);
    }
  }

  lemma AccumulatorAppend(variant: Variant, i: nat, v: string, t: string)
    requires i == 0 ==> v == ""
    ensures AccumulatorAfter(variant, i + 1, v + t + " ") == AppendString(AccumulatorAfter(variant, i, v), t + " ")
  {
    var a := InitialText(variant);
    assert StringOf(AccumulatorAfter(variant, i, v)) == a + v;
    assert (a + v) + (t + " ") == a + (v + t + " ");
  }

  /** Once a prefix of the entries has thrown, the later entries change nothing. */
  lemma {:induction false} GatherStaysFailed(env: Env, kind: Kind, variant: Variant, entries: seq<string>, i: nat)
    requires i <= |entries|
    requires Gather(env, kind, variant, entries[..i]).result.Failure?
    ensures Gather(env, kind, variant, entries) == Gather(env, kind, variant, entries[..i])
    decreases |entries| - i
  {
    if i < |entries| {
      assert entries[..i + 1][..i] == entries[..i];
      GatherStaysFailed(env, kind, variant, entries, i + 1);
    } else {
      assert entries[..i] == entries;
    }
  }

  /** The body of the three `for…of` loops for one entry: the locator it computes, the source it reads. */
  method ReadOne(env: Env, kind: Kind, variant: Variant, entry: string) returns (read: Result<string, JsError>, touched: seq<Access>)
    ensures Step(read, touched) == ReadEntry(env, kind, variant, entry)
  {
    match kind {
      case Txt =>
        var path := Trim(entry);
        read, touched := env.files(path), [ReadText(path)];
      case Web =>
        var url := entry;
        if !HasScheme(url) {
          url := "http://" + Trim(url);
        }
        read, touched := env.web(url), [Fetch(url)];
      case Office =>
        if variant == AsWritten {
          // the progress line evaluates `txtFile` before the parser is called
          read, touched := Failure(UnboundTxtFile), [];
        } else {
          var path := Trim(entry);
          read, touched := env.office(path), [ParseOffice(path)];
        }
    }
  }

  /**
   * The `for…of` loop of one arm: reads the entries in order into the
   * accumulator until one throws.
   */
  method Accumulate(env: Env, kind: Kind, variant: Variant, entries: seq<string>)
    returns (fileContent: JsValue, accessed: seq<Access>, thrown: Option<JsError>)
    requires entries != []
    ensures accessed == Gather(env, kind, variant, entries).accessed
    ensures thrown.Some? <==> Gather(env, kind, variant, entries).result.Failure?
    ensures thrown.Some? ==> Gather(env, kind, variant, entries).result.error == thrown.value
    ensures thrown.None? ==> fileContent == Str(InitialText(variant) + Gather(env, kind, variant, entries).result.value)
  {
    fileContent := InitialAccumulator(variant);
    accessed := [];
    thrown := None;
    var i := 0;
    ghost var g := Gather(env, kind, variant, entries[..0]);
    while i < |entries| && thrown.None?
      invariant 0 <= i <= |entries|
      invariant g == Gather(env, kind, variant, entries[..i])
      invariant fileContent.Undef? || fileContent.Str?
      invariant g.accessed == accessed
      invariant thrown.None? ==> g.result.Success? && fileContent == AccumulatorAfter(variant, i, g.result.value)
      invariant thrown.Some? ==> g.result == Failure(thrown.value)
    {
      var read, touched := ReadOne(env, kind, variant, entries[i]);
      ghost var after := Gather(env, kind, variant, entries[..i + 1]);
      ghost var last := ReadEntry(env, kind, variant, entries[i]);
      assert read == last.result && touched == last.accessed;
      GatherExtends(env, kind, variant, entries, i);
      accessed := accessed + touched;
      match read {
        case Failure(e) =>
          thrown := Some(e);
        case Success(text) =>
          assert AccumulatorAfter(variant, i + 1, after.result.value) == AppendString(fileContent, text + " ");
          fileContent := AppendString(fileContent, text + " ");
      }
      g := after;
      i := i + 1;
    }
    if thrown.None? {
      assert entries[..i] == entries;
    } else {
      GatherStaysFailed(env, kind, variant, entries, i);
    }
  }

  /** `readFile`, step by step as the source does it. */
  method ReadContext(contextPath: string, contextType: string, env: Env, variant: Variant) returns (report: Report)
    ensures report == ReadContextSpec(contextPath, contextType, env, variant)
  {
    if contextType !in ValidContextTypes {
      report := Report(Threw(InvalidTypeError(contextType)), [], None, [InvalidTypeLog(contextType)]);
      return;
    }
    var entries := Split(contextPath, ',');
    var fileContent, accessed, thrown := Accumulate(env, KindOf(contextType), variant, entries);
    ghost var g := Gather(env, KindOf(contextType), variant, entries);
    if thrown.None? {
      ghost var content := InitialText(variant) + g.result.value;
      // `split` never returns an empty list, so the accumulator is a string by now
      if !Truthy(fileContent) || Trim(fileContent.s) == "" {
        assert Trim(content) == "" by {
          if !Truthy(fileContent) {
            assert content == "" && IsBlank(content);
          }
        }
        thrown := Some(EmptyContextError(contextPath));
      } else {
        report := Report(Returned(Normalize(fileContent.s)), accessed, Some(LineCount(Trim(fileContent.s))), []);
        return;
      }
    }
    var e := thrown.value;
    report := Report(Threw(e), accessed, None, [ErrorMessage(Classify(e.code), contextPath)]);
  }

  // ---------------------------------------------------------------- properties

  /** The accesses of all entries, from the left. */
  function AllTouches(kind: Kind, variant: Variant, entries: seq<string>): seq<Access> {
    if entries == [] then []
    else AllTouches(kind, variant, entries[..|entries| - 1]) + Touches(kind, variant, entries[|entries| - 1])
  }

  /** Every text followed by one space, from the left. */
  function SpaceTerminated(texts: seq<string>): string {
    if texts == [] then "" else texts[0] + " " + SpaceTerminated(texts[1..])
  }

  predicate AllRead(env: Env, kind: Kind, variant: Variant, entries: seq<string>) {
    forall i :: 0 <= i < |entries| ==> ReadEntry(env, kind, variant, entries[i]).result.Success?
  }

  /** The text each entry yields, when every entry yields one. */
  function Texts(env: Env, kind: Kind, variant: Variant, entries: seq<string>): seq<string>
    requires AllRead(env, kind, variant, entries)
  {
    seq(|entries|, i requires 0 <= i < |entries| => ReadEntry(env, kind, variant, entries[i]).result.value)
  }

  lemma AllTouchesAppend(kind: Kind, variant: Variant, entries: seq<string>, entry: string)
    ensures AllTouches(kind, variant, entries + [entry]) == AllTouches(kind, variant, entries) + Touches(kind, variant, entry)
  {
    assert (entries + [entry])[..|entries|] == entries;
  }

  lemma {:induction false} SpaceTerminatedAppend(texts: seq<string>, text: string)
    ensures SpaceTerminated(texts + [text]) == SpaceTerminated(texts) + text + " "
  {
    if texts != [] {
      assert (texts + [text])[1..] == texts[1..] + [text];
      SpaceTerminatedAppend(texts[1..], text);
    } else {
      assert texts + [text] == [text];
    }
  }

  /** The separated texts are blank exactly when every text is. */
  lemma {:induction false} SpaceTerminatedBlank(texts: seq<string>)
    ensures IsBlank(SpaceTerminated(texts)) <==> forall i :: 0 <= i < |texts| ==> IsBlank(texts[i])
  {
    if texts != [] {
      SpaceTerminatedBlank(texts[1..]);
      BlankConcat(texts[0], " ");
      BlankConcat(texts[0] + " ", SpaceTerminated(texts[1..]));
      assert IsBlank(" ");
      assert forall i :: 0 <= i < |texts| - 1 ==> texts[1..][i] == texts[i + 1];
    }
  }

  /** When every entry is read, the loop yields the texts in list order, each followed by one space, and touches every entry in order. */
  lemma {:induction false} GatherAllRead(env: Env, kind: Kind, variant: Variant, entries: seq<string>)
    requires AllRead(env, kind, variant, entries)
    ensures Gather(env, kind, variant, entries)
         == Step(Success(SpaceTerminated(Texts(env, kind, variant, entries))), AllTouches(kind, variant, entries))
  {
    if entries != [] {
      var n := |entries| - 1;
      var prefix := entries[..n];
      assert AllRead(env, kind, variant, prefix) by {
        forall i | 0 <= i < n ensures ReadEntry(env, kind, variant, prefix[i]).result.Success? {
          assert prefix[i] == entries[i];
        }
      }
      GatherAllRead(env, kind, variant, prefix);
      GatherStep(env, kind, variant, entries);
      var last := ReadEntry(env, kind, variant, entries[n]);
      TextsAppend(env, kind, variant, entries);
      SpaceTerminatedAppend(Texts(env, kind, variant, prefix), last.result.value);
    }
  }

  lemma AllTouchesPrefix(kind: Kind, variant: Variant, entries: seq<string>, k: nat)
    requires k < |entries|
    ensures AllTouches(kind, variant, entries[..k + 1]) == AllTouches(kind, variant, entries[..k]) + Touches(kind, variant, entries[k])
  {
    assert entries[..k + 1][..k] == entries[..k];
  }

  lemma TextsAppend(env: Env, kind: Kind, variant: Variant, entries: seq<string>)
    requires entries != [] && AllRead(env, kind, variant, entries)
    ensures AllRead(env, kind, variant, entries[..|entries| - 1])
    ensures Texts(env, kind, variant, entries)
         == Texts(env, kind, variant, entries[..|entries| - 1]) + [ReadEntry(env, kind, variant, entries[|entries| - 1]).result.value]
  {
    var n := |entries| - 1;
    var prefix := entries[..n];
    forall i | 0 <= i < n
      ensures ReadEntry(env, kind, variant, prefix[i]) == ReadEntry(env, kind, variant, entries[i])
    {
      assert prefix[i] == entries[i];
    }
    var all, before := Texts(env, kind, variant, entries), Texts(env, kind, variant, prefix);
    var last := ReadEntry(env, kind, variant, entries[n]).result.value;
    assert |all| == |before| + 1;
    forall i | 0 <= i < |all|
      ensures all[i] == (before + [last])[i]
    {
      if i < n {
        assert all[i] == ReadEntry(env, kind, variant, entries[i]).result.value;
        assert before[i] == ReadEntry(env, kind, variant, prefix[i]).result.value;
      } else {
        assert all[i] == last;
      }
    }
  }

  /** The first entry that throws ends the loop with its error; no later entry is touched. */
  lemma {:induction false} GatherFirstFailure(env: Env, kind: Kind, variant: Variant, entries: seq<string>, k: nat)
    requires k < |entries|
    requires forall i :: 0 <= i < k ==> ReadEntry(env, kind, variant, entries[i]).result.Success?
    requires ReadEntry(env, kind, variant, entries[k]).result.Failure?
    ensures Gather(env, kind, variant, entries)
         == Step(ReadEntry(env, kind, variant, entries[k]).result, AllTouches(kind, variant, entries[..k + 1]))
  {
    var prefix := entries[..k];
    assert AllRead(env, kind, variant, prefix) by {
      forall i | 0 <= i < k ensures ReadEntry(env, kind, variant, prefix[i]).result.Success? {
        assert prefix[i] == entries[i];
      }
    }
    GatherAllRead(env, kind, variant, prefix);
    GatherExtends(env, kind, variant, entries, k);
    AllTouchesPrefix(kind, variant, entries, k);
    GatherStaysFailed(env, kind, variant, entries, k + 1);
  }

  /** A successful loop over at least one entry ends its text with the separator space. */
  lemma {:induction false} GatherEndsWithSpace(env: Env, kind: Kind, variant: Variant, entries: seq<string>)
    requires entries != []
    requires Gather(env, kind, variant, entries).result.Success?
    ensures var text := Gather(env, kind, variant, entries).result.value;
      text != [] && text[|text| - 1] == ' '
  {
    GatherStep(env, kind, variant, entries);
  }

  /** Whatever the arm, the office arm as written throws at its first entry without touching anything. */
  lemma {:induction false} GatherOfficeAsWritten(env: Env, entries: seq<string>)
    requires entries != []
    ensures Gather(env, Office, AsWritten, entries) == Step(Failure(UnboundTxtFile), [])
  {
    GatherFirstFailure(env, Office, AsWritten, entries, 0);
    assert entries[..1] == [entries[0]];
  }

  /** A type outside the nine-entry whitelist is rejected before any source is touched. */
  lemma UnknownTypeRejectedUntouched(contextPath: string, contextType: string, env: Env, variant: Variant)
    requires contextType !in ValidContextTypes
    ensures var r := ReadContextSpec(contextPath, contextType, env, variant);
      && r.outcome == Threw(PlainError("'" + contextType + "' is not a valid file type"))
      && r.accessed == []
      && r.linesProcessed == None
  {
  }

  /** Nothing is touched exactly when the type is refused or is an office type in the code as written. */
  lemma {:induction false} NothingTouchedExactly(contextPath: string, contextType: string, env: Env, variant: Variant)
    ensures ReadContextSpec(contextPath, contextType, env, variant).accessed == []
        <==> contextType !in ValidContextTypes || (KindOf(contextType) == Office && variant == AsWritten)
  {
    if contextType in ValidContextTypes {
      var kind, entries := KindOf(contextType), Split(contextPath, ',');
      if kind == Office && variant == AsWritten {
        GatherOfficeAsWritten(env, entries);
      } else {
        GatherTouchesSomething(env, kind, variant, entries);
      }
    }
  }

  /** Outside the office arm as written, every entry the loop reaches is touched, so a loop over entries touches something. */
  lemma {:induction false} GatherTouchesSomething(env: Env, kind: Kind, variant: Variant, entries: seq<string>)
    requires entries != []
    requires kind != Office || variant == Corrected
    ensures Gather(env, kind, variant, entries).accessed != []
    decreases |entries|
  {
    GatherStep(env, kind, variant, entries);
    var n := |entries| - 1;
    if n > 0 {
      GatherTouchesSomething(env, kind, variant, entries[..n]);
    }
    assert Touches(kind, variant, entries[n]) != [];
  }

  /**
   * When every source is read: the sources are touched in list order, and the
   * result is the replacement applied to the initial text followed by every
   * source's text and one space each; it is reported empty exactly when that
   * content is blank.
   */
  lemma {:induction false} SourcesJoinedInOrder(contextPath: string, contextType: string, env: Env, variant: Variant)
    requires contextType in ValidContextTypes
    requires AllRead(env, KindOf(contextType), variant, Split(contextPath, ','))
    ensures var entries := Split(contextPath, ',');
      var content := InitialText(variant) + SpaceTerminated(Texts(env, KindOf(contextType), variant, entries));
      var r := ReadContextSpec(contextPath, contextType, env, variant);
      && r.accessed == AllTouches(KindOf(contextType), variant, entries)
      && (r.outcome.Returned? <==> !IsBlank(content))
      && (r.outcome.Returned? ==> r.outcome.value == Normalize(content) && r.linesProcessed == Some(LineCount(Trim(content))))
      && (r.outcome.Returned? ==> r.errorLog == [])
      && (!r.outcome.Returned? ==>
            r.outcome == Threw(EmptyContextError(contextPath)) && r.errorLog == ["context " + contextPath + " is empty"])
  {
    var kind, entries := KindOf(contextType), Split(contextPath, ',');
    GatherAllRead(env, kind, variant, entries);
    TrimEmptyIffBlank(InitialText(variant) + SpaceTerminated(Texts(env, kind, variant, entries)));
  }

  /**
   * The first source that throws ends the read: its error is thrown again
   * unchanged, after the line its `code` selects; no later source is touched.
   */
  lemma {:induction false} FirstFailureRethrown(contextPath: string, contextType: string, env: Env, variant: Variant, k: nat)
    requires contextType in ValidContextTypes
    requires var entries := Split(contextPath, ',');
      && k < |entries|
      && (forall i :: 0 <= i < k ==> ReadEntry(env, KindOf(contextType), variant, entries[i]).result.Success?)
      && ReadEntry(env, KindOf(contextType), variant, entries[k]).result.Failure?
    ensures var entries := Split(contextPath, ',');
      var e := ReadEntry(env, KindOf(contextType), variant, entries[k]).result.error;
      var r := ReadContextSpec(contextPath, contextType, env, variant);
      && r.outcome == Threw(e)
      && r.accessed == AllTouches(KindOf(contextType), variant, entries[..k + 1])
      && r.errorLog == [ErrorMessage(Classify(e.code), contextPath)]
  {
    GatherFirstFailure(env, KindOf(contextType), variant, Split(contextPath, ','), k);
  }

  /**
   * As written, the accumulator starts `undefined`, so whenever every source
   * is read the result starts with the word and the empty check never fires.
   */
  lemma {:induction false} UndefinedPrefixAsWritten(contextPath: string, contextType: string, env: Env)
    requires contextType in ValidContextTypes
    requires AllRead(env, KindOf(contextType), AsWritten, Split(contextPath, ','))
    ensures var texts := Texts(env, KindOf(contextType), AsWritten, Split(contextPath, ','));
      ReadContextSpec(contextPath, contextType, env, AsWritten).outcome == Returned(Normalize("undefined" + SpaceTerminated(texts)))
  {
    SourcesJoinedInOrder(contextPath, contextType, env, AsWritten);
    var content := "undefined" + SpaceTerminated(Texts(env, KindOf(contextType), AsWritten, Split(contextPath, ',')));
    assert !IsWs(content[0]);
  }

  /** With the accumulator starting at `''`, the read reports an empty context exactly when every source is blank. */
  lemma {:induction false} CorrectedReportsEmptyExactly(contextPath: string, contextType: string, env: Env)
    requires contextType in ValidContextTypes
    requires AllRead(env, KindOf(contextType), Corrected, Split(contextPath, ','))
    ensures var texts := Texts(env, KindOf(contextType), Corrected, Split(contextPath, ','));
      (ReadContextSpec(contextPath, contextType, env, Corrected).outcome == Threw(EmptyContextError(contextPath))
       <==> forall i :: 0 <= i < |texts| ==> IsBlank(texts[i]))
    ensures var r := ReadContextSpec(contextPath, contextType, env, Corrected);
      r.outcome.Threw? ==> r.errorLog == ["context " + contextPath + " is empty"]
  {
    var texts := Texts(env, KindOf(contextType), Corrected, Split(contextPath, ','));
    SourcesJoinedInOrder(contextPath, contextType, env, Corrected);
    SpaceTerminatedBlank(texts);
    assert "" + SpaceTerminated(texts) == SpaceTerminated(texts);
  }

  /** As written, every office type throws the ReferenceError of line 47 before the parser runs, and logs the catch-all line. */
  lemma {:induction false} OfficeNeverParsedAsWritten(contextPath: string, contextType: string, env: Env)
    requires contextType in ValidContextTypes && KindOf(contextType) == Office
    ensures ReadContextSpec(contextPath, contextType, env, AsWritten)
         == Report(Threw(UnboundTxtFile), [], None, ["cannot read context " + contextPath])
  {
    GatherOfficeAsWritten(env, Split(contextPath, ','));
  }

  /** Corrected, the office arm hands every trimmed entry to the parser, in list order. */
  lemma {:induction false} CorrectedParsesEveryOfficeFile(contextPath: string, contextType: string, env: Env)
    requires contextType in ValidContextTypes && KindOf(contextType) == Office
    requires AllRead(env, Office, Corrected, Split(contextPath, ','))
    ensures var entries := Split(contextPath, ',');
      var accessed := ReadContextSpec(contextPath, contextType, env, Corrected).accessed;
      && |accessed| == |entries|
      && forall i :: 0 <= i < |entries| ==> accessed[i] == ParseOffice(Trim(entries[i]))
  {
    var entries := Split(contextPath, ',');
    SourcesJoinedInOrder(contextPath, contextType, env, Corrected);
    OfficeTouchesInOrder(entries);
  }

  lemma {:induction false} OfficeTouchesInOrder(entries: seq<string>)
    ensures |AllTouches(Office, Corrected, entries)| == |entries|
    ensures forall i :: 0 <= i < |entries| ==> AllTouches(Office, Corrected, entries)[i] == ParseOffice(Trim(entries[i]))
  {
    if entries != [] {
      var n := |entries| - 1;
      var prefix := entries[..n];
      OfficeTouchesInOrder(prefix);
      var all := AllTouches(Office, Corrected, entries);
      assert all == AllTouches(Office, Corrected, prefix) + [ParseOffice(Trim(entries[n]))];
      forall i | 0 <= i < |entries|
        ensures all[i] == ParseOffice(Trim(entries[i]))
      {
        if i < n {
          assert prefix[i] == entries[i];
        }
      }
    }
  }

  /** A returned result is the replacement applied to the initial text and the loop's text. */
  lemma SpecReturned(contextPath: string, contextType: string, env: Env, variant: Variant)
    requires ReadContextSpec(contextPath, contextType, env, variant).outcome.Returned?
    ensures contextType in ValidContextTypes
    ensures var g := Gather(env, KindOf(contextType), variant, Split(contextPath, ','));
      && g.result.Success?
      && ReadContextSpec(contextPath, contextType, env, variant).outcome.value == Normalize(InitialText(variant) + g.result.value)
  {
  }

  /** The result is not trimmed: the separator after the last source survives the replacement. */
  lemma {:induction false} ResultKeepsTrailingSpace(contextPath: string, contextType: string, env: Env, variant: Variant)
    requires ReadContextSpec(contextPath, contextType, env, variant).outcome.Returned?
    ensures var text := ReadContextSpec(contextPath, contextType, env, variant).outcome.value;
      text != [] && text[|text| - 1] == ' '
  {
    SpecReturned(contextPath, contextType, env, variant);
    var entries := Split(contextPath, ',');
    var kind := KindOf(contextType);
    GatherEndsWithSpace(env, kind, variant, entries);
    NormalizeKeepsSpaceAfter(InitialText(variant), Gather(env, kind, variant, entries).result.value);
  }

  lemma NormalizeKeepsSpaceAfter(prefix: string, text: string)
    requires text != [] && text[|text| - 1] == ' '
    ensures var r := Normalize(prefix + text); r != [] && r[|r| - 1] == ' '
  {
    var content := prefix + text;
    assert content[|content| - 1] == ' ';
    assert IsWs(' ');
    NormalizeKeepsTrailingSpace(content);
  }

  /** The loop over a single entry. */
  lemma GatherSingle(env: Env, kind: Kind, variant: Variant, entry: string)
    ensures var last := ReadEntry(env, kind, variant, entry);
      Gather(env, kind, variant, [entry])
        == if last.result.Failure? then last else Step(Success(last.result.value + " "), last.accessed)
  {
    GatherStep(env, kind, variant, [entry]);
    assert [entry][..0] == [];
    assert Gather(env, kind, variant, []) == Step(Success(""), []);
    var last := ReadEntry(env, kind, variant, entry);
    if last.result.Success? {
      assert "" + last.result.value == last.result.value;
    }
  }

  /** An empty file is read as `undefined ` in the code as written, and reported empty once corrected. */
  lemma EmptyFileAsWritten(contextPath: string, env: Env)
    requires ',' !in contextPath
    requires env.files(Trim(contextPath)) == Success("")
    ensures ReadContextSpec(contextPath, "txt", env, AsWritten).outcome == Returned("undefined ")
  {
    SplitWithoutSeparator(contextPath, ',');
    EmptyFileGathered(contextPath, env, AsWritten);
    assert InitialText(AsWritten) + " " == "undefined ";
    UndefinedSpaceNotBlank();
    NormalizeUndefinedSpace();
  }

  /** Corrected, the same empty file is reported as an empty context. */
  lemma EmptyFileCorrected(contextPath: string, env: Env)
    requires ',' !in contextPath
    requires env.files(Trim(contextPath)) == Success("")
    ensures ReadContextSpec(contextPath, "txt", env, Corrected).outcome == Threw(EmptyContextError(contextPath))
  {
    SplitWithoutSeparator(contextPath, ',');
    EmptyFileGathered(contextPath, env, Corrected);
    assert IsBlank("" + " ");
  }

  lemma EmptyFileGathered(contextPath: string, env: Env, variant: Variant)
    requires env.files(Trim(contextPath)) == Success("")
    ensures Gather(env, Txt, variant, [contextPath]) == Step(Success(" "), [ReadText(Trim(contextPath))])
  {
    GatherSingle(env, Txt, variant, contextPath);
    assert "" + " " == " ";
  }

  lemma UndefinedSpaceNotBlank()
    ensures Trim("undefined ") != ""
  {
    assert !IsWs("undefined "[0]);
  }

  lemma NormalizeUndefinedSpace()
    ensures Normalize("undefined ") == "undefined "
  {
    var s := "undefined ";
    forall i | 0 <= i < |s| - 1 ensures !IsWs(s[i]) {
    }
    NormalizeFixesSpacedText(s);
  }
}
