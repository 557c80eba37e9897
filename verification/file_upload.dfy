/** The upload form: the MIME allow-list in front of the file parser, the
    minimum length of pasted text, the drag highlight, and the request it
    hands to `onAnalyze`. */
module FileUpload {
  import opened Wrappers
  import opened Strings
  import opened Types
  import opened MockAiService

  /** The MIME types the form accepts, checked before any parsing. */
  const ValidTypes: seq<string> := [PdfMime, DocxMime, TextMime]

  const UnsupportedFormatMessage: string := "Unsupported file format. Please upload PDF, DOCX, or TXT."
  const ParseFailedMessage: string := "Failed to parse file."
  const TooShortMessage: string := "Please enter at least 50 characters for accurate analysis."

  /** The file name reported for pasted text. */
  const ManualEntryName: string := "Manual Entry"

  /** The least trimmed length of pasted text that is analysed. */
  const MinPastedLength: nat := 50

  /** The allow-list holds exactly the three file types. */
  lemma ValidTypesAreFileTypes(mime: string)
    ensures mime in ValidTypes <==> FileTypeOf(mime).Some?
  {
  }

  /** One `onAnalyze(text, fileName)` call. */
  datatype Submission = Submission(text: string, fileName: string)

  /** The form's state: the drag highlight, the text area and the error shown. */
  datatype UploadState = UploadState(dragActive: bool, textInput: string, error: Option<string>)

  const InitialUpload: UploadState := UploadState(false, "", None)

  /** The outcome of a user action: the new state and the analysis it
      requested, if any (`Some` means `onAnalyze` is called exactly once). */
  datatype Step = Step(state: UploadState, analyze: Option<Submission>)

  /** `processFile(file)`: a failure carries the error message shown. */
  function ProcessFile(f: UploadedFile): (r: Result<Submission, string>)
    ensures f.mime !in ValidTypes ==> r == Failure(UnsupportedFormatMessage)
    ensures f.mime in ValidTypes && ParseFile(f).Failure? ==> r == Failure(ParseFailedMessage)
    ensures r.Success? <==> f.mime in ValidTypes && ParseFile(f).Success?
    ensures r.Success? ==> r.value == Submission(ParseFile(f).value, f.name)
  {
    if f.mime !in ValidTypes then Failure(UnsupportedFormatMessage)
    else
      match ParseFile(f)
      case Failure(_) => Failure(ParseFailedMessage)
      case Success(text) => Success(Submission(text, f.name))
  }

  /** A file outside the allow-list is refused before its contents are read:
      the outcome is the same whatever the file holds or is called. */
  lemma RejectedBeforeReading(f: UploadedFile, other: Blob, otherName: string)
    requires f.mime !in ValidTypes
    ensures ProcessFile(f) == ProcessFile(f.(blob := other, name := otherName))
  {
  }

  /** Behind the allow-list the ".docx" name fallback and the "Unsupported
      file type" error of the parser are unreachable: only the MIME type
      decides how a file is read. */
  lemma AllowListMakesNameIrrelevant(f: UploadedFile, otherName: string)
    requires f.mime in ValidTypes
    ensures ParseFile(f).Failure? ==> !ParseFile(f).error.UnsupportedType?
    ensures ProcessFile(f).Success? ==> ProcessFile(f.(name := otherName)).Success?
    ensures ProcessFile(f).Success? ==>
              ProcessFile(f.(name := otherName)).value.text == ProcessFile(f).value.text
  {
    ParseFileIgnoresNameForKnownType(f, otherName);
  }

  /** The parser's own error messages never reach the screen: every parse
      failure of an allowed file shows the one generic message. */
  lemma ParserMessagesHidden(f: UploadedFile)
    requires f.mime in ValidTypes && ParseFile(f).Failure?
    ensures ProcessFile(f) == Failure(ParseFailedMessage)
    ensures ParseFile(f).error.Message() != Some(ParseFailedMessage)
  {
  }

  /** Applies `processFile` to the first of the files, if there is one. */
  function ProcessFirst(st: UploadState, files: seq<UploadedFile>): (r: Step)
    ensures |files| == 0 ==> r == Step(st, None)
    ensures |files| > 0 && ProcessFile(files[0]).Success? ==>
              r == Step(st, Some(ProcessFile(files[0]).value))
    ensures |files| > 0 && ProcessFile(files[0]).Failure? ==>
              r == Step(st.(error := Some(ProcessFile(files[0]).error)), None)
  {
    if |files| == 0 then Step(st, None)
    else
      match ProcessFile(files[0])
      case Failure(msg) => Step(st.(error := Some(msg)), None)
      case Success(sub) => Step(st, Some(sub))
  }

  /** `handleFileInput`: clears the error, then processes the chosen file. */
  function HandleFileInput(st: UploadState, files: seq<UploadedFile>): (r: Step)
    ensures r.state.dragActive == st.dragActive && r.state.textInput == st.textInput
    ensures r.analyze.Some? ==> r.state.error.None?
    ensures r.analyze.Some? <==> |files| > 0 && ProcessFile(files[0]).Success?
    ensures r.analyze.Some? ==> r.analyze.value == ProcessFile(files[0]).value
    ensures r.analyze.None? && |files| > 0 ==> r.state.error == Some(ProcessFile(files[0]).error)
    ensures |files| == 0 ==> r.state.error.None?
  {
    ProcessFirst(st.(error := None), files)
  }

  /** `handleDrop`: ends the drag highlight, clears the error, then processes
      the first dropped file. */
  function HandleDrop(st: UploadState, files: seq<UploadedFile>): (r: Step)
    ensures !r.state.dragActive && r.state.textInput == st.textInput
    ensures r.analyze.Some? ==> r.state.error.None?
    ensures r.analyze.Some? <==> |files| > 0 && ProcessFile(files[0]).Success?
    ensures r.analyze.Some? ==> r.analyze.value == ProcessFile(files[0]).value
    ensures r.analyze.None? && |files| > 0 ==> r.state.error == Some(ProcessFile(files[0]).error)
    ensures |files| == 0 ==> r.state.error.None?
  {
    ProcessFirst(st.(dragActive := false, error := None), files)
  }

  /** `handleDrag` for an event of the given type. */
  function HandleDrag(st: UploadState, eventType: string): (r: UploadState)
    ensures eventType == "dragenter" || eventType == "dragover" ==> r.dragActive
    ensures eventType == "dragleave" ==> !r.dragActive
    ensures eventType !in ["dragenter", "dragover", "dragleave"] ==> r == st
    ensures r.textInput == st.textInput && r.error == st.error
  {
    if eventType == "dragenter" || eventType == "dragover" then st.(dragActive := true)
    else if eventType == "dragleave" then st.(dragActive := false)
    else st
  }

  /** `handleTextSubmit`: pasted text is analysed, untrimmed and under the
      name "Manual Entry", when its trimmed length reaches 50; otherwise the
      length error is shown. An earlier error is left as it was on success. */
  function HandleTextSubmit(st: UploadState): (r: Step)
    ensures r.analyze.Some? <==> |Trim(st.textInput)| >= MinPastedLength
    ensures r.analyze.Some? ==> r.analyze.value == Submission(st.textInput, ManualEntryName) && r.state == st
    ensures r.analyze.None? ==> r.state == st.(error := Some(TooShortMessage))
  {
    if |Trim(st.textInput)| < MinPastedLength then Step(st.(error := Some(TooShortMessage)), None)
    else Step(st, Some(Submission(st.textInput, ManualEntryName)))
  }

  /** Whitespace around pasted text neither helps nor hurts it. */
  lemma SurroundingWhitespaceDoesNotCount(st: UploadState, a: string, b: string)
    requires AllWhitespace(a) && AllWhitespace(b)
    ensures var padded := st.(textInput := a + st.textInput + b);
            HandleTextSubmit(padded).analyze.Some? <==> HandleTextSubmit(st).analyze.Some?
  {
    TrimIgnoresSurroundingWhitespace(a, st.textInput, b);
  }

  /** For text with no surrounding whitespace the bar is exact: 49
      characters are refused and 50 are accepted. */
  lemma PastedLengthBoundary(st: UploadState)
    requires Trimmed(st.textInput)
    ensures |st.textInput| == 49 ==> HandleTextSubmit(st).analyze.None?
    ensures |st.textInput| == 50 ==> HandleTextSubmit(st).analyze.Some?
  {
    TrimOfTrimmed(st.textInput);
  }

  /** The "Analyze Text" button is off while an analysis runs or while the
      text area holds only whitespace. */
  predicate AnalyzeButtonDisabled(isAnalyzing: bool, textInput: string) {
    isAnalyzing || Trim(textInput) == ""
  }

  /** The empty form starts with the button disabled, and submitting it
      shows the length error without analysing anything. */
  lemma FreshForm()
    ensures AnalyzeButtonDisabled(false, InitialUpload.textInput)
    ensures HandleTextSubmit(InitialUpload) == Step(InitialUpload.(error := Some(TooShortMessage)), None)
  {
  }

  /** An enabled button does not guarantee acceptance: text with 1 to 49
      trimmed characters passes the button but is refused on submit. */
  lemma AnalyzeButtonVersusSubmit(st: UploadState)
    ensures AnalyzeButtonDisabled(false, st.textInput) <==> AllWhitespace(st.textInput)
    ensures HandleTextSubmit(st).analyze.Some? ==> !AnalyzeButtonDisabled(false, st.textInput)
  {
  }
}
