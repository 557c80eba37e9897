# ResumeGuardAI core, modelled in Dafny

ResumeGuardAI takes a resume, either as an uploaded file or as pasted text.
It returns a mock "AI-generated" probability with three improvement
suggestions, and it can run a mock "humanizer" over the text. Results are
summarised in a history that is kept in browser storage.

This project models that core as pure Dafny functions over immutable
datatypes and proves properties about them:

- `strings.dfy` (module `Strings`): the JavaScript string built-ins the
  pipeline relies on. These are `split(". ")`, `join`, `trim()` and
  lower-casing of the first character.
- `types.dfy` (module `Types`): the records of `types.ts`, and the MIME
  strings of the three accepted file types.
- `mock_ai_service.dfy` (module `MockAiService`):
  - `analyzeContent`: length-based scoring, and three suggestions drawn from
    a shuffled pool.
  - `humanizeContent`: every third sentence gets a transition phrase, and a
    fixed suffix is appended.
  - `parsePdf`, `parseDocx` and the `parseFile` dispatch.
- `analysis_dashboard.dfy` (module `AnalysisDashboard`): the score update
  after a humanize pass, the download choice, and the disabled states of
  the tab and of the humanize button.
- `file_upload.dfy` (module `FileUpload`): the MIME allow-list, the 50-character
  floor for pasted text, the drag highlight, and the request passed to
  `onAnalyze`.
- `app.dfy` (module `App`): the application shell. It holds the current
  result, the two screens, and the history operations (load, save, prepend,
  delete, score update).
- `wrappers.dfy` (module `Wrappers`): `Option` and `Result`.

Everything nondeterministic or foreign is a parameter:

- The suggestion shuffle is a permutation `order` of the pool's indices.
- Each transition draw `Math.floor(Math.random() * 5)` is `picks[i]`, for
  sentence `i`.
- The id and the clock are plain arguments.
- An uploaded file carries a `Blob` that records three things:
  - the text `file.text()` reads, or `None` when that read rejects;
  - the pages of text fragments pdf.js extracts, or `None` when pdf.js cannot
    open the file;
  - the raw text mammoth extracts, or `None` when mammoth rejects the file.
- An awaited promise that may reject is an `Option` argument holding its
  settled value.
- Browser storage is a cell: `Missing`, `Corrupt` or `Saved(items)`.

Facts about the code that the model makes explicit:

- After a humanize pass the two scores still sum to 100 whenever they did
  before: the two clamps always fire together (`AnalysisDashboard.HumanizeKeepsSum`).
- `handleDeleteHistory` removes every entry with the given id, and
  `handleUpdateResult` updates every entry with the result's id.
- Pasted text is measured after trimming, not by its raw length.
- A successful text submission does not clear an error that is already on
  screen.
- Mounting the shell runs two effects. The first loads the stored history;
  the second writes the history back. So an unreadable stored value is
  replaced by an empty list.

## Model

| member | source | states |
|---|---|---|
| Strings.Trim | services/mockAiService.ts:104 | `trim()` keeps the part of the input between its first and last non-whitespace characters: everything cut off on either side is whitespace, the part kept neither starts nor ends with whitespace, and it is empty exactly when the input is all whitespace |
| Strings.TrimUnique | services/mockAiService.ts:104 | any cut whose outside is all whitespace and whose kept part neither starts nor ends with whitespace is the cut `trim()` makes, so the result is fully determined by those two properties |
| Strings.TrimIgnoresSurroundingWhitespace | components/FileUpload.tsx:61 | whitespace added before and after a text does not change its trimmed form |
| Strings.TrimIdempotent | services/mockAiService.ts:113 | trimming an already trimmed text changes nothing |
| Strings.Sentences | services/mockAiService.ts:67 | `split(". ")` always yields at least one piece, and no piece contains ". " |
| Strings.JoinSentences | services/mockAiService.ts:67-77 | joining the pieces of `split(". ")` with ". " gives back the original text |
| Strings.SentencesOfJoin | services/mockAiService.ts:67-77 | splitting a ". "-join of pieces that are free of ". " gives back those pieces: the converse round trip |
| Strings.LowerFirst | services/mockAiService.ts:74 | `charAt(0).toLowerCase() + slice(1)` keeps the length and every character after the first, and lower-cases the first |
| Strings.Join | services/mockAiService.ts:77 | `parts.join(sep)` is the parts in order with the separator between neighbours; `Strings.JoinSnoc` states that appending a part appends the separator and that part |
| Strings.JoinSnoc | services/mockAiService.ts:99 | joining one more part at the end gives the old join, the separator and the new part |
| Strings.EndsWith | services/mockAiService.ts:133 | `s.endsWith(suffix)`: the suffix is no longer than the text and equals its last characters |
| Types.FileTypeOf | types.ts:25 | a MIME string names a file type exactly when it is one of the three MIME strings, and that type's MIME string is the input |
| Types.FileTypeRoundTrip | types.ts:25 | the three MIME strings are pairwise different, so reading a type's MIME string back gives that type |
| MockAiService.PickSuggestions | services/mockAiService.ts:21-47 | for any permutation of the pool, the pick has exactly three suggestions, each from the pool, and no two are equal |
| MockAiService.AiProbability | services/mockAiService.ts:34-43 | the floored score of the two length-based formulas is always in [20, 90], and at least 40 above 500 characters |
| MockAiService.AiProbabilityClosedForm | services/mockAiService.ts:34-43 | the floored score equals `40 + (len % 100) / 2` above 500 characters, where the 95 cap never binds and the score is in [40, 89]. Otherwise it equals `min(90, 20 + len % 100)`. It is always in [20, 90] |
| MockAiService.Analyze | services/mockAiService.ts:30-58 | the AI and human probabilities always sum to 100 and are fixed by the text's length. The suggestions are the first three of the shuffle, distinct and from the pool. The result keeps the text, the id and the time, and has no humanized text |
| MockAiService.ScoreDependsOnlyOnLength | services/mockAiService.ts:33-34 | two texts of equal length get equal scores, whatever their content, id, time or shuffle |
| MockAiService.Humanize | services/mockAiService.ts:60-80 | the humanized text always ends with " (Enhanced for personal tone and flow)", and it is at least as long as the input plus that suffix |
| MockAiService.RewriteSentence | services/mockAiService.ts:70-76 | the map callback leaves sentence 0 and every sentence whose index is not a multiple of 3 unchanged. Every other sentence becomes the chosen transition, a space and the sentence with its first character lower-cased |
| MockAiService.HumanizeSentences | services/mockAiService.ts:67-77 | removing the suffix leaves a text with exactly as many sentences as the input. Sentence 0 and every sentence whose index is not a multiple of 3 are unchanged. Each other sentence is a transition phrase, a space and the sentence with its first character lower-cased, so an empty sentence becomes the phrase and a space |
| MockAiService.RewriteSentenceNoBreak | services/mockAiService.ts:72-74 | prefixing a transition and lower-casing the first character never creates a ". " inside a sentence |
| MockAiService.HumanizeShortText | services/mockAiService.ts:67-79 | a text with fewer than three ". " delimiters humanizes to exactly the text followed by the suffix |
| MockAiService.HumanizeRepeatsSuffix | services/mockAiService.ts:79 | the suffix is appended even when the text already ends with it, so it then appears twice |
| MockAiService.PdfText | services/mockAiService.ts:88-104 | the extracted PDF text has no leading or trailing whitespace, and a document with no pages gives "" |
| MockAiService.PageText | services/mockAiService.ts:97-99 | a page's text is its fragments joined with single spaces (the join itself is `Strings.Join`) |
| MockAiService.PagesText | services/mockAiService.ts:91-101 | the text accumulated before trimming is each page text followed by a blank line, pages in order; `MockAiService.PagesTextIsJoin` proves it is the blank-line join of the page texts plus one trailing blank line |
| MockAiService.PagesTextIsJoin | services/mockAiService.ts:91-101 | the accumulated text equals the page texts joined with blank lines, followed by one more blank line |
| MockAiService.AssemblePdfText | services/mockAiService.ts:88-104 | the page loop builds each page's space-joined fragments followed by a blank line, and the trimmed result equals the functional definition |
| MockAiService.PdfTextSeparatesPages | services/mockAiService.ts:91-104 | when every page's text is non-empty and has no surrounding whitespace, the result is the page texts separated by one blank line |
| MockAiService.PdfTextIsTrimmedJoin | services/mockAiService.ts:88-104 | for any document with at least one page, the text is the page texts joined with blank lines and then trimmed, so the blank line after the last page never survives |
| MockAiService.DocxText | services/mockAiService.ts:107-114 | the Word-document text is trimmed, and text that is already trimmed comes back unchanged |
| MockAiService.DocxTextIgnoresSurroundingWhitespace | services/mockAiService.ts:113 | whitespace around the raw Word text never changes the result; with `DocxText` keeping trimmed text unchanged, the result is the raw text trimmed |
| MockAiService.ParseFile | services/mockAiService.ts:116-143 | `text/plain` returns what `file.text()` read, and a failed read propagates as an error. A PDF MIME type gives the trimmed PDF text, or the PDF error when pdf.js cannot read the file. Any other type that is the Word MIME type or has a ".docx" name gives the trimmed Word text, or the Word error when mammoth rejects the file. "Unsupported file type" is raised exactly when the MIME type is none of the three and the name lacks ".docx", and it carries the declared type |
| MockAiService.ParseError.Message | services/mockAiService.ts:126-142 | the messages `parseFile` throws: the PDF and Word messages, and "Unsupported file type: " followed by the declared type. A failed `file.text()` carries the browser's own error, whose text is not modelled |
| MockAiService.ParseFileIgnoresNameForKnownType | services/mockAiService.ts:116-133 | a recognised MIME type decides the path alone: renaming the file changes nothing, and a PDF or text MIME type wins over a ".docx" name |
| AnalysisDashboard.WithHumanized | components/AnalysisDashboard.tsx:28-33 | only the humanized text and the two scores change. AI stays at or above 5 and never rises from a value of 5 or more. Human stays at or below 95 and never falls from a value of 95 or less. AI lands on 5 exactly when it was at most 65, and human lands on 95 exactly when it was at least 35. Otherwise each moves by 60 |
| AnalysisDashboard.StartHumanize | components/AnalysisDashboard.tsx:25 | starting a pass raises the busy flag and keeps the tab, which disables the humanize button |
| AnalysisDashboard.HumanizeKeepsSum | components/AnalysisDashboard.tsx:31-32 | if the scores summed to 100 before a humanize pass, they still do after it. Both clamp (to 5 and 95) exactly when AI was at most 65. Otherwise neither clamps |
| AnalysisDashboard.HandleHumanize | components/AnalysisDashboard.tsx:24-40 | the busy flag always ends false. A rejected humanize sends no update and keeps the tab. A successful one sends the updated result and switches to the humanized tab |
| AnalysisDashboard.HumanizeResult | components/AnalysisDashboard.tsx:27 | the humanizer runs on the original text, and the update carries that rewrite as a non-empty humanized text |
| AnalysisDashboard.RehumanizeDoesNotStack | components/AnalysisDashboard.tsx:27 | a second pass gives the same humanized text as one pass from the original would, so suffixes and transitions never pile up |
| AnalysisDashboard.HumanizeFromFreshAnalysis | components/AnalysisDashboard.tsx:31-32 | starting from fresh scores (AI in [20, 90], sum 100), one pass brings AI to at most 30. A second pass gives exactly (5, 95), and further passes stay there |
| AnalysisDashboard.DownloadText | components/AnalysisDashboard.tsx:43 | the download is the humanized text when the humanized tab is active and that text is non-empty, and the original text otherwise |
| AnalysisDashboard.HumanizedTabDisabled | components/AnalysisDashboard.tsx:157 | the humanized tab is disabled exactly when there is no non-empty humanized text |
| AnalysisDashboard.HumanizeButtonDisabled | components/AnalysisDashboard.tsx:198 | the humanize button is disabled while a pass runs, and while non-empty humanized text is shown on its tab |
| AnalysisDashboard.SelectTab | components/AnalysisDashboard.tsx:147-157 | clicking the original tab, or the humanized tab while humanized text exists, selects that tab. Clicking the disabled humanized tab changes nothing. The busy flag is kept |
| AnalysisDashboard.AfterHumanize | components/AnalysisDashboard.tsx:196-198 | after a successful pass the humanized tab is enabled and the download is the rewrite. The humanize button stays disabled while the humanized tab is shown, and becomes enabled again on the original tab |
| AnalysisDashboard.FreshDashboard | components/AnalysisDashboard.tsx:14-15 | a result with no humanized text opens on the original tab: the humanized tab is disabled and ignores clicks, the humanize button is enabled, and the download is the original text |
| FileUpload.ValidTypesAreFileTypes | components/FileUpload.tsx:46 | the upload allow-list holds exactly the three MIME strings of the file-type union |
| FileUpload.ProcessFile | components/FileUpload.tsx:45-58 | a type outside the allow-list gives the "Unsupported file format" error. A parse failure gives "Failed to parse file.". Otherwise the parsed text and the file's name are forwarded |
| FileUpload.ProcessFirst | components/FileUpload.tsx:32-35 | only the first file is processed. No file means no change and no request. A processing failure shows its error without a request. A success sends exactly the processed text and file name |
| FileUpload.ParserMessagesHidden | components/FileUpload.tsx:52-57 | every parse failure of an allowed file shows the one message "Failed to parse file.", never the parser's own message |
| FileUpload.RejectedBeforeReading | components/FileUpload.tsx:46-50 | a file outside the allow-list gets the same outcome whatever its contents or name: it is never parsed |
| FileUpload.AllowListMakesNameIrrelevant | components/FileUpload.tsx:46-53 | behind the allow-list, the parser's ".docx" fallback and its "Unsupported file type" error cannot be reached |
| FileUpload.HandleFileInput | components/FileUpload.tsx:38-43 | the error is cleared first and stays cleared when no file was chosen. `onAnalyze` is called exactly when a file was chosen and processed successfully, and it receives that file's parsed text and name. Otherwise the processing error of the chosen file is shown |
| FileUpload.HandleDrop | components/FileUpload.tsx:26-36 | a drop ends the drag highlight and clears the error, which stays cleared when nothing was dropped. `onAnalyze` is called exactly when the first dropped file is processed successfully, and it receives that file's parsed text and name. Otherwise the processing error of that file is shown |
| FileUpload.HandleDrag | components/FileUpload.tsx:16-24 | dragenter and dragover turn the highlight on. dragleave turns it off. Any other event type leaves the state unchanged |
| FileUpload.HandleTextSubmit | components/FileUpload.tsx:60-66 | pasted text is forwarded untrimmed as "Manual Entry" exactly when its trimmed length is at least 50. Otherwise the length error is shown |
| FileUpload.SurroundingWhitespaceDoesNotCount | components/FileUpload.tsx:61 | whitespace around pasted text never changes whether it is accepted |
| FileUpload.PastedLengthBoundary | components/FileUpload.tsx:61 | with no surrounding whitespace, 49 characters are refused and 50 are accepted |
| FileUpload.AnalyzeButtonVersusSubmit | components/FileUpload.tsx:152 | with no analysis running, the button is disabled exactly when the text is all whitespace. Every accepted text had the button enabled |
| FileUpload.AnalyzeButtonDisabled | components/FileUpload.tsx:152 | the "Analyze Text" button is disabled while an analysis runs or while the trimmed text is empty |
| FileUpload.FreshForm | components/FileUpload.tsx:12-14 | the empty form starts with the button disabled, and submitting it shows the length error without calling `onAnalyze` |
| App.LoadHistory | App.tsx:17-26 | a stored list is loaded as it is. A missing or unparsable value leaves the history empty |
| App.SaveHistory | App.tsx:29-31 | loading what was saved gives the same history back |
| App.ShowsDashboard | App.tsx:92 | the dashboard is rendered only on the dashboard screen and only when there is a current result |
| App.Mount | App.tsx:17-31 | after mounting, the upload screen shows, there is no current result, and the history is the stored list or empty. Storage then holds exactly that history, as a saved list |
| App.ReloadRestoresHistory | App.tsx:29-31 | saving a history and mounting again gives back the same ordered history |
| App.Render | App.tsx:28-31 | after a render the save effect has written the whole history whenever it changed; storage is untouched otherwise |
| App.StorageFollowsHistory | App.tsx:17-31 | storage holds exactly the shown history after mounting, and still does after every shell handler (analysis, delete, score update, selection, drawer, reset) has been rendered; after a delete, reloading gives the filtered history |
| App.Preview | App.tsx:45 | the preview is at most the first 100 characters followed by "...". The ellipsis is added even to short texts |
| App.HistoryItemFor | App.tsx:40-46 | the entry carries the result's id, AI score and timestamp, plus the preview of the text. Its name is the result's name, or "Untitled" when that is absent or empty, so it is never empty |
| App.HistoryIsLossy | App.tsx:40-46 | a history entry ignores the suggestions, the human score and the humanized text, and sees only the first 100 characters of a longer text, so an entry cannot restore the full report |
| App.StartAnalyze | App.tsx:34 | while an analysis is pending, only the busy flag changes: the screen, the current result, the drawer and the history are kept |
| App.HandleAnalyze | App.tsx:33-56 | success makes the result current, shows the dashboard and raises no alert. It puts exactly one new entry at index 0, followed by the old history unchanged. Failure raises the "Analysis failed. Please try again." alert and leaves the history, the current result and the screen unchanged. The busy flag ends false either way |
| App.AnalyzeText | App.tsx:33-56 | with the mock analysis, the new front entry has the result's id and a score in [20, 90] equal to the current result's. Its name is the one given, or "Untitled" if that was empty |
| App.DeleteHistory | App.tsx:58-60 | the kept entries are exactly the old entries with a different id. Deleting an absent id changes nothing |
| App.DeleteHistoryKeepsOrder | App.tsx:58-60 | deleting from a concatenation deletes from each part and keeps the parts in order, so the relative order of the kept entries is preserved |
| App.DeleteHistoryIdempotent | App.tsx:58-60 | deleting the same id twice is the same as deleting it once |
| App.HandleDeleteHistory | App.tsx:58-60 | a deletion touches only the history: the screen, the current result, the drawer and the busy flag are kept |
| App.UpdateScore | App.tsx:74-78 | the length and order of the history are kept, along with every entry's id, name, date and preview. Only the entries with the matching id take the new score |
| App.UpdateScoreAbsent | App.tsx:74-78 | an update for an id the history does not hold leaves the history unchanged |
| App.HandleUpdateResult | App.tsx:71-79 | the updated result becomes current and the history scores follow it. The screen and the flags are unchanged |
| App.HandleSelectHistory | App.tsx:62-69 | selecting an entry raises the alert that the full report cannot be reloaded, and changes no state except closing the drawer. The history, the current result, the screen and the busy flag are kept |
| App.ToggleHistory | App.tsx:83 | the drawer flag flips. The history, the current result, the screen and the busy flag are kept |
| App.Reset | App.tsx:95 | "Back to Upload" shows the upload screen and hides the dashboard. The current result, the history, the drawer and the busy flag stay as they were |
| App.HumanizeUpdatesHistory | App.tsx:71-79 | a humanize pass reported to the shell keeps the history's length and ids. Exactly the entries with the result's id take the clamped score, and the current result carries the rewrite |
| App.AnalyzeThenHumanize | App.tsx:33-79 | after an analysis and one humanize pass, the new front entry has a score of at most 30, equal to the current result's. The scores still sum to 100, and the rest of the history only took score updates for that id |

## Left out

- Latency and interleaving: the simulated delays, the `setTimeout` calls,
  and overlapping asynchronous calls. `isAnalyzing` and `isHumanizing` are
  modelled as flags only. Each operation is modelled as the step from one
  settled state to the next.
- The stale closure in `handleDrop` (the callback is memoised with no
  dependencies): this concerns re-rendering and cannot be seen in a
  pure model.
- Console logging: the `console.error` calls on a corrupt stored history,
  a failed analysis, a failed PDF or Word parse and a failed humanize pass,
  and the `console.warn` about the PDF worker. They change no state. The
  browser alerts are modelled, as the `alert` of `App.Reaction`. A failed
  humanize pass raises no alert: it only logs, so the dashboard just stops
  being busy.
- The random sources and the clock. `Math.random`, `crypto.randomUUID` and
  `Date.now` become parameters. The shuffle with a random comparator is
  modelled as some permutation of the pool.
- pdf.js and mammoth internals, including the worker URL set-up, and the
  text decoding done by `file.text()`. Their outputs, or their failure, are
  inputs to the model. The text of the browser's error when `file.text()`
  rejects is not modelled; only the failure is.
- Browser storage and JSON. Storage is an abstract cell. A stored value that
  parses but is not a list of entries is not modelled. Neither is the
  rendering of `toISOString`: a date is kept as the instant it renders.
- The download itself (Blob, object URL, the time-stamped file name). Only
  the choice of text is modelled.
- Presentation: `Layout.tsx`, `HistoryDrawer.tsx`, the charts, the colours,
  the `aiScore > 50` threshold, the upload/paste tab switch of the form, and
  the content area.
- Character encoding. Lengths count characters, not UTF-16 code units.
  `toLowerCase` is modelled for ASCII letters only.
- MockAiService.HumanizeRepeatsSuffix: proves the doubled suffix only for
  texts of at most three sentences, where the output is exactly text plus
  suffix. For longer texts, `HumanizeSentences` describes the whole output
  instead.
- MockAiService.PdfTextSeparatesPages: needs every page's text to be
  non-empty and free of surrounding whitespace. For other pages,
  `PdfText`/`AssemblePdfText` give the exact result.
