/** The application shell: the current result, the screen shown, and the
    persisted history of past analyses with its load, prepend, delete and
    score-update operations. */
module App {
  import opened Wrappers
  import opened Strings
  import opened Types
  import opened MockAiService
  import opened AnalysisDashboard

  /** The shell's state. */
  datatype AppState = AppState(
    view: AppView,
    current: Option<AnalysisResult>,
    isAnalyzing: bool,
    showHistory: bool,
    history: seq<HistoryItem>   // most recent first
  )

  /** The dashboard is rendered only on its screen and only with a result. */
  predicate ShowsDashboard(s: AppState) {
    s.view == Dashboard && s.current.Some?
  }

  predicate ShowsUpload(s: AppState) {
    s.view == Upload
  }

  // ---------------------------------------------------------------------------
  // Persistence
  // ---------------------------------------------------------------------------

  /** The storage entry holding the history: absent (or empty), holding text
      that does not parse, or holding a serialized list. */
  datatype Stored = Missing | Corrupt | Saved(items: seq<HistoryItem>)

  /** Reading the stored history; anything that does not parse as a list
      leaves the history empty. */
  function LoadHistory(cell: Stored): (h: seq<HistoryItem>)
    ensures cell.Saved? ==> h == cell.items
    ensures !cell.Saved? ==> h == []
  {
    match cell
    case Saved(items) => items
    case _ => []
  }

  /** Writing the whole history, replacing what was stored. */
  function SaveHistory(h: seq<HistoryItem>): (cell: Stored)
    ensures cell.Saved?
    ensures LoadHistory(cell) == h
  {
    Saved(h)
  }

  /** The shell right after mounting, with what storage then holds. */
  datatype Mounted = Mounted(state: AppState, cell: Stored)

  /** Mounting: the history is loaded, and the save effect then writes it
      back, so an unreadable entry is replaced by an empty list. */
  function Mount(cell: Stored): (m: Mounted)
    ensures m.state.view == Upload && m.state.current.None?
    ensures !m.state.isAnalyzing && !m.state.showHistory
    ensures cell.Saved? ==> m.state.history == cell.items
    ensures !cell.Saved? ==> m.state.history == [] && m.cell == Saved([])
    ensures m.cell == Saved(m.state.history)
    ensures LoadHistory(m.cell) == m.state.history
  {
    var h := LoadHistory(cell);
    Mounted(AppState(Upload, None, false, false, h), SaveHistory(h))
  }

  /** Storage holds exactly the history the shell shows. */
  predicate Persisted(m: Mounted) {
    m.cell == SaveHistory(m.state.history)
  }

  /** The shell after React renders the state `after`: the save effect runs
      when the history changed and writes it whole. A new array with the
      same entries rewrites the same value, so comparing histories by value
      gives the same storage as comparing them by reference. */
  function Render(before: Mounted, after: AppState): (m: Mounted)
    ensures m.state == after
    ensures after.history != before.state.history ==> m.cell == SaveHistory(after.history)
    ensures after.history == before.state.history ==> m.cell == before.cell
  {
    Mounted(after, if after.history == before.state.history then before.cell else SaveHistory(after.history))
  }

  /** Any history the shell holds comes back unchanged after a reload. */
  lemma ReloadRestoresHistory(s: AppState)
    ensures Mount(SaveHistory(s.history)).state.history == s.history
  {
  }

  // ---------------------------------------------------------------------------
  // Recording an analysis
  // ---------------------------------------------------------------------------

  const UntitledName: string := "Untitled"
  const PreviewLength: nat := 100
  const Ellipsis: string := "..."

  /** `text.substring(0, 100) + '...'`: the ellipsis is added even to short texts. */
  function Preview(text: string): (p: string)
    ensures |text| <= PreviewLength ==> p == text + Ellipsis
    ensures |text| > PreviewLength ==> |p| == PreviewLength + |Ellipsis| && p[..PreviewLength] == text[..PreviewLength]
    ensures EndsWith(p, Ellipsis)
  {
    var shown := if |text| <= PreviewLength then text else text[..PreviewLength];
    shown + Ellipsis
  }

  /** The history entry recorded for a result of analysing `text`. */
  function HistoryItemFor(result: AnalysisResult, text: string): (item: HistoryItem)
    ensures item.id == result.id && item.aiScore == result.aiProbability
    ensures item.date == IsoDate(result.timestamp)
    ensures Present(result.fileName) ==> item.fileName == result.fileName.value
    ensures !Present(result.fileName) ==> item.fileName == UntitledName
    ensures item.fileName != ""
    ensures item.preview == Preview(text)
  {
    HistoryItem(result.id,
                if Present(result.fileName) then result.fileName.value else UntitledName,
                IsoDate(result.timestamp), result.aiProbability, Preview(text))
  }

  /** A history entry keeps only the id, the name, the time, the AI score and
      the first 100 characters of the text: results that differ in their
      suggestions, human score, humanized text or anything after the first
      100 characters leave the same entry, so an entry cannot bring back the
      full report. */
  lemma HistoryIsLossy(r: AnalysisResult, text: string, suggestions: seq<string>,
                       human: int, rewritten: Option<string>, other: string)
    requires |text| > PreviewLength && |other| > PreviewLength
    requires other[..PreviewLength] == text[..PreviewLength]
    ensures HistoryItemFor(r.(suggestions := suggestions, humanProbability := human, humanizedText := rewritten), text)
            == HistoryItemFor(r, text)
    ensures HistoryItemFor(r, other) == HistoryItemFor(r, text)
  {
    assert Preview(other) == other[..PreviewLength] + Ellipsis;
  }

  /** The state while an analysis is pending. */
  function StartAnalyze(s: AppState): (r: AppState)
    ensures r.isAnalyzing && r.history == s.history && r.current == s.current && r.view == s.view
    ensures r.showHistory == s.showHistory
  {
    s.(isAnalyzing := true)
  }

  const AnalysisFailedAlert: string := "Analysis failed. Please try again."
  const FullReportAlert: string := "In a full implementation, this would reload the full analysis report."

  /** What a handler leaves behind: the new state and the browser alert it
      raised, if any. */
  datatype Reaction = Reaction(state: AppState, alert: Option<string>)

  /** `handleAnalyze(text, fileName)` once `analyzeContent` has settled with
      `settled` (`None` when it rejected). Success puts the result on screen
      and its entry in front of the history; failure raises an alert and
      changes nothing but the pending flag. */
  function HandleAnalyze(s: AppState, text: string, settled: Option<AnalysisResult>): (r: Reaction)
    ensures !r.state.isAnalyzing && r.state.showHistory == s.showHistory
    ensures settled.None? ==> r.alert == Some(AnalysisFailedAlert)
    ensures settled.None? ==>
              r.state.history == s.history && r.state.current == s.current && r.state.view == s.view
    ensures settled.Some? ==> r.alert.None?
    ensures settled.Some? ==> r.state.current == settled && ShowsDashboard(r.state)
    ensures settled.Some? ==> |r.state.history| == |s.history| + 1 && r.state.history[1..] == s.history
    ensures settled.Some? ==> r.state.history[0] == HistoryItemFor(settled.value, text)
  {
    match settled
    case None => Reaction(s.(isAnalyzing := false), Some(AnalysisFailedAlert))
    case Some(result) =>
      Reaction(s.(current := Some(result),
                  history := [HistoryItemFor(result, text)] + s.history,
                  view := Dashboard,
                  isAnalyzing := false),
               None)
  }

  /** `handleAnalyze` with the mock analysis: the new entry carries the
      result's id and a score in [20, 90], and its name is the one given
      unless that was empty. */
  function AnalyzeText(s: AppState, text: string, fileName: string, id: string, now: int, order: seq<int>): (r: AppState)
    requires IsShuffle(order)
    ensures ShowsDashboard(r) && !r.isAnalyzing && r.showHistory == s.showHistory
    ensures r.current.value.originalText == text && r.current.value.id == id
    ensures r.current.value.aiProbability + r.current.value.humanProbability == 100
    ensures |r.history| == |s.history| + 1 && r.history[1..] == s.history
    ensures r.history[0].id == id && 20 <= r.history[0].aiScore <= 90
    ensures r.history[0].aiScore == r.current.value.aiProbability
    ensures r.history[0].fileName == if fileName == "" then UntitledName else fileName
  {
    HandleAnalyze(s, text, Some(Analyze(text, Some(fileName), id, now, order))).state
  }

  // ---------------------------------------------------------------------------
  // History operations
  // ---------------------------------------------------------------------------

  /** The history without the entries carrying `id`. */
  function DeleteHistory(h: seq<HistoryItem>, id: string): (r: seq<HistoryItem>)
    ensures forall x :: x in r <==> x in h && x.id != id
    ensures |r| <= |h|
    ensures (forall k :: 0 <= k < |h| ==> h[k].id != id) ==> r == h
    decreases |h|
  {
    if |h| == 0 then []
    else
      var rest := DeleteHistory(h[1..], id);
      assert forall x :: x in h <==> x == h[0] || x in h[1..];
      if h[0].id == id then rest
      else
        assert (forall k :: 0 <= k < |h| ==> h[k].id != id) ==> (forall k :: 0 <= k < |h[1..]| ==> h[1..][k].id != id);
        [h[0]] + rest
  }

  /** Deleting works piece by piece: the kept entries of a concatenation are
      the kept entries of each part, in the same order. */
  lemma {:induction false} DeleteHistoryKeepsOrder(a: seq<HistoryItem>, b: seq<HistoryItem>, id: string)
    ensures DeleteHistory(a + b, id) == DeleteHistory(a, id) + DeleteHistory(b, id)
    decreases |a|
  {
    if |a| == 0 {
      assert a + b == b;
    } else {
      assert (a + b)[1..] == a[1..] + b;
      DeleteHistoryKeepsOrder(a[1..], b, id);
    }
  }

  /** Deleting the same id twice is deleting it once. */
  lemma DeleteHistoryIdempotent(h: seq<HistoryItem>, id: string)
    ensures DeleteHistory(DeleteHistory(h, id), id) == DeleteHistory(h, id)
  {
    var r := DeleteHistory(h, id);
    assert forall k :: 0 <= k < |r| ==> r[k] in r;
  }

  function HandleDeleteHistory(s: AppState, id: string): (r: AppState)
    ensures r.history == DeleteHistory(s.history, id)
    ensures r.current == s.current && r.view == s.view && r.showHistory == s.showHistory
    ensures r.isAnalyzing == s.isAnalyzing
  {
    s.(history := DeleteHistory(s.history, id))
  }

  /** The history with the score of every entry carrying `id` replaced. */
  function UpdateScore(h: seq<HistoryItem>, id: string, score: int): (r: seq<HistoryItem>)
    ensures |r| == |h|
    ensures forall k :: 0 <= k < |h| ==>
              && r[k].id == h[k].id && r[k].fileName == h[k].fileName
              && r[k].date == h[k].date && r[k].preview == h[k].preview
    ensures forall k :: 0 <= k < |h| ==> r[k].aiScore == if h[k].id == id then score else h[k].aiScore
    decreases |h|
  {
    if |h| == 0 then []
    else
      var head := if h[0].id == id then h[0].(aiScore := score) else h[0];
      [head] + UpdateScore(h[1..], id, score)
  }

  /** `handleUpdateResult(updated)`: the new result becomes current and the
      history entries with its id take its AI score, in place. */
  function HandleUpdateResult(s: AppState, updated: AnalysisResult): (r: AppState)
    ensures r.current == Some(updated)
    ensures r.history == UpdateScore(s.history, updated.id, updated.aiProbability)
    ensures r.view == s.view && r.isAnalyzing == s.isAnalyzing && r.showHistory == s.showHistory
  {
    s.(current := Some(updated), history := UpdateScore(s.history, updated.id, updated.aiProbability))
  }

  /** An update for an id the history does not hold leaves it unchanged. */
  lemma UpdateScoreAbsent(h: seq<HistoryItem>, id: string, score: int)
    requires forall k :: 0 <= k < |h| ==> h[k].id != id
    ensures UpdateScore(h, id, score) == h
  {
    var r := UpdateScore(h, id, score);
    assert forall k :: 0 <= k < |h| ==> r[k] == h[k];
  }

  /** `handleSelectHistory`: an alert says the full report cannot be
      restored from an entry, and the drawer closes; nothing else changes. */
  function HandleSelectHistory(s: AppState, id: string): (r: Reaction)
    ensures r.alert == Some(FullReportAlert)
    ensures !r.state.showHistory
    ensures r.state.history == s.history && r.state.current == s.current && r.state.view == s.view
    ensures r.state.isAnalyzing == s.isAnalyzing
  {
    Reaction(s.(showHistory := false), Some(FullReportAlert))
  }

  function ToggleHistory(s: AppState): (r: AppState)
    ensures r.showHistory != s.showHistory
    ensures r.history == s.history && r.current == s.current && r.view == s.view
    ensures r.isAnalyzing == s.isAnalyzing
  {
    s.(showHistory := !s.showHistory)
  }

  /** "Back to Upload": the upload screen returns; the last result and the
      history stay as they were. */
  function Reset(s: AppState): (r: AppState)
    ensures ShowsUpload(r) && !ShowsDashboard(r)
    ensures r.current == s.current && r.history == s.history
    ensures r.isAnalyzing == s.isAnalyzing && r.showHistory == s.showHistory
  {
    s.(view := Upload)
  }

  // ---------------------------------------------------------------------------
  // Whole flows
  // ---------------------------------------------------------------------------

  /** A humanize pass on the dashboard, reported to the shell: the current
      result carries the rewrite, the history keeps its length and order, and
      exactly the entries with the result's id take the clamped score. */
  lemma HumanizeUpdatesHistory(s: AppState, d: DashboardState, picks: seq<TransitionIndex>)
    requires ShowsDashboard(s)
    requires |picks| >= |Sentences(s.current.value.originalText)|
    ensures var res := s.current.value;
            var step := HumanizeResult(res, d, picks);
            var r := HandleUpdateResult(s, step.update.value);
            && ShowsDashboard(r)
            && r.current.value.humanizedText == Some(Humanize(res.originalText, picks))
            && |r.history| == |s.history|
            && (forall k :: 0 <= k < |s.history| ==> r.history[k].id == s.history[k].id)
            && (forall k :: 0 <= k < |s.history| && s.history[k].id == res.id ==>
                  r.history[k].aiScore == Max(AiFloor, res.aiProbability - ScoreShift))
            && (forall k :: 0 <= k < |s.history| && s.history[k].id != res.id ==>
                  r.history[k].aiScore == s.history[k].aiScore)
  {
  }

  /** Analysing a text and humanizing the result once leaves the new entry
      in front with a score of at most 30, equal to the current result's. */
  lemma AnalyzeThenHumanize(s: AppState, text: string, fileName: string, id: string, now: int,
                            order: seq<int>, d: DashboardState, picks: seq<TransitionIndex>)
    requires IsShuffle(order)
    requires |picks| >= |Sentences(text)|
    ensures var a := AnalyzeText(s, text, fileName, id, now, order);
            var step := HumanizeResult(a.current.value, d, picks);
            var r := HandleUpdateResult(a, step.update.value);
            && r.history[0].id == id
            && r.history[0].aiScore == r.current.value.aiProbability
            && r.history[0].aiScore <= 30
            && r.current.value.aiProbability + r.current.value.humanProbability == 100
            && r.history[1..|r.history|] == UpdateScore(s.history, id, r.current.value.aiProbability)
  {
    var a := AnalyzeText(s, text, fileName, id, now, order);
    var first := a.current.value;
    var up := HumanizeResult(first, d, picks).update.value;
    assert up == WithHumanized(first, Humanize(text, picks));
    HumanizeKeepsSum(first, Humanize(text, picks));
    UpdateFrontEntry(a.history, s.history, up);
  }

  /** A score update for the id of the front entry gives that entry the new
      score and updates the rest of the history the same way. */
  lemma UpdateFrontEntry(h: seq<HistoryItem>, rest: seq<HistoryItem>, updated: AnalysisResult)
    requires |h| > 0 && h[1..] == rest && h[0].id == updated.id
    ensures var u := UpdateScore(h, updated.id, updated.aiProbability);
            && u[0].id == updated.id && u[0].aiScore == updated.aiProbability
            && u[1..] == UpdateScore(rest, updated.id, updated.aiProbability)
  {
  }

  /** Storage keeps up with the history: it holds the history right after
      mounting, and every handler of the shell, rendered, keeps it so. */
  lemma StorageFollowsHistory(m: Mounted, cell: Stored, text: string, settled: Option<AnalysisResult>,
                              id: string, updated: AnalysisResult)
    requires Persisted(m)
    ensures Persisted(Mount(cell))
    ensures Persisted(Render(m, StartAnalyze(m.state)))
    ensures Persisted(Render(m, HandleAnalyze(m.state, text, settled).state))
    ensures Persisted(Render(m, HandleDeleteHistory(m.state, id)))
    ensures Persisted(Render(m, HandleUpdateResult(m.state, updated)))
    ensures Persisted(Render(m, HandleSelectHistory(m.state, id).state))
    ensures Persisted(Render(m, ToggleHistory(m.state)))
    ensures Persisted(Render(m, Reset(m.state)))
    ensures LoadHistory(Render(m, HandleDeleteHistory(m.state, id)).cell) == DeleteHistory(m.state.history, id)
  {
  }
}
