/** The dashboard of one result: the humanize action and its score update,
    the choice of text to download, and when its buttons are disabled. */
module AnalysisDashboard {
  import opened Wrappers
  import opened Strings
  import opened Types
  import opened MockAiService

  /** The two text tabs. */
  datatype Tab = Original | Humanized

  /** The dashboard's own state; the result itself belongs to the application. */
  datatype DashboardState = DashboardState(isHumanizing: bool, activeTab: Tab)

  const InitialDashboard: DashboardState := DashboardState(false, Original)

  /** The mock improvement a humanize pass applies to both scores. */
  const ScoreShift: int := 60
  const AiFloor: int := 5
  const HumanCeiling: int := 95

  function Max(a: int, b: int): int { if a >= b then a else b }
  function Min(a: int, b: int): int { if a <= b then a else b }

  /** The result passed to `onUpdateResult` after a humanize pass produced
      `rewritten`: only the humanized text and the two scores change. */
  function WithHumanized(result: AnalysisResult, rewritten: string): (r: AnalysisResult)
    ensures r.humanizedText == Some(rewritten)
    ensures r.id == result.id && r.fileName == result.fileName && r.originalText == result.originalText
    ensures r.timestamp == result.timestamp && r.suggestions == result.suggestions
    ensures r.aiProbability >= AiFloor && r.humanProbability <= HumanCeiling
    ensures result.aiProbability >= AiFloor ==> r.aiProbability <= result.aiProbability
    ensures result.humanProbability <= HumanCeiling ==> r.humanProbability >= result.humanProbability
    ensures r.aiProbability == AiFloor <==> result.aiProbability <= AiFloor + ScoreShift
    ensures r.humanProbability == HumanCeiling <==> result.humanProbability >= HumanCeiling - ScoreShift
    ensures result.aiProbability > AiFloor + ScoreShift ==> r.aiProbability == result.aiProbability - ScoreShift
    ensures result.humanProbability < HumanCeiling - ScoreShift ==>
              r.humanProbability == result.humanProbability + ScoreShift
  {
    result.(humanizedText := Some(rewritten),
            aiProbability := Max(AiFloor, result.aiProbability - ScoreShift),
            humanProbability := Min(HumanCeiling, result.humanProbability + ScoreShift))
  }

  /** When the scores summed to 100 before a humanize pass they still do
      after it: either neither score is clamped (AI above 65) or both are,
      landing on exactly 5 and 95. */
  lemma HumanizeKeepsSum(result: AnalysisResult, rewritten: string)
    requires result.aiProbability + result.humanProbability == 100
    ensures var r := WithHumanized(result, rewritten);
            && r.aiProbability + r.humanProbability == 100
            && ((r.aiProbability == AiFloor && r.humanProbability == HumanCeiling)
                  <==> result.aiProbability <= AiFloor + ScoreShift)
            && (result.aiProbability > AiFloor + ScoreShift ==>
                  r.aiProbability == result.aiProbability - ScoreShift
                  && r.humanProbability == result.humanProbability + ScoreShift)
  {
  }

  /** What a humanize click leaves behind: the dashboard state and the
      result handed to `onUpdateResult`, if any. */
  datatype HumanizeStep = HumanizeStep(state: DashboardState, update: Option<AnalysisResult>)

  /** The click on the humanize button, before the humanizer settles: only
      the busy flag is raised, which disables the button. */
  function StartHumanize(result: AnalysisResult, d: DashboardState): (r: DashboardState)
    ensures r.isHumanizing && r.activeTab == d.activeTab
    ensures HumanizeButtonDisabled(result, r)
  {
    d.(isHumanizing := true)
  }

  /** `handleHumanize` once `humanizeContent(result.originalText)` has settled:
      `settled` is its value, or `None` when it rejected. */
  function HandleHumanize(result: AnalysisResult, d: DashboardState, settled: Option<string>): (r: HumanizeStep)
    ensures !r.state.isHumanizing
    ensures settled.None? ==> r.update.None? && r.state.activeTab == d.activeTab
    ensures settled.Some? ==> r.update == Some(WithHumanized(result, settled.value))
    ensures settled.Some? ==> r.state.activeTab == Humanized
  {
    match settled
    case None => HumanizeStep(d.(isHumanizing := false), None)
    case Some(text) =>
      HumanizeStep(DashboardState(false, Humanized), Some(WithHumanized(result, text)))
  }

  /** `handleHumanize` with the mock humanizer: it always rewrites the
      original text, never an earlier humanized version. */
  function HumanizeResult(result: AnalysisResult, d: DashboardState, picks: seq<TransitionIndex>): (r: HumanizeStep)
    requires |picks| >= |Sentences(result.originalText)|
    ensures r.update.Some? && r.state == DashboardState(false, Humanized)
    ensures r.update.value.humanizedText == Some(Humanize(result.originalText, picks))
    ensures Present(r.update.value.humanizedText)
  {
    HandleHumanize(result, d, Some(Humanize(result.originalText, picks)))
  }

  /** Re-humanizing starts from the original text again, so suffixes and
      transitions never pile up across passes. */
  lemma RehumanizeDoesNotStack(result: AnalysisResult, d: DashboardState,
                               first: seq<TransitionIndex>, second: seq<TransitionIndex>)
    requires |first| >= |Sentences(result.originalText)| && |second| >= |Sentences(result.originalText)|
    ensures var once := HumanizeResult(result, d, first);
            var twice := HumanizeResult(once.update.value, once.state, second);
            twice.update.value.humanizedText == HumanizeResult(result, d, second).update.value.humanizedText
  {
  }

  /** From a fresh analysis, one humanize pass brings the AI score to at most
      30, and a second lands on exactly (5, 95), which further passes keep. */
  lemma {:induction false} HumanizeFromFreshAnalysis(result: AnalysisResult, t1: string, t2: string, t3: string)
    requires 20 <= result.aiProbability <= 90
    requires result.aiProbability + result.humanProbability == 100
    ensures var once := WithHumanized(result, t1);
            var twice := WithHumanized(once, t2);
            && once.aiProbability <= 30
            && twice.aiProbability == AiFloor && twice.humanProbability == HumanCeiling
            && WithHumanized(twice, t3).aiProbability == AiFloor
            && WithHumanized(twice, t3).humanProbability == HumanCeiling
  {
    HumanizeKeepsSum(result, t1);
    var once := WithHumanized(result, t1);
    HumanizeKeepsSum(once, t2);
  }

  /** The text `handleDownload` saves: the humanized text when that tab is
      active and the text is non-empty, otherwise the original. */
  function DownloadText(result: AnalysisResult, d: DashboardState): (r: string)
    ensures r == result.originalText || Some(r) == result.humanizedText
    ensures d.activeTab == Original ==> r == result.originalText
    ensures !Present(result.humanizedText) ==> r == result.originalText
    ensures d.activeTab == Humanized && Present(result.humanizedText) ==> Some(r) == result.humanizedText
  {
    if d.activeTab == Humanized && Present(result.humanizedText) then result.humanizedText.value
    else result.originalText
  }

  /** The "Humanized" tab cannot be chosen while there is no humanized text. */
  predicate HumanizedTabDisabled(result: AnalysisResult) {
    !Present(result.humanizedText)
  }

  /** The humanize button is off while a pass runs, and while the humanized
      text is already on screen. */
  predicate HumanizeButtonDisabled(result: AnalysisResult, d: DashboardState) {
    d.isHumanizing || (Present(result.humanizedText) && d.activeTab == Humanized)
  }

  /** Clicking a tab button; a disabled button ignores the click. */
  function SelectTab(result: AnalysisResult, d: DashboardState, tab: Tab): (r: DashboardState)
    ensures r.isHumanizing == d.isHumanizing
    ensures r.activeTab == tab || r == d
    ensures r.activeTab == Humanized ==> d.activeTab == Humanized || !HumanizedTabDisabled(result)
    ensures tab == Original || !HumanizedTabDisabled(result) ==> r.activeTab == tab
    ensures tab == Humanized && HumanizedTabDisabled(result) ==> r == d
  {
    if tab == Humanized && HumanizedTabDisabled(result) then d else d.(activeTab := tab)
  }

  /** A fresh result opens on the original tab: the humanized tab is
      disabled, the humanize button is enabled and the download is the
      original text. */
  lemma FreshDashboard(result: AnalysisResult)
    requires result.humanizedText.None?
    ensures HumanizedTabDisabled(result)
    ensures !HumanizeButtonDisabled(result, InitialDashboard)
    ensures SelectTab(result, InitialDashboard, Humanized) == InitialDashboard
    ensures DownloadText(result, InitialDashboard) == result.originalText
  {
  }

  /** After a successful pass the humanized tab is open and enabled, the
      download is the humanized text, and the humanize button is disabled
      until the user goes back to the original tab. */
  lemma AfterHumanize(result: AnalysisResult, d: DashboardState, picks: seq<TransitionIndex>)
    requires |picks| >= |Sentences(result.originalText)|
    ensures var step := HumanizeResult(result, d, picks);
            var r := step.update.value;
            && !HumanizedTabDisabled(r)
            && DownloadText(r, step.state) == Humanize(result.originalText, picks)
            && HumanizeButtonDisabled(r, step.state)
            && !HumanizeButtonDisabled(r, SelectTab(r, step.state, Original))
  {
  }
}
