/**
 * The page as a whole: the session controller and the input controller side by
 * side, driven by user events and by the settling of the two external calls.
 * Disabled controls ignore their events; the history rows are never disabled.
 */
module Page {
  import opened Types
  import opened Text
  import opened Session
  import opened Input
  import Display
  import HistoryPanel

  datatype Page = Page(session: SessionState, input: InputState)

  const Start: Page := Page(Session.Initial, InitialInput)

  /** What happens to the page: a user action, or an awaited call settling. */
  datatype Event =
    | TextEdited(text: string)
    | AnalyzeClicked
    | FileChosen(file: Option<string>)
    | ExampleClicked(lang: Language)
    | ClearClicked
    | RowClicked(id: int)
    | AnalysisSettled(submitted: string, outcome: Outcome<AnalysisResult>, id: int, timestamp: string)
    | ExtractionSettled(extracted: Outcome<string>)

  /** The external call an event starts, if any. */
  datatype Call = NoCall | AnalyzeCall(text: string) | ExtractCall(mediaType: string)

  datatype Transition = Transition(next: Page, call: Call)

  /** `anyLoading`: an analysis or an extraction is in progress. */
  predicate Busy(p: Page)
  {
    AnyLoading(p.session.isLoading, p.input)
  }

  /** The events that come from controls of the input panel. */
  predicate IsInputControl(e: Event)
  {
    e.TextEdited? || e.AnalyzeClicked? || e.FileChosen? || e.ExampleClicked? || e.ClearClicked?
  }

  /** The page after the input panel handed a new draft to `onTextChange`. */
  function WithEdit(p: Page, edit: Edit): Page
  {
    Page(SetDraft(p.session, edit.draft), edit.input)
  }

  /**
   * One event. While busy the input controls are inert; otherwise each control
   * runs its handler, the history rows run theirs whatever the loading state, and
   * a settling call completes its handler's second half.
   */
  function Step(p: Page, e: Event): (t: Transition)
    ensures Busy(p) && IsInputControl(e) ==> t == Transition(p, NoCall)
    ensures !Busy(p) && e.TextEdited? ==>
      t.next.session == SetDraft(p.session, e.text) && t.next.input == p.input && t.call == NoCall
    ensures !Busy(p) && e.AnalyzeClicked? && !IsBlank(p.session.draft) ==>
      t.call == AnalyzeCall(p.session.draft) && t.next.session == BeginAnalyze(p.session).next
    ensures e.AnalyzeClicked? && IsBlank(p.session.draft) ==> t == Transition(p, NoCall)
    ensures !Busy(p) && e.FileChosen? && e.file.Some? && IsSupportedType(e.file.value) ==>
      t.call == ExtractCall(e.file.value) && t.next.input.isExtracting && t.next.session.draft == ""
    ensures !Busy(p) && e.ExampleClicked? ==>
      t.next.session.draft == ExampleText(e.lang) && t.next.input.extractionError.None?
    ensures !Busy(p) && e.ClearClicked? ==> t.next.session == Clear(p.session) && t.next.input == p.input
    ensures e.RowClicked? ==> t.next.session == SelectHistory(p.session, e.id) && t.next.input == p.input
    ensures e.AnalysisSettled? ==>
      t.next.session == CompleteAnalyze(p.session, e.submitted, e.outcome, e.id, e.timestamp)
    ensures e.ExtractionSettled? && e.extracted.Success? ==>
      t.next.session.draft == e.extracted.value && !t.next.input.isExtracting
    ensures !e.AnalyzeClicked? && !e.FileChosen? ==> t.call == NoCall
    ensures !Busy(p) && e.FileChosen? ==>
      var b := BeginExtraction(p.input, p.session.draft, e.file);
      t.next.input == b.edit.input && t.next.session == SetDraft(p.session, b.edit.draft)
    ensures e.ExtractionSettled? ==>
      var c := CompleteExtraction(p.input, p.session.draft, e.extracted);
      t.next.input == c.input && t.next.session == SetDraft(p.session, c.draft)
    ensures !Busy(p) && e.ExampleClicked? ==>
      t.next.session == SetDraft(p.session, ExampleText(e.lang)) && t.next.input == ExampleClick(p.input, e.lang).input
    ensures e.AnalyzeClicked? || e.AnalysisSettled? ==> t.next.input == p.input
  {
    match e
    case TextEdited(text) =>
      if !ControlsEnabled(p.session.isLoading, p.input) then Transition(p, NoCall)
      else Transition(p.(session := SetDraft(p.session, text)), NoCall)
    case AnalyzeClicked => ClickAnalyze(p)
    case FileChosen(file) => ChooseFile(p, file)
    case ExampleClicked(lang) =>
      if !ControlsEnabled(p.session.isLoading, p.input) then Transition(p, NoCall)
      else Transition(WithEdit(p, ExampleClick(p.input, lang)), NoCall)
    case ClearClicked =>
      if !ControlsEnabled(p.session.isLoading, p.input) then Transition(p, NoCall)
      else Transition(p.(session := Clear(p.session)), NoCall)
    case RowClicked(id) =>
      Transition(p.(session := SelectHistory(p.session, id)), NoCall)
    case AnalysisSettled(submitted, outcome, id, timestamp) =>
      Transition(p.(session := CompleteAnalyze(p.session, submitted, outcome, id, timestamp)), NoCall)
    case ExtractionSettled(outcome) =>
      Transition(WithEdit(p, CompleteExtraction(p.input, p.session.draft, outcome)), NoCall)
  }

  /** The analyze button: `handleAnalyzeClick` forwarding to `handleAnalyze`. */
  function ClickAnalyze(p: Page): (t: Transition)
    ensures Busy(p) || IsBlank(p.session.draft) ==> t == Transition(p, NoCall)
    ensures !Busy(p) && !IsBlank(p.session.draft) ==>
      t.call == AnalyzeCall(p.session.draft) && t.next.session == BeginAnalyze(p.session).next
    ensures t.next.input == p.input
  {
    TrimEmptyIffBlank(p.session.draft);
    if !AnalyzeEnabled(p.session.isLoading, p.input, p.session.draft) || !ForwardsAnalyze(p.session.draft) then
      Transition(p, NoCall)
    else
      var launch := BeginAnalyze(p.session);
      Transition(p.(session := launch.next),
                 if launch.request.Some? then AnalyzeCall(launch.request.value) else NoCall)
  }

  /** The file input: the first half of `handleFileChange`. */
  function ChooseFile(p: Page, file: Option<string>): (t: Transition)
    ensures Busy(p) ==> t == Transition(p, NoCall)
    ensures !Busy(p) ==>
      var b := BeginExtraction(p.input, p.session.draft, file);
      t.next.input == b.edit.input && t.next.session == SetDraft(p.session, b.edit.draft)
    ensures t.call == (if !Busy(p) && file.Some? && IsSupportedType(file.value) then ExtractCall(file.value) else NoCall)
  {
    if !ControlsEnabled(p.session.isLoading, p.input) then Transition(p, NoCall)
    else
      var begun := BeginExtraction(p.input, p.session.draft, file);
      Transition(WithEdit(p, begun.edit), if begun.extracts then ExtractCall(file.value) else NoCall)
  }

  /** The result pane as drawn for the page. */
  function View(p: Page): Display.View
  {
    Display.SelectView(DisplayedResult(p.session), p.session.isLoading, p.session.error)
  }

  /** The history panel as drawn for the page. */
  function Panel(p: Page): HistoryPanel.Panel
  {
    HistoryPanel.Render(p.session.history, p.session.activeId)
  }

  /** The clock reading a settling analysis uses is fresh. */
  predicate FreshId(p: Page, e: Event)
  {
    e.AnalysisSettled? && e.outcome.Success? ==> e.id !in Ids(p.session.history)
  }

  /** Every event keeps the session invariant, given fresh ids. */
  lemma StepPreservesValid(p: Page, e: Event)
    requires Valid(p.session)
    requires FreshId(p, e)
    ensures Valid(Step(p, e).next.session)
  {
    match e
    case TextEdited(text) => ValidPreserved(p.session, text, 0, "", Failure(None), "");
    case AnalyzeClicked => ValidPreserved(p.session, "", 0, "", Failure(None), "");
    case FileChosen(file) =>
      var begun := BeginExtraction(p.input, p.session.draft, file);
      ValidPreserved(p.session, begun.edit.draft, 0, "", Failure(None), "");
    case ExampleClicked(lang) =>
      ValidPreserved(p.session, ExampleClick(p.input, lang).draft, 0, "", Failure(None), "");
    case ClearClicked => ValidPreserved(p.session, "", 0, "", Failure(None), "");
    case RowClicked(id) => ValidPreserved(p.session, "", id, "", Failure(None), "");
    case AnalysisSettled(submitted, outcome, id, timestamp) =>
      ValidPreserved(p.session, "", id, submitted, outcome, timestamp);
    case ExtractionSettled(outcome) =>
      ValidPreserved(p.session, CompleteExtraction(p.input, p.session.draft, outcome).draft, 0, "", Failure(None), "");
  }

  /** A run of events from a valid page, each settling analysis given a fresh id, ends valid. */
  lemma {:induction false} RunPreservesValid(p: Page, events: seq<Event>)
    requires Valid(p.session)
    requires FreshIds(p, events)
    ensures Valid(Run(p, events).session)
    decreases |events|
  {
    if |events| > 0 {
      StepPreservesValid(p, events[0]);
      RunPreservesValid(Step(p, events[0]).next, events[1..]);
    }
  }

  /** The page after a run of events. */
  function Run(p: Page, events: seq<Event>): Page
    decreases |events|
  {
    if |events| == 0 then p else Run(Step(p, events[0]).next, events[1..])
  }

  /** Every settling analysis in the run gets an id new to the history at that point. */
  predicate FreshIds(p: Page, events: seq<Event>)
    decreases |events|
  {
    |events| == 0 || (FreshId(p, events[0]) && FreshIds(Step(p, events[0]).next, events[1..]))
  }

  /** Every run from the start page keeps the invariant. */
  lemma Reachable(events: seq<Event>)
    requires FreshIds(Start, events)
    ensures Valid(Run(Start, events).session)
  {
    RunPreservesValid(Start, events);
  }

  /** While an analysis or extraction is in progress every input control ignores its event. */
  lemma BusyDisablesInput(p: Page, e: Event)
    requires Busy(p) && IsInputControl(e)
    ensures Step(p, e) == Transition(p, NoCall)
  {
  }

  /**
   * An analysis call starts only from a page that is not busy and whose draft is
   * not blank, and it sends exactly the draft; so at most one analysis is ever
   * in flight.
   */
  lemma AnalysisStartsAlone(p: Page, e: Event)
    ensures Step(p, e).call.AnalyzeCall? ==>
      && e.AnalyzeClicked? && !Busy(p) && !IsBlank(p.session.draft)
      && Step(p, e).call.text == p.session.draft
      && Step(p, e).next.session.isLoading
    ensures p.session.isLoading ==> !Step(p, e).call.AnalyzeCall?
    ensures e.AnalyzeClicked? && !Busy(p) && !IsBlank(p.session.draft) ==>
      Step(p, e).call == AnalyzeCall(p.session.draft)
  {
    if e.AnalyzeClicked? {
      TrimEmptyIffBlank(p.session.draft);
    }
  }

  /** An extraction call starts only from a page that is not busy, for a supported file. */
  lemma ExtractionStartsAlone(p: Page, e: Event)
    ensures Step(p, e).call.ExtractCall? ==>
      && e.FileChosen? && !Busy(p) && IsSupportedType(Step(p, e).call.mediaType)
      && Step(p, e).next.input.isExtracting && Step(p, e).next.session.draft == ""
    ensures e.FileChosen? && e.file.Some? && !Busy(p) && IsSupportedType(e.file.value) ==>
      Step(p, e).call == ExtractCall(e.file.value)
  {
  }

  /** History rows stay live while loading: a click on a known id shows that entry. */
  lemma RowClickWhileBusy(p: Page, i: int)
    requires UniqueIds(p.session.history)
    requires 0 <= i < |p.session.history|
    ensures var next := Step(p, RowClicked(p.session.history[i].id)).next;
      && next.session.activeId == Some(p.session.history[i].id)
      && next.session.draft == p.session.history[i].complaintText
      && next.session.isLoading == p.session.isLoading
      && DisplayedResult(next.session) == Some(p.session.history[i].analysisResult)
  {
    SelectHistoryRestores(p.session, i);
  }

  /** Starting an analysis puts the loading skeleton on the result pane. */
  lemma AnalyzeShowsSkeleton(p: Page)
    requires Step(p, AnalyzeClicked).call.AnalyzeCall?
    ensures View(Step(p, AnalyzeClicked).next) == Display.Skeleton
  {
    AnalysisStartsAlone(p, AnalyzeClicked);
  }

  /**
   * When a pending analysis succeeds, the result pane shows exactly the returned
   * result, and the new row at the top of the history is the one highlighted.
   */
  lemma SuccessShowsResult(p: Page, submitted: string, result: AnalysisResult, id: int, timestamp: string)
    requires Valid(p.session) && p.session.isLoading
    requires id !in Ids(p.session.history)
    ensures var next := Step(p, AnalysisSettled(submitted, Success(result), id, timestamp)).next;
      && View(next) == Display.Cards(Display.ResultCards(result))
      && Panel(next).Rows?
      && Panel(next).rows[0].highlighted
      && HistoryPanel.HighlightCount(Panel(next).rows) == 1
  {
    var next := Step(p, AnalysisSettled(submitted, Success(result), id, timestamp)).next;
    ValidPreserved(p.session, "", id, submitted, Success(result), timestamp);
    HistoryPanel.ExactlyOneHighlighted(next.session.history, next.session.activeId);
  }

  /**
   * When a pending analysis fails, the pane shows the failure text: the
   * rejection's message, or the fallback when the rejection was not an `Error`;
   * the history is unchanged.
   */
  lemma FailureShowsError(p: Page, message: Option<string>)
    requires message != Some("")
    ensures var next := Step(p, AnalysisSettled(p.session.draft, Failure(message), 0, "")).next;
      && next.session.history == p.session.history
      && View(next) == Display.ErrorBox(ErrorText(message, UnexpectedError))
  {
  }

  /**
   * A rejection whose `Error` has an empty message stores the empty string, which
   * the pane treats as no error: it falls through to the placeholder or to
   * whatever entry is active.
   */
  lemma EmptyMessageHidesFailure(p: Page)
    ensures p.session.activeId.None? ==>
      View(Step(p, AnalysisSettled(p.session.draft, Failure(Some("")), 0, "")).next) == Display.Placeholder
    ensures DisplayedResult(p.session).Some? ==>
      View(Step(p, AnalysisSettled(p.session.draft, Failure(Some("")), 0, "")).next)
        == Display.Cards(Display.ResultCards(DisplayedResult(p.session).value))
  {
  }

  /**
   * Clear, when enabled, leaves the placeholder on the pane and nothing
   * highlighted; the input panel's own state, its extraction error included, is
   * left as it was.
   */
  lemma ClearShowsPlaceholder(p: Page)
    requires !Busy(p)
    ensures var next := Step(p, ClearClicked).next;
      && View(next) == Display.Placeholder
      && next.session.history == p.session.history
      && next.session.draft == ""
      && next.input == p.input
      && HistoryPanel.HighlightCount(HistoryPanel.RowsOf(next.session.history, next.session.activeId)) == 0
  {
    var next := Step(p, ClearClicked).next;
    HistoryPanel.CountNone(HistoryPanel.RowsOf(next.session.history, next.session.activeId));
  }

  /** On any valid page the history panel highlights one row exactly when an entry is active. */
  lemma HighlightTracksActive(p: Page)
    requires Valid(p.session)
    ensures p.session.history != [] ==> Panel(p).Rows?
    ensures HistoryPanel.HighlightCount(HistoryPanel.RowsOf(p.session.history, p.session.activeId))
         == (if p.session.activeId.Some? then 1 else 0)
  {
    HistoryPanel.ExactlyOneHighlighted(p.session.history, p.session.activeId);
  }

  /**
   * The worked example: analyzing "Garbage not collected on Park Street" and
   * receiving a result makes an active entry holding exactly that text and that
   * result, shown on the pane.
   */
  lemma ParkStreetRoundTrip(text: string, result: AnalysisResult, id: int, timestamp: string)
    requires text == "Garbage not collected on Park Street"
    requires result == AnalysisResult(["Garbage overflow"], "Public Works", "...", ["Increase pickup frequency"])
    ensures var p1 := Step(Start, TextEdited(text)).next;
      var t2 := Step(p1, AnalyzeClicked);
      && t2.call == AnalyzeCall(text)
      && var p3 := Step(t2.next, AnalysisSettled(t2.call.text, Success(result), id, timestamp)).next;
      && ActiveAnalysis(p3.session) == Some(HistoryItem(id, text, result, timestamp))
      && View(p3) == Display.Cards(Display.ResultCards(result))
  {
    assert text[0] == 'G';
    TrimEmptyIffBlank(text);
    var p1 := Step(Start, TextEdited(text)).next;
    var t2 := Step(p1, AnalyzeClicked);
    var p3 := Step(t2.next, AnalysisSettled(t2.call.text, Success(result), id, timestamp)).next;
    assert ActiveAnalysis(p3.session) == Some(p3.session.history[0]);
  }
}
