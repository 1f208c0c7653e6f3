/**
 * The session controller of the application component: the history of completed
 * analyses (newest first), the active analysis id, the draft complaint text, and
 * the loading and error flags. Each asynchronous handler is split into a step
 * taken when the handler starts and a step taken when the awaited call settles.
 */
module Session {
  import opened Types
  import opened Text

  /** The fallback shown when an analysis rejects with something that is not an `Error`. */
  const UnexpectedError: string := "An unexpected error occurred."

  datatype SessionState = SessionState(
    history: seq<HistoryItem>,
    activeId: Option<int>,
    draft: string,
    isLoading: bool,
    error: Option<string>)

  /** The state the application starts in. */
  const Initial: SessionState := SessionState([], None, "", false, None)

  /** The central invariant: an active id always names an entry of the history. */
  predicate ActiveValid(s: SessionState)
  {
    s.activeId.None? || s.activeId.value in Ids(s.history)
  }

  /**
   * Everything the controller keeps true: the active id is valid, ids are unique
   * (given fresh ids from the clock), and no error is on show while loading.
   */
  predicate Valid(s: SessionState)
  {
    && ActiveValid(s)
    && UniqueIds(s.history)
    && (s.isLoading ==> s.error.None?)
  }

  /** The entry whose analysis is displayed: the history entry with the active id. */
  function ActiveAnalysis(s: SessionState): (r: Option<HistoryItem>)
    ensures r.Some? ==> r.value in s.history && s.activeId == Some(r.value.id)
    ensures r.None? ==> s.activeId.None? || !ActiveValid(s)
  {
    match s.activeId
    case None => None
    case Some(id) => Find(s.history, id)
  }

  /** The analysis handed to the result pane (`activeAnalysis?.analysisResult ?? null`). */
  function DisplayedResult(s: SessionState): (r: Option<AnalysisResult>)
    ensures r.Some? <==> ActiveAnalysis(s).Some?
    ensures r.Some? ==> r.value == ActiveAnalysis(s).value.analysisResult
  {
    match ActiveAnalysis(s)
    case None => None
    case Some(item) => Some(item.analysisResult)
  }

  /** `onTextChange`: the draft is replaced, with no validation. */
  function SetDraft(s: SessionState, text: string): (r: SessionState)
    ensures r.draft == text
    ensures r.history == s.history && r.activeId == s.activeId
    ensures r.isLoading == s.isLoading && r.error == s.error
  {
    s.(draft := text)
  }

  /**
   * The result of starting the analyze handler: the next state, and the text the
   * pending call captured, or `None` when the guard returned early.
   */
  datatype Launch = Launch(next: SessionState, request: Option<string>)

  /** `handleAnalyze` up to its `await`: the blank-draft guard, then the begin step. */
  function BeginAnalyze(s: SessionState): (r: Launch)
    ensures IsBlank(s.draft) ==> r.next == s && r.request.None?
    ensures !IsBlank(s.draft) ==> r.request == Some(s.draft)
    ensures !IsBlank(s.draft) ==>
      && r.next.isLoading && r.next.error.None? && r.next.activeId.None?
      && r.next.history == s.history && r.next.draft == s.draft
  {
    TrimEmptyIffBlank(s.draft);
    if Trim(s.draft) == "" then Launch(s, None)
    else Launch(s.(isLoading := true, error := None, activeId := None), Some(s.draft))
  }

  /**
   * `handleAnalyze` after its `await` settles. `submitted` is the draft the call
   * captured when it began; `id` and `timestamp` stand for the clock readings
   * `Date.now()` and `new Date().toLocaleString()` taken at completion.
   */
  function CompleteAnalyze(
    s: SessionState, submitted: string, outcome: Outcome<AnalysisResult>, id: int, timestamp: string
  ): (r: SessionState)
    ensures !r.isLoading && r.draft == s.draft
    ensures outcome.Success? ==>
      && |r.history| == |s.history| + 1
      && r.history[1..] == s.history
      && r.history[0] == HistoryItem(id, submitted, outcome.value, timestamp)
      && r.activeId == Some(id)
      && r.error == s.error
    ensures outcome.Success? ==> ActiveAnalysis(r) == Some(r.history[0])
    ensures outcome.Failure? ==>
      && r.history == s.history
      && r.activeId == s.activeId
      && r.error == Some(ErrorText(outcome.message, UnexpectedError))
  {
    match outcome
    case Success(result) =>
      var item := HistoryItem(id, submitted, result, timestamp);
      var r := s.(history := [item] + s.history, activeId := Some(id), isLoading := false);
      assert r.history[0] == item;
      r
    case Failure(message) =>
      s.(error := Some(ErrorText(message, UnexpectedError)), isLoading := false)
  }

  /** `handleSelectHistory`: restore an entry's text and show its analysis; no-op for an unknown id. */
  function SelectHistory(s: SessionState, id: int): (r: SessionState)
    ensures id !in Ids(s.history) ==> r == s
    ensures id in Ids(s.history) ==>
      && r.activeId == Some(id)
      && r.error.None?
      && r.history == s.history
      && r.isLoading == s.isLoading
      && exists i :: 0 <= i < |s.history| && s.history[i].id == id && r.draft == s.history[i].complaintText
           && forall j :: 0 <= j < i ==> s.history[j].id != id
  {
    FindIsFirst(s.history, id);
    match Find(s.history, id)
    case None => s
    case Some(item) => s.(activeId := Some(id), draft := item.complaintText, error := None)
  }

  /** `handleClear`: drop the active analysis, the error and the draft; keep the history. */
  function Clear(s: SessionState): (r: SessionState)
    ensures r.activeId.None? && r.error.None? && r.draft == ""
    ensures r.history == s.history && r.isLoading == s.isLoading
    ensures DisplayedResult(r).None?
  {
    s.(error := None, activeId := None, draft := "")
  }

  /** With unique ids, selecting an entry restores exactly that entry's text and shows its analysis. */
  lemma SelectHistoryRestores(s: SessionState, i: int)
    requires UniqueIds(s.history)
    requires 0 <= i < |s.history|
    ensures SelectHistory(s, s.history[i].id).draft == s.history[i].complaintText
    ensures DisplayedResult(SelectHistory(s, s.history[i].id)) == Some(s.history[i].analysisResult)
  {
    FindUnique(s.history, i);
  }

  /** Every transition keeps the active id pointing into the history. */
  lemma ActiveValidPreserved(s: SessionState, text: string, id: int, submitted: string,
                             outcome: Outcome<AnalysisResult>, timestamp: string)
    requires ActiveValid(s)
    ensures ActiveValid(SetDraft(s, text))
    ensures ActiveValid(BeginAnalyze(s).next)
    ensures ActiveValid(CompleteAnalyze(s, submitted, outcome, id, timestamp))
    ensures ActiveValid(SelectHistory(s, id))
    ensures ActiveValid(Clear(s))
  {
    var r := CompleteAnalyze(s, submitted, outcome, id, timestamp);
    if outcome.Success? {
      assert r.history[0].id == id;
    } else {
      assert Ids(r.history) == Ids(s.history);
    }
  }

  /** A fresh id keeps ids unique when an analysis succeeds. */
  lemma {:induction false} UniqueIdsPrepend(item: HistoryItem, history: seq<HistoryItem>)
    requires UniqueIds(history)
    requires item.id !in Ids(history)
    ensures UniqueIds([item] + history)
  {
    var h := [item] + history;
    forall i, j | 0 <= i < j < |h|
      ensures h[i].id != h[j].id
    {
      if i == 0 {
        assert h[j] == history[j - 1];
        assert h[j] in history;
      } else {
        assert h[i] == history[i - 1] && h[j] == history[j - 1];
      }
    }
  }

  /**
   * The whole invariant survives every transition, provided the clock gives a
   * successful analysis an id not yet in the history.
   */
  lemma ValidPreserved(s: SessionState, text: string, id: int, submitted: string,
                       outcome: Outcome<AnalysisResult>, timestamp: string)
    requires Valid(s)
    requires outcome.Success? ==> id !in Ids(s.history)
    ensures Valid(SetDraft(s, text))
    ensures Valid(BeginAnalyze(s).next)
    ensures Valid(CompleteAnalyze(s, submitted, outcome, id, timestamp))
    ensures Valid(SelectHistory(s, id))
    ensures Valid(Clear(s))
  {
    ActiveValidPreserved(s, text, id, submitted, outcome, timestamp);
    if outcome.Success? {
      UniqueIdsPrepend(HistoryItem(id, submitted, outcome.value, timestamp), s.history);
    }
  }

  /** The start state satisfies the invariant and shows nothing. */
  lemma InitialValid()
    ensures Valid(Initial) && DisplayedResult(Initial).None?
  {
  }

  /** A blank or white-space-only draft leaves every part of the state as it was. */
  lemma BlankAnalyzeChangesNothing(s: SessionState)
    requires IsBlank(s.draft)
    ensures BeginAnalyze(s).next == s
  {
  }

  /**
   * A full successful round: the new entry holds exactly the text submitted and
   * the result returned, it is the displayed analysis, and loading is over.
   */
  lemma AnalyzeSucceeds(s: SessionState, result: AnalysisResult, id: int, timestamp: string)
    requires !IsBlank(s.draft)
    ensures var launch := BeginAnalyze(s);
      && launch.request == Some(s.draft)
      && var r := CompleteAnalyze(launch.next, launch.request.value, Success(result), id, timestamp);
      && r.history == [HistoryItem(id, s.draft, result, timestamp)] + s.history
      && DisplayedResult(r) == Some(result)
      && !r.isLoading && r.error.None?
  {
    var launch := BeginAnalyze(s);
    var r := CompleteAnalyze(launch.next, launch.request.value, Success(result), id, timestamp);
    assert r.history == [r.history[0]] + r.history[1..];
  }

  /**
   * A full failed round: the history is untouched, nothing is active, and the
   * error is the rejection's message or the fallback.
   */
  lemma AnalyzeFails(s: SessionState, message: Option<string>)
    requires !IsBlank(s.draft)
    ensures var launch := BeginAnalyze(s);
      var r := CompleteAnalyze(launch.next, s.draft, Failure(message), 0, "");
      && r.history == s.history
      && r.activeId.None?
      && DisplayedResult(r).None?
      && !r.isLoading
      && r.error == Some(if message.Some? then message.value else UnexpectedError)
  {
  }

  /**
   * Types `text` into the draft, clicks analyze, and lets the call succeed with
   * `result` under clock readings `id` and `timestamp`.
   */
  function AnalyzeOnce(s: SessionState, text: string, id: int, timestamp: string, result: AnalysisResult): (r: SessionState)
    ensures !IsBlank(text) ==>
      && r.history == [HistoryItem(id, text, result, timestamp)] + s.history
      && r.activeId == Some(id) && !r.isLoading && r.draft == text
  {
    var launch := BeginAnalyze(SetDraft(s, text));
    if launch.request.Some? then CompleteAnalyze(launch.next, launch.request.value, Success(result), id, timestamp)
    else launch.next
  }

  /** One analysis per text, with its own clock readings and result. */
  datatype Round = Round(text: string, id: int, timestamp: string, result: AnalysisResult)

  /** The history entry a successful round adds. */
  function EntryOf(round: Round): HistoryItem
  {
    HistoryItem(round.id, round.text, round.result, round.timestamp)
  }

  /** Performs successful analyses of the given rounds, in input order. */
  function AnalyzeAll(s: SessionState, rounds: seq<Round>): SessionState
    decreases |rounds|
  {
    if |rounds| == 0 then s
    else AnalyzeAll(AnalyzeOnce(s, rounds[0].text, rounds[0].id, rounds[0].timestamp, rounds[0].result), rounds[1..])
  }

  /** The entries that the given rounds add, newest (last analyzed) first. */
  function Entries(rounds: seq<Round>): (h: seq<HistoryItem>)
    decreases |rounds|
  {
    if |rounds| == 0 then [] else Entries(rounds[1..]) + [EntryOf(rounds[0])]
  }

  /** The `k`-th analysis is the entry `k` places from the end: newest first. */
  lemma {:induction false} EntriesOrder(rounds: seq<Round>)
    decreases |rounds|
    ensures |Entries(rounds)| == |rounds|
    ensures forall k :: 0 <= k < |rounds| ==> Entries(rounds)[|rounds| - 1 - k] == EntryOf(rounds[k])
  {
    if |rounds| > 0 {
      EntriesOrder(rounds[1..]);
    }
  }

  /** Every round has a text that is not blank. */
  predicate AllSubmitted(rounds: seq<Round>)
  {
    forall r :: r in rounds ==> !IsBlank(r.text)
  }

  /**
   * After successful analyses of non-blank texts the history is the new entries,
   * newest first, in front of the old history.
   */
  lemma {:induction false} AnalyzeAllGrows(s: SessionState, rounds: seq<Round>)
    requires AllSubmitted(rounds)
    decreases |rounds|
    ensures AnalyzeAll(s, rounds).history == Entries(rounds) + s.history
  {
    if |rounds| > 0 {
      var next := AnalyzeStep(s, rounds);
      AnalyzeAllGrows(next, rounds[1..]);
      AppendAssoc(Entries(rounds[1..]), [EntryOf(rounds[0])], s.history);
    }
  }

  /** One step of `AnalyzeAll`: the first round's entry goes in front of the history. */
  lemma AnalyzeStep(s: SessionState, rounds: seq<Round>) returns (next: SessionState)
    requires |rounds| > 0 && !IsBlank(rounds[0].text)
    ensures next.history == [EntryOf(rounds[0])] + s.history
    ensures AnalyzeAll(s, rounds) == AnalyzeAll(next, rounds[1..])
  {
    next := AnalyzeOnce(s, rounds[0].text, rounds[0].id, rounds[0].timestamp, rounds[0].result);
  }

  /** After successful analyses of non-blank texts, the last one is active and nothing is loading. */
  lemma {:induction false} AnalyzeAllActivatesLast(s: SessionState, rounds: seq<Round>)
    requires |rounds| > 0 && AllSubmitted(rounds)
    decreases |rounds|
    ensures AnalyzeAll(s, rounds).activeId == Some(rounds[|rounds| - 1].id)
    ensures !AnalyzeAll(s, rounds).isLoading
  {
    var r0 := rounds[0];
    var next := AnalyzeOnce(s, r0.text, r0.id, r0.timestamp, r0.result);
    if |rounds| > 1 {
      AnalyzeAllActivatesLast(next, rounds[1..]);
    } else {
      assert AnalyzeAll(s, rounds) == AnalyzeAll(next, []);
    }
  }

  /**
   * Two successive analyses of different texts: the second entry is put in front
   * of the first and is the one displayed.
   */
  lemma TwoAnalyses(first: Round, second: Round)
    requires !IsBlank(first.text) && !IsBlank(second.text)
    ensures var r := AnalyzeAll(Initial, [first, second]);
      && r.history == [EntryOf(second), EntryOf(first)]
      && DisplayedResult(r) == Some(second.result)
  {
    var rounds := [first, second];
    assert AllSubmitted(rounds);
    AnalyzeAllGrows(Initial, rounds);
    EntriesOrder(rounds);
    AnalyzeAllActivatesLast(Initial, rounds);
    var r := AnalyzeAll(Initial, rounds);
    assert |r.history| == 2;
    assert r.history[0] == EntryOf(second);
    assert r.history[1] == EntryOf(first);
    assert r.activeId == Some(second.id);
    assert Find(r.history, second.id) == Some(EntryOf(second));
  }
}
