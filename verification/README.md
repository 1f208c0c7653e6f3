# Complaint analyst: the session and its views

A model of the browser front end of the complaint-analysis assistant. A citizen's
complaint is typed, loaded from a sample, or transcribed from an uploaded image or
PDF. It is sent to an external analysis service. The four-part analysis (summary,
responsible department, rules analysis, proposed solutions) is shown as cards and
kept in a newest-first history that the user can click back through.

The model covers the three places where the front end makes decisions:

- **The session controller** (`App.tsx`), in module `Session`. It holds the history, the active
  analysis id, the draft text, the loading flag and the error. Each asynchronous
  handler is split into a *begin* step, taken when the handler starts, and a
  *complete* step, taken when the awaited call settles. The settled call is a
  parameter `Outcome`: `Success(value)` or `Failure(message)`. The message is
  `None` when the thrown value was not an `Error`.
- **The input controller** (`components/ComplaintInput.tsx`), in module `Input`. It covers the
  blank-draft guard, the file-type test, the extraction sub-state, the sample
  and clear buttons, and the `anyLoading` rule that disables the controls.
- **View selection** (`components/AnalysisDisplay.tsx`, `components/HistoryPanel.tsx`), in
  modules `Display` and `HistoryPanel`. These decide which of the four result
  views is drawn and build the cards, their copy texts and element ids. They also
  build the history rows and their highlighting.

Module `Types` holds the records of `types.ts` and the `history.find` lookup.
Module `Text` holds the string operations the components use: `trim`, the `\s`
class, `startsWith`, `join`, and the white-space-run replacement that builds
card ids. It also defines `Split`, which no component calls. `Split` is the
inverse of `join` and is used only to state that copy texts lose nothing.
Module `Page` puts the three components together. It is one state machine
driven by user events and by the settling of the two external calls. Disabled
controls ignore their events.

Some conventions of the model:

- Clock readings are parameters of the complete step: `Date.now()` as the id and
  `toLocaleString()` as the timestamp.
- The text an analysis sends is the draft captured when the handler began. The
  complete step takes it as a separate argument.
- Ids are unique only if every successful analysis gets a fresh clock reading.
  The invariant lemmas therefore take that freshness as a precondition.
- `trim()` and `\s` use the ECMAScript white-space and line-terminator set.

Behaviours of the code a reader might not expect:

- The clear button does not reset the input panel's extraction error. It only
  calls `onClear`.
- History rows are never disabled. A row can be clicked while an analysis is in
  flight, and the click takes effect.
- Clear is disabled while anything is loading, like every other input control.
- An `Error` with an empty message is stored as the error `""`. The result pane
  treats that as no error (`if (error)`) and falls through to the placeholder or
  to the active entry (`Page.EmptyMessageHidesFailure`).

## Model

| member | source | states |
|---|---|---|
| Types.ErrorText | App.tsx:39-44 | a rejection shows the `Error`'s own message, and the fixed fallback text for anything else |
| Types.Find | App.tsx:17 | the lookup finds an entry exactly when the id occurs in the history, and what it finds carries that id and belongs to the history |
| Types.FindFirst | App.tsx:52 | `find` returns the first entry with the id: an entry preceded by no other entry with its id is the one returned |
| Types.FindIsFirst | App.tsx:52 | what `find` returns is the entry at a position that no earlier entry with the same id precedes |
| Types.FindUnique | App.tsx:51-55 | with unique ids, looking up an entry's id returns exactly that entry |
| Text.Trim | App.tsx:21 | `trim()` gives the middle of the text between a white-space prefix and a white-space suffix, and the result neither starts nor ends with white space |
| Text.TrimEmptyIffBlank | App.tsx:21 | `!text.trim()` holds exactly when every character of the draft is white space, the empty draft included |
| Text.Join | components/AnalysisDisplay.tsx:171-203 | `join` starts with the first piece and is as long as all pieces plus one separator between each two |
| Text.SplitJoin | components/AnalysisDisplay.tsx:171 | joining a non-empty list of line-free items with line breaks loses nothing: splitting at line breaks gives the list back |
| Text.JoinEmpty | components/AnalysisDisplay.tsx:89 | a joined list is empty exactly when the list is empty or is one empty item |
| Text.Slug | components/AnalysisDisplay.tsx:79-103 | `replace(/\s+/g, '-')` leaves no white space, and leaves a title without white space unchanged |
| Text.SlugFromNoWhitespace | components/AnalysisDisplay.tsx:79 | an id built by replacing white-space runs with `-` contains no white space |
| Text.SlugFixedPoint | components/AnalysisDisplay.tsx:79 | the replacement leaves a title unchanged exactly when the title has no white space |
| Text.SlugIdempotent | components/AnalysisDisplay.tsx:103 | applying the replacement a second time changes nothing |
| Text.SlugAppend | components/AnalysisDisplay.tsx:79 | when the split point is not inside a white-space run, the replacement of a concatenation is the concatenation of the replacements |
| Text.SlugOfRun | components/AnalysisDisplay.tsx:79 | a whole non-empty white-space run becomes one `-` |
| Text.SlugOfWords | components/AnalysisDisplay.tsx:103 | words without white space that are joined by single spaces come out joined by single dashes |
| Session.ActiveAnalysis | App.tsx:17 | the active entry, when there is one, belongs to the history and carries the active id; there is none only when no id is active or the id is dangling |
| Session.DisplayedResult | App.tsx:97 | a result is handed to the pane exactly when there is an active entry, and it is that entry's analysis |
| Session.SetDraft | App.tsx:89 | typing replaces the draft with no validation and leaves history, active id, loading flag and error alone |
| Session.BeginAnalyze | App.tsx:20-26 | a blank draft changes nothing and sends nothing; otherwise the call sends the draft, loading is set, and error and active id are cleared while history and draft stay |
| Session.CompleteAnalyze | App.tsx:28-48 | success puts the entry (submitted text, returned result, clock readings) in front of the unchanged old history and makes it the displayed entry; failure keeps history and active id and stores the message or "An unexpected error occurred."; loading ends either way |
| Session.SelectHistory | App.tsx:51-58 | an unknown id changes nothing; a known id becomes active, the text of the first entry with that id becomes the draft, the error is cleared, and history and loading stay |
| Session.Clear | App.tsx:61-66 | clear empties the draft and removes error, active id and displayed result, and keeps history and loading |
| Session.SelectHistoryRestores | App.tsx:51-56 | with unique ids, selecting entry `i` restores exactly entry `i`'s text and displays exactly its result |
| Session.ActiveValidPreserved | App.tsx:17 | every transition keeps the active id either absent or the id of a history entry |
| Session.UniqueIdsPrepend | App.tsx:30-37 | putting an entry with a fresh id in front of a history with unique ids keeps ids unique |
| Session.ValidPreserved | App.tsx:20-66 | every transition keeps the full invariant (valid active id, unique ids, no error while loading), given a fresh id on success |
| Session.InitialValid | App.tsx:11-15 | the start state satisfies the invariant and displays nothing |
| Session.BlankAnalyzeChangesNothing | App.tsx:21 | analyzing a blank or white-space-only draft leaves every part of the state unchanged |
| Session.AnalyzeSucceeds | App.tsx:20-38 | a full successful round adds exactly the submitted text with the returned result in front of the history, displays that result, and ends with no loading and no error |
| Session.AnalyzeFails | App.tsx:39-48 | a full failed round leaves the history unchanged, no entry active, nothing displayed, loading over, and the message or fallback as error |
| Session.AnalyzeOnce | App.tsx:20-38 | one typed-and-analyzed text puts its entry, with its clock readings, in front of the history, makes it active and ends loading |
| Session.EntriesOrder | App.tsx:37 | the entries of `n` analyses are stored newest first: the `k`-th analysis is `k` places from the end |
| Session.AnalyzeAllGrows | App.tsx:37 | after a series of successful analyses the history is the new entries, newest first, in front of the unchanged old history |
| Session.AnalyzeAllActivatesLast | App.tsx:38 | after a series of successful analyses the last one is active and nothing is loading |
| Session.TwoAnalyses | App.tsx:37-38 | two successive analyses, each with its own text, clock readings and result, give the history `[second, first]` and display the second result |
| Input.ForwardsAnalyzeIffNotBlank | components/ComplaintInput.tsx:22-26 | the analyze click reaches `onAnalyze` exactly when the draft has a character that is not white space |
| Input.IsSupportedType | components/ComplaintInput.tsx:53 | an accepted media type is exactly `application/pdf` or `image/` followed by some subtype |
| Input.ImageTypesSupported | components/ComplaintInput.tsx:53 | every `image/` type is accepted, whatever its subtype |
| Input.SupportedTypeExamples | components/ComplaintInput.tsx:53 | the type test accepts image types and exactly `application/pdf`, and rejects other types, near misses and upper-case prefixes |
| Input.BeginExtraction | components/ComplaintInput.tsx:50-60 | the extractor is called exactly for a chosen file of a supported type; no file changes nothing; a rejected type sets the not-supported message and keeps draft and flag; an accepted file sets the flag, clears the error and empties the draft |
| Input.CompleteExtraction | components/ComplaintInput.tsx:62-69 | success replaces the draft with the transcription verbatim; failure stores the message or the fallback and keeps the draft; the flag is down either way |
| Input.ExampleClick | components/ComplaintInput.tsx:28-40 | a sample button clears the extraction error and loads that language's fixed sample text |
| Input.ExamplesAnalyzable | components/ComplaintInput.tsx:31 | both sample texts pass the blank-draft guard |
| Input.AnalyzeEnabledIff | components/ComplaintInput.tsx:120 | the analyze button is enabled exactly when the other controls are enabled and the draft is not blank, and an enabled click is always forwarded |
| Input.RejectedFileReported | components/ComplaintInput.tsx:53-56 | a rejected file is reported inline, keeps the draft, and never reaches the extractor |
| Input.ExtractionRound | components/ComplaintInput.tsx:50-73 | a full extraction of an accepted file leaves the transcription as draft on success, or an empty draft with an error on failure, and the flag down |
| Display.ResultCards | components/AnalysisDisplay.tsx:166-211 | a result is drawn as four cards titled summary, department, analysis, solutions, in that order; the list cards copy their items joined by line breaks and the paragraph cards copy their field verbatim |
| Display.CardsShowEverything | components/AnalysisDisplay.tsx:166-211 | reading the four cards back gives the result itself: every field is shown |
| Display.ListCopyRoundTrip | components/AnalysisDisplay.tsx:171 | a list copied one item per line comes back whole when split at line breaks, for a non-empty list of line-free items |
| Display.CopiedTextsGiveResultBack | components/AnalysisDisplay.tsx:171-203 | the cards' copy texts give the result back: department and analysis verbatim, and summary and solutions by splitting at line breaks when the list is non-empty and line-free |
| Display.CopyButtons | components/AnalysisDisplay.tsx:89 | a list card has a copy button unless its list is empty or one empty item; a paragraph card unless its field is empty |
| Display.SelectView | components/AnalysisDisplay.tsx:127-164 | loading shows the skeleton whatever else holds; otherwise a non-empty error shows the error box; otherwise a missing result shows the placeholder; otherwise the result's cards |
| Display.ViewConditions | components/AnalysisDisplay.tsx:114-211 | each view is drawn exactly under its own condition, and drawn cards always read back as the result passed in |
| Display.TitlesAreWords | components/AnalysisDisplay.tsx:170-202 | each card title is its words separated by single spaces |
| Display.TitleSlugs | components/AnalysisDisplay.tsx:79 | the four titles turn into `Complaint-Summary`, `Relevant-Department`, `Rules-&-Regulations-Analysis` and `Proposed-Solutions` |
| Display.CardContentIds | components/AnalysisDisplay.tsx:103 | the four cards' content ids are `card-content-` followed by those dashed titles, in drawing order |
| Display.CardContentIdsDistinct | components/AnalysisDisplay.tsx:103 | no two cards of a result share a content id |
| HistoryPanel.RowOf | components/HistoryPanel.tsx:32-46 | a row shows its entry's department, text and timestamp, reports its entry's id, and is highlighted exactly when that id is the active id |
| HistoryPanel.RowsOf | components/HistoryPanel.tsx:31-33 | there is one row per entry, in history order |
| HistoryPanel.Render | components/HistoryPanel.tsx:22-32 | the empty-state notice is drawn exactly for an empty history, and the rows otherwise |
| HistoryPanel.ExactlyOneHighlighted | components/HistoryPanel.tsx:36-40 | with unique ids and a valid active id exactly one row is highlighted, and with no active id none is |
| HistoryPanel.HighlightMatchesClick | components/HistoryPanel.tsx:35-37 | a row's click reports its own entry's id, and the row is highlighted exactly when that id is active |
| Page.Step | components/ComplaintInput.tsx:88-162 | while busy the input controls do nothing; otherwise typing sets the draft, an analyze click with a non-blank draft starts the analysis of exactly that draft, a supported file starts its extraction with the draft emptied, a sample button loads its text and clears the extraction error, and clear runs the session's clear; a blank draft never starts an analysis; history rows select whatever the loading state; a settling analysis completes its handler; a settled transcription becomes the draft; only analyze clicks and chosen files start calls; a chosen file, supported or not, applies the file step to the input panel and draft with the rest of the session unchanged, so a rejected file stores the not-supported message and leaves the draft alone; a settled transcription applies the completion step, so a failure stores its message (or the fallback) and lowers the extracting flag; a sample click changes only the draft and the extraction error; analyze clicks and settling analyses leave the input panel unchanged |
| Page.ClickAnalyze | components/ComplaintInput.tsx:22-26 | the analyze button (disabled while busy, line 120) does nothing while busy or when the draft is blank; otherwise it starts the analysis of exactly the draft and leaves the input panel alone |
| Page.ChooseFile | components/ComplaintInput.tsx:50-60 | a chosen file is ignored while busy; otherwise the first half of the file handler is applied to the input panel and the draft and nothing else, and the extraction call is started exactly when a supported file was chosen |
| Page.StepPreservesValid | App.tsx:17-66 | every event on the page keeps the session invariant, given a fresh id for a successful analysis |
| Page.RunPreservesValid | App.tsx:17-66 | every run of events from a valid page ends valid |
| Page.Reachable | App.tsx:10-17 | every page reachable from the start satisfies the invariant |
| Page.BusyDisablesInput | components/ComplaintInput.tsx:78-162 | while an analysis or extraction is in progress, typing, analyze, upload, samples and clear change nothing and start nothing |
| Page.AnalysisStartsAlone | components/ComplaintInput.tsx:118-120 | an analysis call starts only from an analyze click on a page that is not busy and has a non-blank draft, sends exactly the draft, and sets loading; a loading page never starts one; conversely an analyze click on a page that is not busy, with a non-blank draft, does start the analysis of that draft |
| Page.ExtractionStartsAlone | components/ComplaintInput.tsx:50-60 | an extraction call starts only from a chosen file on a page that is not busy, for a supported type, with the flag set and the draft emptied; conversely a supported file chosen on a page that is not busy does reach the extractor |
| Page.RowClickWhileBusy | components/HistoryPanel.tsx:34-35 | a history row works even while loading: the click restores that entry's text and result and leaves the loading flag alone |
| Page.AnalyzeShowsSkeleton | components/AnalysisDisplay.tsx:127-133 | starting an analysis puts the loading skeleton on the pane |
| Page.SuccessShowsResult | App.tsx:96-108 | when a pending analysis succeeds the pane shows exactly the returned result and exactly one row is highlighted, the new top row |
| Page.FailureShowsError | components/AnalysisDisplay.tsx:135-147 | when a pending analysis fails with a non-empty or missing message the pane shows the message or the fallback, and the history is unchanged |
| Page.EmptyMessageHidesFailure | components/AnalysisDisplay.tsx:135-164 | a failure whose message is empty stores `""`, which the pane treats as no error: with nothing active it shows the placeholder, and with an entry displayed it keeps showing that entry's cards |
| Page.ClearShowsPlaceholder | components/ComplaintInput.tsx:42-44 | an enabled clear leaves the placeholder on the pane, no row highlighted, the history kept, the draft empty, and the input panel's state (its extraction error included) untouched |
| Page.HighlightTracksActive | App.tsx:104-108 | on every valid page the panel highlights one row when an entry is active and none otherwise |
| Page.ParkStreetRoundTrip | App.tsx:20-38 | typing "Garbage not collected on Park Street", analyzing, and receiving a result makes an active entry holding exactly that text and result, shown as cards |

## Left out

- The analysis service (`services/geminiService.ts`) is not part of this model. Its two calls, analysis and text extraction, appear only as the `Outcome` of the complete steps. Their network access, credential, prompt and response parsing are outside the front end's decisions.
- Reading the chosen file (`FileReader`, base64) is part of the extraction call. A chosen file is represented only by its media type.
- The clock: `Date.now()` and `toLocaleString()` are parameters of the complete step. Their freshness is a precondition of the invariant lemmas, not a guarantee.
- The `analysisResult` state of `App.tsx` is not modelled. It is only ever set to `null` and is never read.
- Clipboard copying, the two-second "copied" indicator, the reveal-animation timer and the collapsible-card toggle are not modelled. They are browser APIs and timers with no effect on the state. Only whether a copy button is drawn and what it would copy are modelled.
- Resetting the file input after an extraction is left out, because it is a DOM side effect. So is the upload button, which only opens the picker; a choice from the picker is the `FileChosen` event. The `accept` attribute is also left out, because it is only a hint to the browser's picker; the model applies the component's own type test to whatever file is chosen.
- Icons, layout, CSS classes, spinner overlays and button labels are not modelled. They are presentation only.
- The page does not record which external calls are pending. A settling event can therefore be applied to any page, with any submitted text. The invariant lemmas cover every such sequence, which includes every sequence the browser can produce; they do not state that a settling event follows a matching call.
- The order in which async callbacks interleave is modelled only as the begin/complete split. Each complete event is applied to the page as it stands when the call settles. The event loop is single-threaded.
- Unicode case folding, normalisation and encodings are not modelled. Strings are sequences of characters.

