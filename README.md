# Interview assistant core, in Dafny

The application is a single-page interview assistant. The interviewer
keeps two outlines in Markdown:

- a checklist of topics, with `## ` headings and `* ` bullets;
- a question guide, with `### ` headings and numbered or bulleted
  questions that may continue over several lines.

Both are parsed into groups of items that can be edited in place, saved
back to Markdown and reloaded. While an interview runs, a live
transcription session appends text to the transcript. The transcript can be
sent to a language model, and the model's answer marks checklist items as
covered. The transcript and the first-cycle codes can be exported as a text
file and a CSV file.

This project models the deterministic part of that application in
Dafny:

- `Types`: the records of the application: checklist and question items and
  groups, the eight-valued interview status, first-cycle codes and the
  interview record.
- `Strings`: the string operations the code relies on, as functions on
  `seq<char>`: `trim`, `split('\n')`, `join`, `startsWith`, `includes`,
  `toLowerCase` on characters, and global `replace` of a substring or of a
  character class.
- `Outline`: what both parsers share. The outline parsers are a left fold
  over classified lines, with a "current group" that is always the last
  group pushed. The module also holds the `## `/`### ` outline serialiser and
  the facts that connect the two.
- `ChecklistOutline` and `QuestionOutline`:
  - the two parsers, each as a specification function and as the imperative
    loop of the source (a method proved equal to that function);
  - the two serialisers;
  - the save-then-parse round trips;
  - worked examples.
- `Editing`: the checklist and question editing handlers and the two
  toggles.
- `Validation`:
  - which items are offered to the language model and how the request text
    is built;
  - how its answer is applied;
  - the covered count shown for each group.
- `Export`: the export filename, the transcript file and the CSV of codes.
- `Session`: the interview lifecycle as a class `InterviewSession`. React
  state and refs become fields, and each handler or effect becomes a method:
  - start guard, countdown, connection callbacks and pause/resume;
  - stop with handle release, and new interview;
  - the transcript, which is always the concatenation of the fragments
    received since the last reset.

`Date.now()` and `toLocaleString` readings are parameters (`now`). The
browser's media and network objects are opaque references passed in by the
caller.

Some of the code's behaviour is easy to miss:

- A question marker followed by bracketed text keeps the brackets: `1.
  **[X]** "First part` continued by `of question?"` gives `[X] First part of
  question?` (`QuestionOutline.ContinuedQuestionExample`).
- The `onclose` callback reads the status captured when `beginRecording` was
  created. That happens during the countdown, so an unexpected close while
  recording leaves the status at `recording`
  (`Session.CloseAfterCountdownKeepsRecording`).
- Pausing ends the interview. The status change re-runs the effect at
  App.tsx:677, whose cleanup sees the status `recording` being left and
  calls `stopInterview()`. Every handle is released and the status ends at
  `stopped` (`Session.InterviewSession.PauseResumeWithEffect`). For the same
  reason, an `onerror` while recording ends in `stopped`, not `error`
  (`Session.InterviewSession.OnErrorWithEffect`).
- The user-visible strings are the Portuguese ones of the code (`Itens
  Gerais`, `Perguntas Iniciais`, `Novo Grupo`, `notas p`, `percepção geral`,
  the error messages).

## Model

| member | source | states |
|---|---|---|
| `Types.StatusesAreEightNamedValues` | types.ts:30 | the status is a closed set of exactly eight values whose string names are pairwise distinct and read back to the same value |
| `Types.StatusFromName` | types.ts:30 | a recognised name is the name of the status returned |
| `Types.CodeTypeFromName` | types.ts:41 | a recognised code type name is the name of the type returned |
| `Types.CodeTypeNamesRoundTrip` | types.ts:41 | each of `Descritivo`, `Processo`, `In Vivo` reads back to its own type; other spellings are rejected |
| `Strings.Trim` | App.tsx:135 | the result starts and ends with a non-whitespace character (or is empty) and is no longer than the input |
| `Strings.TrimIsInfix` | App.tsx:135 | the result is the infix of the input left after cutting whitespace, and only whitespace, from both ends |
| `Strings.TrimOfTrimmed` | App.tsx:135 | trimming an already trimmed string changes nothing |
| `Strings.Split` | App.tsx:130 | splitting at `\n` yields at least one piece, none of which holds a newline |
| `Strings.SplitJoin` | App.tsx:130 | splitting a join of newline-free lines gives back those lines |
| `Strings.Lower` | App.tsx:145 | lower-casing keeps the length and maps each character on its own |
| `Strings.DeleteAll` | App.tsx:148 | deleting a pattern never lengthens the text, adds no character, and leaves a text without the pattern unchanged |
| `Strings.DeleteAllDoubleStar` | App.tsx:148 | deleting every `**` leaves none behind, even where a deletion brings two single stars together |
| `Strings.DeleteCharsRemoves` | App.tsx:192 | what is left holds only characters of the input outside the deleted class |
| `Strings.DeleteCharsNothing` | App.tsx:192 | a text with nothing to delete is left as it is |
| `Strings.DeleteCharsAppend` | App.tsx:192 | deleting from a concatenation deletes from each part and keeps them in order |
| `ChecklistOutline.DropTrailingColon` | App.tsx:149 | the result is the input or the input with one trailing `:` removed |
| `ChecklistOutline.ParsedChecklist` | App.tsx:129-173 | every group the checklist parser returns has at least one item |
| `ChecklistOutline.ParseChecklist` | App.tsx:129-173 | the line-by-line loop with a mutable current group returns exactly the fold that specifies the parser |
| `ChecklistOutline.ReadChecklistLine` | App.tsx:134-170 | one pass of the loop body performs the fold's step for the line's kind: a heading opens a new current group, an accepted bullet adds an item, any other line changes nothing |
| `ChecklistOutline.PushChecklistItem` | App.tsx:152-168 | the item goes to the end of the current group, after `Itens Gerais` is opened when there is no group yet, as the fold's item step says |
| `ChecklistOutline.ParseInStages` | App.tsx:129-173 | the parse is split, classify, fold, then the filter that drops empty groups |
| `ChecklistOutline.IgnoredLineIsInvisible` | App.tsx:145-170 | a line that is neither a heading nor an accepted bullet can be removed without changing the result, ids included |
| `ChecklistOutline.ParsedChecklistIsClean` | App.tsx:145-170 | every parsed item is non-empty, trimmed, single-line, free of `**`, not an excluded label, and unchecked with empty keywords and notes; every title is trimmed and single-line |
| `ChecklistOutline.MarkupIsStripped` | App.tsx:146-150 | `* **x:**` yields the item `x`: the bold markers and the trailing colon are removed |
| `ChecklistOutline.TwoGroupsExample` | App.tsx:129-173 | `## A`, `* **x:**`, `* y`, `## C`, `* z` yields A[x, y], C[z]; when the parse runs within one millisecond, item ids repeat across groups |
| `ChecklistOutline.DefaultGroupExample` | App.tsx:152-160 | a bullet before any heading goes into a synthesised `Itens Gerais` group |
| `ChecklistOutline.SaveThenParse` | App.tsx:278 | saving groups with savable titles and texts and parsing the markdown back gives the same titles and texts in the same order, minus the groups without items |
| `QuestionOutline.LeadingDigits` | App.tsx:191 | the result is the length of the maximal run of digits at the start |
| `QuestionOutline.MarkerLength` | App.tsx:191 | a recognised list marker ends with a whitespace character inside the line |
| `QuestionOutline.ParsedQuestions` | App.tsx:175-217 | every group the question parser returns has at least one question |
| `QuestionOutline.ParseQuestions` | App.tsx:175-217 | the loop that appends continuation lines to the last stored question returns exactly the fold that specifies the parser |
| `QuestionOutline.ReadQuestionLine` | App.tsx:180-214 | one pass of the loop body performs the fold's step for the line's kind: heading, marked question, continuation or ignored line |
| `QuestionOutline.PushQuestion` | App.tsx:194-208 | the question goes to the end of the current group, after `Perguntas Iniciais` is opened when there is no group yet |
| `QuestionOutline.ExtendLastQuestion` | App.tsx:209-213 | the continuation is appended, after a space, to the last question of the current group, and dropped when that group has none |
| `QuestionOutline.IgnoredQuestionLineIsInvisible` | App.tsx:180-214 | blank lines, other headings, rules and `**Objetivo` lines can be removed without changing the result |
| `QuestionOutline.OrphanContinuationIsDropped` | App.tsx:210-213 | a continuation line with no question before it contributes nothing |
| `QuestionOutline.ParsedQuestionsAreClean` | App.tsx:175-217 | every parsed question is non-empty, single-line, free of `"` and not asked; every title is trimmed and single-line |
| `QuestionOutline.ContinuedQuestionExample` | App.tsx:191-213 | a marked line `1. **[x]** "y` continued by `z"` becomes one question `[x] y z`: markers, `*` and `"` are removed and the brackets kept |
| `QuestionOutline.SaveThenParseQuestions` | App.tsx:281 | saving question groups with savable titles and texts and parsing back gives the same titles and texts in the same order, minus the groups without questions |
| `Editing.Without` | App.tsx:259 | the filter keeps exactly the elements the test does not drop |
| `Editing.WithoutAppend` | App.tsx:259 | filtering keeps the surviving elements in their order |
| `Editing.WithoutIdempotent` | App.tsx:259 | filtering twice is filtering once |
| `Editing.AddGroup` | App.tsx:257 | one empty `Novo Grupo` group with the given id is appended, and the others are unchanged |
| `Editing.UpdateGroupTitle` | App.tsx:258 | only the groups with the id get the new title; order, ids and items are kept (`handleUpdateQuestionGroupTitle` at App.tsx:267 is the same function on the question blocks) |
| `Editing.DeleteGroup` | App.tsx:259 | exactly the groups with the id are removed and every other group is kept as often as it occurs (`handleDeleteQuestionGroup` at App.tsx:268 is the same function on the question blocks) |
| `Editing.DeleteAbsentGroup` | App.tsx:259 | deleting an id no group carries changes nothing |
| `Editing.DeleteGroupAppend` | App.tsx:259 | deleting keeps the remaining groups in order |
| `Editing.DeleteAddedGroup` | App.tsx:257-259 | deleting the group just added undoes the addition |
| `Editing.AddItemToGroup` | App.tsx:260 | the target groups get one `Novo item`, unchecked, with empty keywords, at the end; other groups are unchanged |
| `Editing.UpdateItemText` | App.tsx:261 | only the items with the item id inside the groups with the group id get the new text; every other field and item is kept |
| `Editing.UpdateItemKeywords` | App.tsx:262 | only the target items get the new keywords; every other field and item is kept |
| `Editing.DropItem` | App.tsx:263 | the filter on a group's items removes exactly the items with the id and keeps every other item as often as it occurs |
| `Editing.DropItemAppend` | App.tsx:263 | the filter keeps the remaining items in their order |
| `Editing.DeleteItem` | App.tsx:263 | the target groups' items become exactly what `DropItem` leaves; ids, titles and other groups are unchanged |
| `Editing.DeleteAddedItem` | App.tsx:260-263 | deleting the item just added undoes the addition |
| `Editing.ToggleHumanCheck` | App.tsx:321-323 | only the target items have `checkedByHuman` flipped; everything else is kept |
| `Editing.ToggleHumanCheckTwice` | App.tsx:321-323 | toggling twice restores the checklist |
| `Editing.AddQuestionGroup` | App.tsx:266 | one empty `Novo Bloco` group is appended, and the others are unchanged |
| `Editing.DeleteAddedQuestionGroup` | App.tsx:266-268 | deleting the block just added undoes the addition |
| `Editing.AddQuestionToGroup` | App.tsx:269 | the target blocks get one `Nova pergunta`, not asked, at the end |
| `Editing.UpdateQuestionText` | App.tsx:270 | only the target questions get the new text |
| `Editing.DropQuestion` | App.tsx:271 | the filter on a block's questions removes exactly those with the id and keeps every other question as often as it occurs |
| `Editing.DropQuestionAppend` | App.tsx:271 | the filter keeps the remaining questions in their order |
| `Editing.DeleteQuestion` | App.tsx:271 | the target blocks' questions become exactly what `DropQuestion` leaves; ids, titles and other blocks are unchanged |
| `Editing.DeleteAddedQuestion` | App.tsx:269-271 | deleting the question just added undoes the addition |
| `Editing.ToggleQuestionAsked` | App.tsx:325-328 | only the target questions have `asked` flipped |
| `Editing.ToggleQuestionAskedTwice` | App.tsx:325-328 | toggling twice restores the questions |
| `Validation.PendingItems` | App.tsx:467 | exactly the items not yet checked by the model are offered |
| `Validation.PromptLine` | App.tsx:469-471 | each offered item produces a non-empty prompt line |
| `Validation.PromptLines` | App.tsx:466-473 | one prompt line per offered item, in order |
| `Validation.GroupEntryIffPending` | App.tsx:476-479 | a group gets an entry exactly when it has an item not checked by the model |
| `Validation.EntriesOmitFinishedGroups` | App.tsx:480-481 | there are as many entries as groups with a pending item |
| `Validation.EntriesEmptyIffAllChecked` | App.tsx:462-485 | the list of group entries is empty exactly when every item is checked by the model, and its first entry is never empty |
| `Validation.ChecklistStringEmptyIffAllChecked` | App.tsx:462-485 | the checklist text is empty exactly when every item of every group is checked by the model |
| `Validation.ValidationRequest` | App.tsx:456-485 | a press clears the error exactly when the transcript is not blank and no validation is running; a request carries the checklist text and only follows a cleared error; a validation is running afterwards exactly when one was already running or a request was made |
| `Validation.ClearsErrorWithoutRequest` | App.tsx:459-485 | with every item already checked, a press on a non-blank transcript clears the error, sends nothing and leaves no validation running |
| `Validation.ValidationRequestedIff` | App.tsx:456-485 | a request goes out exactly when the transcript is not blank, no validation is running and some item is pending |
| `Validation.ApplyCoveredIds` | App.tsx:548-557 | exactly the items, in any group, whose id is listed get `checkedByAI`; no flag is cleared and no other field changes |
| `Validation.ApplyCoveredIdsIdempotent` | App.tsx:548-557 | applying the same answer twice is applying it once |
| `Validation.ListedItemsNoLongerPending` | App.tsx:467 | after the answer is applied, no listed item is offered again |
| `Validation.CompleteValidation` | App.tsx:540-567 | an answer updates the checklist and leaves the error on screen as it was; a failure keeps the checklist and reports its message or, for a non-`Error` throw, the generic one; in every outcome the running flag is dropped |
| `Validation.ValidationCanRunAgain` | App.tsx:456-567 | after a validation settles, however it ends, the next press on a non-blank transcript clears the error and sends a request exactly when an item is still pending |
| `Validation.CoveredCount` | App.tsx:961 | a group's covered count never exceeds its item count |
| `Validation.CoveredCountFull` | App.tsx:961 | the count equals the item count exactly when every item is checked by the model or by the interviewer |
| `Validation.CoveredCountMonotone` | App.tsx:961 | more items covered, position by position, never lowers the count |
| `Validation.ApplyNeverLowersCoverage` | App.tsx:548-557 | applying an answer never lowers any group's covered count |
| `Export.Underscored` | App.tsx:300 | the replacement yields one character per UTF-16 code unit of the input, all of them ASCII letters, digits or `_`; for text inside the Basic Multilingual Plane each ASCII letter or digit stays in place and every other character becomes `_` |
| `Export.UnderscoredAppend` | App.tsx:300 | replacing in a concatenation replaces in each part |
| `Export.Sanitised` | App.tsx:300 | after lower-casing only `[a-z0-9_]` remain, one per UTF-16 code unit; inside the Basic Multilingual Plane each ASCII letter or digit is lower-cased in place and every other character becomes `_` |
| `Export.FilenameIdentifier` | App.tsx:300 | a non-empty identifier is sanitised; an empty one gives `entrevista`; the result is never empty |
| `Export.SanitisedKeepsFilenameChars` | App.tsx:300 | text made only of `[a-z0-9_]` is left as it is, `entrevista` included |
| `Export.AstralBecomesTwoUnderscores` | App.tsx:300 | a character outside the Basic Multilingual Plane, such as an emoji, becomes two `_`, one per half of its surrogate pair |
| `Export.FilenameIdentifierIdempotent` | App.tsx:300 | sanitising an already sanitised identifier changes nothing |
| `Export.ExportTranscription` | App.tsx:296-308 | a file is produced exactly when the transcript is not blank; its name is `transcricao_` plus the sanitised identifier and the extension, and its content ends with the transcript |
| `Export.CsvEscape` | App.tsx:661 | escaping never shortens a field |
| `Export.CsvEscapeRoundTrip` | App.tsx:661 | a CSV reader gets the field back, and the field grows by one character per quote |
| `Export.CsvRows` | App.tsx:661 | one row per code, in order |
| `Export.CodesCsv` | App.tsx:657-662 | a CSV is produced exactly when there are codes |
| `Export.CsvHasOneLinePerCode` | App.tsx:660-662 | when no code or quote spans lines, the CSV is the header line followed by exactly one line per code |
| `Export.HeaderThenLines` | App.tsx:660-662 | a newline-free header and newline-free rows joined by newlines split back into the header and the rows |
| `Session.TotalItemsZeroIff` | App.tsx:432 | the item total is zero exactly when every group is empty |
| `Session.ParsedChecklistStartable` | App.tsx:432 | a parsed checklist refuses to start only when it has no groups |
| `Session.CountdownNext` | App.tsx:443-453 | while counting down, a positive value drops by one; at zero the status becomes `processing` and the countdown is cleared; otherwise nothing changes |
| `Session.CountdownRunsDown` | App.tsx:443-447 | from `n`, each of the first `n` runs lowers the countdown by one |
| `Session.CountdownEndsInProcessing` | App.tsx:443-453 | a countdown from `n` reaches `processing` with no countdown on run `n + 1` and stays there |
| `Session.PauseResumeNext` | App.tsx:356-362 | `recording` and `paused` are swapped; every other status is kept |
| `Session.PauseResumeTwice` | App.tsx:356-362 | pausing and resuming returns to the same status |
| `Session.ReleasesOnce` | App.tsx:330-354 | a release step is taken exactly when its handle is present (the audio context only if not closed, the session only if its promise resolves), and no step is taken twice |
| `Session.ReleasesNothingWithoutHandles` | App.tsx:330-354 | a stop that finds no handle releases nothing, so a second stop is harmless |
| `Session.InterviewSession.constructor` | App.tsx:229-249 | the session starts idle with no handles, an empty transcript and the default outlines parsed |
| `Session.InterviewSession.StartInterview` | App.tsx:431-441 | with no items it only sets the empty-checklist error; otherwise it clears error and transcript, records the start time and counts down from 3 |
| `Session.InterviewSession.CountdownTick` | App.tsx:443-453 | the status and countdown move as `CountdownNext` says, and at zero the session handle is stored |
| `Session.InterviewSession.BeginRecording` | App.tsx:364-370 | the status becomes `processing`, the session handle is stored and the callbacks keep the previous status |
| `Session.InterviewSession.OnOpen` | App.tsx:373-380 | the status becomes `recording` and the four audio handles are stored |
| `Session.InterviewSession.OnMessage` | App.tsx:401-405 | a transcription fragment is appended at the end, so the transcript stays the concatenation of the fragments since the last reset |
| `Session.InterviewSession.OnError` | App.tsx:406-410 | the handler alone: the connection error is reported, the meter drops to 0 and the session stops in `error` with all handles released |
| `Session.InterviewSession.OnClose` | App.tsx:411 | the status becomes `stopped` only if the captured status was `recording` or `paused` |
| `Session.InterviewSession.OnConnectFailed` | App.tsx:420-427 | the status becomes `error` with the thrown message or the generic start failure |
| `Session.InterviewSession.Stop` | App.tsx:330-354 | the new status, the meter at zero, all five handles cleared, and the release steps taken are those `ReleasesOnce` describes for the handles found |
| `Session.InterviewSession.PauseResume` | App.tsx:356-362 | the handler alone: the status moves as `PauseResumeNext` says |
| `Session.InterviewSession.PauseThenResume` | App.tsx:356-362 | the handler alone, pressed twice, returns to the status it started from |
| `Session.InterviewSession.LeaveStatus` | App.tsx:677 | the effect cleanup: leaving `recording` or `paused` stops in `stopped` with the meter at 0 and every held handle released once; leaving any other status changes nothing |
| `Session.InterviewSession.PauseResumeWithEffect` | App.tsx:677 | pause or resume (App.tsx:356-362) followed by the effect cleanup, which runs twice (the second time for the intermediate status, releasing nothing): from `recording` or `paused` the interview ends in `stopped` with every handle released once; otherwise nothing changes |
| `Session.InterviewSession.OnErrorWithEffect` | App.tsx:677 | `onerror` (App.tsx:406-410) followed by the effect cleanup: the error message stays, the handles are released once, and the status is `stopped` when the error came while recording or paused, `error` otherwise |
| `Session.InterviewSession.NewInterview` | App.tsx:679-687 | the handler alone: stops in `idle` releasing the handles found, reloads the default outlines, clears identifier, start time, transcript and error, leaves the countdown alone and keeps the transcript invariant |
| `Session.InterviewSession.ResetDocuments` | App.tsx:681-686 | the outlines are reloaded and identifier, start time, transcript and error cleared |
| `Session.CloseAfterCountdownKeepsRecording` | App.tsx:411 | a session opened after its countdown stays `recording` when the connection closes on its own |

## Left out

- The audio callback (App.tsx:381-397): the RMS meter, the Int16 conversion
  and the pause gate are floating-point Web Audio work. The pause gate reads
  the captured status, as `onclose` does. The model does not claim that
  frames are suppressed while paused.
- The live connection and the language model calls (App.tsx:369-418,
  524-546, 616-641) are network I/O. Their outcomes are parameters:
  - the session reference;
  - whether its promise resolves;
  - the decoded `covered_ids`;
  - the failure message.

  `JSON.parse` of the answers is not modelled.
- The `getUserMedia` failure inside `onopen` is not modelled: it rejects the
  `onopen` promise, which nothing awaits.
- `stopInterview` is asynchronous. `Session.InterviewSession.Stop` performs
  it as one step, so an interleaving with other handlers while it awaits is
  not modelled.
- `encode` (App.tsx:8-15) is a wrapper over the browser's base64 encoder
  and only feeds the audio path.
- The scrubbing of the interviewer's questions from the transcript
  (App.tsx:488-501) relies on case-insensitive regular expression matching.
  The prompt text around the checklist is a constant and is not modelled.
- First-cycle code generation (App.tsx:570-655) is a language model call. Its
  codes are an input to `Export.CodesCsv`.
- Browser plumbing is not modelled:
  - the Blob, object URL and anchor downloads (App.tsx:285-293, 310-318,
    664-672), including the byte-order mark in front of the CSV;
  - the rendering;
  - the loading timer (App.tsx:251-254).
- Ids and timestamps are parameters. The parsers read `Date.now()` afresh
  for every group and item id (App.tsx:140, 155, 163, 186, 197, 204). The
  model takes one reading per parse, passed in as `now`, so ids that differ
  because the clock ticked during a parse are not modelled. Each edit
  handler reads the clock once and is given its id ready-made. Start times
  from `toLocaleString` are passed in as strings.
- `Session.InterviewSession.OnMessage`: its parameter is the value of
  `inputTranscription.text` whenever `inputTranscription` is present, and
  `None` when it is absent. A present `inputTranscription` without `text`
  makes the source append the string `undefined`, which the caller passes
  as `Some("undefined")`.
- The effect at App.tsx:677 lists `status` among its dependencies, so its
  cleanup runs after every status change, not only when the component goes
  away. `LeaveStatus` models that cleanup. `PauseResume`, `OnError`,
  `NewInterview` and `PauseResumeTwice` model the handlers alone.
  `PauseResumeWithEffect` and `OnErrorWithEffect` compose a handler with the
  cleanup. The other routes out of `recording` or `paused` are not composed:
  - the Stop button (App.tsx:868) runs stop a second time, which releases
    nothing (`Session.ReleasesNothingWithoutHandles`);
  - `NewInterview` from a running interview ends in `stopped`, not `idle`.
- `stopInterview` awaits the audio context and the session promise. The model
  runs each stop to completion before the next one starts, so a cleanup
  that begins while an earlier stop is still waiting is not modelled.
- `notes` is always `""`: no handler sets it.
- Nothing in the code builds an `InterviewRecord` (types.ts:49-57). It is
  declared as a datatype only.
- `Strings.Lower`: lower-cases ASCII and Latin-1 Supplement capitals only,
  not the full Unicode case mapping of `toLowerCase`. Every text the
  parsers compare (`notas p`, `insights`, `percepção geral`) is covered by
  that range.
- `QuestionOutline.MarkerLength`: states only that a recognised marker ends
  in whitespace inside the line, not that every line matching
  `^(\d+\.|-|\*)\s` is recognised; its body is the full test.

## Findings

| source | as written | input that shows it | evidently intended | confidence | as-written member | corrected member |
|---|---|---|---|---|---|---|
| App.tsx:677 | the stop-on-unmount effect depends on `status`, so its cleanup runs on every status change and stops a running interview | pressing pause while recording ends in `stopped` with every handle released | stop only when the component goes away; pause and resume keep the session | high, not executed | `Session.InterviewSession.PauseResumeWithEffect` | `Session.InterviewSession.PauseThenResume` |
