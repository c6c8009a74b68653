/** The checklist side of `handleValidateChecklist` (App.tsx:456-568) and the
    coverage counter shown beside each group (App.tsx:961): which items are
    offered to the language model, when nothing is asked at all, and how the
    ids it returns are applied. The request itself, the scrubbing of the
    interviewer's questions out of the transcript and the JSON decoding are
    not part of this model; the decoded answer is a parameter. */
module Validation {
  import opened Strings
  import opened Types
  import opened Editing

  /** `group.items.filter(item => !item.checkedByAI)`. */
  function PendingItems(items: seq<ChecklistItem>): (r: seq<ChecklistItem>)
    ensures forall x :: x in r <==> x in items && !x.checkedByAI
  {
    Without(items, (x: ChecklistItem) => x.checkedByAI)
  }

  function KeywordsInfo(keywords: string): string {
    if keywords != "" then " (Palavras-chave: " + keywords + ")" else ""
  }

  /** The prompt line of one item: id, quoted text and, when there are any,
      the keywords. */
  function PromptLine(item: ChecklistItem): (r: string)
    ensures |r| > 0
  {
    "  - ID: " + item.id + " | Item: \"" + item.text + "\"" + KeywordsInfo(item.keywords)
  }

  function PromptLines(items: seq<ChecklistItem>): (r: seq<string>)
    ensures |r| == |items| && forall k :: 0 <= k < |items| ==> r[k] == PromptLine(items[k])
  {
    seq(|items|, k requires 0 <= k < |items| => PromptLine(items[k]))
  }

  /** `itemsString`: the lines of the pending items, one per line. */
  function ItemsString(items: seq<ChecklistItem>): string {
    Join(PromptLines(PendingItems(items)), "\n")
  }

  /** The entry of one group, or nothing when its items string is empty. */
  function GroupEntry(g: ChecklistGroup): Option<string> {
    var itemsString := ItemsString(g.items);
    if itemsString != "" then Some("Grupo: \"" + g.title + "\"\n" + itemsString) else None
  }

  /** `.map(GroupEntry).filter(Boolean)`. */
  function Entries(gs: seq<ChecklistGroup>): seq<string> {
    if gs == [] then []
    else (match GroupEntry(gs[0]) case Some(e) => [e] case None => []) + Entries(gs[1..])
  }

  /** `checklistString`: the group entries separated by blank lines. */
  function ChecklistString(gs: seq<ChecklistGroup>): string {
    Join(Entries(gs), "\n\n")
  }

  predicate HasPending(g: ChecklistGroup) {
    exists k :: 0 <= k < |g.items| && !g.items[k].checkedByAI
  }

  lemma {:induction false} JoinOfNonEmpty(parts: seq<string>, sep: string)
    requires parts != [] && parts[0] != ""
    ensures Join(parts, sep) != ""
  {
    if |parts| > 1 {
      assert |Join(parts, sep)| >= |parts[0]|;
    }
  }

  /** A group gets an entry exactly when one of its items is not yet checked
      by the model; the entry holds the lines of exactly those items. */
  lemma GroupEntryIffPending(g: ChecklistGroup)
    ensures GroupEntry(g).Some? <==> HasPending(g)
    ensures GroupEntry(g).Some? ==>
              GroupEntry(g).value == "Grupo: \"" + g.title + "\"\n" + Join(PromptLines(PendingItems(g.items)), "\n")
  {
    var pending := PendingItems(g.items);
    if HasPending(g) {
      var k :| 0 <= k < |g.items| && !g.items[k].checkedByAI;
      assert g.items[k] in pending;
      JoinOfNonEmpty(PromptLines(pending), "\n");
    }
  }

  /** The number of entries is the number of groups with a pending item. */
  lemma {:induction false} EntriesOmitFinishedGroups(gs: seq<ChecklistGroup>)
    ensures |Entries(gs)| == |Without(gs, (g: ChecklistGroup) => !HasPending(g))|
    decreases |gs|
  {
    if gs != [] {
      GroupEntryIffPending(gs[0]);
      EntriesOmitFinishedGroups(gs[1..]);
    }
  }

  /** Every item of every group is already checked by the model. */
  predicate AllChecked(gs: seq<ChecklistGroup>) {
    forall i, k :: 0 <= i < |gs| && 0 <= k < |gs[i].items| ==> gs[i].items[k].checkedByAI
  }

  lemma AllCheckedCons(gs: seq<ChecklistGroup>)
    requires gs != []
    ensures AllChecked(gs) <==> !HasPending(gs[0]) && AllChecked(gs[1..])
  {
    if !HasPending(gs[0]) && AllChecked(gs[1..]) {
      forall i, k | 0 <= i < |gs| && 0 <= k < |gs[i].items|
        ensures gs[i].items[k].checkedByAI
      {
        if i > 0 {
          assert gs[i] == gs[1..][i - 1];
        }
      }
    }
  }

  /** A checklist has no entry exactly when every item of every group is
      already checked by the model; an entry, when there is one, is not empty. */
  lemma {:induction false} EntriesEmptyIffAllChecked(gs: seq<ChecklistGroup>)
    ensures Entries(gs) == [] <==> AllChecked(gs)
    ensures Entries(gs) != [] ==> Entries(gs)[0] != ""
    decreases |gs|
  {
    if gs != [] {
      GroupEntryIffPending(gs[0]);
      EntriesEmptyIffAllChecked(gs[1..]);
      AllCheckedCons(gs);
      if GroupEntry(gs[0]).Some? {
        assert GroupEntry(gs[0]).value[0] == 'G';
      } else {
        assert Entries(gs) == Entries(gs[1..]);
      }
    }
  }

  /** Nothing is sent for validation exactly when every item of every group is
      already checked by the model. */
  lemma ChecklistStringEmptyIffAllChecked(gs: seq<ChecklistGroup>)
    ensures ChecklistString(gs) == "" <==>
              forall i, k :: 0 <= i < |gs| && 0 <= k < |gs[i].items| ==> gs[i].items[k].checkedByAI
  {
    EntriesEmptyIffAllChecked(gs);
    if Entries(gs) != [] {
      JoinOfNonEmpty(Entries(gs), "\n\n");
    }
  }

  /** What a press of the validate button does before any network call:
      whether the error on screen is cleared, whether a validation is running
      afterwards, and the checklist part of the request, if one is made. */
  datatype ValidationPress = ValidationPress(clearsError: bool, isValidating: bool, request: Option<string>)

  /** `handleValidateChecklist` up to the request: a blank transcript or a
      running validation ends it at once; otherwise the error is cleared and,
      when no item is left to check, the running flag is dropped again and
      nothing is sent. */
  function ValidationRequest(gs: seq<ChecklistGroup>, transcription: string, isValidating: bool): (r: ValidationPress)
    ensures r.clearsError <==> Trim(transcription) != "" && !isValidating
    ensures r.request.Some? ==> r.clearsError && r.request.value == ChecklistString(gs)
    ensures r.isValidating <==> isValidating || r.request.Some?
  {
    if Trim(transcription) == "" || isValidating then ValidationPress(false, isValidating, None)
    else
      var checklistString := ChecklistString(gs);
      if checklistString == "" then ValidationPress(true, false, None)
      else ValidationPress(true, true, Some(checklistString))
  }

  /** A request goes out exactly when the transcript is not blank, no
      validation is running and some item is not yet checked by the model. */
  lemma ValidationRequestedIff(gs: seq<ChecklistGroup>, transcription: string, isValidating: bool)
    ensures ValidationRequest(gs, transcription, isValidating).request.Some? <==>
              Trim(transcription) != "" && !isValidating &&
              exists i, k :: 0 <= i < |gs| && 0 <= k < |gs[i].items| && !gs[i].items[k].checkedByAI
  {
    ChecklistStringEmptyIffAllChecked(gs);
  }

  /** A press clears the error even when every item is already checked and
      nothing is sent. */
  lemma ClearsErrorWithoutRequest(gs: seq<ChecklistGroup>, transcription: string)
    requires Trim(transcription) != ""
    requires forall i, k :: 0 <= i < |gs| && 0 <= k < |gs[i].items| ==> gs[i].items[k].checkedByAI
    ensures var r := ValidationRequest(gs, transcription, false);
      r.clearsError && r.request.None? && !r.isValidating
  {
    ChecklistStringEmptyIffAllChecked(gs);
  }

  // ----- Applying the answer -----

  /** `coveredIds.includes(id)` for a `covered_ids` that may be missing. */
  predicate Listed(coveredIds: Option<seq<string>>, id: string) {
    coveredIds.Some? && id in coveredIds.value
  }

  /** The `setChecklist` after a successful answer: when the list is present
      and not empty, every item in any group whose id is listed becomes
      checked by the model. No flag is cleared and nothing else changes. */
  function ApplyCoveredIds(gs: seq<ChecklistGroup>, coveredIds: Option<seq<string>>): (r: seq<ChecklistGroup>)
    ensures |r| == |gs|
    ensures forall i :: 0 <= i < |gs| ==>
              r[i].id == gs[i].id && r[i].title == gs[i].title && |r[i].items| == |gs[i].items|
    ensures forall i, k :: 0 <= i < |gs| && 0 <= k < |gs[i].items| ==>
              r[i].items[k].checkedByAI == (gs[i].items[k].checkedByAI || Listed(coveredIds, gs[i].items[k].id))
              && r[i].items[k] == gs[i].items[k].(checkedByAI := r[i].items[k].checkedByAI)
  {
    if coveredIds.Some? && |coveredIds.value| > 0 then
      seq(|gs|, i requires 0 <= i < |gs| =>
        gs[i].(items := seq(|gs[i].items|, k requires 0 <= k < |gs[i].items| =>
          if gs[i].items[k].id in coveredIds.value then gs[i].items[k].(checkedByAI := true) else gs[i].items[k])))
    else gs
  }

  /** Applying the same answer twice is applying it once. */
  lemma ApplyCoveredIdsIdempotent(gs: seq<ChecklistGroup>, coveredIds: Option<seq<string>>)
    ensures ApplyCoveredIds(ApplyCoveredIds(gs, coveredIds), coveredIds) == ApplyCoveredIds(gs, coveredIds)
  {
    var once := ApplyCoveredIds(gs, coveredIds);
    var twice := ApplyCoveredIds(once, coveredIds);
    forall i | 0 <= i < |gs| ensures twice[i] == once[i] {
      assert twice[i].items == once[i].items;
    }
  }

  /** After the answer is applied, no listed item is offered again. */
  lemma ListedItemsNoLongerPending(gs: seq<ChecklistGroup>, coveredIds: Option<seq<string>>)
    ensures var r := ApplyCoveredIds(gs, coveredIds);
      forall i, x :: 0 <= i < |r| && x in PendingItems(r[i].items) ==> !Listed(coveredIds, x.id)
  {
    var r := ApplyCoveredIds(gs, coveredIds);
    forall i, x | 0 <= i < |r| && x in PendingItems(r[i].items) ensures !Listed(coveredIds, x.id) {
      var k :| 0 <= k < |r[i].items| && r[i].items[k] == x;
    }
  }

  /** What the language model step ends with: the decoded `covered_ids`
      (possibly missing), or a failure with the message of the error thrown,
      if it was an `Error`. */
  datatype ValidationOutcome =
    | Answered(coveredIds: Option<seq<string>>)
    | Failed(message: Option<string>)

  const UnknownValidationError := "Ocorreu um erro desconhecido durante a validação do checklist."

  /** The state a validation leaves behind once its request settles. */
  datatype ValidationSettled = ValidationSettled(checklist: seq<ChecklistGroup>, error: Option<string>, isValidating: bool)

  /** The `try`/`catch`/`finally` of `handleValidateChecklist` once the request
      settles: an answer is applied and the error on screen is left as it is;
      a failure keeps the checklist and reports its message or the generic
      one; in every case the running flag is dropped. */
  function CompleteValidation(gs: seq<ChecklistGroup>, error: Option<string>, outcome: ValidationOutcome): (r: ValidationSettled)
    ensures !r.isValidating
    ensures outcome.Answered? ==> r.checklist == ApplyCoveredIds(gs, outcome.coveredIds) && r.error == error
    ensures outcome.Failed? ==> r.checklist == gs && r.error.Some?
    ensures outcome.Failed? && outcome.message.Some? ==>
              r.error.value == "Falha na validação do checklist: " + outcome.message.value
    ensures outcome.Failed? && outcome.message.None? ==> r.error == Some(UnknownValidationError)
  {
    match outcome
    case Answered(ids) => ValidationSettled(ApplyCoveredIds(gs, ids), error, false)
    case Failed(Some(message)) => ValidationSettled(gs, Some("Falha na validação do checklist: " + message), false)
    case Failed(None) => ValidationSettled(gs, Some(UnknownValidationError), false)
  }

  /** Once a validation settles, however it ends, the next press on a
      non-blank transcript sends a request again whenever an item is still
      pending: the running flag never stays stuck. */
  lemma ValidationCanRunAgain(gs: seq<ChecklistGroup>, transcription: string, error: Option<string>, outcome: ValidationOutcome)
    requires Trim(transcription) != ""
    requires ValidationRequest(gs, transcription, false).request.Some?
    ensures var settled := CompleteValidation(gs, error, outcome);
      var next := ValidationRequest(settled.checklist, transcription, settled.isValidating);
      next.clearsError &&
      (next.request.Some? <==>
         exists i, k :: 0 <= i < |settled.checklist| && 0 <= k < |settled.checklist[i].items| &&
                        !settled.checklist[i].items[k].checkedByAI)
  {
    var settled := CompleteValidation(gs, error, outcome);
    ValidationRequestedIff(settled.checklist, transcription, false);
  }

  // ----- Coverage -----

  /** `group.items.filter(i => i.checkedByAI || i.checkedByHuman).length`. */
  function CoveredCount(items: seq<ChecklistItem>): (n: nat)
    ensures n <= |items|
  {
    |Without(items, (x: ChecklistItem) => !x.Covered())|
  }

  lemma {:induction false} WithoutKeepsAll<T(!new)>(xs: seq<T>, drop: T -> bool)
    ensures |Without(xs, drop)| == |xs| <==> forall k :: 0 <= k < |xs| ==> !drop(xs[k])
    decreases |xs|
  {
    if xs != [] {
      WithoutKeepsAll(xs[1..], drop);
      assert |Without(xs[1..], drop)| <= |xs[1..]|;
      if forall k :: 0 <= k < |xs| ==> !drop(xs[k]) {
        assert forall k :: 0 <= k < |xs[1..]| ==> !drop(xs[1..][k]) by {
          forall k | 0 <= k < |xs[1..]| ensures !drop(xs[1..][k]) {
            assert xs[1..][k] == xs[k + 1];
          }
        }
      }
    }
  }

  /** A group shows all its items covered exactly when each one is checked by
      the model or by the interviewer. */
  lemma CoveredCountFull(items: seq<ChecklistItem>)
    ensures CoveredCount(items) == |items| <==> forall k :: 0 <= k < |items| ==> items[k].Covered()
  {
    WithoutKeepsAll(items, (x: ChecklistItem) => !x.Covered());
  }

  /** Pointwise more coverage means a count at least as large. */
  lemma {:induction false} CoveredCountMonotone(a: seq<ChecklistItem>, b: seq<ChecklistItem>)
    requires |a| == |b|
    requires forall k :: 0 <= k < |a| && a[k].Covered() ==> b[k].Covered()
    ensures CoveredCount(a) <= CoveredCount(b)
    decreases |a|
  {
    if a != [] {
      CoveredCountMonotone(a[1..], b[1..]);
    }
  }

  /** Applying an answer never lowers any group's covered count. */
  lemma ApplyNeverLowersCoverage(gs: seq<ChecklistGroup>, coveredIds: Option<seq<string>>)
    ensures var r := ApplyCoveredIds(gs, coveredIds);
      forall i :: 0 <= i < |gs| ==> CoveredCount(gs[i].items) <= CoveredCount(r[i].items) <= |r[i].items|
  {
    var r := ApplyCoveredIds(gs, coveredIds);
    forall i | 0 <= i < |gs| ensures CoveredCount(gs[i].items) <= CoveredCount(r[i].items) {
      CoveredCountMonotone(gs[i].items, r[i].items);
    }
  }
}
