/** The checklist and question editors of App.tsx: every handler replaces the
    list with a new one built by `map` and `filter`, so each is a function from
    the old list to the new one. Ids of new entries are the caller's (the
    application makes them from `Date.now()`). */
module Editing {
  import opened Types

  const NewGroupTitle := "Novo Grupo"
  const NewBlockTitle := "Novo Bloco"
  const NewItemText := "Novo item"
  const NewQuestionText := "Nova pergunta"

  /** `xs.filter(x => !drop(x))`. */
  function Without<T(!new)>(xs: seq<T>, drop: T -> bool): (r: seq<T>)
    ensures |r| <= |xs|
    ensures forall x :: x in r <==> x in xs && !drop(x)
    ensures forall x :: multiset(r)[x] == if drop(x) then 0 else multiset(xs)[x]
  {
    if xs == [] then []
    else
      assert forall x :: x in xs <==> x == xs[0] || x in xs[1..];
      assert xs == [xs[0]] + xs[1..];
      (if drop(xs[0]) then [] else [xs[0]]) + Without(xs[1..], drop)
  }

  /** Filtering a concatenation filters each part and keeps them in order, so
      the survivors keep their relative order. */
  lemma {:induction false} WithoutAppend<T(!new)>(a: seq<T>, b: seq<T>, drop: T -> bool)
    ensures Without(a + b, drop) == Without(a, drop) + Without(b, drop)
    decreases |a|
  {
    if a == [] {
      assert a + b == b;
    } else {
      assert (a + b)[1..] == a[1..] + b;
      WithoutAppend(a[1..], b, drop);
    }
  }

  /** A filter that drops nothing returns its input. */
  lemma {:induction false} WithoutNothing<T(!new)>(xs: seq<T>, drop: T -> bool)
    requires forall i :: 0 <= i < |xs| ==> !drop(xs[i])
    ensures Without(xs, drop) == xs
    decreases |xs|
  {
    if xs != [] {
      WithoutNothing(xs[1..], drop);
      assert [xs[0]] + xs[1..] == xs;
    }
  }

  /** Filtering twice with the same test is filtering once. */
  lemma {:induction false} WithoutIdempotent<T(!new)>(xs: seq<T>, drop: T -> bool)
    ensures Without(Without(xs, drop), drop) == Without(xs, drop)
  {
    var r := Without(xs, drop);
    forall i | 0 <= i < |r| ensures !drop(r[i]) {
      assert r[i] in r;
    }
    WithoutNothing(r, drop);
  }

  // ----- Checklist groups (App.tsx:257-263) -----

  function NewChecklistItem(id: string): ChecklistItem {
    ChecklistItem(id, NewItemText, false, false, "", "")
  }

  /** `handleAddGroup`: one empty group titled `Novo Grupo` at the end. */
  function AddGroup(gs: seq<ChecklistGroup>, id: string): (r: seq<ChecklistGroup>)
    ensures |r| == |gs| + 1 && r[..|gs|] == gs
    ensures r[|gs|].id == id && r[|gs|].title == NewGroupTitle && r[|gs|].items == []
  {
    gs + [Group(id, NewGroupTitle, [])]
  }

  /** `handleUpdateGroupTitle`, and `handleUpdateQuestionGroupTitle` on the
      question blocks: the groups with that id get the new title; nothing
      else changes, order included. */
  function UpdateGroupTitle<I>(gs: seq<Group<I>>, groupId: string, title: string): (r: seq<Group<I>>)
    ensures |r| == |gs|
    ensures forall i :: 0 <= i < |gs| ==> r[i].id == gs[i].id && r[i].items == gs[i].items
    ensures forall i :: 0 <= i < |gs| ==> r[i].title == if gs[i].id == groupId then title else gs[i].title
  {
    seq(|gs|, i requires 0 <= i < |gs| => if gs[i].id == groupId then gs[i].(title := title) else gs[i])
  }

  /** `handleDeleteGroup`, and `handleDeleteQuestionGroup` on the question
      blocks: exactly the groups with that id are gone; every other group is
      kept as often as it occurs. */
  function DeleteGroup<I(!new)>(gs: seq<Group<I>>, groupId: string): (r: seq<Group<I>>)
    ensures |r| <= |gs|
    ensures forall g :: g in r <==> g in gs && g.id != groupId
    ensures forall g :: multiset(r)[g] == if g.id == groupId then 0 else multiset(gs)[g]
  {
    Without(gs, (g: Group<I>) => g.id == groupId)
  }

  /** Deleting by an id no group carries changes nothing. */
  lemma DeleteAbsentGroup<I(!new)>(gs: seq<Group<I>>, groupId: string)
    requires forall i :: 0 <= i < |gs| ==> gs[i].id != groupId
    ensures DeleteGroup(gs, groupId) == gs
  {
    WithoutNothing(gs, (g: Group<I>) => g.id == groupId);
  }

  /** Deleting a group keeps the others in their order: deleting from a
      concatenation deletes from each part. */
  lemma DeleteGroupAppend<I(!new)>(a: seq<Group<I>>, b: seq<Group<I>>, groupId: string)
    ensures DeleteGroup(a + b, groupId) == DeleteGroup(a, groupId) + DeleteGroup(b, groupId)
  {
    WithoutAppend(a, b, (g: Group<I>) => g.id == groupId);
  }

  /** Deleting the group just added undoes the addition. */
  lemma DeleteAddedGroup(gs: seq<ChecklistGroup>, id: string)
    ensures DeleteGroup(AddGroup(gs, id), id) == DeleteGroup(gs, id)
  {
    DeleteGroupAppend(gs, [Group(id, NewGroupTitle, [])], id);
    assert DeleteGroup<ChecklistItem>([Group(id, NewGroupTitle, [])], id) == [];
  }

  // ----- Checklist items (App.tsx:260-263, 321-323) -----

  /** `handleAddItemToGroup`: every group with that id gets a fresh
      `Novo item` at the end of its items (both flags false, no keywords and,
      since the handler does not set it, no notes); other groups are kept. */
  function AddItemToGroup(gs: seq<ChecklistGroup>, groupId: string, itemId: string): (r: seq<ChecklistGroup>)
    ensures |r| == |gs|
    ensures forall i :: 0 <= i < |gs| ==> r[i].id == gs[i].id && r[i].title == gs[i].title
    ensures forall i :: 0 <= i < |gs| && gs[i].id != groupId ==> r[i] == gs[i]
    ensures forall i :: 0 <= i < |gs| && gs[i].id == groupId ==>
              r[i].items == gs[i].items + [ChecklistItem(itemId, NewItemText, false, false, "", "")]
  {
    seq(|gs|, i requires 0 <= i < |gs| =>
      if gs[i].id == groupId then gs[i].(items := gs[i].items + [NewChecklistItem(itemId)]) else gs[i])
  }

  /** `g.items.map(i => i.id === itemId ? f(i) : i)` on the groups with id
      `groupId`. */
  function UpdateItem(gs: seq<ChecklistGroup>, groupId: string, itemId: string, f: ChecklistItem -> ChecklistItem): seq<ChecklistGroup> {
    seq(|gs|, i requires 0 <= i < |gs| =>
      if gs[i].id == groupId then
        gs[i].(items := seq(|gs[i].items|, k requires 0 <= k < |gs[i].items| =>
          if gs[i].items[k].id == itemId then f(gs[i].items[k]) else gs[i].items[k]))
      else gs[i])
  }

  /** `handleUpdateItemText`: the items with id `itemId` inside the groups
      with id `groupId` get the new text; every other item and every other
      field stays, in the same positions. */
  function UpdateItemText(gs: seq<ChecklistGroup>, groupId: string, itemId: string, text: string): (r: seq<ChecklistGroup>)
    ensures |r| == |gs|
    ensures forall i :: 0 <= i < |gs| ==>
              r[i].id == gs[i].id && r[i].title == gs[i].title && |r[i].items| == |gs[i].items|
    ensures forall i, k :: 0 <= i < |gs| && 0 <= k < |gs[i].items| ==>
              r[i].items[k] == if gs[i].id == groupId && gs[i].items[k].id == itemId
                               then gs[i].items[k].(text := text) else gs[i].items[k]
  {
    UpdateItem(gs, groupId, itemId, (item: ChecklistItem) => item.(text := text))
  }

  /** `handleUpdateItemKeywords`: the same, for the keywords. */
  function UpdateItemKeywords(gs: seq<ChecklistGroup>, groupId: string, itemId: string, keywords: string): (r: seq<ChecklistGroup>)
    ensures |r| == |gs|
    ensures forall i :: 0 <= i < |gs| ==>
              r[i].id == gs[i].id && r[i].title == gs[i].title && |r[i].items| == |gs[i].items|
    ensures forall i, k :: 0 <= i < |gs| && 0 <= k < |gs[i].items| ==>
              r[i].items[k] == if gs[i].id == groupId && gs[i].items[k].id == itemId
                               then gs[i].items[k].(keywords := keywords) else gs[i].items[k]
  {
    UpdateItem(gs, groupId, itemId, (item: ChecklistItem) => item.(keywords := keywords))
  }

  /** `handleToggleHumanCheck`: flips `checkedByHuman` of the target items
      and of nothing else. */
  function ToggleHumanCheck(gs: seq<ChecklistGroup>, groupId: string, itemId: string): (r: seq<ChecklistGroup>)
    ensures |r| == |gs|
    ensures forall i :: 0 <= i < |gs| ==>
              r[i].id == gs[i].id && r[i].title == gs[i].title && |r[i].items| == |gs[i].items|
    ensures forall i, k :: 0 <= i < |gs| && 0 <= k < |gs[i].items| ==>
              r[i].items[k] == if gs[i].id == groupId && gs[i].items[k].id == itemId
                               then gs[i].items[k].(checkedByHuman := !gs[i].items[k].checkedByHuman)
                               else gs[i].items[k]
  {
    UpdateItem(gs, groupId, itemId, (item: ChecklistItem) => item.(checkedByHuman := !item.checkedByHuman))
  }

  /** Toggling the same item twice restores the checklist. */
  lemma ToggleHumanCheckTwice(gs: seq<ChecklistGroup>, groupId: string, itemId: string)
    ensures ToggleHumanCheck(ToggleHumanCheck(gs, groupId, itemId), groupId, itemId) == gs
  {
    var once := ToggleHumanCheck(gs, groupId, itemId);
    var twice := ToggleHumanCheck(once, groupId, itemId);
    forall i | 0 <= i < |gs| ensures twice[i] == gs[i] {
      assert twice[i].items == gs[i].items;
    }
  }

  /** `items.filter(i => i.id !== itemId)`: exactly the items with that id
      are gone; every other item is kept as often as it occurs. */
  function DropItem(items: seq<ChecklistItem>, itemId: string): (r: seq<ChecklistItem>)
    ensures forall x :: x in r <==> x in items && x.id != itemId
    ensures forall x :: multiset(r)[x] == if x.id == itemId then 0 else multiset(items)[x]
  {
    Without(items, (x: ChecklistItem) => x.id == itemId)
  }

  /** Dropping from a concatenation drops from each part, so the remaining
      items keep their order. */
  lemma DropItemAppend(a: seq<ChecklistItem>, b: seq<ChecklistItem>, itemId: string)
    ensures DropItem(a + b, itemId) == DropItem(a, itemId) + DropItem(b, itemId)
  {
    WithoutAppend(a, b, (x: ChecklistItem) => x.id == itemId);
  }

  /** `handleDeleteItem`: the groups with id `groupId` lose exactly their
      items with id `itemId`; other groups are kept. */
  function DeleteItem(gs: seq<ChecklistGroup>, groupId: string, itemId: string): (r: seq<ChecklistGroup>)
    ensures |r| == |gs|
    ensures forall i :: 0 <= i < |gs| ==> r[i].id == gs[i].id && r[i].title == gs[i].title
    ensures forall i :: 0 <= i < |gs| && gs[i].id != groupId ==> r[i] == gs[i]
    ensures forall i :: 0 <= i < |gs| && gs[i].id == groupId ==> r[i].items == DropItem(gs[i].items, itemId)
  {
    seq(|gs|, i requires 0 <= i < |gs| =>
      if gs[i].id == groupId then gs[i].(items := DropItem(gs[i].items, itemId))
      else gs[i])
  }

  /** Deleting the item just added undoes the addition. */
  lemma DeleteAddedItem(gs: seq<ChecklistGroup>, groupId: string, itemId: string)
    ensures DeleteItem(AddItemToGroup(gs, groupId, itemId), groupId, itemId) == DeleteItem(gs, groupId, itemId)
  {
    var added := AddItemToGroup(gs, groupId, itemId);
    forall i | 0 <= i < |gs| && gs[i].id == groupId
      ensures DropItem(added[i].items, itemId) == DropItem(gs[i].items, itemId)
    {
      DropItemAppend(gs[i].items, [NewChecklistItem(itemId)], itemId);
      assert DropItem([NewChecklistItem(itemId)], itemId) == [];
    }
  }

  // ----- Question groups and questions (App.tsx:266-271, 325-328) -----

  /** `handleAddQuestionGroup`: one empty block titled `Novo Bloco` at the
      end. */
  function AddQuestionGroup(gs: seq<QuestionGroup>, id: string): (r: seq<QuestionGroup>)
    ensures |r| == |gs| + 1 && r[..|gs|] == gs
    ensures r[|gs|].id == id && r[|gs|].title == NewBlockTitle && r[|gs|].items == []
  {
    gs + [Group(id, NewBlockTitle, [])]
  }

  /** Deleting the block just added undoes the addition. */
  lemma DeleteAddedQuestionGroup(gs: seq<QuestionGroup>, id: string)
    ensures DeleteGroup(AddQuestionGroup(gs, id), id) == DeleteGroup(gs, id)
  {
    DeleteGroupAppend(gs, [Group(id, NewBlockTitle, [])], id);
    assert DeleteGroup<QuestionItem>([Group(id, NewBlockTitle, [])], id) == [];
  }

  /** `handleAddQuestionToGroup`: a `Nova pergunta`, not yet asked, at the
      end of every block with that id. */
  function AddQuestionToGroup(gs: seq<QuestionGroup>, groupId: string, itemId: string): (r: seq<QuestionGroup>)
    ensures |r| == |gs|
    ensures forall i :: 0 <= i < |gs| ==> r[i].id == gs[i].id && r[i].title == gs[i].title
    ensures forall i :: 0 <= i < |gs| && gs[i].id != groupId ==> r[i] == gs[i]
    ensures forall i :: 0 <= i < |gs| && gs[i].id == groupId ==>
              r[i].items == gs[i].items + [QuestionItem(itemId, NewQuestionText, false)]
  {
    seq(|gs|, i requires 0 <= i < |gs| =>
      if gs[i].id == groupId then gs[i].(items := gs[i].items + [QuestionItem(itemId, NewQuestionText, false)]) else gs[i])
  }

  function UpdateQuestion(gs: seq<QuestionGroup>, groupId: string, itemId: string, f: QuestionItem -> QuestionItem): seq<QuestionGroup> {
    seq(|gs|, i requires 0 <= i < |gs| =>
      if gs[i].id == groupId then
        gs[i].(items := seq(|gs[i].items|, k requires 0 <= k < |gs[i].items| =>
          if gs[i].items[k].id == itemId then f(gs[i].items[k]) else gs[i].items[k]))
      else gs[i])
  }

  /** `handleUpdateQuestionText`. */
  function UpdateQuestionText(gs: seq<QuestionGroup>, groupId: string, itemId: string, text: string): (r: seq<QuestionGroup>)
    ensures |r| == |gs|
    ensures forall i :: 0 <= i < |gs| ==>
              r[i].id == gs[i].id && r[i].title == gs[i].title && |r[i].items| == |gs[i].items|
    ensures forall i, k :: 0 <= i < |gs| && 0 <= k < |gs[i].items| ==>
              r[i].items[k] == if gs[i].id == groupId && gs[i].items[k].id == itemId
                               then gs[i].items[k].(text := text) else gs[i].items[k]
  {
    UpdateQuestion(gs, groupId, itemId, (q: QuestionItem) => q.(text := text))
  }

  /** `handleToggleQuestionAsked`: flips `asked` of the target questions. */
  function ToggleQuestionAsked(gs: seq<QuestionGroup>, groupId: string, itemId: string): (r: seq<QuestionGroup>)
    ensures |r| == |gs|
    ensures forall i :: 0 <= i < |gs| ==>
              r[i].id == gs[i].id && r[i].title == gs[i].title && |r[i].items| == |gs[i].items|
    ensures forall i, k :: 0 <= i < |gs| && 0 <= k < |gs[i].items| ==>
              r[i].items[k] == if gs[i].id == groupId && gs[i].items[k].id == itemId
                               then gs[i].items[k].(asked := !gs[i].items[k].asked) else gs[i].items[k]
  {
    UpdateQuestion(gs, groupId, itemId, (q: QuestionItem) => q.(asked := !q.asked))
  }

  /** Toggling the same question twice restores the questions. */
  lemma ToggleQuestionAskedTwice(gs: seq<QuestionGroup>, groupId: string, itemId: string)
    ensures ToggleQuestionAsked(ToggleQuestionAsked(gs, groupId, itemId), groupId, itemId) == gs
  {
    var once := ToggleQuestionAsked(gs, groupId, itemId);
    var twice := ToggleQuestionAsked(once, groupId, itemId);
    forall i | 0 <= i < |gs| ensures twice[i] == gs[i] {
      assert twice[i].items == gs[i].items;
    }
  }

  /** `items.filter(q => q.id !== itemId)` on questions. */
  function DropQuestion(items: seq<QuestionItem>, itemId: string): (r: seq<QuestionItem>)
    ensures forall q :: q in r <==> q in items && q.id != itemId
    ensures forall q :: multiset(r)[q] == if q.id == itemId then 0 else multiset(items)[q]
  {
    Without(items, (q: QuestionItem) => q.id == itemId)
  }

  /** Dropping questions keeps the remaining ones in their order. */
  lemma DropQuestionAppend(a: seq<QuestionItem>, b: seq<QuestionItem>, itemId: string)
    ensures DropQuestion(a + b, itemId) == DropQuestion(a, itemId) + DropQuestion(b, itemId)
  {
    WithoutAppend(a, b, (q: QuestionItem) => q.id == itemId);
  }

  /** `handleDeleteQuestion`: the blocks with id `groupId` lose exactly their
      questions with id `itemId`; other blocks are kept. */
  function DeleteQuestion(gs: seq<QuestionGroup>, groupId: string, itemId: string): (r: seq<QuestionGroup>)
    ensures |r| == |gs|
    ensures forall i :: 0 <= i < |gs| ==> r[i].id == gs[i].id && r[i].title == gs[i].title
    ensures forall i :: 0 <= i < |gs| && gs[i].id != groupId ==> r[i] == gs[i]
    ensures forall i :: 0 <= i < |gs| && gs[i].id == groupId ==> r[i].items == DropQuestion(gs[i].items, itemId)
  {
    seq(|gs|, i requires 0 <= i < |gs| =>
      if gs[i].id == groupId then gs[i].(items := DropQuestion(gs[i].items, itemId))
      else gs[i])
  }

  /** Deleting the question just added undoes the addition. */
  lemma DeleteAddedQuestion(gs: seq<QuestionGroup>, groupId: string, itemId: string)
    ensures DeleteQuestion(AddQuestionToGroup(gs, groupId, itemId), groupId, itemId) == DeleteQuestion(gs, groupId, itemId)
  {
    var added := AddQuestionToGroup(gs, groupId, itemId);
    var created := QuestionItem(itemId, NewQuestionText, false);
    forall i | 0 <= i < |gs| && gs[i].id == groupId
      ensures DropQuestion(added[i].items, itemId) == DropQuestion(gs[i].items, itemId)
    {
      DropQuestionAppend(gs[i].items, [created], itemId);
      assert DropQuestion([created], itemId) == [];
    }
  }
}
