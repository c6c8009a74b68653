/** The checklist outline: `parseMarkdownToGroupedChecklist` and the checklist
    branch of `handleSaveToMarkdown` (App.tsx). */
module ChecklistOutline {
  import opened Strings
  import opened Types
  import opened Outline

  const Heading := "## "
  const DefaultGroupTitle := "Itens Gerais"

  function GroupId(now: nat, k: nat): string {
    "group-" + NatToString(now) + "-" + NatToString(k)
  }

  function DefaultGroupId(now: nat): string {
    "group-default-" + NatToString(now)
  }

  function ItemId(now: nat, k: nat): string {
    "item-" + NatToString(now) + "-" + NatToString(k)
  }

  /** A fresh item: both flags false, no keywords, no notes. */
  function NewItem(id: string, text: string): ChecklistItem {
    ChecklistItem(id, text, false, false, "", "")
  }

  function ItemText(item: ChecklistItem): string {
    item.text
  }

  function ChecklistSections(gs: seq<ChecklistGroup>): seq<Section> {
    Sections(gs, ItemText)
  }

  /** `s.replace(/:$/, '')`: one colon at the very end goes. */
  function DropTrailingColon(s: string): (r: string)
    ensures s == r || s == r + [':']
  {
    if s != [] && s[|s| - 1] == ':' then s[..|s| - 1] else s
  }

  /** The item text of a trimmed bullet line: the `* ` marker, every `**`
      and one final colon removed, then trimmed. */
  function BulletText(t: string): string
    requires StartsWith(t, "* ")
  {
    Trim(DropTrailingColon(DeleteAll(t[2..], "**")))
  }

  /** Bullet lines that hold an empty checkbox or a notes label. */
  predicate SkippedBullet(t: string) {
    Contains(t, "( )") || Contains(Lower(t), "notas p")
  }

  /** Cleaned texts that yield no item: empty ones and the insight and overall
      perception headings. */
  predicate DroppedText(text: string) {
    text == "" || StartsWith(Lower(text), "insights") || StartsWith(Lower(text), "percepção geral")
  }

  predicate AcceptedBullet(t: string) {
    StartsWith(t, "* ") && !SkippedBullet(t) && !DroppedText(BulletText(t))
  }

  /** What a line of the checklist outline contributes: after trimming, a
      `## ` heading opens a group titled with the trimmed rest, an accepted
      bullet adds its cleaned text, anything else is passed over. */
  function ChecklistLineKind(line: string): LineKind {
    var t := Trim(line);
    if StartsWith(t, Heading) then TitleLine(Trim(t[3..]))
    else if AcceptedBullet(t) then ItemLine(BulletText(t))
    else SkippedLine
  }

  /** Group and item ids made from the time `now` of the parse; the checklist
      outline has no continuation lines, so `extend` is never applied. */
  function ChecklistBuilder(now: nat): Builder<ChecklistItem> {
    Builder(
      (k: nat) => GroupId(now, k),
      Group(DefaultGroupId(now), DefaultGroupTitle, []),
      (k: nat, text: string) => NewItem(ItemId(now, k), text),
      (item: ChecklistItem, text: string) => item)
  }

  function ChecklistFromLines(lines: seq<string>, now: nat): (r: seq<ChecklistGroup>)
    ensures forall i :: 0 <= i < |r| ==> r[i].items != []
  {
    NonEmptyGroups(Fold(ChecklistBuilder(now), [], Classify(ChecklistLineKind, lines)))
  }

  /** What `parseMarkdownToGroupedChecklist(markdown)` returns when
      `Date.now()` reads `now`. No group it returns is empty. */
  function ParsedChecklist(markdown: string, now: nat): (r: seq<ChecklistGroup>)
    ensures forall i :: 0 <= i < |r| ==> r[i].items != []
  {
    ChecklistFromLines(Split(markdown), now)
  }

  /** The parser as the application runs it: one pass over the lines with a
      current group (the last one pushed) that headings open and bullets fill. */
  method ParseChecklist(markdown: string, now: nat) returns (groups: seq<ChecklistGroup>)
    ensures groups == ParsedChecklist(markdown, now)
  {
    var lines := Split(markdown);
    ghost var kinds := Classify(ChecklistLineKind, lines);
    ghost var b := ChecklistBuilder(now);
    var all: seq<ChecklistGroup> := [];
    var i := 0;
    assert kinds[0..] == kinds;
    while i < |lines|
      invariant 0 <= i <= |lines|
      invariant Fold(b, all, kinds[i..]) == Fold(b, [], kinds)
    {
      assert kinds[i..][1..] == kinds[i + 1..];
      all := ReadChecklistLine(now, all, lines[i]);
      i := i + 1;
    }
    groups := NonEmptyGroups(all);
  }

  /** One iteration of the parser's loop: a heading pushes a new current
      group; an accepted bullet adds an item to the current group, pushing
      `Itens Gerais` first when there is none; other lines change nothing. */
  method ReadChecklistLine(now: nat, all: seq<ChecklistGroup>, line: string) returns (next: seq<ChecklistGroup>)
    ensures next == Step(ChecklistBuilder(now), all, ChecklistLineKind(line))
  {
    var trimmed := Trim(line);
    if StartsWith(trimmed, Heading) {
      var title := Trim(trimmed[3..]);
      next := all + [Group(GroupId(now, |all|), title, [])];
    } else if StartsWith(trimmed, "* ") && !SkippedBullet(trimmed) {
      var text := BulletText(trimmed);
      if !DroppedText(text) {
        next := PushChecklistItem(now, all, text);
      } else {
        next := all;
      }
    } else {
      next := all;
    }
  }

  /** `currentGroup.items.push(...)`, opening `Itens Gerais` first when there
      is no current group. */
  method PushChecklistItem(now: nat, all: seq<ChecklistGroup>, text: string) returns (next: seq<ChecklistGroup>)
    ensures next == Step(ChecklistBuilder(now), all, ItemLine(text))
  {
    next := all;
    if next == [] {
      next := [Group(DefaultGroupId(now), DefaultGroupTitle, [])];
    }
    var current := next[|next| - 1];
    var item := NewItem(ItemId(now, |current.items|), text);
    next := next[..|next| - 1] + [current.(items := current.items + [item])];
  }

  /** `handleSaveToMarkdown('checklist')`: the markdown written for the groups. */
  function SaveChecklist(gs: seq<ChecklistGroup>): string {
    OutlineMarkdown(Heading, ChecklistSections(gs))
  }

  /** A line the parser skips: neither a heading nor an accepted bullet. */
  predicate IgnoredLine(line: string) {
    !StartsWith(Trim(line), Heading) && !AcceptedBullet(Trim(line))
  }

  /** The parser degrades by omission: a line it cannot use (an empty-checkbox
      or notes bullet, a bullet whose text is empty or an insight heading, or
      any other non-heading line) can be removed without changing the result,
      group and item ids included. */
  lemma IgnoredLineIsInvisible(before: seq<string>, line: string, after: seq<string>, now: nat)
    requires IgnoredLine(line)
    ensures ChecklistFromLines(before + [line] + after, now) == ChecklistFromLines(before + after, now)
  {
    ClassifyAppend(ChecklistLineKind, before + [line], after);
    ClassifyAppend(ChecklistLineKind, before, [line]);
    ClassifyAppend(ChecklistLineKind, before, after);
    assert Classify(ChecklistLineKind, [line]) == [SkippedLine];
    SkippedIsInvisible(ChecklistBuilder(now), Classify(ChecklistLineKind, before), Classify(ChecklistLineKind, after));
  }

  predicate CleanItem(item: ChecklistItem) {
    !DroppedText(item.text) && IsTrimmed(item.text) && NewlineFree(item.text) && !Contains(item.text, "**")
    && !item.checkedByAI && !item.checkedByHuman && item.keywords == "" && item.notes == ""
  }

  predicate CleanGroup(g: ChecklistGroup) {
    IsTrimmed(g.title) && NewlineFree(g.title) && forall k :: 0 <= k < |g.items| ==> CleanItem(g.items[k])
  }

  /** What a line can contribute once classified. */
  predicate CleanKind(kind: LineKind) {
    match kind
    case TitleLine(title) => IsTrimmed(title) && NewlineFree(title)
    case ItemLine(text) => !DroppedText(text) && IsTrimmed(text) && NewlineFree(text) && !Contains(text, "**")
    case ContinuationLine(_) => false
    case SkippedLine => true
  }

  lemma {:induction false} BulletTextIsClean(t: string)
    requires StartsWith(t, "* ") && NewlineFree(t)
    ensures IsTrimmed(BulletText(t)) && NewlineFree(BulletText(t)) && !Contains(BulletText(t), "**")
  {
    var d := DeleteAll(t[2..], "**");
    var c := DropTrailingColon(d);
    assert c == d[..|c|];
    assert NewlineFree(d) by {
      assert forall x :: x in t[2..] ==> x in t;
    }
    assert NewlineFree(c) by {
      assert forall x :: x in d[..|c|] ==> x in d;
    }
    TrimKeepsNewlineFree(c);
    assert !Contains(c, "**") by {
      DeleteAllDoubleStar(t[2..]);
      InfixLacks(d, 0, |c|, "**");
      assert d[0..|c|] == c;
    }
    TrimLacks(c, "**");
  }

  /** Every line of a single-line input classifies as a clean kind. */
  lemma LineKindIsClean(line: string)
    requires NewlineFree(line)
    ensures CleanKind(ChecklistLineKind(line))
  {
    var t := Trim(line);
    TrimKeepsNewlineFree(line);
    if StartsWith(t, Heading) {
      assert NewlineFree(t[3..]) by { assert forall x :: x in t[3..] ==> x in t; }
      TrimKeepsNewlineFree(t[3..]);
    } else if AcceptedBullet(t) {
      BulletTextIsClean(t);
    }
  }

  lemma StepKeepsClean(groups: seq<ChecklistGroup>, kind: LineKind, now: nat)
    requires CleanKind(kind)
    requires forall i :: 0 <= i < |groups| ==> CleanGroup(groups[i])
    ensures var r := Step(ChecklistBuilder(now), groups, kind);
      forall i :: 0 <= i < |r| ==> CleanGroup(r[i])
  {
    assert IsTrimmed(DefaultGroupTitle) && NewlineFree(DefaultGroupTitle);
  }

  lemma {:induction false} FoldKeepsClean(groups: seq<ChecklistGroup>, kinds: seq<LineKind>, now: nat)
    requires forall i :: 0 <= i < |kinds| ==> CleanKind(kinds[i])
    requires forall i :: 0 <= i < |groups| ==> CleanGroup(groups[i])
    ensures forall i :: 0 <= i < |Fold(ChecklistBuilder(now), groups, kinds)| ==>
              CleanGroup(Fold(ChecklistBuilder(now), groups, kinds)[i])
    decreases |kinds|
  {
    if kinds != [] {
      var b := ChecklistBuilder(now);
      StepKeepsClean(groups, kinds[0], now);
      FoldKeepsClean(Step(b, groups, kinds[0]), kinds[1..], now);
      assert Fold(b, groups, kinds) == Fold(b, Step(b, groups, kinds[0]), kinds[1..]);
    }
  }

  /** Whatever the input, every group the parser returns has a trimmed
      single-line title and at least one item, and every item is fresh
      (both flags false, no keywords, no notes) with a non-empty, trimmed,
      single-line text that has no `**` left and does not start with an
      excluded heading. */
  lemma ParsedChecklistIsClean(markdown: string, now: nat)
    ensures var r := ParsedChecklist(markdown, now);
      forall i :: 0 <= i < |r| ==> r[i].items != [] && CleanGroup(r[i])
  {
    var lines := Split(markdown);
    var kinds := Classify(ChecklistLineKind, lines);
    forall i | 0 <= i < |kinds| ensures CleanKind(kinds[i]) {
      LineKindIsClean(lines[i]);
    }
    FoldKeepsClean([], kinds, now);
    var all := Fold(ChecklistBuilder(now), [], kinds);
    var r := NonEmptyGroups(all);
    forall i | 0 <= i < |r| ensures CleanGroup(r[i]) {
      var j :| 0 <= j < |all| && all[j] == r[i];
    }
  }

  // ----- Saving and parsing back -----

  /** An item text that the outline form carries unchanged: non-empty,
      trimmed, single-line, free of the markup and of the labels the parser
      strips or skips. */
  predicate SavableText(x: string) {
    x != "" && IsTrimmed(x) && NewlineFree(x) && x[|x| - 1] != ':'
    && !Contains(x, "**") && !Contains(x, "( )") && !Contains(Lower(x), "notas p")
    && !DroppedText(x)
  }

  predicate Savable(ss: seq<Section>) {
    forall i :: 0 <= i < |ss| ==>
      SavableTitle(ss[i].0) && forall k :: 0 <= k < |ss[i].1| ==> SavableText(ss[i].1[k])
  }

  lemma HeadingKind(title: string)
    requires SavableTitle(title)
    ensures ChecklistLineKind(Heading + title) == TitleLine(title)
  {
    var line := Heading + title;
    assert IsTrimmed(line);
    TrimOfTrimmed(line);
    assert line[3..] == title;
    TrimOfTrimmed(title);
  }

  lemma BulletNotSkipped(x: string)
    requires !Contains(x, "( )") && !Contains(Lower(x), "notas p")
    ensures !SkippedBullet("* " + x)
  {
    ContainsAfterPrefix("* ", x, "( )");
    LowerAppend("* ", x);
    assert Lower("* ") == "* ";
    ContainsAfterPrefix("* ", Lower(x), "notas p");
  }

  lemma BulletTextOfSavable(x: string)
    requires SavableText(x)
    ensures BulletText("* " + x) == x
  {
    assert ("* " + x)[2..] == x;
    TrimOfTrimmed(x);
  }

  lemma BulletKind(x: string)
    requires SavableText(x)
    ensures ChecklistLineKind("* " + x) == ItemLine(x)
  {
    var t := "* " + x;
    TrimOfTrimmed(t);
    assert !StartsWith(t, Heading) by { assert t[0] != Heading[0]; }
    BulletNotSkipped(x);
    BulletTextOfSavable(x);
  }

  lemma BlankKinds()
    ensures ChecklistLineKind("") == SkippedLine && ChecklistLineKind("---") == SkippedLine
  {
    assert Trim("---") == "---";
    assert !StartsWith("---", Heading) by { assert "---"[0] != Heading[0]; }
    assert !StartsWith("---", "* ") by { assert "---"[0] != "* "[0]; }
  }

  /** The lines of a saved, non-empty checklist classify as the outline's
      kinds. */
  lemma SavedLinesClassify(ss: seq<Section>)
    requires ss != [] && Savable(ss)
    ensures Classify(ChecklistLineKind, Split(OutlineMarkdown(Heading, ss))) == OutlineKinds(ss)
  {
    var lines := OutlineLines(Heading, ss);
    OutlineAsLines(Heading, ss);
    OutlineLinesNewlineFree(Heading, ss);
    SplitJoin(lines);
    BlankKinds();
    forall i | 0 <= i < |ss| ensures ChecklistLineKind(Heading + ss[i].0) == TitleLine(ss[i].0) {
      HeadingKind(ss[i].0);
    }
    forall i, k | 0 <= i < |ss| && 0 <= k < |ss[i].1|
      ensures ChecklistLineKind("* " + ss[i].1[k]) == ItemLine(ss[i].1[k])
    {
      BulletKind(ss[i].1[k]);
    }
    ClassifyOutline(ChecklistLineKind, Heading, ss);
  }

  /** The groups the parser builds from a saved checklist, before the empty
      ones are dropped, carry exactly the saved sections. */
  lemma SavedChecklistFolds(gs: seq<ChecklistGroup>, now: nat)
    requires Savable(ChecklistSections(gs))
    ensures ChecklistSections(Fold(ChecklistBuilder(now), [], Classify(ChecklistLineKind, Split(SaveChecklist(gs)))))
         == ChecklistSections(gs)
  {
    var ss := ChecklistSections(gs);
    if ss == [] {
      BlankKinds();
      assert Split(SaveChecklist(gs)) == [""];
      assert Classify(ChecklistLineKind, [""]) == [SkippedLine];
    } else {
      SavedLinesClassify(ss);
      FoldOutline(ChecklistBuilder(now), ItemText, [], ss);
    }
  }

  /** Saving a checklist and parsing the markdown back gives the same titles
      and item texts in the same order, except that groups without items
      disappear (the parser drops them); ids are generated afresh. */
  lemma SaveThenParse(gs: seq<ChecklistGroup>, now: nat)
    requires Savable(ChecklistSections(gs))
    ensures ChecklistSections(ParsedChecklist(SaveChecklist(gs), now))
         == NonEmptySections(ChecklistSections(gs))
  {
    SavedChecklistFolds(gs, now);
    SectionsOfNonEmpty(Fold(ChecklistBuilder(now), [], Classify(ChecklistLineKind, Split(SaveChecklist(gs)))), ItemText);
  }

  // ----- Examples -----

  lemma LowerOfMarkup(x: string)
    ensures Lower("**" + x + ":**") == "**" + (Lower(x) + ":**")
  {
    var l := Lower("**" + x + ":**");
    forall i | 0 <= i < |l| ensures l[i] == ("**" + (Lower(x) + ":**"))[i] {
      if 2 <= i < 2 + |x| {
        assert ("**" + x + ":**")[i] == x[i - 2];
      }
    }
  }

  lemma MarkupHasNoCheckbox(x: string)
    requires !Contains(x, "( )")
    ensures !Contains("**" + x + ":**", "( )")
  {
    assert "**" + x + ":**" == "**" + (x + ":**");
    ContainsAfterPrefix("**", x + ":**", "( )");
    ContainsAppendForeign(x, ":**", "( )");
  }

  lemma MarkupHasNoNotesLabel(x: string)
    requires !Contains(Lower(x), "notas p")
    ensures !Contains(Lower("**" + x + ":**"), "notas p")
  {
    LowerOfMarkup(x);
    ContainsAfterPrefix("**", Lower(x) + ":**", "notas p");
    ContainsAppendForeign(Lower(x), ":**", "notas p");
  }

  lemma MarkupNotSkipped(x: string)
    requires !Contains(x, "( )") && !Contains(Lower(x), "notas p")
    ensures !SkippedBullet("* " + ("**" + x + ":**"))
  {
    MarkupHasNoCheckbox(x);
    MarkupHasNoNotesLabel(x);
    BulletNotSkipped("**" + x + ":**");
  }

  lemma MarkupDeletion(x: string)
    requires x != "" && !Contains(x, "**")
    ensures DeleteAll("**" + x + ":**", "**") == x + ":"
  {
    var u := x + ":";
    var w := u + "**";
    assert ("**" + x + ":**")[2..] == w;
    forall k | 0 <= k < |u| ensures !StartsWith(w[k..], "**") {
      NoDoubleStarAt(x, k);
    }
    DeleteAllKeepsPrefix(u, "**", "**");
    assert DeleteAll("**", "**") == "";
  }

  /** No `**` starts inside `x:` when `x` holds none. */
  lemma NoDoubleStarAt(x: string, k: nat)
    requires !Contains(x, "**") && k <= |x|
    ensures !StartsWith((x + ":" + "**")[k..], "**")
  {
    var w := x + ":" + "**";
    if k + 1 >= |x| {
      assert w[k] == ':' || w[k + 1] == ':';
    } else {
      NoOccurrenceAt(x, "**", k);
      assert w[k..][..2] == x[k..k + 2];
    }
  }

  lemma MarkupText(x: string)
    requires x != "" && IsTrimmed(x) && !Contains(x, "**")
    ensures BulletText("* " + ("**" + x + ":**")) == x
  {
    assert ("* " + ("**" + x + ":**"))[2..] == "**" + x + ":**";
    MarkupDeletion(x);
    assert DropTrailingColon(x + ":") == x;
    TrimOfTrimmed(x);
  }

  /** A bullet whose text is wrapped in bold markup and ends in a colon, as
      in `* **One:**`, yields the bare text. */
  lemma MarkupIsStripped(x: string)
    requires SavableText(x)
    ensures ChecklistLineKind("* **" + x + ":**") == ItemLine(x)
  {
    var t := "* **" + x + ":**";
    assert t == "* " + ("**" + x + ":**");
    assert IsTrimmed(t);
    TrimOfTrimmed(t);
    assert !StartsWith(t, Heading) by { assert t[0] != Heading[0]; }
    MarkupNotSkipped(x);
    MarkupText(x);
  }

  /** The parse of `markdown` follows from its lines, their kinds and the fold
      of the kinds. */
  lemma ParseInStages(markdown: string, now: nat, lines: seq<string>, kinds: seq<LineKind>, groups: seq<ChecklistGroup>)
    requires Split(markdown) == lines
    requires Classify(ChecklistLineKind, lines) == kinds
    requires Fold(ChecklistBuilder(now), [], kinds) == groups
    ensures ParsedChecklist(markdown, now) == NonEmptyGroups(groups)
  {
  }

  /** The lines of the two-group outline `## a`, `* **x:**`, `* y`, `## c`,
      `* z`. */
  function TwoGroupLines(a: string, c: string, x: string, y: string, z: string): seq<string> {
    [Heading + a, "* **" + x + ":**", "* " + y, Heading + c, "* " + z]
  }

  /** The text of the two-group outline. */
  function TwoGroupText(a: string, c: string, x: string, y: string, z: string): string {
    Heading + a + "\n* **" + x + ":**\n* " + y + "\n" + Heading + c + "\n* " + z
  }

  lemma TwoGroupJoin(a: string, c: string, x: string, y: string, z: string)
    ensures Join(TwoGroupLines(a, c, x, y, z), "\n") == TwoGroupText(a, c, x, y, z)
  {
    var lines := TwoGroupLines(a, c, x, y, z);
    assert Join(lines[4..], "\n") == lines[4];
    assert Join(lines[3..], "\n") == lines[3] + "\n" + lines[4] by { assert lines[3..][1..] == lines[4..]; }
    assert Join(lines[2..], "\n") == lines[2] + "\n" + Join(lines[3..], "\n") by { assert lines[2..][1..] == lines[3..]; }
    assert Join(lines[1..], "\n") == lines[1] + "\n" + Join(lines[2..], "\n") by { assert lines[1..][1..] == lines[2..]; }
    assert Join(lines, "\n") == lines[0] + "\n" + Join(lines[1..], "\n");
  }

  lemma TwoGroupLinesNewlineFree(a: string, c: string, x: string, y: string, z: string)
    requires NewlineFree(a) && NewlineFree(c) && NewlineFree(x) && NewlineFree(y) && NewlineFree(z)
    ensures forall i :: 0 <= i < 5 ==> NewlineFree(TwoGroupLines(a, c, x, y, z)[i])
  {
    assert NewlineFree(Heading) && NewlineFree("* **") && NewlineFree(":**") && NewlineFree("* ");
    NewlineFreeAppend(Heading, a);
    NewlineFreeAppend(Heading, c);
    NewlineFreeAppend("* **", x);
    NewlineFreeAppend("* **" + x, ":**");
    NewlineFreeAppend("* ", y);
    NewlineFreeAppend("* ", z);
  }

  lemma TwoGroupSplit(a: string, c: string, x: string, y: string, z: string)
    requires NewlineFree(a) && NewlineFree(c) && NewlineFree(x) && NewlineFree(y) && NewlineFree(z)
    ensures Split(TwoGroupText(a, c, x, y, z)) == TwoGroupLines(a, c, x, y, z)
  {
    var lines := TwoGroupLines(a, c, x, y, z);
    TwoGroupJoin(a, c, x, y, z);
    TwoGroupLinesNewlineFree(a, c, x, y, z);
    SplitJoin(lines);
  }

  lemma HeadingLineKinds(title: string)
    requires SavableTitle(title)
    ensures Classify(ChecklistLineKind, [Heading + title]) == [TitleLine(title)]
  {
    ClassifyCons(ChecklistLineKind, [Heading + title]);
    HeadingKind(title);
  }

  lemma MarkupLineKinds(x: string)
    requires SavableText(x)
    ensures Classify(ChecklistLineKind, ["* **" + x + ":**"]) == [ItemLine(x)]
  {
    ClassifyCons(ChecklistLineKind, ["* **" + x + ":**"]);
    MarkupIsStripped(x);
  }

  lemma TwoGroupKinds(a: string, c: string, x: string, y: string, z: string)
    requires SavableTitle(a) && SavableTitle(c) && SavableText(x) && SavableText(y) && SavableText(z)
    ensures Classify(ChecklistLineKind, TwoGroupLines(a, c, x, y, z))
         == [TitleLine(a), ItemLine(x), ItemLine(y), TitleLine(c), ItemLine(z)]
  {
    var f := ChecklistLineKind;
    var l0, l1, l2, l3, l4 := [Heading + a], ["* **" + x + ":**"], ["* " + y], [Heading + c], ["* " + z];
    assert TwoGroupLines(a, c, x, y, z) == l0 + (l1 + (l2 + (l3 + l4)));
    ClassifyAppend(f, l3, l4);
    ClassifyAppend(f, l2, l3 + l4);
    ClassifyAppend(f, l1, l2 + (l3 + l4));
    ClassifyAppend(f, l0, l1 + (l2 + (l3 + l4)));
    HeadingLineKinds(a);
    MarkupLineKinds(x);
    BulletLineKinds(y);
    HeadingLineKinds(c);
    BulletLineKinds(z);
  }

  lemma TitleFold(now: nat, groups: seq<ChecklistGroup>, title: string, rest: seq<LineKind>)
    ensures Fold(ChecklistBuilder(now), groups, [TitleLine(title)] + rest)
         == Fold(ChecklistBuilder(now), groups + [Group(GroupId(now, |groups|), title, [])], rest)
  {
    assert ([TitleLine(title)] + rest)[1..] == rest;
  }

  lemma ItemFold(now: nat, groups: seq<ChecklistGroup>, text: string, rest: seq<LineKind>)
    requires groups != []
    ensures Fold(ChecklistBuilder(now), groups, [ItemLine(text)] + rest)
         == Fold(ChecklistBuilder(now), PushItem(groups, NewItem(ItemId(now, |groups[|groups| - 1].items|), text)), rest)
  {
    assert ([ItemLine(text)] + rest)[1..] == rest;
  }

  lemma FirstGroupFold(now: nat, a: string, x: string, y: string, rest: seq<LineKind>)
    ensures Fold(ChecklistBuilder(now), [], [TitleLine(a), ItemLine(x), ItemLine(y)] + rest)
         == Fold(ChecklistBuilder(now), [Group(GroupId(now, 0), a, [NewItem(ItemId(now, 0), x), NewItem(ItemId(now, 1), y)])], rest)
  {
    var x0, y1 := NewItem(ItemId(now, 0), x), NewItem(ItemId(now, 1), y);
    var g1 := [Group(GroupId(now, 0), a, [])];
    var g2 := [Group(GroupId(now, 0), a, [x0])];
    var g3 := [Group(GroupId(now, 0), a, [x0, y1])];
    var r2 := [ItemLine(y)] + rest;
    var r1 := [ItemLine(x)] + r2;
    assert [TitleLine(a), ItemLine(x), ItemLine(y)] + rest == [TitleLine(a)] + r1;
    TitleFold(now, [], a, r1);
    assert [] + [Group(GroupId(now, 0), a, [])] == g1;
    ItemFold(now, g1, x, r2);
    PushOnOne(g1[0], x0);
    assert g1[0].items + [x0] == [x0];
    ItemFold(now, g2, y, rest);
    PushOnOne(g2[0], y1);
    assert g2[0].items + [y1] == [x0, y1];
  }

  lemma PushOnOne(g: ChecklistGroup, item: ChecklistItem)
    ensures PushItem([g], item) == [g.(items := g.items + [item])]
  {
    assert [g][..0] == [];
  }

  lemma SecondGroupFold(now: nat, groups: seq<ChecklistGroup>, c: string, z: string, rest: seq<LineKind>)
    ensures Fold(ChecklistBuilder(now), groups, [TitleLine(c)] + ([ItemLine(z)] + rest))
         == Fold(ChecklistBuilder(now), groups + [Group(GroupId(now, |groups|), c, [NewItem(ItemId(now, 0), z)])], rest)
  {
    var z0 := NewItem(ItemId(now, 0), z);
    var started := groups + [Group(GroupId(now, |groups|), c, [])];
    TitleFold(now, groups, c, [ItemLine(z)] + rest);
    ItemFold(now, started, z, rest);
    assert PushItem(started, z0) == groups + [Group(GroupId(now, |groups|), c, [z0])] by {
      var pushed := PushItem(started, z0);
      assert started[..|groups|] == groups;
      assert started[|groups|].items + [z0] == [z0];
      assert pushed == pushed[..|groups|] + [pushed[|groups|]];
    }
  }

  lemma TwoGroupFold(a: string, c: string, x: string, y: string, z: string, now: nat)
    ensures Fold(ChecklistBuilder(now), [], [TitleLine(a), ItemLine(x), ItemLine(y), TitleLine(c), ItemLine(z)])
         == [Group(GroupId(now, 0), a, [NewItem(ItemId(now, 0), x), NewItem(ItemId(now, 1), y)]),
             Group(GroupId(now, 1), c, [NewItem(ItemId(now, 0), z)])]
  {
    var g := [Group(GroupId(now, 0), a, [NewItem(ItemId(now, 0), x), NewItem(ItemId(now, 1), y)])];
    assert [TitleLine(a), ItemLine(x), ItemLine(y), TitleLine(c), ItemLine(z)]
        == [TitleLine(a), ItemLine(x), ItemLine(y)] + [TitleLine(c), ItemLine(z)];
    FirstGroupFold(now, a, x, y, [TitleLine(c), ItemLine(z)]);
    SecondGroupFold(now, g, c, z, []);
    assert [TitleLine(c), ItemLine(z)] == [TitleLine(c)] + ([ItemLine(z)] + []);
  }

  /** The outline `## a`, `* **x:**`, `* y`, `## c`, `* z` (for instance
      `## Alpha`, `* **One:**`, `* Two`, `## Beta`, `* Three`) gives the two
      groups a[x, y] and c[z] in order; item ids restart in every group, so
      with one clock reading for the whole parse the first item of each
      group gets the same id. */
  lemma TwoGroupsExample(a: string, c: string, x: string, y: string, z: string, now: nat)
    requires SavableTitle(a) && SavableTitle(c) && SavableText(x) && SavableText(y) && SavableText(z)
    ensures var r := ParsedChecklist(TwoGroupText(a, c, x, y, z), now);
      r == [Group(GroupId(now, 0), a, [NewItem(ItemId(now, 0), x), NewItem(ItemId(now, 1), y)]),
            Group(GroupId(now, 1), c, [NewItem(ItemId(now, 0), z)])]
      && r[0].items[0].id == r[1].items[0].id
  {
    var g := Group(GroupId(now, 0), a, [NewItem(ItemId(now, 0), x), NewItem(ItemId(now, 1), y)]);
    var h := Group(GroupId(now, 1), c, [NewItem(ItemId(now, 0), z)]);
    var text := TwoGroupText(a, c, x, y, z);
    var lines := TwoGroupLines(a, c, x, y, z);
    var kinds := [TitleLine(a), ItemLine(x), ItemLine(y), TitleLine(c), ItemLine(z)];
    TwoGroupSplit(a, c, x, y, z);
    TwoGroupKinds(a, c, x, y, z);
    TwoGroupFold(a, c, x, y, z, now);
    ParseInStages(text, now, lines, kinds, [g, h]);
    NonEmptyPair(g, h);
  }

  lemma NonEmptyPair(g: ChecklistGroup, h: ChecklistGroup)
    requires g.items != [] && h.items != []
    ensures NonEmptyGroups([g, h]) == [g, h]
  {
    NonEmptyGroupsOfFull([g, h]);
  }

  lemma BulletLineSplit(x: string)
    requires NewlineFree(x)
    ensures Split("* " + x) == ["* " + x]
  {
    NewlineFreeAppend("* ", x);
    SplitJoin(["* " + x]);
  }

  lemma BulletLineKinds(x: string)
    requires SavableText(x)
    ensures Classify(ChecklistLineKind, ["* " + x]) == [ItemLine(x)]
  {
    ClassifyCons(ChecklistLineKind, ["* " + x]);
    BulletKind(x);
  }

  lemma DefaultGroupFold(x: string, now: nat)
    ensures Fold(ChecklistBuilder(now), [], [ItemLine(x)])
         == [Group(DefaultGroupId(now), DefaultGroupTitle, [NewItem(ItemId(now, 0), x)])]
  {
    var d := [Group(DefaultGroupId(now), DefaultGroupTitle, [])];
    ItemFold(now, d, x, []);
    assert [ItemLine(x)] + [] == [ItemLine(x)];
    assert Step(ChecklistBuilder(now), [], ItemLine(x)) == Step(ChecklistBuilder(now), d, ItemLine(x));
    assert PushItem(d, NewItem(ItemId(now, 0), x)) == [Group(DefaultGroupId(now), DefaultGroupTitle, [NewItem(ItemId(now, 0), x)])] by {
      assert d[0].items + [NewItem(ItemId(now, 0), x)] == [NewItem(ItemId(now, 0), x)];
    }
  }

  /** A bullet before any heading goes into the synthesised general group. */
  lemma DefaultGroupExample(x: string, now: nat)
    requires SavableText(x)
    ensures ParsedChecklist("* " + x, now)
         == [Group(DefaultGroupId(now), DefaultGroupTitle, [NewItem(ItemId(now, 0), x)])]
  {
    var r := [Group(DefaultGroupId(now), DefaultGroupTitle, [NewItem(ItemId(now, 0), x)])];
    BulletLineSplit(x);
    BulletLineKinds(x);
    DefaultGroupFold(x, now);
    ParseInStages("* " + x, now, ["* " + x], [ItemLine(x)], r);
    NonEmptyGroupsOfFull(r);
  }
}
