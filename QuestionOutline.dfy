/** The question outline: `parseMarkdownToQuestions` and the questions branch
    of `handleSaveToMarkdown` (App.tsx). */
module QuestionOutline {
  import opened Strings
  import opened Types
  import opened Outline

  const QuestionHeading := "### "
  const DefaultQuestionGroupTitle := "Perguntas Iniciais"

  function QuestionGroupId(now: nat, k: nat): string {
    "q-group-" + NatToString(now) + "-" + NatToString(k)
  }

  function DefaultQuestionGroupId(now: nat): string {
    "q-group-default-" + NatToString(now)
  }

  function QuestionItemId(now: nat, k: nat): string {
    "q-item-" + NatToString(now) + "-" + NatToString(k)
  }

  function NewQuestion(id: string, text: string): QuestionItem {
    QuestionItem(id, text, false)
  }

  function QuestionText(q: QuestionItem): string {
    q.text
  }

  function QuestionSections(gs: seq<QuestionGroup>): seq<Section> {
    Sections(gs, QuestionText)
  }

  predicate IsDigit(c: char) {
    '0' <= c <= '9'
  }

  /** The number of ASCII digits `s` starts with (what `\d+` matches). */
  function LeadingDigits(s: string): (n: nat)
    ensures n <= |s|
    ensures forall i :: 0 <= i < n ==> IsDigit(s[i])
    ensures n < |s| ==> !IsDigit(s[n])
  {
    if s != [] && IsDigit(s[0]) then 1 + LeadingDigits(s[1..]) else 0
  }

  /** The length of the match of `^(\d+\.|-|\*)\s` on `t`, if there is one:
      digits and a full stop, or a dash, or a star, then one whitespace
      character. */
  function MarkerLength(t: string): (r: Option<nat>)
    ensures r.Some? ==> 2 <= r.value <= |t| && IsWhitespace(t[r.value - 1])
  {
    var d := LeadingDigits(t);
    if d > 0 then
      if d + 2 <= |t| && t[d] == '.' && IsWhitespace(t[d + 1]) then Some(d + 2) else None
    else if 2 <= |t| && (t[0] == '-' || t[0] == '*') && IsWhitespace(t[1]) then Some(2)
    else None
  }

  /** A trimmed line that is not a question but continues the last one: not
      empty and not starting with `#`, `---` or `**Objetivo`. */
  predicate ContinuesQuestion(t: string) {
    t != [] && !StartsWith(t, "#") && !StartsWith(t, "---") && !StartsWith(t, "**Objetivo")
  }

  /** What a line of the question outline contributes: after trimming, a
      `### ` heading opens a group; a line with a list marker adds a question
      whose text is the rest with every `*` and `"` removed, trimmed, unless
      that is empty; a continuation line carries itself with every `"`
      removed; anything else is passed over. */
  function QuestionLineKind(line: string): LineKind {
    var t := Trim(line);
    if StartsWith(t, QuestionHeading) then TitleLine(Trim(t[4..]))
    else if MarkerLength(t).Some? then
      var text := Trim(DeleteChars(t[MarkerLength(t).value..], {'*', '"'}));
      if text != "" then ItemLine(text) else SkippedLine
    else if ContinuesQuestion(t) then ContinuationLine(DeleteChars(t, {'"'}))
    else SkippedLine
  }

  /** `lastItem.text += ` followed by a space and the continuation. */
  function ExtendQuestion(q: QuestionItem, more: string): QuestionItem {
    q.(text := q.text + " " + more)
  }

  function QuestionBuilder(now: nat): Builder<QuestionItem> {
    Builder(
      (k: nat) => QuestionGroupId(now, k),
      Group(DefaultQuestionGroupId(now), DefaultQuestionGroupTitle, []),
      (k: nat, text: string) => NewQuestion(QuestionItemId(now, k), text),
      ExtendQuestion)
  }

  function QuestionsFromLines(lines: seq<string>, now: nat): (r: seq<QuestionGroup>)
    ensures forall i :: 0 <= i < |r| ==> r[i].items != []
  {
    NonEmptyGroups(Fold(QuestionBuilder(now), [], Classify(QuestionLineKind, lines)))
  }

  /** What `parseMarkdownToQuestions(markdown)` returns when `Date.now()`
      reads `now`. No group it returns is empty. */
  function ParsedQuestions(markdown: string, now: nat): (r: seq<QuestionGroup>)
    ensures forall i :: 0 <= i < |r| ==> r[i].items != []
  {
    QuestionsFromLines(Split(markdown), now)
  }

  /** The parser as the application runs it, including the in-place append
      to the text of the last question of the current group. */
  method ParseQuestions(markdown: string, now: nat) returns (groups: seq<QuestionGroup>)
    ensures groups == ParsedQuestions(markdown, now)
  {
    var lines := Split(markdown);
    ghost var kinds := Classify(QuestionLineKind, lines);
    ghost var b := QuestionBuilder(now);
    var all: seq<QuestionGroup> := [];
    var i := 0;
    assert kinds[0..] == kinds;
    while i < |lines|
      invariant 0 <= i <= |lines|
      invariant Fold(b, all, kinds[i..]) == Fold(b, [], kinds)
    {
      assert kinds[i..][1..] == kinds[i + 1..];
      all := ReadQuestionLine(now, all, lines[i]);
      i := i + 1;
    }
    groups := NonEmptyGroups(all);
  }

  /** One iteration of the parser's loop: a heading pushes a new current
      group; a marked line adds a question to the current group, pushing
      `Perguntas Iniciais` first when there is none; a continuation line
      extends the last question of the current group, if it has one. */
  method ReadQuestionLine(now: nat, all: seq<QuestionGroup>, line: string) returns (next: seq<QuestionGroup>)
    ensures next == Step(QuestionBuilder(now), all, QuestionLineKind(line))
  {
    var trimmed := Trim(line);
    var marker := MarkerLength(trimmed);
    if StartsWith(trimmed, QuestionHeading) {
      var title := Trim(trimmed[4..]);
      next := all + [Group(QuestionGroupId(now, |all|), title, [])];
    } else if marker.Some? {
      var text := Trim(DeleteChars(trimmed[marker.value..], {'*', '"'}));
      if text != "" {
        next := PushQuestion(now, all, text);
      } else {
        next := all;
      }
    } else if ContinuesQuestion(trimmed) {
      next := ExtendLastQuestion(now, all, DeleteChars(trimmed, {'"'}));
    } else {
      next := all;
    }
  }

  /** `currentGroup.items.push(...)`, opening `Perguntas Iniciais` first when
      there is no current group. */
  method PushQuestion(now: nat, all: seq<QuestionGroup>, text: string) returns (next: seq<QuestionGroup>)
    ensures next == Step(QuestionBuilder(now), all, ItemLine(text))
  {
    next := all;
    if next == [] {
      next := [Group(DefaultQuestionGroupId(now), DefaultQuestionGroupTitle, [])];
    }
    var current := next[|next| - 1];
    var item := NewQuestion(QuestionItemId(now, |current.items|), text);
    next := next[..|next| - 1] + [current.(items := current.items + [item])];
  }

  /** `lastItem.text += ...` on the last question of the current group, when
      there is one. */
  method ExtendLastQuestion(now: nat, all: seq<QuestionGroup>, more: string) returns (next: seq<QuestionGroup>)
    ensures next == Step(QuestionBuilder(now), all, ContinuationLine(more))
  {
    next := all;
    if next != [] && next[|next| - 1].items != [] {
      var current := next[|next| - 1];
      var last := current.items[|current.items| - 1];
      var longer := last.(text := last.text + " " + more);
      next := next[..|next| - 1] + [current.(items := current.items[..|current.items| - 1] + [longer])];
    }
  }

  /** `handleSaveToMarkdown('questions')`: the markdown written for the groups. */
  function SaveQuestions(gs: seq<QuestionGroup>): string {
    OutlineMarkdown(QuestionHeading, QuestionSections(gs))
  }

  /** A line the question parser skips outright. */
  predicate IgnoredQuestionLine(line: string) {
    var t := Trim(line);
    !StartsWith(t, QuestionHeading) && MarkerLength(t).None? && !ContinuesQuestion(t)
  }

  /** Blank lines, other headings, rules and `**Objetivo` lines can be removed
      without changing the result, ids included. */
  lemma IgnoredQuestionLineIsInvisible(before: seq<string>, line: string, after: seq<string>, now: nat)
    requires IgnoredQuestionLine(line)
    ensures QuestionsFromLines(before + [line] + after, now) == QuestionsFromLines(before + after, now)
  {
    ClassifyAppend(QuestionLineKind, before + [line], after);
    ClassifyAppend(QuestionLineKind, before, [line]);
    ClassifyAppend(QuestionLineKind, before, after);
    assert Classify(QuestionLineKind, [line]) == [SkippedLine];
    SkippedIsInvisible(QuestionBuilder(now), Classify(QuestionLineKind, before), Classify(QuestionLineKind, after));
  }

  /** A continuation with no question to attach to is dropped: before any
      question has been read it changes nothing. */
  lemma OrphanContinuationIsDropped(more: string, rest: seq<LineKind>, now: nat)
    ensures Fold(QuestionBuilder(now), [], [ContinuationLine(more)] + rest) == Fold(QuestionBuilder(now), [], rest)
  {
    assert ([ContinuationLine(more)] + rest)[1..] == rest;
  }

  // ----- What the parser can produce -----

  predicate CleanQuestion(q: QuestionItem) {
    q.text != "" && NewlineFree(q.text) && '"' !in q.text && !q.asked
  }

  predicate CleanQuestionGroup(g: QuestionGroup) {
    IsTrimmed(g.title) && NewlineFree(g.title) && forall k :: 0 <= k < |g.items| ==> CleanQuestion(g.items[k])
  }

  predicate CleanQuestionKind(kind: LineKind) {
    match kind
    case TitleLine(title) => IsTrimmed(title) && NewlineFree(title)
    case ItemLine(text) => text != "" && NewlineFree(text) && '"' !in text && '*' !in text
    case ContinuationLine(more) => NewlineFree(more) && '"' !in more
    case SkippedLine => true
  }

  lemma SliceKeepsNewlineFree(s: string, k: nat)
    requires NewlineFree(s) && k <= |s|
    ensures NewlineFree(s[k..])
  {
    assert forall x :: x in s[k..] ==> x in s;
  }

  /** What follows a list marker loses every `*` and `"`. */
  lemma MarkedTextIsClean(rest: string)
    requires NewlineFree(rest)
    ensures var r := Trim(DeleteChars(rest, {'*', '"'}));
      NewlineFree(r) && '"' !in r && '*' !in r
  {
    var d := DeleteChars(rest, {'*', '"'});
    DeleteCharsRemoves(rest, {'*', '"'});
    TrimKeepsNewlineFree(d);
    TrimIsInfix(d);
    var r := Trim(d);
    var a := |d| - |TrimStart(d)|;
    forall k | 0 <= k < |r| ensures r[k] != '"' && r[k] != '*' {
      assert r[k] == d[a + k];
      assert d[a + k] in d;
    }
  }

  lemma QuestionLineKindIsClean(line: string)
    requires NewlineFree(line)
    ensures CleanQuestionKind(QuestionLineKind(line))
  {
    var t := Trim(line);
    TrimKeepsNewlineFree(line);
    if StartsWith(t, QuestionHeading) {
      SliceKeepsNewlineFree(t, 4);
      TrimKeepsNewlineFree(t[4..]);
    } else if MarkerLength(t).Some? {
      SliceKeepsNewlineFree(t, MarkerLength(t).value);
      MarkedTextIsClean(t[MarkerLength(t).value..]);
    } else if ContinuesQuestion(t) {
      DeleteCharsRemoves(t, {'"'});
    }
  }

  lemma QuestionStepKeepsClean(groups: seq<QuestionGroup>, kind: LineKind, now: nat)
    requires CleanQuestionKind(kind)
    requires forall i :: 0 <= i < |groups| ==> CleanQuestionGroup(groups[i])
    ensures var r := Step(QuestionBuilder(now), groups, kind);
      forall i :: 0 <= i < |r| ==> CleanQuestionGroup(r[i])
  {
    assert IsTrimmed(DefaultQuestionGroupTitle) && NewlineFree(DefaultQuestionGroupTitle);
    if kind.ContinuationLine? && groups != [] && groups[|groups| - 1].items != [] {
      var g := groups[|groups| - 1];
      var last := g.items[|g.items| - 1];
      var longer := ExtendQuestion(last, kind.text);
      assert CleanQuestion(last);
      assert longer.text == last.text + " " + kind.text;
      assert CleanQuestion(longer);
    }
  }

  lemma {:induction false} QuestionFoldKeepsClean(groups: seq<QuestionGroup>, kinds: seq<LineKind>, now: nat)
    requires forall i :: 0 <= i < |kinds| ==> CleanQuestionKind(kinds[i])
    requires forall i :: 0 <= i < |groups| ==> CleanQuestionGroup(groups[i])
    ensures forall i :: 0 <= i < |Fold(QuestionBuilder(now), groups, kinds)| ==>
              CleanQuestionGroup(Fold(QuestionBuilder(now), groups, kinds)[i])
    decreases |kinds|
  {
    if kinds != [] {
      var b := QuestionBuilder(now);
      QuestionStepKeepsClean(groups, kinds[0], now);
      QuestionFoldKeepsClean(Step(b, groups, kinds[0]), kinds[1..], now);
      assert Fold(b, groups, kinds) == Fold(b, Step(b, groups, kinds[0]), kinds[1..]);
    }
  }

  /** Whatever the input, every question group the parser returns has a
      trimmed single-line title and at least one question, and every
      question is not yet asked and has a non-empty single-line text with no
      `"` left in it. */
  lemma ParsedQuestionsAreClean(markdown: string, now: nat)
    ensures var r := ParsedQuestions(markdown, now);
      forall i :: 0 <= i < |r| ==> r[i].items != [] && CleanQuestionGroup(r[i])
  {
    var lines := Split(markdown);
    var kinds := Classify(QuestionLineKind, lines);
    forall i | 0 <= i < |kinds| ensures CleanQuestionKind(kinds[i]) {
      QuestionLineKindIsClean(lines[i]);
    }
    QuestionFoldKeepsClean([], kinds, now);
    var all := Fold(QuestionBuilder(now), [], kinds);
    var r := NonEmptyGroups(all);
    forall i | 0 <= i < |r| ensures CleanQuestionGroup(r[i]) {
      var j :| 0 <= j < |all| && all[j] == r[i];
    }
  }

  // ----- Saving and parsing back -----

  /** A question text that the outline form carries unchanged. */
  predicate SavableQuestion(x: string) {
    x != "" && IsTrimmed(x) && NewlineFree(x) && '*' !in x && '"' !in x
  }

  predicate SavableQuestions(ss: seq<Section>) {
    forall i :: 0 <= i < |ss| ==>
      SavableTitle(ss[i].0) && forall k :: 0 <= k < |ss[i].1| ==> SavableQuestion(ss[i].1[k])
  }

  lemma QuestionHeadingKind(title: string)
    requires SavableTitle(title)
    ensures QuestionLineKind(QuestionHeading + title) == TitleLine(title)
  {
    var line := QuestionHeading + title;
    assert IsTrimmed(line);
    TrimOfTrimmed(line);
    assert line[4..] == title;
    TrimOfTrimmed(title);
  }

  lemma QuestionBulletKind(x: string)
    requires SavableQuestion(x)
    ensures QuestionLineKind("* " + x) == ItemLine(x)
  {
    var t := "* " + x;
    TrimOfTrimmed(t);
    assert !StartsWith(t, QuestionHeading) by { assert t[0] != QuestionHeading[0]; }
    assert MarkerLength(t) == Some(2);
    assert t[2..] == x;
    DeleteCharsNothing(x, {'*', '"'});
    TrimOfTrimmed(x);
  }

  lemma QuestionBlankKinds()
    ensures QuestionLineKind("") == SkippedLine && QuestionLineKind("---") == SkippedLine
  {
    assert Trim("---") == "---";
    assert !StartsWith("---", QuestionHeading) by { assert "---"[0] != QuestionHeading[0]; }
    assert MarkerLength("---") == None;
    assert StartsWith("---", "---");
  }

  lemma SavedQuestionLinesClassify(ss: seq<Section>)
    requires ss != [] && SavableQuestions(ss)
    ensures Classify(QuestionLineKind, Split(OutlineMarkdown(QuestionHeading, ss))) == OutlineKinds(ss)
  {
    var lines := OutlineLines(QuestionHeading, ss);
    OutlineAsLines(QuestionHeading, ss);
    OutlineLinesNewlineFree(QuestionHeading, ss);
    SplitJoin(lines);
    QuestionBlankKinds();
    forall i | 0 <= i < |ss| ensures QuestionLineKind(QuestionHeading + ss[i].0) == TitleLine(ss[i].0) {
      QuestionHeadingKind(ss[i].0);
    }
    forall i, k | 0 <= i < |ss| && 0 <= k < |ss[i].1|
      ensures QuestionLineKind("* " + ss[i].1[k]) == ItemLine(ss[i].1[k])
    {
      QuestionBulletKind(ss[i].1[k]);
    }
    ClassifyOutline(QuestionLineKind, QuestionHeading, ss);
  }

  lemma SavedQuestionsFold(gs: seq<QuestionGroup>, now: nat)
    requires SavableQuestions(QuestionSections(gs))
    ensures QuestionSections(Fold(QuestionBuilder(now), [], Classify(QuestionLineKind, Split(SaveQuestions(gs)))))
         == QuestionSections(gs)
  {
    var ss := QuestionSections(gs);
    if ss == [] {
      QuestionBlankKinds();
      assert Split(SaveQuestions(gs)) == [""];
      assert Classify(QuestionLineKind, [""]) == [SkippedLine];
    } else {
      SavedQuestionLinesClassify(ss);
      FoldOutline(QuestionBuilder(now), QuestionText, [], ss);
    }
  }

  /** Saving the questions and parsing the markdown back gives the same
      titles and question texts in the same order, except that groups without
      questions disappear; ids are generated afresh and `asked` is reset. */
  lemma SaveThenParseQuestions(gs: seq<QuestionGroup>, now: nat)
    requires SavableQuestions(QuestionSections(gs))
    ensures QuestionSections(ParsedQuestions(SaveQuestions(gs), now))
         == NonEmptySections(QuestionSections(gs))
  {
    SavedQuestionsFold(gs, now);
    SectionsOfNonEmpty(Fold(QuestionBuilder(now), [], Classify(QuestionLineKind, Split(SaveQuestions(gs)))), QuestionText);
  }

  // ----- An example: a question broken over two lines -----

  /** The first line of the example, `1. **x** "y`. */
  function MarkedLine(x: string, y: string): string {
    "1. **" + x + "** \"" + y
  }

  /** A continuation that starts with a small letter and closes the quote. */
  function ClosingLine(z: string): string {
    z + "\""
  }

  lemma GapDeleted()
    ensures DeleteChars("** \"", {'*', '"'}) == " "
  {
    var cs := {'*', '"'};
    var stars, space, quote := "**", " ", "\"";
    assert "** \"" == stars + (space + quote);
    DeleteCharsAppend(stars, space + quote, cs);
    DeleteCharsAppend(space, quote, cs);
    DeleteCharsAll(stars, cs);
    DeleteCharsAll(quote, cs);
    DeleteCharsKept(' ', cs);
  }

  lemma MarkupAndQuoteDeleted(x: string, y: string)
    requires '*' !in x && '"' !in x && '*' !in y && '"' !in y
    ensures DeleteChars("**" + (x + ("** \"" + y)), {'*', '"'}) == x + " " + y
  {
    var cs := {'*', '"'};
    DeleteAround("**", x, "** \"", y, cs);
    GapDeleted();
    DeleteCharsAll("**", cs);
    DeleteCharsNothing(x, cs);
    DeleteCharsNothing(y, cs);
  }

  lemma MarkedLineKind(x: string, y: string)
    requires SavableQuestion(x) && SavableQuestion(y)
    ensures QuestionLineKind(MarkedLine(x, y)) == ItemLine(x + " " + y)
  {
    var t := MarkedLine(x, y);
    assert IsTrimmed(t) by { assert t[|t| - 1] == y[|y| - 1]; }
    TrimOfTrimmed(t);
    assert !StartsWith(t, QuestionHeading) by { assert t[0] != QuestionHeading[0]; }
    assert LeadingDigits(t) == 1 by {
      assert t[1..][0] == '.';
      assert LeadingDigits(t[1..]) == 0;
    }
    assert MarkerLength(t) == Some(3);
    var cs := {'*', '"'};
    assert t[3..] == "**" + (x + ("** \"" + y));
    assert DeleteChars(t[3..], cs) == x + " " + y by { MarkupAndQuoteDeleted(x, y); }
    var text := x + " " + y;
    assert IsTrimmed(text) by { assert text[0] == x[0] && text[|text| - 1] == y[|y| - 1]; }
    TrimOfTrimmed(text);
  }

  lemma ClosingLineKind(z: string)
    requires SavableQuestion(z) && 'a' <= z[0] <= 'z'
    ensures QuestionLineKind(ClosingLine(z)) == ContinuationLine(z)
  {
    var t := ClosingLine(z);
    assert IsTrimmed(t) by { assert t[0] == z[0]; }
    TrimOfTrimmed(t);
    assert t[0] == z[0];
    assert !StartsWith(t, QuestionHeading) && !StartsWith(t, "#") && !StartsWith(t, "---")
      && !StartsWith(t, "**Objetivo");
    assert LeadingDigits(t) == 0;
    assert MarkerLength(t) == None;
    assert DeleteChars(t, {'"'}) == z by {
      DeleteCharsAppend(z, "\"", {'"'});
      DeleteCharsAll("\"", {'"'});
      DeleteCharsNothing(z, {'"'});
    }
  }

  lemma TwoLineSplit(x: string, y: string, z: string)
    requires NewlineFree(x) && NewlineFree(y) && NewlineFree(z)
    ensures Split(MarkedLine(x, y) + "\n" + ClosingLine(z)) == [MarkedLine(x, y), ClosingLine(z)]
  {
    var lines := [MarkedLine(x, y), ClosingLine(z)];
    assert Join(lines, "\n") == MarkedLine(x, y) + "\n" + ClosingLine(z) by {
      assert lines[1..] == [ClosingLine(z)];
    }
    assert NewlineFree("1. **") && NewlineFree("** \"") && NewlineFree("\"");
    NewlineFreeAppend("1. **", x);
    NewlineFreeAppend("1. **" + x, "** \"");
    NewlineFreeAppend("1. **" + x + "** \"", y);
    NewlineFreeAppend(z, "\"");
    SplitJoin(lines);
  }

  lemma TwoLineKinds(x: string, y: string, z: string)
    requires SavableQuestion(x) && SavableQuestion(y) && SavableQuestion(z) && 'a' <= z[0] <= 'z'
    ensures Classify(QuestionLineKind, [MarkedLine(x, y), ClosingLine(z)])
         == [ItemLine(x + " " + y), ContinuationLine(z)]
  {
    var lines := [MarkedLine(x, y), ClosingLine(z)];
    ClassifyCons(QuestionLineKind, lines);
    ClassifyCons(QuestionLineKind, lines[1..]);
    assert lines[1..][1..] == [];
    MarkedLineKind(x, y);
    ClosingLineKind(z);
  }

  lemma TwoLineFold(first: string, more: string, now: nat)
    ensures Fold(QuestionBuilder(now), [], [ItemLine(first), ContinuationLine(more)])
         == [Group(DefaultQuestionGroupId(now), DefaultQuestionGroupTitle,
                   [NewQuestion(QuestionItemId(now, 0), first + " " + more)])]
  {
    var b := QuestionBuilder(now);
    var q := NewQuestion(QuestionItemId(now, 0), first);
    var d := Group(DefaultQuestionGroupId(now), DefaultQuestionGroupTitle, []);
    var g1 := [d.(items := [q])];
    assert Step(b, [], ItemLine(first)) == g1 by {
      assert PushItem([d], q) == [d.(items := d.items + [q])];
      assert d.items + [q] == [q];
    }
    var e := ExtendQuestion(q, more);
    var g2 := [d.(items := [e])];
    assert Step(b, g1, ContinuationLine(more)) == g2 by {
      assert b.extend(q, more) == e;
      assert g1[..0] == [];
      assert g1[0].items[..0] + [e] == [e];
    }
    var kinds := [ItemLine(first), ContinuationLine(more)];
    assert kinds[1..] == [ContinuationLine(more)] && kinds[1..][1..] == [];
    assert Fold(b, g1, kinds[1..]) == Fold(b, g2, []);
    assert Fold(b, [], kinds) == Fold(b, g1, kinds[1..]);
  }

  /** A numbered question whose text is opened with `"` and continued on the
      next line, such as `1. **[X]** "First part` followed by `of question?"`,
      becomes one question `[X] First part of question?`: the bold markup
      and the quotes go, and the two parts are joined by a space. Before any
      `### ` heading the question lands in the default group. */
  lemma ContinuedQuestionExample(x: string, y: string, z: string, now: nat)
    requires SavableQuestion(x) && SavableQuestion(y) && SavableQuestion(z) && 'a' <= z[0] <= 'z'
    ensures ParsedQuestions(MarkedLine(x, y) + "\n" + ClosingLine(z), now)
         == [Group(DefaultQuestionGroupId(now), DefaultQuestionGroupTitle,
                   [NewQuestion(QuestionItemId(now, 0), x + " " + y + " " + z)])]
  {
    var markdown := MarkedLine(x, y) + "\n" + ClosingLine(z);
    var lines := [MarkedLine(x, y), ClosingLine(z)];
    var kinds := [ItemLine(x + " " + y), ContinuationLine(z)];
    var r := [Group(DefaultQuestionGroupId(now), DefaultQuestionGroupTitle,
                    [NewQuestion(QuestionItemId(now, 0), x + " " + y + " " + z)])];
    TwoLineSplit(x, y, z);
    TwoLineKinds(x, y, z);
    TwoLineFold(x + " " + y, z, now);
    assert ParsedQuestions(markdown, now) == NonEmptyGroups(Fold(QuestionBuilder(now), [], kinds));
    NonEmptyGroupsOfFull(r);
  }
}
