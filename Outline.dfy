/** What the checklist and question outlines have in common: the final filter
    of the parsers, the item push into the current group, and the outline text
    the save handler writes (App.tsx, handleSaveToMarkdown). */
module Outline {
  import opened Strings
  import opened Types

  /** A group as the outline text carries it: its title and its item texts. */
  type Section = (string, seq<string>)

  function SectionOf<I>(g: Group<I>, text: I -> string): (s: Section)
    ensures s.0 == g.title && |s.1| == |g.items|
    ensures forall k :: 0 <= k < |g.items| ==> s.1[k] == text(g.items[k])
  {
    (g.title, seq(|g.items|, k requires 0 <= k < |g.items| => text(g.items[k])))
  }

  function Sections<I>(gs: seq<Group<I>>, text: I -> string): (ss: seq<Section>)
    ensures |ss| == |gs|
  {
    if gs == [] then [] else [SectionOf(gs[0], text)] + Sections(gs[1..], text)
  }

  lemma {:induction false} SectionsAppend<I>(a: seq<Group<I>>, b: seq<Group<I>>, text: I -> string)
    ensures Sections(a + b, text) == Sections(a, text) + Sections(b, text)
    decreases |a|
  {
    if a == [] {
      assert a + b == b;
    } else {
      assert (a + b)[1..] == a[1..] + b;
      SectionsAppend(a[1..], b, text);
    }
  }

  /** `groups.filter(group => group.items.length > 0)`. */
  function NonEmptyGroups<I>(gs: seq<Group<I>>): (r: seq<Group<I>>)
    ensures |r| <= |gs|
    ensures forall i :: 0 <= i < |r| ==> r[i] in gs && r[i].items != []
    ensures forall i :: 0 <= i < |gs| && gs[i].items != [] ==> gs[i] in r
  {
    if gs == [] then []
    else (if gs[0].items != [] then [gs[0]] else []) + NonEmptyGroups(gs[1..])
  }

  /** The filter keeps a list without empty groups as it is. */
  lemma {:induction false} NonEmptyGroupsOfFull<I>(gs: seq<Group<I>>)
    requires forall i :: 0 <= i < |gs| ==> gs[i].items != []
    ensures NonEmptyGroups(gs) == gs
    decreases |gs|
  {
    if gs != [] {
      NonEmptyGroupsOfFull(gs[1..]);
      assert [gs[0]] + gs[1..] == gs;
    }
  }

  /** The same filter on sections. */
  function NonEmptySections(ss: seq<Section>): (r: seq<Section>)
    ensures forall s :: s in r <==> s in ss && s.1 != []
  {
    if ss == [] then []
    else (if ss[0].1 != [] then [ss[0]] else []) + NonEmptySections(ss[1..])
  }

  /** Filtering groups and then reducing them to sections is reducing and then
      filtering: a group is dropped exactly when its section has no texts. */
  lemma {:induction false} SectionsOfNonEmpty<I>(gs: seq<Group<I>>, text: I -> string)
    ensures Sections(NonEmptyGroups(gs), text) == NonEmptySections(Sections(gs, text))
    decreases |gs|
  {
    if gs != [] {
      SectionsOfNonEmpty(gs[1..], text);
      assert Sections(gs, text) == [SectionOf(gs[0], text)] + Sections(gs[1..], text);
      var head := if gs[0].items != [] then [gs[0]] else [];
      SectionsAppend(head, NonEmptyGroups(gs[1..]), text);
    }
  }

  /** `currentGroup.items.push(item)` where the current group is the last one
      pushed onto `groups`. */
  function PushItem<I>(gs: seq<Group<I>>, item: I): (r: seq<Group<I>>)
    requires gs != []
    ensures |r| == |gs| && r[..|gs| - 1] == gs[..|gs| - 1]
    ensures r[|gs| - 1] == gs[|gs| - 1].(items := gs[|gs| - 1].items + [item])
  {
    gs[..|gs| - 1] + [gs[|gs| - 1].(items := gs[|gs| - 1].items + [item])]
  }

  /** What one trimmed line of an outline means to a parser: it opens a group,
      adds an item, continues the last item's text, or is passed over. */
  datatype LineKind =
    | TitleLine(title: string)
    | ItemLine(text: string)
    | ContinuationLine(text: string)
    | SkippedLine

  /** What a parser fills in when it builds groups: the id of the group opened
      as the `k`-th one, the group opened for items that come before any
      heading, the item made from a text when the current group already has
      `k` items, and how a continuation line extends an item. `Date.now()` is
      folded into these. */
  datatype Builder<!I> = Builder(
    groupId: nat -> string,
    defaultGroup: Group<I>,
    newItem: (nat, string) -> I,
    extend: (I, string) -> I)

  /** One iteration of a parser's loop. The current group is always the last
      group in `groups`: every group the loop opens is pushed at once, and
      none is opened without being pushed. */
  function Step<I>(b: Builder<I>, groups: seq<Group<I>>, kind: LineKind): seq<Group<I>> {
    match kind
    case TitleLine(title) => groups + [Group(b.groupId(|groups|), title, [])]
    case ItemLine(text) =>
      var gs := if groups == [] then [b.defaultGroup] else groups;
      PushItem(gs, b.newItem(|gs[|gs| - 1].items|, text))
    case ContinuationLine(text) =>
      if groups != [] && groups[|groups| - 1].items != [] then
        var g := groups[|groups| - 1];
        var last := g.items[|g.items| - 1];
        groups[..|groups| - 1] + [g.(items := g.items[..|g.items| - 1] + [b.extend(last, text)])]
      else groups
    case SkippedLine => groups
  }

  function Fold<I>(b: Builder<I>, groups: seq<Group<I>>, kinds: seq<LineKind>): seq<Group<I>>
    decreases |kinds|
  {
    if kinds == [] then groups else Fold(b, Step(b, groups, kinds[0]), kinds[1..])
  }

  /** An item line adds to the last group once there is one. */
  lemma StepItem<I>(b: Builder<I>, groups: seq<Group<I>>, text: string)
    requires groups != []
    ensures var g := groups[|groups| - 1];
      Step(b, groups, ItemLine(text))
        == groups[..|groups| - 1] + [g.(items := g.items + [b.newItem(|g.items|, text)])]
  {
  }

  lemma {:induction false} FoldAppend<I>(b: Builder<I>, groups: seq<Group<I>>, x: seq<LineKind>, y: seq<LineKind>)
    ensures Fold(b, groups, x + y) == Fold(b, Fold(b, groups, x), y)
    decreases |x|
  {
    if x == [] {
      assert x + y == y;
    } else {
      assert (x + y)[1..] == x[1..] + y;
      FoldAppend(b, Step(b, groups, x[0]), x[1..], y);
    }
  }

  /** A passed-over line can be cut out of the input without any effect on
      the result, ids included: the parsers degrade by omission. */
  lemma SkippedIsInvisible<I>(b: Builder<I>, x: seq<LineKind>, y: seq<LineKind>)
    ensures Fold(b, [], x + [SkippedLine] + y) == Fold(b, [], x + y)
  {
    FoldAppend(b, [], x + [SkippedLine], y);
    FoldAppend(b, [], x, [SkippedLine]);
    FoldAppend(b, [], x, y);
  }

  /** The kinds of a sequence of lines, given a parser's classifier. */
  function Classify(classify: string -> LineKind, lines: seq<string>): (r: seq<LineKind>)
    ensures |r| == |lines| && forall i :: 0 <= i < |lines| ==> r[i] == classify(lines[i])
  {
    seq(|lines|, i requires 0 <= i < |lines| => classify(lines[i]))
  }

  lemma ClassifyCons(classify: string -> LineKind, lines: seq<string>)
    requires lines != []
    ensures Classify(classify, lines) == [classify(lines[0])] + Classify(classify, lines[1..])
  {
  }

  lemma ClassifyAppend(classify: string -> LineKind, a: seq<string>, b: seq<string>)
    ensures Classify(classify, a + b) == Classify(classify, a) + Classify(classify, b)
  {
  }

  /** The markdown the save handler writes: per group the heading marker and
      the title, a blank line and one `* ` bullet per item; groups separated by
      a blank line, a rule and a blank line. */
  function OutlineMarkdown(heading: string, ss: seq<Section>): string {
    Join(SectionBlocks(heading, ss), "\n\n---\n\n")
  }

  function SectionBlocks(heading: string, ss: seq<Section>): (r: seq<string>)
    ensures |r| == |ss| && forall i :: 0 <= i < |ss| ==> r[i] == SectionBlock(heading, ss[i])
  {
    seq(|ss|, i requires 0 <= i < |ss| => SectionBlock(heading, ss[i]))
  }

  function SectionBlock(heading: string, s: Section): string {
    heading + s.0 + "\n\n" + Join(BulletLines(s.1), "\n")
  }

  function BulletLines(texts: seq<string>): (r: seq<string>)
    ensures |r| == |texts| && forall i :: 0 <= i < |texts| ==> r[i] == "* " + texts[i]
  {
    seq(|texts|, i requires 0 <= i < |texts| => "* " + texts[i])
  }

  /** The lines of one section block; a section without items still ends in an
      empty line, because the block then ends in a blank line. */
  function BlockLines(heading: string, s: Section): seq<string> {
    [heading + s.0, ""] + (if s.1 == [] then [""] else BulletLines(s.1))
  }

  const RuleLines: seq<string> := ["", "---", ""]

  function OutlineLines(heading: string, ss: seq<Section>): seq<string>
    decreases |ss|
  {
    if ss == [] then []
    else if |ss| == 1 then BlockLines(heading, ss[0])
    else BlockLines(heading, ss[0]) + RuleLines + OutlineLines(heading, ss[1..])
  }

  lemma BlockAsLines(heading: string, s: Section)
    ensures SectionBlock(heading, s) == Join(BlockLines(heading, s), "\n")
  {
    var tail := if s.1 == [] then [""] else BulletLines(s.1);
    JoinAppend([heading + s.0, ""], tail, "\n");
    assert Join(tail, "\n") == Join(BulletLines(s.1), "\n");
  }

  /** The saved markdown is the newline-join of the outline lines. */
  lemma {:induction false} OutlineAsLines(heading: string, ss: seq<Section>)
    requires ss != []
    ensures OutlineMarkdown(heading, ss) == Join(OutlineLines(heading, ss), "\n")
    decreases |ss|
  {
    BlockAsLines(heading, ss[0]);
    if |ss| > 1 {
      OutlineAsLines(heading, ss[1..]);
      OutlineAsLinesCons(heading, ss);
    }
  }

  lemma OutlineAsLinesCons(heading: string, ss: seq<Section>)
    requires |ss| > 1
    requires OutlineMarkdown(heading, ss[1..]) == Join(OutlineLines(heading, ss[1..]), "\n")
    ensures OutlineMarkdown(heading, ss) == Join(OutlineLines(heading, ss), "\n")
  {
    var blocks := SectionBlocks(heading, ss);
    BlockAsLines(heading, ss[0]);
    assert blocks[1..] == SectionBlocks(heading, ss[1..]);
    var first := BlockLines(heading, ss[0]);
    var rest := OutlineLines(heading, ss[1..]);
    var x, y := Join(first, "\n"), Join(rest, "\n");
    assert OutlineMarkdown(heading, ss) == x + "\n\n---\n\n" + y;
    JoinAppend(first, RuleLines + rest, "\n");
    JoinAppend(RuleLines, rest, "\n");
    assert Join(RuleLines, "\n") == "\n---\n";
    assert first + RuleLines + rest == first + (RuleLines + rest);
    assert Join(OutlineLines(heading, ss), "\n") == x + "\n" + ("\n---\n" + "\n" + y);
  }

  predicate NewlineFree(s: string) {
    '\n' !in s
  }

  lemma NewlineFreeAppend(a: string, b: string)
    ensures NewlineFree(a + b) == (NewlineFree(a) && NewlineFree(b))
  {
    if NewlineFree(a) && NewlineFree(b) {
      forall i | 0 <= i < |a + b| ensures (a + b)[i] != '\n' {
        if i < |a| {
          assert (a + b)[i] == a[i];
        } else {
          assert (a + b)[i] == b[i - |a|];
        }
      }
    } else if !NewlineFree(a) {
      var i :| 0 <= i < |a| && a[i] == '\n';
      assert (a + b)[i] == '\n';
    } else {
      var i :| 0 <= i < |b| && b[i] == '\n';
      assert (a + b)[|a| + i] == '\n';
    }
  }

  lemma TrimKeepsNewlineFree(s: string)
    requires NewlineFree(s)
    ensures NewlineFree(Trim(s))
  {
    TrimIsInfix(s);
    var a := |s| - |TrimStart(s)|;
    var r := Trim(s);
    forall k | 0 <= k < |r| ensures r[k] != '\n' {
      assert r[k] == s[a + k];
    }
  }

  /** A title the outline form carries unchanged: the heading line is the
      marker and the title, so an empty title would leave a bare marker. */
  predicate SavableTitle(title: string) {
    title != "" && IsTrimmed(title) && NewlineFree(title)
  }

  lemma {:induction false} OutlineLinesNewlineFree(heading: string, ss: seq<Section>)
    requires NewlineFree(heading)
    requires forall i :: 0 <= i < |ss| ==> NewlineFree(ss[i].0) && forall k :: 0 <= k < |ss[i].1| ==> NewlineFree(ss[i].1[k])
    ensures forall i :: 0 <= i < |OutlineLines(heading, ss)| ==> NewlineFree(OutlineLines(heading, ss)[i])
    decreases |ss|
  {
    if ss != [] {
      assert NewlineFree(heading + ss[0].0);
      var bl := BlockLines(heading, ss[0]);
      forall k | 0 <= k < |ss[0].1| ensures NewlineFree("* " + ss[0].1[k]) {
        assert NewlineFree(ss[0].1[k]);
      }
      assert forall i :: 0 <= i < |bl| ==> NewlineFree(bl[i]);
      if |ss| > 1 {
        OutlineLinesNewlineFree(heading, ss[1..]);
      }
    }
  }

  // ----- The saved outline as a parser reads it back -----

  function ItemKinds(texts: seq<string>): (r: seq<LineKind>)
    ensures |r| == |texts| && forall i :: 0 <= i < |texts| ==> r[i] == ItemLine(texts[i])
  {
    seq(|texts|, i requires 0 <= i < |texts| => ItemLine(texts[i]))
  }

  /** The kinds of the lines of one section block, when the heading line opens
      the section, each bullet adds its text and blank lines are passed over. */
  function BlockKinds(s: Section): seq<LineKind> {
    [TitleLine(s.0), SkippedLine] + (if s.1 == [] then [SkippedLine] else ItemKinds(s.1))
  }

  const RuleKinds: seq<LineKind> := [SkippedLine, SkippedLine, SkippedLine]

  function OutlineKinds(ss: seq<Section>): seq<LineKind>
    decreases |ss|
  {
    if ss == [] then []
    else if |ss| == 1 then BlockKinds(ss[0])
    else BlockKinds(ss[0]) + RuleKinds + OutlineKinds(ss[1..])
  }

  /** A classifier that reads each heading line back as its title, each bullet
      line as its text, and the blank and rule lines as nothing, reads the
      whole outline as `OutlineKinds`. */
  lemma {:induction false} ClassifyOutline(classify: string -> LineKind, heading: string, ss: seq<Section>)
    requires classify("") == SkippedLine && classify("---") == SkippedLine
    requires forall i :: 0 <= i < |ss| ==> classify(heading + ss[i].0) == TitleLine(ss[i].0)
    requires forall i, k :: 0 <= i < |ss| && 0 <= k < |ss[i].1| ==> classify("* " + ss[i].1[k]) == ItemLine(ss[i].1[k])
    ensures Classify(classify, OutlineLines(heading, ss)) == OutlineKinds(ss)
    decreases |ss|
  {
    if ss != [] {
      ClassifyBlock(classify, heading, ss[0]);
      if |ss| > 1 {
        ClassifyOutline(classify, heading, ss[1..]);
        ClassifyAppend(classify, BlockLines(heading, ss[0]), RuleLines + OutlineLines(heading, ss[1..]));
        ClassifyAppend(classify, RuleLines, OutlineLines(heading, ss[1..]));
        assert Classify(classify, RuleLines) == RuleKinds;
      }
    }
  }

  /** The same for the lines of one section block. */
  lemma ClassifyBlock(classify: string -> LineKind, heading: string, s: Section)
    requires classify("") == SkippedLine
    requires classify(heading + s.0) == TitleLine(s.0)
    requires forall k :: 0 <= k < |s.1| ==> classify("* " + s.1[k]) == ItemLine(s.1[k])
    ensures Classify(classify, BlockLines(heading, s)) == BlockKinds(s)
  {
    var tail := if s.1 == [] then [""] else BulletLines(s.1);
    var tailKinds := if s.1 == [] then [SkippedLine] else ItemKinds(s.1);
    ClassifyAppend(classify, [heading + s.0, ""], tail);
    assert Classify(classify, [heading + s.0, ""]) == [TitleLine(s.0), SkippedLine];
    forall k | 0 <= k < |tail| ensures Classify(classify, tail)[k] == tailKinds[k] {
      if s.1 != [] {
        assert classify("* " + s.1[k]) == ItemLine(s.1[k]);
      }
    }
    assert Classify(classify, tail) == tailKinds;
  }

  lemma SectionOfPush<I>(g: Group<I>, item: I, text: I -> string)
    ensures SectionOf(g.(items := g.items + [item]), text) == (g.title, SectionOf(g, text).1 + [text(item)])
  {
    var r := SectionOf(g.(items := g.items + [item]), text);
    assert r.1 == SectionOf(g, text).1 + [text(item)];
  }

  lemma SectionsOfLast<I>(groups: seq<Group<I>>, text: I -> string)
    requires groups != []
    ensures var n := |groups|;
      Sections(groups, text) == Sections(groups[..n - 1], text) + [SectionOf(groups[n - 1], text)]
  {
    var n := |groups|;
    assert groups == groups[..n - 1] + [groups[n - 1]];
    SectionsAppend(groups[..n - 1], [groups[n - 1]], text);
  }

  /** Folding the kinds of one item bullet after another appends the texts, in
      order, to the last group, when the builder's items carry their text. */
  lemma {:induction false} FoldItems<I>(b: Builder<I>, text: I -> string, groups: seq<Group<I>>, texts: seq<string>)
    requires groups != []
    requires forall k: nat, x :: text(b.newItem(k, x)) == x
    ensures var n := |groups|;
      Sections(Fold(b, groups, ItemKinds(texts)), text)
        == Sections(groups[..n - 1], text) + [(groups[n - 1].title, SectionOf(groups[n - 1], text).1 + texts)]
    decreases |texts|
  {
    var n := |groups|;
    var last := groups[n - 1];
    if texts == [] {
      SectionsOfLast(groups, text);
      assert SectionOf(last, text).1 + texts == SectionOf(last, text).1;
    } else {
      var item := b.newItem(|last.items|, texts[0]);
      var next := PushItem(groups, item);
      FoldFirstItem(b, groups, texts);
      FoldItems(b, text, next, texts[1..]);
      PushedSection(groups, item, text);
      var before := SectionOf(last, text).1;
      AppendAssoc(before, [texts[0]], texts[1..]);
      assert [texts[0]] + texts[1..] == texts;
    }
  }

  /** Pushing an item leaves the sections of all groups but the last alone
      and adds the item's text to the last one. */
  lemma PushedSection<I>(groups: seq<Group<I>>, item: I, text: I -> string)
    requires groups != []
    ensures var n := |groups|; var next := PushItem(groups, item);
      Sections(next[..n - 1], text) == Sections(groups[..n - 1], text)
      && next[n - 1].title == groups[n - 1].title
      && SectionOf(next[n - 1], text).1 == SectionOf(groups[n - 1], text).1 + [text(item)]
  {
    SectionOfPush(groups[|groups| - 1], item, text);
  }

  lemma FoldFirstItem<I>(b: Builder<I>, groups: seq<Group<I>>, texts: seq<string>)
    requires groups != [] && texts != []
    ensures Fold(b, groups, ItemKinds(texts))
         == Fold(b, PushItem(groups, b.newItem(|groups[|groups| - 1].items|, texts[0])), ItemKinds(texts[1..]))
  {
    assert ItemKinds(texts)[0] == ItemLine(texts[0]);
    assert ItemKinds(texts)[1..] == ItemKinds(texts[1..]);
  }

  lemma {:induction false} FoldBlock<I>(b: Builder<I>, text: I -> string, groups: seq<Group<I>>, s: Section)
    requires forall k: nat, x :: text(b.newItem(k, x)) == x
    ensures Sections(Fold(b, groups, BlockKinds(s)), text) == Sections(groups, text) + [s]
  {
    var opening := Group(b.groupId(|groups|), s.0, []);
    var afterTitle := groups + [opening];
    var tail := if s.1 == [] then [SkippedLine] else ItemKinds(s.1);
    FoldAppend(b, groups, [TitleLine(s.0), SkippedLine], tail);
    assert Fold(b, groups, [TitleLine(s.0), SkippedLine]) == afterTitle by {
      assert [TitleLine(s.0), SkippedLine][1..] == [SkippedLine];
      assert Fold(b, afterTitle, [SkippedLine]) == afterTitle;
    }
    SectionsAppend(groups, [opening], text);
    assert Sections([opening], text) == [(s.0, [])];
    if s.1 == [] {
      assert Fold(b, afterTitle, tail) == afterTitle;
    } else {
      FoldItems(b, text, afterTitle, s.1);
      assert afterTitle[..|afterTitle| - 1] == groups;
      assert SectionOf(opening, text).1 + s.1 == s.1;
    }
  }

  lemma {:induction false} SkippedLinesFold<I>(b: Builder<I>, groups: seq<Group<I>>, kinds: seq<LineKind>)
    requires forall i :: 0 <= i < |kinds| ==> kinds[i] == SkippedLine
    ensures Fold(b, groups, kinds) == groups
    decreases |kinds|
  {
    if kinds != [] {
      SkippedLinesFold(b, groups, kinds[1..]);
    }
  }

  lemma FoldPastRule<I>(b: Builder<I>, groups: seq<Group<I>>, ss: seq<Section>)
    requires |ss| > 1
    ensures Fold(b, groups, OutlineKinds(ss)) == Fold(b, Fold(b, groups, BlockKinds(ss[0])), OutlineKinds(ss[1..]))
  {
    var first := BlockKinds(ss[0]);
    var g1 := Fold(b, groups, first);
    FoldAppend(b, groups, first, RuleKinds + OutlineKinds(ss[1..]));
    FoldAppend(b, g1, RuleKinds, OutlineKinds(ss[1..]));
    SkippedLinesFold(b, g1, RuleKinds);
    assert first + RuleKinds + OutlineKinds(ss[1..]) == first + (RuleKinds + OutlineKinds(ss[1..]));
  }

  /** One section block, then the rule, then the rest of the outline. */
  lemma FoldOutlineCons<I>(b: Builder<I>, text: I -> string, groups: seq<Group<I>>, ss: seq<Section>)
    requires |ss| > 1
    requires forall k: nat, x :: text(b.newItem(k, x)) == x
    requires var g1 := Fold(b, groups, BlockKinds(ss[0]));
      Sections(Fold(b, g1, OutlineKinds(ss[1..])), text) == Sections(g1, text) + ss[1..]
    ensures Sections(Fold(b, groups, OutlineKinds(ss)), text) == Sections(groups, text) + ss
  {
    var before := Sections(groups, text);
    var g1 := Fold(b, groups, BlockKinds(ss[0]));
    FoldBlock(b, text, groups, ss[0]);
    FoldPastRule(b, groups, ss);
    AppendAssoc(before, [ss[0]], ss[1..]);
    assert [ss[0]] + ss[1..] == ss;
  }

  lemma AppendAssoc<T>(a: seq<T>, b: seq<T>, c: seq<T>)
    ensures (a + b) + c == a + (b + c)
  {
  }

  /** Folding the kinds of a whole saved outline appends its sections, in
      order, to those already built. */
  lemma {:induction false} FoldOutline<I>(b: Builder<I>, text: I -> string, groups: seq<Group<I>>, ss: seq<Section>)
    requires forall k: nat, x :: text(b.newItem(k, x)) == x
    ensures Sections(Fold(b, groups, OutlineKinds(ss)), text) == Sections(groups, text) + ss
    decreases |ss|
  {
    if ss == [] {
      assert Sections(groups, text) + ss == Sections(groups, text);
    } else if |ss| == 1 {
      FoldBlock(b, text, groups, ss[0]);
      assert ss == [ss[0]];
    } else {
      FoldOutline(b, text, Fold(b, groups, BlockKinds(ss[0])), ss[1..]);
      FoldOutlineCons(b, text, groups, ss);
    }
  }
}
