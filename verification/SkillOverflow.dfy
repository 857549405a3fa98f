/** The text of SKILL.md and its overflow into generated reference files, by
    scripts/docs-to-skills.py (split_markdown_h3_sections, _unique_generated_ref_name,
    _defer_detail, _append_section_or_defer). */
module SkillOverflow {
  import opened Wrappers
  import Headings
  import opened Text

  const MAX_SKILL_MD_CHARS: nat := 11_500

  // ----- Text -----

  function StripLeft(s: string): string {
    if s != "" && Headings.IsSpace(s[0]) then StripLeft(s[1..]) else s
  }

  function StripRight(s: string): string {
    if s != "" && Headings.IsSpace(s[|s| - 1]) then StripRight(s[..|s| - 1]) else s
  }

  function Strip(s: string): string {
    StripRight(StripLeft(s))
  }

  /** The characters of a text that are not white space. */
  ghost function Ink(s: string): string {
    if s == "" then ""
    else Ink(s[..|s| - 1]) + (if Headings.IsSpace(s[|s| - 1]) then "" else [s[|s| - 1]])
  }

  ghost function InkOfLines(lines: seq<string>): string {
    if lines == [] then "" else InkOfLines(lines[..|lines| - 1]) + Ink(lines[|lines| - 1])
  }

  lemma {:induction false} InkChar(s: string, c: char)
    ensures Ink(s + [c]) == Ink(s) + if Headings.IsSpace(c) then "" else [c]
  {
    assert (s + [c])[..|s|] == s;
  }

  lemma {:induction false} InkConcat(a: string, b: string)
    ensures Ink(a + b) == Ink(a) + Ink(b)
  {
    if b == "" {
      assert a + b == a;
    } else {
      var init, last := b[..|b| - 1], b[|b| - 1];
      InkConcat(a, init);
      assert a + b == (a + init) + [last] && b == init + [last];
      InkChar(a + init, last);
      InkChar(init, last);
      Assoc(Ink(a), Ink(init), if Headings.IsSpace(last) then "" else [last]);
    }
  }

  lemma {:induction false} InkSnoc(lines: seq<string>, line: string)
    ensures InkOfLines(lines + [line]) == InkOfLines(lines) + Ink(line)
  {
    assert (lines + [line])[..|lines|] == lines;
  }

  lemma {:induction false} InkOfLinesConcat(a: seq<string>, b: seq<string>)
    ensures InkOfLines(a + b) == InkOfLines(a) + InkOfLines(b)
  {
    if b == [] {
      assert a + b == a;
    } else {
      var init, last := b[..|b| - 1], b[|b| - 1];
      InkOfLinesConcat(a, init);
      assert a + b == (a + init) + [last] && b == init + [last];
      InkSnoc(a + init, last);
      InkSnoc(init, last);
      Assoc(InkOfLines(a), InkOfLines(init), Ink(last));
    }
  }

  lemma {:induction false} InkBreak(s: string, line: string)
    ensures Ink(s + "\n" + line) == Ink(s) + Ink(line)
  {
    InkConcat(s + "\n", line);
    InkChar(s, '\n');
  }

  lemma {:induction false} InkJoin(lines: seq<string>)
    ensures Ink(Join(lines)) == InkOfLines(lines)
  {
    if lines == [] {
      return;
    }
    hide Ink;
    if |lines| == 1 {
      InkSnoc([], lines[0]);
      assert lines == [] + [lines[0]];
    } else {
      InkJoin(lines[..|lines| - 1]);
      InkBreak(Join(lines[..|lines| - 1]), lines[|lines| - 1]);
    }
  }

  lemma {:induction false} InkStripLeft(s: string)
    ensures Ink(StripLeft(s)) == Ink(s)
  {
    if s != "" && Headings.IsSpace(s[0]) {
      InkStripLeft(s[1..]);
      InkConcat(s[..1], s[1..]);
      assert s == s[..1] + s[1..];
      assert Ink(s[..1]) == "" by { assert s[..1][..0] == ""; }
    }
  }

  lemma {:induction false} InkStripRight(s: string)
    ensures Ink(StripRight(s)) == Ink(s)
  {
    if s != "" && Headings.IsSpace(s[|s| - 1]) {
      InkStripRight(s[..|s| - 1]);
    }
  }

  lemma {:induction false} InkStrip(s: string)
    ensures Ink(Strip(s)) == Ink(s)
  {
    InkStripLeft(s);
    InkStripRight(StripLeft(s));
  }

  // ----- Sections -----

  predicate IsH3(line: string) {
    "### " <= line
  }

  /** The first `n` lines, cut before every H3 heading. */
  ghost function Groups(lines: seq<string>, n: nat): (r: seq<seq<string>>)
    requires n <= |lines|
    ensures r != []
  {
    if n == 0 then [[]]
    else
      var r := Groups(lines, n - 1);
      if IsH3(lines[n - 1]) then r + [[lines[n - 1]]] else Extended(r, lines[n - 1])
  }

  ghost function Flat(groups: seq<seq<string>>): seq<string> {
    if groups == [] then [] else Flat(groups[..|groups| - 1]) + groups[|groups| - 1]
  }

  lemma {:induction false} FlatSnoc(groups: seq<seq<string>>, group: seq<string>)
    ensures Flat(groups + [group]) == Flat(groups) + group
  {
    assert (groups + [group])[..|groups|] == groups;
  }

  lemma {:induction false} FlatOfNone(lines: seq<string>)
    ensures Flat(Groups(lines, 0)) == []
  {
    assert Groups(lines, 0)[..0] == [];
  }

  lemma {:induction false} FlatExtended(groups: seq<seq<string>>, line: string)
    requires groups != []
    ensures Flat(Extended(groups, line)) == Flat(groups) + [line]
  {
    var init, last := groups[..|groups| - 1], groups[|groups| - 1];
    FlatSnoc(init, last + [line]);
    FlatSnoc(init, last);
    assert init + [last] == groups;
    assert Flat(init) + last + [line] == Flat(init) + (last + [line]);
  }

  lemma {:induction false} FlatNext(lines: seq<string>, n: nat)
    requires n < |lines|
    ensures Flat(Groups(lines, n + 1)) == Flat(Groups(lines, n)) + [lines[n]]
  {
    if IsH3(lines[n]) {
      FlatSnoc(Groups(lines, n), [lines[n]]);
    } else {
      FlatExtended(Groups(lines, n), lines[n]);
    }
  }

  /** The groups are the lines, in order. */
  lemma {:induction false} FlatGroups(lines: seq<string>, n: nat)
    requires n <= |lines|
    ensures Flat(Groups(lines, n)) == lines[..n]
  {
    hide Flat, Groups;
    if n == 0 {
      FlatOfNone(lines);
      assert lines[..0] == [];
    } else {
      FlatGroups(lines, n - 1);
      FlatNext(lines, n - 1);
      assert lines[..n] == lines[..n - 1] + [lines[n - 1]];
    }
  }

  /** An H3 heading starts every group but the first, and is nowhere else. */
  ghost predicate CutAtH3(groups: seq<seq<string>>) {
    && (forall k | 1 <= k < |groups| :: groups[k] != [])
    && forall k, j | 0 <= k < |groups| && 0 <= j < |groups[k]| :: "### " <= groups[k][j] <==> k > 0 && j == 0
  }

  lemma {:induction false} GroupsCut(lines: seq<string>, n: nat)
    requires n <= |lines|
    ensures CutAtH3(Groups(lines, n))
  {
    if n > 0 {
      GroupsCut(lines, n - 1);
      if IsH3(lines[n - 1]) {
        CutSnoc(Groups(lines, n - 1), lines[n - 1]);
      } else {
        CutExtended(Groups(lines, n - 1), lines[n - 1]);
      }
    }
  }

  lemma {:induction false} CutSnoc(groups: seq<seq<string>>, line: string)
    requires groups != [] && CutAtH3(groups) && IsH3(line)
    ensures CutAtH3(groups + [[line]])
  {
  }

  lemma {:induction false} CutExtended(groups: seq<seq<string>>, line: string)
    requires groups != [] && CutAtH3(groups) && !IsH3(line)
    ensures CutAtH3(Extended(groups, line))
  {
    var r, last := Extended(groups, line), |groups| - 1;
    forall k, j | 0 <= k < |r| && 0 <= j < |r[k]| ensures IsH3(r[k][j]) <==> k > 0 && j == 0 {
      if k < last {
        assert r[k] == groups[k];
      } else if j < |groups[last]| {
        assert r[k][j] == groups[last][j];
      }
    }
  }

  datatype Section = Section(heading: string, block: string)

  /** The section of a group. */
  ghost function SectionOf(group: seq<string>): Section {
    Section(if group != [] && |group[0]| >= 4 then Strip(group[0][4..]) else "", Strip(Join(group)))
  }

  ghost function GroupsOf(content: string): (r: seq<seq<string>>)
    ensures r != []
  {
    Groups(LinesOf(content, |content|), |LinesOf(content, |content|)|)
  }

  ghost function Preamble(content: string): string {
    Strip(Join(GroupsOf(content)[0]))
  }

  ghost function Sections(content: string): (r: seq<Section>)
    ensures |r| == |GroupsOf(content)| - 1
    ensures forall k | 0 <= k < |r| :: r[k] == SectionOf(GroupsOf(content)[k + 1])
  {
    seq(|GroupsOf(content)| - 1, k requires 0 <= k < |GroupsOf(content)| - 1 => SectionOf(GroupsOf(content)[k + 1]))
  }

  ghost function InkOfSections(sections: seq<Section>): string {
    if sections == [] then ""
    else InkOfSections(sections[..|sections| - 1]) + Ink(sections[|sections| - 1].block)
  }

  lemma {:induction false} InkOfLastGroup(groups: seq<seq<string>>)
    requires groups != []
    ensures InkOfLines(Flat(groups))
         == InkOfLines(Flat(groups[..|groups| - 1])) + Ink(Strip(Join(groups[|groups| - 1])))
  {
    var group := groups[|groups| - 1];
    InkOfLinesConcat(Flat(groups[..|groups| - 1]), group);
    InkJoin(group);
    InkStrip(Join(group));
  }

  lemma {:induction false} InkOfGroups(groups: seq<seq<string>>, sections: seq<Section>)
    requires |groups| == |sections| + 1
    requires forall k | 0 <= k < |sections| :: sections[k] == SectionOf(groups[k + 1])
    ensures InkOfLines(Flat(groups)) == Ink(Strip(Join(groups[0]))) + InkOfSections(sections)
  {
    InkOfLastGroup(groups);
    if sections == [] {
      assert Flat(groups[..0]) == [];
    } else {
      var n := |sections|;
      InkOfGroups(groups[..n], sections[..n - 1]);
      assert Strip(Join(groups[n])) == sections[n - 1].block;
      Assoc(Ink(Strip(Join(groups[0]))), InkOfSections(sections[..n - 1]), Ink(sections[n - 1].block));
    }
  }

  lemma {:induction false} InkOfContent(content: string)
    ensures InkOfLines(Flat(GroupsOf(content))) == Ink(content)
  {
    var lines := LinesOf(content, |content|);
    JoinLinesOf(content, |content|);
    assert content[..|content|] == content;
    InkJoin(lines);
    FlatGroups(lines, |lines|);
    assert lines[..|lines|] == lines;
  }

  /** Cutting a text into preamble and sections keeps all of it, in order. */
  lemma {:induction false} SplitConserves(content: string)
    ensures Ink(Preamble(content)) + InkOfSections(Sections(content)) == Ink(content)
  {
    hide Groups, LinesOf, Strip, Ink;
    InkOfContent(content);
    InkOfGroups(GroupsOf(content), Sections(content));
  }

  // ----- Splitting keeps the text, white space between the pieces apart -----

  ghost predicate Blank(s: string) {
    forall c | c in s :: Headings.IsSpace(c)
  }

  lemma {:induction false} StripLeftParts(s: string) returns (left: string)
    ensures Blank(left) && s == left + StripLeft(s)
  {
    hide Headings.IsSpace;
    if s != "" && Headings.IsSpace(s[0]) {
      var more := StripLeftParts(s[1..]);
      left := [s[0]] + more;
      Assoc([s[0]], more, StripLeft(s[1..]));
      assert s == [s[0]] + s[1..];
    } else {
      left := "";
    }
  }

  lemma {:induction false} StripRightParts(s: string) returns (right: string)
    ensures Blank(right) && s == StripRight(s) + right
  {
    hide Headings.IsSpace;
    if s != "" && Headings.IsSpace(s[|s| - 1]) {
      var more := StripRightParts(s[..|s| - 1]);
      right := more + [s[|s| - 1]];
      Assoc(StripRight(s[..|s| - 1]), more, [s[|s| - 1]]);
      assert s == s[..|s| - 1] + [s[|s| - 1]];
    } else {
      right := "";
    }
  }

  lemma {:induction false} StripParts(s: string) returns (left: string, right: string)
    ensures Blank(left) && Blank(right) && s == left + Strip(s) + right
  {
    left := StripLeftParts(s);
    right := StripRightParts(StripLeft(s));
    Assoc(left, Strip(s), right);
  }

  /** Stripping leaves no white space at the ends. */
  lemma {:induction false} StripTrims(s: string)
    ensures Strip(s) == "" || (!Headings.IsSpace(Strip(s)[0]) && !Headings.IsSpace(Strip(s)[|Strip(s)| - 1]))
  {
    hide Headings.IsSpace;
    TrimsLeft(s);
    TrimsRight(StripLeft(s));
  }

  lemma {:induction false} TrimsLeft(s: string)
    ensures StripLeft(s) == "" || !Headings.IsSpace(StripLeft(s)[0])
  {
    hide Headings.IsSpace;
    if s != "" && Headings.IsSpace(s[0]) {
      TrimsLeft(s[1..]);
    }
  }

  lemma {:induction false} TrimsRight(s: string)
    ensures StripRight(s) == "" || !Headings.IsSpace(StripRight(s)[|StripRight(s)| - 1])
    ensures StripRight(s) != "" ==> StripRight(s)[0] == s[0]
  {
    hide Headings.IsSpace;
    if s != "" && Headings.IsSpace(s[|s| - 1]) {
      TrimsRight(s[..|s| - 1]);
    }
  }

  /** The heading of a section is the text of its first line, without the signs and the white space around it. */
  lemma {:induction false} SectionHeadings(content: string, k: nat) returns (left: string, right: string)
    requires k < |Sections(content)|
    ensures Blank(left) && Blank(right) && GroupsOf(content)[k + 1] != []
    ensures GroupsOf(content)[k + 1][0] == "### " + (left + Sections(content)[k].heading + right)
  {
    hide Strip, Join, Groups, Blank;
    var lines := LinesOf(content, |content|);
    GroupsCut(lines, |lines|);
    assert Sections(content)[k] == SectionOf(GroupsOf(content)[k + 1]);
    var line := GroupsOf(content)[k + 1][0];
    assert "### " <= line;
    left, right := StripParts(line[4..]);
    assert line == line[..4] + line[4..];
  }

  /** The texts with the gaps around them. */
  ghost function Woven(gaps: seq<string>, texts: seq<string>): string
    requires |gaps| == |texts| + 1
  {
    if texts == [] then gaps[0]
    else
      var n := |texts| - 1;
      Woven(gaps[..n + 1], texts[..n]) + texts[n] + gaps[n + 1]
  }

  lemma {:induction false} WovenSnoc(gaps: seq<string>, texts: seq<string>, text: string, gap: string)
    requires |gaps| == |texts| + 1
    ensures Woven(gaps + [gap], texts + [text]) == Woven(gaps, texts) + text + gap
  {
    assert (gaps + [gap])[..|gaps|] == gaps && (texts + [text])[..|texts|] == texts;
  }

  /** A longer last gap. */
  lemma {:induction false} WovenExtended(gaps: seq<string>, texts: seq<string>, more: string)
    requires |gaps| == |texts| + 1
    ensures Woven(gaps[|texts| := gaps[|texts|] + more], texts) == Woven(gaps, texts) + more
  {
    if texts != [] {
      var n := |texts| - 1;
      assert gaps[|texts| := gaps[|texts|] + more][..n + 1] == gaps[..n + 1];
      Assoc(Woven(gaps[..n + 1], texts[..n]) + texts[n], gaps[n + 1], more);
    }
  }

  ghost function TextsOf(groups: seq<seq<string>>): seq<string> {
    seq(|groups|, k requires 0 <= k < |groups| => Strip(Join(groups[k])))
  }

  /** One more group: a line break, unless nothing stands before it, white space, its text, white space. */
  lemma {:induction false} WovenGroup(lines: seq<string>, gaps: seq<string>, texts: seq<string>, group: seq<string>)
      returns (wider: seq<string>)
    requires |gaps| == |texts| + 1 && (forall g | g in gaps :: Blank(g))
    requires Join(lines) == Woven(gaps, texts) && group != []
    ensures |wider| == |gaps| + 1 && forall g | g in wider :: Blank(g)
    ensures Join(lines + group) == Woven(wider, texts + [Strip(Join(group))])
  {
    hide Strip, Join, Woven, Blank;
    var left, right := StripParts(Join(group));
    var sep := if lines == [] then "" else "\n";
    JoinAfter(lines, group);
    var n := |texts|;
    var longer := gaps[n := gaps[n] + (sep + left)];
    WovenExtended(gaps, texts, sep + left);
    WovenSnoc(longer, texts, Strip(Join(group)), right);
    wider := longer + [right];
    FiveParts(Join(lines), sep, left, Strip(Join(group)), right);
    assert gaps[n] in gaps;
    BlankConcat(gaps[n], sep, left);
  }

  lemma {:induction false} FiveParts(a: string, b: string, c: string, d: string, e: string)
    ensures a + b + (c + d + e) == a + (b + c) + d + e
  {
  }

  lemma {:induction false} BlankConcat(a: string, sep: string, b: string)
    requires Blank(a) && Blank(b) && (sep == "" || sep == "\n")
    ensures Blank(a + (sep + b))
  {
  }

  lemma {:induction false} JoinAfter(lines: seq<string>, group: seq<string>)
    requires group != []
    ensures Join(lines + group) == Join(lines) + (if lines == [] then "" else "\n") + Join(group)
  {
    if lines == [] {
      assert lines + group == group;
    } else {
      JoinConcat(lines, group);
    }
  }

  lemma {:induction false} GroupsWoven(groups: seq<seq<string>>) returns (gaps: seq<string>)
    requires groups != [] && forall k | 1 <= k < |groups| :: groups[k] != []
    ensures |gaps| == |groups| + 1 && forall g | g in gaps :: Blank(g)
    ensures Join(Flat(groups)) == Woven(gaps, TextsOf(groups))
  {
    var n := |groups| - 1;
    var init, group := groups[..n], groups[n];
    assert groups == init + [group];
    FlatSnoc(init, group);
    assert TextsOf(groups) == TextsOf(init) + [Strip(Join(group))];
    if n == 0 {
      var left, right := StripParts(Join(group));
      gaps := [left, right];
      assert Flat(init) == [] && Flat(groups) == group;
      assert TextsOf(init) == [];
      WovenSnoc([left], [], Strip(Join(group)), right);
      assert [left] + [right] == gaps;
    } else {
      gaps := GroupsWoven(init);
      gaps := WovenGroup(Flat(init), gaps, TextsOf(init), group);
    }
  }

  /** Main result: the text is the preamble and the blocks of the sections, in order, with nothing but
      white space before, between and after them. */
  lemma {:induction false} SplitWoven(content: string) returns (gaps: seq<string>)
    ensures |gaps| == |Sections(content)| + 2 && forall g | g in gaps :: Blank(g)
    ensures content == Woven(gaps, [Preamble(content)] + BlocksOf(Sections(content)))
  {
    var lines := LinesOf(content, |content|);
    JoinLinesOf(content, |content|);
    assert content[..|content|] == content;
    FlatGroups(lines, |lines|);
    assert lines[..|lines|] == lines;
    GroupsCut(lines, |lines|);
    gaps := GroupsWoven(GroupsOf(content));
    TextsAre(content);
  }

  ghost function BlocksOf(sections: seq<Section>): seq<string> {
    seq(|sections|, k requires 0 <= k < |sections| => sections[k].block)
  }

  lemma {:induction false} TextsAre(content: string)
    ensures TextsOf(GroupsOf(content)) == [Preamble(content)] + BlocksOf(Sections(content))
  {
    hide Strip, Join, GroupsOf;
    var texts := TextsOf(GroupsOf(content));
    forall k | 1 <= k < |texts| ensures texts[k] == Sections(content)[k - 1].block {
      assert Sections(content)[k - 1] == SectionOf(GroupsOf(content)[k - 1 + 1]);
    }
  }

  /** `_flush`: close the current section, if there is one. */
  function Flushed(sections: seq<Section>, currentHeading: Option<string>, currentLines: seq<string>): seq<Section> {
    match currentHeading
    case None => sections
    case Some(heading) => sections + [Section(heading, Strip(Join(currentLines)))]
  }

  ghost predicate Splitting(groups: seq<seq<string>>, preambleLines: seq<string>, sections: seq<Section>,
                            currentHeading: Option<string>, currentLines: seq<string>)
  {
    && groups != [] && groups[0] == preambleLines
    && |Flushed(sections, currentHeading, currentLines)| == |groups| - 1
    && (currentHeading.None? ==> sections == [])
    && (currentHeading.Some? ==>
          currentLines == groups[|groups| - 1] != [] && SectionOf(currentLines).heading == currentHeading.value)
    && forall k | 0 <= k < |sections| :: sections[k] == SectionOf(groups[k + 1])
  }

  lemma {:induction false} SplitAtHeading(groups: seq<seq<string>>, preambleLines: seq<string>, sections: seq<Section>,
                                          currentHeading: Option<string>, currentLines: seq<string>, line: string)
    requires Splitting(groups, preambleLines, sections, currentHeading, currentLines) && IsH3(line)
    ensures Splitting(groups + [[line]], preambleLines, Flushed(sections, currentHeading, currentLines),
                      Some(Strip(line[4..])), [line])
  {
  }

  lemma {:induction false} SplitAtLine(groups: seq<seq<string>>, preambleLines: seq<string>, sections: seq<Section>,
                                       currentHeading: Option<string>, currentLines: seq<string>, line: string)
    requires Splitting(groups, preambleLines, sections, currentHeading, currentLines)
    ensures currentHeading.None? ==>
      Splitting(Extended(groups, line), preambleLines + [line], sections, currentHeading, currentLines)
    ensures currentHeading.Some? ==>
      Splitting(Extended(groups, line), preambleLines, sections, currentHeading, currentLines + [line])
  {
  }

  lemma {:induction false} SplitAtEnd(groups: seq<seq<string>>, preambleLines: seq<string>, sections: seq<Section>,
                                      currentHeading: Option<string>, currentLines: seq<string>)
    requires Splitting(groups, preambleLines, sections, currentHeading, currentLines)
    ensures forall k | 0 <= k < |groups| - 1 ::
      Flushed(sections, currentHeading, currentLines)[k] == SectionOf(groups[k + 1])
  {
    hide Strip, Join;
    if currentHeading.Some? {
      assert Section(currentHeading.value, Strip(Join(currentLines))) == SectionOf(currentLines);
    }
  }

  lemma {:induction false} SplitDone(content: string, preambleLines: seq<string>, sections: seq<Section>,
                                     currentHeading: Option<string>, currentLines: seq<string>)
    requires Splitting(GroupsOf(content), preambleLines, sections, currentHeading, currentLines)
    ensures Strip(Join(preambleLines)) == Preamble(content)
    ensures Flushed(sections, currentHeading, currentLines) == Sections(content)
  {
    SplitAtEnd(GroupsOf(content), preambleLines, sections, currentHeading, currentLines);
    hide GroupsOf, SectionOf, Strip, Join, Sections;
    assert |Flushed(sections, currentHeading, currentLines)| == |Sections(content)|;
  }

  method SplitMarkdownH3Sections(content: string) returns (preamble: string, sections: seq<Section>)
    ensures preamble == Preamble(content) && sections == Sections(content)
  {
    var preambleLines: seq<string> := [];
    sections := [];
    var currentHeading: Option<string> := None;
    var currentLines: seq<string> := [];
    var lines := LinesOf(content, |content|);
    for i := 0 to |lines|
      invariant Splitting(Groups(lines, i), preambleLines, sections, currentHeading, currentLines)
    {
      var line := lines[i];
      if IsH3(line) {
        SplitAtHeading(Groups(lines, i), preambleLines, sections, currentHeading, currentLines, line);
        sections := Flushed(sections, currentHeading, currentLines);
        currentHeading := Some(Strip(line[4..]));
        currentLines := [line];
      } else {
        SplitAtLine(Groups(lines, i), preambleLines, sections, currentHeading, currentLines, line);
        if currentHeading.None? {
          preambleLines := preambleLines + [line];
        } else {
          currentLines := currentLines + [line];
        }
      }
    }
    SplitDone(content, preambleLines, sections, currentHeading, currentLines);
    sections := Flushed(sections, currentHeading, currentLines);
    preamble := Strip(Join(preambleLines));
  }

  // ----- Size -----

  ghost function Size(lines: seq<string>): nat {
    |Join(lines)|
  }

  predicate Fits(lines: seq<string>, more: seq<string>) {
    |Join(lines)| + |Join(more)| <= MAX_SKILL_MD_CHARS
  }

  lemma {:induction false} SizeConcat(lines: seq<string>, more: seq<string>)
    requires more != []
    ensures Size(lines + more) == Size(lines) + Size(more) + (if lines == [] then 0 else 1)
  {
    var init, last := more[..|more| - 1], more[|more| - 1];
    if lines == [] {
      assert lines + more == more;
    } else if init == [] {
      assert more == [last];
      JoinSnoc(lines, last);
    } else {
      SizeConcat(lines, init);
      assert lines + more == (lines + init) + [last];
      JoinSnoc(lines + init, last);
      assert more == init + [last];
      JoinSnoc(init, last);
    }
  }

  /** The size check admits exactly the text that brings the file to at most 11500 characters, or, because
      the newline that joins them is not counted, 11501 if there is a line already. */
  lemma {:induction false} AdmittedSize(lines: seq<string>, more: seq<string>)
    requires more != []
    ensures Fits(lines, more) <==> Size(lines + more) <= if lines == [] then 11_500 else 11_501
  {
    SizeConcat(lines, more);
  }

  // ----- Names of generated references -----

  /** The names tried, from `n == 1`. */
  function Candidate(base: string, n: nat): string {
    base + "-details" + (if n <= 1 then "" else "-" + Decimal(n)) + ".md"
  }

  lemma {:induction false} CandidatesDiffer(base: string, m: nat, n: nat)
    requires 1 <= m < n
    ensures Candidate(base, m) != Candidate(base, n)
  {
    var a := if m <= 1 then "" else "-" + Decimal(m);
    var b := "-" + Decimal(n);
    var k := |base + "-details"|;
    if Candidate(base, m) == Candidate(base, n) {
      assert Candidate(base, m)[k..k + |a|] == a;
      assert Candidate(base, n)[k..k + |b|] == b;
      assert |Candidate(base, m)| == k + |a| + 3 && |Candidate(base, n)| == k + |b| + 3;
      assert Decimal(m) == a[1..] && Decimal(n) == b[1..];
      DecimalInjective(m, n);
    }
  }

  ghost function Candidates(base: string, n: nat): set<string> {
    if n == 0 then {} else Candidates(base, n - 1) + {Candidate(base, n)}
  }

  lemma {:induction false} CandidateIsNew(base: string, n: nat, m: nat)
    requires n < m
    ensures Candidate(base, m) !in Candidates(base, n)
  {
    if n > 0 {
      CandidateIsNew(base, n - 1, m);
      CandidatesDiffer(base, n, m);
    }
  }

  lemma {:induction false} CandidatesSize(base: string, n: nat)
    ensures |Candidates(base, n)| == n
  {
    if n > 0 {
      CandidatesSize(base, n - 1);
      CandidateIsNew(base, n - 1, n);
    }
  }

  lemma {:induction false} SubsetSize(a: set<string>, b: set<string>)
    requires a <= b
    ensures |a| <= |b|
  {
    if a != {} {
      var x :| x in a;
      SubsetSize(a - {x}, b - {x});
    }
  }

  /** `n` is the first candidate that is not taken. */
  ghost predicate FirstFree(base: string, n: nat, reserved: set<string>) {
    n >= 1 && Candidate(base, n) !in reserved && forall m | 1 <= m < n :: Candidate(base, m) in reserved
  }

  /** The search for a free name; it ends because the candidates all differ. */
  method FindFree(base: string, reserved: set<string>) returns (candidate: string)
    ensures exists n :: FirstFree(base, n, reserved) && candidate == Candidate(base, n)
  {
    candidate := base + "-details.md";
    assert candidate == Candidate(base, 1);
    var suffix := 2;
    while candidate in reserved
      invariant suffix >= 2 && candidate == Candidate(base, suffix - 1)
      invariant forall m | 1 <= m < suffix - 1 :: Candidate(base, m) in reserved
      invariant Candidates(base, suffix - 2) <= reserved
      decreases |reserved| + 2 - suffix
    {
      CandidatesSize(base, suffix - 1);
      SubsetSize(Candidates(base, suffix - 1), reserved);
      candidate := base + "-details-" + Decimal(suffix) + ".md";
      assert candidate == Candidate(base, suffix);
      suffix := suffix + 1;
    }
    assert FirstFree(base, suffix - 1, reserved);
  }

  // ----- The pieces of the document -----

  /** A page: its path, its heading and the base of the name of its generated reference. */
  datatype Page = Page(path: string, title: string, base: string)

  /** A piece of document text that was put in SKILL.md, or deferred to the reference of its page. */
  datatype Piece = Piece(text: string, heading: string, topic: string, page: string, deferred: bool)

  /** Link targets move from below references/ to beside the reference file. */
  function Unlink(text: string): string {
    if text == "" then ""
    else
      var start := LINK;
      var end := if start <= text then Find(text, ')', |start|) else 0;
      if |start| < end < |text| then "](" + text[|start|..end] + ")" + Unlink(text[end + 1..])
      else [text[0]] + Unlink(text[1..])
  }

  /** The text of a piece as it stands in the reference file. */
  function RefBlock(heading: string, text: string): string {
    var block := Unlink(text);
    if "#" <= block then block else "## " + heading + "\n\n" + block
  }

  const LINK := "](references/"

  /** A link target below references/, which ends at `end`, stands at `i`. */
  ghost predicate LinkAt(text: string, i: nat, end: nat) {
    && i + |LINK| < end < |text| && text[i..i + |LINK|] == "](references/"
    && text[end] == ')' && ')' !in text[i + |LINK|..end]
  }

  ghost predicate NoLinkBefore(text: string, i: nat) {
    forall j: nat, end: nat | j < i :: !LinkAt(text, j, end)
  }

  /** Main result: up to the first such target the text stays; there the directory is taken out, and the
      text after it goes on in the same way. */
  lemma {:induction false} UnlinkExact(text: string, i: nat, end: nat)
    requires LinkAt(text, i, end) && NoLinkBefore(text, i)
    ensures Unlink(text) == text[..i] + "](" + text[i + |LINK|..end] + ")" + Unlink(text[end + 1..])
  {
    hide Unlink;
    if i == 0 {
      LinkHere(text, end);
      assert text[..0] == [];
      NothingBefore("](" + text[|LINK|..end] + ")" + Unlink(text[end + 1..]));
    } else {
      LinkTail(text, i, end);
      UnlinkExact(text[1..], i - 1, end - 1);
      UnlinkFrom(text, i, end, Unlink(text[end + 1..]));
    }
  }

  lemma {:induction false} NothingBefore(s: string)
    ensures [] + s == s
  {
  }

  lemma {:induction false} LinkTail(text: string, i: nat, end: nat)
    requires i > 0 && LinkAt(text, i, end) && NoLinkBefore(text, i)
    ensures LinkAt(text[1..], i - 1, end - 1) && NoLinkBefore(text[1..], i - 1)
    ensures Unlink(text) == [text[0]] + Unlink(text[1..])
  {
    hide Unlink;
    NoLinkHere(text);
    LinkShift(text);
  }

  lemma {:induction false} UnlinkFrom(text: string, i: nat, end: nat, rest: string)
    requires 0 < i && i + |LINK| < end < |text|
    ensures [text[0]] + (text[1..][..i - 1] + "](" + text[1..][i - 1 + |LINK|..end - 1] + ")" + rest)
         == text[..i] + "](" + text[i + |LINK|..end] + ")" + rest
    ensures text[1..][end..] == text[end + 1..]
  {
    assert text[1..][i - 1 + |LINK|..end - 1] == text[i + |LINK|..end];
    assert [text[0]] + text[1..][..i - 1] == text[..i];
  }

  lemma {:induction false} UnlinkNone(text: string)
    requires NoLinkBefore(text, |text|)
    ensures Unlink(text) == text
  {
    if text != "" {
      NoLinkHere(text);
      LinkShift(text);
      UnlinkNone(text[1..]);
    }
  }

  lemma {:induction false} LinkHere(text: string, end: nat)
    requires LinkAt(text, 0, end)
    ensures Unlink(text) == "](" + text[|LINK|..end] + ")" + Unlink(text[end + 1..])
  {
    FindShift(text, |LINK|, end);
    assert LINK <= text && |text| > 0;
  }

  lemma {:induction false} FindShift(text: string, i: nat, end: nat)
    requires i <= end < |text| && text[end] == ')' && ')' !in text[i..end]
    ensures Find(text, ')', i) == end
  {
    var n := Find(text, ')', i);
    assert forall j | i <= j < n :: text[j] in text[i..n];
    assert forall j | i <= j < end :: text[j] in text[i..end];
  }

  lemma {:induction false} NoLinkHere(text: string)
    requires text != "" && NoLinkBefore(text, 1)
    ensures Unlink(text) == [text[0]] + Unlink(text[1..])
  {
    if LINK <= text {
      var end := Find(text, ')', |LINK|);
      assert !LinkAt(text, 0, end);
    }
  }

  /** The links of the text without its first character. */
  lemma {:induction false} LinkShift(text: string)
    requires text != ""
    ensures forall j: nat, end: nat {:trigger LinkAt(text[1..], j, end)} ::
      LinkAt(text[1..], j, end) <==> LinkAt(text, j + 1, end + 1)
  {
    forall j: nat, end: nat ensures LinkAt(text[1..], j, end) <==> LinkAt(text, j + 1, end + 1) {
      if j + |LINK| < end < |text| - 1 {
        assert text[1..][j..j + |LINK|] == text[j + 1..j + 1 + |LINK|];
        assert text[1..][j + |LINK|..end] == text[j + 1 + |LINK|..end + 1];
      }
    }
  }

  /** The block of a reference starts with a heading of its own: that of the text, or the section's. */
  lemma {:induction false} RefBlockStarts(heading: string, text: string)
    requires text != ""
    ensures RefBlock(heading, text) == (if text[0] == '#' then "" else "## " + heading + "\n\n") + Unlink(text)
    ensures RefBlock(heading, text)[0] == '#'
  {
    assert Unlink(text) != "" && Unlink(text)[0] == text[0];
  }

  function TopicOr(topic: string, heading: string): string {
    if topic != "" then topic else heading
  }

  function WithTopic(topics: seq<string>, topic: string): seq<string> {
    if topic != "" && topic !in topics then topics + [topic] else topics
  }

  ghost function InlineTexts(pieces: seq<Piece>): seq<string> {
    if pieces == [] then []
    else
      var p := pieces[|pieces| - 1];
      InlineTexts(pieces[..|pieces| - 1]) + (if p.deferred then [] else [p.text])
  }

  /** The blocks of the pieces of a page that were deferred. */
  ghost function Blocks(pieces: seq<Piece>, page: string): seq<string> {
    if pieces == [] then []
    else
      var p := pieces[|pieces| - 1];
      Blocks(pieces[..|pieces| - 1], page)
      + (if p.deferred && p.page == page then [RefBlock(p.heading, p.text)] else [])
  }

  ghost function Topics(pieces: seq<Piece>, page: string): seq<string> {
    if pieces == [] then []
    else
      var p := pieces[|pieces| - 1];
      var topics := Topics(pieces[..|pieces| - 1], page);
      if p.deferred && p.page == page then WithTopic(topics, TopicOr(p.topic, p.heading)) else topics
  }

  ghost function InkOf(pieces: seq<Piece>): string {
    if pieces == [] then "" else InkOf(pieces[..|pieces| - 1]) + Ink(pieces[|pieces| - 1].text)
  }

  /** The marked lines. */
  ghost function Picked(lines: seq<string>, marks: seq<bool>): seq<string>
    requires |lines| == |marks|
  {
    if lines == [] then []
    else
      Picked(lines[..|lines| - 1], marks[..|lines| - 1])
      + (if marks[|lines| - 1] then [lines[|lines| - 1]] else [])
  }

  lemma {:induction false} PickedSnoc(lines: seq<string>, marks: seq<bool>, line: string, mark: bool)
    requires |lines| == |marks|
    ensures Picked(lines + [line], marks + [mark]) == Picked(lines, marks) + (if mark then [line] else [])
  {
    assert (lines + [line])[..|lines|] == lines && (marks + [mark])[..|lines|] == marks;
  }

  lemma {:induction false} PiecesSnoc(pieces: seq<Piece>, p: Piece)
    ensures InlineTexts(pieces + [p]) == InlineTexts(pieces) + (if p.deferred then [] else [p.text])
    ensures forall page | !p.deferred || p.page != page ::
      Blocks(pieces + [p], page) == Blocks(pieces, page) && Topics(pieces + [p], page) == Topics(pieces, page)
    ensures p.deferred ==>
      && Blocks(pieces + [p], p.page) == Blocks(pieces, p.page) + [RefBlock(p.heading, p.text)]
      && Topics(pieces + [p], p.page) == WithTopic(Topics(pieces, p.page), TopicOr(p.topic, p.heading))
    ensures InkOf(pieces + [p]) == InkOf(pieces) + Ink(p.text)
  {
    assert (pieces + [p])[..|pieces|] == pieces;
  }

  lemma {:induction false} NoneDeferred(pieces: seq<Piece>, page: string)
    requires forall p | p in pieces && p.deferred :: p.page != page
    ensures Blocks(pieces, page) == [] && Topics(pieces, page) == []
  {
    if pieces != [] {
      NoneDeferred(pieces[..|pieces| - 1], page);
    }
  }

  /** The topics of a page: each topic of a deferred piece, or its heading if it has none, once. */
  lemma {:induction false} TopicsExact(pieces: seq<Piece>, page: string)
    ensures forall t :: t in Topics(pieces, page) <==>
      t != "" && exists p | p in pieces ::
        p.deferred && p.page == page && t == if p.topic == "" then p.heading else p.topic
    ensures forall i, j | 0 <= i < j < |Topics(pieces, page)| :: Topics(pieces, page)[i] != Topics(pieces, page)[j]
  {
    if pieces != [] {
      var fewer, p := pieces[..|pieces| - 1], pieces[|pieces| - 1];
      TopicsExact(fewer, page);
      assert pieces == fewer + [p];
    }
  }

  // ----- The generated skill -----

  /** No two pages share a generated reference. */
  ghost predicate Distinct(refNames: map<string, string>) {
    forall p, q | p in refNames && q in refNames :: refNames[p] == refNames[q] ==> p == q
  }

  ghost predicate AllReserved(refNames: map<string, string>, reserved: set<string>) {
    forall p | p in refNames :: refNames[p] in reserved
  }

  /** The reference holds its title and the deferred pieces of the page, in order. */
  ghost predicate Holds(sections: seq<string>, topics: seq<string>, pieces: seq<Piece>, page: string) {
    sections != [] && sections[1..] == Blocks(pieces, page) && topics == Topics(pieces, page)
  }

  /** Every deferred piece is in the reference of its page, and nothing else is. */
  ghost predicate Filed(refNames: map<string, string>, refSections: map<string, seq<string>>,
                        refTopics: map<string, seq<string>>, pieces: seq<Piece>)
  {
    && refSections.Keys == refTopics.Keys && (forall r | r in refSections :: refSections[r] != [])
    && (forall p | p in pieces && p.deferred :: p.page in refNames && refNames[p.page] in refSections)
    && forall p | p in refNames && refNames[p] in refSections ::
         Holds(refSections[refNames[p]], refTopics[refNames[p]], pieces, p)
  }

  lemma {:induction false} FiledInline(refNames: map<string, string>, refSections: map<string, seq<string>>,
                                       refTopics: map<string, seq<string>>, pieces: seq<Piece>, p: Piece)
    requires Filed(refNames, refSections, refTopics, pieces) && !p.deferred
    ensures Filed(refNames, refSections, refTopics, pieces + [p])
    ensures InlineTexts(pieces + [p]) == InlineTexts(pieces) + [p.text]
  {
    PiecesSnoc(pieces, p);
  }

  lemma {:induction false} FiledStart(refNames: map<string, string>, refSections: map<string, seq<string>>,
                                      refTopics: map<string, seq<string>>, pieces: seq<Piece>, page: string,
                                      head: string)
    requires Filed(refNames, refSections, refTopics, pieces) && Distinct(refNames)
    requires page in refNames && refNames[page] !in refSections
    ensures Filed(refNames, refSections[refNames[page] := [head]], refTopics[refNames[page] := []], pieces)
  {
    NoneDeferred(pieces, page);
  }

  lemma {:induction false} FiledDeferred(refNames: map<string, string>, refSections: map<string, seq<string>>,
                                         refTopics: map<string, seq<string>>, pieces: seq<Piece>, p: Piece,
                                         name: string)
    requires Filed(refNames, refSections, refTopics, pieces) && Distinct(refNames)
    requires p.deferred && p.page in refNames && refNames[p.page] == name && name in refSections
    ensures Filed(refNames, refSections[name := refSections[name] + [RefBlock(p.heading, p.text)]],
                  refTopics[name := WithTopic(refTopics[name], TopicOr(p.topic, p.heading))], pieces + [p])
    ensures InlineTexts(pieces + [p]) == InlineTexts(pieces)
  {
    hide Blocks, Topics, InlineTexts, RefBlock, WithTopic;
    PiecesSnoc(pieces, p);
    HoldsNext(refSections[name], refTopics[name], pieces, p);
    forall q | q in refNames && refNames[q] in refSections && q != p.page
      ensures Holds(refSections[refNames[q]], refTopics[refNames[q]], pieces + [p], q)
    {
      assert refNames[q] != name;
    }
  }

  lemma {:induction false} HoldsNext(sections: seq<string>, topics: seq<string>, pieces: seq<Piece>, p: Piece)
    requires p.deferred && Holds(sections, topics, pieces, p.page)
    ensures Holds(sections + [RefBlock(p.heading, p.text)], WithTopic(topics, TopicOr(p.topic, p.heading)),
                  pieces + [p],
                  p.page)
  {
    PiecesSnoc(pieces, p);
    var block := RefBlock(p.heading, p.text);
    assert (sections + [block])[1..] == sections[1..] + [block];
  }

  /** The references after one more piece for `name`: a new one has its title. */
  ghost predicate Titled(was: map<string, seq<string>>, now: map<string, seq<string>>, name: string, title: string) {
    && now.Keys == was.Keys + {name}
    && forall r | r in now :: now[r] != [] &&
         now[r][0] == if r in was && was[r] != [] then was[r][0] else "# " + title + ": Details"
  }

  /** The name for the reference of `page`: the one it has, or the first that is free. */
  ghost predicate Names(refNames: map<string, string>, reserved: set<string>, page: Page, name: string) {
    if page.path in refNames then name == refNames[page.path]
    else exists n :: FirstFree(page.base, n, reserved) && name == Candidate(page.base, n)
  }

  /** The references after deferring a piece of `page`. */
  ghost predicate Referred(
      oldNames: map<string, string>, oldReserved: set<string>, oldSections: map<string, seq<string>>,
                           refNames: map<string, string>, reserved: set<string>, refSections: map<string, seq<string>>,
                           page: Page, name: string)
  {
    && refNames == oldNames[page.path := name] && reserved == oldReserved + {name}
    && Names(oldNames, oldReserved, page, name) && Titled(oldSections, refSections, name, page.title)
  }

  /** The references after the sections of `page`; `deferred` if there was one to defer. */
  ghost predicate RefsAfter(n0: map<string, string>, r0: set<string>, s0: map<string, seq<string>>,
                            n1: map<string, string>, r1: set<string>, s1: map<string, seq<string>>,
                            page: Page, deferred: bool)
  {
    if deferred then page.path in n1 && Referred(n0, r0, s0, n1, r1, s1, page, n1[page.path])
    else n1 == n0 && r1 == r0 && s1 == s0
  }

  lemma {:induction false} RefsAfterTwice(n0: map<string, string>, r0: set<string>, s0: map<string, seq<string>>,
                                          n1: map<string, string>, r1: set<string>, s1: map<string, seq<string>>,
                                          n2: map<string, string>, r2: set<string>, s2: map<string, seq<string>>,
                                          page: Page, a: bool, b: bool)
    requires RefsAfter(n0, r0, s0, n1, r1, s1, page, a) && RefsAfter(n1, r1, s1, n2, r2, s2, page, b)
    ensures RefsAfter(n0, r0, s0, n2, r2, s2, page, a || b)
  {
    if a && b {
      var name := n1[page.path];
      assert n2[page.path] == name;
      assert r2 == r0 + {name};
    }
  }

  /** White space is not deferred. */
  ghost function DeferredPiece(page: Page, heading: string, content: string, topic: string): seq<Piece> {
    if Strip(content) == "" then [] else [Piece(Strip(content), heading, topic, page.path, true)]
  }

  ghost function SectionLines(heading: string, content: string): seq<string> {
    ["## " + heading, "", content, ""]
  }

  ghost function Head(lines: seq<string>, heading: string, preamble: string): seq<string> {
    lines + ["## " + heading, ""] + if preamble == "" then [] else [preamble, ""]
  }

  /** SKILL.md after the first `n` sections: those that fit are in it. */
  ghost function LinesAfter(lines: seq<string>, sections: seq<Section>, n: nat): seq<string>
    requires n <= |sections|
  {
    if n == 0 then lines
    else
      var before := LinesAfter(lines, sections, n - 1);
      if Fits(before, [sections[n - 1].block, ""]) then before + [sections[n - 1].block, ""] else before
  }

  ghost predicate FitsNext(lines: seq<string>, sections: seq<Section>, n: nat)
    requires n < |sections|
  {
    Fits(LinesAfter(lines, sections, n), [sections[n].block, ""])
  }

  ghost function PlaceSection(page: Page, heading: string, section: Section, fits: bool): seq<Piece> {
    if fits then [Piece(section.block, heading, "", page.path, false)]
    else DeferredPiece(page, heading, section.block, section.heading)
  }

  /** Where the first `n` sections go. */
  ghost function PlaceSections(
      lines: seq<string>, page: Page, heading: string, sections: seq<Section>, n: nat): seq<Piece>
    requires n <= |sections|
  {
    if n == 0 then []
    else
      PlaceSections(lines, page, heading, sections, n - 1)
      + PlaceSection(page, heading, sections[n - 1], FitsNext(lines, sections, n - 1))
  }

  /** The headings of the deferred sections among the first `n`. */
  ghost function DeferredTopics(lines: seq<string>, sections: seq<Section>, n: nat): seq<string>
    requires n <= |sections|
  {
    if n == 0 then []
    else
      var topics := DeferredTopics(lines, sections, n - 1);
      if FitsNext(lines, sections, n - 1) || sections[n - 1].heading in topics then topics
      else topics + [sections[n - 1].heading]
  }

  /** Where the text of a section goes. */
  ghost function Placement(lines: seq<string>, page: Page, heading: string, content: string): seq<Piece> {
    if Fits(lines, SectionLines(heading, content)) then [Piece(content, heading, "", page.path, false)]
    else if Sections(content) == [] then DeferredPiece(page, heading, content, "")
    else PlaceSplit(lines, page, heading, Preamble(content), Sections(content))
  }

  ghost function PlacePreamble(page: Page, heading: string, preamble: string): seq<Piece> {
    if preamble == "" then [] else [Piece(preamble, heading, "", page.path, false)]
  }

  ghost function PlaceSplit(lines: seq<string>, page: Page, heading: string, preamble: string, sections: seq<Section>)
    : seq<Piece>
  {
    PlacePreamble(page, heading, preamble)
    + PlaceSections(Head(lines, heading, preamble), page, heading, sections, |sections|)
  }

  function Commas(topics: seq<string>): string {
    if topics == [] then ""
    else if |topics| == 1 then topics[0]
    else topics[0] + ", " + Commas(topics[1..])
  }

  function TopicText(topics: seq<string>): string {
    if |topics| > 3 then Commas(topics[..3]) + ", and related details" else Commas(topics)
  }

  function Pointer(name: string, what: string): string {
    "Load [references/" + name + "](references/" + name + ") for detailed steps" + what + "."
  }

  /** SKILL.md after a section. */
  ghost function Layout(lines: seq<string>, heading: string, content: string, name: string): seq<string> {
    if Fits(lines, SectionLines(heading, content)) then lines + SectionLines(heading, content)
    else if Sections(content) == [] then lines + ["## " + heading, "", Pointer(name, ""), ""]
    else SplitLayout(lines, heading, Preamble(content), Sections(content), name)
  }

  ghost function SplitLayout(
      lines: seq<string>, heading: string, preamble: string, sections: seq<Section>, name: string)
    : seq<string>
  {
    var head, n := Head(lines, heading, preamble), |sections|;
    var topics := DeferredTopics(head, sections, n);
    LinesAfter(head, sections, n) + if topics == [] then [] else [Pointer(name, " on " + TopicText(topics)), ""]
  }

  /** A pointer names the reference and links to it, and ends with a full stop. */
  lemma {:induction false} PointerLinks(name: string, what: string)
    requires name != "" && ')' !in name
    ensures LinkAt(Pointer(name, what), |name| + 17, 2 * |name| + 30)
    ensures Pointer(name, what)[..|name| + 17] == "Load [references/" + name
    ensures Pointer(name, what)[|name| + 30..2 * |name| + 30] == name
    ensures Pointer(name, what)[2 * |name| + 30..] == ") for detailed steps" + what + "."
  {
    var pointer := Pointer(name, what);
    var front, back := "Load [references/" + name, ") for detailed steps" + what + ".";
    var k := |front| + |LINK|;
    assert pointer == front + LINK + name + back;
    assert pointer[..|front|] == front && pointer[|front|..k] == LINK;
    assert pointer[k..k + |name|] == name && pointer[k + |name|..] == back;
    assert pointer[k + |name|] == back[0];
  }

  /** At most three topics are named. */
  lemma {:induction false} TopicsNamed(a: string, b: string, c: string, rest: seq<string>)
    ensures TopicText([a]) == a && TopicText([a, b]) == a + ", " + b
    ensures TopicText([a, b, c]) == a + ", " + (b + ", " + c)
    ensures rest != [] ==> TopicText([a, b, c] + rest) == a + ", " + (b + ", " + c) + ", and related details"
  {
    assert [b, c][1..] == [c] && [a, b][1..] == [b] && [a, b, c][1..] == [b, c];
    assert Commas([c]) == c && Commas([b]) == b && Commas([a, b]) == a + ", " + Commas([b]);
    assert Commas([b, c]) == b + ", " + c && Commas([a, b, c]) == a + ", " + Commas([b, c]);
    assert ([a, b, c] + rest)[..3] == [a, b, c];
    Assoc(a, ", ", b);
    Assoc(b, ", ", c);
    Assoc(a, ", ", b + ", " + c);
  }

  lemma {:induction false} SplitPieces(pieces: seq<Piece>, lines: seq<string>, page: Page, heading: string,
                                       preamble: string, sections: seq<Section>)
    ensures pieces + PlacePreamble(page, heading, preamble)
              + PlaceSections(Head(lines, heading, preamble), page, heading, sections, |sections|)
         == pieces + PlaceSplit(lines, page, heading, preamble, sections)
  {
    var a := PlacePreamble(page, heading, preamble);
    var b := PlaceSections(Head(lines, heading, preamble), page, heading, sections, |sections|);
    assert pieces + a + b == pieces + (a + b);
  }

  /** Whether the reference of the page is needed. */
  ghost predicate Defers(lines: seq<string>, heading: string, content: string) {
    && !Fits(lines, SectionLines(heading, content))
    && (Sections(content) == []
        || DeferredTopics(Head(lines, heading, Preamble(content)), Sections(content), |Sections(content)|) != [])
  }

  ghost function NameOf(refNames: map<string, string>, page: Page): string {
    if page.path in refNames then refNames[page.path] else ""
  }

  lemma {:induction false} InkOfConcat(a: seq<Piece>, b: seq<Piece>)
    ensures InkOf(a + b) == InkOf(a) + InkOf(b)
  {
    if b == [] {
      assert a + b == a;
    } else {
      var init, last := b[..|b| - 1], b[|b| - 1];
      InkOfConcat(a, init);
      assert a + b == a + init + [last];
      PiecesSnoc(a + init, last);
      Assoc(InkOf(a), InkOf(init), Ink(last.text));
    }
  }

  lemma {:induction false} InkOfOne(p: Piece)
    ensures InkOf([p]) == Ink(p.text)
  {
    assert InkOf([p][..0]) == "";
  }

  lemma {:induction false} InkOfDeferred(page: Page, heading: string, content: string, topic: string)
    ensures InkOf(DeferredPiece(page, heading, content, topic)) == Ink(content)
  {
    InkStrip(content);
    InkOfOne(Piece(Strip(content), heading, topic, page.path, true));
  }

  lemma {:induction false} PlaceNext(pieces: seq<Piece>, lines: seq<string>, page: Page, heading: string,
                                     sections: seq<Section>, n: nat)
    requires n < |sections|
    ensures pieces + PlaceSections(lines, page, heading, sections, n)
              + PlaceSection(page, heading, sections[n], FitsNext(lines, sections, n))
         == pieces + PlaceSections(lines, page, heading, sections, n + 1)
  {
    var a := PlaceSections(lines, page, heading, sections, n);
    var b := PlaceSection(page, heading, sections[n], FitsNext(lines, sections, n));
    assert pieces + a + b == pieces + (a + b);
  }

  lemma {:induction false} InkOfPlaced(page: Page, heading: string, section: Section, fits: bool)
    ensures InkOf(PlaceSection(page, heading, section, fits)) == Ink(section.block)
  {
    InkOfDeferred(page, heading, section.block, section.heading);
    InkOfOne(Piece(section.block, heading, "", page.path, false));
  }

  lemma {:induction false} InkOfNext(sections: seq<Section>, n: nat)
    requires n < |sections|
    ensures InkOfSections(sections[..n + 1]) == InkOfSections(sections[..n]) + Ink(sections[n].block)
  {
    assert sections[..n + 1][..n] == sections[..n];
  }

  lemma {:induction false} PlaceConserves(
      lines: seq<string>, page: Page, heading: string, sections: seq<Section>, n: nat)
    requires n <= |sections|
    ensures InkOf(PlaceSections(lines, page, heading, sections, n)) == InkOfSections(sections[..n])
  {
    if n > 0 {
      PlaceConserves(lines, page, heading, sections, n - 1);
      InkOfPlaced(page, heading, sections[n - 1], FitsNext(lines, sections, n - 1));
      InkOfConcat(PlaceSections(lines, page, heading, sections, n - 1),
                  PlaceSection(page, heading, sections[n - 1], FitsNext(lines, sections, n - 1)));
      InkOfNext(sections, n - 1);
    }
  }

  /** Main result: the pieces of a section, inline and deferred, are its text: all of it, once, in order. */
  lemma {:induction false} PlacementConserves(lines: seq<string>, page: Page, heading: string, content: string)
    ensures InkOf(Placement(lines, page, heading, content)) == Ink(content)
  {
    if Fits(lines, SectionLines(heading, content)) {
      InkOfOne(Piece(content, heading, "", page.path, false));
    } else if Sections(content) == [] {
      InkOfDeferred(page, heading, content, "");
    } else {
      var preamble, sections := Preamble(content), Sections(content);
      var first := PlacePreamble(page, heading, preamble);
      InkOfOne(Piece(preamble, heading, "", page.path, false));
      assert InkOf(first) == Ink(preamble);
      PlaceConserves(Head(lines, heading, preamble), page, heading, sections, |sections|);
      assert sections[..|sections|] == sections;
      InkOfConcat(first, PlaceSections(Head(lines, heading, preamble), page, heading, sections, |sections|));
      SplitConserves(content);
    }
  }

  lemma {:induction false} OfferConserves(
      pieces: seq<Piece>, lines: seq<string>, page: Page, heading: string, content: string)
    ensures InkOf(pieces + Placement(lines, page, heading, content)) == InkOf(pieces) + Ink(content)
  {
    PlacementConserves(lines, page, heading, content);
    InkOfConcat(pieces, Placement(lines, page, heading, content));
  }

  /** A section that the size check admits brings SKILL.md to at most one character over the limit. */
  lemma {:induction false} AdmittedSection(lines: seq<string>, sections: seq<Section>, n: nat)
    requires n < |sections| && FitsNext(lines, sections, n)
    ensures Size(LinesAfter(lines, sections, n + 1)) <= 11_501
  {
    AdmittedSize(LinesAfter(lines, sections, n), [sections[n].block, ""]);
  }

  class Skill {
    var lines: seq<string>
    var refNames: map<string, string>
    var reserved: set<string>
    var refSections: map<string, seq<string>>
    var refTopics: map<string, seq<string>>
    ghost var marks: seq<bool>
    ghost var pieces: seq<Piece>

    /** The marked lines of SKILL.md are the inline pieces, in order; the references hold the others. */
    ghost predicate Valid()
      reads this
    {
      && |marks| == |lines| && Picked(lines, marks) == InlineTexts(pieces)
      && Distinct(refNames) && AllReserved(refNames, reserved) && refSections.Keys <= reserved
      && Filed(refNames, refSections, refTopics, pieces)
    }

    /** A skill with its front matter; the names of the copied pages are reserved. */
    constructor (lines: seq<string>, reserved: set<string>)
      ensures Valid() && this.lines == lines && this.reserved == reserved && pieces == []
      ensures refNames == map[] && refSections == map[]
    {
      this.lines, this.reserved := lines, reserved;
      refNames, refSections, refTopics := map[], map[], map[];
      marks, pieces := seq(|lines|, _ => false), [];
      new;
      NoneMarked(lines);
    }

    method Write(line: string)
      requires Valid()
      modifies this`lines, this`marks
      ensures Valid() && lines == old(lines) + [line]
    {
      PickedSnoc(lines, marks, line, false);
      lines, marks := lines + [line], marks + [false];
    }

    method WriteText(page: Page, heading: string, text: string)
      requires Valid()
      modifies this`lines, this`marks, this`pieces
      ensures Valid() && lines == old(lines) + [text]
      ensures pieces == old(pieces) + [Piece(text, heading, "", page.path, false)]
    {
      PickedSnoc(lines, marks, text, true);
      FiledInline(refNames, refSections, refTopics, pieces, Piece(text, heading, "", page.path, false));
      lines, marks := lines + [text], marks + [true];
      pieces := pieces + [Piece(text, heading, "", page.path, false)];
    }

    method UniqueGeneratedRefName(page: Page) returns (name: string)
      requires Valid()
      modifies this`refNames, this`reserved
      ensures Valid()
      ensures refNames == old(refNames)[page.path := name] && reserved == old(reserved) + {name}
      ensures Names(old(refNames), old(reserved), page, name)
    {
      if page.path in refNames {
        name := refNames[page.path];
        assert refNames == refNames[page.path := name] && reserved == reserved + {name};
        return;
      }
      name := FindFree(page.base, reserved);
      reserved := reserved + {name};
      refNames := refNames[page.path := name];
    }

    /** The first piece of a page starts its reference with a title. */
    method StartReference(refName: string, page: Page)
      requires Valid() && page.path in refNames && refNames[page.path] == refName
      modifies this`refSections, this`refTopics
      ensures Valid() && refName in refSections && Titled(old(refSections), refSections, refName, page.title)
    {
      if refName !in refSections {
        FiledStart(refNames, refSections, refTopics, pieces, page.path, "# " + page.title + ": Details");
        refSections := refSections[refName := ["# " + page.title + ": Details"]];
        refTopics := refTopics[refName := []];
      }
    }

    method AddBlock(refName: string, page: Page, sectionHeading: string, block: string, topic: string)
      requires Valid() && page.path in refNames && refNames[page.path] == refName && refName in refSections
      modifies this`refSections, this`refTopics, this`pieces
      ensures Valid() && Titled(old(refSections), refSections, refName, page.title)
      ensures pieces == old(pieces) + [Piece(block, sectionHeading, topic, page.path, true)]
    {
      ghost var piece := Piece(block, sectionHeading, topic, page.path, true);
      FiledDeferred(refNames, refSections, refTopics, pieces, piece, refName);
      refSections := refSections[refName := refSections[refName] + [RefBlock(sectionHeading, block)]];
      refTopics := refTopics[refName := WithTopic(refTopics[refName], TopicOr(topic, sectionHeading))];
      pieces := pieces + [piece];
    }

    method DeferDetail(page: Page, sectionHeading: string, content: string, topic: string) returns (refName: string)
      requires Valid()
      modifies this`refNames, this`reserved, this`refSections, this`refTopics, this`pieces
      ensures Valid()
      ensures pieces == old(pieces) + DeferredPiece(page, sectionHeading, content, topic)
      ensures Referred(old(refNames), old(reserved), old(refSections), refNames, reserved, refSections, page, refName)
    {
      refName := UniqueGeneratedRefName(page);
      StartReference(refName, page);
      var block := Strip(content);
      if block != "" {
        AddBlock(refName, page, sectionHeading, block, topic);
      }
    }

    /** A section that fits goes to SKILL.md, another to the reference of the page. */
    method AppendSubsection(page: Page, heading: string, section: Section) returns (deferred: bool)
      requires Valid()
      modifies this
      ensures Valid() && deferred == !Fits(old(lines), [section.block, ""])
      ensures lines == if deferred then old(lines) else old(lines) + [section.block, ""]
      ensures pieces == old(pieces) + PlaceSection(page, heading, section, !deferred)
      ensures RefsAfter(old(refNames), old(reserved), old(refSections), refNames, reserved, refSections, page, deferred)
    {
      deferred := !Fits(lines, [section.block, ""]);
      if deferred {
        var _ := DeferDetail(page, heading, section.block, section.heading);
      } else {
        WriteText(page, heading, section.block);
        Write("");
        assert lines == old(lines) + [section.block, ""];
      }
    }

    method AppendSubsections(page: Page, heading: string, sections: seq<Section>) returns (deferredTopics: seq<string>)
      requires Valid()
      modifies this
      ensures Valid()
      ensures lines == LinesAfter(old(lines), sections, |sections|)
      ensures pieces == old(pieces) + PlaceSections(old(lines), page, heading, sections, |sections|)
      ensures deferredTopics == DeferredTopics(old(lines), sections, |sections|)
      ensures RefsAfter(old(refNames), old(reserved), old(refSections), refNames, reserved, refSections, page,
                        deferredTopics != [])
    {
      deferredTopics := [];
      for k := 0 to |sections|
        invariant Valid() && lines == LinesAfter(old(lines), sections, k)
        invariant pieces == old(pieces) + PlaceSections(old(lines), page, heading, sections, k)
        invariant deferredTopics == DeferredTopics(old(lines), sections, k)
        invariant RefsAfter(old(refNames), old(reserved), old(refSections), refNames, reserved, refSections, page,
                            deferredTopics != [])
      {
        ghost var names, taken, refs := refNames, reserved, refSections;
        PlaceNext(old(pieces), old(lines), page, heading, sections, k);
        var deferred := AppendSubsection(page, heading, sections[k]);
        RefsAfterTwice(old(refNames), old(reserved), old(refSections), names, taken, refs,
                       refNames, reserved, refSections,
                       page, deferredTopics != [], deferred);
        if deferred && sections[k].heading !in deferredTopics {
          deferredTopics := deferredTopics + [sections[k].heading];
        }
      }
    }

    /** `lines.extend` with lines of which `text` is document text. */
    method WriteBlock(page: Page, heading: string, before: seq<string>, text: string)
      requires Valid()
      modifies this`lines, this`marks, this`pieces
      ensures Valid() && lines == old(lines) + (before + [text, ""])
      ensures pieces == old(pieces) + [Piece(text, heading, "", page.path, false)]
    {
      WriteAll(before);
      WriteText(page, heading, text);
      Write("");
      assert lines == old(lines) + (before + [text, ""]);
    }

    method WriteAll(more: seq<string>)
      requires Valid()
      modifies this`lines, this`marks
      ensures Valid() && lines == old(lines) + more
    {
      for k := 0 to |more|
        invariant Valid() && lines == old(lines) + more[..k]
      {
        Write(more[k]);
        assert more[..k + 1] == more[..k] + [more[k]];
      }
      assert more[..|more|] == more;
    }

    /** The heading and the preamble of a section that is split. */
    method WriteHead(page: Page, heading: string, preamble: string)
      requires Valid()
      modifies this`lines, this`marks, this`pieces
      ensures Valid() && lines == Head(old(lines), heading, preamble)
      ensures pieces == old(pieces) + PlacePreamble(page, heading, preamble)
    {
      WriteAll(["## " + heading, ""]);
      if preamble != "" {
        WriteBlock(page, heading, [], preamble);
        assert [preamble, ""] == [] + [preamble, ""];
      }
    }

    method WritePointer(page: Page, topics: seq<string>)
      requires Valid() && (topics != [] ==> page.path in refNames)
      modifies this
      ensures Valid() && pieces == old(pieces)
      ensures refNames == old(refNames) && reserved == old(reserved) && refSections == old(refSections)
      ensures lines == old(lines) +
        if topics == [] then [] else [Pointer(NameOf(refNames, page), " on " + TopicText(topics)), ""]
    {
      if topics != [] {
        var refName := UniqueGeneratedRefName(page);
        WriteAll([Pointer(refName, " on " + TopicText(topics)), ""]);
      }
    }

    method AppendSplit(page: Page, heading: string, preamble: string, subsections: seq<Section>)
      requires Valid()
      modifies this
      ensures Valid()
      ensures pieces == old(pieces) + PlaceSplit(old(lines), page, heading, preamble, subsections)
      ensures lines == SplitLayout(old(lines), heading, preamble, subsections, NameOf(refNames, page))
      ensures RefsAfter(old(refNames), old(reserved), old(refSections), refNames, reserved, refSections, page,
                        DeferredTopics(Head(old(lines), heading, preamble), subsections, |subsections|) != [])
    {
      SplitPieces(pieces, lines, page, heading, preamble, subsections);
      WriteHead(page, heading, preamble);
      var deferredTopics := AppendSubsections(page, heading, subsections);
      WritePointer(page, deferredTopics);
    }

    method AppendWhole(page: Page, heading: string, content: string)
      requires Valid()
      modifies this
      ensures Valid() && pieces == old(pieces) + DeferredPiece(page, heading, content, "")
      ensures lines == old(lines) + ["## " + heading, "", Pointer(NameOf(refNames, page), ""), ""]
      ensures RefsAfter(old(refNames), old(reserved), old(refSections), refNames, reserved, refSections, page, true)
    {
      var refName := DeferDetail(page, heading, content, "");
      WriteAll(["## " + heading, "", Pointer(refName, ""), ""]);
    }

    /** Everything of the section is in SKILL.md or in the reference of its page, once and in order. */
    method AppendSectionOrDefer(page: Page, heading: string, cleanedContent: string)
      requires Valid()
      modifies this
      ensures Valid()
      ensures pieces == old(pieces) + Placement(old(lines), page, heading, cleanedContent)
      ensures lines == Layout(old(lines), heading, cleanedContent, NameOf(refNames, page))
      ensures RefsAfter(old(refNames), old(reserved), old(refSections), refNames, reserved, refSections, page,
                        Defers(old(lines), heading, cleanedContent))
      ensures InkOf(pieces) == InkOf(old(pieces)) + Ink(cleanedContent)
      ensures Fits(old(lines), SectionLines(heading, cleanedContent)) ==> Size(lines) <= 11_501
    {
      OfferConserves(pieces, lines, page, heading, cleanedContent);
      if Fits(lines, ["## " + heading, "", cleanedContent, ""]) {
        AdmittedSize(lines, SectionLines(heading, cleanedContent));
        assert SectionLines(heading, cleanedContent) == ["## " + heading, ""] + [cleanedContent, ""];
        WriteBlock(page, heading, ["## " + heading, ""], cleanedContent);
        return;
      }
      var preamble, subsections := SplitMarkdownH3Sections(cleanedContent);
      if subsections == [] {
        AppendWhole(page, heading, cleanedContent);
      } else {
        AppendSplit(page, heading, preamble, subsections);
      }
    }
  }

  lemma {:induction false} NoneMarked(lines: seq<string>)
    ensures Picked(lines, seq(|lines|, _ => false)) == []
  {
    if lines != [] {
      NoneMarked(lines[..|lines| - 1]);
      assert seq(|lines|, _ => false)[..|lines| - 1] == seq(|lines| - 1, _ => false);
    }
  }
}
