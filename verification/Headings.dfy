/** Heading levels of Markdown text, as normalised by scripts/docs-to-skills.py
    (normalize_heading_levels). A text is the sequence of its lines; the level of a line
    is 0 unless it is a heading. */
module Headings {

  /** What `\s` matches in a Unicode string. */
  predicate IsSpace(c: char) {
    || c == ' ' || '\t' <= c <= '\r' || '\U{1c}' <= c <= '\U{1f}' || c in "\U{85}\U{a0}\U{1680}"
    || '\U{2000}' <= c <= '\U{200a}' || c in "\U{2028}\U{2029}\U{202f}\U{205f}\U{3000}"
  }

  /** The number of `#` at the front. */
  function Hashes(line: string): nat {
    if line != "" && line[0] == '#' then 1 + Hashes(line[1..]) else 0
  }

  /** The level of a heading line, `^#{1,6}\s`; 0 for any other line. */
  function Level(line: string): nat {
    var n := Hashes(line);
    if 1 <= n <= 6 && n < |line| && IsSpace(line[n]) then n else 0
  }

  /** `n` signs and then a white-space character, at the front. */
  ghost predicate OfLevel(line: string, n: nat) {
    1 <= n <= 6 && n < |line| && IsSpace(line[n]) && forall i | 0 <= i < n :: line[i] == '#'
  }

  lemma {:induction false} LevelExact(line: string)
    ensures forall n: nat | n > 0 :: Level(line) == n <==> OfLevel(line, n)
    ensures Level(line) == 0 <==> forall n: nat :: !OfLevel(line, n)
  {
    HashesAreHashes(line);
    forall n: nat | OfLevel(line, n) ensures Level(line) == n {
      assert line[n] != '#';
    }
    if Level(line) > 0 {
      assert OfLevel(line, Level(line));
    }
  }

  const SPACES: set<char> :=
    {'\t', '\n', '\U{b}', '\U{c}', '\r', '\U{1c}', '\U{1d}', '\U{1e}', '\U{1f}', ' ', '\U{85}', '\U{a0}', '\U{1680}',
     '\U{2000}', '\U{2001}', '\U{2002}', '\U{2003}', '\U{2004}', '\U{2005}', '\U{2006}', '\U{2007}', '\U{2008}',
     '\U{2009}', '\U{200a}', '\U{2028}', '\U{2029}', '\U{202f}', '\U{205f}', '\U{3000}'}

  lemma {:induction false} SpacesAre(c: char)
    ensures IsSpace(c) <==> c in SPACES
  {
    var few, more := "\U{85}\U{a0}\U{1680}", "\U{2028}\U{2029}\U{202f}\U{205f}\U{3000}";
    assert few == ['\U{85}', '\U{a0}', '\U{1680}'];
    assert more == ['\U{2028}', '\U{2029}', '\U{202f}', '\U{205f}', '\U{3000}'];
    assert c in few <==> c == '\U{85}' || c == '\U{a0}' || c == '\U{1680}';
    assert c in more <==>
      c == '\U{2028}' || c == '\U{2029}' || c == '\U{202f}' || c == '\U{205f}' || c == '\U{3000}';
  }

  function Min(a: nat, b: nat): nat {
    if a < b then a else b
  }

  // ----- Levels alone -----

  /** The level that line `n - 1` gets if it is a heading, else that of the last heading before it;
      0 if there is none. */
  function Allowed(levels: seq<nat>, n: nat): nat
    requires n <= |levels|
  {
    if n == 0 then 0
    else if levels[n - 1] == 0 then Allowed(levels, n - 1)
    else Min(levels[n - 1], Allowed(levels, n - 1) + 1)
  }

  function NewLevel(levels: seq<nat>, i: nat): nat
    requires i < |levels|
  {
    if levels[i] == 0 then 0 else Allowed(levels, i + 1)
  }

  function Remapped(levels: seq<nat>): (r: seq<nat>)
    ensures |r| == |levels|
  {
    seq(|levels|, i requires 0 <= i < |levels| => NewLevel(levels, i))
  }

  /** The level of the last heading before line `n`, 0 if there is none. */
  ghost function LevelBefore(levels: seq<nat>, n: nat): nat
    requires n <= |levels|
  {
    if n == 0 then 0 else if levels[n - 1] > 0 then levels[n - 1] else LevelBefore(levels, n - 1)
  }

  /** The headings start at level 1 and never rise by more than one. */
  ghost predicate WellStepped(levels: seq<nat>) {
    forall i {:trigger levels[i]} | 0 <= i < |levels| :: levels[i] <= LevelBefore(levels, i) + 1
  }

  /** Headings on the same lines, none of a greater level. */
  ghost predicate NoDeeper(other: seq<nat>, levels: seq<nat>) {
    |other| == |levels| && forall i | 0 <= i < |levels| ::
      other[i] <= levels[i] && (other[i] == 0 <==> levels[i] == 0)
  }

  lemma {:induction false} RemappedBefore(levels: seq<nat>, n: nat)
    requires n <= |levels|
    ensures LevelBefore(Remapped(levels), n) == Allowed(levels, n)
  {
    if n > 0 {
      RemappedBefore(levels, n - 1);
    }
  }

  /** The new levels are well stepped and nowhere deeper than the old ones ... */
  lemma {:induction false} RemappedWellStepped(levels: seq<nat>)
    ensures WellStepped(Remapped(levels)) && NoDeeper(Remapped(levels), levels)
  {
    forall i | 0 <= i < |levels| ensures Remapped(levels)[i] <= LevelBefore(Remapped(levels), i) + 1 {
      RemappedBefore(levels, i);
    }
  }

  /** ... and the greatest such: well-stepped levels nowhere deeper than the old ones are
      nowhere deeper than the new ones. */
  lemma {:induction false} RemappedGreatest(levels: seq<nat>, other: seq<nat>)
    requires WellStepped(other) && NoDeeper(other, levels)
    ensures NoDeeper(other, Remapped(levels))
  {
    forall i | 0 <= i < |levels| ensures other[i] <= Remapped(levels)[i] {
      OtherBelow(levels, other, i + 1);
    }
  }

  lemma {:induction false} OtherBelow(levels: seq<nat>, other: seq<nat>, n: nat)
    requires WellStepped(other) && NoDeeper(other, levels) && n <= |levels|
    ensures LevelBefore(other, n) <= Allowed(levels, n)
    ensures n > 0 && levels[n - 1] > 0 ==> other[n - 1] <= Allowed(levels, n)
  {
    if n > 0 {
      OtherBelow(levels, other, n - 1);
      assert other[n - 1] <= LevelBefore(other, n - 1) + 1;
    }
  }

  /** The levels stay if and only if they are well stepped. */
  lemma {:induction false} RemappedSame(levels: seq<nat>)
    ensures Remapped(levels) == levels <==> WellStepped(levels)
  {
    RemappedWellStepped(levels);
    if WellStepped(levels) {
      RemappedGreatest(levels, levels);
    }
  }

  // ----- Lines -----

  function Levels(lines: seq<string>): (r: seq<nat>)
    ensures |r| == |lines|
  {
    seq(|lines|, i requires 0 <= i < |lines| => Level(lines[i]))
  }

  /** A heading line with another level. */
  function WithLevel(line: string, level: nat): string {
    seq(level, _ => '#') + line[Level(line)..]
  }

  function NewLine(line: string, level: nat): string {
    if Level(line) == 0 then line else WithLevel(line, level)
  }

  function Normalized(lines: seq<string>): (r: seq<string>)
    ensures |r| == |lines|
  {
    seq(|lines|, i requires 0 <= i < |lines| => NewLine(lines[i], NewLevel(Levels(lines), i)))
  }

  lemma {:induction false} HashesAreHashes(line: string)
    ensures Hashes(line) <= |line| && forall i | 0 <= i < Hashes(line) :: line[i] == '#'
    ensures Hashes(line) < |line| ==> line[Hashes(line)] != '#'
  {
    if line != "" && line[0] == '#' {
      HashesAreHashes(line[1..]);
      forall i | 0 < i < Hashes(line) ensures line[i] == '#' {
        assert line[i] == line[1..][i - 1];
      }
    }
  }

  lemma {:induction false} HashesOf(n: nat, rest: string)
    requires rest != "" && rest[0] != '#'
    ensures Hashes(seq(n, _ => '#') + rest) == n
  {
    var line := seq(n, _ => '#') + rest;
    if n == 0 {
      assert line == rest;
    } else {
      assert line[1..] == seq(n - 1, _ => '#') + rest;
      HashesOf(n - 1, rest);
    }
  }

  /** A rewritten heading has the level asked for and keeps the rest of its line. */
  lemma {:induction false} WithLevelIs(line: string, level: nat)
    requires Level(line) > 0 && 1 <= level <= Level(line)
    ensures Level(WithLevel(line, level)) == level
    ensures WithLevel(line, level)[level..] == line[Level(line)..]
    ensures level == Level(line) ==> WithLevel(line, level) == line
  {
    HashesAreHashes(line);
    var rest := line[Level(line)..];
    HashesOf(level, rest);
    assert WithLevel(line, level) == seq(level, _ => '#') + rest;
    if level == Level(line) {
      assert seq(level, _ => '#') == line[..level];
    }
  }

  lemma {:induction false} NewLevelBounds(levels: seq<nat>, i: nat)
    requires i < |levels|
    ensures NewLevel(levels, i) <= levels[i] && (NewLevel(levels, i) == 0 <==> levels[i] == 0)
  {
  }

  /** Line by line, the normalised text is the original with the new heading levels. */
  lemma {:induction false} NormalizedLine(lines: seq<string>, i: nat)
    requires i < |lines|
    ensures Level(Normalized(lines)[i]) == NewLevel(Levels(lines), i)
    ensures Normalized(lines)[i][Level(Normalized(lines)[i])..] == lines[i][Level(lines[i])..]
    ensures NewLevel(Levels(lines), i) == Level(lines[i]) ==> Normalized(lines)[i] == lines[i]
  {
    NewLevelBounds(Levels(lines), i);
    if Level(lines[i]) > 0 {
      WithLevelIs(lines[i], NewLevel(Levels(lines), i));
    }
  }

  /** Main result: the normalised text is well stepped, nowhere deeper than the original, and the
      deepest such. */
  lemma {:induction false} NormalizedLevels(lines: seq<string>)
    ensures Levels(Normalized(lines)) == Remapped(Levels(lines))
    ensures WellStepped(Levels(Normalized(lines))) && NoDeeper(Levels(Normalized(lines)), Levels(lines))
    ensures forall other | WellStepped(other) && NoDeeper(other, Levels(lines)) ::
      NoDeeper(other, Levels(Normalized(lines)))
  {
    forall i | 0 <= i < |lines| ensures Levels(Normalized(lines))[i] == NewLevel(Levels(lines), i) {
      NormalizedLine(lines, i);
    }
    assert Levels(Normalized(lines)) == Remapped(Levels(lines));
    RemappedWellStepped(Levels(lines));
    forall other | WellStepped(other) && NoDeeper(other, Levels(lines))
      ensures NoDeeper(other, Remapped(Levels(lines)))
    {
      RemappedGreatest(Levels(lines), other);
    }
  }

  /** Main result: a text is left as it is if and only if it is well stepped. */
  lemma {:induction false} NormalizedSame(lines: seq<string>)
    ensures Normalized(lines) == lines <==> WellStepped(Levels(lines))
  {
    NormalizedLevels(lines);
    if WellStepped(Levels(lines)) {
      RemappedSame(Levels(lines));
      forall i | 0 <= i < |lines| ensures Normalized(lines)[i] == lines[i] {
        NormalizedLine(lines, i);
        assert Remapped(Levels(lines))[i] == Levels(lines)[i];
      }
    }
  }

  /** So remapping twice is remapping once. */
  lemma {:induction false} NormalizedTwice(lines: seq<string>)
    ensures Normalized(Normalized(lines)) == Normalized(lines)
  {
    NormalizedLevels(lines);
    NormalizedSame(Normalized(lines));
  }

  // ----- Headings among other lines -----

  predicate NoHeadings(lines: seq<string>) {
    forall line | line in lines :: Level(line) == 0
  }

  /** A level added at the end. */
  lemma {:induction false} WellSteppedSnoc(levels: seq<nat>, level: nat)
    ensures WellStepped(levels + [level]) <==> WellStepped(levels) && level <= LevelBefore(levels, |levels|) + 1
    ensures LevelBefore(levels + [level], |levels| + 1) == if level > 0 then level else LevelBefore(levels, |levels|)
  {
    var longer := levels + [level];
    LevelBeforePrefix(levels, longer, |levels|);
    forall i | 0 <= i < |levels| ensures LevelBefore(longer, i) == LevelBefore(levels, i) {
      LevelBeforePrefix(levels, longer, i);
    }
    assert longer[|levels|] == level;
    assert forall i | 0 <= i < |levels| :: longer[i] == levels[i];
  }

  lemma {:induction false} LevelBeforePrefix(a: seq<nat>, b: seq<nat>, n: nat)
    requires n <= |a| <= |b| && a == b[..|a|]
    ensures LevelBefore(a, n) == LevelBefore(b, n)
  {
    if n > 0 {
      assert a[n - 1] == b[n - 1];
      LevelBeforePrefix(a, b, n - 1);
    }
  }

  lemma {:induction false} LevelsSnoc(lines: seq<string>, line: string)
    ensures Levels(lines + [line]) == Levels(lines) + [Level(line)]
  {
  }

  lemma {:induction false} NoHeadingsStepped(lines: seq<string>)
    requires NoHeadings(lines)
    ensures WellStepped(Levels(lines))
  {
    forall i | 0 <= i < |lines| ensures Levels(lines)[i] == 0 {
      assert lines[i] in lines;
    }
  }

  // ----- The three passes -----

  datatype Heading = Heading(line: nat, level: nat)

  /** The headings among the first `n` lines. */
  ghost function HeadingsIn(levels: seq<nat>, n: nat): seq<Heading>
    requires n <= |levels|
  {
    if n == 0 then []
    else HeadingsIn(levels, n - 1) + (if levels[n - 1] > 0 then [Heading(n - 1, levels[n - 1])] else [])
  }

  lemma {:induction false} HeadingsPrefix(levels: seq<nat>, m: nat, n: nat)
    requires m <= n <= |levels|
    ensures HeadingsIn(levels, m) <= HeadingsIn(levels, n)
  {
    if m < n {
      HeadingsPrefix(levels, m, n - 1);
    }
  }

  /** The line after the `k`-th heading, when the headings before it are those of the first `n` lines. */
  lemma {:induction false} NextHeading(levels: seq<nat>, n: nat, k: nat, headings: seq<Heading>) returns (m: nat)
    requires headings == HeadingsIn(levels, |levels|) && k < |headings|
    requires n <= |levels| && HeadingsIn(levels, n) == headings[..k]
    ensures n < m <= |levels| && HeadingsIn(levels, m) == headings[..k + 1]
    ensures headings[k] == Heading(m - 1, levels[m - 1]) && levels[m - 1] > 0
    ensures forall i | n <= i < m - 1 :: levels[i] == 0
    ensures Allowed(levels, m - 1) == Allowed(levels, n)
    decreases |levels| - n
  {
    assert |HeadingsIn(levels, n)| == k;
    HeadingsPrefix(levels, n + 1, |levels|);
    if levels[n] > 0 {
      m := n + 1;
      assert HeadingsIn(levels, m) == headings[..|HeadingsIn(levels, m)|];
    } else {
      m := NextHeading(levels, n + 1, k, headings);
    }
  }

  lemma {:induction false} NoMoreHeadings(levels: seq<nat>, n: nat, i: nat)
    requires n <= i < |levels| && HeadingsIn(levels, n) == HeadingsIn(levels, |levels|)
    ensures levels[i] == 0
  {
    HeadingsPrefix(levels, n, i);
    HeadingsPrefix(levels, i + 1, |levels|);
  }

  /** The first pass: collect the headings. */
  method CollectHeadings(text: seq<string>) returns (headings: seq<Heading>)
    ensures headings == HeadingsIn(Levels(text), |text|)
  {
    headings := [];
    for i := 0 to |text|
      invariant headings == HeadingsIn(Levels(text), i)
    {
      var level := Level(text[i]);
      assert Levels(text)[i] == level;
      if level > 0 {
        headings := headings + [Heading(i, level)];
      }
    }
  }

  /** The remap holds the new level of each heading. */
  ghost predicate Remaps(levels: seq<nat>, headings: seq<Heading>, remap: map<nat, nat>) {
    forall k | 0 <= k < |headings| ::
      && headings[k].line < |levels| && headings[k].line in remap
      && remap[headings[k].line] == NewLevel(levels, headings[k].line)
  }

  /** The second pass: compute the new levels. */
  method Remap(ghost levels: seq<nat>, headings: seq<Heading>) returns (remap: map<nat, nat>)
    requires headings == HeadingsIn(levels, |levels|)
    ensures Remaps(levels, headings, remap)
  {
    remap := map[];
    var maxAllowed := 0;
    ghost var n := 0;
    for k := 0 to |headings|
      invariant n <= |levels| && HeadingsIn(levels, n) == headings[..k] && maxAllowed == Allowed(levels, n)
      invariant Remaps(levels, headings[..k], remap)
    {
      ghost var m := NextHeading(levels, n, k, headings);
      n := m;
      var newLevel := Min(headings[k].level, maxAllowed + 1);
      assert newLevel == NewLevel(levels, headings[k].line) == Allowed(levels, n);
      remap := remap[headings[k].line := newLevel];
      maxAllowed := newLevel;
    }
    assert headings[..|headings|] == headings;
  }

  lemma {:induction false} NotHeadings(text: seq<string>, n: nat, m: nat)
    requires n <= m <= |text|
    requires forall i | n <= i < m :: Levels(text)[i] == 0
    ensures forall i | n <= i < m :: Normalized(text)[i] == text[i]
  {
    forall i | n <= i < m ensures Normalized(text)[i] == text[i] {
      assert Levels(text)[i] == Level(text[i]);
    }
  }

  /** The text with its first `n` lines rewritten. */
  ghost function RewrittenTo(text: seq<string>, n: nat): (r: seq<string>)
    requires n <= |text|
    ensures |r| == |text|
  {
    Normalized(text)[..n] + text[n..]
  }

  /** The first `k` headings are rewritten; they are those of the first `n` lines. */
  ghost predicate Rewriting(text: seq<string>, headings: seq<Heading>, k: nat, n: nat, lines: seq<string>) {
    && n <= |text| && k <= |headings| && headings == HeadingsIn(Levels(text), |text|)
    && HeadingsIn(Levels(text), n) == headings[..k] && lines == RewrittenTo(text, n)
  }

  lemma {:induction false} RewriteNext(text: seq<string>, n: nat, i: nat, level: nat)
    requires n <= i < |text| && level == NewLevel(Levels(text), i) && Level(text[i]) > 0
    requires forall j | n <= j < i :: Levels(text)[j] == 0
    ensures RewrittenTo(text, n)[i] == text[i]
    ensures RewrittenTo(text, n)[i := WithLevel(text[i], level)] == RewrittenTo(text, i + 1)
  {
    NotHeadings(text, n, i);
  }

  lemma {:induction false} RewriteStep(text: seq<string>, headings: seq<Heading>, k: nat, n: nat, lines: seq<string>,
                                       level: nat) returns (m: nat)
    requires Rewriting(text, headings, k, n, lines) && k < |headings| && headings[k].line < |text|
    requires level == NewLevel(Levels(text), headings[k].line)
    ensures |lines| == |text| && Level(lines[headings[k].line]) > 0
    ensures Rewriting(text, headings, k + 1, m, lines[headings[k].line := WithLevel(lines[headings[k].line], level)])
  {
    hide HeadingsIn, WithLevel, NewLevel, Allowed, Level;
    m := NextHeading(Levels(text), n, k, headings);
    assert Levels(text)[headings[k].line] == Level(text[headings[k].line]);
    RewriteNext(text, n, headings[k].line, level);
  }

  lemma {:induction false} RewriteDone(text: seq<string>, headings: seq<Heading>, n: nat, lines: seq<string>)
    requires Rewriting(text, headings, |headings|, n, lines)
    ensures lines == Normalized(text)
  {
    forall j | n <= j < |text| ensures Levels(text)[j] == 0 {
      NoMoreHeadings(Levels(text), n, j);
    }
    NotHeadings(text, n, |text|);
  }

  /** The third pass: rewrite the heading lines. */
  method Rewrite(text: seq<string>, headings: seq<Heading>, remap: map<nat, nat>) returns (lines: seq<string>)
    requires headings == HeadingsIn(Levels(text), |text|)
    requires Remaps(Levels(text), headings, remap)
    ensures lines == Normalized(text)
  {
    lines := text;
    ghost var n := 0;
    for k := 0 to |headings|
      invariant Rewriting(text, headings, k, n, lines)
    {
      var i := headings[k].line;
      n := RewriteStep(text, headings, k, n, lines, remap[i]);
      if Level(lines[i]) > 0 {
        lines := lines[i := WithLevel(lines[i], remap[i])];
      }
    }
    RewriteDone(text, headings, n, lines);
  }

  lemma {:induction false} NoneCollected(text: seq<string>)
    requires HeadingsIn(Levels(text), |text|) == []
    ensures NoHeadings(text)
  {
    forall j | 0 <= j < |text| ensures Level(text[j]) == 0 {
      NoMoreHeadings(Levels(text), 0, j);
      assert Levels(text)[j] == Level(text[j]);
    }
  }

  lemma {:induction false} SomeCollected(text: seq<string>)
    requires HeadingsIn(Levels(text), |text|) != []
    ensures !NoHeadings(text)
  {
    SomeHeading(Levels(text), |text|);
    var i :| 0 <= i < |text| && Levels(text)[i] > 0;
    assert Level(text[i]) > 0 && text[i] in text;
  }

  lemma {:induction false} SomeHeading(levels: seq<nat>, n: nat)
    requires n <= |levels| && HeadingsIn(levels, n) != []
    ensures exists i :: 0 <= i < n && levels[i] > 0
  {
    if levels[n - 1] == 0 {
      SomeHeading(levels, n - 1);
    }
  }
}
