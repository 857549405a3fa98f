/** The whole of normalize_heading_levels in scripts/docs-to-skills.py: the levels of the headings, and
    the empty line that space_anchor_headings puts between an HTML anchor and a heading, where its
    regular expression `(?m)^(<a\s+id="[^"]+"></a>)\n(#{1,6}\s)` finds the two. */
module HeadingAnchors {
  import opened Headings
  import opened Text

  // ----- The regular expression -----

  /** `<a\s+id=` */
  predicate Opens(s: string) {
    |s| > 5 && s[..2] == "<a" && s[|s| - 3..] == "id=" && forall i | 2 <= i < |s| - 3 :: IsSpace(s[i])
  }

  /** `"></a>\n#{1,6}\s` at the front. */
  predicate Closes(s: string) {
    "\"></a>\n" <= s && Level(s[7..]) > 0
  }

  /** The position of the second quote, or the length. */
  function IdEnd(s: string): (c: nat)
    ensures c <= |s| && (c < |s| ==> s[c] == '"')
  {
    var a := Find(s, '"', 0);
    if a == |s| then |s| else Find(s, '"', a + 1)
  }

  /** An anchor with a heading on the next line, at the front. */
  predicate Anchor(s: string) {
    var a := Find(s, '"', 0);
    Opens(s[..a]) && a + 1 < IdEnd(s) < |s| && Closes(s[IdEnd(s)..])
  }

  predicate LineStart(text: string, p: nat)
    requires p <= |text|
  {
    p == 0 || text[p - 1] == '\n'
  }

  predicate Matches(text: string, p: nat): (found: bool)
    ensures found ==> p < |text| && p + 8 < Spot(text, p) < |text| && Spot(text, p) < End(text, p) <= |text|
  {
    && p < |text| && LineStart(text, p) && Anchor(text[p..])
    && assert text[p..][IdEnd(text[p..])..][7..] == text[Spot(text, p)..]; true
  }

  /** Where the heading of a match begins. */
  function Spot(text: string, p: nat): nat
    requires p <= |text|
  {
    p + IdEnd(text[p..]) + 7
  }

  /** Where a match ends. */
  function End(text: string, p: nat): nat
    requires p <= |text| && Spot(text, p) <= |text|
  {
    Spot(text, p) + Level(text[Spot(text, p)..]) + 1
  }

  ghost predicate AllSpace(s: string) {
    forall c | c in s :: IsSpace(c)
  }

  /** The text fits the regular expression: white space, an id, and a heading with `n` signs on the next line. */
  ghost predicate Fits(text: string, space: string, id: string, n: nat, rest: string) {
    && space != "" && AllSpace(space) && id != "" && '"' !in id && OfLevel(rest, n)
    && text == "<a" + space + "id=" + "\"" + id + "\"></a>\n" + rest
  }

  /** Main result: an anchor is what fits the regular expression, and it does so in one way. */
  lemma {:induction false} AnchorExact(text: string)
    ensures Anchor(text) <==> exists space, id, n: nat, rest :: Fits(text, space, id, n, rest)
    ensures forall space, id, n: nat, rest | Fits(text, space, id, n, rest) ::
      text[..IdEnd(text)] == "<a" + space + "id=" + "\"" + id && Level(text[IdEnd(text) + 7..]) == n
  {
    hide Opens, Closes, Anchor, IdEnd, Fits, Level;
    if Anchor(text) {
      AnchorFits(text);
    }
    forall space, id, n: nat, rest | Fits(text, space, id, n, rest)
      ensures Anchor(text) && IdEnd(text) + 7 <= |text|
      ensures text[..IdEnd(text)] == "<a" + space + "id=" + "\"" + id && Level(text[IdEnd(text) + 7..]) == n
    {
      FitIsAnchor(text, space, id, n, rest);
    }
  }

  lemma {:induction false} AnchorFits(text: string)
    requires Anchor(text)
    ensures exists space, id, n: nat, rest :: Fits(text, space, id, n, rest)
  {
    hide Level, AllSpace, Opens, OfLevel;
    var a, e := Find(text, '"', 0), IdEnd(text);
    var space := OpensIs(text[..a]);
    var rest := text[e..][7..];
    LevelExact(rest);
    CutText(text, a, e);
    assert Fits(text, space, text[a + 1..e], Level(rest), rest);
  }

  lemma {:induction false} CutText(text: string, a: nat, e: nat)
    requires a + 1 < e < |text| && text[a] == '"' && "\"></a>\n" <= text[e..]
    ensures text == text[..a] + "\"" + text[a + 1..e] + "\"></a>\n" + text[e..][7..]
  {
    assert text[e..] == "\"></a>\n" + text[e..][7..];
    assert text == text[..a] + "\"" + text[a + 1..e] + text[e..];
    Assoc(text[..a] + "\"" + text[a + 1..e], "\"></a>\n", text[e..][7..]);
  }

  lemma {:induction false} OpensIs(open: string) returns (space: string)
    requires Opens(open)
    ensures space != "" && AllSpace(space) && open == "<a" + space + "id="
  {
    space := open[2..|open| - 3];
    forall c | c in space ensures IsSpace(c) {
      var i :| 0 <= i < |space| && space[i] == c;
      assert open[i + 2] == c;
    }
    assert |space| > 0;
    assert open[..2] == "<a" && open[|open| - 3..] == "id=";
    assert open == open[..2] + space + open[|open| - 3..];
    assert AllSpace(space);
  }

  lemma {:induction false} SpaceOpens(space: string)
    requires space != "" && AllSpace(space)
    ensures Opens("<a" + space + "id=") && '"' !in "<a" + space + "id="
  {
    var open := "<a" + space + "id=";
    assert open[..2] == "<a" && open[|open| - 3..] == "id=";
    forall i | 2 <= i < |open| - 3 ensures IsSpace(open[i]) {
      assert open[i] == space[i - 2] && space[i - 2] in space;
    }
    assert !IsSpace('"');
  }

  lemma {:induction false} FitIsAnchor(text: string, space: string, id: string, n: nat, rest: string)
    requires Fits(text, space, id, n, rest)
    ensures Anchor(text) && IdEnd(text) + 7 <= |text|
    ensures text[..IdEnd(text)] == "<a" + space + "id=" + "\"" + id && Level(text[IdEnd(text) + 7..]) == n
  {
    hide Opens, AllSpace, Level, IdEnd;
    var open := "<a" + space + "id=";
    SpaceOpens(space);
    LevelExact(rest);
    TextParts(open, id, rest);
    QuotesAt(open, id, text, "></a>\n" + rest);
  }

  lemma {:induction false} TextParts(open: string, id: string, rest: string)
    ensures
      var text, e := open + "\"" + id + "\"></a>\n" + rest, |open| + 1 + |id|;
      && text == open + "\"" + id + "\"" + ("></a>\n" + rest)
      && text[..|open|] == open && text[..e] == open + "\"" + id
      && text[e..] == "\"></a>\n" + rest && text[e..][7..] == rest && text[e + 7..] == rest
  {
  }

  lemma {:induction false} QuotesAt(open: string, id: string, text: string, after: string)
    requires '"' !in open && '"' !in id && text == open + "\"" + id + "\"" + after
    ensures Find(text, '"', 0) == |open| && IdEnd(text) == |open| + 1 + |id|
  {
    var k := |open| + 1;
    assert text[0..|open|] == open && text[k..k + |id|] == id;
    FindIs(text, '"', 0, |open|);
    FindIs(text, '"', k, k + |id|);
  }

  /** The text from `i` on, with an empty line put into each match. */
  function Spaced(text: string, i: nat): string
    requires i <= |text|
    decreases |text| - i
  {
    if i == |text| then ""
    else if Matches(text, i) then
      text[i..Spot(text, i)] + "\n" + text[Spot(text, i)..End(text, i)] + Spaced(text, End(text, i))
    else [text[i]] + Spaced(text, i + 1)
  }

  function SpaceAnchors(text: string): string {
    Spaced(text, 0)
  }

  // ----- A character put in -----

  function Insert(s: string, k: nat, c: char): string
    requires k <= |s|
  {
    s[..k] + [c] + s[k..]
  }

  lemma {:induction false} FindIs(s: string, c: char, i: nat, k: nat)
    requires i <= k <= |s| && c !in s[i..k] && (k < |s| ==> s[k] == c)
    ensures Find(s, c, i) == k
  {
    var n := Find(s, c, i);
    assert forall j | i <= j < k :: s[j] in s[i..k];
    assert forall j | i <= j < n :: s[j] in s[i..n];
  }

  lemma {:induction false} FindInserted(s: string, k: nat, c: char, i: nat)
    requires i <= k <= |s| && c != '"'
    ensures Find(Insert(s, k, c), '"', i) == var n := Find(s, '"', i); if n < k then n else n + 1
  {
    var n := Find(s, '"', i);
    if n < k {
      assert Insert(s, k, c)[i..n] == s[i..n];
      FindIs(Insert(s, k, c), '"', i, n);
    } else {
      InsertSlice(s, k, c, i, n);
      FindIs(Insert(s, k, c), '"', i, n + 1);
    }
  }

  lemma {:induction false} InsertSlice(s: string, k: nat, c: char, i: nat, n: nat)
    requires i <= k <= n <= |s|
    ensures s[i..n] == s[i..k] + s[k..n]
    ensures Insert(s, k, c)[i..n + 1] == s[i..k] + [c] + s[k..n]
  {
    SliceConcat(s[..k] + [c], s[k..], i, n + 1);
    assert (s[..k] + [c])[i..] == s[i..k] + [c] && s[k..][..n - k] == s[k..n];
  }

  lemma {:induction false} SliceConcat(a: string, b: string, i: nat, n: nat)
    requires i <= |a| <= n <= |a + b|
    ensures (a + b)[i..n] == a[i..] + b[..n - |a|]
  {
  }

  lemma {:induction false} HashesPrefix(s: string, rest: string)
    requires Hashes(s) < |s|
    ensures Hashes(s + rest) == Hashes(s)
  {
    if s[0] == '#' {
      assert (s + rest)[1..] == s[1..] + rest;
      HashesPrefix(s[1..], rest);
    }
  }

  /** The level is that of the first line. */
  lemma {:induction false} LevelPrefix(s: string, rest: string)
    requires s != "" && s[|s| - 1] != '#'
    ensures Level(s + rest) == Level(s)
  {
    HashesAreHashes(s);
    HashesPrefix(s, rest);
  }

  /** What is put in before a heading: a line break, or one more `#`. */
  predicate Edit(s: string, k: nat, c: char) {
    && 0 <= k < |s| && LineStart(s, k) && Level(s[k..]) > 0
    && ((c == '\n' && k > 0) || (c == '#' && Level(s[k..]) < 6))
  }

  lemma {:induction false} LevelEdited(s: string, k: nat, c: char)
    requires Edit(s, k, c)
    ensures Level([c] + s[k..]) == if c == '#' then Level(s[k..]) + 1 else 0
    ensures s[k] == '#'
  {
    assert ([c] + s[k..])[1..] == s[k..];
  }

  lemma {:induction false} ClosesEdited(s: string, k: nat, c: char)
    requires Edit(s, k, c) && k > 0
    ensures Closes(Insert(s, k, c)) <==> Closes(s) && !(c == '\n' && k == 7)
    ensures Closes(s) ==> 7 <= k
  {
    var tag, after := "\"></a>\n", Insert(s, k, c);
    assert after[k - 1] == s[k - 1] == '\n';
    if k < 7 {
      assert tag[k - 1] != '\n';
    } else if k == 7 {
      assert after[..7] == s[..7] && after[7..] == [c] + s[7..];
      LevelEdited(s, k, c);
    } else {
      assert after[..7] == s[..7];
      assert after[7..] == s[7..k] + ([c] + s[k..]) && s[7..] == s[7..k] + s[k..];
      LevelPrefix(s[7..k], [c] + s[k..]);
      LevelPrefix(s[7..k], s[k..]);
    }
  }

  /** The edit before the heading of an anchor keeps or takes away that anchor, and any other anchor at
      the front stays one. */
  lemma {:induction false} AnchorEdited(s: string, k: nat, c: char)
    requires Edit(s, k, c) && k > 0
    ensures Anchor(Insert(s, k, c)) <==> Anchor(s) && !(c == '\n' && IdEnd(s) + 7 == k)
    ensures Anchor(s) ==> IdEnd(Insert(s, k, c)) == if IdEnd(s) + 7 <= k then IdEnd(s) else IdEnd(s) + 1
  {
    if k <= Find(s, '"', 0) {
      OpeningEdited(s, k, c);
    } else {
      IdEdited(s, k, c);
    }
  }

  lemma {:induction false} OpeningEdited(s: string, k: nat, c: char)
    requires Edit(s, k, c) && 0 < k <= Find(s, '"', 0)
    ensures !Anchor(s) && !Anchor(Insert(s, k, c))
  {
    hide Level, Closes, IdEnd;
    var a := Find(s, '"', 0);
    LevelEdited(s, k, c);
    FindInserted(s, k, c, 0);
    assert s[..a][k] == '#' && Insert(s, k, c)[..a + 1][k + 1] == '#';
    NoHashOpens(s[..a], k);
    NoHashOpens(Insert(s, k, c)[..a + 1], k + 1);
  }

  lemma {:induction false} IdEdited(s: string, k: nat, c: char)
    requires Edit(s, k, c) && Find(s, '"', 0) < k
    ensures Anchor(Insert(s, k, c)) <==> Anchor(s) && !(c == '\n' && IdEnd(s) + 7 == k)
    ensures Anchor(s) ==> IdEnd(Insert(s, k, c)) == if IdEnd(s) + 7 <= k then IdEnd(s) else IdEnd(s) + 1
  {
    hide Level, Closes, Opens, IdEnd, Insert;
    IdEndEdited(s, k, c);
    if IdEnd(s) < |s| {
      EndEdited(s, k, c, IdEnd(s));
    }
  }

  lemma {:induction false} IdEndEdited(s: string, k: nat, c: char)
    requires Find(s, '"', 0) < k < |s| && c != '"'
    ensures |Insert(s, k, c)| == |s| + 1 && IdEnd(Insert(s, k, c)) == if IdEnd(s) < k then IdEnd(s) else IdEnd(s) + 1
    ensures var a := Find(s, '"', 0); Find(Insert(s, k, c), '"', 0) == a && Insert(s, k, c)[..a] == s[..a]
  {
    FindInserted(s, k, c, 0);
    FindInserted(s, k, c, Find(s, '"', 0) + 1);
  }

  lemma {:induction false} NoHashOpens(s: string, i: nat)
    requires i < |s| && s[i] == '#'
    ensures !Opens(s)
  {
    if i < 2 && 2 <= |s| {
      assert s[..2][i] == '#';
    } else if i >= |s| - 3 && |s| > 5 {
      assert s[|s| - 3..][i - (|s| - 3)] == '#';
    }
  }

  lemma {:induction false} EndEdited(s: string, k: nat, c: char, e: nat)
    requires Edit(s, k, c) && 0 < k && e < |s| && s[e] == '"'
    ensures e < k ==> (Closes(Insert(s, k, c)[e..]) <==> Closes(s[e..]) && !(c == '\n' && e + 7 == k))
    ensures e < k && Closes(s[e..]) ==> e + 7 <= k
    ensures k <= e ==> Insert(s, k, c)[e + 1..] == s[e..]
  {
    hide Closes, Level;
    if e < k {
      assert s[e..][k - e..] == s[k..] && s[e..][k - e - 1] == s[k - 1];
      assert Insert(s, k, c)[e..] == Insert(s[e..], k - e, c);
      ClosesEdited(s[e..], k - e, c);
    }
  }

  lemma {:induction false} SpotEdit(text: string, p: nat)
    requires Matches(text, p)
    ensures Edit(text, Spot(text, p), '\n')
  {
    var c := IdEnd(text[p..]);
    assert text[p..][c..][7..] == text[p + c + 7..] && text[p..][c..][6] == text[p + c + 6];
  }

  /** The edits that `SpaceAnchors` makes take away the match they are made for and no other. */
  lemma {:induction false} MatchBefore(text: string, k: nat, c: char, p: nat)
    requires Edit(text, k, c) && p < k
    ensures Matches(Insert(text, k, c), p) <==> Matches(text, p) && !(c == '\n' && Spot(text, p) == k)
    ensures Matches(text, p) && !(c == '\n' && Spot(text, p) == k) ==>
      Spot(Insert(text, k, c), p) == if Spot(text, p) <= k then Spot(text, p) else Spot(text, p) + 1
  {
    hide Anchor, Level, IdEnd;
    var s := text[p..];
    assert s[k - p..] == text[k..] && s[k - p - 1] == text[k - 1];
    assert Insert(text, k, c)[p..] == Insert(s, k - p, c);
    AnchorEdited(s, k - p, c);
  }

  lemma {:induction false} MatchAfter(text: string, k: nat, c: char, p: nat)
    requires Edit(text, k, c) && k < p <= |text|
    ensures Matches(Insert(text, k, c), p + 1) <==> Matches(text, p)
    ensures Spot(Insert(text, k, c), p + 1) == Spot(text, p) + 1
  {
    hide Anchor, Level, IdEnd;
    assert Insert(text, k, c)[p + 1..] == text[p..];
  }

  /** At the edited place there is no match, neither before nor after. */
  lemma {:induction false} MatchAt(text: string, k: nat, c: char)
    requires Edit(text, k, c)
    ensures !Matches(text, k) && !Matches(Insert(text, k, c), k) && !Matches(Insert(text, k, c), k + 1)
  {
    hide Level, Matches;
    LevelEdited(text, k, c);
    NoMatch(text, k);
    NoMatch(Insert(text, k, c), k);
    NoMatch(Insert(text, k, c), k + 1);
  }

  lemma {:induction false} NoMatch(text: string, p: nat)
    requires p < |text| && text[p] != '<'
    ensures !Matches(text, p)
  {
    var s := text[p..];
    var a := Find(s, '"', 0);
    if |s[..a]| > 2 {
      assert s[..a][0] == s[..a][..2][0] == text[p];
    }
  }

  /** The position of the first quote. */
  lemma {:induction false} OpeningHas(s: string, i: nat)
    requires Opens(s) && 0 < i < |s|
    ensures s[i] != '<'
  {
    if i == 1 {
      assert s[..2][1] == 'a';
    } else if i >= |s| - 3 {
      assert s[|s| - 3..][i - (|s| - 3)] != '<';
    }
  }

  /** No two matches have their heading in common. */
  lemma {:induction false} SpotsDiffer(text: string, p: nat, q: nat)
    requires p < q && Matches(text, p) && Matches(text, q)
    ensures Spot(text, p) != Spot(text, q)
  {
    hide Anchor, IdEnd, Level;
    assert text[q..] == text[p..][q - p..];
    if text[q] != '<' {
      NoMatch(text, q);
    }
    FirstQuotes(text[p..], q - p);
  }

  lemma {:induction false} FirstQuotes(s: string, d: nat)
    requires 0 < d < |s| && s[d] == '<' && Anchor(s) && Anchor(s[d..])
    ensures IdEnd(s) != d + IdEnd(s[d..])
  {
    hide Closes, Level;
    var a, b := Find(s, '"', 0), Find(s[d..], '"', 0);
    if d < a {
      OpeningHas(s[..a], d);
    }
    assert forall i | d <= i < |s| :: s[i] == s[d..][i - d];
    assert s[d..][b] == '"' && s[a] == '"';
    assert forall i | a < i < IdEnd(s) :: s[i] in s[a + 1..IdEnd(s)];
  }

  // ----- The whole substitution -----

  /** The text with the empty lines put in from `i` on. */
  ghost function Passed(text: string, i: nat): (r: string)
    requires i <= |text|
    ensures i <= |r| && r[..i] == text[..i]
  {
    text[..i] + Spaced(text, i)
  }

  lemma {:induction false} PassedMiss(text: string, i: nat)
    requires i < |text| && !Matches(text, i)
    ensures Passed(text, i) == Passed(text, i + 1)
  {
    hide Matches, Spot, End;
    assert text[..i + 1] == text[..i] + [text[i]];
  }

  lemma {:induction false} PassedMatch(text: string, i: nat)
    requires Matches(text, i)
    ensures
      var rest := Passed(text, End(text, i));
      Spot(text, i) <= |rest| && Passed(text, i) == Insert(rest, Spot(text, i), '\n')
  {
    hide Matches, Spot, End, Spaced;
    var k, end, rest := Spot(text, i), End(text, i), Spaced(text, End(text, i));
    SpacedMatch(text, i);
    assert text[..i] + (text[i..k] + "\n" + text[k..end] + rest) == text[..k] + "\n" + (text[k..end] + rest);
    assert (text[..end] + rest)[..k] == text[..k] && (text[..end] + rest)[k..] == text[k..end] + rest;
  }

  lemma {:induction false} SpacedMatch(text: string, i: nat)
    requires Matches(text, i)
    ensures Spaced(text, i) == text[i..Spot(text, i)] + "\n"
        + text[Spot(text, i)..End(text, i)] + Spaced(text, End(text, i))
  {
  }

  lemma {:induction false} LevelLocal(s: string, t: string)
    requires Level(s) > 0 && Level(s) < |t| && t[..Level(s) + 1] == s[..Level(s) + 1]
    ensures Level(t) == Level(s)
  {
    var front := s[..Level(s) + 1];
    HashesAreHashes(s);
    assert front[Level(s)] != '#' && s == front + s[Level(s) + 1..] && t == front + t[Level(s) + 1..];
    LevelPrefix(front, s[Level(s) + 1..]);
    LevelPrefix(front, t[Level(s) + 1..]);
  }

  lemma {:induction false} AnchorLocal(s: string, t: string, n: nat)
    requires Anchor(s) && n == IdEnd(s) + 7 + Level(s[IdEnd(s) + 7..]) + 1
    requires n <= |s| && n <= |t| && t[..n] == s[..n]
    ensures Anchor(t) && IdEnd(t) == IdEnd(s) && Level(t[IdEnd(s) + 7..]) == Level(s[IdEnd(s) + 7..])
  {
    hide Level, Opens, Closes, IdEnd;
    var c := IdEnd(s);
    var front, s', t' := s[..n], s[n..], t[n..];
    assert s == front + s' && t == front + t';
    assert s[c..] == front[c..] + s' && t[c..] == front[c..] + t';
    assert s[c + 7..] == s[c..][7..] && t[c + 7..] == t[c..][7..];
    IdLocal(s, t, n);
    ClosesLocal(s[c..], t[c..]);
  }

  lemma {:induction false} IdLocal(s: string, t: string, n: nat)
    requires IdEnd(s) < n <= |s| && n <= |t| && t[..n] == s[..n]
    ensures IdEnd(t) == IdEnd(s) && Find(t, '"', 0) == Find(s, '"', 0)
    ensures t[..Find(s, '"', 0)] == s[..Find(s, '"', 0)]
  {
    var a, c := Find(s, '"', 0), IdEnd(s);
    assert forall i | 0 <= i < n :: t[..n][i] == t[i];
    assert t[..a] == s[..a] && t[a + 1..c] == s[a + 1..c];
    FindIs(t, '"', 0, a);
    FindIs(t, '"', a + 1, c);
  }

  lemma {:induction false} ClosesLocal(s: string, t: string)
    requires Closes(s)
    requires var n := Level(s[7..]) + 8; n <= |s| && n <= |t| && t[..n] == s[..n]
    ensures Closes(t) && Level(t[7..]) == Level(s[7..])
  {
    hide Level;
    var n := Level(s[7..]) + 8;
    assert s[7..][..n - 7] == s[..n][7..] && t[7..][..n - 7] == t[..n][7..];
    assert s[..7] == s[..n][..7] && t[..7] == t[..n][..7];
    LevelLocal(s[7..], t[7..]);
  }

  lemma {:induction false} MatchLocal(text: string, other: string, i: nat)
    requires Matches(text, i) && End(text, i) <= |other| && other[..End(text, i)] == text[..End(text, i)]
    ensures Matches(other, i) && Spot(other, i) == Spot(text, i) && End(other, i) == End(text, i)
  {
    hide Level, Anchor, IdEnd;
    var s, t, n, c := text[i..], other[i..], End(text, i) - i, IdEnd(text[i..]);
    assert t[..n] == other[..End(text, i)][i..] && s[..n] == text[..End(text, i)][i..];
    assert text[Spot(text, i)..] == s[c + 7..];
    AnchorLocal(s, t, n);
    assert other[i + c + 7..] == t[c + 7..];
    assert i > 0 ==> other[..End(text, i)][i - 1] == text[..End(text, i)][i - 1];
  }

  /** The matches before `i` stay. */
  lemma {:induction false} PassedBefore(text: string, i: nat, p: nat)
    requires p < i <= |text|
    ensures Matches(Passed(text, i), p) <==> Matches(text, p)
    decreases |text| - i
  {
    hide Matches, Spot, End, Spaced;
    if i == |text| {
      PassedEnd(text);
    } else if Matches(text, i) {
      PassedBefore(text, End(text, i), p);
      MatchGone(text, i, p);
    } else {
      PassedMiss(text, i);
      PassedBefore(text, i + 1, p);
    }
  }

  lemma {:induction false} PassedEnd(text: string)
    ensures Passed(text, |text|) == text
  {
  }

  /** The substitution at `i` takes away the match at `i` and no other before its heading. */
  lemma {:induction false} MatchGone(text: string, i: nat, p: nat)
    requires Matches(text, i) && p < Spot(text, i)
    ensures Matches(Passed(text, i), p) <==> Matches(Passed(text, End(text, i)), p) && p != i
  {
    hide Matches, Spot, End, Spaced;
    var rest, k := Passed(text, End(text, i)), Spot(text, i);
    PassedMatch(text, i);
    MatchLocal(text, rest, i);
    SpotEdit(rest, i);
    MatchBefore(rest, k, '\n', p);
    if p < i && Matches(rest, p) {
      SpotsDiffer(rest, p, i);
    } else if i < p && Matches(rest, p) {
      SpotsDiffer(rest, i, p);
    }
  }

  ghost predicate NoneFrom(text: string, i: nat) {
    forall p | p >= i :: !Matches(text, p)
  }

  /** There is a match, at or after `i`, within the anchor of another. */
  ghost predicate NestedFrom(text: string, i: nat) {
    exists p, q :: i <= p && NestedAt(text, p, q)
  }

  ghost predicate NestedAt(text: string, p: nat, q: nat) {
    Matches(text, p) && Matches(text, q) && p < q < Spot(text, p)
  }

  /** There is an anchor before a heading within the id of another. */
  ghost predicate Nested(text: string) {
    NestedFrom(text, 0)
  }

  /** What is left from `i` on are the matches nested in others. */
  lemma {:induction false} PassedFrom(text: string, i: nat)
    requires i <= |text|
    ensures NoneFrom(Passed(text, i), i) <==> !NestedFrom(text, i)
    decreases |text| - i
  {
    hide Matches, Spot, End, Spaced, NoneFrom, NestedFrom;
    if i == |text| {
      PassedEnd(text);
      NothingFrom(text);
    } else if Matches(text, i) {
      PassedFrom(text, End(text, i));
      NoneStep(text, i);
      NestedStep(text, i);
    } else {
      PassedMiss(text, i);
      PassedFrom(text, i + 1);
      PassedBefore(text, i + 1, i);
      NoneNext(text, Passed(text, i), i);
    }
  }

  lemma {:induction false} NothingFrom(text: string)
    ensures NoneFrom(text, |text|) && !NestedFrom(text, |text|)
  {
  }

  lemma {:induction false} NoneNext(text: string, passed: string, i: nat)
    requires !Matches(text, i) && !Matches(passed, i)
    ensures NoneFrom(passed, i) <==> NoneFrom(passed, i + 1)
    ensures NestedFrom(text, i) <==> NestedFrom(text, i + 1)
  {
    hide Matches, Spot;
  }

  ghost predicate NoneWithin(text: string, i: nat)
    requires Matches(text, i)
  {
    forall q | i < q < Spot(text, i) :: !Matches(text, q)
  }

  lemma {:induction false} HeadingHasNone(text: string, i: nat, q: nat)
    requires Matches(text, i) && Spot(text, i) <= q < End(text, i)
    ensures !Matches(text, q)
  {
    hide Anchor, IdEnd, Level, Hashes;
    SpotEdit(text, i);
    HeadingChars(text[Spot(text, i)..], q - Spot(text, i));
    NoMatch(text, q);
  }

  lemma {:induction false} HeadingChars(s: string, i: nat)
    requires 0 < Level(s) && i <= Level(s)
    ensures i < |s| && s[i] != '<'
  {
    HashesAreHashes(s);
  }

  lemma {:induction false} NoneStepAt(text: string, i: nat, q: nat)
    requires Matches(text, i) && i <= q
    ensures Matches(Passed(text, i), q) <==>
      if q < Spot(text, i) then q != i && Matches(text, q)
      else q > End(text, i) && Matches(Passed(text, End(text, i)), q - 1)
  {
    hide Matches, Spot, End, Spaced, Level;
    var rest, k := Passed(text, End(text, i)), Spot(text, i);
    if q < k {
      MatchGone(text, i, q);
      PassedBefore(text, End(text, i), q);
    } else {
      PassedMatch(text, i);
      MatchLocal(text, rest, i);
      SpotEdit(rest, i);
      MatchAt(rest, k, '\n');
      if k + 1 < q <= |rest| + 1 {
        MatchAfter(rest, k, '\n', q - 1);
        if q <= End(text, i) {
          HeadingHasNone(text, i, q - 1);
          PassedBefore(text, End(text, i), q - 1);
        }
      }
    }
  }

  lemma {:induction false} NoneStep(text: string, i: nat)
    requires Matches(text, i)
    ensures NoneFrom(Passed(text, i), i) <==> NoneWithin(text, i) && NoneFrom(Passed(text, End(text, i)), End(text, i))
  {
    hide Matches, Spot, End, Passed;
    forall q | q >= i
      ensures Matches(Passed(text, i), q) <==>
        if q < Spot(text, i) then q != i && Matches(text, q)
        else q > End(text, i) && Matches(Passed(text, End(text, i)), q - 1)
    {
      NoneStepAt(text, i, q);
    }
    if NoneFrom(Passed(text, i), i) {
      forall q | q >= End(text, i) ensures !Matches(Passed(text, End(text, i)), q) {
        assert !Matches(Passed(text, i), q + 1);
      }
      forall q | i < q < Spot(text, i) ensures !Matches(text, q) {
        assert !Matches(Passed(text, i), q);
      }
    }
  }

  lemma {:induction false} NestedStep(text: string, i: nat)
    requires Matches(text, i)
    ensures NestedFrom(text, i) <==> !NoneWithin(text, i) || NestedFrom(text, End(text, i))
  {
    hide Anchor, IdEnd, Level, LineStart;
    if !NoneWithin(text, i) {
      var q :| i < q < Spot(text, i) && Matches(text, q);
      assert NestedAt(text, i, q);
    } else if NestedFrom(text, i) {
      var p: nat, q: nat :| i <= p && NestedAt(text, p, q);
      if Spot(text, i) <= p < End(text, i) {
        HeadingHasNone(text, i, p);
      }
    }
  }

  /** Without a match the text stays, and only then. */
  lemma {:induction false} PassedSame(text: string, i: nat)
    requires i <= |text|
    ensures |Passed(text, i)| >= |text|
    ensures |Passed(text, i)| == |text| <==> NoneFrom(text, i)
    ensures NoneFrom(text, i) ==> Passed(text, i) == text
    decreases |text| - i
  {
    hide Matches, Spot, End, Spaced, Passed;
    if i == |text| {
      PassedEnd(text);
      NothingFrom(text);
    } else if Matches(text, i) {
      PassedSame(text, End(text, i));
      PassedMatch(text, i);
      assert !NoneFrom(text, i);
    } else {
      PassedSame(text, i + 1);
      PassedMiss(text, i);
      assert NoneFrom(text, i) <==> NoneFrom(text, i + 1);
    }
  }

  /** The substitution is idempotent on exactly the texts without a match nested in another. */
  lemma {:induction false} SpacedTwice(text: string)
    ensures SpaceAnchors(SpaceAnchors(text)) == SpaceAnchors(text) <==> !Nested(text)
  {
    hide NoneFrom, NestedFrom, Spaced;
    var once := SpaceAnchors(text);
    assert Passed(text, 0) == once && Passed(once, 0) == SpaceAnchors(once);
    PassedFrom(text, 0);
    PassedSame(once, 0);
  }

  // ----- The lines of the spaced text -----

  function Lines(text: string): seq<string> {
    LinesOf(text, |text|)
  }

  /** The lines that are not empty. */
  ghost function Filled(lines: seq<string>): seq<string> {
    if lines == [] then []
    else Filled(lines[..|lines| - 1]) + (if lines[|lines| - 1] == "" then [] else [lines[|lines| - 1]])
  }

  lemma {:induction false} FilledConcat(a: seq<string>, b: seq<string>)
    ensures Filled(a + b) == Filled(a) + Filled(b)
    decreases |b|
  {
    if b == [] {
      assert a + b == a;
    } else {
      assert (a + b)[..|a + b| - 1] == a + b[..|b| - 1];
      FilledConcat(a, b[..|b| - 1]);
    }
  }

  lemma {:induction false} LinesInserted(text: string, k: nat)
    requires Edit(text, k, '\n')
    ensures Filled(Lines(Insert(text, k, '\n'))) == Filled(Lines(text))
    ensures |Lines(Insert(text, k, '\n'))| == |Lines(text)| + 1
  {
    hide LinesOf, Filled, Level;
    var a, b := text[..k - 1], text[k..];
    assert text == a + "\n" + b && |text| == |a| + 1 + |b|;
    assert Insert(text, k, '\n') == a + "\n" + ("" + "\n" + b);
    LinesOfConcat(a, b, |b|);
    LinesOfConcat(a, "" + "\n" + b, 1 + |b|);
    LinesOfConcat("", b, |b|);
    FilledAround(LinesOf(a, |a|), LinesOf(b, |b|));
    LinesOfOne("", 0);
  }

  lemma {:induction false} FilledAround(a: seq<string>, b: seq<string>)
    ensures Filled(a + ([""] + b)) == Filled(a + b)
  {
    FilledConcat(a, [""] + b);
    FilledConcat([""], b);
    FilledConcat(a, b);
    assert Filled([""]) == [];
    assert [] + Filled(b) == Filled(b);
  }

  lemma {:induction false} PassedLines(text: string, i: nat)
    requires i <= |text|
    ensures Filled(Lines(Passed(text, i))) == Filled(Lines(text))
    ensures |Lines(Passed(text, i))| >= |Lines(text)|
    ensures |Lines(Passed(text, i))| == |Lines(text)| <==> NoneFrom(text, i)
    decreases |text| - i
  {
    hide Matches, Spot, End, Spaced, Passed, LinesOf, Filled;
    if i == |text| {
      PassedEnd(text);
      NothingFrom(text);
    } else if Matches(text, i) {
      var rest := Passed(text, End(text, i));
      PassedLines(text, End(text, i));
      PassedMatch(text, i);
      MatchLocal(text, rest, i);
      SpotEdit(rest, i);
      LinesInserted(rest, Spot(text, i));
      assert !NoneFrom(text, i);
    } else {
      PassedLines(text, i + 1);
      PassedMiss(text, i);
      assert NoneFrom(text, i) <==> NoneFrom(text, i + 1);
    }
  }

  /** Empty lines do not matter to the levels. */
  lemma {:induction false} SteppedFilled(lines: seq<string>)
    ensures WellStepped(Levels(Filled(lines))) <==> WellStepped(Levels(lines))
    ensures LevelBefore(Levels(Filled(lines)), |Filled(lines)|) == LevelBefore(Levels(lines), |lines|)
  {
    hide Level, WellStepped, LevelBefore;
    if lines != [] {
      var init, last := lines[..|lines| - 1], lines[|lines| - 1];
      assert lines == init + [last];
      SteppedFilled(init);
      LevelsSnoc(init, last);
      WellSteppedSnoc(Levels(init), Level(last));
      if last == "" {
        NoLevel();
        assert Filled(lines) == Filled(init);
      } else {
        LevelsSnoc(Filled(init), last);
        WellSteppedSnoc(Levels(Filled(init)), Level(last));
      }
    }
  }

  lemma {:induction false} NoLevel()
    ensures Level("") == 0
  {
  }

  // ----- One `#` more or less -----

  function Moved(p: nat, k: nat): nat {
    if p < k then p else p + 1
  }

  lemma {:induction false} MovedMatch(text: string, k: nat, p: nat)
    requires Edit(text, k, '#')
    ensures Matches(Insert(text, k, '#'), Moved(p, k)) <==> Matches(text, p)
    ensures Matches(text, p) ==> p != k && Spot(Insert(text, k, '#'), Moved(p, k)) == Moved(Spot(text, p) - 1, k) + 1
  {
    hide Anchor, IdEnd, Level;
    MatchAt(text, k, '#');
    if p < k {
      MatchBefore(text, k, '#', p);
    } else if k < p <= |text| {
      MatchAfter(text, k, '#', p);
    }
  }

  /** Another `#` before a heading nests no match in another and frees none. */
  lemma {:induction false} NestedEdited(text: string, k: nat)
    requires Edit(text, k, '#')
    ensures Nested(Insert(text, k, '#')) <==> Nested(text)
  {
    hide NestedAt, Matches, Insert, Level;
    var after := Insert(text, k, '#');
    if Nested(text) {
      var p: nat, q: nat :| NestedAt(text, p, q);
      NestedMoved(text, k, p, q);
    }
    if Nested(after) {
      var p: nat, q: nat :| NestedAt(after, p, q);
      NotAtEdit(text, k, p, q);
      NestedMoved(text, k, if p < k then p else p - 1, if q < k then q else q - 1);
    }
  }

  lemma {:induction false} NestedMoved(text: string, k: nat, p: nat, q: nat)
    requires Edit(text, k, '#')
    ensures NestedAt(Insert(text, k, '#'), Moved(p, k), Moved(q, k)) <==> NestedAt(text, p, q)
  {
    hide Matches, Spot, Insert, Edit;
    MovedMatch(text, k, p);
    MovedMatch(text, k, q);
  }

  lemma {:induction false} NotAtEdit(text: string, k: nat, p: nat, q: nat)
    requires Edit(text, k, '#') && NestedAt(Insert(text, k, '#'), p, q)
    ensures (p < k || p > k + 1) && (q < k || q > k + 1)
  {
    hide Matches, Spot, Insert, Edit;
    MatchAt(text, k, '#');
  }

  lemma {:induction false} NestedHashes(a: string, m: nat, n: nat, rest: string)
    requires LineStart(a, |a|) && rest != "" && IsSpace(rest[0]) && 1 <= m <= n <= 6
    ensures Nested(a + Hash(n) + rest) <==> Nested(a + Hash(m) + rest)
    decreases n
  {
    hide Nested;
    if m < n {
      NestedHashes(a, m, n - 1, rest);
      var text := a + Hash(n - 1) + rest;
      assert text[|a|..] == Hash(n - 1) + rest;
      HashesOf(n - 1, rest);
      assert Insert(text, |a|, '#') == a + (['#'] + Hash(n - 1)) + rest;
      assert ['#'] + Hash(n - 1) == Hash(n);
      NestedEdited(text, |a|);
    }
  }

  function Hash(n: nat): string {
    seq(n, _ => '#')
  }

  /** The text with one of its lines changed. */
  lemma {:induction false} JoinAround(lines: seq<string>, i: nat, line: string) returns (before: string, after: string)
    requires i < |lines|
    ensures LineStart(before, |before|)
    ensures Join(lines) == before + lines[i] + after && Join(lines[i := line]) == before + line + after
  {
    hide Join;
    var changed := lines[i := line];
    assert lines == lines[..i] + ([lines[i]] + lines[i + 1..]);
    assert changed == lines[..i] + ([line] + lines[i + 1..]);
    after := JoinHead(lines[i], line, lines[i + 1..]);
    before := JoinTail(lines[..i], [lines[i]] + lines[i + 1..], [line] + lines[i + 1..]);
    Assoc(before, lines[i], after);
    Assoc(before, line, after);
  }

  lemma {:induction false} JoinHead(line: string, other: string, lines: seq<string>) returns (after: string)
    ensures Join([line] + lines) == line + after && Join([other] + lines) == other + after
  {
    if lines == [] {
      after := "";
      assert [line] + lines == [line] && [other] + lines == [other];
    } else {
      after := "\n" + Join(lines);
      JoinConcat([line], lines);
      JoinConcat([other], lines);
      Assoc(line, "\n", Join(lines));
      Assoc(other, "\n", Join(lines));
    }
  }

  lemma {:induction false} JoinTail(lines: seq<string>, a: seq<string>, b: seq<string>) returns (before: string)
    requires a != [] && b != []
    ensures LineStart(before, |before|)
    ensures Join(lines + a) == before + Join(a) && Join(lines + b) == before + Join(b)
  {
    if lines == [] {
      before := "";
      assert lines + a == a && lines + b == b;
    } else {
      before := Join(lines) + "\n";
      JoinConcat(lines, a);
      JoinConcat(lines, b);
    }
  }

  lemma {:induction false} NestedLine(lines: seq<string>, i: nat, level: nat)
    requires i < |lines| && 1 <= level <= Level(lines[i])
    ensures Nested(Join(lines[i := WithLevel(lines[i], level)])) <==> Nested(Join(lines))
  {
    hide Nested, Join;
    var line, was := lines[i], Level(lines[i]);
    var rest := line[was..];
    var before, after := JoinAround(lines, i, WithLevel(line, level));
    HashesAreHashes(line);
    assert line == Hash(was) + rest;
    assert before + line + after == before + Hash(was) + (rest + after);
    assert before + (Hash(level) + rest) + after == before + Hash(level) + (rest + after);
    NestedHashes(before, level, was, rest + after);
  }

  /** So normalising the levels nests no match in another and frees none. */
  lemma {:induction false} NestedNormalized(lines: seq<string>, n: nat)
    requires n <= |lines|
    ensures Nested(Join(RewrittenTo(lines, n))) <==> Nested(Join(lines))
  {
    hide Nested, Join, Level, WithLevel, NewLevel;
    if n == 0 {
      assert RewrittenTo(lines, 0) == lines;
    } else {
      var before, i := RewrittenTo(lines, n - 1), n - 1;
      NestedNormalized(lines, i);
      assert before[i] == lines[i];
      assert RewrittenTo(lines, n) == before[i := Normalized(lines)[i]];
      assert Levels(lines)[i] == Level(lines[i]);
      NewLevelBounds(Levels(lines), i);
      if Level(lines[i]) > 0 {
        NestedLine(before, i, NewLevel(Levels(lines), i));
      } else {
        assert RewrittenTo(lines, n) == before;
      }
    }
  }

  // ----- The whole function -----

  /** normalize_heading_levels */
  function NormalizedText(text: string): string {
    if NoHeadings(Lines(text)) then text else SpaceAnchors(Join(Normalized(Lines(text))))
  }

  lemma {:induction false} LinesNormalized(text: string)
    ensures Lines(Join(Normalized(Lines(text)))) == Normalized(Lines(text))
  {
    hide LinesOf, Level, NewLevel, Normalized;
    var lines := Lines(text);
    NoNewlines(text, |text|);
    forall i | 0 <= i < |lines| ensures '\n' !in Normalized(lines)[i] {
      assert lines[i] in lines;
      NewLineHas(lines, i);
    }
    LinesOfJoin(Normalized(lines));
  }

  lemma {:induction false} NewLineHas(lines: seq<string>, i: nat)
    requires i < |lines| && '\n' !in lines[i]
    ensures '\n' !in Normalized(lines)[i]
  {
  }

  lemma {:induction false} NoHeadingsNormalized(lines: seq<string>)
    ensures NoHeadings(lines) ==> Normalized(lines) == lines
    ensures NoHeadings(Normalized(lines)) ==> NoHeadings(lines)
  {
    hide Level, Normalized, NewLevel;
    NormalizedSame(lines);
    if NoHeadings(lines) {
      NoHeadingsStepped(lines);
    }
    if NoHeadings(Normalized(lines)) {
      forall i | 0 <= i < |lines| ensures Level(lines[i]) == 0 {
        assert Normalized(lines)[i] in Normalized(lines);
        assert Levels(lines)[i] == Level(lines[i]);
        NormalizedLine(lines, i);
        NewLevelBounds(Levels(lines), i);
      }
    }
  }

  lemma {:induction false} FilledHas(lines: seq<string>, line: string)
    ensures line in Filled(lines) <==> line in lines && line != ""
  {
    if lines != [] {
      assert lines == lines[..|lines| - 1] + [lines[|lines| - 1]];
      FilledHas(lines[..|lines| - 1], line);
    }
  }

  lemma {:induction false} NoHeadingsFilled(lines: seq<string>)
    ensures NoHeadings(Filled(lines)) <==> NoHeadings(lines)
  {
    hide Filled;
    forall line ensures line in Filled(lines) <==> line in lines && line != "" {
      FilledHas(lines, line);
    }
  }

  /** Main result: up to empty lines, the text is its lines with the new headings. These
      are well stepped. */
  lemma {:induction false} NormalizedTextLines(text: string)
    ensures Filled(Lines(NormalizedText(text))) == Filled(Normalized(Lines(text)))
    ensures WellStepped(Levels(Lines(NormalizedText(text))))
    ensures NoHeadings(Lines(NormalizedText(text))) <==> NoHeadings(Lines(text))
  {
    hide Filled, Normalized, LinesOf, WellStepped, Levels, NoHeadings, Spaced;
    var lines, result := Lines(text), NormalizedText(text);
    NoHeadingsNormalized(lines);
    if !NoHeadings(lines) {
      LinesNormalized(text);
      PassedLines(Join(Normalized(lines)), 0);
      assert Passed(Join(Normalized(lines)), 0) == result;
    }
    NormalizedLevels(lines);
    SteppedFilled(Normalized(lines));
    SteppedFilled(Lines(result));
    NoHeadingsFilled(Normalized(lines));
    NoHeadingsFilled(Lines(result));
  }

  /** Main result: a text stays as it is if and only if it has no headings, or they start at level 1 and
      never rise by more than one, and no anchor stands directly before one. */
  lemma {:induction false} NormalizedTextSame(text: string)
    ensures NormalizedText(text) == text
       <==> NoHeadings(Lines(text)) || (WellStepped(Levels(Lines(text))) && NoneFrom(text, 0))
  {
    hide Normalized, LinesOf, WellStepped, Levels, NoHeadings, Spaced, NoneFrom;
    var lines := Lines(text);
    var leveled := Join(Normalized(lines));
    assert Passed(leveled, 0) == SpaceAnchors(leveled);
    LinesNormalized(text);
    JoinLinesOf(text, |text|);
    assert text[..|text|] == text;
    NormalizedSame(lines);
    PassedSame(leveled, 0);
    PassedLines(leveled, 0);
  }

  /** Main result: a second run changes nothing if and only if the text has no headings, or no anchor
      before a heading stands within the id of another. */
  lemma {:induction false} NormalizedTextTwice(text: string)
    ensures NormalizedText(NormalizedText(text)) == NormalizedText(text) <==> NoHeadings(Lines(text)) || !Nested(text)
  {
    hide Normalized, LinesOf, WellStepped, Levels, NoHeadings, Spaced, NoneFrom, NestedFrom;
    var lines := Lines(text);
    if !NoHeadings(lines) {
      var leveled := Join(Normalized(lines));
      assert Passed(leveled, 0) == NormalizedText(text);
      NormalizedTextLines(text);
      NormalizedTextSame(NormalizedText(text));
      PassedFrom(leveled, 0);
      NestedNormalized(lines, |lines|);
      JoinLinesOf(text, |text|);
      assert text[..|text|] == text;
      assert RewrittenTo(lines, |lines|) == Normalized(lines);
    }
  }

  /** Nesting takes an id with a line break. */
  lemma {:induction false} NestedIds(text: string)
    requires Nested(text)
    ensures exists p: nat :: Matches(text, p) && '\n' in text[p..Spot(text, p) - 7]
  {
    hide Anchor, IdEnd, Level;
    var p: nat, q: nat :| NestedAt(text, p, q);
    WithinId(text, p, q);
    assert text[p..Spot(text, p) - 7][q - 1 - p] == '\n';
  }

  lemma {:induction false} WithinId(text: string, p: nat, q: nat)
    requires NestedAt(text, p, q)
    ensures text[q - 1] == '\n' && q < Spot(text, p) - 7
  {
    hide Level;
    if text[q] != '<' {
      NoMatch(text, q);
    }
    var s, c := text[p..], IdEnd(text[p..]);
    assert text[q] == s[q - p] && text[q - 1] == s[q - p - 1];
    forall i | 0 <= i < 7 ensures s[c + i] == "\"></a>\n"[i] {
      assert s[c..][i] == s[c + i];
    }
  }

  lemma {:induction false} AnchorOf(before: string, id: string, rest: string)
    requires LineStart(before, |before|) && id != "" && '"' !in id
    ensures
      var text := before + ("<a id=\"" + id + "\"></a>\n# " + rest);
      Matches(text, |before|) && Spot(text, |before|) == |before| + |id| + 14
  {
    hide Level;
    var s, c := "<a id=\"" + id + "\"></a>\n# " + rest, |id| + 7;
    assert (before + s)[|before|..] == s;
    assert s[..6] == "<a id=" && s[7..c] == id;
    FindIs(s, '"', 0, 6);
    FindIs(s, '"', 7, c);
    assert s[c..] == "\"></a>\n" + ("# " + rest);
    assert ("\"></a>\n" + ("# " + rest))[7..] == "# " + rest;
    LevelOne(rest);
  }

  lemma {:induction false} LevelOne(rest: string)
    ensures Level("# " + rest) == 1
  {
    assert "# " + rest == Hash(1) + (" " + rest);
    HashesOf(1, " " + rest);
  }

  /** A text with one anchor in the id of another. Its first run puts an empty line before the first
      heading, and only then is the anchor before the second heading found. */
  const ANCHOR_IN_ID: string := "<a id=\"\n<a id=\"></a>\n# \"></a>\n# "

  lemma {:induction false} SecondRunChanges()
    ensures NormalizedText(NormalizedText(ANCHOR_IN_ID)) != NormalizedText(ANCHOR_IN_ID)
  {
    hide ANCHOR_IN_ID, NormalizedText, LinesOf, Level;
    ExampleNested();
    ExampleHeading();
    NormalizedTextTwice(ANCHOR_IN_ID);
  }

  lemma {:induction false} ExampleNested()
    ensures Nested(ANCHOR_IN_ID)
  {
    hide Matches, Spot, ANCHOR_IN_ID;
    ExampleParts();
    ExampleOuter();
    ExampleInner();
    assert NestedAt(ANCHOR_IN_ID, 0, 8);
  }

  lemma {:induction false} ExampleOuter()
    ensures
      var text := "" + ("<a id=\"" + "\n<a id=" + "\"></a>\n# " + "\"></a>\n# ");
      Matches(text, 0) && Spot(text, 0) == 21
  {
    hide Matches, Spot;
    AnchorOf("", "\n<a id=", "\"></a>\n# ");
  }

  lemma {:induction false} ExampleInner()
    ensures Matches("<a id=\"\n" + ("<a id=\"" + "></a>\n# " + "\"></a>\n# " + ""), 8)
  {
    hide Matches, Spot;
    AnchorOf("<a id=\"\n", "></a>\n# ", "");
  }

  lemma {:induction false} ExampleParts()
    ensures ANCHOR_IN_ID == "" + ("<a id=\"" + "\n<a id=" + "\"></a>\n# " + "\"></a>\n# ")
    ensures ANCHOR_IN_ID == "<a id=\"\n" + ("<a id=\"" + "></a>\n# " + "\"></a>\n# " + "")
  {
  }

  lemma {:induction false} ExampleHeading()
    ensures !NoHeadings(Lines(ANCHOR_IN_ID))
  {
    hide LinesOf, Level;
    var before, heading := "<a id=\"\n<a id=\"></a>\n# \"></a>", "# " + "";
    assert ANCHOR_IN_ID == before + "\n" + heading;
    LinesOfConcat(before, heading, |heading|);
    LinesOfOne(heading, |heading|);
    LevelOne("");
    assert heading[..|heading|] == heading && heading in LinesOf(heading, |heading|);
  }

  method NormalizeHeadingLevels(text: string) returns (result: string)
    ensures result == NormalizedText(text)
    ensures WellStepped(Levels(Lines(result)))
  {
    NormalizedTextLines(text);
    var lines := Lines(text);
    var headings := CollectHeadings(lines);
    if headings == [] {
      NoneCollected(lines);
      return text;
    }
    SomeCollected(lines);
    var remap := Remap(Levels(lines), headings);
    lines := Rewrite(lines, headings, remap);
    result := SpaceAnchors(Join(lines));
  }
}
