/** Small text functions that more than one module uses. */
module Text {

  function Decimal(n: nat): (r: string)
    ensures r != "" && forall c | c in r :: '0' <= c <= '9'
  {
    var digit := ['0' + (n % 10) as char];
    if n < 10 then digit else Decimal(n / 10) + digit
  }

  /** The digits are those of the decimal notation. */
  lemma {:induction false} DecimalDigits(n: nat)
    ensures n < 10 ==> Decimal(n) == ["0123456789"[n]]
    ensures n >= 10 ==> Decimal(n) == Decimal(n / 10) + Decimal(n % 10)
  {
  }

  lemma {:induction false} DecimalInjective(m: nat, n: nat)
    requires Decimal(m) == Decimal(n)
    ensures m == n
  {
    var a, b := Decimal(m), Decimal(n);
    assert a[|a| - 1] == b[|b| - 1];
    if m >= 10 && n >= 10 {
      assert a[..|a| - 1] == Decimal(m / 10) && b[..|b| - 1] == Decimal(n / 10);
      DecimalInjective(m / 10, n / 10);
    }
  }

  /** The position of the first `c` at or after `i`, or the length. */
  function Find(text: string, c: char, i: nat): (k: nat)
    requires i <= |text|
    ensures i <= k <= |text| && c !in text[i..k] && (k < |text| ==> text[k] == c)
    decreases |text| - i
  {
    if i == |text| || text[i] == c then i else Find(text, c, i + 1)
  }

  lemma {:induction false} FindFirst(a: string, c: char, b: string, i: nat)
    requires i <= |a| && c !in a
    ensures Find(a + [c] + b, c, i) == |a|
    decreases |a| - i
  {
    if i < |a| {
      assert a[i] in a && (a + [c] + b)[i] == a[i];
      FindFirst(a, c, b, i + 1);
    }
  }

  // ----- Lines -----

  /** `text[..n].split("\n")`. */
  function LinesOf(text: string, n: nat): (r: seq<string>)
    requires n <= |text|
    ensures r != []
  {
    if n == 0 then [""]
    else
      var r := LinesOf(text, n - 1);
      if text[n - 1] == '\n' then r + [""] else Extended(r, text[n - 1])
  }

  /** `"\n".join(lines)`. */
  function Join(lines: seq<string>): string {
    if lines == [] then ""
    else if |lines| == 1 then lines[0]
    else Join(lines[..|lines| - 1]) + "\n" + lines[|lines| - 1]
  }

  lemma {:induction false} Assoc(a: string, b: string, c: string)
    ensures a + b + c == a + (b + c)
  {
  }

  lemma {:induction false} JoinSnoc(lines: seq<string>, line: string)
    requires lines != []
    ensures Join(lines + [line]) == Join(lines) + "\n" + line
  {
    assert (lines + [line])[..|lines|] == lines;
  }

  /** The lines with `c` put at the end of the last one. */
  function Extended<T>(lines: seq<seq<T>>, c: T): seq<seq<T>>
    requires lines != []
  {
    lines[..|lines| - 1] + [lines[|lines| - 1] + [c]]
  }

  lemma {:induction false} JoinExtended(lines: seq<string>, c: char)
    requires lines != []
    ensures Join(Extended(lines, c)) == Join(lines) + [c]
  {
    var init, last := lines[..|lines| - 1], lines[|lines| - 1];
    if init != [] {
      JoinSnoc(init, last + [c]);
      assert Join(lines) == Join(init) + "\n" + last;
      assert Join(init) + "\n" + (last + [c]) == Join(init) + "\n" + last + [c];
    }
  }

  /** Splitting into lines loses nothing: joining them gives the text back. */
  lemma {:induction false} JoinLinesOf(text: string, n: nat)
    requires n <= |text|
    ensures Join(LinesOf(text, n)) == text[..n]
  {
    if n > 0 {
      JoinLinesOf(text, n - 1);
      assert text[..n] == text[..n - 1] + [text[n - 1]];
      if text[n - 1] == '\n' {
        JoinSnoc(LinesOf(text, n - 1), "");
      } else {
        JoinExtended(LinesOf(text, n - 1), text[n - 1]);
      }
    }
  }

  lemma {:induction false} NoNewlines(text: string, n: nat)
    requires n <= |text|
    ensures forall line | line in LinesOf(text, n) :: '\n' !in line
  {
    if n > 0 {
      NoNewlines(text, n - 1);
    }
  }

  lemma {:induction false} JoinConcat(a: seq<string>, b: seq<string>)
    requires a != [] && b != []
    ensures Join(a + b) == Join(a) + "\n" + Join(b)
    decreases |b|
  {
    var init, last := b[..|b| - 1], b[|b| - 1];
    if init == [] {
      assert b == [last];
      JoinSnoc(a, last);
    } else {
      JoinConcat(a, init);
      assert a + b == (a + init) + [last];
      JoinSnoc(a + init, last);
      assert Join(a) + "\n" + Join(init) + "\n" + last == Join(a) + "\n" + (Join(init) + "\n" + last);
    }
  }

  lemma {:induction false} LinesOfPrefix(a: string, b: string, n: nat)
    requires n <= |a|
    ensures LinesOf(a + b, n) == LinesOf(a, n)
  {
    if n > 0 {
      assert (a + b)[n - 1] == a[n - 1];
      LinesOfPrefix(a, b, n - 1);
    }
  }

  lemma {:induction false} LinesOfConcat(a: string, b: string, n: nat)
    requires n <= |b|
    ensures LinesOf(a + "\n" + b, |a| + 1 + n) == LinesOf(a, |a|) + LinesOf(b, n)
  {
    hide LinesOf, Extended;
    if n == 0 {
      LinesOfFirst(a, b);
    } else {
      LinesOfConcat(a, b, n - 1);
      LinesOfNext(a, b, n, LinesOf(a, |a|), LinesOf(b, n - 1));
    }
  }

  lemma {:induction false} LinesOfFirst(a: string, b: string)
    ensures LinesOf(a + "\n" + b, |a| + 1) == LinesOf(a, |a|) + LinesOf(b, 0)
  {
    Assoc(a, "\n", b);
    LinesOfPrefix(a, "\n" + b, |a|);
  }

  lemma {:induction false} LinesOfNext(a: string, b: string, n: nat, before: seq<string>, lines: seq<string>)
    requires 0 < n <= |b| && lines == LinesOf(b, n - 1)
    requires LinesOf(a + "\n" + b, |a| + n) == before + lines
    ensures LinesOf(a + "\n" + b, |a| + 1 + n) == before + LinesOf(b, n)
  {
    assert (a + "\n" + b)[|a| + n] == b[n - 1];
    ExtendedConcat(before, lines, b[n - 1]);
    assert before + lines + [""] == before + (lines + [""]);
  }

  lemma {:induction false} ExtendedConcat<T>(a: seq<seq<T>>, b: seq<seq<T>>, c: T)
    requires b != []
    ensures Extended(a + b, c) == a + Extended(b, c)
  {
  }

  lemma {:induction false} LinesOfOne(line: string, n: nat)
    requires '\n' !in line && n <= |line|
    ensures LinesOf(line, n) == [line[..n]]
  {
    hide Extended;
    if n > 0 {
      LinesOfOne(line, n - 1);
      assert line[n - 1] in line && line[..n] == line[..n - 1] + [line[n - 1]];
      ExtendedOne(line[..n - 1], line[n - 1]);
    }
  }

  lemma {:induction false} ExtendedOne(line: string, c: char)
    ensures Extended([line], c) == [line + [c]]
  {
  }

  /** Joining lines loses nothing: splitting the text gives them back. */
  lemma {:induction false} LinesOfJoin(lines: seq<string>)
    requires lines != [] && forall line | line in lines :: '\n' !in line
    ensures LinesOf(Join(lines), |Join(lines)|) == lines
  {
    hide LinesOf, Join;
    var init, last := lines[..|lines| - 1], lines[|lines| - 1];
    assert lines == init + [last];
    LinesOfOne(last, |last|);
    assert last[..|last|] == last;
    if init == [] {
      JoinOne(last);
    } else {
      LinesOfJoin(init);
      JoinSnoc(init, last);
      LinesOfConcat(Join(init), last, |last|);
    }
  }

  lemma {:induction false} JoinOne(line: string)
    ensures Join([line]) == line
  {
  }
}
