/** The YAML printer of agents/hermes/config/yaml.ts, and a reader for the block style it emits
    (YAML 1.2.2, sections 8.2.1 and 8.2.2 for block collections, 7.3.1 and 7.3.3 for double-quoted
    and plain scalars, 10.3.2 for the core schema). */
module Yaml {
  import opened Text
  import opened Wrappers

  /** A value of the configuration tree.  A number is its decimal text, as `${value}` prints it. */
  datatype Value =
    | Null
    | Undefined
    | Bool(b: bool)
    | Num(text: string)
    | Str(s: string)
    | List(items: seq<Value>)
    | Obj(entries: seq<Entry>)

  /** An entry.  The key of an object's property is a string; a reader may make something else of it. */
  datatype Entry = Entry(key: Value, value: Value)

  function KeyText(key: Value): string {
    if key.Str? then key.s else ""
  }

  /** `Object.entries`: a list has its indices as keys; a scalar has no entries. */
  function EntriesOf(v: Value): (es: seq<Entry>)
    ensures forall i | 0 <= i < |es| :: es[i].value < v
  {
    match v
    case Obj(entries) => entries
    case List(items) => seq(|items|, i requires 0 <= i < |items| => Entry(Str(Decimal(i)), items[i]))
    case _ => []
  }

  // ----- Scalars -----

  const INDICATORS := ":{}[],&*?|>!%@`#'\""

  /** White space and line terminators, as removed by `String.prototype.trim`. */
  predicate IsSpace(c: char) {
    || '\t' <= c <= '\r' || c == ' ' || c == '\U{00a0}' || c == '\U{1680}' || '\U{2000}' <= c <= '\U{200a}'
    || c == '\U{2028}' || c == '\U{2029}' || c == '\U{202f}' || c == '\U{205f}' || c == '\U{3000}' || c == '\U{feff}'
  }

  predicate NeedsQuotes(s: string) {
    || s == ""
    || (exists c | c in s :: c in INDICATORS || c == '\n')
    || IsSpace(s[0]) || IsSpace(s[|s| - 1])
  }

  function HexDigit(n: nat): char
    requires n < 16
  {
    if n < 10 then '0' + n as char else 'a' + (n - 10) as char
  }

  /** One character inside a `JSON.stringify` string. */
  function EscapeChar(c: char): (r: string)
    ensures r != "" && '\n' !in r
  {
    if c == '"' then "\\\""
    else if c == '\\' then "\\\\"
    else if c == '\U{0008}' then "\\b"
    else if c == '\t' then "\\t"
    else if c == '\n' then "\\n"
    else if c == '\U{000c}' then "\\f"
    else if c == '\r' then "\\r"
    else if c < ' ' then "\\u00" + [HexDigit(c as int / 16), HexDigit(c as int % 16)]
    else [c]
  }

  function Escape(s: string): (r: string)
    ensures '\n' !in r
  {
    if s == "" then "" else EscapeChar(s[0]) + Escape(s[1..])
  }

  function YamlString(s: string): string {
    if NeedsQuotes(s) then "\"" + Escape(s) + "\"" else s
  }

  function BoolText(b: bool): string {
    if b then "true" else "false"
  }

  // ----- The printed lines -----

  /** A line: its indentation in spaces and the text after it. */
  datatype Line = Line(indent: nat, text: string)

  function Spaces(n: nat): (r: string)
    ensures |r| == n && forall c | c in r :: c == ' '
  {
    seq(n, _ => ' ')
  }

  function Unlines(ls: seq<Line>): string {
    if ls == [] then "" else Spaces(ls[0].indent) + ls[0].text + "\n" + Unlines(ls[1..])
  }

  /** The lines of the entries from the `i`-th on, at nesting level `n`. */
  function EntryLines(v: Value, i: nat, n: nat): seq<Line>
    requires i <= |EntriesOf(v)|
    decreases v, 0, |EntriesOf(v)| - i
  {
    if i == |EntriesOf(v)| then []
    else EntryBlock(EntriesOf(v)[i], n) + EntryLines(v, i + 1, n)
  }

  function EntryBlock(e: Entry, n: nat): seq<Line>
    decreases e.value, 2
  {
    [Line(2 * n, EntryText(e))] + Below(e.value, n)
  }

  /** The line that an entry starts with: the key, and the value unless it is a block. */
  function EntryText(e: Entry): string {
    KeyText(e.key) + ":" + ValueText(e.value)
  }

  function ValueText(v: Value): string {
    match v
    case Null => " null"
    case Undefined => " null"
    case Bool(b) => " " + BoolText(b)
    case Num(text) => " " + text
    case Str(s) => " " + YamlString(s)
    case List(items) => if items == [] then " []" else ""
    case Obj(entries) => if entries == [] then " {}" else ""
  }

  /** The lines below the one that an entry starts with. */
  function Below(v: Value, n: nat): seq<Line>
    decreases v, 1
  {
    match v
    case List(items) => ItemLines(v, 0, n)
    case Obj(entries) => EntryLines(v, 0, n + 1)
    case _ => []
  }

  function ItemLines(v: Value, j: nat, n: nat): seq<Line>
    requires v.List? && j <= |v.items|
    decreases v, 0, |v.items| - j
  {
    if j == |v.items| then []
    else ItemBlock(v.items[j], n) + ItemLines(v, j + 1, n)
  }

  /** The lines of one item; a null item has none. */
  function ItemBlock(item: Value, n: nat): seq<Line>
    decreases item, 1
  {
    match item
    case Null => []
    case Undefined => []
    case List(_) => [Line(2 * n, "-")] + EntryLines(item, 0, n + 1)
    case Obj(_) => [Line(2 * n, "-")] + EntryLines(item, 0, n + 1)
    case _ => [Line(2 * n, "-" + ValueText(item))]
  }

  /** The text that the printer produces. */
  function Printed(v: Value, n: nat): string {
    Unlines(EntryLines(v, 0, n))
  }

  lemma {:induction false} UnlinesConcat(a: seq<Line>, b: seq<Line>)
    ensures Unlines(a + b) == Unlines(a) + Unlines(b)
  {
    if a == [] {
      assert a + b == b;
    } else {
      assert (a + b)[1..] == a[1..] + b;
      UnlinesConcat(a[1..], b);
    }
  }

  lemma {:induction false} UnlinesOne(l: Line, rest: seq<Line>)
    ensures Unlines([l] + rest) == Spaces(l.indent) + l.text + "\n" + Unlines(rest)
    ensures Unlines([l]) == Spaces(l.indent) + l.text + "\n"
  {
    assert ([l] + rest)[1..] == rest;
    assert [l][1..] == [];
  }

  lemma {:induction false} Append(out: string, a: seq<Line>, b: seq<Line>)
    ensures out + Unlines(a + b) == out + Unlines(a) + Unlines(b)
  {
    UnlinesConcat(a, b);
  }

  lemma {:induction false} AppendEntry(out: string, obj: Value, i: nat, indent: nat)
    requires i < |EntriesOf(obj)|
    ensures out + Unlines(EntryLines(obj, i, indent))
         == out + Unlines(EntryBlock(EntriesOf(obj)[i], indent)) + Unlines(EntryLines(obj, i + 1, indent))
  {
    hide Unlines, EntryBlock;
    Append(out, EntryBlock(EntriesOf(obj)[i], indent), EntryLines(obj, i + 1, indent));
  }

  /** `toYaml`, which appends to its output entry by entry. */
  method ToYaml(obj: Value, indent: nat) returns (out: string)
    ensures out == Printed(obj, indent)
    decreases obj, 0
  {
    out := "";
    var entries := EntriesOf(obj);
    for i := 0 to |entries|
      invariant out + Unlines(EntryLines(obj, i, indent)) == Printed(obj, indent)
    {
      var text := PrintEntry(KeyText(entries[i].key), entries[i].value, indent);
      assert EntryBlock(Entry(Str(KeyText(entries[i].key)), entries[i].value), indent)
        == EntryBlock(entries[i], indent);
      AppendEntry(out, obj, i, indent);
      out := out + text;
    }
  }

  /** The body of the loop over the entries. */
  method PrintEntry(key: string, value: Value, indent: nat) returns (out: string)
    ensures out == Unlines(EntryBlock(Entry(Str(key), value), indent))
    decreases value, 2
  {
    UnlinesOne(Line(2 * indent, EntryText(Entry(Str(key), value))), Below(value, indent));
    var pad := Spaces(2 * indent);
    match value {
      case Null => out := pad + (key + ":" + " null") + "\n";
      case Undefined => out := pad + (key + ":" + " null") + "\n";
      case List(items) =>
        if |items| == 0 {
          out := pad + (key + ":" + " []") + "\n";
        } else {
          var below := PrintItems(value, indent);
          out := pad + (key + ":" + "") + "\n" + below;
        }
      case Obj(inner) =>
        if |inner| == 0 {
          out := pad + (key + ":" + " {}") + "\n";
        } else {
          var below := ToYaml(value, indent + 1);
          out := pad + (key + ":" + "") + "\n" + below;
        }
      case Str(s) => out := pad + (key + ":" + (" " + YamlString(s))) + "\n";
      case Num(text) => out := pad + (key + ":" + (" " + text)) + "\n";
      case Bool(b) => out := pad + (key + ":" + (" " + BoolText(b))) + "\n";
    }
    ghost var head := pad + EntryText(Entry(Str(key), value)) + "\n";
    assert head + "" == head;
    assert out == head + Unlines(Below(value, indent));
  }

  /** The loop over the items of a list. */
  method PrintItems(list: Value, indent: nat) returns (out: string)
    requires list.List?
    ensures out == Unlines(ItemLines(list, 0, indent))
    decreases list, 0
  {
    out := "";
    for j := 0 to |list.items|
      invariant out + Unlines(ItemLines(list, j, indent)) == Unlines(ItemLines(list, 0, indent))
    {
      var text := PrintItem(list.items[j], indent);
      Append(out, ItemBlock(list.items[j], indent), ItemLines(list, j + 1, indent));
      out := out + text;
    }
  }

  method PrintItem(item: Value, indent: nat) returns (out: string)
    ensures out == Unlines(ItemBlock(item, indent))
    decreases item, 2
  {
    var pad := Spaces(2 * indent);
    UnlinesOne(Line(2 * indent, "-" + ValueText(item)), []);
    match item {
      case Null => out := "";
      case Undefined => out := "";
      case Str(s) => out := pad + ("-" + (" " + YamlString(s))) + "\n";
      case Num(text) => out := pad + ("-" + (" " + text)) + "\n";
      case Bool(b) => out := pad + ("-" + (" " + BoolText(b))) + "\n";
      case _ =>
        UnlinesOne(Line(2 * indent, "-"), EntryLines(item, 0, indent + 1));
        var below := ToYaml(item, indent + 1);
        out := pad + "-" + "\n" + below;
    }
  }

  // ----- The reader -----

  function LeadingSpaces(raw: string): (k: nat)
    ensures k <= |raw|
  {
    if raw != "" && raw[0] == ' ' then 1 + LeadingSpaces(raw[1..]) else 0
  }

  function ParseLine(raw: string): Line {
    Line(LeadingSpaces(raw), raw[LeadingSpaces(raw)..])
  }

  function SplitLines(text: string): seq<Line>
    decreases |text|
  {
    if text == "" then []
    else
      var k := Find(text, '\n', 0);
      [ParseLine(text[..k])] + (if k < |text| then SplitLines(text[k + 1..]) else [])
  }

  /** A block sequence entry: `-` followed by white space or the end of the line. */
  predicate IsItem(text: string) {
    text == "-" || (|text| >= 2 && text[0] == '-' && IsBlank(text[1]))
  }

  predicate IsBlank(c: char) { c == ' ' || c == '\t' }

  /** The position of the `:` that ends a plain key: one followed by a blank or the end of the line. */
  function KeyEnd(text: string, i: nat): (k: nat)
    requires i <= |text|
    ensures i <= k <= |text|
    ensures k < |text| ==> text[k] == ':' && (k + 1 == |text| || IsBlank(text[k + 1]))
    decreases |text| - i
  {
    if i == |text| || (text[i] == ':' && (i + 1 == |text| || IsBlank(text[i + 1]))) then i
    else KeyEnd(text, i + 1)
  }

  function HexValue(c: char): Option<nat> {
    if '0' <= c <= '9' then Some(c as int - '0' as int)
    else if 'a' <= c <= 'f' then Some(c as int - 'a' as int + 10)
    else None
  }

  /** One escape of a double-quoted scalar, after the backslash: the character and the length. */
  function UnescapeOne(t: string): (r: Option<(char, nat)>)
    ensures r.Some? ==> 0 < r.value.1 <= |t|
  {
    if t == "" then None
    else if t[0] == '"' || t[0] == '\\' then Some((t[0], 1))
    else if t[0] == 'b' then Some(('\U{0008}', 1))
    else if t[0] == 't' then Some(('\t', 1))
    else if t[0] == 'n' then Some(('\n', 1))
    else if t[0] == 'f' then Some(('\U{000c}', 1))
    else if t[0] == 'r' then Some(('\r', 1))
    else if t[0] == 'u' && |t| >= 5 && t[1] == '0' && t[2] == '0' then
      match (HexValue(t[3]), HexValue(t[4]))
      case (Some(high), Some(low)) => Some(((high * 16 + low) as char, 5))
      case _ => None
    else None
  }

  /** The content of a double-quoted scalar whose opening quote has been read. */
  function Unquote(t: string): Option<string>
    decreases |t|
  {
    if t == "" then None
    else if t[0] == '"' then (if |t| == 1 then Some("") else None)
    else if t[0] == '\\' then
      match UnescapeOne(t[1..])
      case None => None
      case Some((c, n)) =>
        match Unquote(t[1 + n..])
        case None => None
        case Some(rest) => Some([c] + rest)
    else
      match Unquote(t[1..])
      case None => None
      case Some(rest) => Some([t[0]] + rest)
  }

  predicate IsDigit(c: char) { '0' <= c <= '9' }

  /** The longest run of digits at the front. */
  function DigitRun(t: string): (k: nat)
    ensures k <= |t|
  {
    if t != "" && IsDigit(t[0]) then 1 + DigitRun(t[1..]) else 0
  }

  /** `[-+]? ( \. [0-9]+ | [0-9]+ ( \. [0-9]* )? ) ( [eE] [-+]? [0-9]+ )?` */
  predicate IsDecimalNumber(t: string) {
    var u := DropSign(t);
    var whole := DigitRun(u);
    var v := u[whole..];
    if v != "" && v[0] == '.' then
      var fraction := DigitRun(v[1..]);
      (whole > 0 || fraction > 0) && IsExponent(v[1 + fraction..])
    else whole > 0 && IsExponent(v)
  }

  function DropSign(t: string): string {
    if t != "" && (t[0] == '-' || t[0] == '+') then t[1..] else t
  }

  predicate IsExponent(t: string) {
    || t == ""
    || ((t[0] == 'e' || t[0] == 'E') && DropSign(t[1..]) != "" && forall c | c in DropSign(t[1..]) :: IsDigit(c))
  }

  /** The numbers of the core schema (section 10.3.2). */
  predicate IsCoreNumber(t: string) {
    || IsDecimalNumber(t)
    || (|t| > 2 && t[..2] == "0o" && forall c | c in t[2..] :: '0' <= c <= '7')
    || (|t| > 2 && t[..2] == "0x" && forall c | c in t[2..] :: IsDigit(c) || 'a' <= c <= 'f' || 'A' <= c <= 'F')
    || DropSign(t) in [".inf", ".Inf", ".INF"]
    || t in [".nan", ".NaN", ".NAN"]
  }

  /** Tag resolution of a plain scalar by the core schema (section 10.3.2). */
  function Resolve(t: string): Value {
    if t in ["", "null", "Null", "NULL", "~"] then Null
    else if t in ["true", "True", "TRUE"] then Bool(true)
    else if t in ["false", "False", "FALSE"] then Bool(false)
    else if IsCoreNumber(t) then Num(t)
    else Str(t)
  }

  const C_INDICATORS := "-?:,[]{}#&*!|>'\"%@`"

  /** A printable character that does not break the line (nb-char, section 5.4). */
  predicate NbChar(c: char) {
    || c == '\t' || ' ' <= c <= '~' || c == '\U{85}' || '\U{a0}' <= c <= '\U{d7ff}'
    || ('\U{e000}' <= c <= '\U{fffd}' && c != '\U{feff}') || '\U{10000}' <= c
  }

  predicate NsChar(c: char) {
    NbChar(c) && !IsBlank(c)
  }

  /** A plain scalar on one line, outside flow collections (section 7.3.3). */
  predicate PlainScalar(s: string) {
    && s != "" && NsChar(s[0]) && NsChar(s[|s| - 1])
    && (s[0] in C_INDICATORS ==> s[0] in "?:-" && |s| > 1 && NsChar(s[1]))
    && forall i | 0 <= i < |s| :: PlainChar(s, i)
  }

  /** Inside a plain scalar, `: ` ends a key and ` #` starts a comment. */
  predicate PlainChar(s: string, i: nat)
    requires i < |s|
  {
    && NbChar(s[i])
    && (s[i] == ':' ==> i + 1 < |s| && NsChar(s[i + 1]))
    && (s[i] == '#' ==> i > 0 && NsChar(s[i - 1]))
  }

  /** A plain scalar; what is no plain scalar is no value. */
  function PlainValue(t: string): Value {
    if PlainScalar(t) then Resolve(t) else Undefined
  }

  /** A scalar or an empty collection on one line. */
  function ReadScalar(t: string): Value {
    if t == "[]" then List([])
    else if t == "{}" then Obj([])
    else if t != "" && t[0] == '"' then
      match Unquote(t[1..])
      case Some(s) => Str(s)
      case None => Undefined
    else PlainValue(t)
  }

  /** What was read, and the lines left over. */
  datatype Parsed<T> = Parsed(value: T, rest: seq<Line>)

  /** The block below a line indented by `parent`: deeper lines, or, below a key, the items of a
      list at the same depth; nothing there is null. */
  function ReadBlock(ls: seq<Line>, parent: int, belowKey: bool): (r: Parsed<Value>)
    ensures |r.rest| <= |ls|
    decreases |ls|, 1
  {
    if ls == [] then Parsed(Null, ls)
    else if ls[0].indent > parent || (ls[0].indent == parent && belowKey && IsItem(ls[0].text)) then
      if IsItem(ls[0].text) then
        var items := ReadItems(ls, ls[0].indent);
        Parsed(List(items.value), items.rest)
      else
        var entries := ReadEntries(ls, ls[0].indent);
        Parsed(Obj(entries.value), entries.rest)
    else Parsed(Null, ls)
  }

  function ReadEntries(ls: seq<Line>, n: nat): (r: Parsed<seq<Entry>>)
    ensures |r.rest| <= |ls|
    decreases |ls|, 0
  {
    if ls == [] || ls[0].indent != n || IsItem(ls[0].text) then Parsed([], ls)
    else
      var text := ls[0].text;
      var k := KeyEnd(text, 0);
      if k == |text| then Parsed([], ls)
      else
        var block := if k + 1 == |text| then ReadBlock(ls[1..], n, true)
                     else Parsed(ReadScalar(text[k + 2..]), ls[1..]);
        var more := ReadEntries(block.rest, n);
        Parsed([Entry(PlainValue(text[..k]), block.value)] + more.value, more.rest)
  }

  function ReadItems(ls: seq<Line>, n: nat): (r: Parsed<seq<Value>>)
    ensures |r.rest| <= |ls|
    decreases |ls|, 0
  {
    if ls == [] || ls[0].indent != n || !IsItem(ls[0].text) then Parsed([], ls)
    else
      var text := ls[0].text;
      var block := if |text| == 1 then ReadBlock(ls[1..], n, false)
                   else Parsed(ReadScalar(text[2..]), ls[1..]);
      var more := ReadItems(block.rest, n);
      Parsed([block.value] + more.value, more.rest)
  }

  /** A document marker, `---` or `...`, where a line starts with it (section 9.1.2). */
  predicate IsMarker(text: string) {
    |text| >= 3 && text[..3] in ["---", "..."] && (|text| == 3 || IsBlank(text[3]))
  }

  /** Everything in the tree is a value. */
  predicate Sound(v: Value)
    decreases v
  {
    match v
    case Undefined => false
    case List(items) => forall j | 0 <= j < |items| :: Sound(items[j])
    case Obj(entries) => forall i | 0 <= i < |entries| :: Sound(entries[i].key) && Sound(entries[i].value)
    case _ => true
  }

  /** A document: `None` when some lines do not belong to it, one starts another document, or some text
      is no scalar. */
  function Read(text: string): Option<Value> {
    var lines := SplitLines(text);
    var block := ReadBlock(lines, -1, false);
    if block.rest != [] || !Sound(block.value) || exists l | l in lines :: l.indent == 0 && IsMarker(l.text) then None
    else Some(block.value)
  }

  // ----- Which strings are printed as they are -----

  const LISTED: set<char> :=
    {':', '{', '}', '[', ']', ',', '&', '*', '?', '|', '>', '!', '%', '@', '`', '#', '\'', '"', '\n'}

  const WHITE: set<char> :=
    {'\t', '\n', '\U{b}', '\U{c}', '\r', ' ', '\U{a0}', '\U{1680}', '\U{2000}', '\U{2001}', '\U{2002}',
     '\U{2003}', '\U{2004}', '\U{2005}', '\U{2006}', '\U{2007}', '\U{2008}', '\U{2009}', '\U{200a}', '\U{2028}',
     '\U{2029}', '\U{202f}', '\U{205f}', '\U{3000}', '\U{feff}'}

  /** Not empty, without white space at the ends, and without the characters that call for quotes. */
  predicate Bare(s: string) {
    && s != "" && s[0] !in WHITE && s[|s| - 1] !in WHITE
    && forall c | c in s :: c !in LISTED
  }

  lemma {:induction false} ListedIs(c: char)
    ensures c in LISTED <==> c in INDICATORS || c == '\n'
  {
    if c in INDICATORS {
      var i :| 0 <= i < |INDICATORS| && INDICATORS[i] == c;
    }
    assert INDICATORS[..9] == [':', '{', '}', '[', ']', ',', '&', '*', '?'];
    assert INDICATORS[9..] == ['|', '>', '!', '%', '@', '`', '#', '\'', '"'];
    assert INDICATORS == INDICATORS[..9] + INDICATORS[9..];
  }

  lemma {:induction false} WhiteIs(c: char)
    ensures c in WHITE <==> IsSpace(c)
  {
  }

  /** Main result: a string is printed as it is exactly when it is bare, and otherwise as a double-quoted
      scalar. */
  lemma {:induction false} BareExactly(s: string)
    ensures NeedsQuotes(s) <==> !Bare(s)
    ensures YamlString(s) == s <==> Bare(s)
    ensures !Bare(s) ==> YamlString(s) == "\"" + Escape(s) + "\""
  {
    hide INDICATORS, LISTED, WHITE, IsSpace;
    if s != "" {
      WhiteIs(s[0]);
      WhiteIs(s[|s| - 1]);
      forall c ensures c in LISTED <==> c in INDICATORS || c == '\n' {
        ListedIs(c);
      }
    }
    EscapeLonger(s);
  }

  lemma {:induction false} EscapeLonger(s: string)
    ensures |Escape(s)| >= |s|
  {
    if s != "" {
      EscapeLonger(s[1..]);
    }
  }

  // ----- What the reader returns for printed text -----

  /** What a value printed under a key, or as an item, is read back as. */
  function Reread(v: Value): Value
    decreases v, 1
  {
    match v
    case Null => Null
    case Undefined => Null
    case Bool(b) => Bool(b)
    case Num(text) => PlainValue(text)
    case Str(s) => if Bare(s) then PlainValue(s) else v
    case List(items) =>
      if items == [] then v
      else if RereadItems(v, 0) == [] then Null
      else List(RereadItems(v, 0))
    case Obj(entries) => if entries == [] then v else Obj(RereadEntries(v, 0))
  }

  /** A key is printed without quotes, so it is resolved like any plain scalar. */
  function RereadEntry(e: Entry): Entry
    decreases e.value, 2
  {
    Entry(PlainValue(KeyText(e.key)), Reread(e.value))
  }

  function RereadEntries(v: Value, i: nat): (es: seq<Entry>)
    requires i <= |EntriesOf(v)|
    ensures |es| == |EntriesOf(v)| - i
    decreases v, 0, |EntriesOf(v)| - i
  {
    if i == |EntriesOf(v)| then []
    else [RereadEntry(EntriesOf(v)[i])] + RereadEntries(v, i + 1)
  }

  /** Null items are dropped; lists inside lists become objects keyed by index. */
  function RereadItems(v: Value, j: nat): (vs: seq<Value>)
    requires v.List? && j <= |v.items|
    ensures |vs| <= |v.items| - j
    decreases v, 0, |v.items| - j
  {
    if j == |v.items| then [] else RereadItem(v.items[j]) + RereadItems(v, j + 1)
  }

  function RereadItem(item: Value): (vs: seq<Value>)
    ensures |vs| <= 1
    decreases item, 2
  {
    match item
    case Null => []
    case Undefined => []
    case List(_) => [RereadBlock(item)]
    case Obj(_) => [RereadBlock(item)]
    case _ => [Reread(item)]
  }

  /** An object, or a list taken as one, on lines of its own; without entries it is null. */
  function RereadBlock(v: Value): Value
    decreases v, 1
  {
    if EntriesOf(v) == [] then Null else Obj(RereadEntries(v, 0))
  }

  /** A key of that kind; an implicit key has at most 1024 characters (section 7.4.2). */
  predicate PlainKey(key: Value) {
    key.Str? && PlainScalar(key.s) && |key.s| <= 1024
  }

  /** Keys are plain, and the text of a number has no character that a number has not. */
  predicate Plain(v: Value)
    decreases v, 1
  {
    match v
    case Num(text) => Bare(text)
    case _ => forall i | 0 <= i < |EntriesOf(v)| :: PlainKey(EntriesOf(v)[i].key) && Plain(EntriesOf(v)[i].value)
  }

  /** What is printed without quotes is a plain scalar. */
  predicate PlainTexts(v: Value)
    decreases v, 1
  {
    match v
    case Num(text) => PlainScalar(text)
    case Str(s) => Bare(s) ==> PlainScalar(s)
    case _ => forall i | 0 <= i < |EntriesOf(v)| :: PlainTexts(EntriesOf(v)[i].value)
  }

  /** ... and no key at the left margin makes its line start with a document marker. */
  predicate PlainDocument(v: Value) {
    Plain(v) && forall i | 0 <= i < |EntriesOf(v)| :: !IsMarker(KeyText(EntriesOf(v)[i].key) + ":")
  }

  // ----- Double-quoted scalars -----

  lemma {:induction false} UnquoteChar(c: char, t: string, rest: string)
    requires Unquote(t) == Some(rest)
    ensures Unquote(EscapeChar(c) + t) == Some([c] + rest)
  {
    var e := EscapeChar(c);
    if e[0] == '\\' {
      assert (e + t)[1..] == e[1..] + t;
      var n := |e| - 1;
      if n == 5 {
        var code := c as int;
        assert HexValue(e[4]) == Some(code / 16) && HexValue(e[5]) == Some(code % 16);
      }
      assert UnescapeOne(e[1..] + t) == Some((c, n));
      assert (e + t)[1 + n..] == t;
    } else {
      assert (e + t)[1..] == t;
    }
  }

  lemma {:induction false} UnquoteEscaped(s: string)
    ensures Unquote(Escape(s) + "\"") == Some(s)
  {
    if s != "" {
      UnquoteEscaped(s[1..]);
      UnquoteChar(s[0], Escape(s[1..]) + "\"", s[1..]);
      assert EscapeChar(s[0]) + (Escape(s[1..]) + "\"") == Escape(s) + "\"";
      assert [s[0]] + s[1..] == s;
    }
  }

  lemma {:induction false} ReadQuoted(s: string)
    ensures ReadScalar("\"" + Escape(s) + "\"") == Str(s)
  {
    UnquoteEscaped(s);
    var quoted := "\"" + Escape(s) + "\"";
    assert quoted[1..] == Escape(s) + "\"";
    assert quoted[0] == '"';
    assert quoted != "[]" && quoted != "{}";
  }

  lemma {:induction false} ReadPlain(s: string)
    requires Bare(s)
    ensures ReadScalar(s) == PlainValue(s)
  {
    PlainChars(s);
  }

  /** A string read back from its printed form. */
  lemma {:induction false} ReadString(s: string)
    ensures ReadScalar(YamlString(s)) == Reread(Str(s))
  {
    BareExactly(s);
    if Bare(s) {
      ReadPlain(s);
    } else {
      ReadQuoted(s);
    }
  }

  lemma {:induction false} PlainChars(s: string)
    requires Bare(s)
    ensures s != "[]" && s != "{}" && s != "" && s[0] != '"' && ':' !in s && s[0] != ' ' && '\n' !in s
  {
    assert s[0] in s && (|s| > 1 ==> s[1] in s);
  }

  // ----- Lines -----

  /** A line that survives splitting: one line, whose text does not start with a space. */
  ghost predicate GoodLine(l: Line) {
    l.text != "" && l.text[0] != ' ' && '\n' !in l.text
  }

  lemma {:induction false} LeadingSpacesOf(n: nat, text: string)
    requires text != "" && text[0] != ' '
    ensures LeadingSpaces(Spaces(n) + text) == n
  {
    if n == 0 {
      assert Spaces(0) + text == text;
    } else {
      assert (Spaces(n) + text)[1..] == Spaces(n - 1) + text;
      LeadingSpacesOf(n - 1, text);
    }
  }

  /** Splitting undoes joining. */
  lemma {:induction false} SplitUnlines(ls: seq<Line>)
    requires forall l | l in ls :: GoodLine(l)
    ensures SplitLines(Unlines(ls)) == ls
  {
    if ls != [] {
      var l := ls[0];
      assert GoodLine(l);
      var raw := Spaces(l.indent) + l.text;
      var text := raw + "\n" + Unlines(ls[1..]);
      assert text == Unlines(ls);
      FindFirst(raw, '\n', Unlines(ls[1..]), 0);
      assert text[..|raw|] == raw && text[|raw| + 1..] == Unlines(ls[1..]);
      LeadingSpacesOf(l.indent, l.text);
      assert raw[l.indent..] == l.text;
      SplitUnlines(ls[1..]);
      assert [l] + ls[1..] == ls;
    }
  }

  lemma {:induction false} GoodScalar(v: Value)
    requires Plain(v) && (v.Str? || v.Num?)
    ensures '\n' !in (if v.Str? then YamlString(v.s) else v.text)
  {
    if v.Str? && !Bare(v.s) {
      assert '\n' !in Escape(v.s);
    }
  }

  lemma {:induction false} PlainOneLine(s: string)
    requires PlainScalar(s)
    ensures '\n' !in s
  {
    forall i | 0 <= i < |s| ensures s[i] != '\n' {
      assert PlainChar(s, i);
    }
  }

  lemma {:induction false} GoodEntryLine(e: Entry, n: nat)
    requires PlainKey(e.key) && Plain(e.value)
    ensures GoodLine(Line(2 * n, EntryText(e)))
  {
    PlainOneLine(KeyText(e.key));
    if e.value.Str? || e.value.Num? {
      GoodScalar(e.value);
    }
  }

  lemma {:induction false} GoodEntries(v: Value, i: nat, n: nat)
    requires Plain(v) && i <= |EntriesOf(v)|
    ensures forall l | l in EntryLines(v, i, n) :: GoodLine(l)
    decreases v, 0, |EntriesOf(v)| - i
  {
    if i < |EntriesOf(v)| {
      var e := EntriesOf(v)[i];
      GoodEntryLine(e, n);
      GoodBelow(e.value, n);
      GoodEntries(v, i + 1, n);
    }
  }

  lemma {:induction false} GoodBelow(v: Value, n: nat)
    requires Plain(v)
    ensures forall l | l in Below(v, n) :: GoodLine(l)
    decreases v, 1
  {
    if v.List? {
      GoodItems(v, 0, n);
    } else if v.Obj? {
      GoodEntries(v, 0, n + 1);
    }
  }

  lemma {:induction false} GoodItems(v: Value, j: nat, n: nat)
    requires Plain(v) && v.List? && j <= |v.items|
    ensures forall l | l in ItemLines(v, j, n) :: GoodLine(l)
    decreases v, 0, |v.items| - j
  {
    if j < |v.items| {
      var item := v.items[j];
      assert EntriesOf(v)[j].value == item;
      if item.List? || item.Obj? {
        GoodEntries(item, 0, n + 1);
      } else if item.Str? || item.Num? {
        GoodScalar(item);
      }
      GoodItems(v, j + 1, n);
    }
  }

  // ----- Reading back blocks -----

  lemma {:induction false} KeyEndOf(key: string, rest: string, i: nat)
    requires PlainScalar(key) && i <= |key| && (rest == "" || rest[0] == ' ')
    ensures KeyEnd(key + ":" + rest, i) == |key|
    decreases |key| - i
  {
    var text := key + ":" + rest;
    if i < |key| {
      assert PlainChar(key, i) && text[i] == key[i];
      if key[i] == ':' { assert text[i + 1] == key[i + 1]; }
      KeyEndOf(key, rest, i + 1);
    } else {
      assert text[|key|] == ':';
      if rest != "" { assert text[|key| + 1] == rest[0]; }
    }
  }

  /** The scalar on an entry's line, if any, is read back; a block has none. */
  lemma {:induction false} ScalarRead(v: Value)
    requires Plain(v)
    ensures ValueText(v) == "" <==> (v.List? || v.Obj?) && EntriesOf(v) != []
    ensures ValueText(v) != "" ==>
      && ValueText(v)[0] == ' ' && ReadScalar(ValueText(v)[1..]) == Reread(v)
      && forall n :: Below(v, n) == []
  {
    hide PlainScalar, Resolve, PlainTexts, ReadScalar;
    match v
    case Null => WordsRead(); assert ValueText(v)[1..] == "null";
    case Undefined => WordsRead(); assert ValueText(v)[1..] == "null";
    case Bool(b) => WordsRead(); assert ValueText(v)[1..] == BoolText(b);
    case Num(text) => ReadPlain(text); assert ValueText(v)[1..] == text;
    case Str(s) => ReadString(s); assert ValueText(v)[1..] == YamlString(s);
    case List(items) => if items == [] { EmptyRead(); assert ValueText(v)[1..] == "[]"; }
    case Obj(entries) => if entries == [] { EmptyRead(); assert ValueText(v)[1..] == "{}"; }
  }

  lemma {:induction false} WordsRead()
    ensures ReadScalar("null") == Null && ReadScalar("true") == Bool(true) && ReadScalar("false") == Bool(false)
  {
    WordIsPlain("null");
    WordIsPlain("true");
    WordIsPlain("false");
  }

  lemma {:induction false} EmptyRead()
    ensures ReadScalar("[]") == List([]) && ReadScalar("{}") == Obj([])
  {
  }

  /** An entry's line is no item, and its key ends where the printer put the colon. */
  lemma {:induction false} KeyRead(key: string, rest: string)
    requires PlainScalar(key) && (rest == "" || rest[0] == ' ')
    ensures
      var text := key + ":" + rest;
      && !IsItem(text) && KeyEnd(text, 0) == |key| && text[..|key|] == key
      && (rest != "" ==> text[|key| + 2..] == rest[1..])
  {
    KeyEndOf(key, rest, 0);
    var text := key + ":" + rest;
    assert text[0] == key[0];
    assert |key| == 1 ==> text[1] == ':';
    assert |key| > 1 ==> text[1] == key[1];
  }

  /** The lines that may follow the entries of a block, and the items of one, at level `n`. */
  ghost predicate EndsEntries(after: seq<Line>, n: nat) {
    after == [] || after[0].indent < 2 * n
  }

  ghost predicate EndsItems(after: seq<Line>, n: nat) {
    after == [] || after[0].indent < 2 * n || (after[0].indent == 2 * n && !IsItem(after[0].text))
  }

  /** One step of the reader over the entries of a block. */
  lemma {:induction false} ReadEntriesStep(e: Entry, rest: seq<Line>, n: nat, block: Parsed<Value>)
    requires PlainKey(e.key) && Plain(e.value)
    requires block == if ValueText(e.value) == "" then ReadBlock(rest, 2 * n, true) else Parsed(Reread(e.value), rest)
    ensures
      var more := ReadEntries(block.rest, 2 * n);
      ReadEntries([Line(2 * n, EntryText(e))] + rest, 2 * n)
      == Parsed([Entry(PlainValue(KeyText(e.key)), block.value)] + more.value, more.rest)
  {
    ScalarRead(e.value);
    KeyRead(KeyText(e.key), ValueText(e.value));
    var ls := [Line(2 * n, EntryText(e))] + rest;
    assert ls[1..] == rest;
  }

  lemma {:induction false} EntryLinesHead(v: Value, i: nat, n: nat)
    requires i < |EntriesOf(v)|
    ensures EntryLines(v, i, n) != [] && EntryLines(v, i, n)[0] == Line(2 * n, EntryText(EntriesOf(v)[i]))
  {
    assert EntryLines(v, i, n) == EntryBlock(EntriesOf(v)[i], n) + EntryLines(v, i + 1, n);
  }

  lemma {:induction false} EntryLinesSplit(v: Value, i: nat, n: nat, after: seq<Line>)
    requires i < |EntriesOf(v)|
    ensures EntryLines(v, i, n) + after == EntryBlock(EntriesOf(v)[i], n) + (EntryLines(v, i + 1, n) + after)
  {
    hide EntryBlock, EntriesOf;
    assert EntryLines(v, i, n) == EntryBlock(EntriesOf(v)[i], n) + EntryLines(v, i + 1, n);
  }

  lemma {:induction false} ItemLinesSplit(v: Value, j: nat, n: nat, after: seq<Line>)
    requires v.List? && j < |v.items|
    ensures ItemLines(v, j, n) + after == ItemBlock(v.items[j], n) + (ItemLines(v, j + 1, n) + after)
  {
    assert ItemLines(v, j, n) == ItemBlock(v.items[j], n) + ItemLines(v, j + 1, n);
  }

  lemma {:induction false} EntriesRead(v: Value, i: nat, n: nat, after: seq<Line>)
    requires Plain(v) && i <= |EntriesOf(v)| && EndsEntries(after, n)
    ensures ReadEntries(EntryLines(v, i, n) + after, 2 * n) == Parsed(RereadEntries(v, i), after)
    decreases v, 0, |EntriesOf(v)| - i
  {
    if i == |EntriesOf(v)| {
      assert EntryLines(v, i, n) + after == after;
    } else {
      var e := EntriesOf(v)[i];
      var more := EntryLines(v, i + 1, n) + after;
      EntriesRead(v, i + 1, n, after);
      NextEntryEndsItems(v, i + 1, n, after);
      EntryRead(e, n, more);
      EntryLinesSplit(v, i, n, after);
    }
  }

  lemma {:induction false} EntryRead(e: Entry, n: nat, more: seq<Line>)
    requires PlainKey(e.key) && Plain(e.value) && EndsItems(more, n)
    ensures ReadEntries(EntryBlock(e, n) + more, 2 * n)
         == Parsed([RereadEntry(e)] + ReadEntries(more, 2 * n).value, ReadEntries(more, 2 * n).rest)
    decreases e.value, 2
  {
    hide Plain, Below, Reread, ReadEntries, ReadBlock;
    assert EntryBlock(e, n) + more == [Line(2 * n, EntryText(e))] + (Below(e.value, n) + more);
    ScalarRead(e.value);
    if ValueText(e.value) == "" {
      BelowRead(e.value, n, more);
    } else {
      assert Below(e.value, n) + more == more;
    }
    ReadEntriesStep(e, Below(e.value, n) + more, n, Parsed(Reread(e.value), more));
  }

  /** The next entry, or whatever ends the block, also ends the items of the value before it. */
  lemma {:induction false} NextEntryEndsItems(v: Value, i: nat, n: nat, after: seq<Line>)
    requires Plain(v) && i <= |EntriesOf(v)| && EndsEntries(after, n)
    ensures EndsItems(EntryLines(v, i, n) + after, n)
  {
    if i < |EntriesOf(v)| {
      var e := EntriesOf(v)[i];
      ScalarRead(e.value);
      KeyRead(KeyText(e.key), ValueText(e.value));
      EntryLinesHead(v, i, n);
    } else {
      assert EntryLines(v, i, n) + after == after;
    }
  }

  /** The value of an entry that is a block. */
  lemma {:induction false} BelowRead(v: Value, n: nat, after: seq<Line>)
    requires Plain(v) && (v.List? || v.Obj?) && EntriesOf(v) != [] && EndsItems(after, n)
    ensures ReadBlock(Below(v, n) + after, 2 * n, true) == Parsed(Reread(v), after)
    decreases v, 1
  {
    if v.Obj? {
      EntriesRead(v, 0, n + 1, after);
      EntryBlockRead(v, n, after, true);
    } else {
      ItemsRead(v, 0, n, after);
      ItemsBelowRead(v, n, after);
    }
  }

  lemma {:induction false} ItemsBelowRead(v: Value, n: nat, after: seq<Line>)
    requires v.List? && v.items != [] && EndsItems(after, n)
    requires ReadItems(ItemLines(v, 0, n) + after, 2 * n) == Parsed(RereadItems(v, 0), after)
    ensures ReadBlock(ItemLines(v, 0, n) + after, 2 * n, true) == Parsed(Reread(v), after)
  {
    var ls := ItemLines(v, 0, n) + after;
    FirstItem(v, 0, n);
    if ItemLines(v, 0, n) == [] {
      assert ls == after;
    } else {
      assert ls[0] == ItemLines(v, 0, n)[0];
    }
  }

  /** Entries on the lines below a key or below a `-`. */
  lemma {:induction false} EntryBlockRead(v: Value, n: nat, after: seq<Line>, belowKey: bool)
    requires Plain(v) && (after == [] || after[0].indent <= 2 * n) && (belowKey ==> EntriesOf(v) != [])
    requires ReadEntries(EntryLines(v, 0, n + 1) + after, 2 * (n + 1)) == Parsed(RereadEntries(v, 0), after)
    ensures ReadBlock(EntryLines(v, 0, n + 1) + after, 2 * n, belowKey) == Parsed(RereadBlock(v), after)
  {
    var ls := EntryLines(v, 0, n + 1) + after;
    if EntriesOf(v) == [] {
      assert ls == after;
    } else {
      var e := EntriesOf(v)[0];
      EntryLinesHead(v, 0, n + 1);
      ScalarRead(e.value);
      KeyRead(KeyText(e.key), ValueText(e.value));
    }
  }

  lemma {:induction false} ItemHead(item: Value, n: nat)
    ensures ItemBlock(item, n) == [] <==> item.Null? || item.Undefined?
    ensures RereadItem(item) == [] <==> item.Null? || item.Undefined?
    ensures ItemBlock(item, n) != [] ==> ItemBlock(item, n)[0].indent == 2 * n && IsItem(ItemBlock(item, n)[0].text)
  {
  }

  /** The first printed item starts with `-`; without one, every item is dropped. */
  lemma {:induction false} FirstItem(v: Value, j: nat, n: nat)
    requires v.List? && j <= |v.items|
    ensures ItemLines(v, j, n) == [] <==> RereadItems(v, j) == []
    ensures ItemLines(v, j, n) != [] ==> ItemLines(v, j, n)[0].indent == 2 * n && IsItem(ItemLines(v, j, n)[0].text)
    decreases |v.items| - j
  {
    if j < |v.items| {
      ItemHead(v.items[j], n);
      FirstItem(v, j + 1, n);
      assert ItemLines(v, j, n) == ItemBlock(v.items[j], n) + ItemLines(v, j + 1, n);
    }
  }

  /** One step of the reader over the items of a list. */
  lemma {:induction false} ReadItemsStep(text: string, rest: seq<Line>, n: nat, block: Parsed<Value>)
    requires IsItem(text)
    requires block == if |text| == 1 then ReadBlock(rest, 2 * n, false) else Parsed(ReadScalar(text[2..]), rest)
    ensures ReadItems([Line(2 * n, text)] + rest, 2 * n)
         == Parsed([block.value] + ReadItems(block.rest, 2 * n).value, ReadItems(block.rest, 2 * n).rest)
  {
    var ls := [Line(2 * n, text)] + rest;
    assert ls[1..] == rest;
  }

  lemma {:induction false} ItemTextRead(item: Value)
    requires Plain(item) && (item.Bool? || item.Num? || item.Str?)
    ensures var text := "-" + ValueText(item);
      IsItem(text) && |text| > 1 && ReadScalar(text[2..]) == Reread(item)
  {
    hide ReadScalar, Reread, Plain;
    ScalarRead(item);
    assert ("-" + ValueText(item))[2..] == ValueText(item)[1..];
  }

  lemma {:induction false} ItemScalarRead(text: string, scalar: Value, rest: seq<Line>, n: nat)
    requires IsItem(text) && |text| > 1 && ReadScalar(text[2..]) == scalar
    ensures ReadItems([Line(2 * n, text)] + rest, 2 * n)
         == Parsed([scalar] + ReadItems(rest, 2 * n).value, ReadItems(rest, 2 * n).rest)
  {
    ReadItemsStep(text, rest, n, Parsed(scalar, rest));
  }

  lemma {:induction false} ItemsEnd(v: Value, j: nat, n: nat, after: seq<Line>)
    requires v.List? && j == |v.items| && EndsItems(after, n)
    ensures ReadItems(ItemLines(v, j, n) + after, 2 * n) == Parsed([], after)
  {
    assert ItemLines(v, j, n) == [];
    assert [] + after == after;
  }

  lemma {:induction false} ItemsRead(v: Value, j: nat, n: nat, after: seq<Line>)
    requires Plain(v) && v.List? && j <= |v.items| && EndsItems(after, n)
    ensures ReadItems(ItemLines(v, j, n) + after, 2 * n) == Parsed(RereadItems(v, j), after)
    decreases v, 0, |v.items| - j
  {
    if j == |v.items| {
      ItemsEnd(v, j, n, after);
      assert RereadItems(v, j) == [];
    } else {
      var more := ItemLines(v, j + 1, n) + after;
      ItemsRead(v, j + 1, n, after);
      FirstItem(v, j + 1, n);
      assert EntriesOf(v)[j].value == v.items[j];
      ItemRead(v.items[j], n, more);
      ItemLinesSplit(v, j, n, after);
    }
  }

  lemma {:induction false} ItemRead(item: Value, n: nat, more: seq<Line>)
    requires Plain(item) && (more == [] || more[0].indent <= 2 * n)
    ensures ReadItems(ItemBlock(item, n) + more, 2 * n)
         == Parsed(RereadItem(item) + ReadItems(more, 2 * n).value, ReadItems(more, 2 * n).rest)
    decreases item, 2
  {
    hide ReadItems, Plain, Reread, RereadBlock, ValueText, ReadScalar;
    if item.Null? || item.Undefined? {
      assert ItemBlock(item, n) + more == more;
      assert RereadItem(item) + ReadItems(more, 2 * n).value == ReadItems(more, 2 * n).value;
    } else if item.Bool? || item.Num? || item.Str? {
      ItemLineRead(item, n, more);
    } else {
      EntriesRead(item, 0, n + 1, more);
      ItemBlockRead(item, n, more);
    }
  }

  lemma {:induction false} ItemLineRead(item: Value, n: nat, more: seq<Line>)
    requires Plain(item) && (item.Bool? || item.Num? || item.Str?)
    ensures ReadItems(ItemBlock(item, n) + more, 2 * n)
         == Parsed(RereadItem(item) + ReadItems(more, 2 * n).value, ReadItems(more, 2 * n).rest)
  {
    hide ReadItems, Plain, Reread, ValueText, ReadScalar, IsItem;
    ItemTextRead(item);
    ItemScalarRead("-" + ValueText(item), Reread(item), more, n);
  }

  lemma {:induction false} ItemBlockLines(item: Value, n: nat, more: seq<Line>)
    requires item.List? || item.Obj?
    ensures ItemBlock(item, n) + more == [Line(2 * n, "-")] + (EntryLines(item, 0, n + 1) + more)
  {
  }

  lemma {:induction false} ItemBlockRead(item: Value, n: nat, more: seq<Line>)
    requires Plain(item) && (item.List? || item.Obj?) && (more == [] || more[0].indent <= 2 * n)
    requires ReadEntries(EntryLines(item, 0, n + 1) + more, 2 * (n + 1)) == Parsed(RereadEntries(item, 0), more)
    ensures ReadItems(ItemBlock(item, n) + more, 2 * n)
         == Parsed([RereadBlock(item)] + ReadItems(more, 2 * n).value, ReadItems(more, 2 * n).rest)
  {
    EntryBlockRead(item, n, more, false);
    ItemBlockLines(item, n, more);
    ReadItemsStep("-", EntryLines(item, 0, n + 1) + more, n, Parsed(RereadBlock(item), more));
  }

  // ----- Main results -----

  lemma {:induction false} Deeper(v: Value, i: nat, n: nat)
    requires i <= |EntriesOf(v)|
    ensures forall l | l in EntryLines(v, i, n) :: l.indent >= 2 * n
    decreases v, 0, |EntriesOf(v)| - i
  {
    if i < |EntriesOf(v)| {
      DeeperBelow(EntriesOf(v)[i].value, n);
      Deeper(v, i + 1, n);
    }
  }

  /** The lines below an entry: items, which start with `-`, at its depth, and deeper ones. */
  lemma {:induction false} DeeperBelow(v: Value, n: nat)
    ensures forall l | l in Below(v, n) :: l.indent >= 2 * n && (l.indent == 2 * n ==> IsItem(l.text))
    decreases v, 1
  {
    if v.List? {
      DeeperItems(v, 0, n);
    } else if v.Obj? {
      Deeper(v, 0, n + 1);
    }
  }

  lemma {:induction false} DeeperItems(v: Value, j: nat, n: nat)
    requires v.List? && j <= |v.items|
    ensures forall l | l in ItemLines(v, j, n) :: l.indent >= 2 * n && (l.indent == 2 * n ==> IsItem(l.text))
    decreases v, 0, |v.items| - j
  {
    if j < |v.items| {
      var item := v.items[j];
      if item.List? || item.Obj? {
        Deeper(item, 0, n + 1);
      }
      DeeperItems(v, j + 1, n);
    }
  }

  lemma {:induction false} ItemIsNoMarker(text: string)
    ensures IsItem(text) ==> !IsMarker(text)
  {
    if |text| >= 3 {
      assert text[..3][1] == text[1];
    }
  }

  lemma {:induction false} NoMarkers(v: Value, i: nat)
    requires PlainDocument(v) && i <= |EntriesOf(v)|
    ensures forall l | l in EntryLines(v, i, 0) && l.indent == 0 :: !IsMarker(l.text)
    decreases |EntriesOf(v)| - i
  {
    hide IsMarker, ValueText, Below, PlainKey;
    forall text ensures IsItem(text) ==> !IsMarker(text) {
      ItemIsNoMarker(text);
    }
    if i < |EntriesOf(v)| {
      var e := EntriesOf(v)[i];
      MarkerKey(KeyText(e.key), ValueText(e.value));
      DeeperBelow(e.value, 0);
      NoMarkers(v, i + 1);
    }
  }

  lemma {:induction false} MarkerKey(key: string, rest: string)
    ensures IsMarker(key + ":" + rest) <==> IsMarker(key + ":")
  {
    var text, short := key + ":" + rest, key + ":";
    if |key| >= 3 {
      assert text[..3] == short[..3] && text[3] == short[3];
    } else {
      NoColonInMarker(text, |key|);
      NoColonInMarker(short, |key|);
    }
  }

  lemma {:induction false} NoColonInMarker(text: string, k: nat)
    requires k < |text| && k < 3 && text[k] == ':'
    ensures !IsMarker(text)
  {
    if |text| >= 3 {
      assert text[..3][k] == ':';
    }
  }

  /** What printing and reading back comes to, for every object or list with plain keys: the text is
      rejected exactly when something that is no plain scalar has been printed without quotes. */
  lemma {:induction false} ReadPrinted(v: Value)
    requires PlainDocument(v) && (v.Obj? || v.List?)
    ensures Read(Printed(v, 0)) == if PlainTexts(v) then Some(RereadBlock(v)) else None
  {
    hide PlainTexts, Plain, RereadBlock, Sound;
    SoundBlock(v);
    GoodEntries(v, 0, 0);
    SplitUnlines(EntryLines(v, 0, 0));
    NoMarkers(v, 0);
    ReadLines(v);
  }

  lemma {:induction false} PlainKeySound(key: Value)
    requires PlainKey(key)
    ensures Sound(PlainValue(KeyText(key)))
  {
  }

  lemma {:induction false} SoundReread(v: Value)
    requires Plain(v)
    ensures Sound(Reread(v)) <==> PlainTexts(v)
    decreases v, 2
  {
    hide PlainScalar, TextsFrom, AllSound;
    match v
    case List(items) =>
      SoundItems(v, 0);
      AllTexts(v);
      SoundList(v);
    case Obj(entries) =>
      SoundBlock(v);
      SoundObject(v);
    case _ =>
  }

  lemma {:induction false} SoundBlock(v: Value)
    requires Plain(v) && (v.Obj? || v.List?)
    ensures Sound(RereadBlock(v)) <==> PlainTexts(v)
    decreases v, 1
  {
    hide PlainScalar, PlainKey, Reread, RereadEntry, PlainTexts, TextsFrom;
    SoundEntries(v, 0);
    AllTexts(v);
  }

  /** The entries from the `i`-th on. */
  ghost predicate SoundFrom(es: seq<Entry>) {
    forall k | 0 <= k < |es| :: Sound(es[k].key) && Sound(es[k].value)
  }

  lemma {:induction false} SoundEntries(v: Value, i: nat)
    requires Plain(v) && i <= |EntriesOf(v)|
    ensures SoundFrom(RereadEntries(v, i)) <==> TextsFrom(v, i)
    decreases v, 0, |EntriesOf(v)| - i
  {
    hide Sound, SoundFrom, PlainTexts, PlainScalar, Reread, TextsFrom;
    if i == |EntriesOf(v)| {
      NothingSound(v);
    } else {
      var e := EntriesOf(v)[i];
      TextsNext(v, i);
      PlainKeySound(e.key);
      SoundReread(e.value);
      SoundEntries(v, i + 1);
      SoundCons(RereadEntry(e), RereadEntries(v, i + 1));
    }
  }

  ghost predicate TextsFrom(v: Value, i: nat) {
    forall k | i <= k < |EntriesOf(v)| :: PlainTexts(EntriesOf(v)[k].value)
  }

  lemma {:induction false} TextsNext(v: Value, i: nat)
    requires i < |EntriesOf(v)|
    ensures TextsFrom(v, i) <==> PlainTexts(EntriesOf(v)[i].value) && TextsFrom(v, i + 1)
  {
  }

  lemma {:induction false} AllTexts(v: Value)
    requires v.List? || v.Obj?
    ensures PlainTexts(v) <==> TextsFrom(v, 0)
  {
  }

  lemma {:induction false} NothingSound(v: Value)
    ensures SoundFrom([]) && AllSound([]) && TextsFrom(v, |EntriesOf(v)|)
  {
  }

  lemma {:induction false} AllSoundOne(v: Value)
    ensures AllSound([v]) <==> Sound(v)
  {
    assert [v][0] == v;
  }

  lemma {:induction false} SoundCons(e: Entry, es: seq<Entry>)
    ensures SoundFrom([e] + es) <==> Sound(e.key) && Sound(e.value) && SoundFrom(es)
  {
    assert ([e] + es)[0] == e;
    assert forall k | 0 <= k < |es| :: ([e] + es)[k + 1] == es[k];
  }

  lemma {:induction false} SoundList(v: Value)
    requires v.List?
    ensures Sound(Reread(v)) <==> AllSound(RereadItems(v, 0))
  {
  }

  lemma {:induction false} SoundObject(v: Value)
    requires v.Obj?
    ensures Sound(Reread(v)) <==> Sound(RereadBlock(v))
  {
  }

  ghost predicate AllSound(vs: seq<Value>) {
    forall k | 0 <= k < |vs| :: Sound(vs[k])
  }

  lemma {:induction false} SoundItems(v: Value, j: nat)
    requires Plain(v) && v.List? && j <= |v.items|
    ensures AllSound(RereadItems(v, j)) <==> TextsFrom(v, j)
    decreases v, 0, |v.items| - j
  {
    hide AllSound, TextsFrom, PlainTexts, RereadItem;
    if j == |v.items| {
      NothingSound(v);
    } else {
      assert EntriesOf(v)[j].value == v.items[j];
      TextsNext(v, j);
      SoundItem(v.items[j]);
      SoundItems(v, j + 1);
      AllSoundConcat(RereadItem(v.items[j]), RereadItems(v, j + 1));
    }
  }

  lemma {:induction false} AllSoundConcat(a: seq<Value>, b: seq<Value>)
    ensures AllSound(a + b) <==> AllSound(a) && AllSound(b)
  {
    assert forall k | 0 <= k < |a| :: (a + b)[k] == a[k];
    assert forall k | 0 <= k < |b| :: (a + b)[|a| + k] == b[k];
  }

  lemma {:induction false} SoundItem(item: Value)
    requires Plain(item)
    ensures AllSound(RereadItem(item)) <==> PlainTexts(item)
    decreases item, 3
  {
    if item.List? || item.Obj? {
      SoundBlock(item);
      AllSoundOne(RereadBlock(item));
    } else if !item.Null? && !item.Undefined? {
      SoundReread(item);
      AllSoundOne(Reread(item));
    }
  }

  lemma {:induction false} ReadLines(v: Value)
    requires Plain(v)
    ensures ReadBlock(EntryLines(v, 0, 0), -1, false) == Parsed(RereadBlock(v), [])
  {
    EntriesRead(v, 0, 0, []);
    assert EntryLines(v, 0, 0) + [] == EntryLines(v, 0, 0);
    if EntriesOf(v) != [] {
      var e := EntriesOf(v)[0];
      EntryLinesHead(v, 0, 0);
      ScalarRead(e.value);
      KeyRead(KeyText(e.key), ValueText(e.value));
    }
  }

  /** The trees that survive: no undefined values, no nulls, lists or empty objects among the items
      of a list, no unquoted string that is no plain scalar, no key and no unquoted string that the core
      schema takes for something else, and numbers that it takes for numbers. */
  predicate Faithful(v: Value)
    decreases v, 0
  {
    match v
    case Null => true
    case Undefined => false
    case Bool(_) => true
    case Num(text) => PlainScalar(text) && IsCoreNumber(text)
    case Str(s) => Carried(s)
    case List(items) => forall j | 0 <= j < |items| :: FaithfulItem(items[j]) && Faithful(items[j])
    case Obj(entries) => forall i | 0 <= i < |entries| :: FaithfulKey(entries[i].key) && Faithful(EntriesOf(v)[i].value)
  }

  /** The core schema takes the key for a string. */
  predicate FaithfulKey(key: Value) {
    PlainValue(KeyText(key)) == key
  }

  predicate FaithfulItem(v: Value) {
    !v.Null? && !v.Undefined? && !v.List? && (v.Obj? ==> v.entries != [])
  }

  lemma {:induction false} NotNumber(t: string)
    requires t == "" || (!IsDigit(t[0]) && t[0] != '+' && t[0] != '-' && t[0] != '.')
    ensures !IsCoreNumber(t)
  {
  }

  lemma {:induction false} NumberResolves(t: string)
    ensures Resolve(t) == Num(t) <==> IsCoreNumber(t)
  {
    if t in ["", "null", "Null", "NULL", "~", "true", "True", "TRUE", "false", "False", "FALSE"] {
      NotNumber(t);
    }
  }

  // ----- Which strings come back -----

  const CORE_WORDS: set<string> :=
    {"null", "Null", "NULL", "~", "true", "True", "TRUE", "false", "False", "FALSE"}

  /** No word or number of the core schema, and, if it goes without quotes, with printable characters only
      and no blank, or end, after a `-` at the front. */
  predicate Carried(s: string) {
    && s !in CORE_WORDS && !IsCoreNumber(s)
    && (Bare(s) ==>
          && (s[0] == '-' ==> |s| > 1 && s[1] != ' ' && s[1] != '\t')
          && forall c | c in s :: NbChar(c))
  }

  /** Main result: a string comes back from its printed form exactly when it is carried; in particular every
      string with one of the listed characters or a line break does. */
  lemma {:induction false} CarriedExactly(s: string)
    ensures ReadScalar(YamlString(s)) == Str(s) <==> Carried(s)
    ensures (exists c | c in s :: c in LISTED) ==> Carried(s)
  {
    hide NeedsQuotes, YamlString, ReadScalar, PlainScalar, Resolve, LISTED, WHITE;
    ReadString(s);
    WordsAreBare();
    if IsCoreNumber(s) {
      NumberIsBare(s);
    }
    if Bare(s) {
      BareIsPlain(s);
      ResolvesToString(s);
    }
  }

  lemma {:induction false} ResolvesToString(s: string)
    requires s != ""
    ensures Resolve(s) == Str(s) <==> s !in CORE_WORDS && !IsCoreNumber(s)
  {
  }

  /** A bare string is a plain scalar exactly under the second condition. */
  lemma {:induction false} BareIsPlain(s: string)
    requires Bare(s)
    ensures PlainScalar(s) <==>
      && (s[0] == '-' ==> |s| > 1 && s[1] != ' ' && s[1] != '\t')
      && forall c | c in s :: NbChar(c)
  {
    hide NbChar, LISTED, WHITE, C_INDICATORS;
    BareChar(s[0]);
    BareChar(s[|s| - 1]);
    forall i | 0 <= i < |s| ensures PlainChar(s, i) <==> NbChar(s[i]) {
      assert s[i] in s;
      BareChar(s[i]);
    }
    assert (forall c | c in s :: NbChar(c)) <==> (forall i | 0 <= i < |s| :: NbChar(s[i]));
  }

  lemma {:induction false} BareChar(c: char)
    ensures c !in LISTED ==> c != ':' && c != '#' && (c in C_INDICATORS <==> c == '-')
    ensures c !in WHITE ==> !IsBlank(c)
  {
    assert C_INDICATORS[..10] == ['-', '?', ':', ',', '[', ']', '{', '}', '#', '&'];
    assert C_INDICATORS[10..] == ['*', '!', '|', '>', '\'', '"', '%', '@', '`'];
    assert C_INDICATORS == C_INDICATORS[..10] + C_INDICATORS[10..];
  }

  lemma {:induction false} WordsAreBare()
    ensures forall s | s in CORE_WORDS :: Bare(s)
  {
    forall s | s in CORE_WORDS ensures Bare(s) {
      WordTextIsBare(s);
    }
  }

  /** The characters of numbers, and of words. */
  predicate WordChar(c: char) {
    IsDigit(c) || 'a' <= c <= 'z' || 'A' <= c <= 'Z' || c == '+' || c == '-' || c == '.' || c == '~'
  }

  predicate WordText(s: string) {
    forall c | c in s :: WordChar(c)
  }

  lemma {:induction false} WordTextIsBare(s: string)
    requires s != "" && WordText(s)
    ensures Bare(s)
  {
    hide LISTED, WHITE, WordChar;
    assert s[0] in s && s[|s| - 1] in s;
    forall c ensures WordChar(c) ==> c !in LISTED && c !in WHITE {
      WordCharBare(c);
    }
  }

  lemma {:induction false} WordCharBare(c: char)
    ensures WordChar(c) ==> c !in LISTED && c !in WHITE
  {
  }

  lemma {:induction false} WordTextConcat(a: string, b: string)
    requires WordText(a) && WordText(b)
    ensures WordText(a + b)
  {
  }

  lemma {:induction false} NumberIsBare(t: string)
    requires IsCoreNumber(t)
    ensures Bare(t)
  {
    hide Bare, IsDecimalNumber, WordText, DropSign;
    if IsDecimalNumber(t) {
      DecimalText(t);
    } else if DropSign(t) in [".inf", ".Inf", ".INF"] || t in [".nan", ".NaN", ".NAN"] {
      NamedText(t);
    } else {
      BasedText(t);
    }
    WordTextIsBare(t);
  }

  lemma {:induction false} BasedText(t: string)
    requires |t| > 2 && t[..2] in ["0o", "0x"]
    requires forall c | c in t[2..] :: IsDigit(c) || 'a' <= c <= 'f' || 'A' <= c <= 'F'
    ensures WordText(t)
  {
    assert WordText(t[..2]) && WordText(t[2..]);
    WordTextConcat(t[..2], t[2..]);
    assert t == t[..2] + t[2..];
  }

  lemma {:induction false} NamedText(t: string)
    requires DropSign(t) in [".inf", ".Inf", ".INF"] || t in [".nan", ".NaN", ".NAN"]
    ensures t != "" && WordText(t)
  {
    if t !in [".nan", ".NaN", ".NAN"] {
      SignText(t);
    }
  }

  /** A text is made of such characters if it is without its sign. */
  lemma {:induction false} SignText(t: string)
    requires WordText(DropSign(t))
    ensures WordText(t)
  {
    if DropSign(t) != t {
      assert t == [t[0]] + DropSign(t);
      WordTextConcat([t[0]], DropSign(t));
    }
  }

  lemma {:induction false} DigitText(t: string)
    ensures WordText(t[..DigitRun(t)])
  {
    if t != "" && IsDigit(t[0]) {
      DigitText(t[1..]);
      assert t[..DigitRun(t)] == [t[0]] + t[1..][..DigitRun(t[1..])];
      WordTextConcat([t[0]], t[1..][..DigitRun(t[1..])]);
    }
  }

  lemma {:induction false} ExponentText(t: string)
    requires IsExponent(t)
    ensures WordText(t)
  {
    if t != "" {
      hide DropSign;
      SignText(t[1..]);
      WordTextConcat([t[0]], t[1..]);
      assert t == [t[0]] + t[1..];
    }
  }

  lemma {:induction false} FractionText(v: string)
    requires v != "" && v[0] == '.' && IsExponent(v[1 + DigitRun(v[1..])..])
    ensures WordText(v)
  {
    hide IsExponent, WordText, DigitRun;
    var more := v[1..];
    var n := DigitRun(more);
    DigitText(more);
    ExponentText(more[n..]);
    WordTextConcat(more[..n], more[n..]);
    assert more == more[..n] + more[n..];
    PointText();
    WordTextConcat(".", more);
    assert v == "." + more;
  }

  lemma {:induction false} PointText()
    ensures WordText(".")
  {
  }

  lemma {:induction false} DecimalText(t: string)
    requires IsDecimalNumber(t)
    ensures t != "" && WordText(t)
  {
    hide IsExponent, WordText, DigitRun;
    var u := DropSign(t);
    var v := u[DigitRun(u)..];
    DigitText(u);
    if v != "" && v[0] == '.' {
      FractionText(v);
    } else {
      ExponentText(v);
    }
    WordTextConcat(u[..DigitRun(u)], v);
    assert u == u[..DigitRun(u)] + v;
    SignText(t);
    DecimalNotEmpty(t);
  }

  lemma {:induction false} DecimalNotEmpty(t: string)
    requires IsDecimalNumber(t)
    ensures t != ""
  {
  }

  lemma {:induction false} RereadSame(v: Value)
    ensures Reread(v) == v <==> Faithful(v)
    decreases v, 1
  {
    match v
    case Num(text) => NumberResolves(text);
    case Str(s) => ReadString(s); CarriedExactly(s);
    case List(items) =>
      if items != [] {
        ItemsSame(v, 0);
        assert v.items[0..] == v.items;
      }
    case Obj(entries) =>
      if entries != [] {
        EntriesSame(v, 0);
        assert v.entries[0..] == v.entries;
      }
    case _ =>
  }

  lemma {:induction false} EntriesSame(v: Value, i: nat)
    requires v.Obj? && i <= |v.entries|
    ensures RereadEntries(v, i) == v.entries[i..] <==>
      forall k | i <= k < |v.entries| :: FaithfulKey(v.entries[k].key) && Faithful(EntriesOf(v)[k].value)
    decreases v, 0, |v.entries| - i
  {
    hide FaithfulKey, Faithful, Reread;
    if i < |v.entries| {
      var e, more := EntriesOf(v)[i], RereadEntries(v, i + 1);
      RereadSame(e.value);
      EntriesSame(v, i + 1);
      EntrySame(e);
      DropNext(v.entries, i);
      assert RereadEntries(v, i)[0] == RereadEntry(e) && RereadEntries(v, i)[1..] == more;
    }
  }

  lemma {:induction false} EntrySame(e: Entry)
    ensures RereadEntry(e) == e <==> FaithfulKey(e.key) && Reread(e.value) == e.value
  {
  }

  lemma {:induction false} DropNext<T>(items: seq<T>, j: nat)
    requires j < |items|
    ensures items[j..] == [items[j]] + items[j + 1..]
  {
  }

  lemma {:induction false} ItemsSame(v: Value, j: nat)
    requires v.List? && j <= |v.items|
    ensures RereadItems(v, j) == v.items[j..] <==>
      forall k | j <= k < |v.items| :: FaithfulItem(v.items[k]) && Faithful(v.items[k])
    decreases v, 0, |v.items| - j
  {
    if j < |v.items| {
      var item, more := v.items[j], RereadItems(v, j + 1);
      ItemsSame(v, j + 1);
      ItemSame(item);
      DropNext(v.items, j);
      assert RereadItems(v, j) == RereadItem(item) + more;
      if RereadItem(item) == [] {
        assert |RereadItems(v, j)| < |v.items[j..]|;
      } else {
        assert RereadItems(v, j)[0] == RereadItem(item)[0] && RereadItems(v, j)[1..] == more;
      }
    }
  }

  lemma {:induction false} ItemSame(item: Value)
    ensures RereadItem(item) == [item] <==> FaithfulItem(item) && Faithful(item)
    decreases item, 2
  {
    RereadSame(item);
  }

  lemma {:induction false} FaithfulPlain(v: Value)
    requires Faithful(v)
    ensures PlainTexts(v)
    decreases v
  {
    hide Carried, PlainScalar, Bare, FaithfulItem, FaithfulKey, IsCoreNumber;
    if v.Str? {
      if Bare(v.s) { CarriedPlain(v.s); }
    }
    forall i | 0 <= i < |EntriesOf(v)| ensures PlainTexts(EntriesOf(v)[i].value) {
      if v.List? {
        assert EntriesOf(v)[i].value == v.items[i];
      }
      FaithfulPlain(EntriesOf(v)[i].value);
    }
  }

  lemma {:induction false} CarriedPlain(s: string)
    requires Carried(s) && Bare(s)
    ensures PlainScalar(s)
  {
    hide Bare, PlainScalar, IsCoreNumber;
    BareIsPlain(s);
  }

  /** Main result: an object with plain keys reads back as itself exactly when it has entries and
      holds only what the format can carry. */
  lemma {:induction false} RoundTrip(v: Value)
    requires v.Obj? && PlainDocument(v)
    ensures Read(Printed(v, 0)) == Some(v) <==> v.entries != [] && Faithful(v)
  {
    ReadPrinted(v);
    RereadSame(v);
    if Faithful(v) {
      FaithfulPlain(v);
    }
  }

  /** So two such objects with the same text are the same. */
  lemma {:induction false} PrintedInjective(v: Value, w: Value)
    requires v.Obj? && PlainDocument(v) && Faithful(v) && v.entries != []
    requires w.Obj? && PlainDocument(w) && Faithful(w) && w.entries != []
    requires Printed(v, 0) == Printed(w, 0)
    ensures v == w
  {
    RoundTrip(v);
    RoundTrip(w);
  }

  /** A key may have indicators inside, as long as no blank follows a `:` or precedes a `#`. */
  lemma {:induction false} PlainKeys(c: char)
    requires c in C_INDICATORS
    ensures PlainKey(Str(['a', c, 'b']))
    ensures c in ":#" ==> !PlainKey(Str(['a', ' ', c, ' ', 'b']))
    ensures c !in "?:-" ==> !PlainKey(Str([c, 'b']))
  {
    hide C_INDICATORS;
    IndicatorChar(c);
    var s := ['a', c, 'b'];
    assert PlainChar(s, 0) && PlainChar(s, 1) && PlainChar(s, 2);
    NotIndicator('a');
    if c in ":#" {
      assert !PlainChar(['a', ' ', c, ' ', 'b'], 2);
    }
    assert [c, 'b'][0] == c;
  }

  lemma {:induction false} IndicatorChar(c: char)
    requires c in C_INDICATORS
    ensures '!' <= c <= '~'
  {
  }

  /** The printer does not quote keys, so `{ "true": ... }` and `{ "12": ... }` come back with a boolean
      and a number as keys. */
  lemma {:induction false} KeysLost(value: Value)
    requires Plain(value) && PlainTexts(value)
    ensures Read(Printed(Obj([Entry(Str("true"), value)]), 0)) == Some(Obj([Entry(Bool(true), Reread(value))]))
    ensures Read(Printed(Obj([Entry(Str("12"), value)]), 0)) == Some(Obj([Entry(Num("12"), Reread(value))]))
  {
    Twelve();
    OneEntry("true", value);
    OneEntry("12", value);
  }

  /** A string such as `- a`, or one with a carriage return inside, is not quoted either, although it is
      no plain scalar: no tree that has one reads back. */
  lemma {:induction false} TextsLost()
    ensures YamlString("- a") == "- a" && Read(Printed(Obj([Entry(Str("k"), Str("- a"))]), 0)) == None
    ensures YamlString("a\rb") == "a\rb" && Read(Printed(Obj([Entry(Str("k"), Str("a\rb"))]), 0)) == None
  {
    hide Bare, PlainScalar, Read, Printed;
    NothingListed("- a");
    NothingListed("a\rb");
    assert "a\rb"[1] in "a\rb";
    TextLost("- a");
    TextLost("a\rb");
  }

  lemma {:induction false} TextLost(s: string)
    requires Bare(s)
    requires (s[0] == '-' && |s| > 1 && s[1] == ' ') || exists c | c in s :: !NbChar(c)
    ensures YamlString(s) == s && Read(Printed(Obj([Entry(Str("k"), Str(s))]), 0)) == None
  {
    hide Bare, PlainScalar, YamlString, Read, Printed, NbChar;
    BareExactly(s);
    BareIsPlain(s);
    OneEntry("k", Str(s));
  }

  lemma {:induction false} OneEntryLines(e: Entry, n: nat)
    ensures EntryLines(Obj([e]), 0, n) == [Line(2 * n, EntryText(e))] + Below(e.value, n)
  {
    assert EntryLines(Obj([e]), 1, n) == [];
  }

  lemma {:induction false} ExampleTexts()
    ensures EntryText(Entry(Str("g"), Num("2"))) == "g: 2" && EntryText(Entry(Str("0"), Bool(false))) == "0: false"
    ensures "-" + ValueText(Num("2")) == "- 2" && "b" + ":" + "" == "b:"
    ensures EntriesOf(List([Bool(false)])) == [Entry(Str("0"), Bool(false))]
  {
    assert Decimal(0) == "0";
  }

  /** What is printed below a key and for an item, line by line: two spaces for each level, a null item
      nowhere, and a list inside a list by its indices. */
  lemma {:induction false} ExampleLines(n: nat)
    ensures EntryBlock(Entry(Str("b"), Obj([Entry(Str("g"), Num("2"))])), n)
         == [Line(2 * n, "b:"), Line(2 * n + 2, "g: 2")]
    ensures EntryBlock(Entry(Str("b"), List([Num("2")])), n) == [Line(2 * n, "b:"), Line(2 * n, "- 2")]
    ensures ItemBlock(Num("2"), n) == [Line(2 * n, "- 2")] && ItemBlock(Null, n) == ItemBlock(Undefined, n) == []
    ensures ItemBlock(Obj([Entry(Str("g"), Num("2"))]), n) == [Line(2 * n, "-"), Line(2 * n + 2, "g: 2")]
    ensures ItemBlock(List([Bool(false)]), n) == [Line(2 * n, "-"), Line(2 * n + 2, "0: false")]
  {
    hide EntryText, Decimal, YamlString;
    ExampleTexts();
    OneEntryLines(Entry(Str("g"), Num("2")), n + 1);
    OneItemLines(Num("2"), n);
    IndexedLines(Bool(false), n + 1);
    PlainBlockText("b", Obj([Entry(Str("g"), Num("2"))]));
    PlainBlockText("b", List([Num("2")]));
  }

  lemma {:induction false} PlainBlockText(key: string, v: Value)
    requires (v.Obj? && v.entries != []) || (v.List? && v.items != [])
    ensures EntryText(Entry(Str(key), v)) == key + ":" + ""
  {
  }

  lemma {:induction false} OneItemLines(v: Value, n: nat)
    ensures ItemLines(List([v]), 0, n) == ItemBlock(v, n)
  {
    assert ItemLines(List([v]), 1, n) == [];
  }

  lemma {:induction false} IndexedLines(v: Value, n: nat)
    requires v.Bool?
    ensures EntryLines(List([v]), 0, n) == [Line(2 * n, EntryText(Entry(Str("0"), v)))]
  {
    hide EntryText;
    var list, e := List([v]), Entry(Str("0"), v);
    assert Decimal(0) == "0";
    assert EntriesOf(list)[0] == e && |EntriesOf(list)| == 1;
    assert EntryLines(list, 1, n) == [];
    assert EntryLines(list, 0, n) == EntryBlock(e, n) + [];
    assert EntryBlock(e, n) == [Line(2 * n, EntryText(e))] + [];
  }

  /** The values that fit on the line of their key. */
  lemma {:induction false} ExampleValues()
    ensures EntryText(Entry(Str("a"), Null)) == "a: null" && EntryText(Entry(Str("a"), Undefined)) == "a: null"
    ensures EntryText(Entry(Str("a"), Bool(true))) == "a: true" && EntryText(Entry(Str("a"), Num("1"))) == "a: 1"
    ensures EntryText(Entry(Str("a"), List([]))) == "a: []" && EntryText(Entry(Str("a"), Obj([]))) == "a: {}"
  {
  }

  /** The escapes are those of `JSON.stringify`. */
  lemma {:induction false} EscapesOf(c: char)
    ensures EscapeChar(c) ==
      match c
      case '"' => "\\\""
      case '\\' => "\\\\"
      case '\U{8}' => "\\b"
      case '\t' => "\\t"
      case '\n' => "\\n"
      case '\U{c}' => "\\f"
      case '\r' => "\\r"
      case _ =>
        if c >= ' ' then [c]
        else "\\u00" + [if c < '\U{10}' then '0' else '1', "0123456789abcdef"[c as int % 16]]
  {
  }

  lemma {:induction false} NothingListed(s: string)
    requires s != "" && s[0] !in WHITE && s[|s| - 1] !in WHITE
    requires forall c | c in s :: IsAlphanumeric(c) || c == '-' || c == ' ' || c == '\r'
    ensures Bare(s)
  {
  }

  lemma {:induction false} Twelve()
    ensures Resolve("12") == Num("12")
  {
    assert DigitRun("2") == 1 by { assert "2"[1..] == ""; }
    assert DigitRun("12") == 2 by { assert "12"[1..] == "2"; }
    assert "12"[2..] == "";
  }

  lemma {:induction false} OneEntry(key: string, value: Value)
    requires Plain(value) && key != "" && |key| <= 1024 && forall c | c in key :: IsAlphanumeric(c)
    ensures Read(Printed(Obj([Entry(Str(key), value)]), 0))
         == if PlainTexts(value) then Some(Obj([Entry(Resolve(key), Reread(value))])) else None
  {
    var v := Obj([Entry(Str(key), value)]);
    WordIsPlain(key);
    assert PlainDocument(v);
    ReadPrinted(v);
    assert RereadEntries(v, 1) == [];
    assert RereadEntries(v, 0) == [RereadEntry(v.entries[0])];
  }

  predicate IsAlphanumeric(c: char) { 'a' <= c <= 'z' || '0' <= c <= '9' }

  lemma {:induction false} WordIsPlain(s: string)
    requires s != "" && |s| <= 1024 && forall c | c in s :: IsAlphanumeric(c)
    ensures PlainKey(Str(s)) && !IsMarker(s + ":")
  {
    forall i | 0 <= i < |s| ensures NsChar(s[i]) && PlainChar(s, i) {
      assert s[i] in s;
    }
    NotIndicator(s[0]);
    WordNoMarker(s);
  }

  lemma {:induction false} NotIndicator(c: char)
    requires IsAlphanumeric(c)
    ensures c !in C_INDICATORS
  {
    forall j | 0 <= j < |C_INDICATORS| ensures !IsAlphanumeric(C_INDICATORS[j]) {
    }
  }

  lemma {:induction false} WordNoMarker(s: string)
    requires s != "" && forall c | c in s :: IsAlphanumeric(c)
    ensures !IsMarker(s + ":")
  {
    if |s| >= 3 {
      assert (s + ":")[..3][0] == s[0] && s[0] in s;
    } else {
      NoColonInMarker(s + ":", |s|);
    }
  }
}
