/** The newest modification time below a directory, src/lib/stale-dist-check.ts: a walk with an
    explicit stack over a file tree. */
module StaleDist {
  import opened Wrappers

  /** A directory entry: a subdirectory, a file with its modification time (`None` if it cannot be
      read), or something else. */
  datatype Entry =
    | Directory(name: string, content: Content)
    | File(name: string, mtime: Option<real>)
    | Other(name: string)

  /** What a directory holds, if it can be read. */
  datatype Content = Unreadable | Readable(entries: seq<Entry>)

  predicate Skipped(name: string) {
    name == "node_modules" || (name != "" && name[0] == '.')
  }

  function Max(a: real, b: real): real {
    if b > a then b else a
  }

  // ----- The recursive meaning -----

  /** The files that count: accepted and readable, not below a skipped directory. */
  ghost predicate Counts(c: Content, accept: string -> bool, mtime: real)
    decreases c
  {
    c.Readable? && exists e | e in c.entries :: EntryCounts(e, accept, mtime)
  }

  ghost predicate EntryCounts(e: Entry, accept: string -> bool, mtime: real)
    decreases e
  {
    match e
    case Directory(name, content) => name != "node_modules" && !("." <= name) && Counts(content, accept, mtime)
    case File(name, time) => accept(name) && time == Some(mtime)
    case Other(_) => false
  }

  /** `newest` is the greatest of 0 and the times of the files that count. */
  ghost predicate IsNewest(c: Content, accept: string -> bool, newest: real) {
    && newest >= 0.0
    && (newest == 0.0 || Counts(c, accept, newest))
    && forall t | Counts(c, accept, t) :: t <= newest
  }

  // ----- The loop -----

  /** The directories still on the stack, and the entries of the current one not yet looked at. */
  ghost predicate Pending(stack: seq<Content>, entries: seq<Entry>, accept: string -> bool, mtime: real) {
    (exists c | c in stack :: Counts(c, accept, mtime)) || (exists e | e in entries :: EntryCounts(e, accept, mtime))
  }

  /** What the walk keeps: the files that count are those already seen, which `newest` bounds, and
      those still pending. */
  ghost predicate Walked(
      root: Content, stack: seq<Content>, entries: seq<Entry>, accept: string -> bool, newest: real)
  {
    && newest >= 0.0
    && (newest == 0.0 || Counts(root, accept, newest))
    && (forall t | Counts(root, accept, t) :: t <= newest || Pending(stack, entries, accept, t))
    && (forall t | Pending(stack, entries, accept, t) :: Counts(root, accept, t))
  }

  ghost function Size(c: Content): nat
    decreases c
  {
    if c.Unreadable? then 1 else 1 + EntriesSize(c.entries)
  }

  ghost function EntriesSize(es: seq<Entry>): nat
    decreases es
  {
    if es == [] then 0
    else (if es[0].Directory? then 1 + Size(es[0].content) else 1) + EntriesSize(es[1..])
  }

  ghost function StackSize(stack: seq<Content>, n: nat): nat
    requires n <= |stack|
  {
    if n == 0 then 0 else StackSize(stack, n - 1) + Size(stack[n - 1])
  }

  lemma {:induction false} StackSizeSame(stack: seq<Content>, other: seq<Content>, n: nat)
    requires n <= |stack| && n <= |other| && stack[..n] == other[..n]
    ensures StackSize(stack, n) == StackSize(other, n)
  {
    if n > 0 {
      assert stack[..n][n - 1] == other[..n][n - 1];
      assert stack[..n - 1] == stack[..n][..n - 1] == other[..n - 1];
      StackSizeSame(stack, other, n - 1);
    }
  }

  lemma {:induction false} Popped(root: Content, stack: seq<Content>, accept: string -> bool, newest: real)
    requires stack != [] && Walked(root, stack, [], accept, newest)
    ensures
      var dir := stack[|stack| - 1];
      Walked(root, stack[..|stack| - 1], if dir.Readable? then dir.entries else [], accept, newest)
  {
    var last := |stack| - 1;
    var entries := if stack[last].Readable? then stack[last].entries else [];
    assert stack == stack[..last] + [stack[last]];
    forall t ensures Pending(stack, [], accept, t) <==> Pending(stack[..last], entries, accept, t) {
      if c :| c in stack && Counts(c, accept, t) {
        if c !in stack[..last] { assert c == stack[last]; }
      }
      if e :| e in entries && EntryCounts(e, accept, t) {
        assert stack[last] in stack && Counts(stack[last], accept, t);
      }
    }
  }

  lemma {:induction false} Looked(
      root: Content, stack: seq<Content>, entries: seq<Entry>, accept: string -> bool, newest: real)
    requires entries != [] && Walked(root, stack, entries, accept, newest)
    ensures
      var e := entries[0];
      match e
      case Directory(name, content) =>
        Walked(root, if Skipped(name) then stack else stack + [content], entries[1..], accept, newest)
      case File(name, time) =>
        Walked(root, stack, entries[1..], accept,
               if accept(name) && time.Some? then Max(newest, time.value) else newest)
      case Other(_) => Walked(root, stack, entries[1..], accept, newest)
  {
    var e := entries[0];
    assert entries == [e] + entries[1..];
    var stack' := if e.Directory? && !Skipped(e.name) then stack + [e.content] else stack;
    forall t
      ensures Pending(stack, entries, accept, t) <==>
        Pending(stack', entries[1..], accept, t) || (e.File? && EntryCounts(e, accept, t))
    {
      if c :| c in stack && Counts(c, accept, t) { assert c in stack'; }
      if c :| c in stack' && Counts(c, accept, t) {
        if c !in stack { assert e.Directory? && c == e.content && EntryCounts(e, accept, t); }
      }
      if EntryCounts(e, accept, t) && e.Directory? { assert e.content in stack'; }
    }
    if e.File? && accept(e.name) && e.mtime.Some? {
      assert EntryCounts(e, accept, e.mtime.value) && Pending(stack, entries, accept, e.mtime.value);
    }
  }

  lemma {:induction false} WalkStarts(root: Content, accept: string -> bool)
    ensures Walked(root, [root], [], accept, 0.0)
  {
    forall t ensures Pending([root], [], accept, t) <==> Counts(root, accept, t) {
      assert root in [root];
    }
  }

  lemma {:induction false} WalkEnds(root: Content, accept: string -> bool, newest: real)
    requires Walked(root, [], [], accept, newest)
    ensures IsNewest(root, accept, newest)
  {
  }

  /** `maxMtime` for a root with the given content. */
  method MaxMtime(root: Content, accept: string -> bool) returns (newest: real)
    ensures IsNewest(root, accept, newest)
  {
    hide Walked, IsNewest;
    newest := 0.0;
    var stack := [root];
    WalkStarts(root, accept);
    while |stack| > 0
      invariant Walked(root, stack, [], accept, newest)
      decreases StackSize(stack, |stack|)
    {
      var last := |stack| - 1;
      var dir := stack[last];
      ghost var before := stack;
      Popped(root, stack, accept, newest);
      stack := stack[..last];
      StackSizeSame(stack, before, last);
      if dir.Unreadable? {
        continue;
      }
      var i := 0;
      assert dir.entries[0..] == dir.entries;
      while i < |dir.entries|
        invariant i <= |dir.entries|
        invariant Walked(root, stack, dir.entries[i..], accept, newest)
        invariant StackSize(stack, |stack|) + EntriesSize(dir.entries[i..]) < StackSize(before, |before|)
      {
        var entry := dir.entries[i];
        assert dir.entries[i..][0] == entry && dir.entries[i..][1..] == dir.entries[i + 1..];
        Looked(root, stack, dir.entries[i..], accept, newest);
        i := i + 1;
        match entry {
          case Directory(name, content) =>
            if Skipped(name) {
              continue;
            }
            StackSizeSame(stack, stack + [content], |stack|);
            stack := stack + [content];
          case File(name, mtime) =>
            if accept(name) && mtime.Some? {
              if mtime.value > newest {
                newest := mtime.value;
              }
            }
          case Other(_) =>
        }
      }
      assert dir.entries[i..] == [];
    }
    WalkEnds(root, accept, newest);
  }

  /** The result is determined by the files that count, so the order of listing does not matter. */
  lemma {:induction false} NewestUnique(c: Content, d: Content, accept: string -> bool, a: real, b: real)
    requires IsNewest(c, accept, a) && IsNewest(d, accept, b)
    requires forall t :: Counts(c, accept, t) <==> Counts(d, accept, t)
    ensures a == b
  {
  }

  lemma {:induction false} ListingOrderIrrelevant(
      es: seq<Entry>, fs: seq<Entry>, accept: string -> bool, a: real, b: real)
    requires forall e :: e in es <==> e in fs
    requires IsNewest(Readable(es), accept, a) && IsNewest(Readable(fs), accept, b)
    ensures a == b
  {
    NewestUnique(Readable(es), Readable(fs), accept, a, b);
  }

  const GRACE_MS := 2000.0

  predicate EndsWith(name: string, suffix: string) {
    |suffix| <= |name| && name[|name| - |suffix|..] == suffix
  }

  predicate IsSource(name: string) {
    EndsWith(name, ".ts") && !EndsWith(name, ".test.ts")
  }

  predicate IsOutput(name: string) {
    EndsWith(name, ".js")
  }

  /** Sources are named `*.ts` but not `*.test.ts`, and the compiled files `*.js`. */
  lemma {:induction false} NamesExact(name: string)
    ensures IsSource(name) <==> (exists stem :: name == stem + ".ts") && forall stem :: name != stem + ".test.ts"
    ensures IsOutput(name) <==> exists stem :: name == stem + ".js"
  {
    EndsWithExact(name, ".ts");
    EndsWithExact(name, ".test.ts");
    EndsWithExact(name, ".js");
  }

  lemma {:induction false} EndsWithExact(name: string, suffix: string)
    ensures EndsWith(name, suffix) <==> exists stem :: name == stem + suffix
  {
    if EndsWith(name, suffix) {
      assert name == name[..|name| - |suffix|] + suffix;
    }
  }

  /** `checkStaleDist`; a missing directory is `None`. */
  method CheckStaleDist(src: Option<Content>, dist: Option<Content>) returns (stale: Option<(real, real)>)
    ensures stale.Some? <==>
      && src.Some? && dist.Some?
      && exists s, d :: IsNewest(src.value, IsSource, s) && IsNewest(dist.value, IsOutput, d)
           && s != 0.0 && d != 0.0 && s > d + 2000.0
    ensures stale.Some? ==>
      IsNewest(src.value, IsSource, stale.value.0) && IsNewest(dist.value, IsOutput, stale.value.1)
  {
    if src.None? || dist.None? {
      return None;
    }
    var srcMtime := MaxMtime(src.value, IsSource);
    var distMtime := MaxMtime(dist.value, IsOutput);
    if srcMtime == 0.0 || distMtime == 0.0 {
      return None;
    }
    if srcMtime <= distMtime + GRACE_MS {
      return None;
    }
    return Some((srcMtime, distMtime));
  }
}
