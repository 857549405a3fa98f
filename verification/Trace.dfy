/** The span collector of src/lib/trace.ts.  A span is named by its position in the span list; the
    clock is an arbitrary sequence of readings, one for each call of `nowNs`. */
module Trace {
  import opened Wrappers

  datatype Status = UNSET | OK | ERROR

  datatype Span = Span(name: string, parent: Option<nat>, start: int, end: Option<int>, status: Status) {
    function Duration(): int
      requires end.Some?
    {
      end.value - start
    }
  }

  type Clock = nat -> int

  const ROOT := "nemoclaw.onboard"

  /** The collector: all spans, the open ones, the number of clock readings so far, and the slowest
      spans listed in the report once it has been written. */
  datatype Trace = Trace(spans: seq<Span>, stack: seq<nat>, ticks: nat, report: Option<seq<nat>>)

  const EMPTY := Trace([], [], 0, None)

  function Active(t: Trace): Option<nat> {
    if t.stack == [] then None else Some(t.stack[|t.stack| - 1])
  }

  function StartSpan(t: Trace, name: string, clock: Clock): Trace {
    t.(spans := t.spans + [Span(name, Active(t), clock(t.ticks), None, UNSET)],
       stack := t.stack + [|t.spans|], ticks := t.ticks + 1)
  }

  /** The position of the last `x`, or the length. */
  function LastIndexOf(s: seq<nat>, x: nat): (k: nat)
    ensures k <= |s|
    ensures k < |s| ==> s[k] == x && x !in s[k + 1..]
    ensures k == |s| ==> x !in s
  {
    if s == [] then 0
    else if s[|s| - 1] == x then |s| - 1
    else
      var k := LastIndexOf(s[..|s| - 1], x);
      if k < |s| - 1 then k else |s|
  }

  function EndSpan(t: Trace, id: nat, status: Status, clock: Clock): Trace
    requires id < |t.spans|
  {
    if t.spans[id].end.Some? then t
    else
      var k := LastIndexOf(t.stack, id);
      t.(spans := t.spans[id := t.spans[id].(end := Some(clock(t.ticks)), status := status)],
         stack := if k < |t.stack| then t.stack[..k] + t.stack[k + 1..] else t.stack, ticks := t.ticks + 1)
  }

  ghost predicate StackInside(t: Trace) {
    forall i | 0 <= i < |t.stack| :: t.stack[i] < |t.spans|
  }

  /** The loop of flush: pop the last open span and end it. */
  function EndOpen(t: Trace, status: Status, clock: Clock): Trace
    requires StackInside(t)
    decreases |t.stack|
  {
    if t.stack == [] then t
    else
      var id := t.stack[|t.stack| - 1];
      var popped := t.(stack := t.stack[..|t.stack| - 1]);
      if t.spans[id].end.Some? then EndOpen(popped, status, clock)
      else
        EndOpen(popped.(spans := t.spans[id := t.spans[id].(end := Some(clock(t.ticks)), status := status)],
                        ticks := t.ticks + 1), status, clock)
  }

  // ----- The report -----

  /** The ended spans other than the root among the first `n`, in the order of the list. */
  function Candidates(spans: seq<Span>, n: nat): (ids: seq<nat>)
    requires n <= |spans|
    ensures AllEnded(spans, ids)
    ensures forall id: nat :: id in ids <==> id < n && spans[id].name != ROOT && spans[id].end.Some?
    ensures forall i, j | 0 <= i < j < |ids| :: ids[i] < ids[j]
  {
    if n == 0 then []
    else
      Candidates(spans, n - 1) + (if spans[n - 1].name != ROOT && spans[n - 1].end.Some? then [n - 1] else [])
  }

  ghost predicate AllEnded(spans: seq<Span>, ids: seq<nat>) {
    forall i | 0 <= i < |ids| :: ids[i] < |spans| && spans[ids[i]].end.Some?
  }

  /** Longest first; of two equally long spans the earlier one first. */
  predicate Before(spans: seq<Span>, a: nat, b: nat)
    requires a < |spans| && spans[a].end.Some? && b < |spans| && spans[b].end.Some?
  {
    spans[a].Duration() > spans[b].Duration() || (spans[a].Duration() == spans[b].Duration() && a < b)
  }

  ghost predicate Ordered(spans: seq<Span>, ids: seq<nat>)
    requires AllEnded(spans, ids)
  {
    forall i, j | 0 <= i < j < |ids| :: Before(spans, ids[i], ids[j])
  }

  /** The effect of the stable sort by falling duration. */
  function Insert(spans: seq<Span>, id: nat, sorted: seq<nat>): (r: seq<nat>)
    requires AllEnded(spans, sorted) && id < |spans| && spans[id].end.Some?
    ensures AllEnded(spans, r)
    ensures forall x :: x in r <==> x == id || x in sorted
    ensures |r| == |sorted| + 1
  {
    if sorted == [] || Before(spans, id, sorted[0]) then [id] + sorted
    else [sorted[0]] + Insert(spans, id, sorted[1..])
  }

  function Sort(spans: seq<Span>, ids: seq<nat>): (r: seq<nat>)
    requires AllEnded(spans, ids)
    ensures AllEnded(spans, r)
    ensures forall x :: x in r <==> x in ids
    ensures |r| == |ids|
  {
    if ids == [] then [] else Insert(spans, ids[0], Sort(spans, ids[1..]))
  }

  function Slowest(spans: seq<Span>): (r: seq<nat>)
    ensures |r| <= 10 && AllEnded(spans, r)
  {
    var sorted := Sort(spans, Candidates(spans, |spans|));
    if |sorted| <= 10 then sorted else sorted[..10]
  }

  function Flush(t: Trace, status: Status, clock: Clock): Trace
    requires StackInside(t)
  {
    if t.report.Some? then t
    else
      var ended := EndOpen(t, status, clock);
      ended.(ticks := ended.ticks + 1, report := Some(Slowest(ended.spans)))
  }

  lemma {:induction false} InsertOrdered(spans: seq<Span>, id: nat, sorted: seq<nat>)
    requires AllEnded(spans, sorted) && id < |spans| && spans[id].end.Some? && Ordered(spans, sorted) && id !in sorted
    ensures Ordered(spans, Insert(spans, id, sorted))
  {
    if sorted != [] && !Before(spans, id, sorted[0]) {
      var rest := Insert(spans, id, sorted[1..]);
      InsertOrdered(spans, id, sorted[1..]);
      forall j | 0 <= j < |rest| ensures Before(spans, sorted[0], rest[j]) {
        assert rest[j] in rest;
        if rest[j] != id {
          var k :| 0 <= k < |sorted[1..]| && sorted[1..][k] == rest[j];
          assert Before(spans, sorted[0], sorted[k + 1]);
        } else {
          assert sorted[0] != id;
        }
      }
    }
  }

  lemma {:induction false} SortOrdered(spans: seq<Span>, ids: seq<nat>)
    requires AllEnded(spans, ids) && forall i, j | 0 <= i < j < |ids| :: ids[i] != ids[j]
    ensures Ordered(spans, Sort(spans, ids))
  {
    if ids != [] {
      SortOrdered(spans, ids[1..]);
      InsertOrdered(spans, ids[0], Sort(spans, ids[1..]));
    }
  }

  /** The span `i` took longer than `j`, or as long and is the earlier one. */
  ghost predicate ComesBefore(spans: seq<Span>, i: nat, j: nat) {
    && i < |spans| && spans[i].end.Some? && j < |spans| && spans[j].end.Some?
    && (|| spans[i].end.value - spans[i].start > spans[j].end.value - spans[j].start
        || (spans[i].end.value - spans[i].start == spans[j].end.value - spans[j].start && i < j))
  }

  ghost predicate Listable(spans: seq<Span>, id: nat) {
    id < |spans| && spans[id].name != "nemoclaw.onboard" && spans[id].end.Some?
  }

  lemma {:induction false} SlowestOrdered(spans: seq<Span>)
    ensures
      var r := Slowest(spans);
      && Ordered(spans, r) && (forall id | id in r :: id in Candidates(spans, |spans|))
      && forall id | id in Candidates(spans, |spans|) && id !in r ::
           |r| == 10 && forall k | k in r :: Before(spans, k, id)
  {
    var ids := Candidates(spans, |spans|);
    var sorted := Sort(spans, ids);
    var r := Slowest(spans);
    SortOrdered(spans, ids);
    hide Sort, Candidates;
    forall id | id in r ensures id in sorted { }
    forall id | id in ids && id !in r ensures |r| == 10 && forall k | k in r :: Before(spans, k, id) {
      if |sorted| > 10 {
        LeftOut(spans, sorted, id);
      }
    }
  }

  lemma {:induction false} BeforeIs(spans: seq<Span>, a: nat, b: nat)
    requires a < |spans| && spans[a].end.Some? && b < |spans| && spans[b].end.Some?
    ensures Before(spans, a, b) <==> ComesBefore(spans, a, b)
  {
  }

  lemma {:induction false} ListableIs(spans: seq<Span>, id: nat)
    ensures Listable(spans, id) <==> id in Candidates(spans, |spans|)
  {
    hide Candidates;
  }

  /** Main result: the report lists ended spans other than the root, longest first, the earlier of
      two equals first, and at most ten; it leaves out only spans that come after all those listed,
      and only when it lists ten. */
  lemma {:induction false} SlowestAreLongest(spans: seq<Span>)
    ensures
      var r := Slowest(spans);
      && |r| <= 10 && (forall id | id in r :: Listable(spans, id))
      && (forall i, j | 0 <= i < j < |r| :: ComesBefore(spans, r[i], r[j]))
      && forall id | Listable(spans, id) && id !in r :: |r| == 10 && forall k | k in r :: ComesBefore(spans, k, id)
  {
    hide Slowest, Candidates, Before, ComesBefore, Listable;
    var r := Slowest(spans);
    SlowestOrdered(spans);
    forall id | id in r ensures Listable(spans, id) {
      ListableIs(spans, id);
    }
    forall i, j | 0 <= i < j < |r| ensures ComesBefore(spans, r[i], r[j]) {
      BeforeIs(spans, r[i], r[j]);
    }
    forall id | Listable(spans, id) && id !in r ensures |r| == 10 && forall k | k in r :: ComesBefore(spans, k, id) {
      ListableIs(spans, id);
      forall k | k in r ensures ComesBefore(spans, k, id) {
        BeforeIs(spans, k, id);
      }
    }
  }

  /** A span that is not among the first ten comes after all of them. */
  lemma {:induction false} LeftOut(spans: seq<Span>, sorted: seq<nat>, id: nat)
    requires AllEnded(spans, sorted) && Ordered(spans, sorted) && |sorted| > 10
    requires id in sorted && id !in sorted[..10]
    ensures forall k | k in sorted[..10] :: Before(spans, k, id)
  {
    assert sorted == sorted[..10] + sorted[10..];
    var j :| 0 <= j < |sorted[10..]| && sorted[10..][j] == id;
    forall k | k in sorted[..10] ensures Before(spans, k, id) {
      var i :| 0 <= i < 10 && sorted[..10][i] == k;
      assert Before(spans, sorted[i], sorted[10 + j]);
    }
  }

  // ----- Invariants over any sequence of calls -----

  /** The stack is a subsequence of the span list, without repetition, that holds exactly the spans
      not yet ended; and every parent comes before its child, so the spans form a forest. */
  ghost predicate Valid(t: Trace) {
    && StackInside(t)
    && (forall i, j | 0 <= i < j < |t.stack| :: t.stack[i] < t.stack[j])
    && (forall i | 0 <= i < |t.stack| :: t.spans[t.stack[i]].end.None?)
    && (forall id | 0 <= id < |t.spans| && t.spans[id].end.None? :: id in t.stack)
    && (forall id | 0 <= id < |t.spans| && t.spans[id].parent.Some? :: t.spans[id].parent.value < id)
  }

  lemma {:induction false} StartValid(t: Trace, name: string, clock: Clock)
    requires Valid(t)
    ensures Valid(StartSpan(t, name, clock))
  {
    var r := StartSpan(t, name, clock);
    forall id | 0 <= id < |r.spans| && r.spans[id].end.None? ensures id in r.stack {
      if id < |t.spans| { assert id in t.stack; } else { assert r.stack[|t.stack|] == id; }
    }
  }

  lemma {:induction false} RemoveAt(s: seq<nat>, k: nat)
    requires k < |s| && forall i, j | 0 <= i < j < |s| :: s[i] < s[j]
    ensures var r := s[..k] + s[k + 1..];
      && (forall i, j | 0 <= i < j < |r| :: r[i] < r[j])
      && (forall i | 0 <= i < |r| :: r[i] == s[if i < k then i else i + 1] && r[i] != s[k])
  {
  }

  lemma {:induction false} StillIn(s: seq<nat>, k: nat, x: nat)
    requires k < |s| && x in s && x != s[k]
    ensures x in s[..k] + s[k + 1..]
  {
    var i :| 0 <= i < |s| && s[i] == x;
    assert (s[..k] + s[k + 1..])[if i < k then i else i - 1] == x;
  }

  lemma {:induction false} EndValid(t: Trace, id: nat, status: Status, clock: Clock)
    requires Valid(t) && id < |t.spans|
    ensures Valid(EndSpan(t, id, status, clock))
  {
    hide Valid;
    if t.spans[id].end.None? {
      OpenInStack(t, id);
      var k := LastIndexOf(t.stack, id);
      var ended := t.spans[id].(end := Some(clock(t.ticks)), status := status);
      EndAtValid(t, k, ended, t.ticks + 1);
      assert EndSpan(t, id, status, clock)
          == Trace(t.spans[id := ended], t.stack[..k] + t.stack[k + 1..], t.ticks + 1, t.report);
    }
  }

  lemma {:induction false} OpenInStack(t: Trace, id: nat)
    requires Valid(t) && id < |t.spans| && t.spans[id].end.None?
    ensures id in t.stack
  {
  }

  lemma {:induction false} EndAtValid(t: Trace, k: nat, ended: Span, ticks: nat)
    requires Valid(t) && k < |t.stack| && ended.end.Some? && ended.parent == t.spans[t.stack[k]].parent
    ensures Valid(Trace(t.spans[t.stack[k] := ended], t.stack[..k] + t.stack[k + 1..], ticks, t.report))
  {
    var r := Trace(t.spans[t.stack[k] := ended], t.stack[..k] + t.stack[k + 1..], ticks, t.report);
    RemoveAt(t.stack, k);
    assert StackInside(r);
    assert forall i | 0 <= i < |r.stack| :: r.spans[r.stack[i]].end.None?;
    forall x | 0 <= x < |r.spans| && r.spans[x].end.None? ensures x in r.stack {
      assert t.spans[x].end.None?;
      StillIn(t.stack, k, x);
    }
  }

  /** `r` is `t` with every open span ended with `status`, and nothing else changed. */
  ghost predicate OpenEnded(t: Trace, r: Trace, status: Status) {
    && r.stack == [] && |r.spans| == |t.spans| && r.report == t.report && t.ticks <= r.ticks
    && forall id | 0 <= id < |t.spans| ::
         && r.spans[id].end.Some?
         && (t.spans[id].end.Some? ==> r.spans[id] == t.spans[id])
         && (t.spans[id].end.None? ==> r.spans[id] == t.spans[id].(end := r.spans[id].end, status := status))
  }

  lemma {:induction false} EndOpenEnds(t: Trace, status: Status, clock: Clock)
    requires Valid(t)
    ensures OpenEnded(t, EndOpen(t, status, clock), status) && Valid(EndOpen(t, status, clock))
    decreases |t.stack|
  {
    if t.stack != [] {
      EndOpenStep(t, status, clock);
      EndOpenEnds(EndSpan(t, t.stack[|t.stack| - 1], status, clock), status, clock);
    }
  }

  lemma {:induction false} EndOpenStep(t: Trace, status: Status, clock: Clock)
    requires Valid(t) && t.stack != []
    ensures
      var t' := EndSpan(t, t.stack[|t.stack| - 1], status, clock);
      Valid(t') && |t'.stack| < |t.stack| && EndOpen(t, status, clock) == EndOpen(t', status, clock)
  {
    var last := |t.stack| - 1;
    EndValid(t, t.stack[last], status, clock);
    assert LastIndexOf(t.stack, t.stack[last]) == last;
    assert t.stack[..last] + t.stack[last + 1..] == t.stack[..last];
  }

  datatype Op = Start(name: string) | End(id: nat, status: Status) | FlushNow(status: Status)

  /** One call.  Starts, ends in any order and repeated, and flushes keep the collector consistent. */
  function Do(t: Trace, op: Op, clock: Clock): (r: Trace)
    requires Valid(t)
    ensures Valid(r)
  {
    match op
    case Start(name) => StartValid(t, name, clock); StartSpan(t, name, clock)
    case End(id, status) =>
      if id < |t.spans| then EndValid(t, id, status, clock); EndSpan(t, id, status, clock) else t
    case FlushNow(status) => EndOpenEnds(t, status, clock); Flush(t, status, clock)
  }

  function Run(ops: seq<Op>, clock: Clock): (t: Trace)
    ensures Valid(t)
    decreases |ops|
  {
    if ops == [] then EMPTY else Do(Run(ops[..|ops| - 1], clock), ops[|ops| - 1], clock)
  }

  /** In every reachable collector the active span is the latest one not yet ended. */
  lemma {:induction false} ActiveIsLatest(t: Trace)
    requires Valid(t)
    ensures
      match Active(t)
      case None => forall k | 0 <= k < |t.spans| :: t.spans[k].end.Some?
      case Some(a) =>
        && a < |t.spans| && t.spans[a].end.None?
        && forall k | 0 <= k < |t.spans| && t.spans[k].end.None? :: k <= a
  {
    forall k | 0 <= k < |t.spans| && t.spans[k].end.None? ensures Active(t).Some? && k <= Active(t).value {
      var i :| 0 <= i < |t.stack| && t.stack[i] == k;
    }
  }

  /** A second end of a span changes nothing. */
  lemma {:induction false} EndTwice(t: Trace, clock: Clock, id: nat, status: Status, again: Status)
    requires Valid(t)
    ensures Do(Do(t, End(id, status), clock), End(id, again), clock) == Do(t, End(id, status), clock)
  {
  }

  /** The first flush ends every open span, leaves the ended ones alone and reports the slowest; a
      later one changes nothing. */
  lemma {:induction false} FlushOnce(t: Trace, clock: Clock, status: Status)
    requires Valid(t)
    ensures
      var r := Do(t, FlushNow(status), clock);
      if t.report.Some? then r == t
      else
        r.report == Some(Slowest(r.spans)) && OpenEnded(t, r.(report := None), status)
  {
    EndOpenEnds(t, status, clock);
  }

  // ----- withTraceSpan -----

  /** A synchronous body that opens spans only through withTraceSpan, may throw, and may catch. */
  datatype Stmt = WithSpan(name: string, body: seq<Stmt>) | Throw | TryCatch(body: seq<Stmt>)

  /** Running a body: the collector afterwards, and whether the body threw. */
  function Exec(t: Trace, body: seq<Stmt>, clock: Clock): (r: (Trace, bool))
    ensures |t.spans| <= |r.0.spans|
    decreases body
  {
    if body == [] then (t, false)
    else
      var (t', threw) := ExecOne(t, body[0], clock);
      if threw then (t', true) else Exec(t', body[1..], clock)
  }

  function ExecOne(t: Trace, stmt: Stmt, clock: Clock): (r: (Trace, bool))
    ensures |t.spans| <= |r.0.spans|
    decreases stmt
  {
    match stmt
    case Throw => (t, true)
    case TryCatch(body) => (Exec(t, body, clock).0, false)
    case WithSpan(name, body) =>
      var (t', threw) := Exec(StartSpan(t, name, clock), body, clock);
      (EndSpan(t', |t.spans|, if threw then ERROR else OK, clock), threw)
  }

  /** Whether a statement throws: a body does so at its first statement that throws. */
  ghost predicate Throws(stmt: Stmt) {
    match stmt
    case Throw => true
    case TryCatch(_) => false
    case WithSpan(_, body) => exists s | s in body :: Throws(s)
  }

  /** The names of the spans that a body starts, in order: what stands after a throw does not run. */
  ghost function Begun(body: seq<Stmt>): seq<string> {
    if body == [] then [] else BegunBy(body[0]) + (if Throws(body[0]) then [] else Begun(body[1..]))
  }

  ghost function BegunBy(stmt: Stmt): seq<string> {
    match stmt
    case Throw => []
    case TryCatch(body) => Begun(body)
    case WithSpan(name, body) => [name] + Begun(body)
  }

  ghost function SpanNames(t: Trace): seq<string> {
    seq(|t.spans|, i requires 0 <= i < |t.spans| => t.spans[i].name)
  }

  /** Main result: running a body starts exactly those spans and throws exactly if one of its statements does. */
  lemma {:induction false} BodyRuns(t: Trace, body: seq<Stmt>, clock: Clock)
    ensures var (r, threw) := Exec(t, body, clock);
      SpanNames(r) == SpanNames(t) + Begun(body) && (threw <==> exists s | s in body :: Throws(s))
    decreases body
  {
    hide Throws, SpanNames, ExecOne, BegunBy;
    if body == [] {
      assert SpanNames(t) + [] == SpanNames(t);
    } else {
      var (t', threw) := ExecOne(t, body[0], clock);
      StmtRuns(t, body[0], clock);
      assert body == [body[0]] + body[1..];
      if threw {
        assert BegunBy(body[0]) + [] == BegunBy(body[0]);
      } else {
        BodyRuns(t', body[1..], clock);
        assert SpanNames(t) + BegunBy(body[0]) + Begun(body[1..])
            == SpanNames(t) + (BegunBy(body[0]) + Begun(body[1..]));
      }
    }
  }

  lemma {:induction false} StmtRuns(t: Trace, stmt: Stmt, clock: Clock)
    ensures var (r, threw) := ExecOne(t, stmt, clock);
      SpanNames(r) == SpanNames(t) + BegunBy(stmt) && (threw <==> Throws(stmt))
    decreases stmt
  {
    match stmt
    case Throw => assert SpanNames(t) + [] == SpanNames(t);
    case TryCatch(body) => BodyRuns(t, body, clock);
    case WithSpan(name, body) =>
      var started := StartSpan(t, name, clock);
      BodyRuns(started, body, clock);
      assert SpanNames(started) == SpanNames(t) + [name];
      EndKeepsNames(Exec(started, body, clock).0, |t.spans|, if Exec(started, body, clock).1 then ERROR else OK, clock);
      assert SpanNames(t) + [name] + Begun(body) == SpanNames(t) + ([name] + Begun(body));
  }

  lemma {:induction false} EndKeepsNames(t: Trace, id: nat, status: Status, clock: Clock)
    requires id < |t.spans|
    ensures SpanNames(EndSpan(t, id, status, clock)) == SpanNames(t)
  {
  }

  ghost predicate Nondecreasing(clock: Clock) {
    forall i: nat, j: nat | i <= j :: clock(i) <= clock(j)
  }

  /** What running a body adds: the old spans and the stack are as before; every new span has ended,
      within the run, and its parent is the span that was active before the run, or a new span whose
      interval contains its own. */
  ghost predicate Extended(t: Trace, t': Trace, clock: Clock) {
    && |t.spans| <= |t'.spans| && t.ticks <= t'.ticks && t'.stack == t.stack && t'.report == t.report
    && t'.spans[..|t.spans|] == t.spans
    && forall k | |t.spans| <= k < |t'.spans| :: ProperSpan(t, t', k, clock)
  }

  ghost predicate ProperSpan(t: Trace, t': Trace, k: nat, clock: Clock)
    requires k < |t'.spans|
  {
    var span := t'.spans[k];
    && span.end.Some? && clock(t.ticks) <= span.start <= span.end.value <= clock(t'.ticks)
    && (|| span.parent == Active(t)
        || (span.parent.Some? && |t.spans| <= span.parent.value < k
            && var p := t'.spans[span.parent.value];
               p.end.Some? && p.start <= span.start && span.end.value <= p.end.value))
  }

  lemma {:induction false} ExtendedTwice(t: Trace, t': Trace, t'': Trace, clock: Clock)
    requires Nondecreasing(clock) && Extended(t, t', clock) && Extended(t', t'', clock)
    ensures Extended(t, t'', clock)
  {
    forall k | |t.spans| <= k < |t''.spans| ensures ProperSpan(t, t'', k, clock) {
      if k < |t'.spans| {
        assert ProperSpan(t, t', k, clock);
        assert t''.spans[k] == t''.spans[..|t'.spans|][k];
        var parent := t'.spans[k].parent;
        if parent.Some? && parent.value < k {
          assert t''.spans[parent.value] == t''.spans[..|t'.spans|][parent.value];
        }
      } else {
        assert ProperSpan(t', t'', k, clock);
      }
    }
    assert t''.spans[..|t.spans|] == t''.spans[..|t'.spans|][..|t.spans|];
  }

  /** Main result: given a clock that does not go back, a body leaves the stack as it was, on return
      and on throw, and the interval of every span lies inside its parent's. */
  lemma {:induction false} BodyBalanced(t: Trace, body: seq<Stmt>, clock: Clock)
    requires Nondecreasing(clock) && Valid(t)
    ensures Extended(t, Exec(t, body, clock).0, clock) && Valid(Exec(t, body, clock).0)
    decreases body
  {
    if body != [] {
      var (t', threw) := ExecOne(t, body[0], clock);
      StmtBalanced(t, body[0], clock);
      if !threw {
        BodyBalanced(t', body[1..], clock);
        ExtendedTwice(t, t', Exec(t', body[1..], clock).0, clock);
      }
    }
  }

  lemma {:induction false} StmtBalanced(t: Trace, stmt: Stmt, clock: Clock)
    requires Nondecreasing(clock) && Valid(t)
    ensures Extended(t, ExecOne(t, stmt, clock).0, clock) && Valid(ExecOne(t, stmt, clock).0)
    decreases stmt
  {
    match stmt
    case Throw =>
    case TryCatch(body) => BodyBalanced(t, body, clock);
    case WithSpan(name, body) =>
      var started := StartSpan(t, name, clock);
      StartValid(t, name, clock);
      BodyBalanced(started, body, clock);
      var (t', threw) := Exec(started, body, clock);
      EndValid(t', |t.spans|, if threw then ERROR else OK, clock);
      SpanBalanced(t, name, t', if threw then ERROR else OK, clock);
  }

  /** A body between the start and the end of its span. */
  lemma {:induction false} SpanBalanced(t: Trace, name: string, t': Trace, status: Status, clock: Clock)
    requires Nondecreasing(clock) && Valid(t) && Extended(StartSpan(t, name, clock), t', clock)
    ensures Extended(t, EndSpan(t', |t.spans|, status, clock), clock)
  {
    var started := StartSpan(t, name, clock);
    var id := |t.spans|;
    var r := EndSpan(t', id, status, clock);
    assert t'.spans[id] == t'.spans[..|started.spans|][id];
    var k := LastIndexOf(t'.stack, id);
    assert k == |t.stack| by { assert t'.stack[|t.stack|] == id; }
    assert r.stack == t.stack;
    assert t'.spans[..|started.spans|][..id] == t.spans;
    forall j | id <= j < |r.spans| ensures ProperSpan(t, r, j, clock) {
      if j > id {
        assert ProperSpan(started, t', j, clock);
      }
    }
  }

  /** The span of a wrapped body: below the span active before, in error exactly when the body threw. */
  lemma {:induction false} SpanRecords(t: Trace, name: string, body: seq<Stmt>, clock: Clock)
    requires Nondecreasing(clock) && Valid(t)
    ensures
      var (r, threw) := ExecOne(t, WithSpan(name, body), clock);
      && |t.spans| < |r.spans|
      && var span := r.spans[|t.spans|];
         && span.name == name && span.parent == Active(t)
         && span.status == if exists s | s in body :: Throws(s) then ERROR else OK
  {
    BodyRuns(StartSpan(t, name, clock), body, clock);
    var started := StartSpan(t, name, clock);
    StartValid(t, name, clock);
    BodyBalanced(started, body, clock);
    var t' := Exec(started, body, clock).0;
    assert t'.spans[|t.spans|] == t'.spans[..|started.spans|][|t.spans|];
  }

  // ----- The class -----

  class TraceCollector {
    const clock: Clock
    var spans: seq<Span>
    var spanStack: seq<nat>
    var ticks: nat
    var flushed: bool
    var slowest: seq<nat>

    constructor (clock: Clock)
      ensures State() == EMPTY && this.clock == clock
    {
      this.clock := clock;
      spans, spanStack, ticks, flushed, slowest := [], [], 0, false, [];
    }

    ghost function State(): Trace
      reads this
    {
      Trace(spans, spanStack, ticks, if flushed then Some(slowest) else None)
    }

    method NowNs() returns (now: int)
      modifies this`ticks
      ensures now == clock(old(ticks)) && ticks == old(ticks) + 1
    {
      now := clock(ticks);
      ticks := ticks + 1;
    }

    method Start(name: string) returns (span: nat)
      modifies this
      ensures State() == StartSpan(old(State()), name, clock) && span == |old(spans)|
    {
      var parent := if |spanStack| > 0 then Some(spanStack[|spanStack| - 1]) else None;
      var now := NowNs();
      span := |spans|;
      spans := spans + [Span(name, parent, now, None, UNSET)];
      spanStack := spanStack + [span];
    }

    method End(span: nat, status: Status)
      requires span < |spans|
      modifies this
      ensures State() == EndSpan(old(State()), span, status, clock)
    {
      if spans[span].end.Some? {
        return;
      }
      var endNs := NowNs();
      spans := spans[span := spans[span].(end := Some(endNs), status := status)];
      var index := LastIndexOf(spanStack, span);
      if index < |spanStack| {
        spanStack := spanStack[..index] + spanStack[index + 1..];
      }
    }

    /** The body of the loop in flush; the popped span is no longer on the stack when it is ended. */
    method PopAndEnd(finalStatus: Status)
      requires Valid(State()) && spanStack != []
      modifies this
      ensures State() == EndSpan(old(State()), old(spanStack)[|old(spanStack)| - 1], finalStatus, clock)
    {
      var last := |spanStack| - 1;
      var span := spanStack[last];
      ghost var stack := spanStack;
      assert LastIndexOf(stack, span) == last && stack[..last] + stack[last + 1..] == stack[..last];
      spanStack := spanStack[..last];
      assert LastIndexOf(spanStack, span) == |spanStack|;
      End(span, finalStatus);
    }

    /** The loop in flush. */
    method EndAllOpen(finalStatus: Status)
      requires Valid(State()) && !flushed
      modifies this
      ensures State() == EndOpen(old(State()), finalStatus, clock)
    {
      ghost var ended := EndOpen(State(), finalStatus, clock);
      while |spanStack| > 0
        invariant Valid(State()) && !flushed
        invariant EndOpen(State(), finalStatus, clock) == ended
        decreases |spanStack|
      {
        EndOpenStep(State(), finalStatus, clock);
        PopAndEnd(finalStatus);
      }
      assert State().stack == [];
    }

    method FlushSpans(finalStatus: Status)
      requires Valid(State())
      modifies this
      ensures State() == Flush(old(State()), finalStatus, clock)
    {
      if flushed {
        return;
      }
      EndAllOpen(finalStatus);
      var endNs := NowNs();
      slowest := Slowest(spans);
      flushed := true;
    }

    /** withTraceSpan around a synchronous body; `threw` is the exception passed on. */
    method WithTraceSpan(name: string, body: seq<Stmt>) returns (threw: bool)
      modifies this
      ensures (State(), threw) == ExecOne(old(State()), WithSpan(name, body), clock)
      decreases body, 1
    {
      var span := Start(name);
      threw := RunBody(body);
      if threw {
        End(span, ERROR);
      } else {
        End(span, OK);
      }
    }

    method RunBody(body: seq<Stmt>) returns (threw: bool)
      modifies this
      ensures (State(), threw) == Exec(old(State()), body, clock)
      decreases body, 0
    {
      if body == [] {
        return false;
      }
      match body[0] {
        case Throw => return true;
        case TryCatch(inner) =>
          var _ := RunBody(inner);
          threw := RunBody(body[1..]);
        case WithSpan(name, inner) =>
          threw := WithTraceSpan(name, inner);
          if !threw {
            threw := RunBody(body[1..]);
          }
      }
    }
  }
}
