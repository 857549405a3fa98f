/** The two ways in which scripts/type-safety-hotspots.ts charges a finding to a function: by the
    stack of functions entered during the walk, and by the smallest function interval that
    contains the finding. */
module Attribution {
  import opened Wrappers

  datatype Span = Span(start: int, end: int) {
    predicate Contains(inner: Span) {
      start <= inner.start && inner.end <= end
    }

    predicate Apart(other: Span) {
      end <= other.start || other.end <= start
    }
  }

  /** A syntax node: its span, whether it is a reportable (named) function, the number of patterns
      it matches itself, and its children. */
  datatype Node = Node(span: Span, isFunction: bool, hits: nat, children: seq<Node>)

  /** Proper nesting: children lie in order inside their parent and do not overlap; a function, or a
      node that matches a pattern, is not empty, and none of its children fills it. */
  ghost predicate WellNested(t: Node) {
    && t.span.start <= t.span.end && (t.isFunction || t.hits > 0 ==> t.span.start < t.span.end)
    && (forall c | c in t.children :: t.span.Contains(c.span) && WellNested(c))
    && (forall i, j | 0 <= i < j < |t.children| :: t.children[i].span.end <= t.children[j].span.start)
    && (t.isFunction || t.hits > 0 ==> forall c | c in t.children :: c.span != t.span)
  }

  // ----- The smallest containing interval -----

  /** `k` is the one function that contains `at` and lies strictly inside all others that do; `None`
      means that no function contains it. */
  ghost predicate IsInnermost(functions: seq<Span>, at: Span, k: Option<nat>) {
    match k
    case None => forall f | f in functions :: !f.Contains(at)
    case Some(i) =>
      && i < |functions| && functions[i].Contains(at)
      && forall j | 0 <= j < |functions| && j != i && functions[j].Contains(at) ::
           functions[j].Contains(functions[i]) && functions[j] != functions[i]
  }

  /** Of the functions that contain `at`, the first of least length. */
  ghost predicate IsFirstShortest(functions: seq<Span>, at: Span, k: Option<nat>) {
    match k
    case None => forall f | f in functions :: !f.Contains(at)
    case Some(i) =>
      && i < |functions| && functions[i].Contains(at)
      && (forall j | 0 <= j < |functions| && functions[j].Contains(at) ::
            functions[i].end - functions[i].start <= functions[j].end - functions[j].start)
      && (forall j | 0 <= j < i && functions[j].Contains(at) ::
            functions[i].end - functions[i].start < functions[j].end - functions[j].start)
  }

  /** `findInnermostContainingFunction` */
  method FindInnermost(functions: seq<Span>, at: Span) returns (innermost: Option<nat>)
    ensures IsFirstShortest(functions, at, innermost)
    ensures forall k: Option<nat> | IsFirstShortest(functions, at, k) || IsInnermost(functions, at, k) :: innermost == k
  {
    innermost := None;
    for i := 0 to |functions|
      invariant IsFirstShortest(functions[..i], at, innermost)
    {
      var fn := functions[i];
      assert functions[..i + 1] == functions[..i] + [fn];
      if at.start < fn.start || at.end > fn.end {
        continue;
      }
      if innermost.None?
         || fn.end - fn.start < functions[innermost.value].end - functions[innermost.value].start {
        innermost := Some(i);
      }
    }
    assert functions[..|functions|] == functions;
  }

  // ----- The walk -----

  /** The state of `analyzeFile`.  A function's record is named by its index in `functions`;
      `counts` holds the records' counters. */
  datatype Tally = Tally(functions: seq<Span>, counts: seq<nat>, stack: seq<nat>, fileCount: nat) {
    ghost predicate Valid() {
      |counts| == |functions| && forall i | 0 <= i < |stack| :: stack[i] < |functions|
    }

    /** The function on top of the stack. */
    function Top(): Option<nat> {
      if stack == [] then None else Some(stack[|stack| - 1])
    }

    function Apply(amount: nat): Tally
      requires Valid()
    {
      var file := this.(fileCount := fileCount + amount);
      if stack == [] then file
      else
        var current := stack[|stack| - 1];
        file.(counts := counts[current := counts[current] + amount])
    }

    function Enter(fn: Span): Tally {
      Tally(functions + [fn], counts + [0], stack + [|functions|], fileCount)
    }
  }

  function Walk(t: Node, s: Tally): (r: Tally)
    requires s.Valid()
    ensures r.Valid() && r.stack == s.stack && |r.functions| >= |s.functions|
    decreases t
  {
    if t.isFunction then
      var inside := WalkChildren(t, |t.children|, s.Enter(t.span));
      inside.(stack := inside.stack[..|inside.stack| - 1])
    else
      WalkChildren(t, |t.children|, if t.hits > 0 then s.Apply(t.hits) else s)
  }

  /** The first `i` children. */
  function WalkChildren(t: Node, i: nat, s: Tally): (r: Tally)
    requires s.Valid() && i <= |t.children|
    ensures r.Valid() && r.stack == s.stack && |r.functions| >= |s.functions|
    decreases t, 0, i
  {
    if i == 0 then s else Walk(t.children[i - 1], WalkChildren(t, i - 1, s))
  }

  class Analyzer {
    var functions: seq<Span>
    var counts: seq<nat>
    var functionStack: seq<nat>
    var fileCount: nat

    constructor ()
      ensures State() == Tally([], [], [], 0)
    {
      functions, counts, functionStack, fileCount := [], [], [], 0;
    }

    ghost function State(): Tally
      reads this
    {
      Tally(functions, counts, functionStack, fileCount)
    }

    method ApplyPattern(amount: nat)
      requires State().Valid()
      modifies this`counts, this`fileCount
      ensures State() == old(State()).Apply(amount)
    {
      fileCount := fileCount + amount;
      if functionStack != [] {
        var current := functionStack[|functionStack| - 1];
        counts := counts[current := counts[current] + amount];
      }
    }

    method Visit(t: Node)
      requires State().Valid()
      modifies this
      ensures State() == Walk(t, old(State()))
      decreases t
    {
      if t.isFunction {
        functions := functions + [t.span];
        counts := counts + [0];
        functionStack := functionStack + [|functions| - 1];
        VisitChildren(t);
        functionStack := functionStack[..|functionStack| - 1];
        return;
      }
      if t.hits > 0 {
        ApplyPattern(t.hits);
      }
      VisitChildren(t);
    }

    /** `ts.forEachChild(node, visit)` */
    method VisitChildren(t: Node)
      requires State().Valid()
      modifies this
      ensures State() == WalkChildren(t, |t.children|, old(State()))
      decreases t, 0
    {
      for i := 0 to |t.children|
        invariant State() == WalkChildren(t, i, old(State()))
      {
        Visit(t.children[i]);
      }
    }

    /** The walk over a whole tree, and what it comes to. */
    method AnalyzeTree(root: Node)
      requires State() == Tally([], [], [], 0)
      modifies this
      ensures functions == Functions(root) && functionStack == []
      ensures counts == Counts(root) && fileCount == Total(Findings(root, None, 0))
    {
      Visit(root);
      WalkOfFile(root, 0);
    }

    /** The loop over the comment directives: each is charged to the smallest function around it. */
    method ChargeDirectives(occurrences: seq<Occurrence>)
      requires State().Valid() && functionStack == []
      modifies this`counts
      ensures |counts| == |functions|
      ensures forall k | 0 <= k < |counts| ::
        counts[k] == old(counts)[k] + Charged(Directives(functions, occurrences), k)
    {
      for i := 0 to |occurrences|
        invariant |counts| == |functions|
        invariant forall k | 0 <= k < |counts| ::
          counts[k] == old(counts)[k] + Charged(Directives(functions, occurrences[..i]), k)
      {
        var occurrence := occurrences[i];
        var innermost := FindInnermost(functions, occurrence.span);
        DirectivesNext(functions, occurrences, i);
        InnermostIs(functions, occurrence.span);
        if innermost.Some? {
          counts := counts[innermost.value := counts[innermost.value] + occurrence.count];
        }
      }
      assert occurrences[..|occurrences|] == occurrences;
    }

    /** `analyzeFile`: its findings are those of the walk and the directives, each charged once. */
    method AnalyzeFile(root: Node, occurrences: seq<Occurrence>)
      requires State() == Tally([], [], [], 0)
      modifies this
      ensures functions == Functions(root) && functionStack == []
      ensures counts == Charges(|Functions(root)|, AllFindings(root, occurrences))
      ensures fileCount == Total(AllFindings(root, occurrences))
      ensures fileCount == Sum(counts) + Unowned(AllFindings(root, occurrences))
    {
      hide Walk, Functions, Findings, Directives, Total, Sum, Unowned, Charged;
      fileCount := fileCount + CountDirectives(occurrences);
      Visit(root);
      WalkOfFile(root, CountDirectives(occurrences));
      ChargeDirectives(occurrences);
      AllCharged(root, occurrences);
      FileSplits(root, occurrences);
    }
  }

  // ----- Comment directives -----

  datatype Occurrence = Occurrence(span: Span, count: nat)

  /** `countDirectiveComments` */
  function CountDirectives(occurrences: seq<Occurrence>): nat {
    if occurrences == [] then 0
    else CountDirectives(occurrences[..|occurrences| - 1]) + occurrences[|occurrences| - 1].count
  }

  /** The smallest function around a span. */
  ghost function Innermost(functions: seq<Span>, at: Span): Option<nat> {
    if k: Option<nat> :| IsFirstShortest(functions, at, k) then k else None
  }

  /** The directives as findings. */
  ghost function Directives(functions: seq<Span>, occurrences: seq<Occurrence>): seq<Finding> {
    seq(|occurrences|, i requires 0 <= i < |occurrences| =>
      Finding(occurrences[i].span, occurrences[i].count, Innermost(functions, occurrences[i].span)))
  }

  ghost function AllFindings(root: Node, occurrences: seq<Occurrence>): seq<Finding> {
    Findings(root, None, 0) + Directives(Functions(root), occurrences)
  }

  // ----- What the walk means -----

  /** One call of `applyPattern`: where, how many, and the function on top of the stack. */
  datatype Finding = Finding(span: Span, amount: nat, owner: Option<nat>)

  /** The functions of a tree in the order in which the walk enters them. */
  function Functions(t: Node): seq<Span>
    decreases t
  {
    (if t.isFunction then [t.span] else []) + FunctionsOf(t, |t.children|)
  }

  /** Those of the first `i` children. */
  function FunctionsOf(t: Node, i: nat): seq<Span>
    requires i <= |t.children|
    decreases t, 0, i
  {
    if i == 0 then [] else FunctionsOf(t, i - 1) + Functions(t.children[i - 1])
  }

  /** The findings of a tree when `owner` is on top of the stack and `entered` functions were
      entered before it. */
  function Findings(t: Node, owner: Option<nat>, entered: nat): seq<Finding>
    decreases t
  {
    if t.isFunction then FindingsOf(t, |t.children|, Some(entered), entered + 1)
    else (if t.hits > 0 then [Finding(t.span, t.hits, owner)] else []) + FindingsOf(t, |t.children|, owner, entered)
  }

  function FindingsOf(t: Node, i: nat, owner: Option<nat>, entered: nat): seq<Finding>
    requires i <= |t.children|
    decreases t, 0, i
  {
    if i == 0 then []
    else FindingsOf(t, i - 1, owner, entered) + Findings(t.children[i - 1], owner, entered + |FunctionsOf(t, i - 1)|)
  }

  /** How much of the findings is charged to function `k`. */
  function Charged(fs: seq<Finding>, k: nat): nat {
    if fs == [] then 0
    else Charged(fs[..|fs| - 1], k) + (if fs[|fs| - 1].owner == Some(k) then fs[|fs| - 1].amount else 0)
  }

  function Total(fs: seq<Finding>): nat {
    if fs == [] then 0 else Total(fs[..|fs| - 1]) + fs[|fs| - 1].amount
  }

  /** The findings outside every function. */
  function Unowned(fs: seq<Finding>): nat {
    if fs == [] then 0
    else Unowned(fs[..|fs| - 1]) + (if fs[|fs| - 1].owner.None? then fs[|fs| - 1].amount else 0)
  }

  /** The counters of `n` functions. */
  function Charges(n: nat, fs: seq<Finding>): seq<nat> {
    seq(n, k requires k >= 0 => Charged(fs, k))
  }

  /** The counter of every function at the end of the walk. */
  function Counts(root: Node): seq<nat> {
    Charges(|Functions(root)|, Findings(root, None, 0))
  }

  function Sum(counts: seq<nat>): nat {
    if counts == [] then 0 else Sum(counts[..|counts| - 1]) + counts[|counts| - 1]
  }

  lemma {:induction false} TotalConcat(fs: seq<Finding>, gs: seq<Finding>)
    ensures Total(fs + gs) == Total(fs) + Total(gs)
    decreases |gs|
  {
    if gs == [] {
      assert fs + gs == fs;
    } else {
      assert (fs + gs)[..|fs + gs| - 1] == fs + gs[..|gs| - 1];
      TotalConcat(fs, gs[..|gs| - 1]);
    }
  }

  lemma {:induction false} ChargedConcat(fs: seq<Finding>, gs: seq<Finding>, k: nat)
    ensures Charged(fs + gs, k) == Charged(fs, k) + Charged(gs, k)
    decreases |gs|
  {
    if gs == [] {
      assert fs + gs == fs;
    } else {
      assert (fs + gs)[..|fs + gs| - 1] == fs + gs[..|gs| - 1];
      ChargedConcat(fs, gs[..|gs| - 1], k);
    }
  }

  lemma {:induction false} ChargedElsewhere(fs: seq<Finding>, k: nat)
    requires forall f | f in fs :: f.owner != Some(k)
    ensures Charged(fs, k) == 0
  {
    if fs != [] {
      ChargedElsewhere(fs[..|fs| - 1], k);
    }
  }

  /** A finding belongs to the function already on top of the stack or to one entered since. */
  ghost predicate OwnerBetween(f: Finding, owner: Option<nat>, lo: nat, hi: nat) {
    f.owner == owner || (f.owner.Some? && lo <= f.owner.value < hi)
  }

  lemma {:induction false} Owners(t: Node, owner: Option<nat>, entered: nat)
    ensures forall f | f in Findings(t, owner, entered) :: OwnerBetween(f, owner, entered, entered + |Functions(t)|)
    decreases t
  {
    if t.isFunction {
      OwnersOf(t, |t.children|, Some(entered), entered + 1);
    } else {
      OwnersOf(t, |t.children|, owner, entered);
    }
  }

  lemma {:induction false} OwnersOf(t: Node, i: nat, owner: Option<nat>, entered: nat)
    requires i <= |t.children|
    ensures forall f | f in FindingsOf(t, i, owner, entered) ::
      OwnerBetween(f, owner, entered, entered + |FunctionsOf(t, i)|)
    decreases t, 0, i
  {
    if i > 0 {
      OwnersOf(t, i - 1, owner, entered);
      Owners(t.children[i - 1], owner, entered + |FunctionsOf(t, i - 1)|);
    }
  }

  /** `s'` is `s` after the functions `more` were entered and left and the findings `fs` charged. */
  ghost predicate Grown(s: Tally, s': Tally, more: seq<Span>, fs: seq<Finding>)
    requires s.Valid() && s'.Valid()
  {
    && s'.functions == s.functions + more
    && s'.stack == s.stack
    && s'.fileCount == s.fileCount + Total(fs)
    && forall k | 0 <= k < |s'.counts| :: s'.counts[k] == (if k < |s.counts| then s.counts[k] else 0) + Charged(fs, k)
  }

  lemma {:induction false} GrownTwice(
      s: Tally, s': Tally, s'': Tally, more: seq<Span>, more': seq<Span>, fs: seq<Finding>, fs': seq<Finding>)
    requires s.Valid() && s'.Valid() && s''.Valid()
    requires Grown(s, s', more, fs) && Grown(s', s'', more', fs')
    requires forall f | f in fs :: OwnerBetween(f, s.Top(), |s.functions|, |s'.functions|)
    ensures Grown(s, s'', more + more', fs + fs')
  {
    TotalConcat(fs, fs');
    forall k | 0 <= k < |s''.counts|
      ensures s''.counts[k] == (if k < |s.counts| then s.counts[k] else 0) + Charged(fs + fs', k)
    {
      ChargedConcat(fs, fs', k);
      if k >= |s'.counts| {
        ChargedElsewhere(fs, k);
      }
    }
  }

  lemma {:induction false} GrownByHit(s: Tally, span: Span, amount: nat)
    requires s.Valid()
    ensures s.Apply(amount).Valid() && Grown(s, s.Apply(amount), [], [Finding(span, amount, s.Top())])
  {
    var fs := [Finding(span, amount, s.Top())];
    assert fs[..0] == [];
    assert Total(fs) == amount;
    assert forall k: nat :: Charged(fs, k) == if s.Top() == Some(k) then amount else 0;
  }

  lemma {:induction false} GrownNone(s: Tally)
    requires s.Valid()
    ensures Grown(s, s, [], [])
  {
  }

  lemma {:induction false} GrownKeeps(s: Tally, s': Tally, more: seq<Span>, fs: seq<Finding>)
    requires s.Valid() && s'.Valid() && Grown(s, s', more, fs)
    ensures s'.Top() == s.Top() && s'.functions == s.functions + more
  {
  }

  /** Entering a function, walking inside it and leaving it. */
  lemma {:induction false} GrownInside(s: Tally, fn: Span, inside: Tally, more: seq<Span>, fs: seq<Finding>)
    requires s.Valid() && inside.Valid() && Grown(s.Enter(fn), inside, more, fs)
    ensures Grown(s, inside.(stack := inside.stack[..|inside.stack| - 1]), [fn] + more, fs)
  {
    assert s.functions + [fn] + more == s.functions + ([fn] + more);
  }

  lemma {:induction false} FunctionMeaning(t: Node, s: Tally)
    requires s.Valid() && t.isFunction
    requires Grown(s.Enter(t.span), WalkChildren(t, |t.children|, s.Enter(t.span)), FunctionsOf(t, |t.children|),
                   FindingsOf(t, |t.children|, Some(|s.functions|), |s.functions| + 1))
    ensures Grown(s, Walk(t, s), Functions(t), Findings(t, s.Top(), |s.functions|))
  {
    hide Grown, WalkChildren, FunctionsOf, FindingsOf;
    GrownInside(s, t.span, WalkChildren(t, |t.children|, s.Enter(t.span)), FunctionsOf(t, |t.children|),
                FindingsOf(t, |t.children|, Some(|s.functions|), |s.functions| + 1));
  }

  /** A node that is no function, after its own hits. */
  function Hit(t: Node, s: Tally): Tally
    requires s.Valid()
  {
    if t.hits > 0 then s.Apply(t.hits) else s
  }

  lemma {:induction false} HitMeaning(t: Node, s: Tally)
    requires s.Valid() && !t.isFunction
    ensures Hit(t, s).Valid() && Hit(t, s).Top() == s.Top() && Hit(t, s).functions == s.functions
    ensures Walk(t, s) == WalkChildren(t, |t.children|, Hit(t, s))
    ensures Grown(s, Hit(t, s), [], if t.hits > 0 then [Finding(t.span, t.hits, s.Top())] else [])
  {
    hide Grown, WalkChildren;
    GrownByHit(s, t.span, t.hits);
    GrownNone(s);
  }

  lemma {:induction false} OtherMeaning(t: Node, s: Tally)
    requires s.Valid() && !t.isFunction
    requires Grown(Hit(t, s), WalkChildren(t, |t.children|, Hit(t, s)), FunctionsOf(t, |t.children|),
                   FindingsOf(t, |t.children|, s.Top(), |s.functions|))
    ensures Grown(s, Walk(t, s), Functions(t), Findings(t, s.Top(), |s.functions|))
  {
    hide Grown, Walk, WalkChildren, FunctionsOf, FindingsOf, Hit;
    var own := if t.hits > 0 then [Finding(t.span, t.hits, s.Top())] else [];
    var more := FunctionsOf(t, |t.children|);
    HitMeaning(t, s);
    GrownTwice(s, Hit(t, s), Walk(t, s), [], more, own, FindingsOf(t, |t.children|, s.Top(), |s.functions|));
    assert [] + more == more;
  }

  /** The walk enters the functions of the tree and charges its findings. */
  lemma {:induction false} WalkMeaning(t: Node, s: Tally)
    requires s.Valid()
    ensures Grown(s, Walk(t, s), Functions(t), Findings(t, s.Top(), |s.functions|))
    decreases t
  {
    hide Grown, Walk, WalkChildren, Functions, FunctionsOf, Findings, FindingsOf, Hit;
    if t.isFunction {
      ChildrenMeaning(t, |t.children|, s.Enter(t.span));
      FunctionMeaning(t, s);
    } else {
      HitMeaning(t, s);
      ChildrenMeaning(t, |t.children|, Hit(t, s));
      OtherMeaning(t, s);
    }
  }

  lemma {:induction false} ChildrenMeaning(t: Node, i: nat, s: Tally)
    requires s.Valid() && i <= |t.children|
    ensures Grown(s, WalkChildren(t, i, s), FunctionsOf(t, i), FindingsOf(t, i, s.Top(), |s.functions|))
    decreases t, 0, i
  {
    hide Grown, Walk, Functions, Findings;
    if i == 0 {
      GrownNone(s);
    } else {
      var c, s' := t.children[i - 1], WalkChildren(t, i - 1, s);
      var more, fs := FunctionsOf(t, i - 1), FindingsOf(t, i - 1, s.Top(), |s.functions|);
      ChildrenMeaning(t, i - 1, s);
      GrownKeeps(s, s', more, fs);
      WalkMeaning(c, s');
      assert forall f | f in fs :: OwnerBetween(f, s.Top(), |s.functions|, |s'.functions|) by {
        OwnersOf(t, i - 1, s.Top(), |s.functions|);
      }
      GrownTwice(s, s', Walk(c, s'), more, Functions(c), fs, Findings(c, s.Top(), |s'.functions|));
    }
  }

  /** The walk of a whole file in which `n` findings were counted before. */
  lemma {:induction false} WalkOfFile(root: Node, n: nat)
    ensures Walk(root, Tally([], [], [], n))
      == Tally(Functions(root), Counts(root), [], n + Total(Findings(root, None, 0)))
  {
    hide Walk, Functions, Findings, Total;
    var start := Tally([], [], [], n);
    WalkMeaning(root, start);
    assert start.Top() == None;
    assert Walk(root, start).counts == Counts(root);
  }

  // ----- The two ways of charging agree -----

  lemma {:induction false} FunctionsInside(t: Node)
    requires WellNested(t)
    ensures forall f | f in Functions(t) :: f.start < f.end && t.span.Contains(f)
    ensures !t.isFunction && t.hits > 0 ==> forall f | f in Functions(t) :: f != t.span
    decreases t
  {
    ChildFunctions(t, |t.children|);
  }

  lemma {:induction false} ChildFunctions(t: Node, i: nat)
    requires WellNested(t) && i <= |t.children|
    ensures forall f | f in FunctionsOf(t, i) ::
              f.start < f.end && exists k :: 0 <= k < i && t.children[k].span.Contains(f)
    decreases t, 0, i
  {
    if i > 0 {
      ChildFunctions(t, i - 1);
      FunctionsInside(t.children[i - 1]);
    }
  }

  /** `owner` is the innermost of the functions around the span `at`; all other functions of the
      list either enclose that function strictly, or lie beside the span. */
  ghost predicate Surrounds(functions: seq<Span>, at: Span, owner: Option<nat>) {
    && (owner.Some? ==>
          && owner.value < |functions| && functions[owner.value].Contains(at)
          && at != functions[owner.value])
    && forall j | 0 <= j < |functions| ::
         || functions[j].Apart(at)
         || owner == Some(j)
         || (owner.Some? && functions[j].Contains(functions[owner.value]) && functions[j] != functions[owner.value])
  }

  /** All of the functions lie beside the span. */
  ghost predicate Beside(functions: seq<Span>, at: Span) {
    forall f | f in functions :: f.Apart(at)
  }

  ghost predicate AllInnermost(functions: seq<Span>, fs: seq<Finding>) {
    forall f | f in fs :: IsInnermost(functions, f.span, f.owner)
  }

  /** The stack argument: wherever the walk stands, the top of the stack is the innermost containing
      function among all functions of the file, including those entered later. */
  lemma {:induction false} StackTop(t: Node, owner: Option<nat>, before: seq<Span>, after: seq<Span>, all: seq<Span>)
    requires WellNested(t) && Surrounds(before, t.span, owner) && Beside(after, t.span)
    requires all == before + Functions(t) + after
    ensures AllInnermost(all, Findings(t, owner, |before|))
    decreases t
  {
    hide Surrounds, Beside, IsInnermost;
    FunctionsAre(t);
    BesideChildren(t, after);
    if t.isFunction {
      EnterFunction(t, owner, before);
      Regroup(before, [t.span], FunctionsOf(t, |t.children|), after);
      StackTopOf(t, |t.children|, Some(|before|), before + [t.span], after, all);
    } else {
      PassBy(t, owner, before);
      StackTopOf(t, |t.children|, owner, before, after, all);
      if t.hits > 0 {
        FunctionsInside(t);
        HitInnermost(t, owner, before, after);
      }
    }
  }

  lemma {:induction false} StackTopOf(
      t: Node, i: nat, owner: Option<nat>, before: seq<Span>, after: seq<Span>, all: seq<Span>)
    requires WellNested(t) && i <= |t.children|
    requires forall k | 0 <= k < i :: Surrounds(before, t.children[k].span, owner) && Beside(after, t.children[k].span)
    requires all == before + FunctionsOf(t, i) + after
    ensures AllInnermost(all, FindingsOf(t, i, owner, |before|))
    decreases t, 0, i
  {
    hide Surrounds, Beside, IsInnermost, Functions, Findings;
    if i > 0 {
      var c := t.children[i - 1];
      var earlier := FunctionsOf(t, i - 1);
      SiblingsApart(t, i - 1);
      Extend(before, earlier, c.span, owner);
      Regroup(before, earlier, Functions(c), after);
      StackTop(c, owner, before + earlier, after, all);
      forall k | 0 <= k < i - 1 ensures Beside(Functions(c) + after, t.children[k].span) {
        BesideConcat(Functions(c), after, t.children[k].span);
      }
      StackTopOf(t, i - 1, owner, before, Functions(c) + after, all);
    }
  }

  lemma {:induction false} FunctionsAre(t: Node)
    ensures Functions(t) ==
      if t.isFunction then [t.span] + FunctionsOf(t, |t.children|) else FunctionsOf(t, |t.children|)
  {
  }

  lemma {:induction false} Regroup(a: seq<Span>, b: seq<Span>, c: seq<Span>, d: seq<Span>)
    ensures a + (b + c) + d == (a + b) + c + d == a + b + (c + d)
  {
  }

  lemma {:induction false} BesideConcat(fs: seq<Span>, gs: seq<Span>, at: Span)
    requires Beside(fs, at) && Beside(gs, at)
    ensures Beside(fs + gs, at)
  {
  }

  lemma {:induction false} BesideChildren(t: Node, functions: seq<Span>)
    requires WellNested(t) && Beside(functions, t.span)
    ensures forall k | 0 <= k < |t.children| :: Beside(functions, t.children[k].span)
  {
    forall k | 0 <= k < |t.children| ensures Beside(functions, t.children[k].span) {
      assert t.children[k] in t.children;
    }
  }

  /** The functions of a child lie beside its earlier siblings, and theirs beside it. */
  lemma {:induction false} SiblingsApart(t: Node, i: nat)
    requires WellNested(t) && i < |t.children|
    ensures Beside(FunctionsOf(t, i), t.children[i].span)
    ensures forall k | 0 <= k < i :: Beside(Functions(t.children[i]), t.children[k].span)
  {
    ChildFunctions(t, i);
    FunctionsInside(t.children[i]);
  }

  lemma {:induction false} Extend(before: seq<Span>, more: seq<Span>, at: Span, owner: Option<nat>)
    requires Surrounds(before, at, owner) && Beside(more, at)
    ensures Surrounds(before + more, at, owner)
  {
    forall j | |before| <= j < |before + more| ensures (before + more)[j].Apart(at) {
      assert (before + more)[j] in more;
    }
  }

  lemma {:induction false} EnterFunction(t: Node, owner: Option<nat>, before: seq<Span>)
    requires WellNested(t) && t.isFunction && Surrounds(before, t.span, owner)
    ensures forall k | 0 <= k < |t.children| :: Surrounds(before + [t.span], t.children[k].span, Some(|before|))
  {
    var entered := before + [t.span];
    forall k | 0 <= k < |t.children| ensures Surrounds(entered, t.children[k].span, Some(|before|)) {
      var c := t.children[k];
      forall j | 0 <= j < |before|
        ensures entered[j].Apart(c.span) || (entered[j].Contains(t.span) && entered[j] != t.span)
      {
        assert entered[j] == before[j];
      }
    }
  }

  lemma {:induction false} PassBy(t: Node, owner: Option<nat>, before: seq<Span>)
    requires WellNested(t) && Surrounds(before, t.span, owner)
    ensures forall k | 0 <= k < |t.children| :: Surrounds(before, t.children[k].span, owner)
  {
    forall k | 0 <= k < |t.children| ensures Surrounds(before, t.children[k].span, owner) {
      assert t.children[k] in t.children;
    }
  }

  lemma {:induction false} HitInnermost(t: Node, owner: Option<nat>, before: seq<Span>, after: seq<Span>)
    requires t.span.start < t.span.end && Surrounds(before, t.span, owner)
    requires Beside(after, t.span)
    requires forall f | f in Functions(t) :: t.span.Contains(f) && f != t.span
    ensures IsInnermost(before + Functions(t) + after, t.span, owner)
  {
    var own := Functions(t);
    var all := before + own + after;
    forall j | |before| <= j < |all| ensures !all[j].Contains(t.span) {
      if j < |before| + |own| {
        assert all[j] in own;
      } else {
        assert all[j] in after;
      }
    }
    if owner.None? {
      forall f | f in all ensures !f.Contains(t.span) {
        var j :| 0 <= j < |all| && all[j] == f;
      }
    }
  }

  /** Main result: in a properly nested file, every finding is charged by the stack to the function
      that the interval search would name. */
  lemma {:induction false} ChargesAgree(root: Node)
    requires WellNested(root)
    ensures forall f | f in Findings(root, None, 0) :: IsInnermost(Functions(root), f.span, f.owner)
  {
    assert [] + Functions(root) + [] == Functions(root);
    StackTop(root, None, [], [], Functions(root));
  }

  // ----- Nothing is charged twice, nothing is lost -----

  lemma {:induction false} ChargeConserves(n: nat, fs: seq<Finding>)
    requires forall f | f in fs :: f.owner.Some? ==> f.owner.value < n
    ensures Total(fs) == Sum(Charges(n, fs)) + Unowned(fs)
  {
    var counts := Charges(n, fs);
    if fs == [] {
      assert counts == seq(n, _ => 0);
      SumZeros(n);
    } else {
      var f, fewer := fs[|fs| - 1], fs[..|fs| - 1];
      var previous := Charges(n, fewer);
      ChargeConserves(n, fewer);
      if f.owner.Some? {
        var k := f.owner.value;
        SumUpdate(previous, k, f.amount);
        assert counts == previous[k := previous[k] + f.amount];
      } else {
        assert counts == previous;
      }
    }
  }

  lemma {:induction false} SumZeros(n: nat)
    ensures Sum(seq(n, _ => 0)) == 0
  {
    var zeros: seq<nat> := seq(n, _ => 0);
    if n > 0 {
      assert zeros[..n - 1] == seq(n - 1, _ => 0);
      SumZeros(n - 1);
    }
  }

  lemma {:induction false} SumUpdate(counts: seq<nat>, k: nat, amount: nat)
    requires k < |counts|
    ensures Sum(counts[k := counts[k] + amount]) == Sum(counts) + amount
  {
    var last := |counts| - 1;
    var updated := counts[k := counts[k] + amount];
    if k == last {
      assert updated[..last] == counts[..last];
    } else {
      assert updated[..last] == counts[..last][k := counts[k] + amount];
      SumUpdate(counts[..last], k, amount);
    }
  }

  /** Main result: the file's count is the sum of its functions' counts and of the findings that no
      function contains. */
  lemma {:induction false} FileCountSplits(root: Node)
    ensures Total(Findings(root, None, 0)) == Sum(Counts(root)) + Unowned(Findings(root, None, 0))
  {
    Owners(root, None, 0);
    ChargeConserves(|Functions(root)|, Findings(root, None, 0));
  }

  // ----- Directives among the findings -----

  lemma {:induction false} InnermostIs(functions: seq<Span>, at: Span)
    ensures IsFirstShortest(functions, at, Innermost(functions, at))
  {
    FirstShortestExists(functions, at, |functions|);
    assert functions[..|functions|] == functions;
  }

  lemma {:induction false} FirstShortestExists(functions: seq<Span>, at: Span, n: nat)
    requires n <= |functions|
    ensures exists k: Option<nat> :: IsFirstShortest(functions[..n], at, k)
  {
    if n == 0 {
      assert IsFirstShortest(functions[..0], at, None);
    } else {
      FirstShortestExists(functions, at, n - 1);
      var k: Option<nat> :| IsFirstShortest(functions[..n - 1], at, k);
      var fn := functions[n - 1];
      assert functions[..n] == functions[..n - 1] + [fn];
      var better := fn.Contains(at)
        && (k.None? || fn.end - fn.start < functions[k.value].end - functions[k.value].start);
      assert IsFirstShortest(functions[..n], at, if better then Some(n - 1) else k);
    }
  }

  lemma {:induction false} DirectivesNext(functions: seq<Span>, occurrences: seq<Occurrence>, i: nat)
    requires i < |occurrences|
    ensures
      var f := Finding(occurrences[i].span, occurrences[i].count, Innermost(functions, occurrences[i].span));
      var before, after := Directives(functions, occurrences[..i]), Directives(functions, occurrences[..i + 1]);
      forall k: nat :: Charged(after, k) == Charged(before, k) + (if f.owner == Some(k) then f.amount else 0)
  {
    var before, after := Directives(functions, occurrences[..i]), Directives(functions, occurrences[..i + 1]);
    assert after[..i] == before;
  }

  lemma {:induction false} DirectivesTotal(functions: seq<Span>, occurrences: seq<Occurrence>)
    ensures Total(Directives(functions, occurrences)) == CountDirectives(occurrences)
  {
    if occurrences != [] {
      var fewer := occurrences[..|occurrences| - 1];
      DirectivesTotal(functions, fewer);
      assert Directives(functions, occurrences)[..|fewer|] == Directives(functions, fewer);
    }
  }

  lemma {:induction false} AllCharged(root: Node, occurrences: seq<Occurrence>)
    ensures Total(AllFindings(root, occurrences)) == Total(Findings(root, None, 0)) + CountDirectives(occurrences)
    ensures
      var fs, gs := Findings(root, None, 0), Directives(Functions(root), occurrences);
      forall k: nat :: Charged(AllFindings(root, occurrences), k) == Charged(fs, k) + Charged(gs, k)
  {
    var fs, gs := Findings(root, None, 0), Directives(Functions(root), occurrences);
    TotalConcat(fs, gs);
    DirectivesTotal(Functions(root), occurrences);
    forall k: nat ensures Charged(fs + gs, k) == Charged(fs, k) + Charged(gs, k) {
      ChargedConcat(fs, gs, k);
    }
  }

  /** Main result: the file's count, directives included, is the sum of its functions' counts and of
      the findings that no function contains. */
  lemma {:induction false} FileSplits(root: Node, occurrences: seq<Occurrence>)
    ensures
      var fs := AllFindings(root, occurrences);
      Total(fs) == Sum(Charges(|Functions(root)|, fs)) + Unowned(fs)
  {
    Owners(root, None, 0);
    forall f | f in Directives(Functions(root), occurrences)
      ensures f.owner.Some? ==> f.owner.value < |Functions(root)|
    {
      InnermostIs(Functions(root), f.span);
    }
    ChargeConserves(|Functions(root)|, AllFindings(root, occurrences));
  }

  /** Of two functions, the later one lies beside the earlier one or strictly inside it. */
  ghost predicate Laminar(functions: seq<Span>) {
    forall i, j | 0 <= i < j < |functions| :: Below(functions[i], functions[j])
  }

  ghost predicate Below(f: Span, g: Span) {
    f.Apart(g) || (f.Contains(g) && f != g)
  }

  lemma {:induction false} FunctionsLaminar(t: Node)
    requires WellNested(t)
    ensures Laminar(Functions(t))
    decreases t
  {
    FunctionsOfLaminar(t, |t.children|);
    if t.isFunction {
      InsideBelow(t);
      LaminarConcat([t.span], FunctionsOf(t, |t.children|));
    }
  }

  lemma {:induction false} InsideBelow(t: Node)
    requires WellNested(t) && t.isFunction
    ensures forall g | g in FunctionsOf(t, |t.children|) :: Below(t.span, g)
  {
    ChildFunctions(t, |t.children|);
    forall g | g in FunctionsOf(t, |t.children|) ensures Below(t.span, g) {
      var k :| 0 <= k < |t.children| && t.children[k].span.Contains(g);
      assert t.children[k] in t.children;
    }
  }

  lemma {:induction false} FunctionsOfLaminar(t: Node, i: nat)
    requires WellNested(t) && i <= |t.children|
    ensures Laminar(FunctionsOf(t, i))
    decreases t, 0, i
  {
    if i > 0 {
      FunctionsOfLaminar(t, i - 1);
      FunctionsLaminar(t.children[i - 1]);
      LaterApart(t, i - 1);
      LaminarConcat(FunctionsOf(t, i - 1), Functions(t.children[i - 1]));
    }
  }

  lemma {:induction false} LaterApart(t: Node, i: nat)
    requires WellNested(t) && i < |t.children|
    ensures forall f, g | f in FunctionsOf(t, i) && g in Functions(t.children[i]) :: Below(f, g)
  {
    SiblingsApart(t, i);
    FunctionsInside(t.children[i]);
  }

  lemma {:induction false} LaminarConcat(fs: seq<Span>, gs: seq<Span>)
    requires Laminar(fs) && Laminar(gs) && forall f, g | f in fs && g in gs :: Below(f, g)
    ensures Laminar(fs + gs)
  {
    var all := fs + gs;
    forall i, j | 0 <= i < j < |all| ensures Below(all[i], all[j]) {
      if i < |fs| && j >= |fs| {
        assert all[i] in fs && all[j] in gs;
      }
    }
  }

  /** Main result: in a properly nested file the smallest function around a directive lies strictly
      inside every other around it; so all findings are charged by the same rule. */
  lemma {:induction false} AllChargesAgree(root: Node, occurrences: seq<Occurrence>)
    requires WellNested(root) && forall o | o in occurrences :: o.span.start < o.span.end
    ensures forall f | f in AllFindings(root, occurrences) :: IsInnermost(Functions(root), f.span, f.owner)
  {
    ChargesAgree(root);
    FunctionsLaminar(root);
    forall f | f in Directives(Functions(root), occurrences) ensures IsInnermost(Functions(root), f.span, f.owner) {
      var i :| 0 <= i < |occurrences| && f == Directives(Functions(root), occurrences)[i];
      assert occurrences[i] in occurrences;
      DirectiveInnermost(Functions(root), f.span);
    }
  }

  lemma {:induction false} DirectiveInnermost(functions: seq<Span>, at: Span)
    requires Laminar(functions) && at.start < at.end
    ensures IsInnermost(functions, at, Innermost(functions, at))
  {
    InnermostIs(functions, at);
    var k := Innermost(functions, at);
    if k.Some? {
      forall j: nat | j < |functions| && j != k.value && functions[j].Contains(at)
        ensures functions[j].Contains(functions[k.value]) && functions[j] != functions[k.value]
      {
        ShortestInside(functions, at, k.value, j);
      }
    }
  }

  lemma {:induction false} ShortestInside(functions: seq<Span>, at: Span, i: nat, j: nat)
    requires Laminar(functions) && at.start < at.end && IsFirstShortest(functions, at, Some(i))
    requires j < |functions| && j != i && functions[j].Contains(at)
    ensures functions[j].Contains(functions[i]) && functions[j] != functions[i]
  {
  }
}
