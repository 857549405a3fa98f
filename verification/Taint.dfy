/** The repeat-until-unchanged loops of scripts/find-source-shape-tests.ts, which compute the
    variables that derive from production paths and from source text.  What the regular expressions
    find in a declaration is given as flags and sets of names. */
module Taint {
  import opened Wrappers

  /** A path expression: whether it looks like a fixture or a configuration file, whether it names a
      production path itself, and the identifiers in it. */
  datatype PathExpr = PathExpr(excluded: bool, hint: bool, mentions: set<string>)

  /** An initializer that is a call: whether it reads a file, the name of the function it calls, and
      its arguments. */
  datatype Call = Call(readsFile: bool, target: Option<string>, arguments: seq<PathExpr>)

  /** A variable declaration.  `mentions` are the identifiers in the initializer's text, and
      `pathMentions` those in its normalized text; `nestedReads` are the paths of the file reads in it
      that are in no nested function. */
  datatype Decl = Decl(
    name: string, mentions: set<string>, pathMentions: set<string>,
    pathLikeName: bool, repositoryRoot: bool, productionPathHint: bool, fixtureOrConfigPath: bool,
    nestedReads: seq<PathExpr>, call: Option<Call>, readsFile: bool, executionResult: bool, localCollector: bool)

  /** A file read in a function's body: its path, and whether a parameter occurs in that. */
  datatype Read = Read(path: PathExpr, parameterized: bool)

  /** A function with the file reads of its body in the order of the walk. */
  datatype Function = Function(name: string, executionResult: bool, fileReads: seq<Read>)

  /** When a declaration joins the set: always, or once one of the names it uses is in the set. */
  datatype Rule = Rule(name: string, always: bool, uses: set<string>)

  predicate Fires(r: Rule, names: set<string>) {
    r.always || r.uses * names != {}
  }

  /** collectProductionPathVars */
  function PathRule(d: Decl): Rule {
    if d.fixtureOrConfigPath then Rule(d.name, false, {})
    else Rule(d.name, d.repositoryRoot || d.productionPathHint, if d.pathLikeName then d.pathMentions else {})
  }

  /** collectSourceVars */
  function SourceRule(d: Decl, productionPathVars: set<string>): Rule {
    if d.executionResult then Rule(d.name, false, {})
    else Rule(d.name, d.readsFile && d.mentions * productionPathVars != {}, d.mentions)
  }

  /** collectSourceTreeShapeVars */
  function TreeRule(d: Decl): Rule {
    Rule(d.name, false, d.mentions)
  }

  function PathRules(ds: seq<Decl>): seq<Rule> {
    seq(|ds|, i requires 0 <= i < |ds| => PathRule(ds[i]))
  }

  function SourceRules(ds: seq<Decl>, productionPathVars: set<string>): seq<Rule> {
    seq(|ds|, i requires 0 <= i < |ds| => SourceRule(ds[i], productionPathVars))
  }

  function TreeRules(ds: seq<Decl>): seq<Rule> {
    seq(|ds|, i requires 0 <= i < |ds| => TreeRule(ds[i]))
  }

  // ----- Reads of production sources -----

  /** isProductionPathExpression */
  predicate IsProductionPath(e: PathExpr, productionPathVars: set<string>) {
    !e.excluded && (e.mentions * productionPathVars != {} || e.hint)
  }

  predicate IsSourceRead(r: Read, productionPathVars: set<string>) {
    r.parameterized || IsProductionPath(r.path, productionPathVars)
  }

  /** The first read in a function's body that counts: whether it is parameterized. */
  function FirstRead(rs: seq<Read>, productionPathVars: set<string>): Option<bool> {
    if rs == [] then None
    else if IsSourceRead(rs[0], productionPathVars) then Some(rs[0].parameterized)
    else FirstRead(rs[1..], productionPathVars)
  }

  function SourceFunction(f: Function, productionPathVars: set<string>): Option<bool> {
    if f.executionResult then None else FirstRead(f.fileReads, productionPathVars)
  }

  /** The functions, by name, that read a source; of two with the same name the later one counts. */
  function SourceFunctions(functions: seq<Function>, n: nat, productionPathVars: set<string>): map<string, bool>
    requires n <= |functions|
  {
    if n == 0 then map[]
    else
      var before := SourceFunctions(functions, n - 1, productionPathVars);
      match SourceFunction(functions[n - 1], productionPathVars)
      case None => before
      case Some(parameterized) => before[functions[n - 1].name := parameterized]
  }

  method CollectSourceFunctions(functions: seq<Function>, productionPathVars: set<string>)
      returns (sourceFunctions: map<string, bool>)
    ensures sourceFunctions == SourceFunctions(functions, |functions|, productionPathVars)
  {
    sourceFunctions := map[];
    for n := 0 to |functions|
      invariant sourceFunctions == SourceFunctions(functions, n, productionPathVars)
    {
      var f := functions[n];
      if f.executionResult {
        continue;
      }
      var read := FirstRead(f.fileReads, productionPathVars);
      if read.Some? {
        sourceFunctions := sourceFunctions[f.name := read.value];
      }
    }
  }

  /** sourceReadFromInitializer */
  predicate HasSourceRead(d: Decl, productionPathVars: set<string>, sourceFunctions: map<string, bool>) {
    if exists e | e in d.nestedReads :: IsProductionPath(e, productionPathVars) then true
    else if d.call.None? then false
    else
      var call := d.call.value;
      if call.readsFile && call.arguments != [] then IsProductionPath(call.arguments[0], productionPathVars)
      else
        && call.target.Some? && call.target.value in sourceFunctions
        && (sourceFunctions[call.target.value] ==>
              exists e | e in call.arguments :: IsProductionPath(e, productionPathVars))
  }

  /** The first loop of collectSourceTreeShapeVars. */
  predicate HasTreeRead(d: Decl, productionPathVars: set<string>, treeFunctions: set<string>) {
    || d.localCollector
    || (d.call.Some? && d.call.value.target.Some? && d.call.value.target.value in treeFunctions
        && exists e | e in d.call.value.arguments :: IsProductionPath(e, productionPathVars))
  }

  // ----- The least closed set -----

  ghost predicate Closed(rules: seq<Rule>, names: set<string>) {
    forall r | r in rules && Fires(r, names) :: r.name in names
  }

  ghost predicate IsLeast(rules: seq<Rule>, initial: set<string>, names: set<string>) {
    && initial <= names
    && Closed(rules, names)
    && forall other | initial <= other && Closed(rules, other) :: names <= other
  }

  /** What a loop keeps: it has only added what every closed set has. */
  ghost predicate BelowAllClosed(rules: seq<Rule>, initial: set<string>, names: set<string>) {
    initial <= names && forall other | initial <= other && Closed(rules, other) :: names <= other
  }

  lemma {:induction false} AddFired(rules: seq<Rule>, initial: set<string>, names: set<string>, r: Rule)
    requires BelowAllClosed(rules, initial, names) && r in rules && Fires(r, names)
    ensures BelowAllClosed(rules, initial, names + {r.name})
  {
    forall other | initial <= other && Closed(rules, other) ensures names + {r.name} <= other {
      assert r.uses * names <= r.uses * other;
    }
  }

  /** What one pass over the first `i` declarations keeps: if nothing has changed, none of them fires. */
  ghost predicate Pass(rules: seq<Rule>, i: nat, before: set<string>, names: set<string>, changed: bool)
    requires i <= |rules|
  {
    && before <= names
    && (changed ==> before < names)
    && (!changed ==> names == before && forall k | 0 <= k < i && Fires(rules[k], names) :: rules[k].name in names)
  }

  lemma {:induction false} QuietPassCloses(rules: seq<Rule>, initial: set<string>, names: set<string>)
    requires BelowAllClosed(rules, initial, names) && Pass(rules, |rules|, names, names, false)
    ensures IsLeast(rules, initial, names)
  {
    forall r | r in rules && Fires(r, names) ensures r.name in names {
      var k :| 0 <= k < |rules| && rules[k] == r;
    }
  }

  function Names(rules: seq<Rule>): set<string> {
    set r | r in rules :: r.name
  }

  method CollectProductionPathVars(variables: seq<Decl>) returns (pathVars: set<string>)
    ensures IsLeast(PathRules(variables), {}, pathVars)
  {
    ghost var rules := PathRules(variables);
    pathVars := {};
    var changed := true;
    while changed
      invariant BelowAllClosed(rules, {}, pathVars) && pathVars <= Names(rules)
      invariant !changed ==> Pass(rules, |rules|, pathVars, pathVars, false)
      decreases Names(rules) - pathVars, changed
    {
      changed := false;
      ghost var before := pathVars;
      for i := 0 to |variables|
        invariant BelowAllClosed(rules, {}, pathVars) && pathVars <= Names(rules)
        invariant Pass(rules, i, before, pathVars, changed)
      {
        var v := variables[i];
        assert rules[i] == PathRule(v) && rules[i].name in Names(rules);
        if v.name in pathVars {
          continue;
        }
        var derives := v.pathLikeName && exists name | name in pathVars :: name in v.pathMentions;
        if !v.fixtureOrConfigPath && (v.repositoryRoot || v.productionPathHint || derives) {
          assert Fires(rules[i], pathVars) by {
            if derives {
              var name :| name in pathVars && name in v.pathMentions;
              assert name in v.pathMentions * pathVars;
            }
          }
          AddFired(rules, {}, pathVars, rules[i]);
          pathVars := pathVars + {v.name};
          changed := true;
        } else {
          assert !Fires(rules[i], pathVars) by {
            if name :| name in rules[i].uses * pathVars {
              assert name in pathVars && name in v.pathMentions;
            }
          }
        }
      }
    }
    QuietPassCloses(rules, {}, pathVars);
  }

  /** The seeds of collectSourceVars: the initial names and every variable that reads a source. */
  function Seeds(
      ds: seq<Decl>, productionPathVars: set<string>, sourceFunctions: map<string, bool>, initial: set<string>)
    : set<string>
  {
    initial + set d | d in ds && HasSourceRead(d, productionPathVars, sourceFunctions) :: d.name
  }

  /** The first loop of collectSourceVars. */
  method SeedSourceVars(
      variables: seq<Decl>, productionPathVars: set<string>, sourceFunctions: map<string, bool>,
      initialSourceVars: set<string>)
      returns (sourceVars: set<string>)
    ensures sourceVars == Seeds(variables, productionPathVars, sourceFunctions, initialSourceVars)
  {
    sourceVars := initialSourceVars;
    for i := 0 to |variables|
      invariant sourceVars == Seeds(variables[..i], productionPathVars, sourceFunctions, initialSourceVars)
    {
      assert variables[..i + 1] == variables[..i] + [variables[i]];
      if HasSourceRead(variables[i], productionPathVars, sourceFunctions) {
        sourceVars := sourceVars + {variables[i].name};
      }
    }
    assert variables[..|variables|] == variables;
  }

  method CollectSourceVars(
      variables: seq<Decl>, productionPathVars: set<string>, sourceFunctions: map<string, bool>,
      initialSourceVars: set<string>)
      returns (sourceVars: set<string>)
    ensures IsLeast(SourceRules(variables, productionPathVars),
                    Seeds(variables, productionPathVars, sourceFunctions, initialSourceVars), sourceVars)
  {
    ghost var rules := SourceRules(variables, productionPathVars);
    sourceVars := SeedSourceVars(variables, productionPathVars, sourceFunctions, initialSourceVars);
    ghost var seeds := sourceVars;
    var changed := true;
    while changed
      invariant BelowAllClosed(rules, seeds, sourceVars) && sourceVars <= seeds + Names(rules)
      invariant !changed ==> Pass(rules, |rules|, sourceVars, sourceVars, false)
      decreases seeds + Names(rules) - sourceVars, changed
    {
      changed := false;
      ghost var before := sourceVars;
      for i := 0 to |variables|
        invariant BelowAllClosed(rules, seeds, sourceVars) && sourceVars <= seeds + Names(rules)
        invariant Pass(rules, i, before, sourceVars, changed)
      {
        var v := variables[i];
        assert rules[i] == SourceRule(v, productionPathVars) && rules[i].name in Names(rules);
        if v.name in sourceVars {
          continue;
        }
        var referencesSource := exists name | name in sourceVars :: name in v.mentions;
        var readsCollection := v.readsFile && exists name | name in productionPathVars :: name in v.mentions;
        assert referencesSource <==> v.mentions * sourceVars != {} by {
          if name :| name in v.mentions * sourceVars { assert name in sourceVars; }
          if name :| name in sourceVars && name in v.mentions { assert name in v.mentions * sourceVars; }
        }
        assert readsCollection <==> v.readsFile && v.mentions * productionPathVars != {} by {
          if name :| name in v.mentions * productionPathVars { assert name in productionPathVars; }
          if name :| name in productionPathVars && name in v.mentions {
            assert name in v.mentions * productionPathVars;
          }
        }
        if (referencesSource || readsCollection) && !v.executionResult {
          AddFired(rules, seeds, sourceVars, rules[i]);
          sourceVars := sourceVars + {v.name};
          changed := true;
        }
      }
    }
    QuietPassCloses(rules, seeds, sourceVars);
  }

  function TreeSeeds(ds: seq<Decl>, productionPathVars: set<string>, treeFunctions: set<string>): set<string> {
    set d | d in ds && HasTreeRead(d, productionPathVars, treeFunctions) :: d.name
  }

  method SeedTreeVars(variables: seq<Decl>, productionPathVars: set<string>, treeFunctions: set<string>)
      returns (sourceVars: set<string>)
    ensures sourceVars == TreeSeeds(variables, productionPathVars, treeFunctions)
  {
    sourceVars := {};
    for i := 0 to |variables|
      invariant sourceVars == TreeSeeds(variables[..i], productionPathVars, treeFunctions)
    {
      assert variables[..i + 1] == variables[..i] + [variables[i]];
      if HasTreeRead(variables[i], productionPathVars, treeFunctions) {
        sourceVars := sourceVars + {variables[i].name};
      }
    }
    assert variables[..|variables|] == variables;
  }

  method CollectSourceTreeVars(variables: seq<Decl>, productionPathVars: set<string>, treeFunctions: set<string>)
      returns (sourceVars: set<string>)
    ensures IsLeast(TreeRules(variables), TreeSeeds(variables, productionPathVars, treeFunctions), sourceVars)
  {
    ghost var rules := TreeRules(variables);
    sourceVars := SeedTreeVars(variables, productionPathVars, treeFunctions);
    ghost var seeds := sourceVars;
    var changed := true;
    while changed
      invariant BelowAllClosed(rules, seeds, sourceVars) && sourceVars <= seeds + Names(rules)
      invariant !changed ==> Pass(rules, |rules|, sourceVars, sourceVars, false)
      decreases seeds + Names(rules) - sourceVars, changed
    {
      changed := false;
      ghost var before := sourceVars;
      for i := 0 to |variables|
        invariant BelowAllClosed(rules, seeds, sourceVars) && sourceVars <= seeds + Names(rules)
        invariant Pass(rules, i, before, sourceVars, changed)
      {
        var v := variables[i];
        assert rules[i] == TreeRule(v) && rules[i].name in Names(rules);
        if v.name in sourceVars {
          continue;
        }
        if exists name | name in sourceVars :: name in v.mentions {
          assert Fires(rules[i], sourceVars) by {
            var name :| name in sourceVars && name in v.mentions;
            assert name in v.mentions * sourceVars;
          }
          AddFired(rules, seeds, sourceVars, rules[i]);
          sourceVars := sourceVars + {v.name};
          changed := true;
        } else {
          assert !Fires(rules[i], sourceVars) by {
            if name :| name in v.mentions * sourceVars { assert name in sourceVars; }
          }
        }
      }
    }
    QuietPassCloses(rules, seeds, sourceVars);
  }

  // ----- What the loops compute -----

  /** A derivation of the last rule's name: the first rule starts from the initial names or fires
      always, and each one uses the name that the one before derives. */
  ghost predicate IsDerivation(chain: seq<Rule>, rules: seq<Rule>, initial: set<string>) {
    && chain != []
    && (forall r | r in chain :: r in rules)
    && Fires(chain[0], initial)
    && forall i | 0 < i < |chain| :: chain[i - 1].name in chain[i].uses
  }

  ghost predicate Derived(name: string, rules: seq<Rule>, initial: set<string>) {
    exists chain: seq<Rule> :: IsDerivation(chain, rules, initial) && chain[|chain| - 1].name == name
  }

  lemma {:induction false} DerivationStays(chain: seq<Rule>, rules: seq<Rule>, initial: set<string>, names: set<string>)
    requires IsDerivation(chain, rules, initial) && initial <= names && Closed(rules, names)
    ensures chain[|chain| - 1].name in names
  {
    var last := chain[|chain| - 1];
    if |chain| == 1 {
      assert last.uses * initial <= last.uses * names;
    } else {
      var shorter := chain[..|chain| - 1];
      DerivationStays(shorter, rules, initial, names);
      assert chain[|chain| - 2].name in last.uses * names;
    }
    assert Fires(last, names);
  }

  lemma {:induction false} DerivationExtends(r: Rule, x: string, rules: seq<Rule>, initial: set<string>)
    requires r in rules && x in r.uses && Derived(x, rules, initial)
    ensures Derived(r.name, rules, initial)
  {
    var chain: seq<Rule> :| IsDerivation(chain, rules, initial) && chain[|chain| - 1].name == x;
    var longer := chain + [r];
    assert forall i | 0 < i < |longer| :: longer[i - 1].name in longer[i].uses;
    assert IsDerivation(longer, rules, initial) && longer[|longer| - 1].name == r.name;
  }

  /** Main result: the loops return the initial names and exactly those that a chain of declarations
      derives from them. */
  lemma {:induction false} LeastIsDerived(rules: seq<Rule>, initial: set<string>, names: set<string>)
    requires IsLeast(rules, initial, names)
    ensures forall name :: name in names <==> name in initial || Derived(name, rules, initial)
  {
    var derived := initial + set r: Rule | r in rules && Derived(r.name, rules, initial) :: r.name;
    forall r | r in rules && Fires(r, derived) ensures r.name in derived {
      if Fires(r, initial) {
        assert IsDerivation([r], rules, initial) && [r][|[r]| - 1].name == r.name;
      } else {
        var x :| x in r.uses * derived;
        assert x !in r.uses * initial;
        DerivationExtends(r, x, rules, initial);
      }
    }
    assert names <= derived;
    forall name | Derived(name, rules, initial) ensures name in names {
      var chain: seq<Rule> :| IsDerivation(chain, rules, initial) && chain[|chain| - 1].name == name;
      DerivationStays(chain, rules, initial, names);
    }
  }

  // ----- What the loops compute, told from the declarations -----

  ghost predicate Chain(chain: seq<Decl>, ds: seq<Decl>) {
    chain != [] && forall d | d in chain :: d in ds
  }

  ghost predicate Ends(chain: seq<Decl>, name: string) {
    chain != [] && chain[|chain| - 1].name == name
  }

  /** The first declaration is a repository root or names a production path; each later one has a path-like
      name and uses the one before; and none looks like a fixture or a configuration file. */
  ghost predicate PathChain(chain: seq<Decl>, ds: seq<Decl>) {
    && Chain(chain, ds)
    && (forall d | d in chain :: !d.fixtureOrConfigPath)
    && (chain[0].repositoryRoot || chain[0].productionPathHint)
    && forall i | 0 < i < |chain| :: chain[i].pathLikeName && chain[i - 1].name in chain[i].pathMentions
  }

  /** The expression is not excluded and names a production path, itself or through a variable. */
  ghost predicate NamesPath(e: PathExpr, paths: set<string>) {
    !e.excluded && (e.hint || exists x | x in paths :: x in e.mentions)
  }

  /** The declaration reads a source: in a nested read; as a file read of its first argument; or through a
      function that reads one, with a production path among the arguments if that asks for it. */
  ghost predicate ReadsSource(d: Decl, paths: set<string>, fns: map<string, bool>) {
    || (exists e | e in d.nestedReads :: NamesPath(e, paths))
    || (d.call.Some? && d.call.value.readsFile && d.call.value.arguments != []
        && NamesPath(d.call.value.arguments[0], paths))
    || (d.call.Some? && (d.call.value.readsFile ==> d.call.value.arguments == [])
        && d.call.value.target.Some? && d.call.value.target.value in fns
        && (!fns[d.call.value.target.value] || exists e | e in d.call.value.arguments :: NamesPath(e, paths)))
  }

  /** The first declaration reads a source, or uses an initial name, or reads a file and uses a production
      path; each later one uses the one before; and none but a first one that reads a source derives from
      the result of an execution. */
  ghost predicate SourceChain(
      chain: seq<Decl>, ds: seq<Decl>, paths: set<string>, fns: map<string, bool>, initial: set<string>)
  {
    && Chain(chain, ds)
    && (|| ReadsSource(chain[0], paths, fns)
        || (!chain[0].executionResult
            && (|| (exists x | x in initial :: x in chain[0].mentions)
                || (chain[0].readsFile && exists x | x in paths :: x in chain[0].mentions))))
    && forall i | 0 < i < |chain| :: !chain[i].executionResult && chain[i - 1].name in chain[i].mentions
  }

  /** The declaration collects a source tree, itself or through a function given a production path. */
  ghost predicate ReadsTree(d: Decl, paths: set<string>, treeFunctions: set<string>) {
    || d.localCollector
    || (d.call.Some? && (exists f | f in treeFunctions :: d.call.value.target == Some(f))
        && exists e | e in d.call.value.arguments :: NamesPath(e, paths))
  }

  ghost predicate TreeChain(chain: seq<Decl>, ds: seq<Decl>, paths: set<string>, treeFunctions: set<string>) {
    && Chain(chain, ds) && ReadsTree(chain[0], paths, treeFunctions)
    && forall i | 0 < i < |chain| :: chain[i - 1].name in chain[i].mentions
  }

  lemma {:induction false} NamesPathIs(e: PathExpr, paths: set<string>)
    ensures NamesPath(e, paths) <==> IsProductionPath(e, paths)
  {
    if x :| x in e.mentions * paths { assert x in paths && x in e.mentions; }
    if x :| x in paths && x in e.mentions { assert x in e.mentions * paths; }
  }

  lemma {:induction false} ReadsSourceIs(d: Decl, paths: set<string>, fns: map<string, bool>)
    ensures ReadsSource(d, paths, fns) <==> HasSourceRead(d, paths, fns)
  {
    hide NamesPath, IsProductionPath;
    forall e ensures NamesPath(e, paths) <==> IsProductionPath(e, paths) {
      NamesPathIs(e, paths);
    }
  }

  lemma {:induction false} ReadsTreeIs(d: Decl, paths: set<string>, treeFunctions: set<string>)
    ensures ReadsTree(d, paths, treeFunctions) <==> HasTreeRead(d, paths, treeFunctions)
  {
    hide NamesPath, IsProductionPath;
    forall e ensures NamesPath(e, paths) <==> IsProductionPath(e, paths) {
      NamesPathIs(e, paths);
    }
  }

  /** A chain goes on. */
  lemma {:induction false} PathChainNext(d: Decl, x: string, ds: seq<Decl>)
    requires d in ds && !d.fixtureOrConfigPath && d.pathLikeName && x in d.pathMentions
    requires exists chain: seq<Decl> :: PathChain(chain, ds) && Ends(chain, x)
    ensures exists chain: seq<Decl> :: PathChain(chain, ds) && Ends(chain, d.name)
  {
    var chain: seq<Decl> :| PathChain(chain, ds) && Ends(chain, x);
    var longer := chain + [d];
    assert forall i | 0 < i < |longer| :: longer[i].pathLikeName && longer[i - 1].name in longer[i].pathMentions;
    assert PathChain(longer, ds) && Ends(longer, d.name);
  }

  lemma {:induction false} PathChainStays(chain: seq<Decl>, ds: seq<Decl>, names: set<string>)
    requires PathChain(chain, ds) && Closed(PathRules(ds), names)
    ensures chain[|chain| - 1].name in names
  {
    var last := chain[|chain| - 1];
    assert last in chain;
    var k :| 0 <= k < |ds| && ds[k] == last;
    assert PathRules(ds)[k] in PathRules(ds);
    if |chain| > 1 {
      PathChainStays(chain[..|chain| - 1], ds, names);
      assert chain[|chain| - 2].name in last.pathMentions * names;
    }
  }

  /** Main result: the production path variables are the names at which such a chain of declarations ends. */
  lemma {:induction false} PathVarsExact(ds: seq<Decl>, names: set<string>)
    requires IsLeast(PathRules(ds), {}, names)
    ensures forall name :: name in names <==> exists chain: seq<Decl> :: PathChain(chain, ds) && Ends(chain, name)
  {
    var rules := PathRules(ds);
    var ended := set d | d in ds && (exists chain: seq<Decl> :: PathChain(chain, ds) && Ends(chain, d.name)) :: d.name;
    forall r | r in rules && Fires(r, ended) ensures r.name in ended {
      var k :| 0 <= k < |rules| && rules[k] == r;
      if r.always {
        assert PathChain([ds[k]], ds) && Ends([ds[k]], r.name);
      } else {
        var x :| x in r.uses * ended;
        PathChainNext(ds[k], x, ds);
      }
    }
    assert names <= ended;
    forall name | exists chain: seq<Decl> :: PathChain(chain, ds) && Ends(chain, name) ensures name in names {
      var chain: seq<Decl> :| PathChain(chain, ds) && Ends(chain, name);
      PathChainStays(chain, ds, names);
    }
  }

  lemma {:induction false} SourceChainNext(
      d: Decl, x: string, ds: seq<Decl>, paths: set<string>, fns: map<string, bool>, initial: set<string>)
    requires d in ds && !d.executionResult && x in d.mentions
    requires exists chain: seq<Decl> :: SourceChain(chain, ds, paths, fns, initial) && Ends(chain, x)
    ensures exists chain: seq<Decl> :: SourceChain(chain, ds, paths, fns, initial) && Ends(chain, d.name)
  {
    var chain: seq<Decl> :| SourceChain(chain, ds, paths, fns, initial) && Ends(chain, x);
    var longer := chain + [d];
    assert forall i | 0 < i < |longer| :: !longer[i].executionResult && longer[i - 1].name in longer[i].mentions;
    assert SourceChain(longer, ds, paths, fns, initial) && Ends(longer, d.name);
  }

  lemma {:induction false} SourceChainStays(
      chain: seq<Decl>, ds: seq<Decl>, paths: set<string>, fns: map<string, bool>, initial: set<string>,
      names: set<string>)
    requires SourceChain(chain, ds, paths, fns, initial)
    requires Seeds(ds, paths, fns, initial) <= names && Closed(SourceRules(ds, paths), names)
    ensures chain[|chain| - 1].name in names
  {
    hide ReadsSource, HasSourceRead;
    var last := chain[|chain| - 1];
    assert last in chain;
    var k :| 0 <= k < |ds| && ds[k] == last;
    assert SourceRules(ds, paths)[k] in SourceRules(ds, paths);
    if |chain| > 1 {
      SourceChainStays(chain[..|chain| - 1], ds, paths, fns, initial, names);
      assert chain[|chain| - 2].name in last.mentions * names;
    } else if ReadsSource(last, paths, fns) {
      ReadsSourceIs(last, paths, fns);
    } else if x :| x in initial && x in last.mentions {
      assert x in last.mentions * names;
    } else {
      var x :| x in paths && x in last.mentions;
      assert x in last.mentions * paths;
    }
  }

  lemma {:induction false} SourceChainOne(
      d: Decl, ds: seq<Decl>, paths: set<string>, fns: map<string, bool>, initial: set<string>)
    requires d in ds
    requires ReadsSource(d, paths, fns) || (!d.executionResult && exists x | x in initial :: x in d.mentions)
      || (!d.executionResult && d.readsFile && exists x | x in paths :: x in d.mentions)
    ensures exists chain: seq<Decl> :: SourceChain(chain, ds, paths, fns, initial) && Ends(chain, d.name)
  {
    assert SourceChain([d], ds, paths, fns, initial) && Ends([d], d.name);
  }

  /** Main result: the source variables are the initial ones and the names at which such a chain of
      declarations ends. */
  lemma {:induction false} SourceVarsExact(
      ds: seq<Decl>, paths: set<string>, fns: map<string, bool>, initial: set<string>, names: set<string>)
    requires IsLeast(SourceRules(ds, paths), Seeds(ds, paths, fns, initial), names)
    ensures forall name :: name in names <==>
      name in initial || exists chain: seq<Decl> :: SourceChain(chain, ds, paths, fns, initial) && Ends(chain, name)
  {
    hide ReadsSource, HasSourceRead, SourceChain;
    var rules := SourceRules(ds, paths);
    var ended := initial
      + set d | d in ds
          && (exists chain: seq<Decl> :: SourceChain(chain, ds, paths, fns, initial) && Ends(chain, d.name)) :: d.name;
    forall d | d in ds && HasSourceRead(d, paths, fns) ensures d.name in ended {
      ReadsSourceIs(d, paths, fns);
      SourceChainOne(d, ds, paths, fns, initial);
    }
    forall r | r in rules && Fires(r, ended) ensures r.name in ended {
      var k :| 0 <= k < |rules| && rules[k] == r;
      var d := ds[k];
      if r.always {
        var x :| x in d.mentions * paths;
        assert x in paths && x in d.mentions;
        SourceChainOne(d, ds, paths, fns, initial);
      } else {
        var x :| x in r.uses * ended;
        if x in initial {
          SourceChainOne(d, ds, paths, fns, initial);
        } else {
          SourceChainNext(d, x, ds, paths, fns, initial);
        }
      }
    }
    assert names <= ended;
    forall name | exists chain: seq<Decl> :: SourceChain(chain, ds, paths, fns, initial) && Ends(chain, name)
      ensures name in names
    {
      var chain: seq<Decl> :| SourceChain(chain, ds, paths, fns, initial) && Ends(chain, name);
      SourceChainStays(chain, ds, paths, fns, initial, names);
    }
  }

  lemma {:induction false} TreeChainNext(
      d: Decl, x: string, ds: seq<Decl>, paths: set<string>, treeFunctions: set<string>)
    requires d in ds && x in d.mentions
    requires exists chain: seq<Decl> :: TreeChain(chain, ds, paths, treeFunctions) && Ends(chain, x)
    ensures exists chain: seq<Decl> :: TreeChain(chain, ds, paths, treeFunctions) && Ends(chain, d.name)
  {
    var chain: seq<Decl> :| TreeChain(chain, ds, paths, treeFunctions) && Ends(chain, x);
    var longer := chain + [d];
    assert forall i | 0 < i < |longer| :: longer[i - 1].name in longer[i].mentions;
    assert TreeChain(longer, ds, paths, treeFunctions) && Ends(longer, d.name);
  }

  lemma {:induction false} TreeChainStays(
      chain: seq<Decl>, ds: seq<Decl>, paths: set<string>, treeFunctions: set<string>, names: set<string>)
    requires TreeChain(chain, ds, paths, treeFunctions)
    requires TreeSeeds(ds, paths, treeFunctions) <= names && Closed(TreeRules(ds), names)
    ensures chain[|chain| - 1].name in names
  {
    hide ReadsTree, HasTreeRead;
    var last := chain[|chain| - 1];
    assert last in chain;
    if |chain| > 1 {
      var k :| 0 <= k < |ds| && ds[k] == last;
      assert TreeRules(ds)[k] in TreeRules(ds);
      TreeChainStays(chain[..|chain| - 1], ds, paths, treeFunctions, names);
      assert chain[|chain| - 2].name in last.mentions * names;
    } else {
      ReadsTreeIs(last, paths, treeFunctions);
    }
  }

  /** The same for the source-tree variables. */
  lemma {:induction false} TreeVarsExact(
      ds: seq<Decl>, paths: set<string>, treeFunctions: set<string>, names: set<string>)
    requires IsLeast(TreeRules(ds), TreeSeeds(ds, paths, treeFunctions), names)
    ensures forall name :: name in names <==>
      exists chain: seq<Decl> :: TreeChain(chain, ds, paths, treeFunctions) && Ends(chain, name)
  {
    hide ReadsTree, HasTreeRead;
    var rules := TreeRules(ds);
    var ended := set d | d in ds
      && (exists chain: seq<Decl> :: TreeChain(chain, ds, paths, treeFunctions) && Ends(chain, d.name)) :: d.name;
    forall d | d in ds && HasTreeRead(d, paths, treeFunctions) ensures d.name in ended {
      ReadsTreeIs(d, paths, treeFunctions);
      assert TreeChain([d], ds, paths, treeFunctions) && Ends([d], d.name);
    }
    forall r | r in rules && Fires(r, ended) ensures r.name in ended {
      var k :| 0 <= k < |rules| && rules[k] == r;
      var x :| x in r.uses * ended;
      TreeChainNext(ds[k], x, ds, paths, treeFunctions);
    }
    assert names <= ended;
    forall name | exists chain: seq<Decl> :: TreeChain(chain, ds, paths, treeFunctions) && Ends(chain, name)
      ensures name in names
    {
      var chain: seq<Decl> :| TreeChain(chain, ds, paths, treeFunctions) && Ends(chain, name);
      TreeChainStays(chain, ds, paths, treeFunctions, names);
    }
  }

  /** The read counts: its path is a production path, or made from a parameter. */
  ghost predicate Counts(f: Function, j: nat, paths: set<string>) {
    j < |f.fileReads| && (f.fileReads[j].parameterized || NamesPath(f.fileReads[j].path, paths))
  }

  ghost predicate FirstCounting(f: Function, j: nat, paths: set<string>) {
    !f.executionResult && Counts(f, j, paths) && forall k: nat | k < j :: !Counts(f, k, paths)
  }

  lemma {:induction false} FirstReadIs(rs: seq<Read>, paths: set<string>) returns (j: nat)
    ensures j <= |rs| && (j < |rs| ==> rs[j].parameterized || NamesPath(rs[j].path, paths))
    ensures forall k | 0 <= k < j :: !rs[k].parameterized && !NamesPath(rs[k].path, paths)
    ensures FirstRead(rs, paths) == if j < |rs| then Some(rs[j].parameterized) else None
  {
    hide NamesPath, IsProductionPath;
    if rs == [] {
      j := 0;
    } else {
      NamesPathIs(rs[0].path, paths);
      if IsSourceRead(rs[0], paths) {
        j := 0;
      } else {
        j := FirstReadIs(rs[1..], paths);
        j := j + 1;
      }
    }
  }

  /** Main result: a name is a source function exactly when some function of that name that is no execution
      result has a read that counts; then the last such function decides, by its first such read. */
  lemma {:induction false} SourceFunctionsExact(functions: seq<Function>, n: nat, paths: set<string>, name: string)
    requires n <= |functions|
    ensures
      var fns := SourceFunctions(functions, n, paths);
      if name in fns then
        exists i, j: nat | 0 <= i < n && functions[i].name == name && FirstCounting(functions[i], j, paths) ::
          && fns[name] == functions[i].fileReads[j].parameterized
          && forall k, l: nat | i < k < n && functions[k].name == name :: !FirstCounting(functions[k], l, paths)
      else forall k, l: nat | 0 <= k < n && functions[k].name == name :: !FirstCounting(functions[k], l, paths)
  {
    hide NamesPath;
    if n > 0 {
      SourceFunctionsExact(functions, n - 1, paths, name);
      var f := functions[n - 1];
      var j := FirstReadIs(f.fileReads, paths);
      if j < |f.fileReads| && !f.executionResult {
        assert FirstCounting(f, j, paths);
      } else {
        assert forall l: nat :: !FirstCounting(f, l, paths);
      }
    }
  }

  /** `more` fires whenever `rules` does. */
  ghost predicate Stronger(rules: seq<Rule>, more: seq<Rule>) {
    forall r | r in rules :: exists s | s in more :: s.name == r.name && (r.always ==> s.always) && r.uses <= s.uses
  }

  /** Main result: more initial names, or declarations that fire more easily, never lose a name; in
      particular the order of the declarations, and repeating them, does not matter. */
  lemma {:induction false} LeastMonotone(
      rules: seq<Rule>, more: seq<Rule>, initial: set<string>, wider: set<string>, names: set<string>,
      names': set<string>)
    requires IsLeast(rules, initial, names) && IsLeast(more, wider, names')
    requires Stronger(rules, more) && initial <= wider
    ensures names <= names'
  {
    forall r | r in rules && Fires(r, names') ensures r.name in names' {
      var s: Rule :| s in more && s.name == r.name && (r.always ==> s.always) && r.uses <= s.uses;
      assert r.uses * names' <= s.uses * names';
      assert Fires(s, names');
    }
  }

  lemma {:induction false} OrderIrrelevant(
      rules: seq<Rule>, reordered: seq<Rule>, initial: set<string>, names: set<string>, names': set<string>)
    requires IsLeast(rules, initial, names) && IsLeast(reordered, initial, names')
    requires forall r: Rule :: r in rules <==> r in reordered
    ensures names == names'
  {
    LeastMonotone(rules, reordered, initial, initial, names, names');
    LeastMonotone(reordered, rules, initial, initial, names', names);
  }

  lemma {:induction false} PathMonotone(e: PathExpr, paths: set<string>, morePaths: set<string>)
    requires paths <= morePaths && IsProductionPath(e, paths)
    ensures IsProductionPath(e, morePaths)
  {
    assert e.mentions * paths <= e.mentions * morePaths;
  }

  /** More paths can only bring forward a read that is not parameterized. */
  lemma {:induction false} FirstReadMonotone(rs: seq<Read>, paths: set<string>, morePaths: set<string>)
    requires paths <= morePaths && FirstRead(rs, paths).Some?
    ensures FirstRead(rs, morePaths).Some?
    ensures FirstRead(rs, morePaths).value ==> FirstRead(rs, paths).value
  {
    if IsProductionPath(rs[0].path, paths) {
      PathMonotone(rs[0].path, paths, morePaths);
    }
    if !IsSourceRead(rs[0], paths) {
      FirstReadMonotone(rs[1..], paths, morePaths);
    }
  }

  /** A read that only more paths make count is not parameterized. */
  lemma {:induction false} NewReadDirect(rs: seq<Read>, paths: set<string>, morePaths: set<string>)
    requires FirstRead(rs, paths).None?
    ensures FirstRead(rs, morePaths) != Some(true)
  {
    if rs != [] && !IsSourceRead(rs[0], morePaths) {
      NewReadDirect(rs[1..], paths, morePaths);
    }
  }

  /** `more` has every function of `fns`, and asks no more of a call. */
  ghost predicate NoStricter(fns: map<string, bool>, more: map<string, bool>) {
    forall f | f in fns :: f in more && (more[f] ==> fns[f])
  }

  /** Although a later function hides an earlier one of the same name, and the first read of a body
      decides, more paths never lose a source function and never make it parameterized. */
  lemma {:induction false} SourceFunctionsMonotone(
      functions: seq<Function>, n: nat, paths: set<string>, morePaths: set<string>)
    requires paths <= morePaths && n <= |functions|
    ensures NoStricter(SourceFunctions(functions, n, paths), SourceFunctions(functions, n, morePaths))
  {
    if n > 0 {
      SourceFunctionsMonotone(functions, n - 1, paths, morePaths);
      var rs := functions[n - 1].fileReads;
      if FirstRead(rs, paths).Some? {
        FirstReadMonotone(rs, paths, morePaths);
      } else {
        NewReadDirect(rs, paths, morePaths);
      }
    }
  }

  lemma {:induction false} SourceReadMonotone(
      d: Decl, paths: set<string>, morePaths: set<string>, fns: map<string, bool>, more: map<string, bool>)
    requires paths <= morePaths && NoStricter(fns, more) && HasSourceRead(d, paths, fns)
    ensures HasSourceRead(d, morePaths, more)
  {
    if e :| e in d.nestedReads && IsProductionPath(e, paths) {
      PathMonotone(e, paths, morePaths);
    } else if d.call.value.readsFile && d.call.value.arguments != [] {
      PathMonotone(d.call.value.arguments[0], paths, morePaths);
    } else if more[d.call.value.target.value] {
      var e :| e in d.call.value.arguments && IsProductionPath(e, paths);
      PathMonotone(e, paths, morePaths);
    }
  }

  /** Main result: more production paths and more initial names never make a source variable
      disappear, through all that depends on the paths: the source functions of the file, the
      variables that read a source, and the rule of the loop. */
  lemma {:induction false} SourceVarsMonotone(
      functions: seq<Function>, ds: seq<Decl>, paths: set<string>, morePaths: set<string>,
      initial: set<string>, wider: set<string>, names: set<string>, names': set<string>)
    requires paths <= morePaths && initial <= wider
    requires IsLeast(SourceRules(ds, paths),
                     Seeds(ds, paths, SourceFunctions(functions, |functions|, paths), initial), names)
    requires IsLeast(SourceRules(ds, morePaths),
                     Seeds(ds, morePaths, SourceFunctions(functions, |functions|, morePaths), wider), names')
    ensures names <= names'
  {
    var fns := SourceFunctions(functions, |functions|, paths);
    var more := SourceFunctions(functions, |functions|, morePaths);
    SourceFunctionsMonotone(functions, |functions|, paths, morePaths);
    forall d | d in ds && HasSourceRead(d, paths, fns) ensures HasSourceRead(d, morePaths, more) {
      SourceReadMonotone(d, paths, morePaths, fns, more);
    }
    SourceRulesStronger(ds, paths, morePaths);
    LeastMonotone(SourceRules(ds, paths), SourceRules(ds, morePaths),
                  Seeds(ds, paths, fns, initial), Seeds(ds, morePaths, more, wider), names, names');
  }

  lemma {:induction false} SourceRulesStronger(ds: seq<Decl>, paths: set<string>, morePaths: set<string>)
    requires paths <= morePaths
    ensures Stronger(SourceRules(ds, paths), SourceRules(ds, morePaths))
  {
    var rules, more := SourceRules(ds, paths), SourceRules(ds, morePaths);
    forall r | r in rules
      ensures exists s | s in more :: s.name == r.name && (r.always ==> s.always) && r.uses <= s.uses
    {
      var i :| 0 <= i < |rules| && rules[i] == r;
      assert ds[i].mentions * paths <= ds[i].mentions * morePaths;
      assert more[i] in more;
    }
  }

  /** The same for source-tree reads. */
  lemma {:induction false} TreeVarsMonotone(
      ds: seq<Decl>, paths: set<string>, morePaths: set<string>, treeFunctions: set<string>,
      names: set<string>, names': set<string>)
    requires paths <= morePaths
    requires IsLeast(TreeRules(ds), TreeSeeds(ds, paths, treeFunctions), names)
    requires IsLeast(TreeRules(ds), TreeSeeds(ds, morePaths, treeFunctions), names')
    ensures names <= names'
  {
    forall d | d in ds && HasTreeRead(d, paths, treeFunctions) ensures HasTreeRead(d, morePaths, treeFunctions) {
      if !d.localCollector {
        var e :| e in d.call.value.arguments && IsProductionPath(e, paths);
        PathMonotone(e, paths, morePaths);
      }
    }
    LeastMonotone(TreeRules(ds), TreeRules(ds), TreeSeeds(ds, paths, treeFunctions),
                  TreeSeeds(ds, morePaths, treeFunctions), names, names');
  }
}
