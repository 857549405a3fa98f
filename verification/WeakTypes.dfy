/** The weak-type search of scripts/type-safety-hotspots.ts: `containsWeakType` walks a type
    syntax tree and follows named aliases, cutting cycles with a set of the aliases on the
    current path.  The search is compared with an inductive definition of "a weak type is
    reachable" that has no such set. */
module WeakTypes {
  import opened Wrappers

  datatype Keyword = AnyKeyword | UnknownKeyword | ObjectKeyword | StringKeyword | OtherKeyword

  /** A member of a type literal: a signature with a (possibly missing) type, or another kind of
      member, whose type the search does not look at. */
  datatype Member = Signature(type_: TypeNode) | OtherMember

  /** A type syntax node.  `NoType` is the source's `undefined`, an absent type annotation. */
  datatype TypeNode =
    | NoType
    | KeywordType(keyword: Keyword)
    | Parenthesized(inner: TypeNode)
    | ArrayOf(element: TypeNode)
    | Tuple(elements: seq<TypeNode>)
    | UnionOrIntersection(types: seq<TypeNode>)
    | TypeLiteral(members: seq<Member>)
    | TypeOperator(operand: TypeNode)
    | IndexedAccess(object_: TypeNode, index: TypeNode)
    | Mapped(template: TypeNode)
    | Conditional(check: TypeNode, extends_: TypeNode, whenTrue: TypeNode, whenFalse: TypeNode)
    | FunctionOrConstructor(parameters: seq<TypeNode>, result: TypeNode)
    | TypePredicate(asserted: TypeNode)
    | Reference(name: Option<string>, arguments: seq<TypeNode>)
    | OtherNode

  type Aliases = map<string, TypeNode>

  predicate IsWeakKeyword(k: Keyword) {
    k.AnyKeyword? || k.UnknownKeyword? || k.ObjectKeyword?
  }

  /** Nodes that are weak by themselves: a weak keyword, or the empty type literal. */
  predicate WeakHere(t: TypeNode) {
    (t.KeywordType? && IsWeakKeyword(t.keyword)) || (t.TypeLiteral? && t.members == [])
  }

  /** The nodes the search inspects directly below `t`, in the order it inspects them. */
  function Children(t: TypeNode): (cs: seq<TypeNode>)
    ensures forall c | c in cs :: c.NoType? || c < t
  {
    match t
    case Parenthesized(inner) => [inner]
    case ArrayOf(element) => [element]
    case Tuple(elements) => elements
    case UnionOrIntersection(types) => types
    case TypeLiteral(members) =>
      seq(|members|, i requires 0 <= i < |members| =>
        if members[i].Signature? then members[i].type_ else NoType)
    case TypeOperator(operand) => [operand]
    case IndexedAccess(object_, index) => [object_, index]
    case Mapped(template) => [template]
    case Conditional(check, extends_, whenTrue, whenFalse) => [check, extends_, whenTrue, whenFalse]
    case FunctionOrConstructor(parameters, result) => parameters + [result]
    case Reference(_, arguments) => arguments
    case _ => []
  }

  /** `Record<string, V>` written with exactly two arguments; `V` is `t.arguments[1]`. */
  predicate IsStringRecord(t: TypeNode) {
    t.Reference? && t.name == Some("Record") && |t.arguments| == 2 &&
    t.arguments[0] == KeywordType(StringKeyword)
  }

  predicate IsAlias(t: TypeNode, aliases: Aliases) {
    t.Reference? && t.name.Some? && t.name.value in aliases
  }

  // ----- The search -----

  /** `containsWeakType` run with room for `depth` nested calls; `None` when the calls do not fit,
      so a search that never returns is one that is `None` at every depth. */
  function Search(depth: nat, t: TypeNode, aliases: Aliases, seen: set<string>): Option<bool>
    decreases depth, 0
  {
    if depth == 0 then None
    else if WeakHere(t) then Some(true)
    else if t.Reference? then SearchReference(depth, t, aliases, seen)
    else SearchAny(depth - 1, Children(t), aliases, seen)
  }

  function SearchReference(depth: nat, t: TypeNode, aliases: Aliases, seen: set<string>): Option<bool>
    requires depth > 0 && t.Reference?
    decreases depth - 1, |t.arguments| + 2
  {
    // isDirectRecordStringUnknown starts over with an empty path set
    var direct := if IsStringRecord(t) then Search(depth - 1, t.arguments[1], aliases, {}) else Some(false);
    if direct != Some(false) then direct
    else
      var inArguments := SearchAny(depth - 1, t.arguments, aliases, seen);
      if inArguments != Some(false) then inArguments
      else if IsAlias(t, aliases) && t.name.value !in seen then
        Search(depth - 1, aliases[t.name.value], aliases, seen + {t.name.value})
      else Some(false)
  }

  /** `nodes.some(...)`: stops at the first node that answers true, or that does not answer. */
  function SearchAny(depth: nat, ts: seq<TypeNode>, aliases: Aliases, seen: set<string>): Option<bool>
    decreases depth, |ts| + 1
  {
    if ts == [] then Some(false)
    else
      var first := Search(depth, ts[0], aliases, seen);
      if first != Some(false) then first else SearchAny(depth, ts[1..], aliases, seen)
  }

  // ----- The inductive definition -----

  /** A weak type is reachable from `t` by a derivation of height at most `n`: what is weak and which
      parts count, constructor by constructor. */
  ghost predicate Derives(n: nat, t: TypeNode, aliases: Aliases) {
    n > 0 &&
    match t
    case NoType => false
    case KeywordType(keyword) => keyword == AnyKeyword || keyword == UnknownKeyword || keyword == ObjectKeyword
    case Parenthesized(inner) => Derives(n - 1, inner, aliases)
    case ArrayOf(element) => Derives(n - 1, element, aliases)
    case Tuple(elements) => exists c | c in elements :: Derives(n - 1, c, aliases)
    case UnionOrIntersection(types) => exists c | c in types :: Derives(n - 1, c, aliases)
    case TypeLiteral(members) => members == [] || exists c | Signature(c) in members :: Derives(n - 1, c, aliases)
    case TypeOperator(operand) => Derives(n - 1, operand, aliases)
    case IndexedAccess(object_, index) => Derives(n - 1, object_, aliases) || Derives(n - 1, index, aliases)
    case Mapped(template) => Derives(n - 1, template, aliases)
    case Conditional(check, extends_, whenTrue, whenFalse) =>
      || Derives(n - 1, check, aliases) || Derives(n - 1, extends_, aliases)
      || Derives(n - 1, whenTrue, aliases) || Derives(n - 1, whenFalse, aliases)
    case FunctionOrConstructor(parameters, result) =>
      (exists c | c in parameters :: Derives(n - 1, c, aliases)) || Derives(n - 1, result, aliases)
    case TypePredicate(_) => false
    case Reference(name, arguments) =>
      || (exists c | c in arguments :: Derives(n - 1, c, aliases))
      || (name.Some? && name.value in aliases && Derives(n - 1, aliases[name.value], aliases))
    case OtherNode => false
  }

  ghost predicate WeakReachable(t: TypeNode, aliases: Aliases) {
    exists n: nat :: Derives(n, t, aliases)
  }

  /** The same without expanding an alias of `seen`; the value of a record is looked at without that
      restriction. */
  ghost predicate DerivesAvoiding(n: nat, t: TypeNode, aliases: Aliases, seen: set<string>) {
    n > 0 &&
    (|| WeakHere(t)
     || (IsStringRecord(t) && DerivesAvoiding(n - 1, t.arguments[1], aliases, {}))
     || (exists c | c in Children(t) :: DerivesAvoiding(n - 1, c, aliases, seen))
     || (IsAlias(t, aliases) && t.name.value !in seen && DerivesAvoiding(n - 1, aliases[t.name.value], aliases, seen)))
  }

  ghost predicate WeakAvoiding(t: TypeNode, aliases: Aliases, seen: set<string>) {
    exists n: nat :: DerivesAvoiding(n, t, aliases, seen)
  }

  /** The node itself, its parts and its alias are where a derivation goes on. */
  lemma {:induction false} DerivesByParts(n: nat, t: TypeNode, aliases: Aliases)
    requires n > 0
    ensures Derives(n, t, aliases) <==>
      || WeakHere(t)
      || (exists c | c in Children(t) :: Derives(n - 1, c, aliases))
      || (IsAlias(t, aliases) && Derives(n - 1, aliases[t.name.value], aliases))
  {
    hide Children;
    if WeakHere(t) {
      WeakDerives(n, t, aliases);
    } else if Derives(n, t, aliases) {
      var _ := DerivesPart(n, t, aliases);
    }
    if IsAlias(t, aliases) && Derives(n - 1, aliases[t.name.value], aliases) {
      assert Derives(n, t, aliases);
    }
    if c :| c in Children(t) && Derives(n - 1, c, aliases) {
      PartDerives(n, t, c, aliases);
    }
  }

  lemma {:induction false} DerivesPart(n: nat, t: TypeNode, aliases: Aliases) returns (c: TypeNode)
    requires Derives(n, t, aliases) && !WeakHere(t)
    ensures
      || (c in Children(t) && Derives(n - 1, c, aliases))
      || (IsAlias(t, aliases) && Derives(n - 1, aliases[t.name.value], aliases))
  {
    var cs := Children(t);
    match t
    case Parenthesized(inner) => c := inner;
    case ArrayOf(element) => c := element;
    case Tuple(elements) => c :| c in elements && Derives(n - 1, c, aliases);
    case UnionOrIntersection(types) => c :| c in types && Derives(n - 1, c, aliases);
    case TypeLiteral(members) =>
      c :| Signature(c) in members && Derives(n - 1, c, aliases);
      var i :| 0 <= i < |members| && members[i] == Signature(c);
      assert cs[i] == c;
    case TypeOperator(operand) => c := operand;
    case IndexedAccess(object_, index) =>
      assert cs[0] == object_ && cs[1] == index;
      c := if Derives(n - 1, object_, aliases) then object_ else index;
    case Mapped(template) => c := template;
    case Conditional(check, extends_, whenTrue, whenFalse) =>
      assert cs[0] == check && cs[1] == extends_ && cs[2] == whenTrue && cs[3] == whenFalse;
      c := if Derives(n - 1, check, aliases) then check
           else if Derives(n - 1, extends_, aliases) then extends_
           else if Derives(n - 1, whenTrue, aliases) then whenTrue else whenFalse;
    case FunctionOrConstructor(parameters, result) =>
      assert cs[|parameters|] == result;
      if c' :| c' in parameters && Derives(n - 1, c', aliases) { c := c'; } else { c := result; }
    case Reference(_, arguments) =>
      if c' :| c' in arguments && Derives(n - 1, c', aliases) { c := c'; } else { c := t; }
    case _ => c := t;
  }

  lemma {:induction false} PartDerives(n: nat, t: TypeNode, c: TypeNode, aliases: Aliases)
    requires n > 0 && c in Children(t) && Derives(n - 1, c, aliases)
    ensures Derives(n, t, aliases)
  {
    if t.TypeLiteral? {
      var i :| 0 <= i < |t.members| && Children(t)[i] == c;
      assert c != NoType;
      assert Signature(c) in t.members;
    }
  }

  lemma {:induction false} WeakDerives(n: nat, t: TypeNode, aliases: Aliases)
    requires n > 0 && WeakHere(t)
    ensures Derives(n, t, aliases)
  {
  }

  /** With nothing to avoid, the two are one. */
  lemma {:induction false} AvoidingNothing(n: nat, t: TypeNode, aliases: Aliases)
    ensures DerivesAvoiding(n, t, aliases, {}) <==> Derives(n, t, aliases)
  {
    hide Children, Derives, DerivesAvoiding, WeakHere;
    if n == 0 {
      NoHeight(t, aliases);
    } else {
      DerivesByParts(n, t, aliases);
      forall c | c in Children(t) ensures DerivesAvoiding(n - 1, c, aliases, {}) <==> Derives(n - 1, c, aliases) {
        AvoidingNothing(n - 1, c, aliases);
      }
      if IsAlias(t, aliases) {
        AvoidingNothing(n - 1, aliases[t.name.value], aliases);
      }
      AvoidingByParts(n, t, aliases);
    }
  }

  lemma {:induction false} NoHeight(t: TypeNode, aliases: Aliases)
    ensures !DerivesAvoiding(0, t, aliases, {}) && !Derives(0, t, aliases)
  {
  }

  lemma {:induction false} AvoidingByParts(n: nat, t: TypeNode, aliases: Aliases)
    requires n > 0
    ensures DerivesAvoiding(n, t, aliases, {}) <==>
      || WeakHere(t)
      || (exists c | c in Children(t) :: DerivesAvoiding(n - 1, c, aliases, {}))
      || (IsAlias(t, aliases) && DerivesAvoiding(n - 1, aliases[t.name.value], aliases, {}))
  {
    hide Children, WeakHere;
    if IsStringRecord(t) {
      ArgumentsAreChildren(t);
      assert t.arguments[1] in Children(t);
    }
  }

  lemma {:induction false} ArgumentsAreChildren(t: TypeNode)
    requires t.Reference?
    ensures Children(t) == t.arguments
  {
  }

  /** A higher derivation that avoids less. */
  lemma {:induction false} AvoidingMonotone(
      m: nat, n: nat, t: TypeNode, aliases: Aliases, seen: set<string>, fewer: set<string>)
    requires m <= n && fewer <= seen && DerivesAvoiding(m, t, aliases, seen)
    ensures DerivesAvoiding(n, t, aliases, fewer)
    decreases m
  {
    hide Children, WeakHere;
    if WeakHere(t) {
    } else if IsStringRecord(t) && DerivesAvoiding(m - 1, t.arguments[1], aliases, {}) {
      AvoidingMonotone(m - 1, n - 1, t.arguments[1], aliases, {}, {});
    } else if c :| c in Children(t) && DerivesAvoiding(m - 1, c, aliases, seen) {
      AvoidingMonotone(m - 1, n - 1, c, aliases, seen, fewer);
    } else {
      AvoidingMonotone(m - 1, n - 1, aliases[t.name.value], aliases, seen, fewer);
    }
  }

  /** The least height of a derivation. */
  lemma {:induction false} LeastHeight(n: nat, t: TypeNode, aliases: Aliases, seen: set<string>) returns (m: nat)
    requires DerivesAvoiding(n, t, aliases, seen)
    ensures 0 < m <= n && DerivesAvoiding(m, t, aliases, seen) && !DerivesAvoiding(m - 1, t, aliases, seen)
  {
    if DerivesAvoiding(n - 1, t, aliases, seen) {
      m := LeastHeight(n - 1, t, aliases, seen);
    } else {
      m := n;
    }
  }

  // ----- Partial correctness: whenever the search answers, the answer is right -----

  lemma {:induction false} SearchSound(depth: nat, t: TypeNode, aliases: Aliases, seen: set<string>) returns (n: nat)
    requires Search(depth, t, aliases, seen) == Some(true)
    ensures DerivesAvoiding(n, t, aliases, seen)
    decreases depth, 0
  {
    if WeakHere(t) {
      n := 1;
    } else if t.Reference? {
      if IsStringRecord(t) && Search(depth - 1, t.arguments[1], aliases, {}) == Some(true) {
        n := SearchSound(depth - 1, t.arguments[1], aliases, {});
        n := n + 1;
      } else if SearchAny(depth - 1, t.arguments, aliases, seen) == Some(true) {
        n := SearchAnySound(depth - 1, t.arguments, aliases, seen);
        assert Children(t) == t.arguments;
        n := n + 1;
      } else {
        assert Search(depth, t, aliases, seen) == SearchReference(depth, t, aliases, seen);
        var x := t.name.value;
        n := SearchSound(depth - 1, aliases[x], aliases, seen + {x});
        AvoidingMonotone(n, n, aliases[x], aliases, seen + {x}, seen);
        n := n + 1;
      }
    } else {
      n := SearchAnySound(depth - 1, Children(t), aliases, seen);
      n := n + 1;
    }
  }

  lemma {:induction false} SearchAnySound(depth: nat, ts: seq<TypeNode>, aliases: Aliases, seen: set<string>)
      returns (n: nat)
    requires SearchAny(depth, ts, aliases, seen) == Some(true)
    ensures exists c | c in ts :: DerivesAvoiding(n, c, aliases, seen)
    decreases depth, |ts| + 1
  {
    if Search(depth, ts[0], aliases, seen) == Some(true) {
      n := SearchSound(depth, ts[0], aliases, seen);
    } else {
      n := SearchAnySound(depth, ts[1..], aliases, seen);
      var c :| c in ts[1..] && DerivesAvoiding(n, c, aliases, seen);
      assert c in ts;
    }
  }

  /** None of the aliases added to `base` on this path has a derivation of height at most `n`. */
  ghost predicate Cut(n: nat, aliases: Aliases, base: set<string>, seen: set<string>) {
    base <= seen && forall a | a in seen - base && a in aliases :: !DerivesAvoiding(n, aliases[a], aliases, base)
  }

  lemma {:induction false} CutMonotone(m: nat, n: nat, aliases: Aliases, base: set<string>, seen: set<string>)
    requires m <= n && Cut(n, aliases, base, seen)
    ensures Cut(m, aliases, base, seen)
  {
    forall a | a in seen - base && a in aliases ensures !DerivesAvoiding(m, aliases[a], aliases, base) {
      if DerivesAvoiding(m, aliases[a], aliases, base) { AvoidingMonotone(m, n, aliases[a], aliases, base, base); }
    }
  }

  lemma {:induction false} FoundHere(depth: nat, t: TypeNode, aliases: Aliases, seen: set<string>)
    requires depth == 0 || WeakHere(t)
    ensures Search(depth, t, aliases, seen) != Some(false)
  {
  }

  lemma {:induction false} FoundInRecord(depth: nat, t: TypeNode, aliases: Aliases, seen: set<string>)
    requires depth > 0 && IsStringRecord(t) && Search(depth - 1, t.arguments[1], aliases, {}) != Some(false)
    ensures Search(depth, t, aliases, seen) != Some(false)
  {
  }

  lemma {:induction false} FoundInChild(depth: nat, t: TypeNode, c: TypeNode, aliases: Aliases, seen: set<string>)
    requires depth > 0 && c in Children(t) && Search(depth - 1, c, aliases, seen) != Some(false)
    ensures Search(depth, t, aliases, seen) != Some(false)
  {
    SearchAnyFinds(depth - 1, Children(t), c, aliases, seen);
  }

  lemma {:induction false} FoundInAlias(depth: nat, t: TypeNode, aliases: Aliases, seen: set<string>)
    requires depth > 0 && IsAlias(t, aliases) && t.name.value !in seen
    requires Search(depth - 1, aliases[t.name.value], aliases, seen + {t.name.value}) != Some(false)
    ensures Search(depth, t, aliases, seen) != Some(false)
  {
  }

  /** The minimal-derivation argument: along a derivation whose remaining height is smaller than that
      of any alias added to the path, the path set never cuts off the way to the weak type. */
  lemma {:induction false} SearchComplete(
      depth: nat, n: nat, t: TypeNode, aliases: Aliases, base: set<string>, seen: set<string>)
    requires n > 0 && DerivesAvoiding(n, t, aliases, base) && Cut(n - 1, aliases, base, seen)
    ensures Search(depth, t, aliases, seen) != Some(false)
    decreases n
  {
    hide Search, Children;
    if depth == 0 || WeakHere(t) {
      FoundHere(depth, t, aliases, seen);
    } else {
      if IsStringRecord(t) && DerivesAvoiding(n - 1, t.arguments[1], aliases, {}) {
        SearchComplete(depth - 1, n - 1, t.arguments[1], aliases, {}, {});
        FoundInRecord(depth, t, aliases, seen);
      } else if c :| c in Children(t) && DerivesAvoiding(n - 1, c, aliases, base) {
        CutMonotone(n - 2, n - 1, aliases, base, seen);
        SearchComplete(depth - 1, n - 1, c, aliases, base, seen);
        FoundInChild(depth, t, c, aliases, seen);
      } else {
        var x := t.name.value;
        var m := LeastHeight(n - 1, aliases[x], aliases, base);
        CutMonotone(m - 1, n - 1, aliases, base, seen);
        SearchComplete(depth - 1, m, aliases[x], aliases, base, seen + {x});
        FoundInAlias(depth, t, aliases, seen);
      }
    }
  }

  lemma {:induction false} SearchAnyFinds(
      depth: nat, ts: seq<TypeNode>, c: TypeNode, aliases: Aliases, seen: set<string>)
    requires c in ts && Search(depth, c, aliases, seen) != Some(false)
    ensures SearchAny(depth, ts, aliases, seen) != Some(false)
  {
    if ts[0] != c {
      SearchAnyFinds(depth, ts[1..], c, aliases, seen);
    }
  }

  /** Main result, for every path set: an answer is true exactly when a weak type can be reached without
      expanding an alias of the path set. */
  lemma {:induction false} SearchExactFrom(depth: nat, t: TypeNode, aliases: Aliases, seen: set<string>)
    requires Search(depth, t, aliases, seen).Some?
    ensures Search(depth, t, aliases, seen).value <==> WeakAvoiding(t, aliases, seen)
  {
    if Search(depth, t, aliases, seen).value {
      var n := SearchSound(depth, t, aliases, seen);
    }
    if n: nat :| DerivesAvoiding(n, t, aliases, seen) {
      SearchComplete(depth, n, t, aliases, seen, seen);
    }
  }

  /** In particular, for every type and every alias map, cyclic ones included, a search started with an
      empty path set answers true exactly when a weak type is reachable. */
  lemma {:induction false} SearchExact(depth: nat, t: TypeNode, aliases: Aliases)
    requires Search(depth, t, aliases, {}).Some?
    ensures Search(depth, t, aliases, {}).value <==> WeakReachable(t, aliases)
  {
    SearchExactFrom(depth, t, aliases, {});
    if n: nat :| DerivesAvoiding(n, t, aliases, {}) {
      AvoidingNothing(n, t, aliases);
    }
    if n: nat :| Derives(n, t, aliases) {
      AvoidingNothing(n, t, aliases);
    }
  }

  // ----- Termination -----

  lemma {:induction false} SearchStable(d: nat, e: nat, t: TypeNode, aliases: Aliases, seen: set<string>)
    requires d <= e && Search(d, t, aliases, seen).Some?
    ensures Search(e, t, aliases, seen) == Search(d, t, aliases, seen)
    decreases d, 0
  {
    hide SearchAny, WeakHere, Children;
    if WeakHere(t) {
    } else if t.Reference? {
      if IsStringRecord(t) {
        SearchStable(d - 1, e - 1, t.arguments[1], aliases, {});
      }
      if !IsStringRecord(t) || Search(d - 1, t.arguments[1], aliases, {}) == Some(false) {
        SearchAnyStable(d - 1, e - 1, t.arguments, aliases, seen);
        if SearchAny(d - 1, t.arguments, aliases, seen) == Some(false)
           && IsAlias(t, aliases) && t.name.value !in seen {
          SearchStable(d - 1, e - 1, aliases[t.name.value], aliases, seen + {t.name.value});
        }
      }
    } else {
      SearchAnyStable(d - 1, e - 1, Children(t), aliases, seen);
    }
  }

  lemma {:induction false} SearchAnyStable(d: nat, e: nat, ts: seq<TypeNode>, aliases: Aliases, seen: set<string>)
    requires d <= e && SearchAny(d, ts, aliases, seen).Some?
    ensures SearchAny(e, ts, aliases, seen) == SearchAny(d, ts, aliases, seen)
    decreases d, |ts| + 1
  {
    if ts != [] {
      SearchStable(d, e, ts[0], aliases, seen);
      if Search(d, ts[0], aliases, seen) == Some(false) {
        SearchAnyStable(d, e, ts[1..], aliases, seen);
      }
    }
  }

  /** Every name referred to in `t`, at a position the search inspects. */
  ghost function Names(t: TypeNode): set<string>
    decreases t
  {
    (if t.Reference? && t.name.Some? then {t.name.value} else {}) +
    set c, x | c in Children(t) && !c.NoType? && x in Names(c) :: x
  }

  /** The values `V` of the `Record<string, V>` nodes in `t`. */
  ghost function RecordValues(t: TypeNode): set<TypeNode>
    decreases t
  {
    (if IsStringRecord(t) then {t.arguments[1]} else {}) +
    set c, v | c in Children(t) && !c.NoType? && v in RecordValues(c) :: v
  }

  /** A chain of aliases, each referred to by the definition of the one before. */
  ghost predicate Path(p: seq<string>, aliases: Aliases) {
    && |p| > 0
    && (forall x | x in p :: x in aliases)
    && (forall i | 0 <= i < |p| - 1 :: p[i + 1] in Names(aliases[p[i]]))
  }

  /** The aliases the search can get to from `t`. */
  ghost function Reach(t: TypeNode, aliases: Aliases): set<string> {
    set x | x in aliases && exists p :: Path(p, aliases) && p[0] in Names(t) && p[|p| - 1] == x
  }

  /** No cycle through an alias of `reach` passes through the value of a `Record<string, _>`. */
  ghost predicate NoRecordCycle(reach: set<string>, aliases: Aliases)
    requires reach <= aliases.Keys
  {
    forall x, v | x in reach && v in RecordValues(aliases[x]) :: x !in Reach(v, aliases)
  }

  lemma {:induction false} ReachDirect(t: TypeNode, x: string, aliases: Aliases)
    requires x in Names(t) && x in aliases
    ensures x in Reach(t, aliases)
  {
    var p := [x];
    assert Path(p, aliases) && p[0] in Names(t) && p[|p| - 1] == x;
  }

  lemma {:induction false} ReachNames(t: TypeNode, u: TypeNode, aliases: Aliases)
    requires Names(t) <= Names(u)
    ensures Reach(t, aliases) <= Reach(u, aliases)
  {
  }

  lemma {:induction false} ReachAlias(t: TypeNode, x: string, aliases: Aliases)
    requires x in Reach(t, aliases)
    ensures Reach(aliases[x], aliases) <= Reach(t, aliases)
  {
    hide Names;
    var p :| Path(p, aliases) && p[0] in Names(t) && p[|p| - 1] == x;
    forall y | y in Reach(aliases[x], aliases) ensures y in Reach(t, aliases) {
      var q :| Path(q, aliases) && q[0] in Names(aliases[x]) && q[|q| - 1] == y;
      PathConcat(p, q, aliases);
      assert (p + q)[0] in Names(t) && (p + q)[|p + q| - 1] == y;
    }
  }

  lemma {:induction false} PathConcat(p: seq<string>, q: seq<string>, aliases: Aliases)
    requires Path(p, aliases) && Path(q, aliases) && q[0] in Names(aliases[p[|p| - 1]])
    ensures Path(p + q, aliases)
  {
    hide Names;
    var r := p + q;
    forall i | 0 <= i < |r| - 1 ensures r[i + 1] in Names(aliases[r[i]]) {
      if i >= |p| {
        assert r[i] == q[i - |p|] && r[i + 1] == q[i - |p| + 1];
      }
    }
  }

  lemma {:induction false} RecordValueNames(t: TypeNode, v: TypeNode)
    requires v in RecordValues(t)
    ensures Names(v) <= Names(t)
    decreases t
  {
    if IsStringRecord(t) && v == t.arguments[1] {
      assert v in Children(t);
      if v.NoType? { assert Names(v) == {}; }
    } else {
      var c :| c in Children(t) && !c.NoType? && v in RecordValues(c);
      RecordValueNames(c, v);
    }
  }

  /** A node's size, for the inner part of the termination measure. */
  ghost function Size(t: TypeNode): nat
    decreases t
  {
    1 + SizeOf(t, Children(t))
  }

  ghost function SizeOf(t: TypeNode, ts: seq<TypeNode>): nat
    requires forall c | c in ts :: c.NoType? || c < t
    decreases t, |ts|
  {
    if ts == [] then 0
    else (if ts[0].NoType? then 1 else Size(ts[0])) + SizeOf(t, ts[1..])
  }

  lemma {:induction false} ChildSize(t: TypeNode, ts: seq<TypeNode>, c: TypeNode)
    requires c in ts && forall d | d in ts :: d.NoType? || d < t
    ensures Size(c) <= SizeOf(t, ts)
    decreases |ts|
  {
    if ts[0] == c {
      if c.NoType? { assert Children(c) == [] && Size(c) == 1; }
    } else {
      ChildSize(t, ts[1..], c);
    }
  }

  /** Everything a pending search of `t` may still jump to is below the bound: a record value is
      searched afresh, either inside the same definition (smaller size) or with fewer aliases in
      reach. */
  ghost predicate Bounded(t: TypeNode, aliases: Aliases, reach: set<string>, size: nat) {
    && Reach(t, aliases) <= reach
    && forall v | v in RecordValues(t) ::
         Reach(v, aliases) < reach || (Reach(v, aliases) == reach && Size(v) < size)
  }

  lemma {:induction false} ChildBounded(t: TypeNode, c: TypeNode, aliases: Aliases, reach: set<string>, size: nat)
    requires c in Children(t) && Bounded(t, aliases, reach, size)
    ensures Bounded(c, aliases, reach, size) && Size(c) < Size(t)
  {
    ChildSize(t, Children(t), c);
    if c.NoType? {
      assert Names(c) == {} && RecordValues(c) == {};
    }
    ReachNames(c, t, aliases);
  }

  lemma {:induction false} RecordValueSize(t: TypeNode, v: TypeNode)
    requires v in RecordValues(t)
    ensures Size(v) < Size(t)
    decreases t
  {
    if IsStringRecord(t) && v == t.arguments[1] {
      ChildSize(t, Children(t), v);
    } else {
      var c :| c in Children(t) && !c.NoType? && v in RecordValues(c);
      RecordValueSize(c, v);
      ChildSize(t, Children(t), c);
    }
  }

  /** A definition entered afresh is bounded by its own reach and size. */
  lemma {:induction false} FreshBounded(t: TypeNode, aliases: Aliases)
    ensures Bounded(t, aliases, Reach(t, aliases), Size(t))
  {
    forall v | v in RecordValues(t)
      ensures Reach(v, aliases) <= Reach(t, aliases) && Size(v) < Size(t)
    {
      RecordValueNames(t, v);
      RecordValueSize(t, v);
      ReachNames(v, t, aliases);
    }
  }

  lemma {:induction false} AliasBounded(t: TypeNode, aliases: Aliases, reach: set<string>, size: nat)
    requires reach <= aliases.Keys && NoRecordCycle(reach, aliases)
    requires IsAlias(t, aliases) && Bounded(t, aliases, reach, size)
    ensures Bounded(aliases[t.name.value], aliases, reach, size)
  {
    var x := t.name.value;
    ReachDirect(t, x, aliases);
    ReachAlias(t, x, aliases);
    forall v | v in RecordValues(aliases[x]) ensures Reach(v, aliases) < reach {
      RecordValueNames(aliases[x], v);
      ReachNames(v, aliases[x], aliases);
      assert x in reach && x !in Reach(v, aliases);
    }
  }

  lemma {:induction false} SearchAnswers(
      t: TypeNode, aliases: Aliases, seen: set<string>, reach: set<string>, size: nat) returns (d: nat)
    requires reach <= aliases.Keys && NoRecordCycle(reach, aliases) && Bounded(t, aliases, reach, size)
    ensures Search(d, t, aliases, seen).Some?
    decreases reach, size, aliases.Keys - seen, Size(t), |Children(t)| + 1
  {
    var kids := SearchAnyAnswers(t, Children(t), aliases, seen, reach, size);
    if t.Reference? {
      var direct := SearchDirectAnswers(t, aliases, seen, reach, size);
      var alias := SearchAliasAnswers(t, aliases, seen, reach, size);
      ReferenceAnswers(t, aliases, seen, kids, direct, alias);
      return kids + direct + alias + 1;
    } else {
      assert WeakHere(t) || Search(kids + 1, t, aliases, seen) == SearchAny(kids, Children(t), aliases, seen);
      return kids + 1;
    }
  }

  lemma {:induction false} SearchDirectAnswers(
      t: TypeNode, aliases: Aliases, seen: set<string>, reach: set<string>, size: nat) returns (d: nat)
    requires reach <= aliases.Keys && NoRecordCycle(reach, aliases) && Bounded(t, aliases, reach, size)
    ensures IsStringRecord(t) ==> Search(d, t.arguments[1], aliases, {}).Some?
    decreases reach, size, aliases.Keys - seen, 0, 0
  {
    d := 0;
    if IsStringRecord(t) {
      var v := t.arguments[1];
      assert v in RecordValues(t);
      FreshBounded(v, aliases);
      d := SearchAnswers(v, aliases, {}, Reach(v, aliases), Size(v));
    }
  }

  lemma {:induction false} SearchAliasAnswers(
      t: TypeNode, aliases: Aliases, seen: set<string>, reach: set<string>, size: nat) returns (d: nat)
    requires reach <= aliases.Keys && NoRecordCycle(reach, aliases) && Bounded(t, aliases, reach, size)
    ensures IsAlias(t, aliases) && t.name.value !in seen ==>
      Search(d, aliases[t.name.value], aliases, seen + {t.name.value}).Some?
    decreases reach, size, aliases.Keys - seen, 0, 0
  {
    d := 0;
    if IsAlias(t, aliases) && t.name.value !in seen {
      var x := t.name.value;
      AliasBounded(t, aliases, reach, size);
      assert x in aliases.Keys - seen;
      d := SearchAnswers(aliases[x], aliases, seen + {x}, reach, size);
    }
  }

  /** Enough depth for each part of a type reference is enough for the reference. */
  lemma {:induction false} ReferenceAnswers(
      t: TypeNode, aliases: Aliases, seen: set<string>, kids: nat, direct: nat, alias: nat)
    requires t.Reference? && SearchAny(kids, t.arguments, aliases, seen).Some?
    requires IsStringRecord(t) ==> Search(direct, t.arguments[1], aliases, {}).Some?
    requires IsAlias(t, aliases) && t.name.value !in seen ==>
      Search(alias, aliases[t.name.value], aliases, seen + {t.name.value}).Some?
    ensures Search(kids + direct + alias + 1, t, aliases, seen).Some?
  {
    var e := kids + direct + alias;
    SearchAnyStable(kids, e, t.arguments, aliases, seen);
    if IsStringRecord(t) { SearchStable(direct, e, t.arguments[1], aliases, {}); }
    if IsAlias(t, aliases) && t.name.value !in seen {
      SearchStable(alias, e, aliases[t.name.value], aliases, seen + {t.name.value});
    }
  }

  lemma {:induction false} SearchAnyAnswers(
      t: TypeNode, ts: seq<TypeNode>, aliases: Aliases, seen: set<string>, reach: set<string>, size: nat)
    returns (d: nat)
    requires reach <= aliases.Keys && NoRecordCycle(reach, aliases) && Bounded(t, aliases, reach, size)
    requires |ts| <= |Children(t)| && forall c | c in ts :: c in Children(t)
    ensures SearchAny(d, ts, aliases, seen).Some?
    decreases reach, size, aliases.Keys - seen, Size(t), |ts|
  {
    if ts == [] {
      d := 0;
    } else {
      ChildBounded(t, ts[0], aliases, reach, size);
      var first := SearchAnswers(ts[0], aliases, seen, reach, size);
      var rest := SearchAnyAnswers(t, ts[1..], aliases, seen, reach, size);
      d := first + rest;
      SearchStable(first, d, ts[0], aliases, seen);
      SearchAnyStable(rest, d, ts[1..], aliases, seen);
    }
  }

  /** Main result: when no alias cycle within reach passes through a record value, the search
      returns, with the right answer. */
  lemma {:induction false} SearchTerminates(t: TypeNode, aliases: Aliases)
    requires NoRecordCycle(Reach(t, aliases), aliases)
    ensures exists d: nat :: Search(d, t, aliases, {}) == Some(WeakReachable(t, aliases))
  {
    FreshBounded(t, aliases);
    var d := SearchAnswers(t, aliases, {}, Reach(t, aliases), Size(t));
    SearchExact(d, t, aliases);
  }

  // ----- The condition is exact for types that are not weak -----

  lemma {:induction false} AnyFalse(depth: nat, ts: seq<TypeNode>, c: TypeNode, aliases: Aliases, seen: set<string>)
    requires SearchAny(depth, ts, aliases, seen) == Some(false) && c in ts
    ensures Search(depth, c, aliases, seen) == Some(false)
  {
    if ts[0] != c {
      AnyFalse(depth, ts[1..], c, aliases, seen);
    }
  }

  /** A search that answers false has searched every child ... */
  lemma {:induction false} FalseChild(depth: nat, t: TypeNode, aliases: Aliases, seen: set<string>, c: TypeNode)
    requires Search(depth, t, aliases, seen) == Some(false) && c in Children(t)
    ensures depth > 0 && Search(depth - 1, c, aliases, seen) == Some(false)
  {
    AnyFalse(depth - 1, Children(t), c, aliases, seen);
  }

  /** ... the value of a record, with an empty path set, and every alias not on its path. */
  lemma {:induction false} FalseReference(depth: nat, t: TypeNode, aliases: Aliases, seen: set<string>)
    requires Search(depth, t, aliases, seen) == Some(false) && t.Reference?
    ensures depth > 0
    ensures IsStringRecord(t) ==> Search(depth - 1, t.arguments[1], aliases, {}) == Some(false)
    ensures IsAlias(t, aliases) && t.name.value !in seen ==>
      Search(depth - 1, aliases[t.name.value], aliases, seen + {t.name.value}) == Some(false)
  {
    assert Search(depth, t, aliases, seen) == SearchReference(depth, t, aliases, seen);
  }

  ghost predicate Distinct(p: seq<string>) {
    forall i, j | 0 <= i < j < |p| :: p[i] != p[j]
  }

  /** A path can be shortened until no alias occurs twice. */
  lemma {:induction false} SimplePath(p: seq<string>, aliases: Aliases) returns (q: seq<string>)
    requires Path(p, aliases)
    ensures Path(q, aliases) && Distinct(q) && q[0] == p[0] && q[|q| - 1] == p[|p| - 1]
    decreases |p|
  {
    if i, j :| 0 <= i < j < |p| && p[i] == p[j] {
      var shorter := p[..i] + p[j..];
      forall k | 0 <= k < |shorter| - 1 ensures shorter[k + 1] in Names(aliases[shorter[k]]) {
        var at := if k < i then k else k + (j - i);
        assert shorter[k] == p[at] && p[at + 1] in Names(aliases[p[at]]);
      }
      q := SimplePath(shorter, aliases);
    } else {
      q := p;
    }
  }

  lemma {:induction false} PathTail(p: seq<string>, aliases: Aliases)
    requires Path(p, aliases) && |p| > 1
    ensures Path(p[1..], aliases) && p[1] in Names(aliases[p[0]])
  {
    var q := p[1..];
    forall i | 0 <= i < |q| - 1 ensures q[i + 1] in Names(aliases[q[i]]) {
      assert p[i + 1 + 1] in Names(aliases[p[i + 1]]);
    }
    assert p[0 + 1] in Names(aliases[p[0]]);
  }

  lemma {:induction false} ChildNaming(t: TypeNode, x: string) returns (c: TypeNode)
    requires x in Names(t) && !(t.Reference? && t.name == Some(x))
    ensures c in Children(t) && x in Names(c)
  {
    c :| c in Children(t) && !c.NoType? && x in Names(c);
  }

  /** A search that answers false has expanded every alias at the end of a path that avoids `seen`. */
  lemma {:induction false} Follow(depth: nat, t: TypeNode, aliases: Aliases, seen: set<string>, p: seq<string>)
      returns (d: nat, s: set<string>)
    requires Search(depth, t, aliases, seen) == Some(false)
    requires Path(p, aliases) && Distinct(p) && p[0] in Names(t) && forall x | x in p :: x !in seen
    ensures d < depth && Search(d, aliases[p[|p| - 1]], aliases, s) == Some(false)
    decreases depth
  {
    hide Search, Names;
    if IsAlias(t, aliases) && t.name.value == p[0] {
      FalseReference(depth, t, aliases, seen);
      d, s := depth - 1, seen + {p[0]};
      if |p| > 1 {
        PathTail(p, aliases);
        d, s := Follow(depth - 1, aliases[p[0]], aliases, seen + {p[0]}, p[1..]);
      }
    } else {
      var c := ChildNaming(t, p[0]);
      FalseChild(depth, t, aliases, seen, c);
      d, s := Follow(depth - 1, c, aliases, seen, p);
    }
  }

  lemma {:induction false} ChildHolding(t: TypeNode, v: TypeNode) returns (c: TypeNode)
    requires v in RecordValues(t) && !(IsStringRecord(t) && v == t.arguments[1])
    ensures c in Children(t) && v in RecordValues(c)
  {
    c :| c in Children(t) && !c.NoType? && v in RecordValues(c);
  }

  /** ... and has searched every record value afresh. */
  lemma {:induction false} RecordValueSearched(
      depth: nat, t: TypeNode, aliases: Aliases, seen: set<string>, v: TypeNode)
      returns (d: nat)
    requires Search(depth, t, aliases, seen) == Some(false) && v in RecordValues(t)
    ensures d < depth && Search(d, v, aliases, {}) == Some(false)
    decreases depth
  {
    hide Search, RecordValues;
    if IsStringRecord(t) && v == t.arguments[1] {
      FalseReference(depth, t, aliases, seen);
      return depth - 1;
    }
    var c := ChildHolding(t, v);
    FalseChild(depth, t, aliases, seen, c);
    d := RecordValueSearched(depth - 1, c, aliases, seen, v);
  }

  /** So a record value on a cycle is searched within its own search: infinite descent. */
  lemma {:induction false} RecordCycleNeverFalse(depth: nat, x: string, v: TypeNode, aliases: Aliases)
    requires x in Reach(v, aliases) && v in RecordValues(aliases[x])
    ensures Search(depth, v, aliases, {}) != Some(false)
    decreases depth
  {
    if Search(depth, v, aliases, {}) == Some(false) {
      var p :| Path(p, aliases) && p[0] in Names(v) && p[|p| - 1] == x;
      var q := SimplePath(p, aliases);
      var d, s := Follow(depth, v, aliases, {}, q);
      var e := RecordValueSearched(d, aliases[x], aliases, s, v);
      RecordCycleNeverFalse(e, x, v, aliases);
    }
  }

  /** Main result: on a type from which no weak type is reachable, the search returns if and only if
      no alias cycle within reach passes through a record value. */
  lemma {:induction false} SearchReturnsIff(t: TypeNode, aliases: Aliases)
    requires !WeakReachable(t, aliases)
    ensures (exists d: nat :: Search(d, t, aliases, {}).Some?) <==> NoRecordCycle(Reach(t, aliases), aliases)
  {
    if NoRecordCycle(Reach(t, aliases), aliases) {
      SearchTerminates(t, aliases);
    }
    if d: nat :| Search(d, t, aliases, {}).Some? {
      SearchExact(d, t, aliases);
      forall x, v | x in Reach(t, aliases) && v in RecordValues(aliases[x])
        ensures x !in Reach(v, aliases)
      {
        var p :| Path(p, aliases) && p[0] in Names(t) && p[|p| - 1] == x;
        var q := SimplePath(p, aliases);
        var e, s := Follow(d, t, aliases, {}, q);
        var f := RecordValueSearched(e, aliases[x], aliases, s, v);
        if x in Reach(v, aliases) {
          RecordCycleNeverFalse(f, x, v, aliases);
        }
      }
    }
  }

  // ----- When the search returns, for all types: the order of the calls decides -----

  /** A call of the search.  Which calls it makes itself is told from the aliases, its path set and the
      order of the children alone, without the search. */
  datatype Call = Call(t: TypeNode, seen: set<string>)

  ghost predicate NoneWeak(ts: seq<TypeNode>, aliases: Aliases, seen: set<string>) {
    forall t | t in ts :: !WeakAvoiding(t, aliases, seen)
  }

  /** The type `Record<string, v>`. */
  ghost function RecordOf(v: TypeNode): TypeNode {
    Reference(Some("Record"), [KeywordType(StringKeyword), v])
  }

  /** `c` is the `i`-th part of `t`, in the order of the source text, that counts. */
  ghost predicate PartAt(t: TypeNode, i: nat, c: TypeNode) {
    match t
    case Parenthesized(inner) => i == 0 && c == inner
    case ArrayOf(element) => i == 0 && c == element
    case Tuple(elements) => i < |elements| && c == elements[i]
    case UnionOrIntersection(types) => i < |types| && c == types[i]
    case TypeLiteral(members) => i < |members| && members[i] == Signature(c)
    case TypeOperator(operand) => i == 0 && c == operand
    case IndexedAccess(object_, index) => (i == 0 && c == object_) || (i == 1 && c == index)
    case Mapped(template) => i == 0 && c == template
    case Conditional(check, extends_, whenTrue, whenFalse) =>
      || (i == 0 && c == check) || (i == 1 && c == extends_)
      || (i == 2 && c == whenTrue) || (i == 3 && c == whenFalse)
    case FunctionOrConstructor(parameters, result) =>
      (i < |parameters| && c == parameters[i]) || (i == |parameters| && c == result)
    case Reference(_, arguments) => i < |arguments| && c == arguments[i]
    case _ => false
  }

  lemma {:induction false} PartIsChild(t: TypeNode, i: nat, c: TypeNode)
    ensures PartAt(t, i, c) ==> i < |Children(t)| && Children(t)[i] == c
    ensures i < |Children(t)| && Children(t)[i] == c && c != NoType ==> PartAt(t, i, c)
  {
  }

  /** The node is no record whose value is weak. */
  ghost predicate NotDirect(t: TypeNode, aliases: Aliases) {
    forall v | t == RecordOf(v) :: !WeakAvoiding(v, aliases, {})
  }

  /** The call `a` inspects its `i`-th part: nothing on the left is weak. */
  ghost predicate CallsPart(a: Call, i: nat, b: Call, aliases: Aliases) {
    && PartAt(a.t, i, b.t) && b.seen == a.seen && NotDirect(a.t, aliases)
    && forall j: nat, c | j < i && PartAt(a.t, j, c) :: !WeakAvoiding(c, aliases, a.seen)
  }

  /** The calls that `a` makes itself: the value of a record, then the parts from left to right, then
      the alias, each only if nothing before it is weak, and none if `a` is weak by itself. */
  ghost predicate Calls(a: Call, b: Call, aliases: Aliases) {
    && !Derives(1, a.t, aliases)
    && (|| (a.t == RecordOf(b.t) && b.seen == {})
        || (exists i: nat :: CallsPart(a, i, b, aliases))
        || (IsAlias(a.t, aliases) && a.t.name.value !in a.seen && NotDirect(a.t, aliases)
            && NoneWeak(a.t.arguments, aliases, a.seen)
            && b == Call(aliases[a.t.name.value], a.seen + {a.t.name.value})))
  }

  lemma {:induction false} HereIsHeightOne(t: TypeNode, aliases: Aliases)
    ensures Derives(1, t, aliases) <==> WeakHere(t)
  {
  }

  lemma {:induction false} RecordIs(t: TypeNode)
    ensures IsStringRecord(t) <==> t.Reference? && |t.arguments| == 2 && t == RecordOf(t.arguments[1])
    ensures forall v | t == RecordOf(v) :: IsStringRecord(t) && v == t.arguments[1]
  {
  }

  lemma {:induction false} NotDirectIs(t: TypeNode, aliases: Aliases)
    ensures NotDirect(t, aliases) <==> (IsStringRecord(t) ==> !WeakAvoiding(t.arguments[1], aliases, {}))
  {
    RecordIs(t);
  }

  /** The `i`-th child, with nothing weak on the left. */
  ghost predicate CallsChild(a: Call, i: nat, b: Call, aliases: Aliases) {
    && i < |Children(a.t)| && b == Call(Children(a.t)[i], a.seen) && NoneWeak(Children(a.t)[..i], aliases, a.seen)
    && NotDirect(a.t, aliases)
  }

  lemma {:induction false} PartCalls(a: Call, i: nat, b: Call, aliases: Aliases)
    ensures CallsPart(a, i, b, aliases) ==> CallsChild(a, i, b, aliases)
    ensures CallsChild(a, i, b, aliases) && b.t != NoType ==> CallsPart(a, i, b, aliases)
  {
    hide WeakAvoiding, NotDirect, Children, PartAt;
    PartIsChild(a.t, i, b.t);
    if CallsPart(a, i, b, aliases) {
      forall c | c in Children(a.t)[..i] ensures !WeakAvoiding(c, aliases, a.seen) {
        var j :| 0 <= j < i && Children(a.t)[j] == c;
        PartIsChild(a.t, j, c);
        NoTypeIsNotWeak(aliases, a.seen);
      }
    }
    if CallsChild(a, i, b, aliases) && b.t != NoType {
      forall j: nat, c | j < i && PartAt(a.t, j, c) ensures !WeakAvoiding(c, aliases, a.seen) {
        PartIsChild(a.t, j, c);
        assert Children(a.t)[..i][j] == c;
      }
    }
  }

  lemma {:induction false} NoTypeIsNotWeak(aliases: Aliases, seen: set<string>)
    ensures !WeakAvoiding(NoType, aliases, seen)
  {
    forall n: nat ensures !DerivesAvoiding(n, NoType, aliases, seen) {
      assert Children(NoType) == [];
    }
  }

  /** `a` leads to `b` in `n` steps. */
  ghost predicate Leads(n: nat, a: Call, b: Call, aliases: Aliases) {
    if n == 0 then a == b else exists c :: Calls(a, c, aliases) && Leads(n - 1, c, b, aliases)
  }

  /** A call that is made and leads back to itself. */
  ghost predicate Circles(a: Call, aliases: Aliases) {
    exists m: nat, n: nat, c :: Leads(m, a, c, aliases) && n > 0 && Leads(n, c, c, aliases)
  }

  /** A search of several nodes that answers has had an answer from each node it came to. */
  lemma {:induction false} AnyAnswers(d: nat, ts: seq<TypeNode>, i: nat, aliases: Aliases, seen: set<string>)
    requires i < |ts| && SearchAny(d, ts, aliases, seen).Some? && NoneWeak(ts[..i], aliases, seen)
    ensures Search(d, ts[i], aliases, seen).Some?
    decreases i
  {
    if i > 0 {
      assert ts[..i][0] == ts[0] && ts[..i][1..] == ts[1..][..i - 1];
      SearchExactFrom(d, ts[0], aliases, seen);
      AnyAnswers(d, ts[1..], i - 1, aliases, seen);
    }
  }

  /** ... and it answers false if none of the nodes is weak. */
  lemma {:induction false} AnyFalls(d: nat, ts: seq<TypeNode>, aliases: Aliases, seen: set<string>)
    requires SearchAny(d, ts, aliases, seen).Some? && NoneWeak(ts, aliases, seen)
    ensures SearchAny(d, ts, aliases, seen) == Some(false)
  {
    if ts != [] {
      SearchExactFrom(d, ts[0], aliases, seen);
      AnyFalls(d, ts[1..], aliases, seen);
    }
  }

  /** A search that answers has had an answer from each call it made. */
  lemma {:induction false} CallAnswers(d: nat, a: Call, b: Call, aliases: Aliases)
    requires Search(d, a.t, aliases, a.seen).Some? && Calls(a, b, aliases)
    ensures d > 0 && Search(d - 1, b.t, aliases, b.seen).Some?
  {
    HereIsHeightOne(a.t, aliases);
    if a.t.Reference? {
      ReferenceCallAnswers(d, a, b, aliases);
    } else {
      var i: nat :| CallsPart(a, i, b, aliases);
      PartCalls(a, i, b, aliases);
      AnyAnswers(d - 1, Children(a.t), i, aliases, a.seen);
    }
  }

  lemma {:induction false} ReferenceCallAnswers(d: nat, a: Call, b: Call, aliases: Aliases)
    requires a.t.Reference? && Search(d, a.t, aliases, a.seen).Some? && Calls(a, b, aliases)
    ensures d > 0 && Search(d - 1, b.t, aliases, b.seen).Some?
  {
    assert Search(d, a.t, aliases, a.seen) == SearchReference(d, a.t, aliases, a.seen);
    RecordIs(a.t);
    if !(IsStringRecord(a.t) && b == Call(a.t.arguments[1], {})) {
      if IsStringRecord(a.t) {
        SearchExactFrom(d - 1, a.t.arguments[1], aliases, {});
      }
      NotDirectIs(a.t, aliases);
      if i: nat :| CallsPart(a, i, b, aliases) {
        PartCalls(a, i, b, aliases);
        AnyAnswers(d - 1, a.t.arguments, i, aliases, a.seen);
      } else {
        AnyFalls(d - 1, a.t.arguments, aliases, a.seen);
      }
    }
  }

  lemma {:induction false} LeadsAnswers(d: nat, n: nat, a: Call, b: Call, aliases: Aliases) returns (e: nat)
    requires Search(d, a.t, aliases, a.seen).Some? && Leads(n, a, b, aliases)
    ensures e + n <= d && Search(e, b.t, aliases, b.seen).Some?
    decreases n
  {
    hide Calls, Search;
    if n == 0 {
      e := d;
    } else {
      var c :| Calls(a, c, aliases) && Leads(n - 1, c, b, aliases);
      CallAnswers(d, a, c, aliases);
      e := LeadsAnswers(d - 1, n - 1, c, b, aliases);
    }
  }

  /** A call that leads back to itself never answers: infinite descent. */
  lemma {:induction false} CircleNeverAnswers(d: nat, n: nat, a: Call, aliases: Aliases)
    requires n > 0 && Leads(n, a, a, aliases)
    ensures Search(d, a.t, aliases, a.seen).None?
    decreases d
  {
    if Search(d, a.t, aliases, a.seen).Some? {
      var e := LeadsAnswers(d, n, a, a, aliases);
      CircleNeverAnswers(e, n, a, aliases);
    }
  }

  lemma {:induction false} CirclesNeverAnswer(d: nat, a: Call, aliases: Aliases)
    requires Circles(a, aliases)
    ensures Search(d, a.t, aliases, a.seen).None?
  {
    var m: nat, n: nat, c :| Leads(m, a, c, aliases) && n > 0 && Leads(n, c, c, aliases);
    if Search(d, a.t, aliases, a.seen).Some? {
      var e := LeadsAnswers(d, m, a, c, aliases);
      CircleNeverAnswers(e, n, c, aliases);
    }
  }

  lemma {:induction false} LeadsFurther(m: nat, n: nat, a: Call, b: Call, c: Call, aliases: Aliases)
    requires Leads(m, a, b, aliases) && Leads(n, b, c, aliases)
    ensures Leads(m + n, a, c, aliases)
    decreases m
  {
    if m > 0 {
      var x :| Calls(a, x, aliases) && Leads(m - 1, x, b, aliases);
      LeadsFurther(m - 1, n, x, b, c, aliases);
      assert Calls(a, x, aliases) && Leads(m + n - 1, x, c, aliases);
    }
  }

  /** `a` leads to the search of one of the record values in `done`, or to a circle. */
  ghost predicate Stuck(a: Call, done: set<TypeNode>, aliases: Aliases) {
    Circles(a, aliases) || exists n: nat, v :: n > 0 && v in done && Leads(n, a, Call(v, {}), aliases)
  }

  lemma {:induction false} StuckBefore(a: Call, b: Call, done: set<TypeNode>, aliases: Aliases)
    requires Calls(a, b, aliases) && Stuck(b, done, aliases)
    ensures Stuck(a, done, aliases)
  {
    assert Leads(0, b, b, aliases);
    assert Leads(1, a, b, aliases);
    if Circles(b, aliases) {
      var m: nat, n: nat, c :| Leads(m, b, c, aliases) && n > 0 && Leads(n, c, c, aliases);
      LeadsFurther(1, m, a, b, c, aliases);
    } else {
      var n: nat, v :| n > 0 && v in done && Leads(n, b, Call(v, {}), aliases);
      LeadsFurther(1, n, a, b, Call(v, {}), aliases);
    }
  }

  /** The same for the record value that has just been added. */
  lemma {:induction false} StuckAtValue(a: Call, v: TypeNode, done: set<TypeNode>, aliases: Aliases)
    requires Calls(a, Call(v, {}), aliases) && Stuck(Call(v, {}), done + {v}, aliases)
    ensures Stuck(a, done, aliases)
  {
    var b := Call(v, {});
    assert Leads(0, b, b, aliases);
    forall n: nat | n > 0 && Leads(n, b, b, aliases) ensures Circles(b, aliases) {
    }
    StuckBefore(a, b, done, aliases);
  }

  ghost predicate Answers(a: Call, aliases: Aliases) {
    exists d: nat :: Search(d, a.t, aliases, a.seen).Some?
  }

  ghost predicate AnswersFrom(a: Call, i: nat, aliases: Aliases) {
    i <= |Children(a.t)| && exists d: nat :: SearchAny(d, Children(a.t)[i..], aliases, a.seen).Some?
  }

  /** A set of record values that holds those of all its members, of `t` and of the aliases. */
  ghost predicate HoldsValues(all: set<TypeNode>, t: TypeNode, aliases: Aliases) {
    && RecordValues(t) <= all
    && (forall v | v in all :: RecordValues(v) <= all)
    && forall x | x in aliases :: RecordValues(aliases[x]) <= all
  }

  lemma {:induction false} ValuesInside(t: TypeNode, v: TypeNode)
    requires v in RecordValues(t)
    ensures RecordValues(v) <= RecordValues(t)
    decreases t
  {
    if IsStringRecord(t) && v == t.arguments[1] {
      assert v in Children(t);
      if v.NoType? { assert RecordValues(v) == {}; }
    } else {
      var c :| c in Children(t) && !c.NoType? && v in RecordValues(c);
      ValuesInside(c, v);
    }
  }

  ghost function AllValues(t: TypeNode, aliases: Aliases): set<TypeNode> {
    RecordValues(t) + set x, v | x in aliases && v in RecordValues(aliases[x]) :: v
  }

  lemma {:induction false} AllValuesHold(t: TypeNode, aliases: Aliases)
    ensures HoldsValues(AllValues(t, aliases), t, aliases)
  {
    forall v | v in AllValues(t, aliases) ensures RecordValues(v) <= AllValues(t, aliases) {
      if v in RecordValues(t) {
        ValuesInside(t, v);
      } else {
        var x :| x in aliases && v in RecordValues(aliases[x]);
        ValuesInside(aliases[x], v);
      }
    }
  }

  lemma {:induction false} HoldsChild(all: set<TypeNode>, t: TypeNode, c: TypeNode, aliases: Aliases)
    requires HoldsValues(all, t, aliases) && c in Children(t)
    ensures HoldsValues(all, c, aliases) && Size(c) < Size(t)
  {
    ChildSize(t, Children(t), c);
    if c.NoType? { assert RecordValues(c) == {}; }
  }

  /** Every call answers or is stuck. */
  lemma {:induction false} Decide(a: Call, aliases: Aliases, done: set<TypeNode>, all: set<TypeNode>)
    requires done <= all && HoldsValues(all, a.t, aliases)
    ensures Answers(a, aliases) || Stuck(a, done, aliases)
    decreases all - done, aliases.Keys - a.seen, Size(a.t), |Children(a.t)| + 2
  {
    if WeakHere(a.t) {
      assert Search(1, a.t, aliases, a.seen).Some?;
    } else if a.t.Reference? {
      DecideReference(a, aliases, done, all);
    } else {
      DecideChildren(a, 0, aliases, done, all);
      if AnswersFrom(a, 0, aliases) {
        var d: nat :| SearchAny(d, Children(a.t)[0..], aliases, a.seen).Some?;
        assert Children(a.t)[0..] == Children(a.t);
        assert Search(d + 1, a.t, aliases, a.seen).Some?;
      }
    }
  }

  lemma {:induction false} DecideChildren(a: Call, i: nat, aliases: Aliases, done: set<TypeNode>, all: set<TypeNode>)
    requires done <= all && HoldsValues(all, a.t, aliases) && !WeakHere(a.t)
    requires i <= |Children(a.t)| && NoneWeak(Children(a.t)[..i], aliases, a.seen) && NotDirect(a.t, aliases)
    ensures AnswersFrom(a, i, aliases) || Stuck(a, done, aliases)
    decreases all - done, aliases.Keys - a.seen, Size(a.t), |Children(a.t)| - i
  {
    hide Children, Search, SearchAny, CallsChild, CallsPart, NotDirect, WeakAvoiding, Stuck, Answers, HoldsValues;
    var ts := Children(a.t);
    if i == |ts| {
      NoneLeft(a, aliases);
    } else {
      var b := Call(ts[i], a.seen);
      HoldsChild(all, a.t, ts[i], aliases);
      Decide(b, aliases, done, all);
      if Answers(b, aliases) {
        ChildAnswers(a, i, aliases);
        if !AnswersFrom(a, i, aliases) {
          DecideChildren(a, i + 1, aliases, done, all);
        }
      } else {
        ChildCalled(a, i, b, aliases);
        StuckBefore(a, b, done, aliases);
      }
    }
  }

  lemma {:induction false} NoneLeft(a: Call, aliases: Aliases)
    ensures AnswersFrom(a, |Children(a.t)|, aliases)
  {
    hide Children;
    assert Children(a.t)[|Children(a.t)|..] == [];
    assert SearchAny(0, [], aliases, a.seen).Some?;
  }

  /** A child that does not answer is called. */
  lemma {:induction false} ChildCalled(a: Call, i: nat, b: Call, aliases: Aliases)
    requires !WeakHere(a.t) && i < |Children(a.t)| && b == Call(Children(a.t)[i], a.seen) && !Answers(b, aliases)
    requires NoneWeak(Children(a.t)[..i], aliases, a.seen) && NotDirect(a.t, aliases)
    ensures Calls(a, b, aliases)
  {
    hide Children, WeakAvoiding, NotDirect;
    if b.t.NoType? {
      NoTypeAnswers(aliases, b.seen);
    }
    HereIsHeightOne(a.t, aliases);
    PartCalls(a, i, b, aliases);
  }

  lemma {:induction false} NoTypeAnswers(aliases: Aliases, seen: set<string>)
    ensures Answers(Call(NoType, seen), aliases)
  {
    assert Search(1, NoType, aliases, seen) == Some(false);
  }

  /** One that answers true is the answer; after one that answers false, nothing up to it is weak. */
  lemma {:induction false} ChildAnswers(a: Call, i: nat, aliases: Aliases)
    requires i < |Children(a.t)| && Answers(Call(Children(a.t)[i], a.seen), aliases)
    requires NoneWeak(Children(a.t)[..i], aliases, a.seen)
    ensures AnswersFrom(a, i, aliases) || NoneWeak(Children(a.t)[..i + 1], aliases, a.seen)
    ensures AnswersFrom(a, i + 1, aliases) ==> AnswersFrom(a, i, aliases)
  {
    hide Children, Search, WeakAvoiding;
    var ts := Children(a.t);
    var d: nat :| Search(d, ts[i], aliases, a.seen).Some?;
    assert ts[i..][0] == ts[i] && ts[i..][1..] == ts[i + 1..];
    if Search(d, ts[i], aliases, a.seen).value {
      assert SearchAny(d, ts[i..], aliases, a.seen).Some?;
    } else {
      assert Search(d, ts[i], aliases, a.seen) == Some(false);
      SearchExactFrom(d, ts[i], aliases, a.seen);
      assert ts[..i + 1] == ts[..i] + [ts[i]];
      if AnswersFrom(a, i + 1, aliases) {
        AnswersNext(d, a, i, aliases);
      }
    }
  }

  lemma {:induction false} AnswersNext(d: nat, a: Call, i: nat, aliases: Aliases)
    requires i < |Children(a.t)| && AnswersFrom(a, i + 1, aliases)
    requires Search(d, Children(a.t)[i], aliases, a.seen) == Some(false)
    ensures AnswersFrom(a, i, aliases)
  {
    var ts := Children(a.t);
    var e: nat :| SearchAny(e, ts[i + 1..], aliases, a.seen).Some?;
    SearchStable(d, d + e, ts[i], aliases, a.seen);
    SearchAnyStable(e, d + e, ts[i + 1..], aliases, a.seen);
    assert ts[i..][0] == ts[i] && ts[i..][1..] == ts[i + 1..];
    assert SearchAny(d + e, ts[i..], aliases, a.seen).Some?;
  }

  /** The value of a record has been searched and is not weak. */
  ghost predicate DirectFalls(t: TypeNode, aliases: Aliases) {
    IsStringRecord(t) ==> exists d: nat :: Search(d, t.arguments[1], aliases, {}) == Some(false)
  }

  lemma {:induction false} DecideReference(a: Call, aliases: Aliases, done: set<TypeNode>, all: set<TypeNode>)
    requires done <= all && HoldsValues(all, a.t, aliases) && a.t.Reference?
    ensures Answers(a, aliases) || Stuck(a, done, aliases)
    decreases all - done, aliases.Keys - a.seen, Size(a.t), |Children(a.t)| + 1
  {
    if IsStringRecord(a.t) {
      DecideDirect(a, aliases, done, all);
      if !Stuck(a, done, aliases) {
        var d: nat :| Search(d, a.t.arguments[1], aliases, {}).Some?;
        if Search(d, a.t.arguments[1], aliases, {}).value {
          assert SearchReference(d + 1, a.t, aliases, a.seen) == Some(true);
          assert Search(d + 1, a.t, aliases, a.seen).Some?;
        } else {
          assert Search(d, a.t.arguments[1], aliases, {}) == Some(false);
          DecideArguments(a, aliases, done, all);
        }
      }
    } else {
      DecideArguments(a, aliases, done, all);
    }
  }

  lemma {:induction false} DecideDirect(a: Call, aliases: Aliases, done: set<TypeNode>, all: set<TypeNode>)
    requires done <= all && HoldsValues(all, a.t, aliases) && IsStringRecord(a.t)
    ensures Answers(Call(a.t.arguments[1], {}), aliases) || Stuck(a, done, aliases)
    decreases all - done, aliases.Keys - a.seen, Size(a.t), 0
  {
    var v := a.t.arguments[1];
    var b := Call(v, {});
    RecordIs(a.t);
    HereIsHeightOne(a.t, aliases);
    assert v in RecordValues(a.t) && Calls(a, b, aliases);
    if v in done {
      assert Leads(0, b, b, aliases);
      assert Leads(1, a, b, aliases);
    } else {
      assert v in all - done;
      Decide(b, aliases, done + {v}, all);
      if Stuck(b, done + {v}, aliases) {
        StuckAtValue(a, v, done, aliases);
      }
    }
  }

  lemma {:induction false} DecideArguments(a: Call, aliases: Aliases, done: set<TypeNode>, all: set<TypeNode>)
    requires done <= all && HoldsValues(all, a.t, aliases) && a.t.Reference? && DirectFalls(a.t, aliases)
    ensures Answers(a, aliases) || Stuck(a, done, aliases)
    decreases all - done, aliases.Keys - a.seen, Size(a.t), |Children(a.t)| + 1, 0
  {
    var ts := a.t.arguments;
    assert ts[0..] == ts;
    if IsStringRecord(a.t) {
      var d: nat :| Search(d, ts[1], aliases, {}) == Some(false);
      SearchExactFrom(d, ts[1], aliases, {});
    }
    NotDirectIs(a.t, aliases);
    DecideChildren(a, 0, aliases, done, all);
    if AnswersFrom(a, 0, aliases) {
      var kids: nat :| SearchAny(kids, ts, aliases, a.seen).Some?;
      if SearchAny(kids, ts, aliases, a.seen).value {
        ArgumentsAnswer(kids, a, aliases);
      } else {
        assert SearchAny(kids, ts, aliases, a.seen) == Some(false);
        DecideAlias(kids, a, aliases, done, all);
      }
    }
  }

  lemma {:induction false} ArgumentsAnswer(kids: nat, a: Call, aliases: Aliases)
    requires a.t.Reference? && DirectFalls(a.t, aliases)
      && SearchAny(kids, a.t.arguments, aliases, a.seen) == Some(true)
    ensures Answers(a, aliases)
  {
    var direct: nat := 0;
    if IsStringRecord(a.t) {
      direct :| Search(direct, a.t.arguments[1], aliases, {}) == Some(false);
      SearchStable(direct, kids + direct, a.t.arguments[1], aliases, {});
    }
    SearchAnyStable(kids, kids + direct, a.t.arguments, aliases, a.seen);
    assert SearchReference(kids + direct + 1, a.t, aliases, a.seen).Some?;
    assert WeakHere(a.t) || Search(kids + direct + 1, a.t, aliases, a.seen).Some?;
  }

  lemma {:induction false} NoneFound(d: nat, ts: seq<TypeNode>, aliases: Aliases, seen: set<string>)
    requires SearchAny(d, ts, aliases, seen) == Some(false)
    ensures NoneWeak(ts, aliases, seen)
  {
    forall t | t in ts ensures !WeakAvoiding(t, aliases, seen) {
      AnyFalse(d, ts, t, aliases, seen);
      SearchExactFrom(d, t, aliases, seen);
    }
  }

  lemma {:induction false} DecideAlias(kids: nat, a: Call, aliases: Aliases, done: set<TypeNode>, all: set<TypeNode>)
    requires done <= all && HoldsValues(all, a.t, aliases) && a.t.Reference? && DirectFalls(a.t, aliases)
    requires SearchAny(kids, a.t.arguments, aliases, a.seen) == Some(false)
    ensures Answers(a, aliases) || Stuck(a, done, aliases)
    decreases all - done, aliases.Keys - a.seen, Size(a.t), 0
  {
    var direct: nat, alias: nat := 0, 0;
    if IsStringRecord(a.t) {
      direct :| Search(direct, a.t.arguments[1], aliases, {}) == Some(false);
      SearchExactFrom(direct, a.t.arguments[1], aliases, {});
    }
    if IsAlias(a.t, aliases) && a.t.name.value !in a.seen {
      var x := a.t.name.value;
      var b := Call(aliases[x], a.seen + {x});
      assert x in aliases.Keys - a.seen;
      NoneFound(kids, a.t.arguments, aliases, a.seen);
      NotDirectIs(a.t, aliases);
      HereIsHeightOne(a.t, aliases);
      assert Calls(a, b, aliases);
      Decide(b, aliases, done, all);
      if Stuck(b, done, aliases) {
        StuckBefore(a, b, done, aliases);
        return;
      }
      alias :| Search(alias, aliases[x], aliases, a.seen + {x}).Some?;
    }
    ReferenceAnswers(a.t, aliases, a.seen, kids, direct, alias);
    assert Search(kids + direct + alias + 1, a.t, aliases, a.seen).Some?;
  }

  /** Main result, for every type and every alias map: the search returns if and only if none of the
      calls that it makes, in its order from left to right, leads back to itself. */
  lemma {:induction false} SearchReturnsExact(t: TypeNode, aliases: Aliases)
    ensures (exists d: nat :: Search(d, t, aliases, {}).Some?) <==> !Circles(Call(t, {}), aliases)
  {
    var a := Call(t, {});
    AllValuesHold(t, aliases);
    Decide(a, aliases, {}, AllValues(t, aliases));
    if Circles(a, aliases) {
      forall d: nat ensures Search(d, t, aliases, {}).None? {
        CirclesNeverAnswer(d, a, aliases);
      }
    } else {
      assert !Stuck(a, {}, aliases);
      var d: nat :| Search(d, a.t, aliases, a.seen).Some?;
      assert Search(d, t, aliases, {}).Some?;
    }
  }

  /** So the order of the children matters: with `type A = Record<string, A>`, the search of `any | A`
      returns and that of `A | any` does not. */
  lemma {:induction false} OrderMatters(depth: nat)
    ensures
      var a, any := Reference(Some("A"), []), KeywordType(AnyKeyword);
      var aliases := map["A" := Reference(Some("Record"), [KeywordType(StringKeyword), a])];
      && Search(2, UnionOrIntersection([any, a]), aliases, {}) == Some(true)
      && Search(depth, UnionOrIntersection([a, any]), aliases, {}) == None
  {
    var a, any := Reference(Some("A"), []), KeywordType(AnyKeyword);
    var aliases := map["A" := Reference(Some("Record"), [KeywordType(StringKeyword), a])];
    assert Search(1, any, aliases, {}) == Some(true);
    assert SearchAny(1, [any, a], aliases, {}) == Some(true);
    if depth > 0 {
      RecordCycleDiverges(depth - 1, {});
      assert SearchAny(depth - 1, [a, any], aliases, {}) == None;
    }
  }

  /** `type A = Record<string, A>`: the search of `A` fits in no depth at all, because each record
      value is searched with a new, empty path set. */
  lemma {:induction false} RecordCycleDiverges(depth: nat, seen: set<string>)
    requires "A" !in seen
    ensures
      var body := Reference(Some("Record"), [KeywordType(StringKeyword), Reference(Some("A"), [])]);
      Search(depth, Reference(Some("A"), []), map["A" := body], seen) == None
    decreases depth
  {
    var a := Reference(Some("A"), []);
    var body := Reference(Some("Record"), [KeywordType(StringKeyword), a]);
    var aliases := map["A" := body];
    if depth > 0 {
      assert SearchAny(depth - 1, a.arguments, aliases, seen) == Some(false);
      assert SearchReference(depth, a, aliases, seen) == Search(depth - 1, body, aliases, seen + {"A"});
    }
    if depth > 1 {
      assert IsStringRecord(body) && body.arguments[1] == a;
      RecordCycleDiverges(depth - 2, {});
      assert Search(depth - 2, a, aliases, {}) == None;
      assert SearchReference(depth - 1, body, aliases, seen + {"A"}) == None;
    }
  }
}
