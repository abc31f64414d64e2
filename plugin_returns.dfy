/**
  The Rollup plugin's markup classifier (`isJsx`) and its home-scope return
  collector (`findReturnStatements`), plugin/src/index.ts.

  The collector walks a function body with estree-walker. Its enter callback
  clears an `isHomeScope` flag on every nested function (throwing if that
  function carries no scope) and records each return statement met while the
  flag is set; its leave callback, on every node that owns a scope, resets
  the flag to "this node's scope's parent is the home scope".
*/
module PluginReturns {
  import opened Wrappers
  import opened Syntax

  /** The callee names of compiled markup factory calls. */
  const JsxIdents: seq<string> := ["jsx", "jsxs", "jsxDEV", "jsxsDEV", "_jsx", "_jsxs", "_jsxDEV", "_jsxsDEV", "h"]

  /** Parent links between the scopes a scope analysis attached to the tree;
      a scope absent from the map has no parent (the module's root scope). */
  type ScopeParents = map<ScopeId, ScopeId>

  function ParentOf(parents: ScopeParents, s: ScopeId): Option<ScopeId> {
    if s in parents then Some(parents[s]) else None
  }

  /** What the transform can throw: a function met without a scope, or a
      property read on the `undefined` a scope cursor can become. */
  datatype Thrown = MissingScope(kind: Kind) | TypeError

  /** `isJsx`: a markup element, a markup fragment, or a call of one of the
      markup factories; an absent expression is not markup. */
  predicate IsJsx(expr: Option<Node>): (r: bool)
    ensures r ==> expr.Some? && (expr.value.kind.JSXElement? || expr.value.kind.JSXFragment? || expr.value.kind.CallExpression?)
    ensures expr.Some? && (expr.value.kind.JSXElement? || expr.value.kind.JSXFragment?) ==> r
    ensures expr.Some? && expr.value.kind.CallExpression? ==>
              (r <==> |expr.value.kids| > 0 && expr.value.kids[0].kind.Identifier? && expr.value.kids[0].kind.name in JsxIdents)
  {
    match expr
    case None => false
    case Some(e) =>
      e.kind.JSXElement? || e.kind.JSXFragment? ||
      (CalleeName(e).Some? && CalleeName(e).value in JsxIdents)
  }

  /** Every function of the tree carries a scope, as the scope analysis
      guarantees for the trees it annotates. */
  predicate AllFunctionsScoped(n: Node) {
    (IsFunctionKind(n.kind) ==> n.scope.Some?) &&
    forall k | k in n.kids :: AllFunctionsScoped(k)
  }

  predicate AllFunctionsScopedAll(ns: seq<Node>) {
    forall k | k in ns :: AllFunctionsScoped(k)
  }

  // ---------------------------------------------------------------------
  // The collector's callbacks and the run of a walk through them

  datatype Collector = Collector(isHomeScope: bool, result: seq<Node>)

  const CollectorStart := Collector(true, [])

  /** One enter or leave callback of the collector, for home scope `home`. */
  function CollectStep(parents: ScopeParents, home: Option<ScopeId>, st: Collector, ev: Event): Result<Collector, Thrown> {
    match ev
    case Enter(n) =>
      if IsFunctionKind(n.kind) then
        if n.scope.None? then Err(MissingScope(n.kind)) else Ok(st.(isHomeScope := false))
      else if n.kind.ReturnStatement? && st.isHomeScope then
        Ok(st.(result := st.result + [n]))
      else
        Ok(st)
    case Leave(n) =>
      if n.scope.Some? then Ok(st.(isHomeScope := ParentOf(parents, n.scope.value) == home)) else Ok(st)
  }

  /** The collector's state after a sequence of callbacks; a throw ends the walk. */
  function CollectRun(parents: ScopeParents, home: Option<ScopeId>, r: Result<Collector, Thrown>, evs: seq<Event>): Result<Collector, Thrown>
    decreases |evs|
  {
    if evs == [] then r
    else
      var before := CollectRun(parents, home, r, evs[..|evs| - 1]);
      if before.Err? then before else CollectStep(parents, home, before.value, evs[|evs| - 1])
  }

  /** What `findReturnStatements(home, body)` returns or throws. */
  function CollectReturns(parents: ScopeParents, home: Option<ScopeId>, body: Node): Result<seq<Node>, Thrown> {
    match CollectRun(parents, home, Ok(CollectorStart), Walk(body))
    case Ok(c) => Ok(c.result)
    case Err(e) => Err(e)
  }

  /** `findReturnStatements`: walk the body, flipping the flag and recording
      returns from the callbacks. */
  method FindReturnStatements(parents: ScopeParents, home: Option<ScopeId>, body: Node) returns (r: Result<seq<Node>, Thrown>)
    ensures r == CollectReturns(parents, home, body)
  {
    var events := Walk(body);
    var isHomeScope := true;
    var result: seq<Node> := [];
    var i := 0;
    while i < |events|
      invariant 0 <= i <= |events|
      invariant CollectRun(parents, home, Ok(CollectorStart), events[..i]) == Ok(Collector(isHomeScope, result))
    {
      assert events[..i + 1][..i] == events[..i];
      match events[i] {
        case Enter(n) =>
          if IsFunctionKind(n.kind) {
            if n.scope.None? {
              assert events == events[..i + 1] + events[i + 1..];
              CollectRunAppend(parents, home, Ok(CollectorStart), events[..i + 1], events[i + 1..]);
              CollectErrSticks(parents, home, MissingScope(n.kind), events[i + 1..]);
              return Err(MissingScope(n.kind));
            }
            isHomeScope := false;
          } else if n.kind.ReturnStatement? && isHomeScope {
            result := result + [n];
          }
        case Leave(n) =>
          if n.scope.Some? {
            isHomeScope := ParentOf(parents, n.scope.value) == home;
          }
      }
      i := i + 1;
    }
    assert events[..i] == events;
    return Ok(result);
  }

  // ---------------------------------------------------------------------
  // Running a walk piece by piece

  lemma {:induction false} CollectRunAppend(parents: ScopeParents, home: Option<ScopeId>, r: Result<Collector, Thrown>, a: seq<Event>, b: seq<Event>)
    ensures CollectRun(parents, home, r, a + b) == CollectRun(parents, home, CollectRun(parents, home, r, a), b)
    decreases |b|
  {
    if b == [] {
      assert a + b == a;
    } else {
      assert (a + b)[..|a + b| - 1] == a + b[..|b| - 1];
      assert (a + b)[|a + b| - 1] == b[|b| - 1];
      CollectRunAppend(parents, home, r, a, b[..|b| - 1]);
    }
  }

  lemma {:induction false} CollectErrSticks(parents: ScopeParents, home: Option<ScopeId>, e: Thrown, evs: seq<Event>)
    ensures CollectRun(parents, home, Err(e), evs) == Err(e)
    decreases |evs|
  {
    if evs != [] {
      CollectErrSticks(parents, home, e, evs[..|evs| - 1]);
    }
  }

  lemma CollectRunOne(parents: ScopeParents, home: Option<ScopeId>, r: Result<Collector, Thrown>, ev: Event)
    ensures CollectRun(parents, home, r, [ev]) == if r.Err? then r else CollectStep(parents, home, r.value, ev)
  {
    assert [ev][..0] == [];
  }

  /** Running a whole walk of `n` is running its enter, its children, its leave. */
  lemma CollectRunWalk(parents: ScopeParents, home: Option<ScopeId>, r: Result<Collector, Thrown>, n: Node)
    ensures CollectRun(parents, home, r, Walk(n)) ==
            CollectRun(parents, home, CollectRun(parents, home, CollectRun(parents, home, r, [Enter(n)]), WalkAll(n.kids)), [Leave(n)])
  {
    CollectRunAppend(parents, home, r, [Enter(n)] + WalkAll(n.kids), [Leave(n)]);
    CollectRunAppend(parents, home, r, [Enter(n)], WalkAll(n.kids));
  }

  lemma CollectRunWalkAll(parents: ScopeParents, home: Option<ScopeId>, r: Result<Collector, Thrown>, ns: seq<Node>)
    requires ns != []
    ensures CollectRun(parents, home, r, WalkAll(ns)) ==
            CollectRun(parents, home, CollectRun(parents, home, r, Walk(ns[0])), WalkAll(ns[1..]))
  {
    CollectRunAppend(parents, home, r, Walk(ns[0]), WalkAll(ns[1..]));
  }

  // ---------------------------------------------------------------------
  // When the collector throws

  /** The collector throws exactly when some function in the walked tree,
      at any depth, carries no scope. */
  lemma {:induction false} CollectThrowsIff(parents: ScopeParents, home: Option<ScopeId>, body: Node)
    ensures CollectReturns(parents, home, body).Err? <==> !AllFunctionsScoped(body)
  {
    RunThrows(parents, home, CollectorStart, body);
  }

  lemma {:induction false} RunThrows(parents: ScopeParents, home: Option<ScopeId>, st: Collector, n: Node)
    ensures CollectRun(parents, home, Ok(st), Walk(n)).Err? <==> !AllFunctionsScoped(n)
    decreases n, 1
  {
    CollectRunWalk(parents, home, Ok(st), n);
    CollectRunOne(parents, home, Ok(st), Enter(n));
    var s1 := CollectRun(parents, home, Ok(st), [Enter(n)]);
    if s1.Err? {
      CollectErrSticks(parents, home, s1.error, WalkAll(n.kids));
      CollectErrSticks(parents, home, s1.error, [Leave(n)]);
    } else {
      RunThrowsAll(parents, home, s1.value, n.kids);
      var s2 := CollectRun(parents, home, s1, WalkAll(n.kids));
      CollectRunOne(parents, home, s2, Leave(n));
    }
  }

  lemma {:induction false} RunThrowsAll(parents: ScopeParents, home: Option<ScopeId>, st: Collector, ns: seq<Node>)
    ensures CollectRun(parents, home, Ok(st), WalkAll(ns)).Err? <==> !AllFunctionsScopedAll(ns)
    decreases ns, 0
  {
    if ns != [] {
      CollectRunWalkAll(parents, home, Ok(st), ns);
      RunThrows(parents, home, st, ns[0]);
      var s1 := CollectRun(parents, home, Ok(st), Walk(ns[0]));
      if s1.Err? {
        CollectErrSticks(parents, home, s1.error, WalkAll(ns[1..]));
      } else {
        RunThrowsAll(parents, home, s1.value, ns[1..]);
      }
      assert AllFunctionsScopedAll(ns) <==> AllFunctionsScoped(ns[0]) && AllFunctionsScopedAll(ns[1..]) by {
        assert forall k :: k in ns <==> k == ns[0] || k in ns[1..];
      }
    }
  }

  // ---------------------------------------------------------------------
  // What the collector collects

  /** The returns of a tree that are not inside a nested function, in walk
      order: the returns whose home is the function being examined. */
  function HomeReturns(n: Node): seq<Node> {
    if IsFunctionKind(n.kind) then []
    else (if n.kind.ReturnStatement? then [n] else []) + HomeReturnsAll(n.kids)
  }

  function HomeReturnsAll(ns: seq<Node>): seq<Node> {
    if ns == [] then [] else HomeReturns(ns[0]) + HomeReturnsAll(ns[1..])
  }

  /** Scoping in which the collector's flag tracks the home function exactly:
      every scope met outside nested functions hangs directly under the home
      scope, and every scope met inside them does not. This holds when, apart
      from functions, only blocks sitting directly in the home body own scopes. */
  predicate InHome(parents: ScopeParents, home: Option<ScopeId>, n: Node) {
    (n.scope.Some? ==> ParentOf(parents, n.scope.value) == home) &&
    if IsFunctionKind(n.kind) then
      n.scope.Some? && forall k | k in n.kids :: InNested(parents, home, k)
    else
      forall k | k in n.kids :: InHome(parents, home, k)
  }

  predicate InNested(parents: ScopeParents, home: Option<ScopeId>, n: Node) {
    (IsFunctionKind(n.kind) ==> n.scope.Some?) &&
    (n.scope.Some? ==> ParentOf(parents, n.scope.value) != home) &&
    forall k | k in n.kids :: InNested(parents, home, k)
  }

  /** With such scoping, `findReturnStatements` returns exactly the home
      returns, in walk order. */
  lemma {:induction false} CollectHomeExact(parents: ScopeParents, home: Option<ScopeId>, body: Node)
    requires InHome(parents, home, body)
    ensures CollectReturns(parents, home, body) == Ok(HomeReturns(body))
  {
    RunHome(parents, home, CollectorStart, body);
    assert CollectorStart.result + HomeReturns(body) == HomeReturns(body);
  }

  lemma {:induction false} RunHome(parents: ScopeParents, home: Option<ScopeId>, st: Collector, n: Node)
    requires InHome(parents, home, n) && st.isHomeScope
    ensures CollectRun(parents, home, Ok(st), Walk(n)) == Ok(Collector(true, st.result + HomeReturns(n)))
    decreases n, 2
  {
    if IsFunctionKind(n.kind) {
      RunHomeFunction(parents, home, st, n);
    } else {
      RunHomeOther(parents, home, st, n);
    }
  }

  lemma {:induction false} RunHomeFunction(parents: ScopeParents, home: Option<ScopeId>, st: Collector, n: Node)
    requires InHome(parents, home, n) && st.isHomeScope && IsFunctionKind(n.kind)
    ensures CollectRun(parents, home, Ok(st), Walk(n)) == Ok(Collector(true, st.result + HomeReturns(n)))
    decreases n, 1
  {
    var s1 := st.(isHomeScope := false);
    CollectRunOne(parents, home, Ok(st), Enter(n));
    assert forall k | k in n.kids :: InNested(parents, home, k);
    RunNestedAll(parents, home, s1, n.kids);
    CollectRunOne(parents, home, Ok(s1), Leave(n));
    CollectRunWalk(parents, home, Ok(st), n);
    assert st.result + HomeReturns(n) == st.result;
  }

  lemma {:induction false} RunHomeOther(parents: ScopeParents, home: Option<ScopeId>, st: Collector, n: Node)
    requires InHome(parents, home, n) && st.isHomeScope && !IsFunctionKind(n.kind)
    ensures CollectRun(parents, home, Ok(st), Walk(n)) == Ok(Collector(true, st.result + HomeReturns(n)))
    decreases n, 1
  {
    var pre := if n.kind.ReturnStatement? then [n] else [];
    var s1 := Collector(true, st.result + pre);
    HomeEnter(parents, home, st, n);
    CollectRunOne(parents, home, Ok(st), Enter(n));
    assert forall k | k in n.kids :: InHome(parents, home, k);
    RunHomeAll(parents, home, s1, n.kids);
    var s2 := Collector(true, s1.result + HomeReturnsAll(n.kids));
    assert CollectStep(parents, home, s2, Leave(n)) == Ok(s2);
    CollectRunOne(parents, home, Ok(s2), Leave(n));
    CollectRunWalk(parents, home, Ok(st), n);
    assert HomeReturns(n) == pre + HomeReturnsAll(n.kids);
    assert s2.result == st.result + HomeReturns(n);
  }

  lemma HomeEnter(parents: ScopeParents, home: Option<ScopeId>, st: Collector, n: Node)
    requires st.isHomeScope && !IsFunctionKind(n.kind)
    ensures CollectStep(parents, home, st, Enter(n)) ==
            Ok(Collector(true, st.result + if n.kind.ReturnStatement? then [n] else []))
  {
    assert st.result + [] == st.result;
  }

  lemma {:induction false} RunHomeAll(parents: ScopeParents, home: Option<ScopeId>, st: Collector, ns: seq<Node>)
    requires forall k | k in ns :: InHome(parents, home, k)
    requires st.isHomeScope
    ensures CollectRun(parents, home, Ok(st), WalkAll(ns)) == Ok(Collector(true, st.result + HomeReturnsAll(ns)))
    decreases ns, 3
  {
    if ns == [] {
      assert WalkAll(ns) == [] && HomeReturnsAll(ns) == [];
      assert st == Collector(true, st.result + []);
    } else {
      CollectRunWalkAll(parents, home, Ok(st), ns);
      assert InHome(parents, home, ns[0]);
      RunHome(parents, home, st, ns[0]);
      var s1 := Collector(true, st.result + HomeReturns(ns[0]));
      assert forall k | k in ns[1..] :: InHome(parents, home, k);
      RunHomeAll(parents, home, s1, ns[1..]);
      assert HomeReturnsAll(ns) == HomeReturns(ns[0]) + HomeReturnsAll(ns[1..]);
      assert st.result + HomeReturnsAll(ns) == s1.result + HomeReturnsAll(ns[1..]);
    }
  }

  lemma {:induction false} RunNested(parents: ScopeParents, home: Option<ScopeId>, st: Collector, n: Node)
    requires InNested(parents, home, n) && !st.isHomeScope
    ensures CollectRun(parents, home, Ok(st), Walk(n)) == Ok(st)
    decreases n, 1
  {
    CollectRunWalk(parents, home, Ok(st), n);
    CollectRunOne(parents, home, Ok(st), Enter(n));
    var s1 := if IsFunctionKind(n.kind) then st.(isHomeScope := false) else st;
    assert s1 == st;
    RunNestedAll(parents, home, st, n.kids);
    CollectRunOne(parents, home, Ok(st), Leave(n));
  }

  lemma {:induction false} RunNestedAll(parents: ScopeParents, home: Option<ScopeId>, st: Collector, ns: seq<Node>)
    requires forall k | k in ns :: InNested(parents, home, k)
    requires !st.isHomeScope
    ensures CollectRun(parents, home, Ok(st), WalkAll(ns)) == Ok(st)
    decreases ns, 0
  {
    if ns != [] {
      CollectRunWalkAll(parents, home, Ok(st), ns);
      RunNested(parents, home, st, ns[0]);
      RunNestedAll(parents, home, st, ns[1..]);
    }
  }
}

module PluginReturnsExamples {
  import opened Wrappers
  import opened Syntax
  import opened PluginReturns

  const Parents: ScopeParents := map[1 := 0, 2 := 1, 3 := 2]

  const InnerBlock := Node(Parsed(5, 5), BlockStatement, [], Some(3), [])
  const InnerIf := Node(Parsed(8, 8), Other("IfStatement"), [InnerBlock], None, [])
  const Markup := Node(Parsed(7, 7), JSXElement, [], None, [])
  const MarkupReturn := Node(Parsed(6, 6), ReturnStatement, [Markup], None, [])
  const OuterBlock := Node(Parsed(4, 4), BlockStatement, [InnerIf, MarkupReturn], Some(2), [])
  const OuterIf := Node(Parsed(3, 3), Other("IfStatement"), [OuterBlock], None, [])

  /** `{ if (a) { if (b) {} return <div/>; } }`: the body of a function with
      scope 1, whose `if` blocks own scopes 2 (under 1) and 3 (under 2). */
  const NestedBlocksBody := Node(Parsed(2, 2), BlockStatement, [OuterIf], None, [])

  /** A tree without functions or returns, left with the flag at `f`. */
  lemma RunPlain(r: Collector, n: Node, f: bool)
    requires !IsFunctionKind(n.kind) && !n.kind.ReturnStatement?
    requires CollectRun(Parents, Some(1), Ok(r), WalkAll(n.kids)) == Ok(r.(isHomeScope := f))
    ensures CollectRun(Parents, Some(1), Ok(r), Walk(n)) ==
            Ok(r.(isHomeScope := if n.scope.Some? then ParentOf(Parents, n.scope.value) == Some(1) else f))
  {
    CollectRunWalk(Parents, Some(1), Ok(r), n);
    CollectRunOne(Parents, Some(1), Ok(r), Enter(n));
    CollectRunOne(Parents, Some(1), Ok(r.(isHomeScope := f)), Leave(n));
  }

  lemma RunOneChild(r: Result<Collector, Thrown>, n: Node)
    ensures CollectRun(Parents, Some(1), r, WalkAll([n])) == CollectRun(Parents, Some(1), r, Walk(n))
  {
    assert WalkAll([n]) == Walk(n) + WalkAll([]);
    assert Walk(n) + [] == Walk(n);
  }

  /** Leaving the inner block resets the flag to "scope 3's parent is the home
      scope", which is false, so the markup return that follows in the same
      function is not collected although it is a home return. */
  lemma NestedBlockHidesReturn()
    ensures HomeReturns(NestedBlocksBody) == [MarkupReturn] && IsJsx(ReturnArgument(MarkupReturn))
    ensures CollectReturns(Parents, Some(1), NestedBlocksBody) == Ok([])
  {
    NestedBlocksHomeReturns();
    NestedBlocksCollected();
  }

  lemma NestedBlocksHomeReturns()
    ensures HomeReturns(NestedBlocksBody) == [MarkupReturn]
  {
    assert HomeReturnsAll([]) == [];
    assert HomeReturns(InnerBlock) == [];
    assert HomeReturnsAll([InnerBlock]) == [];
    assert HomeReturns(InnerIf) == [];
    assert HomeReturns(Markup) == [];
    assert HomeReturnsAll([Markup]) == [];
    assert HomeReturns(MarkupReturn) == [MarkupReturn];
    assert HomeReturnsAll([MarkupReturn]) == [MarkupReturn];
    assert OuterBlock.kids[1..] == [MarkupReturn];
    assert HomeReturnsAll(OuterBlock.kids) == [MarkupReturn];
    assert HomeReturns(OuterBlock) == [MarkupReturn];
    assert HomeReturnsAll([OuterBlock]) == [MarkupReturn];
    assert HomeReturns(OuterIf) == [MarkupReturn];
    assert HomeReturnsAll([OuterIf]) == [MarkupReturn];
  }

  lemma NestedBlocksCollected()
    ensures CollectReturns(Parents, Some(1), NestedBlocksBody) == Ok([])
  {
    var start := CollectorStart;
    OuterBlockSwitchesOff();
    RunPlain(start, OuterBlock, false);
    RunOneChild(Ok(start), OuterBlock);
    RunPlain(start, OuterIf, true);
    RunOneChild(Ok(start), OuterIf);
    RunPlain(start, NestedBlocksBody, true);
  }

  /** The statements of the outer block leave the flag off and collect nothing. */
  lemma OuterBlockSwitchesOff()
    ensures CollectRun(Parents, Some(1), Ok(CollectorStart), WalkAll(OuterBlock.kids)) == Ok(Collector(false, []))
  {
    var off := Collector(false, []);
    InnerIfSwitchesOff();
    ReturnSkipped();
    CollectRunWalkAll(Parents, Some(1), Ok(CollectorStart), OuterBlock.kids);
    assert OuterBlock.kids[1..] == [MarkupReturn];
    RunOneChild(Ok(off), MarkupReturn);
  }

  /** The inner `if` and its block switch the flag off. */
  lemma InnerIfSwitchesOff()
    ensures CollectRun(Parents, Some(1), Ok(CollectorStart), Walk(InnerIf)) == Ok(Collector(false, []))
  {
    assert WalkAll(InnerBlock.kids) == [];
    RunPlain(CollectorStart, InnerBlock, true);
    RunOneChild(Ok(CollectorStart), InnerBlock);
    RunPlain(CollectorStart, InnerIf, false);
  }

  /** The markup return is entered with the flag off. */
  lemma ReturnSkipped()
    ensures CollectRun(Parents, Some(1), Ok(Collector(false, [])), Walk(MarkupReturn)) == Ok(Collector(false, []))
  {
    var off := Collector(false, []);
    assert WalkAll(Markup.kids) == [];
    RunPlain(off, Markup, false);
    RunOneChild(Ok(off), Markup);
    CollectRunWalk(Parents, Some(1), Ok(off), MarkupReturn);
    CollectRunOne(Parents, Some(1), Ok(off), Enter(MarkupReturn));
    CollectRunOne(Parents, Some(1), Ok(off), Leave(MarkupReturn));
  }
}
