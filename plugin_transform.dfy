/**
  The Rollup plugin's `transform` hook (plugin/src/index.ts): find the React
  components of a module by walking its syntax tree with a scope cursor,
  then prepend the hook import and insert a hook call at the top of every
  component body.

  The walk keeps `scope`, a cursor into the scopes attached to the tree. On
  entering a node that owns a scope the cursor moves to it; on leaving one it
  moves to the cursor's parent. A function with a block body is a component
  when some return the collector finds for it (with the cursor as home scope)
  gives markup and the cursor is no deeper than one scope below the root. A
  call met while the cursor is the root scope may wrap a component: `getHoc`.
*/
module PluginTransform {
  import opened Wrappers
  import opened Syntax
  import opened PluginReturns
  import opened Splice

  /** The line prepended to a module that does not import the hook yet. */
  const ImportLine: string := "import { useSignals } from '@preact/signals-react/runtime';\n"

  /** A top-level import declaration of the runtime module that imports the
      hook under its own name (an identifier, not a string name). */
  predicate HasImport(ast: Node): (r: bool)
    ensures r ==> exists i | 0 <= i < |ast.kids| ::
                    ast.kids[i].kind.ImportDeclaration? && ast.kids[i].kind.source == RuntimeModule &&
                    exists s | s in ast.kids[i].kind.specifiers :: s.ImportSpecifier? && s.imported.IdentifierName? && s.imported.name == HookName
    ensures (forall k | k in ast.kids :: !k.kind.ImportDeclaration? || k.kind.source != RuntimeModule) ==> !r
  {
    exists k | k in ast.kids ::
      k.kind.ImportDeclaration? && k.kind.source == RuntimeModule &&
      exists s | s in k.kind.specifiers :: s.ImportSpecifier? && s.imported == IdentifierName(HookName)
  }

  /** `!scope.parent?.parent`: the scope is the root or directly below it. */
  predicate IsRootLevel(parents: ScopeParents, s: ScopeId) {
    ParentOf(parents, s).None? || ParentOf(parents, ParentOf(parents, s).value).None?
  }

  predicate SomeReturnIsJsx(rets: seq<Node>) {
    exists r | r in rets :: IsJsx(ReturnArgument(r))
  }

  /** A function with a block body among whose collected returns (home
      scope `home`) one gives markup. */
  predicate RendersMarkup(parents: ScopeParents, home: Option<ScopeId>, f: Node) {
    HasBlockBody(f) &&
    CollectReturns(parents, home, Body(f)).Ok? && SomeReturnIsJsx(CollectReturns(parents, home, Body(f)).value)
  }

  // ---------------------------------------------------------------------
  // Higher-order components

  /** The sole argument of a wrapper call, looking through an assignment
      (`memo(Foo = () => {...})`) to its right-hand side. */
  function HocArgument(arg: Node): Node {
    if arg.kind.AssignmentExpression? && |arg.kids| == 2 then arg.kids[1] else arg
  }

  /** The shape `getHoc` accepts: a root-scope call of an identifier with a
      single argument that is (or assigns) a function expression or arrow
      whose block body renders markup. */
  predicate IsHocCall(parents: ScopeParents, scope: Option<ScopeId>, call: Node) {
    scope.Some? && ParentOf(parents, scope.value).None? &&
    |call.kids| == 2 && call.kids[0].kind.Identifier? &&
    var arg := HocArgument(call.kids[1]);
    (arg.kind.ArrowFunctionExpression? || arg.kind.FunctionExpression?) && RendersMarkup(parents, scope, arg)
  }

  /** `getHoc(scope, call)`: the wrapped component, if any. An undefined
      cursor makes the property read throw. */
  function GetHoc(parents: ScopeParents, scope: Option<ScopeId>, call: Node): (r: Result<Option<Node>, Thrown>)
    ensures scope.None? ==> r == Err(TypeError)
    ensures scope.Some? && ParentOf(parents, scope.value).Some? ==> r == Ok(None)
    ensures r.Ok? && r.value.Some? <==> IsHocCall(parents, scope, call)
    ensures r.Ok? && r.value.Some? ==> r.value.value == HocArgument(call.kids[1]) && r.value.value != call
  {
    if scope.None? then Err(TypeError)
    else if ParentOf(parents, scope.value).Some? then Ok(None)
    else if !(|call.kids| == 2 && call.kids[0].kind.Identifier?) then Ok(None)
    else
      var arg := HocArgument(call.kids[1]);
      if !(arg.kind.ArrowFunctionExpression? || arg.kind.FunctionExpression?) || !HasBlockBody(arg) then Ok(None)
      else match CollectReturns(parents, scope, Body(arg))
        case Err(e) => Err(e)
        case Ok(rets) => if SomeReturnIsJsx(rets) then Ok(Some(arg)) else Ok(None)
  }

  /** With every function scoped, `getHoc` throws only on an undefined cursor. */
  lemma GetHocThrowsOnlyOnUndefined(parents: ScopeParents, scope: Option<ScopeId>, call: Node)
    requires AllFunctionsScoped(call)
    ensures GetHoc(parents, scope, call).Err? <==> scope.None?
  {
    if scope.Some? && ParentOf(parents, scope.value).None? && |call.kids| == 2 && call.kids[0].kind.Identifier? {
      var arg := HocArgument(call.kids[1]);
      assert call.kids[1] in call.kids;
      assert AllFunctionsScoped(arg) by {
        if arg != call.kids[1] {
          assert arg in call.kids[1].kids;
        }
      }
      if HasBlockBody(arg) {
        assert Body(arg) in arg.kids;
        CollectThrowsIff(parents, scope, Body(arg));
      }
    }
  }

  // ---------------------------------------------------------------------
  // The component walk

  /** The walk's variables: the scope cursor and the components found. */
  datatype WalkState = WalkState(scope: Option<ScopeId>, components: set<Node>)

  /** The enter callback on a function with a block body. */
  function EnterFunction(parents: ScopeParents, scope: Option<ScopeId>, f: Node, comps: set<Node>): Result<set<Node>, Thrown>
    requires HasBlockBody(f)
  {
    match CollectReturns(parents, scope, Body(f))
    case Err(e) => Err(e)
    case Ok(rets) =>
      if !SomeReturnIsJsx(rets) then Ok(comps)
      else if scope.None? then Err(TypeError)
      else if IsRootLevel(parents, scope.value) then Ok(comps + {f})
      else Ok(comps)
  }

  /** The enter callback on a call. */
  function EnterCall(parents: ScopeParents, scope: Option<ScopeId>, call: Node, comps: set<Node>): Result<set<Node>, Thrown> {
    match GetHoc(parents, scope, call)
    case Err(e) => Err(e)
    case Ok(None) => Ok(comps)
    case Ok(Some(f)) => Ok(comps + {f})
  }

  /** One enter or leave callback of the walk. */
  function WalkStep(parents: ScopeParents, st: WalkState, ev: Event): Result<WalkState, Thrown> {
    match ev
    case Enter(n) =>
      var scope := if n.scope.Some? then n.scope else st.scope;
      var found :=
        if HasBlockBody(n) then EnterFunction(parents, scope, n, st.components)
        else if n.kind.CallExpression? then EnterCall(parents, scope, n, st.components)
        else Ok(st.components);
      if found.Err? then Err(found.error) else Ok(WalkState(scope, found.value))
    case Leave(n) =>
      if n.scope.None? then Ok(st)
      else if st.scope.None? then Err(TypeError)
      else Ok(st.(scope := ParentOf(parents, st.scope.value)))
  }

  /** The walk's state after a sequence of callbacks; a throw ends the walk. */
  function WalkRun(parents: ScopeParents, r: Result<WalkState, Thrown>, evs: seq<Event>): Result<WalkState, Thrown>
    decreases |evs|
  {
    if evs == [] then r
    else
      var before := WalkRun(parents, r, evs[..|evs| - 1]);
      if before.Err? then before else WalkStep(parents, before.value, evs[|evs| - 1])
  }

  /** The whole walk of a module from the root scope `root`. */
  function ComponentWalk(parents: ScopeParents, root: ScopeId, ast: Node): Result<WalkState, Thrown> {
    WalkRun(parents, Ok(WalkState(Some(root), {})), Walk(ast))
  }

  /** The enter callback's loop over the collected returns of `f`. */
  method AddIfComponent(parents: ScopeParents, scope: Option<ScopeId>, f: Node, components: set<Node>) returns (r: Result<set<Node>, Thrown>)
    requires HasBlockBody(f)
    ensures r == EnterFunction(parents, scope, f, components)
  {
    var collected := FindReturnStatements(parents, scope, Body(f));
    if collected.Err? {
      return Err(collected.error);
    }
    var rets := collected.value;
    var comps := components;
    var j := 0;
    while j < |rets|
      invariant 0 <= j <= |rets|
      invariant scope.None? ==> !SomeReturnIsJsx(rets[..j])
      invariant comps == if scope.Some? && SomeReturnIsJsx(rets[..j]) && IsRootLevel(parents, scope.value) then components + {f} else components
    {
      assert rets[..j + 1] == rets[..j] + [rets[j]];
      if IsJsx(ReturnArgument(rets[j])) {
        if scope.None? {
          assert rets[j] in rets;
          return Err(TypeError);
        }
        if IsRootLevel(parents, scope.value) {
          comps := comps + {f};
        }
      }
      j := j + 1;
    }
    assert rets[..j] == rets;
    return Ok(comps);
  }

  /** The enter callback: move the cursor, then look for a component. */
  method EnterNode(parents: ScopeParents, st: WalkState, n: Node) returns (r: Result<WalkState, Thrown>)
    ensures r == WalkStep(parents, st, Enter(n))
  {
    var scope := st.scope;
    if n.scope.Some? {
      scope := n.scope;
    }
    var found: Result<set<Node>, Thrown>;
    if HasBlockBody(n) {
      found := AddIfComponent(parents, scope, n, st.components);
    } else if n.kind.CallExpression? {
      var inner := GetHoc(parents, scope, n);
      found := if inner.Err? then Err(inner.error)
               else if inner.value.Some? then Ok(st.components + {inner.value.value})
               else Ok(st.components);
    } else {
      found := Ok(st.components);
    }
    if found.Err? {
      return Err(found.error);
    }
    return Ok(WalkState(scope, found.value));
  }

  /** The walk over the whole module. */
  method FindComponents(parents: ScopeParents, root: ScopeId, ast: Node) returns (r: Result<set<Node>, Thrown>)
    ensures r.Ok? <==> ComponentWalk(parents, root, ast).Ok?
    ensures r.Ok? ==> r.value == ComponentWalk(parents, root, ast).value.components
    ensures r.Err? ==> r.error == ComponentWalk(parents, root, ast).error
  {
    var events := Walk(ast);
    var start: Result<WalkState, Thrown> := Ok(WalkState(Some(root), {}));
    var st := WalkState(Some(root), {});
    var i := 0;
    while i < |events|
      invariant 0 <= i <= |events|
      invariant WalkRun(parents, start, events[..i]) == Ok(st)
    {
      assert events[..i + 1][..i] == events[..i];
      match events[i] {
        case Enter(n) =>
          var next := EnterNode(parents, st, n);
          if next.Err? {
            WalkStopsAt(parents, start, events, i, next.error);
            return Err(next.error);
          }
          st := next.value;
        case Leave(n) =>
          if n.scope.Some? {
            if st.scope.None? {
              WalkStopsAt(parents, start, events, i, TypeError);
              return Err(TypeError);
            }
            st := st.(scope := ParentOf(parents, st.scope.value));
          }
      }
      i := i + 1;
    }
    assert events[..i] == events;
    return Ok(st.components);
  }

  // ---------------------------------------------------------------------
  // Running a walk piece by piece

  lemma {:induction false} WalkRunAppend(parents: ScopeParents, r: Result<WalkState, Thrown>, a: seq<Event>, b: seq<Event>)
    ensures WalkRun(parents, r, a + b) == WalkRun(parents, WalkRun(parents, r, a), b)
    decreases |b|
  {
    if b == [] {
      assert a + b == a;
    } else {
      assert (a + b)[..|a + b| - 1] == a + b[..|b| - 1];
      assert (a + b)[|a + b| - 1] == b[|b| - 1];
      WalkRunAppend(parents, r, a, b[..|b| - 1]);
    }
  }

  lemma {:induction false} WalkErrSticks(parents: ScopeParents, e: Thrown, evs: seq<Event>)
    ensures WalkRun(parents, Err(e), evs) == Err(e)
    decreases |evs|
  {
    if evs != [] {
      WalkErrSticks(parents, e, evs[..|evs| - 1]);
    }
  }

  /** A throw at callback `i` is what the whole walk ends with. */
  lemma WalkStopsAt(parents: ScopeParents, r: Result<WalkState, Thrown>, evs: seq<Event>, i: nat, e: Thrown)
    requires i < |evs| && WalkRun(parents, r, evs[..i + 1]) == Err(e)
    ensures WalkRun(parents, r, evs) == Err(e)
  {
    assert evs == evs[..i + 1] + evs[i + 1..];
    WalkRunAppend(parents, r, evs[..i + 1], evs[i + 1..]);
    WalkErrSticks(parents, e, evs[i + 1..]);
  }

  lemma WalkRunOne(parents: ScopeParents, r: Result<WalkState, Thrown>, ev: Event)
    ensures WalkRun(parents, r, [ev]) == if r.Err? then r else WalkStep(parents, r.value, ev)
  {
    assert [ev][..0] == [];
  }

  lemma WalkRunWalk(parents: ScopeParents, r: Result<WalkState, Thrown>, n: Node)
    ensures WalkRun(parents, r, Walk(n)) ==
            WalkRun(parents, WalkRun(parents, WalkRun(parents, r, [Enter(n)]), WalkAll(n.kids)), [Leave(n)])
  {
    WalkRunAppend(parents, r, [Enter(n)] + WalkAll(n.kids), [Leave(n)]);
    WalkRunAppend(parents, r, [Enter(n)], WalkAll(n.kids));
  }

  lemma WalkRunWalkAll(parents: ScopeParents, r: Result<WalkState, Thrown>, ns: seq<Node>)
    requires ns != []
    ensures WalkRun(parents, r, WalkAll(ns)) == WalkRun(parents, WalkRun(parents, r, Walk(ns[0])), WalkAll(ns[1..]))
  {
    WalkRunAppend(parents, r, Walk(ns[0]), WalkAll(ns[1..]));
  }

  // ---------------------------------------------------------------------
  // What the walk finds

  /** The cursor after entering `n` with cursor `c`. */
  function Cursor(n: Node, c: ScopeId): ScopeId {
    if n.scope.Some? then n.scope.value else c
  }

  /** Scopes attached as a scope analysis attaches them: each scope a node
      owns hangs directly under the scope the node sits in. */
  predicate WellScoped(parents: ScopeParents, n: Node, c: ScopeId) {
    (n.scope.Some? ==> ParentOf(parents, n.scope.value) == Some(c)) &&
    forall k | k in n.kids :: WellScoped(parents, k, Cursor(n, c))
  }

  /** What the enter callback on `n` adds, with cursor `c` after entering. */
  function Own(parents: ScopeParents, n: Node, c: ScopeId): set<Node> {
    (if RendersMarkup(parents, Some(c), n) && IsRootLevel(parents, c) then {n} else {}) +
    (if n.kind.CallExpression? && IsHocCall(parents, Some(c), n) then {HocArgument(n.kids[1])} else {})
  }

  /** The components the walk finds in the tree `n`, entered with cursor `c`. */
  function Comps(parents: ScopeParents, n: Node, c: ScopeId): set<Node> {
    Own(parents, n, Cursor(n, c)) + CompsAll(parents, n.kids, Cursor(n, c))
  }

  function CompsAll(parents: ScopeParents, ns: seq<Node>, c: ScopeId): set<Node> {
    if ns == [] then {} else Comps(parents, ns[0], c) + CompsAll(parents, ns[1..], c)
  }

  lemma WalkEnter(parents: ScopeParents, acc: set<Node>, n: Node, c: ScopeId)
    requires AllFunctionsScoped(n)
    ensures WalkRun(parents, Ok(WalkState(Some(c), acc)), [Enter(n)]) ==
            Ok(WalkState(Some(Cursor(n, c)), acc + Own(parents, n, Cursor(n, c))))
  {
    WalkRunOne(parents, Ok(WalkState(Some(c), acc)), Enter(n));
    if HasBlockBody(n) {
      EnterFunctionOwn(parents, acc, n, Cursor(n, c));
    } else if n.kind.CallExpression? {
      EnterCallOwn(parents, acc, n, Cursor(n, c));
    } else {
      assert Own(parents, n, Cursor(n, c)) == {} && acc + {} == acc;
    }
  }

  lemma EnterFunctionOwn(parents: ScopeParents, acc: set<Node>, n: Node, c1: ScopeId)
    requires AllFunctionsScoped(n) && HasBlockBody(n)
    ensures EnterFunction(parents, Some(c1), n, acc) == Ok(acc + Own(parents, n, c1))
  {
    assert Body(n) in n.kids;
    CollectThrowsIff(parents, Some(c1), Body(n));
    if RendersMarkup(parents, Some(c1), n) && IsRootLevel(parents, c1) {
      assert Own(parents, n, c1) == {n};
    } else {
      assert Own(parents, n, c1) == {} && acc + {} == acc;
    }
  }

  lemma EnterCallOwn(parents: ScopeParents, acc: set<Node>, n: Node, c1: ScopeId)
    requires AllFunctionsScoped(n) && n.kind.CallExpression? && !HasBlockBody(n)
    ensures EnterCall(parents, Some(c1), n, acc) == Ok(acc + Own(parents, n, c1))
  {
    GetHocThrowsOnlyOnUndefined(parents, Some(c1), n);
    var g := GetHoc(parents, Some(c1), n);
    assert !RendersMarkup(parents, Some(c1), n);
    if g.value.Some? {
      assert Own(parents, n, c1) == {g.value.value};
    } else {
      assert Own(parents, n, c1) == {} && acc + {} == acc;
    }
  }

  /** On well-scoped trees whose functions all carry scopes the walk never
      throws, comes back to the cursor it started with, and finds `Comps`. */
  lemma {:induction false} WalkComps(parents: ScopeParents, acc: set<Node>, n: Node, c: ScopeId)
    requires WellScoped(parents, n, c) && AllFunctionsScoped(n)
    ensures WalkRun(parents, Ok(WalkState(Some(c), acc)), Walk(n)) == Ok(WalkState(Some(c), acc + Comps(parents, n, c)))
    decreases n, 1
  {
    var c1 := Cursor(n, c);
    WalkRunWalk(parents, Ok(WalkState(Some(c), acc)), n);
    WalkEnter(parents, acc, n, c);
    var acc1 := acc + Own(parents, n, c1);
    WalkCompsAll(parents, acc1, n.kids, c1);
    var acc2 := acc1 + CompsAll(parents, n.kids, c1);
    WalkRunOne(parents, Ok(WalkState(Some(c1), acc2)), Leave(n));
    assert acc2 == acc + Comps(parents, n, c);
  }

  lemma {:induction false} WalkCompsAll(parents: ScopeParents, acc: set<Node>, ns: seq<Node>, c: ScopeId)
    requires forall k | k in ns :: WellScoped(parents, k, c) && AllFunctionsScoped(k)
    ensures WalkRun(parents, Ok(WalkState(Some(c), acc)), WalkAll(ns)) == Ok(WalkState(Some(c), acc + CompsAll(parents, ns, c)))
    decreases ns, 0
  {
    if ns == [] {
      assert WalkAll(ns) == [] && CompsAll(parents, ns, c) == {};
      assert acc + {} == acc;
    } else {
      var r0 := Ok(WalkState(Some(c), acc));
      WalkRunWalkAll(parents, r0, ns);
      assert ns[0] in ns;
      WalkComps(parents, acc, ns[0], c);
      var acc1 := acc + Comps(parents, ns[0], c);
      var r1 := WalkRun(parents, r0, Walk(ns[0]));
      assert r1 == Ok(WalkState(Some(c), acc1));
      assert forall k | k in ns[1..] :: k in ns;
      WalkCompsAll(parents, acc1, ns[1..], c);
      UnionAssoc(acc, Comps(parents, ns[0], c), CompsAll(parents, ns[1..], c));
    }
  }

  lemma UnionAssoc<T>(a: set<T>, b: set<T>, c: set<T>)
    ensures (a + b) + c == a + (b + c)
  {
  }

  /** The walk over a whole module finds exactly `Comps` of its tree. */
  lemma FoundComponents(parents: ScopeParents, root: ScopeId, ast: Node)
    requires WellScoped(parents, ast, root) && AllFunctionsScoped(ast)
    ensures ComponentWalk(parents, root, ast) == Ok(WalkState(Some(root), Comps(parents, ast, root)))
  {
    WalkComps(parents, {}, ast, root);
    assert {} + Comps(parents, ast, root) == Comps(parents, ast, root);
  }

  /** Below a scope that has a parent, nothing is ever a component: neither
      a function nor a wrapper call deeper than the top level of the module. */
  lemma {:induction false} NothingBelowTopLevel(parents: ScopeParents, n: Node, c: ScopeId)
    requires WellScoped(parents, n, c) && AllFunctionsScoped(n) && ParentOf(parents, c).Some?
    ensures Comps(parents, n, c) == {}
    decreases n, 1
  {
    var c1 := Cursor(n, c);
    assert ParentOf(parents, c1).Some?;
    assert !IsRootLevel(parents, c1) || !HasBlockBody(n);
    NothingBelowTopLevelAll(parents, n.kids, c1);
  }

  lemma {:induction false} NothingBelowTopLevelAll(parents: ScopeParents, ns: seq<Node>, c: ScopeId)
    requires forall k | k in ns :: WellScoped(parents, k, c) && AllFunctionsScoped(k)
    requires ParentOf(parents, c).Some?
    ensures CompsAll(parents, ns, c) == {}
    decreases ns, 0
  {
    if ns != [] {
      assert ns[0] in ns;
      NothingBelowTopLevel(parents, ns[0], c);
      assert forall k | k in ns[1..] :: k in ns;
      NothingBelowTopLevelAll(parents, ns[1..], c);
    }
  }

  /** A function nested in another function is never a component: the
      inner function's subtree contributes nothing. */
  lemma NestedNeverComponent(parents: ScopeParents, f: Node, c: ScopeId)
    requires WellScoped(parents, f, c) && AllFunctionsScoped(f) && IsFunctionKind(f.kind)
    ensures CompsAll(parents, f.kids, Cursor(f, c)) == {}
  {
    NothingBelowTopLevelAll(parents, f.kids, Cursor(f, c));
  }

  /** Every component found in a module is a function that is not inside
      another function. */
  lemma {:induction false} ComponentsAreOuterFunctions(parents: ScopeParents, n: Node, c: ScopeId)
    requires WellScoped(parents, n, c) && AllFunctionsScoped(n) && ParentOf(parents, c).None?
    ensures Comps(parents, n, c) <= OuterFunctions(n)
    decreases n, 1
  {
    var c1 := Cursor(n, c);
    if n.scope.Some? {
      assert ParentOf(parents, c1).Some?;
      NothingBelowTopLevelAll(parents, n.kids, c1);
      assert !IsHocCall(parents, Some(c1), n);
    } else {
      assert !IsFunctionKind(n.kind);
      ComponentsAreOuterFunctionsAll(parents, n.kids, c);
      if n.kind.CallExpression? && IsHocCall(parents, Some(c1), n) {
        var arg := n.kids[1];
        assert arg in n.kids;
        OuterFunctionsAllHas(n.kids, arg);
        if HocArgument(arg) != arg {
          assert HocArgument(arg) in arg.kids;
          OuterFunctionsAllHas(arg.kids, HocArgument(arg));
        }
      }
    }
  }

  lemma {:induction false} ComponentsAreOuterFunctionsAll(parents: ScopeParents, ns: seq<Node>, c: ScopeId)
    requires forall k | k in ns :: WellScoped(parents, k, c) && AllFunctionsScoped(k)
    requires ParentOf(parents, c).None?
    ensures CompsAll(parents, ns, c) <= OuterFunctionsAll(ns)
    decreases ns, 0
  {
    if ns != [] {
      assert ns[0] in ns;
      ComponentsAreOuterFunctions(parents, ns[0], c);
      assert forall k | k in ns[1..] :: k in ns;
      ComponentsAreOuterFunctionsAll(parents, ns[1..], c);
    }
  }

  lemma {:induction false} OuterFunctionsAllHas(ns: seq<Node>, k: Node)
    requires k in ns
    ensures OuterFunctions(k) <= OuterFunctionsAll(ns)
  {
    if ns[0] != k {
      OuterFunctionsAllHas(ns[1..], k);
    }
  }

  /** The functions of a tree reached without passing through a function or
      any other node that owns a scope. */
  function TopFunctions(n: Node): set<Node> {
    if IsFunctionKind(n.kind) then {n}
    else if n.scope.Some? then {}
    else TopFunctionsAll(n.kids)
  }

  function TopFunctionsAll(ns: seq<Node>): set<Node> {
    if ns == [] then {} else TopFunctions(ns[0]) + TopFunctionsAll(ns[1..])
  }

  /** Conversely, every such function of a module whose returns, as
      `findReturnStatements` collects them, include markup is found. */
  lemma {:induction false} TopLevelRenderersFound(parents: ScopeParents, n: Node, c: ScopeId, f: Node)
    requires WellScoped(parents, n, c) && AllFunctionsScoped(n) && ParentOf(parents, c).None?
    requires f in TopFunctions(n) && f.scope.Some? && RendersMarkup(parents, f.scope, f)
    ensures f in Comps(parents, n, c)
    decreases n, 1
  {
    if IsFunctionKind(n.kind) {
      assert f == n && Cursor(n, c) == f.scope.value;
      assert IsRootLevel(parents, f.scope.value);
      assert f in Own(parents, n, Cursor(n, c));
    } else {
      TopLevelRenderersFoundAll(parents, n.kids, c, f);
    }
  }

  lemma {:induction false} TopLevelRenderersFoundAll(parents: ScopeParents, ns: seq<Node>, c: ScopeId, f: Node)
    requires forall k | k in ns :: WellScoped(parents, k, c) && AllFunctionsScoped(k)
    requires ParentOf(parents, c).None?
    requires f in TopFunctionsAll(ns) && f.scope.Some? && RendersMarkup(parents, f.scope, f)
    ensures f in CompsAll(parents, ns, c)
    decreases ns, 0
  {
    assert ns[0] in ns;
    if f in TopFunctions(ns[0]) {
      TopLevelRenderersFound(parents, ns[0], c, f);
    } else {
      assert forall k | k in ns[1..] :: k in ns;
      TopLevelRenderersFoundAll(parents, ns[1..], c, f);
    }
  }

  /** No assignment expression owns a scope, as with `attachScopes`, which
      gives scopes only to functions, blocks, loops and catch clauses. */
  predicate AssignmentsUnscoped(n: Node) {
    (n.kind.AssignmentExpression? ==> n.scope.None?) &&
    forall k | k in n.kids :: AssignmentsUnscoped(k)
  }

  /** A component of a module that `findComponents` may add: a function of
      the module's top level (its scope hangs directly under the root
      scope `c`) with a block body, among whose collected returns, with its
      own scope or the root scope as home, one gives markup. */
  predicate TopRenderer(parents: ScopeParents, tops: set<Node>, c: ScopeId, f: Node) {
    f in tops && HasBlockBody(f) && f.scope.Some? && ParentOf(parents, f.scope.value) == Some(c) &&
    (RendersMarkup(parents, f.scope, f) || RendersMarkup(parents, Some(c), f))
  }

  /** The only-if half of the component rule: every component found in a
      module is a top-level function with a block body that renders markup. */
  lemma {:induction false} ComponentsAreTopRenderers(parents: ScopeParents, n: Node, c: ScopeId)
    requires WellScoped(parents, n, c) && AllFunctionsScoped(n) && AssignmentsUnscoped(n) && ParentOf(parents, c).None?
    ensures forall f | f in Comps(parents, n, c) :: TopRenderer(parents, TopFunctions(n), c, f)
    decreases n, 1
  {
    var c1 := Cursor(n, c);
    if n.scope.Some? {
      NothingBelowTopLevelAll(parents, n.kids, c1);
      assert !IsHocCall(parents, Some(c1), n);
      assert Comps(parents, n, c) == Own(parents, n, c1);
    } else {
      ComponentsAreTopRenderersAll(parents, n.kids, c);
      if n.kind.CallExpression? && IsHocCall(parents, Some(c1), n) {
        HocArgumentTop(parents, n, c);
      }
    }
  }

  /** The argument a wrapper call at the top level gives is itself a
      top-level function. */
  lemma HocArgumentTop(parents: ScopeParents, n: Node, c: ScopeId)
    requires WellScoped(parents, n, c) && AllFunctionsScoped(n) && AssignmentsUnscoped(n) && ParentOf(parents, c).None?
    requires n.scope.None? && n.kind.CallExpression? && IsHocCall(parents, Some(c), n)
    ensures TopRenderer(parents, TopFunctions(n), c, HocArgument(n.kids[1]))
  {
    var arg := n.kids[1];
    assert arg in n.kids;
    assert WellScoped(parents, arg, c) && AllFunctionsScoped(arg) && AssignmentsUnscoped(arg);
    TopFunctionsAllHas(n.kids, arg);
    var f := HocArgument(arg);
    if f != arg {
      assert f in arg.kids && arg.scope.None?;
      assert WellScoped(parents, f, c) && AllFunctionsScoped(f);
      TopFunctionsAllHas(arg.kids, f);
    }
    assert f.scope.Some? && ParentOf(parents, f.scope.value) == Some(c);
  }

  lemma {:induction false} ComponentsAreTopRenderersAll(parents: ScopeParents, ns: seq<Node>, c: ScopeId)
    requires forall k | k in ns :: WellScoped(parents, k, c) && AllFunctionsScoped(k) && AssignmentsUnscoped(k)
    requires ParentOf(parents, c).None?
    ensures forall f | f in CompsAll(parents, ns, c) :: TopRenderer(parents, TopFunctionsAll(ns), c, f)
    decreases ns, 0
  {
    if ns != [] {
      assert ns[0] in ns;
      ComponentsAreTopRenderers(parents, ns[0], c);
      assert forall k | k in ns[1..] :: k in ns;
      ComponentsAreTopRenderersAll(parents, ns[1..], c);
    }
  }

  lemma {:induction false} TopFunctionsAllHas(ns: seq<Node>, k: Node)
    requires k in ns
    ensures TopFunctions(k) <= TopFunctionsAll(ns)
  {
    if ns[0] != k {
      TopFunctionsAllHas(ns[1..], k);
    }
  }

  // ---------------------------------------------------------------------
  // The edits

  /** Where the hook line goes for one component: right after the first
      character of its block body. A body built by a transform has no
      offset and gets none. */
  function HookOffsetOf(c: Node): multiset<nat> {
    if HasBlockBody(c) && Body(c).origin.Parsed? then multiset{Body(c).origin.start + 1} else multiset{}
  }

  /** The insertion offsets of a set of components, one per component. */
  ghost function HookOffsets(comps: set<Node>): multiset<nat> {
    if comps == {} then multiset{}
    else
      var c :| c in comps;
      HookOffsets(comps - {c}) + HookOffsetOf(c)
  }

  /** The offsets do not depend on the order components are visited in. */
  lemma {:induction false} HookOffsetsRemove(comps: set<Node>, c: Node)
    requires c in comps
    ensures HookOffsets(comps) == HookOffsets(comps - {c}) + HookOffsetOf(c)
    decreases |comps|
  {
    var d :| d in comps && HookOffsets(comps) == HookOffsets(comps - {d}) + HookOffsetOf(d);
    if d != c {
      HookOffsetsRemove(comps - {d}, c);
      HookOffsetsRemove(comps - {c}, d);
      assert comps - {d} - {c} == comps - {c} - {d};
    }
  }

  /** An offset is inserted at exactly when it is one past the body start
      of some component with a parsed block body. */
  lemma {:induction false} HookOffsetsHas(comps: set<Node>, o: nat)
    ensures o in HookOffsets(comps) <==> exists c | c in comps :: o in HookOffsetOf(c)
    decreases |comps|
  {
    if comps != {} {
      var c :| c in comps;
      HookOffsetsRemove(comps, c);
      HookOffsetsHas(comps - {c}, o);
      assert forall d | d in comps :: d == c || d in comps - {c};
    }
  }

  /** The `for (const component of components)` loop. */
  method InsertionOffsets(components: set<Node>) returns (offs: multiset<nat>)
    ensures offs == HookOffsets(components)
  {
    offs := multiset{};
    var rest := components;
    while rest != {}
      invariant HookOffsets(components) == HookOffsets(rest) + offs
      decreases rest
    {
      var c :| c in rest;
      HookOffsetsRemove(rest, c);
      if HasBlockBody(c) && Body(c).origin.Parsed? {
        offs := offs + multiset{Body(c).origin.start + 1};
      }
      rest := rest - {c};
    }
  }

  // ---------------------------------------------------------------------
  // The hook

  /** What the hook hands back to the bundler: nothing, new code, or a throw. */
  datatype Outcome = Unchanged | Changed(code: string) | Threw(error: Thrown)

  /** The hook's outcome for file contents `code` whose parse (if it
      succeeded) is `parsed`, with scope parents `parents` and root scope
      `root`; `included` is the id filter's verdict. */
  ghost function Rewrite(included: bool, code: string, parsed: Option<Node>, parents: ScopeParents, root: ScopeId): Outcome {
    if !included || parsed.None? then Unchanged
    else match ComponentWalk(parents, root, parsed.value)
      case Err(e) => Threw(e)
      case Ok(st) =>
        if st.components == {} then Unchanged
        else Changed((if HasImport(parsed.value) then "" else ImportLine) + Render(code, HookOffsets(st.components)))
  }

  /** `transform(code, id)`. */
  method Transform(included: bool, code: string, parsed: Option<Node>, parents: ScopeParents, root: ScopeId) returns (out: Outcome)
    ensures out == Rewrite(included, code, parsed, parents, root)
  {
    if !included || parsed.None? {
      return Unchanged;
    }
    var ast := parsed.value;
    var hasImport := HasImport(ast);
    var found := FindComponents(parents, root, ast);
    if found.Err? {
      return Threw(found.error);
    }
    var components := found.value;
    if components == {} {
      return Unchanged;
    }
    var prefix := if hasImport then "" else ImportLine;
    var offs := InsertionOffsets(components);
    return Changed(prefix + Render(code, offs));
  }

  // ---------------------------------------------------------------------
  // What the hook promises

  /** The hook changes a file exactly when it is included, parses, and the
      walk finds a component; an existing hook call does not matter. */
  lemma RewriteChangesIff(included: bool, code: string, parsed: Option<Node>, parents: ScopeParents, root: ScopeId)
    requires parsed.Some? ==> WellScoped(parents, parsed.value, root) && AllFunctionsScoped(parsed.value)
    ensures Rewrite(included, code, parsed, parents, root).Changed? <==>
            included && parsed.Some? && Comps(parents, parsed.value, root) != {}
    ensures !Rewrite(included, code, parsed, parents, root).Threw?
  {
    if parsed.Some? {
      FoundComponents(parents, root, parsed.value);
    }
  }

  /** The new code is the import line (unless the module already imports
      the hook) followed by the old code with hook lines inserted: taking
      the insertions out gives the old code back. */
  lemma RewriteKeepsCode(included: bool, code: string, parsed: Option<Node>, parents: ScopeParents, root: ScopeId)
    requires Rewrite(included, code, parsed, parents, root).Changed?
    ensures included && parsed.Some? && ComponentWalk(parents, root, parsed.value).Ok?
    ensures var out := Rewrite(included, code, parsed, parents, root).code;
            var prefix := if HasImport(parsed.value) then "" else ImportLine;
            var offs := HookOffsets(ComponentWalk(parents, root, parsed.value).value.components);
            |prefix| <= |out| && out[..|prefix|] == prefix && Unrender(out[|prefix|..], offs) == code
  {
    var out := Rewrite(included, code, parsed, parents, root).code;
    var prefix := if HasImport(parsed.value) then "" else ImportLine;
    var offs := HookOffsets(ComponentWalk(parents, root, parsed.value).value.components);
    assert out == prefix + Render(code, offs);
    assert out[|prefix|..] == Render(code, offs);
    UnrenderRender(code, offs);
  }

  /** Every component found gets a hook line right after the first character
      of its body (its opening brace), provided the body lies in the code. */
  lemma RewriteHooksComponent(included: bool, code: string, parsed: Option<Node>, parents: ScopeParents, root: ScopeId,
                              comps: set<Node>, c: Node)
    requires included && parsed.Some? && ComponentWalk(parents, root, parsed.value).Ok?
    requires comps == ComponentWalk(parents, root, parsed.value).value.components && c in comps
    requires HasBlockBody(c) && Body(c).origin.Parsed? && Body(c).origin.start < |code|
    ensures Rewrite(included, code, parsed, parents, root) ==
            Changed((if HasImport(parsed.value) then "" else ImportLine) + Render(code, HookOffsets(comps)))
    ensures var offs, o := HookOffsets(comps), Body(c).origin.start;
            HookedAfter(Render(code, offs), |Hooks(offs[0])| + |Weave(code[..o], offs, 0)|, code[o])
  {
    RewriteRenders(included, code, parsed, parents, root);
    HookedAt(code, comps, c);
  }

  lemma RewriteRenders(included: bool, code: string, parsed: Option<Node>, parents: ScopeParents, root: ScopeId)
    requires included && parsed.Some? && ComponentWalk(parents, root, parsed.value).Ok?
    requires ComponentWalk(parents, root, parsed.value).value.components != {}
    ensures Rewrite(included, code, parsed, parents, root) ==
            Changed((if HasImport(parsed.value) then "" else ImportLine) +
                    Render(code, HookOffsets(ComponentWalk(parents, root, parsed.value).value.components)))
  {
  }

  lemma HookedAt(code: string, comps: set<Node>, c: Node)
    requires c in comps && HasBlockBody(c) && Body(c).origin.Parsed? && Body(c).origin.start < |code|
    ensures var offs := HookOffsets(comps);
            var o := Body(c).origin.start;
            HookedAfter(Render(code, offs), |Hooks(offs[0])| + |Weave(code[..o], offs, 0)|, code[o])
  {
    var o := Body(c).origin.start;
    ComponentOffset(comps, c);
    HookFollowsOffset(code, HookOffsets(comps), o);
  }

  lemma ComponentOffset(comps: set<Node>, c: Node)
    requires c in comps && HasBlockBody(c) && Body(c).origin.Parsed?
    ensures HookOffsets(comps)[Body(c).origin.start + 1] > 0
  {
    HookOffsetsRemove(comps, c);
  }

  /** Nothing else is inserted: every insertion offset belongs to a found
      component. */
  lemma RewriteHooksOnlyComponents(comps: set<Node>, o: nat)
    requires o in HookOffsets(comps)
    ensures exists c | c in comps :: HasBlockBody(c) && Body(c).origin.Parsed? && o == Body(c).origin.start + 1
  {
    HookOffsetsHas(comps, o);
  }
}
