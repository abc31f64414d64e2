/**
  The Babel plugin's second pass and its `transform` hook (src/index.ts):
  unless the module was skipped, put the hook import at the front of the
  program when it is missing and make the hook call the first statement of
  every component found by the first pass.
*/
module BabelInject {
  import opened Wrappers
  import opened Syntax
  import opened BabelDetect

  /** `useSignals();` as the transform builds it. */
  const HookStatement: Node :=
    Node(Synthetic, ExpressionStatement,
      [Node(Synthetic, CallExpression, [Node(Synthetic, Identifier(HookName), [], None, [])], None, [])],
      None, [])

  /** `import { useSignals } from '@preact/signals-react/runtime';` */
  const HookImport: Node :=
    Node(Synthetic, ImportDeclaration(RuntimeModule, [ImportSpecifier(IdentifierName(HookName), HookName)]), [], None, [])

  /** `{ useSignals(); return <body>; }`, the block an expression-bodied
      arrow gets. */
  function WrappedBody(b: Node): Node {
    Node(Synthetic, BlockStatement, [HookStatement, Node(Synthetic, ReturnStatement, [b], None, [])], None, [])
  }

  /** `f` with its body replaced. */
  function WithBody(f: Node, b: Node): Node
    requires |f.kids| > 0
  {
    f.(kids := f.kids[..|f.kids| - 1] + [b])
  }

  /** The arrows and function declarations that get the hook: block-bodied
      ones, and arrows whose body is a markup element or fragment. */
  predicate Hookable(f: Node) {
    (f.kind.ArrowFunctionExpression? && |f.kids| > 0 &&
      (Body(f).kind.BlockStatement? || Body(f).kind.JSXElement? || Body(f).kind.JSXFragment?)) ||
    (f.kind.FunctionDeclaration? && HasBlockBody(f))
  }

  /** The loop body of the second pass on one component. Only the body
      changes: a block gets the hook call as its new first statement with
      the old statements after it in order, a markup body becomes the block
      `{ useSignals(); return <markup>; }`, and anything else (a function
      expression among them) stays as it is. */
  function AddHook(f: Node): (r: Node)
    ensures r.origin == f.origin && r.kind == f.kind && r.scope == f.scope && r.comments == f.comments
    ensures |r.kids| == |f.kids| && (|f.kids| > 0 ==> r.kids[..|r.kids| - 1] == f.kids[..|f.kids| - 1])
    ensures Hookable(f) && Body(f).kind.BlockStatement? ==>
              Body(r) == Body(f).(kids := [HookStatement] + Body(f).kids)
    ensures Hookable(f) && !Body(f).kind.BlockStatement? ==> Body(r) == WrappedBody(Body(f))
    ensures !Hookable(f) ==> r == f
  {
    if f.kind.ArrowFunctionExpression? && |f.kids| > 0 then
      var b := Body(f);
      if b.kind.BlockStatement? then WithBody(f, b.(kids := [HookStatement] + b.kids))
      else if b.kind.JSXElement? || b.kind.JSXFragment? then WithBody(f, WrappedBody(b))
      else f
    else if f.kind.FunctionDeclaration? && HasBlockBody(f) then
      WithBody(f, Body(f).(kids := [HookStatement] + Body(f).kids))
    else f
  }

  /** The tree after the loop over `componentPaths`: each node whose path
      (its original node and ancestors) is a component gets the hook; the
      edits touch only each component's own body, so they commute. */
  function Inject(n: Node, anc: seq<Node>, comps: set<NodePath>): (r: Node)
    ensures r.origin == n.origin && r.kind == n.kind && r.scope == n.scope && r.comments == n.comments
    ensures |r.kids| == |n.kids|
    decreases n, 1
  {
    var m := n.(kids := InjectAll(n.kids, [n] + anc, comps));
    if NodePath(n, anc) in comps then AddHook(m) else m
  }

  function InjectAll(ns: seq<Node>, anc: seq<Node>, comps: set<NodePath>): (r: seq<Node>)
    ensures |r| == |ns| && forall i | 0 <= i < |ns| :: r[i] == Inject(ns[i], anc, comps)
    decreases ns, 0
  {
    if ns == [] then [] else [Inject(ns[0], anc, comps)] + InjectAll(ns[1..], anc, comps)
  }

  /** The second pass: the hooks, then the import unshifted to the front of
      the program unless it was found. The component paths refer to the
      nodes of the parsed tree, so adding the import first or last is the same. */
  function SecondPass(ast: Node, comps: set<NodePath>, hasSignalsImport: bool): Node {
    var injected := Inject(ast, [], comps);
    if hasSignalsImport then injected else injected.(kids := [HookImport] + injected.kids)
  }

  /** The hook's result: no change (`null`) or the new program. `parsed` is
      the parse of the code, absent when the parser threw (the throw is
      caught, logged and ends in `null`); `included` is the verdict of the
      include and exclude patterns. */
  function Rewrite(included: bool, parsed: Option<Node>): Option<Node> {
    if !included || parsed.None? then None
    else
      var ast := parsed.value;
      if Candidates(ast) == {} || (HookImported(ast) && HookCalled(ast)) then None
      else Some(SecondPass(ast, Candidates(ast), HookImported(ast)))
  }

  /** `transform(code, id)` of the Babel plugin. */
  method Transform(included: bool, parsed: Option<Node>) returns (out: Option<Node>)
    ensures out == Rewrite(included, parsed)
  {
    if !included || parsed.None? {
      return None;
    }
    var ast := parsed.value;
    var d := FirstPass(ast);
    if |d.componentPaths| == 0 || (d.hasSignalsImport && d.hasUseSignalsCall) {
      return None;
    }
    var program := Inject(ast, [], d.componentPaths);
    if !d.hasSignalsImport {
      program := program.(kids := [HookImport] + program.kids);
    }
    return Some(program);
  }

  // ---------------------------------------------------------------------
  // Nothing but insertions

  /** Undo the transform: drop the inserted statements and imports and
      unwrap the blocks built around markup bodies. */
  function Erase(n: Node): Node
    decreases n, 1
  {
    if IsWrapped(n) then Erase(n.kids[1].kids[0])
    else n.(kids := EraseAll(n.kids))
  }

  predicate IsWrapped(n: Node) {
    n.origin.Synthetic? && n.kind.BlockStatement? && |n.kids| == 2 && n.kids[0] == HookStatement &&
    n.kids[1].kind.ReturnStatement? && |n.kids[1].kids| == 1
  }

  function EraseAll(ns: seq<Node>): seq<Node>
    decreases ns, 0
  {
    if ns == [] then []
    else if ns[0] == HookStatement || ns[0] == HookImport then EraseAll(ns[1..])
    else [Erase(ns[0])] + EraseAll(ns[1..])
  }

  /** A tree straight from the parser. */
  predicate NoSynthetic(n: Node) {
    n.origin.Parsed? && forall k | k in n.kids :: NoSynthetic(k)
  }

  lemma {:induction false} EraseAllAppend(a: seq<Node>, x: Node)
    requires x.origin.Parsed?
    ensures EraseAll(a + [x]) == EraseAll(a) + [Erase(x)]
  {
    if a == [] {
      assert a + [x] == [x];
    } else {
      assert (a + [x])[0] == a[0] && (a + [x])[1..] == a[1..] + [x];
      EraseAllAppend(a[1..], x);
    }
  }

  /** Erasing a hooked component gives what erasing it before gives. */
  lemma EraseAddHook(m: Node)
    requires m.origin.Parsed? && (|m.kids| > 0 ==> Body(m).origin.Parsed?)
    ensures Erase(AddHook(m)) == Erase(m)
  {
    if Hookable(m) {
      var r := AddHook(m);
      var pre := m.kids[..|m.kids| - 1];
      var b := Body(m);
      assert m.kids == pre + [b];
      assert r.kids == pre + [Body(r)];
      EraseAllAppend(pre, b);
      if b.kind.BlockStatement? {
        assert Body(r).origin.Parsed?;
        EraseAllAppend(pre, Body(r));
        assert Erase(Body(r)) == Erase(b);
      } else {
        assert IsWrapped(Body(r)) && Body(r).kids[1].kids[0] == b;
        assert Erase(Body(r)) == Erase(b);
        assert !IsWrapped(r);
        assert Erase(r) == r.(kids := EraseAll(pre + [Body(r)]));
        assert EraseAll(pre + [Body(r)]) == EraseAll(pre) + [Erase(b)] by {
          EraseAllWrapped(pre, Body(r));
        }
      }
    }
  }

  lemma {:induction false} EraseAllWrapped(a: seq<Node>, x: Node)
    requires IsWrapped(x)
    ensures EraseAll(a + [x]) == EraseAll(a) + [Erase(x)]
  {
    if a == [] {
      assert a + [x] == [x];
      assert x != HookStatement && x != HookImport;
    } else {
      assert (a + [x])[0] == a[0] && (a + [x])[1..] == a[1..] + [x];
      EraseAllWrapped(a[1..], x);
    }
  }

  /** The hooks come out again: erasing them from the injected tree gives
      the parsed tree back, every original statement in its place. */
  lemma {:induction false} EraseInject(n: Node, anc: seq<Node>, comps: set<NodePath>)
    requires NoSynthetic(n)
    ensures Erase(Inject(n, anc, comps)) == n
    decreases n, 1
  {
    var m := n.(kids := InjectAll(n.kids, [n] + anc, comps));
    assert forall k | k in n.kids :: NoSynthetic(k);
    EraseInjectAll(n.kids, [n] + anc, comps);
    assert Erase(m) == n;
    if NodePath(n, anc) in comps {
      if |m.kids| > 0 {
        assert Body(m) == Inject(Body(n), [n] + anc, comps);
        assert Body(n) in n.kids;
      }
      EraseAddHook(m);
    }
  }

  lemma {:induction false} EraseInjectAll(ns: seq<Node>, anc: seq<Node>, comps: set<NodePath>)
    requires forall k | k in ns :: NoSynthetic(k)
    ensures EraseAll(InjectAll(ns, anc, comps)) == ns
    decreases ns, 0
  {
    if ns != [] {
      var x, rest := Inject(ns[0], anc, comps), InjectAll(ns[1..], anc, comps);
      assert ns[0] in ns;
      EraseInject(ns[0], anc, comps);
      EraseAllParsedHead(x, rest);
      EraseInjectAll(ns[1..], anc, comps);
      assert [ns[0]] + ns[1..] == ns;
    }
  }

  lemma EraseAllParsedHead(x: Node, rest: seq<Node>)
    requires x.origin.Parsed?
    ensures EraseAll([x] + rest) == [Erase(x)] + EraseAll(rest)
  {
    assert ([x] + rest)[1..] == rest;
  }

  /** The whole output minus the insertions is the parsed program: the
      transform only inserts. */
  lemma EraseRewrite(included: bool, parsed: Option<Node>)
    requires parsed.Some? && NoSynthetic(parsed.value) && Rewrite(included, parsed).Some?
    ensures Erase(Rewrite(included, parsed).value) == parsed.value
  {
    var ast := parsed.value;
    EraseInject(ast, [], Candidates(ast));
    var injected := Inject(ast, [], Candidates(ast));
    if !HookImported(ast) {
      assert EraseAll([HookImport] + injected.kids) == EraseAll(injected.kids);
    }
  }

  // ---------------------------------------------------------------------
  // A second run leaves the module alone

  lemma {:induction false} NodesAllHas(ns: seq<Node>, j: nat, x: Node)
    requires j < |ns| && x in Nodes(ns[j])
    ensures x in NodesAll(ns)
    decreases j
  {
    if j > 0 {
      NodesAllHas(ns[1..], j - 1, x);
    }
  }

  lemma {:induction false} NodesAllSplit(ns: seq<Node>, x: Node) returns (j: nat)
    requires x in NodesAll(ns)
    ensures j < |ns| && x in Nodes(ns[j])
    decreases ns
  {
    if x in Nodes(ns[0]) {
      j := 0;
    } else {
      var i := NodesAllSplit(ns[1..], x);
      j := i + 1;
    }
  }

  lemma {:induction false} PathsAllSplit(ns: seq<Node>, anc: seq<Node>, p: NodePath) returns (j: nat)
    requires p in PathsAll(ns, anc)
    ensures j < |ns| && p in Paths(ns[j], anc)
    decreases ns
  {
    if p in Paths(ns[0], anc) {
      j := 0;
    } else {
      var i := PathsAllSplit(ns[1..], anc, p);
      j := i + 1;
    }
  }

  lemma {:induction false} PathsAllHas(ns: seq<Node>, anc: seq<Node>, j: nat, p: NodePath)
    requires j < |ns| && p in Paths(ns[j], anc)
    ensures p in PathsAll(ns, anc)
    decreases j
  {
    if j > 0 {
      PathsAllHas(ns[1..], anc, j - 1, p);
    }
  }

  /** The node of every path is a node of the tree. */
  lemma {:induction false} PathNode(n: Node, anc: seq<Node>, p: NodePath)
    requires p in Paths(n, anc)
    ensures p.node in Nodes(n)
    decreases n
  {
    if p != NodePath(n, anc) {
      var j := PathsAllSplit(n.kids, [n] + anc, p);
      PathNode(n.kids[j], [n] + anc, p);
      NodesAllHas(n.kids, j, p.node);
    }
  }

  /** Every node of the tree is visited on some path. */
  lemma {:induction false} PathTo(n: Node, anc: seq<Node>, x: Node) returns (p: NodePath)
    requires x in Nodes(n)
    ensures p in Paths(n, anc) && p.node == x
    decreases n
  {
    if x == n {
      p := NodePath(n, anc);
    } else {
      var j := NodesAllSplit(n.kids, x);
      p := PathTo(n.kids[j], [n] + anc, x);
      PathsAllHas(n.kids, [n] + anc, j, p);
    }
  }

  /** A node inside the `j`-th child of the injected tree is still in the
      tree after its parent is hooked; only the child itself, when it is the
      replaced body, gives way to a node of the same kind. */
  lemma KidNodesSurvive(n: Node, anc: seq<Node>, comps: set<NodePath>, j: nat, x: Node) returns (y: Node)
    requires j < |n.kids| && x in Nodes(Inject(n.kids[j], [n] + anc, comps))
    ensures y in Nodes(Inject(n, anc, comps)) && y.kind == x.kind
    ensures x != Inject(n.kids[j], [n] + anc, comps) ==> y == x
    ensures !(x.kind.BlockStatement? || x.kind.JSXElement? || x.kind.JSXFragment?) ==> y == x
  {
    var m := n.(kids := InjectAll(n.kids, [n] + anc, comps));
    var r := Inject(n, anc, comps);
    var c := Inject(n.kids[j], [n] + anc, comps);
    assert m.kids[j] == c;
    if r.kids[j] == c {
      NodesAllHas(r.kids, j, x);
      y := x;
    } else {
      assert r == AddHook(m) && Hookable(m) && j == |m.kids| - 1;
      assert Body(m) == c && Body(r) == r.kids[j];
      y := HookedBodyKeeps(c, Body(r), x);
      NodesAllHas(r.kids, j, y);
    }
  }

  /** The nodes of a body survive its hooking: all of them when it is
      wrapped, all but the block itself, which gives way to the extended
      block, when it is a block. */
  lemma HookedBodyKeeps(c: Node, nb: Node, x: Node) returns (y: Node)
    requires x in Nodes(c)
    requires (c.kind.BlockStatement? && nb == c.(kids := [HookStatement] + c.kids)) || nb == WrappedBody(c)
    ensures y in Nodes(nb) && y.kind == x.kind
    ensures x != c ==> y == x
    ensures !x.kind.BlockStatement? ==> y == x
  {
    if nb == WrappedBody(c) {
      var ret := nb.kids[1];
      assert ret.kids == [c];
      NodesAllHas(ret.kids, 0, x);
      NodesAllHas(nb.kids, 1, x);
      y := x;
    } else if x == c {
      y := nb;
    } else {
      var i := NodesAllSplit(c.kids, x);
      assert nb.kids[i + 1] == c.kids[i];
      NodesAllHas(nb.kids, i + 1, x);
      y := x;
    }
  }

  /** Every kind of node of the parsed tree is still present after the
      injection; in particular the imports are. */
  lemma {:induction false} InjectKeepsKind(n: Node, anc: seq<Node>, comps: set<NodePath>, k: Node) returns (y: Node)
    requires k in Nodes(n)
    ensures y in Nodes(Inject(n, anc, comps)) && y.kind == k.kind
    decreases n
  {
    if k == n {
      y := Inject(n, anc, comps);
    } else {
      var j := NodesAllSplit(n.kids, k);
      var y1 := InjectKeepsKind(n.kids[j], [n] + anc, comps, k);
      y := KidNodesSurvive(n, anc, comps, j, y1);
    }
  }

  /** A hookable component of the tree gets the hook statement. */
  lemma {:induction false} InjectPlacesHook(n: Node, anc: seq<Node>, comps: set<NodePath>, q: NodePath)
    requires NoSynthetic(n) && q in Paths(n, anc) && q in comps && Hookable(q.node)
    ensures HookStatement in Nodes(Inject(n, anc, comps))
    decreases n
  {
    var r := Inject(n, anc, comps);
    if q == NodePath(n, anc) {
      var m := n.(kids := InjectAll(n.kids, [n] + anc, comps));
      assert Body(m) == Inject(Body(n), [n] + anc, comps);
      assert Hookable(m);
      assert r == AddHook(m) && Body(r) == r.kids[|r.kids| - 1];
      assert Body(r).kids[0] == HookStatement;
      NodesAllHas(Body(r).kids, 0, HookStatement);
      NodesAllHas(r.kids, |r.kids| - 1, HookStatement);
    } else {
      var j := PathsAllSplit(n.kids, [n] + anc, q);
      assert n.kids[j] in n.kids;
      InjectPlacesHook(n.kids[j], [n] + anc, comps, q);
      var y := KidNodesSurvive(n, anc, comps, j, HookStatement);
    }
  }

  lemma {:induction false} ChildPathIn(n: Node, anc: seq<Node>, p: NodePath, i: nat)
    requires p in Paths(n, anc) && i < |p.node.kids|
    ensures ChildPath(p, i) in Paths(n, anc)
    decreases n
  {
    if p == NodePath(n, anc) {
      PathsAllHas(n.kids, [n] + anc, i, ChildPath(p, i));
    } else {
      var j := PathsAllSplit(n.kids, [n] + anc, p);
      ChildPathIn(n.kids[j], [n] + anc, p, i);
      PathsAllHas(n.kids, [n] + anc, j, ChildPath(p, i));
    }
  }

  lemma FunctionArgIn(n: Node, anc: seq<Node>, c: NodePath, q: NodePath)
    requires c in Paths(n, anc) && q in FunctionArgPaths(c)
    ensures q in Paths(n, anc)
  {
    var i :| 1 <= i < |c.node.kids| && q == ChildPath(c, i);
    ChildPathIn(n, anc, c, i);
  }

  /** Candidates are paths of the tree. */
  lemma CandidateInPaths(ast: Node, q: NodePath)
    requires q in Candidates(ast)
    ensures q in Paths(ast, [])
  {
    CandidatesInIff(Paths(ast, []), q);
    var p :| p in Paths(ast, []) && q in Considered(p);
    match p.node.kind {
      case CallExpression =>
        FunctionArgIn(ast, [], p, q);
      case FunctionDeclaration =>
      case VariableDeclarator =>
        ChildPathIn(ast, [], p, 1);
        if q != ChildPath(p, 1) {
          FunctionArgIn(ast, [], ChildPath(p, 1), q);
        }
      case ExportDefaultDeclaration =>
        assert !IsFunction(Some(p));
        ChildPathIn(ast, [], p, 0);
        FunctionArgIn(ast, [], ChildPath(p, 0), q);
    }
  }

  /** A parsed module: every path obeys the placement rules of
      `ModuleChain` (one program at the root, exports directly in it,
      declarators directly in declarations). */
  predicate ModuleShaped(ast: Node) {
    forall p | p in Paths(ast, []) :: ModuleChain(p)
  }

  /** The Babel version never instruments a nested function: in a parsed
      module, a function with another function among its ancestors is not a
      candidate, and no candidate is more than five levels deep. */
  lemma NestedNeverCandidate(ast: Node, q: NodePath)
    requires ModuleShaped(ast)
    ensures (exists j | 0 <= j < |q.ancestors| :: IsFunctionKind(q.ancestors[j].kind)) ==> q !in Candidates(ast)
    ensures |q.ancestors| > 5 ==> q !in Candidates(ast)
  {
    if q in Candidates(ast) {
      CandidateInPaths(ast, q);
      CandidatesInIff(Paths(ast, []), q);
      var p :| p in Paths(ast, []) && q in Considered(p);
      ConsideredOuter(p, q);
    }
  }

  /** Once a component has the hook, the output imports and calls it, so a
      second run of the transform skips the module. */
  lemma RewriteSettles(ast: Node, q: NodePath)
    requires NoSynthetic(ast) && Rewrite(true, Some(ast)).Some?
    requires q in Candidates(ast) && Hookable(q.node)
    ensures var out := Rewrite(true, Some(ast)).value;
            HookImported(out) && HookCalled(out) && Rewrite(true, Some(out)).None?
  {
    OutputImportsHook(ast);
    OutputCallsHook(ast, q);
  }

  /** The output always imports the hook. */
  lemma OutputImportsHook(ast: Node)
    requires Rewrite(true, Some(ast)).Some?
    ensures HookImported(Rewrite(true, Some(ast)).value)
  {
    var comps := Candidates(ast);
    var injected := Inject(ast, [], comps);
    var out := Rewrite(true, Some(ast)).value;
    if HookImported(ast) {
      assert out == injected;
      var p :| p in Paths(ast, []) && ImportsHook(p.node);
      PathNode(ast, [], p);
      var y := InjectKeepsKind(ast, [], comps, p.node);
      assert ImportsHook(y);
      var py := PathTo(out, [], y);
    } else {
      assert out.kids == [HookImport] + injected.kids;
      NodesAllHas(out.kids, 0, HookImport);
      assert ImportSpecifier(IdentifierName(HookName), HookName) in HookImport.kind.specifiers;
      var pi := PathTo(out, [], HookImport);
    }
  }

  /** The output calls the hook once some candidate can be hooked. */
  lemma OutputCallsHook(ast: Node, q: NodePath)
    requires NoSynthetic(ast) && Rewrite(true, Some(ast)).Some?
    requires q in Candidates(ast) && Hookable(q.node)
    ensures HookCalled(Rewrite(true, Some(ast)).value)
  {
    var comps := Candidates(ast);
    var injected := Inject(ast, [], comps);
    var out := Rewrite(true, Some(ast)).value;
    CandidateInPaths(ast, q);
    InjectPlacesHook(ast, [], comps, q);
    if !HookImported(ast) {
      assert out.kids == [HookImport] + injected.kids;
      var i := NodesAllSplit(injected.kids, HookStatement);
      NodesAllHas(out.kids, i + 1, HookStatement);
    }
    var call := HookStatement.kids[0];
    NodesAllHas(HookStatement.kids, 0, call);
    NodesTransitive(out, HookStatement, call);
    var pc := PathTo(out, [], call);
    assert IsHookCall(pc.node);
  }

  /** The function `q` points at, with the hooks inside it, is a node of
      the injected tree. */
  lemma {:induction false} InjectKeepsFunction(n: Node, anc: seq<Node>, comps: set<NodePath>, q: NodePath)
    requires q in Paths(n, anc) && IsFunctionKind(q.node.kind)
    ensures Inject(q.node, q.ancestors, comps) in Nodes(Inject(n, anc, comps))
    decreases n
  {
    if q != NodePath(n, anc) {
      var j := PathsAllSplit(n.kids, [n] + anc, q);
      InjectKeepsFunction(n.kids[j], [n] + anc, comps, q);
      var y := KidNodesSurvive(n, anc, comps, j, Inject(q.node, q.ancestors, comps));
    }
  }

  lemma {:induction false} NoSyntheticNodes(n: Node, x: Node)
    requires NoSynthetic(n) && x in Nodes(n)
    ensures NoSynthetic(x)
    decreases n
  {
    if x != n {
      var j := NodesAllSplit(n.kids, x);
      assert n.kids[j] in n.kids;
      NoSyntheticNodes(n.kids[j], x);
    }
  }

  /** The function's body opens with the hook call. */
  predicate HookFirst(f: Node) {
    |f.kids| > 0 && |Body(f).kids| > 0 && Body(f).kids[0] == HookStatement
  }

  /** Without the hook of its own, a parsed function does not open with it. */
  lemma UnhookedNotFirst(f: Node, anc: seq<Node>, comps: set<NodePath>)
    requires NoSynthetic(f)
    ensures !HookFirst(f.(kids := InjectAll(f.kids, [f] + anc, comps)))
  {
    var m := f.(kids := InjectAll(f.kids, [f] + anc, comps));
    if |f.kids| > 0 {
      var b := Body(f);
      assert Body(m) == Inject(b, [f] + anc, comps);
      assert b in f.kids;
      var bm := b.(kids := InjectAll(b.kids, [b] + ([f] + anc), comps));
      if |b.kids| > 0 {
        assert b.kids[0] in b.kids && NoSynthetic(b.kids[0]);
        assert bm.kids[0] == Inject(b.kids[0], [b] + ([f] + anc), comps);
        assert bm.kids[0].origin.Parsed?;
        if Body(m) != bm {
          assert Body(m) == AddHook(bm);
          if |bm.kids| > 1 {
            assert Body(m).kids[0] == AddHook(bm).kids[..|bm.kids| - 1][0];
          } else if Hookable(bm) {
            assert Body(m).kids[0] == Body(AddHook(bm));
          }
        }
      }
    }
  }

  lemma HookableInjected(f: Node, anc: seq<Node>, comps: set<NodePath>)
    ensures Hookable(f.(kids := InjectAll(f.kids, [f] + anc, comps))) == Hookable(f)
  {
    var ks := InjectAll(f.kids, [f] + anc, comps);
    var m := f.(kids := ks);
    if |f.kids| > 0 {
      var last := |f.kids| - 1;
      assert ks[last] == Inject(f.kids[last], [f] + anc, comps);
      assert Body(m).kind == Body(f).kind;
    }
  }

  /** A parsed function opens with the hook after the injection exactly
      when it is a component the second pass can hook. */
  lemma InjectHookFirst(f: Node, anc: seq<Node>, comps: set<NodePath>)
    requires NoSynthetic(f)
    ensures HookFirst(Inject(f, anc, comps)) <==> NodePath(f, anc) in comps && Hookable(f)
  {
    var m := f.(kids := InjectAll(f.kids, [f] + anc, comps));
    UnhookedNotFirst(f, anc, comps);
    HookableInjected(f, anc, comps);
    if NodePath(f, anc) in comps && Hookable(f) {
      var r := AddHook(m);
      assert Body(r).kids[0] == HookStatement;
    }
  }

  /** Every function of the parsed program is in the output, under its own
      origin, and it opens with the hook call exactly when it is a
      candidate the second pass can hook. */
  lemma FunctionsHooked(ast: Node, q: NodePath) returns (y: Node)
    requires NoSynthetic(ast) && ast.kind.Program? && Rewrite(true, Some(ast)).Some?
    requires q in Paths(ast, []) && IsFunctionKind(q.node.kind)
    ensures y in Nodes(Rewrite(true, Some(ast)).value) && y.origin == q.node.origin && y.kind == q.node.kind
    ensures HookFirst(y) <==> q in Candidates(ast) && Hookable(q.node)
  {
    var comps := Candidates(ast);
    var injected := Inject(ast, [], comps);
    var out := Rewrite(true, Some(ast)).value;
    y := Inject(q.node, q.ancestors, comps);
    InjectKeepsFunction(ast, [], comps, q);
    if !HookImported(ast) {
      assert out.kids == [HookImport] + injected.kids;
      assert y != injected;
      var i := NodesAllSplit(injected.kids, y);
      NodesAllHas(out.kids, i + 1, y);
    }
    PathNode(ast, [], q);
    NoSyntheticNodes(ast, q.node);
    InjectHookFirst(q.node, q.ancestors, comps);
  }
}
