/**
  JavaScript's `String.prototype.trim`, as the Babel plugin's opt-out
  comment test uses it: strip white space and line terminators at both ends.
*/
module JsStrings {
  /** White space and line terminators as ECMAScript defines them: tab,
      vertical tab, form feed, space, no-break space, the byte order mark, the
      space separators of Unicode, line feed, carriage return, and the line
      and paragraph separators. */
  predicate IsJsWhitespace(c: char) {
    var x := c as int;
    x == 0x09 || x == 0x0A || x == 0x0B || x == 0x0C || x == 0x0D || x == 0x20 ||
    x == 0xA0 || x == 0x1680 || (0x2000 <= x <= 0x200A) || x == 0x2028 || x == 0x2029 ||
    x == 0x202F || x == 0x205F || x == 0x3000 || x == 0xFEFF
  }

  predicate AllWhitespace(s: string) {
    forall i | 0 <= i < |s| :: IsJsWhitespace(s[i])
  }

  /** The longest suffix of `s` that does not start with white space. */
  function TrimStart(s: string): (r: string)
    ensures |r| <= |s| && r == s[|s| - |r|..]
    ensures AllWhitespace(s[..|s| - |r|])
    ensures r != [] ==> !IsJsWhitespace(r[0])
  {
    if s != [] && IsJsWhitespace(s[0]) then TrimStart(s[1..]) else s
  }

  /** The longest prefix of `s` that does not end with white space. */
  function TrimEnd(s: string): (r: string)
    ensures |r| <= |s| && r == s[..|r|]
    ensures AllWhitespace(s[|r|..])
    ensures r != [] ==> !IsJsWhitespace(r[|r| - 1])
  {
    if s != [] && IsJsWhitespace(s[|s| - 1]) then TrimEnd(s[..|s| - 1]) else s
  }

  function Trim(s: string): string {
    TrimEnd(TrimStart(s))
  }

  /** `s` is `t` with white space around it. */
  predicate Padded(s: string, t: string) {
    |t| <= |s| &&
    exists i | 0 <= i <= |s| - |t| :: s[i..i + |t|] == t && AllWhitespace(s[..i]) && AllWhitespace(s[i + |t|..])
  }

  /** For a text that neither starts nor ends with white space, trimming
      gives it back exactly from the strings that pad it with white space. */
  lemma TrimIff(s: string, t: string)
    requires t != [] && !IsJsWhitespace(t[0]) && !IsJsWhitespace(t[|t| - 1])
    ensures Trim(s) == t <==> Padded(s, t)
  {
    if Trim(s) == t {
      TrimmedIsPadded(s, t);
    }
    if Padded(s, t) {
      var i :| 0 <= i <= |s| - |t| && s[i..i + |t|] == t && AllWhitespace(s[..i]) && AllWhitespace(s[i + |t|..]);
      PaddedTrims(s, t, i);
    }
  }

  lemma TrimmedIsPadded(s: string, t: string)
    requires Trim(s) == t
    ensures Padded(s, t)
  {
    var r1 := TrimStart(s);
    var a := |s| - |r1|;
    assert s[a..a + |t|] == r1[..|t|] == t;
    assert s[a + |t|..] == r1[|t|..];
  }

  lemma PaddedTrims(s: string, t: string, i: nat)
    requires t != [] && !IsJsWhitespace(t[0]) && !IsJsWhitespace(t[|t| - 1])
    requires i <= |s| - |t| && s[i..i + |t|] == t && AllWhitespace(s[..i]) && AllWhitespace(s[i + |t|..])
    ensures Trim(s) == t
  {
    var r1 := TrimStart(s);
    assert r1 == s[i..] by {
      TrimStartSkips(s, i);
    }
    assert r1 == t + s[i + |t|..];
    TrimEndSkips(r1, |t|);
  }

  /** Trimming the start stops at the first character that is not white space. */
  lemma {:induction false} TrimStartSkips(s: string, i: nat)
    requires i < |s| && AllWhitespace(s[..i]) && !IsJsWhitespace(s[i])
    ensures TrimStart(s) == s[i..]
    decreases i
  {
    if i > 0 {
      assert IsJsWhitespace(s[0]) by {
        assert s[..i][0] == s[0];
      }
      var t := s[1..][..i - 1];
      assert AllWhitespace(t) by {
        forall k | 0 <= k < |t|
          ensures IsJsWhitespace(t[k])
        {
          assert t[k] == s[..i][k + 1];
        }
      }
      TrimStartSkips(s[1..], i - 1);
      assert s[1..][i - 1..] == s[i..];
    }
  }

  /** Trimming the end stops at the last character that is not white space. */
  lemma {:induction false} TrimEndSkips(s: string, e: nat)
    requires 0 < e <= |s| && AllWhitespace(s[e..]) && !IsJsWhitespace(s[e - 1])
    ensures TrimEnd(s) == s[..e]
    decreases |s| - e
  {
    if e < |s| {
      var s' := s[..|s| - 1];
      assert IsJsWhitespace(s[|s| - 1]) by {
        assert s[e..][|s| - 1 - e] == s[|s| - 1];
      }
      var t := s'[e..];
      assert AllWhitespace(t) by {
        forall k | 0 <= k < |t|
          ensures IsJsWhitespace(t[k])
        {
          assert t[k] == s[e..][k];
        }
      }
      TrimEndSkips(s', e);
      assert s'[..e] == s[..e];
    }
  }
}

/**
  The Babel plugin's first pass (src/index.ts): one traversal that notes
  whether the module imports and calls the hook, and collects the paths of
  the functions it takes for components.
*/
module BabelDetect {
  import opened Wrappers
  import opened Syntax
  import opened JsStrings

  /** The callee names `checkReturnsJSX` takes for compiled markup. */
  const BabelJsxIdents: seq<string> := ["jsx", "jsxs", "h"]

  const OptOut: string := "@noSignals"

  /** `hasNoSignalsComment`: a leading line comment reading `@noSignals`,
      white space around it ignored. */
  predicate HasNoSignalsComment(n: Node) {
    exists c | c in n.comments :: c.CommentLine? && Trim(c.value) == OptOut
  }

  /** The opt-out comment is exactly a line comment holding `@noSignals`
      with nothing but white space around it. */
  lemma NoSignalsCommentIff(n: Node)
    ensures HasNoSignalsComment(n) <==> exists c | c in n.comments :: OptOutComment(c)
  {
    forall c | c in n.comments
      ensures c.CommentLine? && Trim(c.value) == OptOut <==> OptOutComment(c)
    {
      OptOutTrimmed(c.value);
    }
  }

  predicate OptOutComment(c: Comment) {
    c.CommentLine? && Padded(c.value, OptOut)
  }

  lemma OptOutTrimmed(s: string)
    ensures Trim(s) == OptOut <==> Padded(s, OptOut)
  {
    assert OptOut[0] == '@' && OptOut[|OptOut| - 1] == 's';
    TrimIff(s, OptOut);
  }

  /** The argument test of the `ReturnStatement` visitor in `checkReturnsJSX`. */
  predicate ReturnsMarkup(arg: Option<Node>) {
    arg.Some? &&
    (arg.value.kind.JSXElement? || arg.value.kind.JSXFragment? ||
     (CalleeName(arg.value).Some? && CalleeName(arg.value).value in BabelJsxIdents))
  }

  predicate IsMarkupReturn(d: Node) {
    d.kind.ReturnStatement? && ReturnsMarkup(ReturnArgument(d))
  }

  /** Some return below `f`, at any depth and inside nested functions too,
      gives markup. */
  predicate ReturnsJsx(f: Node) {
    exists d | d in NodesAll(f.kids) :: IsMarkupReturn(d)
  }

  /** `checkReturnsJSX`: traverse the descendants, setting a flag on each
      return that gives markup. */
  method CheckReturnsJsx(f: Node) returns (returnsJsx: bool)
    ensures returnsJsx == ReturnsJsx(f)
  {
    var descendants := NodesAll(f.kids);
    returnsJsx := false;
    var i := 0;
    while i < |descendants|
      invariant 0 <= i <= |descendants|
      invariant returnsJsx <==> exists j | 0 <= j < i :: IsMarkupReturn(descendants[j])
    {
      if descendants[i].kind.ReturnStatement? && ReturnsMarkup(ReturnArgument(descendants[i])) {
        returnsJsx := true;
      }
      i := i + 1;
    }
  }

  /** Descendants of descendants are descendants. */
  lemma {:induction false} NodesAllTransitive(ns: seq<Node>, g: Node, d: Node)
    requires g in NodesAll(ns) && d in NodesAll(g.kids)
    ensures d in NodesAll(ns)
    decreases ns, 1
  {
    if ns != [] {
      if g in Nodes(ns[0]) {
        NodesTransitive(ns[0], g, d);
      } else {
        NodesAllTransitive(ns[1..], g, d);
      }
    }
  }

  lemma {:induction false} NodesTransitive(n: Node, g: Node, d: Node)
    requires g in Nodes(n) && d in NodesAll(g.kids)
    ensures d in NodesAll(n.kids)
    decreases n, 0
  {
    if g != n {
      NodesAllTransitive(n.kids, g, d);
    }
  }

  /** Returns of nested functions count: a function with a nested function
      that returns markup returns markup itself. */
  lemma NestedReturnsCount(f: Node, g: Node)
    requires g in NodesAll(f.kids) && ReturnsJsx(g)
    ensures ReturnsJsx(f)
  {
    var d :| d in NodesAll(g.kids) && IsMarkupReturn(d);
    NodesAllTransitive(f.kids, g, d);
  }

  // ---------------------------------------------------------------------
  // Paths

  /** A traversal path: a node and its ancestors, nearest first. The program
      has none. */
  datatype NodePath = NodePath(node: Node, ancestors: seq<Node>)

  /** The paths of a tree in traversal order (pre-order). */
  function Paths(n: Node, anc: seq<Node>): (r: seq<NodePath>)
    ensures |r| > 0 && r[0] == NodePath(n, anc)
  {
    [NodePath(n, anc)] + PathsAll(n.kids, [n] + anc)
  }

  function PathsAll(ns: seq<Node>, anc: seq<Node>): seq<NodePath> {
    if ns == [] then [] else Paths(ns[0], anc) + PathsAll(ns[1..], anc)
  }

  /** `path.get(...)` of the `i`-th child. */
  function ChildPath(p: NodePath, i: nat): NodePath
    requires i < |p.node.kids|
  {
    NodePath(p.node.kids[i], [p.node] + p.ancestors)
  }

  /** The type of the `i`-th ancestor, when there is one. */
  function AncestorKind(p: NodePath, i: nat): Option<Kind> {
    if i < |p.ancestors| then Some(p.ancestors[i].kind) else None
  }

  /** The parent types that count as top level for declarations. */
  predicate IsTopLevelKind(k: Option<Kind>) {
    k == Some(Program) || k == Some(ExportNamedDeclaration) || k == Some(ExportDefaultDeclaration)
  }

  predicate IsFunctionExpressionKind(k: Kind) {
    k.ArrowFunctionExpression? || k.FunctionExpression?
  }

  /** `isFunction`: the path's own node is a function of any of the three kinds. */
  predicate IsFunction(expr: Option<NodePath>): (r: bool)
    ensures expr.None? ==> !r
    ensures expr.Some? ==> (r <==> expr.value.node.kind.FunctionDeclaration? ||
                                   expr.value.node.kind.ArrowFunctionExpression? ||
                                   expr.value.node.kind.FunctionExpression?)
  {
    expr.Some? && IsFunctionKind(expr.value.node.kind)
  }

  // ---------------------------------------------------------------------
  // The visitors

  /** The paths of the arrow and function-expression arguments of the call
      at `c`: every one of them, not only a single one. */
  function FunctionArgPaths(c: NodePath): set<NodePath> {
    set i | 1 <= i < |c.node.kids| && IsFunctionExpressionKind(c.node.kids[i].kind) :: ChildPath(c, i)
  }

  /** The top-level shapes of the `CallExpression` visitor: the call's parent
      is the program, an expression statement of the program, a variable
      declarator two levels below the program, or an export. */
  predicate CallIsTopLevel(p: NodePath) {
    AncestorKind(p, 0) == Some(Program) ||
    (AncestorKind(p, 0) == Some(ExpressionStatement) && AncestorKind(p, 1) == Some(Program)) ||
    (AncestorKind(p, 0) == Some(VariableDeclarator) && AncestorKind(p, 2) == Some(Program)) ||
    AncestorKind(p, 0) == Some(ExportDefaultDeclaration) ||
    AncestorKind(p, 0) == Some(ExportNamedDeclaration)
  }

  /** The nearest ancestor that is a variable declaration, from index `i`
      on (`findParent`). */
  function FindDeclaration(anc: seq<Node>, i: nat): (r: Option<nat>)
    ensures r.Some? ==> i <= r.value < |anc| && anc[r.value].kind.VariableDeclaration?
    ensures r.Some? ==> forall j | i <= j < r.value :: !anc[j].kind.VariableDeclaration?
    ensures r.None? ==> forall j | i <= j < |anc| :: !anc[j].kind.VariableDeclaration?
    decreases |anc| - i
  {
    if i >= |anc| then None
    else if anc[i].kind.VariableDeclaration? then Some(i)
    else FindDeclaration(anc, i + 1)
  }

  /** The type of the parent of the declarator's declaration. */
  function DeclarationParentKind(p: NodePath): Option<Kind> {
    match FindDeclaration(p.ancestors, 0)
    case None => None
    case Some(i) => AncestorKind(p, i + 1)
  }

  /** `CallExpression`: a hook call only sets the flag; another call in a
      top-level shape offers its function arguments. */
  function CallVisitor(p: NodePath): set<NodePath> {
    if IsHookCall(p.node) then {}
    else if CallIsTopLevel(p) then FunctionArgPaths(p)
    else {}
  }

  /** `FunctionDeclaration`: offered when its parent is the program or an export. */
  function FunctionDeclarationVisitor(p: NodePath): set<NodePath> {
    if IsTopLevelKind(AncestorKind(p, 0)) then {p} else {}
  }

  /** `VariableDeclarator`: when its declaration's parent is the program or
      an export, a function initializer, or the function arguments of a
      call initializer. */
  function VariableDeclaratorVisitor(p: NodePath): set<NodePath> {
    if !IsTopLevelKind(DeclarationParentKind(p)) || |p.node.kids| != 2 then {}
    else if IsFunctionExpressionKind(p.node.kids[1].kind) then {ChildPath(p, 1)}
    else if p.node.kids[1].kind.CallExpression? then FunctionArgPaths(ChildPath(p, 1))
    else {}
  }

  /** The declaration of an `export default`, as a set of at most one path. */
  function DeclarationPaths(p: NodePath): set<NodePath> {
    if |p.node.kids| > 0 then {ChildPath(p, 0)} else {}
  }

  /** `ExportDefaultDeclaration`: `isFunction` is asked about the export
      itself; otherwise a call declaration offers its function arguments. */
  function ExportDefaultVisitor(p: NodePath): set<NodePath> {
    if IsFunction(Some(p)) then DeclarationPaths(p)
    else if |p.node.kids| > 0 && p.node.kids[0].kind.CallExpression? then FunctionArgPaths(ChildPath(p, 0))
    else {}
  }

  /** The paths the visitor for `p`'s node type hands to `addComponentIfValid`. */
  function Considered(p: NodePath): set<NodePath> {
    match p.node.kind
    case CallExpression => CallVisitor(p)
    case FunctionDeclaration => FunctionDeclarationVisitor(p)
    case VariableDeclarator => VariableDeclaratorVisitor(p)
    case ExportDefaultDeclaration => ExportDefaultVisitor(p)
    case _ => {}
  }

  /** The test of `addComponentIfValid`. */
  predicate Valid(q: NodePath) {
    !HasNoSignalsComment(q.node) && ReturnsJsx(q.node)
  }

  function Found(p: NodePath): set<NodePath> {
    set q | q in Considered(p) && Valid(q)
  }

  /** `componentPaths` after visiting the paths `ps`. */
  function CandidatesIn(ps: seq<NodePath>): set<NodePath>
    decreases |ps|
  {
    if ps == [] then {} else CandidatesIn(ps[..|ps| - 1]) + Found(ps[|ps| - 1])
  }

  /** The `ImportDeclaration` visitor's test: an import from the runtime
      module with a specifier importing `useSignals` or binding that name. */
  predicate ImportsHook(n: Node) {
    n.kind.ImportDeclaration? && n.kind.source == RuntimeModule &&
    exists s | s in n.kind.specifiers :: s.ImportSpecifier? && (s.imported == IdentifierName(HookName) || s.local == HookName)
  }

  predicate ImportsHookIn(ps: seq<NodePath>) {
    exists p | p in ps :: ImportsHook(p.node)
  }

  predicate CallsHookIn(ps: seq<NodePath>) {
    exists p | p in ps :: IsHookCall(p.node)
  }

  /** The first pass over a whole module. */
  predicate HookImported(ast: Node) {
    ImportsHookIn(Paths(ast, []))
  }

  predicate HookCalled(ast: Node) {
    CallsHookIn(Paths(ast, []))
  }

  function Candidates(ast: Node): set<NodePath> {
    CandidatesIn(Paths(ast, []))
  }

  // ---------------------------------------------------------------------
  // The first pass as the source runs it

  /** `addComponentIfValid`. */
  method AddComponentIfValid(q: NodePath, componentPaths: set<NodePath>) returns (r: set<NodePath>)
    ensures r == if Valid(q) then componentPaths + {q} else componentPaths
  {
    r := componentPaths;
    if !HasNoSignalsComment(q.node) {
      var returnsJsx := CheckReturnsJsx(q.node);
      if returnsJsx {
        r := r + {q};
      }
    }
  }

  function ValidAmong(s: set<NodePath>): set<NodePath> {
    set q | q in s && Valid(q)
  }

  /** The `arguments.forEach` loop over the call at `c`. */
  method AddFunctionArguments(c: NodePath, componentPaths: set<NodePath>) returns (r: set<NodePath>)
    ensures r == componentPaths + ValidAmong(FunctionArgPaths(c))
  {
    r := componentPaths;
    var i := 1;
    while i < |c.node.kids|
      invariant 1 <= i <= |c.node.kids| || (i == 1 && |c.node.kids| == 0)
      invariant r == componentPaths + ValidAmong(set j | 1 <= j < i && j < |c.node.kids| && IsFunctionExpressionKind(c.node.kids[j].kind) :: ChildPath(c, j))
    {
      ghost var before := set j | 1 <= j < i && j < |c.node.kids| && IsFunctionExpressionKind(c.node.kids[j].kind) :: ChildPath(c, j);
      ghost var after := set j | 1 <= j < i + 1 && j < |c.node.kids| && IsFunctionExpressionKind(c.node.kids[j].kind) :: ChildPath(c, j);
      if IsFunctionExpressionKind(c.node.kids[i].kind) {
        assert after == before + {ChildPath(c, i)};
        r := AddComponentIfValid(ChildPath(c, i), r);
      } else {
        assert after == before;
      }
      i := i + 1;
    }
    assert FunctionArgPaths(c) == set j | 1 <= j < i && j < |c.node.kids| && IsFunctionExpressionKind(c.node.kids[j].kind) :: ChildPath(c, j);
  }

  /** The visitors on one path, with the flags and set as they stand. */
  method Visit(p: NodePath, hasSignalsImport: bool, hasUseSignalsCall: bool, componentPaths: set<NodePath>)
    returns (imported: bool, called: bool, comps: set<NodePath>)
    ensures imported == (hasSignalsImport || ImportsHook(p.node))
    ensures called == (hasUseSignalsCall || IsHookCall(p.node))
    ensures comps == componentPaths + Found(p)
  {
    imported, called, comps := hasSignalsImport, hasUseSignalsCall, componentPaths;
    var n := p.node;
    match n.kind {
      case ImportDeclaration(source, specifiers) =>
        if ImportsHook(n) {
          imported := true;
        }
        assert Found(p) == {};
      case CallExpression =>
        if IsHookCall(n) {
          called := true;
          assert Found(p) == {};
        } else if CallIsTopLevel(p) {
          comps := AddFunctionArguments(p, comps);
        } else {
          assert Found(p) == {};
        }
      case FunctionDeclaration =>
        if IsTopLevelKind(AncestorKind(p, 0)) {
          comps := AddComponentIfValid(p, comps);
        } else {
          assert Found(p) == {};
        }
      case VariableDeclarator =>
        comps := VisitDeclarator(p, comps);
      case ExportDefaultDeclaration =>
        comps := VisitExportDefault(p, comps);
      case _ =>
        assert Found(p) == {};
    }
  }

  method VisitDeclarator(p: NodePath, componentPaths: set<NodePath>) returns (r: set<NodePath>)
    requires p.node.kind.VariableDeclarator?
    ensures r == componentPaths + Found(p)
  {
    r := componentPaths;
    var decl := FindDeclaration(p.ancestors, 0);
    var parentType := if decl.Some? then AncestorKind(p, decl.value + 1) else None;
    if IsTopLevelKind(parentType) && |p.node.kids| == 2 {
      var init := p.node.kids[1];
      if IsFunctionExpressionKind(init.kind) {
        r := AddComponentIfValid(ChildPath(p, 1), r);
      } else if init.kind.CallExpression? {
        r := AddFunctionArguments(ChildPath(p, 1), r);
      } else {
        assert Found(p) == {};
      }
    } else {
      assert Found(p) == {};
    }
  }

  method VisitExportDefault(p: NodePath, componentPaths: set<NodePath>) returns (r: set<NodePath>)
    requires p.node.kind.ExportDefaultDeclaration?
    ensures r == componentPaths + Found(p)
  {
    r := componentPaths;
    if IsFunction(Some(p)) {
      assert false;
    } else if |p.node.kids| > 0 && p.node.kids[0].kind.CallExpression? {
      r := AddFunctionArguments(ChildPath(p, 0), r);
    } else {
      assert Found(p) == {};
    }
  }

  /** What the first pass leaves in its two flags and its set. */
  datatype Detection = Detection(hasSignalsImport: bool, hasUseSignalsCall: bool, componentPaths: set<NodePath>)

  /** The first `traverse` over the module. */
  method FirstPass(ast: Node) returns (d: Detection)
    ensures d == Detection(HookImported(ast), HookCalled(ast), Candidates(ast))
  {
    var paths := Paths(ast, []);
    var hasSignalsImport, hasUseSignalsCall := false, false;
    var componentPaths: set<NodePath> := {};
    var i := 0;
    while i < |paths|
      invariant 0 <= i <= |paths|
      invariant hasSignalsImport == ImportsHookIn(paths[..i])
      invariant hasUseSignalsCall == CallsHookIn(paths[..i])
      invariant componentPaths == CandidatesIn(paths[..i])
    {
      VisitedOneMore(paths, i);
      hasSignalsImport, hasUseSignalsCall, componentPaths := Visit(paths[i], hasSignalsImport, hasUseSignalsCall, componentPaths);
      i := i + 1;
    }
    assert paths[..i] == paths;
    return Detection(hasSignalsImport, hasUseSignalsCall, componentPaths);
  }

  /** What visiting one more path adds to each of the three results. */
  lemma VisitedOneMore(ps: seq<NodePath>, i: nat)
    requires i < |ps|
    ensures ImportsHookIn(ps[..i + 1]) == (ImportsHookIn(ps[..i]) || ImportsHook(ps[i].node))
    ensures CallsHookIn(ps[..i + 1]) == (CallsHookIn(ps[..i]) || IsHookCall(ps[i].node))
    ensures CandidatesIn(ps[..i + 1]) == CandidatesIn(ps[..i]) + Found(ps[i])
  {
    var pre := ps[..i + 1];
    assert pre == ps[..i] + [ps[i]];
    assert pre[..i] == ps[..i];
    assert forall p | p in pre :: p in ps[..i] || p == ps[i];
  }

  // ---------------------------------------------------------------------
  // What the first pass finds

  /** A path is a candidate exactly when some visited path offers it and it
      passes `addComponentIfValid`'s test. */
  lemma {:induction false} CandidatesInIff(ps: seq<NodePath>, q: NodePath)
    ensures q in CandidatesIn(ps) <==> Valid(q) && exists p | p in ps :: q in Considered(p)
    decreases |ps|
  {
    if ps != [] {
      var init, last := ps[..|ps| - 1], ps[|ps| - 1];
      assert CandidatesIn(ps) == CandidatesIn(init) + Found(last);
      CandidatesInIff(init, q);
      if q in Considered(last) {
        assert last in ps;
      }
      if exists p | p in init :: q in Considered(p) {
        var p :| p in init && q in Considered(p);
        var i :| 0 <= i < |init| && init[i] == p;
        assert ps[i] == p;
      }
      if exists p | p in ps :: q in Considered(p) {
        var p :| p in ps && q in Considered(p);
        var i :| 0 <= i < |ps| && ps[i] == p;
        if i < |ps| - 1 {
          assert init[i] == p;
        }
      }
    }
  }

  /** No candidate carries the opt-out comment, and every candidate returns
      markup somewhere inside. */
  lemma CandidatesAreValid(ast: Node, q: NodePath)
    requires q in Candidates(ast)
    ensures !HasNoSignalsComment(q.node) && ReturnsJsx(q.node)
  {
    CandidatesInIff(Paths(ast, []), q);
  }

  /** The path of the `i`-th ancestor (`parentPath`, followed `i + 1` times). */
  function AncestorPath(q: NodePath, i: nat): NodePath
    requires i < |q.ancestors|
  {
    NodePath(q.ancestors[i], q.ancestors[i + 1..])
  }

  /** The `VariableDeclarator` visitor's top-level test. */
  predicate DeclaratorIsTopLevel(d: NodePath) {
    d.node.kind.VariableDeclarator? && IsTopLevelKind(DeclarationParentKind(d))
  }

  /** The shapes in which an arrow or function expression is offered: as the
      initializer of a top-level declarator, or as an argument of a call
      that is itself in a top-level shape, the initializer of a top-level
      declarator, or the declaration of an `export default`. */
  predicate OfferedShape(q: NodePath) {
    |q.ancestors| > 0 &&
    (DeclaratorIsTopLevel(AncestorPath(q, 0)) ||
     (q.ancestors[0].kind.CallExpression? &&
      ((!IsHookCall(q.ancestors[0]) && CallIsTopLevel(AncestorPath(q, 0))) ||
       (|q.ancestors| > 1 &&
        (DeclaratorIsTopLevel(AncestorPath(q, 1)) || q.ancestors[1].kind.ExportDefaultDeclaration?)))))
  }

  /** What a visitor offers is a function declaration offered by its own
      visitor in a top-level position, or an arrow or function expression in
      one of the offered shapes. */
  lemma ConsideredShape(p: NodePath, q: NodePath)
    requires q in Considered(p)
    ensures q.node.kind.FunctionDeclaration? ==> q == p && IsTopLevelKind(AncestorKind(p, 0))
    ensures !q.node.kind.FunctionDeclaration? ==> IsFunctionExpressionKind(q.node.kind) && OfferedShape(q)
  {
    match p.node.kind {
      case CallExpression =>
        var i :| 1 <= i < |p.node.kids| && q == ChildPath(p, i);
        assert AncestorPath(q, 0) == p;
      case VariableDeclarator =>
        if q == ChildPath(p, 1) {
          assert AncestorPath(q, 0) == p;
        } else {
          var c := ChildPath(p, 1);
          var i :| 1 <= i < |c.node.kids| && q == ChildPath(c, i);
          assert AncestorPath(q, 1) == p;
        }
      case ExportDefaultDeclaration =>
        assert !IsFunction(Some(p));
        var c := ChildPath(p, 0);
        var i :| 1 <= i < |c.node.kids| && q == ChildPath(c, i);
        assert q.ancestors[1] == p.node;
      case FunctionDeclaration =>
      case _ =>
    }
  }

  /** A node with its ancestors, nearest first. */
  function Chain(p: NodePath): seq<Node> {
    [p.node] + p.ancestors
  }

  predicate IsExportKind(k: Kind) {
    k.ExportNamedDeclaration? || k.ExportDefaultDeclaration?
  }

  /** The placement rules of a parsed module along one path: the root is the
      program and the only program, exports sit directly in the program, and
      a variable declarator sits directly in a variable declaration. */
  predicate ModuleChain(p: NodePath) {
    var c := Chain(p);
    c[|c| - 1].kind.Program? &&
    forall j | 0 <= j < |c| ::
      (c[j].kind.Program? ==> j == |c| - 1) &&
      (IsExportKind(c[j].kind) ==> j == |c| - 2) &&
      (c[j].kind.VariableDeclarator? ==> j + 1 < |c| && c[j + 1].kind.VariableDeclaration?)
  }

  /** At most five levels below the program, with no function on the way. */
  predicate OuterAncestors(q: NodePath) {
    |q.ancestors| <= 5 && forall j | 0 <= j < |q.ancestors| :: !IsFunctionKind(q.ancestors[j].kind)
  }

  /** Along a chain whose placement rules hold, a top-level parent kind at
      position `k` is the program, or an export directly in the program. */
  lemma TopAt(q: NodePath, k: nat)
    requires ModuleChain(q) && k < |Chain(q)| && IsTopLevelKind(Some(Chain(q)[k].kind))
    ensures |Chain(q)| == k + 1 || (|Chain(q)| == k + 2 && IsExportKind(Chain(q)[k].kind))
    ensures Chain(q)[|Chain(q)| - 1].kind.Program?
  {
  }

  /** A top-level declarator at position `k` of the chain sits in a
      declaration at `k + 1`, whose parent at `k + 2` is top-level. */
  lemma DeclaratorAt(q: NodePath, k: nat)
    requires ModuleChain(q) && 1 <= k < |Chain(q)| && DeclaratorIsTopLevel(AncestorPath(q, k - 1))
    ensures k + 2 < |Chain(q)| && Chain(q)[k].kind.VariableDeclarator? && Chain(q)[k + 1].kind.VariableDeclaration?
    ensures IsTopLevelKind(Some(Chain(q)[k + 2].kind))
  {
    var c, d := Chain(q), AncestorPath(q, k - 1);
    assert c[k] == d.node;
    assert c[k + 1] == d.ancestors[0];
    assert FindDeclaration(d.ancestors, 0) == Some(0);
    assert c[k + 2] == d.ancestors[1];
  }

  /** Arguments of a call in a top-level shape. */
  lemma OuterCallArgument(q: NodePath)
    requires ModuleChain(q) && |q.ancestors| > 0 && q.ancestors[0].kind.CallExpression?
    requires CallIsTopLevel(AncestorPath(q, 0))
    ensures OuterAncestors(q)
  {
    var c, cp := Chain(q), AncestorPath(q, 0);
    assert forall i | 0 <= i < |cp.ancestors| :: cp.ancestors[i] == c[i + 2];
    if AncestorKind(cp, 0) == Some(Program) {
      TopAt(q, 2);
    } else if AncestorKind(cp, 0) == Some(ExpressionStatement) && AncestorKind(cp, 1) == Some(Program) {
      TopAt(q, 3);
    } else if AncestorKind(cp, 0) == Some(VariableDeclarator) && AncestorKind(cp, 2) == Some(Program) {
      TopAt(q, 4);
      assert c[2].kind.VariableDeclarator?;
    } else {
      TopAt(q, 2);
    }
    forall j | 0 <= j < |q.ancestors|
      ensures !IsFunctionKind(q.ancestors[j].kind)
    {
      assert q.ancestors[j] == c[j + 1];
      if j == 0 {
      } else if j == 1 {
      } else if j == 2 {
      } else {
      }
    }
  }

  /** A function declaration directly in the program or an export. */
  lemma OuterDeclaration(q: NodePath)
    requires ModuleChain(q) && IsTopLevelKind(AncestorKind(q, 0))
    ensures OuterAncestors(q)
  {
    var c := Chain(q);
    assert c[1] == q.ancestors[0];
    TopAt(q, 1);
    forall j | 0 <= j < |q.ancestors|
      ensures !IsFunctionKind(q.ancestors[j].kind)
    {
      assert q.ancestors[j] == c[j + 1];
    }
  }

  /** The initializer of a top-level declarator, or (`k == 2`) an argument
      of a call that is that initializer. */
  lemma OuterDeclaratorPart(q: NodePath, k: nat)
    requires ModuleChain(q) && (k == 1 || (k == 2 && |q.ancestors| > 0 && q.ancestors[0].kind.CallExpression?))
    requires k - 1 < |q.ancestors| && DeclaratorIsTopLevel(AncestorPath(q, k - 1))
    ensures OuterAncestors(q)
  {
    var c := Chain(q);
    DeclaratorAt(q, k);
    TopAt(q, k + 2);
    forall j | 0 <= j < |q.ancestors|
      ensures !IsFunctionKind(q.ancestors[j].kind)
    {
      assert q.ancestors[j] == c[j + 1];
      if j == 0 {
      } else if j == 1 {
      } else if j == 2 {
      } else if j == 3 {
      } else {
      }
    }
  }

  /** An argument of the call an `export default` declares. */
  lemma OuterExportArgument(q: NodePath)
    requires ModuleChain(q) && |q.ancestors| > 1 && q.ancestors[0].kind.CallExpression?
    requires q.ancestors[1].kind.ExportDefaultDeclaration?
    ensures OuterAncestors(q)
  {
    var c := Chain(q);
    assert c[2] == q.ancestors[1];
    TopAt(q, 2);
    forall j | 0 <= j < |q.ancestors|
      ensures !IsFunctionKind(q.ancestors[j].kind)
    {
      assert q.ancestors[j] == c[j + 1];
      if j == 0 {
      } else {
      }
    }
  }

  /** No function the visitors offer sits inside another function, and none
      is more than five levels below the program. */
  lemma ConsideredOuter(p: NodePath, q: NodePath)
    requires q in Considered(p) && ModuleChain(q)
    ensures OuterAncestors(q)
  {
    ConsideredShape(p, q);
    if q.node.kind.FunctionDeclaration? {
      OuterDeclaration(q);
    } else if DeclaratorIsTopLevel(AncestorPath(q, 0)) {
      OuterDeclaratorPart(q, 1);
    } else if !IsHookCall(q.ancestors[0]) && CallIsTopLevel(AncestorPath(q, 0)) {
      OuterCallArgument(q);
    } else if DeclaratorIsTopLevel(AncestorPath(q, 1)) {
      OuterDeclaratorPart(q, 2);
    } else {
      OuterExportArgument(q);
    }
  }

  /** A visitor offers only its own path, a child's or a grandchild's. */
  lemma ConsideredFrom(p: NodePath, q: NodePath)
    ensures q in Considered(p) ==>
              q == p || q.ancestors == [p.node] + p.ancestors ||
              (|q.ancestors| > 0 && q.ancestors[1..] == [p.node] + p.ancestors)
  {
    if q in Considered(p) && q != p {
      if p.node.kind.ExportDefaultDeclaration? {
        assert !IsFunction(Some(p));
      }
      if q.ancestors != [p.node] + p.ancestors {
        var c := if p.node.kind.CallExpression? then p else if p.node.kind.VariableDeclarator? then ChildPath(p, 1) else ChildPath(p, 0);
        assert q in FunctionArgPaths(c);
        var i :| 1 <= i < |c.node.kids| && q == ChildPath(c, i);
        assert q.ancestors[1..] == c.ancestors;
      }
    }
  }

  /** A function declaration is a candidate exactly when its parent is the
      program or an export and it passes the test. */
  lemma FunctionDeclarationCandidates(ast: Node, q: NodePath)
    requires q.node.kind.FunctionDeclaration?
    ensures q in Candidates(ast) <==>
            q in Paths(ast, []) && IsTopLevelKind(AncestorKind(q, 0)) && Valid(q)
  {
    CandidatesInIff(Paths(ast, []), q);
    if q in Candidates(ast) {
      var p :| p in Paths(ast, []) && q in Considered(p);
      ConsideredShape(p, q);
    }
    if q in Paths(ast, []) && IsTopLevelKind(AncestorKind(q, 0)) && Valid(q) {
      assert q in Considered(q);
    }
  }

  /** `export default () => ...` and `export default function () {...}` as
      expressions are never candidates: the direct branch of the
      `ExportDefaultDeclaration` visitor asks `isFunction` about the export
      node, and no other visitor offers a function whose parent is an export. */
  lemma ExportDefaultFunctionIgnored(ast: Node, q: NodePath)
    requires IsFunctionExpressionKind(q.node.kind) && AncestorKind(q, 0) == Some(ExportDefaultDeclaration)
    ensures q !in Candidates(ast)
  {
    CandidatesInIff(Paths(ast, []), q);
    if q in Candidates(ast) {
      var p :| p in Paths(ast, []) && q in Considered(p);
      ConsideredShape(p, q);
    }
  }
}
