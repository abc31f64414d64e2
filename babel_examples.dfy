/**
  The module of test.js (lines 5-32) as the Babel plugin sees it, with the
  starts of its nodes as offsets into that text:

    import React from 'react';
    import { signal } from '@preact/signals-react';
    const counter = signal(0);
    export const TestComponent = () => {
      const handleClick = useCallback(() => { console.log('clicked'); counter.value++; }, []);
      return (<div>...</div>);
    };
    function foo() { return 42; }
    function InternalComponent() { return <div>foobar</div>; }

  Member expressions, literals and the markup's own children are leaves.
*/
module BabelTransformExamples {
  import opened Wrappers
  import opened Syntax
  import opened BabelDetect
  import opened BabelInject

  function Leaf(id: nat, start: nat, k: Kind): Node {
    Node(Parsed(id, start), k, [], None, [])
  }

  function Inner(id: nat, start: nat, k: Kind, kids: seq<Node>): Node {
    Node(Parsed(id, start), k, kids, None, [])
  }

  const ReactImport := Leaf(1, 1, ImportDeclaration("react", [ImportDefaultSpecifier("React")]))
  const SignalImport := Leaf(2, 28, ImportDeclaration("@preact/signals-react", [ImportSpecifier(IdentifierName("signal"), "signal")]))

  const SignalCallee := Leaf(6, 93, Identifier("signal"))
  const Zero := Leaf(7, 100, Other("NumericLiteral"))
  const SignalCall := Inner(5, 93, CallExpression, [SignalCallee, Zero])
  const CounterName := Leaf(8, 83, Identifier("counter"))
  const CounterDeclarator := Inner(4, 83, VariableDeclarator, [CounterName, SignalCall])
  const CounterDeclaration := Inner(3, 77, VariableDeclaration, [CounterDeclarator])

  const LogMember := Leaf(22, 188, Other("MemberExpression"))
  const LogText := Leaf(23, 200, Other("StringLiteral"))
  const LogCall := Inner(21, 188, CallExpression, [LogMember, LogText])
  const LogStatement := Inner(20, 188, ExpressionStatement, [LogCall])
  const Increment := Leaf(25, 216, Other("UpdateExpression"))
  const IncrementStatement := Inner(24, 216, ExpressionStatement, [Increment])
  const ClickBody := Inner(19, 182, BlockStatement, [LogStatement, IncrementStatement])
  const ClickArrow := Inner(18, 176, ArrowFunctionExpression, [ClickBody])
  const ClickCallee := Leaf(17, 164, Identifier("useCallback"))
  const NoDeps := Leaf(26, 238, Other("ArrayExpression"))
  const ClickCall := Inner(16, 164, CallExpression, [ClickCallee, ClickArrow, NoDeps])
  const ClickName := Leaf(15, 150, Identifier("handleClick"))
  const ClickDeclarator := Inner(14, 150, VariableDeclarator, [ClickName, ClickCall])
  const ClickDeclaration := Inner(13, 144, VariableDeclaration, [ClickDeclarator])

  const TestMarkup := Leaf(28, 259, JSXElement)
  const TestReturn := Inner(27, 246, ReturnStatement, [TestMarkup])
  const TestBody := Inner(12, 140, BlockStatement, [ClickDeclaration, TestReturn])
  const TestArrow := Inner(11, 134, ArrowFunctionExpression, [TestBody])
  const TestName := Leaf(29, 118, Identifier("TestComponent"))
  const TestDeclarator := Inner(10, 118, VariableDeclarator, [TestName, TestArrow])
  const TestDeclaration := Inner(9, 112, VariableDeclaration, [TestDeclarator])
  const TestExport := Inner(30, 105, ExportNamedDeclaration, [TestDeclaration])

  const FortyTwo := Leaf(34, 406, Other("NumericLiteral"))
  const FooReturn := Inner(33, 399, ReturnStatement, [FortyTwo])
  const FooBody := Inner(35, 395, BlockStatement, [FooReturn])
  const FooName := Leaf(32, 389, Identifier("foo"))
  const Foo := Inner(31, 380, FunctionDeclaration, [FooName, FooBody])

  const InternalMarkup := Leaf(39, 453, JSXElement)
  const InternalReturn := Inner(38, 446, ReturnStatement, [InternalMarkup])
  const InternalBody := Inner(40, 442, BlockStatement, [InternalReturn])
  const InternalName := Leaf(37, 422, Identifier("InternalComponent"))
  const Internal := Inner(36, 413, FunctionDeclaration, [InternalName, InternalBody])

  const TestModule := Inner(0, 0, Program, [ReactImport, SignalImport, CounterDeclaration, TestExport, Foo, Internal])

  const ModulePath := NodePath(TestModule, [])
  const ExportPath := ChildPath(ModulePath, 3)
  const TestDeclarationPath := ChildPath(ExportPath, 0)
  const TestDeclaratorPath := ChildPath(TestDeclarationPath, 0)
  const TestArrowPath := ChildPath(TestDeclaratorPath, 1)
  const TestBodyPath := ChildPath(TestArrowPath, 0)
  const ClickDeclarationPath := ChildPath(TestBodyPath, 0)
  const ClickDeclaratorPath := ChildPath(ClickDeclarationPath, 0)
  const ClickCallPath := ChildPath(ClickDeclaratorPath, 1)
  const ClickArrowPath := ChildPath(ClickCallPath, 1)
  const FooPath := ChildPath(ModulePath, 4)
  const InternalPath := ChildPath(ModulePath, 5)

  /** Parsed, and without the runtime import, all the way down. */
  predicate Plain(n: Node) {
    n.origin.Parsed? && !ImportsHook(n) && forall k | k in n.kids :: Plain(k)
  }

  lemma {:induction false} PlainNodes(n: Node, x: Node)
    requires Plain(n) && x in Nodes(n)
    ensures NoSynthetic(n) && !ImportsHook(x)
    decreases n
  {
    forall k | k in n.kids
      ensures NoSynthetic(k)
    {
      PlainNodes(k, k);
    }
    if x != n {
      var j := NodesAllSplit(n.kids, x);
      assert n.kids[j] in n.kids;
      PlainNodes(n.kids[j], x);
    }
  }

  lemma TestModulePlain()
    ensures Plain(TestModule)
  {
    assert Plain(ReactImport) && Plain(SignalImport);
    assert Plain(SignalCallee) && Plain(Zero) && Plain(CounterName);
    assert Plain(SignalCall);
    assert Plain(CounterDeclarator);
    assert Plain(CounterDeclaration);
    assert Plain(TestExport) by {
      ClickPlain();
      assert Plain(TestMarkup);
      assert Plain(TestReturn);
      assert Plain(TestBody);
      assert Plain(TestArrow) && Plain(TestName);
      assert Plain(TestDeclarator);
      assert Plain(TestDeclaration);
    }
    assert Plain(Foo) by {
      assert Plain(FortyTwo) && Plain(FooName);
      assert Plain(FooReturn);
      assert Plain(FooBody);
    }
    assert Plain(Internal) by {
      assert Plain(InternalMarkup) && Plain(InternalName);
      assert Plain(InternalReturn);
      assert Plain(InternalBody);
    }
  }

  lemma ClickPlain()
    ensures Plain(ClickDeclaration)
  {
    assert Plain(LogMember) && Plain(LogText) && Plain(Increment);
    assert Plain(LogCall);
    assert Plain(LogStatement) && Plain(IncrementStatement);
    assert Plain(ClickBody);
    assert Plain(ClickArrow) && Plain(ClickCallee) && Plain(NoDeps);
    assert Plain(ClickCall) && Plain(ClickName);
    assert Plain(ClickDeclarator);
  }

  lemma ExamplePaths()
    ensures TestDeclaratorPath in Paths(TestModule, [])
    ensures TestArrowPath in Paths(TestModule, []) && ClickArrowPath in Paths(TestModule, [])
    ensures FooPath in Paths(TestModule, []) && InternalPath in Paths(TestModule, [])
  {
    var m := TestModule;
    ChildPathIn(m, [], ModulePath, 3);
    ChildPathIn(m, [], ExportPath, 0);
    ChildPathIn(m, [], TestDeclarationPath, 0);
    ChildPathIn(m, [], TestDeclaratorPath, 1);
    ChildPathIn(m, [], TestArrowPath, 0);
    ChildPathIn(m, [], TestBodyPath, 0);
    ChildPathIn(m, [], ClickDeclarationPath, 0);
    ChildPathIn(m, [], ClickDeclaratorPath, 1);
    ChildPathIn(m, [], ClickCallPath, 1);
    ChildPathIn(m, [], ModulePath, 4);
    ChildPathIn(m, [], ModulePath, 5);
  }

  /** `TestComponent` is offered by its declarator, whose declaration sits
      in an export, and it returns markup. */
  lemma TestComponentFound()
    ensures TestArrowPath in Candidates(TestModule)
  {
    ExamplePaths();
    TestComponentValid();
    assert DeclarationParentKind(TestDeclaratorPath) == Some(ExportNamedDeclaration);
    assert TestArrowPath in Considered(TestDeclaratorPath);
    CandidatesInIff(Paths(TestModule, []), TestArrowPath);
  }

  lemma TestComponentValid()
    ensures Valid(TestArrowPath)
  {
    var body, arrow := TestBody, TestArrow;
    assert body.kids[1] == TestReturn && arrow.kids[0] == body;
    NodesAllHas(body.kids, 1, TestReturn);
    assert TestReturn in Nodes(body);
    NodesAllHas(arrow.kids, 0, TestReturn);
    assert IsMarkupReturn(TestReturn);
    assert !HasNoSignalsComment(arrow);
  }

  lemma InternalComponentFound()
    ensures InternalPath in Candidates(TestModule)
  {
    ExamplePaths();
    NodesAllHas(InternalBody.kids, 0, InternalReturn);
    NodesAllHas(Internal.kids, 1, InternalReturn);
    assert IsMarkupReturn(InternalReturn);
    FunctionDeclarationCandidates(TestModule, InternalPath);
  }

  /** `foo` returns a number: no return below it gives markup. */
  lemma FooIgnored()
    ensures FooPath !in Candidates(TestModule)
  {
    assert NodesAll(FooReturn.kids) == [FortyTwo] by {
      assert FooReturn.kids[1..] == [];
    }
    assert NodesAll(FooBody.kids) == [FooReturn, FortyTwo] by {
      assert FooBody.kids[1..] == [];
    }
    assert Nodes(FooBody) == [FooBody, FooReturn, FortyTwo];
    assert NodesAll([FooBody]) == Nodes(FooBody) by {
      assert [FooBody][1..] == [];
    }
    assert NodesAll(Foo.kids) == [FooName, FooBody, FooReturn, FortyTwo] by {
      assert Nodes(FooName) == [FooName];
      assert Foo.kids[1..] == [FooBody];
    }
    assert !ReturnsJsx(Foo);
    FunctionDeclarationCandidates(TestModule, FooPath);
  }

  /** The `handleClick` callback is an argument of a call inside the
      component's body, so neither the call's visitor nor its declarator's
      offers it. */
  lemma ClickIgnored()
    ensures forall p | p in Paths(TestModule, []) :: ClickArrowPath !in Considered(p)
    ensures ClickArrowPath !in Candidates(TestModule)
  {
    var q := ClickArrowPath;
    ClickNotOffered();
    assert ClickCallPath == NodePath(q.ancestors[0], q.ancestors[1..]);
    assert ClickDeclaratorPath == NodePath(q.ancestors[1], q.ancestors[2..]);
    forall p | p in Paths(TestModule, [])
      ensures q !in Considered(p)
    {
      ConsideredFrom(p, q);
      assert ([p.node] + p.ancestors)[0] == p.node && ([p.node] + p.ancestors)[1..] == p.ancestors;
      if q.ancestors == [p.node] + p.ancestors {
        assert p == ClickCallPath;
      } else if |q.ancestors| > 0 && q.ancestors[1..] == [p.node] + p.ancestors {
        assert q.ancestors[1..][0] == q.ancestors[1] && q.ancestors[1..][1..] == q.ancestors[2..];
        assert p == ClickDeclaratorPath;
      }
    }
    CandidatesInIff(Paths(TestModule, []), q);
  }

  /** Neither the callback, nor the call, nor the declarator offers anything. */
  lemma ClickNotOffered()
    ensures Considered(ClickArrowPath) == {}
    ensures Considered(ClickCallPath) == {} && Considered(ClickDeclaratorPath) == {}
  {
    assert !CallIsTopLevel(ClickCallPath);
    assert DeclarationParentKind(ClickDeclaratorPath) == Some(BlockStatement);
  }

  lemma NoHookImport()
    ensures !HookImported(TestModule)
  {
    TestModulePlain();
    forall p | p in Paths(TestModule, [])
      ensures !ImportsHook(p.node)
    {
      PathNode(TestModule, [], p);
      PlainNodes(TestModule, p.node);
    }
  }

  /** The findings of the first pass on the module. */
  lemma TestModuleDetected()
    ensures NoSynthetic(TestModule) && !HookImported(TestModule)
    ensures TestArrowPath in Candidates(TestModule) && InternalPath in Candidates(TestModule)
    ensures FooPath !in Candidates(TestModule) && ClickArrowPath !in Candidates(TestModule)
  {
    TestModulePlain();
    PlainNodes(TestModule, TestModule);
    TestComponentFound();
    InternalComponentFound();
    FooIgnored();
    ClickIgnored();
    NoHookImport();
  }

  /** What test.js checks: the output gains the import as its first
      statement, `TestComponent` and `InternalComponent` open with the hook,
      `foo` and the `handleClick` callback do not; and a second run leaves
      the output alone. */
  lemma TestModuleRewritten() returns (test: Node, internal: Node, foo: Node, click: Node)
    ensures Rewrite(true, Some(TestModule)).Some?
    ensures var out := Rewrite(true, Some(TestModule)).value;
            out.kids[0] == HookImport &&
            test in Nodes(out) && test.origin == TestArrow.origin && HookFirst(test) &&
            internal in Nodes(out) && internal.origin == Internal.origin && HookFirst(internal) &&
            foo in Nodes(out) && foo.origin == Foo.origin && !HookFirst(foo) &&
            click in Nodes(out) && click.origin == ClickArrow.origin && !HookFirst(click)
    ensures Rewrite(true, Rewrite(true, Some(TestModule))).None?
  {
    TestModuleDetected();
    test, internal := ComponentsHooked();
    foo, click := OthersUnhooked();
    RewriteSettles(TestModule, TestArrowPath);
  }

  lemma ComponentsHooked() returns (test: Node, internal: Node)
    ensures Rewrite(true, Some(TestModule)).Some?
    ensures var out := Rewrite(true, Some(TestModule)).value;
            test in Nodes(out) && test.origin == TestArrow.origin && HookFirst(test) &&
            internal in Nodes(out) && internal.origin == Internal.origin && HookFirst(internal)
  {
    TestModuleDetected();
    ExamplePaths();
    test := FunctionsHooked(TestModule, TestArrowPath);
    internal := FunctionsHooked(TestModule, InternalPath);
  }

  lemma OthersUnhooked() returns (foo: Node, click: Node)
    ensures Rewrite(true, Some(TestModule)).Some?
    ensures var out := Rewrite(true, Some(TestModule)).value;
            out.kids[0] == HookImport &&
            foo in Nodes(out) && foo.origin == Foo.origin && !HookFirst(foo) &&
            click in Nodes(out) && click.origin == ClickArrow.origin && !HookFirst(click)
  {
    TestModuleDetected();
    ExamplePaths();
    foo := FunctionsHooked(TestModule, FooPath);
    click := FunctionsHooked(TestModule, ClickArrowPath);
  }
}
