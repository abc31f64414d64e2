/**
  The two implementations side by side: the Babel plugin's tests are looser
  in some places and stricter in others than the Rollup plugin's.
*/
module Comparison {
  import opened Wrappers
  import opened Syntax
  import PluginReturns
  import PluginTransform
  import BabelDetect
  import BabelInject

  /** The factory names only the Rollup plugin's list has. */
  const OnlyRollupFactories: set<string> := {"jsxDEV", "jsxsDEV", "_jsx", "_jsxs", "_jsxDEV", "_jsxsDEV"}

  /** Every return argument the Babel plugin takes for markup the Rollup
      plugin does too; the Rollup plugin takes in addition exactly the calls
      of the development and underscore-prefixed factories. */
  lemma MarkupTestsCompared(arg: Option<Node>)
    ensures BabelDetect.ReturnsMarkup(arg) ==> PluginReturns.IsJsx(arg)
    ensures PluginReturns.IsJsx(arg) && !BabelDetect.ReturnsMarkup(arg) <==>
            arg.Some? && CalleeName(arg.value).Some? && CalleeName(arg.value).value in OnlyRollupFactories &&
            !arg.value.kind.JSXElement? && !arg.value.kind.JSXFragment?
  {
  }

  const DevCall := Node(Parsed(2, 7), CallExpression, [Node(Parsed(3, 7), Identifier("jsxDEV"), [], None, [])], None, [])

  /** `return jsxDEV(...)`, what the development build of the JSX runtime
      emits, is markup for the Rollup plugin only. */
  lemma DevFactoryOnlyRollup()
    ensures PluginReturns.IsJsx(Some(DevCall)) && !BabelDetect.ReturnsMarkup(Some(DevCall))
  {
    MarkupTestsCompared(Some(DevCall));
  }

  /** An import the Rollup plugin accepts is one the Babel plugin accepts. */
  lemma {:induction false} ImportTestsCompared(ast: Node)
    requires PluginTransform.HasImport(ast)
    ensures BabelDetect.HookImported(ast)
  {
    var k :| k in ast.kids && k.kind.ImportDeclaration? && k.kind.source == RuntimeModule &&
             exists s | s in k.kind.specifiers :: s.ImportSpecifier? && s.imported == IdentifierName(HookName);
    var j :| 0 <= j < |ast.kids| && ast.kids[j] == k;
    assert BabelDetect.ImportsHook(k);
    BabelInject.ChildPathIn(ast, [], BabelDetect.NodePath(ast, []), j);
  }

  const AliasImport := Node(Parsed(1, 0), ImportDeclaration(RuntimeModule, [ImportSpecifier(IdentifierName("hook"), HookName)]), [], None, [])
  const AliasModule := Node(Parsed(0, 0), Program, [AliasImport], None, [])

  /** `import { hook as useSignals } from '@preact/signals-react/runtime'`
      satisfies the Babel plugin through its local name, not the Rollup
      plugin, which looks at the imported name only. */
  lemma AliasOnlyBabel()
    ensures BabelDetect.HookImported(AliasModule) && !PluginTransform.HasImport(AliasModule)
  {
    assert BabelDetect.ImportsHook(AliasImport);
    BabelInject.ChildPathIn(AliasModule, [], BabelDetect.NodePath(AliasModule, []), 0);
  }
}
