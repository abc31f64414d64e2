/**
  The component of test/src/components/Button.tsx as the Rollup plugin sees
  it: `export const Button = forwardRef((props, ref) => { return <button/>; })`
  (type arguments, the interface and the import left out of the tree). The
  arrow owns scope 1 under the module's root scope 0; nothing else owns one.
*/
module PluginTransformExamples {
  import opened Wrappers
  import opened Syntax
  import opened PluginReturns
  import opened PluginTransform

  const Parents: ScopeParents := map[1 := 0]

  const Markup := Node(Parsed(9, 216), JSXElement, [], None, [])
  const MarkupReturn := Node(Parsed(8, 209), ReturnStatement, [Markup], None, [])
  const ArrowBody := Node(Parsed(7, 205), BlockStatement, [MarkupReturn], None, [])
  const PropsParam := Node(Parsed(10, 190), Identifier("props"), [], None, [])
  const RefParam := Node(Parsed(11, 197), Identifier("ref"), [], None, [])
  const Arrow := Node(Parsed(6, 189), ArrowFunctionExpression, [PropsParam, RefParam, ArrowBody], Some(1), [])
  const Callee := Node(Parsed(12, 146), Identifier("forwardRef"), [], None, [])
  const Wrapper := Node(Parsed(5, 146), CallExpression, [Callee, Arrow], None, [])
  const Target := Node(Parsed(13, 137), Identifier("Button"), [], None, [])
  const Declarator := Node(Parsed(4, 137), VariableDeclarator, [Target, Wrapper], None, [])
  const Declaration := Node(Parsed(3, 131), VariableDeclaration, [Declarator], None, [])
  const Export := Node(Parsed(2, 124), ExportNamedDeclaration, [Declaration], None, [])
  const ButtonModule := Node(Parsed(1, 0), Program, [Export], None, [])

  /** The arrow's body gives markup from its own return, whichever scope
      the collector takes as home. */
  lemma ArrowRendersMarkup(home: ScopeId)
    ensures RendersMarkup(Parents, Some(home), Arrow)
  {
    assert InHome(Parents, Some(home), Markup);
    assert InHome(Parents, Some(home), MarkupReturn);
    assert InHome(Parents, Some(home), ArrowBody);
    CollectHomeExact(Parents, Some(home), ArrowBody);
    assert HomeReturns(Markup) == [] && HomeReturnsAll([Markup]) == [];
    assert HomeReturns(MarkupReturn) == [MarkupReturn];
    assert HomeReturnsAll([MarkupReturn]) == [MarkupReturn];
    assert HomeReturns(ArrowBody) == [MarkupReturn];
    assert IsJsx(ReturnArgument(MarkupReturn));
  }

  lemma ButtonScoped()
    ensures WellScoped(Parents, ButtonModule, 0) && AllFunctionsScoped(ButtonModule)
  {
    ButtonWellScoped();
    ButtonFunctionsScoped();
  }

  lemma ButtonWellScoped()
    ensures WellScoped(Parents, Arrow, 0) && WellScoped(Parents, ButtonModule, 0)
  {
    assert WellScoped(Parents, Markup, 1);
    assert WellScoped(Parents, MarkupReturn, 1);
    assert WellScoped(Parents, ArrowBody, 1);
    assert WellScoped(Parents, PropsParam, 1) && WellScoped(Parents, RefParam, 1);
    assert WellScoped(Parents, Arrow, 0);
    assert WellScoped(Parents, Callee, 0) && WellScoped(Parents, Target, 0);
    assert WellScoped(Parents, Wrapper, 0);
    assert WellScoped(Parents, Declarator, 0);
    assert WellScoped(Parents, Declaration, 0);
    assert WellScoped(Parents, Export, 0);
  }

  lemma ButtonFunctionsScoped()
    ensures AllFunctionsScoped(Arrow) && AllFunctionsScoped(ButtonModule)
  {
    assert AllFunctionsScoped(Markup);
    assert AllFunctionsScoped(MarkupReturn);
    assert AllFunctionsScoped(ArrowBody);
    assert AllFunctionsScoped(PropsParam) && AllFunctionsScoped(RefParam);
    assert AllFunctionsScoped(Arrow);
    assert AllFunctionsScoped(Callee) && AllFunctionsScoped(Target);
    assert AllFunctionsScoped(Wrapper);
    assert AllFunctionsScoped(Declarator);
    assert AllFunctionsScoped(Declaration);
    assert AllFunctionsScoped(Export);
  }

  /** The arrow is found twice, as a root-level function rendering markup
      and as the argument of the `forwardRef` wrapper; the component set
      holds it once. */
  lemma ButtonComps()
    ensures Comps(Parents, ButtonModule, 0) == {Arrow}
  {
    ArrowRendersMarkup(0);
    ArrowRendersMarkup(1);
    ButtonWellScoped();
    ButtonFunctionsScoped();
    assert Own(Parents, Arrow, 1) == {Arrow};
    NestedNeverComponent(Parents, Arrow, 0);
    assert Comps(Parents, Arrow, 0) == {Arrow};
    assert IsHocCall(Parents, Some(0), Wrapper);
    assert Own(Parents, Wrapper, 0) == {Arrow};
    assert Comps(Parents, Callee, 0) == {};
    assert CompsAll(Parents, [Arrow], 0) == {Arrow};
    assert CompsAll(Parents, Wrapper.kids, 0) == {Arrow};
    assert Comps(Parents, Wrapper, 0) == {Arrow};
    assert Comps(Parents, Target, 0) == {};
    assert CompsAll(Parents, [Wrapper], 0) == {Arrow};
    assert CompsAll(Parents, Declarator.kids, 0) == {Arrow};
    assert Comps(Parents, Declarator, 0) == {Arrow};
    assert CompsAll(Parents, Declaration.kids, 0) == {Arrow};
    assert Comps(Parents, Declaration, 0) == {Arrow};
    assert CompsAll(Parents, Export.kids, 0) == {Arrow};
    assert Comps(Parents, Export, 0) == {Arrow};
    assert CompsAll(Parents, ButtonModule.kids, 0) == {Arrow};
  }

  /** The plugin changes Button.tsx: it adds the import and exactly one hook
      line, right after the opening brace of the arrow's body (offset 205). */
  lemma ButtonGetsOneHook(code: string)
    ensures Rewrite(true, code, Some(ButtonModule), Parents, 0).Changed?
    ensures ComponentWalk(Parents, 0, ButtonModule) == Ok(WalkState(Some(0), {Arrow}))
    ensures HookOffsets({Arrow}) == multiset{206}
    ensures !HasImport(ButtonModule)
  {
    ButtonScoped();
    ButtonComps();
    FoundComponents(Parents, 0, ButtonModule);
    HookOffsetsRemove({Arrow}, Arrow);
    assert {Arrow} - {Arrow} == {};
    assert HookOffsetOf(Arrow) == multiset{206};
  }
}
