# useSignals injection, modelled in Dafny

The repository ships two versions of one source-to-source transform for
React modules that use Preact signals. Each version decides which functions
of a JSX/TSX module are React components. It then makes `useSignals()` the
first thing each of them does, and adds
`import { useSignals } from '@preact/signals-react/runtime'` when the module
lacks it.

- **The Rollup/Vite plugin** (`plugin/src/index.ts`) walks an ESTree with a
  scope cursor over the scopes `attachScopes` attached. A function with a
  block body is a component when its returns, as `findReturnStatements`
  collects them, include markup and its own scope hangs directly under the
  module's root scope (it is not inside any function, block, loop or catch
  clause). A root-level call with a single function argument
  (`forwardRef(...)`, `memo(...)`) may wrap one.
  The plugin then splices text into the original code: the import line at
  the front, and a hook line just after the opening brace of each
  component's body.
- **The Babel plugin** (`src/index.ts`) decides with syntactic tests on
  parent node types. Its tests are:
  - a `@noSignals` opt-out comment;
  - markup returned anywhere below the function;
  - a shorter list of markup factory names.

  It skips modules that already import and call the hook. Otherwise it
  rewrites the tree: an import unshifted into the program, the hook call
  unshifted into block bodies, and arrows whose expression body is a JSX
  element or fragment turned into blocks that return it.

The model uses one syntax tree for both versions (`syntax.dfy`). A node has
an origin (parser id and start offset, or built by the transform), a kind,
its children in walk order, an optional attached scope and its leading
comments. Scopes are explicit parent links. Each walk is the sequence of
enter/leave events, and each walker callback is a step function folded over
that sequence. The methods that run the source's loops are proved equal to
these folds. The lemmas then state what the folds compute.

Files:
- `plugin_returns.dfy`: `isJsx` and `findReturnStatements`.
- `plugin_transform.dfy` and `splice.dfy`: the Rollup `transform`, `getHoc`
  and the MagicString edits.
- `babel_detect.dfy`: the Babel first pass.
- `babel_inject.dfy`: the Babel second pass and `transform`.
- `comparison.dfy`: the two versions side by side.
- `plugin_examples.dfy` and `babel_examples.dfy`: the fixture
  `test/src/components/Button.tsx` and the module in `test.js`.

## Model

| member | source | states |
|---|---|---|
| PluginReturns.FindReturnStatements | plugin/src/index.ts:150-184 | The walk with the `isHomeScope` flag returns, or throws, exactly the fold of its enter/leave callbacks over the body's walk. |
| PluginReturns.CollectThrowsIff | plugin/src/index.ts:155-168 | `findReturnStatements` throws exactly when some function at any depth of the body has no attached scope. |
| PluginReturns.RunThrows | plugin/src/index.ts:155-168 | Walking one subtree from any state throws exactly when one of its functions lacks a scope. |
| PluginReturns.CollectHomeExact | plugin/src/index.ts:150-184 | When only functions and blocks directly in the home body own scopes, the result is exactly the returns outside nested functions, in walk order. |
| PluginReturns.RunHome | plugin/src/index.ts:169-179 | With the flag on, walking a home subtree appends its home returns and leaves the flag on. |
| PluginReturns.RunNested | plugin/src/index.ts:157-168 | With the flag off, walking inside a nested function collects nothing and leaves the state unchanged. |
| PluginReturnsExamples.NestedBlockHidesReturn | plugin/src/index.ts:176-179 | Leaving a block nested two deep sets the flag to false. A markup return of the function itself that comes after that block is then not collected. |
| PluginReturns.IsJsx | plugin/src/index.ts:122-130 | Elements and fragments count as markup. A call counts exactly when its callee is an identifier from the nine-name list of JSX factories. No other expression counts, and neither does a missing one. |
| Splice.Hooks | plugin/src/index.ts:111 | One or more insertions at an offset start with the hook line. |
| Splice.HooksLength | plugin/src/index.ts:111 | k insertions of the hook line are k times its length. |
| Splice.RenderLength | plugin/src/index.ts:109-112 | When every offset lies within the code, the output is the code plus one hook line per insertion, and no more. |
| Splice.UnrenderRender | plugin/src/index.ts:109-112 | Removing the inserted hook lines from the edited text gives back the original code, every character in order. |
| Splice.HookFollowsOffset | plugin/src/index.ts:111 | When insertions are made just after a character, that character is followed directly by a hook line in the output. |
| PluginTransform.HasImport | plugin/src/index.ts:53-61 | Holds only for a top-level import from the runtime module with an import specifier whose imported name is the identifier `useSignals`. Without a top-level import from the runtime module it is false. |
| PluginTransform.GetHoc | plugin/src/index.ts:132-148 | Throws on an undefined cursor. Gives nothing below the root scope. Gives a function exactly for an identifier call with one argument that is, or assigns, a block-bodied function whose returns, as `findReturnStatements` collects them with the root scope as home, include markup. The result is never the call itself. |
| PluginTransform.GetHocThrowsOnlyOnUndefined | plugin/src/index.ts:132-148 | When every function is scoped, `getHoc` throws only when the cursor is undefined. |
| PluginTransform.AddIfComponent | plugin/src/index.ts:77-84 | The loop over the collected returns adds the function exactly as the enter-callback specification says, and propagates a throw. |
| PluginTransform.EnterNode | plugin/src/index.ts:68-94 | The enter callback moves the cursor and adds a function or wrapped function exactly as the walk's step function says. |
| PluginTransform.FindComponents | plugin/src/index.ts:63-101 | The walk over the module ends with the component set, or the throw, of the fold of its callbacks. |
| PluginTransform.WalkComps | plugin/src/index.ts:68-71 | On well-scoped trees, walking a subtree never throws and returns the cursor to its value before entry. It adds exactly `Comps` of the subtree. |
| PluginTransform.FoundComponents | plugin/src/index.ts:63-101 | The walk over a well-scoped module finds exactly `Comps` of the tree and ends at the root scope. |
| PluginTransform.NothingBelowTopLevel | plugin/src/index.ts:80 | Below a scope that has a parent, no function and no wrapped function is ever a component. |
| PluginTransform.NestedNeverComponent | plugin/src/index.ts:74-84 | Nothing inside a function's subtree is added as a component. |
| PluginTransform.ComponentsAreOuterFunctions | plugin/src/index.ts:74-93 | Every component found is a function that is not inside another function. |
| PluginTransform.ComponentsAreTopRenderers | plugin/src/index.ts:74-93 | Only if: every component found is a function of the module's top level, whose own scope hangs directly under the root scope. It has a block body, and its returns, collected with its own scope or (for a wrapper's argument) the root scope as home, include markup. A function inside a top-level block, loop or catch clause is never one. |
| PluginTransform.TopLevelRenderersFound | plugin/src/index.ts:74-84 | Conversely, every function reached without passing another scope owner, whose returns, as `findReturnStatements` collects them, include markup, is found. |
| PluginTransform.HookOffsetsRemove | plugin/src/index.ts:109-112 | The multiset of insertion offsets does not depend on the order the set is iterated in. |
| PluginTransform.HookOffsetsHas | plugin/src/index.ts:109-112 | An offset receives an insertion exactly when it is one past the body start of some component. |
| PluginTransform.InsertionOffsets | plugin/src/index.ts:109-112 | The loop over the component set inserts one hook line per component, at the offsets of the specification. |
| PluginTransform.Transform | plugin/src/index.ts:42-118 | The hook's result equals the specified outcome: unchanged, new code, or a throw. |
| PluginTransform.RewriteChangesIff | plugin/src/index.ts:103 | On scoped trees the code changes exactly when the file is included, parses and has a component. An existing hook call does not matter, and nothing throws. |
| PluginTransform.RewriteKeepsCode | plugin/src/index.ts:105-116 | The new code is the import line, unless the module already imports the hook by identifier, followed by the old code with hook lines inserted. Removing the insertions gives the old code back. |
| PluginTransform.RewriteHooksComponent | plugin/src/index.ts:109-112 | Every component's body brace is followed by a hook line in the output. |
| PluginTransform.RewriteHooksOnlyComponents | plugin/src/index.ts:109-112 | Every insertion offset is one past the body start of a found component with a parsed block body. |
| PluginTransformExamples.ButtonComps | test/src/components/Button.tsx:5-7 | The `forwardRef` arrow is found both as a root-level renderer and as a wrapped function. The set holds it once. |
| PluginTransformExamples.ButtonGetsOneHook | test/src/components/Button.tsx:5-7 | The stripped tree of Button.tsx (its TypeScript syntax removed) gains the import and exactly one hook line, at offset 206, just after the body's brace. |
| JsStrings.TrimStart | src/index.ts:52 | Drops exactly the leading JavaScript whitespace and line terminators. |
| JsStrings.TrimEnd | src/index.ts:52 | Drops exactly the trailing JavaScript whitespace and line terminators. |
| JsStrings.TrimIff | src/index.ts:52 | `s.trim() == t`, for a `t` without outer whitespace, holds exactly when `s` is `t` padded with whitespace on both sides. |
| BabelDetect.NoSignalsCommentIff | src/index.ts:48-54 | A node opts out exactly when one of its leading comments is a line comment whose text is `@noSignals` padded with whitespace. Block comments do not count. |
| BabelDetect.CheckReturnsJsx | src/index.ts:57-74 | The traversal flag is set exactly when some return below the function, nested functions included, gives an element, a fragment, or a call of `jsx`, `jsxs` or `h`. |
| BabelDetect.NestedReturnsCount | src/index.ts:57-74 | A function containing a nested function that returns markup counts as returning markup itself. |
| BabelDetect.FindDeclaration | src/index.ts:141 | Gives the nearest variable-declaration ancestor from the given index on: no declaration lies before it. Otherwise states that there is none. |
| BabelDetect.AddComponentIfValid | src/index.ts:77-81 | Adds the path exactly when it has no opt-out comment and returns markup. |
| BabelDetect.AddFunctionArguments | src/index.ts:123-128 | Every arrow or function-expression argument of the call is offered, not only one. |
| BabelDetect.Visit | src/index.ts:92-180 | One visit sets the import flag, the call flag and the component set as the visitor for the path's node type does. |
| BabelDetect.VisitDeclarator | src/index.ts:139-162 | A declarator under a top-level declaration offers its function initializer, or the function arguments of a call initializer. |
| BabelDetect.VisitExportDefault | src/index.ts:163-179 | `isFunction` is asked about the export itself, so only the function arguments of a call declaration are offered. |
| BabelDetect.FirstPass | src/index.ts:43-180 | The first traversal ends with the import flag, the call flag and the candidate set of the specification. |
| BabelDetect.CandidatesInIff | src/index.ts:77-81 | A path is a candidate exactly when some visited path offers it and it passes the validity test. |
| BabelDetect.CandidatesAreValid | src/index.ts:77-81 | No candidate carries the opt-out comment, and every candidate returns markup. |
| BabelDetect.IsFunction | src/index.ts:83-89 | False for a missing path. Otherwise true exactly for a function declaration, an arrow function or a function expression. |
| BabelDetect.ConsideredShape | src/index.ts:106-179 | The visitors offer only top-level function declarations, and arrows or function expressions in one of the offering shapes: the initializer of a declarator under a top-level declaration; an argument of a non-hook call that is itself top-level; or an argument of a call that is the initializer of such a declarator or the declaration of a default export. |
| BabelDetect.ConsideredOuter | src/index.ts:106-179 | In a module where the program is only the root, exports sit only directly below it and declarators only under declarations, an offered path has at most five ancestors and none of them is a function. |
| BabelInject.NestedNeverCandidate | src/index.ts:106-179 | In such a module, a function nested inside another function, or deeper than five levels, is never a candidate. |
| BabelDetect.ConsideredFrom | src/index.ts:106-179 | A visitor offers only its own path, a child's path or a grandchild's path. |
| BabelDetect.FunctionDeclarationCandidates | src/index.ts:132-138 | A function declaration is a candidate exactly when its parent is the program or an export and it passes the test. |
| BabelDetect.ExportDefaultFunctionIgnored | src/index.ts:163-169 | An arrow or function expression exported directly as default is never a candidate. |
| BabelInject.AddHook | src/index.ts:206-231 | Only the body changes. A block body gets the hook call as its new first statement with the old statements after it in order. A markup body becomes `{ useSignals(); return <markup>; }`. Anything else, function expressions included, is left alone. |
| BabelInject.Inject | src/index.ts:206-231 | The rewrite keeps each node's origin, kind, scope, comments and number of children. |
| BabelInject.Transform | src/index.ts:36-244 | The hook's result equals the specified one: no change for an excluded file or a parse failure; no change without candidates, or with both import and call present; otherwise the rewritten program. |
| BabelInject.EraseInject | src/index.ts:206-231 | Erasing the inserted statements and unwrapping the built blocks gives the parsed tree back. |
| BabelInject.EraseRewrite | src/index.ts:195-231 | The output is the parsed program plus insertions only. The import, the hook calls and the wrapping blocks are the only additions, and every other statement stays in place. |
| BabelInject.OutputImportsHook | src/index.ts:196-203 | Every output imports the hook: either the program already did, or the import is unshifted. |
| BabelInject.OutputCallsHook | src/index.ts:206-231 | Once some candidate is hookable, the output calls the hook. |
| BabelInject.RewriteSettles | src/index.ts:182-185 | Once a component is hooked, a second run of the transform skips the module. |
| BabelInject.InjectHookFirst | src/index.ts:206-231 | A parsed function opens with the hook call after the rewrite exactly when it is a candidate the second pass can hook. |
| BabelInject.FunctionsHooked | src/index.ts:206-231 | Every function of the parsed program is in the output under its own origin. It opens with the hook call exactly when it is a hookable candidate. |
| Comparison.MarkupTestsCompared | src/index.ts:61-70 | Every return argument the Babel test takes for markup, the Rollup test takes too. The Rollup test takes in addition exactly the calls of the six development and underscore factories. |
| Comparison.DevFactoryOnlyRollup | plugin/src/index.ts:17-27 | `return jsxDEV(...)` is markup for the Rollup plugin only. |
| Comparison.ImportTestsCompared | src/index.ts:93-105 | Every import that satisfies the Rollup plugin also satisfies the Babel plugin. |
| Comparison.AliasOnlyBabel | src/index.ts:96-100 | An import whose local name is `useSignals` satisfies the Babel plugin but not the Rollup plugin. |
| BabelTransformExamples.TestComponentFound | test.js:11-23 | `TestComponent` is offered by its exported declarator and is a candidate. |
| BabelTransformExamples.InternalComponentFound | test.js:29-31 | `InternalComponent` is a candidate. |
| BabelTransformExamples.FooIgnored | test.js:25-27 | `foo` returns a number and is not a candidate. |
| BabelTransformExamples.ClickIgnored | test.js:12-15 | The `handleClick` callback inside the component is offered by no visitor. |
| BabelTransformExamples.TestModuleRewritten | test.js:49-73 | The output starts with the import. `TestComponent` and `InternalComponent` open with the hook, `foo` and `handleClick` do not, and a second run changes nothing. |

## Left out

- The include/exclude filter is a boolean input. The regular expressions and `createFilter` are not modelled.
- Parsing is an input: the parsed tree, or nothing when the parser threw. Only the Rollup plugin's `this.warn` and the Babel plugin's `console.error` follow a failed parse, and neither is modelled.
- `attachScopes` is an input: scope parent links and a scope per node. `estree-walker` and Babel's `traverse` are the fixed pre-order walks `Walk` and `Paths`.
- Source maps, `@babel/generator`'s formatting and the generated code text of the Babel plugin are not modelled. Its output is the rewritten tree.
- Babel's in-place mutation of the tree, and its loop over `componentPaths`, are one bottom-up value rewrite (`Inject`). Each component's edit touches only its own body, so the order of the loop does not matter.
- Babel `NodePath` objects are values: a node with its chain of ancestors. The visitor's cached paths are therefore equal exactly when they point at the same position.
- The `bodyPath` lookup of the second pass always finds the program, so the branch where it stays undefined is not modelled.
- Offsets count one position per character of the code. acorn's `start` and MagicString count UTF-16 code units, so in a file with characters outside the Basic Multilingual Plane (emoji) before a component the numbers differ, though the hook line still lands just after the body's brace.
- PluginTransform.RewriteHooksComponent: only states the case where the body's start lies inside the code. Offsets past the end of the code are not modelled.
- PluginTransform.ComponentsAreTopRenderers: assumes, as `attachScopes` does, that no assignment expression owns a scope, so the argument of `memo(Foo = () => {...})` stays at the top level.
- PluginTransform.FoundComponents: assumes scopes attached as `attachScopes` attaches them, one level below the enclosing node's scope, with every function scoped. `Transform` itself covers every tree, throws included.
- PluginReturns.CollectHomeExact: characterises the result only when nothing but functions and blocks directly in the home body own scopes. The general result is the fold `CollectReturns`, and `PluginReturnsExamples.NestedBlockHidesReturn` shows a tree where the result differs from the home returns.
- BabelInject.FunctionsHooked: assumes a tree straight from the parser, with no node marked as built by the transform.
- BabelInject.RewriteSettles: assumes a tree straight from the parser, and some hookable candidate. A module whose only candidates are not `Hookable` (function expressions, or arrows whose expression body is not markup) gains only the import, and a second run rewrites it again without changing it.
- Type annotations, the plugin objects' wiring (`name`, `Plugin`) and the development server are not modelled.
