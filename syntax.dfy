/** Small wrappers shared by both transforms. */
module Wrappers {
  datatype Option<+T> = None | Some(value: T)

  datatype Result<+T, +E> = Ok(value: T) | Err(error: E)
}

/**
  The syntax tree both transforms work on: one node type with a kind, the
  children in the order a walker visits them, the lexical scope a scope
  analysis attached to it (if any) and the comments that lead it.

  Child conventions, as the parsers lay them out:
  - a function (declaration, expression or arrow): its id and parameters,
    then its body as the LAST child (a block, or an expression for an arrow);
  - a call: the callee, then the arguments;
  - a return: no child, or its argument;
  - an expression statement: its expression;
  - an assignment: left, then right;
  - a variable declarator: its target, then its initializer when present;
  - an `export default`: its declaration.
*/
module Syntax {
  import opened Wrappers

  /** The hook the transforms inject and the module it is imported from. */
  const HookName: string := "useSignals"
  const RuntimeModule: string := "@preact/signals-react/runtime"

  type ScopeId = nat

  /** A node either comes from the parser (identity and offset of its first
      character) or is built by the transform. */
  datatype Origin = Parsed(id: nat, start: nat) | Synthetic

  datatype Comment = CommentLine(value: string) | CommentBlock(value: string)

  /** The name a specifier imports: an identifier or a string literal. */
  datatype ExportName = IdentifierName(name: string) | StringName(text: string)

  datatype Specifier =
    | ImportSpecifier(imported: ExportName, local: string)
    | ImportDefaultSpecifier(local: string)
    | ImportNamespaceSpecifier(local: string)

  datatype Kind =
    | Program
    | FunctionDeclaration
    | FunctionExpression
    | ArrowFunctionExpression
    | BlockStatement
    | ReturnStatement
    | ExpressionStatement
    | CallExpression
    | Identifier(name: string)
    | JSXElement
    | JSXFragment
    | AssignmentExpression
    | ImportDeclaration(source: string, specifiers: seq<Specifier>)
    | VariableDeclaration
    | VariableDeclarator
    | ExportNamedDeclaration
    | ExportDefaultDeclaration
    | Other(typeName: string)

  datatype Node = Node(origin: Origin, kind: Kind, kids: seq<Node>, scope: Option<ScopeId>, comments: seq<Comment>)

  predicate IsFunctionKind(k: Kind) {
    k.FunctionDeclaration? || k.FunctionExpression? || k.ArrowFunctionExpression?
  }

  /** The body of a function: its last child. */
  function Body(f: Node): Node
    requires |f.kids| > 0
  {
    f.kids[|f.kids| - 1]
  }

  /** True of a function whose body is a block statement. */
  predicate HasBlockBody(f: Node) {
    IsFunctionKind(f.kind) && |f.kids| > 0 && Body(f).kind.BlockStatement?
  }

  /** The argument of a return statement, if it has one. */
  function ReturnArgument(r: Node): Option<Node> {
    if |r.kids| > 0 then Some(r.kids[0]) else None
  }

  /** The name of the callee of a call whose callee is a bare identifier. */
  function CalleeName(call: Node): Option<string> {
    if call.kind.CallExpression? && |call.kids| > 0 && call.kids[0].kind.Identifier?
    then Some(call.kids[0].kind.name)
    else None
  }

  /** The arguments of a call. */
  function Arguments(call: Node): seq<Node>
    requires |call.kids| > 0
  {
    call.kids[1..]
  }

  /** A call of the hook itself: `useSignals(...)`. */
  predicate IsHookCall(n: Node) {
    CalleeName(n) == Some(HookName)
  }

  /** What the parser guarantees about the number of children of each kind. */
  predicate WellShaped(n: Node) {
    match n.kind
    case FunctionDeclaration => |n.kids| >= 1
    case FunctionExpression => |n.kids| >= 1
    case ArrowFunctionExpression => |n.kids| >= 1
    case CallExpression => |n.kids| >= 1
    case ReturnStatement => |n.kids| <= 1
    case ExpressionStatement => |n.kids| == 1
    case AssignmentExpression => |n.kids| == 2
    case VariableDeclarator => 1 <= |n.kids| <= 2
    case ExportDefaultDeclaration => |n.kids| == 1
    case Identifier(_) => |n.kids| == 0
    case ImportDeclaration(_, _) => |n.kids| == 0
    case _ => true
  }

  predicate WellFormed(n: Node) {
    WellShaped(n) && forall k | k in n.kids :: WellFormed(k)
  }

  /** The nodes of a tree in depth-first pre-order, the tree's root first. */
  function Nodes(n: Node): (r: seq<Node>)
    ensures |r| > 0 && r[0] == n
  {
    [n] + NodesAll(n.kids)
  }

  function NodesAll(ns: seq<Node>): seq<Node> {
    if ns == [] then [] else Nodes(ns[0]) + NodesAll(ns[1..])
  }

  /** A walker's visit: entering a node before its children, leaving it after. */
  datatype Event = Enter(node: Node) | Leave(node: Node)

  /** The order in which an enter/leave walker (estree-walker) visits a tree. */
  function Walk(n: Node): (r: seq<Event>)
    ensures |r| >= 2 && r[0] == Enter(n) && r[|r| - 1] == Leave(n)
  {
    [Enter(n)] + WalkAll(n.kids) + [Leave(n)]
  }

  function WalkAll(ns: seq<Node>): seq<Event> {
    if ns == [] then [] else Walk(ns[0]) + WalkAll(ns[1..])
  }

  /** The functions of a tree that are not inside another function. */
  function OuterFunctions(n: Node): set<Node> {
    if IsFunctionKind(n.kind) then {n} else OuterFunctionsAll(n.kids)
  }

  function OuterFunctionsAll(ns: seq<Node>): set<Node> {
    if ns == [] then {} else OuterFunctions(ns[0]) + OuterFunctionsAll(ns[1..])
  }
}
