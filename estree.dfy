/** The closed shape of the syntax-tree nodes the obfuscator builds: one
    variant per ESTree node kind the node factory produces, plus `Super` and
    `SpreadElement`, which the factory's parameters admit.  Every variant
    carries the obfuscator's own `obfuscated` marker. */
module Estree {
  import opened Wrappers
  import opened LiteralText

  /** The kind of a property: only `init` is built by the factory. */
  datatype PropertyKind = Init | Get | Set

  /** The keyword of a variable declaration. */
  datatype VarKind = Var | Let | Const

  /** Whether a program is a script or a module. */
  datatype SourceType = Script | Module

  /** The code generator's operator precedence levels, kept opaque: `Primary`
      is the one the factory uses; every other level is `Other`. */
  datatype Precedence = Primary | Other

  /** The generator-facing `x-verbatim-property` of a literal: the exact text to
      emit and the precedence to emit it at. */
  datatype Verbatim = Verbatim(content: string, precedence: Precedence)

  datatype Node =
    | Program(body: seq<Node>, sourceType: SourceType, obfuscated: bool)
    | BinaryExpression(operator: string, left: Node, right: Node, obfuscated: bool)
    | BlockStatement(body: seq<Node>, obfuscated: bool)
    | BreakStatement(breakLabel: Option<Node>, obfuscated: bool)
    | CatchClause(param: Node, catchBody: Node, obfuscated: bool)
    | CallExpression(callee: Node, arguments: seq<Node>, obfuscated: bool)
    | ExpressionStatement(expression: Node, obfuscated: bool)
    | FunctionDeclaration(id: Node, params: seq<Node>, functionBody: Node, generator: bool, obfuscated: bool)
    | FunctionExpression(functionId: Option<Node>, params: seq<Node>, functionBody: Node, generator: bool, obfuscated: bool)
    | IfStatement(test: Node, consequent: Node, alternate: Option<Node>, obfuscated: bool)
    | Identifier(name: string, obfuscated: bool)
    | Literal(value: LitValue, raw: string, verbatim: Option<Verbatim>, obfuscated: bool)
    | LogicalExpression(operator: string, left: Node, right: Node, obfuscated: bool)
    | MemberExpression(computed: bool, obj: Node, property: Node, obfuscated: bool)
    | ObjectExpression(properties: seq<Node>, obfuscated: bool)
    | Property(key: Node, propertyValue: Node, propertyKind: PropertyKind, isMethod: bool,
               shorthand: bool, computed: bool, obfuscated: bool)
    | UnaryExpression(operator: string, argument: Node, prefix: bool, obfuscated: bool)
    | ReturnStatement(argument: Node, obfuscated: bool)
    | SwitchStatement(discriminant: Node, cases: seq<Node>, obfuscated: bool)
    | SwitchCase(test: Node, caseBody: seq<Node>, obfuscated: bool)
    | VariableDeclaration(declarations: seq<Node>, kind: VarKind, obfuscated: bool)
    | VariableDeclarator(id: Node, init: Option<Node>, obfuscated: bool)
    | Super(obfuscated: bool)
    | SpreadElement(argument: Node, obfuscated: bool)

  /** The node's ESTree `type` string, as the `NodeType` enumeration spells it. */
  function TypeOf(n: Node): string
  {
    match n
    case Program(_, _, _) => "Program"
    case BinaryExpression(_, _, _, _) => "BinaryExpression"
    case BlockStatement(_, _) => "BlockStatement"
    case BreakStatement(_, _) => "BreakStatement"
    case CatchClause(_, _, _) => "CatchClause"
    case CallExpression(_, _, _) => "CallExpression"
    case ExpressionStatement(_, _) => "ExpressionStatement"
    case FunctionDeclaration(_, _, _, _, _) => "FunctionDeclaration"
    case FunctionExpression(_, _, _, _, _) => "FunctionExpression"
    case IfStatement(_, _, _, _) => "IfStatement"
    case Identifier(_, _) => "Identifier"
    case Literal(_, _, _, _) => "Literal"
    case LogicalExpression(_, _, _, _) => "LogicalExpression"
    case MemberExpression(_, _, _, _) => "MemberExpression"
    case ObjectExpression(_, _) => "ObjectExpression"
    case Property(_, _, _, _, _, _, _) => "Property"
    case UnaryExpression(_, _, _, _) => "UnaryExpression"
    case ReturnStatement(_, _) => "ReturnStatement"
    case SwitchStatement(_, _, _) => "SwitchStatement"
    case SwitchCase(_, _, _) => "SwitchCase"
    case VariableDeclaration(_, _, _) => "VariableDeclaration"
    case VariableDeclarator(_, _, _) => "VariableDeclarator"
    case Super(_) => "Super"
    case SpreadElement(_, _) => "SpreadElement"
  }

  /** The node's immediate subtrees, in ESTree field order. */
  function Children(n: Node): seq<Node>
  {
    match n
    case Program(body, _, _) => body
    case BinaryExpression(_, left, right, _) => [left, right]
    case BlockStatement(body, _) => body
    case BreakStatement(target, _) => if target.Some? then [target.value] else []
    case CatchClause(param, body, _) => [param, body]
    case CallExpression(callee, args, _) => [callee] + args
    case ExpressionStatement(e, _) => [e]
    case FunctionDeclaration(id, params, body, _, _) => [id] + params + [body]
    case FunctionExpression(id, params, body, _, _) =>
      (if id.Some? then [id.value] else []) + params + [body]
    case IfStatement(test, consequent, alternate, _) =>
      [test, consequent] + (if alternate.Some? then [alternate.value] else [])
    case Identifier(_, _) => []
    case Literal(_, _, _, _) => []
    case LogicalExpression(_, left, right, _) => [left, right]
    case MemberExpression(_, obj, property, _) => [obj, property]
    case ObjectExpression(properties, _) => properties
    case Property(key, value, _, _, _, _, _) => [key, value]
    case UnaryExpression(_, argument, _, _) => [argument]
    case ReturnStatement(argument, _) => [argument]
    case SwitchStatement(discriminant, cases, _) => [discriminant] + cases
    case SwitchCase(test, consequent, _) => [test] + consequent
    case VariableDeclaration(declarations, _, _) => declarations
    case VariableDeclarator(id, init, _) => if init.Some? then [id, init.value] else [id]
    case Super(_) => []
    case SpreadElement(argument, _) => [argument]
  }

  const BinaryOperators: set<string> :=
    {"==", "!=", "===", "!==", "<", "<=", ">", ">=", "<<", ">>", ">>>",
     "+", "-", "*", "/", "%", "**", "|", "^", "&", "in", "instanceof"}

  const LogicalOperators: set<string> := {"||", "&&"}

  const UnaryOperators: set<string> := {"-", "+", "!", "~", "typeof", "void", "delete"}

  /** ESTree's `Expression` class, restricted to the kinds modelled here. */
  predicate IsExpression(n: Node)
  {
    n.Identifier? || n.Literal? || n.BinaryExpression? || n.LogicalExpression? ||
    n.CallExpression? || n.MemberExpression? || n.ObjectExpression? ||
    n.FunctionExpression? || n.UnaryExpression?
  }

  /** ESTree's `Statement` class (declarations included), restricted to the
      kinds modelled here. */
  predicate IsStatement(n: Node)
  {
    n.BlockStatement? || n.BreakStatement? || n.ExpressionStatement? ||
    n.FunctionDeclaration? || n.IfStatement? || n.ReturnStatement? ||
    n.SwitchStatement? || n.VariableDeclaration?
  }

  /** ESTree's `Pattern` class, restricted to the kinds modelled here. */
  predicate IsPattern(n: Node)
  {
    n.Identifier? || n.MemberExpression?
  }

  /** The ESTree schema, one level deep: each field of `n` holds a node of the
      class the schema names for it, and operators come from their sets. */
  predicate WellShaped(n: Node)
  {
    match n
    case Program(body, _, _) => forall s | s in body :: IsStatement(s)
    case BinaryExpression(op, left, right, _) =>
      op in BinaryOperators && IsExpression(left) && IsExpression(right)
    case BlockStatement(body, _) => forall s | s in body :: IsStatement(s)
    case BreakStatement(target, _) => target.Some? ==> target.value.Identifier?
    case CatchClause(param, body, _) => IsPattern(param) && body.BlockStatement?
    case CallExpression(callee, args, _) =>
      (IsExpression(callee) || callee.Super?) &&
      forall a | a in args :: IsExpression(a) || a.SpreadElement?
    case ExpressionStatement(e, _) => IsExpression(e)
    case FunctionDeclaration(id, params, body, _, _) =>
      id.Identifier? && (forall p | p in params :: IsPattern(p)) && body.BlockStatement?
    case FunctionExpression(id, params, body, _, _) =>
      (id.Some? ==> id.value.Identifier?) &&
      (forall p | p in params :: IsPattern(p)) && body.BlockStatement?
    case IfStatement(test, consequent, alternate, _) =>
      IsExpression(test) && IsStatement(consequent) && (alternate.Some? ==> IsStatement(alternate.value))
    case Identifier(_, _) => true
    case Literal(_, _, _, _) => true
    case LogicalExpression(op, left, right, _) =>
      op in LogicalOperators && IsExpression(left) && IsExpression(right)
    case MemberExpression(_, obj, property, _) =>
      (IsExpression(obj) || obj.Super?) && IsExpression(property)
    case ObjectExpression(properties, _) => forall p | p in properties :: p.Property?
    case Property(key, value, _, _, _, _, _) =>
      IsExpression(key) && (IsExpression(value) || IsPattern(value))
    case UnaryExpression(op, argument, _, _) => op in UnaryOperators && IsExpression(argument)
    case ReturnStatement(argument, _) => IsExpression(argument)
    case SwitchStatement(discriminant, cases, _) =>
      IsExpression(discriminant) && forall c | c in cases :: c.SwitchCase?
    case SwitchCase(test, consequent, _) =>
      IsExpression(test) && forall s | s in consequent :: IsStatement(s)
    case VariableDeclaration(declarations, _, _) =>
      forall d | d in declarations :: d.VariableDeclarator?
    case VariableDeclarator(id, init, _) =>
      IsPattern(id) && (init.Some? ==> IsExpression(init.value))
    case Super(_) => true
    case SpreadElement(argument, _) => IsExpression(argument)
  }
}
