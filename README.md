# Node factory of javascript-obfuscator, in Dafny

This project models the node factory of javascript-obfuscator: the static
class `Nodes` whose `getXNode` methods are the one place where the obfuscator
synthesises ESTree syntax-tree nodes. Each factory takes a node's semantic
fields and returns a fresh node that carries the ESTree `type` of its kind,
the fixed defaults of that kind (`sourceType: 'script'`, `generator: false`,
`kind: 'init'`, the catch parameter `err`, ...) and the obfuscator's own
marker `obfuscated: false`. A literal node also carries generator-facing
metadata: its `raw` text and an `x-verbatim-property` holding the same text
and the code generator's `Primary` precedence.

Layout:

- `wrappers.dfy` — module `Wrappers`: the `Option` datatype. An optional
  argument of a factory is an `Option` parameter, and `None` stands for the
  omitted argument, so the defaults (`= []`, `= false`, `= true`, `= 'var'`)
  are explicit in each contract.
- `estree.dfy` — module `Estree`: one closed `Node` datatype with a variant
  per node kind the factory builds (plus `Super` and `SpreadElement`, which the
  factory's parameter types admit). It also holds `TypeOf`, the node's ESTree
  `type` string; `Children`, the node's subtrees in ESTree field order; the
  ESTree classes `IsExpression`, `IsStatement` and `IsPattern`; and
  `WellShaped`, the ESTree schema one level deep. `WellShaped` is the
  independent reference each factory is checked against: a factory given
  arguments of the kinds its TypeScript signature names yields a well-shaped
  node.
- `literal_text.dfy` — module `LiteralText`: literal values
  (`Bool | Num(int) | Str`), the text that the template `${value}` gives them,
  a decimal reader for integers, and `Unquote`, the text that an escape-free
  single-quoted string literal denotes. These are the partners of the
  literal rendering.
- `nodes.dfy` — module `Nodes`: one function per factory, plus the lemmas
  about literal rendering.

Field names that Dafny reserves or that clash between kinds are renamed:
`label` is `breakLabel`, `method` is `isMethod`, `object` is `obj`, and the
`body` of a catch clause or function is `catchBody` or `functionBody`. A
property's `value` is `propertyValue` and its `kind` is `propertyKind`. A
switch case's `consequent` is `caseBody`. A function expression's optional
`id` is `functionId`. `x-verbatim-property` is `verbatim`.

The literal rendering is `'${value}'` for every value kind. So a number or a
boolean is emitted as a quoted string, and the number `5` and the string `"5"`
render the same way (`NumberAndDigitStringRenderAlike`). When a string holds a
quote, a backslash or a line break, its verbatim text is not an escape-free
single-quoted literal of that string (`LiteralRenderingDenotesText`); what
such text denotes once escape sequences are read is not modelled. The model states these facts and
does not change them.

## Model

| member | source | states |
|---|---|---|
| `Nodes.GetProgramNode` | src/node/Nodes.ts:13-20 | a `Program` with `sourceType` script, unobfuscated; body is the given statements, or empty (and then well-shaped) when omitted; well-shaped iff every body element is a statement |
| `Nodes.GetBinaryExpressionNode` | src/node/Nodes.ts:28-40 | an unobfuscated `BinaryExpression` that is an expression, keeps operator, left and right exactly, has exactly those two subtrees, and is well-shaped iff the operator is a binary operator and both operands are expressions |
| `Nodes.GetBlockStatementNode` | src/node/Nodes.ts:46-52 | an unobfuscated `BlockStatement`, itself a statement, whose body is the given statements or empty when omitted; well-shaped iff every element is a statement |
| `Nodes.GetBreakStatement` | src/node/Nodes.ts:58-69 | an unobfuscated `BreakStatement` that has a label iff one is given, and then exactly that node as its only subtree; well-shaped iff the label is absent or an identifier |
| `Nodes.GetCatchClauseNode` | src/node/Nodes.ts:75-82 | an unobfuscated `CatchClause` whose parameter is the factory's own unobfuscated identifier `err` and whose body is the factory's block over the given statements (empty when omitted); always well-shaped |
| `Nodes.GetCallExpressionNode` | src/node/Nodes.ts:89-99 | an unobfuscated `CallExpression` keeping the callee; arguments are those given, or none when omitted, and its subtrees are the callee then the arguments; well-shaped iff the callee is an expression or `super` and every argument an expression or spread element |
| `Nodes.GetExpressionStatementNode` | src/node/Nodes.ts:105-111 | an unobfuscated `ExpressionStatement` wrapping exactly the given node; well-shaped iff that node is an expression |
| `Nodes.GetFunctionDeclarationNode` | src/node/Nodes.ts:119-132 | an unobfuscated `FunctionDeclaration` named by a fresh unobfuscated identifier with the given name, keeping params and body, never a generator; subtrees are id, params, body in order; well-shaped for identifier params and a block body |
| `Nodes.GetFunctionExpressionNode` | src/node/Nodes.ts:139-150 | an unobfuscated `FunctionExpression` with no `id` (subtrees are only params and body) keeping params and body, never a generator; well-shaped for identifier params and a block body |
| `Nodes.GetIfStatementNode` | src/node/Nodes.ts:157-164 | an unobfuscated `IfStatement` with the given test and consequent, no `alternate`, and those two as its only subtrees; well-shaped for an expression test and a block consequent |
| `Nodes.GetIdentifierNode` | src/node/Nodes.ts:170-176 | an unobfuscated `Identifier` with the given name and no subtrees; it is both an expression and a pattern |
| `Nodes.GetLiteralNode` | src/node/Nodes.ts:182-193 | an unobfuscated `Literal` whose value is the argument unchanged, whose `raw` is the value's text in single quotes, and whose verbatim content equals `raw` at the `Primary` precedence |
| `Nodes.GetLogicalExpressionNode` | src/node/Nodes.ts:201-213 | an unobfuscated `LogicalExpression` keeping operator, left and right exactly; well-shaped iff the operator is logical-or or logical-and and both operands are expressions |
| `Nodes.GetMemberExpressionNode` | src/node/Nodes.ts:221-233 | an unobfuscated `MemberExpression` keeping object and property, `computed` as given or false when omitted; well-shaped for an expression-or-super object and an identifier-or-literal property |
| `Nodes.GetObjectExpressionNode` | src/node/Nodes.ts:239-245 | an unobfuscated `ObjectExpression` whose properties are exactly those given; well-shaped iff each is a `Property` |
| `Nodes.GetPropertyNode` | src/node/Nodes.ts:250-265 | an unobfuscated `Property` keeping key and value, always of kind `init`, not a method, not shorthand, `computed` as given or false when omitted |
| `Nodes.GetUnaryExpressionNode` | src/node/Nodes.ts:273-285 | an unobfuscated `UnaryExpression` keeping operator and argument, `prefix` as given or true when omitted; well-shaped iff the operator is unary and the argument an expression |
| `Nodes.GetReturnStatementNode` | src/node/Nodes.ts:291-297 | an unobfuscated `ReturnStatement` whose only subtree is the given argument; well-shaped iff it is an expression |
| `Nodes.GetSwitchStatementNode` | src/node/Nodes.ts:304-314 | an unobfuscated `SwitchStatement` keeping discriminant and cases, in that order; well-shaped iff the discriminant is an expression and every case a `SwitchCase` |
| `Nodes.GetSwitchCaseNode` | src/node/Nodes.ts:321-328 | an unobfuscated `SwitchCase` keeping test and consequent statements; well-shaped iff the test is an expression and every consequent a statement |
| `Nodes.GetVariableDeclarationNode` | src/node/Nodes.ts:335-345 | an unobfuscated `VariableDeclaration` with the given declarators (none when omitted) and the given kind (`var` when omitted); well-shaped iff every declarator is a `VariableDeclarator` |
| `Nodes.GetVariableDeclaratorNode` | src/node/Nodes.ts:352-359 | an unobfuscated `VariableDeclarator` keeping id and init; the init is a subtree only when present |
| `Nodes.LiteralRenderingDenotesText` | src/node/Nodes.ts:186-189 | a literal's verbatim content is an escape-free single-quoted literal of the value's text iff that text holds no quote, backslash or line break |
| `Nodes.NonStringLiteralRendersAsString` | src/node/Nodes.ts:182-188 | a boolean or numeric literal is rendered as a string literal denoting the value's text |
| `Nodes.NumericLiteralTextRoundTrip` | src/node/Nodes.ts:186-189 | the text inside a numeric literal's verbatim content reads back as the same integer |
| `Nodes.NumericLiteralRenderingInjective` | src/node/Nodes.ts:186 | two numeric literals have the same `raw` iff they hold the same number |
| `Nodes.NumberAndDigitStringRenderAlike` | src/node/Nodes.ts:185-186 | a number and the string of its digits get the same `raw` although their values differ |
| `LiteralText.NatTextRoundTrip` | src/node/Nodes.ts:186 | the decimal text of a natural number is a non-empty digit string that reads back as that number |
| `LiteralText.IntTextRoundTrip` | src/node/Nodes.ts:186 | the decimal text of an integer reads back as that integer |
| `LiteralText.IntTextInjective` | src/node/Nodes.ts:186 | distinct integers have distinct decimal texts |
| `LiteralText.ValueTextPlain` | src/node/Nodes.ts:186 | the text of a boolean or an integer holds no quote, backslash or line break |
| `LiteralText.QuotedRoundTrip` | src/node/Nodes.ts:186-188 | quoting a text and reading it back gives the text iff it holds no quote, backslash or line break; otherwise the quoted form is not such a literal |

## Left out

- The scope builder, identifier renamer, literal encoder and transform driver: their sources are not part of this model. The functional test of the function obfuscator exercises them through the whole obfuscator, so its expectations are not modelled either. Those expectations are the merged parameter/`var` name, the untouched free variable, `6` becoming `0x6` and the hex-escaped `'log'`.
- The `NodeType` enumeration (src/enums/NodeType) is not part of this model; its members are taken to be the ESTree type names, which `TypeOf` spells out.
- Numbers are integers rendered in plain decimal. JavaScript's number-to-string formatting of fractions, of `-0`, of values at or above 10^21 (exponent form) and of integers beyond 2^53 is floating point and is not modelled.
- The precedence is escodegen's `Precedence.Primary`, a constant of an external library; it is kept as the opaque value `Primary`, with every other level folded into `Other`.
- The TypeScript parameter types are not preconditions, because JavaScript accepts any argument at run time. They appear instead as the premises of each factory's `WellShaped` clause.
- ESTree's typing is coarse: only the node kinds above exist, and `Pattern` covers identifiers and member expressions. `ModuleDeclaration`, `PrivateIdentifier` and the destructuring patterns are absent. Fields that ESTree allows to be null (a return's argument, a switch case's test) are taken as present, because the factory's signatures require them (src/node/Nodes.ts:291 and src/node/Nodes.ts:321). The `any` type of a declarator's `init` is an optional node.
- Functions carry no `async` or `expression` field (ESTree's flags for async functions and expression-bodied arrows); the factory never sets them. Other optional ESTree fields such as `leadingComments`, `loc` and `range` are absent too.
- Strings are Dafny strings, sequences of Unicode scalar values, while JavaScript strings are sequences of UTF-16 code units; so a `Str` value cannot hold a lone surrogate.
- Object identity is not modelled: nodes are values, so "fresh object" appears only as a new value, and aliasing between trees is invisible.
- Code generation itself is not modelled. That includes how escodegen consumes `x-verbatim-property`.
