/** The node factory: the one place where the obfuscator synthesises syntax
    tree nodes.  Each factory takes the node's semantic fields and returns a
    fresh node carrying its ESTree `type`, the fixed defaults of its kind and
    `obfuscated = false`.  An argument the caller may omit is an `Option`
    here; `None` stands for the omitted argument and selects the default. */
module Nodes {
  import opened Wrappers
  import opened LiteralText
  import opened Estree

  function GetProgramNode(body: Option<seq<Node>>): (r: Node)
    ensures r.Program? && TypeOf(r) == "Program" && !r.obfuscated
    ensures r.sourceType == Script
    ensures body.Some? ==> r.body == body.value
    ensures body.None? ==> r.body == [] && WellShaped(r)
    ensures body.Some? ==> (WellShaped(r) <==> forall s | s in body.value :: IsStatement(s))
  {
    Program(body.GetOr([]), Script, false)
  }

  function GetBinaryExpressionNode(operator: string, left: Node, right: Node): (r: Node)
    ensures r.BinaryExpression? && TypeOf(r) == "BinaryExpression" && !r.obfuscated
    ensures IsExpression(r)
    ensures r.operator == operator && r.left == left && r.right == right
    ensures Children(r) == [left, right]
    ensures WellShaped(r) <==> operator in BinaryOperators && IsExpression(left) && IsExpression(right)
  {
    BinaryExpression(operator, left, right, false)
  }

  function GetBlockStatementNode(body: Option<seq<Node>>): (r: Node)
    ensures r.BlockStatement? && TypeOf(r) == "BlockStatement" && !r.obfuscated
    ensures IsStatement(r)
    ensures body.Some? ==> r.body == body.value
    ensures body.None? ==> r.body == [] && WellShaped(r)
    ensures body.Some? ==> (WellShaped(r) <==> forall s | s in body.value :: IsStatement(s))
  {
    BlockStatement(body.GetOr([]), false)
  }

  /** The label is attached only when one is given. */
  function GetBreakStatement(target: Option<Node>): (r: Node)
    ensures r.BreakStatement? && TypeOf(r) == "BreakStatement" && !r.obfuscated
    ensures IsStatement(r)
    ensures r.breakLabel.Some? <==> target.Some?
    ensures target.Some? ==> r.breakLabel.value == target.value && Children(r) == [target.value]
    ensures target.None? ==> Children(r) == [] && WellShaped(r)
    ensures target.Some? ==> (WellShaped(r) <==> target.value.Identifier?)
  {
    if target.Some? then BreakStatement(Some(target.value), false) else BreakStatement(None, false)
  }

  /** A catch clause always binds a fresh, unobfuscated `err` and wraps the
      given statements in a fresh block. */
  function GetCatchClauseNode(body: Option<seq<Node>>): (r: Node)
    ensures r.CatchClause? && TypeOf(r) == "CatchClause" && !r.obfuscated
    ensures r.param == GetIdentifierNode("err")
    ensures r.param.Identifier? && r.param.name == "err" && !r.param.obfuscated
    ensures r.catchBody == GetBlockStatementNode(body)
    ensures r.catchBody.BlockStatement? && !r.catchBody.obfuscated
    ensures body.Some? ==> r.catchBody.body == body.value
    ensures body.None? ==> r.catchBody.body == []
    ensures WellShaped(r)
  {
    CatchClause(GetIdentifierNode("err"), GetBlockStatementNode(body), false)
  }

  function GetCallExpressionNode(callee: Node, args: Option<seq<Node>>): (r: Node)
    ensures r.CallExpression? && TypeOf(r) == "CallExpression" && !r.obfuscated
    ensures IsExpression(r)
    ensures r.callee == callee
    ensures args.Some? ==> r.arguments == args.value
    ensures args.Some? ==> Children(r) == [callee] + args.value
    ensures args.None? ==> r.arguments == [] && Children(r) == [callee]
    ensures WellShaped(r) <==>
              (IsExpression(callee) || callee.Super?) &&
              (args.Some? ==> forall a | a in args.value :: IsExpression(a) || a.SpreadElement?)
  {
    CallExpression(callee, args.GetOr([]), false)
  }

  function GetExpressionStatementNode(expression: Node): (r: Node)
    ensures r.ExpressionStatement? && TypeOf(r) == "ExpressionStatement" && !r.obfuscated
    ensures IsStatement(r)
    ensures r.expression == expression && Children(r) == [expression]
    ensures WellShaped(r) <==> IsExpression(expression)
  {
    ExpressionStatement(expression, false)
  }

  /** A function declaration is named by a fresh identifier and is never a
      generator. */
  function GetFunctionDeclarationNode(functionName: string, params: seq<Node>, body: Node): (r: Node)
    ensures r.FunctionDeclaration? && TypeOf(r) == "FunctionDeclaration" && !r.obfuscated
    ensures IsStatement(r)
    ensures r.id == GetIdentifierNode(functionName)
    ensures r.id.Identifier? && r.id.name == functionName && !r.id.obfuscated
    ensures r.params == params && r.functionBody == body && !r.generator
    ensures Children(r) == [r.id] + params + [body]
    ensures (forall p | p in params :: p.Identifier?) && body.BlockStatement? ==> WellShaped(r)
  {
    FunctionDeclaration(GetIdentifierNode(functionName), params, body, false, false)
  }

  /** A function expression is anonymous and is never a generator. */
  function GetFunctionExpressionNode(params: seq<Node>, body: Node): (r: Node)
    ensures r.FunctionExpression? && TypeOf(r) == "FunctionExpression" && !r.obfuscated
    ensures IsExpression(r)
    ensures r.functionId.None?
    ensures r.params == params && r.functionBody == body && !r.generator
    ensures Children(r) == params + [body]
    ensures (forall p | p in params :: p.Identifier?) && body.BlockStatement? ==> WellShaped(r)
  {
    FunctionExpression(None, params, body, false, false)
  }

  /** An if statement built here has no `else` branch. */
  function GetIfStatementNode(test: Node, consequent: Node): (r: Node)
    ensures r.IfStatement? && TypeOf(r) == "IfStatement" && !r.obfuscated
    ensures IsStatement(r)
    ensures r.test == test && r.consequent == consequent && r.alternate.None?
    ensures Children(r) == [test, consequent]
    ensures IsExpression(test) && consequent.BlockStatement? ==> WellShaped(r)
  {
    IfStatement(test, consequent, None, false)
  }

  function GetIdentifierNode(name: string): (r: Node)
    ensures r.Identifier? && TypeOf(r) == "Identifier" && !r.obfuscated
    ensures IsExpression(r) && IsPattern(r) && WellShaped(r)
    ensures r.name == name && Children(r) == []
  {
    Identifier(name, false)
  }

  /** A literal carries its value unchanged and, for the code generator, the
      text `'${value}'` both as `raw` and as its verbatim content, at the
      primary precedence. */
  function GetLiteralNode(value: LitValue): (r: Node)
    ensures r.Literal? && TypeOf(r) == "Literal" && !r.obfuscated
    ensures IsExpression(r) && WellShaped(r) && Children(r) == []
    ensures r.value == value
    ensures r.raw == Quoted(ValueText(value))
    ensures r.verbatim.Some?
    ensures r.verbatim.value.content == r.raw
    ensures r.verbatim.value.precedence == Primary
  {
    var text := Quoted(ValueText(value));
    Literal(value, text, Some(Verbatim(text, Primary)), false)
  }

  function GetLogicalExpressionNode(operator: string, left: Node, right: Node): (r: Node)
    ensures r.LogicalExpression? && TypeOf(r) == "LogicalExpression" && !r.obfuscated
    ensures IsExpression(r)
    ensures r.operator == operator && r.left == left && r.right == right
    ensures Children(r) == [left, right]
    ensures WellShaped(r) <==> operator in LogicalOperators && IsExpression(left) && IsExpression(right)
  {
    LogicalExpression(operator, left, right, false)
  }

  function GetMemberExpressionNode(obj: Node, property: Node, computed: Option<bool>): (r: Node)
    ensures r.MemberExpression? && TypeOf(r) == "MemberExpression" && !r.obfuscated
    ensures IsExpression(r) && IsPattern(r)
    ensures r.obj == obj && r.property == property
    ensures Children(r) == [obj, property]
    ensures computed.Some? ==> r.computed == computed.value
    ensures computed.None? ==> !r.computed
    ensures (IsExpression(obj) || obj.Super?) && (property.Identifier? || property.Literal?) ==> WellShaped(r)
  {
    MemberExpression(computed.GetOr(false), obj, property, false)
  }

  function GetObjectExpressionNode(properties: seq<Node>): (r: Node)
    ensures r.ObjectExpression? && TypeOf(r) == "ObjectExpression" && !r.obfuscated
    ensures IsExpression(r)
    ensures r.properties == properties && Children(r) == properties
    ensures WellShaped(r) <==> forall p | p in properties :: p.Property?
  {
    ObjectExpression(properties, false)
  }

  /** A property is always a plain `init` property: not a method, not
      shorthand, and not computed unless asked. */
  function GetPropertyNode(key: Node, value: Node, computed: Option<bool>): (r: Node)
    ensures r.Property? && TypeOf(r) == "Property" && !r.obfuscated
    ensures r.key == key && r.propertyValue == value
    ensures Children(r) == [key, value]
    ensures r.propertyKind == Init && !r.isMethod && !r.shorthand
    ensures computed.Some? ==> r.computed == computed.value
    ensures computed.None? ==> !r.computed
    ensures WellShaped(r) <==> IsExpression(key) && (IsExpression(value) || IsPattern(value))
  {
    Property(key, value, Init, false, false, computed.GetOr(false), false)
  }

  function GetUnaryExpressionNode(operator: string, argument: Node, prefix: Option<bool>): (r: Node)
    ensures r.UnaryExpression? && TypeOf(r) == "UnaryExpression" && !r.obfuscated
    ensures IsExpression(r)
    ensures r.operator == operator && r.argument == argument
    ensures Children(r) == [argument]
    ensures prefix.Some? ==> r.prefix == prefix.value
    ensures prefix.None? ==> r.prefix
    ensures WellShaped(r) <==> operator in UnaryOperators && IsExpression(argument)
  {
    UnaryExpression(operator, argument, prefix.GetOr(true), false)
  }

  function GetReturnStatementNode(argument: Node): (r: Node)
    ensures r.ReturnStatement? && TypeOf(r) == "ReturnStatement" && !r.obfuscated
    ensures IsStatement(r)
    ensures r.argument == argument && Children(r) == [argument]
    ensures WellShaped(r) <==> IsExpression(argument)
  {
    ReturnStatement(argument, false)
  }

  function GetSwitchStatementNode(discriminant: Node, cases: seq<Node>): (r: Node)
    ensures r.SwitchStatement? && TypeOf(r) == "SwitchStatement" && !r.obfuscated
    ensures IsStatement(r)
    ensures r.discriminant == discriminant && r.cases == cases
    ensures Children(r) == [discriminant] + cases
    ensures WellShaped(r) <==> IsExpression(discriminant) && forall c | c in cases :: c.SwitchCase?
  {
    SwitchStatement(discriminant, cases, false)
  }

  function GetSwitchCaseNode(test: Node, consequent: seq<Node>): (r: Node)
    ensures r.SwitchCase? && TypeOf(r) == "SwitchCase" && !r.obfuscated
    ensures r.test == test && r.caseBody == consequent
    ensures Children(r) == [test] + consequent
    ensures WellShaped(r) <==> IsExpression(test) && forall s | s in consequent :: IsStatement(s)
  {
    SwitchCase(test, consequent, false)
  }

  function GetVariableDeclarationNode(declarations: Option<seq<Node>>, kind: Option<VarKind>): (r: Node)
    ensures r.VariableDeclaration? && TypeOf(r) == "VariableDeclaration" && !r.obfuscated
    ensures IsStatement(r)
    ensures declarations.Some? ==> r.declarations == declarations.value
    ensures declarations.None? ==> r.declarations == [] && WellShaped(r)
    ensures kind.Some? ==> r.kind == kind.value
    ensures kind.None? ==> r.kind == Var
    ensures declarations.Some? ==>
              (WellShaped(r) <==> forall d | d in declarations.value :: d.VariableDeclarator?)
  {
    VariableDeclaration(declarations.GetOr([]), kind.GetOr(Var), false)
  }

  function GetVariableDeclaratorNode(id: Node, init: Option<Node>): (r: Node)
    ensures r.VariableDeclarator? && TypeOf(r) == "VariableDeclarator" && !r.obfuscated
    ensures r.id == id && r.init == init
    ensures init.None? ==> Children(r) == [id]
    ensures init.Some? ==> Children(r) == [id, init.value]
    ensures id.Identifier? && (init.Some? ==> IsExpression(init.value)) ==> WellShaped(r)
  {
    VariableDeclarator(id, init, false)
  }

  /** The verbatim text of a built literal is an escape-free single-quoted
      string literal denoting the value's text exactly when that text holds no
      quote, backslash or line break. */
  lemma LiteralRenderingDenotesText(value: LitValue)
    ensures var r := GetLiteralNode(value);
            Unquote(r.verbatim.value.content) == Some(ValueText(value)) <==> PlainText(ValueText(value))
  {
    QuotedRoundTrip(ValueText(value));
  }

  /** A boolean or numeric literal is rendered as a string literal holding the
      value's text, not as the bare value. */
  lemma NonStringLiteralRendersAsString(value: LitValue)
    requires !value.Str?
    ensures Unquote(GetLiteralNode(value).raw) == Some(ValueText(value))
  {
    ValueTextPlain(value);
    QuotedRoundTrip(ValueText(value));
  }

  /** The text inside a numeric literal's rendering reads back as the number. */
  lemma NumericLiteralTextRoundTrip(n: int)
    ensures var content := GetLiteralNode(Num(n)).verbatim.value.content;
            Unquote(content).Some? && ParseInt(Unquote(content).value) == Some(n)
  {
    NonStringLiteralRendersAsString(Num(n));
    IntTextRoundTrip(n);
  }

  /** Two numeric literals render alike exactly when they hold the same number. */
  lemma NumericLiteralRenderingInjective(m: int, n: int)
    ensures GetLiteralNode(Num(m)).raw == GetLiteralNode(Num(n)).raw <==> m == n
  {
    IntTextInjective(m, n);
    var qm, qn := Quoted(IntText(m)), Quoted(IntText(n));
    if qm == qn {
      assert qm[1..|qm| - 1] == IntText(m);
      assert qn[1..|qn| - 1] == IntText(n);
    }
  }

  /** The rendering does not tell a number from the string of its digits: both
      come out as the same quoted text. */
  lemma NumberAndDigitStringRenderAlike(n: int)
    ensures GetLiteralNode(Num(n)).raw == GetLiteralNode(Str(IntText(n))).raw
    ensures GetLiteralNode(Num(n)).value != GetLiteralNode(Str(IntText(n))).value
  {
  }
}
