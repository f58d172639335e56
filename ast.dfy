/** The abstract syntax tree shared by the parser and its callers
    (src/ast.rs): operators, expression and factor nodes, the single
    statement form and the function definition. */
module Ast {

  /** The source's `i32`: integer literals are signed 32-bit values. */
  const MinI32: int := -0x8000_0000
  const MaxI32: int := 0x7fff_ffff
  type I32 = x: int | MinI32 <= x <= MaxI32

  datatype UnaryOperator = Complement | Negate

  datatype BinaryOperator = Add | Subtract | Multiply | Divide | Mod {

    /** The multiplicative group of C operators. */
    predicate IsMultiplicative() {
      this == Multiply || this == Divide || this == Mod
    }

    /** The binding strength of the operator: higher binds tighter. */
    function Precedence(): (p: I32)
      ensures 0 <= p
      ensures p == 10 <==> IsMultiplicative()
      ensures p == 9 <==> !IsMultiplicative()
    {
      match this
      case Multiply => 10
      case Divide => 10
      case Mod => 10
      case Add => 9
      case Subtract => 9
    }
  }

  datatype ExprNode =
    | Integer(value: I32)
    | Unary(unaryOp: UnaryOperator, expr: ExprNode)
    | Binary(lhs: ExprNode, rhs: ExprNode, binaryOp: BinaryOperator)

  /** What `parse_factor` yields: a literal, a unary application, or a
      parenthesised expression. */
  datatype FactorNode =
    | Integer(value: I32)
    | Unary(unaryOp: UnaryOperator, expr: ExprNode)
    | Expr(expr: ExprNode)

  datatype StatementNode = Return(expr: ExprNode)

  /** Built by the parser through the datatype constructor, which stores
      exactly the given identifier and body. */
  datatype FunctionDefinition = FunctionDefinition(identifier: string, body: StatementNode)

  /** The conversion at the head of `parse_expr`: a parenthesised factor is
      its inner expression, the other two become the expression node of the
      same shape. */
  function FactorToExpr(f: FactorNode): (e: ExprNode)
    ensures f.Expr? ==> e == f.expr
    ensures f.Integer? ==> e == ExprNode.Integer(f.value)
    ensures f.Unary? ==> e == ExprNode.Unary(f.unaryOp, f.expr)
  {
    match f
    case Integer(v) => ExprNode.Integer(v)
    case Unary(op, e) => ExprNode.Unary(op, e)
    case Expr(e) => e
  }

  /** Every multiplicative operator binds strictly tighter than every
      additive one. */
  lemma MultiplicativeAboveAdditive(m: BinaryOperator, a: BinaryOperator)
    requires m.IsMultiplicative() && !a.IsMultiplicative()
    ensures m.Precedence() > a.Precedence()
  {
  }

  /** Operators of the same group share one precedence level. */
  lemma PrecedenceByGroup(x: BinaryOperator, y: BinaryOperator)
    ensures x.Precedence() == y.Precedence() <==> x.IsMultiplicative() == y.IsMultiplicative()
  {
  }
}
