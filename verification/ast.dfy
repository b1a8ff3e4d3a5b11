/** Expression trees. Every node owns its children; there is no sharing. */
module Ast {

  import opened Wrappers
  import opened Types

  /** The value stored in a `Literal`. The field is dynamically typed in the
      compiler: the parser only stores integers, but a boolean or `None` can
      reach the later stages from hand-built trees. */
  datatype LiteralValue = IntLit(n: int) | BoolLit(b: bool) | NoneLit

  datatype Expr =
    | Literal(value: LiteralValue)
    | Identifier(name: string)
    | UnaryOp(operator: string, operand: Expr)
    | BinaryOp(left: Expr, op: string, right: Expr)
    | IfExpression(cond: Expr, thenClause: Expr, elseClause: Option<Expr>)
    | FunctionCall(callee: Expr, arguments: seq<Expr>)
    | Block(expressions: seq<Expr>, resultExpression: Option<Expr>)
    | VarDecl(name: string, initializer: Expr, typeAnnotation: Option<Type>)
    | WhileExpr(condition: Expr, body: Expr)

  /** Shorthand for an integer literal node. */
  function Lit(n: int): Expr {
    Literal(IntLit(n))
  }
}
