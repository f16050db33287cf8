/** The parsed program the evaluator consumes. The parser that builds it
    (`crate::ast` and its producers) is not part of this model. */
module Ast {
  import opened Float64

  datatype Literal = IntLit(i: int) | FloatLit(f: F64) | StrLit(s: string)

  datatype Expr =
    | Ident(name: string)
    | BinExp(op: string, left: Expr, right: Expr)
    | Lit(lit: Literal)

  datatype Statement =
    | Assign(target: string, value: Expr)
    | ExprStmt(expr: Expr)

  type Program = seq<Statement>

  /** The names an expression reads. */
  function FreeVars(e: Expr): set<string> {
    match e
    case Ident(name) => {name}
    case BinExp(_, left, right) => FreeVars(left) + FreeVars(right)
    case Lit(_) => {}
  }
}
