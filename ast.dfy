/** The parsed program that the generator consumes. The parser producing it
    is not part of this model; these are the node shapes compiler.ts reads. */
module Ast {

  /** Expression nodes, by their tags `num`, `id`, `op`, `builtin1` and
      `builtin2`. An operator is kept as the parser's string, so operators the
      generator does not support can be represented. */
  datatype Expr =
    | Num(value: int)
    | Id(name: string)
    | Op(name: string, arg1: Expr, arg2: Expr)
    | Builtin1(name: string, arg: Expr)
    | Builtin2(name: string, arg1: Expr, arg2: Expr)

  /** Statement nodes, by their tags `define` and `expr`. */
  datatype Stmt =
    | Define(name: string, value: Expr)
    | ExprStmt(expr: Expr)
}
