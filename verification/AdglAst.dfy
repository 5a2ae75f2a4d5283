/** The ADGL expression tree of crates/airpulse_dsl-syntax/src/ast.rs, spans erased. */
module AdglAst {

  datatype BinaryOp = Or | And | Eq | Ne | Lt | Le | Gt | Ge | In | Add | Sub | Mul | Div | Rem

  datatype Expr =
    | IntLit(value: int)
    | DurationLit(millis: int)
    | StringLit(text: string)
    | Ident(name: string)
    | BoolLit(b: bool)
    | Present(name: string)
    | Absent(name: string)
    | Not(operand: Expr)
    | Binary(op: BinaryOp, left: Expr, right: Expr)
    | Field(base: Expr, field: string)
    | Call(callee: Expr, args: seq<Expr>)
    | Index(base: Expr, index: Expr)
}
