/** The statements and expressions of `st-syntax/src/ast.rs` the model covers. */
module Ast {
  import opened Names
  import opened Ir

  datatype Range = Range(start: nat, end: nat)

  datatype BinaryOp =
    | Add | Sub | Mul | Div | Mod | Power | And | Or | Xor
    | Eq | Ne | Lt | Gt | Le | Ge

  datatype UnaryOp = Neg | Not

  /** `Lit` holds the value `literal_to_value` gives the literal. `Anonymous` is a
      variable access without a leading identifier, THIS or SUPER. */
  datatype Expr =
    | Lit(value: Value)
    | Variable(name: string)
    | Anonymous
    | BinaryExpr(op: BinaryOp, left: Expr, right: Expr)
    | UnaryExpr(uop: UnaryOp, operand: Expr)
    | Paren(inner: Expr)

  datatype Selector = Single(e: Expr) | Interval(lo: Expr, hi: Expr)

  /** IF and each ELSIF is an arm. */
  datatype Arm = Arm(cond: Expr, body: seq<Stmt>)

  datatype Branch = Branch(selectors: seq<Selector>, body: seq<Stmt>)

  /** `els` is the ELSE body; a missing ELSE compiles like an empty one. */
  datatype Stmt =
    | Assign(range: Range, target: string, value: Expr)
    | If(range: Range, arms: seq<Arm>, els: seq<Stmt>)
    | Case(range: Range, subject: Expr, branches: seq<Branch>, els: seq<Stmt>)
    | For(range: Range, variable: string, from: Expr, to: Expr, step: Option<Expr>, body: seq<Stmt>)
    | While(range: Range, cond: Expr, body: seq<Stmt>)
    | Repeat(range: Range, body: seq<Stmt>, cond: Expr)
    | Return(range: Range)
    | Exit(range: Range)
    | Empty(range: Range)
}
