/** The syntax tree (lib/parser/ast.rs) as the parser builds it and the compiler consumes it:
    `LetStmt` carries an optional initialiser, and the function, block, if, while and call
    forms and string literals are included. */
module Ast {
  import opened Basics

  datatype Ident = Ident(name: string)

  datatype Literal =
    | IntLiteral(intValue: i64)
    | BoolLiteral(boolValue: bool)
    | StringLiteral(str: string)

  datatype UnaryOp = UnaryPlus | UnaryMinus | Not

  datatype BinOp =
    | Plus | Minus | Divide | Multiply
    | Less | Greater | LessEqual | GreaterEqual | Equal | NotEqual

  datatype Expr =
    | IdentExpr(ident: Ident)
    | LiteralExpr(literal: Literal)
    | AssignmentExpr(target: Ident, value: Expr)
    | UnaryExpr(uop: UnaryOp, operand: Expr)
    | BinExpr(left: Expr, op: BinOp, right: Expr)
    | CallExpr(callee: Expr, args: seq<Expr>)

  datatype Stmt =
    | LetStmt(name: Ident, init: Option<Expr>)
    | ReturnStmt(result: Option<Expr>)
    | ExprStmt(expr: Expr)
    | FnStmt(fname: Ident, params: seq<Expr>, body: Stmt)
    | BlockStmt(stmts: seq<Stmt>)
    | IfStmt(cond: Expr, thenBranch: Stmt, elseBranch: Option<Stmt>)
    | WhileStmt(guard: Expr, loopBody: Stmt)

  /** `pub type Program = Vec<Stmt>` */
  type Program = seq<Stmt>
}
