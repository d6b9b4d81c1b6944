/** The tokens shared by the lexer and the parser (lib/lexer/token.rs), extended with the
    `While` and `StringLiteral` variants that the parser matches on. */
module Tokens {
  import opened Basics

  datatype Token =
    | Illegal
    | EOF
    | Ident(name: string)
    | IntLiteral(intValue: i64)
    | BooleanLiteral(boolValue: bool)
    | StringLiteral(str: string)
    | Assign
    | Plus
    | Minus
    | Divide
    | Multiply
    | Not
    | Less
    | Greater
    | LessEqual
    | GreaterEqual
    | Equal
    | NotEqual
    | Comma
    | SemiColon
    | LParen
    | RParen
    | LBrace
    | RBrace
    | Function
    | Let
    | If
    | Else
    | Return
    | While
}
