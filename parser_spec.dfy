/** The recursive-descent parser of lib/parser/mod.rs as functions on an explicit parser
    state: the cursor position in the token vector, the `previous` token and the `errors`
    list. Each function returns what the Rust method returns (`Ok(value)` or `Err(())`)
    together with the state it leaves the parser in; `?` passes an `Err` on with the state
    reached. The class `Parser.Parser` is proved to compute exactly these functions. */
module ParserSpec {
  import opened Basics
  import opened Tokens
  import opened Ast

  /** `ParseError { token, message }` */
  datatype ParseError = ParseError(token: Token, message: string)

  /** The mutable part of a `Parser`: `token_cursor` as a position, `previous`, `errors`. */
  datatype PState = PState(pos: nat, previous: Token, errors: seq<ParseError>)

  /** `Result<T, ()>` */
  datatype Result<T> = Ok(value: T) | Err

  /** What a parsing method returns, with the state it leaves behind. */
  datatype Parsed<T> = Parsed(result: Result<T>, st: PState)

  /** `Parser::new`: nothing consumed, `previous` is `EOF`, no errors. */
  const INITIAL: PState := PState(0, EOF, [])

  /** The cursor never runs past the end of the token vector. */
  predicate Valid(ts: seq<Token>, st: PState)
  {
    st.pos <= |ts|
  }

  /** `peek`: the next token, or `EOF` once the cursor is exhausted. */
  function Peek(ts: seq<Token>, st: PState): (t: Token)
    requires Valid(ts, st)
    ensures !t.EOF? ==> st.pos < |ts|
  {
    if st.pos < |ts| then ts[st.pos] else EOF
  }

  /** `advance`: consume the next token into `previous`, or set `previous` to `EOF` at the end. */
  function Advance(ts: seq<Token>, st: PState): (r: PState)
    requires Valid(ts, st)
    ensures Valid(ts, r) && r.errors == st.errors
    ensures st.pos < |ts| ==> r.pos == st.pos + 1 && r.previous == ts[st.pos]
    ensures st.pos == |ts| ==> r.pos == st.pos && r.previous.EOF?
  {
    if st.pos < |ts| then st.(pos := st.pos + 1, previous := ts[st.pos]) else st.(previous := EOF)
  }

  /** `error`: record the message against the `previous` token. */
  function Error(st: PState, message: string): (r: PState)
    ensures r.pos == st.pos && r.previous == st.previous
    ensures r.errors == st.errors + [ParseError(st.previous, message)]
  {
    st.(errors := st.errors + [ParseError(st.previous, message)])
  }

  /** The state only moves forward: the cursor does not go back and errors are only appended. */
  predicate Extends(ts: seq<Token>, st: PState, st2: PState)
  {
    st.pos <= st2.pos <= |ts| && st.errors <= st2.errors
  }

  /** A method's result is sound when the state moves forward and a failure is always reported
      by at least one new error. */
  predicate Sound<T>(ts: seq<Token>, st: PState, r: Parsed<T>)
  {
    Extends(ts, st, r.st) && (r.result.Err? ==> |r.st.errors| > |st.errors|)
  }

  /** A method makes progress when it consumes a token whenever one is left. */
  predicate Moves<T>(ts: seq<Token>, st: PState, r: Parsed<T>)
  {
    st.pos < |ts| ==> st.pos < r.st.pos
  }

  /** The four levels of left-associative binary operators, loosest first. */
  datatype Level = EqualityLevel | ComparisonLevel | TermLevel | FactorLevel

  /** The level whose parser supplies the operands of a level (`FactorLevel` uses `parse_unary`). */
  function Tighter(level: Level): Level
    requires level != FactorLevel
  {
    match level
    case EqualityLevel => ComparisonLevel
    case ComparisonLevel => TermLevel
    case TermLevel => FactorLevel
  }

  /** The operator a token stands for at a level, if any (the `match self.peek()` arms of
      parse_equality, parse_comparison, parse_term and parse_factor). */
  function LevelOp(level: Level, t: Token): (r: Option<BinOp>)
    ensures r.Some? ==> !t.EOF?
  {
    match level
    case EqualityLevel =>
      if t.Equal? then Some(BinOp.Equal)
      else if t.NotEqual? then Some(BinOp.NotEqual)
      else None
    case ComparisonLevel =>
      if t.Less? then Some(BinOp.Less)
      else if t.LessEqual? then Some(BinOp.LessEqual)
      else if t.Greater? then Some(BinOp.Greater)
      else if t.GreaterEqual? then Some(BinOp.GreaterEqual)
      else None
    case TermLevel =>
      if t.Plus? then Some(BinOp.Plus)
      else if t.Minus? then Some(BinOp.Minus)
      else None
    case FactorLevel =>
      if t.Multiply? then Some(BinOp.Multiply)
      else if t.Divide? then Some(BinOp.Divide)
      else None
  }

  /** The prefix operator a token stands for in parse_unary, if any. */
  function PrefixOp(t: Token): (r: Option<UnaryOp>)
    ensures r.Some? ==> !t.EOF?
  {
    if t.Minus? then Some(UnaryMinus)
    else if t.Plus? then Some(UnaryPlus)
    else if t.Not? then Some(UnaryOp.Not)
    else None
  }

  /** Termination measure: the tokens left, then the position of the function on the ladder. */
  function BinaryRank(level: Level): nat
  {
    match level
    case FactorLevel => 6
    case TermLevel => 8
    case ComparisonLevel => 10
    case EqualityLevel => 12
  }

  /** `parse_expr` */
  function ParseExpr(ts: seq<Token>, st: PState): (r: Parsed<Expr>)
    requires Valid(ts, st)
    ensures Sound(ts, st, r) && Moves(ts, st, r)
    decreases |ts| - st.pos, 14
  {
    ParseAssignment(ts, st)
  }

  /** `parse_assignment`: an equality, optionally followed by `=` and another equality; only an
      identifier may be assigned to. */
  function ParseAssignment(ts: seq<Token>, st: PState): (r: Parsed<Expr>)
    requires Valid(ts, st)
    ensures Sound(ts, st, r) && Moves(ts, st, r)
    decreases |ts| - st.pos, 13
  {
    var left := ParseBinary(ts, st, EqualityLevel);
    if left.result.Err? then left
    else if !Peek(ts, left.st).Assign? then left
    else
      var right := ParseBinary(ts, Advance(ts, left.st), EqualityLevel);
      if right.result.Err? then right
      else if left.result.value.IdentExpr? then
        Parsed(Ok(AssignmentExpr(left.result.value.ident, right.result.value)), right.st)
      else Parsed(Err, Error(right.st, "Illegal assignment"))
  }

  /** The operand parser of a level: the next tighter level, or `parse_unary` below factors. */
  function ParseOperand(ts: seq<Token>, st: PState, level: Level): (r: Parsed<Expr>)
    requires Valid(ts, st)
    ensures Sound(ts, st, r) && Moves(ts, st, r)
    decreases |ts| - st.pos, BinaryRank(level) - 1
  {
    if level == FactorLevel then ParseUnary(ts, st) else ParseBinary(ts, st, Tighter(level))
  }

  /** parse_equality, parse_comparison, parse_term, parse_factor: an operand, then the loop. */
  function ParseBinary(ts: seq<Token>, st: PState, level: Level): (r: Parsed<Expr>)
    requires Valid(ts, st)
    ensures Sound(ts, st, r) && Moves(ts, st, r)
    decreases |ts| - st.pos, BinaryRank(level)
  {
    var left := ParseOperand(ts, st, level);
    if left.result.Err? then left else BinaryLoop(ts, left.st, level, left.result.value)
  }

  /** The `loop` of a binary level: while the next token is an operator of the level, consume it
      and an operand and make `expr` the left operand of the new node. */
  function BinaryLoop(ts: seq<Token>, st: PState, level: Level, expr: Expr): (r: Parsed<Expr>)
    requires Valid(ts, st)
    ensures Sound(ts, st, r)
    decreases |ts| - st.pos, BinaryRank(level) - 2
  {
    match LevelOp(level, Peek(ts, st))
    case None => Parsed(Ok(expr), st)
    case Some(op) =>
      var right := ParseOperand(ts, Advance(ts, st), level);
      if right.result.Err? then right
      else BinaryLoop(ts, right.st, level, BinExpr(expr, op, right.result.value))
  }

  /** `parse_unary`: prefix `-`, `+`, `!` applied to a unary, or else a call. */
  function ParseUnary(ts: seq<Token>, st: PState): (r: Parsed<Expr>)
    requires Valid(ts, st)
    ensures Sound(ts, st, r) && Moves(ts, st, r)
    decreases |ts| - st.pos, 4
  {
    match PrefixOp(Peek(ts, st))
    case Some(op) =>
      var operand := ParseUnary(ts, Advance(ts, st));
      if operand.result.Err? then operand
      else Parsed(Ok(UnaryExpr(op, operand.result.value)), operand.st)
    case None => ParseCall(ts, st)
  }

  /** `parse_call`: a primary followed by any number of argument lists. */
  function ParseCall(ts: seq<Token>, st: PState): (r: Parsed<Expr>)
    requires Valid(ts, st)
    ensures Sound(ts, st, r) && Moves(ts, st, r)
    decreases |ts| - st.pos, 3
  {
    var callee := ParsePrimary(ts, st);
    if callee.result.Err? then callee else CallLoop(ts, callee.st, callee.result.value)
  }

  /** The `loop` of parse_call: each `( arguments )` wraps `expr` in a `CallExpr`. */
  function CallLoop(ts: seq<Token>, st: PState, expr: Expr): (r: Parsed<Expr>)
    requires Valid(ts, st)
    ensures Sound(ts, st, r)
    decreases |ts| - st.pos, 2
  {
    if !Peek(ts, st).LParen? then Parsed(Ok(expr), st)
    else
      var args := ParseExprList(ts, Advance(ts, st), "arguments");
      if args.result.Err? then Parsed(Err, args.st)
      else if !Peek(ts, args.st).RParen? then Parsed(Err, Error(args.st, "Expected ')' after arguments"))
      else CallLoop(ts, Advance(ts, args.st), CallExpr(expr, args.result.value))
  }

  /** The comma-separated expressions of an argument or parameter list, up to the `)`, which is
      left unconsumed (parser/mod.rs:147-157 and 407-417; `noun` is "parameters" or "arguments"). */
  function ParseExprList(ts: seq<Token>, st: PState, noun: string): (r: Parsed<seq<Expr>>)
    requires Valid(ts, st)
    ensures Sound(ts, st, r)
    ensures r.result.Ok? ==> |r.result.value| <= 255
    decreases |ts| - st.pos, 16
  {
    if Peek(ts, st).RParen? then Parsed(Ok([]), st)
    else
      var first := ParseExpr(ts, st);
      if first.result.Err? then Parsed(Err, first.st)
      else ListRest(ts, first.st, [first.result.value], noun)
  }

  /** The `while self.peek() == Token::Comma` loop: one more expression per comma, failing as
      soon as the list holds more than 255. */
  function ListRest(ts: seq<Token>, st: PState, items: seq<Expr>, noun: string): (r: Parsed<seq<Expr>>)
    requires Valid(ts, st)
    ensures Sound(ts, st, r)
    ensures r.result.Ok? ==> |r.result.value| >= |items| && r.result.value[..|items|] == items
    ensures r.result.Ok? && |items| <= 255 ==> |r.result.value| <= 255
    decreases |ts| - st.pos, 15
  {
    if !Peek(ts, st).Comma? then Parsed(Ok(items), st)
    else
      var next := ParseExpr(ts, Advance(ts, st));
      if next.result.Err? then Parsed(Err, next.st)
      else
        var items' := items + [next.result.value];
        if |items'| > 255 then Parsed(Err, Error(next.st, "Cannot have more than 255 " + noun))
        else ListRest(ts, next.st, items', noun)
  }

  /** `parse_primary`: an identifier, a literal or a parenthesised expression; any other token
      is consumed and reported as unexpected. */
  function ParsePrimary(ts: seq<Token>, st: PState): (r: Parsed<Expr>)
    requires Valid(ts, st)
    ensures Sound(ts, st, r) && Moves(ts, st, r)
    decreases |ts| - st.pos, 1
  {
    match Peek(ts, st)
    case Ident(name) => Parsed(Ok(IdentExpr(Ident.Ident(name))), Advance(ts, st))
    case BooleanLiteral(b) => Parsed(Ok(LiteralExpr(BoolLiteral(b))), Advance(ts, st))
    case IntLiteral(v) => Parsed(Ok(LiteralExpr(Literal.IntLiteral(v))), Advance(ts, st))
    case StringLiteral(s) => Parsed(Ok(LiteralExpr(Literal.StringLiteral(s))), Advance(ts, st))
    case LParen =>
      var inner := ParseExpr(ts, Advance(ts, st));
      if inner.result.Err? then inner
      else if Peek(ts, inner.st).RParen? then Parsed(Ok(inner.result.value), Advance(ts, inner.st))
      else Parsed(Err, Error(inner.st, "Expected ')' after expression"))
    case _ => Parsed(Err, Error(Advance(ts, st), "Unexpected Token"))
  }

  /** The tokens parse_stmt consumes before handing over to a statement parser. */
  predicate StartsStmt(t: Token)
  {
    t.Let? || t.LBrace? || t.If? || t.While? || t.Function? || t.Return?
  }

  /** `parse_stmt`: a statement keyword or `{` is consumed and selects the statement parser;
      anything else starts an expression statement. */
  function ParseStmt(ts: seq<Token>, st: PState): (r: Parsed<Stmt>)
    requires Valid(ts, st)
    ensures Sound(ts, st, r) && Moves(ts, st, r)
    decreases |ts| - st.pos, 2
  {
    var t := Peek(ts, st);
    if StartsStmt(t) then KeywordStmt(ts, Advance(ts, st), t) else ParseExprStmt(ts, st)
  }

  /** The arms of parse_stmt after the first token is consumed. */
  function KeywordStmt(ts: seq<Token>, st: PState, keyword: Token): (r: Parsed<Stmt>)
    requires Valid(ts, st) && StartsStmt(keyword)
    ensures Sound(ts, st, r)
    decreases |ts| - st.pos, 6
  {
    match keyword
    case Let => ParseLet(ts, st)
    case LBrace => ParseBlock(ts, st)
    case If => ParseIf(ts, st)
    case While => ParseWhile(ts, st)
    case Function => ParseFn(ts, st)
    case Return => ParseReturn(ts, st)
  }

  /** `parse_return`: `return;` or `return expr;`. */
  function ParseReturn(ts: seq<Token>, st: PState): (r: Parsed<Stmt>)
    requires Valid(ts, st)
    ensures Sound(ts, st, r)
    decreases |ts| - st.pos, 1
  {
    if Peek(ts, st).SemiColon? then Parsed(Ok(ReturnStmt(None)), Advance(ts, st))
    else
      var e := ParseExpr(ts, st);
      if e.result.Err? then Parsed(Err, e.st)
      else if !Peek(ts, e.st).SemiColon? then Parsed(Err, Error(e.st, "Expected ';' after statement"))
      else Parsed(Ok(ReturnStmt(Some(e.result.value))), Advance(ts, e.st))
  }

  /** `parse_fn`: a name and a parenthesised parameter list, then the body. */
  function ParseFn(ts: seq<Token>, st: PState): (r: Parsed<Stmt>)
    requires Valid(ts, st)
    ensures Sound(ts, st, r)
    decreases |ts| - st.pos, 1
  {
    match Peek(ts, st)
    case Ident(name) =>
      var st1 := Advance(ts, st);
      if !Peek(ts, st1).LParen? then Parsed(Err, Error(st1, "Expected '(' after identifier"))
      else
        var params := ParseExprList(ts, Advance(ts, st1), "parameters");
        if params.result.Err? then Parsed(Err, params.st)
        else if !Peek(ts, params.st).RParen? then Parsed(Err, Error(params.st, "Expected ')' after parameters"))
        else FnBody(ts, Advance(ts, params.st), Ident.Ident(name), params.result.value)
    case _ => Parsed(Err, Error(st, "Expected identifier after function definition"))
  }

  /** The end of `parse_fn`, after the `)`: a missing `{` is reported but parsing goes on, as
      `advance` consumes whatever token stands there; then the block. */
  function FnBody(ts: seq<Token>, st: PState, name: Ident, params: seq<Expr>): (r: Parsed<Stmt>)
    requires Valid(ts, st)
    ensures Sound(ts, st, r)
    decreases |ts| - st.pos, 5
  {
    var st1 := if !Peek(ts, st).LBrace? then Error(st, "Expected '{' after parameters") else st;
    var body := ParseBlock(ts, Advance(ts, st1));
    if body.result.Err? then body
    else Parsed(Ok(FnStmt(name, params, body.result.value)), body.st)
  }

  /** `parse_while`: a condition, `{` and the loop block. */
  function ParseWhile(ts: seq<Token>, st: PState): (r: Parsed<Stmt>)
    requires Valid(ts, st)
    ensures Sound(ts, st, r)
    decreases |ts| - st.pos, 1
  {
    var cond := ParseExpr(ts, st);
    if cond.result.Err? then Parsed(Err, cond.st)
    else if !Peek(ts, cond.st).LBrace? then Parsed(Err, Error(cond.st, "Expect '{' after while condition"))
    else
      var body := ParseBlock(ts, Advance(ts, cond.st));
      if body.result.Err? then body else Parsed(Ok(WhileStmt(cond.result.value, body.result.value)), body.st)
  }

  /** `parse_if`: a condition, `{` and the then-block, then the optional else part. */
  function ParseIf(ts: seq<Token>, st: PState): (r: Parsed<Stmt>)
    requires Valid(ts, st)
    ensures Sound(ts, st, r)
    decreases |ts| - st.pos, 1
  {
    var cond := ParseExpr(ts, st);
    if cond.result.Err? then Parsed(Err, cond.st)
    else if !Peek(ts, cond.st).LBrace? then Parsed(Err, Error(cond.st, "Expect '{' after if condition"))
    else
      var thenBranch := ParseBlock(ts, Advance(ts, cond.st));
      if thenBranch.result.Err? then thenBranch
      else ElsePart(ts, thenBranch.st, cond.result.value, thenBranch.result.value)
  }

  /** The end of `parse_if`: an optional `else` followed by either `if` (parsed recursively) or
      a block. In the second case the `{` of the else-block is not consumed before parse_block is
      called (parser/mod.rs:199). */
  function ElsePart(ts: seq<Token>, st: PState, cond: Expr, thenBranch: Stmt): (r: Parsed<Stmt>)
    requires Valid(ts, st)
    ensures Sound(ts, st, r)
    decreases |ts| - st.pos, 1
  {
    if !Peek(ts, st).Else? then Parsed(Ok(IfStmt(cond, thenBranch, None)), st)
    else
      var st1 := Advance(ts, st);
      var elseBranch := if Peek(ts, st1).If? then ParseIf(ts, Advance(ts, st1)) else ParseBlock(ts, st1);
      if elseBranch.result.Err? then elseBranch
      else Parsed(Ok(IfStmt(cond, thenBranch, Some(elseBranch.result.value))), elseBranch.st)
  }

  /** `parse_block`, entered after its `{`: statements up to `}` or `EOF`, then the `}`. */
  function ParseBlock(ts: seq<Token>, st: PState): (r: Parsed<Stmt>)
    requires Valid(ts, st)
    ensures Sound(ts, st, r)
    decreases |ts| - st.pos, 4
  {
    var body := BlockLoop(ts, st, []);
    if Peek(ts, body.st).RBrace? then Parsed(Ok(BlockStmt(body.result.value)), Advance(ts, body.st))
    else Parsed(Err, Error(body.st, "Expect '}' after block"))
  }

  /** The `loop` of parse_block: statements that parse are kept, failed ones are dropped
      without synchronising. */
  function BlockLoop(ts: seq<Token>, st: PState, stmts: seq<Stmt>): (r: Parsed<seq<Stmt>>)
    requires Valid(ts, st)
    ensures Extends(ts, st, r.st) && r.result.Ok?
    ensures |r.result.value| >= |stmts| && r.result.value[..|stmts|] == stmts
    ensures Peek(ts, r.st).RBrace? || Peek(ts, r.st).EOF?
    decreases |ts| - st.pos, 3
  {
    var t := Peek(ts, st);
    if t.RBrace? || t.EOF? then Parsed(Ok(stmts), st)
    else
      var s := ParseStmt(ts, st);
      BlockLoop(ts, s.st, if s.result.Ok? then stmts + [s.result.value] else stmts)
  }

  /** `parse_let`: `let name;` or `let name = expr;`. */
  function ParseLet(ts: seq<Token>, st: PState): (r: Parsed<Stmt>)
    requires Valid(ts, st)
    ensures Sound(ts, st, r)
    decreases |ts| - st.pos, 1
  {
    match Peek(ts, st)
    case Ident(name) =>
      var st1 := Advance(ts, st);
      var t := Peek(ts, st1);
      if t.Assign? then
        var e := ParseExpr(ts, Advance(ts, st1));
        if e.result.Err? then Parsed(Err, e.st)
        else if Peek(ts, e.st).SemiColon? then
          Parsed(Ok(LetStmt(Ident.Ident(name), Some(e.result.value))), Advance(ts, e.st))
        else Parsed(Err, Error(e.st, "Expected ';' after statement"))
      else if t.SemiColon? then Parsed(Ok(LetStmt(Ident.Ident(name), None)), Advance(ts, st1))
      else Parsed(Err, Error(st1, "Expected ';' after statement"))
    case _ => Parsed(Err, Error(st, "Expect identifier after 'let'"))
  }

  /** `parse_expr_stmt`: an expression and its `;`. */
  function ParseExprStmt(ts: seq<Token>, st: PState): (r: Parsed<Stmt>)
    requires Valid(ts, st)
    ensures Sound(ts, st, r) && Moves(ts, st, r)
    decreases |ts| - st.pos, 1
  {
    var e := ParseExpr(ts, st);
    if e.result.Err? then Parsed(Err, e.st)
    else if Peek(ts, e.st).SemiColon? then Parsed(Ok(ExprStmt(e.result.value)), Advance(ts, e.st))
    else Parsed(Err, Error(e.st, "Expected ';' after expression"))
  }

  /** The tokens `synchronize` stops in front of. */
  predicate IsSyncStop(t: Token)
  {
    t.Let? || t.If? || t.Return? || t.Function? || t.EOF?
  }

  /** No token in `ts[a..b]` is a stop token or a `;`. */
  predicate Skippable(ts: seq<Token>, a: nat, b: nat)
    requires a <= b <= |ts|
  {
    forall k :: a <= k < b ==> !IsSyncStop(ts[k]) && !ts[k].SemiColon?
  }

  /** `synchronize`: skip tokens up to a statement keyword or `EOF` (left unconsumed) or up to
      and including a `;`. */
  function Synchronize(ts: seq<Token>, st: PState): (r: PState)
    requires Valid(ts, st)
    ensures Extends(ts, st, r) && r.errors == st.errors && r.pos <= |ts|
    ensures IsSyncStop(Peek(ts, r)) || (st.pos < r.pos && ts[r.pos - 1].SemiColon?)
    decreases |ts| - st.pos
  {
    var t := Peek(ts, st);
    if IsSyncStop(t) then st
    else if t.SemiColon? then Advance(ts, st)
    else Synchronize(ts, Advance(ts, st))
  }

  /** The `while self.peek() != Token::EOF` loop of `parse`: successful statements are
      collected in order, and after a failed one the parser synchronises. */
  function ParseLoop(ts: seq<Token>, st: PState, stmts: seq<Stmt>): (r: (Program, PState))
    requires Valid(ts, st)
    ensures Extends(ts, st, r.1) && Valid(ts, r.1) && Peek(ts, r.1).EOF?
    ensures |r.0| >= |stmts| && r.0[..|stmts|] == stmts
    ensures |r.0| - |stmts| <= r.1.pos - st.pos
    decreases |ts| - st.pos
  {
    if Peek(ts, st).EOF? then (stmts, st)
    else
      var s := ParseStmt(ts, st);
      var next := if s.result.Ok? then s.st else Synchronize(ts, s.st);
      ParseLoop(ts, next, if s.result.Ok? then stmts + [s.result.value] else stmts)
  }

  /** `Parser::new(tokens).parse()`: the program and the final state, whose `errors` the caller
      reads. */
  function Parse(ts: seq<Token>): (r: (Program, PState))
    ensures Valid(ts, r.1)
    ensures Peek(ts, r.1).EOF? && |r.0| <= |ts|
  {
    ParseLoop(ts, INITIAL, [])
  }
}
