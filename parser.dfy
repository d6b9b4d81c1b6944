/** The parser of lib/parser/mod.rs as it runs: a `Parser` object whose methods advance a
    token cursor and append to an error list. Every parsing method is proved to leave the
    parser exactly in the state, and return exactly the result, given by the function of the
    same name in `ParserSpec`. */
module Parser {
  import opened Basics
  import opened Tokens
  import opened Ast
  import opened ParserSpec

  /** `TokenCursor`: a slice iterator over the token vector, modelled by the vector and the
      number of tokens it has produced so far. */
  class TokenCursor {
    const tokens: seq<Token>
    var pos: nat

    ghost predicate Valid()
      reads this
    {
      pos <= |tokens|
    }

    /** `TokenCursor::new`: an iterator at the start of the vector. */
    constructor (input: seq<Token>)
      ensures tokens == input && pos == 0 && Valid()
    {
      tokens := input;
      pos := 0;
    }

    /** `peek_first`: what `next` would produce, read from a clone of the iterator. */
    function PeekFirst(): (r: Option<Token>)
      reads this
      requires Valid()
      ensures r.Some? <==> pos < |tokens|
      ensures r.Some? ==> r.value == tokens[pos]
    {
      if pos < |tokens| then Some(tokens[pos]) else None
    }

    /** `next`: produce what `PeekFirst` shows and move past it. */
    method Next() returns (r: Option<Token>)
      requires Valid()
      modifies this
      ensures Valid() && r == old(PeekFirst())
      ensures pos == if old(pos) < |tokens| then old(pos) + 1 else old(pos)
    {
      r := PeekFirst();
      if pos < |tokens| {
        pos := pos + 1;
      }
    }
  }

  class Parser {
    var previous: Token
    const cursor: TokenCursor
    var errors: seq<ParseError>

    ghost predicate Valid()
      reads this, cursor
    {
      cursor.Valid()
    }

    /** The parser's state as the functional specification sees it. */
    function State(): PState
      reads this, cursor
    {
      PState(cursor.pos, previous, errors)
    }

    /** `Parser::new` */
    constructor (tokens: seq<Token>)
      ensures Valid() && fresh(cursor)
      ensures cursor.tokens == tokens && State() == INITIAL
    {
      previous := EOF;
      cursor := new TokenCursor(tokens);
      errors := [];
    }

    /** `advance` */
    method Advance()
      requires Valid()
      modifies this, cursor
      ensures Valid() && State() == ParserSpec.Advance(cursor.tokens, old(State()))
    {
      var t := cursor.Next();
      match t {
        case Some(tok) => previous := tok;
        case None => previous := EOF;
      }
    }

    /** `peek` */
    function Peek(): (t: Token)
      reads this, cursor
      requires Valid()
      ensures t == ParserSpec.Peek(cursor.tokens, State())
    {
      match cursor.PeekFirst()
      case Some(tok) => tok
      case None => EOF
    }

    /** `error`: one more error, carrying the previous token; the cursor does not move. */
    method Error(message: string)
      modifies this
      ensures previous == old(previous) && errors == old(errors) + [ParseError(old(previous), message)]
      ensures State() == ParserSpec.Error(old(State()), message)
    {
      errors := errors + [ParseError(previous, message)];
    }

    /** `synchronize` */
    method Synchronize()
      requires Valid()
      modifies this, cursor
      ensures Valid() && State() == ParserSpec.Synchronize(cursor.tokens, old(State()))
    {
      ghost var st0 := State();
      while true
        invariant Valid() && ParserSpec.Synchronize(cursor.tokens, State()) == ParserSpec.Synchronize(cursor.tokens, st0)
        decreases |cursor.tokens| - cursor.pos
      {
        var t := Peek();
        if IsSyncStop(t) {
          return;
        }
        Advance();
        if t.SemiColon? {
          return;
        }
      }
    }

    /** `parse`: statements up to `EOF`, synchronising after each one that fails. */
    method Parse() returns (program: Program)
      requires Valid()
      modifies this, cursor
      ensures Valid() && (program, State()) == ParseLoop(cursor.tokens, old(State()), [])
    {
      ghost var st0 := State();
      program := [];
      while !Peek().EOF?
        invariant Valid() && ParseLoop(cursor.tokens, State(), program) == ParseLoop(cursor.tokens, st0, [])
        decreases |cursor.tokens| - cursor.pos
      {
        var s := ParseStmt();
        match s {
          case Ok(stmt) => program := program + [stmt];
          case Err => Synchronize();
        }
      }
    }

    /** `parse_stmt` */
    method ParseStmt() returns (r: Result<Stmt>)
      requires Valid()
      modifies this, cursor
      ensures Valid() && Parsed(r, State()) == ParserSpec.ParseStmt(cursor.tokens, old(State()))
      decreases |cursor.tokens| - cursor.pos, 2
    {
      var t := Peek();
      if StartsStmt(t) {
        Advance();
        r := KeywordStmt(t);
      } else {
        r := ParseExprStmt();
      }
    }

    /** The arms of `parse_stmt` after the keyword or `{`. */
    method KeywordStmt(keyword: Token) returns (r: Result<Stmt>)
      requires Valid() && StartsStmt(keyword)
      modifies this, cursor
      ensures Valid() && Parsed(r, State()) == ParserSpec.KeywordStmt(cursor.tokens, old(State()), keyword)
      decreases |cursor.tokens| - cursor.pos, 6
    {
      match keyword {
        case Let => r := ParseLet();
        case LBrace => r := ParseBlock();
        case If => r := ParseIf();
        case While => r := ParseWhile();
        case Function => r := ParseFn();
        case Return => r := ParseReturn();
      }
    }

    /** `parse_return` */
    method ParseReturn() returns (r: Result<Stmt>)
      requires Valid()
      modifies this, cursor
      ensures Valid() && Parsed(r, State()) == ParserSpec.ParseReturn(cursor.tokens, old(State()))
      decreases |cursor.tokens| - cursor.pos, 1
    {
      if Peek().SemiColon? {
        Advance();
        return Ok(ReturnStmt(None));
      }
      var e := ParseExpr();
      if e.Err? {
        return Err;
      }
      if !Peek().SemiColon? {
        Error("Expected ';' after statement");
        return Err;
      }
      Advance();
      return Ok(ReturnStmt(Some(e.value)));
    }

    /** `parse_fn` */
    method ParseFn() returns (r: Result<Stmt>)
      requires Valid()
      modifies this, cursor
      ensures Valid() && Parsed(r, State()) == ParserSpec.ParseFn(cursor.tokens, old(State()))
      decreases |cursor.tokens| - cursor.pos, 1
    {
      var t := Peek();
      if !t.Ident? {
        Error("Expected identifier after function definition");
        return Err;
      }
      Advance();
      if !Peek().LParen? {
        Error("Expected '(' after identifier");
        return Err;
      }
      Advance();
      var params := ParseExprList("parameters");
      if params.Err? {
        return Err;
      }
      if !Peek().RParen? {
        Error("Expected ')' after parameters");
        return Err;
      }
      Advance();
      r := FnBody(Ident.Ident(t.name), params.value);
    }

    /** The end of `parse_fn`: the `{` check, which does not stop parsing, and the body. */
    method FnBody(name: Ident, params: seq<Expr>) returns (r: Result<Stmt>)
      requires Valid()
      modifies this, cursor
      ensures Valid() && Parsed(r, State()) == ParserSpec.FnBody(cursor.tokens, old(State()), name, params)
      decreases |cursor.tokens| - cursor.pos, 5
    {
      if !Peek().LBrace? {
        Error("Expected '{' after parameters");
      }
      Advance();
      var body := ParseBlock();
      if body.Err? {
        return Err;
      }
      return Ok(FnStmt(name, params, body.value));
    }

    /** `parse_while` */
    method ParseWhile() returns (r: Result<Stmt>)
      requires Valid()
      modifies this, cursor
      ensures Valid() && Parsed(r, State()) == ParserSpec.ParseWhile(cursor.tokens, old(State()))
      decreases |cursor.tokens| - cursor.pos, 1
    {
      var cond := ParseExpr();
      if cond.Err? {
        return Err;
      }
      if !Peek().LBrace? {
        Error("Expect '{' after while condition");
        return Err;
      }
      Advance();
      var body := ParseBlock();
      if body.Err? {
        return Err;
      }
      return Ok(WhileStmt(cond.value, body.value));
    }

    /** `parse_if` */
    method ParseIf() returns (r: Result<Stmt>)
      requires Valid()
      modifies this, cursor
      ensures Valid() && Parsed(r, State()) == ParserSpec.ParseIf(cursor.tokens, old(State()))
      decreases |cursor.tokens| - cursor.pos, 1
    {
      var cond := ParseExpr();
      if cond.Err? {
        return Err;
      }
      if !Peek().LBrace? {
        Error("Expect '{' after if condition");
        return Err;
      }
      Advance();
      var thenBranch := ParseBlock();
      if thenBranch.Err? {
        return Err;
      }
      r := ElsePart(cond.value, thenBranch.value);
    }

    /** The end of `parse_if`: the optional else-branch. */
    method ElsePart(cond: Expr, thenBranch: Stmt) returns (r: Result<Stmt>)
      requires Valid()
      modifies this, cursor
      ensures Valid() && Parsed(r, State()) == ParserSpec.ElsePart(cursor.tokens, old(State()), cond, thenBranch)
      decreases |cursor.tokens| - cursor.pos, 1
    {
      if !Peek().Else? {
        return Ok(IfStmt(cond, thenBranch, None));
      }
      Advance();
      var elseBranch;
      if Peek().If? {
        Advance();
        elseBranch := ParseIf();
      } else {
        elseBranch := ParseBlock();
      }
      if elseBranch.Err? {
        return Err;
      }
      return Ok(IfStmt(cond, thenBranch, Some(elseBranch.value)));
    }

    /** `parse_block` */
    method ParseBlock() returns (r: Result<Stmt>)
      requires Valid()
      modifies this, cursor
      ensures Valid() && Parsed(r, State()) == ParserSpec.ParseBlock(cursor.tokens, old(State()))
      decreases |cursor.tokens| - cursor.pos, 4
    {
      ghost var st0 := State();
      var statements := [];
      while !Peek().RBrace? && !Peek().EOF?
        invariant Valid() && st0.pos <= cursor.pos
        invariant BlockLoop(cursor.tokens, State(), statements) == BlockLoop(cursor.tokens, st0, [])
        decreases |cursor.tokens| - cursor.pos
      {
        var s := ParseStmt();
        if s.Ok? {
          statements := statements + [s.value];
        }
      }
      if Peek().RBrace? {
        Advance();
        return Ok(BlockStmt(statements));
      }
      Error("Expect '}' after block");
      return Err;
    }

    /** `parse_let` */
    method ParseLet() returns (r: Result<Stmt>)
      requires Valid()
      modifies this, cursor
      ensures Valid() && Parsed(r, State()) == ParserSpec.ParseLet(cursor.tokens, old(State()))
      decreases |cursor.tokens| - cursor.pos, 1
    {
      var t := Peek();
      if !t.Ident? {
        Error("Expect identifier after 'let'");
        return Err;
      }
      Advance();
      var next := Peek();
      if next.Assign? {
        Advance();
        var e := ParseExpr();
        if e.Err? {
          return Err;
        }
        if Peek().SemiColon? {
          Advance();
          return Ok(LetStmt(Ident.Ident(t.name), Some(e.value)));
        }
        Error("Expected ';' after statement");
        return Err;
      } else if next.SemiColon? {
        Advance();
        return Ok(LetStmt(Ident.Ident(t.name), None));
      }
      Error("Expected ';' after statement");
      return Err;
    }

    /** `parse_expr_stmt` */
    method ParseExprStmt() returns (r: Result<Stmt>)
      requires Valid()
      modifies this, cursor
      ensures Valid() && Parsed(r, State()) == ParserSpec.ParseExprStmt(cursor.tokens, old(State()))
      decreases |cursor.tokens| - cursor.pos, 1
    {
      var e := ParseExpr();
      if e.Err? {
        return Err;
      }
      if Peek().SemiColon? {
        Advance();
        return Ok(ExprStmt(e.value));
      }
      Error("Expected ';' after expression");
      return Err;
    }

    /** `parse_expr` */
    method ParseExpr() returns (r: Result<Expr>)
      requires Valid()
      modifies this, cursor
      ensures Valid() && Parsed(r, State()) == ParserSpec.ParseExpr(cursor.tokens, old(State()))
      decreases |cursor.tokens| - cursor.pos, 14
    {
      r := ParseAssignment();
    }

    /** `parse_assignment` */
    method ParseAssignment() returns (r: Result<Expr>)
      requires Valid()
      modifies this, cursor
      ensures Valid() && Parsed(r, State()) == ParserSpec.ParseAssignment(cursor.tokens, old(State()))
      decreases |cursor.tokens| - cursor.pos, 13
    {
      var left := ParseBinary(EqualityLevel);
      if left.Err? || !Peek().Assign? {
        return left;
      }
      Advance();
      var right := ParseBinary(EqualityLevel);
      if right.Err? {
        return Err;
      }
      if left.value.IdentExpr? {
        return Ok(AssignmentExpr(left.value.ident, right.value));
      }
      Error("Illegal assignment");
      return Err;
    }

    /** The operand of a binary level: the next tighter level, or `parse_unary` below factors. */
    method ParseOperand(level: Level) returns (r: Result<Expr>)
      requires Valid()
      modifies this, cursor
      ensures Valid() && Parsed(r, State()) == ParserSpec.ParseOperand(cursor.tokens, old(State()), level)
      decreases |cursor.tokens| - cursor.pos, BinaryRank(level) - 1
    {
      if level == FactorLevel {
        r := ParseUnary();
      } else {
        r := ParseBinary(Tighter(level));
      }
    }

    /** parse_equality, parse_comparison, parse_term and parse_factor, by level. */
    method ParseBinary(level: Level) returns (r: Result<Expr>)
      requires Valid()
      modifies this, cursor
      ensures Valid() && Parsed(r, State()) == ParserSpec.ParseBinary(cursor.tokens, old(State()), level)
      decreases |cursor.tokens| - cursor.pos, BinaryRank(level)
    {
      ghost var st0 := State();
      var left := ParseOperand(level);
      if left.Err? {
        return Err;
      }
      var expr := left.value;
      while true
        invariant Valid() && st0.pos <= cursor.pos
        invariant BinaryLoop(cursor.tokens, State(), level, expr) == ParserSpec.ParseBinary(cursor.tokens, st0, level)
        decreases |cursor.tokens| - cursor.pos
      {
        match LevelOp(level, Peek()) {
          case None => return Ok(expr);
          case Some(op) =>
            Advance();
            var right := ParseOperand(level);
            if right.Err? {
              return Err;
            }
            expr := BinExpr(expr, op, right.value);
        }
      }
    }

    /** `parse_unary` */
    method ParseUnary() returns (r: Result<Expr>)
      requires Valid()
      modifies this, cursor
      ensures Valid() && Parsed(r, State()) == ParserSpec.ParseUnary(cursor.tokens, old(State()))
      decreases |cursor.tokens| - cursor.pos, 4
    {
      match PrefixOp(Peek()) {
        case Some(op) =>
          Advance();
          var operand := ParseUnary();
          if operand.Err? {
            return Err;
          }
          return Ok(UnaryExpr(op, operand.value));
        case None =>
          r := ParseCall();
      }
    }

    /** `parse_call` */
    method ParseCall() returns (r: Result<Expr>)
      requires Valid()
      modifies this, cursor
      ensures Valid() && Parsed(r, State()) == ParserSpec.ParseCall(cursor.tokens, old(State()))
      decreases |cursor.tokens| - cursor.pos, 3
    {
      ghost var st0 := State();
      var callee := ParsePrimary();
      if callee.Err? {
        return Err;
      }
      var expr := callee.value;
      while Peek().LParen?
        invariant Valid() && st0.pos <= cursor.pos
        invariant CallLoop(cursor.tokens, State(), expr) == ParserSpec.ParseCall(cursor.tokens, st0)
        decreases |cursor.tokens| - cursor.pos
      {
        Advance();
        var args := ParseExprList("arguments");
        if args.Err? {
          return Err;
        }
        if !Peek().RParen? {
          Error("Expected ')' after arguments");
          return Err;
        }
        Advance();
        expr := CallExpr(expr, args.value);
      }
      return Ok(expr);
    }

    /** The argument or parameter list of parse_call and parse_fn, up to the `)`. */
    method ParseExprList(noun: string) returns (r: Result<seq<Expr>>)
      requires Valid()
      modifies this, cursor
      ensures Valid() && Parsed(r, State()) == ParserSpec.ParseExprList(cursor.tokens, old(State()), noun)
      decreases |cursor.tokens| - cursor.pos, 16
    {
      ghost var st0 := State();
      if Peek().RParen? {
        return Ok([]);
      }
      var first := ParseExpr();
      if first.Err? {
        return Err;
      }
      var items := [first.value];
      while Peek().Comma?
        invariant Valid() && st0.pos <= cursor.pos
        invariant ListRest(cursor.tokens, State(), items, noun) == ParserSpec.ParseExprList(cursor.tokens, st0, noun)
        decreases |cursor.tokens| - cursor.pos
      {
        Advance();
        var next := ParseExpr();
        if next.Err? {
          return Err;
        }
        items := items + [next.value];
        if |items| > 255 {
          Error("Cannot have more than 255 " + noun);
          return Err;
        }
      }
      return Ok(items);
    }

    /** `parse_primary` */
    method ParsePrimary() returns (r: Result<Expr>)
      requires Valid()
      modifies this, cursor
      ensures Valid() && Parsed(r, State()) == ParserSpec.ParsePrimary(cursor.tokens, old(State()))
      decreases |cursor.tokens| - cursor.pos, 1
    {
      var t := Peek();
      if t.Ident? {
        Advance();
        return Ok(IdentExpr(Ident.Ident(t.name)));
      } else if t.BooleanLiteral? {
        Advance();
        return Ok(LiteralExpr(BoolLiteral(t.boolValue)));
      } else if t.IntLiteral? {
        Advance();
        return Ok(LiteralExpr(Literal.IntLiteral(t.intValue)));
      } else if t.StringLiteral? {
        Advance();
        return Ok(LiteralExpr(Literal.StringLiteral(t.str)));
      } else if t.LParen? {
        Advance();
        var inner := ParseExpr();
        if inner.Err? {
          return Err;
        }
        if Peek().RParen? {
          Advance();
          return inner;
        }
        Error("Expected ')' after expression");
        return Err;
      }
      Advance();
      Error("Unexpected Token");
      return Err;
    }
  }

  /** A run of the parser over a token vector, as the tests and the REPL drive it: build a
      parser, call `parse`, read the errors. */
  method ParseTokens(tokens: seq<Token>) returns (program: Program, errors: seq<ParseError>)
    ensures program == ParserSpec.Parse(tokens).0 && errors == ParserSpec.Parse(tokens).1.errors
  {
    var parser := new Parser(tokens);
    program := parser.Parse();
    errors := parser.errors;
  }
}
