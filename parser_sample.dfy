/** The parser test test_parser_1 of lib/parser/mod.rs:475-548, stated as a lemma. The token
    vector is parsed statement by statement: each expression, block and statement is placed at
    the absolute position where it starts and ends, and the pieces are joined by the lemmas of
    `ParserFacts`. */
module ParserSample {
  import opened Basics
  import opened Tokens
  import opened Ast
  import opened ParserSpec
  import opened ParserFacts
  import CompilerSpec
  import CompilerFacts

  /** The token vector of test_parser_1 (lib/parser/mod.rs:477-538), 61 tokens ending in EOF,
      cut into pieces of at most a dozen tokens. */
  const IF_EQUAL: seq<Token> := [
    If, Token.Ident("a"), Token.Equal, Token.IntLiteral(10), LBrace, Return, Token.Ident("a"), SemiColon, RBrace, Else
  ]
  const IF_NOT_EQUAL: seq<Token> := [
    If, Token.Ident("a"), Token.NotEqual, Token.IntLiteral(20), LBrace, Return, Token.Not, Token.Ident("a"), SemiColon, RBrace, Else
  ]
  const IF_GREATER: seq<Token> := [If, Token.Ident("a"), Token.Greater, Token.IntLiteral(20), LBrace]
  const RETURN_PRODUCT: seq<Token> := [
    Return, LParen, Token.Minus, Token.IntLiteral(30), Token.Plus, Token.IntLiteral(40), RParen,
    Token.Multiply, Token.IntLiteral(50), SemiColon, RBrace, Else
  ]
  const IF_LESS: seq<Token> := [
    If, Token.Ident("a"), Token.Less, Token.IntLiteral(30), LBrace, Return, BooleanLiteral(true), SemiColon, RBrace
  ]
  const LET_TOKENS: seq<Token> := [Let, Token.Ident("x"), Assign, Token.StringLiteral("hello world!"), SemiColon]
  const CALL_AND_RETURN: seq<Token> := [
    Token.Ident("print"), LParen, Token.Ident("x"), RParen, SemiColon, Return, BooleanLiteral(false), SemiColon, EOF
  ]
  const TOKENS: seq<Token> := IF_EQUAL + IF_NOT_EQUAL + IF_GREATER + RETURN_PRODUCT + IF_LESS + LET_TOKENS + CALL_AND_RETURN

  /** The state once the first `p` tokens are consumed with no error. */
  function S(p: nat): PState
    requires p <= |TOKENS|
  {
    At(TOKENS, INITIAL, p)
  }

  // The program the test prints: an if / else-if chain of four conditions, a let, a call
  // statement and a return.

  const A: Expr := IdentExpr(Ident.Ident("a"))

  function Int(v: i64): Expr
  {
    LiteralExpr(Literal.IntLiteral(v))
  }

  function Bool(b: bool): Expr
  {
    LiteralExpr(BoolLiteral(b))
  }

  /** `{ return e; }` */
  function Returning(e: Expr): Stmt
  {
    BlockStmt([ReturnStmt(Some(e))])
  }

  /** `(-30 + 40) * 50`: the parentheses leave only the grouping. */
  const PRODUCT: Expr := BinExpr(BinExpr(UnaryExpr(UnaryMinus, Int(30)), BinOp.Plus, Int(40)), BinOp.Multiply, Int(50))

  const IF4: Stmt := IfStmt(BinExpr(A, BinOp.Less, Int(30)), Returning(Bool(true)), None)
  const IF3: Stmt := IfStmt(BinExpr(A, BinOp.Greater, Int(20)), Returning(PRODUCT), Some(IF4))
  const IF2: Stmt := IfStmt(BinExpr(A, BinOp.NotEqual, Int(20)), Returning(UnaryExpr(UnaryOp.Not, A)), Some(IF3))
  const IF1: Stmt := IfStmt(BinExpr(A, BinOp.Equal, Int(10)), Returning(A), Some(IF2))
  const LET: Stmt := LetStmt(Ident.Ident("x"), Some(LiteralExpr(Literal.StringLiteral("hello world!"))))
  const CALL: Stmt := ExprStmt(CallExpr(IdentExpr(Ident.Ident("print")), [IdentExpr(Ident.Ident("x"))]))
  const RETURN: Stmt := ReturnStmt(Some(Bool(false)))

  /** `a op n` followed by a token that ends an expression, for an operator of the equality or
      the comparison level. */
  lemma {:induction false} Comparison(ts: seq<Token>, st: PState, level: Level)
    requires level == EqualityLevel || level == ComparisonLevel
    requires st.pos + 3 < |ts| && IsAtom(ts[st.pos]) && LevelOp(level, ts[st.pos + 1]).Some?
    requires IsAtom(ts[st.pos + 2]) && EndsExpr(ts[st.pos + 3])
    ensures ParseExpr(ts, st)
         == Parsed(Ok(BinExpr(AtomOf(ts[st.pos]), LevelOp(level, ts[st.pos + 1]).value, AtomOf(ts[st.pos + 2]))),
                   At(ts, st, st.pos + 3))
  {
    var p := st.pos;
    var e := BinExpr(AtomOf(ts[p]), LevelOp(level, ts[p + 1]).value, AtomOf(ts[p + 2]));
    assert ChainAt(ts, p + 1, level, p + 3) by {
      assert ChainAt(ts, p + 3, level, p + 3);
    }
    ParseBinaryChain(ts, st, level, p + 3);
    assert FoldAt(ts, p + 1, level, p + 3, AtomOf(ts[p])) == e by {
      assert FoldAt(ts, p + 3, level, p + 3, e) == e;
    }
    if level == ComparisonLevel {
      Loosen(ts, st, EqualityLevel, e, At(ts, st, p + 3));
    }
    WholeExpression(ts, st, e, At(ts, st, p + 3));
  }

  /** `return e; }` right after a `{`: a block of that one return statement. */
  lemma {:induction false} ReturnBlock(ts: seq<Token>, st: PState, e: Expr, q: nat)
    requires st.pos + 1 < q && q + 1 < |ts| && ts[st.pos].Return? && !ts[st.pos + 1].SemiColon?
    requires ParseExpr(ts, At(ts, st, st.pos + 1)) == Parsed(Ok(e), At(ts, st, q))
    requires ts[q].SemiColon? && ts[q + 1].RBrace?
    ensures ParseBlock(ts, st) == Parsed(Ok(Returning(e)), At(ts, st, q + 2))
  {
    var p := st.pos;
    AdvanceAt(ts, st);
    KeywordStep(ts, st);
    ReturnValue(ts, At(ts, st, p + 1), e, At(ts, st, q));
    AdvanceAt(ts, At(ts, st, q));
    AtAt(ts, st, q, q + 1);
    BlockOfOne(ts, st, ReturnStmt(Some(e)), At(ts, st, q + 1));
    AdvanceAt(ts, At(ts, st, q + 1));
    AtAt(ts, st, q + 1, q + 2);
  }

  /** `if c { ... }` with absolute positions: the condition from `p` to the `{` at `pc`, and the
      block up to `q`, where the else part starts. */
  lemma {:induction false} ThenAt(ts: seq<Token>, p: nat, pc: nat, q: nat, c: Expr, b: Stmt)
    requires 0 < p < pc < q <= |ts| && ts[pc].LBrace?
    requires ParseExpr(ts, At(ts, INITIAL, p)) == Parsed(Ok(c), At(ts, INITIAL, pc))
    requires ParseBlock(ts, At(ts, INITIAL, pc + 1)) == Parsed(Ok(b), At(ts, INITIAL, q))
    ensures ParseIf(ts, At(ts, INITIAL, p)) == ElsePart(ts, At(ts, INITIAL, q), c, b)
  {
    AdvanceAt(ts, At(ts, INITIAL, pc));
    IfThen(ts, At(ts, INITIAL, p), c, At(ts, INITIAL, pc), b, At(ts, INITIAL, q));
  }

  /** `else if` at `q`: the if statement from `q + 2` to `r` is the else-branch. */
  lemma {:induction false} ElseIfAt(ts: seq<Token>, q: nat, r: nat, c: Expr, b: Stmt, alt: Stmt)
    requires 0 < q && q + 2 <= r <= |ts| && ts[q].Else? && ts[q + 1].If?
    requires ParseIf(ts, At(ts, INITIAL, q + 2)) == Parsed(Ok(alt), At(ts, INITIAL, r))
    ensures ElsePart(ts, At(ts, INITIAL, q), c, b) == Parsed(Ok(IfStmt(c, b, Some(alt))), At(ts, INITIAL, r))
  {
    AdvanceAt(ts, At(ts, INITIAL, q));
    AdvanceAt(ts, At(ts, INITIAL, q + 1));
    ElseIf(ts, At(ts, INITIAL, q), c, b, alt, At(ts, INITIAL, r));
  }

  /** `a == 10 {`: tokens 1-4. */
  lemma Condition1()
    ensures ParseExpr(TOKENS, S(1)) == Parsed(Ok(BinExpr(A, BinOp.Equal, Int(10))), S(4))
  {
    Comparison(TOKENS, S(1), EqualityLevel);
  }

  /** `return a; }`: tokens 5-8. */
  lemma Block1()
    ensures ParseBlock(TOKENS, S(5)) == Parsed(Ok(Returning(A)), S(9))
  {
    AtomExpression(TOKENS, S(6));
    ReturnBlock(TOKENS, S(5), A, 7);
  }

  /** `a != 20 {`: tokens 11-14. */
  lemma Condition2()
    ensures ParseExpr(TOKENS, S(11)) == Parsed(Ok(BinExpr(A, BinOp.NotEqual, Int(20))), S(14))
  {
    Comparison(TOKENS, S(11), EqualityLevel);
  }

  /** `!a;`: tokens 16-18. */
  lemma Negation()
    ensures ParseExpr(TOKENS, S(16)) == Parsed(Ok(UnaryExpr(UnaryOp.Not, A)), S(18))
  {
    AtomUnary(TOKENS, S(17));
    PrefixUnary(TOKENS, S(16), A, S(18));
    UnaryExpression(TOKENS, S(16), UnaryExpr(UnaryOp.Not, A), S(18));
  }

  /** `return !a; }`: tokens 15-19. */
  lemma Block2()
    ensures ParseBlock(TOKENS, S(15)) == Parsed(Ok(Returning(UnaryExpr(UnaryOp.Not, A))), S(20))
  {
    Negation();
    ReturnBlock(TOKENS, S(15), UnaryExpr(UnaryOp.Not, A), 18);
  }

  /** `-30 +`: tokens 28-29, an operand of the `+`. */
  lemma Negative()
    ensures ParseOperand(TOKENS, S(28), TermLevel) == Parsed(Ok(PRODUCT.left.left), S(30))
  {
    AtomUnary(TOKENS, S(29));
    PrefixUnary(TOKENS, S(28), Int(30), S(30));
    UnaryAtLevel(TOKENS, S(28), FactorLevel, PRODUCT.left.left, S(30));
  }

  /** `-30 + 40)`: tokens 28-31 at the term level. */
  lemma SumTerm()
    ensures ParseBinary(TOKENS, S(28), TermLevel) == Parsed(Ok(PRODUCT.left), S(32))
  {
    var neg := PRODUCT.left.left;
    Negative();
    assert ChainAt(TOKENS, 30, TermLevel, 32) by {
      assert ChainAt(TOKENS, 32, TermLevel, 32);
    }
    LevelFrom(TOKENS, S(28), TermLevel, neg, 30, 32);
    assert FoldAt(TOKENS, 30, TermLevel, 32, neg) == PRODUCT.left by {
      assert FoldAt(TOKENS, 32, TermLevel, 32, PRODUCT.left) == PRODUCT.left;
    }
  }

  /** `(-30 + 40) *`: tokens 27-32, an operand of the `*`. */
  lemma Group()
    ensures ParseOperand(TOKENS, S(27), FactorLevel) == Parsed(Ok(PRODUCT.left), S(33))
  {
    SumTerm();
    LevelExpression(TOKENS, S(28), TermLevel, PRODUCT.left, S(32));
    GroupUnary(TOKENS, S(27), PRODUCT.left, S(32));
  }

  /** `(-30 + 40) * 50;`: tokens 27-34 at the factor level. */
  lemma ProductFactor()
    ensures ParseBinary(TOKENS, S(27), FactorLevel) == Parsed(Ok(PRODUCT), S(35))
  {
    Group();
    assert ChainAt(TOKENS, 33, FactorLevel, 35) by {
      assert ChainAt(TOKENS, 35, FactorLevel, 35);
    }
    LevelFrom(TOKENS, S(27), FactorLevel, PRODUCT.left, 33, 35);
    assert FoldAt(TOKENS, 33, FactorLevel, 35, PRODUCT.left) == PRODUCT by {
      assert FoldAt(TOKENS, 35, FactorLevel, 35, PRODUCT) == PRODUCT;
    }
  }

  /** `a > 20 {`: tokens 22-25. */
  lemma Condition3()
    ensures ParseExpr(TOKENS, S(22)) == Parsed(Ok(BinExpr(A, BinOp.Greater, Int(20))), S(25))
  {
    Comparison(TOKENS, S(22), ComparisonLevel);
  }

  /** `return (-30 + 40) * 50; }`: tokens 26-36. */
  lemma Block3()
    ensures ParseBlock(TOKENS, S(26)) == Parsed(Ok(Returning(PRODUCT)), S(37))
  {
    ProductFactor();
    LevelExpression(TOKENS, S(27), FactorLevel, PRODUCT, S(35));
    ReturnBlock(TOKENS, S(26), PRODUCT, 35);
  }

  /** `a < 30 {`: tokens 39-42. */
  lemma Condition4()
    ensures ParseExpr(TOKENS, S(39)) == Parsed(Ok(BinExpr(A, BinOp.Less, Int(30))), S(42))
  {
    Comparison(TOKENS, S(39), ComparisonLevel);
  }

  /** `return true; }`: tokens 43-46. */
  lemma Block4()
    ensures ParseBlock(TOKENS, S(43)) == Parsed(Ok(Returning(Bool(true))), S(47))
  {
    AtomExpression(TOKENS, S(44));
    ReturnBlock(TOKENS, S(43), Bool(true), 45);
  }

  /** The last if has no `else`, since `let` follows its block. */
  lemma If4()
    ensures ParseIf(TOKENS, S(39)) == Parsed(Ok(IF4), S(47))
  {
    Condition4();
    Block4();
    IfThen(TOKENS, S(39), IF4.cond, S(42), IF4.thenBranch, S(47));
    NoElse(TOKENS, S(47), IF4.cond, IF4.thenBranch);
  }

  /** The delimiters of the if / else-if chain, established apart from any parse. */
  lemma ChainDelimiters()
    ensures |TOKENS| == 61
    ensures TOKENS[4].LBrace? && TOKENS[9].Else? && TOKENS[10].If?
    ensures TOKENS[14].LBrace? && TOKENS[20].Else? && TOKENS[21].If?
    ensures TOKENS[25].LBrace? && TOKENS[37].Else? && TOKENS[38].If?
  {
  }

  /** Each `else if` nests the next if statement as the else-branch. */
  lemma If3()
    ensures ParseIf(TOKENS, S(22)) == Parsed(Ok(IF3), S(47))
  {
    ChainDelimiters();
    If4();
    Condition3();
    Block3();
    ThenAt(TOKENS, 22, 25, 37, IF3.cond, IF3.thenBranch);
    ElseIfAt(TOKENS, 37, 47, IF3.cond, IF3.thenBranch, IF4);
  }

  lemma If2()
    ensures ParseIf(TOKENS, S(11)) == Parsed(Ok(IF2), S(47))
  {
    ChainDelimiters();
    If3();
    Condition2();
    Block2();
    ThenAt(TOKENS, 11, 14, 20, IF2.cond, IF2.thenBranch);
    ElseIfAt(TOKENS, 20, 47, IF2.cond, IF2.thenBranch, IF3);
  }

  lemma If1()
    ensures ParseIf(TOKENS, S(1)) == Parsed(Ok(IF1), S(47))
  {
    ChainDelimiters();
    If2();
    Condition1();
    Block1();
    ThenAt(TOKENS, 1, 4, 9, IF1.cond, IF1.thenBranch);
    ElseIfAt(TOKENS, 9, 47, IF1.cond, IF1.thenBranch, IF2);
  }

  /** The first statement, tokens 0-46. */
  lemma IfChain()
    ensures ParseStmt(TOKENS, INITIAL) == Parsed(Ok(IF1), S(47))
  {
    If1();
    KeywordStep(TOKENS, INITIAL);
  }

  /** `let x = "hello world!";`: tokens 47-51. */
  lemma LetStatement()
    ensures ParseStmt(TOKENS, S(47)) == Parsed(Ok(LET), S(52))
  {
    LetTail();
    KeywordStep(TOKENS, S(47));
  }

  /** `x = "hello world!";` after the `let`: tokens 48-51. */
  lemma LetTail()
    ensures ParseLet(TOKENS, S(48)) == Parsed(Ok(LET), S(52))
  {
    AtomExpression(TOKENS, S(50));
    LetWithValue(TOKENS, S(48), "x", LET.init.value, S(51));
  }

  /** `print(x);`: tokens 52-56. */
  lemma CallStatement()
    ensures ParseStmt(TOKENS, S(52)) == Parsed(Ok(CALL), S(57))
  {
    StmtIsExprStmt(TOKENS, S(52));
    CallOfAtoms(TOKENS, S(52), 55);
    UnaryExpression(TOKENS, S(52), CALL.expr, S(56));
    ExprStmtEnds(TOKENS, S(52), CALL.expr, S(56));
  }

  /** `return false;`: tokens 57-59, and EOF follows. */
  lemma ReturnStatement()
    ensures ParseStmt(TOKENS, S(57)) == Parsed(Ok(RETURN), S(60))
    ensures Peek(TOKENS, S(60)).EOF?
  {
    KeywordStep(TOKENS, S(57));
    AtomExpression(TOKENS, S(58));
    ReturnValue(TOKENS, S(58), Bool(false), S(59));
  }

  /** The statement loop after the first statement. */
  lemma LoopAfterIf()
    ensures ParseLoop(TOKENS, S(47), [IF1]) == ([IF1, LET, CALL, RETURN], S(60))
  {
    LetStatement();
    CallStatement();
    ReturnStatement();
    LoopKeeps(TOKENS, S(47), [IF1], LET, S(52));
    assert [IF1] + [LET] == [IF1, LET];
    LoopKeeps(TOKENS, S(52), [IF1, LET], CALL, S(57));
    assert [IF1, LET] + [CALL] == [IF1, LET, CALL];
    LoopLast(TOKENS, S(57), [IF1, LET, CALL], RETURN, S(60));
    assert [IF1, LET, CALL] + [RETURN] == [IF1, LET, CALL, RETURN];
  }

  /** test_parser_1 (lib/parser/mod.rs:475-548): the token vector parses into the four
      statements above, and no parse error is recorded. */
  lemma TestParser1()
    ensures Parse(TOKENS).0 == [IF1, LET, CALL, RETURN]
    ensures Parse(TOKENS).1.errors == []
  {
    IfChain();
    LoopAfterIf();
    LoopKeeps(TOKENS, INITIAL, [], IF1, S(47));
    assert [] + [IF1] == [IF1];
  }

  /** The compiler rejects the program of test_parser_1: the else-branch of its first statement
      is an if statement, where compile_if admits only a block. */
  lemma TestProgramNotCompiled()
    ensures CompilerSpec.SeqCode([IF1, LET, CALL, RETURN], 0) == CompilerSpec.Fatal(CompilerSpec.NotABlock)
  {
    assert CompilerSpec.ExprCode(IF1.cond).Done?;
    CompilerFacts.ElseIfIsFatal(IF1.cond, IF1.thenBranch, IF2.cond, IF2.thenBranch, IF2.elseBranch, 0);
    CompilerFacts.SeqOne(IF1, 0);
    CompilerFacts.SeqCodeAppend([IF1], [LET, CALL, RETURN], 0);
    assert [IF1] + [LET, CALL, RETURN] == [IF1, LET, CALL, RETURN];
  }
}
