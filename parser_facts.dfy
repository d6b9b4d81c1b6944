/** Properties of the parser: how a lone operand parses at every level, left associativity of
    every binary level, precedence, the assignment rules, the 255-element limit on argument and
    parameter lists, error recovery, and the else-branch behaviour of parse_if. */
module ParserFacts {
  import opened Basics
  import opened Tokens
  import opened Ast
  import opened ParserSpec

  /** The token at a position, or `EOF` past the end (what `peek` shows there). */
  function Look(ts: seq<Token>, p: nat): Token
  {
    if p < |ts| then ts[p] else EOF
  }

  /** The state after the tokens from `st.pos` up to position `p` are consumed with no error. */
  function At(ts: seq<Token>, st: PState, p: nat): (r: PState)
    requires st.pos <= p <= |ts|
    ensures Valid(ts, r) && r.pos == p && r.errors == st.errors
  {
    if p == st.pos then st else PState(p, ts[p - 1], st.errors)
  }

  /** Consuming up to `p` and then up to `q` is consuming up to `q`. */
  lemma {:induction false} AtAt(ts: seq<Token>, st: PState, p: nat, q: nat)
    requires st.pos < p <= q <= |ts|
    ensures At(ts, At(ts, st, p), q) == At(ts, st, q)
  {
  }

  /** Consuming one token is consuming up to the next position. */
  lemma {:induction false} AdvanceAt(ts: seq<Token>, st: PState)
    requires st.pos < |ts|
    ensures Advance(ts, st) == At(ts, st, st.pos + 1)
  {
  }

  /** Tokens that parse_primary turns into an expression on their own. */
  predicate IsAtom(t: Token)
  {
    t.Ident? || t.IntLiteral? || t.BooleanLiteral? || t.StringLiteral?
  }

  /** The expression parse_primary makes of an atom. */
  function AtomOf(t: Token): Expr
    requires IsAtom(t)
  {
    match t
    case Ident(name) => IdentExpr(Ident.Ident(name))
    case IntLiteral(v) => LiteralExpr(Literal.IntLiteral(v))
    case BooleanLiteral(b) => LiteralExpr(BoolLiteral(b))
    case StringLiteral(s) => LiteralExpr(Literal.StringLiteral(s))
  }

  /** A token closes an operand of `level`: it is no operator of that level or of any tighter
      one, and it does not open an argument list. */
  predicate Closes(level: Level, t: Token)
    decreases 3 - Depth(level)
  {
    LevelOp(level, t).None? && (if level == FactorLevel then !t.LParen? else Closes(Tighter(level), t))
  }

  /** A token that ends the operand of a level's operator. */
  predicate EndsOperand(level: Level, t: Token)
  {
    if level == FactorLevel then !t.LParen? else Closes(Tighter(level), t)
  }

  function Depth(level: Level): nat
  {
    match level
    case EqualityLevel => 0
    case ComparisonLevel => 1
    case TermLevel => 2
    case FactorLevel => 3
  }

  /** A token that ends a whole expression. */
  predicate EndsExpr(t: Token)
  {
    Closes(EqualityLevel, t) && !t.Assign?
  }

  /** An operator of one level never closes an operand of that level and always ends the
      operands of its own operators: the four levels use disjoint tokens, none of them `(`. */
  lemma {:induction false} OperatorEndsOperand(level: Level, t: Token)
    requires LevelOp(level, t).Some?
    ensures EndsOperand(level, t) && !Closes(level, t)
  {
  }

  /** What closes a level also ends its operands. */
  lemma {:induction false} ClosesEndsOperand(level: Level, t: Token)
    requires Closes(level, t)
    ensures EndsOperand(level, t)
  {
  }

  /** parse_primary on an atom. */
  lemma {:induction false} PrimaryAtom(ts: seq<Token>, st: PState)
    requires Valid(ts, st) && st.pos < |ts| && IsAtom(ts[st.pos])
    ensures ParsePrimary(ts, st) == Parsed(Ok(AtomOf(ts[st.pos])), Advance(ts, st))
  {
  }

  /** The call loop ends at anything but `(`. */
  lemma {:induction false} CallLoopEnds(ts: seq<Token>, st: PState, e: Expr)
    requires Valid(ts, st) && !Peek(ts, st).LParen?
    ensures CallLoop(ts, st, e) == Parsed(Ok(e), st)
  {
  }

  /** A binary loop ends at anything but an operator of its level. */
  lemma {:induction false} BinaryLoopEnds(ts: seq<Token>, st: PState, level: Level, e: Expr)
    requires Valid(ts, st) && LevelOp(level, Peek(ts, st)).None?
    ensures BinaryLoop(ts, st, level, e) == Parsed(Ok(e), st)
  {
  }

  /** An atom not followed by `(` is a whole unary expression. */
  lemma {:induction false} AtomUnary(ts: seq<Token>, st: PState)
    requires Valid(ts, st) && st.pos < |ts| && IsAtom(ts[st.pos]) && !Look(ts, st.pos + 1).LParen?
    ensures ParseUnary(ts, st) == Parsed(Ok(AtomOf(ts[st.pos])), Advance(ts, st))
  {
    var st1 := Advance(ts, st);
    var e := AtomOf(ts[st.pos]);
    PrimaryAtom(ts, st);
    CallLoopEnds(ts, st1, e);
    assert ParseCall(ts, st) == Parsed(Ok(e), st1);
    assert PrefixOp(ts[st.pos]).None?;
  }

  /** An atom followed by a token that closes a level parses as that atom at that level. */
  lemma {:induction false} AtomBinary(ts: seq<Token>, st: PState, level: Level)
    requires Valid(ts, st) && st.pos < |ts| && IsAtom(ts[st.pos]) && Closes(level, Look(ts, st.pos + 1))
    ensures ParseBinary(ts, st, level) == Parsed(Ok(AtomOf(ts[st.pos])), Advance(ts, st))
    decreases 3 - Depth(level)
  {
    AtomOperand(ts, st, level);
    BinaryLoopEnds(ts, Advance(ts, st), level, AtomOf(ts[st.pos]));
  }

  /** An atom followed by a token that ends the operand of a level is that operand. */
  lemma {:induction false} AtomOperand(ts: seq<Token>, st: PState, level: Level)
    requires Valid(ts, st) && st.pos < |ts| && IsAtom(ts[st.pos]) && EndsOperand(level, Look(ts, st.pos + 1))
    ensures ParseOperand(ts, st, level) == Parsed(Ok(AtomOf(ts[st.pos])), Advance(ts, st))
    decreases 3 - Depth(level), 0
  {
    if level == FactorLevel {
      AtomUnary(ts, st);
    } else {
      AtomBinary(ts, st, Tighter(level));
    }
  }

  /** An atom followed by a token that ends an expression is a whole expression. */
  lemma {:induction false} AtomExpression(ts: seq<Token>, st: PState)
    requires Valid(ts, st) && st.pos < |ts| && IsAtom(ts[st.pos]) && EndsExpr(Look(ts, st.pos + 1))
    ensures ParseExpr(ts, st) == Parsed(Ok(AtomOf(ts[st.pos])), Advance(ts, st))
  {
    AtomBinary(ts, st, EqualityLevel);
    assert Peek(ts, Advance(ts, st)) == Look(ts, st.pos + 1);
  }

  /** The tokens from `p` up to `end` are pairs of an operator of `level` and an atom. */
  predicate ChainAt(ts: seq<Token>, p: nat, level: Level, end: nat)
    requires p <= end <= |ts|
    decreases end - p
  {
    p == end || (p + 2 <= end && LevelOp(level, ts[p]).Some? && IsAtom(ts[p + 1]) && ChainAt(ts, p + 2, level, end))
  }

  /** The left-nested tree a chain builds on `acc`: over `- b - c` from `a` it is `(a - b) - c`. */
  function FoldAt(ts: seq<Token>, p: nat, level: Level, end: nat, acc: Expr): Expr
    requires p <= end <= |ts| && ChainAt(ts, p, level, end)
    decreases end - p
  {
    if p == end then acc
    else FoldAt(ts, p + 2, level, end, BinExpr(acc, LevelOp(level, ts[p]).value, AtomOf(ts[p + 1])))
  }

  /** One turn of a binary loop over an operator and an atom. */
  lemma {:induction false} BinaryStep(ts: seq<Token>, st: PState, level: Level, acc: Expr)
    requires Valid(ts, st) && st.pos + 1 < |ts| && LevelOp(level, ts[st.pos]).Some? && IsAtom(ts[st.pos + 1])
    requires EndsOperand(level, Look(ts, st.pos + 2))
    ensures BinaryLoop(ts, st, level, acc)
         == BinaryLoop(ts, At(ts, st, st.pos + 2), level, BinExpr(acc, LevelOp(level, ts[st.pos]).value, AtomOf(ts[st.pos + 1])))
  {
    AtomOperand(ts, Advance(ts, st), level);
  }

  /** Left associativity: a binary loop over a chain of operators of its level and atoms,
      followed by a token that closes the level, builds the left-nested tree of the chain and
      consumes exactly the chain. */
  lemma {:induction false} BinaryChain(ts: seq<Token>, st: PState, level: Level, acc: Expr, end: nat)
    requires st.pos <= end <= |ts| && ChainAt(ts, st.pos, level, end) && Closes(level, Look(ts, end))
    ensures BinaryLoop(ts, st, level, acc) == Parsed(Ok(FoldAt(ts, st.pos, level, end, acc)), At(ts, st, end))
    decreases end - st.pos
  {
    if st.pos == end {
      BinaryLoopEnds(ts, st, level, acc);
    } else {
      ChainStartEndsOperand(ts, st.pos + 2, level, end);
      BinaryStep(ts, st, level, acc);
      var st2 := At(ts, st, st.pos + 2);
      AtAt(ts, st, st.pos + 2, end);
      BinaryChain(ts, st2, level, BinExpr(acc, LevelOp(level, ts[st.pos]).value, AtomOf(ts[st.pos + 1])), end);
    }
  }

  /** A level that starts with an atom continues with its loop after the atom. */
  lemma {:induction false} AtomThenLoop(ts: seq<Token>, st: PState, level: Level)
    requires Valid(ts, st) && st.pos < |ts| && IsAtom(ts[st.pos]) && EndsOperand(level, Look(ts, st.pos + 1))
    ensures ParseBinary(ts, st, level) == BinaryLoop(ts, At(ts, st, st.pos + 1), level, AtomOf(ts[st.pos]))
  {
    AtomOperand(ts, st, level);
    AdvanceAt(ts, st);
  }

  /** The first token of a chain, or the token after an empty one, ends an operand. */
  lemma {:induction false} ChainStartEndsOperand(ts: seq<Token>, p: nat, level: Level, end: nat)
    requires p <= end <= |ts| && ChainAt(ts, p, level, end) && Closes(level, Look(ts, end))
    ensures EndsOperand(level, Look(ts, p))
  {
    if p < end {
      OperatorEndsOperand(level, Look(ts, p));
    } else {
      ClosesEndsOperand(level, Look(ts, p));
    }
  }

  /** A whole level over `a0 op1 a1 ... opn an`: the fold of the chain from `a0`. */
  lemma {:induction false} ParseBinaryChain(ts: seq<Token>, st: PState, level: Level, end: nat)
    requires st.pos < end <= |ts| && IsAtom(ts[st.pos])
    requires ChainAt(ts, st.pos + 1, level, end) && Closes(level, Look(ts, end))
    ensures ParseBinary(ts, st, level)
         == Parsed(Ok(FoldAt(ts, st.pos + 1, level, end, AtomOf(ts[st.pos]))), At(ts, st, end))
  {
    var st1 := At(ts, st, st.pos + 1);
    var r := Parsed(Ok(FoldAt(ts, st.pos + 1, level, end, AtomOf(ts[st.pos]))), At(ts, st, end));
    assert BinaryLoop(ts, st1, level, AtomOf(ts[st.pos])) == r by {
      BinaryChain(ts, st1, level, AtomOf(ts[st.pos]), end);
      AtAt(ts, st, st.pos + 1, end);
    }
    ChainStartEndsOperand(ts, st.pos + 1, level, end);
    AtomThenLoop(ts, st, level);
  }

  /** A complete expression at a level is also one at the next looser level when the token
      after it is no operator of that level. */
  lemma {:induction false} Loosen(ts: seq<Token>, st: PState, level: Level, e: Expr, st2: PState)
    requires Valid(ts, st) && level != FactorLevel
    requires ParseBinary(ts, st, Tighter(level)) == Parsed(Ok(e), st2)
    requires LevelOp(level, Peek(ts, st2)).None?
    ensures ParseBinary(ts, st, level) == Parsed(Ok(e), st2)
  {
  }

  /** A complete equality-level expression not followed by `=` is a whole expression. */
  lemma {:induction false} WholeExpression(ts: seq<Token>, st: PState, e: Expr, st2: PState)
    requires Valid(ts, st) && ParseBinary(ts, st, EqualityLevel) == Parsed(Ok(e), st2)
    requires !Peek(ts, st2).Assign?
    ensures ParseExpr(ts, st) == Parsed(Ok(e), st2)
  {
  }

  /** parse_stmt hands anything but a statement keyword or `{` to parse_expr_stmt. */
  lemma {:induction false} StmtIsExprStmt(ts: seq<Token>, st: PState)
    requires Valid(ts, st) && !StartsStmt(Peek(ts, st))
    ensures ParseStmt(ts, st) == ParseExprStmt(ts, st)
  {
  }

  /** An expression followed by `;` is an expression statement. */
  lemma {:induction false} ExprStmtEnds(ts: seq<Token>, st: PState, e: Expr, st2: PState)
    requires Valid(ts, st) && ParseExpr(ts, st) == Parsed(Ok(e), st2) && Peek(ts, st2).SemiColon?
    ensures ParseExprStmt(ts, st) == Parsed(Ok(ExprStmt(e)), Advance(ts, st2))
  {
  }

  /** The parse loop stops at the end of the input. */
  lemma {:induction false} LoopEnds(ts: seq<Token>, st: PState, stmts: seq<Stmt>)
    requires Valid(ts, st) && Peek(ts, st).EOF?
    ensures ParseLoop(ts, st, stmts) == (stmts, st)
  {
  }

  /** A statement that parses is appended to the program. */
  lemma {:induction false} LoopKeeps(ts: seq<Token>, st: PState, stmts: seq<Stmt>, s: Stmt, st2: PState)
    requires Valid(ts, st) && !Peek(ts, st).EOF? && ParseStmt(ts, st) == Parsed(Ok(s), st2)
    ensures ParseLoop(ts, st, stmts) == ParseLoop(ts, st2, stmts + [s])
  {
  }

  /** A statement that fails is dropped and the parser synchronises. */
  lemma {:induction false} LoopRecovers(ts: seq<Token>, st: PState, stmts: seq<Stmt>, st2: PState)
    requires Valid(ts, st) && !Peek(ts, st).EOF? && ParseStmt(ts, st) == Parsed(Err, st2)
    ensures ParseLoop(ts, st, stmts) == ParseLoop(ts, Synchronize(ts, st2), stmts)
  {
  }

  /** A failed statement whose recovery ends at `st3`. */
  lemma {:induction false} LoopRecoversTo(ts: seq<Token>, st: PState, stmts: seq<Stmt>, st2: PState, st3: PState)
    requires Valid(ts, st) && !Peek(ts, st).EOF? && ParseStmt(ts, st) == Parsed(Err, st2) && Synchronize(ts, st2) == st3
    ensures ParseLoop(ts, st, stmts) == ParseLoop(ts, st3, stmts)
  {
    LoopRecovers(ts, st, stmts, st2);
  }

  /** A last statement that parses ends the program. */
  lemma {:induction false} LoopLast(ts: seq<Token>, st: PState, stmts: seq<Stmt>, s: Stmt, st2: PState)
    requires Valid(ts, st) && !Peek(ts, st).EOF? && ParseStmt(ts, st) == Parsed(Ok(s), st2) && Peek(ts, st2).EOF?
    ensures ParseLoop(ts, st, stmts) == (stmts + [s], st2)
  {
    LoopKeeps(ts, st, stmts, s, st2);
    LoopEnds(ts, st2, stmts + [s]);
  }

  /** An expression that ends one token before the end of the input, where a `;` stands, is a
      program of one expression statement. */
  lemma {:induction false} OneExprStmt(ts: seq<Token>, e: Expr, p: nat)
    requires 0 < p < |ts| && !ts[0].EOF? && !StartsStmt(ts[0]) && ParseExpr(ts, INITIAL) == Parsed(Ok(e), At(ts, INITIAL, p))
    requires p + 1 == |ts| && ts[p].SemiColon?
    ensures Parse(ts) == ([ExprStmt(e)], At(ts, INITIAL, |ts|))
  {
    var st2 := At(ts, INITIAL, p);
    StmtIsExprStmt(ts, INITIAL);
    ExprStmtEnds(ts, INITIAL, e, st2);
    AdvanceAt(ts, st2);
    AtAt(ts, INITIAL, p, p + 1);
    LoopKeeps(ts, INITIAL, [], ExprStmt(e), At(ts, INITIAL, p + 1));
    LoopEnds(ts, At(ts, INITIAL, p + 1), [ExprStmt(e)]);
  }

  /** `a - b - c;` */
  function MinusChain(a: string, b: string, c: string): seq<Token>
  {
    [Token.Ident(a), Token.Minus, Token.Ident(b), Token.Minus, Token.Ident(c), SemiColon]
  }

  /** Subtraction groups to the left: `a - b - c` is `(a - b) - c`. */
  lemma {:induction false} MinusIsLeftAssociative(a: string, b: string, c: string)
    ensures Parse(MinusChain(a, b, c)).0
         == [ExprStmt(BinExpr(BinExpr(IdentExpr(Ident.Ident(a)), BinOp.Minus, IdentExpr(Ident.Ident(b))),
                              BinOp.Minus, IdentExpr(Ident.Ident(c))))]
    ensures Parse(MinusChain(a, b, c)).1.errors == []
  {
    var ts := MinusChain(a, b, c);
    assert ChainAt(ts, 5, TermLevel, 5);
    assert ChainAt(ts, 3, TermLevel, 5);
    assert ChainAt(ts, 1, TermLevel, 5);
    ParseBinaryChain(ts, INITIAL, TermLevel, 5);
    var e := FoldAt(ts, 1, TermLevel, 5, AtomOf(ts[0]));
    var st5 := At(ts, INITIAL, 5);
    Loosen(ts, INITIAL, ComparisonLevel, e, st5);
    Loosen(ts, INITIAL, EqualityLevel, e, st5);
    WholeExpression(ts, INITIAL, e, st5);
    OneExprStmt(ts, e, 5);
    assert e == FoldAt(ts, 3, TermLevel, 5, BinExpr(IdentExpr(Ident.Ident(a)), BinOp.Minus, IdentExpr(Ident.Ident(b))));
  }

  /** `i + j * k;` */
  function SumOfProduct(i: i64, j: i64, k: i64): seq<Token>
  {
    [Token.IntLiteral(i), Token.Plus, Token.IntLiteral(j), Token.Multiply, Token.IntLiteral(k), SemiColon]
  }

  /** `j * k` is the right operand of `+` in `i + j * k;`. */
  lemma {:induction false} ProductIsOperand(i: i64, j: i64, k: i64)
    ensures var ts := SumOfProduct(i, j, k);
      ParseOperand(ts, At(ts, INITIAL, 2), TermLevel)
        == Parsed(Ok(BinExpr(LiteralExpr(Literal.IntLiteral(j)), BinOp.Multiply, LiteralExpr(Literal.IntLiteral(k)))), At(ts, INITIAL, 5))
  {
    var ts := SumOfProduct(i, j, k);
    assert ChainAt(ts, 5, FactorLevel, 5);
    assert ChainAt(ts, 3, FactorLevel, 5);
    ParseBinaryChain(ts, At(ts, INITIAL, 2), FactorLevel, 5);
    AtAt(ts, INITIAL, 2, 5);
  }

  /** `i + j * k` at the term level. */
  lemma {:induction false} SumOfProductTerm(i: i64, j: i64, k: i64)
    ensures var ts := SumOfProduct(i, j, k);
      ParseBinary(ts, INITIAL, TermLevel)
        == Parsed(Ok(BinExpr(LiteralExpr(Literal.IntLiteral(i)), BinOp.Plus,
                             BinExpr(LiteralExpr(Literal.IntLiteral(j)), BinOp.Multiply, LiteralExpr(Literal.IntLiteral(k))))),
                  At(ts, INITIAL, 5))
  {
    var ts := SumOfProduct(i, j, k);
    var product := BinExpr(LiteralExpr(Literal.IntLiteral(j)), BinOp.Multiply, LiteralExpr(Literal.IntLiteral(k)));
    var e := BinExpr(LiteralExpr(Literal.IntLiteral(i)), BinOp.Plus, product);
    var st1 := At(ts, INITIAL, 1);
    var st5 := At(ts, INITIAL, 5);
    ProductIsOperand(i, j, k);
    AtomOperand(ts, INITIAL, TermLevel);
    AdvanceAt(ts, INITIAL);
    AtAt(ts, INITIAL, 1, 2);
    AdvanceAt(ts, st1);
    BinaryLoopEnds(ts, st5, TermLevel, e);
    assert BinaryLoop(ts, st1, TermLevel, LiteralExpr(Literal.IntLiteral(i))) == Parsed(Ok(e), st5);
  }

  /** Multiplication binds tighter than addition: `i + j * k` is `i + (j * k)`. */
  lemma {:induction false} ProductBindsTighter(i: i64, j: i64, k: i64)
    ensures Parse(SumOfProduct(i, j, k)).0
         == [ExprStmt(BinExpr(LiteralExpr(Literal.IntLiteral(i)), BinOp.Plus,
                              BinExpr(LiteralExpr(Literal.IntLiteral(j)), BinOp.Multiply, LiteralExpr(Literal.IntLiteral(k)))))]
    ensures Parse(SumOfProduct(i, j, k)).1.errors == []
  {
    var ts := SumOfProduct(i, j, k);
    var e := BinExpr(LiteralExpr(Literal.IntLiteral(i)), BinOp.Plus,
                     BinExpr(LiteralExpr(Literal.IntLiteral(j)), BinOp.Multiply, LiteralExpr(Literal.IntLiteral(k))));
    var st5 := At(ts, INITIAL, 5);
    SumOfProductTerm(i, j, k);
    Loosen(ts, INITIAL, ComparisonLevel, e, st5);
    Loosen(ts, INITIAL, EqualityLevel, e, st5);
    WholeExpression(ts, INITIAL, e, st5);
    OneExprStmt(ts, e, 5);
  }

  /** An expression statement without its `;` reports "Expected ';' after expression" at the
      token after the expression. */
  lemma {:induction false} ExprStmtUnterminated(ts: seq<Token>, st: PState, e: Expr, st2: PState)
    requires Valid(ts, st) && ParseExpr(ts, st) == Parsed(Ok(e), st2) && !Peek(ts, st2).SemiColon?
    ensures ParseExprStmt(ts, st) == Parsed(Err, Error(st2, "Expected ';' after expression"))
  {
  }

  /** An expression statement whose expression fails fails with the same state. */
  lemma {:induction false} ExprStmtFails(ts: seq<Token>, st: PState, st2: PState)
    requires Valid(ts, st) && ParseExpr(ts, st) == Parsed(Err, st2)
    ensures ParseExprStmt(ts, st) == Parsed(Err, st2)
  {
  }

  /** The assignment rule of parse_assignment: an equality-level expression, `=`, and a second
      equality-level expression make an assignment when the first is an identifier, and an
      "Illegal assignment" error, reported after the right-hand side, otherwise. */
  lemma {:induction false} AssignmentRule(ts: seq<Token>, st: PState, left: Expr, st1: PState, right: Expr, st2: PState)
    requires Valid(ts, st) && ParseBinary(ts, st, EqualityLevel) == Parsed(Ok(left), st1)
    requires Peek(ts, st1).Assign? && ParseBinary(ts, Advance(ts, st1), EqualityLevel) == Parsed(Ok(right), st2)
    ensures left.IdentExpr? ==> ParseExpr(ts, st) == Parsed(Ok(AssignmentExpr(left.ident, right)), st2)
    ensures !left.IdentExpr? ==> ParseExpr(ts, st) == Parsed(Err, Error(st2, "Illegal assignment"))
  {
  }

  /** synchronize consumes a `;` and stops. */
  lemma {:induction false} SyncAtSemiColon(ts: seq<Token>, st: PState)
    requires Valid(ts, st) && Peek(ts, st).SemiColon?
    ensures Synchronize(ts, st) == Advance(ts, st)
  {
  }

  /** synchronize skips any other token that is no statement keyword. */
  lemma {:induction false} SyncSkips(ts: seq<Token>, st: PState)
    requires Valid(ts, st) && !IsSyncStop(Peek(ts, st)) && !Peek(ts, st).SemiColon?
    ensures Synchronize(ts, st) == Synchronize(ts, Advance(ts, st))
  {
  }

  /** `left = right;` */
  function Assignment(left: Token, right: Token): seq<Token>
  {
    [left, Assign, right, SemiColon]
  }

  /** The two operands of `left = right;` at the start of the input. */
  lemma {:induction false} AssignmentShape(ts: seq<Token>, left: Token, right: Token)
    requires Assignment(left, right) <= ts && IsAtom(left) && IsAtom(right)
    ensures ParseBinary(ts, INITIAL, EqualityLevel) == Parsed(Ok(AtomOf(left)), At(ts, INITIAL, 1))
    ensures Peek(ts, At(ts, INITIAL, 1)).Assign? && Advance(ts, At(ts, INITIAL, 1)) == At(ts, INITIAL, 2)
    ensures ParseBinary(ts, At(ts, INITIAL, 2), EqualityLevel) == Parsed(Ok(AtomOf(right)), At(ts, INITIAL, 3))
  {
    assert ts[0] == left && ts[1].Assign? && ts[2] == right && ts[3].SemiColon?;
    AtomBinary(ts, INITIAL, EqualityLevel);
    AdvanceAt(ts, INITIAL);
    AdvanceAt(ts, At(ts, INITIAL, 1));
    AtAt(ts, INITIAL, 1, 2);
    AtomBinary(ts, At(ts, INITIAL, 2), EqualityLevel);
    AdvanceAt(ts, At(ts, INITIAL, 2));
    AtAt(ts, INITIAL, 2, 3);
  }

  /** An identifier can be assigned to. */
  lemma {:induction false} AssignToIdentifier(x: string, right: Token)
    requires IsAtom(right)
    ensures Parse(Assignment(Token.Ident(x), right)).0 == [ExprStmt(AssignmentExpr(Ident.Ident(x), AtomOf(right)))]
    ensures Parse(Assignment(Token.Ident(x), right)).1.errors == []
  {
    var ts := Assignment(Token.Ident(x), right);
    AssignmentShape(ts, Token.Ident(x), right);
    AssignmentRule(ts, INITIAL, AtomOf(Token.Ident(x)), At(ts, INITIAL, 1), AtomOf(right), At(ts, INITIAL, 3));
    OneExprStmt(ts, AssignmentExpr(Ident.Ident(x), AtomOf(right)), 3);
  }

  /** A statement `left = right;` with anything but an identifier on the left is an "Illegal
      assignment", reported at the last token of the right-hand side; recovery then resumes
      right after the `;`. */
  lemma {:induction false} IllegalAssignmentRecovers(ts: seq<Token>, left: Token, right: Token, stmts: seq<Stmt>)
    requires Assignment(left, right) <= ts && IsAtom(left) && !left.Ident? && IsAtom(right)
    ensures ParseLoop(ts, INITIAL, stmts) == ParseLoop(ts, PState(4, SemiColon, [ParseError(right, "Illegal assignment")]), stmts)
  {
    assert ts[0] == left && ts[2] == right && ts[3].SemiColon?;
    AssignmentShape(ts, left, right);
    var st3 := At(ts, INITIAL, 3);
    AssignmentRule(ts, INITIAL, AtomOf(left), At(ts, INITIAL, 1), AtomOf(right), st3);
    var failed := Error(st3, "Illegal assignment");
    assert failed == PState(3, right, [ParseError(right, "Illegal assignment")]);
    StmtIsExprStmt(ts, INITIAL);
    ExprStmtFails(ts, INITIAL, failed);
    LoopRecovers(ts, INITIAL, stmts, failed);
    SyncAtSemiColon(ts, failed);
  }

  /** On its own, the illegal assignment leaves an empty program and one error. */
  lemma {:induction false} AssignToLiteralIsIllegal(left: Token, right: Token)
    requires IsAtom(left) && !left.Ident? && IsAtom(right)
    ensures Parse(Assignment(left, right)).0 == []
    ensures Parse(Assignment(left, right)).1.errors == [ParseError(right, "Illegal assignment")]
  {
    var ts := Assignment(left, right);
    IllegalAssignmentRecovers(ts, left, right, []);
    LoopEnds(ts, PState(4, SemiColon, [ParseError(right, "Illegal assignment")]), []);
  }

  /** `let x;` declares `x` with no value. */
  lemma {:induction false} LetWithoutValue(ts: seq<Token>, st: PState, x: string)
    requires st.pos + 3 <= |ts| && ts[st.pos].Let? && ts[st.pos + 1] == Token.Ident(x) && ts[st.pos + 2].SemiColon?
    ensures ParseStmt(ts, st) == Parsed(Ok(LetStmt(Ident.Ident(x), None)), PState(st.pos + 3, SemiColon, st.errors))
  {
    assert ParseLet(ts, Advance(ts, st)) == Parsed(Ok(LetStmt(Ident.Ident(x), None)), PState(st.pos + 3, SemiColon, st.errors));
  }

  /** `left = right; let x;` */
  function Recovery(left: Token, right: Token, x: string): seq<Token>
  {
    Assignment(left, right) + [Let, Token.Ident(x), SemiColon]
  }

  /** After a failed statement the parser resumes at the next one: the `let` after the illegal
      assignment is parsed and kept. */
  lemma {:induction false} RecoveryAfterError(left: Token, right: Token, x: string)
    requires IsAtom(left) && !left.Ident? && IsAtom(right)
    ensures Parse(Recovery(left, right, x)).0 == [LetStmt(Ident.Ident(x), None)]
    ensures Parse(Recovery(left, right, x)).1.errors == [ParseError(right, "Illegal assignment")]
  {
    var ts := Recovery(left, right, x);
    var errors := [ParseError(right, "Illegal assignment")];
    IllegalAssignmentRecovers(ts, left, right, []);
    var st4 := PState(4, SemiColon, errors);
    var st7 := PState(7, SemiColon, errors);
    assert ts[4].Let? && ts[5] == Token.Ident(x) && ts[6].SemiColon?;
    LetWithoutValue(ts, st4, x);
    LoopLast(ts, st4, [], LetStmt(Ident.Ident(x), None), st7);
  }

  /** `a = b = c;` */
  function ChainedAssignment(a: string, b: string, c: string): seq<Token>
  {
    [Token.Ident(a), Assign, Token.Ident(b), Assign, Token.Ident(c), SemiColon]
  }

  /** The right-hand side of `=` is parsed at the equality level, so assignments do not chain:
      `a = b` is a complete expression and the second `=` is reported where a `;` is expected. */
  lemma {:induction false} AssignmentsDoNotChain(a: string, b: string, c: string)
    ensures Parse(ChainedAssignment(a, b, c)).0 == []
    ensures Parse(ChainedAssignment(a, b, c)).1.errors == [ParseError(Token.Ident(b), "Expected ';' after expression")]
  {
    var ts := ChainedAssignment(a, b, c);
    var errors := [ParseError(Token.Ident(b), "Expected ';' after expression")];
    ChainedAssignmentStmt(a, b, c);
    ChainedAssignmentSync(a, b, c, errors);
    LoopRecoversTo(ts, INITIAL, [], PState(3, Token.Ident(b), errors), PState(6, SemiColon, errors));
    LoopEnds(ts, PState(6, SemiColon, errors), []);
  }

  /** Recovery after `a = b` skips `= c;`. */
  lemma {:induction false} ChainedAssignmentSync(a: string, b: string, c: string, errors: seq<ParseError>)
    ensures Synchronize(ChainedAssignment(a, b, c), PState(3, Token.Ident(b), errors)) == PState(6, SemiColon, errors)
  {
    var ts := ChainedAssignment(a, b, c);
    var st3 := PState(3, Token.Ident(b), errors);
    SyncSkips(ts, st3);
    SyncSkips(ts, Advance(ts, st3));
    SyncAtSemiColon(ts, Advance(ts, Advance(ts, st3)));
  }

  /** The statement `a = b = c;` fails at the second `=`. */
  lemma {:induction false} ChainedAssignmentStmt(a: string, b: string, c: string)
    ensures ParseStmt(ChainedAssignment(a, b, c), INITIAL)
         == Parsed(Err, PState(3, Token.Ident(b), [ParseError(Token.Ident(b), "Expected ';' after expression")]))
  {
    var ts := ChainedAssignment(a, b, c);
    AtomBinary(ts, INITIAL, EqualityLevel);
    AdvanceAt(ts, INITIAL);
    var st1 := At(ts, INITIAL, 1);
    AdvanceAt(ts, st1);
    AtAt(ts, INITIAL, 1, 2);
    var st2 := At(ts, INITIAL, 2);
    AtomBinary(ts, st2, EqualityLevel);
    AdvanceAt(ts, st2);
    AtAt(ts, INITIAL, 2, 3);
    var st3 := At(ts, INITIAL, 3);
    AssignmentRule(ts, INITIAL, AtomOf(ts[0]), st1, AtomOf(ts[2]), st3);
    StmtIsExprStmt(ts, INITIAL);
    ExprStmtUnterminated(ts, INITIAL, AssignmentExpr(Ident.Ident(a), IdentExpr(Ident.Ident(b))), st3);
  }

  /** Every pair from `p` up to `end` is a comma and an atom. */
  predicate CommaChain(ts: seq<Token>, p: nat, end: nat)
    requires p <= end <= |ts|
    decreases end - p
  {
    p == end || (p + 2 <= end && ts[p].Comma? && IsAtom(ts[p + 1]) && CommaChain(ts, p + 2, end))
  }

  /** The list `acc` with the atoms of a comma chain appended in order. */
  function AtomsOnto(ts: seq<Token>, p: nat, end: nat, acc: seq<Expr>): (r: seq<Expr>)
    requires p <= end <= |ts| && CommaChain(ts, p, end)
    ensures 2 * (|r| - |acc|) == end - p && acc <= r
    decreases end - p
  {
    if p == end then acc else AtomsOnto(ts, p + 2, end, acc + [AtomOf(ts[p + 1])])
  }

  /** Every position of a comma chain that ends an expression starts with a token ending an
      expression. */
  lemma {:induction false} CommaChainEnds(ts: seq<Token>, p: nat, end: nat)
    requires p <= end <= |ts| && CommaChain(ts, p, end) && EndsExpr(Look(ts, end))
    ensures EndsExpr(Look(ts, p))
  {
  }

  /** The rest of a comma chain after its first pair. */
  lemma {:induction false} CommaChainTail(ts: seq<Token>, p: nat, end: nat)
    requires p < end <= |ts| && CommaChain(ts, p, end)
    ensures p + 2 <= end && IsAtom(ts[p + 1]) && CommaChain(ts, p + 2, end)
  {
  }

  /** One comma and an atom of the list loop. */
  lemma {:induction false} ListStep(ts: seq<Token>, st: PState, end: nat)
    requires st.pos < end <= |ts| && CommaChain(ts, st.pos, end) && EndsExpr(Look(ts, end))
    ensures st.pos + 2 <= end && CommaChain(ts, st.pos + 2, end)
    ensures Peek(ts, st).Comma?
    ensures ParseExpr(ts, Advance(ts, st)) == Parsed(Ok(AtomOf(ts[st.pos + 1])), At(ts, st, st.pos + 2))
  {
    CommaChainEnds(ts, st.pos + 2, end);
    AtomExpression(ts, Advance(ts, st));
    AdvanceAt(ts, Advance(ts, st));
  }

  /** What the list loop yields over a comma chain that ends at `end`: `items` with the
      chain's atoms appended while the list holds at most 255 expressions, and otherwise a
      failure with "Cannot have more than 255 ...", reported at the 256th expression. */
  predicate ListChainResult(ts: seq<Token>, st: PState, items: seq<Expr>, end: nat, noun: string)
    requires st.pos <= end <= |ts| && CommaChain(ts, st.pos, end) && |items| <= 255
  {
    var r := ListRest(ts, st, items, noun);
    var all := AtomsOnto(ts, st.pos, end, items);
    && (|all| <= 255 ==> r == Parsed(Ok(all), At(ts, st, end)))
    && (|all| > 255 ==>
          r.result.Err? && r.st.errors == st.errors + [ParseError(ts[st.pos + 2 * (255 - |items|) + 1], "Cannot have more than 255 " + noun)])
  }

  /** The list loop at the end of the chain. */
  lemma {:induction false} ListChainDone(ts: seq<Token>, st: PState, items: seq<Expr>, noun: string)
    requires st.pos <= |ts| && !Look(ts, st.pos).Comma? && |items| <= 255
    ensures ListChainResult(ts, st, items, st.pos, noun)
  {
    assert Peek(ts, st) == Look(ts, st.pos);
  }

  /** One turn of the list loop over an expression that parses. */
  lemma {:induction false} ListRestStep(ts: seq<Token>, st: PState, items: seq<Expr>, e: Expr, st2: PState, noun: string)
    requires Valid(ts, st) && Peek(ts, st).Comma? && ParseExpr(ts, Advance(ts, st)) == Parsed(Ok(e), st2)
    ensures ListRest(ts, st, items, noun)
         == if |items| + 1 > 255 then Parsed(Err, Error(st2, "Cannot have more than 255 " + noun))
            else ListRest(ts, st2, items + [e], noun)
  {
  }

  /** The 256th expression of a list fails it, reported at that expression. */
  lemma {:induction false} ListFullStep(ts: seq<Token>, st: PState, items: seq<Expr>, end: nat, noun: string)
    requires st.pos < end <= |ts| && CommaChain(ts, st.pos, end) && |items| == 255 && EndsExpr(Look(ts, end))
    ensures ListRest(ts, st, items, noun).result.Err?
    ensures ListRest(ts, st, items, noun).st.errors == st.errors + [ParseError(ts[st.pos + 1], "Cannot have more than 255 " + noun)]
  {
    ListStep(ts, st, end);
    ListRestStep(ts, st, items, AtomOf(ts[st.pos + 1]), At(ts, st, st.pos + 2), noun);
  }

  /** A full list fails on the next element of the chain. */
  lemma {:induction false} ListChainFull(ts: seq<Token>, st: PState, items: seq<Expr>, end: nat, noun: string)
    requires st.pos < end <= |ts| && CommaChain(ts, st.pos, end) && |items| == 255 && EndsExpr(Look(ts, end))
    ensures ListChainResult(ts, st, items, end, noun)
  {
    ListFullStep(ts, st, items, end, noun);
    assert |AtomsOnto(ts, st.pos, end, items)| > 255;
  }

  /** One turn of the list loop while the list has room, given what the rest of the chain
      yields. */
  lemma {:induction false} ListChainRoom(ts: seq<Token>, st: PState, items: seq<Expr>, end: nat, noun: string)
    requires st.pos < end <= |ts| && CommaChain(ts, st.pos, end) && |items| < 255 && EndsExpr(Look(ts, end))
    requires ListChainResult(ts, At(ts, st, st.pos + 2), items + [AtomOf(ts[st.pos + 1])], end, noun)
    ensures ListChainResult(ts, st, items, end, noun)
  {
    ListStep(ts, st, end);
    var st2 := At(ts, st, st.pos + 2);
    ListRestStep(ts, st, items, AtomOf(ts[st.pos + 1]), st2, noun);
    AtAt(ts, st, st.pos + 2, end);
  }

  /** The list loop over `, a1 , a2 ...` ended by a token that is neither `,` nor part of an
      expression: it collects the atoms while the list holds at most 255 expressions, and fails
      on the 256th with "Cannot have more than 255 ...", reported at that expression. */
  lemma {:induction false} ListChain(ts: seq<Token>, st: PState, items: seq<Expr>, end: nat, noun: string)
    requires st.pos <= end <= |ts| && CommaChain(ts, st.pos, end) && |items| <= 255
    requires EndsExpr(Look(ts, end)) && !Look(ts, end).Comma?
    ensures ListChainResult(ts, st, items, end, noun)
    decreases end - st.pos, 1
  {
    if st.pos == end {
      ListChainDone(ts, st, items, noun);
    } else if |items| == 255 {
      ListChainFull(ts, st, items, end, noun);
    } else {
      ListChainMore(ts, st, items, end, noun);
    }
  }

  /** The induction step of ListChain while the list has room. */
  lemma {:induction false} ListChainMore(ts: seq<Token>, st: PState, items: seq<Expr>, end: nat, noun: string)
    requires st.pos < end <= |ts| && CommaChain(ts, st.pos, end) && |items| < 255
    requires EndsExpr(Look(ts, end)) && !Look(ts, end).Comma?
    ensures ListChainResult(ts, st, items, end, noun)
    decreases end - st.pos, 0
  {
    CommaChainTail(ts, st.pos, end);
    ListChain(ts, At(ts, st, st.pos + 2), items + [AtomOf(ts[st.pos + 1])], end, noun);
    ListChainRoom(ts, st, items, end, noun);
  }

  /** An argument or parameter list of atoms separated by commas and followed by `)`: accepted
      with at most 255 elements, rejected at the 256th. */
  lemma {:induction false} ListLimit(ts: seq<Token>, st: PState, end: nat, noun: string)
    requires st.pos < end <= |ts| && IsAtom(ts[st.pos]) && CommaChain(ts, st.pos + 1, end) && Look(ts, end).RParen?
    ensures var all := AtomsOnto(ts, st.pos + 1, end, [AtomOf(ts[st.pos])]);
      && (|all| <= 255 ==> ParseExprList(ts, st, noun) == Parsed(Ok(all), At(ts, st, end)))
      && (|all| > 255 ==>
           ParseExprList(ts, st, noun).result.Err? &&
           ParseExprList(ts, st, noun).st.errors == st.errors + [ParseError(ts[st.pos + 510], "Cannot have more than 255 " + noun)])
  {
    CommaChainEnds(ts, st.pos + 1, end);
    AtomExpression(ts, st);
    AdvanceAt(ts, st);
    ListChain(ts, At(ts, st, st.pos + 1), [AtomOf(ts[st.pos])], end, noun);
    if st.pos + 1 < end {
      AtAt(ts, st, st.pos + 1, end);
    }
  }

  /** From `st` to `r` only tokens that are neither a statement keyword nor `;` are skipped,
      and `r` stands in front of a keyword or `EOF`, or just after a `;`. */
  predicate SkipsOnly(ts: seq<Token>, st: PState, r: PState)
    requires st.pos <= r.pos <= |ts|
  {
    || (IsSyncStop(Peek(ts, r)) && Skippable(ts, st.pos, r.pos))
    || (st.pos < r.pos && ts[r.pos - 1].SemiColon? && Skippable(ts, st.pos, r.pos - 1))
  }

  /** Skipping one more token that is no stop token and no `;`. */
  lemma {:induction false} SkippableCons(ts: seq<Token>, a: nat, b: nat)
    requires a < b <= |ts| && Skippable(ts, a + 1, b) && !ts[a].SemiColon? && !IsSyncStop(ts[a])
    ensures Skippable(ts, a, b)
  {
  }

  /** synchronize skips only tokens that are neither a statement keyword nor `;`, and stops in
      front of a keyword or `EOF`, or just after a `;`. */
  lemma {:induction false} SynchronizeSkips(ts: seq<Token>, st: PState)
    requires Valid(ts, st)
    ensures SkipsOnly(ts, st, Synchronize(ts, st))
    decreases |ts| - st.pos, 1
  {
    var t := Peek(ts, st);
    if !IsSyncStop(t) && !t.SemiColon? {
      SynchronizeSkipsMore(ts, st);
    }
  }

  /** The induction step of SynchronizeSkips, over one skipped token. */
  lemma {:induction false} SynchronizeSkipsMore(ts: seq<Token>, st: PState)
    requires Valid(ts, st) && !IsSyncStop(Peek(ts, st)) && !Peek(ts, st).SemiColon?
    ensures SkipsOnly(ts, st, Synchronize(ts, st))
    decreases |ts| - st.pos, 0
  {
    var st1 := Advance(ts, st);
    var r := Synchronize(ts, st1);
    SyncSkips(ts, st);
    SynchronizeSkips(ts, st1);
    if IsSyncStop(Peek(ts, r)) && Skippable(ts, st1.pos, r.pos) {
      SkippableCons(ts, st.pos, r.pos);
    } else {
      SkippableCons(ts, st.pos, r.pos - 1);
    }
  }

  /** `if b {} else {}` */
  function IfElse(b: bool): seq<Token>
  {
    [If, BooleanLiteral(b), LBrace, RBrace, Else, LBrace, RBrace]
  }

  /** The block loop stops at `}` and at the end of the input. */
  lemma {:induction false} BlockEnds(ts: seq<Token>, st: PState, stmts: seq<Stmt>)
    requires Valid(ts, st) && (Peek(ts, st).RBrace? || Peek(ts, st).EOF?)
    ensures BlockLoop(ts, st, stmts) == Parsed(Ok(stmts), st)
  {
  }

  /** A statement of a block that parses is kept. */
  lemma {:induction false} BlockKeeps(ts: seq<Token>, st: PState, stmts: seq<Stmt>, s: Stmt, st2: PState)
    requires Valid(ts, st) && !Peek(ts, st).RBrace? && !Peek(ts, st).EOF? && ParseStmt(ts, st) == Parsed(Ok(s), st2)
    ensures BlockLoop(ts, st, stmts) == BlockLoop(ts, st2, stmts + [s])
  {
  }

  /** `{}` after its `{`. */
  lemma {:induction false} EmptyBlock(ts: seq<Token>, st: PState)
    requires Valid(ts, st) && Peek(ts, st).RBrace?
    ensures ParseBlock(ts, st) == Parsed(Ok(BlockStmt([])), Advance(ts, st))
  {
    BlockEnds(ts, st, []);
  }

  /** The common prefix of `if b {} else {}`: the condition, the then-block, and the else-block
      read as a statement `{}` nested in the block that parse_block starts at its `{`. */
  lemma {:induction false} IfElsePrefix(ts: seq<Token>, b: bool)
    requires IfElse(b) <= ts
    ensures ParseExpr(ts, At(ts, INITIAL, 1)) == Parsed(Ok(LiteralExpr(BoolLiteral(b))), At(ts, INITIAL, 2))
    ensures Peek(ts, At(ts, INITIAL, 2)).LBrace? && Advance(ts, At(ts, INITIAL, 2)) == At(ts, INITIAL, 3)
    ensures ParseBlock(ts, At(ts, INITIAL, 3)) == Parsed(Ok(BlockStmt([])), At(ts, INITIAL, 4))
    ensures Peek(ts, At(ts, INITIAL, 4)).Else? && Advance(ts, At(ts, INITIAL, 4)) == At(ts, INITIAL, 5)
    ensures Peek(ts, At(ts, INITIAL, 5)).LBrace?
    ensures ParseStmt(ts, At(ts, INITIAL, 5)) == Parsed(Ok(BlockStmt([])), At(ts, INITIAL, 7))
  {
    assert ts[0].If? && ts[1] == BooleanLiteral(b) && ts[2].LBrace? && ts[3].RBrace?;
    assert ts[4].Else? && ts[5].LBrace? && ts[6].RBrace?;
    AtomExpression(ts, At(ts, INITIAL, 1));
    EmptyBlock(ts, At(ts, INITIAL, 3));
    EmptyBlock(ts, At(ts, INITIAL, 6));
  }

  /** The whole `if` statement, given how the else-block starting at its `{` parses. */
  lemma {:induction false} IfElseStmt(ts: seq<Token>, b: bool, r: Parsed<Stmt>)
    requires IfElse(b) <= ts && ParseBlock(ts, At(ts, INITIAL, 5)) == r
    ensures r.result.Err? ==> ParseStmt(ts, INITIAL) == r
    ensures r.result.Ok? ==>
      ParseStmt(ts, INITIAL) == Parsed(Ok(IfStmt(LiteralExpr(BoolLiteral(b)), BlockStmt([]), Some(r.result.value))), r.st)
  {
    IfElsePrefix(ts, b);
    AdvanceAt(ts, INITIAL);
    var cond := LiteralExpr(BoolLiteral(b));
    var st4 := At(ts, INITIAL, 4);
    var e := ElsePart(ts, st4, cond, BlockStmt([]));
    assert e == if r.result.Err? then r else Parsed(Ok(IfStmt(cond, BlockStmt([]), Some(r.result.value))), r.st);
    assert ParseIf(ts, At(ts, INITIAL, 1)) == e;
    assert ParseStmt(ts, INITIAL) == KeywordStmt(ts, At(ts, INITIAL, 1), If);
  }

  /** The else-block is parsed from its own `{`, which becomes a nested block statement; the
      `}` that closes it is then taken as the end of that nested block, so `if b {} else {}`
      fails with "Expect '}' after block" at the end of the input. */
  lemma {:induction false} ElseBlockNeedsExtraBrace(b: bool)
    ensures Parse(IfElse(b)).0 == []
    ensures Parse(IfElse(b)).1.errors == [ParseError(RBrace, "Expect '}' after block")]
  {
    var ts := IfElse(b);
    IfElsePrefix(ts, b);
    var st5 := At(ts, INITIAL, 5);
    var st7 := At(ts, INITIAL, 7);
    BlockKeeps(ts, st5, [], BlockStmt([]), st7);
    BlockEnds(ts, st7, [BlockStmt([])]);
    var failed := Error(st7, "Expect '}' after block");
    assert ParseBlock(ts, st5) == Parsed(Err, failed);
    IfElseStmt(ts, b, Parsed(Err, failed));
    LoopRecovers(ts, INITIAL, [], failed);
    LoopEnds(ts, failed, []);
  }

  /** With one more `}` the statement parses, and its else-branch is a block holding one empty
      block. */
  lemma {:induction false} ElseBlockIsNested(b: bool)
    ensures Parse(IfElse(b) + [RBrace]).0
         == [IfStmt(LiteralExpr(BoolLiteral(b)), BlockStmt([]), Some(BlockStmt([BlockStmt([])])))]
    ensures Parse(IfElse(b) + [RBrace]).1.errors == []
  {
    var ts := IfElse(b) + [RBrace];
    IfElsePrefix(ts, b);
    var st5 := At(ts, INITIAL, 5);
    var st7 := At(ts, INITIAL, 7);
    var st8 := At(ts, INITIAL, 8);
    assert ts[7].RBrace?;
    BlockKeeps(ts, st5, [], BlockStmt([]), st7);
    BlockEnds(ts, st7, [BlockStmt([])]);
    assert ParseBlock(ts, st5) == Parsed(Ok(BlockStmt([BlockStmt([])])), st8);
    IfElseStmt(ts, b, Parsed(Ok(BlockStmt([BlockStmt([])])), st8));
    var s := IfStmt(LiteralExpr(BoolLiteral(b)), BlockStmt([]), Some(BlockStmt([BlockStmt([])])));
    LoopKeeps(ts, INITIAL, [], s, st8);
    LoopEnds(ts, st8, [s]);
  }

  // ---------------------------------------------------------------------------------------
  // Prefix operators, parentheses and calls
  // ---------------------------------------------------------------------------------------

  /** A unary expression followed by a token that closes a level is that level's result. */
  lemma {:induction false} UnaryAtLevel(ts: seq<Token>, st: PState, level: Level, e: Expr, st2: PState)
    requires Valid(ts, st) && ParseUnary(ts, st) == Parsed(Ok(e), st2) && Closes(level, Peek(ts, st2))
    ensures ParseBinary(ts, st, level) == Parsed(Ok(e), st2)
    decreases 3 - Depth(level)
  {
    if level != FactorLevel {
      UnaryAtLevel(ts, st, Tighter(level), e, st2);
    }
    BinaryLoopEnds(ts, st2, level, e);
  }

  /** A unary expression followed by a token that ends an expression is a whole expression. */
  lemma {:induction false} UnaryExpression(ts: seq<Token>, st: PState, e: Expr, st2: PState)
    requires Valid(ts, st) && ParseUnary(ts, st) == Parsed(Ok(e), st2) && EndsExpr(Peek(ts, st2))
    ensures ParseExpr(ts, st) == Parsed(Ok(e), st2)
  {
    UnaryAtLevel(ts, st, EqualityLevel, e, st2);
    WholeExpression(ts, st, e, st2);
  }

  /** A result of any level followed by a token that ends an expression is a whole expression. */
  lemma {:induction false} LevelExpression(ts: seq<Token>, st: PState, level: Level, e: Expr, st2: PState)
    requires Valid(ts, st) && ParseBinary(ts, st, level) == Parsed(Ok(e), st2) && EndsExpr(Peek(ts, st2))
    ensures ParseExpr(ts, st) == Parsed(Ok(e), st2)
  {
    match level
    case EqualityLevel =>
    case ComparisonLevel =>
      Loosen(ts, st, EqualityLevel, e, st2);
    case TermLevel =>
      Loosen(ts, st, ComparisonLevel, e, st2);
      Loosen(ts, st, EqualityLevel, e, st2);
    case FactorLevel =>
      Loosen(ts, st, TermLevel, e, st2);
      Loosen(ts, st, ComparisonLevel, e, st2);
      Loosen(ts, st, EqualityLevel, e, st2);
    WholeExpression(ts, st, e, st2);
  }

  /** A level whose first operand `e` ends at `p` and is followed by a chain of operators of the
      level and atoms: the left fold of the chain from `e`. */
  lemma {:induction false} LevelFrom(ts: seq<Token>, st: PState, level: Level, e: Expr, p: nat, end: nat)
    requires st.pos < p <= end <= |ts| && ParseOperand(ts, st, level) == Parsed(Ok(e), At(ts, st, p))
    requires ChainAt(ts, p, level, end) && Closes(level, Look(ts, end))
    ensures ParseBinary(ts, st, level) == Parsed(Ok(FoldAt(ts, p, level, end, e)), At(ts, st, end))
  {
    BinaryChain(ts, At(ts, st, p), level, e, end);
    if p < end {
      AtAt(ts, st, p, end);
    }
  }

  /** `-`, `+` and `!` apply to the unary expression after them. */
  lemma {:induction false} PrefixUnary(ts: seq<Token>, st: PState, e: Expr, st2: PState)
    requires Valid(ts, st) && PrefixOp(Peek(ts, st)).Some? && ParseUnary(ts, Advance(ts, st)) == Parsed(Ok(e), st2)
    ensures ParseUnary(ts, st) == Parsed(Ok(UnaryExpr(PrefixOp(Peek(ts, st)).value, e)), st2)
  {
  }

  /** `( e )`: the inner expression and the `)` are consumed, and the parentheses leave no node
      of their own. */
  lemma {:induction false} GroupPrimary(ts: seq<Token>, st: PState, e: Expr, st2: PState)
    requires Valid(ts, st) && Peek(ts, st).LParen? && ParseExpr(ts, Advance(ts, st)) == Parsed(Ok(e), st2)
    requires Peek(ts, st2).RParen?
    ensures ParsePrimary(ts, st) == Parsed(Ok(e), Advance(ts, st2))
  {
  }

  /** `( e` without its `)` records "Expected ')' after expression" and fails. */
  lemma {:induction false} GroupUnclosed(ts: seq<Token>, st: PState, e: Expr, st2: PState)
    requires Valid(ts, st) && Peek(ts, st).LParen? && ParseExpr(ts, Advance(ts, st)) == Parsed(Ok(e), st2)
    requires !Peek(ts, st2).RParen?
    ensures ParsePrimary(ts, st) == Parsed(Err, Error(st2, "Expected ')' after expression"))
  {
  }

  /** A parenthesised expression not followed by `(` is a whole unary expression. */
  lemma {:induction false} GroupUnary(ts: seq<Token>, st: PState, e: Expr, st2: PState)
    requires Valid(ts, st) && Peek(ts, st).LParen? && ParseExpr(ts, Advance(ts, st)) == Parsed(Ok(e), st2)
    requires Peek(ts, st2).RParen? && !Peek(ts, Advance(ts, st2)).LParen?
    ensures ParseUnary(ts, st) == Parsed(Ok(e), Advance(ts, st2))
  {
    GroupPrimary(ts, st, e, st2);
    CallLoopEnds(ts, Advance(ts, st2), e);
  }

  /** An argument list closed by `)` wraps the expression so far in a call, and the loop goes
      on after the `)`. */
  lemma {:induction false} CallLoopStep(ts: seq<Token>, st: PState, e: Expr, args: seq<Expr>, st2: PState)
    requires Valid(ts, st) && Peek(ts, st).LParen?
    requires ParseExprList(ts, Advance(ts, st), "arguments") == Parsed(Ok(args), st2) && Peek(ts, st2).RParen?
    ensures CallLoop(ts, st, e) == CallLoop(ts, Advance(ts, st2), CallExpr(e, args))
  {
  }

  /** `f(a1, ..., an)` with atoms, at most 255 of them, and no further `(`: one call of the
      callee with the atoms as arguments, in order. */
  lemma {:induction false} CallOfAtoms(ts: seq<Token>, st: PState, end: nat)
    requires st.pos + 3 <= end < |ts| && IsAtom(ts[st.pos]) && ts[st.pos + 1].LParen?
    requires IsAtom(ts[st.pos + 2]) && CommaChain(ts, st.pos + 3, end) && ts[end].RParen?
    requires |AtomsOnto(ts, st.pos + 3, end, [AtomOf(ts[st.pos + 2])])| <= 255
    requires !Look(ts, end + 1).LParen?
    ensures ParseUnary(ts, st)
         == Parsed(Ok(CallExpr(AtomOf(ts[st.pos]), AtomsOnto(ts, st.pos + 3, end, [AtomOf(ts[st.pos + 2])]))),
                   At(ts, st, end + 1))
  {
    var p := st.pos;
    var args := AtomsOnto(ts, p + 3, end, [AtomOf(ts[p + 2])]);
    var st1, st2, st3 := At(ts, st, p + 1), At(ts, st, p + 2), At(ts, st, end);
    PrimaryAtom(ts, st);
    AdvanceAt(ts, st);
    AdvanceAt(ts, st1);
    AtAt(ts, st, p + 1, p + 2);
    ListLimit(ts, st2, end, "arguments");
    AtAt(ts, st, p + 2, end);
    CallLoopStep(ts, st1, AtomOf(ts[p]), args, st3);
    AdvanceAt(ts, st3);
    AtAt(ts, st, end, end + 1);
    CallLoopEnds(ts, At(ts, st, end + 1), CallExpr(AtomOf(ts[p]), args));
    assert PrefixOp(ts[p]).None?;
  }

  // ---------------------------------------------------------------------------------------
  // Return, block, if and let statements
  // ---------------------------------------------------------------------------------------

  /** A statement keyword or `{` is consumed and selects its statement parser. */
  lemma {:induction false} KeywordStep(ts: seq<Token>, st: PState)
    requires Valid(ts, st) && StartsStmt(Peek(ts, st))
    ensures ParseStmt(ts, st) == KeywordStmt(ts, Advance(ts, st), Peek(ts, st))
  {
  }

  /** `return e;` after the `return`. */
  lemma {:induction false} ReturnValue(ts: seq<Token>, st: PState, e: Expr, st2: PState)
    requires Valid(ts, st) && !Peek(ts, st).SemiColon? && ParseExpr(ts, st) == Parsed(Ok(e), st2)
    requires Peek(ts, st2).SemiColon?
    ensures ParseReturn(ts, st) == Parsed(Ok(ReturnStmt(Some(e))), Advance(ts, st2))
  {
  }

  /** `return e` without `;` records "Expected ';' after statement" and fails. */
  lemma {:induction false} ReturnUnterminated(ts: seq<Token>, st: PState, e: Expr, st2: PState)
    requires Valid(ts, st) && !Peek(ts, st).SemiColon? && ParseExpr(ts, st) == Parsed(Ok(e), st2)
    requires !Peek(ts, st2).SemiColon?
    ensures ParseReturn(ts, st) == Parsed(Err, Error(st2, "Expected ';' after statement"))
  {
  }

  /** A block holding one statement, after its `{`. */
  lemma {:induction false} BlockOfOne(ts: seq<Token>, st: PState, s: Stmt, st2: PState)
    requires Valid(ts, st) && !Peek(ts, st).RBrace? && !Peek(ts, st).EOF?
    requires ParseStmt(ts, st) == Parsed(Ok(s), st2) && Peek(ts, st2).RBrace?
    ensures ParseBlock(ts, st) == Parsed(Ok(BlockStmt([s])), Advance(ts, st2))
  {
    BlockKeeps(ts, st, [], s, st2);
    BlockEnds(ts, st2, [s]);
  }

  /** The condition, `{` and then-block of parse_if; the else part decides the rest. */
  lemma {:induction false} IfThen(ts: seq<Token>, st: PState, c: Expr, st1: PState, b: Stmt, st2: PState)
    requires Valid(ts, st) && ParseExpr(ts, st) == Parsed(Ok(c), st1) && Peek(ts, st1).LBrace?
    requires ParseBlock(ts, Advance(ts, st1)) == Parsed(Ok(b), st2)
    ensures ParseIf(ts, st) == ElsePart(ts, st2, c, b)
  {
  }

  /** Without `else` the statement ends after the then-block. */
  lemma {:induction false} NoElse(ts: seq<Token>, st: PState, c: Expr, b: Stmt)
    requires Valid(ts, st) && !Peek(ts, st).Else?
    ensures ElsePart(ts, st, c, b) == Parsed(Ok(IfStmt(c, b, None)), st)
  {
  }

  /** `else if`: both tokens are consumed and the nested if statement is the else-branch. */
  lemma {:induction false} ElseIf(ts: seq<Token>, st: PState, c: Expr, b: Stmt, alt: Stmt, st3: PState)
    requires Valid(ts, st) && Peek(ts, st).Else? && Peek(ts, Advance(ts, st)).If?
    requires ParseIf(ts, Advance(ts, Advance(ts, st))) == Parsed(Ok(alt), st3)
    ensures ElsePart(ts, st, c, b) == Parsed(Ok(IfStmt(c, b, Some(alt))), st3)
  {
  }

  /** `let x = e;` after the `let`. */
  lemma {:induction false} LetWithValue(ts: seq<Token>, st: PState, x: string, e: Expr, st2: PState)
    requires Valid(ts, st) && Peek(ts, st) == Token.Ident(x) && Peek(ts, Advance(ts, st)).Assign?
    requires ParseExpr(ts, Advance(ts, Advance(ts, st))) == Parsed(Ok(e), st2) && Peek(ts, st2).SemiColon?
    ensures ParseLet(ts, st) == Parsed(Ok(LetStmt(Ident.Ident(x), Some(e))), Advance(ts, st2))
  {
  }
}
