/** Properties of the code lib/compiler/mod.rs emits, stated on the functions of
    `CompilerSpec` that the `Compiler` methods are proved to follow. */
module CompilerFacts {
  import opened Basics
  import opened Ast
  import opened Opcodes
  import opened CompilerSpec

  // ---------------------------------------------------------------------------------------
  // Expressions: no jumps, and the only fatal error is a callee that cannot be called
  // ---------------------------------------------------------------------------------------

  /** No instruction of `code` is a jump. */
  ghost predicate JumpFree(code: seq<Opcode>)
  {
    forall i :: 0 <= i < |code| ==> !code[i].Jump? && !code[i].JumpIfFalse?
  }

  lemma JumpFreeConcat(a: seq<Opcode>, b: seq<Opcode>)
    requires JumpFree(a) && JumpFree(b)
    ensures JumpFree(a + b)
  {
    forall i | 0 <= i < |a + b|
      ensures !(a + b)[i].Jump? && !(a + b)[i].JumpIfFalse?
    {
      if i >= |a| {
        assert (a + b)[i] == b[i - |a|];
      }
    }
  }

  /** Expression code never jumps; compiling an expression stops only at a callee that is
      neither an identifier nor a call. */
  lemma {:induction false} ExprCodeFacts(e: Expr)
    ensures ExprCode(e).Done? ==> JumpFree(ExprCode(e).value)
    ensures ExprCode(e).Fatal? ==> ExprCode(e).error == CalleeNotCallable
    decreases e, 2
  {
    match e
    case LiteralExpr(_) =>
    case IdentExpr(_) =>
    case BinExpr(left, op, right) =>
      ExprCodeFacts(left);
      ExprCodeFacts(right);
      if ExprCode(e).Done? {
        JumpFreeConcat(ExprCode(left).value + ExprCode(right).value, [BinOpcode(op)]);
        JumpFreeConcat(ExprCode(left).value, ExprCode(right).value);
      }
    case UnaryExpr(op, operand) =>
      ExprCodeFacts(operand);
      if ExprCode(e).Done? {
        JumpFreeConcat(ExprCode(operand).value, UnaryCode(op));
      }
    case AssignmentExpr(x, value) =>
      ExprCodeFacts(value);
      if ExprCode(e).Done? {
        JumpFreeConcat(ExprCode(value).value, [Store(x.name)]);
      }
    case CallExpr(callee, args) =>
      CallCodeFacts(callee, args);
  }

  lemma {:induction false} CallCodeFacts(callee: Expr, args: seq<Expr>)
    ensures CallCode(callee, args).Done? ==> JumpFree(CallCode(callee, args).value)
    ensures CallCode(callee, args).Fatal? ==> CallCode(callee, args).error == CalleeNotCallable
    decreases CallExpr(callee, args), 1
  {
    ArgsCodeFacts(args);
    if ArgsCode(args).Done? {
      match callee
      case CallExpr(inner, innerArgs) =>
        CallCodeFacts(inner, innerArgs);
        if CallCode(callee, args).Done? {
          var a, c := ArgsCode(args).value, CallCode(inner, innerArgs).value;
          JumpFreeConcat(a, c);
          JumpFreeConcat(a + c, [Call]);
        }
      case IdentExpr(x) =>
        JumpFreeConcat(ArgsCode(args).value, [Load(x.name)]);
        JumpFreeConcat(ArgsCode(args).value + [Load(x.name)], [Call]);
      case _ =>
    }
  }

  lemma {:induction false} ArgsCodeFacts(args: seq<Expr>)
    ensures ArgsCode(args).Done? ==> JumpFree(ArgsCode(args).value)
    ensures ArgsCode(args).Fatal? ==> ArgsCode(args).error == CalleeNotCallable
    decreases args
  {
    if |args| > 0 {
      ArgsCodeFacts(args[..|args| - 1]);
      ExprCodeFacts(args[|args| - 1]);
      if ArgsCode(args).Done? {
        JumpFreeConcat(ArgsCode(args[..|args| - 1]).value, ExprCode(args[|args| - 1]).value);
      }
    }
  }

  // ---------------------------------------------------------------------------------------
  // Expressions without calls and unary plus can be read back from their code
  // ---------------------------------------------------------------------------------------

  /** An expression with no call and no unary plus: the two constructs whose code loses
      information (a call has no argument count, `+e` emits only `e`). */
  ghost predicate Plain(e: Expr)
  {
    match e
    case LiteralExpr(_) => true
    case IdentExpr(_) => true
    case BinExpr(left, _, right) => Plain(left) && Plain(right)
    case UnaryExpr(op, operand) => !op.UnaryPlus? && Plain(operand)
    case AssignmentExpr(_, value) => Plain(value)
    case CallExpr(_, _) => false
  }

  /** The literal a pushed constant came from. */
  function ValueLiteral(v: Value): (l: Option<Literal>)
    ensures l.Some? <==> !v.Function?
    ensures l.Some? ==> LiteralValue(l.value) == v
  {
    match v
    case Boolean(b) => Some(BoolLiteral(b))
    case Int(i) => Some(IntLiteral(i))
    case String(s) => Some(StringLiteral(s))
    case Function(_) => None
  }

  /** A reader of expression code: it runs the code on a stack of expressions, each
      instruction building the syntax tree the compiler took it from. */
  function Rebuild(code: seq<Opcode>, stack: seq<Expr>): Option<seq<Expr>>
    decreases |code|
  {
    if |code| == 0 then Some(stack)
    else
      var op, rest := code[0], code[1..];
      var n := |stack|;
      if op.Push? then
        var l := ValueLiteral(op.v);
        if l.None? then None else Rebuild(rest, stack + [LiteralExpr(l.value)])
      else if op.Load? then Rebuild(rest, stack + [IdentExpr(Ident(op.loadName))])
      else if op.Store? then
        if n == 0 then None
        else Rebuild(rest, stack[..n - 1] + [AssignmentExpr(Ident(op.storeName), stack[n - 1])])
      else if op.Not? || op.Negate? then
        if n == 0 then None
        else
          var uop := if op.Not? then UnaryOp.Not else UnaryMinus;
          Rebuild(rest, stack[..n - 1] + [UnaryExpr(uop, stack[n - 1])])
      else if OpcodeBinOp(op).Some? then
        if n < 2 then None
        else Rebuild(rest, stack[..n - 2] + [BinExpr(stack[n - 2], OpcodeBinOp(op).value, stack[n - 1])])
      else None
  }

  /** The expression a code sequence computes, when it computes exactly one. */
  function Decompile(code: seq<Opcode>): Option<Expr>
  {
    var stack := Rebuild(code, []);
    if stack.Some? && |stack.value| == 1 then Some(stack.value[0]) else None
  }

  lemma RebuildLeaf(e: Expr, rest: seq<Opcode>, stack: seq<Expr>)
    requires e.LiteralExpr? || e.IdentExpr?
    ensures ExprCode(e).Done? && |ExprCode(e).value| == 1
    ensures Rebuild(ExprCode(e).value + rest, stack) == Rebuild(rest, stack + [e])
  {
    var code := ExprCode(e).value;
    assert (code + rest)[0] == code[0] && (code + rest)[1..] == rest;
    if e.IdentExpr? {
      assert Ident(e.ident.name) == e.ident;
    }
  }

  /** `Store(x)` turns the expression on top of the stack into an assignment to `x`. */
  lemma RebuildStore(x: Ident, inner: Expr, rest: seq<Opcode>, stack: seq<Expr>)
    ensures Rebuild([Store(x.name)] + rest, stack + [inner])
         == Rebuild(rest, stack + [AssignmentExpr(x, inner)])
  {
    assert ([Store(x.name)] + rest)[0] == Store(x.name) && ([Store(x.name)] + rest)[1..] == rest;
    assert (stack + [inner])[..|stack|] == stack;
    assert Ident(x.name) == x;
  }

  /** `Not` and `Negate` apply their operator to the expression on top of the stack. */
  lemma RebuildUnary(op: UnaryOp, inner: Expr, rest: seq<Opcode>, stack: seq<Expr>)
    requires !op.UnaryPlus?
    ensures |UnaryCode(op)| == 1
    ensures Rebuild(UnaryCode(op) + rest, stack + [inner]) == Rebuild(rest, stack + [UnaryExpr(op, inner)])
  {
    var code := UnaryCode(op);
    assert (code + rest)[0] == code[0] && (code + rest)[1..] == rest;
    assert (stack + [inner])[..|stack|] == stack;
  }

  /** Code followed by more code. */
  lemma Reassociate(c: seq<Opcode>, tail: seq<Opcode>, rest: seq<Opcode>)
    ensures (c + tail) + rest == c + (tail + rest)
  {
  }

  /** A binary instruction combines the two expressions on top of the stack. */
  lemma RebuildBinary(e: Expr, rest: seq<Opcode>, stack: seq<Expr>)
    requires e.BinExpr? && ExprCode(e.left).Done? && ExprCode(e.right).Done?
    requires Rebuild(ExprCode(e.left).value + (ExprCode(e.right).value + ([BinOpcode(e.op)] + rest)), stack)
          == Rebuild(ExprCode(e.right).value + ([BinOpcode(e.op)] + rest), stack + [e.left])
    requires Rebuild(ExprCode(e.right).value + ([BinOpcode(e.op)] + rest), stack + [e.left])
          == Rebuild([BinOpcode(e.op)] + rest, stack + [e.left] + [e.right])
    ensures ExprCode(e).Done?
    ensures Rebuild(ExprCode(e).value + rest, stack) == Rebuild(rest, stack + [e])
  {
    var a, b, op := ExprCode(e.left).value, ExprCode(e.right).value, BinOpcode(e.op);
    assert (a + b + [op]) + rest == a + (b + ([op] + rest));
    assert ([op] + rest)[0] == op && ([op] + rest)[1..] == rest;
    var s2 := stack + [e.left] + [e.right];
    assert s2[..|s2| - 2] == stack && s2[|s2| - 2] == e.left && s2[|s2| - 1] == e.right;
  }

  /** Reading the code of a plain expression pushes that expression. */
  lemma {:induction false} RebuildExpr(e: Expr, rest: seq<Opcode>, stack: seq<Expr>)
    requires Plain(e)
    ensures ExprCode(e).Done?
    ensures Rebuild(ExprCode(e).value + rest, stack) == Rebuild(rest, stack + [e])
    decreases e
  {
    match e
    case LiteralExpr(_) => RebuildLeaf(e, rest, stack);
    case IdentExpr(_) => RebuildLeaf(e, rest, stack);
    case AssignmentExpr(x, value) =>
      RebuildExpr(value, [Store(x.name)] + rest, stack);
      Reassociate(ExprCode(value).value, [Store(x.name)], rest);
      RebuildStore(x, value, rest, stack);
    case UnaryExpr(op, operand) =>
      RebuildExpr(operand, UnaryCode(op) + rest, stack);
      Reassociate(ExprCode(operand).value, UnaryCode(op), rest);
      RebuildUnary(op, operand, rest, stack);
    case BinExpr(left, op, right) =>
      RebuildExpr(right, [BinOpcode(op)] + rest, stack + [left]);
      RebuildExpr(left, ExprCode(right).value + ([BinOpcode(op)] + rest), stack);
      RebuildBinary(e, rest, stack);
  }

  /** The other direction of `BinOpcode`'s contract: the ten operator instructions are exactly
      the instructions `compile_binary` emits, one per operator. */
  lemma OpcodeBinOpInverse(op: Opcode)
    ensures OpcodeBinOp(op).Some? ==> BinOpcode(OpcodeBinOp(op).value) == op
    ensures OpcodeBinOp(op).Some? <==> exists b: BinOp :: BinOpcode(b) == op
  {
    if OpcodeBinOp(op).None? {
      forall b: BinOp
        ensures BinOpcode(b) != op
      {
      }
    }
  }

  /** Round trip: a plain expression compiles, and its code reads back as the expression. */
  lemma DecompileExprCode(e: Expr)
    requires Plain(e)
    ensures ExprCode(e).Done? && Decompile(ExprCode(e).value) == Some(e)
  {
    RebuildExpr(e, [], []);
    assert ExprCode(e).value + [] == ExprCode(e).value;
    assert Rebuild([], [e]) == Some([e]);
  }

  /** Hence different plain expressions never compile to the same code. */
  lemma ExprCodeInjective(e1: Expr, e2: Expr)
    requires Plain(e1) && Plain(e2) && e1 != e2
    ensures ExprCode(e1).Done? && ExprCode(e2).Done? && ExprCode(e1).value != ExprCode(e2).value
  {
    DecompileExprCode(e1);
    DecompileExprCode(e2);
  }

  /** Unary plus emits only its operand: `+e` and `e` compile alike, and the code of `+e`
      reads back as `e`. */
  lemma UnaryPlusErased(e: Expr)
    requires Plain(e)
    ensures ExprCode(UnaryExpr(UnaryPlus, e)) == ExprCode(e) && ExprCode(e).Done?
    ensures Decompile(ExprCode(UnaryExpr(UnaryPlus, e)).value) == Some(e)
  {
    DecompileExprCode(e);
    assert ExprCode(e).value + [] == ExprCode(e).value;
  }

  // ---------------------------------------------------------------------------------------
  // Calls
  // ---------------------------------------------------------------------------------------

  /** The number of call expressions in an expression. */
  function Calls(e: Expr): nat
    decreases e, 1
  {
    match e
    case LiteralExpr(_) => 0
    case IdentExpr(_) => 0
    case BinExpr(left, _, right) => Calls(left) + Calls(right)
    case UnaryExpr(_, operand) => Calls(operand)
    case AssignmentExpr(_, value) => Calls(value)
    case CallExpr(callee, args) => 1 + Calls(callee) + CallsAll(args)
  }

  function CallsAll(args: seq<Expr>): nat
    decreases args, 0
  {
    if |args| == 0 then 0 else CallsAll(args[..|args| - 1]) + Calls(args[|args| - 1])
  }

  /** The number of `Call` instructions in a code sequence. */
  function CallOps(code: seq<Opcode>): nat
    decreases |code|
  {
    if |code| == 0 then 0
    else CallOps(code[..|code| - 1]) + (if code[|code| - 1].Call? then 1 else 0)
  }

  lemma {:induction false} CallOpsConcat(a: seq<Opcode>, b: seq<Opcode>)
    ensures CallOps(a + b) == CallOps(a) + CallOps(b)
    decreases |b|
  {
    if |b| == 0 {
      assert a + b == a;
    } else {
      var b' := b[..|b| - 1];
      assert (a + b)[..|a + b| - 1] == a + b';
      CallOpsConcat(a, b');
    }
  }

  /** Every call expression emits exactly one `Call`, and nothing else emits one. */
  lemma {:induction false} OneCallPerCall(e: Expr)
    requires ExprCode(e).Done?
    ensures CallOps(ExprCode(e).value) == Calls(e)
    decreases e, 2
  {
    match e
    case LiteralExpr(_) =>
      assert ExprCode(e).value[..0] == [];
    case IdentExpr(_) =>
      assert ExprCode(e).value[..0] == [];
    case BinExpr(left, op, right) =>
      OneCallPerCall(left);
      OneCallPerCall(right);
      var a, b := ExprCode(left).value, ExprCode(right).value;
      CallOpsConcat(a + b, [BinOpcode(op)]);
      CallOpsConcat(a, b);
      assert [BinOpcode(op)][..0] == [];
    case UnaryExpr(op, operand) =>
      OneCallPerCall(operand);
      CallOpsConcat(ExprCode(operand).value, UnaryCode(op));
      if !op.UnaryPlus? {
        assert UnaryCode(op)[..0] == [];
      }
    case AssignmentExpr(x, value) =>
      OneCallPerCall(value);
      CallOpsConcat(ExprCode(value).value, [Store(x.name)]);
      assert [Store(x.name)][..0] == [];
    case CallExpr(callee, args) =>
      OneCallPerCallExpr(callee, args);
  }

  lemma {:induction false} OneCallPerCallExpr(callee: Expr, args: seq<Expr>)
    requires CallCode(callee, args).Done?
    ensures CallOps(CallCode(callee, args).value) == 1 + Calls(callee) + CallsAll(args)
    decreases CallExpr(callee, args), 1
  {
    OneCallPerArgs(args);
    var a := ArgsCode(args).value;
    var c: seq<Opcode>;
    if callee.CallExpr? {
      OneCallPerCallExpr(callee.callee, callee.args);
      c := CallCode(callee.callee, callee.args).value;
    } else {
      c := [Load(callee.ident.name)];
      assert c[..0] == [];
    }
    assert CallCode(callee, args).value == a + c + [Call];
    CallOpsConcat(a + c, [Call]);
    CallOpsConcat(a, c);
    assert [Call][..0] == [];
  }

  lemma {:induction false} OneCallPerArgs(args: seq<Expr>)
    requires ArgsCode(args).Done?
    ensures CallOps(ArgsCode(args).value) == CallsAll(args)
    decreases args
  {
    if |args| == 0 {
    } else {
      var init, last := args[..|args| - 1], args[|args| - 1];
      OneCallPerArgs(init);
      OneCallPerCall(last);
      CallOpsConcat(ArgsCode(init).value, ExprCode(last).value);
    }
  }

  /** Arguments are compiled before the callee is looked at: a failing argument decides the
      outcome whatever the callee is; otherwise a callee that is neither an identifier nor a
      call is fatal. */
  lemma CalleeChecks(callee: Expr, args: seq<Expr>)
    ensures ArgsCode(args).Fatal? ==> ExprCode(CallExpr(callee, args)) == ArgsCode(args)
    ensures ArgsCode(args).Done? && !callee.IdentExpr? && !callee.CallExpr?
            ==> ExprCode(CallExpr(callee, args)) == Fatal(CalleeNotCallable)
  {
  }

  lemma ArgsOne(a: Expr)
    ensures ArgsCode([a]) == ExprCode(a)
  {
    assert [a][..0] == [];
    if ExprCode(a).Done? {
      assert [] + ExprCode(a).value == ExprCode(a).value;
    }
  }

  lemma ArgsTwo(a: Expr, b: Expr)
    ensures ArgsCode([a, b]) == if ExprCode(a).Fatal? then ExprCode(a)
                                else if ExprCode(b).Fatal? then ExprCode(b)
                                else Done(ExprCode(a).value + ExprCode(b).value)
  {
    assert [a, b][..1] == [a];
    ArgsOne(a);
  }

  /** `Call` carries no argument count: `f(a)(b)` and `f(b, a)()` compile alike. */
  lemma CallsCollide(f: Ident, a: Expr, b: Expr)
    ensures CallExpr(CallExpr(IdentExpr(f), [a]), [b]) != CallExpr(CallExpr(IdentExpr(f), [b, a]), [])
    ensures ExprCode(CallExpr(CallExpr(IdentExpr(f), [a]), [b]))
         == ExprCode(CallExpr(CallExpr(IdentExpr(f), [b, a]), []))
  {
    var ca, cb := ExprCode(a), ExprCode(b);
    ArgsOne(a);
    ArgsOne(b);
    ArgsTwo(b, a);
    if cb.Done? && ca.Done? {
      var x, y := cb.value, ca.value;
      assert CallCode(IdentExpr(f), [a]) == Done(y + [Load(f.name)] + [Call]);
      assert CallCode(IdentExpr(f), [b, a]) == Done(x + y + [Load(f.name)] + [Call]);
      assert ArgsCode([]) == Done([]);
      assert x + (y + [Load(f.name)] + [Call]) + [Call] == [] + (x + y + [Load(f.name)] + [Call]) + [Call];
    } else {
      var fatal := if cb.Fatal? then cb else ca;
      assert CallCode(IdentExpr(f), [b, a]) == fatal;
      assert CallCode(CallExpr(IdentExpr(f), [b, a]), []) == fatal;
      if cb.Done? {
        assert CallCode(IdentExpr(f), [a]) == fatal;
      }
      assert CallCode(CallExpr(IdentExpr(f), [a]), [b]) == fatal;
    }
  }

  // ---------------------------------------------------------------------------------------
  // Statements: the shapes of compile_while, compile_if, compile_block, compile_fn, ...
  // ---------------------------------------------------------------------------------------

  /** `while cond { stmts }` is the condition, an exit test that jumps to the end of the loop
      code, the body block, and a jump back to where the loop started; a condition that fails
      or a body that is not a block is fatal in that order. */
  lemma WhileShape(cond: Expr, body: Stmt, base: nat)
    ensures ExprCode(cond).Fatal? ==> StmtCode(WhileStmt(cond, body), base) == ExprCode(cond)
    ensures ExprCode(cond).Done? && !body.BlockStmt?
            ==> StmtCode(WhileStmt(cond, body), base) == Fatal(NotABlock)
    ensures ExprCode(cond).Done? && body.BlockStmt? && SeqCode(body.stmts, 0).Done? ==>
              var code := StmtCode(WhileStmt(cond, body), base);
              code.Done? &&
              code.value == ExprCode(cond).value + [JumpIfFalse(base + |code.value|)]
                            + [BeginScope] + SeqCode(body.stmts, 0).value + [EndScope]
                            + [Jump(base)]
  {
    if ExprCode(cond).Done? && body.BlockStmt? && SeqCode(body.stmts, 0).Done? {
      var c, inner := ExprCode(cond).value, SeqCode(body.stmts, 0).value;
      assert BlockCode(body.stmts) == Done([BeginScope] + inner + [EndScope]);
      assert StmtCode(WhileStmt(cond, body), base)
          == Done(c + [JumpIfFalse(base + |c| + |inner| + 4)] + ([BeginScope] + inner + [EndScope]) + [Jump(base)]);
      assert c + [JumpIfFalse(base + |c| + |inner| + 4)] + ([BeginScope] + inner + [EndScope]) + [Jump(base)]
          == c + [JumpIfFalse(base + |c| + |inner| + 4)] + [BeginScope] + inner + [EndScope] + [Jump(base)];
    }
  }

  /** `compile_if` never compiles the then-branch: it only has to be a block. */
  lemma IfIgnoresThenBranch(cond: Expr, then1: Stmt, then2: Stmt, elseBranch: Option<Stmt>, base: nat)
    requires then1.BlockStmt? && then2.BlockStmt?
    ensures StmtCode(IfStmt(cond, then1, elseBranch), base) == StmtCode(IfStmt(cond, then2, elseBranch), base)
  {
  }

  /** Without an else-branch, `if` is the condition and a `JumpIfFalse` to the instruction
      right after it (its own index plus one), so both outcomes continue at the same place. */
  lemma IfShape(cond: Expr, thenBranch: Stmt, base: nat)
    ensures ExprCode(cond).Fatal? ==> StmtCode(IfStmt(cond, thenBranch, None), base) == ExprCode(cond)
    ensures ExprCode(cond).Done? && !thenBranch.BlockStmt?
            ==> StmtCode(IfStmt(cond, thenBranch, None), base) == Fatal(NotABlock)
    ensures ExprCode(cond).Done? && thenBranch.BlockStmt? ==>
              var c, code := ExprCode(cond).value, StmtCode(IfStmt(cond, thenBranch, None), base);
              code.Done? && |code.value| == |c| + 1 && code.value[..|c|] == c &&
              code.value[|c|] == JumpIfFalse(base + |c| + 1)
  {
    if ExprCode(cond).Done? && thenBranch.BlockStmt? {
      var c := ExprCode(cond).value;
      assert (c + [JumpIfFalse(base + |c| + 1)])[..|c|] == c;
    }
  }

  /** With an else-block, `if` is the condition, a `JumpIfFalse` to the next instruction, a
      `Jump` to the end of the whole code, and the else-block. An else-branch that is not a
      block (an `else if`, say) is fatal. */
  lemma IfElseShape(cond: Expr, thenBranch: Stmt, elseBranch: Stmt, base: nat)
    requires ExprCode(cond).Done? && thenBranch.BlockStmt?
    ensures !elseBranch.BlockStmt? ==> StmtCode(IfStmt(cond, thenBranch, Some(elseBranch)), base) == Fatal(NotABlock)
    ensures elseBranch.BlockStmt? && SeqCode(elseBranch.stmts, 0).Fatal?
            ==> StmtCode(IfStmt(cond, thenBranch, Some(elseBranch)), base) == SeqCode(elseBranch.stmts, 0)
    ensures elseBranch.BlockStmt? && SeqCode(elseBranch.stmts, 0).Done? ==>
              var c, code := ExprCode(cond).value, StmtCode(IfStmt(cond, thenBranch, Some(elseBranch)), base);
              code.Done? &&
              code.value == c + [JumpIfFalse(base + |c| + 1), Jump(base + |code.value|)]
                            + [BeginScope] + SeqCode(elseBranch.stmts, 0).value + [EndScope]
  {
    if elseBranch.BlockStmt? && SeqCode(elseBranch.stmts, 0).Done? {
      var c, e := ExprCode(cond).value, SeqCode(elseBranch.stmts, 0).value;
      var jumps := [JumpIfFalse(base + |c| + 1), Jump(base + |c| + |e| + 4)];
      assert BlockCode(elseBranch.stmts) == Done([BeginScope] + e + [EndScope]);
      assert StmtCode(IfStmt(cond, thenBranch, Some(elseBranch)), base)
          == Done(c + jumps + ([BeginScope] + e + [EndScope]));
      assert c + jumps + ([BeginScope] + e + [EndScope]) == c + jumps + [BeginScope] + e + [EndScope];
    } else if elseBranch.BlockStmt? {
      assert BlockCode(elseBranch.stmts) == SeqCode(elseBranch.stmts, 0);
    }
  }

  /** An `else if` stops the compiler. */
  lemma ElseIfIsFatal(cond: Expr, thenBranch: Stmt, cond2: Expr, then2: Stmt, else2: Option<Stmt>, base: nat)
    requires ExprCode(cond).Done? && thenBranch.BlockStmt?
    ensures StmtCode(IfStmt(cond, thenBranch, Some(IfStmt(cond2, then2, else2))), base) == Fatal(NotABlock)
  {
    IfElseShape(cond, thenBranch, IfStmt(cond2, then2, else2), base);
  }

  /** A block is its statements compiled from index 0, between scope markers, whatever the
      position it is compiled at: its jump targets are not relocated. */
  lemma BlockShape(stmts: seq<Stmt>, base1: nat, base2: nat)
    ensures StmtCode(BlockStmt(stmts), base1) == StmtCode(BlockStmt(stmts), base2)
    ensures SeqCode(stmts, 0).Fatal? ==> StmtCode(BlockStmt(stmts), base1) == SeqCode(stmts, 0)
    ensures SeqCode(stmts, 0).Done? ==>
              StmtCode(BlockStmt(stmts), base1) == Done([BeginScope] + SeqCode(stmts, 0).value + [EndScope])
  {
  }

  /** The code of one statement. */
  lemma SeqOne(s: Stmt, base: nat)
    ensures SeqCode([s], base) == StmtCode(s, base)
  {
    assert [s][..0] == [];
    if StmtCode(s, base).Done? {
      assert [] + StmtCode(s, base).value == StmtCode(s, base).value;
    }
  }

  /** The code of two statements. */
  lemma SeqTwo(s1: Stmt, s2: Stmt, base: nat)
    requires StmtCode(s1, base).Done?
    requires StmtCode(s2, base + |StmtCode(s1, base).value|).Done?
    ensures SeqCode([s1, s2], base)
         == Done(StmtCode(s1, base).value + StmtCode(s2, base + |StmtCode(s1, base).value|).value)
  {
    assert [s1, s2][..1] == [s1];
    SeqOne(s1, base);
  }

  /** `{}` */
  lemma EmptyBlockCode()
    ensures BlockCode([]) == Done([BeginScope, EndScope])
  {
    assert SeqCode([], 0) == Done([]);
    assert [BeginScope] + [] + [EndScope] == [BeginScope, EndScope];
  }

  /** `while b {}` compiled at index 0. */
  lemma SmallLoopCode(b: bool)
    ensures StmtCode(WhileStmt(LiteralExpr(BoolLiteral(b)), BlockStmt([])), 0)
         == Done([Push(Boolean(b)), JumpIfFalse(5), BeginScope, EndScope, Jump(0)])
  {
    var cond := [Push(Boolean(b))];
    EmptyBlockCode();
    assert ExprCode(LiteralExpr(BoolLiteral(b))) == Done(cond);
    assert cond + [JumpIfFalse(5)] + [BeginScope, EndScope] + [Jump(0)]
        == [Push(Boolean(b)), JumpIfFalse(5), BeginScope, EndScope, Jump(0)];
  }

  /** `{ while b {} }` compiled at index 2: the loop's code, compiled from index 0, between
      the block's scope markers. */
  lemma LoopInBlockCode(b: bool)
    ensures StmtCode(BlockStmt([WhileStmt(LiteralExpr(BoolLiteral(b)), BlockStmt([]))]), 2)
         == Done([BeginScope] + [Push(Boolean(b)), JumpIfFalse(5), BeginScope, EndScope, Jump(0)] + [EndScope])
  {
    SmallLoopCode(b);
    SeqOne(WhileStmt(LiteralExpr(BoolLiteral(b)), BlockStmt([])), 0);
  }

  /** `x;` loads `x` and pops it. */
  lemma IdentStmtCode(x: Ident)
    ensures StmtCode(ExprStmt(IdentExpr(x)), 0) == Done([Load(x.name), Pop])
  {
    assert [Load(x.name)] + [Pop] == [Load(x.name), Pop];
  }

  /** A loop inside a block jumps as if the block started at index 0: after `x;` the loop
      `{ while b {} }` starts at index 3, yet its back jump (index 7) goes to index 0 and its
      exit test (index 4) goes to index 5, inside the loop, instead of past it (index 8). */
  lemma NestedLoopJumpsAway(x: Ident, b: bool)
    ensures
      var loop := WhileStmt(LiteralExpr(BoolLiteral(b)), BlockStmt([]));
      var code := SeqCode([ExprStmt(IdentExpr(x)), BlockStmt([loop])], 0);
      code == Done([Load(x.name), Pop, BeginScope, Push(Boolean(b)), JumpIfFalse(5),
                    BeginScope, EndScope, Jump(0), EndScope])
      && code.value[3] == Push(Boolean(b)) && code.value[7].target != 3 && code.value[4].target != 8
  {
    var loop := WhileStmt(LiteralExpr(BoolLiteral(b)), BlockStmt([]));
    var body := [Push(Boolean(b)), JumpIfFalse(5), BeginScope, EndScope, Jump(0)];
    LoopInBlockCode(b);
    IdentStmtCode(x);
    SeqTwo(ExprStmt(IdentExpr(x)), BlockStmt([loop]), 0);
    assert [Load(x.name), Pop] + ([BeginScope] + body + [EndScope])
        == [Load(x.name), Pop, BeginScope, Push(Boolean(b)), JumpIfFalse(5),
            BeginScope, EndScope, Jump(0), EndScope];
  }

  /** A function declaration is one `StoreFunction` carrying the parameter names in order
      and the body's statements compiled from index 0, with no scope markers of its own.
      A non-identifier parameter is fatal before the body is looked at; a body that is not
      a block is fatal next. */
  lemma FnShape(name: Ident, params: seq<Expr>, body: Stmt, base: nat)
    ensures (exists i :: 0 <= i < |params| && !params[i].IdentExpr?)
            ==> StmtCode(FnStmt(name, params, body), base) == Fatal(ParamNotIdent)
    ensures (forall i :: 0 <= i < |params| ==> params[i].IdentExpr?) && !body.BlockStmt?
            ==> StmtCode(FnStmt(name, params, body), base) == Fatal(NotABlock)
    ensures (forall i :: 0 <= i < |params| ==> params[i].IdentExpr?) && body.BlockStmt?
            && SeqCode(body.stmts, 0).Done? ==>
              var code := StmtCode(FnStmt(name, params, body), base);
              code.Done? && |code.value| == 1 && code.value[0].StoreFunction?
              && code.value[0].fnName == name.name
              && |code.value[0].paramNames| == |params|
              && (forall i :: 0 <= i < |params| ==> code.value[0].paramNames[i] == params[i].ident.name)
              && StmtCode(body, base) == Done([BeginScope] + code.value[0].body + [EndScope])
  {
  }

  /** `let x = e;` runs `e` before `x` is registered, then stores and pops the value;
      `let x;` only registers `x`. */
  lemma LetShape(x: Ident, init: Option<Expr>, base: nat)
    ensures init.None? ==> StmtCode(LetStmt(x, init), base) == Done([Register(x.name)])
    ensures init.Some? && ExprCode(init.value).Fatal? ==> StmtCode(LetStmt(x, init), base) == ExprCode(init.value)
    ensures init.Some? && ExprCode(init.value).Done? ==>
              var c, code := ExprCode(init.value).value, StmtCode(LetStmt(x, init), base);
              code.Done? && code.value[..|c|] == c && code.value[|c|..] == [Register(x.name), Store(x.name), Pop]
  {
    if init.Some? && ExprCode(init.value).Done? {
      var c := ExprCode(init.value).value;
      var tail := [Register(x.name), Store(x.name), Pop];
      assert (c + tail)[..|c|] == c && (c + tail)[|c|..] == tail;
    }
  }

  /** An expression statement discards the value it computes; `return` computes its value
      (if any) and returns. */
  lemma ExprAndReturnShape(e: Expr, result: Option<Expr>, base: nat)
    ensures ExprCode(e).Fatal? ==> StmtCode(ExprStmt(e), base) == ExprCode(e)
    ensures ExprCode(e).Done? ==> StmtCode(ExprStmt(e), base) == Done(ExprCode(e).value + [Pop])
    ensures result.None? ==> StmtCode(ReturnStmt(result), base) == Done([Return])
    ensures result.Some? && ExprCode(result.value).Fatal?
            ==> StmtCode(ReturnStmt(result), base) == ExprCode(result.value)
    ensures result.Some? && ExprCode(result.value).Done?
            ==> StmtCode(ReturnStmt(result), base) == Done(ExprCode(result.value).value + [Return])
  {
  }

  // ---------------------------------------------------------------------------------------
  // No jump points past the end of the code it is part of
  // ---------------------------------------------------------------------------------------

  /** Every jump of `code` targets an index at most `limit`. */
  ghost predicate JumpsAtMost(code: seq<Opcode>, limit: nat)
  {
    forall i :: 0 <= i < |code| ==> (code[i].Jump? || code[i].JumpIfFalse?) ==> code[i].target <= limit
  }

  lemma JumpsConcat(a: seq<Opcode>, b: seq<Opcode>, limit: nat)
    requires JumpsAtMost(a, limit) && JumpsAtMost(b, limit)
    ensures JumpsAtMost(a + b, limit)
  {
    forall i | 0 <= i < |a + b| && ((a + b)[i].Jump? || (a + b)[i].JumpIfFalse?)
      ensures (a + b)[i].target <= limit
    {
      if i >= |a| {
        assert (a + b)[i] == b[i - |a|];
      }
    }
  }

  lemma JumpsRaise(a: seq<Opcode>, limit: nat, limit2: nat)
    requires JumpsAtMost(a, limit) && limit <= limit2
    ensures JumpsAtMost(a, limit2)
  {
  }

  lemma JumpFreeJumps(a: seq<Opcode>, limit: nat)
    requires JumpFree(a)
    ensures JumpsAtMost(a, limit)
  {
  }

  /** Expression code followed by instructions that are not jumps. */
  lemma ExprThenJumps(e: Expr, tail: seq<Opcode>, limit: nat)
    requires ExprCode(e).Done? && JumpFree(tail)
    ensures JumpsAtMost(ExprCode(e).value + tail, limit)
  {
    ExprCodeFacts(e);
    JumpFreeConcat(ExprCode(e).value, tail);
    JumpFreeJumps(ExprCode(e).value + tail, limit);
  }

  /** The code of a statement compiled at `base` never jumps past the end of it. */
  lemma {:induction false} StmtJumps(s: Stmt, base: nat)
    requires StmtCode(s, base).Done?
    ensures JumpsAtMost(StmtCode(s, base).value, base + |StmtCode(s, base).value|)
    decreases s, 1
  {
    var limit := base + |StmtCode(s, base).value|;
    match s
    case ExprStmt(e) => ExprThenJumps(e, [Pop], limit);
    case LetStmt(x, init) =>
      if init.Some? {
        ExprThenJumps(init.value, [Register(x.name), Store(x.name), Pop], limit);
      }
    case ReturnStmt(result) =>
      if result.Some? {
        ExprThenJumps(result.value, [Return], limit);
      }
    case FnStmt(_, _, _) =>
    case BlockStmt(stmts) =>
      BlockJumps(stmts);
      JumpsRaise(BlockCode(stmts).value, |BlockCode(stmts).value|, limit);
    case IfStmt(cond, thenBranch, elseBranch) => IfJumps(cond, thenBranch, elseBranch, base);
    case WhileStmt(cond, body) => WhileJumps(cond, body, base);
  }

  lemma {:induction false} BlockJumps(stmts: seq<Stmt>)
    requires BlockCode(stmts).Done?
    ensures JumpsAtMost(BlockCode(stmts).value, |BlockCode(stmts).value|)
    decreases stmts, 1
  {
    var inner := SeqCode(stmts, 0).value;
    var limit := |inner| + 2;
    SeqJumps(stmts, 0);
    JumpsRaise(inner, |inner|, limit);
    JumpsConcat([BeginScope], inner, limit);
    JumpsConcat([BeginScope] + inner, [EndScope], limit);
  }

  lemma {:induction false} SeqJumps(stmts: seq<Stmt>, base: nat)
    requires SeqCode(stmts, base).Done?
    ensures JumpsAtMost(SeqCode(stmts, base).value, base + |SeqCode(stmts, base).value|)
    decreases stmts, 0
  {
    if |stmts| > 0 {
      var limit := base + |SeqCode(stmts, base).value|;
      var init := SeqCode(stmts[..|stmts| - 1], base).value;
      var lastBase := base + |init|;
      var last := StmtCode(stmts[|stmts| - 1], lastBase).value;
      SeqJumps(stmts[..|stmts| - 1], base);
      StmtJumps(stmts[|stmts| - 1], lastBase);
      JumpsRaise(init, base + |init|, limit);
      JumpsConcat(init, last, limit);
    }
  }

  lemma {:induction false} WhileJumps(cond: Expr, body: Stmt, base: nat)
    requires WhileCode(cond, body, base).Done?
    ensures JumpsAtMost(WhileCode(cond, body, base).value, base + |WhileCode(cond, body, base).value|)
    decreases WhileStmt(cond, body), 0
  {
    var code := WhileCode(cond, body, base).value;
    var limit := base + |code|;
    var c, b := ExprCode(cond).value, BlockCode(body.stmts).value;
    ExprThenJumps(cond, [], limit);
    assert c + [] == c;
    BlockJumps(body.stmts);
    JumpsRaise(b, |b|, limit);
    JumpsConcat(c, [JumpIfFalse(limit)], limit);
    JumpsConcat(c + [JumpIfFalse(limit)], b, limit);
    JumpsConcat(c + [JumpIfFalse(limit)] + b, [Jump(base)], limit);
  }

  lemma {:induction false} IfJumps(cond: Expr, thenBranch: Stmt, elseBranch: Option<Stmt>, base: nat)
    requires IfCode(cond, thenBranch, elseBranch, base).Done?
    ensures JumpsAtMost(IfCode(cond, thenBranch, elseBranch, base).value,
                        base + |IfCode(cond, thenBranch, elseBranch, base).value|)
    decreases IfStmt(cond, thenBranch, elseBranch), 0
  {
    var code := IfCode(cond, thenBranch, elseBranch, base).value;
    var limit := base + |code|;
    var c := ExprCode(cond).value;
    ExprThenJumps(cond, [], limit);
    assert c + [] == c;
    JumpsConcat(c, [JumpIfFalse(base + |c| + 1)], limit);
    if elseBranch.Some? {
      var b := BlockCode(elseBranch.value.stmts).value;
      var jumps := [JumpIfFalse(base + |c| + 1), Jump(limit)];
      BlockJumps(elseBranch.value.stmts);
      JumpsRaise(b, |b|, limit);
      JumpsConcat(c, jumps, limit);
      JumpsConcat(c + jumps, b, limit);
    }
  }

  // ---------------------------------------------------------------------------------------
  // Compiling a program in two parts
  // ---------------------------------------------------------------------------------------

  /** Two outcomes one after the other. */
  function Join(a: Outcome<seq<Opcode>>, b: Outcome<seq<Opcode>>): Outcome<seq<Opcode>>
  {
    if a.Fatal? then a else if b.Fatal? then b else Done(a.value + b.value)
  }

  /** Calling `compile` with `p` and then with `q` on the same compiler emits what one call
      with `p + q` emits: the second part starts where the first one ended. */
  lemma {:induction false} SeqCodeAppend(p: seq<Stmt>, q: seq<Stmt>, base: nat)
    ensures SeqCode(p, base).Fatal? ==> SeqCode(p + q, base) == SeqCode(p, base)
    ensures SeqCode(p, base).Done? ==>
              SeqCode(p + q, base) == Join(SeqCode(p, base), SeqCode(q, base + |SeqCode(p, base).value|))
    decreases |q|
  {
    if |q| == 0 {
      assert p + q == p;
      if SeqCode(p, base).Done? {
        assert SeqCode(p, base).value + [] == SeqCode(p, base).value;
      }
    } else {
      var q' := q[..|q| - 1];
      assert (p + q)[..|p + q| - 1] == p + q';
      assert (p + q)[|p + q| - 1] == q[|q| - 1];
      SeqCodeAppend(p, q', base);
      SeqAppendStep(p, q, base);
    }
  }

  /** The step of `SeqCodeAppend`: one more statement at the end of the second part. */
  lemma SeqAppendStep(p: seq<Stmt>, q: seq<Stmt>, base: nat)
    requires |q| > 0
    requires (p + q)[..|p + q| - 1] == p + q[..|q| - 1] && (p + q)[|p + q| - 1] == q[|q| - 1]
    requires SeqCode(p, base).Fatal? ==> SeqCode(p + q[..|q| - 1], base) == SeqCode(p, base)
    requires SeqCode(p, base).Done? ==>
               SeqCode(p + q[..|q| - 1], base)
               == Join(SeqCode(p, base), SeqCode(q[..|q| - 1], base + |SeqCode(p, base).value|))
    ensures SeqCode(p, base).Fatal? ==> SeqCode(p + q, base) == SeqCode(p, base)
    ensures SeqCode(p, base).Done? ==>
              SeqCode(p + q, base) == Join(SeqCode(p, base), SeqCode(q, base + |SeqCode(p, base).value|))
  {
    if SeqCode(p, base).Done? {
      var a := SeqCode(p, base).value;
      var b' := SeqCode(q[..|q| - 1], base + |a|);
      if b'.Done? {
        var last := StmtCode(q[|q| - 1], base + |a| + |b'.value|);
        assert base + |a + b'.value| == base + |a| + |b'.value|;
        if last.Done? {
          assert a + b'.value + last.value == a + (b'.value + last.value);
        }
      }
    }
  }
}
