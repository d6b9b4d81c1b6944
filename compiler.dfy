/** The compiler of lib/compiler/mod.rs as it runs: a `Compiler` object whose `codes` vector
    grows by `emit`, is patched in place at the placeholder jumps, and takes over the vectors
    of fresh sub-compilers for blocks and function bodies. Every method is proved to append
    exactly the code the function of the same name in `CompilerSpec` gives for the code
    length it starts from, or to stop with that function's `Fatal` error. */
module Compiler {
  import opened Basics
  import opened Ast
  import opened Opcodes
  import opened CompilerSpec

  /** A method with outcome `status` that started at `before` and left `after` did what
      `expected` says: it appended the expected code, or it stopped with the expected error. */
  ghost predicate Completes(status: Outcome<()>, expected: Outcome<seq<Opcode>>,
                            before: seq<Opcode>, after: seq<Opcode>)
  {
    && (expected.Done? ==> status.Done? && after == before + expected.value)
    && (expected.Fatal? ==> status.Fatal? && status.error == expected.error)
  }

  /** Overwriting the placeholder that sits right after `prefix`. */
  lemma Patch(prefix: seq<Opcode>, placeholder: Opcode, rest: seq<Opcode>, op: Opcode)
    ensures (prefix + [placeholder] + rest)[|prefix| := op] == prefix + [op] + rest
  {
    var s := (prefix + [placeholder] + rest)[|prefix| := op];
    assert forall i | 0 <= i < |s| :: s[i] == (prefix + [op] + rest)[i];
  }

  /** Overwriting the placeholder at the end of the code. */
  lemma PatchLast(prefix: seq<Opcode>, placeholder: Opcode, op: Opcode)
    ensures (prefix + [placeholder])[|prefix| := op] == prefix + [op]
  {
    var s := (prefix + [placeholder])[|prefix| := op];
    assert forall i | 0 <= i < |s| :: s[i] == (prefix + [op])[i];
  }

  /** The code appended piece by piece is the code appended at once. */
  lemma Regroup(before: seq<Opcode>, a: seq<Opcode>, jumps: seq<Opcode>, b: seq<Opcode>)
    requires |jumps| == 2
    ensures before + a + [jumps[0]] + [jumps[1]] + b == before + (a + jumps + b)
  {
    assert jumps == [jumps[0]] + [jumps[1]];
  }

  /** The same for the code of a loop. */
  lemma RegroupLoop(before: seq<Opcode>, a: seq<Opcode>, x: Opcode, b: seq<Opcode>, y: Opcode)
    ensures before + a + [x] + (b + [y]) == before + (a + [x] + b + [y])
  {
  }

  /** Once a prefix of a program is fatal, so is the whole program, with the same error. */
  lemma {:induction false} SeqFatalExtends(stmts: seq<Stmt>, k: nat, base: nat)
    requires k <= |stmts| && SeqCode(stmts[..k], base).Fatal?
    ensures SeqCode(stmts, base) == SeqCode(stmts[..k], base)
    decreases |stmts|
  {
    if k < |stmts| {
      var init := stmts[..|stmts| - 1];
      assert init[..k] == stmts[..k];
      SeqFatalExtends(init, k, base);
    } else {
      assert stmts[..k] == stmts;
    }
  }

  /** Once a prefix of an argument list is fatal, so is the whole list, with the same error. */
  lemma {:induction false} ArgsFatalExtends(args: seq<Expr>, k: nat)
    requires k <= |args| && ArgsCode(args[..k]).Fatal?
    ensures ArgsCode(args) == ArgsCode(args[..k])
    decreases |args|
  {
    if k < |args| {
      var init := args[..|args| - 1];
      assert init[..k] == args[..k];
      ArgsFatalExtends(init, k);
    } else {
      assert args[..k] == args;
    }
  }

  class Compiler {
    var codes: seq<Opcode>

    /** `Compiler::new` */
    constructor ()
      ensures codes == []
    {
      codes := [];
    }

    /** `emit`: push one instruction. */
    method Emit(op: Opcode)
      modifies this
      ensures codes == old(codes) + [op]
    {
      codes := codes + [op];
    }

    /** `compile`: the statements in order. */
    method Compile(program: Program) returns (status: Outcome<()>)
      modifies this
      ensures Completes(status, SeqCode(program, old(|codes|)), old(codes), codes)
      decreases program, 0
    {
      ghost var base := |codes|;
      ghost var before := codes;
      for i := 0 to |program|
        invariant SeqCode(program[..i], base).Done?
        invariant codes == before + SeqCode(program[..i], base).value
      {
        assert program[..i + 1][..i] == program[..i];
        status := CompileStmt(program[i]);
        if status.Fatal? {
          SeqFatalExtends(program, i + 1, base);
          return;
        }
      }
      assert program[..|program|] == program;
      status := Done(());
    }

    /** `compile_stmt` */
    method CompileStmt(s: Stmt) returns (status: Outcome<()>)
      modifies this
      ensures Completes(status, StmtCode(s, old(|codes|)), old(codes), codes)
      decreases s, 1
    {
      match s
      case ExprStmt(e) =>
        status := CompileExpr(e);
        if status.Done? {
          Emit(Pop);
        }
      case LetStmt(x, init) =>
        status := CompileLet(x, init);
      case FnStmt(name, params, body) =>
        status := CompileFn(name, params, body);
      case BlockStmt(stmts) =>
        status := CompileBlock(stmts);
      case IfStmt(cond, thenBranch, elseBranch) =>
        status := CompileIf(cond, thenBranch, elseBranch);
      case ReturnStmt(result) =>
        status := CompileRet(result);
      case WhileStmt(cond, body) =>
        status := CompileWhile(cond, body);
    }

    /** `compile_while`: the condition, a placeholder `JumpIfFalse`, the body block and a
        jump back to the start; the placeholder is then patched to the end. */
    method CompileWhile(cond: Expr, body: Stmt) returns (status: Outcome<()>)
      modifies this
      ensures Completes(status, WhileCode(cond, body, old(|codes|)), old(codes), codes)
      decreases WhileStmt(cond, body), 0
    {
      var startPos := |codes|;
      status := CompileExpr(cond);
      if status.Fatal? {
        return;
      }
      ghost var c := ExprCode(cond).value;
      Emit(JumpIfFalse(0));
      var backpatch := |codes| - 1;
      if !body.BlockStmt? {
        return Fatal(NotABlock);
      }
      status := CompileBlock(body.stmts);
      if status.Fatal? {
        return;
      }
      ghost var b := BlockCode(body.stmts).value;
      Emit(Jump(startPos));
      var pos := |codes|;
      Patch(old(codes) + c, JumpIfFalse(0), b + [Jump(startPos)], JumpIfFalse(pos));
      codes := codes[backpatch := JumpIfFalse(pos)];
      RegroupLoop(old(codes), c, JumpIfFalse(pos), b, Jump(startPos));
    }

    /** `compile_ret` */
    method CompileRet(result: Option<Expr>) returns (status: Outcome<()>)
      modifies this
      ensures Completes(status, ReturnCode(result), old(codes), codes)
      decreases ReturnStmt(result), 0
    {
      status := Done(());
      if result.Some? {
        status := CompileExpr(result.value);
        if status.Fatal? {
          return;
        }
      }
      Emit(Return);
    }

    /** `compile_if`: the condition and a `JumpIfFalse` patched to the instruction after it;
        the then-branch is checked to be a block but not compiled. An else-block follows a
        placeholder `Jump` that is patched to the end. */
    method CompileIf(cond: Expr, thenBranch: Stmt, elseBranch: Option<Stmt>)
      returns (status: Outcome<()>)
      modifies this
      ensures Completes(status, IfCode(cond, thenBranch, elseBranch, old(|codes|)),
                        old(codes), codes)
      decreases IfStmt(cond, thenBranch, elseBranch), 0
    {
      status := CompileExpr(cond);
      if status.Fatal? {
        return;
      }
      ghost var c := ExprCode(cond).value;
      Emit(JumpIfFalse(0));
      var backpatch1 := |codes| - 1;
      if !thenBranch.BlockStmt? {
        return Fatal(NotABlock);
      }
      var pos1 := |codes|;
      PatchLast(old(codes) + c, JumpIfFalse(0), JumpIfFalse(pos1));
      codes := codes[backpatch1 := JumpIfFalse(pos1)];
      if elseBranch.Some? {
        ghost var mid := codes;
        Emit(Jump(0));
        var backpatch2 := |codes| - 1;
        if !elseBranch.value.BlockStmt? {
          return Fatal(NotABlock);
        }
        status := CompileBlock(elseBranch.value.stmts);
        if status.Fatal? {
          return;
        }
        ghost var b := BlockCode(elseBranch.value.stmts).value;
        var pos2 := |codes|;
        Patch(mid, Jump(0), b, Jump(pos2));
        codes := codes[backpatch2 := Jump(pos2)];
        Regroup(old(codes), c, [JumpIfFalse(pos1), Jump(pos2)], b);
        assert IfCode(cond, thenBranch, elseBranch, old(|codes|)) == Done(c + [JumpIfFalse(pos1), Jump(pos2)] + b);
      }
    }

    /** `compile_block`: scope markers around the code of a fresh sub-compiler, appended
        as it is (its jump targets count from the sub-compiler's own start). */
    method CompileBlock(stmts: seq<Stmt>) returns (status: Outcome<()>)
      modifies this
      ensures Completes(status, BlockCode(stmts), old(codes), codes)
      decreases stmts, 1
    {
      Emit(BeginScope);
      var sub := new Compiler();
      status := sub.Compile(stmts);
      if status.Fatal? {
        return;
      }
      codes := codes + sub.codes;
      Emit(EndScope);
    }

    /** `compile_fn`: the parameter names in order, then one `StoreFunction` carrying the
        code of a fresh sub-compiler for the body block. */
    method CompileFn(name: Ident, params: seq<Expr>, body: Stmt) returns (status: Outcome<()>)
      modifies this
      ensures Completes(status, FnCode(name, params, body),
                        old(codes), codes)
      decreases FnStmt(name, params, body), 0
    {
      var paramNames: seq<string> := [];
      for i := 0 to |params|
        invariant codes == old(codes)
        invariant |paramNames| == i
        invariant forall k :: 0 <= k < i ==> params[k].IdentExpr? && paramNames[k] == params[k].ident.name
      {
        if !params[i].IdentExpr? {
          return Fatal(ParamNotIdent);
        }
        paramNames := paramNames + [params[i].ident.name];
      }
      assert paramNames == ParamNames(params).value;
      if !body.BlockStmt? {
        return Fatal(NotABlock);
      }
      var sub := new Compiler();
      status := sub.Compile(body.stmts);
      if status.Fatal? {
        return;
      }
      assert sub.codes == SeqCode(body.stmts, 0).value;
      assert codes == old(codes);
      assert FnCode(name, params, body).value == [StoreFunction(name.name, paramNames, sub.codes)];
      Emit(StoreFunction(name.name, paramNames, sub.codes));
    }

    /** `compile_let`: the initialiser (if any) before `Register`. */
    method CompileLet(x: Ident, init: Option<Expr>) returns (status: Outcome<()>)
      modifies this
      ensures Completes(status, LetCode(x, init), old(codes), codes)
      decreases LetStmt(x, init), 0
    {
      if init.Some? {
        status := CompileExpr(init.value);
        if status.Fatal? {
          return;
        }
        Emit(Register(x.name));
        Emit(Store(x.name));
        Emit(Pop);
      } else {
        Emit(Register(x.name));
        status := Done(());
      }
    }

    /** `compile_expr` */
    method CompileExpr(e: Expr) returns (status: Outcome<()>)
      modifies this
      ensures Completes(status, ExprCode(e), old(codes), codes)
      decreases e, 2
    {
      match e
      case LiteralExpr(l) =>
        CompileLiteral(l);
        status := Done(());
      case IdentExpr(x) =>
        CompileIdent(x);
        status := Done(());
      case BinExpr(left, op, right) =>
        status := CompileBinary(left, op, right);
      case UnaryExpr(op, operand) =>
        status := CompileUnary(op, operand);
      case AssignmentExpr(x, value) =>
        status := CompileAssignment(x, value);
      case CallExpr(callee, args) =>
        status := CompileCall(callee, args);
    }

    /** `compile_call`: the arguments in order, then the callee, then `Call`; a callee that
        is neither a call nor an identifier is fatal. */
    method CompileCall(callee: Expr, args: seq<Expr>) returns (status: Outcome<()>)
      modifies this
      ensures Completes(status, CallCode(callee, args), old(codes), codes)
      decreases CallExpr(callee, args), 1
    {
      ghost var before := codes;
      for i := 0 to |args|
        invariant ArgsCode(args[..i]).Done?
        invariant codes == before + ArgsCode(args[..i]).value
      {
        assert args[..i + 1][..i] == args[..i];
        status := CompileExpr(args[i]);
        if status.Fatal? {
          ArgsFatalExtends(args, i + 1);
          return;
        }
      }
      assert args[..|args|] == args;
      match callee {
        case CallExpr(inner, innerArgs) =>
          status := CompileCall(inner, innerArgs);
          if status.Fatal? {
            return;
          }
        case IdentExpr(x) =>
          CompileIdent(x);
        case _ =>
          return Fatal(CalleeNotCallable);
      }
      Emit(Call);
      status := Done(());
    }

    /** `compile_assignment`: the value, then `Store`. */
    method CompileAssignment(x: Ident, value: Expr) returns (status: Outcome<()>)
      modifies this
      ensures Completes(status, ExprCode(AssignmentExpr(x, value)), old(codes), codes)
      decreases AssignmentExpr(x, value), 1
    {
      status := CompileExpr(value);
      if status.Done? {
        Emit(Store(x.name));
      }
    }

    /** `compile_unary`: the operand, then the operator's instruction (none for `+`). */
    method CompileUnary(op: UnaryOp, operand: Expr) returns (status: Outcome<()>)
      modifies this
      ensures Completes(status, ExprCode(UnaryExpr(op, operand)), old(codes), codes)
      decreases UnaryExpr(op, operand), 1
    {
      status := CompileExpr(operand);
      if status.Fatal? {
        return;
      }
      match op
      case Not => Emit(Opcode.Not);
      case UnaryMinus => Emit(Negate);
      case UnaryPlus =>
    }

    /** `compile_binary`: left operand, right operand, operator. */
    method CompileBinary(left: Expr, op: BinOp, right: Expr) returns (status: Outcome<()>)
      modifies this
      ensures Completes(status, ExprCode(BinExpr(left, op, right)), old(codes), codes)
      decreases BinExpr(left, op, right), 1
    {
      status := CompileExpr(left);
      if status.Fatal? {
        return;
      }
      status := CompileExpr(right);
      if status.Fatal? {
        return;
      }
      Emit(BinOpcode(op));
    }

    /** `compile_ident` */
    method CompileIdent(x: Ident)
      modifies this
      ensures codes == old(codes) + [Load(x.name)]
    {
      Emit(Load(x.name));
    }

    /** `compile_literal` */
    method CompileLiteral(l: Literal)
      modifies this
      ensures codes == old(codes) + [Push(LiteralValue(l))]
    {
      match l
      case BoolLiteral(b) => Emit(Push(Boolean(b)));
      case IntLiteral(i) => Emit(Push(Int(i)));
      case StringLiteral(s) => Emit(Push(String(s)));
    }
  }
}
