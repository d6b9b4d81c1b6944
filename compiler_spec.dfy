/** The code lib/compiler/mod.rs emits, as functions of the syntax tree. A statement's code
    depends on `base`, the length of the code vector when its compilation starts, because
    the compiler writes absolute jump targets. The `unreachable!()` and `panic!` arms of the
    compiler are the `Fatal` outcome, raised at the first such arm the compiler reaches. */
module CompilerSpec {
  import opened Basics
  import opened Ast
  import opened Opcodes

  /** Why compilation stops. */
  datatype CompileError =
    | NotABlock          // a loop, if, else or function body that is not a block
    | ParamNotIdent      // a function parameter that is not an identifier
    | CalleeNotCallable  // a callee that is neither an identifier nor a call

  datatype Outcome<+T> = Done(value: T) | Fatal(error: CompileError)

  /** `o` followed by `tail` when `o` succeeded. */
  function Then(o: Outcome<seq<Opcode>>, tail: seq<Opcode>): (r: Outcome<seq<Opcode>>)
    ensures r.Done? <==> o.Done?
    ensures r.Done? ==> r.value == o.value + tail
    ensures r.Fatal? ==> r.error == o.error
  {
    if o.Fatal? then o else Done(o.value + tail)
  }

  /** The constant a literal pushes (`compile_literal`). */
  function LiteralValue(l: Literal): (r: Value)
    ensures !r.Function?
  {
    match l
    case BoolLiteral(b) => Boolean(b)
    case IntLiteral(i) => Int(i)
    case StringLiteral(s) => String(s)
  }

  /** The binary operator an instruction performs, if it is one (the inverse of `BinOpcode`). */
  function OpcodeBinOp(op: Opcode): Option<BinOp>
  {
    match op
    case Add => Some(Plus)
    case Subtract => Some(Minus)
    case Multiply => Some(BinOp.Multiply)
    case Divide => Some(BinOp.Divide)
    case Equal => Some(BinOp.Equal)
    case Greater => Some(BinOp.Greater)
    case GreaterEqual => Some(BinOp.GreaterEqual)
    case Less => Some(BinOp.Less)
    case LessEqual => Some(BinOp.LessEqual)
    case NotEqual => Some(BinOp.NotEqual)
    case _ => None
  }

  /** The instruction `compile_binary` emits for an operator. */
  function BinOpcode(op: BinOp): (r: Opcode)
    ensures OpcodeBinOp(r) == Some(op)
  {
    match op
    case Plus => Add
    case Minus => Subtract
    case Multiply => Opcode.Multiply
    case Divide => Opcode.Divide
    case Equal => Opcode.Equal
    case Greater => Opcode.Greater
    case GreaterEqual => Opcode.GreaterEqual
    case Less => Opcode.Less
    case LessEqual => Opcode.LessEqual
    case NotEqual => Opcode.NotEqual
  }

  /** What `compile_unary` emits after the operand. */
  function UnaryCode(op: UnaryOp): (r: seq<Opcode>)
    ensures |r| <= 1
    ensures r == [] <==> op == UnaryPlus
  {
    match op
    case Not => [Opcode.Not]
    case UnaryMinus => [Negate]
    case UnaryPlus => []
  }

  /** `compile_expr` */
  function ExprCode(e: Expr): (r: Outcome<seq<Opcode>>)
    ensures r.Fatal? ==> r.error == CalleeNotCallable
    decreases e, 2
  {
    match e
    case LiteralExpr(l) => Done([Push(LiteralValue(l))])
    case IdentExpr(x) => Done([Load(x.name)])
    case BinExpr(left, op, right) =>
      var a := ExprCode(left);
      if a.Fatal? then a
      else
        var b := ExprCode(right);
        if b.Fatal? then b else Done(a.value + b.value + [BinOpcode(op)])
    case UnaryExpr(op, operand) => Then(ExprCode(operand), UnaryCode(op))
    case AssignmentExpr(x, value) => Then(ExprCode(value), [Store(x.name)])
    case CallExpr(callee, args) => CallCode(callee, args)
  }

  /** `compile_call`: the arguments left to right, then the callee, then one `Call`. */
  function CallCode(callee: Expr, args: seq<Expr>): (r: Outcome<seq<Opcode>>)
    ensures r.Fatal? ==> r.error == CalleeNotCallable
    ensures r.Done? ==> |r.value| > 0 && r.value[|r.value| - 1] == Call
    decreases CallExpr(callee, args), 1
  {
    var a := ArgsCode(args);
    if a.Fatal? then a
    else
      var c :=
        match callee
        case CallExpr(inner, innerArgs) => CallCode(inner, innerArgs)
        case IdentExpr(x) => Done([Load(x.name)])
        case _ => Fatal(CalleeNotCallable);
      if c.Fatal? then c else Done(a.value + c.value + [Call])
  }

  /** The loop over the arguments in `compile_call`. */
  function ArgsCode(args: seq<Expr>): (r: Outcome<seq<Opcode>>)
    ensures r.Fatal? ==> r.error == CalleeNotCallable
    ensures args == [] ==> r == Done([])
    decreases args
  {
    if |args| == 0 then Done([])
    else
      var init := ArgsCode(args[..|args| - 1]);
      if init.Fatal? then init
      else
        var last := ExprCode(args[|args| - 1]);
        if last.Fatal? then last else Done(init.value + last.value)
  }

  /** The loop over the parameters in `compile_fn`. */
  function ParamNames(params: seq<Expr>): (r: Outcome<seq<string>>)
    ensures r.Done? <==> forall i :: 0 <= i < |params| ==> params[i].IdentExpr?
    ensures r.Fatal? ==> r.error == ParamNotIdent
    ensures r.Done? ==> |r.value| == |params|
    ensures r.Done? ==> forall i :: 0 <= i < |params| ==> r.value[i] == params[i].ident.name
  {
    if |params| == 0 then Done([])
    else
      var init := ParamNames(params[..|params| - 1]);
      var last := params[|params| - 1];
      if init.Fatal? then init
      else if !last.IdentExpr? then Fatal(ParamNotIdent)
      else Done(init.value + [last.ident.name])
  }

  /** `compile_stmt`, started when the code vector has `base` instructions. */
  function StmtCode(s: Stmt, base: nat): (r: Outcome<seq<Opcode>>)
    decreases s, 1
  {
    match s
    case ExprStmt(e) => Then(ExprCode(e), [Pop])
    case LetStmt(x, init) => LetCode(x, init)
    case ReturnStmt(result) => ReturnCode(result)
    case FnStmt(name, params, body) => FnCode(name, params, body)
    case BlockStmt(stmts) => BlockCode(stmts)
    case IfStmt(cond, thenBranch, elseBranch) => IfCode(cond, thenBranch, elseBranch, base)
    case WhileStmt(cond, body) => WhileCode(cond, body, base)
  }

  /** `compile_let`: the initialiser is evaluated before the name is registered. */
  function LetCode(x: Ident, init: Option<Expr>): (r: Outcome<seq<Opcode>>)
    ensures r.Fatal? ==> init.Some? && r.error == CalleeNotCallable
    decreases LetStmt(x, init), 0
  {
    if init.Some? then Then(ExprCode(init.value), [Register(x.name), Store(x.name), Pop])
    else Done([Register(x.name)])
  }

  /** `compile_ret` */
  function ReturnCode(result: Option<Expr>): (r: Outcome<seq<Opcode>>)
    ensures r.Fatal? ==> result.Some? && r.error == CalleeNotCallable
    ensures r.Done? ==> |r.value| > 0 && r.value[|r.value| - 1] == Return
    decreases ReturnStmt(result), 0
  {
    if result.Some? then Then(ExprCode(result.value), [Return]) else Done([Return])
  }

  /** `compile_fn`: the parameters are checked before the body. */
  function FnCode(name: Ident, params: seq<Expr>, body: Stmt): (r: Outcome<seq<Opcode>>)
    ensures !body.BlockStmt? ==> r.Fatal?
    ensures r.Done? ==> |r.value| == 1 && r.value[0].StoreFunction? && r.value[0].fnName == name.name
    decreases FnStmt(name, params, body), 0
  {
    var names := ParamNames(params);
    if names.Fatal? then Fatal(names.error)
    else if !body.BlockStmt? then Fatal(NotABlock)
    else
      var code := SeqCode(body.stmts, 0);
      if code.Fatal? then code else Done([StoreFunction(name.name, names.value, code.value)])
  }

  /** `compile_if`: the then-branch must be a block but adds no code. */
  function IfCode(cond: Expr, thenBranch: Stmt, elseBranch: Option<Stmt>, base: nat)
    : (r: Outcome<seq<Opcode>>)
    ensures !thenBranch.BlockStmt? ==> r.Fatal?
    ensures elseBranch.Some? && !elseBranch.value.BlockStmt? ==> r.Fatal?
    decreases IfStmt(cond, thenBranch, elseBranch), 0
  {
    var c := ExprCode(cond);
    if c.Fatal? then c
    else if !thenBranch.BlockStmt? then Fatal(NotABlock)
    else
      var pos1 := base + |c.value| + 1;
      if elseBranch.None? then Done(c.value + [JumpIfFalse(pos1)])
      else if !elseBranch.value.BlockStmt? then Fatal(NotABlock)
      else
        var b := BlockCode(elseBranch.value.stmts);
        if b.Fatal? then b
        else Done(c.value + [JumpIfFalse(pos1), Jump(pos1 + 1 + |b.value|)] + b.value)
  }

  /** `compile_while` */
  function WhileCode(cond: Expr, body: Stmt, base: nat): (r: Outcome<seq<Opcode>>)
    ensures !body.BlockStmt? ==> r.Fatal?
    decreases WhileStmt(cond, body), 0
  {
    var c := ExprCode(cond);
    if c.Fatal? then c
    else if !body.BlockStmt? then Fatal(NotABlock)
    else
      var b := BlockCode(body.stmts);
      if b.Fatal? then b
      else Done(c.value + [JumpIfFalse(base + |c.value| + |b.value| + 2)] + b.value + [Jump(base)])
  }

  /** `compile_block`: the statements compiled by a fresh compiler, between scope markers. */
  function BlockCode(stmts: seq<Stmt>): (r: Outcome<seq<Opcode>>)
    ensures r.Done? ==> |r.value| >= 2 && r.value[0] == BeginScope && r.value[|r.value| - 1] == EndScope
    decreases stmts, 1
  {
    var inner := SeqCode(stmts, 0);
    if inner.Fatal? then inner else Done([BeginScope] + inner.value + [EndScope])
  }

  /** `compile`: the statements one after another, each started where the previous ended. */
  function SeqCode(stmts: seq<Stmt>, base: nat): (r: Outcome<seq<Opcode>>)
    decreases stmts, 0
  {
    if |stmts| == 0 then Done([])
    else
      var init := SeqCode(stmts[..|stmts| - 1], base);
      if init.Fatal? then init
      else
        var last := StmtCode(stmts[|stmts| - 1], base + |init.value|);
        if last.Fatal? then last else Done(init.value + last.value)
  }
}
