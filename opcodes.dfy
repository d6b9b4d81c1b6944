/** The instruction set and runtime values (lib/vm/opcode.rs), extended with the
    `StoreFunction` instruction the compiler emits for a function declaration. Jump targets
    are `usize` indices, modelled as `nat`. */
module Opcodes {
  import opened Basics

  datatype Opcode =
    | Push(v: Value)
    | Pop
    | Dup
    | Load(loadName: string)
    | Store(storeName: string)
    | Register(regName: string)
    | Call
    | Return
    | Jump(target: nat)
    | JumpIfFalse(target: nat)
    | Add
    | Subtract
    | Multiply
    | Divide
    | Less
    | Greater
    | LessEqual
    | GreaterEqual
    | Equal
    | NotEqual
    | Negate
    | Not
    | BeginScope
    | EndScope
    | StoreFunction(fnName: string, paramNames: seq<string>, body: seq<Opcode>)

  datatype Value =
    | Int(intValue: i64)
    | String(str: string)
    | Boolean(boolValue: bool)
    | Function(fn: FunctionObject)

  datatype FunctionObject = FunctionObject(arity: nat, codes: seq<Opcode>)
}
