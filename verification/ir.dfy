/**
  An abstraction of the LLVM IR that the exercise passes inspect.

  A value is identified by what it is, not by a pointer: a local (function
  argument or instruction result) carries a number and a type, a global
  carries its name, an integer constant carries its type and value, and the
  call that the reference-monitor pass inserts before a call site is
  identified by the value of that call site.
*/
module Ir {

  datatype Option<T> = None | Some(value: T)

  datatype Ty = IntTy(bits: nat) | PtrTy | VoidTy | OtherTy

  datatype Value =
    | Local(id: nat, ty: Ty)
    | Global(name: string)
    | ConstInt(ty: Ty, n: int)
    | Injected(site: Value)

  function TypeOf(v: Value): Ty {
    match v
    case Local(_, t) => t
    case Global(_) => PtrTy
    case ConstInt(t, _) => t
    case Injected(_) => VoidTy
  }

  /** The unary instructions of LLVM: alloca, the casts and the rest. */
  datatype UnaryKind = AllocaKind | CastKind(code: nat) | OtherUnaryKind(code: nat)

  /** The ten predicates of LLVM's integer comparison. */
  datatype IntPredicate = Eq | Ne | Ugt | Uge | Ult | Ule | Sgt | Sge | Slt | Sle

  /**
    One instruction. `res` is the value the instruction itself defines.
    `Br` is the block terminator; its targets are the block's successor list
    (the first target when the condition holds, the second otherwise).
    `Other` stands for every instruction none of the passes looks into
    (getelementptr, phi, select, floating-point comparison, ...). Every
    integer comparison is one `ICmp`, whatever its predicate, as in LLVM.
  */
  datatype Instruction =
    | Load(res: Value, ptr: Value)
    | Store(val: Value, ptr: Value)
    | BinOp(code: nat, res: Value, lhs: Value, rhs: Value)
    | Unary(kind: UnaryKind, res: Value, operand: Value)
    | ICmp(pred: IntPredicate, res: Value, lhs: Value, rhs: Value)
    | Call(res: Value, callee: string, args: seq<Value>)
    | Ret(retVal: Option<Value>)
    | Br(cond: Option<Value>)
    | Unreachable
    | Other(code: nat)

  datatype Block = Block(insts: seq<Instruction>, succs: seq<nat>)

  /** A function: its name, its formal arguments and its blocks (none for a declaration). */
  datatype Function = Function(name: string, params: seq<Value>, blocks: seq<Block>)

  /** The opcode of an instruction, the key of the instruction histogram. */
  datatype Opcode =
    | LoadOp
    | StoreOp
    | BinaryOp(code: nat)
    | UnaryOp(kind: UnaryKind)
    | ICmpOp
    | CallOp
    | RetOp
    | BrOp
    | UnreachableOp
    | OtherOp(code: nat)

  function OpcodeOf(i: Instruction): Opcode {
    match i
    case Load(_, _) => LoadOp
    case Store(_, _) => StoreOp
    case BinOp(c, _, _, _) => BinaryOp(c)
    case Unary(k, _, _) => UnaryOp(k)
    case ICmp(_, _, _, _) => ICmpOp
    case Call(_, _, _) => CallOp
    case Ret(_) => RetOp
    case Br(_) => BrOp
    case Unreachable => UnreachableOp
    case Other(c) => OtherOp(c)
  }

  /** All instructions of a sequence of blocks, block by block, in order. */
  function Instructions(blocks: seq<Block>): seq<Instruction>
    decreases |blocks|
  {
    if blocks == [] then []
    else Instructions(blocks[..|blocks| - 1]) + blocks[|blocks| - 1].insts
  }

  lemma InstructionsSnoc(blocks: seq<Block>, b: nat)
    requires b < |blocks|
    ensures Instructions(blocks[..b + 1]) == Instructions(blocks[..b]) + blocks[b].insts
  {
    assert blocks[..b + 1][..b] == blocks[..b];
  }

  /** Every successor of every block names a block of the function. */
  predicate WellFormed(f: Function) {
    forall b, k :: 0 <= b < |f.blocks| && 0 <= k < |f.blocks[b].succs| ==> f.blocks[b].succs[k] < |f.blocks|
  }
}
