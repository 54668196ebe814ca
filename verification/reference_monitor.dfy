/**
  The reference monitor function that the IRM pass adds to a module
  (`irmCall`), as IR, together with a small interpreter for the instructions
  it uses, and the theorem that the monitor exits with status 1 exactly when
  its two arguments are equal.
*/
module ReferenceMonitor {
  import opened Ir

  const MonitorName: string := "irmCall"
  const I32: Ty := IntTy(32)

  // The values of the generated function, numbered in creation order.
  const Actual: Value := Local(0, I32)
  const Expected: Value := Local(1, I32)
  const FirstAlloc: Value := Local(2, PtrTy)
  const SecondAlloc: Value := Local(3, PtrTy)
  const FirstLoad: Value := Local(4, I32)
  const SecondLoad: Value := Local(5, I32)
  const CompareResult: Value := Local(6, IntTy(1))
  const ThirdLoad: Value := Local(7, I32)
  const PrintResult: Value := Local(8, I32)
  const ExitResult: Value := Local(9, VoidTy)
  const OutputMessage: Value := Global("outputMessage")

  /** Block 0 "initial", block 1 "truecase", block 2 "falsecase". */
  function MonitorBlocks(): seq<Block> {
    [ Block([ Unary(AllocaKind, FirstAlloc, ConstInt(I32, 1)),
              Unary(AllocaKind, SecondAlloc, ConstInt(I32, 1)),
              Store(Actual, FirstAlloc),
              Store(Expected, SecondAlloc),
              Load(FirstLoad, FirstAlloc),
              Load(SecondLoad, SecondAlloc),
              ICmp(Eq, CompareResult, FirstLoad, SecondLoad),
              Br(Some(CompareResult)) ],
            [1, 2]),
      Block([ Load(ThirdLoad, FirstAlloc),
              Call(PrintResult, "printf", [OutputMessage, ThirdLoad]),
              Call(ExitResult, "exit", [ConstInt(I32, 1)]),
              Unreachable ],
            []),
      Block([Ret(None)], []) ]
  }

  /** The function `void irmCall(i32, i32)` with the body above. */
  function MonitorFunction(): Function {
    Function(MonitorName, [Actual, Expected], MonitorBlocks())
  }

  /** The declarations the monitor body calls. */
  function PrintfDeclaration(): Function {
    Function("printf", [Local(0, PtrTy)], [])
  }

  function ExitDeclaration(): Function {
    Function("exit", [Local(0, I32)], [])
  }

  /** Machine state while a function runs: values of locals, stack cells, integers printed. */
  datatype Frame = Frame(env: map<Value, int>, memory: seq<int>, printed: seq<int>)

  /** How a run ends: a normal return, a call of exit, or an instruction this interpreter cannot run. */
  datatype Outcome = Returned(printed: seq<int>) | Exited(status: int, printed: seq<int>) | Stuck

  /** What one instruction does to the control flow. */
  datatype Control = Next(fr: Frame) | Jump(target: nat, fr: Frame) | Done(outcome: Outcome)

  function Eval(fr: Frame, v: Value): int {
    match v
    case ConstInt(_, n) => n
    case _ => if v in fr.env then fr.env[v] else 0
  }

  /**
    One instruction: alloca takes a fresh stack cell, store and load go through
    a cell, an equality comparison yields 1 or 0 (the monitor uses no other
    predicate), a conditional branch takes the first
    successor on a non-zero condition, printf records its integer argument,
    exit ends the run with its argument as status, ret returns.
  */
  function Exec(fr: Frame, i: Instruction, succs: seq<nat>): Control {
    match i
    case Unary(AllocaKind, res, _) =>
      Next(fr.(env := fr.env[res := |fr.memory|], memory := fr.memory + [0]))
    case Store(val, ptr) =>
      var a := Eval(fr, ptr);
      if 0 <= a < |fr.memory| then Next(fr.(memory := fr.memory[a := Eval(fr, val)])) else Done(Stuck)
    case Load(res, ptr) =>
      var a := Eval(fr, ptr);
      if 0 <= a < |fr.memory| then Next(fr.(env := fr.env[res := fr.memory[a]])) else Done(Stuck)
    case ICmp(Eq, res, lhs, rhs) =>
      Next(fr.(env := fr.env[res := if Eval(fr, lhs) == Eval(fr, rhs) then 1 else 0]))
    case Br(Some(c)) =>
      if |succs| == 2 then Jump(if Eval(fr, c) != 0 then succs[0] else succs[1], fr) else Done(Stuck)
    case Br(None) =>
      if |succs| == 1 then Jump(succs[0], fr) else Done(Stuck)
    case Call(_, callee, args) =>
      if callee == "printf" && |args| == 2 then Next(fr.(printed := fr.printed + [Eval(fr, args[1])]))
      else if callee == "exit" && |args| == 1 then Done(Exited(Eval(fr, args[0]), fr.printed))
      else Done(Stuck)
    case Ret(_) => Done(Returned(fr.printed))
    case _ => Done(Stuck)
  }

  /** Runs `blocks` from instruction `pc` of block `b`, for at most `fuel` instructions. */
  function RunFrom(blocks: seq<Block>, b: nat, pc: nat, fr: Frame, fuel: nat): Outcome
    decreases fuel
  {
    if fuel == 0 || b >= |blocks| || pc >= |blocks[b].insts| then Stuck
    else
      match Exec(fr, blocks[b].insts[pc], blocks[b].succs)
      case Next(next) => RunFrom(blocks, b, pc + 1, next, fuel - 1)
      case Jump(t, next) => RunFrom(blocks, t, 0, next, fuel - 1)
      case Done(o) => o
  }

  /** Calls the monitor with the two integers `actual` and `expected`. */
  function InvokeMonitor(actual: int, expected: int, fuel: nat): Outcome {
    RunFrom(MonitorBlocks(), 0, 0, Frame(map[Actual := actual, Expected := expected], [], []), fuel)
  }

  /** The true case prints the first argument's cell and exits with status 1. */
  lemma TrueCase(fr: Frame, fuel: nat)
    requires FirstAlloc in fr.env && 0 <= fr.env[FirstAlloc] < |fr.memory|
    requires fuel >= 3
    ensures RunFrom(MonitorBlocks(), 1, 0, fr, fuel) == Exited(1, fr.printed + [fr.memory[fr.env[FirstAlloc]]])
  {
    var blocks := MonitorBlocks();
    var v := fr.memory[fr.env[FirstAlloc]];
    var fr1 := fr.(env := fr.env[ThirdLoad := v]);
    assert RunFrom(blocks, 1, 0, fr, fuel) == RunFrom(blocks, 1, 1, fr1, fuel - 1);
    var fr2 := fr1.(printed := fr.printed + [v]);
    assert RunFrom(blocks, 1, 1, fr1, fuel - 1) == RunFrom(blocks, 1, 2, fr2, fuel - 2);
  }

  /** The false case returns normally without printing. */
  lemma FalseCase(fr: Frame, fuel: nat)
    requires fuel >= 1
    ensures RunFrom(MonitorBlocks(), 2, 0, fr, fuel) == Returned(fr.printed)
  {
  }

  /** The frame after both arguments are stored in their fresh cells. */
  function AfterStores(x: int, y: int): Frame {
    Frame(map[Actual := x, Expected := y, FirstAlloc := 0, SecondAlloc := 1], [x, y], [])
  }

  /** The frame in which the initial block branches: both cells loaded back, the comparison made. */
  function AfterInitial(x: int, y: int): Frame {
    var fr := AfterStores(x, y);
    fr.(env := fr.env[FirstLoad := x][SecondLoad := y][CompareResult := if x == y then 1 else 0])
  }

  /** The two allocas and the two stores of the initial block. */
  lemma InitialStores(x: int, y: int, fuel: nat)
    requires fuel >= 4
    ensures RunFrom(MonitorBlocks(), 0, 0, Frame(map[Actual := x, Expected := y], [], []), fuel)
         == RunFrom(MonitorBlocks(), 0, 4, AfterStores(x, y), fuel - 4)
  {
    var blocks := MonitorBlocks();
    var fr0 := Frame(map[Actual := x, Expected := y], [], []);
    var fr1 := fr0.(env := fr0.env[FirstAlloc := 0], memory := [0]);
    assert fr0.memory + [0] == [0];
    assert RunFrom(blocks, 0, 0, fr0, fuel) == RunFrom(blocks, 0, 1, fr1, fuel - 1);
    var fr2 := fr1.(env := fr1.env[SecondAlloc := 1], memory := [0, 0]);
    assert fr1.memory + [0] == [0, 0];
    assert RunFrom(blocks, 0, 1, fr1, fuel - 1) == RunFrom(blocks, 0, 2, fr2, fuel - 2);
    var fr3 := fr2.(memory := [x, 0]);
    assert fr2.memory[0 := x] == [x, 0];
    assert RunFrom(blocks, 0, 2, fr2, fuel - 2) == RunFrom(blocks, 0, 3, fr3, fuel - 3);
    var fr4 := fr3.(memory := [x, y]);
    assert fr3.memory[1 := y] == [x, y];
    assert RunFrom(blocks, 0, 3, fr3, fuel - 3) == RunFrom(blocks, 0, 4, fr4, fuel - 4);
    assert fr4 == AfterStores(x, y);
  }

  /** The two loads, the comparison and the conditional branch of the initial block. */
  lemma InitialCompare(x: int, y: int, fuel: nat)
    requires fuel >= 4
    ensures RunFrom(MonitorBlocks(), 0, 4, AfterStores(x, y), fuel)
         == RunFrom(MonitorBlocks(), if x == y then 1 else 2, 0, AfterInitial(x, y), fuel - 4)
  {
    var blocks := MonitorBlocks();
    var fr4 := AfterStores(x, y);
    var fr5 := fr4.(env := fr4.env[FirstLoad := x]);
    assert RunFrom(blocks, 0, 4, fr4, fuel) == RunFrom(blocks, 0, 5, fr5, fuel - 1);
    var fr6 := fr5.(env := fr5.env[SecondLoad := y]);
    assert RunFrom(blocks, 0, 5, fr5, fuel - 1) == RunFrom(blocks, 0, 6, fr6, fuel - 2);
    var fr7 := fr6.(env := fr6.env[CompareResult := if x == y then 1 else 0]);
    assert RunFrom(blocks, 0, 6, fr6, fuel - 2) == RunFrom(blocks, 0, 7, fr7, fuel - 3);
    assert RunFrom(blocks, 0, 7, fr7, fuel - 3) == RunFrom(blocks, if x == y then 1 else 2, 0, fr7, fuel - 4);
  }

  /**
    The monitor exits with status 1, after printing its first argument, when
    its two arguments are equal, and returns normally without printing
    otherwise.
  */
  lemma MonitorExitsIffEqual(actual: int, expected: int, fuel: nat)
    requires fuel >= 11
    ensures InvokeMonitor(actual, expected, fuel) ==
      if actual == expected then Exited(1, [actual]) else Returned([])
  {
    InitialStores(actual, expected, fuel);
    InitialCompare(actual, expected, fuel - 4);
    if actual == expected {
      TrueCase(AfterInitial(actual, expected), fuel - 8);
    } else {
      FalseCase(AfterInitial(actual, expected), fuel - 8);
    }
  }
}
