/**
  The naive parameter-flow (taint) analysis of ParameterFlow.cpp: the
  instruction visitor FlowIV, its transfer rules, the flow-insensitive
  ParameterFlow pass and the set comparison used by the flow-sensitive pass.
*/
module ParameterFlow {
  import opened Ir

  /** The values an instruction's handler may add to the tracked set. */
  function Defines(i: Instruction): set<Value> {
    match i
    case Load(res, _) => {res}
    case Store(_, ptr) => {ptr}
    case BinOp(_, res, _, _) => {res}
    case Unary(_, res, _) => {res}
    case Call(res, _, _) => {res}
    case _ => {}
  }

  predicate AnyTracked(t: set<Value>, args: seq<Value>) {
    exists k :: 0 <= k < |args| && args[k] in t
  }

  /**
    The effect of visiting one instruction on the tracked set. Handlers only
    ever insert, and only the value the instruction defines (or, for a store,
    its pointer operand).
  */
  function Transfer(t: set<Value>, i: Instruction): (r: set<Value>)
    ensures t <= r
    ensures r - t <= Defines(i)
  {
    match i
    case Load(res, ptr) => if ptr in t then t + {res} else t
    case Store(val, ptr) => if val in t then t + {ptr} else t
    case BinOp(_, res, lhs, rhs) => if lhs in t || rhs in t then t + {res} else t
    case Unary(_, res, x) => if x in t then t + {res} else t
    case Call(res, _, args) => if AnyTracked(t, args) then t + {res} else t
    case _ => t
  }

  /** The tracked set after visiting `insts` in order, starting from `t`. */
  function Flow(t: set<Value>, insts: seq<Instruction>): set<Value>
    decreases |insts|
  {
    if insts == [] then t
    else Transfer(Flow(t, insts[..|insts| - 1]), insts[|insts| - 1])
  }

  /** Every value some instruction of `insts` may add. */
  function DefinedBy(insts: seq<Instruction>): set<Value>
    decreases |insts|
  {
    if insts == [] then {} else DefinedBy(insts[..|insts| - 1]) + Defines(insts[|insts| - 1])
  }

  lemma FlowSnoc(t: set<Value>, insts: seq<Instruction>, k: nat)
    requires k < |insts|
    ensures Flow(t, insts[..k + 1]) == Transfer(Flow(t, insts[..k]), insts[k])
  {
    assert insts[..k + 1][..k] == insts[..k];
  }

  /** Visiting a concatenation is visiting one part after the other. */
  lemma {:induction false} FlowConcat(t: set<Value>, a: seq<Instruction>, b: seq<Instruction>)
    ensures Flow(t, a + b) == Flow(Flow(t, a), b)
    decreases |b|
  {
    if b == [] {
      assert a + b == a;
    } else {
      var n := |b| - 1;
      assert (a + b)[..|a + b| - 1] == a + b[..n];
      FlowConcat(t, a, b[..n]);
    }
  }

  /**
    Nothing is ever removed from the tracked set, and whatever is added is
    defined (or stored to) by one of the visited instructions.
  */
  lemma {:induction false} FlowGrows(t: set<Value>, insts: seq<Instruction>)
    ensures t <= Flow(t, insts)
    ensures Flow(t, insts) <= t + DefinedBy(insts)
    decreases |insts|
  {
    if insts != [] {
      FlowGrows(t, insts[..|insts| - 1]);
    }
  }

  /** A larger incoming set never yields a smaller outgoing set. */
  lemma {:induction false} FlowMonotone(t1: set<Value>, t2: set<Value>, insts: seq<Instruction>)
    requires t1 <= t2
    ensures Flow(t1, insts) <= Flow(t2, insts)
    decreases |insts|
  {
    if insts != [] {
      var n := |insts| - 1;
      FlowMonotone(t1, t2, insts[..n]);
      var u1, u2 := Flow(t1, insts[..n]), Flow(t2, insts[..n]);
      match insts[n]
      case Call(res, _, args) =>
        if AnyTracked(u1, args) {
          var k :| 0 <= k < |args| && args[k] in u1;
          assert args[k] in u2;
        }
      case _ =>
    }
  }

  /**
    A load's result is tracked after the load exactly when it was tracked
    before or the pointer operand is tracked at that point of the walk.
  */
  lemma LoadRule(t: set<Value>, insts: seq<Instruction>, k: nat)
    requires k < |insts| && insts[k].Load?
    ensures var before := Flow(t, insts[..k]);
      Flow(t, insts[..k + 1]) == if insts[k].ptr in before then before + {insts[k].res} else before
  {
    FlowSnoc(t, insts, k);
  }

  /** A store whose value is tracked marks its pointer operand, and adds nothing else. */
  lemma StoreRule(t: set<Value>, insts: seq<Instruction>, k: nat)
    requires k < |insts| && insts[k].Store?
    ensures var before := Flow(t, insts[..k]);
      Flow(t, insts[..k + 1]) == if insts[k].val in before then before + {insts[k].ptr} else before
  {
    FlowSnoc(t, insts, k);
  }

  /** A binary operator's result is tracked when either operand is. */
  lemma BinOpRule(t: set<Value>, insts: seq<Instruction>, k: nat)
    requires k < |insts| && insts[k].BinOp?
    ensures var before := Flow(t, insts[..k]);
      Flow(t, insts[..k + 1]) ==
        if insts[k].lhs in before || insts[k].rhs in before then before + {insts[k].res} else before
  {
    FlowSnoc(t, insts, k);
  }

  /** A unary instruction's result is tracked when its one operand is. */
  lemma UnaryRule(t: set<Value>, insts: seq<Instruction>, k: nat)
    requires k < |insts| && insts[k].Unary?
    ensures var before := Flow(t, insts[..k]);
      Flow(t, insts[..k + 1]) == if insts[k].operand in before then before + {insts[k].res} else before
  {
    FlowSnoc(t, insts, k);
  }

  /**
    A call's result is tracked when at least one argument is; however many
    arguments are tracked, exactly the call's result is added.
  */
  lemma CallRule(t: set<Value>, insts: seq<Instruction>, k: nat, j: nat)
    requires k < |insts| && insts[k].Call?
    requires j < |insts[k].args| && insts[k].args[j] in Flow(t, insts[..k])
    ensures Flow(t, insts[..k + 1]) == Flow(t, insts[..k]) + {insts[k].res}
  {
    FlowSnoc(t, insts, k);
  }

  /** Return instructions and instructions without a handler leave the set unchanged. */
  lemma NoHandlerRule(t: set<Value>, insts: seq<Instruction>, k: nat)
    requires k < |insts| && Defines(insts[k]) == {}
    ensures Flow(t, insts[..k + 1]) == Flow(t, insts[..k])
  {
    FlowSnoc(t, insts, k);
  }

  /**
    The walk is in program order: a load visited before the store that taints
    its pointer stays untracked, while the same load after that store is tracked.
  */
  lemma LoadBeforeStoreStaysUntracked(t: set<Value>, res: Value, ptr: Value, val: Value)
    requires val in t && ptr !in t && res !in t && res != ptr
    ensures res !in Flow(t, [Load(res, ptr), Store(val, ptr)])
    ensures res in Flow(t, [Store(val, ptr), Load(res, ptr)])
  {
    FlowSnoc(t, [Load(res, ptr), Store(val, ptr)], 1);
    FlowSnoc(t, [Load(res, ptr), Store(val, ptr)], 0);
    FlowSnoc(t, [Store(val, ptr), Load(res, ptr)], 1);
    FlowSnoc(t, [Store(val, ptr), Load(res, ptr)], 0);
    assert [Load(res, ptr), Store(val, ptr)][..2] == [Load(res, ptr), Store(val, ptr)];
    assert [Store(val, ptr), Load(res, ptr)][..2] == [Store(val, ptr), Load(res, ptr)];
  }

  /** The instruction visitor FlowIV and its tracked set. */
  class FlowVisitor {
    var trackedValues: set<Value>

    constructor ()
      ensures trackedValues == {}
    {
      trackedValues := {};
    }

    method AddTrackedValue(v: Value)
      modifies this
      ensures trackedValues == old(trackedValues) + {v}
    {
      trackedValues := trackedValues + {v};
    }

    predicate IsTracked(v: Value)
      reads this
    {
      v in trackedValues
    }

    method VisitLoadInst(res: Value, ptr: Value)
      modifies this
      ensures trackedValues == Transfer(old(trackedValues), Load(res, ptr))
    {
      if IsTracked(ptr) {
        AddTrackedValue(res);
      }
    }

    method VisitStoreInst(val: Value, ptr: Value)
      modifies this
      ensures trackedValues == Transfer(old(trackedValues), Store(val, ptr))
    {
      if IsTracked(val) {
        AddTrackedValue(ptr);
      }
    }

    method VisitBinaryOperator(code: nat, res: Value, lhs: Value, rhs: Value)
      modifies this
      ensures trackedValues == Transfer(old(trackedValues), BinOp(code, res, lhs, rhs))
    {
      if IsTracked(lhs) || IsTracked(rhs) {
        AddTrackedValue(res);
      }
    }

    method VisitUnaryInstruction(kind: UnaryKind, res: Value, operand: Value)
      modifies this
      ensures trackedValues == Transfer(old(trackedValues), Unary(kind, res, operand))
    {
      if IsTracked(operand) {
        AddTrackedValue(res);
      }
    }

    /** Adds the call's result once per tracked argument; insertion is idempotent. */
    method VisitCallInst(res: Value, callee: string, args: seq<Value>)
      modifies this
      ensures trackedValues == Transfer(old(trackedValues), Call(res, callee, args))
    {
      for k := 0 to |args|
        invariant trackedValues == if AnyTracked(old(trackedValues), args[..k]) then old(trackedValues) + {res} else old(trackedValues)
      {
        if IsTracked(args[k]) {
          assert args[..k + 1][k] == args[k];
          AddTrackedValue(res);
        }
        assert forall j :: 0 <= j < k ==> args[..k + 1][j] == args[..k][j];
      }
      assert args[..|args|] == args;
    }

    /** InstVisitor::visit: dispatch on the kind of instruction. */
    method Visit(i: Instruction)
      modifies this
      ensures trackedValues == Transfer(old(trackedValues), i)
    {
      match i
      case Load(res, ptr) => VisitLoadInst(res, ptr);
      case Store(val, ptr) => VisitStoreInst(val, ptr);
      case BinOp(code, res, lhs, rhs) => VisitBinaryOperator(code, res, lhs, rhs);
      case Unary(kind, res, x) => VisitUnaryInstruction(kind, res, x);
      case Call(res, callee, args) => VisitCallInst(res, callee, args);
      case _ =>
    }

    /** Visits the instructions of one block in order. */
    method VisitBlock(insts: seq<Instruction>)
      modifies this
      ensures trackedValues == Flow(old(trackedValues), insts)
    {
      for k := 0 to |insts|
        invariant trackedValues == Flow(old(trackedValues), insts[..k])
      {
        FlowSnoc(old(trackedValues), insts, k);
        Visit(insts[k]);
      }
      assert insts[..|insts|] == insts;
    }

    /** Visits every block of a function, in the function's block order. */
    method VisitFunction(f: Function)
      modifies this
      ensures trackedValues == Flow(old(trackedValues), Instructions(f.blocks))
    {
      for b := 0 to |f.blocks|
        invariant trackedValues == Flow(old(trackedValues), Instructions(f.blocks[..b]))
      {
        InstructionsSnoc(f.blocks, b);
        FlowConcat(old(trackedValues), Instructions(f.blocks[..b]), f.blocks[b].insts);
        VisitBlock(f.blocks[b].insts);
      }
      assert f.blocks[..|f.blocks|] == f.blocks;
    }
  }

  /**
    The ParameterFlow pass: one fresh visitor per formal argument, seeded with
    that argument, visits the whole function. `traces[k]` is what the visitor
    for the k-th argument ends up tracking; the pass never changes the function.
  */
  method RunOnFunction(f: Function) returns (modified: bool, traces: seq<set<Value>>)
    ensures !modified
    ensures |traces| == |f.params|
    ensures forall k :: 0 <= k < |f.params| ==> traces[k] == Flow({f.params[k]}, Instructions(f.blocks))
    ensures forall k :: 0 <= k < |f.params| ==> f.params[k] in traces[k]
  {
    traces := [];
    for k := 0 to |f.params|
      invariant |traces| == k
      invariant forall j :: 0 <= j < k ==> traces[j] == Flow({f.params[j]}, Instructions(f.blocks))
    {
      var visitor := new FlowVisitor();
      visitor.AddTrackedValue(f.params[k]);
      assert visitor.trackedValues == {f.params[k]};
      visitor.VisitFunction(f);
      traces := traces + [visitor.trackedValues];
      assert traces[k] == Flow({f.params[k]}, Instructions(f.blocks));
    }
    forall k | 0 <= k < |f.params| {
      FlowGrows({f.params[k]}, Instructions(f.blocks));
    }
    modified := false;
  }

  /** valueSetsAreEqual: same size, and each set's members are in the other. */
  method ValueSetsAreEqual(first: set<Value>, second: set<Value>) returns (equal: bool)
    ensures equal <==> first == second
  {
    if |first| != |second| {
      return false;
    }
    var rest := first;
    while rest != {}
      invariant rest <= first
      invariant first - rest <= second
      decreases |rest|
    {
      var v :| v in rest;
      if v !in second {
        return false;
      }
      rest := rest - {v};
    }
    rest := second;
    while rest != {}
      invariant rest <= second
      invariant second - rest <= first
      decreases |rest|
    {
      var v :| v in rest;
      if v !in first {
        return false;
      }
      rest := rest - {v};
    }
    return true;
  }
}
