/**
  The InstructionCount module pass: a histogram of the opcodes of every
  instruction of every function of a module.
*/
module InstructionCount {
  import opened Ir

  /** All instructions of a module, function by function, block by block, in order. */
  function ModuleInstructions(fns: seq<Function>): seq<Instruction>
    decreases |fns|
  {
    if fns == [] then []
    else ModuleInstructions(fns[..|fns| - 1]) + Instructions(fns[|fns| - 1].blocks)
  }

  /** How many of `insts` have opcode `op`. */
  function Occurrences(insts: seq<Instruction>, op: Opcode): nat
    decreases |insts|
  {
    if insts == [] then 0
    else Occurrences(insts[..|insts| - 1], op) + if OpcodeOf(insts[|insts| - 1]) == op then 1 else 0
  }

  /**
    One counting step: the opcode is inserted with count 0 when it is not in
    the map yet, then its count is incremented.
  */
  function Bump(counts: map<Opcode, nat>, op: Opcode): (r: map<Opcode, nat>)
    ensures r.Keys == counts.Keys + {op}
    ensures r[op] == (if op in counts then counts[op] else 0) + 1
    ensures forall o :: o in counts && o != op ==> r[o] == counts[o]
  {
    var c := if op in counts then counts else counts[op := 0];
    c[op := c[op] + 1]
  }

  /** The map the counting loop holds after visiting `insts`, starting from `counts`. */
  function Tally(counts: map<Opcode, nat>, insts: seq<Instruction>): map<Opcode, nat>
    decreases |insts|
  {
    if insts == [] then counts
    else Bump(Tally(counts, insts[..|insts| - 1]), OpcodeOf(insts[|insts| - 1]))
  }

  /** The histogram of `insts`: the map built from an empty one. */
  function Histogram(insts: seq<Instruction>): map<Opcode, nat> {
    Tally(map[], insts)
  }

  lemma TallySnoc(counts: map<Opcode, nat>, insts: seq<Instruction>, i: Instruction)
    ensures Tally(counts, insts + [i]) == Bump(Tally(counts, insts), OpcodeOf(i))
  {
    assert (insts + [i])[..|insts|] == insts;
  }

  /** Counting `a` and then `b` is counting `a + b`. */
  lemma {:induction false} TallyConcat(counts: map<Opcode, nat>, a: seq<Instruction>, b: seq<Instruction>)
    ensures Tally(counts, a + b) == Tally(Tally(counts, a), b)
    decreases |b|
  {
    if b == [] {
      assert a + b == a;
    } else {
      var n := |b| - 1;
      TallyConcat(counts, a, b[..n]);
      assert (a + b[..n]) + [b[n]] == a + b;
      TallySnoc(counts, a + b[..n], b[n]);
      assert b[..n] + [b[n]] == b;
      TallySnoc(Tally(counts, a), b[..n], b[n]);
    }
  }

  /**
    The histogram holds exactly the opcodes that occur, each with its number
    of occurrences; in particular every count is at least 1.
  */
  lemma {:induction false} HistogramCounts(insts: seq<Instruction>)
    ensures forall op :: op in Histogram(insts) <==> Occurrences(insts, op) > 0
    ensures forall op :: op in Histogram(insts) ==> Histogram(insts)[op] == Occurrences(insts, op) >= 1
    decreases |insts|
  {
    if insts != [] {
      HistogramCounts(insts[..|insts| - 1]);
    }
  }

  /**
    Integer comparisons share one opcode whatever their predicate: a block
    with an equality and a signed less-than comparison counts two under one key.
  */
  lemma ComparisonsShareOneKey(p: IntPredicate, q: IntPredicate, r1: Value, r2: Value, x: Value, y: Value)
    ensures Histogram([ICmp(p, r1, x, y), ICmp(q, r2, x, y)]) == map[ICmpOp := 2]
  {
    var first, second := ICmp(p, r1, x, y), ICmp(q, r2, x, y);
    TallySnoc(map[], [], first);
    assert [] + [first] == [first];
    TallySnoc(map[], [first], second);
    assert [first] + [second] == [first, second];
    assert Tally(map[], [first]) == map[ICmpOp := 1];
  }

  /** The sum of all the values of a count map. */
  ghost function Total(m: map<Opcode, nat>): nat
    decreases |m.Keys|
  {
    if m == map[] then 0
    else
      var k :| k in m;
      m[k] + Total(m - {k})
  }

  /** The sum does not depend on the key the definition happens to pick first. */
  lemma {:induction false} TotalRemove(m: map<Opcode, nat>, k: Opcode)
    requires k in m
    ensures Total(m) == m[k] + Total(m - {k})
    decreases |m.Keys|
  {
    assert m != map[];
    var j :| j in m && Total(m) == m[j] + Total(m - {j});
    if j != k {
      var mj := m - {j};
      var mk := m - {k};
      assert k in mj && mj[k] == m[k];
      assert j in mk && mk[j] == m[j];
      assert |mj.Keys| < |m.Keys| by { assert mj.Keys < m.Keys; }
      assert |mk.Keys| < |m.Keys| by { assert mk.Keys < m.Keys; }
      TotalRemove(mj, k);
      TotalRemove(mk, j);
      assert mj - {k} == mk - {j};
    }
  }

  /** One counting step adds exactly one to the sum of the counts. */
  lemma TotalBump(m: map<Opcode, nat>, op: Opcode)
    ensures Total(Bump(m, op)) == Total(m) + 1
  {
    var r := Bump(m, op);
    TotalRemove(r, op);
    if op in m {
      TotalRemove(m, op);
      assert r - {op} == m - {op};
    } else {
      assert r - {op} == m;
    }
  }

  /** The sum of all counts is the number of instructions visited. */
  lemma {:induction false} HistogramTotal(insts: seq<Instruction>)
    ensures Total(Histogram(insts)) == |insts|
    decreases |insts|
  {
    if insts != [] {
      var n := |insts| - 1;
      HistogramTotal(insts[..n]);
      TotalBump(Histogram(insts[..n]), OpcodeOf(insts[n]));
    }
  }

  /**
    InstructionCount::runOnModule, counting loop: three nested loops over the
    functions, their blocks and their instructions. The pass leaves the
    module unchanged and reports so.
  */
  method RunOnModule(fns: seq<Function>) returns (modified: bool, counts: map<Opcode, nat>)
    ensures !modified
    ensures counts == Histogram(ModuleInstructions(fns))
    ensures forall op :: op in counts <==> Occurrences(ModuleInstructions(fns), op) > 0
    ensures forall op :: op in counts ==> counts[op] == Occurrences(ModuleInstructions(fns), op) >= 1
    ensures Total(counts) == |ModuleInstructions(fns)|
  {
    counts := map[];
    for fi := 0 to |fns|
      invariant counts == Histogram(ModuleInstructions(fns[..fi]))
    {
      var fun := fns[fi];
      ghost var atFunction := counts;
      for bi := 0 to |fun.blocks|
        invariant counts == Tally(atFunction, Instructions(fun.blocks[..bi]))
      {
        var bb := fun.blocks[bi];
        ghost var atBlock := counts;
        for ii := 0 to |bb.insts|
          invariant counts == Tally(atBlock, bb.insts[..ii])
        {
          var currentOpcode := OpcodeOf(bb.insts[ii]);
          if currentOpcode !in counts {
            counts := counts[currentOpcode := 0];
          }
          counts := counts[currentOpcode := counts[currentOpcode] + 1];
          TallySnoc(atBlock, bb.insts[..ii], bb.insts[ii]);
          assert bb.insts[..ii + 1] == bb.insts[..ii] + [bb.insts[ii]];
        }
        assert bb.insts[..|bb.insts|] == bb.insts;
        InstructionsSnoc(fun.blocks, bi);
        TallyConcat(atFunction, Instructions(fun.blocks[..bi]), bb.insts);
      }
      assert fun.blocks[..|fun.blocks|] == fun.blocks;
      assert fns[..fi + 1][..fi] == fns[..fi];
      TallyConcat(map[], ModuleInstructions(fns[..fi]), Instructions(fun.blocks));
    }
    assert fns[..|fns|] == fns;
    HistogramCounts(ModuleInstructions(fns));
    HistogramTotal(ModuleInstructions(fns));
    modified := false;
  }
}
