/**
  The IRM function pass: it inserts a call `irmCall(arg0, 42)` before every
  security event of a function. An event is a call whose first argument is an
  integer, inside a function whose name does not start with "irm". The
  monitor function is looked up in the module and created on first use.
*/
module IrmInliner {
  import opened Ir
  import opened ReferenceMonitor

  const ReservedPrefix: string := "irm"
  const MarkerValue: nat := 42

  predicate StartsWith(s: string, prefix: string) {
    |prefix| <= |s| && s[..|prefix|] == prefix
  }

  /** A call with at least one argument whose first argument is an integer. */
  predicate IsEvent(i: Instruction) {
    i.Call? && |i.args| >= 1 && TypeOf(i.args[0]).IntTy?
  }

  /**
    IRMInliner::matchesEvent, for an instruction of the function named `fname`:
    the checks in the order the pass makes them.
  */
  function MatchesEvent(fname: string, i: Instruction): (r: bool)
    ensures StartsWith(fname, ReservedPrefix) ==> !r
    ensures !StartsWith(fname, ReservedPrefix) ==> (r <==> IsEvent(i))
  {
    if StartsWith(fname, ReservedPrefix) then false
    else if !i.Call? then false
    else if |i.args| < 1 then false
    else if !TypeOf(i.args[0]).IntTy? then false
    else true
  }

  function Pow2(n: nat): (r: nat)
    ensures r >= 1
  {
    if n == 0 then 1 else 2 * Pow2(n - 1)
  }

  lemma {:induction false} Pow2AtLeast64(n: nat)
    requires n >= 6
    ensures Pow2(n) >= 64
    decreases n
  {
    if n > 6 {
      Pow2AtLeast64(n - 1);
    }
  }

  /**
    The constant 42 of the given integer type, truncated to the type's width
    as an integer constant of that type is.
  */
  function MarkerConstant(ty: Ty): (r: Value)
    requires ty.IntTy?
    ensures r.ConstInt? && r.ty == ty && 0 <= r.n < Pow2(ty.bits)
    ensures ty.bits >= 6 ==> r.n == MarkerValue
  {
    if ty.bits >= 6 then Pow2AtLeast64(ty.bits); ConstInt(ty, MarkerValue)
    else ConstInt(ty, MarkerValue % Pow2(ty.bits))
  }

  /** The monitor call inserted before the event `i`: `irmCall(arg0, 42)`. */
  function MonitorCallFor(i: Instruction): (r: Instruction)
    requires IsEvent(i)
    ensures r.Call? && r.callee == MonitorName && |r.args| == 2 && r.args[0] == i.args[0]
    ensures r.args[1] == MarkerConstant(TypeOf(i.args[0]))
  {
    Call(Injected(i.res), MonitorName, [i.args[0], MarkerConstant(TypeOf(i.args[0]))])
  }

  /** Marks flag the instructions a monitor call goes before; only events can be marked. */
  predicate Markable(insts: seq<Instruction>, marks: seq<bool>) {
    |marks| == |insts| && forall j :: 0 <= j < |insts| && marks[j] ==> IsEvent(insts[j])
  }

  function CountTrue(marks: seq<bool>): nat
    decreases |marks|
  {
    if marks == [] then 0 else (if marks[0] then 1 else 0) + CountTrue(marks[1..])
  }

  /** The block's instructions with a monitor call inserted before each marked one. */
  function Inject(insts: seq<Instruction>, marks: seq<bool>): seq<Instruction>
    requires Markable(insts, marks)
    decreases |insts|
  {
    if insts == [] then []
    else (if marks[0] then [MonitorCallFor(insts[0])] else []) + [insts[0]] + Inject(insts[1..], marks[1..])
  }

  function Insert<T>(s: seq<T>, p: nat, x: T): seq<T>
    requires p <= |s|
  {
    s[..p] + [x] + s[p..]
  }

  lemma InsertShift<T>(head: seq<T>, tail: seq<T>, p: nat, x: T)
    requires p <= |tail|
    ensures head + Insert(tail, p, x) == Insert(head + tail, |head| + p, x)
  {
    assert (head + tail)[..|head| + p] == head + tail[..p];
    assert (head + tail)[|head| + p..] == tail[p..];
  }

  lemma CountTruePrefix(marks: seq<bool>, j: nat)
    requires 0 < j <= |marks|
    ensures CountTrue(marks[..j]) == (if marks[0] then 1 else 0) + CountTrue(marks[1..][..j - 1])
  {
    assert marks[..j][1..] == marks[1..][..j - 1];
  }

  lemma {:induction false} CountTrueBound(marks: seq<bool>, j: nat)
    requires j <= |marks|
    ensures CountTrue(marks[..j]) <= j
    ensures j < |marks| ==> CountTrue(marks[..j + 1]) == CountTrue(marks[..j]) + (if marks[j] then 1 else 0)
    decreases j
  {
    if j > 0 {
      CountTruePrefix(marks, j);
      CountTrueBound(marks[1..], j - 1);
      if j < |marks| {
        CountTruePrefix(marks, j + 1);
      }
    } else if j < |marks| {
      assert marks[..1][1..] == [];
    }
  }

  /** One monitor call per marked instruction is added, nothing else. */
  lemma {:induction false} InjectLength(insts: seq<Instruction>, marks: seq<bool>)
    requires Markable(insts, marks)
    ensures |Inject(insts, marks)| == |insts| + CountTrue(marks)
    decreases |insts|
  {
    if insts != [] {
      InjectLength(insts[1..], marks[1..]);
    }
  }

  /**
    The `j`-th original instruction sits at `j` plus the number of marks
    before it, shifted by one when it is marked itself; its monitor call, if
    any, sits immediately before it.
  */
  lemma {:induction false} InjectPlacement(insts: seq<Instruction>, marks: seq<bool>, j: nat)
    requires Markable(insts, marks) && j < |insts|
    ensures var p := j + CountTrue(marks[..j]);
      && p + (if marks[j] then 1 else 0) < |Inject(insts, marks)|
      && Inject(insts, marks)[p + (if marks[j] then 1 else 0)] == insts[j]
      && (marks[j] ==> Inject(insts, marks)[p] == MonitorCallFor(insts[j]))
    decreases |insts|
  {
    var r := Inject(insts, marks);
    var head := (if marks[0] then [MonitorCallFor(insts[0])] else []) + [insts[0]];
    assert r == head + Inject(insts[1..], marks[1..]);
    if j == 0 {
      assert marks[..0] == [];
    } else {
      InjectPlacement(insts[1..], marks[1..], j - 1);
      CountTruePrefix(marks, j);
    }
  }

  /** Marking one more event inserts its monitor call at its current position. */
  lemma {:induction false} InjectMark(insts: seq<Instruction>, marks: seq<bool>, j: nat)
    requires Markable(insts, marks) && j < |insts| && !marks[j] && IsEvent(insts[j])
    ensures Markable(insts, marks[j := true])
    ensures j + CountTrue(marks[..j]) <= |Inject(insts, marks)|
    ensures Inject(insts, marks[j := true])
         == Insert(Inject(insts, marks), j + CountTrue(marks[..j]), MonitorCallFor(insts[j]))
    decreases |insts|
  {
    if j == 0 {
      assert marks[..0] == [];
      InjectMarkFirst(insts, marks);
    } else {
      InjectMark(insts[1..], marks[1..], j - 1);
      InjectMarkLater(insts, marks, j);
    }
  }

  /** The inductive step of InjectMark: marking an event of the tail shifts its position by the head. */
  lemma InjectMarkLater(insts: seq<Instruction>, marks: seq<bool>, j: nat)
    requires Markable(insts, marks) && 0 < j < |insts| && !marks[j] && IsEvent(insts[j])
    requires Markable(insts[1..], marks[1..][j - 1 := true])
    requires j - 1 + CountTrue(marks[1..][..j - 1]) <= |Inject(insts[1..], marks[1..])|
    requires Inject(insts[1..], marks[1..][j - 1 := true])
          == Insert(Inject(insts[1..], marks[1..]), j - 1 + CountTrue(marks[1..][..j - 1]), MonitorCallFor(insts[j]))
    ensures Markable(insts, marks[j := true])
    ensures j + CountTrue(marks[..j]) <= |Inject(insts, marks)|
    ensures Inject(insts, marks[j := true])
         == Insert(Inject(insts, marks), j + CountTrue(marks[..j]), MonitorCallFor(insts[j]))
  {
    var head := (if marks[0] then [MonitorCallFor(insts[0])] else []) + [insts[0]];
    var tail := Inject(insts[1..], marks[1..]);
    assert Inject(insts, marks) == head + tail;
    var m2 := marks[j := true];
    CountTruePrefix(marks, j);
    assert m2[1..] == marks[1..][j - 1 := true];
    var p := j - 1 + CountTrue(marks[1..][..j - 1]);
    assert Inject(insts, m2) == head + Insert(tail, p, MonitorCallFor(insts[j]));
    InsertShift(head, tail, p, MonitorCallFor(insts[j]));
  }

  /** Marking the first instruction puts its monitor call in front of the block. */
  lemma InjectMarkFirst(insts: seq<Instruction>, marks: seq<bool>)
    requires Markable(insts, marks) && 0 < |insts| && !marks[0] && IsEvent(insts[0])
    ensures Markable(insts, marks[0 := true])
    ensures Inject(insts, marks[0 := true]) == Insert(Inject(insts, marks), 0, MonitorCallFor(insts[0]))
  {
    var m2 := marks[0 := true];
    assert m2[1..] == marks[1..];
    var r := Inject(insts, marks);
    var tail := Inject(insts[1..], marks[1..]);
    assert r == [insts[0]] + tail;
    assert Inject(insts, m2) == [MonitorCallFor(insts[0])] + [insts[0]] + tail;
    assert r[..0] == [] && r[0..] == r;
  }

  /** With nothing marked, nothing is inserted. */
  lemma {:induction false} InjectNone(insts: seq<Instruction>, marks: seq<bool>)
    requires Markable(insts, marks) && forall j :: 0 <= j < |marks| ==> !marks[j]
    ensures Inject(insts, marks) == insts
    decreases |insts|
  {
    if insts != [] {
      InjectNone(insts[1..], marks[1..]);
    }
  }

  /** The inserted monitor calls: calls whose result is an injected value. */
  predicate IsMonitorCall(i: Instruction) {
    i.Call? && i.res.Injected?
  }

  /** Drops the inserted monitor calls. */
  function Strip(insts: seq<Instruction>): (r: seq<Instruction>)
    ensures |r| <= |insts|
    decreases |insts|
  {
    if insts == [] then []
    else (if IsMonitorCall(insts[0]) then [] else [insts[0]]) + Strip(insts[1..])
  }

  /**
    Dropping the monitor calls again gives back the original block: the
    original instructions are all kept, in their order.
  */
  lemma {:induction false} StripInject(insts: seq<Instruction>, marks: seq<bool>)
    requires Markable(insts, marks)
    requires forall j :: 0 <= j < |insts| ==> !IsMonitorCall(insts[j])
    ensures Strip(Inject(insts, marks)) == insts
    decreases |insts|
  {
    if insts != [] {
      StripInject(insts[1..], marks[1..]);
      var tail := Inject(insts[1..], marks[1..]);
      if marks[0] {
        var m := MonitorCallFor(insts[0]);
        assert Inject(insts, marks) == [m] + ([insts[0]] + tail);
        assert ([m] + ([insts[0]] + tail))[1..] == [insts[0]] + tail;
        assert ([insts[0]] + tail)[1..] == tail;
      } else {
        assert Inject(insts, marks) == [insts[0]] + tail;
        assert ([insts[0]] + tail)[1..] == tail;
      }
    }
  }

  /** The marks of the events of a block of the function named `fname`. */
  function EventMarks(fname: string, insts: seq<Instruction>): (m: seq<bool>)
    ensures Markable(insts, m)
    ensures forall j :: 0 <= j < |insts| ==> m[j] == MatchesEvent(fname, insts[j])
  {
    seq(|insts|, j requires 0 <= j < |insts| => MatchesEvent(fname, insts[j]))
  }

  function InstrumentBlock(fname: string, b: Block): Block {
    Block(Inject(b.insts, EventMarks(fname, b.insts)), b.succs)
  }

  /** The function after IRMInliner::runOnFunction: every block instrumented, all else kept. */
  function InstrumentFunction(f: Function): (r: Function)
    ensures r.name == f.name && r.params == f.params && |r.blocks| == |f.blocks|
    ensures forall b :: 0 <= b < |f.blocks| ==> r.blocks[b] == InstrumentBlock(f.name, f.blocks[b])
  {
    f.(blocks := seq(|f.blocks|, b requires 0 <= b < |f.blocks| => InstrumentBlock(f.name, f.blocks[b])))
  }

  /** Whether the function holds at least one event, that is, whether the pass inserts anything. */
  predicate HasEvents(f: Function) {
    exists b, j :: 0 <= b < |f.blocks| && 0 <= j < |f.blocks[b].insts| && MatchesEvent(f.name, f.blocks[b].insts[j])
  }

  /**
    Every event of the function ends up immediately preceded by
    `irmCall(arg0, 42)`, and every original instruction is still there, in
    its order, with one more instruction per event in the block.
  */
  lemma InstrumentGuardsEvents(f: Function, b: nat, j: nat)
    requires b < |f.blocks| && j < |f.blocks[b].insts|
    ensures var insts := f.blocks[b].insts;
      var marks := EventMarks(f.name, insts);
      var out := InstrumentFunction(f).blocks[b].insts;
      var p := j + CountTrue(marks[..j]);
      && |out| == |insts| + CountTrue(marks)
      && (MatchesEvent(f.name, insts[j]) ==> p + 1 < |out| && out[p] == MonitorCallFor(insts[j]) && out[p + 1] == insts[j])
      && (!MatchesEvent(f.name, insts[j]) ==> p < |out| && out[p] == insts[j])
  {
    var insts := f.blocks[b].insts;
    InjectLength(insts, EventMarks(f.name, insts));
    InjectPlacement(insts, EventMarks(f.name, insts), j);
  }

  /** Instrumenting and then dropping the monitor calls gives back each block. */
  lemma InstrumentThenStrip(f: Function, b: nat)
    requires b < |f.blocks|
    requires forall j :: 0 <= j < |f.blocks[b].insts| ==> !IsMonitorCall(f.blocks[b].insts[j])
    ensures Strip(InstrumentFunction(f).blocks[b].insts) == f.blocks[b].insts
    ensures InstrumentFunction(f).blocks[b].succs == f.blocks[b].succs
  {
    StripInject(f.blocks[b].insts, EventMarks(f.name, f.blocks[b].insts));
  }

  /** A function whose name starts with "irm" (the monitor among them) is left as it is. */
  lemma {:induction false} ReservedFunctionsUntouched(f: Function)
    requires StartsWith(f.name, ReservedPrefix)
    ensures InstrumentFunction(f) == f
    ensures !HasEvents(f)
  {
    forall b | 0 <= b < |f.blocks|
      ensures InstrumentFunction(f).blocks[b] == f.blocks[b]
    {
      InjectNone(f.blocks[b].insts, EventMarks(f.name, f.blocks[b].insts));
    }
  }

  /**
    The inserted call is itself an event of any function the pass
    instruments; the pass therefore collects every injection point before
    it inserts anything, and a second run would instrument again.
  */
  lemma MonitorCallIsEvent(fname: string, i: Instruction)
    requires MatchesEvent(fname, i)
    ensures MatchesEvent(fname, MonitorCallFor(i))
  {
  }

  /**
    Without the "irm" name check the monitor would guard its own call of
    exit, whose argument is an integer.
  */
  lemma MonitorBodyHasEventShape()
    ensures IsEvent(MonitorBlocks()[1].insts[2])
    ensures StartsWith(MonitorName, ReservedPrefix)
  {
  }

  /**
    At an instrumented event whose first argument has at least 6 bits, the
    monitor exits with status 1 exactly when that argument equals 42.
  */
  lemma GuardExitsOnMarker(i: Instruction, actual: int, fuel: nat)
    requires IsEvent(i) && TypeOf(i.args[0]).bits >= 6 && fuel >= 11
    ensures var m := MonitorCallFor(i);
      InvokeMonitor(actual, m.args[1].n, fuel) ==
        if actual == MarkerValue then Exited(1, [actual]) else Returned([])
  {
    MonitorExitsIffEqual(actual, MarkerValue, fuel);
  }

  /** Module::getFunction: the index of the first function of the table with that name. */
  function FindFunction(fns: seq<Function>, name: string): (r: Option<nat>)
    ensures r.Some? ==> r.value < |fns| && fns[r.value].name == name
    ensures r.None? <==> forall k :: 0 <= k < |fns| ==> fns[k].name != name
    decreases |fns|
  {
    if fns == [] then None
    else
      var n := |fns| - 1;
      match FindFunction(fns[..n], name)
      case Some(k) => Some(k)
      case None => if fns[n].name == name then Some(n) else None
  }

  lemma FindAppended(fns: seq<Function>, decl: Function)
    requires FindFunction(fns, decl.name).None?
    ensures FindFunction(fns + [decl], decl.name) == Some(|fns|)
  {
    assert (fns + [decl])[..|fns|] == fns;
  }

  /** Two tables whose functions carry the same names, position by position. */
  predicate SameNames(a: seq<Function>, b: seq<Function>) {
    |a| == |b| && forall k :: 0 <= k < |a| ==> a[k].name == b[k].name
  }

  lemma {:induction false} FindSameNames(a: seq<Function>, b: seq<Function>, name: string)
    requires SameNames(a, b)
    ensures FindFunction(a, name) == FindFunction(b, name)
    decreases |a|
  {
    if a != [] {
      FindSameNames(a[..|a| - 1], b[..|b| - 1], name);
    }
  }

  /** Module::getOrInsertFunction on the table: keep an existing function, else append the declaration. */
  function WithDeclaration(fns: seq<Function>, decl: Function): seq<Function> {
    if FindFunction(fns, decl.name).Some? then fns else fns + [decl]
  }

  /**
    The table after createReferenceMonitor: the monitor with its body is
    appended, then printf and exit are declared unless already present.
  */
  function WithMonitor(fns: seq<Function>): seq<Function> {
    WithDeclaration(WithDeclaration(fns + [MonitorFunction()], PrintfDeclaration()), ExitDeclaration())
  }

  /** The table after getIRMCallPrototype. */
  function WithPrototype(fns: seq<Function>): seq<Function> {
    if FindFunction(fns, MonitorName).Some? then fns else WithMonitor(fns)
  }

  /**
    getIRMCallPrototype keeps every existing function, and afterwards the
    table holds the monitor: the existing one, or the new one appended right
    after the old functions.
  */
  lemma PrototypeFound(fns: seq<Function>)
    ensures |WithPrototype(fns)| >= |fns| && WithPrototype(fns)[..|fns|] == fns
    ensures FindFunction(WithPrototype(fns), MonitorName).Some?
    ensures FindFunction(fns, MonitorName).Some? ==> WithPrototype(fns) == fns
    ensures FindFunction(fns, MonitorName).None? ==>
      FindFunction(WithPrototype(fns), MonitorName) == Some(|fns|) && WithPrototype(fns)[|fns|] == MonitorFunction()
  {
    if FindFunction(fns, MonitorName).None? {
      MonitorAppended(fns, MonitorFunction());
    }
  }

  /**
    Appending a function under a new name, then declaring printf and exit,
    keeps the old table as a prefix and finds the new function right after it.
  */
  lemma MonitorAppended(fns: seq<Function>, m: Function)
    requires FindFunction(fns, m.name).None?
    ensures var t := WithDeclaration(WithDeclaration(fns + [m], PrintfDeclaration()), ExitDeclaration());
      |t| > |fns| && t[..|fns|] == fns && t[|fns|] == m && FindFunction(t, m.name) == Some(|fns|)
  {
    var t1 := fns + [m];
    FindAppended(fns, m);
    var t2 := WithDeclaration(t1, PrintfDeclaration());
    var t3 := WithDeclaration(t2, ExitDeclaration());
    assert t2[..|t1|] == t1;
    assert t3[..|t2|] == t2;
    FindSameNames(t2[..|t1|], t1, m.name);
    assert t3[..|fns|] == fns;
    assert t3[|fns|] == m;
    FindPrefix(t3, |t1|, m.name);
  }

  /** A name found in a prefix of the table is found at the same index in the whole table. */
  lemma {:induction false} FindPrefix(fns: seq<Function>, n: nat, name: string)
    requires n <= |fns| && FindFunction(fns[..n], name).Some?
    ensures FindFunction(fns, name) == FindFunction(fns[..n], name)
    decreases |fns|
  {
    if n < |fns| {
      var m := |fns| - 1;
      assert fns[..m][..n] == fns[..n];
      FindPrefix(fns[..m], n, name);
    } else {
      assert fns[..n] == fns;
    }
  }

  /** A second getIRMCallPrototype adds nothing. */
  lemma PrototypeIdempotent(fns: seq<Function>)
    ensures WithPrototype(WithPrototype(fns)) == WithPrototype(fns)
  {
    PrototypeFound(fns);
  }

  lemma DeclarationUpdate(fns: seq<Function>, k: nat, v: Function, decl: Function)
    requires k < |fns| && v.name == fns[k].name
    ensures k < |WithDeclaration(fns, decl)|
    ensures WithDeclaration(fns[k := v], decl) == WithDeclaration(fns, decl)[k := v]
  {
    FindSameNames(fns[k := v], fns, decl.name);
    if FindFunction(fns, decl.name).None? {
      assert (fns + [decl])[k := v] == fns[k := v] + [decl];
    }
  }

  /** getIRMCallPrototype only looks at names, so it commutes with rewriting a function's body. */
  lemma PrototypeUpdate(fns: seq<Function>, k: nat, v: Function)
    requires k < |fns| && v.name == fns[k].name
    ensures k < |WithPrototype(fns)|
    ensures WithPrototype(fns[k := v]) == WithPrototype(fns)[k := v]
  {
    FindSameNames(fns[k := v], fns, MonitorName);
    if FindFunction(fns, MonitorName).None? {
      var t1 := fns + [MonitorFunction()];
      assert (fns[k := v]) + [MonitorFunction()] == t1[k := v];
      DeclarationUpdate(t1, k, v, PrintfDeclaration());
      DeclarationUpdate(WithDeclaration(t1, PrintfDeclaration()), k, v, ExitDeclaration());
    }
  }

  /** Function `g` with `inst` inserted at position `pos` of block `b`. */
  function InsertInto(g: Function, b: nat, pos: nat, inst: Instruction): Function
    requires b < |g.blocks| && pos <= |g.blocks[b].insts|
  {
    g.(blocks := g.blocks[b := Block(Insert(g.blocks[b].insts, pos, inst), g.blocks[b].succs)])
  }

  /** The module: its table of functions, which the pass extends and whose bodies it rewrites. */
  class IrModule {
    var functions: seq<Function>

    constructor (fns: seq<Function>)
      ensures functions == fns
    {
      functions := fns;
    }

    /** Module::getOrInsertFunction. */
    method GetOrInsertFunction(decl: Function) returns (index: nat)
      modifies this
      ensures functions == WithDeclaration(old(functions), decl)
      ensures FindFunction(functions, decl.name) == Some(index)
    {
      var existing := FindFunction(functions, decl.name);
      if existing.Some? {
        index := existing.value;
      } else {
        FindAppended(functions, decl);
        functions := functions + [decl];
        index := |functions| - 1;
      }
    }

    /**
      IRMInliner::createReferenceMonitor: declares `void irmCall(i32, i32)`,
      fills in its three blocks, and declares printf and exit on the way.
    */
    method CreateReferenceMonitor() returns (index: nat)
      requires FindFunction(functions, MonitorName).None?
      modifies this
      ensures functions == WithMonitor(old(functions))
      ensures index == |old(functions)| && functions[index] == MonitorFunction()
    {
      index := GetOrInsertFunction(Function(MonitorName, [Actual, Expected], []));
      functions := functions[index := MonitorFunction()];
      assert functions == old(functions) + [MonitorFunction()];
      var printfIndex := GetOrInsertFunction(PrintfDeclaration());
      var exitIndex := GetOrInsertFunction(ExitDeclaration());
      PrototypeFound(old(functions));
    }

    /** IRMInliner::getIRMCallPrototype: look the monitor up, create it only when absent. */
    method GetIRMCallPrototype() returns (index: nat)
      modifies this
      ensures functions == WithPrototype(old(functions))
      ensures FindFunction(functions, MonitorName) == Some(index)
      ensures index < |functions| && functions[index].name == MonitorName
    {
      var existing := FindFunction(functions, MonitorName);
      if existing.Some? {
        index := existing.value;
      } else {
        index := CreateReferenceMonitor();
        PrototypeFound(old(functions));
      }
    }

    /** The first loop of IRMInliner::runOnFunction: the positions of all events of function `k`. */
    method CollectInjectionPoints(k: nat) returns (points: set<(nat, nat)>)
      requires k < |functions|
      ensures forall b: nat, j: nat :: (b, j) in points <==>
        b < |functions[k].blocks| && j < |functions[k].blocks[b].insts| && MatchesEvent(functions[k].name, functions[k].blocks[b].insts[j])
    {
      var f := functions[k];
      points := {};
      for b := 0 to |f.blocks|
        invariant forall c: nat, j: nat :: (c, j) in points <==>
          c < b && j < |f.blocks[c].insts| && MatchesEvent(f.name, f.blocks[c].insts[j])
      {
        var insts := f.blocks[b].insts;
        for j := 0 to |insts|
          invariant forall c: nat, i: nat :: (c, i) in points <==>
            (c < b && i < |f.blocks[c].insts| && MatchesEvent(f.name, f.blocks[c].insts[i]))
            || (c == b && i < j && MatchesEvent(f.name, insts[i]))
        {
          if MatchesEvent(f.name, insts[j]) {
            points := points + {(b, j)};
          }
        }
      }
    }

    /** An IRBuilder positioned at an instruction: inserts `inst` right before position `pos` of block `b` of function `k`. */
    method InsertBefore(k: nat, b: nat, pos: nat, inst: Instruction)
      requires k < |functions| && b < |functions[k].blocks| && pos <= |functions[k].blocks[b].insts|
      modifies this
      ensures functions == old(functions)[k := InsertInto(old(functions[k]), b, pos, inst)]
    {
      var f := functions[k];
      var block := f.blocks[b];
      var insts := block.insts[..pos] + [inst] + block.insts[pos..];
      functions := functions[k := f.(blocks := f.blocks[b := Block(insts, block.succs)])];
    }

    /**
      One injection: find the event `j` of block `b` of function `k` at its
      current position, get the monitor, and insert `irmCall(arg0, 42)`
      right before the event. `table` is the function table apart from
      function `k`.
    */
    method InjectOne(k: nat, b: nat, j: nat, ghost f: Function, marks: seq<seq<bool>>, ghost table: seq<Function>)
      returns (marks': seq<seq<bool>>)
      requires k < |table| && k < |functions| && table[k].name == f.name
      requires functions == table[k := functions[k]]
      requires Partial(f, functions[k], marks)
      requires b < |f.blocks| && j < |f.blocks[b].insts| && MatchesEvent(f.name, f.blocks[b].insts[j])
      requires !marks[b][j]
      modifies this
      ensures k < |functions|
      ensures marks' == marks[b := marks[b][j := true]]
      ensures Partial(f, functions[k], marks')
      ensures k < |WithPrototype(table)| && functions == WithPrototype(table)[k := functions[k]]
    {
      var pos := j + CountTrue(marks[b][..j]);
      PartialStep(f, functions[k], marks, b, j);
      InjectAt(k, b, pos);
      InjectOneState(f, table, k, old(functions), functions, marks, b, j);
      marks' := marks[b := marks[b][j := true]];
    }

    /**
      The body of the injection loop for the event at position `pos` of
      block `b` of function `k`: fetch (or create) the monitor, then insert
      `irmCall(arg0, 42)` right before the event.
    */
    method InjectAt(k: nat, b: nat, pos: nat)
      requires k < |functions| && b < |functions[k].blocks| && pos < |functions[k].blocks[b].insts|
      requires IsEvent(functions[k].blocks[b].insts[pos])
      modifies this
      ensures k < |WithPrototype(old(functions))|
      ensures functions == WithPrototype(old(functions))
        [k := InsertInto(old(functions[k]), b, pos, MonitorCallFor(old(functions[k]).blocks[b].insts[pos]))]
    {
      PrototypeFound(functions);
      var site := functions[k].blocks[b].insts[pos];
      var irm := GetIRMCallPrototype();
      assert functions[k] == old(functions[k]);
      var call := Call(Injected(site.res), functions[irm].name, [site.args[0], MarkerConstant(TypeOf(site.args[0]))]);
      InsertBefore(k, b, pos, call);
    }

    /**
      IRMInliner::runOnFunction on function `k`: all events are collected
      first, then a monitor call is inserted before each of them, in whatever
      order the set yields them; the result does not depend on that order.
      An event is found again by its block and its index among the original
      instructions, shifted by the calls already inserted before it. The
      monitor is created when the function holds an event and the module has
      none yet. The pass always reports a change.
    */
    method RunOnFunction(k: nat) returns (modified: bool)
      requires k < |functions|
      modifies this
      ensures modified
      ensures k < |WithPrototype(old(functions))|
      ensures functions ==
        (if HasEvents(old(functions[k])) then WithPrototype(old(functions)) else old(functions))
          [k := InstrumentFunction(old(functions[k]))]
    {
      var points := CollectInjectionPoints(k);
      var f := functions[k];
      var marks := InjectAll(k, f, points);
      PartialComplete(f, functions[k], marks, points);
      modified := true;
    }

    /** The second loop of IRMInliner::runOnFunction: one injection per collected point. */
    method InjectAll(k: nat, f: Function, points: set<(nat, nat)>) returns (marks: seq<seq<bool>>)
      requires k < |functions| && functions[k] == f
      requires forall b: nat, j: nat :: (b, j) in points ==>
        b < |f.blocks| && j < |f.blocks[b].insts| && MatchesEvent(f.name, f.blocks[b].insts[j])
      modifies this
      ensures k < |WithPrototype(old(functions))| && k < |functions|
      ensures functions == (if points == {} then old(functions) else WithPrototype(old(functions)))[k := functions[k]]
      ensures Partial(f, functions[k], marks)
      ensures forall b: nat, j: nat :: b < |marks| && j < |marks[b]| ==> (marks[b][j] <==> (b, j) in points)
    {
      PrototypeFound(functions);
      PrototypeIdempotent(functions);
      ghost var original := functions;
      marks := NoMarks(f);
      PartialStart(f, marks);
      var pending := points;
      ghost var done: set<(nat, nat)> := {};
      ghost var table := original;
      while pending != {}
        invariant pending !! done && pending + done == points
        invariant k < |table| && table[k] == f
        invariant table == if done == {} then original else WithPrototype(original)
        invariant k < |functions| && functions == table[k := functions[k]]
        invariant Partial(f, functions[k], marks)
        invariant forall b: nat, j: nat :: b < |marks| && j < |marks[b]| ==> (marks[b][j] <==> (b, j) in done)
        decreases |pending|
      {
        var p :| p in pending;
        ghost var before := marks;
        marks := InjectOne(k, p.0, p.1, f, marks, table);
        assert WithPrototype(table) == WithPrototype(original);
        table := WithPrototype(original);
        MarkOneMore(before, done, p.0, p.1);
        done := done + {p};
        pending := pending - {p};
      }
    }
  }

  /**
    The state of function `g` while the pass works on the function `f`: every
    block holds a monitor call before each of its marked events.
  */
  predicate Partial(f: Function, g: Function, marks: seq<seq<bool>>) {
    && |marks| == |f.blocks|
    && g.name == f.name && g.params == f.params && |g.blocks| == |f.blocks|
    && forall b :: 0 <= b < |f.blocks| ==>
         Markable(f.blocks[b].insts, marks[b]) && g.blocks[b] == Block(Inject(f.blocks[b].insts, marks[b]), f.blocks[b].succs)
  }

  /**
    The event `j` of block `b` sits at `j` plus the number of marks before
    it, and inserting its monitor call there is marking it.
  */
  lemma PartialStep(f: Function, g: Function, marks: seq<seq<bool>>, b: nat, j: nat)
    requires Partial(f, g, marks)
    requires b < |f.blocks| && j < |f.blocks[b].insts| && MatchesEvent(f.name, f.blocks[b].insts[j]) && !marks[b][j]
    ensures var pos := j + CountTrue(marks[b][..j]);
      && b < |g.blocks| && pos < |g.blocks[b].insts| && g.blocks[b].insts[pos] == f.blocks[b].insts[j]
      && IsEvent(g.blocks[b].insts[pos])
      && Partial(f, InsertInto(g, b, pos, MonitorCallFor(f.blocks[b].insts[j])), marks[b := marks[b][j := true]])
  {
    InjectPlacement(f.blocks[b].insts, marks[b], j);
    InjectMark(f.blocks[b].insts, marks[b], j);
  }

  /**
    The state after one injection, as `InjectOne` promises it: the
    rewritten function is one more event further, and every other function
    is as the monitor's creation left it.
  */
  lemma InjectOneState(f: Function, table: seq<Function>, k: nat, before: seq<Function>, after: seq<Function>,
                       marks: seq<seq<bool>>, b: nat, j: nat)
    requires k < |table| && k < |before| && table[k].name == f.name && before == table[k := before[k]]
    requires Partial(f, before[k], marks)
    requires b < |f.blocks| && j < |f.blocks[b].insts| && MatchesEvent(f.name, f.blocks[b].insts[j]) && !marks[b][j]
    requires var pos := j + CountTrue(marks[b][..j]);
      && b < |before[k].blocks| && pos < |before[k].blocks[b].insts| && IsEvent(before[k].blocks[b].insts[pos])
      && k < |WithPrototype(before)|
      && after == WithPrototype(before)[k := InsertInto(before[k], b, pos, MonitorCallFor(before[k].blocks[b].insts[pos]))]
    ensures k < |after| && Partial(f, after[k], marks[b := marks[b][j := true]])
    ensures k < |WithPrototype(table)| && after == WithPrototype(table)[k := after[k]]
  {
    PartialStep(f, before[k], marks, b, j);
    PrototypeUpdate(table, k, before[k]);
  }

  lemma MarkOneMore(marks: seq<seq<bool>>, done: set<(nat, nat)>, b: nat, j: nat)
    requires b < |marks| && j < |marks[b]|
    requires forall c: nat, i: nat :: c < |marks| && i < |marks[c]| ==> (marks[c][i] <==> (c, i) in done)
    ensures var m := marks[b := marks[b][j := true]];
      forall c: nat, i: nat :: c < |m| && i < |m[c]| ==> (m[c][i] <==> (c, i) in done + {(b, j)})
  {
  }

  /** No mark in any block of `f`. */
  function NoMarks(f: Function): (marks: seq<seq<bool>>)
    ensures |marks| == |f.blocks|
    ensures forall b :: 0 <= b < |f.blocks| ==> |marks[b]| == |f.blocks[b].insts| && forall j :: 0 <= j < |marks[b]| ==> !marks[b][j]
  {
    seq(|f.blocks|, b requires 0 <= b < |f.blocks| => seq(|f.blocks[b].insts|, _ => false))
  }

  /** Nothing marked yet: the function as it was. */
  lemma PartialStart(f: Function, marks: seq<seq<bool>>)
    requires |marks| == |f.blocks|
    requires forall b :: 0 <= b < |f.blocks| ==> |marks[b]| == |f.blocks[b].insts| && forall j :: 0 <= j < |marks[b]| ==> !marks[b][j]
    ensures Partial(f, f, marks)
  {
    forall b | 0 <= b < |f.blocks|
      ensures Inject(f.blocks[b].insts, marks[b]) == f.blocks[b].insts
    {
      InjectNone(f.blocks[b].insts, marks[b]);
    }
  }

  /**
    Once exactly the collected events are marked, the function is fully
    instrumented, and something was inserted exactly when it has events.
  */
  lemma PartialComplete(f: Function, g: Function, marks: seq<seq<bool>>, points: set<(nat, nat)>)
    requires Partial(f, g, marks)
    requires forall b: nat, j: nat :: b < |marks| && j < |marks[b]| ==> (marks[b][j] <==> (b, j) in points)
    requires forall b: nat, j: nat :: (b, j) in points <==>
      b < |f.blocks| && j < |f.blocks[b].insts| && MatchesEvent(f.name, f.blocks[b].insts[j])
    ensures g == InstrumentFunction(f)
    ensures HasEvents(f) <==> points != {}
  {
    forall b | 0 <= b < |f.blocks|
      ensures marks[b] == EventMarks(f.name, f.blocks[b].insts)
    {
    }
    assert g.blocks == InstrumentFunction(f).blocks;
    if points != {} {
      var p :| p in points;
      assert MatchesEvent(f.name, f.blocks[p.0].insts[p.1]);
    }
  }
}
