/**
  The flow-sensitive parameter-flow pass FlowSensitivePV of ParameterFlow.cpp:
  a LIFO worklist of (block, incoming tracked set) pairs, seeded with the
  blocks that have no predecessor, under one of four loop-handling policies.

  The loop is specified by a step function on an explicit state (`Step`) and a
  fuel-bounded iteration of it (`Run`); the imperative method `TraceArgument`
  is proved to compute exactly `Run`.
*/
module FlowSensitive {
  import opened Ir
  import opened ParameterFlow

  /** The LOOPHANDLER compile-time switch; the source builds with NoHandler. */
  datatype LoopHandler = NoHandler | ProcessOnce | InputDiffers | OutputDiffers

  datatype Entry = Entry(block: nat, facts: set<Value>)

  /** One run of the visitor over a block: what it started from and what it ended with. */
  datatype Visit = Visit(block: nat, incoming: set<Value>, outgoing: set<Value>)

  datatype State = State(
    worklist: seq<Entry>,
    processed: set<nat>,
    knownInputs: map<nat, set<Value>>,
    previousOutputs: map<nat, set<Value>>,
    visits: seq<Visit>)

  /** Whether one of the first `n` blocks lists `b` among its successors. */
  predicate PredecessorBelow(f: Function, b: nat, n: nat)
    requires n <= |f.blocks|
    decreases n
  {
    n > 0 && (b in f.blocks[n - 1].succs || PredecessorBelow(f, b, n - 1))
  }

  predicate HasPredecessor(f: Function, b: nat) {
    PredecessorBelow(f, b, |f.blocks|)
  }

  /** A block has a predecessor exactly when some block lists it among its successors. */
  lemma {:induction false} PredecessorBelowMeans(f: Function, b: nat, n: nat)
    requires n <= |f.blocks|
    ensures PredecessorBelow(f, b, n) <==> exists p, k :: 0 <= p < n && 0 <= k < |f.blocks[p].succs| && f.blocks[p].succs[k] == b
    decreases n
  {
    if n > 0 {
      PredecessorBelowMeans(f, b, n - 1);
      if b in f.blocks[n - 1].succs {
        var k :| 0 <= k < |f.blocks[n - 1].succs| && f.blocks[n - 1].succs[k] == b;
        assert 0 <= n - 1 < n && f.blocks[n - 1].succs[k] == b;
      }
    }
  }

  predicate EntriesValid(f: Function, wl: seq<Entry>) {
    forall k :: 0 <= k < |wl| ==> wl[k].block < |f.blocks|
  }

  /** The seed entries for the first `n` blocks, in block order. */
  function SeedsUpTo(f: Function, a: Value, n: nat): (r: seq<Entry>)
    requires n <= |f.blocks|
    ensures forall k :: 0 <= k < |r| ==> r[k].block < n && r[k].facts == {a}
    decreases n
  {
    if n == 0 then []
    else SeedsUpTo(f, a, n - 1) + if HasPredecessor(f, n - 1) then [] else [Entry(n - 1, {a})]
  }

  function Seeds(f: Function, a: Value): seq<Entry> {
    SeedsUpTo(f, a, |f.blocks|)
  }

  /** Every seed entry carries just the traced argument, for a block without predecessor. */
  lemma {:induction false} SeedsAreEntryBlocks(f: Function, a: Value, n: nat)
    requires n <= |f.blocks|
    ensures forall k :: 0 <= k < |SeedsUpTo(f, a, n)| ==>
      SeedsUpTo(f, a, n)[k].facts == {a} && !HasPredecessor(f, SeedsUpTo(f, a, n)[k].block)
    decreases n
  {
    if n > 0 {
      SeedsAreEntryBlocks(f, a, n - 1);
      var prev := SeedsUpTo(f, a, n - 1);
      var r := SeedsUpTo(f, a, n);
      forall k | 0 <= k < |r|
        ensures r[k].facts == {a} && !HasPredecessor(f, r[k].block)
      {
        if k < |prev| {
          assert r[k] == prev[k];
        }
      }
    }
  }

  /** Every block without predecessor is seeded. */
  lemma {:induction false} SeedsCoverEntryBlocks(f: Function, a: Value, n: nat, b: nat)
    requires b < n <= |f.blocks| && !HasPredecessor(f, b)
    ensures InWorklist(SeedsUpTo(f, a, n), b)
    decreases n
  {
    var prev := SeedsUpTo(f, a, n - 1);
    var r := SeedsUpTo(f, a, n);
    if b < n - 1 {
      SeedsCoverEntryBlocks(f, a, n - 1, b);
      var k :| 0 <= k < |prev| && prev[k].block == b;
      assert r[k] == prev[k];
    } else {
      assert r[|r| - 1].block == b;
    }
  }

  /** The seeds are in strictly increasing block order, so no block is seeded twice. */
  lemma {:induction false} SeedsIncreasing(f: Function, a: Value, n: nat)
    requires n <= |f.blocks|
    ensures forall i, j :: 0 <= i < j < |SeedsUpTo(f, a, n)| ==> SeedsUpTo(f, a, n)[i].block < SeedsUpTo(f, a, n)[j].block
    decreases n
  {
    if n > 0 {
      SeedsIncreasing(f, a, n - 1);
      var prev := SeedsUpTo(f, a, n - 1);
      var r := SeedsUpTo(f, a, n);
      forall i, j | 0 <= i < j < |r|
        ensures r[i].block < r[j].block
      {
        assert r[i] == prev[i];
        if j < |prev| {
          assert r[j] == prev[j];
        }
      }
    }
  }

  function Lookup(m: map<nat, set<Value>>, b: nat): set<Value> {
    if b in m then m[b] else {}
  }

  /**
    The entries the push loop appends for the successors `succs` of a block
    whose outgoing set is `out`. Under ProcessOnce a successor already in
    `processed` is not pushed; otherwise every successor is pushed, in order.
  */
  function Pushes(succs: seq<nat>, out: set<Value>, processed: set<nat>, h: LoopHandler): (r: seq<Entry>)
    ensures forall k :: 0 <= k < |r| ==> r[k].facts == out
    ensures h == ProcessOnce ==> forall k :: 0 <= k < |r| ==> r[k].block !in processed
    ensures h != ProcessOnce ==> |r| == |succs| && forall k :: 0 <= k < |r| ==> r[k].block == succs[k]
    decreases |succs|
  {
    if succs == [] then []
    else
      var n := |succs| - 1;
      Pushes(succs[..n], out, processed, h) + if h == ProcessOnce && succs[n] in processed then [] else [Entry(succs[n], out)]
  }

  /** Every successor that the policy does not exclude is pushed. */
  lemma {:induction false} PushesEverySuccessor(succs: seq<nat>, out: set<Value>, processed: set<nat>, h: LoopHandler, k: nat)
    requires k < |succs| && (h != ProcessOnce || succs[k] !in processed)
    ensures InWorklist(Pushes(succs, out, processed, h), succs[k])
    decreases |succs|
  {
    var n := |succs| - 1;
    var init := Pushes(succs[..n], out, processed, h);
    var r := Pushes(succs, out, processed, h);
    if k < n {
      PushesEverySuccessor(succs[..n], out, processed, h, k);
      var j :| 0 <= j < |init| && init[j].block == succs[..n][k];
      assert r[j] == init[j];
    } else {
      assert r[|r| - 1].block == succs[k];
    }
  }

  /** Every pushed entry names one of the successors, so a block of the function. */
  lemma {:induction false} PushesBelow(succs: seq<nat>, out: set<Value>, processed: set<nat>, h: LoopHandler, bound: nat)
    requires forall i :: 0 <= i < |succs| ==> succs[i] < bound
    ensures forall k :: 0 <= k < |Pushes(succs, out, processed, h)| ==> Pushes(succs, out, processed, h)[k].block < bound
    decreases |succs|
  {
    if succs != [] {
      var n := |succs| - 1;
      PushesBelow(succs[..n], out, processed, h, bound);
      var init := Pushes(succs[..n], out, processed, h);
      assert Pushes(succs, out, processed, h)[..|init|] == init;
    }
  }

  /** One iteration of the worklist loop. */
  function Step(f: Function, h: LoopHandler, s: State): State
    requires s.worklist != [] && s.worklist[|s.worklist| - 1].block < |f.blocks|
  {
    var n := |s.worklist|;
    var cur := s.worklist[n - 1];
    var rest := s.worklist[..n - 1];
    var known := Lookup(s.knownInputs, cur.block);
    if h == InputDiffers && known != {} && known == cur.facts then
      s.(worklist := rest)
    else
      var out := Flow(cur.facts, f.blocks[cur.block].insts);
      var processed := if h == ProcessOnce then s.processed + {cur.block} else s.processed;
      var inputs := if h == InputDiffers then s.knownInputs[cur.block := cur.facts] else s.knownInputs;
      var visits := s.visits + [Visit(cur.block, cur.facts, out)];
      var previous := Lookup(s.previousOutputs, cur.block);
      if h == OutputDiffers && previous != {} && previous == out then
        State(rest, processed, inputs, s.previousOutputs, visits)
      else
        var outputs := if h == OutputDiffers then s.previousOutputs[cur.block := out] else s.previousOutputs;
        State(rest + Pushes(f.blocks[cur.block].succs, out, processed, h), processed, inputs, outputs, visits)
  }

  /**
    A step pops the last entry, keeps the rest of the worklist as it was, and
    only pushes entries naming blocks of the function.
  */
  lemma StepShape(f: Function, h: LoopHandler, s: State)
    requires WellFormed(f) && s.worklist != [] && EntriesValid(f, s.worklist)
    ensures var r := Step(f, h, s);
      && EntriesValid(f, r.worklist)
      && |r.worklist| >= |s.worklist| - 1
      && r.worklist[..|s.worklist| - 1] == s.worklist[..|s.worklist| - 1]
  {
    var cur := s.worklist[|s.worklist| - 1];
    var pushed := StepWorklist(f, h, s);
    PushesBelow(f.blocks[cur.block].succs, pushed.0, pushed.1, h, |f.blocks|);
    PopPush(f, s.worklist, Step(f, h, s).worklist, Pushes(f.blocks[cur.block].succs, pushed.0, pushed.1, h));
  }

  /** Popping the last entry and maybe appending valid entries keeps the worklist valid and its prefix intact. */
  lemma PopPush(f: Function, wl: seq<Entry>, w: seq<Entry>, pushes: seq<Entry>)
    requires wl != [] && EntriesValid(f, wl) && EntriesValid(f, pushes)
    requires w == wl[..|wl| - 1] || w == wl[..|wl| - 1] + pushes
    ensures EntriesValid(f, w) && |w| >= |wl| - 1 && w[..|wl| - 1] == wl[..|wl| - 1]
  {
    var rest := wl[..|wl| - 1];
    if w != rest {
      assert w[..|rest|] == rest;
      forall k | 0 <= k < |w|
        ensures w[k].block < |f.blocks|
      {
        if k >= |rest| {
          assert w[k] == pushes[k - |rest|];
        } else {
          assert w[k] == wl[k];
        }
      }
    }
  }

  /**
    The worklist after a step is the popped one, possibly followed by the
    pushes for the popped block's successors under the returned outgoing
    set and processed set.
  */
  lemma StepWorklist(f: Function, h: LoopHandler, s: State) returns (pushed: (set<Value>, set<nat>))
    requires s.worklist != [] && s.worklist[|s.worklist| - 1].block < |f.blocks|
    ensures var n := |s.worklist|;
      var cur := s.worklist[n - 1];
      || Step(f, h, s).worklist == s.worklist[..n - 1]
      || Step(f, h, s).worklist == s.worklist[..n - 1] + Pushes(f.blocks[cur.block].succs, pushed.0, pushed.1, h)
  {
    var cur := s.worklist[|s.worklist| - 1];
    pushed := (Flow(cur.facts, f.blocks[cur.block].insts), if h == ProcessOnce then s.processed + {cur.block} else s.processed);
  }

  /** At most `fuel` iterations of the loop, stopping early when the worklist is empty. */
  function Run(f: Function, h: LoopHandler, s: State, fuel: nat): State
    requires WellFormed(f) && EntriesValid(f, s.worklist)
    decreases fuel
  {
    if s.worklist == [] || fuel == 0 then s
    else
      StepShape(f, h, s);
      Run(f, h, Step(f, h, s), fuel - 1)
  }

  function Initial(f: Function, a: Value): (r: State)
    ensures EntriesValid(f, r.worklist)
  {
    State(Seeds(f, a), {}, map[], map[], [])
  }

  /**
    What holds of every state, under every policy: each pending entry carries
    the traced argument, and each recorded visit ran the block's instructions
    from an incoming set containing the argument.
  */
  ghost predicate Carries(f: Function, s: State, a: Value) {
    && (forall k :: 0 <= k < |s.worklist| ==> a in s.worklist[k].facts)
    && (forall k :: 0 <= k < |s.visits| ==>
          s.visits[k].block < |f.blocks| && a in s.visits[k].incoming
          && s.visits[k].outgoing == Flow(s.visits[k].incoming, f.blocks[s.visits[k].block].insts))
  }

  lemma StepCarries(f: Function, h: LoopHandler, s: State, a: Value)
    requires WellFormed(f) && s.worklist != [] && EntriesValid(f, s.worklist)
    requires Carries(f, s, a)
    ensures Carries(f, Step(f, h, s), a)
  {
    var cur := s.worklist[|s.worklist| - 1];
    FlowGrows(cur.facts, f.blocks[cur.block].insts);
    var r := Step(f, h, s);
    forall k | |s.worklist| - 1 <= k < |r.worklist|
      ensures a in r.worklist[k].facts
    {
    }
  }

  lemma {:induction false} RunCarries(f: Function, h: LoopHandler, s: State, a: Value, fuel: nat)
    requires WellFormed(f) && EntriesValid(f, s.worklist)
    requires Carries(f, s, a)
    ensures Carries(f, Run(f, h, s, fuel), a)
    decreases fuel
  {
    if s.worklist != [] && fuel != 0 {
      StepShape(f, h, s);
      StepCarries(f, h, s, a);
      RunCarries(f, h, Step(f, h, s), a, fuel - 1);
    }
  }

  /**
    Under every policy, every visit of a run from the seed starts from a set
    holding the traced argument and ends with a superset of what it started from.
  */
  lemma RunFromSeedCarriesArgument(f: Function, h: LoopHandler, a: Value, fuel: nat)
    requires WellFormed(f)
    ensures var r := Run(f, h, Initial(f, a), fuel);
      forall k :: 0 <= k < |r.visits| ==>
        a in r.visits[k].incoming && r.visits[k].incoming <= r.visits[k].outgoing
  {
    RunCarries(f, h, Initial(f, a), a, fuel);
    var r := Run(f, h, Initial(f, a), fuel);
    forall k | 0 <= k < |r.visits|
      ensures r.visits[k].incoming <= r.visits[k].outgoing
    {
      FlowGrows(r.visits[k].incoming, f.blocks[r.visits[k].block].insts);
    }
  }

  /**
    Under ProcessOnce the popped block becomes processed, and no entry the
    step pushes names a processed block.
  */
  lemma ProcessOnceNeverRepushes(f: Function, s: State)
    requires WellFormed(f) && s.worklist != [] && EntriesValid(f, s.worklist)
    ensures var r := Step(f, ProcessOnce, s);
      && r.processed == s.processed + {s.worklist[|s.worklist| - 1].block}
      && forall k :: |s.worklist| - 1 <= k < |r.worklist| ==> r.worklist[k].block !in r.processed
  {
    var n := |s.worklist|;
    var cur := s.worklist[n - 1];
    var pushed := Pushes(f.blocks[cur.block].succs, Flow(cur.facts, f.blocks[cur.block].insts), s.processed + {cur.block}, ProcessOnce);
    var r := Step(f, ProcessOnce, s);
    assert r.worklist == s.worklist[..n - 1] + pushed;
    forall k | n - 1 <= k < |r.worklist|
      ensures r.worklist[k].block !in r.processed
    {
      assert r.worklist[k] == pushed[k - (n - 1)];
    }
  }

  function Unprocessed(f: Function, processed: set<nat>): set<nat> {
    set b | 0 <= b < |f.blocks| && b !in processed
  }

  /** The number of pending entries whose block is in `done`. */
  function CountIn(wl: seq<Entry>, done: set<nat>): nat
    decreases |wl|
  {
    if wl == [] then 0
    else CountIn(wl[..|wl| - 1], done) + if wl[|wl| - 1].block in done then 1 else 0
  }

  lemma {:induction false} CountInConcat(a: seq<Entry>, b: seq<Entry>, done: set<nat>)
    requires forall k :: 0 <= k < |b| ==> b[k].block !in done
    ensures CountIn(a + b, done) == CountIn(a, done)
    decreases |b|
  {
    if b == [] {
      assert a + b == a;
    } else {
      assert (a + b)[..|a + b| - 1] == a + b[..|b| - 1];
      CountInConcat(a, b[..|b| - 1], done);
    }
  }

  /**
    Under ProcessOnce each step either processes a new block or consumes an
    entry of an already processed block without adding any such entry.
  */
  lemma ProcessOnceProgress(f: Function, s: State)
    requires WellFormed(f) && s.worklist != [] && EntriesValid(f, s.worklist)
    ensures var r := Step(f, ProcessOnce, s);
      || |Unprocessed(f, r.processed)| < |Unprocessed(f, s.processed)|
      || (Unprocessed(f, r.processed) == Unprocessed(f, s.processed)
          && CountIn(r.worklist, r.processed) < CountIn(s.worklist, s.processed))
  {
    var n := |s.worklist|;
    var cur := s.worklist[n - 1];
    var r := Step(f, ProcessOnce, s);
    ProcessOnceNeverRepushes(f, s);
    if cur.block in s.processed {
      assert r.processed == s.processed;
      var rest := s.worklist[..n - 1];
      assert s.worklist == rest + [cur];
      var pushed := r.worklist[n - 1..];
      assert r.worklist == rest + pushed;
      CountInConcat(rest, pushed, r.processed);
      assert s.worklist[..n - 1] == rest;
    } else {
      assert Unprocessed(f, r.processed) == Unprocessed(f, s.processed) - {cur.block};
      assert cur.block in Unprocessed(f, s.processed);
    }
  }

  /**
    Under ProcessOnce the loop terminates: this many iterations empty the
    worklist from any state.
  */
  ghost function StepsToFixpoint(f: Function, s: State): (n: nat)
    requires WellFormed(f) && EntriesValid(f, s.worklist)
    ensures Run(f, ProcessOnce, s, n).worklist == []
    decreases |Unprocessed(f, s.processed)|, CountIn(s.worklist, s.processed)
  {
    if s.worklist == [] then 0
    else
      ProcessOnceProgress(f, s);
      StepShape(f, ProcessOnce, s);
      1 + StepsToFixpoint(f, Step(f, ProcessOnce, s))
  }

  predicate InWorklist(wl: seq<Entry>, b: nat) {
    exists k :: 0 <= k < |wl| && wl[k].block == b
  }

  /**
    The ProcessOnce loop invariant: every root and every successor of a
    processed block is processed or still pending, and every processed block
    has been visited.
  */
  ghost predicate Covered(f: Function, s: State, roots: set<nat>) {
    && (forall b :: b in roots ==> b in s.processed || InWorklist(s.worklist, b))
    && (forall p, k :: p in s.processed && 0 <= p < |f.blocks| && 0 <= k < |f.blocks[p].succs| ==>
          f.blocks[p].succs[k] in s.processed || InWorklist(s.worklist, f.blocks[p].succs[k]))
    && (forall b :: b in s.processed ==> exists k :: 0 <= k < |s.visits| && s.visits[k].block == b)
  }

  lemma StepCovers(f: Function, s: State, roots: set<nat>)
    requires WellFormed(f) && s.worklist != [] && EntriesValid(f, s.worklist)
    requires Covered(f, s, roots)
    ensures Covered(f, Step(f, ProcessOnce, s), roots)
  {
    var n := |s.worklist|;
    var cur := s.worklist[n - 1];
    var r := Step(f, ProcessOnce, s);
    var succs := f.blocks[cur.block].succs;
    var out := Flow(cur.facts, f.blocks[cur.block].insts);
    var pushed := Pushes(succs, out, r.processed, ProcessOnce);
    assert r.worklist == s.worklist[..n - 1] + pushed;
    assert r.processed == s.processed + {cur.block};
    assert r.visits == s.visits + [Visit(cur.block, cur.facts, out)];
    // a block pending in s is processed in r or still pending in r
    forall b | InWorklist(s.worklist, b)
      ensures b in r.processed || InWorklist(r.worklist, b)
    {
      var k :| 0 <= k < n && s.worklist[k].block == b;
      if k < n - 1 {
        assert r.worklist[k] == s.worklist[k];
      }
    }
    forall p, k | p in r.processed && 0 <= p < |f.blocks| && 0 <= k < |f.blocks[p].succs|
      ensures f.blocks[p].succs[k] in r.processed || InWorklist(r.worklist, f.blocks[p].succs[k])
    {
      var b := f.blocks[p].succs[k];
      if p == cur.block {
        if b !in r.processed {
          PushesEverySuccessor(succs, out, r.processed, ProcessOnce, k);
          var j :| 0 <= j < |pushed| && pushed[j].block == succs[k];
          assert r.worklist[n - 1 + j] == pushed[j];
        }
      }
    }
    forall b | b in r.processed
      ensures exists k :: 0 <= k < |r.visits| && r.visits[k].block == b
    {
      if b == cur.block {
        assert r.visits[|s.visits|].block == b;
      } else {
        var k :| 0 <= k < |s.visits| && s.visits[k].block == b;
        assert r.visits[k] == s.visits[k];
      }
    }
  }

  lemma {:induction false} RunCovers(f: Function, s: State, roots: set<nat>, fuel: nat)
    requires WellFormed(f) && EntriesValid(f, s.worklist)
    requires Covered(f, s, roots)
    ensures Covered(f, Run(f, ProcessOnce, s, fuel), roots)
    decreases fuel
  {
    if s.worklist != [] && fuel != 0 {
      StepShape(f, ProcessOnce, s);
      StepCovers(f, s, roots);
      RunCovers(f, Step(f, ProcessOnce, s), roots, fuel - 1);
    }
  }

  /**
    Under ProcessOnce, the run from the seed ends with an empty worklist having
    visited every block without predecessor and every successor of every
    visited block, each time from an incoming set holding the argument.
  */
  lemma ProcessOnceVisitsReachableBlocks(f: Function, a: Value)
    requires WellFormed(f)
    ensures var r := Run(f, ProcessOnce, Initial(f, a), StepsToFixpoint(f, Initial(f, a)));
      && r.worklist == []
      && (forall b :: 0 <= b < |f.blocks| && !HasPredecessor(f, b) ==> b in r.processed)
      && (forall p, k :: p in r.processed && 0 <= p < |f.blocks| && 0 <= k < |f.blocks[p].succs| ==>
            f.blocks[p].succs[k] in r.processed)
      && (forall b :: b in r.processed ==> exists k :: 0 <= k < |r.visits| && r.visits[k].block == b && a in r.visits[k].incoming)
  {
    var s0 := Initial(f, a);
    var roots := set b | 0 <= b < |f.blocks| && !HasPredecessor(f, b);
    forall b | b in roots
      ensures InWorklist(s0.worklist, b)
    {
      SeedsCoverEntryBlocks(f, a, |f.blocks|, b);
    }
    assert Covered(f, s0, roots);
    var fuel := StepsToFixpoint(f, s0);
    RunCovers(f, s0, roots, fuel);
    RunCarries(f, ProcessOnce, s0, a, fuel);
    var r := Run(f, ProcessOnce, s0, fuel);
    forall b | 0 <= b < |f.blocks| && !HasPredecessor(f, b)
      ensures b in r.processed
    {
      assert b in roots;
    }
  }

  lemma RunUnfold(f: Function, h: LoopHandler, s: State, fuel: nat)
    requires WellFormed(f) && EntriesValid(f, s.worklist) && s.worklist != [] && fuel > 0
    ensures EntriesValid(f, Step(f, h, s).worklist)
    ensures Run(f, h, s, fuel) == Run(f, h, Step(f, h, s), fuel - 1)
  {
    StepShape(f, h, s);
  }

  /** A run stops when the worklist is empty or the fuel is spent. */
  lemma RunStops(f: Function, h: LoopHandler, s: State, fuel: nat)
    requires WellFormed(f) && EntriesValid(f, s.worklist) && (s.worklist == [] || fuel == 0)
    ensures Run(f, h, s, fuel) == s
  {
  }

  /** A fresh FlowIV seeded with the entry's incoming values visits the entry's block. */
  method VisitEntry(f: Function, current: Entry) returns (outgoing: set<Value>)
    requires current.block < |f.blocks|
    ensures outgoing == Flow(current.facts, f.blocks[current.block].insts)
  {
    var visitor := new FlowVisitor();
    var pending := current.facts;
    while pending != {}
      invariant pending <= current.facts
      invariant visitor.trackedValues == current.facts - pending
      decreases |pending|
    {
      var v :| v in pending;
      visitor.AddTrackedValue(v);
      pending := pending - {v};
    }
    assert visitor.trackedValues == current.facts;
    visitor.VisitBlock(f.blocks[current.block].insts);
    outgoing := visitor.trackedValues;
  }

  /** The push loop over the terminator's successors. */
  method PushSuccessors(worklist: seq<Entry>, succs: seq<nat>, out: set<Value>, processed: set<nat>, h: LoopHandler)
    returns (wl: seq<Entry>)
    ensures wl == worklist + Pushes(succs, out, processed, h)
  {
    wl := worklist;
    for k := 0 to |succs|
      invariant wl == worklist + Pushes(succs[..k], out, processed, h)
    {
      assert succs[..k + 1][..k] == succs[..k];
      if h != ProcessOnce || succs[k] !in processed {
        wl := wl + [Entry(succs[k], out)];
      }
    }
    assert succs[..|succs|] == succs;
  }

  /**
    One iteration of the worklist loop: pop the last entry, skip it or visit
    its block, record what the policy needs, and push the successors.
  */
  method ProcessEntry(f: Function, h: LoopHandler, st: State) returns (next: State)
    requires st.worklist != [] && st.worklist[|st.worklist| - 1].block < |f.blocks|
    ensures next == Step(f, h, st)
  {
    var current := st.worklist[|st.worklist| - 1];
    var worklist := st.worklist[..|st.worklist| - 1];
    var processed := st.processed;
    var knownInputs := st.knownInputs;
    var previousOutputs := st.previousOutputs;

    if h == InputDiffers {
      var processedBeforeWith := Lookup(knownInputs, current.block);
      var same := ValueSetsAreEqual(current.facts, processedBeforeWith);
      if |processedBeforeWith| > 0 && same {
        return st.(worklist := worklist);
      }
    }

    var outgoingTracked := VisitEntry(f, current);
    var visits := st.visits + [Visit(current.block, current.facts, outgoingTracked)];

    if h == ProcessOnce {
      processed := processed + {current.block};
    }
    if h == InputDiffers {
      if current.block in knownInputs {
        knownInputs := knownInputs - {current.block};
      }
      knownInputs := knownInputs[current.block := current.facts];
      assert knownInputs == st.knownInputs[current.block := current.facts];
    }
    if h == OutputDiffers {
      if current.block in previousOutputs {
        var previousOutput := previousOutputs[current.block];
        var same := ValueSetsAreEqual(outgoingTracked, previousOutput);
        if |previousOutput| > 0 && same {
          return State(worklist, processed, knownInputs, previousOutputs, visits);
        }
        previousOutputs := previousOutputs - {current.block};
      }
      previousOutputs := previousOutputs[current.block := outgoingTracked];
      assert previousOutputs == st.previousOutputs[current.block := outgoingTracked];
    }

    worklist := PushSuccessors(worklist, f.blocks[current.block].succs, outgoingTracked, processed, h);
    next := State(worklist, processed, knownInputs, previousOutputs, visits);
  }

  /** The seeding loop: one entry carrying just the argument for each block without predecessor. */
  method SeedWorklist(f: Function, a: Value) returns (worklist: seq<Entry>)
    ensures worklist == Seeds(f, a)
  {
    worklist := [];
    for b := 0 to |f.blocks|
      invariant worklist == SeedsUpTo(f, a, b)
    {
      if !HasPredecessor(f, b) {
        worklist := worklist + [Entry(b, {a})];
      }
    }
  }

  /** One iteration of the loop: the rest of the run, one step shorter, still ends in `target`. */
  method Advance(f: Function, h: LoopHandler, s: State, ghost rest: nat, ghost target: State) returns (next: State)
    requires WellFormed(f) && EntriesValid(f, s.worklist) && s.worklist != []
    requires Run(f, h, s, rest + 1) == target
    ensures EntriesValid(f, next.worklist)
    ensures Run(f, h, next, rest) == target
  {
    RunUnfold(f, h, s, rest + 1);
    next := ProcessEntry(f, h, s);
  }

  /** The worklist loop from state `s0`, for at most `fuel` iterations. */
  method LoopFrom(f: Function, h: LoopHandler, s0: State, fuel: nat, ghost target: State) returns (s: State)
    requires WellFormed(f) && EntriesValid(f, s0.worklist) && Run(f, h, s0, fuel) == target
    ensures s == target
  {
    s := s0;
    var left := fuel;
    while s.worklist != [] && left > 0
      invariant EntriesValid(f, s.worklist)
      invariant Run(f, h, s, left) == target
      decreases left
    {
      left := left - 1;
      s := Advance(f, h, s, left, target);
    }
    RunStops(f, h, s, left);
  }

  /**
    The loop for one traced argument, as FlowSensitivePV::runOnFunction runs
    it, bounded by `fuel` iterations.
  */
  method TraceArgument(f: Function, a: Value, h: LoopHandler, fuel: nat) returns (s: State)
    requires WellFormed(f)
    ensures s == Run(f, h, Initial(f, a), fuel)
  {
    var worklist := SeedWorklist(f, a);
    s := LoopFrom(f, h, State(worklist, {}, map[], map[], []), fuel, Run(f, h, Initial(f, a), fuel));
  }

  /** Appending the next element of `xs` to its first `k` elements gives its first `k + 1`. */
  lemma PrefixGrows<T>(xs: seq<T>, k: nat, prefix: seq<T>, next: T)
    requires k < |xs| && prefix == xs[..k] && next == xs[k]
    ensures prefix + [next] == xs[..k + 1]
  {
    assert xs[..k + 1] == xs[..k] + [xs[k]];
  }

  /**
    FlowSensitivePV::runOnFunction: one worklist run per formal argument; the
    pass never changes the function.
  */
  method RunOnFunction(f: Function, h: LoopHandler, fuel: nat) returns (modified: bool, runs: seq<State>)
    requires WellFormed(f)
    ensures !modified
    ensures |runs| == |f.params|
    ensures forall k :: 0 <= k < |f.params| ==> runs[k] == Run(f, h, Initial(f, f.params[k]), fuel)
  {
    ghost var expected := seq(|f.params|, k requires 0 <= k < |f.params| => Run(f, h, Initial(f, f.params[k]), fuel));
    runs := [];
    for k := 0 to |f.params|
      invariant runs == expected[..k]
    {
      var s := TraceArgument(f, f.params[k], h, fuel);
      PrefixGrows(expected, k, runs, s);
      runs := runs + [s];
    }
    assert runs == expected;
    modified := false;
  }
}
