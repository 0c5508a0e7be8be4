/** The pass that instruments hot loads with stride profiling. For each
    function it collects the loads and their block counts, then walks the
    collected loads, numbering each, and guards every hot load inside a loop
    with a skip/profile counter machine that calls the stride runtime. Also
    the pass that inserts the runtime's initialisation call into `main`. */
module StrideProfiling {
  import opened Common
  import opened StrideLoadProfile
  import SH = StrideHooks

  /** Block count a load needs before it is profiled. */
  const FT: nat := 10000
  /** `chunkSize`: the most executions profiled in one round. */
  const CHUNK_SIZE: nat := 30

  // ---------------------------------------------------------------------
  // Which loads are instrumented

  /** A top-level loop as `LoopInfo` describes it: the instructions it
      contains and those of them whose operands are all loop-invariant. */
  datatype Loop = Loop(contains: set<int>, invariantOperands: set<int>)

  /** `isLoadDynamic`: the first top-level loop that contains the load
      exists and does not have the load's operands loop-invariant. */
  predicate Dynamic(loops: seq<Loop>, inst: int) {
    exists i :: 0 <= i < |loops| && inst in loops[i].contains &&
                (forall j :: 0 <= j < i ==> inst !in loops[j].contains) &&
                inst !in loops[i].invariantOperands
  }

  /** The search loop of `isLoadDynamic`. */
  method IsLoadDynamic(loops: seq<Loop>, inst: int) returns (r: bool)
    ensures r == Dynamic(loops, inst)
  {
    var i := 0;
    while i < |loops|
      invariant 0 <= i <= |loops|
      invariant forall j :: 0 <= j < i ==> inst !in loops[j].contains
    {
      if inst in loops[i].contains {
        FirstLoopDecides(loops, inst, i);
        r := inst !in loops[i].invariantOperands;
        return;
      }
      i := i + 1;
    }
    return false;
  }

  /** The first loop that contains the load decides. */
  lemma FirstLoopDecides(loops: seq<Loop>, inst: int, i: nat)
    requires i < |loops| && inst in loops[i].contains
    requires forall j :: 0 <= j < i ==> inst !in loops[j].contains
    ensures Dynamic(loops, inst) <==> inst !in loops[i].invariantOperands
  {
    if Dynamic(loops, inst) {
      var k :| 0 <= k < |loops| && inst in loops[k].contains &&
               (forall j :: 0 <= j < k ==> inst !in loops[j].contains) &&
               inst !in loops[k].invariantOperands;
      assert k == i;
    }
  }

  /** `N2`, the number of executions profiled per round: a twentieth of the
      count, or the count itself when that is below one, capped at 30. */
  function N2Of(exec: nat): int
  {
    var t := exec / 20;
    var t2 := if t < 1 then exec else t;
    if t2 < CHUNK_SIZE then t2 else CHUNK_SIZE
  }

  /** `N1`, the number of executions skipped before profiling: three
      twentieths of the count, zero when every execution is profiled, and
      when the cap is hit the part of the twentieth above the cap is skipped
      as well. */
  function N1Of(exec: nat): int
  {
    var n2 := N2Of(exec);
    var t := (3 * exec) / 20;
    var t1 := if n2 == exec then 0 else t;
    if n2 == CHUNK_SIZE then t1 + exec / 20 - CHUNK_SIZE else t1
  }

  /** The inline computation of `N2` then `N1` in `doStrides`. */
  method ProfileCounts(exec: nat) returns (tmpN1: int, tmpN2: int)
    ensures tmpN1 == N1Of(exec) && tmpN2 == N2Of(exec)
  {
    tmpN2 := exec / 20;
    tmpN2 := if tmpN2 < 1 then exec else tmpN2;
    tmpN2 := if tmpN2 < CHUNK_SIZE then tmpN2 else CHUNK_SIZE;
    tmpN1 := (3 * exec) / 20;
    tmpN1 := if tmpN2 == exec then 0 else tmpN1;
    tmpN1 := if tmpN2 == CHUNK_SIZE then tmpN1 + exec / 20 - CHUNK_SIZE else tmpN1;
  }

  /** The three regimes of `N2`. */
  lemma N2Regimes(exec: nat)
    ensures 0 <= N2Of(exec) <= CHUNK_SIZE
    ensures exec < 20 ==> N2Of(exec) == exec
    ensures 20 <= exec < 600 ==> N2Of(exec) == exec / 20 && 1 <= N2Of(exec) < CHUNK_SIZE
    ensures 600 <= exec ==> N2Of(exec) == CHUNK_SIZE
  {
  }

  /** And of `N1`: nothing is skipped for tiny counts; from 600 on, skipped
      plus profiled is exactly three twentieths plus one twentieth. */
  lemma N1Regimes(exec: nat)
    ensures exec < 20 ==> N1Of(exec) == 0
    ensures 20 <= exec < 600 ==> N1Of(exec) == (3 * exec) / 20
    ensures 600 <= exec ==> N1Of(exec) + N2Of(exec) == (3 * exec) / 20 + exec / 20
    ensures N1Of(exec) >= 0
  {
    N2Regimes(exec);
  }

  /** Every load the pass instruments (count at least `FT`) profiles 30
      executions per round after skipping at least 1970. */
  lemma HotLoadRounds(exec: nat)
    requires exec >= FT
    ensures N2Of(exec) == CHUNK_SIZE
    ensures N1Of(exec) == (3 * exec) / 20 + exec / 20 - CHUNK_SIZE >= 1970
  {
    N2Regimes(exec);
  }

  /** What `doStrides` emits for one load: the load id and the three
      constants baked into the guard and the runtime call. */
  datatype Guard = Guard(loadId: int, load: int, n1: int, n2: int, exec: int)

  /** The guard for a load with this id and count. */
  function GuardFor(loadId: int, load: int, exec: nat): Guard {
    Guard(loadId, load, N1Of(exec), N2Of(exec), exec)
  }

  predicate Selected(loops: seq<Loop>, execOf: map<int, int>, load: int)
    requires load in execOf
  {
    Dynamic(loops, load) && execOf[load] >= FT
  }

  /** The guards `doStrides` emits, walking `loads` with the id counter at
      `start`: every load takes the next id, selected or not. */
  function Instrumented(loops: seq<Loop>, execOf: map<int, int>, start: int, loads: seq<int>): (r: seq<Guard>)
    requires forall l :: l in loads ==> l in execOf
    ensures |r| <= |loads|
  {
    if loads == [] then []
    else
      var n := |loads|;
      var load := loads[n - 1];
      Instrumented(loops, execOf, start, loads[..n - 1]) +
      (if Selected(loops, execOf, load) then [GuardFor(WrapU32(start + n), load, execOf[load])] else [])
  }

  lemma InstrumentedSnoc(loops: seq<Loop>, execOf: map<int, int>, start: int, loads: seq<int>, i: nat)
    requires i < |loads|
    requires forall l :: l in loads ==> l in execOf
    ensures Instrumented(loops, execOf, start, loads[..i + 1]) ==
            Instrumented(loops, execOf, start, loads[..i]) +
            (if Selected(loops, execOf, loads[i]) then [GuardFor(WrapU32(start + i + 1), loads[i], execOf[loads[i]])] else [])
  {
    assert loads[..i + 1][..i] == loads[..i];
  }

  /** `g` is the guard of a selected load of `loads`, with the id of its
      position and 30 profiled executions per round. */
  ghost predicate GuardOk(loops: seq<Loop>, execOf: map<int, int>, start: int, loads: seq<int>, g: Guard)
    requires forall l :: l in loads ==> l in execOf
  {
    exists i :: 0 <= i < |loads| && loads[i] == g.load && g.loadId == WrapU32(start + i + 1) &&
                Selected(loops, execOf, g.load) && g.exec == execOf[g.load] && g.n2 == CHUNK_SIZE
  }

  /** Every guard is for a selected load, at the position its id gives,
      with 30 profiled executions per round; and every selected load has
      its guard. */
  lemma {:induction false} InstrumentedExactly(loops: seq<Loop>, execOf: map<int, int>, start: int, loads: seq<int>)
    requires forall l :: l in loads ==> l in execOf
    ensures forall k :: 0 <= k < |Instrumented(loops, execOf, start, loads)| ==>
              GuardOk(loops, execOf, start, loads, Instrumented(loops, execOf, start, loads)[k])
    ensures forall i :: 0 <= i < |loads| && Selected(loops, execOf, loads[i]) ==>
              GuardFor(WrapU32(start + i + 1), loads[i], execOf[loads[i]]) in Instrumented(loops, execOf, start, loads)
  {
    if loads != [] {
      var n := |loads|;
      var p := loads[..n - 1];
      InstrumentedExactly(loops, execOf, start, p);
      var r := Instrumented(loops, execOf, start, loads);
      var rp := Instrumented(loops, execOf, start, p);
      forall k | 0 <= k < |r| ensures GuardOk(loops, execOf, start, loads, r[k]) {
        if k < |rp| {
          assert r[k] == rp[k];
          assert GuardOk(loops, execOf, start, p, rp[k]);
          var i :| 0 <= i < |p| && p[i] == rp[k].load && rp[k].loadId == WrapU32(start + i + 1) &&
                   Selected(loops, execOf, rp[k].load) && rp[k].exec == execOf[rp[k].load] && rp[k].n2 == CHUNK_SIZE;
          assert loads[i] == p[i];
          assert 0 <= i < |loads| && loads[i] == r[k].load && r[k].loadId == WrapU32(start + i + 1);
          assert Selected(loops, execOf, r[k].load) && r[k].exec == execOf[r[k].load] && r[k].n2 == CHUNK_SIZE;
        } else {
          HotLoadRounds(execOf[loads[n - 1]]);
          assert r[k] == GuardFor(WrapU32(start + n), loads[n - 1], execOf[loads[n - 1]]);
          assert 0 <= n - 1 < |loads| && loads[n - 1] == r[k].load && r[k].loadId == WrapU32(start + (n - 1) + 1);
        }
      }
      forall i | 0 <= i < |loads| && Selected(loops, execOf, loads[i])
        ensures GuardFor(WrapU32(start + i + 1), loads[i], execOf[loads[i]]) in r
      {
        if i < n - 1 {
          assert loads[i] == p[i];
          assert GuardFor(WrapU32(start + i + 1), p[i], execOf[p[i]]) in rp;
        }
      }
    }
  }

  // ---------------------------------------------------------------------
  // The per-function walk

  /** A basic block: its profiled execution count and its instructions. */
  datatype Block = Block(count: int, insts: seq<Inst>)

  /** The loads of a function, block by block. */
  function FnLoads(bs: seq<Block>): seq<int>
  {
    if bs == [] then [] else FnLoads(bs[..|bs| - 1]) + Loads(bs[|bs| - 1].insts)
  }

  /** `loadToExecCount[I] = count(block of I)` for each load of a block. */
  function BlockCounts(m: map<int, int>, insts: seq<Inst>, c: int): map<int, int>
  {
    if insts == [] then m
    else
      var m1 := BlockCounts(m, insts[..|insts| - 1], c);
      if insts[|insts| - 1].kind == Load then m1[insts[|insts| - 1].ref := c] else m1
  }

  function FnCounts(m: map<int, int>, bs: seq<Block>): map<int, int>
  {
    if bs == [] then m
    else BlockCounts(FnCounts(m, bs[..|bs| - 1]), bs[|bs| - 1].insts, bs[|bs| - 1].count)
  }

  lemma BlockSnoc(m: map<int, int>, insts: seq<Inst>, c: int, j: nat)
    requires j < |insts|
    ensures Loads(insts[..j + 1]) == Loads(insts[..j]) + (if insts[j].kind == Load then [insts[j].ref] else [])
    ensures BlockCounts(m, insts[..j + 1], c) ==
              if insts[j].kind == Load then BlockCounts(m, insts[..j], c)[insts[j].ref := c]
              else BlockCounts(m, insts[..j], c)
  {
    LoadsSnoc(insts, j);
    assert insts[..j + 1][..j] == insts[..j];
  }

  lemma FnSnoc(m: map<int, int>, bs: seq<Block>, i: nat)
    requires i < |bs|
    ensures FnLoads(bs[..i + 1]) == FnLoads(bs[..i]) + Loads(bs[i].insts)
    ensures FnCounts(m, bs[..i + 1]) == BlockCounts(FnCounts(m, bs[..i]), bs[i].insts, bs[i].count)
  {
    assert bs[..i + 1][..i] == bs[..i];
  }

  /** The blocks as the numbering pass sees them. */
  function Plain(bs: seq<Block>): (r: seq<seq<Inst>>)
    ensures |r| == |bs|
  {
    if bs == [] then [] else [bs[0].insts] + Plain(bs[1..])
  }

  /** Counts below 2^31, which an `(int)` cast keeps. */
  ghost predicate CountsFit(m: map<int, int>) {
    forall l :: l in m ==> m[l] < TWO_31
  }

  ghost predicate BlocksFit(bs: seq<Block>) {
    forall b :: 0 <= b < |bs| ==> bs[b].count < TWO_31
  }

  /** A block's loads all get the block's count, every other count is
      kept, and counts below 2^31 stay below it. */
  lemma {:induction false} BlockCountsCover(m: map<int, int>, insts: seq<Inst>, c: int)
    ensures CountsFit(m) && c < TWO_31 ==> CountsFit(BlockCounts(m, insts, c))
    ensures m.Keys <= BlockCounts(m, insts, c).Keys
    ensures forall l :: l in Loads(insts) ==> l in BlockCounts(m, insts, c) && BlockCounts(m, insts, c)[l] == c
    ensures forall l :: l in m && l !in Loads(insts) ==> BlockCounts(m, insts, c)[l] == m[l]
  {
    if insts != [] {
      var n := |insts| - 1;
      BlockCountsCover(m, insts[..n], c);
      LoadsSnoc(insts, n);
      assert insts[..n + 1] == insts;
    }
  }

  /** A function's loads all get a count, earlier counts stay present, and
      with every block count below 2^31 so is every count. */
  lemma {:induction false} FnCountsCover(m: map<int, int>, bs: seq<Block>)
    ensures CountsFit(m) && BlocksFit(bs) ==> CountsFit(FnCounts(m, bs))
    ensures m.Keys <= FnCounts(m, bs).Keys
    ensures forall l :: l in FnLoads(bs) ==> l in FnCounts(m, bs)
  {
    if bs != [] {
      var p := bs[..|bs| - 1];
      FnCountsCover(m, p);
      BlockCountsCover(FnCounts(m, p), bs[|bs| - 1].insts, bs[|bs| - 1].count);
    }
  }

  /** The loads `doStrides` instruments, the hot ones inside a loop, have
      counts below 2^31: theirs are the only counts cast to `int`. */
  ghost predicate HotCountsFit(loops: seq<Loop>, execOf: map<int, int>, loads: seq<int>) {
    forall l :: l in loads && l in execOf && Selected(loops, execOf, l) ==> execOf[l] < TWO_31
  }

  /** Every guard's count, passed to the runtime as an `int`, fits one. */
  ghost predicate GuardsFit(gs: seq<Guard>) {
    forall k :: 0 <= k < |gs| ==> IsI32(gs[k].exec)
  }

  lemma GuardsFitAppend(a: seq<Guard>, b: seq<Guard>)
    requires GuardsFit(a) && GuardsFit(b)
    ensures GuardsFit(a + b)
  {
    forall k | 0 <= k < |a + b| ensures IsI32((a + b)[k].exec) {
      if k >= |a| {
        assert (a + b)[k] == b[k - |a|];
      }
    }
  }

  /** When the hot loads' counts fit an `int`, so does every guard's. */
  lemma InstrumentedFit(loops: seq<Loop>, execOf: map<int, int>, start: int, loads: seq<int>)
    requires forall l :: l in loads ==> l in execOf
    requires HotCountsFit(loops, execOf, loads)
    ensures GuardsFit(Instrumented(loops, execOf, start, loads))
  {
    InstrumentedExactly(loops, execOf, start, loads);
    var r := Instrumented(loops, execOf, start, loads);
    forall k | 0 <= k < |r| ensures IsI32(r[k].exec) {
      assert GuardOk(loops, execOf, start, loads, r[k]);
      var i :| 0 <= i < |loads| && loads[i] == r[k].load && r[k].loadId == WrapU32(start + i + 1) &&
               Selected(loops, execOf, r[k].load) && r[k].exec == execOf[r[k].load] && r[k].n2 == CHUNK_SIZE;
      assert loads[i] in loads;
    }
  }

  /** A function's loads are those the numbering pass numbers, in the same
      order. */
  lemma {:induction false} FnLoadsAreLoads(bs: seq<Block>)
    ensures FnLoads(bs) == Loads(BlocksInsts(Plain(bs)))
  {
    if bs != [] {
      var n := |bs| - 1;
      var p := bs[..n];
      FnLoadsAreLoads(p);
      PlainSnoc(p, bs[n]);
      assert p + [bs[n]] == bs;
      BlocksInstsSnoc(Plain(p), bs[n].insts);
      LoadsAppend(BlocksInsts(Plain(p)), bs[n].insts);
    }
  }

  lemma {:induction false} PlainSnoc(bs: seq<Block>, b: Block)
    ensures Plain(bs + [b]) == Plain(bs) + [b.insts]
  {
    if bs != [] {
      assert (bs + [b])[1..] == bs[1..] + [b];
      PlainSnoc(bs[1..], b);
    } else {
      assert bs + [b] == [b];
    }
  }

  lemma {:induction false} BlocksInstsSnoc(bs: seq<seq<Inst>>, b: seq<Inst>)
    ensures BlocksInsts(bs + [b]) == BlocksInsts(bs) + b
  {
    if bs != [] {
      assert (bs + [b])[1..] == bs[1..] + [b];
      BlocksInstsSnoc(bs[1..], b);
    } else {
      assert bs + [b] == [b];
    }
  }

  // ---------------------------------------------------------------------
  // The pass object

  /** The pass's statics and globals: the two id counters, the load list
      and count map (globals, never cleared), and the guards emitted so far. */
  class StrideProfiler {
    var instruction_id: int
    var load_id: int
    var loadsToStride: seq<int>
    var loadToExecCount: map<int, int>
    var guards: seq<Guard>

    /** Every collected load has a count, and every emitted guard's count
        fits the `int` it is cast to. */
    ghost predicate Valid()
      reads this
    {
      IsU32(instruction_id) && IsU32(load_id) &&
      (forall l :: l in loadsToStride ==> l in loadToExecCount) && GuardsFit(guards)
    }

    constructor ()
      ensures Valid()
      ensures instruction_id == TWO_32 - 1 && load_id == TWO_32 - 1
      ensures loadsToStride == [] && loadToExecCount == map[] && guards == []
    {
      instruction_id := TWO_32 - 1;
      load_id := TWO_32 - 1;
      loadsToStride := [];
      loadToExecCount := map[];
      guards := [];
    }

    /** The inner loop of `runOnFunction` over one block. */
    method CollectBlock(b: Block)
      requires IsU32(instruction_id)
      modifies this`instruction_id, this`loadToExecCount, this`loadsToStride
      ensures loadsToStride == old(loadsToStride) + Loads(b.insts)
      ensures instruction_id == WrapU32(old(instruction_id) + |Loads(b.insts)|)
      ensures loadToExecCount == BlockCounts(old(loadToExecCount), b.insts, b.count)
    {
      ghost var l0, i0, m0 := loadsToStride, instruction_id, loadToExecCount;
      var insts := b.insts;
      var j := 0;
      while j < |insts|
        invariant 0 <= j <= |insts|
        invariant loadsToStride == l0 + Loads(insts[..j])
        invariant instruction_id == WrapU32(i0 + |Loads(insts[..j])|)
        invariant loadToExecCount == BlockCounts(m0, insts[..j], b.count)
      {
        var inst := insts[j];
        BlockSnoc(m0, insts, b.count, j);
        if inst.kind == Load {
          WrapU32Step(i0 + |Loads(insts[..j])|);
          instruction_id := WrapU32(instruction_id + 1);
          loadToExecCount := loadToExecCount[inst.ref := b.count];
          loadsToStride := loadsToStride + [inst.ref];
        }
        j := j + 1;
      }
      assert insts[..j] == insts;
    }

    /** The collecting loop of `runOnFunction`. */
    method Collect(bs: seq<Block>)
      requires IsU32(instruction_id)
      modifies this`instruction_id, this`loadToExecCount, this`loadsToStride
      ensures loadsToStride == old(loadsToStride) + FnLoads(bs)
      ensures instruction_id == WrapU32(old(instruction_id) + |FnLoads(bs)|)
      ensures loadToExecCount == FnCounts(old(loadToExecCount), bs)
    {
      ghost var l0, i0, m0 := loadsToStride, instruction_id, loadToExecCount;
      var i := 0;
      while i < |bs|
        invariant 0 <= i <= |bs|
        invariant loadsToStride == l0 + FnLoads(bs[..i])
        invariant instruction_id == WrapU32(i0 + |FnLoads(bs[..i])|)
        invariant loadToExecCount == FnCounts(m0, bs[..i])
      {
        FnSnoc(m0, bs, i);
        CollectBlock(bs[i]);
        WrapU32Add(i0 + |FnLoads(bs[..i])|, |Loads(bs[i].insts)|);
        i := i + 1;
      }
      assert bs[..i] == bs;
    }

    /** `doStrides`: walk every collected load, from the first function's
        on, giving each the next load id and emitting a guard for the
        selected ones. */
    method DoStrides(loops: seq<Loop>)
      requires IsU32(load_id)
      requires forall l :: l in loadsToStride ==> l in loadToExecCount
      modifies this`load_id, this`guards
      ensures load_id == WrapU32(old(load_id) + |loadsToStride|)
      ensures guards == old(guards) + Instrumented(loops, loadToExecCount, old(load_id), loadsToStride)
    {
      var loads := loadsToStride;
      ghost var execOf, start, g0 := loadToExecCount, load_id, guards;
      var i := 0;
      while i < |loads|
        invariant 0 <= i <= |loads|
        invariant load_id == WrapU32(start + i)
        invariant guards == g0 + Instrumented(loops, execOf, start, loads[..i])
      {
        var inst := loads[i];
        InstrumentedSnoc(loops, execOf, start, loads, i);
        WrapU32Step(start + i);
        load_id := WrapU32(load_id + 1);
        var dynamic := IsLoadDynamic(loops, inst);
        if !dynamic || loadToExecCount[inst] < FT {
          i := i + 1;
          continue;
        }
        var exec := loadToExecCount[inst];
        var tmpN1, tmpN2 := ProfileCounts(exec);
        guards := guards + [Guard(load_id, inst, tmpN1, tmpN2, exec)];
        i := i + 1;
      }
      assert loads[..i] == loads;
    }

    /** `runOnFunction` as written: collect the function's loads onto the
        global list, then walk the whole list. */
    method RunOnFunction(bs: seq<Block>, loops: seq<Loop>)
      requires Valid() && HotCountsFit(loops, FnCounts(loadToExecCount, bs), loadsToStride + FnLoads(bs))
      modifies this`instruction_id, this`loadToExecCount, this`loadsToStride, this`load_id, this`guards
      ensures Valid()
      ensures loadsToStride == old(loadsToStride) + FnLoads(bs)
      ensures load_id == WrapU32(old(load_id) + |loadsToStride|)
      ensures guards == old(guards) + Instrumented(loops, loadToExecCount, old(load_id), loadsToStride)
    {
      ghost var g0, m0, id0 := guards, loadToExecCount, load_id;
      Collect(bs);
      FnCountsCover(m0, bs);
      DoStrides(loops);
      ghost var added := Instrumented(loops, loadToExecCount, id0, loadsToStride);
      InstrumentedFit(loops, loadToExecCount, id0, loadsToStride);
      GuardsFitAppend(g0, added);
    }

    /** `runOnFunction` with the list emptied first, so only this
        function's loads are walked and numbered. */
    method RunOnFunctionCorrected(bs: seq<Block>, loops: seq<Loop>)
      requires Valid() && HotCountsFit(loops, FnCounts(loadToExecCount, bs), FnLoads(bs))
      modifies this`instruction_id, this`loadToExecCount, this`loadsToStride, this`load_id, this`guards
      ensures Valid()
      ensures loadsToStride == FnLoads(bs)
      ensures load_id == WrapU32(old(load_id) + |loadsToStride|)
      ensures guards == old(guards) + Instrumented(loops, loadToExecCount, old(load_id), loadsToStride)
    {
      ghost var g0, m0, id0 := guards, loadToExecCount, load_id;
      loadsToStride := [];
      Collect(bs);
      FnCountsCover(m0, bs);
      DoStrides(loops);
      ghost var added := Instrumented(loops, loadToExecCount, id0, loadsToStride);
      InstrumentedFit(loops, loadToExecCount, id0, loadsToStride);
      GuardsFitAppend(g0, added);
    }

  }

  /** Adding to a wrapped counter is wrapping the sum. */
  lemma WrapU32Add(a: int, b: int)
    ensures WrapU32(WrapU32(a) + b) == WrapU32(a + b)
  {
  }

  // ---------------------------------------------------------------------
  // Load ids across a whole module

  /** The id each load of the module gets, in module order, when the
      functions' loads `fs` are walked as written: the load counter goes
      on from the start value, and run `f` walks the loads of every
      function up to `f`. Also the counter and the list afterwards. */
  function AsWrittenIds(fs: seq<seq<int>>): (r: (int, seq<int>, seq<int>))
  {
    if fs == [] then (TWO_32 - 1, [], [])
    else
      var prev := AsWrittenIds(fs[..|fs| - 1]);
      var cur := fs[|fs| - 1];
      var base := prev.0 + |prev.1|;
      (WrapU32(base + |cur|), prev.1 + cur, prev.2 + seq(|cur|, j => WrapU32(base + j + 1)))
  }

  /** The same with the list emptied for every function. */
  function CorrectedIds(fs: seq<seq<int>>): (r: (int, seq<int>))
  {
    if fs == [] then (TWO_32 - 1, [])
    else
      var prev := CorrectedIds(fs[..|fs| - 1]);
      var cur := fs[|fs| - 1];
      (WrapU32(prev.0 + |cur|), prev.1 + seq(|cur|, j => WrapU32(prev.0 + j + 1)))
  }

  /** All loads of the module, function after function. */
  function Concat(fs: seq<seq<int>>): seq<int>
  {
    if fs == [] then [] else Concat(fs[..|fs| - 1]) + fs[|fs| - 1]
  }

  /** With the list emptied per function, the `i`-th load of the module
      gets id `i`: the number `StrideLoadProfile` gives it (see
      `FreshIdsCountFromZero`), so profile records find their loads. */
  lemma {:induction false} CorrectedIdsArePositions(fs: seq<seq<int>>)
    requires |Concat(fs)| <= TWO_32
    ensures CorrectedIds(fs).0 == WrapU32(TWO_32 - 1 + |Concat(fs)|)
    ensures |CorrectedIds(fs).1| == |Concat(fs)|
    ensures forall i :: 0 <= i < |Concat(fs)| ==> CorrectedIds(fs).1[i] == i
  {
    if fs != [] {
      var p := fs[..|fs| - 1];
      var cur := fs[|fs| - 1];
      CorrectedIdsArePositions(p);
      var prev := CorrectedIds(p);
      var n := |Concat(p)|;
      assert prev.0 == WrapU32(TWO_32 - 1 + n);
      WrapU32Add(TWO_32 - 1 + n, |cur|);
      assert Concat(fs) == Concat(p) + cur;
      forall i | n <= i < n + |cur| ensures CorrectedIds(fs).1[i] == i {
        WrapU32Add(TWO_32 - 1 + n, i - n + 1);
      }
    }
  }

  /** As written, a module with one load in each of two functions numbers
      the second load 2, where the reader numbers it 1. */
  lemma AsWrittenIdsDiverge()
    ensures AsWrittenIds([[7], [9]]).2 == [0, 2]
    ensures CorrectedIds([[7], [9]]).1 == [0, 1]
  {
    assert [[7], [9]][..1] == [[7]];
    assert [[7]][..0] == [];
    assert WrapU32(TWO_32 - 1 + 0 + 1) == 0;
    assert WrapU32(TWO_32 - 1 + 1) == 0;
    assert WrapU32(0 + 1 + 0 + 1) == 2;
    assert WrapU32(0 + 0 + 1) == 1;
  }

  // ---------------------------------------------------------------------
  // The emitted counter machine

  /** What one execution of a guarded load does. */
  datatype Action = Skip | Reset | Profile

  /** The two `i32` globals of a guard, as unsigned bit patterns. */
  datatype Counters = Counters(skipped: int, profiled: int)

  /** One execution: below `N1` (unsigned compare) skip and count; else if
      `number_profiled == N2` reset both counters and clear the load's
      addresses; else count and profile. */
  function Step(c: Counters, n1: int, n2: int): (r: (Counters, Action))
    requires IsU32(c.skipped) && IsU32(c.profiled)
    ensures IsU32(r.0.skipped) && IsU32(r.0.profiled)
    ensures r.0.profiled == 0 || r.0.profiled == c.profiled
  {
    if c.skipped < WrapU32(n1) then (c.(skipped := WrapU32(c.skipped + 1)), Skip)
    else if c.profiled == WrapU32(n2) then (Counters(0, 0), Reset)
    else (c.(skipped := WrapU32(c.skipped + 1)), Profile)
  }

  /** The counters after `k` executions from the start state. */
  function After(n1: int, n2: int, k: nat): (c: Counters)
    ensures IsU32(c.skipped) && IsU32(c.profiled)
  {
    if k == 0 then Counters(0, 0) else Step(After(n1, n2, k - 1), n1, n2).0
  }

  /** What the `k`-th execution (from 0) does. */
  function ActionAt(n1: int, n2: int, k: nat): Action
  {
    Step(After(n1, n2, k), n1, n2).1
  }

  /** `number_profiled` is only ever stored 0, so it stays 0. */
  lemma {:induction false} ProfiledStaysZero(n1: int, n2: int, k: nat)
    ensures After(n1, n2, k).profiled == 0
  {
    if k > 0 {
      ProfiledStaysZero(n1, n2, k - 1);
    }
  }

  /** With `N2` not 0, the first `N1` executions skip and every later one,
      up to the wrap of the 32-bit skip counter, is profiled: a round never
      ends. */
  lemma {:induction false} SkipThenProfile(n1: int, n2: int, k: nat)
    requires WrapU32(n2) != 0 && k < TWO_32
    ensures After(n1, n2, k) == Counters(k, 0)
    ensures ActionAt(n1, n2, k) == if k < WrapU32(n1) then Skip else Profile
  {
    if k > 0 {
      SkipThenProfile(n1, n2, k - 1);
    }
  }

  /** With `N2` equal to 0, every execution after the first `N1` resets,
      and the next `N1` skip again. */
  lemma ZeroN2Resets(n1: int, n2: int)
    requires WrapU32(n2) == 0 && WrapU32(n1) > 0
    ensures Step(Counters(WrapU32(n1), 0), n1, n2) == (Counters(0, 0), Reset)
    ensures Step(Counters(0, 0), n1, n2).1 == Skip
  {
  }

  /** One execution with `strideBB` counting the profiled executions, as the
      reset test on `number_profiled` requires: below `N1` skip, else reset
      once `N2` executions are profiled, else profile and count it. */
  function StepCorrected(c: Counters, n1: int, n2: int): (r: (Counters, Action))
    requires IsU32(c.skipped) && IsU32(c.profiled)
    ensures IsU32(r.0.skipped) && IsU32(r.0.profiled)
  {
    if c.skipped < WrapU32(n1) then (c.(skipped := WrapU32(c.skipped + 1)), Skip)
    else if c.profiled == WrapU32(n2) then (Counters(0, 0), Reset)
    else (c.(profiled := WrapU32(c.profiled + 1)), Profile)
  }

  function AfterCorrected(n1: int, n2: int, k: nat): (c: Counters)
    ensures IsU32(c.skipped) && IsU32(c.profiled)
  {
    if k == 0 then Counters(0, 0) else StepCorrected(AfterCorrected(n1, n2, k - 1), n1, n2).0
  }

  function ActionAtCorrected(n1: int, n2: int, k: nat): Action
  {
    StepCorrected(AfterCorrected(n1, n2, k), n1, n2).1
  }

  /** The executions in one round. */
  function RoundLength(n1: int, n2: int): (p: nat)
    ensures p > 0
  {
    WrapU32(n1) + WrapU32(n2) + 1
  }

  /** Within the first round: `N1` skips, then `N2` profiled executions,
      then one reset. */
  lemma {:induction false} CorrectedRound(n1: int, n2: int, k: nat)
    requires k < RoundLength(n1, n2)
    ensures AfterCorrected(n1, n2, k) ==
              if k <= WrapU32(n1) then Counters(k, 0) else Counters(WrapU32(n1), k - WrapU32(n1))
    ensures ActionAtCorrected(n1, n2, k) ==
              if k < WrapU32(n1) then Skip
              else if k < WrapU32(n1) + WrapU32(n2) then Profile
              else Reset
  {
    if k > 0 {
      CorrectedRound(n1, n2, k - 1);
    }
  }

  /** The reset returns the counters to the start, so rounds repeat. */
  lemma {:induction false} CorrectedRoundsRepeat(n1: int, n2: int, k: nat)
    ensures AfterCorrected(n1, n2, k + RoundLength(n1, n2)) == AfterCorrected(n1, n2, k)
  {
    var p := RoundLength(n1, n2);
    if k == 0 {
      CorrectedRound(n1, n2, p - 1);
    } else {
      CorrectedRoundsRepeat(n1, n2, k - 1);
      assert k + p - 1 == (k - 1) + p;
    }
  }

  /** Every execution, corrected: execution `j` of round `q` does what
      execution `j` of the first round does. */
  lemma {:induction false} CorrectedSchedule(n1: int, n2: int, q: nat, j: nat)
    requires j < RoundLength(n1, n2)
    ensures ActionAtCorrected(n1, n2, q * RoundLength(n1, n2) + j) ==
              if j < WrapU32(n1) then Skip
              else if j < WrapU32(n1) + WrapU32(n2) then Profile
              else Reset
  {
    var p := RoundLength(n1, n2);
    if q == 0 {
      CorrectedRound(n1, n2, j);
    } else {
      CorrectedSchedule(n1, n2, q - 1, j);
      CorrectedRoundsRepeat(n1, n2, (q - 1) * p + j);
      assert (q - 1) * p + j + p == q * p + j;
    }
  }

  /** The run-time state of one guarded load. */
  class GuardedLoad {
    const guard: Guard
    var number_skipped: int
    var number_profiled: int

    constructor (g: Guard)
      ensures guard == g && number_skipped == 0 && number_profiled == 0
    {
      guard := g;
      number_skipped := 0;
      number_profiled := 0;
    }

    /** One execution of the guarded load with address `addr`: the blocks
        `oldBB`, `skippingBB`, `profCheck`, `resetBB` and `strideBB`.
        `aborted` stands for the runtime's assertion failing when a reset
        finds the load unregistered. */
    method Execute(rt: SH.StrideRuntime, addr: int) returns (action: Action, aborted: bool)
      requires IsU32(number_skipped) && IsU32(number_profiled)
      requires rt.Valid() && IsU32(guard.loadId) && IsU64(addr) && IsI32(guard.exec)
      modifies this`number_skipped, this`number_profiled, rt`ids, rt`profiles
      ensures (Counters(number_skipped, number_profiled), action) ==
              Step(Counters(old(number_skipped), old(number_profiled)), guard.n1, guard.n2)
      ensures rt.Valid()
      ensures action == Skip ==> rt.profiles == old(rt.profiles)
      ensures action == Profile ==>
                rt.profiles == SH.AfterProfile(old(rt.profiles), rt.initialized, guard.loadId, addr, guard.exec)
      ensures action == Reset ==> rt.profiles == SH.AfterClear(old(rt.profiles), rt.initialized, guard.loadId)
      ensures aborted <==> action == Reset && rt.initialized && guard.loadId !in old(rt.profiles)
      ensures action != Profile ==> rt.ids == old(rt.ids)
    {
      var skipload := number_skipped;
      if skipload < WrapU32(guard.n1) {
        number_skipped := WrapU32(skipload + 1);
        return Skip, false;
      }
      var numload := number_profiled;
      if numload == WrapU32(guard.n2) {
        number_profiled := 0;
        number_skipped := 0;
        aborted := rt.ClearAddresses(guard.loadId);
        return Reset, aborted;
      }
      number_skipped := WrapU32(skipload + 1);
      rt.StrideProfile(guard.loadId, addr, guard.exec);
      return Profile, false;
    }

    /** `Execute` with `strideBB` incrementing `number_profiled`. */
    method ExecuteCorrected(rt: SH.StrideRuntime, addr: int) returns (action: Action, aborted: bool)
      requires IsU32(number_skipped) && IsU32(number_profiled)
      requires rt.Valid() && IsU32(guard.loadId) && IsU64(addr) && IsI32(guard.exec)
      modifies this`number_skipped, this`number_profiled, rt`ids, rt`profiles
      ensures (Counters(number_skipped, number_profiled), action) ==
              StepCorrected(Counters(old(number_skipped), old(number_profiled)), guard.n1, guard.n2)
      ensures rt.Valid()
      ensures action == Skip ==> rt.profiles == old(rt.profiles)
      ensures action == Profile ==>
                rt.profiles == SH.AfterProfile(old(rt.profiles), rt.initialized, guard.loadId, addr, guard.exec)
      ensures action == Reset ==> rt.profiles == SH.AfterClear(old(rt.profiles), rt.initialized, guard.loadId)
      ensures aborted <==> action == Reset && rt.initialized && guard.loadId !in old(rt.profiles)
      ensures action != Profile ==> rt.ids == old(rt.ids)
    {
      var skipload := number_skipped;
      if skipload < WrapU32(guard.n1) {
        number_skipped := WrapU32(skipload + 1);
        return Skip, false;
      }
      var numload := number_profiled;
      if numload == WrapU32(guard.n2) {
        number_profiled := 0;
        number_skipped := 0;
        aborted := rt.ClearAddresses(guard.loadId);
        return Reset, aborted;
      }
      number_profiled := WrapU32(numload + 1);
      rt.StrideProfile(guard.loadId, addr, guard.exec);
      return Profile, false;
    }
  }

  // ---------------------------------------------------------------------
  // StrideInit

  /** The entry-block instructions `StrideInit` tells apart. */
  datatype EntryInst = Alloca | InitCall | OtherEntry

  datatype NamedFunction = NamedFunction(name: string, entry: seq<EntryInst>)

  /** An entry block ends with its terminator, which is no alloca. */
  predicate WellFormed(f: NamedFunction) {
    f.entry != [] && f.entry[|f.entry| - 1] != Alloca
  }

  /** The first position in the block that is not an alloca. */
  function AfterAllocas(e: seq<EntryInst>): (p: nat)
    ensures p <= |e|
    ensures forall j :: 0 <= j < p ==> e[j] == Alloca
    ensures p < |e| ==> e[p] != Alloca
  {
    if e != [] && e[0] == Alloca then 1 + AfterAllocas(e[1..]) else 0
  }

  /** `StrideInit::runOnModule`: in the first function named `main`, put
      the call to `Stride_init` after the leading allocas of the entry
      block, and report a change exactly when `main` was found. */
  method StrideInit(fs: seq<NamedFunction>) returns (changed: bool, r: seq<NamedFunction>)
    requires forall i :: 0 <= i < |fs| && fs[i].name == "main" ==> WellFormed(fs[i])
    ensures changed <==> exists i :: 0 <= i < |fs| && fs[i].name == "main"
    ensures !changed ==> r == fs
    ensures changed ==> exists i :: (0 <= i < |fs| && fs[i].name == "main" &&
              (forall j :: 0 <= j < i ==> fs[j].name != "main") &&
              r == fs[i := fs[i].(entry := fs[i].entry[..AfterAllocas(fs[i].entry)] + [InitCall] +
                                           fs[i].entry[AfterAllocas(fs[i].entry)..])])
  {
    var i := 0;
    while i < |fs|
      invariant 0 <= i <= |fs|
      invariant forall j :: 0 <= j < i ==> fs[j].name != "main"
    {
      if fs[i].name == "main" {
        var entry := fs[i].entry;
        var pos := 0;
        while entry[pos] == Alloca
          invariant 0 <= pos < |entry|
          invariant forall j :: 0 <= j < pos ==> entry[j] == Alloca
          decreases |entry| - pos
        {
          pos := pos + 1;
        }
        AfterAllocasIs(entry, pos);
        r := fs[i := fs[i].(entry := entry[..pos] + [InitCall] + entry[pos..])];
        return true, r;
      }
      i := i + 1;
    }
    return false, fs;
  }

  lemma {:induction false} AfterAllocasIs(e: seq<EntryInst>, p: nat)
    requires p < |e| && e[p] != Alloca
    requires forall j :: 0 <= j < p ==> e[j] == Alloca
    ensures AfterAllocas(e) == p
  {
    if p > 0 {
      AfterAllocasIs(e[1..], p - 1);
    }
  }
}
