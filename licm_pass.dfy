/* The speculative LICM pass as an object: its member sets, maps and vectors
 * are fields, and each of its routines updates them the way the functions
 * of `LicmHoist` and `LicmRedo` say.  The IR itself is a `Program` value;
 * where an instruction sits is the `home` field.
 */
module LicmPass {
  import opened LicmIr
  import opened LicmHoist
  import opened LicmRedo

  /** The bookkeeping `runOnLoop` starts `HoistRegion` from. */
  function FreshHoist(home: map<Id, BlockId>, stores: seq<Id>, chosen: nat): HoistState
  {
    HoistState(home, {}, [], map[], stores, false, chosen)
  }

  /** What `HoistRegion` leaves behind for the walk from `header`. */
  ghost function HoistResult(p: Program, l: LoopFacts, t: OperandTest, prof: Profile, header: DomNode,
                             home: map<Id, BlockId>, stores: seq<Id>, chosen: nat): HoistState
  {
    VisitAll(p, l, t, prof, FreshHoist(home, stores, chosen), Region(p, l, header))
  }

  /** Walking one more child of `n` continues the walk. */
  lemma RegionChildStep(p: Program, l: LoopFacts, t: OperandTest, prof: Profile, s0: HoistState, head: seq<Id>,
                        n: DomNode, k: nat)
    requires k < |n.children|
    ensures VisitAll(p, l, t, prof, s0, head + RegionChildren(p, l, n, k + 1)) ==
      VisitAll(p, l, t, prof, VisitAll(p, l, t, prof, s0, head + RegionChildren(p, l, n, k)), Region(p, l, n.children[k]))
  {
    var a := head + RegionChildren(p, l, n, k);
    var b := Region(p, l, n.children[k]);
    assert head + RegionChildren(p, l, n, k + 1) == a + b;
    VisitAllAppend(p, l, t, prof, s0, a, b);
  }

  lemma LoadsStep(p: Program, xs: seq<Id>, k: int)
    requires 0 <= k < |xs|
    ensures Loads(p, xs[..k + 1]) == Loads(p, xs[..k]) + if IsLoad(p, xs[k]) then [xs[k]] else []
  {
    assert xs[..k + 1][..k] == xs[..k];
  }

  lemma FlagMapSnoc(m0: map<Id, nat>, ls: seq<Id>, x: Id, n0: nat)
    ensures m0 + FlagMap(ls + [x], n0) == (m0 + FlagMap(ls, n0))[x := n0 + |ls|]
  {
    assert (ls + [x])[..|ls|] == ls;
  }

  lemma ChecksForStoreStep(p: Program, s: Id, order: seq<Id>, flags: map<Id, nat>, k: int)
    requires forall x :: x in order && IsLoad(p, x) ==> x in flags
    requires 0 <= k < |order|
    ensures forall x :: x in order[..k] && IsLoad(p, x) ==> x in flags
    ensures ChecksForStore(p, s, order[..k + 1], flags) == ChecksForStore(p, s, order[..k], flags) +
      if IsLoad(p, order[k]) && SameType(p, s, order[k]) then [Check(s, order[k], flags[order[k]])] else []
  {
    assert order[..k + 1][..k] == order[..k];
    assert forall x :: x in order[..k + 1] ==> x in order;
  }

  lemma ChecksForStep(p: Program, stores: seq<Id>, order: seq<Id>, flags: map<Id, nat>, s: int)
    requires forall x :: x in order && IsLoad(p, x) ==> x in flags
    requires 0 <= s < |stores|
    ensures ChecksFor(p, stores[..s + 1], order, flags) ==
      ChecksFor(p, stores[..s], order, flags) + ChecksForStore(p, stores[s], order, flags)
  {
    assert stores[..s + 1][..s] == stores[..s];
  }

  /** The walk of `sink` over several unique exit blocks: those `b`
      dominates, in order; the first gets the instruction itself and the
      others a copy. */
  method DominatedExits(l: LoopFacts, b: BlockId) returns (placed: seq<BlockId>)
    ensures placed == SinkTargets(l, b)
  {
    var exits := l.uniqueExits;
    placed := [];
    var k := 0;
    while k < |exits|
      invariant 0 <= k <= |exits|
      invariant placed == Dominated(b, exits[..k], l.dom)
    {
      assert exits[..k + 1][..k] == exits[..k];
      if (b, exits[k]) in l.dom {
        placed := placed + [exits[k]];
      }
      k := k + 1;
    }
    assert exits[..k] == exits;
  }

  class Pass {
    /** The block each live instruction sits in. */
    var home: map<Id, BlockId>
    /** The instructions chosen for speculation, as a set and in order. */
    var hoisted: set<Id>
    var hoistedOrder: seq<Id>
    /** Each chosen non-load's list of the speculative loads it depends on. */
    var hoistedToLoad: map<Id, seq<Id>>
    /** The stores seen by `HoistRegion`, over all loops so far. */
    var storeList: seq<Id>
    var callInstExists: bool
    var numChosen: nat
    /** `Hoisted`: the instructions already moved by `insertIntoRedo`. */
    var redone: set<Id>
    var instToClone: map<Id, seq<BlockId>>
    var loadToBlock: map<Id, BlockId>
    /** The redo machinery emitted by `newRedo`, and the next fresh block. */
    var redos: seq<Redo>
    var nextBlock: BlockId
    /** Each speculative load's flag slot, the slots made so far, and the
        slots cleared in preheaders, in order. */
    var loadToAlloca: map<Id, nat>
    var numAllocas: nat
    var preheaderClears: seq<nat>
    /** The alias checks emitted by `addAliasChecks`, in order. */
    var aliasChecks: seq<Check>

    function HoistAbs(): HoistState
      reads this
    {
      HoistState(home, hoisted, hoistedOrder, hoistedToLoad, storeList, callInstExists, numChosen)
    }

    function RedoAbs(): RedoState
      reads this
    {
      RedoState(home, redone, instToClone, loadToBlock, redos, nextBlock)
    }

    constructor (home0: map<Id, BlockId>, firstBlock: BlockId)
      ensures HoistAbs() == FreshHoist(home0, [], 0)
      ensures RedoAbs() == RedoState(home0, {}, map[], map[], [], firstBlock)
      ensures loadToAlloca == map[] && numAllocas == 0 && preheaderClears == [] && aliasChecks == []
    {
      home, hoisted, hoistedOrder, hoistedToLoad := home0, {}, [], map[];
      storeList, callInstExists, numChosen := [], false, 0;
      redone, instToClone, loadToBlock, redos, nextBlock := {}, map[], map[], [], firstBlock;
      loadToAlloca, numAllocas, preheaderClears, aliasChecks := map[], 0, [], [];
    }

    /** `conditionalHoist(I)` for a load, counting each selection in
        `NumChosen`. */
    method ConditionalHoist(p: Program, l: LoopFacts, t: OperandTest, prof: Profile, i: Id) returns (r: bool)
      requires i in p.insts && i in home && p.insts[i].kind == Load
      modifies this`numChosen
      ensures r == ConditionalHoistSpec(t, p, l, prof, home, hoisted, i)
      ensures numChosen == old(numChosen) + if r then 1 else 0
    {
      var ok := CheckOperands(t, p, l, home, hoisted, i);
      if !ok {
        return false;
      }
      if p.insts[i].isVolatile {
        return false;
      }
      var executionTimes := ExecCount(prof, home[i]) > 1000.0;
      var lowAlias := DepFrac(prof, i) < 0.05;
      if lowAlias && executionTimes {
        numChosen := numChosen + 1;
      }
      r := lowAlias && executionTimes;
    }

    /** `addToReverseMap(I)`, with `I` already in `hoisted`. */
    method AddToReverseMap(p: Program, i: Id)
      requires WellFormed(p) && i in p.insts && p.insts[i].kind != Phi
      modifies this`hoistedToLoad
      ensures hoistedToLoad ==
        Append(old(hoistedToLoad), i, ReverseDeps(p, home, hoisted, old(hoistedToLoad), p.insts[i].operands))
    {
      ghost var d0 := hoistedToLoad;
      var ops := p.insts[i].operands;
      var k := 0;
      while k < |ops|
        invariant 0 <= k <= |ops|
        invariant hoistedToLoad == Append(d0, i, ReverseDeps(p, home, hoisted, d0, ops[..k]))
      {
        var v := ops[k];
        ghost var before := ReverseDeps(p, home, hoisted, d0, ops[..k]);
        assert ops[..k + 1][..k] == ops[..k];
        assert ReverseDeps(p, home, hoisted, d0, ops[..k + 1]) ==
          before + OperandDeps(p, home, hoisted, d0, v);
        if IsInst(p, home, v) {
          if p.insts[v.id].kind == Load {
            if v.id in hoisted {
              AppendAppend(d0, i, before, [v.id]);
              hoistedToLoad := Append(hoistedToLoad, i, [v.id]);
            } else {
              assert before + [] == before;
            }
          } else if v.id in hoistedToLoad {
            assert v in ops;
            assert v.id != i;
            var list := hoistedToLoad[v.id];
            assert list == d0[v.id];
            var j := 0;
            assert before + list[..0] == before;
            while j < |list|
              invariant 0 <= j <= |list|
              invariant hoistedToLoad == Append(d0, i, before + list[..j])
            {
              assert list[..j + 1] == list[..j] + [list[j]];
              assert before + list[..j + 1] == (before + list[..j]) + [list[j]];
              AppendAppend(d0, i, before + list[..j], [list[j]]);
              hoistedToLoad := Append(hoistedToLoad, i, [list[j]]);
              j := j + 1;
            }
            assert list[..j] == list;
          } else {
            assert v.id !in d0;
            assert v in ops;
            assert before + [] == before;
          }
        } else {
          assert before + [] == before;
        }
        k := k + 1;
      }
      assert ops[..k] == ops;
    }

    /** One iteration of `HoistRegion`'s instruction loop. */
    method VisitInst(p: Program, l: LoopFacts, t: OperandTest, prof: Profile, i: Id)
      requires WellFormed(p)
      modifies this`home, this`hoisted, this`hoistedOrder, this`hoistedToLoad, this`storeList,
               this`callInstExists, this`numChosen
      ensures HoistAbs() == Visit(p, l, t, prof, old(HoistAbs()), i)
    {
      ghost var s0 := HoistAbs();
      if i !in p.insts || i !in home {
        return;
      }
      var ins := p.insts[i];
      if ins.foldsToConstant {
        home := home - {i};
        return;
      }
      ghost var s1 := s0.(callSeen := s0.callSeen || ins.kind == Call,
                          stores := if ins.kind == Store then s0.stores + [i] else s0.stores);
      if ins.kind == Call {
        callInstExists := true;
      }
      if ins.kind == Store {
        storeList := storeList + [i];
      }
      assert HoistAbs() == s1;
      var safe := IsSafeToExecuteUnconditionally(l, home[i], ins);
      if HasLoopInvariantOperands(p, home, l, ins) && CanSinkOrHoist(l, ins) && safe {
        assert Hoists(p, l, s0.home, i);
        home := home[i := l.preheader];
      } else {
        assert !Hoists(p, l, s0.home, i);
        VisitChooses(p, l, t, prof, s0, i);
        ChooseInst(p, l, t, prof, i);
      }
    }

    /** The speculative branch of `HoistRegion`'s instruction loop: a load
        chosen by `conditionalHoist`, any other instruction by
        `checkOperands`, and the chosen one recorded with its list. */
    method ChooseInst(p: Program, l: LoopFacts, t: OperandTest, prof: Profile, i: Id)
      requires WellFormed(p) && i in p.insts && i in home
      modifies this`hoisted, this`hoistedOrder, this`hoistedToLoad, this`numChosen
      ensures HoistAbs() == Choose(p, l, t, prof, old(HoistAbs()), i)
    {
      var ins := p.insts[i];
      var load := false;
      if ins.kind == Load {
        load := ConditionalHoist(p, l, t, prof, i);
      }
      var others := false;
      var safe := IsSafeToExecuteUnconditionally(l, home[i], ins);
      if safe && CanSinkOrHoist(l, ins) {
        others := CheckOperands(t, p, l, home, hoisted, i);
      }
      if load || others {
        hoisted := hoisted + {i};
        hoistedOrder := hoistedOrder + [i];
        if ins.kind != Load {
          AddToReverseMap(p, i);
        }
      }
    }

    /** `HoistRegion`'s loop over the instructions of one block. */
    method HoistBlock(p: Program, l: LoopFacts, t: OperandTest, prof: Profile, xs: seq<Id>)
      requires WellFormed(p)
      modifies this`home, this`hoisted, this`hoistedOrder, this`hoistedToLoad, this`storeList,
               this`callInstExists, this`numChosen
      ensures HoistAbs() == VisitAll(p, l, t, prof, old(HoistAbs()), xs)
    {
      ghost var s0 := HoistAbs();
      var k := 0;
      while k < |xs|
        invariant 0 <= k <= |xs|
        invariant HoistAbs() == VisitAll(p, l, t, prof, s0, xs[..k])
      {
        assert xs[..k + 1][..k] == xs[..k];
        VisitInst(p, l, t, prof, xs[k]);
        k := k + 1;
      }
      assert xs[..k] == xs;
    }

    /** `HoistRegion(N)`: the instructions of `N`'s block unless it is in a
        sub-loop, then the dominator-tree children; a block outside the loop
        ends the walk below it. */
    method HoistRegion(p: Program, l: LoopFacts, t: OperandTest, prof: Profile, n: DomNode)
      requires WellFormed(p)
      modifies this`home, this`hoisted, this`hoistedOrder, this`hoistedToLoad, this`storeList,
               this`callInstExists, this`numChosen
      ensures HoistAbs() == VisitAll(p, l, t, prof, old(HoistAbs()), Region(p, l, n))
      decreases n, |n.children| + 1
    {
      if n.block !in l.blocks {
        return;
      }
      ghost var s0 := HoistAbs();
      if n.block !in l.subloopBlocks && n.block in p.blockInsts {
        HoistBlock(p, l, t, prof, p.blockInsts[n.block]);
      }
      HoistChildren(p, l, t, prof, n, s0, Head(p, l, n));
    }

    /** The loop of `HoistRegion(N)` over `N`'s children, after `head` was
        visited from `s0`. */
    method HoistChildren(p: Program, l: LoopFacts, t: OperandTest, prof: Profile, n: DomNode, ghost s0: HoistState,
                         ghost head: seq<Id>)
      requires WellFormed(p)
      requires HoistAbs() == VisitAll(p, l, t, prof, s0, head)
      modifies this`home, this`hoisted, this`hoistedOrder, this`hoistedToLoad, this`storeList,
               this`callInstExists, this`numChosen
      ensures HoistAbs() == VisitAll(p, l, t, prof, s0, head + RegionChildren(p, l, n, |n.children|))
      decreases n, 0
    {
      assert head + RegionChildren(p, l, n, 0) == head;
      var k := 0;
      while k < |n.children|
        invariant 0 <= k <= |n.children|
        invariant HoistAbs() == VisitAll(p, l, t, prof, s0, head + RegionChildren(p, l, n, k))
      {
        HoistRegion(p, l, t, prof, n.children[k]);
        RegionChildStep(p, l, t, prof, s0, head, n, k);
        k := k + 1;
      }
    }

    /** `sink(I)` as far as placement goes: the instruction moves to the
        first unique exit block its block dominates, with copies in the
        others, and is deleted when there is none.  A single exit block is
        handled on its own, as in the source. */
    method Sink(l: LoopFacts, i: Id) returns (placed: seq<BlockId>)
      requires i in home
      modifies this`home
      ensures placed == SinkTargets(l, old(home)[i])
      ensures placed == [] ==> home == old(home) - {i}
      ensures placed != [] ==> home == old(home)[i := placed[0]]
    {
      var exits := l.uniqueExits;
      var b := home[i];
      if |exits| == 1 {
        SingleExitSink(l, b);
        if (b, exits[0]) in l.dom {
          home := home[i := exits[0]];
          placed := [exits[0]];
        } else {
          home := home - {i};
          placed := [];
        }
        return;
      }
      if exits == [] {
        home := home - {i};
        return [];
      }
      placed := DominatedExits(l, b);
      if placed == [] {
        home := home - {i};
      } else {
        home := home[i := placed[0]];
      }
    }

    /** `makeFlags()`: a fresh flag slot per load of `hoistedOrder`, each
        cleared in the preheader. */
    method MakeFlags(p: Program)
      modifies this`loadToAlloca, this`numAllocas, this`preheaderClears
      ensures loadToAlloca == old(loadToAlloca) + FlagMap(Loads(p, hoistedOrder), old(numAllocas))
      ensures numAllocas == old(numAllocas) + |Loads(p, hoistedOrder)|
      ensures preheaderClears == old(preheaderClears) + Slots(old(numAllocas), |Loads(p, hoistedOrder)|)
    {
      var order := hoistedOrder;
      ghost var m0, n0, c0 := loadToAlloca, numAllocas, preheaderClears;
      ghost var ls: seq<Id> := [];
      var k := 0;
      while k < |order|
        invariant 0 <= k <= |order|
        invariant ls == Loads(p, order[..k])
        invariant loadToAlloca == m0 + FlagMap(ls, n0)
        invariant numAllocas == n0 + |ls|
        invariant preheaderClears == c0 + Slots(n0, |ls|)
      {
        var x := order[k];
        LoadsStep(p, order, k);
        if IsLoad(p, x) {
          FlagMapSnoc(m0, ls, x, n0);
          var slot := numAllocas;
          numAllocas := numAllocas + 1;
          preheaderClears := preheaderClears + [slot];
          loadToAlloca := loadToAlloca[x := slot];
          ls := ls + [x];
        } else {
          assert ls + [] == ls;
        }
        k := k + 1;
      }
      assert order[..k] == order;
    }

    /** `insertIntoRedo(I)`: nothing when `I` was handled already; otherwise
        move it to the preheader and clone it into its redo block (a load)
        or into the redo block of each load on its list. */
    method InsertIntoRedo(p: Program, l: LoopFacts, i: Id)
      requires i !in redone && IsLoad(p, i) ==> i in loadToBlock
      requires i !in redone && !IsLoad(p, i) ==> forall e :: e in DepsOf(hoistedToLoad, i) ==> e in loadToBlock
      modifies this`redone, this`home, this`instToClone
      ensures RedoAbs() == InsertIntoRedoSpec(p, l, hoistedToLoad, old(RedoAbs()), i)
    {
      if i in redone {
        return;
      }
      redone := redone + {i};
      home := home[i := l.preheader];
      if IsLoad(p, i) {
        instToClone := Append(instToClone, i, [loadToBlock[i]]);
      } else {
        var ds := DepsOf(hoistedToLoad, i);
        var blocks := loadToBlock;
        assert forall e :: e in ds ==> e in blocks;
        ghost var c0 := instToClone;
        var j := 0;
        while j < |ds|
          invariant 0 <= j <= |ds|
          modifies this`instToClone
          invariant instToClone == Append(c0, i, BlocksOf(ds[..j], blocks))
        {
          assert ds[..j + 1][..j] == ds[..j];
          assert ds[j] in ds;
          assert BlocksOf(ds[..j + 1], blocks) == BlocksOf(ds[..j], blocks) + [blocks[ds[j]]];
          AppendAppend(c0, i, BlocksOf(ds[..j], blocks), [blocks[ds[j]]]);
          instToClone := Append(instToClone, i, [blocks[ds[j]]]);
          j := j + 1;
        }
        assert ds[..j] == ds;
        assert CloneBlocks(p, hoistedToLoad, blocks, i) == BlocksOf(ds, blocks);
      }
    }

    /** `newRedo(I)` for a load with a flag: split a redo block and a rest
        block off its home block, test the flag there, and insert `I`. */
    method NewRedo(p: Program, l: LoopFacts, i: Id) returns (redoBlock: BlockId)
      requires IsLoad(p, i) && i in loadToAlloca
      modifies this`loadToBlock, this`redos, this`nextBlock, this`redone, this`home, this`instToClone
      ensures RedoAbs() == NewRedoSpec(p, l, hoistedToLoad, loadToAlloca, old(RedoAbs()), i)
      ensures redoBlock == old(nextBlock)
    {
      redoBlock := nextBlock;
      nextBlock := nextBlock + 2;
      redos := redos + [Redo(i, loadToAlloca[i], redoBlock)];
      loadToBlock := loadToBlock[i := redoBlock];
      InsertIntoRedo(p, l, i);
    }

    /** `createRedoBlocks()`: in `hoistedOrder` order, a new redo for each
        load and an insertion for everything else.  Afterwards every chosen
        instruction has a clone whenever every chosen non-load has a list,
        which is what the SSA fix-up asserts. */
    method CreateRedoBlocks(p: Program, l: LoopFacts)
      requires Consistent(p, HoistAbs())
      requires forall x :: x in hoistedOrder && IsLoad(p, x) ==> x in loadToAlloca
      requires redone == {} && loadToBlock == map[] && instToClone == map[]
      modifies this`loadToBlock, this`redos, this`nextBlock, this`redone, this`home, this`instToClone
      ensures RedoAbs() == RedoAll(p, l, hoistedToLoad, loadToAlloca, old(RedoAbs()), hoistedOrder)
      ensures Clonable(p, HoistAbs()) ==> forall x :: x in hoistedOrder ==> x in instToClone && instToClone[x] != []
    {
      ghost var st := HoistAbs();
      ghost var r0 := RedoAbs();
      var k := 0;
      while k < |hoistedOrder|
        invariant 0 <= k <= |hoistedOrder|
        invariant RedoAbs() == RedoAll(p, l, hoistedToLoad, loadToAlloca, r0, hoistedOrder[..k])
      {
        var x := hoistedOrder[k];
        assert hoistedOrder[..k + 1][..k] == hoistedOrder[..k];
        if IsLoad(p, x) {
          var _ := NewRedo(p, l, x);
        } else {
          RedoAllDone(p, l, st, loadToAlloca, r0, k);
          DepsHaveBlocks(p, l, st, loadToAlloca, k, RedoAbs());
          InsertIntoRedo(p, l, x);
        }
        k := k + 1;
      }
      assert hoistedOrder[..k] == hoistedOrder;
      RedoAllResult(p, l, st, loadToAlloca, r0);
    }

    /** `addAliasChecks()`: before every store of `storeList`, a check for
        each load of `hoistedOrder` whose address has the store's pointer
        type. */
    method AddAliasChecks(p: Program)
      requires forall x :: x in hoistedOrder && IsLoad(p, x) ==> x in loadToAlloca
      modifies this`aliasChecks
      ensures aliasChecks == old(aliasChecks) + ChecksFor(p, storeList, hoistedOrder, loadToAlloca)
    {
      var stores, order, flags := storeList, hoistedOrder, loadToAlloca;
      ghost var a0 := aliasChecks;
      var s := 0;
      while s < |stores|
        invariant 0 <= s <= |stores|
        invariant aliasChecks == a0 + ChecksFor(p, stores[..s], order, flags)
      {
        AddChecksForStore(p, stores[s], order, flags);
        ChecksForStep(p, stores, order, flags, s);
        s := s + 1;
      }
      assert stores[..s] == stores;
    }

    /** The inner loop of `addAliasChecks()`: the checks before one store. */
    method AddChecksForStore(p: Program, store: Id, order: seq<Id>, flags: map<Id, nat>)
      requires forall x :: x in order && IsLoad(p, x) ==> x in flags
      modifies this`aliasChecks
      ensures aliasChecks == old(aliasChecks) + ChecksForStore(p, store, order, flags)
    {
      ghost var a0 := aliasChecks;
      var k := 0;
      assert order[..0] == [];
      while k < |order|
        invariant 0 <= k <= |order|
        invariant aliasChecks == a0 + ChecksForStore(p, store, order[..k], flags)
      {
        var x := order[k];
        ChecksForStoreStep(p, store, order, flags, k);
        if IsLoad(p, x) && SameType(p, store, x) {
          aliasChecks := aliasChecks + [Check(store, x, flags[x])];
        }
        k := k + 1;
      }
      assert order[..k] == order;
    }

    /** What `Speculate` leaves behind, from the flags `m0`, the slot count
        `n0`, the clears `c0`, the redo state `r0` and the checks `a0` it
        started with: a fresh slot per load of `hoistedOrder`, cleared in the
        preheader, the redo blocks of `RedoAll` and the checks of
        `ChecksFor`. */
    ghost predicate Speculated(p: Program, l: LoopFacts, m0: map<Id, nat>, n0: nat, c0: seq<nat>,
                               r0: RedoState, a0: seq<Check>)
      reads this
    {
      && loadToAlloca == m0 + FlagMap(Loads(p, hoistedOrder), n0)
      && numAllocas == n0 + |Loads(p, hoistedOrder)|
      && preheaderClears == c0 + Slots(n0, |Loads(p, hoistedOrder)|)
      && (forall x :: x in hoistedOrder && IsLoad(p, x) ==> x in loadToAlloca)
      && RedoAbs() == RedoAll(p, l, hoistedToLoad, loadToAlloca, r0, hoistedOrder)
      && aliasChecks == a0 + ChecksFor(p, storeList, hoistedOrder, loadToAlloca)
    }

    /** The flags and the redo blocks, the first two steps of `Speculate`. */
    method FlagsAndRedo(p: Program, l: LoopFacts)
      requires Consistent(p, HoistAbs())
      requires redone == {} && loadToBlock == map[] && instToClone == map[]
      modifies this`loadToAlloca, this`numAllocas, this`preheaderClears, this`loadToBlock, this`redos,
               this`nextBlock, this`redone, this`home, this`instToClone
      ensures loadToAlloca == old(loadToAlloca) + FlagMap(Loads(p, hoistedOrder), old(numAllocas))
      ensures numAllocas == old(numAllocas) + |Loads(p, hoistedOrder)|
      ensures preheaderClears == old(preheaderClears) + Slots(old(numAllocas), |Loads(p, hoistedOrder)|)
      ensures forall x :: x in hoistedOrder && IsLoad(p, x) ==> x in loadToAlloca
      ensures RedoAbs() == RedoAll(p, l, hoistedToLoad, loadToAlloca, old(RedoAbs()), hoistedOrder)
      ensures Clonable(p, HoistAbs()) ==> forall x :: x in hoistedOrder ==> x in instToClone && instToClone[x] != []
    {
      ghost var r0 := RedoAbs();
      MakeFlags(p);
      assert RedoAbs() == r0;
      LoadsDistinct(p, hoistedOrder);
      FlagMapOnePerLoad(Loads(p, hoistedOrder), old(numAllocas));
      CreateRedoBlocks(p, l);
    }

    /** The part of `runOnLoop(L)` done only when `HoistRegion` saw no call:
        the flags, the redo blocks and the alias checks. */
    method Speculate(p: Program, l: LoopFacts)
      requires Consistent(p, HoistAbs())
      requires redone == {} && loadToBlock == map[] && instToClone == map[]
      modifies this`loadToAlloca, this`numAllocas, this`preheaderClears, this`loadToBlock, this`redos,
               this`nextBlock, this`redone, this`home, this`instToClone, this`aliasChecks
      ensures Speculated(p, l, old(loadToAlloca), old(numAllocas), old(preheaderClears), old(RedoAbs()),
                         old(aliasChecks))
      ensures Clonable(p, HoistAbs()) ==> forall x :: x in hoistedOrder ==> x in instToClone && instToClone[x] != []
    {
      FlagsAndRedo(p, l);
      ghost var r1 := RedoAbs();
      AddAliasChecks(p);
      assert RedoAbs() == r1;
    }

    /** `runOnLoop(L)` for a loop with a preheader, the sinking having been
        done: reset the per-loop bookkeeping (not `storeList`), walk the loop
        from its header, and, when no call was seen, build the flags, the
        redo blocks and the alias checks.  With `t == AsWritten` this is the
        pass as the source writes it, whose chosen instructions all get a
        clone (what the SSA fix-up asserts) only when the bookkeeping is
        clonable; with `t == Corrected` it always is. */
    method RunOnLoop(p: Program, l: LoopFacts, t: OperandTest, prof: Profile, header: DomNode) returns (ghost st: HoistState)
      requires WellFormed(p)
      requires Distinct(Region(p, l, header))
      requires forall k :: 0 <= k < |Region(p, l, header)| ==>
        Region(p, l, header)[k] in home && Region(p, l, header)[k] in p.insts
      modifies this
      ensures st == HoistResult(p, l, t, prof, header, old(home), old(storeList), old(numChosen))
      ensures Consistent(p, st)
      ensures hoisted == st.hoisted && hoistedOrder == st.order && hoistedToLoad == st.deps
      ensures numChosen == st.chosen
      ensures storeList == old(storeList) + StoresIn(p, Region(p, l, header))
      ensures st.callSeen <==> CallIn(p, Region(p, l, header))
      ensures !callInstExists
      ensures st.callSeen ==>
        home == st.home && loadToAlloca == old(loadToAlloca) && preheaderClears == old(preheaderClears) &&
        redos == old(redos) && aliasChecks == old(aliasChecks)
      ensures !st.callSeen ==>
        && Speculated(p, l, old(loadToAlloca), old(numAllocas), old(preheaderClears),
                      RedoState(st.home, {}, map[], map[], old(redos), old(nextBlock)), old(aliasChecks))
        && (Clonable(p, st) ==> forall x :: x in hoistedOrder ==> x in instToClone && instToClone[x] != [])
      ensures t == Corrected ==> Clonable(p, st)
    {
      st := ResetAndHoist(p, l, t, prof, header);
      ghost var r0 := RedoAbs();
      SpeculateUnlessCall(p, l, loadToAlloca, numAllocas, preheaderClears, r0, aliasChecks);
    }

    /** The end of `runOnLoop(L)`: the speculation, unless a call was seen,
        and the reset of `callInstExists`. */
    method SpeculateUnlessCall(p: Program, l: LoopFacts, ghost m0: map<Id, nat>, ghost n0: nat,
                               ghost c0: seq<nat>, ghost r0: RedoState, ghost a0: seq<Check>)
      requires m0 == loadToAlloca && n0 == numAllocas && c0 == preheaderClears && r0 == RedoAbs()
      requires a0 == aliasChecks
      requires Consistent(p, HoistAbs())
      requires redone == {} && loadToBlock == map[] && instToClone == map[]
      modifies this`loadToAlloca, this`numAllocas, this`preheaderClears, this`loadToBlock, this`redos,
               this`nextBlock, this`redone, this`home, this`instToClone, this`aliasChecks, this`callInstExists
      ensures !callInstExists
      ensures old(callInstExists) ==>
        home == old(home) && loadToAlloca == old(loadToAlloca) && preheaderClears == old(preheaderClears) &&
        redos == old(redos) && aliasChecks == old(aliasChecks)
      ensures !old(callInstExists) ==>
        && Speculated(p, l, m0, n0, c0, r0, a0)
        && (Clonable(p, old(HoistAbs())) ==> forall x :: x in hoistedOrder ==> x in instToClone && instToClone[x] != [])
    {
      if !callInstExists {
        Speculate(p, l);
      }
      callInstExists := false;
    }

    /** The first half of `runOnLoop(L)`: reset the per-loop bookkeeping
        and walk the loop from its header. */
    method ResetAndHoist(p: Program, l: LoopFacts, t: OperandTest, prof: Profile, header: DomNode) returns (ghost st: HoistState)
      requires WellFormed(p)
      requires Distinct(Region(p, l, header))
      requires forall k :: 0 <= k < |Region(p, l, header)| ==>
        Region(p, l, header)[k] in home && Region(p, l, header)[k] in p.insts
      modifies this`home, this`hoisted, this`hoistedOrder, this`hoistedToLoad, this`storeList,
               this`callInstExists, this`numChosen, this`redone, this`loadToBlock, this`instToClone
      ensures st == HoistResult(p, l, t, prof, header, old(home), old(storeList), old(numChosen))
      ensures HoistAbs() == st
      ensures redone == {} && loadToBlock == map[] && instToClone == map[]
      ensures Consistent(p, st) && (t == Corrected ==> Clonable(p, st))
      ensures st.stores == old(storeList) + StoresIn(p, Region(p, l, header))
      ensures st.callSeen <==> CallIn(p, Region(p, l, header))
    {
      hoisted, hoistedToLoad, redone, loadToBlock, instToClone, hoistedOrder := {}, map[], {}, map[], map[], [];
      callInstExists := false;
      ghost var s0 := FreshHoist(old(home), old(storeList), old(numChosen));
      assert HoistAbs() == s0;
      HoistRegion(p, l, t, prof, header);
      st := HoistAbs();
      ghost var xs := Region(p, l, header);
      VisitAllConsistent(p, l, t, prof, s0, xs);
      VisitAllStores(p, l, t, prof, s0, xs);
      VisitAllCalls(p, l, t, prof, s0, xs);
    }
  }
}
