/* What the pass builds once `HoistRegion` has chosen its speculative
 * instructions and saw no call: a flag per chosen load (`makeFlags`), a redo
 * block per chosen load holding clones of it and of the instructions that
 * depend on it (`createRedoBlocks`, `newRedo`, `insertIntoRedo`), and the
 * alias checks before the stores (`addAliasChecks`).
 */
module LicmRedo {
  import opened LicmIr
  import opened LicmHoist

  predicate IsLoad(p: Program, x: Id)
  {
    x in p.insts && p.insts[x].kind == Load
  }

  /** The loads of `xs`, in order. */
  function Loads(p: Program, xs: seq<Id>): (r: seq<Id>)
    ensures forall x :: x in r <==> x in xs && IsLoad(p, x)
    ensures |r| <= |xs|
  {
    if xs == [] then []
    else Loads(p, xs[..|xs| - 1]) + (if IsLoad(p, xs[|xs| - 1]) then [xs[|xs| - 1]] else [])
  }

  // ---------------------------------------------------------------------
  // makeFlags

  /** The flag slot `makeFlags` allocates for each of the loads `ls`, when
      the slots allocated so far number `n0`. */
  function FlagMap(ls: seq<Id>, n0: nat): map<Id, nat>
  {
    if ls == [] then map[] else FlagMap(ls[..|ls| - 1], n0)[ls[|ls| - 1] := n0 + |ls| - 1]
  }

  /** The slots numbered `n0` up to `n0 + c`, in order. */
  function Slots(n0: nat, c: nat): seq<nat>
  {
    if c == 0 then [] else Slots(n0, c - 1) + [n0 + c - 1]
  }

  lemma {:induction false} SlotsAre(n0: nat, c: nat)
    ensures |Slots(n0, c)| == c
    ensures forall j :: 0 <= j < c ==> Slots(n0, c)[j] == n0 + j
  {
    if c > 0 {
      SlotsAre(n0, c - 1);
    }
  }

  /** Distinct loads get one slot each: the j-th load gets slot `n0 + j`, so
      no two share a slot, and nothing else gets one. */
  lemma {:induction false} FlagMapOnePerLoad(ls: seq<Id>, n0: nat)
    requires Distinct(ls)
    ensures forall x :: x in FlagMap(ls, n0) <==> x in ls
    ensures forall j :: 0 <= j < |ls| ==> FlagMap(ls, n0)[ls[j]] == n0 + j
  {
    if ls != [] {
      var q := ls[..|ls| - 1];
      assert forall j :: 0 <= j < |q| ==> q[j] == ls[j];
      FlagMapOnePerLoad(q, n0);
      assert ls[|ls| - 1] !in q;
    }
  }

  lemma {:induction false} LoadsDistinct(p: Program, xs: seq<Id>)
    requires Distinct(xs)
    ensures Distinct(Loads(p, xs))
  {
    if xs != [] {
      var q := xs[..|xs| - 1];
      assert forall j :: 0 <= j < |q| ==> q[j] == xs[j];
      LoadsDistinct(p, q);
      assert xs[|xs| - 1] !in q;
    }
  }

  // ---------------------------------------------------------------------
  // createRedoBlocks

  /** The redo machinery of one speculative load: its home block tests
      `flag` and branches to `block`, which re-executes the load and stores
      false into `flag`. */
  datatype Redo = Redo(load: Id, flag: nat, block: BlockId)

  /** The part of the pass's state the redo blocks change: where each
      instruction sits, the instructions already moved (`Hoisted`), the redo
      block of each clone (`instToClone`), each load's redo block
      (`loadToBlock`), the redo machinery built, and the next fresh block. */
  datatype RedoState = RedoState(home: map<Id, BlockId>, redone: set<Id>, clones: map<Id, seq<BlockId>>,
                                 blocks: map<Id, BlockId>, redos: seq<Redo>, nextBlock: BlockId)

  /** The redo blocks of the loads `es`. */
  function BlocksOf(es: seq<Id>, blocks: map<Id, BlockId>): seq<BlockId>
  {
    if es == [] then []
    else BlocksOf(es[..|es| - 1], blocks) + (if es[|es| - 1] in blocks then [blocks[es[|es| - 1]]] else [])
  }

  /** When every load has a redo block, there is one block per entry, the
      j-th being the j-th load's. */
  lemma {:induction false} BlocksOfExact(es: seq<Id>, blocks: map<Id, BlockId>)
    requires forall e :: e in es ==> e in blocks
    ensures |BlocksOf(es, blocks)| == |es|
    ensures forall j :: 0 <= j < |es| ==> es[j] in blocks && BlocksOf(es, blocks)[j] == blocks[es[j]]
  {
    if es != [] {
      var q := es[..|es| - 1];
      assert forall j :: 0 <= j < |q| ==> q[j] == es[j];
      assert forall e :: e in q ==> e in es;
      BlocksOfExact(q, blocks);
      var last := es[|es| - 1];
      assert last in es;
      assert last in blocks;
      assert BlocksOf(es, blocks) == BlocksOf(q, blocks) + [blocks[last]];
    }
  }

  lemma {:induction false} BlocksOfFrame(es: seq<Id>, blocks: map<Id, BlockId>, y: Id, b: BlockId)
    requires y !in es
    ensures BlocksOf(es, blocks[y := b]) == BlocksOf(es, blocks)
  {
    if es != [] {
      BlocksOfFrame(es[..|es| - 1], blocks, y, b);
    }
  }

  function DepsOf(deps: map<Id, seq<Id>>, i: Id): seq<Id>
  {
    if i in deps then deps[i] else []
  }

  /** The blocks `insertIntoRedo` clones `i` into: a load once, into its own
      redo block; any other instruction once per entry of its list, into
      that load's redo block. */
  function CloneBlocks(p: Program, deps: map<Id, seq<Id>>, blocks: map<Id, BlockId>, i: Id): seq<BlockId>
  {
    if IsLoad(p, i) then (if i in blocks then [blocks[i]] else [])
    else BlocksOf(DepsOf(deps, i), blocks)
  }

  /** `insertIntoRedo(I)`: nothing when I was handled already; otherwise
      move I to the preheader and record its clones. */
  function InsertIntoRedoSpec(p: Program, l: LoopFacts, deps: map<Id, seq<Id>>, rs: RedoState, i: Id): RedoState
  {
    if i in rs.redone then rs
    else rs.(redone := rs.redone + {i}, home := rs.home[i := l.preheader],
             clones := Append(rs.clones, i, CloneBlocks(p, deps, rs.blocks, i)))
  }

  /** `newRedo(I)` for a load: split off a fresh redo block, test the flag
      in the home block, then insert I into the redo block. */
  function NewRedoSpec(p: Program, l: LoopFacts, deps: map<Id, seq<Id>>, flags: map<Id, nat>,
                       rs: RedoState, i: Id): RedoState
    requires i in flags
  {
    var b := rs.nextBlock;
    InsertIntoRedoSpec(p, l, deps, rs.(blocks := rs.blocks[i := b], redos := rs.redos + [Redo(i, flags[i], b)],
                                       nextBlock := b + 2), i)
  }

  /** The first loop of `createRedoBlocks` over `xs`. */
  function RedoAll(p: Program, l: LoopFacts, deps: map<Id, seq<Id>>, flags: map<Id, nat>,
                   rs: RedoState, xs: seq<Id>): RedoState
    requires forall x :: x in xs && IsLoad(p, x) ==> x in flags
  {
    if xs == [] then rs
    else
      var x := xs[|xs| - 1];
      var mid := RedoAll(p, l, deps, flags, rs, xs[..|xs| - 1]);
      if IsLoad(p, x) then NewRedoSpec(p, l, deps, flags, mid, x) else InsertIntoRedoSpec(p, l, deps, mid, x)
  }

  /** The first `k` chosen instructions were moved to the preheader. */
  ghost predicate Moved(l: LoopFacts, order: seq<Id>, k: int, redone: set<Id>, home: map<Id, BlockId>)
    requires 0 <= k <= |order|
  {
    forall j :: 0 <= j < k ==> order[j] in redone && order[j] in home && home[order[j]] == l.preheader
  }

  /** Each of the first `k` chosen loads has its redo block, a single clone
      there, and its redo machinery on its flag. */
  ghost predicate LoadsDone(p: Program, order: seq<Id>, flags: map<Id, nat>, k: int, blocks: map<Id, BlockId>,
                            clones: map<Id, seq<BlockId>>, redos: seq<Redo>)
    requires 0 <= k <= |order|
  {
    forall j :: 0 <= j < k && IsLoad(p, order[j]) ==>
      order[j] in blocks && order[j] in clones && clones[order[j]] == [blocks[order[j]]] &&
      order[j] in flags && Redo(order[j], flags[order[j]], blocks[order[j]]) in redos
  }

  /** Each of the first `k` chosen non-loads has clones exactly when it has
      a list, one in the redo block of each entry. */
  ghost predicate OthersDone(p: Program, order: seq<Id>, deps: map<Id, seq<Id>>, k: int,
                             blocks: map<Id, BlockId>, clones: map<Id, seq<BlockId>>)
    requires 0 <= k <= |order|
  {
    forall j :: 0 <= j < k && !IsLoad(p, order[j]) ==>
      (order[j] in clones <==> order[j] in deps) &&
      (order[j] in deps ==> clones[order[j]] == BlocksOf(deps[order[j]], blocks))
  }

  /** Only the first `k` chosen instructions were touched. */
  ghost predicate Footprint(order: seq<Id>, k: int, rs: RedoState)
    requires 0 <= k <= |order|
  {
    (forall x :: x in rs.redone ==> x in order[..k]) &&
    (forall x :: x in rs.blocks ==> x in order[..k]) &&
    (forall x :: x in rs.clones ==> x in order[..k])
  }

  /** What holds once the first `k` chosen instructions are done. */
  ghost predicate RedoneUpTo(p: Program, l: LoopFacts, st: HoistState, flags: map<Id, nat>, k: int, rs: RedoState)
    requires 0 <= k <= |st.order|
  {
    Moved(l, st.order, k, rs.redone, rs.home) &&
    LoadsDone(p, st.order, flags, k, rs.blocks, rs.clones, rs.redos) &&
    OthersDone(p, st.order, st.deps, k, rs.blocks, rs.clones) &&
    Footprint(st.order, k, rs)
  }

  /** The next instruction has not been touched yet. */
  lemma NextUntouched(order: seq<Id>, k: int, rs: RedoState)
    requires Distinct(order) && 0 <= k < |order| && Footprint(order, k, rs)
    ensures order[k] !in rs.redone && order[k] !in rs.blocks && order[k] !in rs.clones
    ensures forall j :: 0 <= j < k ==> order[j] != order[k]
  {
    var pre := order[..k];
    forall j | 0 <= j < k ensures order[j] != order[k] {
      assert 0 <= j < k < |order|;
    }
    forall m | 0 <= m < |pre| ensures pre[m] != order[k] {
      assert pre[m] == order[m];
    }
    assert order[k] !in pre;
    assert Footprint(order, k, rs);
    assert forall x :: x in rs.redone ==> x in pre;
    assert forall x :: x in rs.blocks ==> x in pre;
    assert forall x :: x in rs.clones ==> x in pre;
    assert order[k] !in rs.redone;
    assert order[k] !in rs.blocks;
    assert order[k] !in rs.clones;
  }

  /** Every load on the list of the `k`-th chosen instruction is among the
      first `k`, hence already has its redo block. */
  lemma DepsHaveBlocks(p: Program, l: LoopFacts, st: HoistState, flags: map<Id, nat>, k: int, rs: RedoState)
    requires Consistent(p, st) && 0 <= k < |st.order|
    requires LoadsDone(p, st.order, flags, k, rs.blocks, rs.clones, rs.redos)
    ensures forall e :: e in DepsOf(st.deps, st.order[k]) ==> e in rs.blocks && e in st.order[..k]
  {
    var x := st.order[k];
    if x in st.deps {
      assert DepsBefore(p, st.deps[st.order[k]], st.order[..k]);
      forall e | e in st.deps[x] ensures e in rs.blocks {
        var j :| 0 <= j < k && st.order[j] == e;
      }
    }
  }

  lemma LoadStepDone(p: Program, l: LoopFacts, st: HoistState, flags: map<Id, nat>, k: int, rs: RedoState)
    requires Consistent(p, st) && 0 <= k < |st.order| && IsLoad(p, st.order[k]) && st.order[k] in flags
    requires RedoneUpTo(p, l, st, flags, k, rs)
    ensures RedoneUpTo(p, l, st, flags, k + 1, NewRedoSpec(p, l, st.deps, flags, rs, st.order[k]))
  {
    var x := st.order[k];
    var b := rs.nextBlock;
    NextUntouched(st.order, k, rs);
    var r := NewRedoSpec(p, l, st.deps, flags, rs, x);
    assert r.redone == rs.redone + {x} && r.home == rs.home[x := l.preheader];
    assert r.blocks == rs.blocks[x := b] && r.redos == rs.redos + [Redo(x, flags[x], b)];
    assert r.clones == Append(rs.clones, x, [b]);
    assert [] + [b] == [b];
    assert r.clones == rs.clones[x := [b]];
    assert st.order[..k + 1] == st.order[..k] + [x];
    forall j | 0 <= j < k && !IsLoad(p, st.order[j]) && st.order[j] in st.deps
      ensures BlocksOf(st.deps[st.order[j]], r.blocks) == BlocksOf(st.deps[st.order[j]], rs.blocks)
    {
      assert DepsBefore(p, st.deps[st.order[j]], st.order[..j]);
      assert forall m :: 0 <= m < j ==> st.order[..j][m] == st.order[m];
      assert x !in st.order[..j];
      BlocksOfFrame(st.deps[st.order[j]], rs.blocks, x, b);
    }
  }

  lemma OtherStepDone(p: Program, l: LoopFacts, st: HoistState, flags: map<Id, nat>, k: int, rs: RedoState)
    requires Consistent(p, st) && 0 <= k < |st.order| && !IsLoad(p, st.order[k])
    requires RedoneUpTo(p, l, st, flags, k, rs)
    ensures RedoneUpTo(p, l, st, flags, k + 1, InsertIntoRedoSpec(p, l, st.deps, rs, st.order[k]))
  {
    var x := st.order[k];
    NextUntouched(st.order, k, rs);
    DepsHaveBlocks(p, l, st, flags, k, rs);
    var cs := BlocksOf(DepsOf(st.deps, x), rs.blocks);
    BlocksOfExact(DepsOf(st.deps, x), rs.blocks);
    var r := InsertIntoRedoSpec(p, l, st.deps, rs, x);
    assert r.redone == rs.redone + {x} && r.home == rs.home[x := l.preheader];
    assert r.blocks == rs.blocks && r.redos == rs.redos;
    assert r.clones == Append(rs.clones, x, cs);
    assert x in r.clones <==> x in st.deps;
    assert st.order[..k + 1] == st.order[..k] + [x];
  }

  lemma {:induction false} RedoAllDone(p: Program, l: LoopFacts, st: HoistState, flags: map<Id, nat>,
                                       rs: RedoState, k: int)
    requires Consistent(p, st) && 0 <= k <= |st.order|
    requires forall x :: x in st.order && IsLoad(p, x) ==> x in flags
    requires rs.redone == {} && rs.blocks == map[] && rs.clones == map[]
    ensures RedoneUpTo(p, l, st, flags, k, RedoAll(p, l, st.deps, flags, rs, st.order[..k]))
  {
    if k > 0 {
      RedoAllDone(p, l, st, flags, rs, k - 1);
      assert st.order[..k][..k - 1] == st.order[..k - 1];
      var mid := RedoAll(p, l, st.deps, flags, rs, st.order[..k - 1]);
      if IsLoad(p, st.order[k - 1]) {
        LoadStepDone(p, l, st, flags, k - 1, mid);
      } else {
        OtherStepDone(p, l, st, flags, k - 1, mid);
      }
    }
  }

  /** After the redo blocks are built from a fresh start: every chosen
      instruction sits in the preheader; every chosen load has exactly one
      clone, in its own redo block, and its redo machinery on its own flag;
      every other chosen instruction has one clone per entry of its list,
      each in that load's redo block; and, when every chosen non-load has a
      list, every chosen instruction has a clone, as the SSA fix-up asserts. */
  lemma RedoAllResult(p: Program, l: LoopFacts, st: HoistState, flags: map<Id, nat>, rs: RedoState)
    requires Consistent(p, st)
    requires forall x :: x in st.order && IsLoad(p, x) ==> x in flags
    requires rs.redone == {} && rs.blocks == map[] && rs.clones == map[]
    ensures var r := RedoAll(p, l, st.deps, flags, rs, st.order);
      (forall x :: x in st.order ==> x in r.redone && x in r.home && r.home[x] == l.preheader) &&
      (forall x :: x in st.order && IsLoad(p, x) ==>
         x in r.blocks && x in r.clones && r.clones[x] == [r.blocks[x]] &&
         Redo(x, flags[x], r.blocks[x]) in r.redos) &&
      (forall x :: x in st.order && !IsLoad(p, x) && x in st.deps ==>
         x in r.clones && |r.clones[x]| == |st.deps[x]| &&
         forall j :: 0 <= j < |st.deps[x]| ==> st.deps[x][j] in r.blocks && r.clones[x][j] == r.blocks[st.deps[x][j]]) &&
      (forall x :: x in r.clones ==> x in st.order) &&
      (Clonable(p, st) ==> forall x :: x in st.order ==> x in r.clones && r.clones[x] != [])
  {
    RedoAllDone(p, l, st, flags, rs, |st.order|);
    assert st.order[..|st.order|] == st.order;
    var r := RedoAll(p, l, st.deps, flags, rs, st.order);
    forall x | x in st.order && !IsLoad(p, x) && x in st.deps
      ensures forall e :: e in st.deps[x] ==> e in r.blocks
    {
      DepsAreChosenLoads(p, st, x);
    }
    forall x | x in st.order && !IsLoad(p, x) && x in st.deps
      ensures |r.clones[x]| == |st.deps[x]| &&
        forall j :: 0 <= j < |st.deps[x]| ==> st.deps[x][j] in r.blocks && r.clones[x][j] == r.blocks[st.deps[x][j]]
    {
      BlocksOfExact(st.deps[x], r.blocks);
    }
  }

  // ---------------------------------------------------------------------
  // addAliasChecks

  /** An alias check before `store` for speculative load `load`, updating
      the load's flag. */
  datatype Check = Check(store: Id, load: Id, flag: nat)

  /** A store and a load whose addresses have the same pointer type. */
  predicate SameType(p: Program, s: Id, x: Id)
  {
    s in p.insts && x in p.insts && p.insts[s].pointerType == p.insts[x].pointerType
  }

  /** The checks `addAliasChecks` inserts before store `s`, one per chosen
      load of the same pointer type, in order. */
  function ChecksForStore(p: Program, s: Id, order: seq<Id>, flags: map<Id, nat>): seq<Check>
    requires forall x :: x in order && IsLoad(p, x) ==> x in flags
  {
    if order == [] then []
    else
      var x := order[|order| - 1];
      ChecksForStore(p, s, order[..|order| - 1], flags) +
        (if IsLoad(p, x) && SameType(p, s, x) then [Check(s, x, flags[x])] else [])
  }

  /** The checks `addAliasChecks` inserts, store by store. */
  function ChecksFor(p: Program, stores: seq<Id>, order: seq<Id>, flags: map<Id, nat>): seq<Check>
    requires forall x :: x in order && IsLoad(p, x) ==> x in flags
  {
    if stores == [] then []
    else ChecksFor(p, stores[..|stores| - 1], order, flags) + ChecksForStore(p, stores[|stores| - 1], order, flags)
  }

  lemma {:induction false} ChecksForStoreCover(p: Program, s: Id, order: seq<Id>, flags: map<Id, nat>)
    requires forall x :: x in order && IsLoad(p, x) ==> x in flags
    ensures forall c :: c in ChecksForStore(p, s, order, flags) ==>
      c.store == s && c.load in order && IsLoad(p, c.load) && SameType(p, s, c.load) && c.flag == flags[c.load]
    ensures forall x :: x in order && IsLoad(p, x) && SameType(p, s, x) ==>
      Check(s, x, flags[x]) in ChecksForStore(p, s, order, flags)
  {
    if order != [] {
      ChecksForStoreCover(p, s, order[..|order| - 1], flags);
    }
  }

  /** Before every listed store there is a check for every chosen load of
      the same pointer type, on that load's flag, and there is no other
      check. */
  lemma {:induction false} ChecksForCover(p: Program, stores: seq<Id>, order: seq<Id>, flags: map<Id, nat>)
    requires forall x :: x in order && IsLoad(p, x) ==> x in flags
    ensures forall c :: c in ChecksFor(p, stores, order, flags) ==>
      c.store in stores && c.load in order && IsLoad(p, c.load) && SameType(p, c.store, c.load) &&
      c.flag == flags[c.load]
    ensures forall s, x :: s in stores && x in order && IsLoad(p, x) && SameType(p, s, x) ==>
      Check(s, x, flags[x]) in ChecksFor(p, stores, order, flags)
  {
    if stores != [] {
      var q := stores[..|stores| - 1];
      var s := stores[|stores| - 1];
      ChecksForCover(p, q, order, flags);
      ChecksForStoreCover(p, s, order, flags);
      assert forall t :: t in stores ==> t in q || t == s;
    }
  }
}
