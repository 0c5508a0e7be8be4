/* What `HoistRegion` does to the pass's bookkeeping, as a function of the
 * instructions it visits: ordinary hoisting to the preheader, folding away,
 * choosing instructions for speculation (`hoisted`, `hoistedOrder`), the
 * dependency lists of `addToReverseMap` (`hoistedToLoad`), the store list
 * and the call flag.  The lemmas state what holds of the result.
 */
module LicmHoist {
  import opened LicmIr

  /** The part of the pass's state `HoistRegion` changes: where each live
      instruction sits, the chosen instructions as a set and in the order
      they were chosen, each chosen non-load's list of speculative loads it
      depends on, the stores seen, whether a call was seen, and the count of
      loads `conditionalHoist` selected. */
  datatype HoistState = HoistState(home: map<Id, BlockId>, hoisted: set<Id>, order: seq<Id>,
                                   deps: map<Id, seq<Id>>, stores: seq<Id>, callSeen: bool,
                                   chosen: nat)

  /** `m` with `xs` appended to the list of `i`, an absent list counting as
      empty and nothing appended creating no entry. */
  function Append(m: map<Id, seq<Id>>, i: Id, xs: seq<Id>): map<Id, seq<Id>>
  {
    if xs == [] then m else m[i := (if i in m then m[i] else []) + xs]
  }

  lemma AppendAppend(m: map<Id, seq<Id>>, i: Id, a: seq<Id>, b: seq<Id>)
    ensures Append(Append(m, i, a), i, b) == Append(m, i, a + b)
  {
    if a == [] {
      assert a + b == b;
    } else if b == [] {
      assert a + b == a;
    } else {
      var old_ := if i in m then m[i] else [];
      assert (old_ + a) + b == old_ + (a + b);
    }
  }

  /** What `addToReverseMap` appends to an instruction's list for one
      operand: a chosen load itself, or the list of a non-load that has one. */
  function OperandDeps(p: Program, home: map<Id, BlockId>, hoisted: set<Id>, deps: map<Id, seq<Id>>,
                       v: Value): seq<Id>
  {
    if !IsInst(p, home, v) then []
    else if p.insts[v.id].kind == Load then (if v.id in hoisted then [v.id] else [])
    else if v.id in deps then deps[v.id] else []
  }

  /** The list `addToReverseMap` gives an instruction with operands `ops`:
      the concatenation over the operands in order, repetitions kept. */
  function ReverseDeps(p: Program, home: map<Id, BlockId>, hoisted: set<Id>, deps: map<Id, seq<Id>>,
                       ops: seq<Value>): seq<Id>
  {
    if ops == [] then []
    else ReverseDeps(p, home, hoisted, deps, ops[..|ops| - 1]) + OperandDeps(p, home, hoisted, deps, ops[|ops| - 1])
  }

  /** Every entry comes from some operand, and everything any operand
      contributes is an entry. */
  lemma {:induction false} ReverseDepsFromOperands(p: Program, home: map<Id, BlockId>, hoisted: set<Id>,
                                                   deps: map<Id, seq<Id>>, ops: seq<Value>)
    ensures forall e :: e in ReverseDeps(p, home, hoisted, deps, ops) ==>
      exists k :: 0 <= k < |ops| && e in OperandDeps(p, home, hoisted, deps, ops[k])
    ensures forall k, e :: 0 <= k < |ops| && e in OperandDeps(p, home, hoisted, deps, ops[k]) ==>
      e in ReverseDeps(p, home, hoisted, deps, ops)
  {
    if ops != [] {
      var q := ops[..|ops| - 1];
      ReverseDepsFromOperands(p, home, hoisted, deps, q);
      assert forall k :: 0 <= k < |q| ==> q[k] == ops[k];
    }
  }

  /** The instruction is moved to the preheader by ordinary LICM: its
      operands are loop-invariant and it may be hoisted and executed on
      every iteration. */
  predicate Hoists(p: Program, l: LoopFacts, home: map<Id, BlockId>, i: Id)
    requires i in p.insts && i in home
  {
    HasLoopInvariantOperands(p, home, l, p.insts[i]) && CanSinkOrHoist(l, p.insts[i]) &&
    SafeToExecute(l, home[i], p.insts[i])
  }

  /** One iteration of `HoistRegion`'s instruction loop.  An id that is not a
      live instruction is passed over. */
  function Visit(p: Program, l: LoopFacts, t: OperandTest, prof: Profile, st: HoistState, i: Id): HoistState
  {
    if i !in p.insts || i !in st.home then st
    else
      var ins := p.insts[i];
      if ins.foldsToConstant then st.(home := st.home - {i})
      else
        var st1 := st.(callSeen := st.callSeen || ins.kind == Call,
                       stores := if ins.kind == Store then st.stores + [i] else st.stores);
        if Hoists(p, l, st.home, i) then st1.(home := st.home[i := l.preheader])
        else
          var load := ins.kind == Load && ConditionalHoistSpec(t, p, l, prof, st.home, st.hoisted, i);
          var others := SafeToExecute(l, st.home[i], ins) && CanSinkOrHoist(l, ins) &&
                        CheckOperandsSpec(t, p, l, st.home, st.hoisted, i);
          var st2 := st1.(chosen := if load then st.chosen + 1 else st.chosen);
          if load || others then
            var h := st.hoisted + {i};
            st2.(hoisted := h, order := st.order + [i],
                 deps := if ins.kind == Load then st.deps
                         else Append(st.deps, i, ReverseDeps(p, st.home, h, st.deps, ins.operands)))
          else st2
  }

  /** The speculative branch of `Visit`, for an instruction ordinary
      hoisting refused. */
  function Choose(p: Program, l: LoopFacts, t: OperandTest, prof: Profile, st: HoistState, i: Id): HoistState
    requires i in p.insts && i in st.home
  {
    var ins := p.insts[i];
    var load := ins.kind == Load && ConditionalHoistSpec(t, p, l, prof, st.home, st.hoisted, i);
    var others := SafeToExecute(l, st.home[i], ins) && CanSinkOrHoist(l, ins) &&
                  CheckOperandsSpec(t, p, l, st.home, st.hoisted, i);
    var st2 := st.(chosen := if load then st.chosen + 1 else st.chosen);
    if load || others then
      var h := st.hoisted + {i};
      st2.(hoisted := h, order := st.order + [i],
           deps := if ins.kind == Load then st.deps
                   else Append(st.deps, i, ReverseDeps(p, st.home, h, st.deps, ins.operands)))
    else st2
  }

  lemma VisitChooses(p: Program, l: LoopFacts, t: OperandTest, prof: Profile, st: HoistState, i: Id)
    requires i in p.insts && i in st.home && !p.insts[i].foldsToConstant && !Hoists(p, l, st.home, i)
    ensures var ins := p.insts[i];
      Visit(p, l, t, prof, st, i) ==
      Choose(p, l, t, prof, st.(callSeen := st.callSeen || ins.kind == Call,
                             stores := if ins.kind == Store then st.stores + [i] else st.stores), i)
  {
  }

  function VisitAll(p: Program, l: LoopFacts, t: OperandTest, prof: Profile, st: HoistState, xs: seq<Id>): HoistState
  {
    if xs == [] then st else Visit(p, l, t, prof, VisitAll(p, l, t, prof, st, xs[..|xs| - 1]), xs[|xs| - 1])
  }

  lemma {:induction false} VisitAllAppend(p: Program, l: LoopFacts, t: OperandTest, prof: Profile, st: HoistState,
                                          a: seq<Id>, b: seq<Id>)
    ensures VisitAll(p, l, t, prof, st, a + b) == VisitAll(p, l, t, prof, VisitAll(p, l, t, prof, st, a), b)
    decreases |b|
  {
    if b == [] {
      assert a + b == a;
    } else {
      var q := b[..|b| - 1];
      assert (a + b)[..|a + b| - 1] == a + q;
      assert (a + b)[|a + b| - 1] == b[|b| - 1];
      VisitAllAppend(p, l, t, prof, st, a, q);
    }
  }

  // ---------------------------------------------------------------------
  // The dominator-tree walk

  /** A node of the dominator tree. */
  datatype DomNode = DomNode(block: BlockId, children: seq<DomNode>)

  /** The instructions `HoistRegion` visits under `n`, in order: a preorder
      walk that stops at blocks outside the loop and does not look inside
      blocks of sub-loops. */
  function Region(p: Program, l: LoopFacts, n: DomNode): seq<Id>
    decreases n, |n.children| + 1
  {
    if n.block !in l.blocks then []
    else Head(p, l, n) + RegionChildren(p, l, n, |n.children|)
  }

  function Head(p: Program, l: LoopFacts, n: DomNode): seq<Id>
  {
    if n.block !in l.subloopBlocks && n.block in p.blockInsts then p.blockInsts[n.block] else []
  }

  function RegionChildren(p: Program, l: LoopFacts, n: DomNode, k: nat): seq<Id>
    requires k <= |n.children|
    decreases n, k
  {
    if k == 0 then [] else RegionChildren(p, l, n, k - 1) + Region(p, l, n.children[k - 1])
  }

  // ---------------------------------------------------------------------
  // What holds of the bookkeeping

  ghost predicate Distinct(s: seq<Id>)
  {
    forall a, b :: 0 <= a < b < |s| ==> s[a] != s[b]
  }

  /** Every entry of a dependency list is a load chosen before. */
  ghost predicate DepsBefore(p: Program, ds: seq<Id>, before: seq<Id>)
  {
    forall e :: e in ds ==> e in before && e in p.insts && p.insts[e].kind == Load
  }

  /** The bookkeeping is consistent: `hoisted` holds exactly the instructions
      of `hoistedOrder`, each once; only chosen non-loads have a list, never
      an empty one; and each list names only loads chosen before its owner,
      so their redo blocks exist when the owner is cloned. */
  ghost predicate Consistent(p: Program, st: HoistState)
  {
    (forall x :: x in st.hoisted <==> x in st.order) &&
    Distinct(st.order) &&
    (forall x :: x in st.hoisted ==> x in p.insts) &&
    (forall k :: k in st.deps ==> k in st.hoisted && p.insts[k].kind != Load && st.deps[k] != []) &&
    (forall n :: 0 <= n < |st.order| && st.order[n] in st.deps ==>
       DepsBefore(p, st.deps[st.order[n]], st.order[..n]))
  }

  /** Every chosen non-load depends on at least one chosen load, so it gets
      at least one clone. */
  ghost predicate Clonable(p: Program, st: HoistState)
    requires forall x :: x in st.hoisted ==> x in p.insts
  {
    forall x :: x in st.hoisted && p.insts[x].kind != Load ==> x in st.deps
  }

  lemma DepsAreChosenLoads(p: Program, st: HoistState, k: Id)
    requires Consistent(p, st) && k in st.deps
    ensures DepsBefore(p, st.deps[k], st.order)
  {
    assert k in st.order;
    var n :| 0 <= n < |st.order| && st.order[n] == k;
    assert DepsBefore(p, st.deps[st.order[n]], st.order[..n]);
  }

  /** A non-load with an in-loop operand that was chosen before gets a
      non-empty list. */
  lemma ChosenOperandGivesDeps(p: Program, st: HoistState, h: set<Id>, ops: seq<Value>, k: int)
    requires Consistent(p, st) && Clonable(p, st) && st.hoisted <= h
    requires 0 <= k < |ops| && IsInst(p, st.home, ops[k]) && ops[k].id in st.hoisted
    ensures ReverseDeps(p, st.home, h, st.deps, ops) != []
  {
    var v := ops[k];
    var e := if p.insts[v.id].kind == Load then v.id else st.deps[v.id][0];
    assert e in OperandDeps(p, st.home, h, st.deps, v);
    ReverseDepsFromOperands(p, st.home, h, st.deps, ops);
  }

  /** The list a non-load gets names only loads chosen before it. */
  lemma NewDepsBefore(p: Program, st: HoistState, i: Id, ops: seq<Value>)
    requires Consistent(p, st) && i in p.insts && p.insts[i].kind != Load
    ensures DepsBefore(p, ReverseDeps(p, st.home, st.hoisted + {i}, st.deps, ops), st.order)
  {
    var h := st.hoisted + {i};
    var ds := ReverseDeps(p, st.home, h, st.deps, ops);
    ReverseDepsFromOperands(p, st.home, h, st.deps, ops);
    forall e | e in ds
      ensures e in st.order && e in p.insts && p.insts[e].kind == Load
    {
      var k :| 0 <= k < |ops| && e in OperandDeps(p, st.home, h, st.deps, ops[k]);
      if p.insts[ops[k].id].kind != Load {
        DepsAreChosenLoads(p, st, ops[k].id);
      }
    }
  }

  /** Choosing one more instruction, with a list `ds` of earlier loads when
      it is not a load, keeps the bookkeeping consistent. */
  lemma ChooseConsistent(p: Program, st: HoistState, i: Id, ds: seq<Id>)
    requires Consistent(p, st) && i !in st.hoisted && i in p.insts
    requires p.insts[i].kind != Load ==> DepsBefore(p, ds, st.order)
    ensures Consistent(p, st.(hoisted := st.hoisted + {i}, order := st.order + [i],
                              deps := if p.insts[i].kind == Load then st.deps else Append(st.deps, i, ds)))
  {
    var r := st.(hoisted := st.hoisted + {i}, order := st.order + [i],
                 deps := if p.insts[i].kind == Load then st.deps else Append(st.deps, i, ds));
    assert r.order[..|st.order|] == st.order;
    forall n | 0 <= n < |r.order| && r.order[n] in r.deps
      ensures DepsBefore(p, r.deps[r.order[n]], r.order[..n])
    {
      if n < |st.order| {
        assert r.order[..n] == st.order[..n];
        assert r.order[n] == st.order[n];
      } else {
        assert r.order[..n] == st.order;
      }
    }
  }

  /** Visiting one instruction not chosen yet keeps the bookkeeping
      consistent and chooses at most that instruction. */
  lemma VisitConsistent(p: Program, l: LoopFacts, t: OperandTest, prof: Profile, st: HoistState, i: Id)
    requires Consistent(p, st) && i !in st.hoisted
    ensures Consistent(p, Visit(p, l, t, prof, st, i))
    ensures Visit(p, l, t, prof, st, i).hoisted <= st.hoisted + {i}
  {
    var r := Visit(p, l, t, prof, st, i);
    if i in p.insts && i in st.home && !p.insts[i].foldsToConstant && !Hoists(p, l, st.home, i) &&
       i in r.hoisted {
      var ins := p.insts[i];
      var ds := ReverseDeps(p, st.home, st.hoisted + {i}, st.deps, ins.operands);
      if ins.kind != Load {
        NewDepsBefore(p, st, i, ins.operands);
      }
      ChooseConsistent(p, st, i, ds);
    }
  }

  /** With the corrected operand check, visiting one instruction not chosen
      yet keeps every chosen non-load clonable: a chosen non-load that
      ordinary hoisting refused has an in-loop operand, which the check
      needs to be chosen already, so its list is not empty. */
  lemma VisitClonable(p: Program, l: LoopFacts, prof: Profile, st: HoistState, i: Id)
    requires Consistent(p, st) && Clonable(p, st) && i !in st.hoisted
    ensures Consistent(p, Visit(p, l, Corrected, prof, st, i))
    ensures Clonable(p, Visit(p, l, Corrected, prof, st, i))
  {
    VisitConsistent(p, l, Corrected, prof, st, i);
    var r := Visit(p, l, Corrected, prof, st, i);
    if i in p.insts && i in st.home && !p.insts[i].foldsToConstant && !Hoists(p, l, st.home, i) &&
       i in r.hoisted && p.insts[i].kind != Load {
      var ins := p.insts[i];
      assert CheckOperandsSpec(Corrected, p, l, st.home, st.hoisted, i);
      var k :| 0 <= k < |ins.operands| && !IsLoopInvariant(p, st.home, l, ins.operands[k]);
      assert OperandReady(Corrected, p, l, st.home, st.hoisted, ins.operands[k]);
      ChosenOperandGivesDeps(p, st, st.hoisted + {i}, ins.operands, k);
    }
  }

  /** Visiting distinct instructions not chosen yet keeps the bookkeeping
      consistent, chooses only visited instructions, and, with the corrected
      operand check, keeps it clonable. */
  lemma {:induction false} VisitAllConsistent(p: Program, l: LoopFacts, t: OperandTest, prof: Profile, st: HoistState, xs: seq<Id>)
    requires Consistent(p, st) && Distinct(xs)
    requires forall k :: 0 <= k < |xs| ==> xs[k] !in st.hoisted
    ensures Consistent(p, VisitAll(p, l, t, prof, st, xs))
    ensures forall x :: x in VisitAll(p, l, t, prof, st, xs).hoisted ==> x in st.hoisted || x in xs
    ensures t == Corrected && Clonable(p, st) ==> Clonable(p, VisitAll(p, l, t, prof, st, xs))
  {
    if xs != [] {
      var q := xs[..|xs| - 1];
      var i := xs[|xs| - 1];
      assert forall k :: 0 <= k < |q| ==> q[k] == xs[k];
      VisitAllConsistent(p, l, t, prof, st, q);
      var mid := VisitAll(p, l, t, prof, st, q);
      assert i !in q;
      VisitConsistent(p, l, t, prof, mid, i);
      if t == Corrected && Clonable(p, st) {
        VisitClonable(p, l, prof, mid, i);
      }
    }
  }

  // ---------------------------------------------------------------------
  // Stores and calls

  /** The stores among `xs` that are not folded away, in order. */
  function StoresIn(p: Program, xs: seq<Id>): seq<Id>
  {
    if xs == [] then []
    else
      var x := xs[|xs| - 1];
      StoresIn(p, xs[..|xs| - 1]) +
        (if x in p.insts && p.insts[x].kind == Store && !p.insts[x].foldsToConstant then [x] else [])
  }

  /** Some instruction of `xs` is a call that is not folded away. */
  predicate CallIn(p: Program, xs: seq<Id>)
  {
    exists k :: 0 <= k < |xs| && xs[k] in p.insts && p.insts[xs[k]].kind == Call &&
      !p.insts[xs[k]].foldsToConstant
  }

  /** A visit removes at most the visited instruction from `home`. */
  lemma {:induction false} VisitAllKeepsOthers(p: Program, l: LoopFacts, t: OperandTest, prof: Profile, st: HoistState, xs: seq<Id>)
    ensures forall x :: x in st.home && x !in xs ==> x in VisitAll(p, l, t, prof, st, xs).home
  {
    if xs != [] {
      VisitAllKeepsOthers(p, l, t, prof, st, xs[..|xs| - 1]);
    }
  }

  /** Visiting a live instruction appends it to the store list when it is a
      store, and notes a call when it is a call, unless it folds away. */
  lemma VisitStoresAndCalls(p: Program, l: LoopFacts, t: OperandTest, prof: Profile, st: HoistState, i: Id)
    requires i in st.home && i in p.insts
    ensures var live := !p.insts[i].foldsToConstant;
            Visit(p, l, t, prof, st, i).stores ==
              st.stores + (if live && p.insts[i].kind == Store then [i] else []) &&
            (Visit(p, l, t, prof, st, i).callSeen <==> st.callSeen || (live && p.insts[i].kind == Call))
  {
    assert st.stores + [] == st.stores;
  }

  /** The state before the last of `xs` is visited still has it live. */
  lemma LastStillLive(p: Program, l: LoopFacts, t: OperandTest, prof: Profile, st: HoistState, xs: seq<Id>)
    requires xs != [] && Distinct(xs)
    requires forall k :: 0 <= k < |xs| ==> xs[k] in st.home && xs[k] in p.insts
    ensures xs[|xs| - 1] in VisitAll(p, l, t, prof, st, xs[..|xs| - 1]).home
    ensures xs[|xs| - 1] in p.insts
  {
    var q := xs[..|xs| - 1];
    VisitAllKeepsOthers(p, l, t, prof, st, q);
    assert xs[|xs| - 1] !in q;
  }

  /** Visiting distinct live instructions appends exactly their stores to
      the store list, which is never emptied. */
  lemma {:induction false} VisitAllStores(p: Program, l: LoopFacts, t: OperandTest, prof: Profile, st: HoistState, xs: seq<Id>)
    requires Distinct(xs)
    requires forall k :: 0 <= k < |xs| ==> xs[k] in st.home && xs[k] in p.insts
    ensures VisitAll(p, l, t, prof, st, xs).stores == st.stores + StoresIn(p, xs)
  {
    if xs == [] {
      assert st.stores + [] == st.stores;
    } else {
      var q := xs[..|xs| - 1];
      var i := xs[|xs| - 1];
      assert forall k :: 0 <= k < |q| ==> q[k] == xs[k];
      VisitAllStores(p, l, t, prof, st, q);
      LastStillLive(p, l, t, prof, st, xs);
      VisitStoresAndCalls(p, l, t, prof, VisitAll(p, l, t, prof, st, q), i);
      var tail := if p.insts[i].kind == Store && !p.insts[i].foldsToConstant then [i] else [];
      assert st.stores + StoresIn(p, q) + tail == st.stores + (StoresIn(p, q) + tail);
    }
  }

  /** Visiting distinct live instructions notes a call exactly when one of
      them is a call. */
  lemma {:induction false} VisitAllCalls(p: Program, l: LoopFacts, t: OperandTest, prof: Profile, st: HoistState, xs: seq<Id>)
    requires Distinct(xs)
    requires forall k :: 0 <= k < |xs| ==> xs[k] in st.home && xs[k] in p.insts
    ensures VisitAll(p, l, t, prof, st, xs).callSeen <==> st.callSeen || CallIn(p, xs)
  {
    if xs != [] {
      var q := xs[..|xs| - 1];
      var i := xs[|xs| - 1];
      assert forall k :: 0 <= k < |q| ==> q[k] == xs[k];
      VisitAllCalls(p, l, t, prof, st, q);
      LastStillLive(p, l, t, prof, st, xs);
      VisitStoresAndCalls(p, l, t, prof, VisitAll(p, l, t, prof, st, q), i);
      if CallIn(p, xs) && !CallIn(p, q) {
        var k :| 0 <= k < |xs| && xs[k] in p.insts && p.insts[xs[k]].kind == Call &&
                 !p.insts[xs[k]].foldsToConstant;
        assert k == |xs| - 1;
      }
    }
  }

  // ---------------------------------------------------------------------
  // The operand check as written

  /** A loop whose header 1 holds a PHI of two constants (10) and an addition
      of that PHI and a constant (11). */
  function PhiProgram(): Program
  {
    var phi := Instr(Phi, [NonInst, NonInst], [0, 1], false, true, false, false, false, UnknownModRef, 0);
    var add := Instr(Binary, [InstVal(10), NonInst], [], false, true, false, false, false, UnknownModRef, 0);
    Program(map[10 := phi, 11 := add], map[10 := [11]], map[1 := [10, 11]])
  }

  function PhiLoop(): LoopFacts
  {
    LoopFacts({1}, 1, 0, {}, [2], [2], {(1, 2)}, false)
  }

  /** With the operand check as written, the addition reaches the
      speculative branch (ordinary hoisting refuses it, its operand being in
      the loop), is accepted because the PHI's own operands are invariant,
      and gets an empty dependency list: walking the header chooses it and
      leaves a chosen non-load with no list, so it would be moved to the
      preheader with no clone in any redo block, which the source's later
      "no clones" assertion rejects.  The corrected check refuses it. */
  lemma AsWrittenChoosesUnclonable(prof: Profile)
    ensures var p := PhiProgram();
            var l := PhiLoop();
            var home := map[10 := 1, 11 := 1];
            !Hoists(p, l, home, 11) &&
            SafeToExecute(l, home[11], p.insts[11]) && CanSinkOrHoist(l, p.insts[11]) &&
            CheckOperandsSpec(AsWritten, p, l, home, {}, 11) &&
            ReverseDeps(p, home, {11}, map[], p.insts[11].operands) == [] &&
            !CheckOperandsSpec(Corrected, p, l, home, {}, 11)
  {
    var p := PhiProgram();
    var l := PhiLoop();
    var home := map[10 := 1, 11 := 1];
    var ops := p.insts[11].operands;
    assert !IsLoopInvariant(p, home, l, ops[0]);
    assert HasLoopInvariantOperands(p, home, l, p.insts[10]);
    assert !OperandReady(Corrected, p, l, home, {}, ops[0]);
    assert ops[..1][..0] == [];
    assert ops[..|ops| - 1] == ops[..1];
  }

  /** The state `PhiLoop`'s header is walked from. */
  function PhiStart(): HoistState
  {
    HoistState(map[10 := 1, 11 := 1], {}, [], map[], [], false, 0)
  }

  /** The PHI is neither hoisted nor chosen, whatever the operand test. */
  lemma PhiPassedOver(t: OperandTest, prof: Profile)
    ensures VisitAll(PhiProgram(), PhiLoop(), t, prof, PhiStart(), [10, 11]) ==
      Visit(PhiProgram(), PhiLoop(), t, prof, PhiStart(), 11)
  {
    var p, l, st := PhiProgram(), PhiLoop(), PhiStart();
    var xs: seq<Id> := [10, 11];
    assert xs[..1] == [10] && [10][..0] == [];
    assert !Hoists(p, l, st.home, 10);
    assert !CheckOperandsSpec(t, p, l, st.home, st.hoisted, 10);
    assert Visit(p, l, t, prof, st, 10) == st;
    assert VisitAll(p, l, t, prof, st, [10]) == Visit(p, l, t, prof, VisitAll(p, l, t, prof, st, []), 10);
  }

  /** Walking the header of `PhiLoop` from empty bookkeeping: the addition
      is chosen by the check as written, leaving a chosen non-load with no
      list, while the corrected check chooses nothing. */
  lemma AsWrittenWalkUnclonable(prof: Profile)
    ensures var w := VisitAll(PhiProgram(), PhiLoop(), AsWritten, prof, PhiStart(), [10, 11]);
            w.hoisted == {11} && !Clonable(PhiProgram(), w)
    ensures VisitAll(PhiProgram(), PhiLoop(), Corrected, prof, PhiStart(), [10, 11]).hoisted == {}
  {
    var p, l, st := PhiProgram(), PhiLoop(), PhiStart();
    AsWrittenChoosesUnclonable(prof);
    PhiPassedOver(AsWritten, prof);
    PhiPassedOver(Corrected, prof);
    var w := Visit(p, l, AsWritten, prof, st, 11);
    assert w.hoisted == {11} && w.deps == map[];
    assert Visit(p, l, Corrected, prof, st, 11).hoisted == {};
  }
}
