/* The instructions and loop facts the speculative loop-invariant code motion
 * pass consults, and the queries it asks about them: whether an instruction
 * is used inside the loop, whether it may execute unconditionally, whether
 * the hoister can move it at all, whether its operands allow speculation,
 * and where sinking puts it.  Alias analysis, the dominator tree and the
 * profile are given as facts rather than computed.
 */
module LicmIr {

  type Id = int
  type BlockId = int

  /** The instruction classes the pass distinguishes.  `SExt` is a cast. */
  datatype Kind = Load | Store | Call | Phi | Binary | Cast | SExt | Select | Gep | Cmp
                | InsertElement | ExtractElement | ShuffleVector | Other

  /** An operand: an instruction of the program, or anything else (a
      constant, an argument, a global, a block label). */
  datatype Value = InstVal(id: Id) | NonInst

  /** The mod/ref behaviour alias analysis reports for a call. */
  datatype ModRef = NoMemory | ReadsArgPointees | AccessesArgPointees | ReadsMemory | UnknownModRef

  /** One instruction.  For a PHI, `operands` are the incoming values and
      `incoming` the matching predecessor blocks.  The remaining fields are
      what the analyses answer about it: `speculatable` is
      isSafeToSpeculativelyExecute, `foldsToConstant` whether constant
      folding succeeds, `constantMemory` and `invalidatedByLoop` what alias
      analysis says of a load's address, `behavior` the mod/ref behaviour of
      a call, and `pointerType` the type of a load's or store's address. */
  datatype Instr = Instr(kind: Kind, operands: seq<Value>, incoming: seq<BlockId>,
                         isVolatile: bool, speculatable: bool, foldsToConstant: bool,
                         constantMemory: bool, invalidatedByLoop: bool, behavior: ModRef,
                         pointerType: int)

  /** The program: its instructions, the users of each one (a user appears
      once per use), and the instructions of each block in order. */
  datatype Program = Program(insts: map<Id, Instr>, users: map<Id, seq<Id>>,
                             blockInsts: map<BlockId, seq<Id>>)

  /** The current loop as the analyses describe it: its blocks, header and
      preheader, the blocks that belong to a sub-loop, its exit blocks (with
      repetitions, and without), the dominance relation, and whether some
      alias set of the loop is modified. */
  datatype LoopFacts = LoopFacts(blocks: set<BlockId>, header: BlockId, preheader: BlockId,
                                 subloopBlocks: set<BlockId>, exits: seq<BlockId>,
                                 uniqueExits: seq<BlockId>, dom: set<(BlockId, BlockId)>,
                                 anyModSet: bool)

  /** Edge profile block counts and the fraction of executions in which each
      load aliased a store. */
  datatype Profile = Profile(counts: map<BlockId, real>, depFrac: map<Id, real>)

  /** A block without a count reports the profile's missing value, -1. */
  function ExecCount(prof: Profile, b: BlockId): real
  {
    if b in prof.counts then prof.counts[b] else -1.0
  }

  /** A load without a recorded fraction counts as never aliasing. */
  function DepFrac(prof: Profile, i: Id): real
  {
    if i in prof.depFrac then prof.depFrac[i] else 0.0
  }

  /** Every user is an instruction, PHI operands and incoming blocks pair
      up, and only a PHI can use its own value. */
  ghost predicate WellFormed(p: Program)
  {
    (forall i, m :: i in p.users && 0 <= m < |p.users[i]| ==> p.users[i][m] in p.insts) &&
    (forall i :: i in p.insts && p.insts[i].kind == Phi ==>
       |p.insts[i].incoming| == |p.insts[i].operands|) &&
    (forall i :: i in p.insts && p.insts[i].kind != Phi ==> InstVal(i) !in p.insts[i].operands)
  }

  function UsersOf(p: Program, i: Id): seq<Id>
  {
    if i in p.users then p.users[i] else []
  }

  // ---------------------------------------------------------------------
  // Where instructions are

  /** `home` maps every live instruction to the block it sits in now; an
      instruction that was folded away is no longer an instruction, its uses
      having become a constant. */
  predicate IsInst(p: Program, home: map<Id, BlockId>, v: Value)
  {
    v.InstVal? && v.id in home && v.id in p.insts
  }

  /** A value is loop-invariant unless it is an instruction inside the loop. */
  predicate IsLoopInvariant(p: Program, home: map<Id, BlockId>, l: LoopFacts, v: Value)
  {
    !(IsInst(p, home, v) && home[v.id] in l.blocks)
  }

  predicate HasLoopInvariantOperands(p: Program, home: map<Id, BlockId>, l: LoopFacts, ins: Instr)
  {
    forall k :: 0 <= k < |ins.operands| ==> IsLoopInvariant(p, home, l, ins.operands[k])
  }

  // ---------------------------------------------------------------------
  // isNotUsedInLoop

  /** PHI `pn` takes `i` as its incoming value from in-loop block number `m`. */
  predicate IncomingFromLoop(l: LoopFacts, pn: Instr, i: Id, m: int)
  {
    0 <= m < |pn.operands| && m < |pn.incoming| &&
    pn.operands[m] == InstVal(i) && pn.incoming[m] in l.blocks
  }

  /** User `u` of `i` uses it inside the loop: a PHI in the predecessor it
      takes `i` from, any other user where it sits. */
  predicate UsedInLoopBy(p: Program, l: LoopFacts, home: map<Id, BlockId>, i: Id, u: Id)
  {
    u in p.insts &&
    if p.insts[u].kind == Phi then exists m :: 0 <= m < |p.insts[u].operands| && IncomingFromLoop(l, p.insts[u], i, m)
    else u in home && home[u] in l.blocks
  }

  predicate NotUsedInLoop(p: Program, l: LoopFacts, home: map<Id, BlockId>, i: Id)
  {
    forall m :: 0 <= m < |UsersOf(p, i)| ==> !UsedInLoopBy(p, l, home, i, UsersOf(p, i)[m])
  }

  /** `isNotUsedInLoop(I)`: scan the users; a PHI user is scanned over its
      incoming values. */
  method IsNotUsedInLoop(p: Program, l: LoopFacts, home: map<Id, BlockId>, i: Id) returns (r: bool)
    requires WellFormed(p)
    ensures r <==> NotUsedInLoop(p, l, home, i)
  {
    var users := UsersOf(p, i);
    var j := 0;
    while j < |users|
      invariant 0 <= j <= |users|
      invariant forall m :: 0 <= m < j ==> !UsedInLoopBy(p, l, home, i, users[m])
    {
      var u := users[j];
      assert u in p.insts;
      var user := p.insts[u];
      if user.kind == Phi {
        var k := 0;
        while k < |user.operands|
          invariant 0 <= k <= |user.operands|
          invariant forall m :: 0 <= m < k ==> !IncomingFromLoop(l, user, i, m)
        {
          if user.operands[k] == InstVal(i) && user.incoming[k] in l.blocks {
            assert IncomingFromLoop(l, user, i, k);
            return false;
          }
          k := k + 1;
        }
        assert !UsedInLoopBy(p, l, home, i, u);
      } else if u in home && home[u] in l.blocks {
        return false;
      }
      j := j + 1;
    }
    return true;
  }

  // ---------------------------------------------------------------------
  // isSafeToExecuteUnconditionally

  /** An instruction sitting in block `b` may execute on every iteration if
      it cannot trap, or sits in the header, or its block dominates every
      exit block. */
  predicate SafeToExecute(l: LoopFacts, b: BlockId, ins: Instr)
  {
    ins.speculatable || b == l.header ||
    forall k :: 0 <= k < |l.exits| ==> (b, l.exits[k]) in l.dom
  }

  method IsSafeToExecuteUnconditionally(l: LoopFacts, b: BlockId, ins: Instr) returns (r: bool)
    ensures r <==> SafeToExecute(l, b, ins)
  {
    if ins.speculatable {
      return true;
    }
    if b == l.header {
      return true;
    }
    var k := 0;
    while k < |l.exits|
      invariant 0 <= k <= |l.exits|
      invariant forall m :: 0 <= m < k ==> (b, l.exits[m]) in l.dom
    {
      if (b, l.exits[k]) !in l.dom {
        return false;
      }
      k := k + 1;
    }
    return true;
  }

  // ---------------------------------------------------------------------
  // canSinkOrHoistInst

  predicate IsCast(k: Kind) { k == Cast || k == SExt }

  /** The side-effect-free kinds both the hoister and the sinker accept. */
  predicate HoistableKind(k: Kind)
  {
    k == Binary || IsCast(k) || k == Select || k == Gep || k == Cmp ||
    k == InsertElement || k == ExtractElement || k == ShuffleVector
  }

  predicate OnlyReadsMemory(b: ModRef)
  {
    b == NoMemory || b == ReadsArgPointees || b == ReadsMemory
  }

  /** `canSinkOrHoistInst(I)`. */
  function CanSinkOrHoist(l: LoopFacts, ins: Instr): (r: bool)
    ensures r ==> ins.kind == Load || ins.kind == Call || HoistableKind(ins.kind)
    ensures r && ins.kind == Load ==> !ins.isVolatile
    ensures r && ins.kind == Call ==> OnlyReadsMemory(ins.behavior)
    ensures HoistableKind(ins.kind) ==> r
  {
    match ins.kind
    case Load =>
      !ins.isVolatile && (ins.constantMemory || !ins.invalidatedByLoop)
    case Call =>
      ins.behavior == NoMemory || (OnlyReadsMemory(ins.behavior) && !l.anyModSet)
    case _ =>
      HoistableKind(ins.kind)
  }

  /** A load is refused exactly when it is volatile, or it may read memory
      the loop writes; a call exactly when it may write memory, or it reads
      memory while some alias set of the loop is modified. */
  lemma CanSinkOrHoistMemory(l: LoopFacts, ins: Instr)
    ensures ins.kind == Load ==>
      (!CanSinkOrHoist(l, ins) <==> ins.isVolatile || (!ins.constantMemory && ins.invalidatedByLoop))
    ensures ins.kind == Call ==>
      (!CanSinkOrHoist(l, ins) <==>
         !OnlyReadsMemory(ins.behavior) || (ins.behavior != NoMemory && l.anyModSet))
  {
  }

  // ---------------------------------------------------------------------
  // checkOperands

  /** The kinds `checkOperands` accepts in the end: the hoistable kinds and
      loads. */
  predicate CheckedKind(k: Kind) { HoistableKind(k) || k == Load }

  /** Which operand test `checkOperands` applies: the one the source
      writes, or the corrected one that needs every in-loop instruction
      operand to be chosen already. */
  datatype OperandTest = AsWritten | Corrected

  /** An operand allows speculation when it is not an instruction, is
      outside the loop, or has itself been chosen for speculation.  The test
      as written also lets through an in-loop non-load whose own operands
      are loop-invariant, although it was not chosen. */
  predicate OperandReady(t: OperandTest, p: Program, l: LoopFacts, home: map<Id, BlockId>, hoisted: set<Id>,
                         v: Value)
  {
    !IsInst(p, home, v) ||
    (t == AsWritten && HasLoopInvariantOperands(p, home, l, p.insts[v.id]) && p.insts[v.id].kind != Load) ||
    home[v.id] !in l.blocks || v.id in hoisted
  }

  /** `checkOperands(I)`, with the operand test `t`. */
  predicate CheckOperandsSpec(t: OperandTest, p: Program, l: LoopFacts, home: map<Id, BlockId>, hoisted: set<Id>,
                              i: Id)
    requires i in p.insts && i in home
  {
    var ins := p.insts[i];
    SafeToExecute(l, home[i], ins) && ins.kind != Store &&
    (forall k :: 0 <= k < |ins.operands| ==> OperandReady(t, p, l, home, hoisted, ins.operands[k])) &&
    CheckedKind(ins.kind)
  }

  /** The corrected check accepts only what the written one accepts, and the
      two differ only on operands the written one skips. */
  lemma CheckOperandsStricter(p: Program, l: LoopFacts, home: map<Id, BlockId>, hoisted: set<Id>, i: Id)
    requires i in p.insts && i in home
    ensures CheckOperandsSpec(Corrected, p, l, home, hoisted, i) ==> CheckOperandsSpec(AsWritten, p, l, home, hoisted, i)
    ensures CheckOperandsSpec(AsWritten, p, l, home, hoisted, i) && !CheckOperandsSpec(Corrected, p, l, home, hoisted, i) ==>
      exists k :: 0 <= k < |p.insts[i].operands| &&
        !OperandReady(Corrected, p, l, home, hoisted, p.insts[i].operands[k]) &&
        p.insts[p.insts[i].operands[k].id].kind != Load
  {
  }

  /** `checkOperands(I)`: refuse unsafe instructions and stores, then look
      at each instruction operand (with `AsWritten`, first passing over an
      in-loop non-load with loop-invariant operands) and need it to be
      outside the loop or chosen already, then accept the fixed list of
      kinds. */
  method CheckOperands(t: OperandTest, p: Program, l: LoopFacts, home: map<Id, BlockId>, hoisted: set<Id>, i: Id)
    returns (r: bool)
    requires i in p.insts && i in home
    ensures r <==> CheckOperandsSpec(t, p, l, home, hoisted, i)
  {
    var ins := p.insts[i];
    var safe := IsSafeToExecuteUnconditionally(l, home[i], ins);
    if !safe {
      return false;
    }
    if ins.kind == Store {
      return false;
    }
    var k := 0;
    while k < |ins.operands|
      invariant 0 <= k <= |ins.operands|
      invariant forall m :: 0 <= m < k ==> OperandReady(t, p, l, home, hoisted, ins.operands[m])
    {
      var v := ins.operands[k];
      if IsInst(p, home, v) {
        var skip := t == AsWritten && HasLoopInvariantOperands(p, home, l, p.insts[v.id]) &&
                    p.insts[v.id].kind != Load;
        if !skip && home[v.id] in l.blocks && v.id !in hoisted {
          return false;
        }
      }
      k := k + 1;
    }
    return CheckedKind(ins.kind);
  }

  /** `conditionalHoist(I)` for a load: its operands allow speculation, it is
      not volatile, its block ran more than 1000 times, and it aliased a
      store in under 5% of executions. */
  predicate ConditionalHoistSpec(t: OperandTest, p: Program, l: LoopFacts, prof: Profile,
                                 home: map<Id, BlockId>, hoisted: set<Id>, i: Id)
    requires i in p.insts && i in home
  {
    CheckOperandsSpec(t, p, l, home, hoisted, i) && !p.insts[i].isVolatile &&
    ExecCount(prof, home[i]) > 1000.0 && DepFrac(prof, i) < 0.05
  }

  // ---------------------------------------------------------------------
  // sink: the exit blocks

  /** The exit blocks in `es` that block `b` dominates, in order. */
  function Dominated(b: BlockId, es: seq<BlockId>, dom: set<(BlockId, BlockId)>): (r: seq<BlockId>)
    ensures |r| <= |es|
    ensures forall e :: e in r <==> e in es && (b, e) in dom
    ensures (forall e :: e in es ==> (b, e) in dom) ==> r == es
  {
    if es == [] then []
    else
      var e := es[|es| - 1];
      Dominated(b, es[..|es| - 1], dom) + (if (b, e) in dom then [e] else [])
  }

  /** Where `sink` leaves an instruction of block `b`: the original and its
      copies go to the unique exit blocks `b` dominates, and none means the
      instruction is deleted. */
  function SinkTargets(l: LoopFacts, b: BlockId): seq<BlockId>
  {
    Dominated(b, l.uniqueExits, l.dom)
  }

  /** The special case for a single exit block agrees with the general rule:
      the instruction moves there when its block dominates it, and is
      deleted otherwise. */
  lemma SingleExitSink(l: LoopFacts, b: BlockId)
    requires |l.uniqueExits| == 1
    ensures SinkTargets(l, b) == if (b, l.uniqueExits[0]) in l.dom then [l.uniqueExits[0]] else []
  {
    assert l.uniqueExits[..0] == [];
  }
}
