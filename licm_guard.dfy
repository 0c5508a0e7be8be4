/* The run-time guard the speculative LICM pass emits for one hoisted load.
 * A one-bit flag lives in a stack slot.  The preheader clears it; before
 * every store whose address has the load's pointer type the flag becomes
 * `flag OR (storeAddr == loadAddr)`; the load's home block tests it and
 * branches to a redo block, which re-executes the load and its dependants
 * and clears the flag, exactly when it is set.
 */
module LicmGuard {

  datatype FlagOp =
    | AliasCheck(storeAddr: int)  // the check emitted before a guarded store
    | PreheaderClear              // the store of false emitted in the preheader
    | HomeTest                    // the test in the home block, and the redo block behind it

  /** The home block branches to the redo block iff the flag is set. */
  function TakesRedo(flag: bool): bool { flag }

  /** The flag after one operation.  After `HomeTest` it is false either way:
      the redo block stores false, and the other branch is only taken when
      the flag already is false. */
  function Step(loadAddr: int, flag: bool, op: FlagOp): bool
  {
    match op
    case AliasCheck(a) => flag || a == loadAddr
    case PreheaderClear => false
    case HomeTest => if TakesRedo(flag) then false else flag
  }

  function Run(loadAddr: int, flag: bool, ops: seq<FlagOp>): bool
  {
    if ops == [] then flag
    else Step(loadAddr, Run(loadAddr, flag, ops[..|ops| - 1]), ops[|ops| - 1])
  }

  predicate Clears(op: FlagOp) { op.PreheaderClear? || op.HomeTest? }

  /** Between two clears the flag only ever goes from false to true, and it
      is set exactly when it started set or some guarded store hit the
      load's address. */
  lemma {:induction false} RunWithoutClears(loadAddr: int, flag: bool, ops: seq<FlagOp>)
    requires forall k :: 0 <= k < |ops| ==> !Clears(ops[k])
    ensures Run(loadAddr, flag, ops) <==>
      flag || exists k :: 0 <= k < |ops| && ops[k] == AliasCheck(loadAddr)
  {
    if ops != [] {
      var p := ops[..|ops| - 1];
      RunWithoutClears(loadAddr, flag, p);
      assert forall k :: 0 <= k < |p| ==> p[k] == ops[k];
      var last := ops[|ops| - 1];
      assert !Clears(last);
      if last == AliasCheck(loadAddr) {
        assert ops[|ops| - 1] == AliasCheck(loadAddr);
      }
    }
  }

  lemma {:induction false} RunAppend(loadAddr: int, flag: bool, a: seq<FlagOp>, b: seq<FlagOp>)
    ensures Run(loadAddr, flag, a + b) == Run(loadAddr, Run(loadAddr, flag, a), b)
    decreases |b|
  {
    if b == [] {
      assert a + b == a;
    } else {
      var p := b[..|b| - 1];
      assert (a + b)[..|a + b| - 1] == a + p;
      assert (a + b)[|a + b| - 1] == b[|b| - 1];
      RunAppend(loadAddr, flag, a, p);
    }
  }

  /** The guard is sound and precise: at a home-block test the redo block is
      taken iff a guarded store wrote the load's address since the last time
      the flag was cleared, whatever happened before that. */
  lemma RedoIffAliasSinceClear(loadAddr: int, flag: bool, before: seq<FlagOp>, clear: FlagOp,
                               since: seq<FlagOp>)
    requires Clears(clear)
    requires forall k :: 0 <= k < |since| ==> !Clears(since[k])
    ensures TakesRedo(Run(loadAddr, flag, before + [clear] + since)) <==>
      exists k :: 0 <= k < |since| && since[k] == AliasCheck(loadAddr)
  {
    RunAppend(loadAddr, flag, before + [clear], since);
    assert (before + [clear])[..|before + [clear]| - 1] == before;
    assert Run(loadAddr, flag, before + [clear]) == false;
    RunWithoutClears(loadAddr, false, since);
  }

  /** A set flag stays set until the preheader or the redo block clears it. */
  lemma FlagStaysSet(loadAddr: int, ops: seq<FlagOp>)
    requires forall k :: 0 <= k < |ops| ==> !Clears(ops[k])
    ensures Run(loadAddr, true, ops)
  {
    RunWithoutClears(loadAddr, true, ops);
  }
}
