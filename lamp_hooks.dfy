/** The LAMP memory-dependence runtime: the hooks an instrumented program
    calls on every load, store and loop iteration.  Each byte of memory
    carries a shadow stamp, the (instruction, time) of the store that wrote
    it last; a profiled access looks up the stamps of its bytes and records
    one dependence per change of stamp.  The granularity parameters are
    computed once by `LAMP_init`, and time advances once per loop
    iteration. */
module LampHooks {
  import opened Common
  import LL = LampLoadStride

  // ---------------------------------------------------------------------
  // Stamps: a 20-bit instruction id and a 44-bit time packed in 64 bits
  // ---------------------------------------------------------------------

  /** `INSTR_MAX`, 2^20 - 1. */
  const INSTR_MAX: int := 0xF_FFFF
  /** `TIME_STAMP_MAX`, 2^44 - 1. */
  const TIME_STAMP_MAX: int := 0xFFF_FFFF_FFFF
  /** The weight of the time field in the packed word: 2^20. */
  const INSTR_SPAN: int := 0x10_0000

  /** `timestamp_t`: the instruction that stored and the time it stored. */
  datatype Stamp = Stamp(instr: int, time: int)

  predicate Fits(s: Stamp) {
    0 <= s.instr <= INSTR_MAX && 0 <= s.time <= TIME_STAMP_MAX
  }

  /** The 64-bit word of the packed bit-field struct: the instruction in
      the low 20 bits, the time in the high 44 bits. */
  function Pack(s: Stamp): int {
    s.time * INSTR_SPAN + s.instr
  }

  function Unpack(w: int): Stamp {
    Stamp(w % INSTR_SPAN, w / INSTR_SPAN)
  }

  /** A stamp that fits its fields packs into one unsigned 64-bit word and
      unpacks to itself. */
  lemma PackRoundTrip(s: Stamp)
    requires Fits(s)
    ensures IsU64(Pack(s)) && Unpack(Pack(s)) == s
  {
    assert Pack(s) <= TIME_STAMP_MAX * INSTR_SPAN + INSTR_MAX;
    DivModUnique(Pack(s), s.time, s.instr);
  }

  lemma DivModUnique(w: int, q: int, r: int)
    requires 0 <= r < INSTR_SPAN && w == q * INSTR_SPAN + r
    ensures w / INSTR_SPAN == q && w % INSTR_SPAN == r
  {
  }

  /** The stamp `operator==` compares the packed words; on stamps that fit
      that is exactly equality of both fields. */
  lemma PackedEqualityIsFieldEquality(s: Stamp, t: Stamp)
    requires Fits(s) && Fits(t)
    ensures Pack(s) == Pack(t) <==> s == t
  {
    if Pack(s) == Pack(t) {
      PackRoundTrip(s);
      PackRoundTrip(t);
    }
  }

  /** `form_timestamp`: abort (`None`) when the time or the instruction id
      does not fit its field, otherwise the packed stamp. */
  function FormTimestamp(instr: int, timestamp: int): (r: Option<Stamp>)
    requires IsU32(instr) && IsU64(timestamp)
    ensures r.None? <==> timestamp > TIME_STAMP_MAX || instr > INSTR_MAX
    ensures r.Some? ==> Fits(r.value) && r.value.instr == instr && r.value.time == timestamp
  {
    if timestamp > TIME_STAMP_MAX then None
    else if instr > INSTR_MAX then None
    else Some(Stamp(instr, timestamp))
  }

  // ---------------------------------------------------------------------
  // Time
  // ---------------------------------------------------------------------

  /** `time_stamp` after `LAMP_init` and `n` calls of
      `LAMP_loop_iteration_begin`, each a 64-bit `++`. */
  function TimeAfter(n: nat): (t: int)
    ensures IsU64(t)
  {
    if n == 0 then 1 else WrapU64(TimeAfter(n - 1) + 1)
  }

  /** Time starts at 1 and goes up by exactly one per iteration, so a
      store aborts exactly from the iteration that reaches 2^44 on. */
  lemma {:induction false} TimeCountsIterations(n: nat, instr: int)
    requires n < TIME_STAMP_MAX + 10 && 0 <= instr <= INSTR_MAX
    ensures TimeAfter(n) == n + 1
    ensures FormTimestamp(instr, TimeAfter(n)).None? <==> n >= TIME_STAMP_MAX
  {
    if n > 0 {
      TimeCountsIterations(n - 1, instr);
    }
  }

  // ---------------------------------------------------------------------
  // Granularity
  // ---------------------------------------------------------------------

  const ONES: bv64 := 0xFFFF_FFFF_FFFF_FFFF

  /** `shift` is the exponent of the smallest power of two at least
      `memGran` (0 for a granularity of 0 or 1), and `mask` is all ones
      with exactly the low `shift` bits cleared. */
  ghost predicate IsGranularity(memGran: bv64, shift: bv64, mask: bv64) {
    shift < 64 && mask == ONES << shift &&
    memGran <= (1 as bv64) << shift &&
    (shift == 0 || (1 as bv64) << (shift - 1) < memGran)
  }

  /** The loop's state after `shift` rounds: the counter is bit `shift`,
      the mask has the low `shift` bits cleared, and the previous counter
      was below the granularity. */
  ghost predicate Rounds(memGran: bv64, shift: bv64, mask: bv64, i: bv64) {
    shift < 64 && i == (1 as bv64) << shift && mask == ONES << shift &&
    (shift == 0 || (1 as bv64) << (shift - 1) < memGran)
  }

  /** One round of the loop while the counter is below a granularity of
      at most 2^63: clearing bit `shift` clears the low `shift + 1` bits,
      and doubling the counter moves it to bit `shift + 1`. */
  lemma RoundsStep(memGran: bv64, shift: bv64, mask: bv64, i: bv64)
    requires memGran <= (1 as bv64) << 63
    requires Rounds(memGran, shift, mask, i) && i < memGran
    ensures shift < 63 && Rounds(memGran, shift + 1, mask ^ i, i << 1)
  {
  }

  lemma RoundsExit(memGran: bv64, shift: bv64, mask: bv64, i: bv64)
    requires Rounds(memGran, shift, mask, i) && !(i < memGran)
    ensures IsGranularity(memGran, shift, mask)
  {
  }

  /** The same state with the 32-bit counter of the source. */
  ghost predicate NarrowRounds(memGran: bv64, shift: bv64, mask: bv64, i: bv32) {
    shift < 32 && (i as bv64) == (1 as bv64) << shift && mask == ONES << shift &&
    (shift == 0 || (1 as bv64) << (shift - 1) < memGran)
  }

  /** Below bit 31 the 32-bit counter doubles without loss. */
  lemma NarrowRoundsStep(memGran: bv64, shift: bv64, mask: bv64, i: bv32)
    requires memGran <= (1 as bv64) << 31
    requires NarrowRounds(memGran, shift, mask, i) && (i as bv64) < memGran
    ensures shift < 31 && NarrowRounds(memGran, shift + 1, mask ^ (i as bv64), i << 1)
  {
  }

  lemma NarrowRoundsExit(memGran: bv64, shift: bv64, mask: bv64, i: bv32)
    requires NarrowRounds(memGran, shift, mask, i) && !((i as bv64) < memGran)
    ensures IsGranularity(memGran, shift, mask) && shift <= 31
  {
  }

  /** The mask/shift loop of `LAMP_init` as written: the counter is a
      32-bit `uint32_t`, compared with the 64-bit granularity. It ends
      only for granularities up to 2^31. */
  method Granularity(memGran: bv64) returns (mask: bv64, shift: bv64)
    requires memGran <= (1 as bv64) << 31
    ensures IsGranularity(memGran, shift, mask) && shift <= 31
  {
    mask := ONES;
    shift := 0;
    var i: bv32 := 1;
    assert NarrowRounds(memGran, 0, ONES, 1);
    while (i as bv64) < memGran
      invariant NarrowRounds(memGran, shift, mask, i)
      decreases 31 - shift
    {
      NarrowRoundsStep(memGran, shift, mask, i);
      mask := mask ^ (i as bv64);
      shift := shift + 1;
      i := i << 1;
    }
    NarrowRoundsExit(memGran, shift, mask, i);
  }

  /** The values the 32-bit counter takes: 1, 2, 4, ..., 2^31, then 0 for
      ever, since `0 << 1` is 0. */
  function CounterAfter(k: nat): bv32 {
    if k == 0 then 1 else CounterAfter(k - 1) << 1
  }

  lemma {:induction false} CounterIsPowerOrZero(k: nat)
    ensures CounterAfter(k) & (CounterAfter(k) - 1) == 0
  {
    if k > 0 {
      CounterIsPowerOrZero(k - 1);
      PowerOrZeroDoubles(CounterAfter(k - 1));
    }
  }

  lemma PowerOrZeroDoubles(x: bv32)
    requires x & (x - 1) == 0
    ensures (x << 1) & ((x << 1) - 1) == 0
  {
  }

  lemma PowerOrZeroAtMostTop(x: bv32)
    requires x & (x - 1) == 0
    ensures x as bv64 <= (1 as bv64) << 31
  {
  }

  /** For a granularity above 2^31 the loop of `LAMP_init` never ends:
      whatever the number of rounds, the counter is still below it. */
  lemma GranularityLoopNeverExits(memGran: bv64, k: nat)
    requires memGran > (1 as bv64) << 31
    ensures (CounterAfter(k) as bv64) < memGran
  {
    CounterIsPowerOrZero(k);
    PowerOrZeroAtMostTop(CounterAfter(k));
  }

  /** The same loop with a 64-bit counter, as the 64-bit granularity
      calls for: it ends for every granularity up to 2^63. */
  method GranularityWide(memGran: bv64) returns (mask: bv64, shift: bv64)
    requires memGran <= (1 as bv64) << 63
    ensures IsGranularity(memGran, shift, mask)
  {
    mask := ONES;
    shift := 0;
    var i: bv64 := 1;
    assert Rounds(memGran, 0, ONES, 1);
    while i < memGran
      invariant shift <= 63 && Rounds(memGran, shift, mask, i)
      decreases 63 - shift
    {
      RoundsStep(memGran, shift, mask, i);
      mask := mask ^ i;
      shift := shift + 1;
      i := i << 1;
    }
    RoundsExit(memGran, shift, mask, i);
  }

  /** For a granularity 2^k the shift is k, and the mask clears exactly
      the low k bits. */
  lemma PowerGranularity(k: bv64, shift: bv64, mask: bv64)
    requires k < 64 && IsGranularity((1 as bv64) << k, shift, mask)
    ensures shift == k
    ensures mask & (((1 as bv64) << k) - 1) == 0
    ensures mask | (((1 as bv64) << k) - 1) == ONES
  {
  }

  // ---------------------------------------------------------------------
  // Shadow memory and dependence recording
  // ---------------------------------------------------------------------

  /** A recorded `Dependence`: the profiled instruction and the stamp of
      the store it depends on.  The loop and iteration distance the source
      derives from the stamp's time are not part of this model. */
  datatype Dep = Dep(dest: int, src: Stamp)

  /** The stamp of a byte, `None` for a byte no store has stamped. */
  function Lookup(stamps: map<int, Stamp>, a: int): Option<Stamp> {
    if a in stamps then Some(stamps[a]) else None
  }

  /** The address of byte `i` of an access at `addr`: 64-bit, so it wraps. */
  function ByteAddr(addr: int, i: int): int {
    WrapU64(addr + i)
  }

  /** The stamps of the `n` bytes from `addr` on, in address order. */
  function ByteStamps(stamps: map<int, Stamp>, addr: int, n: nat): (r: seq<Option<Stamp>>)
    ensures |r| == n
  {
    seq(n, i requires 0 <= i < n => Lookup(stamps, ByteAddr(addr, i)))
  }

  /** The stamps `memory_profile` records for a run of byte stamps: an
      unstamped byte is skipped, and so is a byte whose stamp equals the
      last one recorded. */
  function Profiled(xs: seq<Option<Stamp>>): seq<Stamp>
  {
    if xs == [] then []
    else
      var p := Profiled(xs[..|xs| - 1]);
      match xs[|xs| - 1]
      case None => p
      case Some(v) => if p != [] && p[|p| - 1] == v then p else p + [v]
  }

  /** No two consecutive recorded stamps are equal, at most one stamp is
      recorded per byte, and the recorded stamps are exactly the stamps of
      the bytes: the de-duplication never loses a stamp. */
  lemma {:induction false} ProfiledDeduplicates(xs: seq<Option<Stamp>>)
    ensures |Profiled(xs)| <= |xs|
    ensures forall i :: 0 < i < |Profiled(xs)| ==> Profiled(xs)[i - 1] != Profiled(xs)[i]
    ensures forall v :: v in Profiled(xs) <==> Some(v) in xs
  {
    if xs != [] {
      var init := xs[..|xs| - 1];
      ProfiledDeduplicates(init);
      assert xs == init + [xs[|xs| - 1]];
    }
  }

  /** Bytes that all carry the stamp `v` give exactly one dependence. */
  lemma {:induction false} ProfiledUniform(xs: seq<Option<Stamp>>, v: Stamp)
    requires |xs| > 0 && forall i :: 0 <= i < |xs| ==> xs[i] == Some(v)
    ensures Profiled(xs) == [v]
  {
    if |xs| > 1 {
      ProfiledUniform(xs[..|xs| - 1], v);
    }
  }

  /** The dependences of instruction `dest` on the stamps `ss`. */
  function Deps(dest: int, ss: seq<Stamp>): (r: seq<Dep>)
    ensures |r| == |ss|
  {
    seq(|ss|, i requires 0 <= i < |ss| => Dep(dest, ss[i]))
  }

  /** The shadow map after stamping the `n` bytes from `addr` on with `v`,
      one byte after the other. */
  function StampRange(stamps: map<int, Stamp>, addr: int, n: nat, v: Stamp): map<int, Stamp>
  {
    if n == 0 then stamps
    else StampRange(stamps, addr, n - 1, v)[ByteAddr(addr, n - 1) := v]
  }

  /** Stamping sets every byte of the range to `v` and leaves every other
      byte as it was. */
  lemma {:induction false} StampRangeSpec(stamps: map<int, Stamp>, addr: int, n: nat, v: Stamp)
    ensures forall i :: 0 <= i < n ==> Lookup(StampRange(stamps, addr, n, v), ByteAddr(addr, i)) == Some(v)
    ensures forall a :: (forall i :: 0 <= i < n ==> a != ByteAddr(addr, i)) ==>
              Lookup(StampRange(stamps, addr, n, v), a) == Lookup(stamps, a)
  {
    if n > 0 {
      StampRangeSpec(stamps, addr, n - 1, v);
    }
  }

  /** The shadow state: the byte stamps and the dependences recorded so far. */
  datatype Shadow = Shadow(stamps: map<int, Stamp>, deps: seq<Dep>)

  /** `is_aligned<T>`: an access of `size` bytes at an address that is a
      multiple of `size`. */
  predicate Aligned(addr: int, size: nat)
    requires size > 0
  {
    addr % size == 0
  }

  /** `LAMP_aligned_load<T>` on an initialised runtime: a flow profile of
      the accessed bytes. */
  function AlignedLoad(sh: Shadow, flow: bool, instr: int, addr: int, size: nat): Shadow {
    if flow then sh.(deps := sh.deps + Deps(instr, Profiled(ByteStamps(sh.stamps, addr, size))))
    else sh
  }

  /** `LAMP_unaligned_load<T>`: the first `n` of its single-byte loads. */
  function UnalignedLoad(sh: Shadow, flow: bool, instr: int, addr: int, n: nat): Shadow {
    if n == 0 then sh
    else AlignedLoad(UnalignedLoad(sh, flow, instr, addr, n - 1), flow, instr, ByteAddr(addr, n - 1), 1)
  }

  /** `LAMP_aligned_store<T>` on an initialised runtime with stamp `v`: an
      output profile of the bytes when output dependences are profiled,
      then every byte stamped with `v`. */
  function AlignedStore(sh: Shadow, output: bool, instr: int, addr: int, size: nat, v: Stamp): Shadow {
    Shadow(StampRange(sh.stamps, addr, size, v),
           sh.deps + (if output then Deps(instr, Profiled(ByteStamps(sh.stamps, addr, size))) else []))
  }

  /** `LAMP_unaligned_store<T>`: the first `n` of its single-byte stores. */
  function UnalignedStore(sh: Shadow, output: bool, instr: int, addr: int, n: nat, v: Stamp): Shadow {
    if n == 0 then sh
    else AlignedStore(UnalignedStore(sh, output, instr, addr, n - 1, v), output, instr, ByteAddr(addr, n - 1), 1, v)
  }

  /** Splitting a store into single bytes stamps the same bytes with the
      same stamp. */
  lemma {:induction false} UnalignedStoreStampsRange(sh: Shadow, output: bool, instr: int, addr: int, n: nat, v: Stamp)
    ensures UnalignedStore(sh, output, instr, addr, n, v).stamps == StampRange(sh.stamps, addr, n, v)
  {
    if n > 0 {
      UnalignedStoreStampsRange(sh, output, instr, addr, n - 1, v);
      var before := UnalignedStore(sh, output, instr, addr, n - 1, v).stamps;
      var b := ByteAddr(addr, n - 1);
      assert ByteAddr(b, 0) == b;
      assert StampRange(before, b, 1, v) == before[b := v];
    }
  }

  /** A flow profile right after a store of the same bytes records one
      dependence, on that store. */
  lemma StoreThenLoad(sh: Shadow, output: bool, st: int, ld: int, addr: int, size: nat, v: Stamp)
    requires size > 0
    ensures AlignedLoad(AlignedStore(sh, output, st, addr, size, v), true, ld, addr, size).deps
         == AlignedStore(sh, output, st, addr, size, v).deps + [Dep(ld, v)]
  {
    var after := AlignedStore(sh, output, st, addr, size, v);
    StampRangeSpec(sh.stamps, addr, size, v);
    ProfiledUniform(ByteStamps(after.stamps, addr, size), v);
  }

  /** Split into single bytes, the same load records the store once per
      byte, since each byte starts a fresh de-duplication. */
  lemma {:induction false} UnalignedLoadPerByte(sh: Shadow, ld: int, addr: int, n: nat, k: nat, v: Stamp)
    requires k <= n
    requires forall i :: 0 <= i < n ==> Lookup(sh.stamps, ByteAddr(addr, i)) == Some(v)
    ensures UnalignedLoad(sh, true, ld, addr, k).stamps == sh.stamps
    ensures UnalignedLoad(sh, true, ld, addr, k).deps == sh.deps + seq(k, i => Dep(ld, v))
  {
    if k > 0 {
      UnalignedLoadPerByte(sh, ld, addr, n, k - 1, v);
      var before := UnalignedLoad(sh, true, ld, addr, k - 1);
      ProfiledUniform(ByteStamps(before.stamps, ByteAddr(addr, k - 1), 1), v);
      assert seq(k, i => Dep(ld, v)) == seq(k - 1, i => Dep(ld, v)) + [Dep(ld, v)];
    }
  }

  // ---------------------------------------------------------------------
  // The runtime
  // ---------------------------------------------------------------------

  /** `lamp_params`: the granularity and the profiling switches. */
  datatype Params = Params(memGran: bv64, memGranShift: bv64, memGranMask: bv64,
                           silentStores: bool, measureIterations: bool,
                           profileFlow: bool, profileOutput: bool)

  /** The parameters `LAMP_init` sets: the granularity and its shift and
      mask, and each switch on when its bit of `flags` is set or its
      environment variable is (`env*` stand for the three `getenv` tests);
      flow profiling is on exactly when output profiling is off. */
  ghost predicate ParamsFrom(p: Params, memGran: bv64, flags: bv64,
                             envSilent: bool, envMeasure: bool, envOutput: bool) {
    p.memGran == memGran && IsGranularity(memGran, p.memGranShift, p.memGranMask) &&
    p.silentStores == (flags & 1 != 0 || envSilent) &&
    p.measureIterations == (flags & 2 != 0 || envMeasure) &&
    p.profileOutput == (flags & 4 != 0 || envOutput) &&
    p.profileFlow == !p.profileOutput
  }

  /** The parameter part of `LAMP_init`, with the granularity loop that
      has a 64-bit counter. */
  method InitParams(memGran: bv64, flags: bv64, envSilent: bool, envMeasure: bool, envOutput: bool)
    returns (p: Params)
    requires memGran <= (1 as bv64) << 63
    ensures ParamsFrom(p, memGran, flags, envSilent, envMeasure, envOutput)
  {
    var mask, shift := GranularityWide(memGran);
    var silent, measure, flow, output := Switches(flags, envSilent, envMeasure, envOutput);
    p := Params(memGran, shift, mask, silent, measure, flow, output);
  }

  /** The three switches of `LAMP_init`, each off unless its bit of
      `flags` or its environment variable is set; setting output
      profiling turns flow profiling off. */
  method Switches(flags: bv64, envSilent: bool, envMeasure: bool, envOutput: bool)
    returns (silent: bool, measure: bool, flow: bool, output: bool)
    ensures silent == (flags & 1 != 0 || envSilent)
    ensures measure == (flags & 2 != 0 || envMeasure)
    ensures output == (flags & 4 != 0 || envOutput) && flow == !output
  {
    silent := false;
    if flags & 1 != 0 || envSilent {
      silent := true;
    }
    measure := false;
    if flags & 2 != 0 || envMeasure {
      measure := true;
    }
    flow := true;
    output := false;
    if flags & 4 != 0 || envOutput {
      output := true;
      flow := false;
    }
  }

  /** Every instruction id is 32-bit and every address handed on 64-bit. */
  ghost predicate HistoriesFit(hs: map<int, seq<int>>) {
    forall k :: k in hs ==> IsU32(k) && LL.AllU64(hs[k])
  }

  /** The globals of the runtime: `LAMP_initialized`, `time_stamp`,
      `lamp_params`, the load and store counters of `lamp_stats`, the size
      of the page cache, the shadow stamps, the dependences handed to the
      memory profiler, and `StrideProfiles`, kept as the history of
      addresses handed to each instruction's `LoadStride`: that object is
      the replay of its history (see `Profile`). */
  class LampRuntime {
    var initialized: bool
    var timeStamp: int
    var params: Params
    var dynLoads: int
    var dynStores: int
    var numInstrs: int
    var stamps: map<int, Stamp>
    var deps: seq<Dep>
    var histories: map<int, seq<int>>

    function Mem(): Shadow
      reads this
    {
      Shadow(stamps, deps)
    }

    ghost predicate Valid()
      reads this
    {
      IsU64(timeStamp) && HistoriesFit(histories)
    }

    /** Program start: statics are zero, nothing is stamped or profiled. */
    constructor ()
      ensures Valid() && !initialized && timeStamp == 0
      ensures dynLoads == 0 && dynStores == 0 && numInstrs == 0
      ensures stamps == map[] && deps == [] && histories == map[]
    {
      initialized := false;
      timeStamp := 0;
      params := Params(0, 0, 0, false, false, false, false);
      dynLoads := 0;
      dynStores := 0;
      numInstrs := 0;
      stamps := map[];
      deps := [];
      histories := map[];
    }

    /** `LAMP_init`: abort when there are too many instructions; otherwise
        set the parameters, zero the counters, start time at 1 and size
        the page cache (the output files, the clock, the memory profiler,
        the loop hierarchy and `atexit` are not part of this model). */
    method Init(num_instrs: int, mem_gran: bv64, flags: bv64,
                envSilent: bool, envMeasure: bool, envOutput: bool) returns (aborted: bool)
      requires IsU32(num_instrs) && mem_gran <= (1 as bv64) << 63
      requires Valid()
      modifies this
      ensures Valid()
      ensures aborted <==> num_instrs >= INSTR_MAX
      ensures aborted ==> unchanged(this)
      ensures !aborted ==>
                initialized && timeStamp == 1 && dynLoads == 0 && dynStores == 0 &&
                numInstrs == num_instrs &&
                ParamsFrom(params, mem_gran, flags, envSilent, envMeasure, envOutput)
      ensures stamps == old(stamps) && deps == old(deps) && histories == old(histories)
    {
      if num_instrs >= INSTR_MAX {
        return true;
      }
      params := InitParams(mem_gran, flags, envSilent, envMeasure, envOutput);
      dynStores := 0;
      dynLoads := 0;
      timeStamp := 1;
      numInstrs := num_instrs;
      initialized := true;
      return false;
    }

    /** `LAMP_loop_iteration_begin`: time advances by one (the loop
        hierarchy and its dependence sets are not part of this model). */
    method LoopIterationBegin()
      requires Valid()
      modifies this`timeStamp
      ensures Valid()
      ensures timeStamp == WrapU64(old(timeStamp) + 1)
    {
      timeStamp := WrapU64(timeStamp + 1);
    }

    /** `memory_profile<T>`: walk the accessed bytes in order and record a
        dependence for each stamp that differs from the last recorded. */
    method MemoryProfile(destId: int, addr: int, size: nat)
      requires 1 <= size <= 8
      modifies this`deps
      ensures deps == old(deps) + Deps(destId, Profiled(ByteStamps(stamps, addr, size)))
    {
      var lastStore: Option<Stamp> := None;
      var i := 0;
      while i < size
        invariant 0 <= i <= size
        invariant deps == old(deps) + Deps(destId, Profiled(ByteStamps(stamps, addr, i)))
        invariant lastStore == LastOf(Profiled(ByteStamps(stamps, addr, i)))
      {
        ghost var done := Profiled(ByteStamps(stamps, addr, i));
        assert ByteStamps(stamps, addr, i + 1)[..i] == ByteStamps(stamps, addr, i);
        var storeValue := Lookup(stamps, ByteAddr(addr, i));
        if storeValue.Some? && !(lastStore.Some? && storeValue.value == lastStore.value) {
          lastStore := storeValue;
          deps := deps + [Dep(destId, storeValue.value)];
          assert Deps(destId, done + [storeValue.value]) == Deps(destId, done) + [Dep(destId, storeValue.value)];
        }
        i := i + 1;
      }
    }

    /** Stamps the bytes of an access, one after the other. */
    method StampBytes(addr: int, size: nat, v: Stamp)
      modifies this`stamps
      ensures stamps == StampRange(old(stamps), addr, size, v)
    {
      var i := 0;
      while i < size
        invariant 0 <= i <= size
        invariant stamps == StampRange(old(stamps), addr, i, v)
      {
        stamps := stamps[ByteAddr(addr, i) := v];
        i := i + 1;
      }
    }

    /** `LAMP_aligned_load<T>`: nothing before `LAMP_init`; the page cache
        lookup aborts for an instruction id beyond it; otherwise a flow
        profile of the bytes when flow dependences are profiled. */
    method AlignedLoadHook(instr: int, addr: int, size: nat) returns (aborted: bool)
      requires 1 <= size <= 8
      modifies this`deps
      ensures aborted <==> initialized && instr >= numInstrs
      ensures !aborted ==>
                Mem() == if initialized then AlignedLoad(old(Mem()), params.profileFlow, instr, addr, size)
                         else old(Mem())
    {
      if !initialized {
        return false;
      }
      if instr >= numInstrs {
        return true;
      }
      if params.profileFlow {
        MemoryProfile(instr, addr, size);
      }
      return false;
    }

    /** `LAMP_unaligned_load<T>`: one single-byte load per byte, at
        consecutive addresses. */
    method UnalignedLoadHook(instr: int, addr: int, size: nat) returns (aborted: bool)
      requires 1 <= size <= 8
      modifies this`deps
      ensures aborted <==> initialized && instr >= numInstrs
      ensures !aborted ==>
                Mem() == if initialized then UnalignedLoad(old(Mem()), params.profileFlow, instr, addr, size)
                         else old(Mem())
    {
      aborted := false;
      var i := 0;
      while i < size
        invariant 0 <= i <= size
        invariant i > 0 ==> !(initialized && instr >= numInstrs)
        invariant Mem() == if initialized then UnalignedLoad(old(Mem()), params.profileFlow, instr, addr, i)
                           else old(Mem())
      {
        aborted := AlignedLoadHook(instr, ByteAddr(addr, i), 1);
        if aborted {
          return;
        }
        i := i + 1;
      }
    }

    /** `LAMP_load<T>` for an access of `size` bytes: count it, then an
        aligned or a byte-split load. */
    method Load(instr: int, addr: int, size: nat) returns (aborted: bool)
      requires size == 1 || size == 2 || size == 4 || size == 8
      modifies this`dynLoads, this`deps
      ensures dynLoads == WrapI64(old(dynLoads) + 1)
      ensures aborted <==> initialized && instr >= numInstrs
      ensures !aborted ==> Mem() == LoadEffect(old(Mem()), initialized, params.profileFlow, instr, addr, size)
      ensures !initialized ==> !aborted && deps == old(deps)
    {
      dynLoads := WrapI64(dynLoads + 1);
      if !Aligned(addr, size) {
        aborted := UnalignedLoadHook(instr, addr, size);
      } else {
        aborted := AlignedLoadHook(instr, addr, size);
      }
    }

    /** `LAMP_aligned_store<T>`: nothing before `LAMP_init`; the page cache
        lookup aborts for an instruction id beyond it; an output profile
        when output dependences are profiled; `form_timestamp` aborts on a
        stamp that does not fit; otherwise every byte gets the stamp. */
    method AlignedStoreHook(instrId: int, addr: int, size: nat) returns (aborted: bool)
      requires 1 <= size <= 8 && IsU32(instrId) && Valid()
      modifies this`deps, this`stamps
      ensures aborted <==> initialized && (instrId >= numInstrs || FormTimestamp(instrId, timeStamp).None?)
      ensures !aborted ==>
                Mem() == if initialized
                         then AlignedStore(old(Mem()), params.profileOutput, instrId, addr, size, Stamp(instrId, timeStamp))
                         else old(Mem())
    {
      if !initialized {
        return false;
      }
      if instrId >= numInstrs {
        return true;
      }
      if params.profileOutput {
        MemoryProfile(instrId, addr, size);
      }
      var val := FormTimestamp(instrId, timeStamp);
      if val.None? {
        return true;
      }
      StampBytes(addr, size, val.value);
      return false;
    }

    /** `LAMP_unaligned_store<T>`: one single-byte store per byte, at
        consecutive addresses, all with the same stamp. */
    method UnalignedStoreHook(instrId: int, addr: int, size: nat) returns (aborted: bool)
      requires 1 <= size <= 8 && IsU32(instrId) && Valid()
      modifies this`deps, this`stamps
      ensures aborted <==> initialized && (instrId >= numInstrs || FormTimestamp(instrId, timeStamp).None?)
      ensures !aborted ==>
                Mem() == if initialized
                         then UnalignedStore(old(Mem()), params.profileOutput, instrId, addr, size, Stamp(instrId, timeStamp))
                         else old(Mem())
    {
      aborted := false;
      var i := 0;
      while i < size
        invariant 0 <= i <= size
        invariant i > 0 ==> !(initialized && (instrId >= numInstrs || FormTimestamp(instrId, timeStamp).None?))
        invariant Mem() == if initialized
                           then UnalignedStore(old(Mem()), params.profileOutput, instrId, addr, i, Stamp(instrId, timeStamp))
                           else old(Mem())
      {
        aborted := AlignedStoreHook(instrId, ByteAddr(addr, i), 1);
        if aborted {
          return;
        }
        i := i + 1;
      }
    }

    /** `LAMP_store<T>` for an access of `size` bytes: count it; with
        silent-store profiling on, a store of the value memory already
        holds (`holdsValue`, the comparison `is_silent_store` makes) stops
        here; otherwise an aligned or a byte-split store. */
    method Store(instrID: int, addr: int, size: nat, holdsValue: bool) returns (aborted: bool)
      requires size == 1 || size == 2 || size == 4 || size == 8
      requires IsU32(instrID) && Valid()
      modifies this`dynStores, this`deps, this`stamps
      ensures dynStores == WrapI64(old(dynStores) + 1)
      ensures aborted <==> StoreAborts(initialized, params.silentStores && holdsValue, instrID, numInstrs, timeStamp)
      ensures !aborted ==>
                Mem() == StoreEffect(old(Mem()), initialized, params.silentStores && holdsValue,
                                     params.profileOutput, instrID, addr, size, Stamp(instrID, timeStamp))
      ensures params.silentStores && holdsValue ==> !aborted && stamps == old(stamps)
      ensures !initialized ==> !aborted && stamps == old(stamps) && deps == old(deps)
    {
      dynStores := WrapI64(dynStores + 1);
      if params.silentStores && holdsValue {
        return false;
      }
      if !Aligned(addr, size) {
        aborted := UnalignedStoreHook(instrID, addr, size);
      } else {
        aborted := AlignedStoreHook(instrID, addr, size);
      }
    }

    /** The `LoadStride` of a profiled instruction: the one built for it
        and handed its history of addresses in order. */
    ghost function Profile(k: int): LL.State
      reads this
      requires Valid() && k in histories
    {
      LL.Replay(k, histories[k])
    }

    /** `LAMP_StrideProfile`: nothing before `LAMP_init`; otherwise create
        the instruction's `LoadStride` on its first call and hand it the
        address. */
    method StrideProfile(instr: int, addr: int)
      requires IsU32(instr) && IsU64(addr) && Valid()
      modifies this`histories
      ensures Valid()
      ensures histories == StrideProfileEffect(old(histories), initialized, instr, addr)
    {
      if !initialized {
        return;
      }
      StrideProfileHandsAddress(histories, instr, addr);
      if instr !in histories {
        histories := histories[instr := []];
      }
      histories := histories[instr := histories[instr] + [addr]];
    }
  }

  /** The effect of `LAMP_load<T>` on the shadow state. */
  function LoadEffect(sh: Shadow, initialized: bool, flow: bool, instr: int, addr: int, size: nat): Shadow
    requires size > 0
  {
    if !initialized then sh
    else if Aligned(addr, size) then AlignedLoad(sh, flow, instr, addr, size)
    else UnalignedLoad(sh, flow, instr, addr, size)
  }

  /** `LAMP_store<T>` aborts on an initialised runtime, for a store that is
      not silent, when the page cache has no entry for the instruction or
      its stamp does not fit. */
  predicate StoreAborts(initialized: bool, silent: bool, instr: int, numInstrs: int, timeStamp: int)
    requires IsU32(instr) && IsU64(timeStamp)
  {
    initialized && !silent && (instr >= numInstrs || FormTimestamp(instr, timeStamp).None?)
  }

  /** The effect of `LAMP_store<T>` on the shadow state. */
  function StoreEffect(sh: Shadow, initialized: bool, silent: bool, output: bool,
                       instr: int, addr: int, size: nat, v: Stamp): Shadow
    requires size > 0
  {
    if silent || !initialized then sh
    else if Aligned(addr, size) then AlignedStore(sh, output, instr, addr, size, v)
    else UnalignedStore(sh, output, instr, addr, size, v)
  }

  /** The effect of `LAMP_StrideProfile` on the address histories: the
      address is appended to the instruction's history, which starts empty
      on its first call. */
  function StrideProfileEffect(hs: map<int, seq<int>>, initialized: bool, instr: int, addr: int)
    : map<int, seq<int>>
  {
    if !initialized then hs
    else hs[instr := (if instr in hs then hs[instr] else []) + [addr]]
  }

  /** After `LAMP_StrideProfile`, the instruction's `LoadStride` is the one
      it had (a fresh `LoadStride(instr)` on the first call) handed the
      address, and every other profile is as it was. */
  lemma StrideProfileHandsAddress(hs: map<int, seq<int>>, instr: int, addr: int)
    requires HistoriesFit(hs) && IsU32(instr) && IsU64(addr)
    ensures HistoriesFit(StrideProfileEffect(hs, true, instr, addr))
    ensures LL.Replay(instr, StrideProfileEffect(hs, true, instr, addr)[instr]) ==
              LL.AfterAddress(if instr in hs then LL.Replay(instr, hs[instr]) else LL.Init(instr), addr)
    ensures forall k :: k in hs && k != instr ==> StrideProfileEffect(hs, true, instr, addr)[k] == hs[k]
  {
    var a := if instr in hs then hs[instr] else [];
    var hs' := StrideProfileEffect(hs, true, instr, addr);
    assert hs' == hs[instr := a + [addr]];
    assert LL.AllU64(a + [addr]) by {
      LL.AllU64Snoc(a, addr);
    }
    assert HistoriesFit(hs');
    assert LL.Replay(instr, a + [addr]) == LL.AfterAddress(LL.Replay(instr, a), addr) by {
      assert (a + [addr])[..|a|] == a;
    }
    assert LL.Replay(instr, a) == (if instr in hs then LL.Replay(instr, hs[instr]) else LL.Init(instr));
  }

  /** The last element of a sequence, `None` when it is empty. */
  function LastOf(s: seq<Stamp>): (r: Option<Stamp>)
    ensures r.None? <==> s == []
    ensures r.Some? ==> r.value == s[|s| - 1]
  {
    if s == [] then None else Some(s[|s| - 1])
  }
}
