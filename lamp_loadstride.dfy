/** The earlier LAMP-profiler `LoadStride`: it keeps every address, treats
    only an exact zero stride as a zero stride, and still records that zero
    stride like any other, so 0 can be counted, become the dominant stride
    and enter the stride table.  Differences of consecutive strides are
    kept in a second tally with its own top table. */
module LampLoadStride {
  import opened Common
  import opened TopTable
  import opened StrideTally

  datatype State = State(
    loadId: int,
    addresses: seq<int>,
    strides: Tally,
    diffs: Tally,
    holder: Entry,
    zeroCount: nat,
    zeroDiffCount: nat)

  ghost predicate AllU64(s: seq<int>) {
    forall i :: 0 <= i < |s| ==> IsU64(s[i])
  }

  lemma AllU64Snoc(s: seq<int>, v: int)
    requires AllU64(s) && IsU64(v)
    ensures AllU64(s + [v])
  {
    forall i | 0 <= i < |s + [v]| ensures IsU64((s + [v])[i]) {
      if i < |s| {
        assert (s + [v])[i] == s[i];
      }
    }
  }

  /** The strides between consecutive addresses of a history. */
  function StridesOf(a: seq<int>): (r: seq<int>)
    requires AllU64(a)
    ensures |r| == if |a| == 0 then 0 else |a| - 1
  {
    if |a| < 2 then [] else StridesOf(a[..|a| - 1]) + [StrideOf(a[|a| - 1], a[|a| - 2])]
  }

  /** The `i`-th stride is the wrapped difference of addresses `i + 1` and `i`. */
  lemma {:induction false} StridesOfAt(a: seq<int>, i: nat)
    requires AllU64(a) && i + 1 < |a|
    ensures StridesOf(a)[i] == StrideOf(a[i + 1], a[i])
  {
    if i + 2 < |a| {
      StridesOfAt(a[..|a| - 1], i);
    }
  }

  /** The invariant every object keeps between calls: both tallies are
      exact, the holder is the dominant stride and the two counters count
      zeros.  (That the strides are those of the address history is
      `ReplayStrides`.) */
  ghost predicate Inv(s: State) {
    AllU64(s.addresses) &&
    s.zeroCount == Count(s.strides.values, 0) &&
    Tracked(s.strides, s.diffs, s.holder, s.zeroDiffCount)
  }

  /** The part of the invariant about recorded strides alone: exact
      tallies, the dominant stride in the holder, the differences of
      consecutive strides and the count of zero differences. */
  ghost predicate Tracked(strides: Tally, diffs: Tally, holder: Entry, zeroDiffCount: nat) {
    AllI64(strides.values) &&
    Consistent(strides, false) &&
    holder == HolderOf(strides.values) &&
    Consistent(diffs, false) &&
    diffs.values == Diffs(strides.values) &&
    zeroDiffCount == Count(diffs.values, 0)
  }

  /** The constructor `LoadStride(load_id)`: empty history, holder (-1, -1). */
  function Init(loadId: int): (s: State)
    requires IsU32(loadId)
    ensures Inv(s)
    ensures s.addresses == [] && s.strides.values == [] && s.diffs.values == []
    ensures s.holder == NoHolder && s.zeroCount == 0 && s.zeroDiffCount == 0
  {
    EmptyTallyInv(false);
    State(loadId, [], EmptyTally, EmptyTally, NoHolder, 0, 0)
  }

  /** Records a stride, and from the second one on its difference from the
      previous stride. */
  function RecordStride(s: State, stride: int): State
  {
    var t := Add(s.strides, stride, false);
    var h := Promote(s.holder, stride, t.counts[stride]);
    if s.strides.values == [] then s.(strides := t, holder := h)
    else
      var lastStride := s.strides.values[|s.strides.values| - 1];
      var difference := WrapI64(stride - lastStride);
      s.(strides := t, holder := h,
         zeroDiffCount := s.zeroDiffCount + (if difference == 0 then 1 else 0),
         diffs := Add(s.diffs, difference, false))
  }

  /** The state after `addAddress(addr)`. */
  function AfterAddress(s: State, addr: int): (r: State)
    requires IsU64(addr) && AllU64(s.addresses)
    ensures r.addresses == s.addresses + [addr]
  {
    if s.addresses == [] then s.(addresses := [addr])
    else
      var last := s.addresses[|s.addresses| - 1];
      var stride := StrideOf(addr, last);
      var s1 := s.(addresses := s.addresses + [addr],
                   zeroCount := s.zeroCount + (if stride == 0 then 1 else 0));
      RecordStride(s1, stride)
  }

  lemma RecordStrideStrides(s: State, stride: int)
    requires Consistent(s.strides, false) && s.holder == HolderOf(s.strides.values)
    ensures RecordStride(s, stride).strides.values == s.strides.values + [stride]
    ensures Consistent(RecordStride(s, stride).strides, false)
    ensures RecordStride(s, stride).holder == HolderOf(s.strides.values + [stride])
  {
    AddPreservesInv(s.strides, stride, false);
    HolderStep(s.strides.values, s.strides.counts, stride);
  }

  lemma RecordStrideDiffs(s: State, stride: int)
    requires Consistent(s.diffs, false) && s.diffs.values == Diffs(s.strides.values)
    requires s.zeroDiffCount == Count(s.diffs.values, 0)
    ensures Consistent(RecordStride(s, stride).diffs, false)
    ensures RecordStride(s, stride).diffs.values == Diffs(s.strides.values + [stride])
    ensures RecordStride(s, stride).zeroDiffCount == Count(RecordStride(s, stride).diffs.values, 0)
  {
    var vs := s.strides.values;
    if vs == [] {
      assert Diffs(vs + [stride]) == [];
    } else {
      RecordSecondStrideDiffs(s, stride);
    }
  }

  lemma RecordSecondStrideDiffs(s: State, stride: int)
    requires s.strides.values != []
    requires Consistent(s.diffs, false) && s.diffs.values == Diffs(s.strides.values)
    requires s.zeroDiffCount == Count(s.diffs.values, 0)
    ensures Consistent(RecordStride(s, stride).diffs, false)
    ensures RecordStride(s, stride).diffs.values == Diffs(s.strides.values + [stride])
    ensures RecordStride(s, stride).zeroDiffCount == Count(RecordStride(s, stride).diffs.values, 0)
  {
    var vs := s.strides.values;
    var d := WrapI64(stride - vs[|vs| - 1]);
    var r := RecordStride(s, stride);
    assert r.diffs == Add(s.diffs, d, false);
    assert r.zeroDiffCount == s.zeroDiffCount + (if d == 0 then 1 else 0);
    DiffsSnoc(vs, stride);
    AddPreservesInv(s.diffs, d, false);
    CountSnoc(s.diffs.values, d, 0);
  }

  /** Recording a stride keeps the stride part of the invariant. */
  lemma RecordStrideKeepsTracked(s: State, stride: int)
    requires Tracked(s.strides, s.diffs, s.holder, s.zeroDiffCount) && IsI64(stride)
    ensures RecordStride(s, stride).strides.values == s.strides.values + [stride]
    ensures RecordStride(s, stride).addresses == s.addresses
    ensures RecordStride(s, stride).zeroCount == s.zeroCount
    ensures Tracked(RecordStride(s, stride).strides, RecordStride(s, stride).diffs,
                    RecordStride(s, stride).holder, RecordStride(s, stride).zeroDiffCount)
  {
    var r := RecordStride(s, stride);
    assert r.strides.values == s.strides.values + [stride] &&
           Consistent(r.strides, false) && r.holder == HolderOf(r.strides.values) by {
      RecordStrideStrides(s, stride);
    }
    assert Consistent(r.diffs, false) && r.diffs.values == Diffs(r.strides.values) &&
           r.zeroDiffCount == Count(r.diffs.values, 0) by {
      RecordStrideDiffs(s, stride);
    }
    AllI64Snoc(s.strides.values, stride);
  }

  /** Every call keeps the invariant: one stride per address after the
      first, exact tallies, the dominant stride in the holder, one
      difference per stride after the first and exact zero counters. */
  lemma AfterAddressPreservesInv(s: State, addr: int)
    requires Inv(s) && IsU64(addr)
    ensures Inv(AfterAddress(s, addr))
  {
    if s.addresses == [] {
      FirstAddressKeepsInv(s, addr);
    } else {
      NextAddressKeepsInv(s, addr);
    }
  }

  lemma FirstAddressKeepsInv(s: State, addr: int)
    requires Inv(s) && IsU64(addr) && s.addresses == []
    ensures Inv(AfterAddress(s, addr))
  {
    assert AfterAddress(s, addr) == s.(addresses := [addr]);
  }

  lemma NextAddressKeepsInv(s: State, addr: int)
    requires Inv(s) && IsU64(addr) && s.addresses != []
    ensures Inv(AfterAddress(s, addr))
  {
    var stride := StrideOf(addr, s.addresses[|s.addresses| - 1]);
    var r := RecordStride(s, stride);
    var t := AfterAddress(s, addr);
    assert t == r.(addresses := s.addresses + [addr],
                   zeroCount := s.zeroCount + (if stride == 0 then 1 else 0)) by {
      AfterNextAddress(s, addr);
    }
    assert r.strides.values == s.strides.values + [stride] &&
           Tracked(r.strides, r.diffs, r.holder, r.zeroDiffCount) by {
      RecordStrideKeepsTracked(s, stride);
    }
    assert t.zeroCount == Count(t.strides.values, 0) by {
      CountSnoc(s.strides.values, stride, 0);
    }
    assert AllU64(t.addresses) by {
      AllU64Snoc(s.addresses, addr);
    }
  }

  /** The order `addAddress` follows: append the address, count a zero
      stride, then record the stride. */
  lemma AfterAddressInOrder(s: State, addr: int)
    requires IsU64(addr) && AllU64(s.addresses) && s.addresses != []
    ensures var stride := StrideOf(addr, s.addresses[|s.addresses| - 1]);
            AfterAddress(s, addr) ==
              RecordStride(s.(addresses := s.addresses + [addr],
                              zeroCount := s.zeroCount + (if stride == 0 then 1 else 0)), stride)
  {
  }

  /** A later address records its stride on top of the appended history
      and the updated zero-stride counter; recording touches neither. */
  lemma AfterNextAddress(s: State, addr: int)
    requires IsU64(addr) && AllU64(s.addresses) && s.addresses != []
    ensures var stride := StrideOf(addr, s.addresses[|s.addresses| - 1]);
            AfterAddress(s, addr) ==
              RecordStride(s, stride).(addresses := s.addresses + [addr],
                                       zeroCount := s.zeroCount + (if stride == 0 then 1 else 0))
  {
  }

  /** The object after constructing it and calling `addAddress` with each
      address of `a` in turn. */
  function Replay(loadId: int, a: seq<int>): (r: State)
    requires IsU32(loadId) && AllU64(a)
    ensures r.addresses == a
  {
    if a == [] then Init(loadId)
    else AfterAddress(Replay(loadId, a[..|a| - 1]), a[|a| - 1])
  }

  /** After any sequence of calls the invariant holds and the recorded
      strides are exactly the strides of the address history, zero strides
      included: after the first call every call records one stride. */
  lemma {:induction false} ReplayStrides(loadId: int, a: seq<int>)
    requires IsU32(loadId) && AllU64(a)
    ensures Inv(Replay(loadId, a))
    ensures Replay(loadId, a).strides.values == StridesOf(a)
  {
    if a != [] {
      var p := a[..|a| - 1];
      ReplayStrides(loadId, p);
      AfterAddressPreservesInv(Replay(loadId, p), a[|a| - 1]);
      if p != [] {
        AfterNextAddress(Replay(loadId, p), a[|a| - 1]);
        RecordStrideKeepsTracked(Replay(loadId, p), StrideOf(a[|a| - 1], p[|p| - 1]));
      }
    }
  }

  /** One stride per address after the first and one difference per
      stride after the first. */
  lemma HistoryLengths(loadId: int, a: seq<int>)
    requires IsU32(loadId) && AllU64(a)
    ensures |Replay(loadId, a).strides.values| == if |a| == 0 then 0 else |a| - 1
    ensures |Replay(loadId, a).diffs.values| ==
              if |a| < 2 then 0 else |Replay(loadId, a).strides.values| - 1
  {
    ReplayStrides(loadId, a);
  }

  /** A repeated address is the only zero stride, it bumps `strideZeroCount`
      and it is recorded like every other stride. */
  lemma ExactZeroStride(s: State, addr: int)
    requires Tracked(s.strides, s.diffs, s.holder, s.zeroDiffCount)
    requires IsU64(addr) && AllU64(s.addresses) && s.addresses != []
    ensures AfterAddress(s, addr).zeroCount ==
              s.zeroCount + (if addr == s.addresses[|s.addresses| - 1] then 1 else 0)
    ensures AfterAddress(s, addr).strides.values ==
              s.strides.values + [StrideOf(addr, s.addresses[|s.addresses| - 1])]
  {
    AfterNextAddress(s, addr);
    RecordStrideKeepsTracked(s, StrideOf(addr, s.addresses[|s.addresses| - 1]));
  }

  /** `strideZeroCount` counts the zero strides among the recorded ones,
      and the counts of the map add up to the number of strides. */
  lemma ZeroCountAndSum(s: State)
    requires Inv(s)
    ensures 0 in s.strides.counts ==> s.zeroCount == s.strides.counts[0]
    ensures 0 !in s.strides.counts ==> s.zeroCount == 0
    ensures SumAt(s.strides.counts, Distinct(s.strides.values)) == |s.strides.values|
  {
    CountPositive(s.strides.values, 0);
  }

  /** The zero-difference counter counts the zero differences, which are
      the repeated strides. */
  lemma DifferenceBookkeeping(s: State)
    requires Inv(s)
    ensures 0 in s.diffs.counts ==> s.zeroDiffCount == s.diffs.counts[0]
    ensures 0 !in s.diffs.counts ==> s.zeroDiffCount == 0
    ensures s.zeroDiffCount == Repeats(s.strides.values)
  {
    ZeroDiffsAreRepeats(s.strides.values);
    CountPositive(s.diffs.values, 0);
  }

  /** Both tables are bounded by TOPCOUNT with distinct keys, and the holder
      is the most frequent stride (the first to reach that count). */
  lemma TablesAndHolder(s: State)
    requires Inv(s)
    ensures |s.strides.top| <= TOPCOUNT && DistinctKeys(s.strides.top)
    ensures |s.diffs.top| <= TOPCOUNT && DistinctKeys(s.diffs.top)
    ensures s.strides.values != [] ==>
              s.holder.key in s.strides.values &&
              forall w :: Count(s.strides.values, w) <= s.holder.count
  {
    HolderIsMaximum(s.strides.values);
  }

  /** Unlike the trunk variants, stride 0 reaches the stride table: the
      addresses 8, 8 record one zero stride, which fills the first slot
      and becomes the dominant stride. */
  lemma ZeroStrideEntersTable()
    ensures AfterAddress(AfterAddress(Init(0), 8), 8).strides.top == [Entry(0, 1)]
    ensures AfterAddress(AfterAddress(Init(0), 8), 8).holder == Entry(0, 1)
    ensures AfterAddress(AfterAddress(Init(0), 8), 8).zeroCount == 1
  {
    var s1 := AfterAddress(Init(0), 8);
    assert s1.strides.values == [];
    var s2 := AfterAddress(s1, 8);
    assert s2.strides.values == [0];
  }

  class LoadStride {
    var loadID: int
    var addresses: seq<int>
    var strideValues: seq<int>
    var strideDifferences: seq<int>
    var strideValuesToCount: map<int, int>
    var strideDifferencesToCount: map<int, int>
    var strideZeroCount: nat
    var strideZeroDifferenceCount: nat
    var topStrideValues: seq<Entry>
    var topStrideDifferenceValues: seq<Entry>
    var topStrideHolder: Entry

    function Abs(): State
      reads this
    {
      State(loadID, addresses,
            Tally(strideValues, strideValuesToCount, topStrideValues),
            Tally(strideDifferences, strideDifferencesToCount, topStrideDifferenceValues),
            topStrideHolder, strideZeroCount, strideZeroDifferenceCount)
    }

    ghost predicate Valid()
      reads this
    {
      Inv(Abs())
    }

    constructor (load_id: int)
      requires IsU32(load_id)
      ensures Valid() && Abs() == Init(load_id)
    {
      loadID := load_id;
      strideZeroCount := 0;
      strideZeroDifferenceCount := 0;
      topStrideHolder := NoHolder;
      addresses := [];
      strideValues := [];
      strideDifferences := [];
      strideValuesToCount := map[];
      strideDifferencesToCount := map[];
      topStrideValues := [];
      topStrideDifferenceValues := [];
      EmptyTallyInv(false);
    }

    /** `updateTopStrideValues`: the holder, then the table, with no zero skip. */
    method UpdateTopStrideValues(value: int)
      requires value in strideValuesToCount
      modifies this`topStrideHolder, this`topStrideValues
      ensures topStrideHolder == Promote(old(topStrideHolder), value, strideValuesToCount[value])
      ensures topStrideValues == TopAfter(old(topStrideValues), strideValuesToCount, value, false)
    {
      var count := strideValuesToCount[value];
      if count > topStrideHolder.count {
        topStrideHolder := Entry(value, count);
      }
      topStrideValues := UpdateTopTable(topStrideValues, value, count);
    }

    /** `updateTopStrideDifferenceValues` */
    method UpdateTopStrideDifferenceValues(value: int)
      requires value in strideDifferencesToCount
      modifies this`topStrideDifferenceValues
      ensures topStrideDifferenceValues ==
                TopAfter(old(topStrideDifferenceValues), strideDifferencesToCount, value, false)
    {
      var count := strideDifferencesToCount[value];
      topStrideDifferenceValues := UpdateTopTable(topStrideDifferenceValues, value, count);
    }

    /** `addAddress` */
    method AddAddress(addr: int)
      requires IsU64(addr) && AllU64(addresses)
      modifies this
      ensures Abs() == AfterAddress(old(Abs()), addr)
    {
      ghost var s0 := Abs();
      if |addresses| == 0 {
        addresses := addresses + [addr];
        return;
      }
      var last_address := addresses[|addresses| - 1];
      addresses := addresses + [addr];
      var stride := StrideOf(addr, last_address);
      if stride == 0 {
        strideZeroCount := strideZeroCount + 1;
      }
      AfterAddressInOrder(s0, addr);
      AddStride(stride, s0.(addresses := s0.addresses + [addr],
                            zeroCount := s0.zeroCount + (if stride == 0 then 1 else 0)));
    }

    /** The tail of `addAddress`: every stride is recorded. */
    method AddStride(stride: int, ghost s0: State)
      requires Abs() == s0
      modifies this
      ensures Abs() == RecordStride(s0, stride)
    {
      ghost var t := Add(s0.strides, stride, false);
      if |strideValues| == 0 {
        strideValues := strideValues + [stride];
        strideValuesToCount := Bump(strideValuesToCount, stride);
        UpdateTopStrideValues(stride);
        return;
      }
      var last_stride := strideValues[|strideValues| - 1];
      strideValues := strideValues + [stride];
      strideValuesToCount := Bump(strideValuesToCount, stride);
      UpdateTopStrideValues(stride);
      assert Tally(strideValues, strideValuesToCount, topStrideValues) == t;
      AddDifference(WrapI64(stride - last_stride));
    }

    /** The difference bookkeeping of `addAddress`. */
    method AddDifference(strideDifference: int)
      modifies this`strideZeroDifferenceCount, this`strideDifferences,
               this`strideDifferencesToCount, this`topStrideDifferenceValues
      ensures Tally(strideDifferences, strideDifferencesToCount, topStrideDifferenceValues) ==
                Add(old(Tally(strideDifferences, strideDifferencesToCount, topStrideDifferenceValues)),
                    strideDifference, false)
      ensures strideZeroDifferenceCount ==
                old(strideZeroDifferenceCount) + (if strideDifference == 0 then 1 else 0)
    {
      if strideDifference == 0 {
        strideZeroDifferenceCount := strideZeroDifferenceCount + 1;
      }
      strideDifferences := strideDifferences + [strideDifference];
      strideDifferencesToCount := Bump(strideDifferencesToCount, strideDifference);
      UpdateTopStrideDifferenceValues(strideDifference);
    }
  }
}
