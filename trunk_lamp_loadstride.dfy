/** The LAMP profiler's full-history `LoadStride` of the trunk tree: it keeps
    every address, skips strides inside one 16-byte block like the sampling
    profiler, and additionally records the difference of each recorded
    stride from the previous one in a second tally with its own top table. */
module TrunkLampLoadStride {
  import opened Common
  import opened TopTable
  import opened StrideTally

  datatype State = State(
    loadId: int,
    executionCount: int,
    addresses: seq<int>,
    strides: Tally,
    diffs: Tally,
    holder: Entry,
    zeroCount: nat,
    zeroDiffCount: nat)

  ghost predicate AllU64(s: seq<int>) {
    forall i :: 0 <= i < |s| ==> IsU64(s[i])
  }

  /** The invariant every object keeps between calls. */
  ghost predicate Inv(s: State) {
    AllU64(s.addresses) &&
    Consistent(s.strides, true) &&
    AllI64(s.strides.values) &&
    (forall i :: 0 <= i < |s.strides.values| ==> s.strides.values[i] != 0) &&
    s.holder == HolderOf(s.strides.values) &&
    Consistent(s.diffs, false) &&
    s.diffs.values == Diffs(s.strides.values) &&
    s.zeroDiffCount == Count(s.diffs.values, 0)
  }

  /** The constructor: empty history, holder (-1, -1). */
  function Init(loadId: int, execCount: int): (s: State)
    requires IsU32(loadId) && IsI32(execCount)
    ensures Inv(s)
    ensures s.addresses == [] && s.strides.values == [] && s.diffs.values == []
    ensures s.holder == NoHolder && s.zeroCount == 0 && s.zeroDiffCount == 0
  {
    EmptyTallyInv(true);
    EmptyTallyInv(false);
    State(loadId, WrapU32(execCount), [], EmptyTally, EmptyTally, NoHolder, 0, 0)
  }

  /** Records a stride that is not a zero stride, and from the second one
      on its difference from the previous stride. */
  function RecordStride(s: State, stride: int): State
  {
    var t := Add(s.strides, stride, true);
    var h := Promote(s.holder, stride, t.counts[stride]);
    if s.strides.values == [] then s.(strides := t, holder := h)
    else
      var lastStride := s.strides.values[|s.strides.values| - 1];
      var difference := WrapI64(stride - lastStride);
      s.(strides := t, holder := h,
         zeroDiffCount := s.zeroDiffCount + (if difference == 0 then 1 else 0),
         diffs := Add(s.diffs, difference, false))
  }

  /** The state after `addAddress(addr)`; every call is appended to the history. */
  function AfterAddress(s: State, addr: int): (r: State)
    requires IsU64(addr) && AllU64(s.addresses)
    ensures r.addresses == s.addresses + [addr]
  {
    if s.addresses == [] then s.(addresses := [addr])
    else
      var last := s.addresses[|s.addresses| - 1];
      var s1 := s.(addresses := s.addresses + [addr]);
      var stride := StrideOf(addr, last);
      if stride == 0 || IsSameValue(ToSigned64(addr), ToSigned64(last)) then
        s1.(zeroCount := s.zeroCount + 1)
      else RecordStride(s1, stride)
  }

  lemma RecordStrideStrides(s: State, stride: int)
    requires Inv(s) && IsI64(stride) && stride != 0
    ensures Consistent(RecordStride(s, stride).strides, true)
    ensures RecordStride(s, stride).holder == HolderOf(s.strides.values + [stride])
  {
    AddPreservesInv(s.strides, stride, true);
    HolderStep(s.strides.values, s.strides.counts, stride);
  }

  lemma RecordStrideValues(s: State, stride: int)
    requires Inv(s) && IsI64(stride) && stride != 0
    ensures RecordStride(s, stride).strides.values == s.strides.values + [stride]
    ensures AllI64(RecordStride(s, stride).strides.values)
    ensures forall i :: 0 <= i < |RecordStride(s, stride).strides.values| ==>
              RecordStride(s, stride).strides.values[i] != 0
    ensures RecordStride(s, stride).addresses == s.addresses
  {
  }

  lemma RecordStrideDiffs(s: State, stride: int)
    requires Consistent(s.diffs, false) && s.diffs.values == Diffs(s.strides.values)
    requires s.zeroDiffCount == Count(s.diffs.values, 0)
    ensures Consistent(RecordStride(s, stride).diffs, false)
    ensures RecordStride(s, stride).diffs.values == Diffs(s.strides.values + [stride])
    ensures RecordStride(s, stride).zeroDiffCount == Count(RecordStride(s, stride).diffs.values, 0)
  {
    var vs := s.strides.values;
    if vs == [] {
      assert Diffs(vs + [stride]) == [];
    } else {
      RecordSecondStrideDiffs(s, stride);
    }
  }

  lemma RecordSecondStrideDiffs(s: State, stride: int)
    requires s.strides.values != []
    requires Consistent(s.diffs, false) && s.diffs.values == Diffs(s.strides.values)
    requires s.zeroDiffCount == Count(s.diffs.values, 0)
    ensures Consistent(RecordStride(s, stride).diffs, false)
    ensures RecordStride(s, stride).diffs.values == Diffs(s.strides.values + [stride])
    ensures RecordStride(s, stride).zeroDiffCount == Count(RecordStride(s, stride).diffs.values, 0)
  {
    var vs := s.strides.values;
    var d := WrapI64(stride - vs[|vs| - 1]);
    var r := RecordStride(s, stride);
    assert r.diffs == Add(s.diffs, d, false);
    assert r.zeroDiffCount == s.zeroDiffCount + (if d == 0 then 1 else 0);
    DiffsSnoc(vs, stride);
    AddPreservesInv(s.diffs, d, false);
    CountSnoc(s.diffs.values, d, 0);
  }

  lemma InvIntro(r: State)
    requires AllU64(r.addresses) && Consistent(r.strides, true) && AllI64(r.strides.values)
    requires forall i :: 0 <= i < |r.strides.values| ==> r.strides.values[i] != 0
    requires r.holder == HolderOf(r.strides.values)
    requires Consistent(r.diffs, false) && r.diffs.values == Diffs(r.strides.values)
    requires r.zeroDiffCount == Count(r.diffs.values, 0)
    ensures Inv(r)
  {
  }

  lemma RecordStrideKeepsInv(s: State, stride: int)
    requires Inv(s) && IsI64(stride) && stride != 0
    ensures Inv(RecordStride(s, stride))
  {
    RecordStrideStrides(s, stride);
    RecordStrideValues(s, stride);
    RecordStrideDiffs(s, stride);
    InvIntro(RecordStride(s, stride));
  }

  /** Every call keeps the invariant: the tallies are exact, the stride table
      holds no 0, the holder is the dominant stride, the differences are
      those of consecutive recorded strides and the zero-difference counter
      counts the zero differences. */
  lemma AfterAddressPreservesInv(s: State, addr: int)
    requires Inv(s) && IsU64(addr)
    ensures Inv(AfterAddress(s, addr))
  {
    if s.addresses != [] {
      var last := s.addresses[|s.addresses| - 1];
      var stride := StrideOf(addr, last);
      var s1 := s.(addresses := s.addresses + [addr]);
      assert AllU64(s1.addresses);
      if !(stride == 0 || IsSameValue(ToSigned64(addr), ToSigned64(last))) {
        RecordStrideKeepsInv(s1, stride);
      }
    }
  }

  /** A stride of 0 or inside one 16-byte block only bumps `strideZeroCount`:
      no stride and no difference is recorded. */
  lemma SameBlockRecordsNothing(s: State, addr: int)
    requires Inv(s) && IsU64(addr) && s.addresses != []
    requires IsSameValue(ToSigned64(addr), ToSigned64(s.addresses[|s.addresses| - 1]))
    ensures AfterAddress(s, addr) == s.(addresses := s.addresses + [addr], zeroCount := s.zeroCount + 1)
  {
  }

  /** One difference per recorded stride after the first, and the
      zero-difference counter is both the count of 0 in the difference map
      and the number of times a stride repeated the previous one. */
  lemma DifferenceBookkeeping(s: State)
    requires Inv(s)
    ensures |s.diffs.values| == if |s.strides.values| == 0 then 0 else |s.strides.values| - 1
    ensures 0 in s.diffs.counts ==> s.zeroDiffCount == s.diffs.counts[0]
    ensures 0 !in s.diffs.counts ==> s.zeroDiffCount == 0
    ensures s.zeroDiffCount == Repeats(s.strides.values)
  {
    ZeroDiffsAreRepeats(s.strides.values);
    CountPositive(s.diffs.values, 0);
  }

  /** The stride table never holds more than four distinct non-zero
      strides; the difference table holds at most four distinct differences
      and 0 may be one of them. */
  lemma TablesBounded(s: State)
    requires Inv(s)
    ensures |s.strides.top| <= TOPCOUNT && DistinctKeys(s.strides.top) && !HasKey(s.strides.top, 0)
    ensures |s.diffs.top| <= TOPCOUNT && DistinctKeys(s.diffs.top)
  {
  }

  /** Addresses 0, 16, 32 record the stride 16 twice and one zero
      difference, which enters the difference table. */
  lemma ZeroDifferenceEntersTable()
    ensures AfterAddress(AfterAddress(AfterAddress(Init(0, 0), 0), 16), 32).diffs.top == [Entry(0, 1)]
  {
    var s1 := AfterAddress(Init(0, 0), 0);
    var s2 := AfterAddress(s1, 16);
    assert s2.strides.values == [16];
    var s3 := AfterAddress(s2, 32);
    assert s3.diffs.values == [0];
  }

  class LoadStride {
    var loadID: int
    var executionCount: int
    var addresses: seq<int>
    var strideValues: seq<int>
    var strideDifferences: seq<int>
    var strideValuesToCount: map<int, int>
    var strideDifferencesToCount: map<int, int>
    var strideZeroCount: nat
    var strideZeroDifferenceCount: nat
    var topStrideValues: seq<Entry>
    var topStrideDifferenceValues: seq<Entry>
    var topStrideHolder: Entry

    function Abs(): State
      reads this
    {
      State(loadID, executionCount, addresses,
            Tally(strideValues, strideValuesToCount, topStrideValues),
            Tally(strideDifferences, strideDifferencesToCount, topStrideDifferenceValues),
            topStrideHolder, strideZeroCount, strideZeroDifferenceCount)
    }

    ghost predicate Valid()
      reads this
    {
      Inv(Abs())
    }

    constructor (load_id: int, exec_count: int)
      requires IsU32(load_id) && IsI32(exec_count)
      ensures Valid() && Abs() == Init(load_id, exec_count)
    {
      loadID := load_id;
      executionCount := WrapU32(exec_count);
      strideZeroCount := 0;
      strideZeroDifferenceCount := 0;
      topStrideHolder := NoHolder;
      addresses := [];
      strideValues := [];
      strideDifferences := [];
      strideValuesToCount := map[];
      strideDifferencesToCount := map[];
      topStrideValues := [];
      topStrideDifferenceValues := [];
      EmptyTallyInv(true);
      EmptyTallyInv(false);
    }

    /** `updateTopStrideValues` */
    method UpdateTopStrideValues(value: int)
      requires value in strideValuesToCount
      modifies this`topStrideHolder, this`topStrideValues
      ensures topStrideHolder == Promote(old(topStrideHolder), value, strideValuesToCount[value])
      ensures topStrideValues == TopAfter(old(topStrideValues), strideValuesToCount, value, true)
    {
      var count := strideValuesToCount[value];
      if count > topStrideHolder.count {
        topStrideHolder := Entry(value, count);
      }
      if value == 0 {
        return;
      }
      topStrideValues := UpdateTopTable(topStrideValues, value, count);
    }

    /** `updateTopStrideDifferenceValues`: no holder and no zero skip. */
    method UpdateTopStrideDifferenceValues(value: int)
      requires value in strideDifferencesToCount
      modifies this`topStrideDifferenceValues
      ensures topStrideDifferenceValues ==
                TopAfter(old(topStrideDifferenceValues), strideDifferencesToCount, value, false)
    {
      var count := strideDifferencesToCount[value];
      topStrideDifferenceValues := UpdateTopTable(topStrideDifferenceValues, value, count);
    }

    /** `addAddress` */
    method AddAddress(addr: int)
      requires IsU64(addr) && AllU64(addresses)
      modifies this
      ensures Abs() == AfterAddress(old(Abs()), addr)
    {
      if |addresses| == 0 {
        addresses := addresses + [addr];
        return;
      }
      var last_address := addresses[|addresses| - 1];
      addresses := addresses + [addr];
      var stride := StrideOf(addr, last_address);
      if stride == 0 || IsSameValue(ToSigned64(addr), ToSigned64(last_address)) {
        strideZeroCount := strideZeroCount + 1;
        return;
      }
      AddStride(stride);
    }

    /** The tail of `addAddress` once a stride has been found to count. */
    method AddStride(stride: int)
      modifies this
      ensures Abs() == RecordStride(old(Abs()), stride)
    {
      ghost var s0 := Abs();
      ghost var t := Add(s0.strides, stride, true);
      if |strideValues| == 0 {
        strideValues := strideValues + [stride];
        strideValuesToCount := Bump(strideValuesToCount, stride);
        UpdateTopStrideValues(stride);
        return;
      }
      var last_stride := strideValues[|strideValues| - 1];
      strideValues := strideValues + [stride];
      strideValuesToCount := Bump(strideValuesToCount, stride);
      UpdateTopStrideValues(stride);
      assert Tally(strideValues, strideValuesToCount, topStrideValues) == t;
      AddDifference(WrapI64(stride - last_stride));
    }

    /** The difference bookkeeping of `addAddress`. */
    method AddDifference(strideDifference: int)
      modifies this`strideZeroDifferenceCount, this`strideDifferences,
               this`strideDifferencesToCount, this`topStrideDifferenceValues
      ensures Tally(strideDifferences, strideDifferencesToCount, topStrideDifferenceValues) ==
                Add(old(Tally(strideDifferences, strideDifferencesToCount, topStrideDifferenceValues)),
                    strideDifference, false)
      ensures strideZeroDifferenceCount ==
                old(strideZeroDifferenceCount) + (if strideDifference == 0 then 1 else 0)
    {
      if strideDifference == 0 {
        strideZeroDifferenceCount := strideZeroDifferenceCount + 1;
      }
      strideDifferences := strideDifferences + [strideDifference];
      strideDifferencesToCount := Bump(strideDifferencesToCount, strideDifference);
      UpdateTopStrideDifferenceValues(strideDifference);
    }

    /** `getNumberUniqueStrides` */
    function GetNumberUniqueStrides(): (n: int)
      reads this
      requires Valid()
      ensures n == WrapU32(|Distinct(strideValues)|)
    {
      WrapU32(|strideValuesToCount|)
    }

    /** `getStrideExecCount` */
    function GetStrideExecCount(): (n: int)
      reads this
      requires Valid()
      ensures n == WrapU32(SumAt(strideValuesToCount, Distinct(strideValues)))
    {
      WrapU32(|strideValues|)
    }

    /** `getStrideZeroDifferenceCount`: the number of zero differences. */
    function GetStrideZeroDifferenceCount(): (n: nat)
      reads this
      requires Valid()
      ensures n == Repeats(strideValues)
    {
      DifferenceBookkeeping(Abs());
      strideZeroDifferenceCount
    }

    /** `getTopStrideValue` */
    function GetTopStrideValue(): (h: Entry)
      reads this
      requires Valid()
      ensures strideValues == [] ==> h == NoHolder
      ensures strideValues != [] ==> h.key in strideValues && h.count == Count(strideValues, h.key)
      ensures strideValues != [] ==> forall w :: Count(strideValues, w) <= h.count
    {
      HolderIsMaximum(strideValues);
      topStrideHolder
    }
  }
}
