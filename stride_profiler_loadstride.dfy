/** The sampling stride profiler's `LoadStride`: one per instrumented load,
    it remembers only the last address, skips strides that stay inside one
    16-byte block, and records every other stride with its count, the top
    four strides and the dominant stride. */
module StrideProfilerLoadStride {
  import opened Common
  import opened TopTable
  import opened StrideTally

  /** The abstract state of one `LoadStride` object. The class also
      declares `strideDifferences`, `strideDifferencesToCount` and
      `topStrideDifferenceValues`, which this variant never writes. */
  datatype State = State(
    loadId: int,
    executionCount: int,
    lastAddress: int,
    strides: Tally,
    holder: Entry,
    zeroCount: nat,
    zeroDiffCount: nat)

  /** What the constructor leaves: no strides, holder (-1, -1), no last address. */
  function Init(loadId: int, execCount: int): (s: State)
    requires IsU32(loadId) && IsI32(execCount)
    ensures Inv(s) && s.lastAddress == -1
    ensures s.strides.values == [] && s.holder == NoHolder && s.zeroCount == 0 && s.zeroDiffCount == 0
    ensures IsU32(s.executionCount) && (execCount >= 0 ==> s.executionCount == execCount)
  {
    EmptyTallyInv(true);
    State(loadId, WrapU32(execCount), -1, EmptyTally, NoHolder, 0, 0)
  }

  /** The invariant every `LoadStride` keeps between calls. */
  ghost predicate Inv(s: State) {
    IsI64(s.lastAddress) &&
    Consistent(s.strides, true) &&
    AllI64(s.strides.values) &&
    (forall i :: 0 <= i < |s.strides.values| ==> s.strides.values[i] != 0) &&
    s.holder == HolderOf(s.strides.values) &&
    s.zeroDiffCount == Repeats(s.strides.values)
  }

  /** The stride that `addAddress(addr)` computes against the remembered address. */
  function NextStride(s: State, addr: int): int
    requires IsU64(addr) && IsI64(s.lastAddress)
  {
    StrideOf(addr, ToUnsigned64(s.lastAddress))
  }

  /** Whether that stride is counted as a zero stride and not recorded. */
  predicate IsZeroStride(s: State, addr: int)
    requires IsU64(addr) && IsI64(s.lastAddress)
  {
    NextStride(s, addr) == 0 || IsSameValue(ToSigned64(addr), s.lastAddress)
  }

  /** Records a stride that is not a zero stride: append and count it,
      offer it to the holder and the top table, and bump the zero-difference
      counter when it repeats the previous recorded stride. */
  function RecordStride(s: State, stride: int): State
  {
    var t := Add(s.strides, stride, true);
    var h := Promote(s.holder, stride, t.counts[stride]);
    if s.strides.values == [] then s.(strides := t, holder := h)
    else
      var lastStride := s.strides.values[|s.strides.values| - 1];
      var repeated := WrapI64(stride - lastStride) == 0;
      s.(strides := t, holder := h,
         zeroDiffCount := s.zeroDiffCount + if repeated then 1 else 0)
  }

  /** The state after `addAddress(addr)`. */
  function AfterAddress(s: State, addr: int): State
    requires IsU64(addr) && IsI64(s.lastAddress)
  {
    if s.lastAddress == -1 then s.(lastAddress := ToSigned64(addr))
    else
      var s1 := s.(lastAddress := ToSigned64(addr));
      if IsZeroStride(s, addr) then s1.(zeroCount := s.zeroCount + 1)
      else RecordStride(s1, NextStride(s, addr))
  }

  /** `clearAddresses`: forget the last address, keep everything else. */
  function Cleared(s: State): State
  {
    s.(lastAddress := -1)
  }

  /** Recording a non-zero `long` stride keeps the invariant. */
  lemma RecordStrideKeepsInv(s: State, stride: int)
    requires Inv(s) && IsI64(stride) && stride != 0
    ensures Inv(RecordStride(s, stride))
  {
    var r := RecordStride(s, stride);
    RecordStrideTally(s, stride);
    RecordStrideValues(s, stride);
    RecordStrideHolder(s, stride);
    RecordStrideRepeats(s, stride);
    InvIntro(r);
  }

  lemma InvIntro(r: State)
    requires IsI64(r.lastAddress) && Consistent(r.strides, true) && AllI64(r.strides.values)
    requires forall i :: 0 <= i < |r.strides.values| ==> r.strides.values[i] != 0
    requires r.holder == HolderOf(r.strides.values) && r.zeroDiffCount == Repeats(r.strides.values)
    ensures Inv(r)
  {
  }

  lemma RecordStrideTally(s: State, stride: int)
    requires Inv(s) && IsI64(stride) && stride != 0
    ensures Consistent(RecordStride(s, stride).strides, true)
  {
    AddPreservesInv(s.strides, stride, true);
  }

  lemma RecordStrideValues(s: State, stride: int)
    requires Inv(s) && IsI64(stride) && stride != 0
    ensures RecordStride(s, stride).strides.values == s.strides.values + [stride]
    ensures AllI64(RecordStride(s, stride).strides.values)
    ensures forall i :: 0 <= i < |RecordStride(s, stride).strides.values| ==>
              RecordStride(s, stride).strides.values[i] != 0
    ensures RecordStride(s, stride).lastAddress == s.lastAddress
  {
  }

  lemma RecordStrideHolder(s: State, stride: int)
    requires Inv(s)
    ensures RecordStride(s, stride).holder == HolderOf(s.strides.values + [stride])
  {
    HolderStep(s.strides.values, s.strides.counts, stride);
  }

  lemma RecordStrideRepeats(s: State, stride: int)
    requires Inv(s) && IsI64(stride)
    ensures RecordStride(s, stride).zeroDiffCount == Repeats(s.strides.values + [stride])
  {
    if s.strides.values != [] {
      RepeatsStep(s.strides.values, stride);
    }
  }

  /** Every call keeps the invariant: counts match the recorded strides,
      the top table is bounded, distinct, current and without 0, the holder
      is the dominant stride and the zero-difference counter counts repeats. */
  lemma AfterAddressPreservesInv(s: State, addr: int)
    requires Inv(s) && IsU64(addr)
    ensures Inv(AfterAddress(s, addr))
  {
    if s.lastAddress != -1 && !IsZeroStride(s, addr) {
      RecordStrideKeepsInv(s.(lastAddress := ToSigned64(addr)), NextStride(s, addr));
    }
  }

  /** The first address after construction or `clearAddresses` is only
      remembered: no stride, count or table changes. */
  lemma FirstAddressOnlyLatches(s: State, addr: int)
    requires Inv(s) && IsU64(addr) && s.lastAddress == -1
    ensures AfterAddress(s, addr).strides == s.strides
    ensures AfterAddress(s, addr).holder == s.holder
    ensures AfterAddress(s, addr).zeroCount == s.zeroCount
    ensures AfterAddress(s, addr).zeroDiffCount == s.zeroDiffCount
    ensures AfterAddress(s, addr).lastAddress == ToSigned64(addr)
  {
  }

  /** A stride inside one 16-byte block (in particular a zero stride) only
      bumps `strideZeroCount`; apart from `lastAddress` nothing else changes. */
  lemma SameBlockCountsZeroOnly(s: State, addr: int)
    requires Inv(s) && IsU64(addr) && s.lastAddress != -1
    requires IsSameValue(ToSigned64(addr), s.lastAddress)
    ensures AfterAddress(s, addr) == s.(lastAddress := ToSigned64(addr), zeroCount := s.zeroCount + 1)
  {
  }

  /** A stride of zero is always one of those. */
  lemma ZeroStrideIsSameBlock(s: State, addr: int)
    requires Inv(s) && IsU64(addr) && s.lastAddress != -1
    requires NextStride(s, addr) == 0
    ensures IsSameValue(ToSigned64(addr), s.lastAddress)
  {
    SignedUnsignedRoundTrip(addr);
  }

  /** Any other stride is appended and its count goes up by exactly one;
      every other stride keeps its count. The zero-difference counter goes
      up exactly when the stride repeats the previously recorded one. */
  lemma OtherStrideRecordedOnce(s: State, addr: int)
    requires Inv(s) && IsU64(addr) && s.lastAddress != -1 && !IsZeroStride(s, addr)
    ensures AfterAddress(s, addr).strides.values == s.strides.values + [NextStride(s, addr)]
    ensures forall w :: Count(AfterAddress(s, addr).strides.values, w) ==
                          Count(s.strides.values, w) + (if w == NextStride(s, addr) then 1 else 0)
    ensures AfterAddress(s, addr).zeroDiffCount ==
              s.zeroDiffCount + (if s.strides.values != [] &&
                                    s.strides.values[|s.strides.values| - 1] == NextStride(s, addr)
                                 then 1 else 0)
    ensures AfterAddress(s, addr).zeroCount == s.zeroCount
  {
    var vs := s.strides.values;
    var s1 := s.(lastAddress := ToSigned64(addr));
    var stride := NextStride(s, addr);
    assert AfterAddress(s, addr) == RecordStride(s1, stride);
    RecordStrideValues(s1, stride);
    forall w ensures Count(vs + [stride], w) == Count(vs, w) + (if w == stride then 1 else 0) {
      CountSnoc(vs, stride, w);
    }
    RecordStrideRepeats(s1, stride);
    if vs != [] {
      RepeatsSnoc(vs, stride);
    }
  }

  /** The state after `addAddress` of each of `addrs` in turn. */
  function AfterAddresses(s: State, addrs: seq<int>): (r: State)
    requires IsI64(s.lastAddress) && forall k :: 0 <= k < |addrs| ==> IsU64(addrs[k])
    ensures IsI64(r.lastAddress)
  {
    if addrs == [] then s
    else AfterAddress(AfterAddresses(s, addrs[..|addrs| - 1]), addrs[|addrs| - 1])
  }

  /** Of the calls `addAddress(a)` for `a` in `addrs`, those that found a
      remembered address (`remembered`), or one in the same 16-byte block
      as `a` (`!remembered`). */
  function CallsFinding(s: State, addrs: seq<int>, sameBlock: bool): nat
    requires IsI64(s.lastAddress) && forall k :: 0 <= k < |addrs| ==> IsU64(addrs[k])
  {
    if addrs == [] then 0
    else
      var t := AfterAddresses(s, addrs[..|addrs| - 1]);
      var a := addrs[|addrs| - 1];
      CallsFinding(s, addrs[..|addrs| - 1], sameBlock) +
        if t.lastAddress != -1 && (!sameBlock || IsZeroStride(t, a)) then 1 else 0
  }

  /** `strideZeroCount` goes up once for each call that finds the remembered
      address in its own 16-byte block, and every other call that finds a
      remembered address records exactly one stride: the two counters
      together grow by the number of calls that had an address to compare
      with. */
  lemma {:induction false} ZeroCountCountsSameBlock(s: State, addrs: seq<int>)
    requires Inv(s) && forall k :: 0 <= k < |addrs| ==> IsU64(addrs[k])
    ensures Inv(AfterAddresses(s, addrs))
    ensures AfterAddresses(s, addrs).zeroCount == s.zeroCount + CallsFinding(s, addrs, true)
    ensures AfterAddresses(s, addrs).zeroCount + |AfterAddresses(s, addrs).strides.values| ==
              s.zeroCount + |s.strides.values| + CallsFinding(s, addrs, false)
  {
    if addrs != [] {
      var q := addrs[..|addrs| - 1];
      var a := addrs[|addrs| - 1];
      ZeroCountCountsSameBlock(s, q);
      var t := AfterAddresses(s, q);
      AfterAddressPreservesInv(t, a);
      if t.lastAddress != -1 && !IsZeroStride(t, a) {
        OtherStrideRecordedOnce(t, a);
      }
    }
  }

  /** `clearAddresses` keeps every count, list and table, and the next
      address is again only remembered. */
  lemma ClearedThenLatches(s: State, addr: int)
    requires Inv(s) && IsU64(addr)
    ensures Inv(Cleared(s))
    ensures AfterAddress(Cleared(s), addr) == s.(lastAddress := ToSigned64(addr))
  {
  }

  /** An `addr` of all ones is stored as the `long` -1, which is also the
      "no address yet" sentinel, so the address after it is only remembered. */
  lemma AllOnesAddressLooksFresh(s: State, addr: int)
    requires Inv(s) && IsU64(addr)
    ensures AfterAddress(AfterAddress(s, TWO_64 - 1), addr).strides ==
            AfterAddress(s, TWO_64 - 1).strides
  {
  }

  class LoadStride {
    var loadID: int
    var executionCount: int
    var lastAddress: int
    var strideValues: seq<int>
    var strideValuesToCount: map<int, int>
    var strideZeroCount: nat
    var strideZeroDifferenceCount: nat
    var topStrideValues: seq<Entry>
    var topStrideHolder: Entry

    function Abs(): State
      reads this
    {
      State(loadID, executionCount, lastAddress,
            Tally(strideValues, strideValuesToCount, topStrideValues),
            topStrideHolder, strideZeroCount, strideZeroDifferenceCount)
    }

    ghost predicate Valid()
      reads this
    {
      Inv(Abs())
    }

    constructor (load_id: int, exec_count: int)
      requires IsU32(load_id) && IsI32(exec_count)
      ensures Valid() && Abs() == Init(load_id, exec_count)
    {
      loadID := load_id;
      executionCount := WrapU32(exec_count);
      strideZeroCount := 0;
      strideZeroDifferenceCount := 0;
      topStrideHolder := NoHolder;
      lastAddress := -1;
      strideValues := [];
      strideValuesToCount := map[];
      topStrideValues := [];
      EmptyTallyInv(true);
    }

    /** `updateTopStrideValues`: promote the holder, then (unless the
        stride is 0) refresh the top table with the stride's count. */
    method UpdateTopStrideValues(value: int)
      requires value in strideValuesToCount
      modifies this`topStrideHolder, this`topStrideValues
      ensures topStrideHolder == Promote(old(topStrideHolder), value, strideValuesToCount[value])
      ensures topStrideValues == TopAfter(old(topStrideValues), strideValuesToCount, value, true)
    {
      var count := strideValuesToCount[value];
      if count > topStrideHolder.count {
        topStrideHolder := Entry(value, count);
      }
      if value == 0 {
        return;
      }
      topStrideValues := UpdateTopTable(topStrideValues, value, count);
    }

    /** `addAddress` */
    method AddAddress(addr: int)
      requires IsI64(lastAddress) && IsU64(addr)
      modifies this
      ensures Abs() == AfterAddress(old(Abs()), addr)
    {
      ghost var s0 := Abs();
      if lastAddress == -1 {
        lastAddress := ToSigned64(addr);
        assert Abs() == AfterAddress(s0, addr);
        return;
      }
      var last_address := ToUnsigned64(lastAddress);
      UnsignedSignedRoundTrip(lastAddress);
      lastAddress := ToSigned64(addr);
      var stride := StrideOf(addr, last_address);
      if stride == 0 || IsSameValue(ToSigned64(addr), ToSigned64(last_address)) {
        strideZeroCount := strideZeroCount + 1;
        assert Abs() == AfterAddress(s0, addr);
        return;
      }
      ghost var s1 := s0.(lastAddress := ToSigned64(addr));
      assert AfterAddress(s0, addr) == RecordStride(s1, stride);
      if |strideValues| == 0 {
        strideValues := strideValues + [stride];
        strideValuesToCount := Bump(strideValuesToCount, stride);
        UpdateTopStrideValues(stride);
        assert Abs() == RecordStride(s1, stride);
        return;
      }
      var last_stride := strideValues[|strideValues| - 1];
      strideValues := strideValues + [stride];
      strideValuesToCount := Bump(strideValuesToCount, stride);
      UpdateTopStrideValues(stride);
      var strideDifference := WrapI64(stride - last_stride);
      if strideDifference == 0 {
        strideZeroDifferenceCount := strideZeroDifferenceCount + 1;
      }
      ghost var t := Add(s0.strides, stride, true);
      assert Tally(strideValues, strideValuesToCount, topStrideValues) == t;
      assert topStrideHolder == Promote(s0.holder, stride, t.counts[stride]);
      assert Abs() == RecordStride(s1, stride);
    }

    /** `clearAddresses` */
    method ClearAddresses()
      modifies this`lastAddress
      ensures Abs() == Cleared(old(Abs()))
    {
      lastAddress := -1;
    }

    /** `getNumberUniqueStrides`: the number of distinct recorded strides,
        as an `unsigned int`. */
    function GetNumberUniqueStrides(): (n: int)
      reads this
      requires Valid()
      ensures n == WrapU32(|Distinct(strideValues)|)
    {
      WrapU32(|strideValuesToCount|)
    }

    /** `getStrideExecCount`: the number of recorded strides, which is also
        the sum of all their counts. */
    function GetStrideExecCount(): (n: int)
      reads this
      requires Valid()
      ensures n == WrapU32(SumAt(strideValuesToCount, Distinct(strideValues)))
    {
      WrapU32(|strideValues|)
    }

    /** `getStrideZeroCount`: the number of calls that found the remembered
        address in their own 16-byte block (`ZeroCountCountsSameBlock`). */
    function GetStrideZeroCount(): (n: nat)
      reads this
      ensures n == Abs().zeroCount
    {
      strideZeroCount
    }

    /** `getTopStrideValue`: the holder, (-1, -1) before any stride and
        afterwards a recorded stride with the largest count. */
    function GetTopStrideValue(): (h: Entry)
      reads this
      requires Valid()
      ensures strideValues == [] ==> h == NoHolder
      ensures strideValues != [] ==> h.key in strideValues && h.count == Count(strideValues, h.key)
      ensures strideValues != [] ==> forall w :: Count(strideValues, w) <= h.count
    {
      HolderIsMaximum(strideValues);
      topStrideHolder
    }

    /** `getTopStrideValues`: at most four distinct non-zero strides, each
        with its current count. */
    function GetTopStrideValues(): (t: seq<Entry>)
      reads this
      requires Valid()
      ensures |t| <= TOPCOUNT && DistinctKeys(t) && !HasKey(t, 0)
      ensures forall i :: 0 <= i < |t| ==> t[i].count == Count(strideValues, t[i].key)
    {
      topStrideValues
    }
  }
}
