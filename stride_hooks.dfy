/** The stride profiler's runtime hooks: a registry from load id to the
    `LoadStride` object that profiles that load, filled lazily by
    `Stride_StrideProfile` once `Stride_init` has run, and the printer that
    writes the registry out between the START and END markers. */
module StrideHooks {
  import opened Common
  import opened TopTable
  import opened StrideTally
  import LS = StrideProfilerLoadStride
  import opened ProfileText

  /** The padding of the top-stride counts: `n` zeros, none when `n <= 0`. */
  function Zeros(n: int): (z: seq<int>)
    ensures |z| == if n <= 0 then 0 else n
    ensures forall i :: 0 <= i < |z| ==> z[i] == 0
    decreases n
  {
    if n <= 0 then [] else [0] + Zeros(n - 1)
  }

  /** The counts of the top strides, in table order. */
  function TopCounts(t: seq<Entry>): (c: seq<int>)
    ensures |c| == |t|
    ensures forall i :: 0 <= i < |t| ==> c[i] == t[i].count
  {
    if t == [] then [] else [t[0].count] + TopCounts(t[1..])
  }

  /** The integers of one record line: load id, number of distinct strides
      and of recorded strides (both `unsigned int`), zero-stride count,
      dominant stride, then the top counts padded with zeros up to four. */
  function RecordFields(id: int, s: LS.State): (f: seq<int>)
    ensures |f| == 5 + |s.strides.top| + (if |s.strides.top| < TOPCOUNT then TOPCOUNT - |s.strides.top| else 0)
  {
    [id, WrapU32(|s.strides.counts|), WrapU32(|s.strides.values|), s.zeroCount, s.holder.key]
      + TopCounts(s.strides.top) + Zeros(TOPCOUNT - |s.strides.top|)
  }

  /** Every record of a profile that keeps its invariant has exactly nine
      fields, and they say what the profile recorded. */
  lemma RecordFieldsNine(id: int, s: LS.State)
    requires LS.Inv(s)
    ensures |RecordFields(id, s)| == 9
    ensures RecordFields(id, s)[1] == WrapU32(|Distinct(s.strides.values)|)
    ensures RecordFields(id, s)[2] == WrapU32(|s.strides.values|)
    ensures RecordFields(id, s)[4] == HolderOf(s.strides.values).key
    ensures forall i :: 0 <= i < |s.strides.top| ==>
              RecordFields(id, s)[5 + i] == Count(s.strides.values, s.strides.top[i].key)
    ensures forall i :: 5 + |s.strides.top| <= i < 5 + TOPCOUNT ==> RecordFields(id, s)[i] == 0
  {
    var f := RecordFields(id, s);
    var t := s.strides.top;
    forall i | 0 <= i < |t| ensures f[5 + i] == Count(s.strides.values, t[i].key) {
      assert f[5 + i] == TopCounts(t)[i];
    }
    forall i | 5 + |t| <= i < 5 + TOPCOUNT ensures f[i] == 0 {
      assert f[i] == Zeros(TOPCOUNT - |t|)[i - 5 - |t|];
    }
  }

  /** The registry as values: each registered load id with its profile's state. */
  function AfterProfile(ps: map<int, LS.State>, initialized: bool,
                        loadId: int, addr: int, execCount: int): map<int, LS.State>
    requires forall k :: k in ps ==> IsI64(ps[k].lastAddress)
    requires IsU32(loadId) && IsU64(addr) && IsI32(execCount)
  {
    if !initialized then ps
    else if loadId in ps then ps[loadId := LS.AfterAddress(ps[loadId], addr)]
    else ps[loadId := LS.AfterAddress(LS.Init(loadId, execCount), addr)]
  }

  /** The registry after `Stride_StrideProfile_ClearAddresses`: unchanged
      before `Stride_init` and for an unregistered load (where the source's
      assertion fails); otherwise only that load's last address is reset. */
  function AfterClear(ps: map<int, LS.State>, initialized: bool, loadId: int): map<int, LS.State>
  {
    if initialized && loadId in ps then ps[loadId := LS.Cleared(ps[loadId])] else ps
  }

  ghost predicate AllInv(ps: map<int, LS.State>) {
    forall k :: k in ps ==> IsU32(k) && LS.Inv(ps[k])
  }

  /** `Stride_StrideProfile` keeps every profile's invariant, registers the
      load when the runtime is initialised and touches no other load. */
  lemma AfterProfileKeeps(ps: map<int, LS.State>, initialized: bool,
                          loadId: int, addr: int, execCount: int)
    requires AllInv(ps)
    requires IsU32(loadId) && IsU64(addr) && IsI32(execCount)
    ensures AllInv(AfterProfile(ps, initialized, loadId, addr, execCount))
    ensures initialized ==> AfterProfile(ps, initialized, loadId, addr, execCount).Keys == ps.Keys + {loadId}
    ensures forall k :: k in ps && k != loadId ==>
              AfterProfile(ps, initialized, loadId, addr, execCount)[k] == ps[k]
  {
    if initialized {
      if loadId in ps {
        LS.AfterAddressPreservesInv(ps[loadId], addr);
      } else {
        LS.AfterAddressPreservesInv(LS.Init(loadId, execCount), addr);
      }
    }
  }

  /** `Stride_StrideProfile_ClearAddresses` keeps every profile's
      invariant and the set of registered loads, and of the load's own
      profile changes only the last address, which it forgets. */
  lemma AfterClearKeeps(ps: map<int, LS.State>, initialized: bool, loadId: int)
    requires AllInv(ps)
    ensures AllInv(AfterClear(ps, initialized, loadId))
    ensures AfterClear(ps, initialized, loadId).Keys == ps.Keys
    ensures forall k :: k in ps && k != loadId ==> AfterClear(ps, initialized, loadId)[k] == ps[k]
    ensures initialized && loadId in ps ==>
              AfterClear(ps, initialized, loadId)[loadId] == ps[loadId].(lastAddress := -1)
  {
    if initialized && loadId in ps {
      LS.ClearedThenLatches(ps[loadId], 0);
    }
  }

  /** The first call for a load creates its profile with that call's
      execution count; a later call leaves the count as it was. */
  lemma FirstProfileSetsExecCount(ps: map<int, LS.State>, loadId: int, addr: int, execCount: int)
    requires AllInv(ps)
    requires IsU32(loadId) && IsU64(addr) && IsI32(execCount)
    ensures loadId !in ps ==>
              AfterProfile(ps, true, loadId, addr, execCount)[loadId].executionCount == WrapU32(execCount)
    ensures loadId in ps ==>
              AfterProfile(ps, true, loadId, addr, execCount)[loadId].executionCount == ps[loadId].executionCount
  {
  }

  /** The lines the printer writes for the given registry, with the
      registered ids in the order given. */
  function PrintedLines(ps: map<int, LS.State>, ids: seq<int>): seq<string>
    requires forall i :: 0 <= i < |ids| ==> ids[i] in ps
  {
    [START] + RecordLines(ps, ids) + [END]
  }

  function RecordLines(ps: map<int, LS.State>, ids: seq<int>): (ls: seq<string>)
    requires forall i :: 0 <= i < |ids| ==> ids[i] in ps
  {
    seq(|ids|, i requires 0 <= i < |ids| => FieldsText(RecordFields(ids[i], ps[ids[i]])))
  }

  /** One more id prints one more line. */
  lemma RecordLinesSnoc(ps: map<int, LS.State>, ids: seq<int>, i: nat)
    requires i < |ids|
    requires forall j :: 0 <= j < |ids| ==> ids[j] in ps
    ensures RecordLines(ps, ids[..i + 1]) ==
            RecordLines(ps, ids[..i]) + [FieldsText(RecordFields(ids[i], ps[ids[i]]))]
  {
    assert ids[..i + 1][..i] == ids[..i];
  }

  ghost predicate Ascending(ids: seq<int>) {
    forall i, j :: 0 <= i < j < |ids| ==> ids[i] < ids[j]
  }

  /** The first of an ascending sequence is its smallest element. */
  lemma AscendingHead(a: seq<int>)
    requires Ascending(a) && a != []
    ensures forall k :: k in a ==> a[0] <= k
  {
  }

  lemma HeadIn(a: seq<int>)
    requires a != []
    ensures a[0] in a
  {
  }

  /** The ascending order of a set of ids is unique: two ascending
      sequences with the same elements are equal. */
  lemma {:induction false} AscendingUnique(a: seq<int>, b: seq<int>)
    requires Ascending(a) && Ascending(b)
    requires forall k :: k in a <==> k in b
    ensures a == b
  {
    if a != [] && b != [] {
      AscendingHead(a);
      AscendingHead(b);
      assert a[0] in a && b[0] in b;
      forall k ensures k in a[1..] <==> k in b[1..] {
        if k in a[1..] {
          var i :| 1 <= i < |a| && a[i] == k;
          assert a[0] < k && k in b;
        }
        if k in b[1..] {
          var i :| 1 <= i < |b| && b[i] == k;
          assert b[0] < k && k in a;
        }
      }
      AscendingUnique(a[1..], b[1..]);
      assert a == [a[0]] + a[1..] && b == [b[0]] + b[1..];
    } else if a != [] {
      HeadIn(a);
      assert false;
    } else if b != [] {
      HeadIn(b);
      assert false;
    }
  }

  /** Where `std::map` puts a new key: into its ascending key order. */
  function InsertSorted(ks: seq<int>, k: int): (r: seq<int>)
    requires Ascending(ks) && k !in ks
    ensures Ascending(r)
    ensures forall j :: j in r <==> j in ks || j == k
    ensures |r| == |ks| + 1
  {
    if ks == [] then [k]
    else if k < ks[0] then
      AscendingHead(ks);
      [k] + ks
    else
      var t := InsertSorted(ks[1..], k);
      assert forall j :: j in t ==> ks[0] < j by {
        AscendingHead(ks);
      }
      AscendingCons(ks[0], t);
      assert ks == [ks[0]] + ks[1..];
      [ks[0]] + t
  }

  /** A value below every element of an ascending sequence extends it at
      the front. */
  lemma AscendingCons(x: int, t: seq<int>)
    requires Ascending(t) && forall j :: j in t ==> x < j
    ensures Ascending([x] + t)
    ensures forall j :: j in [x] + t <==> j == x || j in t
  {
    forall i, j | 0 <= i < j < |[x] + t| ensures ([x] + t)[i] < ([x] + t)[j] {
      if i == 0 {
        assert ([x] + t)[j] == t[j - 1];
        assert t[j - 1] in t;
      }
    }
  }

  /** The runtime's globals: `Stride_initialized` and the `StrideProfiles`
      map. The `std::map` is kept as its ascending key sequence `ids`, the
      order its iterator visits, and the lookup `profiles` from key to the
      state of that key's `LoadStride`. */
  class StrideRuntime {
    var initialized: bool
    var ids: seq<int>
    var profiles: map<int, LS.State>

    /** The keys are those of the lookup, in ascending order, and every
        registered profile keeps its invariant. */
    ghost predicate Valid()
      reads this
    {
      KeysInOrder() && AllInv(profiles)
    }

    ghost predicate KeysInOrder()
      reads this
    {
      Ascending(ids) && (forall k :: k in ids <==> k in profiles)
    }

    /** Program start: not initialised, nothing registered. */
    constructor ()
      ensures Valid() && !initialized && profiles == map[] && ids == []
    {
      initialized := false;
      ids := [];
      profiles := map[];
    }

    /** `Stride_init`: from now on the hooks record. Opening the output
        file, the clock and `atexit` are outside the model. */
    method Init()
      modifies this`initialized
      ensures initialized
    {
      initialized := true;
    }

    /** `Stride_StrideProfile`: nothing before `Stride_init`; otherwise create
        the load's profile on its first call and hand it the address. */
    method StrideProfile(load_id: int, addr: int, exec_count: int)
      requires Valid()
      requires IsU32(load_id) && IsU64(addr) && IsI32(exec_count)
      modifies this`ids, this`profiles
      ensures Valid()
      ensures profiles == AfterProfile(old(profiles), initialized, load_id, addr, exec_count)
    {
      if !initialized {
        return;
      }
      AfterProfileKeeps(profiles, true, load_id, addr, exec_count);
      if load_id in profiles {
        profiles := profiles[load_id := LS.AfterAddress(profiles[load_id], addr)];
      } else {
        ids := InsertSorted(ids, load_id);
        profiles := profiles[load_id := LS.AfterAddress(LS.Init(load_id, exec_count), addr)];
      }
    }

    /** `Stride_StrideProfile_ClearAddresses`: nothing before `Stride_init`;
        the load must be registered (the source asserts it, and `aborted`
        stands for that failing assertion); only its last address is reset. */
    method ClearAddresses(load_id: int) returns (aborted: bool)
      requires Valid()
      modifies this`profiles
      ensures Valid()
      ensures aborted <==> initialized && load_id !in old(profiles)
      ensures initialized && !aborted ==>
                profiles == old(profiles)[load_id := LS.Cleared(old(profiles)[load_id])]
      ensures !initialized || aborted ==> profiles == old(profiles)
      ensures profiles == AfterClear(old(profiles), initialized, load_id)
    {
      if !initialized {
        return false;
      }
      if load_id !in profiles {
        return true;
      }
      LS.ClearedThenLatches(profiles[load_id], 0);
      profiles := profiles[load_id := LS.Cleared(profiles[load_id])];
      return false;
    }

    /** `Stride_print_StrideProfile`: the START line, one record line per
        registered load in ascending id order, then the END line. */
    method Print() returns (lines: seq<string>)
      requires KeysInOrder()
      ensures forall i :: 0 <= i < |ids| ==> ids[i] in profiles
      ensures lines == PrintedLines(profiles, ids)
      ensures profiles == map[] ==> lines == [START, END]
    {
      forall j | 0 <= j < |ids| ensures ids[j] in profiles {
        assert ids[j] in ids;
      }
      lines := [START];
      var i := 0;
      while i < |ids|
        invariant 0 <= i <= |ids|
        invariant lines == [START] + RecordLines(profiles, ids[..i])
      {
        var load_id := ids[i];
        var fields := Record(load_id, profiles[load_id]);
        RecordLinesSnoc(profiles, ids, i);
        lines := lines + [FieldsText(fields)];
        i := i + 1;
      }
      assert ids[..i] == ids;
      lines := lines + [END];
      if ids != [] {
        assert ids[0] in profiles;
      }
    }
  }

  /** One record of `Stride_print_StrideProfile`: the five scalars, the
      count of every top stride, then zeros up to four entries. */
  method Record(load_id: int, loadStride: LS.State) returns (fields: seq<int>)
    ensures fields == RecordFields(load_id, loadStride)
  {
    fields := [load_id, WrapU32(|loadStride.strides.counts|),
               WrapU32(|loadStride.strides.values|), loadStride.zeroCount,
               loadStride.holder.key];
    var topStrides := loadStride.strides.top;
    ghost var want := RecordFields(load_id, loadStride);
    var i := 0;
    while i < |topStrides|
      invariant 0 <= i <= |topStrides|
      invariant fields == want[..5 + i]
    {
      fields := fields + [topStrides[i].count];
      i := i + 1;
    }
    while i < TOPCOUNT
      invariant |topStrides| <= i
      invariant i <= TOPCOUNT || i == |topStrides|
      invariant fields == want[..5 + i]
    {
      fields := fields + [0];
      i := i + 1;
    }
    assert fields == want;
  }
}
