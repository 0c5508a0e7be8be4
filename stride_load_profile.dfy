/** The pass that reads the stride profile back: it numbers the loads (and
    the loads, stores and external calls) of a module in a fixed order, reads
    `result.stride.profile` line by line, and files one `loadInfo` per record
    under the load instruction the record's id names. Also the pass that
    counts the module's loads once, however often it is run. */
module StrideLoadProfile {
  import opened Common
  import opened ProfileText

  /** How many top-stride frequencies a record carries. */
  const NUM_TOP_FREQ: nat := 4
  /** The integer conversions in one record line: the load id, four counts
      and four frequencies. */
  const RECORD_FIELDS: nat := 9

  // ---------------------------------------------------------------------
  // The module being numbered

  /** The instruction kinds the numbering tells apart. `CallExternal` is a
      call to a declaration or through a pointer; `CallDefined` is a call to
      a function with a body. */
  datatype Kind = Load | Store | CallDefined | CallExternal | Other

  /** An instruction: `ref` stands for its address, which is its identity. */
  datatype Inst = Inst(ref: int, kind: Kind)

  datatype Function = Function(isDeclaration: bool, blocks: seq<seq<Inst>>)

  /** The instructions of a function's blocks, block by block. */
  function BlocksInsts(bs: seq<seq<Inst>>): seq<Inst>
  {
    if bs == [] then [] else bs[0] + BlocksInsts(bs[1..])
  }

  /** The instructions of the module's defined functions, in module,
      function, block and instruction order; declarations have none. */
  function DefinedInsts(m: seq<Function>): seq<Inst>
  {
    if m == [] then []
    else (if m[0].isDeclaration then [] else BlocksInsts(m[0].blocks)) + DefinedInsts(m[1..])
  }

  predicate GetsStrideId(i: Inst) {
    i.kind == Load || i.kind == Store || i.kind == CallExternal
  }

  /** The loads among `insts`, in order. */
  function Loads(insts: seq<Inst>): (r: seq<int>)
    ensures |r| <= |insts|
  {
    if insts == [] then []
    else Loads(insts[..|insts| - 1]) + (if insts[|insts| - 1].kind == Load then [insts[|insts| - 1].ref] else [])
  }

  /** The instructions that get a stride id, in order. */
  function Strided(insts: seq<Inst>): (r: seq<int>)
    ensures |r| <= |insts|
  {
    if insts == [] then []
    else Strided(insts[..|insts| - 1]) + (if GetsStrideId(insts[|insts| - 1]) then [insts[|insts| - 1].ref] else [])
  }

  lemma LoadsSnoc(insts: seq<Inst>, k: nat)
    requires k < |insts|
    ensures Loads(insts[..k + 1]) == Loads(insts[..k]) + (if insts[k].kind == Load then [insts[k].ref] else [])
  {
    assert insts[..k + 1][..k] == insts[..k];
  }

  /** The loads of two runs of instructions are the loads of each, in order. */
  lemma {:induction false} LoadsAppend(a: seq<Inst>, b: seq<Inst>)
    ensures Loads(a + b) == Loads(a) + Loads(b)
  {
    if b != [] {
      var n := |b| - 1;
      assert (a + b)[..|a + b| - 1] == a + b[..n];
      LoadsAppend(a, b[..n]);
    } else {
      assert a + b == a;
    }
  }

  lemma StridedSnoc(insts: seq<Inst>, k: nat)
    requires k < |insts|
    ensures Strided(insts[..k + 1]) == Strided(insts[..k]) + (if GetsStrideId(insts[k]) then [insts[k].ref] else [])
  {
    assert insts[..k + 1][..k] == insts[..k];
  }

  /** `m[++counter] = v` for each `v` in turn, with an `unsigned` counter
      that starts at `start`. */
  function AssignIds(m: map<int, int>, start: int, vs: seq<int>): map<int, int>
  {
    if vs == [] then m
    else AssignIds(m, start, vs[..|vs| - 1])[WrapU32(start + |vs|) := vs[|vs| - 1]]
  }

  /** `m[v] = ++counter` for each `v` in turn. */
  function AssignRefs(m: map<int, int>, start: int, vs: seq<int>): map<int, int>
  {
    if vs == [] then m
    else AssignRefs(m, start, vs[..|vs| - 1])[vs[|vs| - 1] := WrapU32(start + |vs|)]
  }

  lemma AssignIdsSnoc(m: map<int, int>, start: int, vs: seq<int>, v: int)
    ensures AssignIds(m, start, vs + [v]) == AssignIds(m, start, vs)[WrapU32(start + |vs| + 1) := v]
  {
    assert (vs + [v])[..|vs|] == vs;
  }

  lemma AssignRefsSnoc(m: map<int, int>, start: int, vs: seq<int>, v: int)
    ensures AssignRefs(m, start, vs + [v]) == AssignRefs(m, start, vs)[v := WrapU32(start + |vs| + 1)]
  {
    assert (vs + [v])[..|vs|] == vs;
  }

  /** The counters and maps the numbering loop updates. */
  datatype Numbering = Numbering(loadId: int, strideId: int, loadIds: map<int, int>,
                                 ids: map<int, int>, refs: map<int, int>)

  /** A load takes the next load id. */
  function LoadStep(n: Numbering, inst: Inst): Numbering
  {
    if inst.kind == Load then
      var l := WrapU32(n.loadId + 1);
      n.(loadId := l, loadIds := n.loadIds[l := inst.ref])
    else n
  }

  /** A load, store or external call takes the next stride id. */
  function StrideStep(n: Numbering, inst: Inst): Numbering
  {
    if GetsStrideId(inst) then
      var d := WrapU32(n.strideId + 1);
      n.(strideId := d, ids := n.ids[d := inst.ref], refs := n.refs[inst.ref := d])
    else n
  }

  /** One turn of the numbering loop. */
  function NumberInst(n: Numbering, inst: Inst): Numbering
  {
    StrideStep(LoadStep(n, inst), inst)
  }

  function NumberAll(n: Numbering, insts: seq<Inst>): Numbering
  {
    if insts == [] then n
    else NumberInst(NumberAll(n, insts[..|insts| - 1]), insts[|insts| - 1])
  }

  lemma NumberAllSnoc(n: Numbering, insts: seq<Inst>, k: nat)
    requires k < |insts|
    ensures NumberAll(n, insts[..k + 1]) == NumberInst(NumberAll(n, insts[..k]), insts[k])
  {
    assert insts[..k + 1][..k] == insts[..k];
  }

  lemma {:induction false} NumberAllLoads(n: Numbering, insts: seq<Inst>)
    requires IsU32(n.loadId)
    ensures NumberAll(n, insts).loadId == WrapU32(n.loadId + |Loads(insts)|)
    ensures NumberAll(n, insts).loadIds == AssignIds(n.loadIds, n.loadId, Loads(insts))
  {
    if insts != [] {
      var k := |insts| - 1;
      var p := insts[..k];
      NumberAllLoads(n, p);
      var x := insts[k];
      var q := LoadStep(NumberAll(n, p), x);
      assert NumberAll(n, insts).loadId == q.loadId && NumberAll(n, insts).loadIds == q.loadIds;
      if x.kind == Load {
        WrapU32Step(n.loadId + |Loads(p)|);
        AssignIdsSnoc(n.loadIds, n.loadId, Loads(p), x.ref);
        assert Loads(insts) == Loads(p) + [x.ref];
        assert q.loadId == WrapU32(n.loadId + |Loads(p)| + 1);
        assert q.loadIds == AssignIds(n.loadIds, n.loadId, Loads(p) + [x.ref]);
      } else {
        assert Loads(insts) == Loads(p);
      }
    }
  }

  lemma {:induction false} NumberAllStrides(n: Numbering, insts: seq<Inst>)
    requires IsU32(n.strideId)
    ensures NumberAll(n, insts).strideId == WrapU32(n.strideId + |Strided(insts)|)
    ensures NumberAll(n, insts).ids == AssignIds(n.ids, n.strideId, Strided(insts))
    ensures NumberAll(n, insts).refs == AssignRefs(n.refs, n.strideId, Strided(insts))
  {
    if insts != [] {
      var k := |insts| - 1;
      var p := insts[..k];
      NumberAllStrides(n, p);
      var x := insts[k];
      var q := LoadStep(NumberAll(n, p), x);
      assert q.strideId == NumberAll(n, p).strideId && q.ids == NumberAll(n, p).ids && q.refs == NumberAll(n, p).refs;
      if GetsStrideId(x) {
        StrideStepAssigns(n, q, Strided(p), x);
        assert Strided(insts) == Strided(p) + [x.ref];
      } else {
        assert Strided(insts) == Strided(p);
      }
    }
  }

  lemma StrideStepAssigns(n: Numbering, q: Numbering, vs: seq<int>, x: Inst)
    requires GetsStrideId(x) && IsU32(n.strideId)
    requires q.strideId == WrapU32(n.strideId + |vs|)
    requires q.ids == AssignIds(n.ids, n.strideId, vs) && q.refs == AssignRefs(n.refs, n.strideId, vs)
    ensures StrideStep(q, x).strideId == WrapU32(n.strideId + |vs + [x.ref]|)
    ensures StrideStep(q, x).ids == AssignIds(n.ids, n.strideId, vs + [x.ref])
    ensures StrideStep(q, x).refs == AssignRefs(n.refs, n.strideId, vs + [x.ref])
  {
    WrapU32Step(n.strideId + |vs|);
    AssignIdsSnoc(n.ids, n.strideId, vs, x.ref);
    AssignRefsSnoc(n.refs, n.strideId, vs, x.ref);
  }

  /** The loop gives the `i`-th load (counting from 1) the load id `start +
      i` and the `i`-th strided instruction the stride id `start + i`, both
      modulo 2^32, and records each reference under its stride id. */
  lemma NumberAllAssigns(n: Numbering, insts: seq<Inst>)
    requires IsU32(n.loadId) && IsU32(n.strideId)
    ensures NumberAll(n, insts) ==
              Numbering(WrapU32(n.loadId + |Loads(insts)|), WrapU32(n.strideId + |Strided(insts)|),
                        AssignIds(n.loadIds, n.loadId, Loads(insts)),
                        AssignIds(n.ids, n.strideId, Strided(insts)),
                        AssignRefs(n.refs, n.strideId, Strided(insts)))
  {
    NumberAllLoads(n, insts);
    NumberAllStrides(n, insts);
  }

  /** The maps a first run fills: empty maps and counters at `(unsigned)-1`. */
  function FreshIds(vs: seq<int>): map<int, int> { AssignIds(map[], TWO_32 - 1, vs) }

  function FreshRefs(vs: seq<int>): map<int, int> { AssignRefs(map[], TWO_32 - 1, vs) }

  /** Starting from the counter's initial value `(unsigned)-1` with an empty
      map, the `i`-th value gets id `i`: ids are 0, 1, 2, ... in order. */
  lemma {:induction false} FreshIdsCountFromZero(vs: seq<int>)
    requires |vs| <= TWO_32
    ensures forall i :: 0 <= i < |vs| ==> i in FreshIds(vs) &&
                                          FreshIds(vs)[i] == vs[i]
    ensures forall k :: k in FreshIds(vs) ==> 0 <= k < |vs|
  {
    if vs != [] {
      var p := vs[..|vs| - 1];
      FreshIdsCountFromZero(p);
      assert WrapU32(TWO_32 - 1 + |vs|) == |vs| - 1;
      assert FreshIds(vs) == FreshIds(p)[|vs| - 1 := vs[|vs| - 1]];
    }
  }

  /** From a fresh start every numbered reference maps back to the id it
      was given, given the references are distinct. */
  lemma {:induction false} FreshRefsInvert(vs: seq<int>)
    requires |vs| <= TWO_32
    requires forall i, j :: 0 <= i < j < |vs| ==> vs[i] != vs[j]
    ensures forall i :: 0 <= i < |vs| ==> vs[i] in FreshRefs(vs) &&
                                          FreshRefs(vs)[vs[i]] == i
    ensures forall r :: r in FreshRefs(vs) ==>
              0 <= FreshRefs(vs)[r] < |vs| &&
              vs[FreshRefs(vs)[r]] == r
  {
    if vs != [] {
      var p := vs[..|vs| - 1];
      FreshRefsInvert(p);
      assert WrapU32(TWO_32 - 1 + |vs|) == |vs| - 1;
      assert FreshRefs(vs) == FreshRefs(p)[vs[|vs| - 1] := |vs| - 1];
      forall i | 0 <= i < |vs| - 1 ensures vs[i] != vs[|vs| - 1] && vs[i] == p[i] {
      }
    }
  }

  /** So `IdToInstMap` and `InstToIdMap` are inverse to each other once a
      fresh pass has numbered instructions with distinct addresses. */
  lemma FreshMapsAreInverse(vs: seq<int>)
    requires |vs| <= TWO_32
    requires forall i, j :: 0 <= i < j < |vs| ==> vs[i] != vs[j]
    ensures forall id :: id in FreshIds(vs) ==>
              FreshIds(vs)[id] in FreshRefs(vs) &&
              FreshRefs(vs)[FreshIds(vs)[id]] == id
    ensures forall r :: r in FreshRefs(vs) ==>
              FreshRefs(vs)[r] in FreshIds(vs) &&
              FreshIds(vs)[FreshRefs(vs)[r]] == r
  {
    FreshIdsCountFromZero(vs);
    FreshRefsInvert(vs);
  }

  // ---------------------------------------------------------------------
  // Reading the profile back

  /** One `loadInfo` as the reader fills it. */
  datatype LoadInfo = LoadInfo(
    loadId: int,
    numStrides: int,
    execCount: int,
    numZeroDiff: int,
    dominantStride: int,
    topFreqs: seq<int>)

  /** `LoadToLoadInfo`: the record of each load, keyed by the load or by
      null (`None`) for an id with no load. */
  type Infos = map<Option<int>, LoadInfo>

  /** Whether `s` is in non-increasing order. */
  ghost predicate Descending(s: seq<int>) {
    forall i, j :: 0 <= i < j < |s| ==> s[i] >= s[j]
  }

  /** Insert `x` into a non-increasing sequence. */
  function InsertDesc(s: seq<int>, x: int): (r: seq<int>)
    requires Descending(s)
    ensures |r| == |s| + 1
    ensures r[0] == x || (s != [] && r[0] == s[0])
    ensures Descending(r)
    ensures multiset(r) == multiset(s) + multiset{x}
  {
    if s == [] || x >= s[0] then [x] + s
    else
      assert s == [s[0]] + s[1..];
      [s[0]] + InsertDesc(s[1..], x)
  }

  /** `sort(v.rbegin(), v.rend())`: the values in non-increasing order. */
  function SortDesc(s: seq<int>): (r: seq<int>)
    ensures Descending(r)
    ensures multiset(r) == multiset(s)
  {
    if s == [] then []
    else
      assert s == [s[0]] + s[1..];
      InsertDesc(SortDesc(s[1..]), s[0])
  }

  /** The `loadInfo` of a record whose nine conversions all succeeded: the
      five `%d` fields stored in `int`s, the four `%u` frequencies stored in
      `unsigned int`s and then sorted. */
  function MakeInfo(fs: seq<int>): LoadInfo
    requires |fs| == RECORD_FIELDS
  {
    LoadInfo(WrapI32(fs[0]), WrapI32(fs[1]), WrapI32(fs[2]), WrapI32(fs[3]), WrapI32(fs[4]),
             SortDesc(AllU32(fs[5..])))
  }

  /** Each value stored in an `unsigned int`. */
  function AllU32(s: seq<int>): (u: seq<int>)
    ensures |u| == |s|
    ensures forall i :: 0 <= i < |s| ==> u[i] == WrapU32(s[i])
  {
    seq(|s|, i requires 0 <= i < |s| => WrapU32(s[i]))
  }

  /** `LoadIdToLoadInst[id]`: the load with that id, or null (`None`). The
      `int` id is used as an `unsigned` key. For a missing id `operator[]`
      also inserts a null entry; the map is never listed or asked whether it
      holds a key afterwards, so that entry is not observable and the model
      leaves `loadIds` unchanged. */
  function LookupLoad(loadIds: map<int, int>, id: int): Option<int>
  {
    var key := WrapU32(id);
    if key in loadIds then Some(loadIds[key]) else None
  }

  /** One record line: a line that scans as nine integers is filed under its
      load; any other line is passed over. */
  function ReadLine(infos: Infos, loadIds: map<int, int>, line: string): Infos
  {
    var fs := ScanInts(line, RECORD_FIELDS);
    if |fs| == RECORD_FIELDS then
      var info := MakeInfo(fs);
      infos[LookupLoad(loadIds, info.loadId) := info]
    else infos
  }

  /** One line handled by `ReadLine`, as a step of the line loop. */
  function LineStep(loadIds: map<int, int>): (Infos, string) -> Infos
  {
    (m: Infos, line: string) => ReadLine(m, loadIds, line)
  }

  /** The `getline` loop from line `k` on, each line handled by `step`: stop
      at the end of the input or at the first line that contains the END
      marker. */
  function ReadLinesWith(step: (Infos, string) -> Infos, infos: Infos, lines: seq<string>, k: nat): Infos
    decreases |lines| - k
  {
    if k >= |lines| || Contains(lines[k], END) then infos
    else ReadLinesWith(step, step(infos, lines[k]), lines, k + 1)
  }

  /** The `getline` loop of `runOnModule` from line `k` on. */
  function ReadFrom(infos: Infos, loadIds: map<int, int>, lines: seq<string>, k: nat): Infos
  {
    ReadLinesWith(LineStep(loadIds), infos, lines, k)
  }

  /** What `runOnModule` leaves in `LoadToLoadInfo`: the first line is
      skipped, the rest is read from line 1. */
  function ReadProfile(infos: Infos, loadIds: map<int, int>, lines: seq<string>): Infos
  {
    ReadFrom(infos, loadIds, lines, 1)
  }

  /** The first line is discarded whatever it holds. */
  lemma FirstLineIgnored(infos: Infos, loadIds: map<int, int>, a: string, b: string, rest: seq<string>)
    ensures ReadProfile(infos, loadIds, [a] + rest) == ReadProfile(infos, loadIds, [b] + rest)
  {
    ReadFromShift(LineStep(loadIds), infos, [a] + rest, [b] + rest, 1);
  }

  /** Whatever the step, the loop from line `k >= 1` on does not look at line 0. */
  lemma {:induction false} ReadFromShift(step: (Infos, string) -> Infos, infos: Infos,
                                         x: seq<string>, y: seq<string>, k: nat)
    requires 1 <= k && 0 < |x| == |y| && x[1..] == y[1..]
    ensures ReadLinesWith(step, infos, x, k) == ReadLinesWith(step, infos, y, k)
    decreases |x| - k
  {
    if k < |x| {
      assert x[k] == x[1..][k - 1] == y[k];
      if !Contains(x[k], END) {
        ReadFromShift(step, step(infos, x[k]), x, y, k + 1);
      }
    }
  }

  /** Nothing after the END line is read: the input may go on with anything. */
  lemma {:induction false} StopsAtEnd(step: (Infos, string) -> Infos, infos: Infos,
                                      lines: seq<string>, k: nat, j: nat, more: seq<string>)
    requires k <= j < |lines| && Contains(lines[j], END)
    ensures ReadLinesWith(step, infos, lines + more, k) == ReadLinesWith(step, infos, lines, k)
    decreases j - k
  {
    assert (lines + more)[k] == lines[k];
    if k < j && !Contains(lines[k], END) {
      StopsAtEnd(step, step(infos, lines[k]), lines, k + 1, j, more);
    }
  }

  /** A printed record line is read back field by field: each field as a
      32-bit `int`, the frequencies as sorted `unsigned int`s. The fourth
      printed field, the zero-stride count, lands in `num_zero_diff`. */
  lemma RecordReadBack(infos: Infos, loadIds: map<int, int>, fs: seq<int>)
    requires |fs| == RECORD_FIELDS
    ensures ReadLine(infos, loadIds, FieldsText(fs)) ==
              infos[LookupLoad(loadIds, WrapI32(fs[0])) := MakeInfo(fs)]
    ensures MakeInfo(fs).numZeroDiff == WrapI32(fs[3])
  {
    ScanFieldsText(fs);
  }

  // ---------------------------------------------------------------------
  // The passes

  /** `LdStCallCounter`: its static flag and load count. */
  class LdStCallCounter {
    var flag: bool
    var num_loads: int

    constructor ()
      ensures !flag && num_loads == 0
    {
      flag := false;
      num_loads := 0;
    }

    /** `runOnModule`: count the loads of the defined functions, only on
        the first run; it never reports a change. */
    method RunOnModule(m: seq<Function>) returns (changed: bool)
      requires IsU32(num_loads)
      modifies this
      ensures !changed && flag
      ensures old(flag) ==> num_loads == old(num_loads)
      ensures !old(flag) ==> num_loads == WrapU32(old(num_loads) + |Loads(DefinedInsts(m))|)
    {
      if flag {
        return false;
      }
      var insts := DefinedInsts(m);
      ghost var base := num_loads;
      ghost var seen := 0;
      var k := 0;
      while k < |insts|
        invariant 0 <= k <= |insts|
        invariant seen == |Loads(insts[..k])|
        invariant num_loads == WrapU32(base + seen)
      {
        LoadsSnoc(insts, k);
        if insts[k].kind == Load {
          WrapU32Step(base + seen);
          num_loads := WrapU32(num_loads + 1);
          seen := seen + 1;
        }
        k := k + 1;
      }
      assert insts[..k] == insts;
      flag := true;
      return false;
    }
  }

  /** Incrementing a wrapped counter is wrapping the incremented count. */
  lemma WrapU32Step(n: int)
    ensures WrapU32(WrapU32(n) + 1) == WrapU32(n + 1)
  {
  }

  /** `StrideLoadProfile`: its static id counters and the maps it fills. A
      load id never seen maps to no instruction, the null pointer `None`. */
  class StrideLoadProfile {
    var load_id: int
    var stride_id: int
    var loadIdToLoadInst: map<int, int>
    var idToInstMap: map<int, int>
    var instToIdMap: map<int, int>
    var loadToLoadInfo: Infos

    /** The counters start at `(unsigned)-1`; they are static, so a second
        run goes on numbering from where the first stopped. */
    constructor ()
      ensures load_id == TWO_32 - 1 && stride_id == TWO_32 - 1
      ensures loadIdToLoadInst == map[] && idToInstMap == map[] && instToIdMap == map[]
      ensures loadToLoadInfo == map[]
    {
      load_id := TWO_32 - 1;
      stride_id := TWO_32 - 1;
      loadIdToLoadInst := map[];
      idToInstMap := map[];
      instToIdMap := map[];
      loadToLoadInfo := map[];
    }

    /** The counters and the three maps the numbering fills. */
    function Abs(): Numbering
      reads this
    {
      Numbering(load_id, stride_id, loadIdToLoadInst, idToInstMap, instToIdMap)
    }

    /** The numbering loop of `runOnModule`: every load gets the next load
        id, every load, store and external call the next stride id, in the
        order of `DefinedInsts` (`NumberAllAssigns` spells the result out). */
    method Number(m: seq<Function>)
      modifies this`load_id, this`stride_id, this`loadIdToLoadInst, this`idToInstMap, this`instToIdMap
      ensures Abs() == NumberAll(old(Abs()), DefinedInsts(m))
    {
      ghost var n0 := Abs();
      var insts := DefinedInsts(m);
      var k := 0;
      while k < |insts|
        invariant 0 <= k <= |insts|
        invariant Abs() == NumberAll(n0, insts[..k])
      {
        var inst := insts[k];
        NumberAllSnoc(n0, insts, k);
        if inst.kind == Load {
          load_id := WrapU32(load_id + 1);
          loadIdToLoadInst := loadIdToLoadInst[load_id := inst.ref];
        }
        if GetsStrideId(inst) {
          stride_id := WrapU32(stride_id + 1);
          idToInstMap := idToInstMap[stride_id := inst.ref];
          instToIdMap := instToIdMap[inst.ref := stride_id];
        }
        k := k + 1;
      }
      assert insts[..k] == insts;
    }

    /** The reading part of `runOnModule`: without the profile file it
        returns false and files nothing; otherwise it skips the first line,
        reads records up to the END line and returns true. */
    method Read(fileExists: bool, lines: seq<string>) returns (result: bool)
      modifies this`loadToLoadInfo
      ensures result == fileExists
      ensures !fileExists ==> loadToLoadInfo == old(loadToLoadInfo)
      ensures fileExists ==> loadToLoadInfo == ReadProfile(old(loadToLoadInfo), loadIdToLoadInst, lines)
    {
      if !fileExists {
        return false;
      }
      var k := 1;
      while k < |lines|
        invariant 1 <= k
        invariant ReadFrom(loadToLoadInfo, loadIdToLoadInst, lines, k) ==
                  ReadProfile(old(loadToLoadInfo), loadIdToLoadInst, lines)
        decreases |lines| - k
      {
        var s := lines[k];
        if Contains(s, END) {
          break;
        }
        var fs := ScanInts(s, RECORD_FIELDS);
        if |fs| == RECORD_FIELDS {
          var load_info := MakeInfo(fs);
          var loadinstr := LookupLoad(loadIdToLoadInst, load_info.loadId);
          loadToLoadInfo := loadToLoadInfo[loadinstr := load_info];
        }
        k := k + 1;
      }
      return true;
    }
  }
}
