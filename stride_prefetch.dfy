/*
 * The stride-prefetching loop pass: which loads of a loop it profiles, how
 * each is classified from its stride profile (single stride, phased
 * multi-stride, weak single stride), the prefetch distance K, and the
 * arithmetic of the prefetch addresses it emits.
 */
module StridePrefetch {
  import opened Common
  import SLP = StrideLoadProfile

  // The thresholds shared by the profiling passes.
  const FT: int := 10000
  const TT: int := 100
  const SSST_T: int := 10
  const PMST_T: int := 10
  const WSST_T: int := 10
  const MAX_PREFETCH_DISTANCE: int := 8

  /** The classifier's thresholds: the three frequency ratios and the two
      zero-difference ratios `PMSTD_T` and `WSSTD_T`, which the pass uses
      but nothing defines. */
  datatype Thresholds = Thresholds(ssst: int, pmst: int, wsst: int, pmstd: int, wsstd: int)

  /** The ratio thresholds as the shared header sets them. */
  function HeaderThresholds(pmstd: int, wsstd: int): Thresholds
  {
    Thresholds(SSST_T, PMST_T, WSST_T, pmstd, wsstd)
  }

  /** Which of the three load sets a load goes into. */
  datatype Category = SSST | PMST | WSST | NoCategory

  // ---------------------------------------------------------------------
  // The numbers `profile` reads from a load's profile

  /** `top_4_freq += top_freqs[i]` over the whole vector: each partial sum
      is formed in `long` and stored back into the `int`. */
  function TopSum(fs: seq<int>): int
  {
    if fs == [] then 0 else WrapI32(TopSum(fs[..|fs| - 1]) + fs[|fs| - 1])
  }

  /** The mathematical sum. */
  function Sum(fs: seq<int>): int
  {
    if fs == [] then 0 else Sum(fs[..|fs| - 1]) + fs[|fs| - 1]
  }

  /** With non-negative frequencies whose total fits in an `int`, the
      stored running sum is the true sum. */
  lemma {:induction false} TopSumExact(fs: seq<int>)
    requires forall i :: 0 <= i < |fs| ==> 0 <= fs[i]
    requires Sum(fs) < TWO_31
    ensures TopSum(fs) == Sum(fs)
  {
    if fs != [] {
      var p := fs[..|fs| - 1];
      assert forall i :: 0 <= i < |p| ==> p[i] == fs[i];
      TopSumExact(p);
    }
  }

  /** The accumulation loop of `profile`. */
  method SumTopFreqs(fs: seq<int>) returns (top4: int)
    ensures top4 == TopSum(fs)
  {
    top4 := 0;
    var i := 0;
    while i < |fs|
      invariant 0 <= i <= |fs|
      invariant top4 == TopSum(fs[..i])
    {
      assert fs[..i + 1][..i] == fs[..i];
      top4 := WrapI32(top4 + fs[i]);
      i := i + 1;
    }
    assert fs[..i] == fs;
  }

  /** What `profile` reads: `freq1 = top_freqs[0]` stored in an `int`,
      `exec_count`, the summed frequencies and `num_zero_diff`. */
  datatype Numbers = Numbers(freq1: int, exec: int, top4: int, zeroDiff: int)

  function NumbersOf(info: Record): Numbers
  {
    Numbers(WrapI32(info.topFreqs[0]), info.execCount, TopSum(info.topFreqs), info.numZeroDiff)
  }

  // ---------------------------------------------------------------------
  // Classification

  /** The if/else-if chain of `profile` as written, over C's truncating
      `int` division. It divides by `exec_count`, so it is defined only
      when that is not zero. */
  function ClassifyAsWritten(n: Numbers, th: Thresholds): Category
    requires n.exec != 0
  {
    if TruncDiv(n.freq1, n.exec) > th.ssst then SSST
    else if TruncDiv(n.top4, n.exec) > th.pmst && TruncDiv(n.zeroDiff, n.exec) > th.pmstd then PMST
    else if TruncDiv(n.freq1, n.exec) > th.wsst && TruncDiv(n.zeroDiff, n.exec) > th.wsstd then WSST
    else NoCategory
  }

  /** The chain with the division guarded: a load whose profile recorded no
      stride goes into no set. */
  function Classify(n: Numbers, th: Thresholds): (c: Category)
    ensures n.exec == 0 ==> c == NoCategory
    ensures n.exec != 0 ==> c == ClassifyAsWritten(n, th)
  {
    if n.exec == 0 then NoCategory else ClassifyAsWritten(n, th)
  }

  lemma DivAtMostOne(a: int, b: int)
    requires 0 <= a <= b && 0 < b
    ensures a / b <= 1
  {
  }

  /** With a consistent profile (the top frequency and the sum of the top
      frequencies at most the number of recorded strides), every quotient
      the chain compares is at most 1, below each threshold of 10: no load
      is ever put in a set. */
  lemma NoSetForConsistentProfile(n: Numbers, th: Thresholds)
    requires th.ssst >= 1 && th.pmst >= 1 && th.wsst >= 1
    requires 0 <= n.freq1 <= n.exec && 0 <= n.top4 <= n.exec
    ensures Classify(n, th) == NoCategory
  {
    if n.exec != 0 {
      DivAtMostOne(n.freq1, n.exec);
      DivAtMostOne(n.top4, n.exec);
    }
  }

  /** The weak-single-stride test repeats the single-stride test on the
      same quotient; with a WSST threshold no lower than the SSST one (the
      header sets both to 10) it can never pass, and no load is ever put in
      the WSST set. */
  lemma NoWsstUnderHeader(n: Numbers, th: Thresholds)
    requires th.wsst >= th.ssst
    ensures Classify(n, th) != WSST
  {
  }

  /** `trip_count = (int) exec(block) / exec(preheader)`: the quotient is
      taken in floating point and truncated toward zero when stored, which
      for whole counts is the truncated integer quotient.  A missing count
      is -1. */
  function TripCount(count: int, pre: int): int
    requires pre != 0
  {
    TruncDiv(count, pre)
  }

  /** The whole decision of `profile` for one load: rejected when its block
      ran at most FT times or its trip count is at most TT, otherwise
      classified. */
  function Decide(count: int, pre: int, info: Record, th: Thresholds): (c: Category)
    requires pre != 0
    ensures c != NoCategory ==> count > FT && TripCount(count, pre) > TT
    ensures c != NoCategory ==> info.execCount != 0
  {
    if count <= FT then NoCategory
    else if TripCount(count, pre) <= TT then NoCategory
    else Classify(NumbersOf(info), th)
  }

  /** A missing count (-1, or any negative one) never places a load: a
      negative block count fails the FT guard, and a negative preheader
      count gives a trip count of at most 0, which fails the TT guard. */
  lemma MissingCountPlacesNothing(count: int, pre: int, info: Record, th: Thresholds)
    requires pre != 0 && (count < 0 || pre < 0)
    ensures count >= 0 ==> TripCount(count, pre) <= 0
    ensures Decide(count, pre, info, th) == NoCategory
  {
    if count >= 0 {
      var q := TripCount(count, pre);
      assert q * pre > pre;
      assert (q - 1) * pre > 0;
    }
  }

  /** The guards of `profile` let through a load whose profile recorded no
      stride: its block count and trip count pass, and the chain as written
      would then divide by a zero `exec_count`. */
  lemma ProfileDividesByZero()
    ensures var info := SLP.LoadInfo(0, 0, 0, 5, 0, [0, 0, 0, 0]);
      !(10001 <= FT) && !(TripCount(10001, 1) <= TT) && NumbersOf(info).exec == 0
  {
  }

  // ---------------------------------------------------------------------
  // The pass state and one call of `profile`

  /** The three load sets and the `trip_count` each visited load's profile
      record carries. */
  datatype Sets = Sets(ssst: set<int>, pmst: set<int>, wsst: set<int>, trip: map<int, int>)

  /** A load's profile record; the reader always fills four frequencies,
      and `profile` reads the first. */
  type Record = info: SLP.LoadInfo | |info.topFreqs| > 0 witness SLP.LoadInfo(0, 0, 0, 0, 0, [0])

  /** One load `loopOver` hands to `profile`, with its block's count and
      its profile record. */
  datatype Visit = Visit(load: int, count: int, info: Record)

  function Place(s: Sets, l: int, c: Category): Sets
  {
    match c
    case SSST => s.(ssst := s.ssst + {l})
    case PMST => s.(pmst := s.pmst + {l})
    case WSST => s.(wsst := s.wsst + {l})
    case NoCategory => s
  }

  /** `profile(I)`: the trip count is stored for every load, then the load
      is placed in the set it is classified into. */
  function ProfileStep(s: Sets, v: Visit, pre: int, th: Thresholds): Sets
    requires pre != 0
  {
    Place(s.(trip := s.trip[v.load := TripCount(v.count, pre)]), v.load, Decide(v.count, pre, v.info, th))
  }

  function ProfileAll(s: Sets, vs: seq<Visit>, pre: int, th: Thresholds): Sets
    requires pre != 0
  {
    if vs == [] then s
    else ProfileStep(ProfileAll(s, vs[..|vs| - 1], pre, th), vs[|vs| - 1], pre, th)
  }

  lemma {:induction false} ProfileAllAppend(s: Sets, a: seq<Visit>, b: seq<Visit>, pre: int, th: Thresholds)
    requires pre != 0
    ensures ProfileAll(s, a + b, pre, th) == ProfileAll(ProfileAll(s, a, pre, th), b, pre, th)
    decreases |b|
  {
    assert forall i :: 0 <= i < |a + b| ==> (a + b)[i] == if i < |a| then a[i] else b[i - |a|];
    if b == [] {
      assert a + b == a;
    } else {
      var p := b[..|b| - 1];
      assert (a + b)[..|a + b| - 1] == a + p;
      ProfileAllAppend(s, a, p, pre, th);
    }
  }

  /** The set a load is in, read with SSST first. */
  function Placed(s: Sets, l: int): Category
  {
    if l in s.ssst then SSST
    else if l in s.pmst then PMST
    else if l in s.wsst then WSST
    else NoCategory
  }

  ghost predicate Disjoint(s: Sets) {
    s.ssst !! s.pmst && s.ssst !! s.wsst && s.pmst !! s.wsst
  }

  /** Every load in a set has its trip count recorded, above TT. */
  ghost predicate Chosen(s: Sets) {
    forall l :: l in s.ssst + s.pmst + s.wsst ==> l in s.trip && s.trip[l] > TT
  }

  function LoadSet(vs: seq<Visit>): set<int>
  {
    set i | 0 <= i < |vs| :: vs[i].load
  }

  /** No load is visited twice: an instruction lives in one block and the
      dominator tree lists each block once. */
  ghost predicate Distinct(vs: seq<Visit>) {
    forall i, j :: 0 <= i < j < |vs| ==> vs[i].load != vs[j].load
  }

  function Empty(trip: map<int, int>): Sets
  {
    Sets({}, {}, {}, trip)
  }

  /** `r` is what profiling the loads `vs` from empty sets should leave:
      disjoint sets holding only visited loads, each visited load in exactly
      the set `Decide` chose for it and its trip count recorded. */
  ghost predicate SortedBy(r: Sets, vs: seq<Visit>, pre: int, th: Thresholds)
    requires pre != 0
  {
    Disjoint(r) && Chosen(r) && r.ssst + r.pmst + r.wsst <= LoadSet(vs) &&
    forall i :: 0 <= i < |vs| ==>
      Placed(r, vs[i].load) == Decide(vs[i].count, pre, vs[i].info, th) &&
      vs[i].load in r.trip && r.trip[vs[i].load] == TripCount(vs[i].count, pre)
  }

  /** One more `profile` call, on a load not seen before, keeps `SortedBy`. */
  lemma SortedStep(q: Sets, p: seq<Visit>, x: Visit, pre: int, th: Thresholds)
    requires pre != 0 && SortedBy(q, p, pre, th) && x.load !in LoadSet(p)
    ensures SortedBy(ProfileStep(q, x, pre, th), p + [x], pre, th)
  {
    var r := ProfileStep(q, x, pre, th);
    var vs := p + [x];
    assert LoadSet(vs) == LoadSet(p) + {x.load} by {
      forall l | l in LoadSet(vs) ensures l in LoadSet(p) + {x.load} {
        var i :| 0 <= i < |vs| && vs[i].load == l;
        if i < |p| { assert p[i].load == l; }
      }
      forall l | l in LoadSet(p) ensures l in LoadSet(vs) {
        var i :| 0 <= i < |p| && p[i].load == l;
        assert vs[i].load == l;
      }
      assert vs[|p|].load == x.load;
    }
    forall i | 0 <= i < |vs|
      ensures Placed(r, vs[i].load) == Decide(vs[i].count, pre, vs[i].info, th)
      ensures vs[i].load in r.trip && r.trip[vs[i].load] == TripCount(vs[i].count, pre)
    {
      if i < |p| {
        assert vs[i] == p[i];
        assert p[i].load in LoadSet(p);
      }
    }
  }

  /** Starting from empty sets, a run of `profile` over distinct loads
      leaves the sets pairwise disjoint, holding only visited loads, each
      in exactly the set `Decide` chose for it, and records every visited
      load's trip count, rejected or not. */
  lemma {:induction false} ProfileAllSorts(trip: map<int, int>, vs: seq<Visit>, pre: int, th: Thresholds)
    requires pre != 0 && Distinct(vs)
    ensures SortedBy(ProfileAll(Empty(trip), vs, pre, th), vs, pre, th)
  {
    if vs != [] {
      var p := vs[..|vs| - 1];
      var x := vs[|vs| - 1];
      assert Distinct(p);
      ProfileAllSorts(trip, p, pre, th);
      assert x.load !in LoadSet(p);
      SortedStep(ProfileAll(Empty(trip), p, pre, th), p, x, pre, th);
      assert vs == p + [x];
    }
  }

  // ---------------------------------------------------------------------
  // The loop walk

  datatype Block = Block(id: int, count: int, insts: seq<SLP.Inst>)

  /** A node of the dominator tree. */
  datatype DomNode = DomNode(block: Block, children: seq<DomNode>)

  /** The current loop: the blocks it contains, the blocks whose innermost
      loop it is (the others are inside a sub-loop), and the execution
      count of its preheader. */
  datatype LoopView = LoopView(blocks: set<int>, own: set<int>, preheaderCount: int)

  /** The blocks `loopOver` scans under `n`, in the order it scans them: a
      preorder walk of the dominator tree that stops at blocks outside the
      loop and skips the blocks of sub-loops. */
  function Walk(n: DomNode, lv: LoopView): seq<Block>
    decreases n, |n.children| + 1
  {
    if n.block.id !in lv.blocks then []
    else Head(n, lv) + WalkChildren(n, |n.children|, lv)
  }

  /** The node's own block, when it is scanned. */
  function Head(n: DomNode, lv: LoopView): seq<Block>
  {
    if n.block.id in lv.own then [n.block] else []
  }

  function WalkChildren(n: DomNode, k: nat, lv: LoopView): seq<Block>
    requires k <= |n.children|
    decreases n, k
  {
    if k == 0 then [] else WalkChildren(n, k - 1, lv) + Walk(n.children[k - 1], lv)
  }

  /** Every block the walk scans is in the loop and not in a sub-loop. */
  lemma {:induction false} WalkStaysInLoop(n: DomNode, lv: LoopView)
    ensures forall b :: b in Walk(n, lv) ==> b.id in lv.blocks && b.id in lv.own
    decreases n, |n.children| + 1
  {
    if n.block.id in lv.blocks {
      WalkChildrenStayInLoop(n, |n.children|, lv);
    }
  }

  lemma {:induction false} WalkChildrenStayInLoop(n: DomNode, k: nat, lv: LoopView)
    requires k <= |n.children|
    ensures forall b :: b in WalkChildren(n, k, lv) ==> b.id in lv.blocks && b.id in lv.own
    decreases n, k
  {
    if k > 0 {
      WalkChildrenStayInLoop(n, k - 1, lv);
      WalkStaysInLoop(n.children[k - 1], lv);
    }
  }

  /** The loads of `insts` that have a profile record, in order. */
  function VisitsIn(insts: seq<SLP.Inst>, count: int, infos: map<int, Record>): seq<Visit>
  {
    if insts == [] then []
    else
      var x := insts[|insts| - 1];
      VisitsIn(insts[..|insts| - 1], count, infos) +
        (if x.kind == SLP.Load && x.ref in infos then [Visit(x.ref, count, infos[x.ref])] else [])
  }

  /** The loads `profile` is called on when `loopOver` scans `bs`. */
  function LoadsOf(bs: seq<Block>, infos: map<int, Record>): seq<Visit>
  {
    if bs == [] then []
    else LoadsOf(bs[..|bs| - 1], infos) + VisitsIn(bs[|bs| - 1].insts, bs[|bs| - 1].count, infos)
  }

  lemma {:induction false} LoadsOfAppend(a: seq<Block>, b: seq<Block>, infos: map<int, Record>)
    ensures LoadsOf(a + b, infos) == LoadsOf(a, infos) + LoadsOf(b, infos)
    decreases |b|
  {
    if b == [] {
      assert a + b == a;
    } else {
      var p := b[..|b| - 1];
      assert (a + b)[..|a + b| - 1] == a + p;
      assert (a + b)[|a + b| - 1] == b[|b| - 1];
      LoadsOfAppend(a, p, infos);
    }
  }

  /** The loads of the node's own block, when it is scanned. */
  lemma HeadLoads(n: DomNode, lv: LoopView, infos: map<int, Record>)
    ensures LoadsOf(Head(n, lv), infos)
         == if n.block.id in lv.own then VisitsIn(n.block.insts, n.block.count, infos) else []
  {
    if n.block.id in lv.own {
      assert LoadsOf([n.block], infos) == LoadsOf([], infos) + VisitsIn(n.block.insts, n.block.count, infos);
      assert [] + VisitsIn(n.block.insts, n.block.count, infos) == VisitsIn(n.block.insts, n.block.count, infos);
    }
  }

  /** The sets `loopOver(n)` leaves, from `s`: unchanged outside the loop;
      otherwise the node's own loads, then the walk below each child in
      turn. */
  function NodeProfiled(s: Sets, n: DomNode, lv: LoopView, infos: map<int, Record>, th: Thresholds): Sets
    requires lv.preheaderCount != 0
    decreases n, |n.children| + 1
  {
    if n.block.id !in lv.blocks then s
    else ChildrenProfiled(ProfileAll(s, LoadsOf(Head(n, lv), infos), lv.preheaderCount, th),
                          n, |n.children|, lv, infos, th)
  }

  /** The sets after the walks below the first `i` children of `n`. */
  function ChildrenProfiled(s: Sets, n: DomNode, i: nat, lv: LoopView, infos: map<int, Record>,
                            th: Thresholds): Sets
    requires i <= |n.children| && lv.preheaderCount != 0
    decreases n, i
  {
    if i == 0 then s
    else NodeProfiled(ChildrenProfiled(s, n, i - 1, lv, infos, th), n.children[i - 1], lv, infos, th)
  }

  /** Profiling the loads of two walks one after the other is profiling
      the loads of the joined walk. */
  lemma ProfileLoadsAppend(s: Sets, a: seq<Block>, b: seq<Block>, infos: map<int, Record>, pre: int,
                           th: Thresholds)
    requires pre != 0
    ensures ProfileAll(ProfileAll(s, LoadsOf(a, infos), pre, th), LoadsOf(b, infos), pre, th)
         == ProfileAll(s, LoadsOf(a + b, infos), pre, th)
  {
    LoadsOfAppend(a, b, infos);
    ProfileAllAppend(s, LoadsOf(a, infos), LoadsOf(b, infos), pre, th);
  }

  /** Walking node by node profiles the loads of the whole walk, in order. */
  lemma {:induction false} NodeProfiledIsWalk(s: Sets, n: DomNode, lv: LoopView, infos: map<int, Record>,
                                              th: Thresholds)
    requires lv.preheaderCount != 0
    ensures NodeProfiled(s, n, lv, infos, th) == ProfileAll(s, LoadsOf(Walk(n, lv), infos), lv.preheaderCount, th)
    decreases n, |n.children| + 1
  {
    if n.block.id in lv.blocks {
      var s1 := ProfileAll(s, LoadsOf(Head(n, lv), infos), lv.preheaderCount, th);
      ChildrenProfiledIsWalk(s1, n, |n.children|, lv, infos, th);
      ProfileLoadsAppend(s, Head(n, lv), WalkChildren(n, |n.children|, lv), infos, lv.preheaderCount, th);
    } else {
      assert LoadsOf(Walk(n, lv), infos) == [];
    }
  }

  lemma {:induction false} ChildrenProfiledIsWalk(s: Sets, n: DomNode, i: nat, lv: LoopView,
                                                  infos: map<int, Record>, th: Thresholds)
    requires i <= |n.children| && lv.preheaderCount != 0
    ensures ChildrenProfiled(s, n, i, lv, infos, th) ==
      ProfileAll(s, LoadsOf(WalkChildren(n, i, lv), infos), lv.preheaderCount, th)
    decreases n, i
  {
    if i == 0 {
      assert LoadsOf(WalkChildren(n, 0, lv), infos) == [];
    } else {
      ChildrenProfiledIsWalk(s, n, i - 1, lv, infos, th);
      var done := ChildrenProfiled(s, n, i - 1, lv, infos, th);
      NodeProfiledIsWalk(done, n.children[i - 1], lv, infos, th);
      ProfileLoadsAppend(s, WalkChildren(n, i - 1, lv), Walk(n.children[i - 1], lv), infos, lv.preheaderCount, th);
    }
  }

  /** Every visit is a load instruction of its block that has a profile
      record, carried with that record and that block's count. */
  lemma {:induction false} VisitsInAreLoads(insts: seq<SLP.Inst>, count: int, infos: map<int, Record>)
    ensures forall v :: v in VisitsIn(insts, count, infos) ==>
      SLP.Inst(v.load, SLP.Load) in insts && v.load in infos && v.info == infos[v.load] && v.count == count
  {
    if insts != [] {
      VisitsInAreLoads(insts[..|insts| - 1], count, infos);
    }
  }

  lemma {:induction false} LoadsOfAreLoads(bs: seq<Block>, infos: map<int, Record>)
    ensures forall v :: v in LoadsOf(bs, infos) ==>
      v.load in infos && v.info == infos[v.load] &&
      exists b :: b in bs && SLP.Inst(v.load, SLP.Load) in b.insts && v.count == b.count
  {
    if bs != [] {
      var p := bs[..|bs| - 1];
      var last := bs[|bs| - 1];
      LoadsOfAreLoads(p, infos);
      VisitsInAreLoads(last.insts, last.count, infos);
      forall v | v in LoadsOf(bs, infos)
        ensures exists b :: b in bs && SLP.Inst(v.load, SLP.Load) in b.insts && v.count == b.count
      {
        if v in LoadsOf(p, infos) {
          var b :| b in p && SLP.Inst(v.load, SLP.Load) in b.insts && v.count == b.count;
          assert b in bs;
        } else {
          assert last in bs;
        }
      }
    }
  }

  // ---------------------------------------------------------------------
  // Prefetch distance and the emitted address arithmetic

  /** `K = min((double) trip_count / TT, MAXPREFETCHDISTANCE)` */
  function Distance(trip: int): real
  {
    var k := trip as real / TT as real;
    if (MAX_PREFETCH_DISTANCE as real) < k then MAX_PREFETCH_DISTANCE as real else k
  }

  /** For a load in a set (trip count above TT), the truncated distance is
      `min(trip_count / TT, 8)`, between 1 and MAXPREFETCHDISTANCE. */
  lemma DistanceTrunc(trip: int)
    requires trip > TT
    ensures Distance(trip).Floor == if trip / TT < MAX_PREFETCH_DISTANCE then trip / TT else MAX_PREFETCH_DISTANCE
    ensures 1 <= Distance(trip).Floor <= MAX_PREFETCH_DISTANCE
  {
    var q, m := trip / TT, trip % TT;
    assert trip as real / TT as real == q as real + m as real / TT as real;
  }

  /** The exponent of the least power of two at least `k`. */
  function CeilLog2(k: nat): (e: nat)
    ensures k <= Pow2(e)
    ensures e == 0 || Pow2(e - 1) < k
  {
    if k <= 1 then 0 else 1 + CeilLog2((k + 1) / 2)
  }

  /** Only one exponent has the property `CeilLog2` promises. */
  lemma CeilLog2Unique(k: nat, e: nat)
    requires k <= Pow2(e) && (e == 0 || Pow2(e - 1) < k)
    ensures e == CeilLog2(k)
  {
    var c := CeilLog2(k);
    if e < c {
      Pow2Monotone(e, c - 1);
    } else if c < e {
      Pow2Monotone(c, e - 1);
    }
  }

  /** `log2` on an exact power of two. */
  function Log2(r: bv32): bv32
    decreases r
  {
    if r <= 1 then 0 else 1 + Log2(r >> 1)
  }

  lemma {:induction false} Log2Exact(r: bv32)
    requires r != 0 && r & (r - 1) == 0
    ensures Log2(r) < 32 && (1 as bv32) << Log2(r) == r
    decreases r
  {
    if r > 1 {
      var h := r >> 1;
      assert h != 0 && h & (h - 1) == 0;
      Log2Exact(h);
      assert h << 1 == r;
    }
  }

  /** `e` is the exponent of the least power of two at least `k`, in
      32-bit unsigned arithmetic. */
  ghost predicate IsCeilExp(k: bv32, e: bv32) {
    e < 32 && k <= (1 as bv32) << e && (e == 0 || ((1 as bv32) << (e - 1)) < k)
  }

  /** The exponent of a power of two `r` with `r / 2 < k <= r`. */
  lemma ExponentOfPower(k: bv32, r: bv32)
    requires r != 0 && r & (r - 1) == 0 && k <= r && (r >> 1) < k
    ensures IsCeilExp(k, Log2(r))
  {
    Log2Exact(r);
    var e := Log2(r);
    if e > 0 {
      assert (1 as bv32) << (e - 1) == r >> 1;
    }
  }

  /** The rounding in `insertPrefetch`: `newK = (unsigned) K`, decrement,
      smear the highest set bit into every lower bit, increment: the least
      power of two at least `k`. */
  method RoundUpPow2(k: bv32) returns (newK: bv32)
    requires 1 <= k <= 0x8000_0000
    ensures newK != 0 && newK & (newK - 1) == 0
    ensures k <= newK && (newK >> 1) < k
  {
    newK := k;
    newK := newK - 1;
    newK := newK | (newK >> 1);
    newK := newK | (newK >> 2);
    newK := newK | (newK >> 4);
    newK := newK | (newK >> 8);
    newK := newK | (newK >> 16);
    newK := newK + 1;
  }

  /** `newK = (unsigned) log2(newK)` after the rounding: the amount the
      run-time stride is shifted left by. */
  method RoundUpExponent(k: bv32) returns (newK: bv32)
    requires 1 <= k <= 0x8000_0000
    ensures IsCeilExp(k, newK)
  {
    newK := RoundUpPow2(k);
    ExponentOfPower(k, newK);
    newK := Log2(newK);
  }

  /** For the distances the pass uses (1 to 8), the shift the bit trick
      yields is `CeilLog2` of the distance. */
  lemma ShiftIsCeilLog2(k: nat, e: bv32)
    requires 1 <= k <= MAX_PREFETCH_DISTANCE && IsCeilExp(k as bv32, e)
    ensures e as int == CeilLog2(k)
  {
    if k == 1 {
      assert e == 0;
    } else if k == 2 {
      assert e == 1;
    } else if k <= 4 {
      assert e == 2;
    } else {
      assert e == 3;
    }
  }

  /** The SSST prefetch address: the load address truncated to 32 bits
      plus the constant `(int) K * S`, added in 32 bits. */
  function SsstTarget(addr: int, offset: int): int
  {
    WrapU32(WrapU32(addr) + offset)
  }

  /** When the address and the sum fit in 32 bits, the SSST prefetch
      address is exactly the load address plus K times the dominant
      stride. */
  lemma SsstTargetIsKS(addr: int, k: int, s: int)
    requires IsU32(addr) && IsU32(addr + k * s)
    ensures SsstTarget(addr, WrapI32(k * s)) == addr + k * s
  {
    var x := k * s;
    var j := x / TWO_32;
    assert WrapU32(x) == x - TWO_32 * j;
    var w := WrapI32(x);
    assert w == x - TWO_32 * j || w == x - TWO_32 * j - TWO_32;
    var t := addr + x;
    assert t % TWO_32 == t;
    assert (t - TWO_32 * j) % TWO_32 == t;
    assert (t - TWO_32 * j - TWO_32) % TWO_32 == t;
  }

  // ---------------------------------------------------------------------
  // insertLoad

  /** What `insertLoad` emits for one load, by the set it checks first. */
  datatype Prefetch =
    | SsstPrefetch(load: int, offset: int)  // prefetch(addr + (int) K * S)
    | PmstPrefetch(load: int, shift: nat)   // `scratchAndSub` allocas a scratch slot, and the
                                            // "stride" is addr minus the slot's address;
                                            // prefetch(addr + (stride << shift)); its store
                                            // has value and address swapped, writing the
                                            // slot's address through the load's, and is not
                                            // well-typed IR; no load reaches this set under
                                            // a consistent profile (NoSetForConsistentProfile)
    | WsstPrefetch(load: int, shift: nat)   // the same, behind the weak-stride check
    | NoPrefetch(load: int)

  /** `insertLoad(I)`: K from the load's trip count, then PMST before SSST
      before WSST. */
  function InsertLoad(l: int, s: Sets, info: SLP.LoadInfo): Prefetch
    requires l in s.trip && s.trip[l] > TT
  {
    DistanceTrunc(s.trip[l]);
    var k := Distance(s.trip[l]).Floor;
    if l in s.pmst then PmstPrefetch(l, CeilLog2(k))
    else if l in s.ssst then SsstPrefetch(l, WrapI32(k * info.dominantStride))
    else if l in s.wsst then WsstPrefetch(l, CeilLog2(k))
    else NoPrefetch(l)
  }

  /** With disjoint sets, the dispatch order does not matter: each load in
      a set gets that set's prefetch, and with K at most 8 the shift is at
      most 3. */
  lemma InsertLoadFollowsSet(l: int, s: Sets, info: SLP.LoadInfo)
    requires Disjoint(s) && Chosen(s) && l in s.ssst + s.pmst + s.wsst
    ensures var k := Distance(s.trip[l]).Floor;
      1 <= k <= MAX_PREFETCH_DISTANCE &&
      match InsertLoad(l, s, info)
      case SsstPrefetch(x, off) => l in s.ssst && x == l && off == WrapI32(k * info.dominantStride)
      case PmstPrefetch(x, e) => l in s.pmst && x == l && e == CeilLog2(k) && e <= 3
      case WsstPrefetch(x, e) => l in s.wsst && x == l && e == CeilLog2(k) && e <= 3
      case NoPrefetch(_) => false
  {
    DistanceTrunc(s.trip[l]);
    var k := Distance(s.trip[l]).Floor;
    if CeilLog2(k) > 3 {
      Pow2Monotone(3, CeilLog2(k) - 1);
    }
  }

  /** The prefetches `runOnLoop` emits for the three sets. */
  function Plans(s: Sets, infos: map<int, Record>): set<Prefetch>
    requires Chosen(s) && s.ssst + s.pmst + s.wsst <= infos.Keys
  {
    set l | l in s.ssst + s.pmst + s.wsst :: InsertLoad(l, s, infos[l])
  }

  // ---------------------------------------------------------------------
  // The pass

  class StridePrefetch {
    var ssst: set<int>
    var pmst: set<int>
    var wsst: set<int>
    /** The `trip_count` field of each load's profile record. */
    var trip: map<int, int>

    function Abs(): Sets
      reads this
    {
      Sets(ssst, pmst, wsst, trip)
    }

    constructor ()
      ensures Abs() == Empty(map[])
    {
      ssst, pmst, wsst, trip := {}, {}, {}, map[];
    }

    /** `profile(I)` */
    method Profile(v: Visit, pre: int, th: Thresholds)
      requires pre != 0
      modifies this
      ensures Abs() == ProfileStep(old(Abs()), v, pre, th)
    {
      ghost var s1 := Abs().(trip := trip[v.load := TripCount(v.count, pre)]);
      trip := trip[v.load := TruncDiv(v.count, pre)];
      if v.count <= FT {
        return;
      }
      if trip[v.load] <= TT {
        return;
      }
      var freq1 := WrapI32(v.info.topFreqs[0]);
      var exec := v.info.execCount;
      var top4 := SumTopFreqs(v.info.topFreqs);
      var zeroDiff := v.info.numZeroDiff;
      if exec == 0 {
        return;
      }
      assert Decide(v.count, pre, v.info, th) == ClassifyAsWritten(Numbers(freq1, exec, top4, zeroDiff), th);
      if TruncDiv(freq1, exec) > th.ssst {
        ssst := ssst + {v.load};
      } else if TruncDiv(top4, exec) > th.pmst && TruncDiv(zeroDiff, exec) > th.pmstd {
        pmst := pmst + {v.load};
      } else if TruncDiv(freq1, exec) > th.wsst && TruncDiv(zeroDiff, exec) > th.wsstd {
        wsst := wsst + {v.load};
      }
    }

    /** The instruction loop of `loopOver` over one block. */
    method ProfileBlock(b: Block, infos: map<int, Record>, pre: int, th: Thresholds)
      requires pre != 0
      modifies this
      ensures Abs() == ProfileAll(old(Abs()), VisitsIn(b.insts, b.count, infos), pre, th)
    {
      ghost var s0 := Abs();
      var i := 0;
      while i < |b.insts|
        invariant 0 <= i <= |b.insts|
        invariant Abs() == ProfileAll(s0, VisitsIn(b.insts[..i], b.count, infos), pre, th)
      {
        var x := b.insts[i];
        ghost var done := VisitsIn(b.insts[..i], b.count, infos);
        assert b.insts[..i + 1][..i] == b.insts[..i];
        assert b.insts[..i + 1][i] == x;
        if x.kind == SLP.Load && x.ref in infos {
          var v := Visit(x.ref, b.count, infos[x.ref]);
          assert VisitsIn(b.insts[..i + 1], b.count, infos) == done + [v];
          assert (done + [v])[..|done|] == done;
          Profile(v, pre, th);
        } else {
          assert VisitsIn(b.insts[..i + 1], b.count, infos) == done + [];
          assert done + [] == done;
        }
        i := i + 1;
      }
      assert b.insts[..i] == b.insts;
    }

    /** `loopOver(N)`: scan the block if it is in the loop and not in a
        sub-loop, then recurse into the dominator-tree children; a block
        outside the loop ends the walk below it. */
    method LoopOver(n: DomNode, lv: LoopView, infos: map<int, Record>, th: Thresholds)
      requires lv.preheaderCount != 0
      modifies this
      ensures Abs() == NodeProfiled(old(Abs()), n, lv, infos, th)
      decreases n, |n.children| + 1
    {
      if n.block.id !in lv.blocks {
        return;
      }
      if n.block.id in lv.own {
        ProfileBlock(n.block, infos, lv.preheaderCount, th);
      }
      HeadLoads(n, lv, infos);
      VisitChildren(n, lv, infos, th);
    }

    /** The loop of `loopOver(N)` over `N`'s dominator-tree children. */
    method VisitChildren(n: DomNode, lv: LoopView, infos: map<int, Record>, th: Thresholds)
      requires lv.preheaderCount != 0
      modifies this
      ensures Abs() == ChildrenProfiled(old(Abs()), n, |n.children|, lv, infos, th)
      decreases n, 0
    {
      ghost var s0 := Abs();
      var i := 0;
      while i < |n.children|
        invariant 0 <= i <= |n.children|
        invariant Abs() == ChildrenProfiled(s0, n, i, lv, infos, th)
      {
        LoopOver(n.children[i], lv, infos, th);
        i := i + 1;
      }
    }

    /** `runOnLoop(L)`: empty the three sets, walk the loop from its
        header, then emit a prefetch for each load in a set. */
    method RunOnLoop(header: DomNode, lv: LoopView, infos: map<int, Record>, th: Thresholds)
      returns (plans: set<Prefetch>)
      requires lv.preheaderCount != 0
      requires Distinct(LoadsOf(Walk(header, lv), infos))
      modifies this
      ensures Abs() == ProfileAll(Empty(old(trip)), LoadsOf(Walk(header, lv), infos), lv.preheaderCount, th)
      ensures Disjoint(Abs()) && Chosen(Abs()) && ssst + pmst + wsst <= infos.Keys
      ensures plans == Plans(Abs(), infos)
    {
      ssst, pmst, wsst := {}, {}, {};
      LoopOver(header, lv, infos, th);
      NodeProfiledIsWalk(Empty(old(trip)), header, lv, infos, th);
      ghost var vs := LoadsOf(Walk(header, lv), infos);
      ProfileAllSorts(old(trip), vs, lv.preheaderCount, th);
      LoadsOfAreLoads(Walk(header, lv), infos);
      forall l | l in ssst + pmst + wsst ensures l in infos {
        var i :| 0 <= i < |vs| && vs[i].load == l;
        assert vs[i] in vs;
      }
      plans := set l | l in ssst + pmst + wsst :: InsertLoad(l, Abs(), infos[l]);
    }
  }
}
