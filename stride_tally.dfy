/** What every LoadStride variant keeps about a stream of recorded values
    (strides, or differences of consecutive strides): the values in order,
    the value-to-count map, the top table, and for strides the dominant
    `topStrideHolder`.  The variants differ only in which values they
    record; the bookkeeping of one recorded value is the same in all three. */
module StrideTally {
  import opened Common
  import opened TopTable

  /** `isSameValue`: `value1 >> 4 == value2 >> 4` on signed `long`s; an
      arithmetic shift right by 4 is the floor of the quotient by 16, which
      is what Dafny's `/` computes for a positive divisor. */
  function IsSameValue(value1: int, value2: int): bool
  {
    value1 / 16 == value2 / 16
  }

  /** Two addresses are "the same value" exactly when they lie in the same
      16-byte-aligned block, so they are less than 16 apart. */
  lemma SameValueIsSameBlock(a: int, b: int)
    ensures IsSameValue(a, b) <==> a - a % 16 == b - b % 16
    ensures IsSameValue(a, b) ==> -16 < a - b < 16
    ensures a == b ==> IsSameValue(a, b)
  {
    assert a == 16 * (a / 16) + a % 16;
    assert b == 16 * (b / 16) + b % 16;
  }

  /** `long stride = addr - last_address` with both operands `uint64_t`: the
      wrapped unsigned difference read as a `long`. */
  function StrideOf(addr: int, last: int): (stride: int)
    requires IsU64(addr) && IsU64(last)
    ensures IsI64(stride)
    ensures stride == 0 <==> addr == last
  {
    ToSigned64(WrapU64(addr - last))
  }

  /** Adding the stride back to the previous address, modulo 2^64, gives the
      new address: the stride loses nothing. */
  lemma StrideRoundTrip(addr: int, last: int)
    requires IsU64(addr) && IsU64(last)
    ensures WrapU64(last + StrideOf(addr, last)) == addr
  {
    var d := WrapU64(addr - last);
    assert (StrideOf(addr, last) - d) % TWO_64 == 0;
    assert (last + d) % TWO_64 == addr;
  }

  /** A `vector<long>` of recorded values, its `map<long, long>` of counts and its top table. */
  datatype Tally = Tally(values: seq<int>, counts: map<int, int>, top: seq<Entry>)

  const EmptyTally: Tally := Tally([], map[], [])

  /** The holder before any stride is recorded: `make_pair(-1, -1)`. */
  const NoHolder: Entry := Entry(-1, -1)

  /** `if (m.count(v)) m[v]++; else m[v] = 1;` */
  function Bump(m: map<int, int>, v: int): map<int, int>
  {
    m[v := if v in m then m[v] + 1 else 1]
  }

  /** Records `v`: appends it, counts it, and refreshes the top table with
      its new count; `skipZero` is the `value == 0` early return of the
      trunk variants, which keep 0 out of the stride table. */
  function Add(t: Tally, v: int, skipZero: bool): Tally
  {
    var counts := Bump(t.counts, v);
    Tally(t.values + [v], counts, TopAfter(t.top, counts, v, skipZero))
  }

  /** The holder update at the top of `updateTopStrideValues`: it moves only
      on a count strictly greater than the one it holds. */
  function Promote(h: Entry, v: int, c: int): Entry
  {
    if c > h.count then Entry(v, c) else h
  }

  /** The distinct values of `s`, in order of first occurrence. */
  function Distinct(s: seq<int>): (d: seq<int>)
    ensures forall v :: v in d <==> v in s
    ensures forall i, j :: 0 <= i < j < |d| ==> d[i] != d[j]
  {
    if s == [] then []
    else
      var p := Distinct(s[..|s| - 1]);
      if s[|s| - 1] in p then p else p + [s[|s| - 1]]
  }

  /** The sum of `m[k]` over the keys `ks`. */
  function SumAt(m: map<int, int>, ks: seq<int>): int
    requires forall i :: 0 <= i < |ks| ==> ks[i] in m
  {
    if ks == [] then 0 else SumAt(m, ks[..|ks| - 1]) + m[ks[|ks| - 1]]
  }

  /** The count map holds, for every recorded value, how often it was
      recorded, and nothing else: it has one key per distinct value and its
      counts add up to the number of recorded values. */
  ghost predicate CountsMatch(values: seq<int>, counts: map<int, int>) {
    (forall v :: v in counts <==> v in values) &&
    (forall v :: v in counts ==> counts[v] == Count(values, v)) &&
    |counts| == |Distinct(values)| &&
    SumAt(counts, Distinct(values)) == |values|
  }

  ghost predicate Consistent(t: Tally, skipZero: bool) {
    CountsMatch(t.values, t.counts) && TopTable.Valid(t.top) && CountsAgree(t.top, t.counts) &&
    (skipZero ==> !HasKey(t.top, 0))
  }

  /** The holder a stream of strides leaves behind: each recorded stride is
      offered with its count so far. */
  ghost function HolderOf(s: seq<int>): Entry
  {
    if s == [] then NoHolder
    else Promote(HolderOf(s[..|s| - 1]), s[|s| - 1], Count(s, s[|s| - 1]))
  }

  /** The differences of consecutive values: one per value after the first. */
  function Diffs(s: seq<int>): (d: seq<int>)
    ensures |d| == if |s| < 2 then 0 else |s| - 1
  {
    if |s| < 2 then [] else [WrapI64(s[1] - s[0])] + Diffs(s[1..])
  }

  /** The `i`-th difference is the wrapped `long` difference of values `i + 1` and `i`. */
  lemma {:induction false} DiffsAt(s: seq<int>, i: nat)
    requires i + 1 < |s|
    ensures Diffs(s)[i] == WrapI64(s[i + 1] - s[i])
  {
    if i > 0 {
      DiffsAt(s[1..], i - 1);
    }
  }

  /** Number of positions where a value repeats the one before it. */
  function Repeats(s: seq<int>): nat
  {
    if |s| < 2 then 0
    else Repeats(s[..|s| - 1]) + (if s[|s| - 1] == s[|s| - 2] then 1 else 0)
  }

  ghost predicate AllI64(s: seq<int>) {
    forall i :: 0 <= i < |s| ==> IsI64(s[i])
  }

  lemma AllI64Snoc(s: seq<int>, v: int)
    requires AllI64(s) && IsI64(v)
    ensures AllI64(s + [v])
  {
    forall i | 0 <= i < |s + [v]| ensures IsI64((s + [v])[i]) {
      if i < |s| {
        assert (s + [v])[i] == s[i];
      }
    }
  }

  lemma DistinctSnoc(s: seq<int>, v: int)
    ensures Distinct(s + [v]) == if v in s then Distinct(s) else Distinct(s) + [v]
  {
    assert (s + [v])[..|s|] == s;
  }

  lemma {:induction false} SumAtBump(m: map<int, int>, ks: seq<int>, v: int)
    requires forall i :: 0 <= i < |ks| ==> ks[i] in m
    requires forall i, j :: 0 <= i < j < |ks| ==> ks[i] != ks[j]
    ensures SumAt(Bump(m, v), ks) == SumAt(m, ks) + (if v in ks then 1 else 0)
  {
    if ks != [] {
      var p := ks[..|ks| - 1];
      SumAtBump(m, p, v);
      assert ks == p + [ks[|ks| - 1]];
    }
  }

  lemma EmptyTallyInv(skipZero: bool)
    ensures Consistent(EmptyTally, skipZero)
  {
  }

  /** Recording a value counts it exactly once, so the map keeps matching
      the recorded values and its counts keep adding up to their number. */
  lemma BumpKeepsMembership(values: seq<int>, counts: map<int, int>, v: int)
    requires forall w :: w in counts <==> w in values
    ensures forall w :: w in Bump(counts, v) <==> w in values + [v]
  {
  }

  lemma BumpKeepsCounts(values: seq<int>, counts: map<int, int>, v: int)
    requires forall w :: w in counts <==> w in values
    requires forall w :: w in counts ==> counts[w] == Count(values, w)
    ensures forall w :: w in Bump(counts, v) ==> Bump(counts, v)[w] == Count(values + [v], w)
  {
    forall w | w in Bump(counts, v) ensures Bump(counts, v)[w] == Count(values + [v], w) {
      CountSnoc(values, v, w);
      CountPositive(values, w);
    }
  }

  lemma BumpKeepsSum(values: seq<int>, counts: map<int, int>, v: int)
    requires forall w :: w in counts <==> w in values
    requires |counts| == |Distinct(values)| && SumAt(counts, Distinct(values)) == |values|
    ensures |Bump(counts, v)| == |Distinct(values + [v])|
    ensures SumAt(Bump(counts, v), Distinct(values + [v])) == |values + [v]|
  {
    DistinctSnoc(values, v);
    var d := Distinct(values);
    SumAtBump(counts, d, v);
    if v !in values {
      assert Distinct(values + [v]) == d + [v];
      assert (d + [v])[..|d|] == d;
    }
  }

  lemma AddKeepsCounts(values: seq<int>, counts: map<int, int>, v: int)
    requires CountsMatch(values, counts)
    ensures CountsMatch(values + [v], Bump(counts, v))
  {
    BumpKeepsMembership(values, counts, v);
    BumpKeepsCounts(values, counts, v);
    BumpKeepsSum(values, counts, v);
  }

  /** The top table after a value is counted in `counts`. */
  function TopAfter(top: seq<Entry>, counts: map<int, int>, v: int, skipZero: bool): seq<Entry>
    requires v in counts
  {
    if skipZero && v == 0 then top else TopInsert(top, v, counts[v])
  }

  lemma TopAfterKeepsTable(top: seq<Entry>, counts: map<int, int>, v: int, skipZero: bool)
    requires TopTable.Valid(top) && CountsAgree(top, counts)
    requires skipZero ==> !HasKey(top, 0)
    ensures TopTable.Valid(TopAfter(top, Bump(counts, v), v, skipZero))
    ensures CountsAgree(TopAfter(top, Bump(counts, v), v, skipZero), Bump(counts, v))
    ensures skipZero ==> !HasKey(TopAfter(top, Bump(counts, v), v, skipZero), 0)
  {
    var b := Bump(counts, v);
    if skipZero && v == 0 {
      assert CountsAgree(top, b);
    } else {
      TopInsertValid(top, v, b[v]);
      TopInsertCountsAgree(top, counts, v, b[v]);
      if skipZero {
        TopInsertAvoids(top, v, b[v], 0);
      }
    }
  }

  /** Recording a value keeps the count map exact and the table bounded,
      distinct, current and (where required) free of 0. */
  lemma AddPreservesInv(t: Tally, v: int, skipZero: bool)
    requires Consistent(t, skipZero)
    ensures Consistent(Add(t, v, skipZero), skipZero)
  {
    AddKeepsCounts(t.values, t.counts, v);
    TopAfterKeepsTable(t.top, t.counts, v, skipZero);
    assert Add(t, v, skipZero) ==
           Tally(t.values + [v], Bump(t.counts, v), TopAfter(t.top, Bump(t.counts, v), v, skipZero));
  }

  /** The holder is (-1, -1) until a stride is recorded; afterwards it is a
      recorded stride with its current count, and no stride has been
      recorded more often. */
  lemma {:induction false} HolderIsMaximum(s: seq<int>)
    ensures s == [] ==> HolderOf(s) == NoHolder
    ensures s != [] ==> HolderOf(s).key in s && HolderOf(s).count == Count(s, HolderOf(s).key)
    ensures s != [] ==> forall w :: Count(s, w) <= HolderOf(s).count
  {
    if s != [] {
      HolderIsMaximum(s[..|s| - 1]);
      HolderMaximumStep(s[..|s| - 1], s[|s| - 1], s);
    }
  }

  /** One step of `HolderIsMaximum`: the maximum survives one more value. */
  lemma HolderMaximumStep(p: seq<int>, x: int, s: seq<int>)
    requires s != [] && p == s[..|s| - 1] && x == s[|s| - 1]
    requires p != [] ==> HolderOf(p).key in p && HolderOf(p).count == Count(p, HolderOf(p).key)
    requires p != [] ==> forall w :: Count(p, w) <= HolderOf(p).count
    requires p == [] ==> HolderOf(p) == NoHolder
    ensures HolderOf(s).key in s && HolderOf(s).count == Count(s, HolderOf(s).key)
    ensures forall w :: Count(s, w) <= HolderOf(s).count
  {
    assert s == p + [x];
    forall w ensures Count(s, w) == Count(p, w) + (if w == x then 1 else 0) {
      CountSnoc(p, x, w);
    }
    if p != [] {
      assert HolderOf(p).key in s;
    }
  }

  ghost predicate ReachedAt(s: seq<int>, n: nat, h: Entry)
    requires 0 < n <= |s|
  {
    Count(s[..n], h.key) == h.count && NoneReached(s[..n - 1], h.count)
  }

  ghost predicate NoneReached(s: seq<int>, c: int) {
    forall w :: Count(s, w) < c
  }

  /** Ties go to the stride that got there first: the holder's stride reached
      its count at some prefix of the stream, and just before that no stride
      had that count. */
  lemma {:induction false} HolderReachedFirst(s: seq<int>)
    requires s != []
    ensures exists n :: 0 < n <= |s| && ReachedAt(s, n, HolderOf(s))
  {
    var p := s[..|s| - 1];
    if Count(s, s[|s| - 1]) > HolderOf(p).count {
      NewHolderReached(s);
    } else {
      HolderReachedFirst(p);
      var n :| 0 < n <= |p| && ReachedAt(p, n, HolderOf(p));
      KeptHolderReached(s, n);
    }
  }

  /** A stride that overtakes the holder reaches its count at the newest value. */
  lemma NewHolderReached(s: seq<int>)
    requires s != []
    requires Count(s, s[|s| - 1]) > HolderOf(s[..|s| - 1]).count
    ensures ReachedAt(s, |s|, HolderOf(s))
  {
    var p := s[..|s| - 1];
    assert s[..|s|] == s;
    if p != [] {
      HolderIsMaximum(p);
    }
  }

  /** A holder that is not overtaken keeps the prefix at which it got there. */
  lemma KeptHolderReached(s: seq<int>, n: nat)
    requires 0 < n < |s|
    requires Count(s, s[|s| - 1]) <= HolderOf(s[..|s| - 1]).count
    requires ReachedAt(s[..|s| - 1], n, HolderOf(s[..|s| - 1]))
    ensures ReachedAt(s, n, HolderOf(s))
  {
    var p := s[..|s| - 1];
    assert s[..n] == p[..n] && s[..n - 1] == p[..n - 1];
  }

  /** Among strides whose values all fit a `long`, a zero difference marks
      exactly a repeated stride. */
  lemma {:induction false} ZeroDiffsAreRepeats(s: seq<int>)
    requires AllI64(s)
    ensures Count(Diffs(s), 0) == Repeats(s)
  {
    if |s| >= 2 {
      var p := s[..|s| - 1];
      ZeroDiffsAreRepeats(p);
      DiffsSnoc(p, s[|s| - 1]);
      assert p + [s[|s| - 1]] == s;
      CountSnoc(Diffs(p), WrapI64(s[|s| - 1] - s[|s| - 2]), 0);
      WrapI64Zero(s[|s| - 1], s[|s| - 2]);
    }
  }

  /** One more value adds one more difference, against the previous value. */
  lemma {:induction false} DiffsSnoc(s: seq<int>, v: int)
    requires s != []
    ensures Diffs(s + [v]) == Diffs(s) + [WrapI64(v - s[|s| - 1])]
  {
    if |s| >= 2 {
      DiffsSnoc(s[1..], v);
      assert (s + [v])[1..] == s[1..] + [v];
    } else {
      assert (s + [v])[1..] == [v];
    }
  }

  lemma RepeatsSnoc(s: seq<int>, v: int)
    requires s != []
    ensures Repeats(s + [v]) == Repeats(s) + (if v == s[|s| - 1] then 1 else 0)
  {
    assert (s + [v])[..|s|] == s;
  }

  lemma HolderOfSnoc(s: seq<int>, v: int)
    ensures HolderOf(s + [v]) == Promote(HolderOf(s), v, Count(s + [v], v))
  {
    assert (s + [v])[..|s|] == s;
  }

  /** The holder update of `updateTopStrideValues`, run on the count just
      stored in the map, is the holder of the extended stream. */
  lemma HolderStep(vs: seq<int>, counts: map<int, int>, v: int)
    requires CountsMatch(vs, counts)
    ensures HolderOf(vs + [v]) == Promote(HolderOf(vs), v, Bump(counts, v)[v])
  {
    HolderOfSnoc(vs, v);
    CountSnoc(vs, v, v);
    CountPositive(vs, v);
  }

  /** The zero-difference test `stride - last_stride == 0` on `long`s is the
      repeat test of `Repeats`. */
  lemma RepeatsStep(vs: seq<int>, v: int)
    requires vs != [] && IsI64(v) && IsI64(vs[|vs| - 1])
    ensures Repeats(vs + [v]) == Repeats(vs) + (if WrapI64(v - vs[|vs| - 1]) == 0 then 1 else 0)
  {
    RepeatsSnoc(vs, v);
    WrapI64Zero(v, vs[|vs| - 1]);
  }
}
