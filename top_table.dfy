/** The bounded "top strides" table kept by every LoadStride variant
    (`updateTopStrideValues` and `updateTopStrideDifferenceValues`): at most
    TOPCOUNT (key, count) entries; a key already present has its count
    refreshed, a new key is appended while there is room, and otherwise it
    replaces the first entry of minimal count, but only when its own count is
    strictly larger than that minimum. */
module TopTable {
  import opened Common

  /** `LoadStride::TOPCOUNT` */
  const TOPCOUNT: nat := 4

  /** One `pair<long, long>` of the table: a stride (or stride difference) and its count. */
  datatype Entry = Entry(key: int, count: int)

  ghost predicate DistinctKeys(t: seq<Entry>) {
    forall i, j :: 0 <= i < j < |t| ==> t[i].key != t[j].key
  }

  ghost predicate HasKey(t: seq<Entry>, k: int) {
    exists i :: 0 <= i < |t| && t[i].key == k
  }

  /** Every entry carries the current count of its key in `counts`. */
  ghost predicate CountsAgree(t: seq<Entry>, counts: map<int, int>) {
    forall i :: 0 <= i < |t| ==> t[i].key in counts && t[i].count == counts[t[i].key]
  }

  /** Well-formed table: bounded and without repeated keys. */
  ghost predicate Valid(t: seq<Entry>) {
    |t| <= TOPCOUNT && DistinctKeys(t)
  }

  /** The first index whose key is `k`, if any (the first scanning loop). */
  function IndexOf(t: seq<Entry>, k: int): (r: Option<nat>)
    ensures r.Some? ==> r.value < |t| && t[r.value].key == k
    ensures r.Some? ==> forall j :: 0 <= j < r.value ==> t[j].key != k
    ensures r.None? ==> forall j :: 0 <= j < |t| ==> t[j].key != k
  {
    if t == [] then None
    else if t[0].key == k then Some(0)
    else match IndexOf(t[1..], k)
      case None => None
      case Some(i) => Some(i + 1)
  }

  /** The index the minimum scan settles on: the first entry of least count. */
  function FirstMinIndex(t: seq<Entry>): (m: nat)
    requires |t| > 0
    ensures m < |t|
    ensures forall j :: 0 <= j < |t| ==> t[m].count <= t[j].count
    ensures forall j :: 0 <= j < m ==> t[j].count > t[m].count
  {
    if |t| == 1 then 0
    else
      var m := FirstMinIndex(t[..|t| - 1]);
      if t[|t| - 1].count < t[m].count then |t| - 1 else m
  }

  /** The table after key `k` has reached count `c`. */
  function TopInsert(t: seq<Entry>, k: int, c: int): seq<Entry>
  {
    match IndexOf(t, k)
    case Some(i) => t[i := Entry(k, c)]
    case None =>
      if |t| < TOPCOUNT then t + [Entry(k, c)]
      else
        var m := FirstMinIndex(t);
        if c > t[m].count then t[m := Entry(k, c)] else t
  }

  /** The update as the source performs it: a scan for the key, then (when
      the table is full) a scan for the first minimal count. */
  method UpdateTopTable(t: seq<Entry>, k: int, c: int) returns (r: seq<Entry>)
    ensures r == TopInsert(t, k, c)
  {
    var i := 0;
    while i < |t|
      invariant 0 <= i <= |t|
      invariant forall j :: 0 <= j < i ==> t[j].key != k
    {
      if t[i].key == k {
        r := t[i := Entry(k, c)];
        return;
      }
      i := i + 1;
    }
    if |t| < TOPCOUNT {
      r := t + [Entry(k, c)];
      return;
    }
    var lowest := t[0].count;
    var location := 0;
    i := 1;
    while i < |t|
      invariant 1 <= i <= |t|
      invariant location == FirstMinIndex(t[..i]) && lowest == t[location].count
    {
      assert t[..i + 1][..i] == t[..i];
      if t[i].count < lowest {
        lowest := t[i].count;
        location := i;
      }
      i := i + 1;
    }
    assert t[..|t|] == t;
    if c > lowest {
      r := t[location := Entry(k, c)];
    } else {
      r := t;
    }
  }

  /** The table stays bounded by TOPCOUNT and keeps its keys distinct. */
  lemma TopInsertValid(t: seq<Entry>, k: int, c: int)
    requires Valid(t)
    ensures Valid(TopInsert(t, k, c))
  {
  }

  /** Afterwards the key is in the table exactly when it was already there,
      there was room, or its count beats the minimum of a full table. */
  lemma TopInsertHasKey(t: seq<Entry>, k: int, c: int)
    requires Valid(t)
    ensures HasKey(TopInsert(t, k, c), k) <==>
              (HasKey(t, k) || |t| < TOPCOUNT || c > t[FirstMinIndex(t)].count)
  {
    var r := TopInsert(t, k, c);
    match IndexOf(t, k)
    case Some(i) =>
      assert r[i].key == k;
    case None =>
      if |t| < TOPCOUNT {
        assert r[|t|].key == k;
      } else if c > t[FirstMinIndex(t)].count {
        assert r[FirstMinIndex(t)].key == k;
      }
  }

  /** No key other than `k` enters the table, and an old key leaves it only
      when a full table evicts its first minimal entry for a strictly larger count. */
  lemma TopInsertEvictsOnlyMinimum(t: seq<Entry>, k: int, c: int, x: int)
    requires Valid(t)
    ensures HasKey(TopInsert(t, k, c), x) ==> x == k || HasKey(t, x)
    ensures HasKey(t, x) && !HasKey(TopInsert(t, k, c), x) ==>
              |t| == TOPCOUNT && !HasKey(t, k) &&
              t[FirstMinIndex(t)].key == x && c > t[FirstMinIndex(t)].count
  {
    var r := TopInsert(t, k, c);
    forall i | 0 <= i < |r| && r[i].key != k
      ensures i < |t| && t[i].key == r[i].key
    {
    }
    forall i | 0 <= i < |t| && t[i].key == x
      ensures r[i].key == x ||
              (|t| == TOPCOUNT && IndexOf(t, k).None? && i == FirstMinIndex(t) && c > t[i].count)
    {
    }
  }

  /** Counts stay current: if the table agreed with the counts before `k`
      reached `c`, it agrees with the updated counts afterwards. */
  lemma TopInsertCountsAgree(t: seq<Entry>, counts: map<int, int>, k: int, c: int)
    requires Valid(t) && CountsAgree(t, counts)
    ensures CountsAgree(TopInsert(t, k, c), counts[k := c])
  {
  }

  /** A key that is never inserted never appears (zero strides stay out). */
  lemma TopInsertAvoids(t: seq<Entry>, k: int, c: int, z: int)
    requires !HasKey(t, z) && k != z
    ensures !HasKey(TopInsert(t, k, c), z)
  {
    var r := TopInsert(t, k, c);
    forall i | 0 <= i < |r|
      ensures r[i].key != z
    {
      assert r[i].key == k || (i < |t| && r[i] == t[i]);
    }
  }
}
