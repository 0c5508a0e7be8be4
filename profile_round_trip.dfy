/** The whole profile file from end to end: what `Stride_print_StrideProfile`
    writes, read back line by line by `StrideLoadProfile::runOnModule`. Every
    registered load whose id the reading pass knows ends up with the record
    the runtime printed for it, and no other load's entry is touched. */
module ProfileRoundTrip {
  import opened Common
  import opened ProfileText
  import opened TopTable
  import LS = StrideProfilerLoadStride
  import SH = StrideHooks
  import opened StrideLoadProfile

  /** Every registered id fits `uint32_t` and every top table holds at most
      four strides, so that each record line has its nine fields. */
  ghost predicate Printable(ps: map<int, LS.State>) {
    forall k :: k in ps ==> IsU32(k) && |ps[k].strides.top| <= TOPCOUNT
  }

  /** Profiles that keep their invariant are printable. */
  lemma PrintableOfInv(ps: map<int, LS.State>)
    requires SH.AllInv(ps)
    ensures Printable(ps)
  {
    forall k | k in ps ensures |ps[k].strides.top| <= TOPCOUNT {
      SH.RecordFieldsNine(k, ps[k]);
    }
  }

  /** No two load ids name the same load instruction. */
  ghost predicate Injective(loadIds: map<int, int>) {
    forall a, b :: a in loadIds && b in loadIds && a != b ==> loadIds[a] != loadIds[b]
  }

  /** An id printed as `uint32_t` and read back into an `int` keys the same entry. */
  lemma IdSurvivesInt(id: int)
    requires IsU32(id)
    ensures WrapU32(WrapI32(id)) == id
  {
    if id >= TWO_31 {
      assert WrapI32(id) == id - TWO_32;
      assert (id - TWO_32) % TWO_32 == id;
    }
  }

  /** No entry from the `j`-th on names `key`. */
  ghost predicate Absent(keys: seq<Option<int>>, j: nat, key: Option<int>) {
    forall t :: j <= t < |keys| ==> keys[t] != key
  }

  /** `lines` is a first line, then one line per entry that `step` files as
      `vals[i]` under `keys[i]`, then a line with the END marker. */
  ghost predicate FilesEach(step: (Infos, string) -> Infos, lines: seq<string>,
                            keys: seq<Option<int>>, vals: seq<LoadInfo>) {
    && |vals| == |keys| && |lines| == |keys| + 2
    && Contains(lines[|keys| + 1], END)
    && (forall i :: 1 <= i <= |keys| ==> !Contains(lines[i], END))
    && (forall i, m :: 1 <= i <= |keys| ==> step(m, lines[i]) == m[keys[i - 1] := vals[i - 1]])
  }

  /** The loop from entry `j` on leaves every key none of those entries
      names as it was. */
  lemma {:induction false} ReadKeeps(step: (Infos, string) -> Infos, infos: Infos, lines: seq<string>,
                                     keys: seq<Option<int>>, vals: seq<LoadInfo>, j: nat)
    requires FilesEach(step, lines, keys, vals) && j <= |keys|
    ensures var r := ReadLinesWith(step, infos, lines, j + 1);
            forall key :: Absent(keys, j, key) ==>
              (key in r <==> key in infos) && (key in infos ==> r[key] == infos[key])
    decreases |keys| - j
  {
    if j < |keys| {
      var infos' := step(infos, lines[j + 1]);
      assert infos' == infos[keys[j] := vals[j]];
      ReadKeeps(step, infos', lines, keys, vals, j + 1);
      forall key | Absent(keys, j, key) ensures key != keys[j] && Absent(keys, j + 1, key) {
      }
    }
  }

  /** The loop from entry `j` on leaves under each key the value of the last
      entry that names it. */
  lemma {:induction false} ReadFiles(step: (Infos, string) -> Infos, infos: Infos, lines: seq<string>,
                                     keys: seq<Option<int>>, vals: seq<LoadInfo>, j: nat)
    requires FilesEach(step, lines, keys, vals) && j <= |keys|
    ensures var r := ReadLinesWith(step, infos, lines, j + 1);
            forall i :: j <= i < |keys| && Absent(keys, i + 1, keys[i]) ==>
              keys[i] in r && r[keys[i]] == vals[i]
    decreases |keys| - j
  {
    if j < |keys| {
      var infos' := step(infos, lines[j + 1]);
      assert infos' == infos[keys[j] := vals[j]];
      ReadFiles(step, infos', lines, keys, vals, j + 1);
      ReadKeeps(step, infos', lines, keys, vals, j + 1);
    }
  }

  /** The whole loop: each entry's value stands under its key unless a
      later entry names the same key, and every other key is untouched. */
  lemma ReadAll(step: (Infos, string) -> Infos, infos: Infos, lines: seq<string>,
                keys: seq<Option<int>>, vals: seq<LoadInfo>)
    requires FilesEach(step, lines, keys, vals)
    ensures var r := ReadLinesWith(step, infos, lines, 1);
            && (forall i :: 0 <= i < |keys| && Absent(keys, i + 1, keys[i]) ==> keys[i] in r && r[keys[i]] == vals[i])
            && (forall key :: Absent(keys, 0, key) ==>
                  (key in r <==> key in infos) && (key in infos ==> r[key] == infos[key]))
  {
    ReadFiles(step, infos, lines, keys, vals, 0);
    ReadKeeps(step, infos, lines, keys, vals, 0);
  }

  /** The key each printed record is filed under: the load with that id,
      or null. */
  function RecordKeys(loadIds: map<int, int>, ids: seq<int>): (ks: seq<Option<int>>)
    ensures |ks| == |ids|
    ensures forall i :: 0 <= i < |ids| ==> ks[i] == if ids[i] in loadIds then Some(loadIds[ids[i]]) else None
  {
    seq(|ids|, i requires 0 <= i < |ids| => if ids[i] in loadIds then Some(loadIds[ids[i]]) else None)
  }

  /** The `loadInfo` each printed record is read back as. */
  ghost function RecordInfos(ps: map<int, LS.State>, ids: seq<int>): (vs: seq<LoadInfo>)
    requires Printable(ps) && forall i :: 0 <= i < |ids| ==> ids[i] in ps
    ensures |vs| == |ids|
    ensures forall i :: 0 <= i < |ids| ==> vs[i] == MakeInfo(SH.RecordFields(ids[i], ps[ids[i]]))
  {
    seq(|ids|, i requires 0 <= i < |ids| => MakeInfo(SH.RecordFields(ids[i], ps[ids[i]])))
  }

  /** Where each line of the printed profile sits. */
  lemma PrintedLineAt(ps: map<int, LS.State>, ids: seq<int>, i: nat)
    requires forall j :: 0 <= j < |ids| ==> ids[j] in ps
    requires 1 <= i <= |ids|
    ensures |SH.PrintedLines(ps, ids)| == |ids| + 2
    ensures SH.PrintedLines(ps, ids)[i] == FieldsText(SH.RecordFields(ids[i - 1], ps[ids[i - 1]]))
  {
    assert SH.PrintedLines(ps, ids)[i] == SH.RecordLines(ps, ids)[i - 1];
  }

  /** The printed profile is a first line, one record line per id filed by
      the reader under that id's load, and the END line. */
  lemma PrintedFilesEach(loadIds: map<int, int>, ps: map<int, LS.State>, ids: seq<int>)
    requires Printable(ps) && forall i :: 0 <= i < |ids| ==> ids[i] in ps
    ensures FilesEach(LineStep(loadIds), SH.PrintedLines(ps, ids),
                      RecordKeys(loadIds, ids), RecordInfos(ps, ids))
  {
    var lines := SH.PrintedLines(ps, ids);
    var keys := RecordKeys(loadIds, ids);
    var vals := RecordInfos(ps, ids);
    assert |lines| == |keys| + 2 && Contains(lines[|keys| + 1], END) by {
      assert lines[|keys| + 1] == END;
      assert MatchAt(END, END, 0);
    }
    forall i | 1 <= i <= |keys| ensures !Contains(lines[i], END) {
      var fs := SH.RecordFields(ids[i - 1], ps[ids[i - 1]]);
      assert lines[i] == FieldsText(fs) by {
        PrintedLineAt(ps, ids, i);
      }
      RecordIsNotEnd(fs);
    }
    forall i, m | 1 <= i <= |keys| ensures LineStep(loadIds)(m, lines[i]) == m[keys[i - 1] := vals[i - 1]] {
      var id := ids[i - 1];
      var fs := SH.RecordFields(id, ps[id]);
      assert lines[i] == FieldsText(fs) by {
        PrintedLineAt(ps, ids, i);
      }
      assert |fs| == RECORD_FIELDS && fs[0] == id;
      assert ReadLine(m, loadIds, FieldsText(fs)) == m[LookupLoad(loadIds, WrapI32(id)) := MakeInfo(fs)] by {
        RecordReadBack(m, loadIds, fs);
      }
      assert LookupLoad(loadIds, WrapI32(id)) == keys[i - 1] by {
        IdSurvivesInt(id);
      }
    }
  }

  /** The printed lines, each followed by `endl`, come back from `getline`
      unchanged: none of them holds a newline. */
  lemma PrintedLinesSurviveFile(ps: map<int, LS.State>, ids: seq<int>)
    requires forall i :: 0 <= i < |ids| ==> ids[i] in ps
    ensures Lines(JoinLines(SH.PrintedLines(ps, ids))) == SH.PrintedLines(ps, ids)
  {
    var lines := SH.PrintedLines(ps, ids);
    forall k | 0 <= k < |lines| ensures '\n' !in lines[k] {
      if 0 < k < |lines| - 1 {
        NatTextNoNewline(SH.RecordFields(ids[k - 1], ps[ids[k - 1]]));
      }
    }
    LinesOfJoin(lines);
  }

  /** Once each record's value stands under its key unless a later record
      has the same key, and every other key is untouched, distinct ids and
      distinct loads leave each load with its own record. */
  lemma EachRecordFiled(r: Infos, infos: Infos, loadIds: map<int, int>, ids: seq<int>, vals: seq<LoadInfo>)
    requires Injective(loadIds) && SH.Ascending(ids) && |vals| == |ids|
    requires var keys := RecordKeys(loadIds, ids);
             forall i :: 0 <= i < |keys| && Absent(keys, i + 1, keys[i]) ==> keys[i] in r && r[keys[i]] == vals[i]
    requires var keys := RecordKeys(loadIds, ids);
             forall key :: Absent(keys, 0, key) ==> (key in r <==> key in infos) && (key in infos ==> r[key] == infos[key])
    ensures forall i :: 0 <= i < |ids| && ids[i] in loadIds ==>
              Some(loadIds[ids[i]]) in r && r[Some(loadIds[ids[i]])] == vals[i]
    ensures forall key :: key in infos && key != None &&
                          (forall i :: 0 <= i < |ids| && ids[i] in loadIds ==> key != Some(loadIds[ids[i]])) ==>
              key in r && r[key] == infos[key]
  {
    var keys := RecordKeys(loadIds, ids);
    forall i | 0 <= i < |ids| && ids[i] in loadIds
      ensures Some(loadIds[ids[i]]) in r && r[Some(loadIds[ids[i]])] == vals[i]
    {
      assert keys[i] == Some(loadIds[ids[i]]);
      assert Absent(keys, i + 1, keys[i]) by {
        forall t | i + 1 <= t < |keys| ensures keys[t] != keys[i] {
          assert ids[i] < ids[t];
          if ids[t] in loadIds {
            assert loadIds[ids[t]] != loadIds[ids[i]];
          }
        }
      }
    }
    forall key | key in infos && key != None &&
                 (forall i :: 0 <= i < |ids| && ids[i] in loadIds ==> key != Some(loadIds[ids[i]]))
      ensures key in r && r[key] == infos[key]
    {
      assert Absent(keys, 0, key) by {
        forall t | 0 <= t < |keys| ensures keys[t] != key {
          if ids[t] in loadIds {
            assert key != Some(loadIds[ids[t]]);
          }
        }
      }
    }
  }

  /** Once each printed record stands under its key unless a later record
      has the same key, and every other key is untouched: every registered
      load the pass numbered holds the record printed for it, and every
      other load's entry is left as it was. */
  lemma RecordsFiled(r: Infos, infos: Infos, loadIds: map<int, int>, ps: map<int, LS.State>, ids: seq<int>)
    requires Printable(ps) && Injective(loadIds)
    requires SH.Ascending(ids) && forall i :: 0 <= i < |ids| ==> ids[i] in ps
    requires forall k :: k in ps ==> k in ids
    requires var keys := RecordKeys(loadIds, ids);
             var vals := RecordInfos(ps, ids);
             forall i :: 0 <= i < |keys| && Absent(keys, i + 1, keys[i]) ==> keys[i] in r && r[keys[i]] == vals[i]
    requires var keys := RecordKeys(loadIds, ids);
             forall key :: Absent(keys, 0, key) ==> (key in r <==> key in infos) && (key in infos ==> r[key] == infos[key])
    ensures forall k :: k in ps && k in loadIds ==>
              Some(loadIds[k]) in r && r[Some(loadIds[k])] == MakeInfo(SH.RecordFields(k, ps[k]))
    ensures forall key :: key in infos && key != None &&
                          (forall k :: k in ps && k in loadIds ==> key != Some(loadIds[k])) ==>
              key in r && r[key] == infos[key]
  {
    var vals := RecordInfos(ps, ids);
    EachRecordFiled(r, infos, loadIds, ids, vals);
    forall k | k in ps && k in loadIds
      ensures Some(loadIds[k]) in r && r[Some(loadIds[k])] == MakeInfo(SH.RecordFields(k, ps[k]))
    {
      var i :| 0 <= i < |ids| && ids[i] == k;
      assert vals[i] == MakeInfo(SH.RecordFields(k, ps[k]));
    }
    forall key | key in infos && key != None &&
                 (forall k :: k in ps && k in loadIds ==> key != Some(loadIds[k]))
      ensures key in r && r[key] == infos[key]
    {
      forall i | 0 <= i < |ids| && ids[i] in loadIds ensures key != Some(loadIds[ids[i]]) {
        assert ids[i] in ps;
      }
    }
  }

  /** The profile file from end to end: after the runtime prints its
      registry in ascending id order and the pass reads the file, every
      registered load the pass numbered holds the record printed for it, and
      the entry of every load no record names is left as it was. */
  lemma PrintThenRead(infos: Infos, loadIds: map<int, int>, ps: map<int, LS.State>, ids: seq<int>)
    requires Printable(ps) && Injective(loadIds)
    requires SH.Ascending(ids) && forall i :: 0 <= i < |ids| ==> ids[i] in ps
    requires forall k :: k in ps ==> k in ids
    ensures var r := ReadProfile(infos, loadIds, Lines(JoinLines(SH.PrintedLines(ps, ids))));
            forall k :: k in ps && k in loadIds ==>
              Some(loadIds[k]) in r && r[Some(loadIds[k])] == MakeInfo(SH.RecordFields(k, ps[k]))
    ensures var r := ReadProfile(infos, loadIds, Lines(JoinLines(SH.PrintedLines(ps, ids))));
            forall key :: key in infos && key != None &&
                          (forall k :: k in ps && k in loadIds ==> key != Some(loadIds[k])) ==>
              key in r && r[key] == infos[key]
  {
    var lines := SH.PrintedLines(ps, ids);
    assert ReadProfile(infos, loadIds, Lines(JoinLines(lines))) ==
           ReadLinesWith(LineStep(loadIds), infos, lines, 1) by {
      PrintedLinesSurviveFile(ps, ids);
    }
    var r := ReadLinesWith(LineStep(loadIds), infos, lines, 1);
    assert && (forall k :: k in ps && k in loadIds ==>
                 Some(loadIds[k]) in r && r[Some(loadIds[k])] == MakeInfo(SH.RecordFields(k, ps[k])))
           && (forall key :: key in infos && key != None &&
                             (forall k :: k in ps && k in loadIds ==> key != Some(loadIds[k])) ==>
                 key in r && r[key] == infos[key]) by {
      PrintedFilesEach(loadIds, ps, ids);
      ReadAll(LineStep(loadIds), infos, lines, RecordKeys(loadIds, ids), RecordInfos(ps, ids));
      RecordsFiled(r, infos, loadIds, ps, ids);
    }
  }
}
