# Speculative LICM and stride profiling, modelled in Dafny

This project models the logic of a course compiler project built on LLVM.
It has three parts:

- a speculative loop-invariant code motion pass (`MyHw2Pass`) that hoists
  loads the profile says rarely alias, and guards them with run-time flags
  and redo blocks;
- a stride profiler: a per-load `LoadStride` tracker in three variants, the
  runtime that registers and prints the trackers, the pass that numbers
  instructions and reads the printed profile back, the sampling pass that
  decides which executions are profiled, and the prefetching pass that
  classifies loads from the profile;
- the LAMP memory-dependence runtime: granularity set-up, timestamp packing,
  per-byte shadow stamps, dependence de-duplication and the hand-off of load
  addresses to the stride trackers.

The LLVM IR is abstract. Instructions are integer ids with a kind, an
operand list and a home block. Loop membership, dominance, exit blocks and
profile counts are given relations. The C++ objects whose fields change in
place are Dafny classes: the pass, the `LoadStride` trackers and the LAMP
runtime. Each method is proved against a specification function of its old
state. Pure queries are functions, and the properties are lemmas about
those functions.

Modules, one per file:

| file | module | models |
|---|---|---|
| common.dfy | `Common` | C integer widths: 32/64-bit wrap-around, signed/unsigned reinterpretation, truncating division |
| top_table.dfy | `TopTable` | the bounded top-4 table shared by all `LoadStride` variants |
| stride_tally.dfy | `StrideTally` | recorded values, count map, top table and dominant-stride holder |
| stride_profiler_loadstride.dfy | `StrideProfilerLoadStride` | `trunk/proj_pass/tools/stride-profiler/loadstride.{cxx,hxx}` |
| trunk_lamp_loadstride.dfy | `TrunkLampLoadStride` | `trunk/proj_pass/tools/lamp-profiler/loadstride.cxx` |
| lamp_loadstride.dfy | `LampLoadStride` | `proj_pass/tools/lamp-profiler/loadstride.cxx` |
| profile_text.dfy | `ProfileText` | the text of a profile record line: printing, `sscanf`, `getline` |
| stride_hooks.dfy | `StrideHooks` | `proj_pass/tools/stride-profiler/stride_hooks.cxx` |
| stride_load_profile.dfy | `StrideLoadProfile` | `trunk/proj_pass/lib/projpass/StrideLoadProfile.cpp` |
| stride_profiling.dfy | `StrideProfiling` | `trunk/proj_pass/lib/projpass/StrideProfiling.cpp` |
| profile_round_trip.dfy | `ProfileRoundTrip` | the profile file from the stride runtime's printer to the pass's reader |
| stride_prefetch.dfy | `StridePrefetch` | `trunk/proj_pass/lib/projpass/strideprefetch.cpp` |
| lamp_hooks.dfy | `LampHooks` | `proj_pass/tools/lamp-profiler/lamp_hooks.cxx` |
| licm_ir.dfy | `LicmIr` | the IR abstraction and the pure queries of `_myLICM.cpp` |
| licm_hoist.dfy | `LicmHoist` | `HoistRegion` and `addToReverseMap` as functions |
| licm_redo.dfy | `LicmRedo` | `makeFlags`, `insertIntoRedo`, `createRedoBlocks`, `addAliasChecks` as functions |
| licm_guard.dfy | `LicmGuard` | the run-time meaning of the emitted flag, check and redo code |
| licm_pass.dfy | `LicmPass` | the pass object whose methods update its sets, maps and vectors |

Source paths below are relative to the repository root.

## Model

| member | source | states |
|---|---|---|
| Common.WrapU64 | trunk/proj_pass/tools/stride-profiler/loadstride.cxx:72-75 | the result is a `uint64_t` value, and a value already in range is unchanged |
| Common.WrapU32 | trunk/proj_pass/lib/projpass/StrideLoadProfile.cpp:90-102 | the result is an `unsigned` value, and a value already in range is unchanged |
| Common.ToSigned64 | trunk/proj_pass/tools/stride-profiler/loadstride.cxx:72-75 | the `long` with the same 64 bits as an unsigned word: in `long` range and congruent to it modulo 2^64 |
| Common.SignedUnsignedRoundTrip | trunk/proj_pass/tools/stride-profiler/loadstride.cxx:64-73 | storing a `uint64_t` in a `long` field and reading it back as `unsigned long` gives the same word |
| Common.ToUnsigned64 | trunk/proj_pass/tools/stride-profiler/loadstride.cxx:72 | the `unsigned long` with the same 64 bits as a `long`: in `uint64_t` range and congruent to it modulo 2^64 |
| Common.UnsignedSignedRoundTrip | trunk/proj_pass/tools/stride-profiler/loadstride.cxx:72-75 | a `long` read as `unsigned long` and stored back in a `long` is unchanged |
| Common.WrapI64 | trunk/proj_pass/tools/stride-profiler/loadstride.cxx:75 | a `long` result with two's-complement wrap-around: in `long` range, unchanged when already in range, congruent modulo 2^64 |
| Common.WrapI32 | trunk/proj_pass/lib/projpass/StrideLoadProfile.cpp:141-151 | the result is an `int`, and a value already in range is unchanged |
| Common.TruncDiv | trunk/proj_pass/lib/projpass/strideprefetch.cpp:239-261 | C's integer `/`, truncating toward zero; on a non-negative dividend and a positive divisor it is the floor quotient |
| TopTable.IndexOf | trunk/proj_pass/tools/stride-profiler/loadstride.cxx:42-47 | the first index holding the key, with no earlier index holding it; none when the key is absent |
| TopTable.FirstMinIndex | trunk/proj_pass/tools/stride-profiler/loadstride.cxx:52-60 | the index the minimum scan stops at: an entry of least count, with every earlier entry strictly larger |
| TopTable.UpdateTopTable | trunk/proj_pass/tools/stride-profiler/loadstride.cxx:42-63 | the two scanning loops compute `TopInsert`: refresh a present key, append while there is room, else replace the first minimum if strictly beaten |
| TopTable.TopInsertValid | trunk/proj_pass/tools/stride-profiler/loadstride.cxx:16 | the table never exceeds TOPCOUNT = 4 entries and its keys stay pairwise distinct |
| TopTable.TopInsertHasKey | trunk/proj_pass/tools/stride-profiler/loadstride.cxx:42-63 | the key is in the table afterwards iff it was there, there was room, or its count strictly beats the first minimum of a full table |
| TopTable.TopInsertEvictsOnlyMinimum | trunk/proj_pass/tools/stride-profiler/loadstride.cxx:52-63 | no other key enters; a key leaves only when a full table without the new key evicts it as its first minimum for a strictly larger count |
| TopTable.TopInsertCountsAgree | trunk/proj_pass/tools/stride-profiler/loadstride.cxx:42-47 | if every entry carried its key's current count before, it still does after the key's count changes |
| TopTable.TopInsertAvoids | trunk/proj_pass/tools/stride-profiler/loadstride.cxx:39-41 | a key that is never offered never appears, so 0 stays out of the stride table |
| StrideTally.SameValueIsSameBlock | trunk/proj_pass/tools/stride-profiler/loadstride.hxx:53-57 | `a >> 4 == b >> 4` holds iff both lie in the same 16-byte-aligned block; such values are less than 16 apart, and equal values qualify |
| StrideTally.StrideOf | trunk/proj_pass/tools/stride-profiler/loadstride.cxx:72-75 | the stride fits a `long` and is 0 exactly when the two addresses are equal |
| StrideTally.StrideRoundTrip | trunk/proj_pass/tools/stride-profiler/loadstride.cxx:75 | adding the stride to the previous address, modulo 2^64, gives the new address back |
| StrideTally.DiffsAt | trunk/proj_pass/tools/lamp-profiler/loadstride.cxx:117-136 | the `i`-th stride difference is the wrapped `long` difference of strides `i + 1` and `i` |
| StrideTally.DiffsSnoc | trunk/proj_pass/tools/lamp-profiler/loadstride.cxx:117-136 | one more recorded stride adds exactly one difference, taken against the previous stride |
| StrideTally.EmptyTallyInv | trunk/proj_pass/tools/stride-profiler/loadstride.cxx:18-24 | the empty tally of a fresh object satisfies the tally invariant |
| StrideTally.AddKeepsCounts | trunk/proj_pass/tools/stride-profiler/loadstride.cxx:81-99 | after counting a value once, the map has a key per distinct recorded value, each key's count is its multiplicity, and the counts sum to the number of recorded values |
| StrideTally.AddPreservesInv | trunk/proj_pass/tools/stride-profiler/loadstride.cxx:33-64 | recording a value keeps the count map exact and the top table bounded, distinct, current and (for the stride table) free of 0 |
| StrideTally.HolderIsMaximum | trunk/proj_pass/tools/stride-profiler/loadstride.cxx:23-38 | the holder is (-1, -1) before any stride; afterwards it is a recorded stride with its current count, and no stride has a larger count |
| StrideTally.HolderReachedFirst | trunk/proj_pass/tools/stride-profiler/loadstride.cxx:34-38 | ties go to the first: the holder's stride reached its count at some prefix, before which no stride had that count |
| StrideTally.HolderStep | trunk/proj_pass/tools/stride-profiler/loadstride.cxx:34-38 | promoting the holder with the count just stored in the map yields the holder of the extended stream |
| StrideTally.ZeroDiffsAreRepeats | trunk/proj_pass/tools/lamp-profiler/loadstride.cxx:126-135 | for strides that fit a `long`, the zero differences are exactly the positions where a stride repeats the previous one |
| StrideTally.RepeatsStep | trunk/proj_pass/tools/stride-profiler/loadstride.cxx:101-104 | the test `stride - last_stride == 0` on `long`s counts one more repeat exactly when the stride equals the previous one |
| StrideProfilerLoadStride.Init | trunk/proj_pass/tools/stride-profiler/loadstride.cxx:18-24 | the constructor leaves no strides, holder (-1, -1), both zero counters 0 and no last address (-1); the invariant holds; `exec_count` is stored as `uint32_t` |
| StrideProfilerLoadStride.AfterAddressPreservesInv | trunk/proj_pass/tools/stride-profiler/loadstride.cxx:66-105 | every `addAddress` keeps the invariant: exact counts, a bounded, distinct, current top table without 0, the holder as dominant stride, and the zero-difference counter counting repeats |
| StrideProfilerLoadStride.RecordStrideKeepsInv | trunk/proj_pass/tools/stride-profiler/loadstride.cxx:81-104 | recording a non-zero `long` stride keeps the invariant |
| StrideProfilerLoadStride.FirstAddressOnlyLatches | trunk/proj_pass/tools/stride-profiler/loadstride.cxx:67-70 | the first address after construction or `clearAddresses` is only remembered: strides, counts, table, holder and both counters are unchanged |
| StrideProfilerLoadStride.SameBlockCountsZeroOnly | trunk/proj_pass/tools/stride-profiler/loadstride.cxx:72-79 | a stride within one 16-byte block increments `strideZeroCount`; apart from `lastAddress`, nothing else changes |
| StrideProfilerLoadStride.ZeroStrideIsSameBlock | trunk/proj_pass/tools/stride-profiler/loadstride.cxx:75-76 | a zero stride always passes the same-block test |
| StrideProfilerLoadStride.OtherStrideRecordedOnce | trunk/proj_pass/tools/stride-profiler/loadstride.cxx:81-104 | any other stride is appended, its count goes up by exactly one and every other count is kept; the zero-difference counter goes up exactly when it repeats the previous recorded stride; `strideZeroCount` is unchanged |
| StrideProfilerLoadStride.ZeroCountCountsSameBlock | trunk/proj_pass/tools/stride-profiler/loadstride.cxx:66-105 | over any sequence of `addAddress` calls, `strideZeroCount` grows by exactly the number of calls that found the remembered address in their own 16-byte block, and `strideZeroCount` plus the number of recorded strides grows by exactly the number of calls that had a remembered address; the invariant is kept |
| StrideProfilerLoadStride.ClearedThenLatches | trunk/proj_pass/tools/stride-profiler/loadstride.hxx:49-51 | `clearAddresses` keeps the invariant and every count, list and table; the next address is again only remembered |
| StrideProfilerLoadStride.AllOnesAddressLooksFresh | trunk/proj_pass/tools/stride-profiler/loadstride.cxx:66-70 | an address of all ones is stored as the `long` -1, the "no address yet" sentinel, so the address after it records no stride |
| StrideProfilerLoadStride.LoadStride.constructor | trunk/proj_pass/tools/stride-profiler/loadstride.cxx:18-24 | the new object is valid and its abstract state is `Init(load_id, exec_count)` |
| StrideProfilerLoadStride.LoadStride.UpdateTopStrideValues | trunk/proj_pass/tools/stride-profiler/loadstride.cxx:33-64 | the holder is promoted on a strictly larger count, and the top table is refreshed with the stride's count, except for stride 0 |
| StrideProfilerLoadStride.LoadStride.AddAddress | trunk/proj_pass/tools/stride-profiler/loadstride.cxx:66-105 | the new abstract state is `AfterAddress(old state, addr)` |
| StrideProfilerLoadStride.LoadStride.ClearAddresses | trunk/proj_pass/tools/stride-profiler/loadstride.hxx:49-51 | only `lastAddress` changes, to -1 |
| StrideProfilerLoadStride.LoadStride.GetNumberUniqueStrides | trunk/proj_pass/tools/stride-profiler/loadstride.hxx:41-43 | the number of distinct recorded strides, as an `unsigned int` |
| StrideProfilerLoadStride.LoadStride.GetStrideExecCount | trunk/proj_pass/tools/stride-profiler/loadstride.hxx:45-47 | the number of recorded strides, which equals the sum of the counts in the map, as an `unsigned int` |
| StrideProfilerLoadStride.LoadStride.GetStrideZeroCount | trunk/proj_pass/tools/stride-profiler/loadstride.hxx:17-19 | the zero-stride counter of the abstract state, the count of same-block calls that `ZeroCountCountsSameBlock` characterises |
| StrideProfilerLoadStride.LoadStride.GetTopStrideValue | trunk/proj_pass/tools/stride-profiler/loadstride.hxx:29-31 | the holder: (-1, -1) before any stride, afterwards a recorded stride whose count is the largest |
| StrideProfilerLoadStride.LoadStride.GetTopStrideValues | trunk/proj_pass/tools/stride-profiler/loadstride.hxx:25-27 | at most four distinct non-zero strides, each with its current number of occurrences |
| TrunkLampLoadStride.Init | trunk/proj_pass/tools/lamp-profiler/loadstride.cxx:18-27 | the constructor leaves an empty address history, no strides or differences, holder (-1, -1) and both zero counters 0, and the invariant holds |
| TrunkLampLoadStride.AfterAddress | trunk/proj_pass/tools/lamp-profiler/loadstride.cxx:91-98 | every `addAddress` call appends its address to `addresses`, so the history has one entry per call |
| TrunkLampLoadStride.AfterAddressPreservesInv | trunk/proj_pass/tools/lamp-profiler/loadstride.cxx:91-137 | every call keeps the invariant: exact tallies, no 0 in the stride table, the holder is the dominant stride, the differences are those of consecutive recorded strides, and the zero-difference counter counts the zero differences |
| TrunkLampLoadStride.RecordStrideKeepsInv | trunk/proj_pass/tools/lamp-profiler/loadstride.cxx:106-136 | recording a non-zero `long` stride, with its difference from the second stride on, keeps the invariant |
| TrunkLampLoadStride.RecordStrideDiffs | trunk/proj_pass/tools/lamp-profiler/loadstride.cxx:117-136 | from the second recorded stride on, exactly one difference (new minus previous) is tallied, and the zero-difference counter stays equal to the number of zero differences |
| TrunkLampLoadStride.SameBlockRecordsNothing | trunk/proj_pass/tools/lamp-profiler/loadstride.cxx:100-104 | a zero or same-16-byte-block stride appends the address and increments `strideZeroCount`, and records no stride and no difference |
| TrunkLampLoadStride.DifferenceBookkeeping | trunk/proj_pass/tools/lamp-profiler/loadstride.cxx:117-136 | there is one difference per recorded stride after the first; the zero-difference counter equals the count of 0 in the difference map (0 when absent) and the number of repeated strides |
| TrunkLampLoadStride.TablesBounded | trunk/proj_pass/tools/lamp-profiler/loadstride.cxx:38-88 | the stride table holds at most four distinct non-zero strides; the difference table holds at most four distinct differences |
| TrunkLampLoadStride.ZeroDifferenceEntersTable | trunk/proj_pass/tools/lamp-profiler/loadstride.cxx:65-76 | addresses 0, 16, 32 record stride 16 twice, and their zero difference enters the difference table as (0, 1) |
| TrunkLampLoadStride.LoadStride.constructor | trunk/proj_pass/tools/lamp-profiler/loadstride.cxx:18-27 | the new object is valid and its abstract state is `Init(load_id, exec_count)` |
| TrunkLampLoadStride.LoadStride.UpdateTopStrideValues | trunk/proj_pass/tools/lamp-profiler/loadstride.cxx:32-63 | the holder is promoted on a strictly larger count, and the stride table is refreshed except for stride 0 |
| TrunkLampLoadStride.LoadStride.UpdateTopStrideDifferenceValues | trunk/proj_pass/tools/lamp-profiler/loadstride.cxx:65-89 | the difference table is refreshed with the difference's count; there is no holder and 0 is not skipped |
| TrunkLampLoadStride.LoadStride.AddAddress | trunk/proj_pass/tools/lamp-profiler/loadstride.cxx:91-137 | the new abstract state is `AfterAddress(old state, addr)` |
| TrunkLampLoadStride.LoadStride.AddStride | trunk/proj_pass/tools/lamp-profiler/loadstride.cxx:106-136 | the tail of `addAddress` records the stride as `RecordStride` says |
| TrunkLampLoadStride.LoadStride.AddDifference | trunk/proj_pass/tools/lamp-profiler/loadstride.cxx:126-136 | the difference is appended and counted, the table refreshed, and the zero-difference counter goes up exactly for a zero difference |
| TrunkLampLoadStride.LoadStride.GetNumberUniqueStrides | trunk/proj_pass/tools/lamp-profiler/loadstride.hxx:41-43 | the number of distinct recorded strides, as an `unsigned int` |
| TrunkLampLoadStride.LoadStride.GetStrideExecCount | trunk/proj_pass/tools/lamp-profiler/loadstride.hxx:45-47 | the number of recorded strides, equal to the sum of their counts, as an `unsigned int` |
| TrunkLampLoadStride.LoadStride.GetStrideZeroDifferenceCount | trunk/proj_pass/tools/lamp-profiler/loadstride.hxx:21-23 | the number of times a recorded stride repeated the previous one |
| TrunkLampLoadStride.LoadStride.GetTopStrideValue | trunk/proj_pass/tools/lamp-profiler/loadstride.hxx:29-31 | the holder: (-1, -1) before any stride, afterwards a recorded stride whose count is the largest |
| LampLoadStride.StridesOfAt | proj_pass/tools/lamp-profiler/loadstride.cxx:87-90 | the `i`-th stride of a history is the wrapped difference of addresses `i + 1` and `i` |
| LampLoadStride.Init | proj_pass/tools/lamp-profiler/loadstride.cxx:15-20 | the one-argument constructor leaves an empty history, holder (-1, -1) and zero counters, and the invariant holds |
| LampLoadStride.AfterAddress | proj_pass/tools/lamp-profiler/loadstride.cxx:81-88 | every call appends its address to the history |
| LampLoadStride.AfterAddressPreservesInv | proj_pass/tools/lamp-profiler/loadstride.cxx:81-126 | every call keeps the invariant: exact tallies, the dominant stride in the holder, one difference per stride after the first, and exact zero counters |
| LampLoadStride.RecordStrideKeepsTracked | proj_pass/tools/lamp-profiler/loadstride.cxx:95-125 | recording any stride, zero included, appends it, leaves history and zero-stride counter alone, and keeps the tallies, the holder and the differences exact |
| LampLoadStride.AfterAddressInOrder | proj_pass/tools/lamp-profiler/loadstride.cxx:81-126 | `addAddress` appends the address, counts an exact zero stride, then records the stride, in that order |
| LampLoadStride.ReplayStrides | proj_pass/tools/lamp-profiler/loadstride.cxx:81-126 | after any sequence of calls from a fresh object, the invariant holds and the recorded strides are exactly the strides of the address history |
| LampLoadStride.HistoryLengths | proj_pass/tools/lamp-profiler/loadstride.cxx:82-125 | once an address is seen there are `addresses.size() - 1` strides, and once a stride exists there are `strideValues.size() - 1` differences |
| LampLoadStride.ExactZeroStride | proj_pass/tools/lamp-profiler/loadstride.cxx:90-113 | only a repeated address bumps `strideZeroCount`, and that zero stride is still recorded like any other |
| LampLoadStride.ZeroCountAndSum | proj_pass/tools/lamp-profiler/loadstride.cxx:90-112 | `strideZeroCount` equals the count of stride 0 in the map (0 when absent), and the map's counts sum to `strideValues.size()` |
| LampLoadStride.DifferenceBookkeeping | proj_pass/tools/lamp-profiler/loadstride.cxx:115-125 | the zero-difference counter equals the count of 0 in the difference map (0 when absent), which is the number of repeated strides |
| LampLoadStride.TablesAndHolder | proj_pass/tools/lamp-profiler/loadstride.cxx:25-79 | both tables hold at most four distinct keys, and the holder is a recorded stride with the largest count |
| LampLoadStride.ZeroStrideEntersTable | proj_pass/tools/lamp-profiler/loadstride.cxx:25-40 | unlike the trunk variants, stride 0 reaches the table: addresses 8, 8 make (0, 1) the only table entry and the holder, with `strideZeroCount` 1 |
| LampLoadStride.LoadStride.constructor | proj_pass/tools/lamp-profiler/loadstride.cxx:15-20 | the new object is valid and its abstract state is `Init(load_id)` |
| LampLoadStride.LoadStride.UpdateTopStrideValues | proj_pass/tools/lamp-profiler/loadstride.cxx:25-53 | the holder is promoted on a strictly larger count, then the table is refreshed; 0 is not skipped |
| LampLoadStride.LoadStride.UpdateTopStrideDifferenceValues | proj_pass/tools/lamp-profiler/loadstride.cxx:55-79 | the difference table is refreshed with the difference's count |
| LampLoadStride.LoadStride.AddAddress | proj_pass/tools/lamp-profiler/loadstride.cxx:81-126 | the new abstract state is `AfterAddress(old state, addr)` |
| LampLoadStride.LoadStride.AddStride | proj_pass/tools/lamp-profiler/loadstride.cxx:95-125 | the tail of `addAddress` records every stride as `RecordStride` says |
| LampLoadStride.LoadStride.AddDifference | proj_pass/tools/lamp-profiler/loadstride.cxx:115-125 | the difference is appended and counted, the table refreshed, and the zero-difference counter goes up exactly for a zero difference |
| ProfileText.NatText | proj_pass/tools/stride-profiler/stride_hooks.cxx:87-99 | `operator<<` prints a number as a non-empty run of decimal digits |
| ProfileText.NatTextValue | proj_pass/tools/stride-profiler/stride_hooks.cxx:87-99 | the printed digits of a number have that number as their decimal value |
| ProfileText.SpanDigits | trunk/proj_pass/lib/projpass/StrideLoadProfile.cpp:142-151 | a `%d` conversion reads the longest run of digits: all of the span is digits and the character after it is not |
| ProfileText.SpanDigitsOf | trunk/proj_pass/lib/projpass/StrideLoadProfile.cpp:142-151 | the digit run of printed digits followed by a non-digit ends exactly where the printed digits end |
| ProfileText.SkipSpaces | trunk/proj_pass/lib/projpass/StrideLoadProfile.cpp:144 | a conversion skips leading white space: what is left does not start with a space |
| ProfileText.ScanSkipsSpace | trunk/proj_pass/lib/projpass/StrideLoadProfile.cpp:144 | a space before the next field does not change what the remaining conversions read |
| ProfileText.ScanInts | trunk/proj_pass/lib/projpass/StrideLoadProfile.cpp:142-151 | `sscanf` with `k` conversions yields at most `k` values, stopping at the first conversion that fails |
| ProfileText.ScanIntText | proj_pass/tools/stride-profiler/stride_hooks.cxx:87-99 | one printed field and its trailing space scan back as the same integer, leaving the rest of the line |
| ProfileText.ScanFieldsText | trunk/proj_pass/lib/projpass/StrideLoadProfile.cpp:142-151 | a printed record line scans back as exactly the integers that were printed, all of them |
| ProfileText.FieldsTextChars | proj_pass/tools/stride-profiler/stride_hooks.cxx:87-99 | a record line holds only digits, minus signs and spaces |
| ProfileText.RecordIsNotEnd | trunk/proj_pass/lib/projpass/StrideLoadProfile.cpp:136-138 | the reader's search for `STRIDEPROFILE_END` never matches a record line, so no record stops the loop |
| ProfileText.NewlineAt | trunk/proj_pass/lib/projpass/StrideLoadProfile.cpp:134-135 | `getline` stops at the first newline: the index is a newline or the end, and nothing before it is a newline |
| ProfileText.LinesOfJoin | trunk/proj_pass/lib/projpass/StrideLoadProfile.cpp:134-135 | lines written each followed by `endl` come back from `getline` exactly, when none of them holds a newline |
| StrideHooks.Zeros | proj_pass/tools/stride-profiler/stride_hooks.cxx:97-99 | the padding is `4 - size` zeros, none when the table is full |
| StrideHooks.TopCounts | proj_pass/tools/stride-profiler/stride_hooks.cxx:93-96 | one count per top stride, in table order, each the entry's count |
| StrideHooks.RecordFields | proj_pass/tools/stride-profiler/stride_hooks.cxx:87-99 | a record has the five scalars, one count per top stride and the zero padding up to four |
| StrideHooks.RecordFieldsNine | proj_pass/tools/stride-profiler/stride_hooks.cxx:87-99 | for a profile that keeps its invariant a record has nine fields: distinct strides and recorded strides as `unsigned int`, the dominant stride, each top stride's true number of occurrences, then zeros |
| StrideHooks.Record | proj_pass/tools/stride-profiler/stride_hooks.cxx:84-101 | the loop over the top strides and the padding loop build exactly the record's fields |
| StrideHooks.AfterProfileKeeps | proj_pass/tools/stride-profiler/stride_hooks.cxx:135-146 | a profiling call keeps every tracker's invariant, registers the load once the runtime is initialised and leaves every other load's tracker unchanged |
| StrideHooks.AfterClearKeeps | proj_pass/tools/stride-profiler/stride_hooks.cxx:148-156 | clearing keeps every tracker's invariant and the registered loads, leaves every other load's tracker unchanged, and of the load's own tracker only forgets the last address |
| StrideHooks.FirstProfileSetsExecCount | proj_pass/tools/stride-profiler/stride_hooks.cxx:140-142 | the first call for a load records that call's execution count (as `uint32_t`); later calls keep it |
| StrideHooks.InsertSorted | proj_pass/tools/stride-profiler/stride_hooks.cxx:81-83 | a new key goes into the `std::map` key order: still ascending, one longer, and holding the old keys and the new one |
| StrideHooks.AscendingUnique | proj_pass/tools/stride-profiler/stride_hooks.cxx:81-83 | there is only one ascending order of a set of ids, so the print order is determined by the registered ids |
| StrideHooks.RecordLinesSnoc | proj_pass/tools/stride-profiler/stride_hooks.cxx:81-102 | each iteration of the map loop appends exactly the record line of the next id |
| StrideHooks.StrideRuntime.constructor | proj_pass/tools/stride-profiler/stride_hooks.cxx:113-126 | at program start the runtime is not initialised and no load is registered |
| StrideHooks.StrideRuntime.Init | proj_pass/tools/stride-profiler/stride_hooks.cxx:113-129 | after `Stride_init` the hooks record |
| StrideHooks.StrideRuntime.StrideProfile | proj_pass/tools/stride-profiler/stride_hooks.cxx:135-146 | the registry becomes the old one after the profiling call: unchanged before `Stride_init`, otherwise the load's tracker (created on first use) gets the address |
| StrideHooks.StrideRuntime.ClearAddresses | proj_pass/tools/stride-profiler/stride_hooks.cxx:148-156 | the assertion fails exactly when the runtime is initialised and the load is not registered; otherwise only that load's last address is reset, and before `Stride_init` nothing changes; the registry is `AfterClear` of the old one |
| StrideHooks.StrideRuntime.Print | proj_pass/tools/stride-profiler/stride_hooks.cxx:78-105 | the START line, one record line per registered load in ascending id order, the END line; an empty registry prints only the two markers |
| ProfileRoundTrip.PrintableOfInv | proj_pass/tools/stride-profiler/stride_hooks.cxx:81-99 | every registered tracker that keeps its invariant prints a full record with an `uint32_t` id |
| ProfileRoundTrip.IdSurvivesInt | trunk/proj_pass/lib/projpass/StrideLoadProfile.cpp:144-145 | a `uint32_t` load id read with `%d` into an `int` and used as an `unsigned` key names the same load |
| ProfileRoundTrip.PrintedLinesSurviveFile | trunk/proj_pass/lib/projpass/StrideLoadProfile.cpp:134-135 | the printed profile, written line by line, comes back from `getline` line for line |
| ProfileRoundTrip.PrintedFilesEach | trunk/proj_pass/lib/projpass/StrideLoadProfile.cpp:134-161 | the printed profile is a first line, one record per id that the reader files under that id's load, and a final END line |
| ProfileRoundTrip.ReadKeeps | trunk/proj_pass/lib/projpass/StrideLoadProfile.cpp:135-162 | the reading loop leaves every entry no later record names as it was |
| ProfileRoundTrip.ReadFiles | trunk/proj_pass/lib/projpass/StrideLoadProfile.cpp:135-162 | under each key the reading loop leaves the value of the last record that names it |
| ProfileRoundTrip.ReadAll | trunk/proj_pass/lib/projpass/StrideLoadProfile.cpp:134-162 | the whole read: each record's value stands under its key unless a later record names that key, and all other keys are untouched |
| ProfileRoundTrip.RecordsFiled | trunk/proj_pass/lib/projpass/StrideLoadProfile.cpp:153-161 | with distinct ids and distinct load instructions, every registered load holds its own record and every other load's entry is unchanged |
| ProfileRoundTrip.PrintThenRead | proj_pass/tools/stride-profiler/stride_hooks.cxx:78-105 | the profile file end to end: after the runtime prints its registry and the pass reads it back, each registered load the pass numbered holds exactly the `loadInfo` built from its printed record, and the entry of every load that no record names is unchanged |
| StrideLoadProfile.Loads | trunk/proj_pass/lib/projpass/StrideLoadProfile.cpp:99-102 | the loads of a run of instructions, in order, are no more than the instructions |
| StrideLoadProfile.LoadsAppend | trunk/proj_pass/lib/projpass/StrideLoadProfile.cpp:95-116 | the loads of two runs of instructions are the loads of the first followed by those of the second |
| StrideLoadProfile.Strided | trunk/proj_pass/lib/projpass/StrideLoadProfile.cpp:104-112 | the instructions that get a stride id (loads, stores, calls to unknown or declared functions), in order |
| StrideLoadProfile.NumberAllLoads | trunk/proj_pass/lib/projpass/StrideLoadProfile.cpp:95-116 | after the loop the load counter has advanced by the number of loads modulo 2^32, and `LoadIdToLoadInst` maps each successive id to the next load |
| StrideLoadProfile.NumberAllStrides | trunk/proj_pass/lib/projpass/StrideLoadProfile.cpp:104-112 | after the loop the stride counter has advanced by the number of strided instructions modulo 2^32, and both id maps hold each of them under the next id |
| StrideLoadProfile.NumberAllAssigns | trunk/proj_pass/lib/projpass/StrideLoadProfile.cpp:89-116 | the whole numbering: the `i`-th load gets load id `start + i` and the `i`-th strided instruction stride id `start + i`, both modulo 2^32 |
| StrideLoadProfile.FreshIdsCountFromZero | trunk/proj_pass/lib/projpass/StrideLoadProfile.cpp:89-105 | from the initial `(unsigned)-1` with empty maps, ids are 0, 1, 2, … in order and no other id is used |
| StrideLoadProfile.FreshRefsInvert | trunk/proj_pass/lib/projpass/StrideLoadProfile.cpp:105-111 | from a fresh start `InstToIdMap` maps each of distinct instructions back to its position, and nothing else is in it |
| StrideLoadProfile.FreshMapsAreInverse | trunk/proj_pass/lib/projpass/StrideLoadProfile.cpp:104-112 | after a fresh numbering `IdToInstMap` and `InstToIdMap` are inverse to each other in both directions |
| StrideLoadProfile.InsertDesc | trunk/proj_pass/lib/projpass/StrideLoadProfile.cpp:159 | inserting into a non-increasing sequence keeps it non-increasing and adds exactly that value |
| StrideLoadProfile.SortDesc | trunk/proj_pass/lib/projpass/StrideLoadProfile.cpp:156-159 | the frequencies end up in non-increasing order and are a permutation of those read |
| StrideLoadProfile.AllU32 | trunk/proj_pass/lib/projpass/StrideLoadProfile.cpp:141-150 | the frequencies are stored as `unsigned int`: each value wrapped to 32 bits, none lost |
| StrideLoadProfile.FirstLineIgnored | trunk/proj_pass/lib/projpass/StrideLoadProfile.cpp:134 | the first line of the file is discarded whatever it holds |
| StrideLoadProfile.ReadFromShift | trunk/proj_pass/lib/projpass/StrideLoadProfile.cpp:135-162 | the line loop never looks back at the discarded first line |
| StrideLoadProfile.StopsAtEnd | trunk/proj_pass/lib/projpass/StrideLoadProfile.cpp:136-138 | nothing after the first line containing `STRIDEPROFILE_END` is read |
| StrideLoadProfile.RecordReadBack | trunk/proj_pass/lib/projpass/StrideLoadProfile.cpp:140-161 | a printed record line is filed under the load of its id as the `loadInfo` of its fields as `int`s, the frequencies as sorted `unsigned int`s; the fourth field lands in `num_zero_diff` |
| StrideLoadProfile.LdStCallCounter.constructor | trunk/proj_pass/lib/projpass/StrideLoadProfile.cpp:46-58 | before the pass first runs, the count-once flag is clear and no load is counted |
| StrideLoadProfile.LdStCallCounter.RunOnModule | trunk/proj_pass/lib/projpass/StrideLoadProfile.cpp:64-82 | it never reports a change; the first run adds the loads of the defined functions to the counter modulo 2^32 and sets the flag; later runs change nothing |
| StrideLoadProfile.WrapU32Step | trunk/proj_pass/lib/projpass/StrideLoadProfile.cpp:74 | incrementing an `unsigned` counter is wrapping the exact count |
| StrideLoadProfile.StrideLoadProfile.constructor | trunk/proj_pass/lib/projpass/StrideLoadProfile.cpp:89-90 | both counters start at `(unsigned)-1`, all maps empty |
| StrideLoadProfile.StrideLoadProfile.Number | trunk/proj_pass/lib/projpass/StrideLoadProfile.cpp:93-116 | the numbering loop leaves the counters and the three maps as `NumberAll` of the old state over the defined functions' instructions |
| StrideLoadProfile.StrideLoadProfile.Read | trunk/proj_pass/lib/projpass/StrideLoadProfile.cpp:117-165 | returns false and files nothing when the file is missing; otherwise returns true and `LoadToLoadInfo` is the old map updated by the records read up to the END line |
| StrideProfiling.IsLoadDynamic | trunk/proj_pass/lib/projpass/StrideProfiling.cpp:102-122 | the search loop returns exactly `Dynamic`: the load is in some top-level loop, and the first such loop does not find its operands invariant |
| StrideProfiling.FirstLoopDecides | trunk/proj_pass/lib/projpass/StrideProfiling.cpp:107-121 | the first loop containing the load decides, in both directions: dynamic if and only if that loop does not find the operands invariant |
| StrideProfiling.ProfileCounts | trunk/proj_pass/lib/projpass/StrideProfiling.cpp:141-150 | the inline computation yields the skip count `N1` and profile count `N2` of the execution count |
| StrideProfiling.N2Regimes | trunk/proj_pass/lib/projpass/StrideProfiling.cpp:144-146 | `N2` lies in 0..30: the whole count below 20, a twentieth of it from 20 to 599, and 30 from 600 on |
| StrideProfiling.N1Regimes | trunk/proj_pass/lib/projpass/StrideProfiling.cpp:147-150 | `N1` is never negative: 0 below 20, three twentieths from 20 to 599, and from 600 on `N1 + N2` is three twentieths plus one twentieth |
| StrideProfiling.HotLoadRounds | trunk/proj_pass/lib/projpass/StrideProfiling.cpp:134-150 | every load with a count of at least 10000 profiles 30 executions per round and skips at least 1970 |
| StrideProfiling.InstrumentedExactly | trunk/proj_pass/lib/projpass/StrideProfiling.cpp:129-150 | every emitted guard is for a dynamic load with count at least 10000, carries the id `start + position` modulo 2^32 and its `N1`/`N2`; every such load gets its guard |
| StrideProfiling.BlockCountsCover | trunk/proj_pass/lib/projpass/StrideProfiling.cpp:311-320 | after a block every one of its loads has the block's count, every other count is kept, and counts below 2^31 stay below it |
| StrideProfiling.InstrumentedFit | trunk/proj_pass/lib/projpass/StrideProfiling.cpp:272-276 | when the hot loads inside a loop have counts below 2^31, every guard's count, the one cast with `(int)exec_count`, fits an `int` |
| StrideProfiling.FnCountsCover | trunk/proj_pass/lib/projpass/StrideProfiling.cpp:308-321 | after a function every one of its loads has an execution count and earlier counts stay present; with every block count below 2^31 so is every count |
| StrideProfiling.FnLoadsAreLoads | trunk/proj_pass/lib/projpass/StrideProfiling.cpp:308-321 | this pass collects a function's loads in the same order as the numbering loop of `StrideLoadProfile` visits them |
| StrideProfiling.StrideProfiler.constructor | trunk/proj_pass/lib/projpass/StrideProfiling.cpp:71-72 | both static counters start at `(unsigned)-1` and the load list, count map and guards are empty |
| StrideProfiling.StrideProfiler.CollectBlock | trunk/proj_pass/lib/projpass/StrideProfiling.cpp:311-320 | the block's loads are appended in order, the instruction counter advances by their number modulo 2^32, and each gets the block's count |
| StrideProfiling.StrideProfiler.Collect | trunk/proj_pass/lib/projpass/StrideProfiling.cpp:308-321 | the function's loads are appended in order, the instruction counter advances by their number modulo 2^32, and each gets its block's count |
| StrideProfiling.StrideProfiler.DoStrides | trunk/proj_pass/lib/projpass/StrideProfiling.cpp:124-287 | the load counter advances by the length of the whole list modulo 2^32 and the emitted guards are `Instrumented` of the list from the old counter |
| StrideProfiling.StrideProfiler.RunOnFunction | trunk/proj_pass/lib/projpass/StrideProfiling.cpp:289-326 | as written: the function's loads are added to the global list and the whole list, earlier functions' loads included, is numbered and instrumented again; only the hot loads inside a loop need counts below 2^31, and every guard's count fits an `int` |
| StrideProfiling.StrideProfiler.RunOnFunctionCorrected | trunk/proj_pass/lib/projpass/StrideProfiling.cpp:289-326 | with the list emptied first, only this function's loads are numbered and instrumented, with the same count bound on the hot loads |
| StrideProfiling.CorrectedIdsArePositions | trunk/proj_pass/lib/projpass/StrideProfiling.cpp:129-132 | with the corrected pass the `i`-th load of the module gets id `i`, the id the reader gives it |
| StrideProfiling.AsWrittenIdsDiverge | trunk/proj_pass/lib/projpass/StrideProfiling.cpp:318-323 | as written, with one load in each of two functions the second load gets id 2 where the reader gives it 1 |
| StrideProfiling.Step | trunk/proj_pass/lib/projpass/StrideProfiling.cpp:186-260 | one guarded execution as emitted: the counters stay 32-bit and `number_profiled` is only ever set to 0 |
| StrideProfiling.ProfiledStaysZero | trunk/proj_pass/lib/projpass/StrideProfiling.cpp:224-230 | as emitted, `number_profiled` is 0 after any number of executions |
| StrideProfiling.SkipThenProfile | trunk/proj_pass/lib/projpass/StrideProfiling.cpp:186-260 | as emitted, with `N2` not 0, the first `N1` executions skip and every later one (until the skip counter wraps) is profiled: no reset ever comes |
| StrideProfiling.ZeroN2Resets | trunk/proj_pass/lib/projpass/StrideProfiling.cpp:186-235 | with `N2` equal to 0 the first execution after the skips resets and the next one skips again |
| StrideProfiling.CorrectedRound | trunk/proj_pass/lib/projpass/StrideProfiling.cpp:186-260 | with `strideBB` counting profiled executions, a round is `N1` skips, `N2` profiled executions and one reset, with the counters at each step |
| StrideProfiling.CorrectedRoundsRepeat | trunk/proj_pass/lib/projpass/StrideProfiling.cpp:224-235 | corrected, the reset brings the counters back to the start: the state repeats every `N1 + N2 + 1` executions |
| StrideProfiling.CorrectedSchedule | trunk/proj_pass/lib/projpass/StrideProfiling.cpp:186-260 | corrected, execution `j` of every round does what execution `j` of the first round does |
| StrideProfiling.GuardedLoad.constructor | trunk/proj_pass/lib/projpass/StrideProfiling.cpp:155-171 | both guard globals start at 0 |
| StrideProfiling.GuardedLoad.Execute | trunk/proj_pass/lib/projpass/StrideProfiling.cpp:173-284 | the emitted blocks update the counters as `Step`; a skip leaves the runtime alone, a profiled execution passes the address to `Stride_StrideProfile`, and a reset calls `Stride_StrideProfile_ClearAddresses`, leaving the registry `AfterClear` of the old one (only the load's last address forgotten, nothing before `Stride_init`) and reporting the runtime's assertion failure exactly when the load is unregistered; only a profiled execution can change the registered ids |
| StrideProfiling.GuardedLoad.ExecuteCorrected | trunk/proj_pass/lib/projpass/StrideProfiling.cpp:173-284 | the same blocks with `strideBB` incrementing `number_profiled`: the counters as `StepCorrected`, the runtime as in `Execute` |
| StrideProfiling.AfterAllocas | trunk/proj_pass/lib/projpass/StrideProfiling.cpp:359-362 | the insertion point is the first non-alloca of the entry block: everything before it is an alloca |
| StrideProfiling.StrideInit | trunk/proj_pass/lib/projpass/StrideProfiling.cpp:351-369 | reports a change exactly when some function is named `main`; then only the first such function changes, gaining the `Stride_init` call right after its leading allocas; otherwise the module is unchanged |
| StridePrefetch.TopSumExact | trunk/proj_pass/lib/projpass/strideprefetch.cpp:239-241 | with non-negative frequencies whose total fits in an `int`, the running `int` sum is the true sum |
| StridePrefetch.SumTopFreqs | trunk/proj_pass/lib/projpass/strideprefetch.cpp:239-241 | the accumulation loop computes the running sum of the top frequencies, each partial sum stored in an `int` |
| StridePrefetch.Classify | trunk/proj_pass/lib/projpass/strideprefetch.cpp:247-261 | a load whose profile recorded no stride goes into no set; otherwise the category is that of the chain as written |
| StridePrefetch.NoSetForConsistentProfile | trunk/proj_pass/lib/projpass/strideprefetch.cpp:236-261 | when the top frequency and the sum of the top frequencies are at most the number of recorded strides, every quotient is at most 1 and no load is put in any set |
| StridePrefetch.NoWsstUnderHeader | trunk/proj_pass/lib/projpass/strideprefetch.cpp:247-258 | the WSST test repeats the SSST quotient, so with a WSST threshold no lower than the SSST one (both 10 in the header) no load is ever classified WSST |
| StridePrefetch.Decide | trunk/proj_pass/lib/projpass/strideprefetch.cpp:217-262 | a load goes into a set only when its block ran more than 10000 times, its trip count (block count over preheader count, truncated toward zero, for any non-zero preheader count) exceeds 100 and its profile recorded strides |
| StridePrefetch.MissingCountPlacesNothing | trunk/proj_pass/lib/projpass/strideprefetch.cpp:225-234 | a negative block or preheader count (ProfileInfo's -1 for a missing count) never places a load: the FT guard or, with a non-negative block count over a negative preheader count, a trip count of at most 0 stops it |
| StridePrefetch.ProfileDividesByZero | trunk/proj_pass/lib/projpass/strideprefetch.cpp:226-247 | as written, a load with block count 10001, a preheader count of 1 and a profile with `exec_count` 0 passes both guards and reaches the division by `exec_count` |
| StridePrefetch.SortedStep | trunk/proj_pass/lib/projpass/strideprefetch.cpp:217-262 | one more `profile` call on a load not seen before keeps the sets disjoint, each visited load in the set `Decide` chose, and records its trip count |
| StridePrefetch.ProfileAllSorts | trunk/proj_pass/lib/projpass/strideprefetch.cpp:121-123 | from empty sets, profiling distinct loads leaves the sets disjoint, holding only visited loads, each in exactly the set `Decide` chose, with every visited load's trip count recorded, rejected or not |
| StridePrefetch.WalkStaysInLoop | trunk/proj_pass/lib/projpass/strideprefetch.cpp:156-178 | every block the walk scans is in the loop and in no sub-loop |
| StridePrefetch.HeadLoads | trunk/proj_pass/lib/projpass/strideprefetch.cpp:163-173 | a node's own block contributes its profiled loads exactly when it is in the loop and no sub-loop |
| StridePrefetch.NodeProfiledIsWalk | trunk/proj_pass/lib/projpass/strideprefetch.cpp:156-178 | the recursive walk over the dominator tree profiles exactly the loads of the walked blocks, in walk order |
| StridePrefetch.VisitsInAreLoads | trunk/proj_pass/lib/projpass/strideprefetch.cpp:165-171 | every profiled instruction is a load of its block with a profile record, carried with that record and its block's count |
| StridePrefetch.LoadsOfAreLoads | trunk/proj_pass/lib/projpass/strideprefetch.cpp:156-178 | every load the walk profiles is a load of some walked block, with its record and that block's count |
| StridePrefetch.DistanceTrunc | trunk/proj_pass/lib/projpass/strideprefetch.cpp:400-403 | for a load in a set, the truncated distance K is `min(trip_count / 100, 8)`, between 1 and 8 |
| StridePrefetch.CeilLog2 | trunk/proj_pass/lib/projpass/strideprefetch.cpp:313-324 | the least exponent whose power of two is at least `k` |
| StridePrefetch.CeilLog2Unique | trunk/proj_pass/lib/projpass/strideprefetch.cpp:313-324 | only one exponent has that property |
| StridePrefetch.RoundUpPow2 | trunk/proj_pass/lib/projpass/strideprefetch.cpp:313-321 | decrement, smear the top bit, increment: a power of two `r` with `r / 2 < k <= r` |
| StridePrefetch.RoundUpExponent | trunk/proj_pass/lib/projpass/strideprefetch.cpp:313-324 | the shift amount is the exponent of the least power of two at least `k` |
| StridePrefetch.ShiftIsCeilLog2 | trunk/proj_pass/lib/projpass/strideprefetch.cpp:313-324 | for the distances 1 to 8 the shift the bit trick yields is `CeilLog2` of the distance |
| StridePrefetch.SsstTargetIsKS | trunk/proj_pass/lib/projpass/strideprefetch.cpp:298-311 | when the address and the sum fit in 32 bits, the SSST prefetch address is the load address plus K times the dominant stride |
| StridePrefetch.InsertLoadFollowsSet | trunk/proj_pass/lib/projpass/strideprefetch.cpp:396-420 | with disjoint sets each load in a set gets that set's prefetch whatever the dispatch order; K lies in 1..8 and the PMST/WSST shift is at most 3 |
| StridePrefetch.StridePrefetch.constructor | trunk/proj_pass/lib/projpass/strideprefetch.cpp:117-123 | the three sets and the trip counts start empty |
| StridePrefetch.StridePrefetch.Profile | trunk/proj_pass/lib/projpass/strideprefetch.cpp:217-262 | `profile` records the trip count, the truncated quotient of the block and preheader counts (negative when the preheader count is missing), and adds the load to the set `Decide` chose, leaving the rest |
| StridePrefetch.StridePrefetch.ProfileBlock | trunk/proj_pass/lib/projpass/strideprefetch.cpp:165-171 | the instruction loop profiles the block's loads that have a record, in order |
| StridePrefetch.StridePrefetch.LoopOver | trunk/proj_pass/lib/projpass/strideprefetch.cpp:156-178 | `loopOver` leaves the state `NodeProfiled` of the old one: the node's block if in the loop and no sub-loop, then the children; a block outside the loop ends the walk below it |
| StridePrefetch.StridePrefetch.VisitChildren | trunk/proj_pass/lib/projpass/strideprefetch.cpp:174-177 | the children loop profiles each child's subtree in order |
| StridePrefetch.StridePrefetch.RunOnLoop | trunk/proj_pass/lib/projpass/strideprefetch.cpp:117-146 | for any non-zero preheader count, including a missing one (-1), `runOnLoop` empties the sets, profiles the loads of the walk from the header, leaves the sets disjoint and within the profiled loads, and emits exactly the prefetch of each load in a set |
| LampHooks.PackRoundTrip | proj_pass/tools/lamp-profiler/lamp_hooks.cxx:47-53 | a stamp whose fields fit (20-bit instruction, 44-bit time) packs into one unsigned 64-bit word and unpacks to itself |
| LampHooks.PackedEqualityIsFieldEquality | proj_pass/tools/lamp-profiler/lamp_hooks.cxx:55-57 | comparing packed words is, on fitting stamps, exactly equality of both fields, in both directions |
| LampHooks.FormTimestamp | proj_pass/tools/lamp-profiler/lamp_hooks.cxx:371-386 | aborts exactly when the time exceeds 2^44 - 1 or the instruction id exceeds 2^20 - 1; otherwise the stamp carries both unchanged |
| LampHooks.TimeAfter | proj_pass/tools/lamp-profiler/lamp_hooks.cxx:213 | the time stays an unsigned 64-bit value |
| LampHooks.TimeCountsIterations | proj_pass/tools/lamp-profiler/lamp_hooks.cxx:516-518 | time starts at 1 and rises by exactly one per iteration, so a store aborts exactly from the iteration that reaches 2^44 on |
| LampHooks.RoundsStep | proj_pass/tools/lamp-profiler/lamp_hooks.cxx:173-176 | one round of the granularity loop clears the next low bit of the mask and moves the counter to the next bit |
| LampHooks.RoundsExit | proj_pass/tools/lamp-profiler/lamp_hooks.cxx:173-176 | when the loop stops the mask and shift describe the granularity |
| LampHooks.Granularity | proj_pass/tools/lamp-profiler/lamp_hooks.cxx:170-176 | as written (32-bit counter), for a granularity up to 2^31 the loop ends with the mask and shift of the granularity and a shift of at most 31 |
| LampHooks.GranularityLoopNeverExits | proj_pass/tools/lamp-profiler/lamp_hooks.cxx:173 | for a granularity above 2^31 the 32-bit counter is below it after any number of rounds: the loop never ends |
| LampHooks.GranularityWide | proj_pass/tools/lamp-profiler/lamp_hooks.cxx:170-176 | with a 64-bit counter the loop ends with the mask and shift of the granularity for every granularity up to 2^63 |
| LampHooks.PowerGranularity | proj_pass/tools/lamp-profiler/lamp_hooks.cxx:170-176 | for a granularity 2^k the shift is k and the mask is all ones with exactly the low k bits cleared |
| LampHooks.ByteStamps | proj_pass/tools/lamp-profiler/lamp_hooks.cxx:260-262 | the stamps of the accessed bytes, one per byte, in address order |
| LampHooks.ProfiledDeduplicates | proj_pass/tools/lamp-profiler/lamp_hooks.cxx:260-290 | no two consecutive recorded stamps are equal, at most one per byte is recorded, and a stamp is recorded if and only if some byte carries it |
| LampHooks.ProfiledUniform | proj_pass/tools/lamp-profiler/lamp_hooks.cxx:260-290 | bytes that all carry the same stamp give exactly one dependence, on that stamp |
| LampHooks.Deps | proj_pass/tools/lamp-profiler/lamp_hooks.cxx:277-281 | one dependence per recorded stamp |
| LampHooks.StampRangeSpec | proj_pass/tools/lamp-profiler/lamp_hooks.cxx:404-407 | a store sets every byte of its range to its stamp and leaves every other byte as it was |
| LampHooks.UnalignedStoreStampsRange | proj_pass/tools/lamp-profiler/lamp_hooks.cxx:412-417 | a store split into single bytes stamps the same bytes with the same stamp |
| LampHooks.StoreThenLoad | proj_pass/tools/lamp-profiler/lamp_hooks.cxx:311-323 | a flow profile right after a store of the same bytes records exactly one dependence, on that store |
| LampHooks.UnalignedLoadPerByte | proj_pass/tools/lamp-profiler/lamp_hooks.cxx:325-330 | a load split into single bytes records the store once per byte and changes no stamp |
| LampHooks.InitParams | proj_pass/tools/lamp-profiler/lamp_hooks.cxx:170-194 | the parameter part of `LAMP_init` (64-bit counter) sets the granularity mask and shift and the switches as the flags and environment say |
| LampHooks.Switches | proj_pass/tools/lamp-profiler/lamp_hooks.cxx:178-194 | each switch is on exactly when its flag bit or its environment variable is set; output profiling turns flow profiling off |
| LampHooks.LampRuntime.constructor | proj_pass/tools/lamp-profiler/lamp_hooks.cxx:43-45 | at program start nothing is initialised, stamped or profiled and every counter is 0 |
| LampHooks.LampRuntime.Init | proj_pass/tools/lamp-profiler/lamp_hooks.cxx:156-224 | aborts, changing nothing, exactly when `num_instrs` is at least 2^20 - 1; otherwise initialised with time 1, zero counters and the parameters |
| LampHooks.LampRuntime.LoopIterationBegin | proj_pass/tools/lamp-profiler/lamp_hooks.cxx:516-520 | time advances by one, modulo 2^64 |
| LampHooks.LampRuntime.MemoryProfile | proj_pass/tools/lamp-profiler/lamp_hooks.cxx:252-293 | appends one dependence per change of stamp across the accessed bytes, skipping unstamped bytes |
| LampHooks.LampRuntime.StampBytes | proj_pass/tools/lamp-profiler/lamp_hooks.cxx:404-407 | every byte of the access gets the stamp, and nothing else changes |
| LampHooks.LampRuntime.AlignedLoadHook | proj_pass/tools/lamp-profiler/lamp_hooks.cxx:310-323 | nothing before `LAMP_init`; aborts exactly for an instruction id beyond the page cache; otherwise a flow profile when flow dependences are profiled |
| LampHooks.LampRuntime.UnalignedLoadHook | proj_pass/tools/lamp-profiler/lamp_hooks.cxx:325-330 | one single-byte load per byte at consecutive addresses |
| LampHooks.LampRuntime.Load | proj_pass/tools/lamp-profiler/lamp_hooks.cxx:332-341 | `dyn_loads` is incremented, before `LAMP_init` too, and the access is aligned or byte-split; before `LAMP_init` no shadow state changes |
| LampHooks.LampRuntime.AlignedStoreHook | proj_pass/tools/lamp-profiler/lamp_hooks.cxx:388-410 | nothing before `LAMP_init`; aborts exactly on a page cache miss or a stamp that does not fit; otherwise an output profile when enabled, then every byte stamped |
| LampHooks.LampRuntime.UnalignedStoreHook | proj_pass/tools/lamp-profiler/lamp_hooks.cxx:412-417 | one single-byte store per byte at consecutive addresses, all with the same stamp |
| LampHooks.LampRuntime.Store | proj_pass/tools/lamp-profiler/lamp_hooks.cxx:419-439 | `dyn_stores` is incremented; a silent store (when silent stores are profiled) changes no stamp; otherwise an aligned or byte-split store |
| LampHooks.LampRuntime.StrideProfile | proj_pass/tools/lamp-profiler/lamp_hooks.cxx:295-308 | nothing before `LAMP_init`; otherwise only the instruction's address history gets the address |
| LampHooks.StrideProfileHandsAddress | proj_pass/tools/lamp-profiler/lamp_hooks.cxx:302-307 | the instruction's `LoadStride` is the one it had (a fresh one on the first call) handed the address, and every other profile is as it was |
| LicmIr.IsNotUsedInLoop | proj_pass/lib/projpass/_myLICM.cpp:897-911 | true exactly when no user is in the loop, a PHI user counting only through incoming values from blocks in the loop |
| LicmIr.IsSafeToExecuteUnconditionally | proj_pass/lib/projpass/_myLICM.cpp:1055-1080 | true exactly when the instruction cannot trap, sits in the loop header, or its block dominates every exit block |
| LicmIr.CanSinkOrHoist | proj_pass/lib/projpass/_myLICM.cpp:843-891 | accepts only loads, calls and the fixed list of kinds: a load only if not volatile, a call only if it at most reads memory; every listed kind is accepted |
| LicmIr.CanSinkOrHoistMemory | proj_pass/lib/projpass/_myLICM.cpp:845-884 | a load is refused exactly when volatile or when it may read memory the loop writes (and is not constant memory); a call exactly when it may write memory, or reads memory while some alias set of the loop is modified |
| LicmIr.CheckOperands | proj_pass/lib/projpass/_myLICM.cpp:771-800 | true exactly when the instruction is safe, not a store, its kind is on the list, and every instruction operand is outside the loop or already chosen; with `AsWritten` an in-loop non-load whose own operands are loop-invariant is passed over, as the source does, and with `Corrected` it is not |
| LicmIr.CheckOperandsStricter | proj_pass/lib/projpass/_myLICM.cpp:787-789 | the corrected check accepts only what the written one accepts, and they differ only on an operand the written one skips |
| LicmIr.Dominated | proj_pass/lib/projpass/_myLICM.cpp:975-1007 | the exit blocks the instruction's block dominates, in order; all of them when it dominates every exit |
| LicmIr.SingleExitSink | proj_pass/lib/projpass/_myLICM.cpp:929-953 | the single-exit special case agrees with the general rule: move to the exit when the block dominates it, otherwise delete |
| LicmHoist.AppendAppend | proj_pass/lib/projpass/_myLICM.cpp:755-765 | two appends to one list are one append of both |
| LicmHoist.ReverseDepsFromOperands | proj_pass/lib/projpass/_myLICM.cpp:748-768 | every entry of an instruction's list comes from one of its operands, and everything each operand contributes (a chosen load, or that instruction's own list) is on it |
| LicmHoist.ChosenOperandGivesDeps | proj_pass/lib/projpass/_myLICM.cpp:748-768 | a non-load with a chosen in-loop operand gets a non-empty list |
| LicmHoist.NewDepsBefore | proj_pass/lib/projpass/_myLICM.cpp:748-768 | the list of a new non-load names only loads chosen before it |
| LicmHoist.ChooseConsistent | proj_pass/lib/projpass/_myLICM.cpp:728-733 | choosing one more instruction, with a list of earlier loads if it is not a load, keeps the bookkeeping consistent |
| LicmHoist.VisitConsistent | proj_pass/lib/projpass/_myLICM.cpp:699-735 | one iteration of the `HoistRegion` loop, with either operand test, keeps the bookkeeping consistent and chooses at most that instruction |
| LicmHoist.VisitClonable | proj_pass/lib/projpass/_myLICM.cpp:723-734 | with the corrected operand test, one iteration keeps every chosen non-load clonable, that is with a non-empty list of loads |
| LicmHoist.VisitAllConsistent | proj_pass/lib/projpass/_myLICM.cpp:699-741 | visiting distinct instructions keeps the bookkeeping consistent and chooses only visited instructions, with either operand test; with the corrected test it also stays clonable |
| LicmHoist.VisitAllKeepsOthers | proj_pass/lib/projpass/_myLICM.cpp:704-722 | a visit removes at most the visited instruction from the loop |
| LicmHoist.VisitStoresAndCalls | proj_pass/lib/projpass/_myLICM.cpp:716-719 | a live store is appended to `storeList`, a live call sets `callInstExists`, and a folded instruction does neither |
| LicmHoist.VisitAllStores | proj_pass/lib/projpass/_myLICM.cpp:718-719 | visiting distinct live instructions appends exactly their stores to `storeList`, which is never emptied |
| LicmHoist.VisitAllCalls | proj_pass/lib/projpass/_myLICM.cpp:716-717 | `callInstExists` is set exactly when one of the visited live instructions is a call |
| LicmHoist.AsWrittenChoosesUnclonable | proj_pass/lib/projpass/_myLICM.cpp:787-789 | as written, an addition whose operand is an in-loop PHI with invariant operands passes `checkOperands` with an empty list, so no redo block would hold a clone of it; the corrected check refuses it |
| LicmHoist.AsWrittenWalkUnclonable | proj_pass/lib/projpass/_myLICM.cpp:699-741 | walking that loop's header with the operand test as written chooses the addition and leaves the bookkeeping not clonable; with the corrected test nothing is chosen |
| LicmRedo.Loads | proj_pass/lib/projpass/_myLICM.cpp:429-446 | the chosen loads, in order, exactly the loads among the chosen instructions |
| LicmRedo.FlagMapOnePerLoad | proj_pass/lib/projpass/_myLICM.cpp:429-446 | distinct loads get one flag slot each, the j-th load slot `n0 + j`, and nothing else gets one |
| LicmRedo.BlocksOfExact | proj_pass/lib/projpass/_myLICM.cpp:362-370 | when every listed load has a redo block, there is one block per entry, the j-th being the j-th load's |
| LicmRedo.DepsHaveBlocks | proj_pass/lib/projpass/_myLICM.cpp:255-278 | every load on the list of the k-th chosen instruction was chosen earlier and so already has its redo block |
| LicmRedo.RedoAllResult | proj_pass/lib/projpass/_myLICM.cpp:255-380 | after the redo blocks are built: every chosen instruction is in the preheader; each chosen load has one clone in its own redo block, guarded by its own flag; each other chosen instruction has one clone per load on its list, in that load's redo block; with every non-load's list non-empty, every chosen instruction has a clone |
| LicmRedo.ChecksForCover | proj_pass/lib/projpass/_myLICM.cpp:447-493 | before every listed store there is a check for every chosen load of the same pointer type, on that load's flag, and no other check |
| LicmGuard.RunWithoutClears | proj_pass/lib/projpass/_myLICM.cpp:279-321 | between two clears the flag only rises, and it is set exactly when it was set before or a guarded store hit the load's address |
| LicmGuard.RedoIffAliasSinceClear | proj_pass/lib/projpass/_myLICM.cpp:447-493 | at the load's home block the redo block is taken if and only if a guarded store wrote the load's address since the flag was last cleared |
| LicmGuard.FlagStaysSet | proj_pass/lib/projpass/_myLICM.cpp:279-321 | a set flag stays set until the preheader or the redo block clears it |
| LicmPass.DominatedExits | proj_pass/lib/projpass/_myLICM.cpp:978-1016 | the walk over several exit blocks places the instruction in exactly the exits its block dominates, in order |
| LicmPass.Pass.constructor | proj_pass/lib/projpass/_myLICM.cpp:542-560 | the pass starts with nothing chosen, no flags, no redo blocks and no checks |
| LicmPass.Pass.ConditionalHoist | proj_pass/lib/projpass/_myLICM.cpp:802-838 | the result is `ConditionalHoistSpec` (operands checked with the given operand test, not volatile, block count over 1000, dependence fraction below 0.05), and `NumChosen` rises by one exactly when it is true |
| LicmPass.Pass.AddToReverseMap | proj_pass/lib/projpass/_myLICM.cpp:743-769 | the instruction's list gains exactly `ReverseDeps` of its operands |
| LicmPass.Pass.VisitInst | proj_pass/lib/projpass/_myLICM.cpp:699-735 | one iteration of the instruction loop leaves the pass state `Visit` of the old one |
| LicmPass.Pass.ChooseInst | proj_pass/lib/projpass/_myLICM.cpp:723-734 | the state is `Choose` of the old one: a load is chosen exactly when `conditionalHoist` accepts it, any instruction when it is safe, movable and passes `checkOperands`, both with the given operand test; a chosen one joins `hoisted` and `hoistedOrder`, and a chosen non-load gets its list |
| LicmPass.Pass.HoistBlock | proj_pass/lib/projpass/_myLICM.cpp:699-736 | the loop over a block's instructions leaves the state `VisitAll` of them |
| LicmPass.Pass.HoistRegion | proj_pass/lib/projpass/_myLICM.cpp:690-741 | the walk over the dominator tree visits exactly the instructions of `Region`, in order |
| LicmPass.Pass.HoistChildren | proj_pass/lib/projpass/_myLICM.cpp:738-740 | the children loop visits each child's region in order |
| LicmPass.Pass.Sink | proj_pass/lib/projpass/_myLICM.cpp:919-1034 | the instruction is placed in exactly the unique exit blocks its block dominates, moving to the first of them, and is deleted when there is none |
| LicmPass.Pass.MakeFlags | proj_pass/lib/projpass/_myLICM.cpp:429-446 | a fresh flag slot per chosen load, in order, each cleared in the preheader |
| LicmPass.Pass.InsertIntoRedo | proj_pass/lib/projpass/_myLICM.cpp:322-380 | nothing for an instruction already handled; otherwise it moves to the preheader and is cloned into its own redo block (a load) or that of each load on its list |
| LicmPass.Pass.NewRedo | proj_pass/lib/projpass/_myLICM.cpp:279-321 | a new redo block for a load, guarded by its flag, with the load inserted into it |
| LicmPass.Pass.CreateRedoBlocks | proj_pass/lib/projpass/_myLICM.cpp:255-278 | in chosen order, a new redo block for each load and an insertion for everything else: the state is `RedoAll` of the old one |
| LicmPass.Pass.AddAliasChecks | proj_pass/lib/projpass/_myLICM.cpp:447-493 | before every listed store, a check for each chosen load whose address has the store's pointer type |
| LicmPass.Pass.AddChecksForStore | proj_pass/lib/projpass/_myLICM.cpp:471-490 | the checks before one store: one per chosen load whose address has the store's pointer type, in chosen order, on that load's flag |
| LicmPass.Pass.FlagsAndRedo | proj_pass/lib/projpass/_myLICM.cpp:610-611 | one fresh flag slot per chosen load, cleared in the preheader, then the redo blocks of `RedoAll` over those flags; every chosen instruction gets a clone when every chosen non-load has a list |
| LicmPass.Pass.Speculate | proj_pass/lib/projpass/_myLICM.cpp:610-612 | the flags, redo blocks and alias checks are built, and every chosen instruction has a clone when every chosen non-load is clonable |
| LicmPass.Pass.ResetAndHoist | proj_pass/lib/projpass/_myLICM.cpp:551-608 | the per-loop state is reset (not `storeList`) and the walk from the header leaves consistent bookkeeping (clonable too with the corrected operand test), the region's stores appended, and the call flag set exactly when the region has a call |
| LicmPass.Pass.SpeculateUnlessCall | proj_pass/lib/projpass/_myLICM.cpp:609-614 | after a call nothing is built; otherwise the speculation is done; `callInstExists` is reset either way |
| LicmPass.Pass.RunOnLoop | proj_pass/lib/projpass/_myLICM.cpp:542-636 | the whole loop, with the source's operand test or the corrected one: the hoisting result, the stores and the call flag as above; with no call each load gets a flag and every store its alias checks, and every chosen instruction gets a clone when the bookkeeping is clonable, which the corrected test guarantees and the test as written does not (the source asserts it at line 396) |

## Left out

- The LLVM IR itself: instructions are ids with a kind, operands and a home block, and loop membership, dominance, exit blocks, alias sets and block execution counts are given as relations and maps. The emitters that build new instructions are modelled by the records they leave (flag slots, redo blocks, clones, alias checks).
- `sink`: only where the instruction goes (the exit blocks it is placed in, or deleted) is modelled; the `SinkRegion` walk over the dominator tree is not.
- `doSSAFixUp` and the `SSAUpdater` rewrite of uses: only the "no clones" assertion it makes is modelled, as the clone list every chosen instruction gets.
- The `AliasSetTracker`, the alias-set merge of sub-loops and `PromoteAliasSet`: their answers are inputs (`invalidatedByLoop`, `anyModSet`).
- `ConstantFoldInstruction`: whether an instruction folds away is an input per instruction.
- `buildLampMap` and the LAMP dependence file it parses: the dependence fraction per load is an input.
- The LLVM statistics counters other than `NumChosen`, and all diagnostic output to `errs()`.
- LicmPass.Pass.RunOnLoop: a loop without a preheader is not modelled; the model always has one to hoist into. The source does not request `LoopSimplify` (the request at `proj_pass/lib/projpass/_myLICM.cpp:95` and the pass dependency at line 239 are commented out), and on such a loop it dereferences the null preheader: in `buildLampMap` (lines 500 and 561) when it is the first loop, and in `makeFlags` (line 433) whenever no call was seen, since the `if (Preheader)` guard at line 607 covers only `HoistRegion`.
- The default entry that `hoistedToLoad[I]` creates for an instruction with no list is not modelled: a missing list reads as empty.
- The `break` in `insertIntoRedo`'s dependency loop for a load: a chosen load never has a list, so the loop body is never reached for one.
- `currList` and `currLoad` of `_myLICM.cpp`, which are never read.
- File and console I/O: `ofstream`/`ifstream` become sequences of lines, `atexit` and the program's end become an explicit `Print` call, `getenv` values and clocks are parameters.
- Floating point: the block counts and the dependence fraction of the LICM pass are exact reals, and the prefetch pass's counts are integers; the source's `double` rounding is not modelled.
- StrideProfiling.StrideProfiler.RunOnFunction: block counts are integers (ProfileInfo's -1 for a missing count included), not `double`s; a fractional count is not modelled. A hot load inside a loop must have a count below 2^31, since `(int)exec_count` at `trunk/proj_pass/lib/projpass/StrideProfiling.cpp:275` is undefined above it; other counts are unbounded. The same holds for `RunOnFunctionCorrected`.
- StridePrefetch.StridePrefetch.RunOnLoop: a preheader count of 0 is excluded, as it is for `Profile`, `ProfileBlock`, `LoopOver`, `VisitChildren`, `Decide` and `TripCount`; the source's quotient is then infinite or not a number, and converting it to `int` is undefined in C++.
- StridePrefetch.Decide: a profile with `exec_count` 0 goes into no set, the corrected behaviour of Findings row 2; the source divides by zero there.
- StridePrefetch.StridePrefetch.Profile: returns before classifying a load whose `exec_count` is 0, the corrected behaviour; the source's integer division by zero there is undefined.
- LampHooks.LampRuntime.Init: the granularity loop runs with the corrected 64-bit counter and needs `mem_gran` at most 2^63; the source's 32-bit counter never ends the loop for a `mem_gran` above 2^31 (Findings row 3).
- Signed overflow: the `int` and `long` sums and differences of the source (the summed top frequencies, stride differences, `dyn_loads` and the like) are modelled as two's-complement wrap-around (`WrapI32`, `WrapI64`), which is what the compiled code does on the targets in question; C++ leaves signed overflow undefined. The 64-bit `unsigned long` counters such as `strideZeroCount` are not wrapped.
- The `LoadStride` objects kept in the stride runtime's registry are held as values (the tracker state of each registered load); each pointer is owned by exactly one registry entry, so no aliasing is lost.
- The LAMP `MemoryProfiler`, `LoopHierarchy`, dependence sets and dependence distances: the model records which store stamps a load observes, not how the profiler aggregates them.
- `LAMP_external_load`, `LAMP_external_store`, `LAMP_allocate`, `LAMP_deallocate`, `invalidate_region`, `LAMP_finish` and `print_stats`.
- The weak-single-stride test at `trunk/proj_pass/lib/projpass/strideprefetch.cpp:367-380`, which compares the load's address rather than its stride with the profiled stride: the WSST set is always empty under the header thresholds (`StridePrefetch.NoWsstUnderHeader`).
- StrideLoadProfile.ReadLine: a line that does not scan as nine integers is passed over; the source files a `loadInfo` whose fields are indeterminate.
- ProfileRoundTrip.PrintThenRead: assumes the pass numbered distinct load instructions under distinct ids and the runtime prints in ascending id order, which is what `std::map` iteration gives.
- The drafts `proj_pass/lib/projpass/loadstride.cpp`, `proj_pass/lib/projpass/profilefeedback.cpp` and `proj_pass/lib/projpass/strideprefetch.cpp`, superseded by the `trunk` versions and not built.
- The Python scripts and the test programs of the repository.

## Findings

| source | as written | input that shows it | evidently intended | confidence | as-written member | corrected member |
|---|---|---|---|---|---|---|
| trunk/proj_pass/lib/projpass/StrideProfiling.cpp:129-132 | `doStrides` walks the global `loadsToStride`, which is never cleared, so every function run renumbers the loads of all earlier functions and `load_id` keeps growing | a module with one load in each of two functions: the second load is profiled under id 2, while `StrideLoadProfile` numbers it 1 | every load is profiled under its position among the module's loads, the id `StrideLoadProfile` gives it | not executed | StrideProfiling.AsWrittenIdsDiverge | StrideProfiling.CorrectedIdsArePositions |
| trunk/proj_pass/lib/projpass/strideprefetch.cpp:226-247 | `profile` divides by `exec_count` after checking only the block count and the trip count | a load whose block ran 10001 times with a preheader count of 1 and whose profile record has `exec_count` 0 | a load with no recorded stride goes into no set | not executed | StridePrefetch.ProfileDividesByZero | StridePrefetch.Classify |
| proj_pass/tools/lamp-profiler/lamp_hooks.cxx:173 | `LAMP_init` counts the granularity bits in a 32-bit `unsigned` while comparing `1 << i` with a 64-bit `mem_gran` | `mem_gran` above 2^31: the counter climbs to 2^31, shifts to 0 and stays there, always below `mem_gran`, so the loop never ends | the loop ends with the mask and shift of `mem_gran` for every granularity up to 2^63 (the corrected counter is 64 bits wide; above 2^63 it would wrap as well, so the corrected loop is stated only up to there) | not executed | LampHooks.GranularityLoopNeverExits | LampHooks.GranularityWide |
| proj_pass/lib/projpass/_myLICM.cpp:787-789 | `checkOperands` skips an in-loop operand that is neither chosen nor a load whenever that operand's own operands are loop-invariant | an addition whose operand is an in-loop PHI with invariant operands: it is chosen with an empty dependency list, so no redo block gets a clone of it and `doSSAFixUp`'s "no clones" assertion fails | an instruction is chosen only when every in-loop instruction operand has been chosen already, so every chosen instruction gets a clone | not executed | LicmHoist.AsWrittenWalkUnclonable | LicmHoist.VisitClonable |
| trunk/proj_pass/lib/projpass/StrideProfiling.cpp:249-260 | `strideBB` increments `number_skipped` instead of `number_profiled` | N1 = 1970, N2 = 30: after the first 1970 executions every execution is profiled, the profiled count stays 0 and the reset never comes until the skip counter wraps at 2^32 | each round skips N1 executions, profiles N2, then resets both counters | not executed | StrideProfiling.ProfiledStaysZero | StrideProfiling.CorrectedSchedule |
