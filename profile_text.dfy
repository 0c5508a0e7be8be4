/** The text of `result.stride.profile`: the stride profiler's runtime writes
    it with `operator<<` on integers and `endl`, and the stride-prefetch pass
    reads it back with `getline` and `sscanf("%d ... %u")`. This module holds
    both directions over plain characters and the round trips between them. */
module ProfileText {
  import opened Common

  const START: string := "STRIDEPROFILE_START"
  const END: string := "STRIDEPROFILE_END"

  predicate IsDigit(c: char) { '0' <= c <= '9' }

  /** The characters `isspace` accepts in the C locale. */
  predicate IsSpace(c: char) {
    c == ' ' || c == '\t' || c == '\n' || c == '\r' || c == '\U{B}' || c == '\U{C}'
  }

  predicate AllDigits(s: string) {
    forall i :: 0 <= i < |s| ==> IsDigit(s[i])
  }

  function DigitChar(d: int): (c: char)
    requires 0 <= d < 10
    ensures IsDigit(c)
  {
    ('0' as int + d) as char
  }

  /** The decimal text of a natural number, most significant digit first. */
  function NatText(n: nat): (t: string)
    ensures t != [] && AllDigits(t)
  {
    if n < 10 then [DigitChar(n)] else NatText(n / 10) + [DigitChar(n % 10)]
  }

  /** `stream << x` for an integer `x`: a minus sign for negatives. */
  function IntText(x: int): (t: string)
  {
    if x < 0 then "-" + NatText(-x) else NatText(x)
  }

  /** The value of a string of decimal digits. */
  function DigitsValue(ds: string): nat
    requires AllDigits(ds)
  {
    if ds == [] then 0
    else DigitsValue(ds[..|ds| - 1]) * 10 + (ds[|ds| - 1] as int - '0' as int)
  }

  /** Length of the run of digits that starts `s`. */
  function SpanDigits(s: string): (n: nat)
    ensures n <= |s| && AllDigits(s[..n])
    ensures n < |s| ==> !IsDigit(s[n])
  {
    if s != [] && IsDigit(s[0]) then
      var n := 1 + SpanDigits(s[1..]);
      assert s[..n] == [s[0]] + s[1..][..n - 1];
      n
    else 0
  }

  function SkipSpaces(s: string): (t: string)
    ensures |t| <= |s|
    ensures t != [] ==> !IsSpace(t[0])
  {
    if s != [] && IsSpace(s[0]) then SkipSpaces(s[1..]) else s
  }

  /** One `%d` or `%u` conversion: skip white space, take an optional sign
      and at least one digit. The result is the mathematical value read and
      the rest of the input, or `None` when no digit follows. */
  function ScanInt(s: string): Option<(int, string)>
  {
    var t := SkipSpaces(s);
    var signed := t != [] && (t[0] == '-' || t[0] == '+');
    var u := if signed then t[1..] else t;
    var n := SpanDigits(u);
    if n == 0 then None
    else
      var v: int := DigitsValue(u[..n]);
      Some((if signed && t[0] == '-' then -v else v, u[n..]))
  }

  /** `sscanf` with `k` integer conversions: the values of the conversions
      that succeeded, stopping at the first one that fails. */
  function ScanInts(s: string, k: nat): (r: seq<int>)
    ensures |r| <= k
    decreases k
  {
    if k == 0 then []
    else
      match ScanInt(s)
      case None => []
      case Some((v, rest)) => [v] + ScanInts(rest, k - 1)
  }

  /** A record line as the printer writes it: every field followed by one space. */
  function FieldsText(fs: seq<int>): string
  {
    if fs == [] then [] else IntText(fs[0]) + " " + FieldsText(fs[1..])
  }

  /** The lines followed by `endl` each. */
  function JoinLines(ls: seq<string>): string
  {
    if ls == [] then [] else ls[0] + "\n" + JoinLines(ls[1..])
  }

  function NewlineAt(t: string): (i: nat)
    ensures i <= |t|
    ensures i < |t| ==> t[i] == '\n'
    ensures forall j :: 0 <= j < i ==> t[j] != '\n'
  {
    if t == [] || t[0] == '\n' then 0 else 1 + NewlineAt(t[1..])
  }

  /** The lines successive `getline` calls return: each ends at a newline,
      which is dropped, and a last line without one is still returned. */
  function Lines(t: string): seq<string>
    decreases |t|
  {
    if t == [] then []
    else
      var i := NewlineAt(t);
      if i == |t| then [t] else [t[..i]] + Lines(t[i + 1..])
  }

  /** `s.find(p) != npos` */
  predicate Contains(s: string, p: string) {
    exists i :: 0 <= i <= |s| && MatchAt(s, p, i)
  }

  /** `p` occurs in `s` starting at position `i`. */
  predicate MatchAt(s: string, p: string, i: int) {
    0 <= i && i + |p| <= |s| && s[i..i + |p|] == p
  }

  /** The characters a record line is made of. */
  predicate RecordChar(c: char) {
    IsDigit(c) || c == '-' || c == ' '
  }

  predicate AllRecordChars(s: string) {
    forall i :: 0 <= i < |s| ==> RecordChar(s[i])
  }

  // ---------------------------------------------------------------------
  // Round trips

  /** The digits of `n` read back as `n`. */
  lemma {:induction false} NatTextValue(n: nat)
    ensures DigitsValue(NatText(n)) == n
  {
    if n >= 10 {
      NatTextValue(n / 10);
      var t := NatText(n);
      assert t[..|t| - 1] == NatText(n / 10);
    }
  }

  /** The run of digits ends where the digits do. */
  lemma {:induction false} SpanDigitsOf(ds: string, rest: string)
    requires AllDigits(ds)
    requires rest == [] || !IsDigit(rest[0])
    ensures SpanDigits(ds + rest) == |ds|
  {
    if ds != [] {
      assert (ds + rest)[1..] == ds[1..] + rest;
      SpanDigitsOf(ds[1..], rest);
    } else {
      assert ds + rest == rest;
    }
  }

  /** The digits of a printed integer follow its optional minus sign. */
  lemma SignThenDigits(x: int, rest: string)
    ensures var s := IntText(x) + " " + rest;
      var d := NatText(if x < 0 then -x else x);
      && s != []
      && SkipSpaces(s) == s
      && ((s[0] == '-' || s[0] == '+') <==> x < 0)
      && (if x < 0 then s[1..] else s) == d + (" " + rest)
  {
    var s := IntText(x) + " " + rest;
    var n := if x < 0 then -x else x;
    var d := NatText(n);
    var tail := " " + rest;
    assert x >= 0 ==> s[0] == d[0] && IsDigit(d[0]);
    assert !IsSpace(s[0]);
    if x < 0 {
      assert s == ['-'] + (d + tail);
      assert (['-'] + (d + tail))[1..] == d + tail;
    } else {
      assert s == d + tail;
    }
  }

  lemma ScanIntText(x: int, rest: string)
    ensures ScanInt(IntText(x) + " " + rest) == Some((x, " " + rest))
  {
    var s := IntText(x) + " " + rest;
    var n := if x < 0 then -x else x;
    var d := NatText(n);
    var tail := " " + rest;
    var u := if x < 0 then s[1..] else s;
    assert SkipSpaces(s) == s && ((s[0] == '-' || s[0] == '+') <==> x < 0) && u == d + tail by {
      SignThenDigits(x, rest);
    }
    assert SpanDigits(u) == |d| && u[..|d|] == d && u[|d|..] == tail && DigitsValue(d) == n by {
      SpanDigitsOf(d, tail);
      NatTextValue(n);
    }
  }

  /** A printed record line scans back field by field. */
  lemma {:induction false} ScanFieldsText(fs: seq<int>)
    ensures ScanInts(FieldsText(fs), |fs|) == fs
  {
    if fs != [] {
      var rest := FieldsText(fs[1..]);
      var k := |fs| - 1;
      assert FieldsText(fs) == IntText(fs[0]) + " " + rest;
      assert ScanInt(FieldsText(fs)) == Some((fs[0], " " + rest)) by {
        ScanIntText(fs[0], rest);
      }
      assert ScanInts(FieldsText(fs), |fs|) == [fs[0]] + ScanInts(" " + rest, k);
      assert ScanInts(" " + rest, k) == ScanInts(rest, k) by {
        ScanSkipsSpace(rest, k);
      }
      assert ScanInts(rest, k) == fs[1..] by {
        ScanFieldsText(fs[1..]);
      }
      assert fs == [fs[0]] + fs[1..];
    }
  }

  /** A leading space does not change what the next conversions read. */
  lemma ScanSkipsSpace(rest: string, k: nat)
    ensures ScanInts(" " + rest, k) == ScanInts(rest, k)
  {
    assert (" " + rest)[1..] == rest;
    if k > 0 {
      assert ScanInt(" " + rest) == ScanInt(rest);
    }
  }

  /** A record line holds only digits, minus signs and spaces. */
  lemma {:induction false} FieldsTextChars(fs: seq<int>)
    ensures AllRecordChars(FieldsText(fs))
  {
    if fs != [] {
      FieldsTextChars(fs[1..]);
      var x := fs[0];
      var t := FieldsText(fs);
      assert t == IntText(x) + " " + FieldsText(fs[1..]);
      forall i | 0 <= i < |t| ensures RecordChar(t[i]) {
        if i < |IntText(x)| {
          assert t[i] == IntText(x)[i];
        } else if i > |IntText(x)| {
          assert t[i] == FieldsText(fs[1..])[i - |IntText(x)| - 1];
        }
      }
    }
  }

  /** So the reader never takes a record line for the end marker. */
  lemma RecordIsNotEnd(fs: seq<int>)
    ensures !Contains(FieldsText(fs), END)
  {
    var t := FieldsText(fs);
    FieldsTextChars(fs);
    forall i ensures !MatchAt(t, END, i) {
      if 0 <= i && i + |END| <= |t| {
        assert t[i..i + |END|][0] == t[i];
        assert RecordChar(t[i]);
      }
    }
  }

  /** `getline` gives back exactly the lines that were written, provided
      none of them holds a newline. */
  lemma {:induction false} LinesOfJoin(ls: seq<string>)
    requires forall k :: 0 <= k < |ls| ==> '\n' !in ls[k]
    ensures Lines(JoinLines(ls)) == ls
  {
    if ls != [] {
      var t := JoinLines(ls);
      var l := ls[0];
      assert t == l + "\n" + JoinLines(ls[1..]);
      assert NewlineAt(t) == |l| by {
        assert t[|l|] == '\n';
        forall j | 0 <= j < |l| ensures t[j] != '\n' {
          assert t[j] == l[j];
        }
        NewlineAtIs(t, |l|);
      }
      assert t[..|l|] == l;
      assert t[|l| + 1..] == JoinLines(ls[1..]);
      LinesOfJoin(ls[1..]);
    }
  }

  /** The first newline is found where it is. */
  lemma {:induction false} NewlineAtIs(t: string, i: nat)
    requires i < |t| && t[i] == '\n'
    requires forall j :: 0 <= j < i ==> t[j] != '\n'
    ensures NewlineAt(t) == i
  {
    if i > 0 {
      NewlineAtIs(t[1..], i - 1);
    }
  }

  lemma {:induction false} NatTextNoNewline(fs: seq<int>)
    ensures '\n' !in FieldsText(fs)
  {
    FieldsTextChars(fs);
    var t := FieldsText(fs);
    forall i | 0 <= i < |t| ensures t[i] != '\n' {
      assert RecordChar(t[i]);
    }
  }
}
