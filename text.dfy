/** Character-level helpers shared by the framing and the command layer:
    decimal integers as strconv.Itoa and fmt's "%d" print them and as fmt's
    "%d" verb scans them, int64 wrap-around, and strings.Join,
    strings.Split and strings.SplitN(s, sep, 2) for a one-character
    separator. Strings are sequences of characters. */
module Text {

  datatype Option<+T> = None | Some(value: T) {
    function GetOr(default: T): T {
      match this
      case Some(v) => v
      case None => default
    }
  }

  const MinInt64: int := -0x8000_0000_0000_0000
  const MaxInt64: int := 0x7fff_ffff_ffff_ffff
  const TwoTo64: int := 0x1_0000_0000_0000_0000

  predicate InInt64(x: int) {
    MinInt64 <= x <= MaxInt64
  }

  /** The int64 that Go's two's-complement arithmetic leaves for the
      mathematical result x. */
  function Wrap64(x: int): (r: int)
    ensures InInt64(r)
    ensures (r - x) % TwoTo64 == 0
    ensures InInt64(x) ==> r == x
  {
    (x - MinInt64) % TwoTo64 + MinInt64
  }

  predicate IsDigit(c: char) {
    '0' <= c <= '9'
  }

  predicate AllDigits(s: string) {
    forall i :: 0 <= i < |s| ==> IsDigit(s[i])
  }

  function DigitChar(d: nat): (c: char)
    requires d < 10
    ensures IsDigit(c) && c as int - '0' as int == d
  {
    ('0' as int + d) as char
  }

  /** The number a run of decimal digits denotes. */
  function DigitsValue(ds: string): nat
    requires AllDigits(ds)
    decreases |ds|
  {
    if ds == [] then 0
    else DigitsValue(ds[..|ds| - 1]) * 10 + (ds[|ds| - 1] as int - '0' as int)
  }

  /** The decimal digits of n, without leading zeros. */
  function NatToString(n: nat): (s: string)
    ensures |s| > 0 && AllDigits(s)
    ensures s[0] == '0' ==> n == 0
    ensures DigitsValue(s) == n
    decreases n
  {
    if n < 10 then [DigitChar(n)]
    else
      var init := NatToString(n / 10);
      var s := init + [DigitChar(n % 10)];
      assert s[..|s| - 1] == init;
      s
  }

  /** strconv.Itoa(i), which is also what fmt's "%d" prints. */
  function IntToString(i: int): (s: string)
    ensures |s| > 0
    ensures s[0] == '-' <==> i < 0
    ensures i >= 0 ==> AllDigits(s)
    ensures i < 0 ==> |s| > 1 && AllDigits(s[1..])
  {
    if i < 0 then "-" + NatToString(-i) else NatToString(i)
  }

  /** The end of the run of decimal digits that starts at `from`. */
  function DigitRunEnd(s: string, from: nat): (e: nat)
    requires from <= |s|
    ensures from <= e <= |s|
    ensures AllDigits(s[from..e])
    ensures e == |s| || !IsDigit(s[e])
    decreases |s| - from
  {
    if from < |s| && IsDigit(s[from]) then DigitRunEnd(s, from + 1) else from
  }

  /** What fmt's "%d" verb reads at position `at`, and where it stops. */
  datatype IntScan = IntScan(value: Option<int>, next: nat)

  /** fmt's "%d" verb reading from position `at`: an optional sign and a
      maximal run of decimal digits, at least one. The sign and digits it
      reads are consumed whether or not the scan succeeds. */
  function ScanInt(s: string, at: nat): (r: IntScan)
    requires at <= |s|
    ensures at <= r.next <= |s|
    ensures r.next == |s| || !IsDigit(s[r.next])
    ensures r.value.Some? ==> at < r.next && IsDigit(s[r.next - 1])
    ensures r.value.None? ==> r.next <= at + 1
  {
    var signed := at < |s| && (s[at] == '+' || s[at] == '-');
    var start := if signed then at + 1 else at;
    var e := DigitRunEnd(s, start);
    if e == start then IntScan(None, e)
    else
      var v: int := DigitsValue(s[start..e]);
      IntScan(Some(if signed && s[at] == '-' then -v else v), e)
  }

  /** "%d" into an int64: a value outside the int64 range is a scan error. */
  function ScanInt64(s: string, at: nat): (r: IntScan)
    requires at <= |s|
    ensures at <= r.next <= |s|
    ensures r.value.Some? ==> InInt64(r.value.value) && r.value == ScanInt(s, at).value
    ensures ScanInt(s, at).value.Some? && InInt64(ScanInt(s, at).value.value) ==> r == ScanInt(s, at)
    ensures r.next == ScanInt(s, at).next
  {
    var r := ScanInt(s, at);
    if r.value.Some? && !InInt64(r.value.value) then IntScan(None, r.next) else r
  }

  /** A string cut at the first occurrence of a separator: the text before
      it, whether it occurs, and the text after it. */
  datatype Piece = Piece(head: string, found: bool, tail: string)

  /** The cut at the first c in s; without a c, all of s and nothing after. */
  function Break(s: string, c: char): (p: Piece)
    ensures p.found ==> s == p.head + [c] + p.tail
    ensures !p.found ==> s == p.head && p.tail == []
    decreases |s|
  {
    if s == [] then Piece([], false, [])
    else if s[0] == c then Piece([], true, s[1..])
    else
      var p := Break(s[1..], c);
      Piece([s[0]] + p.head, p.found, p.tail)
  }

  /** The text before the cut holds no separator, and the separator is
      found exactly when s holds one. */
  lemma {:induction false} BreakFirst(s: string, c: char)
    ensures c !in Break(s, c).head
    ensures Break(s, c).found <==> c in s
    decreases |s|
  {
    if s != [] && s[0] != c {
      BreakFirst(s[1..], c);
      assert s == [s[0]] + s[1..];
    }
  }

  /** A string that opens with a run free of c, then c, is cut right there. */
  lemma {:induction false} BreakAt(head: string, c: char, tail: string)
    requires c !in head
    ensures Break(head + [c] + tail, c) == Piece(head, true, tail)
    decreases |head|
  {
    var s := head + [c] + tail;
    if head == [] {
      assert s[1..] == tail;
    } else {
      assert s[1..] == head[1..] + [c] + tail;
      BreakAt(head[1..], c, tail);
      assert [head[0]] + head[1..] == head;
    }
  }

  /** A string free of c is not cut. */
  lemma {:induction false} BreakNone(s: string, c: char)
    requires c !in s
    ensures Break(s, c) == Piece(s, false, [])
    decreases |s|
  {
    if s != [] {
      BreakNone(s[1..], c);
      assert [s[0]] + s[1..] == s;
    }
  }

  /** strings.Join(parts, sep): the first part opens the text, and a
      separator follows it when there are more. */
  function Join(parts: seq<string>, sep: char): (r: string)
    ensures parts == [] ==> r == []
    ensures |parts| > 0 ==> |r| >= |parts[0]| && r[..|parts[0]|] == parts[0]
    ensures |parts| > 1 ==> |r| > |parts[0]| && r[|parts[0]|] == sep
    decreases |parts|
  {
    if |parts| == 0 then ""
    else if |parts| == 1 then parts[0]
    else parts[0] + [sep] + Join(parts[1..], sep)
  }

  /** strings.Split(s, sep): the pieces between occurrences of sep. */
  function Split(s: string, sep: char): (parts: seq<string>)
    ensures |parts| > 0
    decreases |s|
  {
    var p := Break(s, sep);
    if p.found then [p.head] + Split(p.tail, sep) else [s]
  }

  /** Concatenation regrouped, away from the facts about its operands. */
  lemma Regroup(a: string, b: string, c: string)
    ensures a + b + c == a + (b + c)
  {
  }

  /** Every string of `lines` contains `sep`. */
  predicate Separated(lines: seq<string>, sep: char) {
    forall i :: 0 <= i < |lines| ==> sep in lines[i]
  }

  /** A digit run found where it is known to end. */
  lemma {:induction false} DigitRunEndAt(s: string, from: nat, e: nat)
    requires from <= e <= |s|
    requires AllDigits(s[from..e])
    requires e == |s| || !IsDigit(s[e])
    ensures DigitRunEnd(s, from) == e
    decreases e - from
  {
    if from < e {
      assert IsDigit(s[from..e][0]);
      assert s[from + 1..e] == s[from..e][1..];
      DigitRunEndAt(s, from + 1, e);
    }
  }

  /** A run of digits that fits in an int64 and ends where the digits end
      is scanned as its value. */
  lemma DigitsScan(s: string, at: nat, d: string)
    requires |d| > 0 && AllDigits(d) && DigitsValue(d) <= MaxInt64
    requires at + |d| <= |s| && s[at..at + |d|] == d
    requires at + |d| == |s| || !IsDigit(s[at + |d|])
    ensures ScanInt64(s, at) == IntScan(Some(DigitsValue(d)), at + |d|)
  {
    assert IsDigit(d[0]) && s[at] == d[0];
    DigitRunEndAt(s, at, at + |d|);
  }

  /** Scanning what strconv.Itoa printed gives the number back, and stops
      right after its last digit. */
  lemma ScanIntToString(i: int, s: string, at: nat)
    requires at + |IntToString(i)| <= |s|
    requires s[at..at + |IntToString(i)|] == IntToString(i)
    requires at + |IntToString(i)| == |s| || !IsDigit(s[at + |IntToString(i)|])
    ensures ScanInt(s, at) == IntScan(Some(i), at + |IntToString(i)|)
  {
    if i < 0 {
      ScanNegative(i, s, at);
    } else {
      ScanNonNegative(i, s, at);
    }
  }

  lemma ScanNegative(i: int, s: string, at: nat)
    requires i < 0
    requires at + |IntToString(i)| <= |s|
    requires s[at..at + |IntToString(i)|] == IntToString(i)
    requires at + |IntToString(i)| == |s| || !IsDigit(s[at + |IntToString(i)|])
    ensures ScanInt(s, at) == IntScan(Some(i), at + |IntToString(i)|)
  {
    var t := IntToString(i);
    var d := NatToString(-i);
    var e := at + |t|;
    assert t == "-" + d && t[1..] == d;
    assert s[at] == t[0] == '-';
    assert s[at + 1..e] == s[at..e][1..];
    DigitRunEndAt(s, at + 1, e);
    assert DigitsValue(s[at + 1..e]) == -i;
  }

  lemma ScanNonNegative(i: int, s: string, at: nat)
    requires i >= 0
    requires at + |IntToString(i)| <= |s|
    requires s[at..at + |IntToString(i)|] == IntToString(i)
    requires at + |IntToString(i)| == |s| || !IsDigit(s[at + |IntToString(i)|])
    ensures ScanInt(s, at) == IntScan(Some(i), at + |IntToString(i)|)
  {
    var t := IntToString(i);
    assert s[at] == t[0];
    DigitRunEndAt(s, at, at + |t|);
  }

  /** Splitting a join on a separator no part contains gives the parts back. */
  lemma {:induction false} SplitJoin(parts: seq<string>, sep: char)
    requires |parts| > 0
    requires forall i :: 0 <= i < |parts| ==> sep !in parts[i]
    ensures Split(Join(parts, sep), sep) == parts
    decreases |parts|
  {
    if |parts| == 1 {
      BreakNone(parts[0], sep);
    } else {
      BreakAt(parts[0], sep, Join(parts[1..], sep));
      SplitJoin(parts[1..], sep);
      assert [parts[0]] + parts[1..] == parts;
    }
  }

  /** Joining two nonempty lists is joining each and putting a separator
      between them. */
  lemma {:induction false} JoinAppend(a: seq<string>, b: seq<string>, sep: char)
    requires |a| > 0 && |b| > 0
    ensures Join(a + b, sep) == Join(a, sep) + [sep] + Join(b, sep)
    decreases |a|
  {
    assert (a + b)[0] == a[0];
    assert (a + b)[1..] == a[1..] + b;
    if |a| > 1 {
      JoinAppend(a[1..], b, sep);
      Regroup(a[0] + [sep], Join(a[1..], sep), [sep] + Join(b, sep));
      Regroup(a[0] + [sep] + Join(a[1..], sep), [sep], Join(b, sep));
    }
  }

  /** A join holds no c that neither its parts nor its separator hold. */
  lemma {:induction false} JoinAvoids(parts: seq<string>, sep: char, c: char)
    requires c != sep && forall i :: 0 <= i < |parts| ==> c !in parts[i]
    ensures c !in Join(parts, sep)
    decreases |parts|
  {
    if |parts| > 1 {
      JoinAvoids(parts[1..], sep, c);
      assert parts[1..][0] == parts[1];
    }
  }

  /** Joining the pieces of a split restores the string. */
  lemma {:induction false} JoinSplit(s: string, sep: char)
    ensures Join(Split(s, sep), sep) == s
    decreases |s|
  {
    var p := Break(s, sep);
    if p.found {
      JoinSplit(p.tail, sep);
      var parts := [p.head] + Split(p.tail, sep);
      assert parts[1..] == Split(p.tail, sep);
    }
  }
}
