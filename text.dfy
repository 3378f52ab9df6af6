/**
 * Models of the Go library routines the plugin's core leans on: 32-bit
 * signed arithmetic, ASCII case folding, `strings.Fields`, `strings.Count`,
 * `strings.HasPrefix`, `strings.TrimSpace`, decimal formatting (`%d`) and
 * its inverse, and `slices.Sort` on integers.
 */
module Text {

  datatype Option<+T> = None | Some(value: T)

  // ---------------------------------------------------------------------
  // int32 arithmetic
  // ---------------------------------------------------------------------

  const TwoTo31: int := 0x8000_0000
  const TwoTo32: int := 0x1_0000_0000

  predicate InInt32(x: int) {
    -TwoTo31 <= x < TwoTo31
  }

  /** The value an int32 holds after an arithmetic result `x` wraps around. */
  function Wrap32(x: int): (r: int)
    ensures InInt32(r)
    ensures InInt32(x) ==> r == x
    ensures (x - r) % TwoTo32 == 0
  {
    (x + TwoTo31) % TwoTo32 - TwoTo31
  }

  lemma ModShift(x: int, q: int)
    ensures (x + q * TwoTo32) % TwoTo32 == x % TwoTo32
  {
    var r := x % TwoTo32;
    var d := x / TwoTo32;
    assert x + q * TwoTo32 == (d + q) * TwoTo32 + r;
  }

  /** Wrapping an intermediate result does not change the wrapped total. */
  lemma Wrap32Absorbs(a: int, b: int)
    ensures Wrap32(Wrap32(a) + b) == Wrap32(a + b)
  {
    var q := (a + TwoTo31) / TwoTo32;
    assert Wrap32(a) + b + TwoTo31 == (a + b + TwoTo31) + (-q) * TwoTo32;
    ModShift(a + b + TwoTo31, -q);
  }

  /** Go's `x / 2` on integers: the quotient truncated toward zero. */
  function TruncHalf(x: int): (r: int)
    ensures x >= 0 ==> 0 <= r && x - 1 <= 2 * r <= x
    ensures x < 0 ==> r <= 0 && x <= 2 * r <= x + 1
  {
    if x >= 0 then x / 2 else -((-x) / 2)
  }

  // ---------------------------------------------------------------------
  // Characters and case folding
  // ---------------------------------------------------------------------

  /** ASCII lower-casing; every other character is left alone. */
  function LowerChar(c: char): char {
    if 'A' <= c <= 'Z' then (c as int + 32) as char else c
  }

  function Lower(s: string): (r: string)
    ensures |r| == |s|
    ensures forall i :: 0 <= i < |s| ==> r[i] == LowerChar(s[i])
  {
    seq(|s|, i requires 0 <= i < |s| => LowerChar(s[i]))
  }

  /** The white space of Go's `unicode.IsSpace`. */
  predicate IsSpace(c: char) {
    c == ' ' || c == '\t' || c == '\n' || c == '\r' || c == '\U{0B}' || c == '\U{0C}'
    || c == '\U{85}' || c == '\U{A0}' || c == '\U{1680}'
    || ('\U{2000}' <= c <= '\U{200A}')
    || c == '\U{2028}' || c == '\U{2029}' || c == '\U{202F}' || c == '\U{205F}' || c == '\U{3000}'
  }

  // ---------------------------------------------------------------------
  // strings.Fields
  // ---------------------------------------------------------------------

  /** A field: a non-empty run of non-space characters. */
  predicate IsWord(w: string) {
    |w| > 0 && forall i :: 0 <= i < |w| ==> !IsSpace(w[i])
  }

  /** The length of the run of non-space characters at the front of `s`. */
  function WordEnd(s: string): (n: nat)
    ensures n <= |s|
    ensures forall i :: 0 <= i < n ==> !IsSpace(s[i])
    ensures n < |s| ==> IsSpace(s[n])
  {
    if s == [] || IsSpace(s[0]) then 0 else 1 + WordEnd(s[1..])
  }

  /** `strings.Fields`: the maximal runs of non-space characters, in order. */
  function Fields(s: string): (r: seq<string>)
    ensures forall k :: 0 <= k < |r| ==> IsWord(r[k])
    decreases |s|
  {
    if s == [] then []
    else if IsSpace(s[0]) then Fields(s[1..])
    else
      var n := WordEnd(s);
      [s[..n]] + Fields(s[n..])
  }

  function Concat(ws: seq<string>): string {
    if ws == [] then [] else ws[0] + Concat(ws[1..])
  }

  function NonSpace(s: string): string {
    if s == [] then [] else (if IsSpace(s[0]) then [] else [s[0]]) + NonSpace(s[1..])
  }

  lemma {:induction false} NonSpaceAppend(a: string, b: string)
    ensures NonSpace(a + b) == NonSpace(a) + NonSpace(b)
  {
    if a != [] {
      assert (a + b)[0] == a[0];
      assert (a + b)[1..] == a[1..] + b;
      NonSpaceAppend(a[1..], b);
      var head := if IsSpace(a[0]) then [] else [a[0]];
      assert NonSpace(a + b) == head + NonSpace(a[1..] + b);
      assert NonSpace(a) == head + NonSpace(a[1..]);
    } else {
      assert a + b == b;
    }
  }

  lemma {:induction false} NonSpaceOfWord(w: string)
    requires forall i :: 0 <= i < |w| ==> !IsSpace(w[i])
    ensures NonSpace(w) == w
  {
    if w != [] {
      NonSpaceOfWord(w[1..]);
    }
  }

  /** There are no fields exactly when the text is all white space. */
  lemma {:induction false} FieldsEmpty(s: string)
    ensures Fields(s) == [] <==> forall i :: 0 <= i < |s| ==> IsSpace(s[i])
    decreases |s|
  {
    if s != [] && IsSpace(s[0]) {
      FieldsEmpty(s[1..]);
      assert forall i :: 1 <= i < |s| ==> s[i] == s[1..][i - 1];
    }
  }

  /** Non-space text, then white space, then non-space text again. */
  ghost predicate TwoRuns(s: string) {
    exists i, j, k :: RunsAt(s, i, j, k)
  }

  /** Non-space at `i`, space at `j` and non-space at `k`, in that order. */
  predicate RunsAt(s: string, i: int, j: int, k: int) {
    0 <= i < j < k < |s| && !IsSpace(s[i]) && IsSpace(s[j]) && !IsSpace(s[k])
  }

  /** A leading space never starts two runs. */
  lemma TwoRunsAfterSpace(s: string)
    requires s != [] && IsSpace(s[0])
    ensures TwoRuns(s) <==> TwoRuns(s[1..])
  {
    var t := s[1..];
    if TwoRuns(s) {
      var i, j, k :| RunsAt(s, i, j, k);
      assert t[i - 1] == s[i] && t[j - 1] == s[j] && t[k - 1] == s[k];
      assert RunsAt(t, i - 1, j - 1, k - 1);
    }
    if TwoRuns(t) {
      var i, j, k :| RunsAt(t, i, j, k);
      assert s[i + 1] == t[i] && s[j + 1] == t[j] && s[k + 1] == t[k];
      assert RunsAt(s, i + 1, j + 1, k + 1);
    }
  }

  /** After a leading word, a second run is a field of the rest. */
  lemma TwoRunsAfterWord(s: string)
    requires s != [] && !IsSpace(s[0])
    ensures TwoRuns(s) <==> Fields(s[WordEnd(s)..]) != []
  {
    var n := WordEnd(s);
    FieldsEmpty(s[n..]);
    assert forall k :: n <= k < |s| ==> s[k] == s[n..][k - n];
    if TwoRuns(s) {
      var i, j, k :| RunsAt(s, i, j, k);
      assert n <= j < k;
    }
    if exists k :: n <= k < |s| && !IsSpace(s[k]) {
      var k :| n <= k < |s| && !IsSpace(s[k]);
      assert 0 < n < k;
      assert RunsAt(s, 0, n, k);
    }
  }

  /** There is at most one field exactly when no white space separates two non-space characters. */
  lemma {:induction false} FieldsAtMostOne(s: string)
    ensures |Fields(s)| <= 1 <==> !TwoRuns(s)
    decreases |s|
  {
    if s == [] {
    } else if IsSpace(s[0]) {
      FieldsAtMostOne(s[1..]);
      TwoRunsAfterSpace(s);
    } else {
      var n := WordEnd(s);
      assert Fields(s) == [s[..n]] + Fields(s[n..]);
      TwoRunsAfterWord(s);
    }
  }

  /** Splitting into fields loses exactly the white space and nothing else. */
  lemma {:induction false} FieldsKeepText(s: string)
    ensures Concat(Fields(s)) == NonSpace(s)
    decreases |s|
  {
    if s == [] {
    } else if IsSpace(s[0]) {
      FieldsKeepText(s[1..]);
    } else {
      var n := WordEnd(s);
      FieldsKeepText(s[n..]);
      assert s == s[..n] + s[n..];
      NonSpaceAppend(s[..n], s[n..]);
      NonSpaceOfWord(s[..n]);
      var r := Fields(s);
      assert r == [s[..n]] + Fields(s[n..]);
      assert r[1..] == Fields(s[n..]);
    }
  }

  // ---------------------------------------------------------------------
  // strings.Count and substring search
  // ---------------------------------------------------------------------

  /** `sub` occurs in `s` starting at position `i`. */
  predicate OccursAt(s: string, sub: string, i: int) {
    0 <= i && i + |sub| <= |s| && s[i..i + |sub|] == sub
  }

  predicate Contains(s: string, sub: string) {
    exists i :: 0 <= i <= |s| - |sub| && OccursAt(s, sub, i)
  }

  /**
   * `strings.Count`: the number of non-overlapping occurrences of `sub` in
   * `s`, taken leftmost first; for an empty `sub` it is one more than the
   * number of characters.
   */
  function Count(s: string, sub: string): (k: nat)
    ensures |sub| > 0 ==> k * |sub| <= |s|
    decreases |s|
  {
    if sub == [] then |s| + 1
    else if |s| < |sub| then 0
    else if s[..|sub|] == sub then 1 + Count(s[|sub|..], sub)
    else Count(s[1..], sub)
  }

  lemma OccursShift(s: string, sub: string, i: int, d: nat)
    requires d <= |s| && 0 <= i
    ensures OccursAt(s[d..], sub, i) <==> OccursAt(s, sub, i + d)
  {
    if 0 <= i && i + |sub| <= |s| - d {
      assert s[d..][i..i + |sub|] == s[i + d..i + d + |sub|];
    }
  }

  /** A non-empty `sub` is counted at most once per character of `s`. */
  lemma {:induction false} CountBelowLength(s: string, sub: string)
    requires |sub| > 0
    ensures Count(s, sub) <= |s|
    decreases |s|
  {
    if |s| >= |sub| {
      if s[..|sub|] == sub {
        CountBelowLength(s[|sub|..], sub);
      } else {
        CountBelowLength(s[1..], sub);
      }
    }
  }

  /** A non-empty `sub` is counted at least once exactly when it occurs. */
  lemma {:induction false} CountPositive(s: string, sub: string)
    requires |sub| > 0
    ensures Count(s, sub) > 0 <==> Contains(s, sub)
    decreases |s|
  {
    if |s| < |sub| {
    } else if s[..|sub|] == sub {
      assert OccursAt(s, sub, 0);
    } else {
      CountPositive(s[1..], sub);
      if Contains(s, sub) {
        var i: int :| OccursAt(s, sub, i);
        assert OccursAt(s, sub, i);
        assert i != 0 && 0 <= i - 1 && 1 <= |s|;
        OccursShift(s, sub, i - 1, 1);
        assert OccursAt(s[1..], sub, i - 1);
      }
      if Contains(s[1..], sub) {
        var i: int :| OccursAt(s[1..], sub, i);
        assert OccursAt(s[1..], sub, i);
        assert 0 <= i && 1 <= |s|;
        OccursShift(s, sub, i, 1);
        assert OccursAt(s, sub, i + 1);
      }
    }
  }

  /** Moving past a position where `sub` does not start leaves the count unchanged. */
  lemma CountSkip(s: string, sub: string)
    requires |sub| > 0 && |s| >= |sub| && !OccursAt(s, sub, 0)
    ensures Count(s, sub) == Count(s[1..], sub)
  {
    assert s[..|sub|] != sub by {
      assert s[0..0 + |sub|] == s[..|sub|];
    }
  }

  /**
   * Go counts by repeated search: the first occurrence counts once and the
   * search goes on right after it.
   */
  lemma {:induction false} CountFromFirst(s: string, sub: string, f: int)
    requires |sub| > 0 && OccursAt(s, sub, f)
    requires forall i :: 0 <= i < f ==> !OccursAt(s, sub, i)
    ensures Count(s, sub) == 1 + Count(s[f + |sub|..], sub)
    decreases f
  {
    if f == 0 {
      assert s[..|sub|] == s[0..0 + |sub|];
    } else {
      CountSkip(s, sub);
      FirstInTail(s, sub, f);
      CountFromFirst(s[1..], sub, f - 1);
      assert s[1..][f - 1 + |sub|..] == s[f + |sub|..];
    }
  }

  /** A first occurrence at `f > 0` of `s` is the first occurrence at `f - 1` of `s[1..]`. */
  lemma FirstInTail(s: string, sub: string, f: int)
    requires 0 < f && OccursAt(s, sub, f)
    requires forall i :: 0 <= i < f ==> !OccursAt(s, sub, i)
    ensures OccursAt(s[1..], sub, f - 1)
    ensures forall i :: 0 <= i < f - 1 ==> !OccursAt(s[1..], sub, i)
  {
    OccursShift(s, sub, f - 1, 1);
    forall i | 0 <= i < f - 1
      ensures !OccursAt(s[1..], sub, i)
    {
      OccursShift(s, sub, i, 1);
    }
  }

  /** `sub` occurs twice in `s` without the two occurrences overlapping. */
  ghost predicate OccursTwice(s: string, sub: string) {
    exists i, j :: OccursAt(s, sub, i) && OccursAt(s, sub, j) && i + |sub| <= j
  }

  /** After an occurrence at the start, a second one is any occurrence in the rest. */
  lemma OccursTwiceAtHead(s: string, sub: string)
    requires |sub| > 0 && OccursAt(s, sub, 0)
    ensures OccursTwice(s, sub) <==> Contains(s[|sub|..], sub)
  {
    var rest := s[|sub|..];
    if Contains(rest, sub) {
      var j :| 0 <= j <= |rest| - |sub| && OccursAt(rest, sub, j);
      OccursShift(s, sub, j, |sub|);
      assert OccursAt(s, sub, 0) && OccursAt(s, sub, j + |sub|);
    }
    if OccursTwice(s, sub) {
      var i, j :| OccursAt(s, sub, i) && OccursAt(s, sub, j) && i + |sub| <= j;
      OccursShift(s, sub, j - |sub|, |sub|);
      assert OccursAt(rest, sub, j - |sub|);
    }
  }

  /** Two occurrences in `s[1..]` are two occurrences in `s`. */
  lemma OccursTwiceInTail(s: string, sub: string)
    requires |s| >= 1 && OccursTwice(s[1..], sub)
    ensures OccursTwice(s, sub)
  {
    var i, j :| OccursAt(s[1..], sub, i) && OccursAt(s[1..], sub, j) && i + |sub| <= j;
    OccursShift(s, sub, i, 1);
    OccursShift(s, sub, j, 1);
    assert OccursAt(s, sub, i + 1) && OccursAt(s, sub, j + 1);
  }

  /** Without an occurrence at the start, both occurrences lie in `s[1..]`. */
  lemma OccursTwiceSkip(s: string, sub: string)
    requires |s| >= 1 && !OccursAt(s, sub, 0) && OccursTwice(s, sub)
    ensures OccursTwice(s[1..], sub)
  {
    var i, j :| OccursAt(s, sub, i) && OccursAt(s, sub, j) && i + |sub| <= j;
    OccursShift(s, sub, i - 1, 1);
    OccursShift(s, sub, j - 1, 1);
    assert OccursAt(s[1..], sub, i - 1) && OccursAt(s[1..], sub, j - 1);
  }

  /** A non-empty `sub` is counted at least twice exactly when it occurs twice without overlap. */
  lemma {:induction false} CountAtLeastTwo(s: string, sub: string)
    requires |sub| > 0
    ensures Count(s, sub) >= 2 <==> OccursTwice(s, sub)
    decreases |s|
  {
    if |s| < |sub| {
    } else if OccursAt(s, sub, 0) {
      assert s[..|sub|] == s[0..0 + |sub|];
      CountPositive(s[|sub|..], sub);
      OccursTwiceAtHead(s, sub);
    } else {
      CountSkip(s, sub);
      CountAtLeastTwo(s[1..], sub);
      if OccursTwice(s[1..], sub) {
        OccursTwiceInTail(s, sub);
      }
      if OccursTwice(s, sub) {
        OccursTwiceSkip(s, sub);
      }
    }
  }

  function HasPrefix(s: string, prefix: string): bool {
    |prefix| <= |s| && s[..|prefix|] == prefix
  }

  /** `strings.Index(s, string(c))`: the first position of `c`, or -1. */
  function IndexOf(s: string, c: char): (i: int)
    ensures -1 <= i < |s|
    ensures i == -1 <==> c !in s
    ensures 0 <= i ==> s[i] == c && c !in s[..i]
  {
    if s == [] then -1
    else if s[0] == c then 0
    else
      var j := IndexOf(s[1..], c);
      assert s == [s[0]] + s[1..];
      if j < 0 then -1 else j + 1
  }

  // ---------------------------------------------------------------------
  // strings.TrimSpace
  // ---------------------------------------------------------------------

  function TrimLeft(s: string): (r: string)
    ensures |r| <= |s| && r == s[|s| - |r|..]
    ensures forall i :: 0 <= i < |s| - |r| ==> IsSpace(s[i])
    ensures r != [] ==> !IsSpace(r[0])
  {
    if s != [] && IsSpace(s[0]) then TrimLeft(s[1..]) else s
  }

  function TrimRight(s: string): (r: string)
    ensures |r| <= |s| && r == s[..|r|]
    ensures forall i :: |r| <= i < |s| ==> IsSpace(s[i])
    ensures r != [] ==> !IsSpace(r[|r| - 1])
  {
    if s != [] && IsSpace(s[|s| - 1]) then TrimRight(s[..|s| - 1]) else s
  }

  /** `strings.TrimSpace`: `s` without its leading and trailing white space. */
  function TrimSpace(s: string): (r: string)
    ensures exists i, j ::
              && 0 <= i <= j <= |s| && r == s[i..j]
              && (forall k :: 0 <= k < i ==> IsSpace(s[k]))
              && (forall k :: j <= k < |s| ==> IsSpace(s[k]))
    ensures r != [] ==> !IsSpace(r[0]) && !IsSpace(r[|r| - 1])
  {
    var l := TrimLeft(s);
    var r := TrimRight(l);
    var i := |s| - |l|;
    assert r == s[i..i + |r|];
    r
  }

  // ---------------------------------------------------------------------
  // Decimal formatting and parsing
  // ---------------------------------------------------------------------

  predicate IsDigit(c: char) {
    '0' <= c <= '9'
  }

  function DigitChar(d: nat): char
    requires d < 10
  {
    ('0' as int + d) as char
  }

  function DigitValue(c: char): nat
    requires IsDigit(c)
  {
    c as int - '0' as int
  }

  /** The digits of `n` in base ten, most significant first, no leading zero. */
  function NatDigits(n: nat): (r: string)
    ensures |r| > 0 && forall i :: 0 <= i < |r| ==> IsDigit(r[i])
    ensures r[0] == '0' <==> n == 0
    ensures n == 0 ==> r == "0"
    decreases n
  {
    if n < 10 then [DigitChar(n)] else NatDigits(n / 10) + [DigitChar(n % 10)]
  }

  /** Go's `%d`. */
  function Decimal(n: int): (r: string)
    ensures n >= 0 ==> AllDigits(r)
    ensures n < 0 ==> |r| > 1 && r[0] == '-' && AllDigits(r[1..])
    ensures r[0] == '0' ==> r == "0"
    ensures n < 0 ==> r[1] != '0'
  {
    if n < 0 then "-" + NatDigits(-n) else NatDigits(n)
  }

  function DigitsValue(s: string): nat
    requires forall i :: 0 <= i < |s| ==> IsDigit(s[i])
  {
    if s == [] then 0 else DigitsValue(s[..|s| - 1]) * 10 + DigitValue(s[|s| - 1])
  }

  predicate AllDigits(s: string) {
    |s| > 0 && forall i :: 0 <= i < |s| ==> IsDigit(s[i])
  }

  /**
   * The integer a text argument denotes when it is compared with an INTEGER
   * column: an optional minus sign followed by decimal digits.
   */
  function ParseDecimal(s: string): Option<int> {
    if AllDigits(s) then Some(DigitsValue(s))
    else if |s| > 1 && s[0] == '-' && AllDigits(s[1..]) then
      var magnitude: int := DigitsValue(s[1..]);
      Some(-magnitude)
    else None
  }

  lemma {:induction false} NatDigitsValue(n: nat)
    ensures DigitsValue(NatDigits(n)) == n
    decreases n
  {
    if n >= 10 {
      NatDigitsValue(n / 10);
      var s := NatDigits(n);
      assert s[..|s| - 1] == NatDigits(n / 10);
    }
  }

  /** Formatting an integer and reading it back gives the integer. */
  lemma DecimalRoundTrip(n: int)
    ensures ParseDecimal(Decimal(n)) == Some(n)
  {
    if n < 0 {
      var d := NatDigits(-n);
      assert Decimal(n)[0] == '-' && !IsDigit('-');
      assert !AllDigits(Decimal(n));
      assert Decimal(n)[1..] == d;
      NatDigitsValue(-n);
    } else {
      NatDigitsValue(n);
    }
  }

  // ---------------------------------------------------------------------
  // slices.Sort
  // ---------------------------------------------------------------------

  /** Ascending order: every element is at most the next one. */
  predicate IsSorted(s: seq<int>) {
    forall i :: 0 < i < |s| ==> s[i - 1] <= s[i]
  }

  /** Insertion of `x` before the first element it does not exceed. */
  function Insert(x: int, s: seq<int>): seq<int> {
    if s == [] || x <= s[0] then [x] + s else [s[0]] + Insert(x, s[1..])
  }

  /** Insertion adds exactly `x`. */
  lemma {:induction false} InsertAdds(x: int, s: seq<int>)
    ensures multiset(Insert(x, s)) == multiset(s) + multiset{x}
  {
    if s != [] && x > s[0] {
      assert s == [s[0]] + s[1..];
      InsertAdds(x, s[1..]);
    }
  }

  /** Inserting into a sorted sequence keeps it sorted. */
  lemma {:induction false} InsertSorted(x: int, s: seq<int>)
    requires IsSorted(s)
    ensures Insert(x, s) != [] && (Insert(x, s)[0] == x || Insert(x, s)[0] == s[0])
    ensures IsSorted(Insert(x, s))
  {
    if s == [] || x <= s[0] {
      var r := [x] + s;
      forall i | 0 < i < |r| ensures r[i - 1] <= r[i] {
        if i > 1 {
          assert r[i - 1] == s[i - 2] && r[i] == s[i - 1];
        }
      }
    } else {
      var tail := s[1..];
      var rest := Insert(x, tail);
      InsertSorted(x, tail);
      var r := [s[0]] + rest;
      assert Insert(x, s) == r;
      forall i | 0 < i < |r| ensures r[i - 1] <= r[i] {
        if i > 1 {
          assert r[i - 1] == rest[i - 2] && r[i] == rest[i - 1];
        } else {
          assert rest[0] == x || rest[0] == tail[0];
          assert tail != [] ==> s[0] <= tail[0] by {
            if tail != [] {
              assert s[1] == tail[0];
            }
          }
        }
      }
    }
  }

  /** `slices.Sort`: the ascending arrangement of the same multiset. */
  function SortAscending(s: seq<int>): (r: seq<int>)
    ensures IsSorted(r) && multiset(r) == multiset(s)
  {
    if s == [] then []
    else
      assert s == [s[0]] + s[1..];
      var sorted := SortAscending(s[1..]);
      InsertSorted(s[0], sorted);
      InsertAdds(s[0], sorted);
      Insert(s[0], sorted)
  }
}
