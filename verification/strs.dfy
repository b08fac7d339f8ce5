/**
 * String helpers. Strings are `seq<char>`; comparisons are by code point, as in Python's
 * `str` comparison and (for the ASCII dates and ids used here) JavaScript's `<` and `.sort()`.
 */
module Strs {

  /** Lexicographic "strictly before" order on strings. */
  predicate Lt(a: string, b: string)
    decreases |b|
  {
    if b == [] then false
    else if a == [] then true
    else if a[0] != b[0] then a[0] < b[0]
    else Lt(a[1..], b[1..])
  }

  /** Lexicographic "before or equal" order on strings. */
  predicate Le(a: string, b: string)
  {
    a == b || Lt(a, b)
  }

  lemma {:induction false} LtIrreflexive(a: string)
    ensures !Lt(a, a)
  {
    if a != [] {
      LtIrreflexive(a[1..]);
    }
  }

  lemma {:induction false} LtAsymmetric(a: string, b: string)
    requires Lt(a, b)
    ensures !Lt(b, a)
  {
    if a != [] && a[0] == b[0] {
      LtAsymmetric(a[1..], b[1..]);
    }
  }

  lemma {:induction false} LtTransitive(a: string, b: string, c: string)
    requires Lt(a, b) && Lt(b, c)
    ensures Lt(a, c)
  {
    if a != [] && a[0] == b[0] && b[0] == c[0] {
      LtTransitive(a[1..], b[1..], c[1..]);
    }
  }

  lemma {:induction false} LtTotal(a: string, b: string)
    ensures a == b || Lt(a, b) || Lt(b, a)
  {
    if a != [] && b != [] && a[0] == b[0] {
      LtTotal(a[1..], b[1..]);
      if a[1..] == b[1..] {
        assert a == [a[0]] + a[1..] && b == [b[0]] + b[1..];
      }
    }
  }

  lemma LeTransitive(a: string, b: string, c: string)
    requires Le(a, b) && Le(b, c)
    ensures Le(a, c)
  {
    if Lt(a, b) && Lt(b, c) {
      LtTransitive(a, b, c);
    }
  }

  lemma LeAntisymmetric(a: string, b: string)
    requires Le(a, b) && Le(b, a)
    ensures a == b
  {
    if a != b {
      LtAsymmetric(a, b);
    }
  }

  lemma LeTotal(a: string, b: string)
    ensures Le(a, b) || Le(b, a)
  {
    LtTotal(a, b);
  }

  /** Python `s.startswith(pre)`. */
  predicate StartsWith(s: string, pre: string)
  {
    |pre| <= |s| && s[..|pre|] == pre
  }

  /** Python `s.endswith(suf)`. */
  predicate EndsWith(s: string, suf: string)
  {
    |suf| <= |s| && s[|s| - |suf|..] == suf
  }

  /** `q` occurs in `s` starting at index `i`. */
  predicate OccursAt(s: string, q: string, i: int)
  {
    0 <= i <= |s| - |q| && s[i..i + |q|] == q
  }

  /** JavaScript `s.includes(q)`: `q` occurs in `s` as a contiguous piece. */
  function Includes(s: string, q: string): (b: bool)
    ensures b <==> exists i :: OccursAt(s, q, i)
  {
    if StartsWith(s, q) then
      assert OccursAt(s, q, 0);
      true
    else if s == [] then false
    else
      var r := Includes(s[1..], q);
      assert forall i :: OccursAt(s, q, i) && i >= 1 ==> OccursAt(s[1..], q, i - 1);
      assert forall i :: OccursAt(s[1..], q, i) ==> OccursAt(s, q, i + 1);
      r
  }

  /** The empty query occurs in every string. */
  lemma IncludesEmpty(s: string)
    ensures Includes(s, "")
  {
    assert OccursAt(s, "", 0);
  }

  /** ASCII lower-casing of one character (`toLowerCase` restricted to ASCII). */
  function LowerChar(c: char): (r: char)
    ensures 'A' <= c <= 'Z' ==> 'a' <= r <= 'z'
    ensures !('A' <= c <= 'Z') ==> r == c
  {
    if 'A' <= c <= 'Z' then (c as int - 'A' as int + 'a' as int) as char else c
  }

  /** `s.toLowerCase()` for ASCII letters; other characters are kept. */
  function Lower(s: string): (r: string)
    ensures |r| == |s|
    ensures forall i :: 0 <= i < |s| ==> r[i] == LowerChar(s[i])
  {
    if s == [] then [] else [LowerChar(s[0])] + Lower(s[1..])
  }

  /** Python `s.split(c)[0]`: everything before the first `c`, or all of `s`. */
  function BeforeFirst(s: string, c: char): (r: string)
    ensures StartsWith(s, r)
    ensures c !in r
    ensures |r| < |s| ==> s[|r|] == c
  {
    if s == [] then ""
    else if s[0] == c then ""
    else [s[0]] + BeforeFirst(s[1..], c)
  }

  /** `sep.join(parts)`. */
  function Join(parts: seq<string>, sep: string): string
  {
    if parts == [] then ""
    else if |parts| == 1 then parts[0]
    else parts[0] + sep + Join(parts[1..], sep)
  }

  /** Joining a single part gives that part; joining nothing gives the empty string. */
  lemma JoinSmall(parts: seq<string>, sep: string)
    ensures parts == [] ==> Join(parts, sep) == ""
    ensures |parts| == 1 ==> Join(parts, sep) == parts[0]
  {
  }

  predicate IsDigit(c: char)
  {
    '0' <= c <= '9'
  }

  function DigitChar(d: int): (c: char)
    requires 0 <= d < 10
    ensures IsDigit(c)
  {
    ('0' as int + d) as char
  }

  /** Decimal notation of a natural number, without leading zeros. */
  function NatToString(n: nat): (s: string)
    ensures 1 <= |s|
    ensures n < 10 <==> |s| == 1
    ensures forall i :: 0 <= i < |s| ==> IsDigit(s[i])
    decreases n
  {
    if n < 10 then [DigitChar(n)] else NatToString(n / 10) + [DigitChar(n % 10)]
  }

  lemma {:induction false} NatToStringInjective(n: nat, m: nat)
    requires NatToString(n) == NatToString(m)
    ensures n == m
    decreases n
  {
    if n >= 10 && m >= 10 {
      var sn, sm := NatToString(n), NatToString(m);
      assert sn[..|sn| - 1] == NatToString(n / 10);
      assert sm[..|sm| - 1] == NatToString(m / 10);
      NatToStringInjective(n / 10, m / 10);
      assert DigitChar(n % 10) == sn[|sn| - 1] == DigitChar(m % 10);
    }
  }

  /** JavaScript `String(i)` for an integer: a minus sign, then the digits. */
  function IntToString(i: int): (s: string)
    ensures 1 <= |s|
    ensures s[0] == '-' <==> i < 0
  {
    if i < 0 then "-" + NatToString(-i) else NatToString(i)
  }

  lemma IntToStringInjective(i: int, j: int)
    requires IntToString(i) == IntToString(j)
    ensures i == j
  {
    if i < 0 && j < 0 {
      assert NatToString(-i) == IntToString(i)[1..];
      NatToStringInjective(-i, -j);
    } else if i >= 0 && j >= 0 {
      NatToStringInjective(i, j);
    }
  }

  /** `String(n).padStart(2, '0')`: two digits for every `n` below 100. */
  function Pad2(n: nat): (s: string)
    ensures n < 100 ==> s == [DigitChar(n / 10), DigitChar(n % 10)]
  {
    var t := NatToString(n);
    assert 10 <= n < 100 ==> t == NatToString(n / 10) + [DigitChar(n % 10)];
    if |t| < 2 then "0" + t else t
  }

  /** The four decimal digits of a number below 10000, most significant first. */
  function Digits4(n: nat): string
    requires n < 10000
  {
    [DigitChar(n / 10 / 10 / 10), DigitChar(n / 10 / 10 % 10), DigitChar(n / 10 % 10), DigitChar(n % 10)]
  }

  /** Python `"%04d" % n` for a natural number: exactly four digits below 10000. */
  function Pad4(n: nat): (s: string)
    ensures |s| >= 4
    ensures n < 10000 ==> s == Digits4(n)
  {
    var t := NatToString(n);
    NatToStringBound(n);
    NatToStringSmall(n);
    if |t| < 4 then seq(4 - |t|, _ => '0') + t else t
  }

  /** The digits of numbers below 10000, written out by their number of digits. */
  lemma NatToStringSmall(n: nat)
    ensures n < 10 ==> NatToString(n) == [DigitChar(n)]
    ensures 10 <= n < 100 ==> NatToString(n) == [DigitChar(n / 10), DigitChar(n % 10)]
    ensures 100 <= n < 1000 ==> NatToString(n) == [DigitChar(n / 10 / 10), DigitChar(n / 10 % 10), DigitChar(n % 10)]
    ensures 1000 <= n < 10000 ==> NatToString(n) == Digits4(n)
  {
    if 10 <= n < 10000 {
      assert NatToString(n) == NatToString(n / 10) + [DigitChar(n % 10)];
      if n >= 100 {
        assert NatToString(n / 10) == NatToString(n / 10 / 10) + [DigitChar(n / 10 % 10)];
        if n >= 1000 {
          assert NatToString(n / 10 / 10) == NatToString(n / 10 / 10 / 10) + [DigitChar(n / 10 / 10 % 10)];
        }
      }
    }
  }

  /** Different numbers below 10000 pad to different strings. */
  lemma Pad4Injective(n: nat, m: nat)
    requires n < 10000 && m < 10000
    requires Pad4(n) == Pad4(m)
    ensures n == m
  {
    var s := Pad4(n);
    assert DigitChar(n / 10 / 10 / 10) == s[0] == DigitChar(m / 10 / 10 / 10);
    assert DigitChar(n / 10 / 10 % 10) == s[1] == DigitChar(m / 10 / 10 % 10);
    assert DigitChar(n / 10 % 10) == s[2] == DigitChar(m / 10 % 10);
    assert DigitChar(n % 10) == s[3] == DigitChar(m % 10);
    assert n / 10 / 10 == m / 10 / 10;
    assert n / 10 == m / 10;
  }

  /** A number below 10^k has at most k digits. */
  lemma {:induction false} NatToStringBound(n: nat)
    ensures n < 10000 ==> |NatToString(n)| <= 4
    ensures n < 1000 ==> |NatToString(n)| <= 3
    ensures n < 100 ==> |NatToString(n)| <= 2
  {
    if n >= 10 {
      NatToStringBound(n / 10);
    }
  }

  /** Each string is strictly before the next one. */
  predicate StrictlyAscending(s: seq<string>)
  {
    forall i :: 0 <= i < |s| - 1 ==> Lt(s[i], s[i + 1])
  }

  /** A strictly ascending list is ordered between any two positions, so it has no repeats. */
  lemma {:induction false} StrictlyAscendingPairs(s: seq<string>, i: int, j: int)
    requires StrictlyAscending(s)
    requires 0 <= i < j < |s|
    ensures Lt(s[i], s[j]) && s[i] != s[j]
    decreases j - i
  {
    if j == i + 1 {
      LtIrreflexive(s[i]);
    } else {
      StrictlyAscendingPairs(s, i + 1, j);
      LtTransitive(s[i], s[i + 1], s[j]);
      LtIrreflexive(s[i]);
    }
  }

  /** Inserting `x` into a strictly ascending list, unless it is already there. */
  function InsertSorted(x: string, l: seq<string>): (r: seq<string>)
    requires StrictlyAscending(l)
    ensures StrictlyAscending(r)
    ensures forall y :: y in r <==> y == x || y in l
    ensures |r| > 0 && (r[0] == x || (l != [] && r[0] == l[0]))
  {
    if l == [] then [x]
    else if x == l[0] then l
    else if Lt(x, l[0]) then [x] + l
    else
      LtTotal(x, l[0]);
      var t := InsertSorted(x, l[1..]);
      assert forall y :: y in l <==> y == l[0] || y in l[1..];
      [l[0]] + t
  }

  /** `[...new Set(s)].sort()`: the distinct strings of `s` in ascending order. */
  function SortedUnique(s: seq<string>): (r: seq<string>)
    ensures StrictlyAscending(r)
    ensures forall y :: y in r <==> y in s
  {
    if s == [] then []
    else
      assert forall y :: y in s <==> y == s[0] || y in s[1..];
      InsertSorted(s[0], SortedUnique(s[1..]))
  }
}
