/**
 * String helpers for the Python and C++ string operations the model uses: prefix and
 * substring tests, stripping, lexicographic order (Python's `<` on str, by code point),
 * sorting a set, and decimal rendering of integers (`%d`).
 */
module Strings {

  predicate StartsWith(s: string, prefix: string) {
    |prefix| <= |s| && s[..|prefix|] == prefix
  }

  /** Python's `sub in s`: the empty string occurs in every string. */
  predicate Contains(s: string, sub: string)
    decreases |s|
  {
    StartsWith(s, sub) || (|s| > 0 && Contains(s[1..], sub))
  }

  /** A string without the first character of `sub` does not contain `sub`. */
  lemma {:induction false} NotContainsFirst(s: string, sub: string)
    requires |sub| > 0 && sub[0] !in s
    ensures !Contains(s, sub)
    decreases |s|
  {
    if |s| > 0 {
      assert s[0] != sub[0];
      assert sub[0] !in s[1..] by { assert forall c :: c in s[1..] ==> c in s; }
      NotContainsFirst(s[1..], sub);
    }
  }

  /** Python's `s.lstrip(c)` for a single character `c`. */
  function LStrip(s: string, c: char): (r: string)
    ensures |r| <= |s| && s[|s| - |r|..] == r
    ensures r == [] || r[0] != c
    ensures forall i :: 0 <= i < |s| - |r| ==> s[i] == c
  {
    if |s| > 0 && s[0] == c then LStrip(s[1..], c) else s
  }

  /** Lexicographic order on strings by character code, as Python compares str values. */
  predicate Less(a: string, b: string)
    decreases |a|
  {
    if |a| == 0 then |b| > 0
    else if |b| == 0 then false
    else if a[0] < b[0] then true
    else a[0] == b[0] && Less(a[1..], b[1..])
  }

  lemma {:induction false} LessIrreflexive(a: string)
    ensures !Less(a, a)
    decreases |a|
  {
    if |a| > 0 { LessIrreflexive(a[1..]); }
  }

  lemma {:induction false} LessTransitive(a: string, b: string, c: string)
    requires Less(a, b) && Less(b, c)
    ensures Less(a, c)
    decreases |a|
  {
    if |a| > 0 && |b| > 0 && |c| > 0 && a[0] == b[0] && b[0] == c[0] {
      LessTransitive(a[1..], b[1..], c[1..]);
    }
  }

  lemma {:induction false} LessTotal(a: string, b: string)
    requires a != b
    ensures Less(a, b) || Less(b, a)
    decreases |a|
  {
    if |a| > 0 && |b| > 0 && a[0] == b[0] {
      assert a == [a[0]] + a[1..] && b == [b[0]] + b[1..];
      LessTotal(a[1..], b[1..]);
    }
  }

  lemma {:induction false} LessAntisymmetric(a: string, b: string)
    ensures !(Less(a, b) && Less(b, a))
  {
    if Less(a, b) { LessAsymmetric(a, b); }
  }

  lemma {:induction false} LessAsymmetric(a: string, b: string)
    requires Less(a, b)
    ensures !Less(b, a)
  {
    if Less(b, a) { LessTransitive(a, b, a); LessIrreflexive(a); }
  }

  predicate StrictlySorted(q: seq<string>) {
    forall i, j :: 0 <= i < j < |q| ==> Less(q[i], q[j])
  }

  /** The head of a sorted sequence is below every other member, and the tail is the rest. */
  lemma {:induction false} SortedTail(q: seq<string>)
    requires StrictlySorted(q) && q != []
    ensures StrictlySorted(q[1..])
    ensures forall x :: x in q ==> x == q[0] || Less(q[0], x)
    ensures forall x :: x in q[1..] <==> x in q && x != q[0]
  {
    forall x | x in q[1..]
      ensures x in q && x != q[0]
    {
      var j :| 0 <= j < |q[1..]| && q[1..][j] == x;
      assert q[j + 1] == x;
      LessIrreflexive(x);
    }
    forall x | x in q && x != q[0]
      ensures x in q[1..]
    {
      var j :| 0 <= j < |q| && q[j] == x;
      assert q[1..][j - 1] == x;
    }
  }

  predicate IsLeast(m: string, s: set<string>) {
    m in s && forall x :: x in s ==> !Less(x, m)
  }

  lemma {:induction false} LeastExists(s: set<string>)
    requires s != {}
    ensures exists m :: IsLeast(m, s)
    decreases |s|
  {
    var x :| x in s;
    if s == {x} {
      LessIrreflexive(x);
      assert IsLeast(x, s);
    } else {
      LeastExists(s - {x});
      var m :| IsLeast(m, s - {x});
      if Less(x, m) {
        forall y | y in s ensures !Less(y, x) {
          if y == x { LessIrreflexive(x); }
          else if Less(y, x) { LessTransitive(y, x, m); }
        }
        assert IsLeast(x, s);
      } else {
        assert IsLeast(m, s);
      }
    }
  }

  lemma {:induction false} LeastUnique(s: set<string>)
    ensures forall m1, m2 :: IsLeast(m1, s) && IsLeast(m2, s) ==> m1 == m2
  {
    forall m1, m2 | IsLeast(m1, s) && IsLeast(m2, s) ensures m1 == m2 {
      if m1 != m2 { LessTotal(m1, m2); }
    }
  }

  /** The smallest member of a non-empty set. */
  function Least(s: set<string>): (m: string)
    requires s != {}
    ensures IsLeast(m, s)
  {
    LeastExists(s);
    LeastUnique(s);
    var m :| IsLeast(m, s);
    m
  }

  /** Python's `sorted(s)` for a set of strings. */
  function SortedSet(s: set<string>): (r: seq<string>)
    ensures StrictlySorted(r)
    ensures forall x :: x in r <==> x in s
    ensures |r| == |s|
    decreases |s|
  {
    if s == {} then []
    else
      var m := Least(s);
      var rest := SortedSet(s - {m});
      assert forall x :: x in rest ==> Less(m, x) by {
        forall x | x in rest ensures Less(m, x) { LessTotal(m, x); }
      }
      [m] + rest
  }

  /** The decimal digit character for 0 <= d < 10. */
  function DigitChar(d: nat): char
    requires d < 10
  {
    ['0', '1', '2', '3', '4', '5', '6', '7', '8', '9'][d]
  }

  /** The value of a decimal digit character. */
  function DigitValue(c: char): (d: nat)
    ensures d < 10
  {
    if '0' <= c <= '9' then (c as int - '0' as int) else 0
  }

  predicate IsDigit(c: char) { '0' <= c <= '9' }

  /** C's `%d` for a non-negative int. */
  function IntToString(n: nat): (r: string)
    ensures |r| > 0
    ensures forall i :: 0 <= i < |r| ==> IsDigit(r[i])
    decreases n
  {
    if n < 10 then [DigitChar(n)] else IntToString(n / 10) + [DigitChar(n % 10)]
  }

  /** Reads a string of decimal digits back into the number it denotes. */
  function ParseDecimal(s: string): nat
    decreases |s|
  {
    if s == [] then 0 else 10 * ParseDecimal(s[..|s| - 1]) + DigitValue(s[|s| - 1])
  }

  lemma {:induction false} ParseIntToString(n: nat)
    ensures ParseDecimal(IntToString(n)) == n
    decreases n
  {
    var r := IntToString(n);
    if n < 10 {
      assert r[..0] == [];
    } else {
      ParseIntToString(n / 10);
      assert r[..|r| - 1] == IntToString(n / 10);
    }
  }

  /** Distinct counters render to distinct strings. */
  lemma {:induction false} IntToStringInjective(m: nat, n: nat)
    requires IntToString(m) == IntToString(n)
    ensures m == n
  {
    ParseIntToString(m);
    ParseIntToString(n);
  }

  /** A number of at least 10^k has more than k digits. */
  lemma {:induction false} IntToStringLength(n: nat, k: nat)
    requires n >= Pow10(k)
    ensures |IntToString(n)| > k
    decreases k
  {
    if k > 0 {
      assert n >= 10 by { Pow10Positive(k - 1); }
      assert n / 10 >= Pow10(k - 1);
      IntToStringLength(n / 10, k - 1);
    }
  }

  function Pow10(k: nat): nat {
    if k == 0 then 1 else 10 * Pow10(k - 1)
  }

  lemma Pow10Positive(k: nat)
    ensures Pow10(k) >= 1
  {}

  /** Appending a part puts one separator before it, unless it is the first part. */
  lemma {:induction false} JoinAppend(parts: seq<string>, p: string, sep: string)
    ensures Join(parts + [p], sep) == if parts == [] then p else Join(parts, sep) + sep + p
    decreases |parts|
  {
    if parts != [] {
      assert (parts + [p])[1..] == parts[1..] + [p];
      if |parts| > 1 {
        JoinAppend(parts[1..], p, sep);
      }
    }
  }

  /** `Join(parts, sep)`: the parts with `sep` between consecutive ones. */
  function Join(parts: seq<string>, sep: string): (r: string)
    decreases |parts|
  {
    if parts == [] then ""
    else if |parts| == 1 then parts[0]
    else parts[0] + sep + Join(parts[1..], sep)
  }
}
