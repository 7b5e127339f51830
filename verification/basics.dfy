/** Shared vocabulary of the marketplace model: optional values, the clock's
    units, money in cents, the decimal rendering used by notification texts
    and job reports, and two small sequence helpers. */
module Basics {

  /** A value that may be absent (a nullable database column). */
  datatype Option<+T> = None | Some(value: T)

  /** An instant, in whole seconds since the Unix epoch (1970-01-01 00:00:00 UTC). */
  type Timestamp = int

  /** A calendar day, numbered consecutively. */
  type Date = int

  const SecondsPerDay: int := 86400

  /** A wall-clock time of day, in seconds after midnight (a TimeField). */
  type TimeOfDay = t: int | 0 <= t < 86400

  /** A money amount in integer cents: a decimal with two places is exact. */
  type Cents = int

  // ---------------------------------------------------------------------
  // Decimal rendering

  predicate IsDigit(c: char) {
    '0' <= c <= '9'
  }

  predicate AllDigits(s: string) {
    forall i :: 0 <= i < |s| ==> IsDigit(s[i])
  }

  function DigitChar(d: nat): (c: char)
    requires d < 10
    ensures IsDigit(c) && c as int - '0' as int == d
  {
    "0123456789"[d]
  }

  /** Decimal digits of `n`, most significant first, no leading zeros. */
  function NatToString(n: nat): (s: string)
    ensures |s| >= 1 && AllDigits(s)
    ensures n >= 10 <==> |s| >= 2
    decreases n
  {
    if n < 10 then [DigitChar(n)] else NatToString(n / 10) + [DigitChar(n % 10)]
  }

  /** The number a string of decimal digits denotes (the reading direction). */
  function DigitsValue(s: string): nat
    requires AllDigits(s)
  {
    if s == [] then 0
    else DigitsValue(s[..|s| - 1]) * 10 + (s[|s| - 1] as int - '0' as int)
  }

  /** Reading back a rendered number gives the number. */
  lemma {:induction false} NatToStringRoundTrip(n: nat)
    ensures DigitsValue(NatToString(n)) == n
    decreases n
  {
    if n >= 10 {
      var s := NatToString(n);
      assert s[..|s| - 1] == NatToString(n / 10);
      NatToStringRoundTrip(n / 10);
    }
  }

  /** Rendering is injective: distinct numbers give distinct texts. */
  lemma NatToStringInjective(m: nat, n: nat)
    requires NatToString(m) == NatToString(n)
    ensures m == n
  {
    NatToStringRoundTrip(m);
    NatToStringRoundTrip(n);
  }

  /** A two-place decimal as Python's `str(Decimal)` shows it: an optional
      minus sign, the integer part, a point and exactly two fraction digits. */
  function FormatCents(c: Cents): (s: string)
    ensures |s| >= 4 && s[|s| - 3] == '.'
    ensures IsDigit(s[|s| - 2]) && IsDigit(s[|s| - 1])
    ensures (s[0] == '-') <==> c < 0
  {
    var a: nat := if c < 0 then -c else c;
    var fraction := a % 100;
    (if c < 0 then "-" else "") + NatToString(a / 100) + "."
      + [DigitChar(fraction / 10), DigitChar(fraction % 10)]
  }

  /** Read an amount written the way `FormatCents` writes it: an optional
      minus sign, integer digits, a point and two fraction digits. */
  function ReadCents(s: string): Option<Cents> {
    var sign := if |s| > 0 && s[0] == '-' then 1 else 0;
    if |s| >= sign + 4 && s[|s| - 3] == '.' && AllDigits(s[sign..|s| - 3]) && AllDigits(s[|s| - 2..]) then
      var a := DigitsValue(s[sign..|s| - 3]) * 100 + DigitsValue(s[|s| - 2..]);
      Some(if sign == 1 then -a else a)
    else None
  }

  /** The rendered amount reads back as the amount, sign included: after
      the sign, the integer part times one hundred plus the two fraction
      digits is the magnitude. */
  lemma FormatCentsRoundTrip(c: Cents)
    ensures var s := FormatCents(c);
      var sign := if c < 0 then 1 else 0;
      && |s| >= sign + 4
      && AllDigits(s[sign..|s| - 3]) && AllDigits(s[|s| - 2..])
      && DigitsValue(s[sign..|s| - 3]) * 100 + DigitsValue(s[|s| - 2..]) == (if c < 0 then -c else c)
    ensures ReadCents(FormatCents(c)) == Some(c)
  {
    var a: nat := if c < 0 then -c else c;
    UnsignedCentsRoundTrip(a);
    var s := FormatCents(c);
    var t := FormatCents(a);
    if c < 0 {
      assert s == "-" + t;
      assert s[1..|s| - 3] == t[..|t| - 3];
      assert s[|s| - 2..] == t[|t| - 2..];
    } else {
      assert s[0..|s| - 3] == t[..|t| - 3];
    }
  }

  /** The round trip for a magnitude, which is rendered without a sign. */
  lemma UnsignedCentsRoundTrip(a: nat)
    ensures var s := FormatCents(a);
      AllDigits(s[..|s| - 3]) && AllDigits(s[|s| - 2..])
      && DigitsValue(s[..|s| - 3]) * 100 + DigitsValue(s[|s| - 2..]) == a
  {
    var s := FormatCents(a);
    var f := a % 100;
    var whole := NatToString(a / 100);
    var two := [DigitChar(f / 10), DigitChar(f % 10)];
    assert s == whole + "." + two;
    assert s[..|s| - 3] == whole;
    NatToStringRoundTrip(a / 100);
    var tail := s[|s| - 2..];
    assert tail == two;
    assert tail[..1] == [DigitChar(f / 10)];
    assert tail[..1][..0] == [];
    assert DigitsValue(tail[..1]) == f / 10;
    assert DigitsValue(tail) == f;
  }

  // ---------------------------------------------------------------------
  // Sequence helpers

  /** The elements of `xs` that satisfy `keep`, in their original order. */
  function Filter<T>(xs: seq<T>, keep: T -> bool): (ys: seq<T>)
    ensures |ys| <= |xs|
    ensures forall y :: y in ys ==> y in xs && keep(y)
    ensures forall x :: x in xs && keep(x) ==> x in ys
  {
    if xs == [] then []
    else (if keep(xs[0]) then [xs[0]] else []) + Filter(xs[1..], keep)
  }

  /** How many elements of `xs` satisfy `p` (a SQL `COUNT` under a filter). */
  function CountWhere<T>(xs: seq<T>, p: T -> bool): (n: nat)
    ensures n <= |xs|
  {
    if xs == [] then 0
    else (if p(xs[0]) then 1 else 0) + CountWhere(xs[1..], p)
  }

  lemma {:induction false} CountWhereAppend<T>(xs: seq<T>, ys: seq<T>, p: T -> bool)
    ensures CountWhere(xs + ys, p) == CountWhere(xs, p) + CountWhere(ys, p)
  {
    if xs != [] {
      assert (xs + ys)[0] == xs[0];
      assert (xs + ys)[1..] == xs[1..] + ys;
      CountWhereAppend(xs[1..], ys, p);
    } else {
      assert xs + ys == ys;
    }
  }

  /** A positive count means some element satisfies the filter. */
  lemma {:induction false} CountWherePositive<T>(xs: seq<T>, p: T -> bool)
    ensures CountWhere(xs, p) >= 1 <==> exists x :: x in xs && p(x)
  {
    if xs != [] {
      CountWherePositive(xs[1..], p);
      if p(xs[0]) {
        assert xs[0] in xs;
      } else {
        forall x | x in xs && p(x) ensures x in xs[1..] {
          assert x != xs[0];
        }
      }
    }
  }

  predicate NoDuplicates<T(==)>(xs: seq<T>) {
    forall i, j :: 0 <= i < j < |xs| ==> xs[i] != xs[j]
  }

  /** Dropping the head of a duplicate-free sequence keeps it duplicate-free
      and removes the head's only occurrence. */
  lemma NoDuplicatesTail<T>(xs: seq<T>)
    requires NoDuplicates(xs) && xs != []
    ensures NoDuplicates(xs[1..]) && xs[0] !in xs[1..]
    ensures forall x :: x in xs <==> x == xs[0] || x in xs[1..]
  {
    var rest := xs[1..];
    forall i, j | 0 <= i < j < |rest| ensures rest[i] != rest[j] {
      assert rest[i] == xs[i + 1] && rest[j] == xs[j + 1];
    }
    forall k | 0 <= k < |rest| ensures rest[k] != xs[0] {
      assert rest[k] == xs[k + 1];
    }
    assert xs == [xs[0]] + rest;
  }

  /** A duplicate-free sequence is as long as the set of its elements. */
  lemma {:induction false} DistinctLength<T>(xs: seq<T>)
    requires NoDuplicates(xs)
    ensures |set x | x in xs| == |xs|
  {
    if xs != [] {
      var rest := xs[1..];
      NoDuplicatesTail(xs);
      DistinctLength(rest);
      assert (set x | x in xs) == (set x | x in rest) + {xs[0]};
    }
  }

  /** The set of values a sequence takes has at most as many elements as the
      sequence. */
  lemma {:induction false} ImageSizeBound<T, K>(xs: seq<T>, key: T -> K)
    ensures |set x | x in xs :: key(x)| <= |xs|
  {
    if xs != [] {
      var rest := xs[1..];
      ImageSizeBound(rest, key);
      assert (set x | x in xs :: key(x)) == (set x | x in rest :: key(x)) + {key(xs[0])};
    }
  }

  /** Each element of `xs` once, in order of last occurrence. */
  function Distinct<T(==)>(xs: seq<T>): (ys: seq<T>)
    ensures NoDuplicates(ys)
    ensures |ys| <= |xs|
  {
    if xs == [] then []
    else
      var rest := Distinct(xs[1..]);
      if xs[0] in rest then rest
      else
        assert NoDuplicates([xs[0]] + rest) by {
          forall i, j | 0 <= i < j < |[xs[0]] + rest|
            ensures ([xs[0]] + rest)[i] != ([xs[0]] + rest)[j]
          {
            assert ([xs[0]] + rest)[j] == rest[j - 1];
            if i > 0 {
              assert ([xs[0]] + rest)[i] == rest[i - 1];
            }
          }
        }
        [xs[0]] + rest
  }

  /** Every element of `xs` survives in `Distinct(xs)`. */
  lemma {:induction false} DistinctKeeps<T>(xs: seq<T>, x: T)
    requires x in xs
    ensures x in Distinct(xs)
    decreases |xs|
  {
    if x != xs[0] {
      assert x in xs[1..];
      DistinctKeeps(xs[1..], x);
    }
  }

  /** `Distinct(xs)` holds nothing that is not in `xs`. */
  lemma {:induction false} DistinctFrom<T>(xs: seq<T>, y: T)
    requires y in Distinct(xs)
    ensures y in xs
    decreases |xs|
  {
    if xs != [] && y != xs[0] {
      DistinctFrom(xs[1..], y);
    }
  }

  // ---------------------------------------------------------------------
  // Ordering by an integer key (an SQL `ORDER BY`)

  predicate SortedBy<T>(xs: seq<T>, key: T -> int) {
    forall i, j :: 0 <= i < j < |xs| ==> key(xs[i]) <= key(xs[j])
  }

  /** Insert `x` into `ys` before the first element with a larger or equal
      key. */
  function InsertBy<T>(x: T, ys: seq<T>, key: T -> int): (zs: seq<T>)
    requires SortedBy(ys, key)
    ensures SortedBy(zs, key)
    ensures multiset(zs) == multiset(ys) + multiset{x}
    ensures |zs| == |ys| + 1
    ensures zs[0] == x || (ys != [] && zs[0] == ys[0])
  {
    if ys == [] then [x]
    else if key(x) <= key(ys[0]) then [x] + ys
    else
      var tail := InsertBy(x, ys[1..], key);
      assert ys == [ys[0]] + ys[1..];
      [ys[0]] + tail
  }

  /** `xs` reordered by ascending key: a permutation that is sorted. */
  function SortBy<T>(xs: seq<T>, key: T -> int): (ys: seq<T>)
    ensures SortedBy(ys, key)
    ensures multiset(ys) == multiset(xs)
    ensures |ys| == |xs|
  {
    if xs == [] then []
    else
      assert xs == [xs[0]] + xs[1..];
      InsertBy(xs[0], SortBy(xs[1..], key), key)
  }

  /** The sum of `f` over `xs` (an SQL `SUM`). */
  function SumBy<T>(xs: seq<T>, f: T -> nat): nat {
    if xs == [] then 0 else f(xs[0]) + SumBy(xs[1..], f)
  }

  lemma {:induction false} InsertBySum<T>(x: T, ys: seq<T>, key: T -> int, f: T -> nat)
    requires SortedBy(ys, key)
    ensures SumBy(InsertBy(x, ys, key), f) == f(x) + SumBy(ys, f)
    decreases |ys|
  {
    if ys != [] && key(x) > key(ys[0]) {
      InsertBySum(x, ys[1..], key, f);
    } else if ys != [] {
      assert ([x] + ys)[1..] == ys;
    }
  }

  /** Reordering keeps every sum. */
  lemma {:induction false} SortBySum<T>(xs: seq<T>, key: T -> int, f: T -> nat)
    ensures SumBy(SortBy(xs, key), f) == SumBy(xs, f)
    decreases |xs|
  {
    if xs != [] {
      SortBySum(xs[1..], key, f);
      InsertBySum(xs[0], SortBy(xs[1..], key), key, f);
    }
  }

  /** No two elements of `xs` share a key. */
  predicate DistinctBy<T>(xs: seq<T>, key: T -> int) {
    forall i, j :: 0 <= i < j < |xs| ==> key(xs[i]) != key(xs[j])
  }

  lemma {:induction false} InsertByDistinct<T>(x: T, ys: seq<T>, key: T -> int, other: T -> int)
    requires SortedBy(ys, key) && DistinctBy(ys, other)
    requires forall i :: 0 <= i < |ys| ==> other(ys[i]) != other(x)
    ensures DistinctBy(InsertBy(x, ys, key), other)
    decreases |ys|
  {
    var zs := InsertBy(x, ys, key);
    if ys != [] {
      if key(x) <= key(ys[0]) {
        forall i, j | 0 <= i < j < |zs| ensures other(zs[i]) != other(zs[j]) {
          assert zs[j] == ys[j - 1];
          if i > 0 {
            assert zs[i] == ys[i - 1];
          }
        }
      } else {
        var tail := InsertBy(x, ys[1..], key);
        InsertByDistinct(x, ys[1..], key, other);
        assert zs == [ys[0]] + tail;
        forall j | 0 <= j < |tail| ensures other(tail[j]) != other(ys[0]) {
          assert tail[j] in multiset(tail);
          if tail[j] != x {
            assert tail[j] in multiset(ys[1..]);
            var k :| 0 <= k < |ys[1..]| && ys[1..][k] == tail[j];
            assert ys[k + 1] == tail[j];
          }
        }
        forall i, j | 0 <= i < j < |zs| ensures other(zs[i]) != other(zs[j]) {
          assert zs[j] == tail[j - 1];
          if i > 0 {
            assert zs[i] == tail[i - 1];
          }
        }
      }
    }
  }

  /** Reordering keeps distinct keys distinct, whatever the sort key. */
  lemma {:induction false} SortByDistinct<T>(xs: seq<T>, key: T -> int, other: T -> int)
    requires DistinctBy(xs, other)
    ensures DistinctBy(SortBy(xs, key), other)
    decreases |xs|
  {
    if xs != [] {
      var rest := SortBy(xs[1..], key);
      assert DistinctBy(xs[1..], other) by {
        forall i, j | 0 <= i < j < |xs[1..]| ensures other(xs[1..][i]) != other(xs[1..][j]) {
          assert xs[1..][i] == xs[i + 1] && xs[1..][j] == xs[j + 1];
        }
      }
      SortByDistinct(xs[1..], key, other);
      forall i | 0 <= i < |rest| ensures other(rest[i]) != other(xs[0]) {
        assert rest[i] in multiset(rest);
        var k :| 0 <= k < |xs[1..]| && xs[1..][k] == rest[i];
        assert xs[k + 1] == rest[i];
      }
      InsertByDistinct(xs[0], rest, key, other);
    }
  }
}
