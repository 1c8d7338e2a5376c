/** Three-way comparisons and the lexicographic order they induce on sequences. */
module Orders {
  /** The outcome of a comparison: below, equal, above. */
  type Sign = s: int | -1 <= s <= 1

  ghost predicate IsTotalOrder<T(!new)>(cmp: (T, T) -> Sign) {
    && (forall x, y :: cmp(x, y) == -cmp(y, x))
    && (forall x, y :: cmp(x, y) == 0 <==> x == y)
    && (forall x, y, z :: cmp(x, y) <= 0 && cmp(y, z) <= 0 ==> cmp(x, z) <= 0)
  }

  function LexCompare<T>(cmp: (T, T) -> Sign, a: seq<T>, b: seq<T>): Sign {
    if |a| == 0 && |b| == 0 then 0
    else if |a| == 0 then -1
    else if |b| == 0 then 1
    else if cmp(a[0], b[0]) != 0 then cmp(a[0], b[0])
    else LexCompare(cmp, a[1..], b[1..])
  }

  lemma {:induction false} LexAntisymmetric<T(!new)>(cmp: (T, T) -> Sign, a: seq<T>, b: seq<T>)
    requires IsTotalOrder(cmp)
    ensures LexCompare(cmp, a, b) == -LexCompare(cmp, b, a)
  {
    if |a| > 0 && |b| > 0 {
      LexAntisymmetric(cmp, a[1..], b[1..]);
    }
  }

  lemma {:induction false} LexZero<T(!new)>(cmp: (T, T) -> Sign, a: seq<T>, b: seq<T>)
    requires IsTotalOrder(cmp)
    ensures LexCompare(cmp, a, b) == 0 <==> a == b
  {
    if |a| > 0 && |b| > 0 {
      LexZero(cmp, a[1..], b[1..]);
      assert a == [a[0]] + a[1..] && b == [b[0]] + b[1..];
    }
  }

  lemma {:induction false} LexTransitive<T(!new)>(cmp: (T, T) -> Sign, a: seq<T>, b: seq<T>, c: seq<T>)
    requires IsTotalOrder(cmp)
    requires LexCompare(cmp, a, b) <= 0 && LexCompare(cmp, b, c) <= 0
    ensures LexCompare(cmp, a, c) <= 0
  {
    if |a| > 0 && |b| > 0 && |c| > 0 && cmp(a[0], c[0]) == 0 {
      assert cmp(a[0], b[0]) <= 0 && cmp(b[0], c[0]) <= 0;
      assert cmp(b[0], c[0]) == -cmp(c[0], b[0]) && a[0] == c[0];
      LexTransitive(cmp, a[1..], b[1..], c[1..]);
    }
  }

  /** The first difference decides. */
  lemma {:induction false} LexFirstDifference<T(!new)>(cmp: (T, T) -> Sign, p: seq<T>, x: T, s: seq<T>, y: T, t: seq<T>)
    requires IsTotalOrder(cmp) && cmp(x, y) != 0
    ensures LexCompare(cmp, p + [x] + s, p + [y] + t) == cmp(x, y)
  {
    var a, b := p + [x] + s, p + [y] + t;
    if |p| > 0 {
      LexFirstDifference(cmp, p[1..], x, s, y, t);
      assert a[1..] == p[1..] + [x] + s && b[1..] == p[1..] + [y] + t;
      assert a[0] == b[0] && cmp(a[0], b[0]) == 0;
    }
  }

  /** A proper prefix comes first. */
  lemma {:induction false} LexPrefix<T(!new)>(cmp: (T, T) -> Sign, p: seq<T>, s: seq<T>)
    requires IsTotalOrder(cmp) && |s| > 0
    ensures LexCompare(cmp, p, p + s) == -1
  {
    if |p| > 0 {
      LexPrefix(cmp, p[1..], s);
      assert (p + s)[1..] == p[1..] + s;
      assert cmp(p[0], p[0]) == 0;
    }
  }

  function CompareChars(x: char, y: char): Sign {
    if x < y then -1 else if x > y then 1 else 0
  }

  /** The order of Go's string comparison: code points, then length. */
  function CompareStrings(a: string, b: string): Sign {
    LexCompare(CompareChars, a, b)
  }

  predicate StringLess(a: string, b: string) {
    CompareStrings(a, b) < 0
  }

  lemma StringsAreTotallyOrdered()
    ensures IsTotalOrder(CompareStrings)
  {
    forall a: string, b: string
      ensures CompareStrings(a, b) == -CompareStrings(b, a)
      ensures CompareStrings(a, b) == 0 <==> a == b
    {
      LexAntisymmetric(CompareChars, a, b);
      LexZero(CompareChars, a, b);
    }
    forall a: string, b: string, c: string | CompareStrings(a, b) <= 0 && CompareStrings(b, c) <= 0
      ensures CompareStrings(a, c) <= 0
    {
      LexTransitive(CompareChars, a, b, c);
    }
  }

  /** The first different character decides, the smaller one first, and a proper prefix comes first. */
  lemma StringsByFirstDifference(p: string, x: char, s: string, y: char, t: string)
    requires x < y
    ensures StringLess(p + [x] + s, p + [y] + t) && !StringLess(p + [y] + t, p + [x] + s)
    ensures StringLess(p, p + [x] + s)
  {
    LexFirstDifference(CompareChars, p, x, s, y, t);
    LexFirstDifference(CompareChars, p, y, t, x, s);
    LexPrefix(CompareChars, p, [x] + s);
    assert p + [x] + s == p + ([x] + s);
  }

  /** The strings that start with `p` are an interval of the order. */
  lemma {:induction false} PrefixInterval(p: string, a: string, b: string, c: string)
    requires p <= a && p <= c
    requires CompareStrings(a, b) <= 0 && CompareStrings(b, c) <= 0
    ensures p <= b
  {
    if p != [] {
      assert a[0] == p[0] == c[0];
      assert |b| > 0 && b[0] == p[0];
      assert p[1..] <= a[1..] && p[1..] <= c[1..];
      PrefixInterval(p[1..], a[1..], b[1..], c[1..]);
      assert b == [b[0]] + b[1..] && p == [p[0]] + p[1..];
    }
  }
}
