/** Filtering and stable sorting of sequences, and an insertion sort that works in place. */
module Sorting {
  /** The elements of `s` that satisfy `keep`, in their original order. */
  function Filter<T>(keep: T -> bool, s: seq<T>): seq<T> {
    if |s| == 0 then []
    else
      var kept := Filter(keep, s[..|s| - 1]);
      if keep(s[|s| - 1]) then kept + [s[|s| - 1]] else kept
  }

  lemma {:induction false} FilterMembers<T>(keep: T -> bool, s: seq<T>)
    ensures forall x :: x in Filter(keep, s) <==> x in s && keep(x)
    ensures |Filter(keep, s)| <= |s|
  {
    if |s| > 0 {
      var n := |s| - 1;
      FilterMembers(keep, s[..n]);
      assert s == s[..n] + [s[n]];
    }
  }

  lemma {:induction false} FilterConcat<T>(keep: T -> bool, a: seq<T>, b: seq<T>)
    ensures Filter(keep, a + b) == Filter(keep, a) + Filter(keep, b)
  {
    if |b| == 0 {
      assert a + b == a;
    } else {
      var n := |b| - 1;
      FilterConcat(keep, a, b[..n]);
      assert (a + b)[..|a + b| - 1] == a + b[..n];
    }
  }

  lemma {:induction false} FilterAll<T>(keep: T -> bool, s: seq<T>)
    requires forall x | x in s :: keep(x)
    ensures Filter(keep, s) == s
  {
    if |s| > 0 {
      FilterAll(keep, s[..|s| - 1]);
    }
  }

  lemma {:induction false} FilterNone<T>(keep: T -> bool, s: seq<T>)
    requires forall x | x in s :: !keep(x)
    ensures Filter(keep, s) == []
  {
    if |s| > 0 {
      FilterNone(keep, s[..|s| - 1]);
    }
  }

  lemma {:induction false} FilterMultiset<T>(keep: T -> bool, s: seq<T>, x: T)
    ensures multiset(Filter(keep, s))[x] == if keep(x) then multiset(s)[x] else 0
  {
    if |s| > 0 {
      var n := |s| - 1;
      FilterMultiset(keep, s[..n], x);
      assert s == s[..n] + [s[n]];
    }
  }

  /** `x` placed behind every trailing element it is not less than. */
  function StableInsert<T>(less: (T, T) -> bool, s: seq<T>, x: T): seq<T> {
    if |s| == 0 || !less(x, s[|s| - 1]) then s + [x]
    else StableInsert(less, s[..|s| - 1], x) + [s[|s| - 1]]
  }

  function StableSort<T>(less: (T, T) -> bool, s: seq<T>): (r: seq<T>) {
    if |s| == 0 then []
    else StableInsert(less, StableSort(less, s[..|s| - 1]), s[|s| - 1])
  }

  ghost predicate IsStrictWeakOrder<T(!new)>(less: (T, T) -> bool) {
    && (forall x, y :: less(x, y) ==> !less(y, x))
    && (forall x, y, z :: !less(y, x) && !less(z, y) ==> !less(z, x))
  }

  ghost predicate IsStrictTotalOrder<T(!new)>(less: (T, T) -> bool) {
    && IsStrictWeakOrder(less)
    && (forall x, y :: !less(x, y) && !less(y, x) ==> x == y)
  }

  ghost predicate Sorted<T>(less: (T, T) -> bool, s: seq<T>) {
    forall i, j :: 0 <= i < j < |s| ==> !less(s[j], s[i])
  }

  lemma {:induction false} InsertMembers<T>(less: (T, T) -> bool, s: seq<T>, x: T)
    ensures multiset(StableInsert(less, s, x)) == multiset(s) + multiset{x}
    ensures |StableInsert(less, s, x)| == |s| + 1
    ensures forall y :: y in StableInsert(less, s, x) <==> y in s || y == x
  {
    if |s| != 0 && less(x, s[|s| - 1]) {
      InsertMembers(less, s[..|s| - 1], x);
      assert s == s[..|s| - 1] + [s[|s| - 1]];
    }
  }

  lemma {:induction false} SortPermutes<T>(less: (T, T) -> bool, s: seq<T>)
    ensures multiset(StableSort(less, s)) == multiset(s)
    ensures |StableSort(less, s)| == |s|
  {
    if |s| != 0 {
      SortPermutes(less, s[..|s| - 1]);
      InsertMembers(less, StableSort(less, s[..|s| - 1]), s[|s| - 1]);
      assert s == s[..|s| - 1] + [s[|s| - 1]];
    }
  }

  lemma {:induction false} InsertSorted<T(!new)>(less: (T, T) -> bool, s: seq<T>, x: T)
    requires IsStrictWeakOrder(less) && Sorted(less, s)
    ensures Sorted(less, StableInsert(less, s, x))
  {
    if |s| != 0 {
      var n := |s| - 1;
      if less(x, s[n]) {
        InsertSorted(less, s[..n], x);
        InsertMembers(less, s[..n], x);
        var r := StableInsert(less, s[..n], x);
        forall i | 0 <= i < |r|
          ensures !less(s[n], r[i])
        {
          assert r[i] in r;
        }
      } else {
        assert forall i :: 0 <= i < n ==> !less(s[n], s[i]);
      }
    }
  }

  lemma {:induction false} SortSorts<T(!new)>(less: (T, T) -> bool, s: seq<T>)
    requires IsStrictWeakOrder(less)
    ensures Sorted(less, StableSort(less, s))
  {
    if |s| != 0 {
      SortSorts(less, s[..|s| - 1]);
      InsertSorted(less, StableSort(less, s[..|s| - 1]), s[|s| - 1]);
    }
  }

  lemma {:induction false} SortOfSorted<T>(less: (T, T) -> bool, s: seq<T>)
    requires Sorted(less, s)
    ensures StableSort(less, s) == s
  {
    if |s| != 0 {
      var n := |s| - 1;
      SortOfSorted(less, s[..n]);
      assert s == s[..n] + [s[n]];
      assert n == 0 || !less(s[n], s[n - 1]);
    }
  }

  lemma {:induction false} FilterAgrees<T>(p: T -> bool, q: T -> bool, s: seq<T>)
    requires forall x | x in s :: p(x) == q(x)
    ensures Filter(p, s) == Filter(q, s)
  {
    if |s| > 0 {
      assert s[|s| - 1] in s;
      FilterAgrees(p, q, s[..|s| - 1]);
    }
  }

  lemma {:induction false} FilterTwice<T>(p: T -> bool, q: T -> bool, s: seq<T>)
    requires forall x | x in s :: p(x) ==> q(x)
    ensures Filter(p, Filter(q, s)) == Filter(p, s)
  {
    if |s| > 0 {
      var init, last := s[..|s| - 1], s[|s| - 1];
      assert last in s;
      FilterTwice(p, q, init);
      FilterPush(p, Filter(q, init), last);
    }
  }

  lemma {:induction false} FilterFirst<T>(keep: T -> bool, s: seq<T>, i: nat)
    requires i < |s| && Filter(keep, s[..i]) == [] && keep(s[i])
    ensures Filter(keep, s) != [] && Filter(keep, s)[0] == s[i]
  {
    if i < |s| - 1 {
      assert s[..|s| - 1][..i] == s[..i];
      FilterFirst(keep, s[..|s| - 1], i);
    }
  }

  /** One more element of a sequence from which nothing has been kept so far. */
  lemma FilterNext<T>(keep: T -> bool, s: seq<T>, i: nat)
    requires i < |s| && Filter(keep, s[..i]) == []
    ensures keep(s[i]) ==> Filter(keep, s) != [] && Filter(keep, s)[0] == s[i]
    ensures !keep(s[i]) ==> Filter(keep, s[..i + 1]) == []
  {
    if keep(s[i]) {
      FilterFirst(keep, s, i);
    } else {
      FilterPush(keep, s[..i], s[i]);
      assert s[..i + 1] == s[..i] + [s[i]];
    }
  }

  /** Where the first kept element comes from. */
  lemma {:induction false} FirstKept<T>(keep: T -> bool, s: seq<T>) returns (i: nat)
    requires Filter(keep, s) != []
    ensures i < |s| && keep(s[i]) && Filter(keep, s)[0] == s[i]
    ensures forall k :: 0 <= k < i ==> !keep(s[k])
  {
    var init := s[..|s| - 1];
    if Filter(keep, init) == [] {
      i := |init|;
      forall k | 0 <= k < i
        ensures !keep(s[k])
      {
        FilterMembers(keep, init);
        assert init[k] in init;
      }
    } else {
      i := FirstKept(keep, init);
    }
  }

  lemma FilterPush<T>(keep: T -> bool, s: seq<T>, x: T)
    ensures Filter(keep, s + [x]) == if keep(x) then Filter(keep, s) + [x] else Filter(keep, s)
  {
  }

  lemma FilterTwo<T>(keep: T -> bool, x: T, y: T)
    ensures Filter(keep, [x, y]) == (if keep(x) then [x] else []) + (if keep(y) then [y] else [])
  {
    assert [x, y] == [x] + [y] && [x] == [] + [x];
    FilterPush(keep, [x], y);
    FilterPush(keep, [], x);
  }

  lemma FilterThree<T>(keep: T -> bool, x: T, y: T, z: T)
    ensures Filter(keep, [x, y, z])
         == (if keep(x) then [x] else []) + (if keep(y) then [y] else []) + (if keep(z) then [z] else [])
  {
    assert [x, y, z] == [x, y] + [z];
    FilterPush(keep, [x, y], z);
    FilterTwo(keep, x, y);
  }

  lemma InsertPush<T>(less: (T, T) -> bool, s: seq<T>, last: T, x: T)
    ensures StableInsert(less, s + [last], x)
         == if less(x, last) then StableInsert(less, s, x) + [last] else s + [last] + [x]
  {
  }

  lemma SortPush<T>(less: (T, T) -> bool, s: seq<T>, x: T)
    ensures StableSort(less, s + [x]) == StableInsert(less, StableSort(less, s), x)
  {
  }

  lemma SortedLast<T(!new)>(less: (T, T) -> bool, s: seq<T>, y: T, x: T)
    requires IsStrictWeakOrder(less) && Sorted(less, s)
    requires y in s && !less(x, s[|s| - 1])
    ensures !less(x, y)
  {
  }

  /** An element not less than the last of a sorted sequence goes to the end of any filtering of it. */
  lemma InsertAtEnd<T(!new)>(less: (T, T) -> bool, keep: T -> bool, s: seq<T>, x: T)
    requires IsStrictWeakOrder(less) && Sorted(less, s)
    requires |s| > 0 ==> !less(x, s[|s| - 1])
    ensures StableInsert(less, Filter(keep, s), x) == Filter(keep, s) + [x]
  {
    var kept := Filter(keep, s);
    if |kept| > 0 {
      FilterMembers(keep, s);
      assert kept[|kept| - 1] in s;
      SortedLast(less, s, kept[|kept| - 1], x);
    }
    InsertBehind(less, kept, x);
  }

  lemma InsertBehind<T>(less: (T, T) -> bool, s: seq<T>, x: T)
    requires |s| == 0 || !less(x, s[|s| - 1])
    ensures StableInsert(less, s, x) == s + [x]
  {
  }

  lemma {:induction false} FilterInsert<T(!new)>(less: (T, T) -> bool, keep: T -> bool, s: seq<T>, x: T)
    requires IsStrictWeakOrder(less) && Sorted(less, s)
    ensures Filter(keep, StableInsert(less, s, x))
         == if keep(x) then StableInsert(less, Filter(keep, s), x) else Filter(keep, s)
  {
    if |s| == 0 || !less(x, s[|s| - 1]) {
      FilterPush(keep, s, x);
      InsertAtEnd(less, keep, s, x);
    } else {
      var init, last := s[..|s| - 1], s[|s| - 1];
      FilterInsert(less, keep, init, x);
      FilterPush(keep, StableInsert(less, init, x), last);
      if keep(last) {
        InsertPush(less, Filter(keep, init), last, x);
      }
    }
  }

  /** Sorting and filtering commute. */
  lemma {:induction false} FilterSort<T(!new)>(less: (T, T) -> bool, keep: T -> bool, s: seq<T>)
    requires IsStrictWeakOrder(less)
    ensures Filter(keep, StableSort(less, s)) == StableSort(less, Filter(keep, s))
  {
    if |s| != 0 {
      var init, last := s[..|s| - 1], s[|s| - 1];
      FilterSort(less, keep, init);
      SortSorts(less, init);
      FilterInsert(less, keep, StableSort(less, init), last);
      assert Filter(keep, StableSort(less, s)) == Filter(keep, StableInsert(less, StableSort(less, init), last));
      if keep(last) {
        SortPush(less, Filter(keep, init), last);
        assert Filter(keep, s) == Filter(keep, init) + [last];
      } else {
        assert Filter(keep, s) == Filter(keep, init);
      }
    }
  }

  function Equivalent<T>(less: (T, T) -> bool, x: T): T -> bool {
    y => !less(x, y) && !less(y, x)
  }

  lemma EquivalentLast<T(!new)>(less: (T, T) -> bool, a: seq<T>, b: seq<T>)
    requires IsStrictWeakOrder(less) && Sorted(less, a) && Sorted(less, b) && |a| > 0 && |b| > 0
    requires Filter(Equivalent(less, a[|a| - 1]), b) == Filter(Equivalent(less, a[|a| - 1]), a)
    ensures !less(b[|b| - 1], a[|a| - 1])
  {
  }

  lemma FilterLast<T>(keep: T -> bool, a: seq<T>, x: T, b: seq<T>, y: T)
    requires Filter(keep, a + [x]) == Filter(keep, b + [y])
    requires keep(x) == keep(y)
    ensures Filter(keep, a) == Filter(keep, b)
    ensures keep(x) ==> x == y
  {
    FilterPush(keep, a, x);
    FilterPush(keep, b, y);
    if keep(x) {
      var fa, fb := Filter(keep, a), Filter(keep, b);
      assert (fa + [x])[..|fa|] == fa && (fb + [y])[..|fb|] == fb;
      assert |fa| == |fb| && (fa + [x])[|fa|] == x && (fb + [y])[|fb|] == y;
    }
  }

  ghost predicate SameClasses<T(!new)>(less: (T, T) -> bool, a: seq<T>, b: seq<T>) {
    forall x :: Filter(Equivalent(less, x), a) == Filter(Equivalent(less, x), b)
  }

  lemma ClassesNonEmpty<T(!new)>(less: (T, T) -> bool, a: seq<T>, b: seq<T>)
    requires IsStrictWeakOrder(less) && SameClasses(less, a, b) && |a| > 0
    ensures |b| > 0
  {
    FilterMembers(Equivalent(less, a[0]), a);
    assert a[0] in Filter(Equivalent(less, a[0]), a);
    FilterMembers(Equivalent(less, a[0]), b);
  }

  /** Two sorted sequences that agree on every class of equivalent elements are equal. */
  lemma {:induction false} SortedByClasses<T(!new)>(less: (T, T) -> bool, a: seq<T>, b: seq<T>)
    requires IsStrictWeakOrder(less) && Sorted(less, a) && Sorted(less, b)
    requires SameClasses(less, a, b)
    ensures a == b
  {
    if |b| > 0 {
      ClassesNonEmpty(less, b, a);
    }
    if |a| > 0 {
      ClassesNonEmpty(less, a, b);
      var x, y := a[|a| - 1], b[|b| - 1];
      EquivalentLast(less, a, b);
      EquivalentLast(less, b, a);
      var a', b' := a[..|a| - 1], b[..|b| - 1];
      assert a == a' + [x] && b == b' + [y];
      FilterLast(Equivalent(less, x), a', x, b', y);
      forall z
        ensures Filter(Equivalent(less, z), a') == Filter(Equivalent(less, z), b')
      {
        assert Filter(Equivalent(less, z), a) == Filter(Equivalent(less, z), b);
        FilterLast(Equivalent(less, z), a', x, b', y);
      }
      SortedByClasses(less, a', b');
    }
  }

  /** What makes a sort stable: the one sorted sequence that keeps the order inside every class. */
  lemma StableSortIsUnique<T(!new)>(less: (T, T) -> bool, s: seq<T>, r: seq<T>)
    requires IsStrictWeakOrder(less)
    ensures r == StableSort(less, s) <==>
              Sorted(less, r) && SameClasses(less, r, s)
  {
    var sorted := StableSort(less, s);
    SortSorts(less, s);
    forall x
      ensures Filter(Equivalent(less, x), sorted) == Filter(Equivalent(less, x), s)
    {
      var f := Filter(Equivalent(less, x), s);
      FilterSort(less, Equivalent(less, x), s);
      FilterMembers(Equivalent(less, x), s);
      forall i, j | 0 <= i < j < |f|
        ensures !less(f[j], f[i])
      {
        assert f[i] in f && f[j] in f;
        assert !less(f[j], x) && !less(x, f[i]);
      }
      SortOfSorted(less, f);
    }
    if Sorted(less, r) && SameClasses(less, r, s) {
      SortedByClasses(less, r, sorted);
    }
  }

  /** Under a total order a sorted sequence is determined by its elements. */
  lemma SortedPermutation<T(!new)>(less: (T, T) -> bool, a: seq<T>, b: seq<T>)
    requires IsStrictTotalOrder(less)
    ensures StableSort(less, a) == StableSort(less, b) <==> multiset(a) == multiset(b)
  {
    SortPermutes(less, a);
    SortPermutes(less, b);
    if multiset(a) == multiset(b) {
      SortSorts(less, a);
      SortSorts(less, b);
      var sa, sb := StableSort(less, a), StableSort(less, b);
      forall x
        ensures Filter(Equivalent(less, x), sa) == Filter(Equivalent(less, x), sb)
      {
        var fa, fb := Filter(Equivalent(less, x), sa), Filter(Equivalent(less, x), sb);
        FilterMembers(Equivalent(less, x), sa);
        FilterMembers(Equivalent(less, x), sb);
        FilterMultiset(Equivalent(less, x), sa, x);
        FilterMultiset(Equivalent(less, x), sb, x);
        Constant(fa, x);
        Constant(fb, x);
      }
      SortedByClasses(less, sa, sb);
    }
  }

  lemma {:induction false} Constant<T>(s: seq<T>, x: T)
    requires forall y | y in s :: y == x
    ensures s == seq(multiset(s)[x], _ => x)
  {
    if |s| > 0 {
      var init := s[..|s| - 1];
      assert s == init + [x] by {
        assert s[|s| - 1] in s;
      }
      assert forall y | y in init :: y in s;
      Constant(init, x);
    }
  }

  lemma InsertStep<T>(less: (T, T) -> bool, front: seq<T>, y: T, x: T, back: seq<T>)
    requires less(x, y)
    ensures StableInsert(less, front + [y], x) + back == StableInsert(less, front, x) + ([y] + back)
  {
  }

  /** `x` still has to be inserted into the first `j` elements of `s`. */
  ghost predicate Pending<T>(less: (T, T) -> bool, s: seq<T>, x: T, j: nat) {
    j <= |s| && StableInsert(less, s, x) == StableInsert(less, s[..j], x) + s[j..]
  }

  lemma PendingAll<T>(less: (T, T) -> bool, s: seq<T>, x: T)
    ensures Pending(less, s, x, |s|)
  {
    assert s[..|s|] == s;
  }

  lemma PendingStep<T>(less: (T, T) -> bool, s: seq<T>, x: T, j: nat)
    requires 0 < j && Pending(less, s, x, j) && less(x, s[j - 1])
    ensures Pending(less, s, x, j - 1)
  {
    InsertStep(less, s[..j - 1], s[j - 1], x, s[j..]);
    assert s[..j] == s[..j - 1] + [s[j - 1]];
    assert s[j - 1..] == [s[j - 1]] + s[j..];
  }

  lemma PendingDone<T>(less: (T, T) -> bool, s: seq<T>, x: T, j: nat)
    requires Pending(less, s, x, j) && (j == 0 || !less(x, s[j - 1]))
    ensures StableInsert(less, s, x) == s[..j] + [x] + s[j..]
  {
    InsertBehind(less, s[..j], x);
  }

  /** What moving the element at `i` to `j` comes to. */
  lemma Moved<T>(was: seq<T>, now: seq<T>, j: nat, i: nat)
    requires j <= i < |was| == |now| && now[j] == was[i]
    requires forall k :: 0 <= k < j ==> now[k] == was[k]
    requires forall k :: j < k <= i ==> now[k] == was[k - 1]
    requires forall k :: i < k < |was| ==> now[k] == was[k]
    ensures now[..i + 1] == was[..i][..j] + [was[i]] + was[..i][j..]
    ensures now[i + 1..] == was[i + 1..]
  {
  }

  /** Moves the element at `i` towards the front by swaps, until it is not less than its left neighbour. */
  method SiftDown<T>(less: (T, T) -> bool, a: array<T>, i: nat)
    requires i < a.Length
    modifies a
    ensures a[..i + 1] == StableInsert(less, old(a[..i]), old(a[i]))
    ensures a[i + 1..] == old(a[i + 1..])
  {
    ghost var was, s, x := a[..], a[..i], a[i];
    var j := i;
    PendingAll(less, s, x);
    while j > 0 && less(a[j], a[j - 1])
      invariant 0 <= j <= i
      invariant forall k :: 0 <= k < j ==> a[k] == s[k]
      invariant a[j] == x
      invariant forall k :: j < k <= i ==> a[k] == s[k - 1]
      invariant forall k :: i < k < a.Length ==> a[k] == old(a[k])
      invariant Pending(less, s, x, j)
    {
      PendingStep(less, s, x, j);
      a[j], a[j - 1] := a[j - 1], a[j];
      j := j - 1;
    }
    PendingDone(less, s, x, j);
    Moved(was, a[..], j, i);
    assert was[..i] == s && a[..][..i + 1] == a[..i + 1] && a[..][i + 1..] == a[i + 1..];
    assert was[i + 1..] == old(a[i + 1..]);
  }

  /** Sorts an array in place. */
  method InsertionSort<T>(less: (T, T) -> bool, a: array<T>)
    modifies a
    ensures a[..] == StableSort(less, old(a[..]))
  {
    ghost var was := a[..];
    var i := 0;
    while i < a.Length
      invariant 0 <= i <= a.Length
      invariant a[..i] == StableSort(less, was[..i])
      invariant a[i..] == was[i..]
    {
      SortPush(less, was[..i], was[i]);
      assert was[..i + 1] == was[..i] + [was[i]];
      assert a[i] == a[i..][0] == was[i];
      SiftDown(less, a, i);
      i := i + 1;
      assert a[i..] == was[i..];
    }
    assert a[..] == a[..i] && was == was[..i];
  }
}
