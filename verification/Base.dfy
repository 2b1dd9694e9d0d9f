/** Shared vocabulary: failure values, Python slices, bisection, sums and stable sorting. */
module Base {

  datatype Option<+T> = None | Some(value: T)

  datatype Result<+T, +E> = Success(value: T) | Failure(error: E) {
    predicate IsFailure() {
      Failure?
    }

    function PropagateFailure<U>(): Result<U, E>
      requires Failure?
    {
      Failure(error)
    }

    function Extract(): T
      requires Success?
    {
      value
    }
  }

  function Max(a: int, b: int): int {
    if a >= b then a else b
  }

  function Min(a: int, b: int): int {
    if a <= b then a else b
  }

  /** `s[a:b]` for nonnegative bounds: clamped, and empty when the bounds cross. */
  function Slice<T>(s: seq<T>, a: nat, b: nat): seq<T> {
    var hi := if b < |s| then b else |s|;
    if a < hi then s[a..hi] else []
  }

  lemma ConcatAssociative<T>(a: seq<T>, b: seq<T>, c: seq<T>)
    ensures a + b + c == a + (b + c)
  {
  }

  lemma SplitLast<T>(s: seq<T>)
    requires s != []
    ensures s == s[..|s| - 1] + [s[|s| - 1]]
  {
  }

  lemma PrefixSnoc<T>(s: seq<T>, n: nat)
    requires n < |s|
    ensures s[..n + 1] == s[..n] + [s[n]]
  {
  }

  lemma SliceSnoc<T>(s: seq<T>, a: nat, n: nat)
    requires a <= n < |s|
    ensures s[a..n + 1] == s[a..n] + [s[n]]
  {
  }

  lemma SliceOfSlice<T>(s: seq<T>, a: nat, b: nat, p: nat, q: nat)
    requires a <= b <= |s| && p <= q <= b - a
    ensures s[a..b][p..q] == s[a + p..a + q]
  {
    var left, right := s[a..b][p..q], s[a + p..a + q];
    assert |left| == |right| == q - p;
    forall i | 0 <= i < q - p ensures left[i] == right[i] {
      assert left[i] == s[a..b][p + i] == s[a + (p + i)];
      assert right[i] == s[(a + p) + i];
    }
  }

  ghost function ToSet<T>(s: seq<T>): set<T> {
    set x | x in s
  }

  lemma SetOfConcat<T>(a: seq<T>, b: seq<T>)
    ensures ToSet(a + b) == ToSet(a) + ToSet(b)
  {
  }

  lemma SetOfInsert<T>(s: seq<T>, i: nat, x: T)
    requires i <= |s|
    ensures ToSet(s[..i] + [x] + s[i..]) == ToSet(s) + {x}
  {
    SetOfConcat(s[..i], [x]);
    SetOfConcat(s[..i] + [x], s[i..]);
    assert ToSet([x]) == {x};
    assert ToSet(s[..i]) + ToSet(s[i..]) == ToSet(s) by {
      assert s[..i] + s[i..] == s;
      SetOfConcat(s[..i], s[i..]);
    }
  }

  ghost predicate NoDuplicates<T>(s: seq<T>) {
    forall i, j :: 0 <= i < j < |s| ==> s[i] != s[j]
  }

  ghost predicate Nondecreasing(s: seq<int>) {
    forall i, j :: 0 <= i < j < |s| ==> s[i] <= s[j]
  }

  /** `bisect_left`: the number of elements strictly below `x`. */
  method BisectLeft(s: seq<int>, x: int) returns (i: nat)
    requires Nondecreasing(s)
    ensures i <= |s|
    ensures forall k :: 0 <= k < i ==> s[k] < x
    ensures forall k :: i <= k < |s| ==> x <= s[k]
  {
    var lo, hi := 0, |s|;
    while lo < hi
      invariant 0 <= lo <= hi <= |s|
      invariant forall k :: 0 <= k < lo ==> s[k] < x
      invariant forall k :: hi <= k < |s| ==> x <= s[k]
    {
      var mid := (lo + hi) / 2;
      if s[mid] < x {
        lo := mid + 1;
      } else {
        hi := mid;
      }
    }
    return lo;
  }

  /** `bisect_right`: the number of elements at most `x`. */
  method BisectRight(s: seq<int>, x: int) returns (i: nat)
    requires Nondecreasing(s)
    ensures i <= |s|
    ensures forall k :: 0 <= k < i ==> s[k] <= x
    ensures forall k :: i <= k < |s| ==> x < s[k]
  {
    var lo, hi := 0, |s|;
    while lo < hi
      invariant 0 <= lo <= hi <= |s|
      invariant forall k :: 0 <= k < lo ==> s[k] <= x
      invariant forall k :: hi <= k < |s| ==> x < s[k]
    {
      var mid := (lo + hi) / 2;
      if x < s[mid] {
        hi := mid;
      } else {
        lo := mid + 1;
      }
    }
    return lo;
  }

  // ----- sums -----

  function Sum(s: seq<nat>): nat {
    if s == [] then 0 else s[0] + Sum(s[1..])
  }

  lemma {:induction false} SumConcat(a: seq<nat>, b: seq<nat>)
    ensures Sum(a + b) == Sum(a) + Sum(b)
  {
    if a == [] {
      assert a + b == b;
    } else {
      assert (a + b)[1..] == a[1..] + b;
      SumConcat(a[1..], b);
    }
  }

  /** Splitting a stretch of `s` at `m`. */
  lemma SumSplit(s: seq<nat>, a: nat, m: nat, b: nat)
    requires a <= m <= b <= |s|
    ensures Sum(s[a..b]) == Sum(s[a..m]) + Sum(s[m..b])
  {
    assert s[a..b] == s[a..m] + s[m..b];
    SumConcat(s[a..m], s[m..b]);
  }

  lemma SumSnoc(s: seq<nat>, a: nat, b: nat)
    requires a <= b < |s|
    ensures Sum(s[a..b + 1]) == Sum(s[a..b]) + s[b]
  {
    SumSplit(s, a, b, b + 1);
    assert s[b..b + 1] == [s[b]];
  }

  // ----- stable sorting, as `sorted(s, key=...)` -----

  ghost predicate TotalPreorder<T(!new)>(le: (T, T) -> bool) {
    && (forall x, y :: le(x, y) || le(y, x))
    && (forall x, y, z :: le(x, y) && le(y, z) ==> le(x, z))
  }

  ghost predicate SortedBy<T>(le: (T, T) -> bool, s: seq<T>) {
    forall i, j :: 0 <= i < j < |s| ==> le(s[i], s[j])
  }

  /** Places `x` behind every element that does not come after it. */
  function InsertStable<T>(le: (T, T) -> bool, s: seq<T>, x: T): (r: seq<T>)
    ensures |r| == |s| + 1
  {
    if s == [] || le(s[|s| - 1], x) then s + [x]
    else InsertStable(le, s[..|s| - 1], x) + [s[|s| - 1]]
  }

  function Sort<T>(le: (T, T) -> bool, s: seq<T>): (r: seq<T>)
    ensures |r| == |s|
  {
    if s == [] then [] else InsertStable(le, Sort(le, s[..|s| - 1]), s[|s| - 1])
  }

  lemma {:induction false} InsertStableElements<T>(le: (T, T) -> bool, s: seq<T>, x: T)
    ensures multiset(InsertStable(le, s, x)) == multiset(s) + multiset{x}
  {
    if s != [] && !le(s[|s| - 1], x) {
      InsertStableElements(le, s[..|s| - 1], x);
      assert s == s[..|s| - 1] + [s[|s| - 1]];
    }
  }

  lemma SnocSorted<T>(le: (T, T) -> bool, r: seq<T>, last: T)
    requires SortedBy(le, r) && forall y :: y in r ==> le(y, last)
    ensures SortedBy(le, r + [last])
  {
  }

  lemma {:induction false} InsertStableSorted<T(!new)>(le: (T, T) -> bool, s: seq<T>, x: T)
    requires TotalPreorder(le) && SortedBy(le, s)
    ensures SortedBy(le, InsertStable(le, s, x))
  {
    if s == [] {
    } else if le(s[|s| - 1], x) {
      forall y | y in s ensures le(y, x) {
        assert y == s[|s| - 1] || le(y, s[|s| - 1]);
      }
      SnocSorted(le, s, x);
    } else {
      var rest, last := s[..|s| - 1], s[|s| - 1];
      InsertStableSorted(le, rest, x);
      InsertStableElements(le, rest, x);
      var r := InsertStable(le, rest, x);
      forall y | y in r ensures le(y, last) {
        assert y in multiset(r);
        assert y in rest || y == x;
      }
      SnocSorted(le, r, last);
    }
  }

  lemma {:induction false} SortIsSorted<T(!new)>(le: (T, T) -> bool, s: seq<T>)
    requires TotalPreorder(le)
    ensures SortedBy(le, Sort(le, s))
    ensures multiset(Sort(le, s)) == multiset(s)
    ensures ToSet(Sort(le, s)) == ToSet(s)
  {
    if s != [] {
      var rest := s[..|s| - 1];
      SortIsSorted(le, rest);
      InsertStableSorted(le, Sort(le, rest), s[|s| - 1]);
      InsertStableElements(le, Sort(le, rest), s[|s| - 1]);
      assert s == rest + [s[|s| - 1]];
    }
    SameElements(Sort(le, s), s);
  }

  lemma SameElements<T>(a: seq<T>, b: seq<T>)
    requires multiset(a) == multiset(b)
    ensures ToSet(a) == ToSet(b)
  {
    forall x ensures x in a <==> x in b {
      assert x in multiset(a) <==> x in multiset(b);
    }
  }

  lemma InsertLast<T>(le: (T, T) -> bool, s: seq<T>, x: T)
    requires s == [] || le(s[|s| - 1], x)
    ensures InsertStable(le, s, x) == s + [x]
  {
  }

  lemma {:induction false} SortKeepsSorted<T>(le: (T, T) -> bool, s: seq<T>)
    requires SortedBy(le, s)
    ensures Sort(le, s) == s
  {
    if s != [] {
      hide InsertStable;
      SortKeepsSorted(le, s[..|s| - 1]);
      InsertLast(le, s[..|s| - 1], s[|s| - 1]);
      assert s == s[..|s| - 1] + [s[|s| - 1]];
    }
  }

  lemma PermutationKeepsDistinct<T>(a: seq<T>, b: seq<T>)
    requires multiset(a) == multiset(b) && NoDuplicates(a)
    ensures NoDuplicates(b)
  {
    DistinctMeansCountOne(a);
    CountOneMeansDistinct(b);
  }

  lemma {:induction false} DistinctMeansCountOne<T>(a: seq<T>)
    requires NoDuplicates(a)
    ensures forall x :: x in a ==> multiset(a)[x] == 1
  {
    if a != [] {
      var rest, last := a[..|a| - 1], a[|a| - 1];
      DistinctMeansCountOne(rest);
      assert a == rest + [last];
      assert last !in rest;
      assert multiset(rest)[last] == 0;
    }
  }

  lemma {:induction false} CountOneMeansDistinct<T>(b: seq<T>)
    requires forall x :: x in b ==> multiset(b)[x] == 1
    ensures NoDuplicates(b)
  {
    if b != [] {
      var rest, last := b[..|b| - 1], b[|b| - 1];
      assert b == rest + [last];
      assert multiset(b)[last] == multiset(rest)[last] + 1;
      assert last !in multiset(rest);
      forall x | x in rest ensures multiset(rest)[x] == 1 {
        assert x in b;
        assert multiset(rest)[x] >= 1;
      }
      CountOneMeansDistinct(rest);
    }
  }

  // ----- lexicographic order of strings -----

  predicate StrLess(a: string, b: string) {
    if b == [] then false
    else if a == [] then true
    else if a[0] != b[0] then a[0] < b[0]
    else StrLess(a[1..], b[1..])
  }

  /** The strings agree on the first `k` characters, behind which `a` ends or has the lesser one. */
  ghost predicate LessAt(a: string, b: string, k: nat) {
    k <= |a| && k < |b| && a[..k] == b[..k] && (k == |a| || a[k] < b[k])
  }

  lemma {:induction false} StrLessMeans(a: string, b: string)
    ensures StrLess(a, b) <==> exists k :: LessAt(a, b, k)
  {
    if a == [] || b == [] || a[0] != b[0] {
      assert StrLess(a, b) ==> LessAt(a, b, 0);
    } else {
      StrLessMeans(a[1..], b[1..]);
      if k: nat :| LessAt(a[1..], b[1..], k) {
        assert a[..k + 1] == [a[0]] + a[1..][..k] && b[..k + 1] == [b[0]] + b[1..][..k];
        assert LessAt(a, b, k + 1);
      }
      if k: nat :| LessAt(a, b, k) {
        assert a[1..][..k - 1] == a[..k][1..] && b[1..][..k - 1] == b[..k][1..];
        assert LessAt(a[1..], b[1..], k - 1);
      }
    }
  }

  lemma {:induction false} StrLessTotal(a: string, b: string)
    ensures a != b ==> StrLess(a, b) || StrLess(b, a)
    ensures !(StrLess(a, b) && StrLess(b, a))
    ensures !StrLess(a, a)
  {
    if a != [] && b != [] && a[0] == b[0] {
      StrLessTotal(a[1..], b[1..]);
      assert a == [a[0]] + a[1..] && b == [b[0]] + b[1..];
    }
    if a != [] {
      StrLessTotal(a[1..], a[1..]);
    }
  }

  lemma {:induction false} StrLessTransitive(a: string, b: string, c: string)
    requires StrLess(a, b) && StrLess(b, c)
    ensures StrLess(a, c)
  {
    if a != [] && b != [] && c != [] && a[0] == b[0] && b[0] == c[0] {
      StrLessTransitive(a[1..], b[1..], c[1..]);
    }
  }
}
