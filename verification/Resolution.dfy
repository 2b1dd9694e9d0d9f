/** Overlap resolution: cluster-by-cluster greedy selection with bisected insertion. */
module Resolution {
  import opened Base
  import opened Spans

  /**
   * The reference meaning of resolution. `kept` is a subset of the candidates, pairwise disjoint,
   * and every rejected candidate overlaps a kept one that precedes it in key order.
   */
  ghost predicate IsKernel(candidates: set<Span>, kept: set<Span>) {
    && kept <= candidates
    && (forall a, b :: a in kept && b in kept && a != b ==> !Overlap(a, b))
    && (forall c :: c in candidates && c !in kept ==> exists r :: r in kept && Overlap(r, c) && KeyBefore(r, c))
  }

  /** One global greedy pass: visit in order, keep whatever overlaps nothing kept so far. */
  ghost function Greedy(ordered: seq<Span>): set<Span> {
    if ordered == [] then {} else KeepIfFree(Greedy(ordered[..|ordered| - 1]), ordered[|ordered| - 1])
  }

  ghost function KeepIfFree(kept: set<Span>, x: Span): set<Span> {
    if exists a :: a in kept && Overlap(a, x) then kept else kept + {x}
  }

  ghost predicate KeySorted(ordered: seq<Span>) {
    forall i, j :: 0 <= i < j < |ordered| ==> KeyBefore(ordered[i], ordered[j])
  }

  lemma LastComesLast(rest: seq<Span>, x: Span, ordered: seq<Span>)
    requires ordered != [] && rest == ordered[..|ordered| - 1] && x == ordered[|ordered| - 1] && KeySorted(ordered)
    ensures ToSet(ordered) == ToSet(rest) + {x} && forall c :: c in ToSet(rest) ==> KeyBefore(c, x)
  {
    forall c | c in ToSet(rest) ensures KeyBefore(c, x) {
      var i :| 0 <= i < |rest| && rest[i] == c;
    }
    assert ordered == rest + [x];
  }

  lemma {:induction false} GreedyIsKernel(ordered: seq<Span>)
    requires KeySorted(ordered)
    ensures IsKernel(ToSet(ordered), Greedy(ordered))
  {
    if ordered != [] {
      var rest, x := ordered[..|ordered| - 1], ordered[|ordered| - 1];
      GreedyIsKernel(rest);
      LastComesLast(rest, x, ordered);
      KeepIfFreeKernel(ToSet(rest), Greedy(rest), x);
    }
  }

  lemma KeepIfFreeKernel(candidates: set<Span>, kept: set<Span>, x: Span)
    requires IsKernel(candidates, kept)
    requires forall c :: c in candidates ==> KeyBefore(c, x)
    ensures IsKernel(candidates + {x}, KeepIfFree(kept, x))
  {
    var result := KeepIfFree(kept, x);
    forall c | c in candidates + {x} && c !in result
      ensures exists r :: r in result && Overlap(r, c) && KeyBefore(r, c)
    {
      if c == x {
        var a :| a in kept && Overlap(a, x);
      } else {
        var r :| r in kept && Overlap(r, c) && KeyBefore(r, c);
      }
    }
  }

  lemma {:induction false} LeastByKey(s: set<Span>) returns (m: Span)
    requires s != {}
    ensures m in s && forall x :: x in s && x != m ==> KeyBefore(m, x)
  {
    var first :| first in s;
    if s == {first} {
      return first;
    }
    var n := LeastByKey(s - {first});
    KeyBeforeTotal(first, n);
    m := if KeyBefore(first, n) then first else n;
    forall x | x in s && x != m ensures KeyBefore(m, x) {
      if m == first && x != n {
        KeyBeforeTransitive(m, n, x);
      }
    }
  }

  /** If the least span on which two kernels differ is in one of them, the other cannot reject it. */
  lemma KernelAgrees(candidates: set<Span>, own: set<Span>, other: set<Span>, m: Span)
    requires IsKernel(candidates, own) && IsKernel(candidates, other)
    requires m in own
    requires forall x :: x in other && x !in own ==> !KeyBefore(x, m)
    ensures m in other
  {
    KeyBeforeTotal(m, m);
  }

  /** The kernel is unique, so resolution cannot depend on the order candidates arrive in. */
  lemma KernelUnique(candidates: set<Span>, a: set<Span>, b: set<Span>)
    requires IsKernel(candidates, a) && IsKernel(candidates, b)
    ensures a == b
  {
    var differ := (a - b) + (b - a);
    if differ != {} {
      var m := LeastByKey(differ);
      forall x | x in differ ensures !KeyBefore(x, m) {
        KeyBeforeTotal(x, m);
      }
      if m in a {
        KernelAgrees(candidates, a, b, m);
      } else {
        KernelAgrees(candidates, b, a, m);
      }
    }
  }

  /** Groups that do not overlap each other resolve independently. */
  lemma KernelUnion(c1: set<Span>, k1: set<Span>, c2: set<Span>, k2: set<Span>)
    requires IsKernel(c1, k1) && IsKernel(c2, k2)
    requires forall a, b :: a in c1 && b in c2 ==> !Overlap(a, b) && !Overlap(b, a)
    ensures IsKernel(c1 + c2, k1 + k2)
  {
  }

  /** A span that overlaps no other candidate is always kept. */
  lemma LoneSpanKept(candidates: set<Span>, kept: set<Span>, x: Span)
    requires IsKernel(candidates, kept) && x in candidates
    requires forall c :: c in candidates && c != x ==> !Overlap(c, x)
    ensures x in kept
  {
    KeyBeforeTotal(x, x);
  }

  // ----- who wins -----

  /** How strong a candidate is by its type and reason, 0 being the strongest. */
  function Rank(s: Span): nat {
    if s.reason == "ner-structured" then 15
    else
      var rank := TypeRank(s.kind);
      if s.reason == "cis-personal-id" && rank > 8 then 8 else rank
  }

  function TypeRank(kind: string): nat {
    if kind == "FOREIGN_DOCUMENT" || kind == "BIRTH_CERTIFICATE" then 0
    else if kind == "PASSPORT" then 1
    else if kind == "DRIVER_LICENSE" then 2
    else if kind == "BIRTH_DATE" || kind == "PASSPORT_DATE" || kind == "DEPARTMENT_CODE" then 3
    else if kind == "CARDHOLDER" then 4
    else if kind == "PASSPORT_ISSUER" then 5
    else if kind == "BIRTH_PLACE" then 6
    else if kind == "ADDRESS" then 7
    else if kind == "CARD" then 9
    else if kind == "INN" then 10
    else if kind == "PHONE" || kind == "EMAIL" then 11
    else if kind == "PERSON" then 13
    else if kind == "LOCATION" then 14
    else 12
  }

  const PRIORITIES: seq<int> := [110, 105, 104, 103, 102, 101, 100, 99, 96, 95, 94, 90, 85, 80, 70, 65]

  lemma TypePriority(kind: string)
    ensures TypeRank(kind) < 15
    ensures PRIORITIES[TypeRank(kind)] == if kind in PRIORITY then PRIORITY[kind] else 85
    ensures TypeRank(kind) != 8
  {
  }

  lemma PriorityOf(s: Span)
    ensures Rank(s) < 16 && ClusterPriority(s) == PRIORITIES[Rank(s)]
  {
    hide TypeRank;
    TypePriority(s.kind);
  }

  lemma RankIsPriority(a: Span, b: Span)
    ensures Rank(a) < Rank(b) <==> ClusterPriority(a) > ClusterPriority(b)
  {
    hide Rank, ClusterPriority;
    PriorityOf(a);
    PriorityOf(b);
    assert forall i, j :: 0 <= i < j < 16 ==> PRIORITIES[i] > PRIORITIES[j];
  }

  /** Of two equally ranked candidates: the longer, then the more confident, the earlier, the lesser type or reason. */
  predicate Better(a: Span, b: Span) {
    || a.end - a.start > b.end - b.start
    || (a.end - a.start == b.end - b.start && a.confidence > b.confidence)
    || (a.end - a.start == b.end - b.start && a.confidence == b.confidence && a.start < b.start)
    || (a.start == b.start && a.end == b.end && a.confidence == b.confidence
        && (StrLess(a.kind, b.kind) || (a.kind == b.kind && StrLess(a.reason, b.reason))))
  }

  /** What is kept shares no character, and a candidate that shares none with any other is kept. */
  lemma LonelyAreKept(candidates: set<Span>, kept: set<Span>, x: Span)
    requires IsKernel(candidates, kept) && x in candidates
    ensures x in kept ==> forall c :: c in kept && c != x ==> Apart(c, x)
    ensures (forall c :: c in candidates && c != x ==> Apart(c, x)) ==> x in kept
  {
    if forall c :: c in candidates && c != x ==> Apart(c, x) {
      LoneSpanKept(candidates, kept, x);
    }
  }

  /** Of two candidates that overlap each other and nothing else, the stronger is kept and the other is not. */
  lemma RivalsDecided(candidates: set<Span>, kept: set<Span>, a: Span, b: Span)
    requires IsKernel(candidates, kept) && a in candidates && b in candidates && !Apart(a, b)
    requires forall c :: c in candidates && c != a && c != b ==> Apart(c, a) && Apart(c, b)
    requires Rank(a) < Rank(b) || (Rank(a) == Rank(b) && Better(a, b))
    ensures a in kept && b !in kept
  {
    hide Rank, ClusterPriority;
    RankIsPriority(a, b);
    RankIsPriority(b, a);
    KeyBeforeTotal(a, b);
    StrLessTotal(a.kind, b.kind);
    assert KeyBefore(a, b);
  }

  ghost predicate SameStarts(accepted: seq<Span>, starts: seq<int>) {
    |starts| == |accepted| && forall k :: 0 <= k < |starts| ==> starts[k] == accepted[k].start
  }

  lemma StartsNondecreasing(accepted: seq<Span>, starts: seq<int>)
    requires SortedDisjoint(accepted) && SameStarts(accepted, starts)
    ensures Nondecreasing(starts)
  {
  }

  /** Only the two neighbours of the insertion point can overlap the new span. */
  lemma NeighboursDecide(accepted: seq<Span>, i: nat, x: Span)
    requires SortedDisjoint(accepted) && Nonempty(x) && i <= |accepted|
    requires forall k :: 0 <= k < i ==> accepted[k].start < x.start
    requires forall k :: i <= k < |accepted| ==> x.start <= accepted[k].start
    ensures KeepIfFree(ToSet(accepted), x) ==
            if (i > 0 && accepted[i - 1].end > x.start) || (i < |accepted| && x.end > accepted[i].start)
            then ToSet(accepted) else ToSet(accepted) + {x}
  {
    if i > 0 && accepted[i - 1].end > x.start {
      assert accepted[i - 1] in ToSet(accepted);
    }
    if i < |accepted| && x.end > accepted[i].start {
      assert accepted[i] in ToSet(accepted);
    }
  }

  /** Greedy selection inside one cluster. Keeps `accepted` sorted by bisected insertion. */
  method SelectCluster(cluster: seq<Span>) returns (accepted: seq<Span>)
    requires cluster != [] && NoDuplicates(cluster) && AllNonempty(cluster)
    ensures SortedDisjoint(accepted)
    ensures IsKernel(ToSet(cluster), ToSet(accepted))
  {
    if |cluster| == 1 {
      assert cluster == [cluster[0]];
      SingletonKernel(cluster[0]);
      return [cluster[0]];
    }
    var ordered := Sort(KeyLe, cluster);
    SortedClusterIsStrict(cluster);
    forall x | x in ordered ensures Nonempty(x) {
      assert x in ToSet(ordered) && x in ToSet(cluster);
    }
    accepted := GreedyPass(ordered);
    GreedyIsKernel(ordered);
  }

  /** Accepts the spans in key order, each unless an accepted one is in its way. */
  method GreedyPass(ordered: seq<Span>) returns (accepted: seq<Span>)
    requires AllNonempty(ordered)
    ensures SortedDisjoint(accepted) && ToSet(accepted) == Greedy(ordered)
  {
    accepted := [];
    var starts: seq<int> := [];
    for n := 0 to |ordered|
      invariant SortedDisjoint(accepted) && SameStarts(accepted, starts)
      invariant ToSet(accepted) == Greedy(ordered[..n])
    {
      GreedyStep(ordered, n);
      accepted, starts := PlaceSpan(accepted, starts, ordered[n]);
    }
    assert ordered[..|ordered|] == ordered;
  }

  /** Inserts one span unless it overlaps a neighbour of its place. */
  method PlaceSpan(accepted0: seq<Span>, starts0: seq<int>, span: Span) returns (accepted: seq<Span>, starts: seq<int>)
    requires SortedDisjoint(accepted0) && SameStarts(accepted0, starts0) && Nonempty(span)
    ensures SortedDisjoint(accepted) && SameStarts(accepted, starts)
    ensures ToSet(accepted) == KeepIfFree(ToSet(accepted0), span)
  {
    StartsNondecreasing(accepted0, starts0);
    var i := BisectLeft(starts0, span.start);
    NeighboursDecide(accepted0, i, span);
    if i > 0 && accepted0[i - 1].end > span.start {
      return accepted0, starts0;
    }
    if i < |accepted0| && span.end > accepted0[i].start {
      return accepted0, starts0;
    }
    InsertAt(accepted0, i, span);
    InsertStart(accepted0, starts0, i, span);
    return accepted0[..i] + [span] + accepted0[i..], starts0[..i] + [span.start] + starts0[i..];
  }

  lemma SingletonKernel(x: Span)
    ensures IsKernel(ToSet([x]), ToSet([x]))
  {
  }

  lemma GreedyStep(ordered: seq<Span>, n: nat)
    requires n < |ordered|
    ensures ordered[n] in ToSet(ordered)
    ensures Greedy(ordered[..n + 1]) == KeepIfFree(Greedy(ordered[..n]), ordered[n])
  {
    assert ordered[..n + 1][..n] == ordered[..n];
  }

  lemma SortedClusterIsStrict(cluster: seq<Span>)
    requires NoDuplicates(cluster)
    ensures KeySorted(Sort(KeyLe, cluster)) && ToSet(Sort(KeyLe, cluster)) == ToSet(cluster)
  {
    KeyLeIsTotalPreorder();
    SortIsSorted(KeyLe, cluster);
    PermutationKeepsDistinct(cluster, Sort(KeyLe, cluster));
  }

  lemma InsertStart(accepted: seq<Span>, starts: seq<int>, i: nat, x: Span)
    requires SameStarts(accepted, starts) && i <= |accepted|
    ensures SameStarts(accepted[..i] + [x] + accepted[i..], starts[..i] + [x.start] + starts[i..])
  {
  }

  lemma InsertAt(accepted: seq<Span>, i: nat, x: Span)
    requires SortedDisjoint(accepted) && Nonempty(x) && i <= |accepted|
    requires i > 0 ==> accepted[i - 1].end <= x.start
    requires i < |accepted| ==> x.end <= accepted[i].start
    ensures SortedDisjoint(accepted[..i] + [x] + accepted[i..])
    ensures ToSet(accepted[..i] + [x] + accepted[i..]) == ToSet(accepted) + {x}
  {
    ConcatSortedDisjoint(accepted[..i], [x]);
    ConcatSortedDisjoint(accepted[..i] + [x], accepted[i..]);
    SetOfInsert(accepted, i, x);
  }

  /**
   * The body of `_resolve` after sorting. `ordered` may list equal positions in any order, as the
   * iteration order of a set leaves it; the result is determined all the same.
   */
  method ResolveOrdered(ordered: seq<Span>) returns (result: seq<Span>)
    requires NoDuplicates(ordered) && AllNonempty(ordered) && SortedBy(PositionLe, ordered)
    ensures SortedDisjoint(result)
    ensures IsKernel(ToSet(ordered), ToSet(result))
  {
    result := [];
    var cluster: seq<Span> := [];
    var end := -1;
    ghost var done: nat := 0; // ordered[..done] is resolved, ordered[done..n] is the open cluster
    for n := 0 to |ordered|
      invariant done <= n && cluster == ordered[done..n] && (cluster == [] ==> n == 0)
      invariant forall c :: c in cluster ==> c.end <= end
      invariant Separated(ordered, done)
      invariant SortedDisjoint(result) && IsKernel(ToSet(ordered[..done]), ToSet(result))
    {
      var span := ordered[n];
      if cluster != [] && span.start >= end {
        result := CloseCluster(ordered, done, n, cluster, result);
        SeparatedHere(ordered, done, n, end);
        cluster, done := [], n;
      }
      cluster := cluster + [span];
      end := Max(end, span.end);
    }
    if cluster != [] {
      result := CloseCluster(ordered, done, |ordered|, cluster, result);
    }
    assert ordered[..|ordered|] == ordered;
  }

  /** Resolves the open cluster and appends what it keeps. */
  method CloseCluster(ghost ordered: seq<Span>, ghost done: nat, ghost n: nat, cluster: seq<Span>, before: seq<Span>)
    returns (result: seq<Span>)
    requires NoDuplicates(ordered) && AllNonempty(ordered) && done < n <= |ordered|
    requires cluster == ordered[done..n] && Separated(ordered, done)
    requires SortedDisjoint(before) && IsKernel(ToSet(ordered[..done]), ToSet(before))
    ensures SortedDisjoint(result) && IsKernel(ToSet(ordered[..n]), ToSet(result))
  {
    SliceKeepsDistinct(ordered, done, n);
    var selected := SelectCluster(cluster);
    JoinKernels(ordered, done, n, before, selected);
    return before + selected;
  }

  lemma SliceKeepsDistinct(ordered: seq<Span>, a: nat, b: nat)
    requires NoDuplicates(ordered) && AllNonempty(ordered) && a <= b <= |ordered|
    ensures NoDuplicates(ordered[a..b]) && AllNonempty(ordered[a..b])
  {
    forall i, j | 0 <= i < j < b - a ensures ordered[a..b][i] != ordered[a..b][j] {
      assert ordered[a + i] != ordered[a + j];
    }
  }

  /** A span that starts behind the whole open cluster separates it from all that follows. */
  lemma SeparatedHere(ordered: seq<Span>, done: nat, n: nat, end: int)
    requires done <= n < |ordered| && Separated(ordered, done) && SortedBy(PositionLe, ordered)
    requires ordered[n].start >= end && forall c :: c in ordered[done..n] ==> c.end <= end
    ensures Separated(ordered, n)
  {
    forall i, j | 0 <= i < n <= j < |ordered| ensures ordered[i].end <= ordered[j].start {
      assert j > n ==> PositionLe(ordered[n], ordered[j]);
      if i >= done {
        assert ordered[done..n][i - done] == ordered[i];
      }
    }
  }

  /** Everything before `cut` ends before anything from `cut` on starts. */
  ghost predicate Separated(ordered: seq<Span>, cut: nat)
    requires cut <= |ordered|
  {
    forall i, j :: 0 <= i < cut <= j < |ordered| ==> ordered[i].end <= ordered[j].start
  }

  lemma JoinKernels(ordered: seq<Span>, done: nat, n: nat, result: seq<Span>, selected: seq<Span>)
    requires done <= n <= |ordered| && Separated(ordered, done)
    requires SortedDisjoint(result) && IsKernel(ToSet(ordered[..done]), ToSet(result))
    requires SortedDisjoint(selected) && IsKernel(ToSet(ordered[done..n]), ToSet(selected))
    ensures SortedDisjoint(result + selected)
    ensures IsKernel(ToSet(ordered[..n]), ToSet(result + selected))
  {
    var c1, c2 := ToSet(ordered[..done]), ToSet(ordered[done..n]);
    SeparatedSets(ordered, done, n);
    KernelsSeparated(c1, result, c2, selected);
    KernelUnion(c1, ToSet(result), c2, ToSet(selected));
    assert ordered[..n] == ordered[..done] + ordered[done..n];
    SetOfConcat(ordered[..done], ordered[done..n]);
    SetOfConcat(result, selected);
  }

  lemma SeparatedSets(ordered: seq<Span>, done: nat, n: nat)
    requires done <= n <= |ordered| && Separated(ordered, done)
    ensures forall a, b :: a in ToSet(ordered[..done]) && b in ToSet(ordered[done..n]) ==> a.end <= b.start
  {
    forall a, b | a in ToSet(ordered[..done]) && b in ToSet(ordered[done..n]) ensures a.end <= b.start {
      var i :| 0 <= i < done && ordered[i] == a;
      var j :| 0 <= j < n - done && ordered[done..n][j] == b;
      assert ordered[done + j] == b;
    }
  }

  lemma KernelsSeparated(c1: set<Span>, result: seq<Span>, c2: set<Span>, selected: seq<Span>)
    requires forall a, b :: a in c1 && b in c2 ==> a.end <= b.start
    requires SortedDisjoint(result) && SortedDisjoint(selected) && ToSet(result) <= c1 && ToSet(selected) <= c2
    ensures SortedDisjoint(result + selected)
  {
    if result != [] && selected != [] {
      assert result[|result| - 1] in ToSet(result) && selected[0] in ToSet(selected);
    }
    ConcatSortedDisjoint(result, selected);
  }

  predicate PositionLe(a: Span, b: Span) {
    a.start < b.start || (a.start == b.start && a.end <= b.end)
  }

  function Distinct(s: seq<Span>): seq<Span> {
    if s == [] then []
    else
      var rest := Distinct(s[..|s| - 1]);
      if s[|s| - 1] in rest then rest else rest + [s[|s| - 1]]
  }

  lemma {:induction false} DistinctElements(s: seq<Span>)
    ensures NoDuplicates(Distinct(s)) && ToSet(Distinct(s)) == ToSet(s)
  {
    if s != [] {
      DistinctElements(s[..|s| - 1]);
      var rest, last := Distinct(s[..|s| - 1]), s[|s| - 1];
      assert s == s[..|s| - 1] + [last];
      SetOfConcat(s[..|s| - 1], [last]);
      SetOfConcat(rest, [last]);
      assert ToSet([last]) == {last};
      assert last in rest <==> last in ToSet(rest);
    }
  }

  /** `_resolve`: equal to the global greedy pass over the deduplicated candidates in key order. */
  method Resolve(candidates: seq<Span>) returns (result: seq<Span>)
    requires AllNonempty(candidates)
    ensures SortedDisjoint(result)
    ensures IsKernel(ToSet(candidates), ToSet(result))
    ensures ToSet(result) == Greedy(Sort(KeyLe, Distinct(candidates)))
  {
    DistinctElements(candidates);
    var distinct := Distinct(candidates);
    assert TotalPreorder(PositionLe);
    SortIsSorted(PositionLe, distinct);
    var ordered := Sort(PositionLe, distinct);
    PermutationKeepsDistinct(distinct, ordered);
    forall x | x in ordered ensures Nonempty(x) {
      assert x in ToSet(ordered);
      assert x in ToSet(candidates);
    }
    result := ResolveOrdered(ordered);
    SortedClusterIsStrict(distinct);
    GreedyIsKernel(Sort(KeyLe, distinct));
    KernelUnique(ToSet(candidates), ToSet(result), Greedy(Sort(KeyLe, distinct)));
  }

  /** Whatever order the candidates come in, and however ties are ordered, there is one answer. */
  lemma ResolutionIgnoresInputOrder(a: seq<Span>, ra: seq<Span>, b: seq<Span>, rb: seq<Span>)
    requires ToSet(a) == ToSet(b)
    requires SortedDisjoint(ra) && IsKernel(ToSet(a), ToSet(ra))
    requires SortedDisjoint(rb) && IsKernel(ToSet(b), ToSet(rb))
    ensures ra == rb
  {
    KernelUnique(ToSet(a), ToSet(ra), ToSet(rb));
    SortedDisjointUnique(ra, rb);
  }
}
