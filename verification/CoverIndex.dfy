/** Prefix-maximum indexes over arbitrarily overlapping intervals, looked up by bisection. */
module CoverIndex {
  import opened Base
  import opened Spans

  ghost predicate StartsSorted(spans: seq<Span>) {
    forall i, j :: 0 <= i < j < |spans| ==> spans[i].start <= spans[j].start
  }

  /** The naive scan: every span overlapping `target`, in list order. */
  ghost function OverlapsOf(spans: seq<Span>, target: Span): seq<Span> {
    if spans == [] then []
    else (if Overlap(spans[0], target) then [spans[0]] else []) + OverlapsOf(spans[1..], target)
  }

  lemma {:induction false} OverlapsOfConcat(a: seq<Span>, b: seq<Span>, target: Span)
    ensures OverlapsOf(a + b, target) == OverlapsOf(a, target) + OverlapsOf(b, target)
  {
    if a == [] {
      assert a + b == b;
    } else {
      assert (a + b)[1..] == a[1..] + b;
      OverlapsOfConcat(a[1..], b, target);
    }
  }

  lemma {:induction false} OverlapsOfNone(a: seq<Span>, target: Span)
    requires forall i :: 0 <= i < |a| ==> !Overlap(a[i], target)
    ensures OverlapsOf(a, target) == []
  {
    if a != [] {
      OverlapsOfNone(a[1..], target);
    }
  }

  lemma {:induction false} OverlapsOfMembers(a: seq<Span>, target: Span)
    ensures forall s :: s in OverlapsOf(a, target) <==> s in a && Overlap(s, target)
  {
    if a != [] {
      OverlapsOfMembers(a[1..], target);
      assert forall s :: s in a <==> s == a[0] || s in a[1..];
    }
  }

  lemma {:induction false} OverlapsOfSortedDisjoint(a: seq<Span>, target: Span)
    requires SortedDisjoint(a)
    ensures SortedDisjoint(OverlapsOf(a, target))
  {
    if a != [] {
      OverlapsOfSortedDisjoint(a[1..], target);
      OverlapsOfMembers(a[1..], target);
      var rest := OverlapsOf(a[1..], target);
      if rest != [] {
        assert rest[0] in a[1..];
      }
      ConcatSortedDisjoint([a[0]], rest);
    }
  }

  /** The bisected range contains every overlapping span, and inside it one comparison decides. */
  lemma OverlapsInRange(spans: seq<Span>, target: Span, first: nat, last: nat)
    requires first <= |spans| && last <= |spans|
    requires forall k :: 0 <= k < first ==> spans[k].end <= target.start
    requires forall k :: last <= k < |spans| ==> target.end <= spans[k].start
    ensures OverlapsOf(spans, target) == OverlapsOf(Slice(spans, first, last), target)
  {
    if first < last {
      assert spans == spans[..first] + (spans[first..last] + spans[last..]);
      OverlapsOfConcat(spans[..first], spans[first..last] + spans[last..], target);
      OverlapsOfConcat(spans[first..last], spans[last..], target);
      OverlapsOfNone(spans[..first], target);
      OverlapsOfNone(spans[last..], target);
    } else {
      OverlapsOfNone(spans, target);
    }
  }

  /** Keeps the spans of a range whose starts are all below `target.end` and whose ends pass its start. */
  method EndingAfter(range: seq<Span>, target: Span) returns (parts: seq<Span>)
    requires forall k :: 0 <= k < |range| ==> range[k].start < target.end
    ensures parts == OverlapsOf(range, target)
  {
    parts := [];
    for k := 0 to |range|
      invariant parts == OverlapsOf(range[..k], target)
    {
      assert range[..k + 1] == range[..k] + [range[k]];
      OverlapsOfConcat(range[..k], [range[k]], target);
      if range[k].end > target.start {
        parts := parts + [range[k]];
      }
    }
    assert range[..|range|] == range;
  }

  /** `accumulate(ends, max)`: each entry bounds all ends so far and is one of them. */
  method PrefixMaxima(ends: seq<int>) returns (cover: seq<int>)
    ensures |cover| == |ends| && Nondecreasing(cover)
    ensures forall i, k :: 0 <= i <= k < |ends| ==> ends[i] <= cover[k]
    ensures forall k :: 0 <= k < |ends| ==> cover[k] in ends[..k + 1]
  {
    cover := [];
    for n := 0 to |ends|
      invariant |cover| == n && Nondecreasing(cover)
      invariant forall i, k :: 0 <= i <= k < n ==> ends[i] <= cover[k]
      invariant forall k :: 0 <= k < n ==> cover[k] in ends[..k + 1]
    {
      var top := if cover != [] then Max(ends[n], cover[n - 1]) else ends[n];
      assert top in ends[..n + 1] by {
        assert ends[..n + 1] == ends[..n] + [ends[n]];
        assert cover != [] ==> cover[n - 1] in ends[..n];
      }
      cover := cover + [top];
    }
  }

  /** `starts` and `coverEnds` index the sorted `models`. */
  ghost predicate Indexed(models: seq<Span>, starts: seq<int>, coverEnds: seq<int>) {
    && StartsSorted(models) && |starts| == |models| == |coverEnds| && Nondecreasing(coverEnds)
    && (forall k :: 0 <= k < |models| ==> starts[k] == models[k].start)
    && (forall i, k :: 0 <= i <= k < |models| ==> models[i].end <= coverEnds[k])
  }

  method IndexModels(models: seq<Span>) returns (starts: seq<int>, coverEnds: seq<int>)
    requires StartsSorted(models)
    ensures Indexed(models, starts, coverEnds)
  {
    starts := seq(|models|, i requires 0 <= i < |models| => models[i].start as int);
    var ends := seq(|models|, i requires 0 <= i < |models| => models[i].end as int);
    coverEnds := PrefixMaxima(ends);
    forall i, k | 0 <= i <= k < |models| ensures models[i].end <= coverEnds[k] {
      assert ends[i] <= coverEnds[k];
    }
  }

  /** The index of `preserve_model_boundaries`: exactly the models overlapping `target`, in order. */
  method ModelParts(models: seq<Span>, starts: seq<int>, coverEnds: seq<int>, target: Span) returns (parts: seq<Span>)
    requires Indexed(models, starts, coverEnds)
    ensures parts == OverlapsOf(models, target)
  {
    var first := BisectRight(coverEnds, target.start);
    var last := BisectLeft(starts, target.end);
    forall k | 0 <= k < first ensures models[k].end <= target.start {
      assert models[k].end <= coverEnds[k];
    }
    OverlapsInRange(models, target, first, last);
    parts := EndingAfter(Slice(models, first, last), target);
  }

  /** The index of `_address_tail_overlaps`, over a sorted disjoint list. */
  method ResolvedOverlaps(resolved: seq<Span>, starts: seq<int>, target: Span) returns (parts: seq<Span>)
    requires SortedDisjoint(resolved)
    requires |starts| == |resolved| && forall k :: 0 <= k < |resolved| ==> starts[k] == resolved[k].start
    ensures parts == OverlapsOf(resolved, target)
  {
    var right: int := BisectRight(starts, target.start);
    var first := Max(0, right - 1);
    assert first > 0 ==> starts[first] <= target.start;
    var last := BisectLeft(starts, target.end);
    OverlapsInRange(resolved, target, first, last);
    parts := EndingAfter(Slice(resolved, first, last), target);
  }

  // ----- covering by core person spans -----

  ghost predicate PairsSorted(people: seq<(int, int)>) {
    forall i, j :: 0 <= i < j < |people| ==> people[i].0 <= people[j].0
  }

  lemma CoverOneMore(people: seq<(int, int)>, n: nat, starts: seq<int>, coverEnds: seq<int>)
    requires n < |people| && IsPersonCover(people[..n], starts, coverEnds)
    ensures var end := Max(people[n].1, if coverEnds != [] then coverEnds[|coverEnds| - 1] else people[n].1);
            IsPersonCover(people[..n + 1], starts + [people[n].0], coverEnds + [end])
  {
    var before, now := people[..n], people[..n + 1];
    var ends := coverEnds + [Max(people[n].1, if coverEnds != [] then coverEnds[|coverEnds| - 1] else people[n].1)];
    assert now == before + [people[n]];
    forall i, k | 0 <= i <= k < |now| ensures now[i].1 <= ends[k] {
      assert i < n && k == n ==> before[i].1 <= coverEnds[n - 1];
    }
    forall k | 0 <= k < |now| ensures EndAttained(now, k, ends[k]) {
      if k < n || ends[n] != people[n].1 {
        StillAttained(before, now, Min(k, n - 1), k, ends[k]);
      } else {
        assert now[n].1 == ends[n];
      }
    }
  }

  lemma StillAttained(before: seq<(int, int)>, now: seq<(int, int)>, j: nat, k: nat, end: int)
    requires j < |before| && j <= k < |now| && before <= now && EndAttained(before, j, end)
    ensures EndAttained(now, k, end)
  {
    var i :| 0 <= i <= j && before[i].1 == end;
    assert now[i].1 == end;
  }

  /** The loop that builds `person_starts` and `person_cover_ends`. */
  method PersonCover(people: seq<(int, int)>) returns (starts: seq<int>, coverEnds: seq<int>)
    requires PairsSorted(people)
    ensures IsPersonCover(people, starts, coverEnds)
  {
    starts, coverEnds := [], [];
    for n := 0 to |people|
      invariant IsPersonCover(people[..n], starts, coverEnds)
    {
      var (start, end) := people[n];
      ghost var before := coverEnds;
      starts := starts + [start];
      coverEnds := coverEnds + [Max(end, if coverEnds != [] then coverEnds[|coverEnds| - 1] else end)];
      CoverOneMore(people, n, starts[..n], before);
      assert starts[..n] + [start] == starts;
    }
    assert people[..|people|] == people;
  }

  ghost predicate EndAttained(people: seq<(int, int)>, k: nat, end: int)
    requires k < |people|
  {
    exists i :: 0 <= i <= k && people[i].1 == end
  }

  ghost predicate IsPersonCover(people: seq<(int, int)>, starts: seq<int>, coverEnds: seq<int>) {
    && |starts| == |people| == |coverEnds|
    && Nondecreasing(coverEnds)
    && (forall k :: 0 <= k < |people| ==> starts[k] == people[k].0)
    && (forall i, k :: 0 <= i <= k < |people| ==> people[i].1 <= coverEnds[k])
    && (forall k :: 0 <= k < |people| ==> EndAttained(people, k, coverEnds[k]))
  }

  /** The lookup of `_trim_ner_person_role`: true exactly when some core person span contains `position`. */
  method PersonCovers(ghost people: seq<(int, int)>, starts: seq<int>, coverEnds: seq<int>, position: int)
    returns (b: bool)
    requires PairsSorted(people) && IsPersonCover(people, starts, coverEnds)
    ensures b <==> exists i :: 0 <= i < |people| && people[i].0 <= position < people[i].1
  {
    var right: int := BisectRight(starts, position);
    var covering := right - 1;
    b := covering >= 0 && coverEnds[covering] > position;
    if b {
      assert EndAttained(people, covering, coverEnds[covering]);
      ghost var i :| 0 <= i <= covering && people[i].1 == coverEnds[covering];
      assert people[i].0 <= position < people[i].1;
    }
  }
}
