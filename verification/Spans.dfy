/** Detected spans and the order in which overlapping candidates win. */
module Spans {
  import opened Base

  datatype Span = Span(start: nat, end: nat, kind: string, confidence: real, reason: string)

  predicate Nonempty(s: Span) {
    s.start < s.end
  }

  predicate Overlap(a: Span, b: Span) {
    a.start < b.end && b.start < a.end
  }

  /** One ends before the other begins. */
  predicate Apart(a: Span, b: Span) {
    a.end <= b.start || b.end <= a.start
  }

  ghost predicate AllNonempty(s: seq<Span>) {
    forall x :: x in s ==> Nonempty(x)
  }

  /** Sorted by position, nonempty and pairwise disjoint; touching spans are allowed. */
  ghost predicate SortedDisjoint(s: seq<Span>) {
    && (forall i :: 0 <= i < |s| ==> Nonempty(s[i]))
    && (forall i, j :: 0 <= i < j < |s| ==> s[i].end <= s[j].start)
  }

  ghost predicate Within(s: seq<Span>, lo: int, hi: int) {
    forall i :: 0 <= i < |s| ==> lo <= s[i].start && s[i].end <= hi
  }

  lemma ConcatSortedDisjoint(a: seq<Span>, b: seq<Span>)
    requires SortedDisjoint(a) && SortedDisjoint(b)
    requires a != [] && b != [] ==> a[|a| - 1].end <= b[0].start
    ensures SortedDisjoint(a + b)
  {
    forall i, j | 0 <= i < |a| && 0 <= j < |b| ensures a[i].end <= b[j].start {
      assert a[i].end <= a[|a| - 1].end;
      assert b[0].start <= b[j].start;
    }
  }

  /** Two sorted disjoint lists of the same spans are the same list. */
  lemma {:induction false} SortedDisjointUnique(a: seq<Span>, b: seq<Span>)
    requires SortedDisjoint(a) && SortedDisjoint(b)
    requires ToSet(a) == ToSet(b)
    ensures a == b
  {
    assert b != [] ==> b[0] in ToSet(b);
    if a != [] {
      assert a[0] in ToSet(a);
      FirstIsLeast(a, b);
      FirstIsLeast(b, a);
      assert a[0] == b[0];
      forall x ensures x in a[1..] <==> x in b[1..] {
        assert x in ToSet(a) <==> x in ToSet(b);
        assert x in a <==> x == a[0] || x in a[1..];
        assert x in b <==> x == b[0] || x in b[1..];
      }
      SortedDisjointUnique(a[1..], b[1..]);
    }
  }

  lemma FirstIsLeast(a: seq<Span>, b: seq<Span>)
    requires SortedDisjoint(a) && SortedDisjoint(b) && a != [] && b != []
    requires ToSet(a) == ToSet(b)
    ensures a[0] == b[0] || a[0].end <= b[0].start
  {
    assert a[0] in ToSet(b) && b[0] in ToSet(a);
    var i :| 0 <= i < |b| && b[i] == a[0];
    var j :| 0 <= j < |a| && a[j] == b[0];
  }

  // ----- overlap priority -----

  const PRIORITY: map<string, int> := map[
    "FOREIGN_DOCUMENT" := 110, "BIRTH_CERTIFICATE" := 110, "PASSPORT" := 105, "DRIVER_LICENSE" := 104,
    "BIRTH_DATE" := 103, "PASSPORT_DATE" := 103, "DEPARTMENT_CODE" := 103, "CARDHOLDER" := 102,
    "PASSPORT_ISSUER" := 101, "BIRTH_PLACE" := 100, "ADDRESS" := 99, "CARD" := 95, "INN" := 94,
    "PHONE" := 90, "EMAIL" := 90, "PERSON" := 80, "LOCATION" := 70
  ]

  function ClusterPriority(s: Span): int {
    if s.reason == "ner-structured" then 65
    else Max(if s.kind in PRIORITY then PRIORITY[s.kind] else 85, if s.reason == "cis-personal-id" then 96 else 0)
  }

  /** Strict key order: higher priority, longer, more confident, earlier, then type and reason. */
  predicate KeyBefore(a: Span, b: Span) {
    if ClusterPriority(a) != ClusterPriority(b) then ClusterPriority(a) > ClusterPriority(b)
    else if a.end - a.start != b.end - b.start then a.end - a.start > b.end - b.start
    else if a.confidence != b.confidence then a.confidence > b.confidence
    else if a.start != b.start then a.start < b.start
    else if a.kind != b.kind then StrLess(a.kind, b.kind)
    else StrLess(a.reason, b.reason)
  }

  predicate KeyLe(a: Span, b: Span) {
    a == b || KeyBefore(a, b)
  }

  lemma KeyBeforeTotal(a: Span, b: Span)
    ensures a != b ==> KeyBefore(a, b) || KeyBefore(b, a)
    ensures !(KeyBefore(a, b) && KeyBefore(b, a))
    ensures !KeyBefore(a, a)
  {
    StrLessTotal(a.kind, b.kind);
    StrLessTotal(a.reason, b.reason);
    StrLessTotal(a.reason, a.reason);
  }

  lemma KeyBeforeTransitive(a: Span, b: Span, c: Span)
    requires KeyBefore(a, b) && KeyBefore(b, c)
    ensures KeyBefore(a, c)
  {
    if ClusterPriority(a) == ClusterPriority(b) == ClusterPriority(c) {
      if StrLess(a.kind, b.kind) && StrLess(b.kind, c.kind) {
        StrLessTransitive(a.kind, b.kind, c.kind);
      }
      if StrLess(a.reason, b.reason) && StrLess(b.reason, c.reason) {
        StrLessTransitive(a.reason, b.reason, c.reason);
      }
      StrLessTotal(a.kind, c.kind);
    }
  }

  lemma KeyLeIsTotalPreorder()
    ensures TotalPreorder(KeyLe)
  {
    forall a, b ensures KeyLe(a, b) || KeyLe(b, a) {
      KeyBeforeTotal(a, b);
    }
    forall a, b, c | KeyLe(a, b) && KeyLe(b, c) ensures KeyLe(a, c) {
      if a != b && b != c {
        KeyBeforeTransitive(a, b, c);
      }
    }
  }
}
