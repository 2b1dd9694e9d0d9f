/** Grafting the uncovered tails of model locations back onto resolved address components. */
module AddressTails {
  import opened Base
  import opened Spans
  import opened Text
  import opened Resolution
  import opened CoverIndex

  const ADDRESS_COMPONENTS: set<string> :=
    {"ADDRESS", "COUNTRY", "CITY", "STREET", "HOUSE", "APARTMENT", "POSTAL_CODE"}

  /** `designator` stands for the location-marker search and the building-number match. */
  datatype Lexicon = Lexicon(chars: CharTable, designator: string -> bool)

  predicate Separator(lex: Lexicon, c: char) {
    lex.chars.isSpace(c) || c == ',' || c == ';'
  }

  /** `[s, e)` is `[start, end)` without its leading and trailing separators. */
  ghost predicate Trimmed(lex: Lexicon, text: string, start: nat, end: nat, s: nat, e: nat)
    requires start <= end <= |text|
  {
    && start <= s < e <= end
    && (forall i :: start <= i < s ==> Separator(lex, text[i]))
    && (forall i :: e <= i < end ==> Separator(lex, text[i]))
    && !Separator(lex, text[s]) && !Separator(lex, text[e - 1])
  }

  /** `f` is what `_address_fragment` makes of the stretch `[start, end)` of `candidate`. */
  ghost predicate FragmentOf(lex: Lexicon, text: string, candidate: Span, start: nat, end: nat, f: Span)
    requires start <= end <= |text|
  {
    && Trimmed(lex, text, start, end, f.start, f.end)
    && lex.designator(text[f.start..f.end])
    && f == Span(f.start, f.end, "LOCATION", candidate.confidence, "ner-location")
  }

  method AddressFragment(lex: Lexicon, text: string, candidate: Span, start: nat, end: nat) returns (r: Option<Span>)
    requires start <= end <= |text|
    ensures r.Some? ==> FragmentOf(lex, text, candidate, start, end, r.value)
    ensures forall f :: FragmentOf(lex, text, candidate, start, end, f) ==> r == Some(f)
  {
    var s, e := start, end;
    while s < e && Separator(lex, text[s])
      invariant start <= s <= e
      invariant forall i :: start <= i < s ==> Separator(lex, text[i])
    {
      s := s + 1;
    }
    while e > s && Separator(lex, text[e - 1])
      invariant s <= e <= end
      invariant forall i :: e <= i < end ==> Separator(lex, text[i])
    {
      e := e - 1;
    }
    if s == e || !lex.designator(text[s..e]) {
      return None;
    }
    return Some(Span(s, e, "LOCATION", candidate.confidence, "ner-location"));
  }

  ghost predicate Covered(spans: seq<Span>, p: int) {
    exists s :: s in spans && s.start <= p < s.end
  }

  /** `[a, b)` is a maximal stretch of `candidate` that `spans` leaves uncovered. */
  ghost predicate IsGap(spans: seq<Span>, candidate: Span, a: nat, b: nat) {
    && candidate.start <= a < b <= candidate.end
    && (forall p :: a <= p < b ==> !Covered(spans, p))
    && (a == candidate.start || Covered(spans, a - 1))
    && (b == candidate.end || Covered(spans, b))
  }

  ghost predicate IsTailOf(lex: Lexicon, text: string, spans: seq<Span>, candidate: Span, f: Span) {
    exists a: nat, b: nat :: IsGap(spans, candidate, a, b) && b <= |text| && FragmentOf(lex, text, candidate, a, b, f)
  }

  /** A location overlapping only rule-recognised address components may keep its tails. */
  predicate Eligible(candidate: Span, overlaps: seq<Span>) {
    && candidate.kind == "LOCATION"
    && overlaps != []
    && forall s :: s in overlaps ==> s.kind in ADDRESS_COMPONENTS && s.reason != "custom-rule"
  }

  method AddressTailOverlaps(candidate: Span, resolved: seq<Span>, starts: seq<int>) returns (overlaps: seq<Span>)
    requires SortedDisjoint(resolved)
    requires |starts| == |resolved| && forall k :: 0 <= k < |resolved| ==> starts[k] == resolved[k].start
    ensures overlaps ==
        if Eligible(candidate, OverlapsOf(resolved, candidate)) then OverlapsOf(resolved, candidate) else []
  {
    if candidate.kind != "LOCATION" {
      return [];
    }
    overlaps := ResolvedOverlaps(resolved, starts, candidate);
    if !Eligible(candidate, overlaps) {
      return [];
    }
  }

  /** Where the cursor stands after the first `n` overlapping spans. */
  ghost function CursorAfter(candidate: Span, overlaps: seq<Span>, n: nat): nat
    requires n <= |overlaps|
  {
    if n == 0 then candidate.start else Max(candidate.start, overlaps[n - 1].end)
  }

  /** The spans behind the cursor end at or before it; those ahead start at or after the next one. */
  lemma CursorSplits(candidate: Span, overlaps: seq<Span>, n: nat)
    requires SortedDisjoint(overlaps) && n <= |overlaps|
    requires forall s :: s in overlaps ==> Overlap(s, candidate)
    ensures forall k :: 0 <= k < n ==> overlaps[k].end <= CursorAfter(candidate, overlaps, n)
    ensures CursorAfter(candidate, overlaps, n) > candidate.start ==>
            Covered(overlaps, CursorAfter(candidate, overlaps, n) - 1)
  {
    if n > 0 {
      assert overlaps[n - 1] in overlaps;
    }
  }

  /** From the cursor up to the end of the next span, covered means inside that span. */
  lemma CoveredAhead(candidate: Span, overlaps: seq<Span>, n: nat)
    requires SortedDisjoint(overlaps) && n < |overlaps|
    requires forall s :: s in overlaps ==> Overlap(s, candidate)
    ensures forall p :: CursorAfter(candidate, overlaps, n) <= p < overlaps[n].end ==>
                          (Covered(overlaps, p) <==> overlaps[n].start <= p)
  {
    CursorSplits(candidate, overlaps, n);
    assert overlaps[n] in overlaps;
    forall p | CursorAfter(candidate, overlaps, n) <= p < overlaps[n].end && Covered(overlaps, p)
      ensures overlaps[n].start <= p
    {
      var s :| s in overlaps && s.start <= p < s.end;
      var k :| 0 <= k < |overlaps| && overlaps[k] == s;
    }
  }

  /** Between two consecutive cursor positions there is at most one gap: up to the next span. */
  lemma GapAtCursor(candidate: Span, overlaps: seq<Span>, n: nat, a: nat, b: nat)
    requires SortedDisjoint(overlaps) && n < |overlaps|
    requires forall s :: s in overlaps ==> Overlap(s, candidate)
    requires IsGap(overlaps, candidate, a, b)
    requires CursorAfter(candidate, overlaps, n) < b <= CursorAfter(candidate, overlaps, n + 1)
    ensures a == CursorAfter(candidate, overlaps, n) && b == overlaps[n].start
  {
    var cursor, next := CursorAfter(candidate, overlaps, n), overlaps[n];
    assert next in overlaps;
    CursorSplits(candidate, overlaps, n);
    CoveredAhead(candidate, overlaps, n);
    assert !Covered(overlaps, a) && !Covered(overlaps, b - 1);
  }

  lemma GapBeforeSpan(candidate: Span, overlaps: seq<Span>, n: nat)
    requires SortedDisjoint(overlaps) && n < |overlaps|
    requires forall s :: s in overlaps ==> Overlap(s, candidate)
    requires overlaps[n].start > CursorAfter(candidate, overlaps, n)
    ensures IsGap(overlaps, candidate, CursorAfter(candidate, overlaps, n), overlaps[n].start)
  {
    assert overlaps[n] in overlaps;
    CursorSplits(candidate, overlaps, n);
    CoveredAhead(candidate, overlaps, n);
  }

  /** After the last span only the final stretch of the candidate can still be a gap. */
  lemma GapAfterLast(candidate: Span, overlaps: seq<Span>)
    requires SortedDisjoint(overlaps) && Nonempty(candidate)
    requires forall s :: s in overlaps ==> Overlap(s, candidate)
    ensures var cursor := CursorAfter(candidate, overlaps, |overlaps|);
            && (cursor < candidate.end ==> IsGap(overlaps, candidate, cursor, candidate.end))
            && (forall a: nat, b: nat :: IsGap(overlaps, candidate, a, b) && b > cursor ==>
                   a == cursor && b == candidate.end)
  {
    var cursor := CursorAfter(candidate, overlaps, |overlaps|);
    CursorSplits(candidate, overlaps, |overlaps|);
    forall p | cursor <= p ensures !Covered(overlaps, p) {
      forall s | s in overlaps ensures s.end <= p {
        var k :| 0 <= k < |overlaps| && overlaps[k] == s;
      }
    }
    forall a: nat, b: nat | IsGap(overlaps, candidate, a, b) && b > cursor
      ensures a == cursor && b == candidate.end
    {
      assert a > candidate.start ==> Covered(overlaps, a - 1);
    }
  }

  /** The fragments of one candidate: exactly the qualifying trimmed gaps between its overlaps. */
  method AddressTailFragments(lex: Lexicon, text: string, candidate: Span, overlaps: seq<Span>)
    returns (additions: seq<Span>)
    requires SortedDisjoint(overlaps) && Nonempty(candidate) && candidate.end <= |text|
    requires forall s :: s in overlaps ==> Overlap(s, candidate)
    ensures forall f :: f in additions <==> IsTailOf(lex, text, overlaps, candidate, f)
  {
    var cursor := candidate.start;
    additions := [];
    for n := 0 to |overlaps|
      invariant cursor == CursorAfter(candidate, overlaps, n)
      invariant forall f :: f in additions ==> IsTailOf(lex, text, overlaps, candidate, f)
      invariant forall a: nat, b: nat, f ::
                  IsGap(overlaps, candidate, a, b) && b <= cursor && FragmentOf(lex, text, candidate, a, b, f)
                  ==> f in additions
    {
      var span := overlaps[n];
      assert span in overlaps;
      forall a: nat, b: nat | IsGap(overlaps, candidate, a, b) && cursor < b <= CursorAfter(candidate, overlaps, n + 1)
        ensures a == cursor && b == span.start
      {
        GapAtCursor(candidate, overlaps, n, a, b);
      }
      CursorSplits(candidate, overlaps, n + 1);
      if span.start > cursor {
        GapBeforeSpan(candidate, overlaps, n);
        var fragment := AddressFragment(lex, text, candidate, cursor, span.start);
        if fragment.Some? {
          additions := additions + [fragment.value];
        }
      }
      cursor := Max(cursor, span.end);
    }
    GapAfterLast(candidate, overlaps);
    if cursor < candidate.end {
      var fragment := AddressFragment(lex, text, candidate, cursor, candidate.end);
      if fragment.Some? {
        additions := additions + [fragment.value];
      }
    }
    forall f | IsTailOf(lex, text, overlaps, candidate, f) ensures f in additions {
      var a: nat, b: nat :| IsGap(overlaps, candidate, a, b) && b <= |text|
           && FragmentOf(lex, text, candidate, a, b, f);
    }
  }

  // ----- grafting -----

  /** Inside the candidate, the overlapping spans cover what all resolved spans cover. */
  lemma GapsAgree(resolved: seq<Span>, candidate: Span, a: nat, b: nat)
    requires Nonempty(candidate)
    ensures IsGap(resolved, candidate, a, b) <==> IsGap(OverlapsOf(resolved, candidate), candidate, a, b)
  {
    var overlaps := OverlapsOf(resolved, candidate);
    OverlapsOfMembers(resolved, candidate);
    forall p | candidate.start <= p < candidate.end ensures Covered(resolved, p) <==> Covered(overlaps, p) {
      if s :| s in resolved && s.start <= p < s.end {
        assert Overlap(s, candidate);
      }
    }
  }

  ghost predicate IsTail(lex: Lexicon, text: string, resolved: seq<Span>, candidates: seq<Span>, f: Span) {
    exists c :: c in candidates && Eligible(c, OverlapsOf(resolved, c)) && IsTailOf(lex, text, resolved, c, f)
  }

  lemma TailsAgree(lex: Lexicon, text: string, resolved: seq<Span>, candidate: Span, f: Span)
    requires Nonempty(candidate)
    ensures IsTailOf(lex, text, resolved, candidate, f) <==>
            IsTailOf(lex, text, OverlapsOf(resolved, candidate), candidate, f)
  {
    forall a: nat, b: nat {
      GapsAgree(resolved, candidate, a, b);
    }
  }

  /** A grafted tail overlaps no resolved span: it lies in a gap of the resolved list. */
  lemma TailAvoidsResolved(lex: Lexicon, text: string, resolved: seq<Span>, candidate: Span, f: Span)
    requires AllNonempty(resolved) && IsTailOf(lex, text, resolved, candidate, f)
    ensures Nonempty(f) && candidate.start <= f.start && f.end <= candidate.end
    ensures forall s :: s in resolved ==> !Overlap(s, f)
  {
    var a: nat, b: nat :| IsGap(resolved, candidate, a, b) && b <= |text| && FragmentOf(lex, text, candidate, a, b, f);
    forall s | s in resolved ensures !Overlap(s, f) {
      var p := Max(s.start, f.start);
      assert p < s.end ==> Covered(resolved, p);
    }
  }

  /**
   * `_preserve_address_tails`. Every resolved span survives the final resolution, everything new is
   * a tail, and a tail is left out only for a better overlapping tail.
   */
  method PreserveAddressTails(lex: Lexicon, text: string, resolved: seq<Span>, candidates: seq<Span>)
    returns (result: seq<Span>)
    requires SortedDisjoint(resolved)
    requires forall c :: c in candidates ==> Nonempty(c) && c.end <= |text|
    ensures SortedDisjoint(result)
    ensures ToSet(resolved) <= ToSet(result)
    ensures forall f :: f in result && f !in resolved ==> IsTail(lex, text, resolved, candidates, f)
    ensures forall f :: IsTail(lex, text, resolved, candidates, f) && f !in result ==>
              exists g :: g in result && g !in resolved && Overlap(g, f) && KeyBefore(g, f)
  {
    var starts := seq(|resolved|, i requires 0 <= i < |resolved| => resolved[i].start as int);
    var additions: seq<Span> := [];
    for n := 0 to |candidates|
      invariant forall f :: f in additions <==> IsTail(lex, text, resolved, candidates[..n], f)
    {
      var candidate := candidates[n];
      assert candidates[..n + 1] == candidates[..n] + [candidate];
      var overlaps := AddressTailOverlaps(candidate, resolved, starts);
      OverlapsOfMembers(resolved, candidate);
      OverlapsOfSortedDisjoint(resolved, candidate);
      ghost var before := additions;
      if overlaps != [] {
        var fragments := AddressTailFragments(lex, text, candidate, overlaps);
        additions := additions + fragments;
      }
      forall f ensures f in additions <==> IsTail(lex, text, resolved, candidates[..n + 1], f) {
        TailsAgree(lex, text, resolved, candidate, f);
        TailOfOneMore(lex, text, resolved, candidates, n, f);
      }
    }
    assert candidates[..|candidates|] == candidates;
    forall f | f in additions ensures Nonempty(f) && forall s :: s in resolved ==> !Overlap(s, f) && !Overlap(f, s) {
      var c :| c in candidates && Eligible(c, OverlapsOf(resolved, c)) && IsTailOf(lex, text, resolved, c, f);
      TailAvoidsResolved(lex, text, resolved, c, f);
    }
    if additions == [] {
      return resolved;
    }
    result := Resolve(resolved + additions);
    ResolvedSurvive(resolved, additions, result);
  }

  lemma TailOfOneMore(lex: Lexicon, text: string, resolved: seq<Span>, candidates: seq<Span>, n: nat, f: Span)
    requires n < |candidates|
    ensures IsTail(lex, text, resolved, candidates[..n + 1], f) <==>
            IsTail(lex, text, resolved, candidates[..n], f) ||
            (Eligible(candidates[n], OverlapsOf(resolved, candidates[n]))
             && IsTailOf(lex, text, resolved, candidates[n], f))
  {
    assert candidates[..n + 1] == candidates[..n] + [candidates[n]];
  }

  /** Spans that overlap nothing they are resolved with are kept, so additions displace only each other. */
  lemma ResolvedSurvive(resolved: seq<Span>, additions: seq<Span>, result: seq<Span>)
    requires SortedDisjoint(resolved)
    requires forall f, s :: f in additions && s in resolved ==> !Overlap(s, f) && !Overlap(f, s)
    requires IsKernel(ToSet(resolved + additions), ToSet(result))
    ensures ToSet(resolved) <= ToSet(result)
    ensures forall f :: f in result ==> f in resolved || f in additions
    ensures forall f :: f in additions && f !in result ==>
              exists g :: g in result && g !in resolved && Overlap(g, f) && KeyBefore(g, f)
  {
    forall s | s in ToSet(resolved) ensures s in ToSet(result) {
      forall c | c in ToSet(resolved + additions) && c != s ensures !Overlap(c, s) {
        if c in resolved {
          var i :| 0 <= i < |resolved| && resolved[i] == c;
          var j :| 0 <= j < |resolved| && resolved[j] == s;
        }
      }
      LoneSpanKept(ToSet(resolved + additions), ToSet(result), s);
    }
    forall f | f in result ensures f in resolved || f in additions {
      assert f in ToSet(result);
    }
    forall f | f in additions && f !in result
      ensures exists g :: g in result && g !in resolved && Overlap(g, f) && KeyBefore(g, f)
    {
      assert f in ToSet(resolved + additions) && f !in ToSet(result);
      var g :| g in ToSet(result) && Overlap(g, f) && KeyBefore(g, f);
    }
  }

  // ----- what a tail is, in terms of the text -----

  /** A place that only address components found by rules, and at least one of them, reach into. */
  ghost predicate AmongComponents(resolved: seq<Span>, c: Span) {
    && c.kind == "LOCATION" && (exists s :: s in resolved && !Apart(s, c))
    && forall s :: s in resolved && !Apart(s, c) ==>
         && s.kind in {"ADDRESS", "COUNTRY", "CITY", "STREET", "HOUSE", "APARTMENT", "POSTAL_CODE"}
         && s.reason != "custom-rule"
  }

  predicate Separates(lex: Lexicon, c: char) {
    lex.chars.isSpace(c) || c == ',' || c == ';'
  }

  /**
   * `f` is a stretch of the place `c` that no resolved span touches and that is a designator. It neither begins nor
   * ends with a separator, and between it and the next resolved span or the end of `c` there are only separators.
   */
  ghost predicate UncoveredStretch(lex: Lexicon, text: string, resolved: seq<Span>, c: Span, f: Span) {
    && f.kind == "LOCATION" && f.confidence == c.confidence && f.reason == "ner-location"
    && c.start <= f.start < f.end <= c.end <= |text|
    && (forall s :: s in resolved ==> Apart(s, f))
    && !Separates(lex, text[f.start]) && !Separates(lex, text[f.end - 1]) && lex.designator(text[f.start..f.end])
    && (forall p :: c.start <= p < f.start && !Separates(lex, text[p]) ==>
          exists s :: s in resolved && p < s.end <= f.start)
    && (forall p :: f.end <= p < c.end && !Separates(lex, text[p]) ==>
          exists s :: s in resolved && f.end <= s.start <= p)
  }

  lemma EligibleMeans(resolved: seq<Span>, c: Span)
    ensures Eligible(c, OverlapsOf(resolved, c)) <==> AmongComponents(resolved, c)
  {
    OverlapsOfMembers(resolved, c);
    assert OverlapsOf(resolved, c) != [] <==> exists s :: s in OverlapsOf(resolved, c) by {
      assert OverlapsOf(resolved, c) != [] ==> OverlapsOf(resolved, c)[0] in OverlapsOf(resolved, c);
    }
  }

  /** The largest uncovered stretch of `c` around `f`. */
  lemma GapAround(spans: seq<Span>, c: Span, f: Span) returns (a: nat, b: nat)
    requires c.start <= f.start < f.end <= c.end && forall p :: f.start <= p < f.end ==> !Covered(spans, p)
    ensures IsGap(spans, c, a, b) && a <= f.start && f.end <= b
  {
    a, b := f.start, f.end;
    while a > c.start && !Covered(spans, a - 1)
      invariant c.start <= a <= f.start && forall p :: a <= p < b ==> !Covered(spans, p)
    {
      a := a - 1;
    }
    while b < c.end && !Covered(spans, b)
      invariant f.end <= b <= c.end && forall p :: a <= p < b ==> !Covered(spans, p)
    {
      b := b + 1;
    }
  }

  lemma StretchIsTail(lex: Lexicon, text: string, resolved: seq<Span>, c: Span, f: Span)
    requires AllNonempty(resolved) && UncoveredStretch(lex, text, resolved, c, f)
    ensures IsTailOf(lex, text, resolved, c, f)
  {
    var a, b := GapAround(resolved, c, f);
    forall s | s in resolved ensures !(a < s.end <= f.start) && !(f.end <= s.start < b) {
      assert Covered(resolved, s.start) && Covered(resolved, s.end - 1);
    }
    forall p | a <= p < b && !(f.start <= p < f.end) ensures Separator(lex, text[p]) {
    }
    assert FragmentOf(lex, text, c, a, b, f);
  }

  lemma TailIsStretch(lex: Lexicon, text: string, resolved: seq<Span>, c: Span, f: Span)
    requires AllNonempty(resolved) && c.end <= |text| && IsTailOf(lex, text, resolved, c, f)
    ensures UncoveredStretch(lex, text, resolved, c, f)
  {
    TailAvoidsResolved(lex, text, resolved, c, f);
    var a: nat, b: nat :| IsGap(resolved, c, a, b) && b <= |text| && FragmentOf(lex, text, c, a, b, f);
    forall p | c.start <= p < f.start && !Separates(lex, text[p])
      ensures exists s :: s in resolved && p < s.end <= f.start
    {
      assert p < a && Covered(resolved, a - 1);
      var s :| s in resolved && s.start <= a - 1 < s.end;
      assert !Covered(resolved, a);
    }
    forall p | f.end <= p < c.end && !Separates(lex, text[p])
      ensures exists s :: s in resolved && f.end <= s.start <= p
    {
      assert b <= p && Covered(resolved, b);
      var s :| s in resolved && s.start <= b < s.end;
      assert !Covered(resolved, b - 1);
    }
  }

  /** The tails are exactly the uncovered designators of the places among rule-recognised address components. */
  lemma TailSpelledOut(lex: Lexicon, text: string, resolved: seq<Span>, candidates: seq<Span>, f: Span)
    requires AllNonempty(resolved) && forall c :: c in candidates ==> c.end <= |text|
    ensures IsTail(lex, text, resolved, candidates, f) <==>
            exists c :: c in candidates && AmongComponents(resolved, c) && UncoveredStretch(lex, text, resolved, c, f)
  {
    hide Eligible, OverlapsOf, AmongComponents, IsTailOf, UncoveredStretch;
    forall c | c in candidates
      ensures Eligible(c, OverlapsOf(resolved, c)) && IsTailOf(lex, text, resolved, c, f) <==>
              AmongComponents(resolved, c) && UncoveredStretch(lex, text, resolved, c, f)
    {
      EligibleMeans(resolved, c);
      if IsTailOf(lex, text, resolved, c, f) {
        TailIsStretch(lex, text, resolved, c, f);
      }
      if UncoveredStretch(lex, text, resolved, c, f) {
        StretchIsTail(lex, text, resolved, c, f);
      }
    }
  }
}
