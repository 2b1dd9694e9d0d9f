/** The last three steps of merging model candidates: resolve, graft address tails, refine to model boundaries. */
module Merge {
  import opened Base
  import opened Spans
  import opened Text
  import opened Resolution
  import opened AddressTails
  import opened CoverIndex
  import opened Transform
  import opened Restore
  import opened Boundaries

  function WithReason(candidates: seq<Span>, reasons: set<string>): (r: seq<Span>)
    ensures forall c :: c in r <==> c in candidates && c.reason in reasons
    ensures forall c :: multiset(r)[c] == if c.reason in reasons then multiset(candidates)[c] else 0
  {
    if candidates == [] then []
    else
      var last := candidates[|candidates| - 1];
      assert candidates == candidates[..|candidates| - 1] + [last];
      WithReason(candidates[..|candidates| - 1], reasons) + if last.reason in reasons then [last] else []
  }

  lemma ResolvedInText(text: string, candidates: seq<Span>, resolved: seq<Span>)
    requires forall c :: c in candidates ==> Nonempty(c) && c.end <= |text|
    requires SortedDisjoint(resolved) && IsKernel(ToSet(candidates), ToSet(resolved))
    ensures InText(resolved, text)
  {
    forall k | 0 <= k < |resolved| ensures resolved[k].end <= |text| {
      assert resolved[k] in ToSet(resolved);
      assert resolved[k] in ToSet(candidates);
    }
  }

  lemma GraftedInText(lex: Lexicon, text: string, resolved: seq<Span>, candidates: seq<Span>, grafted: seq<Span>)
    requires InText(resolved, text) && SortedDisjoint(grafted)
    requires forall c :: c in candidates ==> Nonempty(c) && c.end <= |text|
    requires forall f :: f in grafted && f !in resolved ==> IsTail(lex, text, resolved, candidates, f)
    ensures InText(grafted, text)
  {
    forall k | 0 <= k < |grafted| ensures grafted[k].end <= |text| {
      var f := grafted[k];
      if f in resolved {
        var i :| 0 <= i < |resolved| && resolved[i] == f;
      } else {
        assert IsTail(lex, text, resolved, candidates, f);
        var c :| c in candidates && IsTailOf(lex, text, resolved, c, f);
        TailAvoidsResolved(lex, text, resolved, c, f);
      }
    }
  }

  /**
   * What the first two steps leave: `resolved` is the global greedy selection of the candidates, and `grafted` adds
   * the winners among the address tails, those that no better tail displaces.
   */
  ghost predicate Grafted(lex: Lexicon, text: string, candidates: seq<Span>, resolved: seq<Span>, grafted: seq<Span>) {
    var locations := WithReason(candidates, {"ner-location"});
    && SortedDisjoint(resolved) && ToSet(resolved) == Greedy(Sort(KeyLe, Distinct(candidates)))
    && SortedDisjoint(grafted) && ToSet(resolved) <= ToSet(grafted)
    && (forall f :: f in grafted && f !in resolved ==> IsTail(lex, text, resolved, locations, f))
    && (forall f :: IsTail(lex, text, resolved, locations, f) && f !in grafted ==>
          exists g :: g in grafted && g !in resolved && Overlap(g, f) && KeyBefore(g, f))
  }

  lemma MembersDisjoint(spans: seq<Span>, a: Span, b: Span)
    requires SortedDisjoint(spans) && a in spans && b in spans && a != b
    ensures !Overlap(a, b)
  {
    var i :| 0 <= i < |spans| && spans[i] == a;
    var j :| 0 <= j < |spans| && spans[j] == b;
  }

  /** The spans added to `resolved` are a kernel of any set that contains them and whose others they displace. */
  lemma AddedAreKernel(resolved: seq<Span>, grafted: seq<Span>, tails: set<Span>)
    requires SortedDisjoint(grafted) && ToSet(grafted) - ToSet(resolved) <= tails
    requires forall f :: f in tails && f !in grafted ==>
               exists g :: g in grafted && g !in resolved && Overlap(g, f) && KeyBefore(g, f)
    requires forall f :: f in tails ==> f !in resolved
    ensures IsKernel(tails, ToSet(grafted) - ToSet(resolved))
  {
    var kept := ToSet(grafted) - ToSet(resolved);
    forall a, b | a in kept && b in kept && a != b ensures !Overlap(a, b) {
      MembersDisjoint(grafted, a, b);
    }
    forall f | f in tails && f !in kept ensures exists g :: g in kept && Overlap(g, f) && KeyBefore(g, f) {
      var g :| g in grafted && g !in resolved && Overlap(g, f) && KeyBefore(g, f);
      assert g in kept;
    }
  }

  lemma SameAdded(resolved: seq<Span>, g1: seq<Span>, g2: seq<Span>, tails: set<Span>)
    requires IsKernel(tails, ToSet(g1) - ToSet(resolved)) && IsKernel(tails, ToSet(g2) - ToSet(resolved))
    requires ToSet(resolved) <= ToSet(g1) && ToSet(resolved) <= ToSet(g2)
    ensures ToSet(g1) == ToSet(g2)
  {
    KernelUnique(tails, ToSet(g1) - ToSet(resolved), ToSet(g2) - ToSet(resolved));
    assert ToSet(g1) == ToSet(resolved) + (ToSet(g1) - ToSet(resolved));
    assert ToSet(g2) == ToSet(resolved) + (ToSet(g2) - ToSet(resolved));
  }

  /** Candidates determine both lists, so they determine which letters and digits end up covered. */
  lemma GraftedUnique(lex: Lexicon, text: string, candidates: seq<Span>, r1: seq<Span>, g1: seq<Span>,
                      r2: seq<Span>, g2: seq<Span>)
    requires Grafted(lex, text, candidates, r1, g1) && Grafted(lex, text, candidates, r2, g2)
    ensures r1 == r2 && g1 == g2
  {
    SortedDisjointUnique(r1, r2);
    var tails := (ToSet(g1) + ToSet(g2)) - ToSet(r1);
    AddedAreKernel(r1, g1, tails);
    AddedAreKernel(r1, g2, tails);
    SameAdded(r1, g1, g2, tails);
    SortedDisjointUnique(g1, g2);
  }

  /** The span lies in a candidate and carries its confidence, its reason and, unless it is a tail, its type. */
  ghost predicate FromCandidate(candidates: seq<Span>, s: Span) {
    exists c :: c in candidates && CutFrom(c, s)
  }

  predicate CutFrom(c: Span, s: Span) {
    && c.start <= s.start && s.end <= c.end && s.confidence == c.confidence && s.reason == c.reason
    && (s.kind == c.kind || (s.kind == "LOCATION" && s.reason == "ner-location"))
  }

  lemma GraftedFromCandidates(lex: Lexicon, text: string, candidates: seq<Span>, resolved: seq<Span>,
                              grafted: seq<Span>, f: Span)
    requires AllNonempty(resolved) && ToSet(resolved) <= ToSet(candidates)
    requires Grafted(lex, text, candidates, resolved, grafted) && f in grafted
    ensures FromCandidate(candidates, f)
  {
    if f in resolved {
      assert f in ToSet(resolved);
      assert f in candidates && CutFrom(f, f);
    } else {
      var locations := WithReason(candidates, {"ner-location"});
      assert IsTail(lex, text, resolved, locations, f);
      var c :| c in locations && Eligible(c, OverlapsOf(resolved, c)) && IsTailOf(lex, text, resolved, c, f);
      TailAvoidsResolved(lex, text, resolved, c, f);
      assert c in candidates && CutFrom(c, f);
    }
  }

  lemma InheritedFromCandidates(candidates: seq<Span>, grafted: seq<Span>, piece: Span)
    requires Inherited(grafted, piece) && forall f :: f in grafted ==> FromCandidate(candidates, f)
    ensures FromCandidate(candidates, piece)
  {
    var f :| f in grafted && SameMeaning(piece, f) && f.start <= piece.start && piece.end <= f.end;
    var c :| c in candidates && CutFrom(c, f);
    assert CutFrom(c, piece);
  }

  /** A candidate that wins the global greedy pass. */
  ghost predicate Wins(candidates: seq<Span>, s: Span) {
    s in Greedy(Sort(KeyLe, Distinct(candidates)))
  }

  /**
   * The result is sorted, disjoint and inside the text; every span of it is cut from a candidate; and the letters and
   * digits it covers are exactly those that the winners of the global greedy pass and the winning tails cover, so
   * neither later step loses or invents protection.
   */
  method MergeCandidates(lex: Lexicon, rules: Rules, text: string, refined: seq<Span>)
    returns (merged: seq<Span>, ghost resolved: seq<Span>, ghost grafted: seq<Span>)
    requires rules.chars.Lawful() && forall c :: c in refined ==> Nonempty(c) && c.end <= |text|
    ensures InText(merged, text) && forall s :: s in merged ==> FromCandidate(refined, s)
    ensures Grafted(lex, text, refined, resolved, grafted)
    ensures forall p :: 0 <= p < |text| && rules.chars.isAlnum(text[p]) ==>
              (Protected(merged, p) <==> Protected(grafted, p))
    ensures forall s, p :: Wins(refined, s) && s.start <= p < s.end && p < |text| && rules.chars.isAlnum(text[p]) ==>
              Protected(merged, p)
    ensures forall g :: g in grafted ==>
              && g.start <= g.end <= |text|
              && KeepsBoundaries(rules, text, g, WithReason(refined, {"ner-person", "ner-location", "ner-structured"}),
                                 merged)
  {
    var winners := Resolve(refined);
    ResolvedInText(text, refined, winners);
    var locations := WithReason(refined, {"ner-location"});
    var withTails := PreserveAddressTails(lex, text, winners, locations);
    GraftedInText(lex, text, winners, locations, withTails);
    resolved, grafted := winners, withTails;
    assert Grafted(lex, text, refined, resolved, grafted);
    var models := WithReason(refined, {"ner-person", "ner-location", "ner-structured"});
    ghost var groups;
    merged, groups := PreserveModelBoundaries(rules, text, withTails, models);
    forall s | s in merged ensures FromCandidate(refined, s) {
      forall f | f in grafted ensures FromCandidate(refined, f) {
        GraftedFromCandidates(lex, text, refined, resolved, grafted, f);
      }
      InheritedFromCandidates(refined, grafted, s);
    }
    forall s, p | Wins(refined, s) && s.start <= p < s.end && p < |text| && rules.chars.isAlnum(text[p])
      ensures Protected(merged, p)
    {
      WinnerProtected(grafted, s, p);
    }
  }

  lemma WinnerProtected(grafted: seq<Span>, s: Span, p: int)
    requires s in ToSet(grafted) && s.start <= p < s.end
    ensures Protected(grafted, p)
  {
    var k :| 0 <= k < |grafted| && grafted[k] == s;
  }
}
