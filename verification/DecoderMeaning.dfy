/** What decoding a text yields, spelled out from the answers of the tokenizer and of the model. */
module DecoderMeaning {
  import opened Base
  import opened Text
  import opened Words
  import opened Windows
  import opened WindowPlans
  import opened Entities
  import opened Decoder

  /** `active` are the words with a subword, in order, and `counts` how many subwords each has. */
  ghost predicate KeptWords(owners: seq<int>, n: nat, active: seq<nat>, counts: seq<nat>) {
    && (forall j, k :: 0 <= j < k < |active| ==> active[j] < active[k])
    && (forall w: nat :: w in active <==> w < n && PositionsOf(owners, w) != {})
    && |counts| == |active| && forall k :: 0 <= k < |active| ==> counts[k] == |PositionsOf(owners, active[k])|
  }

  /**
   * `p` is read for kept word `k` in the window `w`: the model sees the window's subwords between the two special
   * tokens, all attended, and the logits at the word's first subword are read.
   */
  ghost predicate ReadIn(rt: Runtime, ids: seq<int>, counts: seq<nat>, w: Window, k: nat, p: Prediction) {
    && w.start <= k < w.end <= |counts| && Sum(counts[..w.end]) <= |ids|
    && Sum(counts[..w.start]) <= Sum(counts[..k]) < Sum(counts[..w.end])
    && var row := [rt.cls] + ids[Sum(counts[..w.start])..Sum(counts[..w.end])] + [rt.sep];
    && var logits := rt.run([row], [seq(|row|, _ => true)]);
    && |logits| == 1 && |logits[0]| == |row|
    && p == rt.read(logits[0][1 + Sum(counts[..k]) - Sum(counts[..w.start])])
  }

  /** The last window of the plan that owns kept word `k` decides. */
  ghost predicate ReadByLastOwner(rt: Runtime, ids: seq<int>, counts: seq<nat>, plan: seq<Window>, k: nat,
                                  p: Prediction)
  {
    exists m: nat :: LastOwner(plan, m, k) && ReadIn(rt, ids, counts, plan[m], k, p)
  }

  /** The intermediate results of decoding. */
  datatype Reading = Reading(active: seq<nat>, counts: seq<nat>, plan: seq<Window>, predicted: seq<Prediction>,
                             bridged: seq<Prediction>)

  /** Words without subwords are certainly outside; the others carry what the last owner of the plan reads. */
  ghost predicate PredictedBy(rt: Runtime, ids: seq<int>, d: Reading, n: nat) {
    && |d.predicted| == n && (forall k :: 0 <= k < |d.active| ==> d.active[k] < n)
    && (forall p: nat :: p < n && p !in d.active ==> d.predicted[p] == Prediction(Outside, 1.0))
    && (forall k: nat :: k < |d.active| ==>
          ReadByLastOwner(rt, ids, d.counts, d.plan, k, d.predicted[d.active[k]]))
  }

  ghost predicate PlannedBy(d: Reading) {
    if d.counts == [] then d.plan == [] else IsPlan(d.counts, d.plan, 0, 0)
  }

  /** From the tokenizer's answer to the entities, through the reading `d`. */
  ghost predicate Spelled(rt: Runtime, text: string, words: seq<Word>, d: Reading, entities: seq<Entity>) {
    var (ids, owners) := rt.encode(WordTexts(words));
    && KeptWords(owners, |words|, d.active, d.counts) && PlannedBy(d) && PredictedBy(rt, ids, d, |words|)
    && |d.bridged| == |words|
    && (forall i :: 0 <= i < |words| ==> JoinedAs(WordTexts(words), d.predicted, i, d.bridged[i]))
    && GroupedSomehow(text, words, d.bridged, entities)
  }

  // ----- the decoder's result is spelled so -----

  lemma {:induction false} ActiveMembers(counts: seq<nat>, n: nat, w: nat)
    requires n <= |counts|
    ensures w in ActiveUpTo(counts, n) <==> w < n && counts[w] > 0
  {
    if n > 0 {
      ActiveMembers(counts, n - 1, w);
    }
  }

  lemma KeptMeans(owners: seq<int>, n: nat)
    ensures var counts := CountsOf(owners, n);
            KeptWords(owners, n, ActiveUpTo(counts, n), ActiveCounts(counts, n))
  {
    var counts := CountsOf(owners, n);
    forall w: nat | w < n ensures counts[w] == |PositionsOf(owners, w)| {
      CountIsPositions(owners, w);
    }
    forall w: nat ensures w in ActiveUpTo(counts, n) <==> w < n && PositionsOf(owners, w) != {} {
      ActiveMembers(counts, n, w);
    }
  }

  /** The kept word's first subword lies in the window. */
  lemma PositionInWindow(counts: seq<nat>, w: Window, k: nat)
    requires ValidCounts(counts) && w.start <= k < w.end <= |counts|
    ensures Sum(counts[..w.start]) <= Sum(counts[..k]) < Sum(counts[..w.end]) <= Sum(counts)
    ensures WindowPosition(counts, w, k - w.start) == 1 + Sum(counts[..k]) - Sum(counts[..w.start])
  {
    hide Sum;
    SumPrefixes(counts, w.start, k);
    SumPrefixes(counts, w.start, w.end);
    SumFirst(counts, k);
    SumPrefixes(counts, k + 1, w.end);
  }

  lemma SingleRow(rt: Runtime, tokens: seq<int>)
    requires WellShaped(rt)
    ensures var row := [rt.cls] + tokens + [rt.sep];
            var logits := rt.run([row], [seq(|row|, _ => true)]);
            |logits| == 1 && |logits[0]| == |row| == |tokens| + 2 && logits[0] == Single(rt, tokens)
  {
    var row := [rt.cls] + tokens + [rt.sep];
    assert seq(|row|, _ => true) == Ones(|tokens| + 2);
    assert |[row]| == |[Ones(|tokens| + 2)]|;
  }

  lemma WindowReads(rt: Runtime, ids: seq<int>, counts: seq<nat>, w: Window, k: nat)
    requires WellShaped(rt) && Sum(counts) == |ids| && ValidCounts(counts) && w.start <= k < w.end <= |counts|
    ensures ReadIn(rt, ids, counts, w, k, WindowPrediction(rt, ids, counts, w)[k - w.start])
  {
    hide Sum, WellShaped, WithSpecials, Single, WindowPosition;
    PositionInWindow(counts, w, k);
    SingleRow(rt, WindowTokens(ids, counts, w));
  }

  /** What is stitched for kept word `k` was read by the last window that owns it. */
  lemma StitchedIsRead(rt: Runtime, ids: seq<int>, counts: seq<nat>, k: nat)
    requires WellShaped(rt) && Sum(counts) == |ids| && ValidCounts(counts) && k < |counts|
    ensures AllWritten(Stitched(rt, ids, counts)).Success?
    ensures ReadByLastOwner(rt, ids, counts, PlanOf(counts), k, AllWritten(Stitched(rt, ids, counts)).value[k])
  {
    hide Plan, PlanOf, Stitch, StitchRest, ReadIn, Sum, EndFrom, WellShaped, Reached, LastOwner, WindowPrediction;
    StitchedIsComplete(rt, ids, counts);
    var m, w := LastWindow(rt, ids, counts, k);
    WindowReads(rt, ids, counts, w, k);
  }

  /** The last owner of kept word `k` is a window of the plan, and its prediction is what is stitched. */
  lemma LastWindow(rt: Runtime, ids: seq<int>, counts: seq<nat>, k: nat) returns (m: nat, w: Window)
    requires WellShaped(rt) && Sum(counts) == |ids| && ValidCounts(counts) && k < |counts|
    ensures LastOwner(PlanOf(counts), m, k) && m < |PlanOf(counts)| && w == PlanOf(counts)[m]
    ensures w.start <= k < w.end <= |counts|
    ensures Stitched(rt, ids, counts)[k] == Some(WindowPrediction(rt, ids, counts, w)[k - w.start])
  {
    hide Plan, Stitch, Sum, EndFrom, WellShaped, WindowPrediction, HasContext;
    ReachedStart(counts);
    var plan, predict := PlanOf(counts), Predictor(rt, ids, counts);
    PlanIsGood(counts, 0, 0);
    GoodWindowsFit(counts, plan, predict);
    PlanCovers(counts, 0, 0, k);
    m := SomeLastOwner(plan, k);
    w := plan[m];
    LastOwnerDecides(Unwritten(|counts|), plan, predict, k);
    assert GoodWindow(counts, w);
  }

  lemma PlanIsPlanned(counts: seq<nat>)
    requires ValidCounts(counts) && counts != []
    ensures IsPlan(counts, PlanOf(counts), 0, 0)
  {
    hide Plan, EndFrom, Sum;
    ReachedStart(counts);
    PlanIsPlan(counts, 0, 0, PlanOf(counts));
  }

  /** The predictions before bridging. */
  lemma WordsArePredicted(rt: Runtime, texts: seq<string>) returns (d: Reading)
    requires WellShaped(rt) && TokenizeOf(rt, texts).Success?
    ensures var (ids, owners) := rt.encode(texts);
            && KeptWords(owners, |texts|, d.active, d.counts) && PlannedBy(d) && PredictedBy(rt, ids, d, |texts|)
            && d.predicted == WordPredictions(rt, texts) && d.bridged == Bridged(texts, d.predicted)
  {
    hide KeptWords, PredictedBy, Sum, CountOf, ActiveUpTo, Scatter, Stitched, IsPlan, Bridged, WellShaped, InOrder;
    var (ids, owners) := rt.encode(texts);
    CountsAddUp(rt, texts);
    KeptMeans(owners, |texts|);
    var encoding := TokenizeOf(rt, texts).value;
    var active, counts := ActiveUpTo(encoding.counts, |texts|), ActiveCounts(encoding.counts, |texts|);
    var predicted := WordPredictions(rt, texts);
    d := Reading(active, counts, PlanOf(counts), predicted, Bridged(texts, predicted));
    if counts != [] {
      PlanIsPlanned(counts);
    }
    StitchedIsComplete(rt, encoding.ids, counts);
    PlacedPredictions(rt, encoding.ids, |texts|, active, counts, d);
  }

  lemma PlacedPredictions(rt: Runtime, ids: seq<int>, n: nat, active: seq<nat>, counts: seq<nat>, d: Reading)
    requires WellShaped(rt) && Sum(counts) == |ids| && ValidCounts(counts) && |counts| == |active|
    requires (forall k :: 0 <= k < |active| ==> active[k] < n)
    requires forall j, k :: 0 <= j < k < |active| ==> active[j] < active[k]
    requires d.active == active && d.counts == counts && d.plan == PlanOf(counts)
    requires AllWritten(Stitched(rt, ids, counts)).Success?
    requires d.predicted == Scatter(n, active, AllWritten(Stitched(rt, ids, counts)).value)
    ensures PredictedBy(rt, ids, d, n)
  {
    hide Scatter, Stitched, Plan, PlanOf, ReadByLastOwner, Sum;
    ScatterPlaces(n, active, AllWritten(Stitched(rt, ids, counts)).value);
    forall k: nat | k < |active| ensures ReadByLastOwner(rt, ids, counts, d.plan, k, d.predicted[active[k]]) {
      StitchedIsRead(rt, ids, counts, k);
    }
  }

  /**
   * Decoding a text with words succeeds exactly when the labels are valid and the tokenizer's answer is accepted, and
   * then yields the grouped and bridged readings of the last owners; otherwise the labels are reported first.
   */
  lemma DecodeSpelledOut(rt: Runtime, text: string, words: seq<Word>) returns (d: Reading)
    requires WellShaped(rt) && words != []
    ensures var r, (ids, owners) := DecodeOf(rt, text, words), rt.encode(WordTexts(words));
            if !rt.labelsValid then r == Failure(BadLabels)
            else if r.Failure? then Accepts(rt, WordTexts(words), ids, owners, Failure(r.error))
            else
              && Spelled(rt, text, words, d, r.value)
              && exists encoding :: Accepts(rt, WordTexts(words), ids, owners, Success(encoding))
  {
    hide Accepts, KeptWords, PlannedBy, PredictedBy, JoinedAs, GroupedSomehow, Bridged, EntitiesFrom, TokenizeOf;
    var texts, r := WordTexts(words), DecodeOf(rt, text, words);
    d := Reading([], [], [], [], []);
    if rt.labelsValid {
      TokenizeMeans(rt, texts);
      if r.Success? {
        d := WordsArePredicted(rt, texts);
        BridgedJoins(texts, d.predicted);
        DecodedAreGrouped(text, words, d.bridged);
        assert Accepts(rt, texts, rt.encode(texts).0, rt.encode(texts).1, Success(TokenizeOf(rt, texts).value));
      }
    }
  }

  lemma DecodedAreGrouped(text: string, words: seq<Word>, bridged: seq<Prediction>)
    requires |bridged| == |words|
    ensures GroupedSomehow(text, words, bridged, EntitiesFrom(text, words, bridged, 0))
  {
    hide Grouped, EntitiesFrom;
    var runs := EntitiesAreGrouped(text, words, bridged, 0);
  }

  // ----- and it is determined by that -----

  /** A strict order: no two elements come before each other. */
  ghost predicate Asymmetric<T(!new)>(lt: (T, T) -> bool) {
    forall x, y :: lt(x, y) ==> !lt(y, x)
  }

  ghost predicate OrderedBy<T(!new)>(lt: (T, T) -> bool, s: seq<T>) {
    forall i, j :: 0 <= i < j < |s| ==> lt(s[i], s[j])
  }

  /** Two lists of the same elements in the same strict order are the same list. */
  lemma {:induction false} OrderedUnique<T(!new)>(lt: (T, T) -> bool, a: seq<T>, b: seq<T>)
    requires Asymmetric(lt) && OrderedBy(lt, a) && OrderedBy(lt, b) && forall x :: x in a <==> x in b
    ensures a == b
  {
    assert b != [] ==> b[0] in b;
    if a != [] {
      assert a[0] in b;
      assert b[0] in a;
      FirstUnique(lt, a, b);
      OrderedRest(lt, a);
      OrderedRest(lt, b);
      OrderedUnique(lt, a[1..], b[1..]);
    }
  }

  lemma FirstUnique<T(!new)>(lt: (T, T) -> bool, a: seq<T>, b: seq<T>)
    requires Asymmetric(lt) && OrderedBy(lt, a) && OrderedBy(lt, b) && a != [] && b != []
    requires a[0] in b && b[0] in a
    ensures a[0] == b[0]
  {
    var i :| 0 <= i < |b| && b[i] == a[0];
    var j :| 0 <= j < |a| && a[j] == b[0];
    assert i > 0 ==> lt(b[0], b[i]);
    assert j > 0 ==> lt(a[0], a[j]);
  }

  lemma OrderedRest<T(!new)>(lt: (T, T) -> bool, a: seq<T>)
    requires Asymmetric(lt) && OrderedBy(lt, a) && a != []
    ensures OrderedBy(lt, a[1..]) && forall x :: x in a[1..] <==> x in a && x != a[0]
  {
    assert forall x :: x in a <==> x == a[0] || x in a[1..];
  }

  lemma KeptUnique(owners: seq<int>, n: nat, a: Reading, b: Reading)
    requires KeptWords(owners, n, a.active, a.counts) && KeptWords(owners, n, b.active, b.counts)
    ensures a.active == b.active && a.counts == b.counts
  {
    hide PositionsOf;
    var lt := (x: nat, y: nat) => x < y;
    assert OrderedBy(lt, a.active) && OrderedBy(lt, b.active);
    OrderedUnique(lt, a.active, b.active);
  }

  lemma PlanUnique(a: Reading, b: Reading)
    requires a.counts == b.counts && PlannedBy(a) && PlannedBy(b)
    ensures a.plan == b.plan
  {
    hide IsPlan;
    if a.counts != [] {
      NotLonger(a.counts, a.plan, b.plan, 0, 0);
      NotLonger(a.counts, b.plan, a.plan, 0, 0);
      forall k | 0 <= k < |a.plan| ensures a.plan[k] == b.plan[k] {
        PlansAgree(a.counts, a.plan, b.plan, 0, 0, k);
      }
    }
  }

  lemma ReadUnique(rt: Runtime, ids: seq<int>, counts: seq<nat>, plan: seq<Window>, k: nat, p: Prediction,
                   q: Prediction)
    requires ReadByLastOwner(rt, ids, counts, plan, k, p) && ReadByLastOwner(rt, ids, counts, plan, k, q)
    ensures p == q
  {
    var m: nat :| LastOwner(plan, m, k) && ReadIn(rt, ids, counts, plan[m], k, p);
    var n: nat :| LastOwner(plan, n, k) && ReadIn(rt, ids, counts, plan[n], k, q);
    assert m == n;
  }

  lemma PredictedUnique(rt: Runtime, ids: seq<int>, a: Reading, b: Reading, n: nat)
    requires a.active == b.active && a.counts == b.counts && a.plan == b.plan
    requires PredictedBy(rt, ids, a, n) && PredictedBy(rt, ids, b, n)
    ensures a.predicted == b.predicted
  {
    hide ReadByLastOwner;
    forall p: nat | p < n ensures a.predicted[p] == b.predicted[p] {
      if p in a.active {
        var k :| 0 <= k < |a.active| && a.active[k] == p;
        ReadUnique(rt, ids, a.counts, a.plan, k, a.predicted[p], b.predicted[p]);
      }
    }
  }

  lemma BridgedUnique(texts: seq<string>, predicted: seq<Prediction>, a: seq<Prediction>, b: seq<Prediction>)
    requires |predicted| == |texts| == |a| == |b|
    requires forall i :: 0 <= i < |texts| ==> JoinedAs(texts, predicted, i, a[i]) && JoinedAs(texts, predicted, i, b[i])
    ensures a == b
  {
  }

  predicate RunBefore(a: (nat, nat), b: (nat, nat)) {
    a.0 < a.1 <= b.0 < b.1
  }

  lemma RunsUnique(predicted: seq<Prediction>, a: seq<(nat, nat)>, b: seq<(nat, nat)>)
    requires AllRuns(predicted, 0, a) && AllRuns(predicted, 0, b)
    ensures a == b
  {
    RunsOrdered(predicted, a);
    RunsOrdered(predicted, b);
    OrderedUnique(RunBefore, a, b);
  }

  lemma RunsOrdered(predicted: seq<Prediction>, a: seq<(nat, nat)>)
    requires AllRuns(predicted, 0, a)
    ensures OrderedBy(RunBefore, a)
    ensures forall x: (nat, nat) :: x in a <==> LabelledRun(predicted, x.0, x.1)
  {
    forall x: (nat, nat) | LabelledRun(predicted, x.0, x.1) ensures x in a {
      assert x == (x.0, x.1);
    }
  }

  lemma EntityUnique(text: string, words: seq<Word>, predicted: seq<Prediction>, i: nat, j: nat, a: Entity, b: Entity)
    requires |predicted| == |words| && Entities.InText(text, words) && LabelledRun(predicted, i, j)
    requires EntityOfRun(text, words, predicted, i, j, a) && EntityOfRun(text, words, predicted, i, j, b)
    ensures a == b
  {
    hide Carries, TotalScore;
    assert words[i].start <= words[j - 1].end <= |text|;
    SameQuotient(a.score, b.score, (j - i) as real);
  }

  lemma SameQuotient(a: real, b: real, n: real)
    requires n > 0.0 && a * n == b * n
    ensures a == b
  {
    assert (a - b) * n == 0.0;
  }

  lemma GroupedUnique(text: string, words: seq<Word>, predicted: seq<Prediction>, a: seq<Entity>, b: seq<Entity>)
    requires |predicted| == |words| && Entities.InText(text, words)
    requires GroupedSomehow(text, words, predicted, a) && GroupedSomehow(text, words, predicted, b)
    ensures a == b
  {
    hide LabelledRun, EntityOfRun;
    var r: seq<(nat, nat)> :| Grouped(text, words, predicted, 0, r, a);
    var s: seq<(nat, nat)> :| Grouped(text, words, predicted, 0, s, b);
    RunsUnique(predicted, r, s);
    forall n | 0 <= n < |r| ensures a[n] == b[n] {
      EntityUnique(text, words, predicted, r[n].0, r[n].1, a[n], b[n]);
    }
  }

  /** No text has two spelled-out results, so the clauses of `Spelled` say all there is to decoding. */
  lemma SpelledOnce(rt: Runtime, text: string, words: seq<Word>, a: Reading, b: Reading, x: seq<Entity>, y: seq<Entity>)
    requires Entities.InText(text, words)
    requires Spelled(rt, text, words, a, x) && Spelled(rt, text, words, b, y)
    ensures a == b && x == y
  {
    hide KeptWords, PlannedBy, PredictedBy, JoinedAs, GroupedSomehow, Entities.InText;
    var (ids, owners) := rt.encode(WordTexts(words));
    KeptUnique(owners, |words|, a, b);
    PlanUnique(a, b);
    PredictedUnique(rt, ids, a, b, |words|);
    PredictedLength(rt, ids, a, |words|);
    BridgedUnique(WordTexts(words), a.predicted, a.bridged, b.bridged);
    GroupedUnique(text, words, a.bridged, x, y);
  }

  lemma PredictedLength(rt: Runtime, ids: seq<int>, d: Reading, n: nat)
    requires PredictedBy(rt, ids, d, n)
    ensures |d.predicted| == n
  {
  }
}
