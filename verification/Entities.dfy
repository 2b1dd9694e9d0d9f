/** From per-word predictions to entities: punctuation bridging, grouping and validation. */
module Entities {
  import opened Base
  import opened Words

  const NATIVE_TYPES: set<string> := {
    "PASSPORT", "CREDIT_CARD", "DRIVER_LICENSE", "INN", "SNILS", "MILITARY_ID", "BIRTH_CERTIFICATE", "OMS",
    "CITY", "COUNTRY", "DISTRICT", "EMAIL", "FIRST_NAME", "HOUSE", "IP_ADDRESS", "LAST_NAME", "MIDDLE_NAME",
    "PHONE", "REGION", "STREET", "URL"
  }
  const UNBRIDGED: set<string> := {
    "FIRST_NAME", "LAST_NAME", "MIDDLE_NAME", "CITY", "COUNTRY", "DISTRICT", "REGION", "STREET", "HOUSE"
  }

  datatype Tag = Outside | Begin(kind: string) | Inside(kind: string)

  datatype Prediction = Prediction(tag: Tag, score: real)

  datatype Entity = Entity(start: nat, end: nat, kind: string, score: real, text: string)

  // ----- bridging -----

  predicate BridgeWord(word: string) {
    forall c :: c in word ==> c in ['.', ',', ';', ':', '!', '?']
  }

  /** Word `i` joins two neighbours of the same structured label. */
  predicate Bridges(words: seq<string>, predicted: seq<Prediction>, i: nat)
    requires |predicted| == |words| && i < |words|
  {
    && 0 < i < |words| - 1 && predicted[i].tag.Outside? && BridgeWord(words[i])
    && !predicted[i - 1].tag.Outside? && !predicted[i + 1].tag.Outside?
    && predicted[i - 1].tag.kind == predicted[i + 1].tag.kind && predicted[i - 1].tag.kind !in UNBRIDGED
  }

  /** Bridging seen all at once, on the original predictions only. */
  function Bridged(words: seq<string>, predicted: seq<Prediction>): (r: seq<Prediction>)
    requires |predicted| == |words|
    ensures |r| == |words|
  {
    seq(|words|, i requires 0 <= i < |words| =>
      if Bridges(words, predicted, i) then
        Prediction(Inside(predicted[i - 1].tag.kind),
                   if predicted[i - 1].score <= predicted[i + 1].score then predicted[i - 1].score
                   else predicted[i + 1].score)
      else predicted[i])
  }

  /** Word `i` is sentence punctuation between two words of one label that is no part of a name or an address. */
  predicate Joins(words: seq<string>, predicted: seq<Prediction>, i: nat)
    requires |predicted| == |words| && i < |words|
  {
    && 1 <= i && i + 1 < |words| && predicted[i].tag == Outside
    && (forall k :: 0 <= k < |words[i]| ==> words[i][k] in ".,;:!?")
    && predicted[i - 1].tag != Outside && predicted[i + 1].tag != Outside
    && predicted[i - 1].tag.kind == predicted[i + 1].tag.kind
    && predicted[i - 1].tag.kind !in {"FIRST_NAME", "LAST_NAME", "MIDDLE_NAME", "CITY", "COUNTRY", "DISTRICT",
                                      "REGION", "STREET", "HOUSE"}
  }

  /** `joined` is what becomes of word `i`: a joining word takes its neighbours' label and the lower of their scores. */
  predicate JoinedAs(words: seq<string>, predicted: seq<Prediction>, i: nat, joined: Prediction)
    requires |predicted| == |words| && i < |words|
  {
    if Joins(words, predicted, i) then
      && joined.tag == Inside(predicted[i - 1].tag.kind)
      && joined.score in {predicted[i - 1].score, predicted[i + 1].score}
      && joined.score <= predicted[i - 1].score && joined.score <= predicted[i + 1].score
    else joined == predicted[i]
  }

  lemma BridgedJoins(words: seq<string>, predicted: seq<Prediction>)
    requires |predicted| == |words|
    ensures forall i :: 0 <= i < |words| ==> JoinedAs(words, predicted, i, Bridged(words, predicted)[i])
  {
    forall i | 0 <= i < |words| ensures JoinedAs(words, predicted, i, Bridged(words, predicted)[i]) {
      assert BridgeWord(words[i]) <==> forall k :: 0 <= k < |words[i]| ==> words[i][k] in ".,;:!?";
    }
  }

  /** `_bridge_punctuation` updates in place from left to right; no bridge ever builds on another. */
  method BridgePunctuation(words: seq<string>, predicted: seq<Prediction>) returns (result: seq<Prediction>)
    requires |predicted| == |words|
    ensures result == Bridged(words, predicted)
    ensures |result| == |words| && forall i :: 0 <= i < |words| ==> JoinedAs(words, predicted, i, result[i])
  {
    hide JoinedAs;
    BridgedJoins(words, predicted);
    result := predicted;
    var index := 1;
    while index < |words| - 1
      invariant 1 <= index && |result| == |words|
      invariant forall i :: 0 <= i < |words| ==>
                  result[i] == if i < index then Bridged(words, predicted)[i] else predicted[i]
      decreases |words| - index
    {
      if result[index].tag.Outside? && BridgeWord(words[index]) {
        var previous, following := result[index - 1], result[index + 1];
        if !previous.tag.Outside? && !following.tag.Outside? && previous.tag.kind == following.tag.kind
           && previous.tag.kind !in UNBRIDGED {
          result := result[index := Prediction(Inside(previous.tag.kind),
                                               if previous.score <= following.score then previous.score
                                                else following.score)];
        }
      }
      index := index + 1;
    }
  }

  // ----- grouping -----

  function LabelOf(p: Prediction): Option<string> {
    if p.tag.Outside? then None else Some(p.tag.kind)
  }

  function SumScores(predicted: seq<Prediction>): real {
    if predicted == [] then 0.0 else SumScores(predicted[..|predicted| - 1]) + predicted[|predicted| - 1].score
  }

  /** The end of the stretch of equal labels that word `i` starts. */
  function RunEnd(predicted: seq<Prediction>, i: nat, j: nat): (r: nat)
    requires i < j <= |predicted|
    ensures j <= r <= |predicted|
    ensures forall k :: j <= k < r ==> LabelOf(predicted[k]) == LabelOf(predicted[i])
    ensures r < |predicted| ==> LabelOf(predicted[r]) != LabelOf(predicted[i])
    decreases |predicted| - j
  {
    if j < |predicted| && LabelOf(predicted[j]) == LabelOf(predicted[i]) then RunEnd(predicted, i, j + 1) else j
  }

  /** The entity of words `i..j`, all carrying the label of word `i`. */
  function EntityOf(text: string, words: seq<Word>, predicted: seq<Prediction>, i: nat, j: nat): Entity
    requires |predicted| == |words| && i < j <= |words|
    requires LabelOf(predicted[i]).Some?
  {
    Entity(words[i].start, words[j - 1].end, predicted[i].tag.kind,
           SumScores(predicted[i..j]) / ((j - i) as real), Slice(text, words[i].start, words[j - 1].end))
  }

  function EntitiesFrom(text: string, words: seq<Word>, predicted: seq<Prediction>, i: nat): seq<Entity>
    requires |predicted| == |words| && i <= |words|
    decreases |words| - i
  {
    if i == |words| then []
    else
      var j := RunEnd(predicted, i, i + 1);
      (if LabelOf(predicted[i]).Some? then [EntityOf(text, words, predicted, i, j)] else [])
      + EntitiesFrom(text, words, predicted, j)
  }

  datatype Active = Active(start: nat, end: nat, kind: string)

  /** A run that ends before word `n` contributes its entity, if labelled, in front of the rest. */
  lemma RunEndsHere(text: string, words: seq<Word>, predicted: seq<Prediction>, from: nat, n: nat)
    requires |predicted| == |words| && from < n <= |words|
    requires n < |words| ==> LabelOf(predicted[n]) != LabelOf(predicted[from])
    requires SameLabels(predicted, from, n)
    ensures EntitiesFrom(text, words, predicted, from)
         == (if LabelOf(predicted[from]).Some? then [EntityOf(text, words, predicted, from, n)] else [])
            + EntitiesFrom(text, words, predicted, n)
  {
    assert RunEnd(predicted, from, from + 1) == n;
  }

  /** The state of the grouping loop before word `n`; the run in progress started at word `from`. */
  ghost predicate Grouping(text: string, words: seq<Word>, predicted: seq<Prediction>, n: nat, from: nat,
                           active: Option<Active>, scores: seq<Prediction>, result: seq<Entity>)
    requires |predicted| == |words|
  {
    && from <= n <= |words| && SameLabels(predicted, from, n)
    && (if active.Some? then OpenEntity(words, predicted, from, n, active.value, scores)
        else scores == [] && (from == n || LabelOf(predicted[from]).None?))
    && EntitiesFrom(text, words, predicted, 0) == result + EntitiesFrom(text, words, predicted, from)
  }

  /** `_entities`: one pass that keeps the open entity and its scores. */
  method GroupEntities(text: string, words: seq<Word>, predicted: seq<Prediction>) returns (result: seq<Entity>)
    requires |predicted| == |words|
    ensures result == EntitiesFrom(text, words, predicted, 0)
    ensures GroupedSomehow(text, words, predicted, result)
  {
    hide Grouped;
    ghost var runs := EntitiesAreGrouped(text, words, predicted, 0);
    result := [];
    var active: Option<Active> := None;
    var scores: seq<Prediction> := [];
    ghost var from: nat := 0;
    for n := 0 to |words|
      invariant Grouping(text, words, predicted, n, from, active, scores, result)
    {
      active, scores, result, from := GroupWord(text, words, predicted, n, active, scores, result, from);
    }
    result := CloseLast(text, words, predicted, from, active, scores, result);
  }

  /** Closes the entity that is open behind the last word. */
  method CloseLast(text: string, words: seq<Word>, predicted: seq<Prediction>, ghost from: nat, active: Option<Active>,
                   scores: seq<Prediction>, result0: seq<Entity>)
    returns (result: seq<Entity>)
    requires |predicted| == |words| && Grouping(text, words, predicted, |words|, from, active, scores, result0)
    ensures result == EntitiesFrom(text, words, predicted, 0)
  {
    result := result0;
    if active.Some? {
      CloseStep(text, words, predicted, |words|, from, active.value, scores, result);
      result := result + [CloseEntity(text, active.value, scores)];
    } else if from < |words| {
      RunEndsHere(text, words, predicted, from, |words|);
    }
  }

  /** One turn of the loop: closes the open entity if word `n` does not continue it, and opens or extends one. */
  method GroupWord(text: string, words: seq<Word>, predicted: seq<Prediction>, n: nat, active0: Option<Active>,
                   scores0: seq<Prediction>, result0: seq<Entity>, ghost from0: nat)
    returns (active: Option<Active>, scores: seq<Prediction>, result: seq<Entity>, ghost from: nat)
    requires |predicted| == |words| && n < |words|
    requires Grouping(text, words, predicted, n, from0, active0, scores0, result0)
    ensures Grouping(text, words, predicted, n + 1, from, active, scores, result)
  {
    active, scores, result, from := active0, scores0, result0, from0;
    var kind := LabelOf(predicted[n]);
    if active.Some? && kind != Some(active.value.kind) {
      CloseStep(text, words, predicted, n, from, active.value, scores, result);
      result := result + [CloseEntity(text, active.value, scores)];
      active, scores, from := None, [], n;
    }
    if kind.Some? {
      from := OpenStep(text, words, predicted, n, from, active, scores, result);
      if active.None? {
        active := Some(Active(words[n].start, words[n].end, kind.value));
      }
      active := Some(active.value.(end := words[n].end));
      scores := scores + [predicted[n]];
    } else {
      from := PlainStep(text, words, predicted, n, from, scores, result);
    }
  }

  lemma ClosedIsEntity(text: string, words: seq<Word>, predicted: seq<Prediction>, n: nat, from: nat, active: Active,
                       scores: seq<Prediction>)
    requires |predicted| == |words| && from <= n <= |words| && OpenEntity(words, predicted, from, n, active, scores)
    ensures from < n && LabelOf(predicted[from]) == Some(active.kind) && scores != []
    ensures CloseEntity(text, active, scores) == EntityOf(text, words, predicted, from, n)
  {
  }

  lemma CloseStep(text: string, words: seq<Word>, predicted: seq<Prediction>, n: nat, from: nat, active: Active,
                  scores: seq<Prediction>, result: seq<Entity>)
    requires |predicted| == |words| && Grouping(text, words, predicted, n, from, Some(active), scores, result)
    requires n < |words| ==> LabelOf(predicted[n]) != Some(active.kind)
    ensures Grouping(text, words, predicted, n, n, None, [], result + [CloseEntity(text, active, scores)])
  {
    ClosedIsEntity(text, words, predicted, n, from, active, scores);
    RunEndsHere(text, words, predicted, from, n);
    ConcatAssociative(result, [CloseEntity(text, active, scores)], EntitiesFrom(text, words, predicted, n));
  }

  lemma OpenStep(text: string, words: seq<Word>, predicted: seq<Prediction>, n: nat, from: nat, active: Option<Active>,
                 scores: seq<Prediction>, result: seq<Entity>) returns (from': nat)
    requires |predicted| == |words| && n < |words| && Grouping(text, words, predicted, n, from, active, scores, result)
    requires LabelOf(predicted[n]).Some? && (active.Some? ==> active.value.kind == predicted[n].tag.kind)
    ensures var start := if active.None? then words[n].start else active.value.start;
            Grouping(text, words, predicted, n + 1, from', Some(Active(start, words[n].end, predicted[n].tag.kind)),
                     scores + [predicted[n]], result)
  {
    from' := from;
    if active.None? {
      OpenNew(text, words, predicted, n, from, result);
      from' := n;
    }
    SliceSnoc(predicted, from', n);
  }

  /** Without an open entity, word `n` starts a run of its own. */
  lemma OpenNew(text: string, words: seq<Word>, predicted: seq<Prediction>, n: nat, from: nat, result: seq<Entity>)
    requires |predicted| == |words| && n < |words| && Grouping(text, words, predicted, n, from, None, [], result)
    requires LabelOf(predicted[n]).Some?
    ensures EntitiesFrom(text, words, predicted, 0) == result + EntitiesFrom(text, words, predicted, n)
  {
    if from < n {
      RunEndsHere(text, words, predicted, from, n);
      assert [] + EntitiesFrom(text, words, predicted, n) == EntitiesFrom(text, words, predicted, n);
    }
  }

  lemma PlainStep(text: string, words: seq<Word>, predicted: seq<Prediction>, n: nat, from: nat,
                  scores: seq<Prediction>, result: seq<Entity>) returns (from': nat)
    requires |predicted| == |words| && n < |words| && Grouping(text, words, predicted, n, from, None, scores, result)
    requires LabelOf(predicted[n]).None?
    ensures Grouping(text, words, predicted, n + 1, from', None, scores, result)
  {
    from' := from;
  }

  ghost predicate SameLabels(predicted: seq<Prediction>, from: nat, n: nat)
    requires from <= n <= |predicted|
  {
    forall k :: from <= k < n ==> LabelOf(predicted[k]) == LabelOf(predicted[from])
  }

  function CloseEntity(text: string, active: Active, scores: seq<Prediction>): Entity
    requires scores != []
  {
    Entity(active.start, active.end, active.kind,
           SumScores(scores) / (|scores| as real), Slice(text, active.start, active.end))
  }

  /** The accumulators hold the run of words `from..n`. */
  ghost predicate OpenEntity(words: seq<Word>, predicted: seq<Prediction>, from: nat, n: nat, active: Active,
                             scores: seq<Prediction>)
    requires |predicted| == |words|
  {
    && from < n <= |words| && scores == predicted[from..n] && LabelOf(predicted[from]).Some?
    && active == Active(words[from].start, words[n - 1].end, predicted[from].tag.kind)
  }

  // ----- what the entities are -----

  predicate Probability(x: real) {
    0.0 <= x <= 1.0
  }

  /** Words quote nonempty stretches of the text, in order. */
  ghost predicate InText(text: string, words: seq<Word>) {
    && (forall k :: 0 <= k < |words| ==> words[k].start < words[k].end <= |text|)
    && (forall i, j :: 0 <= i < j < |words| ==> words[i].end <= words[j].start)
  }

  /** Tags name native types and scores are probabilities, as the model contract promises. */
  ghost predicate FromModel(predicted: seq<Prediction>) {
    && ScoresBounded(predicted)
    && forall k :: 0 <= k < |predicted| ==> predicted[k].tag.Outside? || predicted[k].tag.kind in NATIVE_TYPES
  }

  ghost predicate ScoresBounded(predicted: seq<Prediction>) {
    forall k :: 0 <= k < |predicted| ==> Probability(predicted[k].score)
  }

  lemma BridgingKeepsContract(words: seq<string>, predicted: seq<Prediction>)
    requires |predicted| == |words| && FromModel(predicted)
    ensures FromModel(Bridged(words, predicted))
  {
  }

  lemma {:induction false} SumIsBounded(predicted: seq<Prediction>)
    requires ScoresBounded(predicted)
    ensures 0.0 <= SumScores(predicted) <= |predicted| as real
  {
    if predicted != [] {
      SumIsBounded(predicted[..|predicted| - 1]);
    }
  }

  lemma MeanIsProbability(predicted: seq<Prediction>)
    requires ScoresBounded(predicted) && predicted != []
    ensures Probability(SumScores(predicted) / (|predicted| as real))
  {
    SumIsBounded(predicted);
    QuotientIsProbability(SumScores(predicted), |predicted| as real);
  }

  lemma QuotientIsProbability(part: real, whole: real)
    requires 0.0 <= part <= whole && whole > 0.0
    ensures Probability(part / whole)
  {
    assert part / whole * whole == part;
  }

  /** What `validate_native` demands of one item. */
  predicate ValidItem(text: string, e: Entity) {
    && e.start < e.end <= |text| && Probability(e.score) && e.kind in NATIVE_TYPES && e.text == text[e.start..e.end]
  }

  ghost predicate EntitiesDisjoint(entities: seq<Entity>) {
    forall i, j :: 0 <= i < j < |entities| ==> entities[i].end <= entities[j].start
  }

  lemma EntityIsValid(text: string, words: seq<Word>, predicted: seq<Prediction>, i: nat, j: nat)
    requires |predicted| == |words| && i < j <= |words| && InText(text, words) && FromModel(predicted)
    requires LabelOf(predicted[i]).Some?
    ensures ValidItem(text, EntityOf(text, words, predicted, i, j))
  {
    MeanIsProbability(predicted[i..j]);
    assert words[i].start < words[j - 1].end;
  }

  /** Decoded entities are sorted, disjoint, nonempty, correctly quoted and scored within [0, 1]. */
  lemma {:induction false} EntitiesAreValid(text: string, words: seq<Word>, predicted: seq<Prediction>, i: nat)
    requires |predicted| == |words| && i <= |words| && InText(text, words) && FromModel(predicted)
    ensures forall e :: e in EntitiesFrom(text, words, predicted, i) ==> ValidItem(text, e) && words[i].start <= e.start
    ensures EntitiesDisjoint(EntitiesFrom(text, words, predicted, i))
    decreases |words| - i
  {
    if i < |words| {
      var j := RunEnd(predicted, i, i + 1);
      var rest := EntitiesFrom(text, words, predicted, j);
      EntitiesAreValid(text, words, predicted, j);
      if LabelOf(predicted[i]).Some? {
        EntityIsValid(text, words, predicted, i, j);
        forall k | 0 <= k < |rest| ensures words[j - 1].end <= rest[k].start {
          assert rest[k] in rest;
        }
      }
    }
  }

  /** `[i, j)` is the maximal run of words around `k` with the label of `k`. */
  ghost predicate MaximalRun(predicted: seq<Prediction>, i: nat, k: nat, j: nat) {
    && i <= k < j <= |predicted|
    && (forall m :: i <= m < j ==> LabelOf(predicted[m]) == LabelOf(predicted[k]))
    && (i == 0 || LabelOf(predicted[i - 1]) != LabelOf(predicted[k]))
    && (j == |predicted| || LabelOf(predicted[j]) != LabelOf(predicted[k]))
  }

  /** Every labelled word is grouped: the entity of its maximal run is reported. */
  lemma {:induction false} LabelledWordsGrouped(text: string, words: seq<Word>, predicted: seq<Prediction>, from: nat,
                                                k: nat)
    returns (i: nat, j: nat)
    requires |predicted| == |words| && InText(text, words) && from <= k < |words|
    requires LabelOf(predicted[k]).Some?
    requires from == 0 || LabelOf(predicted[from - 1]) != LabelOf(predicted[from])
    ensures MaximalRun(predicted, i, k, j) && LabelOf(predicted[i]).Some?
    ensures EntityOf(text, words, predicted, i, j) in EntitiesFrom(text, words, predicted, from)
    decreases |words| - from
  {
    i, j := from, RunEnd(predicted, from, from + 1);
    if k < j {
      assert LabelOf(predicted[k]) == LabelOf(predicted[from]);
    } else {
      i, j := LabelledWordsGrouped(text, words, predicted, j, k);
    }
  }

  // ----- the entities of the labelled runs -----

  /** The words `[i, j)` carry one label that neither neighbour carries. */
  ghost predicate LabelledRun(predicted: seq<Prediction>, i: nat, j: nat) {
    && i < j <= |predicted| && predicted[i].tag != Outside
    && (forall m :: i <= m < j ==> Carries(predicted[m], predicted[i].tag.kind))
    && (i > 0 ==> !Carries(predicted[i - 1], predicted[i].tag.kind))
    && (j < |predicted| ==> !Carries(predicted[j], predicted[i].tag.kind))
  }

  predicate Carries(p: Prediction, kind: string) {
    p.tag != Outside && p.tag.kind == kind
  }

  function TotalScore(predicted: seq<Prediction>): real {
    if predicted == [] then 0.0 else predicted[0].score + TotalScore(predicted[1..])
  }

  /** The entity quotes the text of the run, carries its label, and its score is the mean of the run's scores. */
  ghost predicate EntityOfRun(text: string, words: seq<Word>, predicted: seq<Prediction>, i: nat, j: nat, e: Entity)
    requires |predicted| == |words| && LabelledRun(predicted, i, j)
  {
    && e.start == words[i].start && e.end == words[j - 1].end && e.kind == predicted[i].tag.kind
    && e.score * (j - i) as real == TotalScore(predicted[i..j])
    && (e.start <= e.end <= |text| ==> e.text == text[e.start..e.end])
  }

  /** `runs` are all labelled runs from word `from` on, in order. */
  ghost predicate AllRuns(predicted: seq<Prediction>, from: nat, runs: seq<(nat, nat)>) {
    && (forall n :: 0 <= n < |runs| ==> LabelledRun(predicted, runs[n].0, runs[n].1) && from <= runs[n].0)
    && (forall m, n :: 0 <= m < n < |runs| ==> runs[m].1 <= runs[n].0)
    && (forall i: nat, j: nat :: from <= i && LabelledRun(predicted, i, j) ==> (i, j) in runs)
  }

  /** The entities are those of all labelled runs, in order. */
  ghost predicate Grouped(text: string, words: seq<Word>, predicted: seq<Prediction>, from: nat, runs: seq<(nat, nat)>,
                          entities: seq<Entity>)
    requires |predicted| == |words|
  {
    && AllRuns(predicted, from, runs) && |entities| == |runs|
    && forall n :: 0 <= n < |runs| ==> EntityOfRun(text, words, predicted, runs[n].0, runs[n].1, entities[n])
  }

  lemma {:induction false} TotalSnoc(predicted: seq<Prediction>, last: Prediction)
    ensures TotalScore(predicted + [last]) == TotalScore(predicted) + last.score
  {
    if predicted == [] {
      assert [last][1..] == [] && [] + [last] == [last];
    } else {
      assert (predicted + [last])[1..] == predicted[1..] + [last];
      TotalSnoc(predicted[1..], last);
    }
  }

  lemma {:induction false} TotalIsSum(predicted: seq<Prediction>)
    ensures TotalScore(predicted) == SumScores(predicted)
  {
    if predicted != [] {
      var rest, last := predicted[..|predicted| - 1], predicted[|predicted| - 1];
      assert predicted == rest + [last];
      TotalIsSum(rest);
      TotalSnoc(rest, last);
    }
  }

  lemma EntityOfMeans(text: string, words: seq<Word>, predicted: seq<Prediction>, i: nat, j: nat)
    requires |predicted| == |words| && LabelledRun(predicted, i, j)
    ensures LabelOf(predicted[i]).Some?
    ensures EntityOfRun(text, words, predicted, i, j, EntityOf(text, words, predicted, i, j))
  {
    TotalIsSum(predicted[i..j]);
  }

  /** Skipping the stretch in front of word `to`, which holds no start of a run. */
  lemma RunsFrom(predicted: seq<Prediction>, from: nat, to: nat, runs: seq<(nat, nat)>)
    requires from <= to && AllRuns(predicted, to, runs)
    requires forall i: nat, j: nat :: from <= i < to ==> !LabelledRun(predicted, i, j)
    ensures AllRuns(predicted, from, runs)
  {
    hide LabelledRun;
  }

  lemma RunsFromRun(predicted: seq<Prediction>, from: nat, to: nat, runs: seq<(nat, nat)>)
    requires LabelledRun(predicted, from, to) && AllRuns(predicted, to, runs)
    ensures AllRuns(predicted, from, [(from, to)] + runs)
  {
    var all := [(from, to)] + runs;
    forall i: nat, j: nat | from <= i && LabelledRun(predicted, i, j) ensures (i, j) in all {
      OneRunThere(predicted, from, to, i, j);
      assert i == from ==> all[0] == (i, j);
    }
  }

  lemma OneRunThere(predicted: seq<Prediction>, from: nat, to: nat, i: nat, j: nat)
    requires LabelledRun(predicted, from, to) && LabelledRun(predicted, i, j) && from <= i
    ensures (i == from && j == to) || to <= i
  {
  }

  lemma OutsideStretch(predicted: seq<Prediction>, from: nat, to: nat)
    requires from < to <= |predicted| && forall k :: from <= k < to ==> predicted[k].tag == Outside
    ensures forall i: nat, j: nat :: from <= i < to ==> !LabelledRun(predicted, i, j)
  {
  }

  /** Cutting into stretches of equal labels yields exactly the entities of the labelled runs. */
  lemma {:induction false} EntitiesAreGrouped(text: string, words: seq<Word>, predicted: seq<Prediction>, from: nat)
    returns (runs: seq<(nat, nat)>)
    requires |predicted| == |words| && from <= |words|
    requires 0 < from < |words| ==> LabelOf(predicted[from - 1]) != LabelOf(predicted[from])
    ensures Grouped(text, words, predicted, from, runs, EntitiesFrom(text, words, predicted, from))
    decreases |words| - from
  {
    if from == |words| {
      runs := [];
    } else {
      var to := RunEnd(predicted, from, from + 1);
      var rest := EntitiesAreGrouped(text, words, predicted, to);
      runs := GroupOneMore(text, words, predicted, from, to, rest);
    }
  }

  lemma GroupOneMore(text: string, words: seq<Word>, predicted: seq<Prediction>, from: nat, to: nat,
                     rest: seq<(nat, nat)>)
    returns (runs: seq<(nat, nat)>)
    requires |predicted| == |words| && from < to <= |words| && to == RunEnd(predicted, from, from + 1)
    requires from > 0 ==> LabelOf(predicted[from - 1]) != LabelOf(predicted[from])
    requires Grouped(text, words, predicted, to, rest, EntitiesFrom(text, words, predicted, to))
    ensures Grouped(text, words, predicted, from, runs, EntitiesFrom(text, words, predicted, from))
  {
    hide AllRuns, LabelledRun, RunEnd, EntityOfRun, EntityOf;
    if LabelOf(predicted[from]).Some? {
      runs := [(from, to)] + rest;
      RunIsLabelled(predicted, from, to);
      RunsFromRun(predicted, from, to, rest);
      EntityOfMeans(text, words, predicted, from, to);
    } else {
      runs := rest;
      RunIsOutside(predicted, from, to);
      RunsFrom(predicted, from, to, rest);
    }
  }

  lemma RunIsLabelled(predicted: seq<Prediction>, from: nat, to: nat)
    requires from < |predicted| && to == RunEnd(predicted, from, from + 1) && LabelOf(predicted[from]).Some?
    requires from > 0 ==> LabelOf(predicted[from - 1]) != LabelOf(predicted[from])
    ensures LabelledRun(predicted, from, to)
  {
  }

  lemma RunIsOutside(predicted: seq<Prediction>, from: nat, to: nat)
    requires from < |predicted| && to == RunEnd(predicted, from, from + 1) && LabelOf(predicted[from]).None?
    ensures forall i: nat, j: nat :: from <= i < to ==> !LabelledRun(predicted, i, j)
  {
    forall k | from <= k < to ensures predicted[k].tag == Outside {
      assert LabelOf(predicted[k]) == LabelOf(predicted[from]);
    }
    OutsideStretch(predicted, from, to);
  }

  ghost predicate GroupedSomehow(text: string, words: seq<Word>, predicted: seq<Prediction>, entities: seq<Entity>)
    requires |predicted| == |words|
  {
    exists runs :: Grouped(text, words, predicted, 0, runs, entities)
  }

  // ----- validation -----

  predicate EntityLe(a: Entity, b: Entity) {
    if a.start != b.start then a.start < b.start
    else if a.end != b.end then a.end < b.end
    else a.kind == b.kind || StrLess(a.kind, b.kind)
  }

  ghost predicate NeighboursDisjoint(sorted: seq<Entity>) {
    forall i :: 0 <= i < |sorted| - 1 ==> sorted[i].end <= sorted[i + 1].start
  }

  /** A native entity: it quotes a stretch of the text, with a probability and one of the native types. */
  ghost predicate IsNative(text: string, e: Entity) {
    && 0 <= e.start < e.end <= |text| && e.text == text[e.start..e.end] && 0.0 <= e.score <= 1.0
    && e.kind in {"PASSPORT", "CREDIT_CARD", "DRIVER_LICENSE", "INN", "SNILS", "MILITARY_ID", "BIRTH_CERTIFICATE",
                  "OMS", "CITY", "COUNTRY", "DISTRICT", "EMAIL", "FIRST_NAME", "HOUSE", "IP_ADDRESS", "LAST_NAME",
                  "MIDDLE_NAME", "PHONE", "REGION", "STREET", "URL"}
  }

  predicate Apart(a: Entity, b: Entity) {
    a.end <= b.start || b.end <= a.start
  }

  /** All items are native and no two of them share a character. */
  ghost predicate Acceptable(text: string, output: seq<Entity>) {
    && (forall i :: 0 <= i < |output| ==> IsNative(text, output[i]))
    && forall i, j :: 0 <= i < j < |output| ==> Apart(output[i], output[j])
  }

  lemma NativeIsValid(text: string, e: Entity)
    ensures IsNative(text, e) <==> ValidItem(text, e)
  {
  }

  lemma EntityLeIsTotalPreorder()
    ensures TotalPreorder(EntityLe)
  {
    forall a, b ensures EntityLe(a, b) || EntityLe(b, a) {
      StrLessTotal(a.kind, b.kind);
    }
    forall a, b, c | EntityLe(a, b) && EntityLe(b, c) ensures EntityLe(a, c) {
      if StrLess(a.kind, b.kind) && StrLess(b.kind, c.kind) {
        StrLessTransitive(a.kind, b.kind, c.kind);
      }
    }
  }

  lemma {:induction false} NeighboursMakeDisjoint(sorted: seq<Entity>, i: nat, j: nat)
    requires NeighboursDisjoint(sorted) && forall k :: 0 <= k < |sorted| ==> sorted[k].start < sorted[k].end
    requires i < j < |sorted|
    ensures sorted[i].end <= sorted[j].start
    decreases j - i
  {
    assert sorted[j - 1].end <= sorted[(j - 1) + 1].start;
    if i < j - 1 {
      NeighboursMakeDisjoint(sorted, i, j - 1);
    }
  }

  /** Checking sorted neighbours decides whether any two items overlap. */
  lemma AcceptedIffAcceptable(text: string, output: seq<Entity>)
    ensures (forall e :: e in output ==> ValidItem(text, e)) && NeighboursDisjoint(Sort(EntityLe, output)) <==>
            Acceptable(text, output)
    ensures multiset(Sort(EntityLe, output)) == multiset(output)
    ensures Acceptable(text, output) ==> EntitiesDisjoint(Sort(EntityLe, output))
  {
    hide Sort, EntityLe, IsNative, ValidItem;
    EntityLeIsTotalPreorder();
    SortIsSorted(EntityLe, output);
    var sorted := Sort(EntityLe, output);
    forall e ensures IsNative(text, e) <==> ValidItem(text, e) {
      NativeIsValid(text, e);
    }
    if forall e :: e in output ==> ValidItem(text, e) {
      ItemsNonempty(text, output, sorted);
      if NeighboursDisjoint(sorted) {
        forall i, j | 0 <= i < j < |sorted| ensures sorted[i].end <= sorted[j].start {
          NeighboursMakeDisjoint(sorted, i, j);
        }
        DisjointMeansApart(output, sorted);
      }
      if Acceptable(text, output) {
        ApartMeansDisjoint(output, sorted);
      }
    }
  }

  lemma ItemsNonempty(text: string, output: seq<Entity>, sorted: seq<Entity>)
    requires multiset(sorted) == multiset(output) && forall e :: e in output ==> ValidItem(text, e)
    ensures forall k :: 0 <= k < |sorted| ==> sorted[k] in output && sorted[k].start < sorted[k].end
    ensures forall i :: 0 <= i < |output| ==> output[i].start < output[i].end
  {
    forall k | 0 <= k < |sorted| ensures sorted[k] in output {
      assert sorted[k] in multiset(sorted);
    }
    forall i | 0 <= i < |output| ensures ValidItem(text, output[i]) {
      assert output[i] in output;
    }
  }

  lemma DisjointMeansApart(output: seq<Entity>, sorted: seq<Entity>)
    requires multiset(sorted) == multiset(output) && EntitiesDisjoint(sorted)
    requires forall k :: 0 <= k < |sorted| ==> sorted[k].start < sorted[k].end
    ensures forall i, j :: 0 <= i < j < |output| ==> Apart(output[i], output[j])
  {
    assert NoDuplicates(sorted);
    PermutationKeepsDistinct(sorted, output);
    forall i, j | 0 <= i < j < |output| ensures Apart(output[i], output[j]) {
      assert output[i] in multiset(sorted) && output[j] in multiset(sorted);
      var m :| 0 <= m < |sorted| && sorted[m] == output[i];
      var n :| 0 <= n < |sorted| && sorted[n] == output[j];
    }
  }

  lemma ApartMeansDisjoint(output: seq<Entity>, sorted: seq<Entity>)
    requires multiset(sorted) == multiset(output) && SortedBy(EntityLe, sorted)
    requires forall k :: 0 <= k < |sorted| ==> sorted[k] in output && sorted[k].start < sorted[k].end
    requires forall i, j :: 0 <= i < j < |output| ==> Apart(output[i], output[j])
    requires forall i :: 0 <= i < |output| ==> output[i].start < output[i].end
    ensures EntitiesDisjoint(sorted) && NeighboursDisjoint(sorted)
  {
    forall i, j | 0 <= i < j < |output| ensures output[i] != output[j] {
      assert Apart(output[i], output[j]);
    }
    PermutationKeepsDistinct(output, sorted);
    forall i, j | 0 <= i < j < |sorted| ensures sorted[i].end <= sorted[j].start {
      var m :| 0 <= m < |output| && output[m] == sorted[i];
      var n :| 0 <= n < |output| && output[n] == sorted[j];
      assert Apart(output[Min(m, n)], output[Max(m, n)]);
      assert EntityLe(sorted[i], sorted[j]);
    }
  }

  /** `validate_native`: rejects any malformed or overlapping item, and returns the rest sorted. */
  method ValidateNative(text: string, output: seq<Entity>) returns (r: Option<seq<Entity>>)
    ensures r == if (forall e :: e in output ==> ValidItem(text, e)) && NeighboursDisjoint(Sort(EntityLe, output))
                 then Some(Sort(EntityLe, output)) else None
    ensures r.Some? <==> Acceptable(text, output)
    ensures r.Some? ==> multiset(r.value) == multiset(output) && EntitiesDisjoint(r.value)
  {
    hide Acceptable, Sort, EntityLe;
    AcceptedIffAcceptable(text, output);
    for n := 0 to |output|
      invariant forall i :: 0 <= i < n ==> ValidItem(text, output[i])
    {
      if !ValidItem(text, output[n]) {
        return None;
      }
    }
    var result := Sort(EntityLe, output);
    var n := 0;
    while n + 1 < |result|
      invariant 0 <= n && (n == 0 || n < |result|)
      invariant forall i :: 0 <= i < n < |result| ==> result[i].end <= result[i + 1].start
    {
      if result[n + 1].start < result[n].end {
        return None;
      }
      n := n + 1;
    }
    return Some(result);
  }

  /** Validation never rejects or reorders what the decoder produced. */
  lemma DecodedPassValidation(text: string, words: seq<Word>, predicted: seq<Prediction>)
    requires |predicted| == |words| && InText(text, words) && FromModel(predicted)
    ensures var output := EntitiesFrom(text, words, predicted, 0);
            && (forall e :: e in output ==> ValidItem(text, e))
            && Sort(EntityLe, output) == output && NeighboursDisjoint(output)
  {
    var output := EntitiesFrom(text, words, predicted, 0);
    EntitiesAreValid(text, words, predicted, 0);
    forall i, j | 0 <= i < j < |output| ensures EntityLe(output[i], output[j]) {
      assert ValidItem(text, output[i]);
    }
    SortKeepsSorted(EntityLe, output);
  }
}
