/** The sequential word decoder: tokenize, predict window by window, stitch, bridge and group. */
module Decoder {
  import opened Base
  import opened Text
  import opened Words
  import opened Windows
  import opened Entities

  type Row = seq<real>

  datatype DecodeError =
    | BadLabels | BadAlignment | OmittedVisibleWord | WordTooWide | BadLayout | OmittedWord | BadRequest

  /**
   * The loaded model. `encode` yields token ids with the index of the word each belongs to (-1 for
   * none), `ignored` recognises words the tokenizer may drop, `run` maps padded ids and attention to
   * logits, and `read` turns the logits of a word's first subword into its label and probability.
   */
  datatype Runtime = Runtime(
    encode: seq<string> -> (seq<int>, seq<int>), ignored: string -> bool, labelsValid: bool,
    cls: int, sep: int, pad: nat,
    run: (seq<seq<int>>, seq<seq<bool>>) -> seq<seq<Row>>, read: Row -> Prediction)

  // ----- tokenization -----

  function CountOf(owners: seq<int>, w: int): nat {
    if owners == [] then 0 else CountOf(owners[..|owners| - 1], w) + if owners[|owners| - 1] == w then 1 else 0
  }

  function CountsOf(owners: seq<int>, n: nat): (r: seq<nat>)
    ensures |r| == n
  {
    seq(n, w => CountOf(owners, w))
  }

  predicate InOrder(owners: seq<int>, n: nat) {
    (forall j :: 0 <= j < |owners| ==> 0 <= owners[j] < n) && Ascending(owners)
  }

  predicate Ascending(owners: seq<int>) {
    forall j :: 0 <= j < |owners| - 1 ==> owners[j] <= owners[j + 1]
  }

  datatype Encoding = Encoding(ids: seq<int>, counts: seq<nat>)

  /** The tokenizer dropped a word that it may not drop. */
  predicate Omits(rt: Runtime, words: seq<string>, counts: seq<nat>)
    requires |counts| == |words|
  {
    exists w :: 0 <= w < |words| && counts[w] == 0 && !rt.ignored(words[w])
  }

  function TokenizeOf(rt: Runtime, words: seq<string>): Result<Encoding, DecodeError> {
    var (ids, owners) := rt.encode(words);
    var counts := CountsOf(owners, |words|);
    if |ids| != |owners| || (exists j :: 0 <= j < |ids| && ids[j] < 0) || !InOrder(owners, |words|)
    then Failure(BadAlignment)
    else if Omits(rt, words, counts) then Failure(OmittedVisibleWord)
    else if exists w :: 0 <= w < |words| && counts[w] > BUDGET then Failure(WordTooWide)
    else Success(Encoding(ids, counts))
  }

  /** One more owner: the counts and the order check go on, or the order is broken for good. */
  lemma OneMoreOwner(owners: seq<int>, size: nat, n: nat, counts: seq<nat>)
    requires n < |owners| && counts == CountsOf(owners[..n], size) && InOrder(owners[..n], size)
    ensures var owner := owners[n];
            if !(0 <= owner < size) || (n > 0 && owner < owners[n - 1]) then !InOrder(owners, size)
            else InOrder(owners[..n + 1], size) && CountsOf(owners[..n + 1], size) == counts[owner := counts[owner] + 1]
  {
    assert owners[..n + 1][..n] == owners[..n];
    if n > 0 && owners[n] < owners[n - 1] {
      assert !Ascending(owners);
    }
  }

  /** Counts the subwords of each word in one pass over the owners. */
  method CountSubwords(owners: seq<int>, size: nat) returns (r: Option<seq<nat>>)
    ensures r == if InOrder(owners, size) then Some(CountsOf(owners, size)) else None
  {
    var counts: seq<nat> := seq(size, _ => 0);
    var previous := -1;
    for n := 0 to |owners|
      invariant counts == CountsOf(owners[..n], size)
      invariant previous == if n == 0 then -1 else owners[n - 1]
      invariant InOrder(owners[..n], size)
    {
      var owner := owners[n];
      OneMoreOwner(owners, size, n, counts);
      if !(0 <= owner < size) || owner < previous {
        return None;
      }
      counts := counts[owner := counts[owner] + 1];
      previous := owner;
    }
    assert owners[..|owners|] == owners;
    return Some(counts);
  }

  method OmitsVisibleWord(rt: Runtime, words: seq<string>, counts: seq<nat>) returns (omits: bool)
    requires |counts| == |words|
    ensures omits == Omits(rt, words, counts)
  {
    for n := 0 to |words|
      invariant forall w :: 0 <= w < n ==> !(counts[w] == 0 && !rt.ignored(words[w]))
    {
      if counts[n] == 0 && !rt.ignored(words[n]) {
        return true;
      }
    }
    return false;
  }

  /** The positions of the subwords of word `w`. */
  ghost function PositionsOf(owners: seq<int>, w: int): set<nat> {
    set j: nat | j < |owners| && owners[j] == w
  }

  /** Every subword has an id and a word, and the words come in order. */
  ghost predicate Aligned(ids: seq<int>, owners: seq<int>, n: nat) {
    && |ids| == |owners| && (forall j :: 0 <= j < |ids| ==> ids[j] >= 0)
    && (forall j :: 0 <= j < |owners| ==> 0 <= owners[j] < n)
    && (forall i, j :: 0 <= i < j < |owners| ==> owners[i] <= owners[j])
  }

  /** A word that the tokenizer may not drop has no subword. */
  ghost predicate Dropped(rt: Runtime, words: seq<string>, owners: seq<int>, w: int) {
    0 <= w < |words| && PositionsOf(owners, w) == {} && !rt.ignored(words[w])
  }

  ghost predicate TooWide(words: seq<string>, owners: seq<int>, w: int) {
    0 <= w < |words| && |PositionsOf(owners, w)| > 510
  }

  /** What the answer `(ids, owners)` of the tokenizer is accepted as, or refused for. */
  ghost predicate Accepts(rt: Runtime, words: seq<string>, ids: seq<int>, owners: seq<int>,
                          r: Result<Encoding, DecodeError>)
  {
    if !Aligned(ids, owners, |words|) then r == Failure(BadAlignment)
    else if exists w :: Dropped(rt, words, owners, w) then r == Failure(OmittedVisibleWord)
    else if exists w :: TooWide(words, owners, w) then r == Failure(WordTooWide)
    else
      && r.Success? && r.value.ids == ids && |r.value.counts| == |words|
      && forall w :: 0 <= w < |words| ==> r.value.counts[w] == |PositionsOf(owners, w)|
  }

  lemma {:induction false} CountIsPositions(owners: seq<int>, w: int)
    ensures CountOf(owners, w) == |PositionsOf(owners, w)|
  {
    if owners == [] {
      assert PositionsOf(owners, w) == {};
    } else {
      var rest := owners[..|owners| - 1];
      CountIsPositions(rest, w);
      var last: nat := |rest|;
      assert PositionsOf(owners, w) == PositionsOf(rest, w) + if owners[last] == w then {last} else {};
      assert last !in PositionsOf(rest, w);
    }
  }

  lemma {:induction false} AscendingThrough(owners: seq<int>, i: nat, j: nat)
    requires Ascending(owners) && i <= j < |owners|
    ensures owners[i] <= owners[j]
    decreases j
  {
    if i < j {
      AscendingThrough(owners, i, j - 1);
      assert owners[j - 1] <= owners[(j - 1) + 1];
    }
  }

  lemma AlignedMeans(ids: seq<int>, owners: seq<int>, n: nat)
    ensures |ids| != |owners| || (exists j :: 0 <= j < |ids| && ids[j] < 0) || !InOrder(owners, n) <==>
            !Aligned(ids, owners, n)
  {
    if Ascending(owners) {
      forall i, j | 0 <= i < j < |owners| ensures owners[i] <= owners[j] {
        AscendingThrough(owners, i, j);
      }
    }
  }

  /** `_tokenize` on any answer of the tokenizer. */
  lemma TokenizeMeans(rt: Runtime, words: seq<string>)
    ensures Accepts(rt, words, rt.encode(words).0, rt.encode(words).1, TokenizeOf(rt, words))
  {
    hide InOrder, Aligned, CountOf, PositionsOf;
    var (ids, owners) := rt.encode(words);
    AlignedMeans(ids, owners, |words|);
    forall w | 0 <= w < |words| ensures CountsOf(owners, |words|)[w] == |PositionsOf(owners, w)| {
      CountIsPositions(owners, w);
    }
    OmitsMeans(rt, words, owners);
    WideMeans(words, owners);
  }

  lemma OmitsMeans(rt: Runtime, words: seq<string>, owners: seq<int>)
    requires forall w :: 0 <= w < |words| ==> CountsOf(owners, |words|)[w] == |PositionsOf(owners, w)|
    ensures Omits(rt, words, CountsOf(owners, |words|)) <==> exists w :: Dropped(rt, words, owners, w)
  {
    hide CountOf, CountsOf, PositionsOf;
    if Omits(rt, words, CountsOf(owners, |words|)) {
      var w :| 0 <= w < |words| && CountsOf(owners, |words|)[w] == 0 && !rt.ignored(words[w]);
      assert Dropped(rt, words, owners, w);
    }
    if w :| Dropped(rt, words, owners, w) {
      assert CountsOf(owners, |words|)[w] == 0;
    }
  }

  lemma WideMeans(words: seq<string>, owners: seq<int>)
    requires forall w :: 0 <= w < |words| ==> CountsOf(owners, |words|)[w] == |PositionsOf(owners, w)|
    ensures (exists w :: 0 <= w < |words| && CountsOf(owners, |words|)[w] > BUDGET) <==>
            exists w :: TooWide(words, owners, w)
  {
    hide CountOf, CountsOf, PositionsOf;
    if w :| 0 <= w < |words| && CountsOf(owners, |words|)[w] > BUDGET {
      assert TooWide(words, owners, w);
    }
    if w :| TooWide(words, owners, w) {
      assert CountsOf(owners, |words|)[w] > BUDGET;
    }
  }

  /** `_tokenize`: the tokenizer's answer is checked, not trusted. */
  method Tokenize(rt: Runtime, words: seq<string>) returns (r: Result<Encoding, DecodeError>)
    ensures r == TokenizeOf(rt, words)
    ensures Accepts(rt, words, rt.encode(words).0, rt.encode(words).1, r)
  {
    hide Accepts;
    TokenizeMeans(rt, words);
    var (ids, owners) := rt.encode(words);
    if |ids| != |owners| || exists j :: 0 <= j < |ids| && ids[j] < 0 {
      return Failure(BadAlignment);
    }
    var counted := CountSubwords(owners, |words|);
    if counted.None? {
      return Failure(BadAlignment);
    }
    var counts := counted.value;
    var omits := OmitsVisibleWord(rt, words, counts);
    if omits {
      return Failure(OmittedVisibleWord);
    }
    if exists w :: 0 <= w < |words| && counts[w] > BUDGET {
      return Failure(WordTooWide);
    }
    return Success(Encoding(ids, counts));
  }

  function CountBelow(owners: seq<int>, w: int): nat {
    if owners == [] then 0 else CountBelow(owners[..|owners| - 1], w) + if owners[|owners| - 1] < w then 1 else 0
  }

  lemma {:induction false} CountBelowStep(owners: seq<int>, w: int)
    ensures CountBelow(owners, w + 1) == CountBelow(owners, w) + CountOf(owners, w)
  {
    if owners != [] {
      CountBelowStep(owners[..|owners| - 1], w);
    }
  }

  lemma {:induction false} SumOfCounts(owners: seq<int>, n: nat, w: nat)
    requires InOrder(owners, n) && w <= n
    ensures Sum(CountsOf(owners, n)[..w]) == CountBelow(owners, w)
  {
    var counts := CountsOf(owners, n);
    if w == 0 {
      NoneBelow(owners);
    } else {
      SumOfCounts(owners, n, w - 1);
      CountBelowStep(owners, w - 1);
      assert counts[0..w - 1] == counts[..w - 1] && counts[0..w] == counts[..w];
      SumSnoc(counts, 0, w - 1);
    }
  }

  lemma {:induction false} NoneBelow(owners: seq<int>)
    requires forall j :: 0 <= j < |owners| ==> 0 <= owners[j]
    ensures CountBelow(owners, 0) == 0
  {
    if owners != [] {
      NoneBelow(owners[..|owners| - 1]);
    }
  }

  /** In ascending owners, those below `w` are exactly the first `CountBelow` ones. */
  lemma {:induction false} BelowIsPrefix(owners: seq<int>, w: int, j: nat)
    requires Ascending(owners) && j < |owners|
    ensures owners[j] < w <==> j < CountBelow(owners, w)
    ensures CountBelow(owners, w) <= |owners|
  {
    var rest := owners[..|owners| - 1];
    if rest == [] {
      assert CountBelow(rest, w) == 0;
    } else {
      BelowIsPrefix(rest, w, |rest| - 1);
      if j < |rest| {
        BelowIsPrefix(rest, w, j);
      }
    }
  }

  /** The subwords of word `w` are the contiguous block between its boundaries. */
  lemma BlocksAreContiguous(owners: seq<int>, n: nat, w: nat, j: nat)
    requires InOrder(owners, n) && w < n && j < |owners|
    ensures owners[j] == w <==> Sum(CountsOf(owners, n)[..w]) <= j < Sum(CountsOf(owners, n)[..w + 1])
  {
    SumOfCounts(owners, n, w);
    SumOfCounts(owners, n, w + 1);
    BelowIsPrefix(owners, w, j);
    BelowIsPrefix(owners, w + 1, j);
  }

  // ----- words the tokenizer kept -----

  function ActiveUpTo(counts: seq<nat>, n: nat): (r: seq<nat>)
    requires n <= |counts|
    ensures forall k :: 0 <= k < |r| ==> r[k] < n && counts[r[k]] > 0
    ensures forall j, k :: 0 <= j < k < |r| ==> r[j] < r[k]
  {
    if n == 0 then [] else ActiveUpTo(counts, n - 1) + if counts[n - 1] > 0 then [n - 1] else []
  }

  function ActiveCounts(counts: seq<nat>, n: nat): (r: seq<nat>)
    requires n <= |counts|
    ensures |r| == |ActiveUpTo(counts, n)|
    ensures forall k :: 0 <= k < |r| ==> r[k] == counts[ActiveUpTo(counts, n)[k]]
  {
    var active := ActiveUpTo(counts, n);
    seq(|active|, k requires 0 <= k < |active| => counts[active[k]])
  }

  lemma SumOneMore(counts: seq<nat>, count: nat)
    ensures Sum(counts + [count]) == Sum(counts) + count
  {
    SumConcat(counts, [count]);
  }

  lemma ActiveWhole(counts: seq<nat>, n: nat)
    requires 0 < n <= |counts| && counts[n - 1] > 0
    ensures Sum(ActiveCounts(counts, n)) == Sum(ActiveCounts(counts, n - 1)) + counts[n - 1]
    ensures ActiveCounts(counts, n)[..|ActiveUpTo(counts, n)|] == ActiveCounts(counts, n)
  {
    ActiveSnoc(counts, n);
    SumOneMore(ActiveCounts(counts, n - 1), counts[n - 1]);
  }

  /** Dropped words contribute no subwords, so boundaries among kept words are boundaries in the ids. */
  lemma {:induction false} ActiveBoundary(counts: seq<nat>, n: nat, k: nat)
    requires n <= |counts| && k <= |ActiveUpTo(counts, n)|
    ensures k < |ActiveUpTo(counts, n)| ==> Sum(ActiveCounts(counts, n)[..k]) == Sum(counts[..ActiveUpTo(counts, n)[k]])
    ensures k == |ActiveUpTo(counts, n)| ==> Sum(ActiveCounts(counts, n)[..k]) == Sum(counts[..n])
  {
    if n > 0 {
      var before, B := ActiveCounts(counts, n - 1), |ActiveUpTo(counts, n - 1)|;
      SumFirst(counts, n - 1);
      ActiveSnoc(counts, n);
      ActiveBoundary(counts, n - 1, Min(k, B));
      if k <= B {
        assert ActiveCounts(counts, n)[..k] == before[..k];
      } else {
        assert before[..B] == before;
        ActiveWhole(counts, n);
      }
    }
  }

  lemma SumFirst(counts: seq<nat>, n: nat)
    requires n < |counts|
    ensures Sum(counts[..n + 1]) == Sum(counts[..n]) + counts[n]
  {
    assert counts[0..n] == counts[..n] && counts[0..n + 1] == counts[..n + 1];
    SumSnoc(counts, 0, n);
  }

  lemma ActiveSnoc(counts: seq<nat>, n: nat)
    requires 0 < n <= |counts|
    ensures ActiveCounts(counts, n) == ActiveCounts(counts, n - 1) + if counts[n - 1] > 0 then [counts[n - 1]] else []
  {
  }

  /** The position read for the `k`-th kept word is that word's first subword. */
  lemma FirstSubwordOfWord(owners: seq<int>, n: nat, k: nat)
    requires InOrder(owners, n)
    requires k < |ActiveUpTo(CountsOf(owners, n), n)|
    ensures var first, w := Sum(ActiveCounts(CountsOf(owners, n), n)[..k]), ActiveUpTo(CountsOf(owners, n), n)[k];
            first < |owners| && owners[first] == w && (first > 0 ==> owners[first - 1] < w)
  {
    var counts := CountsOf(owners, n);
    var w := ActiveUpTo(counts, n)[k];
    var first := Sum(counts[..w]);
    ActiveBoundary(counts, n, k);
    SumOfCounts(owners, n, w);
    SumOfCounts(owners, n, w + 1);
    assert counts[0..w] == counts[..w] && counts[0..w + 1] == counts[..w + 1];
    SumSnoc(counts, 0, w);
    BelowWithin(owners, w + 1);
    BlocksAreContiguous(owners, n, w, first);
    if first > 0 {
      BelowIsPrefix(owners, w, first - 1);
    }
  }

  lemma {:induction false} BelowWithin(owners: seq<int>, w: int)
    ensures CountBelow(owners, w) <= |owners|
  {
    if owners != [] {
      BelowWithin(owners[..|owners| - 1], w);
    }
  }

  // ----- one window -----

  function Ones(n: nat): seq<bool> {
    seq(n, _ => true)
  }

  function WithSpecials(rt: Runtime, tokens: seq<int>): (r: seq<int>)
    ensures |r| == |tokens| + 2
  {
    [rt.cls] + tokens + [rt.sep]
  }

  /** The model answers every row with one row of logits per position. */
  ghost predicate WellShaped(rt: Runtime) {
    forall ids, attention :: |ids| == |attention| ==>
      |rt.run(ids, attention)| == |ids| && forall r :: 0 <= r < |ids| ==> |rt.run(ids, attention)[r]| == |ids[r]|
  }

  /** Logits of a window inferred on its own, without padding. */
  function Single(rt: Runtime, tokens: seq<int>): (r: seq<Row>)
    requires WellShaped(rt)
    ensures |r| == |tokens| + 2
  {
    rt.run([WithSpecials(rt, tokens)], [Ones(|tokens| + 2)])[0]
  }

  function ReadAt(rt: Runtime, logits: seq<Row>, positions: seq<nat>): (r: seq<Prediction>)
    requires forall j :: 0 <= j < |positions| ==> positions[j] < |logits|
    ensures |r| == |positions|
  {
    seq(|positions|, j requires 0 <= j < |positions| => rt.read(logits[positions[j]]))
  }

  /** The tokens of a window and the positions of its words' first subwords, behind the opening special. */
  function WindowTokens(ids: seq<int>, counts: seq<nat>, w: Window): (r: seq<int>)
    requires Sum(counts) == |ids| && w.start <= w.end <= |counts|
    ensures |r| == Sum(counts[w.start..w.end])
  {
    SumPrefixes(counts, w.start, w.end);
    ids[Sum(counts[..w.start])..Sum(counts[..w.end])]
  }

  function WindowPositions(counts: seq<nat>, w: Window): (r: seq<nat>)
    requires w.start <= w.end <= |counts|
    ensures |r| == w.end - w.start
  {
    seq(w.end - w.start, j requires 0 <= j < w.end - w.start => WindowPosition(counts, w, j))
  }

  function WindowPosition(counts: seq<nat>, w: Window, j: nat): (r: nat)
    requires w.start <= w.end <= |counts| && j < w.end - w.start
    ensures r <= Sum(counts[w.start..w.end]) + 1
  {
    SumPrefixes(counts, w.start, w.start + j);
    SumPrefixes(counts, w.start + j, w.end);
    SumPrefixes(counts, w.start, w.end);
    Sum(counts[..w.start + j]) - Sum(counts[..w.start]) + 1
  }

  lemma SumPrefixes(counts: seq<nat>, a: nat, b: nat)
    requires a <= b <= |counts|
    ensures Sum(counts[..b]) == Sum(counts[..a]) + Sum(counts[a..b])
    ensures Sum(counts[..b]) <= Sum(counts)
  {
    assert counts[0..a] == counts[..a] && counts[0..b] == counts[..b] && counts[0..|counts|] == counts;
    SumSplit(counts, 0, a, b);
    SumSplit(counts, 0, b, |counts|);
  }

  function WindowPrediction(rt: Runtime, ids: seq<int>, counts: seq<nat>, w: Window): (r: seq<Prediction>)
    requires WellShaped(rt) && Sum(counts) == |ids| && w.start <= w.end <= |counts|
    ensures |r| == w.end - w.start
  {
    ReadAt(rt, Single(rt, WindowTokens(ids, counts, w)), WindowPositions(counts, w))
  }

  /** `[0, *accumulate(counts)]`. */
  method Boundaries(counts: seq<nat>) returns (boundaries: seq<nat>)
    ensures |boundaries| == |counts| + 1
    ensures forall k :: 0 <= k <= |counts| ==> boundaries[k] == Sum(counts[..k])
  {
    boundaries := [0];
    for n := 0 to |counts|
      invariant |boundaries| == n + 1
      invariant forall k :: 0 <= k <= n ==> boundaries[k] == Sum(counts[..k])
    {
      assert counts[0..n] == counts[..n] && counts[0..n + 1] == counts[..n + 1];
      SumSnoc(counts, 0, n);
      boundaries := boundaries + [boundaries[n] + counts[n]];
    }
  }

  /** `_predict_window`, with the layout limit of `_model_inputs`. */
  method PredictWindow(rt: Runtime, tokens: seq<int>, positions: seq<nat>)
    returns (r: Result<seq<Prediction>, DecodeError>)
    requires WellShaped(rt) && forall j :: 0 <= j < |positions| ==> positions[j] < |tokens| + 2
    ensures r == if |tokens| + 2 <= 512 then Success(ReadAt(rt, Single(rt, tokens), positions)) else Failure(BadLayout)
  {
    var inputs := WithSpecials(rt, tokens);
    if |inputs| > 512 {
      return Failure(BadLayout);
    }
    var logits := rt.run([inputs], [Ones(|inputs|)]);
    return Success(ReadAt(rt, logits[0], positions));
  }

  // ----- all windows -----

  /** The prediction of each window, as a function of the window. */
  ghost function Predictor(rt: Runtime, ids: seq<int>, counts: seq<nat>): (r: Window -> seq<Prediction>)
    requires WellShaped(rt) && Sum(counts) == |ids|
    ensures Predicts(counts, r)
    ensures forall w: Window :: w.start <= w.end <= |counts| ==> r(w) == WindowPrediction(rt, ids, counts, w)
  {
    (w: Window) => if w.start <= w.end <= |counts| then WindowPrediction(rt, ids, counts, w) else []
  }

  function Unwritten(n: nat): (r: seq<Option<Prediction>>)
    ensures |r| == n
  {
    seq(n, _ => None)
  }

  /** What stitching the owned slices of all windows yields. */
  ghost function Stitched(rt: Runtime, ids: seq<int>, counts: seq<nat>): (r: seq<Option<Prediction>>)
    requires WellShaped(rt) && Sum(counts) == |ids| && ValidCounts(counts)
    ensures |r| == |counts|
  {
    if counts == [] then []
    else
      ReachedStart(counts);
      StitchRest(counts, 0, 0, Unwritten(|counts|), Predictor(rt, ids, counts))
  }

  /** The check for omitted words. */
  function AllWritten(output: seq<Option<Prediction>>): (r: Result<seq<Prediction>, DecodeError>)
    ensures r.Success? <==> forall p :: 0 <= p < |output| ==> output[p].Some?
    ensures r.Success? ==> |r.value| == |output| && forall p :: 0 <= p < |output| ==> output[p] == Some(r.value[p])
  {
    if exists p :: 0 <= p < |output| && output[p].None? then Failure(OmittedWord)
    else Success(seq(|output|, p requires 0 <= p < |output| => output[p].value))
  }

  lemma StitchedIsComplete(rt: Runtime, ids: seq<int>, counts: seq<nat>)
    requires WellShaped(rt) && Sum(counts) == |ids| && ValidCounts(counts)
    ensures AllWritten(Stitched(rt, ids, counts)).Success?
  {
    forall p: nat | p < |counts| ensures Stitched(rt, ids, counts)[p].Some? {
      ReachedStart(counts);
      EveryWordWritten(counts, Unwritten(|counts|), Predictor(rt, ids, counts), p);
    }
  }

  /** `[boundaries[index] - offset + 1 for index in range(start, end)]`. */
  function PositionsFrom(counts: seq<nat>, boundaries: seq<nat>, start: nat, end: nat): (r: seq<nat>)
    requires start <= end <= |counts| && |boundaries| == |counts| + 1
    requires forall k :: 0 <= k <= |counts| ==> boundaries[k] == Sum(counts[..k])
    ensures r == WindowPositions(counts, Window(start, end, 0, 0))
  {
    seq(end - start, j requires 0 <= j < end - start =>
      SumPrefixes(counts, start, start + j);
      boundaries[start + j] - boundaries[start] + 1)
  }

  /** `_predict_words`. Neither the layout limit nor the "omitted a word" check can fail. */
  method PredictWords(rt: Runtime, ids: seq<int>, counts: seq<nat>) returns (r: Result<seq<Prediction>, DecodeError>)
    requires WellShaped(rt) && Sum(counts) == |ids| && ValidCounts(counts) && counts != []
    ensures r.Success? && r == AllWritten(Stitched(rt, ids, counts))
  {
    var boundaries := Boundaries(counts);
    var output := Unwritten(|counts|);
    var start: nat, nextUnwritten: nat := 0, 0;
    ReachedStart(counts);
    ghost var predict := Predictor(rt, ids, counts);
    ghost var whole := Stitched(rt, ids, counts);
    var last := false;
    while !last
      invariant !last ==> LeadsTo(counts, start, nextUnwritten, output, predict, whole)
      invariant last ==> output == whole
      decreases !last, |counts| - start
    {
      var window := OpenWindow(counts, start, nextUnwritten);
      var predicted := PredictAt(rt, ids, counts, boundaries, window, predict);
      if window.end == |counts| {
        WriteLast(counts, start, nextUnwritten, output, predict, whole, window);
        output, last := WriteOwned(output, window, predicted), true;
      } else {
        ghost var next, unwritten := WriteAndGoOn(counts, start, nextUnwritten, output, predict, whole, window);
        output := WriteOwned(output, window, predicted);
        assert LeadsTo(counts, next, unwritten, output, predict, whole);
        start, nextUnwritten := NextOpening(counts, window, nextUnwritten);
        assert LeadsTo(counts, start, nextUnwritten, output, predict, whole);
      }
    }
    StitchedIsComplete(rt, ids, counts);
    return AllWritten(output);
  }

  /** The extent of the window at `start` and the slice it owns. */
  method OpenWindow(counts: seq<nat>, start: nat, nextUnwritten: nat) returns (w: Window)
    requires Reached(counts, start, nextUnwritten)
    ensures w == WindowAt(counts, start, nextUnwritten)
  {
    PlanHead(counts, start, nextUnwritten);
    var end := WindowEnd(counts, start);
    var left, right := Ownership(counts, start, end, nextUnwritten);
    w := Window(start, end, left, right);
  }

  /** Where the loop goes after a window that is not the last. */
  method NextOpening(counts: seq<nat>, w: Window, nextUnwritten: nat) returns (start: nat, unwritten: nat)
    requires w.start <= w.end <= |counts|
    ensures start == NextStart(counts, w.start, w.end) && unwritten == Max(nextUnwritten, w.start + w.right)
  {
    var overlap := MarginWords(Reverse(counts[w.start..w.end]), OVERLAP);
    unwritten := Max(nextUnwritten, w.start + w.right);
    start := Max(w.end - overlap, w.start + 1);
  }

  /** The inference of one window inside the loop. Its inputs always fit the model's 512 positions. */
  method PredictAt(rt: Runtime, ids: seq<int>, counts: seq<nat>, boundaries: seq<nat>, w: Window,
                   ghost predict: Window -> seq<Prediction>)
    returns (predicted: seq<Prediction>)
    requires WellShaped(rt) && Sum(counts) == |ids| && GoodWindow(counts, w) && predict == Predictor(rt, ids, counts)
    requires |boundaries| == |counts| + 1 && forall k :: 0 <= k <= |counts| ==> boundaries[k] == Sum(counts[..k])
    ensures predicted == predict(w)
  {
    SumPrefixes(counts, w.start, w.end);
    var offset := boundaries[w.start];
    var positions := PositionsFrom(counts, boundaries, w.start, w.end);
    SamePositions(counts, Window(w.start, w.end, 0, 0), w);
    var r := PredictWindow(rt, ids[offset..boundaries[w.end]], positions);
    return r.value;
  }

  lemma SamePositions(counts: seq<nat>, a: Window, b: Window)
    requires a.start == b.start <= a.end == b.end <= |counts|
    ensures WindowPositions(counts, a) == WindowPositions(counts, b)
  {
    forall j | 0 <= j < a.end - a.start ensures WindowPosition(counts, a, j) == WindowPosition(counts, b, j) {
    }
  }

  // ----- a whole text -----

  ghost function WordTexts(words: seq<Word>): (r: seq<string>)
    ensures |r| == |words|
  {
    seq(|words|, k requires 0 <= k < |words| => words[k].text)
  }

  /** Predictions of all words: those the tokenizer dropped keep a certain "outside". */
  function Scatter(n: nat, active: seq<nat>, visible: seq<Prediction>): (r: seq<Prediction>)
    requires |active| == |visible| && forall k :: 0 <= k < |active| ==> active[k] < n
    ensures |r| == n
  {
    if active == [] then seq(n, _ => Prediction(Outside, 1.0))
    else Scatter(n, active[..|active| - 1], visible[..|active| - 1])[active[|active| - 1] := visible[|active| - 1]]
  }

  /** The tokenizer accounts for every id, so the counts add up. */
  lemma CountsAddUp(rt: Runtime, words: seq<string>)
    requires TokenizeOf(rt, words).Success?
    ensures var encoding := TokenizeOf(rt, words).value;
            var counts := ActiveCounts(encoding.counts, |encoding.counts|);
            |encoding.counts| == |words| && Sum(counts) == |encoding.ids| && ValidCounts(counts)
  {
    var (ids, owners) := rt.encode(words);
    var counts := CountsOf(owners, |words|);
    SumOfCounts(owners, |words|, |words|);
    AllBelow(owners, |words|);
    var active := ActiveUpTo(counts, |words|);
    ActiveBoundary(counts, |words|, |active|);
    assert counts[..|words|] == counts;
    assert ActiveCounts(counts, |words|)[..|active|] == ActiveCounts(counts, |words|);
  }

  lemma {:induction false} AllBelow(owners: seq<int>, n: int)
    requires forall j :: 0 <= j < |owners| ==> owners[j] < n
    ensures CountBelow(owners, n) == |owners|
  {
    if owners != [] {
      AllBelow(owners[..|owners| - 1], n);
    }
  }

  /** Predictions for all words of an encoding, before bridging. */
  ghost function WordPredictions(rt: Runtime, words: seq<string>): (r: seq<Prediction>)
    requires WellShaped(rt) && TokenizeOf(rt, words).Success?
    ensures |r| == |words|
  {
    CountsAddUp(rt, words);
    var encoding := TokenizeOf(rt, words).value;
    var counts := ActiveCounts(encoding.counts, |words|);
    StitchedIsComplete(rt, encoding.ids, counts);
    Scatter(|words|, ActiveUpTo(encoding.counts, |words|), AllWritten(Stitched(rt, encoding.ids, counts)).value)
  }

  /** The decoder's result for a text split into `words`. */
  ghost function DecodeOf(rt: Runtime, text: string, words: seq<Word>): Result<seq<Entity>, DecodeError>
    requires WellShaped(rt)
  {
    if words == [] then Success([])
    else if !rt.labelsValid then Failure(BadLabels)
    else
      var texts := WordTexts(words);
      var encoding :- TokenizeOf(rt, texts);
      Success(EntitiesFrom(text, words, Bridged(texts, WordPredictions(rt, texts)), 0))
  }

  /** `whole` has the predictions of the kept words at their places and a certain "outside" everywhere else. */
  ghost predicate ScatteredTo(n: nat, active: seq<nat>, visible: seq<Prediction>, whole: seq<Prediction>) {
    && |whole| == n && |active| == |visible|
    && (forall k :: 0 <= k < |active| ==> active[k] < n && whole[active[k]] == visible[k])
    && (forall p: nat :: p < n && p !in active ==> whole[p] == Prediction(Outside, 1.0))
  }

  lemma {:induction false} ScatterPlaces(n: nat, active: seq<nat>, visible: seq<Prediction>)
    requires |active| == |visible| && forall k :: 0 <= k < |active| ==> active[k] < n
    requires forall j, k :: 0 <= j < k < |active| ==> active[j] < active[k]
    ensures ScatteredTo(n, active, visible, Scatter(n, active, visible))
  {
    if active != [] {
      ScatterPlaces(n, active[..|active| - 1], visible[..|active| - 1]);
    }
  }

  /** `[("O", 1.0)] * n`, then the visible predictions at their word indexes. */
  method PlaceVisible(n: nat, active: seq<nat>, visible: seq<Prediction>) returns (predicted: seq<Prediction>)
    requires |active| == |visible| && forall k :: 0 <= k < |active| ==> active[k] < n
    ensures predicted == Scatter(n, active, visible)
  {
    predicted := seq(n, _ => Prediction(Outside, 1.0));
    for k := 0 to |active|
      invariant predicted == Scatter(n, active[..k], visible[..k])
    {
      assert active[..k + 1][..k] == active[..k] && visible[..k + 1][..k] == visible[..k];
      predicted := predicted[active[k] := visible[k]];
    }
    assert active[..|active|] == active && visible[..|active|] == visible;
  }

  /** `word_predict`. Failures come only from the label inventory and the tokenizer contract. */
  method WordPredict(rt: Runtime, chars: CharTable, text: string) returns (r: Result<seq<Entity>, DecodeError>)
    requires WellShaped(rt)
    ensures forall words :: Tiles(SplittingAlphabet(chars), text, |text|, words) ==> r == DecodeOf(rt, text, words)
  {
    var words := WordsWithOffsets(SplittingAlphabet(chars), text);
    forall other | Tiles(SplittingAlphabet(chars), text, |text|, other) ensures other == words {
      TilingUnique(SplittingAlphabet(chars), text, words, other, 0);
    }
    if words == [] {
      return Success([]);
    }
    if !rt.labelsValid {
      return Failure(BadLabels);
    }
    var texts := seq(|words|, k requires 0 <= k < |words| => words[k].text);
    assert texts == WordTexts(words);
    var encoding :- Tokenize(rt, texts);
    CountsAddUp(rt, texts);
    var active := ActiveUpTo(encoding.counts, |texts|);
    var visible: seq<Prediction> := [];
    if active != [] {
      var stitched := PredictWords(rt, encoding.ids, ActiveCounts(encoding.counts, |texts|));
      visible := stitched.value;
    }
    var predicted := PlaceVisible(|texts|, active, visible);
    assert predicted == WordPredictions(rt, texts);
    var bridged := BridgePunctuation(texts, predicted);
    var entities := GroupEntities(text, words, bridged);
    return Success(entities);
  }

  // ----- the contract the decoder meets -----

  /** Every reading of the model is a probability and names a native type, as the label inventory ensures. */
  ghost predicate ReadsNative(rt: Runtime) {
    forall row :: GoodReading(rt.read(row))
  }

  ghost predicate GoodReading(p: Prediction) {
    Probability(p.score) && (p.tag.Outside? || p.tag.kind in NATIVE_TYPES)
  }

  lemma {:induction false} ScatterKeepsContract(n: nat, active: seq<nat>, visible: seq<Prediction>)
    requires |active| == |visible| && forall k :: 0 <= k < |active| ==> active[k] < n
    requires forall k :: 0 <= k < |visible| ==> GoodReading(visible[k])
    ensures forall k :: 0 <= k < n ==> GoodReading(Scatter(n, active, visible)[k])
  {
    if active != [] {
      ScatterKeepsContract(n, active[..|active| - 1], visible[..|active| - 1]);
    }
  }

  lemma StitchedIsNative(rt: Runtime, ids: seq<int>, counts: seq<nat>)
    requires WellShaped(rt) && ReadsNative(rt) && Sum(counts) == |ids| && ValidCounts(counts)
    ensures Holds((p: Prediction) => GoodReading(p), Stitched(rt, ids, counts))
  {
    if counts != [] {
      ReachedStart(counts);
      PlanIsGood(counts, 0, 0);
      var predict := Predictor(rt, ids, counts);
      GoodWindowsFit(counts, Plan(counts, 0, 0), predict);
      StitchKeeps(Unwritten(|counts|), Plan(counts, 0, 0), predict, (p: Prediction) => GoodReading(p));
    }
  }

  lemma WordPredictionsAreNative(rt: Runtime, words: seq<string>)
    requires WellShaped(rt) && ReadsNative(rt) && TokenizeOf(rt, words).Success?
    ensures FromModel(WordPredictions(rt, words))
  {
    CountsAddUp(rt, words);
    var encoding := TokenizeOf(rt, words).value;
    var counts := ActiveCounts(encoding.counts, |words|);
    StitchedIsNative(rt, encoding.ids, counts);
    StitchedIsComplete(rt, encoding.ids, counts);
    var visible := AllWritten(Stitched(rt, encoding.ids, counts)).value;
    ScatterKeepsContract(|words|, ActiveUpTo(encoding.counts, |words|), visible);
  }

  /** `predict_native`: whatever the decoder returns passes validation, unchanged and in the same order. */
  method PredictNative(rt: Runtime, chars: CharTable, text: string) returns (r: Result<seq<Entity>, DecodeError>)
    requires WellShaped(rt) && ReadsNative(rt)
    ensures forall words :: Tiles(SplittingAlphabet(chars), text, |text|, words) ==> r == DecodeOf(rt, text, words)
  {
    var words := WordsWithOffsets(SplittingAlphabet(chars), text);
    var output :- WordPredict(rt, chars, text);
    var validated := ValidateNative(text, output);
    DecodedIsAccepted(rt, chars, text, words);
    return Success(validated.value);
  }

  lemma DecodedIsAccepted(rt: Runtime, chars: CharTable, text: string, words: seq<Word>)
    requires WellShaped(rt) && ReadsNative(rt) && Tiles(SplittingAlphabet(chars), text, |text|, words)
    requires DecodeOf(rt, text, words).Success?
    ensures var output := DecodeOf(rt, text, words).value;
            && (forall e :: e in output ==> ValidItem(text, e))
            && Sort(EntityLe, output) == output && NeighboursDisjoint(output)
  {
    if words != [] {
      var texts := WordTexts(words);
      WordPredictionsAreNative(rt, texts);
      BridgingKeepsContract(texts, WordPredictions(rt, texts));
      DecodedPassValidation(text, words, Bridged(texts, WordPredictions(rt, texts)));
    }
  }
}
