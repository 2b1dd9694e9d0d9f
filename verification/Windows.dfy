/** Packing words of variable width into overlapping windows, and which words each window owns. */
module Windows {
  import opened Base

  const BUDGET: nat := 510
  const OVERLAP: nat := 128

  /** The contract of tokenization: every word has between one and 510 subwords. */
  ghost predicate ValidCounts(counts: seq<nat>) {
    forall i :: 0 <= i < |counts| ==> 1 <= counts[i] <= BUDGET
  }

  function Reverse<T>(s: seq<T>): (r: seq<T>)
    ensures |r| == |s|
    ensures forall i :: 0 <= i < |s| ==> r[i] == s[|s| - 1 - i]
  {
    seq(|s|, i requires 0 <= i < |s| => s[|s| - 1 - i])
  }

  // ----- where a window ends -----

  /** The first position from `end` on at which one more word would exceed the budget. */
  function EndFrom(counts: seq<nat>, start: nat, end: nat): (r: nat)
    requires start <= end <= |counts|
    ensures end <= r <= |counts|
    ensures Sum(counts[start..end]) <= BUDGET ==> Sum(counts[start..r]) <= BUDGET
    ensures r < |counts| ==> Sum(counts[start..r + 1]) > BUDGET
    decreases |counts| - end
  {
    if end < |counts| && Sum(counts[start..end + 1]) <= BUDGET then EndFrom(counts, start, end + 1) else end
  }

  method WindowEnd(counts: seq<nat>, start: nat) returns (end: nat)
    requires start <= |counts|
    ensures end == EndFrom(counts, start, start)
  {
    var total := 0;
    end := start;
    while end < |counts| && total + counts[end] <= BUDGET
      invariant start <= end <= |counts| && total == Sum(counts[start..end])
      invariant EndFrom(counts, start, start) == EndFrom(counts, start, end)
    {
      SumSnoc(counts, start, end);
      total := total + counts[end];
      end := end + 1;
    }
    if end < |counts| {
      SumSnoc(counts, start, end);
    }
  }

  // ----- margins -----

  /** How many words it takes, at least one, to gather `threshold` subwords; all of them if too few. */
  function MarginFrom(counts: seq<nat>, threshold: nat, consumed: nat): (r: nat)
    requires consumed <= |counts|
    ensures consumed <= r <= |counts|
    ensures consumed < |counts| ==> consumed < r
    ensures r < |counts| ==> Sum(counts[..r]) >= threshold
    ensures forall k :: consumed < k < r ==> Sum(counts[..k]) < threshold
    decreases |counts| - consumed
  {
    if consumed == |counts| || Sum(counts[..consumed + 1]) >= threshold
    then Min(consumed + 1, |counts|)
    else MarginFrom(counts, threshold, consumed + 1)
  }

  method MarginWords(counts: seq<nat>, threshold: nat) returns (consumed: nat)
    ensures consumed == MarginFrom(counts, threshold, 0)
  {
    var total := 0;
    consumed := 0;
    for n := 0 to |counts|
      invariant consumed == n && total == Sum(counts[..n])
      invariant MarginFrom(counts, threshold, 0) == MarginFrom(counts, threshold, n)
    {
      assert counts[0..n] == counts[..n] && counts[0..n + 1] == counts[..n + 1];
      SumSnoc(counts, 0, n);
      consumed := consumed + 1;
      total := total + counts[n];
      if total >= threshold {
        break;
      }
    }
  }

  lemma {:induction false} SumReverse(s: seq<nat>)
    ensures Sum(Reverse(s)) == Sum(s)
  {
    if s != [] {
      assert Reverse(s) == Reverse(s[1..]) + [s[0]];
      SumReverse(s[1..]);
      SumConcat(Reverse(s[1..]), [s[0]]);
    }
  }

  /** A margin measured from the right: the last `k` words. */
  lemma SuffixSum(s: seq<nat>, k: nat)
    requires k <= |s|
    ensures Sum(Reverse(s)[..k]) == Sum(s[|s| - k..])
  {
    assert Reverse(s)[..k] == Reverse(s[|s| - k..]);
    SumReverse(s[|s| - k..]);
  }

  /** A larger threshold never needs fewer words. */
  lemma MarginMonotone(counts: seq<nat>, low: nat, high: nat)
    requires low <= high
    ensures MarginFrom(counts, low, 0) <= MarginFrom(counts, high, 0)
  {
    var a, b := MarginFrom(counts, low, 0), MarginFrom(counts, high, 0);
    assert b < |counts| ==> Sum(counts[..b]) >= high;
  }

  // ----- ownership -----

  datatype Window = Window(start: nat, end: nat, left: nat, right: nat)

  function RightMargin(counts: seq<nat>, start: nat, end: nat, threshold: nat): nat
    requires start <= end <= |counts|
  {
    MarginFrom(Reverse(counts[start..end]), threshold, 0)
  }

  function OwnedRight(counts: seq<nat>, start: nat, end: nat): int
    requires start <= end <= |counts|
  {
    if end < |counts| then end - start - (RightMargin(counts, start, end, OVERLAP / 2) - 1) else end - start
  }

  function OwnedLeft(counts: seq<nat>, start: nat, end: nat, nextUnwritten: int): int
    requires start <= end <= |counts|
  {
    var margin := if start == 0 then 0 else MarginFrom(counts[start..end], OVERLAP / 2, 0);
    Max(0, Min(margin, nextUnwritten - start))
  }

  function NextStart(counts: seq<nat>, start: nat, end: nat): nat
    requires start <= end <= |counts|
  {
    Max(end - RightMargin(counts, start, end, OVERLAP), start + 1)
  }

  method Ownership(counts: seq<nat>, start: nat, end: nat, nextUnwritten: int) returns (left: int, right: int)
    requires start <= end <= |counts|
    ensures left == OwnedLeft(counts, start, end, nextUnwritten)
    ensures right == OwnedRight(counts, start, end)
  {
    var window := counts[start..end];
    left := 0;
    if start != 0 {
      left := MarginWords(window, OVERLAP / 2);
    }
    var margin: int;
    right := |window|;
    if end < |counts| {
      margin := MarginWords(Reverse(window), OVERLAP / 2);
      right := right - (margin - 1);
    }
    left := Max(0, Min(left, nextUnwritten - start));
  }

  // ----- the facts about one window -----

  lemma WindowNonempty(counts: seq<nat>, start: nat)
    requires ValidCounts(counts) && start < |counts|
    ensures start < EndFrom(counts, start, start) && Sum(counts[start..EndFrom(counts, start, start)]) <= BUDGET
  {
    SumSnoc(counts, start, start);
    assert counts[start..start] == [];
    assert EndFrom(counts, start, start) == EndFrom(counts, start, start + 1);
  }

  /** A window that does not reach the end of the text cannot take one word more. */
  lemma WindowIsFull(counts: seq<nat>, start: nat) returns (end: nat)
    requires ValidCounts(counts) && start < |counts|
    ensures end == EndFrom(counts, start, start) && start < end <= |counts| && Sum(counts[start..end]) <= BUDGET
    ensures end < |counts| ==> Sum(counts[start..end + 1]) > BUDGET
  {
    WindowNonempty(counts, start);
    end := EndFrom(counts, start, start);
  }

  /** Word `j` sees at least 64 subwords up to the end of its window, or is the window's first word. */
  ghost predicate HasContext(counts: seq<nat>, start: nat, end: nat, j: nat)
    requires start <= j <= end <= |counts|
  {
    j == start || Sum(counts[j..end]) >= OVERLAP / 2
  }

  lemma RightMarginSums(counts: seq<nat>, start: nat, end: nat, threshold: nat)
    requires start < end <= |counts|
    ensures 1 <= RightMargin(counts, start, end, threshold) <= end - start
    ensures var m := RightMargin(counts, start, end, threshold);
            && (m < end - start ==> Sum(counts[end - m..end]) >= threshold)
            && (m > 1 ==> Sum(counts[end - (m - 1)..end]) < threshold)
  {
    var m := RightMargin(counts, start, end, threshold);
    SuffixInWindow(counts, start, end, m);
    SuffixInWindow(counts, start, end, m - 1);
  }

  lemma SuffixInWindow(counts: seq<nat>, start: nat, end: nat, k: nat)
    requires start <= end <= |counts| && k <= end - start
    ensures Sum(Reverse(counts[start..end])[..k]) == Sum(counts[end - k..end])
  {
    SuffixSum(counts[start..end], k);
    assert counts[start..end][end - start - k..] == counts[end - k..end];
  }

  /** Every word that a non-final window owns has its right context; the word behind them has not. */
  lemma RightContext(counts: seq<nat>, start: nat, end: nat)
    requires start < end < |counts|
    ensures 1 <= OwnedRight(counts, start, end) <= end - start
    ensures forall j :: start <= j < start + OwnedRight(counts, start, end) ==> HasContext(counts, start, end, j)
    ensures forall j :: start + OwnedRight(counts, start, end) <= j < end ==> !HasContext(counts, start, end, j)
  {
    var right := start + OwnedRight(counts, start, end);
    RightMarginSums(counts, start, end, OVERLAP / 2);
    forall j | start <= j < right ensures HasContext(counts, start, end, j) {
      SumSplit(counts, j, right - 1, end);
    }
    forall j | right <= j < end ensures !HasContext(counts, start, end, j) {
      SumSplit(counts, right, j, end);
    }
  }

  lemma PrefixOfSlice(counts: seq<nat>, start: nat, end: nat, k: nat)
    requires start <= end <= |counts| && k <= end - start
    ensures counts[start..end][..k] == counts[start..start + k]
  {
  }

  /**
   * In a window that is not the first, the owned stretch begins at the first word with 64 subwords before it or not
   * yet written.
   */
  lemma LeftContext(counts: seq<nat>, start: nat, end: nat, nextUnwritten: nat, j: nat)
    requires 0 < start <= j < end <= |counts| && start <= nextUnwritten
    ensures start + OwnedLeft(counts, start, end, nextUnwritten) <= j <==>
            Sum(counts[start..j]) >= OVERLAP / 2 || nextUnwritten <= j
  {
    var window, k := counts[start..end], j - start;
    var margin := MarginFrom(window, OVERLAP / 2, 0);
    PrefixOfSlice(counts, start, end, k);
    if margin <= k {
      PrefixOfSlice(counts, start, end, margin);
      SumSplit(counts, start, start + margin, j);
    }
  }

  /** Shifting a window to the right never moves its end back. */
  lemma EndsAdvance(counts: seq<nat>, start: nat, next: nat)
    requires ValidCounts(counts) && start < next < |counts| && next <= EndFrom(counts, start, start)
    ensures EndFrom(counts, start, start) <= EndFrom(counts, next, next)
  {
    var end, end' := EndFrom(counts, start, start), EndFrom(counts, next, next);
    WindowNonempty(counts, start);
    if end' < end {
      SumSplit(counts, start, next, end' + 1);
      SumSplit(counts, start, end' + 1, end);
    }
  }

  /** Nor does it move its owned right edge back. */
  lemma EdgesAdvance(counts: seq<nat>, start: nat, next: nat)
    requires ValidCounts(counts) && start < next < |counts| && next <= EndFrom(counts, start, start) < |counts|
    ensures start + OwnedRight(counts, start, EndFrom(counts, start, start))
            <= next + OwnedRight(counts, next, EndFrom(counts, next, next))
  {
    var end, end' := EndFrom(counts, start, start), EndFrom(counts, next, next);
    WindowNonempty(counts, start);
    WindowNonempty(counts, next);
    EndsAdvance(counts, start, next);
    RightContext(counts, start, end);
    var last := start + OwnedRight(counts, start, end) - 1;
    if end' < |counts| {
      RightContext(counts, next, end');
      if last >= next {
        assert HasContext(counts, start, end, last);
        SumSplit(counts, last, end, end');
        assert HasContext(counts, next, end', last);
      }
    }
  }

  /** The next window starts no later than the word behind the owned stretch of this one. */
  lemma NextStartTouches(counts: seq<nat>, start: nat, end: nat)
    requires start < end < |counts|
    ensures start < NextStart(counts, start, end) <= start + OwnedRight(counts, start, end)
  {
    MarginMonotone(Reverse(counts[start..end]), OVERLAP / 2, OVERLAP);
    RightContext(counts, start, end);
  }

  // ----- the sequence of windows -----

  /** What the loop knows whenever it opens a window. */
  ghost predicate Reached(counts: seq<nat>, start: nat, nextUnwritten: nat) {
    && ValidCounts(counts) && start < |counts| && start <= nextUnwritten
    && nextUnwritten <= start + OwnedRight(counts, start, EndFrom(counts, start, start))
  }

  lemma ReachedNext(counts: seq<nat>, start: nat, nextUnwritten: nat)
    requires Reached(counts, start, nextUnwritten)
    ensures var end := EndFrom(counts, start, start);
            && start < end && 0 <= OwnedRight(counts, start, end) <= end - start
            && (end < |counts| ==>
                  && start < NextStart(counts, start, end)
                  && Max(nextUnwritten, start + OwnedRight(counts, start, end))
                     == start + OwnedRight(counts, start, end)
                  && Reached(counts, NextStart(counts, start, end), start + OwnedRight(counts, start, end)))
  {
    var end := EndFrom(counts, start, start);
    WindowNonempty(counts, start);
    if end < |counts| {
      RightContext(counts, start, end);
      NextStartTouches(counts, start, end);
      EdgesAdvance(counts, start, NextStart(counts, start, end));
    }
  }

  lemma ReachedStart(counts: seq<nat>)
    requires ValidCounts(counts) && counts != []
    ensures Reached(counts, 0, 0)
  {
    WindowNonempty(counts, 0);
    if EndFrom(counts, 0, 0) < |counts| {
      RightContext(counts, 0, EndFrom(counts, 0, 0));
    }
  }

  /** Where the loop goes on after a window that is not the last: the next start and the next unwritten word. */
  function Onward(counts: seq<nat>, start: nat, nextUnwritten: nat): (r: (nat, nat))
    requires Reached(counts, start, nextUnwritten) && EndFrom(counts, start, start) < |counts|
    ensures r.0 == NextStart(counts, start, EndFrom(counts, start, start)) && start < r.0
    ensures r.1 == start + OwnedRight(counts, start, EndFrom(counts, start, start)) && Reached(counts, r.0, r.1)
  {
    var end := EndFrom(counts, start, start);
    ReachedNext(counts, start, nextUnwritten);
    (NextStart(counts, start, end), Max(nextUnwritten, start + OwnedRight(counts, start, end)))
  }

  /** All windows from `start` on, each with the stretch it owns. */
  function Plan(counts: seq<nat>, start: nat, nextUnwritten: nat): seq<Window>
    requires Reached(counts, start, nextUnwritten)
    decreases |counts| - start
  {
    var end := EndFrom(counts, start, start);
    ReachedNext(counts, start, nextUnwritten);
    var window := Window(start, end, OwnedLeft(counts, start, end, nextUnwritten), OwnedRight(counts, start, end));
    if end == |counts| then [window]
    else
      var next := Onward(counts, start, nextUnwritten);
      [window] + Plan(counts, next.0, next.1)
  }

  /** A window within the budget whose owned slice is proper and whose owned words have their context. */
  ghost predicate GoodWindow(counts: seq<nat>, w: Window) {
    && w.start < w.end <= |counts|
    && Sum(counts[w.start..w.end]) <= BUDGET
    && w.left <= w.right <= w.end - w.start
    && (w.end < |counts| ==> forall j :: w.start + w.left <= j < w.start + w.right ==>
                         HasContext(counts, w.start, w.end, j))
  }

  ghost predicate AllGood(counts: seq<nat>, plan: seq<Window>) {
    forall k :: 0 <= k < |plan| ==> GoodWindow(counts, plan[k])
  }

  /** Consecutive windows advance without leaving a gap. */
  ghost predicate Follows(v: Window, w: Window) {
    && v.start < w.start && v.end <= w.end
    && v.start + v.right <= w.start + w.right
    && w.start + w.left <= v.start + v.right
  }

  /** What `w` takes over from `v`, its predecessor, are words with 64 subwords of left context. */
  ghost predicate TakesOverInContext(counts: seq<nat>, v: Window, w: Window)
    requires w.start <= w.end <= |counts|
  {
    forall j :: w.start + w.left <= j < v.start + v.right && j < w.end ==> Sum(counts[w.start..j]) >= OVERLAP / 2
  }

  ghost predicate Owns(w: Window, p: int) {
    w.start + w.left <= p < w.start + w.right
  }

  ghost predicate Owned(plan: seq<Window>, p: int) {
    exists k :: 0 <= k < |plan| && Owns(plan[k], p)
  }

  lemma PlanHead(counts: seq<nat>, start: nat, nextUnwritten: nat)
    requires Reached(counts, start, nextUnwritten)
    ensures var plan := Plan(counts, start, nextUnwritten);
            && |plan| > 0 && GoodWindow(counts, plan[0])
            && plan[0].start == start && plan[0].end == EndFrom(counts, start, start)
            && plan[0].left == OwnedLeft(counts, start, plan[0].end, nextUnwritten)
            && plan[0].right == OwnedRight(counts, start, plan[0].end)
            && start + plan[0].left <= nextUnwritten <= start + plan[0].right
            && (plan[0].end == |counts| ==> plan == [plan[0]])
  {
    ReachedNext(counts, start, nextUnwritten);
    WindowNonempty(counts, start);
    if EndFrom(counts, start, start) < |counts| {
      RightContext(counts, start, EndFrom(counts, start, start));
    }
  }

  /** Unfolds a plan that has more than one window. */
  lemma PlanTail(counts: seq<nat>, start: nat, nextUnwritten: nat) returns (next: nat, unwritten: nat)
    requires Reached(counts, start, nextUnwritten) && EndFrom(counts, start, start) < |counts|
    ensures start < next && next == NextStart(counts, start, EndFrom(counts, start, start))
    ensures Reached(counts, next, unwritten)
    ensures var plan := Plan(counts, start, nextUnwritten);
            && |plan| > 0 && unwritten == start + plan[0].right
            && plan == [plan[0]] + Plan(counts, next, unwritten)
  {
    next, unwritten := Onward(counts, start, nextUnwritten).0, Onward(counts, start, nextUnwritten).1;
  }

  lemma NextFollows(counts: seq<nat>, start: nat, nextUnwritten: nat, next: nat, unwritten: nat)
    requires Reached(counts, start, nextUnwritten) && EndFrom(counts, start, start) < |counts|
    requires next == NextStart(counts, start, EndFrom(counts, start, start)) && Reached(counts, next, unwritten)
    requires unwritten == start + OwnedRight(counts, start, EndFrom(counts, start, start))
    ensures |Plan(counts, start, nextUnwritten)| > 0 && |Plan(counts, next, unwritten)| > 0
    ensures Follows(Plan(counts, start, nextUnwritten)[0], Plan(counts, next, unwritten)[0])
    ensures GoodWindow(counts, Plan(counts, next, unwritten)[0])
    ensures TakesOverInContext(counts, Plan(counts, start, nextUnwritten)[0], Plan(counts, next, unwritten)[0])
  {
    PlanHead(counts, start, nextUnwritten);
    PlanHead(counts, next, unwritten);
    WindowsAdvance(counts, start, nextUnwritten, next);
    var end := Plan(counts, next, unwritten)[0].end;
    forall j | next + OwnedLeft(counts, next, end, unwritten) <= j < unwritten && j < end
      ensures Sum(counts[next..j]) >= OVERLAP / 2
    {
      LeftContext(counts, next, end, unwritten, j);
    }
  }

  /** The next window follows this one. */
  lemma WindowsAdvance(counts: seq<nat>, start: nat, nextUnwritten: nat, next: nat)
    requires Reached(counts, start, nextUnwritten) && EndFrom(counts, start, start) < |counts|
    requires next == NextStart(counts, start, EndFrom(counts, start, start))
    ensures start < next <= EndFrom(counts, start, start) <= EndFrom(counts, next, next)
    ensures start + OwnedRight(counts, start, EndFrom(counts, start, start))
            <= next + OwnedRight(counts, next, EndFrom(counts, next, next))
  {
    var end := EndFrom(counts, start, start);
    WindowNonempty(counts, start);
    RightContext(counts, start, end);
    NextStartTouches(counts, start, end);
    EndsAdvance(counts, start, next);
    EdgesAdvance(counts, start, next);
  }

  /** Every window fits the budget, its owned slice is proper and its owned words have their context. */
  lemma {:induction false} PlanIsGood(counts: seq<nat>, start: nat, nextUnwritten: nat)
    requires Reached(counts, start, nextUnwritten)
    ensures AllGood(counts, Plan(counts, start, nextUnwritten))
    decreases |counts| - start
  {
    PlanHead(counts, start, nextUnwritten);
    if EndFrom(counts, start, start) < |counts| {
      var next, unwritten := PlanTail(counts, start, nextUnwritten);
      PlanIsGood(counts, next, unwritten);
    }
  }

  /** One window and its successor. */
  ghost predicate Advances(counts: seq<nat>, v: Window, w: Window) {
    Follows(v, w) && GoodWindow(counts, w) && TakesOverInContext(counts, v, w)
  }

  /**
   * Ends and owned right edges never move back, no window starts beyond the next unwritten word, and a
   * window overwrites an earlier one only where it has left context.
   */
  lemma {:induction false} PlanAdvances(counts: seq<nat>, start: nat, nextUnwritten: nat)
    requires Reached(counts, start, nextUnwritten)
    ensures var plan := Plan(counts, start, nextUnwritten);
            && |plan| > 0 && plan[|plan| - 1].end == |counts|
            && forall k :: 0 <= k < |plan| - 1 ==> Advances(counts, plan[k], plan[k + 1])
    decreases |counts| - start
  {
    PlanHead(counts, start, nextUnwritten);
    if EndFrom(counts, start, start) < |counts| {
      var next, unwritten := PlanTail(counts, start, nextUnwritten);
      PlanAdvances(counts, next, unwritten);
      NextFollows(counts, start, nextUnwritten, next, unwritten);
      var plan, rest := Plan(counts, start, nextUnwritten), Plan(counts, next, unwritten);
      forall k | 0 <= k < |plan| - 1 ensures Advances(counts, plan[k], plan[k + 1]) {
        if k > 0 {
          assert Advances(counts, rest[k - 1], rest[k]);
        }
      }
    }
  }

  /** Together the windows own every word from the next unwritten one on. */
  lemma {:induction false} PlanCovers(counts: seq<nat>, start: nat, nextUnwritten: nat, p: nat)
    requires Reached(counts, start, nextUnwritten) && nextUnwritten <= p < |counts|
    ensures Owned(Plan(counts, start, nextUnwritten), p)
    decreases |counts| - start
  {
    var plan := Plan(counts, start, nextUnwritten);
    PlanHead(counts, start, nextUnwritten);
    if p < start + plan[0].right {
      assert Owns(plan[0], p);
    } else {
      var next, unwritten := PlanTail(counts, start, nextUnwritten);
      PlanCovers(counts, next, unwritten, p);
      var rest := Plan(counts, next, unwritten);
      var k :| 0 <= k < |rest| && Owns(rest[k], p);
      assert Owns(plan[k + 1], p);
    }
  }

  // ----- stitching the owned slices -----

  ghost predicate FitsOutput<T>(length: nat, w: Window, predicted: seq<T>) {
    w.left <= w.right <= |predicted| && w.start + w.right <= length
  }

  /** `output[start + left : start + right] = predicted[left:right]` for slices of equal length. */
  function WriteOwned<T>(output: seq<Option<T>>, w: Window, predicted: seq<T>): (r: seq<Option<T>>)
    requires FitsOutput(|output|, w, predicted)
    ensures |r| == |output|
    ensures forall p :: 0 <= p < |output| ==> r[p] == if Owns(w, p) then Some(predicted[p - w.start]) else output[p]
  {
    output[..w.start + w.left]
    + seq(w.right - w.left, i requires 0 <= i < w.right - w.left => Some(predicted[w.left + i]))
    + output[w.start + w.right..]
  }

  /** `predict` answers every good window with one prediction per word. */
  ghost predicate Predicts<T>(counts: seq<nat>, predict: Window -> seq<T>) {
    forall w :: GoodWindow(counts, w) ==> |predict(w)| == w.end - w.start
  }

  ghost predicate AllFit<T>(length: nat, plan: seq<Window>, predict: Window -> seq<T>) {
    forall k :: 0 <= k < |plan| ==> FitsOutput(length, plan[k], predict(plan[k]))
  }

  lemma GoodWindowsFit<T>(counts: seq<nat>, plan: seq<Window>, predict: Window -> seq<T>)
    requires AllGood(counts, plan) && Predicts(counts, predict)
    ensures AllFit(|counts|, plan, predict)
  {
  }

  /** Replays the owned slices of all windows in order; later windows overwrite earlier ones. */
  function Stitch<T>(output: seq<Option<T>>, plan: seq<Window>, predict: Window -> seq<T>): (r: seq<Option<T>>)
    requires AllFit(|output|, plan, predict)
    ensures |r| == |output|
    decreases |plan|
  {
    if plan == [] then output
    else Stitch(WriteOwned(output, plan[0], predict(plan[0])), plan[1..], predict)
  }

  /** What the loop has still to write when it opens the window at `start`. */
  function StitchRest<T>(counts: seq<nat>, start: nat, nextUnwritten: nat, output: seq<Option<T>>,
                         predict: Window -> seq<T>): (r: seq<Option<T>>)
    requires Reached(counts, start, nextUnwritten) && |output| == |counts| && Predicts(counts, predict)
    ensures |r| == |output|
  {
    PlanIsGood(counts, start, nextUnwritten);
    GoodWindowsFit(counts, Plan(counts, start, nextUnwritten), predict);
    Stitch(output, Plan(counts, start, nextUnwritten), predict)
  }

  /** With `output` written so far, going on from `start` leads to `whole`. */
  ghost predicate LeadsTo<T>(counts: seq<nat>, start: nat, nextUnwritten: nat, output: seq<Option<T>>,
                             predict: Window -> seq<T>, whole: seq<Option<T>>) {
    && Reached(counts, start, nextUnwritten) && |output| == |counts| && Predicts(counts, predict)
    && whole == StitchRest(counts, start, nextUnwritten, output, predict)
  }

  /** The window that the loop opens at `start`. */
  function WindowAt(counts: seq<nat>, start: nat, nextUnwritten: nat): (w: Window)
    requires Reached(counts, start, nextUnwritten)
    ensures w == Plan(counts, start, nextUnwritten)[0] && GoodWindow(counts, w) && w.start == start
  {
    PlanHead(counts, start, nextUnwritten);
    var end := EndFrom(counts, start, start);
    Window(start, end, OwnedLeft(counts, start, end, nextUnwritten), OwnedRight(counts, start, end))
  }

  /** One turn of the loop that is not the last. */
  lemma WriteAndGoOn<T>(counts: seq<nat>, start: nat, nextUnwritten: nat, output: seq<Option<T>>,
                        predict: Window -> seq<T>, whole: seq<Option<T>>, w: Window) returns (next: nat, unwritten: nat)
    requires LeadsTo(counts, start, nextUnwritten, output, predict, whole)
    requires w == WindowAt(counts, start, nextUnwritten) && w.end < |counts|
    ensures FitsOutput(|counts|, w, predict(w)) && start < next
    ensures next == NextStart(counts, w.start, w.end) && unwritten == Max(nextUnwritten, w.start + w.right)
    ensures LeadsTo(counts, next, unwritten, WriteOwned(output, w, predict(w)), predict, whole)
  {
    var plan := Plan(counts, start, nextUnwritten);
    PlanIsGood(counts, start, nextUnwritten);
    GoodWindowsFit(counts, plan, predict);
    PlanHead(counts, start, nextUnwritten);
    next, unwritten := PlanTail(counts, start, nextUnwritten);
    assert unwritten == Max(nextUnwritten, start + w.right);
    PlanIsGood(counts, next, unwritten);
    GoodWindowsFit(counts, Plan(counts, next, unwritten), predict);
    StitchCons(output, w, Plan(counts, next, unwritten), predict);
    assert LeadsTo(counts, next, unwritten, WriteOwned(output, w, predict(w)), predict, whole);
  }

  /** The last turn of the loop completes the output. */
  lemma WriteLast<T>(counts: seq<nat>, start: nat, nextUnwritten: nat, output: seq<Option<T>>,
                     predict: Window -> seq<T>, whole: seq<Option<T>>, w: Window)
    requires LeadsTo(counts, start, nextUnwritten, output, predict, whole)
    requires w == WindowAt(counts, start, nextUnwritten) && w.end == |counts|
    ensures FitsOutput(|counts|, w, predict(w)) && whole == WriteOwned(output, w, predict(w))
  {
    var plan := Plan(counts, start, nextUnwritten);
    PlanIsGood(counts, start, nextUnwritten);
    GoodWindowsFit(counts, plan, predict);
    PlanHead(counts, start, nextUnwritten);
    StitchCons(output, w, [], predict);
    assert [w] + [] == plan;
  }

  lemma StitchCons<T>(output: seq<Option<T>>, w: Window, rest: seq<Window>, predict: Window -> seq<T>)
    requires FitsOutput(|output|, w, predict(w)) && AllFit(|output|, rest, predict)
    ensures AllFit(|output|, [w] + rest, predict)
    ensures Stitch(output, [w] + rest, predict) == Stitch(WriteOwned(output, w, predict(w)), rest, predict)
  {
    assert ([w] + rest)[1..] == rest;
  }

  /** Window `k` owns word `p` and no later window does. */
  ghost predicate LastOwner(plan: seq<Window>, k: nat, p: int) {
    k < |plan| && Owns(plan[k], p) && forall i :: k < i < |plan| ==> !Owns(plan[i], p)
  }

  /** Each word carries the prediction of the last window that owns it. */
  lemma {:induction false} LastOwnerDecides<T>(output: seq<Option<T>>, plan: seq<Window>, predict: Window -> seq<T>,
                                               p: nat)
    requires AllFit(|output|, plan, predict) && p < |output|
    ensures !Owned(plan, p) ==> Stitch(output, plan, predict)[p] == output[p]
    ensures forall k: nat :: LastOwner(plan, k, p) ==>
              Stitch(output, plan, predict)[p] == Some(predict(plan[k])[p - plan[k].start])
    decreases |plan|
  {
    if plan != [] {
      hide WriteOwned;
      LastOwnerDecides(WriteOwned(output, plan[0], predict(plan[0])), plan[1..], predict, p);
      assert forall i :: 0 <= i < |plan[1..]| ==> plan[1..][i] == plan[i + 1];
      forall k: nat | LastOwner(plan, k, p)
        ensures Stitch(output, plan, predict)[p] == Some(predict(plan[k])[p - plan[k].start])
      {
        if k > 0 {
          assert LastOwner(plan[1..], k - 1, p);
        } else {
          assert !Owned(plan[1..], p);
        }
      }
    }
  }

  lemma {:induction false} SomeLastOwner(plan: seq<Window>, p: int) returns (k: nat)
    requires Owned(plan, p)
    ensures LastOwner(plan, k, p)
  {
    var rest := plan[..|plan| - 1];
    k := |plan| - 1;
    if !Owns(plan[k], p) {
      var i :| 0 <= i < |plan| && Owns(plan[i], p);
      assert rest[i] == plan[i];
      k := SomeLastOwner(rest, p);
      assert forall j :: 0 <= j < |rest| ==> rest[j] == plan[j];
    }
  }

  /** No word is left out: the "omitted a word" failures cannot happen. */
  lemma EveryWordWritten<T>(counts: seq<nat>, output: seq<Option<T>>, predict: Window -> seq<T>, p: nat)
    requires Reached(counts, 0, 0) && Predicts(counts, predict)
    requires |output| == |counts| && p < |counts|
    ensures StitchRest(counts, 0, 0, output, predict)[p].Some?
  {
    PlanIsGood(counts, 0, 0);
    GoodWindowsFit(counts, Plan(counts, 0, 0), predict);
    PlanCovers(counts, 0, 0, p);
    var k := SomeLastOwner(Plan(counts, 0, 0), p);
    LastOwnerDecides(output, Plan(counts, 0, 0), predict, p);
  }

  /** Replay can also be read from the end: the last window writes last. */
  lemma {:induction false} StitchSnoc<T>(output: seq<Option<T>>, plan: seq<Window>, w: Window,
                                         predict: Window -> seq<T>)
    requires AllFit(|output|, plan, predict) && FitsOutput(|output|, w, predict(w))
    ensures AllFit(|output|, plan + [w], predict)
    ensures Stitch(output, plan + [w], predict) == WriteOwned(Stitch(output, plan, predict), w, predict(w))
    decreases |plan|
  {
    if plan == [] {
      assert plan + [w] == [w] && [w][1..] == [];
    } else {
      assert (plan + [w])[1..] == plan[1..] + [w];
      StitchSnoc(WriteOwned(output, plan[0], predict(plan[0])), plan[1..], w, predict);
    }
  }

  lemma FitPrefix<T>(length: nat, whole: seq<Window>, k: nat, predict: Window -> seq<T>)
    requires k <= |whole| && AllFit(length, whole, predict)
    ensures AllFit(length, whole[..k], predict)
  {
  }

  lemma StitchPrefix<T>(output: seq<Option<T>>, whole: seq<Window>, k: nat, predict: Window -> seq<T>)
    requires k < |whole| && AllFit(|output|, whole, predict)
    ensures AllFit(|output|, whole[..k], predict) && AllFit(|output|, whole[..k + 1], predict)
    ensures FitsOutput(|output|, whole[k], predict(whole[k]))
    ensures Stitch(output, whole[..k + 1], predict)
         == WriteOwned(Stitch(output, whole[..k], predict), whole[k], predict(whole[k]))
  {
    FitPrefix(|output|, whole, k, predict);
    PrefixSnoc(whole, k);
    StitchSnoc(output, whole[..k], whole[k], predict);
  }

  /** All windows of a text. */
  function PlanOf(counts: seq<nat>): (r: seq<Window>)
    requires ValidCounts(counts)
    ensures AllGood(counts, r)
  {
    if counts == [] then []
    else
      ReachedStart(counts);
      PlanIsGood(counts, 0, 0);
      Plan(counts, 0, 0)
  }

  /** With the windows `done` laid out, going on from `start` completes `whole`. */
  ghost predicate Continues(counts: seq<nat>, start: nat, nextUnwritten: nat, done: seq<Window>, whole: seq<Window>) {
    Reached(counts, start, nextUnwritten) && whole == done + Plan(counts, start, nextUnwritten)
  }

  lemma LayAndGoOn(counts: seq<nat>, start: nat, nextUnwritten: nat, done: seq<Window>, whole: seq<Window>, w: Window)
    returns (next: nat, unwritten: nat)
    requires Continues(counts, start, nextUnwritten, done, whole)
    requires w == WindowAt(counts, start, nextUnwritten) && w.end < |counts|
    ensures start < next
    ensures next == NextStart(counts, w.start, w.end) && unwritten == Max(nextUnwritten, w.start + w.right)
    ensures Continues(counts, next, unwritten, done + [w], whole)
  {
    PlanHead(counts, start, nextUnwritten);
    next, unwritten := PlanTail(counts, start, nextUnwritten);
    assert unwritten == Max(nextUnwritten, start + w.right);
    assert done + ([w] + Plan(counts, next, unwritten)) == done + [w] + Plan(counts, next, unwritten);
  }

  lemma LayLast(counts: seq<nat>, start: nat, nextUnwritten: nat, done: seq<Window>, whole: seq<Window>, w: Window)
    requires Continues(counts, start, nextUnwritten, done, whole)
    requires w == WindowAt(counts, start, nextUnwritten) && w.end == |counts|
    ensures whole == done + [w]
  {
    PlanHead(counts, start, nextUnwritten);
  }

  ghost predicate Holds<T(!new)>(ok: T -> bool, output: seq<Option<T>>) {
    forall p :: 0 <= p < |output| && output[p].Some? ==> ok(output[p].value)
  }

  /** A property of all predictions is a property of the stitched output. */
  lemma {:induction false} StitchKeeps<T(!new)>(output: seq<Option<T>>, plan: seq<Window>, predict: Window -> seq<T>,
                                                ok: T -> bool)
    requires AllFit(|output|, plan, predict) && Holds(ok, output)
    requires forall w, j :: 0 <= j < |predict(w)| ==> ok(predict(w)[j])
    ensures Holds(ok, Stitch(output, plan, predict))
    decreases |plan|
  {
    if plan != [] {
      var written := WriteOwned(output, plan[0], predict(plan[0]));
      forall p | 0 <= p < |written| && written[p].Some? ensures ok(written[p].value) {
        if Owns(plan[0], p) {
          assert written[p].value == predict(plan[0])[p - plan[0].start];
        }
      }
      StitchKeeps(written, plan[1..], predict, ok);
    }
  }
}
