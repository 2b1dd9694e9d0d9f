/** What a plan of windows is, in terms of subword sums alone, and what the overlap is for. */
module WindowPlans {
  import opened Base
  import opened Windows

  /** The window is as long as 510 subwords allow. */
  ghost predicate EndsRight(counts: seq<nat>, w: Window) {
    && w.start < w.end <= |counts| && Sum(counts[w.start..w.end]) <= 510
    && (w.end < |counts| ==> Sum(counts[w.start..w.end + 1]) > 510)
  }

  /** Word `j` has 64 subwords up to the end of the window, or is its first. */
  ghost predicate SeesRight(counts: seq<nat>, w: Window, j: int)
    requires w.start <= j <= w.end <= |counts|
  {
    j == w.start || Sum(counts[j..w.end]) >= 64
  }

  /** Word `j` has 64 subwords in front of it in the window, or is not yet written. */
  ghost predicate SeesLeft(counts: seq<nat>, w: Window, unwritten: nat, j: int)
    requires w.start <= j <= w.end <= |counts|
  {
    Sum(counts[w.start..j]) >= 64 || unwritten <= j
  }

  /** It keeps its words up to the last with 64 subwords to the window's end, or all of them at the end of the text. */
  ghost predicate KeepsRight(counts: seq<nat>, w: Window)
    requires w.start <= w.end <= |counts|
  {
    if w.end == |counts| then w.right == w.end - w.start
    else
      && 1 <= w.right <= w.end - w.start
      && forall j :: w.start <= j < w.end ==> (j < w.start + w.right <==> SeesRight(counts, w, j))
  }

  /** It keeps its words from the first that has 64 subwords in front of it or is not yet written. */
  ghost predicate KeepsLeft(counts: seq<nat>, w: Window, unwritten: nat)
    requires w.start <= w.end <= |counts|
  {
    if w.start == 0 then w.left == 0
    else
      && w.left <= w.end - w.start
      && forall j :: w.start <= j < w.end ==> (w.start + w.left <= j <==> SeesLeft(counts, w, unwritten, j))
  }

  /** The next window starts one word further or repeats at least 128 subwords, and no more words than that takes. */
  ghost predicate StartsNext(counts: seq<nat>, v: Window, start: nat)
    requires v.start <= v.end <= |counts|
  {
    && v.start < start <= v.end
    && (start == v.start + 1 || Sum(counts[start..v.end]) >= 128)
    && forall s :: start < s <= v.end ==> Sum(counts[s..v.end]) < 128
  }

  ghost predicate WindowOf(counts: seq<nat>, w: Window) {
    EndsRight(counts, w) && KeepsRight(counts, w)
  }

  ghost predicate Succeeds(counts: seq<nat>, v: Window, w: Window) {
    && WindowOf(counts, v) && WindowOf(counts, w) && v.end < |counts|
    && StartsNext(counts, v, w.start) && KeepsLeft(counts, w, v.start + v.right)
  }

  /** A plan from `start` on, when the words before `unwritten` are written. */
  ghost predicate IsPlan(counts: seq<nat>, plan: seq<Window>, start: nat, unwritten: nat) {
    && plan != [] && plan[0].start == start && plan[|plan| - 1].end == |counts|
    && WindowOf(counts, plan[0]) && KeepsLeft(counts, plan[0], unwritten)
    && forall k :: 0 <= k < |plan| - 1 ==> Succeeds(counts, plan[k], plan[k + 1])
  }

  // ----- the plan that the loop lays is one -----

  lemma EndIsRight(counts: seq<nat>, w: Window)
    requires ValidCounts(counts) && w.start < |counts| && w.end == EndFrom(counts, w.start, w.start)
    ensures EndsRight(counts, w)
  {
    hide EndFrom, Sum;
    var end := WindowIsFull(counts, w.start);
  }

  lemma RightIsKept(counts: seq<nat>, w: Window)
    requires w.start < w.end <= |counts| && w.right == OwnedRight(counts, w.start, w.end)
    ensures KeepsRight(counts, w)
  {
    if w.end < |counts| {
      RightContext(counts, w.start, w.end);
      forall j | w.start <= j < w.end ensures j < w.start + w.right <==> SeesRight(counts, w, j) {
        assert HasContext(counts, w.start, w.end, j) <==> SeesRight(counts, w, j);
      }
    }
  }

  lemma LeftIsKept(counts: seq<nat>, w: Window, unwritten: nat)
    requires w.start < w.end <= |counts| && w.start <= unwritten
    requires w.left == OwnedLeft(counts, w.start, w.end, unwritten)
    ensures KeepsLeft(counts, w, unwritten)
  {
    if w.start > 0 {
      forall j | w.start <= j < w.end ensures w.start + w.left <= j <==> SeesLeft(counts, w, unwritten, j) {
        LeftContext(counts, w.start, w.end, unwritten, j);
      }
    }
  }

  lemma HeadEnds(counts: seq<nat>, start: nat, unwritten: nat)
    requires Reached(counts, start, unwritten)
    ensures var plan := Plan(counts, start, unwritten);
            && plan != [] && plan[0].start == start
            && WindowOf(counts, plan[0]) && KeepsLeft(counts, plan[0], unwritten)
  {
    PlanHead(counts, start, unwritten);
    var w := Plan(counts, start, unwritten)[0];
    EndIsRight(counts, w);
    RightIsKept(counts, w);
    LeftIsKept(counts, w, unwritten);
  }

  lemma StartIsNext(counts: seq<nat>, v: Window)
    requires v.start < v.end < |counts|
    ensures StartsNext(counts, v, NextStart(counts, v.start, v.end))
  {
    var start, m := NextStart(counts, v.start, v.end), RightMargin(counts, v.start, v.end, 128);
    RightMarginSums(counts, v.start, v.end, 128);
    forall s | start < s <= v.end ensures Sum(counts[s..v.end]) < 128 {
      if m > 1 {
        SumSplit(counts, v.end - (m - 1), s, v.end);
      } else {
        assert counts[s..v.end] == [];
      }
    }
  }

  lemma PlanOfOne(counts: seq<nat>, v: Window, start: nat, unwritten: nat)
    requires v.start == start && WindowOf(counts, v) && KeepsLeft(counts, v, unwritten) && v.end == |counts|
    ensures IsPlan(counts, [v], start, unwritten)
  {
  }

  lemma PlanOneMore(counts: seq<nat>, v: Window, rest: seq<Window>, start: nat, unwritten: nat, plan: seq<Window>)
    requires v.start == start && WindowOf(counts, v) && KeepsLeft(counts, v, unwritten) && v.end < |counts|
    requires rest != [] && StartsNext(counts, v, rest[0].start)
    requires IsPlan(counts, rest, rest[0].start, v.start + v.right) && plan == [v] + rest
    ensures IsPlan(counts, plan, start, unwritten)
  {
    forall k | 0 <= k < |plan| - 1 ensures Succeeds(counts, plan[k], plan[k + 1]) {
      if k > 0 {
        assert Succeeds(counts, rest[k - 1], rest[(k - 1) + 1]);
      }
    }
  }

  /** The windows of the loop satisfy every clause of `IsPlan`. */
  lemma {:induction false} PlanIsPlan(counts: seq<nat>, start: nat, unwritten: nat, plan: seq<Window>)
    requires Reached(counts, start, unwritten) && plan == Plan(counts, start, unwritten)
    ensures IsPlan(counts, plan, start, unwritten)
    decreases |counts| - start
  {
    hide Plan, EndFrom, OwnedLeft, OwnedRight, NextStart, Sum;
    var v := HeadOf(counts, start, unwritten);
    if v.end < |counts| {
      var next, written, rest := TailOf(counts, start, unwritten, v);
      PlanIsPlan(counts, next, written, rest);
      PlanOneMore(counts, v, rest, start, unwritten, plan);
    } else {
      PlanOfOne(counts, v, start, unwritten);
    }
  }

  lemma HeadOf(counts: seq<nat>, start: nat, unwritten: nat) returns (v: Window)
    requires Reached(counts, start, unwritten)
    ensures |Plan(counts, start, unwritten)| > 0 && v == Plan(counts, start, unwritten)[0] && v.start == start
    ensures WindowOf(counts, v) && KeepsLeft(counts, v, unwritten) && v.end == EndFrom(counts, start, start)
    ensures v.end == |counts| ==> Plan(counts, start, unwritten) == [v]
  {
    PlanHead(counts, start, unwritten);
    HeadEnds(counts, start, unwritten);
    v := Plan(counts, start, unwritten)[0];
  }

  lemma TailOf(counts: seq<nat>, start: nat, unwritten: nat, v: Window)
    returns (next: nat, written: nat, rest: seq<Window>)
    requires Reached(counts, start, unwritten) && |Plan(counts, start, unwritten)| > 0
    requires v == Plan(counts, start, unwritten)[0] && v.start == start < v.end < |counts|
    requires v.end == EndFrom(counts, start, start)
    ensures start < next && Reached(counts, next, written) && written == start + v.right
    ensures rest == Plan(counts, next, written) && rest != [] && rest[0].start == next
    ensures StartsNext(counts, v, next) && Plan(counts, start, unwritten) == [v] + rest
  {
    next, written := PlanTail(counts, start, unwritten);
    PlanHead(counts, next, written);
    StartIsNext(counts, v);
    rest := Plan(counts, next, written);
  }

  // ----- and there is no other -----

  lemma OneEnd(counts: seq<nat>, v: Window, w: Window)
    requires EndsRight(counts, v) && EndsRight(counts, w) && v.start == w.start
    ensures v.end <= w.end
  {
    if w.end < v.end {
      SumSplit(counts, v.start, w.end + 1, v.end);
    }
  }

  lemma OneRight(counts: seq<nat>, v: Window, w: Window)
    requires v.start < v.end <= |counts| && v.start == w.start && v.end == w.end
    requires KeepsRight(counts, v) && KeepsRight(counts, w)
    ensures v.right == w.right
  {
    if v.end < |counts| {
      var j := v.start + Min(v.right, w.right);
      assert j < v.end ==> SeesRight(counts, v, j) == SeesRight(counts, w, j);
    }
  }

  lemma OneLeft(counts: seq<nat>, v: Window, w: Window, unwritten: nat)
    requires v.start < v.end <= |counts| && v.start == w.start && v.end == w.end
    requires KeepsLeft(counts, v, unwritten) && KeepsLeft(counts, w, unwritten)
    ensures v.left == w.left
  {
    if v.start > 0 {
      var j := v.start + Min(v.left, w.left);
      assert j < v.end ==> SeesLeft(counts, v, unwritten, j) == SeesLeft(counts, w, unwritten, j);
    }
  }

  lemma OneWindow(counts: seq<nat>, v: Window, w: Window, unwritten: nat)
    requires WindowOf(counts, v) && WindowOf(counts, w) && v.start == w.start
    requires KeepsLeft(counts, v, unwritten) && KeepsLeft(counts, w, unwritten)
    ensures v == w
  {
    OneEnd(counts, v, w);
    OneEnd(counts, w, v);
    OneRight(counts, v, w);
    OneLeft(counts, v, w, unwritten);
  }

  lemma OneNext(counts: seq<nat>, v: Window, a: nat, b: nat)
    requires v.start <= v.end <= |counts| && StartsNext(counts, v, a) && StartsNext(counts, v, b)
    ensures a == b
  {
  }

  lemma NextAgrees(counts: seq<nat>, v: Window, a: Window, b: Window)
    requires Succeeds(counts, v, a) && Succeeds(counts, v, b)
    ensures a == b
  {
    OneNext(counts, v, a.start, b.start);
    OneWindow(counts, a, b, v.start + v.right);
  }

  /** Any two plans agree window by window, so the clauses of `IsPlan` determine which inputs the model sees. */
  lemma {:induction false} PlansAgree(counts: seq<nat>, a: seq<Window>, b: seq<Window>, start: nat, unwritten: nat,
                                      k: nat)
    requires IsPlan(counts, a, start, unwritten) && IsPlan(counts, b, start, unwritten)
    requires k < |a| && k < |b|
    ensures a[k] == b[k]
  {
    if k == 0 {
      OneWindow(counts, a[0], b[0], unwritten);
    } else {
      PlansAgree(counts, a, b, start, unwritten, k - 1);
      assert Succeeds(counts, a[k - 1], a[(k - 1) + 1]) && Succeeds(counts, b[k - 1], b[(k - 1) + 1]);
      NextAgrees(counts, a[k - 1], a[k], b[k]);
    }
  }

  /** One plan cannot be longer than another. */
  lemma NotLonger(counts: seq<nat>, a: seq<Window>, b: seq<Window>, start: nat, unwritten: nat)
    requires IsPlan(counts, a, start, unwritten) && IsPlan(counts, b, start, unwritten)
    ensures |a| <= |b|
  {
    var n := |b|;
    if n < |a| {
      PlansAgree(counts, a, b, start, unwritten, n - 1);
    }
    assert n < |a| ==> Succeeds(counts, a[n - 1], a[(n - 1) + 1]);
  }

  /** The plan that the loop lays is the only one. */
  lemma PlanIsUnique(counts: seq<nat>, start: nat, unwritten: nat, plan: seq<Window>)
    requires Reached(counts, start, unwritten) && IsPlan(counts, plan, start, unwritten)
    ensures plan == Plan(counts, start, unwritten)
  {
    hide Plan, EndFrom, OwnedLeft, OwnedRight, NextStart, Sum;
    var laid := Plan(counts, start, unwritten);
    PlanIsPlan(counts, start, unwritten, laid);
    NotLonger(counts, laid, plan, start, unwritten);
    NotLonger(counts, plan, laid, start, unwritten);
    forall k | 0 <= k < |plan| ensures laid[k] == plan[k] {
      PlansAgree(counts, laid, plan, start, unwritten, k);
    }
  }

  // ----- what the overlap is for -----

  /** Unless the windows advance word by word, every word a later window keeps has 64 subwords of left context. */
  lemma OverlapGivesContext(counts: seq<nat>, v: Window, w: Window, j: nat)
    requires Succeeds(counts, v, w) && w.start != v.start + 1 && Owns(w, j)
    requires KeepsRight(counts, w) && w.start + w.right <= w.end
    ensures Sum(counts[w.start..j]) >= 64
  {
    var edge := v.start + v.right;
    if Sum(counts[w.start..j]) < 64 {
      assert !SeesLeft(counts, w, edge, j) || edge <= j;
      if edge < v.end {
        assert !SeesRight(counts, v, edge);
      } else {
        assert counts[v.end..v.end] == [];
      }
      EdgeInOverlap(counts, v, w);
      SumSplit(counts, w.start, edge, v.end);
      SumSplit(counts, w.start, edge, j);
    }
  }

  /** What the first window kept reaches into the overlap. */
  lemma EdgeInOverlap(counts: seq<nat>, v: Window, w: Window)
    requires Succeeds(counts, v, w) && w.start != v.start + 1
    ensures w.start <= v.start + v.right <= v.end
  {
    assert w.start < v.end ==> SeesRight(counts, v, w.start);
  }

  /** On the plan of a whole text: consecutive windows repeat 128 subwords unless they advance word by word. */
  lemma PlanOverlaps(counts: seq<nat>, k: nat, j: nat)
    requires ValidCounts(counts) && k + 1 < |PlanOf(counts)|
    ensures var v, w := PlanOf(counts)[k], PlanOf(counts)[k + 1];
            && v.start < w.start <= v.end <= |counts| && w.end <= |counts|
            && (w.start == v.start + 1 || Sum(counts[w.start..v.end]) >= 128)
            && (w.start != v.start + 1 && Owns(w, j) ==> j < |counts| && Sum(counts[w.start..j]) >= 64)
  {
    ReachedStart(counts);
    PlanIsPlan(counts, 0, 0, PlanOf(counts));
    var v, w := PlanOf(counts)[k], PlanOf(counts)[k + 1];
    assert Succeeds(counts, v, w);
    if w.start != v.start + 1 && Owns(w, j) {
      OverlapGivesContext(counts, v, w, j);
    }
  }
}
