/** Bounded batching of the word decoder: regroup windows by padded length, infer, replay ownership. */
module Batch {
  import opened Base
  import opened Text
  import opened Words
  import opened Windows
  import opened Entities
  import opened Decoder

  const LENGTH_BUCKETS: seq<nat> := [32, 64, 128, 256, 512]
  const BATCH_BUCKETS: seq<nat> := [1, 2, 4, 8, 16, 32]
  const MAX_DOCUMENTS: nat := 32

  /** `next(b for b in buckets if b >= n)`: the index of the first bucket from `i` on that is large enough. */
  function NextBucket(buckets: seq<nat>, n: nat, i: nat): (r: Option<nat>)
    requires i <= |buckets|
    ensures r.Some? ==> i <= r.value < |buckets| && n <= buckets[r.value]
    ensures r.Some? ==> forall j :: i <= j < r.value ==> buckets[j] < n
    ensures r.None? ==> forall j :: i <= j < |buckets| ==> buckets[j] < n
    decreases |buckets| - i
  {
    if i == |buckets| then None
    else if buckets[i] >= n then Some(i)
    else NextBucket(buckets, n, i + 1)
  }

  /** Every window fits a length bucket and every batch fits a batch bucket. */
  lemma BucketsSuffice(tokens: nat, batch: nat)
    requires tokens <= BUDGET && batch <= 32
    ensures NextBucket(LENGTH_BUCKETS, tokens + 2, 0).Some? && NextBucket(BATCH_BUCKETS, batch, 0).Some?
  {
    assert LENGTH_BUCKETS[4] == 512 && BATCH_BUCKETS[5] == 32;
  }

  /** Everything about a window that inference needs. */
  datatype Task = Task(tokens: seq<int>, positions: seq<nat>, window: Window)

  ghost predicate ValidTask(t: Task) {
    && |t.tokens| <= BUDGET
    && |t.positions| == t.window.end - t.window.start && t.window.start <= t.window.end
    && t.window.left <= t.window.right <= |t.positions|
    && forall j :: 0 <= j < |t.positions| ==> t.positions[j] < |t.tokens| + 2
  }

  class Document {
    const text: string
    const words: seq<Word>
    const active: seq<nat>
    var visible: seq<Option<Prediction>>

    constructor (text: string, words: seq<Word>, active: seq<nat>)
      ensures this.text == text && this.words == words && this.active == active
      ensures visible == Unwritten(|active|)
    {
      this.text, this.words, this.active := text, words, active;
      this.visible := Unwritten(|active|);
    }
  }

  class WindowSlot {
    const document: Document
    const task: Task
    var predicted: Option<seq<Prediction>>

    constructor (document: Document, task: Task)
      ensures this.document == document && this.task == task && predicted == None
    {
      this.document, this.task, this.predicted := document, task, None;
    }
  }

  // ----- one batch -----

  function Zeros(n: nat): seq<bool> {
    seq(n, _ => false)
  }

  function PadTo(rt: Runtime, item: seq<int>, length: nat): (r: seq<int>)
    requires |item| <= length
    ensures |r| == length && r[..|item|] == item
  {
    item + seq(length - |item|, _ => rt.pad)
  }

  /** Row `r` attends to its first `c` positions only. */
  ghost predicate AttendsTo(attention: seq<bool>, c: nat) {
    c <= |attention| && attention[..c] == Ones(c) && forall p :: c <= p < |attention| ==> !attention[p]
  }

  /**
   * The assumption on the network: what it answers for the attended positions of a row depends on
   * these positions alone, neither on the padding behind them nor on the other rows.
   */
  ghost predicate PaddingIndependent(rt: Runtime) {
    forall ids: seq<seq<int>>, attention: seq<seq<bool>>, r: nat, c: nat ::
      |ids| == |attention| && r < |ids| && |attention[r]| == |ids[r]| && AttendsTo(attention[r], c)
      && |rt.run(ids, attention)| == |ids| && |rt.run(ids, attention)[r]| == |ids[r]|
      && |rt.run([ids[r][..c]], [Ones(c)])| == 1
      ==> RowAgrees(rt.run(ids, attention)[r], rt.run([ids[r][..c]], [Ones(c)])[0], c)
  }

  ghost predicate RowAgrees(padded: seq<Row>, single: seq<Row>, c: nat) {
    c <= |padded| && c <= |single| && forall p :: 0 <= p < c ==> padded[p] == single[p]
  }

  /** Tokens of row `r`; the rows behind the windows are dummies without tokens. */
  function RowTokens(slots: seq<Task>, r: nat): seq<int> {
    if r < |slots| then slots[r].tokens else []
  }

  /** `_batch_inputs`: pads every row to the bucket length and the batch to the bucket size. */
  method BatchInputs(rt: Runtime, tasks: seq<Task>, length: nat)
    returns (ids: seq<seq<int>>, attention: seq<seq<bool>>)
    requires 0 < |tasks| <= 32
    requires forall k :: 0 <= k < |tasks| ==> |tasks[k].tokens| + 2 <= length
    requires 2 <= length
    ensures |ids| == |attention| && |tasks| <= |ids| && NextBucket(BATCH_BUCKETS, |tasks|, 0).Some?
    ensures |ids| == BATCH_BUCKETS[NextBucket(BATCH_BUCKETS, |tasks|, 0).value]
    ensures forall r :: 0 <= r < |ids| ==> IsRow(rt, RowTokens(tasks, r), length, ids[r], attention[r])
  {
    BucketsSuffice(0, |tasks|);
    var size := BATCH_BUCKETS[NextBucket(BATCH_BUCKETS, |tasks|, 0).value];
    ids, attention := [], [];
    for row := 0 to size
      invariant |ids| == row && |attention| == row
      invariant forall r :: 0 <= r < row ==> IsRow(rt, RowTokens(tasks, r), length, ids[r], attention[r])
    {
      var item := WithSpecials(rt, RowTokens(tasks, row));
      ids := ids + [PadTo(rt, item, length)];
      attention := attention + [Ones(|item|) + Zeros(length - |item|)];
    }
  }

  ghost predicate IsRow(rt: Runtime, tokens: seq<int>, length: nat, ids: seq<int>, attention: seq<bool>) {
    && |tokens| + 2 <= length && |ids| == length && |attention| == length
    && ids[..|tokens| + 2] == WithSpecials(rt, tokens) && AttendsTo(attention, |tokens| + 2)
    && forall p :: |tokens| + 2 <= p < length ==> ids[p] == rt.pad
  }

  /** A padded row reads like the window inferred on its own. */
  lemma RowReadsLikeSingle(rt: Runtime, task: Task, length: nat, ids: seq<seq<int>>, attention: seq<seq<bool>>, r: nat)
    requires WellShaped(rt) && PaddingIndependent(rt) && ValidTask(task)
    requires |ids| == |attention| && r < |ids| && IsRow(rt, task.tokens, length, ids[r], attention[r])
    ensures |rt.run(ids, attention)| == |ids| && |rt.run(ids, attention)[r]| == length
    ensures ReadAt(rt, rt.run(ids, attention)[r], task.positions) == ReadAt(rt, Single(rt, task.tokens), task.positions)
  {
    var c := |task.tokens| + 2;
    assert ids[r][..c] == WithSpecials(rt, task.tokens);
    assert |rt.run([ids[r][..c]], [Ones(c)])| == 1;
    assert RowAgrees(rt.run(ids, attention)[r], Single(rt, task.tokens), c);
  }

  ghost function TaskPrediction(rt: Runtime, t: Task): (r: seq<Prediction>)
    requires WellShaped(rt) && ValidTask(t)
    ensures |r| == |t.positions|
  {
    ReadAt(rt, Single(rt, t.tokens), t.positions)
  }

  lemma BatchReadsLikeSingles(rt: Runtime, tasks: seq<Task>, length: nat, ids: seq<seq<int>>, attention: seq<seq<bool>>)
    requires WellShaped(rt) && PaddingIndependent(rt) && forall k :: 0 <= k < |tasks| ==> ValidTask(tasks[k])
    requires |ids| == |attention| && |tasks| <= |ids|
    requires forall r :: 0 <= r < |ids| ==> IsRow(rt, RowTokens(tasks, r), length, ids[r], attention[r])
    ensures |rt.run(ids, attention)| == |ids|
    ensures forall k :: 0 <= k < |tasks| ==> ReadsAs(rt, tasks[k], rt.run(ids, attention)[k])
  {
    forall k | 0 <= k < |tasks| ensures ReadsAs(rt, tasks[k], rt.run(ids, attention)[k]) {
      assert IsRow(rt, RowTokens(tasks, k), length, ids[k], attention[k]);
      RowReadsLikeSingle(rt, tasks[k], length, ids, attention, k);
    }
  }

  ghost predicate ReadsAs(rt: Runtime, t: Task, logits: seq<Row>)
    requires WellShaped(rt) && ValidTask(t)
  {
    (forall j :: 0 <= j < |t.positions| ==> t.positions[j] < |logits|)
    && ReadAt(rt, logits, t.positions) == TaskPrediction(rt, t)
  }

  ghost predicate Predicted(rt: Runtime, slot: WindowSlot)
    requires WellShaped(rt)
    reads slot
  {
    ValidTask(slot.task) && slot.predicted == Some(TaskPrediction(rt, slot.task))
  }

  /** `_predict_batch`: fills in the predictions of windows that had none. */
  method PredictBatch(rt: Runtime, slots: seq<WindowSlot>, length: nat)
    requires WellShaped(rt) && PaddingIndependent(rt)
    requires 0 < |slots| <= 32 && 2 <= length && NoDuplicates(slots)
    requires forall k :: 0 <= k < |slots| ==>
               ValidTask(slots[k].task) && |slots[k].task.tokens| + 2 <= length && slots[k].predicted == None
    modifies slots
    ensures forall k :: 0 <= k < |slots| ==> Predicted(rt, slots[k])
  {
    var tasks := seq(|slots|, k requires 0 <= k < |slots| => slots[k].task);
    var ids, attention := BatchInputs(rt, tasks, length);
    var logits := rt.run(ids, attention);
    BatchReadsLikeSingles(rt, tasks, length, ids, attention);
    assert forall k :: 0 <= k < |slots| ==> ReadsAs(rt, tasks[k], logits[k]);
    var results := seq(|slots|, k requires 0 <= k < |slots| => ReadAt(rt, logits[k], tasks[k].positions));
    FillIn(slots, results);
    forall k | 0 <= k < |slots| ensures Predicted(rt, slots[k]) {
      assert ReadsAs(rt, tasks[k], logits[k]);
    }
  }

  /** Assigns each row's result to its window. */
  method FillIn(slots: seq<WindowSlot>, results: seq<seq<Prediction>>)
    requires |results| == |slots| && NoDuplicates(slots)
    requires forall k :: 0 <= k < |slots| ==> slots[k].predicted == None
    modifies slots
    ensures forall k :: 0 <= k < |slots| ==> slots[k].predicted == Some(results[k])
  {
    for row := 0 to |slots|
      invariant forall k :: 0 <= k < row ==> slots[k].predicted == Some(results[k])
      invariant forall k :: row <= k < |slots| ==> slots[k].predicted == None
    {
      slots[row].predicted := Some(results[row]);
    }
  }

  // ----- grouping by padded length -----

  /** One entry of the dictionary from length bucket to windows. */
  datatype Group = Group(length: nat, members: seq<WindowSlot>)

  ghost function Flat(groups: seq<Group>): seq<WindowSlot> {
    if groups == [] then [] else Flat(groups[..|groups| - 1]) + groups[|groups| - 1].members
  }

  lemma {:induction false} FlatSplit(groups: seq<Group>, g: nat)
    requires g < |groups|
    ensures |Flat(groups[..g])| + |groups[g].members| <= |Flat(groups)|
    ensures forall i :: 0 <= i < |Flat(groups[..g])| ==> Flat(groups)[i] == Flat(groups[..g])[i]
    ensures forall i :: 0 <= i < |groups[g].members| ==> Flat(groups)[|Flat(groups[..g])| + i] == groups[g].members[i]
  {
    var n := |groups| - 1;
    if g < n {
      FlatSplit(groups[..n], g);
      assert groups[..n][..g] == groups[..g];
    }
  }

  lemma FlatSnoc(groups: seq<Group>, last: Group)
    ensures multiset(Flat(groups + [last])) == multiset(Flat(groups)) + multiset(last.members)
  {
    assert (groups + [last])[..|groups|] == groups;
    MembersAdd(Flat(groups), last.members);
  }

  /** Adding to the last group, or to some group in front of it, adds to the whole. */
  lemma FlatUpdateLast(init: seq<Group>, last: Group, slot: WindowSlot)
    ensures multiset(Flat(init + [Group(last.length, last.members + [slot])]))
         == multiset(Flat(init + [last])) + multiset{slot}
  {
    FlatSnoc(init, last);
    FlatSnoc(init, Group(last.length, last.members + [slot]));
    MembersAdd(last.members, [slot]);
  }

  lemma FlatUpdateInit(updated: seq<Group>, init: seq<Group>, last: Group, slot: WindowSlot)
    requires multiset(Flat(updated)) == multiset(Flat(init)) + multiset{slot}
    ensures multiset(Flat(updated + [last])) == multiset(Flat(init + [last])) + multiset{slot}
  {
    FlatSnoc(init, last);
    FlatSnoc(updated, last);
  }

  lemma {:induction false} FlatUpdate(groups: seq<Group>, g: nat, slot: WindowSlot)
    requires g < |groups|
    ensures var updated := groups[g := Group(groups[g].length, groups[g].members + [slot])];
            multiset(Flat(updated)) == multiset(Flat(groups)) + multiset{slot}
  {
    var init, last := groups[..|groups| - 1], groups[|groups| - 1];
    var added := Group(groups[g].length, groups[g].members + [slot]);
    assert groups == init + [last];
    if g < |init| {
      FlatUpdate(init, g, slot);
      assert groups[g := added] == init[g := added] + [last];
      FlatUpdateInit(init[g := added], init, last, slot);
    } else {
      assert groups[g := added] == init + [added];
      FlatUpdateLast(init, last, slot);
    }
  }

  lemma MembersAdd<T>(a: seq<T>, b: seq<T>)
    ensures multiset(a + b) == multiset(a) + multiset(b)
  {
  }

  /** The smallest of the five lengths, each twice the one before, that holds the tokens and the two special ones. */
  ghost predicate SmallestLength(length: nat, tokens: nat) {
    length in {32, 64, 128, 256, 512} && tokens + 2 <= length && (length == 32 || length < 2 * (tokens + 2))
  }

  /** Every member of a group belongs to its length. */
  ghost predicate FittingGroup(group: Group) {
    && group.members != []
    && forall k :: 0 <= k < |group.members| ==>
         ValidTask(group.members[k].task) && SmallestLength(group.length, |group.members[k].task.tokens|)
  }

  lemma BucketIsSmallest(tokens: nat) returns (bucket: nat)
    requires tokens <= BUDGET
    ensures NextBucket(LENGTH_BUCKETS, tokens + 2, 0).Some?
    ensures bucket == LENGTH_BUCKETS[NextBucket(LENGTH_BUCKETS, tokens + 2, 0).value]
    ensures SmallestLength(bucket, tokens)
  {
    BucketsSuffice(tokens, 1);
    var i := NextBucket(LENGTH_BUCKETS, tokens + 2, 0).value;
    bucket := LENGTH_BUCKETS[i];
    assert LENGTH_BUCKETS[0] == 32 && LENGTH_BUCKETS[1] == 64 && LENGTH_BUCKETS[2] == 128 && LENGTH_BUCKETS[3] == 256;
  }

  lemma GroupIsUsable(group: Group)
    requires FittingGroup(group)
    ensures 2 <= group.length
    ensures forall k :: 0 <= k < |group.members| ==> |group.members[k].task.tokens| + 2 <= group.length
  {
    assert SmallestLength(group.length, |group.members[0].task.tokens|);
  }

  ghost predicate AllFitting(groups: seq<Group>) {
    forall g :: 0 <= g < |groups| ==> FittingGroup(groups[g])
  }

  /** Puts every window into the group of its length bucket; every bucket lookup succeeds. */
  method GroupWindows(windows: seq<WindowSlot>) returns (groups: seq<Group>)
    requires forall k :: 0 <= k < |windows| ==> ValidTask(windows[k].task)
    ensures multiset(Flat(groups)) == multiset(windows)
    ensures AllFitting(groups)
  {
    groups := [];
    for n := 0 to |windows|
      invariant multiset(Flat(groups)) == multiset(windows[..n]) && AllFitting(groups)
    {
      assert windows[..n + 1] == windows[..n] + [windows[n]];
      groups := GroupOne(groups, windows[n]);
    }
    assert windows[..|windows|] == windows;
  }

  /** Finds the length bucket of one window and adds it to the bucket's group. */
  method GroupOne(groups: seq<Group>, slot: WindowSlot) returns (r: seq<Group>)
    requires AllFitting(groups) && ValidTask(slot.task)
    ensures multiset(Flat(r)) == multiset(Flat(groups)) + multiset{slot} && AllFitting(r)
  {
    ghost var smallest := BucketIsSmallest(|slot.task.tokens|);
    var bucket := LENGTH_BUCKETS[NextBucket(LENGTH_BUCKETS, |slot.task.tokens| + 2, 0).value];
    r := AddToGroup(groups, bucket, slot);
  }

  /** `grouped[bucket].append(window)` on a `defaultdict(list)`. */
  method AddToGroup(groups: seq<Group>, bucket: nat, slot: WindowSlot) returns (r: seq<Group>)
    requires AllFitting(groups)
    requires ValidTask(slot.task) && SmallestLength(bucket, |slot.task.tokens|)
    ensures multiset(Flat(r)) == multiset(Flat(groups)) + multiset{slot} && AllFitting(r)
  {
    var g := 0;
    while g < |groups| && groups[g].length != bucket
      invariant 0 <= g <= |groups|
    {
      g := g + 1;
    }
    if g < |groups| {
      FlatUpdate(groups, g, slot);
      FitsExtended(groups[g], slot);
      FittingUpdated(groups, g, Group(bucket, groups[g].members + [slot]));
      r := groups[g := Group(bucket, groups[g].members + [slot])];
    } else {
      FlatSnoc(groups, Group(bucket, [slot]));
      FittingAppended(groups, Group(bucket, [slot]));
      r := groups + [Group(bucket, [slot])];
    }
  }

  lemma FittingUpdated(groups: seq<Group>, g: nat, group: Group)
    requires AllFitting(groups) && g < |groups| && FittingGroup(group)
    ensures AllFitting(groups[g := group])
  {
  }

  lemma FittingAppended(groups: seq<Group>, group: Group)
    requires AllFitting(groups) && FittingGroup(group)
    ensures AllFitting(groups + [group])
  {
  }

  lemma FitsExtended(group: Group, slot: WindowSlot)
    requires FittingGroup(group) && ValidTask(slot.task) && SmallestLength(group.length, |slot.task.tokens|)
    ensures FittingGroup(Group(group.length, group.members + [slot]))
  {
  }

  ghost predicate DoneUpTo(rt: Runtime, flat: seq<WindowSlot>, done: nat)
    requires WellShaped(rt) && done <= |flat|
    reads flat
  {
    && (forall i :: 0 <= i < done ==> Predicted(rt, flat[i]))
    && (forall i :: done <= i < |flat| ==> flat[i].predicted == None)
  }

  /**
   * Infers group by group in chunks of at most `maxBatch`. Every window had no prediction before its
   * chunk and has its own one afterwards, so each is predicted exactly once.
   */
  method PredictAll(rt: Runtime, windows: seq<WindowSlot>, maxBatch: nat)
    requires WellShaped(rt) && PaddingIndependent(rt) && maxBatch in BATCH_BUCKETS
    requires NoDuplicates(windows)
    requires forall k :: 0 <= k < |windows| ==> ValidTask(windows[k].task) && windows[k].predicted == None
    modifies windows
    ensures forall k :: 0 <= k < |windows| ==> Predicted(rt, windows[k])
  {
    var groups := GroupWindows(windows);
    ghost var flat := Flat(groups);
    PermutationKeepsDistinct(windows, flat);
    SameElements(flat, windows);
    ghost var done: nat := 0;
    forall i | 0 <= i < |flat| ensures flat[i] in windows {
      assert flat[i] in ToSet(flat);
    }
    for g := 0 to |groups|
      invariant done == |Flat(groups[..g])| <= |flat|
      invariant DoneUpTo(rt, flat, done)
    {
      FlatSplit(groups, g);
      assert groups[..g + 1][..g] == groups[..g];
      PredictGroup(rt, groups[g], maxBatch, flat, done, windows);
      done := done + |groups[g].members|;
    }
    assert groups[..|groups|] == groups;
    forall k | 0 <= k < |windows| ensures Predicted(rt, windows[k]) {
      assert windows[k] in ToSet(flat);
      var i :| 0 <= i < |flat| && flat[i] == windows[k];
    }
  }

  /** One group, in chunks. */
  method PredictGroup(rt: Runtime, group: Group, maxBatch: nat, ghost flat: seq<WindowSlot>, ghost offset: nat,
                      ghost windows: seq<WindowSlot>)
    requires WellShaped(rt) && PaddingIndependent(rt) && 1 <= maxBatch <= 32
    requires FittingGroup(group) && NoDuplicates(flat) && offset + |group.members| <= |flat|
    requires forall i :: 0 <= i < |group.members| ==> flat[offset + i] == group.members[i]
    requires forall i :: 0 <= i < |flat| ==> flat[i] in windows
    requires DoneUpTo(rt, flat, offset)
    modifies windows
    ensures DoneUpTo(rt, flat, offset + |group.members|)
  {
    GroupIsUsable(group);
    var start := 0;
    while start < |group.members|
      invariant 0 <= start <= |group.members|
      invariant DoneUpTo(rt, flat, offset + start)
    {
      var stop := Min(start + maxBatch, |group.members|);
      PredictChunk(rt, group.members[start..stop], maxBatch, group.length, flat, offset + start, windows);
      start := stop;
    }
  }

  /** One model call: the chunk moves from "not predicted" to "predicted" and nothing else changes. */
  method PredictChunk(rt: Runtime, chunk: seq<WindowSlot>, ghost maxBatch: nat, length: nat,
                      ghost flat: seq<WindowSlot>, ghost at: nat, ghost windows: seq<WindowSlot>)
    requires WellShaped(rt) && PaddingIndependent(rt) && 0 < |chunk| <= maxBatch <= 32 && 2 <= length
    requires NoDuplicates(flat) && at + |chunk| <= |flat|
    requires forall i :: 0 <= i < |chunk| ==> flat[at + i] == chunk[i]
    requires forall i :: 0 <= i < |chunk| ==> ValidTask(chunk[i].task) && |chunk[i].task.tokens| + 2 <= length
    requires forall i :: 0 <= i < |flat| ==> flat[i] in windows
    requires DoneUpTo(rt, flat, at)
    modifies windows
    ensures DoneUpTo(rt, flat, at + |chunk|)
  {
    forall i, j | 0 <= i < j < |chunk| ensures chunk[i] != chunk[j] {
      assert flat[at + i] != flat[at + j];
    }
    forall c | c in chunk ensures c in windows {
      var i :| 0 <= i < |chunk| && chunk[i] == c;
      assert flat[at + i] in windows;
    }
    forall i | 0 <= i < |chunk| ensures chunk[i].predicted == None {
      assert flat[at + i].predicted == None;
    }
    PredictBatch(rt, chunk, length);
    forall i | 0 <= i < |flat| && !(at <= i < at + |chunk|) ensures flat[i] !in chunk {
      forall j | 0 <= j < |chunk| ensures flat[i] != chunk[j] {
        assert flat[at + j] == chunk[j];
      }
    }
    forall i | at <= i < at + |chunk| ensures Predicted(rt, flat[i]) {
      assert flat[at + (i - at)] == chunk[i - at];
    }
  }

  // ----- preparing documents -----

  ghost function TaskOf(ids: seq<int>, counts: seq<nat>, w: Window): Task
    requires Sum(counts) == |ids| && w.start <= w.end <= |counts|
  {
    Task(WindowTokens(ids, counts, w), WindowPositions(counts, w), w)
  }

  ghost function TasksFor(ids: seq<int>, counts: seq<nat>, windows: seq<Window>): (r: seq<Task>)
    requires Sum(counts) == |ids| && AllGood(counts, windows)
    ensures |r| == |windows| && forall k :: 0 <= k < |windows| ==> r[k] == TaskOf(ids, counts, windows[k])
  {
    seq(|windows|, k requires 0 <= k < |windows| => TaskOf(ids, counts, windows[k]))
  }

  /**
   * What tokenization leaves of a document: ids, the subword counts of the kept words, and the tasks of its
   * windows.
   */
  datatype DocPlan = DocPlan(ids: seq<int>, counts: seq<nat>, tasks: seq<Task>)

  ghost predicate ValidPlan(plan: DocPlan) {
    && ValidCounts(plan.counts) && Sum(plan.counts) == |plan.ids|
    && plan.tasks == TasksFor(plan.ids, plan.counts, PlanOf(plan.counts))
  }

  lemma TaskMeansWindow(rt: Runtime, ids: seq<int>, counts: seq<nat>, w: Window)
    requires WellShaped(rt) && Sum(counts) == |ids| && GoodWindow(counts, w)
    ensures ValidTask(TaskOf(ids, counts, w))
    ensures TaskPrediction(rt, TaskOf(ids, counts, w)) == Predictor(rt, ids, counts)(w)
  {
  }

  /** The slots of a document carry the given tasks. */
  ghost predicate Carry(slots: seq<WindowSlot>, document: Document, tasks: seq<Task>) {
    && |slots| == |tasks| && NoDuplicates(slots)
    && forall k :: 0 <= k < |slots| ==> slots[k].document == document && slots[k].task == tasks[k]
  }

  ghost predicate NonePredicted(slots: seq<WindowSlot>)
    reads slots
  {
    forall k :: 0 <= k < |slots| ==> slots[k].predicted == None
  }

  /** The slots of a document carry the given tasks, all still without predictions. */
  ghost predicate SlotsOf(slots: seq<WindowSlot>, document: Document, tasks: seq<Task>)
    reads slots
  {
    Carry(slots, document, tasks) && NonePredicted(slots)
  }

  lemma CarryOneMore(slots: seq<WindowSlot>, document: Document, tasks: seq<Task>, n: nat, slot: WindowSlot)
    requires n < |tasks| && Carry(slots, document, tasks[..n]) && slot !in slots
    requires slot.document == document && slot.task == tasks[n]
    ensures Carry(slots + [slot], document, tasks[..n + 1])
  {
  }

  /** The task of one window, cut out of the ids at the word boundaries. */
  method CutTask(ids: seq<int>, counts: seq<nat>, boundaries: seq<nat>, w: Window) returns (task: Task)
    requires Sum(counts) == |ids| && GoodWindow(counts, w)
    requires |boundaries| == |counts| + 1 && forall k :: 0 <= k <= |counts| ==> boundaries[k] == Sum(counts[..k])
    ensures task == TaskOf(ids, counts, w)
  {
    SumPrefixes(counts, w.start, w.end);
    SamePositions(counts, Window(w.start, w.end, 0, 0), w);
    return Task(ids[boundaries[w.start]..boundaries[w.end]], PositionsFrom(counts, boundaries, w.start, w.end), w);
  }

  /** The window loop of `_document_windows`: where each window lies and which slice it owns. */
  method LayWindows(counts: seq<nat>) returns (done: seq<Window>)
    requires ValidCounts(counts) && counts != []
    ensures done == PlanOf(counts)
  {
    var start: nat, nextUnwritten: nat := 0, 0;
    ReachedStart(counts);
    ghost var whole := PlanOf(counts);
    done := [];
    var last := false;
    while !last
      invariant !last ==> Continues(counts, start, nextUnwritten, done, whole)
      invariant last ==> done == whole
      decreases !last, |counts| - start
    {
      var w := OpenWindow(counts, start, nextUnwritten);
      if w.end == |counts| {
        LayLast(counts, start, nextUnwritten, done, whole, w);
        done, last := done + [w], true;
      } else {
        ghost var next, unwritten := LayAndGoOn(counts, start, nextUnwritten, done, whole, w);
        done := done + [w];
        start, nextUnwritten := NextOpening(counts, w, nextUnwritten);
        assert Continues(counts, start, nextUnwritten, done, whole);
      }
    }
  }

  method MakeSlot(document: Document, ids: seq<int>, counts: seq<nat>, boundaries: seq<nat>, w: Window)
    returns (slot: WindowSlot)
    requires Sum(counts) == |ids| && GoodWindow(counts, w)
    requires |boundaries| == |counts| + 1 && forall k :: 0 <= k <= |counts| ==> boundaries[k] == Sum(counts[..k])
    ensures fresh(slot) && slot.document == document && slot.task == TaskOf(ids, counts, w) && slot.predicted == None
  {
    var task := CutTask(ids, counts, boundaries, w);
    slot := new WindowSlot(document, task);
  }

  lemma NoneStillPredicted(slots: seq<WindowSlot>, slot: WindowSlot)
    requires NonePredicted(slots) && slot.predicted == None
    ensures NonePredicted(slots + [slot])
  {
  }

  /** One slot per window, with its tokens and first-subword positions. */
  method MakeSlots(document: Document, ids: seq<int>, counts: seq<nat>, windows: seq<Window>)
    returns (slots: seq<WindowSlot>)
    requires Sum(counts) == |ids| && AllGood(counts, windows)
    ensures SlotsOf(slots, document, TasksFor(ids, counts, windows))
    ensures forall k :: 0 <= k < |slots| ==> fresh(slots[k])
  {
    var boundaries := Boundaries(counts);
    ghost var tasks := TasksFor(ids, counts, windows);
    slots := [];
    for n := 0 to |windows|
      invariant |slots| == n && Carry(slots, document, tasks[..n])
      invariant NonePredicted(slots) && forall k :: 0 <= k < n ==> fresh(slots[k])
    {
      var slot := MakeSlot(document, ids, counts, boundaries, windows[n]);
      CarryOneMore(slots, document, tasks, n, slot);
      NoneStillPredicted(slots, slot);
      slots := slots + [slot];
    }
    assert tasks[..|windows|] == tasks;
  }

  /** `document` and `plan` are what tokenizing `text` yields; a text without words has no plan. */
  ghost predicate Prepared(rt: Runtime, chars: CharTable, text: string, document: Document, plan: DocPlan) {
    && Tiles(SplittingAlphabet(chars), text, |text|, document.words) && document.text == text
    && ValidPlan(plan) && |document.active| == |plan.counts|
    && if document.words == [] then plan.counts == [] && document.active == []
       else
         var texts := WordTexts(document.words);
         && TokenizeOf(rt, texts).Success?
         && plan.ids == TokenizeOf(rt, texts).value.ids
         && plan.counts == ActiveCounts(TokenizeOf(rt, texts).value.counts, |texts|)
         && document.active == ActiveUpTo(TokenizeOf(rt, texts).value.counts, |texts|)
  }

  ghost predicate Tokenizes(rt: Runtime, words: seq<Word>) {
    words == [] || TokenizeOf(rt, WordTexts(words)).Success?
  }

  datatype Preparation = Preparation(document: Document, slots: seq<WindowSlot>)

  /** `_document_windows`. */
  method DocumentWindows(rt: Runtime, chars: CharTable, text: string)
    returns (r: Result<Preparation, DecodeError>, ghost words: seq<Word>, ghost plan: DocPlan)
    ensures Tiles(SplittingAlphabet(chars), text, |text|, words)
    ensures r.Success? <==> Tokenizes(rt, words)
    ensures r.Failure? ==> TokenizeOf(rt, WordTexts(words)) == Failure(r.error)
    ensures r.Success? ==>
              && var d := r.value.document;
              && fresh(d) && d.words == words && d.visible == Unwritten(|plan.counts|)
              && Prepared(rt, chars, text, d, plan)
              && SlotsOf(r.value.slots, d, plan.tasks)
              && forall k :: 0 <= k < |r.value.slots| ==> fresh(r.value.slots[k])
  {
    var tokens := WordsWithOffsets(SplittingAlphabet(chars), text);
    words, plan := tokens, DocPlan([], [], []);
    if tokens == [] {
      var empty := new Document(text, tokens, []);
      return Success(Preparation(empty, [])), words, plan;
    }
    var texts := seq(|tokens|, k requires 0 <= k < |tokens| => tokens[k].text);
    assert texts == WordTexts(tokens);
    var attempt := Tokenize(rt, texts);
    if attempt.Failure? {
      return Failure(attempt.error), words, plan;
    }
    var encoding := attempt.value;
    CountsAddUp(rt, texts);
    var counts := ActiveCounts(encoding.counts, |texts|);
    var document := new Document(text, tokens, ActiveUpTo(encoding.counts, |texts|));
    var slots: seq<WindowSlot> := [];
    if counts != [] {
      var windows := LayWindows(counts);
      slots := MakeSlots(document, encoding.ids, counts, windows);
    }
    plan := DocPlan(encoding.ids, counts, TasksFor(encoding.ids, counts, PlanOf(counts)));
    return Success(Preparation(document, slots)), words, plan;
  }

  // ----- replaying ownership -----

  /** How many of the first `n` windows belong to document `i`. */
  ghost function Seen(at: seq<(nat, nat)>, i: nat, n: nat): nat
    requires n <= |at|
  {
    if n == 0 then 0 else Seen(at, i, n - 1) + if at[n - 1].0 == i then 1 else 0
  }

  /** Window `n` is number `at[n].1` of document `at[n].0`; each document's windows come in order. */
  ghost predicate Laid(documents: seq<Document>, windows: seq<WindowSlot>, plans: seq<DocPlan>, at: seq<(nat, nat)>) {
    && |documents| == |plans| && |at| == |windows| && NoDuplicates(documents)
    && AllValid(plans) && AllCounted(plans, at) && AllLaid(documents, windows, plans, at)
  }

  ghost predicate AllValid(plans: seq<DocPlan>) {
    forall i :: 0 <= i < |plans| ==> ValidPlan(plans[i])
  }

  ghost predicate AllCounted(plans: seq<DocPlan>, at: seq<(nat, nat)>) {
    forall i :: 0 <= i < |plans| ==> Seen(at, i, |at|) == |plans[i].tasks|
  }

  ghost predicate AllLaid(documents: seq<Document>, windows: seq<WindowSlot>, plans: seq<DocPlan>, at: seq<(nat, nat)>)
    requires |documents| == |plans| && |at| == |windows|
  {
    forall n :: 0 <= n < |at| ==> LaidAt(documents, windows[n], plans, at, n)
  }

  ghost predicate LaidAt(documents: seq<Document>, slot: WindowSlot, plans: seq<DocPlan>, at: seq<(nat, nat)>, n: nat)
    requires n < |at| && |documents| == |plans|
  {
    var (i, k) := at[n];
    && i < |plans| && k == Seen(at, i, n) && k < |plans[i].tasks|
    && slot.document == documents[i] && slot.task == plans[i].tasks[k]
  }

  /** What document has after the owned slices of its first `k` windows are replayed. */
  ghost function Partial(rt: Runtime, plan: DocPlan, k: nat): (r: seq<Option<Prediction>>)
    requires WellShaped(rt) && ValidPlan(plan) && k <= |plan.tasks|
    ensures |r| == |plan.counts|
  {
    GoodWindowsFit(plan.counts, PlanOf(plan.counts)[..k], Predictor(rt, plan.ids, plan.counts));
    Stitch(Unwritten(|plan.counts|), PlanOf(plan.counts)[..k], Predictor(rt, plan.ids, plan.counts))
  }

  /** Task `k` of a plan is that of window `k`, which is a good window. */
  lemma PlanTask(plan: DocPlan, k: nat) returns (w: Window)
    requires ValidPlan(plan) && k < |plan.tasks|
    ensures k < |PlanOf(plan.counts)| && w == PlanOf(plan.counts)[k] && GoodWindow(plan.counts, w)
    ensures plan.tasks[k] == TaskOf(plan.ids, plan.counts, w)
  {
    w := PlanOf(plan.counts)[k];
  }

  lemma PartialSnoc(rt: Runtime, plan: DocPlan, k: nat, w: Window)
    requires WellShaped(rt) && ValidPlan(plan) && k < |plan.tasks| && k < |PlanOf(plan.counts)|
    requires w == PlanOf(plan.counts)[k]
    ensures var predicted := Predictor(rt, plan.ids, plan.counts)(w);
            && FitsOutput(|plan.counts|, w, predicted)
            && Partial(rt, plan, k + 1) == WriteOwned(Partial(rt, plan, k), w, predicted)
  {
    var whole, predict := PlanOf(plan.counts), Predictor(rt, plan.ids, plan.counts);
    GoodWindowsFit(plan.counts, whole, predict);
    StitchPrefix(Unwritten(|plan.counts|), whole, k, predict);
  }

  lemma PartialStep(rt: Runtime, plan: DocPlan, k: nat)
    requires WellShaped(rt) && ValidPlan(plan) && k < |plan.tasks|
    ensures var task := plan.tasks[k];
            && ValidTask(task) && FitsOutput(|plan.counts|, task.window, TaskPrediction(rt, task))
            && Partial(rt, plan, k + 1) == WriteOwned(Partial(rt, plan, k), task.window, TaskPrediction(rt, task))
  {
    var w := PlanTask(plan, k);
    TaskMeansWindow(rt, plan.ids, plan.counts, w);
    PartialSnoc(rt, plan, k, w);
  }

  lemma PartialComplete(rt: Runtime, plan: DocPlan)
    requires WellShaped(rt) && ValidPlan(plan)
    ensures Partial(rt, plan, |plan.tasks|) == Stitched(rt, plan.ids, plan.counts)
  {
    var whole := PlanOf(plan.counts);
    assert whole[..|whole|] == whole;
  }

  /** Writes one window's owned slice into its document. */
  method WriteBack(slot: WindowSlot)
    requires slot.predicted.Some? && FitsOutput(|slot.document.visible|, slot.task.window, slot.predicted.value)
    modifies slot.document
    ensures slot.document.visible == WriteOwned(old(slot.document.visible), slot.task.window, slot.predicted.value)
  {
    slot.document.visible := WriteOwned(slot.document.visible, slot.task.window, slot.predicted.value);
  }

  ghost function Visibles(documents: seq<Document>): (r: seq<seq<Option<Prediction>>>)
    reads documents
    ensures |r| == |documents| && forall i :: 0 <= i < |documents| ==> r[i] == documents[i].visible
  {
    seq(|documents|, i requires 0 <= i < |documents| reads documents => documents[i].visible)
  }

  /** What document `i` shows once the owned slices of its first `k` windows are written. */
  ghost function Shown(rt: Runtime, plans: seq<DocPlan>): (nat, nat) -> seq<Option<Prediction>>
    requires WellShaped(rt) && AllValid(plans)
  {
    (i: nat, k: nat) => if i < |plans| && k <= |plans[i].tasks| then Partial(rt, plans[i], k) else []
  }

  /** Everybody shows the slices of those of the first `n` windows that are its own, and no more. */
  ghost predicate Shows<T>(show: (nat, nat) -> T, at: seq<(nat, nat)>, n: nat, shown: seq<T>)
    requires n <= |at|
  {
    forall i :: 0 <= i < |shown| ==> shown[i] == show(i, Seen(at, i, n))
  }

  lemma SeenStep(at: seq<(nat, nat)>, i: nat, n: nat)
    requires n < |at|
    ensures Seen(at, i, n + 1) == Seen(at, i, n) + if at[n].0 == i then 1 else 0
  {
  }

  /** One turn of the replay loop advances exactly the document that owns the window. */
  lemma TurnShows<T>(show: (nat, nat) -> T, at: seq<(nat, nat)>, n: nat, i: nat, shown: seq<T>)
    requires n < |at| && i == at[n].0 < |shown| && Shows(show, at, n, shown)
    ensures Shows(show, at, n + 1, shown[i := show(i, Seen(at, i, n) + 1)])
  {
    forall j | 0 <= j < |shown| ensures Seen(at, j, n + 1) == Seen(at, j, n) + if j == i then 1 else 0 {
      SeenStep(at, j, n);
    }
  }

  ghost function Results(windows: seq<WindowSlot>): (r: seq<Option<seq<Prediction>>>)
    reads windows
    ensures |r| == |windows| && forall m :: 0 <= m < |windows| ==> r[m] == windows[m].predicted
  {
    seq(|windows|, m requires 0 <= m < |windows| reads windows => windows[m].predicted)
  }

  ghost function ResultOf(rt: Runtime, task: Task): Option<seq<Prediction>>
    requires WellShaped(rt)
  {
    if ValidTask(task) then Some(TaskPrediction(rt, task)) else None
  }

  /** Writing back window `k` of document `i` changes what that document shows and no other. */
  method WriteInto(rt: Runtime, ghost documents: seq<Document>, slot: WindowSlot, ghost plan: DocPlan, ghost i: nat,
                   ghost k: nat)
    requires WellShaped(rt) && ValidPlan(plan) && k < |plan.tasks| && slot.predicted == ResultOf(rt, slot.task)
    requires NoDuplicates(documents) && i < |documents| && slot.document == documents[i]
    requires slot.task == plan.tasks[k] && Visibles(documents)[i] == Partial(rt, plan, k)
    modifies slot.document
    ensures Visibles(documents) == old(Visibles(documents))[i := Partial(rt, plan, k + 1)]
  {
    WriteWindow(rt, slot, plan, k);
    forall j | 0 <= j < |documents| && j != i ensures documents[j].visible == old(documents[j].visible) {
      assert documents[j] != documents[i];
    }
  }

  /** Turn `n` of the replay writes window `k` of document `i`, whose plan is `plan`. */
  lemma TurnMeans(rt: Runtime, documents: seq<Document>, slot: WindowSlot, plans: seq<DocPlan>, at: seq<(nat, nat)>,
                  n: nat)
    returns (plan: DocPlan, i: nat, k: nat)
    requires WellShaped(rt) && |documents| == |plans| && n < |at|
    requires AllValid(plans) && LaidAt(documents, slot, plans, at, n)
    ensures i == at[n].0 && k == Seen(at, i, n) && i < |documents| && slot.document == documents[i]
    ensures ValidPlan(plan) && k < |plan.tasks| && slot.task == plan.tasks[k]
    ensures Shown(rt, plans)(i, k) == Partial(rt, plan, k) && Shown(rt, plans)(i, k + 1) == Partial(rt, plan, k + 1)
  {
    i, k := at[n].0, at[n].1;
    plan := plans[i];
  }

  /** Writing back window `k` of a document. */
  method WriteWindow(rt: Runtime, slot: WindowSlot, ghost plan: DocPlan, ghost k: nat)
    requires WellShaped(rt) && ValidPlan(plan) && k < |plan.tasks| && slot.predicted == ResultOf(rt, slot.task)
    requires slot.task == plan.tasks[k] && slot.document.visible == Partial(rt, plan, k)
    modifies slot.document
    ensures slot.document.visible == Partial(rt, plan, k + 1)
  {
    PartialStep(rt, plan, k);
    WriteBack(slot);
  }

  /** The state of the replay before window `n`: what the windows predict, and what the documents show. */
  ghost predicate Replaying(show: (nat, nat) -> seq<Option<Prediction>>, documents: seq<Document>,
                            windows: seq<WindowSlot>, at: seq<(nat, nat)>, n: nat,
                            results: seq<Option<seq<Prediction>>>)
    requires n <= |at|
    reads documents, windows
  {
    Results(windows) == results && Shows(show, at, n, Visibles(documents))
  }

  /** One turn of the replay loop. */
  method ReplayTurn(rt: Runtime, documents: seq<Document>, windows: seq<WindowSlot>, ghost plans: seq<DocPlan>,
                    ghost at: seq<(nat, nat)>, n: nat, ghost results: seq<Option<seq<Prediction>>>)
    requires WellShaped(rt) && AllValid(plans) && |documents| == |plans| && NoDuplicates(documents)
    requires n < |windows| == |at| == |results| && LaidAt(documents, windows[n], plans, at, n)
    requires results[n] == ResultOf(rt, windows[n].task)
    requires Replaying(Shown(rt, plans), documents, windows, at, n, results)
    modifies documents
    ensures Replaying(Shown(rt, plans), documents, windows, at, n + 1, results)
  {
    ghost var shown := Visibles(documents);
    ghost var plan, i, k := TurnMeans(rt, documents, windows[n], plans, at, n);
    TurnShows(Shown(rt, plans), at, n, i, shown);
    assert windows[n].predicted == results[n];
    WriteInto(rt, documents, windows[n], plan, i, k);
    assert Results(windows) == results;
  }

  lemma AllPredicted(rt: Runtime, windows: seq<WindowSlot>)
    requires WellShaped(rt) && forall m :: 0 <= m < |windows| ==> Predicted(rt, windows[m])
    ensures forall m :: 0 <= m < |windows| ==> Results(windows)[m] == ResultOf(rt, windows[m].task)
  {
    forall m | 0 <= m < |windows| ensures Results(windows)[m] == ResultOf(rt, windows[m].task) {
      assert Predicted(rt, windows[m]);
    }
  }

  /** Replays all windows in their original order. */
  method Replay(rt: Runtime, documents: seq<Document>, windows: seq<WindowSlot>, ghost plans: seq<DocPlan>,
                ghost at: seq<(nat, nat)>)
    requires WellShaped(rt) && Laid(documents, windows, plans, at)
    requires forall m :: 0 <= m < |windows| ==> Predicted(rt, windows[m])
    requires Shows(Shown(rt, plans), at, 0, Visibles(documents))
    modifies documents
    ensures Shows(Shown(rt, plans), at, |windows|, Visibles(documents))
  {
    ghost var results := Results(windows);
    AllPredicted(rt, windows);
    for n := 0 to |windows|
      invariant Replaying(Shown(rt, plans), documents, windows, at, n, results)
    {
      assert LaidAt(documents, windows[n], plans, at, n);
      ReplayTurn(rt, documents, windows, plans, at, n, results);
    }
  }

  /** A fully replayed document has a prediction for every kept word, and grouping these is decoding the text. */
  lemma FinishMeans(rt: Runtime, chars: CharTable, document: Document, plan: DocPlan)
    requires WellShaped(rt) && (rt.labelsValid || document.words == [])
    requires Prepared(rt, chars, document.text, document, plan)
    ensures var visible, texts := AllWritten(Stitched(rt, plan.ids, plan.counts)), WordTexts(document.words);
            && visible.Success? && |visible.value| == |document.active|
            && (forall k :: 0 <= k < |document.active| ==> document.active[k] < |texts|)
            && DecodeOf(rt, document.text, document.words)
               == Success(EntitiesFrom(document.text, document.words,
                                       Bridged(texts, Scatter(|texts|, document.active, visible.value)), 0))
  {
    StitchedIsComplete(rt, plan.ids, plan.counts);
  }

  /** `_finish`. The "omitted a word" check cannot fail on a fully replayed document. */
  method Finish(rt: Runtime, chars: CharTable, document: Document, ghost plan: DocPlan)
    returns (r: Result<seq<Entity>, DecodeError>)
    requires WellShaped(rt) && (rt.labelsValid || document.words == [])
    requires Prepared(rt, chars, document.text, document, plan)
    requires document.visible == Stitched(rt, plan.ids, plan.counts)
    ensures r == DecodeOf(rt, document.text, document.words)
  {
    FinishMeans(rt, chars, document, plan);
    var visible := AllWritten(document.visible);
    var texts := seq(|document.words|, k requires 0 <= k < |document.words| => document.words[k].text);
    assert texts == WordTexts(document.words);
    var predicted := PlaceVisible(|texts|, document.active, visible.value);
    r := GroupBridged(document.text, document.words, texts, predicted);
  }

  /** Bridging and grouping the placed predictions. */
  method GroupBridged(text: string, words: seq<Word>, texts: seq<string>, predicted: seq<Prediction>)
    returns (r: Result<seq<Entity>, DecodeError>)
    requires texts == WordTexts(words) && |predicted| == |words|
    ensures r == Success(EntitiesFrom(text, words, Bridged(texts, predicted), 0))
  {
    var bridged := BridgePunctuation(texts, predicted);
    var entities := GroupEntities(text, words, bridged);
    return Success(entities);
  }

  // ----- all documents together -----

  lemma {:induction false} SeenPrefix(at: seq<(nat, nat)>, more: seq<(nat, nat)>, i: nat, n: nat)
    requires n <= |at|
    ensures Seen(at + more, i, n) == Seen(at, i, n)
  {
    if n > 0 {
      SeenPrefix(at, more, i, n - 1);
    }
  }

  /** The windows of the next document, numbered from zero. */
  ghost function Numbered(i: nat, count: nat): (r: seq<(nat, nat)>)
    ensures |r| == count
  {
    seq(count, k requires 0 <= k < count => (i, k))
  }

  lemma {:induction false} SeenNumbered(at: seq<(nat, nat)>, i: nat, count: nat, j: nat, k: nat)
    requires k <= count
    ensures Seen(at + Numbered(i, count), j, |at| + k) == Seen(at, j, |at|) + if i == j then k else 0
  {
    if k == 0 {
      SeenPrefix(at, Numbered(i, count), j, |at|);
    } else {
      SeenNumbered(at, i, count, j, k - 1);
    }
  }

  lemma {:induction false} NoneSeenYet(at: seq<(nat, nat)>, i: nat, n: nat)
    requires n <= |at| && forall m :: 0 <= m < |at| ==> at[m].0 < i
    ensures Seen(at, i, n) == 0
  {
    if n > 0 {
      NoneSeenYet(at, i, n - 1);
    }
  }

  /** Appending a document with its windows keeps the layout. */
  lemma LayDocument(documents: seq<Document>, windows: seq<WindowSlot>, plans: seq<DocPlan>, at: seq<(nat, nat)>,
                    document: Document, slots: seq<WindowSlot>, plan: DocPlan)
    requires Laid(documents, windows, plans, at) && document !in documents
    requires ValidPlan(plan) && SlotsOf(slots, document, plan.tasks)
    ensures Laid(documents + [document], windows + slots, plans + [plan],
                 at + Numbered(|documents|, |plan.tasks|))
  {
    var more := Numbered(|documents|, |plan.tasks|);
    OwnersBelow(documents, windows, plans, at);
    CountedOneMore(plans, at, plan);
    LaidOneMore(documents, windows, plans, at, document, slots, plan);
    forall i, j | 0 <= i < j < |documents + [document]|
      ensures (documents + [document])[i] != (documents + [document])[j]
    {
      assert j == |documents| ==> documents[i] in documents;
    }
  }

  lemma CountedOneMore(plans: seq<DocPlan>, at: seq<(nat, nat)>, plan: DocPlan)
    requires AllCounted(plans, at) && forall n :: 0 <= n < |at| ==> at[n].0 < |plans|
    ensures AllCounted(plans + [plan], at + Numbered(|plans|, |plan.tasks|))
  {
    var i, count := |plans|, |plan.tasks|;
    forall j | 0 <= j < |plans + [plan]|
      ensures Seen(at + Numbered(i, count), j, |at| + count) == |(plans + [plan])[j].tasks|
    {
      SeenNumbered(at, i, count, j, count);
      if j == i {
        NoneSeenYet(at, i, |at|);
      }
    }
  }

  lemma LaidOneMore(documents: seq<Document>, windows: seq<WindowSlot>, plans: seq<DocPlan>, at: seq<(nat, nat)>,
                    document: Document, slots: seq<WindowSlot>, plan: DocPlan)
    requires |documents| == |plans| && |at| == |windows| && AllLaid(documents, windows, plans, at)
    requires SlotsOf(slots, document, plan.tasks) && forall n :: 0 <= n < |at| ==> at[n].0 < |documents|
    ensures AllLaid(documents + [document], windows + slots, plans + [plan],
                    at + Numbered(|documents|, |plan.tasks|))
  {
    var more := Numbered(|documents|, |plan.tasks|);
    forall n | 0 <= n < |at + more|
      ensures LaidAt(documents + [document], (windows + slots)[n], plans + [plan], at + more, n)
    {
      if n < |at| {
        OldWindowLaid(documents, windows[n], plans, at, n, document, plan, more);
      } else {
        NewWindowLaid(documents, slots, plans, at, n - |at|, document, plan);
      }
    }
  }

  lemma OwnersBelow(documents: seq<Document>, windows: seq<WindowSlot>, plans: seq<DocPlan>, at: seq<(nat, nat)>)
    requires Laid(documents, windows, plans, at)
    ensures forall n :: 0 <= n < |at| ==> at[n].0 < |documents|
  {
    forall n | 0 <= n < |at| ensures at[n].0 < |documents| {
      assert LaidAt(documents, windows[n], plans, at, n);
    }
  }

  lemma OldWindowLaid(documents: seq<Document>, slot: WindowSlot, plans: seq<DocPlan>, at: seq<(nat, nat)>, n: nat,
                      document: Document, plan: DocPlan, more: seq<(nat, nat)>)
    requires |documents| == |plans| && n < |at| && LaidAt(documents, slot, plans, at, n)
    ensures LaidAt(documents + [document], slot, plans + [plan], at + more, n)
  {
    SeenPrefix(at, more, at[n].0, n);
    assert (plans + [plan])[at[n].0] == plans[at[n].0] && (documents + [document])[at[n].0] == documents[at[n].0];
  }

  lemma NewWindowLaid(documents: seq<Document>, slots: seq<WindowSlot>, plans: seq<DocPlan>, at: seq<(nat, nat)>,
                      k: nat, document: Document, plan: DocPlan)
    requires |documents| == |plans| && SlotsOf(slots, document, plan.tasks) && k < |slots|
    requires forall n :: 0 <= n < |at| ==> at[n].0 < |documents|
    ensures LaidAt(documents + [document], slots[k], plans + [plan],
                   at + Numbered(|documents|, |plan.tasks|), |at| + k)
  {
    var i, count := |documents|, |plan.tasks|;
    NoneSeenYet(at, i, |at|);
    SeenNumbered(at, i, count, i, k);
    assert (at + Numbered(i, count))[|at| + k] == (i, k);
    assert (plans + [plan])[i] == plan && (documents + [document])[i] == document;
  }

  /** The document is prepared and nothing is written into it yet. */
  ghost predicate Untouched(rt: Runtime, chars: CharTable, text: string, document: Document, plan: DocPlan)
    reads document
  {
    Prepared(rt, chars, text, document, plan) && document.visible == Unwritten(|plan.counts|)
  }

  ghost predicate AllUntouched(rt: Runtime, chars: CharTable, texts: seq<string>, documents: seq<Document>,
                               plans: seq<DocPlan>)
    reads documents
  {
    && |documents| == |texts| == |plans|
    && forall i :: 0 <= i < |documents| ==> Untouched(rt, chars, texts[i], documents[i], plans[i])
  }

  lemma UntouchedOneMore(rt: Runtime, chars: CharTable, texts: seq<string>, documents: seq<Document>,
                         plans: seq<DocPlan>, text: string, document: Document, plan: DocPlan)
    requires AllUntouched(rt, chars, texts, documents, plans) && Untouched(rt, chars, text, document, plan)
    ensures AllUntouched(rt, chars, texts + [text], documents + [document], plans + [plan])
  {
  }

  /** Every document of the batch is prepared and nothing is predicted or written yet. */
  ghost predicate Ready(rt: Runtime, chars: CharTable, texts: seq<string>, documents: seq<Document>,
                        windows: seq<WindowSlot>, plans: seq<DocPlan>, at: seq<(nat, nat)>)
    reads documents, windows
  {
    && |documents| == |texts| && Laid(documents, windows, plans, at) && NoDuplicates(windows)
    && AllUntouched(rt, chars, texts, documents, plans) && NonePredicted(windows)
  }

  lemma ReadyOneMore(rt: Runtime, chars: CharTable, texts: seq<string>, documents: seq<Document>,
                     windows: seq<WindowSlot>, plans: seq<DocPlan>, at: seq<(nat, nat)>,
                     text: string, document: Document, slots: seq<WindowSlot>, plan: DocPlan)
    requires Ready(rt, chars, texts, documents, windows, plans, at)
    requires Untouched(rt, chars, text, document, plan)
    requires SlotsOf(slots, document, plan.tasks)
    requires document !in documents && forall k :: 0 <= k < |slots| ==> slots[k] !in windows
    ensures Ready(rt, chars, texts + [text], documents + [document], windows + slots, plans + [plan],
                  at + Numbered(|documents|, |plan.tasks|))
  {
    LayDocument(documents, windows, plans, at, document, slots, plan);
    DistinctTogether(windows, slots);
    UntouchedOneMore(rt, chars, texts, documents, plans, text, document, plan);
  }

  lemma DistinctTogether<T>(a: seq<T>, b: seq<T>)
    requires NoDuplicates(a) && NoDuplicates(b) && forall k :: 0 <= k < |b| ==> b[k] !in a
    ensures NoDuplicates(a + b)
  {
    forall i, j | 0 <= i < j < |a + b| ensures (a + b)[i] != (a + b)[j] {
      if i < |a| {
        assert (a + b)[i] in a;
      } else {
        assert b[i - |a|] != b[j - |a|];
      }
    }
  }

  /** The tokenizer's answer for the words of the text breaks its contract in this way. */
  ghost predicate FailsTokenizing(rt: Runtime, chars: CharTable, text: string, error: DecodeError) {
    exists words :: words != [] && Tiles(SplittingAlphabet(chars), text, |text|, words)
                    && TokenizeOf(rt, WordTexts(words)) == Failure(error)
  }

  ghost predicate Tokenizable(rt: Runtime, chars: CharTable, text: string) {
    forall words :: Tiles(SplittingAlphabet(chars), text, |text|, words) ==> Tokenizes(rt, words)
  }

  /** Text `n` is the first that the tokenizer fails. */
  ghost predicate FirstFails(rt: Runtime, chars: CharTable, texts: seq<string>, n: nat, error: DecodeError) {
    && n < |texts| && FailsTokenizing(rt, chars, texts[n], error)
    && forall m :: 0 <= m < n ==> Tokenizable(rt, chars, texts[m])
  }

  ghost predicate SomeFirstFails(rt: Runtime, chars: CharTable, texts: seq<string>, error: DecodeError) {
    exists n: nat :: FirstFails(rt, chars, texts, n, error)
  }

  lemma TokenizableByOne(rt: Runtime, chars: CharTable, text: string, words: seq<Word>)
    requires Tiles(SplittingAlphabet(chars), text, |text|, words) && Tokenizes(rt, words)
    ensures Tokenizable(rt, chars, text)
  {
    forall other | Tiles(SplittingAlphabet(chars), text, |text|, other) ensures other == words {
      TilingUnique(SplittingAlphabet(chars), text, words, other, 0);
    }
  }

  lemma PreparedTokenizable(rt: Runtime, chars: CharTable, text: string, document: Document, plan: DocPlan)
    requires Prepared(rt, chars, text, document, plan)
    ensures Tokenizable(rt, chars, text)
  {
    TokenizableByOne(rt, chars, text, document.words);
  }

  lemma AllTokenizable(rt: Runtime, chars: CharTable, texts: seq<string>, documents: seq<Document>,
                       plans: seq<DocPlan>)
    requires AllUntouched(rt, chars, texts, documents, plans)
    ensures forall m :: 0 <= m < |texts| ==> Tokenizable(rt, chars, texts[m])
  {
    forall m | 0 <= m < |texts| ensures Tokenizable(rt, chars, texts[m]) {
      assert Untouched(rt, chars, texts[m], documents[m], plans[m]);
      PreparedTokenizable(rt, chars, texts[m], documents[m], plans[m]);
    }
  }

  lemma FailsFirst(rt: Runtime, chars: CharTable, texts: seq<string>, n: nat, documents: seq<Document>,
                   plans: seq<DocPlan>, words: seq<Word>, error: DecodeError)
    requires n < |texts| && AllUntouched(rt, chars, texts[..n], documents, plans)
    requires words != [] && Tiles(SplittingAlphabet(chars), texts[n], |texts[n]|, words)
    requires TokenizeOf(rt, WordTexts(words)) == Failure(error)
    ensures FirstFails(rt, chars, texts, n, error)
  {
    AllTokenizable(rt, chars, texts[..n], documents, plans);
    forall m | 0 <= m < n ensures Tokenizable(rt, chars, texts[m]) {
      assert texts[..n][m] == texts[m];
    }
  }

  lemma ReadyNext(rt: Runtime, chars: CharTable, texts: seq<string>, n: nat, documents: seq<Document>,
                  windows: seq<WindowSlot>, plans: seq<DocPlan>, at: seq<(nat, nat)>,
                  document: Document, slots: seq<WindowSlot>, plan: DocPlan)
    requires n < |texts| && Ready(rt, chars, texts[..n], documents, windows, plans, at)
    requires Untouched(rt, chars, texts[n], document, plan) && SlotsOf(slots, document, plan.tasks)
    requires document !in documents && forall k :: 0 <= k < |slots| ==> slots[k] !in windows
    ensures Ready(rt, chars, texts[..n + 1], documents + [document], windows + slots, plans + [plan],
                  at + Numbered(|documents|, |plan.tasks|))
  {
    PrefixSnoc(texts, n);
    ReadyOneMore(rt, chars, texts[..n], documents, windows, plans, at, texts[n], document, slots, plan);
  }

  /** All documents prepared so far, and their windows in order. */
  datatype Batched = Batched(documents: seq<Document>, windows: seq<WindowSlot>)

  /** Prepares text `n` behind the documents already prepared. */
  method PrepareOne(rt: Runtime, chars: CharTable, texts: seq<string>, n: nat, b: Batched,
                    ghost plans: seq<DocPlan>, ghost at: seq<(nat, nat)>)
    returns (r: Result<Batched, DecodeError>, ghost plans': seq<DocPlan>, ghost at': seq<(nat, nat)>)
    requires n < |texts| && Ready(rt, chars, texts[..n], b.documents, b.windows, plans, at)
    ensures r.Failure? ==> FirstFails(rt, chars, texts, n, r.error)
    ensures r.Success? ==> b.documents <= r.value.documents && b.windows <= r.value.windows
    ensures r.Success? ==> forall i :: |b.documents| <= i < |r.value.documents| ==> fresh(r.value.documents[i])
    ensures r.Success? ==> forall i :: |b.windows| <= i < |r.value.windows| ==> fresh(r.value.windows[i])
    ensures r.Success? ==> Ready(rt, chars, texts[..n + 1], r.value.documents, r.value.windows, plans', at')
  {
    ghost var plan, words;
    var prepared;
    prepared, words, plan := DocumentWindows(rt, chars, texts[n]);
    plans', at' := plans, at;
    if prepared.Failure? {
      FailsFirst(rt, chars, texts, n, b.documents, plans, words, prepared.error);
      return Failure(prepared.error), plans', at';
    }
    var (document, slots) := (prepared.value.document, prepared.value.slots);
    ReadyNext(rt, chars, texts, n, b.documents, b.windows, plans, at, document, slots, plan);
    plans', at' := plans + [plan], at + Numbered(|b.documents|, |plan.tasks|);
    r := Success(Batched(b.documents + [document], b.windows + slots));
  }

  /** The loop that prepares all documents before anything is inferred. */
  method PrepareAll(rt: Runtime, chars: CharTable, texts: seq<string>)
    returns (r: Result<Batched, DecodeError>, ghost plans: seq<DocPlan>, ghost at: seq<(nat, nat)>)
    ensures r.Success? ==> Ready(rt, chars, texts, r.value.documents, r.value.windows, plans, at)
    ensures r.Success? ==> forall i :: 0 <= i < |r.value.documents| ==> fresh(r.value.documents[i])
    ensures r.Success? ==> forall i :: 0 <= i < |r.value.windows| ==> fresh(r.value.windows[i])
    ensures r.Failure? ==> SomeFirstFails(rt, chars, texts, r.error)
  {
    var b := Batched([], []);
    plans, at := [], [];
    for n := 0 to |texts|
      invariant Ready(rt, chars, texts[..n], b.documents, b.windows, plans, at)
      invariant forall i :: 0 <= i < |b.documents| ==> fresh(b.documents[i])
      invariant forall i :: 0 <= i < |b.windows| ==> fresh(b.windows[i])
    {
      var attempt;
      attempt, plans, at := PrepareOne(rt, chars, texts, n, b, plans, at);
      if attempt.Failure? {
        return Failure(attempt.error), plans, at;
      }
      b := attempt.value;
    }
    assert texts[..|texts|] == texts;
    return Success(b), plans, at;
  }

  // ----- the whole batch -----

  ghost predicate SomeFails(rt: Runtime, chars: CharTable, texts: seq<string>)
    requires WellShaped(rt)
  {
    exists i, words :: 0 <= i < |texts| && FailsWith(rt, chars, texts[i], words)
  }

  ghost predicate FailsWith(rt: Runtime, chars: CharTable, text: string, words: seq<Word>)
    requires WellShaped(rt)
  {
    Tiles(SplittingAlphabet(chars), text, |text|, words) && DecodeOf(rt, text, words).Failure?
  }

  /** `result` is what the sequential decoder yields for `text`. */
  ghost predicate DecodesTo(rt: Runtime, chars: CharTable, text: string, result: seq<Entity>)
    requires WellShaped(rt)
  {
    forall words :: Tiles(SplittingAlphabet(chars), text, |text|, words) ==>
      DecodeOf(rt, text, words) == Success(result)
  }

  ghost predicate AllDecoded(rt: Runtime, chars: CharTable, texts: seq<string>, lists: seq<seq<Entity>>)
    requires WellShaped(rt)
  {
    |lists| == |texts| && forall i :: 0 <= i < |texts| ==> DecodesTo(rt, chars, texts[i], lists[i])
  }

  lemma DecodesToOne(rt: Runtime, chars: CharTable, text: string, words: seq<Word>, result: seq<Entity>)
    requires WellShaped(rt) && Tiles(SplittingAlphabet(chars), text, |text|, words)
    requires DecodeOf(rt, text, words) == Success(result)
    ensures DecodesTo(rt, chars, text, result)
  {
    forall other | Tiles(SplittingAlphabet(chars), text, |text|, other) ensures other == words {
      TilingUnique(SplittingAlphabet(chars), text, words, other, 0);
    }
  }

  /** The errors of the tokenizer's contract are its own. */
  lemma TokenizeErrors(rt: Runtime, chars: CharTable, text: string, error: DecodeError)
    requires FailsTokenizing(rt, chars, text, error)
    ensures error != BadRequest && error != BadLabels
  {
  }

  /**
   * What a batch of admissible size may report: how the tokenizer fails the first text it fails, or, if it
   * fails none, a wrong label inventory.
   */
  ghost predicate BatchError(rt: Runtime, chars: CharTable, texts: seq<string>, error: DecodeError) {
    || SomeFirstFails(rt, chars, texts, error)
    || (error == BadLabels && !rt.labelsValid && forall m :: 0 <= m < |texts| ==> Tokenizable(rt, chars, texts[m]))
  }

  lemma UntokenizableFails(rt: Runtime, chars: CharTable, texts: seq<string>, error: DecodeError)
    requires WellShaped(rt) && SomeFirstFails(rt, chars, texts, error)
    ensures SomeFails(rt, chars, texts) && error != BadRequest && BatchError(rt, chars, texts, error)
  {
    var n: nat :| FirstFails(rt, chars, texts, n, error);
    TokenizeErrors(rt, chars, texts[n], error);
    var words :| words != [] && Tiles(SplittingAlphabet(chars), texts[n], |texts[n]|, words)
                 && TokenizeOf(rt, WordTexts(words)) == Failure(error);
    assert FailsWith(rt, chars, texts[n], words);
  }

  /** A text without labelled words has no entities. */
  lemma {:induction false} OutsideHasNoEntities(text: string, words: seq<Word>, predicted: seq<Prediction>, i: nat)
    requires |predicted| == |words| && i <= |words|
    requires forall k :: 0 <= k < |predicted| ==> predicted[k].tag.Outside?
    ensures EntitiesFrom(text, words, predicted, i) == []
    decreases |words| - i
  {
    if i < |words| {
      OutsideHasNoEntities(text, words, predicted, RunEnd(predicted, i, i + 1));
    }
  }

  /** A document all of whose words the tokenizer dropped decodes to nothing. */
  lemma NothingKept(rt: Runtime, chars: CharTable, text: string, document: Document, plan: DocPlan)
    requires WellShaped(rt) && Prepared(rt, chars, text, document, plan) && plan.counts == []
    requires document.words == [] || rt.labelsValid
    ensures DecodesTo(rt, chars, text, [])
  {
    if document.words != [] {
      var texts := WordTexts(document.words);
      OutsideHasNoEntities(text, document.words, Bridged(texts, WordPredictions(rt, texts)), 0);
    }
    DecodesToOne(rt, chars, text, document.words, []);
  }

  /** Without any window there are no kept words in any document. */
  lemma NoWindowsNoCounts(documents: seq<Document>, windows: seq<WindowSlot>, plans: seq<DocPlan>, at: seq<(nat, nat)>,
                          i: nat)
    requires Laid(documents, windows, plans, at) && windows == [] && i < |plans|
    ensures plans[i].counts == []
  {
    assert Seen(at, i, |at|) == |plans[i].tasks|;
    if plans[i].counts != [] {
      ReachedStart(plans[i].counts);
      PlanHead(plans[i].counts, 0, 0);
    }
  }

  lemma StartsReplay(rt: Runtime, documents: seq<Document>, plans: seq<DocPlan>, at: seq<(nat, nat)>)
    requires WellShaped(rt) && |documents| == |plans| && AllValid(plans)
    requires forall i :: 0 <= i < |documents| ==> documents[i].visible == Unwritten(|plans[i].counts|)
    ensures Shows(Shown(rt, plans), at, 0, Visibles(documents))
  {
    forall i | 0 <= i < |documents| ensures documents[i].visible == Shown(rt, plans)(i, Seen(at, i, 0)) {
      assert PlanOf(plans[i].counts)[..0] == [];
    }
  }

  lemma EndsReplay(rt: Runtime, documents: seq<Document>, plans: seq<DocPlan>, at: seq<(nat, nat)>, i: nat)
    requires WellShaped(rt) && |documents| == |plans| && AllValid(plans) && AllCounted(plans, at) && i < |documents|
    requires Shows(Shown(rt, plans), at, |at|, Visibles(documents))
    ensures documents[i].visible == Stitched(rt, plans[i].ids, plans[i].counts)
  {
    assert Visibles(documents)[i] == Shown(rt, plans)(i, Seen(at, i, |at|));
    PartialComplete(rt, plans[i]);
  }

  /** Inference and replay on prepared documents. */
  method InferAndReplay(rt: Runtime, chars: CharTable, texts: seq<string>, documents: seq<Document>,
                        windows: seq<WindowSlot>, ghost plans: seq<DocPlan>, ghost at: seq<(nat, nat)>, maxBatch: nat)
    requires WellShaped(rt) && PaddingIndependent(rt) && maxBatch in BATCH_BUCKETS
    requires Ready(rt, chars, texts, documents, windows, plans, at)
    modifies documents, windows
    ensures forall i :: 0 <= i < |documents| ==> documents[i].visible == Stitched(rt, plans[i].ids, plans[i].counts)
  {
    forall k | 0 <= k < |windows| ensures ValidTask(windows[k].task) {
      assert LaidAt(documents, windows[k], plans, at, k);
      PartialStep(rt, plans[at[k].0], at[k].1);
    }
    PredictAll(rt, windows, maxBatch);
    StartsReplay(rt, documents, plans, at);
    Replay(rt, documents, windows, plans, at);
    forall i | 0 <= i < |documents| ensures documents[i].visible == Stitched(rt, plans[i].ids, plans[i].counts) {
      EndsReplay(rt, documents, plans, at, i);
    }
  }

  /**
   * `word_predict_batch`: on every list of texts it fails exactly when decoding some text alone fails, with the
   * error of `BatchError`, and otherwise returns for each text what decoding it alone returns.
   */
  method WordPredictBatch(rt: Runtime, chars: CharTable, texts: seq<string>, maxBatch: nat)
    returns (r: Result<seq<seq<Entity>>, DecodeError>)
    requires WellShaped(rt) && PaddingIndependent(rt)
    ensures r.Success? ==> AllDecoded(rt, chars, texts, r.value)
    ensures r.Failure? <==> maxBatch !in BATCH_BUCKETS || |texts| > MAX_DOCUMENTS || SomeFails(rt, chars, texts)
    ensures r == Failure(BadRequest) <==> maxBatch !in BATCH_BUCKETS || |texts| > MAX_DOCUMENTS
    ensures r == Failure(BadRequest) <==> maxBatch !in {1, 2, 4, 8, 16, 32} || |texts| > 32
    ensures r.Failure? && r.error != BadRequest ==> BatchError(rt, chars, texts, r.error)
  {
    if maxBatch !in BATCH_BUCKETS || |texts| > MAX_DOCUMENTS {
      return Failure(BadRequest);
    }
    var prepared, plans, at := PrepareAll(rt, chars, texts);
    if prepared.Failure? {
      UntokenizableFails(rt, chars, texts, prepared.error);
      return Failure(prepared.error);
    }
    r := DecodePrepared(rt, chars, texts, prepared.value.documents, prepared.value.windows, plans, at, maxBatch);
  }

  /** Without windows every text decodes to nothing. */
  lemma NothingToInfer(rt: Runtime, chars: CharTable, texts: seq<string>, documents: seq<Document>,
                       windows: seq<WindowSlot>, plans: seq<DocPlan>, at: seq<(nat, nat)>)
    requires WellShaped(rt) && Ready(rt, chars, texts, documents, windows, plans, at) && windows == []
    requires rt.labelsValid || forall i :: 0 <= i < |documents| ==> documents[i].words == []
    ensures AllDecoded(rt, chars, texts, seq(|documents|, _ => []))
  {
    forall i | 0 <= i < |documents| ensures DecodesTo(rt, chars, texts[i], []) {
      NoWindowsNoCounts(documents, windows, plans, at, i);
      assert Untouched(rt, chars, texts[i], documents[i], plans[i]);
      NothingKept(rt, chars, texts[i], documents[i], plans[i]);
    }
  }

  /** A wrong label inventory fails every text that has words. */
  lemma BadLabelsFail(rt: Runtime, chars: CharTable, texts: seq<string>, documents: seq<Document>,
                      plans: seq<DocPlan>, i: nat)
    requires WellShaped(rt) && AllUntouched(rt, chars, texts, documents, plans) && !rt.labelsValid
    requires i < |documents| && documents[i].words != []
    ensures SomeFails(rt, chars, texts)
  {
    assert Untouched(rt, chars, texts[i], documents[i], plans[i]);
    assert FailsWith(rt, chars, texts[i], documents[i].words);
  }

  /** The rest of `word_predict_batch`, once every document is prepared. */
  method DecodePrepared(rt: Runtime, chars: CharTable, texts: seq<string>, documents: seq<Document>,
                        windows: seq<WindowSlot>, ghost plans: seq<DocPlan>, ghost at: seq<(nat, nat)>, maxBatch: nat)
    returns (r: Result<seq<seq<Entity>>, DecodeError>)
    requires WellShaped(rt) && PaddingIndependent(rt) && maxBatch in BATCH_BUCKETS
    requires Ready(rt, chars, texts, documents, windows, plans, at)
    modifies documents, windows
    ensures r.Success? ==> AllDecoded(rt, chars, texts, r.value)
    ensures r.Failure? <==> SomeFails(rt, chars, texts)
    ensures r.Failure? ==> r.error == BadLabels && BatchError(rt, chars, texts, r.error)
  {
    if (exists i :: 0 <= i < |documents| && documents[i].words != []) && !rt.labelsValid {
      ghost var i :| 0 <= i < |documents| && documents[i].words != [];
      BadLabelsFail(rt, chars, texts, documents, plans, i);
      AllTokenizable(rt, chars, texts, documents, plans);
      return Failure(BadLabels);
    }
    var lists: seq<seq<Entity>>;
    if windows == [] {
      NothingToInfer(rt, chars, texts, documents, windows, plans, at);
      lists := seq(|documents|, _ => []);
    } else {
      InferAndReplay(rt, chars, texts, documents, windows, plans, at, maxBatch);
      lists := FinishAll(rt, chars, texts, documents, plans);
    }
    NoneFails(rt, chars, texts, lists);
    return Success(lists);
  }

  /** The document is prepared and shows what replaying all of its windows yields. */
  ghost predicate Completed(rt: Runtime, chars: CharTable, text: string, document: Document,
                            shown: seq<Option<Prediction>>, plan: DocPlan)
    requires WellShaped(rt)
  {
    && Prepared(rt, chars, text, document, plan) && (rt.labelsValid || document.words == [])
    && shown == Stitched(rt, plan.ids, plan.counts)
  }

  ghost predicate AllCompleted(rt: Runtime, chars: CharTable, texts: seq<string>, documents: seq<Document>,
                               shown: seq<seq<Option<Prediction>>>, plans: seq<DocPlan>)
    requires WellShaped(rt)
  {
    && |documents| == |texts| == |plans| == |shown|
    && forall i :: 0 <= i < |texts| ==> Completed(rt, chars, texts[i], documents[i], shown[i], plans[i])
  }

  method FinishOne(rt: Runtime, chars: CharTable, text: string, document: Document, ghost plan: DocPlan)
    returns (entities: seq<Entity>)
    requires WellShaped(rt) && Completed(rt, chars, text, document, document.visible, plan)
    ensures DecodesTo(rt, chars, text, entities)
  {
    var finished := Finish(rt, chars, document, plan);
    DecodesToOne(rt, chars, text, document.words, finished.value);
    return finished.value;
  }

  method FinishAll(rt: Runtime, chars: CharTable, texts: seq<string>, documents: seq<Document>,
                   ghost plans: seq<DocPlan>)
    returns (lists: seq<seq<Entity>>)
    requires WellShaped(rt) && AllCompleted(rt, chars, texts, documents, Visibles(documents), plans)
    ensures AllDecoded(rt, chars, texts, lists)
  {
    ghost var shown := Visibles(documents);
    lists := [];
    var n := 0;
    while n != |documents|
      invariant 0 <= n <= |documents| && Visibles(documents) == shown && AllDecoded(rt, chars, texts[..n], lists)
    {
      assert Visibles(documents)[n] == documents[n].visible;
      assert Completed(rt, chars, texts[n], documents[n], documents[n].visible, plans[n]);
      var entities := FinishOne(rt, chars, texts[n], documents[n], plans[n]);
      OneMoreDecoded(rt, chars, texts, lists, n, entities);
      lists := lists + [entities];
      n := n + 1;
    }
    assert texts[..n] == texts;
  }

  lemma OneMoreDecoded(rt: Runtime, chars: CharTable, texts: seq<string>, lists: seq<seq<Entity>>, n: nat,
                       entities: seq<Entity>)
    requires WellShaped(rt) && n < |texts| && AllDecoded(rt, chars, texts[..n], lists)
    requires DecodesTo(rt, chars, texts[n], entities)
    ensures AllDecoded(rt, chars, texts[..n + 1], lists + [entities])
  {
  }

  lemma NoneFails(rt: Runtime, chars: CharTable, texts: seq<string>, lists: seq<seq<Entity>>)
    requires WellShaped(rt) && AllDecoded(rt, chars, texts, lists)
    ensures !SomeFails(rt, chars, texts)
  {
    forall i, words | 0 <= i < |texts| ensures !FailsWith(rt, chars, texts[i], words) {
      assert DecodesTo(rt, chars, texts[i], lists[i]);
    }
  }
}
