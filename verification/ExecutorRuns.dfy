/** What holds over every interleaving of the executor's steps. */
module ExecutorRuns {
  import opened Base
  import opened Executor

  // ----- the invariant -----

  predicate Settled<R>(status: Status<R>) {
    status.Cancelled? || status.Notified? || status.Done?
  }

  predicate Unstarted<R>(status: Status<R>) {
    status.Pending? || status.Cancelled?
  }

  /** The futures that the worker has taken and not yet settled. */
  function Hand<R>(worker: Worker<R>): seq<nat> {
    match worker
    case Gathering(batch) => batch
    case Gathered(batch) => batch
    case Starting(batch, active, next) => if next <= |batch| then active + batch[next..] else []
    case Calling(active) => active
    case Delivering(active, _, delivered, _) => if delivered <= |active| then active[delivered..] else []
    case _ => []
  }

  /** The queue holds the latest submissions in order and within capacity; what was taken is all that came before. */
  ghost predicate QueueInv<R>(cfg: Config, s: State<R>) {
    && |s.status| == |s.texts| && |s.log| + |s.pending| <= |s.texts| && |s.pending| <= cfg.capacity
    && (forall i :: 0 <= i < |s.log| ==> s.log[i] == i)
    && (forall i :: 0 <= i < |s.pending| ==> s.pending[i] == |s.log| + i)
    && (if s.cancelQueued then s.stopping && s.pending == [] else |s.log| + |s.pending| == |s.texts|)
    && (s.worker.Stopped? ==> s.stopping && s.pending == [])
  }

  ghost predicate AllUnstarted<R>(s: State<R>, futures: seq<nat>) {
    forall i :: 0 <= i < |futures| ==>
      futures[i] < |s.log| && futures[i] < |s.status| && Unstarted(s.status[futures[i]])
  }

  ghost predicate AllRunning<R>(s: State<R>, futures: seq<nat>) {
    forall i :: 0 <= i < |futures| ==> futures[i] < |s.log| && futures[i] < |s.status| && s.status[futures[i]].Running?
  }

  /** Batches are within the batch size and are the last futures taken; active futures run until delivered. */
  ghost predicate HandInv<R>(cfg: Config, s: State<R>) {
    && NoDuplicates(Hand(s.worker)) && |Hand(s.worker)| <= cfg.batchSize
    && match s.worker
       case Gathering(batch) => 0 < |batch| < cfg.batchSize && Latest(s.log, batch) && AllUnstarted(s, batch)
       case Gathered(batch) => 0 < |batch| && Latest(s.log, batch) && AllUnstarted(s, batch)
       case Starting(batch, active, next) =>
         !s.cancelQueued && next < |batch| && AllRunning(s, active) && AllUnstarted(s, batch[next..])
       case Calling(active) => 0 < |active| && AllRunning(s, active)
       case Delivering(active, outcomes, delivered, _) =>
         delivered < |active| == |outcomes| && AllRunning(s, active[delivered..])
       case _ => true
  }

  ghost predicate Latest(log: seq<nat>, batch: seq<nat>) {
    |batch| <= |log| && batch == log[|log| - |batch|..]
  }

  /** Queued futures have not started, and all futures that left the worker's hand are settled. */
  ghost predicate StatusInv<R>(s: State<R>) {
    && (forall f :: |s.log| <= f < |s.status| ==> Unstarted(s.status[f]) && (s.cancelQueued ==> s.status[f].Cancelled?))
    && (forall f :: 0 <= f < |s.status| && f < |s.log| && f !in Hand(s.worker) ==> Settled(s.status[f]))
  }

  /** `value` was returned by a model call at the position where `text` stood. */
  ghost predicate Justified<R(!new)>(answers: (seq<string>, Reply<R>) -> bool, text: string, value: R) {
    exists batch, values, i ::
      0 <= i < |batch| == |values| && batch[i] == text && values[i] == value && answers(batch, Values(values))
  }

  /** A call on `n` texts that replied so gives none of them a value but this error. */
  predicate FailsWith<R>(reply: Reply<R>, n: nat, error: string) {
    match reply
    case Values(values) => |values| != n && error == "Invalid NER batch response count."
    case NotAList => error == "Invalid NER batch response count."
    case Throws(thrown, _) => error == thrown
  }

  /** Some model call on `text` failed with `error`. */
  ghost predicate CallFailed<R(!new)>(answers: (seq<string>, Reply<R>) -> bool, text: string, error: string) {
    exists batch, reply, i ::
      0 <= i < |batch| && batch[i] == text && answers(batch, reply) && FailsWith(reply, |batch|, error)
  }

  ghost predicate JustifiedOutcome<R(!new)>(answers: (seq<string>, Reply<R>) -> bool, text: string, outcome: Outcome<R>)
  {
    match outcome
    case Returned(value) => Justified(answers, text, value)
    case Raised(error) => CallFailed(answers, text, error)
  }

  /** Each result belongs to the future of its own text. */
  ghost predicate OwnInv<R(!new)>(answers: (seq<string>, Reply<R>) -> bool, s: State<R>) {
    && |s.status| == |s.texts|
    && (forall f :: 0 <= f < |s.status| && s.status[f].Done? ==>
           JustifiedOutcome(answers, s.texts[f], s.status[f].outcome))
    && (s.worker.Delivering? ==>
          |s.worker.outcomes| == |s.worker.active| &&
          forall i :: 0 <= i < |s.worker.active| ==>
            s.worker.active[i] < |s.texts|
            && JustifiedOutcome(answers, s.texts[s.worker.active[i]], s.worker.outcomes[i]))
  }

  ghost predicate CoreInv<R>(cfg: Config, s: State<R>) {
    QueueInv(cfg, s) && HandInv(cfg, s) && StatusInv(s)
  }

  ghost predicate Inv<R(!new)>(cfg: Config, answers: (seq<string>, Reply<R>) -> bool, s: State<R>) {
    CoreInv(cfg, s) && OwnInv(answers, s)
  }

  // ----- each step keeps it -----

  lemma StepKeepsQueue<R>(cfg: Config, answers: (seq<string>, Reply<R>) -> bool, s: State<R>, step: Step<R>)
    requires QueueInv(cfg, s) && Enabled(cfg, answers, s, step)
    ensures QueueInv(cfg, Apply(cfg, answers, s, step))
  {
    if step.Take? {
      TakeKeepsQueue(cfg, s);
    }
  }

  lemma TakeKeepsQueue<R>(cfg: Config, s: State<R>)
    requires QueueInv(cfg, s) && (s.worker.Idle? || s.worker.Gathering?) && |BatchSoFar(s.worker)| < cfg.batchSize
    ensures QueueInv(cfg, AfterTake(cfg, s))
  {
    var k := TakeCount(cfg, s);
    forall i | 0 <= i < |s.log + s.pending[..k]| ensures (s.log + s.pending[..k])[i] == i {
      if i >= |s.log| {
        assert s.pending[i - |s.log|] == i;
      }
    }
    forall i | 0 <= i < |s.pending[k..]| ensures s.pending[k..][i] == |s.log| + k + i {
    }
  }

  /** Submitting and cancelling do not disturb what the worker holds. */
  lemma OwnersKeepHand<R>(cfg: Config, s: State<R>, s': State<R>)
    requires HandInv(cfg, s) && s'.worker == s.worker && s'.log == s.log && |s.status| <= |s'.status|
    requires s.worker.Starting? ==> s'.cancelQueued == s.cancelQueued
    requires forall f :: 0 <= f < |s.status| ==> s'.status[f] == s.status[f] || s'.status[f] == CancelOne(s.status[f])
    ensures HandInv(cfg, s')
  {
  }

  lemma LatestAppend(log: seq<nat>, batch: seq<nat>, more: seq<nat>)
    requires Latest(log, batch)
    ensures Latest(log + more, batch + more)
  {
  }

  lemma BatchSoFarIsHeld<R>(cfg: Config, s: State<R>)
    requires HandInv(cfg, s) && (s.worker.Idle? || s.worker.Gathering?)
    ensures Latest(s.log, BatchSoFar(s.worker)) && AllUnstarted(s, BatchSoFar(s.worker))
    ensures NoDuplicates(BatchSoFar(s.worker))
  {
  }

  lemma TakenAreUnstarted<R>(cfg: Config, s: State<R>, batch: seq<nat>, k: nat)
    requires QueueInv(cfg, s) && StatusInv(s) && k <= |s.pending| && AllUnstarted(s, batch) && NoDuplicates(batch)
    ensures var taken := batch + s.pending[..k];
            && NoDuplicates(taken)
            && forall i :: 0 <= i < |taken| ==>
                 taken[i] < |s.log + s.pending[..k]| && taken[i] < |s.status| && Unstarted(s.status[taken[i]])
  {
  }

  lemma TakeKeepsHand<R>(cfg: Config, s: State<R>)
    requires CoreInv(cfg, s) && (s.worker.Idle? || s.worker.Gathering?) && s.pending != []
    requires |BatchSoFar(s.worker)| < cfg.batchSize
    ensures HandInv(cfg, AfterTake(cfg, s))
  {
    var k, batch := TakeCount(cfg, s), BatchSoFar(s.worker);
    BatchSoFarIsHeld(cfg, s);
    TakenAreUnstarted(cfg, s, batch, k);
    LatestAppend(s.log, batch, s.pending[..k]);
    HoldsTaken(cfg, AfterTake(cfg, s), batch + s.pending[..k]);
  }

  lemma HoldsTaken<R>(cfg: Config, s: State<R>, taken: seq<nat>)
    requires s.worker == Holding(cfg, s.stopping, taken) && 0 < |taken| <= cfg.batchSize && NoDuplicates(taken)
    requires Latest(s.log, taken)
    requires forall i :: 0 <= i < |taken| ==>
               taken[i] < |s.log| && taken[i] < |s.status| && Unstarted(s.status[taken[i]])
    ensures HandInv(cfg, s)
  {
  }

  lemma TakeKeepsStatus<R>(cfg: Config, s: State<R>)
    requires QueueInv(cfg, s) && StatusInv(s) && (s.worker.Idle? || s.worker.Gathering?)
    requires |BatchSoFar(s.worker)| < cfg.batchSize
    ensures StatusInv(AfterTake(cfg, s))
  {
    var k, s' := TakeCount(cfg, s), AfterTake(cfg, s);
    assert Hand(s'.worker) == Hand(s.worker) + s.pending[..k];
    forall f | |s.log| <= f < |s.log| + k ensures f in s.pending[..k] {
      assert s.pending[..k][f - |s.log|] == f;
    }
    forall f | 0 <= f < |s'.status| && f < |s'.log| && f !in Hand(s'.worker) ensures Settled(s'.status[f]) {
      assert f !in s.pending[..k];
    }
  }

  lemma StartKeepsHand<R>(cfg: Config, s: State<R>)
    requires HandInv(cfg, s) && s.worker.Gathered? && Known(s, s.worker.batch)
    ensures HandInv(cfg, AfterStart(s))
  {
    assert s.worker.batch[0..] == s.worker.batch && [] + s.worker.batch == s.worker.batch;
  }

  lemma StartKeepsStatus<R>(s: State<R>)
    requires StatusInv(s) && s.worker.Gathered? && Known(s, s.worker.batch) && AllUnstarted(s, s.worker.batch)
    ensures StatusInv(AfterStart(s))
  {
    var s', batch := AfterStart(s), s.worker.batch;
    assert Hand(s.worker) == batch;
    if s.cancelQueued {
      forall f | f in batch ensures f < |s.log| && Unstarted(s.status[f]) {
        var i :| 0 <= i < |batch| && batch[i] == f;
      }
    } else {
      assert batch != [] ==> Hand(s'.worker) == [] + batch[0..] == batch;
    }
  }

  /** Dropping one element of a list without duplicates leaves one without it. */
  lemma DropOne(left: seq<nat>, x: nat, right: seq<nat>)
    requires NoDuplicates(left + [x] + right)
    ensures NoDuplicates(left + right) && x !in left + right
  {
    var whole, rest := left + [x] + right, left + right;
    forall i | 0 <= i < |rest| ensures rest[i] == whole[Skip(i, |left|)] && rest[i] != x {
      assert whole[|left|] == x;
    }
    forall i, j | 0 <= i < j < |rest| ensures rest[i] != rest[j] {
      assert whole[Skip(i, |left|)] != whole[Skip(j, |left|)];
    }
  }

  function Skip(i: int, n: int): int {
    if i < n then i else i + 1
  }

  /** The hand before the next start, with the future that is about to start in the middle. */
  lemma HandSplits<R>(s: State<R>) returns (future: nat, rest: seq<nat>)
    requires s.worker.Starting? && s.worker.next < |s.worker.batch|
    ensures future == s.worker.batch[s.worker.next] && rest == s.worker.batch[s.worker.next + 1..]
    ensures s.worker.batch[s.worker.next..] == [future] + rest
    ensures Hand(s.worker) == s.worker.active + [future] + rest
  {
    future, rest := s.worker.batch[s.worker.next], s.worker.batch[s.worker.next + 1..];
  }

  lemma HandAfterStart<R>(s: State<R>)
    requires s.worker.Starting? && s.worker.next < |s.worker.batch| && s.worker.batch[s.worker.next] < |s.status|
    ensures Hand(AfterStartNext(s).worker) == ActiveAfter(s) + s.worker.batch[s.worker.next + 1..]
  {
  }

  lemma NextIsHeld<R>(cfg: Config, s: State<R>)
    requires HandInv(cfg, s) && s.worker.Starting?
    ensures s.worker.next < |s.worker.batch| && !s.cancelQueued
    ensures var future := s.worker.batch[s.worker.next];
            future < |s.log| && future < |s.status| && Unstarted(s.status[future])
  {
    assert s.worker.batch[s.worker.next..][0] == s.worker.batch[s.worker.next];
  }

  /** Starting one held future leaves the others, which are different from it, as they are. */
  lemma NextKeepsOthers<R>(cfg: Config, s: State<R>)
    requires HandInv(cfg, s) && s.worker.Starting? && s.worker.batch[s.worker.next] < |s.status|
    ensures var s' := AfterStartNext(s);
            AllRunning(s', ActiveAfter(s)) && AllUnstarted(s', s.worker.batch[s.worker.next + 1..])
  {
    NextIsHeld(cfg, s);
    var future, rest := HandSplits(s);
    DropOne(s.worker.active, future, rest);
    var active := s.worker.active;
    forall i | 0 <= i < |active| ensures active[i] != future {
      assert (active + rest)[i] == active[i];
    }
    forall i | 0 <= i < |rest| ensures rest[i] != future && rest[i] == s.worker.batch[s.worker.next..][i + 1] {
      assert (active + rest)[|active| + i] == rest[i];
    }
  }

  lemma NextKeepsDistinct<R>(cfg: Config, s: State<R>)
    requires HandInv(cfg, s) && s.worker.Starting? && s.worker.batch[s.worker.next] < |s.status|
    ensures NoDuplicates(Hand(AfterStartNext(s).worker)) && |Hand(AfterStartNext(s).worker)| <= cfg.batchSize
  {
    var future, rest := HandSplits(s);
    DropOne(s.worker.active, future, rest);
    HandAfterStart(s);
  }

  lemma NextKeepsHand<R>(cfg: Config, s: State<R>)
    requires HandInv(cfg, s) && s.worker.Starting? && s.worker.batch[s.worker.next] < |s.status|
    ensures HandInv(cfg, AfterStartNext(s))
  {
    NextIsHeld(cfg, s);
    NextKeepsOthers(cfg, s);
    NextKeepsDistinct(cfg, s);
  }

  lemma NextKeepsStatus<R>(cfg: Config, s: State<R>)
    requires HandInv(cfg, s) && StatusInv(s) && s.worker.Starting? && s.worker.batch[s.worker.next] < |s.status|
    ensures StatusInv(AfterStartNext(s))
  {
    NextIsHeld(cfg, s);
    var future, rest := HandSplits(s);
    HandAfterStart(s);
    var s' := AfterStartNext(s);
    forall f | 0 <= f < |s'.status| && f < |s'.log| && f !in Hand(s'.worker) ensures Settled(s'.status[f]) {
      assert f == future || f !in Hand(s.worker);
    }
  }

  lemma CompleteKeepsHand<R>(cfg: Config, s: State<R>)
    requires HandInv(cfg, s) && s.worker.Delivering? && s.worker.active[s.worker.delivered] < |s.status|
    ensures HandInv(cfg, AfterComplete(s))
  {
    var w := s.worker;
    var hand, rest := w.active[w.delivered..], w.active[w.delivered + 1..];
    assert Hand(w) == hand;
    forall i | 0 <= i < |rest| ensures rest[i] == hand[i + 1] && rest[i] != w.active[w.delivered] {
      assert hand[0] != hand[i + 1];
    }
    forall i, j | 0 <= i < j < |rest| ensures rest[i] != rest[j] {
      assert hand[i + 1] != hand[j + 1];
    }
  }

  lemma CompleteKeepsStatus<R>(s: State<R>)
    requires StatusInv(s) && s.worker.Delivering? && s.worker.delivered < |s.worker.active| == |s.worker.outcomes|
    requires s.worker.active[s.worker.delivered] < |s.status| && s.worker.active[s.worker.delivered] < |s.log|
    ensures StatusInv(AfterComplete(s))
  {
    var w, s' := s.worker, AfterComplete(s);
    var done := w.active[w.delivered];
    forall f | 0 <= f < |s'.status| && f < |s'.log| && f !in Hand(s'.worker) ensures Settled(s'.status[f]) {
      if f != done {
        assert f !in Hand(w) by {
          assert w.active[w.delivered..] == [done] + w.active[w.delivered + 1..];
        }
      }
    }
  }

  lemma CloseKeepsHand<R>(cfg: Config, s: State<R>)
    requires HandInv(cfg, s) && s.worker.Gathering?
    ensures HandInv(cfg, AfterClose(s))
  {
  }

  lemma ReturnKeepsHand<R>(cfg: Config, s: State<R>, reply: Reply<R>)
    requires HandInv(cfg, s) && s.worker.Calling?
    ensures HandInv(cfg, AfterReturn(s, reply))
  {
    assert s.worker.active[0..] == s.worker.active;
  }

  lemma SubmitKeepsHand<R>(cfg: Config, s: State<R>, text: string)
    requires HandInv(cfg, s)
    ensures HandInv(cfg, AfterSubmit(s, text))
  {
    OwnersKeepHand(cfg, s, AfterSubmit(s, text));
  }

  lemma ShutdownKeepsHand<R>(cfg: Config, s: State<R>, cancel: bool)
    requires HandInv(cfg, s) && Known(s, s.pending) && !s.worker.Starting?
    ensures HandInv(cfg, AfterShutdown(s, cancel))
  {
    OwnersKeepHand(cfg, s, AfterShutdown(s, cancel));
  }

  lemma CancelKeepsHand<R>(cfg: Config, s: State<R>, f: nat)
    requires HandInv(cfg, s) && f < |s.status|
    ensures HandInv(cfg, AfterCancel(s, f))
  {
    OwnersKeepHand(cfg, s, AfterCancel(s, f));
  }

  lemma StepKeepsHand<R>(cfg: Config, answers: (seq<string>, Reply<R>) -> bool, s: State<R>, step: Step<R>)
    requires CoreInv(cfg, s) && Enabled(cfg, answers, s, step)
    ensures HandInv(cfg, Apply(cfg, answers, s, step))
  {
    match step
    case Take => TakeKeepsHand(cfg, s);
    case CloseBatch => CloseKeepsHand(cfg, s);
    case Start => StartKeepsHand(cfg, s);
    case StartNext => NextKeepsHand(cfg, s);
    case Return(reply) => ReturnKeepsHand(cfg, s, reply);
    case Complete => CompleteKeepsHand(cfg, s);
    case Exit =>
    case Submit(text) => SubmitKeepsHand(cfg, s, text);
    case Shutdown(cancel) => ShutdownKeepsHand(cfg, s, cancel);
    case Cancel(f) => CancelKeepsHand(cfg, s, f);
  }

  lemma ShutdownKeepsStatus<R>(cfg: Config, s: State<R>, cancel: bool)
    requires QueueInv(cfg, s) && StatusInv(s) && Known(s, s.pending)
    ensures StatusInv(AfterShutdown(s, cancel))
  {
    forall f | |s.log| <= f < |s.log| + |s.pending| ensures f in s.pending {
      assert s.pending[f - |s.log|] == f;
    }
  }

  lemma HeadIsTaken<R>(cfg: Config, s: State<R>)
    requires HandInv(cfg, s) && s.worker.Delivering?
    ensures s.worker.active[s.worker.delivered] < |s.log| && s.worker.active[s.worker.delivered] < |s.status|
    ensures s.status[s.worker.active[s.worker.delivered]].Running?
  {
    assert s.worker.active[s.worker.delivered..][0] == s.worker.active[s.worker.delivered];
  }

  lemma ReturnKeepsStatus<R>(s: State<R>, reply: Reply<R>)
    requires StatusInv(s) && s.worker.Calling?
    ensures StatusInv(AfterReturn(s, reply))
  {
    assert s.worker.active[0..] == s.worker.active;
  }

  lemma CancelKeepsStatus<R>(s: State<R>, f: nat)
    requires StatusInv(s) && f < |s.status|
    ensures StatusInv(AfterCancel(s, f))
  {
  }

  lemma CloseKeepsStatus<R>(s: State<R>)
    requires StatusInv(s) && s.worker.Gathering?
    ensures StatusInv(AfterClose(s))
  {
  }

  lemma StepKeepsStatus<R>(cfg: Config, answers: (seq<string>, Reply<R>) -> bool, s: State<R>, step: Step<R>)
    requires CoreInv(cfg, s) && Enabled(cfg, answers, s, step)
    ensures StatusInv(Apply(cfg, answers, s, step))
  {
    match step
    case Submit(text) => SubmitKeepsStatus(cfg, s, text);
    case Cancel(f) => CancelKeepsStatus(s, f);
    case Shutdown(cancel) => ShutdownKeepsStatus(cfg, s, cancel);
    case Take => TakeKeepsStatus(cfg, s);
    case CloseBatch => CloseKeepsStatus(s);
    case Start => StartKeepsStatus(s);
    case StartNext => NextKeepsStatus(cfg, s);
    case Return(reply) => ReturnKeepsStatus(s, reply);
    case Complete =>
      HeadIsTaken(cfg, s);
      CompleteKeepsStatus(s);
    case Exit =>
  }

  lemma SubmitKeepsStatus<R>(cfg: Config, s: State<R>, text: string)
    requires QueueInv(cfg, s) && StatusInv(s) && !s.stopping
    ensures StatusInv(AfterSubmit(s, text))
  {
  }

  lemma ReturnKeepsOwn<R(!new)>(cfg: Config, answers: (seq<string>, Reply<R>) -> bool, s: State<R>, reply: Reply<R>)
    requires OwnInv(answers, s) && Enabled(cfg, answers, s, Return(reply))
    ensures OwnInv(answers, Apply(cfg, answers, s, Return(reply)))
  {
    var active := s.worker.active;
    var outcomes := OutcomesOf(reply, |active|);
    forall i | 0 <= i < |active| ensures JustifiedOutcome(answers, s.texts[active[i]], outcomes[i]) {
      assert TextsOf(s, active)[i] == s.texts[active[i]];
      match outcomes[i]
      case Returned(_) => assert answers(TextsOf(s, active), Values(reply.values));
      case Raised(error) => assert FailsWith(reply, |TextsOf(s, active)|, error);
    }
  }

  lemma StepKeepsOwn<R(!new)>(cfg: Config, answers: (seq<string>, Reply<R>) -> bool, s: State<R>, step: Step<R>)
    requires OwnInv(answers, s) && Enabled(cfg, answers, s, step)
    ensures OwnInv(answers, Apply(cfg, answers, s, step))
  {
    if step.Return? {
      ReturnKeepsOwn(cfg, answers, s, step.reply);
    }
  }

  /** Every step of every thread keeps the invariant. */
  lemma StepKeepsInv<R(!new)>(cfg: Config, answers: (seq<string>, Reply<R>) -> bool, s: State<R>, step: Step<R>)
    requires Inv(cfg, answers, s) && Enabled(cfg, answers, s, step)
    ensures Inv(cfg, answers, Apply(cfg, answers, s, step))
  {
    StepKeepsQueue(cfg, answers, s, step);
    StepKeepsHand(cfg, answers, s, step);
    StepKeepsStatus(cfg, answers, s, step);
    StepKeepsOwn(cfg, answers, s, step);
  }

  // ----- runs -----

  /** An interleaving: states and the steps between them. */
  ghost predicate Run<R>(cfg: Config, answers: (seq<string>, Reply<R>) -> bool, states: seq<State<R>>,
                         steps: seq<Step<R>>)
  {
    && |states| == |steps| + 1 && states[0] == Initial()
    && forall i :: 0 <= i < |steps| ==> Moves(cfg, answers, states[i], steps[i], states[i + 1])
  }

  ghost predicate Moves<R>(cfg: Config, answers: (seq<string>, Reply<R>) -> bool, s: State<R>, step: Step<R>,
                           s': State<R>)
  {
    Enabled(cfg, answers, s, step) && s' == Apply(cfg, answers, s, step)
  }

  lemma InitialInv<R(!new)>(cfg: Config, answers: (seq<string>, Reply<R>) -> bool)
    ensures Inv(cfg, answers, Initial())
  {
  }

  lemma MoveKeepsInv<R(!new)>(cfg: Config, answers: (seq<string>, Reply<R>) -> bool, s: State<R>, step: Step<R>,
                              s': State<R>)
    requires Inv(cfg, answers, s) && Moves(cfg, answers, s, step, s')
    ensures Inv(cfg, answers, s')
  {
    StepKeepsInv(cfg, answers, s, step);
  }

  lemma {:induction false} RunKeepsInv<R(!new)>(cfg: Config, answers: (seq<string>, Reply<R>) -> bool,
                                                states: seq<State<R>>, steps: seq<Step<R>>, i: nat)
    requires Run(cfg, answers, states, steps) && i < |states|
    ensures Inv(cfg, answers, states[i])
  {
    hide QueueInv, HandInv, StatusInv, OwnInv, Apply, Enabled;
    if i > 0 {
      RunKeepsInv(cfg, answers, states, steps, i - 1);
      MoveKeepsInv(cfg, answers, states[i - 1], steps[i - 1], states[i]);
    } else {
      InitialInv(cfg, answers);
    }
  }

  /**
   * At every point of every run: the queue is within capacity and a batch within the batch size; futures
   * have been taken in submission order, a batch being the latest of them; and when the worker has left,
   * every future is settled.
   */
  lemma RunIsSafe<R(!new)>(cfg: Config, answers: (seq<string>, Reply<R>) -> bool, states: seq<State<R>>,
                           steps: seq<Step<R>>, i: nat)
    requires Run(cfg, answers, states, steps) && i < |states|
    ensures |states[i].pending| <= cfg.capacity && |Hand(states[i].worker)| <= cfg.batchSize
    ensures forall n :: 0 <= n < |states[i].log| ==> states[i].log[n] == n
    ensures forall n :: 0 <= n < |states[i].pending| ==> states[i].pending[n] == |states[i].log| + n
    ensures states[i].worker.Gathered? ==> Latest(states[i].log, states[i].worker.batch)
    ensures states[i].worker.Stopped? ==> forall f :: 0 <= f < |states[i].status| ==> Settled(states[i].status[f])
  {
    RunKeepsInv(cfg, answers, states, steps, i);
  }

  /** With a model that answers row by row, every future that ends with a value has the answer to its own text. */
  lemma OwnAnswer<R(!new)>(cfg: Config, answers: (seq<string>, Reply<R>) -> bool, answer: string -> R,
                           states: seq<State<R>>, steps: seq<Step<R>>, i: nat, f: nat)
    requires Run(cfg, answers, states, steps) && i < |states| && f < |states[i].status| == |states[i].texts|
    requires forall batch, values, k ::
               0 <= k < |batch| == |values| && answers(batch, Values(values)) ==> values[k] == answer(batch[k])
    requires states[i].status[f].Done? && states[i].status[f].outcome.Returned?
    ensures states[i].status[f].outcome.value == answer(states[i].texts[f])
  {
    RunKeepsInv(cfg, answers, states, steps, i);
    var text, value := states[i].texts[f], states[i].status[f].outcome.value;
    var batch, values, k :|
      0 <= k < |batch| == |values| && batch[k] == text && values[k] == value && answers(batch, Values(values));
  }

  /**
   * A future ends with an error only if a model call on its text threw that error, or answered something other than
   * a list, or a list of another length, which is reported as a wrong count.
   */
  lemma RaisedOnlyOnFailure<R(!new)>(cfg: Config, answers: (seq<string>, Reply<R>) -> bool, states: seq<State<R>>,
                                     steps: seq<Step<R>>, i: nat, f: nat)
    returns (batch: seq<string>, reply: Reply<R>, k: nat)
    requires Run(cfg, answers, states, steps) && i < |states| && f < |states[i].status| == |states[i].texts|
    requires states[i].status[f].Done? && states[i].status[f].outcome.Raised?
    ensures k < |batch| && batch[k] == states[i].texts[f] && answers(batch, reply)
    ensures var error := states[i].status[f].outcome.error;
            || (reply.Throws? && reply.error == error)
            || (error == "Invalid NER batch response count." && reply.NotAList?)
            || (error == "Invalid NER batch response count." && reply.Values? && |reply.values| != |batch|)
  {
    RunKeepsInv(cfg, answers, states, steps, i);
    var text, error := states[i].texts[f], states[i].status[f].outcome.error;
    assert CallFailed(answers, text, error);
    batch, reply, k :| 0 <= k < |batch| && batch[k] == text && answers(batch, reply)
                       && FailsWith(reply, |batch|, error);
  }

  // ----- a future's life -----

  /** Cancelled futures stay cancelled, and a completed future keeps its outcome. */
  predicate Advances<R(==)>(a: Status<R>, b: Status<R>) {
    a == b || a.Pending? || (a.Cancelled? && b.Notified?) || (a.Running? && b.Done?)
  }

  /** What a step, and then a whole stretch of a run, may do to the futures. */
  ghost predicate Onward<R>(s: State<R>, s': State<R>) {
    && |s.status| <= |s'.status| && (s.stopping ==> s'.stopping && |s'.status| == |s.status|)
    && (forall f :: 0 <= f < |s.status| ==> Advances(s.status[f], s'.status[f]))
    && (s.cancelQueued ==> s'.cancelQueued && s'.stopping && NoneStarted(s, s'))
  }

  ghost predicate NoneStarted<R>(s: State<R>, s': State<R>) {
    |s.status| == |s'.status| && forall f :: 0 <= f < |s.status| && s'.status[f].Running? ==> s.status[f].Running?
  }

  lemma StartOnward<R>(cfg: Config, s: State<R>)
    requires QueueInv(cfg, s) && s.worker.Gathered? && Known(s, s.worker.batch) && AllUnstarted(s, s.worker.batch)
    ensures Onward(s, AfterStart(s))
  {
    forall f | f in s.worker.batch ensures f < |s.status| && Unstarted(s.status[f]) {
      var i :| 0 <= i < |s.worker.batch| && s.worker.batch[i] == f;
    }
  }

  lemma StepOnward<R>(cfg: Config, answers: (seq<string>, Reply<R>) -> bool, s: State<R>, step: Step<R>)
    requires CoreInv(cfg, s) && Enabled(cfg, answers, s, step)
    ensures Onward(s, Apply(cfg, answers, s, step))
  {
    match step
    case Start => StartOnward(cfg, s);
    case StartNext => NextIsHeld(cfg, s);
    case Complete => HeadIsTaken(cfg, s);
    case Take =>
    case Return(_) =>
    case _ =>
  }

  lemma OnwardTransitive<R>(a: State<R>, b: State<R>, c: State<R>)
    requires Onward(a, b) && Onward(b, c)
    ensures Onward(a, c)
  {
  }

  lemma MoveInRun<R(!new)>(cfg: Config, answers: (seq<string>, Reply<R>) -> bool, states: seq<State<R>>,
                           steps: seq<Step<R>>, i: nat)
    requires Run(cfg, answers, states, steps) && i < |steps|
    ensures Onward(states[i], states[i + 1])
    ensures states[i].stopping ==> !steps[i].Submit?
    ensures !steps[i].Submit? ==> Rank(states[i + 1]) + (if WorkerStep(steps[i]) then 1 else 0) <= Rank(states[i])
  {
    RunKeepsInv(cfg, answers, states, steps, i);
    assert Moves(cfg, answers, states[i], steps[i], states[i + 1]);
    StepOnward(cfg, answers, states[i], steps[i]);
    if !steps[i].Submit? {
      RankFalls(cfg, answers, states[i], steps[i]);
    }
  }

  lemma StayInRun<R(!new)>(cfg: Config, answers: (seq<string>, Reply<R>) -> bool, states: seq<State<R>>,
                           steps: seq<Step<R>>, i: nat)
    requires Run(cfg, answers, states, steps) && i < |states|
    ensures Onward(states[i], states[i])
  {
    RunKeepsInv(cfg, answers, states, steps, i);
  }

  ghost predicate OnwardAt<R>(states: seq<State<R>>, n: nat)
    requires n + 1 < |states|
  {
    Onward(states[n], states[n + 1])
  }

  lemma {:induction false} OnwardThrough<R>(states: seq<State<R>>, i: nat, j: nat)
    requires i <= j < |states| && Onward(states[i], states[i])
    requires forall n: nat :: i <= n < j ==> OnwardAt(states, n)
    ensures Onward(states[i], states[j])
    decreases j - i
  {
    if i < j {
      OnwardThrough(states, i, j - 1);
      assert OnwardAt(states, j - 1);
      OnwardTransitive(states[i], states[j - 1], states[j]);
    }
  }

  /** Over any stretch of any run. After a cancelling shutdown no future starts running and none is added. */
  lemma RunOnward<R(!new)>(cfg: Config, answers: (seq<string>, Reply<R>) -> bool, states: seq<State<R>>,
                           steps: seq<Step<R>>, i: nat, j: nat)
    requires Run(cfg, answers, states, steps) && i <= j < |states|
    ensures Onward(states[i], states[j])
  {
    StayInRun(cfg, answers, states, steps, i);
    forall n: nat | i <= n < j ensures OnwardAt(states, n) {
      MoveInRun(cfg, answers, states, steps, n);
    }
    OnwardThrough(states, i, j);
  }

  function Completing<R>(s: State<R>): nat
    requires s.worker.Delivering? && s.worker.delivered < |s.worker.active|
  {
    s.worker.active[s.worker.delivered]
  }

  /** The future that a step completes was running, and nothing it went on from was settled. */
  lemma CompletedWasRunning<R(!new)>(cfg: Config, answers: (seq<string>, Reply<R>) -> bool, states: seq<State<R>>,
                                     steps: seq<Step<R>>, j: nat)
    requires Run(cfg, answers, states, steps) && j < |steps| && steps[j].Complete?
    ensures Enabled(cfg, answers, states[j], Complete)
    ensures states[j].status[Completing(states[j])] == Running
    ensures |states[j].status| == |states[j + 1].status| && states[j + 1].status[Completing(states[j])].Done?
  {
    assert Moves(cfg, answers, states[j], steps[j], states[j + 1]);
    RunKeepsInv(cfg, answers, states, steps, j);
    HeadIsTaken(cfg, states[j]);
  }

  lemma RunningWasNotSettled<R>(s: State<R>, s': State<R>, f: nat)
    requires Onward(s, s') && f < |s'.status| && s'.status[f].Running?
    ensures f < |s.status| ==> !Settled(s.status[f])
  {
    assert f < |s.status| ==> Advances(s.status[f], s'.status[f]);
  }

  /** No future is completed twice, and none is completed after it was cancelled. */
  lemma CompletedAtMostOnce<R(!new)>(cfg: Config, answers: (seq<string>, Reply<R>) -> bool, states: seq<State<R>>,
                                     steps: seq<Step<R>>, i: nat, j: nat)
    requires Run(cfg, answers, states, steps) && i <= j < |steps| && steps[j].Complete?
    ensures Enabled(cfg, answers, states[j], Complete)
    ensures var f := Completing(states[j]);
            && states[j].status[f].Running?
            && (f < |states[i].status| ==> !Settled(states[i].status[f]))
            && (i < j && steps[i].Complete? && Enabled(cfg, answers, states[i], Complete) ==>
                Completing(states[i]) != f)
  {
    CompletedWasRunning(cfg, answers, states, steps, j);
    var f := Completing(states[j]);
    RunOnward(cfg, answers, states, steps, i, j);
    RunningWasNotSettled(states[i], states[j], f);
    if i < j && steps[i].Complete? {
      CompletedWasRunning(cfg, answers, states, steps, i);
      RunOnward(cfg, answers, states, steps, i + 1, j);
      RunningWasNotSettled(states[i + 1], states[j], f);
    }
  }

  // ----- shutdown completes -----

  predicate WorkerStep<R>(step: Step<R>) {
    step.Take? || step.CloseBatch? || step.Start? || step.StartNext? || step.Return? || step.Complete? || step.Exit?
  }

  /** Bounds the steps the worker can still take without further submissions. */
  function Rank<R>(s: State<R>): nat {
    8 * |s.pending| +
    match s.worker
    case Idle => 1
    case Gathering(batch) => 2 * |batch| + 6
    case Gathered(batch) => 2 * |batch| + 5
    case Starting(batch, active, next) => if next <= |batch| then 2 * (|batch| - next) + |active| + 4 else 0
    case Calling(active) => |active| + 3
    case Delivering(active, _, delivered, _) => if delivered <= |active| then |active| - delivered + 1 else 0
    case Stopped => 0
    case Dead => 0
  }

  lemma TakeRank<R>(cfg: Config, s: State<R>)
    requires (s.worker.Idle? || s.worker.Gathering?) && s.pending != [] && |BatchSoFar(s.worker)| < cfg.batchSize
    ensures Rank(AfterTake(cfg, s)) < Rank(s)
  {
    var k := TakeCount(cfg, s);
    assert 1 <= k && |s.pending[k..]| == |s.pending| - k;
  }

  lemma StartRank<R>(s: State<R>)
    requires s.worker.Gathered? && Known(s, s.worker.batch)
    ensures Rank(AfterStart(s)) < Rank(s)
  {
  }

  lemma NextRank<R>(s: State<R>)
    requires s.worker.Starting? && s.worker.next < |s.worker.batch| && s.worker.batch[s.worker.next] < |s.status|
    ensures Rank(AfterStartNext(s)) < Rank(s)
  {
  }

  lemma CompleteRank<R>(s: State<R>)
    requires s.worker.Delivering? && s.worker.delivered < |s.worker.active| == |s.worker.outcomes|
    requires s.worker.active[s.worker.delivered] < |s.status|
    ensures Rank(AfterComplete(s)) < Rank(s)
  {
  }

  lemma ShutdownRank<R>(s: State<R>, cancel: bool)
    requires Known(s, s.pending)
    ensures Rank(AfterShutdown(s, cancel)) <= Rank(s)
  {
  }

  lemma CloseRank<R>(s: State<R>)
    requires s.worker.Gathering?
    ensures Rank(AfterClose(s)) < Rank(s)
  {
  }

  lemma ReturnRank<R>(s: State<R>, reply: Reply<R>)
    requires s.worker.Calling?
    ensures Rank(AfterReturn(s, reply)) < Rank(s)
  {
  }

  lemma RankFalls<R>(cfg: Config, answers: (seq<string>, Reply<R>) -> bool, s: State<R>, step: Step<R>)
    requires Enabled(cfg, answers, s, step) && !step.Submit?
    ensures Rank(Apply(cfg, answers, s, step)) + (if WorkerStep(step) then 1 else 0) <= Rank(s)
  {
    match step
    case Take => TakeRank(cfg, s);
    case CloseBatch => CloseRank(s);
    case Start => StartRank(s);
    case StartNext => NextRank(s);
    case Return(reply) => ReturnRank(s, reply);
    case Complete => CompleteRank(s);
    case Shutdown(cancel) => ShutdownRank(s, cancel);
    case Cancel(f) =>
    case Exit =>
  }

  ghost predicate AnswersSomehow<R(!new)>(answers: (seq<string>, Reply<R>) -> bool, texts: seq<string>) {
    exists reply :: answers(texts, reply)
  }

  /** The worker is never stuck while there is something to do, provided the model call ends somehow. */
  lemma WorkerCanMove<R(!new)>(cfg: Config, answers: (seq<string>, Reply<R>) -> bool, s: State<R>)
    returns (step: Step<R>)
    requires cfg.Valid() && CoreInv(cfg, s) && !s.worker.Stopped? && !s.worker.Dead?
    requires s.stopping || s.pending != [] || !s.worker.Idle?
    requires forall texts :: AnswersSomehow(answers, texts)
    ensures WorkerStep(step) && Enabled(cfg, answers, s, step)
  {
    match s.worker
    case Idle => step := if s.pending != [] then Take else Exit;
    case Gathering(_) => step := if s.pending != [] then Take else CloseBatch;
    case Gathered(_) => step := Start;
    case Starting(_, _, _) =>
      NextIsHeld(cfg, s);
      step := StartNext;
    case Calling(active) =>
      assert AnswersSomehow(answers, TextsOf(s, active));
      var reply :| answers(TextsOf(s, active), reply);
      step := Return(reply);
    case Delivering(active, _, delivered, _) =>
      assert active[delivered] == Hand(s.worker)[0];
      step := Complete;
  }

  function WorkerSteps<R>(steps: seq<Step<R>>, i: nat, j: nat): nat
    requires i <= j <= |steps|
    decreases j - i
  {
    if i == j then 0 else WorkerSteps(steps, i, j - 1) + if WorkerStep(steps[j - 1]) then 1 else 0
  }

  lemma {:induction false} StepsWithinRanks<R>(ranks: seq<nat>, steps: seq<Step<R>>, i: nat, j: nat)
    requires |ranks| == |steps| + 1 && i <= j <= |steps|
    requires forall n :: i <= n < j ==> ranks[n + 1] + (if WorkerStep(steps[n]) then 1 else 0) <= ranks[n]
    ensures WorkerSteps(steps, i, j) + ranks[j] <= ranks[i]
    decreases j - i
  {
    if i < j {
      StepsWithinRanks(ranks, steps, i, j - 1);
      assert ranks[(j - 1) + 1] + (if WorkerStep(steps[j - 1]) then 1 else 0) <= ranks[j - 1];
    }
  }

  /** Once stopping, the worker takes at most `Rank` further steps; it is never stuck before it has left or died. */
  lemma ShutdownIsBounded<R(!new)>(cfg: Config, answers: (seq<string>, Reply<R>) -> bool,
                                   states: seq<State<R>>, steps: seq<Step<R>>, i: nat, j: nat)
    requires Run(cfg, answers, states, steps) && i <= j < |states| && states[i].stopping
    ensures states[j].stopping && WorkerSteps(steps, i, j) + Rank(states[j]) <= Rank(states[i])
  {
    var ranks := seq(|states|, n requires 0 <= n < |states| => Rank(states[n]));
    forall n | i <= n < j ensures ranks[n + 1] + (if WorkerStep(steps[n]) then 1 else 0) <= ranks[n] {
      RunOnward(cfg, answers, states, steps, i, n);
      MoveInRun(cfg, answers, states, steps, n);
    }
    StepsWithinRanks(ranks, steps, i, j);
    RunOnward(cfg, answers, states, steps, i, j);
  }

  /** When a stopping worker has nothing left to do it has left, with every future settled, or it has died. */
  lemma QuietMeansGone<R(!new)>(cfg: Config, answers: (seq<string>, Reply<R>) -> bool,
                                states: seq<State<R>>, steps: seq<Step<R>>, i: nat)
    requires cfg.Valid() && Run(cfg, answers, states, steps) && i < |states| && states[i].stopping
    requires forall texts :: AnswersSomehow(answers, texts)
    requires forall step :: WorkerStep(step) ==> !Enabled(cfg, answers, states[i], step)
    ensures states[i].worker.Stopped? || states[i].worker.Dead?
    ensures states[i].worker.Stopped? ==> forall f :: 0 <= f < |states[i].status| ==> Settled(states[i].status[f])
  {
    RunKeepsInv(cfg, answers, states, steps, i);
    if !states[i].worker.Stopped? && !states[i].worker.Dead? {
      var step := WorkerCanMove(cfg, answers, states[i]);
    }
    RunIsSafe(cfg, answers, states, steps, i);
  }
}
