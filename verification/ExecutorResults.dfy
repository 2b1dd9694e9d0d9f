/** What the runs of the executor deliver: which reply reaches which future, who cancels, and what kills the worker. */
module ExecutorResults {
  import opened Base
  import opened Executor
  import opened ExecutorRuns

  // ----- replies reach their futures -----

  /** What the future at position `k` of a call on `n` texts is owed. */
  predicate Owed<R(==)>(reply: Reply<R>, n: nat, k: nat, outcome: Outcome<R>) {
    match reply
    case Values(values) =>
      outcome == if |values| == n && k < n then Returned(values[k]) else Raised("Invalid NER batch response count.")
    case NotAList => outcome == Raised("Invalid NER batch response count.")
    case Throws(error, _) => outcome == Raised(error)
  }

  predicate IsFatal<R>(reply: Reply<R>) {
    reply.Throws? && reply.fatal
  }

  /** The future is done with what it is owed, or the worker still holds that for it. */
  ghost predicate Delivered<R>(s: State<R>, active: seq<nat>, reply: Reply<R>, k: nat)
    requires k < |active|
  {
    active[k] < |s.status| &&
    if s.status[active[k]].Done? then Owed(reply, |active|, k, s.status[active[k]].outcome)
    else
      && s.status[active[k]].Running? && s.worker.Delivering? && s.worker.active == active
      && |s.worker.outcomes| == |active| && s.worker.delivered <= k
      && Owed(reply, |active|, k, s.worker.outcomes[k]) && s.worker.fatal == IsFatal(reply)
  }

  lemma ReturnDelivers<R>(cfg: Config, answers: (seq<string>, Reply<R>) -> bool, s: State<R>, reply: Reply<R>)
    requires HandInv(cfg, s) && Enabled(cfg, answers, s, Return(reply))
    ensures s.worker.Calling?
    ensures forall k: nat :: k < |s.worker.active| ==>
              Delivered(Apply(cfg, answers, s, Return(reply)), s.worker.active, reply, k)
  {
  }

  lemma StepKeepsDelivered<R>(cfg: Config, answers: (seq<string>, Reply<R>) -> bool, s: State<R>, step: Step<R>,
                              active: seq<nat>, reply: Reply<R>, k: nat)
    requires CoreInv(cfg, s) && Enabled(cfg, answers, s, step) && k < |active| && Delivered(s, active, reply, k)
    ensures Delivered(Apply(cfg, answers, s, step), active, reply, k)
  {
    hide QueueInv, StatusInv, AllRunning, AllUnstarted, Latest;
    StepOnward(cfg, answers, s, step);
    var s' := Apply(cfg, answers, s, step);
    assert Advances(s.status[active[k]], s'.status[active[k]]);
    if !s.status[active[k]].Done? {
      assert step.Submit? || step.Cancel? || step.Shutdown? || step.Complete?;
    }
  }

  /**
   * Once a model call has replied, every future of the call ends with what its position is owed: its own value, the
   * error thrown, or the wrong count. Until then it is running and the worker is delivering.
   */
  lemma {:induction false} ReplyIsDelivered<R(!new)>(cfg: Config, answers: (seq<string>, Reply<R>) -> bool,
                                                     states: seq<State<R>>, steps: seq<Step<R>>, n: nat,
                                                     reply: Reply<R>, j: nat, k: nat)
    requires Run(cfg, answers, states, steps) && n < j < |states| && steps[n] == Return(reply)
    ensures states[n].worker.Calling?
    ensures k < |states[n].worker.active| ==> Delivered(states[j], states[n].worker.active, reply, k)
    decreases j
  {
    hide Delivered, Enabled, Apply, QueueInv, HandInv, StatusInv, OwnInv;
    RunKeepsInv(cfg, answers, states, steps, n);
    RunKeepsInv(cfg, answers, states, steps, j - 1);
    assert Moves(cfg, answers, states[n], steps[n], states[n + 1]);
    assert Moves(cfg, answers, states[j - 1], steps[j - 1], states[j]);
    ReturnDelivers(cfg, answers, states[n], reply);
    if k < |states[n].worker.active| {
      if j > n + 1 {
        ReplyIsDelivered(cfg, answers, states, steps, n, reply, j - 1, k);
        StepKeepsDelivered(cfg, answers, states[j - 1], steps[j - 1], states[n].worker.active, reply, k);
      }
    }
  }

  // ----- fatal errors -----

  predicate Doomed<R>(worker: Worker<R>) {
    worker.Dead? || (worker.Delivering? && worker.fatal)
  }

  ghost predicate FatalStep<R>(step: Step<R>) {
    step.Return? && IsFatal(step.reply)
  }

  lemma StepDooms<R>(cfg: Config, answers: (seq<string>, Reply<R>) -> bool, s: State<R>, step: Step<R>)
    requires Enabled(cfg, answers, s, step)
    ensures Doomed(Apply(cfg, answers, s, step).worker) <==> Doomed(s.worker) || FatalStep(step)
  {
  }

  /** The worker dies, after handing out the error, exactly of a model call that raised something fatal. */
  lemma {:induction false} DoomedByFatal<R(!new)>(cfg: Config, answers: (seq<string>, Reply<R>) -> bool,
                                                  states: seq<State<R>>, steps: seq<Step<R>>, j: nat)
    requires Run(cfg, answers, states, steps) && j < |states|
    ensures Doomed(states[j].worker) <==> exists n :: 0 <= n < j && FatalStep(steps[n])
  {
    if j > 0 {
      DoomedByFatal(cfg, answers, states, steps, j - 1);
      assert Moves(cfg, answers, states[j - 1], steps[j - 1], states[j]);
      StepDooms(cfg, answers, states[j - 1], steps[j - 1]);
    }
  }

  // ----- who cancels -----

  ghost predicate CancelsAll<R>(step: Step<R>) {
    step == Shutdown(true)
  }

  lemma {:induction false} CancelQueuedByShutdown<R(!new)>(cfg: Config, answers: (seq<string>, Reply<R>) -> bool,
                                                           states: seq<State<R>>, steps: seq<Step<R>>, j: nat)
    requires Run(cfg, answers, states, steps) && j < |states|
    ensures states[j].cancelQueued <==> exists n :: 0 <= n < j && CancelsAll(steps[n])
  {
    if j > 0 {
      CancelQueuedByShutdown(cfg, answers, states, steps, j - 1);
      assert Moves(cfg, answers, states[j - 1], steps[j - 1], states[j]);
    }
  }

  lemma StepCancels<R>(cfg: Config, answers: (seq<string>, Reply<R>) -> bool, s: State<R>, step: Step<R>, f: nat)
    requires Enabled(cfg, answers, s, step) && f < |s.status| && !s.status[f].Cancelled?
    ensures var s' := Apply(cfg, answers, s, step);
            f < |s'.status| && (s'.status[f].Cancelled? ==> step == Cancel(f) || s'.cancelQueued)
  {
  }

  /** A future is cancelled by its owner or once a shutdown that cancels has been asked for, and in no other way. */
  lemma CancelledByOwnerOrShutdown<R(!new)>(cfg: Config, answers: (seq<string>, Reply<R>) -> bool,
                                            states: seq<State<R>>, steps: seq<Step<R>>, m: nat, f: nat)
    requires Run(cfg, answers, states, steps) && m < |steps| && f < |states[m].status|
    requires !states[m].status[f].Cancelled?
    ensures f < |states[m + 1].status|
    ensures states[m + 1].status[f].Cancelled? ==>
              steps[m] == Cancel(f) || exists n :: 0 <= n <= m && CancelsAll(steps[n])
  {
    assert Moves(cfg, answers, states[m], steps[m], states[m + 1]);
    StepCancels(cfg, answers, states[m], steps[m], f);
    CancelQueuedByShutdown(cfg, answers, states, steps, m + 1);
  }

  /** After a shutdown that cancels, futures not yet taken are cancelled, and a taken batch when it would start. */
  lemma CancellingShutdownCancels<R(!new)>(cfg: Config, answers: (seq<string>, Reply<R>) -> bool,
                                           states: seq<State<R>>, steps: seq<Step<R>>, n: nat, m: nat)
    requires Run(cfg, answers, states, steps) && n < m < |states| && CancelsAll(steps[n])
    ensures forall f :: |states[m].log| <= f < |states[m].status| ==> states[m].status[f].Cancelled?
    ensures m < |steps| && steps[m].Start? ==>
              && states[m].worker.Gathered? && states[m + 1].worker == Idle
              && forall f :: f in states[m].worker.batch ==>
                   f < |states[m + 1].status| && states[m + 1].status[f].Cancelled?
  {
    RunKeepsInv(cfg, answers, states, steps, m);
    CancelQueuedByShutdown(cfg, answers, states, steps, m);
    if m < |steps| && steps[m].Start? {
      assert Moves(cfg, answers, states[m], steps[m], states[m + 1]);
      StartCancels(states[m]);
    }
  }

  lemma StartCancels<R>(s: State<R>)
    requires s.worker.Gathered? && Known(s, s.worker.batch) && AllUnstarted(s, s.worker.batch) && s.cancelQueued
    ensures AfterStart(s).worker == Idle
    ensures forall f :: f in s.worker.batch ==> f < |AfterStart(s).status| && AfterStart(s).status[f].Cancelled?
  {
    forall f | f in s.worker.batch ensures f < |s.status| && Unstarted(s.status[f]) {
      var i :| 0 <= i < |s.worker.batch| && s.worker.batch[i] == f;
    }
  }
}
