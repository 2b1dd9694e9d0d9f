/**
 * The micro-batching executor as a state machine: each step is what one thread does while it holds the
 * lock, or one atomic update of a future. Owners cancel without the lock, so the worker starts the futures
 * of a batch one step at a time, holding the lock all along.
 */
module Executor {
  import opened Base

  /** What a future ends with: a value of the model or the error of its batch. */
  datatype Outcome<R> = Returned(value: R) | Raised(error: string)

  /** `Notified` is the state of a cancelled future that the worker has seen. */
  datatype Status<R> = Pending | Running | Cancelled | Notified | Done(outcome: Outcome<R>)

  /** What the model call does: a list, something else, or an exception (fatal when it is not an `Exception`). */
  datatype Reply<R> = Values(values: seq<R>) | NotAList | Throws(error: string, fatal: bool)

  datatype Worker<R> =
    | Idle
    | Gathering(batch: seq<nat>)
    | Gathered(batch: seq<nat>)
    | Starting(batch: seq<nat>, active: seq<nat>, next: nat)
    | Calling(active: seq<nat>)
    | Delivering(active: seq<nat>, outcomes: seq<Outcome<R>>, delivered: nat, fatal: bool)
    | Stopped
    | Dead

  datatype Config = Config(batchSize: nat, capacity: nat) {
    ghost predicate Valid() {
      2 <= batchSize <= 32 && batchSize <= capacity
    }
  }

  /** Futures are numbered by submission; `log` lists those the worker has taken, in the order of taking. */
  datatype State<R> = State(
    texts: seq<string>, status: seq<Status<R>>, pending: seq<nat>, worker: Worker<R>,
    stopping: bool, cancelQueued: bool, log: seq<nat>)

  datatype Step<R> =
    | Submit(text: string)
    | Cancel(future: nat)
    | Shutdown(cancel: bool)
    | Take
    | CloseBatch
    | Start
    | StartNext
    | Return(reply: Reply<R>)
    | Complete
    | Exit

  // ----- the steps -----

  function InvalidCount(): string {
    "Invalid NER batch response count."
  }

  /** `future.cancel()`: only a future that has not started can be cancelled. */
  function CancelOne<R>(status: Status<R>): Status<R> {
    if status.Pending? then Cancelled else status
  }

  function CancelEach<R>(status: seq<Status<R>>, futures: seq<nat>): (r: seq<Status<R>>)
    requires forall i :: 0 <= i < |futures| ==> futures[i] < |status|
    ensures |r| == |status|
    ensures forall f :: 0 <= f < |status| ==> r[f] == if f in futures then CancelOne(status[f]) else status[f]
    decreases |futures|
  {
    if futures == [] then status
    else CancelEach(status[futures[0] := CancelOne(status[futures[0]])], futures[1..])
  }

  /** `set_running_or_notify_cancel()` as a status change. */
  function StartOne<R>(status: Status<R>): Status<R> {
    if status.Pending? then Running else if status.Cancelled? then Notified else status
  }

  function OutcomesOf<R>(reply: Reply<R>, n: nat): (r: seq<Outcome<R>>)
    ensures |r| == n
  {
    match reply
    case Values(values) =>
      if |values| == n then seq(n, i requires 0 <= i < n => Returned(values[i]))
      else seq(n, _ => Raised(InvalidCount()))
    case NotAList => seq(n, _ => Raised(InvalidCount()))
    case Throws(error, _) => seq(n, _ => Raised(error))
  }

  function BatchSoFar<R>(worker: Worker<R>): seq<nat> {
    if worker.Gathering? then worker.batch else []
  }

  /** How many queued requests the next take removes. */
  function TakeCount<R>(cfg: Config, s: State<R>): nat
    requires |BatchSoFar(s.worker)| <= cfg.batchSize
  {
    Min(cfg.batchSize - |BatchSoFar(s.worker)|, |s.pending|)
  }

  function Holding<R>(cfg: Config, stopping: bool, batch: seq<nat>): Worker<R> {
    if |batch| >= cfg.batchSize || stopping then Gathered(batch) else Gathering(batch)
  }

  /** The model is called only when some future of the batch has started. */
  function Calls<R>(active: seq<nat>): Worker<R> {
    if active == [] then Idle else Calling(active)
  }

  /** The futures that are, or are about to be, in the model call. */
  function ActiveOf<R>(worker: Worker<R>): seq<nat> {
    match worker
    case Starting(_, active, _) => active
    case Calling(active) => active
    case _ => []
  }

  ghost predicate Known<R>(s: State<R>, futures: seq<nat>) {
    forall i :: 0 <= i < |futures| ==> futures[i] < |s.status|
  }

  /** `answers` relates the texts of a model call to what the call may do. */
  ghost predicate Enabled<R>(cfg: Config, answers: (seq<string>, Reply<R>) -> bool, s: State<R>, step: Step<R>) {
    |s.status| == |s.texts| && Known(s, s.pending) &&
    match step
    case Submit(_) => !s.worker.Starting? && !s.stopping && |s.pending| < cfg.capacity
    case Cancel(f) => f < |s.status|
    case Shutdown(_) => !s.worker.Starting?
    case Take => (s.worker.Idle? || s.worker.Gathering?) && s.pending != [] && |BatchSoFar(s.worker)| < cfg.batchSize
    case CloseBatch => s.worker.Gathering? && s.pending == []
    case Start => s.worker.Gathered? && Known(s, s.worker.batch)
    case StartNext => s.worker.Starting? && s.worker.next < |s.worker.batch|
                      && s.worker.batch[s.worker.next] < |s.status|
    case Return(reply) => s.worker.Calling? && Known(s, s.worker.active) && answers(TextsOf(s, s.worker.active), reply)
    case Complete => s.worker.Delivering? && s.worker.delivered < |s.worker.active| == |s.worker.outcomes|
                     && s.worker.active[s.worker.delivered] < |s.status|
    case Exit => s.worker.Idle? && s.pending == [] && s.stopping
  }

  function TextsOf<R>(s: State<R>, futures: seq<nat>): (r: seq<string>)
    requires |s.status| == |s.texts| && Known(s, futures)
  {
    seq(|futures|, i requires 0 <= i < |futures| => s.texts[futures[i]])
  }

  function Apply<R>(cfg: Config, answers: (seq<string>, Reply<R>) -> bool, s: State<R>, step: Step<R>): State<R>
    requires Enabled(cfg, answers, s, step)
  {
    match step
    case Submit(text) => AfterSubmit(s, text)
    case Cancel(f) => AfterCancel(s, f)
    case Shutdown(cancel) => AfterShutdown(s, cancel)
    case Take => AfterTake(cfg, s)
    case CloseBatch => AfterClose(s)
    case Start => AfterStart(s)
    case StartNext => AfterStartNext(s)
    case Return(reply) => AfterReturn(s, reply)
    case Complete => AfterComplete(s)
    case Exit => s.(worker := Stopped)
  }

  function AfterSubmit<R>(s: State<R>, text: string): State<R> {
    s.(texts := s.texts + [text], status := s.status + [Pending], pending := s.pending + [|s.texts|])
  }

  function AfterCancel<R>(s: State<R>, f: nat): State<R>
    requires f < |s.status|
  {
    s.(status := s.status[f := CancelOne(s.status[f])])
  }

  function AfterShutdown<R>(s: State<R>, cancel: bool): State<R>
    requires Known(s, s.pending)
  {
    if cancel then s.(stopping := true, cancelQueued := true, status := CancelEach(s.status, s.pending), pending := [])
    else s.(stopping := true)
  }

  function AfterTake<R>(cfg: Config, s: State<R>): State<R>
    requires |BatchSoFar(s.worker)| <= cfg.batchSize
  {
    var k := TakeCount(cfg, s);
    s.(worker := Holding(cfg, s.stopping, BatchSoFar(s.worker) + s.pending[..k]),
       pending := s.pending[k..], log := s.log + s.pending[..k])
  }

  lemma TakeMeans<R>(cfg: Config, s: State<R>)
    requires |BatchSoFar(s.worker)| <= cfg.batchSize
    ensures var s' := AfterTake(cfg, s);
            && (s'.worker.Gathering? || s'.worker.Gathered?)
            && s'.worker.batch + s'.pending == BatchSoFar(s.worker) + s.pending
            && |s'.worker.batch| <= cfg.batchSize && (|s'.worker.batch| == cfg.batchSize || s'.pending == [])
            && (s'.worker.Gathered? <==> |s'.worker.batch| == cfg.batchSize || s.stopping)
  {
  }

  function AfterClose<R>(s: State<R>): State<R>
    requires s.worker.Gathering?
  {
    s.(worker := Gathered(s.worker.batch))
  }

  /** The worker takes the lock: it cancels the batch, or sets out to start its futures. */
  function AfterStart<R>(s: State<R>): State<R>
    requires s.worker.Gathered? && Known(s, s.worker.batch)
  {
    if s.cancelQueued then s.(status := CancelEach(s.status, s.worker.batch), worker := Idle)
    else s.(worker := if s.worker.batch == [] then Idle else Starting(s.worker.batch, [], 0))
  }

  /** The futures for which `set_running_or_notify_cancel()` returned true so far, with the next one of the batch. */
  function ActiveAfter<R>(s: State<R>): seq<nat>
    requires s.worker.Starting? && s.worker.next < |s.worker.batch| && s.worker.batch[s.worker.next] < |s.status|
  {
    var future := s.worker.batch[s.worker.next];
    if s.status[future].Pending? then s.worker.active + [future] else s.worker.active
  }

  function AfterStartNext<R>(s: State<R>): State<R>
    requires s.worker.Starting? && s.worker.next < |s.worker.batch| && s.worker.batch[s.worker.next] < |s.status|
  {
    var w := s.worker;
    var future := w.batch[w.next];
    s.(status := s.status[future := StartOne(s.status[future])],
       worker := if w.next + 1 < |w.batch| then Starting(w.batch, ActiveAfter(s), w.next + 1)
                 else Calls(ActiveAfter(s)))
  }

  function AfterReturn<R>(s: State<R>, reply: Reply<R>): State<R>
    requires s.worker.Calling?
  {
    var active := s.worker.active;
    s.(worker := Delivering(active, OutcomesOf(reply, |active|), 0, reply.Throws? && reply.fatal))
  }

  function AfterComplete<R>(s: State<R>): State<R>
    requires s.worker.Delivering? && s.worker.delivered < |s.worker.active| == |s.worker.outcomes|
    requires s.worker.active[s.worker.delivered] < |s.status|
  {
    var w := s.worker;
    s.(status := s.status[w.active[w.delivered] := Done(w.outcomes[w.delivered])],
       worker := if w.delivered + 1 < |w.active| then w.(delivered := w.delivered + 1)
                 else if w.fatal then Dead else Idle)
  }

  function Initial<R>(): State<R> {
    State([], [], [], Idle, false, false, [])
  }

  // ----- the executor -----

  class BatchExecutor<R> {
    const cfg: Config
    ghost const answers: (seq<string>, Reply<R>) -> bool
    var texts: seq<string>
    var status: seq<Status<R>>
    var pending: seq<nat>
    var worker: Worker<R>
    var stopping: bool
    var cancelQueued: bool
    ghost var log: seq<nat>

    ghost function Abs(): State<R>
      reads this
    {
      State(texts, status, pending, worker, stopping, cancelQueued, log)
    }

    ghost predicate Can(step: Step<R>)
      reads this
    {
      Enabled(cfg, answers, Abs(), step)
    }

    constructor (cfg: Config, ghost answers: (seq<string>, Reply<R>) -> bool)
      requires cfg.Valid()
      ensures Abs() == Initial() && this.cfg == cfg && this.answers == answers
    {
      this.cfg, this.answers := cfg, answers;
      texts, status, pending, worker := [], [], [], Idle;
      stopping, cancelQueued, log := false, false, [];
    }

    /** Refused when stopping or full; otherwise the new future is queued last. Called with the lock free. */
    method Submit(text: string) returns (future: Option<nat>)
      requires |status| == |texts| && Known(Abs(), pending) && !worker.Starting?
      modifies this
      ensures future.Some? <==> !old(stopping) && |old(pending)| < cfg.capacity
      ensures future.Some? <==> old(Can(Step.Submit(text)))
      ensures future == None ==> Abs() == old(Abs())
      ensures future.Some? ==>
                && future == Some(|old(texts)|) && Abs() == Apply(cfg, answers, old(Abs()), Step.Submit(text))
                && texts == old(texts) + [text] && status == old(status) + [Pending]
                && pending == old(pending) + [|old(texts)|]
    {
      if stopping || |pending| >= cfg.capacity {
        return None;
      }
      future := Some(|texts|);
      pending := pending + [|texts|];
      texts, status := texts + [text], status + [Pending];
    }

    /** The owner of a future cancels it. */
    method Cancel(future: nat) returns (cancelled: bool)
      requires Can(Step.Cancel(future))
      modifies this`status
      ensures Abs() == Apply(cfg, answers, old(Abs()), Step.Cancel(future))
      ensures cancelled <==>
                old(status[future]).Pending? || old(status[future]).Cancelled? || old(status[future]).Notified?
      ensures old(status[future]).Pending? ==> status[future] == Cancelled
      ensures !old(status[future]).Pending? ==> status == old(status)
      ensures |status| == |old(status)| && forall f :: 0 <= f < |status| && f != future ==> status[f] == old(status[f])
    {
      status := status[future := CancelOne(status[future])];
      return status[future].Cancelled? || status[future].Notified?;
    }

    method ShutDown(cancel: bool)
      requires Can(Shutdown(cancel))
      modifies this
      ensures Abs() == Apply(cfg, answers, old(Abs()), Shutdown(cancel))
      ensures stopping && (cancelQueued <==> old(cancelQueued) || cancel) && unchanged(this`worker)
      ensures pending == if cancel then [] else old(pending)
      ensures |status| == |old(status)|
      ensures forall f :: 0 <= f < |status| ==>
                status[f] == if cancel && f in old(pending) && old(status)[f].Pending? then Cancelled
                             else old(status)[f]
    {
      stopping := true;
      cancelQueued := cancelQueued || cancel;
      if cancel {
        ghost var whole := CancelEach(status, pending);
        while pending != []
          invariant |status| == |texts| && Known(Abs(), pending) && CancelEach(status, pending) == whole
          invariant unchanged(this`texts, this`worker, this`log) && stopping && cancelQueued
          decreases |pending|
        {
          status := status[pending[0] := CancelOne(status[pending[0]])];
          pending := pending[1..];
        }
      }
    }

    /** The part of `_take_batch` between two waits: empties the queue into the batch up to the batch size. */
    method Take()
      requires Can(Step.Take)
      modifies this
      ensures Abs() == Apply(cfg, answers, old(Abs()), Step.Take)
      ensures (worker.Gathering? || worker.Gathered?) && worker.batch + pending == old(BatchSoFar(worker) + pending)
      ensures |worker.batch| <= cfg.batchSize && (|worker.batch| == cfg.batchSize || pending == [])
      ensures worker.Gathered? <==> |worker.batch| == cfg.batchSize || stopping
    {
      TakeMeans(cfg, Abs());
      var batch := BatchSoFar(worker);
      ghost var queue, begun, n := pending, batch, 0;
      while |batch| < cfg.batchSize && pending != []
        invariant 0 <= n <= |queue| && pending == queue[n..] && batch == begun + queue[..n] && |batch| <= cfg.batchSize
        invariant unchanged(this`texts, this`status, this`worker, this`stopping, this`cancelQueued, this`log)
        decreases |pending|
      {
        batch := batch + [pending[0]];
        pending := pending[1..];
        n := n + 1;
      }
      log := log + queue[..n];
      worker := Holding(cfg, stopping, batch);
    }

    /** The deadline has passed, or the executor is stopping, and nothing more is queued. */
    method Close()
      requires Can(CloseBatch)
      modifies this`worker
      ensures Abs() == Apply(cfg, answers, old(Abs()), CloseBatch)
    {
      worker := Gathered(worker.batch);
    }

    /** `_process_batch` has the lock: it cancels the whole batch, or sets out to start its futures. */
    method BeginStart()
      requires Can(Start)
      modifies this`status, this`worker
      ensures Abs() == Apply(cfg, answers, old(Abs()), Start)
      ensures |status| == |old(status)|
      ensures forall f :: 0 <= f < |status| ==>
                status[f] == if cancelQueued && f in old(worker.batch) && old(status)[f].Pending? then Cancelled
                             else old(status)[f]
      ensures worker == if cancelQueued || old(worker.batch) == [] then Idle else Starting(old(worker.batch), [], 0)
    {
      var batch := worker.batch;
      if !cancelQueued {
        worker := if batch == [] then Idle else Starting(batch, [], 0);
        return;
      }
      ghost var whole := CancelEach(status, batch);
      for n := 0 to |batch|
        invariant worker == old(worker) && |status| == |old(status)| && CancelEach(status, batch[n..]) == whole
      {
        status := status[batch[n] := CancelOne(status[batch[n]])];
      }
      worker := Idle;
    }

    /** `set_running_or_notify_cancel` of the next future of the batch; the last one releases the lock. */
    method StartOneFuture()
      requires Can(StartNext)
      modifies this`status, this`worker
      ensures Abs() == Apply(cfg, answers, old(Abs()), StartNext)
      ensures var future := old(worker.batch[worker.next]);
              && |status| == |old(status)|
              && (old(status[future]).Pending? ==>
                    status[future] == Running && ActiveOf(worker) == old(ActiveOf(worker)) + [future])
              && (old(status[future]).Cancelled? ==>
                    status[future] == Notified && ActiveOf(worker) == old(ActiveOf(worker)))
              && forall f :: 0 <= f < |status| && f != future ==> status[f] == old(status[f])
      ensures old(worker.next) + 1 < |old(worker.batch)| <==> worker.Starting?
    {
      var future := worker.batch[worker.next];
      var active := worker.active;
      if status[future].Pending? {
        active := active + [future];
      }
      status := status[future := StartOne(status[future])];
      if worker.next + 1 < |worker.batch| {
        worker := Starting(worker.batch, active, worker.next + 1);
      } else {
        worker := Calls(active);
      }
    }

    /** The model call returns or raises. */
    method Receive(reply: Reply<R>)
      requires Can(Return(reply))
      modifies this`worker
      ensures Abs() == Apply(cfg, answers, old(Abs()), Return(reply))
    {
      worker := Delivering(worker.active, OutcomesOf(reply, |worker.active|), 0, reply.Throws? && reply.fatal);
    }

    /** `set_result` or `set_exception` of the next future of the batch. */
    method CompleteNext()
      requires Can(Complete)
      modifies this`status, this`worker
      ensures Abs() == Apply(cfg, answers, old(Abs()), Complete)
    {
      status := status[worker.active[worker.delivered] := Done(worker.outcomes[worker.delivered])];
      if worker.delivered + 1 < |worker.active| {
        worker := worker.(delivered := worker.delivered + 1);
      } else {
        worker := if worker.fatal then Dead else Idle;
      }
    }

    method Leave()
      requires Can(Exit)
      modifies this`worker
      ensures Abs() == Apply(cfg, answers, old(Abs()), Exit)
    {
      worker := Stopped;
    }
  }
}
