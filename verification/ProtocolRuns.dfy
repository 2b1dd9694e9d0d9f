/** Every interleaving of requests over one store, with records expiring as the clock moves. */
module ProtocolRuns {
  import opened Base
  import opened Transform
  import opened Restore
  import opened Tokens
  import opened Protocol
  import Vault

  type Kept = Vault.Entry<Record>

  /** `Done` remembers the stored record the answer rests on, and whether it was found on reading. */
  datatype Phase = Arrived | Computing | Ready(record: Record) | Done(reply: Reply, kept: Option<Kept>, onRead: bool)

  datatype State = State(requests: seq<Request>, phases: seq<Phase>, records: seq<Kept>, clock: real)

  datatype Step =
    | Arrive(request: Request)
    | Look(i: nat, now: real)
    | Compute(i: nat, record: Record)
    | Store(i: nat, now: real, later: real)
    | Abort(i: nat)

  datatype Config = Config(st: Settings, limits: Vault.Limits<Record>) {
    ghost predicate Valid() {
      st.Valid() && limits.Valid()
    }
  }

  ghost predicate Enabled(c: Config, s: State, step: Step) {
    |s.phases| == |s.requests| &&
    match step
    case Arrive(_) => true
    case Look(i, now) => i < |s.phases| && s.phases[i].Arrived? && s.clock <= now
    case Compute(i, record) => i < |s.phases| && s.phases[i].Computing? && Built(c.st, s.requests[i], record)
    case Store(i, now, later) => i < |s.phases| && s.phases[i].Ready? && s.clock <= now <= later
    case Abort(i) => i < |s.phases| && !s.phases[i].Done?
  }

  function LookOp(c: Config, q: Request, now: real): Vault.Op<Record> {
    Vault.Get(KeyOf(c.st, q), now)
  }

  function StoreOp(c: Config, q: Request, record: Record, now: real, later: real): Vault.Op<Record> {
    Vault.Put(KeyOf(c.st, q), record, now, later)
  }

  function LookPhase(c: Config, s: State, q: Request, now: real): Phase {
    var reply := AfterLook(c.st, q, Vault.Answer(c.limits, s.records, LookOp(c, q, now)));
    if reply.None? then Computing
    else Done(reply.value, Vault.Find(Vault.Live(s.records, now), KeyOf(c.st, q)), true)
  }

  function StorePhase(c: Config, s: State, q: Request, record: Record, now: real, later: real): Phase {
    var op := StoreOp(c, q, record, now, later);
    var found := Vault.Find(Vault.Live(s.records, now), KeyOf(c.st, q));
    Done(AfterStore(c.st, q, Vault.Answer(c.limits, s.records, op)),
         if found.Some? then found else Vault.Added(c.limits, s.records, op), false)
  }

  function Apply(c: Config, s: State, step: Step): State
    requires Enabled(c, s, step)
  {
    match step
    case Arrive(q) => s.(requests := s.requests + [q], phases := s.phases + [Arrived])
    case Look(i, now) =>
      s.(phases := s.phases[i := LookPhase(c, s, s.requests[i], now)],
         records := Vault.After(c.limits, s.records, LookOp(c, s.requests[i], now)), clock := now)
    case Compute(i, record) => s.(phases := s.phases[i := Ready(record)])
    case Store(i, now, later) =>
      s.(phases := s.phases[i := StorePhase(c, s, s.requests[i], s.phases[i].record, now, later)],
         records := Vault.After(c.limits, s.records, StoreOp(c, s.requests[i], s.phases[i].record, now, later)),
         clock := later)
    case Abort(i) => s.(phases := s.phases[i := Done(Refused(Unavailable), None, false)])
  }

  // ----- the invariant -----

  /** Request `w` supplied the text behind the record of `e`. */
  ghost predicate Owns(c: Config, requests: seq<Request>, e: Kept, w: int) {
    0 <= w < |requests| && e.key == KeyOf(c.st, requests[w]) && Built(c.st, requests[w], e.record)
  }

  ghost predicate Owned(c: Config, requests: seq<Request>, e: Kept) {
    exists w :: Owns(c, requests, e, w)
  }

  /** What a request may be told on account of `e`, in terms of the text behind it. */
  ghost predicate Told(c: Config, requests: seq<Request>, e: Kept, q: Request, reply: Reply, onRead: bool) {
    forall w :: Owns(c, requests, e, w) ==> reply == Telling(c, requests[w], e, q, onRead)
  }

  /** A request that already computed a record of its own never restores. */
  function Telling(c: Config, first: Request, e: Kept, q: Request, onRead: bool): Reply {
    if !onRead && q.payload != first.payload then Refused(PayloadConflict) else Expected(c.st, first, e.record, q)
  }

  ghost predicate PhaseInv(c: Config, s: State, q: Request, phase: Phase) {
    match phase
    case Ready(record) => q.op != Unmask && Built(c.st, q, record)
    case Computing => q.op != Unmask
    case Done(reply, None, _) => reply.Refused?
    case Done(reply, Some(e), onRead) =>
      && e.key == KeyOf(c.st, q) && Owned(c, s.requests, e) && Told(c, s.requests, e, q, reply, onRead)
      && (onRead || q.op != Unmask) && (e in s.records || e.expiry <= s.clock)
    case _ => true
  }

  ghost predicate Inv(c: Config, s: State) {
    && |s.phases| == |s.requests| && Vault.Sound(c.limits, s.records, s.clock)
    && (forall e :: e in s.records ==> Owned(c, s.requests, e))
    && (forall i :: 0 <= i < |s.phases| ==> PhaseInv(c, s, s.requests[i], s.phases[i]))
  }

  /** All owners of an entry supplied the same text in the same mode. */
  lemma OwnersAgree(c: Config, requests: seq<Request>, e: Kept, v: nat, w: nat)
    requires c.Valid() && Owns(c, requests, e, v) && Owns(c, requests, e, w)
    ensures requests[v].payload == requests[w].payload && requests[v].mode == requests[w].mode
    ensures requests[v].tenant == requests[w].tenant && requests[v].payloadId == requests[w].payloadId
  {
    var a, b := requests[v], requests[w];
    assert c.st.keyName((a.tenant, a.payloadId)) == c.st.keyName((b.tenant, b.payloadId));
    assert c.st.digest(a.payload) == c.st.digest(b.payload);
  }

  /** More requests do not change who owns what, nor what was told. */
  lemma MoreRequests(c: Config, requests: seq<Request>, more: seq<Request>, e: Kept)
    requires c.Valid() && Owned(c, requests, e)
    ensures Owned(c, requests + more, e)
    ensures forall q, reply, onRead :: Told(c, requests, e, q, reply, onRead) ==>
              Told(c, requests + more, e, q, reply, onRead)
  {
    var v :| Owns(c, requests, e, v);
    assert Owns(c, requests + more, e, v);
    forall q, reply, onRead | Told(c, requests, e, q, reply, onRead)
      ensures Told(c, requests + more, e, q, reply, onRead)
    {
      ToldThroughOne(c, requests + more, e, v, q, reply, onRead);
    }
  }

  /** What was told on account of one owner holds for all of them. */
  lemma ToldThroughOne(c: Config, requests: seq<Request>, e: Kept, v: int, q: Request, reply: Reply, onRead: bool)
    requires c.Valid() && Owns(c, requests, e, v) && reply == Telling(c, requests[v], e, q, onRead)
    ensures Told(c, requests, e, q, reply, onRead)
  {
    forall w | Owns(c, requests, e, w) ensures reply == Telling(c, requests[w], e, q, onRead) {
      OwnersAgree(c, requests, e, v, w);
      ExpectedDependsOnText(c, requests[v], requests[w], e, q, onRead);
    }
  }

  lemma ExpectedDependsOnText(c: Config, a: Request, b: Request, e: Kept, q: Request, onRead: bool)
    requires a.payload == b.payload && a.mode == b.mode
    ensures Telling(c, a, e, q, onRead) == Telling(c, b, e, q, onRead)
  {
  }

  lemma ToldOnRead(c: Config, requests: seq<Request>, e: Kept, q: Request)
    requires c.Valid() && Owned(c, requests, e) && e.key == KeyOf(c.st, q)
    ensures Told(c, requests, e, q, ResolveReply(c.st, q, e.record), true)
  {
    forall w | Owns(c, requests, e, w) ensures ResolveReply(c.st, q, e.record) == Telling(c, requests[w], e, q, true) {
      SameTenant(c, requests[w], q);
      ResolveIsExpected(c.st, requests[w], e.record, q);
    }
  }

  lemma SameTenant(c: Config, a: Request, b: Request)
    requires c.Valid() && KeyOf(c.st, a) == KeyOf(c.st, b)
    ensures a.tenant == b.tenant && a.payloadId == b.payloadId
  {
    assert (a.tenant, a.payloadId) == (b.tenant, b.payloadId);
  }

  lemma ToldOnStore(c: Config, requests: seq<Request>, e: Kept, q: Request)
    requires c.Valid() && Owned(c, requests, e) && e.key == KeyOf(c.st, q) && q.op != Unmask
    ensures Told(c, requests, e, q, KeptReply(c.st, q, e.record), false)
  {
    forall w | Owns(c, requests, e, w) ensures KeptReply(c.st, q, e.record) == Telling(c, requests[w], e, q, false) {
      SameTenant(c, requests[w], q);
      KeptIsExpected(c.st, requests[w], e.record, q);
    }
  }

  lemma ArriveKeepsInv(c: Config, s: State, q: Request)
    requires c.Valid() && Inv(c, s)
    ensures Inv(c, Apply(c, s, Arrive(q)))
  {
    var s' := Apply(c, s, Arrive(q));
    forall e | e in s'.records ensures Owned(c, s'.requests, e) {
      MoreRequests(c, s.requests, [q], e);
    }
    forall i | 0 <= i < |s'.phases| ensures PhaseInv(c, s', s'.requests[i], s'.phases[i]) {
      if i < |s.phases| {
        assert PhaseInv(c, s, s.requests[i], s.phases[i]);
        if s.phases[i].Done? && s.phases[i].kept.Some? {
          MoreRequests(c, s.requests, [q], s.phases[i].kept.value);
        }
      }
    }
  }

  /** Store operations leave the answers of other requests as they are. */
  lemma OthersKeepPhase(c: Config, s: State, s': State, op: Vault.Op<Record>, i: nat)
    requires Inv(c, s) && i < |s.phases| && s'.requests == s.requests
    requires s'.records == Vault.After(c.limits, s.records, op) && s.clock <= op.now <= s'.clock
    ensures PhaseInv(c, s', s.requests[i], s.phases[i])
  {
    assert PhaseInv(c, s, s.requests[i], s.phases[i]);
  }

  /** The answer given on reading rests on an owned record that stays in the store until it expires. */
  lemma LookPhaseHolds(c: Config, s: State, i: nat, now: real)
    requires c.Valid() && Inv(c, s) && Enabled(c, s, Look(i, now))
    ensures PhaseInv(c, Apply(c, s, Look(i, now)), s.requests[i], LookPhase(c, s, s.requests[i], now))
  {
    var q := s.requests[i];
    var found := Vault.Find(Vault.Live(s.records, now), KeyOf(c.st, q));
    if found.Some? {
      ToldOnRead(c, s.requests, found.value, q);
    }
  }

  lemma LookKeepsInv(c: Config, s: State, i: nat, now: real)
    requires c.Valid() && Inv(c, s) && Enabled(c, s, Look(i, now))
    ensures Inv(c, Apply(c, s, Look(i, now)))
  {
    var s', q := Apply(c, s, Look(i, now)), s.requests[i];
    Vault.AfterKeepsSound(c.limits, s.records, s.clock, LookOp(c, q, now));
    LookPhaseHolds(c, s, i, now);
    forall j | 0 <= j < |s'.phases| && j != i ensures PhaseInv(c, s', s'.requests[j], s'.phases[j]) {
      OthersKeepPhase(c, s, s', LookOp(c, q, now), j);
    }
  }

  /** The record that a store step keeps has an owner. */
  lemma StoredIsOwned(c: Config, s: State, i: nat, now: real, later: real)
    requires c.Valid() && Inv(c, s) && Enabled(c, s, Store(i, now, later))
    ensures forall e :: e in Apply(c, s, Store(i, now, later)).records ==> Owned(c, s.requests, e)
  {
    assert PhaseInv(c, s, s.requests[i], s.phases[i]);
    var added := Vault.Added(c.limits, s.records, StoreOp(c, s.requests[i], s.phases[i].record, now, later));
    if added.Some? {
      assert Owns(c, s.requests, added.value, i);
    }
  }

  /** The record a writer is answered from is in the store after its step. */
  lemma StorePhaseFits(c: Config, s: State, q: Request, record: Record, now: real, later: real)
    ensures var phase := StorePhase(c, s, q, record, now, later);
            match phase.kept
            case None => phase.reply.Refused?
            case Some(e) =>
              && e.key == KeyOf(c.st, q) && phase.reply == KeptReply(c.st, q, e.record)
              && e in Vault.After(c.limits, s.records, StoreOp(c, q, record, now, later))
  {
  }

  /** And the answer given on writing is what that owner's text implies. */
  lemma StorePhaseHolds(c: Config, s: State, i: nat, now: real, later: real)
    requires c.Valid() && Inv(c, s) && Enabled(c, s, Store(i, now, later))
    ensures PhaseInv(c, Apply(c, s, Store(i, now, later)), s.requests[i],
                     StorePhase(c, s, s.requests[i], s.phases[i].record, now, later))
  {
    var q := s.requests[i];
    assert PhaseInv(c, s, q, s.phases[i]);
    StoredIsOwned(c, s, i, now, later);
    StorePhaseFits(c, s, q, s.phases[i].record, now, later);
    var phase := StorePhase(c, s, q, s.phases[i].record, now, later);
    if phase.kept.Some? {
      ToldOnStore(c, s.requests, phase.kept.value, q);
    }
  }

  lemma StoreKeepsInv(c: Config, s: State, i: nat, now: real, later: real)
    requires c.Valid() && Inv(c, s) && Enabled(c, s, Store(i, now, later))
    ensures Inv(c, Apply(c, s, Store(i, now, later)))
  {
    var s', q := Apply(c, s, Store(i, now, later)), s.requests[i];
    var op := StoreOp(c, q, s.phases[i].record, now, later);
    Vault.AfterKeepsSound(c.limits, s.records, s.clock, op);
    StoredIsOwned(c, s, i, now, later);
    StorePhaseHolds(c, s, i, now, later);
    forall j | 0 <= j < |s'.phases| && j != i ensures PhaseInv(c, s', s'.requests[j], s'.phases[j]) {
      OthersKeepPhase(c, s, s', op, j);
    }
  }

  lemma LocalKeepsInv(c: Config, s: State, i: nat, phase: Phase)
    requires Inv(c, s) && i < |s.phases| && PhaseInv(c, s, s.requests[i], phase)
    ensures Inv(c, s.(phases := s.phases[i := phase]))
  {
    var s' := s.(phases := s.phases[i := phase]);
    forall j | 0 <= j < |s'.phases| ensures PhaseInv(c, s', s'.requests[j], s'.phases[j]) {
      assert PhaseInv(c, s, s.requests[j], s.phases[j]);
    }
  }

  lemma StepKeepsInv(c: Config, s: State, step: Step)
    requires c.Valid() && Inv(c, s) && Enabled(c, s, step)
    ensures Inv(c, Apply(c, s, step))
  {
    match step
    case Arrive(q) => ArriveKeepsInv(c, s, q);
    case Look(i, now) => LookKeepsInv(c, s, i, now);
    case Compute(i, record) =>
      assert PhaseInv(c, s, s.requests[i], s.phases[i]);
      LocalKeepsInv(c, s, i, Ready(record));
    case Store(i, now, later) => StoreKeepsInv(c, s, i, now, later);
    case Abort(i) => LocalKeepsInv(c, s, i, Done(Refused(Unavailable), None, false));
  }

  // ----- runs -----

  ghost predicate Run(c: Config, states: seq<State>, steps: seq<Step>) {
    && c.Valid() && |states| == |steps| + 1 && states[0].requests == []
    && states[0].phases == [] && states[0].records == []
    && forall n :: 0 <= n < |steps| ==> Moves(c, states[n], steps[n], states[n + 1])
  }

  ghost predicate Moves(c: Config, s: State, step: Step, s': State) {
    Enabled(c, s, step) && s' == Apply(c, s, step)
  }

  lemma {:induction false} RunKeepsInv(c: Config, states: seq<State>, steps: seq<Step>, n: nat)
    requires Run(c, states, steps) && n < |states|
    ensures Inv(c, states[n])
  {
    if n > 0 {
      RunKeepsInv(c, states, steps, n - 1);
      assert Moves(c, states[n - 1], steps[n - 1], states[n]);
      StepKeepsInv(c, states[n - 1], steps[n - 1]);
    }
  }

  /** An answer that rests on a stored record, in a reachable state. */
  ghost predicate AnsweredBy(s: State, i: nat, e: Kept, reply: Reply) {
    i < |s.phases| && s.phases[i].Done? && s.phases[i].kept == Some(e) && s.phases[i].reply == reply
  }

  /** Whoever was answered on account of `e` was told what its owner's text implies. */
  lemma AnswerMeaning(c: Config, states: seq<State>, steps: seq<Step>, n: nat, i: nat, e: Kept, reply: Reply)
    returns (w: int)
    requires Run(c, states, steps) && n < |states| && AnsweredBy(states[n], i, e, reply)
    ensures |states[n].requests| == |states[n].phases| && Owns(c, states[n].requests, e, w)
    ensures SameSource(states[n].requests[w], states[n].requests[i])
    ensures Told(c, states[n].requests, e, states[n].requests[i], reply, states[n].phases[i].onRead)
    ensures e in states[n].records || e.expiry <= states[n].clock
  {
    RunKeepsInv(c, states, steps, n);
    var s := states[n];
    assert PhaseInv(c, s, s.requests[i], s.phases[i]);
    w :| Owns(c, s.requests, e, w);
    SameTenant(c, s.requests[w], s.requests[i]);
  }

  /** For a tenant that may not unmask, the store never holds an original. */
  lemma NoOriginalsKept(c: Config, states: seq<State>, steps: seq<Step>, n: nat, e: Kept)
    returns (w: int)
    requires Run(c, states, steps) && n < |states| && e in states[n].records
    ensures Owns(c, states[n].requests, e, w)
    ensures !c.st.policy(states[n].requests[w].tenant).allowUnmask ==> e.record.items == []
  {
    RunKeepsInv(c, states, steps, n);
    assert Owned(c, states[n].requests, e);
    w :| Owns(c, states[n].requests, e, w);
  }

  predicate SameSource(a: Request, b: Request) {
    a.tenant == b.tenant && a.payloadId == b.payloadId
  }

  lemma MaskedMeans(c: Config, first: Request, e: Kept, q: Request, onRead: bool)
    requires Telling(c, first, e, q, onRead).Masked?
    ensures q.payload == first.payload && Telling(c, first, e, q, onRead).text == e.record.masked
    ensures q.op != Unmask && (q.op == MaskOnly ==> q.mode == first.mode)
  {
  }

  ghost predicate RestoredFor(c: Config, first: Request, e: Kept, q: Request, text: string) {
    && c.st.policy(q.tenant).allowUnmask && q.op != MaskOnly
    && if q.payload == e.record.masked then text == first.payload
       else q.op == Unmask && first.mode == Token
            && RestoreTokensOf(q.payload, TokenMap(e.record.items), Some(c.st.maxChars)) == Success(text)
  }

  lemma RestoredMeans(c: Config, first: Request, e: Kept, q: Request, onRead: bool, text: string)
    requires Telling(c, first, e, q, onRead) == Restored(text)
    ensures RestoredFor(c, first, e, q, text)
  {
  }

  /**
   * Tenant isolation: a restoration answered to tenant and payload id rests on a text that a request of the
   * same tenant and payload id supplied. It is that text, or the caller's own text with that record's tokens replaced.
   */
  lemma RestoredBelongsToTenant(c: Config, states: seq<State>, steps: seq<Step>, n: nat, i: nat, e: Kept, text: string)
    returns (w: int)
    requires Run(c, states, steps) && n < |states| && AnsweredBy(states[n], i, e, Restored(text))
    ensures |states[n].requests| == |states[n].phases| && Owns(c, states[n].requests, e, w)
    ensures SameSource(states[n].requests[w], states[n].requests[i])
    ensures RestoredFor(c, states[n].requests[w], e, states[n].requests[i], text)
  {
    w := AnswerMeaning(c, states, steps, n, i, e, Restored(text));
    RestoredMeans(c, states[n].requests[w], e, states[n].requests[i], states[n].phases[i].onRead, text);
  }

  /** No answer carries text unless it rests on a stored record. */
  lemma TextNeedsRecord(c: Config, states: seq<State>, steps: seq<Step>, n: nat, i: nat)
    requires Run(c, states, steps) && n < |states| && i < |states[n].phases|
    requires states[n].phases[i].Done? && !states[n].phases[i].reply.Refused?
    ensures states[n].phases[i].kept.Some?
  {
    RunKeepsInv(c, states, steps, n);
    assert PhaseInv(c, states[n], states[n].requests[i], states[n].phases[i]);
  }

  // ----- one record's lifetime -----

  /** The clock only moves forward, requests stay, and an entry stays until the clock reaches its expiry. */
  ghost predicate Onward(s: State, s': State) {
    && s.clock <= s'.clock && |s.requests| <= |s'.requests| && s'.requests[..|s.requests|] == s.requests
    && forall e :: e in s.records && s'.clock < e.expiry ==> e in s'.records
  }

  lemma StepOnward(c: Config, s: State, step: Step)
    requires Enabled(c, s, step)
    ensures Onward(s, Apply(c, s, step))
  {
  }

  lemma {:induction false} RunOnward(c: Config, states: seq<State>, steps: seq<Step>, m: nat, n: nat)
    requires Run(c, states, steps) && m <= n < |states|
    ensures Onward(states[m], states[n])
    decreases n - m
  {
    if m < n {
      RunOnward(c, states, steps, m, n - 1);
      assert Moves(c, states[n - 1], steps[n - 1], states[n]);
      StepOnward(c, states[n - 1], steps[n - 1]);
      OnwardTransitive(states[m], states[n - 1], states[n]);
    }
  }

  lemma OnwardTransitive(a: State, b: State, d: State)
    requires Onward(a, b) && Onward(b, d)
    ensures Onward(a, d)
  {
    assert a.requests == d.requests[..|b.requests|][..|a.requests|];
  }

  /** Some answer in `s` rests on `e`. */
  ghost predicate Backs(s: State, i: nat, e: Kept) {
    i < |s.phases| && s.phases[i].Done? && s.phases[i].kept == Some(e)
  }

  /** The step reads or writes the store for request `j`, on the key of `e` and before `e` expires. */
  ghost predicate Meets(c: Config, s: State, step: Step, j: nat, e: Kept) {
    && j < |s.requests| && KeyOf(c.st, s.requests[j]) == e.key
    && (step.Look? || step.Store?) && step.i == j && step.now < e.expiry
  }

  /** An entry that backs an answer is found under its key until it expires. */
  lemma StillFound(c: Config, states: seq<State>, steps: seq<Step>, m: nat, i: nat, e: Kept, n: nat, now: real)
    requires Run(c, states, steps) && m <= n < |states| && Backs(states[m], i, e)
    requires states[n].clock <= now < e.expiry
    ensures Vault.Find(Vault.Live(states[n].records, now), e.key) == Some(e)
  {
    RunKeepsInv(c, states, steps, m);
    RunKeepsInv(c, states, steps, n);
    assert PhaseInv(c, states[m], states[m].requests[i], states[m].phases[i]);
    RunOnward(c, states, steps, m, n);
    assert e in states[n].records;
    Vault.LiveKeepsSound(c.limits, states[n].records, states[n].clock, now);
    Vault.FindOnlyOne(Vault.Live(states[n].records, now), e);
  }

  /** While the record of an earlier answer lives, whoever reads the store on its key is answered from it. */
  lemma ReadersMeetTheRecord(c: Config, states: seq<State>, steps: seq<Step>, m: nat, i: nat, e: Kept, n: nat, j: nat)
    requires Run(c, states, steps) && m <= n < |steps| && Backs(states[m], i, e)
    requires steps[n].Look? && Meets(c, states[n], steps[n], j, e)
    ensures |states[n + 1].phases| == |states[n].requests| && states[n + 1].requests == states[n].requests
    ensures states[n + 1].phases[j] == Done(ResolveReply(c.st, states[n].requests[j], e.record), Some(e), true)
  {
    assert Moves(c, states[n], steps[n], states[n + 1]);
    StillFound(c, states, steps, m, i, e, n, steps[n].now);
    assert states[n + 1].phases[j] == LookPhase(c, states[n], states[n].requests[j], steps[n].now);
  }

  /** And whoever comes to write on its key, however the requests interleave, is answered from it as well. */
  lemma WritersMeetTheRecord(c: Config, states: seq<State>, steps: seq<Step>, m: nat, i: nat, e: Kept, n: nat, j: nat)
    requires Run(c, states, steps) && m <= n < |steps| && Backs(states[m], i, e)
    requires steps[n].Store? && Meets(c, states[n], steps[n], j, e)
    ensures |states[n + 1].phases| == |states[n].requests| && states[n + 1].requests == states[n].requests
    ensures states[n].requests[j].op != Unmask
    ensures states[n + 1].phases[j] == Done(KeptReply(c.st, states[n].requests[j], e.record), Some(e), false)
  {
    assert Moves(c, states[n], steps[n], states[n + 1]);
    RunKeepsInv(c, states, steps, n);
    assert PhaseInv(c, states[n], states[n].requests[j], states[n].phases[j]);
    StillFound(c, states, steps, m, i, e, n, steps[n].now);
    assert states[n + 1].phases[j]
        == StorePhase(c, states[n], states[n].requests[j], states[n].phases[j].record, steps[n].now, steps[n].later);
  }

  // ----- requests that meet no record -----

  /** No entry under the request's tenant and payload id is alive. */
  ghost predicate NothingLive(c: Config, s: State, q: Request, now: real) {
    forall e :: e in s.records && e.key == c.st.keyName((q.tenant, q.payloadId)) ==> e.expiry <= now
  }

  /** A reader that finds no live record goes on to compute one; if it only unmasks, the mapping has expired. */
  lemma ReadersFindNothing(c: Config, states: seq<State>, steps: seq<Step>, n: nat, i: nat, now: real)
    requires Run(c, states, steps) && n < |steps| && steps[n] == Look(i, now)
    requires i < |states[n].requests| && NothingLive(c, states[n], states[n].requests[i], now)
    ensures |states[n + 1].phases| == |states[n].requests| && states[n + 1].requests == states[n].requests
    ensures states[n + 1].phases[i]
         == if states[n].requests[i].op == Unmask then Done(Refused(MappingExpired), None, true) else Computing
  {
    assert Moves(c, states[n], steps[n], states[n + 1]);
    NothingFound(c, states[n], states[n].requests[i], now);
  }

  lemma NothingFound(c: Config, s: State, q: Request, now: real)
    requires NothingLive(c, s, q, now)
    ensures Vault.Find(Vault.Live(s.records, now), KeyOf(c.st, q)).None?
  {
  }

  /**
   * A writer that finds no live record is told its own mask when there is room, and its record is kept for the
   * lifetime; otherwise it is refused and nothing is kept.
   */
  lemma OwnRecordIsKept(c: Config, states: seq<State>, steps: seq<Step>, n: nat, i: nat, now: real, later: real)
    requires Run(c, states, steps) && n < |steps| && steps[n] == Store(i, now, later)
    requires i < |states[n].requests| && NothingLive(c, states[n], states[n].requests[i], now)
    ensures |states[n + 1].phases| == |states[n].phases| == |states[n].requests|
    ensures states[n].phases[i].Ready? && Built(c.st, states[n].requests[i], states[n].phases[i].record)
    ensures var q, record, live :=
              states[n].requests[i], states[n].phases[i].record, Vault.Live(states[n].records, now);
            var own := Vault.Entry(c.st.keyName((q.tenant, q.payloadId)), later + c.limits.ttl, record);
            if |live| < c.limits.maxRecords
               && Vault.Bytes(c.limits.size, live) + c.limits.size(record) <= c.limits.maxBytes then
              && states[n + 1].phases[i] == Done(Masked(record.masked), Some(own), false)
              && states[n + 1].records == live + [own]
            else
              && states[n + 1].phases[i] == Done(Refused(VaultFull), None, false)
              && states[n + 1].records == live
  {
    hide StorePhase, NothingLive, Vault.After, Vault.Live, Vault.Bytes;
    assert Moves(c, states[n], steps[n], states[n + 1]);
    RunKeepsInv(c, states, steps, n);
    assert PhaseInv(c, states[n], states[n].requests[i], states[n].phases[i]);
    OwnRecordStored(c, states[n], states[n].requests[i], states[n].phases[i].record, now, later);
  }

  lemma OwnRecordStored(c: Config, s: State, q: Request, record: Record, now: real, later: real)
    requires NothingLive(c, s, q, now) && Built(c.st, q, record)
    ensures var live := Vault.Live(s.records, now);
            var own := Vault.Entry(c.st.keyName((q.tenant, q.payloadId)), later + c.limits.ttl, record);
            var phase := StorePhase(c, s, q, record, now, later);
            var after := Vault.After(c.limits, s.records, StoreOp(c, q, record, now, later));
            if |live| < c.limits.maxRecords
               && Vault.Bytes(c.limits.size, live) + c.limits.size(record) <= c.limits.maxBytes then
              phase == Done(Masked(record.masked), Some(own), false) && after == live + [own]
            else
              phase == Done(Refused(VaultFull), None, false) && after == live
  {
    hide Vault.Live, Vault.Bytes, Vault.Find;
    NothingFound(c, s, q, now);
  }

  /** Reading or writing, a request that meets a live record is told what the text behind the record implies. */
  lemma MeetingMeans(c: Config, states: seq<State>, steps: seq<Step>, m: nat, i: nat, e: Kept, w: nat, n: nat, j: nat)
    requires Run(c, states, steps) && m <= n < |steps| && Backs(states[m], i, e) && Owns(c, states[m].requests, e, w)
    requires Meets(c, states[n], steps[n], j, e)
    ensures Backs(states[n + 1], j, e) && states[n + 1].requests == states[n].requests
    ensures states[n + 1].phases[j].reply == Telling(c, states[m].requests[w], e, states[n].requests[j], steps[n].Look?)
    ensures steps[n].Store? ==> states[n].requests[j].op != Unmask
  {
    var q := states[n].requests[j];
    SameTenant(c, states[m].requests[w], q);
    if steps[n].Look? {
      ReadersMeetTheRecord(c, states, steps, m, i, e, n, j);
      ResolveIsExpected(c.st, states[m].requests[w], e.record, q);
    } else {
      WritersMeetTheRecord(c, states, steps, m, i, e, n, j);
      KeptIsExpected(c.st, states[m].requests[w], e.record, q);
    }
  }

  /**
   * While the record behind a mask answer lives, a request on its tenant and payload id is told the same
   * masked text exactly when it brings the same text and, asking only for a mask, the same mode; no request
   * is told another masked text.
   */
  lemma MaskRepliesAgree(c: Config, states: seq<State>, steps: seq<Step>, m: nat, i: nat, masked: string, e: Kept,
                         n: nat, j: nat)
    requires Run(c, states, steps) && m <= n < |steps| && AnsweredBy(states[m], i, e, Masked(masked))
    requires Meets(c, states[n], steps[n], j, e)
    ensures i < |states[m].requests| && Backs(states[n + 1], j, e)
    ensures var q, reply := states[n].requests[j], states[n + 1].phases[j].reply;
            && (reply.Masked? ==> reply == Masked(masked))
            && (reply.Masked? <==> q.op != Unmask && q.payload == states[m].requests[i].payload
                                   && (q.op == MaskOnly ==> q.mode == e.record.mode))
  {
    var w := AnswerMeaning(c, states, steps, m, i, e, Masked(masked));
    MaskedMeans(c, states[m].requests[w], e, states[m].requests[i], states[m].phases[i].onRead);
    MeetingMeans(c, states, steps, m, i, e, w, n, j);
    MaskedWhen(c, states[m].requests[w], e, states[n].requests[j], steps[n].Look?);
  }

  lemma MaskedWhen(c: Config, first: Request, e: Kept, q: Request, onRead: bool)
    requires !onRead ==> q.op != Unmask
    ensures Telling(c, first, e, q, onRead).Masked? <==>
            q.op != Unmask && q.payload == first.payload && (q.op == MaskOnly ==> q.mode == first.mode)
    ensures Telling(c, first, e, q, onRead).Masked? ==> Telling(c, first, e, q, onRead) == Masked(e.record.masked)
  {
  }

  /**
   * Processing a text and then processing the answer, before the record expires, gives the text back,
   * whatever other requests do in between.
   */
  lemma ProcessTwiceIsIdentity(c: Config, states: seq<State>, steps: seq<Step>, m: nat, i: nat, masked: string,
                               e: Kept, n: nat, j: nat, now: real)
    requires Run(c, states, steps) && m <= n < |steps| && AnsweredBy(states[m], i, e, Masked(masked))
    requires i < |states[m].requests| && c.st.policy(states[m].requests[i].tenant).allowUnmask
    requires steps[n] == Look(j, now) && now < e.expiry
    requires j < |states[n].requests| && states[n].requests[j].payload == masked && states[n].requests[j].op != MaskOnly
    requires SameSource(states[n].requests[j], states[m].requests[i])
    ensures j < |states[n + 1].phases| && states[n + 1].phases[j].Done?
    ensures var q, text := states[n].requests[j], states[m].requests[i].payload;
            states[n + 1].phases[j].reply == if q.op == Process && masked == text then Masked(text) else Restored(text)
  {
    var w := AnswerMeaning(c, states, steps, m, i, e, Masked(masked));
    MaskedMeans(c, states[m].requests[w], e, states[m].requests[i], states[m].phases[i].onRead);
    MeetingMeans(c, states, steps, m, i, e, w, n, j);
    ProcessedBack(c, states[m].requests[w], e, states[n].requests[j]);
  }

  lemma ProcessedBack(c: Config, first: Request, e: Kept, q: Request)
    requires q.payload == e.record.masked && q.op != MaskOnly && c.st.policy(q.tenant).allowUnmask
    ensures Telling(c, first, e, q, true)
         == if q.op == Process && q.payload == first.payload then Masked(q.payload) else Restored(first.payload)
  {
  }

  /**
   * While a record lives, a text other than its original is refused on writing, and on reading unless it is
   * the record's mask or is unmasked token by token.
   */
  lemma OtherTextsRefused(c: Config, states: seq<State>, steps: seq<Step>, m: nat, i: nat, e: Kept, w: nat, n: nat,
                          j: nat)
    requires Run(c, states, steps) && m <= n < |steps| && Backs(states[m], i, e) && Owns(c, states[m].requests, e, w)
    requires Meets(c, states[n], steps[n], j, e) && states[n].requests[j].payload != states[m].requests[w].payload
    requires steps[n].Look? ==> states[n].requests[j].payload != e.record.masked
    requires steps[n].Look? && states[n].requests[j].op == Unmask ==> e.record.mode != Token
    ensures Backs(states[n + 1], j, e) && states[n + 1].phases[j].reply.Refused?
  {
    MeetingMeans(c, states, steps, m, i, e, w, n, j);
  }

  /** The request asks for the text behind the record. */
  predicate AsksForText(first: Request, e: Kept, q: Request) {
    q.op == Unmask || (q.op == Process && q.payload == e.record.masked && q.payload != first.payload)
  }

  /** The request is to be unmasked token by token. */
  ghost predicate Rearranges(c: Config, first: Request, e: Kept, q: Request) {
    q.op == Unmask && c.st.policy(q.tenant).allowUnmask && q.payload != e.record.masked && first.mode == Token
  }

  lemma RefusalsTold(c: Config, first: Request, e: Kept, q: Request, onRead: bool)
    requires !onRead ==> q.op != Unmask
    ensures var reply, allowed := Telling(c, first, e, q, onRead), c.st.policy(q.tenant).allowUnmask;
            && (reply == Refused(ModeConflict) <==>
                  q.op == MaskOnly && q.payload == first.payload && q.mode != first.mode)
            && (reply == Refused(UnmaskDisabled) <==> onRead && !allowed && AsksForText(first, e, q))
            && (reply == Refused(PayloadConflict) <==>
                  || (q.op != Unmask && q.payload != first.payload && !(onRead && AsksForText(first, e, q)))
                  || (q.op == Unmask && allowed && q.payload != e.record.masked && first.mode != Token))
  {
  }

  lemma TokenRefusalsTold(c: Config, first: Request, e: Kept, q: Request, onRead: bool)
    requires !onRead ==> q.op != Unmask
    ensures var reply := Telling(c, first, e, q, onRead);
            var restored := RestoreTokensOf(q.payload, TokenMap(e.record.items), Some(c.st.maxChars));
            && (reply == Refused(OutputTooLarge) <==>
                  Rearranges(c, first, e, q) && restored.Failure? && restored.error == TooLarge)
            && (reply == Refused(ForeignToken) <==>
                  Rearranges(c, first, e, q) && restored.Failure? && restored.error != TooLarge)
            && (reply.Refused? ==> reply.reason !in {MappingExpired, VaultFull, Unavailable})
  {
  }

  lemma TextsTold(c: Config, first: Request, e: Kept, q: Request, onRead: bool)
    requires !onRead ==> q.op != Unmask
    ensures var reply, allowed := Telling(c, first, e, q, onRead), c.st.policy(q.tenant).allowUnmask;
            && (reply.Masked? <==>
                  q.op != Unmask && q.payload == first.payload && (q.op == MaskOnly ==> q.mode == first.mode))
            && (reply.Masked? ==> reply.text == e.record.masked)
            && (onRead && allowed && AsksForText(first, e, q) && q.payload == e.record.masked ==>
                  reply == Restored(first.payload))
  {
  }

  /**
   * What a request that meets a live record is told, case by case: the record's mask, the text behind it, or one of
   * five refusals (another mode, unmasking not allowed, another text, a result too long, a foreign token), each
   * exactly under its condition on the texts.
   */
  lemma AnswersMean(c: Config, states: seq<State>, steps: seq<Step>, m: nat, i: nat, e: Kept, w: nat, n: nat, j: nat)
    requires Run(c, states, steps) && m <= n < |steps| && Backs(states[m], i, e) && Owns(c, states[m].requests, e, w)
    requires Meets(c, states[n], steps[n], j, e)
    ensures Backs(states[n + 1], j, e)
    ensures var first, q, reply := states[m].requests[w], states[n].requests[j], states[n + 1].phases[j].reply;
            var onRead, allowed := steps[n].Look?, c.st.policy(q.tenant).allowUnmask;
            var restored := RestoreTokensOf(q.payload, TokenMap(e.record.items), Some(c.st.maxChars));
            && (reply.Masked? <==>
                  q.op != Unmask && q.payload == first.payload && (q.op == MaskOnly ==> q.mode == first.mode))
            && (reply.Masked? ==> reply.text == e.record.masked)
            && (onRead && allowed && AsksForText(first, e, q) && q.payload == e.record.masked ==>
                  reply == Restored(first.payload))
            && (reply == Refused(ModeConflict) <==>
                  q.op == MaskOnly && q.payload == first.payload && q.mode != first.mode)
            && (reply == Refused(UnmaskDisabled) <==> onRead && !allowed && AsksForText(first, e, q))
            && (reply == Refused(PayloadConflict) <==>
                  || (q.op != Unmask && q.payload != first.payload && !(onRead && AsksForText(first, e, q)))
                  || (q.op == Unmask && allowed && q.payload != e.record.masked && first.mode != Token))
            && (reply == Refused(OutputTooLarge) <==>
                  Rearranges(c, first, e, q) && restored.Failure? && restored.error == TooLarge)
            && (reply == Refused(ForeignToken) <==>
                  Rearranges(c, first, e, q) && restored.Failure? && restored.error != TooLarge)
            && (reply.Refused? ==> reply.reason !in {MappingExpired, VaultFull, Unavailable})
  {
    MeetingMeans(c, states, steps, m, i, e, w, n, j);
    TextsTold(c, states[m].requests[w], e, states[n].requests[j], steps[n].Look?);
    RefusalsTold(c, states[m].requests[w], e, states[n].requests[j], steps[n].Look?);
    TokenRefusalsTold(c, states[m].requests[w], e, states[n].requests[j], steps[n].Look?);
  }

  /** What an unmasking reader is told whose text is made of a token-mode record's tokens. */
  lemma RearrangementTold(c: Config, first: Request, e: Kept, q: Request, lits: seq<string>, picks: seq<nat>)
    requires Built(c.st, first, e.record) && c.st.policy(q.tenant).allowUnmask && q.tenant == first.tenant
    requires q.op == Unmask && e.record.mode == Token
    requires picks != [] && Picks(picks, |e.record.items|) && WellFormed(lits, TokensAt(e.record.items, picks))
    requires q.payload == Interleave(lits, TokensAt(e.record.items, picks)) && q.payload != e.record.masked
    ensures Telling(c, first, e, q, true)
         == if |Interleave(lits, OriginalsAt(e.record.items, picks))| > c.st.maxChars then Refused(OutputTooLarge)
            else Restored(Interleave(lits, OriginalsAt(e.record.items, picks)))
  {
    BuiltUnmasks(c.st, first, e.record, lits, picks, c.st.maxChars);
  }

  /**
   * While a token-mode record lives, unmasking a text made of its tokens, in any order and multiplicity, between
   * literals without tokens gives the originals in that order, or is refused as too long; unmasking the record's
   * own masked text gives the text back whatever its length.
   */
  lemma RearrangementsUnmask(c: Config, states: seq<State>, steps: seq<Step>, m: nat, i: nat, e: Kept, w: nat,
                             n: nat, j: nat, lits: seq<string>, picks: seq<nat>)
    requires Run(c, states, steps) && m <= n < |steps| && Backs(states[m], i, e) && Owns(c, states[m].requests, e, w)
    requires steps[n].Look? && Meets(c, states[n], steps[n], j, e)
    requires c.st.policy(states[n].requests[j].tenant).allowUnmask
    requires states[n].requests[j].op == Unmask && e.record.mode == Token
    requires picks != [] && Picks(picks, |e.record.items|) && WellFormed(lits, TokensAt(e.record.items, picks))
    requires states[n].requests[j].payload == Interleave(lits, TokensAt(e.record.items, picks))
    ensures Backs(states[n + 1], j, e)
    ensures var q, text := states[n].requests[j], Interleave(lits, OriginalsAt(e.record.items, picks));
            states[n + 1].phases[j].reply
            == if q.payload == e.record.masked then Restored(states[m].requests[w].payload)
               else if |text| > c.st.maxChars then Refused(OutputTooLarge)
               else Restored(text)
  {
    var q := states[n].requests[j];
    SameTenant(c, states[m].requests[w], q);
    MeetingMeans(c, states, steps, m, i, e, w, n, j);
    if q.payload != e.record.masked {
      RearrangementTold(c, states[m].requests[w], e, q, lits, picks);
    }
  }
}
