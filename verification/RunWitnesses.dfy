/** Two concrete runs: requests that race for one record, and an owner who cancels between two starts. */
module RunWitnesses {
  import opened Base
  import opened Spans
  import opened Tokens
  import opened Transform
  import opened Protocol
  import PR = ProtocolRuns
  import Executor
  import ExecutorRuns
  import Vault

  // ----- fingerprints and key names -----

  function Unary(n: nat): (r: string)
    ensures |r| == n && forall i :: 0 <= i < n ==> r[i] == '1'
  {
    seq(n, _ => '1')
  }

  /** The length of the tenant's name in unary, a zero, and both names. */
  function NameOf(key: Key): string {
    Unary(|key.0|) + "0" + key.0 + key.1
  }

  lemma NameInjective(a: Key, b: Key)
    requires NameOf(a) == NameOf(b)
    ensures a == b
  {
    var s := NameOf(a);
    assert s[|a.0|] == '0' && s[|b.0|] == '0';
    assert forall i :: 0 <= i < |a.0| ==> s[i] == Unary(|a.0|)[i];
    assert forall i :: 0 <= i < |b.0| ==> s[i] == Unary(|b.0|)[i];
    assert |a.0| == |b.0|;
    assert a.0 == s[|a.0| + 1..|a.0| + 1 + |a.0|] == b.0;
    assert a.1 == s[|a.0| + 1 + |a.0|..] == b.1;
  }

  function Service(style: Style): Settings {
    Settings((text: string) => text, (key: Key) => NameOf(key), (tenant: string) => Policy(true), 2000, style)
  }

  function Store(style: Style): PR.Config {
    PR.Config(Service(style), Vault.Limits(1.0, 10, 1000, (rec: Record) => |rec.masked|))
  }

  lemma ServiceIsValid(style: Style)
    ensures Store(style).Valid()
  {
    forall a, b | Service(style).keyName(a) == Service(style).keyName(b) ensures a == b {
      NameInjective(a, b);
    }
  }

  // ----- the records two racing requests compute -----

  function Asking(text: string): Request {
    Request("clinic", "42", text, Process, Mask)
  }

  function Digit7(): Span {
    Span(0, 1, "INN", 1.0, "rule")
  }

  /** One request selects the digit, the other, by another policy, nothing. */
  function Starred(): Record {
    Record("7", "*", "*", [Replacement(0, 1, "7", "*")], Mask)
  }

  function Untouched(text: string): Record {
    Record(text, text, text, [], Mask)
  }

  lemma StarredIsBuilt(style: Style)
    requires style.chars.isAlnum('7')
    ensures Built(Service(style), Asking("7"), Starred())
  {
    var spans, items, q := [Digit7()], [Replacement(0, 1, "7", "*")], Asking("7");
    assert InText(spans, "7");
    assert "7"[0..1] == "7";
    assert Identities("7", spans) == [("INN", "7")];
    assert Gaps("7", spans) == ["", ""];
    assert Values(items) == ["*"];
    assert Interleave(["", ""], ["*"]) == "" + "*" + Interleave([""], []);
    assert Placed(items, ["", ""], ["*"], 0) by {
      assert items[1..] == [];
    }
    assert ShapeMask(style.chars, "7") == "*";
    assert BuiltFrom(Service(style), q, Starred(), spans, items);
  }

  lemma UntouchedIsBuilt(style: Style, text: string)
    ensures Built(Service(style), Asking(text), Untouched(text))
  {
    var spans: seq<Span>, items: seq<Replacement> := [], [];
    assert InText(spans, text) && text[0..|text|] == text;
    assert Gaps(text, spans) == [text];
    assert Values(items) == [] && Interleave([text], []) == text;
    assert Identities(text, spans) == [];
    assert IsMasking(text, spans, text, items);
    assert BuiltFrom(Service(style), Asking(text), Untouched(text), spans, items);
  }

  // ----- the race -----

  /** `s` is a state of some run. */
  ghost predicate Reached(c: PR.Config, s: PR.State) {
    exists states, steps :: PR.Run(c, states, steps) && states[|steps|] == s
  }

  lemma StartIsReached(c: PR.Config)
    requires c.Valid()
    ensures Reached(c, PR.State([], [], [], 0.0))
  {
    var states, steps: seq<PR.Step> := [PR.State([], [], [], 0.0)], [];
    assert PR.Run(c, states, steps);
    assert states[|steps|] == PR.State([], [], [], 0.0);
  }

  lemma LongerRun(c: PR.Config, states: seq<PR.State>, steps: seq<PR.Step>, step: PR.Step, s': PR.State)
    requires PR.Run(c, states, steps) && PR.Moves(c, states[|steps|], step, s')
    ensures PR.Run(c, states + [s'], steps + [step])
  {
    var longer, more := states + [s'], steps + [step];
    forall n | 0 <= n < |more| ensures PR.Moves(c, longer[n], more[n], longer[n + 1]) {
      if n < |steps| {
        assert PR.Moves(c, states[n], steps[n], states[n + 1]);
      }
    }
  }

  lemma Extend(c: PR.Config, s: PR.State, step: PR.Step, s': PR.State)
    requires Reached(c, s) && PR.Moves(c, s, step, s')
    ensures Reached(c, s')
  {
    var states, steps :| PR.Run(c, states, steps) && states[|steps|] == s;
    LongerRun(c, states, steps, step, s');
    assert (states + [s'])[|steps + [step]|] == s';
  }

  /** Two requests on one key, the records computed for them, and a third that processes the first one's mask. */
  datatype Race = Race(c: PR.Config, q: Request, late: Request, first: Record, second: Record)
  {
    ghost predicate Valid() {
      && c.Valid() && q.op == Process && c.st.policy(q.tenant).allowUnmask
      && late.op == Process && PR.SameSource(q, late)
      && Built(c.st, q, first) && Built(c.st, late, second) && first.masked != q.payload
      && 1 <= c.limits.maxRecords && c.limits.size(first) <= c.limits.maxBytes
    }

    function Entry(): PR.Kept {
      Vault.Entry(KeyOf(c.st, q), 0.0 + c.limits.ttl, first)
    }

    function Told(): PR.Phase {
      PR.Done(Masked(first.masked), Some(Entry()), false)
    }

    function Two(a: PR.Phase, b: PR.Phase, records: seq<PR.Kept>): PR.State {
      PR.State([q, late], [a, b], records, 0.0)
    }

    /** What the second writer is told on account of the first one's record. */
    function LateTold(): PR.Phase {
      PR.Done(KeptReply(c.st, late, first), Some(Entry()), false)
    }

    function Back(): Request {
      q.(payload := first.masked)
    }

    function Three(phase: PR.Phase): PR.State {
      PR.State([q, late, Back()], [Told(), LateTold(), phase], [Entry()], 0.0)
    }

    lemma Arrives(s: PR.State, r: Request)
      requires Reached(c, s) && |s.phases| == |s.requests|
      ensures Reached(c, s.(requests := s.requests + [r], phases := s.phases + [PR.Arrived]))
    {
      Extend(c, s, PR.Arrive(r), s.(requests := s.requests + [r], phases := s.phases + [PR.Arrived]));
    }

    /** Nothing is found before the first put. */
    lemma FirstLooks(b: PR.Phase)
      requires Reached(c, Two(PR.Arrived, b, [])) && q.op == Process
      ensures Reached(c, Two(PR.Computing, b, []))
    {
      Extend(c, Two(PR.Arrived, b, []), PR.Look(0, 0.0), Two(PR.Computing, b, []));
    }

    lemma SecondLooks(a: PR.Phase)
      requires Reached(c, Two(a, PR.Arrived, [])) && late.op == Process
      ensures Reached(c, Two(a, PR.Computing, []))
    {
      Extend(c, Two(a, PR.Arrived, []), PR.Look(1, 0.0), Two(a, PR.Computing, []));
    }

    lemma FirstComputes(b: PR.Phase)
      requires Reached(c, Two(PR.Computing, b, [])) && Built(c.st, q, first)
      ensures Reached(c, Two(PR.Ready(first), b, []))
    {
      assert [PR.Computing, b][0 := PR.Ready(first)] == [PR.Ready(first), b];
      Extend(c, Two(PR.Computing, b, []), PR.Compute(0, first), Two(PR.Ready(first), b, []));
    }

    lemma SecondComputes(a: PR.Phase)
      requires Reached(c, Two(a, PR.Computing, [])) && Built(c.st, late, second)
      ensures Reached(c, Two(a, PR.Ready(second), []))
    {
      assert [a, PR.Computing][1 := PR.Ready(second)] == [a, PR.Ready(second)];
      Extend(c, Two(a, PR.Computing, []), PR.Compute(1, second), Two(a, PR.Ready(second), []));
    }

    lemma Puts()
      requires 1 <= c.limits.maxRecords && c.limits.size(first) <= c.limits.maxBytes
      ensures Vault.Added(c.limits, [], PR.StoreOp(c, q, first, 0.0, 0.0)) == Some(Entry())
    {
      assert Vault.Live<Record>([], 0.0) == [];
    }

    lemma Finds()
      requires c.limits.Valid()
      ensures Vault.Live([Entry()], 0.0) == [Entry()]
      ensures Vault.Find([Entry()], KeyOf(c.st, q)) == Some(Entry())
    {
      assert [Entry()][1..] == [];
    }

    lemma FirstStores(b: PR.Phase)
      requires Reached(c, Two(PR.Ready(first), b, []))
      requires q.op == Process && first.originalHash == c.st.digest(q.payload)
      requires 1 <= c.limits.maxRecords && c.limits.size(first) <= c.limits.maxBytes
      ensures Reached(c, Two(Told(), b, [Entry()]))
    {
      Puts();
      Extend(c, Two(PR.Ready(first), b, []), PR.Store(0, 0.0, 0.0), Two(Told(), b, [Entry()]));
    }

    lemma SecondStores()
      requires Reached(c, Two(Told(), PR.Ready(second), [Entry()]))
      requires PR.SameSource(q, late) && c.limits.Valid()
      ensures Reached(c, Two(Told(), LateTold(), [Entry()]))
    {
      Finds();
      Extend(c, Two(Told(), PR.Ready(second), [Entry()]), PR.Store(1, 0.0, 0.0), Two(Told(), LateTold(), [Entry()]));
    }

    lemma BackIsTold()
      requires Valid()
      ensures ResolveReply(c.st, Back(), first) == Restored(q.payload)
    {
      ResolveIsExpected(c.st, q, first, Back());
    }

    lemma ThirdRestores()
      requires Reached(c, Three(PR.Arrived)) && q.op == Process && c.limits.Valid()
      requires ResolveReply(c.st, Back(), first) == Restored(q.payload)
      ensures Reached(c, Three(PR.Done(Restored(q.payload), Some(Entry()), true)))
    {
      Finds();
      Extend(c, Three(PR.Arrived), PR.Look(2, 0.0), Three(PR.Done(Restored(q.payload), Some(Entry()), true)));
    }

    lemma BothArrived()
      requires c.Valid()
      ensures Reached(c, Two(PR.Arrived, PR.Arrived, []))
    {
      StartIsReached(c);
      var s0, s1 := PR.State([], [], [], 0.0), PR.State([q], [PR.Arrived], [], 0.0);
      Arrives(s0, q);
      assert s0.(requests := s0.requests + [q], phases := s0.phases + [PR.Arrived]) == s1;
      Arrives(s1, late);
      var s2 := Two(PR.Arrived, PR.Arrived, []);
      assert s1.(requests := s1.requests + [late], phases := s1.phases + [PR.Arrived]) == s2;
    }

    lemma ThirdArrives()
      requires Reached(c, Two(Told(), LateTold(), [Entry()]))
      ensures Reached(c, Three(PR.Arrived))
    {
      var s := Two(Told(), LateTold(), [Entry()]);
      Arrives(s, Back());
      assert s.(requests := s.requests + [Back()], phases := s.phases + [PR.Arrived]) == Three(PR.Arrived);
    }

    /**
     * In some run both requests look and compute before either writes. The first writer is told its mask, the second
     * what the first one's record implies, and processing that mask gives the text back.
     */
    lemma AllAnswered()
      requires Valid()
      ensures Reached(c, Three(PR.Done(Restored(q.payload), Some(Entry()), true)))
    {
      BothArrived();
      FirstLooks(PR.Arrived);
      SecondLooks(PR.Computing);
      FirstComputes(PR.Computing);
      SecondComputes(PR.Ready(first));
      FirstStores(PR.Ready(second));
      SecondStores();
      ThirdArrives();
      BackIsTold();
      ThirdRestores();
    }
  }

  lemma RoomForOne(style: Style)
    ensures 1 <= Store(style).limits.maxRecords && Store(style).limits.size(Starred()) <= Store(style).limits.maxBytes
  {
    assert |"*"| == 1;
  }

  lemma RaceIsValid(style: Style, text: string)
    requires style.chars.isAlnum('7')
    ensures Race(Store(style), Asking("7"), Asking(text), Starred(), Untouched(text)).Valid()
  {
    ServiceIsValid(style);
    StarredIsBuilt(style);
    UntouchedIsBuilt(style, text);
    RoomForOne(style);
    assert "*"[0] != "7"[0];
  }

  /** Two requests with one text. */
  lemma SomeRace(style: Style) returns (race: Race)
    requires style.chars.isAlnum('7')
    ensures race.Valid() && race.c == Store(style) && race.late == race.q
    ensures race.q.payload == "7" && race.first.masked == "*" && race.second.masked == "7"
  {
    RaceIsValid(style, "7");
    race := Race(Store(style), Asking("7"), Asking("7"), Starred(), Untouched("7"));
  }

  /**
   * In some run two requests with one text find nothing, compute different records and write; both are told the first
   * writer's mask on writing, and a third request that processes this mask gets the text back.
   */
  lemma RaceIsARun(style: Style) returns (s: PR.State, e: PR.Kept)
    requires style.chars.isAlnum('7')
    ensures Store(style).Valid() && Reached(Store(style), s)
    ensures PR.AnsweredBy(s, 0, e, Masked("*")) && PR.AnsweredBy(s, 1, e, Masked("*"))
    ensures PR.AnsweredBy(s, 2, e, Restored("7"))
    ensures !s.phases[0].onRead && !s.phases[1].onRead && s.phases[2].onRead
  {
    var race := SomeRace(style);
    race.AllAnswered();
    s, e := race.Three(PR.Done(Restored(race.q.payload), Some(race.Entry()), true)), race.Entry();
  }

  /** A request with a text, and one whose text is the first one's mask. */
  lemma LateRace(style: Style) returns (race: Race)
    requires style.chars.isAlnum('7')
    ensures race.Valid() && race.c == Store(style) && race.late == race.Back()
    ensures race.q.payload == "7" && race.first.masked == "*"
  {
    RaceIsValid(style, "*");
    race := Race(Store(style), Asking("7"), Asking("*"), Starred(), Untouched("*"));
  }

  /**
   * In some run a request that found no record writes after another one and is refused, although its text is that
   * record's mask; a third request with the same text, which finds the record when it reads, gets the text back.
   */
  lemma LateWriterIsRefused(style: Style) returns (s: PR.State, e: PR.Kept)
    requires style.chars.isAlnum('7')
    ensures Store(style).Valid() && Reached(Store(style), s) && |s.requests| == |s.phases| == 3
    ensures PR.AnsweredBy(s, 0, e, Masked("*"))
    ensures s.requests[1] == s.requests[2] && s.requests[1].payload == "*"
    ensures PR.AnsweredBy(s, 1, e, Refused(PayloadConflict)) && !s.phases[1].onRead
    ensures PR.AnsweredBy(s, 2, e, Restored("7")) && s.phases[2].onRead
  {
    var race := LateRace(style);
    race.AllAnswered();
    s, e := race.Three(PR.Done(Restored(race.q.payload), Some(race.Entry()), true)), race.Entry();
    assert race.first.originalHash == Service(style).digest("7") == "7";
  }

  // ----- the batch worker -----

  /** A model that answers every text of a batch on its own. */
  ghost function RowWise<R>(answer: string -> R): (seq<string>, Executor.Reply<R>) -> bool {
    (batch: seq<string>, reply: Executor.Reply<R>) =>
      reply == Executor.Values(seq(|batch|, i requires 0 <= i < |batch| => answer(batch[i])))
  }

  /** It answers somehow, and what it returns at a position is the answer to the text there. */
  lemma RowWiseModelExists<R(!new)>(answer: string -> R)
    ensures forall texts :: ExecutorRuns.AnswersSomehow(RowWise(answer), texts)
    ensures forall batch, values, k ::
              0 <= k < |batch| == |values| && RowWise(answer)(batch, Executor.Values(values)) ==>
                values[k] == answer(batch[k])
  {
    forall texts: seq<string> ensures ExecutorRuns.AnswersSomehow(RowWise(answer), texts) {
      var reply := Executor.Values(seq(|texts|, i requires 0 <= i < |texts| => answer(texts[i])));
      assert RowWise(answer)(texts, reply);
    }
  }

  type Answers<!R> = (seq<string>, Executor.Reply<R>) -> bool

  ghost predicate Worked<R(!new)>(answers: Answers<R>, s: Executor.State<R>) {
    exists states, steps :: ExecutorRuns.Run(Pairs(), answers, states, steps) && states[|steps|] == s
  }

  function Pairs(): Executor.Config {
    Executor.Config(2, 2)
  }

  lemma Works<R(!new)>(answers: Answers<R>, s: Executor.State<R>, step: Executor.Step<R>)
    requires Worked(answers, s) && Executor.Enabled(Pairs(), answers, s, step)
    ensures Worked(answers, Executor.Apply(Pairs(), answers, s, step))
  {
    var s' := Executor.Apply(Pairs(), answers, s, step);
    var states, steps :| ExecutorRuns.Run(Pairs(), answers, states, steps) && states[|steps|] == s;
    var longer, more := states + [s'], steps + [step];
    forall n | 0 <= n < |more| ensures ExecutorRuns.Moves(Pairs(), answers, longer[n], more[n], longer[n + 1]) {
      if n < |steps| {
        assert ExecutorRuns.Moves(Pairs(), answers, states[n], steps[n], states[n + 1]);
      }
    }
    assert longer[|more|] == s';
  }

  /** Two futures, both taken by the worker. */
  function Two<R>(a: string, b: string, x: Executor.Status<R>, y: Executor.Status<R>, w: Executor.Worker<R>):
    Executor.State<R>
  {
    Executor.State([a, b], [x, y], [], w, false, false, [0, 1])
  }

  /** Two futures in the queue of an idle worker. */
  function Queued<R>(a: string, b: string): Executor.State<R> {
    Executor.State([a, b], [Executor.Pending, Executor.Pending], [0, 1], Executor.Idle, false, false, [])
  }

  lemma BothQueued<R(!new)>(answers: Answers<R>, a: string, b: string)
    ensures Worked(answers, Queued<R>(a, b))
  {
    var none := Executor.Initial<R>();
    var states, steps: seq<Executor.Step<R>> := [none], [];
    assert ExecutorRuns.Run(Pairs(), answers, states, steps) && states[|steps|] == none;
    Works(answers, none, Executor.Submit(a));
    var one := Executor.AfterSubmit(none, a);
    assert one == Executor.State([a], [Executor.Pending], [0], Executor.Idle, false, false, []);
    Works(answers, one, Executor.Submit(b));
    assert Executor.AfterSubmit(one, b) == Queued<R>(a, b);
  }

  lemma BothTaken<R(!new)>(answers: Answers<R>, a: string, b: string)
    ensures Worked(answers, Two(a, b, Executor.Pending, Executor.Pending, Executor.Gathered([0, 1])))
  {
    BothQueued<R>(answers, a, b);
    Works(answers, Queued<R>(a, b), Executor.Take);
    TakesBoth<R>(a, b);
  }

  lemma TakesBoth<R>(a: string, b: string)
    ensures Executor.AfterTake(Pairs(), Queued<R>(a, b))
         == Two(a, b, Executor.Pending, Executor.Pending, Executor.Gathered([0, 1]))
  {
    var s := Queued<R>(a, b);
    assert s.pending[..2] == [0, 1] && s.pending[2..] == [] && [] + [0, 1] == [0, 1];
  }

  lemma BatchStarts<R(!new)>(answers: Answers<R>, a: string, b: string)
    ensures Worked(answers, Two(a, b, Executor.Pending, Executor.Pending, Executor.Starting([0, 1], [], 0)))
  {
    BothTaken<R>(answers, a, b);
    var taken := Two<R>(a, b, Executor.Pending, Executor.Pending, Executor.Gathered([0, 1]));
    Works(answers, taken, Executor.Start);
    assert Executor.AfterStart(taken)
        == Two(a, b, Executor.Pending, Executor.Pending, Executor.Starting([0, 1], [], 0));
  }

  lemma StartsFirst<R>(a: string, b: string)
    ensures Executor.AfterStartNext(Two<R>(a, b, Executor.Pending, Executor.Pending, Executor.Starting([0, 1], [], 0)))
         == Two<R>(a, b, Executor.Running, Executor.Pending, Executor.Starting([0, 1], [0], 1))
  {
    assert [] + [0] == [0];
  }

  /** The worker has started the first future of the batch and is about to start the second. */
  lemma OneStarted<R(!new)>(answers: Answers<R>, a: string, b: string)
    ensures Worked(answers, Two(a, b, Executor.Running, Executor.Pending, Executor.Starting([0, 1], [0], 1)))
  {
    BatchStarts<R>(answers, a, b);
    var starting := Two<R>(a, b, Executor.Pending, Executor.Pending, Executor.Starting([0, 1], [], 0));
    Works(answers, starting, Executor.StartNext);
    StartsFirst<R>(a, b);
  }

  /**
   * In some run an owner, between the two starts, fails to cancel the first future and succeeds in cancelling the
   * second, which the worker's next start therefore leaves out of the model call.
   */
  lemma CancelBetweenStarts<R(!new)>(answers: Answers<R>, a: string, b: string)
    ensures var started := Two<R>(a, b, Executor.Running, Executor.Pending, Executor.Starting([0, 1], [0], 1));
            Executor.AfterCancel(started, 0) == started
    ensures Worked(answers, Two(a, b, Executor.Running, Executor.Cancelled, Executor.Starting([0, 1], [0], 1)))
    ensures Worked(answers, Two(a, b, Executor.Running, Executor.Notified, Executor.Calling([0])))
  {
    OneStarted<R>(answers, a, b);
    var started := Two<R>(a, b, Executor.Running, Executor.Pending, Executor.Starting([0, 1], [0], 1));
    assert Executor.AfterCancel(started, 0) == started;
    Works(answers, started, Executor.Cancel(1));
    var cancelled := Two<R>(a, b, Executor.Running, Executor.Cancelled, Executor.Starting([0, 1], [0], 1));
    assert Executor.AfterCancel(started, 1) == cancelled;
    Works(answers, cancelled, Executor.StartNext);
    assert Executor.AfterStartNext(cancelled) == Two(a, b, Executor.Running, Executor.Notified, Executor.Calling([0]));
  }
}
