/** The in-memory store of correlation records: first writer wins until the record expires. */
module Vault {
  import opened Base

  datatype Limits<!R> = Limits(ttl: real, maxRecords: nat, maxBytes: nat, size: R -> nat) {
    ghost predicate Valid() {
      ttl > 0.0
    }
  }

  datatype Entry<R> = Entry(key: string, expiry: real, record: R)

  /** A request to the store; `later` is the second reading of the clock, when a new record is entered. */
  datatype Op<R> = Get(key: string, now: real) | Put(key: string, record: R, now: real, later: real)

  datatype Reply<R> = Nothing | Existing(record: R) | Stored(record: R) | Full

  // ----- the store as a value -----

  /** Exactly the entries that have not expired, in order. */
  function Live<R(!new)>(records: seq<Entry<R>>, now: real): (r: seq<Entry<R>>)
    ensures forall e :: e in r <==> e in records && e.expiry > now
    ensures |r| <= |records|
  {
    if records == [] then []
    else (if records[0].expiry > now then [records[0]] else []) + Live(records[1..], now)
  }

  function Bytes<R>(size: R -> nat, records: seq<Entry<R>>): nat {
    if records == [] then 0 else size(records[0].record) + Bytes(size, records[1..])
  }

  function Find<R(!new)>(records: seq<Entry<R>>, key: string): (r: Option<Entry<R>>)
    ensures r.Some? ==> r.value in records && r.value.key == key
    ensures r.None? ==> forall e :: e in records ==> e.key != key
  {
    if records == [] then None
    else if records[0].key == key then Some(records[0])
    else Find(records[1..], key)
  }

  /** The key is in use, or there is no room for the record. */
  predicate Refuses<R(!new)>(limits: Limits<R>, live: seq<Entry<R>>, key: string, record: R) {
    || Find(live, key).Some? || |live| >= limits.maxRecords
    || Bytes(limits.size, live) + limits.size(record) > limits.maxBytes
  }

  /** The entry that `op` adds, if it adds one. */
  function Added<R(!new)>(limits: Limits<R>, records: seq<Entry<R>>, op: Op<R>): Option<Entry<R>> {
    if op.Get? then None
    else
      var live := Live(records, op.now);
      if Refuses(limits, live, op.key, op.record) then None
      else Some(Entry(op.key, op.later + limits.ttl, op.record))
  }

  function After<R(!new)>(limits: Limits<R>, records: seq<Entry<R>>, op: Op<R>): seq<Entry<R>> {
    var added := Added(limits, records, op);
    if added.Some? then Live(records, op.now) + [added.value] else Live(records, op.now)
  }

  function Answer<R(!new)>(limits: Limits<R>, records: seq<Entry<R>>, op: Op<R>): Reply<R> {
    var found := Find(Live(records, op.now), op.key);
    if found.Some? then Existing(found.value.record)
    else if op.Get? then Nothing
    else if Added(limits, records, op).Some? then Stored(op.record)
    else Full
  }

  ghost predicate DistinctKeys<R(!new)>(records: seq<Entry<R>>) {
    forall i, j :: 0 <= i < j < |records| ==> records[i].key != records[j].key
  }

  ghost predicate ByExpiry<R(!new)>(records: seq<Entry<R>>) {
    forall i, j :: 0 <= i < j < |records| ==> records[i].expiry <= records[j].expiry
  }

  /** Capacity, distinct keys, expiries in insertion order, none further ahead of the clock than the lifetime. */
  ghost predicate Sound<R(!new)>(limits: Limits<R>, records: seq<Entry<R>>, clock: real) {
    && |records| <= limits.maxRecords && Bytes(limits.size, records) <= limits.maxBytes
    && DistinctKeys(records) && ByExpiry(records)
    && forall i :: 0 <= i < |records| ==> records[i].expiry <= clock + limits.ttl
  }

  function Began<R>(op: Op<R>): real {
    op.now
  }

  function Ended<R>(op: Op<R>): real {
    if op.Get? then op.now else op.later
  }

  // ----- expiry -----

  lemma {:induction false} BytesConcat<R>(size: R -> nat, a: seq<Entry<R>>, b: seq<Entry<R>>)
    ensures Bytes(size, a + b) == Bytes(size, a) + Bytes(size, b)
  {
    if a == [] {
      assert a + b == b;
    } else {
      assert (a + b)[1..] == a[1..] + b;
      BytesConcat(size, a[1..], b);
    }
  }

  lemma BytesSnoc<R>(size: R -> nat, records: seq<Entry<R>>, e: Entry<R>)
    ensures Bytes(size, records + [e]) == Bytes(size, records) + size(e.record)
  {
    BytesConcat(size, records, [e]);
    assert Bytes(size, [e]) == size(e.record) + Bytes(size, []);
  }

  lemma {:induction false} AllLive<R(!new)>(records: seq<Entry<R>>, now: real)
    requires forall i :: 0 <= i < |records| ==> records[i].expiry > now
    ensures Live(records, now) == records
  {
    if records != [] {
      AllLive(records[1..], now);
    }
  }

  /** With expiries in order, popping from the front until a live entry removes exactly the expired ones. */
  lemma {:induction false} PoppedAreExpired<R(!new)>(records: seq<Entry<R>>, now: real, n: nat)
    requires ByExpiry(records) && n <= |records|
    requires forall i :: 0 <= i < n ==> records[i].expiry <= now
    requires n < |records| ==> records[n].expiry > now
    ensures Live(records, now) == records[n..]
  {
    if n == 0 {
      forall i | 0 <= i < |records| ensures records[i].expiry > now {
        assert i > 0 ==> records[0].expiry <= records[i].expiry;
      }
      AllLive(records, now);
    } else {
      var rest := records[1..];
      assert forall i :: 0 <= i < |rest| ==> rest[i] == records[i + 1];
      PoppedAreExpired(rest, now, n - 1);
    }
  }

  /** The live entries of a sound store are its last ones. */
  lemma {:induction false} LiveIsSuffix<R(!new)>(records: seq<Entry<R>>, now: real) returns (n: nat)
    requires ByExpiry(records)
    ensures n <= |records| && Live(records, now) == records[n..]
  {
    n := 0;
    while n < |records| && records[n].expiry <= now
      invariant n <= |records| && forall i :: 0 <= i < n ==> records[i].expiry <= now
    {
      n := n + 1;
    }
    PoppedAreExpired(records, now, n);
  }

  lemma SuffixKeepsOrder<R(!new)>(records: seq<Entry<R>>, n: nat)
    requires n <= |records| && DistinctKeys(records) && ByExpiry(records)
    ensures DistinctKeys(records[n..]) && ByExpiry(records[n..])
  {
    var rest := records[n..];
    forall i, j | 0 <= i < j < |rest| ensures rest[i].key != rest[j].key && rest[i].expiry <= rest[j].expiry {
      assert rest[i] == records[n + i] && rest[j] == records[n + j];
    }
  }

  lemma SuffixBytes<R>(size: R -> nat, records: seq<Entry<R>>, n: nat)
    requires n <= |records|
    ensures Bytes(size, records[n..]) <= Bytes(size, records)
  {
    assert records == records[..n] + records[n..];
    BytesConcat(size, records[..n], records[n..]);
  }

  lemma LiveKeepsSound<R(!new)>(limits: Limits<R>, records: seq<Entry<R>>, clock: real, now: real)
    requires Sound(limits, records, clock) && clock <= now
    ensures Sound(limits, Live(records, now), now)
  {
    var n := LiveIsSuffix(records, now);
    SuffixKeepsOrder(records, n);
    SuffixBytes(limits.size, records, n);
    forall i | 0 <= i < |records[n..]| ensures records[n..][i].expiry <= now + limits.ttl {
      assert records[n..][i] == records[n + i];
    }
  }

  /** A record with a new key, within both limits and expiring last, may be appended. */
  lemma AppendKeepsSound<R(!new)>(limits: Limits<R>, live: seq<Entry<R>>, now: real, e: Entry<R>, later: real)
    requires Sound(limits, live, now) && now <= later && e.expiry == later + limits.ttl
    requires |live| < limits.maxRecords && Bytes(limits.size, live) + limits.size(e.record) <= limits.maxBytes
    requires forall i :: 0 <= i < |live| ==> live[i].key != e.key
    ensures Sound(limits, live + [e], later)
  {
    BytesSnoc(limits.size, live, e);
  }

  lemma LaterStillSound<R(!new)>(limits: Limits<R>, records: seq<Entry<R>>, now: real, later: real)
    requires Sound(limits, records, now) && now <= later
    ensures Sound(limits, records, later)
  {
  }

  /** Every operation keeps the store sound, provided the clock does not run backwards. */
  lemma AfterKeepsSound<R(!new)>(limits: Limits<R>, records: seq<Entry<R>>, clock: real, op: Op<R>)
    requires limits.Valid() && Sound(limits, records, clock) && clock <= Began(op) <= Ended(op)
    ensures Sound(limits, After(limits, records, op), Ended(op))
  {
    var live := Live(records, op.now);
    LiveKeepsSound(limits, records, clock, op.now);
    var added := Added(limits, records, op);
    if added.Some? {
      assert forall i :: 0 <= i < |live| ==> live[i] in live;
      AppendKeepsSound(limits, live, op.now, added.value, op.later);
    } else {
      LaterStillSound(limits, live, op.now, Ended(op));
    }
  }

  lemma PutAdds<R(!new)>(limits: Limits<R>, records: seq<Entry<R>>, key: string, record: R, now: real, later: real)
    ensures Added(limits, records, Put(key, record, now, later))
         == if Refuses(limits, Live(records, now), key, record) then None
            else Some(Entry(key, later + limits.ttl, record))
  {
  }

  /** The three ways a put ends, in terms of the live records. */
  lemma PutMeans<R(!new)>(limits: Limits<R>, records: seq<Entry<R>>, key: string, record: R, now: real, later: real)
    ensures var live, op := Live(records, now), Put(key, record, now, later);
            var found := Find(live, key);
            if found.Some? then
              After(limits, records, op) == live && Answer(limits, records, op) == Existing(found.value.record)
            else if |live| >= limits.maxRecords || Bytes(limits.size, live) + limits.size(record) > limits.maxBytes then
              After(limits, records, op) == live && Answer(limits, records, op) == Full
            else
              && After(limits, records, op) == live + [Entry(key, later + limits.ttl, record)]
              && Answer(limits, records, op) == Stored(record)
  {
    PutAdds(limits, records, key, record, now, later);
  }

  // ----- the store as the source keeps it -----

  class MemoryVault<R(!new)> {
    const limits: Limits<R>
    var records: seq<Entry<R>>
    var totalBytes: int
    ghost var clock: real

    ghost predicate Valid()
      reads this
    {
      limits.Valid() && Sound(limits, records, clock) && totalBytes == Bytes(limits.size, records)
    }

    constructor (limits: Limits<R>, ghost now: real)
      requires limits.Valid()
      ensures Valid() && records == [] && clock == now && this.limits == limits
    {
      this.limits := limits;
      records, totalBytes, clock := [], 0, now;
    }

    /** `_expire`: pops from the front while the first entry has expired. */
    method Expire(now: real)
      requires Valid() && clock <= now
      modifies this
      ensures Valid() && records == Live(old(records), now) && clock == now
    {
      ghost var n := 0;
      while records != [] && records[0].expiry <= now
        invariant 0 <= n <= |old(records)| && records == old(records)[n..]
        invariant forall i :: 0 <= i < n ==> old(records)[i].expiry <= now
        invariant totalBytes == Bytes(limits.size, records) && clock == old(clock)
        decreases |records|
      {
        totalBytes := totalBytes - limits.size(records[0].record);
        records := records[1..];
        n := n + 1;
      }
      PoppedAreExpired(old(records), now, n);
      LiveKeepsSound(limits, old(records), clock, now);
      clock := now;
    }

    method Read(key: string, now: real) returns (reply: Reply<R>)
      requires Valid() && clock <= now
      modifies this
      ensures Valid() && clock == now
      ensures records == After(limits, old(records), Get(key, now))
      ensures reply == Answer(limits, old(records), Get(key, now))
    {
      Expire(now);
      var found := Find(records, key);
      reply := if found.Some? then Existing(found.value.record) else Nothing;
    }

    method PutIfAbsent(key: string, record: R, now: real, later: real) returns (reply: Reply<R>)
      requires Valid() && clock <= now <= later
      modifies this
      ensures Valid() && clock == later
      ensures records == After(limits, old(records), Put(key, record, now, later))
      ensures reply == Answer(limits, old(records), Put(key, record, now, later))
    {
      PutMeans(limits, records, key, record, now, later);
      Expire(now);
      var found := Find(records, key);
      if found.Some? {
        Wait(later);
        return Existing(found.value.record);
      }
      if |records| >= limits.maxRecords || totalBytes + limits.size(record) > limits.maxBytes {
        Wait(later);
        return Full;
      }
      Enter(Entry(key, later + limits.ttl, record), later);
      return Stored(record);
    }

    /** Time passes between the two readings of the clock. */
    ghost method Wait(later: real)
      requires Valid() && clock <= later
      modifies this`clock
      ensures Valid() && clock == later
    {
      LaterStillSound(limits, records, clock, later);
      clock := later;
    }

    /** Appends a record that fits, under a key that is not in use. */
    method Enter(e: Entry<R>, ghost later: real)
      requires Valid() && clock <= later && e.expiry == later + limits.ttl
      requires |records| < limits.maxRecords && totalBytes + limits.size(e.record) <= limits.maxBytes
      requires Find(records, e.key).None?
      modifies this
      ensures Valid() && clock == later && records == old(records) + [e]
    {
      assert forall i :: 0 <= i < |records| ==> records[i] in records;
      AppendKeepsSound(limits, records, clock, e, later);
      BytesSnoc(limits.size, records, e);
      records := records + [e];
      totalBytes := totalBytes + limits.size(e.record);
      clock := later;
    }
  }

  // ----- whole runs -----

  /** A run of the store: `states[i]` is what it holds before operation `i`. */
  ghost predicate Run<R(!new)>(limits: Limits<R>, states: seq<seq<Entry<R>>>, ops: seq<Op<R>>) {
    && limits.Valid() && |states| == |ops| + 1 && states[0] == []
    && (forall i :: 0 <= i < |ops| ==> Began(ops[i]) <= Ended(ops[i])
                                           && states[i + 1] == After(limits, states[i], ops[i]))
    && (forall i, j :: 0 <= i < j < |ops| ==> Ended(ops[i]) <= Began(ops[j]))
  }

  /** Both capacity limits hold and at most one live record exists per key, throughout every run. */
  lemma {:induction false} RunIsSound<R(!new)>(limits: Limits<R>, states: seq<seq<Entry<R>>>, ops: seq<Op<R>>, i: nat)
    requires Run(limits, states, ops) && 0 < i < |states|
    ensures Sound(limits, states[i], Ended(ops[i - 1]))
  {
    if i > 1 {
      RunIsSound(limits, states, ops, i - 1);
      AfterKeepsSound(limits, states[i - 1], Ended(ops[i - 2]), ops[i - 1]);
    } else {
      assert Sound(limits, states[0], Began(ops[0]));
      AfterKeepsSound(limits, states[0], Began(ops[0]), ops[0]);
    }
  }

  ghost predicate AddedBy<R(!new)>(limits: Limits<R>, states: seq<seq<Entry<R>>>, ops: seq<Op<R>>, i: nat, e: Entry<R>)
    requires |states| == |ops| + 1 && i < |ops|
  {
    Added(limits, states[i], ops[i]) == Some(e)
  }

  /** An unexpired entry is in the store exactly when some earlier operation entered it. */
  lemma {:induction false} HeldIffEntered<R(!new)>(limits: Limits<R>, states: seq<seq<Entry<R>>>, ops: seq<Op<R>>,
                                                   j: nat, e: Entry<R>)
    requires Run(limits, states, ops) && j < |states|
    requires forall i :: 0 <= i < j ==> Began(ops[i]) < e.expiry
    ensures e in states[j] <==> exists i :: 0 <= i < j && AddedBy(limits, states, ops, i, e)
  {
    if j > 0 {
      HeldIffEntered(limits, states, ops, j - 1, e);
      assert e in states[j] <==> e in states[j - 1] || AddedBy(limits, states, ops, j - 1, e);
    }
  }

  lemma {:induction false} FindOnlyOne<R(!new)>(records: seq<Entry<R>>, e: Entry<R>)
    requires DistinctKeys(records) && e in records
    ensures Find(records, e.key) == Some(e)
  {
    var i :| 0 <= i < |records| && records[i] == e;
    if i > 0 {
      assert records[1..][i - 1] == e;
      FindOnlyOne(records[1..], e);
    }
  }

  /** From the moment a record is entered until it expires, every operation on its key finds that record. */
  lemma FirstWriterWins<R(!new)>(limits: Limits<R>, states: seq<seq<Entry<R>>>, ops: seq<Op<R>>, i: nat, j: nat,
                                 e: Entry<R>)
    requires Run(limits, states, ops) && i < j < |ops| && AddedBy(limits, states, ops, i, e)
    requires ops[j].key == e.key && Began(ops[j]) < e.expiry
    ensures Answer(limits, states[j], ops[j]) == Existing(e.record) && Added(limits, states[j], ops[j]) == None
  {
    forall k | 0 <= k < j ensures Began(ops[k]) < e.expiry {
      assert Began(ops[k]) <= Ended(ops[k]) <= Began(ops[j]);
    }
    HeldIffEntered(limits, states, ops, j, e);
    RunIsSound(limits, states, ops, j);
    LiveKeepsSound(limits, states[j], Ended(ops[j - 1]), ops[j].now);
    FindOnlyOne(Live(states[j], ops[j].now), e);
  }

  /** Whatever an operation finds was entered under its key by an earlier operation and has not expired. */
  lemma FoundWasEntered<R(!new)>(limits: Limits<R>, states: seq<seq<Entry<R>>>, ops: seq<Op<R>>, j: nat)
    returns (i: nat, e: Entry<R>)
    requires Run(limits, states, ops) && j < |ops| && Answer(limits, states[j], ops[j]).Existing?
    ensures i < j && AddedBy(limits, states, ops, i, e) && e.key == ops[j].key && Began(ops[j]) < e.expiry
    ensures Answer(limits, states[j], ops[j]) == Existing(e.record)
  {
    e := Find(Live(states[j], ops[j].now), ops[j].key).value;
    forall k | 0 <= k < j ensures Began(ops[k]) < e.expiry {
      assert Began(ops[k]) <= Ended(ops[k]) <= Began(ops[j]);
    }
    HeldIffEntered(limits, states, ops, j, e);
    i :| 0 <= i < j && AddedBy(limits, states, ops, i, e);
  }
}
