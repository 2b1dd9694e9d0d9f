/** The capped collection of fixed-shape inference contexts behind batched decoding. */
module GraphContexts {
  import opened Base
  import opened Batch

  const MAX_GRAPH_CONTEXTS: nat := 25

  /** Who answers a call: the original backend, or the context captured for the shape. */
  datatype Route = Original | Context(batch: nat, length: nat)

  datatype GraphError = NotTwoDimensional | BeyondProfile | UnknownLength

  /** Shapes that may have a context under a profile: several rows, within the profile, of bucket length. */
  ghost function Shapes(maxBatch: nat): set<(nat, nat)> {
    set b, l | b in BATCH_BUCKETS && l in LENGTH_BUCKETS && 2 <= b <= maxBatch :: (b, l)
  }

  lemma PairsCount(xs: seq<nat>, ys: seq<nat>, s: set<(nat, nat)>)
    requires forall p :: p in s ==> p.0 in xs && p.1 in ys
    ensures |s| <= |xs| * |ys|
  {
    if xs == [] {
      assert s == {};
    } else {
      var first := set p | p in s && p.0 == xs[0];
      var others := s - first;
      assert s == first + others;
      RowCount(xs[0], ys, first);
      PairsCount(xs[1..], ys, others);
      assert (|xs| - 1) * |ys| + |ys| == |xs| * |ys|;
    }
  }

  lemma RowCount(x: nat, ys: seq<nat>, s: set<(nat, nat)>)
    requires forall p :: p in s ==> p.0 == x && p.1 in ys
    ensures |s| <= |ys|
  {
    if ys == [] {
      assert s == {};
    } else {
      RowCount(x, ys[1..], s - {(x, ys[0])});
    }
  }

  /** There are at most 25 such shapes, whatever the profile. */
  lemma AtMost25Shapes(maxBatch: nat, s: set<(nat, nat)>)
    requires s <= Shapes(maxBatch)
    ensures |s| <= MAX_GRAPH_CONTEXTS
  {
    var wide: seq<nat> := [2, 4, 8, 16, 32];
    assert BATCH_BUCKETS == [1] + wide;
    forall p | p in s ensures p.0 in wide && p.1 in LENGTH_BUCKETS {
      assert p in Shapes(maxBatch);
    }
    PairsCount(wide, LENGTH_BUCKETS, s);
  }

  class BatchGraphBackend {
    const maxBatch: nat
    const maxContexts: nat
    var contexts: map<(nat, nat), Route>

    /** Every context serves its own shape, its shape is in the profile, and the cap is respected. */
    ghost predicate Valid()
      reads this
    {
      && maxBatch in BATCH_BUCKETS && maxContexts <= MAX_GRAPH_CONTEXTS
      && |contexts| <= maxContexts && contexts.Keys <= Shapes(maxBatch)
      && forall k :: k in contexts ==> contexts[k] == Context(k.0, k.1)
    }

    constructor (maxBatch: nat, maxContexts: nat)
      requires maxBatch in BATCH_BUCKETS && maxContexts <= MAX_GRAPH_CONTEXTS
      ensures Valid() && this.maxBatch == maxBatch && this.maxContexts == maxContexts && contexts == map[]
    {
      this.maxBatch, this.maxContexts, this.contexts := maxBatch, maxContexts, map[];
    }

    /**
     * Routes a call. A shape that has a context keeps it for ever; a new shape gets one unless the cap
     * is reached; no call removes or replaces a context.
     */
    method Run(shape: seq<nat>) returns (r: Result<Route, GraphError>)
      requires Valid()
      modifies this
      ensures Valid()
      ensures r.Success? <==> |shape| == 2 && shape[0] in BATCH_BUCKETS && shape[0] <= maxBatch
                              && (shape[0] == 1 || shape[1] in LENGTH_BUCKETS)
      ensures r == Failure(NotTwoDimensional) <==> |shape| != 2
      ensures r == Failure(BeyondProfile) <==>
                |shape| == 2 && (shape[0] !in {1, 2, 4, 8, 16, 32} || shape[0] > maxBatch)
      ensures r == Failure(UnknownLength) <==>
                |shape| == 2 && shape[0] in {2, 4, 8, 16, 32} && shape[0] <= maxBatch
                && shape[1] !in {32, 64, 128, 256, 512}
      ensures forall k :: k in old(contexts) ==> k in contexts && contexts[k] == old(contexts)[k]
      ensures contexts.Keys == old(contexts).Keys
                + if |shape| == 2 && r == Success(Context(shape[0], shape[1])) then {(shape[0], shape[1])} else {}
      ensures r.Success? ==> r.value == Original || r.value == Context(shape[0], shape[1])
      ensures r.Success? && shape[0] == 1 ==> r.value == Original
      ensures r.Success? && shape[0] != 1 && r.value == Original ==>
                (shape[0], shape[1]) !in old(contexts) && |old(contexts)| == maxContexts
    {
      if |shape| != 2 {
        return Failure(NotTwoDimensional);
      }
      var batch, length := shape[0], shape[1];
      if batch !in BATCH_BUCKETS || batch > maxBatch {
        return Failure(BeyondProfile);
      }
      if batch == 1 {
        return Success(Original);
      }
      if length !in LENGTH_BUCKETS {
        return Failure(UnknownLength);
      }
      var route := ContextFor(batch, length);
      return Success(route);
    }

    /** The context of a shape of the profile, made on first use, or the original graph when the cap is reached. */
    method ContextFor(batch: nat, length: nat) returns (route: Route)
      requires Valid() && (batch, length) in Shapes(maxBatch)
      modifies this
      ensures Valid() && (route == Original || route == Context(batch, length))
      ensures forall k :: k in old(contexts) ==> k in contexts && contexts[k] == old(contexts)[k]
      ensures contexts.Keys == old(contexts).Keys + if route == Original then {} else {(batch, length)}
      ensures route == Original ==> (batch, length) !in old(contexts) && |old(contexts)| == maxContexts
    {
      if (batch, length) !in contexts {
        if |contexts| >= maxContexts {
          return Original;
        }
        contexts := contexts[(batch, length) := Context(batch, length)];
      }
      return contexts[(batch, length)];
    }

    /** With the largest cap every batched call of a known length has its own context: the fallback is never taken. */
    lemma FullCapNeverFallsBack(batch: nat, length: nat)
      requires Valid() && maxContexts == MAX_GRAPH_CONTEXTS
      requires batch in BATCH_BUCKETS && 2 <= batch <= maxBatch && length in LENGTH_BUCKETS
      ensures (batch, length) in contexts || |contexts| < maxContexts
    {
      if (batch, length) !in contexts {
        AtMost25Shapes(maxBatch, contexts.Keys + {(batch, length)});
      }
    }
  }

  /** A batch bucket stays within the profile, because the profile is a bucket itself. */
  lemma DecoderStaysWithinProfile(windows: nat, maxBatch: nat)
    requires windows <= maxBatch && maxBatch in BATCH_BUCKETS
    ensures var i := NextBucket(BATCH_BUCKETS, windows, 0);
            i.Some? && windows <= BATCH_BUCKETS[i.value] <= maxBatch
  {
    var k :| 0 <= k < |BATCH_BUCKETS| && BATCH_BUCKETS[k] == maxBatch;
    var i := NextBucket(BATCH_BUCKETS, windows, 0);
    assert i.Some?;
    assert i.value <= k;
  }
}
