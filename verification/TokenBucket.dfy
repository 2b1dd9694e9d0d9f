/** The in-memory request limiter: one token bucket per tenant, refilled at `rps` tokens a second up to `rps`. */
module TokenBucket {
  import opened Base

  datatype Bucket = Bucket(balance: real, last: real)

  // ----- one tenant -----

  /** The tokens gained in a stretch of time. */
  function Growth(elapsed: real, rps: nat): real {
    elapsed * rps as real
  }

  /** The balance a call at `now` finds; a tenant without a bucket starts full. */
  function Refilled(bucket: Option<Bucket>, rps: nat, now: real): real {
    var was := if bucket.Some? then bucket.value else Bucket(rps as real, now);
    var grown := was.balance + Growth(now - was.last, rps);
    if grown < rps as real then grown else rps as real
  }

  predicate Admits(bucket: Option<Bucket>, rps: nat, now: real) {
    Refilled(bucket, rps, now) >= 1.0
  }

  function AfterCall(bucket: Option<Bucket>, rps: nat, now: real): Bucket {
    Bucket(Refilled(bucket, rps, now) - if Admits(bucket, rps, now) then 1.0 else 0.0, now)
  }

  /** Neither overdrawn nor overfull, and last touched no later than `clock`. */
  predicate InBounds(bucket: Bucket, rps: nat, clock: real) {
    0.0 <= bucket.balance <= rps as real && bucket.last <= clock
  }

  // ----- all tenants -----

  function Lookup(limits: map<string, Bucket>, tenant: string): Option<Bucket> {
    if tenant in limits then Some(limits[tenant]) else None
  }

  datatype Call = Call(tenant: string, now: real)

  function CallAll(limits: map<string, Bucket>, rps: string -> nat, calls: seq<Call>): map<string, Bucket> {
    if calls == [] then limits
    else
      var before, call := CallAll(limits, rps, calls[..|calls| - 1]), calls[|calls| - 1];
      before[call.tenant := AfterCall(Lookup(before, call.tenant), rps(call.tenant), call.now)]
  }

  /** The times of a tenant's own calls. */
  function OwnTimes(calls: seq<Call>, tenant: string): seq<real> {
    if calls == [] then []
    else
      var last := calls[|calls| - 1];
      OwnTimes(calls[..|calls| - 1], tenant) + if last.tenant == tenant then [last.now] else []
  }

  /** A tenant's bucket depends on its own calls alone. */
  lemma {:induction false} TenantsAreIndependent(limits: map<string, Bucket>, rps: string -> nat, calls: seq<Call>,
                                                 tenant: string)
    ensures Lookup(CallAll(limits, rps, calls), tenant)
         == BucketAfter(Lookup(limits, tenant), rps(tenant), OwnTimes(calls, tenant))
  {
    if calls != [] {
      var rest, last := calls[..|calls| - 1], calls[|calls| - 1];
      TenantsAreIndependent(limits, rps, rest, tenant);
      if last.tenant == tenant {
        assert (OwnTimes(rest, tenant) + [last.now])[..|OwnTimes(rest, tenant)|] == OwnTimes(rest, tenant);
      } else {
        assert OwnTimes(calls, tenant) == OwnTimes(rest, tenant);
      }
    }
  }

  // ----- a tenant's calls in order -----

  function BucketAfter(bucket: Option<Bucket>, rps: nat, times: seq<real>): Option<Bucket> {
    if times == [] then bucket
    else Some(AfterCall(BucketAfter(bucket, rps, times[..|times| - 1]), rps, times[|times| - 1]))
  }

  /** Whether call `k` of a tenant that starts without a bucket is admitted. */
  predicate Admitted(rps: nat, times: seq<real>, k: nat)
    requires k < |times|
  {
    Admits(BucketAfter(None, rps, times[..k]), rps, times[k])
  }

  ghost predicate Ordered(times: seq<real>) {
    forall i, j :: 0 <= i < j < |times| ==> times[i] <= times[j]
  }

  lemma GrowthNonnegative(elapsed: real, rps: nat)
    requires elapsed >= 0.0
    ensures Growth(elapsed, rps) >= 0.0
  {
  }

  lemma GrowthAdds(a: real, b: real, rps: nat)
    ensures Growth(a + b, rps) == Growth(a, rps) + Growth(b, rps)
  {
  }

  /** One call on a bucket that is neither overdrawn nor overfull leaves it so and pays for the admission. */
  lemma OneCall(b: Bucket, rps: nat, now: real)
    requires 1 <= rps && 0.0 <= b.balance <= rps as real && b.last <= now
    ensures var after := AfterCall(Some(b), rps, now);
            && 0.0 <= after.balance <= rps as real && after.last == now
            && after.balance + (if Admits(Some(b), rps, now) then 1.0 else 0.0) <= b.balance + Growth(now - b.last, rps)
  {
    GrowthNonnegative(now - b.last, rps);
    var growth := Growth(now - b.last, rps);
    assert Refilled(Some(b), rps, now) == if b.balance + growth < rps as real then b.balance + growth else rps as real;
  }

  lemma FirstCall(rps: nat, now: real)
    requires 1 <= rps
    ensures Admits(None, rps, now) && AfterCall(None, rps, now) == Bucket(rps as real - 1.0, now)
  {
    assert Growth(now - now, rps) == 0.0;
  }

  /** The balance stays within `[0, rps]`. */
  lemma {:induction false} BalanceBounded(rps: nat, times: seq<real>)
    requires 1 <= rps && Ordered(times)
    ensures times != [] ==>
              var b := BucketAfter(None, rps, times);
              b.Some? && 0.0 <= b.value.balance <= rps as real && b.value.last == times[|times| - 1]
  {
    if times != [] {
      var rest, now := times[..|times| - 1], times[|times| - 1];
      BalanceBounded(rps, rest);
      if rest != [] {
        OneCall(BucketAfter(None, rps, rest).value, rps, now);
      } else {
        FirstCall(rps, now);
      }
    }
  }

  /** How many of the calls `i..j` are admitted. */
  function AdmittedCount(rps: nat, times: seq<real>, i: nat, j: nat): nat
    requires i <= j <= |times|
    decreases j - i
  {
    if i == j then 0 else AdmittedCount(rps, times, i, j - 1) + if Admitted(rps, times, j - 1) then 1 else 0
  }

  lemma BucketStep(rps: nat, times: seq<real>, k: nat)
    requires k < |times|
    ensures BucketAfter(None, rps, times[..k + 1]) == Some(AfterCall(BucketAfter(None, rps, times[..k]), rps, times[k]))
  {
    assert times[..k + 1][..k] == times[..k];
  }

  /** One more call on a bucket that `paid` admissions have been paid from since `first`. */
  lemma PaidOnce(b: Bucket, rps: nat, first: real, now: real, paid: nat)
    requires 1 <= rps && 0.0 <= b.balance <= rps as real && b.last <= now
    requires paid as real + b.balance <= rps as real + Growth(b.last - first, rps)
    ensures (paid + if Admits(Some(b), rps, now) then 1 else 0) as real + AfterCall(Some(b), rps, now).balance
         <= rps as real + Growth(now - first, rps)
  {
    OneCall(b, rps, now);
    GrowthAdds(b.last - first, now - b.last, rps);
    assert now - first == (b.last - first) + (now - b.last);
  }

  lemma BucketBefore(rps: nat, times: seq<real>, k: nat) returns (b: Bucket)
    requires 1 <= rps && Ordered(times) && 0 < k <= |times|
    ensures BucketAfter(None, rps, times[..k]) == Some(b)
    ensures 0.0 <= b.balance <= rps as real && b.last == times[k - 1]
  {
    BalanceBounded(rps, times[..k]);
    b := BucketAfter(None, rps, times[..k]).value;
  }

  /** What was admitted from call `i` on, plus what is left, is at most a full bucket plus the growth since. */
  lemma {:induction false} AdmittedPaidFor(rps: nat, times: seq<real>, i: nat, j: nat)
    requires 1 <= rps && Ordered(times) && i < j <= |times|
    ensures BucketAfter(None, rps, times[..j]).Some?
    ensures AdmittedCount(rps, times, i, j) as real + BucketAfter(None, rps, times[..j]).value.balance
         <= rps as real + Growth(times[j - 1] - times[i], rps)
    decreases j - i
  {
    BucketStep(rps, times, j - 1);
    if j == i + 1 {
      FirstOfStretch(rps, times, i);
    } else {
      AdmittedPaidFor(rps, times, i, j - 1);
      var before := BucketBefore(rps, times, j - 1);
      PaidOnce(before, rps, times[i], times[j - 1], AdmittedCount(rps, times, i, j - 1));
    }
  }

  lemma FirstOfStretch(rps: nat, times: seq<real>, i: nat)
    requires 1 <= rps && i < |times|
    ensures AdmittedCount(rps, times, i, i + 1) == if Admitted(rps, times, i) then 1 else 0
    ensures var after := AfterCall(BucketAfter(None, rps, times[..i]), rps, times[i]);
            AdmittedCount(rps, times, i, i + 1) as real + after.balance <= rps as real
    ensures Growth(times[i] - times[i], rps) == 0.0
  {
    assert AdmittedCount(rps, times, i, i) == 0;
  }

  /** At most `rps * (t2 - t1) + rps` calls are admitted between any two moments. */
  lemma RateIsBounded(rps: nat, times: seq<real>, i: nat, j: nat, t1: real, t2: real)
    requires 1 <= rps && Ordered(times) && i < j <= |times| && t1 <= times[i] && times[j - 1] <= t2
    ensures AdmittedCount(rps, times, i, j) as real <= rps as real * (t2 - t1) + rps as real
  {
    AdmittedPaidFor(rps, times, i, j);
    BalanceBounded(rps, times[..j]);
    var inside, outside := times[j - 1] - times[i], (t2 - t1) - (times[j - 1] - times[i]);
    GrowthNonnegative(outside, rps);
    GrowthAdds(inside, outside, rps);
    assert inside + outside == t2 - t1;
    assert Growth(t2 - t1, rps) == rps as real * (t2 - t1);
  }

  /** A call at least `1 / rps` after the tenant's previous one, or its first, is admitted whatever came before. */
  lemma SpacedCallIsAdmitted(rps: nat, times: seq<real>, k: nat)
    requires 1 <= rps && Ordered(times) && k < |times|
    requires k > 0 ==> times[k] - times[k - 1] >= 1.0 / rps as real
    ensures Admitted(rps, times, k)
  {
    if k > 0 {
      BalanceBounded(rps, times[..k]);
      SpacedGrowth(times[k] - times[k - 1], rps);
      assert times[..k][k - 1] == times[k - 1];
      var b := BucketAfter(None, rps, times[..k]).value;
      assert Refilled(Some(b), rps, times[k]) >= 1.0;
    } else {
      FirstCall(rps, times[0]);
      assert times[..0] == [];
    }
  }

  lemma SpacedGrowth(elapsed: real, rps: nat)
    requires 1 <= rps && elapsed >= 1.0 / rps as real
    ensures Growth(elapsed, rps) >= 1.0
  {
    var rest := elapsed - 1.0 / rps as real;
    GrowthAdds(1.0 / rps as real, rest, rps);
    GrowthNonnegative(rest, rps);
    assert Growth(1.0 / rps as real, rps) == 1.0;
  }

  /** One call keeps a bucket in bounds, pays for the admission, and is admitted when it is the first or spaced. */
  lemma CallIsSound(bucket: Option<Bucket>, rps: nat, clock: real, now: real)
    requires 1 <= rps && clock <= now && (bucket.Some? ==> InBounds(bucket.value, rps, clock))
    ensures InBounds(AfterCall(bucket, rps, now), rps, now)
    ensures bucket.None? ==> Admits(bucket, rps, now)
    ensures bucket.Some? ==>
              var gained := Growth(now - bucket.value.last, rps);
              && AfterCall(bucket, rps, now).balance + (if Admits(bucket, rps, now) then 1.0 else 0.0)
                 <= bucket.value.balance + gained
              && (now - bucket.value.last >= 1.0 / rps as real ==> Admits(bucket, rps, now))
  {
    match bucket
    case None => FirstCall(rps, now);
    case Some(b) =>
      OneCall(b, rps, now);
      if now - b.last >= 1.0 / rps as real {
        SpacedGrowth(now - b.last, rps);
      }
  }

  /**
   * What one call does to a bucket, exactly: the balance grows by `rps` a second up to `rps`, the call is admitted when
   * it then holds a whole token, and pays that token. A tenant without a bucket starts with a full one.
   */
  ghost predicate ExactlyPaid(bucket: Option<Bucket>, rps: nat, now: real, after: Bucket, admitted: bool) {
    var held := after.balance + if admitted then 1.0 else 0.0;
    && after.last == now && (admitted <==> held >= 1.0)
    && match bucket
       case None => held == rps as real
       case Some(b) =>
         var due := b.balance + (now - b.last) * rps as real;
         held == if due < rps as real then due else rps as real
  }

  lemma CallIsExact(bucket: Option<Bucket>, rps: nat, now: real)
    ensures ExactlyPaid(bucket, rps, now, AfterCall(bucket, rps, now), Admits(bucket, rps, now))
  {
    match bucket
    case None => assert Growth(now - now, rps) == 0.0;
    case Some(b) => assert Growth(now - b.last, rps) == (now - b.last) * rps as real;
  }

  /** The in-memory limiter for tenants whose configured rates are `rates`. */
  class Limiter {
    const rates: string -> nat
    var limits: map<string, Bucket>
    ghost var clock: real

    /** No bucket is overdrawn, overfull or ahead of the clock. */
    ghost predicate Valid()
      reads this
    {
      forall tenant :: 1 <= rates(tenant) && (tenant in limits ==> InBounds(limits[tenant], rates(tenant), clock))
    }

    constructor (rates: string -> nat, ghost now: real)
      requires forall tenant :: 1 <= rates(tenant)
      ensures Valid() && limits == map[] && clock == now && this.rates == rates
    {
      this.rates, limits, clock := rates, map[], now;
    }

    /**
     * The rate check of `authorize`. The caller's bucket pays for an admission, other tenants keep theirs, and a
     * tenant's first call is admitted, as is one that comes `1 / rps` after its previous one.
     */
    method Authorize(tenant: string, now: real) returns (admitted: bool)
      requires Valid() && clock <= now
      modifies this
      ensures Valid() && clock == now && tenant in limits
      ensures admitted == Admits(Lookup(old(limits), tenant), rates(tenant), now)
      ensures limits[tenant] == AfterCall(Lookup(old(limits), tenant), rates(tenant), now)
      ensures forall other :: other != tenant ==> Lookup(limits, other) == Lookup(old(limits), other)
      ensures tenant !in old(limits) ==> admitted
      ensures tenant in old(limits) ==>
                && limits[tenant].balance + (if admitted then 1.0 else 0.0)
                   <= old(limits)[tenant].balance + Growth(now - old(limits)[tenant].last, rates(tenant))
                && (now - old(limits)[tenant].last >= 1.0 / rates(tenant) as real ==> admitted)
      ensures ExactlyPaid(Lookup(old(limits), tenant), rates(tenant), now, limits[tenant], admitted)
    {
      hide ExactlyPaid;
      var rps := rates(tenant);
      CallIsSound(Lookup(limits, tenant), rps, clock, now);
      CallIsExact(Lookup(limits, tenant), rps, now);
      var balance, last := rps as real, now;
      if tenant in limits {
        balance, last := limits[tenant].balance, limits[tenant].last;
      }
      var grown := balance + Growth(now - last, rps);
      balance := if grown < rps as real then grown else rps as real;
      assert balance == Refilled(Lookup(limits, tenant), rps, now);
      clock := now;
      if balance < 1.0 {
        limits := limits[tenant := Bucket(balance, now)];
        return false;
      }
      limits := limits[tenant := Bucket(balance - 1.0, now)];
      return true;
    }
  }

  lemma {:induction false} BurstBalance(rps: nat, t: real, n: nat)
    requires 0 < n
    ensures BucketAfter(None, rps, seq(n, _ => t)) == Some(Bucket(if n <= rps then (rps - n) as real else 0.0, t))
  {
    var times := seq(n, _ => t);
    assert times[n - 1] == t && Growth(t - t, rps) == 0.0;
    if n == 1 {
      assert times[..0] == [];
    } else {
      assert times[..n - 1] == seq(n - 1, _ => t);
      BurstBalance(rps, t, n - 1);
    }
  }

  /** The bound is exact: of a burst at one instant precisely the first `rps` calls are admitted. */
  lemma BurstAdmitsExactly(rps: nat, t: real, n: nat, k: nat)
    requires k < n
    ensures Admitted(rps, seq(n, _ => t), k) <==> k < rps
  {
    var times := seq(n, _ => t);
    assert times[..k] == seq(k, _ => t);
    assert Growth(t - t, rps) == 0.0;
    if k > 0 {
      BurstBalance(rps, t, k);
    }
  }
}
