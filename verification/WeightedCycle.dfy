/** Seeded weighted cycles: a heap of jittered visit times, one per case. */
module WeightedCycle {
  /** The next visit of a case: its time and how many visits came before it. */
  datatype Visit = Visit(key: real, cycle: nat)

  datatype HeapItem = HeapItem(key: real, index: nat, cycle: nat)

  /** Comparison of heap tuples. */
  predicate ItemLe(a: HeapItem, b: HeapItem) {
    a.key < b.key || (a.key == b.key && (a.index < b.index || (a.index == b.index && a.cycle <= b.cycle)))
  }

  ghost predicate Weights(weights: seq<real>) {
    weights != [] && forall i :: 0 <= i < |weights| ==> weights[i] > 0.0
  }

  predicate Jitter(u: real) {
    0.0 <= u < 1.0
  }

  // ----- the schedule as values -----

  /** Visit number `cycle` of a case lies in its own slot `[cycle / weight, (cycle + 1) / weight)`. */
  ghost predicate InSlot(v: Visit, weight: real) {
    v.cycle as real <= v.key * weight < v.cycle as real + 1.0
  }

  ghost predicate Scheduled(weights: seq<real>, visits: seq<Visit>) {
    |visits| == |weights| && forall i :: 0 <= i < |visits| ==> InSlot(visits[i], weights[i])
  }

  function ItemAt(visits: seq<Visit>, i: nat): HeapItem
    requires i < |visits|
  {
    HeapItem(visits[i].key, i, visits[i].cycle)
  }

  /** Case `i` is the one the heap pops. */
  ghost predicate IsNext(visits: seq<Visit>, i: nat) {
    i < |visits| && forall j :: 0 <= j < |visits| ==> ItemLe(ItemAt(visits, i), ItemAt(visits, j))
  }

  function VisitFor(cycle: nat, u: real, weight: real): Visit
    requires weight > 0.0
  {
    Visit((cycle as real + u) / weight, cycle)
  }

  function Advance(weights: seq<real>, visits: seq<Visit>, i: nat, u: real): seq<Visit>
    requires Weights(weights) && |visits| == |weights| && i < |visits|
  {
    visits[i := VisitFor(visits[i].cycle + 1, u, weights[i])]
  }

  /** The visit has that number, and its time is as far into its slot as the jitter says. */
  predicate Places(v: Visit, cycle: nat, u: real, weight: real) {
    v.cycle == cycle && v.key * weight == cycle as real + u
  }

  lemma VisitPlaces(cycle: nat, u: real, weight: real)
    requires weight > 0.0
    ensures Places(VisitFor(cycle, u, weight), cycle, u, weight)
  {
  }

  lemma VisitInSlot(cycle: nat, u: real, weight: real)
    requires weight > 0.0 && Jitter(u)
    ensures InSlot(VisitFor(cycle, u, weight), weight)
  {
  }

  lemma ScaleUp(a: real, b: real, weight: real)
    requires weight > 0.0 && a <= b
    ensures a * weight <= b * weight
  {
    var gap := b - a;
    assert gap * weight >= 0.0;
    assert b * weight == a * weight + gap * weight;
  }

  /** Visit times compare as their scaled values do. */
  lemma ScaleLe(a: real, b: real, weight: real)
    requires weight > 0.0
    ensures a <= b <==> a * weight <= b * weight
  {
    if a <= b {
      ScaleUp(a, b, weight);
    } else {
      var gap := a - b;
      assert gap * weight > 0.0;
      assert a * weight == b * weight + gap * weight;
    }
  }

  /** A later slot of the same case lies strictly behind an earlier one. */
  lemma SlotsAreOrdered(a: Visit, b: Visit, weight: real)
    requires weight > 0.0 && InSlot(a, weight) && InSlot(b, weight) && a.cycle < b.cycle
    ensures a.key < b.key
  {
    var x, y := a.key * weight, b.key * weight;
    assert x < a.cycle as real + 1.0;
    assert b.cycle as real <= y;
    assert (a.cycle + 1) as real == a.cycle as real + 1.0;
    assert (a.cycle + 1) as real <= b.cycle as real;
    ScaleLe(b.key, a.key, weight);
  }

  // ----- the generator -----

  lemma {:induction false} LeastExists(heap: set<HeapItem>) returns (least: HeapItem)
    requires heap != {}
    ensures least in heap && forall x :: x in heap ==> ItemLe(least, x)
  {
    var x :| x in heap;
    var rest := heap - {x};
    assert heap == rest + {x};
    if rest == {} {
      least := x;
    } else {
      var other := LeastExists(rest);
      least := if ItemLe(x, other) then x else other;
      assert forall y :: y in heap ==> y == x || y in rest;
    }
  }

  class Cycle {
    const weights: seq<real>
    const random: nat -> real
    var heap: set<HeapItem>
    var position: nat
    ghost var visits: seq<Visit>

    ghost predicate Valid()
      reads this
    {
      && Weights(weights) && (forall n: nat :: Jitter(random(n))) && Scheduled(weights, visits)
      && Heaped(heap, visits)
    }

    constructor (weights: seq<real>, random: nat -> real)
      requires Weights(weights) && forall n: nat :: Jitter(random(n))
      ensures Valid() && this.weights == weights && this.random == random && position == |weights|
      ensures forall i :: 0 <= i < |weights| ==> visits[i] == VisitFor(0, random(i), weights[i])
      ensures forall i :: 0 <= i < |weights| ==> Places(visits[i], 0, random(i), weights[i])
    {
      this.weights, this.random := weights, random;
      var built: set<HeapItem>, laid: seq<Visit> := {}, [];
      for i := 0 to |weights|
        invariant |laid| == i && forall j :: 0 <= j < i ==> laid[j] == VisitFor(0, random(j), weights[j])
        invariant Heaped(built, laid)
      {
        var v := VisitFor(0, random(i), weights[i]);
        HeapedOneMore(built, laid, v);
        built, laid := built + {HeapItem(v.key, i, 0)}, laid + [v];
      }
      heap, visits, position := built, laid, |weights|;
      new;
      forall i | 0 <= i < |visits| ensures InSlot(visits[i], weights[i]) {
        VisitInSlot(0, random(i), weights[i]);
      }
      forall i | 0 <= i < |visits| ensures Places(visits[i], 0, random(i), weights[i]) {
        VisitPlaces(0, random(i), weights[i]);
      }
    }

    /** `heappop` as a choice: the least item of the heap. */
    method Least(heap: set<HeapItem>, ghost visits: seq<Visit>) returns (item: HeapItem)
      requires Heaped(heap, visits) && visits != []
      ensures IsNext(visits, item.index) && item == ItemAt(visits, item.index)
    {
      assert ItemAt(visits, 0) in heap;
      ghost var least := LeastExists(heap);
      item :| item in heap && forall x :: x in heap ==> ItemLe(item, x);
      forall j | 0 <= j < |visits| ensures ItemLe(ItemAt(visits, item.index), ItemAt(visits, j)) {
        assert ItemAt(visits, j) in heap;
      }
    }

    /** Pops the least item and pushes the case's next visit. */
    method Next() returns (index: nat)
      requires Valid()
      modifies this
      ensures Valid() && IsNext(old(visits), index)
      ensures visits == Advance(weights, old(visits), index, random(old(position))) && position == old(position) + 1
      ensures forall j :: 0 <= j < |old(visits)| ==>
                || old(visits)[index].key < old(visits)[j].key
                || (old(visits)[index].key == old(visits)[j].key && index <= j)
      ensures Places(visits[index], old(visits)[index].cycle + 1, random(old(position)), weights[index])
      ensures forall i :: 0 <= i < |visits| && i != index ==> visits[i] == old(visits)[i]
    {
      var item := Least(heap, visits);
      index := item.index;
      forall j | 0 <= j < |visits|
        ensures visits[index].key < visits[j].key || (visits[index].key == visits[j].key && index <= j)
      {
        assert ItemLe(ItemAt(visits, index), ItemAt(visits, j));
      }
      var v := VisitFor(item.cycle + 1, random(position), weights[index]);
      VisitInSlot(item.cycle + 1, random(position), weights[index]);
      VisitPlaces(item.cycle + 1, random(position), weights[index]);
      HeapedUpdate(heap, visits, index, v);
      heap := heap - {item} + {HeapItem(v.key, index, v.cycle)};
      visits := visits[index := v];
      position := position + 1;
    }
  }

  /** The heap holds exactly one item per case. */
  ghost predicate Heaped(heap: set<HeapItem>, visits: seq<Visit>) {
    forall x :: x in heap <==> x.index < |visits| && x == ItemAt(visits, x.index)
  }

  lemma HeapedOneMore(heap: set<HeapItem>, visits: seq<Visit>, v: Visit)
    requires Heaped(heap, visits)
    ensures Heaped(heap + {HeapItem(v.key, |visits|, v.cycle)}, visits + [v])
  {
  }

  lemma HeapedUpdate(heap: set<HeapItem>, visits: seq<Visit>, i: nat, v: Visit)
    requires Heaped(heap, visits) && i < |visits|
    ensures Heaped(heap - {ItemAt(visits, i)} + {HeapItem(v.key, i, v.cycle)}, visits[i := v])
  {
  }

  // ----- whole runs -----

  /** `draws[n]` is what draw `n` returns; `jitters[n]` is the random number it uses for the next visit. */
  ghost predicate Run(weights: seq<real>, states: seq<seq<Visit>>, draws: seq<nat>, jitters: seq<real>) {
    && Weights(weights) && |states| == |draws| + 1 && |jitters| == |draws|
    && Scheduled(weights, states[0]) && (forall i :: 0 <= i < |weights| ==> states[0][i].cycle == 0)
    && forall n :: 0 <= n < |draws| ==> Turn(weights, states[n], draws[n], jitters[n], states[n + 1])
  }

  ghost predicate Turn(weights: seq<real>, visits: seq<Visit>, draw: nat, u: real, visits': seq<Visit>)
    requires Weights(weights)
  {
    |visits| == |weights| && IsNext(visits, draw) && Jitter(u) && visits' == Advance(weights, visits, draw, u)
  }

  function Count(draws: seq<nat>, i: nat): nat {
    if draws == [] then 0 else Count(draws[..|draws| - 1], i) + if draws[|draws| - 1] == i then 1 else 0
  }

  /** Each case's next visit is numbered by how often it was drawn, and lies in its slot. */
  lemma {:induction false} RunIsScheduled(weights: seq<real>, states: seq<seq<Visit>>, draws: seq<nat>,
                                          jitters: seq<real>, n: nat)
    requires Run(weights, states, draws, jitters) && n < |states|
    ensures Scheduled(weights, states[n])
    ensures forall i :: 0 <= i < |weights| ==> states[n][i].cycle == Count(draws[..n], i)
  {
    if n > 0 {
      RunIsScheduled(weights, states, draws, jitters, n - 1);
      assert Turn(weights, states[n - 1], draws[n - 1], jitters[n - 1], states[n]);
      VisitInSlot(states[n - 1][draws[n - 1]].cycle + 1, jitters[n - 1], weights[draws[n - 1]]);
      assert draws[..n][..n - 1] == draws[..n - 1];
    }
  }

  ghost function KeyOf(states: seq<seq<Visit>>, draws: seq<nat>, n: nat): real
    requires n < |draws| < |states| && draws[n] < |states[n]|
  {
    states[n][draws[n]].key
  }

  /** Each visit time is at least `t`. */
  ghost predicate AllAfter(visits: seq<Visit>, t: real) {
    forall i :: 0 <= i < |visits| ==> t <= visits[i].key
  }

  lemma TurnKeepsAfter(weights: seq<real>, visits: seq<Visit>, draw: nat, u: real, visits': seq<Visit>, t: real)
    requires Weights(weights) && Scheduled(weights, visits)
    requires Turn(weights, visits, draw, u, visits') && AllAfter(visits, t)
    ensures t <= visits[draw].key && AllAfter(visits', visits[draw].key)
  {
    VisitInSlot(visits[draw].cycle + 1, u, weights[draw]);
    SlotsAreOrdered(visits[draw], visits'[draw], weights[draw]);
    forall i | 0 <= i < |visits| ensures visits[draw].key <= visits[i].key {
      assert ItemLe(ItemAt(visits, draw), ItemAt(visits, i));
    }
  }

  /** Draw keys never decrease: at any later draw every visit time is at least the earlier key. */
  lemma {:induction false} KeysNeverDecrease(weights: seq<real>, states: seq<seq<Visit>>, draws: seq<nat>,
                                             jitters: seq<real>, m: nat, n: nat)
    requires Run(weights, states, draws, jitters) && m < n < |states|
    ensures Turn(weights, states[m], draws[m], jitters[m], states[m + 1])
    ensures AllAfter(states[n], KeyOf(states, draws, m))
    decreases n - m
  {
    assert Turn(weights, states[m], draws[m], jitters[m], states[m + 1]);
    RunIsScheduled(weights, states, draws, jitters, n - 1);
    assert Turn(weights, states[n - 1], draws[n - 1], jitters[n - 1], states[n]);
    if m == n - 1 {
      TurnKeepsAfter(weights, states[m], draws[m], jitters[m], states[n], MinKey(states[m]));
    } else {
      KeysNeverDecrease(weights, states, draws, jitters, m, n - 1);
      TurnKeepsAfter(weights, states[n - 1], draws[n - 1], jitters[n - 1], states[n], KeyOf(states, draws, m));
    }
  }

  ghost function MinKey(visits: seq<Visit>): (r: real)
    ensures AllAfter(visits, r)
  {
    if visits == [] then 0.0
    else
      var rest := MinKey(visits[..|visits| - 1]);
      if rest <= visits[|visits| - 1].key then rest else visits[|visits| - 1].key
  }

  /** A case that was drawn was last drawn at some turn, at a visit numbered one less than its count. */
  lemma {:induction false} LastDrawn(weights: seq<real>, states: seq<seq<Visit>>, draws: seq<nat>, jitters: seq<real>,
                                     n: nat, i: nat)
    returns (m: nat)
    requires Run(weights, states, draws, jitters) && n < |states| && i < |weights| && Count(draws[..n], i) > 0
    ensures m < n && draws[m] == i && Scheduled(weights, states[m]) && states[m][i].cycle == Count(draws[..n], i) - 1
  {
    assert draws[..n][..n - 1] == draws[..n - 1];
    if draws[n - 1] == i {
      m := n - 1;
      RunIsScheduled(weights, states, draws, jitters, m);
    } else {
      m := LastDrawn(weights, states, draws, jitters, n - 1, i);
    }
  }

  lemma ShareBelowNext(weights: seq<real>, visits: seq<Visit>, draw: nat, i: nat)
    requires Weights(weights) && Scheduled(weights, visits) && IsNext(visits, draw) && i < |visits|
    ensures visits[draw].key * weights[i] < visits[i].cycle as real + 1.0
    ensures draw == i ==> visits[i].cycle as real <= visits[draw].key * weights[i]
  {
    assert ItemLe(ItemAt(visits, draw), ItemAt(visits, i));
    ScaleLe(visits[draw].key, visits[i].key, weights[i]);
  }

  lemma ShareReached(weights: seq<real>, visits: seq<Visit>, i: nat, t: real)
    requires Weights(weights) && Scheduled(weights, visits) && i < |visits| && visits[i].key <= t
    ensures visits[i].cycle as real <= t * weights[i]
  {
    ScaleLe(visits[i].key, t, weights[i]);
  }

  lemma ShareAboveLast(weights: seq<real>, states: seq<seq<Visit>>, draws: seq<nat>, jitters: seq<real>, n: nat, i: nat)
    requires Run(weights, states, draws, jitters) && n < |draws| && i < |weights|
    ensures Turn(weights, states[n], draws[n], jitters[n], states[n + 1])
    ensures Count(draws[..n], i) as real - 1.0 <= KeyOf(states, draws, n) * weights[i]
  {
    assert Turn(weights, states[n], draws[n], jitters[n], states[n + 1]);
    if Count(draws[..n], i) > 0 {
      var m := LastDrawn(weights, states, draws, jitters, n, i);
      KeysNeverDecrease(weights, states, draws, jitters, m, n);
      ShareReached(weights, states[m], i, KeyOf(states, draws, n));
    } else {
      NotBeforeZero(weights, states, draws, jitters, n, i);
    }
  }

  /** Before a draw with key `t`, the count of a case is within one of its share `weight * t`. */
  lemma CountNearShare(weights: seq<real>, states: seq<seq<Visit>>, draws: seq<nat>, jitters: seq<real>, n: nat, i: nat)
    requires Run(weights, states, draws, jitters) && n < |draws| && i < |weights|
    ensures Turn(weights, states[n], draws[n], jitters[n], states[n + 1])
    ensures var share, count := KeyOf(states, draws, n) * weights[i], Count(draws[..n], i);
            && count as real - 1.0 <= share < count as real + 1.0
            && (draws[n] == i ==> count as real <= share)
  {
    hide Count, Scheduled, IsNext, Advance, InSlot;
    ShareAboveLast(weights, states, draws, jitters, n, i);
    RunIsScheduled(weights, states, draws, jitters, n);
    ShareBelowNext(weights, states[n], draws[n], i);
  }

  lemma FloorBetween(x: real, count: nat)
    requires count as real - 1.0 <= x < count as real + 1.0
    ensures x.Floor <= count <= x.Floor + 1
    ensures count as real <= x ==> x.Floor == count
  {
  }

  /** Fairness: at a draw with key `t`, case `i` has been drawn `floor(weight * t)` times or once more. */
  lemma Fairness(weights: seq<real>, states: seq<seq<Visit>>, draws: seq<nat>, jitters: seq<real>, n: nat, i: nat)
    requires Run(weights, states, draws, jitters) && n < |draws| && i < |weights|
    ensures Turn(weights, states[n], draws[n], jitters[n], states[n + 1])
    ensures var share := (KeyOf(states, draws, n) * weights[i]).Floor;
            && share <= Count(draws[..n], i) <= share + 1
            && share <= Count(draws[..n + 1], i) <= share + 1
  {
    CountNearShare(weights, states, draws, jitters, n, i);
    FloorBetween(KeyOf(states, draws, n) * weights[i], Count(draws[..n], i));
    assert draws[..n + 1][..n] == draws[..n];
  }

  lemma NotBeforeZero(weights: seq<real>, states: seq<seq<Visit>>, draws: seq<nat>, jitters: seq<real>, n: nat, i: nat)
    requires Run(weights, states, draws, jitters) && n < |draws| && i < |weights|
    ensures Turn(weights, states[n], draws[n], jitters[n], states[n + 1])
    ensures KeyOf(states, draws, n) * weights[i] >= 0.0
  {
    assert Turn(weights, states[n], draws[n], jitters[n], states[n + 1]);
    RunIsScheduled(weights, states, draws, jitters, n);
    var v := states[n][draws[n]];
    ScaleLe(0.0, v.key, weights[draws[n]]);
    ScaleLe(0.0, v.key, weights[i]);
  }

  // ----- equal weights -----

  ghost predicate Equal(weights: seq<real>) {
    forall i, j :: 0 <= i < |weights| && 0 <= j < |weights| ==> weights[i] == weights[j]
  }

  /** With equal weights the drawn case is one of those drawn least often. */
  lemma DrawnLeastOften(weights: seq<real>, visits: seq<Visit>, draw: nat, i: nat)
    requires Weights(weights) && Equal(weights) && Scheduled(weights, visits) && IsNext(visits, draw) && i < |visits|
    ensures visits[draw].cycle <= visits[i].cycle
  {
    assert ItemLe(ItemAt(visits, draw), ItemAt(visits, i)) && weights[i] == weights[draw];
    if visits[i].cycle < visits[draw].cycle {
      SlotsAreOrdered(visits[i], visits[draw], weights[i]);
    }
  }

  /**
   * After `k` whole blocks and `r` further draws, each case was drawn `k` or `k + 1` times, and `k + 1` times `r`
   * cases.
   */
  ghost predicate Level(visits: seq<Visit>, k: nat, r: nat) {
    (forall i :: 0 <= i < |visits| ==> visits[i].cycle == k || visits[i].cycle == k + 1) && Ahead(visits, k) == r
  }

  ghost function Ahead(visits: seq<Visit>, k: nat): nat {
    if visits == [] then 0
    else Ahead(visits[..|visits| - 1], k) + if visits[|visits| - 1].cycle == k + 1 then 1 else 0
  }

  lemma {:induction false} AheadUpdate(visits: seq<Visit>, k: nat, i: nat, v: Visit)
    requires i < |visits| && visits[i].cycle == k && v.cycle == k + 1
    ensures Ahead(visits[i := v], k) == Ahead(visits, k) + 1
  {
    var last := |visits| - 1;
    if i < last {
      AheadUpdate(visits[..last], k, i, v);
      assert visits[i := v][..last] == visits[..last][i := v];
    } else {
      assert visits[i := v][..last] == visits[..last];
    }
  }

  lemma {:induction false} AheadBounds(visits: seq<Visit>, k: nat)
    ensures Ahead(visits, k) <= |visits|
    ensures Ahead(visits, k) == |visits| ==> forall i :: 0 <= i < |visits| ==> visits[i].cycle == k + 1
    ensures Ahead(visits, k) == 0 ==> forall i :: 0 <= i < |visits| ==> visits[i].cycle != k + 1
  {
    if visits != [] {
      AheadBounds(visits[..|visits| - 1], k);
    }
  }

  lemma {:induction false} NoneAhead(visits: seq<Visit>, k: nat)
    requires forall i :: 0 <= i < |visits| ==> visits[i].cycle <= k
    ensures Ahead(visits, k) == 0
  {
    if visits != [] {
      NoneAhead(visits[..|visits| - 1], k);
    }
  }

  /** A draw from a level state takes a case that is not ahead. */
  lemma LevelDraw(weights: seq<real>, visits: seq<Visit>, draw: nat, u: real, visits': seq<Visit>, k: nat, r: nat)
    requires Weights(weights) && Equal(weights) && Scheduled(weights, visits) && Turn(weights, visits, draw, u, visits')
    requires Level(visits, k, r) && r < |weights|
    ensures visits[draw].cycle == k && Level(visits', k, r + 1)
  {
    AheadBounds(visits, k);
    if visits[draw].cycle == k + 1 {
      forall i | 0 <= i < |visits| ensures visits[i].cycle == k + 1 {
        DrawnLeastOften(weights, visits, draw, i);
      }
      AllAhead(visits, k);
    }
    AheadUpdate(visits, k, draw, visits'[draw]);
  }

  lemma {:induction false} AllAhead(visits: seq<Visit>, k: nat)
    requires forall i :: 0 <= i < |visits| ==> visits[i].cycle == k + 1
    ensures Ahead(visits, k) == |visits|
  {
    if visits != [] {
      AllAhead(visits[..|visits| - 1], k);
    }
  }

  /** Within block `k`, the state is level. */
  lemma {:induction false} BlockIsLevel(weights: seq<real>, states: seq<seq<Visit>>, draws: seq<nat>,
                                        jitters: seq<real>, k: nat, r: nat)
    requires Run(weights, states, draws, jitters) && Equal(weights) && r <= |weights| && k * |weights| + r < |states|
    ensures |states[k * |weights| + r]| == |weights| && Level(states[k * |weights| + r], k, r)
    decreases k, r
  {
    var n := k * |weights| + r;
    RunIsScheduled(weights, states, draws, jitters, n);
    if r > 0 {
      BlockIsLevel(weights, states, draws, jitters, k, r - 1);
      RunIsScheduled(weights, states, draws, jitters, n - 1);
      assert Turn(weights, states[n - 1], draws[n - 1], jitters[n - 1], states[n]);
      LevelDraw(weights, states[n - 1], draws[n - 1], jitters[n - 1], states[n], k, r - 1);
    } else if k > 0 {
      assert (k - 1) * |weights| + |weights| == n;
      BlockIsLevel(weights, states, draws, jitters, k - 1, |weights|);
      NextLevel(states[n], k - 1);
    } else {
      NoneAhead(states[0], 0);
    }
  }

  /** When all cases are ahead, the next block begins. */
  lemma NextLevel(visits: seq<Visit>, k: nat)
    requires Level(visits, k, |visits|)
    ensures Level(visits, k + 1, 0)
  {
    AheadBounds(visits, k);
    NoneAhead(visits, k + 1);
  }

  /** With equal weights each aligned block of as many draws as there are cases visits every case exactly once. */
  lemma BlocksArePermutations(weights: seq<real>, states: seq<seq<Visit>>, draws: seq<nat>, jitters: seq<real>, k: nat,
                              i: nat)
    requires Run(weights, states, draws, jitters) && Equal(weights) && (k + 1) * |weights| <= |draws| && i < |weights|
    ensures 0 <= k * |weights| <= (k + 1) * |weights|
    ensures Count(draws[..k * |weights|], i) == k && Count(draws[..(k + 1) * |weights|], i) == k + 1
  {
    assert (k + 1) * |weights| == k * |weights| + |weights|;
    WholeBlocks(weights, states, draws, jitters, k, i);
    WholeBlocks(weights, states, draws, jitters, k + 1, i);
  }

  lemma WholeBlocks(weights: seq<real>, states: seq<seq<Visit>>, draws: seq<nat>, jitters: seq<real>, k: nat, i: nat)
    requires Run(weights, states, draws, jitters) && Equal(weights) && k * |weights| <= |draws| && i < |weights|
    ensures Count(draws[..k * |weights|], i) == k
  {
    var n := k * |weights|;
    BlockIsLevel(weights, states, draws, jitters, k, 0);
    assert n + 0 == n;
    AheadBounds(states[n], k);
    RunIsScheduled(weights, states, draws, jitters, n);
  }
}
