/** Picking stock: first expired, first out, and never past its date. */
module Fefo {
  import opened Base
  import opened Sorting
  import opened Money

  datatype Batch = Batch(
    id: Uuid,
    productId: Uuid,
    lot: Option<string>,
    expiresAt: Option<I64>,
    receivedAt: I64)
  {
    predicate IsExpired(now: I64) { expiresAt.Some? && now >= expiresAt.value }

    /** Goods without a date sort last. */
    function ExpiryKey(): I64 { if expiresAt.Some? then expiresAt.value else I64_MAX }
  }

  datatype BatchLevel = BatchLevel(batch: Batch, onHand: I64)

  datatype Allocation = Allocation(batchId: Uuid, taken: I64)

  datatype Pick = Pick(allocations: seq<Allocation>, shortfall: I64)

  /** Soonest expiry first, then earliest arrival, then the id. */
  predicate KeyLe(a: BatchLevel, b: BatchLevel)
  {
    || a.batch.ExpiryKey() < b.batch.ExpiryKey()
    || (a.batch.ExpiryKey() == b.batch.ExpiryKey() &&
        (a.batch.receivedAt < b.batch.receivedAt ||
         (a.batch.receivedAt == b.batch.receivedAt && a.batch.id <= b.batch.id)))
  }

  predicate KeyLt(a: BatchLevel, b: BatchLevel) { !KeyLe(b, a) }

  lemma KeyIsTotal()
    ensures TotalPreorder(KeyLe)
  {
  }

  predicate IsUsable(level: BatchLevel, now: I64)
  {
    !level.batch.IsExpired(now) && level.onHand > 0
  }

  function Usable(levels: seq<BatchLevel>, now: I64): seq<BatchLevel>
  {
    if levels == [] then []
    else
      var last := levels[|levels| - 1];
      Usable(levels[..|levels| - 1], now) + if IsUsable(last, now) then [last] else []
  }

  /** Two levels of one batch are the same level. */
  ghost predicate DistinctBatches(levels: seq<BatchLevel>)
  {
    forall i, j :: 0 <= i < j < |levels| ==> levels[i].batch.id != levels[j].batch.id
  }

  function StockOf(levels: seq<BatchLevel>): int
  {
    if levels == [] then 0 else levels[0].onHand + StockOf(levels[1..])
  }

  function TakenOf(allocations: seq<Allocation>): int
  {
    if allocations == [] then 0 else allocations[0].taken + TakenOf(allocations[1..])
  }

  ghost predicate AllPositive(levels: seq<BatchLevel>)
  {
    forall k :: 0 <= k < |levels| ==> levels[k].onHand > 0
  }

  /** Draw `wanted` from levels already in picking order. */
  function Draw(ordered: seq<BatchLevel>, wanted: int): seq<Allocation>
    requires wanted <= I64_MAX && AllPositive(ordered)
  {
    if wanted <= 0 || ordered == [] then []
    else
      var take := Min(wanted, ordered[0].onHand);
      [Allocation(ordered[0].batch.id, take)] + Draw(ordered[1..], wanted - take)
  }

  /** The pick as a function of its input. */
  function PickOf(levels: seq<BatchLevel>, wanted: I64, now: I64): Pick
  {
    if wanted <= 0 then Pick([], 0) else PickFrom(PickingOrder(levels, now), wanted)
  }

  function PickFrom(ordered: seq<BatchLevel>, wanted: I64): Pick
    requires 0 < wanted && AllPositive(ordered)
  {
    var allocations := Draw(ordered, wanted);
    DrawTotals(ordered, wanted);
    Pick(allocations, wanted - TakenOf(allocations))
  }

  function PickingOrder(levels: seq<BatchLevel>, now: I64): (ordered: seq<BatchLevel>)
    ensures multiset(ordered) == multiset(Usable(levels, now))
    ensures AllPositive(ordered)
  {
    KeyIsTotal();
    var usable := Usable(levels, now);
    UsableMeans(levels, now);
    SortKeepsElements(KeyLe, usable);
    var ordered := Sort(KeyLe, usable);
    assert forall k :: 0 <= k < |ordered| ==> ordered[k] in usable && IsUsable(ordered[k], now);
    ordered
  }

  lemma {:induction false} UsableMeans(levels: seq<BatchLevel>, now: I64)
    ensures forall x :: x in Usable(levels, now) <==> x in levels && IsUsable(x, now)
    ensures forall x :: multiset(Usable(levels, now))[x] == if IsUsable(x, now) then multiset(levels)[x] else 0
  {
    if levels != [] {
      var n := |levels| - 1;
      UsableMeans(levels[..n], now);
      assert levels == levels[..n] + [levels[n]];
    }
    forall x ensures x in Usable(levels, now) <==> x in levels && IsUsable(x, now) {
      assert x in multiset(Usable(levels, now)) <==> x in multiset(levels) && IsUsable(x, now);
    }
  }

  lemma {:induction false} DrawTotals(ordered: seq<BatchLevel>, wanted: int)
    requires 0 <= wanted <= I64_MAX && AllPositive(ordered)
    ensures TakenOf(Draw(ordered, wanted)) == Min(wanted, StockOf(ordered))
    ensures 0 <= TakenOf(Draw(ordered, wanted)) <= wanted
    ensures StockOf(ordered) >= |ordered|
  {
    if ordered != [] {
      DrawTotals(ordered[1..], Max(0, wanted - ordered[0].onHand));
      if wanted > 0 {
        var take := Min(wanted, ordered[0].onHand);
        assert Draw(ordered, wanted)[1..] == Draw(ordered[1..], wanted - take);
      }
    }
  }

  method PickFefo(levels: seq<BatchLevel>, wanted: I64, now: I64) returns (pick: Pick)
    ensures pick == PickOf(levels, wanted, now)
    ensures wanted > 0 && DistinctBatches(levels) ==> IsFefoPick(levels, wanted, now, pick)
  {
    if wanted <= 0 {
      return Pick([], 0);
    }
    if DistinctBatches(levels) {
      PickIsTheFefoPick(levels, wanted, now, PickOf(levels, wanted, now));
    }
    var usable := PickingOrder(levels, now);
    pick := DrawDown(usable, wanted);
  }

  /** The picking loop: draw each batch down in turn. */
  method DrawDown(usable: seq<BatchLevel>, wanted: I64) returns (pick: Pick)
    requires 0 < wanted && AllPositive(usable)
    ensures pick == PickFrom(usable, wanted)
  {
    var remaining: int := wanted;
    var allocations: seq<Allocation> := [];
    var i := 0;
    while i < |usable| && remaining > 0
      invariant 0 <= i <= |usable| && 0 <= remaining <= wanted
      invariant allocations + Draw(usable[i..], remaining) == Draw(usable, wanted)
      invariant remaining == wanted - TakenOf(allocations)
    {
      var take := Min(remaining, usable[i].onHand);
      DrawStep(usable[i..], remaining, allocations);
      assert usable[i..][1..] == usable[i + 1..];
      allocations := allocations + [Allocation(usable[i].batch.id, take)];
      remaining := remaining - take;
      i := i + 1;
    }
    assert allocations == allocations + Draw(usable[i..], remaining);
    return Pick(allocations, Max(remaining, 0));
  }

  lemma DrawStep(ordered: seq<BatchLevel>, wanted: int, before: seq<Allocation>)
    requires 0 < wanted <= I64_MAX && AllPositive(ordered) && ordered != []
    ensures var take := Min(wanted, ordered[0].onHand);
            var first := Allocation(ordered[0].batch.id, take);
            && before + Draw(ordered, wanted) == (before + [first]) + Draw(ordered[1..], wanted - take)
            && TakenOf(before + [first]) == TakenOf(before) + take
  {
    TakenSnoc(before, Allocation(ordered[0].batch.id, Min(wanted, ordered[0].onHand)));
  }

  lemma {:induction false} TakenSnoc(allocations: seq<Allocation>, last: Allocation)
    ensures TakenOf(allocations + [last]) == TakenOf(allocations) + last.taken
  {
    if allocations != [] {
      TakenSnoc(allocations[1..], last);
      assert (allocations + [last])[1..] == allocations[1..] + [last];
    } else {
      assert ([] + [last])[1..] == [];
    }
  }

  // ---------- what a pick is ----------

  predicate Names(a: Allocation, x: BatchLevel) { a.batchId == x.batch.id }

  predicate Takes(a: Allocation, x: BatchLevel) { Names(a, x) && 0 < a.taken <= x.onHand }

  ghost predicate TakesFrom(usable: seq<BatchLevel>, a: Allocation)
  {
    exists i :: 0 <= i < |usable| && Takes(a, usable[i])
  }

  ghost predicate Drained(allocations: seq<Allocation>, x: BatchLevel)
  {
    exists k :: 0 <= k < |allocations| && Names(allocations[k], x) && allocations[k].taken == x.onHand
  }

  /** Batches are used in key order. */
  ghost predicate UsedInOrder(usable: seq<BatchLevel>, allocations: seq<Allocation>)
  {
    forall j, k {:trigger Precedes(usable, allocations[j], allocations[k])} ::
      0 <= j < k < |allocations| ==> Precedes(usable, allocations[j], allocations[k])
  }

  ghost predicate Precedes(usable: seq<BatchLevel>, a: Allocation, b: Allocation)
  {
    forall x, y :: x in usable && y in usable && Names(a, x) && Names(b, y) ==> KeyLt(x, y)
  }

  /** A batch is touched only once every usable batch before it is empty. */
  ghost predicate EarlierDrained(usable: seq<BatchLevel>, allocations: seq<Allocation>)
  {
    forall k {:trigger MayUse(usable, allocations, allocations[k])} ::
      0 <= k < |allocations| ==> MayUse(usable, allocations, allocations[k])
  }

  ghost predicate MayUse(usable: seq<BatchLevel>, allocations: seq<Allocation>, a: Allocation)
  {
    forall x, y :: x in usable && y in usable && Names(a, y) && KeyLt(x, y) ==> Drained(allocations, x)
  }

  ghost predicate EachTakes(usable: seq<BatchLevel>, allocations: seq<Allocation>)
  {
    forall k {:trigger TakesFrom(usable, allocations[k])} ::
      0 <= k < |allocations| ==> TakesFrom(usable, allocations[k])
  }

  /**
   A first-expired-first-out pick, said without sorting or drawing: every allocation takes something
   from a usable batch and no more than it holds, the earlier batches empty first, and nothing wanted
   is left while usable stock is.
   */
  ghost predicate IsFefo(usable: seq<BatchLevel>, wanted: int, allocations: seq<Allocation>)
  {
    && EachTakes(usable, allocations)
    && UsedInOrder(usable, allocations)
    && EarlierDrained(usable, allocations)
    && TakenOf(allocations) == Min(wanted, StockOf(usable))
  }

  ghost predicate InPickingOrder(ordered: seq<BatchLevel>)
  {
    && (forall i, j :: 0 <= i < j < |ordered| ==> KeyLt(ordered[i], ordered[j]))
    && DistinctBatches(ordered)
    && AllPositive(ordered)
  }

  lemma {:induction false} DrawTakes(ordered: seq<BatchLevel>, wanted: int)
    requires 0 <= wanted <= I64_MAX && AllPositive(ordered)
    ensures |Draw(ordered, wanted)| <= |ordered|
    ensures forall k :: 0 <= k < |Draw(ordered, wanted)| ==> Takes(Draw(ordered, wanted)[k], ordered[k])
    ensures forall k :: 0 <= k < |Draw(ordered, wanted)| - 1 ==> Draw(ordered, wanted)[k].taken == ordered[k].onHand
  {
    if wanted > 0 && ordered != [] {
      var take := Min(wanted, ordered[0].onHand);
      DrawTakes(ordered[1..], wanted - take);
      var rest := Draw(ordered[1..], wanted - take);
      forall k | 0 < k < 1 + |rest| ensures Takes(Draw(ordered, wanted)[k], ordered[k]) {
        assert Takes(rest[k - 1], ordered[1..][k - 1]);
      }
    }
  }

  /** A drawn allocation names one level only, the one it was drawn from. */
  lemma DrawnFrom(ordered: seq<BatchLevel>, wanted: int, k: nat, y: BatchLevel)
    requires 0 <= wanted <= I64_MAX && InPickingOrder(ordered)
    requires k < |Draw(ordered, wanted)| && y in ordered && Names(Draw(ordered, wanted)[k], y)
    ensures k < |ordered| && y == ordered[k]
  {
    DrawTakes(ordered, wanted);
    assert Takes(Draw(ordered, wanted)[k], ordered[k]);
    DistinctAreDistinct(ordered, y, ordered[k]);
  }

  lemma DrawnInOrder(ordered: seq<BatchLevel>, wanted: int, j: nat, k: nat)
    requires 0 <= wanted <= I64_MAX && InPickingOrder(ordered)
    requires j < k < |Draw(ordered, wanted)|
    ensures Precedes(ordered, Draw(ordered, wanted)[j], Draw(ordered, wanted)[k])
  {
    var drawn := Draw(ordered, wanted);
    forall x, y | x in ordered && y in ordered && Names(drawn[j], x) && Names(drawn[k], y) ensures KeyLt(x, y) {
      DrawnFrom(ordered, wanted, j, x);
      DrawnFrom(ordered, wanted, k, y);
    }
  }

  lemma DrawnWhenAllowed(ordered: seq<BatchLevel>, wanted: int, k: nat)
    requires 0 <= wanted <= I64_MAX && InPickingOrder(ordered)
    requires k < |Draw(ordered, wanted)|
    ensures MayUse(ordered, Draw(ordered, wanted), Draw(ordered, wanted)[k])
  {
    var drawn := Draw(ordered, wanted);
    DrawTakes(ordered, wanted);
    forall x, y | x in ordered && y in ordered && Names(drawn[k], y) && KeyLt(x, y) ensures Drained(drawn, x) {
      DrawnFrom(ordered, wanted, k, y);
      var i :| 0 <= i < |ordered| && ordered[i] == x;
      assert i < k;
      assert Takes(drawn[i], ordered[i]);
    }
  }

  lemma DrawIsFefo(ordered: seq<BatchLevel>, wanted: int)
    requires 0 <= wanted <= I64_MAX && InPickingOrder(ordered)
    ensures IsFefo(ordered, wanted, Draw(ordered, wanted))
  {
    DrawTakes(ordered, wanted);
    DrawTotals(ordered, wanted);
    var drawn := Draw(ordered, wanted);
    forall k | 0 <= k < |drawn| ensures TakesFrom(ordered, drawn[k]) {
      assert Takes(drawn[k], ordered[k]);
    }
    forall j, k | 0 <= j < k < |drawn| ensures Precedes(ordered, drawn[j], drawn[k]) {
      DrawnInOrder(ordered, wanted, j, k);
    }
    forall k | 0 <= k < |drawn| ensures MayUse(ordered, drawn, drawn[k]) {
      DrawnWhenAllowed(ordered, wanted, k);
    }
  }

  /** Every such pick starts on the first batch. */
  lemma StartsAtTheHead(ordered: seq<BatchLevel>, wanted: int, allocations: seq<Allocation>)
    requires 0 < wanted <= I64_MAX && InPickingOrder(ordered) && ordered != []
    requires IsFefo(ordered, wanted, allocations)
    ensures allocations != [] && Takes(allocations[0], ordered[0])
    ensures forall k :: 0 < k < |allocations| ==> !Names(allocations[k], ordered[0])
  {
    var head := ordered[0];
    DrawTotals(ordered, wanted);
    assert allocations != [];
    assert TakesFrom(ordered, allocations[0]);
    var i :| 0 <= i < |ordered| && Takes(allocations[0], ordered[i]);
    if i != 0 {
      assert MayUse(ordered, allocations, allocations[0]);
      assert Drained(allocations, head);
      var d :| 0 <= d < |allocations| && Names(allocations[d], head);
      assert d != 0;
      assert Precedes(ordered, allocations[0], allocations[d]);
    }
    forall k | 0 < k < |allocations| ensures !Names(allocations[k], head) {
      assert Precedes(ordered, allocations[0], allocations[k]);
    }
  }

  /** The first allocation of any such pick is the greedy one. */
  lemma FirstIsGreedy(ordered: seq<BatchLevel>, wanted: int, allocations: seq<Allocation>)
    requires 0 < wanted <= I64_MAX && InPickingOrder(ordered) && ordered != []
    requires IsFefo(ordered, wanted, allocations)
    requires allocations != [] && Takes(allocations[0], ordered[0])
    requires forall k :: 0 < k < |allocations| ==> !Names(allocations[k], ordered[0])
    ensures allocations[0] == Allocation(ordered[0].batch.id, Min(wanted, ordered[0].onHand))
  {
    var head := ordered[0];
    TakesAddUp(ordered, allocations);
    if |allocations| > 1 {
      assert TakesFrom(ordered, allocations[1]);
      var j :| 0 <= j < |ordered| && Takes(allocations[1], ordered[j]);
      assert j != 0;
      assert MayUse(ordered, allocations, allocations[1]);
      assert Drained(allocations, head);
    } else {
      assert allocations[1..] == [];
      StockIsPositive(ordered[1..]);
    }
  }

  lemma StockIsPositive(levels: seq<BatchLevel>)
    requires AllPositive(levels)
    ensures StockOf(levels) >= |levels|
  {
    DrawTotals(levels, 0);
  }

  lemma {:induction false} TakesAddUp(usable: seq<BatchLevel>, allocations: seq<Allocation>)
    requires EachTakes(usable, allocations)
    ensures TakenOf(allocations) >= |allocations|
    ensures allocations != [] ==> TakenOf(allocations) >= allocations[0].taken
  {
    if allocations != [] {
      assert TakesFrom(usable, allocations[0]);
      var rest := allocations[1..];
      forall k | 0 <= k < |rest| ensures TakesFrom(usable, rest[k]) {
        assert rest[k] == allocations[k + 1];
      }
      TakesAddUp(usable, rest);
    }
  }

  /** The first allocation is greedy and no later one returns to its batch. */
  ghost predicate HeadFirst(ordered: seq<BatchLevel>, wanted: int, allocations: seq<Allocation>)
  {
    && ordered != [] && allocations != []
    && FitsI64(Min(wanted, ordered[0].onHand))
    && allocations[0] == Allocation(ordered[0].batch.id, Min(wanted, ordered[0].onHand))
    && (forall k :: 0 < k < |allocations| ==> !Names(allocations[k], ordered[0]))
  }

  lemma RestTakes(ordered: seq<BatchLevel>, wanted: int, allocations: seq<Allocation>)
    requires HeadFirst(ordered, wanted, allocations) && EachTakes(ordered, allocations)
    ensures EachTakes(ordered[1..], allocations[1..])
  {
    var left, rest := ordered[1..], allocations[1..];
    forall k | 0 <= k < |rest| ensures TakesFrom(left, rest[k]) {
      assert TakesFrom(ordered, allocations[k + 1]);
      var i :| 0 <= i < |ordered| && Takes(allocations[k + 1], ordered[i]);
      assert Takes(rest[k], left[i - 1]);
    }
  }

  lemma RestMayUse(ordered: seq<BatchLevel>, wanted: int, allocations: seq<Allocation>)
    requires HeadFirst(ordered, wanted, allocations) && InPickingOrder(ordered)
    requires EarlierDrained(ordered, allocations)
    ensures EarlierDrained(ordered[1..], allocations[1..])
  {
    var left, rest := ordered[1..], allocations[1..];
    forall k | 0 <= k < |rest| ensures MayUse(left, rest, rest[k]) {
      assert MayUse(ordered, allocations, allocations[k + 1]);
      forall x, y | x in left && y in left && Names(rest[k], y) && KeyLt(x, y) ensures Drained(rest, x) {
        StillDrained(ordered, allocations, x);
      }
    }
  }

  /** What follows the first allocation is a pick of what is left. */
  lemma RestIsFefo(ordered: seq<BatchLevel>, wanted: int, allocations: seq<Allocation>)
    requires 0 < wanted <= I64_MAX && InPickingOrder(ordered)
    requires IsFefo(ordered, wanted, allocations) && HeadFirst(ordered, wanted, allocations)
    ensures IsFefo(ordered[1..], wanted - allocations[0].taken, allocations[1..])
  {
    var left, rest := ordered[1..], allocations[1..];
    StockIsPositive(left);
    RestTakes(ordered, wanted, allocations);
    RestMayUse(ordered, wanted, allocations);
    forall j, k | 0 <= j < k < |rest| ensures Precedes(left, rest[j], rest[k]) {
      assert Precedes(ordered, allocations[j + 1], allocations[k + 1]);
    }
  }

  lemma StillDrained(ordered: seq<BatchLevel>, allocations: seq<Allocation>, x: BatchLevel)
    requires InPickingOrder(ordered) && ordered != [] && allocations != []
    requires Names(allocations[0], ordered[0])
    requires x in ordered[1..] && Drained(allocations, x)
    ensures Drained(allocations[1..], x)
  {
    var i :| 0 < i < |ordered| && ordered[i] == x;
    var d :| 0 <= d < |allocations| && Names(allocations[d], x) && allocations[d].taken == x.onHand;
    assert ordered[0].batch.id != ordered[i].batch.id;
    assert Names(allocations[1..][d - 1], x);
  }

  lemma {:induction false} FefoIsUnique(ordered: seq<BatchLevel>, wanted: int, allocations: seq<Allocation>)
    requires 0 <= wanted <= I64_MAX && InPickingOrder(ordered)
    requires IsFefo(ordered, wanted, allocations)
    ensures allocations == Draw(ordered, wanted)
  {
    DrawTotals(ordered, wanted);
    TakesAddUp(ordered, allocations);
    if wanted > 0 && ordered != [] {
      StartsAtTheHead(ordered, wanted, allocations);
      FirstIsGreedy(ordered, wanted, allocations);
      RestIsFefo(ordered, wanted, allocations);
      FefoIsUnique(ordered[1..], wanted - allocations[0].taken, allocations[1..]);
      assert allocations == [allocations[0]] + allocations[1..];
    }
  }

  // ---------- any arrival order ----------

  lemma {:induction false} StockIgnoresOrder(a: seq<BatchLevel>, b: seq<BatchLevel>)
    requires multiset(a) == multiset(b)
    ensures StockOf(a) == StockOf(b)
  {
    assert |multiset(a)| == |multiset(b)|;
    if a != [] {
      assert a[0] in multiset(b);
      var i :| 0 <= i < |b| && b[i] == a[0];
      var without := b[..i] + b[i + 1..];
      DropHead(a);
      DropAt(b, i);
      StockIgnoresOrder(a[1..], without);
      StockWithout(b, i);
    }
  }

  lemma StockWithout(b: seq<BatchLevel>, i: nat)
    requires i < |b|
    ensures StockOf(b) == b[i].onHand + StockOf(b[..i] + b[i + 1..])
  {
    StockAppend(b[..i], b[i + 1..]);
    StockAppend(b[..i], b[i..]);
    assert b[..i] + b[i..] == b;
    assert b[i..][1..] == b[i + 1..];
  }

  lemma {:induction false} StockAppend(a: seq<BatchLevel>, b: seq<BatchLevel>)
    ensures StockOf(a + b) == StockOf(a) + StockOf(b)
  {
    if a == [] {
      assert a + b == b;
    } else {
      StockAppend(a[1..], b);
      assert (a + b)[1..] == a[1..] + b;
    }
  }

  /** The definition of a pick looks at which levels there are, not at their order. */
  lemma FefoIgnoresOrder(a: seq<BatchLevel>, b: seq<BatchLevel>, wanted: int, allocations: seq<Allocation>)
    requires multiset(a) == multiset(b) && IsFefo(a, wanted, allocations)
    ensures IsFefo(b, wanted, allocations)
  {
    StockIgnoresOrder(a, b);
    SameElements(a, b);
    forall k | 0 <= k < |allocations| ensures TakesFrom(b, allocations[k]) {
      assert TakesFrom(a, allocations[k]);
      var i :| 0 <= i < |a| && Takes(allocations[k], a[i]);
      assert a[i] in b;
      var j :| 0 <= j < |b| && b[j] == a[i];
    }
    forall j, k | 0 <= j < k < |allocations| ensures Precedes(b, allocations[j], allocations[k]) {
      assert Precedes(a, allocations[j], allocations[k]);
    }
    forall k | 0 <= k < |allocations| ensures MayUse(b, allocations, allocations[k]) {
      assert MayUse(a, allocations, allocations[k]);
    }
  }

  lemma DistinctAreDistinct(levels: seq<BatchLevel>, x: BatchLevel, y: BatchLevel)
    requires DistinctBatches(levels) && x in levels && y in levels && x.batch.id == y.batch.id
    ensures x == y
  {
  }

  lemma {:induction false} UsableKeepsDistinct(levels: seq<BatchLevel>, now: I64)
    requires DistinctBatches(levels)
    ensures DistinctBatches(Usable(levels, now))
  {
    if levels != [] {
      var n := |levels| - 1;
      UsableKeepsDistinct(levels[..n], now);
      UsableMeans(levels[..n], now);
      var before := Usable(levels[..n], now);
      forall i | 0 <= i < |before| ensures before[i].batch.id != levels[n].batch.id {
        assert before[i] in levels[..n];
      }
    }
  }

  lemma OrderedIsInPickingOrder(levels: seq<BatchLevel>, now: I64)
    requires DistinctBatches(levels)
    ensures InPickingOrder(PickingOrder(levels, now))
  {
    KeyIsTotal();
    var usable, ordered := Usable(levels, now), PickingOrder(levels, now);
    UsableKeepsDistinct(levels, now);
    assert Sorted(KeyLe, ordered);
    forall i, j | 0 <= i < j < |ordered| ensures ordered[i].batch.id != ordered[j].batch.id {
      if ordered[i].batch.id == ordered[j].batch.id {
        RepeatedId(usable, ordered, i, j);
      }
    }
    forall i, j | 0 <= i < j < |ordered| ensures KeyLt(ordered[i], ordered[j]) {
      assert KeyLe(ordered[i], ordered[j]);
      assert ordered[i].batch.id != ordered[j].batch.id;
    }
  }

  /** A rearrangement of levels with distinct batches cannot repeat a batch. */
  lemma RepeatedId(usable: seq<BatchLevel>, ordered: seq<BatchLevel>, i: nat, j: nat)
    requires DistinctBatches(usable) && multiset(usable) == multiset(ordered) && i < j < |ordered|
    ensures ordered[i].batch.id != ordered[j].batch.id
  {
    if ordered[i].batch.id == ordered[j].batch.id {
      assert ordered[i] in multiset(ordered) && ordered[j] in multiset(ordered);
      assert ordered[i] in usable && ordered[j] in usable;
      DistinctAreDistinct(usable, ordered[i], ordered[j]);
      var x := ordered[i];
      assert ordered == ordered[..i] + [x] + ordered[i + 1..j] + [x] + ordered[j + 1..];
      assert multiset(ordered)[x] >= 2;
      DistinctCountsOnce(usable, x);
    }
  }

  lemma {:induction false} DistinctCountsOnce(levels: seq<BatchLevel>, x: BatchLevel)
    requires DistinctBatches(levels)
    ensures multiset(levels)[x] <= 1
  {
    if levels != [] {
      DistinctCountsOnce(levels[1..], x);
      assert levels == [levels[0]] + levels[1..];
      assert levels[0] !in levels[1..];
      assert multiset(levels[1..])[levels[0]] == 0;
    }
  }

  // ---------- the main results ----------

  /** There is some of it, and its date, where it has one, is still to come. */
  predicate MayBeSold(x: BatchLevel, now: I64)
  {
    x.onHand > 0 && (x.batch.expiresAt == None || now < x.batch.expiresAt.value)
  }

  predicate ArrivedFirst(a: Batch, b: Batch)
  {
    a.receivedAt < b.receivedAt || (a.receivedAt == b.receivedAt && a.id < b.id)
  }

  /**
   The batch with the sooner date leaves first, and one with a date before one without; between equals, the
   one that arrived first, then the lesser id. A date at the last moment there is counts as none.
   */
  predicate GoesFirst(a: Batch, b: Batch)
  {
    if a.expiresAt.Some? && a.expiresAt.value < I64_MAX then
      || b.expiresAt == None
      || a.expiresAt.value < b.expiresAt.value
      || (a.expiresAt.value == b.expiresAt.value && ArrivedFirst(a, b))
    else
      (b.expiresAt == None || b.expiresAt.value == I64_MAX) && ArrivedFirst(a, b)
  }

  lemma KeysAreFields(a: BatchLevel, b: BatchLevel, now: I64)
    ensures KeyLt(a, b) <==> GoesFirst(a.batch, b.batch)
    ensures IsUsable(a, now) <==> MayBeSold(a, now)
  {
  }

  /** A batch with a date leaves before one without, unless that date is the last moment there is. */
  lemma DatedBeforeUndated(a: Batch, b: Batch)
    requires a.expiresAt.Some? && b.expiresAt == None
    ensures GoesFirst(a, b) <==> a.expiresAt.value < I64_MAX || ArrivedFirst(a, b)
  {
  }

  /** All that may be sold, added up. */
  function Saleable(levels: seq<BatchLevel>, now: I64): int
  {
    if levels == [] then 0
    else
      var last := levels[|levels| - 1];
      Saleable(levels[..|levels| - 1], now) + if MayBeSold(last, now) then last.onHand else 0
  }

  lemma {:induction false} SaleableIsUsable(levels: seq<BatchLevel>, now: I64)
    ensures StockOf(Usable(levels, now)) == Saleable(levels, now)
  {
    if levels != [] {
      var n := |levels| - 1;
      var one := if IsUsable(levels[n], now) then [levels[n]] else [];
      SaleableIsUsable(levels[..n], now);
      KeysAreFields(levels[n], levels[n], now);
      StockAppend(Usable(levels[..n], now), one);
      assert one != [] ==> one[1..] == [];
    }
  }

  /** The allocation takes something from a batch that may be sold, and no more than it holds. */
  ghost predicate SellsFrom(levels: seq<BatchLevel>, now: I64, a: Allocation)
  {
    exists x :: x in levels && MayBeSold(x, now) && Takes(a, x)
  }

  /** What one allocation names goes before what the other names. */
  ghost predicate InTurn(levels: seq<BatchLevel>, now: I64, a: Allocation, b: Allocation)
  {
    forall x, y | x in levels && y in levels && MayBeSold(x, now) && MayBeSold(y, now) && Names(a, x) && Names(b, y) ::
      GoesFirst(x.batch, y.batch)
  }

  /** Nothing leaves a batch while one that goes first and may be sold is not empty. */
  ghost predicate PassesNothingOver(
    levels: seq<BatchLevel>, now: I64, allocations: seq<Allocation>, a: Allocation)
  {
    forall x, y | x in levels && y in levels && MayBeSold(x, now) && MayBeSold(y, now)
                  && Names(a, y) && GoesFirst(x.batch, y.batch) ::
      Drained(allocations, x)
  }

  /** A first-expired-first-out pick, on the dates, arrivals and levels of the batches alone. */
  ghost predicate IsFefoPick(levels: seq<BatchLevel>, wanted: int, now: I64, p: Pick)
  {
    var drawn := p.allocations;
    && (forall k {:trigger SellsFrom(levels, now, drawn[k])} :: 0 <= k < |drawn| ==> SellsFrom(levels, now, drawn[k]))
    && (forall j, k {:trigger InTurn(levels, now, drawn[j], drawn[k])} ::
          0 <= j < k < |drawn| ==> InTurn(levels, now, drawn[j], drawn[k]))
    && (forall k {:trigger PassesNothingOver(levels, now, drawn, drawn[k])} ::
          0 <= k < |drawn| ==> PassesNothingOver(levels, now, drawn, drawn[k]))
    && TakenOf(drawn) == Min(wanted, Saleable(levels, now))
    && p.shortfall == wanted - TakenOf(drawn)
  }

  lemma UsableOnFields(levels: seq<BatchLevel>, now: I64)
    ensures forall x :: x in Usable(levels, now) <==> x in levels && MayBeSold(x, now)
  {
    UsableMeans(levels, now);
    forall x ensures IsUsable(x, now) <==> MayBeSold(x, now) {
      KeysAreFields(x, x, now);
    }
  }

  lemma SellsOnFields(levels: seq<BatchLevel>, now: I64, a: Allocation)
    ensures TakesFrom(Usable(levels, now), a) <==> SellsFrom(levels, now, a)
  {
    var usable := Usable(levels, now);
    UsableOnFields(levels, now);
    if TakesFrom(usable, a) {
      var i :| 0 <= i < |usable| && Takes(a, usable[i]);
      assert usable[i] in usable;
    }
    if SellsFrom(levels, now, a) {
      var x :| x in levels && MayBeSold(x, now) && Takes(a, x);
      var i :| 0 <= i < |usable| && usable[i] == x;
    }
  }

  lemma TurnOnFields(levels: seq<BatchLevel>, now: I64, a: Allocation, b: Allocation)
    ensures Precedes(Usable(levels, now), a, b) <==> InTurn(levels, now, a, b)
  {
    UsableOnFields(levels, now);
    forall x, y ensures KeyLt(x, y) <==> GoesFirst(x.batch, y.batch) {
      KeysAreFields(x, y, now);
    }
  }

  lemma PassingOnFields(levels: seq<BatchLevel>, now: I64, allocations: seq<Allocation>, a: Allocation)
    ensures MayUse(Usable(levels, now), allocations, a) <==> PassesNothingOver(levels, now, allocations, a)
  {
    UsableOnFields(levels, now);
    forall x, y ensures KeyLt(x, y) <==> GoesFirst(x.batch, y.batch) {
      KeysAreFields(x, y, now);
    }
  }

  lemma FefoOnFields(levels: seq<BatchLevel>, wanted: int, now: I64, p: Pick)
    ensures IsFefoPick(levels, wanted, now, p)
       <==> IsFefo(Usable(levels, now), wanted, p.allocations) && p.shortfall == wanted - TakenOf(p.allocations)
  {
    var drawn := p.allocations;
    SaleableIsUsable(levels, now);
    forall k | 0 <= k < |drawn|
      ensures TakesFrom(Usable(levels, now), drawn[k]) <==> SellsFrom(levels, now, drawn[k])
      ensures MayUse(Usable(levels, now), drawn, drawn[k]) <==> PassesNothingOver(levels, now, drawn, drawn[k])
    {
      SellsOnFields(levels, now, drawn[k]);
      PassingOnFields(levels, now, drawn, drawn[k]);
    }
    forall j, k | 0 <= j < k < |drawn|
      ensures Precedes(Usable(levels, now), drawn[j], drawn[k]) <==> InTurn(levels, now, drawn[j], drawn[k])
    {
      TurnOnFields(levels, now, drawn[j], drawn[k]);
    }
  }

  /** For distinct batches the pick is the one and only first-expired-first-out pick. */
  lemma PickIsTheFefoPick(levels: seq<BatchLevel>, wanted: I64, now: I64, p: Pick)
    requires DistinctBatches(levels) && wanted > 0
    ensures p == PickOf(levels, wanted, now) <==> IsFefoPick(levels, wanted, now, p)
  {
    var usable, ordered := Usable(levels, now), PickingOrder(levels, now);
    OrderedIsInPickingOrder(levels, now);
    DrawIsFefo(ordered, wanted);
    FefoIgnoresOrder(ordered, usable, wanted, Draw(ordered, wanted));
    FefoOnFields(levels, wanted, now, PickOf(levels, wanted, now));
    FefoOnFields(levels, wanted, now, p);
    if IsFefoPick(levels, wanted, now, p) {
      FefoIgnoresOrder(usable, ordered, wanted, p.allocations);
      FefoIsUnique(ordered, wanted, p.allocations);
    }
  }

  /** Nothing is picked for a quantity that is not positive. */
  lemma NothingWantedNothingPicked(levels: seq<BatchLevel>, wanted: I64, now: I64)
    ensures PickOf(levels, wanted, now) == Pick([], 0)
       <==> wanted <= 0
  {
    if wanted > 0 {
      var p := PickOf(levels, wanted, now);
      if p.allocations == [] {
        assert TakenOf(p.allocations) == 0;
      }
    }
  }

  /** Short of `stock` by exactly what is missing, with a checked total that does not overflow. */
  predicate CoversWhatItCan(p: Pick, wanted: I64, stock: int)
  {
    p.shortfall == Max(0, wanted - stock) && Taken(0, p.allocations) == Ok(wanted - p.shortfall)
  }

  lemma PickFromTotals(ordered: seq<BatchLevel>, wanted: I64)
    requires 0 < wanted && AllPositive(ordered)
    ensures CoversWhatItCan(PickFrom(ordered, wanted), wanted, StockOf(ordered))
  {
    DrawTotals(ordered, wanted);
    DrawTakes(ordered, wanted);
    var drawn := Draw(ordered, wanted);
    forall k | 0 <= k < |drawn| ensures drawn[k].taken > 0 {
      assert Takes(drawn[k], ordered[k]);
    }
    TakenFits(0, drawn);
  }

  /** What is short is what is wanted beyond what may be sold, and the checked total never overflows. */
  lemma ShortfallIsWhatIsMissing(levels: seq<BatchLevel>, wanted: I64, now: I64)
    requires wanted > 0
    ensures CoversWhatItCan(PickOf(levels, wanted, now), wanted, Saleable(levels, now))
  {
    var ordered := PickingOrder(levels, now);
    SaleableIsUsable(levels, now);
    StockIgnoresOrder(ordered, Usable(levels, now));
    PickFromTotals(ordered, wanted);
  }

  /** Nothing expired is sold, and no batch is sold beyond what it holds. */
  lemma NothingExpiredIsPicked(levels: seq<BatchLevel>, wanted: I64, now: I64, k: nat)
    requires k < |PickOf(levels, wanted, now).allocations|
    ensures SellsFrom(levels, now, PickOf(levels, wanted, now).allocations[k])
  {
    var ordered := PickingOrder(levels, now);
    DrawTakes(ordered, wanted);
    UsableMeans(levels, now);
    SameElements(ordered, Usable(levels, now));
    KeysAreFields(ordered[k], ordered[k], now);
    assert Takes(Draw(ordered, wanted)[k], ordered[k]) && ordered[k] in ordered;
  }

  /** The checked total of a pick, as a caller asks for it. */
  function Taken(total: I64, allocations: seq<Allocation>): Result<I64, MoneyError>
    decreases |allocations|
  {
    if allocations == [] then Ok(total)
    else
      var next :- CheckedI64(total + allocations[0].taken);
      Taken(next, allocations[1..])
  }

  lemma {:induction false} TakenFits(total: I64, allocations: seq<Allocation>)
    requires forall k :: 0 <= k < |allocations| ==> allocations[k].taken > 0
    requires 0 <= total && total + TakenOf(allocations) <= I64_MAX
    ensures TakenOf(allocations) >= 0
    ensures Taken(total, allocations) == Ok(total + TakenOf(allocations))
    decreases |allocations|
  {
    if allocations != [] {
      var rest := allocations[1..];
      PositiveTaken(rest);
      TakenFits(total + allocations[0].taken, rest);
    }
  }

  lemma {:induction false} PositiveTaken(allocations: seq<Allocation>)
    requires forall k :: 0 <= k < |allocations| ==> allocations[k].taken > 0
    ensures TakenOf(allocations) >= 0
  {
    if allocations != [] {
      PositiveTaken(allocations[1..]);
    }
  }

  lemma UsableIgnoresOrder(a: seq<BatchLevel>, b: seq<BatchLevel>, now: I64)
    requires multiset(a) == multiset(b)
    ensures multiset(Usable(a, now)) == multiset(Usable(b, now))
  {
    UsableMeans(a, now);
    UsableMeans(b, now);
  }

  lemma IdsIdentify(levels: seq<BatchLevel>)
    requires DistinctBatches(levels)
    ensures KeysIdentify(KeyLe, levels)
  {
    forall x, y | x in levels && y in levels && KeyLe(x, y) && KeyLe(y, x) ensures x == y {
      DistinctAreDistinct(levels, x, y);
    }
  }

  /** The order in which the levels are listed does not change the pick. */
  lemma PickIgnoresOrder(a: seq<BatchLevel>, b: seq<BatchLevel>, wanted: I64, now: I64)
    requires DistinctBatches(a) && multiset(a) == multiset(b)
    ensures PickOf(a, wanted, now) == PickOf(b, wanted, now)
  {
    KeyIsTotal();
    var ua, ub := Usable(a, now), Usable(b, now);
    UsableIgnoresOrder(a, b, now);
    UsableKeepsDistinct(a, now);
    IdsIdentify(ua);
    SortIgnoresOrder(KeyLe, ua, ub);
  }
}
