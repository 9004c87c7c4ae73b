/** Batch levels rebuilt from stock movements: conserved over every run, and exact under a pick. */
module InventoryBook {
  import opened Base
  import opened Sorting
  import opened Money
  import opened Fefo

  datatype InventoryEvent =
    | BatchReceived(batchId: Uuid, productId: Uuid, lot: Option<string>, expiresAt: Option<I64>,
                    quantity: I64, unitCost: Amount, at: I64)
    | StockIssued(batchId: Uuid, quantity: I64)
    | StockReturned(batchId: Uuid, quantity: I64)
    | BatchCounted(batchId: Uuid, counted: I64, at: I64, countedBy: Uuid)

  datatype InventoryError =
    | Arithmetic(error: MoneyError)
    | UnknownBatch(batchId: Uuid)
    | DuplicateBatch(batchId: Uuid)
    | NonPositiveMovement(quantity: I64)
    | NegativeCount(counted: I64)

  datatype CountVariance = CountVariance(
    batchId: Uuid, expected: I64, counted: I64, delta: I64, at: I64, countedBy: Uuid)

  type Levels = map<Uuid, BatchLevel>

  datatype Stock = Stock(levels: Levels, costs: map<Uuid, Amount>, variances: seq<CountVariance>)

  const EMPTY: Stock := Stock(map[], map[], [])

  /** The batch a delivery creates. */
  function Arrival(e: InventoryEvent): BatchLevel
    requires e.BatchReceived?
  {
    BatchLevel(Batch(e.batchId, e.productId, e.lot, e.expiresAt, e.at), e.quantity)
  }

  /** Change one batch by a signed quantity. */
  function Moved(s: Stock, batchId: Uuid, quantity: I64, change: int): Result<Stock, InventoryError>
  {
    if quantity <= 0 then Err(NonPositiveMovement(quantity))
    else if batchId !in s.levels then Err(UnknownBatch(batchId))
    else
      var level := s.levels[batchId];
      if FitsI64(level.onHand + change)
      then Ok(s.(levels := s.levels[batchId := level.(onHand := level.onHand + change)]))
      else Err(Arithmetic(Overflow))
  }

  function Counted(s: Stock, e: InventoryEvent): Result<Stock, InventoryError>
    requires e.BatchCounted?
  {
    if e.counted < 0 then Err(NegativeCount(e.counted))
    else if e.batchId !in s.levels then Err(UnknownBatch(e.batchId))
    else
      var level := s.levels[e.batchId];
      // the negation is checked before the sum
      if !FitsI64(0 - level.onHand) || !FitsI64(e.counted - level.onHand) then Err(Arithmetic(Overflow))
      else
        var delta := e.counted - level.onHand;
        var variance := CountVariance(e.batchId, level.onHand, e.counted, delta, e.at, e.countedBy);
        Ok(Stock(
             s.levels[e.batchId := level.(onHand := e.counted)],
             s.costs,
             if delta == 0 then s.variances else s.variances + [variance]))
  }

  function ApplyTo(s: Stock, e: InventoryEvent): Result<Stock, InventoryError>
  {
    match e
    case BatchReceived(batchId, _, _, _, quantity, unitCost, _) =>
      if batchId in s.levels then Err(DuplicateBatch(batchId))
      else if quantity <= 0 then Err(NonPositiveMovement(quantity))
      else Ok(Stock(s.levels[batchId := Arrival(e)], s.costs[batchId := unitCost], s.variances))
    case StockIssued(batchId, quantity) => Moved(s, batchId, quantity, 0 - quantity)
    case StockReturned(batchId, quantity) => Moved(s, batchId, quantity, quantity)
    case BatchCounted(_, _, _, _) => Counted(s, e)
  }

  function Replay(events: seq<InventoryEvent>): Result<Stock, InventoryError>
  {
    if events == [] then Ok(EMPTY)
    else
      var before :- Replay(events[..|events| - 1]);
      ApplyTo(before, events[|events| - 1])
  }

  class InventoryBook {
    var levels: Levels
    var costs: map<Uuid, Amount>
    var variances: seq<CountVariance>

    function State(): Stock
      reads this
    {
      Stock(levels, costs, variances)
    }

    constructor Of(state: Stock)
      ensures State() == state
    {
      levels, costs, variances := state.levels, state.costs, state.variances;
    }

    /** One event. A refusal leaves the book exactly as it was. */
    method Apply(e: InventoryEvent) returns (r: Result<(), InventoryError>)
      modifies this
      ensures r.Ok? ==> ApplyTo(old(State()), e) == Ok(State())
      ensures r.Err? ==> ApplyTo(old(State()), e) == Err(r.error) && State() == old(State())
    {
      match e {
        case BatchReceived(batchId, _, _, _, quantity, unitCost, _) =>
          if batchId in levels {
            return Err(DuplicateBatch(batchId));
          }
          if quantity <= 0 {
            return Err(NonPositiveMovement(quantity));
          }
          levels := levels[batchId := Arrival(e)];
          costs := costs[batchId := unitCost];
          return Ok(());
        case StockIssued(batchId, quantity) =>
          r := Shift(batchId, quantity, 0 - quantity);
        case StockReturned(batchId, quantity) =>
          r := Shift(batchId, quantity, quantity);
        case BatchCounted(batchId, counted, at, countedBy) =>
          if counted < 0 {
            return Err(NegativeCount(counted));
          }
          if batchId !in levels {
            return Err(UnknownBatch(batchId));
          }
          var expected: I64 := levels[batchId].onHand;
          var wide: int := expected;
          if !FitsI64(0 - wide) || !FitsI64(counted - wide) {
            return Err(Arithmetic(Overflow));
          }
          var delta := counted - expected;
          levels := levels[batchId := levels[batchId].(onHand := counted)];
          if delta != 0 {
            variances := variances + [CountVariance(batchId, expected, counted, delta, at, countedBy)];
          }
          return Ok(());
      }
    }

    method Shift(batchId: Uuid, quantity: I64, change: int) returns (r: Result<(), InventoryError>)
      modifies this
      ensures r.Ok? ==> Moved(old(State()), batchId, quantity, change) == Ok(State())
      ensures r.Err? ==> Moved(old(State()), batchId, quantity, change) == Err(r.error) && State() == old(State())
    {
      if quantity <= 0 {
        return Err(NonPositiveMovement(quantity));
      }
      if batchId !in levels {
        return Err(UnknownBatch(batchId));
      }
      var level := levels[batchId];
      if !FitsI64(level.onHand + change) {
        return Err(Arithmetic(Overflow));
      }
      levels := levels[batchId := level.(onHand := level.onHand + change)];
      return Ok(());
    }
  }

  method ReplayBook(events: seq<InventoryEvent>) returns (r: Result<InventoryBook, InventoryError>)
    ensures r.Ok? ==> fresh(r.value) && Replay(events) == Ok(r.value.State())
    ensures r.Err? ==> Replay(events) == Err(r.error)
  {
    var book := new InventoryBook.Of(EMPTY);
    var i := 0;
    while i < |events|
      invariant 0 <= i <= |events| && fresh(book)
      invariant Replay(events[..i]) == Ok(book.State())
    {
      var applied := book.Apply(events[i]);
      assert events[..i + 1][..i] == events[..i];
      if applied.Err? {
        RefusedPrefix(events, i + 1);
        return Err(applied.error);
      }
      i := i + 1;
    }
    assert events[..i] == events;
    return Ok(book);
  }

  lemma {:induction false} RefusedPrefix(events: seq<InventoryEvent>, n: nat)
    requires n <= |events| && Replay(events[..n]).Err?
    ensures Replay(events) == Replay(events[..n])
  {
    if n == |events| {
      assert events[..n] == events;
    } else {
      assert events[..|events| - 1][..n] == events[..n];
      RefusedPrefix(events[..|events| - 1], n);
    }
  }

  // ---------- what each event does ----------

  /** A delivery files its batch as delivered, at its cost, and touches nothing else. */
  lemma ReceiptIsFiled(s: Stock, e: InventoryEvent)
    requires e.BatchReceived? && ApplyTo(s, e).Ok?
    ensures var after := ApplyTo(s, e).value;
            && e.batchId !in s.levels
            && after.levels == s.levels[e.batchId := BatchLevel(
                 Batch(e.batchId, e.productId, e.lot, e.expiresAt, e.at), e.quantity)]
            && after.costs == s.costs[e.batchId := e.unitCost]
            && after.variances == s.variances
  {
  }

  /** Nothing but levels changes, and of those only this batch's. */
  ghost predicate OnlyTheLevel(before: Stock, after: Stock, batchId: Uuid)
  {
    && batchId in before.levels && after.levels.Keys == before.levels.Keys && after.costs == before.costs
    && after.levels[batchId].batch == before.levels[batchId].batch
    && (forall id :: id in before.levels && id != batchId ==> after.levels[id] == before.levels[id])
  }

  lemma MovementIsExact(s: Stock, e: InventoryEvent)
    requires (e.StockIssued? || e.StockReturned?) && ApplyTo(s, e).Ok?
    ensures var after := ApplyTo(s, e).value;
            && OnlyTheLevel(s, after, e.batchId) && after.variances == s.variances
            && OnHand(after, e.batchId) == OnHand(s, e.batchId) + if e.StockIssued? then 0 - e.quantity else e.quantity
  {
  }

  /** The count wins, and a disagreement is kept: one variance, of what was expected, exactly where they differ. */
  lemma CountStands(s: Stock, e: InventoryEvent)
    requires e.BatchCounted? && ApplyTo(s, e).Ok?
    ensures var after, expected := ApplyTo(s, e).value, s.levels[e.batchId].onHand;
            && OnlyTheLevel(s, after, e.batchId)
            && OnHand(after, e.batchId) == e.counted
            && after.variances == s.variances
               + if e.counted == expected then []
                 else [CountVariance(e.batchId, expected, e.counted, e.counted - expected, e.at, e.countedBy)]
  {
    var after := ApplyTo(s, e).value;
    assert s.variances + [] == s.variances;
    assert OnHand(after, e.batchId) == after.levels[e.batchId].onHand;
  }

  /** A level may go below zero, but not out of range. */
  predicate CanApply(s: Stock, e: InventoryEvent)
  {
    match e
    case BatchReceived(id, _, _, _, quantity, _, _) => id !in s.levels && quantity > 0
    case StockIssued(id, quantity) => quantity > 0 && id in s.levels && FitsI64(OnHand(s, id) - quantity)
    case StockReturned(id, quantity) => quantity > 0 && id in s.levels && FitsI64(OnHand(s, id) + quantity)
    case BatchCounted(id, counted, _, _) =>
      counted >= 0 && id in s.levels && FitsI64(0 - OnHand(s, id)) && FitsI64(counted - OnHand(s, id))
  }

  /** Exactly what is taken, and what is said of the rest. */
  lemma AppliesExactly(s: Stock, e: InventoryEvent)
    ensures ApplyTo(s, e).Ok? <==> CanApply(s, e)
    ensures ApplyTo(s, e).Err? ==>
              match ApplyTo(s, e).error
              case DuplicateBatch(id) => e.BatchReceived? && id == e.batchId && id in s.levels
              case UnknownBatch(id) =>
                && !e.BatchReceived? && id == e.batchId && id !in s.levels
                && (if e.BatchCounted? then e.counted >= 0 else e.quantity > 0)
              case NonPositiveMovement(q) =>
                !e.BatchCounted? && q == e.quantity <= 0 && (e.BatchReceived? ==> e.batchId !in s.levels)
              case NegativeCount(c) => e.BatchCounted? && c == e.counted < 0
              case Arithmetic(error) => !e.BatchReceived? && e.batchId in s.levels && error == Overflow
  {
  }

  // ---------- conservation ----------

  /** What an event says went into a batch, less what it says came out. A count says neither. */
  function Movement(e: InventoryEvent, batchId: Uuid): int
  {
    if e.batchId != batchId || e.BatchCounted? then 0
    else if e.StockIssued? then 0 - e.quantity
    else e.quantity
  }

  function Movements(events: seq<InventoryEvent>, batchId: Uuid): int
  {
    if events == [] then 0
    else Movements(events[..|events| - 1], batchId) + Movement(events[|events| - 1], batchId)
  }

  /** The recorded disagreements of one batch, added up. */
  function Shrinkage(variances: seq<CountVariance>, batchId: Uuid): int
  {
    if variances == [] then 0
    else
      var last := variances[|variances| - 1];
      Shrinkage(variances[..|variances| - 1], batchId) + if last.batchId == batchId then last.delta else 0
  }

  function OnHand(s: Stock, batchId: Uuid): int
  {
    if batchId in s.levels then s.levels[batchId].onHand else 0
  }

  lemma StepConserves(s: Stock, e: InventoryEvent, batchId: Uuid)
    requires ApplyTo(s, e).Ok?
    ensures var after := ApplyTo(s, e).value;
            OnHand(after, batchId) - OnHand(s, batchId)
            == Movement(e, batchId) + Shrinkage(after.variances, batchId) - Shrinkage(s.variances, batchId)
  {
    var before, after := s.variances, ApplyTo(s, e).value.variances;
    match e {
      case BatchReceived(_, _, _, _, _, _, _) => ReceiptIsFiled(s, e);
      case BatchCounted(_, _, _, _) =>
        CountStands(s, e);
        assert after != before ==> after[..|before|] == before;
      case _ =>
        MovementIsExact(s, e);
    }
  }

  /**
   Whatever was received, issued, returned and counted, in any order: a batch holds what moved into it
   less what moved out, plus every disagreement a count recorded. Nothing is lost without a record.
   */
  lemma {:induction false} StockIsConserved(events: seq<InventoryEvent>, batchId: Uuid)
    requires Replay(events).Ok?
    ensures var s := Replay(events).value;
            OnHand(s, batchId) == Movements(events, batchId) + Shrinkage(s.variances, batchId)
  {
    if events != [] {
      var n := |events| - 1;
      StockIsConserved(events[..n], batchId);
      StepConserves(Replay(events[..n]).value, events[n], batchId);
    }
  }

  /** Every batch is filed under its own id, has a cost, and every variance is a real disagreement. */
  ghost predicate WellFiled(s: Stock)
  {
    && s.costs.Keys == s.levels.Keys
    && (forall id :: id in s.levels ==> s.levels[id].batch.id == id)
    && (forall k :: 0 <= k < |s.variances| ==> Disagrees(s.variances[k]) && s.variances[k].batchId in s.levels)
  }

  predicate Disagrees(v: CountVariance) { v.delta == v.counted - v.expected && v.delta != 0 && v.counted >= 0 }

  lemma {:induction false} EveryReplayIsWellFiled(events: seq<InventoryEvent>)
    requires Replay(events).Ok?
    ensures WellFiled(Replay(events).value)
  {
    if events != [] {
      EveryReplayIsWellFiled(events[..|events| - 1]);
    }
  }

  // ---------- what a run of events makes ----------

  /** What a batch holds by its events alone: its last count, and what moved since. */
  function Held(events: seq<InventoryEvent>, batchId: Uuid): int
  {
    if events == [] then 0
    else
      var last := events[|events| - 1];
      if last.BatchCounted? && last.batchId == batchId then last.counted
      else Held(events[..|events| - 1], batchId) + Movement(last, batchId)
  }

  lemma StepIsHeld(s: Stock, e: InventoryEvent, batchId: Uuid)
    requires ApplyTo(s, e).Ok?
    ensures OnHand(ApplyTo(s, e).value, batchId)
         == if e.BatchCounted? && e.batchId == batchId then e.counted else OnHand(s, batchId) + Movement(e, batchId)
  {
    match e {
      case BatchReceived(_, _, _, _, _, _, _) => ReceiptIsFiled(s, e);
      case BatchCounted(_, _, _, _) => CountStands(s, e);
      case _ =>
        MovementIsExact(s, e);
    }
  }

  /** Over any run of events, that is what the book says. */
  lemma {:induction false} EveryReplayHolds(events: seq<InventoryEvent>, batchId: Uuid)
    requires Replay(events).Ok?
    ensures OnHand(Replay(events).value, batchId) == Held(events, batchId)
  {
    if events != [] {
      var n := |events| - 1;
      EveryReplayHolds(events[..n], batchId);
      StepIsHeld(Replay(events[..n]).value, events[n], batchId);
    }
  }

  /** After the last count of a batch, it holds what was counted and what moved since. */
  lemma {:induction false} LastCountStands(events: seq<InventoryEvent>, batchId: Uuid, k: nat)
    requires k < |events| && events[k].BatchCounted? && events[k].batchId == batchId
    requires forall i :: k < i < |events| ==> !(events[i].BatchCounted? && events[i].batchId == batchId)
    ensures Held(events, batchId) == events[k].counted + Movements(events[k + 1..], batchId)
  {
    var n := |events| - 1;
    if k < n {
      LastCountStands(events[..n], batchId, k);
      assert events[k + 1..][..n - k - 1] == events[..n][k + 1..];
    } else {
      assert events[k + 1..] == [];
    }
  }

  /** The disagreements that the counts among some events found, each against what the events before it make. */
  function Disagreements(events: seq<InventoryEvent>): seq<CountVariance>
    requires Replay(events).Ok?
  {
    if events == [] then []
    else
      var e, before := events[|events| - 1], Replay(events[..|events| - 1]).value;
      Disagreements(events[..|events| - 1])
      + if e.BatchCounted? && e.batchId in before.levels && e.counted != before.levels[e.batchId].onHand then
          var expected := before.levels[e.batchId].onHand;
          if FitsI64(e.counted - expected)
          then [CountVariance(e.batchId, expected, e.counted, e.counted - expected, e.at, e.countedBy)] else []
        else []
  }

  lemma {:induction false} EveryDisagreementIsKept(events: seq<InventoryEvent>)
    requires Replay(events).Ok?
    ensures Replay(events).value.variances == Disagreements(events)
  {
    if events != [] {
      var n := |events| - 1;
      var before, e := Replay(events[..n]).value, events[n];
      EveryDisagreementIsKept(events[..n]);
      match e {
        case BatchReceived(_, _, _, _, _, _, _) => ReceiptIsFiled(before, e);
        case BatchCounted(_, _, _, _) => CountStands(before, e);
        case _ =>
          MovementIsExact(before, e);
      }
    }
  }

  lemma StepKeepsBatch(s: Stock, e: InventoryEvent, id: Uuid)
    requires ApplyTo(s, e).Ok? && id in s.levels && id in s.costs
    ensures var after := ApplyTo(s, e).value;
            && id in after.levels && after.levels[id].batch == s.levels[id].batch
            && id in after.costs && after.costs[id] == s.costs[id]
  {
    match e {
      case BatchReceived(_, _, _, _, _, _, _) => ReceiptIsFiled(s, e);
      case BatchCounted(_, _, _, _) => CountStands(s, e);
      case _ =>
        MovementIsExact(s, e);
    }
  }

  /** A batch stays what its delivery said, at the cost it came at. */
  lemma {:induction false} BatchIsItsDelivery(events: seq<InventoryEvent>, k: nat)
    requires Replay(events).Ok? && k < |events| && events[k].BatchReceived?
    ensures var s, e := Replay(events).value, events[k];
            && e.batchId in s.levels && e.batchId in s.costs
            && s.levels[e.batchId].batch == Batch(e.batchId, e.productId, e.lot, e.expiresAt, e.at)
            && s.costs[e.batchId] == e.unitCost
  {
    var n := |events| - 1;
    var before := Replay(events[..n]).value;
    if k < n {
      BatchIsItsDelivery(events[..n], k);
      StepKeepsBatch(before, events[n], events[k].batchId);
    } else {
      ReceiptIsFiled(before, events[n]);
    }
  }

  // ---------- one product ----------

  function Listed(levels: Levels, ids: seq<Uuid>, productId: Uuid): seq<BatchLevel>
    requires forall k :: 0 <= k < |ids| ==> ids[k] in levels
  {
    if ids == [] then []
    else
      (if levels[ids[0]].batch.productId == productId then [levels[ids[0]]] else [])
      + Listed(levels, ids[1..], productId)
  }

  /** The batches of a product as the map is walked. */
  function OfProduct(s: Stock, productId: Uuid): seq<BatchLevel>
  {
    Listed(s.levels, Ascending(s.levels.Keys), productId)
  }

  /** Batches of one product, in picking order. */
  function ForProduct(s: Stock, productId: Uuid): (r: seq<BatchLevel>)
    ensures multiset(r) == multiset(OfProduct(s, productId))
  {
    KeyIsTotal();
    Sort(KeyLe, OfProduct(s, productId))
  }

  /** A level is listed for its product, and only for its product. */
  lemma {:induction false} ListedMeans(levels: Levels, ids: seq<Uuid>, productId: Uuid, x: BatchLevel)
    requires forall k :: 0 <= k < |ids| ==> ids[k] in levels
    requires x in Listed(levels, ids, productId)
    ensures x.batch.productId == productId
    ensures exists k :: 0 <= k < |ids| && x == levels[ids[k]]
  {
    var here := if levels[ids[0]].batch.productId == productId then [levels[ids[0]]] else [];
    if x !in here {
      ListedMeans(levels, ids[1..], productId, x);
      var k :| 0 <= k < |ids[1..]| && x == levels[ids[1..][k]];
      assert x == levels[ids[k + 1]];
    }
  }

  lemma {:induction false} ListedIsDistinct(levels: Levels, ids: seq<Uuid>, productId: Uuid)
    requires forall k :: 0 <= k < |ids| ==> ids[k] in levels
    requires forall id :: id in levels ==> levels[id].batch.id == id
    requires forall i, j :: 0 <= i < j < |ids| ==> ids[i] < ids[j]
    ensures DistinctBatches(Listed(levels, ids, productId))
  {
    if ids != [] {
      ListedIsDistinct(levels, ids[1..], productId);
      var rest := Listed(levels, ids[1..], productId);
      forall k | 0 <= k < |rest| ensures rest[k].batch.id != ids[0] {
        ListedMeans(levels, ids[1..], productId, rest[k]);
      }
    }
  }

  lemma ForProductIsDistinct(s: Stock, productId: Uuid)
    requires WellFiled(s)
    ensures DistinctBatches(ForProduct(s, productId))
  {
    var walked, sorted := OfProduct(s, productId), ForProduct(s, productId);
    ListedIsDistinct(s.levels, Ascending(s.levels.Keys), productId);
    forall i, j | 0 <= i < j < |sorted| ensures sorted[i].batch.id != sorted[j].batch.id {
      RepeatedId(walked, sorted, i, j);
    }
  }

  lemma ForProductMeans(s: Stock, productId: Uuid, x: BatchLevel)
    requires WellFiled(s) && x in ForProduct(s, productId)
    ensures x.batch.productId == productId && x.batch.id in s.levels && s.levels[x.batch.id] == x
  {
    SameElements(ForProduct(s, productId), OfProduct(s, productId));
    ListedMeans(s.levels, Ascending(s.levels.Keys), productId, x);
  }

  lemma {:induction false} ListedHas(levels: Levels, ids: seq<Uuid>, productId: Uuid, k: nat)
    requires forall i :: 0 <= i < |ids| ==> ids[i] in levels
    requires k < |ids| && levels[ids[k]].batch.productId == productId
    ensures levels[ids[k]] in Listed(levels, ids, productId)
  {
    if k > 0 {
      ListedHas(levels, ids[1..], productId, k - 1);
    }
  }

  /** A product's listing: its batches, all of them and no others, those that leave first in front. */
  lemma ForProductIsExactly(s: Stock, productId: Uuid)
    requires WellFiled(s)
    ensures forall id :: id in s.levels && s.levels[id].batch.productId == productId ==>
                           s.levels[id] in ForProduct(s, productId)
    ensures forall x :: x in ForProduct(s, productId) ==>
                          x.batch.productId == productId && x.batch.id in s.levels && s.levels[x.batch.id] == x
    ensures var r := ForProduct(s, productId);
            forall i, j :: 0 <= i < j < |r| ==> GoesFirst(r[i].batch, r[j].batch)
  {
    var r, ids := ForProduct(s, productId), Ascending(s.levels.Keys);
    SameElements(r, OfProduct(s, productId));
    forall x | x in r ensures x.batch.productId == productId && x.batch.id in s.levels && s.levels[x.batch.id] == x {
      ForProductMeans(s, productId, x);
    }
    forall id | id in s.levels && s.levels[id].batch.productId == productId ensures s.levels[id] in r {
      var k :| 0 <= k < |ids| && ids[k] == id;
      ListedHas(s.levels, ids, productId, k);
    }
    ForProductIsDistinct(s, productId);
    KeyIsTotal();
    forall i, j | 0 <= i < j < |r| ensures GoesFirst(r[i].batch, r[j].batch) {
      assert KeyLe(r[i], r[j]) && r[i].batch.id != r[j].batch.id;
      KeysAreFields(r[i], r[j], 0);
    }
  }

  // ---------- issuing a pick ----------

  /** Record every allocation of a pick as stock issued. */
  function IssueAll(s: Stock, allocations: seq<Allocation>): Result<Stock, InventoryError>
    decreases |allocations|
  {
    if allocations == [] then Ok(s)
    else
      var next :- ApplyTo(s, StockIssued(allocations[0].batchId, allocations[0].taken));
      IssueAll(next, allocations[1..])
  }

  /** Each allocation takes no more than its batch of the product holds, and no batch is named twice. */
  ghost predicate Issuable(s: Stock, productId: Uuid, allocations: seq<Allocation>)
  {
    && (forall k :: 0 <= k < |allocations| ==> Covered(s, productId, allocations[k]))
    && (forall i, j :: 0 <= i < j < |allocations| ==> allocations[i].batchId != allocations[j].batchId)
  }

  predicate Covered(s: Stock, productId: Uuid, a: Allocation)
  {
    && a.batchId in s.levels
    && s.levels[a.batchId].batch.productId == productId
    && 0 < a.taken <= s.levels[a.batchId].onHand
  }

  function TakenFrom(allocations: seq<Allocation>, batchId: Uuid): int
  {
    if allocations == [] then 0
    else (if allocations[0].batchId == batchId then allocations[0].taken else 0) + TakenFrom(allocations[1..], batchId)
  }

  function ProductTotal(s: Stock, productId: Uuid): int { TotalIn(s.levels, productId) }

  function TotalIn(levels: Levels, productId: Uuid): int
  {
    StockOf(Listed(levels, Ascending(levels.Keys), productId))
  }

  /** Nothing but the levels of the picked batches changes, each by what was taken from it. */
  ghost predicate IssuedExactly(before: Stock, after: Stock, allocations: seq<Allocation>)
  {
    && after.levels.Keys == before.levels.Keys
    && after.costs == before.costs && after.variances == before.variances
    && (forall id :: id in before.levels ==>
          after.levels[id].batch == before.levels[id].batch
          && after.levels[id].onHand == before.levels[id].onHand - TakenFrom(allocations, id))
  }

  lemma {:induction false} ListedAfterIssue(levels: Levels, ids: seq<Uuid>, productId: Uuid, id: Uuid, taken: I64)
    requires forall k :: 0 <= k < |ids| ==> ids[k] in levels
    requires forall i, j :: 0 <= i < j < |ids| ==> ids[i] < ids[j]
    requires id in levels && FitsI64(levels[id].onHand - taken)
    ensures var after := levels[id := levels[id].(onHand := levels[id].onHand - taken)];
            StockOf(Listed(after, ids, productId)) == StockOf(Listed(levels, ids, productId))
              - if id in ids && levels[id].batch.productId == productId then taken else 0
  {
    if ids != [] {
      ListedAfterIssue(levels, ids[1..], productId, id, taken);
      var after := levels[id := levels[id].(onHand := levels[id].onHand - taken)];
      var here := if levels[ids[0]].batch.productId == productId then [levels[ids[0]]] else [];
      var now := if levels[ids[0]].batch.productId == productId then [after[ids[0]]] else [];
      StockAppend(here, Listed(levels, ids[1..], productId));
      StockAppend(now, Listed(after, ids[1..], productId));
      assert ids[0] !in ids[1..];
      assert ids == [ids[0]] + ids[1..];
    }
  }

  lemma IssueApplies(s: Stock, productId: Uuid, a: Allocation)
    requires Covered(s, productId, a)
    ensures var level := s.levels[a.batchId];
            ApplyTo(s, StockIssued(a.batchId, a.taken))
            == Ok(s.(levels := s.levels[a.batchId := level.(onHand := level.onHand - a.taken)]))
  {
  }

  lemma TotalAfterIssue(levels: Levels, after: Levels, id: Uuid, taken: I64, productId: Uuid)
    requires id in levels && FitsI64(levels[id].onHand - taken) && after.Keys == levels.Keys
    requires after == levels[id := levels[id].(onHand := levels[id].onHand - taken)]
    ensures TotalIn(after, productId)
         == TotalIn(levels, productId) - if levels[id].batch.productId == productId then taken else 0
  {
    var ids := Ascending(levels.Keys);
    assert id in ids;
    ListedAfterIssue(levels, ids, productId, id, taken);
  }

  lemma IssueOne(s: Stock, productId: Uuid, a: Allocation, other: Uuid)
    requires Covered(s, productId, a)
    ensures ApplyTo(s, StockIssued(a.batchId, a.taken)).Ok?
    ensures ProductTotal(ApplyTo(s, StockIssued(a.batchId, a.taken)).value, other)
            == ProductTotal(s, other) - if other == productId then a.taken else 0
  {
    IssueApplies(s, productId, a);
    MovementIsExact(s, StockIssued(a.batchId, a.taken));
    var after := ApplyTo(s, StockIssued(a.batchId, a.taken)).value.levels;
    TotalAfterIssue(s.levels, after, a.batchId, a.taken, other);
  }

  /** After one issue the other allocations are still covered. */
  lemma StillIssuable(s: Stock, productId: Uuid, allocations: seq<Allocation>)
    requires Issuable(s, productId, allocations) && allocations != []
    ensures var issued := ApplyTo(s, StockIssued(allocations[0].batchId, allocations[0].taken));
            issued.Ok? && Issuable(issued.value, productId, allocations[1..])
  {
    var a, rest := allocations[0], allocations[1..];
    IssueApplies(s, productId, a);
    var next := ApplyTo(s, StockIssued(a.batchId, a.taken)).value;
    forall k | 0 <= k < |rest| ensures Covered(next, productId, rest[k]) {
      assert Covered(s, productId, allocations[k + 1]);
    }
  }

  /** Issuing a list of covered allocations succeeds, and changes nothing but their batches. */
  lemma {:induction false} IssueAllWorks(s: Stock, productId: Uuid, allocations: seq<Allocation>)
    requires Issuable(s, productId, allocations)
    ensures IssueAll(s, allocations).Ok?
    ensures IssuedExactly(s, IssueAll(s, allocations).value, allocations)
    decreases |allocations|
  {
    if allocations != [] {
      var a, rest := allocations[0], allocations[1..];
      StillIssuable(s, productId, allocations);
      IssueAllWorks(ApplyTo(s, StockIssued(a.batchId, a.taken)).value, productId, rest);
      TakenOnce(rest, a.batchId);
    }
  }

  lemma {:induction false} IssueAllTotals(s: Stock, productId: Uuid, allocations: seq<Allocation>, other: Uuid)
    requires Issuable(s, productId, allocations) && IssueAll(s, allocations).Ok?
    ensures ProductTotal(IssueAll(s, allocations).value, other)
            == ProductTotal(s, other) - if other == productId then TakenOf(allocations) else 0
    decreases |allocations|
  {
    if allocations != [] {
      var a, rest := allocations[0], allocations[1..];
      StillIssuable(s, productId, allocations);
      IssueOne(s, productId, a, other);
      IssueAllTotals(ApplyTo(s, StockIssued(a.batchId, a.taken)).value, productId, rest, other);
    }
  }

  lemma {:induction false} TakenOnce(allocations: seq<Allocation>, batchId: Uuid)
    requires forall k :: 0 <= k < |allocations| ==> allocations[k].batchId != batchId
    ensures TakenFrom(allocations, batchId) == 0
  {
    if allocations != [] {
      TakenOnce(allocations[1..], batchId);
    }
  }

  lemma PickIsIssuable(s: Stock, productId: Uuid, wanted: I64, now: I64)
    requires WellFiled(s) && wanted > 0
    ensures Issuable(s, productId, PickOf(ForProduct(s, productId), wanted, now).allocations)
  {
    var levels := ForProduct(s, productId);
    ForProductIsDistinct(s, productId);
    OrderedIsInPickingOrder(levels, now);
    var ordered := PickingOrder(levels, now);
    var drawn := Draw(ordered, wanted);
    DrawTakes(ordered, wanted);
    SameElements(ordered, Usable(levels, now));
    UsableMeans(levels, now);
    forall k | 0 <= k < |drawn| ensures Covered(s, productId, drawn[k]) && drawn[k].batchId == ordered[k].batch.id {
      assert Takes(drawn[k], ordered[k]);
      ForProductMeans(s, productId, ordered[k]);
    }
  }

  lemma {:induction false} TakenIsCovered(s: Stock, productId: Uuid, allocations: seq<Allocation>, batchId: Uuid)
    requires Issuable(s, productId, allocations)
    ensures TakenFrom(allocations, batchId) != 0 ==>
              batchId in s.levels && 0 < TakenFrom(allocations, batchId) <= s.levels[batchId].onHand
  {
    if allocations != [] {
      assert Covered(s, productId, allocations[0]);
      if allocations[0].batchId == batchId {
        TakenOnce(allocations[1..], batchId);
      } else {
        var rest := allocations[1..];
        assert forall k :: 0 <= k < |rest| ==> Covered(s, productId, rest[k]) by {
          assert forall k :: 0 <= k < |rest| ==> rest[k] == allocations[k + 1];
        }
        TakenIsCovered(s, productId, rest, batchId);
      }
    }
  }

  /** Every batch something was taken from ends at zero or above. */
  ghost predicate NoneOverdrawn(after: Stock, allocations: seq<Allocation>)
  {
    forall id :: id in after.levels && TakenFrom(allocations, id) != 0 ==> after.levels[id].onHand >= 0
  }

  /**
   Issuing what a pick allocated succeeds, lowers the product's total by exactly what was taken, leaves
   the total of every other product alone, and leaves every batch it drew from at zero or above.
   */
  lemma IssuingAPick(s: Stock, productId: Uuid, wanted: I64, now: I64, other: Uuid)
    requires WellFiled(s) && wanted > 0
    ensures var taken := PickOf(ForProduct(s, productId), wanted, now).allocations;
            var issued := IssueAll(s, taken);
            && issued.Ok?
            && IssuedExactly(s, issued.value, taken)
            && NoneOverdrawn(issued.value, taken)
            && ProductTotal(issued.value, other)
               == ProductTotal(s, other) - if other == productId then TakenOf(taken) else 0
  {
    var taken := PickOf(ForProduct(s, productId), wanted, now).allocations;
    PickIsIssuable(s, productId, wanted, now);
    IssueCovered(s, productId, taken, other);
  }

  lemma IssueCovered(s: Stock, productId: Uuid, taken: seq<Allocation>, other: Uuid)
    requires Issuable(s, productId, taken)
    ensures var issued := IssueAll(s, taken);
            && issued.Ok?
            && IssuedExactly(s, issued.value, taken)
            && NoneOverdrawn(issued.value, taken)
            && ProductTotal(issued.value, other)
               == ProductTotal(s, other) - if other == productId then TakenOf(taken) else 0
  {
    IssueAllWorks(s, productId, taken);
    IssueAllTotals(s, productId, taken, other);
    forall id | id in s.levels && TakenFrom(taken, id) != 0
      ensures IssueAll(s, taken).value.levels[id].onHand >= 0
    {
      TakenIsCovered(s, productId, taken, id);
    }
  }
}
