/** A purchase order rebuilt from its events, and the price comparison it is kept for. */
module PurchaseOrder {
  import opened Base
  import opened Sorting
  import opened Money

  const MILLI_PER_UNIT: I64 := 1000

  /** A quantity is a count of thousandths. */
  type Quantity = I64

  datatype OrderLine = OrderLine(lineId: Uuid, productId: Uuid, quantity: Quantity, unitCost: Amount)

  datatype LineProgress = LineProgress(line: OrderLine, received: Quantity, receivedValue: Amount)

  datatype CloseReason = Complete | ShortShipped | Cancelled

  datatype PurchaseEvent =
    | Placed(orderId: Uuid, supplier: string, placedAt: I64, lines: seq<OrderLine>)
    | LineReceived(orderId: Uuid, lineId: Uuid, quantity: Quantity, unitCost: Amount)
    | Closed(orderId: Uuid, reason: CloseReason)

  datatype PurchaseError =
    | Arithmetic(error: MoneyError)
    | NotPlaced(orderId: Uuid)
    | AlreadyPlaced(orderId: Uuid)
    | UnknownLine(orderId: Uuid, lineId: Uuid)
    | OrderClosed(orderId: Uuid)
    | NonPositiveReceipt(quantity: Quantity)
    | Empty

  datatype OrderStatus = Awaiting | PartlyReceived | FullyReceived | Settled(reason: CloseReason)

  datatype Order = Order(
    orderId: Uuid,
    supplier: string,
    placedAt: I64,
    lines: map<Uuid, LineProgress>,
    closed: Option<CloseReason>)

  /** A unit cost across a quantity, half a minor unit away from zero. */
  function Extend(unitCost: Amount, quantity: Quantity): Result<Amount, MoneyError>
  {
    MulRatio(unitCost, quantity, MILLI_PER_UNIT, HalfUp)
  }

  // ---------- one line ----------

  /** A line after a receipt attempt: a value that does not fit leaves the quantity already counted. */
  datatype Receipt = Receipt(progress: LineProgress, refusal: Option<MoneyError>)

  function Receive(p: LineProgress, quantity: Quantity, unitCost: Amount): Receipt
  {
    if !FitsI64(p.received + quantity) then Receipt(p, Some(Overflow))
    else
      var counted := p.(received := p.received + quantity);
      match Extend(unitCost, quantity)
      case Err(error) => Receipt(counted, Some(error))
      case Ok(value) =>
        match CheckedAdd(p.receivedValue, value)
        case Err(error) => Receipt(counted, Some(error))
        case Ok(total) => Receipt(counted.(receivedValue := total), None)
  }

  function Ordered(line: OrderLine): LineProgress
  {
    LineProgress(line, 0, Amount(0, line.unitCost.currency))
  }

  // ---------- the whole order ----------

  function LinesOf(lines: seq<OrderLine>): map<Uuid, LineProgress>
  {
    if lines == [] then map[]
    else
      var last := lines[|lines| - 1];
      LinesOf(lines[..|lines| - 1])[last.lineId := Ordered(last)]
  }

  function Place(event: PurchaseEvent): Result<Order, PurchaseError>
  {
    match event
    case Placed(orderId, supplier, placedAt, lines) =>
      if lines == [] then Err(Empty) else Ok(Order(orderId, supplier, placedAt, LinesOf(lines), None))
    case _ => Err(NotPlaced(event.orderId))
  }

  /** An order after an event was offered to it, and why it was refused if it was. */
  datatype Applied = Applied(order: Order, refusal: Option<PurchaseError>)

  function ApplyTo(order: Order, event: PurchaseEvent): Applied
  {
    if order.closed.Some? then Applied(order, Some(OrderClosed(order.orderId)))
    else
      match event
      case Placed(orderId, _, _, _) => Applied(order, Some(AlreadyPlaced(orderId)))
      case LineReceived(_, lineId, quantity, unitCost) =>
        if quantity <= 0 then Applied(order, Some(NonPositiveReceipt(quantity)))
        else if lineId !in order.lines then Applied(order, Some(UnknownLine(order.orderId, lineId)))
        else
          var receipt := Receive(order.lines[lineId], quantity, unitCost);
          Applied(
            order.(lines := order.lines[lineId := receipt.progress]),
            match receipt.refusal { case None => None case Some(error) => Some(Arithmetic(error)) })
      case Closed(_, reason) => Applied(order.(closed := Some(reason)), None)
  }

  function Replay(events: seq<PurchaseEvent>): Result<Order, PurchaseError>
  {
    if events == [] then Err(Empty)
    else if |events| == 1 then Place(events[0])
    else
      var order :- Replay(events[..|events| - 1]);
      var next := ApplyTo(order, events[|events| - 1]);
      match next.refusal
      case None => Ok(next.order)
      case Some(error) => Err(error)
  }

  class PurchaseOrder {
    const orderId: Uuid
    const supplier: string
    const placedAt: I64
    var lines: map<Uuid, LineProgress>
    var closed: Option<CloseReason>

    constructor Of(order: Order)
      ensures State() == order
    {
      orderId, supplier, placedAt := order.orderId, order.supplier, order.placedAt;
      lines, closed := order.lines, order.closed;
    }

    function State(): Order
      reads this
    {
      Order(orderId, supplier, placedAt, lines, closed)
    }

    method Apply(event: PurchaseEvent) returns (refusal: Option<PurchaseError>)
      modifies this
      ensures Applied(State(), refusal) == ApplyTo(old(State()), event)
    {
      if closed.Some? {
        return Some(OrderClosed(orderId));
      }
      match event {
        case Placed(otherId, _, _, _) =>
          return Some(AlreadyPlaced(otherId));
        case LineReceived(_, lineId, quantity, unitCost) =>
          if quantity <= 0 {
            return Some(NonPositiveReceipt(quantity));
          }
          if lineId !in lines {
            return Some(UnknownLine(orderId, lineId));
          }
          var progress := lines[lineId];
          if !FitsI64(progress.received + quantity) {
            assert lines[lineId := progress] == lines;
            return Some(Arithmetic(Overflow));
          }
          progress := progress.(received := progress.received + quantity);
          lines := lines[lineId := progress];
          var value := Extend(unitCost, quantity);
          if value.Err? {
            return Some(Arithmetic(value.error));
          }
          var total := CheckedAdd(progress.receivedValue, value.value);
          if total.Err? {
            return Some(Arithmetic(total.error));
          }
          lines := lines[lineId := progress.(receivedValue := total.value)];
          return None;
        case Closed(_, reason) =>
          closed := Some(reason);
          return None;
      }
    }

    /** Where the order has got to, from what every line still waits for. */
    method Status() returns (r: Result<OrderStatus, MoneyError>)
      ensures r == StatusOf(State())
    {
      if closed.Some? {
        return Ok(Settled(closed.value));
      }
      var ids := Ascending(lines.Keys);
      var walked :- WalkLines(lines, ids);
      var (anyReceived, allFulfilled) := walked;
      if allFulfilled { return Ok(FullyReceived); }
      if anyReceived { return Ok(PartlyReceived); }
      return Ok(Awaiting);
    }

    /** The lines whose charge differs from the ordered price, in line order. */
    method PriceDiscrepancies() returns (r: Result<seq<Uuid>, MoneyError>)
      ensures r.Ok? <==> forall id :: id in lines ==> Comparable(lines[id])
      ensures r.Ok? ==>
                && (forall id :: id in r.value <==> id in lines && Flagged(lines[id]))
                && (forall i, j :: 0 <= i < j < |r.value| ==> r.value[i] < r.value[j])
    {
      r := CompareLines(lines, Ascending(lines.Keys));
      assert forall id :: id in lines <==> id in Ascending(lines.Keys);
    }
  }

  /** What was received can be negated, and taken from what was ordered. */
  predicate FitsToCompare(ordered: Quantity, received: Quantity)
  {
    received != I64_MIN && I64_MIN <= ordered - received <= I64_MAX
  }

  /** The status as a statement about all lines, whatever order they are walked in. */
  ghost function StatusOf(order: Order): Result<OrderStatus, MoneyError>
  {
    if order.closed.Some? then Ok(Settled(order.closed.value))
    else if exists id :: id in order.lines && !FitsToCompare(order.lines[id].line.quantity, order.lines[id].received)
    then Err(Overflow)
    else if forall id :: id in order.lines ==> order.lines[id].received >= order.lines[id].line.quantity
    then Ok(FullyReceived)
    else if exists id :: id in order.lines && order.lines[id].received != 0 then Ok(PartlyReceived)
    else Ok(Awaiting)
  }

  /** Whether anything came, and whether nothing is waited for, over the lines in turn. */
  method WalkLines(lines: map<Uuid, LineProgress>, ids: seq<Uuid>) returns (r: Result<(bool, bool), MoneyError>)
    requires forall id :: id in ids <==> id in lines
    ensures r.Ok? <==> forall id :: id in lines ==> FitsToCompare(lines[id].line.quantity, lines[id].received)
    ensures r.Err? ==> r.error == Overflow
    ensures r.Ok? ==>
              && (r.value.0 <==> exists id :: id in lines && lines[id].received != 0)
              && (r.value.1 <==> forall id :: id in lines ==> lines[id].received >= lines[id].line.quantity)
  {
    var anyReceived, allFulfilled := false, true;
    var i := 0;
    while i < |ids|
      invariant 0 <= i <= |ids|
      invariant forall k :: 0 <= k < i ==> Computable(lines[ids[k]])
      invariant anyReceived <==> exists k :: 0 <= k < i && lines[ids[k]].received != 0
      invariant allFulfilled <==> forall k :: 0 <= k < i ==> Waiting(lines[ids[k]]) <= 0
    {
      assert ids[i] in lines;
      var progress := lines[ids[i]];
      anyReceived := anyReceived || progress.received != 0;
      if !Computable(progress) {
        return Err(Overflow);
      }
      allFulfilled := allFulfilled && Waiting(progress) <= 0;
      i := i + 1;
    }
    return Ok((anyReceived, allFulfilled));
  }

  method CompareLines(lines: map<Uuid, LineProgress>, ids: seq<Uuid>) returns (r: Result<seq<Uuid>, MoneyError>)
    requires forall k :: 0 <= k < |ids| ==> ids[k] in lines
    requires forall i, j :: 0 <= i < j < |ids| ==> ids[i] < ids[j]
    ensures r.Ok? <==> forall id :: id in ids ==> Comparable(lines[id])
    ensures r.Ok? ==>
              && (forall id :: id in r.value <==> id in ids && Flagged(lines[id]))
              && (forall i, j :: 0 <= i < j < |r.value| ==> r.value[i] < r.value[j])
  {
    var found: seq<Uuid> := [];
    var i := 0;
    while i < |ids|
      invariant 0 <= i <= |ids|
      invariant forall k :: 0 <= k < i ==> Comparable(lines[ids[k]])
      invariant found == FlaggedIn(lines, ids[..i])
    {
      var progress := lines[ids[i]];
      assert ids[..i + 1][..i] == ids[..i];
      if progress.received != 0 {
        var charged := Extend(progress.line.unitCost, progress.received);
        if charged.Err? {
          assert ids[i] in ids;
          return Err(charged.error);
        }
        if charged.value != progress.receivedValue {
          found := found + [ids[i]];
        }
      }
      i := i + 1;
    }
    assert ids[..i] == ids;
    FlaggedInOrder(lines, ids);
    return Ok(found);
  }

  /** The flagged ones among some line ids, in their order. */
  function FlaggedIn(lines: map<Uuid, LineProgress>, ids: seq<Uuid>): seq<Uuid>
    requires forall k :: 0 <= k < |ids| ==> ids[k] in lines
  {
    if ids == [] then []
    else
      var n := |ids| - 1;
      FlaggedIn(lines, ids[..n]) + if Flagged(lines[ids[n]]) then [ids[n]] else []
  }

  lemma {:induction false} FlaggedInOrder(lines: map<Uuid, LineProgress>, ids: seq<Uuid>)
    requires forall k :: 0 <= k < |ids| ==> ids[k] in lines
    requires forall i, j :: 0 <= i < j < |ids| ==> ids[i] < ids[j]
    ensures var found := FlaggedIn(lines, ids);
            && (forall id :: id in found <==> id in ids && Flagged(lines[id]))
            && (forall i, j :: 0 <= i < j < |found| ==> found[i] < found[j])
  {
    if ids != [] {
      var n := |ids| - 1;
      FlaggedInOrder(lines, ids[..n]);
      assert ids == ids[..n] + [ids[n]];
      var before := FlaggedIn(lines, ids[..n]);
      forall k | 0 <= k < |before| ensures before[k] < ids[n] {
        assert before[k] in before;
      }
    }
  }

  /** Ordered minus received; negative when the supplier sent more. */
  function Waiting(p: LineProgress): int { p.line.quantity - p.received }

  /** Both machine steps behind `outstanding` stay in range: the negation and the sum. */
  predicate Computable(p: LineProgress) { p.received != I64_MIN && FitsI64(Waiting(p)) }

  /** There is an ordered price to compare the charge with. */
  predicate Comparable(p: LineProgress)
  {
    p.received != 0 ==> Extend(p.line.unitCost, p.received).Ok?
  }

  /** The supplier charged something other than the ordered price for what came. */
  predicate Flagged(p: LineProgress)
  {
    && p.received != 0
    && Extend(p.line.unitCost, p.received) != Ok(p.receivedValue)
  }

  // ---------- a refused receipt ----------

  /**
   A refused event leaves the order alone, with one exception: a receipt whose quantity could be counted
   but whose value could not be added has already moved the quantity. Whoever keeps the order must
   therefore apply to a copy, as the till does.
   */
  lemma RefusalLeavesOrderAlone(order: Order, event: PurchaseEvent)
    requires ApplyTo(order, event).refusal.Some?
    ensures ApplyTo(order, event).order == order <==>
            !(&& order.closed.None? && event.LineReceived? && event.quantity > 0 && event.lineId in order.lines
              && FitsI64(order.lines[event.lineId].received + event.quantity))
  {
    if order.closed.None? && event.LineReceived? && event.quantity > 0 && event.lineId in order.lines {
      var p := order.lines[event.lineId];
      var after := ApplyTo(order, event).order;
      assert after.lines[event.lineId] == Receive(p, event.quantity, event.unitCost).progress;
      if FitsI64(p.received + event.quantity) {
        assert after.lines[event.lineId].received != p.received;
      } else {
        assert order.lines[event.lineId := p] == order.lines;
      }
    }
  }

  /** The quantity, its value and the totals they lead to fit, in one currency. */
  predicate CanReceive(p: LineProgress, quantity: Quantity, unitCost: Amount)
  {
    && FitsI64(p.received + quantity) && Extend(unitCost, quantity).Ok?
    && p.receivedValue.currency == unitCost.currency
    && FitsI64(p.receivedValue.minor + Extend(unitCost, quantity).value.minor)
  }

  /** An open order takes its close, and positive receipts of its lines that fit. */
  predicate CanApply(order: Order, event: PurchaseEvent)
  {
    && order.closed.None? && !event.Placed?
    && (event.LineReceived? ==>
          && event.quantity > 0 && event.lineId in order.lines
          && CanReceive(order.lines[event.lineId], event.quantity, event.unitCost))
  }

  /** What an order takes, and what is said of the rest. */
  lemma AppliesExactly(order: Order, event: PurchaseEvent)
    ensures ApplyTo(order, event).refusal.None? <==> CanApply(order, event)
    ensures ApplyTo(order, event).refusal.Some? ==>
              match ApplyTo(order, event).refusal.value
              case OrderClosed(id) => id == order.orderId && order.closed.Some?
              case AlreadyPlaced(id) => event.Placed? && id == event.orderId && order.closed.None?
              case NonPositiveReceipt(quantity) =>
                event.LineReceived? && quantity == event.quantity && quantity <= 0 && order.closed.None?
              case UnknownLine(id, lineId) =>
                && event.LineReceived? && id == order.orderId && lineId == event.lineId && lineId !in order.lines
                && event.quantity > 0
              case Arithmetic(error) =>
                && event.LineReceived? && event.lineId in order.lines
                && Receive(order.lines[event.lineId], event.quantity, event.unitCost).refusal == Some(error)
              case NotPlaced(_) => false
              case Empty => false
  {
    if event.LineReceived? && event.lineId in order.lines {
      ReceivesExactly(order.lines[event.lineId], event.quantity, event.unitCost);
    }
  }

  /** What a receipt that is taken leaves on its line. */
  lemma ReceivesExactly(p: LineProgress, quantity: Quantity, unitCost: Amount)
    ensures Receive(p, quantity, unitCost).refusal.None? <==> CanReceive(p, quantity, unitCost)
    ensures Receive(p, quantity, unitCost).refusal.None? ==>
              Receive(p, quantity, unitCost).progress
              == LineProgress(p.line, p.received + quantity,
                              Amount(p.receivedValue.minor + Extend(unitCost, quantity).value.minor, unitCost.currency))
  {
  }

  /** The last of the placed lines with an id. */
  function PlacedLine(lines: seq<OrderLine>, id: Uuid): Option<OrderLine>
  {
    if lines == [] then None
    else if lines[|lines| - 1].lineId == id then Some(lines[|lines| - 1])
    else PlacedLine(lines[..|lines| - 1], id)
  }

  lemma {:induction false} LinesAreThePlaced(lines: seq<OrderLine>, id: Uuid)
    ensures id in LinesOf(lines) <==> PlacedLine(lines, id).Some?
    ensures id in LinesOf(lines) ==>
              LinesOf(lines)[id]
              == LineProgress(PlacedLine(lines, id).value, 0, Amount(0, PlacedLine(lines, id).value.unitCost.currency))
  {
    if lines != [] {
      LinesAreThePlaced(lines[..|lines| - 1], id);
    }
  }

  /** An order that replays is the one that was placed, each line as placed, and is closed as its last event says. */
  lemma {:induction false} OrderIsItsEvents(events: seq<PurchaseEvent>)
    requires Replay(events).Ok?
    ensures events[0].Placed? && events[0].lines != []
    ensures var order, placed, last := Replay(events).value, events[0], events[|events| - 1];
            && order.orderId == placed.orderId && order.supplier == placed.supplier && order.placedAt == placed.placedAt
            && order.closed == (if last.Closed? then Some(last.reason) else None)
            && order.lines.Keys == LinesOf(placed.lines).Keys
            && (forall id :: id in order.lines ==> order.lines[id].line == LinesOf(placed.lines)[id].line)
  {
    if |events| > 1 {
      OrderIsItsEvents(events[..|events| - 1]);
    }
  }

  // ---------- what the receipts add up to ----------

  datatype Delivery = Delivery(quantity: Quantity, unitCost: Amount)

  /** All deliveries of one line, none refused. */
  function ReceiveAll(p: LineProgress, deliveries: seq<Delivery>): Option<LineProgress>
  {
    if deliveries == [] then Some(p)
    else
      var n := |deliveries| - 1;
      match ReceiveAll(p, deliveries[..n])
      case None => None
      case Some(before) =>
        if deliveries[n].quantity <= 0 then None
        else
          var receipt := Receive(before, deliveries[n].quantity, deliveries[n].unitCost);
          if receipt.refusal.Some? then None else Some(receipt.progress)
  }

  /** The deliveries of one line, in the order they were recorded. */
  function DeliveriesOf(events: seq<PurchaseEvent>, lineId: Uuid): seq<Delivery>
  {
    if events == [] then []
    else
      var last := events[|events| - 1];
      DeliveriesOf(events[..|events| - 1], lineId)
      + if last.LineReceived? && last.lineId == lineId then [Delivery(last.quantity, last.unitCost)] else []
  }

  lemma {:induction false} ReplayStartsPlaced(events: seq<PurchaseEvent>)
    requires Replay(events).Ok?
    ensures events != [] && Place(events[0]).Ok?
  {
    if |events| > 1 { ReplayStartsPlaced(events[..|events| - 1]); }
  }

  /** In an order that replays, each line is exactly what its own deliveries make of the ordered line. */
  lemma {:induction false} LinesAreTheirDeliveries(events: seq<PurchaseEvent>, lineId: Uuid)
    requires Replay(events).Ok?
    ensures events != [] && Place(events[0]).Ok?
    ensures var placed, order := Place(events[0]).value, Replay(events).value;
            && (lineId in order.lines <==> lineId in placed.lines)
            && (lineId in placed.lines ==>
                  ReceiveAll(placed.lines[lineId], DeliveriesOf(events, lineId)) == Some(order.lines[lineId]))
  {
    ReplayStartsPlaced(events);
    if |events| > 1 {
      var n := |events| - 1;
      LinesAreTheirDeliveries(events[..n], lineId);
      var before := DeliveriesOf(events[..n], lineId);
      var all := DeliveriesOf(events, lineId);
      if all != before {
        assert all[..|all| - 1] == before;
      }
    } else {
      assert DeliveriesOf(events[..0], lineId) == [];
    }
  }

  /** The exact charge in thousandths of a minor unit. */
  function ExactMilli(deliveries: seq<Delivery>): int
  {
    if deliveries == [] then 0
    else
      var n := |deliveries| - 1;
      ExactMilli(deliveries[..n]) + deliveries[n].unitCost.minor * deliveries[n].quantity
  }

  function QuantityOf(deliveries: seq<Delivery>): int
  {
    if deliveries == [] then 0 else QuantityOf(deliveries[..|deliveries| - 1]) + deliveries[|deliveries| - 1].quantity
  }

  lemma ExtendIsClose(unitCost: Amount, quantity: Quantity)
    requires Extend(unitCost, quantity).Ok?
    ensures Abs(1000 * Extend(unitCost, quantity).value.minor - unitCost.minor * quantity) <= 500
    ensures unitCost.minor * quantity % 1000 == 0 ==>
              1000 * Extend(unitCost, quantity).value.minor == unitCost.minor * quantity
    ensures Extend(unitCost, quantity).value.currency == unitCost.currency
  {
    MulRatioIsRounding(unitCost, quantity, MILLI_PER_UNIT, HalfUp);
    CloseToWhole(unitCost.minor * quantity, Extend(unitCost, quantity).value.minor);
  }

  lemma CloseToWhole(exact: int, rounded: int)
    requires 2 * Abs(exact - rounded * 1000) <= 1000
    ensures Abs(1000 * rounded - exact) <= 500
    ensures exact % 1000 == 0 && 2 * Abs(exact - rounded * 1000) != 1000 ==> 1000 * rounded == exact
    ensures exact % 1000 == 0 ==> 2 * Abs(exact - rounded * 1000) != 1000
  {
  }

  /** One accepted delivery moves the value by its exact charge, half a minor unit either way. */
  lemma ReceiveMoves(p: LineProgress, delivery: Delivery, after: LineProgress)
    requires Receive(p, delivery.quantity, delivery.unitCost) == Receipt(after, None)
    ensures after.line == p.line && after.received == p.received + delivery.quantity
    ensures after.receivedValue.currency == p.receivedValue.currency == delivery.unitCost.currency
    ensures var moved := 1000 * (after.receivedValue.minor - p.receivedValue.minor);
            var exact := delivery.unitCost.minor * delivery.quantity;
            Abs(moved - exact) <= 500 && (exact % 1000 == 0 ==> moved == exact)
  {
    ExtendIsClose(delivery.unitCost, delivery.quantity);
  }

  /** The line after a run of deliveries, within half a minor unit of the exact charge for each. */
  ghost predicate Drifted(p: LineProgress, after: LineProgress, deliveries: seq<Delivery>)
  {
    && after.line == p.line
    && after.receivedValue.currency == p.receivedValue.currency
    && after.received == p.received + QuantityOf(deliveries)
    && Abs(1000 * (after.receivedValue.minor - p.receivedValue.minor) - ExactMilli(deliveries)) <= 500 * |deliveries|
  }

  /** Each receipt rounds by at most half a unit, and the halves are all that can accumulate. */
  lemma {:induction false} ReceivedValueDrift(p: LineProgress, deliveries: seq<Delivery>)
    requires ReceiveAll(p, deliveries).Some?
    ensures Drifted(p, ReceiveAll(p, deliveries).value, deliveries)
  {
    if deliveries != [] {
      var n := |deliveries| - 1;
      ReceivedValueDrift(p, deliveries[..n]);
      ReceiveMoves(ReceiveAll(p, deliveries[..n]).value, deliveries[n], ReceiveAll(p, deliveries).value);
    }
  }

  /** Every charge is a whole number of minor units before rounding. */
  ghost predicate ExactCharges(deliveries: seq<Delivery>)
  {
    forall k :: 0 <= k < |deliveries| ==> deliveries[k].unitCost.minor * deliveries[k].quantity % 1000 == 0
  }

  ghost predicate MovedExactly(p: LineProgress, after: LineProgress, deliveries: seq<Delivery>)
  {
    1000 * (after.receivedValue.minor - p.receivedValue.minor) == ExactMilli(deliveries)
  }

  lemma {:induction false} ExactChargesAddExactly(p: LineProgress, deliveries: seq<Delivery>)
    requires ReceiveAll(p, deliveries).Some? && ExactCharges(deliveries)
    ensures MovedExactly(p, ReceiveAll(p, deliveries).value, deliveries)
  {
    if deliveries != [] {
      var n := |deliveries| - 1;
      ExactChargesAddExactly(p, deliveries[..n]);
      ReceiveMoves(ReceiveAll(p, deliveries[..n]).value, deliveries[n], ReceiveAll(p, deliveries).value);
    }
  }

  lemma {:induction false} DeliveriesArePositive(p: LineProgress, deliveries: seq<Delivery>, k: nat)
    requires k < |deliveries| && ReceiveAll(p, deliveries).Some?
    ensures deliveries[k].quantity > 0
  {
    var n := |deliveries| - 1;
    if k < n {
      DeliveriesArePositive(p, deliveries[..n], k);
    }
  }

  lemma {:induction false} QuantitiesAddUp(deliveries: seq<Delivery>)
    requires forall k :: 0 <= k < |deliveries| ==> deliveries[k].quantity > 0
    ensures QuantityOf(deliveries) >= |deliveries|
  {
    if deliveries != [] {
      QuantitiesAddUp(deliveries[..|deliveries| - 1]);
    }
  }

  lemma WholeUnitsAreExact(cost: int, quantity: int)
    requires quantity % 1000 == 0
    ensures cost * quantity % 1000 == 0
  {
    var units := quantity / 1000;
    assert cost * quantity == (cost * units) * 1000;
  }

  lemma {:induction false} AtOnePrice(deliveries: seq<Delivery>, cost: Amount)
    requires forall k :: 0 <= k < |deliveries| ==> deliveries[k].unitCost == cost
    ensures ExactMilli(deliveries) == cost.minor * QuantityOf(deliveries)
  {
    if deliveries != [] {
      var n := |deliveries| - 1;
      AtOnePrice(deliveries[..n], cost);
      assert cost.minor * (QuantityOf(deliveries[..n]) + deliveries[n].quantity)
          == cost.minor * QuantityOf(deliveries[..n]) + cost.minor * deliveries[n].quantity;
    }
  }

  /**
   Rounding each of `n` part deliveries instead of the whole cannot move the charge far: at the ordered
   price, twice the gap to the price of everything received is at most n + 1 minor units.
   */
  lemma PartDeliveriesDriftByHalves(line: OrderLine, deliveries: seq<Delivery>, ordered: Amount)
    requires ReceiveAll(Ordered(line), deliveries).Some?
    requires forall k :: 0 <= k < |deliveries| ==> deliveries[k].unitCost == line.unitCost
    requires Extend(line.unitCost, ReceiveAll(Ordered(line), deliveries).value.received) == Ok(ordered)
    ensures 2 * Abs(ReceiveAll(Ordered(line), deliveries).value.receivedValue.minor - ordered.minor)
            <= |deliveries| + 1
  {
    ReceivedValueDrift(Ordered(line), deliveries);
    AtOnePrice(deliveries, line.unitCost);
    ExtendIsClose(line.unitCost, ReceiveAll(Ordered(line), deliveries).value.received);
  }

  // ---------- when a line is flagged ----------

  /** What was charged: each delivery rounded by itself. */
  function Charged(deliveries: seq<Delivery>): int
  {
    if deliveries == [] then 0
    else
      var n := |deliveries| - 1;
      var charge := Extend(deliveries[n].unitCost, deliveries[n].quantity);
      Charged(deliveries[..n]) + if charge.Ok? then charge.value.minor else 0
  }

  lemma {:induction false} ReceivedValueIsCharged(p: LineProgress, deliveries: seq<Delivery>)
    requires ReceiveAll(p, deliveries).Some?
    ensures ReceiveAll(p, deliveries).value.receivedValue.minor == p.receivedValue.minor + Charged(deliveries)
  {
    if deliveries != [] {
      ReceivedValueIsCharged(p, deliveries[..|deliveries| - 1]);
    }
  }

  /** What the comparison sees: a line with deliveries has received something, for a value in its currency. */
  lemma LineReceives(line: OrderLine, deliveries: seq<Delivery>)
    requires ReceiveAll(Ordered(line), deliveries).Some?
    ensures var after := ReceiveAll(Ordered(line), deliveries).value;
            && after.line == line && after.received == QuantityOf(deliveries)
            && after.receivedValue.minor == Charged(deliveries)
            && after.receivedValue.currency == line.unitCost.currency
            && (after.received != 0 <==> deliveries != [])
  {
    ReceivedValueDrift(Ordered(line), deliveries);
    ReceivedValueIsCharged(Ordered(line), deliveries);
    forall k | 0 <= k < |deliveries| ensures deliveries[k].quantity > 0 {
      DeliveriesArePositive(Ordered(line), deliveries, k);
    }
    QuantitiesAddUp(deliveries);
  }

  /** What was delivered against a line. */
  function DeliveredOf(events: seq<PurchaseEvent>, id: Uuid): int { QuantityOf(DeliveriesOf(events, id)) }

  lemma ReceivedIsDelivered(events: seq<PurchaseEvent>, id: Uuid)
    requires Replay(events).Ok? && id in Replay(events).value.lines
    ensures Replay(events).value.lines[id].received == DeliveredOf(events, id) >= 0
    ensures DeliveredOf(events, id) == 0 <==> DeliveriesOf(events, id) == []
  {
    LinesAreTheirDeliveries(events, id);
    OrderIsItsEvents(events);
    LinesAreThePlaced(events[0].lines, id);
    var line, deliveries := PlacedLine(events[0].lines, id).value, DeliveriesOf(events, id);
    LineReceives(line, deliveries);
    forall k | 0 <= k < |deliveries| ensures deliveries[k].quantity > 0 {
      DeliveriesArePositive(Ordered(line), deliveries, k);
    }
    QuantitiesAddUp(deliveries);
  }

  /** The lines of the order stand where the deliveries among the events leave them. */
  ghost predicate Delivered(order: Order, events: seq<PurchaseEvent>)
  {
    forall id {:trigger DeliveredOf(events, id)} :: id in order.lines ==>
      && order.lines[id].received == DeliveredOf(events, id) >= 0
      && (DeliveredOf(events, id) == 0 <==> DeliveriesOf(events, id) == [])
  }

  ghost predicate AllDelivered(order: Order, events: seq<PurchaseEvent>)
  {
    forall id :: id in order.lines ==> DeliveredOf(events, id) >= order.lines[id].line.quantity
  }

  ghost predicate NothingDelivered(order: Order, events: seq<PurchaseEvent>)
  {
    forall id :: id in order.lines ==> DeliveriesOf(events, id) == []
  }

  /** The difference that a status computes is out of range: only for a line ordered with a negative quantity. */
  ghost predicate TooFarApart(order: Order, events: seq<PurchaseEvent>)
  {
    exists id :: id in order.lines && order.lines[id].line.quantity - DeliveredOf(events, id) < I64_MIN
  }

  lemma OpenStatusIsByDeliveries(order: Order, events: seq<PurchaseEvent>)
    requires Delivered(order, events) && order.closed.None?
    ensures StatusOf(order)
         == if TooFarApart(order, events) then Err(Overflow)
            else if AllDelivered(order, events) then Ok(FullyReceived)
            else if NothingDelivered(order, events) then Ok(Awaiting)
            else Ok(PartlyReceived)
  {
    assert forall id :: id in order.lines ==> order.lines[id].received == DeliveredOf(events, id) >= 0;
    assert forall id :: id in order.lines ==> (order.lines[id].received == 0 <==> DeliveriesOf(events, id) == []) by {
      forall id | id in order.lines ensures order.lines[id].received == 0 <==> DeliveriesOf(events, id) == [] {
        assert order.lines[id].received == DeliveredOf(events, id);
      }
    }
  }

  /** The status of an order by its events: how it was closed, or what of it has been delivered. */
  lemma StatusIsByDeliveries(events: seq<PurchaseEvent>, order: Order)
    requires Replay(events) == Ok(order)
    ensures events != []
    ensures var last := events[|events| - 1];
            StatusOf(order)
            == if last.Closed? then Ok(Settled(last.reason))
               else if TooFarApart(order, events) then Err(Overflow)
               else if AllDelivered(order, events) then Ok(FullyReceived)
               else if NothingDelivered(order, events) then Ok(Awaiting)
               else Ok(PartlyReceived)
  {
    OrderIsItsEvents(events);
    assert Delivered(order, events) by {
      forall id | id in order.lines
        ensures order.lines[id].received == DeliveredOf(events, id) >= 0
        ensures DeliveredOf(events, id) == 0 <==> DeliveriesOf(events, id) == []
      {
        ReceivedIsDelivered(events, id);
      }
    }
    if order.closed.None? {
      OpenStatusIsByDeliveries(order, events);
    }
  }

  /**
   A line is flagged exactly when the sum of its charges, each rounded by itself, is not the rounding of the
   ordered price of everything that came. Prices that did not change can fail this, and prices that did
   can pass it.
   */
  lemma FlaggedExactlyWhen(line: OrderLine, deliveries: seq<Delivery>)
    requires ReceiveAll(Ordered(line), deliveries).Some?
    requires Comparable(ReceiveAll(Ordered(line), deliveries).value)
    ensures Flagged(ReceiveAll(Ordered(line), deliveries).value)
       <==> && deliveries != []
            && !IsRounding(line.unitCost.minor * QuantityOf(deliveries), 1000, HalfUp, Charged(deliveries))
  {
    LineReceives(line, deliveries);
    if deliveries != [] {
      var quantity: Quantity := QuantityOf(deliveries);
      var ordered := Extend(line.unitCost, quantity).value;
      MulRatioIsRounding(line.unitCost, quantity, MILLI_PER_UNIT, HalfUp);
      if IsRounding(line.unitCost.minor * quantity, 1000, HalfUp, Charged(deliveries)) {
        RoundingIsUnique(line.unitCost.minor * quantity, 1000, HalfUp, Charged(deliveries), ordered.minor);
      }
    }
  }

  /** Two halves of a unit at the ordered price of one minor unit are flagged: each is rounded up by itself. */
  lemma HonestHalvesAreFlagged(line: OrderLine)
    requires line.unitCost.minor == 1
    ensures var halves := [Delivery(500, line.unitCost), Delivery(500, line.unitCost)];
            ReceiveAll(Ordered(line), halves).Some? && Flagged(ReceiveAll(Ordered(line), halves).value)
  {
    var half := Delivery(500, line.unitCost);
    HalfOf(line.unitCost, Amount(1, line.unitCost.currency));
    assert [half, half][..1] == [half] && [half][..0] == [];
    assert ReceiveAll(Ordered(line), [half]) == Some(LineProgress(line, 500, Amount(1, line.unitCost.currency)));
    assert Extend(line.unitCost, 1000) == Ok(line.unitCost) by {
      MulRatioOf(line.unitCost, 1000, MILLI_PER_UNIT, HalfUp, 1);
    }
  }

  /** Half a unit at twice the ordered price of one minor unit is not flagged: both come to one. */
  lemma DoubledPriceGoesUnseen(line: OrderLine)
    requires line.unitCost.minor == 1
    ensures var dearer := [Delivery(500, Amount(2, line.unitCost.currency))];
            ReceiveAll(Ordered(line), dearer).Some? && !Flagged(ReceiveAll(Ordered(line), dearer).value)
  {
    var one := Amount(1, line.unitCost.currency);
    var dearer := Delivery(500, Amount(2, line.unitCost.currency));
    HalfOf(line.unitCost, one);
    HalfOf(dearer.unitCost, one);
    assert [dearer][..0] == [];
    assert ReceiveAll(Ordered(line), [dearer]) == Some(LineProgress(line, 500, one));
  }

  lemma HalfOf(cost: Amount, one: Amount)
    requires 1 <= cost.minor <= 2 && one == Amount(1, cost.currency)
    ensures Extend(cost, 500) == Ok(one)
  {
    MulRatioOf(cost, 500, MILLI_PER_UNIT, HalfUp, 1);
  }

  lemma FlaggedAgainst(p: LineProgress, priced: int)
    requires p.received != 0 && Comparable(p) && p.receivedValue.currency == p.line.unitCost.currency
    requires priced == p.line.unitCost.minor * p.received && priced % 1000 == 0
    ensures Flagged(p) <==> 1000 * p.receivedValue.minor != priced
  {
    ExtendIsClose(p.line.unitCost, p.received);
  }

  lemma ExactChargesMakeTheValue(line: OrderLine, deliveries: seq<Delivery>)
    requires ReceiveAll(Ordered(line), deliveries).Some? && ExactCharges(deliveries)
    ensures 1000 * ReceiveAll(Ordered(line), deliveries).value.receivedValue.minor == ExactMilli(deliveries)
  {
    ExactChargesAddExactly(Ordered(line), deliveries);
  }

  /**
   Where every charge is a whole number of minor units, and the ordered price of everything that came is one
   too, a line is flagged precisely when what was paid differs from that price.
   */
  lemma ExactChargesFlaggedExactly(line: OrderLine, deliveries: seq<Delivery>, priced: int)
    requires ReceiveAll(Ordered(line), deliveries).Some? && ExactCharges(deliveries)
    requires Comparable(ReceiveAll(Ordered(line), deliveries).value)
    requires priced == line.unitCost.minor * QuantityOf(deliveries) && priced % 1000 == 0
    ensures Flagged(ReceiveAll(Ordered(line), deliveries).value) <==> ExactMilli(deliveries) != priced
  {
    LineReceives(line, deliveries);
    ExactChargesMakeTheValue(line, deliveries);
    if deliveries != [] {
      FlaggedAgainst(ReceiveAll(Ordered(line), deliveries).value, priced);
    }
  }

  lemma ThousandsAreWhole(whole: int, milli: int)
    requires milli == 1000 * whole
    ensures milli % 1000 == 0
  {
  }

  /** So deliveries at the ordered price whose charges are whole are never flagged. */
  lemma HonestExactChargesPass(line: OrderLine, deliveries: seq<Delivery>)
    requires ReceiveAll(Ordered(line), deliveries).Some? && ExactCharges(deliveries)
    requires Comparable(ReceiveAll(Ordered(line), deliveries).value)
    requires forall k :: 0 <= k < |deliveries| ==> deliveries[k].unitCost == line.unitCost
    ensures !Flagged(ReceiveAll(Ordered(line), deliveries).value)
  {
    var after, paid := ReceiveAll(Ordered(line), deliveries).value, ExactMilli(deliveries);
    ExactChargesMakeTheValue(line, deliveries);
    ThousandsAreWhole(after.receivedValue.minor, paid);
    AtOnePrice(deliveries, line.unitCost);
    ExactChargesFlaggedExactly(line, deliveries, paid);
  }

  ghost predicate PiecesOnly(deliveries: seq<Delivery>)
  {
    forall k :: 0 <= k < |deliveries| ==> deliveries[k].quantity % 1000 == 0
  }

  lemma {:induction false} PiecesAddUp(deliveries: seq<Delivery>)
    requires PiecesOnly(deliveries)
    ensures QuantityOf(deliveries) % 1000 == 0
  {
    if deliveries != [] {
      PiecesAddUp(deliveries[..|deliveries| - 1]);
    }
  }

  lemma PiecesChargeExactly(deliveries: seq<Delivery>)
    requires PiecesOnly(deliveries)
    ensures ExactCharges(deliveries)
  {
    forall k | 0 <= k < |deliveries|
      ensures deliveries[k].unitCost.minor * deliveries[k].quantity % 1000 == 0
    {
      WholeUnitsAreExact(deliveries[k].unitCost.minor, deliveries[k].quantity);
    }
  }

  /** So it is for goods sold by the piece, at whatever prices. */
  lemma WholeUnitsFlaggedExactly(line: OrderLine, deliveries: seq<Delivery>)
    requires ReceiveAll(Ordered(line), deliveries).Some?
    requires PiecesOnly(deliveries)
    requires Comparable(ReceiveAll(Ordered(line), deliveries).value)
    ensures Flagged(ReceiveAll(Ordered(line), deliveries).value) <==>
            ExactMilli(deliveries) != line.unitCost.minor * QuantityOf(deliveries)
  {
    PiecesAddUp(deliveries);
    PiecesChargeExactly(deliveries);
    WholeUnitsAreExact(line.unitCost.minor, QuantityOf(deliveries));
    ExactChargesFlaggedExactly(line, deliveries, line.unitCost.minor * QuantityOf(deliveries));
  }
}
