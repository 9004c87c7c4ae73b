/**
 What a till accepts, exactly: which actions, why the others are refused, and what an accepted one says. In
 particular a ticket that another device holds takes nothing but an opening or a claim.
 */
module Acceptance {
  import opened Base
  import opened FiscalLedger
  import opened TillBooks
  import SB = SaleBook
  import IB = InventoryBook
  import PO = PurchaseOrder
  import Shifts
  import Staff

  // ---------- sales ----------

  /** Another device holds the ticket, and the event is neither an opening nor a claim. */
  predicate HeldElsewhere(r: Rules, b: Books, e: SaleEvent, at: I64)
  {
    var id := r.sales.saleId(e);
    id in b.sales && !r.takesTheTicket(e) && r.heldBy(b.sales[id], r.device, at).Some?
  }

  /** Who holds it. */
  function Holder(r: Rules, b: Books, e: SaleEvent, at: I64): Uuid
    requires HeldElsewhere(r, b, e, at)
  {
    r.heldBy(b.sales[r.sales.saleId(e)], r.device, at).value
  }

  /** The sale takes the event: as its next, or as its opening where there is no such sale. */
  predicate SaleTakes(r: Rules, b: Books, e: SaleEvent)
  {
    var id := r.sales.saleId(e);
    if id in b.sales then r.sales.step(b.sales[id], e).accepted else r.sales.open(e).Some?
  }

  /** The sale as the event leaves it. */
  function SaleAfter(r: Rules, b: Books, e: SaleEvent): Sale
    requires SaleTakes(r, b, e)
  {
    var id := r.sales.saleId(e);
    if id in b.sales then r.sales.step(b.sales[id], e).state else r.sales.open(e).value
  }

  /**
   A sale event is accepted exactly when no other device holds the ticket against it and the sale takes it; it
   is then that sale alone that changes. The refusal names the holder exactly where there is one.
   */
  lemma SaleIsAcceptedExactly(r: Rules, b: Books, e: SaleEvent, at: I64)
    ensures var id, accepted := r.sales.saleId(e), Accept(r, b, RecordSale(e), at);
            && (accepted.Ok? <==> !HeldElsewhere(r, b, e, at) && SaleTakes(r, b, e))
            && (accepted.Ok? ==>
                  accepted.value
                  == Accepted(b.(sales := b.sales[id := SaleAfter(r, b, e)]), [SaleRecorded(e)]))
            && (HeldElsewhere(r, b, e, at) ==> accepted == Err(TicketHeld(id, Holder(r, b, e, at))))
            && (!HeldElsewhere(r, b, e, at) && accepted.Err? ==> accepted.error == SaleRefused(id))
  {
  }

  // ---------- completions ----------

  /** What the invoice of a completed sale is sealed over. */
  function InvoiceInput(r: Rules, b: Books, e: SaleEvent, content: InvoiceContent, at: I64): SealInput<InvoiceContent>
    requires b.fiscal.counter < U64_MAX
  {
    SealInput(r.device, b.fiscal.counter + 1, r.sales.saleId(e), at, b.fiscal.hash, content)
  }

  /** The sale takes the event and adds up, and its invoice has a number and a canonical form. */
  predicate CanComplete(r: Rules, b: Books, e: SaleEvent, regime: string, at: I64)
  {
    && SaleTakes(r, b, e)
    && var totals := r.totals(SaleAfter(r, b, e));
    && totals.Some?
    && b.fiscal.counter < U64_MAX
    && r.sealDigest(InvoiceInput(r, b, e, InvoiceContent(totals.value, regime), at)).Some?
  }

  /** The events of a completion, and the invoice they carry: of this sale, at this time, as asked for. */
  ghost predicate IssuesWhatWasAsked(
    r: Rules, b: Books, e: SaleEvent, regime: string, issuedBy: Uuid, at: I64, a: Accepted)
  {
    && |a.payloads| == 2 && a.payloads[0] == SaleRecorded(e) && a.payloads[1].InvoiceIssued?
    && var issued := a.payloads[1];
    && issued.at == at && issued.issuedBy == issuedBy && issued.content.regime == regime
    && issued.invoice.deviceId == r.device && issued.invoice.saleId == r.sales.saleId(e)
    && issued.invoice.issuedAt == at && issued.invoice.counter == b.fiscal.counter + 1
    && r.sales.saleId(e) in a.books.sales
    && r.totals(a.books.sales[r.sales.saleId(e)]) == Some(issued.content.totals)
  }

  /** A completion is held up by another device's ticket just as any other event of the sale. */
  lemma CompletionIsAcceptedExactly(r: Rules, b: Books, e: SaleEvent, regime: string, issuedBy: Uuid, at: I64)
    ensures var accepted := Accept(r, b, CompleteSale(e, regime, issuedBy), at);
            && (accepted.Ok? <==> !HeldElsewhere(r, b, e, at) && CanComplete(r, b, e, regime, at))
            && (HeldElsewhere(r, b, e, at) ==>
                  accepted == Err(TicketHeld(r.sales.saleId(e), Holder(r, b, e, at))))
            && (!HeldElsewhere(r, b, e, at) && accepted.Err? ==>
                  accepted.error == WhyNotCompleted(r, b, e))
  {
  }

  /** Why a completion that nobody else's ticket stops is refused, the first reason that applies. */
  function WhyNotCompleted(r: Rules, b: Books, e: SaleEvent): TillError
  {
    var id := r.sales.saleId(e);
    if !SaleTakes(r, b, e) then SaleRefused(id)
    else if r.totals(SaleAfter(r, b, e)).None? then NoTotals(id)
    else FiscalRefused(if b.fiscal.counter == U64_MAX then CounterExhausted else Canonical)
  }

  lemma CompletionIssuesWhatWasAsked(
    r: Rules, b: Books, e: SaleEvent, regime: string, issuedBy: Uuid, at: I64, a: Accepted)
    requires Accept(r, b, CompleteSale(e, regime, issuedBy), at) == Ok(a)
    ensures IssuesWhatWasAsked(r, b, e, regime, issuedBy, at, a)
    ensures SaleTakes(r, b, e) && a.books.sales == b.sales[r.sales.saleId(e) := SaleAfter(r, b, e)]
  {
  }

  // ---------- the other actions ----------

  predicate CanPurchase(b: Books, e: PO.PurchaseEvent)
  {
    if e.orderId in b.orders then PO.CanApply(b.orders[e.orderId], e) else e.Placed? && e.lines != []
  }

  /** What each of the other actions needs of the books. */
  predicate CanRecord(r: Rules, b: Books, action: Action)
    requires !action.RecordSale? && !action.CompleteSale?
  {
    match action
    case RecordShift(e) =>
      if Shifts.Resumed(b.shift).Some? then Shifts.CanApply(b.shift.value, e) else e.Opened?
    case RecordStock(e) => IB.CanApply(b.stock, e)
    case RecordStaff(e) => e.Enrolled? <==> e.staffId !in b.staff
    case RecordPurchase(e) => CanPurchase(b, e)
    case RecordReceipt(p, s) => p.orderId in b.orders && PO.CanApply(b.orders[p.orderId], p) && IB.CanApply(b.stock, s)
    case RecordCatalogue(e) => r.catalogue(b.catalogue, e).accepted
    case RecordFloor(e) => r.floor(b.floor, e).accepted
    case RecordOutlet(e) => r.config(e).Some?
  }

  lemma PurchaseIsAcceptedExactly(b: Books, e: PO.PurchaseEvent)
    ensures AcceptPurchase(b, e).Ok? <==> CanPurchase(b, e)
  {
    if e.orderId in b.orders {
      PO.AppliesExactly(b.orders[e.orderId], e);
    }
  }

  lemma ReceiptIsAcceptedExactly(b: Books, p: PO.PurchaseEvent, s: IB.InventoryEvent)
    ensures AcceptReceipt(b, p, s).Ok? <==>
              p.orderId in b.orders && PO.CanApply(b.orders[p.orderId], p) && IB.CanApply(b.stock, s)
  {
    IB.AppliesExactly(b.stock, s);
    if p.orderId in b.orders {
      PO.AppliesExactly(b.orders[p.orderId], p);
    }
  }

  /** Every other action is accepted exactly when what it needs is there. */
  lemma OthersAreAcceptedExactly(r: Rules, b: Books, action: Action, at: I64)
    requires !action.RecordSale? && !action.CompleteSale?
    ensures Accept(r, b, action, at).Ok? <==> CanRecord(r, b, action)
  {
    match action {
      case RecordShift(e) => Shifts.AcceptsExactly(b.shift, e);
      case RecordStock(e) => IB.AppliesExactly(b.stock, e);
      case RecordStaff(e) => Staff.AppliesExactly(b.staff, e);
      case RecordPurchase(e) => PurchaseIsAcceptedExactly(b, e);
      case RecordReceipt(p, s) => ReceiptIsAcceptedExactly(b, p, s);
      case _ =>
    }
  }

  /** What each of them writes: its own event, and of a delivery the order's first and then the stock's. */
  lemma OthersWriteTheirEvents(r: Rules, b: Books, action: Action, at: I64)
    requires !action.RecordSale? && !action.CompleteSale? && Accept(r, b, action, at).Ok?
    ensures Accept(r, b, action, at).value.payloads ==
            match action
            case RecordShift(e) => [ShiftRecorded(e)]
            case RecordStock(e) => [StockMoved(e)]
            case RecordStaff(e) => [StaffChanged(e)]
            case RecordPurchase(e) => [Purchased(e)]
            case RecordReceipt(p, s) => [Purchased(p), StockMoved(s)]
            case RecordCatalogue(e) => [CatalogueEdited(e)]
            case RecordFloor(e) => [FloorEdited(e)]
            case RecordOutlet(e) => [OutletSet(e)]
  {
  }

  /** And the refusal names the part of the till that refused. */
  lemma OthersAreRefusedByName(r: Rules, b: Books, action: Action, at: I64)
    requires !action.RecordSale? && !action.CompleteSale? && Accept(r, b, action, at).Err?
    ensures match action
            case RecordShift(e) =>
              Accept(r, b, action, at).error.DrawerRefused?
              && Shifts.Accept(b.shift, e) == Err(Accept(r, b, action, at).error.drawer)
            case RecordStock(e) =>
              Accept(r, b, action, at).error.StockRefused?
              && IB.ApplyTo(b.stock, e) == Err(Accept(r, b, action, at).error.stock)
            case RecordStaff(e) =>
              Accept(r, b, action, at).error.StaffRefused?
              && Staff.ApplyTo(b.staff, e) == Err(Accept(r, b, action, at).error.staff)
            case RecordPurchase(e) => Accept(r, b, action, at).error.PurchaseRefused?
            case RecordReceipt(p, s) =>
              if p.orderId !in b.orders then Accept(r, b, action, at).error == UnknownOrder(p.orderId)
              else if !PO.CanApply(b.orders[p.orderId], p) then Accept(r, b, action, at).error.PurchaseRefused?
              else Accept(r, b, action, at).error.StockRefused?
            case RecordCatalogue(_) => Accept(r, b, action, at).error == CatalogueRefused
            case RecordFloor(_) => Accept(r, b, action, at).error == FloorRefused
            case RecordOutlet(_) => Accept(r, b, action, at).error == OutletRefused
  {
    if action.RecordReceipt? && action.purchase.orderId in b.orders {
      PO.AppliesExactly(b.orders[action.purchase.orderId], action.purchase);
    }
  }
}
