/**
 What a till keeps in memory, what each action makes of it, and what a restart makes of the log.

 The sale, the catalogue and the floor plan are abstract machines: a state and a step that accepts or
 refuses. Stock, purchase orders, the drawer, the staff and the fiscal sequence are modules of their own.
 */
module TillBooks {
  import opened Base
  import opened EventLog
  import opened FiscalLedger
  import opened Fefo
  import SB = SaleBook
  import IB = InventoryBook
  import PO = PurchaseOrder
  import Shifts
  import Staff

  type Sale(!new)
  type SaleEvent(!new, ==)
  type Totals(!new, ==)
  type Catalogue(!new)
  type CatalogueEvent(!new, ==)
  type Floor(!new)
  type FloorEvent(!new, ==)
  type OutletEvent(!new, ==)
  type OutletConfig(!new)

  datatype InvoiceContent = InvoiceContent(totals: Totals, regime: string)

  /** The families of events a till writes. `Unreadable` is one this build cannot parse. */
  datatype Payload =
    | SaleRecorded(sale: SaleEvent)
    | ShiftRecorded(shift: Shifts.ShiftEvent)
    | StockMoved(stock: IB.InventoryEvent)
    | StaffChanged(staff: Staff.StaffEvent)
    | CatalogueEdited(catalogue: CatalogueEvent)
    | FloorEdited(floor: FloorEvent)
    | OutletSet(outlet: OutletEvent)
    | InvoiceIssued(invoice: InvoiceSeal, content: InvoiceContent, at: I64, issuedBy: Uuid)
    | Purchased(purchase: PO.PurchaseEvent)
    | Unreadable

  /** The parts of the program that stay abstract, and who this device is. */
  datatype Rules = Rules(
    device: Uuid,
    tenant: Uuid,
    outletId: Uuid,
    digest: Digest<Payload>,
    sealDigest: SealDigest<InvoiceContent>,
    sales: SB.Machine<Sale, SaleEvent>,
    // an `opened` or a `ticket_claimed`, which a lease never stops
    takesTheTicket: SaleEvent -> bool,
    heldBy: (Sale, Uuid, I64) -> Option<Uuid>,
    totals: Sale -> Option<Totals>,
    catalogue: (Catalogue, CatalogueEvent) -> SB.Stepped<Catalogue>,
    emptyCatalogue: Catalogue,
    floor: (Floor, FloorEvent) -> SB.Stepped<Floor>,
    emptyFloor: Floor,
    config: OutletEvent -> Option<OutletConfig>)

  datatype TillError =
    | TicketHeld(saleId: Uuid, holder: Uuid)
    | SaleRefused(saleId: Uuid)
    | NoTotals(saleId: Uuid)
    | DrawerRefused(drawer: Shifts.DrawerError)
    | ShiftRefused(shift: Shifts.ShiftError)
    | StockRefused(stock: IB.InventoryError)
    | StaffRefused(staff: Staff.DirectoryError)
    | PurchaseRefused(purchase: PO.PurchaseError)
    | UnknownOrder(orderId: Uuid)
    | CatalogueRefused
    | FloorRefused
    | OutletRefused
    | FiscalRefused(fiscal: FiscalError)

  type Orders = map<Uuid, PO.Order>

  datatype Books = Books(
    sales: SB.Sales<Sale>,
    shift: Option<Shifts.Shift>,
    stock: IB.Stock,
    staff: Staff.Members,
    catalogue: Catalogue,
    floor: Floor,
    fiscal: FiscalTip,
    outlet: Option<OutletConfig>,
    orders: Orders)

  // ---------- validating an action ----------

  datatype Action =
    | RecordSale(sale: SaleEvent)
    | CompleteSale(sale: SaleEvent, regime: string, issuedBy: Uuid)
    | RecordShift(shift: Shifts.ShiftEvent)
    | RecordStock(stock: IB.InventoryEvent)
    | RecordStaff(staff: Staff.StaffEvent)
    | RecordPurchase(purchase: PO.PurchaseEvent)
    | RecordReceipt(purchase: PO.PurchaseEvent, stock: IB.InventoryEvent)
    | RecordCatalogue(catalogue: CatalogueEvent)
    | RecordFloor(floor: FloorEvent)
    | RecordOutlet(outlet: OutletEvent)

  /** The books an action leads to, and the events that say so. */
  datatype Accepted = Accepted(books: Books, payloads: seq<Payload>)

  /** `assert_may_write`: another device's lease stops everything but an opening or a claim. */
  function MayWrite(r: Rules, sales: SB.Sales<Sale>, e: SaleEvent, at: I64): Result<(), TillError>
  {
    var id := r.sales.saleId(e);
    if r.takesTheTicket(e) || id !in sales then Ok(())
    else
      match r.heldBy(sales[id], r.device, at)
      case Some(holder) => Err(TicketHeld(id, holder))
      case None => Ok(())
  }

  function AcceptSale(r: Rules, b: Books, e: SaleEvent, at: I64): Result<SB.Sales<Sale>, TillError>
  {
    var _ :- MayWrite(r, b.sales, e, at);
    var applied := SB.ApplyTo(r.sales, b.sales, e);
    if applied.accepted then Ok(applied.sales) else Err(SaleRefused(r.sales.saleId(e)))
  }

  /** A completed sale takes the next invoice number, from a copy of the sequence. */
  function AcceptCompletion(r: Rules, b: Books, e: SaleEvent, regime: string, issuedBy: Uuid, at: I64)
    : Result<Accepted, TillError>
  {
    var id := r.sales.saleId(e);
    var sales :- AcceptSale(r, b, e, at);
    match r.totals(sales[id])
    case None => Err(NoTotals(id))
    case Some(totals) =>
      var content := InvoiceContent(totals, regime);
      match Sealed(r.sealDigest, r.device, b.fiscal, id, at, content)
      case Err(error) => Err(FiscalRefused(error))
      case Ok(invoice) =>
        Ok(Accepted(
             b.(sales := sales, fiscal := invoice.Tip()),
             [SaleRecorded(e), InvoiceIssued(invoice, content, at, issuedBy)]))
  }

  function AcceptStock(b: Books, e: IB.InventoryEvent): Result<IB.Stock, TillError>
  {
    match IB.ApplyTo(b.stock, e)
    case Err(error) => Err(StockRefused(error))
    case Ok(stock) => Ok(stock)
  }

  function Offer(order: PO.Order, e: PO.PurchaseEvent): Result<PO.Order, TillError>
  {
    var applied := PO.ApplyTo(order, e);
    match applied.refusal
    case Some(error) => Err(PurchaseRefused(error))
    case None => Ok(applied.order)
  }

  function AcceptPurchase(b: Books, e: PO.PurchaseEvent): Result<PO.Order, TillError>
  {
    if e.orderId in b.orders then Offer(b.orders[e.orderId], e)
    else
      match PO.Replay([e])
      case Err(error) => Err(PurchaseRefused(error))
      case Ok(order) => Ok(order)
  }

  function AcceptReceipt(b: Books, p: PO.PurchaseEvent, s: IB.InventoryEvent): Result<Accepted, TillError>
  {
    if p.orderId !in b.orders then Err(UnknownOrder(p.orderId))
    else
      var order :- Offer(b.orders[p.orderId], p);
      var stock :- AcceptStock(b, s);
      Ok(Accepted(b.(orders := b.orders[p.orderId := order], stock := stock), [Purchased(p), StockMoved(s)]))
  }

  function Accept(r: Rules, b: Books, action: Action, at: I64): Result<Accepted, TillError>
  {
    match action
    case RecordSale(e) =>
      var sales :- AcceptSale(r, b, e, at);
      Ok(Accepted(b.(sales := sales), [SaleRecorded(e)]))
    case CompleteSale(e, regime, issuedBy) => AcceptCompletion(r, b, e, regime, issuedBy, at)
    case RecordShift(e) =>
      (match Shifts.Accept(b.shift, e)
       case Err(error) => Err(DrawerRefused(error))
       case Ok(shift) => Ok(Accepted(b.(shift := Some(shift)), [ShiftRecorded(e)])))
    case RecordStock(e) =>
      var stock :- AcceptStock(b, e);
      Ok(Accepted(b.(stock := stock), [StockMoved(e)]))
    case RecordStaff(e) =>
      (match Staff.ApplyTo(b.staff, e)
       case Err(error) => Err(StaffRefused(error))
       case Ok(staff) => Ok(Accepted(b.(staff := staff), [StaffChanged(e)])))
    case RecordPurchase(e) =>
      var order :- AcceptPurchase(b, e);
      Ok(Accepted(b.(orders := b.orders[e.orderId := order]), [Purchased(e)]))
    case RecordReceipt(p, s) => AcceptReceipt(b, p, s)
    case RecordCatalogue(e) =>
      var next := r.catalogue(b.catalogue, e);
      if next.accepted then Ok(Accepted(b.(catalogue := next.state), [CatalogueEdited(e)])) else Err(CatalogueRefused)
    case RecordFloor(e) =>
      var next := r.floor(b.floor, e);
      if next.accepted then Ok(Accepted(b.(floor := next.state), [FloorEdited(e)])) else Err(FloorRefused)
    case RecordOutlet(e) =>
      (match r.config(e)
       case None => Err(OutletRefused)
       case Some(config) => Ok(Accepted(b.(outlet := Some(config)), [OutletSet(e)])))
  }

  lemma AcceptsReceipt(r: Rules, b: Books, p: PO.PurchaseEvent, s: IB.InventoryEvent, at: I64)
    ensures Accept(r, b, RecordReceipt(p, s), at) == AcceptReceipt(b, p, s)
  {
  }

  // ---------- reading the log back ----------

  /** What the loading loop has gathered. Orders and shifts are settled once all of it is read. */
  datatype Gathered = Gathered(
    sales: SB.Sales<Sale>,
    stock: IB.Stock,
    staff: Staff.Members,
    catalogue: Catalogue,
    floor: Floor,
    fiscal: FiscalTip,
    outlet: Option<OutletConfig>,
    purchases: map<Uuid, seq<PO.PurchaseEvent>>,
    shifts: seq<Shifts.ShiftEvent>)

  function Nothing(r: Rules): Gathered
  {
    Gathered(map[], IB.EMPTY, map[], r.emptyCatalogue, r.emptyFloor, FISCAL_GENESIS, None, map[], [])
  }

  function PurchasesOf(purchases: map<Uuid, seq<PO.PurchaseEvent>>, id: Uuid): seq<PO.PurchaseEvent>
  {
    if id in purchases then purchases[id] else []
  }

  /**
   One turn of the loading loop. Stock and staff must apply; sales, the catalogue and the floor step over what
   does not; only this device's invoices move its fiscal sequence.
   */
  function Project(r: Rules, g: Gathered, p: Payload): Result<Gathered, TillError>
  {
    match p
    case SaleRecorded(e) => Ok(g.(sales := SB.ApplyTo(r.sales, g.sales, e).sales))
    case ShiftRecorded(e) => Ok(g.(shifts := g.shifts + [e]))
    case StockMoved(e) =>
      (match IB.ApplyTo(g.stock, e)
       case Err(error) => Err(StockRefused(error))
       case Ok(stock) => Ok(g.(stock := stock)))
    case StaffChanged(e) =>
      (match Staff.ApplyTo(g.staff, e)
       case Err(error) => Err(StaffRefused(error))
       case Ok(staff) => Ok(g.(staff := staff)))
    case CatalogueEdited(e) => Ok(g.(catalogue := r.catalogue(g.catalogue, e).state))
    case FloorEdited(e) => Ok(g.(floor := r.floor(g.floor, e).state))
    case OutletSet(e) => Ok(if r.config(e).Some? then g.(outlet := r.config(e)) else g)
    case InvoiceIssued(invoice, _, _, _) =>
      Ok(if invoice.deviceId == r.device then g.(fiscal := invoice.Tip()) else g)
    case Purchased(e) =>
      Ok(g.(purchases := g.purchases[e.orderId := PurchasesOf(g.purchases, e.orderId) + [e]]))
    case Unreadable => Ok(g)
  }

  function Gather(r: Rules, events: seq<Envelope<Payload>>): Result<Gathered, TillError>
  {
    if events == [] then Ok(Nothing(r))
    else
      var before :- Gather(r, events[..|events| - 1]);
      Project(r, before, events[|events| - 1].payload)
  }

  /** Each order from its own events; a stream that does not replay is left out. */
  function OrdersOf(purchases: map<Uuid, seq<PO.PurchaseEvent>>): Orders
  {
    map id | id in purchases && PO.Replay(purchases[id]).Ok? :: PO.Replay(purchases[id]).value
  }

  function Settle(g: Gathered): Result<Books, TillError>
  {
    match Shifts.LatestOpen(g.shifts)
    case Err(error) => Err(ShiftRefused(error))
    case Ok(shift) =>
      Ok(Books(g.sales, shift, g.stock, g.staff, g.catalogue, g.floor, g.fiscal, g.outlet, OrdersOf(g.purchases)))
  }

  // ---------- live books and the log agree ----------

  /** Books kept event by event are what reading their events back would gather. */
  ghost predicate Reflects(b: Books, g: Gathered)
  {
    && b.sales == g.sales
    && b.stock == g.stock
    && b.staff == g.staff
    && b.catalogue == g.catalogue
    && b.floor == g.floor
    && b.fiscal == g.fiscal
    && b.outlet == g.outlet
    && OrdersReflect(b.orders, g.purchases)
    && Shifts.Mirrors(b.shift, g.shifts)
  }

  ghost predicate OrdersReflect(orders: Orders, purchases: map<Uuid, seq<PO.PurchaseEvent>>)
  {
    && orders.Keys == purchases.Keys
    && (forall id :: id in purchases ==> PO.Replay(purchases[id]) == Ok(orders[id]))
  }

  function ProjectAll(r: Rules, g: Gathered, payloads: seq<Payload>): Result<Gathered, TillError>
    decreases |payloads|
  {
    if payloads == [] then Ok(g)
    else
      var next :- Project(r, g, payloads[0]);
      ProjectAll(r, next, payloads[1..])
  }

  /** A new shift is given an id the log has not seen. */
  predicate OpensAfresh(action: Action, g: Gathered)
  {
    action.RecordShift? && action.shift.Opened? ==> !Shifts.Knows(g.shifts, action.shift.shiftId)
  }

  lemma PurchaseReflects(
    orders: Orders, purchases: map<Uuid, seq<PO.PurchaseEvent>>, e: PO.PurchaseEvent, order: PO.Order)
    requires OrdersReflect(orders, purchases)
    requires if e.orderId in orders then Offer(orders[e.orderId], e) == Ok(order) else PO.Replay([e]) == Ok(order)
    ensures OrdersReflect(orders[e.orderId := order],
                          purchases[e.orderId := PurchasesOf(purchases, e.orderId) + [e]])
  {
    var before := PurchasesOf(purchases, e.orderId);
    assert (before + [e])[..|before|] == before;
    assert PO.Replay([]).Err?;
    assert [] + [e] == [e];
  }

  lemma ProjectOne(r: Rules, g: Gathered, p: Payload)
    ensures ProjectAll(r, g, [p]) == Project(r, g, p)
  {
    assert [p][1..] == [];
  }

  lemma ProjectTwo(r: Rules, g: Gathered, p: Payload, q: Payload)
    ensures ProjectAll(r, g, [p, q])
            == match Project(r, g, p) case Err(error) => Err(error) case Ok(mid) => Project(r, mid, q)
  {
    assert [p, q][1..] == [q];
    var first := Project(r, g, p);
    if first.Ok? {
      ProjectOne(r, first.value, q);
    }
  }

  /** The events of an accepted action, read back one after another, gather its books. */
  ghost predicate ReadsBack(r: Rules, g: Gathered, a: Accepted)
  {
    var next := ProjectAll(r, g, a.payloads);
    next.Ok? && Reflects(a.books, next.value)
  }

  lemma CompletionReflects(r: Rules, b: Books, g: Gathered, action: Action, at: I64)
    requires Reflects(b, g) && action.CompleteSale? && Accept(r, b, action, at).Ok?
    ensures ReadsBack(r, g, Accept(r, b, action, at).value)
  {
    var a := Accept(r, b, action, at).value;
    ProjectTwo(r, g, a.payloads[0], a.payloads[1]);
  }

  lemma ReceiptReflects(r: Rules, b: Books, g: Gathered, p: PO.PurchaseEvent, e: IB.InventoryEvent)
    requires Reflects(b, g) && AcceptReceipt(b, p, e).Ok?
    ensures ReadsBack(r, g, AcceptReceipt(b, p, e).value)
  {
    var order, stock := Offer(b.orders[p.orderId], p).value, AcceptStock(b, e).value;
    var mid := g.(purchases := g.purchases[p.orderId := PurchasesOf(g.purchases, p.orderId) + [p]]);
    assert Project(r, g, Purchased(p)) == Ok(mid);
    assert Project(r, mid, StockMoved(e)) == Ok(mid.(stock := stock));
    ProjectTwo(r, g, Purchased(p), StockMoved(e));
    PurchaseReflects(b.orders, g.purchases, p, order);
  }

  lemma PurchaseActionReflects(r: Rules, b: Books, g: Gathered, action: Action, at: I64)
    requires Reflects(b, g) && action.RecordPurchase? && Accept(r, b, action, at).Ok?
    ensures ReadsBack(r, g, Accept(r, b, action, at).value)
  {
    var a := Accept(r, b, action, at).value;
    ProjectOne(r, g, a.payloads[0]);
    PurchaseReflects(b.orders, g.purchases, action.purchase, a.books.orders[action.purchase.orderId]);
  }

  lemma ShiftActionReflects(r: Rules, b: Books, g: Gathered, action: Action, at: I64)
    requires Reflects(b, g) && action.RecordShift? && OpensAfresh(action, g) && Accept(r, b, action, at).Ok?
    ensures ReadsBack(r, g, Accept(r, b, action, at).value)
  {
    var a := Accept(r, b, action, at).value;
    ProjectOne(r, g, a.payloads[0]);
    Shifts.AcceptKeepsMirror(b.shift, g.shifts, action.shift);
  }

  /** Reading back the events of an accepted action gathers what the action made of the books. */
  lemma AcceptReflects(r: Rules, b: Books, g: Gathered, action: Action, at: I64)
    requires Reflects(b, g) && OpensAfresh(action, g)
    requires Accept(r, b, action, at).Ok?
    ensures ReadsBack(r, g, Accept(r, b, action, at).value)
  {
    var a := Accept(r, b, action, at).value;
    match action {
      case CompleteSale(_, _, _) => CompletionReflects(r, b, g, action, at);
      case RecordReceipt(p, e) => ReceiptReflects(r, b, g, p, e);
      case RecordPurchase(_) => PurchaseActionReflects(r, b, g, action, at);
      case RecordShift(_) => ShiftActionReflects(r, b, g, action, at);
      case RecordSale(e) => ProjectOne(r, g, SaleRecorded(e));
      case RecordStock(e) => ProjectOne(r, g, StockMoved(e));
      case RecordStaff(e) => ProjectOne(r, g, StaffChanged(e));
      case RecordCatalogue(e) => ProjectOne(r, g, CatalogueEdited(e));
      case RecordFloor(e) => ProjectOne(r, g, FloorEdited(e));
      case RecordOutlet(e) => ProjectOne(r, g, OutletSet(e));
    }
  }

  lemma OrdersReadBack(orders: Orders, purchases: map<Uuid, seq<PO.PurchaseEvent>>)
    requires OrdersReflect(orders, purchases)
    ensures OrdersOf(purchases) == orders
  {
  }

  /** Settling what the log gathers gives the live books back, a closed shift as none. */
  lemma SettleReadsBack(b: Books, g: Gathered)
    requires Reflects(b, g)
    ensures Settle(g) == Ok(b.(shift := Shifts.Resumed(b.shift)))
    ensures Reflects(b.(shift := Shifts.Resumed(b.shift)), g)
  {
    Shifts.MirrorReadsBack(b.shift, g.shifts);
    OrdersReadBack(b.orders, g.purchases);
  }

  lemma {:induction false} GatherMore(r: Rules, events: seq<Envelope<Payload>>, more: seq<Envelope<Payload>>)
    requires Gather(r, events).Ok?
    ensures Gather(r, events + more) == ProjectAll(r, Gather(r, events).value, PayloadsOf(more))
    decreases |more|
  {
    if more == [] {
      assert events + more == events;
    } else {
      var longer := events + [more[0]];
      assert longer[..|events|] == events;
      assert events + more == longer + more[1..];
      assert PayloadsOf(more)[1..] == PayloadsOf(more[1..]);
      if Gather(r, longer).Ok? {
        GatherMore(r, longer, more[1..]);
      } else {
        GatherPrefixFails(r, longer + more[1..], |longer|);
        assert (longer + more[1..])[..|longer|] == longer;
      }
    }
  }

  lemma {:induction false} GatherPrefixFails(r: Rules, events: seq<Envelope<Payload>>, n: nat)
    requires n <= |events| && Gather(r, events[..n]).Err?
    ensures Gather(r, events) == Gather(r, events[..n])
  {
    if n == |events| {
      assert events[..n] == events;
    } else {
      assert events[..|events| - 1][..n] == events[..n];
      GatherPrefixFails(r, events[..|events| - 1], n);
    }
  }

  function PayloadsOf(events: seq<Envelope<Payload>>): (p: seq<Payload>)
    ensures |p| == |events|
    ensures forall i :: 0 <= i < |events| ==> p[i] == events[i].payload
  {
    seq(|events|, i requires 0 <= i < |events| => events[i].payload)
  }

  lemma PayloadsAppend(a: seq<Envelope<Payload>>, b: seq<Envelope<Payload>>)
    ensures PayloadsOf(a + b) == PayloadsOf(a) + PayloadsOf(b)
  {
  }
}
