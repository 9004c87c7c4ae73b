/** The terminal as the object it is: fields updated in place, validated on copies that are adopted last. */
module Terminal {
  import opened Base
  import opened EventLog
  import opened FiscalLedger
  import opened EventStore
  import opened TillBooks
  import opened Till
  import SB = SaleBook
  import IB = InventoryBook
  import PO = PurchaseOrder
  import Shifts
  import Staff

  class Terminal {
    const rules: Rules
    const store: EventStore<Payload>
    const chain: EventChain<Payload>
    var book: SB.Book<Sale, SaleEvent>
    var shift: Option<Shifts.Shift>
    var stock: IB.InventoryBook
    var staff: Staff.Directory
    var catalogue: Catalogue
    var floor: Floor
    var fiscal: FiscalChain<InvoiceContent>
    var outlet: Option<OutletConfig>
    var orders: Orders

    ghost predicate Valid()
      reads this, book, fiscal
    {
      && chain.digest == rules.digest && chain.deviceId == rules.device
      && book.machine == rules.sales
      && fiscal.digest == rules.sealDigest && fiscal.counter.deviceId == rules.device
    }

    function Now(): State
      reads this, store, chain, book, stock, staff, fiscal, fiscal.counter
    {
      State(store.rows, chain.tip, Kept())
    }

    function Kept(): Books
      reads this, book, stock, staff, fiscal, fiscal.counter
    {
      Books(book.sales, shift, stock.State(), staff.members, catalogue, floor, fiscal.Tip(), outlet, orders)
    }

    constructor Over(rules: Rules, store: EventStore<Payload>, tip: ChainTip, book: SB.Book<Sale, SaleEvent>,
                     stock: IB.InventoryBook, staff: Staff.Directory, books: Books)
      requires book.machine == rules.sales && book.sales == books.sales
      requires stock.State() == books.stock && staff.members == books.staff
      ensures Valid() && fresh(chain) && this.store == store && this.rules == rules
      ensures Now() == State(store.rows, tip, books)
    {
      this.rules, this.store, this.book, this.stock, this.staff := rules, store, book, stock, staff;
      chain := new EventChain.Resume(rules.digest, rules.device, tip);
      fiscal := new FiscalChain.Resume(rules.sealDigest, rules.device, books.fiscal);
      shift, catalogue, floor := books.shift, books.catalogue, books.floor;
      outlet, orders := books.outlet, books.orders;
    }

    // ---------- sealing and writing ----------

    /** Seal the event of an accepted action and store it. The chain has moved on even where the store refuses. */
    method Seal(p: Payload, m: Moment, ghost action: Action, ghost a: Accepted)
      returns (r: Result<Envelope<Payload>, Refusal>)
      requires Valid() && Accept(rules, Kept(), action, m.at) == Ok(a) && a.payloads == [p]
      modifies store, chain
      ensures Valid()
      ensures Perform(rules, old(Now()), action, m)
           == Attempt(State(store.rows, chain.tip, if r.Ok? then a.books else Kept()),
                      if r.Ok? then Ok([r.value]) else Err(r.error))
    {
      PerformsAccepted(rules, Now(), action, m, a);
      SealingOne(rules, chain.tip, m, 0, p);
      var sealed := chain.Append(Header(rules, m, 0), p);
      if sealed.Err? {
        return Err(EventRefused(sealed.error));
      }
      AppendOne(store.rows, sealed.value, m.disk);
      var stored := store.Append(sealed.value, m.disk);
      if stored.Err? {
        return Err(StoreRefused(stored.error));
      }
      return Ok(sealed.value);
    }

    /** Seal the two events of an accepted action and store both or neither. */
    method SealBoth(p: Payload, q: Payload, m: Moment, ghost action: Action, ghost a: Accepted)
      returns (r: Result<seq<Envelope<Payload>>, Refusal>)
      requires Valid() && Accept(rules, Kept(), action, m.at) == Ok(a) && a.payloads == [p, q]
      modifies store, chain
      ensures Valid()
      ensures Perform(rules, old(Now()), action, m)
           == Attempt(State(store.rows, chain.tip, if r.Ok? then a.books else Kept()), r)
    {
      PerformsAccepted(rules, Now(), action, m, a);
      SealingTwo(rules, chain.tip, m, p, q);
      var first := chain.Append(Header(rules, m, 0), p);
      if first.Err? {
        return Err(EventRefused(first.error));
      }
      var second := chain.Append(Header(rules, m, 1), q);
      if second.Err? {
        return Err(EventRefused(second.error));
      }
      var events := [first.value, second.value];
      assert [first.value] + [second.value] == events;
      var stored := store.AppendAll(events, m.disk);
      if stored.Err? {
        return Err(StoreRefused(stored.error));
      }
      return Ok(events);
    }

    // ---------- the actions ----------

    /** Refuse a write to a ticket another device holds. */
    method AssertMayWrite(e: SaleEvent, at: I64) returns (r: Result<(), TillError>)
      requires Valid()
      ensures r == MayWrite(rules, book.sales, e, at)
    {
      var id := rules.sales.saleId(e);
      if rules.takesTheTicket(e) || id !in book.sales {
        return Ok(());
      }
      var holder := rules.heldBy(book.sales[id], rules.device, at);
      if holder.Some? {
        return Err(TicketHeld(id, holder.value));
      }
      return Ok(());
    }

    /** Check the ticket, then apply the event to a throwaway copy of the book. */
    method TrySale(e: SaleEvent, at: I64) returns (r: Result<SB.Book<Sale, SaleEvent>, TillError>)
      requires Valid()
      ensures r.Ok? ==>
                && fresh(r.value) && r.value.machine == rules.sales
                && AcceptSale(rules, Kept(), e, at) == Ok(r.value.sales)
      ensures r.Err? ==> AcceptSale(rules, Kept(), e, at) == Err(r.error)
    {
      var may := AssertMayWrite(e, at);
      if may.Err? {
        return Err(may.error);
      }
      var candidate := new SB.Book.Of(rules.sales, book.sales);
      var accepted := candidate.Apply(e);
      if !accepted {
        return Err(SaleRefused(rules.sales.saleId(e)));
      }
      return Ok(candidate);
    }

    method RecordSale(e: SaleEvent, m: Moment) returns (r: Result<Envelope<Payload>, Refusal>)
      requires Valid()
      modifies this, store, chain
      ensures Valid()
      ensures Attempt(Now(), if r.Ok? then Ok([r.value]) else Err(r.error))
           == Perform(rules, old(Now()), Action.RecordSale(e), m)
    {
      var candidate := TrySale(e, m.at);
      if candidate.Err? {
        return Err(Invalid(candidate.error));
      }
      ghost var a := Accepted(Kept().(sales := candidate.value.sales), [SaleRecorded(e)]);
      r := Seal(SaleRecorded(e), m, Action.RecordSale(e), a);
      if r.Ok? {
        book := candidate.value;
      }
    }

    /** Complete the sale on a copy of the book and seal its invoice on a copy of the sequence. */
    method TryCompletion(e: SaleEvent, regime: string, issuedBy: Uuid, at: I64)
      returns (
        r: Result<(SB.Book<Sale, SaleEvent>, FiscalChain<InvoiceContent>, InvoiceSeal, InvoiceContent), TillError>)
      requires Valid()
      ensures r.Ok? ==>
                var (candidate, sequence, invoice, content) := r.value;
                && fresh(candidate) && fresh(sequence) && fresh(sequence.counter)
                && candidate.machine == rules.sales
                && sequence.digest == rules.sealDigest && sequence.counter.deviceId == rules.device
                && sequence.Tip() == invoice.Tip()
                && AcceptCompletion(rules, Kept(), e, regime, issuedBy, at)
                   == Ok(Accepted(Kept().(sales := candidate.sales, fiscal := invoice.Tip()),
                                  [SaleRecorded(e), InvoiceIssued(invoice, content, at, issuedBy)]))
      ensures r.Err? ==> AcceptCompletion(rules, Kept(), e, regime, issuedBy, at) == Err(r.error)
    {
      var tried := TrySale(e, at);
      if tried.Err? {
        return Err(tried.error);
      }
      var candidate := tried.value;
      var id := rules.sales.saleId(e);
      var totals := rules.totals(candidate.sales[id]);
      if totals.None? {
        return Err(NoTotals(id));
      }
      var content := InvoiceContent(totals.value, regime);
      var sequence := new FiscalChain.Resume(rules.sealDigest, rules.device, fiscal.Tip());
      var sealed := sequence.Seal(id, at, content);
      if sealed.Err? {
        return Err(FiscalRefused(sealed.error));
      }
      return Ok((candidate, sequence, sealed.value, content));
    }

    /**
     A sale's completion and its invoice, in one write. The invoice number comes from a copy of the
     sequence, which is adopted only once both events are stored.
     */
    method CompleteSale(e: SaleEvent, regime: string, issuedBy: Uuid, m: Moment)
      returns (r: Result<InvoiceSeal, Refusal>)
      requires Valid()
      modifies this, store, chain
      ensures Valid()
      ensures Now() == Perform(rules, old(Now()), Action.CompleteSale(e, regime, issuedBy), m).state
      ensures var result := Perform(rules, old(Now()), Action.CompleteSale(e, regime, issuedBy), m).result;
              if r.Ok? then result.Ok? && fiscal.Tip() == r.value.Tip() else result == Err(r.error)
    {
      var tried := TryCompletion(e, regime, issuedBy, m.at);
      if tried.Err? {
        return Err(Invalid(tried.error));
      }
      var (candidate, sequence, invoice, content) := tried.value;
      var p, q := SaleRecorded(e), InvoiceIssued(invoice, content, m.at, issuedBy);
      ghost var a := Accepted(Kept().(sales := candidate.sales, fiscal := invoice.Tip()), [p, q]);
      var written := SealBoth(p, q, m, Action.CompleteSale(e, regime, issuedBy), a);
      if written.Err? {
        return Err(written.error);
      }
      book, fiscal := candidate, sequence;
      return Ok(invoice);
    }

    method RecordShift(e: Shifts.ShiftEvent, m: Moment) returns (r: Result<Envelope<Payload>, Refusal>)
      requires Valid()
      modifies this, store, chain
      ensures Valid()
      ensures Attempt(Now(), if r.Ok? then Ok([r.value]) else Err(r.error))
           == Perform(rules, old(Now()), Action.RecordShift(e), m)
    {
      var candidate := Shifts.Accept(shift, e);
      if candidate.Err? {
        return Err(Invalid(DrawerRefused(candidate.error)));
      }
      ghost var a := Accepted(Kept().(shift := Some(candidate.value)), [ShiftRecorded(e)]);
      r := Seal(ShiftRecorded(e), m, Action.RecordShift(e), a);
      if r.Ok? {
        shift := Some(candidate.value);
      }
    }

    /** Apply the movement to a copy of the stock. */
    method TryStock(e: IB.InventoryEvent) returns (r: Result<IB.InventoryBook, TillError>)
      ensures r.Ok? ==> fresh(r.value) && AcceptStock(Kept(), e) == Ok(r.value.State())
      ensures r.Err? ==> AcceptStock(Kept(), e) == Err(r.error)
    {
      var candidate := new IB.InventoryBook.Of(stock.State());
      var applied := candidate.Apply(e);
      if applied.Err? {
        return Err(StockRefused(applied.error));
      }
      return Ok(candidate);
    }

    method RecordStock(e: IB.InventoryEvent, m: Moment) returns (r: Result<Envelope<Payload>, Refusal>)
      requires Valid()
      modifies this, store, chain
      ensures Valid()
      ensures Attempt(Now(), if r.Ok? then Ok([r.value]) else Err(r.error))
           == Perform(rules, old(Now()), Action.RecordStock(e), m)
    {
      var candidate := TryStock(e);
      if candidate.Err? {
        return Err(Invalid(candidate.error));
      }
      ghost var a := Accepted(Kept().(stock := candidate.value.State()), [StockMoved(e)]);
      r := Seal(StockMoved(e), m, Action.RecordStock(e), a);
      if r.Ok? {
        stock := candidate.value;
      }
    }

    /** Apply the change to a copy of the directory. */
    method TryStaff(e: Staff.StaffEvent) returns (r: Result<Staff.Directory, TillError>)
      ensures r.Ok? ==> fresh(r.value) && Staff.ApplyTo(staff.members, e) == Ok(r.value.members)
      ensures r.Err? ==> r.error.StaffRefused? && Staff.ApplyTo(staff.members, e) == Err(r.error.staff)
    {
      var candidate := new Staff.Directory.Of(staff.members);
      var applied := candidate.Apply(e);
      if applied.Err? {
        return Err(StaffRefused(applied.error));
      }
      return Ok(candidate);
    }

    method RecordStaff(e: Staff.StaffEvent, m: Moment) returns (r: Result<Envelope<Payload>, Refusal>)
      requires Valid()
      modifies this, store, chain
      ensures Valid()
      ensures Attempt(Now(), if r.Ok? then Ok([r.value]) else Err(r.error))
           == Perform(rules, old(Now()), Action.RecordStaff(e), m)
    {
      var candidate := TryStaff(e);
      if candidate.Err? {
        return Err(Invalid(candidate.error));
      }
      ghost var a := Accepted(Kept().(staff := candidate.value.members), [StaffChanged(e)]);
      r := Seal(StaffChanged(e), m, Action.RecordStaff(e), a);
      if r.Ok? {
        staff := candidate.value;
      }
    }

    /** Apply the event to a copy of one order. */
    method TryOrder(order: PO.Order, e: PO.PurchaseEvent) returns (r: Result<PO.Order, TillError>)
      ensures r == Offer(order, e)
    {
      var candidate := new PO.PurchaseOrder.Of(order);
      var refusal := candidate.Apply(e);
      if refusal.Some? {
        return Err(PurchaseRefused(refusal.value));
      }
      return Ok(candidate.State());
    }

    /** Apply the event to a copy of its order, or place a new one. */
    method TryPurchase(e: PO.PurchaseEvent) returns (r: Result<PO.Order, TillError>)
      ensures r == AcceptPurchase(Kept(), e)
    {
      if e.orderId in orders {
        r := TryOrder(orders[e.orderId], e);
      } else {
        var placed := PO.Replay([e]);
        r := if placed.Ok? then Ok(placed.value) else Err(PurchaseRefused(placed.error));
      }
    }

    method RecordPurchase(e: PO.PurchaseEvent, m: Moment) returns (r: Result<Envelope<Payload>, Refusal>)
      requires Valid()
      modifies this, store, chain
      ensures Valid()
      ensures Attempt(Now(), if r.Ok? then Ok([r.value]) else Err(r.error))
           == Perform(rules, old(Now()), Action.RecordPurchase(e), m)
    {
      var candidate := TryPurchase(e);
      if candidate.Err? {
        return Err(Invalid(candidate.error));
      }
      ghost var a := Accepted(Kept().(orders := orders[e.orderId := candidate.value]), [Purchased(e)]);
      r := Seal(Purchased(e), m, Action.RecordPurchase(e), a);
      if r.Ok? {
        orders := orders[e.orderId := candidate.value];
      }
    }

    /** Offer a delivery to a copy of its order and a copy of the stock. */
    method TryReceipt(p: PO.PurchaseEvent, s: IB.InventoryEvent)
      returns (r: Result<(PO.Order, IB.InventoryBook), TillError>)
      ensures r.Ok? ==>
                && fresh(r.value.1)
                && AcceptReceipt(Kept(), p, s)
                   == Ok(Accepted(Kept().(orders := orders[p.orderId := r.value.0], stock := r.value.1.State()),
                                  [Purchased(p), StockMoved(s)]))
      ensures r.Err? ==> AcceptReceipt(Kept(), p, s) == Err(r.error)
    {
      if p.orderId !in orders {
        return Err(UnknownOrder(p.orderId));
      }
      var order := TryOrder(orders[p.orderId], p);
      if order.Err? {
        return Err(order.error);
      }
      var moved := TryStock(s);
      if moved.Err? {
        return Err(moved.error);
      }
      return Ok((order.value, moved.value));
    }

    /** A delivery against an order: the order's event and the batch's, in one write. */
    method RecordReceipt(p: PO.PurchaseEvent, s: IB.InventoryEvent, m: Moment)
      returns (r: Result<seq<Envelope<Payload>>, Refusal>)
      requires Valid()
      modifies this, store, chain
      ensures Valid()
      ensures Attempt(Now(), r) == Perform(rules, old(Now()), Action.RecordReceipt(p, s), m)
    {
      var tried := TryReceipt(p, s);
      if tried.Err? {
        PerformsRefused(rules, Now(), Action.RecordReceipt(p, s), m, tried.error);
        return Err(Invalid(tried.error));
      }
      var (order, moved) := tried.value;
      ghost var a := Accepted(
        Kept().(orders := orders[p.orderId := order], stock := moved.State()), [Purchased(p), StockMoved(s)]);
      AcceptsReceipt(rules, Kept(), p, s, m.at);
      r := StoreReceipt(p, s, order, moved, m, Action.RecordReceipt(p, s), a);
    }

    /** Write an accepted delivery, and adopt its order and stock if it was stored. */
    method StoreReceipt(
      p: PO.PurchaseEvent, s: IB.InventoryEvent, order: PO.Order, moved: IB.InventoryBook, m: Moment,
      ghost action: Action, ghost a: Accepted)
      returns (r: Result<seq<Envelope<Payload>>, Refusal>)
      requires Valid() && Accept(rules, Kept(), action, m.at) == Ok(a)
      requires a.books == Kept().(orders := orders[p.orderId := order], stock := moved.State())
      requires a.payloads == [Purchased(p), StockMoved(s)]
      modifies this, store, chain
      ensures Valid()
      ensures Attempt(Now(), r) == Perform(rules, old(Now()), action, m)
    {
      r := SealBoth(Purchased(p), StockMoved(s), m, action, a);
      if r.Ok? {
        orders := orders[p.orderId := order];
        stock := moved;
      }
    }

    method RecordCatalogue(e: CatalogueEvent, m: Moment) returns (r: Result<Envelope<Payload>, Refusal>)
      requires Valid()
      modifies this, store, chain
      ensures Valid()
      ensures Attempt(Now(), if r.Ok? then Ok([r.value]) else Err(r.error))
           == Perform(rules, old(Now()), Action.RecordCatalogue(e), m)
    {
      var candidate := rules.catalogue(catalogue, e);
      if !candidate.accepted {
        return Err(Invalid(CatalogueRefused));
      }
      ghost var a := Accepted(Kept().(catalogue := candidate.state), [CatalogueEdited(e)]);
      r := Seal(CatalogueEdited(e), m, Action.RecordCatalogue(e), a);
      if r.Ok? {
        catalogue := candidate.state;
      }
    }

    method RecordFloor(e: FloorEvent, m: Moment) returns (r: Result<Envelope<Payload>, Refusal>)
      requires Valid()
      modifies this, store, chain
      ensures Valid()
      ensures Attempt(Now(), if r.Ok? then Ok([r.value]) else Err(r.error))
           == Perform(rules, old(Now()), Action.RecordFloor(e), m)
    {
      var candidate := rules.floor(floor, e);
      if !candidate.accepted {
        return Err(Invalid(FloorRefused));
      }
      ghost var a := Accepted(Kept().(floor := candidate.state), [FloorEdited(e)]);
      r := Seal(FloorEdited(e), m, Action.RecordFloor(e), a);
      if r.Ok? {
        floor := candidate.state;
      }
    }

    method RecordOutlet(e: OutletEvent, m: Moment) returns (r: Result<Envelope<Payload>, Refusal>)
      requires Valid()
      modifies this, store, chain
      ensures Valid()
      ensures Attempt(Now(), if r.Ok? then Ok([r.value]) else Err(r.error))
           == Perform(rules, old(Now()), Action.RecordOutlet(e), m)
    {
      var config := rules.config(e);
      if config.None? {
        return Err(Invalid(OutletRefused));
      }
      ghost var a := Accepted(Kept().(outlet := config), [OutletSet(e)]);
      r := Seal(OutletSet(e), m, Action.RecordOutlet(e), a);
      if r.Ok? {
        outlet := config;
      }
    }

    /**
     One sync round. `pushed` is whether its push half, which comes first, went through: where it did not, the
     round ends there. Then a page of pulled events is stored and, if it brought anything, the sales are
     rebuilt from the whole table.
     */
    method Sync(pushed: bool, page: seq<Envelope<Payload>>, works: nat) returns (complete: bool)
      requires Valid()
      modifies this, store
      ensures Valid()
      ensures Now() == if pushed then Pull(rules, old(Now()), page, works) else old(Now())
      ensures complete <==> pushed && Pulled(rules, old(store.rows), page, works).1
    {
      if !pushed {
        return false;
      }
      ghost var before := store.rows;
      var applied, left := false, works;
      var i := 0;
      while i < |page|
        invariant 0 <= i <= |page| && Valid()
        invariant Pulled(rules, before, page, works) == Pulled(rules, store.rows, page[i..], left)
        invariant applied <==> store.rows != before
        invariant |store.rows| >= |before|
        modifies store
      {
        if Verify(rules.digest, page[i]).Err? {
          return false;
        }
        assert page[i..][1..] == page[i + 1..];
        var inserted := store.InsertRemote(page[i], left > 0);
        if inserted.Err? {
          return false;
        }
        applied, left := applied || inserted.value, left - 1;
        i := i + 1;
      }
      if left == 0 {
        return false;
      }
      if applied {
        book := RebuildSales(rules, ProjectionInput(store.rows));
      }
      return true;
    }
  }

  method RebuildSales(rules: Rules, events: seq<Envelope<Payload>>) returns (book: SB.Book<Sale, SaleEvent>)
    ensures fresh(book) && book.machine == rules.sales && book.sales == SalesOf(rules, events)
  {
    book := new SB.Book.Of(rules.sales, map[]);
    var i := 0;
    while i < |events|
      invariant 0 <= i <= |events| && fresh(book) && book.machine == rules.sales
      invariant book.sales == SalesOf(rules, events[..i])
    {
      assert events[..i + 1][..i] == events[..i];
      if events[i].payload.SaleRecorded? {
        var _ := book.Apply(events[i].payload.sale);
      }
      i := i + 1;
    }
    assert events[..i] == events;
  }

  /** Verify the own log, rebuild every projection in one pass, and resume both chains. */
  method LoadTerminal(rules: Rules, store: EventStore<Payload>) returns (r: Result<Terminal, Refusal>)
    ensures r.Ok? ==>
              && fresh(r.value) && r.value.Valid() && r.value.store == store && r.value.rules == rules
              && Load(rules, store.rows) == Ok(r.value.Now())
    ensures r.Err? ==> Load(rules, store.rows) == Err(r.error)
  {
    var own := LoadAll(store.rows);
    if own != [] && (own[0].deviceSeq != 1 || own[0].prevHash != GENESIS_HASH) {
      return Err(CorruptLog(NotGenesis(own[0].deviceSeq, own[0].prevHash)));
    }
    var verified := CheckChain(rules.digest, own, GENESIS);
    if verified.Err? {
      return Err(CorruptLog(verified.error));
    }
    var book, stock, staff, gathered := GatherInPlace(rules, ProjectionInput(store.rows));
    if gathered.Err? {
      return Err(Invalid(gathered.error));
    }
    var settled := Settle(gathered.value);
    if settled.Err? {
      return Err(Invalid(settled.error));
    }
    var tip := store.Tip(rules.device);
    var terminal := new Terminal.Over(rules, store, tip, book, stock, staff, settled.value);
    return Ok(terminal);
  }

  lemma GatherNext(rules: Rules, stored: seq<Envelope<Payload>>, i: nat, g: Gathered)
    requires i < |stored| && Gather(rules, stored[..i]) == Ok(g)
    ensures Gather(rules, stored[..i + 1]) == Project(rules, g, stored[i].payload)
  {
    assert stored[..i + 1][..i] == stored[..i];
  }

  /** The loading loop, over a book, a stock and a directory that it fills in place. */
  method GatherInPlace(rules: Rules, stored: seq<Envelope<Payload>>)
    returns (book: SB.Book<Sale, SaleEvent>, stock: IB.InventoryBook, staff: Staff.Directory,
             r: Result<Gathered, TillError>)
    ensures fresh(book) && fresh(stock) && fresh(staff) && book.machine == rules.sales
    ensures r == Gather(rules, stored)
    ensures r.Ok? ==> Holds(r.value, book, stock, staff)
  {
    book := new SB.Book.Of(rules.sales, map[]);
    stock := new IB.InventoryBook.Of(IB.EMPTY);
    staff := new Staff.Directory.Of(map[]);
    var gathered := Nothing(rules);
    var i := 0;
    while i < |stored|
      invariant 0 <= i <= |stored| && fresh(book) && fresh(stock) && fresh(staff) && book.machine == rules.sales
      invariant Gather(rules, stored[..i]) == Ok(gathered) && Holds(gathered, book, stock, staff)
    {
      GatherNext(rules, stored, i, gathered);
      var taken := TakeIn(rules, gathered, book, stock, staff, stored[i].payload);
      if taken.Err? {
        GatherPrefixFails(rules, stored, i + 1);
        return book, stock, staff, taken;
      }
      gathered := taken.value;
      i := i + 1;
    }
    assert stored[..i] == stored;
    return book, stock, staff, Ok(gathered);
  }

  /** The objects hold what has been gathered of their kind. */
  ghost predicate Holds(
    g: Gathered, book: SB.Book<Sale, SaleEvent>, stock: IB.InventoryBook, staff: Staff.Directory)
    reads book, stock, staff
  {
    book.sales == g.sales && stock.State() == g.stock && staff.members == g.staff
  }

  /** One turn of the loop: the event goes to its book, or into what is settled at the end. */
  method TakeIn(rules: Rules, g: Gathered, book: SB.Book<Sale, SaleEvent>, stock: IB.InventoryBook,
                staff: Staff.Directory, p: Payload) returns (r: Result<Gathered, TillError>)
    requires book.machine == rules.sales && Holds(g, book, stock, staff)
    modifies book, stock, staff
    ensures r == Project(rules, g, p)
    ensures r.Ok? ==> Holds(r.value, book, stock, staff)
  {
    match p {
      case SaleRecorded(e) =>
        var _ := book.Apply(e);
        return Ok(g.(sales := book.sales));
      case ShiftRecorded(e) =>
        return Ok(g.(shifts := g.shifts + [e]));
      case StockMoved(e) =>
        var applied := stock.Apply(e);
        if applied.Err? {
          return Err(StockRefused(applied.error));
        }
        return Ok(g.(stock := stock.State()));
      case StaffChanged(e) =>
        var changed := staff.Apply(e);
        if changed.Err? {
          return Err(StaffRefused(changed.error));
        }
        return Ok(g.(staff := staff.members));
      case CatalogueEdited(e) =>
        return Ok(g.(catalogue := rules.catalogue(g.catalogue, e).state));
      case FloorEdited(e) =>
        return Ok(g.(floor := rules.floor(g.floor, e).state));
      case OutletSet(e) =>
        var config := rules.config(e);
        if config.None? {
          return Ok(g);
        }
        return Ok(g.(outlet := config));
      case InvoiceIssued(invoice, _, _, _) =>
        if invoice.deviceId != rules.device {
          return Ok(g);
        }
        return Ok(g.(fiscal := invoice.Tip()));
      case Purchased(e) =>
        return Ok(g.(purchases := g.purchases[e.orderId := PurchasesOf(g.purchases, e.orderId) + [e]]));
      case Unreadable =>
        return Ok(g);
    }
  }
}
