/**
 Where every row of a till's table came from, over whole runs: the own events from actions the till accepted,
 each at its time and for its reason; the others from pulled pages, each verified.
 */
module Origins {
  import opened Base
  import opened EventLog
  import opened FiscalLedger
  import opened EventStore
  import opened TillBooks
  import opened Till
  import opened Acceptance
  import Invoices

  type Event = Envelope<Payload>

  // ---------- own events ----------

  /** Step `n` is an action that was accepted and stored, and the event is one of those it stored. */
  ghost predicate StoredBy(r: Rules, steps: seq<Step>, n: nat, x: Event)
  {
    && n < |steps| && steps[n].Act? && Run(r, steps[..n]).Ok?
    && var after := Perform(r, Run(r, steps[..n]).value, steps[n].action, steps[n].moment);
    && after.result.Ok? && x in after.result.value
  }

  lemma StoredByMore(r: Rules, steps: seq<Step>, m: nat, n: nat, x: Event)
    requires m <= |steps| && StoredBy(r, steps[..m], n, x)
    ensures StoredBy(r, steps, n, x)
  {
    assert steps[..m][..n] == steps[..n];
  }

  lemma ActionStores(r: Rules, t: State, action: Action, m: Moment, x: Event)
    requires LogIntact(r, t) && x in Own(Perform(r, t, action, m).state.rows) && x !in Own(t.rows)
    ensures Perform(r, t, action, m).result.Ok? && x in Perform(r, t, action, m).result.value
  {
    if Accept(r, t.books, action, m.at).Ok? {
      AcceptedWritesSomething(r, t.books, action, m.at);
      WriteKeepsLog(r, t, Accept(r, t.books, action, m.at).value, m);
    }
  }

  lemma OthersStoreNothing(r: Rules, t: State, step: Step, after: State)
    requires LogIntact(r, t) && !step.Act? && Next(r, t, step) == Ok(after)
    requires step.PullPage? ==> FromSiblings(r, step.page)
    ensures Own(after.rows) == Own(t.rows)
  {
    if step.PullPage? {
      PulledKeepsLog(r, t.rows, step.page, step.works);
    } else {
      LoadIsInStep(r, t.rows);
    }
  }

  /** Every own event of a reachable table was stored by an action of the run. */
  lemma {:induction false} EveryOwnEventWasStored(r: Rules, steps: seq<Step>, t: State, x: Event) returns (n: nat)
    requires PullsAreFromSiblings(r, steps) && Run(r, steps) == Ok(t) && x in Own(t.rows)
    ensures StoredBy(r, steps, n, x)
  {
    if steps == [] {
      FirstBootSucceeds(r);
      assert false;
    }
    var last := |steps| - 1;
    var before := Run(r, steps[..last]).value;
    EveryRunKeepsTheLog(r, steps[..last]);
    if x in Own(before.rows) {
      n := EveryOwnEventWasStored(r, steps[..last], before, x);
      StoredByMore(r, steps, last, n, x);
    } else {
      n := last;
      if steps[last].Act? {
        ActionStores(r, before, steps[last].action, steps[last].moment, x);
      } else {
        OthersStoreNothing(r, before, steps[last], t);
      }
    }
  }

  /** What a stored event is, by the action that stored it. */
  lemma StoredIsAccepted(r: Rules, t: State, action: Action, m: Moment, after: Attempt, x: Event)
    returns (a: Accepted)
    requires LogIntact(r, t) && after == Perform(r, t, action, m) && after.result.Ok? && x in after.result.value
    ensures Accept(r, t.books, action, m.at) == Ok(a) && x.payload in a.payloads && x.header.occurredAt == m.at
  {
    a := AcceptedBy(r, t, action, m, after);
    AcceptedWritesSomething(r, t.books, action, m.at);
    WriteKeepsLog(r, t, a, m);
    var k :| 0 <= k < |after.result.value| && after.result.value[k] == x;
    assert PayloadsOf(after.result.value)[k] == x.payload;
    Invoices.SealedAtTheMoment(r, t.tip, m, 0, a.payloads, k);
  }

  // ---------- sales: nobody's ticket was written to ----------

  /** The books of step `n` let the sale event be written: no other device held its ticket, and the sale took it. */
  ghost predicate WasAllowed(r: Rules, steps: seq<Step>, n: nat, x: Event)
    requires x.payload.SaleRecorded?
  {
    && StoredBy(r, steps, n, x)
    && x.header.occurredAt == steps[n].moment.at
    && var books := Run(r, steps[..n]).value.books;
    && !HeldElsewhere(r, books, x.payload.sale, x.header.occurredAt)
    && SaleTakes(r, books, x.payload.sale)
  }

  lemma AcceptedSaleWasAllowed(r: Rules, b: Books, action: Action, at: I64, a: Accepted, e: SaleEvent)
    requires Accept(r, b, action, at) == Ok(a) && SaleRecorded(e) in a.payloads
    ensures !HeldElsewhere(r, b, e, at) && SaleTakes(r, b, e)
  {
    match action {
      case RecordSale(sale) => SaleIsAcceptedExactly(r, b, sale, at);
      case CompleteSale(sale, regime, issuedBy) =>
        CompletionIsAcceptedExactly(r, b, sale, regime, issuedBy, at);
        CompletionIssuesWhatWasAsked(r, b, sale, regime, issuedBy, at, a);
      case _ =>
        OtherPayloads(r, b, action, at, a);
    }
  }

  lemma OtherPayloads(r: Rules, b: Books, action: Action, at: I64, a: Accepted)
    requires Accept(r, b, action, at) == Ok(a) && !action.RecordSale? && !action.CompleteSale?
    ensures forall p :: p in a.payloads ==> !p.SaleRecorded? && !p.InvoiceIssued?
  {
  }

  /**
   Over any run: each sale event the till ever stored of its own was an opening or a claim, or met no other
   device holding the ticket at its time; and the sale took it.
   */
  lemma EveryStoredSaleWasAllowed(r: Rules, steps: seq<Step>, t: State, x: Event) returns (n: nat)
    requires PullsAreFromSiblings(r, steps) && Run(r, steps) == Ok(t)
    requires x in Own(t.rows) && x.payload.SaleRecorded?
    ensures WasAllowed(r, steps, n, x)
  {
    n := EveryOwnEventWasStored(r, steps, t, x);
    var before, m := Run(r, steps[..n]).value, steps[n].moment;
    LogBeforeStep(r, steps, n);
    var a := StoredIsAccepted(r, before, steps[n].action, m, Perform(r, before, steps[n].action, m), x);
    AcceptedSaleWasAllowed(r, before.books, steps[n].action, m.at, a, x.payload.sale);
  }

  lemma LogBeforeStep(r: Rules, steps: seq<Step>, n: nat)
    requires PullsAreFromSiblings(r, steps) && n <= |steps| && Run(r, steps[..n]).Ok?
    ensures LogIntact(r, Run(r, steps[..n]).value)
  {
    EveryRunKeepsTheLog(r, steps[..n]);
  }

  // ---------- invoices: what they say ----------

  /** Step `n` completed the sale that the invoice is of, and the invoice says what was asked for then. */
  ghost predicate WasAskedFor(r: Rules, steps: seq<Step>, n: nat, x: Event)
    requires x.payload.InvoiceIssued?
  {
    && StoredBy(r, steps, n, x) && steps[n].action.CompleteSale?
    && var action, issued := steps[n].action, x.payload;
    && x.header.occurredAt == steps[n].moment.at
    && issued.invoice.issuedAt == issued.at == x.header.occurredAt
    && issued.invoice.deviceId == r.device && issued.invoice.saleId == r.sales.saleId(action.sale)
    && issued.issuedBy == action.issuedBy && issued.content.regime == action.regime
    && var books := Run(r, steps[..n]).value.books;
    && SaleTakes(r, books, action.sale)
    && r.totals(SaleAfter(r, books, action.sale)) == Some(issued.content.totals)
  }

  lemma AcceptedInvoiceWasAskedFor(r: Rules, b: Books, action: Action, at: I64, a: Accepted, p: Payload)
    requires Accept(r, b, action, at) == Ok(a) && p in a.payloads && p.InvoiceIssued?
    ensures action.CompleteSale?
    ensures p.invoice.issuedAt == p.at == at
    ensures p.invoice.deviceId == r.device && p.invoice.saleId == r.sales.saleId(action.sale)
    ensures p.issuedBy == action.issuedBy && p.content.regime == action.regime
    ensures SaleTakes(r, b, action.sale) && r.totals(SaleAfter(r, b, action.sale)) == Some(p.content.totals)
  {
    match action {
      case CompleteSale(sale, regime, issuedBy) =>
        CompletionIssuesWhatWasAsked(r, b, sale, regime, issuedBy, at, a);
        assert p == a.payloads[1];
      case RecordSale(sale) => SaleIsAcceptedExactly(r, b, sale, at);
      case _ =>
        OtherPayloads(r, b, action, at, a);
    }
  }

  /**
   Over any run: each invoice the till stored of its own is dated by the clock of its event, and is of the
   sale that was completed then, in the regime, by the person and over the totals of that completion.
   */
  lemma EveryStoredInvoiceWasAskedFor(r: Rules, steps: seq<Step>, t: State, x: Event) returns (n: nat)
    requires PullsAreFromSiblings(r, steps) && Run(r, steps) == Ok(t)
    requires x in Own(t.rows) && x.payload.InvoiceIssued?
    ensures WasAskedFor(r, steps, n, x)
  {
    n := EveryOwnEventWasStored(r, steps, t, x);
    var before, m := Run(r, steps[..n]).value, steps[n].moment;
    LogBeforeStep(r, steps, n);
    var a := StoredIsAccepted(r, before, steps[n].action, m, Perform(r, before, steps[n].action, m), x);
    AcceptedInvoiceWasAskedFor(r, before.books, steps[n].action, m.at, a, x.payload);
  }

  // ---------- pulled events ----------

  /** A row of another device, its seal verified, with a sequence the column holds. */
  predicate IsSound(r: Rules, row: Row<Payload>)
  {
    && row.event.header.deviceId != r.device && Verify(r.digest, row.event).Ok? && row.event.deviceSeq <= I64_MAX
  }

  /** Every pulled row is sound, and no two rows share an id or a place in a device's chain. */
  ghost predicate TableIsSound(r: Rules, rows: seq<Row<Payload>>)
  {
    && (forall i :: 0 <= i < |rows| && rows[i].origin.Remote? ==> IsSound(r, rows[i]))
    && (forall i, j :: 0 <= i < j < |rows| ==> Apart(rows[i].event, rows[j].event))
  }

  predicate Apart(a: Event, b: Event)
  {
    && a.header.eventId != b.header.eventId
    && !(a.header.deviceId == b.header.deviceId && a.deviceSeq == b.deviceSeq)
  }

  lemma OneMoreRow(r: Rules, rows: seq<Row<Payload>>, row: Row<Payload>)
    requires TableIsSound(r, rows) && !Clashes(rows, row.event) && (row.origin.Remote? ==> IsSound(r, row))
    ensures TableIsSound(r, rows + [row])
  {
    forall i | 0 <= i < |rows| ensures Apart(rows[i].event, row.event) {
      assert !SamePlace(rows[i].event, row.event);
    }
  }

  lemma RemoteIsSound(r: Rules, rows: seq<Row<Payload>>, e: Event)
    requires TableIsSound(r, rows) && IsSound(r, Row(e, Remote))
    ensures TableIsSound(r, WithRemote(rows, e))
  {
    if !Clashes(rows, e) {
      OneMoreRow(r, rows, Row(e, Remote));
    }
  }

  lemma {:induction false} PulledIsSound(r: Rules, rows: seq<Row<Payload>>, page: seq<Event>, works: nat)
    requires TableIsSound(r, rows) && FromSiblings(r, page)
    ensures TableIsSound(r, Pulled(r, rows, page, works).0)
    decreases |page|
  {
    if page != [] && Verify(r.digest, page[0]).Ok? && InsertRemoteInto(rows, page[0], works > 0).Ok? {
      RemoteIsSound(r, rows, page[0]);
      PulledIsSound(r, WithRemote(rows, page[0]), page[1..], works - 1);
    }
  }

  lemma {:induction false} AppendedIsSound(r: Rules, rows: seq<Row<Payload>>, events: seq<Event>, disk: bool)
    requires TableIsSound(r, rows) && AppendAllTo(rows, events, disk).Ok?
    ensures TableIsSound(r, AppendAllTo(rows, events, disk).value)
    decreases |events|
  {
    if events != [] {
      OneMoreRow(r, rows, Row(events[0], Local));
      AppendedIsSound(r, rows + [Row(events[0], Local)], events[1..], disk);
    }
  }

  lemma NextIsSound(r: Rules, t: State, step: Step, after: State)
    requires LogIntact(r, t) && TableIsSound(r, t.rows) && Next(r, t, step) == Ok(after)
    requires step.PullPage? ==> FromSiblings(r, step.page)
    ensures TableIsSound(r, after.rows)
  {
    match step {
      case Act(action, m) =>
        if Perform(r, t, action, m).result.Ok? {
          var a := AcceptedBy(r, t, action, m, Perform(r, t, action, m));
          AppendedIsSound(r, t.rows, Perform(r, t, action, m).result.value, m.disk);
        } else {
          RefusedKeepsRows(r, t, action, m);
        }
      case PullPage(page, works) => PulledIsSound(r, t.rows, page, works);
      case Restart => LoadIsInStep(r, t.rows);
    }
  }

  lemma RefusedKeepsRows(r: Rules, t: State, action: Action, m: Moment)
    requires Perform(r, t, action, m).result.Err?
    ensures Perform(r, t, action, m).state.rows == t.rows
  {
  }

  /** Over any run: nothing that does not verify is ever in the table, and nothing is in it twice. */
  lemma {:induction false} EveryTableIsSound(r: Rules, steps: seq<Step>, t: State)
    requires PullsAreFromSiblings(r, steps) && Run(r, steps) == Ok(t)
    ensures TableIsSound(r, t.rows)
  {
    if steps == [] {
      FirstBootSucceeds(r);
    } else {
      var n := |steps| - 1;
      var before := Run(r, steps[..n]).value;
      EveryTableIsSound(r, steps[..n], before);
      EveryRunKeepsTheLog(r, steps[..n]);
      NextIsSound(r, before, steps[n], t);
    }
  }
}
