/**
 Invoice numbers over a till's whole life: gap-free, and what a restart must find for them to stay so.

 A restart takes the sequence up again from the own invoice it reads last, by clock and id. That is the
 newest one only if no other invoice has a greater clock and id.
 */
module Invoices {
  import opened Base
  import opened Sorting
  import opened EventLog
  import opened FiscalLedger
  import opened EventStore
  import opened TillBooks
  import opened Till
  import Restart

  /** The invoices among some events, in their order. */
  function InvoicesIn(payloads: seq<Payload>): seq<Issued<InvoiceContent>>
  {
    if payloads == [] then []
    else
      var last := payloads[|payloads| - 1];
      InvoicesIn(payloads[..|payloads| - 1])
      + if last.InvoiceIssued? then [Issued(last.invoice, last.content)] else []
  }

  /** Every invoice in this device's stored log. */
  function Stored(rows: seq<Row<Payload>>): seq<Issued<InvoiceContent>>
  {
    InvoicesIn(PayloadsOf(Own(rows)))
  }

  predicate IsOwnInvoice(r: Rules, e: Envelope<Payload>)
  {
    e.payload.InvoiceIssued? && e.payload.invoice.deviceId == r.device
  }

  /** Invoices name the device that stored them as its own, and no other row does. */
  ghost predicate InvoicesNameTheirDevice(r: Rules, rows: seq<Row<Payload>>)
  {
    forall i :: 0 <= i < |rows| && rows[i].event.payload.InvoiceIssued? ==>
                  (IsOwnInvoice(r, rows[i].event) <==> rows[i].origin.Local?)
  }

  /** Gap-free: numbered 1, 2, 3 and so on, each linked to the one before, none altered. */
  ghost predicate GapFree(r: Rules, rows: seq<Row<Payload>>)
  {
    InvoicesChained(r.sealDigest, Stored(rows), FISCAL_GENESIS)
  }

  ghost predicate FiscalIntact(r: Rules, t: State)
  {
    && GapFree(r, t.rows)
    && InvoicesNameTheirDevice(r, t.rows)
    && t.books.fiscal == LastTip(Stored(t.rows), FISCAL_GENESIS)
  }

  // ---------- acting ----------

  lemma {:induction false} InvoicesAppend(p: seq<Payload>, q: seq<Payload>)
    ensures InvoicesIn(p + q) == InvoicesIn(p) + InvoicesIn(q)
  {
    if q == [] {
      assert p + q == p;
    } else {
      var n := |q| - 1;
      InvoicesAppend(p, q[..n]);
      assert (p + q)[..|p + q| - 1] == p + q[..n];
    }
  }

  /** An accepted action issues at most one invoice, and it is the next of the sequence. */
  ghost predicate ContinuesTheSequence(r: Rules, before: Books, a: Accepted)
  {
    && InvoicesChained(r.sealDigest, InvoicesIn(a.payloads), before.fiscal)
    && a.books.fiscal == LastTip(InvoicesIn(a.payloads), before.fiscal)
    && (forall i :: 0 <= i < |a.payloads| && a.payloads[i].InvoiceIssued? ==>
          a.payloads[i].invoice.deviceId == r.device)
  }

  lemma OnlyCompletionIssues(r: Rules, b: Books, action: Action, at: I64)
    requires Accept(r, b, action, at).Ok? && !action.CompleteSale?
    ensures InvoicesIn(Accept(r, b, action, at).value.payloads) == []
    ensures Accept(r, b, action, at).value.books.fiscal == b.fiscal
  {
    var p := Accept(r, b, action, at).value.payloads;
    assert |p| <= 2;
    assert InvoicesIn([]) == [];
    if |p| == 2 {
      assert p[..1] == [p[0]] && p[..1][..0] == [];
    }
  }

  lemma CompletionIssuesTheNext(r: Rules, b: Books, e: SaleEvent, regime: string, issuedBy: Uuid, at: I64)
    requires AcceptCompletion(r, b, e, regime, issuedBy, at).Ok?
    ensures var a := AcceptCompletion(r, b, e, regime, issuedBy, at).value;
            && |a.payloads| == 2 && a.payloads[1].InvoiceIssued?
            && a.payloads[1].invoice.counter == b.fiscal.counter + 1
            && ContinuesTheSequence(r, b, a)
  {
    var p := AcceptCompletion(r, b, e, regime, issuedBy, at).value.payloads;
    assert p[..1] == [p[0]] && p[..1][..0] == [];
    assert InvoicesIn([]) == [] && InvoicesIn(p[..1]) == [];
  }

  lemma AcceptedContinuesTheSequence(r: Rules, b: Books, action: Action, at: I64)
    requires Accept(r, b, action, at).Ok?
    ensures ContinuesTheSequence(r, b, Accept(r, b, action, at).value)
  {
    match action {
      case CompleteSale(e, regime, issuedBy) => CompletionIssuesTheNext(r, b, e, regime, issuedBy, at);
      case _ =>
        OnlyCompletionIssues(r, b, action, at);
    }
  }

  /** Events whose invoices are this device's. */
  ghost predicate IssueForThisDevice(r: Rules, events: seq<Envelope<Payload>>)
  {
    forall i :: 0 <= i < |events| && events[i].payload.InvoiceIssued? ==> IsOwnInvoice(r, events[i])
  }

  lemma AppendNamesTheDevice(r: Rules, rows: seq<Row<Payload>>, e: Envelope<Payload>)
    requires InvoicesNameTheirDevice(r, rows) && (e.payload.InvoiceIssued? ==> IsOwnInvoice(r, e))
    ensures InvoicesNameTheirDevice(r, rows + [Row(e, Local)])
  {
  }

  lemma {:induction false} AppendAllNamesTheDevice(
    r: Rules, rows: seq<Row<Payload>>, events: seq<Envelope<Payload>>, disk: bool)
    requires InvoicesNameTheirDevice(r, rows) && IssueForThisDevice(r, events)
    requires AppendAllTo(rows, events, disk).Ok?
    ensures InvoicesNameTheirDevice(r, AppendAllTo(rows, events, disk).value)
    decreases |events|
  {
    if events != [] {
      var next, rest := rows + [Row(events[0], Local)], events[1..];
      assert AppendTo(rows, events[0], disk) == Ok(next);
      AppendNamesTheDevice(r, rows, events[0]);
      assert IssueForThisDevice(r, rest) by {
        assert forall i :: 0 <= i < |rest| ==> rest[i] == events[i + 1];
      }
      AppendAllNamesTheDevice(r, next, rest, disk);
    }
  }

  lemma StoredGrows(before: seq<Row<Payload>>, after: seq<Row<Payload>>, events: seq<Envelope<Payload>>)
    requires Own(after) == Own(before) + events
    ensures Stored(after) == Stored(before) + InvoicesIn(PayloadsOf(events))
  {
    PayloadsAppend(Own(before), events);
    InvoicesAppend(PayloadsOf(Own(before)), PayloadsOf(events));
  }

  lemma WriteKeepsFiscal(r: Rules, t: State, a: Accepted, m: Moment)
    requires LogIntact(r, t) && FiscalIntact(r, t) && a.payloads != []
    requires ContinuesTheSequence(r, t.books, a)
    ensures FiscalIntact(r, Write(r, t, a, m).state)
  {
    var after := Write(r, t, a, m);
    WriteKeepsLog(r, t, a, m);
    if after.result.Ok? {
      var events := after.result.value;
      StoredGrows(t.rows, after.state.rows, events);
      InvoicesExtend(r.sealDigest, Stored(t.rows), FISCAL_GENESIS, InvoicesIn(a.payloads));
      WrittenNamesTheDevice(r, t, a, m);
    }
  }

  lemma WrittenNamesTheDevice(r: Rules, t: State, a: Accepted, m: Moment)
    requires InvoicesNameTheirDevice(r, t.rows) && ContinuesTheSequence(r, t.books, a)
    requires Write(r, t, a, m).result.Ok?
    ensures InvoicesNameTheirDevice(r, Write(r, t, a, m).state.rows)
  {
    var events := Write(r, t, a, m).result.value;
    SealAllKeepsPayloads(r, t.tip, m, 0, a.payloads);
    assert forall i :: 0 <= i < |events| ==> events[i].payload == PayloadsOf(events)[i];
    AppendAllNamesTheDevice(r, t.rows, events, m.disk);
  }

  lemma PerformKeepsFiscal(r: Rules, t: State, action: Action, m: Moment)
    requires LogIntact(r, t) && FiscalIntact(r, t)
    ensures FiscalIntact(r, Perform(r, t, action, m).state)
  {
    if Accept(r, t.books, action, m.at).Ok? {
      AcceptedWritesSomething(r, t.books, action, m.at);
      AcceptedContinuesTheSequence(r, t.books, action, m.at);
      WriteKeepsFiscal(r, t, Accept(r, t.books, action, m.at).value, m);
    }
  }

  // ---------- pulling ----------

  /** A sibling's events, none of them an invoice of this device's sequence. */
  predicate SealedBySiblings(r: Rules, page: seq<Envelope<Payload>>)
  {
    FromSiblings(r, page) && forall i :: 0 <= i < |page| ==> !IsOwnInvoice(r, page[i])
  }

  lemma {:induction false} PulledKeepsNames(
    r: Rules, rows: seq<Row<Payload>>, page: seq<Envelope<Payload>>, works: nat)
    requires InvoicesNameTheirDevice(r, rows) && SealedBySiblings(r, page)
    ensures InvoicesNameTheirDevice(r, Pulled(r, rows, page, works).0)
    decreases |page|
  {
    if page != [] && Verify(r.digest, page[0]).Ok? && InsertRemoteInto(rows, page[0], works > 0).Ok? {
      PulledKeepsNames(r, WithRemote(rows, page[0]), page[1..], works - 1);
    }
  }

  // ---------- restarting ----------

  /** The own invoice read last: the one the loading loop leaves the sequence at. */
  function LastOwn(r: Rules, events: seq<Envelope<Payload>>): Option<Envelope<Payload>>
  {
    if events == [] then None
    else
      var last := events[|events| - 1];
      if IsOwnInvoice(r, last) then Some(last) else LastOwn(r, events[..|events| - 1])
  }

  function FiscalAt(last: Option<Envelope<Payload>>): FiscalTip
    requires last.Some? ==> last.value.payload.InvoiceIssued?
  {
    if last.None? then FISCAL_GENESIS else last.value.payload.invoice.Tip()
  }

  /** No own invoice happened after the one written last. */
  ghost predicate NewestInvoiceIsLatest(r: Rules, rows: seq<Row<Payload>>)
  {
    var last := LastOwn(r, Own(rows));
    forall x :: last.Some? && x in Own(rows) && IsOwnInvoice(r, x) ==> KeyLe(x, last.value)
  }

  lemma {:induction false} LastOwnMeans(r: Rules, events: seq<Envelope<Payload>>)
    ensures LastOwn(r, events).None? ==> forall x :: x in events ==> !IsOwnInvoice(r, x)
    ensures LastOwn(r, events).Some? ==> LastOwn(r, events).value in events && IsOwnInvoice(r, LastOwn(r, events).value)
    ensures LastOwn(r, events).Some? ==>
              exists n :: 0 <= n < |events| && events[n] == LastOwn(r, events).value
                          && forall j :: n < j < |events| ==> !IsOwnInvoice(r, events[j])
  {
    if events != [] {
      var n := |events| - 1;
      if !IsOwnInvoice(r, events[n]) {
        LastOwnMeans(r, events[..n]);
        assert events == events[..n] + [events[n]];
        if LastOwn(r, events).Some? {
          var k :| 0 <= k < n && events[..n][k] == LastOwn(r, events).value
                   && forall j :: k < j < n ==> !IsOwnInvoice(r, events[..n][j]);
          assert forall j :: k < j < n ==> events[..n][j] == events[j];
        }
      }
    }
  }

  lemma {:induction false} GatheredFiscal(r: Rules, events: seq<Envelope<Payload>>)
    requires Gather(r, events).Ok?
    ensures LastOwn(r, events).Some? ==> LastOwn(r, events).value.payload.InvoiceIssued?
    ensures Gather(r, events).value.fiscal == FiscalAt(LastOwn(r, events))
  {
    if events != [] {
      GatheredFiscal(r, events[..|events| - 1]);
    }
  }

  /** In clock order the own invoice read last is the greatest by key. */
  lemma LastReadIsGreatest(r: Rules, events: seq<Envelope<Payload>>, x: Envelope<Payload>)
    requires Sorted<Envelope<Payload>>(KeyLe, events) && x in events && IsOwnInvoice(r, x)
    ensures LastOwn(r, events).Some? && KeyLe(x, LastOwn(r, events).value)
  {
    LastOwnMeans(r, events);
    var i :| 0 <= i < |events| && events[i] == x;
    var n :| 0 <= n < |events| && events[n] == LastOwn(r, events).value
             && forall j :: n < j < |events| ==> !IsOwnInvoice(r, events[j]);
    assert i <= n;
  }

  /** The own invoices of the table are the own invoices of the log. */
  lemma {:induction false} OwnInvoicesAreLogged(r: Rules, rows: seq<Row<Payload>>, x: Envelope<Payload>)
    requires InvoicesNameTheirDevice(r, rows) && IsOwnInvoice(r, x)
    ensures x in Events(rows) <==> x in Own(rows)
  {
    if rows != [] {
      var n := |rows| - 1;
      OwnInvoicesAreLogged(r, rows[..n], x);
      assert Events(rows) == Events(rows[..n]) + [rows[n].event];
    }
  }

  /** A restart and the log agree on the newest invoice exactly when it also happened last. */
  lemma RestartFindsTheNewest(r: Rules, rows: seq<Row<Payload>>)
    requires DistinctIds(rows) && InvoicesNameTheirDevice(r, rows)
    ensures LastOwn(r, ProjectionInput(rows)) == LastOwn(r, Own(rows)) <==> NewestInvoiceIsLatest(r, rows)
    ensures LastOwn(r, ProjectionInput(rows)).Some? <==> LastOwn(r, Own(rows)).Some?
    ensures LastOwn(r, ProjectionInput(rows)).Some? ==> LastOwn(r, ProjectionInput(rows)).value in Own(rows)
  {
    OrdersAreTotal<Payload>();
    var read, own := ProjectionInput(rows), Own(rows);
    SameElements(read, Events(rows));
    LastOwnMeans(r, read);
    LastOwnMeans(r, own);
    forall x | IsOwnInvoice(r, x) ensures x in read <==> x in own {
      OwnInvoicesAreLogged(r, rows, x);
    }
    forall x | x in own && IsOwnInvoice(r, x)
      ensures LastOwn(r, read).Some? && KeyLe(x, LastOwn(r, read).value)
    {
      LastReadIsGreatest(r, read, x);
    }
    if LastOwn(r, own).Some? && NewestInvoiceIsLatest(r, rows) {
      KeysIdentifyRows(rows);
      assert KeyLe(LastOwn(r, read).value, LastOwn(r, own).value);
    }
  }

  // ---------- from the newest event to the newest number ----------

  /** The invoice of event `i` stands right after the invoices of the events before it. */
  lemma {:induction false} InvoicePlace(p: seq<Payload>, i: nat)
    requires i < |p| && p[i].InvoiceIssued?
    ensures |InvoicesIn(p[..i])| < |InvoicesIn(p)|
    ensures InvoicesIn(p)[|InvoicesIn(p[..i])|] == Issued(p[i].invoice, p[i].content)
  {
    var n := |p| - 1;
    if i < n {
      InvoicePlace(p[..n], i);
      assert p[..n][..i] == p[..i];
    }
  }

  lemma {:induction false} NoInvoicesAfter(p: seq<Payload>, n: nat)
    requires n <= |p| && forall j :: n <= j < |p| ==> !p[j].InvoiceIssued?
    ensures InvoicesIn(p) == InvoicesIn(p[..n])
  {
    if n == |p| {
      assert p[..n] == p;
    } else {
      assert p[..|p| - 1][..n] == p[..n];
      NoInvoicesAfter(p[..|p| - 1], n);
    }
  }

  lemma OwnEventsNameTheDevice(r: Rules, rows: seq<Row<Payload>>, k: nat)
    requires InvoicesNameTheirDevice(r, rows) && k < |Own(rows)| && Own(rows)[k].payload.InvoiceIssued?
    ensures IsOwnInvoice(r, Own(rows)[k])
  {
    OwnIsFromRows(rows, k);
  }

  /** How many invoices stand before event `i` of the log. */
  function Before(rows: seq<Row<Payload>>, i: nat): nat
    requires i <= |Own(rows)|
  {
    |InvoicesIn(PayloadsOf(Own(rows))[..i])|
  }

  /** The invoice of event `i` is numbered one above the invoices before it. */
  lemma NumberAt(r: Rules, rows: seq<Row<Payload>>, i: nat)
    requires GapFree(r, rows) && i < |Own(rows)| && Own(rows)[i].payload.InvoiceIssued?
    ensures Before(rows, i) < |Stored(rows)|
    ensures Own(rows)[i].payload.invoice.counter == Before(rows, i) + 1
    ensures Stored(rows)[Before(rows, i)].invoice == Own(rows)[i].payload.invoice
  {
    InvoicePlace(PayloadsOf(Own(rows)), i);
    assert IssuedInPlace(r.sealDigest, Stored(rows), FISCAL_GENESIS, Before(rows, i));
  }

  /** The last invoice of the log has all others before it. */
  lemma NewestNumber(r: Rules, rows: seq<Row<Payload>>, n: nat)
    requires InvoicesNameTheirDevice(r, rows) && n < |Own(rows)| && Own(rows)[n].payload.InvoiceIssued?
    requires forall j :: n < j < |Own(rows)| ==> !IsOwnInvoice(r, Own(rows)[j])
    ensures |Stored(rows)| == Before(rows, n) + 1
  {
    var p := PayloadsOf(Own(rows));
    forall j | n < j < |p| ensures !p[j].InvoiceIssued? {
      if p[j].InvoiceIssued? { OwnEventsNameTheDevice(r, rows, j); }
    }
    NoInvoicesAfter(p, n + 1);
    assert p[..n + 1][..n] == p[..n];
  }

  lemma EarlierIsFewer(rows: seq<Row<Payload>>, i: nat, n: nat)
    requires i < n <= |Own(rows)| && Own(rows)[i].payload.InvoiceIssued?
    ensures Before(rows, i) < Before(rows, n)
  {
    var p := PayloadsOf(Own(rows));
    InvoicePlace(p[..n], i);
    assert p[..n][..i] == p[..i];
  }

  /** Each stored own invoice carries a number from 1 to n, and the newest carries n. */
  lemma NumberOf(r: Rules, rows: seq<Row<Payload>>, x: Envelope<Payload>)
    requires GapFree(r, rows) && InvoicesNameTheirDevice(r, rows)
    requires x in Own(rows) && IsOwnInvoice(r, x)
    ensures 1 <= x.payload.invoice.counter <= |Stored(rows)|
    ensures LastOwn(r, Own(rows)) == Some(x) <==> x.payload.invoice.counter == |Stored(rows)|
    ensures LastOwn(r, Own(rows)) == Some(x) ==> LastTip(Stored(rows), FISCAL_GENESIS) == x.payload.invoice.Tip()
  {
    var own := Own(rows);
    LastOwnMeans(r, own);
    var n :| 0 <= n < |own| && own[n] == LastOwn(r, own).value
             && forall j :: n < j < |own| ==> !IsOwnInvoice(r, own[j]);
    var i :| 0 <= i < |own| && own[i] == x;
    NewestNumber(r, rows, n);
    NumberAt(r, rows, n);
    NumberAt(r, rows, i);
    if i < n {
      EarlierIsFewer(rows, i, n);
    }
  }

  lemma NothingStored(r: Rules, rows: seq<Row<Payload>>)
    requires InvoicesNameTheirDevice(r, rows) && LastOwn(r, Own(rows)).None?
    ensures Stored(rows) == []
  {
    LastOwnMeans(r, Own(rows));
    var p := PayloadsOf(Own(rows));
    forall j | 0 <= j < |p| ensures !p[j].InvoiceIssued? {
      if p[j].InvoiceIssued? { OwnEventsNameTheDevice(r, rows, j); }
    }
    NoInvoicesAfter(p, 0);
  }

  /**
   A restart takes up the sequence where it stopped exactly when the invoice written last is also the
   one that happened last; otherwise it falls back to an earlier number.
   */
  lemma RestartKeepsTheSequence(r: Rules, rows: seq<Row<Payload>>, t: State)
    requires DistinctIds(rows) && InvoicesNameTheirDevice(r, rows) && GapFree(r, rows)
    requires Load(r, rows) == Ok(t)
    ensures t.books.fiscal == LastTip(Stored(rows), FISCAL_GENESIS) <==> NewestInvoiceIsLatest(r, rows)
    ensures NewestInvoiceIsLatest(r, rows) || t.books.fiscal.counter < |Stored(rows)|
  {
    RestartFindsTheNewest(r, rows);
    GatheredFiscal(r, ProjectionInput(rows));
    var read, newest := LastOwn(r, ProjectionInput(rows)), LastOwn(r, Own(rows));
    LastTipCounts(r.sealDigest, Stored(rows), FISCAL_GENESIS);
    if newest.None? {
      NothingStored(r, rows);
    } else {
      LastOwnMeans(r, ProjectionInput(rows));
      LastOwnMeans(r, Own(rows));
      NumberOf(r, rows, read.value);
      NumberOf(r, rows, newest.value);
    }
  }

  /** A sale completed at a time before an invoice already stored is what upsets the condition. */
  lemma CompletingInThePast(
    r: Rules, t: State, e: SaleEvent, regime: string, issuedBy: Uuid, m: Moment, a: Accepted,
    earlier: Envelope<Payload>)
    requires LogIntact(r, t)
    requires AcceptCompletion(r, t.books, e, regime, issuedBy, m.at) == Ok(a) && Write(r, t, a, m).result.Ok?
    requires earlier in Own(t.rows) && IsOwnInvoice(r, earlier) && m.at < earlier.header.occurredAt
    ensures Perform(r, t, CompleteSale(e, regime, issuedBy), m) == Write(r, t, a, m)
    ensures !NewestInvoiceIsLatest(r, Write(r, t, a, m).state.rows)
  {
    var after := Write(r, t, a, m);
    WriteKeepsLog(r, t, a, m);
    CompletionIssuesTheNext(r, t.books, e, regime, issuedBy, m.at);
    var events := after.result.value;
    assert events[1].payload == a.payloads[1];
    var own := Own(after.state.rows);
    assert own[|own| - 1] == events[1];
    SealedAtTheMoment(r, t.tip, m, 0, a.payloads, 1);
    assert LastOwn(r, own) == Some(events[1]);
    assert !KeyLe(earlier, events[1]);
  }

  lemma {:induction false} SealedAtTheMoment(r: Rules, tip: ChainTip, m: Moment, k: nat, payloads: seq<Payload>, i: nat)
    requires i < |SealAll(r, tip, m, k, payloads).events|
    ensures SealAll(r, tip, m, k, payloads).events[i].header.occurredAt == m.at
    decreases |payloads|
  {
    var e := Appended(r.digest, r.device, tip, Header(r, m, k), payloads[0]).value;
    if i > 0 {
      SealedAtTheMoment(r, e.Tip(), m, k + 1, payloads[1..], i - 1);
    }
  }

  // ---------- whole runs ----------

  /** Pulls bring siblings' events, and each restart finds the newest invoice to be the latest. */
  ghost predicate CleanRun(r: Rules, steps: seq<Step>)
  {
    forall n :: 0 <= n < |steps| ==> CleanStep(r, steps[..n], steps[n])
  }

  ghost predicate CleanStep(r: Rules, before: seq<Step>, step: Step)
  {
    && (step.PullPage? ==> SealedBySiblings(r, step.page))
    && (step.Restart? && Run(r, before).Ok? ==> NewestInvoiceIsLatest(r, Run(r, before).value.rows))
  }

  lemma CleanRunPrefix(r: Rules, steps: seq<Step>)
    requires CleanRun(r, steps) && steps != []
    ensures CleanRun(r, steps[..|steps| - 1])
    ensures CleanStep(r, steps[..|steps| - 1], steps[|steps| - 1])
  {
    var before := steps[..|steps| - 1];
    forall n | 0 <= n < |before| ensures CleanStep(r, before[..n], before[n]) {
      assert before[..n] == steps[..n];
      assert CleanStep(r, steps[..n], steps[n]);
    }
  }

  lemma PullKeepsFiscal(r: Rules, t: State, page: seq<Envelope<Payload>>, works: nat)
    requires LogIntact(r, t) && FiscalIntact(r, t) && SealedBySiblings(r, page)
    ensures FiscalIntact(r, Pull(r, t, page, works))
  {
    PulledKeepsLog(r, t.rows, page, works);
    PulledKeepsNames(r, t.rows, page, works);
  }

  lemma RestartKeepsFiscal(r: Rules, t: State, after: State)
    requires LogIntact(r, t) && FiscalIntact(r, t) && NewestInvoiceIsLatest(r, t.rows)
    requires Load(r, t.rows) == Ok(after)
    ensures FiscalIntact(r, after)
  {
    LoadIsInStep(r, t.rows);
    RestartKeepsTheSequence(r, t.rows, after);
  }

  lemma NextKeepsFiscal(r: Rules, t: State, before: seq<Step>, step: Step, after: State)
    requires LogIntact(r, t) && FiscalIntact(r, t)
    requires Run(r, before) == Ok(t) && CleanStep(r, before, step) && Next(r, t, step) == Ok(after)
    ensures FiscalIntact(r, after)
  {
    match step {
      case Act(action, moment) => PerformKeepsFiscal(r, t, action, moment);
      case PullPage(page, works) => PullKeepsFiscal(r, t, page, works);
      case Restart => RestartKeepsFiscal(r, t, after);
    }
  }

  /**
   In every reachable state — across completions, refusals, failed writes, pulls and clean restarts —
   the stored invoices are numbered from 1 without a gap, verify from genesis, and the live sequence
   stands at the last of them.
   */
  lemma {:induction false} EveryRunIsGapFree(r: Rules, steps: seq<Step>, t: State)
    requires CleanRun(r, steps) && Run(r, steps) == Ok(t)
    ensures LogIntact(r, t) && FiscalIntact(r, t)
  {
    if steps == [] {
      FirstBootSucceeds(r);
      assert PayloadsOf(Own(FirstBoot(r).rows)) == [];
    } else {
      var n := |steps| - 1;
      var before := Run(r, steps[..n]).value;
      CleanRunPrefix(r, steps);
      EveryRunIsGapFree(r, steps[..n], before);
      NextKeepsLog(r, before, steps[n]);
      NextKeepsFiscal(r, before, steps[..n], steps[n], t);
    }
  }

  /** The numbers, said outright. */
  lemma NumbersAreOneToN(r: Rules, steps: seq<Step>, t: State, i: nat)
    requires CleanRun(r, steps) && Run(r, steps) == Ok(t) && i < |Stored(t.rows)|
    ensures Stored(t.rows)[i].invoice.counter == i + 1
    ensures t.books.fiscal.counter == |Stored(t.rows)|
  {
    EveryRunIsGapFree(r, steps, t);
    assert IssuedInPlace(r.sealDigest, Stored(t.rows), FISCAL_GENESIS, i);
    LastTipCounts(r.sealDigest, Stored(t.rows), FISCAL_GENESIS);
  }

  // ---------- when a number is given twice ----------

  ghost predicate NumberedTwice(rows: seq<Row<Payload>>)
  {
    exists i, j :: 0 <= i < j < |Stored(rows)| && Stored(rows)[i].invoice.counter == Stored(rows)[j].invoice.counter
  }

  /** One more invoice continues the sequence exactly when it is sealed on its end, and repeats a number below it. */
  lemma OneMoreInvoice(
    d: SealDigest<InvoiceContent>, invoices: seq<Issued<InvoiceContent>>, next: Issued<InvoiceContent>, at: FiscalTip)
    requires InvoicesChained(d, invoices, FISCAL_GENESIS) && InvoicesChained(d, [next], at)
    requires at == LastTip(invoices, FISCAL_GENESIS) || at.counter < |invoices|
    ensures InvoicesChained(d, invoices + [next], FISCAL_GENESIS) <==> at == LastTip(invoices, FISCAL_GENESIS)
    ensures at != LastTip(invoices, FISCAL_GENESIS) ==> invoices[at.counter].invoice.counter == next.invoice.counter
  {
    LastTipCounts(d, invoices, FISCAL_GENESIS);
    assert IssuedInPlace(d, [next], at, 0);
    var n := |invoices|;
    if at == LastTip(invoices, FISCAL_GENESIS) {
      InvoicesExtend(d, invoices, FISCAL_GENESIS, [next]);
    } else {
      assert IssuedInPlace(d, invoices, FISCAL_GENESIS, at.counter);
      assert !IssuedInPlace(d, invoices + [next], FISCAL_GENESIS, n);
    }
  }

  lemma GapFreeIsOnceEach(r: Rules, rows: seq<Row<Payload>>)
    requires GapFree(r, rows)
    ensures !NumberedTwice(rows)
  {
    forall i | 0 <= i < |Stored(rows)| ensures Stored(rows)[i].invoice.counter == i + 1 {
      assert IssuedInPlace(r.sealDigest, Stored(rows), FISCAL_GENESIS, i);
    }
  }

  /** The invoice an accepted completion issues. */
  lemma OneInvoice(r: Rules, b: Books, action: Action, at: I64, a: Accepted) returns (next: Issued<InvoiceContent>)
    requires action.CompleteSale? && Accept(r, b, action, at) == Ok(a)
    ensures a.payloads != [] && InvoicesIn(a.payloads) == [next]
    ensures InvoicesChained(r.sealDigest, [next], b.fiscal)
  {
    var p := a.payloads;
    CompletionIssuesTheNext(r, b, action.sale, action.regime, action.issuedBy, at);
    assert p[..1] == [p[0]] && p[..1][..0] == [] && InvoicesIn([]) == [] && InvoicesIn(p[..1]) == [];
    next := Issued(p[1].invoice, p[1].content);
  }

  lemma WrittenInvoice(r: Rules, t: State, a: Accepted, m: Moment, after: Attempt, next: Issued<InvoiceContent>)
    requires LogIntact(r, t) && a.payloads != [] && InvoicesIn(a.payloads) == [next]
    requires after == Write(r, t, a, m) && after.result.Ok?
    ensures Stored(after.state.rows) == Stored(t.rows) + [next]
  {
    WriteKeepsLog(r, t, a, m);
    StoredGrows(t.rows, after.state.rows, after.result.value);
  }

  lemma NextInvoiceTells(
    r: Rules, rows: seq<Row<Payload>>, back: State, next: Issued<InvoiceContent>, after: seq<Row<Payload>>)
    requires DistinctIds(rows) && InvoicesNameTheirDevice(r, rows) && GapFree(r, rows) && Load(r, rows) == Ok(back)
    requires InvoicesChained(r.sealDigest, [next], back.books.fiscal) && Stored(after) == Stored(rows) + [next]
    ensures GapFree(r, after) <==> NewestInvoiceIsLatest(r, rows)
    ensures NumberedTwice(after) <==> !NewestInvoiceIsLatest(r, rows)
  {
    RestartKeepsTheSequence(r, rows, back);
    OneMoreInvoice(r.sealDigest, Stored(rows), next, back.books.fiscal);
    if NewestInvoiceIsLatest(r, rows) {
      GapFreeIsOnceEach(r, after);
    } else {
      var k, n := back.books.fiscal.counter, |Stored(rows)|;
      assert Stored(after)[k].invoice.counter == Stored(after)[n].invoice.counter;
    }
  }

  /**
   After a restart, the next sale that is completed and stored tells: the sequence stays gap-free exactly
   when the restart found the newest invoice to be the latest, and otherwise two stored invoices carry one
   number.
   */
  lemma NextCompletionTells(
    r: Rules, rows: seq<Row<Payload>>, back: State, action: Action, m: Moment, after: Attempt)
    requires Sound(r.digest, r.device, rows) && DistinctIds(rows)
    requires InvoicesNameTheirDevice(r, rows) && GapFree(r, rows) && Load(r, rows) == Ok(back)
    requires action.CompleteSale? && after == Perform(r, back, action, m) && after.result.Ok?
    ensures GapFree(r, after.state.rows) <==> NewestInvoiceIsLatest(r, rows)
    ensures NumberedTwice(after.state.rows) <==> !NewestInvoiceIsLatest(r, rows)
  {
    LoadIsInStep(r, rows);
    var a := AcceptedBy(r, back, action, m, after);
    var next := OneInvoice(r, back.books, action, m.at, a);
    WrittenInvoice(r, back, a, m, after, next);
    NextInvoiceTells(r, rows, back, next, after.state.rows);
  }

  /** Completing a sale never decides whether the till can be restarted. */
  lemma CompletionStillLoads(r: Rules, t: State, action: Action, m: Moment, after: Attempt)
    requires LogIntact(r, t) && action.CompleteSale? && after == Perform(r, t, action, m) && after.result.Ok?
    ensures Load(r, after.state.rows).Ok? <==> Load(r, t.rows).Ok?
  {
    var a := AcceptedBy(r, t, action, m, after);
    OnlySaleAndInvoice(r, t.books, action, m.at, a);
    Restart.WritingOthers(r, t, a, m);
  }

  lemma OnlySaleAndInvoice(r: Rules, b: Books, action: Action, at: I64, a: Accepted)
    requires action.CompleteSale? && Accept(r, b, action, at) == Ok(a)
    ensures |a.payloads| == 2 && a.payloads[0].SaleRecorded? && a.payloads[1].InvoiceIssued?
  {
  }

  /**
   A whole run into it, from any till that has run cleanly and could be restarted: a sale completed at a
   time before an invoice already stored, a restart, which succeeds, and another sale completed. Two
   stored invoices then carry one number.
   */
  lemma CompletingInThePastRepeatsANumber(
    r: Rules, steps: seq<Step>, t: State, earlier: Envelope<Payload>,
    past: Action, m: Moment, next: Action, m': Moment, first: Attempt)
    requires CleanRun(r, steps) && Run(r, steps) == Ok(t) && Load(r, t.rows).Ok?
    requires earlier in Own(t.rows) && IsOwnInvoice(r, earlier) && m.at < earlier.header.occurredAt
    requires past.CompleteSale? && first == Perform(r, t, past, m) && first.result.Ok? && next.CompleteSale?
    ensures Load(r, first.state.rows).Ok?
    ensures var second := Perform(r, Load(r, first.state.rows).value, next, m');
            && Run(r, steps + [Act(past, m), Step.Restart, Act(next, m')]) == Ok(second.state)
            && (second.result.Ok? ==> NumberedTwice(second.state.rows) && !GapFree(r, second.state.rows))
  {
    EveryRunIsGapFree(r, steps, t);
    PerformKeepsLog(r, t, past, m);
    PerformKeepsFiscal(r, t, past, m);
    CompletionStillLoads(r, t, past, m, first);
    PastIsNotLatest(r, t, earlier, past, m, first);
    var back := Load(r, first.state.rows).value;
    var second := Perform(r, back, next, m');
    ThreeSteps(r, steps, t, Act(past, m), Step.Restart, Act(next, m'), first.state, back, second.state);
    if second.result.Ok? {
      NextCompletionTells(r, first.state.rows, back, next, m', second);
    }
  }

  lemma PastIsNotLatest(r: Rules, t: State, earlier: Envelope<Payload>, past: Action, m: Moment, first: Attempt)
    requires LogIntact(r, t) && past.CompleteSale? && first == Perform(r, t, past, m) && first.result.Ok?
    requires earlier in Own(t.rows) && IsOwnInvoice(r, earlier) && m.at < earlier.header.occurredAt
    ensures !NewestInvoiceIsLatest(r, first.state.rows)
  {
    var a := AcceptedBy(r, t, past, m, first);
    CompletingInThePast(r, t, past.sale, past.regime, past.issuedBy, m, a, earlier);
  }

  lemma OneStep(r: Rules, steps: seq<Step>, t: State, x: Step, after: State)
    requires Run(r, steps) == Ok(t) && Next(r, t, x) == Ok(after)
    ensures Run(r, steps + [x]) == Ok(after)
  {
    assert (steps + [x])[..|steps|] == steps;
  }

  lemma ThreeSteps(
    r: Rules, steps: seq<Step>, t: State, x: Step, y: Step, z: Step, one: State, two: State, three: State)
    requires Run(r, steps) == Ok(t) && Next(r, t, x) == Ok(one)
    requires Next(r, one, y) == Ok(two) && Next(r, two, z) == Ok(three)
    ensures Run(r, steps + [x, y, z]) == Ok(three)
  {
    OneStep(r, steps, t, x, one);
    OneStep(r, steps + [x], one, y, two);
    OneStep(r, steps + [x] + [y], two, z, three);
    ThreeInARow(steps, x, y, z);
  }

  lemma ThreeInARow(steps: seq<Step>, x: Step, y: Step, z: Step)
    ensures steps + [x] + [y] + [z] == steps + [x, y, z]
  {
  }

  // ---------- a sale and its invoice land together ----------

  /** An invoice stands right behind the sale event it settles. */
  predicate FollowsItsSale(r: Rules, payloads: seq<Payload>, i: nat)
    requires i < |payloads|
  {
    payloads[i].InvoiceIssued? ==>
      && i > 0 && payloads[i - 1].SaleRecorded?
      && r.sales.saleId(payloads[i - 1].sale) == payloads[i].invoice.saleId
  }

  ghost predicate NoLoneInvoice(r: Rules, payloads: seq<Payload>)
  {
    forall i :: 0 <= i < |payloads| ==> FollowsItsSale(r, payloads, i)
  }

  lemma AcceptedHasNoLoneInvoice(r: Rules, b: Books, action: Action, at: I64)
    requires Accept(r, b, action, at).Ok?
    ensures NoLoneInvoice(r, Accept(r, b, action, at).value.payloads)
  {
  }

  lemma PairsAppend(r: Rules, p: seq<Payload>, q: seq<Payload>)
    requires NoLoneInvoice(r, p) && NoLoneInvoice(r, q)
    ensures NoLoneInvoice(r, p + q)
  {
    forall i | 0 <= i < |p + q| ensures FollowsItsSale(r, p + q, i) {
      if i < |p| {
        assert FollowsItsSale(r, p, i);
      } else {
        assert FollowsItsSale(r, q, i - |p|);
      }
    }
  }

  lemma NextKeepsPairs(r: Rules, t: State, step: Step, after: State)
    requires LogIntact(r, t) && NoLoneInvoice(r, PayloadsOf(Own(t.rows))) && Next(r, t, step) == Ok(after)
    requires step.PullPage? ==> FromSiblings(r, step.page)
    ensures NoLoneInvoice(r, PayloadsOf(Own(after.rows)))
  {
    match step {
      case Act(action, m) =>
        if Accept(r, t.books, action, m.at).Ok? {
          PerformKeepsPairs(r, t, action, m);
        }
      case PullPage(page, works) => PulledKeepsLog(r, t.rows, page, works);
      case Restart => LoadIsInStep(r, t.rows);
    }
  }

  lemma PerformKeepsPairs(r: Rules, t: State, action: Action, m: Moment)
    requires LogIntact(r, t) && NoLoneInvoice(r, PayloadsOf(Own(t.rows)))
    requires Accept(r, t.books, action, m.at).Ok?
    ensures NoLoneInvoice(r, PayloadsOf(Own(Perform(r, t, action, m).state.rows)))
  {
    AcceptedWritesSomething(r, t.books, action, m.at);
    AcceptedHasNoLoneInvoice(r, t.books, action, m.at);
    WriteKeepsPairs(r, t, Accept(r, t.books, action, m.at).value, m);
  }

  lemma WriteKeepsPairs(r: Rules, t: State, a: Accepted, m: Moment)
    requires LogIntact(r, t) && NoLoneInvoice(r, PayloadsOf(Own(t.rows)))
    requires a.payloads != [] && NoLoneInvoice(r, a.payloads)
    ensures NoLoneInvoice(r, PayloadsOf(Own(Write(r, t, a, m).state.rows)))
  {
    var after := Write(r, t, a, m);
    WriteKeepsLog(r, t, a, m);
    if after.result.Ok? {
      PayloadsAppend(Own(t.rows), after.result.value);
      PairsAppend(r, PayloadsOf(Own(t.rows)), a.payloads);
    }
  }

  /** No run, however its writes fail, stores an invoice without the sale event it settles before it. */
  lemma {:induction false} NoRunLeavesALoneInvoice(r: Rules, steps: seq<Step>, t: State)
    requires PullsAreFromSiblings(r, steps) && Run(r, steps) == Ok(t)
    ensures NoLoneInvoice(r, PayloadsOf(Own(t.rows)))
  {
    if steps == [] {
      FirstBootSucceeds(r);
    } else {
      var n := |steps| - 1;
      var before := Run(r, steps[..n]).value;
      NoRunLeavesALoneInvoice(r, steps[..n], before);
      EveryRunKeepsTheLog(r, steps[..n]);
      NextKeepsPairs(r, before, steps[n], t);
    }
  }
}
