/**
 The sales on a till's screen against the sales its table holds. A pull rebuilds them only when it is done
 with its page and stored something; an action moves them by itself; a restart reads them all back.
 */
module LiveSales {
  import opened Base
  import opened Sorting
  import opened EventLog
  import opened EventStore
  import opened TillBooks
  import opened Till
  import Restart
  import SB = SaleBook

  /** The sales shown are those that reading the whole table back gives. */
  ghost predicate Current(r: Rules, t: State)
  {
    t.books.sales == SalesOf(r, ProjectionInput(t.rows))
  }

  // ---------- pulls ----------

  /** After a pull the sales are current exactly when it was done with its page or what it stored changes none. */
  lemma PullIsCurrentExactly(r: Rules, t: State, page: seq<Envelope<Payload>>, works: nat)
    requires Current(r, t)
    ensures var (rows, all) := Pulled(r, t.rows, page, works);
            Current(r, Pull(r, t, page, works))
            <==> all || SalesOf(r, ProjectionInput(rows)) == SalesOf(r, ProjectionInput(t.rows))
  {
  }

  /**
   A page that broke off and is then delivered whole, with nothing new left in it, does not help: sales that
   the first delivery left stale are stale still.
   */
  lemma BrokenOffStaysStale(r: Rules, t: State, page: seq<Envelope<Payload>>, first: nat, second: nat)
    requires Current(r, t) && !Pulled(r, t.rows, page, first).1
    requires Reached(r, page, second) <= Reached(r, page, first)
    ensures Current(r, Pull(r, Pull(r, t, page, first), page, second))
       <==> SalesOf(r, ProjectionInput(Pulled(r, t.rows, page, first).0)) == SalesOf(r, ProjectionInput(t.rows))
  {
    NothingNewChangesNothing(r, t, page, first, second);
  }

  // ---------- restarts and actions ----------

  lemma {:induction false} GatheredSales(r: Rules, events: seq<Envelope<Payload>>)
    requires Gather(r, events).Ok?
    ensures Gather(r, events).value.sales == SalesOf(r, events)
  {
    if events != [] {
      GatheredSales(r, events[..|events| - 1]);
    }
  }

  /** A restart always shows what the table holds. */
  lemma RestartIsCurrent(r: Rules, rows: seq<Row<Payload>>, back: State)
    requires Load(r, rows) == Ok(back)
    ensures Current(r, back)
  {
    Restart.LoadedIsGathered(r, rows, back);
    GatheredSales(r, ProjectionInput(rows));
  }

  /** The sales after some more events, one after another. */
  function SalesAfter(r: Rules, sales: SB.Sales<Sale>, payloads: seq<Payload>): SB.Sales<Sale>
  {
    if payloads == [] then sales
    else
      var n := |payloads| - 1;
      var before := SalesAfter(r, sales, payloads[..n]);
      if payloads[n].SaleRecorded? then SB.ApplyTo(r.sales, before, payloads[n].sale).sales else before
  }

  lemma {:induction false} SalesOfMore(r: Rules, events: seq<Envelope<Payload>>, more: seq<Envelope<Payload>>)
    ensures SalesOf(r, events + more) == SalesAfter(r, SalesOf(r, events), PayloadsOf(more))
  {
    if more == [] {
      assert events + more == events;
    } else {
      var n := |more| - 1;
      SalesOfMore(r, events, more[..n]);
      assert (events + more)[..|events| + n] == events + more[..n];
      assert PayloadsOf(more)[..n] == PayloadsOf(more[..n]);
    }
  }

  lemma AcceptedSales(r: Rules, b: Books, action: Action, at: I64)
    requires Accept(r, b, action, at).Ok?
    ensures var a := Accept(r, b, action, at).value;
            a.books.sales == SalesAfter(r, b.sales, a.payloads)
  {
    var p := Accept(r, b, action, at).value.payloads;
    assert SalesAfter(r, b.sales, []) == b.sales;
    assert p[..1] == [p[0]] && p[..1][..0] == [];
  }

  /**
   An action that is stored keeps the sales current exactly when its events, read where the clock puts them,
   make the sales that they make at the end.
   */
  lemma ActionIsCurrentExactly(r: Rules, t: State, action: Action, m: Moment, after: Attempt)
    requires LogIntact(r, t) && Current(r, t)
    requires after == Perform(r, t, action, m) && after.result.Ok?
    ensures Current(r, after.state)
       <==> SalesOf(r, ProjectionInput(after.state.rows)) == SalesOf(r, ProjectionInput(t.rows) + after.result.value)
  {
    var a := AcceptedBy(r, t, action, m, after);
    AcceptedWritesSomething(r, t.books, action, m.at);
    AcceptedSales(r, t.books, action, m.at);
    Restart.WrittenEvents(r, t, a, m, after);
    SalesOfMore(r, ProjectionInput(t.rows), after.result.value);
  }

  /** The events happened after everything held, and one after another. */
  ghost predicate HappenedLast(rows: seq<Row<Payload>>, events: seq<Envelope<Payload>>)
  {
    && Sorted<Envelope<Payload>>(KeyLe, events)
    && (forall x, y :: x in Events(rows) && y in events ==> KeyLe(x, y))
  }

  lemma ReadAtTheEnd(rows: seq<Row<Payload>>, after: seq<Row<Payload>>, events: seq<Envelope<Payload>>)
    requires DistinctIds(after) && Events(after) == Events(rows) + events && HappenedLast(rows, events)
    ensures ProjectionInput(after) == ProjectionInput(rows) + events
  {
    OrdersAreTotal<Payload>();
    var read := ProjectionInput(rows);
    Restart.ReadByKey(rows);
    KeysIdentifyRows(after);
    assert Sorted<Envelope<Payload>>(KeyLe, read + events) by {
      forall i, j | 0 <= i < j < |read + events| ensures KeyLe((read + events)[i], (read + events)[j]) {
        assert i < |read| ==> read[i] in Events(rows);
      }
    }
    Restart.ReadByKey(after);
    SortedUnique(KeyLe, ProjectionInput(after), read + events);
  }

  // ---------- a sale that is not shown ----------

  /** A sibling's sale, opened after everything held. */
  ghost predicate OpensElsewhere(r: Rules, t: State, e: Envelope<Payload>)
  {
    && e.header.deviceId != r.device && Verify(r.digest, e).Ok? && e.deviceSeq <= I64_MAX
    && !Clashes(t.rows, e) && HappenedLast(t.rows, [e])
    && e.payload.SaleRecorded?
    && r.sales.saleId(e.payload.sale) !in t.books.sales && r.sales.open(e.payload.sale).Some?
  }

  /**
   The page that brings it breaks off after storing it, on the cursor. The sale is then held and not shown,
   and no later delivery of the page shows it.
   */
  lemma PulledSaleIsNotShown(r: Rules, t: State, e: Envelope<Payload>, again: nat)
    requires LogIntact(r, t) && Current(r, t) && OpensElsewhere(r, t, e)
    ensures var after := Pull(r, Pull(r, t, [e], 1), [e], again);
            && after.rows == t.rows + [Row(e, Remote)]
            && r.sales.saleId(e.payload.sale) in SalesOf(r, ProjectionInput(after.rows))
            && r.sales.saleId(e.payload.sale) !in after.books.sales
  {
    var rows := t.rows + [Row(e, Remote)];
    BrokenOffAfterIt(r, t, e);
    ReachedAtMost(r, e, again);
    NothingNewChangesNothing(r, t, [e], 1, again);
    StoredSaleIsRead(r, t, e, rows);
  }

  lemma BrokenOffAfterIt(r: Rules, t: State, e: Envelope<Payload>)
    requires OpensElsewhere(r, t, e)
    ensures Pull(r, t, [e], 1) == t.(rows := t.rows + [Row(e, Remote)])
  {
    var rows, page := t.rows + [Row(e, Remote)], [e];
    assert page[1..] == [];
    assert Pulled(r, rows, [], 0) == (rows, false);
    assert Pulled(r, t.rows, page, 1) == (rows, false);
  }

  lemma ReachedAtMost(r: Rules, e: Envelope<Payload>, again: nat)
    requires Verify(r.digest, e).Ok? && e.deviceSeq <= I64_MAX
    ensures Reached(r, [e], again) <= Reached(r, [e], 1) == [e]
  {
    assert [e][1..] == [] && Reached(r, [], 0) == [];
    if again > 0 {
      assert Reached(r, [], again - 1) == [];
    }
  }

  lemma StoredSaleIsRead(r: Rules, t: State, e: Envelope<Payload>, rows: seq<Row<Payload>>)
    requires DistinctIds(t.rows) && Current(r, t) && OpensElsewhere(r, t, e) && rows == t.rows + [Row(e, Remote)]
    ensures r.sales.saleId(e.payload.sale) in SalesOf(r, ProjectionInput(rows))
  {
    assert DistinctIds(rows) by {
      WritesKeepIdsDistinct(t.rows, e, true);
    }
    var read := ProjectionInput(t.rows);
    assert ProjectionInput(rows) == read + [e] by {
      assert Events(rows) == Events(t.rows) + [e];
      ReadAtTheEnd(t.rows, rows, [e]);
    }
    OneMoreSale(r, read, e);
  }

  lemma OneMoreSale(r: Rules, read: seq<Envelope<Payload>>, e: Envelope<Payload>)
    requires e.payload.SaleRecorded?
    ensures SalesOf(r, read + [e]) == SB.ApplyTo(r.sales, SalesOf(r, read), e.payload.sale).sales
  {
    assert (read + [e])[..|read|] == read;
  }

  // ---------- whole runs ----------

  /** Pages are finished or change no sale, and what an action stores happened last. */
  ghost predicate Orderly(r: Rules, t: State, step: Step)
  {
    match step
    case Restart => true
    case PullPage(page, works) =>
      var (rows, all) := Pulled(r, t.rows, page, works);
      all || SalesOf(r, ProjectionInput(rows)) == SalesOf(r, ProjectionInput(t.rows))
    case Act(action, m) =>
      var after := Perform(r, t, action, m);
      after.result.Ok? ==> HappenedLast(t.rows, after.result.value)
  }

  ghost predicate OrderlyRun(r: Rules, steps: seq<Step>)
  {
    forall n :: 0 <= n < |steps| ==> OrderlyAt(r, steps, n)
  }

  ghost predicate OrderlyAt(r: Rules, steps: seq<Step>, n: nat)
    requires n < |steps|
  {
    Run(r, steps[..n]).Ok? ==> Orderly(r, Run(r, steps[..n]).value, steps[n])
  }

  lemma RefusedStaysCurrent(r: Rules, t: State, action: Action, m: Moment)
    requires LogIntact(r, t) && Current(r, t) && Perform(r, t, action, m).result.Err?
    ensures Current(r, Perform(r, t, action, m).state)
  {
    if Accept(r, t.books, action, m.at).Ok? {
      AcceptedWritesSomething(r, t.books, action, m.at);
      WriteKeepsLog(r, t, Accept(r, t.books, action, m.at).value, m);
    }
  }

  lemma StoredStaysCurrent(r: Rules, t: State, action: Action, m: Moment, after: Attempt)
    requires LogIntact(r, t) && Current(r, t)
    requires after == Perform(r, t, action, m) && after.result.Ok? && HappenedLast(t.rows, after.result.value)
    ensures Current(r, after.state)
  {
    var a := AcceptedBy(r, t, action, m, after);
    AcceptedWritesSomething(r, t.books, action, m.at);
    Restart.WrittenEvents(r, t, a, m, after);
    ReadAtTheEnd(t.rows, after.state.rows, after.result.value);
    ActionIsCurrentExactly(r, t, action, m, after);
  }

  /** Through any such run, over failed writes and restarts, the screen shows what the table holds. */
  lemma {:induction false} OrderlyRunsStayCurrent(r: Rules, steps: seq<Step>, t: State)
    requires PullsAreFromSiblings(r, steps) && OrderlyRun(r, steps) && Run(r, steps) == Ok(t)
    ensures LogIntact(r, t) && Current(r, t)
  {
    if steps == [] {
      FirstBootSucceeds(r);
      RestartIsCurrent(r, [], t);
      EveryRunKeepsTheLog(r, steps);
    } else {
      var n := |steps| - 1;
      var before := Run(r, steps[..n]).value;
      forall k | 0 <= k < n ensures OrderlyAt(r, steps[..n], k) {
        assert steps[..n][..k] == steps[..k];
        assert OrderlyAt(r, steps, k);
      }
      OrderlyRunsStayCurrent(r, steps[..n], before);
      EveryRunKeepsTheLog(r, steps);
      assert OrderlyAt(r, steps, n);
      NextStaysCurrent(r, before, steps[n], t);
    }
  }

  lemma NextStaysCurrent(r: Rules, t: State, step: Step, after: State)
    requires LogIntact(r, t) && Current(r, t) && Orderly(r, t, step) && Next(r, t, step) == Ok(after)
    ensures Current(r, after)
  {
    match step {
      case Act(action, m) =>
        if Perform(r, t, action, m).result.Ok? {
          StoredStaysCurrent(r, t, action, m, Perform(r, t, action, m));
        } else {
          RefusedStaysCurrent(r, t, action, m);
        }
      case PullPage(page, works) => PullIsCurrentExactly(r, t, page, works);
      case Restart => RestartIsCurrent(r, t.rows, after);
    }
  }
}
