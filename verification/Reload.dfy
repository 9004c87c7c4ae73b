/**
 A restart against the till it replaces: the books rebuilt from the log are the books that were kept.

 No failed write disturbs this. What can is a clock that went back between two writes, or two writes at one
 time whose ids are the other way round, because the log is read back by clock and id; a new shift under an
 old id; and events pulled from siblings, which live books other than the sales leave out until a restart.
 */
module Reload {
  import opened Base
  import opened Sorting
  import opened EventLog
  import opened EventStore
  import opened TillBooks
  import opened Till
  import IB = InventoryBook
  import PO = PurchaseOrder
  import Shifts

  /** The live books are what reading the own log back in chain order gathers. */
  ghost predicate Mirrored(r: Rules, t: State)
  {
    var g := Gather(r, Own(t.rows));
    g.Ok? && Reflects(t.books, g.value)
  }

  predicate AllLocal(rows: seq<Row<Payload>>)
  {
    forall i :: 0 <= i < |rows| ==> rows[i].origin.Local?
  }

  /** The live till as a restart should bring it back: its chain at the disk, a closed shift put away. */
  function Restarted(t: State): State
  {
    State(t.rows, End(Own(t.rows), GENESIS), t.books.(shift := Shifts.Resumed(t.books.shift)))
  }

  // ---------- one action ----------

  lemma {:induction false} AppendAllStaysLocal(rows: seq<Row<Payload>>, events: seq<Envelope<Payload>>, disk: bool)
    requires AllLocal(rows) && AppendAllTo(rows, events, disk).Ok?
    ensures AllLocal(AppendAllTo(rows, events, disk).value)
    decreases |events|
  {
    if events != [] {
      AppendAllStaysLocal(rows + [Row(events[0], Local)], events[1..], disk);
    }
  }

  lemma WriteKeepsMirror(r: Rules, t: State, a: Accepted, m: Moment)
    requires LogIntact(r, t) && Mirrored(r, t) && a.payloads != []
    requires ReadsBack(r, Gather(r, Own(t.rows)).value, a)
    ensures Mirrored(r, Write(r, t, a, m).state)
  {
    WriteKeepsLog(r, t, a, m);
    var after := Write(r, t, a, m);
    if after.result.Ok? {
      GatherMore(r, Own(t.rows), after.result.value);
    }
  }

  lemma WriteStaysLocal(r: Rules, t: State, a: Accepted, m: Moment)
    requires AllLocal(t.rows)
    ensures AllLocal(Write(r, t, a, m).state.rows)
  {
    var after := Write(r, t, a, m);
    if after.result.Ok? {
      AppendAllStaysLocal(t.rows, after.result.value, m.disk);
    }
  }

  /** A shift opened by the action takes an id the log does not know. */
  predicate FreshShift(r: Rules, t: State, action: Action)
  {
    Gather(r, Own(t.rows)).Ok? ==> OpensAfresh(action, Gather(r, Own(t.rows)).value)
  }

  lemma PerformKeepsMirror(r: Rules, t: State, action: Action, m: Moment)
    requires LogIntact(r, t) && Mirrored(r, t) && AllLocal(t.rows) && FreshShift(r, t, action)
    ensures Mirrored(r, Perform(r, t, action, m).state)
    ensures AllLocal(Perform(r, t, action, m).state.rows)
  {
    if Accept(r, t.books, action, m.at).Ok? {
      var a := Accept(r, t.books, action, m.at).value;
      AcceptedWritesSomething(r, t.books, action, m.at);
      AcceptReflects(r, t.books, Gather(r, Own(t.rows)).value, action, m.at);
      WriteKeepsMirror(r, t, a, m);
      WriteStaysLocal(r, t, a, m);
    }
  }

  // ---------- one restart ----------

  /**
   Where each event happened after the one written before it, by the clock or at one time by the greater id,
   a restart brings back exactly the till that was running.
   */
  lemma RestartBringsItBack(r: Rules, t: State)
    requires LogIntact(r, t) && Mirrored(r, t) && AllLocal(t.rows) && InClockOrder(t.rows)
    ensures Load(r, t.rows) == Ok(Restarted(t))
    ensures Mirrored(r, Restarted(t))
  {
    LoadIsInStep(r, t.rows);
    LocalRowsAreTheLog(t.rows);
    RestartReadsInOrder(t.rows);
    SettleReadsBack(t.books, Gather(r, Own(t.rows)).value);
    TipIsTheEnd(r.digest, r.device, t.rows);
  }

  // ---------- whole runs ----------

  /** No pulls; restarts find the clock in order; shifts are given ids of their own. */
  ghost predicate QuietRun(r: Rules, steps: seq<Step>)
  {
    forall n :: 0 <= n < |steps| ==> QuietStep(r, steps[..n], steps[n])
  }

  ghost predicate QuietStep(r: Rules, before: seq<Step>, step: Step)
  {
    var run := Run(r, before);
    run.Ok? ==>
      match step
      case Act(action, _) => FreshShift(r, run.value, action)
      case PullPage(_, _) => false
      case Restart => InClockOrder(run.value.rows)
  }

  lemma QuietRunPrefix(r: Rules, steps: seq<Step>)
    requires QuietRun(r, steps) && steps != []
    ensures QuietRun(r, steps[..|steps| - 1])
    ensures QuietStep(r, steps[..|steps| - 1], steps[|steps| - 1])
  {
    var before := steps[..|steps| - 1];
    forall n | 0 <= n < |before| ensures QuietStep(r, before[..n], before[n]) {
      assert before[..n] == steps[..n];
      assert QuietStep(r, steps[..n], steps[n]);
    }
  }

  lemma NextKeepsMirror(r: Rules, t: State, before: seq<Step>, step: Step, after: State)
    requires LogIntact(r, t) && Mirrored(r, t) && AllLocal(t.rows)
    requires Run(r, before) == Ok(t) && QuietStep(r, before, step) && Next(r, t, step) == Ok(after)
    ensures LogIntact(r, after) && Mirrored(r, after) && AllLocal(after.rows)
  {
    NextKeepsLog(r, t, step);
    match step {
      case Act(action, moment) => PerformKeepsMirror(r, t, action, moment);
      case Restart => RestartBringsItBack(r, t);
    }
  }

  lemma FirstBootIsMirrored(r: Rules)
    ensures LogIntact(r, FirstBoot(r)) && Mirrored(r, FirstBoot(r)) && AllLocal(FirstBoot(r).rows)
  {
    assert Own(FirstBoot(r).rows) == [];
  }

  lemma {:induction false} QuietRunsAreMirrored(r: Rules, steps: seq<Step>, t: State)
    requires QuietRun(r, steps) && Run(r, steps) == Ok(t)
    ensures LogIntact(r, t) && Mirrored(r, t) && AllLocal(t.rows)
  {
    if steps == [] {
      FirstBootSucceeds(r);
      FirstBootIsMirrored(r);
    } else {
      var n := |steps| - 1;
      var before := Run(r, steps[..n]).value;
      QuietRunPrefix(r, steps);
      QuietRunsAreMirrored(r, steps[..n], before);
      NextKeepsMirror(r, before, steps[..n], steps[n], t);
    }
  }

  /**
   After any run of recorded events — refused, failed and successful — a restart succeeds and rebuilds
   the same sales, stock, catalogue, floor, orders, outlet and fiscal sequence. Only the tip moves, back
   to the disk if a write was lost, and a closed shift is put away.
   */
  lemma ReloadRefinesLive(r: Rules, steps: seq<Step>, t: State)
    requires QuietRun(r, steps) && Run(r, steps) == Ok(t) && InClockOrder(t.rows)
    ensures Load(r, t.rows) == Ok(Restarted(t))
  {
    QuietRunsAreMirrored(r, steps, t);
    RestartBringsItBack(r, t);
  }

  /** Under the same conditions no quiet run is ever stopped by a restart. */
  lemma {:induction false} QuietRunsNeverStop(r: Rules, steps: seq<Step>)
    requires QuietRun(r, steps)
    ensures Run(r, steps).Ok?
  {
    if steps == [] {
      FirstBootSucceeds(r);
    } else {
      var n := |steps| - 1;
      QuietRunPrefix(r, steps);
      QuietRunsNeverStop(r, steps[..n]);
      var t := Run(r, steps[..n]).value;
      QuietRunsAreMirrored(r, steps[..n], t);
      if steps[n].Restart? {
        RestartBringsItBack(r, t);
      }
    }
  }

  // ---------- why the conditions are there ----------

  /**
   A batch received and then issued from, with the clock set back in between: both events are accepted
   and stored, and the till then refuses to start, because it reads the issue before the receipt.
   */
  lemma ClockSetBackStopsTheTill(
    r: Rules, received: IB.InventoryEvent, issued: IB.InventoryEvent,
    m1: Moment, m2: Moment, first: Attempt, second: Attempt)
    requires received.BatchReceived? && issued.StockIssued? && issued.batchId == received.batchId
    requires first == Perform(r, FirstBoot(r), RecordStock(received), m1) && first.result.Ok?
    requires second == Perform(r, first.state, RecordStock(issued), m2) && second.result.Ok?
    requires m2.at < m1.at
    ensures Load(r, second.state.rows) == Err(Invalid(StockRefused(IB.UnknownBatch(issued.batchId))))
  {
    var e1 := StoredStock(r, FirstBoot(r), received, m1, first);
    var e2 := StoredStock(r, first.state, issued, m2, second);
    var rows := second.state.rows;
    assert rows == [Row(e1, Local), Row(e2, Local)];
    FirstBootIsMirrored(r);
    PerformKeepsLog(r, FirstBoot(r), RecordStock(received), m1);
    PerformKeepsLog(r, first.state, RecordStock(issued), m2);
    LoadIsInStep(r, rows);
    ReadBackwards(rows, e1, e2);
    IssueReadFirst(r, e1, e2, first.state.books.stock);
  }

  /** An issue read before anything else names a batch nobody has received. */
  lemma IssueReadFirst(r: Rules, e1: Envelope<Payload>, e2: Envelope<Payload>, stock: IB.Stock)
    requires e2.payload.StockMoved? && e2.payload.stock.StockIssued?
    requires IB.ApplyTo(stock, e2.payload.stock).Ok?
    ensures Gather(r, [e2, e1]) == Err(StockRefused(IB.UnknownBatch(e2.payload.stock.batchId)))
  {
    assert [e2, e1][..1] == [e2] && [e2][..0] == [];
    assert Project(r, Nothing(r), e2.payload) == Err(StockRefused(IB.UnknownBatch(e2.payload.stock.batchId)));
    assert Gather(r, [e2]) == Err(StockRefused(IB.UnknownBatch(e2.payload.stock.batchId)));
  }

  /** What a successful movement of stock stored. */
  lemma StoredStock(r: Rules, t: State, moved: IB.InventoryEvent, m: Moment, after: Attempt)
    returns (e: Envelope<Payload>)
    requires after == Perform(r, t, RecordStock(moved), m) && after.result.Ok?
    ensures after.state.rows == t.rows + [Row(e, Local)]
    ensures e.payload == StockMoved(moved) && e.header.occurredAt == m.at
    ensures IB.ApplyTo(t.books.stock, moved).Ok?
  {
    assert IB.ApplyTo(t.books.stock, moved).Ok?;
    SealingOne(r, t.tip, m, 0, StockMoved(moved));
    e := Appended(r.digest, r.device, t.tip, Header(r, m, 0), StockMoved(moved)).value;
    AppendOne(t.rows, e, m.disk);
  }

  /** After a write with the clock in order, a restart gathers the log so far and then what was written. */
  lemma ReadBackAfterWrite(r: Rules, t: State, a: Accepted, m: Moment)
    requires LogIntact(r, t) && AllLocal(t.rows) && Gather(r, Own(t.rows)).Ok? && a.payloads != []
    requires Write(r, t, a, m).result.Ok? && InClockOrder(Write(r, t, a, m).state.rows)
    ensures var rows := Write(r, t, a, m).state.rows;
            && VerifyChainFromGenesis(r.digest, LoadAll(rows)).Ok?
            && Gather(r, ProjectionInput(rows)) == ProjectAll(r, Gather(r, Own(t.rows)).value, a.payloads)
  {
    var after := Write(r, t, a, m);
    WriteKeepsLog(r, t, a, m);
    WriteStaysLocal(r, t, a, m);
    LoadIsInStep(r, after.state.rows);
    LocalRowsAreTheLog(after.state.rows);
    RestartReadsInOrder(after.state.rows);
    GatherMore(r, Own(t.rows), after.result.value);
  }

  /**
   In a till that has run quietly, with no shift running: an opening that is stored stops the next restart
   exactly when its id is that of any shift before it.
   */
  lemma ReusedShiftIdStopsTheTill(
    r: Rules, steps: seq<Step>, t: State, g: Gathered, e: Shifts.ShiftEvent, m: Moment, after: Attempt)
    requires QuietRun(r, steps) && Run(r, steps) == Ok(t) && Gather(r, Own(t.rows)) == Ok(g)
    requires e.Opened? && Shifts.Resumed(t.books.shift) == None
    requires after == Perform(r, t, RecordShift(e), m) && after.result.Ok? && InClockOrder(after.state.rows)
    ensures Load(r, after.state.rows).Ok? <==> !Shifts.Knows(g.shifts, e.shiftId)
    ensures Shifts.Knows(g.shifts, e.shiftId) ==>
              Load(r, after.state.rows) == Err(Invalid(ShiftRefused(Shifts.ShiftClosed)))
  {
    QuietRunsAreMirrored(r, steps, t);
    Shifts.OnlyAFreshIdReadsBack(t.books.shift, g.shifts, e);
    ReadBackAfterWrite(r, t, Accept(r, t.books, RecordShift(e), m.at).value, m);
    ProjectOne(r, g, ShiftRecorded(e));
  }
}
