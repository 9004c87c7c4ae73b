/**
 A till over its whole life: actions, failed writes, events pulled from siblings, and restarts.

 Each action is validated, sealed, written and only then adopted. The event chain moves before the
 write, so after a failed write it is ahead of the disk until a restart.
 */
module Till {
  import opened Base
  import opened Sorting
  import opened EventLog
  import opened FiscalLedger
  import opened EventStore
  import opened TillBooks
  import SB = SaleBook

  /** What the world supplies to one action: the time, fresh event ids, and whether the disk works. */
  datatype Moment = Moment(at: I64, first: Uuid, second: Uuid, disk: bool)

  datatype State = State(rows: seq<Row<Payload>>, tip: ChainTip, books: Books)

  datatype Refusal =
    | Invalid(till: TillError)
    | EventRefused(event: EventError)
    | StoreRefused(store: StoreError)
    | CorruptLog(event: EventError)

  datatype Attempt = Attempt(state: State, result: Result<seq<Envelope<Payload>>, Refusal>)

  // ---------- acting ----------

  function Header(r: Rules, m: Moment, k: nat): EventHeader
  {
    EventHeader(if k == 0 then m.first else m.second, r.tenant, r.outletId, r.device, m.at)
  }

  /** The chain after sealing one event after another, stopped at the first that cannot be sealed. */
  datatype Sealing = Sealing(tip: ChainTip, events: seq<Envelope<Payload>>, error: Option<EventError>)

  function SealAll(r: Rules, tip: ChainTip, m: Moment, k: nat, payloads: seq<Payload>): Sealing
    decreases |payloads|
  {
    if payloads == [] then Sealing(tip, [], None)
    else
      match Appended(r.digest, r.device, tip, Header(r, m, k), payloads[0])
      case Err(error) => Sealing(tip, [], Some(error))
      case Ok(e) =>
        var rest := SealAll(r, e.Tip(), m, k + 1, payloads[1..]);
        Sealing(rest.tip, [e] + rest.events, rest.error)
  }

  /** Seal the events of an accepted action, write them all or none, and adopt its books. */
  function Write(r: Rules, t: State, a: Accepted, m: Moment): Attempt
  {
    var sealing := SealAll(r, t.tip, m, 0, a.payloads);
    if sealing.error.Some? then Attempt(t.(tip := sealing.tip), Err(EventRefused(sealing.error.value)))
    else
      match AppendAllTo(t.rows, sealing.events, m.disk)
      case Err(error) => Attempt(t.(tip := sealing.tip), Err(StoreRefused(error)))
      case Ok(rows) => Attempt(State(rows, sealing.tip, a.books), Ok(sealing.events))
  }

  function Perform(r: Rules, t: State, action: Action, m: Moment): Attempt
  {
    match Accept(r, t.books, action, m.at)
    case Err(error) => Attempt(t, Err(Invalid(error)))
    case Ok(a) => Write(r, t, a, m)
  }

  lemma PerformsAccepted(r: Rules, t: State, action: Action, m: Moment, a: Accepted)
    requires Accept(r, t.books, action, m.at) == Ok(a)
    ensures Perform(r, t, action, m) == Write(r, t, a, m)
  {
  }

  lemma AcceptedBy(r: Rules, t: State, action: Action, m: Moment, after: Attempt) returns (a: Accepted)
    requires after == Perform(r, t, action, m) && after.result.Ok?
    ensures Accept(r, t.books, action, m.at) == Ok(a) && after == Write(r, t, a, m)
  {
    a := Accept(r, t.books, action, m.at).value;
  }

  lemma PerformsRefused(r: Rules, t: State, action: Action, m: Moment, error: TillError)
    requires Accept(r, t.books, action, m.at) == Err(error)
    ensures Perform(r, t, action, m) == Attempt(t, Err(Invalid(error)))
  {
  }

  // ---------- restarting and pulling ----------

  /** `Terminal::load`: verify the own log in chain order, rebuild the books in clock order. */
  function Load(r: Rules, rows: seq<Row<Payload>>): Result<State, Refusal>
  {
    match VerifyChainFromGenesis(r.digest, LoadAll(rows))
    case Err(error) => Err(CorruptLog(error))
    case Ok(_) =>
      match Gather(r, ProjectionInput(rows))
      case Err(error) => Err(Invalid(error))
      case Ok(g) =>
        match Settle(g)
        case Err(error) => Err(Invalid(error))
        case Ok(books) => Ok(State(rows, TipOf(rows, r.device), books))
  }

  /** Sales rebuilt from every event of the table, stepping over what does not apply. */
  function SalesOf(r: Rules, events: seq<Envelope<Payload>>): SB.Sales<Sale>
  {
    if events == [] then map[]
    else
      var before, p := SalesOf(r, events[..|events| - 1]), events[|events| - 1].payload;
      if p.SaleRecorded? then SB.ApplyTo(r.sales, before, p.sale).sales else before
  }

  /**
   The table after storing pulled events up to the first that does not verify or cannot be stored, and
   whether the page was done with. `works` is how many calls to the database succeed before one fails;
   the last of them moves the cursor past the page.
   */
  function Pulled(r: Rules, rows: seq<Row<Payload>>, page: seq<Envelope<Payload>>, works: nat)
    : (seq<Row<Payload>>, bool)
    decreases |page|
  {
    if page == [] then (rows, works > 0)
    else if Verify(r.digest, page[0]).Err? then (rows, false)
    else
      match InsertRemoteInto(rows, page[0], works > 0)
      case Err(_) => (rows, false)
      case Ok(next) => Pulled(r, next, page[1..], works - 1)
  }

  /** A pull rebuilds the sales if it brought anything; a page that breaks off leaves them stale. */
  function Pull(r: Rules, t: State, page: seq<Envelope<Payload>>, works: nat): State
  {
    var (rows, all) := Pulled(r, t.rows, page, works);
    if all && rows != t.rows then State(rows, t.tip, t.books.(sales := SalesOf(r, ProjectionInput(rows))))
    else t.(rows := rows)
  }

  // ---------- whole runs ----------

  datatype Step =
    | Act(action: Action, moment: Moment)
    | PullPage(page: seq<Envelope<Payload>>, works: nat)
    | Restart

  function Next(r: Rules, t: State, step: Step): Result<State, Refusal>
  {
    match step
    case Act(action, moment) => Ok(Perform(r, t, action, moment).state)
    case PullPage(page, works) => Ok(Pull(r, t, page, works))
    case Restart => Load(r, t.rows)
  }

  /** A till from its first boot over an empty table. A restart that fails leaves no till to run. */
  function Run(r: Rules, steps: seq<Step>): Result<State, Refusal>
  {
    if steps == [] then Load(r, [])
    else
      var before :- Run(r, steps[..|steps| - 1]);
      Next(r, before, steps[|steps| - 1])
  }

  function FirstBoot(r: Rules): State
  {
    State([], GENESIS, Settle(Nothing(r)).value)
  }

  lemma FirstBootSucceeds(r: Rules)
    ensures Load(r, []) == Ok(FirstBoot(r))
  {
    OrdersAreTotal<Payload>();
    var rows: seq<Row<Payload>> := [];
    assert Own(rows) == [] && Events(rows) == [];
    assert LoadAll(rows) == [] && ProjectionInput(rows) == [];
  }

  // ---------- the log, in every reachable state ----------

  /** The server hands a device its siblings' events, never its own. */
  predicate FromSiblings(r: Rules, page: seq<Envelope<Payload>>)
  {
    forall i :: 0 <= i < |page| ==> page[i].header.deviceId != r.device
  }

  ghost predicate PullsAreFromSiblings(r: Rules, steps: seq<Step>)
  {
    forall i :: 0 <= i < |steps| && steps[i].PullPage? ==> FromSiblings(r, steps[i].page)
  }

  /** The table is sound, and the chain in memory is at its end or ahead of it. */
  ghost predicate LogIntact(r: Rules, t: State)
  {
    && Sound(r.digest, r.device, t.rows)
    && DistinctIds(t.rows)
    && (InStep(t) || End(Own(t.rows), GENESIS).deviceSeq < t.tip.deviceSeq)
  }

  predicate InStep(t: State) { t.tip == End(Own(t.rows), GENESIS) }

  lemma {:induction false} SealAllIsChained(r: Rules, tip: ChainTip, m: Moment, k: nat, payloads: seq<Payload>)
    ensures var s := SealAll(r, tip, m, k, payloads);
            && Chained(r.digest, s.events, tip)
            && s.tip == End(s.events, tip)
            && (forall i :: 0 <= i < |s.events| ==> s.events[i].header.deviceId == r.device)
    decreases |payloads|
  {
    if payloads != [] {
      match Appended(r.digest, r.device, tip, Header(r, m, k), payloads[0]) {
        case Err(_) =>
        case Ok(e) =>
          var rest := SealAll(r, e.Tip(), m, k + 1, payloads[1..]);
          SealAllIsChained(r, e.Tip(), m, k + 1, payloads[1..]);
          assert [e][..0] == [];
          assert FollowsAt(r.digest, [e], tip, 0);
          ChainedConcat(r.digest, [e], rest.events, tip);
      }
    }
  }

  lemma {:induction false} SealAllKeepsPayloads(r: Rules, tip: ChainTip, m: Moment, k: nat, payloads: seq<Payload>)
    requires SealAll(r, tip, m, k, payloads).error.None?
    ensures PayloadsOf(SealAll(r, tip, m, k, payloads).events) == payloads
    decreases |payloads|
  {
    if payloads != [] {
      var e := Appended(r.digest, r.device, tip, Header(r, m, k), payloads[0]).value;
      SealAllKeepsPayloads(r, e.Tip(), m, k + 1, payloads[1..]);
    }
  }

  function OneSealed(r: Rules, tip: ChainTip, m: Moment, k: nat, p: Payload): Sealing
  {
    var sealed := Appended(r.digest, r.device, tip, Header(r, m, k), p);
    if sealed.Err? then Sealing(tip, [], Some(sealed.error)) else Sealing(sealed.value.Tip(), [sealed.value], None)
  }

  function TwoSealed(r: Rules, tip: ChainTip, m: Moment, p: Payload, q: Payload): Sealing
  {
    var first := OneSealed(r, tip, m, 0, p);
    if first.error.Some? then first
    else
      var second := OneSealed(r, first.tip, m, 1, q);
      Sealing(second.tip, first.events + second.events, second.error)
  }

  lemma SealingOne(r: Rules, tip: ChainTip, m: Moment, k: nat, p: Payload)
    ensures SealAll(r, tip, m, k, [p]) == OneSealed(r, tip, m, k, p)
  {
    assert [p][1..] == [];
    var one := OneSealed(r, tip, m, k, p);
    if one.error.None? {
      assert SealAll(r, one.tip, m, k + 1, []) == Sealing(one.tip, [], None);
      assert one.events + [] == one.events;
    }
  }

  lemma SealingTwo(r: Rules, tip: ChainTip, m: Moment, p: Payload, q: Payload)
    ensures SealAll(r, tip, m, 0, [p, q]) == TwoSealed(r, tip, m, p, q)
  {
    assert [p, q][1..] == [q];
    var first := OneSealed(r, tip, m, 0, p);
    if first.error.None? {
      SealingOne(r, first.tip, m, 1, q);
    }
  }

  lemma AppendOne(rows: seq<Row<Payload>>, e: Envelope<Payload>, disk: bool)
    ensures AppendAllTo(rows, [e], disk) == AppendTo(rows, e, disk)
  {
    assert [e][1..] == [];
  }

  /** A batch that continues the stored chain and is accepted leaves the table sound, and longer by it. */
  lemma {:induction false} AppendAllKeepsSound(
    r: Rules, rows: seq<Row<Payload>>, events: seq<Envelope<Payload>>, disk: bool)
    requires Sound(r.digest, r.device, rows) && DistinctIds(rows)
    requires Chained(r.digest, events, End(Own(rows), GENESIS))
    requires forall i :: 0 <= i < |events| ==> events[i].header.deviceId == r.device
    requires AppendAllTo(rows, events, disk).Ok?
    ensures var after := AppendAllTo(rows, events, disk).value;
            Sound(r.digest, r.device, after) && DistinctIds(after) && Own(after) == Own(rows) + events
    decreases |events|
  {
    if events == [] {
      assert Own(rows) + [] == Own(rows);
    } else {
      var start, e, rest := End(Own(rows), GENESIS), events[0], events[1..];
      assert FollowsAt(r.digest, events, start, 0);
      assert events[..0] == [] && events[..1] == [e];
      AppendKeepsSound(r.digest, r.device, rows, e, disk);
      WritesKeepIdsDistinct(rows, e, disk);
      ChainedSuffix(r.digest, events, start, 1);
      var next := AppendTo(rows, e, disk).value;
      assert End(Own(next), GENESIS) == e.Tip() == End(events[..1], start);
      AppendAllKeepsSound(r, next, rest, disk);
      assert Own(rows) + events == (Own(rows) + [e]) + rest;
    }
  }

  /** What a write can do: add exactly its events and adopt the books, or change only the tip. */
  ghost predicate WroteAllOrNothing(r: Rules, t: State, a: Accepted, after: Attempt)
  {
    if after.result.Ok? then
      && InStep(t)
      && PayloadsOf(after.result.value) == a.payloads
      && Own(after.state.rows) == Own(t.rows) + after.result.value
      && after.state.books == a.books
      && InStep(after.state)
    else
      && after.state.rows == t.rows
      && after.state.books == t.books
  }

  lemma WriteKeepsLog(r: Rules, t: State, a: Accepted, m: Moment)
    requires LogIntact(r, t) && a.payloads != []
    ensures LogIntact(r, Write(r, t, a, m).state)
    ensures WroteAllOrNothing(r, t, a, Write(r, t, a, m))
  {
    var s := SealAll(r, t.tip, m, 0, a.payloads);
    SealAllIsChained(r, t.tip, m, 0, a.payloads);
    ChainedEnd(r.digest, s.events, t.tip);
    if s.error.None? && AppendAllTo(t.rows, s.events, m.disk).Ok? {
      SealAllKeepsPayloads(r, t.tip, m, 0, a.payloads);
      AheadIsRefused(r, t, s.events, m.disk);
      StoredRunKeepsLog(r, t, s.events, m.disk);
    }
  }

  lemma StoredRunKeepsLog(r: Rules, t: State, events: seq<Envelope<Payload>>, disk: bool)
    requires LogIntact(r, t) && InStep(t) && Chained(r.digest, events, t.tip)
    requires forall i :: 0 <= i < |events| ==> events[i].header.deviceId == r.device
    requires AppendAllTo(t.rows, events, disk).Ok?
    ensures var after := AppendAllTo(t.rows, events, disk).value;
            && Sound(r.digest, r.device, after) && DistinctIds(after)
            && Own(after) == Own(t.rows) + events
            && End(Own(after), GENESIS) == End(events, t.tip)
  {
    AppendAllKeepsSound(r, t.rows, events, disk);
    OwnNamesTheDevice(r, t.rows);
    ChainedConcat(r.digest, Own(t.rows), events, GENESIS);
  }

  lemma OwnNamesTheDevice(r: Rules, rows: seq<Row<Payload>>)
    requires Sound(r.digest, r.device, rows)
    ensures Own(rows) != [] ==> Own(rows)[0].header.deviceId == r.device
  {
    if Own(rows) != [] {
      OwnIsFromRows(rows, 0);
    }
  }

  /** Nothing sealed from a tip ahead of the disk can be stored. */
  lemma AheadIsRefused(r: Rules, t: State, events: seq<Envelope<Payload>>, disk: bool)
    requires LogIntact(r, t) && events != [] && Chained(r.digest, events, t.tip)
    requires forall i :: 0 <= i < |events| ==> events[i].header.deviceId == r.device
    requires AppendAllTo(t.rows, events, disk).Ok?
    ensures InStep(t)
  {
    TipIsTheEnd(r.digest, r.device, t.rows);
    ChainedAt(r.digest, events, t.tip, 0);
  }

  lemma AcceptedWritesSomething(r: Rules, b: Books, action: Action, at: I64)
    requires Accept(r, b, action, at).Ok?
    ensures Accept(r, b, action, at).value.payloads != []
  {
  }

  lemma PerformKeepsLog(r: Rules, t: State, action: Action, m: Moment)
    requires LogIntact(r, t)
    ensures LogIntact(r, Perform(r, t, action, m).state)
  {
    if Accept(r, t.books, action, m.at).Ok? {
      AcceptedWritesSomething(r, t.books, action, m.at);
      WriteKeepsLog(r, t, Accept(r, t.books, action, m.at).value, m);
    }
  }

  lemma {:induction false} PulledKeepsLog(
    r: Rules, rows: seq<Row<Payload>>, page: seq<Envelope<Payload>>, works: nat)
    requires Sound(r.digest, r.device, rows) && DistinctIds(rows) && FromSiblings(r, page)
    ensures var after := Pulled(r, rows, page, works).0;
            Sound(r.digest, r.device, after) && DistinctIds(after) && Own(after) == Own(rows)
    decreases |page|
  {
    if page != [] && Verify(r.digest, page[0]).Ok? && InsertRemoteInto(rows, page[0], works > 0).Ok? {
      var next := WithRemote(rows, page[0]);
      assert Sound(r.digest, r.device, next) && DistinctIds(next) && Own(next) == Own(rows) by {
        InsertKeepsSound(r.digest, r.device, rows, page[0]);
        WritesKeepIdsDistinct(rows, page[0], true);
      }
      assert FromSiblings(r, page[1..]);
      PulledKeepsLog(r, next, page[1..], works - 1);
      assert Pulled(r, rows, page, works) == Pulled(r, next, page[1..], works - 1);
    }
  }

  /** A sound table never loads as corrupt, and a restart puts the chain back at its end. */
  lemma LoadIsInStep(r: Rules, rows: seq<Row<Payload>>)
    requires Sound(r.digest, r.device, rows)
    ensures VerifyChainFromGenesis(r.digest, LoadAll(rows)).Ok?
    ensures Load(r, rows).Err? ==> !Load(r, rows).error.CorruptLog?
    ensures Load(r, rows).Ok? ==> Load(r, rows).value.rows == rows && InStep(Load(r, rows).value)
  {
    LoadAllIsTheLog(r.digest, r.device, rows);
    GenesisCheckIsChained(r.digest, Own(rows));
    TipIsTheEnd(r.digest, r.device, rows);
  }

  /** A restart reports a corrupt log exactly when the own events, by sequence, are not one chain from genesis. */
  lemma CorruptExactlyWhen(r: Rules, rows: seq<Row<Payload>>)
    ensures Load(r, rows).Err? && Load(r, rows).error.CorruptLog? <==> !Chained(r.digest, LoadAll(rows), GENESIS)
  {
    GenesisCheckIsChained(r.digest, LoadAll(rows));
  }

  lemma {:induction false} OwnHas(rows: seq<Row<Payload>>, i: nat)
    requires i < |rows| && rows[i].origin.Local?
    ensures rows[i].event in Own(rows)
  {
    if i < |rows| - 1 {
      OwnHas(rows[..|rows| - 1], i);
    }
  }

  /**
   A row of the own log altered on the disk under its old seal, in any field: the next restart reports a
   corrupt log, or the digest has been broken.
   */
  lemma AlteredRowStopsTheTill(r: Rules, rows: seq<Row<Payload>>, i: nat, altered: Envelope<Payload>)
    requires i < |rows| && Verify(r.digest, rows[i].event).Ok?
    requires altered.hash == rows[i].event.hash && altered != rows[i].event
    ensures var after := Load(r, rows[i := Row(altered, Local)]);
            Broken(r.digest) || (after.Err? && after.error.CorruptLog?)
  {
    var after := rows[i := Row(altered, Local)];
    CorruptExactlyWhen(r, after);
    if Chained(r.digest, LoadAll(after), GENESIS) {
      OwnHas(after, i);
      OrdersAreTotal<Payload>();
      SortKeepsElements(SeqLe, Own(after));
      var k :| 0 <= k < |LoadAll(after)| && LoadAll(after)[k] == altered;
      ChainedAt(r.digest, LoadAll(after), GENESIS, k);
      assert Collides(r.digest, altered.Input(), rows[i].event.Input());
    }
  }

  lemma NextKeepsLog(r: Rules, t: State, step: Step)
    requires LogIntact(r, t) && Next(r, t, step).Ok?
    requires step.PullPage? ==> FromSiblings(r, step.page)
    ensures LogIntact(r, Next(r, t, step).value)
  {
    match step {
      case Act(action, moment) => PerformKeepsLog(r, t, action, moment);
      case PullPage(page, works) => PulledKeepsLog(r, t.rows, page, works);
      case Restart => LoadIsInStep(r, t.rows);
    }
  }

  /**
   Whatever happens — refused actions, failed writes, pulls, restarts — the stored log is this device's
   unbroken chain, and no restart ever finds it corrupt.
   */
  lemma {:induction false} EveryRunKeepsTheLog(r: Rules, steps: seq<Step>)
    requires PullsAreFromSiblings(r, steps) && Run(r, steps).Ok?
    ensures LogIntact(r, Run(r, steps).value)
    ensures VerifyChainFromGenesis(r.digest, LoadAll(Run(r, steps).value.rows)).Ok?
  {
    if steps == [] {
      FirstBootSucceeds(r);
    } else {
      var n := |steps| - 1;
      EveryRunKeepsTheLog(r, steps[..n]);
      NextKeepsLog(r, Run(r, steps[..n]).value, steps[n]);
    }
    LoadIsInStep(r, Run(r, steps).value.rows);
  }

  lemma {:induction false} NoRunEndsCorrupt(r: Rules, steps: seq<Step>)
    requires PullsAreFromSiblings(r, steps)
    ensures Run(r, steps).Err? ==> !Run(r, steps).error.CorruptLog?
  {
    if steps == [] {
      FirstBootSucceeds(r);
    } else {
      var n := |steps| - 1;
      if Run(r, steps[..n]).Err? {
        NoRunEndsCorrupt(r, steps[..n]);
      } else {
        EveryRunKeepsTheLog(r, steps[..n]);
        LoadIsInStep(r, Run(r, steps[..n]).value.rows);
      }
    }
  }

  /**
   After a failed write the till refuses to write again: no action changes the table or the books, and
   the chain stays ahead, until a restart.
   */
  lemma AheadOfTheDiskIsFailStop(r: Rules, t: State, action: Action, m: Moment)
    requires LogIntact(r, t) && !InStep(t)
    ensures var after := Perform(r, t, action, m);
            && after.result.Err?
            && after.state.rows == t.rows
            && after.state.books == t.books
            && !InStep(after.state)
  {
    PerformKeepsLog(r, t, action, m);
    if Accept(r, t.books, action, m.at).Ok? {
      var a := Accept(r, t.books, action, m.at).value;
      AcceptedWritesSomething(r, t.books, action, m.at);
      WriteKeepsLog(r, t, a, m);
      SealAllIsChained(r, t.tip, m, 0, a.payloads);
      var s := SealAll(r, t.tip, m, 0, a.payloads);
      ChainedEnd(r.digest, s.events, t.tip);
    }
  }

  // ---------- what an action can count on ----------

  /** Ids that no row has and that differ among themselves. */
  ghost predicate IdsAreNew(rows: seq<Row<Payload>>, events: seq<Envelope<Payload>>)
  {
    && (forall i, j :: 0 <= i < |events| && 0 <= j < |rows| ==>
          rows[j].event.header.eventId != events[i].header.eventId)
    && (forall i, j :: 0 <= i < j < |events| ==> events[i].header.eventId != events[j].header.eventId)
  }

  lemma IdsAfterOne(rows: seq<Row<Payload>>, events: seq<Envelope<Payload>>)
    requires events != []
    ensures IdsAreNew(rows, events)
       <==> (forall j :: 0 <= j < |rows| ==> rows[j].event.header.eventId != events[0].header.eventId)
            && IdsAreNew(rows + [Row(events[0], Local)], events[1..])
  {
    var next, rest := rows + [Row(events[0], Local)], events[1..];
    assert forall i :: 0 <= i < |rest| ==> rest[i] == events[i + 1];
    assert next[|rows|].event == events[0];
    if IdsAreNew(next, rest) {
      assert forall j :: 0 <= j < |rows| ==> next[j] == rows[j];
      assert forall i :: 0 < i < |events| ==> events[i] == rest[i - 1];
    }
  }

  /** Events of this device that continue its stored chain. */
  ghost predicate Continues(r: Rules, rows: seq<Row<Payload>>, events: seq<Envelope<Payload>>)
  {
    && Sound(r.digest, r.device, rows) && DistinctIds(rows)
    && Chained(r.digest, events, End(Own(rows), GENESIS))
    && (forall i :: 0 <= i < |events| ==> events[i].header.deviceId == r.device)
  }

  lemma StoreTheFirst(r: Rules, rows: seq<Row<Payload>>, events: seq<Envelope<Payload>>, disk: bool)
    requires Continues(r, rows, events) && events != []
    ensures AppendTo(rows, events[0], disk).Ok?
       <==> disk && End(Own(rows), GENESIS).deviceSeq + 1 <= I64_MAX
            && forall j :: 0 <= j < |rows| ==> rows[j].event.header.eventId != events[0].header.eventId
    ensures AppendTo(rows, events[0], disk).Ok? ==>
              var next := rows + [Row(events[0], Local)];
              && AppendTo(rows, events[0], disk) == Ok(next)
              && Continues(r, next, events[1..])
              && End(Own(next), GENESIS).deviceSeq == End(Own(rows), GENESIS).deviceSeq + 1
  {
    var start, e := End(Own(rows), GENESIS), events[0];
    ChainedAt(r.digest, events, start, 0);
    assert FollowsAt(r.digest, events, start, 0);
    assert events[..0] == [] && events[..1] == [e];
    FollowingEventIsStored(r.digest, r.device, rows, e, disk);
    if AppendTo(rows, e, disk).Ok? {
      AppendKeepsSound(r.digest, r.device, rows, e, disk);
      WritesKeepIdsDistinct(rows, e, disk);
      ChainedSuffix(r.digest, events, start, 1);
      assert End(Own(rows) + [e], GENESIS) == e.Tip() == End(events[..1], start);
    }
  }

  /** A run sealed onto the stored chain is stored exactly when the disk works, the ids are new and it fits. */
  lemma {:induction false} RunIsStoredExactly(
    r: Rules, rows: seq<Row<Payload>>, events: seq<Envelope<Payload>>, disk: bool)
    requires Continues(r, rows, events) && events != []
    ensures AppendAllTo(rows, events, disk).Ok?
       <==> disk && IdsAreNew(rows, events) && End(Own(rows), GENESIS).deviceSeq + |events| <= I64_MAX
    decreases |events|
  {
    StoreTheFirst(r, rows, events, disk);
    IdsAfterOne(rows, events);
    if AppendTo(rows, events[0], disk).Ok? && |events| > 1 {
      RunIsStoredExactly(r, rows + [Row(events[0], Local)], events[1..], disk);
    }
  }

  /** The ids the world gave, as far as `n` events use them, are new to the table and to each other. */
  predicate FreshIds(t: State, m: Moment, n: nat)
  {
    && (n >= 1 ==> forall i :: 0 <= i < |t.rows| ==> t.rows[i].event.header.eventId != m.first)
    && (n >= 2 ==> m.first != m.second && forall i :: 0 <= i < |t.rows| ==> t.rows[i].event.header.eventId != m.second)
  }

  lemma SealedIds(r: Rules, tip: ChainTip, m: Moment, payloads: seq<Payload>)
    requires 1 <= |payloads| <= 2
    ensures var events := SealAll(r, tip, m, 0, payloads).events;
            && |events| <= |payloads|
            && (SealAll(r, tip, m, 0, payloads).error.None? ==> |events| == |payloads|)
            && (|events| > 0 ==> events[0].header.eventId == m.first)
            && (|events| > 1 ==> events[1].header.eventId == m.second)
  {
    if |payloads| == 1 {
      assert payloads == [payloads[0]];
      SealingOne(r, tip, m, 0, payloads[0]);
    } else {
      assert payloads == [payloads[0], payloads[1]];
      SealingTwo(r, tip, m, payloads[0], payloads[1]);
    }
  }

  lemma FreshIdsAreNew(t: State, m: Moment, events: seq<Envelope<Payload>>)
    requires 1 <= |events| <= 2 && events[0].header.eventId == m.first
    requires |events| > 1 ==> events[1].header.eventId == m.second
    ensures IdsAreNew(t.rows, events) <==> FreshIds(t, m, |events|)
  {
    if IdsAreNew(t.rows, events) {
      assert events[0].header.eventId == m.first;
    }
  }

  /** What the world must supply for the events of an action to be stored, from a till in step. */
  predicate CanBeStored(t: State, m: Moment, n: nat)
  {
    m.disk && FreshIds(t, m, n) && t.tip.deviceSeq + n <= I64_MAX
  }

  /** Everything the action writes has a canonical form, and the sequence has room to seal it. */
  predicate CanBeSealed(r: Rules, t: State, a: Accepted, m: Moment)
  {
    SealAll(r, t.tip, m, 0, a.payloads).error.None?
  }

  /** Not even the first event can be sealed. */
  predicate NothingSeals(r: Rules, t: State, a: Accepted, m: Moment)
  {
    SealAll(r, t.tip, m, 0, a.payloads).events == []
  }

  lemma AcceptedWritesOneOrTwo(r: Rules, b: Books, action: Action, at: I64)
    requires Accept(r, b, action, at).Ok?
    ensures 1 <= |Accept(r, b, action, at).value.payloads| <= 2
  {
  }

  /**
   A till that is in step stores and adopts what it accepts exactly when it can be sealed, the disk works,
   the ids are new and the sequence has room for it. Nothing outside the till is asked: this is what keeps
   it selling.
   */
  lemma AcceptedIsStoredExactly(r: Rules, t: State, a: Accepted, m: Moment)
    requires LogIntact(r, t) && InStep(t) && 1 <= |a.payloads| <= 2
    ensures Write(r, t, a, m).result.Ok? <==> CanBeSealed(r, t, a, m) && CanBeStored(t, m, |a.payloads|)
    ensures Write(r, t, a, m).result.Ok? ==> Write(r, t, a, m).state.books == a.books
  {
    var s := SealAll(r, t.tip, m, 0, a.payloads);
    SealAllIsChained(r, t.tip, m, 0, a.payloads);
    SealedIds(r, t.tip, m, a.payloads);
    if s.error.None? {
      RunIsStoredExactly(r, t.rows, s.events, m.disk);
      FreshIdsAreNew(t, m, s.events);
    }
  }

  /** What is not stored is refused by the chain where it could not be sealed, and by the store where it could. */
  lemma WriteIsRefusedByName(r: Rules, t: State, a: Accepted, m: Moment)
    requires Write(r, t, a, m).result.Err?
    ensures if CanBeSealed(r, t, a, m) then Write(r, t, a, m).result.error.StoreRefused?
            else Write(r, t, a, m).result.error.EventRefused?
  {
  }

  /**
   From a till in step, an action leaves the chain ahead of the disk exactly when something was sealed and
   it could not all be sealed and stored.
   */
  lemma WhenATillFallsOutOfStep(r: Rules, t: State, action: Action, m: Moment)
    requires LogIntact(r, t) && InStep(t)
    ensures InStep(Perform(r, t, action, m).state)
       <==> var accepted := Accept(r, t.books, action, m.at);
            || accepted.Err?
            || NothingSeals(r, t, accepted.value, m)
            || (CanBeSealed(r, t, accepted.value, m) && CanBeStored(t, m, |accepted.value.payloads|))
  {
    if Accept(r, t.books, action, m.at).Ok? {
      AcceptedWritesOneOrTwo(r, t.books, action, m.at);
      WriteStaysInStepExactly(r, t, Accept(r, t.books, action, m.at).value, m);
    }
  }

  lemma WriteStaysInStepExactly(r: Rules, t: State, a: Accepted, m: Moment)
    requires LogIntact(r, t) && InStep(t) && 1 <= |a.payloads| <= 2
    ensures InStep(Write(r, t, a, m).state)
       <==> NothingSeals(r, t, a, m) || (CanBeSealed(r, t, a, m) && CanBeStored(t, m, |a.payloads|))
  {
    var s := SealAll(r, t.tip, m, 0, a.payloads);
    AcceptedIsStoredExactly(r, t, a, m);
    WriteKeepsLog(r, t, a, m);
    SealAllIsChained(r, t.tip, m, 0, a.payloads);
    SealedIds(r, t.tip, m, a.payloads);
    ChainedEnd(r.digest, s.events, t.tip);
  }

  // ---------- a page delivered twice ----------

  /** The part of a page a pull gets through. */
  function Reached(r: Rules, page: seq<Envelope<Payload>>, works: nat): seq<Envelope<Payload>>
  {
    if page == [] || Verify(r.digest, page[0]).Err? || page[0].deviceSeq > I64_MAX || works == 0 then []
    else [page[0]] + Reached(r, page[1..], works - 1)
  }

  ghost predicate AllClash(rows: seq<Row<Payload>>, page: seq<Envelope<Payload>>)
  {
    forall i :: 0 <= i < |page| ==> Clashes(rows, page[i])
  }

  lemma {:induction false} PulledIsHeld(r: Rules, rows: seq<Row<Payload>>, page: seq<Envelope<Payload>>, works: nat)
    ensures AllClash(Pulled(r, rows, page, works).0, Reached(r, page, works))
    ensures rows <= Pulled(r, rows, page, works).0
    decreases |page|
  {
    if Reached(r, page, works) != [] {
      var next := WithRemote(rows, page[0]);
      var after := Pulled(r, rows, page, works).0;
      RedeliveryIsIgnored(rows, page[0]);
      PulledIsHeld(r, next, page[1..], works - 1);
      assert after == next + after[|next|..];
      ClashesStay(next, after[|next|..], page[0]);
      var seen := Reached(r, page, works);
      forall i | 0 <= i < |seen| ensures Clashes(after, seen[i]) {
        assert i > 0 ==> seen[i] == Reached(r, page[1..], works - 1)[i - 1];
      }
    }
  }

  lemma {:induction false} HeldPageChangesNothing(
    r: Rules, rows: seq<Row<Payload>>, page: seq<Envelope<Payload>>, works: nat)
    requires AllClash(rows, Reached(r, page, works))
    ensures Pulled(r, rows, page, works).0 == rows
    decreases |page|
  {
    if Reached(r, page, works) != [] {
      var seen := Reached(r, page, works);
      assert Clashes(rows, seen[0]);
      var rest := Reached(r, page[1..], works - 1);
      forall i | 0 <= i < |rest| ensures Clashes(rows, rest[i]) {
        assert Clashes(rows, seen[i + 1]);
      }
      HeldPageChangesNothing(r, rows, page[1..], works - 1);
    }
  }

  /** Fewer working calls get through a prefix of the page, and a page done with leaves nothing to reach. */
  lemma {:induction false} ReachedGrows(
    r: Rules, rows: seq<Row<Payload>>, page: seq<Envelope<Payload>>, first: nat, second: nat)
    requires second <= first || Pulled(r, rows, page, first).1
    ensures Reached(r, page, second) <= Reached(r, page, first)
    decreases |page|
  {
    if Reached(r, page, second) != [] {
      ReachedGrows(r, WithRemote(rows, page[0]), page[1..], first - 1, second - 1);
    }
  }

  /** A page that reaches nothing it did not reach before changes nothing. */
  lemma NothingNewChangesNothing(r: Rules, t: State, page: seq<Envelope<Payload>>, first: nat, second: nat)
    requires Reached(r, page, second) <= Reached(r, page, first)
    ensures Pull(r, Pull(r, t, page, first), page, second) == Pull(r, t, page, first)
  {
    PulledIsHeld(r, t.rows, page, first);
    var rows := Pulled(r, t.rows, page, first).0;
    forall i | 0 <= i < |Reached(r, page, second)| ensures Clashes(rows, Reached(r, page, second)[i]) {
      assert Clashes(rows, Reached(r, page, first)[i]);
    }
    HeldPageChangesNothing(r, rows, page, second);
  }

  /**
   Pull pages may overlap after a crash: the same page again changes nothing at all, unless the first
   pull broke off on the database and the second gets further.
   */
  lemma PageAgainChangesNothing(r: Rules, t: State, page: seq<Envelope<Payload>>, first: nat, second: nat)
    requires second <= first || Pulled(r, t.rows, page, first).1
    ensures Pull(r, Pull(r, t, page, first), page, second) == Pull(r, t, page, first)
  {
    ReachedGrows(r, t.rows, page, first, second);
    NothingNewChangesNothing(r, t, page, first, second);
  }
}
