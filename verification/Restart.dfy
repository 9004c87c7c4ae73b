/**
 When a till refuses to start: exactly which tables a restart cannot be read back from.

 Sales, the catalogue, the floor, the outlet and orders step over what does not apply. Stock and staff do
 not: a batch or a person must be read before anything that uses it. And the last shift read must read as
 a shift. The log is read by clock and id, so a clock set back is what breaks either.
 */
module Restart {
  import opened Base
  import opened Sorting
  import opened EventLog
  import opened EventStore
  import opened TillBooks
  import opened Till
  import opened Reload
  import IB = InventoryBook
  import Shifts
  import Staff

  type Event = Envelope<Payload>

  // ---------- what must come first ----------

  /** What an event means for things that are made once and then used. */
  datatype Touch = Nothing | Creates(id: Uuid) | Uses(id: Uuid)

  function StockTouch(e: Event): Touch
  {
    if !e.payload.StockMoved? then Nothing
    else if e.payload.stock.BatchReceived? then Creates(e.payload.stock.batchId)
    else Uses(e.payload.stock.batchId)
  }

  function StaffTouch(e: Event): Touch
  {
    if !e.payload.StaffChanged? then Nothing
    else if e.payload.staff.Enrolled? then Creates(e.payload.staff.staffId)
    else Uses(e.payload.staff.staffId)
  }

  predicate CreatedIn(touch: Event -> Touch, events: seq<Event>, id: Uuid)
  {
    exists j :: 0 <= j < |events| && touch(events[j]) == Creates(id)
  }

  /** Nothing is made twice, and nothing is used before it is made. */
  ghost predicate MadeOnceThenUsed(touch: Event -> Touch, events: seq<Event>)
  {
    forall i :: 0 <= i < |events| ==> InItsPlace(touch, events, i)
  }

  predicate InItsPlace(touch: Event -> Touch, events: seq<Event>, i: nat)
    requires i < |events|
  {
    match touch(events[i])
    case Nothing => true
    case Creates(id) => !CreatedIn(touch, events[..i], id)
    case Uses(id) => CreatedIn(touch, events[..i], id)
  }

  lemma NextInItsPlace(touch: Event -> Touch, events: seq<Event>)
    requires events != []
    ensures var n := |events| - 1;
            MadeOnceThenUsed(touch, events) <==> MadeOnceThenUsed(touch, events[..n]) && InItsPlace(touch, events, n)
  {
    var n := |events| - 1;
    forall i | 0 <= i < n ensures InItsPlace(touch, events[..n], i) <==> InItsPlace(touch, events, i) {
      assert events[..n][..i] == events[..i];
    }
    if MadeOnceThenUsed(touch, events[..n]) && InItsPlace(touch, events, n) {
      forall i | 0 <= i < |events| ensures InItsPlace(touch, events, i) {
        if i < n {
          assert InItsPlace(touch, events[..n], i);
        }
      }
    }
    if MadeOnceThenUsed(touch, events) {
      forall i | 0 <= i < n ensures InItsPlace(touch, events[..n], i) {
        assert InItsPlace(touch, events, i);
      }
    }
  }

  lemma NextCreated(touch: Event -> Touch, events: seq<Event>, id: Uuid)
    requires events != []
    ensures var n := |events| - 1;
            CreatedIn(touch, events, id) <==> CreatedIn(touch, events[..n], id) || touch(events[n]) == Creates(id)
  {
    var n := |events| - 1;
    assert forall j :: 0 <= j < n ==> events[..n][j] == events[j];
  }

  lemma MadeAgain(touch: Event -> Touch, events: seq<Event>, k: nat, l: nat)
    requires k < l < |events| && touch(events[k]).Creates? && touch(events[k]) == touch(events[l])
    ensures !MadeOnceThenUsed(touch, events)
  {
    assert events[..l][k] == events[k];
    assert !InItsPlace(touch, events, l);
  }

  // ---------- reading stock and staff ----------

  /** Quantities that move are positive, and counts are not negative. */
  predicate Signed(e: IB.InventoryEvent)
  {
    if e.BatchCounted? then e.counted >= 0 else e.quantity > 0
  }

  predicate SignedRight(e: Event) { e.payload.StockMoved? ==> Signed(e.payload.stock) }

  ghost predicate AllSignedRight(events: seq<Event>)
  {
    forall i :: 0 <= i < |events| ==> SignedRight(events[i])
  }

  /** How far an event can move a level. */
  function Moves(e: IB.InventoryEvent): nat { Abs(if e.BatchCounted? then e.counted else e.quantity) }

  function Reach(e: Event): nat { if e.payload.StockMoved? then Moves(e.payload.stock) else 0 }

  /** All quantities and counts together are a quantity: no level can leave its range, in any order. */
  predicate InRange(events: seq<Event>) { SumBy(Reach, events) <= I64_MAX }

  /** What has been gathered knows exactly the batches and people made so far. */
  ghost predicate KnowsWhatWasMade(g: Gathered, events: seq<Event>)
  {
    && (forall id :: id in g.stock.levels <==> CreatedIn(StockTouch, events, id))
    && (forall id :: id in g.staff <==> CreatedIn(StaffTouch, events, id))
  }

  ghost predicate LevelsWithin(stock: IB.Stock, most: nat)
  {
    forall id :: id in stock.levels ==> Abs(stock.levels[id].onHand) <= most
  }

  function ShiftsIn(events: seq<Event>): seq<Shifts.ShiftEvent>
  {
    if events == [] then []
    else
      var p := events[|events| - 1].payload;
      ShiftsIn(events[..|events| - 1]) + if p.ShiftRecorded? then [p.shift] else []
  }

  /** One movement applies exactly when it is signed right and receives a batch once, then uses it. */
  lemma StockApplies(s: IB.Stock, e: IB.InventoryEvent, most: nat)
    requires LevelsWithin(s, most)
    ensures var fine := Signed(e) && (e.BatchReceived? <==> e.batchId !in s.levels);
            && (IB.ApplyTo(s, e).Ok? ==> fine)
            && (fine && most + Moves(e) <= I64_MAX ==>
                  IB.ApplyTo(s, e).Ok? && LevelsWithin(IB.ApplyTo(s, e).value, most + Moves(e)))
  {
  }

  /** What one event adds to the batches and people known. */
  lemma WhatIsKnownGrows(r: Rules, g: Gathered, e: Event)
    requires Project(r, g, e.payload).Ok?
    ensures var next := Project(r, g, e.payload).value;
            && (forall id :: id in next.stock.levels <==> id in g.stock.levels || StockTouch(e) == Creates(id))
            && (forall id :: id in next.staff <==> id in g.staff || StaffTouch(e) == Creates(id))
  {
  }

  lemma MadeStays(r: Rules, g: Gathered, events: seq<Event>, next: Gathered)
    requires events != [] && KnowsWhatWasMade(g, events[..|events| - 1])
    requires Project(r, g, events[|events| - 1].payload) == Ok(next)
    ensures KnowsWhatWasMade(next, events)
  {
    WhatIsKnownGrows(r, g, events[|events| - 1]);
    forall id ensures id in next.stock.levels <==> CreatedIn(StockTouch, events, id) {
      NextCreated(StockTouch, events, id);
    }
    forall id ensures id in next.staff <==> CreatedIn(StaffTouch, events, id) {
      NextCreated(StaffTouch, events, id);
    }
  }

  /** One event is taken in exactly when it is signed right and both kinds are in their place. */
  lemma TakenInExactly(r: Rules, g: Gathered, events: seq<Event>, most: nat)
    requires events != [] && KnowsWhatWasMade(g, events[..|events| - 1]) && LevelsWithin(g.stock, most)
    ensures var n := |events| - 1;
            var next := Project(r, g, events[n].payload);
            var fine :=
              SignedRight(events[n]) && InItsPlace(StockTouch, events, n) && InItsPlace(StaffTouch, events, n);
            && (next.Ok? ==> fine)
            && (fine && most + Reach(events[n]) <= I64_MAX ==>
                  next.Ok? && LevelsWithin(next.value.stock, most + Reach(events[n])))
  {
    var n := |events| - 1;
    if events[n].payload.StockMoved? {
      var e := events[n].payload.stock;
      StockApplies(g.stock, e, most);
      assert e.batchId in g.stock.levels <==> CreatedIn(StockTouch, events[..n], e.batchId);
    } else if events[n].payload.StaffChanged? {
      var e := events[n].payload.staff;
      assert e.staffId in g.staff <==> CreatedIn(StaffTouch, events[..n], e.staffId);
    }
  }

  /** The events can be gathered, as far as stock and staff go. */
  ghost predicate ReadsThrough(events: seq<Event>)
  {
    && AllSignedRight(events)
    && MadeOnceThenUsed(StockTouch, events)
    && MadeOnceThenUsed(StaffTouch, events)
  }

  lemma NextReadsThrough(events: seq<Event>)
    requires events != []
    ensures var n := |events| - 1;
            ReadsThrough(events) <==>
              && ReadsThrough(events[..n]) && SignedRight(events[n])
              && InItsPlace(StockTouch, events, n) && InItsPlace(StaffTouch, events, n)
  {
    NextInItsPlace(StockTouch, events);
    NextInItsPlace(StaffTouch, events);
    assert forall i :: 0 <= i < |events| - 1 ==> events[..|events| - 1][i] == events[i];
  }

  /** Whatever is gathered read through, and knows what was made. */
  lemma {:induction false} GatheredReadThrough(r: Rules, events: seq<Event>)
    requires Gather(r, events).Ok?
    ensures ReadsThrough(events) && KnowsWhatWasMade(Gather(r, events).value, events)
  {
    if events != [] {
      var n := |events| - 1;
      var g := Gather(r, events[..n]).value;
      GatheredReadThrough(r, events[..n]);
      assert LevelsWithin(g.stock, -I64_MIN);
      TakenInExactly(r, g, events, -I64_MIN);
      NextReadsThrough(events);
      MadeStays(r, g, events, Gather(r, events).value);
    }
  }

  lemma {:induction false} GatheredShifts(r: Rules, events: seq<Event>)
    requires Gather(r, events).Ok?
    ensures Gather(r, events).value.shifts == ShiftsIn(events)
  {
    if events != [] {
      GatheredShifts(r, events[..|events| - 1]);
    }
  }

  /** Within range, whatever reads through is gathered. */
  lemma {:induction false} ReadThroughIsGathered(r: Rules, events: seq<Event>)
    requires ReadsThrough(events) && InRange(events)
    ensures Gather(r, events).Ok? && LevelsWithin(Gather(r, events).value.stock, SumBy(Reach, events))
  {
    if events != [] {
      var n := |events| - 1;
      NextReadsThrough(events);
      SumByOne(Reach, events[..n], events[n]);
      assert events[..n] + [events[n]] == events;
      ReadThroughIsGathered(r, events[..n]);
      GatheredReadThrough(r, events[..n]);
      TakenInExactly(r, Gather(r, events[..n]).value, events, SumBy(Reach, events[..n]));
    }
  }

  // ---------- any table ----------

  /**
   Exactly when a table cannot be loaded, its quantities together in range: read by the clock, something is
   signed wrong, a batch or a person is made twice or used before it is made, or the last shift read does
   not read as a shift.
   */
  lemma LoadsExactlyWhen(r: Rules, rows: seq<Row<Payload>>)
    requires Sound(r.digest, r.device, rows) && InRange(Events(rows))
    ensures Load(r, rows).Ok?
       <==> ReadsThrough(ProjectionInput(rows)) && Shifts.ReadsAsDrawer(ShiftsIn(ProjectionInput(rows)))
  {
    var read := ProjectionInput(rows);
    LoadIsInStep(r, rows);
    SumByIgnoresOrder(Reach, read, Events(rows));
    if Gather(r, read).Ok? {
      GatheredReadThrough(r, read);
      GatheredShifts(r, read);
      Shifts.DrawerReadsBackExactly(ShiftsIn(read));
    } else if ReadsThrough(read) {
      ReadThroughIsGathered(r, read);
    }
  }

  /** In range or not, what loads has read through and its drawer as a drawer. */
  lemma LoadedReadThrough(r: Rules, rows: seq<Row<Payload>>)
    requires Load(r, rows).Ok?
    ensures ReadsThrough(ProjectionInput(rows)) && Shifts.ReadsAsDrawer(ShiftsIn(ProjectionInput(rows)))
  {
    GatheredReadThrough(r, ProjectionInput(rows));
    GatheredShifts(r, ProjectionInput(rows));
    Shifts.DrawerReadsBackExactly(ShiftsIn(ProjectionInput(rows)));
  }

  // ---------- what can never stop it ----------

  /** Events whose turn of the loading loop can fail. */
  predicate MustApply(e: Event) { e.payload.StockMoved? || e.payload.StaffChanged? }

  predicate IsShift(e: Event) { e.payload.ShiftRecorded? }

  predicate StandAlike(g: Gathered, h: Gathered)
  {
    g.stock == h.stock && g.staff == h.staff
  }

  lemma ProjectAlike(r: Rules, g: Gathered, h: Gathered, p: Payload)
    requires StandAlike(g, h)
    ensures var x, y := Project(r, g, p), Project(r, h, p);
            (x.Ok? <==> y.Ok?) && (x.Ok? ==> StandAlike(x.value, y.value))
  {
  }

  lemma OthersPass(r: Rules, g: Gathered, e: Event)
    requires !MustApply(e)
    ensures Project(r, g, e.payload).Ok? && StandAlike(Project(r, g, e.payload).value, g)
  {
  }

  /** The others change nothing that these look at. */
  lemma {:induction false} OnlyTheseMustApply(r: Rules, events: seq<Event>)
    ensures Gather(r, events).Ok? <==> Gather(r, Where(MustApply, events)).Ok?
    ensures Gather(r, events).Ok? ==>
              StandAlike(Gather(r, events).value, Gather(r, Where(MustApply, events)).value)
  {
    if events != [] {
      var n := |events| - 1;
      var e, before, kept := events[n], Gather(r, events[..n]), Where(MustApply, events[..n]);
      OnlyTheseMustApply(r, events[..n]);
      if MustApply(e) {
        assert (kept + [e])[..|kept|] == kept;
        if before.Ok? {
          ProjectAlike(r, before.value, Gather(r, kept).value, e.payload);
        }
      } else {
        assert kept + [] == kept;
        if before.Ok? {
          OthersPass(r, before.value, e);
        }
      }
    }
  }

  lemma ShiftsInOne(events: seq<Event>, e: Event)
    ensures ShiftsIn(events + [e]) == ShiftsIn(events) + if e.payload.ShiftRecorded? then [e.payload.shift] else []
  {
    assert (events + [e])[..|events|] == events;
  }

  lemma {:induction false} OnlyShiftsAreShifts(events: seq<Event>)
    ensures ShiftsIn(Where(IsShift, events)) == ShiftsIn(events)
  {
    if events != [] {
      var n := |events| - 1;
      var kept := Where(IsShift, events[..n]);
      OnlyShiftsAreShifts(events[..n]);
      if IsShift(events[n]) {
        ShiftsInOne(kept, events[n]);
      } else {
        assert kept + [] == kept;
      }
    }
  }

  /** A sound table loads exactly when what must apply does, and the drawer can be read back. */
  lemma LoadIsDecidedBy(r: Rules, rows: seq<Row<Payload>>)
    requires Sound(r.digest, r.device, rows)
    ensures var read := ProjectionInput(rows);
            Load(r, rows).Ok? <==>
              && Gather(r, Where(MustApply, read)).Ok?
              && Shifts.LatestOpen(ShiftsIn(Where(IsShift, read))).Ok?
    ensures Load(r, rows).Ok? ==>
              Shifts.LatestOpen(ShiftsIn(Where(IsShift, ProjectionInput(rows)))) == Ok(Load(r, rows).value.books.shift)
  {
    var read := ProjectionInput(rows);
    LoadIsInStep(r, rows);
    OnlyTheseMustApply(r, read);
    OnlyShiftsAreShifts(read);
    if Gather(r, read).Ok? {
      GatheredShifts(r, read);
    }
  }

  lemma ReadAlike(p: Event -> bool, rows: seq<Row<Payload>>, after: seq<Row<Payload>>)
    requires DistinctIds(rows) && Where(p, Events(rows)) == Where(p, Events(after))
    ensures Where(p, ProjectionInput(rows)) == Where(p, ProjectionInput(after))
  {
    OrdersAreTotal<Payload>();
    var read := ProjectionInput(after);
    WhereStaysSorted(KeyLe, p, read);
    forall x ensures multiset(Where(p, read))[x] == multiset(Where(p, Events(after)))[x] {
      WhereCounts(p, read, x);
      WhereCounts(p, Events(after), x);
    }
    ReadsThemAs(p, rows, Where(p, read));
  }

  /**
   Sales, invoices, the catalogue, the floor, the outlet and orders never decide whether a till starts,
   whatever they hold and whenever they happened.
   */
  lemma OthersDecideNothing(r: Rules, rows: seq<Row<Payload>>, after: seq<Row<Payload>>, more: seq<Event>)
    requires Sound(r.digest, r.device, rows) && DistinctIds(rows) && Sound(r.digest, r.device, after)
    requires Events(after) == Events(rows) + more
    requires forall i :: 0 <= i < |more| ==> !MustApply(more[i]) && !IsShift(more[i])
    ensures Load(r, after).Ok? <==> Load(r, rows).Ok?
  {
    WhereNothingPasses(MustApply, Events(rows), more);
    WhereNothingPasses(IsShift, Events(rows), more);
    ReadAlike(MustApply, rows, after);
    ReadAlike(IsShift, rows, after);
    LoadIsDecidedBy(r, rows);
    LoadIsDecidedBy(r, after);
  }

  lemma {:induction false} AppendedEvents(rows: seq<Row<Payload>>, events: seq<Event>, disk: bool)
    requires AppendAllTo(rows, events, disk).Ok?
    ensures Events(AppendAllTo(rows, events, disk).value) == Events(rows) + events
    decreases |events|
  {
    if events != [] {
      var next := rows + [Row(events[0], Local)];
      AppendedEvents(next, events[1..], disk);
      assert Events(next) == Events(rows) + [events[0]];
    } else {
      assert Events(rows) + events == Events(rows);
    }
  }

  /** What a write that succeeds leaves in the table. */
  lemma WrittenEvents(r: Rules, t: State, a: Accepted, m: Moment, after: Attempt)
    requires LogIntact(r, t) && a.payloads != [] && after == Write(r, t, a, m) && after.result.Ok?
    ensures Events(after.state.rows) == Events(t.rows) + after.result.value
    ensures PayloadsOf(after.result.value) == a.payloads && after.state.books == a.books
    ensures LogIntact(r, after.state)
  {
    WriteKeepsLog(r, t, a, m);
    AppendedEvents(t.rows, after.result.value, m.disk);
  }

  /** Writing such events leaves a till that could be restarted one that still can, and another not. */
  lemma WritingOthers(r: Rules, t: State, a: Accepted, m: Moment)
    requires LogIntact(r, t) && a.payloads != [] && Write(r, t, a, m).result.Ok?
    requires forall i :: 0 <= i < |a.payloads| ==>
               !a.payloads[i].StockMoved? && !a.payloads[i].StaffChanged? && !a.payloads[i].ShiftRecorded?
    ensures Load(r, Write(r, t, a, m).state.rows).Ok? <==> Load(r, t.rows).Ok?
  {
    var after := Write(r, t, a, m);
    var events := after.result.value;
    WrittenEvents(r, t, a, m, after);
    assert forall i :: 0 <= i < |events| ==> events[i].payload == PayloadsOf(events)[i];
    OthersDecideNothing(r, t.rows, after.state.rows, events);
  }

  // ---------- in terms of the clock ----------

  /** Some row uses what a row with a later key makes. */
  ghost predicate UsedTooEarly(touch: Event -> Touch, rows: seq<Row<Payload>>)
  {
    exists a, b :: a in Events(rows) && b in Events(rows) && UsesBefore(touch, a, b)
  }

  predicate UsesBefore(touch: Event -> Touch, a: Event, b: Event)
  {
    touch(a).Uses? && touch(b) == Creates(touch(a).id) && KeyLe(a, b)
  }

  lemma ReadByKey(rows: seq<Row<Payload>>)
    ensures Sorted<Event>(KeyLe, ProjectionInput(rows))
    ensures forall x :: x in ProjectionInput(rows) <==> x in Events(rows)
  {
    OrdersAreTotal<Payload>();
    SameElements(ProjectionInput(rows), Events(rows));
  }

  /** What is read first has the smaller key. */
  lemma ReadInKeyOrder(rows: seq<Row<Payload>>, i: nat, j: nat)
    requires DistinctIds(rows) && i < |ProjectionInput(rows)| && j < |ProjectionInput(rows)| && i != j
    ensures KeyLe(ProjectionInput(rows)[i], ProjectionInput(rows)[j]) <==> i < j
  {
    var read := ProjectionInput(rows);
    ReadByKey(rows);
    KeysIdentifyRows(rows);
    NoRepeats(rows, i, j);
    assert read[i] in read && read[j] in read;
    assert if i < j then KeyLe(read[i], read[j]) else KeyLe(read[j], read[i]);
  }

  /** Using something before it is made is never in its place, however often it is made. */
  lemma EarlyUseIsOutOfPlace(touch: Event -> Touch, rows: seq<Row<Payload>>, a: Event, b: Event)
    requires DistinctIds(rows) && a in Events(rows) && b in Events(rows) && UsesBefore(touch, a, b)
    ensures !MadeOnceThenUsed(touch, ProjectionInput(rows))
  {
    var read := ProjectionInput(rows);
    ReadByKey(rows);
    var p :| 0 <= p < |read| && read[p] == a;
    var q :| 0 <= q < |read| && read[q] == b;
    ReadInKeyOrder(rows, p, q);
    if MadeOnceThenUsed(touch, read) {
      assert InItsPlace(touch, read, p);
      var j :| 0 <= j < |read[..p]| && touch(read[..p][j]) == Creates(touch(a).id);
      MadeAgain(touch, read, j, q);
    }
  }

  /** Where the log itself makes things once and then uses them, only an early use can spoil the reading. */
  lemma OnlyEarlyUseSpoils(touch: Event -> Touch, rows: seq<Row<Payload>>)
    requires DistinctIds(rows) && MadeOnceThenUsed(touch, Events(rows))
    ensures MadeOnceThenUsed(touch, ProjectionInput(rows)) <==> !UsedTooEarly(touch, rows)
  {
    var read := ProjectionInput(rows);
    if UsedTooEarly(touch, rows) {
      var a, b :| a in Events(rows) && b in Events(rows) && UsesBefore(touch, a, b);
      EarlyUseIsOutOfPlace(touch, rows, a, b);
    } else {
      forall i | 0 <= i < |read| ensures InItsPlace(touch, read, i) {
        match touch(read[i]) {
          case Nothing =>
          case Creates(_) => MadeOnceInAnyOrder(touch, rows, i);
          case Uses(_) => UsedAfterItWasMade(touch, rows, i);
        }
      }
    }
  }

  lemma MadeOnceInAnyOrder(touch: Event -> Touch, rows: seq<Row<Payload>>, i: nat)
    requires DistinctIds(rows) && MadeOnceThenUsed(touch, Events(rows))
    requires i < |ProjectionInput(rows)| && touch(ProjectionInput(rows)[i]).Creates?
    ensures !CreatedIn(touch, ProjectionInput(rows)[..i], touch(ProjectionInput(rows)[i]).id)
  {
    var all, read := Events(rows), ProjectionInput(rows);
    var id := touch(read[i]).id;
    if CreatedIn(touch, read[..i], id) {
      var j :| 0 <= j < |read[..i]| && touch(read[..i][j]) == Creates(id);
      assert touch(read[j]) == Creates(id);
      var k, l := TwoPlaces(rows, j, i);
      MadeAgain(touch, all, k, l);
    }
  }

  /** Two different places of the reading are two different places of the table. */
  lemma TwoPlaces(rows: seq<Row<Payload>>, i: nat, j: nat) returns (k: nat, l: nat)
    requires DistinctIds(rows) && i < |ProjectionInput(rows)| && j < |ProjectionInput(rows)| && i != j
    ensures k < l < |Events(rows)|
    ensures (Events(rows)[k], Events(rows)[l]) == (ProjectionInput(rows)[i], ProjectionInput(rows)[j])
         || (Events(rows)[k], Events(rows)[l]) == (ProjectionInput(rows)[j], ProjectionInput(rows)[i])
  {
    var all, read := Events(rows), ProjectionInput(rows);
    ReadByKey(rows);
    assert read[i] in read && read[j] in read;
    var p :| 0 <= p < |all| && all[p] == read[i];
    var q :| 0 <= q < |all| && all[q] == read[j];
    NoRepeats(rows, i, j);
    k, l := if p < q then p else q, if p < q then q else p;
  }

  lemma NoRepeats(rows: seq<Row<Payload>>, i: nat, j: nat)
    requires DistinctIds(rows) && i < |ProjectionInput(rows)| && j < |ProjectionInput(rows)| && i != j
    ensures ProjectionInput(rows)[i] != ProjectionInput(rows)[j]
  {
    var read := ProjectionInput(rows);
    if read[i] == read[j] {
      RepeatIsCountedTwice(read, if i < j then i else j, if i < j then j else i);
      OneRowEach(rows, read[i]);
    }
  }

  lemma {:induction false} OneRowEach(rows: seq<Row<Payload>>, x: Event)
    requires DistinctIds(rows)
    ensures multiset(Events(rows))[x] <= 1
  {
    if rows != [] {
      var n := |rows| - 1;
      OneRowEach(rows[..n], x);
      assert Events(rows) == Events(rows[..n]) + [rows[n].event];
      assert x == rows[n].event ==> x !in Events(rows[..n]);
    }
  }

  lemma UsedAfterItWasMade(touch: Event -> Touch, rows: seq<Row<Payload>>, i: nat)
    requires DistinctIds(rows) && MadeOnceThenUsed(touch, Events(rows)) && !UsedTooEarly(touch, rows)
    requires i < |ProjectionInput(rows)| && touch(ProjectionInput(rows)[i]).Uses?
    ensures CreatedIn(touch, ProjectionInput(rows)[..i], touch(ProjectionInput(rows)[i]).id)
  {
    var all, read := Events(rows), ProjectionInput(rows);
    var a := read[i];
    ReadByKey(rows);
    assert a in read;
    var k :| 0 <= k < |all| && all[k] == a;
    assert InItsPlace(touch, all, k);
    var l :| 0 <= l < |all[..k]| && touch(all[..k][l]) == Creates(touch(a).id);
    var b := all[l];
    assert b in all;
    var j :| 0 <= j < |read| && read[j] == b;
    assert !UsesBefore(touch, a, b);
    ReadInKeyOrder(rows, i, j);
    assert touch(read[..i][j]) == Creates(touch(a).id);
  }

  /**
   A till whose own log reads through, with nothing pulled: the next restart refuses exactly when some row
   moves stock or changes a person with a key before that of the receipt or the enrollment, or when the
   last shift read does not read as a shift.
   */
  lemma RefusesExactlyWhen(r: Rules, rows: seq<Row<Payload>>)
    requires Sound(r.digest, r.device, rows) && DistinctIds(rows) && AllLocal(rows)
    requires Gather(r, Own(rows)).Ok? && InRange(Own(rows))
    ensures Load(r, rows).Err?
       <==> || UsedTooEarly(StockTouch, rows)
            || UsedTooEarly(StaffTouch, rows)
            || !Shifts.ReadsAsDrawer(ShiftsIn(ProjectionInput(rows)))
  {
    LocalRowsAreTheLog(rows);
    GatheredReadThrough(r, Own(rows));
    LoadsExactlyWhen(r, rows);
    OnlyEarlyUseSpoils(StockTouch, rows);
    OnlyEarlyUseSpoils(StaffTouch, rows);
    SignsStay(rows);
  }

  lemma SignsStay(rows: seq<Row<Payload>>)
    requires AllSignedRight(Events(rows))
    ensures AllSignedRight(ProjectionInput(rows))
  {
    var read := ProjectionInput(rows);
    ReadByKey(rows);
    forall i | 0 <= i < |read| ensures SignedRight(read[i]) {
      assert read[i] in read;
      var k :| 0 <= k < |Events(rows)| && Events(rows)[k] == read[i];
    }
  }

  // ---------- whole runs ----------

  /** No pulls: everything in the table is the till's own. */
  predicate OwnRun(steps: seq<Step>)
  {
    forall i :: 0 <= i < |steps| ==> !steps[i].PullPage?
  }

  /** The live books know the batches and people that the log makes, whatever order they were last read in. */
  ghost predicate KnowsItsLog(b: Books, events: seq<Event>)
  {
    && (forall id :: id in b.stock.levels <==> CreatedIn(StockTouch, events, id))
    && (forall id :: id in b.staff <==> CreatedIn(StaffTouch, events, id))
  }

  /** What a till keeps as long as nothing is pulled: its log reads through, in the order it was written. */
  ghost predicate LogReadsThrough(r: Rules, t: State)
  {
    LogIntact(r, t) && AllLocal(t.rows) && ReadsThrough(Own(t.rows)) && KnowsItsLog(t.books, Own(t.rows))
  }

  /** The live books as something to gather onto. */
  function AsGathered(b: Books): Gathered
  {
    Gathered(b.sales, b.stock, b.staff, b.catalogue, b.floor, b.fiscal, b.outlet, map[], [])
  }

  /** What an action made of stock and staff is what its events make of them. */
  ghost predicate ProjectsTo(r: Rules, b: Books, a: Accepted)
  {
    var next := ProjectAll(r, AsGathered(b), a.payloads);
    next.Ok? && next.value.stock == a.books.stock && next.value.staff == a.books.staff
  }

  lemma AcceptedProjects(r: Rules, b: Books, action: Action, at: I64)
    requires Accept(r, b, action, at).Ok?
    ensures ProjectsTo(r, b, Accept(r, b, action, at).value)
  {
    if action.CompleteSale? || action.RecordReceipt? {
      TwoProject(r, b, action, at, Accept(r, b, action, at).value);
    } else {
      OneProjects(r, b, action, at, Accept(r, b, action, at).value);
    }
  }

  lemma TwoProject(r: Rules, b: Books, action: Action, at: I64, a: Accepted)
    requires Accept(r, b, action, at) == Ok(a) && (action.CompleteSale? || action.RecordReceipt?)
    ensures ProjectsTo(r, b, a)
  {
    assert a.payloads == [a.payloads[0], a.payloads[1]];
    ProjectTwo(r, AsGathered(b), a.payloads[0], a.payloads[1]);
  }

  lemma OneProjects(r: Rules, b: Books, action: Action, at: I64, a: Accepted)
    requires Accept(r, b, action, at) == Ok(a) && !action.CompleteSale? && !action.RecordReceipt?
    ensures ProjectsTo(r, b, a)
  {
    assert a.payloads == [a.payloads[0]];
    ProjectOne(r, AsGathered(b), a.payloads[0]);
  }

  /** Events that can be gathered onto a log that reads through extend it to one that does. */
  lemma {:induction false} ReadsOnThrough(r: Rules, g: Gathered, events: seq<Event>, more: seq<Event>)
    requires ReadsThrough(events) && KnowsWhatWasMade(g, events)
    requires ProjectAll(r, g, PayloadsOf(more)).Ok?
    ensures ReadsThrough(events + more)
    ensures KnowsWhatWasMade(ProjectAll(r, g, PayloadsOf(more)).value, events + more)
    decreases |more|
  {
    if more == [] {
      assert events + more == events;
    } else {
      var longer, next := events + [more[0]], Project(r, g, more[0].payload).value;
      assert longer[..|events|] == events;
      assert PayloadsOf(more)[1..] == PayloadsOf(more[1..]);
      OneMoreReadsThrough(r, g, longer, next);
      ReadsOnThrough(r, next, longer, more[1..]);
      assert events + more == longer + more[1..];
    }
  }

  lemma OneMoreReadsThrough(r: Rules, g: Gathered, events: seq<Event>, next: Gathered)
    requires events != [] && ReadsThrough(events[..|events| - 1]) && KnowsWhatWasMade(g, events[..|events| - 1])
    requires Project(r, g, events[|events| - 1].payload) == Ok(next)
    ensures ReadsThrough(events) && KnowsWhatWasMade(next, events)
  {
    assert LevelsWithin(g.stock, -I64_MIN);
    TakenInExactly(r, g, events, -I64_MIN);
    NextReadsThrough(events);
    MadeStays(r, g, events, next);
  }

  lemma WriteReadsThrough(r: Rules, t: State, a: Accepted, m: Moment)
    requires LogReadsThrough(r, t) && a.payloads != [] && ProjectsTo(r, t.books, a)
    ensures LogReadsThrough(r, Write(r, t, a, m).state)
  {
    var after := Write(r, t, a, m);
    WriteKeepsLog(r, t, a, m);
    WriteStaysLocal(r, t, a, m);
    if after.result.Ok? {
      ReadsOnThrough(r, AsGathered(t.books), Own(t.rows), after.result.value);
    }
  }

  lemma PerformReadsThrough(r: Rules, t: State, action: Action, m: Moment)
    requires LogReadsThrough(r, t)
    ensures LogReadsThrough(r, Perform(r, t, action, m).state)
  {
    if Accept(r, t.books, action, m.at).Ok? {
      AcceptedWritesSomething(r, t.books, action, m.at);
      AcceptedProjects(r, t.books, action, m.at);
      WriteReadsThrough(r, t, Accept(r, t.books, action, m.at).value, m);
    }
  }

  /** What is made does not depend on the order of reading. */
  lemma MadeInAnyOrder(touch: Event -> Touch, a: seq<Event>, b: seq<Event>)
    requires forall x :: x in a ==> x in b
    ensures forall id :: CreatedIn(touch, a, id) ==> CreatedIn(touch, b, id)
  {
    forall id | CreatedIn(touch, a, id) ensures CreatedIn(touch, b, id) {
      var j :| 0 <= j < |a| && touch(a[j]) == Creates(id);
      assert a[j] in b;
      var k :| 0 <= k < |b| && b[k] == a[j];
    }
  }

  lemma LoadedIsGathered(r: Rules, rows: seq<Row<Payload>>, back: State)
    requires Load(r, rows) == Ok(back)
    ensures var g := Gather(r, ProjectionInput(rows));
            && g.Ok? && back.rows == rows
            && back.books.stock == g.value.stock && back.books.staff == g.value.staff
            && back.books.sales == g.value.sales
  {
  }

  /** A restart that succeeds knows the same batches and people, however the clock ran. */
  lemma RestartKnowsItsLog(r: Rules, rows: seq<Row<Payload>>, back: State)
    requires AllLocal(rows) && Load(r, rows) == Ok(back)
    ensures KnowsItsLog(back.books, Own(rows))
  {
    var read, own := ProjectionInput(rows), Own(rows);
    LocalRowsAreTheLog(rows);
    ReadByKey(rows);
    LoadedIsGathered(r, rows, back);
    GatheredReadThrough(r, read);
    MadeInAnyOrder(StockTouch, read, own);
    MadeInAnyOrder(StockTouch, own, read);
    MadeInAnyOrder(StaffTouch, read, own);
    MadeInAnyOrder(StaffTouch, own, read);
  }

  lemma FirstBootReadsThrough(r: Rules)
    ensures LogReadsThrough(r, FirstBoot(r))
  {
    FirstBootIsMirrored(r);
  }

  lemma {:induction false} OwnRunsReadThrough(r: Rules, steps: seq<Step>, t: State)
    requires OwnRun(steps) && Run(r, steps) == Ok(t)
    ensures LogReadsThrough(r, t)
  {
    if steps == [] {
      FirstBootSucceeds(r);
      FirstBootReadsThrough(r);
    } else {
      var n := |steps| - 1;
      var before := Run(r, steps[..n]).value;
      OwnRunsReadThrough(r, steps[..n], before);
      match steps[n] {
        case Act(action, moment) => PerformReadsThrough(r, before, action, moment);
        case Restart => {
          LoadIsInStep(r, before.rows);
          RestartKnowsItsLog(r, before.rows, t);
        }
      }
    }
  }

  /**
   Every till that wrote everything itself, whatever its clock, its disk and its shift ids did and however
   many restarts it has been through: the next restart refuses exactly when some row moves stock or
   changes a person with a key before that of the receipt or the enrollment, or when the last shift read
   does not read as a shift.
   */
  lemma TillRefusesExactlyWhen(r: Rules, steps: seq<Step>, t: State)
    requires OwnRun(steps) && Run(r, steps) == Ok(t) && InRange(Own(t.rows))
    ensures Load(r, t.rows).Err?
       <==> || UsedTooEarly(StockTouch, t.rows)
            || UsedTooEarly(StaffTouch, t.rows)
            || !Shifts.ReadsAsDrawer(ShiftsIn(ProjectionInput(t.rows)))
  {
    OwnRunsReadThrough(r, steps, t);
    ReadThroughIsGathered(r, Own(t.rows));
    RefusesExactlyWhen(r, t.rows);
  }

  // ---------- what a clock set back does ----------

  /**
   In any till at all: moving stock of a batch at a time before its receipt, if it is stored, stops the next
   restart.
   */
  lemma MovedBeforeItsReceipt(
    r: Rules, t: State, moved: IB.InventoryEvent, m: Moment, after: Attempt, receipt: Event)
    requires LogIntact(r, t) && !moved.BatchReceived?
    requires after == Perform(r, t, RecordStock(moved), m) && after.result.Ok?
    requires receipt in Events(t.rows) && StockTouch(receipt) == Creates(moved.batchId)
    requires m.at < receipt.header.occurredAt
    ensures Load(r, after.state.rows).Err?
  {
    PerformKeepsLog(r, t, RecordStock(moved), m);
    var e := StoredStock(r, t, moved, m, after);
    var rows := after.state.rows;
    assert rows[|t.rows|].event == e && Events(rows)[|t.rows|] == e;
    var k :| 0 <= k < |Events(t.rows)| && Events(t.rows)[k] == receipt;
    assert rows[k] == t.rows[k] && Events(rows)[k] == receipt;
    EarlyUseIsOutOfPlace(StockTouch, rows, e, receipt);
    if Load(r, rows).Ok? {
      LoadedReadThrough(r, rows);
    }
  }

  lemma {:induction false} ReadShiftIsKept(events: seq<Event>, k: nat)
    requires k < |events| && events[k].payload.ShiftRecorded?
    ensures Shifts.OfShift(ShiftsIn(events), events[k].payload.shift.shiftId) != []
  {
    var n := |events| - 1;
    var id := events[k].payload.shift.shiftId;
    var before := ShiftsIn(events[..n]);
    if k < n {
      ReadShiftIsKept(events[..n], k);
    }
    if events[n].payload.ShiftRecorded? {
      Shifts.NextOfShift(before, events[n].payload.shift, id);
    } else {
      assert before + [] == before;
    }
  }

  /**
   The drawer stops a till too: where the last shift event read is an opening, and anything else was
   recorded of that shift, it was recorded at a time before the opening.
   */
  lemma DrawerEventBeforeItsOpening(r: Rules, rows: seq<Row<Payload>>, opening: Event, other: Event)
    requires DistinctIds(rows) && opening in Events(rows) && other in Events(rows) && other != opening
    requires opening.payload.ShiftRecorded? && opening.payload.shift.Opened?
    requires other.payload.ShiftRecorded? && other.payload.shift.shiftId == opening.payload.shift.shiftId
    requires forall e :: e in Events(rows) && e.payload.ShiftRecorded? ==> KeyLe(e, opening)
    ensures Load(r, rows).Err?
  {
    var read := ProjectionInput(rows);
    ReadByKey(rows);
    KeysIdentifyRows(rows);
    var k :| 0 <= k < |read| && read[k] == opening;
    var l :| 0 <= l < |read| && read[l] == other;
    forall j | k < j < |read| ensures !read[j].payload.ShiftRecorded? {
      if read[j].payload.ShiftRecorded? {
        assert KeyLe(read[k], read[j]) && read[j] in read;
        NoRepeats(rows, k, j);
      }
    }
    OpeningIsNotFirst(read, k, l);
    if Load(r, rows).Ok? {
      LoadedReadThrough(r, rows);
    }
  }

  lemma {:induction false} LastShiftRead(read: seq<Event>, k: nat)
    requires k < |read| && read[k].payload.ShiftRecorded?
    requires forall j :: k < j < |read| ==> !read[j].payload.ShiftRecorded?
    ensures ShiftsIn(read) == ShiftsIn(read[..k]) + [read[k].payload.shift]
  {
    var front := read[..|read| - 1];
    if k < |front| {
      LastShiftRead(front, k);
      assert front[..k] == read[..k];
    }
  }

  lemma OpenedAgain(before: seq<Shifts.ShiftEvent>, opening: Shifts.ShiftEvent)
    requires opening.Opened? && Shifts.OfShift(before, opening.shiftId) != []
    ensures !Shifts.ReadsAsDrawer(before + [opening])
  {
    Shifts.NextOfShift(before, opening, opening.shiftId);
    var mine := Shifts.OfShift(before + [opening], opening.shiftId);
    assert mine[|mine| - 1] == opening;
  }

  lemma OpeningIsNotFirst(read: seq<Event>, k: nat, l: nat)
    requires l < |read| && k < |read| && k != l
    requires read[k].payload.ShiftRecorded? && read[k].payload.shift.Opened?
    requires read[l].payload.ShiftRecorded? && read[l].payload.shift.shiftId == read[k].payload.shift.shiftId
    requires forall j :: k < j < |read| ==> !read[j].payload.ShiftRecorded?
    ensures !Shifts.ReadsAsDrawer(ShiftsIn(read))
  {
    LastShiftRead(read, k);
    assert l < k && read[..k][l] == read[l];
    ReadShiftIsKept(read[..k], l);
    OpenedAgain(ShiftsIn(read[..k]), read[k].payload.shift);
  }
}
