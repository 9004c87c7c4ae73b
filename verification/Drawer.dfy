/**
 The drawer of a till that also holds its siblings' events. The running till keeps its own drawer; a restart
 takes the shift of whichever shift event it reads last, from any device.
 */
module Drawer {
  import opened Base
  import opened Sorting
  import opened EventLog
  import opened EventStore
  import opened TillBooks
  import opened Till
  import opened Restart
  import Shifts

  function OfIt(id: Uuid): Event -> bool
  {
    (e: Event) => e.payload.ShiftRecorded? && e.payload.shift.shiftId == id
  }

  lemma {:induction false} OneShiftOfThem(events: seq<Event>, id: Uuid)
    ensures Shifts.OfShift(ShiftsIn(events), id) == ShiftsIn(Where(OfIt(id), events))
  {
    if events != [] {
      var n := |events| - 1;
      var kept, before := Where(OfIt(id), events[..n]), ShiftsIn(events[..n]);
      OneShiftOfThem(events[..n], id);
      if events[n].payload.ShiftRecorded? {
        Shifts.NextOfShift(before, events[n].payload.shift, id);
      } else {
        assert before + [] == before;
      }
      if OfIt(id)(events[n]) {
        ShiftsInOne(kept, events[n]);
      } else {
        assert kept + [] == kept;
      }
    }
  }

  /** No other device used this shift's id, and its events happened in the order they were written. */
  ghost predicate KeptAtHome(rows: seq<Row<Payload>>, id: Uuid)
  {
    && (forall i :: 0 <= i < |rows| && OfIt(id)(rows[i].event) ==> rows[i].origin.Local?)
    && Sorted<Event>(KeyLe, Where(OfIt(id), Own(rows)))
  }

  lemma {:induction false} AllOfItIsOwn(rows: seq<Row<Payload>>, id: Uuid)
    requires forall i :: 0 <= i < |rows| && OfIt(id)(rows[i].event) ==> rows[i].origin.Local?
    ensures Where(OfIt(id), Events(rows)) == Where(OfIt(id), Own(rows))
  {
    if rows != [] {
      var n := |rows| - 1;
      var e := rows[n].event;
      AllOfItIsOwn(rows[..n], id);
      assert Events(rows) == Events(rows[..n]) + [e];
      WhereOne(OfIt(id), Events(rows[..n]), e);
      if rows[n].origin.Local? {
        WhereOne(OfIt(id), Own(rows[..n]), e);
      } else {
        assert Own(rows) == Own(rows[..n]) + [] == Own(rows[..n]);
        assert Where(OfIt(id), Own(rows)) + [] == Where(OfIt(id), Own(rows));
      }
    }
  }

  /** Such a shift is read as it was written, whatever else is in the table. */
  lemma ReadAsWritten(rows: seq<Row<Payload>>, id: Uuid)
    requires DistinctIds(rows) && KeptAtHome(rows, id)
    ensures Shifts.OfShift(ShiftsIn(ProjectionInput(rows)), id) == Shifts.OfShift(ShiftsIn(Own(rows)), id)
  {
    var own := Where(OfIt(id), Own(rows));
    AllOfItIsOwn(rows, id);
    ReadsThemAs(OfIt(id), rows, own);
    OneShiftOfThem(ProjectionInput(rows), id);
    OneShiftOfThem(Own(rows), id);
  }

  /** The shift that the shift event read last belongs to. */
  function ReadLast(rows: seq<Row<Payload>>): Option<Uuid>
  {
    var read := ShiftsIn(ProjectionInput(rows));
    if read == [] then None else Some(read[|read| - 1].shiftId)
  }

  /** What a restart makes of the drawer is decided by that shift's events alone. */
  lemma DrawerIsTheLastRead(r: Rules, rows: seq<Row<Payload>>, back: State)
    requires Load(r, rows) == Ok(back)
    ensures Shifts.LatestOpen(ShiftsIn(ProjectionInput(rows))) == Ok(back.books.shift)
    ensures back.books.shift.Some? ==> ReadLast(rows) == Some(back.books.shift.value.id)
  {
    LoadedDrawer(r, rows, back);
    if back.books.shift.Some? {
      OpenIsOfTheLast(ShiftsIn(ProjectionInput(rows)), back.books.shift.value);
    }
  }

  lemma LoadedDrawer(r: Rules, rows: seq<Row<Payload>>, back: State)
    requires Load(r, rows) == Ok(back)
    ensures Shifts.LatestOpen(ShiftsIn(ProjectionInput(rows))) == Ok(back.books.shift)
  {
    GatheredShifts(r, ProjectionInput(rows));
  }

  lemma OpenIsOfTheLast(events: seq<Shifts.ShiftEvent>, s: Shifts.Shift)
    requires Shifts.LatestOpen(events) == Ok(Some(s))
    ensures events != [] && events[|events| - 1].shiftId == s.id
  {
    var id := events[|events| - 1].shiftId;
    Shifts.OfShiftIsOfIt(events, id);
    Shifts.ShiftReplaysExactly(Shifts.OfShift(events, id), id);
  }

  /**
   A till whose drawer is running, its own shift kept at home: a restart brings back that drawer exactly
   when the shift event read last, of all devices, belongs to it.
   */
  lemma OwnDrawerSurvivesExactlyWhen(r: Rules, t: State, s: Shifts.Shift, back: State)
    requires DistinctIds(t.rows) && Load(r, t.rows) == Ok(back)
    requires t.books.shift == Some(s) && s.isOpen && Shifts.Mirrors(t.books.shift, ShiftsIn(Own(t.rows)))
    requires KeptAtHome(t.rows, s.id)
    ensures back.books.shift == Some(s) <==> ReadLast(t.rows) == Some(s.id)
  {
    ReadAsWritten(t.rows, s.id);
    DrawerIsTheLastRead(r, t.rows, back);
  }

  // ---------- a sibling opens a drawer of its own ----------

  predicate UnknownShift(events: seq<Event>, id: Uuid)
  {
    forall i :: 0 <= i < |events| ==> !OfIt(id)(events[i])
  }

  lemma {:induction false} UnknownHasNone(events: seq<Event>, id: Uuid)
    requires UnknownShift(events, id)
    ensures Where(OfIt(id), events) == []
  {
    if events != [] {
      UnknownHasNone(events[..|events| - 1], id);
    }
  }

  /** A shift event later than all others is read after them. */
  lemma LatestIsReadLast(rows: seq<Row<Payload>>, e: Event)
    requires DistinctIds(rows + [Row(e, Remote)]) && IsShift(e)
    requires forall x :: x in Events(rows) && IsShift(x) ==> KeyLe(x, e)
    ensures Where(IsShift, ProjectionInput(rows + [Row(e, Remote)]))
         == Where(IsShift, ProjectionInput(rows)) + [e]
  {
    var after, read := rows + [Row(e, Remote)], Where(IsShift, ProjectionInput(rows));
    ReadByKey(rows);
    WhereStaysSorted(KeyLe, IsShift, ProjectionInput(rows));
    forall i | 0 <= i < |read| ensures KeyLe(read[i], e) {
      WhereHas(IsShift, ProjectionInput(rows), read[i]);
    }
    assert Events(after) == Events(rows) + [e];
    WhereOne(IsShift, Events(rows), e);
    forall x ensures multiset(read)[x] == multiset(Where(IsShift, Events(rows)))[x] {
      WhereCounts(IsShift, ProjectionInput(rows), x);
      WhereCounts(IsShift, Events(rows), x);
    }
    ReadsThemAs(IsShift, after, read + [e]);
  }

  lemma OpeningTakesTheDrawer(events: seq<Shifts.ShiftEvent>, e: Shifts.ShiftEvent)
    requires e.Opened? && Shifts.OfShift(events, e.shiftId) == []
    ensures Shifts.LatestOpen(events + [e]).Ok?
    ensures Shifts.LatestOpen(events + [e]).value == Some(Shifts.Open(e).value)
  {
    Shifts.NextOfShift(events, e, e.shiftId);
    assert [] + [e] == [e];
  }

  /**
   One pulled opening is enough: later than every shift event held, and under an id of its own. The till
   still starts, and its drawer is the sibling's.
   */
  lemma SiblingTakesTheDrawer(r: Rules, rows: seq<Row<Payload>>, e: Event)
    requires Sound(r.digest, r.device, rows) && DistinctIds(rows) && Load(r, rows).Ok?
    requires e.header.deviceId != r.device && Verify(r.digest, e).Ok? && !Clashes(rows, e)
    requires e.payload.ShiftRecorded? && e.payload.shift.Opened?
    requires UnknownShift(Events(rows), e.payload.shift.shiftId)
    requires forall x :: x in Events(rows) && IsShift(x) ==> KeyLe(x, e)
    ensures var back := Load(r, WithRemote(rows, e));
            back.Ok? && back.value.books.shift == Some(Shifts.Open(e.payload.shift).value)
  {
    var after := rows + [Row(e, Remote)];
    assert WithRemote(rows, e) == after;
    assert Sound(r.digest, r.device, after) && DistinctIds(after) by {
      InsertKeepsSound(r.digest, r.device, rows, e);
      WritesKeepIdsDistinct(rows, e, true);
    }
    OpeningReadLast(rows, e);
    ShiftMustNotApply(rows, e);
    StartsWithDrawer(r, rows, after, Some(Shifts.Open(e.payload.shift).value));
  }

  lemma ShiftMustNotApply(rows: seq<Row<Payload>>, e: Event)
    requires DistinctIds(rows) && IsShift(e)
    ensures Where(MustApply, ProjectionInput(rows)) == Where(MustApply, ProjectionInput(rows + [Row(e, Remote)]))
  {
    var after := rows + [Row(e, Remote)];
    assert Events(after) == Events(rows) + [e];
    WhereNothingPasses(MustApply, Events(rows), [e]);
    ReadAlike(MustApply, rows, after);
  }

  lemma StartsWithDrawer(
    r: Rules, rows: seq<Row<Payload>>, after: seq<Row<Payload>>, shift: Option<Shifts.Shift>)
    requires Sound(r.digest, r.device, rows) && Load(r, rows).Ok? && Sound(r.digest, r.device, after)
    requires Where(MustApply, ProjectionInput(rows)) == Where(MustApply, ProjectionInput(after))
    requires Shifts.LatestOpen(ShiftsIn(Where(IsShift, ProjectionInput(after)))) == Ok(shift)
    ensures Load(r, after).Ok? && Load(r, after).value.books.shift == shift
  {
    LoadIsDecidedBy(r, rows);
    LoadIsDecidedBy(r, after);
  }

  lemma OpeningReadLast(rows: seq<Row<Payload>>, e: Event)
    requires DistinctIds(rows + [Row(e, Remote)]) && IsShift(e) && e.payload.shift.Opened?
    requires UnknownShift(Events(rows), e.payload.shift.shiftId)
    requires forall x :: x in Events(rows) && IsShift(x) ==> KeyLe(x, e)
    ensures Shifts.LatestOpen(ShiftsIn(Where(IsShift, ProjectionInput(rows + [Row(e, Remote)]))))
         == Ok(Some(Shifts.Open(e.payload.shift).value))
  {
    var before := Where(IsShift, ProjectionInput(rows));
    LatestIsReadLast(rows, e);
    ReadUnknown(rows, e.payload.shift.shiftId);
    ShiftsInOne(before, e);
    OpeningTakesTheDrawer(ShiftsIn(before), e.payload.shift);
  }

  lemma ReadUnknown(rows: seq<Row<Payload>>, id: Uuid)
    requires UnknownShift(Events(rows), id)
    ensures Shifts.OfShift(ShiftsIn(Where(IsShift, ProjectionInput(rows))), id) == []
  {
    var read := ProjectionInput(rows);
    ReadByKey(rows);
    forall i | 0 <= i < |read| ensures !OfIt(id)(read[i]) {
      assert read[i] in read;
      var k :| 0 <= k < |Events(rows)| && Events(rows)[k] == read[i];
    }
    UnknownHasNone(read, id);
    OneShiftOfThem(read, id);
    OnlyShiftsAreShifts(read);
  }
}
