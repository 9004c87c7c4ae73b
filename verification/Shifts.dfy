/** One drawer session, from its opening float to its closing count. */
module Shifts {
  import opened Base
  import opened Money

  datatype ShiftEvent =
    | Opened(shiftId: Uuid, openedBy: Uuid, currency: Currency, openingFloat: Amount, at: I64)
    | CashMoved(shiftId: Uuid, movementId: Uuid, amount: Amount, authorizedBy: Uuid, at: I64)
    | Counted(shiftId: Uuid, counted: Amount, countedBy: Uuid, at: I64)
    | Closed(shiftId: Uuid, closingCash: Amount, at: I64)

  datatype ShiftError =
    | NotOpenedFirst
    | AlreadyOpened
    | WrongShift(expected: Uuid, found: Uuid)
    | ShiftClosed
    | NegativeCount(counted: Amount)
    | NotCounted

  datatype CashMovement = CashMovement(id: Uuid, amount: Amount, authorizedBy: Uuid, at: I64)

  datatype DrawerCount = DrawerCount(counted: Amount, countedBy: Uuid, at: I64)

  datatype Shift = Shift(
    id: Uuid,
    isOpen: bool,
    openedBy: Uuid,
    currency: Currency,
    openingFloat: Amount,
    openedAt: I64,
    closedAt: Option<I64>,
    movements: seq<CashMovement>,
    counts: seq<DrawerCount>,
    closingCash: Option<Amount>)

  function Open(e: ShiftEvent): Result<Shift, ShiftError>
  {
    match e
    case Opened(shiftId, openedBy, currency, openingFloat, at) =>
      Ok(Shift(shiftId, true, openedBy, currency, openingFloat, at, None, [], [], None))
    case _ => Err(NotOpenedFirst)
  }

  function ApplyTo(s: Shift, e: ShiftEvent): Result<Shift, ShiftError>
  {
    if e.shiftId != s.id then Err(WrongShift(s.id, e.shiftId))
    else if !s.isOpen then Err(ShiftClosed)
    else
      match e
      case Opened(_, _, _, _, _) => Err(AlreadyOpened)
      case CashMoved(_, movementId, amount, authorizedBy, at) =>
        Ok(s.(movements := s.movements + [CashMovement(movementId, amount, authorizedBy, at)]))
      case Counted(_, counted, countedBy, at) =>
        if counted.minor < 0 then Err(NegativeCount(counted))
        else Ok(s.(counts := s.counts + [DrawerCount(counted, countedBy, at)]))
      case Closed(_, closingCash, at) =>
        if s.counts == [] then Err(NotCounted)
        else Ok(s.(closingCash := Some(closingCash), closedAt := Some(at), isOpen := false))
  }

  function Replay(events: seq<ShiftEvent>): Result<Shift, ShiftError>
  {
    if events == [] then Err(NotOpenedFirst)
    else if |events| == 1 then Open(events[0])
    else
      var shift :- Replay(events[..|events| - 1]);
      ApplyTo(shift, events[|events| - 1])
  }

  /** The events of one shift, in order. */
  function OfShift(events: seq<ShiftEvent>, id: Uuid): seq<ShiftEvent>
  {
    if events == [] then []
    else
      var last := events[|events| - 1];
      OfShift(events[..|events| - 1], id) + if last.shiftId == id then [last] else []
  }

  /** `latest_open_shift`: replay the shift the last event belongs to, and drop it if it has closed. */
  function LatestOpen(events: seq<ShiftEvent>): Result<Option<Shift>, ShiftError>
  {
    if events == [] then Ok(None)
    else
      var shift :- Replay(OfShift(events, events[|events| - 1].shiftId));
      Ok(if shift.isOpen then Some(shift) else None)
  }

  // ---------- a drawer kept live, and the same drawer read back ----------

  datatype DrawerError = ShiftAlreadyOpen | NoOpenShift | Refused(error: ShiftError)

  /** What `record_shift` validates: at most one shift runs, and a new one never revives the last. */
  function Accept(running: Option<Shift>, e: ShiftEvent): Result<Shift, DrawerError>
  {
    if running.Some? && running.value.isOpen then
      if e.Opened? then Err(ShiftAlreadyOpen)
      else
        match ApplyTo(running.value, e)
        case Ok(shift) => Ok(shift)
        case Err(error) => Err(Refused(error))
    else
      match Open(e)
      case Ok(shift) => Ok(shift)
      case Err(_) => Err(NoOpenShift)
  }

  /** What a restart makes of a drawer. */
  function Resumed(shift: Option<Shift>): Option<Shift>
  {
    if shift.Some? && !shift.value.isOpen then None else shift
  }

  /**
   The live drawer is what the log says the last shift is, or nothing where that one has closed; and every
   shift before it has closed.
   */
  ghost predicate Mirrors(shift: Option<Shift>, events: seq<ShiftEvent>)
  {
    if events == [] then shift == None
    else
      var last := events[|events| - 1].shiftId;
      var logged := Replay(OfShift(events, last));
      && logged.Ok?
      && logged.value.id == last
      && (shift == Some(logged.value) || (!logged.value.isOpen && shift == None))
      && (forall id :: Knows(events, id) && id != last ==> HasClosed(events, id))
  }

  predicate Knows(events: seq<ShiftEvent>, id: Uuid)
  {
    exists i :: 0 <= i < |events| && events[i].shiftId == id
  }

  /** The events of a shift replay, to a closed one. */
  predicate HasClosed(events: seq<ShiftEvent>, id: Uuid)
  {
    var logged := Replay(OfShift(events, id));
    logged.Ok? && !logged.value.isOpen && logged.value.id == id
  }

  lemma {:induction false} UnknownHasNoEvents(events: seq<ShiftEvent>, id: Uuid)
    ensures OfShift(events, id) == [] <==> !Knows(events, id)
  {
    if events != [] {
      var n := |events| - 1;
      UnknownHasNoEvents(events[..n], id);
      assert forall i :: 0 <= i < n ==> events[..n][i] == events[i];
      assert Knows(events, id) <==> Knows(events[..n], id) || events[n].shiftId == id;
    }
  }

  lemma NextOfShift(events: seq<ShiftEvent>, e: ShiftEvent, id: Uuid)
    ensures OfShift(events + [e], id) == OfShift(events, id) + if e.shiftId == id then [e] else []
    ensures Knows(events + [e], id) <==> Knows(events, id) || e.shiftId == id
  {
    var after := events + [e];
    assert after[..|events|] == events;
    UnknownHasNoEvents(events, id);
    UnknownHasNoEvents(after, id);
  }

  /** A restart reads back the drawer that was live, a closed one as none. */
  lemma MirrorReadsBack(shift: Option<Shift>, events: seq<ShiftEvent>)
    requires Mirrors(shift, events)
    ensures LatestOpen(events) == Ok(Resumed(shift))
    ensures Mirrors(Resumed(shift), events)
  {
  }

  lemma ReplayNext(mine: seq<ShiftEvent>, e: ShiftEvent)
    requires Replay(mine).Ok?
    ensures Replay(mine + [e]) == ApplyTo(Replay(mine).value, e)
  {
    assert (mine + [e])[..|mine|] == mine;
  }

  /** What an accepted event makes of its shift's log: the live shift. */
  lemma AcceptedIsLogged(shift: Option<Shift>, events: seq<ShiftEvent>, e: ShiftEvent)
    requires Mirrors(shift, events) && Accept(shift, e).Ok?
    requires e.Opened? ==> !Knows(events, e.shiftId)
    ensures Replay(OfShift(events + [e], e.shiftId)) == Ok(Accept(shift, e).value)
    ensures Accept(shift, e).value.id == e.shiftId
  {
    var mine := OfShift(events, e.shiftId);
    NextOfShift(events, e, e.shiftId);
    if e.Opened? {
      UnknownHasNoEvents(events, e.shiftId);
      assert mine + [e] == [e];
    } else {
      ReplayNext(mine, e);
    }
  }

  lemma OthersHaveClosed(shift: Option<Shift>, events: seq<ShiftEvent>, e: ShiftEvent, id: Uuid)
    requires Mirrors(shift, events) && Accept(shift, e).Ok?
    requires Knows(events, id) && id != e.shiftId
    ensures HasClosed(events, id)
  {
  }

  lemma ClosedStaysClosed(events: seq<ShiftEvent>, e: ShiftEvent, id: Uuid)
    requires HasClosed(events, id) && id != e.shiftId
    ensures HasClosed(events + [e], id)
  {
    NextOfShift(events, e, id);
    assert OfShift(events, id) + [] == OfShift(events, id);
  }

  /** Every accepted event keeps the two in step, as long as a new shift is given an id of its own. */
  lemma AcceptKeepsMirror(shift: Option<Shift>, events: seq<ShiftEvent>, e: ShiftEvent)
    requires Mirrors(shift, events) && Accept(shift, e).Ok?
    requires e.Opened? ==> !Knows(events, e.shiftId)
    ensures Mirrors(Some(Accept(shift, e).value), events + [e])
  {
    AcceptedIsLogged(shift, events, e);
    forall id | Knows(events + [e], id) && id != e.shiftId ensures HasClosed(events + [e], id) {
      NextOfShift(events, e, id);
      OthersHaveClosed(shift, events, e, id);
      ClosedStaysClosed(events, e, id);
    }
  }

  lemma KnownHasClosed(shift: Option<Shift>, events: seq<ShiftEvent>, id: Uuid)
    requires Mirrors(shift, events) && Resumed(shift) == None && Knows(events, id)
    ensures HasClosed(events, id)
  {
  }

  /**
   With no shift running, any opening is accepted; what it leaves can be read back exactly when its id is
   one the log has not seen. Under the id of any earlier shift a restart refuses to boot.
   */
  lemma OnlyAFreshIdReadsBack(shift: Option<Shift>, events: seq<ShiftEvent>, e: ShiftEvent)
    requires Mirrors(shift, events) && Resumed(shift) == None && e.Opened?
    ensures Accept(shift, e).Ok?
    ensures LatestOpen(events + [e]).Ok? <==> !Knows(events, e.shiftId)
    ensures Knows(events, e.shiftId) ==> LatestOpen(events + [e]) == Err(ShiftClosed)
  {
    var mine := OfShift(events, e.shiftId);
    if Knows(events, e.shiftId) {
      KnownHasClosed(shift, events, e.shiftId);
      NextOfShift(events, e, e.shiftId);
      ReplayNext(mine, e);
    } else {
      AcceptedIsLogged(shift, events, e);
    }
  }

  // ---------- what a shift keeps ----------

  /** Every count and every movement among some events, in order. */
  function CountsIn(events: seq<ShiftEvent>): seq<DrawerCount>
  {
    if events == [] then []
    else
      var last := events[|events| - 1];
      CountsIn(events[..|events| - 1])
      + if last.Counted? then [DrawerCount(last.counted, last.countedBy, last.at)] else []
  }

  function MovementsIn(events: seq<ShiftEvent>): seq<CashMovement>
  {
    if events == [] then []
    else
      var last := events[|events| - 1];
      MovementsIn(events[..|events| - 1])
      + if last.CashMoved? then [CashMovement(last.movementId, last.amount, last.authorizedBy, last.at)] else []
  }

  /** A replayed shift is the one that was opened, as it was opened. */
  lemma {:induction false} ShiftIsAsOpened(events: seq<ShiftEvent>)
    requires Replay(events).Ok?
    ensures events[0].Opened?
    ensures var s, e := Replay(events).value, events[0];
            && s.id == e.shiftId && s.openedBy == e.openedBy && s.currency == e.currency
            && s.openingFloat == e.openingFloat && s.openedAt == e.at
  {
    if |events| > 1 {
      ShiftIsAsOpened(events[..|events| - 1]);
    }
  }

  predicate CanApply(s: Shift, e: ShiftEvent)
  {
    && e.shiftId == s.id && s.isOpen && !e.Opened?
    && (e.Counted? ==> e.counted.minor >= 0) && (e.Closed? ==> s.counts != [])
  }

  /** What a shift takes, and what is said of the rest. */
  lemma AppliesExactly(s: Shift, e: ShiftEvent)
    ensures ApplyTo(s, e).Ok? <==> CanApply(s, e)
    ensures ApplyTo(s, e).Err? ==>
              match ApplyTo(s, e).error
              case WrongShift(expected, found) => expected == s.id && found == e.shiftId && expected != found
              case ShiftClosed => e.shiftId == s.id && !s.isOpen
              case AlreadyOpened => e.shiftId == s.id && s.isOpen && e.Opened?
              case NegativeCount(counted) => e.Counted? && counted == e.counted && counted.minor < 0
              case NotCounted => e.Closed? && s.counts == []
              case NotOpenedFirst => false
  {
  }

  /** What the drawer takes: an opening when no shift runs, and otherwise what the running shift takes. */
  lemma AcceptsExactly(running: Option<Shift>, e: ShiftEvent)
    ensures Accept(running, e).Ok? <==> if Resumed(running).Some? then CanApply(running.value, e) else e.Opened?
    ensures Accept(running, e).Err? ==>
              match Accept(running, e).error
              case ShiftAlreadyOpen => Resumed(running).Some? && e.Opened?
              case NoOpenShift => Resumed(running).None? && !e.Opened?
              case Refused(error) => Resumed(running).Some? && ApplyTo(running.value, e) == Err(error)
  {
  }

  /**
   A replayed shift keeps every count and movement, recounts included; its counts are never negative; it is
   closed exactly if its last event closed it, and then it had been counted.
   */
  lemma {:induction false} ShiftKeepsItsRecord(events: seq<ShiftEvent>)
    requires Replay(events).Ok?
    ensures var s, last := Replay(events).value, events[|events| - 1];
            && s.counts == CountsIn(events) && s.movements == MovementsIn(events)
            && (forall k :: 0 <= k < |s.counts| ==> s.counts[k].counted.minor >= 0)
            && (!s.isOpen <==> last.Closed?)
            && (last.Closed? ==>
                  s.counts != [] && s.closingCash == Some(last.closingCash) && s.closedAt == Some(last.at))
            && (!last.Closed? ==> s.closingCash == None && s.closedAt == None)
  {
    if |events| == 1 {
      assert CountsIn(events[..0]) == [] && MovementsIn(events[..0]) == [];
    } else {
      ShiftKeepsItsRecord(events[..|events| - 1]);
    }
  }

  // ---------- what can be read back ----------

  /** One opening, first; no count below zero; nothing after a close, and a count before it. */
  ghost predicate ReadsAsShift(mine: seq<ShiftEvent>)
  {
    && mine != []
    && (forall i :: 0 <= i < |mine| ==> (mine[i].Opened? <==> i == 0))
    && (forall i :: 0 <= i < |mine| ==> mine[i].Counted? ==> mine[i].counted.minor >= 0)
    && (forall i :: 0 <= i < |mine| ==> mine[i].Closed? ==> i == |mine| - 1 && HasCount(mine))
  }

  predicate HasCount(mine: seq<ShiftEvent>)
  {
    exists i :: 0 <= i < |mine| && mine[i].Counted?
  }

  predicate AllOf(mine: seq<ShiftEvent>, id: Uuid)
  {
    forall i :: 0 <= i < |mine| ==> mine[i].shiftId == id
  }

  lemma NextReadsAsShift(mine: seq<ShiftEvent>)
    requires |mine| >= 2
    ensures var before, last := mine[..|mine| - 1], mine[|mine| - 1];
            ReadsAsShift(mine) <==>
              && ReadsAsShift(before) && !last.Opened? && !before[|before| - 1].Closed?
              && (last.Counted? ==> last.counted.minor >= 0)
              && (last.Closed? ==> HasCount(before))
  {
    var n := |mine| - 1;
    var before := mine[..n];
    assert forall i :: 0 <= i < n ==> before[i] == mine[i];
    if ReadsAsShift(mine) {
      assert before[n - 1] == mine[n - 1];
      if mine[n].Closed? {
        var i :| 0 <= i < |mine| && mine[i].Counted?;
        assert before[i].Counted?;
      }
    }
    if HasCount(before) {
      var i :| 0 <= i < |before| && before[i].Counted?;
      assert mine[i].Counted?;
    }
  }

  /** The events of one shift replay exactly when they read as one. */
  lemma {:induction false} ShiftReplaysExactly(mine: seq<ShiftEvent>, id: Uuid)
    requires AllOf(mine, id)
    ensures Replay(mine).Ok? <==> ReadsAsShift(mine)
    ensures Replay(mine).Ok? ==>
              var s := Replay(mine).value;
              s.id == id && (s.isOpen <==> !mine[|mine| - 1].Closed?) && (s.counts == [] <==> !HasCount(mine))
  {
    if |mine| >= 2 {
      var n := |mine| - 1;
      ShiftReplaysExactly(mine[..n], id);
      NextReadsAsShift(mine);
      assert HasCount(mine) <==> HasCount(mine[..n]) || mine[n].Counted? by {
        assert forall i :: 0 <= i < n ==> mine[..n][i] == mine[i];
      }
    }
  }

  lemma {:induction false} OfShiftIsOfIt(events: seq<ShiftEvent>, id: Uuid)
    ensures AllOf(OfShift(events, id), id)
  {
    if events != [] {
      OfShiftIsOfIt(events[..|events| - 1], id);
    }
  }

  /** The shift the last event belongs to reads as one. */
  ghost predicate ReadsAsDrawer(events: seq<ShiftEvent>)
  {
    events != [] ==> ReadsAsShift(OfShift(events, events[|events| - 1].shiftId))
  }

  /** Exactly what stops a restart at the drawer. */
  lemma DrawerReadsBackExactly(events: seq<ShiftEvent>)
    ensures LatestOpen(events).Ok? <==> ReadsAsDrawer(events)
  {
    if events != [] {
      var id := events[|events| - 1].shiftId;
      OfShiftIsOfIt(events, id);
      ShiftReplaysExactly(OfShift(events, id), id);
    }
  }
}
