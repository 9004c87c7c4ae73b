/**
 The till's durable memory: one table holding its own chain and the events pulled from its siblings.

 `disk` is the machine's answer to a write, which may fail whatever is asked of it.
 */
module EventStore {
  import opened Base
  import opened Sorting
  import opened EventLog

  datatype Origin = Local | Remote

  datatype Row<+P> = Row(event: Envelope<P>, origin: Origin)

  datatype StoreError =
    | Database
    | Unstorable(eventId: Uuid)
    | Duplicate(eventId: Uuid)
    | OutOfSequence(tip: U64, found: U64)

  // ---------- queries ----------

  /** The row of a device with the greatest sequence. */
  function Newest<P>(rows: seq<Row<P>>, device: Uuid): Option<Envelope<P>>
  {
    if rows == [] then None
    else
      var before, e := Newest(rows[..|rows| - 1], device), rows[|rows| - 1].event;
      if e.header.deviceId == device && (before.None? || before.value.deviceSeq < e.deviceSeq)
      then Some(e)
      else before
  }

  function TipOf<P>(rows: seq<Row<P>>, device: Uuid): ChainTip
  {
    match Newest(rows, device)
    case None => GENESIS
    case Some(e) => e.Tip()
  }

  /** The rows this device sealed, as they were inserted. */
  function Own<P>(rows: seq<Row<P>>): seq<Envelope<P>>
  {
    if rows == [] then []
    else
      var last := rows[|rows| - 1];
      Own(rows[..|rows| - 1]) + if last.origin.Local? then [last.event] else []
  }

  function Events<P>(rows: seq<Row<P>>): (r: seq<Envelope<P>>)
    ensures |r| == |rows|
    ensures forall i :: 0 <= i < |rows| ==> r[i] == rows[i].event
  {
    seq(|rows|, i requires 0 <= i < |rows| => rows[i].event)
  }

  predicate SeqLe<P>(a: Envelope<P>, b: Envelope<P>) { a.deviceSeq <= b.deviceSeq }

  /** When it happened, then the event's id. */
  predicate KeyLe<P>(a: Envelope<P>, b: Envelope<P>)
  {
    || a.header.occurredAt < b.header.occurredAt
    || (a.header.occurredAt == b.header.occurredAt && a.header.eventId <= b.header.eventId)
  }

  lemma OrdersAreTotal<P(!new)>()
    ensures TotalPreorder<Envelope<P>>(SeqLe) && TotalPreorder<Envelope<P>>(KeyLe)
  {
  }

  /** `load_all`: this device's events by sequence. */
  function LoadAll<P(!new)>(rows: seq<Row<P>>): seq<Envelope<P>>
  {
    OrdersAreTotal<P>();
    Sort(SeqLe, Own(rows))
  }

  /** `load_projection_input`: every event, by when it happened. */
  function ProjectionInput<P(!new)>(rows: seq<Row<P>>): (r: seq<Envelope<P>>)
    ensures multiset(r) == multiset(Events(rows))
  {
    OrdersAreTotal<P>();
    Sort(KeyLe, Events(rows))
  }

  // ---------- writing ----------

  /** The table's constraints: one row for an event id, one for a place in a device's chain. */
  predicate Clashes<P>(rows: seq<Row<P>>, e: Envelope<P>)
  {
    exists i :: 0 <= i < |rows| && SamePlace(rows[i].event, e)
  }

  predicate SamePlace<P>(a: Envelope<P>, b: Envelope<P>)
  {
    || a.header.eventId == b.header.eventId
    || (a.header.deviceId == b.header.deviceId && a.deviceSeq == b.deviceSeq)
  }

  /** `append` as a function: the place is checked, the hash and the link are not. */
  function AppendTo<P>(rows: seq<Row<P>>, e: Envelope<P>, disk: bool): Result<seq<Row<P>>, StoreError>
  {
    var tip := TipOf(rows, e.header.deviceId);
    if e.deviceSeq != SaturatingNext(tip.deviceSeq) then Err(OutOfSequence(tip.deviceSeq, e.deviceSeq))
    else if e.deviceSeq > I64_MAX then Err(Unstorable(e.header.eventId))
    else if Clashes(rows, e) then Err(Duplicate(e.header.eventId))
    else if !disk then Err(Database)
    else Ok(rows + [Row(e, Local)])
  }

  /** All of them or none. */
  function AppendAllTo<P>(rows: seq<Row<P>>, events: seq<Envelope<P>>, disk: bool): Result<seq<Row<P>>, StoreError>
    decreases |events|
  {
    if events == [] then if disk then Ok(rows) else Err(Database)
    else
      var next :- AppendTo(rows, events[0], disk);
      AppendAllTo(next, events[1..], disk)
  }

  /**
   An event pulled from a sibling: stored unless something already holds its id or its place, and refused
   where its sequence does not fit the column.
   */
  function InsertRemoteInto<P>(rows: seq<Row<P>>, e: Envelope<P>, disk: bool): Result<seq<Row<P>>, StoreError>
  {
    if e.deviceSeq > I64_MAX then Err(Unstorable(e.header.eventId))
    else if !disk then Err(Database)
    else Ok(WithRemote(rows, e))
  }

  function WithRemote<P>(rows: seq<Row<P>>, e: Envelope<P>): seq<Row<P>>
  {
    if Clashes(rows, e) then rows else rows + [Row(e, Remote)]
  }

  class EventStore<P(!new)> {
    const deviceId: Uuid
    var rows: seq<Row<P>>

    constructor Open(deviceId: Uuid, rows: seq<Row<P>>)
      ensures this.deviceId == deviceId && this.rows == rows
    {
      this.deviceId, this.rows := deviceId, rows;
    }

    /** Reads the newest row of the device by scanning for the greatest sequence. */
    method Tip(device: Uuid) returns (tip: ChainTip)
      ensures tip == TipOf(rows, device)
    {
      var newest: Option<Envelope<P>> := None;
      var i := 0;
      while i < |rows|
        invariant 0 <= i <= |rows|
        invariant newest == Newest(rows[..i], device)
      {
        assert rows[..i + 1][..i] == rows[..i];
        var e := rows[i].event;
        if e.header.deviceId == device && (newest.None? || newest.value.deviceSeq < e.deviceSeq) {
          newest := Some(e);
        }
        i := i + 1;
      }
      assert rows[..i] == rows;
      return if newest.None? then GENESIS else newest.value.Tip();
    }

    method Append(e: Envelope<P>, disk: bool) returns (r: Result<(), StoreError>)
      modifies this
      ensures r.Ok? ==> AppendTo(old(rows), e, disk) == Ok(rows)
      ensures r.Err? ==> AppendTo(old(rows), e, disk) == Err(r.error) && rows == old(rows)
    {
      var tip := Tip(e.header.deviceId);
      if e.deviceSeq != SaturatingNext(tip.deviceSeq) {
        return Err(OutOfSequence(tip.deviceSeq, e.deviceSeq));
      }
      if e.deviceSeq > I64_MAX {
        return Err(Unstorable(e.header.eventId));
      }
      if Clashes(rows, e) {
        return Err(Duplicate(e.header.eventId));
      }
      if !disk {
        return Err(Database);
      }
      rows := rows + [Row(e, Local)];
      return Ok(());
    }

    /** A transaction: a failure part way rolls back to where it began. */
    method AppendAll(events: seq<Envelope<P>>, disk: bool) returns (r: Result<(), StoreError>)
      modifies this
      ensures r.Ok? ==> AppendAllTo(old(rows), events, disk) == Ok(rows)
      ensures r.Err? ==> AppendAllTo(old(rows), events, disk) == Err(r.error) && rows == old(rows)
    {
      var begun := rows;
      var i := 0;
      while i < |events|
        invariant 0 <= i <= |events|
        invariant AppendAllTo(begun, events, disk) == AppendAllTo(rows, events[i..], disk)
      {
        var appended := Append(events[i], disk);
        if appended.Err? {
          rows := begun;
          return Err(appended.error);
        }
        assert events[i..][1..] == events[i + 1..];
        i := i + 1;
      }
      if !disk {
        rows := begun;
        return Err(Database);
      }
      return Ok(());
    }

    method InsertRemote(e: Envelope<P>, disk: bool) returns (r: Result<bool, StoreError>)
      modifies this
      ensures r.Ok? ==> InsertRemoteInto(old(rows), e, disk) == Ok(rows) && (r.value <==> rows != old(rows))
      ensures r.Err? ==> InsertRemoteInto(old(rows), e, disk) == Err(r.error) && rows == old(rows)
    {
      if e.deviceSeq > I64_MAX {
        return Err(Unstorable(e.header.eventId));
      }
      if !disk {
        return Err(Database);
      }
      if Clashes(rows, e) {
        return Ok(false);
      }
      rows := rows + [Row(e, Remote)];
      return Ok(true);
    }
  }

  // ---------- what the table keeps ----------

  /** The device's own rows are its chain from genesis, and every other row belongs to someone else. */
  ghost predicate Sound<P>(d: Digest<P>, device: Uuid, rows: seq<Row<P>>)
  {
    && Chained(d, Own(rows), GENESIS)
    && (forall i :: 0 <= i < |rows| ==> (rows[i].origin.Local? <==> rows[i].event.header.deviceId == device))
  }

  ghost predicate DistinctIds<P>(rows: seq<Row<P>>)
  {
    forall i, j :: 0 <= i < j < |rows| ==> rows[i].event.header.eventId != rows[j].event.header.eventId
  }

  lemma {:induction false} OwnIsFromRows<P>(rows: seq<Row<P>>, k: nat)
    requires k < |Own(rows)|
    ensures exists i :: 0 <= i < |rows| && rows[i].origin.Local? && rows[i].event == Own(rows)[k]
  {
    var n := |rows| - 1;
    if k < |Own(rows[..n])| {
      OwnIsFromRows(rows[..n], k);
      var i :| 0 <= i < n && rows[..n][i].origin.Local? && rows[..n][i].event == Own(rows[..n])[k];
      assert rows[i].event == Own(rows)[k];
    } else {
      assert rows[n].event == Own(rows)[k];
    }
  }

  lemma SoundPrefix<P>(d: Digest<P>, device: Uuid, rows: seq<Row<P>>)
    requires Sound(d, device, rows) && rows != []
    ensures Sound(d, device, rows[..|rows| - 1])
  {
    var before := Own(rows[..|rows| - 1]);
    assert Own(rows)[..|before|] == before;
    ChainedPrefix(d, Own(rows), GENESIS, |before|);
  }

  /** The tip the table reports is the end of the device's own chain. */
  lemma {:induction false} TipIsTheEnd<P>(d: Digest<P>, device: Uuid, rows: seq<Row<P>>)
    requires Sound(d, device, rows)
    ensures TipOf(rows, device) == End(Own(rows), GENESIS)
    ensures Newest(rows, device).None? <==> Own(rows) == []
  {
    if rows != [] {
      var n := |rows| - 1;
      var before := Own(rows[..n]);
      SoundPrefix(d, device, rows);
      TipIsTheEnd(d, device, rows[..n]);
      if rows[n].origin.Local? {
        ChainedEnd(d, before, GENESIS);
        ChainedAt(d, Own(rows), GENESIS, |before|);
        if before != [] {
          ChainedAt(d, before, GENESIS, |before| - 1);
        }
      }
    }
  }

  /** The chain-order read returns the own rows as they were written. */
  lemma LoadAllIsTheLog<P(!new)>(d: Digest<P>, device: Uuid, rows: seq<Row<P>>)
    requires Sound(d, device, rows)
    ensures LoadAll(rows) == Own(rows)
  {
    var own := Own(rows);
    OrdersAreTotal<P>();
    forall i, j | 0 <= i < j < |own| ensures own[i].deviceSeq < own[j].deviceSeq {
      ChainedAt(d, own, GENESIS, i);
      ChainedAt(d, own, GENESIS, j);
    }
    SortedUnique(SeqLe, own, Sort(SeqLe, own));
  }

  /** A write that follows the stored tip and seals correctly keeps the table sound. */
  lemma AppendKeepsSound<P>(d: Digest<P>, device: Uuid, rows: seq<Row<P>>, e: Envelope<P>, disk: bool)
    requires Sound(d, device, rows) && AppendTo(rows, e, disk).Ok?
    requires Follows(d, device, End(Own(rows), GENESIS), e)
    ensures Sound(d, device, AppendTo(rows, e, disk).value)
    ensures Own(AppendTo(rows, e, disk).value) == Own(rows) + [e]
  {
    var after := rows + [Row(e, Local)];
    assert after[..|rows|] == rows;
    var own := Own(rows);
    if own != [] {
      OwnIsFromRows(rows, 0);
      assert own[0].header.deviceId == device;
    }
    assert [e][..0] == [];
    assert FollowsAt(d, [e], End(own, GENESIS), 0);
    ChainedConcat(d, own, [e], GENESIS);
  }

  lemma InsertKeepsSound<P>(d: Digest<P>, device: Uuid, rows: seq<Row<P>>, e: Envelope<P>)
    requires Sound(d, device, rows) && e.header.deviceId != device
    ensures Sound(d, device, WithRemote(rows, e)) && Own(WithRemote(rows, e)) == Own(rows)
  {
    var after := rows + [Row(e, Remote)];
    assert after[..|rows|] == rows;
    assert Own(after) == Own(rows) + [] == Own(rows);
  }

  lemma WritesKeepIdsDistinct<P>(rows: seq<Row<P>>, e: Envelope<P>, disk: bool)
    requires DistinctIds(rows)
    ensures DistinctIds(WithRemote(rows, e))
    ensures AppendTo(rows, e, disk).Ok? ==> DistinctIds(AppendTo(rows, e, disk).value)
  {
    if !Clashes(rows, e) {
      forall i | 0 <= i < |rows| ensures rows[i].event.header.eventId != e.header.eventId {
        assert !SamePlace(rows[i].event, e);
      }
    }
  }

  // ---------- the order a restart reads in ----------

  /** Each event has a later time than the one written before it, or the same time and a greater id. */
  ghost predicate InClockOrder<P>(rows: seq<Row<P>>)
  {
    forall i, j :: 0 <= i < j < |rows| ==> KeyLe(rows[i].event, rows[j].event)
  }

  /**
   A restart reads the events back in the order they were written exactly when each happened after the
   one written before it: later by the clock, or at the same time with the greater id.
   */
  lemma RestartReadsInOrder<P(!new)>(rows: seq<Row<P>>)
    requires DistinctIds(rows)
    ensures ProjectionInput(rows) == Events(rows) <==> InClockOrder(rows)
  {
    OrdersAreTotal<P>();
    var all, sorted := Events(rows), ProjectionInput(rows);
    assert Sorted(KeyLe, sorted);
    if sorted == all {
      forall i, j | 0 <= i < j < |rows| ensures KeyLe(rows[i].event, rows[j].event) {
        assert KeyLe(all[i], all[j]);
      }
    }
    if InClockOrder(rows) {
      assert Sorted(KeyLe, all);
      KeysIdentifyRows(rows);
      SortedUnique(KeyLe, all, sorted);
    }
  }

  lemma KeysIdentifyRows<P(!new)>(rows: seq<Row<P>>)
    requires DistinctIds(rows)
    ensures KeysIdentify<Envelope<P>>(KeyLe, Events(rows))
  {
    forall x, y | x in Events(rows) && y in Events(rows) && KeyLe(x, y) && KeyLe(y, x) ensures x == y {
      var i :| 0 <= i < |rows| && rows[i].event == x;
      var j :| 0 <= j < |rows| && rows[j].event == y;
    }
  }

  /** With nothing pulled, the table is the log. */
  lemma {:induction false} LocalRowsAreTheLog<P>(rows: seq<Row<P>>)
    requires forall i :: 0 <= i < |rows| ==> rows[i].origin.Local?
    ensures Own(rows) == Events(rows)
  {
    if rows != [] {
      LocalRowsAreTheLog(rows[..|rows| - 1]);
    }
  }

  /** On the fields: what is read earlier happened no later, and at one time has the lesser id. */
  lemma ReadByClockThenId<P(!new)>(rows: seq<Row<P>>, i: nat, j: nat)
    requires i < j < |ProjectionInput(rows)|
    ensures var a, b := ProjectionInput(rows)[i].header, ProjectionInput(rows)[j].header;
            a.occurredAt < b.occurredAt || (a.occurredAt == b.occurredAt && a.eventId <= b.eventId)
  {
    OrdersAreTotal<P>();
    assert KeyLe(ProjectionInput(rows)[i], ProjectionInput(rows)[j]);
  }

  /** The check on load reads every own row, in order of sequence, however the rows lie in the table. */
  lemma ReadBySequence<P(!new)>(rows: seq<Row<P>>)
    ensures multiset(LoadAll(rows)) == multiset(Own(rows))
    ensures forall i, j :: 0 <= i < j < |LoadAll(rows)| ==> LoadAll(rows)[i].deviceSeq <= LoadAll(rows)[j].deviceSeq
  {
    OrdersAreTotal<P>();
    assert Sorted<Envelope<P>>(SeqLe, LoadAll(rows));
    forall i, j | 0 <= i < j < |LoadAll(rows)| ensures LoadAll(rows)[i].deviceSeq <= LoadAll(rows)[j].deviceSeq {
      assert SeqLe(LoadAll(rows)[i], LoadAll(rows)[j]);
    }
  }

  /** Where the disk fails, nothing is stored at once. */
  lemma {:induction false} NothingWithoutTheDisk<P>(rows: seq<Row<P>>, events: seq<Envelope<P>>)
    ensures AppendAllTo(rows, events, false).Err?
  {
  }

  /** Why one event is not added: the place is checked first, then the column, the constraints and the disk. */
  lemma AppendIsRefusedByName<P>(rows: seq<Row<P>>, e: Envelope<P>, disk: bool)
    ensures var tip, r := TipOf(rows, e.header.deviceId).deviceSeq, AppendTo(rows, e, disk);
            && (r == Err(OutOfSequence(tip, e.deviceSeq)) <==> e.deviceSeq != SaturatingNext(tip))
            && (e.deviceSeq == SaturatingNext(tip) ==>
                  && (r == Err(Unstorable(e.header.eventId)) <==> e.deviceSeq > I64_MAX)
                  && (e.deviceSeq <= I64_MAX ==>
                        && (r == Err(Duplicate(e.header.eventId))
                            <==> exists k :: 0 <= k < |rows| && IsTaken(rows[k].event, e))
                        && (r == Err(Database)
                            <==> !disk && forall k :: 0 <= k < |rows| ==> !IsTaken(rows[k].event, e))))
  {
    forall k | 0 <= k < |rows| ensures SamePlace(rows[k].event, e) <==> IsTaken(rows[k].event, e) {
    }
  }

  /** The id is the other's, or so are device and sequence. */
  predicate IsTaken<P>(a: Envelope<P>, e: Envelope<P>)
  {
    a.header.eventId == e.header.eventId
    || (a.deviceSeq == e.deviceSeq && a.header.deviceId == e.header.deviceId)
  }

  /** A restart reads the events that pass in the one order they sort to. */
  lemma ReadsThemAs<P(!new)>(p: Envelope<P> -> bool, rows: seq<Row<P>>, sorted: seq<Envelope<P>>)
    requires DistinctIds(rows) && Sorted<Envelope<P>>(KeyLe, sorted)
    requires multiset(sorted) == multiset(Where(p, Events(rows)))
    ensures Where(p, ProjectionInput(rows)) == sorted
  {
    OrdersAreTotal<P>();
    KeysIdentifyRows(rows);
    PickedIsSorted(KeyLe, p, Events(rows), ProjectionInput(rows), sorted);
  }

  /** Two events written against the clock are read back the other way round. */
  lemma ReadBackwards<P(!new)>(rows: seq<Row<P>>, e1: Envelope<P>, e2: Envelope<P>)
    requires rows == [Row(e1, Local), Row(e2, Local)]
    requires e2.header.occurredAt < e1.header.occurredAt
    ensures ProjectionInput(rows) == [e2, e1]
  {
    OrdersAreTotal<P>();
    assert Events(rows) == [e1, e2];
    assert [e1, e2][1..] == [e2] && [e2][1..] == [];
    assert Sort(KeyLe, [e2]) == [e2];
    assert Insert(KeyLe, e1, [e2]) == [e2] + Insert(KeyLe, e1, []);
  }

  // ---------- what the table accepts ----------

  /**
   An event that takes the next place of the own chain is stored exactly when its sequence fits, its id is
   new and the disk works: its place is never taken already.
   */
  lemma {:induction false} FollowingEventIsStored<P>(
    d: Digest<P>, device: Uuid, rows: seq<Row<P>>, e: Envelope<P>, disk: bool)
    requires Sound(d, device, rows) && Follows(d, device, End(Own(rows), GENESIS), e)
    ensures AppendTo(rows, e, disk).Ok?
       <==> e.deviceSeq <= I64_MAX && disk
            && forall i :: 0 <= i < |rows| ==> rows[i].event.header.eventId != e.header.eventId
  {
    TipIsTheEnd(d, device, rows);
    forall i | 0 <= i < |rows| && rows[i].event.header.deviceId == device
      ensures rows[i].event.deviceSeq < e.deviceSeq
    {
      NoneIsNewer(rows, device, i);
    }
    if !Clashes(rows, e) {
      forall i | 0 <= i < |rows| ensures rows[i].event.header.eventId != e.header.eventId {
        assert !SamePlace(rows[i].event, e);
      }
    }
  }

  /** No row of a device is beyond the newest one. */
  lemma {:induction false} NoneIsNewer<P>(rows: seq<Row<P>>, device: Uuid, i: nat)
    requires i < |rows| && rows[i].event.header.deviceId == device
    ensures Newest(rows, device).Some? && rows[i].event.deviceSeq <= Newest(rows, device).value.deviceSeq
  {
    if i < |rows| - 1 {
      NoneIsNewer(rows[..|rows| - 1], device, i);
    }
  }

  /** A pulled event delivered again is ignored. */
  lemma RedeliveryIsIgnored<P>(rows: seq<Row<P>>, e: Envelope<P>)
    ensures Clashes(WithRemote(rows, e), e)
    ensures WithRemote(WithRemote(rows, e), e) == WithRemote(rows, e)
  {
    if !Clashes(rows, e) {
      var after := rows + [Row(e, Remote)];
      assert SamePlace(after[|rows|].event, e);
    }
  }

  /** What clashed before still clashes once more is stored. */
  lemma ClashesStay<P>(rows: seq<Row<P>>, more: seq<Row<P>>, e: Envelope<P>)
    requires Clashes(rows, e)
    ensures Clashes(rows + more, e)
  {
    var i :| 0 <= i < |rows| && SamePlace(rows[i].event, e);
    assert (rows + more)[i] == rows[i];
  }
}
