/** The till and the sync protocol joined: whatever a till has been through, its log is one the server takes. */
module TillSync {
  import opened Base
  import opened EventLog
  import opened EventStore
  import opened TillBooks
  import opened Till
  import SyncPlan
  import Sync = SyncProtocol

  /** Every own event carries this device's scope and a sequence a database can hold. */
  ghost predicate Stamped(r: Rules, events: seq<Envelope<Payload>>)
  {
    forall i :: 0 <= i < |events| ==> IsStamped(r, events[i])
  }

  predicate IsStamped(r: Rules, e: Envelope<Payload>)
  {
    && e.header.deviceId == r.device
    && e.header.tenantId == r.tenant
    && e.header.outletId == r.outletId
    && e.deviceSeq <= I64_MAX
  }

  lemma {:induction false} SealedInScope(r: Rules, tip: ChainTip, m: Moment, k: nat, payloads: seq<Payload>, i: nat)
    requires i < |SealAll(r, tip, m, k, payloads).events|
    ensures var h := SealAll(r, tip, m, k, payloads).events[i].header;
            h.deviceId == r.device && h.tenantId == r.tenant && h.outletId == r.outletId
    decreases |payloads|
  {
    var e := Appended(r.digest, r.device, tip, Header(r, m, k), payloads[0]).value;
    if i > 0 {
      SealedInScope(r, e.Tip(), m, k + 1, payloads[1..], i - 1);
    }
  }

  lemma {:induction false} StoredFits(
    rows: seq<Row<Payload>>, events: seq<Envelope<Payload>>, disk: bool, i: nat)
    requires AppendAllTo(rows, events, disk).Ok? && i < |events|
    ensures events[i].deviceSeq <= I64_MAX
    decreases |events|
  {
    if i > 0 {
      StoredFits(AppendTo(rows, events[0], disk).value, events[1..], disk, i - 1);
    }
  }

  lemma WriteKeepsStamps(r: Rules, t: State, a: Accepted, m: Moment)
    requires LogIntact(r, t) && a.payloads != [] && Stamped(r, Own(t.rows))
    ensures Stamped(r, Own(Write(r, t, a, m).state.rows))
    ensures Own(t.rows) <= Own(Write(r, t, a, m).state.rows)
  {
    var after := Write(r, t, a, m);
    WriteKeepsLog(r, t, a, m);
    if after.result.Ok? {
      var events := after.result.value;
      forall i | 0 <= i < |events| ensures IsStamped(r, events[i]) {
        SealedInScope(r, t.tip, m, 0, a.payloads, i);
        StoredFits(t.rows, events, m.disk, i);
      }
    }
  }

  lemma NextKeepsStamps(r: Rules, t: State, step: Step, after: State)
    requires LogIntact(r, t) && Stamped(r, Own(t.rows)) && Next(r, t, step) == Ok(after)
    requires step.PullPage? ==> FromSiblings(r, step.page)
    ensures Stamped(r, Own(after.rows)) && Own(t.rows) <= Own(after.rows)
  {
    match step {
      case Act(action, m) =>
        if Accept(r, t.books, action, m.at).Ok? {
          AcceptedWritesSomething(r, t.books, action, m.at);
          WriteKeepsStamps(r, t, Accept(r, t.books, action, m.at).value, m);
        }
      case PullPage(page, works) => PulledKeepsLog(r, t.rows, page, works);
      case Restart => LoadIsInStep(r, t.rows);
    }
  }

  /** Every event of every reachable till is in its own scope. */
  lemma {:induction false} EveryRunIsStamped(r: Rules, steps: seq<Step>, t: State)
    requires PullsAreFromSiblings(r, steps) && Run(r, steps) == Ok(t)
    ensures Stamped(r, Own(t.rows))
  {
    if steps == [] {
      FirstBootSucceeds(r);
    } else {
      var n := |steps| - 1;
      var before := Run(r, steps[..n]).value;
      EveryRunIsStamped(r, steps[..n], before);
      EveryRunKeepsTheLog(r, steps[..n]);
      NextKeepsStamps(r, before, steps[n], t);
    }
  }

  lemma LastStepGrows(r: Rules, steps: seq<Step>, before: State, later: State)
    requires PullsAreFromSiblings(r, steps) && steps != []
    requires Run(r, steps[..|steps| - 1]) == Ok(before) && Run(r, steps) == Ok(later)
    ensures Own(before.rows) <= Own(later.rows)
  {
    var last := |steps| - 1;
    EveryRunKeepsTheLog(r, steps[..last]);
    EveryRunIsStamped(r, steps[..last], before);
    NextKeepsStamps(r, before, steps[last], later);
  }

  /** A till never takes back what it has written: whatever the server was sent stays part of the log. */
  lemma {:induction false} NothingIsTakenBack(r: Rules, steps: seq<Step>, n: nat, earlier: State, later: State)
    requires PullsAreFromSiblings(r, steps) && n <= |steps|
    requires Run(r, steps[..n]) == Ok(earlier) && Run(r, steps) == Ok(later)
    ensures Own(earlier.rows) <= Own(later.rows)
    decreases |steps|
  {
    if n < |steps| {
      var last := |steps| - 1;
      var before := Run(r, steps[..last]).value;
      assert steps[..last][..n] == steps[..n];
      NothingIsTakenBack(r, steps[..last], n, earlier, before);
      LastStepGrows(r, steps, before, later);
    } else {
      assert steps[..n] == steps;
    }
  }

  /**
   A reachable till facing a server that holds the first `n` events of its log, as the device row describes
   it. The till has marked the first `acked` of them as confirmed.
   */
  function Facing(r: Rules, t: State, acked: nat, n: nat, revoked: bool): Sync.World<Payload>
    requires n <= |Own(t.rows)|
  {
    var log := Own(t.rows);
    var record := Sync.DeviceRecord(r.device, r.tenant, r.outletId, revoked);
    Sync.World(log, acked, Sync.Server(record, log[..n], End(log[..n], GENESIS)))
  }

  lemma FacingIsInStep(r: Rules, steps: seq<Step>, t: State, acked: nat, n: nat, revoked: bool)
    requires PullsAreFromSiblings(r, steps) && Run(r, steps) == Ok(t) && acked <= n <= |Own(t.rows)|
    ensures Sync.InStep(r.digest, Facing(r, t, acked, n, revoked))
  {
    EveryRunKeepsTheLog(r, steps);
    EveryRunIsStamped(r, steps, t);
    var log := Own(t.rows);
    forall i | 0 <= i < |log| ensures log[i].header.deviceId == r.device {
      assert IsStamped(r, log[i]);
    }
    assert SyncPlan.Sound(r.digest, log, r.device);
    assert Sync.Storable(log, Sync.DeviceRecord(r.device, r.tenant, r.outletId, revoked)) by {
      assert forall i :: 0 <= i < |log| ==> IsStamped(r, log[i]);
    }
  }

  /**
   A till that has been through anything — refusals, lost writes, pulls, restarts — and a server that
   holds any part of its log: enough delivered rounds, with any number of failures between them, and the
   server holds exactly the till's log.
   */
  lemma EveryTillCatchesUp(
    r: Rules, steps: seq<Step>, t: State, acked: nat, n: nat, rounds: seq<Sync.Round>)
    requires PullsAreFromSiblings(r, steps) && Run(r, steps) == Ok(t) && acked <= n <= |Own(t.rows)|
    requires acked + Sync.Capacity(rounds) >= |Own(t.rows)|
    ensures Sync.PushRounds(r.digest, Facing(r, t, acked, n, false), rounds).server.stored == Own(t.rows)
  {
    var w := Facing(r, t, acked, n, false);
    FacingIsInStep(r, steps, t, acked, n, false);
    Sync.DeliveredRoundsDrainTheQueue(r.digest, w, rounds);
  }
}
