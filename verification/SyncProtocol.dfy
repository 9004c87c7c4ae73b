/**
 The sync protocol over whole runs: a till writing its log, a network that loses requests and replies,
 and a server that stores what `PlanBatch` lets through, all or nothing.
 */
module SyncProtocol {
  import opened Base
  import opened EventLog
  import opened SyncPlan

  const MAX_BATCH: nat := 500

  datatype DeviceRecord = DeviceRecord(deviceId: Uuid, tenantId: Uuid, outletId: Uuid, revoked: bool)

  /** The server's side of one device: the stored events, and the tip kept in the device row. */
  datatype Server<+P> = Server(record: DeviceRecord, stored: seq<Envelope<P>>, tip: ChainTip)

  datatype PushError =
    | BatchTooLarge(count: nat)
    | Revoked
    | Rejected(error: SyncError)
    | ScopeMismatch(eventId: Uuid)
    | CorruptDevice
    | Database

  datatype PushResponse = PushResponse(accepted: nat, skipped: nat, tip: ChainTip)

  datatype Pushed<+P> = Pushed(server: Server<P>, response: PushResponse)

  /** The first event the device row does not allow, or whose sequence the database cannot hold. */
  function FirstUnstorable<P>(events: seq<Envelope<P>>, record: DeviceRecord): Option<PushError>
  {
    if events == [] then None
    else if events[0].header.tenantId != record.tenantId || events[0].header.outletId != record.outletId then
      Some(ScopeMismatch(events[0].header.eventId))
    else if events[0].deviceSeq > I64_MAX then
      Some(CorruptDevice)
    else
      FirstUnstorable(events[1..], record)
  }

  lemma {:induction false} NoneUnstorable<P>(events: seq<Envelope<P>>, record: DeviceRecord)
    ensures FirstUnstorable(events, record).None? <==> Storable(events, record)
  {
    if events != [] {
      NoneUnstorable(events[1..], record);
      assert forall i :: 0 < i < |events| ==> events[i] == events[1..][i - 1];
    }
  }

  ghost predicate Storable<P>(events: seq<Envelope<P>>, record: DeviceRecord)
  {
    forall i :: 0 <= i < |events| ==>
      && events[i].header.tenantId == record.tenantId
      && events[i].header.outletId == record.outletId
      && events[i].deviceSeq <= I64_MAX
  }

  /** One push, inside one transaction; `dbOk` is whether the database answers and lets it commit. */
  function Push<P>(d: Digest<P>, server: Server<P>, events: seq<Envelope<P>>, dbOk: bool)
    : Result<Pushed<P>, PushError>
  {
    if |events| > MAX_BATCH then Err(BatchTooLarge(|events|))
    else if server.record.revoked then Err(Revoked)
    else
      match PlanBatch(d, events, server.tip, server.record.deviceId)
      case Err(error) => Err(Rejected(error))
      case Ok(plan) =>
        PlanShape(d, events, server.tip, server.record.deviceId);
        if plan.toInsert == 0 then
          // the no-op answer still reads the database for its high-water mark
          if !dbOk then Err(Database)
          else Ok(Pushed(server, PushResponse(0, plan.alreadyStored, server.tip)))
        else
          var bad := FirstUnstorable(events[plan.alreadyStored..], server.record);
          if bad.Some? then Err(bad.value)
          else if !dbOk then Err(Database)
          else
            Ok(Pushed(
                 server.(stored := Commit(server.stored, events, plan), tip := plan.resultingTip),
                 PushResponse(plan.toInsert, plan.alreadyStored, plan.resultingTip)))
  }

  lemma {:induction false} FirstUnstorableMeans<P>(events: seq<Envelope<P>>, record: DeviceRecord)
    requires FirstUnstorable(events, record).Some?
    ensures exists k :: 0 <= k < |events| && Storable(events[..k], record) && IsUnstorable(events[k], record)
                        && FirstUnstorable(events, record).value == WhyUnstorable(events[k], record)
  {
    if IsUnstorable(events[0], record) {
      assert Storable(events[..0], record);
    } else {
      FirstUnstorableMeans(events[1..], record);
      var k :| 0 <= k < |events[1..]| && Storable(events[1..][..k], record) && IsUnstorable(events[1..][k], record)
               && FirstUnstorable(events[1..], record).value == WhyUnstorable(events[1..][k], record);
      assert forall i :: 0 < i <= k ==> events[i] == events[1..][..k][i - 1];
      assert events[k + 1] == events[1..][k] && Storable(events[..k + 1], record);
    }
  }

  predicate OutOfScope<P>(e: Envelope<P>, record: DeviceRecord)
  {
    e.header.tenantId != record.tenantId || e.header.outletId != record.outletId
  }

  predicate IsUnstorable<P>(e: Envelope<P>, record: DeviceRecord) { OutOfScope(e, record) || e.deviceSeq > I64_MAX }

  function WhyUnstorable<P>(e: Envelope<P>, record: DeviceRecord): PushError
  {
    if OutOfScope(e, record) then ScopeMismatch(e.header.eventId) else CorruptDevice
  }

  /** Why a push is refused, the first reason that applies. */
  lemma PushIsRefusedByName<P>(d: Digest<P>, server: Server<P>, events: seq<Envelope<P>>, dbOk: bool)
    requires Push(d, server, events, dbOk).Err?
    ensures var why, plan := Push(d, server, events, dbOk).error,
                             PlanBatch(d, events, server.tip, server.record.deviceId);
            if |events| > MAX_BATCH then why == BatchTooLarge(|events|)
            else if server.record.revoked then why == Revoked
            else if plan.Err? then why == Rejected(plan.error)
            else if why == Database then !dbOk
            else exists k :: 0 <= k < |events| && IsUnstorable(events[k], server.record)
                             && why == WhyUnstorable(events[k], server.record)
  {
    var plan := PlanBatch(d, events, server.tip, server.record.deviceId);
    if |events| <= MAX_BATCH && !server.record.revoked && plan.Ok? {
      PlanShape(d, events, server.tip, server.record.deviceId);
      var unseen := events[plan.value.alreadyStored..];
      if plan.value.toInsert > 0 && FirstUnstorable(unseen, server.record).Some? {
        FirstUnstorableMeans(unseen, server.record);
        var k :| 0 <= k < |unseen| && IsUnstorable(unseen[k], server.record)
                 && FirstUnstorable(unseen, server.record).value == WhyUnstorable(unseen[k], server.record);
        assert events[plan.value.alreadyStored + k] == unseen[k];
      }
    }
  }

  // ---------- any traffic at all ----------

  ghost predicate ServerSound<P>(d: Digest<P>, server: Server<P>)
  {
    && Sound(d, server.stored, server.record.deviceId)
    && server.tip == End(server.stored, GENESIS)
    && Storable(server.stored, server.record)
  }

  datatype Request<+P> = Request(events: seq<Envelope<P>>, dbOk: bool)

  function Serve<P>(d: Digest<P>, server: Server<P>, request: Request<P>): Server<P>
  {
    match Push(d, server, request.events, request.dbOk)
    case Ok(pushed) => pushed.server
    case Err(_) => server
  }

  function ServeAll<P>(d: Digest<P>, server: Server<P>, requests: seq<Request<P>>): Server<P>
    decreases |requests|
  {
    if requests == [] then server
    else ServeAll(d, Serve(d, server, requests[0]), requests[1..])
  }

  lemma ServeKeepsSound<P>(d: Digest<P>, server: Server<P>, request: Request<P>)
    requires ServerSound(d, server)
    ensures var after := Serve(d, server, request);
            ServerSound(d, after) && server.stored <= after.stored && after.record == server.record
  {
    var r := Push(d, server, request.events, request.dbOk);
    if r.Ok? && r.value.response.accepted > 0 {
      AcceptedBatchStaysSound(d, server.stored, request.events, server.record.deviceId);
      var plan := PlanBatch(d, request.events, server.tip, server.record.deviceId).value;
      NoneUnstorable(request.events[plan.alreadyStored..], server.record);
      assert Commit(server.stored, request.events, plan)
          == server.stored + request.events[plan.alreadyStored..];
    }
  }

  /**
   Whatever is sent to the server, in any order and by anyone, its log for a device stays one verified
   chain in that device's own scope, agrees with the tip kept beside it, and only ever grows.
   */
  lemma {:induction false} AnyTrafficKeepsSound<P>(d: Digest<P>, server: Server<P>, requests: seq<Request<P>>)
    requires ServerSound(d, server)
    ensures ServerSound(d, ServeAll(d, server, requests))
    ensures server.stored <= ServeAll(d, server, requests).stored
    decreases |requests|
  {
    if requests != [] {
      ServeKeepsSound(d, server, requests[0]);
      AnyTrafficKeepsSound(d, Serve(d, server, requests[0]), requests[1..]);
    }
  }

  // ---------- an honest till over a lossy network ----------

  /** `acked` is how many leading events the till has marked as synced. */
  datatype World<+P> = World(log: seq<Envelope<P>>, acked: nat, server: Server<P>)

  datatype Step<+P> =
    | Write(header: EventHeader, payload: P)
    | Send(first: nat, upTo: nat, dbOk: bool, replyLost: bool)

  /** The till's write: seal onto the log's tip, and refuse a sequence its database cannot hold. */
  function Written<P>(d: Digest<P>, w: World<P>, header: EventHeader, payload: P): World<P>
  {
    var own := w.server.record;
    var scoped := header.(tenantId := own.tenantId, outletId := own.outletId);
    match Appended(d, own.deviceId, End(w.log, GENESIS), scoped, payload)
    case Err(_) => w
    case Ok(e) => if e.deviceSeq > I64_MAX then w else w.(log := w.log + [e])
  }

  /** A slice of the log goes out; if a reply comes back and covers it, the till marks what it confirms. */
  function Sent<P>(d: Digest<P>, w: World<P>, first: nat, upTo: nat, dbOk: bool, replyLost: bool): World<P>
  {
    if !(first <= upTo <= |w.log|) then w
    else
      match Push(d, w.server, w.log[first..upTo], dbOk)
      case Err(_) => w
      case Ok(pushed) => Answered(w, w.log[first..upTo], pushed, replyLost)
  }

  function Answered<P>(w: World<P>, batch: seq<Envelope<P>>, pushed: Pushed<P>, replyLost: bool): World<P>
  {
    var delivered := w.(server := pushed.server);
    if replyLost || TipMismatch(batch, pushed.response.tip) then delivered
    else delivered.(acked := Max(w.acked, Min(pushed.response.tip.deviceSeq, |w.log|)))
  }

  /** The server's tip does not cover what was just sent: the local log must have been cut short. */
  predicate TipMismatch<P>(batch: seq<Envelope<P>>, tip: ChainTip)
  {
    batch != [] && tip.deviceSeq < batch[|batch| - 1].deviceSeq
  }

  function Next<P>(d: Digest<P>, w: World<P>, step: Step<P>): World<P>
  {
    match step
    case Write(header, payload) => Written(d, w, header, payload)
    case Send(first, upTo, dbOk, replyLost) => Sent(d, w, first, upTo, dbOk, replyLost)
  }

  function Run<P>(d: Digest<P>, w: World<P>, steps: seq<Step<P>>): World<P>
    decreases |steps|
  {
    if steps == [] then w else Run(d, Next(d, w, steps[0]), steps[1..])
  }

  /** Nothing written or sent yet. */
  predicate Enrolled<P(==)>(w: World<P>)
  {
    w.log == [] && w.acked == 0 && w.server.stored == [] && w.server.tip == GENESIS
  }

  /** What every reachable world satisfies. */
  ghost predicate InStep<P>(d: Digest<P>, w: World<P>)
  {
    && Sound(d, w.log, w.server.record.deviceId)
    && Storable(w.log, w.server.record)
    && |w.server.stored| <= |w.log|
    && w.server.stored == w.log[..|w.server.stored|]
    && w.server.tip == End(w.server.stored, GENESIS)
    && w.acked <= |w.server.stored|
  }

  lemma LogFitsI64<P>(d: Digest<P>, w: World<P>)
    requires InStep(d, w)
    ensures |w.log| <= I64_MAX
  {
    if w.log != [] {
      ChainedAt(d, w.log, GENESIS, |w.log| - 1);
    }
  }

  lemma WriteKeepsInStep<P>(d: Digest<P>, w: World<P>, header: EventHeader, payload: P)
    requires InStep(d, w)
    ensures InStep(d, Written(d, w, header, payload))
  {
    var after := Written(d, w, header, payload);
    if after != w {
      var e := after.log[|w.log|];
      assert after.log == w.log + [e];
      assert Chained(d, [e], End(w.log, GENESIS));
      ChainedConcat(d, w.log, [e], GENESIS);
    }
  }

  /** The answer to a push of `log[first..upTo]` by a server that holds `n` events of the log. */
  ghost predicate HonestOutcome<P>(w: World<P>, first: nat, upTo: nat, dbOk: bool, r: Result<Pushed<P>, PushError>)
    requires first < upTo <= |w.log| && |w.server.stored| <= |w.log|
  {
    var n := |w.server.stored|;
    && (r.Ok? <==>
        && upTo - first <= MAX_BATCH && !w.server.record.revoked
        && first <= n && dbOk)
    && (r.Ok? ==>
          && r.value.server == w.server.(stored := w.log[..Max(n, upTo)], tip := TipAt(w.log, Max(n, upTo)))
          && r.value.response.tip == TipAt(w.log, Max(n, upTo)))
  }

  /**
   What a push of any slice of the log meets: it is accepted exactly when it fits the limit, the device
   is not revoked, it leaves no gap, and the database answers; the server then holds the
   log exactly as far as either side had it.
   */
  lemma HonestPush<P>(d: Digest<P>, w: World<P>, first: nat, upTo: nat, dbOk: bool)
    requires InStep(d, w) && first < upTo <= |w.log|
    ensures HonestOutcome(w, first, upTo, dbOk, Push(d, w.server, w.log[first..upTo], dbOk))
  {
    var n, batch := |w.server.stored|, w.log[first..upTo];
    if |batch| <= MAX_BATCH && !w.server.record.revoked && first <= n {
      if n < upTo {
        NewIsStored(d, w, first, upTo, dbOk);
      } else {
        NothingNewIsAnswered(d, w, first, upTo, dbOk);
      }
    } else {
      HonestPlan(d, w, first, upTo);
      PushRefused(d, w.server, batch, dbOk);
    }
  }

  lemma NewIsStored<P>(d: Digest<P>, w: World<P>, first: nat, upTo: nat, dbOk: bool)
    requires InStep(d, w) && first <= |w.server.stored| < upTo <= |w.log|
    requires upTo - first <= MAX_BATCH && !w.server.record.revoked
    ensures var n, tip := |w.server.stored|, TipAt(w.log, upTo);
            Push(d, w.server, w.log[first..upTo], dbOk)
            == if dbOk then
                 Ok(Pushed(w.server.(stored := w.log[..upTo], tip := tip), PushResponse(upTo - n, n - first, tip)))
               else Err(Database)
  {
    var n := |w.server.stored|;
    HonestPlan(d, w, first, upTo);
    var plan := BatchPlan(n - first, upTo - n, TipAt(w.log, upTo));
    SliceStores(w.log, w.server.record, first, n, upTo, plan);
    PushNew(d, w.server, w.log[first..upTo], dbOk, plan);
  }

  lemma NothingNewIsAnswered<P>(d: Digest<P>, w: World<P>, first: nat, upTo: nat, dbOk: bool)
    requires InStep(d, w) && first < upTo <= |w.server.stored|
    requires upTo - first <= MAX_BATCH && !w.server.record.revoked
    ensures var n := |w.server.stored|;
            && w.server == w.server.(stored := w.log[..n], tip := TipAt(w.log, n))
            && Push(d, w.server, w.log[first..upTo], dbOk)
               == if dbOk then Ok(Pushed(w.server, PushResponse(0, upTo - first, w.server.tip))) else Err(Database)
  {
    HonestPlan(d, w, first, upTo);
    PushNothingNew(d, w.server, w.log[first..upTo], dbOk, BatchPlan(upTo - first, 0, w.server.tip));
  }

  /** What the server plans for a slice of the log. */
  lemma HonestPlan<P>(d: Digest<P>, w: World<P>, first: nat, upTo: nat)
    requires InStep(d, w) && first < upTo <= |w.log|
    ensures var n := |w.server.stored|;
            var r := PlanBatch(d, w.log[first..upTo], w.server.tip, w.server.record.deviceId);
            if first > n then r.Err?
            else r == Ok(BatchPlan(Min(n, upTo) - first, upTo - Min(n, upTo), TipAt(w.log, Max(n, upTo))))
  {
    LogFitsI64(d, w);
    HonestSlicePlan(d, w.log, w.server.record.deviceId, |w.server.stored|, first, upTo);
  }

  lemma PushRefused<P>(d: Digest<P>, server: Server<P>, events: seq<Envelope<P>>, dbOk: bool)
    requires || |events| > MAX_BATCH || server.record.revoked
             || PlanBatch(d, events, server.tip, server.record.deviceId).Err?
    ensures Push(d, server, events, dbOk).Err?
  {
  }

  lemma PushNothingNew<P>(d: Digest<P>, server: Server<P>, events: seq<Envelope<P>>, dbOk: bool, plan: BatchPlan)
    requires |events| <= MAX_BATCH && !server.record.revoked
    requires PlanBatch(d, events, server.tip, server.record.deviceId) == Ok(plan) && plan.toInsert == 0
    ensures Push(d, server, events, dbOk)
            == if dbOk then Ok(Pushed(server, PushResponse(0, plan.alreadyStored, server.tip))) else Err(Database)
  {
  }

  lemma PushNew<P>(d: Digest<P>, server: Server<P>, events: seq<Envelope<P>>, dbOk: bool, plan: BatchPlan)
    requires |events| <= MAX_BATCH && !server.record.revoked
    requires PlanBatch(d, events, server.tip, server.record.deviceId) == Ok(plan) && plan.toInsert > 0
    requires plan.alreadyStored + plan.toInsert == |events|
    requires FirstUnstorable(events[plan.alreadyStored..], server.record).None?
    ensures Push(d, server, events, dbOk)
            == if dbOk then
                 Ok(Pushed(
                      server.(stored := Commit(server.stored, events, plan), tip := plan.resultingTip),
                      PushResponse(plan.toInsert, plan.alreadyStored, plan.resultingTip)))
               else Err(Database)
  {
  }

  lemma SliceStores<P>(log: seq<Envelope<P>>, record: DeviceRecord, first: nat, n: nat, upTo: nat, plan: BatchPlan)
    requires first <= n < upTo <= |log| && Storable(log, record)
    requires plan.alreadyStored == n - first && plan.toInsert == upTo - n
    ensures FirstUnstorable(log[first..upTo][plan.alreadyStored..], record).None?
    ensures Commit(log[..n], log[first..upTo], plan) == log[..upTo]
  {
    var batch, k, rest := log[first..upTo], n - first, log[n..upTo];
    assert batch[k..] == rest;
    NoneUnstorable(rest, record);
    assert batch[k..upTo - first] == rest && log[..n] + rest == log[..upTo];
  }

  /** A committed push moves the server to some later point of the log; the till's marks stay behind it. */
  lemma AnswerKeepsInStep<P>(
    d: Digest<P>, w: World<P>, first: nat, upTo: nat, m: nat, pushed: Pushed<P>, replyLost: bool)
    requires InStep(d, w) && first < upTo <= m <= |w.log| && |w.server.stored| <= m
    requires pushed.server == w.server.(stored := w.log[..m], tip := TipAt(w.log, m))
    requires pushed.response.tip == TipAt(w.log, m)
    ensures !TipMismatch(w.log[first..upTo], pushed.response.tip)
    ensures InStep(d, Answered(w, w.log[first..upTo], pushed, replyLost))
    ensures !replyLost ==> Answered(w, w.log[first..upTo], pushed, replyLost).acked == m
  {
    HonestTip(d, w.log, w.server.record.deviceId, m);
    ChainedAt(d, w.log, GENESIS, upTo - 1);
    assert w.log[first..upTo][upTo - first - 1] == w.log[upTo - 1];
    assert w.log[..|w.log[..m]|] == w.log[..m];
  }

  /** What a write adds: one event with this content at the end of the log, where it can be sealed and stored. */
  lemma WriteAddsExactly<P>(d: Digest<P>, w: World<P>, header: EventHeader, payload: P)
    ensures var after, own, tip := Written(d, w, header, payload), w.server.record, End(w.log, GENESIS);
            var scoped := header.(tenantId := own.tenantId, outletId := own.outletId);
            && after.acked == w.acked && after.server == w.server
            && if header.deviceId == own.deviceId && tip.deviceSeq < I64_MAX
                  && d(HashInput(scoped, tip.deviceSeq + 1, payload, tip.hash)).Some? then
                 var hash := d(HashInput(scoped, tip.deviceSeq + 1, payload, tip.hash)).value;
                 after.log == w.log + [Envelope(scoped, tip.deviceSeq + 1, payload, tip.hash, hash)]
               else
                 after.log == w.log
  {
  }

  /** What a send does: the server serves the slice, and only an answer that arrives is marked. */
  lemma SendMarksExactly<P>(
    d: Digest<P>, w: World<P>, first: nat, upTo: nat, dbOk: bool, replyLost: bool)
    requires first <= upTo <= |w.log|
    ensures var after, answer := Sent(d, w, first, upTo, dbOk, replyLost), Push(d, w.server, w.log[first..upTo], dbOk);
            && after.log == w.log && after.server == Serve(d, w.server, Request(w.log[first..upTo], dbOk))
            && (replyLost || answer.Err? ==> after.acked == w.acked)
            && (!replyLost && answer.Ok? ==>
                  var tip := answer.value.response.tip.deviceSeq;
                  after.acked
                  == if first < upTo && tip < w.log[upTo - 1].deviceSeq then w.acked
                     else Max(w.acked, Min(tip, |w.log|)))
  {
    var batch := w.log[first..upTo];
    assert first < upTo ==> batch[|batch| - 1] == w.log[upTo - 1];
  }

  /** An honest send keeps the world in step; a delivered one confirms everything that was sent. */
  lemma SendKeepsInStep<P>(d: Digest<P>, w: World<P>, first: nat, upTo: nat, dbOk: bool, replyLost: bool)
    requires InStep(d, w)
    ensures var after := Sent(d, w, first, upTo, dbOk, replyLost);
            && InStep(d, after) && after.log == w.log
            && after.server.record == w.server.record && after.acked >= w.acked
            && ((&& first < upTo <= |w.log| && first <= |w.server.stored| && upTo - first <= MAX_BATCH
                 && !w.server.record.revoked && dbOk && !replyLost) ==> after.acked >= upTo)
  {
    if first < upTo <= |w.log| {
      HonestPush(d, w, first, upTo, dbOk);
      var r := Push(d, w.server, w.log[first..upTo], dbOk);
      if r.Ok? {
        AnswerKeepsInStep(d, w, first, upTo, Max(|w.server.stored|, upTo), r.value, replyLost);
      }
    } else if first == upTo <= |w.log| {
      EmptySend(d, w, first, dbOk, replyLost);
    }
  }

  lemma EmptySend<P>(d: Digest<P>, w: World<P>, at: nat, dbOk: bool, replyLost: bool)
    requires InStep(d, w) && at <= |w.log|
    ensures var after := Sent(d, w, at, at, dbOk, replyLost);
            InStep(d, after) && after == w.(acked := after.acked) && after.acked >= w.acked
  {
    assert w.log[at..at] == [];
    HonestTip(d, w.log, w.server.record.deviceId, |w.server.stored|);
  }

  /**
   Sync safety. After any run of writes and sends — any slice, any number of times, with database
   failures and lost replies anywhere — the server's log is a prefix of the till's, both verify, and
   everything the till has marked as synced is on the server.
   */
  lemma {:induction false} EveryRunStaysInStep<P>(d: Digest<P>, w: World<P>, steps: seq<Step<P>>)
    requires InStep(d, w)
    ensures InStep(d, Run(d, w, steps))
    ensures Run(d, w, steps).server.stored <= Run(d, w, steps).log
    ensures Run(d, w, steps).acked <= |Run(d, w, steps).server.stored|
    decreases |steps|
  {
    if steps != [] {
      match steps[0] {
        case Write(header, payload) => WriteKeepsInStep(d, w, header, payload);
        case Send(first, upTo, dbOk, replyLost) => SendKeepsInStep(d, w, first, upTo, dbOk, replyLost);
      }
      EveryRunStaysInStep(d, Next(d, w, steps[0]), steps[1..]);
    }
  }

  lemma EnrolledIsInStep<P>(d: Digest<P>, w: World<P>)
    requires Enrolled(w)
    ensures InStep(d, w)
  {
  }

  /** From enrollment on: the server never holds anything but a prefix of what the till has written. */
  lemma EveryRunFromEnrollmentIsSafe<P>(d: Digest<P>, w: World<P>, steps: seq<Step<P>>)
    requires Enrolled(w)
    ensures var after := Run(d, w, steps);
            && InStep(d, after)
            && after.server.stored <= after.log
            && after.acked <= |after.server.stored|
  {
    EnrolledIsInStep(d, w);
    EveryRunStaysInStep(d, w, steps);
  }

  // ---------- progress ----------

  /** One round of the till's push loop: the oldest unsynced events, at most a batch of them. */
  datatype Round = Round(dbOk: bool, replyLost: bool)

  function PushPending<P>(d: Digest<P>, w: World<P>, round: Round): World<P>
  {
    if w.acked >= |w.log| then w
    else Sent(d, w, w.acked, Min(w.acked + MAX_BATCH, |w.log|), round.dbOk, round.replyLost)
  }

  function PushRounds<P>(d: Digest<P>, w: World<P>, rounds: seq<Round>): World<P>
    decreases |rounds|
  {
    if rounds == [] then w else PushRounds(d, PushPending(d, w, rounds[0]), rounds[1..])
  }

  /** How many events the rounds can have confirmed: a batch for each that committed and was answered. */
  function Capacity(rounds: seq<Round>): nat
  {
    if rounds == [] then 0
    else (if rounds[0].dbOk && !rounds[0].replyLost then MAX_BATCH else 0) + Capacity(rounds[1..])
  }

  lemma RoundMakesProgress<P>(d: Digest<P>, w: World<P>, round: Round)
    requires InStep(d, w) && !w.server.record.revoked
    ensures var after := PushPending(d, w, round);
            && InStep(d, after) && after.log == w.log && after.acked >= w.acked
            && after.server.record == w.server.record
            && (round.dbOk && !round.replyLost ==> after.acked >= Min(w.acked + MAX_BATCH, |w.log|))
  {
    if w.acked < |w.log| {
      SendKeepsInStep(d, w, w.acked, Min(w.acked + MAX_BATCH, |w.log|), round.dbOk, round.replyLost);
    }
  }

  /** At least `events` more of the log are confirmed than in `before`, as far as there are any. */
  ghost predicate Progressed<P>(d: Digest<P>, before: World<P>, after: World<P>, events: nat)
  {
    && InStep(d, after)
    && after.log == before.log
    && after.acked >= Min(before.acked + events, |before.log|)
  }

  /** Both sides hold the same log and the till has nothing pending. */
  predicate Drained<P(==)>(before: World<P>, after: World<P>)
  {
    after.log == before.log && after.server.stored == before.log && after.acked == |before.log|
  }

  lemma EnoughProgressDrains<P>(d: Digest<P>, before: World<P>, after: World<P>, events: nat)
    requires Progressed(d, before, after, events) && before.acked + events >= |before.log|
    ensures Drained(before, after)
  {
    assert after.log[..|after.log|] == after.log;
  }

  lemma {:induction false} RoundsMakeProgress<P>(d: Digest<P>, w: World<P>, rounds: seq<Round>)
    requires InStep(d, w) && !w.server.record.revoked
    ensures Progressed(d, w, PushRounds(d, w, rounds), Capacity(rounds))
    decreases |rounds|
  {
    if rounds != [] {
      RoundMakesProgress(d, w, rounds[0]);
      RoundsMakeProgress(d, PushPending(d, w, rounds[0]), rounds[1..]);
    }
  }

  /**
   Retrying always gets there. However many rounds fail in between, each delivered round confirms
   another batch, so enough of them leave both sides holding the same log with nothing pending.
   */
  lemma DeliveredRoundsDrainTheQueue<P>(d: Digest<P>, w: World<P>, rounds: seq<Round>)
    requires InStep(d, w) && !w.server.record.revoked
    requires w.acked + Capacity(rounds) >= |w.log|
    ensures Drained(w, PushRounds(d, w, rounds))
  {
    RoundsMakeProgress(d, w, rounds);
    EnoughProgressDrains(d, w, PushRounds(d, w, rounds), Capacity(rounds));
  }

  // ---------- a till with another history ----------

  /**
   Any accepted push at all: the test for a log cut short trips exactly when the batch, by its first place
   and its length, ends at or below the tip, and its last event says otherwise.
   */
  lemma TestTripsExactly<P>(d: Digest<P>, server: Server<P>, events: seq<Envelope<P>>, dbOk: bool)
    requires Push(d, server, events, dbOk).Ok? && events != []
    ensures TipMismatch(events, Push(d, server, events, dbOk).value.response.tip)
       <==> && events[0].deviceSeq + |events| <= SaturatingNext(server.tip.deviceSeq)
            && server.tip.deviceSeq < events[|events| - 1].deviceSeq
  {
    var plan := PlanBatch(d, events, server.tip, server.record.deviceId).value;
    PlanShape(d, events, server.tip, server.record.deviceId);
    NoForeign(events, server.record.deviceId);
    NoopExactlyWhen(d, events, server.tip, server.record.deviceId);
    if plan.toInsert > 0 {
      var unseen := events[plan.alreadyStored..];
      assert unseen[|unseen| - 1] == events[|events| - 1];
    }
  }

  /** So it never trips on a run of a chain, whatever its history and whatever the server holds. */
  lemma NoAnswerTripsTheTest<P>(
    d: Digest<P>, server: Server<P>, events: seq<Envelope<P>>, start: ChainTip, dbOk: bool)
    requires Chained(d, events, start) && Push(d, server, events, dbOk).Ok?
    ensures !TipMismatch(events, Push(d, server, events, dbOk).value.response.tip)
  {
    if events != [] {
      ChainedAt(d, events, start, 0);
      ChainedAt(d, events, start, |events| - 1);
      TestTripsExactly(d, server, events, dbOk);
    }
  }

  /** Both sides hold sound logs of one device, which need not agree. */
  ghost predicate BothSound<P>(d: Digest<P>, w: World<P>)
  {
    ServerSound(d, w.server) && Sound(d, w.log, w.server.record.deviceId) && w.acked <= |w.log|
  }

  lemma ServerFitsI64<P>(d: Digest<P>, server: Server<P>)
    requires ServerSound(d, server)
    ensures |server.stored| <= I64_MAX
  {
    if server.stored != [] {
      ChainedAt(d, server.stored, GENESIS, |server.stored| - 1);
    }
  }

  /**
   What a push of any slice of any till's log meets, restored backups included: it is accepted exactly when
   it fits the limit, the device is not revoked, the database answers, it leaves no gap, and it ends at or
   below the tip or extends the very log the server holds, unless the digest has been broken.
   */
  lemma PushOfAnyHistory<P(!new)>(d: Digest<P>, w: World<P>, first: nat, upTo: nat, dbOk: bool)
    requires BothSound(d, w) && Storable(w.log, w.server.record) && first < upTo <= |w.log|
    ensures var n := |w.server.stored|;
            || Broken(d)
            || (Push(d, w.server, w.log[first..upTo], dbOk).Ok?
                <==> && upTo - first <= MAX_BATCH && !w.server.record.revoked && dbOk
                     && first <= n && (upTo <= n || w.server.stored <= w.log))
  {
    var n, batch := |w.server.stored|, w.log[first..upTo];
    ServerFitsI64(d, w.server);
    ForkIsRefusedExactly(d, w.server.stored, w.log, w.server.record.deviceId, first, upTo);
    if |batch| <= MAX_BATCH && !w.server.record.revoked && first <= n && upTo > n && w.server.stored <= w.log {
      HonestPush(d, w.(acked := 0), first, upTo, dbOk);
    } else if |batch| <= MAX_BATCH && !w.server.record.revoked && upTo <= n {
      BelowTheTip(d, w, first, upTo, dbOk);
    } else if !Broken(d) {
      PushRefused(d, w.server, batch, dbOk);
    }
  }

  /** Below the tip a slice of any history is answered, and nothing is stored. */
  lemma BelowTheTip<P>(d: Digest<P>, w: World<P>, first: nat, upTo: nat, dbOk: bool)
    requires BothSound(d, w) && first < upTo <= |w.log| && upTo <= |w.server.stored|
    requires upTo - first <= MAX_BATCH && !w.server.record.revoked
    ensures Push(d, w.server, w.log[first..upTo], dbOk)
         == if dbOk then Ok(Pushed(w.server, PushResponse(0, upTo - first, w.server.tip))) else Err(Database)
  {
    var batch, device := w.log[first..upTo], w.server.record.deviceId;
    ServerFitsI64(d, w.server);
    ChainedEnd(d, w.server.stored, GENESIS);
    SliceFacts(d, w.log, device, first, upTo);
    NoopExactlyWhen(d, batch, w.server.tip, device);
    PushNothingNew(d, w.server, batch, dbOk, BatchPlan(|batch|, 0, w.server.tip));
  }

  /** Everything the till has marked as synced is on the server. */
  ghost predicate MarkedAreStored<P>(w: World<P>)
    requires w.acked <= |w.log|
  {
    w.log[..w.acked] <= w.server.stored
  }

  /**
   A till of another history that sends below the tip, as one restored from a backup does that has written
   since: the server stores nothing, and the till marks all it has that is no longer than what the server
   holds. What it has marked is on the server exactly when the two histories agree that far.
   */
  lemma RestoredTillMarksWhatIsNotStored<P>(d: Digest<P>, w: World<P>, first: nat, upTo: nat)
    requires BothSound(d, w) && first < upTo <= |w.log| && upTo <= |w.server.stored|
    requires upTo - first <= MAX_BATCH && !w.server.record.revoked
    requires w.acked <= |w.server.stored|
    ensures var after, k := Sent(d, w, first, upTo, true, false), Min(|w.server.stored|, |w.log|);
            && after == w.(acked := k)
            && (MarkedAreStored(after) <==> w.log[..k] == w.server.stored[..k])
  {
    var k := Min(|w.server.stored|, |w.log|);
    BelowTheTip(d, w, first, upTo, true);
    ChainedEnd(d, w.server.stored, GENESIS);
    ChainedPrefix(d, w.log, GENESIS, upTo);
    MiddleChained(d, w.log, first, upTo);
    NoAnswerTripsTheTest(d, w.server, w.log[first..upTo], TipAt(w.log, first), true);
    assert w.log[..k] <= w.server.stored <==> w.log[..k] == w.server.stored[..k];
  }

  /** The two logs differ at some place that both have. */
  ghost predicate Diverged<P>(w: World<P>)
  {
    exists k :: 0 <= k < |w.log| && k < |w.server.stored| && w.log[k] != w.server.stored[k]
  }

  lemma WriteKeepsDiverged<P>(d: Digest<P>, w: World<P>, header: EventHeader, payload: P)
    requires BothSound(d, w) && Diverged(w)
    ensures BothSound(d, Written(d, w, header, payload)) && Diverged(Written(d, w, header, payload))
    ensures Written(d, w, header, payload).server == w.server
  {
    var after := Written(d, w, header, payload);
    if after != w {
      var e := after.log[|w.log|];
      assert after.log == w.log + [e];
      assert Chained(d, [e], End(w.log, GENESIS));
      ChainedConcat(d, w.log, [e], GENESIS);
      var k :| 0 <= k < |w.log| && k < |w.server.stored| && w.log[k] != w.server.stored[k];
      assert after.log[k] == w.log[k];
    }
  }

  lemma DivergedSendAddsNothing<P(!new)>(
    d: Digest<P>, w: World<P>, first: nat, upTo: nat, dbOk: bool, replyLost: bool)
    requires BothSound(d, w) && Diverged(w)
    ensures var after := Sent(d, w, first, upTo, dbOk, replyLost);
            Broken(d) || (after == w.(acked := after.acked) && after.acked <= |w.log|)
  {
    if first < upTo <= |w.log| && Push(d, w.server, w.log[first..upTo], dbOk).Ok? {
      var n := |w.server.stored|;
      ForkIsRefusedExactly(d, w.server.stored, w.log, w.server.record.deviceId, first, upTo);
      if upTo <= n {
        BelowTheTip(d, w, first, upTo, dbOk);
      }
    } else if first == upTo <= |w.log| {
      assert w.log[first..upTo] == [];
    }
  }

  /**
   Once the histories differ, nothing the till does changes what the server holds, over any run of writes,
   sends, failures and retries, unless the digest has been broken.
   */
  lemma {:induction false} DivergedRunsAddNothing<P(!new)>(d: Digest<P>, w: World<P>, steps: seq<Step<P>>)
    requires BothSound(d, w) && Diverged(w)
    ensures Broken(d) || Run(d, w, steps).server == w.server
    decreases |steps|
  {
    if steps != [] && !Broken(d) {
      var next := Next(d, w, steps[0]);
      match steps[0] {
        case Write(header, payload) => WriteKeepsDiverged(d, w, header, payload);
        case Send(first, upTo, dbOk, replyLost) => DivergedSendAddsNothing(d, w, first, upTo, dbOk, replyLost);
      }
      DivergedRunsAddNothing(d, next, steps[1..]);
    }
  }
}
