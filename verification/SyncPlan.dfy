/** The server's decision about a pushed batch. */
module SyncPlan {
  import opened Base
  import opened EventLog

  datatype BatchPlan = BatchPlan(alreadyStored: nat, toInsert: nat, resultingTip: ChainTip)

  datatype SyncError =
    | Chain(error: EventError)
    | Gap(tip: U64, batchStartsAt: U64)
    | Forked(deviceSeq: U64, serverHash: EventHash, deviceHash: EventHash)
    | WrongDevice(owner: Uuid, other: Uuid)

  /** The device named by the first event that is not from `device`. */
  function FirstForeign<P>(events: seq<Envelope<P>>, device: Uuid): Option<Uuid>
  {
    if events == [] then None
    else if events[0].header.deviceId != device then Some(events[0].header.deviceId)
    else FirstForeign(events[1..], device)
  }

  lemma {:induction false} NoForeign<P>(events: seq<Envelope<P>>, device: Uuid)
    ensures FirstForeign(events, device).None? <==> OneDevice(events, device)
  {
    if events != [] {
      NoForeign(events[1..], device);
      assert forall i :: 0 < i < |events| ==> events[i] == events[1..][i - 1];
    }
  }

  ghost predicate OneDevice<P>(events: seq<Envelope<P>>, device: Uuid)
  {
    forall i :: 0 <= i < |events| ==> events[i].header.deviceId == device
  }

  /** How many leading events the server has already seen, judged by sequence number alone. */
  function Overlap(tip: U64, first: U64): nat
  {
    Max(0, SaturatingNext(tip) - first)
  }

  function PlanBatch<P>(d: Digest<P>, events: seq<Envelope<P>>, tip: ChainTip, device: Uuid)
    : Result<BatchPlan, SyncError>
  {
    if events == [] then
      Ok(BatchPlan(0, 0, tip))
    else
      var foreign := FirstForeign(events, device);
      var first := events[0].deviceSeq;
      if foreign.Some? then
        Err(WrongDevice(device, foreign.value))
      else if first > SaturatingNext(tip.deviceSeq) then
        Err(Gap(tip.deviceSeq, first))
      else
        var alreadyStored := Min(Overlap(tip.deviceSeq, first), |events|);
        var unseen := events[alreadyStored..];
        if unseen == [] then
          Ok(BatchPlan(alreadyStored, 0, tip))
        else if alreadyStored > 0 && events[alreadyStored - 1].hash != tip.hash then
          Err(Forked(events[alreadyStored - 1].deviceSeq, tip.hash, events[alreadyStored - 1].hash))
        else
          match VerifyChain(d, unseen, tip)
          case Err(error) => Err(Chain(error))
          case Ok(resulting) => Ok(BatchPlan(alreadyStored, |unseen|, resulting))
  }

  /** What the server's log becomes once a plan is committed. */
  function Commit<P>(stored: seq<Envelope<P>>, events: seq<Envelope<P>>, plan: BatchPlan): seq<Envelope<P>>
    requires plan.alreadyStored + plan.toInsert <= |events|
  {
    stored + events[plan.alreadyStored..plan.alreadyStored + plan.toInsert]
  }

  /** A server log that can be trusted: it verifies from genesis and names one device. */
  ghost predicate Sound<P>(d: Digest<P>, stored: seq<Envelope<P>>, device: Uuid)
  {
    Chained(d, stored, GENESIS) && OneDevice(stored, device)
  }

  /** A plan's two counts split the batch, and nothing past the tip is ever skipped. */
  lemma PlanShape<P>(d: Digest<P>, events: seq<Envelope<P>>, tip: ChainTip, device: Uuid)
    requires PlanBatch(d, events, tip, device).Ok?
    ensures var plan := PlanBatch(d, events, tip, device).value;
            && plan.alreadyStored + plan.toInsert == |events|
            && (plan.toInsert == 0 ==> plan.resultingTip == tip)
            && (plan.toInsert > 0 ==>
                  && OneDevice(events, device)
                  && Chained(d, events[plan.alreadyStored..], tip)
                  && plan.resultingTip == End(events[plan.alreadyStored..], tip)
                  && (plan.alreadyStored > 0 ==> events[plan.alreadyStored - 1].hash == tip.hash)
                  && plan.alreadyStored == Overlap(tip.deviceSeq, events[0].deviceSeq)
                  && events[0].deviceSeq <= SaturatingNext(tip.deviceSeq))
  {
    if events != [] {
      var plan := PlanBatch(d, events, tip, device).value;
      NoForeign(events, device);
      VerifiedMeansChained(d, events[plan.alreadyStored..], tip);
    }
  }

  /**
   Whatever arrives, what the server keeps stays trustworthy: the stored log with an accepted batch's
   unseen part verifies from genesis to the planned tip, under one device.
   */
  lemma AcceptedBatchStaysSound<P>(
    d: Digest<P>, stored: seq<Envelope<P>>, events: seq<Envelope<P>>, device: Uuid)
    requires Sound(d, stored, device)
    requires PlanBatch(d, events, End(stored, GENESIS), device).Ok?
    ensures var plan := PlanBatch(d, events, End(stored, GENESIS), device).value;
            && plan.alreadyStored + plan.toInsert == |events|
            && Sound(d, Commit(stored, events, plan), device)
            && End(Commit(stored, events, plan), GENESIS) == plan.resultingTip
  {
    var tip := End(stored, GENESIS);
    var plan := PlanBatch(d, events, tip, device).value;
    PlanShape(d, events, tip, device);
    var unseen := events[plan.alreadyStored..plan.alreadyStored + plan.toInsert];
    if plan.toInsert == 0 {
      assert Commit(stored, events, plan) == stored;
    } else {
      assert unseen == events[plan.alreadyStored..];
      ChainedConcat(d, stored, unseen, GENESIS);
    }
  }

  lemma {:induction false} FirstForeignMeans<P>(events: seq<Envelope<P>>, device: Uuid)
    requires FirstForeign(events, device).Some?
    ensures exists k :: 0 <= k < |events| && OneDevice(events[..k], device) && events[k].header.deviceId != device
                        && FirstForeign(events, device) == Some(events[k].header.deviceId)
  {
    if events[0].header.deviceId == device {
      FirstForeignMeans(events[1..], device);
      var k :| 0 <= k < |events[1..]| && OneDevice(events[1..][..k], device)
               && events[1..][k].header.deviceId != device
               && FirstForeign(events[1..], device) == Some(events[1..][k].header.deviceId);
      assert forall i :: 0 < i <= k ==> events[i] == events[1..][..k][i - 1];
      assert events[k + 1] == events[1..][k];
      assert OneDevice(events[..k + 1], device);
    } else {
      assert OneDevice(events[..0], device);
    }
  }

  /** Why a batch is refused: who else is in it, how far it starts past the tip, or where the histories part. */
  lemma RefusedByName<P>(d: Digest<P>, events: seq<Envelope<P>>, tip: ChainTip, device: Uuid)
    requires PlanBatch(d, events, tip, device).Err?
    ensures match PlanBatch(d, events, tip, device).error
            case WrongDevice(owner, other) =>
              && owner == device
              && exists k :: 0 <= k < |events| && OneDevice(events[..k], device) && events[k].header.deviceId == other
                             && other != device
            case Gap(at, starts) =>
              && OneDevice(events, device) && events != []
              && at == tip.deviceSeq && starts == events[0].deviceSeq && starts > SaturatingNext(at)
            case Forked(seqno, server, other) =>
              && OneDevice(events, device) && server == tip.hash && other != server && events != []
              && var k := SaturatingNext(tip.deviceSeq) - events[0].deviceSeq;
              0 < k < |events| && events[k - 1].deviceSeq == seqno && events[k - 1].hash == other
            case Chain(error) =>
              && OneDevice(events, device)
              && exists k :: 0 <= k < |events| && VerifyChain(d, events[k..], tip) == Err(error)
  {
    NoForeign(events, device);
    if FirstForeign(events, device).Some? {
      FirstForeignMeans(events, device);
    } else {
      var k := Min(Overlap(tip.deviceSeq, events[0].deviceSeq), |events|);
      assert PlanBatch(d, events, tip, device).error.Chain? ==> 0 <= k < |events|;
    }
  }

  // ---------- an honest device ----------

  /** The tip of the first `n` events of a log. */
  function TipAt<P>(log: seq<Envelope<P>>, n: nat): ChainTip
    requires n <= |log|
  {
    End(log[..n], GENESIS)
  }

  lemma HonestTip<P>(d: Digest<P>, log: seq<Envelope<P>>, device: Uuid, n: nat)
    requires Sound(d, log, device) && n <= |log|
    ensures TipAt(log, n).deviceSeq == n
  {
    ChainedPrefix(d, log, GENESIS, n);
    ChainedEnd(d, log[..n], GENESIS);
  }

  lemma SliceFacts<P>(d: Digest<P>, log: seq<Envelope<P>>, device: Uuid, i: nat, j: nat)
    requires Sound(d, log, device) && i < j <= |log|
    ensures OneDevice(log[i..j], device) && log[i..j][0].deviceSeq == i + 1
  {
    ChainedAt(d, log, GENESIS, i);
  }

  lemma MiddleChained<P>(d: Digest<P>, log: seq<Envelope<P>>, n: nat, j: nat)
    requires Chained(d, log, GENESIS) && n < j <= |log|
    ensures Chained(d, log[n..j], TipAt(log, n)) && End(log[n..j], TipAt(log, n)) == TipAt(log, j)
  {
    ChainedPrefix(d, log, GENESIS, j);
    ChainedSuffix(d, log[..j], GENESIS, n);
    assert log[..j][..n] == log[..n] && log[..j][n..] == log[n..j];
    assert log[n..j][j - n - 1] == log[j - 1] == log[..j][j - 1];
  }

  /** The accepting path, by its four tests. */
  lemma FreshPartAccepted<P>(d: Digest<P>, batch: seq<Envelope<P>>, tip: ChainTip, device: Uuid, k: nat)
    requires k < |batch| && OneDevice(batch, device)
    requires batch[0].deviceSeq <= SaturatingNext(tip.deviceSeq)
    requires k == Overlap(tip.deviceSeq, batch[0].deviceSeq)
    requires k > 0 ==> batch[k - 1].hash == tip.hash
    requires Chained(d, batch[k..], tip)
    ensures PlanBatch(d, batch, tip, device) == Ok(BatchPlan(k, |batch| - k, End(batch[k..], tip)))
  {
    NoForeign(batch, device);
    VerifiedMeansChained(d, batch[k..], tip);
  }

  /** With a chained rest, `k` events are skipped and the rest taken exactly when these three things are right. */
  lemma PlannedExactly<P>(
    d: Digest<P>, batch: seq<Envelope<P>>, tip: ChainTip, device: Uuid, k: nat, rest: seq<Envelope<P>>, end: ChainTip)
    requires k < |batch| && batch[k..] == rest && Chained(d, rest, tip) && End(rest, tip) == end
    requires tip.deviceSeq < U64_MAX
    ensures PlanBatch(d, batch, tip, device) == Ok(BatchPlan(k, |rest|, end))
       <==> && OneDevice(batch, device)
            && batch[0].deviceSeq + k == tip.deviceSeq + 1
            && (k > 0 ==> batch[k - 1].hash == tip.hash)
  {
    if OneDevice(batch, device) && batch[0].deviceSeq + k == tip.deviceSeq + 1 {
      if k > 0 ==> batch[k - 1].hash == tip.hash {
        FreshPartAccepted(d, batch, tip, device, k);
      }
    }
    if PlanBatch(d, batch, tip, device) == Ok(BatchPlan(k, |rest|, end)) {
      PlanShape(d, batch, tip, device);
    }
  }

  /**
   The no-op path, and all it looks at: a batch that claims this device throughout and a first place from
   which it ends at or below the tip is answered as already stored, whatever else is in it.
   */
  lemma NoopExactlyWhen<P>(d: Digest<P>, batch: seq<Envelope<P>>, tip: ChainTip, device: Uuid)
    requires batch != []
    ensures PlanBatch(d, batch, tip, device) == Ok(BatchPlan(|batch|, 0, tip))
       <==> OneDevice(batch, device) && batch[0].deviceSeq + |batch| <= SaturatingNext(tip.deviceSeq)
  {
    NoForeign(batch, device);
    assert batch[|batch|..] == [];
  }

  /** At the end of the sequence space a batch that ends at the tip has one event left over. */
  lemma AtTheEndNothingFollows<P>(d: Digest<P>, batch: seq<Envelope<P>>, tip: ChainTip, device: Uuid)
    requires batch != [] && tip.deviceSeq == U64_MAX
    requires batch[0].deviceSeq + |batch| == U64_MAX + 1
    ensures PlanBatch(d, batch, tip, device).Err?
  {
    var unseen := batch[|batch| - 1..];
    assert Min(Overlap(tip.deviceSeq, batch[0].deviceSeq), |batch|) == |batch| - 1;
    assert Fault(d, unseen[0].header.deviceId, tip, unseen[0]).Some?;
  }

  /**
   A slice of the device's own log is refused exactly when it starts past the next expected event —
   or at the very end of the sequence space, where no next event exists. Otherwise the plan skips
   exactly what the server has and takes exactly the rest.
   */
  lemma HonestSlicePlan<P>(d: Digest<P>, log: seq<Envelope<P>>, device: Uuid, n: nat, i: nat, j: nat)
    requires Sound(d, log, device)
    requires n <= |log| && i < j <= |log|
    ensures var r := PlanBatch(d, log[i..j], TipAt(log, n), device);
            && (i > n ==> r == Err(Gap(TipAt(log, n).deviceSeq, log[i].deviceSeq)))
            && (i <= n && !(n == U64_MAX && j == n) ==>
                  r == Ok(BatchPlan(Min(n, j) - i, j - Min(n, j), TipAt(log, Max(n, j)))))
            && (i <= n && n == U64_MAX && j == n ==> r.Err?)
  {
    var batch, tip := log[i..j], TipAt(log, n);
    HonestTip(d, log, device, n);
    SliceFacts(d, log, device, i, j);
    NoForeign(batch, device);
    if i <= n {
      if n < j {
        SlicePastTheTip(d, log, device, n, i, j);
      } else if n == U64_MAX && j == n {
        AtTheEndNothingFollows(d, batch, tip, device);
      } else {
        NoopExactlyWhen(d, batch, tip, device);
      }
    }
  }

  lemma SlicePastTheTip<P>(d: Digest<P>, log: seq<Envelope<P>>, device: Uuid, n: nat, i: nat, j: nat)
    requires Sound(d, log, device) && i <= n < j <= |log|
    ensures PlanBatch(d, log[i..j], TipAt(log, n), device) == Ok(BatchPlan(n - i, j - n, TipAt(log, j)))
  {
    var batch, tip := log[i..j], TipAt(log, n);
    HonestTip(d, log, device, n);
    SliceFacts(d, log, device, i, j);
    MiddleChained(d, log, n, j);
    ChainedAt(d, log, GENESIS, j - 1);
    assert batch[n - i..] == log[n..j];
    assert n > i ==> batch[n - i - 1] == log[n - 1] == log[..n][n - 1];
    PlannedExactly(d, batch, tip, device, n - i, log[n..j], TipAt(log, j));
  }

  // ---------- retries ----------

  /**
   Sending an accepted batch again is a no-op that skips all of it, whoever sent it — exactly as long
   as the batch did not use up the last sequence number.
   */
  lemma RetryIsANoop<P>(d: Digest<P>, events: seq<Envelope<P>>, tip: ChainTip, device: Uuid)
    requires PlanBatch(d, events, tip, device).Ok?
    requires PlanBatch(d, events, tip, device).value.toInsert > 0
    ensures var resulting := PlanBatch(d, events, tip, device).value.resultingTip;
            PlanBatch(d, events, resulting, device) == Ok(BatchPlan(|events|, 0, resulting))
            <==> resulting.deviceSeq < U64_MAX
  {
    var plan := PlanBatch(d, events, tip, device).value;
    PlanShape(d, events, tip, device);
    var unseen := events[plan.alreadyStored..];
    ChainedEnd(d, unseen, tip);
    ChainedAt(d, unseen, tip, 0);
    assert plan.resultingTip.deviceSeq == tip.deviceSeq + plan.toInsert;
    assert tip.deviceSeq < U64_MAX;
    if plan.resultingTip.deviceSeq < U64_MAX {
      NoopExactlyWhen(d, events, plan.resultingTip, device);
    } else {
      AtTheEndNothingFollows(d, events, plan.resultingTip, device);
    }
  }

  /** A no-op plan changes nothing, so planning the same batch again gives the same plan. */
  lemma NoopRepeats<P>(d: Digest<P>, events: seq<Envelope<P>>, tip: ChainTip, device: Uuid)
    requires PlanBatch(d, events, tip, device).Ok?
    requires PlanBatch(d, events, tip, device).value.toInsert == 0
    ensures PlanBatch(d, events, PlanBatch(d, events, tip, device).value.resultingTip, device)
         == PlanBatch(d, events, tip, device)
  {
    PlanShape(d, events, tip, device);
  }

  // ---------- forks ----------

  /**
   A device whose log is not a continuation of what the server holds cannot add to it. If any slice of
   a whole, verifying device log is accepted with something to insert, then the server's log is
   exactly that log's prefix, or the digest has been broken. A restored backup that has moved on is
   therefore refused once it reaches past the tip. That the log verifies matters: what is sent below
   the tip is not itself checked, as the lemmas after these show.
   */
  lemma ForkIsNeverExtended<P(!new)>(
    d: Digest<P>, stored: seq<Envelope<P>>, log: seq<Envelope<P>>, device: Uuid, i: nat, j: nat)
    requires Sound(d, stored, device) && Sound(d, log, device)
    requires i <= j <= |log|
    requires PlanBatch(d, log[i..j], End(stored, GENESIS), device).Ok?
    requires PlanBatch(d, log[i..j], End(stored, GENESIS), device).value.toInsert > 0
    ensures (|stored| <= |log| && stored == log[..|stored|]) || Broken(d)
  {
    var n := |stored|;
    ChainedEnd(d, stored, GENESIS);
    AcceptedMeetsTheTip(d, log, End(stored, GENESIS), device, i, j);
    ChainedPrefix(d, log, GENESIS, n);
    TipDeterminesHistory(d, stored, log[..n]);
  }

  /** Where an accepted slice starts to be new, the device's log had the server's tip. */
  lemma AcceptedMeetsTheTip<P>(
    d: Digest<P>, log: seq<Envelope<P>>, tip: ChainTip, device: Uuid, i: nat, j: nat)
    requires Sound(d, log, device) && i <= j <= |log|
    requires PlanBatch(d, log[i..j], tip, device).Ok?
    requires PlanBatch(d, log[i..j], tip, device).value.toInsert > 0
    requires tip.deviceSeq == 0 ==> tip == GENESIS
    ensures tip.deviceSeq < |log| && TipAt(log, tip.deviceSeq) == tip
  {
    var batch := log[i..j];
    PlanShape(d, batch, tip, device);
    var k := PlanBatch(d, batch, tip, device).value.alreadyStored;
    assert batch[k..] == log[i + k..j];
    TakenUpAt(d, log, tip, i + k, j);
  }

  /** A chained piece of a log that also continues a tip was taken up at that tip. */
  lemma TakenUpAt<P>(d: Digest<P>, log: seq<Envelope<P>>, tip: ChainTip, m: nat, j: nat)
    requires Chained(d, log, GENESIS) && m < j <= |log| && Chained(d, log[m..j], tip)
    requires tip.deviceSeq == 0 ==> tip == GENESIS
    ensures m == tip.deviceSeq && TipAt(log, m) == tip
  {
    ChainedAt(d, log[m..j], tip, 0);
    ChainedAt(d, log, GENESIS, m);
    if m > 0 {
      ChainedAt(d, log, GENESIS, m - 1);
      assert log[..m][m - 1] == log[m - 1];
    }
  }

  /**
   Exactly which slices of a device's verifying log a server takes that holds any verifying log, its prefix
   or not: those that leave no gap and either end at or below the tip, or extend the very log the server
   holds. So a fork is refused exactly when it reaches past the tip, or the digest has been broken.
   */
  lemma ForkIsRefusedExactly<P(!new)>(
    d: Digest<P>, stored: seq<Envelope<P>>, log: seq<Envelope<P>>, device: Uuid, i: nat, j: nat)
    requires Sound(d, stored, device) && Sound(d, log, device) && i < j <= |log|
    ensures var n := |stored|;
            || Broken(d)
            || (PlanBatch(d, log[i..j], End(stored, GENESIS), device).Ok?
                <==> i <= n && if j <= n then j < U64_MAX else stored <= log)
  {
    var n, batch, tip := |stored|, log[i..j], End(stored, GENESIS);
    ChainedEnd(d, stored, GENESIS);
    SliceFacts(d, log, device, i, j);
    NoForeign(batch, device);
    if j <= n {
      if j < U64_MAX {
        NoopExactlyWhen(d, batch, tip, device);
      } else {
        AtTheEndNothingFollows(d, batch, tip, device);
      }
    } else if i <= n {
      PastTheTipExactly(d, stored, log, device, i, j);
    }
  }

  lemma PastTheTipExactly<P(!new)>(
    d: Digest<P>, stored: seq<Envelope<P>>, log: seq<Envelope<P>>, device: Uuid, i: nat, j: nat)
    requires Sound(d, stored, device) && Sound(d, log, device) && i <= |stored| < j <= |log|
    ensures Broken(d) || (PlanBatch(d, log[i..j], End(stored, GENESIS), device).Ok? <==> stored <= log)
  {
    var n, r := |stored|, PlanBatch(d, log[i..j], End(stored, GENESIS), device);
    if stored <= log {
      SlicePastTheTip(d, log, device, n, i, j);
    }
    if r.Ok? {
      SomethingIsNew(d, stored, log, device, i, j);
      ForkIsNeverExtended(d, stored, log, device, i, j);
    }
  }

  lemma SomethingIsNew<P>(
    d: Digest<P>, stored: seq<Envelope<P>>, log: seq<Envelope<P>>, device: Uuid, i: nat, j: nat)
    requires Sound(d, stored, device) && Sound(d, log, device) && i <= |stored| < j <= |log|
    requires PlanBatch(d, log[i..j], End(stored, GENESIS), device).Ok?
    ensures PlanBatch(d, log[i..j], End(stored, GENESIS), device).value.toInsert > 0
  {
    ChainedEnd(d, stored, GENESIS);
    SliceFacts(d, log, device, i, j);
    PlanShape(d, log[i..j], End(stored, GENESIS), device);
    NoopExactlyWhen(d, log[i..j], End(stored, GENESIS), device);
  }

  // ---------- what is read of the overlap ----------

  /** Alike in everything the plan reads of them: of the skipped part the devices, the first place and the last hash. */
  predicate ReadAlike<P(==)>(a: seq<Envelope<P>>, b: seq<Envelope<P>>, tip: ChainTip)
  {
    && |a| == |b|
    && (forall i :: 0 <= i < |a| ==> a[i].header.deviceId == b[i].header.deviceId)
    && (a != [] ==> a[0].deviceSeq == b[0].deviceSeq && AlikeFrom(a, b, Skipped(a, tip)))
  }

  predicate AlikeFrom<P(==)>(a: seq<Envelope<P>>, b: seq<Envelope<P>>, k: nat)
    requires |a| == |b| && k <= |a|
  {
    a[k..] == b[k..] && (0 < k < |a| ==> a[k - 1].hash == b[k - 1].hash)
  }

  function Skipped<P>(events: seq<Envelope<P>>, tip: ChainTip): nat
    requires events != []
  {
    Min(Overlap(tip.deviceSeq, events[0].deviceSeq), |events|)
  }

  lemma {:induction false} ForeignAlike<P>(a: seq<Envelope<P>>, b: seq<Envelope<P>>, device: Uuid)
    requires |a| == |b| && forall i :: 0 <= i < |a| ==> a[i].header.deviceId == b[i].header.deviceId
    ensures FirstForeign(a, device) == FirstForeign(b, device)
  {
    if a != [] {
      ForeignAlike(a[1..], b[1..], device);
    }
  }

  /**
   Nothing else of the skipped part is read: batches alike in this are planned alike. Only the place named
   in a fork's error can differ.
   */
  lemma OnlyThisIsRead<P>(d: Digest<P>, a: seq<Envelope<P>>, b: seq<Envelope<P>>, tip: ChainTip, device: Uuid)
    requires ReadAlike(a, b, tip)
    ensures var p, q := PlanBatch(d, a, tip, device), PlanBatch(d, b, tip, device);
            || p == q
            || (p.Err? && q.Err? && p.error.Forked? && q.error.Forked?
                && q.error == p.error.(deviceSeq := q.error.deviceSeq))
  {
    ForeignAlike(a, b, device);
  }

  /**
   An event of the overlap edited on its way: the plan is the one for the true slice exactly when the edit
   leaves alone what is read at that place. The events strictly inside are held to their device alone.
   */
  lemma EditBelowTheTip<P>(
    d: Digest<P>, log: seq<Envelope<P>>, device: Uuid, n: nat, i: nat, j: nat, k: nat, edited: Envelope<P>)
    requires Sound(d, log, device) && i <= k < n < j <= |log|
    ensures PlanBatch(d, log[i..j][k - i := edited], TipAt(log, n), device)
            == Ok(BatchPlan(n - i, j - n, TipAt(log, j)))
       <==> && edited.header.deviceId == device
            && (k == i ==> edited.deviceSeq == log[i].deviceSeq)
            && (k == n - 1 ==> edited.hash == log[n - 1].hash)
  {
    var batch, tip := log[i..j][k - i := edited], TipAt(log, n);
    EditedSlice(d, log, device, n, i, j, k, edited);
    MiddleChained(d, log, n, j);
    ChainedAt(d, log, GENESIS, j - 1);
    PlannedExactly(d, batch, tip, device, n - i, log[n..j], TipAt(log, j));
  }

  lemma EditedSlice<P>(
    d: Digest<P>, log: seq<Envelope<P>>, device: Uuid, n: nat, i: nat, j: nat, k: nat, edited: Envelope<P>)
    requires Sound(d, log, device) && i <= k < n < j <= |log|
    ensures var batch := log[i..j][k - i := edited];
            && batch[n - i..] == log[n..j]
            && (OneDevice(batch, device) <==> edited.header.deviceId == device)
            && batch[0].deviceSeq == (if k == i then edited.deviceSeq else i + 1)
            && batch[n - i - 1].hash == (if k == n - 1 then edited.hash else log[n - 1].hash)
    ensures TipAt(log, n).deviceSeq == n && TipAt(log, n).hash == log[n - 1].hash && log[i].deviceSeq == i + 1
  {
    var slice := log[i..j];
    var batch := slice[k - i := edited];
    HonestTip(d, log, device, n);
    SliceFacts(d, log, device, i, j);
    assert log[..n][n - 1] == log[n - 1] == slice[n - 1 - i];
    assert batch[k - i] == edited && forall m :: 0 <= m < |batch| && m != k - i ==> batch[m] == slice[m];
  }

  ghost predicate VerifiesByItself<P>(d: Digest<P>, events: seq<Envelope<P>>)
  {
    exists start :: Chained(d, events, start)
  }

  /**
   What is skipped of an accepted batch is what the server holds exactly when it verifies by itself, or the
   digest has been broken: the check the plan leaves out.
   */
  lemma SkippedIsTheStored<P(!new)>(d: Digest<P>, stored: seq<Envelope<P>>, events: seq<Envelope<P>>, device: Uuid)
    requires Sound(d, stored, device) && PlanBatch(d, events, End(stored, GENESIS), device).Ok?
    requires PlanBatch(d, events, End(stored, GENESIS), device).value.toInsert > 0
    ensures var k := PlanBatch(d, events, End(stored, GENESIS), device).value.alreadyStored;
            || Broken(d)
            || (VerifiesByItself(d, events[..k]) <==> EndsWith(stored, events[..k]))
  {
    var tip := End(stored, GENESIS);
    var k := PlanBatch(d, events, tip, device).value.alreadyStored;
    PlanShape(d, events, tip, device);
    if EndsWith(stored, events[..k]) {
      ChainedSuffix(d, stored, GENESIS, |stored| - k);
    }
    if VerifiesByItself(d, events[..k]) && k > 0 {
      var start :| Chained(d, events[..k], start);
      VerifiedSkipIsStored(d, stored, events[..k], start);
    }
  }

  predicate EndsWith<P(==)>(whole: seq<P>, tail: seq<P>)
  {
    |tail| <= |whole| && whole[|whole| - |tail|..] == tail
  }

  lemma VerifiedSkipIsStored<P(!new)>(
    d: Digest<P>, stored: seq<Envelope<P>>, skipped: seq<Envelope<P>>, start: ChainTip)
    requires Chained(d, stored, GENESIS) && Chained(d, skipped, start) && skipped != []
    requires skipped[0].deviceSeq + |skipped| == SaturatingNext(End(stored, GENESIS).deviceSeq)
    requires skipped[|skipped| - 1].hash == End(stored, GENESIS).hash
    ensures EndsWith(stored, skipped) || Broken(d)
  {
    var n, k := |stored|, |skipped|;
    ChainedEnd(d, stored, GENESIS);
    ChainedAt(d, skipped, start, 0);
    assert k <= n;
    ChainedSuffix(d, stored, GENESIS, n - k);
    assert stored[n - k..][k - 1] == stored[n - 1];
    SameEndSameRun(d, stored[n - k..], skipped, End(stored[..n - k], GENESIS), start);
  }
}
