/**
 The hash-chained log of one device.

 `P` stands for an event's kind and canonical payload together. The digest is a parameter: any
 function of the hashed fields, `None` where the payload has no canonical form. Nothing is assumed
 about it; where a result needs the digest to tell two inputs apart, the alternative conclusion is a
 pair of different inputs that it maps to one hash.
 */
module EventLog {
  import opened Base

  type EventHash = nat

  const GENESIS_HASH: EventHash := 0

  datatype EventHeader = EventHeader(
    eventId: Uuid,
    tenantId: Uuid,
    outletId: Uuid,
    deviceId: Uuid,
    occurredAt: I64)

  /** Everything the digest covers: all of an event but the digest itself. */
  datatype HashInput<+P> = HashInput(header: EventHeader, deviceSeq: U64, payload: P, prevHash: EventHash)

  type Digest<!P> = HashInput<P> -> Option<EventHash>

  datatype Envelope<+P> = Envelope(
    header: EventHeader,
    deviceSeq: U64,
    payload: P,
    prevHash: EventHash,
    hash: EventHash)
  {
    function Input(): HashInput<P> { HashInput(header, deviceSeq, payload, prevHash) }

    function Tip(): ChainTip { ChainTip(deviceSeq, hash) }
  }

  datatype ChainTip = ChainTip(deviceSeq: U64, hash: EventHash)

  const GENESIS: ChainTip := ChainTip(0, GENESIS_HASH)

  datatype EventError =
    | NotCanonical
    | HashMismatch(eventId: Uuid, stored: EventHash, computed: EventHash)
    | BrokenLink(eventId: Uuid, claimed: EventHash, actual: EventHash)
    | SequenceBreak(previous: U64, expected: U64, found: U64)
    | DeviceMismatch(owner: Uuid, other: Uuid)
    | NotGenesis(first: U64, prevHash: EventHash)

  /** Two different inputs with one digest. */
  ghost predicate Collides<P>(d: Digest<P>, x: HashInput<P>, y: HashInput<P>)
  {
    x != y && d(x).Some? && d(x) == d(y)
  }

  ghost predicate Broken<P(!new)>(d: Digest<P>)
  {
    exists x, y :: Collides(d, x, y)
  }

  // ---------- sealing ----------

  function Seal<P>(d: Digest<P>, header: EventHeader, deviceSeq: U64, payload: P, prev: EventHash)
    : Result<Envelope<P>, EventError>
  {
    match d(HashInput(header, deviceSeq, payload, prev))
    case None => Err(NotCanonical)
    case Some(hash) => Ok(Envelope(header, deviceSeq, payload, prev, hash))
  }

  function Verify<P>(d: Digest<P>, e: Envelope<P>): Result<(), EventError>
  {
    match d(e.Input())
    case None => Err(NotCanonical)
    case Some(computed) =>
      if computed == e.hash then Ok(()) else Err(HashMismatch(e.header.eventId, e.hash, computed))
  }

  /** What `EventChain::append` returns from a chain ending at `tip`. */
  function Appended<P>(d: Digest<P>, deviceId: Uuid, tip: ChainTip, header: EventHeader, payload: P)
    : (r: Result<Envelope<P>, EventError>)
  {
    if header.deviceId != deviceId then
      Err(DeviceMismatch(deviceId, header.deviceId))
    else if tip.deviceSeq == U64_MAX then
      Err(SequenceBreak(tip.deviceSeq, tip.deviceSeq, tip.deviceSeq))
    else
      Seal(d, header, tip.deviceSeq + 1, payload, tip.hash)
  }

  /** The append-only chain of one device. It owns the tip, not the events. */
  class EventChain<P(!new)> {
    const digest: Digest<P>
    const deviceId: Uuid
    var tip: ChainTip

    constructor Resume(digest: Digest<P>, deviceId: Uuid, tip: ChainTip)
      ensures this.digest == digest && this.deviceId == deviceId && this.tip == tip
    {
      this.digest, this.deviceId, this.tip := digest, deviceId, tip;
    }

    /** Seal `payload` onto the end of the chain; on an error the tip stays where it was. */
    method Append(header: EventHeader, payload: P) returns (r: Result<Envelope<P>, EventError>)
      modifies this
      ensures r == Appended(digest, deviceId, old(tip), header, payload)
      ensures r.Ok? ==>
                Chained(digest, [r.value], old(tip)) && tip == End([r.value], old(tip))
                && r.value.header == header && r.value.payload == payload
      ensures r.Err? ==> tip == old(tip)
    {
      if header.deviceId != deviceId {
        return Err(DeviceMismatch(deviceId, header.deviceId));
      }
      if tip.deviceSeq == U64_MAX {
        return Err(SequenceBreak(tip.deviceSeq, tip.deviceSeq, tip.deviceSeq));
      }
      var deviceSeq := tip.deviceSeq + 1;
      var event :- Seal(digest, header, deviceSeq, payload, tip.hash);
      tip := ChainTip(deviceSeq, event.hash);
      return Ok(event);
    }
  }

  // ---------- verifying ----------

  /** Where a run ends: its last event's place and digest. */
  function End<P>(events: seq<Envelope<P>>, start: ChainTip): ChainTip
  {
    if events == [] then start else events[|events| - 1].Tip()
  }

  /** `e` takes the place right after `tip`, names `device`, and still hashes to its seal. */
  predicate Follows<P>(d: Digest<P>, device: Uuid, tip: ChainTip, e: Envelope<P>)
  {
    && e.header.deviceId == device
    && e.deviceSeq == tip.deviceSeq + 1
    && e.prevHash == tip.hash
    && d(e.Input()) == Some(e.hash)
  }

  /** An unbroken chain, stated event by event. */
  ghost predicate Chained<P>(d: Digest<P>, events: seq<Envelope<P>>, start: ChainTip)
  {
    forall i :: 0 <= i < |events| ==> FollowsAt(d, events, start, i)
  }

  predicate FollowsAt<P>(d: Digest<P>, events: seq<Envelope<P>>, start: ChainTip, i: nat)
    requires i < |events|
  {
    Follows(d, events[0].header.deviceId, End(events[..i], start), events[i])
  }

  /** What one turn of the verifying loop objects to. */
  function Fault<P>(d: Digest<P>, device: Uuid, tip: ChainTip, e: Envelope<P>): Option<EventError>
  {
    if e.header.deviceId != device then
      Some(DeviceMismatch(device, e.header.deviceId))
    else if tip.deviceSeq == U64_MAX then
      Some(SequenceBreak(tip.deviceSeq, tip.deviceSeq, e.deviceSeq))
    else if e.deviceSeq != tip.deviceSeq + 1 then
      Some(SequenceBreak(tip.deviceSeq, tip.deviceSeq + 1, e.deviceSeq))
    else if e.prevHash != tip.hash then
      Some(BrokenLink(e.header.eventId, e.prevHash, tip.hash))
    else
      match Verify(d, e)
      case Ok(_) => None
      case Err(error) => Some(error)
  }

  /** What each fault says, and what of. */
  lemma FaultSays<P>(d: Digest<P>, device: Uuid, tip: ChainTip, e: Envelope<P>)
    requires Fault(d, device, tip, e).Some?
    ensures match Fault(d, device, tip, e).value
            case DeviceMismatch(owner, other) => owner == device && other == e.header.deviceId && owner != other
            case SequenceBreak(previous, expected, found) =>
              && previous == tip.deviceSeq && found == e.deviceSeq && expected == SaturatingNext(previous)
              && (found != expected || previous == U64_MAX)
            case BrokenLink(eventId, claimed, actual) =>
              eventId == e.header.eventId && claimed == e.prevHash && actual == tip.hash && claimed != actual
            case NotCanonical => d(e.Input()) == None
            case HashMismatch(eventId, stored, computed) =>
              eventId == e.header.eventId && stored == e.hash && d(e.Input()) == Some(computed) && stored != computed
            case NotGenesis(_, _) => false
  {
  }

  /** `verify_chain` as a function: the walk from `tip`, stopping at the first fault. */
  function Walk<P>(d: Digest<P>, device: Uuid, events: seq<Envelope<P>>, tip: ChainTip)
    : Result<ChainTip, EventError>
  {
    if events == [] then Ok(tip)
    else
      match Fault(d, device, tip, events[0])
      case Some(error) => Err(error)
      case None => Walk(d, device, events[1..], events[0].Tip())
  }

  function VerifyChain<P>(d: Digest<P>, events: seq<Envelope<P>>, start: ChainTip)
    : Result<ChainTip, EventError>
  {
    if events == [] then Ok(start) else Walk(d, events[0].header.deviceId, events, start)
  }

  /**
   The verifying loop. It accepts exactly the chained runs and reports where they end; otherwise it
   reports the first event that does not follow a chained prefix.
   */
  method CheckChain<P>(d: Digest<P>, events: seq<Envelope<P>>, start: ChainTip)
    returns (r: Result<ChainTip, EventError>)
    ensures r.Ok? <==> Chained(d, events, start)
    ensures r.Ok? ==> r.value == End(events, start)
    ensures r.Err? ==>
              exists k :: 0 <= k < |events| && Chained(d, events[..k], start)
                && Fault(d, events[0].header.deviceId, End(events[..k], start), events[k]) == Some(r.error)
    ensures r == VerifyChain(d, events, start)
  {
    if events == [] {
      return Ok(start);
    }
    var device := events[0].header.deviceId;
    var tip := start;
    var i := 0;
    while i < |events|
      invariant 0 <= i <= |events|
      invariant tip == End(events[..i], start)
      invariant Chained(d, events[..i], start)
      invariant Walk(d, device, events, start) == Walk(d, device, events[i..], tip)
    {
      var e := events[i];
      var fault := Fault(d, device, tip, e);
      if fault.Some? {
        assert !FollowsAt(d, events, start, i);
        return Err(fault.value);
      }
      ChainedSnoc(d, events, start, i);
      assert events[i..][1..] == events[i + 1..];
      tip := e.Tip();
      i := i + 1;
    }
    assert events[..i] == events;
    return Ok(tip);
  }

  lemma ChainedSnoc<P>(d: Digest<P>, events: seq<Envelope<P>>, start: ChainTip, i: nat)
    requires i < |events| && Chained(d, events[..i], start)
    requires Follows(d, events[0].header.deviceId, End(events[..i], start), events[i])
    ensures Chained(d, events[..i + 1], start)
  {
    var longer := events[..i + 1];
    forall k | 0 <= k < |longer|
      ensures FollowsAt(d, longer, start, k)
    {
      assert longer[..k] == events[..k];
      if k < i {
        assert events[..i][..k] == events[..k];
        assert FollowsAt(d, events[..i], start, k);
      }
    }
  }

  /** `verify_chain` accepts exactly the chained runs, and reports where they end. */
  lemma {:induction false} VerifiedMeansChained<P>(d: Digest<P>, events: seq<Envelope<P>>, start: ChainTip)
    ensures VerifyChain(d, events, start).Ok? <==> Chained(d, events, start)
    ensures Chained(d, events, start) ==> VerifyChain(d, events, start) == Ok(End(events, start))
  {
    if events != [] {
      WalkMeansChained(d, events, start, 0);
      assert events[0..] == events && events[..0] == [];
    }
  }

  lemma {:induction false} WalkMeansChained<P>(d: Digest<P>, events: seq<Envelope<P>>, start: ChainTip, i: nat)
    requires i <= |events| && events != [] && Chained(d, events[..i], start)
    ensures var w := Walk(d, events[0].header.deviceId, events[i..], End(events[..i], start));
            (w.Ok? <==> Chained(d, events, start)) && (w.Ok? ==> w.value == End(events, start))
    decreases |events| - i
  {
    if i == |events| {
      assert events[..i] == events;
    } else {
      var device, tip := events[0].header.deviceId, End(events[..i], start);
      if Fault(d, device, tip, events[i]).None? {
        ChainedSnoc(d, events, start, i);
        assert events[i..][1..] == events[i + 1..];
        assert End(events[..i + 1], start) == events[i].Tip();
        WalkMeansChained(d, events, start, i + 1);
      } else {
        assert !FollowsAt(d, events, start, i);
      }
    }
  }

  function VerifyChainFromGenesis<P>(d: Digest<P>, events: seq<Envelope<P>>): Result<ChainTip, EventError>
  {
    if events != [] && (events[0].deviceSeq != 1 || events[0].prevHash != GENESIS_HASH) then
      Err(NotGenesis(events[0].deviceSeq, events[0].prevHash))
    else
      VerifyChain(d, events, GENESIS)
  }

  /** The extra test at the front of a whole-log check refuses nothing a chain would pass. */
  lemma GenesisCheckIsChained<P>(d: Digest<P>, events: seq<Envelope<P>>)
    ensures VerifyChainFromGenesis(d, events).Ok? <==> Chained(d, events, GENESIS)
    ensures Chained(d, events, GENESIS) ==> VerifyChainFromGenesis(d, events) == Ok(End(events, GENESIS))
  {
    VerifiedMeansChained(d, events, GENESIS);
    if events != [] && Chained(d, events, GENESIS) {
      assert events[..0] == [];
      assert FollowsAt(d, events, GENESIS, 0);
    }
  }

  // ---------- what a chain guarantees ----------

  /** Sequence numbers count up from the start without a gap, and every event links to the one before. */
  lemma {:induction false} ChainedAt<P>(d: Digest<P>, events: seq<Envelope<P>>, start: ChainTip, i: nat)
    requires i < |events| && Chained(d, events, start)
    ensures events[i].deviceSeq == start.deviceSeq + 1 + i
    ensures events[i].header.deviceId == events[0].header.deviceId
    ensures events[i].prevHash == if i == 0 then start.hash else events[i - 1].hash
    ensures d(events[i].Input()) == Some(events[i].hash)
  {
    assert FollowsAt(d, events, start, i);
    if i > 0 {
      ChainedAt(d, events, start, i - 1);
      assert events[..i][|events[..i]| - 1] == events[i - 1];
    }
  }

  lemma ChainedEnd<P>(d: Digest<P>, events: seq<Envelope<P>>, start: ChainTip)
    requires Chained(d, events, start)
    ensures End(events, start).deviceSeq == start.deviceSeq + |events|
  {
    if events != [] {
      ChainedAt(d, events, start, |events| - 1);
    }
  }

  lemma ChainedPrefix<P>(d: Digest<P>, events: seq<Envelope<P>>, start: ChainTip, n: nat)
    requires n <= |events| && Chained(d, events, start)
    ensures Chained(d, events[..n], start)
  {
    var prefix := events[..n];
    forall k | 0 <= k < |prefix| ensures FollowsAt(d, prefix, start, k) {
      assert prefix[..k] == events[..k];
      assert FollowsAt(d, events, start, k);
    }
  }

  lemma ChainedSuffix<P>(d: Digest<P>, events: seq<Envelope<P>>, start: ChainTip, n: nat)
    requires n <= |events| && Chained(d, events, start)
    ensures Chained(d, events[n..], End(events[..n], start))
  {
    var tail, mid := events[n..], End(events[..n], start);
    forall k | 0 <= k < |tail|
      ensures FollowsAt(d, tail, mid, k)
    {
      ChainedAt(d, events, start, n);
      ChainedAt(d, events, start, n + k);
      assert FollowsAt(d, events, start, n + k);
      if k > 0 {
        assert tail[..k][k - 1] == events[n + k - 1] == events[..n + k][n + k - 1];
      } else {
        assert tail[..k] == [];
      }
    }
  }

  /** Two chained runs that meet and name one device are one chained run. */
  lemma ChainedConcat<P>(d: Digest<P>, a: seq<Envelope<P>>, b: seq<Envelope<P>>, start: ChainTip)
    requires Chained(d, a, start) && Chained(d, b, End(a, start))
    requires a != [] && b != [] ==> a[0].header.deviceId == b[0].header.deviceId
    ensures Chained(d, a + b, start) && End(a + b, start) == End(b, End(a, start))
  {
    var all := a + b;
    if b != [] {
      assert all[|all| - 1] == b[|b| - 1];
    } else {
      assert all == a;
    }
    forall k | 0 <= k < |all|
      ensures FollowsAt(d, all, start, k)
    {
      if k < |a| {
        assert all[..k] == a[..k];
        assert FollowsAt(d, a, start, k);
      } else {
        var m := k - |a|;
        assert FollowsAt(d, b, End(a, start), m);
        assert all[..k] == a + b[..m];
        if m > 0 {
          assert (a + b[..m])[k - 1] == b[..m][m - 1];
        } else {
          assert a + b[..m] == a;
        }
      }
    }
  }

  /** Two runs of one length that end on one hash are equal, wherever they start, or the digest is broken. */
  lemma {:induction false} SameEndSameRun<P(!new)>(
    d: Digest<P>, a: seq<Envelope<P>>, b: seq<Envelope<P>>, startA: ChainTip, startB: ChainTip)
    requires Chained(d, a, startA) && Chained(d, b, startB)
    requires |a| == |b| && a != [] && a[|a| - 1].hash == b[|b| - 1].hash
    ensures a == b || Broken(d)
  {
    var n := |a| - 1;
    var x, y := a[n], b[n];
    ChainedAt(d, a, startA, n);
    ChainedAt(d, b, startB, n);
    if x.Input() != y.Input() {
      assert Collides(d, x.Input(), y.Input());
    } else if n > 0 {
      ChainedPrefix(d, a, startA, n);
      ChainedPrefix(d, b, startB, n);
      SameEndSameRun(d, a[..n], b[..n], startA, startB);
      assert a == a[..n] + [x] && b == b[..n] + [y];
    }
  }

  /**
   The tip determines the history. Two whole logs that both verify and end at one tip are equal event
   for event, or the digest has been broken: nothing can be deleted, inserted, reordered or edited
   while the tip stays the same.
   */
  lemma TipDeterminesHistory<P(!new)>(d: Digest<P>, a: seq<Envelope<P>>, b: seq<Envelope<P>>)
    requires Chained(d, a, GENESIS) && Chained(d, b, GENESIS)
    requires End(a, GENESIS) == End(b, GENESIS)
    ensures a == b || Broken(d)
  {
    ChainedEnd(d, a, GENESIS);
    ChainedEnd(d, b, GENESIS);
    if a != [] {
      SameEndSameRun(d, a, b, GENESIS, GENESIS);
    }
  }

  /** A truncated log still verifies; what gives it away is that its tip is not the claimed one. */
  lemma TruncationMovesTheTip<P>(d: Digest<P>, events: seq<Envelope<P>>, n: nat)
    requires Chained(d, events, GENESIS) && n < |events|
    ensures VerifyChainFromGenesis(d, events[..n]).Ok?
    ensures VerifyChainFromGenesis(d, events[..n]) != VerifyChainFromGenesis(d, events)
  {
    ChainedPrefix(d, events, GENESIS, n);
    GenesisCheckIsChained(d, events);
    GenesisCheckIsChained(d, events[..n]);
    ChainedEnd(d, events, GENESIS);
    ChainedEnd(d, events[..n], GENESIS);
  }

  /**
   Editing any field under a kept seal is caught, unless the edited contents hash to the old seal —
   which is two inputs with one digest.
   */
  lemma EditIsCaughtInPlace<P(!new)>(d: Digest<P>, events: seq<Envelope<P>>, k: nat, edited: Envelope<P>)
    requires Chained(d, events, GENESIS) && k < |events|
    requires edited.hash == events[k].hash && edited != events[k]
    ensures VerifyChain(d, events[k := edited], GENESIS).Err? || Broken(d)
  {
    var forged := events[k := edited];
    if VerifyChain(d, forged, GENESIS).Ok? {
      VerifiedMeansChained(d, forged, GENESIS);
      ChainedAt(d, forged, GENESIS, k);
      ChainedAt(d, events, GENESIS, k);
      assert Collides(d, edited.Input(), events[k].Input());
    }
  }
}
