/**
 A device's invoice sequence: a counter that never repeats and a hash chain through the invoices.

 `C` is what the jurisdiction considers the invoice. As for events, the digest is any function of the
 sealed fields, `None` where the content has no canonical form.
 */
module FiscalLedger {
  import opened Base
  import opened EventLog

  datatype FiscalError =
    | CounterExhausted
    | Canonical
    | InvoiceOutOfSequence(awaited: U64, counter: U64)
    | ChainBroken(counter: U64)
    | Tampered(counter: U64)

  datatype FiscalTip = FiscalTip(counter: U64, hash: EventHash)

  const FISCAL_GENESIS: FiscalTip := FiscalTip(0, GENESIS_HASH)

  /** Everything an invoice's digest covers. */
  datatype SealInput<+C> = SealInput(
    deviceId: Uuid,
    counter: U64,
    saleId: Uuid,
    issuedAt: I64,
    previousHash: EventHash,
    content: C)

  type SealDigest<!C> = SealInput<C> -> Option<EventHash>

  datatype InvoiceSeal = InvoiceSeal(
    deviceId: Uuid,
    counter: U64,
    saleId: Uuid,
    issuedAt: I64,
    previousHash: EventHash,
    hash: EventHash)
  {
    function Input<C>(content: C): SealInput<C>
    {
      SealInput(deviceId, counter, saleId, issuedAt, previousHash, content)
    }

    function Tip(): FiscalTip { FiscalTip(counter, hash) }
  }

  /** A sealed invoice together with what was sealed. */
  datatype Issued<+C> = Issued(invoice: InvoiceSeal, content: C)

  ghost predicate SealsCollide<C>(d: SealDigest<C>, x: SealInput<C>, y: SealInput<C>)
  {
    x != y && d(x).Some? && d(x) == d(y)
  }

  ghost predicate SealBroken<C(!new)>(d: SealDigest<C>)
  {
    exists x, y :: SealsCollide(d, x, y)
  }

  class InvoiceCounter {
    const deviceId: Uuid
    var issued: U64

    constructor Resume(deviceId: Uuid, issued: U64)
      ensures this.deviceId == deviceId && this.issued == issued
    {
      this.deviceId, this.issued := deviceId, issued;
    }

    /** The next number, one above the last; refused rather than wrapped at the end of the range. */
    method Next() returns (r: Result<U64, FiscalError>)
      modifies this
      ensures old(issued) < U64_MAX ==> issued == old(issued) + 1 && r == Ok(issued)
      ensures old(issued) == U64_MAX ==> issued == old(issued) && r == Err(CounterExhausted)
    {
      if issued == U64_MAX {
        return Err(CounterExhausted);
      }
      issued := issued + 1;
      return Ok(issued);
    }
  }

  /** The seal `FiscalChain::seal` makes from a chain at `tip`. */
  function Sealed<C>(d: SealDigest<C>, deviceId: Uuid, tip: FiscalTip, saleId: Uuid, issuedAt: I64, content: C)
    : Result<InvoiceSeal, FiscalError>
  {
    if tip.counter == U64_MAX then Err(CounterExhausted)
    else
      match d(SealInput(deviceId, tip.counter + 1, saleId, issuedAt, tip.hash, content))
      case None => Err(Canonical)
      case Some(hash) => Ok(InvoiceSeal(deviceId, tip.counter + 1, saleId, issuedAt, tip.hash, hash))
  }

  /** A seal says what it was asked to, and is made exactly when there is a number and a canonical form. */
  lemma SealedSays<C>(d: SealDigest<C>, deviceId: Uuid, tip: FiscalTip, saleId: Uuid, issuedAt: I64, content: C)
    ensures var r := Sealed(d, deviceId, tip, saleId, issuedAt, content);
            && (r.Ok? ==>
                  && r.value.deviceId == deviceId && r.value.saleId == saleId && r.value.issuedAt == issuedAt
                  && r.value.counter == tip.counter + 1 && r.value.previousHash == tip.hash)
            && (r == Err(CounterExhausted) <==> tip.counter == U64_MAX)
            && (tip.counter < U64_MAX ==>
                  (r.Ok? <==> d(SealInput(deviceId, tip.counter + 1, saleId, issuedAt, tip.hash, content)).Some?))
            && (r.Err? ==> r.error == CounterExhausted || r.error == Canonical)
  {
  }

  class FiscalChain<C(!new)> {
    const digest: SealDigest<C>
    const counter: InvoiceCounter
    var tip: EventHash

    constructor Resume(digest: SealDigest<C>, deviceId: Uuid, at: FiscalTip)
      ensures fresh(counter) && this.digest == digest && counter.deviceId == deviceId
      ensures counter.issued == at.counter && tip == at.hash
    {
      this.digest, this.tip := digest, at.hash;
      this.counter := new InvoiceCounter.Resume(deviceId, at.counter);
    }

    function Tip(): FiscalTip
      reads this, counter
    {
      FiscalTip(counter.issued, tip)
    }

    /**
     Seal an invoice. A refusal for want of a canonical form comes after the number was taken: the tip
     stays, but the counter has moved on, so the chain that reports it must not be kept.
     */
    method Seal(saleId: Uuid, issuedAt: I64, content: C) returns (r: Result<InvoiceSeal, FiscalError>)
      modifies this, counter
      ensures r == Sealed(digest, counter.deviceId, old(Tip()), saleId, issuedAt, content)
      ensures r.Ok? ==>
                Tip() == r.value.Tip() && InvoicesChained(digest, [Issued(r.value, content)], old(Tip()))
      ensures r.Ok? ==>
                r.value.deviceId == counter.deviceId && r.value.saleId == saleId && r.value.issuedAt == issuedAt
      ensures r == Err(CounterExhausted) ==> Tip() == old(Tip())
      ensures r == Err(Canonical) ==> tip == old(tip) && counter.issued == old(counter.issued) + 1
    {
      var previousHash := tip;
      var number :- counter.Next();
      var hash := digest(SealInput(counter.deviceId, number, saleId, issuedAt, previousHash, content));
      if hash.None? {
        return Err(Canonical);
      }
      tip := hash.value;
      return Ok(InvoiceSeal(counter.deviceId, number, saleId, issuedAt, previousHash, hash.value));
    }
  }

  // ---------- verifying ----------

  function LastTip<C>(invoices: seq<Issued<C>>, start: FiscalTip): FiscalTip
  {
    if invoices == [] then start else invoices[|invoices| - 1].invoice.Tip()
  }

  /** The `i`-th invoice takes the next number, names its predecessor and hashes to its seal. */
  predicate IssuedInPlace<C>(d: SealDigest<C>, invoices: seq<Issued<C>>, start: FiscalTip, i: nat)
    requires i < |invoices|
  {
    var entry := invoices[i];
    && entry.invoice.counter == start.counter + 1 + i
    && entry.invoice.previousHash == (if i == 0 then start.hash else invoices[i - 1].invoice.hash)
    && d(entry.invoice.Input(entry.content)) == Some(entry.invoice.hash)
  }

  /** Gap-free: numbered one after another from `start`, each linked to the one before and unaltered. */
  ghost predicate InvoicesChained<C>(d: SealDigest<C>, invoices: seq<Issued<C>>, start: FiscalTip)
  {
    forall i :: 0 <= i < |invoices| ==> IssuedInPlace(d, invoices, start, i)
  }

  function InvoiceFault<C>(d: SealDigest<C>, awaitedBefore: U64, previous: EventHash, entry: Issued<C>)
    : Option<FiscalError>
  {
    if awaitedBefore == U64_MAX then Some(CounterExhausted)
    else if entry.invoice.counter != awaitedBefore + 1 then
      Some(InvoiceOutOfSequence(awaitedBefore + 1, entry.invoice.counter))
    else if entry.invoice.previousHash != previous then
      Some(ChainBroken(entry.invoice.counter))
    else
      match d(entry.invoice.Input(entry.content))
      case None => Some(Canonical)
      case Some(hash) => if hash != entry.invoice.hash then Some(Tampered(entry.invoice.counter)) else None
  }

  /** What each fault of an invoice says. */
  lemma InvoiceFaultSays<C>(d: SealDigest<C>, awaitedBefore: U64, previous: EventHash, entry: Issued<C>)
    requires InvoiceFault(d, awaitedBefore, previous, entry).Some?
    ensures match InvoiceFault(d, awaitedBefore, previous, entry).value
            case CounterExhausted => awaitedBefore == U64_MAX
            case InvoiceOutOfSequence(expected, found) =>
              expected == awaitedBefore + 1 && found == entry.invoice.counter && found != expected
            case ChainBroken(counter) => counter == entry.invoice.counter && entry.invoice.previousHash != previous
            case Canonical => d(entry.invoice.Input(entry.content)) == None
            case Tampered(counter) =>
              && counter == entry.invoice.counter && d(entry.invoice.Input(entry.content)).Some?
              && d(entry.invoice.Input(entry.content)) != Some(entry.invoice.hash)
  {
  }

  /** Accepts exactly the gap-free chains; otherwise names what is wrong with the first bad invoice. */
  method VerifyInvoiceChain<C>(d: SealDigest<C>, invoices: seq<Issued<C>>, start: FiscalTip)
    returns (r: Result<FiscalTip, FiscalError>)
    ensures r.Ok? <==> InvoicesChained(d, invoices, start)
    ensures r.Ok? ==> r.value == LastTip(invoices, start)
    ensures r.Err? ==>
              exists k :: 0 <= k < |invoices| && InvoicesChained(d, invoices[..k], start)
                && InvoiceFault(d, LastTip(invoices[..k], start).counter,
                                LastTip(invoices[..k], start).hash, invoices[k]) == Some(r.error)
  {
    var awaited, previous := start.counter, start.hash;
    var i := 0;
    while i < |invoices|
      invariant 0 <= i <= |invoices|
      invariant FiscalTip(awaited, previous) == LastTip(invoices[..i], start)
      invariant awaited == start.counter + i
      invariant InvoicesChained(d, invoices[..i], start)
    {
      var entry := invoices[i];
      assert i > 0 ==> invoices[..i][i - 1] == invoices[i - 1];
      var fault := InvoiceFault(d, awaited, previous, entry);
      if fault.Some? {
        assert !IssuedInPlace(d, invoices, start, i);
        return Err(fault.value);
      }
      assert IssuedInPlace(d, invoices, start, i);
      InvoicesSnoc(d, invoices, start, i);
      awaited, previous := awaited + 1, entry.invoice.hash;
      i := i + 1;
    }
    assert invoices[..i] == invoices;
    return Ok(FiscalTip(awaited, previous));
  }

  lemma InvoicesSnoc<C>(d: SealDigest<C>, invoices: seq<Issued<C>>, start: FiscalTip, i: nat)
    requires i < |invoices|
    requires InvoicesChained(d, invoices[..i], start) && IssuedInPlace(d, invoices, start, i)
    ensures InvoicesChained(d, invoices[..i + 1], start)
  {
    var longer := invoices[..i + 1];
    forall k | 0 <= k < |longer| ensures IssuedInPlace(d, longer, start, k) {
      if k < i {
        assert IssuedInPlace(d, invoices[..i], start, k);
      }
    }
  }

  lemma LastTipCounts<C>(d: SealDigest<C>, invoices: seq<Issued<C>>, start: FiscalTip)
    requires InvoicesChained(d, invoices, start)
    ensures LastTip(invoices, start).counter == start.counter + |invoices|
  {
    if invoices != [] {
      assert IssuedInPlace(d, invoices, start, |invoices| - 1);
    }
  }

  lemma InvoicesExtend<C>(d: SealDigest<C>, invoices: seq<Issued<C>>, start: FiscalTip, more: seq<Issued<C>>)
    requires InvoicesChained(d, invoices, start)
    requires InvoicesChained(d, more, LastTip(invoices, start))
    ensures InvoicesChained(d, invoices + more, start)
    ensures LastTip(invoices + more, start) == LastTip(more, LastTip(invoices, start))
  {
    LastTipCounts(d, invoices, start);
    var all := invoices + more;
    assert more == [] ==> all == invoices;
    forall k | 0 <= k < |all| ensures IssuedInPlace(d, all, start, k) {
      if k < |invoices| {
        assert IssuedInPlace(d, invoices, start, k);
      } else {
        assert IssuedInPlace(d, more, LastTip(invoices, start), k - |invoices|);
      }
    }
  }

  /**
   The last invoice's number and hash fix every invoice before it: two sequences issued from genesis
   that end at one tip are the same invoices with the same contents, or the digest has been broken.
   */
  lemma {:induction false} FiscalTipDeterminesInvoices<C(!new)>(
    d: SealDigest<C>, a: seq<Issued<C>>, b: seq<Issued<C>>)
    requires InvoicesChained(d, a, FISCAL_GENESIS) && InvoicesChained(d, b, FISCAL_GENESIS)
    requires LastTip(a, FISCAL_GENESIS) == LastTip(b, FISCAL_GENESIS)
    ensures a == b || SealBroken(d)
  {
    LastTipCounts(d, a, FISCAL_GENESIS);
    LastTipCounts(d, b, FISCAL_GENESIS);
    if a != [] {
      var n := |a| - 1;
      assert IssuedInPlace(d, a, FISCAL_GENESIS, n) && IssuedInPlace(d, b, FISCAL_GENESIS, n);
      var x, y := a[n].invoice.Input(a[n].content), b[n].invoice.Input(b[n].content);
      if x != y {
        assert SealsCollide(d, x, y);
      } else {
        InvoicesPrefix(d, a, n);
        InvoicesPrefix(d, b, n);
        assert n > 0 ==> IssuedInPlace(d, a, FISCAL_GENESIS, n - 1) && IssuedInPlace(d, b, FISCAL_GENESIS, n - 1);
        FiscalTipDeterminesInvoices(d, a[..n], b[..n]);
        assert a == a[..n] + [a[n]] && b == b[..n] + [b[n]];
      }
    }
  }

  lemma InvoicesPrefix<C>(d: SealDigest<C>, invoices: seq<Issued<C>>, n: nat)
    requires n <= |invoices| && InvoicesChained(d, invoices, FISCAL_GENESIS)
    ensures InvoicesChained(d, invoices[..n], FISCAL_GENESIS)
  {
    forall k | 0 <= k < n ensures IssuedInPlace(d, invoices[..n], FISCAL_GENESIS, k) {
      assert IssuedInPlace(d, invoices, FISCAL_GENESIS, k);
    }
  }
}
