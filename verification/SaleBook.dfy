/**
 Every sale a device knows about, rebuilt from one interleaved stream of events.

 A single sale is an abstract deterministic machine: an opening event may create it, and each later
 event is accepted or refused. A refused event may still leave marks on the sale it was offered to, as
 a tender does that is pushed before it is checked.
 */
module SaleBook {
  import opened Base

  datatype Stepped<+S> = Stepped(state: S, accepted: bool)

  datatype Machine<!S, !E> = Machine(saleId: E -> Uuid, open: E -> Option<S>, step: (S, E) -> Stepped<S>)

  type Sales<S> = map<Uuid, S>

  datatype Applied<S> = Applied(sales: Sales<S>, accepted: bool)

  /** One event against the book, opening a sale if this is its first. */
  function ApplyTo<S, E>(m: Machine<S, E>, sales: Sales<S>, event: E): Applied<S>
  {
    var id := m.saleId(event);
    if id in sales then
      var next := m.step(sales[id], event);
      Applied(sales[id := next.state], next.accepted)
    else
      match m.open(event)
      case Some(sale) => Applied(sales[id := sale], true)
      case None => Applied(sales, false)
  }

  /** The whole stream, refused at the first event its sale refuses. */
  function Replay<S, E>(m: Machine<S, E>, events: seq<E>): Option<Sales<S>>
  {
    if events == [] then Some(map[])
    else
      match Replay(m, events[..|events| - 1])
      case None => None
      case Some(sales) =>
        var next := ApplyTo(m, sales, events[|events| - 1]);
        if next.accepted then Some(next.sales) else None
  }

  /** The whole stream, stepping over whatever does not apply: what a restart and a pull do. */
  function ReplayLeniently<S, E>(m: Machine<S, E>, events: seq<E>): Sales<S>
  {
    if events == [] then map[]
    else ApplyTo(m, ReplayLeniently(m, events[..|events| - 1]), events[|events| - 1]).sales
  }

  class Book<S(!new), E(!new)> {
    const machine: Machine<S, E>
    var sales: Sales<S>

    constructor Of(machine: Machine<S, E>, sales: Sales<S>)
      ensures this.machine == machine && this.sales == sales
    {
      this.machine, this.sales := machine, sales;
    }

    method Apply(event: E) returns (accepted: bool)
      modifies this
      ensures Applied(sales, accepted) == ApplyTo(machine, old(sales), event)
      ensures forall id :: id != machine.saleId(event) ==>
                (id in sales <==> id in old(sales)) && (id in sales ==> sales[id] == old(sales)[id])
    {
      var id := machine.saleId(event);
      if id in sales {
        var next := machine.step(sales[id], event);
        sales := sales[id := next.state];
        return next.accepted;
      }
      var first := machine.open(event);
      if first.None? {
        return false;
      }
      sales := sales[id := first.value];
      return true;
    }
  }

  method ReplayBook<S(!new), E(!new)>(m: Machine<S, E>, events: seq<E>) returns (book: Book<S, E>, ok: bool)
    ensures fresh(book)
    ensures if ok then Replay(m, events) == Some(book.sales) else Replay(m, events) == None
  {
    book := new Book.Of(m, map[]);
    var i := 0;
    while i < |events|
      invariant 0 <= i <= |events| && fresh(book) && book.machine == m
      invariant Replay(m, events[..i]) == Some(book.sales)
    {
      var accepted := book.Apply(events[i]);
      assert events[..i + 1][..i] == events[..i];
      if !accepted {
        RefusedPrefix(m, events, i + 1);
        return book, false;
      }
      i := i + 1;
    }
    assert events[..i] == events;
    return book, true;
  }

  lemma {:induction false} RefusedPrefix<S, E>(m: Machine<S, E>, events: seq<E>, n: nat)
    requires n <= |events| && Replay(m, events[..n]) == None
    ensures Replay(m, events) == None
  {
    if n == |events| {
      assert events[..n] == events;
    } else {
      assert events[..|events| - 1][..n] == events[..n];
      RefusedPrefix(m, events[..|events| - 1], n);
    }
  }

  // ---------- one sale at a time ----------

  /** `Sale::replay`: the first event opens the sale, every later one must be accepted. */
  function ReplaySale<S, E>(m: Machine<S, E>, events: seq<E>): Option<S>
  {
    if events == [] then None
    else if |events| == 1 then m.open(events[0])
    else
      match ReplaySale(m, events[..|events| - 1])
      case None => None
      case Some(sale) =>
        var next := m.step(sale, events[|events| - 1]);
        if next.accepted then Some(next.state) else None
  }

  /** The part of the stream that belongs to one sale, in order. */
  function ForSale<S, E>(m: Machine<S, E>, events: seq<E>, id: Uuid): seq<E>
  {
    if events == [] then []
    else
      var rest := ForSale(m, events[..|events| - 1], id);
      if m.saleId(events[|events| - 1]) == id then rest + [events[|events| - 1]] else rest
  }

  /** Every sale whose events are present replays on its own. */
  ghost predicate EachReplays<S, E>(m: Machine<S, E>, events: seq<E>)
  {
    forall id {:trigger ForSale(m, events, id)} ::
      ForSale(m, events, id) != [] ==> ReplaySale(m, ForSale(m, events, id)).Some?
  }

  /** The book holds exactly the sales present in the stream, each as its own events make it. */
  ghost predicate HoldsEach<S, E>(m: Machine<S, E>, events: seq<E>, sales: Sales<S>)
  {
    forall id {:trigger ForSale(m, events, id)} ::
      && (id in sales <==> ForSale(m, events, id) != [])
      && (id in sales ==> ReplaySale(m, ForSale(m, events, id)) == Some(sales[id]))
  }

  /**
   Interleaving does not matter. The stream replays exactly when every sale's own events do, and each
   sale in the book is then the replay of its own events.
   */
  lemma {:induction false} ReplayIsSaleBySale<S, E>(m: Machine<S, E>, events: seq<E>)
    ensures Replay(m, events).Some? <==> EachReplays(m, events)
    ensures Replay(m, events).Some? ==> HoldsEach(m, events, Replay(m, events).value)
  {
    if events != [] {
      var before, last := events[..|events| - 1], events[|events| - 1];
      var id := m.saleId(last);
      ReplayIsSaleBySale(m, before);
      assert ForSale(m, events, id) == ForSale(m, before, id) + [last];
      assert ForSale(m, events, id)[..|ForSale(m, events, id)| - 1] == ForSale(m, before, id);
      forall other | other != id ensures ForSale(m, events, other) == ForSale(m, before, other) {}
      if Replay(m, before).None? {
        var bad :| ForSale(m, before, bad) != [] && ReplaySale(m, ForSale(m, before, bad)).None?;
        assert ReplaySale(m, ForSale(m, events, bad)).None?;
      }
    }
  }

  /** Two arrival orders that agree sale by sale give the same book, or are both refused. */
  lemma InterleavingsAgree<S, E>(m: Machine<S, E>, a: seq<E>, b: seq<E>)
    requires forall id :: ForSale(m, a, id) == ForSale(m, b, id)
    ensures Replay(m, a) == Replay(m, b)
  {
    ReplayIsSaleBySale(m, a);
    ReplayIsSaleBySale(m, b);
    if Replay(m, a).Some? && Replay(m, b).Some? {
      var x, y := Replay(m, a).value, Replay(m, b).value;
      forall id ensures (id in x <==> id in y) && (id in x ==> x[id] == y[id]) {
        assert ForSale(m, a, id) == ForSale(m, b, id);
      }
      assert x == y;
    }
  }

  /** Stepping over refusals changes nothing when there are none. */
  lemma {:induction false} LenientIsStrictWhenNothingIsRefused<S, E>(m: Machine<S, E>, events: seq<E>)
    requires Replay(m, events).Some?
    ensures ReplayLeniently(m, events) == Replay(m, events).value
  {
    if events != [] {
      LenientIsStrictWhenNothingIsRefused(m, events[..|events| - 1]);
    }
  }
}
