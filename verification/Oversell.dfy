/** Finding oversold products in one pass, against the level of each product on its own. */
module Oversell {
  import opened Base
  import opened Sorting
  import opened Money

  datatype StockMovement = StockMovement(productId: Uuid, delta: I64, deviceId: Uuid)

  datatype Oversold = Oversold(productId: Uuid, shortfall: I64, devices: seq<Uuid>)

  /** Sum the movements of one product; each partial sum must fit. */
  function LevelOf(movements: seq<StockMovement>, product: Uuid): Result<I64, MoneyError>
  {
    if movements == [] then Ok(0)
    else
      var last := movements[|movements| - 1];
      var before :- LevelOf(movements[..|movements| - 1], product);
      if last.productId == product then CheckedI64(before + last.delta) else Ok(before)
  }

  function Products(movements: seq<StockMovement>): set<Uuid>
  {
    set i | 0 <= i < |movements| :: movements[i].productId
  }

  /** The devices that recorded something leaving the shelf. */
  function OutwardDevices(movements: seq<StockMovement>, product: Uuid): set<Uuid>
  {
    set i | 0 <= i < |movements| && movements[i].productId == product && movements[i].delta < 0
      :: movements[i].deviceId
  }

  function SaturatingAbs(x: I64): I64 { if x == I64_MIN then I64_MAX else Abs(x) }

  /** What is reported of one product. */
  function ReportOf(movements: seq<StockMovement>, product: Uuid): Oversold
    requires LevelOf(movements, product).Ok?
  {
    Oversold(
      product,
      SaturatingAbs(LevelOf(movements, product).value),
      Ascending(OutwardDevices(movements, product)))
  }

  /** What moved of one product, added up. */
  function Net(movements: seq<StockMovement>, product: Uuid): int
  {
    if movements == [] then 0
    else (if movements[0].productId == product then movements[0].delta else 0) + Net(movements[1..], product)
  }

  lemma {:induction false} NetNext(movements: seq<StockMovement>, n: nat, product: Uuid)
    requires n < |movements|
    ensures Net(movements[..n + 1], product)
         == Net(movements[..n], product) + if movements[n].productId == product then movements[n].delta else 0
  {
    if n > 0 {
      NetNext(movements[1..], n - 1, product);
      assert movements[..n + 1][1..] == movements[1..][..n] && movements[..n][1..] == movements[1..][..n - 1];
    }
  }

  /** A level is what moved, and overflows exactly where it leaves the range on the way. */
  lemma {:induction false} LevelIsNet(movements: seq<StockMovement>, product: Uuid)
    ensures LevelOf(movements, product).Ok?
       <==> forall n :: 0 <= n <= |movements| ==> FitsI64(Net(movements[..n], product))
    ensures LevelOf(movements, product).Ok? ==> LevelOf(movements, product).value == Net(movements, product)
  {
    assert movements[..|movements|] == movements;
    if movements != [] {
      var m := |movements| - 1;
      LevelIsNet(movements[..m], product);
      NetNext(movements, m, product);
      assert forall n :: 0 <= n <= m ==> movements[..m][..n] == movements[..n];
      if LevelOf(movements[..m], product).Ok? && FitsI64(Net(movements, product)) {
        forall n | 0 <= n <= |movements| ensures FitsI64(Net(movements[..n], product)) {
          assert n <= m ==> FitsI64(Net(movements[..m][..n], product));
        }
      }
      if forall n :: 0 <= n <= |movements| ==> FitsI64(Net(movements[..n], product)) {
        assert FitsI64(Net(movements[..m + 1], product));
        forall n | 0 <= n <= m ensures FitsI64(Net(movements[..m][..n], product)) {
          assert FitsI64(Net(movements[..n], product));
        }
      }
    }
  }

  /** The device took something of the product off the shelf. */
  ghost predicate TookOut(movements: seq<StockMovement>, product: Uuid, device: Uuid)
  {
    exists i :: 0 <= i < |movements| && movements[i].productId == product && movements[i].delta < 0
                && movements[i].deviceId == device
  }

  /** What is reported of one product, on its movements. */
  ghost predicate IsReport(movements: seq<StockMovement>, o: Oversold)
  {
    && Net(movements, o.productId) < 0
    && o.shortfall == Min(I64_MAX, 0 - Net(movements, o.productId))
    && (forall d :: d in o.devices <==> TookOut(movements, o.productId, d))
    && (forall i, j :: 0 <= i < j < |o.devices| ==> o.devices[i] < o.devices[j])
  }

  lemma ReportIsOnMovements(movements: seq<StockMovement>, product: Uuid)
    requires LevelOf(movements, product).Ok? && LevelOf(movements, product).value < 0
    ensures IsReport(movements, ReportOf(movements, product))
  {
    LevelIsNet(movements, product);
    forall d ensures d in OutwardDevices(movements, product) <==> TookOut(movements, product, d) {
    }
  }

  // ---------- one pass ----------

  datatype Entry = Entry(level: I64, devices: seq<Uuid>)

  /** A list that names each element of a set once. */
  ghost predicate Lists(list: seq<Uuid>, s: set<Uuid>)
  {
    && (forall x :: x in list <==> x in s)
    && (forall i, j :: 0 <= i < j < |list| ==> list[i] != list[j])
  }

  /** What the pass knows of one product is what its own movements say. */
  ghost predicate Knows(e: Entry, movements: seq<StockMovement>, product: Uuid)
  {
    LevelOf(movements, product) == Ok(e.level) && Lists(e.devices, OutwardDevices(movements, product))
  }

  lemma NextProducts(ms: seq<StockMovement>, i: nat)
    requires i < |ms|
    ensures Products(ms[..i + 1]) == Products(ms[..i]) + {ms[i].productId}
  {
    var before, after := ms[..i], ms[..i + 1];
    forall p ensures p in Products(after) <==> p in Products(before) || p == ms[i].productId {
      if p in Products(before) {
        var k :| 0 <= k < i && before[k].productId == p;
        assert after[k].productId == p;
      }
      if p == ms[i].productId {
        assert after[i].productId == p;
      }
      if p in Products(after) {
        var k :| 0 <= k <= i && after[k].productId == p;
        assert k < i ==> before[k].productId == p;
      }
    }
  }

  lemma NextDevices(ms: seq<StockMovement>, i: nat, product: Uuid)
    requires i < |ms|
    ensures OutwardDevices(ms[..i + 1], product)
            == OutwardDevices(ms[..i], product)
               + if ms[i].productId == product && ms[i].delta < 0 then {ms[i].deviceId} else {}
  {
    var before, after := ms[..i], ms[..i + 1];
    var added := if ms[i].productId == product && ms[i].delta < 0 then {ms[i].deviceId} else {};
    forall d ensures d in OutwardDevices(after, product) <==> d in OutwardDevices(before, product) + added {
      if d in OutwardDevices(before, product) {
        var k :| 0 <= k < i && before[k].productId == product && before[k].delta < 0 && before[k].deviceId == d;
        assert after[k] == before[k];
      }
      if d in added {
        assert after[i] == ms[i];
      }
      if d in OutwardDevices(after, product) {
        var k :| 0 <= k <= i && after[k].productId == product && after[k].delta < 0 && after[k].deviceId == d;
        assert k < i ==> before[k] == after[k];
      }
    }
  }

  lemma {:induction false} AbsentProduct(ms: seq<StockMovement>, product: Uuid)
    requires product !in Products(ms)
    ensures LevelOf(ms, product) == Ok(0) && OutwardDevices(ms, product) == {}
  {
    if ms != [] {
      var n := |ms| - 1;
      assert ms[..n + 1] == ms;
      NextProducts(ms, n);
      AbsentProduct(ms[..n], product);
      NextDevices(ms, n, product);
    }
  }

  /** One movement, added to what is known of its product. */
  lemma KnowsNext(e: Entry, ms: seq<StockMovement>, i: nat, next: Entry)
    requires i < |ms| && Knows(e, ms[..i], ms[i].productId)
    requires FitsI64(e.level + ms[i].delta)
    requires next.level == e.level + ms[i].delta
    requires next.devices == if ms[i].delta < 0 && ms[i].deviceId !in e.devices then e.devices + [ms[i].deviceId]
                             else e.devices
    ensures Knows(next, ms[..i + 1], ms[i].productId)
  {
    assert ms[..i + 1][..i] == ms[..i];
    NextDevices(ms, i, ms[i].productId);
    assert forall x :: x in next.devices <==> x in e.devices || (ms[i].delta < 0 && x == ms[i].deviceId);
  }

  lemma KnowsOther(e: Entry, ms: seq<StockMovement>, i: nat, product: Uuid)
    requires i < |ms| && product != ms[i].productId && Knows(e, ms[..i], product)
    ensures Knows(e, ms[..i + 1], product)
  {
    assert ms[..i + 1][..i] == ms[..i];
    NextDevices(ms, i, product);
  }

  lemma {:induction false} OverflowStays(ms: seq<StockMovement>, n: nat, product: Uuid)
    requires n <= |ms| && LevelOf(ms[..n], product).Err?
    ensures LevelOf(ms, product).Err?
  {
    if n == |ms| {
      assert ms[..n] == ms;
    } else {
      assert ms[..|ms| - 1][..n] == ms[..n];
      OverflowStays(ms[..|ms| - 1], n, product);
    }
  }

  /** The pass over the movements: it stops where the first product's level overflows. */
  method Gather(ms: seq<StockMovement>) returns (r: Result<map<Uuid, Entry>, MoneyError>)
    ensures r.Err? ==> r.error == Overflow && exists p :: p in Products(ms) && LevelOf(ms, p).Err?
    ensures r.Ok? ==> r.value.Keys == Products(ms) && forall p :: p in r.value ==> Knows(r.value[p], ms, p)
  {
    var products: map<Uuid, Entry> := map[];
    var i := 0;
    while i < |ms|
      invariant 0 <= i <= |ms|
      invariant products.Keys == Products(ms[..i])
      invariant forall p :: p in products ==> Knows(products[p], ms[..i], p)
    {
      var moved := ms[i];
      var id := moved.productId;
      if id !in products {
        AbsentProduct(ms[..i], id);
      }
      var entry := if id in products then products[id] else Entry(0, []);
      assert Knows(entry, ms[..i], id);
      if !FitsI64(entry.level + moved.delta) {
        assert ms[..i + 1][..i] == ms[..i];
        OverflowStays(ms, i + 1, id);
        assert id in Products(ms);
        return Err(Overflow);
      }
      var devices := if moved.delta < 0 && moved.deviceId !in entry.devices then entry.devices + [moved.deviceId]
      else entry.devices;
      var next := Entry(entry.level + moved.delta, devices);
      KnowsNext(entry, ms, i, next);
      NextProducts(ms, i);
      forall p | p in products && p != id ensures Knows(products[p], ms[..i + 1], p) {
        KnowsOther(products[p], ms, i, p);
      }
      products := products[id := next];
      i := i + 1;
    }
    assert ms[..i] == ms;
    return Ok(products);
  }

  predicate NatLe(a: nat, b: nat) { a <= b }

  lemma NatOrder()
    ensures TotalPreorder(NatLe)
  {
  }

  lemma {:induction false} OnceInEach(s: seq<Uuid>, x: Uuid)
    requires forall i, j :: 0 <= i < j < |s| ==> s[i] != s[j]
    ensures multiset(s)[x] == if x in s then 1 else 0
  {
    if s != [] {
      OnceInEach(s[1..], x);
      assert s == [s[0]] + s[1..];
    }
  }

  /** Sorting a duplicate-free list of a set walks the set in order. */
  lemma SortedListIsAscending(list: seq<Uuid>, s: set<Uuid>)
    requires Lists(list, s)
    ensures TotalPreorder(NatLe)
    ensures Sort(NatLe, list) == Ascending(s)
  {
    NatOrder();
    var walk := Ascending(s);
    forall x ensures multiset(list)[x] == multiset(walk)[x] {
      OnceInEach(list, x);
      OnceInEach(walk, x);
    }
    assert multiset(list) == multiset(walk);
    SortedUnique(NatLe, walk, Sort(NatLe, list));
  }

  /** The reports on some products, in their order; only those below zero. */
  function ReportsOn(ms: seq<StockMovement>, ids: seq<Uuid>): seq<Oversold>
    requires forall k :: 0 <= k < |ids| ==> LevelOf(ms, ids[k]).Ok?
  {
    if ids == [] then []
    else
      var last := ids[|ids| - 1];
      ReportsOn(ms, ids[..|ids| - 1]) + if LevelOf(ms, last).value < 0 then [ReportOf(ms, last)] else []
  }

  lemma {:induction false} ReportsMean(ms: seq<StockMovement>, ids: seq<Uuid>)
    requires forall k :: 0 <= k < |ids| ==> LevelOf(ms, ids[k]).Ok?
    requires forall i, j :: 0 <= i < j < |ids| ==> ids[i] < ids[j]
    ensures var found := ReportsOn(ms, ids);
            && (forall o :: o in found <==>
                  o.productId in ids && LevelOf(ms, o.productId).value < 0 && o == ReportOf(ms, o.productId))
            && (forall i, j :: 0 <= i < j < |found| ==> found[i].productId < found[j].productId)
  {
    if ids != [] {
      var n := |ids| - 1;
      ReportsMean(ms, ids[..n]);
      assert ids == ids[..n] + [ids[n]];
      var before := ReportsOn(ms, ids[..n]);
      forall k | 0 <= k < |before| ensures before[k].productId < ids[n] {
        assert before[k] in before;
      }
    }
  }

  /**
   The one-pass scan agrees with the per-product sums: it fails exactly when one of them overflows, and
   otherwise lists the products below zero in order, each with its shortfall and its outward devices.
   */
  method DetectOversells(ms: seq<StockMovement>) returns (r: Result<seq<Oversold>, MoneyError>)
    ensures r.Err? <==> exists p :: p in Products(ms) && LevelOf(ms, p).Err?
    ensures r.Ok? ==>
              && (forall p :: p in Products(ms) ==> LevelOf(ms, p).Ok?)
              && (forall o :: o in r.value <==>
                    o.productId in Products(ms) && LevelOf(ms, o.productId).value < 0 && o == ReportOf(ms, o.productId))
              && (forall o :: o in r.value ==> IsReport(ms, o))
              && (forall i, j :: 0 <= i < j < |r.value| ==> r.value[i].productId < r.value[j].productId)
  {
    var gathered := Gather(ms);
    if gathered.Err? {
      return Err(gathered.error);
    }
    var ids := Ascending(gathered.value.Keys);
    assert forall k :: 0 <= k < |ids| ==> ids[k] in gathered.value && Knows(gathered.value[ids[k]], ms, ids[k]);
    var found := Below(ms, gathered.value, ids);
    ReportsMean(ms, ids);
    forall o | o in found ensures IsReport(ms, o) {
      ReportIsOnMovements(ms, o.productId);
    }
    return Ok(found);
  }

  /** The products below zero among some ids, in their order, each with its devices sorted. */
  method Below(ms: seq<StockMovement>, products: map<Uuid, Entry>, ids: seq<Uuid>) returns (found: seq<Oversold>)
    requires forall k :: 0 <= k < |ids| ==> ids[k] in products && Knows(products[ids[k]], ms, ids[k])
    ensures forall k :: 0 <= k < |ids| ==> LevelOf(ms, ids[k]).Ok?
    ensures found == ReportsOn(ms, ids)
  {
    found := [];
    var i := 0;
    while i < |ids|
      invariant 0 <= i <= |ids|
      invariant found == ReportsOn(ms, ids[..i])
    {
      var id := ids[i];
      assert ids[..i + 1][..i] == ids[..i];
      var entry := products[id];
      if entry.level < 0 {
        SortedListIsAscending(entry.devices, OutwardDevices(ms, id));
        found := found + [Oversold(id, SaturatingAbs(entry.level), Sort(NatLe, entry.devices))];
      }
      i := i + 1;
    }
    assert ids[..i] == ids;
  }

  /** A shortfall is how far below zero the level is, but for the one level with no opposite. */
  lemma ShortfallIsTheLevelNegated(ms: seq<StockMovement>, product: Uuid)
    requires LevelOf(ms, product).Ok? && LevelOf(ms, product).value < 0
    ensures ReportOf(ms, product).shortfall == 0 - LevelOf(ms, product).value
       <==> LevelOf(ms, product).value != I64_MIN
    ensures ReportOf(ms, product).shortfall > 0
  {
  }
}
