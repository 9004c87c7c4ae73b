/** Merges that several devices run over the same records in different orders. */
module MergeFolds {
  import opened Base
  import opened Sorting

  // ---------- folding to a winner ----------

  /** Keep what is held as long as it stands against the next. */
  function Best<T>(stands: (T, T) -> bool, s: seq<T>): T
    requires s != []
  {
    if |s| == 1 then s[0]
    else
      var held, next := Best(stands, s[..|s| - 1]), s[|s| - 1];
      if stands(held, next) then held else next
  }

  /** Nothing in the run is stronger. */
  ghost predicate IsTop<T>(stands: (T, T) -> bool, s: seq<T>, x: T)
  {
    x in s && forall y :: y in s ==> stands(x, y)
  }

  lemma {:induction false} BestIsTop<T(!new)>(stands: (T, T) -> bool, s: seq<T>)
    requires TotalPreorder(stands) && s != []
    ensures IsTop(stands, s, Best(stands, s))
  {
    if |s| > 1 {
      BestIsTop(stands, s[..|s| - 1]);
      assert s == s[..|s| - 1] + [s[|s| - 1]];
    }
  }

  /** No two different records tie for the top. */
  ghost predicate OneTop<T(!new)>(stands: (T, T) -> bool, s: seq<T>)
  {
    forall x, y :: IsTop(stands, s, x) && IsTop(stands, s, y) ==> x == y
  }

  lemma {:induction false} FirstTopWins<T(!new)>(stands: (T, T) -> bool, s: seq<T>)
    requires s != [] && IsTop(stands, s, s[0])
    ensures Best(stands, s) == s[0]
  {
    if |s| > 1 {
      var before := s[..|s| - 1];
      assert forall y :: y in before ==> y in s;
      FirstTopWins(stands, before);
    }
  }

  lemma SameTops<T(!new)>(stands: (T, T) -> bool, a: seq<T>, b: seq<T>, x: T)
    requires multiset(a) == multiset(b)
    ensures IsTop(stands, a, x) <==> IsTop(stands, b, x)
  {
    SameElements(a, b);
  }

  /** With one top, every arrival order ends at the same winner. */
  lemma OneTopIsEnough<T(!new)>(stands: (T, T) -> bool, a: seq<T>, b: seq<T>)
    requires TotalPreorder(stands) && a != [] && multiset(a) == multiset(b) && OneTop(stands, a)
    ensures b != [] && Best(stands, a) == Best(stands, b)
  {
    assert |multiset(a)| == |multiset(b)|;
    BestIsTop(stands, a);
    BestIsTop(stands, b);
    SameTops(stands, a, b, Best(stands, b));
  }

  /** With two, some order ends at either. */
  lemma TwoTopsDiffer<T(!new)>(stands: (T, T) -> bool, s: seq<T>, x: T) returns (t: seq<T>)
    requires TotalPreorder(stands) && IsTop(stands, s, x)
    ensures t != [] && multiset(t) == multiset(s) && Best(stands, t) == x
  {
    var i :| 0 <= i < |s| && s[i] == x;
    t := [x] + (s[..i] + s[i + 1..]);
    DropAt(s, i);
    SameTops(stands, s, t, x);
    FirstTopWins(stands, t);
  }

  /** The winner does not depend on the arrival order exactly when no two different records tie for the top. */
  lemma OrderIsIrrelevantIff<T(!new)>(stands: (T, T) -> bool, s: seq<T>)
    requires TotalPreorder(stands) && s != []
    ensures OneTop(stands, s)
       <==> forall t :: t != [] && multiset(t) == multiset(s) ==> Best(stands, t) == Best(stands, s)
  {
    if OneTop(stands, s) {
      forall t | t != [] && multiset(t) == multiset(s) ensures Best(stands, t) == Best(stands, s) {
        OneTopIsEnough(stands, s, t);
      }
    } else {
      var x, y :| IsTop(stands, s, x) && IsTop(stands, s, y) && x != y;
      var a := TwoTopsDiffer(stands, s, x);
      var b := TwoTopsDiffer(stands, s, y);
    }
  }

  /** Folding two runs apart and then together is folding them in one. */
  lemma {:induction false} BestOfBoth<T(!new)>(stands: (T, T) -> bool, a: seq<T>, b: seq<T>)
    requires TotalPreorder(stands) && a != [] && b != []
    ensures var x, y := Best(stands, a), Best(stands, b);
            Best(stands, a + b) == if stands(x, y) then x else y
  {
    var n := |b| - 1;
    assert (a + b)[..|a + b| - 1] == a + b[..n];
    if n == 0 {
      assert a + b[..0] == a;
    } else {
      BestOfBoth(stands, a, b[..n]);
    }
  }

  // ---------- catalogue edits ----------

  datatype Edit<T> = Edit(productId: Uuid, serverSeq: I64, deviceId: Uuid, value: T)

  /** The later place in the server's order wins; equal places go to the greater device. */
  predicate EditStands<T>(a: Edit<T>, b: Edit<T>)
  {
    a.serverSeq > b.serverSeq || (a.serverSeq == b.serverSeq && a.deviceId >= b.deviceId)
  }

  lemma EditOrder<T(!new)>()
    ensures TotalPreorder<Edit<T>>(EditStands)
  {
  }

  function Resolve<T>(a: Edit<T>, b: Edit<T>): Edit<T>
  {
    if a.serverSeq > b.serverSeq then a
    else if a.serverSeq < b.serverSeq then b
    else if a.deviceId >= b.deviceId then a
    else b
  }

  /** The edits of one product, in their order. */
  function EditsOf<T>(edits: seq<Edit<T>>, product: Uuid): seq<Edit<T>>
  {
    if edits == [] then []
    else
      var last := edits[|edits| - 1];
      EditsOf(edits[..|edits| - 1], product) + if last.productId == product then [last] else []
  }

  lemma {:induction false} EditsOfMeans<T(!new)>(edits: seq<Edit<T>>, product: Uuid, e: Edit<T>)
    ensures multiset(EditsOf(edits, product))[e] == if e.productId == product then multiset(edits)[e] else 0
  {
    if edits != [] {
      var n := |edits| - 1;
      EditsOfMeans(edits[..n], product, e);
      assert edits == edits[..n] + [edits[n]];
    }
  }

  lemma InEditsOf<T(!new)>(edits: seq<Edit<T>>, product: Uuid, e: Edit<T>)
    ensures e in EditsOf(edits, product) <==> e in edits && e.productId == product
  {
    EditsOfMeans(edits, product, e);
    assert e in EditsOf(edits, product) <==> e in multiset(EditsOf(edits, product));
    assert e in edits <==> e in multiset(edits);
  }

  /** The fold of one product's edits, if it has any. */
  function Winner<T>(edits: seq<Edit<T>>, product: Uuid): Option<Edit<T>>
  {
    var mine := EditsOf(edits, product);
    if mine == [] then None else Some(Best(EditStands, mine))
  }

  function Held<T>(winners: map<Uuid, Edit<T>>, product: Uuid): Option<Edit<T>>
  {
    if product in winners then Some(winners[product]) else None
  }

  /** A map that holds every product's winner and nothing else. */
  ghost predicate HoldsWinners<T(!new)>(winners: map<Uuid, Edit<T>>, edits: seq<Edit<T>>)
  {
    forall p {:trigger Held(winners, p)} :: Held(winners, p) == Winner(edits, p)
  }

  /** The next edit is resolved against what its product holds; no other product changes. */
  lemma WinnerNext<T(!new)>(edits: seq<Edit<T>>, i: nat, p: Uuid)
    requires i < |edits|
    ensures var held, edit := Winner(edits[..i], p), edits[i];
            Winner(edits[..i + 1], p)
            == if p != edit.productId then held
               else if held.None? then Some(edit)
               else Some(Resolve(held.value, edit))
  {
    assert edits[..i + 1][..i] == edits[..i];
    var mine := EditsOf(edits[..i], p);
    assert (mine + [edits[i]])[..|mine|] == mine;
    assert mine + [] == mine;
  }

  /** `latest_per_product`: one pass, each edit resolved against what its product holds. */
  method LatestPerProduct<T(!new)>(edits: seq<Edit<T>>) returns (winners: map<Uuid, Edit<T>>)
    ensures HoldsWinners(winners, edits)
  {
    winners := map[];
    var i := 0;
    while i < |edits|
      invariant 0 <= i <= |edits|
      invariant HoldsWinners(winners, edits[..i])
    {
      var edit := edits[i];
      var held := Held(winners, edit.productId);
      var next := winners[edit.productId := if held.Some? then Resolve(held.value, edit) else edit];
      forall p ensures Held(next, p) == Winner(edits[..i + 1], p) {
        WinnerNext(edits, i, p);
        assert Held(winners, p) == Winner(edits[..i], p);
      }
      winners := next;
      i := i + 1;
    }
    assert edits[..i] == edits;
  }

  /** Each winner is an edit of its product that nothing of that product outranks. */
  lemma WinnerIsGreatest<T(!new)>(edits: seq<Edit<T>>, p: Uuid, e: Edit<T>)
    requires e in edits && e.productId == p
    ensures Winner(edits, p).Some?
    ensures Winner(edits, p).value in edits && Winner(edits, p).value.productId == p
    ensures var w := Winner(edits, p).value;
            w.serverSeq > e.serverSeq || (w.serverSeq == e.serverSeq && w.deviceId >= e.deviceId)
  {
    EditOrder<T>();
    InEditsOf(edits, p, e);
    var mine := EditsOf(edits, p);
    BestIsTop(EditStands, mine);
    InEditsOf(edits, p, Best(EditStands, mine));
  }

  lemma SameEditsOf<T(!new)>(a: seq<Edit<T>>, b: seq<Edit<T>>, p: Uuid)
    requires multiset(a) == multiset(b)
    ensures multiset(EditsOf(a, p)) == multiset(EditsOf(b, p)) && |EditsOf(a, p)| == |EditsOf(b, p)|
  {
    forall e ensures multiset(EditsOf(a, p))[e] == multiset(EditsOf(b, p))[e] {
      EditsOfMeans(a, p, e);
      EditsOfMeans(b, p, e);
    }
    assert multiset(EditsOf(a, p)) == multiset(EditsOf(b, p));
    assert |multiset(EditsOf(a, p))| == |multiset(EditsOf(b, p))|;
  }

  lemma WinnerIgnoresOrder<T(!new)>(a: seq<Edit<T>>, b: seq<Edit<T>>, p: Uuid)
    requires multiset(a) == multiset(b) && OneTop(EditStands, EditsOf(a, p))
    ensures Winner(a, p) == Winner(b, p)
  {
    EditOrder<T>();
    SameEditsOf(a, b, p);
    if EditsOf(a, p) != [] {
      OneTopIsEnough(EditStands, EditsOf(a, p), EditsOf(b, p));
    }
  }

  /**
   Two devices that fold the same edits in different orders hold the same winners, provided no product
   has two different edits tied at the top.
   */
  lemma WinnersIgnoreOrder<T(!new)>(
    a: seq<Edit<T>>, b: seq<Edit<T>>, x: map<Uuid, Edit<T>>, y: map<Uuid, Edit<T>>)
    requires HoldsWinners(x, a) && HoldsWinners(y, b) && multiset(a) == multiset(b)
    requires forall p :: OneTop(EditStands, EditsOf(a, p))
    ensures x == y
  {
    forall p ensures Held(x, p) == Held(y, p) {
      WinnerIgnoresOrder(a, b, p);
    }
    SameMap(x, y);
  }

  lemma SameMap<T(!new)>(x: map<Uuid, Edit<T>>, y: map<Uuid, Edit<T>>)
    requires forall p :: Held(x, p) == Held(y, p)
    ensures x == y
  {
    assert forall p :: p in x <==> Held(x, p).Some?;
    assert forall p :: p in y <==> Held(y, p).Some?;
    assert forall p :: p in x ==> Held(x, p) == Some(x[p]) && Held(y, p) == Some(y[p]);
  }

  lemma {:induction false} EditsOfBoth<T>(a: seq<Edit<T>>, b: seq<Edit<T>>, p: Uuid)
    ensures EditsOf(a + b, p) == EditsOf(a, p) + EditsOf(b, p)
  {
    if b == [] {
      assert a + b == a;
    } else {
      assert (a + b)[..|a + b| - 1] == a + b[..|b| - 1];
      EditsOfBoth(a, b[..|b| - 1], p);
    }
  }

  /** Two pages folded apart and merged are the pages folded together. */
  lemma PagesMerge<T(!new)>(a: seq<Edit<T>>, b: seq<Edit<T>>, p: Uuid)
    ensures var x, y := Winner(a, p), Winner(b, p);
            Winner(a + b, p)
            == if y.None? then x else if x.None? then y else Some(Resolve(x.value, y.value))
  {
    EditOrder<T>();
    EditsOfBoth(a, b, p);
    var mine, theirs := EditsOf(a, p), EditsOf(b, p);
    assert theirs == [] ==> mine + theirs == mine;
    assert mine == [] ==> mine + theirs == theirs;
    if mine != [] && theirs != [] {
      BestOfBoth(EditStands, mine, theirs);
    }
  }

  /** Places identify edits: the server never gives one place to two edits of a product. */
  ghost predicate DistinctPlaces<T(!new)>(edits: seq<Edit<T>>)
  {
    forall e, f :: e in edits && f in edits && SamePlace(e, f) ==> e == f
  }

  predicate SamePlace<T>(e: Edit<T>, f: Edit<T>)
  {
    e.productId == f.productId && e.serverSeq == f.serverSeq && e.deviceId == f.deviceId
  }

  /** Then no product can have a tie. */
  lemma DistinctPlacesHaveOneTop<T(!new)>(edits: seq<Edit<T>>, p: Uuid)
    requires DistinctPlaces(edits)
    ensures OneTop(EditStands, EditsOf(edits, p))
  {
    var mine := EditsOf(edits, p);
    forall x, y | IsTop(EditStands, mine, x) && IsTop(EditStands, mine, y) ensures x == y {
      InEditsOf(edits, p, x);
      InEditsOf(edits, p, y);
      assert SamePlace(x, y);
    }
  }

  // ---------- ticket claims ----------

  const LEASE_IDLE_TIMEOUT_MILLIS: I64 := 600_000

  datatype Lease = Lease(ticketId: Uuid, holder: Uuid, claimedAt: I64, touchedAt: I64)
  {
    /** Idle by the saturating difference of two clocks, whichever is ahead. */
    predicate IsExpired(now: I64)
    {
      var idle := Clamp(now - touchedAt, I64_MIN, I64_MAX);
      (if idle == I64_MIN then I64_MAX else Abs(idle)) >= LEASE_IDLE_TIMEOUT_MILLIS
    }
  }

  datatype ClaimVerdict = Free | AlreadyHeld | Stale(holder: Uuid) | HeldBy(holder: Uuid)
  {
    predicate PermitsClaim() { !HeldBy? }
  }

  function EvaluateClaim(lease: Option<Lease>, device: Uuid, now: I64): ClaimVerdict
  {
    match lease
    case None => Free
    case Some(held) =>
      if held.holder == device then AlreadyHeld
      else if held.IsExpired(now) then Stale(held.holder)
      else HeldBy(held.holder)
  }

  /** A device is refused exactly while another holds the ticket and was active within the timeout. */
  lemma RefusedWhileActive(lease: Lease, device: Uuid, now: I64)
    ensures !EvaluateClaim(Some(lease), device, now).PermitsClaim()
       <==> device != lease.holder
            && 0 - LEASE_IDLE_TIMEOUT_MILLIS < now - lease.touchedAt < LEASE_IDLE_TIMEOUT_MILLIS
    ensures EvaluateClaim(Some(lease), device, now) == AlreadyHeld <==> device == lease.holder
    ensures EvaluateClaim(Some(lease), device, now) == Stale(lease.holder)
       <==> device != lease.holder && Abs(now - lease.touchedAt) >= LEASE_IDLE_TIMEOUT_MILLIS
  {
  }

  /** The earlier claim wins; equal times go to the smaller device. */
  predicate ClaimStands(a: Lease, b: Lease)
  {
    a.claimedAt < b.claimedAt || (a.claimedAt == b.claimedAt && a.holder <= b.holder)
  }

  function ResolveContest(first: Lease, second: Lease): Lease
  {
    if first.claimedAt < second.claimedAt then first
    else if first.claimedAt > second.claimedAt then second
    else if first.holder <= second.holder then first
    else second
  }

  /** Claims settled one after another, as they reach a device. */
  method SettleContest(claims: seq<Lease>) returns (winner: Lease)
    requires claims != []
    ensures winner == Best(ClaimStands, claims)
  {
    winner := claims[0];
    var i := 1;
    while i < |claims|
      invariant 1 <= i <= |claims|
      invariant winner == Best(ClaimStands, claims[..i])
    {
      assert claims[..i + 1][..i] == claims[..i];
      winner := ResolveContest(winner, claims[i]);
      i := i + 1;
    }
    assert claims[..i] == claims;
  }

  /**
   The winner is the earliest claim, by time and then device, and every device that sees the same claims
   names it — whatever order they arrived in, as long as time and device identify a claim.
   */
  lemma ContestIsSettledAlike(a: seq<Lease>, b: seq<Lease>)
    requires a != [] && multiset(a) == multiset(b) && KeysIdentify(ClaimStands, a)
    ensures b != [] && Best(ClaimStands, a) == Best(ClaimStands, b)
    ensures var w := Best(ClaimStands, a);
            && w in a
            && (forall c :: c in a ==>
                  w.claimedAt < c.claimedAt || (w.claimedAt == c.claimedAt && w.holder <= c.holder))
  {
    assert TotalPreorder(ClaimStands);
    BestIsTop(ClaimStands, a);
    OneTopIsEnough(ClaimStands, a, b);
  }
}
