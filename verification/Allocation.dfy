/** Splitting an amount by weights so that nothing is lost: largest remainders first, ties by position. */
module Allocation {
  import opened Base
  import opened Sorting
  import opened Money

  // ---------- sums ----------

  function Sum(s: seq<int>): int
  {
    if s == [] then 0 else Sum(s[..|s| - 1]) + s[|s| - 1]
  }

  lemma {:induction false} SumNext(s: seq<int>, i: nat)
    requires i < |s|
    ensures Sum(s[..i + 1]) == Sum(s[..i]) + s[i]
  {
    assert s[..i + 1][..i] == s[..i];
  }

  lemma {:induction false} SumUpdate(s: seq<int>, i: nat, x: int)
    requires i < |s|
    ensures Sum(s[i := x]) == Sum(s) - s[i] + x
  {
    var n := |s| - 1;
    if i == n {
      assert s[i := x][..n] == s[..n];
    } else {
      SumUpdate(s[..n], i, x);
      assert s[i := x][..n] == s[..n][i := x];
    }
  }

  lemma {:induction false} SumMonotone(x: seq<int>, y: seq<int>)
    requires |x| == |y| && forall i :: 0 <= i < |x| ==> x[i] <= y[i]
    ensures Sum(x) <= Sum(y)
    ensures Sum(x) == Sum(y) ==> x == y
  {
    if x != [] {
      SumMonotone(x[..|x| - 1], y[..|y| - 1]);
      if Sum(x) == Sum(y) {
        assert x == x[..|x| - 1] + [x[|x| - 1]] && y == y[..|y| - 1] + [y[|y| - 1]];
      }
    }
  }

  lemma {:induction false} SumBounds(s: seq<int>, most: int)
    requires forall i :: 0 <= i < |s| ==> 0 <= s[i] <= most
    ensures 0 <= Sum(s) <= |s| * most
    ensures forall i :: 0 <= i < |s| ==> s[i] <= Sum(s)
  {
    if s != [] {
      SumBounds(s[..|s| - 1], most);
    }
  }

  // ---------- shares and what they discard ----------

  /** The truncated share of a weight, and the part of it that was discarded. */
  function Share(m: nat, w: nat, total: nat): nat
    requires total > 0
  {
    Nonneg(m, w);
    m * w / total
  }

  function Rest(m: nat, w: nat, total: nat): nat
    requires total > 0
  {
    Nonneg(m, w);
    m * w % total
  }

  function Shares(m: nat, ws: seq<U64>, total: nat): (r: seq<int>)
    requires total > 0
    ensures |r| == |ws| && forall i :: 0 <= i < |ws| ==> r[i] == Share(m, ws[i], total)
  {
    seq(|ws|, i requires 0 <= i < |ws| => Share(m, ws[i], total))
  }

  function Rests(m: nat, ws: seq<U64>, total: nat): (r: seq<int>)
    requires total > 0
    ensures |r| == |ws| && forall i :: 0 <= i < |ws| ==> r[i] == Rest(m, ws[i], total)
  {
    seq(|ws|, i requires 0 <= i < |ws| => Rest(m, ws[i], total))
  }

  lemma ShareAndRest(m: nat, w: nat, total: nat)
    requires total > 0
    ensures m * w == Share(m, w, total) * total + Rest(m, w, total)
    ensures Rest(m, w, total) < total
  {
  }

  /** The discarded parts add up to whole units: as many as the shares fall short. */
  lemma {:induction false} SharesAndRests(m: nat, ws: seq<U64>, total: nat)
    requires total > 0
    ensures Sum(Shares(m, ws, total)) * total + Sum(Rests(m, ws, total)) == m * Sum(ws)
  {
    if ws != [] {
      var n := |ws| - 1;
      SharesAndRests(m, ws[..n], total);
      assert Shares(m, ws, total)[..n] == Shares(m, ws[..n], total);
      assert Rests(m, ws, total)[..n] == Rests(m, ws[..n], total);
      ShareAndRest(m, ws[n], total);
      Distribute(Sum(Shares(m, ws[..n], total)), Share(m, ws[n], total), total);
      DistributeRight(m, Sum(ws[..n]), ws[n]);
    }
  }

  lemma Distribute(a: int, b: int, c: int)
    ensures (a + b) * c == a * c + b * c
  {
  }

  lemma DistributeRight(a: int, b: int, c: int)
    ensures a * (b + c) == a * b + a * c
  {
  }

  /** The units left over after truncation are fewer than the parts. */
  lemma LeftoverIsSmall(m: nat, ws: seq<U64>)
    requires Sum(ws) > 0
    ensures var total := Sum(ws);
            var left := m - Sum(Shares(m, ws, total));
            && Sum(Rests(m, ws, total)) == left * total
            && 0 <= left < |ws|
  {
    var total := Sum(ws);
    SharesAndRests(m, ws, total);
    RestsAreSmall(m, ws, total);
    SumBounds(Rests(m, ws, total), total - 1);
    LeftFromSums(m, total, Sum(Shares(m, ws, total)), Sum(Rests(m, ws, total)), |ws|);
  }

  lemma RestsAreSmall(m: nat, ws: seq<U64>, total: nat)
    requires total > 0
    ensures forall i :: 0 <= i < |ws| ==> 0 <= Rests(m, ws, total)[i] <= total - 1
  {
    forall i | 0 <= i < |ws| ensures 0 <= Rests(m, ws, total)[i] <= total - 1 {
      ShareAndRest(m, ws[i], total);
    }
  }

  lemma LeftFromSums(m: int, total: nat, given: int, rest: int, n: nat)
    requires total > 0 && n > 0 && given * total + rest == m * total && 0 <= rest <= n * (total - 1)
    ensures rest == (m - given) * total && 0 <= m - given < n
  {
    assert (m - given) * total == m * total - given * total;
    Quotient(m - given, total, n);
  }

  lemma Quotient(left: int, total: nat, n: nat)
    requires total > 0 && n > 0 && 0 <= left * total <= n * (total - 1)
    ensures 0 <= left < n
  {
    DistributeRight(n, total, -1);
    if left >= n {
      MulKeepsOrder(n, left, total);
    }
    if left < 0 {
      MulKeepsOrder(left, -1, total);
    }
  }

  lemma MulKeepsOrder(a: int, b: int, c: nat)
    requires a <= b
    ensures a * c <= b * c
  {
    Nonneg(b - a, c);
    Distribute(a, b - a, c);
  }

  // ---------- what an allocation is ----------

  /** A larger discarded part comes first; equal ones by position. */
  predicate Precedes(rests: seq<int>, i: nat, j: nat)
    requires i < |rests| && j < |rests|
  {
    rests[i] > rests[j] || (rests[i] == rests[j] && i < j)
  }

  /** Whoever got the extra unit comes before whoever did not. */
  ghost predicate LargestFirst(rests: seq<int>, bumps: seq<int>)
    requires |rests| == |bumps|
  {
    forall i, j :: 0 <= i < |bumps| && 0 <= j < |bumps| && bumps[i] == 1 && bumps[j] == 0 ==> Precedes(rests, i, j)
  }

  /** One extra unit or none. */
  ghost predicate AtMostOne(bumps: seq<int>)
  {
    forall i :: 0 <= i < |bumps| ==> bumps[i] == 0 || bumps[i] == 1
  }

  /** What each part was given beyond its truncated share. */
  function Bumps(shares: seq<int>, parts: seq<int>): (b: seq<int>)
    requires |shares| == |parts|
    ensures |b| == |parts| && forall i :: 0 <= i < |parts| ==> b[i] == parts[i] - shares[i]
  {
    seq(|parts|, i requires 0 <= i < |parts| => parts[i] - shares[i])
  }

  /**
   Largest-remainder apportionment of a magnitude: every part is its truncated share or one more, the
   parts add up exactly, and the extra units go to the largest discarded parts, ties by position.
   */
  ghost predicate IsApportioned(m: nat, ws: seq<U64>, parts: seq<int>)
    requires Sum(ws) > 0
  {
    && |parts| == |ws|
    && Sum(parts) == m
    && var bumps := Bumps(Shares(m, ws, Sum(ws)), parts);
       AtMostOne(bumps) && LargestFirst(Rests(m, ws, Sum(ws)), bumps)
  }

  lemma {:induction false} BumpsAddUp(shares: seq<int>, parts: seq<int>)
    requires |shares| == |parts|
    ensures Sum(Bumps(shares, parts)) == Sum(parts) - Sum(shares)
  {
    if parts != [] {
      var n := |parts| - 1;
      BumpsAddUp(shares[..n], parts[..n]);
      assert Bumps(shares, parts)[..n] == Bumps(shares[..n], parts[..n]);
    }
  }

  /** There is only one such apportionment. */
  lemma ApportionmentIsUnique(m: nat, ws: seq<U64>, p: seq<int>, q: seq<int>)
    requires Sum(ws) > 0 && IsApportioned(m, ws, p) && IsApportioned(m, ws, q)
    ensures p == q
  {
    var shares := Shares(m, ws, Sum(ws));
    BumpsAddUp(shares, p);
    BumpsAddUp(shares, q);
    LargestFirstIsUnique(Rests(m, ws, Sum(ws)), Bumps(shares, p), Bumps(shares, q));
    forall i | 0 <= i < |ws| ensures p[i] == q[i] {
      assert Bumps(shares, p)[i] == Bumps(shares, q)[i];
    }
  }

  lemma LargestFirstIsUnique(rests: seq<int>, x: seq<int>, y: seq<int>)
    requires |rests| == |x| == |y| && Sum(x) == Sum(y)
    requires AtMostOne(x) && AtMostOne(y) && LargestFirst(rests, x) && LargestFirst(rests, y)
    ensures x == y
  {
    forall i | 0 <= i < |x| ensures x[i] >= y[i] {
      NoneBelow(rests, x, y, i);
    }
    SumMonotone(y, x);
  }

  lemma NoneBelow(rests: seq<int>, x: seq<int>, y: seq<int>, i: nat)
    requires |rests| == |x| == |y| && i < |x| && Sum(x) == Sum(y)
    requires AtMostOne(x) && AtMostOne(y) && LargestFirst(rests, x) && LargestFirst(rests, y)
    ensures x[i] >= y[i]
  {
    if x[i] < y[i] {
      OppositeBump(x, y, i);
    }
  }

  lemma OppositeBump(x: seq<int>, y: seq<int>, i: nat)
    requires |x| == |y| && i < |x| && x[i] < y[i] && Sum(x) == Sum(y)
    ensures exists j :: 0 <= j < |x| && x[j] > y[j]
  {
    if forall j :: 0 <= j < |x| ==> x[j] <= y[j] {
      SumMonotone(x, y);
    }
  }

  // ---------- what follows from it ----------

  /** Where the rests make up the bumps exactly, no bump is spent where nothing was discarded. */
  lemma NothingDiscardedNothingAdded(rests: seq<int>, bumps: seq<int>, total: nat, i: nat)
    requires |rests| == |bumps| && i < |rests| && AtMostOne(bumps) && LargestFirst(rests, bumps)
    requires forall k :: 0 <= k < |rests| ==> 0 <= rests[k] < total
    requires Sum(rests) == Sum(bumps) * total && rests[i] == 0
    ensures bumps[i] == 0
  {
    if bumps[i] == 1 {
      forall k | 0 <= k < |rests| && bumps[k] == 0 ensures rests[k] <= 0 {
        assert Precedes(rests, i, k);
      }
      RestsBelowBumps(rests, bumps, total - 1);
      SumBounds(bumps, 1);
      FullRestsAreMore(Sum(bumps), total);
    }
  }

  lemma FullRestsAreMore(bumps: nat, total: nat)
    requires bumps > 0
    ensures bumps * total > (total - 1) * bumps
  {
    assert (total - 1) * bumps == total * bumps - bumps;
  }

  /** The discarded parts make up the extra units exactly. */
  lemma RestsMakeUpBumps(m: nat, ws: seq<U64>, parts: seq<int>)
    requires Sum(ws) > 0 && |parts| == |ws| && Sum(parts) == m
    ensures Sum(Rests(m, ws, Sum(ws))) == Sum(Bumps(Shares(m, ws, Sum(ws)), parts)) * Sum(ws)
  {
    BumpsAddUp(Shares(m, ws, Sum(ws)), parts);
    LeftoverIsSmall(m, ws);
  }

  /** An exact share gets no extra unit; a weight of zero, in particular, gets nothing. */
  lemma ExactShareGetsNoMore(m: nat, ws: seq<U64>, parts: seq<int>, i: nat)
    requires Sum(ws) > 0 && IsApportioned(m, ws, parts) && i < |ws|
    requires ws[i] == 0 || Rest(m, ws[i], Sum(ws)) == 0
    ensures parts[i] == Share(m, ws[i], Sum(ws))
    ensures ws[i] == 0 ==> parts[i] == 0
  {
    ZeroWeight(m, Sum(ws));
    RestsMakeUpBumps(m, ws, parts);
    RestsAreSmall(m, ws, Sum(ws));
    NothingDiscardedNothingAdded(Rests(m, ws, Sum(ws)), Bumps(Shares(m, ws, Sum(ws)), parts), Sum(ws), i);
  }

  lemma ZeroWeight(m: nat, total: nat)
    requires total > 0
    ensures Share(m, 0, total) == 0 && Rest(m, 0, total) == 0
  {
    assert m * 0 == 0;
  }

  lemma {:induction false} RestsBelowBumps(rests: seq<int>, bumps: seq<int>, most: int)
    requires |rests| == |bumps| && AtMostOne(bumps)
    requires forall k :: 0 <= k < |rests| ==> rests[k] <= if bumps[k] == 0 then 0 else most
    ensures Sum(rests) <= most * Sum(bumps)
  {
    if rests != [] {
      var n := |rests| - 1;
      RestsBelowBumps(rests[..n], bumps[..n], most);
      DistributeRight(most, Sum(bumps[..n]), bumps[n]);
    }
  }

  /** A larger weight never gets a smaller part. */
  lemma LargerWeightNotLess(m: nat, ws: seq<U64>, parts: seq<int>, i: nat, j: nat)
    requires Sum(ws) > 0 && IsApportioned(m, ws, parts)
    requires i < |ws| && j < |ws| && ws[i] > ws[j]
    ensures parts[i] >= parts[j]
  {
    if m == 0 {
      PartsAreSmall(0, ws, parts);
    } else {
      var total := Sum(ws);
      WeightsInOrder(m, ws[j], ws[i], total);
      NoInversion(Shares(m, ws, total), Rests(m, ws, total), parts, i, j);
    }
  }

  lemma NoInversion(shares: seq<int>, rests: seq<int>, parts: seq<int>, i: nat, j: nat)
    requires |shares| == |rests| == |parts| && i < |parts| && j < |parts|
    requires AtMostOne(Bumps(shares, parts)) && LargestFirst(rests, Bumps(shares, parts))
    requires shares[j] <= shares[i] && (shares[j] == shares[i] ==> rests[j] < rests[i])
    ensures parts[i] >= parts[j]
  {
    var bumps := Bumps(shares, parts);
    assert bumps[i] == parts[i] - shares[i] && bumps[j] == parts[j] - shares[j];
  }

  lemma WeightsInOrder(m: nat, small: nat, large: nat, total: nat)
    requires total > 0 && small < large
    ensures Share(m, small, total) <= Share(m, large, total)
    ensures Share(m, small, total) == Share(m, large, total) && m > 0 ==> Rest(m, small, total) < Rest(m, large, total)
  {
    Nonneg(m, large - small);
    DistributeRight(m, small, large - small);
    QuotientsInOrder(m * small, m * large, total);
    if m > 0 {
      Nonneg(m - 1, large - small);
      Distribute(m - 1, 1, large - small);
    }
  }

  /** Division keeps order, and equal quotients keep it in the remainders. */
  lemma QuotientsInOrder(a: nat, b: nat, total: nat)
    requires total > 0 && a <= b
    ensures a / total <= b / total
    ensures a / total == b / total ==> b % total - a % total == b - a
  {
    var p, q := a / total, b / total;
    Distribute(q, 1, total);
    if p > q {
      MulKeepsOrder(q + 1, p, total);
    }
  }

  /** Equal weights: the parts differ by at most one unit, the larger ones first. */
  lemma EvenSplit(m: nat, ws: seq<U64>, parts: seq<int>, i: nat, j: nat)
    requires Sum(ws) > 0 && IsApportioned(m, ws, parts)
    requires i < j < |ws| && ws[i] == ws[j]
    ensures parts[j] <= parts[i] <= parts[j] + 1
  {
    var bumps := Bumps(Shares(m, ws, Sum(ws)), parts);
    assert !Precedes(Rests(m, ws, Sum(ws)), j, i);
  }

  // ---------- one part taking everything ----------

  /**
   When a single part would receive the whole magnitude of the most negative amount: every other weight
   is zero, or the part has the largest weight there is and the only other unit of weight comes after it.
   */
  predicate TakesItAll(ws: seq<U64>, i: nat)
    requires i < |ws|
  {
    || Sum(ws) == ws[i]
    || (ws[i] == U64_MAX && Sum(ws) - ws[i] == 1 && exists j :: i < j < |ws| && ws[j] == 1)
  }

  const MAGNITUDE_OF_MIN: nat := 0x8000_0000_0000_0000

  lemma WholeWeight(m: nat, ws: seq<U64>, parts: seq<int>, i: nat)
    requires Sum(ws) > 0 && IsApportioned(m, ws, parts) && i < |ws|
    ensures Sum(ws) == ws[i] ==> parts[i] == m
  {
    if Sum(ws) == ws[i] {
      Multiple(m, ws[i]);
      ExactShareGetsNoMore(m, ws, parts, i);
    }
  }

  lemma Multiple(m: nat, w: nat)
    requires w > 0
    ensures Share(m, w, w) == m && Rest(m, w, w) == 0
  {
    ShareAndRest(m, w, w);
    SameQuotient(m, Share(m, w, w), w, Rest(m, w, w));
  }

  lemma SameQuotient(m: int, q: int, w: nat, rest: nat)
    requires w > 0 && m * w == q * w + rest && rest < w
    ensures q == m && rest == 0
  {
    assert (m - q) * w == rest;
    if m - q >= 1 {
      Nonneg(m - q - 1, w);
      Distribute(m - q - 1, 1, w);
    } else if m - q <= -1 {
      Nonneg(q - m - 1, w);
      Distribute(q - m - 1, 1, w);
    }
  }

  /** Others must have weights that leave exactly these sums. */
  lemma {:induction false} TwoWeights(ws: seq<U64>, i: nat, j: nat)
    requires i < |ws| && j < |ws| && i != j
    ensures ws[i] <= Sum(ws) - ws[j]
    ensures ws[i] == Sum(ws) - ws[j] ==> forall k :: 0 <= k < |ws| && k != i && k != j ==> ws[k] == 0
  {
    var z := ws[i := 0][j := 0];
    SumUpdate(ws, i, 0);
    SumUpdate(ws[i := 0], j, 0);
    SumBounds(z, U64_MAX);
    forall k | 0 <= k < |ws| && k != i && k != j ensures z[k] == ws[k] {}
  }

  lemma LargestWeightBeforeAUnit(ws: seq<U64>, parts: seq<int>, i: nat, j: nat)
    requires i < j < |ws| && ws[i] == U64_MAX && ws[j] == 1 && Sum(ws) == U64_MAX + 1
    requires IsApportioned(MAGNITUDE_OF_MIN, ws, parts)
    ensures parts[i] == MAGNITUDE_OF_MIN
  {
    var m, total := MAGNITUDE_OF_MIN, Sum(ws);
    TwoWeights(ws, i, j);
    LargestShare();
    forall k | 0 <= k < |ws| && k != i && k != j ensures parts[k] == 0 {
      ExactShareGetsNoMore(m, ws, parts, k);
    }
    SumOfTwo(parts, i, j);
    var bumps := Bumps(Shares(m, ws, total), parts);
    assert bumps[i] + bumps[j] == 1;
    assert !Precedes(Rests(m, ws, total), j, i);
    assert bumps[i] == 1;
  }

  lemma LargestShare()
    ensures Share(MAGNITUDE_OF_MIN, U64_MAX, U64_MAX + 1) == MAGNITUDE_OF_MIN - 1
    ensures Rest(MAGNITUDE_OF_MIN, U64_MAX, U64_MAX + 1) == MAGNITUDE_OF_MIN
    ensures Share(MAGNITUDE_OF_MIN, 1, U64_MAX + 1) == 0
    ensures Rest(MAGNITUDE_OF_MIN, 1, U64_MAX + 1) == MAGNITUDE_OF_MIN
  {
  }

  lemma {:induction false} SumOfTwo(s: seq<int>, i: nat, j: nat)
    requires i < |s| && j < |s| && i != j
    requires forall k :: 0 <= k < |s| && k != i && k != j ==> s[k] == 0
    ensures Sum(s) == s[i] + s[j]
  {
    var z := s[i := 0][j := 0];
    SumUpdate(s, i, 0);
    SumUpdate(s[i := 0], j, 0);
    SumBounds(z, 0);
  }

  /** A part that takes everything has a weight of that kind. */
  lemma OnlyThenAllIsTaken(ws: seq<U64>, parts: seq<int>, i: nat)
    requires Sum(ws) > 0 && IsApportioned(MAGNITUDE_OF_MIN, ws, parts) && i < |ws|
    requires parts[i] == MAGNITUDE_OF_MIN
    ensures TakesItAll(ws, i)
  {
    var total := Sum(ws);
    if total != ws[i] {
      var j := SomeOtherWeight(ws, i);
      TwoWeights(ws, i, j);
      TakenWithOthers(MAGNITUDE_OF_MIN, ws, parts, i, j);
      SharesTheRest(ws[i], ws[j], total, Rest(MAGNITUDE_OF_MIN, ws[i], total), Rest(MAGNITUDE_OF_MIN, ws[j], total));
    }
  }

  /** What taking everything says about the rests when another weight is not zero. */
  lemma TakenWithOthers(m: nat, ws: seq<U64>, parts: seq<int>, i: nat, j: nat)
    requires m > 0 && Sum(ws) > 0 && IsApportioned(m, ws, parts)
    requires i < |ws| && j < |ws| && i != j && parts[i] == m && ws[i] < Sum(ws)
    ensures m * ws[i] == (m - 1) * Sum(ws) + Rest(m, ws[i], Sum(ws))
    ensures m * ws[j] == Rest(m, ws[j], Sum(ws))
    ensures Precedes(Rests(m, ws, Sum(ws)), i, j)
  {
    OneBumpTakesIt(m, ws, parts, i, j);
    ShareGiven(m, ws[i], Sum(ws), m - 1);
    ShareGiven(m, ws[j], Sum(ws), 0);
  }

  lemma OneBumpTakesIt(m: nat, ws: seq<U64>, parts: seq<int>, i: nat, j: nat)
    requires m > 0 && Sum(ws) > 0 && IsApportioned(m, ws, parts)
    requires i < |ws| && j < |ws| && i != j && parts[i] == m && ws[i] < Sum(ws)
    ensures Share(m, ws[i], Sum(ws)) == m - 1 && Share(m, ws[j], Sum(ws)) == 0
    ensures Precedes(Rests(m, ws, Sum(ws)), i, j)
  {
    var bumps := Bumps(Shares(m, ws, Sum(ws)), parts);
    OthersGetNothing(m, ws, parts, i);
    ShareIsLess(m, ws[i], Sum(ws));
    assert bumps[j] == parts[j] - Share(m, ws[j], Sum(ws));
    assert bumps[i] == parts[i] - Share(m, ws[i], Sum(ws));
    assert bumps[i] == 1 && bumps[j] == 0;
  }

  lemma ShareGiven(m: nat, w: nat, total: nat, q: int)
    requires total > 0 && Share(m, w, total) == q
    ensures m * w == q * total + Rest(m, w, total)
  {
    ShareAndRest(m, w, total);
  }

  lemma ShareIsLess(m: nat, w: nat, total: nat)
    requires m > 0 && w < total
    ensures Share(m, w, total) < m
  {
    ShareIsSmall(m, w, total);
    if Share(m, w, total) == m {
      ShareGiven(m, w, total, m);
      WholeNeedsAll(m, w, total, Rest(m, w, total));
    }
  }

  lemma WholeNeedsAll(m: nat, w: nat, total: nat, rest: nat)
    requires m > 0 && m * w == m * total + rest
    ensures w >= total
  {
    DistributeRight(m, total - w, w);
    if w < total {
      Nonneg(m - 1, total - w);
      Distribute(m - 1, 1, total - w);
    }
  }

  /** The bumped part leaves room for one unit of weight beside the largest there is, and no more. */
  lemma SharesTheRest(w: U64, v: U64, total: nat, mine: nat, other: nat)
    requires v > 0 && w <= total - v && mine >= other
    requires MAGNITUDE_OF_MIN * w == (MAGNITUDE_OF_MIN - 1) * total + mine
    requires MAGNITUDE_OF_MIN * v == other
    ensures w == U64_MAX && v == 1 && total - w == 1 && mine == other
  {
  }

  lemma OthersGetNothing(m: nat, ws: seq<U64>, parts: seq<int>, i: nat)
    requires Sum(ws) > 0 && IsApportioned(m, ws, parts) && i < |ws| && parts[i] == m
    ensures forall k :: 0 <= k < |ws| && k != i ==> parts[k] == 0
  {
    var z := parts[i := 0];
    SumUpdate(parts, i, 0);
    PartsAreSmall(m, ws, parts);
    SumBounds(z, m + 1);
    forall k | 0 <= k < |ws| && k != i ensures parts[k] == 0 {
      assert z[k] == parts[k];
    }
  }

  lemma PartsAreSmall(m: nat, ws: seq<U64>, parts: seq<int>)
    requires Sum(ws) > 0 && IsApportioned(m, ws, parts)
    ensures forall k :: 0 <= k < |parts| ==> 0 <= parts[k] <= m
  {
    var bumps := Bumps(Shares(m, ws, Sum(ws)), parts);
    forall k | 0 <= k < |parts| ensures 0 <= parts[k] <= m + 1 {
      assert bumps[k] == 0 || bumps[k] == 1;
      PartIsSmall(m, ws, k);
    }
    SumBounds(parts, m + 1);
  }

  lemma PartIsSmall(m: nat, ws: seq<U64>, k: nat)
    requires Sum(ws) > 0 && k < |ws|
    ensures Share(m, ws[k], Sum(ws)) <= m
  {
    SumBounds(ws, U64_MAX);
    ShareIsSmall(m, ws[k], Sum(ws));
  }

  lemma ShareIsSmall(m: nat, w: nat, total: nat)
    requires 0 < total && w <= total
    ensures Share(m, w, total) <= m
  {
    ShareAndRest(m, w, total);
    MulKeepsOrder(w, total, m);
    Distribute(m, 1, total);
    if Share(m, w, total) > m {
      MulKeepsOrder(m + 1, Share(m, w, total), total);
    }
  }

  lemma SomeOtherWeight(ws: seq<U64>, i: nat) returns (j: nat)
    requires i < |ws| && Sum(ws) != ws[i]
    ensures j < |ws| && j != i && ws[j] > 0
  {
    var z := ws[i := 0];
    SumUpdate(ws, i, 0);
    if forall k :: 0 <= k < |z| ==> z[k] == 0 {
      SumBounds(z, 0);
    }
    j :| 0 <= j < |z| && z[j] != 0;
  }

  // ---------- the algorithm ----------

  /** The order the leftover units are handed out in; an index past the end discards nothing. */
  function RestAt(rests: seq<int>, i: nat): int { if i < |rests| then rests[i] else 0 }

  function HandOutOrder(rests: seq<int>): (nat, nat) -> bool
  {
    (i: nat, j: nat) => RestAt(rests, i) > RestAt(rests, j) || (RestAt(rests, i) == RestAt(rests, j) && i <= j)
  }

  lemma HandOutOrderIsTotal(rests: seq<int>)
    ensures TotalPreorder(HandOutOrder(rests))
  {
  }

  function Indices(n: nat): (r: seq<nat>)
    ensures |r| == n && forall i :: 0 <= i < n ==> r[i] == i
  {
    seq(n, i requires 0 <= i < n => i)
  }

  /** The indices, largest discarded part first. */
  function Ranked(rests: seq<int>): (order: seq<nat>)
    ensures |order| == |rests|
    ensures multiset(order) == multiset(Indices(|rests|))
  {
    HandOutOrderIsTotal(rests);
    Sort(HandOutOrder(rests), Indices(|rests|))
  }

  /** Every index below `n`, once. */
  ghost predicate IsPermutation(order: seq<nat>, n: nat)
  {
    && (forall k :: 0 <= k < |order| ==> order[k] < n)
    && (forall i :: 0 <= i < n ==> i in order)
    && (forall j, k :: 0 <= j < k < |order| ==> order[j] != order[k])
  }

  lemma {:induction false} OnceEach(n: nat, x: nat)
    ensures multiset(Indices(n))[x] == if x < n then 1 else 0
  {
    if n > 0 {
      OnceEach(n - 1, x);
      assert Indices(n) == Indices(n - 1) + [n - 1];
    }
  }

  lemma RearrangedIndices(order: seq<nat>, n: nat)
    requires multiset(order) == multiset(Indices(n))
    ensures IsPermutation(order, n)
  {
    SameElements(order, Indices(n));
    forall k | 0 <= k < |order| ensures order[k] < n {
      assert order[k] in Indices(n);
    }
    forall i | 0 <= i < n ensures i in order {
      assert Indices(n)[i] == i;
    }
    forall j, k | 0 <= j < k < |order| ensures order[j] != order[k] {
      Apart(order, n, j, k);
    }
  }

  lemma Apart(order: seq<nat>, n: nat, j: nat, k: nat)
    requires multiset(order) == multiset(Indices(n)) && j < k < |order|
    ensures order[j] != order[k]
  {
    OnceEach(n, order[j]);
    var rest := order[..j] + order[j + 1..];
    DropAt(order, j);
    assert rest[k - 1] == order[k];
    assert order[k] in multiset(rest);
  }

  /** Larger discarded parts stand first. */
  ghost predicate LargestRestsFirst(rests: seq<int>, order: seq<nat>)
    requires forall k :: 0 <= k < |order| ==> order[k] < |rests|
  {
    forall j, k :: 0 <= j < k < |order| ==> Precedes(rests, order[j], order[k])
  }

  lemma RankedMeans(rests: seq<int>)
    ensures IsPermutation(Ranked(rests), |rests|) && LargestRestsFirst(rests, Ranked(rests))
  {
    var order := Ranked(rests);
    RearrangedIndices(order, |rests|);
    RankedIsSorted(rests);
    forall j, k | 0 <= j < k < |order| ensures Precedes(rests, order[j], order[k]) {
      assert HandOutOrder(rests)(order[j], order[k]);
    }
  }

  lemma RankedIsSorted(rests: seq<int>)
    ensures Sorted(HandOutOrder(rests), Ranked(rests))
  {
    HandOutOrderIsTotal(rests);
  }

  /** One unit was added at each chosen index, and nowhere else. */
  ghost predicate AddedAt(was: seq<int>, now: seq<int>, chosen: seq<nat>)
    requires |was| == |now|
  {
    forall i :: 0 <= i < |was| ==> now[i] == was[i] + if i in chosen then 1 else 0
  }

  /** Hand one more unit to each of the first `left` places in the order, in place. */
  method HandOut(shares: array<int>, rests: seq<int>, left: nat)
    requires left <= shares.Length == |rests|
    modifies shares
    ensures Sum(shares[..]) == Sum(old(shares[..])) + left
    ensures var bumps := Bumps(old(shares[..]), shares[..]);
            AtMostOne(bumps) && LargestFirst(rests, bumps)
  {
    ghost var was := shares[..];
    var order := Ranked(rests);
    RankedMeans(rests);
    AddUnits(shares, order, left);
    FirstPlacesAreLargest(rests, was, shares[..], order, left);
  }

  method AddUnits(shares: array<int>, order: seq<nat>, left: nat)
    requires left <= |order| && IsPermutation(order, shares.Length)
    modifies shares
    ensures Sum(shares[..]) == Sum(old(shares[..])) + left
    ensures AddedAt(old(shares[..]), shares[..], order[..left])
  {
    ghost var was := shares[..];
    var k := 0;
    while k < left
      invariant 0 <= k <= left
      invariant AddedAt(was, shares[..], order[..k])
      invariant Sum(shares[..]) == Sum(was) + k
    {
      var index := order[k];
      ghost var before := shares[..];
      AddOne(was, before, order, k);
      SumUpdate(before, index, before[index] + 1);
      shares[index] := shares[index] + 1;
      assert shares[..] == before[index := before[index] + 1];
      k := k + 1;
    }
  }

  lemma AddOne(was: seq<int>, before: seq<int>, order: seq<nat>, k: nat)
    requires |was| == |before| && IsPermutation(order, |was|) && k < |order|
    requires AddedAt(was, before, order[..k])
    ensures AddedAt(was, before[order[k] := before[order[k]] + 1], order[..k + 1])
  {
    assert order[k] !in order[..k];
    assert order[..k + 1] == order[..k] + [order[k]];
  }

  lemma InPrefix(order: seq<nat>, left: nat, q: nat)
    requires q < |order| && left <= |order|
    ensures q < left ==> order[q] in order[..left]
  {
    if q < left {
      assert order[..left][q] == order[q];
    }
  }

  lemma FirstPlacesAreLargest(rests: seq<int>, was: seq<int>, now: seq<int>, order: seq<nat>, left: nat)
    requires |was| == |now| == |rests| && left <= |order|
    requires IsPermutation(order, |rests|) && LargestRestsFirst(rests, order)
    requires AddedAt(was, now, order[..left])
    ensures AtMostOne(Bumps(was, now)) && LargestFirst(rests, Bumps(was, now))
  {
    var bumps := Bumps(was, now);
    forall i, j | 0 <= i < |bumps| && 0 <= j < |bumps| && bumps[i] == 1 && bumps[j] == 0
      ensures Precedes(rests, i, j)
    {
      var p :| 0 <= p < left && order[..left][p] == i;
      assert j in order;
      var q :| 0 <= q < |order| && order[q] == j;
      InPrefix(order, left, q);
      assert p < q;
    }
  }

  /** The weights added up; the 128-bit sum cannot overflow. */
  method TotalWeight(weights: seq<U64>) returns (total: nat)
    requires |weights| <= U64_MAX
    ensures total == Sum(weights) <= U128_MAX
  {
    total := 0;
    var i := 0;
    while i < |weights|
      invariant 0 <= i <= |weights|
      invariant total == Sum(weights[..i]) <= i * U64_MAX
    {
      SumNext(weights, i);
      Distribute(i, 1, U64_MAX);
      MulKeepsOrder(i + 1, U64_MAX, U64_MAX);
      assert total + weights[i] <= U128_MAX;
      total := total + weights[i];
      i := i + 1;
    }
    MulKeepsOrder(i, U64_MAX, U64_MAX);
    assert weights[..i] == weights;
  }

  /** No 128-bit product of a magnitude and a weight overflows. */
  lemma ProductFits(m: nat, w: U64)
    requires m <= MAGNITUDE_OF_MIN
    ensures 0 <= m * w <= U128_MAX
  {
    Nonneg(m, w);
    MulKeepsOrder(m, MAGNITUDE_OF_MIN, w);
  }

  /** The truncated shares and what they discard, part by part. */
  method Truncate(m: nat, weights: seq<U64>, total: nat) returns (shares: array<int>, rests: seq<int>)
    requires total > 0 && m <= MAGNITUDE_OF_MIN
    ensures fresh(shares) && shares[..] == Shares(m, weights, total)
    ensures rests == Rests(m, weights, total)
  {
    shares := new int[|weights|];
    rests := [];
    var i := 0;
    while i < |weights|
      invariant 0 <= i <= |weights| == shares.Length
      invariant |rests| == i
      invariant forall k :: 0 <= k < i ==> shares[k] == Share(m, weights[k], total)
      invariant forall k :: 0 <= k < i ==> rests[k] == Rest(m, weights[k], total)
    {
      ProductFits(m, weights[i]);
      var product: nat := m * weights[i];
      assert product <= U128_MAX;
      shares[i] := product / total;
      rests := rests + [product % total];
      i := i + 1;
    }
  }

  /** A magnitude with the sign of the amount it came from. */
  function Signed(negative: bool, magnitude: int): int { if negative then -magnitude else magnitude }

  function Magnitudes(a: Amount, parts: seq<Amount>): (r: seq<int>)
    ensures |r| == |parts| && forall i :: 0 <= i < |parts| ==> r[i] == Signed(a.minor < 0, parts[i].minor)
  {
    seq(|parts|, i requires 0 <= i < |parts| => Signed(a.minor < 0, parts[i].minor))
  }

  /** The parts of an amount: its magnitude apportioned, each part in its currency and with its sign. */
  ghost predicate IsAllocation(a: Amount, ws: seq<U64>, parts: seq<Amount>)
    requires Sum(ws) > 0
  {
    && |parts| == |ws|
    && (forall i :: 0 <= i < |parts| ==> parts[i].currency == a.currency)
    && IsApportioned(Abs(a.minor), ws, Magnitudes(a, parts))
  }

  /** One part would have to hold what a signed 64-bit amount cannot. */
  predicate PartTooLarge(a: Amount, ws: seq<U64>)
  {
    a.minor == I64_MIN && exists i :: 0 <= i < |ws| && TakesItAll(ws, i)
  }

  /** `u128` to `i64`, and the sign put back. */
  method WithSign(a: Amount, shares: array<int>) returns (r: Result<seq<Amount>, MoneyError>)
    requires forall i :: 0 <= i < shares.Length ==> 0 <= shares[i] <= MAGNITUDE_OF_MIN
    ensures r.Err? <==> exists i :: 0 <= i < shares.Length && shares[i] == MAGNITUDE_OF_MIN
    ensures r.Err? ==> r.error == Overflow
    ensures r.Ok? ==> |r.value| == shares.Length
    ensures r.Ok? ==> Magnitudes(a, r.value) == shares[..]
    ensures r.Ok? ==> forall i :: 0 <= i < |r.value| ==> r.value[i].currency == a.currency
  {
    var parts: seq<Amount> := [];
    var i := 0;
    while i < shares.Length
      invariant 0 <= i <= shares.Length && |parts| == i
      invariant forall k :: 0 <= k < i ==> shares[k] != MAGNITUDE_OF_MIN
      invariant forall k :: 0 <= k < i ==> parts[k] == Amount(Signed(a.minor < 0, shares[k]), a.currency)
    {
      if shares[i] > I64_MAX {
        return Err(Overflow);
      }
      parts := parts + [Amount(Signed(a.minor < 0, shares[i]), a.currency)];
      i := i + 1;
    }
    return Ok(parts);
  }

  /**
   `Money::allocate`. It refuses weights that add up to nothing, and an amount of which one part would
   not fit; anything else it divides exactly, by largest remainders.
   */
  method Allocate(a: Amount, weights: seq<U64>) returns (r: Result<seq<Amount>, MoneyError>)
    requires |weights| <= U64_MAX
    ensures r == Err(InvalidWeights) <==> Sum(weights) == 0
    ensures r == Err(Overflow) <==> Sum(weights) > 0 && PartTooLarge(a, weights)
    ensures r.Err? ==> r.error == InvalidWeights || r.error == Overflow
    ensures r.Ok? ==> Sum(weights) > 0 && IsAllocation(a, weights, r.value)
  {
    if weights == [] {
      return Err(InvalidWeights);
    }
    var total := TotalWeight(weights);
    if total == 0 {
      return Err(InvalidWeights);
    }
    var magnitude: nat := Abs(a.minor);
    var shares, rests := Truncate(magnitude, weights, total);
    LeftoverIsSmall(magnitude, weights);
    var distributed := SumOf(shares);
    var left: nat := magnitude - distributed;
    HandOut(shares, rests, left);
    ghost var parts := shares[..];
    assert IsApportioned(magnitude, weights, parts);
    PartsAreSmall(magnitude, weights, parts);
    WhenOneTakesAll(a, weights, parts);
    r := WithSign(a, shares);
  }

  method SumOf(shares: array<int>) returns (sum: int)
    ensures sum == Sum(shares[..])
  {
    sum := 0;
    var i := 0;
    while i < shares.Length
      invariant 0 <= i <= shares.Length && sum == Sum(shares[..i])
    {
      assert shares[..i + 1][..i] == shares[..i];
      sum := sum + shares[i];
      i := i + 1;
    }
    assert shares[..i] == shares[..];
  }

  lemma WhenOneTakesAll(a: Amount, ws: seq<U64>, parts: seq<int>)
    requires Sum(ws) > 0 && IsApportioned(Abs(a.minor), ws, parts)
    ensures PartTooLarge(a, ws) <==> exists i :: 0 <= i < |parts| && parts[i] == MAGNITUDE_OF_MIN
  {
    PartsAreSmall(Abs(a.minor), ws, parts);
    if i :| 0 <= i < |parts| && parts[i] == MAGNITUDE_OF_MIN {
      OnlyThenAllIsTaken(ws, parts, i);
    }
    if PartTooLarge(a, ws) {
      var i :| 0 <= i < |ws| && TakesItAll(ws, i);
      AllIsTaken(ws, parts, i);
    }
  }

  lemma AllIsTaken(ws: seq<U64>, parts: seq<int>, i: nat)
    requires Sum(ws) > 0 && IsApportioned(MAGNITUDE_OF_MIN, ws, parts) && i < |ws| && TakesItAll(ws, i)
    ensures parts[i] == MAGNITUDE_OF_MIN
  {
    if Sum(ws) == ws[i] {
      WholeWeight(MAGNITUDE_OF_MIN, ws, parts, i);
    } else {
      var j :| i < j < |ws| && ws[j] == 1;
      LargestWeightBeforeAUnit(ws, parts, i, j);
    }
  }

  // ---------- what callers rely on ----------

  function Minors(parts: seq<Amount>): (r: seq<int>)
    ensures |r| == |parts| && forall i :: 0 <= i < |parts| ==> r[i] == parts[i].minor
  {
    seq(|parts|, i requires 0 <= i < |parts| => parts[i].minor)
  }

  lemma {:induction false} SumNegated(x: seq<int>, y: seq<int>)
    requires |x| == |y| && forall i :: 0 <= i < |x| ==> x[i] == -y[i]
    ensures Sum(x) == -Sum(y)
  {
    if x != [] {
      SumNegated(x[..|x| - 1], y[..|y| - 1]);
    }
  }

  /** The parts always add up to exactly the amount. */
  lemma PartsAddUp(a: Amount, ws: seq<U64>, parts: seq<Amount>)
    requires Sum(ws) > 0 && IsAllocation(a, ws, parts)
    ensures Sum(Minors(parts)) == a.minor
  {
    if a.minor < 0 {
      SumNegated(Minors(parts), Magnitudes(a, parts));
    } else {
      assert Minors(parts) == Magnitudes(a, parts);
    }
  }

  /** The terminal and the server cannot disagree. */
  lemma AllocationIsUnique(a: Amount, ws: seq<U64>, x: seq<Amount>, y: seq<Amount>)
    requires Sum(ws) > 0 && IsAllocation(a, ws, x) && IsAllocation(a, ws, y)
    ensures x == y
  {
    ApportionmentIsUnique(Abs(a.minor), ws, Magnitudes(a, x), Magnitudes(a, y));
    forall i | 0 <= i < |x| ensures x[i] == y[i] {
      assert Magnitudes(a, x)[i] == Magnitudes(a, y)[i];
    }
  }

  /** The negated amount is divided into the negated parts. */
  lemma AllocationIsMirrored(a: Amount, b: Amount, ws: seq<U64>, x: seq<Amount>, y: seq<Amount>, i: nat)
    requires Sum(ws) > 0 && IsAllocation(a, ws, x) && IsAllocation(b, ws, y)
    requires b.minor == 0 - a.minor && i < |ws|
    ensures y[i].minor == 0 - x[i].minor
  {
    ApportionmentIsUnique(Abs(a.minor), ws, Magnitudes(a, x), Magnitudes(b, y));
    assert Magnitudes(a, x)[i] == Magnitudes(b, y)[i];
    if a.minor == 0 {
      PartsAreSmall(0, ws, Magnitudes(a, x));
    }
  }

  /** Weights of one each: parts differ by at most one unit, the larger magnitudes first. */
  lemma SplitIsEven(a: Amount, ws: seq<U64>, parts: seq<Amount>, i: nat, j: nat)
    requires Sum(ws) > 0 && IsAllocation(a, ws, parts)
    ensures i < j < |ws| && ws[i] == ws[j] ==>
              Abs(parts[j].minor) <= Abs(parts[i].minor) <= Abs(parts[j].minor) + 1
  {
    if i < j < |ws| && ws[i] == ws[j] {
      PartsAreSmall(Abs(a.minor), ws, Magnitudes(a, parts));
      EvenSplit(Abs(a.minor), ws, Magnitudes(a, parts), i, j);
      assert Magnitudes(a, parts)[i] >= 0 && Magnitudes(a, parts)[j] >= 0;
    }
  }

  /** `Money::split`: so many equal weights. */
  method Split(a: Amount, parts: nat) returns (r: Result<seq<Amount>, MoneyError>)
    requires parts <= U64_MAX
    ensures r == Err(InvalidWeights) <==> parts == 0
    ensures r == Err(Overflow) <==> parts == 1 && a.minor == I64_MIN
    ensures r.Ok? ==>
              && |r.value| == parts
              && Sum(Minors(r.value)) == a.minor
              && forall i, j :: 0 <= i < j < parts ==>
                   Abs(r.value[j].minor) <= Abs(r.value[i].minor) <= Abs(r.value[j].minor) + 1
  {
    if parts == 0 {
      return Err(InvalidWeights);
    }
    var ones: seq<U64> := seq(parts, _ => 1);
    SumOfOnes(ones);
    r := Allocate(a, ones);
    assert parts == 1 ==> TakesItAll(ones, 0);
    if r.Ok? {
      PartsAddUp(a, ones, r.value);
      forall i, j | 0 <= i < j < parts
        ensures Abs(r.value[j].minor) <= Abs(r.value[i].minor) <= Abs(r.value[j].minor) + 1
      {
        SplitIsEven(a, ones, r.value, i, j);
      }
    }
  }

  lemma {:induction false} SumOfOnes(ones: seq<U64>)
    requires forall i :: 0 <= i < |ones| ==> ones[i] == 1
    ensures Sum(ones) == |ones|
  {
    if ones != [] {
      SumOfOnes(ones[..|ones| - 1]);
    }
  }
}
