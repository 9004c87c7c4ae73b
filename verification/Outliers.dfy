/** Who voids far more than everyone else: an exact comparison on saturating counters. */
module Outliers {
  import opened Base
  import opened Sorting

  /** What one sale contributes: who opened it, its lines, and how many of them were voided. */
  datatype SaleLines = SaleLines(openedBy: Uuid, lines: nat, voided: nat)

  datatype Tally = Tally(part: I64, gross: I64, sales: U64)
  {
    /** Everyone else's, once this one's contribution is removed. */
    function Without(person: Tally): Tally
    {
      Tally(
        Clamp(part - person.part, I64_MIN, I64_MAX),
        Clamp(gross - person.gross, I64_MIN, I64_MAX),
        Clamp(sales - person.sales, 0, U64_MAX))
    }
  }

  datatype Sensitivity = Sensitivity(minimumSales: U64, outlierMultiple: nat)

  datatype Finding = Finding(staffId: Uuid, voided: I64)

  const U32_MAX: nat := 0xFFFF_FFFF

  // ---------- the comparison ----------

  function SaturatingMul(a: int, b: int): int { Clamp(a * b, I128_MIN, I128_MAX) }

  /** `stands_out`, with both products saturating at 128 bits. */
  predicate StandsOut(person: Tally, others: Tally, multiple: nat)
  {
    if others.gross == 0 || others.part == 0 then person.part > 0
    else
      var left := SaturatingMul(person.part, others.gross);
      var right := SaturatingMul(SaturatingMul(others.part, person.gross), multiple);
      left > right
  }

  lemma ProductOfTwo(a: I64, b: I64)
    ensures -0x4000_0000_0000_0000_0000_0000_0000_0000 <= a * b <= 0x4000_0000_0000_0000_0000_0000_0000_0000
  {
    BoundedProduct(Abs(a), Abs(b), 0x8000_0000_0000_0000);
    assert a * b == Abs(a) * Abs(b) || a * b == -(Abs(a) * Abs(b));
  }

  lemma BoundedProduct(a: nat, b: nat, most: nat)
    requires a <= most && b <= most
    ensures 0 <= a * b <= most * most
  {
    assert a * b <= most * b <= most * most;
  }

  /** Saturation never changes the verdict: the rate is compared exactly. */
  lemma StandsOutIsExact(person: Tally, others: Tally, multiple: nat)
    requires others.gross != 0 && others.part != 0 && multiple <= U32_MAX
    ensures StandsOut(person, others, multiple)
       <==> person.part * others.gross > multiple * (others.part * person.gross)
  {
    ProductOfTwo(person.part, others.gross);
    ProductOfTwo(others.part, person.gross);
  }

  // ---------- exact counts ----------

  /** Voided lines, all lines and sales of one person. */
  function VoidsOf(sales: seq<SaleLines>, person: Uuid): nat
  {
    if sales == [] then 0
    else
      var last := sales[|sales| - 1];
      VoidsOf(sales[..|sales| - 1], person) + if last.openedBy == person then last.voided else 0
  }

  function LinesOf(sales: seq<SaleLines>, person: Uuid): nat
  {
    if sales == [] then 0
    else
      var last := sales[|sales| - 1];
      LinesOf(sales[..|sales| - 1], person) + if last.openedBy == person then last.lines else 0
  }

  function SalesOf(sales: seq<SaleLines>, person: Uuid): nat
  {
    if sales == [] then 0
    else
      var last := sales[|sales| - 1];
      SalesOf(sales[..|sales| - 1], person) + if last.openedBy == person then 1 else 0
  }

  function AllVoids(sales: seq<SaleLines>): nat
  {
    if sales == [] then 0 else AllVoids(sales[..|sales| - 1]) + sales[|sales| - 1].voided
  }

  function AllLines(sales: seq<SaleLines>): nat
  {
    if sales == [] then 0 else AllLines(sales[..|sales| - 1]) + sales[|sales| - 1].lines
  }

  /** The counts as sums over the sales. */
  lemma {:induction false} CountsAreSums(sales: seq<SaleLines>, person: Uuid)
    ensures VoidsOf(sales, person) == SumBy((s: SaleLines) => if s.openedBy == person then s.voided else 0, sales)
    ensures LinesOf(sales, person) == SumBy((s: SaleLines) => if s.openedBy == person then s.lines else 0, sales)
    ensures SalesOf(sales, person) == SumBy((s: SaleLines) => if s.openedBy == person then 1 else 0, sales)
    ensures AllVoids(sales) == SumBy((s: SaleLines) => s.voided, sales)
    ensures AllLines(sales) == SumBy((s: SaleLines) => s.lines, sales)
  {
    if sales != [] {
      var n := |sales| - 1;
      CountsAreSums(sales[..n], person);
      assert sales == sales[..n] + [sales[n]];
      SumByOne((s: SaleLines) => if s.openedBy == person then s.voided else 0, sales[..n], sales[n]);
      SumByOne((s: SaleLines) => if s.openedBy == person then s.lines else 0, sales[..n], sales[n]);
      SumByOne((s: SaleLines) => if s.openedBy == person then 1 else 0, sales[..n], sales[n]);
      SumByOne((s: SaleLines) => s.voided, sales[..n], sales[n]);
      SumByOne((s: SaleLines) => s.lines, sales[..n], sales[n]);
    }
  }

  function People(sales: seq<SaleLines>): set<Uuid>
  {
    set i | 0 <= i < |sales| :: sales[i].openedBy
  }

  /** Exact counts held in the width the scan has for them. */
  function Held(voids: nat, lines: nat, sales: nat): Tally
  {
    Tally(Min(voids, I64_MAX), Min(lines, I64_MAX), Min(sales, U64_MAX))
  }

  function TallyOf(sales: seq<SaleLines>, person: Uuid): Tally
  {
    Held(VoidsOf(sales, person), LinesOf(sales, person), SalesOf(sales, person))
  }

  function OutletTally(sales: seq<SaleLines>): Tally
  {
    Held(AllVoids(sales), AllLines(sales), |sales|)
  }

  /** Whether the scan reports someone. */
  predicate IsReported(person: Tally, outlet: Tally, sensitivity: Sensitivity)
  {
    && person.sales >= sensitivity.minimumSales
    && person.part != 0
    && person.gross != 0
    && StandsOut(person, outlet.Without(person), sensitivity.outlierMultiple)
  }

  predicate Reported(sales: seq<SaleLines>, person: Uuid, sensitivity: Sensitivity)
  {
    IsReported(TallyOf(sales, person), OutletTally(sales), sensitivity)
  }

  // ---------- the scan ----------

  /** One sale added to a tally, each counter stopping at the end of its range. */
  function Add(t: Tally, sale: SaleLines): Tally
  {
    Tally(
      Clamp(t.part + Min(sale.voided, I64_MAX), I64_MIN, I64_MAX),
      Clamp(t.gross + Min(sale.lines, I64_MAX), I64_MIN, I64_MAX),
      SaturatingNext(t.sales))
  }

  /** Stopping at every step is stopping once at the end. */
  lemma AddHolds(voids: nat, lines: nat, sales: nat, sale: SaleLines)
    ensures Add(Held(voids, lines, sales), sale) == Held(voids + sale.voided, lines + sale.lines, sales + 1)
  {
  }

  /** The tallying loop: each person's map entry and the outlet's, sale by sale. */
  method TallyUp(sales: seq<SaleLines>) returns (perPerson: map<Uuid, Tally>, outlet: Tally)
    ensures perPerson.Keys == People(sales)
    ensures forall p :: p in perPerson ==> perPerson[p] == TallyOf(sales, p)
    ensures outlet == OutletTally(sales)
  {
    perPerson, outlet := map[], Tally(0, 0, 0);
    var i := 0;
    while i < |sales|
      invariant 0 <= i <= |sales|
      invariant perPerson.Keys == People(sales[..i])
      invariant forall p :: p in perPerson ==> perPerson[p] == TallyOf(sales[..i], p)
      invariant outlet == OutletTally(sales[..i])
    {
      var sale := sales[i];
      assert sales[..i + 1][..i] == sales[..i];
      PeopleNext(sales, i);
      var person := sale.openedBy;
      AbsentIsZero(sales[..i], person);
      var seen := if person in perPerson then perPerson[person] else Tally(0, 0, 0);
      AddHolds(VoidsOf(sales[..i], person), LinesOf(sales[..i], person), SalesOf(sales[..i], person), sale);
      AddHolds(AllVoids(sales[..i]), AllLines(sales[..i]), i, sale);
      perPerson := perPerson[person := Add(seen, sale)];
      outlet := Add(outlet, sale);
      i := i + 1;
    }
    assert sales[..i] == sales;
  }

  lemma PeopleNext(sales: seq<SaleLines>, i: nat)
    requires i < |sales|
    ensures People(sales[..i + 1]) == People(sales[..i]) + {sales[i].openedBy}
  {
    var before, after := sales[..i], sales[..i + 1];
    forall p ensures p in People(after) <==> p in People(before) || p == sales[i].openedBy {
      if p in People(before) {
        var k :| 0 <= k < |before| && before[k].openedBy == p;
        assert after[k].openedBy == p;
      }
      if p == sales[i].openedBy {
        assert after[i].openedBy == p;
      }
      if p in People(after) {
        var k :| 0 <= k < |after| && after[k].openedBy == p;
        assert k < i ==> before[k].openedBy == p;
      }
    }
  }

  lemma {:induction false} AbsentIsZero(sales: seq<SaleLines>, person: Uuid)
    ensures person !in People(sales) ==> TallyOf(sales, person) == Tally(0, 0, 0)
    ensures person !in People(sales) ==> VoidsOf(sales, person) == LinesOf(sales, person) == SalesOf(sales, person) == 0
  {
    if sales != [] {
      var n := |sales| - 1;
      AbsentIsZero(sales[..n], person);
      assert sales[..n + 1] == sales;
      PeopleNext(sales, n);
    }
  }

  /** The findings a map of tallies gives about some people, in their order. */
  function FindingsOn(perPerson: map<Uuid, Tally>, outlet: Tally, ids: seq<Uuid>, s: Sensitivity): seq<Finding>
    requires forall k :: 0 <= k < |ids| ==> ids[k] in perPerson
  {
    if ids == [] then []
    else
      var last := ids[|ids| - 1];
      FindingsOn(perPerson, outlet, ids[..|ids| - 1], s)
      + if IsReported(perPerson[last], outlet, s) then [Finding(last, perPerson[last].part)] else []
  }

  lemma {:induction false} FindingsMeans(perPerson: map<Uuid, Tally>, outlet: Tally, ids: seq<Uuid>, s: Sensitivity)
    requires forall k :: 0 <= k < |ids| ==> ids[k] in perPerson
    requires forall i, j :: 0 <= i < j < |ids| ==> ids[i] < ids[j]
    ensures var found := FindingsOn(perPerson, outlet, ids, s);
            && (forall f :: f in found <==>
                  f.staffId in ids && IsReported(perPerson[f.staffId], outlet, s)
                  && f.voided == perPerson[f.staffId].part)
            && (forall i, j :: 0 <= i < j < |found| ==> found[i].staffId < found[j].staffId)
  {
    if ids != [] {
      var n := |ids| - 1;
      FindingsMeans(perPerson, outlet, ids[..n], s);
      assert ids == ids[..n] + [ids[n]];
      var before := FindingsOn(perPerson, outlet, ids[..n], s);
      forall k | 0 <= k < |before| ensures before[k].staffId < ids[n] {
        assert before[k] in before;
      }
    }
  }

  /** Everyone who is reported, in the order of their ids, each with their voided lines. */
  method VoidOutliers(sales: seq<SaleLines>, sensitivity: Sensitivity) returns (findings: seq<Finding>)
    ensures forall f :: f in findings <==>
              f.staffId in People(sales) && Reported(sales, f.staffId, sensitivity)
              && f.voided == TallyOf(sales, f.staffId).part
    ensures forall i, j :: 0 <= i < j < |findings| ==> findings[i].staffId < findings[j].staffId
  {
    var perPerson, outlet := TallyUp(sales);
    var ids := Ascending(perPerson.Keys);
    findings := Report(perPerson, outlet, ids, sensitivity);
    FindingsMeans(perPerson, outlet, ids, sensitivity);
  }

  /** The reporting loop over the tallies. */
  method Report(perPerson: map<Uuid, Tally>, outlet: Tally, ids: seq<Uuid>, s: Sensitivity)
    returns (findings: seq<Finding>)
    requires forall k :: 0 <= k < |ids| ==> ids[k] in perPerson
    ensures findings == FindingsOn(perPerson, outlet, ids, s)
  {
    findings := [];
    var i := 0;
    while i < |ids|
      invariant 0 <= i <= |ids|
      invariant findings == FindingsOn(perPerson, outlet, ids[..i], s)
    {
      assert ids[..i + 1][..i] == ids[..i];
      var tally := perPerson[ids[i]];
      if tally.sales >= s.minimumSales && tally.part != 0 && tally.gross != 0 {
        var others := outlet.Without(tally);
        if StandsOut(tally, others, s.outlierMultiple) {
          findings := findings + [Finding(ids[i], tally.part)];
        }
      }
      i := i + 1;
    }
    assert ids[..i] == ids;
  }

  // ---------- never everyone ----------

  function VoidsOver(sales: seq<SaleLines>, ids: seq<Uuid>): nat
  {
    if ids == [] then 0 else VoidsOf(sales, ids[0]) + VoidsOver(sales, ids[1..])
  }

  function LinesOver(sales: seq<SaleLines>, ids: seq<Uuid>): nat
  {
    if ids == [] then 0 else LinesOf(sales, ids[0]) + LinesOver(sales, ids[1..])
  }

  lemma {:induction false} NextSaleOver(sales: seq<SaleLines>, ids: seq<Uuid>)
    requires sales != [] && forall i, j :: 0 <= i < j < |ids| ==> ids[i] != ids[j]
    ensures var before, last := sales[..|sales| - 1], sales[|sales| - 1];
            && VoidsOver(sales, ids) == VoidsOver(before, ids) + (if last.openedBy in ids then last.voided else 0)
            && LinesOver(sales, ids) == LinesOver(before, ids) + (if last.openedBy in ids then last.lines else 0)
  {
    if ids != [] {
      NextSaleOver(sales, ids[1..]);
      assert ids == [ids[0]] + ids[1..];
    }
  }

  lemma {:induction false} EmptyOver(ids: seq<Uuid>)
    ensures VoidsOver([], ids) == 0 && LinesOver([], ids) == 0
  {
    if ids != [] {
      EmptyOver(ids[1..]);
    }
  }

  /** People's counts add up to the outlet's. */
  lemma {:induction false} PeopleAddUp(sales: seq<SaleLines>, ids: seq<Uuid>)
    requires forall i, j :: 0 <= i < j < |ids| ==> ids[i] != ids[j]
    requires forall k :: 0 <= k < |sales| ==> sales[k].openedBy in ids
    ensures VoidsOver(sales, ids) == AllVoids(sales) && LinesOver(sales, ids) == AllLines(sales)
  {
    if sales == [] {
      EmptyOver(ids);
    } else {
      PeopleAddUp(sales[..|sales| - 1], ids);
      NextSaleOver(sales, ids);
    }
  }

  /** Above the outlet's own rate. */
  predicate AboveAverage(sales: seq<SaleLines>, person: Uuid)
  {
    VoidsOf(sales, person) * AllLines(sales) > AllVoids(sales) * LinesOf(sales, person)
  }

  lemma {:induction false} NotAllAboveAverage(sales: seq<SaleLines>, ids: seq<Uuid>)
    requires ids != [] && forall k :: 0 <= k < |ids| ==> AboveAverage(sales, ids[k])
    ensures VoidsOver(sales, ids) * AllLines(sales) > AllVoids(sales) * LinesOver(sales, ids)
  {
    var rest := ids[1..];
    assert AboveAverage(sales, ids[0]);
    Spread(VoidsOf(sales, ids[0]), VoidsOver(sales, rest), AllLines(sales));
    Spread(LinesOf(sales, ids[0]), LinesOver(sales, rest), AllVoids(sales));
    if rest != [] {
      NotAllAboveAverage(sales, rest);
    }
  }

  lemma Spread(a: int, b: int, c: int)
    ensures (a + b) * c == a * c + b * c && c * (a + b) == c * a + c * b
  {
  }

  /** With a multiple of at least one, standing out means being above the outlet's own rate. */
  lemma StandingOutIsAboveAverage(p: nat, g: nat, voids: nat, lines: nat, k: nat)
    requires p <= voids && g <= lines && k >= 1
    requires p * (lines - g) > k * ((voids - p) * g)
    ensures p * lines > voids * g
  {
    var other := (voids - p) * g;
    assert other >= 0;
    assert k * other >= other;
    Spread(lines - g, g, p);
    Spread(voids - p, p, g);
  }

  lemma {:induction false} OneOfMany(sales: seq<SaleLines>, person: Uuid)
    ensures VoidsOf(sales, person) <= AllVoids(sales) && LinesOf(sales, person) <= AllLines(sales)
  {
    if sales != [] {
      OneOfMany(sales[..|sales| - 1], person);
    }
  }

  lemma {:induction false} TwoOfMany(sales: seq<SaleLines>, x: Uuid, y: Uuid)
    requires x != y
    ensures VoidsOf(sales, x) + VoidsOf(sales, y) <= AllVoids(sales)
    ensures LinesOf(sales, x) + LinesOf(sales, y) <= AllLines(sales)
  {
    if sales != [] {
      TwoOfMany(sales[..|sales| - 1], x, y);
    }
  }

  lemma ReportedIsAboveAverage(sales: seq<SaleLines>, x: Uuid, y: Uuid, s: Sensitivity)
    requires AllVoids(sales) <= I64_MAX && AllLines(sales) <= I64_MAX && 1 <= s.outlierMultiple <= U32_MAX
    requires x != y && Reported(sales, x, s) && Reported(sales, y, s)
    ensures AboveAverage(sales, x)
  {
    OneOfMany(sales, x);
    OneOfMany(sales, y);
    TwoOfMany(sales, x, y);
    var person := TallyOf(sales, x);
    var others := OutletTally(sales).Without(person);
    assert others.part == AllVoids(sales) - VoidsOf(sales, x) && others.gross == AllLines(sales) - LinesOf(sales, x);
    StandsOutIsExact(person, others, s.outlierMultiple);
    StandingOutIsAboveAverage(
      VoidsOf(sales, x), LinesOf(sales, x), AllVoids(sales), AllLines(sales), s.outlierMultiple);
  }

  /**
   With a multiple of at least one, counts within range and two or more people, the scan never reports
   everyone.
   */
  lemma NeverEveryone(sales: seq<SaleLines>, s: Sensitivity)
    requires AllVoids(sales) <= I64_MAX && AllLines(sales) <= I64_MAX && 1 <= s.outlierMultiple <= U32_MAX
    requires |People(sales)| >= 2
    ensures exists x :: x in People(sales) && !Reported(sales, x, s)
  {
    var ids := Ascending(People(sales));
    if forall x :: x in People(sales) ==> Reported(sales, x, s) {
      TwoIds(People(sales), ids);
      forall k | 0 <= k < |ids| ensures AboveAverage(sales, ids[k]) {
        var other := if k == 0 then ids[1] else ids[0];
        assert ids[k] in ids && other in ids;
        ReportedIsAboveAverage(sales, ids[k], other, s);
      }
      NotAllAboveAverage(sales, ids);
      forall k | 0 <= k < |sales| ensures sales[k].openedBy in ids {
        assert sales[k].openedBy in People(sales);
      }
      PeopleAddUp(sales, ids);
    }
  }

  lemma TwoIds(people: set<Uuid>, ids: seq<Uuid>)
    requires |people| >= 2 && forall x :: x in people <==> x in ids
    ensures |ids| >= 2
  {
    var a :| a in people;
    assert |people - {a}| >= 1;
    var b :| b in people - {a};
    var i :| 0 <= i < |ids| && ids[i] == a;
    var j :| 0 <= j < |ids| && ids[j] == b;
  }

  // ---------- when everyone is reported ----------

  /** What the scan asks of anyone before it compares: enough sales, a voided line, a line. */
  predicate Eligible(sales: seq<SaleLines>, person: Uuid, s: Sensitivity)
  {
    SalesOf(sales, person) >= s.minimumSales && VoidsOf(sales, person) > 0 && LinesOf(sales, person) > 0
  }

  lemma ReportedIsEligible(sales: seq<SaleLines>, person: Uuid, s: Sensitivity)
    requires Reported(sales, person, s)
    ensures Eligible(sales, person, s)
  {
  }

  /** A multiple of zero compares with nothing: everyone eligible is reported. */
  lemma ZeroMultipleReports(sales: seq<SaleLines>, person: Uuid, s: Sensitivity)
    requires AllVoids(sales) <= I64_MAX && AllLines(sales) <= I64_MAX && s.outlierMultiple == 0
    requires Eligible(sales, person, s)
    ensures Reported(sales, person, s)
  {
    OneOfMany(sales, person);
    var tally := TallyOf(sales, person);
    var others := OutletTally(sales).Without(tally);
    if others.gross != 0 && others.part != 0 {
      StandsOutIsExact(tally, others, 0);
      assert others.gross >= 1 && tally.part >= 1;
      Positive(tally.part, others.gross);
    }
  }

  lemma Positive(a: int, b: int)
    requires a >= 1 && b >= 1
    ensures a * b > 0
  {
  }

  /** With nobody to compare with, everyone eligible is reported. */
  lemma AloneIsReported(sales: seq<SaleLines>, person: Uuid, s: Sensitivity)
    requires AllVoids(sales) <= I64_MAX && AllLines(sales) <= I64_MAX
    requires |People(sales)| <= 1 && person in People(sales) && Eligible(sales, person, s)
    ensures Reported(sales, person, s)
  {
    forall k | 0 <= k < |sales| ensures sales[k].openedBy == person {
      assert sales[k].openedBy in People(sales);
      TwoMembers(People(sales), person, sales[k].openedBy);
    }
    PeopleAddUp(sales, [person]);
    assert [person][1..] == [];
  }

  lemma TwoMembers(people: set<Uuid>, x: Uuid, y: Uuid)
    requires |people| <= 1 && x in people && y in people
    ensures x == y
  {
    assert |people - {x}| == 0;
    assert y !in people - {x};
  }

  /** Everyone is reported exactly when everyone is eligible and there is nothing to compare with. */
  lemma EveryoneExactlyWhen(sales: seq<SaleLines>, s: Sensitivity)
    requires AllVoids(sales) <= I64_MAX && AllLines(sales) <= I64_MAX && s.outlierMultiple <= U32_MAX
    ensures (forall x :: x in People(sales) ==> Reported(sales, x, s))
       <==> && (s.outlierMultiple == 0 || |People(sales)| <= 1)
            && (forall x :: x in People(sales) ==> Eligible(sales, x, s))
  {
    forall x | x in People(sales) && Reported(sales, x, s) ensures Eligible(sales, x, s) {
      ReportedIsEligible(sales, x, s);
    }
    if s.outlierMultiple > 0 && |People(sales)| >= 2 {
      NeverEveryone(sales, s);
    } else {
      forall x | x in People(sales) && Eligible(sales, x, s) ensures Reported(sales, x, s) {
        if s.outlierMultiple == 0 {
          ZeroMultipleReports(sales, x, s);
        } else {
          AloneIsReported(sales, x, s);
        }
      }
    }
  }

  /** Two people with one voided line in ten each, and a multiple of zero: both are reported. */
  lemma ZeroMultipleReportsEveryone()
    ensures var sales := [SaleLines(1, 10, 1), SaleLines(2, 10, 1)];
            forall x :: x in People(sales) ==> Reported(sales, x, Sensitivity(0, 0))
  {
    var sales := [SaleLines(1, 10, 1), SaleLines(2, 10, 1)];
    assert sales[..1] == [SaleLines(1, 10, 1)] && sales[..1][..0] == [];
    forall x | x in People(sales) ensures Reported(sales, x, Sensitivity(0, 0)) {
      var i :| 0 <= i < |sales| && sales[i].openedBy == x;
      assert VoidsOf([], x) == LinesOf([], x) == SalesOf([], x) == 0;
      assert VoidsOf(sales[..1], x) == if x == 1 then 1 else 0;
      assert LinesOf(sales[..1], x) == if x == 1 then 10 else 0;
      assert AllVoids(sales) == 2 && AllLines(sales) == 20;
    }
  }
}
