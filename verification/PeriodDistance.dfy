/**
 Distance of a period from accepted readings, and the parts of a period held by each company
 (apps/api/src/domain/period-distance.ts). Instants are integer milliseconds, kilometres are exact.
 */
module PeriodDistance {
  import opened Wrappers
  import opened Sorting

  datatype Reading = Reading(
    id: string, observedAt: int, enteredAt: int, cumulativeKm: real, isEstimate: bool,
    companyId: string, isTransfer: bool, segmentSequence: int, segmentCumulativeKnown: bool)

  /** Both bounds are included. */
  datatype Period = Period(from: int, to: int)

  datatype Reason = RelevesInsuffisants | CumulIncomplet | NonVentilable | ChronologieIncoherente

  datatype Distance = Distance(
    reason: Option<Reason>, start: Option<Reading>, end: Option<Reading>,
    distanceKm: Option<real>, estimated: bool, coverage: Option<real>, readingCount: nat)
  {
    predicate Available() { reason.None? }
  }

  function CompareReadings(): (Reading, Reading) -> bool {
    (a: Reading, b: Reading) =>
      a.observedAt < b.observedAt
      || (a.observedAt == b.observedAt &&
        (a.enteredAt < b.enteredAt || (a.enteredAt == b.enteredAt && StringLe(a.id, b.id))))
  }

  function During(period: Period): Reading -> bool {
    (r: Reading) => period.from <= r.observedAt <= period.to
  }

  /** A change of company between two neighbours, neither being a transfer reading. */
  predicate Crosses(a: Reading, b: Reading) { a.companyId != b.companyId && !a.isTransfer && !b.isTransfer }

  predicate CrossesSomewhere(ordered: seq<Reading>) {
    exists i :: 1 <= i < |ordered| && Crosses(ordered[i - 1], ordered[i])
  }

  method CrossesCompanyWithoutTransfer(ordered: seq<Reading>) returns (crosses: bool)
    ensures crosses <==> CrossesSomewhere(ordered)
  {
    var i := 1;
    while i < |ordered|
      invariant 1 <= i
      invariant forall k :: 1 <= k < i && k < |ordered| ==> !Crosses(ordered[k - 1], ordered[k])
    {
      if Crosses(ordered[i - 1], ordered[i]) {
        return true;
      }
      i := i + 1;
    }
    return false;
  }

  /** distanceBetween of odometer-rules.ts: nothing rather than a negative distance. */
  function DistanceBetween(start: real, end: real): Option<real> {
    if end - start < 0.0 then None else Some(end - start)
  }

  function Coverage(first: Reading, last: Reading, period: Period): Option<real> {
    if period.to > period.from then
      var share := (last.observedAt - first.observedAt) as real / (period.to - period.from) as real;
      Some(if share <= 1.0 then share else 1.0)
    else None
  }

  function InPeriod(readings: seq<Reading>, period: Period): seq<Reading> {
    Sort(CompareReadings(), Filter(During(period), readings))
  }

  function DistanceOf(s: seq<Reading>, period: Period): Distance {
    if |s| == 0 then Distance(Some(RelevesInsuffisants), None, None, None, false, None, 0)
    else
      var first, last := s[0], s[|s| - 1];
      if first.observedAt == last.observedAt then
        Distance(Some(RelevesInsuffisants), Some(first), None, None, first.isEstimate, None, |s|)
      else
        var coverage := Coverage(first, last, period);
        var estimated := first.isEstimate || last.isEstimate;
        var unavailable := (reason: Reason) => Distance(Some(reason), Some(first), Some(last), None, estimated,
          coverage, |s|);
        if first.segmentSequence != last.segmentSequence && !last.segmentCumulativeKnown
          then unavailable(CumulIncomplet)
        else if CrossesSomewhere(s) then unavailable(NonVentilable)
        else
          var distance := DistanceBetween(first.cumulativeKm, last.cumulativeKm);
          if distance.None? then unavailable(ChronologieIncoherente)
          else Distance(None, Some(first), Some(last), distance, estimated, coverage, |s|)
  }

  function PeriodDistance(readings: seq<Reading>, period: Period): Distance {
    DistanceOf(InPeriod(readings, period), period)
  }

  // ---------------------------------------------------------------- when a distance is available

  lemma {:induction false} ReadingOrder()
    ensures TotalPreorder(CompareReadings())
  {
    StringOrder();
  }

  lemma {:induction false} PositiveShare(a: int, b: int)
    requires 0 < a <= b
    ensures 0.0 < a as real / b as real <= 1.0
  {
  }

  /** A distance is available exactly under these conditions, is never negative, and covers at most the period. */
  lemma {:induction false} AvailableIff(readings: seq<Reading>, period: Period)
    ensures var s, d := InPeriod(readings, period), PeriodDistance(readings, period);
      && (d.Available() <==>
        && |s| > 0 && s[0].observedAt < s[|s| - 1].observedAt
        && (s[0].segmentSequence == s[|s| - 1].segmentSequence || s[|s| - 1].segmentCumulativeKnown)
        && !CrossesSomewhere(s) && s[0].cumulativeKm <= s[|s| - 1].cumulativeKm)
      && (d.Available() <==> d.distanceKm.Some?)
      && (d.distanceKm.Some? ==> d.distanceKm.value >= 0.0 && d.coverage.Some? && 0.0 < d.coverage.value <= 1.0)
  {
    var s := InPeriod(readings, period);
    ReadingOrder();
    SortSorted(CompareReadings(), Filter(During(period), readings));
    SortMembers(CompareReadings(), Filter(During(period), readings));
    FilterMembers(During(period), readings);
    if |s| > 1 {
      assert CompareReadings()(s[0], s[|s| - 1]);
      assert s[0] in s && s[|s| - 1] in s;
      assert During(period)(s[0]) && During(period)(s[|s| - 1]);
    }
    if |s| > 1 && s[0].observedAt < s[|s| - 1].observedAt {
      PositiveShare(s[|s| - 1].observedAt - s[0].observedAt, period.to - period.from);
    }
  }

  lemma {:induction false} InPeriodMembers(readings: seq<Reading>, period: Period)
    ensures forall x :: x in InPeriod(readings, period) ==> x in readings
  {
    SortMembers(CompareReadings(), Filter(During(period), readings));
    FilterMembers(During(period), readings);
  }

  // ---------------------------------------------------------------- what the result is

  /** By instant of observation, then of entry, then by identifier. */
  ghost predicate Precedes(a: Reading, b: Reading) {
    || a.observedAt < b.observedAt
    || (a.observedAt == b.observedAt && a.enteredAt < b.enteredAt)
    || (a.observedAt == b.observedAt && a.enteredAt == b.enteredAt && StringLe(a.id, b.id))
  }

  /** Readings as they follow one another. */
  ghost predicate InSequence(s: seq<Reading>) { forall i, j :: 0 <= i < j < |s| ==> Precedes(s[i], s[j]) }

  /** How often a reading was given, if it was observed in the period. */
  ghost function InPeriodCount(readings: seq<Reading>, period: Period, x: Reading): nat {
    if period.from <= x.observedAt <= period.to then multiset(readings)[x] else 0
  }

  /** The readings of a period: all that were observed in it, each as often as given, in sequence. */
  lemma {:induction false} InPeriodMeans(readings: seq<Reading>, period: Period)
    ensures InSequence(InPeriod(readings, period))
    ensures forall x :: multiset(InPeriod(readings, period))[x] == InPeriodCount(readings, period, x)
  {
    var own := Filter(During(period), readings);
    ReadingOrder();
    SortSorted(CompareReadings(), own);
    SortPermutes(CompareReadings(), own);
    var s := InPeriod(readings, period);
    forall i, j | 0 <= i < j < |s| ensures Precedes(s[i], s[j]) {
      assert CompareReadings()(s[i], s[j]);
    }
    forall x ensures multiset(s)[x] == InPeriodCount(readings, period, x) {
      FilterCounts(During(period), readings, x);
    }
  }

  /** Two readings that follow one another change company, and neither is a transfer reading. */
  ghost predicate ChangesCompany(s: seq<Reading>) {
    exists j, k ::
      0 <= j < k < |s| && k == j + 1 && s[j].companyId != s[k].companyId && !s[j].isTransfer && !s[k].isTransfer
  }

  lemma {:induction false} CrossingIsChange(s: seq<Reading>)
    ensures CrossesSomewhere(s) <==> ChangesCompany(s)
  {
    if i :| 1 <= i < |s| && Crosses(s[i - 1], s[i]) {
      var j := i - 1;
      assert s[j].companyId != s[i].companyId;
    }
    if j, k :|
      0 <= j < k < |s| && k == j + 1 && s[j].companyId != s[k].companyId && !s[j].isTransfer && !s[k].isTransfer
    {
      assert Crosses(s[k - 1], s[k]);
    }
  }

  /** The bounds of a period with two different instants, and why there is no distance, if so. */
  lemma {:induction false} ReasonMeans(readings: seq<Reading>, period: Period)
    ensures var s, d := InPeriod(readings, period), PeriodDistance(readings, period);
      if |s| == 0 || s[0].observedAt == s[|s| - 1].observedAt then d.reason == Some(RelevesInsuffisants)
      else
        var first, last := s[0], s[|s| - 1];
        var incomplete := first.segmentSequence != last.segmentSequence && !last.segmentCumulativeKnown;
        && (d.reason == Some(CumulIncomplet) <==> incomplete)
        && (d.reason == Some(NonVentilable) <==> !incomplete && ChangesCompany(s))
        && (d.reason == Some(ChronologieIncoherente) <==>
          !incomplete && !ChangesCompany(s) && last.cumulativeKm < first.cumulativeKm)
        && (d.reason == None <==>
          !incomplete && !ChangesCompany(s) && first.cumulativeKm <= last.cumulativeKm)
  {
    CrossingIsChange(InPeriod(readings, period));
  }

  lemma {:induction false} ShareOfPeriod(part: int, whole: int)
    requires 0 < part <= whole
    ensures part as real / whole as real <= 1.0 && part as real / whole as real * whole as real == part as real
  {
    PositiveShare(part, whole);
  }

  lemma {:induction false} CoverageIsShare(first: Reading, last: Reading, period: Period)
    requires period.from <= first.observedAt < last.observedAt <= period.to
    ensures var c := Coverage(first, last, period);
      c.Some? && c.value * (period.to - period.from) as real == (last.observedAt - first.observedAt) as real
  {
    ShareOfPeriod(last.observedAt - first.observedAt, period.to - period.from);
  }

  /** The first and the last reading of a period were observed in it, in this order. */
  lemma {:induction false} BoundsInPeriod(readings: seq<Reading>, period: Period)
    requires |InPeriod(readings, period)| > 0
    ensures var s := InPeriod(readings, period);
      period.from <= s[0].observedAt <= s[|s| - 1].observedAt <= period.to
  {
    var s := InPeriod(readings, period);
    InPeriodMeans(readings, period);
    assert multiset(s)[s[0]] > 0 && multiset(s)[s[|s| - 1]] > 0;
    assert |s| > 1 ==> Precedes(s[0], s[|s| - 1]);
  }

  /** The bounds of the distance are the first and the last reading, and it is estimated when a bound is. */
  lemma {:induction false} BoundsMean(readings: seq<Reading>, period: Period)
    ensures var s, d := InPeriod(readings, period), PeriodDistance(readings, period);
      && d.readingCount == |s|
      && d.start == (if |s| == 0 then None else Some(s[0]))
      && d.end == (if |s| > 0 && s[0].observedAt < s[|s| - 1].observedAt then Some(s[|s| - 1]) else None)
      && (d.estimated <==> (d.start.Some? && d.start.value.isEstimate) || (d.end.Some? && d.end.value.isEstimate))
      && (d.end.None? ==> d.distanceKm.None? && d.coverage.None?)
  {
    if |InPeriod(readings, period)| > 0 {
      BoundsInPeriod(readings, period);
    }
  }

  /**
   The distance is the difference of the kilometres of its bounds, and the coverage the part of the period that lies
   between them.
   */
  lemma {:induction false} DistanceMeans(readings: seq<Reading>, period: Period)
    requires PeriodDistance(readings, period).end.Some?
    ensures var d := PeriodDistance(readings, period);
      && d.start.Some? && d.coverage.Some?
      && d.distanceKm ==
        (if d.reason == None then Some(d.end.value.cumulativeKm - d.start.value.cumulativeKm) else None)
      && d.coverage.value * (period.to - period.from) as real
        == (d.end.value.observedAt - d.start.value.observedAt) as real
  {
    var s := InPeriod(readings, period);
    BoundsMean(readings, period);
    BoundsInPeriod(readings, period);
    CoverageIsShare(s[0], s[|s| - 1], period);
  }

  // ---------------------------------------------------------------- cutting a period

  lemma {:induction false} NoneBefore(s: seq<Reading>, a: int, m: int)
    requires Sorted(CompareReadings(), s) && |s| > 0 && s[0].observedAt > m
    ensures Filter(During(Period(a, m)), s[1..]) == []
  {
    forall x | x in s[1..] ensures !During(Period(a, m))(x) {
      var i :| 1 <= i < |s| && s[i] == x;
      assert CompareReadings()(s[0], s[i]);
    }
    FilterNone(During(Period(a, m)), s[1..]);
  }

  lemma {:induction false} SplitStep(s: seq<Reading>, a: int, m: int, b: int)
    requires |s| > 0 && a <= m <= b
    requires Filter(During(Period(a, b)), s[1..])
      == Filter(During(Period(a, m)), s[1..]) + Filter(During(Period(m + 1, b)), s[1..])
    requires s[0].observedAt > m ==> Filter(During(Period(a, m)), s[1..]) == []
    ensures Filter(During(Period(a, b)), s) == Filter(During(Period(a, m)), s) + Filter(During(Period(m + 1, b)), s)
  {
    var left, right := Filter(During(Period(a, m)), s[1..]), Filter(During(Period(m + 1, b)), s[1..]);
    var x := s[0].observedAt;
    if a <= x <= m {
      assert [s[0]] + (left + right) == ([s[0]] + left) + right;
    } else if m < x <= b {
      assert left == [] && left + right == right && [] + ([s[0]] + right) == [s[0]] + right;
    }
  }

  /** Sorted readings of a period are those of its two parts, one after the other. */
  lemma {:induction false} FilterSplits(s: seq<Reading>, a: int, m: int, b: int)
    requires Sorted(CompareReadings(), s) && a <= m <= b
    ensures Filter(During(Period(a, b)), s) == Filter(During(Period(a, m)), s) + Filter(During(Period(m + 1, b)), s)
    decreases |s|
  {
    if |s| == 0 {
    } else {
      FilterSplits(s[1..], a, m, b);
      if s[0].observedAt > m {
        NoneBefore(s, a, m);
      }
      SplitStep(s, a, m, b);
    }
  }

  lemma {:induction false} InPeriodSplits(readings: seq<Reading>, a: int, m: int, b: int)
    requires a <= m <= b
    ensures InPeriod(readings, Period(a, b)) == InPeriod(readings, Period(a, m)) + InPeriod(readings, Period(m + 1, b))
  {
    var le := CompareReadings();
    ReadingOrder();
    SortSorted(le, readings);
    SortFilter(le, During(Period(a, b)), readings);
    SortFilter(le, During(Period(a, m)), readings);
    SortFilter(le, During(Period(m + 1, b)), readings);
    FilterSplits(Sort(le, readings), a, m, b);
  }

  /** Exactly one reading was observed at the instant m. */
  ghost predicate OneReadingAt(readings: seq<Reading>, m: int) { |InPeriod(readings, Period(m, m))| == 1 }

  /** Whether the cumulative distance of a meter is known is a property of the meter. */
  ghost predicate KnownPerSegment(readings: seq<Reading>) {
    forall x, y :: x in readings && y in readings && x.segmentSequence == y.segmentSequence
      ==> x.segmentCumulativeKnown == y.segmentCumulativeKnown
  }

  /** The parts before and after a boundary with one reading share that reading. */
  lemma {:induction false} SharedBoundary(readings: seq<Reading>, a: int, m: int, b: int)
    requires a <= m <= b && OneReadingAt(readings, m)
    ensures var whole, left, right := InPeriod(readings, Period(a, b)), InPeriod(readings, Period(a, m)),
      InPeriod(readings, Period(m, b));
      && |left| > 0 && |right| > 0 && left[|left| - 1] == right[0]
      && whole == left + right[1..]
  {
    var one := InPeriod(readings, Period(m, m));
    InPeriodSplits(readings, a, m, b);
    InPeriodSplits(readings, m, m, b);
    assert InPeriod(readings, Period(m, b))[1..] == InPeriod(readings, Period(m + 1, b));
    if a < m {
      InPeriodSplits(readings, a, m - 1, m);
    }
  }

  lemma {:induction false} NoCrossing(left: seq<Reading>, right: seq<Reading>, whole: seq<Reading>)
    requires |left| > 0 && |right| > 0 && left[|left| - 1] == right[0] && whole == left + right[1..]
    requires !CrossesSomewhere(left) && !CrossesSomewhere(right)
    ensures !CrossesSomewhere(whole)
  {
    forall i | 1 <= i < |whole| ensures !Crosses(whole[i - 1], whole[i]) {
      if i < |left| {
        assert !Crosses(left[i - 1], left[i]);
      } else {
        var k := i - |left| + 1;
        assert whole[i] == right[k] && whole[i - 1] == right[k - 1];
      }
    }
  }

  /** Two available parts with one common reading make the whole available, as long as both together. */
  lemma {:induction false} PartsAdd(readings: seq<Reading>, a: int, m: int, b: int)
    requires a <= m <= b && OneReadingAt(readings, m) && KnownPerSegment(readings)
    requires PeriodDistance(readings, Period(a, m)).Available() && PeriodDistance(readings, Period(m, b)).Available()
    ensures var whole := PeriodDistance(readings, Period(a, b));
      && whole.Available()
      && whole.distanceKm == Some(PeriodDistance(readings, Period(a, m)).distanceKm.value
        + PeriodDistance(readings, Period(m, b)).distanceKm.value)
  {
    var whole, left, right := InPeriod(readings, Period(a, b)), InPeriod(readings, Period(a, m)),
      InPeriod(readings, Period(m, b));
    AvailableIff(readings, Period(a, m));
    AvailableIff(readings, Period(m, b));
    AvailableIff(readings, Period(a, b));
    SharedBoundary(readings, a, m, b);
    InPeriodMembers(readings, Period(a, m));
    InPeriodMembers(readings, Period(m, b));
    assert left[|left| - 1] in left && right[|right| - 1] in right;
    NoCrossing(left, right, whole);
  }

  /** The i-th part of a period cut at the given bounds. */
  function Part(bounds: seq<int>, i: nat): Period
    requires 0 < i < |bounds|
  {
    Period(bounds[i - 1], bounds[i])
  }

  /** The distance of a period, when there is one. */
  function Km(readings: seq<Reading>, period: Period): Option<real> { PeriodDistance(readings, period).distanceKm }

  /** Distances of the first n parts, added up. */
  function SumOfParts(readings: seq<Reading>, bounds: seq<int>, n: nat): real
    requires n < |bounds|
  {
    if n == 0 then 0.0
    else
      var last := Km(readings, Part(bounds, n));
      SumOfParts(readings, bounds, n - 1) + (if last.Some? then last.value else 0.0)
  }

  /** The n-th part has a distance, and it begins with a reading it shares with the part before. */
  ghost predicate PartUsable(readings: seq<Reading>, bounds: seq<int>, n: nat)
    requires 0 < n < |bounds|
  {
    && bounds[n - 1] <= bounds[n] && Km(readings, Part(bounds, n)).Some?
    && (n > 1 ==> OneReadingAt(readings, bounds[n - 1]))
  }

  lemma {:induction false} SumOfOne(readings: seq<Reading>, bounds: seq<int>)
    requires |bounds| > 1 && Km(readings, Part(bounds, 1)).Some?
    ensures Km(readings, Part(bounds, 1)) == Some(SumOfParts(readings, bounds, 1))
  {
    assert SumOfParts(readings, bounds, 0) == 0.0;
  }

  lemma {:induction false} KmIsDistance(readings: seq<Reading>, period: Period)
    ensures Km(readings, period).Some? <==> PeriodDistance(readings, period).Available()
  {
    AvailableIff(readings, period);
  }

  lemma {:induction false} KmAdds(readings: seq<Reading>, a: int, m: int, b: int, x: real, y: real, total: real)
    requires a <= m <= b && OneReadingAt(readings, m) && KnownPerSegment(readings) && total == x + y
    requires Km(readings, Period(a, m)) == Some(x) && Km(readings, Period(m, b)) == Some(y)
    ensures Km(readings, Period(a, b)) == Some(total)
  {
    KmIsDistance(readings, Period(a, m));
    KmIsDistance(readings, Period(m, b));
    KmIsDistance(readings, Period(a, b));
    PartsAdd(readings, a, m, b);
  }

  lemma {:induction false} SumOfMore(readings: seq<Reading>, bounds: seq<int>, n: nat, before: real, last: real)
    requires 0 < n < |bounds| && SumOfParts(readings, bounds, n - 1) == before &&
      Km(readings, Part(bounds, n)) == Some(last)
    ensures SumOfParts(readings, bounds, n) == before + last
  {
  }

  lemma {:induction false} LastPartAdds(readings: seq<Reading>, bounds: seq<int>, n: nat, before: real)
    requires KnownPerSegment(readings) && 1 < n < |bounds| && bounds[0] <= bounds[n - 1] &&
      PartUsable(readings, bounds, n)
    requires before == SumOfParts(readings, bounds, n - 1) &&
      Km(readings, Period(bounds[0], bounds[n - 1])) == Some(before)
    ensures Km(readings, Period(bounds[0], bounds[n])) == Some(SumOfParts(readings, bounds, n))
  {
    var last := Km(readings, Part(bounds, n)).value;
    var total := before + last;
    KmAdds(readings, bounds[0], bounds[n - 1], bounds[n], before, last, total);
    assert SumOfParts(readings, bounds, n) == total by {
      SumOfMore(readings, bounds, n, before, last);
    }
  }

  /** The distance of a period is the sum of those of its parts, whatever the number of cuts. */
  lemma {:induction false} AllPartsAdd(readings: seq<Reading>, bounds: seq<int>, n: nat)
    requires KnownPerSegment(readings) && 0 < n < |bounds|
    requires forall i :: 0 < i < |bounds| ==> PartUsable(readings, bounds, i)
    ensures bounds[0] <= bounds[n]
    ensures Km(readings, Period(bounds[0], bounds[n])) == Some(SumOfParts(readings, bounds, n))
  {
    assert PartUsable(readings, bounds, n);
    if n == 1 {
      SumOfOne(readings, bounds);
    } else {
      AllPartsAdd(readings, bounds, n - 1);
      LastPartAdds(readings, bounds, n, SumOfParts(readings, bounds, n - 1));
    }
  }

  // ---------------------------------------------------------------- physical and estimated columns

  datatype Distances = Distances(physical: Distance, estimated: Option<Distance>)

  function Physical(): Reading -> bool { (r: Reading) => !r.isEstimate }

  function PeriodDistances(readings: seq<Reading>, period: Period): Distances {
    var all := PeriodDistance(readings, period);
    Distances(PeriodDistance(Filter(Physical(), readings), period), if all.estimated then Some(all) else None)
  }

  function CostBasis(d: Distances): Distance {
    if d.physical.Available() || d.estimated.None? then d.physical else d.estimated.value
  }

  /** The physical column never rests on an estimate, and the basis of a cost per km does only for want of it. */
  lemma {:induction false} BasisIsPhysicalFirst(readings: seq<Reading>, period: Period)
    ensures var d := PeriodDistances(readings, period);
      && !d.physical.estimated
      && (d.estimated.Some? <==> PeriodDistance(readings, period).estimated)
      && (d.estimated.Some? ==> d.estimated.value == PeriodDistance(readings, period))
      && CostBasis(d) in {d.physical, PeriodDistance(readings, period)}
      && (CostBasis(d).estimated ==> !d.physical.Available())
      && (CostBasis(d).Available() <==> d.physical.Available() || (d.estimated.Some? && d.estimated.value.Available()))
  {
    var physical := Filter(Physical(), readings);
    FilterMembers(Physical(), readings);
    InPeriodMembers(physical, period);
    var s := InPeriod(physical, period);
    assert |s| > 0 ==> s[0] in s && s[|s| - 1] in s;
    assert forall x :: x in s ==> Physical()(x);
  }
}
