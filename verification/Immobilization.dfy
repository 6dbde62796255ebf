/**
 Duration of an immobilization and of its causes (apps/api/src/domain/immobilization-duration.ts).
 Hours and days are display conversions of the milliseconds kept here.
 */
module Immobilization {
  import opened Wrappers
  import opened IntervalUnion

  datatype Cause = Cause(id: string, startedAt: int, endedAt: Option<int>)

  datatype Duration = Duration(ms: int, ongoing: bool)

  datatype CauseDuration = CauseDuration(id: string, duration: Duration)

  datatype Durations = Durations(total: Duration, causes: seq<CauseDuration>, causesOverlap: bool)

  function IntervalOf(c: Cause): OpenInterval { OpenInterval(c.startedAt, c.endedAt) }

  function IntervalsOf(causes: seq<Cause>): seq<OpenInterval> {
    seq(|causes|, k requires 0 <= k < |causes| => IntervalOf(causes[k]))
  }

  /** The intervals of the causes or, without any cause, that of the immobilization itself. */
  function ImmobilizationIntervals(causes: seq<Cause>, fallback: Option<OpenInterval>): seq<OpenInterval> {
    if |causes| > 0 then IntervalsOf(causes) else if fallback.Some? then [fallback.value] else []
  }

  function EndOrNow(end: Option<int>, now: int): int { if end.Some? then end.value else now }

  function EarliestStart(s: seq<OpenInterval>, now: int): int {
    if |s| == 0 then now else Min(EarliestStart(s[..|s| - 1], now), s[|s| - 1].start)
  }

  function LatestEnd(s: seq<OpenInterval>, now: int): int {
    if |s| == 0 then now else Max(LatestEnd(s[..|s| - 1], now), EndOrNow(s[|s| - 1].end, now))
  }

  function OwnMs(c: Cause, now: int): int { Max(0, EndOrNow(c.endedAt, now) - c.startedAt) }

  function OwnDurations(causes: seq<Cause>, now: int): seq<CauseDuration> {
    seq(|causes|, k requires 0 <= k < |causes| =>
      CauseDuration(causes[k].id, Duration(OwnMs(causes[k], now), causes[k].endedAt.None?)))
  }

  function SumMs(causes: seq<Cause>, now: int): int {
    if |causes| == 0 then 0 else SumMs(causes[..|causes| - 1], now) + OwnMs(causes[|causes| - 1], now)
  }

  function ImmobilizationDurations(causes: seq<Cause>, now: int, fallback: Option<OpenInterval>): Durations {
    var intervals := ImmobilizationIntervals(causes, fallback);
    var period := Period(EarliestStart(intervals, now), LatestEnd(intervals, now));
    var union := UnionOf(intervals, period, now);
    Durations(Duration(union.totalMs, union.ongoing), OwnDurations(causes, now), SumMs(causes, now) > union.totalMs)
  }

  // ---------------------------------------------------------------- sets of instants

  /** The instants of a cause, a running one being counted up to now. */
  ghost function PointsOf(c: Cause, now: int): set<int> {
    Range(c.startedAt, if c.endedAt.Some? then c.endedAt.value else now)
  }

  ghost function AllPoints(causes: seq<Cause>, now: int): set<int> {
    if |causes| == 0 then {} else AllPoints(causes[..|causes| - 1], now) + PointsOf(causes[|causes| - 1], now)
  }

  /** The two causes share an instant. */
  ghost predicate Together(a: Cause, b: Cause, now: int) {
    exists p :: p in PointsOf(a, now) && p in PointsOf(b, now)
  }

  ghost predicate SomeTogether(causes: seq<Cause>, now: int) {
    exists i, j :: 0 <= i < j < |causes| && Together(causes[i], causes[j], now)
  }

  lemma {:induction false} PeriodHasNow(s: seq<OpenInterval>, now: int)
    ensures EarliestStart(s, now) <= now <= LatestEnd(s, now)
  {
    if |s| == 0 {
    } else {
      PeriodHasNow(s[..|s| - 1], now);
    }
  }

  lemma {:induction false} PeriodEncloses(s: seq<OpenInterval>, now: int, i: OpenInterval)
    requires i in s
    ensures EarliestStart(s, now) <= i.start && EndOrNow(i.end, now) <= LatestEnd(s, now)
    ensures EarliestStart(s, now) <= now <= LatestEnd(s, now)
  {
    var n := |s| - 1;
    assert s == s[..n] + [s[n]];
    PeriodHasNow(s[..n], now);
    if i in s[..n] {
      PeriodEncloses(s[..n], now, i);
    }
  }

  /** The computed period clips nothing away: every instant of every interval is in the union. */
  lemma {:induction false} NothingClipped(causes: seq<Cause>, now: int, fallback: Option<OpenInterval>, p: int)
    ensures var s := ImmobilizationIntervals(causes, fallback);
      var period := Period(EarliestStart(s, now), LatestEnd(s, now));
      InSome(UnionOf(s, period, now).intervals, p) <==> exists i :: i in s && RunsAt(i, now, p)
  {
    var s := ImmobilizationIntervals(causes, fallback);
    var period := Period(EarliestStart(s, now), LatestEnd(s, now));
    UnionCovers(s, period, now);
    if i :| i in s && RunsAt(i, now, p) {
      PeriodEncloses(s, now, i);
    }
  }

  lemma {:induction false} AllPointsMember(causes: seq<Cause>, now: int, p: int)
    ensures p in AllPoints(causes, now) <==> exists k :: 0 <= k < |causes| && p in PointsOf(causes[k], now)
  {
    if |causes| == 0 {
    } else {
      var n := |causes| - 1;
      AllPointsMember(causes[..n], now, p);
      if k :| 0 <= k < |causes| && p in PointsOf(causes[k], now) {
        assert k == n || causes[..n][k] == causes[k];
      }
      if p in AllPoints(causes[..n], now) {
        var k :| 0 <= k < n && p in PointsOf(causes[..n][k], now);
        assert causes[k] == causes[..n][k];
      }
    }
  }

  lemma {:induction false} IntervalsHold(causes: seq<Cause>, now: int, p: int)
    ensures (exists i :: i in IntervalsOf(causes) && RunsAt(i, now, p))
       <==> (exists k :: 0 <= k < |causes| && p in PointsOf(causes[k], now))
  {
    var s := IntervalsOf(causes);
    if k :| 0 <= k < |causes| && p in PointsOf(causes[k], now) {
      assert s[k] in s;
    }
    if i :| i in s && RunsAt(i, now, p) {
      var k :| 0 <= k < |s| && s[k] == i;
      assert p in PointsOf(causes[k], now);
    }
  }

  /** The total is the number of instants in at least one cause. */
  lemma {:induction false} TotalIsAllPoints(causes: seq<Cause>, now: int, fallback: Option<OpenInterval>)
    requires |causes| > 0
    ensures ImmobilizationDurations(causes, now, fallback).total.ms == |AllPoints(causes, now)|
  {
    var s := IntervalsOf(causes);
    var period := Period(EarliestStart(s, now), LatestEnd(s, now));
    TotalIsSize(s, period, now);
    UnionCovers(s, period, now);
    forall p ensures p in AllPoints(causes, now) <==> p in CoveredSet(s, period, now) {
      NothingClipped(causes, now, fallback, p);
      AllPointsMember(causes, now, p);
      IntervalsHold(causes, now, p);
    }
    assert AllPoints(causes, now) == CoveredSet(s, period, now);
  }

  lemma {:induction false} UnionSize(a: set<int>, b: set<int>)
    ensures |a + b| == |a| + |b| - |a * b|
    ensures |a * b| == 0 <==> a * b == {}
  {
  }

  /** The last cause shares an instant with one before. */
  ghost predicate LastTogether(causes: seq<Cause>, now: int)
    requires |causes| > 0
  {
    exists i :: 0 <= i < |causes| - 1 && Together(causes[i], causes[|causes| - 1], now)
  }

  lemma {:induction false} SharedWithLast(causes: seq<Cause>, now: int)
    requires |causes| > 0
    ensures var n := |causes| - 1;
      AllPoints(causes[..n], now) * PointsOf(causes[n], now) != {} <==>
        LastTogether(causes, now)
  {
    var n := |causes| - 1;
    var before, own := AllPoints(causes[..n], now), PointsOf(causes[n], now);
    if p :| p in before * own {
      AllPointsMember(causes[..n], now, p);
      var i :| 0 <= i < n && p in PointsOf(causes[..n][i], now);
      assert Together(causes[i], causes[n], now);
    }
    if i :| 0 <= i < n && Together(causes[i], causes[n], now) {
      var p :| p in PointsOf(causes[i], now) && p in PointsOf(causes[n], now);
      assert p in PointsOf(causes[..n][i], now);
      AllPointsMember(causes[..n], now, p);
      assert p in before * own;
    }
  }

  lemma {:induction false} TogetherBefore(causes: seq<Cause>, now: int, n: nat)
    requires n < |causes| && SomeTogether(causes[..n], now)
    ensures SomeTogether(causes, now)
  {
    var i, j :| 0 <= i < j < n && Together(causes[..n][i], causes[..n][j], now);
    assert Together(causes[i], causes[j], now);
  }

  lemma {:induction false} TogetherSplits(causes: seq<Cause>, now: int, i: nat, j: nat)
    requires i < j < |causes| && Together(causes[i], causes[j], now)
    ensures SomeTogether(causes[..|causes| - 1], now) || LastTogether(causes, now)
  {
    var before := causes[..|causes| - 1];
    if j < |before| {
      assert Together(before[i], before[j], now);
    }
  }

  lemma {:induction false} TogetherPrefix(causes: seq<Cause>, now: int)
    requires |causes| > 0
    ensures SomeTogether(causes, now) <==> SomeTogether(causes[..|causes| - 1], now) || LastTogether(causes, now)
  {
    if SomeTogether(causes[..|causes| - 1], now) {
      TogetherBefore(causes, now, |causes| - 1);
    }
    if SomeTogether(causes, now) {
      var i, j :| 0 <= i < j < |causes| && Together(causes[i], causes[j], now);
      TogetherSplits(causes, now, i, j);
    }
  }

  /** The sum of the durations exceeds the number of instants exactly when two causes share one. */
  lemma {:induction false} SumAgainstPoints(causes: seq<Cause>, now: int)
    ensures |AllPoints(causes, now)| <= SumMs(causes, now)
    ensures |AllPoints(causes, now)| < SumMs(causes, now) <==> SomeTogether(causes, now)
  {
    if |causes| == 0 {
    } else {
      var n := |causes| - 1;
      var before, own := AllPoints(causes[..n], now), PointsOf(causes[n], now);
      SumAgainstPoints(causes[..n], now);
      UnionSize(before, own);
      SharedWithLast(causes, now);
      TogetherPrefix(causes, now);
    }
  }

  // ---------------------------------------------------------------- the promises

  /** `causesOverlap` means that two causes share a positive time. */
  lemma {:induction false} OverlapIffTogether(causes: seq<Cause>, now: int, fallback: Option<OpenInterval>)
    ensures ImmobilizationDurations(causes, now, fallback).causesOverlap <==> SomeTogether(causes, now)
  {
    if |causes| > 0 {
      TotalIsAllPoints(causes, now, fallback);
      SumAgainstPoints(causes, now);
    } else {
      var s := ImmobilizationIntervals(causes, fallback);
      BoundedByPeriod(s, Period(EarliestStart(s, now), LatestEnd(s, now)), now);
    }
  }

  /** Each cause lasts no longer than the total, which is at most the sum of the causes. */
  lemma {:induction false} TotalBetweenLongestAndSum(causes: seq<Cause>, now: int, fallback: Option<OpenInterval>)
    requires |causes| > 0
    ensures var d := ImmobilizationDurations(causes, now, fallback);
      && d.total.ms <= SumMs(causes, now)
      && (forall k :: 0 <= k < |causes| ==> d.causes[k].duration.ms <= d.total.ms)
  {
    TotalIsAllPoints(causes, now, fallback);
    SumAgainstPoints(causes, now);
    forall k | 0 <= k < |causes| ensures OwnMs(causes[k], now) <= |AllPoints(causes, now)| {
      forall p | p in PointsOf(causes[k], now) ensures p in AllPoints(causes, now) {
        AllPointsMember(causes, now, p);
      }
      SubsetSize(PointsOf(causes[k], now), AllPoints(causes, now));
    }
  }

  /** Each cause is listed in its place with the number of its instants, and runs on exactly when it has no end. */
  lemma {:induction false} OwnDurationsMean(causes: seq<Cause>, now: int, fallback: Option<OpenInterval>)
    ensures var d := ImmobilizationDurations(causes, now, fallback);
      && |d.causes| == |causes|
      && forall k :: 0 <= k < |causes| ==>
        && d.causes[k].id == causes[k].id && d.causes[k].duration.ms == |PointsOf(causes[k], now)|
        && (d.causes[k].duration.ongoing <==> causes[k].endedAt.None?)
  {
  }

  /** The immobilization runs on exactly when a cause that has no end began before now. */
  lemma {:induction false} OngoingMeans(causes: seq<Cause>, now: int, fallback: Option<OpenInterval>)
    requires |causes| > 0
    ensures ImmobilizationDurations(causes, now, fallback).total.ongoing <==>
      exists k :: 0 <= k < |causes| && causes[k].endedAt.None? && causes[k].startedAt < now
  {
    var s := IntervalsOf(causes);
    var period := Period(EarliestStart(s, now), LatestEnd(s, now));
    UnionFlags(s, period, now);
    if k :| 0 <= k < |causes| && causes[k].endedAt.None? && causes[k].startedAt < now {
      assert s[k] in s && RunsAt(s[k], now, causes[k].startedAt);
      PeriodEncloses(s, now, s[k]);
    }
    if i, p :| i in s && i.end.None? && period.from <= p < period.to && RunsAt(i, now, p) {
      var k :| 0 <= k < |s| && s[k] == i;
      assert causes[k].endedAt.None? && causes[k].startedAt < now;
    }
  }

  /** The only interval of a list is covered whole by a period that encloses it. */
  lemma {:induction false} OneCovered(s: seq<OpenInterval>, i: OpenInterval, period: Period, now: int)
    requires s == [i] && period.from <= i.start && period.from <= now <= period.to
    requires i.end.Some? ==> i.end.value <= period.to
    ensures CoveredSet(s, period, now) == Range(i.start, if i.end.Some? then i.end.value else now)
  {
    var own := Range(i.start, if i.end.Some? then i.end.value else now);
    assert i in s;
    assert forall p :: p in own <==> RunsAt(i, now, p);
    assert forall p :: p in CoveredSet(s, period, now) <==> p in own;
  }

  lemma {:induction false} OneRunning(s: seq<OpenInterval>, i: OpenInterval, period: Period, now: int)
    requires s == [i] && period.from <= i.start && period.from <= now <= period.to
    ensures SomeRunning(s, now, period.from, period.to) <==> i.end.None? && i.start < now
  {
    assert i in s;
    if i.end.None? && i.start < now {
      assert RunsAt(i, now, i.start);
    }
  }

  lemma {:induction false} NoInterval(now: int)
    ensures var period := Period(EarliestStart([], now), LatestEnd([], now));
      CoveredSet([], period, now) == {} && !SomeRunning([], now, period.from, period.to)
  {
  }

  /** Without any cause the immobilization itself counts, if it is given. */
  lemma {:induction false} FallbackMeans(causes: seq<Cause>, now: int, fallback: Option<OpenInterval>)
    requires |causes| == 0
    ensures var total := ImmobilizationDurations(causes, now, fallback).total;
      match fallback
      case None => total.ms == 0 && !total.ongoing
      case Some(i) =>
        && total.ms == |Range(i.start, if i.end.Some? then i.end.value else now)|
        && (total.ongoing <==> i.end.None? && i.start < now)
  {
    var s := ImmobilizationIntervals(causes, fallback);
    var period := Period(EarliestStart(s, now), LatestEnd(s, now));
    UnionFlags(s, period, now);
    TotalIsSize(s, period, now);
    if fallback.Some? {
      var i := fallback.value;
      PeriodEncloses(s, now, i);
      OneCovered(s, i, period, now);
      OneRunning(s, i, period, now);
    } else {
      NoInterval(now);
    }
  }
}
