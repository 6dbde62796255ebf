/**
 Union of intervals inside a period (apps/api/src/domain/interval-union.ts). Instants are integer
 milliseconds; an interval is the half-open set of instants from its start to its end.
 */
module IntervalUnion {
  import opened Wrappers
  import opened Sorting

  /** An interval; None is an interval still running. */
  datatype OpenInterval = OpenInterval(start: int, end: Option<int>)

  datatype Clipped = Clipped(start: int, end: int, ongoing: bool)

  datatype Union = Union(intervals: seq<Clipped>, totalMs: int, ongoing: bool)

  datatype Period = Period(from: int, to: int)

  function Min(a: int, b: int): int { if a <= b then a else b }

  function Max(a: int, b: int): int { if a >= b then a else b }

  // ---------------------------------------------------------------- what the union means

  /** The end that counts: the real one or, for a running interval, now or the end of the period. */
  function CountedEnd(i: OpenInterval, period: Period, now: int): int {
    if i.end.Some? then i.end.value else Min(now, period.to)
  }

  /** The instant p lies in the interval, one still running being counted up to now. */
  ghost predicate RunsAt(i: OpenInterval, now: int, p: int) {
    i.start <= p && if i.end.Some? then p < i.end.value else p < now
  }

  /** The instant p lies in the period and in some interval. */
  ghost predicate Covered(intervals: seq<OpenInterval>, period: Period, now: int, p: int) {
    period.from <= p < period.to && exists i :: i in intervals && RunsAt(i, now, p)
  }

  /** Some instant from a up to b lies in an interval still running. */
  ghost predicate SomeRunning(intervals: seq<OpenInterval>, now: int, a: int, b: int) {
    exists i, p :: i in intervals && i.end.None? && a <= p < b && RunsAt(i, now, p)
  }

  ghost function CoveredSet(intervals: seq<OpenInterval>, period: Period, now: int): set<int> {
    set p | period.from <= p < period.to && Covered(intervals, period, now, p)
  }

  ghost predicate InSome(s: seq<Clipped>, p: int) {
    exists k :: 0 <= k < |s| && s[k].start <= p < s[k].end
  }

  /** Non-empty intervals in order, with a gap between any two of them. */
  ghost predicate Separated(s: seq<Clipped>) {
    && (forall k :: 0 <= k < |s| ==> s[k].start < s[k].end)
    && (forall j, k :: 0 <= j < k < |s| ==> s[j].end < s[k].start)
  }

  /** Each interval of s is flagged exactly when it absorbed a running piece. */
  ghost predicate FlagsMatch(s: seq<Clipped>, pieces: seq<Clipped>) {
    forall k :: 0 <= k < |s| ==>
      (s[k].ongoing <==> exists c :: c in pieces && c.ongoing && s[k].start <= c.start < s[k].end)
  }

  function Clip(i: OpenInterval, period: Period, now: int): seq<Clipped> {
    var start, end := Max(i.start, period.from), Min(CountedEnd(i, period, now), period.to);
    if end > start then [Clipped(start, end, i.end.None?)] else []
  }

  function ClipAll(intervals: seq<OpenInterval>, period: Period, now: int): seq<Clipped> {
    if |intervals| == 0 then []
      else ClipAll(intervals[..|intervals| - 1], period, now) + Clip(intervals[|intervals| - 1], period, now)
  }

  /** The answer expected of the program, in terms of sets of instants. */
  ghost predicate IsUnion(intervals: seq<OpenInterval>, period: Period, now: int, u: Union) {
    && Separated(u.intervals)
    && (forall p :: InSome(u.intervals, p) <==> Covered(intervals, period, now, p))
    && (forall k :: 0 <= k < |u.intervals| ==>
      (u.intervals[k].ongoing <==> SomeRunning(intervals, now, u.intervals[k].start, u.intervals[k].end)))
    && u.totalMs == |CoveredSet(intervals, period, now)|
    && (u.ongoing <==> SomeRunning(intervals, now, period.from, period.to))
  }

  // ---------------------------------------------------------------- the computation, as functions

  function ByStartThenEnd(): (Clipped, Clipped) -> bool {
    (a: Clipped, b: Clipped) => a.start < b.start || (a.start == b.start && a.end <= b.end)
  }

  function Absorb(merged: seq<Clipped>, c: Clipped): seq<Clipped> {
    if |merged| > 0 && c.start <= merged[|merged| - 1].end then
      var last := merged[|merged| - 1];
      merged[..|merged| - 1] + [Clipped(last.start, Max(last.end, c.end), last.ongoing || c.ongoing)]
    else
      merged + [c]
  }

  function MergeAll(sorted: seq<Clipped>): seq<Clipped> {
    if |sorted| == 0 then [] else Absorb(MergeAll(sorted[..|sorted| - 1]), sorted[|sorted| - 1])
  }

  function Total(s: seq<Clipped>): int {
    if |s| == 0 then 0 else Total(s[..|s| - 1]) + (s[|s| - 1].end - s[|s| - 1].start)
  }

  predicate AnyOngoing(s: seq<Clipped>) {
    exists k :: 0 <= k < |s| && s[k].ongoing
  }

  function UnionOf(intervals: seq<OpenInterval>, period: Period, now: int): Union {
    var merged := MergeAll(Sort(ByStartThenEnd(), ClipAll(intervals, period, now)));
    Union(merged, Total(merged), AnyOngoing(merged))
  }

  lemma {:induction false} PrefixStep<T>(s: seq<T>, k: nat)
    requires k < |s|
    ensures |s[..k + 1]| == k + 1 && s[..k + 1][..k] == s[..k] && s[..k + 1][k] == s[k]
  {
  }

  method ClipIntervals(intervals: seq<OpenInterval>, period: Period, now: int) returns (clipped: seq<Clipped>)
    ensures clipped == ClipAll(intervals, period, now)
  {
    clipped := [];
    for k := 0 to |intervals|
      invariant clipped == ClipAll(intervals[..k], period, now)
    {
      var interval := intervals[k];
      var ongoing := interval.end.None?;
      var rawEnd := if interval.end.Some? then interval.end.value else Min(now, period.to);
      var start := Max(interval.start, period.from);
      var end := Min(rawEnd, period.to);
      PrefixStep(intervals, k);
      if end > start {
        clipped := clipped + [Clipped(start, end, ongoing)];
      }
    }
    assert intervals[..|intervals|] == intervals;
  }

  method MergeSorted(sorted: seq<Clipped>) returns (merged: seq<Clipped>)
    ensures merged == MergeAll(sorted)
  {
    merged := [];
    for k := 0 to |sorted|
      invariant merged == MergeAll(sorted[..k])
    {
      var current := sorted[k];
      PrefixStep(sorted, k);
      if |merged| > 0 && current.start <= merged[|merged| - 1].end {
        var last := merged[|merged| - 1];
        if current.end > last.end {
          last := last.(end := current.end);
        }
        last := last.(ongoing := last.ongoing || current.ongoing);
        merged := merged[..|merged| - 1] + [last];
      } else {
        merged := merged + [current];
      }
    }
    assert sorted[..|sorted|] == sorted;
  }

  method SumUp(merged: seq<Clipped>) returns (totalMs: int, ongoing: bool)
    ensures totalMs == Total(merged)
    ensures ongoing == AnyOngoing(merged)
  {
    totalMs, ongoing := 0, false;
    for k := 0 to |merged|
      invariant totalMs == Total(merged[..k])
      invariant ongoing == AnyOngoing(merged[..k])
    {
      PrefixStep(merged, k);
      totalMs := totalMs + (merged[k].end - merged[k].start);
      ongoing := ongoing || merged[k].ongoing;
    }
    assert merged[..|merged|] == merged;
  }

  lemma {:induction false} InSomeAppend(a: seq<Clipped>, b: seq<Clipped>, p: int)
    ensures InSome(a + b, p) <==> InSome(a, p) || InSome(b, p)
  {
    if InSome(a, p) {
      var k :| 0 <= k < |a| && a[k].start <= p < a[k].end;
      assert (a + b)[k] == a[k];
    }
    if InSome(b, p) {
      var k :| 0 <= k < |b| && b[k].start <= p < b[k].end;
      assert (a + b)[|a| + k] == b[k];
    }
  }

  lemma {:induction false} ClipCovers(i: OpenInterval, period: Period, now: int, p: int)
    ensures InSome(Clip(i, period, now), p) <==> Covered([i], period, now, p)
  {
    var c := Clip(i, period, now);
    if |c| == 1 && c[0].start <= p < c[0].end {
      assert i in [i];
      assert InSome(c, p);
    }
  }

  lemma {:induction false} ClipAllCovers(intervals: seq<OpenInterval>, period: Period, now: int)
    ensures forall c :: c in ClipAll(intervals, period, now) ==> c.start < c.end
    ensures forall p :: InSome(ClipAll(intervals, period, now), p) <==> Covered(intervals, period, now, p)
  {
    if |intervals| == 0 {
    } else {
      var n := |intervals| - 1;
      ClipAllCovers(intervals[..n], period, now);
      var before, own := ClipAll(intervals[..n], period, now), Clip(intervals[n], period, now);
      assert intervals == intervals[..n] + [intervals[n]];
      forall p ensures InSome(before + own, p) <==> Covered(intervals, period, now, p) {
        InSomeAppend(before, own, p);
        assert Covered(intervals, period, now, p) <==>
          Covered(intervals[..n], period, now, p) || Covered([intervals[n]], period, now, p);
        ClipCovers(intervals[n], period, now, p);
      }
    }
  }

  lemma {:induction false} StartOrder()
    ensures TotalPreorder(ByStartThenEnd())
  {
  }

  ghost predicate NonEmpty(s: seq<Clipped>) { forall c :: c in s ==> c.start < c.end }

  /** Non-empty pieces, none starting before the one it follows. */
  ghost predicate Mergeable(s: seq<Clipped>) {
    |s| == 0
    || (s[|s| - 1].start < s[|s| - 1].end && (|s| > 1 ==> s[|s| - 2].start <= s[|s| - 1].start) &&
      Mergeable(s[..|s| - 1]))
  }

  lemma {:induction false} SortedIsMergeable(s: seq<Clipped>)
    requires NonEmpty(s) && Sorted(ByStartThenEnd(), s)
    ensures Mergeable(s)
  {
    if |s| == 0 {
    } else {
      assert |s| > 1 ==> ByStartThenEnd()(s[|s| - 2], s[|s| - 1]);
      assert s[|s| - 1] in s;
      SortedIsMergeable(s[..|s| - 1]);
    }
  }

  /** The same instants. */
  ghost predicate SamePoints(a: seq<Clipped>, b: seq<Clipped>) {
    forall p :: InSome(a, p) <==> InSome(b, p)
  }

  /** The last interval starts no later than c. */
  ghost predicate StartsBefore(m: seq<Clipped>, c: Clipped) { |m| > 0 ==> m[|m| - 1].start <= c.start }

  /** The last interval starts at c or before. */
  ghost predicate EndsAt(m: seq<Clipped>, c: Clipped) { |m| > 0 && m[|m| - 1].start <= c.start }

  lemma {:induction false} InOne(c: Clipped, p: int)
    ensures InSome([c], p) <==> c.start <= p < c.end
  {
    assert [c][0] == c;
  }

  lemma {:induction false} AbsorbCovers(m: seq<Clipped>, c: Clipped)
    requires Separated(m) && c.start < c.end
    requires |m| > 0 ==> m[|m| - 1].start <= c.start
    ensures Separated(Absorb(m, c))
    ensures forall p :: InSome(Absorb(m, c), p) <==> InSome(m, p) || InSome([c], p)
  {
    var r := Absorb(m, c);
    forall p ensures InSome(r, p) <==> InSome(m, p) || InSome([c], p) {
      if |r| == |m| + 1 {
        InSomeAppend(m, [c], p);
      } else {
        var init, last := m[..|m| - 1], m[|m| - 1];
        assert m == init + [last];
        InSomeAppend(init, [last], p);
        InSomeAppend(init, [r[|m| - 1]], p);
        InOne(last, p);
        InOne(c, p);
        InOne(r[|m| - 1], p);
      }
    }
  }

  lemma {:induction false} AbsorbKeeps(m: seq<Clipped>, before: seq<Clipped>, c: Clipped)
    requires Separated(m) && c.start < c.end && StartsBefore(m, c) && SamePoints(m, before)
    ensures Separated(Absorb(m, c)) && SamePoints(Absorb(m, c), before + [c]) && EndsAt(Absorb(m, c), c)
  {
    AbsorbCovers(m, c);
    forall p ensures InSome(Absorb(m, c), p) <==> InSome(before + [c], p) {
      InSomeAppend(before, [c], p);
    }
  }

  /** One step of the merge. */
  lemma {:induction false} MergeOneMore(before: seq<Clipped>, c: Clipped)
    requires Separated(MergeAll(before)) && SamePoints(MergeAll(before), before)
    requires c.start < c.end && StartsBefore(MergeAll(before), c)
    ensures var m := MergeAll(before + [c]); Separated(m) && SamePoints(m, before + [c]) && EndsAt(m, c)
  {
    AbsorbKeeps(MergeAll(before), before, c);
    assert (before + [c])[..|before|] == before;
  }

  /** Merging pieces sorted by start gives separated intervals over the same instants. */
  lemma {:induction false} MergeAllSeparates(s: seq<Clipped>)
    requires Mergeable(s)
    ensures Separated(MergeAll(s)) && SamePoints(MergeAll(s), s)
    ensures |s| > 0 ==> EndsAt(MergeAll(s), s[|s| - 1])
  {
    if |s| == 0 {
    } else {
      var before, c := s[..|s| - 1], s[|s| - 1];
      MergeAllSeparates(before);
      assert |before| == 0 ==> MergeAll(before) == [];
      MergeOneMore(before, c);
      assert s == before + [c];
    }
  }

  lemma {:induction false} MergeableIsNonEmpty(s: seq<Clipped>)
    requires Mergeable(s)
    ensures NonEmpty(s)
  {
    if |s| == 0 {
    } else {
      MergeableIsNonEmpty(s[..|s| - 1]);
      assert s == s[..|s| - 1] + [s[|s| - 1]];
    }
  }

  lemma {:induction false} StartIsCovered(s: seq<Clipped>, d: Clipped)
    requires d in s && d.start < d.end
    ensures InSome(s, d.start)
  {
    var i :| 0 <= i < |s| && s[i] == d;
  }

  lemma {:induction false} StartsBeforeLastEnd(m: seq<Clipped>, before: seq<Clipped>, d: Clipped)
    requires Separated(m) && d in before && d.start < d.end && SamePoints(m, before)
    ensures |m| > 0 && d.start < m[|m| - 1].end
  {
    StartIsCovered(before, d);
    var j :| 0 <= j < |m| && m[j].start <= d.start < m[j].end;
  }

  lemma {:induction false} AbsorbFlags(m: seq<Clipped>, before: seq<Clipped>, c: Clipped)
    requires Separated(m) && c.start < c.end && FlagsMatch(m, before)
    requires StartsBefore(m, c) && NonEmpty(before) && SamePoints(m, before)
    ensures FlagsMatch(Absorb(m, c), before + [c])
  {
    var r := Absorb(m, c);
    var all := before + [c];
    forall d | d in before ensures |m| > 0 && d.start < m[|m| - 1].end {
      StartsBeforeLastEnd(m, before, d);
    }
    forall k | 0 <= k < |r|
      ensures r[k].ongoing <==> exists d :: d in all && d.ongoing && r[k].start <= d.start < r[k].end
    {
      assert c in all;
      assert forall d :: d in all <==> d in before || d == c;
      if k < |m| - 1 || (k == |m| - 1 && |r| == |m| + 1) {
        assert r[k] == m[k];
        assert c.start >= m[k].end;
      }
    }
  }

  /** The flags after one more piece. */
  lemma {:induction false} FlagsOneMore(before: seq<Clipped>, c: Clipped)
    requires Mergeable(before) && FlagsMatch(MergeAll(before), before)
    requires c.start < c.end && (|before| > 0 ==> before[|before| - 1].start <= c.start)
    ensures FlagsMatch(MergeAll(before + [c]), before + [c])
  {
    MergeAllSeparates(before);
    MergeableIsNonEmpty(before);
    assert |before| == 0 ==> MergeAll(before) == [];
    AbsorbFlags(MergeAll(before), before, c);
    assert (before + [c])[..|before|] == before;
  }

  lemma {:induction false} MergeAllFlags(s: seq<Clipped>)
    requires Mergeable(s)
    ensures FlagsMatch(MergeAll(s), s)
  {
    if |s| == 0 {
    } else {
      var before, c := s[..|s| - 1], s[|s| - 1];
      MergeAllFlags(before);
      FlagsOneMore(before, c);
      assert s == before + [c];
    }
  }

  lemma {:induction false} SameCover(a: seq<Clipped>, b: seq<Clipped>, p: int)
    requires forall c :: c in a <==> c in b
    ensures InSome(a, p) <==> InSome(b, p)
  {
    if InSome(a, p) {
      var k :| 0 <= k < |a| && a[k].start <= p < a[k].end;
      assert a[k] in b;
    }
    if InSome(b, p) {
      var k :| 0 <= k < |b| && b[k].start <= p < b[k].end;
      assert b[k] in a;
    }
  }

  lemma {:induction false} MergedPieces(clipped: seq<Clipped>)
    requires forall c :: c in clipped ==> c.start < c.end
    ensures var merged := MergeAll(Sort(ByStartThenEnd(), clipped));
      && Separated(merged)
      && (forall p :: InSome(merged, p) <==> InSome(clipped, p))
      && FlagsMatch(merged, clipped)
  {
    var sorted := Sort(ByStartThenEnd(), clipped);
    StartOrder();
    SortSorted(ByStartThenEnd(), clipped);
    SortMembers(ByStartThenEnd(), clipped);
    SortedIsMergeable(sorted);
    MergeAllSeparates(sorted);
    MergeAllFlags(sorted);
    forall p ensures InSome(sorted, p) <==> InSome(clipped, p) {
      SameCover(sorted, clipped, p);
    }
  }

  lemma {:induction false} UnionCovers(intervals: seq<OpenInterval>, period: Period, now: int)
    ensures var merged := UnionOf(intervals, period, now).intervals;
      && Separated(merged)
      && (forall p :: InSome(merged, p) <==> Covered(intervals, period, now, p))
  {
    ClipAllCovers(intervals, period, now);
    MergedPieces(ClipAll(intervals, period, now));
  }

  ghost function Range(a: int, b: int): (r: set<int>)
    ensures forall p :: p in r <==> a <= p < b
    ensures |r| == Max(0, b - a)
    decreases Max(0, b - a)
  {
    if a < b then Range(a, b - 1) + {b - 1} else {}
  }

  ghost function PointSet(s: seq<Clipped>): set<int> {
    if |s| == 0 then {} else PointSet(s[..|s| - 1]) + Range(s[|s| - 1].start, s[|s| - 1].end)
  }

  lemma {:induction false} PointSetMember(s: seq<Clipped>, p: int)
    ensures p in PointSet(s) <==> InSome(s, p)
  {
    if |s| == 0 {
    } else {
      var n := |s| - 1;
      assert s == s[..n] + [s[n]];
      PointSetMember(s[..n], p);
      InSomeAppend(s[..n], [s[n]], p);
      InOne(s[n], p);
    }
  }

  lemma {:induction false} PointSetBelow(s: seq<Clipped>, p: int)
    requires Separated(s) && p in PointSet(s)
    ensures |s| > 0 && p < s[|s| - 1].end
  {
    PointSetMember(s, p);
    var k :| 0 <= k < |s| && s[k].start <= p < s[k].end;
  }

  /** The length of separated intervals is the number of instants in them. */
  lemma {:induction false} TotalCounts(s: seq<Clipped>)
    requires Separated(s)
    ensures Total(s) == |PointSet(s)|
  {
    if |s| == 0 {
    } else {
      var n := |s| - 1;
      TotalCounts(s[..n]);
      var before, own := PointSet(s[..n]), Range(s[n].start, s[n].end);
      forall p | p in before ensures p !in own {
        PointSetBelow(s[..n], p);
        assert s[n - 1].end < s[n].start;
      }
      assert before !! own;
    }
  }

  lemma {:induction false} TotalIsSize(intervals: seq<OpenInterval>, period: Period, now: int)
    ensures UnionOf(intervals, period, now).totalMs == |CoveredSet(intervals, period, now)|
  {
    var merged := UnionOf(intervals, period, now).intervals;
    UnionCovers(intervals, period, now);
    TotalCounts(merged);
    forall p ensures p in PointSet(merged) <==> p in CoveredSet(intervals, period, now) {
      PointSetMember(merged, p);
    }
    assert PointSet(merged) == CoveredSet(intervals, period, now);
  }

  lemma {:induction false} OngoingIffPiece(merged: seq<Clipped>, clipped: seq<Clipped>)
    requires forall c :: c in clipped ==> c.start < c.end
    requires forall p :: InSome(merged, p) <==> InSome(clipped, p)
    requires FlagsMatch(merged, clipped)
    ensures AnyOngoing(merged) <==> exists c :: c in clipped && c.ongoing
  {
    if c :| c in clipped && c.ongoing {
      StartIsCovered(clipped, c);
      var k :| 0 <= k < |merged| && merged[k].start <= c.start < merged[k].end;
      assert merged[k].ongoing;
    }
  }

  lemma {:induction false} ClipMembers(s: seq<OpenInterval>, period: Period, now: int)
    ensures forall c :: c in ClipAll(s, period, now) <==> exists i :: i in s && c in Clip(i, period, now)
  {
    if |s| == 0 {
    } else {
      var n := |s| - 1;
      ClipMembers(s[..n], period, now);
      assert s == s[..n] + [s[n]];
      assert forall i :: i in s <==> i in s[..n] || i == s[n];
    }
  }

  /** A running piece comes from a running interval, and holds its instants in the period. */
  lemma {:induction false} RunningPiece(i: OpenInterval, period: Period, now: int)
    ensures forall c :: c in Clip(i, period, now) ==>
      (c.ongoing <==> i.end.None?) && c.start >= period.from && RunsAt(i, now, c.start) && c.start < period.to
    ensures forall p :: period.from <= p < period.to && RunsAt(i, now, p) ==>
      exists c :: c in Clip(i, period, now) && c.start <= p < c.end
  {
    forall p | period.from <= p < period.to && RunsAt(i, now, p)
      ensures exists c :: c in Clip(i, period, now) && c.start <= p < c.end
    {
      assert Clip(i, period, now)[0] in Clip(i, period, now);
    }
  }

  /** Instants that follow one another and all lie in separated intervals lie in one of them. */
  lemma {:induction false} Connected(s: seq<Clipped>, a: int, p: int, k: nat)
    requires Separated(s) && k < |s| && s[k].start <= p < s[k].end && a <= p
    requires forall q :: a <= q <= p ==> InSome(s, q)
    ensures s[k].start <= a
  {
    assert !InSome(s, s[k].start - 1);
  }

  lemma {:induction false} PieceOfRunning(
      intervals: seq<OpenInterval>, period: Period, now: int, i: OpenInterval, p: int)
    returns (c: Clipped)
    requires i in intervals && i.end.None? && RunsAt(i, now, p) && period.from <= p < period.to
    ensures c in ClipAll(intervals, period, now) && c.ongoing && c.start <= p < c.end
  {
    RunningPiece(i, period, now);
    ClipMembers(intervals, period, now);
    c :| c in Clip(i, period, now) && c.start <= p < c.end;
  }

  lemma {:induction false} RunningOfPiece(intervals: seq<OpenInterval>, period: Period, now: int, c: Clipped)
    requires c in ClipAll(intervals, period, now) && c.ongoing
    ensures period.from <= c.start < period.to
    ensures exists i :: i in intervals && i.end.None? && RunsAt(i, now, c.start)
  {
    ClipMembers(intervals, period, now);
    var i :| i in intervals && c in Clip(i, period, now);
    RunningPiece(i, period, now);
  }

  /** The merged interval that holds an instant of a piece holds the beginning of the piece. */
  lemma {:induction false} PieceBegins(
      s: seq<Clipped>, clipped: seq<Clipped>, c: Clipped, p: int, k: nat)
    requires Separated(s) && c in clipped && c.start <= p < c.end && k < |s| && s[k].start <= p < s[k].end
    requires forall q :: InSome(s, q) <==> InSome(clipped, q)
    ensures s[k].start <= c.start < s[k].end
  {
    forall q | c.start <= q <= p ensures InSome(s, q) {
      var j :| 0 <= j < |clipped| && clipped[j] == c;
      assert InSome(clipped, q);
    }
    Connected(s, c.start, p, k);
  }

  lemma {:induction false} FlagMeans(
      intervals: seq<OpenInterval>, period: Period, now: int, s: seq<Clipped>, k: nat)
    requires Separated(s) && k < |s| && FlagsMatch(s, ClipAll(intervals, period, now))
    requires forall q :: InSome(s, q) <==> Covered(intervals, period, now, q)
    ensures s[k].ongoing <==> SomeRunning(intervals, now, s[k].start, s[k].end)
  {
    var clipped := ClipAll(intervals, period, now);
    ClipAllCovers(intervals, period, now);
    if c :| c in clipped && c.ongoing && s[k].start <= c.start < s[k].end {
      RunningOfPiece(intervals, period, now, c);
    }
    if i, p :| i in intervals && i.end.None? && s[k].start <= p < s[k].end && RunsAt(i, now, p) {
      assert InSome(s, p);
      var c := PieceOfRunning(intervals, period, now, i, p);
      PieceBegins(s, clipped, c, p, k);
    }
  }

  lemma {:induction false} PieceIffRunning(intervals: seq<OpenInterval>, period: Period, now: int)
    ensures (exists c :: c in ClipAll(intervals, period, now) && c.ongoing) <==>
      SomeRunning(intervals, now, period.from, period.to)
  {
    var clipped := ClipAll(intervals, period, now);
    if c :| c in clipped && c.ongoing {
      RunningOfPiece(intervals, period, now, c);
    }
    if i, p :| i in intervals && i.end.None? && period.from <= p < period.to && RunsAt(i, now, p) {
      var c := PieceOfRunning(intervals, period, now, i, p);
    }
  }

  lemma {:induction false} UnionFlags(intervals: seq<OpenInterval>, period: Period, now: int)
    ensures var u := UnionOf(intervals, period, now);
      && (forall k :: 0 <= k < |u.intervals| ==>
        (u.intervals[k].ongoing <==> SomeRunning(intervals, now, u.intervals[k].start, u.intervals[k].end)))
      && (u.ongoing <==> SomeRunning(intervals, now, period.from, period.to))
  {
    var clipped, merged := ClipAll(intervals, period, now), UnionOf(intervals, period, now).intervals;
    UnionCovers(intervals, period, now);
    ClipAllCovers(intervals, period, now);
    MergedPieces(clipped);
    OngoingIffPiece(merged, clipped);
    PieceIffRunning(intervals, period, now);
    forall k | 0 <= k < |merged|
      ensures merged[k].ongoing <==> SomeRunning(intervals, now, merged[k].start, merged[k].end)
    {
      FlagMeans(intervals, period, now, merged, k);
    }
  }

  /** The computed union is the union in the sense of sets of instants. */
  lemma {:induction false} UnionOfIsUnion(intervals: seq<OpenInterval>, period: Period, now: int)
    ensures IsUnion(intervals, period, now, UnionOf(intervals, period, now))
  {
    UnionCovers(intervals, period, now);
    TotalIsSize(intervals, period, now);
    UnionFlags(intervals, period, now);
  }

  /** Clip, sort and merge, as the program does it. */
  method UnionWithinPeriod(intervals: seq<OpenInterval>, period: Period, now: int) returns (u: Union)
    ensures u == UnionOf(intervals, period, now)
    ensures IsUnion(intervals, period, now, u)
  {
    var clipped := ClipIntervals(intervals, period, now);
    var merged := MergeSorted(Sort(ByStartThenEnd(), clipped));
    var totalMs, ongoing := SumUp(merged);
    u := Union(merged, totalMs, ongoing);
    UnionOfIsUnion(intervals, period, now);
  }

  // ---------------------------------------------------------------- laws of the union

  lemma {:induction false} FirstMatches(a: seq<Clipped>, b: seq<Clipped>)
    requires Separated(a) && Separated(b) && |a| > 0 && |b| > 0
    requires forall p :: InSome(a, p) <==> InSome(b, p)
    ensures a[0].start >= b[0].start
    ensures a[0].start == b[0].start ==> a[0].end <= b[0].end
  {
    assert InSome(a, a[0].start);
    assert !InSome(b, b[0].end);
    assert !InSome(a, b[0].end);
    assert !(a[0].start <= b[0].end < a[0].end);
  }

  lemma {:induction false} InTail(a: seq<Clipped>, p: int)
    requires Separated(a) && |a| > 0
    ensures InSome(a[1..], p) <==> InSome(a, p) && p >= a[0].end
  {
    if InSome(a, p) && p >= a[0].end {
      var k :| 0 <= k < |a| && a[k].start <= p < a[k].end;
      assert a[1..][k - 1] == a[k];
    }
    if InSome(a[1..], p) {
      var k :| 0 <= k < |a[1..]| && a[1..][k].start <= p < a[1..][k].end;
      assert a[k + 1] == a[1..][k];
    }
  }

  /** Separated intervals are determined by the instants they hold. */
  lemma {:induction false} SeparatedUnique(a: seq<Clipped>, b: seq<Clipped>)
    requires Separated(a) && Separated(b)
    requires forall p :: InSome(a, p) <==> InSome(b, p)
    ensures |a| == |b|
    ensures forall k :: 0 <= k < |a| ==> a[k].start == b[k].start && a[k].end == b[k].end
  {
    if |a| == 0 || |b| == 0 {
      if |a| > 0 { assert InSome(a, a[0].start); }
      if |b| > 0 { assert InSome(b, b[0].start); }
    } else {
      FirstMatches(a, b);
      FirstMatches(b, a);
      forall p ensures InSome(a[1..], p) <==> InSome(b[1..], p) {
        InTail(a, p);
        InTail(b, p);
      }
      SeparatedUnique(a[1..], b[1..]);
      forall k | 0 <= k < |a| ensures a[k].start == b[k].start && a[k].end == b[k].end {
        if k > 0 {
          assert a[1..][k - 1] == a[k] && b[1..][k - 1] == b[k];
        }
      }
    }
  }

  /** The meaning leaves one answer only, and it does not depend on the order of the input. */
  lemma {:induction false} UnionUnique(
      a: seq<OpenInterval>, b: seq<OpenInterval>, period: Period, now: int, u: Union, v: Union)
    requires multiset(a) == multiset(b)
    requires IsUnion(a, period, now, u) && IsUnion(b, period, now, v)
    ensures u == v
  {
    SameElements(a, b);
    assert forall p :: Covered(a, period, now, p) <==> Covered(b, period, now, p);
    SeparatedUnique(u.intervals, v.intervals);
    assert CoveredSet(a, period, now) == CoveredSet(b, period, now);
    forall k | 0 <= k < |u.intervals| ensures u.intervals[k] == v.intervals[k] {
      assert u.intervals[k].ongoing == v.intervals[k].ongoing;
    }
  }

  lemma {:induction false} PermutationInvariant(a: seq<OpenInterval>, b: seq<OpenInterval>, period: Period, now: int)
    requires multiset(a) == multiset(b)
    ensures UnionOf(a, period, now) == UnionOf(b, period, now)
  {
    UnionOfIsUnion(a, period, now);
    UnionOfIsUnion(b, period, now);
    UnionUnique(a, b, period, now, UnionOf(a, period, now), UnionOf(b, period, now));
  }

  lemma {:induction false} CoveredSplits(s: seq<OpenInterval>, from: int, mid: int, to: int, now: int)
    requires from <= mid <= to
    ensures forall p :: (Covered(s, Period(from, to), now, p)
      <==> Covered(s, Period(from, mid), now, p) || Covered(s, Period(mid, to), now, p))
  {
    forall p ensures Covered(s, Period(from, to), now, p)
      <==> Covered(s, Period(from, mid), now, p) || Covered(s, Period(mid, to), now, p)
    {
    }
  }

  /** Cutting a period in two shares the total between the parts. */
  lemma {:induction false} AdditiveOverPeriods(s: seq<OpenInterval>, from: int, mid: int, to: int, now: int)
    requires from <= mid <= to
    ensures UnionOf(s, Period(from, to), now).totalMs
         == UnionOf(s, Period(from, mid), now).totalMs + UnionOf(s, Period(mid, to), now).totalMs
  {
    var l, r := CoveredSet(s, Period(from, mid), now), CoveredSet(s, Period(mid, to), now);
    TotalIsSize(s, Period(from, to), now);
    TotalIsSize(s, Period(from, mid), now);
    TotalIsSize(s, Period(mid, to), now);
    CoveredSplits(s, from, mid, to, now);
    assert CoveredSet(s, Period(from, to), now) == l + r;
    assert l !! r;
  }

  lemma {:induction false} SubsetSize<T>(a: set<T>, b: set<T>)
    requires a <= b
    ensures |a| <= |b|
  {
    assert b == a + (b - a);
  }

  /** The total never exceeds the length of the period. */
  lemma {:induction false} BoundedByPeriod(s: seq<OpenInterval>, period: Period, now: int)
    ensures 0 <= UnionOf(s, period, now).totalMs <= Max(0, period.to - period.from)
  {
    TotalIsSize(s, period, now);
    SubsetSize(CoveredSet(s, period, now), Range(period.from, period.to));
  }
}
