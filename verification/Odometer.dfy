/**
 Chronology of the accepted readings of one meter segment (apps/api/src/domain/odometer-rules.ts), with the
 neighbour lookup and the alignment of the segment start that its callers perform.
 */
module Odometer {
  import opened Wrappers
  import opened Sorting

  datatype Origin = Manual | Import | Telematics

  datatype Reading = Reading(id: string, physicalKm: real, observedAt: int, enteredAt: int)

  datatype Segment = Segment(startedAt: int, startPhysicalKm: real, startCumulativeKm: real, ordinary: bool)

  datatype Policy = Policy(maxKmPerDay: real, minAllowanceKm: real, futureToleranceMs: int)

  datatype Code =
    | ValeurNegative | DateFuture | Diminution | ChronologieSuivant | HausseImplausible
    | ConflitMemeInstant | AvantDebutSegment | InferieurDebutSegment

  datatype Evaluation =
    | Accept
    | Idempotent(existingId: string)
    | Pending(code: Code)
    | Reject(code: Code)
    | Conflict(code: Code, existingId: string)

  const DAY_MS := 24 * 3600 * 1000

  function Days(from: int, to: int): real { (if to > from then to - from else 0) as real / DAY_MS as real }

  function AllowedIncrease(policy: Policy, from: int, to: int): real {
    var byRate := policy.maxKmPerDay * Days(from, to);
    if policy.minAllowanceKm >= byRate then policy.minAllowanceKm else byRate
  }

  function CumulativeKm(segment: Segment, physicalKm: real): real {
    segment.startCumulativeKm + (physicalKm - segment.startPhysicalKm)
  }

  /** The instants treated as one: the minute, or the second for an automatic reading. */
  datatype Window = Window(gte: int, lt: int)

  function InstantWindow(origin: Origin, observedAt: int): Window {
    var step := if origin.Telematics? then 1000 else 60000;
    var start := observedAt / step * step;
    Window(start, start + step)
  }

  /** A rise, a fall or a conflict is held back for an automatic reading and refused for a person's. */
  function Refuse(origin: Origin, code: Code): Evaluation {
    if origin.Telematics? then Pending(code) else Reject(code)
  }

  function EvaluateReading(origin: Origin, km: real, observedAt: int, now: int, segment: Segment,
      sameInstant: Option<Reading>, previous: Option<Reading>, next: Option<Reading>, policy: Policy): Evaluation
  {
    if km < 0.0 then Reject(ValeurNegative)
    else if observedAt > now + policy.futureToleranceMs then Reject(DateFuture)
    else if !segment.ordinary && observedAt < segment.startedAt then Refuse(origin, AvantDebutSegment)
    else if sameInstant.Some? then
      if sameInstant.value.physicalKm == km then Idempotent(sameInstant.value.id)
      else if origin.Telematics? then Pending(ConflitMemeInstant)
      else Conflict(ConflitMemeInstant, sameInstant.value.id)
    else if previous.Some? && km < previous.value.physicalKm then Refuse(origin, Diminution)
    else if !segment.ordinary && previous.None? && km < segment.startPhysicalKm
      then Refuse(origin, InferieurDebutSegment)
    else if next.Some? && km > next.value.physicalKm then Refuse(origin, ChronologieSuivant)
    else if previous.Some? &&
      km - previous.value.physicalKm > AllowedIncrease(policy, previous.value.observedAt, observedAt) then
      Pending(HausseImplausible)
    else Accept
  }

  // ---------------------------------------------------------------- neighbours and current reading

  predicate AtMost(a: Reading, b: Reading) {
    a.observedAt < b.observedAt || (a.observedAt == b.observedAt && a.enteredAt <= b.enteredAt)
  }

  /** The latest reading by observation, then by entry; the first listed among equals. */
  function LatestOf(s: seq<Reading>): Option<Reading> {
    if |s| == 0 then None
    else
      var best, last := LatestOf(s[..|s| - 1]), s[|s| - 1];
      if best.Some? && AtMost(last, best.value) then best else Some(last)
  }

  function EarliestOf(s: seq<Reading>): Option<Reading> {
    if |s| == 0 then None
    else
      var best, last := EarliestOf(s[..|s| - 1]), s[|s| - 1];
      if best.Some? && AtMost(best.value, last) then best else Some(last)
  }

  function Before(t: int): Reading -> bool { (r: Reading) => r.observedAt < t }

  function From(t: int): Reading -> bool { (r: Reading) => r.observedAt >= t }

  function Within(w: Window): Reading -> bool { (r: Reading) => w.gte <= r.observedAt < w.lt }

  lemma {:induction false} LatestIsLatest(s: seq<Reading>)
    ensures LatestOf(s).None? <==> |s| == 0
    ensures LatestOf(s).Some? ==> LatestOf(s).value in s && forall x :: x in s ==> AtMost(x, LatestOf(s).value)
  {
    if |s| == 0 {
    } else {
      LatestIsLatest(s[..|s| - 1]);
      assert s == s[..|s| - 1] + [s[|s| - 1]];
    }
  }

  /** The current reading: the loop of `pickCurrent`. */
  method PickCurrent(accepted: seq<Reading>) returns (best: Option<Reading>)
    ensures best == LatestOf(accepted)
    ensures best.None? <==> |accepted| == 0
    ensures best.Some? ==> best.value in accepted && forall x :: x in accepted ==> AtMost(x, best.value)
  {
    best := None;
    for k := 0 to |accepted|
      invariant best == LatestOf(accepted[..k])
    {
      assert accepted[..k + 1][..k] == accepted[..k];
      var r := accepted[k];
      if best.None? || r.observedAt > best.value.observedAt
        || (r.observedAt == best.value.observedAt && r.enteredAt > best.value.enteredAt)
      {
        best := Some(r);
      }
    }
    assert accepted[..|accepted|] == accepted;
    LatestIsLatest(accepted);
  }

  lemma {:induction false} EarliestIsEarliest(s: seq<Reading>)
    ensures EarliestOf(s).None? <==> |s| == 0
    ensures EarliestOf(s).Some? ==> EarliestOf(s).value in s && forall x :: x in s ==> AtMost(EarliestOf(s).value, x)
  {
    if |s| == 0 {
    } else {
      EarliestIsEarliest(s[..|s| - 1]);
      assert s == s[..|s| - 1] + [s[|s| - 1]];
    }
  }

  // ---------------------------------------------------------------- the accepted readings as a state machine

  datatype State = State(segment: Segment, accepted: seq<Reading>)

  datatype Submission = Submission(origin: Origin, reading: Reading, now: int)

  function Judge(s: State, x: Submission, policy: Policy): Evaluation {
    var w := InstantWindow(x.origin, x.reading.observedAt);
    EvaluateReading(x.origin, x.reading.physicalKm, x.reading.observedAt, x.now, s.segment,
      EarliestOf(Filter(Within(w), s.accepted)), LatestOf(Filter(Before(w.gte), s.accepted)),
      EarliestOf(Filter(From(w.lt), s.accepted)), policy)
  }

  datatype Start = Start(startedAt: int, startPhysicalKm: real)

  /** The start an ordinary first segment moves to; None when nothing changes. */
  function OrdinaryFirstSegmentStart(current: Start, earliest: Option<Reading>): Option<Start> {
    if earliest.None? then None
    else
      var startedAt := if earliest.value.observedAt < current.startedAt then earliest.value.observedAt
        else current.startedAt;
      if startedAt == current.startedAt && earliest.value.physicalKm == current.startPhysicalKm then None
      else Some(Start(startedAt, earliest.value.physicalKm))
  }

  function Realign(s: State): State {
    if !s.segment.ordinary then s
    else
      var start := OrdinaryFirstSegmentStart(Start(s.segment.startedAt, s.segment.startPhysicalKm),
        EarliestOf(s.accepted));
      if start.None? then s
      else s.(segment := s.segment.(startedAt := start.value.startedAt,
        startPhysicalKm := start.value.startPhysicalKm, startCumulativeKm := start.value.startPhysicalKm))
  }

  function Submit(s: State, x: Submission, policy: Policy): State {
    if Judge(s, x, policy) == Accept then Realign(s.(accepted := s.accepted + [x.reading])) else s
  }

  function Run(s: State, xs: seq<Submission>, policy: Policy): State {
    if |xs| == 0 then s else Submit(Run(s, xs[..|xs| - 1], policy), xs[|xs| - 1], policy)
  }

  // ---------------------------------------------------------------- what every run keeps

  ghost predicate OnePerSecond(s: seq<Reading>) {
    forall i, j :: 0 <= i < j < |s| ==> s[i].observedAt / 1000 != s[j].observedAt / 1000
  }

  ghost predicate Chronological(s: seq<Reading>) {
    forall x, y :: x in s && y in s && x.observedAt <= y.observedAt ==> x.physicalKm <= y.physicalKm
  }

  ghost predicate AboveStart(s: State) {
    !s.segment.ordinary ==> forall x :: x in s.accepted ==>
      x.observedAt >= s.segment.startedAt && x.physicalKm >= s.segment.startPhysicalKm
  }

  /** The start of an ordinary segment is its earliest accepted reading, and cumulated equals physical. */
  ghost predicate Aligned(s: State, initial: Segment) {
    s.segment.ordinary && |s.accepted| > 0 ==>
      var first := EarliestOf(s.accepted);
      && first.Some?
      && s.segment.startPhysicalKm == first.value.physicalKm
      && s.segment.startedAt
        == (if first.value.observedAt < initial.startedAt then first.value.observedAt else initial.startedAt)
      && s.segment.startCumulativeKm == s.segment.startPhysicalKm
  }

  ghost predicate Inv(s: State, initial: Segment) {
    && OnePerSecond(s.accepted) && Chronological(s.accepted) && AboveStart(s) && Aligned(s, initial)
    && s.segment.ordinary == initial.ordinary
    && (!initial.ordinary || |s.accepted| == 0 ==> s.segment == initial)
    && (initial.ordinary ==>
      initial.startCumulativeKm == initial.startPhysicalKm && s.segment.startCumulativeKm == s.segment.startPhysicalKm)
  }

  ghost predicate Opening(s: State) {
    s.accepted == [] && (s.segment.ordinary ==> s.segment.startCumulativeKm == s.segment.startPhysicalKm)
  }

  lemma {:induction false} WindowHolds(origin: Origin, t: int)
    ensures var w := InstantWindow(origin, t);
      && w.gte <= t < w.lt
      && (forall u :: u / 1000 == t / 1000 ==> w.gte <= u < w.lt)
  {
    assert t / 60000 == t / 1000 / 60;
    forall u | u / 1000 == t / 1000 ensures InstantWindow(origin, t).gte <= u < InstantWindow(origin, t).lt {
      assert u / 60000 == u / 1000 / 60;
    }
  }

  /** What acceptance means with respect to the accepted readings. */
  lemma {:induction false} AcceptMeans(s: State, x: Submission, policy: Policy)
    requires Judge(s, x, policy) == Accept && OnePerSecond(s.accepted) && Chronological(s.accepted) && AboveStart(s)
    ensures x.reading.physicalKm >= 0.0 && x.reading.observedAt <= x.now + policy.futureToleranceMs
    ensures forall r :: r in s.accepted ==> r.observedAt / 1000 != x.reading.observedAt / 1000
    ensures forall r :: r in s.accepted && r.observedAt <= x.reading.observedAt ==> r.physicalKm <= x.reading.physicalKm
    ensures forall r :: r in s.accepted && x.reading.observedAt <= r.observedAt ==> x.reading.physicalKm <= r.physicalKm
    ensures !s.segment.ordinary ==>
      x.reading.observedAt >= s.segment.startedAt && x.reading.physicalKm >= s.segment.startPhysicalKm
  {
    var w := InstantWindow(x.origin, x.reading.observedAt);
    WindowHolds(x.origin, x.reading.observedAt);
    var same, before, after := Filter(Within(w), s.accepted), Filter(Before(w.gte), s.accepted),
      Filter(From(w.lt), s.accepted);
    FilterMembers(Within(w), s.accepted);
    FilterMembers(Before(w.gte), s.accepted);
    FilterMembers(From(w.lt), s.accepted);
    EarliestIsEarliest(same);
    LatestIsLatest(before);
    EarliestIsEarliest(after);
    forall r | r in s.accepted
      ensures r.observedAt < w.gte || w.lt <= r.observedAt
      ensures r.observedAt < w.gte ==> LatestOf(before).Some? && r.observedAt <= LatestOf(before).value.observedAt
      ensures w.lt <= r.observedAt ==> EarliestOf(after).Some? && EarliestOf(after).value.observedAt <= r.observedAt
    {
      assert r !in same;
      assert r.observedAt < w.gte ==> r in before;
      assert w.lt <= r.observedAt ==> r in after;
    }
  }

  lemma {:induction false} AcceptKeepsOrder(s: State, x: Submission, policy: Policy)
    requires Judge(s, x, policy) == Accept && OnePerSecond(s.accepted) && Chronological(s.accepted) && AboveStart(s)
    ensures OnePerSecond(s.accepted + [x.reading]) && Chronological(s.accepted + [x.reading])
    ensures AboveStart(s.(accepted := s.accepted + [x.reading]))
  {
    AcceptMeans(s, x, policy);
    var t := s.accepted + [x.reading];
    forall i, j | 0 <= i < j < |t| ensures t[i].observedAt / 1000 != t[j].observedAt / 1000 {
      if j == |s.accepted| {
        assert s.accepted[i] in s.accepted;
      }
    }
    assert forall r :: r in t <==> r in s.accepted || r == x.reading;
  }

  /** The state after one more accepted reading, before the segment start is realigned. */
  ghost predicate Extended(s: State, t: State, x: Reading) {
    && t.segment == s.segment && t.accepted == s.accepted + [x]
    && OnePerSecond(t.accepted) && Chronological(t.accepted) && AboveStart(t)
  }

  lemma {:induction false} EarliestAfter(s: seq<Reading>, x: Reading)
    ensures EarliestOf(s + [x]) == if EarliestOf(s).Some? && AtMost(EarliestOf(s).value, x) then EarliestOf(s)
      else Some(x)
    ensures EarliestOf(s).None? <==> |s| == 0
  {
    assert (s + [x])[..|s|] == s;
    EarliestIsEarliest(s);
  }

  lemma {:induction false} RealignAligns(s: State, t: State, x: Reading, initial: Segment)
    requires Inv(s, initial) && Extended(s, t, x)
    ensures Aligned(Realign(t), initial)
    ensures Realign(t).segment.ordinary == initial.ordinary
    ensures !initial.ordinary ==> Realign(t) == t
    ensures initial.ordinary ==> Realign(t).segment.startCumulativeKm == Realign(t).segment.startPhysicalKm
  {
    EarliestAfter(s.accepted, x);
  }

  lemma {:induction false} RealignKeeps(s: State, t: State, x: Reading, initial: Segment)
    requires Inv(s, initial) && Extended(s, t, x)
    ensures Inv(Realign(t), initial)
  {
    RealignAligns(s, t, x, initial);
    assert Realign(t).accepted == t.accepted;
  }

  lemma {:induction false} SubmitKeeps(s: State, x: Submission, policy: Policy, initial: Segment)
    requires Inv(s, initial)
    ensures Inv(Submit(s, x, policy), initial)
  {
    if Judge(s, x, policy) == Accept {
      AcceptKeepsOrder(s, x, policy);
      RealignKeeps(s, s.(accepted := s.accepted + [x.reading]), x.reading, initial);
    }
  }

  /** Every run of submissions keeps the accepted readings in order and the segment start aligned. */
  lemma {:induction false} RunKeeps(s: State, xs: seq<Submission>, policy: Policy)
    requires Opening(s)
    ensures Inv(Run(s, xs, policy), s.segment)
  {
    if |xs| == 0 {
    } else {
      RunKeeps(s, xs[..|xs| - 1], policy);
      SubmitKeeps(Run(s, xs[..|xs| - 1], policy), xs[|xs| - 1], policy, s.segment);
    }
  }

  /** Cumulated kilometres begin where the segment says and then grow as the meter does. */
  lemma {:induction false} CumulativeFollowsMeter(g: Segment, a: real, b: real)
    ensures CumulativeKm(g, g.startPhysicalKm) == g.startCumulativeKm
    ensures CumulativeKm(g, b) - CumulativeKm(g, a) == b - a
  {
  }

  /** On an ordinary first segment cumulated kilometres are those of the meter, after every run. */
  lemma {:induction false} OrdinaryCumulatesPhysical(s: State, xs: seq<Submission>, policy: Policy, km: real)
    requires Opening(s) && s.segment.ordinary
    ensures CumulativeKm(Run(s, xs, policy).segment, km) == km
  {
    RunKeeps(s, xs, policy);
  }

  /** The current reading has the highest value of all, and no submission moves it back. */
  lemma {:induction false} CurrentIsMaximal(s: State, xs: seq<Submission>, x: Submission, policy: Policy)
    requires Opening(s)
    ensures var t := Run(s, xs, policy);
      forall c, r :: LatestOf(t.accepted) == Some(c) && r in t.accepted ==> r.physicalKm <= c.physicalKm
    ensures var t, u := Run(s, xs, policy), Run(s, xs + [x], policy);
      LatestOf(t.accepted).Some? ==>
        && LatestOf(u.accepted).Some?
        && LatestOf(t.accepted).value.physicalKm <= LatestOf(u.accepted).value.physicalKm
        && LatestOf(t.accepted).value.observedAt <= LatestOf(u.accepted).value.observedAt
  {
    var t, u := Run(s, xs, policy), Run(s, xs + [x], policy);
    RunKeeps(s, xs, policy);
    RunKeeps(s, xs + [x], policy);
    assert (xs + [x])[..|xs|] == xs;
    LatestIsLatest(t.accepted);
    LatestIsLatest(u.accepted);
    forall r | r in t.accepted ensures r in u.accepted {
    }
  }

  // ---------------------------------------------------------------- which readings are accepted

  /** The accepted reading falls in the same minute, or for an automatic submission in the same second. */
  ghost predicate SameInstant(s: State, x: Submission, r: Reading) {
    r in s.accepted &&
      if x.origin.Telematics? then r.observedAt / 1000 == x.reading.observedAt / 1000
      else r.observedAt / 60000 == x.reading.observedAt / 60000
  }

  /** The last accepted reading before that instant. */
  ghost predicate IsPrevious(s: State, x: Submission, p: Reading) {
    && p in s.accepted && p.observedAt < x.reading.observedAt && !SameInstant(s, x, p)
    && forall r :: r in s.accepted && r.observedAt < x.reading.observedAt && !SameInstant(s, x, r) ==>
      r.observedAt <= p.observedAt
  }

  /** The first accepted reading after that instant. */
  ghost predicate IsNext(s: State, x: Submission, n: Reading) {
    && n in s.accepted && n.observedAt > x.reading.observedAt && !SameInstant(s, x, n)
    && forall r :: r in s.accepted && r.observedAt > x.reading.observedAt && !SameInstant(s, x, r) ==>
      n.observedAt <= r.observedAt
  }

  /** The first accepted reading of that instant. */
  ghost predicate IsFirstThere(s: State, x: Submission, r: Reading) {
    SameInstant(s, x, r) && forall other :: SameInstant(s, x, other) ==> r.observedAt <= other.observedAt
  }

  /** More kilometres since p than the least allowance and than the daily rate gives. */
  ghost predicate TooSteep(x: Submission, p: Reading, policy: Policy) {
    var rise, elapsed := x.reading.physicalKm - p.physicalKm, x.reading.observedAt - p.observedAt;
    rise > policy.minAllowanceKm && rise * 86_400_000.0 > policy.maxKmPerDay * elapsed as real
  }

  /** Not negative, not in the future, and not before the start of a segment that declares one. */
  ghost predicate Admissible(s: State, x: Submission, policy: Policy) {
    && x.reading.physicalKm >= 0.0 && x.reading.observedAt <= x.now + policy.futureToleranceMs
    && (s.segment.ordinary || x.reading.observedAt >= s.segment.startedAt)
  }

  lemma {:induction false} InWindow(origin: Origin, t: int, u: int)
    ensures var w := InstantWindow(origin, t);
      && (w.gte <= u < w.lt <==> (if origin.Telematics? then u / 1000 == t / 1000 else u / 60000 == t / 60000))
      && (u < w.gte ==> u < t) && (w.lt <= u ==> t < u) && (u < t ==> u < w.lt) && (t < u ==> w.gte <= u)
  {
  }

  /** The neighbours that are looked up are these. */
  lemma {:induction false} NeighboursAre(s: State, x: Submission)
    ensures var w := InstantWindow(x.origin, x.reading.observedAt);
      var same, p, n := EarliestOf(Filter(Within(w), s.accepted)), LatestOf(Filter(Before(w.gte), s.accepted)),
        EarliestOf(Filter(From(w.lt), s.accepted));
      && (same.None? ==> forall r :: !SameInstant(s, x, r)) && (same.Some? ==> IsFirstThere(s, x, same.value))
      && (p.None? ==> forall r :: !IsPrevious(s, x, r)) && (p.Some? ==> IsPrevious(s, x, p.value))
      && (n.None? ==> forall r :: !IsNext(s, x, r)) && (n.Some? ==> IsNext(s, x, n.value))
  {
    var t, w := x.reading.observedAt, InstantWindow(x.origin, x.reading.observedAt);
    FilterMembers(Within(w), s.accepted);
    FilterMembers(Before(w.gte), s.accepted);
    FilterMembers(From(w.lt), s.accepted);
    EarliestIsEarliest(Filter(Within(w), s.accepted));
    LatestIsLatest(Filter(Before(w.gte), s.accepted));
    EarliestIsEarliest(Filter(From(w.lt), s.accepted));
    forall r | r in s.accepted
      ensures r in Filter(Within(w), s.accepted) <==> SameInstant(s, x, r)
      ensures r in Filter(Before(w.gte), s.accepted) <==> r.observedAt < t && !SameInstant(s, x, r)
      ensures r in Filter(From(w.lt), s.accepted) <==> r.observedAt > t && !SameInstant(s, x, r)
    {
      InWindow(x.origin, t, r.observedAt);
    }
  }

  lemma {:induction false} RateOverTime(rate: real, elapsed: real, rise: real)
    ensures rise > rate * (elapsed / 86_400_000.0) <==> rise * 86_400_000.0 > rate * elapsed
  {
    assert rate * (elapsed / 86_400_000.0) * 86_400_000.0 == rate * elapsed;
  }

  lemma {:induction false} SteepIsAboveAllowed(x: Submission, p: Reading, policy: Policy)
    requires p.observedAt < x.reading.observedAt
    ensures TooSteep(x, p, policy) <==>
      x.reading.physicalKm - p.physicalKm > AllowedIncrease(policy, p.observedAt, x.reading.observedAt)
  {
    var rise, elapsed := x.reading.physicalKm - p.physicalKm, (x.reading.observedAt - p.observedAt) as real;
    var rate := policy.maxKmPerDay;
    RateOverTime(rate, elapsed, rise);
    assert Days(p.observedAt, x.reading.observedAt) == elapsed / 86_400_000.0;
  }

  /** At most one accepted reading is the previous one, and so on. */
  lemma {:induction false} NeighboursUnique(s: State, x: Submission, a: Reading, b: Reading)
    requires OnePerSecond(s.accepted)
    ensures IsPrevious(s, x, a) && IsPrevious(s, x, b) ==> a == b
    ensures IsNext(s, x, a) && IsNext(s, x, b) ==> a == b
    ensures IsFirstThere(s, x, a) && IsFirstThere(s, x, b) ==> a == b
  {
    if a in s.accepted && b in s.accepted && a.observedAt == b.observedAt {
      var i :| 0 <= i < |s.accepted| && s.accepted[i] == a;
      var j :| 0 <= j < |s.accepted| && s.accepted[j] == b;
      assert i == j;
    }
  }

  ghost predicate Falls(s: State, x: Submission) {
    exists p :: IsPrevious(s, x, p) && x.reading.physicalKm < p.physicalKm
  }

  /** Below the start of a segment that declares one, with nothing accepted before. */
  ghost predicate BelowStart(s: State, x: Submission) {
    !s.segment.ordinary && x.reading.physicalKm < s.segment.startPhysicalKm && forall p :: !IsPrevious(s, x, p)
  }

  ghost predicate AboveNext(s: State, x: Submission) {
    exists n :: IsNext(s, x, n) && x.reading.physicalKm > n.physicalKm
  }

  ghost predicate Rises(s: State, x: Submission, policy: Policy) {
    exists p :: IsPrevious(s, x, p) && TooSteep(x, p, policy)
  }

  /** Admissible, and no accepted reading of the same instant. */
  ghost predicate Alone(s: State, x: Submission, policy: Policy) {
    Admissible(s, x, policy) && forall r :: !SameInstant(s, x, r)
  }

  predicate HasCode(e: Evaluation, code: Code) { (e.Pending? || e.Reject? || e.Conflict?) && e.code == code }

  /** Each relation to the neighbours, by the neighbours that are looked up. */
  lemma {:induction false} RelationsAre(s: State, x: Submission, policy: Policy)
    requires OnePerSecond(s.accepted)
    ensures var w, km := InstantWindow(x.origin, x.reading.observedAt), x.reading.physicalKm;
      var p, n := LatestOf(Filter(Before(w.gte), s.accepted)), EarliestOf(Filter(From(w.lt), s.accepted));
      && (Falls(s, x) <==> p.Some? && km < p.value.physicalKm)
      && (BelowStart(s, x) <==> !s.segment.ordinary && p.None? && km < s.segment.startPhysicalKm)
      && (AboveNext(s, x) <==> n.Some? && km > n.value.physicalKm)
      && (p.None? ==> !Rises(s, x, policy))
      && (p.Some? ==> (Rises(s, x, policy) <==>
        km - p.value.physicalKm > AllowedIncrease(policy, p.value.observedAt, x.reading.observedAt)))
  {
    var w := InstantWindow(x.origin, x.reading.observedAt);
    var p, n := LatestOf(Filter(Before(w.gte), s.accepted)), EarliestOf(Filter(From(w.lt), s.accepted));
    NeighboursAre(s, x);
    if p.Some? {
      SteepIsAboveAllowed(x, p.value, policy);
      forall q | IsPrevious(s, x, q) ensures q == p.value { NeighboursUnique(s, x, q, p.value); }
    }
    if n.Some? {
      forall q | IsNext(s, x, q) ensures q == n.value { NeighboursUnique(s, x, q, n.value); }
    }
  }

  lemma {:induction false} InstantIs(s: State, x: Submission)
    requires OnePerSecond(s.accepted)
    ensures var w := InstantWindow(x.origin, x.reading.observedAt);
      var same := EarliestOf(Filter(Within(w), s.accepted));
      && (same.None? <==> forall r :: !SameInstant(s, x, r))
      && (same.None? <==> forall r :: !IsFirstThere(s, x, r))
      && (same.Some? ==> forall r :: IsFirstThere(s, x, r) <==> r == same.value)
  {
    var w := InstantWindow(x.origin, x.reading.observedAt);
    var same := EarliestOf(Filter(Within(w), s.accepted));
    NeighboursAre(s, x);
    if same.Some? {
      forall r | IsFirstThere(s, x, r) ensures r == same.value { NeighboursUnique(s, x, r, same.value); }
    }
  }

  /**
   A reading is accepted if and only if it is admissible, alone in its instant, between its neighbours, not below the
   start of a segment that declares one, and no steeper than allowed since the previous one.
   */
  lemma {:induction false} AcceptIff(s: State, x: Submission, policy: Policy)
    requires OnePerSecond(s.accepted)
    ensures Judge(s, x, policy) == Accept <==>
      Alone(s, x, policy) && !Falls(s, x) && !BelowStart(s, x) && !AboveNext(s, x) && !Rises(s, x, policy)
  {
    InstantIs(s, x);
    RelationsAre(s, x, policy);
  }

  /** Every outcome that does not depend on the neighbours, exactly in its case. */
  lemma {:induction false} OwnOutcomeIff(s: State, x: Submission, policy: Policy)
    requires OnePerSecond(s.accepted)
    ensures var e, km, late := Judge(s, x, policy), x.reading.physicalKm,
      x.reading.observedAt > x.now + policy.futureToleranceMs;
      && (HasCode(e, ValeurNegative) <==> km < 0.0)
      && (HasCode(e, DateFuture) <==> km >= 0.0 && late)
      && (HasCode(e, AvantDebutSegment) <==>
        km >= 0.0 && !late && !s.segment.ordinary && x.reading.observedAt < s.segment.startedAt)
      && (HasCode(e, ConflitMemeInstant) <==>
        Admissible(s, x, policy) && exists r :: IsFirstThere(s, x, r) && r.physicalKm != km)
  {
    InstantIs(s, x);
  }

  /** Every refusal because of the neighbours, exactly in its case. */
  lemma {:induction false} NeighbourOutcomeIff(s: State, x: Submission, policy: Policy)
    requires OnePerSecond(s.accepted)
    ensures var e, alone, low := Judge(s, x, policy), Alone(s, x, policy), Falls(s, x) || BelowStart(s, x);
      && (HasCode(e, Diminution) <==> alone && Falls(s, x))
      && (HasCode(e, InferieurDebutSegment) <==> alone && BelowStart(s, x))
      && (HasCode(e, ChronologieSuivant) <==> alone && !low && AboveNext(s, x))
      && (HasCode(e, HausseImplausible) <==> alone && !low && !AboveNext(s, x) && Rises(s, x, policy))
  {
    InstantIs(s, x);
    RelationsAre(s, x, policy);
  }

  /** A reading is recognized exactly when the first accepted one of its instant has its kilometres. */
  lemma {:induction false} IdempotentIff(s: State, x: Submission, policy: Policy, id: string)
    requires OnePerSecond(s.accepted)
    ensures Judge(s, x, policy) == Idempotent(id) <==>
      (Admissible(s, x, policy) &&
       exists r :: IsFirstThere(s, x, r) && r.physicalKm == x.reading.physicalKm && r.id == id)
    ensures Judge(s, x, policy) == Conflict(ConflitMemeInstant, id) <==>
      (!x.origin.Telematics? && Admissible(s, x, policy) &&
       exists r :: IsFirstThere(s, x, r) && r.physicalKm != x.reading.physicalKm && r.id == id)
  {
    InstantIs(s, x);
  }

  // ---------------------------------------------------------------- automatic and manual readings

  /**
   An automatic reading is refused outright exactly when it is negative or in the future, and else held back; a
   person's reading is held back exactly for an implausible rise, and a conflict is named as one.
   */
  lemma {:induction false} OutcomeByOrigin(s: State, x: Submission, policy: Policy)
    ensures var e := Judge(s, x, policy);
      if x.origin.Telematics? then
        !e.Conflict? && (e.Reject? ==> e.code in {ValeurNegative, DateFuture}) &&
          (e.Pending? ==> e.code !in {ValeurNegative, DateFuture})
      else
        (e.Pending? ==> e.code == HausseImplausible) && (e.Conflict? ==> e.code == ConflitMemeInstant) &&
          (e.Reject? ==> e.code !in {HausseImplausible, ConflitMemeInstant})
  {
  }

  lemma {:induction false} AloneInWindow(accepted: seq<Reading>, r: Reading, w: Window)
    requires EarliestOf(Filter(Within(w), accepted)).None? && w.gte <= r.observedAt < w.lt
    ensures Filter(Within(w), accepted + [r]) == [r]
  {
    EarliestIsEarliest(Filter(Within(w), accepted));
    FilterAppend(Within(w), accepted, [r]);
    assert Filter(Within(w), [r]) == [r];
  }

  lemma {:induction false} EvaluateAgain(x: Submission, g: Segment, g': Segment, same: Option<Reading>,
    p: Option<Reading>, n: Option<Reading>,
      p': Option<Reading>, n': Option<Reading>, policy: Policy)
    requires EvaluateReading(x.origin, x.reading.physicalKm, x.reading.observedAt, x.now, g, same, p, n, policy)
      == Accept
    requires g'.ordinary == g.ordinary && (!g.ordinary ==> g' == g)
    ensures same.None?
    ensures EvaluateReading(x.origin, x.reading.physicalKm, x.reading.observedAt, x.now, g', Some(x.reading), p', n',
      policy)
      == Idempotent(x.reading.id)
  {
  }

  /** Sending an accepted reading again changes nothing and names the reading already there. */
  lemma {:induction false} ResubmitIsIdempotent(s: State, x: Submission, policy: Policy)
    requires Judge(s, x, policy) == Accept
    ensures Judge(Submit(s, x, policy), x, policy) == Idempotent(x.reading.id)
  {
    var w, t := InstantWindow(x.origin, x.reading.observedAt), Submit(s, x, policy);
    var same, same' := EarliestOf(Filter(Within(w), s.accepted)), EarliestOf(Filter(Within(w), t.accepted));
    AloneInWindow(s.accepted, x.reading, w);
    assert same' == Some(x.reading) by {
      assert [x.reading][..0] == [];
    }
    EvaluateAgain(x, s.segment, t.segment, same,
      LatestOf(Filter(Before(w.gte), s.accepted)), EarliestOf(Filter(From(w.lt), s.accepted)),
      LatestOf(Filter(Before(w.gte), t.accepted)), EarliestOf(Filter(From(w.lt), t.accepted)), policy);
  }

  // ---------------------------------------------------------------- the rise of an append-only run

  /** Every submission was observed after all readings accepted so far. */
  ghost predicate AppendOnly(s: State, xs: seq<Submission>, policy: Policy) {
    |xs| == 0 || (
      var t := Run(s, xs[..|xs| - 1], policy);
      AppendOnly(s, xs[..|xs| - 1], policy) && forall r ::
        r in t.accepted ==> r.observedAt < xs[|xs| - 1].reading.observedAt)
  }

  /** n allowances plus the daily rate over the time elapsed. */
  function RiseBound(n: int, policy: Policy, from: int, to: int): real {
    n as real * policy.minAllowanceKm + policy.maxKmPerDay * Days(from, to)
  }

  ghost predicate RiseBounded(s: seq<Reading>, policy: Policy) {
    |s| > 0 ==>
      && (forall r :: r in s ==> s[0].observedAt <= r.observedAt <= s[|s| - 1].observedAt)
      && s[|s| - 1].physicalKm - s[0].physicalKm <= RiseBound(|s| - 1, policy, s[0].observedAt, s[|s| - 1].observedAt)
  }

  lemma {:induction false} DaysAdd(a: int, b: int, c: int)
    requires a <= b <= c
    ensures Days(a, b) + Days(b, c) == Days(a, c)
  {
  }

  lemma {:induction false} AllowedBelowSum(policy: Policy, a: int, b: int)
    requires policy.minAllowanceKm >= 0.0 && policy.maxKmPerDay >= 0.0 && a <= b
    ensures AllowedIncrease(policy, a, b) <= policy.minAllowanceKm + policy.maxKmPerDay * Days(a, b)
  {
    assert Days(a, b) >= 0.0;
    assert policy.maxKmPerDay * Days(a, b) >= 0.0;
  }

  lemma {:induction false} BoundGrows(n: int, policy: Policy, a: int, b: int, c: int)
    requires policy.minAllowanceKm >= 0.0 && policy.maxKmPerDay >= 0.0 && a <= b <= c
    ensures RiseBound(n, policy, a, b) + AllowedIncrease(policy, b, c) <= RiseBound(n + 1, policy, a, c)
  {
    var min, rate := policy.minAllowanceKm, policy.maxKmPerDay;
    DaysAdd(a, b, c);
    AllowedBelowSum(policy, b, c);
    assert (n + 1) as real * min == n as real * min + min;
    assert rate * (Days(a, b) + Days(b, c)) == rate * Days(a, b) + rate * Days(b, c);
  }

  lemma {:induction false} PreviousIsLast(s: State, x: Submission, policy: Policy)
    requires |s.accepted| > 0 && OnePerSecond(s.accepted) && Chronological(s.accepted) && AboveStart(s)
    requires forall r :: r in s.accepted ==>
      r.observedAt <= s.accepted[|s.accepted| - 1].observedAt < x.reading.observedAt
    requires Judge(s, x, policy) == Accept
    ensures var last := s.accepted[|s.accepted| - 1];
      x.reading.physicalKm - last.physicalKm <= AllowedIncrease(policy, last.observedAt, x.reading.observedAt)
  {
    var last := s.accepted[|s.accepted| - 1];
    var w := InstantWindow(x.origin, x.reading.observedAt);
    WindowHolds(x.origin, x.reading.observedAt);
    var before := Filter(Before(w.gte), s.accepted);
    FilterMember(Within(w), s.accepted, last);
    FilterMember(Before(w.gte), s.accepted, last);
    EarliestIsEarliest(Filter(Within(w), s.accepted));
    LatestIsLatest(before);
    var p := LatestOf(before).value;
    FilterMember(Before(w.gte), s.accepted, p);
    assert p.observedAt == last.observedAt && p.physicalKm == last.physicalKm;
  }

  lemma {:induction false} AppendKeepsRise(s: State, x: Submission, policy: Policy)
    requires policy.minAllowanceKm >= 0.0 && policy.maxKmPerDay >= 0.0
    requires OnePerSecond(s.accepted) && Chronological(s.accepted) && AboveStart(s)
    requires RiseBounded(s.accepted, policy)
    requires forall r :: r in s.accepted ==> r.observedAt < x.reading.observedAt
    requires Judge(s, x, policy) == Accept
    ensures RiseBounded(s.accepted + [x.reading], policy)
  {
    var t := s.accepted + [x.reading];
    assert forall r :: r in t ==> r in s.accepted || r == x.reading;
    if |s.accepted| > 0 {
      var first, last := s.accepted[0], s.accepted[|s.accepted| - 1];
      PreviousIsLast(s, x, policy);
      BoundGrows(|s.accepted| - 1, policy, first.observedAt, last.observedAt, x.reading.observedAt);
    } else {
      assert Days(x.reading.observedAt, x.reading.observedAt) == 0.0;
    }
  }

  /** Over n readings the rise is at most (n - 1) allowances plus the daily rate over the time elapsed. */
  lemma {:induction false} AppendOnlyRise(s: State, xs: seq<Submission>, policy: Policy)
    requires Opening(s) && AppendOnly(s, xs, policy)
    requires policy.minAllowanceKm >= 0.0 && policy.maxKmPerDay >= 0.0
    ensures RiseBounded(Run(s, xs, policy).accepted, policy)
  {
    if |xs| == 0 {
    } else {
      var before := xs[..|xs| - 1];
      var t := Run(s, before, policy);
      AppendOnlyRise(s, before, policy);
      RunKeeps(s, before, policy);
      if Judge(t, xs[|xs| - 1], policy) == Accept {
        AppendKeepsRise(t, xs[|xs| - 1], policy);
      }
    }
  }
}
