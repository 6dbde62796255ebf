/** Due points and status of maintenance plans (apps/api/src/domain/maintenance-schedule.ts). */
module Maintenance {
  import opened Wrappers
  import opened Calendar
  import opened Sorting

  datatype Intervals = Intervals(
    intervalKm: Option<real>, intervalMonths: Option<int>, intervalDays: Option<int>,
    noticeKm: Option<real>, noticeDays: Option<int>)

  datatype BaseMode = DerniereOperation | BaseTechnique | EcheanceInitiale | Aucune

  /** An operation done, or the declared base of the plan (no task). */
  datatype Point = Point(taskId: Option<string>, date: Option<Civil>, km: Option<real>)

  datatype BaseInput = BaseInput(
    mode: BaseMode, initialBaseKm: Option<real>, initialBaseDate: Option<Civil>,
    initialNextDueKm: Option<real>, initialNextDueDate: Option<Civil>, initialDueSince: Option<Civil>,
    operations: seq<Point>)

  datatype Due = Due(base: Option<Point>, nextDueKm: Option<real>, nextDueDate: Option<Civil>, fromInitialDue: bool)

  datatype Status = EnRetard | AFaire | APrevoir | AJour | Incomplet

  function Urgency(s: Status): int {
    match s case EnRetard => 4 case AFaire => 3 case APrevoir => 2 case AJour => 1 case Incomplet => 0
  }

  // ---------------------------------------------------------------- the most recent operation

  /** compareCivil */
  function CompareCivil(a: Civil, b: Civil): int {
    if DayNumber(a) < DayNumber(b) then -1 else if DayNumber(a) > DayNumber(b) then 1 else 0
  }

  /** Whether p takes the place of best. */
  predicate Replaces(p: Point, best: Point) {
    var cmp := if p.date.Some? && best.date.Some? then CompareCivil(p.date.value, best.date.value) else 0;
    cmp > 0 || (cmp == 0 && p.km.Some? && (best.km.None? || p.km.value > best.km.value))
  }

  function MostRecent(points: seq<Point>): Option<Point> {
    if |points| == 0 then None
    else
      var best, p := MostRecent(points[..|points| - 1]), points[|points| - 1];
      if p.date.None? && p.km.None? then best
      else if best.None? || Replaces(p, best.value) then Some(p)
      else best
  }

  ghost predicate AllDated(points: seq<Point>) { forall p :: p in points ==> p.date.Some? }

  /** By date, then by kilometres; an unknown number of kilometres comes first. */
  predicate NotAfter(a: Point, b: Point)
    requires a.date.Some? && b.date.Some?
  {
    DayNumber(a.date.value) < DayNumber(b.date.value)
    || (DayNumber(a.date.value) == DayNumber(b.date.value) && (a.km.None? || (b.km.Some? && a.km.value <= b.km.value)))
  }

  /** The latest point by (date, km) of a list of dated points. */
  ghost predicate IsLatest(points: seq<Point>, best: Option<Point>)
    requires AllDated(points)
  {
    if |points| == 0 then best.None?
    else best.Some? && best.value in points && forall p :: p in points ==> NotAfter(p, best.value)
  }

  lemma {:induction false} MostRecentIsLatest(points: seq<Point>)
    requires AllDated(points)
    ensures IsLatest(points, MostRecent(points))
  {
    if |points| == 0 {
    } else {
      var before := points[..|points| - 1];
      assert points == before + [points[|points| - 1]];
      MostRecentIsLatest(before);
    }
  }

  method MostRecentOperation(points: seq<Point>) returns (best: Option<Point>)
    ensures best == MostRecent(points)
    ensures AllDated(points) ==> IsLatest(points, best)
  {
    best := None;
    for k := 0 to |points|
      invariant best == MostRecent(points[..k])
    {
      assert points[..k + 1][..k] == points[..k];
      var p := points[k];
      if p.date.None? && p.km.None? {
        continue;
      }
      if best.None? {
        best := Some(p);
        continue;
      }
      var cmp := if p.date.Some? && best.value.date.Some? then CompareCivil(p.date.value, best.value.date.value) else 0;
      if cmp > 0 {
        best := Some(p);
      } else if cmp == 0 {
        if p.km.Some? && (best.value.km.None? || p.km.value > best.value.km.value) {
          best := Some(p);
        } else if p.date.None? && best.value.date.None? && p.km.Some? && best.value.km.Some? &&
          p.km.value > best.value.km.value {
          best := Some(p);
        }
      }
    }
    assert points[..|points|] == points;
    if AllDated(points) {
      MostRecentIsLatest(points);
    }
  }

  /** A point without date and kilometres is passed over. */
  predicate Blank(p: Point) { p.date.None? && p.km.None? }

  predicate AtPlace(a: Point, b: Point) { a.date == b.date && a.km == b.km }

  /** The same date and the same kilometres. */
  predicate SamePlace(a: Option<Point>, b: Option<Point>) {
    if a.None? || b.None? then a.None? && b.None? else AtPlace(a.value, b.value)
  }

  lemma {:induction false} ReplacesByPlace(p: Point, q: Point, a: Point, b: Point)
    requires AtPlace(p, q) && AtPlace(a, b)
    ensures Replaces(p, a) == Replaces(q, b) && !Replaces(p, q)
  {
    if p.date.Some? && a.date.Some? {
      OrderIsDayOrder(p.date.value, a.date.value);
    }
  }

  /** One more point. */
  lemma {:induction false} MostRecentOneMore(s: seq<Point>, p: Point)
    ensures MostRecent(s + [p]) ==
      if Blank(p) then MostRecent(s)
      else if MostRecent(s).None? || Replaces(p, MostRecent(s).value) then Some(p)
      else MostRecent(s)
  {
    assert (s + [p])[..|s|] == s;
  }

  /** The point chosen is one of the list and is not blank; there is none only when all are blank. */
  lemma {:induction false} MostRecentMember(s: seq<Point>)
    ensures MostRecent(s).Some? ==> MostRecent(s).value in s && !Blank(MostRecent(s).value)
    ensures MostRecent(s).None? <==> forall p :: p in s ==> Blank(p)
  {
    if |s| == 0 {
    } else {
      var before := s[..|s| - 1];
      MostRecentMember(before);
      assert s == before + [s[|s| - 1]];
    }
  }

  // ---------------------------------------------------------------- when the order of entry decides

  /** In a comparison of two points t wins over p, whichever is entered first. */
  predicate Beats(t: Point, p: Point) { Blank(p) || AtPlace(p, t) || (Replaces(t, p) && !Replaces(p, t)) }

  /** t wins over every point of the list. */
  ghost predicate Winner(t: Point, s: seq<Point>) { !Blank(t) && t in s && forall p :: p in s ==> Beats(t, p) }

  /** Every order of entry of the same points gives the same date and kilometres. */
  ghost predicate OrderFree(s: seq<Point>) {
    forall a :: multiset(a) == multiset(s) ==> SamePlace(MostRecent(a), MostRecent(s))
  }

  lemma {:induction false} WinnerStep(t: Point, best: Point, p: Point)
    requires !Blank(t) && !Blank(best) && Beats(t, best) && Beats(t, p)
    ensures AtPlace(best, t) && !Blank(p) && Replaces(p, best) ==> AtPlace(p, t)
    ensures AtPlace(p, t) && !Replaces(p, best) ==> AtPlace(best, t)
  {
    if AtPlace(best, t) {
      ReplacesByPlace(p, p, best, t);
      if AtPlace(p, t) {
        ReplacesByPlace(p, t, best, best);
      }
    }
    if AtPlace(p, t) {
      ReplacesByPlace(p, t, best, best);
    }
  }

  /** A point that beats every point of a list is the one chosen once it has been seen. */
  lemma {:induction false} WinnerIsChosen(t: Point, s: seq<Point>)
    requires !Blank(t) && forall p :: p in s ==> Beats(t, p)
    ensures (exists p :: p in s && AtPlace(p, t)) ==> SamePlace(MostRecent(s), Some(t))
    decreases |s|
  {
    if |s| == 0 {
    } else {
      var before, p := s[..|s| - 1], s[|s| - 1];
      assert s == before + [p];
      assert Beats(t, p);
      WinnerIsChosen(t, before);
      MostRecentMember(before);
      MostRecentOneMore(before, p);
      if MostRecent(before).Some? {
        var best := MostRecent(before).value;
        assert Beats(t, best);
        WinnerStep(t, best, p);
      }
    }
  }

  /** After a point that none of them replaces, further points change nothing. */
  lemma {:induction false} NoneReplaces(s: seq<Point>, p: Point, more: seq<Point>)
    requires MostRecent(s) == Some(p)
    requires forall q :: q in more ==> Blank(q) || !Replaces(q, p)
    ensures MostRecent(s + more) == Some(p)
    decreases |more|
  {
    if |more| == 0 {
      assert s + more == s;
    } else {
      var init, q := more[..|more| - 1], more[|more| - 1];
      assert more == init + [q] && s + more == (s + init) + [q];
      NoneReplaces(s, p, init);
      MostRecentOneMore(s + init, q);
    }
  }

  /** Whatever is entered later, the point chosen is the one chosen so far or one of the later ones. */
  lemma {:induction false} ChosenSoFarOrLater(s: seq<Point>, more: seq<Point>)
    ensures MostRecent(s + more) == MostRecent(s) || (MostRecent(s + more).Some? && MostRecent(s + more).value in more)
    decreases |more|
  {
    if |more| == 0 {
      assert s + more == s;
    } else {
      var init, q := more[..|more| - 1], more[|more| - 1];
      assert more == init + [q] && s + more == (s + init) + [q];
      ChosenSoFarOrLater(s, init);
      MostRecentOneMore(s + init, q);
    }
  }

  function Without(s: seq<Point>, i: nat): seq<Point>
    requires i < |s|
  {
    s[..i] + s[i + 1..]
  }

  lemma {:induction false} TakenOut(s: seq<Point>, i: nat)
    requires i < |s|
    ensures multiset([s[i]] + Without(s, i)) == multiset(s)
    ensures multiset(Without(s, i) + [s[i]]) == multiset(s)
  {
    assert s == s[..i] + ([s[i]] + s[i + 1..]);
  }

  /** With p entered last, only a point that p does not replace can be chosen in every order. */
  lemma {:induction false} LastDoesNotReplace(s: seq<Point>, t: Point, i: nat)
    requires OrderFree(s) && i < |s| && SamePlace(MostRecent(s), Some(t)) && !Blank(s[i]) && !AtPlace(s[i], t)
    ensures !Replaces(s[i], t)
  {
    var p, rest := s[i], Without(s, i);
    TakenOut(s, i);
    assert SamePlace(MostRecent(rest + [p]), MostRecent(s));
    MostRecentOneMore(rest, p);
    ReplacesByPlace(p, p, MostRecent(rest).value, t);
  }

  function AtPlaceOf(t: Point): Point -> bool { (p: Point) => AtPlace(p, t) }

  function NotAtPlaceOf(t: Point): Point -> bool { (p: Point) => !AtPlace(p, t) }

  lemma {:induction false} SplitByPlace(t: Point, s: seq<Point>)
    ensures multiset(Filter(AtPlaceOf(t), s) + Filter(NotAtPlaceOf(t), s)) == multiset(s)
    decreases |s|
  {
    if |s| == 0 {
    } else {
      SplitByPlace(t, s[1..]);
      assert s == [s[0]] + s[1..];
    }
  }

  /**
   With p entered first and the points at t's place next, only a point that replaces p can be chosen in every
   order.
   */
  lemma {:induction false} FirstIsReplaced(s: seq<Point>, t: Point, i: nat)
    requires OrderFree(s) && i < |s| && SamePlace(MostRecent(s), Some(t)) && !Blank(s[i]) && !AtPlace(s[i], t)
    ensures Replaces(t, s[i])
  {
    var p, rest := s[i], Without(s, i);
    var same, others := Filter(AtPlaceOf(t), rest), Filter(NotAtPlaceOf(t), rest);
    TakenOut(s, i);
    SplitByPlace(t, rest);
    var order := ([p] + same) + others;
    assert order == [p] + (same + others);
    assert multiset(order) == multiset([p] + rest);
    assert SamePlace(MostRecent(order), MostRecent(s));
    if !Replaces(t, p) {
      MostRecentOneMore([], p);
      assert [] + [p] == [p];
      forall q | q in same ensures Blank(q) || !Replaces(q, p) {
        FilterMember(AtPlaceOf(t), rest, q);
        ReplacesByPlace(q, t, p, p);
      }
      NoneReplaces([p], p, same);
      ChosenSoFarOrLater([p] + same, others);
      FilterMember(NotAtPlaceOf(t), rest, MostRecent(order).value);
    }
  }

  /**
   The order of entry does not matter exactly when all points are blank or one of them wins over every other.
   */
  lemma {:induction false} EntryOrderIrrelevant(s: seq<Point>)
    ensures OrderFree(s) <==> (forall p :: p in s ==> Blank(p)) || exists t :: Winner(t, s)
  {
    MostRecentMember(s);
    if t :| Winner(t, s) {
      forall a | multiset(a) == multiset(s) ensures SamePlace(MostRecent(a), MostRecent(s)) {
        SameElements(a, s);
        WinnerIsChosen(t, a);
        WinnerIsChosen(t, s);
      }
    }
    if forall p :: p in s ==> Blank(p) {
      forall a | multiset(a) == multiset(s) ensures SamePlace(MostRecent(a), MostRecent(s)) {
        SameElements(a, s);
        MostRecentMember(a);
      }
    }
    if OrderFree(s) && MostRecent(s).Some? {
      var t := MostRecent(s).value;
      forall p | p in s ensures Beats(t, p) {
        var i :| 0 <= i < |s| && s[i] == p;
        if !Blank(p) && !AtPlace(p, t) {
          LastDoesNotReplace(s, t, i);
          FirstIsReplaced(s, t, i);
        }
      }
      assert Winner(t, s);
    }
  }

  /**
   A dated point wins when it is the latest by (date, km) and has more kilometres than every undated point; an
   undated one when it has more kilometres than every dated point and at least those of every undated one.
   */
  lemma {:induction false} WinnerMeans(t: Point, s: seq<Point>)
    ensures Winner(t, s) <==> !Blank(t) && t in s && forall p :: p in s ==>
      if t.date.Some? && p.date.Some? then NotAfter(p, t)
      else if t.date.Some? then p.km.None? || (t.km.Some? && p.km.value < t.km.value)
      else if p.date.Some? then p.km.None? || p.km.value < t.km.value
      else p.km.None? || p.km.value <= t.km.value
  {
    forall p | p in s && !Blank(t) && t.date.Some? && p.date.Some? ensures Beats(t, p) <==> NotAfter(p, t) {
      OrderIsDayOrder(p.date.value, t.date.value);
    }
  }

  /** Among dated points the latest wins, so their order does not matter. */
  lemma {:induction false} DatedIsOrderFree(s: seq<Point>)
    requires AllDated(s)
    ensures OrderFree(s)
  {
    EntryOrderIrrelevant(s);
    MostRecentIsLatest(s);
    MostRecentMember(s);
    if |s| > 0 {
      WinnerMeans(MostRecent(s).value, s);
    }
  }

  // ---------------------------------------------------------------- an undated base, entered first

  predicate Exceeds(p: Point, u: Point)
    requires u.km.Some?
  {
    p.km.Some? && p.km.value > u.km.value
  }

  /** Every order of the operations after the base gives the same date and kilometres. */
  ghost predicate OrderFreeAfter(u: Point, s: seq<Point>) {
    forall a :: multiset(a) == multiset(s) ==> SamePlace(MostRecent([u] + a), MostRecent([u] + s))
  }

  /** No operation has more kilometres than the base, or the latest by (date, km) has. */
  ghost predicate LatestSettles(u: Point, s: seq<Point>)
    requires u.km.Some? && AllDated(s)
  {
    (forall p :: p in s ==> !Exceeds(p, u)) || exists l :: IsLatest(s, Some(l)) && Exceeds(l, u)
  }

  lemma {:induction false} BaseAlone(u: Point)
    requires !Blank(u)
    ensures MostRecent([u]) == Some(u)
  {
    MostRecentOneMore([], u);
    assert [] + [u] == [u];
  }

  /** If the latest operation settles, it is chosen in every order, or the base is. */
  lemma {:induction false} SettledChoice(u: Point, s: seq<Point>, a: seq<Point>)
    requires u.date.None? && u.km.Some? && AllDated(s) && |s| > 0 && LatestSettles(u, s) && multiset(a) == multiset(s)
    ensures if exists l :: IsLatest(s, Some(l)) && Exceeds(l, u)
      then exists l :: IsLatest(s, Some(l)) && Exceeds(l, u) && SamePlace(MostRecent([u] + a), Some(l))
      else MostRecent([u] + a) == Some(u)
  {
    SameElements(a, s);
    BaseAlone(u);
    if l :| IsLatest(s, Some(l)) && Exceeds(l, u) {
      WinnerMeans(l, [u] + a);
      WinnerIsChosen(l, [u] + a);
    } else {
      NoneReplaces([u], u, a);
    }
  }

  lemma {:induction false} LatestPlace(s: seq<Point>, l: Point, m: Point)
    requires AllDated(s) && |s| > 0 && IsLatest(s, Some(l)) && IsLatest(s, Some(m))
    ensures AtPlace(l, m)
  {
    OrderIsDayOrder(l.date.value, m.date.value);
  }

  lemma {:induction false} SettledIsFree(u: Point, s: seq<Point>)
    requires u.date.None? && u.km.Some? && AllDated(s) && |s| > 0 && LatestSettles(u, s)
    ensures OrderFreeAfter(u, s)
  {
    forall a | multiset(a) == multiset(s) ensures SamePlace(MostRecent([u] + a), MostRecent([u] + s)) {
      SettledChoice(u, s, a);
      SettledChoice(u, s, s);
      if exists l :: IsLatest(s, Some(l)) && Exceeds(l, u) {
        var l :| IsLatest(s, Some(l)) && Exceeds(l, u) && SamePlace(MostRecent([u] + a), Some(l));
        var m :| IsLatest(s, Some(m)) && Exceeds(m, u) && SamePlace(MostRecent([u] + s), Some(m));
        LatestPlace(s, l, m);
      }
    }
  }

  function ExceedsBase(u: Point): Point -> bool
    requires u.km.Some?
  {
    (p: Point) => Exceeds(p, u)
  }

  function WithinBase(u: Point): Point -> bool
    requires u.km.Some?
  {
    (p: Point) => !Exceeds(p, u)
  }

  lemma {:induction false} SplitByBase(u: Point, s: seq<Point>)
    requires u.km.Some?
    ensures multiset(Filter(WithinBase(u), s) + Filter(ExceedsBase(u), s)) == multiset(s)
    decreases |s|
  {
    if |s| == 0 {
    } else {
      SplitByBase(u, s[1..]);
      assert s == [s[0]] + s[1..];
    }
  }

  /** Entered one after the other behind the base, operations that exceed it take its place. */
  lemma {:induction false} ExceedingTakesOver(s: seq<Point>, u: Point, more: seq<Point>)
    requires u.date.None? && u.km.Some? && MostRecent(s) == Some(u) && |more| > 0
    requires AllDated(more) && forall p :: p in more ==> Exceeds(p, u)
    ensures MostRecent(s + more).Some? && MostRecent(s + more).value in more
    decreases |more|
  {
    var init, q := more[..|more| - 1], more[|more| - 1];
    assert more == init + [q] && s + more == (s + init) + [q];
    MostRecentOneMore(s + init, q);
    assert q in more && forall p :: p in init ==> p in more;
    if |init| == 0 {
      assert s + init == s;
      assert MostRecent(s + more) == Some(q);
    } else {
      ExceedingTakesOver(s, u, init);
    }
  }

  /** The base does not matter once an operation that exceeds it comes next. */
  lemma {:induction false} BaseForgotten(u: Point, e: Point, more: seq<Point>)
    requires u.date.None? && u.km.Some? && e.date.Some? && Exceeds(e, u)
    ensures MostRecent([u] + ([e] + more)) == MostRecent([e] + more)
    decreases |more|
  {
    if |more| == 0 {
      BaseAlone(u);
      BaseAlone(e);
      MostRecentOneMore([u], e);
      assert [e] + more == [e];
    } else {
      var init, q := more[..|more| - 1], more[|more| - 1];
      assert [e] + more == ([e] + init) + [q] && [u] + ([e] + more) == ([u] + ([e] + init)) + [q];
      BaseForgotten(u, e, init);
      MostRecentOneMore([e] + init, q);
      MostRecentOneMore([u] + ([e] + init), q);
    }
  }

  /** An operation that exceeds the base, entered right after it, leads to the latest operation. */
  lemma {:induction false} ExceedingFirst(u: Point, s: seq<Point>, i: nat, l: Point)
    requires u.date.None? && u.km.Some? && AllDated(s) && i < |s| && Exceeds(s[i], u) && IsLatest(s, Some(l))
    ensures SamePlace(MostRecent([u] + ([s[i]] + Without(s, i))), Some(l))
  {
    var a := [s[i]] + Without(s, i);
    TakenOut(s, i);
    SameElements(a, s);
    BaseForgotten(u, s[i], Without(s, i));
    MostRecentIsLatest(a);
    LatestPlace(s, MostRecent(a).value, l);
  }

  /** Operations that exceed the base, entered last, lead to one of them. */
  lemma {:induction false} ExceedingLast(u: Point, s: seq<Point>, e: Point)
    requires u.date.None? && u.km.Some? && AllDated(s) && e in s && Exceeds(e, u)
    ensures var r := MostRecent([u] + (Filter(WithinBase(u), s) + Filter(ExceedsBase(u), s)));
      r.Some? && Exceeds(r.value, u)
  {
    var within, above := Filter(WithinBase(u), s), Filter(ExceedsBase(u), s);
    FilterMembers(WithinBase(u), s);
    FilterMembers(ExceedsBase(u), s);
    BaseAlone(u);
    forall q | q in within ensures Blank(q) || !Replaces(q, u) {
      assert WithinBase(u)(q);
    }
    NoneReplaces([u], u, within);
    assert e in above;
    ExceedingTakesOver([u] + within, u, above);
    assert [u] + (within + above) == ([u] + within) + above;
    assert ExceedsBase(u)(MostRecent(([u] + within) + above).value);
  }

  lemma {:induction false} OrderedAlike(u: Point, s: seq<Point>, a: seq<Point>, b: seq<Point>)
    requires OrderFreeAfter(u, s) && multiset(a) == multiset(s) && multiset(b) == multiset(s)
    ensures SamePlace(MostRecent([u] + a), MostRecent([u] + b))
  {
    assert SamePlace(MostRecent([u] + a), MostRecent([u] + s)) && SamePlace(MostRecent([u] + b), MostRecent([u] + s));
  }

  /**
   After an undated base the order of dated operations does not matter exactly when none of them has more
   kilometres than the base, or the latest of them has.
   */
  lemma {:induction false} BaseOrderIff(u: Point, s: seq<Point>)
    requires u.date.None? && u.km.Some? && AllDated(s) && |s| > 0
    ensures OrderFreeAfter(u, s) <==> LatestSettles(u, s)
  {
    if LatestSettles(u, s) {
      SettledIsFree(u, s);
    } else {
      var e :| e in s && Exceeds(e, u);
      var i :| 0 <= i < |s| && s[i] == e;
      MostRecentIsLatest(s);
      var l := MostRecent(s).value;
      ExceedingFirst(u, s, i, l);
      ExceedingLast(u, s, e);
      TakenOut(s, i);
      SplitByBase(u, s);
      var a, b := [s[i]] + Without(s, i), Filter(WithinBase(u), s) + Filter(ExceedsBase(u), s);
      assert multiset(a) == multiset(s) && multiset(b) == multiset(s);
      if OrderFreeAfter(u, s) {
        OrderedAlike(u, s, a, b);
      }
    }
  }

  /** A base at 50 km, then 100 km in January and 40 km in February: the order of the two decides. */
  lemma {:induction false} UndatedBaseIsOrdered()
    ensures var u := Point(None, None, Some(50.0));
      var january, february := Point(None, Some(Date(2026, 1, 1)), Some(100.0)),
        Point(None, Some(Date(2026, 2, 1)), Some(40.0));
      MostRecent([u] + [january, february]) == Some(february) && MostRecent([u] + [february, january]) == Some(january)
  {
    var u := Point(None, None, Some(50.0));
    var january, february := Point(None, Some(Date(2026, 1, 1)), Some(100.0)),
      Point(None, Some(Date(2026, 2, 1)), Some(40.0));
    BaseAlone(u);
    OrderIsDayOrder(january.date.value, february.date.value);
    MostRecentOneMore([u], january);
    MostRecentOneMore([u] + [january], february);
    MostRecentOneMore([u], february);
    MostRecentOneMore([u] + [february], january);
    assert [u] + [january, february] == ([u] + [january]) + [february];
    assert [u] + [february, january] == ([u] + [february]) + [january];
  }

  // ---------------------------------------------------------------- the next due point

  /** A zero interval counts as absent, as in the program. */
  predicate Given(n: Option<int>) { n.Some? && n.value != 0 }

  function DeclaredBase(input: BaseInput): seq<Point> {
    if (input.mode.DerniereOperation? || input.mode.BaseTechnique?) &&
      (input.initialBaseKm.Some? || input.initialBaseDate.Some?)
    then [Point(None, input.initialBaseDate, input.initialBaseKm)] else []
  }

  function SinceCreation(ops: seq<Point>, since: Civil): seq<Point> {
    if |ops| == 0 then []
    else
      var op := ops[|ops| - 1];
      var before := SinceCreation(ops[..|ops| - 1], since);
      if op.date.Some? && CompareCivil(op.date.value, since) >= 0 then before + [op] else before
  }

  function BasePoints(input: BaseInput): seq<Point> {
    DeclaredBase(input)
    + (if input.mode.EcheanceInitiale? && input.initialDueSince.Some?
       then SinceCreation(input.operations, input.initialDueSince.value) else input.operations)
  }

  function DueDate(intervals: Intervals, date: Option<Civil>): Option<Civil> {
    if date.None? then None
    else if Given(intervals.intervalMonths) then Some(AddCalendarMonths(date.value, intervals.intervalMonths.value))
    else if Given(intervals.intervalDays) then Some(AddDays(date.value, intervals.intervalDays.value))
    else None
  }

  function ComputeNextDue(intervals: Intervals, input: BaseInput): Due {
    var base := MostRecent(BasePoints(input));
    if base.None? && input.mode.EcheanceInitiale? then Due(None, input.initialNextDueKm, input.initialNextDueDate, true)
    else if base.None? then Due(None, None, None, false)
    else
      var km := if intervals.intervalKm.Some? && base.value.km.Some?
        then Some(base.value.km.value + intervals.intervalKm.value) else None;
      Due(base, km, DueDate(intervals, base.value.date), false)
  }

  /** The date due lies so many months on, to the end of a shorter month, or so many days. */
  ghost predicate DueFrom(intervals: Intervals, base: Option<Civil>, due: Option<Civil>) {
    if base.None? then due.None?
    else if intervals.intervalMonths.Some? && intervals.intervalMonths.value != 0 then
      && due.Some?
      && 12 * due.value.y + due.value.m == 12 * base.value.y + base.value.m + intervals.intervalMonths.value
      && (due.value.d == base.value.d
          || (due.value.d < base.value.d && due.value.d == DaysInMonth(due.value.y, due.value.m)))
    else if intervals.intervalDays.Some? && intervals.intervalDays.value != 0 then
      due.Some? && DayNumber(due.value) == DayNumber(base.value) + intervals.intervalDays.value
    else due.None?
  }

  lemma {:induction false} DueDateIsFrom(intervals: Intervals, date: Option<Civil>)
    ensures DueFrom(intervals, date, DueDate(intervals, date))
  {
    if date.Some? && Given(intervals.intervalMonths) {
      AddMonthsMeans(date.value, intervals.intervalMonths.value);
    }
  }

  /** The next due point follows from the base; without a base an initial due point stands. */
  lemma {:induction false} NextDueMeans(intervals: Intervals, input: BaseInput)
    ensures var due := ComputeNextDue(intervals, input);
      && due.base == MostRecent(BasePoints(input))
      && (due.fromInitialDue <==> due.base.None? && input.mode.EcheanceInitiale?)
      && (due.fromInitialDue ==>
        due.nextDueKm == input.initialNextDueKm && due.nextDueDate == input.initialNextDueDate)
      && (due.base.None? && !due.fromInitialDue ==> due.nextDueKm.None? && due.nextDueDate.None?)
      && (due.base.Some? ==>
        && (due.nextDueKm.Some? <==> intervals.intervalKm.Some? && due.base.value.km.Some?)
        && (due.nextDueKm.Some? ==> due.nextDueKm.value - due.base.value.km.value == intervals.intervalKm.value)
        && DueFrom(intervals, due.base.value.date, due.nextDueDate))
  {
    var base := MostRecent(BasePoints(input));
    if base.Some? {
      DueDateIsFrom(intervals, base.value.date);
    }
  }

  lemma {:induction false} DueDateMonotone(intervals: Intervals, a: Civil, b: Civil)
    requires DayNumber(a) <= DayNumber(b)
    ensures DueDate(intervals, Some(a)).Some? == DueDate(intervals, Some(b)).Some?
    ensures DueDate(intervals, Some(a)).Some? ==>
      DayNumber(DueDate(intervals, Some(a)).value) <= DayNumber(DueDate(intervals, Some(b)).value)
  {
    if Given(intervals.intervalMonths) {
      AddMonthsMonotone(a, b, intervals.intervalMonths.value);
    }
  }

  /** An operation counts; under an initial due date with a creation date, only from that date on. */
  predicate CountsAsOperation(input: BaseInput, p: Point) {
    input.mode.EcheanceInitiale? && input.initialDueSince.Some? ==>
      p.date.Some? && CompareCivil(p.date.value, input.initialDueSince.value) >= 0
  }

  /** The due date follows from a base, or would as soon as there is one: no initial due date stands. */
  ghost predicate PastInitialDue(input: BaseInput) {
    input.mode.EcheanceInitiale? ==> exists p :: p in input.operations && CountsAsOperation(input, p)
  }

  predicate NotEarlier(a: Option<Civil>, b: Option<Civil>) {
    a.Some? && b.Some? && DayNumber(a.value) <= DayNumber(b.value)
  }

  lemma {:induction false} SinceCreationMembers(ops: seq<Point>, since: Civil, p: Point)
    ensures p in SinceCreation(ops, since) <==> p in ops && p.date.Some? && CompareCivil(p.date.value, since) >= 0
    decreases |ops|
  {
    if |ops| == 0 {
    } else {
      SinceCreationMembers(ops[..|ops| - 1], since, p);
      assert ops == ops[..|ops| - 1] + [ops[|ops| - 1]];
    }
  }

  /** Which points the base is chosen from. */
  lemma {:induction false} BasePointMembers(input: BaseInput, p: Point)
    ensures p in BasePoints(input) <==>
      p in DeclaredBase(input) || (p in input.operations && CountsAsOperation(input, p))
  {
    if input.mode.EcheanceInitiale? && input.initialDueSince.Some? {
      SinceCreationMembers(input.operations, input.initialDueSince.value, p);
    }
  }

  /** The base comes from the declared one, for the modes that have one, and from the operations that count. */
  lemma {:induction false} BasePointsMean(input: BaseInput, p: Point)
    ensures p in BasePoints(input) <==>
      || (input.mode in {DerniereOperation, BaseTechnique}
          && (input.initialBaseKm.Some? || input.initialBaseDate.Some?)
          && p == Point(None, input.initialBaseDate, input.initialBaseKm))
      || (p in input.operations
          && (input.mode == EcheanceInitiale && input.initialDueSince.Some? ==>
            p.date.Some? && DayNumber(input.initialDueSince.value) <= DayNumber(p.date.value)))
  {
    BasePointMembers(input, p);
  }

  /** Base points without a base: none. */
  lemma {:induction false} InitialDueStands(intervals: Intervals, input: BaseInput)
    requires AllDated(BasePoints(input))
    ensures ComputeNextDue(intervals, input).fromInitialDue <==> !PastInitialDue(input)
    ensures !PastInitialDue(input) ==> BasePoints(input) == []
  {
    MostRecentMember(BasePoints(input));
    forall p ensures p in BasePoints(input) <==>
      p in DeclaredBase(input) || (p in input.operations && CountsAsOperation(input, p)) {
      BasePointMembers(input, p);
    }
    if |BasePoints(input)| > 0 {
      assert BasePoints(input)[0] in BasePoints(input);
    }
  }

  lemma {:induction false} MorePoints(input: BaseInput, more: BaseInput, op: Point)
    requires more == input.(operations := more.operations)
    requires multiset(more.operations) == multiset(input.operations) + multiset{op}
    requires AllDated(BasePoints(input)) && op.date.Some?
    ensures AllDated(BasePoints(more))
    ensures forall p :: p in BasePoints(input) ==> p in BasePoints(more)
    ensures forall p :: p in BasePoints(more) ==> p in BasePoints(input) || p == op
  {
    forall p ensures p in more.operations <==> p in input.operations || p == op {
      assert p in multiset(more.operations) <==> p in multiset(input.operations) + multiset{op};
    }
    forall p
      ensures p in BasePoints(input) ==> p in BasePoints(more)
      ensures p in BasePoints(more) ==> p in BasePoints(input) || p == op
    {
      BasePointMembers(input, p);
      BasePointMembers(more, p);
    }
  }

  lemma {:induction false} AddingToBase(intervals: Intervals, input: BaseInput, more: BaseInput, op: Point)
    requires more == input.(operations := more.operations)
    requires multiset(more.operations) == multiset(input.operations) + multiset{op}
    requires AllDated(BasePoints(input)) && op.date.Some? && PastInitialDue(input)
    requires ComputeNextDue(intervals, input).nextDueDate.Some?
    ensures NotEarlier(ComputeNextDue(intervals, input).nextDueDate, ComputeNextDue(intervals, more).nextDueDate)
  {
    var before, after := BasePoints(input), BasePoints(more);
    MorePoints(input, more, op);
    InitialDueStands(intervals, input);
    MostRecentIsLatest(before);
    MostRecentIsLatest(after);
    var a, b := MostRecent(before).value, MostRecent(after).value;
    assert a in after;
    DueDateMonotone(intervals, a.date.value, b.date.value);
  }

  lemma {:induction false} OnlyOneCounts(input: BaseInput, more: BaseInput, op: Point)
    requires more == input.(operations := more.operations)
    requires multiset(more.operations) == multiset(input.operations) + multiset{op}
    requires op.date.Some? && BasePoints(input) == [] && input.mode.EcheanceInitiale?
    ensures MostRecent(BasePoints(more)) == if CountsAsOperation(input, op) then Some(op) else None
  {
    var after := BasePoints(more);
    MorePoints(input, more, op);
    MostRecentMember(after);
    BasePointMembers(more, op);
    assert op in multiset(more.operations);
    assert op in after <==> CountsAsOperation(input, op);
    if CountsAsOperation(input, op) {
      assert !Blank(op);
    }
  }

  lemma {:induction false} AddingToInitialDue(intervals: Intervals, input: BaseInput, more: BaseInput, op: Point)
    requires more == input.(operations := more.operations)
    requires multiset(more.operations) == multiset(input.operations) + multiset{op}
    requires AllDated(BasePoints(input)) && op.date.Some? && !PastInitialDue(input)
    ensures ComputeNextDue(intervals, more).nextDueDate ==
      if CountsAsOperation(input, op) then DueDate(intervals, op.date) else ComputeNextDue(intervals, input).nextDueDate
  {
    InitialDueStands(intervals, input);
    OnlyOneCounts(input, more, op);
  }

  /**
   Adding a dated operation, however old and wherever it is entered, never moves the next due date backwards;
   except that an initial due date gives way to the first operation that counts, whatever that leads to.
   */
  lemma {:induction false} AddingNeverMovesBack(intervals: Intervals, input: BaseInput, more: BaseInput, op: Point)
    requires more == input.(operations := more.operations)
    requires multiset(more.operations) == multiset(input.operations) + multiset{op}
    requires AllDated(BasePoints(input)) && op.date.Some?
    requires ComputeNextDue(intervals, input).nextDueDate.Some?
    ensures NotEarlier(ComputeNextDue(intervals, input).nextDueDate, ComputeNextDue(intervals, more).nextDueDate) <==>
      PastInitialDue(input) || !CountsAsOperation(input, op)
      || NotEarlier(ComputeNextDue(intervals, input).nextDueDate, DueDate(intervals, op.date))
  {
    MorePoints(input, more, op);
    InitialDueStands(intervals, input);
    if PastInitialDue(input) {
      AddingToBase(intervals, input, more, op);
    } else {
      AddingToInitialDue(intervals, input, more, op);
    }
  }

  lemma {:induction false} FirstOperationReplaces(intervals: Intervals, input: BaseInput, op: Point)
    requires input.mode.EcheanceInitiale? && input.operations == []
    requires op.date.Some? && CountsAsOperation(input, op)
    ensures ComputeNextDue(intervals, input).nextDueDate == input.initialNextDueDate
    ensures ComputeNextDue(intervals, input.(operations := [op])).nextDueDate == DueDate(intervals, op.date)
  {
    var more := input.(operations := [op]);
    assert multiset(more.operations) == multiset(input.operations) + multiset{op};
    InitialDueStands(intervals, input);
    AddingToInitialDue(intervals, input, more, op);
  }

  /** An initial due date is given up for the first operation since the creation of the plan, and may so move back. */
  lemma {:induction false} InitialDueIsReplaced()
    ensures var intervals := Intervals(None, Some(1), None, None, None);
      var input := BaseInput(EcheanceInitiale, None, None, None, Some(Date(2026, 12, 1)), Some(Date(2026, 1, 1)), []);
      var more := input.(operations := [Point(Some("t"), Some(Date(2026, 1, 10)), None)]);
      && ComputeNextDue(intervals, input).nextDueDate == Some(Date(2026, 12, 1))
      && ComputeNextDue(intervals, more).nextDueDate == Some(Date(2026, 2, 10))
  {
    var intervals := Intervals(None, Some(1), None, None, None);
    var input := BaseInput(EcheanceInitiale, None, None, None, Some(Date(2026, 12, 1)), Some(Date(2026, 1, 1)), []);
    var op := Point(Some("t"), Some(Date(2026, 1, 10)), None);
    assert DueDate(intervals, op.date) == Some(Date(2026, 2, 10));
    assert CompareCivil(op.date.value, Date(2026, 1, 1)) >= 0;
    FirstOperationReplaces(intervals, input, op);
  }

  // ---------------------------------------------------------------- operations kept in their order

  /** y is the same point as x, or a dated one no earlier. */
  predicate Behind(x: Option<Point>, y: Option<Point>) {
    x == y || (y.Some? && y.value.date.Some? && (x.None? || x.value.date.None? || NotAfter(x.value, y.value)))
  }

  lemma {:induction false} BehindStep(x: seq<Point>, y: seq<Point>, p: Point)
    requires Behind(MostRecent(x), MostRecent(y)) && p.date.Some?
    ensures Behind(MostRecent(x + [p]), MostRecent(y + [p]))
  {
    MostRecentOneMore(x, p);
    MostRecentOneMore(y, p);
  }

  lemma {:induction false} BehindAll(x: seq<Point>, y: seq<Point>, more: seq<Point>)
    requires Behind(MostRecent(x), MostRecent(y)) && AllDated(more)
    ensures Behind(MostRecent(x + more), MostRecent(y + more))
    decreases |more|
  {
    if |more| == 0 {
      assert x + more == x && y + more == y;
    } else {
      var init, q := more[..|more| - 1], more[|more| - 1];
      assert more == init + [q] && x + more == (x + init) + [q] && y + more == (y + init) + [q];
      BehindAll(x, y, init);
      BehindStep(x + init, y + init, q);
    }
  }

  lemma {:induction false} InsertedBehind(d: seq<Point>, a: seq<Point>, b: seq<Point>, op: Point)
    requires AllDated(b) && op.date.Some?
    ensures Behind(MostRecent(d + (a + b)), MostRecent(d + ((a + [op]) + b)))
  {
    MostRecentOneMore(d + a, op);
    BehindAll(d + a, (d + a) + [op], b);
    assert d + (a + b) == (d + a) + b && d + ((a + [op]) + b) == ((d + a) + [op]) + b;
  }

  lemma {:induction false} BehindIsNotEarlier(intervals: Intervals, x: Point, y: Option<Point>)
    requires Behind(Some(x), y) && DueDate(intervals, x.date).Some?
    ensures y.Some? && NotEarlier(DueDate(intervals, x.date), DueDate(intervals, y.value.date))
  {
    DueDateMonotone(intervals, x.date.value, y.value.date.value);
  }

  /**
   With whatever declared base, dated or not, inserting a dated operation between others that keep their order
   never moves the next due date backwards.
   */
  lemma {:induction false} InsertingNeverMovesBack(
      intervals: Intervals, input: BaseInput, a: seq<Point>, b: seq<Point>, op: Point)
    requires !input.mode.EcheanceInitiale? && input.operations == a + b && AllDated(input.operations) && op.date.Some?
    requires ComputeNextDue(intervals, input).nextDueDate.Some?
    ensures NotEarlier(ComputeNextDue(intervals, input).nextDueDate,
      ComputeNextDue(intervals, input.(operations := (a + [op]) + b)).nextDueDate)
  {
    assert forall p :: p in b ==> p in input.operations;
    InsertedBehind(DeclaredBase(input), a, b, op);
    var base := ComputeNextDue(intervals, input).base.value;
    BehindIsNotEarlier(intervals, base, MostRecent(BasePoints(input.(operations := (a + [op]) + b))));
  }

  // ---------------------------------------------------------------- the order of the operations of a plan

  /** Every order of the operations gives the same base. */
  ghost predicate OrderFreeBase(intervals: Intervals, input: BaseInput) {
    forall ops :: multiset(ops) == multiset(input.operations) ==>
      SamePlace(ComputeNextDue(intervals, input.(operations := ops)).base, ComputeNextDue(intervals, input).base)
  }

  /** No undated base is declared, or the latest operation settles the matter. */
  ghost predicate StableOperations(input: BaseInput)
    requires AllDated(input.operations)
  {
    |DeclaredBase(input)| == 0 || DeclaredBase(input)[0].date.Some? || |input.operations| == 0
    || LatestSettles(DeclaredBase(input)[0], input.operations)
  }

  lemma {:induction false} SameMembersSamePlace(a: seq<Point>, b: seq<Point>)
    requires AllDated(a) && forall p :: p in a <==> p in b
    ensures SamePlace(MostRecent(a), MostRecent(b))
  {
    MostRecentIsLatest(a);
    MostRecentIsLatest(b);
    MostRecentMember(a);
    MostRecentMember(b);
    if |a| > 0 {
      assert a[0] in b;
      LatestPlace(a, MostRecent(a).value, MostRecent(b).value);
    }
  }

  lemma {:induction false} DatedBasePoints(input: BaseInput)
    requires AllDated(input.operations) && (|DeclaredBase(input)| == 0 || DeclaredBase(input)[0].date.Some?)
    ensures AllDated(BasePoints(input))
  {
    forall p | p in BasePoints(input) ensures p.date.Some? {
      BasePointMembers(input, p);
    }
  }

  lemma {:induction false} DatedBaseIsFree(intervals: Intervals, input: BaseInput)
    requires AllDated(input.operations) && (|DeclaredBase(input)| == 0 || DeclaredBase(input)[0].date.Some?)
    ensures OrderFreeBase(intervals, input)
  {
    forall ops | multiset(ops) == multiset(input.operations)
      ensures SamePlace(ComputeNextDue(intervals, input.(operations := ops)).base,
        ComputeNextDue(intervals, input).base)
    {
      var other := input.(operations := ops);
      SameElements(ops, input.operations);
      DatedBasePoints(other);
      forall p ensures p in BasePoints(other) <==> p in BasePoints(input) {
        BasePointMembers(other, p);
        BasePointMembers(input, p);
      }
      SameMembersSamePlace(BasePoints(other), BasePoints(input));
    }
  }

  lemma {:induction false} UndatedBaseIff(intervals: Intervals, input: BaseInput)
    requires AllDated(input.operations) && |input.operations| > 0
    requires |DeclaredBase(input)| > 0 && DeclaredBase(input)[0].date.None?
    ensures OrderFreeBase(intervals, input) <==> LatestSettles(DeclaredBase(input)[0], input.operations)
  {
    var u := DeclaredBase(input)[0];
    BaseOrderIff(u, input.operations);
    forall ops: seq<Point> ensures ComputeNextDue(intervals, input.(operations := ops)).base == MostRecent([u] + ops) {
      assert DeclaredBase(input.(operations := ops)) == [u];
    }
    assert input.(operations := input.operations) == input;
    assert OrderFreeBase(intervals, input) <==> OrderFreeAfter(u, input.operations);
  }

  /**
   With dated operations, their order does not matter exactly when no undated base is declared, no operation has
   more kilometres than it, or the latest operation has.
   */
  lemma {:induction false} OperationOrderIff(intervals: Intervals, input: BaseInput)
    requires AllDated(input.operations)
    ensures OrderFreeBase(intervals, input) <==> StableOperations(input)
  {
    if |DeclaredBase(input)| == 0 || DeclaredBase(input)[0].date.Some? {
      DatedBaseIsFree(intervals, input);
    } else if |input.operations| == 0 {
      forall ops | multiset(ops) == multiset(input.operations)
        ensures SamePlace(ComputeNextDue(intervals, input.(operations := ops)).base,
          ComputeNextDue(intervals, input).base)
      {
        assert |multiset(ops)| == |ops|;
        assert ops == input.operations;
      }
    } else {
      UndatedBaseIff(intervals, input);
    }
  }

  // ---------------------------------------------------------------- the status

  datatype Warning =
    | KilometrageInconnu | KilometrageAncien | CumulIncomplet
    | BaseKmManquante | BaseDateManquante | AucuneBase

  datatype StatusInput = StatusInput(
    intervals: Intervals, nextDueKm: Option<real>, nextDueDate: Option<Civil>,
    currentKm: Option<real>, today: Civil, cumulativeKnown: bool, kmStale: bool)

  datatype StatusResult = StatusResult(
    status: Status, kmStatus: Option<Status>, dateStatus: Option<Status>,
    remainingKm: Option<real>, remainingDays: Option<int>, warnings: seq<Warning>)

  function KmLevel(remaining: real, notice: real): Status {
    if remaining < 0.0 then EnRetard else if remaining == 0.0 then AFaire else if remaining <= notice then APrevoir
      else AJour
  }

  function DateLevel(remaining: int, notice: int): Status {
    if remaining < 0 then EnRetard else if remaining == 0 then AFaire else if remaining <= notice then APrevoir
      else AJour
  }

  function OrZero(x: Option<real>): real { if x.Some? then x.value else 0.0 }

  /** What is left, counted from the whole kilometres driven. */
  function RemainingKm(input: StatusInput): Option<real> {
    if input.nextDueKm.Some? && input.currentKm.Some?
      then Some(input.nextDueKm.value - input.currentKm.value.Floor as real) else None
  }

  function RemainingDays(input: StatusInput): Option<int> {
    if input.nextDueDate.Some? then Some(DiffDays(input.today, input.nextDueDate.value)) else None
  }

  function KmStatus(input: StatusInput): Option<Status> {
    var left := RemainingKm(input);
    if left.Some? then Some(KmLevel(left.value, OrZero(input.intervals.noticeKm))) else None
  }

  function DateStatus(input: StatusInput): Option<Status> {
    var left := RemainingDays(input);
    var notice := if input.intervals.noticeDays.Some? then input.intervals.noticeDays.value else 0;
    if left.Some? then Some(DateLevel(left.value, notice)) else None
  }

  /** The more urgent of the two levels; without any level the plan is incomplete. */
  function Worst(a: Option<Status>, b: Option<Status>): Status {
    if a.Some? && b.Some? then (if Urgency(b.value) > Urgency(a.value) then b.value else a.value)
    else if a.Some? then a.value else if b.Some? then b.value else Incomplet
  }

  /** Overdue past the limit, to be done at it, to be planned within the notice before it, and else up to date. */
  ghost predicate IsLevel(level: Status, left: real, notice: real) {
    && (level == EnRetard <==> left < 0.0) && (level == AFaire <==> left == 0.0)
    && (level == APrevoir <==> 0.0 < left <= notice) && (level == AJour <==> 0.0 < left && notice < left)
    && level != Incomplet
  }

  /** The whole number not above x. */
  ghost predicate WholePart(whole: int, x: real) { whole as real <= x < (whole + 1) as real }

  /** The distance and the level by kilometres, counted from whole kilometres driven. */
  ghost predicate KmRight(input: StatusInput, r: StatusResult) {
    && (r.remainingKm.Some? <==> input.nextDueKm.Some? && input.currentKm.Some?)
    && (r.kmStatus.Some? <==> r.remainingKm.Some?)
    && (r.remainingKm.Some? ==>
      && (exists km ::
        WholePart(km, input.currentKm.value) && r.remainingKm.value == input.nextDueKm.value - km as real)
      && IsLevel(r.kmStatus.value, r.remainingKm.value,
        if input.intervals.noticeKm.Some? then input.intervals.noticeKm.value else 0.0))
  }

  /** The days and the level by date: so many days from today is the date due. */
  ghost predicate DateRight(input: StatusInput, r: StatusResult) {
    && (r.remainingDays.Some? <==> input.nextDueDate.Some?)
    && (r.dateStatus.Some? <==> r.remainingDays.Some?)
    && (r.remainingDays.Some? ==>
      && DayNumber(input.today) + r.remainingDays.value == DayNumber(input.nextDueDate.value)
      && IsLevel(r.dateStatus.value, r.remainingDays.value as real,
        if input.intervals.noticeDays.Some? then input.intervals.noticeDays.value as real else 0.0))
  }

  /** Overdue when one of them is, else to be done when one is, and so on; incomplete without any. */
  ghost predicate WorstRight(r: StatusResult) {
    var levels := {r.kmStatus, r.dateStatus};
    && (r.status == EnRetard <==> Some(EnRetard) in levels)
    && (r.status == AFaire <==> Some(EnRetard) !in levels && Some(AFaire) in levels)
    && (r.status == APrevoir <==>
      Some(EnRetard) !in levels && Some(AFaire) !in levels && Some(APrevoir) in levels)
    && (r.status == Incomplet <==> r.kmStatus.None? && r.dateStatus.None?)
  }

  lemma {:induction false} KmLevelIsLevel(remaining: real, notice: real)
    ensures IsLevel(KmLevel(remaining, notice), remaining, notice)
  {
  }

  lemma {:induction false} DateLevelIsLevel(remaining: int, notice: int)
    ensures IsLevel(DateLevel(remaining, notice), remaining as real, notice as real)
  {
  }

  /** Remaining distance and days, both levels and the status, from the limits, the meter and the day. */
  lemma {:induction false} StatusMeans(input: StatusInput, r: StatusResult)
    requires r.kmStatus == KmStatus(input) && r.dateStatus == DateStatus(input)
    requires r.status == Worst(KmStatus(input), DateStatus(input))
    requires r.remainingKm == RemainingKm(input) && r.remainingDays == RemainingDays(input)
    ensures KmRight(input, r) && DateRight(input, r) && WorstRight(r)
  {
    if r.remainingKm.Some? {
      var km := input.currentKm.value.Floor;
      assert WholePart(km, input.currentKm.value);
      KmLevelIsLevel(r.remainingKm.value, OrZero(input.intervals.noticeKm));
    }
    if r.remainingDays.Some? {
      DateLevelIsLevel(r.remainingDays.value,
        if input.intervals.noticeDays.Some? then input.intervals.noticeDays.value else 0);
    }
  }

  /** Each warning, exactly in its case. */
  ghost predicate WarningsRight(input: StatusInput, r: StatusResult) {
    var usesDate := input.intervals.intervalMonths.Some? || input.intervals.intervalDays.Some?;
    && (AucuneBase in r.warnings <==> input.nextDueKm.None? && input.nextDueDate.None?)
    && (KilometrageInconnu in r.warnings <==> input.nextDueKm.Some? && input.currentKm.None?)
    && (KilometrageAncien in r.warnings <==> input.nextDueKm.Some? && input.currentKm.Some? && input.kmStale)
    && (CumulIncomplet in r.warnings <==>
      input.nextDueKm.Some? && input.currentKm.Some? && !input.cumulativeKnown)
    && (BaseKmManquante in r.warnings <==> input.intervals.intervalKm.Some? && input.nextDueKm.None?)
    && (BaseDateManquante in r.warnings <==> usesDate && input.nextDueDate.None?)
  }

  method StatusByKilometres(input: StatusInput)
    returns (kmStatus: Option<Status>, remainingKm: Option<real>, warnings: seq<Warning>)
    ensures kmStatus == KmStatus(input) && remainingKm == RemainingKm(input)
    ensures KilometrageInconnu in warnings <==> input.nextDueKm.Some? && input.currentKm.None?
    ensures KilometrageAncien in warnings <==> input.nextDueKm.Some? && input.currentKm.Some? && input.kmStale
    ensures CumulIncomplet in warnings <==>
      input.nextDueKm.Some? && input.currentKm.Some? && !input.cumulativeKnown
    ensures BaseKmManquante in warnings <==> input.intervals.intervalKm.Some? && input.nextDueKm.None?
    ensures AucuneBase !in warnings && BaseDateManquante !in warnings
  {
    kmStatus, remainingKm, warnings := None, None, [];
    if input.intervals.intervalKm.Some? || input.nextDueKm.Some? {
      if input.nextDueKm.None? {
        warnings := warnings + [BaseKmManquante];
      } else if input.currentKm.None? {
        warnings := warnings + [KilometrageInconnu];
      } else {
        var left := input.nextDueKm.value - input.currentKm.value.Floor as real;
        remainingKm := Some(left);
        kmStatus := Some(KmLevel(left, OrZero(input.intervals.noticeKm)));
        if input.kmStale {
          warnings := warnings + [KilometrageAncien];
        }
        if !input.cumulativeKnown {
          warnings := warnings + [CumulIncomplet];
        }
      }
    }
  }

  method StatusByDate(input: StatusInput)
    returns (dateStatus: Option<Status>, remainingDays: Option<int>, warnings: seq<Warning>)
    ensures dateStatus == DateStatus(input) && remainingDays == RemainingDays(input)
    ensures var usesDate := input.intervals.intervalMonths.Some? || input.intervals.intervalDays.Some?;
      warnings == if usesDate && input.nextDueDate.None? then [BaseDateManquante] else []
  {
    dateStatus, remainingDays, warnings := None, None, [];
    var usesDate := input.intervals.intervalMonths.Some? || input.intervals.intervalDays.Some?;
    if usesDate || input.nextDueDate.Some? {
      if input.nextDueDate.None? {
        warnings := warnings + [BaseDateManquante];
      } else {
        var left := DiffDays(input.today, input.nextDueDate.value);
        var notice := if input.intervals.noticeDays.Some? then input.intervals.noticeDays.value else 0;
        remainingDays := Some(left);
        dateStatus := Some(DateLevel(left, notice));
      }
    }
  }

  method ComputePlanStatus(input: StatusInput) returns (r: StatusResult)
    ensures KmRight(input, r) && DateRight(input, r) && WorstRight(r) && WarningsRight(input, r)
    ensures r.kmStatus == KmStatus(input) && r.dateStatus == DateStatus(input)
    ensures r.status == Worst(KmStatus(input), DateStatus(input))
  {
    var kmStatus, remainingKm, warnings := StatusByKilometres(input);
    var dateStatus, remainingDays, more := StatusByDate(input);
    warnings := warnings + more;
    if kmStatus.None? && dateStatus.None? && input.nextDueKm.None? && input.nextDueDate.None? {
      warnings := warnings + [AucuneBase];
    }
    r := StatusResult(Worst(kmStatus, dateStatus), kmStatus, dateStatus, remainingKm, remainingDays, warnings);
    StatusMeans(input, r);
  }

  /** As days pass and kilometres accrue with the due point fixed, the urgency never falls. */
  lemma {:induction false} UrgencyNeverFalls(now: StatusInput, later: StatusInput)
    requires later.intervals == now.intervals && later.nextDueKm == now.nextDueKm &&
      later.nextDueDate == now.nextDueDate
    requires DayNumber(now.today) <= DayNumber(later.today)
    requires now.currentKm.Some? ==> later.currentKm.Some? && now.currentKm.value <= later.currentKm.value
    ensures Urgency(Worst(KmStatus(now), DateStatus(now))) <= Urgency(Worst(KmStatus(later), DateStatus(later)))
  {
    if KmStatus(now).Some? {
      assert now.currentKm.value.Floor <= later.currentKm.value.Floor;
      assert Urgency(KmStatus(now).value) <= Urgency(KmStatus(later).value);
    }
    if DateStatus(now).Some? {
      assert Urgency(DateStatus(now).value) <= Urgency(DateStatus(later).value);
    }
  }

  // ---------------------------------------------------------------- valid intervals

  datatype IntervalsError =
    | IntervalleRequis | IntervalleTemps | IntervalleInvalide
    | PreavisInvalide | PreavisKmTropGrand | PreavisJoursTropGrand

  function MinimalIntervalDays(intervals: Intervals): Option<int> {
    if Given(intervals.intervalMonths) then Some(intervals.intervalMonths.value * 28)
    else if Given(intervals.intervalDays) then Some(intervals.intervalDays.value)
    else None
  }

  /** What a usable set of intervals is. */
  predicate WellFormed(intervals: Intervals) {
    var days := MinimalIntervalDays(intervals);
    && (intervals.intervalKm.Some? || days.Some?)
    && !(Given(intervals.intervalMonths) && Given(intervals.intervalDays))
    && (intervals.intervalKm.Some? ==> intervals.intervalKm.value > 0.0)
    && (intervals.noticeKm.Some? ==> intervals.noticeKm.value >= 0.0)
    && (intervals.noticeDays.Some? ==> intervals.noticeDays.value >= 0)
    && (intervals.intervalKm.Some? && intervals.noticeKm.Some? ==>
      intervals.noticeKm.value < intervals.intervalKm.value)
    && (days.Some? && intervals.noticeDays.Some? ==> intervals.noticeDays.value < days.value)
  }

  method ValidateIntervals(intervals: Intervals) returns (errors: seq<IntervalsError>)
    ensures errors == [] <==> WellFormed(intervals)
    ensures IntervalleRequis in errors <==>
      intervals.intervalKm.None? && !Given(intervals.intervalMonths) && !Given(intervals.intervalDays)
    ensures IntervalleTemps in errors <==> Given(intervals.intervalMonths) && Given(intervals.intervalDays)
    ensures IntervalleInvalide in errors <==> intervals.intervalKm.Some? && intervals.intervalKm.value <= 0.0
    ensures PreavisInvalide in errors <==>
      || (intervals.noticeKm.Some? && intervals.noticeKm.value < 0.0)
      || (intervals.noticeDays.Some? && intervals.noticeDays.value < 0)
    ensures PreavisKmTropGrand in errors <==>
      intervals.intervalKm.Some? && intervals.noticeKm.Some? && intervals.noticeKm.value >= intervals.intervalKm.value
    ensures PreavisJoursTropGrand in errors <==>
      intervals.noticeDays.Some? &&
        (if Given(intervals.intervalMonths) then intervals.noticeDays.value >= 28 * intervals.intervalMonths.value
         else Given(intervals.intervalDays) && intervals.noticeDays.value >= intervals.intervalDays.value)
  {
    errors := [];
    if intervals.intervalKm.None? && !Given(intervals.intervalMonths) && !Given(intervals.intervalDays) {
      errors := errors + [IntervalleRequis];
    }
    if Given(intervals.intervalMonths) && Given(intervals.intervalDays) {
      errors := errors + [IntervalleTemps];
    }
    if intervals.intervalKm.Some? && !(intervals.intervalKm.value > 0.0) {
      errors := errors + [IntervalleInvalide];
    }
    if (intervals.noticeKm.Some? && intervals.noticeKm.value < 0.0) ||
      (intervals.noticeDays.Some? && intervals.noticeDays.value < 0) {
      errors := errors + [PreavisInvalide];
    }
    if intervals.intervalKm.Some? && intervals.noticeKm.Some? &&
      intervals.noticeKm.value >= intervals.intervalKm.value {
      errors := errors + [PreavisKmTropGrand];
    }
    var minDays := MinimalIntervalDays(intervals);
    if minDays.Some? && intervals.noticeDays.Some? && intervals.noticeDays.value >= minDays.value {
      errors := errors + [PreavisJoursTropGrand];
    }
  }

  /** Default notices never make a set of positive intervals invalid. */
  function DefaultNotices(intervals: Intervals, noticeKm: real, noticeDays: int): (r: Intervals)
    requires noticeKm >= 0.0
    ensures (WellFormed(intervals.(noticeKm := None, noticeDays := None)) &&
      (Given(intervals.intervalMonths) ==> intervals.intervalMonths.value > 0) &&
      (Given(intervals.intervalDays) ==> intervals.intervalDays.value > 0)) ==> WellFormed(r)
  {
    var km := if intervals.intervalKm.None? then None
      else
        var below := (intervals.intervalKm.value - 1.0).Floor as real;
        var atLeastZero := if below < 0.0 then 0.0 else below;
        Some(if noticeKm <= atLeastZero then noticeKm else atLeastZero);
    var minDays := MinimalIntervalDays(intervals);
    var days := if minDays.None? then None
      else
        var capped := if noticeDays <= minDays.value - 1 then noticeDays else minDays.value - 1;
        Some(if capped >= 0 then capped else 0);
    intervals.(noticeKm := km, noticeDays := days)
  }

  /**
   A default notice is given for each interval there is. In kilometres it is the default one, or the largest whole
   number not above the interval less one; in days the default one, lowered below the interval and not negative.
   */
  lemma {:induction false} DefaultNoticesMean(intervals: Intervals, noticeKm: real, noticeDays: int)
    requires noticeKm >= 0.0
    ensures var r := DefaultNotices(intervals, noticeKm, noticeDays);
      && r == intervals.(noticeKm := r.noticeKm, noticeDays := r.noticeDays)
      && (r.noticeKm.Some? <==> intervals.intervalKm.Some?)
      && (r.noticeKm.Some? ==>
        var room := if intervals.intervalKm.value < 1.0 then 0.0 else intervals.intervalKm.value - 1.0;
        exists whole ::
          && WholePart(whole, room)
          && r.noticeKm.value == if noticeKm <= whole as real then noticeKm else whole as real)
      && (r.noticeDays.Some? <==> Given(intervals.intervalMonths) || Given(intervals.intervalDays))
      && (r.noticeDays.Some? ==>
        var days := if Given(intervals.intervalMonths) then 28 * intervals.intervalMonths.value
          else intervals.intervalDays.value;
        if noticeDays < days then r.noticeDays.value == (if noticeDays < 0 then 0 else noticeDays)
        else r.noticeDays.value == (if days < 1 then 0 else days - 1))
  {
    if intervals.intervalKm.Some? {
      var below := (intervals.intervalKm.value - 1.0).Floor;
      var whole := if intervals.intervalKm.value < 1.0 then 0 else below;
      assert WholePart(below, intervals.intervalKm.value - 1.0);
      assert WholePart(whole, if intervals.intervalKm.value < 1.0 then 0.0 else intervals.intervalKm.value - 1.0);
      assert DefaultNotices(intervals, noticeKm, noticeDays).noticeKm.value ==
        if noticeKm <= whole as real then noticeKm else whole as real;
    }
  }

  // ---------------------------------------------------------------- a plan just carried out

  /** The status of a plan at the kilometres and on the day of its base operation. */
  function AtBase(intervals: Intervals, due: Due, today: Civil): StatusInput {
    StatusInput(intervals, due.nextDueKm, due.nextDueDate, if due.base.Some? then due.base.value.km
      else None, today, true, false)
  }

  /**
   Positive intervals that pass the check make a plan up to date at the kilometres and on the day of the
   operation that is its base.
   */
  lemma {:induction false} UpToDateAtBase(intervals: Intervals, input: BaseInput, today: Civil)
    requires WellFormed(intervals)
    requires Given(intervals.intervalMonths) ==> intervals.intervalMonths.value > 0
    requires Given(intervals.intervalDays) ==> intervals.intervalDays.value > 0
    requires var due := ComputeNextDue(intervals, input);
      due.base.Some? && (due.base.value.date.Some? ==> due.base.value.date == Some(today))
    ensures var due := ComputeNextDue(intervals, input);
      var s := AtBase(intervals, due, today);
      && (KmStatus(s).Some? ==> KmStatus(s).value == AJour)
      && (DateStatus(s).Some? ==> DateStatus(s).value == AJour)
      && (KmStatus(s).Some? <==> intervals.intervalKm.Some? && due.base.value.km.Some?)
      && (DateStatus(s).Some? <==> MinimalIntervalDays(intervals).Some? && due.base.value.date.Some?)
      && (KmStatus(s).Some? || DateStatus(s).Some? ==> Worst(KmStatus(s), DateStatus(s)) == AJour)
  {
    if Given(intervals.intervalMonths) {
      AddMonthsAdvances(today, intervals.intervalMonths.value);
    }
    var due := ComputeNextDue(intervals, input);
    if due.base.value.km.Some? {
      assert due.base.value.km.value.Floor as real <= due.base.value.km.value;
    }
  }
}
