/**
 Status of a document from its versions (apps/api/src/domain/document-status.ts) and severity of its alerts
 (apps/api/src/domain/document-applicability.ts). Civil dates are the day numbers of module Calendar.
 */
module DocumentStatus {
  import opened Wrappers
  import opened Sorting
  import opened Calendar

  datatype TypeRule = TypeRule(hasExpiry: bool, required: bool, blocksCheckout: bool, noticeDays: seq<int>)

  datatype Version = Version(id: string, validFrom: Option<int>, validTo: Option<int>)

  datatype Status = Valide | ARenouveler | Expire | Manquant

  datatype Upcoming = Upcoming(versionId: Option<string>, validFrom: Option<int>, validTo: Option<int>)

  /** No status: no document, and none required. */
  datatype Result = Result(
    status: Option<Status>, currentVersionId: Option<string>, validFrom: Option<int>, validTo: Option<int>,
    daysRemaining: Option<int>, noticeThreshold: Option<int>, renewed: bool, upcoming: Upcoming, blocksCheckout: bool)

  /** 9999-12-31 stands for a version without end. */
  const FAR := DayNumber(Date(9999, 12, 31))

  function EndOrFar(v: Version): int { if v.validTo.Some? then v.validTo.value else FAR }

  predicate CoversDate(v: Version, date: int, hasExpiry: bool) {
    && !(v.validFrom.Some? && v.validFrom.value > date)
    && (!hasExpiry || v.validTo.None? || v.validTo.value >= date)
  }

  function Covering(date: int, hasExpiry: bool): Version -> bool { (v: Version) => CoversDate(v, date, hasExpiry) }

  function Future(today: int): Version -> bool { (v: Version) => v.validFrom.Some? && v.validFrom.value > today }

  function Expired(today: int, hasExpiry: bool): Version -> bool {
    (v: Version) => hasExpiry && v.validTo.Some? && v.validTo.value < today
  }

  function ByEndDescending(): (Version, Version) -> bool { (a: Version, b: Version) => EndOrFar(a) >= EndOrFar(b) }

  function StartOrFar(v: Version): int { if v.validFrom.Some? then v.validFrom.value else FAR }

  function ByStart(): (Version, Version) -> bool { (a: Version, b: Version) => StartOrFar(a) <= StartOrFar(b) }

  function First<T>(s: seq<T>): Option<T> { if |s| == 0 then None else Some(s[0]) }

  /** Of the versions in force, the one that runs furthest. */
  function Current(type_: TypeRule, versions: seq<Version>, today: int): Option<Version> {
    First(Sort(ByEndDescending(), Filter(Covering(today, type_.hasExpiry), versions)))
  }

  function LastExpired(type_: TypeRule, versions: seq<Version>, today: int): Option<Version> {
    First(Sort(ByEndDescending(), Filter(Expired(today, type_.hasExpiry), versions)))
  }

  function NextVersion(type_: TypeRule, versions: seq<Version>, today: int): Upcoming {
    var f := First(Sort(ByStart(), Filter(Future(today), versions)));
    if f.None? then Upcoming(None, None, None)
    else Upcoming(Some(f.value.id), f.value.validFrom, if type_.hasExpiry then f.value.validTo else None)
  }

  predicate TakesOver(v: Version, current: Version)
    requires current.validTo.Some?
  {
    && v.id != current.id && v.validFrom.Some? && v.validFrom.value <= current.validTo.value + 1
    && (v.validTo.None? || v.validTo.value > current.validTo.value)
  }

  predicate Renewed(versions: seq<Version>, current: Version)
    requires current.validTo.Some?
  {
    exists v :: v in versions && TakesOver(v, current)
  }

  function AtLeastZero(): int -> bool { (n: int) => n >= 0 }

  function Ascending(): (int, int) -> bool { (a: int, b: int) => a <= b }

  function Thresholds(noticeDays: seq<int>): seq<int> { Sort(Ascending(), Filter(AtLeastZero(), noticeDays)) }

  /** The first threshold that the remaining days do not exceed. */
  function Reached(thresholds: seq<int>, daysRemaining: int): Option<int> {
    if |thresholds| == 0 then None
    else if daysRemaining <= thresholds[0] then Some(thresholds[0])
    else Reached(thresholds[1..], daysRemaining)
  }

  /** The result when no version is in force. */
  function WithoutCurrent(type_: TypeRule, versions: seq<Version>, today: int): Result {
    var upcoming, expired := NextVersion(type_, versions, today), LastExpired(type_, versions, today);
    if expired.Some? then
      var v := expired.value;
      Result(Some(Expire), Some(v.id), v.validFrom, v.validTo,
        if v.validTo.Some? then Some(v.validTo.value - today) else None, None, false, upcoming, type_.blocksCheckout)
    else if |versions| == 0 && !type_.required then
      Result(None, None, None, None, None, None, false, Upcoming(None, None, None), false)
    else
      Result(Some(Manquant), None, None, None, None, None, false, upcoming, type_.blocksCheckout)
  }

  /** The result when v is the version in force. */
  function WithCurrent(type_: TypeRule, versions: seq<Version>, v: Version, today: int): Result {
    var upcoming := NextVersion(type_, versions, today);
    if !type_.hasExpiry || v.validTo.None? then
      Result(Some(Valide), Some(v.id), v.validFrom, None, None, None, false, upcoming, false)
    else
      var daysRemaining := v.validTo.value - today;
      var renewed := Renewed(versions, v);
      var threshold := Reached(Thresholds(type_.noticeDays), daysRemaining);
      if threshold.Some? && !renewed then
        Result(Some(ARenouveler), Some(v.id), v.validFrom, v.validTo, Some(daysRemaining), threshold, renewed,
          upcoming, false)
      else
        Result(Some(Valide), Some(v.id), v.validFrom, v.validTo, Some(daysRemaining), None, renewed, upcoming, false)
  }

  function ComputeDocumentStatus(type_: TypeRule, versions: seq<Version>, today: int): Result {
    var current := Current(type_, versions, today);
    if current.None? then WithoutCurrent(type_, versions, today) else WithCurrent(type_, versions, current.value, today)
  }

  // ---------------------------------------------------------------- the versions chosen

  /** The version is in force on the day: it has begun and, if documents of the type end, has not ended before. */
  ghost predicate Covers(v: Version, hasExpiry: bool, day: int) {
    (v.validFrom.Some? ==> v.validFrom.value <= day) && (hasExpiry && v.validTo.Some? ==> day <= v.validTo.value)
  }

  /** The end of a version; one without end runs to 9999-12-31. */
  ghost function LastDay(v: Version): int {
    if v.validTo.Some? then v.validTo.value else DayNumber(Date(9999, 12, 31))
  }

  lemma {:induction false} CoversIsCoversDate(v: Version, hasExpiry: bool, day: int)
    ensures Covers(v, hasExpiry, day) <==> CoversDate(v, day, hasExpiry)
    ensures LastDay(v) == EndOrFar(v)
  {
  }

  lemma {:induction false} FirstOfSorted<T(!new)>(le: (T, T) -> bool, p: T -> bool, s: seq<T>)
    requires TotalPreorder(le)
    ensures var r := First(Sort(le, Filter(p, s)));
      && (r.None? <==> forall x :: x in s ==> !p(x))
      && (r.Some? ==> r.value in s && p(r.value) && forall x :: x in s && p(x) ==> le(r.value, x))
  {
    var t := Sort(le, Filter(p, s));
    SortSorted(le, Filter(p, s));
    SortMembers(le, Filter(p, s));
    FilterMembers(p, s);
    if |t| > 0 {
      assert t[0] in t;
      forall x | x in s && p(x) ensures le(t[0], x) {
        assert x in t;
        var i :| 0 <= i < |t| && t[i] == x;
        assert i == 0 || le(t[0], t[i]);
      }
    } else {
      forall x | x in s ensures !p(x) {
        assert x !in t;
      }
    }
  }

  lemma {:induction false} CurrentMeans(type_: TypeRule, versions: seq<Version>, today: int)
    ensures var c := Current(type_, versions, today);
      && (c.None? <==> forall v :: v in versions ==> !Covers(v, type_.hasExpiry, today))
      && (c.Some? ==> c.value in versions && Covers(c.value, type_.hasExpiry, today))
      && (c.Some? ==> forall v ::
        v in versions && Covers(v, type_.hasExpiry, today) ==> LastDay(v) <= LastDay(c.value))
  {
    FirstOfSorted(ByEndDescending(), Covering(today, type_.hasExpiry), versions);
    forall v: Version
      ensures Covering(today, type_.hasExpiry)(v) <==> Covers(v, type_.hasExpiry, today)
      ensures LastDay(v) == EndOrFar(v)
    {
      CoversIsCoversDate(v, type_.hasExpiry, today);
    }
  }

  lemma {:induction false} LastExpiredMeans(type_: TypeRule, versions: seq<Version>, today: int)
    ensures LastExpired(type_, versions, today).None? <==>
      !(type_.hasExpiry && exists v :: v in versions && v.validTo.Some? && v.validTo.value < today)
    ensures var e := LastExpired(type_, versions, today);
      e.Some? ==>
        && e.value in versions && type_.hasExpiry && e.value.validTo.Some? && e.value.validTo.value < today
        && forall v :: v in versions && v.validTo.Some? && v.validTo.value < today ==>
          v.validTo.value <= e.value.validTo.value
  {
    FirstOfSorted(ByEndDescending(), Expired(today, type_.hasExpiry), versions);
    assert forall v :: Expired(today, type_.hasExpiry)(v) <==>
      type_.hasExpiry && v.validTo.Some? && v.validTo.value < today;
  }

  /** The version announced is the first to start after today, and one is announced whenever there is one. */
  lemma {:induction false} UpcomingMeans(type_: TypeRule, versions: seq<Version>, today: int)
    ensures var u := NextVersion(type_, versions, today);
      && (u.versionId.Some? <==> exists v :: v in versions && v.validFrom.Some? && v.validFrom.value > today)
      && (u.versionId.Some? ==> u.validFrom.Some? && u.validFrom.value > today)
      && (u.versionId.Some? ==> exists v ::
        && v in versions && v.id == u.versionId.value && v.validFrom == u.validFrom
        && u.validTo == if type_.hasExpiry then v.validTo else None)
      && (u.versionId.None? ==> u.validFrom.None? && u.validTo.None?)
      && forall v :: v in versions && v.validFrom.Some? && v.validFrom.value > today ==>
        u.validFrom.Some? && u.validFrom.value <= v.validFrom.value
  {
    FirstOfSorted(ByStart(), Future(today), versions);
    assert forall v :: Future(today)(v) <==> v.validFrom.Some? && v.validFrom.value > today;
  }

  ghost predicate DistinctIds(versions: seq<Version>) {
    forall v, w :: v in versions && w in versions && v.id == w.id ==> v == w
  }

  /** No version ends on the day that stands for no end. */
  ghost predicate EndsBeforeFar(versions: seq<Version>) {
    forall v :: v in versions && v.validTo.Some? ==> v.validTo.value < FAR
  }

  /** A renewal is recorded exactly when some version covers the day after the current end. */
  lemma {:induction false} RenewedIffCovered(type_: TypeRule, versions: seq<Version>, today: int)
    requires DistinctIds(versions) && EndsBeforeFar(versions) && type_.hasExpiry
    requires Current(type_, versions, today).Some? && Current(type_, versions, today).value.validTo.Some?
    ensures var c := Current(type_, versions, today).value;
      Renewed(versions, c) <==> exists v :: v in versions && Covers(v, true, c.validTo.value + 1)
  {
    CurrentMeans(type_, versions, today);
    var c := Current(type_, versions, today).value;
    forall v | v in versions ensures TakesOver(v, c) <==> Covers(v, true, c.validTo.value + 1) {
      assert Covers(v, true, today) ==> LastDay(v) <= LastDay(c);
    }
  }

  lemma {:induction false} StatusByVersions(type_: TypeRule, versions: seq<Version>, today: int)
    ensures var r, c := ComputeDocumentStatus(type_, versions, today), Current(type_, versions, today);
      && (r.status in {Some(Valide), Some(ARenouveler)} <==> c.Some?)
      && (c.Some? ==> r.currentVersionId == Some(c.value.id) && !r.blocksCheckout)
      && (r.status == Some(Expire) <==> c.None? && LastExpired(type_, versions, today).Some?)
      && (r.status == Some(Expire) ==> r.currentVersionId == Some(LastExpired(type_, versions, today).value.id))
      && (c.None? && r.status != Some(Expire) ==> r.currentVersionId == None)
  {
  }

  /** Some version covers the day. */
  ghost predicate InForce(type_: TypeRule, versions: seq<Version>, today: int) {
    exists v :: v in versions && Covers(v, type_.hasExpiry, today)
  }

  /** Some version has ended before the day. */
  ghost predicate HasEnded(type_: TypeRule, versions: seq<Version>, today: int) {
    type_.hasExpiry && exists v :: v in versions && v.validTo.Some? && v.validTo.value < today
  }

  /** The status in terms of the versions: each of the four, and none, exactly in its case. */
  lemma {:induction false} StatusMeans(type_: TypeRule, versions: seq<Version>, today: int)
    ensures var r := ComputeDocumentStatus(type_, versions, today);
      && (r.status in {Some(Valide), Some(ARenouveler)} <==> InForce(type_, versions, today))
      && (r.status == Some(Expire) <==> !InForce(type_, versions, today) && HasEnded(type_, versions, today))
      && (r.status == None <==> |versions| == 0 && !type_.required)
      && (r.status == Some(Manquant) <==>
          !InForce(type_, versions, today) && !HasEnded(type_, versions, today) && (|versions| > 0 || type_.required))
  {
    StatusByVersions(type_, versions, today);
    CurrentMeans(type_, versions, today);
    LastExpiredMeans(type_, versions, today);
  }

  /** v covers the day, and no version that does runs further. */
  ghost predicate RunsFurthest(type_: TypeRule, versions: seq<Version>, today: int, v: Version) {
    && v in versions && Covers(v, type_.hasExpiry, today)
    && forall w :: w in versions && Covers(w, type_.hasExpiry, today) ==> LastDay(w) <= LastDay(v)
  }

  /** v has ended before the day, and no version that has ended later. */
  ghost predicate EndedLast(versions: seq<Version>, today: int, v: Version) {
    && v in versions && v.validTo.Some? && v.validTo.value < today
    && forall w :: w in versions && w.validTo.Some? && w.validTo.value < today ==> w.validTo.value <= v.validTo.value
  }

  /** The version shown is the one in force that runs furthest, or else the one that ended last. */
  lemma {:induction false} ShownVersion(type_: TypeRule, versions: seq<Version>, today: int)
    ensures var shown := ComputeDocumentStatus(type_, versions, today).currentVersionId;
      if InForce(type_, versions, today) then exists v :: RunsFurthest(type_, versions, today, v) && shown == Some(v.id)
      else if HasEnded(type_, versions, today) then exists v :: EndedLast(versions, today, v) && shown == Some(v.id)
      else shown == None
  {
    StatusByVersions(type_, versions, today);
    CurrentMeans(type_, versions, today);
    LastExpiredMeans(type_, versions, today);
    if InForce(type_, versions, today) {
      assert RunsFurthest(type_, versions, today, Current(type_, versions, today).value);
    } else if HasEnded(type_, versions, today) {
      assert EndedLast(versions, today, LastExpired(type_, versions, today).value);
    }
  }

  /** The end of the version in force is near and nothing covers the day after. */
  ghost predicate NeedsRenewal(type_: TypeRule, versions: seq<Version>, c: Version, today: int) {
    && type_.hasExpiry && c.validTo.Some?
    && (exists n :: n in type_.noticeDays && n >= 0 && c.validTo.value - today <= n)
    && (forall v :: v in versions ==> !Covers(v, true, c.validTo.value + 1))
  }

  lemma {:induction false} ThresholdsMean(noticeDays: seq<int>)
    ensures Sorted(Ascending(), Thresholds(noticeDays))
    ensures forall n :: n in Thresholds(noticeDays) <==> n in noticeDays && n >= 0
  {
    SortSorted(Ascending(), Filter(AtLeastZero(), noticeDays));
    SortMembers(Ascending(), Filter(AtLeastZero(), noticeDays));
    FilterMembers(AtLeastZero(), noticeDays);
  }

  lemma {:induction false} ReachedInSorted(t: seq<int>, daysRemaining: int)
    requires Sorted(Ascending(), t)
    ensures var n := Reached(t, daysRemaining);
      && (n.None? <==> forall m :: m in t ==> m < daysRemaining)
      && (n.Some? ==> n.value in t && daysRemaining <= n.value)
      && forall m :: n.Some? && m in t && daysRemaining <= m ==> n.value <= m
  {
    if |t| == 0 {
    } else {
      ReachedInSorted(t[1..], daysRemaining);
      assert t[0] in t && forall m :: m in t <==> m == t[0] || m in t[1..];
      forall x | x in t ensures t[0] <= x {
        var i :| 0 <= i < |t| && t[i] == x;
        assert i == 0 || Ascending()(t[0], t[i]);
      }
    }
  }

  /** The notice reached is the shortest one not exceeded by the remaining days. */
  lemma {:induction false} ReachedMeans(noticeDays: seq<int>, daysRemaining: int)
    ensures var n := Reached(Thresholds(noticeDays), daysRemaining);
      && (n.None? <==> forall m :: m in noticeDays && m >= 0 ==> m < daysRemaining)
      && (n.Some? ==> n.value in noticeDays && 0 <= n.value && daysRemaining <= n.value)
      && forall m :: n.Some? && m in noticeDays && m >= 0 && daysRemaining <= m ==> n.value <= m
  {
    ThresholdsMean(noticeDays);
    ReachedInSorted(Thresholds(noticeDays), daysRemaining);
  }

  lemma {:induction false} NoticeReached(noticeDays: seq<int>, daysRemaining: int)
    ensures Reached(Thresholds(noticeDays), daysRemaining).Some? <==> exists n ::
      n in noticeDays && n >= 0 && daysRemaining <= n
  {
    ReachedMeans(noticeDays, daysRemaining);
  }

  /** A version in force is to be renewed exactly when its end is within a notice and nothing covers the day after. */
  lemma {:induction false} ToRenewIff(type_: TypeRule, versions: seq<Version>, today: int)
    requires DistinctIds(versions) && EndsBeforeFar(versions)
    ensures var c := Current(type_, versions, today);
      ComputeDocumentStatus(type_, versions, today).status == Some(ARenouveler) <==>
        c.Some? && NeedsRenewal(type_, versions, c.value, today)
  {
    StatusByVersions(type_, versions, today);
    var c := Current(type_, versions, today);
    if c.Some? && type_.hasExpiry && c.value.validTo.Some? {
      RenewedIffCovered(type_, versions, today);
      NoticeReached(type_.noticeDays, c.value.validTo.value - today);
    }
  }

  /** Days remaining are those to the end of the version in force, never negative, or negative since it expired. */
  lemma {:induction false} RemainingMeans(type_: TypeRule, versions: seq<Version>, today: int)
    ensures var r, c := ComputeDocumentStatus(type_, versions, today), Current(type_, versions, today);
      && (c.Some? && type_.hasExpiry && c.value.validTo.Some? ==>
        r.validTo == c.value.validTo && r.daysRemaining == Some(c.value.validTo.value - today) &&
          r.daysRemaining.value >= 0)
      && (r.status == Some(Expire) ==> r.daysRemaining.Some? && r.daysRemaining.value < 0)
  {
    StatusByVersions(type_, versions, today);
    CurrentMeans(type_, versions, today);
    LastExpiredMeans(type_, versions, today);
  }

  /** A version in force today, when none is tomorrow, ends today without a renewal. */
  lemma {:induction false} EndsToday(type_: TypeRule, versions: seq<Version>, today: int, c: Version)
    requires DistinctIds(versions) && EndsBeforeFar(versions)
    requires Current(type_, versions, today) == Some(c) && Current(type_, versions, today + 1).None?
    ensures type_.hasExpiry && c.validTo == Some(today) && !Renewed(versions, c)
  {
    CurrentMeans(type_, versions, today);
    CurrentMeans(type_, versions, today + 1);
    assert !Covers(c, type_.hasExpiry, today + 1);
    RenewedIffCovered(type_, versions, today);
  }

  lemma {:induction false} SomeThreshold(noticeDays: seq<int>)
    requires exists n :: n in noticeDays && n >= 0
    ensures Reached(Thresholds(noticeDays), 0).Some?
  {
    FirstOfSorted(Ascending(), AtLeastZero(), noticeDays);
    var n :| n in noticeDays && n >= 0;
    assert AtLeastZero()(n);
    var t := Thresholds(noticeDays);
    assert |t| > 0 && AtLeastZero()(t[0]);
  }

  /** The last day before a document expires is announced, with no day remaining. */
  lemma {:induction false} ExpiryIsAnnounced(type_: TypeRule, versions: seq<Version>, today: int)
    requires DistinctIds(versions) && EndsBeforeFar(versions)
    requires exists n :: n in type_.noticeDays && n >= 0
    requires ComputeDocumentStatus(type_, versions, today).status in {Some(Valide), Some(ARenouveler)}
    requires ComputeDocumentStatus(type_, versions, today + 1).status == Some(Expire)
    ensures var r := ComputeDocumentStatus(type_, versions, today);
      r.status == Some(ARenouveler) && r.daysRemaining == Some(0) && r.noticeThreshold.Some?
  {
    StatusByVersions(type_, versions, today);
    StatusByVersions(type_, versions, today + 1);
    var c := Current(type_, versions, today).value;
    EndsToday(type_, versions, today, c);
    SomeThreshold(type_.noticeDays);
  }

  /** A departure is blocked exactly when a blocking type has documents, or needs one, and none is in force. */
  lemma {:induction false} BlocksIffUncovered(type_: TypeRule, versions: seq<Version>, today: int)
    ensures ComputeDocumentStatus(type_, versions, today).blocksCheckout <==>
      type_.blocksCheckout && (|versions| > 0 || type_.required) && forall v ::
        v in versions ==> !Covers(v, type_.hasExpiry, today)
  {
    CurrentMeans(type_, versions, today);
    LastExpiredMeans(type_, versions, today);
  }

  // ---------------------------------------------------------------- every field of the result

  /** Another version begins at the latest the day after v ends, and ends later. */
  ghost predicate Succeeded(versions: seq<Version>, v: Version) {
    v.validTo.Some? && exists w ::
      && w in versions && w.id != v.id && w.validFrom.Some? && w.validFrom.value <= v.validTo.value + 1
      && (w.validTo.None? || v.validTo.value < w.validTo.value)
  }

  /** The shortest notice, not negative, that the days remaining do not exceed. */
  ghost predicate IsNotice(noticeDays: seq<int>, daysRemaining: int, notice: Option<int>) {
    && (notice.None? <==> forall n :: n in noticeDays && n >= 0 ==> n < daysRemaining)
    && (notice.Some? ==> notice.value in noticeDays && notice.value >= 0 && daysRemaining <= notice.value)
    && (notice.Some? ==> forall n :: n in noticeDays && n >= 0 && daysRemaining <= n ==> notice.value <= n)
  }

  /** The result shows v as the version in force. */
  ghost predicate ShowsCurrent(r: Result, type_: TypeRule, versions: seq<Version>, v: Version, today: int) {
    && r.currentVersionId == Some(v.id) && r.validFrom == v.validFrom && !r.blocksCheckout
    && if type_.hasExpiry && v.validTo.Some? then
         && r.validTo == v.validTo && r.daysRemaining == Some(v.validTo.value - today)
         && (r.renewed <==> Succeeded(versions, v))
         && (r.status == Some(ARenouveler) || (r.status == Some(Valide) && r.noticeThreshold.None?))
         && (r.status == Some(ARenouveler) ==> !r.renewed && r.noticeThreshold.Some?)
         && (r.renewed || IsNotice(type_.noticeDays, v.validTo.value - today, r.noticeThreshold))
       else
         && r.status == Some(Valide) && r.validTo.None? && r.daysRemaining.None? && r.noticeThreshold.None?
         && !r.renewed
  }

  /** The result shows v as the version that ended last. */
  ghost predicate ShowsExpired(r: Result, type_: TypeRule, v: Version, today: int) {
    && r.status == Some(Expire) && r.currentVersionId == Some(v.id) && r.validFrom == v.validFrom
    && r.validTo == v.validTo && v.validTo.Some? && r.daysRemaining == Some(v.validTo.value - today)
    && r.noticeThreshold.None? && !r.renewed && r.blocksCheckout == type_.blocksCheckout
  }

  /** The result shows no version. */
  ghost predicate ShowsNone(r: Result, type_: TypeRule, versions: seq<Version>) {
    && r.status == (if |versions| == 0 && !type_.required then None else Some(Manquant))
    && r.currentVersionId.None? && r.validFrom.None? && r.validTo.None? && r.daysRemaining.None?
    && r.noticeThreshold.None? && !r.renewed
    && (r.blocksCheckout <==> r.status == Some(Manquant) && type_.blocksCheckout)
  }

  lemma {:induction false} ReachedIsNotice(noticeDays: seq<int>, daysRemaining: int)
    ensures IsNotice(noticeDays, daysRemaining, Reached(Thresholds(noticeDays), daysRemaining))
  {
    ReachedMeans(noticeDays, daysRemaining);
  }

  lemma {:induction false} RenewedIsSucceeded(versions: seq<Version>, v: Version)
    requires v.validTo.Some?
    ensures Renewed(versions, v) <==> Succeeded(versions, v)
  {
    if w :| w in versions && TakesOver(w, v) {
      assert w.id != v.id;
    }
    if w :|
      && w in versions && w.id != v.id && w.validFrom.Some? && w.validFrom.value <= v.validTo.value + 1
      && (w.validTo.None? || v.validTo.value < w.validTo.value)
    {
      assert TakesOver(w, v);
    }
  }

  lemma {:induction false} CurrentIsShown(type_: TypeRule, versions: seq<Version>, v: Version, today: int)
    ensures ShowsCurrent(WithCurrent(type_, versions, v, today), type_, versions, v, today)
  {
    if v.validTo.Some? {
      RenewedIsSucceeded(versions, v);
      ReachedIsNotice(type_.noticeDays, v.validTo.value - today);
    }
  }

  /** Every field of the result, by the versions that are in force or have ended. */
  lemma {:induction false} FieldsMean(type_: TypeRule, versions: seq<Version>, today: int)
    ensures var r := ComputeDocumentStatus(type_, versions, today);
      if InForce(type_, versions, today) then
        exists v :: RunsFurthest(type_, versions, today, v) && ShowsCurrent(r, type_, versions, v, today)
      else if HasEnded(type_, versions, today) then
        exists v :: EndedLast(versions, today, v) && ShowsExpired(r, type_, v, today)
      else ShowsNone(r, type_, versions)
  {
    var current, expired := Current(type_, versions, today), LastExpired(type_, versions, today);
    CurrentMeans(type_, versions, today);
    LastExpiredMeans(type_, versions, today);
    if current.Some? {
      assert RunsFurthest(type_, versions, today, current.value);
      CurrentIsShown(type_, versions, current.value, today);
    } else if expired.Some? {
      assert EndedLast(versions, today, expired.value);
    }
  }

  /** The version announced is the same in every result. */
  lemma {:induction false} UpcomingIsShown(type_: TypeRule, versions: seq<Version>, today: int)
    ensures ComputeDocumentStatus(type_, versions, today).upcoming == NextVersion(type_, versions, today)
  {
    UpcomingMeans(type_, versions, today);
  }

  // ---------------------------------------------------------------- severity

  datatype Severity = Info | Attention | Urgent | Critique

  function Rank(s: Severity): int { match s case Info => 0 case Attention => 1 case Urgent => 2 case Critique => 3 }

  /** Each value once, where it first occurs. */
  function Unique(s: seq<int>): seq<int> {
    if |s| == 0 then []
    else
      var before, x := Unique(s[..|s| - 1]), s[|s| - 1];
      if x in before then before else before + [x]
  }

  function Descending(): (int, int) -> bool { (a: int, b: int) => a >= b }

  function Palier(noticeDays: seq<int>): seq<int> { Sort(Descending(), Filter(AtLeastZero(), Unique(noticeDays))) }

  function IndexOf(s: seq<int>, x: int): int {
    if |s| == 0 then -1
    else if s[0] == x then 0
    else
      var i := IndexOf(s[1..], x);
      if i < 0 then -1 else i + 1
  }

  function DocumentAlertSeverity(
      noticeDays: seq<int>, threshold: Option<int>, expired: bool, blocking: bool): Severity {
    if expired then (if blocking then Critique else Urgent)
    else
      var sorted := Palier(noticeDays);
      if threshold.None? || |sorted| == 0 then Info
      else
        var rank := IndexOf(sorted, threshold.value);
        if rank <= 0 then (if |sorted| == 1 then Urgent else Info)
        else if rank == |sorted| - 1 then Urgent
        else Attention
  }

  function SeverityOn(type_: TypeRule, versions: seq<Version>, day: int): Severity {
    var r := ComputeDocumentStatus(type_, versions, day);
    DocumentAlertSeverity(type_.noticeDays, r.noticeThreshold, r.status == Some(Expire), r.blocksCheckout)
  }

  lemma {:induction false} UniqueMeans(s: seq<int>)
    ensures forall x :: x in Unique(s) <==> x in s
    ensures forall i, j :: 0 <= i < j < |Unique(s)| ==> Unique(s)[i] != Unique(s)[j]
  {
    if |s| == 0 {
    } else {
      UniqueMeans(s[..|s| - 1]);
      assert s == s[..|s| - 1] + [s[|s| - 1]];
    }
  }

  /** The thresholds of an alert are all different, longest notice first. */
  lemma {:induction false} PalierMeans(noticeDays: seq<int>)
    ensures Sorted(Descending(), Palier(noticeDays))
    ensures forall n :: n in Palier(noticeDays) <==> n in noticeDays && n >= 0
  {
    var u := Unique(noticeDays);
    UniqueMeans(noticeDays);
    SortSorted(Descending(), Filter(AtLeastZero(), u));
    SortMembers(Descending(), Filter(AtLeastZero(), u));
    FilterMembers(AtLeastZero(), u);
  }

  lemma {:induction false} UniqueOnce(s: seq<int>, x: int)
    ensures multiset(Unique(s))[x] <= 1
  {
    if |s| == 0 {
    } else {
      UniqueOnce(s[..|s| - 1], x);
    }
  }

  /** The thresholds descend strictly. */
  lemma {:induction false} PalierDescends(noticeDays: seq<int>, i: nat, j: nat)
    requires i < j < |Palier(noticeDays)|
    ensures Palier(noticeDays)[i] > Palier(noticeDays)[j]
  {
    var u, s := Unique(noticeDays), Palier(noticeDays);
    forall x ensures multiset(s)[x] <= 1 {
      UniqueOnce(noticeDays, x);
      FilterCounts(AtLeastZero(), u, x);
      SortPermutes(Descending(), Filter(AtLeastZero(), u));
    }
    OnceEach(s, i, j);
    PalierMeans(noticeDays);
    assert Descending()(s[i], s[j]);
  }

  /** Fewer days remaining reach a shorter notice. */
  lemma {:induction false} ReachedShrinks(t: seq<int>, more: int, less: int)
    requires Sorted(Ascending(), t) && less <= more
    ensures Reached(t, more).Some? ==> Reached(t, less).Some? && Reached(t, less).value <= Reached(t, more).value
    ensures Reached(t, less).Some? ==> Reached(t, less).value in t
    ensures Reached(t, more).Some? ==> Reached(t, more).value in t
  {
    if |t| == 0 {
    } else {
      ReachedShrinks(t[1..], more, less);
      forall x | x in t[1..] ensures t[0] <= x {
        var i :| 1 <= i < |t| && t[i] == x;
        assert Ascending()(t[0], t[i]);
      }
    }
  }

  lemma {:induction false} IndexInRange(s: seq<int>, x: int)
    requires x in s
    ensures 0 <= IndexOf(s, x) < |s|
  {
    if s[0] != x {
      assert s == [s[0]] + s[1..];
      IndexInRange(s[1..], x);
    }
  }

  lemma {:induction false} IndexMeans(s: seq<int>, x: int)
    ensures IndexOf(s, x) < |s|
    ensures IndexOf(s, x) < 0 <==> x !in s
    ensures IndexOf(s, x) >= 0 ==> s[IndexOf(s, x)] == x
  {
    if |s| == 0 {
    } else {
      IndexMeans(s[1..], x);
      assert s == [s[0]] + s[1..];
    }
  }

  /** A notice that counts: one of those given, and not negative. */
  ghost predicate IsGiven(noticeDays: seq<int>, n: int) { n in noticeDays && n >= 0 }

  lemma {:induction false} PlaceInPalier(noticeDays: seq<int>, n: int, k: nat)
    requires k < |Palier(noticeDays)| && Palier(noticeDays)[k] == n
    ensures k == |Palier(noticeDays)| - 1 <==> forall m :: IsGiven(noticeDays, m) ==> n <= m
    ensures k == 0 <==> forall m :: IsGiven(noticeDays, m) ==> m <= n
  {
    var s := Palier(noticeDays);
    PalierMeans(noticeDays);
    forall i: nat | i < |s| && i != k
      ensures IsGiven(noticeDays, s[i]) && (i < k ==> s[i] > n) && (k < i ==> s[i] < n)
    {
      assert s[i] in s;
      if i < k {
        PalierDescends(noticeDays, i, k);
      } else {
        PalierDescends(noticeDays, k, i);
      }
    }
    forall m | IsGiven(noticeDays, m) ensures exists i: nat :: i < |s| && s[i] == m {
      assert m in s;
    }
    if k < |s| - 1 {
      assert s[k + 1] < n;
    }
    if k > 0 {
      assert s[0] > n;
    }
  }

  /**
   How urgent an alert is, with the notice reached. An expired document is critical when it blocks, and else urgent.
   Before that the shortest notice is urgent, the longest one only informs, and any other calls for attention.
   */
  lemma {:induction false} SeverityMeans(noticeDays: seq<int>, n: int, blocking: bool)
    ensures DocumentAlertSeverity(noticeDays, Some(n), true, blocking) == if blocking then Critique else Urgent
    ensures DocumentAlertSeverity(noticeDays, None, true, blocking) == if blocking then Critique else Urgent
    ensures DocumentAlertSeverity(noticeDays, None, false, blocking) == Info
    ensures IsGiven(noticeDays, n) ==>
      var shortest := forall m :: IsGiven(noticeDays, m) ==> n <= m;
      var longest := forall m :: IsGiven(noticeDays, m) ==> m <= n;
      DocumentAlertSeverity(noticeDays, Some(n), false, blocking) ==
        if shortest then Urgent else if longest then Info else Attention
  {
    var s := Palier(noticeDays);
    PalierMeans(noticeDays);
    IndexMeans(s, n);
    if IsGiven(noticeDays, n) {
      PlaceInPalier(noticeDays, n, IndexOf(s, n));
    }
  }

  /** In a list from long to short notices, a shorter one stands further on. */
  lemma {:induction false} ShorterIsFurther(s: seq<int>, x: int, y: int)
    requires Sorted(Descending(), s) && x in s && y in s && y <= x
    ensures 0 <= IndexOf(s, x) <= IndexOf(s, y) < |s|
  {
    if s[0] == x {
      IndexInRange(s, y);
    } else {
      var i :| 0 <= i < |s| && s[i] == x;
      assert Descending()(s[0], s[i]);
      assert s == [s[0]] + s[1..];
      ShorterIsFurther(s[1..], x, y);
    }
  }

  /** Fewer days remaining never lower the severity. */
  lemma {:induction false} SeverityByDays(noticeDays: seq<int>, more: int, less: int)
    requires less <= more
    ensures var t := Thresholds(noticeDays);
      Rank(DocumentAlertSeverity(noticeDays, Reached(t, more), false, false))
        <= Rank(DocumentAlertSeverity(noticeDays, Reached(t, less), false, false))
  {
    var t := Thresholds(noticeDays);
    ThresholdsMean(noticeDays);
    ReachedShrinks(t, more, less);
    if Reached(t, more).Some? {
      PalierMeans(noticeDays);
      ShorterIsFurther(Palier(noticeDays), Reached(t, more).value, Reached(t, less).value);
    }
  }

  /** Severity of the version in force, if it is not renewed. */
  lemma {:induction false} SeverityInForce(type_: TypeRule, versions: seq<Version>, v: Version, day: int)
    requires Current(type_, versions, day) == Some(v)
    requires !ComputeDocumentStatus(type_, versions, day).renewed
    ensures SeverityOn(type_, versions, day) ==
      if !type_.hasExpiry || v.validTo.None? then Info
      else DocumentAlertSeverity(type_.noticeDays, Reached(Thresholds(type_.noticeDays), v.validTo.value - day),
        false, false)
  {
  }

  lemma {:induction false} NotExpiredIsAtMostUrgent(type_: TypeRule, versions: seq<Version>, day: int)
    ensures SeverityOn(type_, versions, day) == Critique ==>
      ComputeDocumentStatus(type_, versions, day).status == Some(Expire)
    ensures ComputeDocumentStatus(type_, versions, day).status == Some(Expire) ==>
      SeverityOn(type_, versions, day) == if type_.blocksCheckout then Critique else Urgent
  {
    StatusByVersions(type_, versions, day);
  }

  /** An expired version is not in force later, and a version in force is not the expired one. */
  lemma {:induction false} SameRelevantVersion(type_: TypeRule, versions: seq<Version>, day: int, later: int)
    requires DistinctIds(versions) && day <= later
    requires var r, r' := ComputeDocumentStatus(type_, versions, day), ComputeDocumentStatus(type_, versions, later);
      r.currentVersionId.Some? && r.currentVersionId == r'.currentVersionId
    ensures ComputeDocumentStatus(type_, versions, day).status == Some(Expire) ==>
      ComputeDocumentStatus(type_, versions, later).status == Some(Expire)
    ensures ComputeDocumentStatus(type_, versions, later).status != Some(Expire) ==>
      && Current(type_, versions, day).Some? && Current(type_, versions, later) == Current(type_, versions, day)
      && ComputeDocumentStatus(type_, versions, later).renewed == ComputeDocumentStatus(type_, versions, day).renewed
  {
    StatusByVersions(type_, versions, day);
    StatusByVersions(type_, versions, later);
    CurrentMeans(type_, versions, day);
    CurrentMeans(type_, versions, later);
    LastExpiredMeans(type_, versions, day);
  }

  lemma {:induction false} SeverityWhileInForce(
      type_: TypeRule, versions: seq<Version>, v: Version, day: int, later: int)
    requires day <= later && Current(type_, versions, day) == Some(v) && Current(type_, versions, later) == Some(v)
    requires !ComputeDocumentStatus(type_, versions, day).renewed &&
      !ComputeDocumentStatus(type_, versions, later).renewed
    ensures Rank(SeverityOn(type_, versions, day)) <= Rank(SeverityOn(type_, versions, later))
  {
    SeverityInForce(type_, versions, v, day);
    SeverityInForce(type_, versions, v, later);
    if type_.hasExpiry && v.validTo.Some? {
      SeverityByDays(type_.noticeDays, v.validTo.value - day, v.validTo.value - later);
    }
  }

  /** While one unrenewed version stays the relevant one, through its expiry, the severity never decreases. */
  lemma {:induction false} SeverityNeverFalls(type_: TypeRule, versions: seq<Version>, day: int, later: int)
    requires DistinctIds(versions) && day <= later
    requires var r, r' := ComputeDocumentStatus(type_, versions, day), ComputeDocumentStatus(type_, versions, later);
      r.currentVersionId.Some? && r.currentVersionId == r'.currentVersionId && !r.renewed
    ensures Rank(SeverityOn(type_, versions, day)) <= Rank(SeverityOn(type_, versions, later))
  {
    SameRelevantVersion(type_, versions, day, later);
    NotExpiredIsAtMostUrgent(type_, versions, day);
    NotExpiredIsAtMostUrgent(type_, versions, later);
    if ComputeDocumentStatus(type_, versions, later).status != Some(Expire) {
      SeverityWhileInForce(type_, versions, Current(type_, versions, day).value, day, later);
    }
  }
}
