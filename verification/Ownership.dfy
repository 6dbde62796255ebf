/** The parts of a period held by each company (ownershipSegments in apps/api/src/domain/period-distance.ts). */
module Ownership {
  import opened Wrappers
  import opened Sorting
  import opened PeriodDistance

  datatype Transfer = Transfer(effectiveAt: int, fromCompanyId: string, toCompanyId: string, hasTransferReading: bool)

  datatype Segment = Segment(companyId: string, from: int, to: int, entry: Option<Transfer>, exit: Option<Transfer>)

  /** An instant, or one of the two infinities. */
  datatype Bound = MinusInfinity | At(instant: int) | PlusInfinity

  function ByEffect(): (Transfer, Transfer) -> bool { (a: Transfer, b: Transfer) => a.effectiveAt <= b.effectiveAt }

  function MaxWith(b: Bound, x: int): int
    requires !b.PlusInfinity?
  {
    if b.At? && b.instant > x then b.instant else x
  }

  function MinWith(b: Bound, x: int): int
    requires !b.MinusInfinity?
  {
    if b.At? && b.instant < x then b.instant else x
  }

  // ---------------------------------------------------------------- who owns the vehicle at an instant

  /** Of two transfers in force, the one taking effect later; at the same instant, the one listed later. */
  function Later(a: Option<Transfer>, b: Option<Transfer>): Option<Transfer> {
    if b.None? || (a.Some? && a.value.effectiveAt > b.value.effectiveAt) then a else b
  }

  /** The latest transfer in effect at p, in a list in any order. */
  function InForce(transfers: seq<Transfer>, p: int): Option<Transfer> {
    if |transfers| == 0 then None
    else Later(if transfers[0].effectiveAt <= p then Some(transfers[0]) else None, InForce(transfers[1..], p))
  }

  /** The earliest transfer; at the same instant, the one listed first. */
  function Earliest(transfers: seq<Transfer>): Option<Transfer> {
    if |transfers| == 0 then None
    else
      var rest := Earliest(transfers[1..]);
      if rest.None? || transfers[0].effectiveAt <= rest.value.effectiveAt then Some(transfers[0]) else rest
  }

  function OwnerAt(transfers: seq<Transfer>, current: string, p: int): string {
    var t, e := InForce(transfers, p), Earliest(transfers);
    if t.Some? then t.value.toCompanyId else if e.Some? then e.value.fromCompanyId else current
  }

  lemma {:induction false} InForceOfInsert(x: Transfer, s: seq<Transfer>, p: int)
    ensures InForce(Insert(ByEffect(), x, s), p) == InForce([x] + s, p)
    ensures Earliest(Insert(ByEffect(), x, s)) == Earliest([x] + s)
  {
    assert ([x] + s)[1..] == s;
    if |s| > 0 && !ByEffect()(x, s[0]) {
      InForceOfInsert(x, s[1..], p);
      assert ([x] + s[1..])[1..] == s[1..];
      var r := Insert(ByEffect(), x, s);
      assert r[0] == s[0] && r[1..] == Insert(ByEffect(), x, s[1..]);
    }
  }

  /** The order in which the transfers are sorted keeps every owner. */
  lemma {:induction false} SortKeepsOwners(s: seq<Transfer>, p: int)
    ensures InForce(Sort(ByEffect(), s), p) == InForce(s, p)
    ensures Earliest(Sort(ByEffect(), s)) == Earliest(s)
  {
    if |s| == 0 {
    } else {
      var rest := Sort(ByEffect(), s[1..]);
      SortKeepsOwners(s[1..], p);
      InForceOfInsert(s[0], rest, p);
      assert ([s[0]] + rest)[1..] == rest;
    }
  }

  function EntryOf(s: seq<Transfer>, k: nat): Option<Transfer>
    requires k <= |s|
  {
    if k == 0 then None else Some(s[k - 1])
  }

  /** In a list sorted by effect, the transfer in force at p is the last one at or before p. */
  lemma {:induction false} InForceSorted(s: seq<Transfer>, k: nat, p: int)
    requires Sorted(ByEffect(), s) && k <= |s|
    requires forall i :: 0 <= i < k ==> s[i].effectiveAt <= p
    requires k < |s| ==> p < s[k].effectiveAt
    ensures InForce(s, p) == EntryOf(s, k)
    decreases |s|
  {
    if |s| == 0 {
    } else {
      var tail := s[1..];
      if k == 0 {
        assert |s| > 1 ==> ByEffect()(s[0], s[1]);
        InForceSorted(tail, 0, p);
      } else {
        InForceSorted(tail, k - 1, p);
        assert k > 1 ==> tail[k - 2] == s[k - 1] && ByEffect()(s[0], s[k - 1]);
      }
    }
  }

  lemma {:induction false} EarliestSorted(s: seq<Transfer>)
    requires Sorted(ByEffect(), s) && |s| > 0
    ensures Earliest(s) == Some(s[0])
  {
    if |s| > 1 {
      EarliestSorted(s[1..]);
      assert ByEffect()(s[0], s[1]);
    }
  }

  // ---------------------------------------------------------------- the loop

  /** Start, incoming transfer and owner of the stretch before the k-th sorted transfer. */
  function StartOf(s: seq<Transfer>, k: nat): Bound
    requires k <= |s|
  {
    if k == 0 then MinusInfinity else At(s[k - 1].effectiveAt)
  }

  function EndOf(s: seq<Transfer>, k: nat): Bound
    requires k <= |s|
  {
    if k == |s| then PlusInfinity else At(s[k].effectiveAt)
  }

  function ExitOf(s: seq<Transfer>, k: nat): Option<Transfer>
    requires k <= |s|
  {
    if k == |s| then None else Some(s[k])
  }

  function OwnerFrom(s: seq<Transfer>, current: string, k: nat): string
    requires k <= |s|
  {
    if k > 0 then s[k - 1].toCompanyId else if |s| > 0 then s[0].fromCompanyId else current
  }

  /** The part of a stretch inside the period, if it has a positive length. */
  function Push(
      segments: seq<Segment>, owner: string, start: Bound, entry: Option<Transfer>, end: Bound,
      exit: Option<Transfer>, period: Period): seq<Segment>
    requires !start.PlusInfinity? && !end.MinusInfinity?
  {
    var from, to := MaxWith(start, period.from), MinWith(end, period.to);
    if to <= from then segments
    else segments + [Segment(owner, from, to,
      if entry.Some? && entry.value.effectiveAt > period.from then entry else None,
      if exit.Some? && exit.value.effectiveAt < period.to then exit else None)]
  }

  /** Segments of positive length, each beginning where the one before ends, from a to b. */
  ghost predicate Chain(segments: seq<Segment>, a: int, b: int) {
    && (forall k :: 0 <= k < |segments| ==> segments[k].from < segments[k].to)
    && (forall j, k :: 0 <= j < k < |segments| && k == j + 1 ==> segments[j].to == segments[k].from)
    && (if |segments| == 0 then a == b else segments[0].from == a && segments[|segments| - 1].to == b)
  }

  /** Without gap or overlap the segments cover the period; there is none when the period is empty. */
  ghost predicate Tiles(segments: seq<Segment>, period: Period) {
    if period.from < period.to then Chain(segments, period.from, period.to) else segments == []
  }

  function Reached(b: Bound, period: Period): int {
    match b
    case MinusInfinity => period.from
    case At(t) => if t <= period.from then period.from else if t <= period.to then t else period.to
    case PlusInfinity => period.to
  }

  ghost predicate TilesUpTo(segments: seq<Segment>, period: Period, b: Bound) {
    if period.from < period.to then Chain(segments, period.from, Reached(b, period)) else segments == []
  }

  ghost predicate OwnerRight(g: Segment, transfers: seq<Transfer>, current: string) {
    forall p :: g.from <= p < g.to ==> OwnerAt(transfers, current, p) == g.companyId
  }

  /** At every instant of a segment its company owns the vehicle. */
  ghost predicate OwnersRight(segments: seq<Segment>, transfers: seq<Transfer>, current: string) {
    forall g :: g in segments ==> OwnerRight(g, transfers, current)
  }

  /** A segment that does not begin or end with the period begins or ends with a transfer. */
  ghost predicate TransferRight(g: Segment, transfers: seq<Transfer>, period: Period) {
    && (g.entry.None? <==> g.from == period.from)
    && (g.entry.Some? ==>
        g.entry.value in transfers && g.entry.value.effectiveAt == g.from && g.entry.value.toCompanyId == g.companyId)
    && (g.exit.None? <==> g.to == period.to)
    && (g.exit.Some? ==> g.exit.value in transfers && g.exit.value.effectiveAt == g.to)
  }

  ghost predicate TransfersRight(segments: seq<Segment>, transfers: seq<Transfer>, period: Period) {
    forall g :: g in segments ==> TransferRight(g, transfers, period)
  }

  lemma {:induction false} PushedOwner(s: seq<Transfer>, current: string, k: nat, g: Segment)
    requires Sorted(ByEffect(), s) && k <= |s| && g.companyId == OwnerFrom(s, current, k)
    requires k > 0 ==> s[k - 1].effectiveAt <= g.from
    requires k < |s| ==> g.to <= s[k].effectiveAt
    ensures OwnerRight(g, s, current)
  {
    forall p | g.from <= p < g.to ensures OwnerAt(s, current, p) == g.companyId {
      forall i | 0 <= i < k ensures s[i].effectiveAt <= p {
        assert i < k - 1 ==> ByEffect()(s[i], s[k - 1]);
      }
      InForceSorted(s, k, p);
      if |s| > 0 {
        EarliestSorted(s);
      }
    }
  }

  /** One turn of the loop keeps what the segments mean. */
  lemma {:induction false} PushKeeps(segments: seq<Segment>, s: seq<Transfer>, current: string, k: nat, period: Period)
    requires Sorted(ByEffect(), s) && k <= |s|
    requires TilesUpTo(segments, period, StartOf(s, k))
    requires OwnersRight(segments, s, current) && TransfersRight(segments, s, period)
    ensures var r := Push(segments, OwnerFrom(s, current, k), StartOf(s, k), EntryOf(s, k), EndOf(s, k), ExitOf(s, k),
      period);
      TilesUpTo(r, period, EndOf(s, k)) && OwnersRight(r, s, current) && TransfersRight(r, s, period)
  {
    var r := Push(segments, OwnerFrom(s, current, k), StartOf(s, k), EntryOf(s, k), EndOf(s, k), ExitOf(s, k), period);
    assert 0 < k < |s| ==> ByEffect()(s[k - 1], s[k]);
    if |r| > |segments| {
      var g := r[|segments|];
      PushedOwner(s, current, k, g);
      assert TransferRight(g, s, period);
    }
  }

  lemma {:induction false} OrderDoesNotMatter(
      segments: seq<Segment>, transfers: seq<Transfer>, current: string, period: Period)
    requires OwnersRight(segments, Sort(ByEffect(), transfers), current)
    requires TransfersRight(segments, Sort(ByEffect(), transfers), period)
    ensures OwnersRight(segments, transfers, current)
    ensures TransfersRight(segments, transfers, period)
  {
    var ordered := Sort(ByEffect(), transfers);
    forall g | g in segments ensures OwnerRight(g, transfers, current) {
      assert OwnerRight(g, ordered, current);
      forall p | g.from <= p < g.to ensures OwnerAt(transfers, current, p) == g.companyId {
        assert OwnerAt(ordered, current, p) == g.companyId;
        SortKeepsOwners(transfers, p);
      }
    }
    SortMembers(ByEffect(), transfers);
    forall g | g in segments ensures TransferRight(g, transfers, period) {
      assert TransferRight(g, ordered, period);
    }
  }

  method OwnershipSegments(
      transfers: seq<Transfer>, currentCompanyId: string, period: Period)
    returns (segments: seq<Segment>)
    ensures Tiles(segments, period)
    ensures OwnersRight(segments, transfers, currentCompanyId)
    ensures TransfersRight(segments, transfers, period)
  {
    var ordered := Sort(ByEffect(), transfers);
    SortSorted(ByEffect(), transfers);
    segments := [];
    var owner := if |ordered| > 0 then ordered[0].fromCompanyId else currentCompanyId;
    var start := MinusInfinity;
    var entry: Option<Transfer> := None;
    for k := 0 to |ordered|
      invariant start == StartOf(ordered, k) && entry == EntryOf(ordered, k)
      invariant owner == OwnerFrom(ordered, currentCompanyId, k)
      invariant TilesUpTo(segments, period, start)
      invariant OwnersRight(segments, ordered, currentCompanyId)
      invariant TransfersRight(segments, ordered, period)
    {
      var transfer := ordered[k];
      PushKeeps(segments, ordered, currentCompanyId, k, period);
      segments := Push(segments, owner, start, entry, At(transfer.effectiveAt), Some(transfer), period);
      owner, start, entry := transfer.toCompanyId, At(transfer.effectiveAt), Some(transfer);
    }
    PushKeeps(segments, ordered, currentCompanyId, |ordered|, period);
    segments := Push(segments, owner, start, entry, PlusInfinity, None, period);
    OrderDoesNotMatter(segments, transfers, currentCompanyId, period);
  }

  /** What the contract of `OwnershipSegments` says leaves one owner for each instant of the period. */
  lemma {:induction false} EveryInstantOwned(segments: seq<Segment>, a: int, b: int, p: int)
    requires Chain(segments, a, b) && a <= p < b
    ensures exists k :: 0 <= k < |segments| && segments[k].from <= p < segments[k].to
  {
    var n := |segments| - 1;
    if p < segments[n].from {
      assert n > 0;
      EveryInstantOwned(segments[..n], a, segments[n].from, p);
      var k :| 0 <= k < n && segments[..n][k].from <= p < segments[..n][k].to;
      assert segments[k] == segments[..n][k];
    }
  }

  // ---------------------------------------------------------------- distances of the parts

  function PartOf(g: Segment): Period { Period(g.from, g.to) }

  /** Distances of the first n parts, added up. */
  function OwnedKm(readings: seq<Reading>, segments: seq<Segment>, n: nat): real
    requires n <= |segments|
  {
    if n == 0 then 0.0
    else
      var km := Km(readings, PartOf(segments[n - 1]));
      OwnedKm(readings, segments, n - 1) + (if km.Some? then km.value else 0.0)
  }

  /** Every part has a distance, and each transfer inside the period exactly one reading, shared by both parts. */
  ghost predicate PartsKnown(readings: seq<Reading>, segments: seq<Segment>) {
    && (forall k :: 0 <= k < |segments| ==> Km(readings, PartOf(segments[k])).Some?)
    && (forall k :: 0 < k < |segments| ==> OneReadingAt(readings, segments[k].from))
  }

  lemma {:induction false} OwnedMore(readings: seq<Reading>, segments: seq<Segment>, k: nat, before: real, last: real)
    requires k < |segments| && OwnedKm(readings, segments, k) == before &&
      Km(readings, PartOf(segments[k])) == Some(last)
    ensures OwnedKm(readings, segments, k + 1) == before + last
  {
  }

  lemma {:induction false} OwnedOneMore(
      readings: seq<Reading>, segments: seq<Segment>, a: int, k: nat, m: int, before: real)
    requires KnownPerSegment(readings) && 0 < k < |segments| && a <= m && segments[k].from == m <= segments[k].to
    requires OneReadingAt(readings, m) && Km(readings, PartOf(segments[k])).Some?
    requires before == OwnedKm(readings, segments, k) && Km(readings, Period(a, m)) == Some(before)
    ensures Km(readings, Period(a, segments[k].to)) == Some(OwnedKm(readings, segments, k + 1))
  {
    var last := Km(readings, PartOf(segments[k])).value;
    var total := before + last;
    KmAdds(readings, a, m, segments[k].to, before, last, total);
    assert OwnedKm(readings, segments, k + 1) == total by {
      OwnedMore(readings, segments, k, before, last);
    }
  }

  lemma {:induction false} FirstOwned(readings: seq<Reading>, segments: seq<Segment>)
    requires |segments| > 0 && Km(readings, PartOf(segments[0])).Some?
    ensures Km(readings, PartOf(segments[0])) == Some(OwnedKm(readings, segments, 1))
  {
    assert OwnedKm(readings, segments, 0) == 0.0;
  }

  /** The kilometres of the companies add up to those of the first n parts together. */
  lemma {:induction false} FirstPartsAdd(readings: seq<Reading>, segments: seq<Segment>, a: int, b: int, n: nat)
    requires Chain(segments, a, b) && KnownPerSegment(readings) && PartsKnown(readings, segments) && 0 < n <= |segments|
    ensures a < segments[n - 1].to
    ensures Km(readings, Period(a, segments[n - 1].to)) == Some(OwnedKm(readings, segments, n))
    decreases n
  {
    if n == 1 {
      FirstOwned(readings, segments);
    } else {
      FirstPartsAdd(readings, segments, a, b, n - 1);
      OwnedOneMore(readings, segments, a, n - 1, segments[n - 2].to, OwnedKm(readings, segments, n - 1));
    }
  }

  /** The distance of the period is the sum of the distances of the parts the companies owned. */
  lemma {:induction false} OwnedPartsAdd(readings: seq<Reading>, segments: seq<Segment>, period: Period)
    requires period.from < period.to && Tiles(segments, period)
    requires KnownPerSegment(readings) && PartsKnown(readings, segments)
    ensures Km(readings, period) == Some(OwnedKm(readings, segments, |segments|))
  {
    FirstPartsAdd(readings, segments, period.from, period.to, |segments|);
  }
}
