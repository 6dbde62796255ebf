/**
 What the computed consumption says, read off the purchases themselves: which intervals there are, what each of
 them holds and why it is excluded, and what the totals are.
 */
module ConsumptionMeaning {
  import opened Wrappers
  import opened Sorting
  import opened Consumption

  // ---------------------------------------------------------------- the interval that ends with a full tank

  /** A validated full tank of the energy. */
  ghost predicate Tank(e: Entry, energy: Energy) { e.status == Valide && e.energy == energy && e.isFullTank }

  /** The last full tank before k is at j, or there is none and j is -1. */
  ghost predicate TankBefore(s: seq<Entry>, energy: Energy, j: int, k: nat)
    requires k <= |s|
  {
    -1 <= j < k && (j >= 0 ==> Tank(s[j], energy)) && forall m :: j < m < k ==> !Tank(s[m], energy)
  }

  /** Litres of the validated purchases of an energy from one position up to another. */
  ghost function Litres(s: seq<Entry>, energy: Energy, from: nat, until: nat): real
    requires until <= |s|
    decreases until - from
  {
    if from >= until then 0.0
    else if s[from].status == Valide && s[from].energy == energy then
      s[from].liters + Litres(s, energy, from + 1, until)
    else Litres(s, energy, from + 1, until)
  }

  /** The meter was read, and the reading is accepted. */
  ghost predicate Metered(e: Entry) {
    e.odometer.Some? && e.odometer.value.status == Accepte && e.odometer.value.cumulativeKm.Some?
  }

  ghost function Meter(e: Entry): Option<real> { if Metered(e) then e.odometer.value.cumulativeKm else None }

  lemma {:induction false} ReferenceIsTank(s: seq<Entry>, energy: Energy, j: int, k: nat)
    requires k <= |s| && TankBefore(s, energy, j, k)
    ensures LastFull(s, energy, k) == if j < 0 then None else Some(j)
  {
    var last := LastFull(s, energy, k);
    assert forall m :: 0 <= m < k ==> (IsFull(s[m], energy) <==> Tank(s[m], energy));
    if last.Some? && j >= 0 {
      assert IsFull(s[j], energy);
    }
  }

  /** The list holds the entries after j and before k. */
  ghost predicate Spans(between: seq<Entry>, s: seq<Entry>, j: int, k: nat)
    requires -1 <= j < k < |s|
  {
    forall x :: x in between <==> exists m :: j < m < k && s[m] == x
  }

  lemma {:induction false} Between(s: seq<Entry>, between: seq<Entry>, j: int, k: nat)
    requires -1 <= j < k < |s| && between == s[j + 1..k]
    ensures Spans(between, s, j, k)
  {
    forall x | x in between ensures exists m :: j < m < k && s[m] == x {
      var n :| 0 <= n < |between| && between[n] == x;
      assert s[j + 1 + n] == x;
    }
    forall m | j < m < k ensures s[m] in between {
      assert between[m - j - 1] == s[m];
    }
  }

  /** The piece from the tank at j, if there is one, to the entry at k. */
  ghost predicate IsPiece(p: Piece, s: seq<Entry>, j: int, k: nat)
    requires -1 <= j < k < |s|
  {
    p.b == s[k] && p.between == s[j + 1..k] && if j < 0 then p.a.None? else p.a == Some(s[j])
  }

  lemma {:induction false} PieceIs(s: seq<Entry>, energy: Energy, j: int, k: nat)
    requires k < |s| && TankBefore(s, energy, j, k)
    ensures IsPiece(PieceAt(s, energy, k), s, j, k)
  {
    ReferenceIsTank(s, energy, j, k);
  }

  /** The piece joins the tank at j, if there is one, to the entry at k, with the entries between. */
  ghost predicate Joins(p: Piece, s: seq<Entry>, j: int, k: nat)
    requires -1 <= j < k < |s|
  {
    p.b == s[k] && Spans(p.between, s, j, k) && if j < 0 then p.a.None? else p.a == Some(s[j])
  }

  lemma {:induction false} PieceJoins(s: seq<Entry>, energy: Energy, j: int, k: nat)
    requires k < |s| && TankBefore(s, energy, j, k)
    ensures Joins(PieceAt(s, energy, k), s, j, k)
  {
    PieceIs(s, energy, j, k);
    Between(s, PieceAt(s, energy, k).between, j, k);
  }

  /** The interval runs from the tank at j, if there is one, to the tank at k. */
  ghost predicate RunsBetween(i: Interval, s: seq<Entry>, energy: Energy, j: int, k: nat)
    requires j < k < |s|
  {
    && i.energy == energy && i.endEntryId == s[k].id && i.endAt == s[k].filledAt && i.endKm == Meter(s[k])
    && (if j < 0 then i.startEntryId.None? && i.startAt.None? && i.startKm.None? && i.distanceKm.None?
        else i.startEntryId == Some(s[j].id) && i.startAt == Some(s[j].filledAt) && i.startKm == Meter(s[j]))
    && (j >= 0 ==> (i.distanceKm.Some? <==> Metered(s[j]) && Metered(s[k])))
    && (i.distanceKm.Some? && j >= 0 ==> i.distanceKm.value == Meter(s[k]).value - Meter(s[j]).value)
  }

  /** The bounds and the distance of an interval are those of its piece. */
  ghost predicate BoundedAs(i: Interval, p: Piece) {
    && i.energy == p.b.energy && i.endEntryId == p.b.id && i.endAt == p.b.filledAt && i.endKm == ValidatedKm(p.b)
    && i.distanceKm == Distance(p.a, p.b)
    && i.startEntryId == (if p.a.Some? then Some(p.a.value.id) else None)
    && i.startAt == (if p.a.Some? then Some(p.a.value.filledAt) else None)
    && i.startKm == (if p.a.Some? then ValidatedKm(p.a.value) else None)
  }

  lemma {:induction false} BoundsOfPiece(p: Piece, ctx: Context)
    ensures BoundedAs(IntervalOf(p, ctx), p)
  {
    EndsOfInterval(p, ctx);
    EndOfInterval(p, ctx);
  }

  lemma {:induction false} BoundsOfTanks(i: Interval, p: Piece, s: seq<Entry>, energy: Energy, j: int, k: nat)
    requires j < k < |s| && Tank(s[k], energy) && BoundedAs(i, p)
    requires -1 <= j && Joins(p, s, j, k)
    ensures RunsBetween(i, s, energy, j, k)
  {
  }

  /** The bounds of the interval and its distance. */
  lemma {:induction false} BoundsMean(s: seq<Entry>, energy: Energy, j: int, k: nat, ctx: Context)
    requires k < |s| && Tank(s[k], energy) && TankBefore(s, energy, j, k)
    ensures RunsBetween(IntervalOf(PieceAt(s, energy, k), ctx), s, energy, j, k)
  {
    var p := PieceAt(s, energy, k);
    PieceJoins(s, energy, j, k);
    BoundsOfPiece(p, ctx);
    BoundsOfTanks(IntervalOf(p, ctx), p, s, energy, j, k);
  }

  lemma {:induction false} LitresOneMore(s: seq<Entry>, energy: Energy, from: nat, until: nat)
    requires from <= until < |s|
    ensures Litres(s, energy, from, until + 1) == Litres(s, energy, from, until) +
      (if s[until].status == Valide && s[until].energy == energy then s[until].liters else 0.0)
    decreases until - from
  {
    if from < until {
      LitresOneMore(s, energy, from + 1, until);
    }
  }

  lemma {:induction false} SumOneMore(s: seq<Entry>, x: Entry)
    ensures SumLiters(s + [x]) == SumLiters(s) + x.liters
  {
    assert (s + [x])[..|s|] == s;
  }

  lemma {:induction false} NoLitres()
    ensures SumLiters([]) == 0.0
  {
  }

  lemma {:induction false} LitresStep(s: seq<Entry>, energy: Energy, from: nat, until: nat)
    requires from <= until < |s|
    ensures SumLiters(Filter(Counted(energy), s[from..until + 1])) ==
      SumLiters(Filter(Counted(energy), s[from..until])) +
      (if s[until].status == Valide && s[until].energy == energy then s[until].liters else 0.0)
  {
    var before := Filter(Counted(energy), s[from..until]);
    assert s[from..until + 1] == s[from..until] + [s[until]];
    FilterOneMore(Counted(energy), s[from..until], s[until]);
    SumOneMore(before, s[until]);
  }

  lemma {:induction false} LitresAreSum(s: seq<Entry>, energy: Energy, from: nat, until: nat)
    requires from <= until <= |s|
    ensures SumLiters(Filter(Counted(energy), s[from..until])) == Litres(s, energy, from, until)
    decreases until
  {
    if from == until {
      assert s[from..until] == [];
      NoLitres();
    } else {
      LitresAreSum(s, energy, from, until - 1);
      LitresOneMore(s, energy, from, until - 1);
      LitresStep(s, energy, from, until - 1);
    }
  }

  /** The litres are those of the tank that ends the interval and of the validated purchases of its energy before. */
  lemma {:induction false} LitresMean(s: seq<Entry>, energy: Energy, j: int, k: nat, ctx: Context)
    requires k < |s| && Tank(s[k], energy) && TankBefore(s, energy, j, k)
    ensures IntervalOf(PieceAt(s, energy, k), ctx).liters == Litres(s, energy, j + 1, k) + s[k].liters
  {
    var p := PieceAt(s, energy, k);
    PieceIs(s, energy, j, k);
    LitresAreSum(s, energy, j + 1, k);
    SumOneMore(Filter(Counted(energy), s[j + 1..k]), s[k]);
    assert CountedEntries(p.b, p.between) == Filter(Counted(energy), s[j + 1..k]) + [s[k]];
  }

  lemma {:induction false} IdsMean(listed: seq<Entry>, id: string)
    ensures id in Ids(listed) <==> exists x :: x in listed && x.id == id
  {
    if id in Ids(listed) {
      var n :| 0 <= n < |listed| && Ids(listed)[n] == id;
      assert listed[n] in listed;
    }
    if x :| x in listed && x.id == id {
      var n :| 0 <= n < |listed| && listed[n] == x;
      assert Ids(listed)[n] == id;
    }
  }

  lemma {:induction false} ListedByPiece(p: Piece, ctx: Context)
    ensures IntervalOf(p, ctx).entryIds == Ids(Examined(p.a, p.b, p.between) + [p.b])
  {
  }

  /** The purchase with this identifier lies between the tanks or ends the interval. */
  ghost predicate Mentions(s: seq<Entry>, energy: Energy, j: int, k: nat, id: string)
    requires -1 <= j < k < |s|
  {
    exists m :: j < m <= k && (j >= 0 || s[m].energy == energy) && s[m].id == id
  }

  /** The list holds the end of the piece and the purchases between, without a start only those of its energy. */
  ghost predicate Lists(listed: seq<Entry>, p: Piece) {
    forall x :: x in listed <==> x == p.b || (x in p.between && (p.a.Some? || x.energy == p.b.energy))
  }

  lemma {:induction false} ListedMembers(p: Piece)
    ensures Lists(Examined(p.a, p.b, p.between) + [p.b], p)
  {
    FilterMembers(OfSameEnergy(p.b.energy), p.between);
  }

  lemma {:induction false} ListedMeans(
      listed: seq<Entry>, p: Piece, s: seq<Entry>, energy: Energy, j: int, k: nat, id: string)
    requires -1 <= j < k < |s| && s[k].energy == energy && Joins(p, s, j, k) && Lists(listed, p)
    ensures id in Ids(listed) <==> Mentions(s, energy, j, k, id)
  {
    IdsMean(listed, id);
    if x :| x in listed && x.id == id {
      if x != p.b {
        var m :| j < m < k && s[m] == x;
      }
    }
    if Mentions(s, energy, j, k, id) {
      var m :| j < m <= k && (j >= 0 || s[m].energy == energy) && s[m].id == id;
      assert s[m] in listed;
    }
  }

  /** Listed are the tank that ends the interval and the purchases before it; without a start, those of its energy. */
  lemma {:induction false} EntriesMean(s: seq<Entry>, energy: Energy, j: int, k: nat, ctx: Context, id: string)
    requires k < |s| && Tank(s[k], energy) && TankBefore(s, energy, j, k)
    ensures id in IntervalOf(PieceAt(s, energy, k), ctx).entryIds <==> Mentions(s, energy, j, k, id)
  {
    var p := PieceAt(s, energy, k);
    PieceJoins(s, energy, j, k);
    ListedByPiece(p, ctx);
    ListedMembers(p);
    ListedMeans(Examined(p.a, p.b, p.between) + [p.b], p, s, energy, j, k, id);
  }

  // ---------------------------------------------------------------- why an interval is excluded

  /** A purchase between the tanks whose litres count. */
  ghost predicate CountsBetween(s: seq<Entry>, energy: Energy, j: int, k: nat, m: int)
    requires k <= |s|
  {
    j < m < k && 0 <= m && s[m].status == Valide && s[m].energy == energy
  }

  ghost predicate Unmetered(e: Entry) { !Metered(e) }

  ghost predicate Estimated(e: Entry) { Metered(e) && e.odometer.value.isEstimate }

  ghost predicate TooMuch(e: Entry) {
    Metered(e) && !e.odometer.value.isEstimate && e.tankCapacityExceeded && !e.capacityConfirmed
  }

  /** When each reason stands against the interval from the tank at j to the tank at k. */
  ghost predicate Speaks(r: Reason, s: seq<Entry>, energy: Energy, j: int, k: nat, ctx: Context)
    requires k < |s| && j < k
  {
    if j < 0 then r == PasDePleinDeReference
    else match r
      case PasDePleinDeReference => false
      case PleinIntermediaireSoumis => exists m :: j < m < k && s[m].status == Soumis
      case CompteurNonValide =>
        Unmetered(s[j]) || Unmetered(s[k]) || exists m :: CountsBetween(s, energy, j, k, m) && Unmetered(s[m])
      case BorneEstimee =>
        Estimated(s[j]) || Estimated(s[k]) || exists m :: CountsBetween(s, energy, j, k, m) && Estimated(s[m])
      case CapaciteNonConfirmee =>
        TooMuch(s[k]) || exists m :: CountsBetween(s, energy, j, k, m) && TooMuch(s[m])
      case DistanceNulle => Metered(s[j]) && Metered(s[k]) && Meter(s[k]).value <= Meter(s[j]).value
      case PeriodeAchatsIncomplets =>
        exists g :: g in ctx.gaps && g.startsAt < s[k].filledAt && s[j].filledAt < g.endsAt
      case EnergieDifferente => exists m :: j < m < k && s[m].energy != energy
      case RemplissageSansTicket =>
        exists x :: x in ctx.signals && x.kind == SansTicket && s[j].filledAt < x.at <= s[k].filledAt
      case EcartTicketNonQualifie =>
        exists x :: x in ctx.signals && x.kind == EcartTicket && s[j].filledAt < x.at <= s[k].filledAt
      case HistoriqueInsuffisant => false
  }

  /** What a validated purchase of the energy brings with it. */
  lemma {:induction false} EntryReasonMeans(e: Entry)
    requires e.status == Valide
    ensures EntryReason(e) == Some(CompteurNonValide) <==> Unmetered(e)
    ensures EntryReason(e) == Some(BorneEstimee) <==> Estimated(e)
    ensures EntryReason(e) == Some(CapaciteNonConfirmee) <==> TooMuch(e)
    ensures EntryReason(e).Some? ==> EntryReason(e).value in {CompteurNonValide, BorneEstimee, CapaciteNonConfirmee}
  {
  }

  /** Some counted purchase between the tanks brings the reason. */
  ghost predicate BroughtBetween(s: seq<Entry>, energy: Energy, j: int, k: nat, r: Reason)
    requires k <= |s|
  {
    exists m :: CountsBetween(s, energy, j, k, m) && EntryReason(s[m]) == Some(r)
  }

  lemma {:induction false} OnlyValidatedBring(e: Entry)
    requires EntryReason(e).Some?
    ensures e.status == Valide
  {
  }

  lemma {:induction false} OneBrings(s: seq<Entry>, energy: Energy, j: int, k: nat, m: int, r: Reason)
    requires -1 <= j < m < k < |s| && s[m].energy == energy && EntryReason(s[m]) == Some(r)
    ensures BroughtBetween(s, energy, j, k, r)
  {
    OnlyValidatedBring(s[m]);
    assert CountsBetween(s, energy, j, k, m);
  }

  lemma {:induction false} SomeBetweenBrings(
      s: seq<Entry>, between: seq<Entry>, energy: Energy, j: int, k: nat, r: Reason)
    requires -1 <= j < k < |s| && Spans(between, s, j, k) && SomeBetween(between, energy, r)
    ensures BroughtBetween(s, energy, j, k, r)
  {
    var x :| x in between && x.energy == energy && EntryReason(x) == Some(r);
    var m :| j < m < k && s[m] == x;
    OneBrings(s, energy, j, k, m, r);
  }

  lemma {:induction false} BroughtIsBetween(
      s: seq<Entry>, between: seq<Entry>, energy: Energy, j: int, k: nat, r: Reason)
    requires -1 <= j < k < |s| && Spans(between, s, j, k) && BroughtBetween(s, energy, j, k, r)
    ensures SomeBetween(between, energy, r)
  {
    var m :| CountsBetween(s, energy, j, k, m) && EntryReason(s[m]) == Some(r);
    assert s[m] in between;
  }

  /** A reason that purchases between the tanks bring, each by itself. */
  lemma {:induction false} BetweenBrings(s: seq<Entry>, between: seq<Entry>, energy: Energy, j: int, k: nat, r: Reason)
    requires -1 <= j < k < |s| && Spans(between, s, j, k)
    ensures SomeBetween(between, energy, r) <==> BroughtBetween(s, energy, j, k, r)
  {
    if SomeBetween(between, energy, r) {
      SomeBetweenBrings(s, between, energy, j, k, r);
    }
    if BroughtBetween(s, energy, j, k, r) {
      BroughtIsBetween(s, between, energy, j, k, r);
    }
  }

  lemma {:induction false} BroughtMeans(s: seq<Entry>, energy: Energy, j: int, k: nat)
    requires k < |s|
    ensures BroughtBetween(s, energy, j, k, CompteurNonValide) <==>
      exists m :: CountsBetween(s, energy, j, k, m) && Unmetered(s[m])
    ensures BroughtBetween(s, energy, j, k, BorneEstimee) <==>
      exists m :: CountsBetween(s, energy, j, k, m) && Estimated(s[m])
    ensures BroughtBetween(s, energy, j, k, CapaciteNonConfirmee) <==>
      exists m :: CountsBetween(s, energy, j, k, m) && TooMuch(s[m])
  {
    forall m | CountsBetween(s, energy, j, k, m)
      ensures EntryReason(s[m]) == Some(CompteurNonValide) <==> Unmetered(s[m])
      ensures EntryReason(s[m]) == Some(BorneEstimee) <==> Estimated(s[m])
      ensures EntryReason(s[m]) == Some(CapaciteNonConfirmee) <==> TooMuch(s[m])
    {
      EntryReasonMeans(s[m]);
    }
  }

  lemma {:induction false} SpeaksIsApplies(
      r: Reason, p: Piece, s: seq<Entry>, energy: Energy, j: int, k: nat, ctx: Context)
    requires k < |s| && Tank(s[k], energy) && TankBefore(s, energy, j, k) && j >= 0 && Joins(p, s, j, k)
    ensures Applies(r, p.a, p.b, p.between, ctx) <==> Speaks(r, s, energy, j, k, ctx)
  {
    BetweenBrings(s, p.between, energy, j, k, r);
    BroughtMeans(s, energy, j, k);
    EntryReasonMeans(s[j]);
    EntryReasonMeans(s[k]);
  }

  lemma {:induction false} ReasonsOfPiece(p: Piece, ctx: Context, r: Reason)
    ensures r in IntervalOf(p, ctx).reasons <==> Applies(r, p.a, p.b, p.between, ctx)
  {
    ReasonsAre(p.a, p.b, p.between, ctx);
  }

  lemma {:induction false} OnlyReferenceMissing(
      r: Reason, p: Piece, s: seq<Entry>, energy: Energy, j: int, k: nat, ctx: Context)
    requires j < 0 && k < |s| && p.a.None?
    ensures Applies(r, p.a, p.b, p.between, ctx) <==> Speaks(r, s, energy, j, k, ctx)
  {
  }

  lemma {:induction false} AppliesToTanks(
      r: Reason, p: Piece, s: seq<Entry>, energy: Energy, j: int, k: nat, ctx: Context)
    requires k < |s| && Tank(s[k], energy) && TankBefore(s, energy, j, k) && Joins(p, s, j, k)
    ensures Applies(r, p.a, p.b, p.between, ctx) <==> Speaks(r, s, energy, j, k, ctx)
  {
    if j >= 0 {
      SpeaksIsApplies(r, p, s, energy, j, k, ctx);
    } else {
      OnlyReferenceMissing(r, p, s, energy, j, k, ctx);
    }
  }

  lemma {:induction false} ReasonsOfTanks(
      r: Reason, p: Piece, s: seq<Entry>, energy: Energy, j: int, k: nat, ctx: Context)
    requires k < |s| && Tank(s[k], energy) && TankBefore(s, energy, j, k) && Joins(p, s, j, k)
    ensures r in IntervalOf(p, ctx).reasons <==> Speaks(r, s, energy, j, k, ctx)
  {
    ReasonsOfPiece(p, ctx, r);
    AppliesToTanks(r, p, s, energy, j, k, ctx);
  }

  /** The reasons of an interval are exactly those that stand against it. */
  lemma {:induction false} ReasonsMean(s: seq<Entry>, energy: Energy, j: int, k: nat, ctx: Context, r: Reason)
    requires k < |s| && Tank(s[k], energy) && TankBefore(s, energy, j, k)
    ensures r in IntervalOf(PieceAt(s, energy, k), ctx).reasons <==> Speaks(r, s, energy, j, k, ctx)
  {
    PieceJoins(s, energy, j, k);
    ReasonsOfTanks(r, PieceAt(s, energy, k), s, energy, j, k, ctx);
  }

  /** The place of a reason in the list of reasons. */
  ghost function Place(r: Reason): nat {
    match r
    case PasDePleinDeReference => 0
    case PleinIntermediaireSoumis => 1
    case CompteurNonValide => 2
    case BorneEstimee => 3
    case CapaciteNonConfirmee => 4
    case DistanceNulle => 5
    case PeriodeAchatsIncomplets => 6
    case EnergieDifferente => 7
    case RemplissageSansTicket => 8
    case EcartTicketNonQualifie => 9
    case HistoriqueInsuffisant => 10
  }

  ghost function ByPlace(): (Reason, Reason) -> bool { (a: Reason, b: Reason) => Place(a) < Place(b) }

  lemma {:induction false} PlaceOf(k: nat)
    requires k < |REASONS|
    ensures Place(REASONS[k]) == k
  {
  }

  lemma {:induction false} ReasonsListedByPlace()
    ensures Sorted(ByPlace(), REASONS)
  {
    forall k: nat | k < |REASONS| ensures Place(REASONS[k]) == k {
      PlaceOf(k);
    }
  }

  /** The reasons of an interval are listed once each, in their places. */
  lemma {:induction false} ReasonsInOrder(p: Piece, ctx: Context, x: nat, y: nat)
    requires x < y < |IntervalOf(p, ctx).reasons|
    ensures Place(IntervalOf(p, ctx).reasons[x]) < Place(IntervalOf(p, ctx).reasons[y])
  {
    ReasonsListedByPlace();
    FilterSorted(ByPlace(), AppliesTo(p.a, p.b, p.between, ctx), REASONS);
    assert ByPlace()(IntervalOf(p, ctx).reasons[x], IntervalOf(p, ctx).reasons[y]);
  }

  // ---------------------------------------------------------------- the intervals of a result

  /** The interval is the one that ends with the full tank at k. */
  ghost predicate EndsAtTank(i: Interval, s: seq<Entry>, ctx: Context, k: int) {
    0 <= k < |s| && Tank(s[k], s[k].energy) && i == IntervalOf(PieceAt(s, s[k].energy, k), ctx)
  }

  ghost predicate WithinPeriod(t: int, period: Period) {
    (period.from.Some? ==> period.from.value <= t) && (period.to.Some? ==> t <= period.to.value)
  }

  /** Purchases are taken by instant of filling, then of entry, then by identifier. */
  lemma {:induction false} PurchasesInOrder(entries: seq<Entry>, i: nat, j: nat)
    requires i < j < |Sort(CompareEntries(), entries)|
    ensures multiset(Sort(CompareEntries(), entries)) == multiset(entries)
    ensures var a, b := Sort(CompareEntries(), entries)[i], Sort(CompareEntries(), entries)[j];
      || a.filledAt < b.filledAt
      || (a.filledAt == b.filledAt && a.createdAt < b.createdAt)
      || (a.filledAt == b.filledAt && a.createdAt == b.createdAt && StringLe(a.id, b.id))
  {
    var s := Sort(CompareEntries(), entries);
    EntryOrder();
    SortSorted(CompareEntries(), entries);
    SortPermutes(CompareEntries(), entries);
    assert CompareEntries()(s[i], s[j]);
  }

  /** The piece is the one that ends with the full tank at k. */
  ghost predicate PieceEndsAt(p: Piece, s: seq<Entry>, energy: Energy, k: int) {
    0 <= k < |s| && Tank(s[k], energy) && p == PieceAt(s, energy, k)
  }

  lemma {:induction false} FullIsTank(e: Entry, energy: Energy)
    ensures IsFull(e, energy) <==> Tank(e, energy)
  {
  }

  lemma {:induction false} PlaceOfPiece(s: seq<Entry>, energy: Energy, n: nat, p: Piece)
    requires n <= |s|
    ensures p in Pieces(s, energy, n) <==> exists k :: k < n && PieceEndsAt(p, s, energy, k)
    decreases n
  {
    if n == 0 {
    } else {
      PlaceOfPiece(s, energy, n - 1, p);
      FullIsTank(s[n - 1], energy);
      if p == PieceAt(s, energy, n - 1) && Tank(s[n - 1], energy) {
        assert PieceEndsAt(p, s, energy, n - 1);
      }
    }
  }

  lemma {:induction false} TankOfPiece(s: seq<Entry>, energy: Energy, ctx: Context, p: Piece)
    requires p in Pieces(s, energy, |s|)
    ensures exists k :: EndsAtTank(IntervalOf(p, ctx), s, ctx, k) && s[k].energy == energy
  {
    PlaceOfPiece(s, energy, |s|, p);
    var k :| k < |s| && PieceEndsAt(p, s, energy, k);
    assert EndsAtTank(IntervalOf(p, ctx), s, ctx, k);
  }

  lemma {:induction false} TankOfInterval(s: seq<Entry>, energy: Energy, ctx: Context, i: Interval)
    requires i in EnergyIntervals(s, energy, ctx)
    ensures exists k :: EndsAtTank(i, s, ctx, k) && s[k].energy == energy
  {
    var pieces, all := Pieces(s, energy, |s|), EnergyIntervals(s, energy, ctx);
    var n :| 0 <= n < |all| && all[n] == i;
    IntervalsAt(pieces, ctx, n);
    TankOfPiece(s, energy, ctx, pieces[n]);
  }

  lemma {:induction false} IntervalOfTank(s: seq<Entry>, energy: Energy, ctx: Context, k: nat)
    requires k < |s| && Tank(s[k], energy)
    ensures IntervalOf(PieceAt(s, energy, k), ctx) in EnergyIntervals(s, energy, ctx)
  {
    var pieces, p := Pieces(s, energy, |s|), PieceAt(s, energy, k);
    assert PieceEndsAt(p, s, energy, k);
    PlaceOfPiece(s, energy, |s|, p);
    var n :| 0 <= n < |pieces| && pieces[n] == p;
    IntervalsAt(pieces, ctx, n);
    assert EnergyIntervals(s, energy, ctx)[n] == IntervalOf(p, ctx);
  }

  lemma {:induction false} EndOfTank(i: Interval, s: seq<Entry>, ctx: Context, k: int)
    requires EndsAtTank(i, s, ctx, k)
    ensures i.endAt == s[k].filledAt && i.energy == s[k].energy
  {
    EndOfInterval(PieceAt(s, s[k].energy, k), ctx);
  }

  /** A scan holds an interval exactly when the interval ends with one of its tanks. */
  lemma {:induction false} PlaceOfInterval(s: seq<Entry>, ctx: Context, i: Interval)
    ensures i in EnergyIntervals(s, i.energy, ctx) <==> exists k :: EndsAtTank(i, s, ctx, k)
  {
    if i in EnergyIntervals(s, i.energy, ctx) {
      TankOfInterval(s, i.energy, ctx, i);
    }
    if k :| EndsAtTank(i, s, ctx, k) {
      EndOfTank(i, s, ctx, k);
      IntervalOfTank(s, s[k].energy, ctx, k);
    }
  }

  /** The intervals of an energy in the result are those of its scan that end in the period. */
  lemma {:induction false} MembersOfResult(entries: seq<Entry>, ctx: Context, period: Period, i: Interval)
    ensures i in Consume(entries, ctx, period).intervals <==>
      i in EnergyIntervals(Sort(CompareEntries(), entries), i.energy, ctx) && WithinPeriod(i.endAt, period)
  {
    var s, all := Sort(CompareEntries(), entries), Consume(entries, ctx, period).intervals;
    IntervalsOfEnergy(entries, ctx, period, i.energy);
    FilterMember(OfEnergy(i.energy), all, i);
    FilterMember(Ends(period), EnergyIntervals(s, i.energy, ctx), i);
  }

  /** The result holds an interval for each validated full tank of the period, and no other. */
  lemma {:induction false} IntervalsMean(entries: seq<Entry>, ctx: Context, period: Period, i: Interval)
    ensures var s := Sort(CompareEntries(), entries);
      i in Consume(entries, ctx, period).intervals <==>
        exists k :: EndsAtTank(i, s, ctx, k) && WithinPeriod(s[k].filledAt, period)
  {
    var s := Sort(CompareEntries(), entries);
    MembersOfResult(entries, ctx, period, i);
    PlaceOfInterval(s, ctx, i);
    forall k | EndsAtTank(i, s, ctx, k) ensures i.endAt == s[k].filledAt {
      EndOfTank(i, s, ctx, k);
    }
  }

  /** The intervals are listed by their ends. */
  lemma {:induction false} IntervalsByEnd(entries: seq<Entry>, ctx: Context, period: Period, i: nat, j: nat)
    requires i < j < |Consume(entries, ctx, period).intervals|
    ensures Consume(entries, ctx, period).intervals[i].endAt <= Consume(entries, ctx, period).intervals[j].endAt
  {
    var all := AllIntervals(Sort(CompareEntries(), entries), ctx, period, |FUEL_ENERGIES|);
    SortSorted(ByEnd(), all);
    assert ByEnd()(Sort(ByEnd(), all)[i], Sort(ByEnd(), all)[j]);
  }

  lemma {:induction false} SoundInScan(s: seq<Entry>, energy: Energy, ctx: Context, i: Interval)
    requires i in EnergyIntervals(s, energy, ctx)
    ensures Sound(i)
  {
    AllSound(s, energy, ctx);
  }

  /** The ratio is there exactly for a retained interval, and times its distance is 100 times its litres. */
  ghost predicate HasRatio(i: Interval) {
    && (i.ratio.Some? <==> i.retained)
    && (i.retained ==> i.distanceKm.Some? && i.distanceKm.value > 0.0)
    && (i.retained ==> i.ratio.value * i.distanceKm.value == 100.0 * i.liters)
  }

  /** An interval of the result is retained exactly when it has no reason, and has then its ratio. */
  lemma {:induction false} RatiosMean(entries: seq<Entry>, ctx: Context, period: Period, i: Interval)
    requires i in Consume(entries, ctx, period).intervals
    ensures (i.retained <==> i.reasons == []) && HasRatio(i)
  {
    MembersOfResult(entries, ctx, period, i);
    SoundInScan(Sort(CompareEntries(), entries), i.energy, ctx, i);
  }

  // ---------------------------------------------------------------- the totals of a result

  ghost function RetainedLitres(own: seq<Interval>): real {
    if |own| == 0 then 0.0 else (if own[0].retained then own[0].liters else 0.0) + RetainedLitres(own[1..])
  }

  ghost function RetainedKm(own: seq<Interval>): real {
    if |own| == 0 then 0.0
    else (if own[0].retained && own[0].distanceKm.Some? then own[0].distanceKm.value else 0.0) + RetainedKm(own[1..])
  }

  ghost function RetainedCount(own: seq<Interval>): nat {
    if |own| == 0 then 0 else (if own[0].retained then 1 else 0) + RetainedCount(own[1..])
  }

  lemma {:induction false} RetainedOneMore(own: seq<Interval>, i: Interval)
    ensures RetainedLitres(own + [i]) == RetainedLitres(own) + (if i.retained then i.liters else 0.0)
    ensures RetainedKm(own + [i]) ==
      RetainedKm(own) + (if i.retained && i.distanceKm.Some? then i.distanceKm.value else 0.0)
    ensures RetainedCount(own + [i]) == RetainedCount(own) + (if i.retained then 1 else 0)
  {
    if |own| == 0 {
      assert own + [i] == [i] && [i][1..] == [];
    } else {
      RetainedOneMore(own[1..], i);
      assert (own + [i])[1..] == own[1..] + [i];
    }
  }

  lemma {:induction false} FiguresMean(own: seq<Interval>)
    ensures RetainedCount(own) <= |own|
    ensures FiguresOf(own) ==
      Figures(RetainedLitres(own), RetainedKm(own), RetainedCount(own), |own| - RetainedCount(own))
  {
    if |own| == 0 {
    } else {
      var before, i := own[..|own| - 1], own[|own| - 1];
      assert own == before + [i];
      FiguresMean(before);
      RetainedOneMore(before, i);
      FiguresOneMore(before, i);
    }
  }

  lemma {:induction false} RetainedKmPositive(own: seq<Interval>)
    requires forall i :: i in own ==> Sound(i)
    ensures RetainedKm(own) >= 0.0 && (RetainedCount(own) > 0 ==> RetainedKm(own) > 0.0)
    ensures RetainedCount(own) > 0 <==> exists i :: i in own && i.retained
  {
    if |own| == 0 {
    } else {
      assert own == [own[0]] + own[1..] && own[0] in own;
      RetainedKmPositive(own[1..]);
    }
  }

  /** The total sums up the retained intervals; without any it lists the reasons of the excluded ones. */
  ghost predicate SumsUp(t: Total, own: seq<Interval>) {
    && t.retainedCount == RetainedCount(own) && t.retainedCount + t.excludedCount == |own|
    && (t.available <==> exists i :: i in own && i.retained)
    && (if t.available then
          && t.liters == Some(RetainedLitres(own)) && t.distanceKm == Some(RetainedKm(own)) && t.reasons == []
          && t.ratio.Some? && t.ratio.value * RetainedKm(own) == 100.0 * RetainedLitres(own)
        else
          && t.liters.None? && t.distanceKm.None? && t.ratio.None?
          && forall r :: r in t.reasons <==> exists i :: i in own && r in i.reasons)
  }

  lemma {:induction false} AvailableSumsUp(energy: Energy, own: seq<Interval>)
    requires RetainedCount(own) > 0 && RetainedKm(own) > 0.0 && exists i :: i in own && i.retained
    ensures SumsUp(TotalOf(energy, own), own)
  {
    FiguresMean(own);
    RatioTimesDistance(RetainedLitres(own), RetainedKm(own));
  }

  lemma {:induction false} UnavailableSumsUp(energy: Energy, own: seq<Interval>)
    requires RetainedCount(own) == 0 && forall i :: i in own ==> !i.retained
    ensures SumsUp(TotalOf(energy, own), own)
  {
    FiguresMean(own);
    OrderedMembers(ReasonSet(own));
    forall r ensures r in ReasonSet(own) <==> exists i :: i in own && r in i.reasons {
      ReasonSetMembers(own, r);
    }
  }

  lemma {:induction false} TotalOfSumsUp(energy: Energy, own: seq<Interval>)
    requires forall i :: i in own ==> Sound(i)
    ensures SumsUp(TotalOf(energy, own), own)
  {
    RetainedKmPositive(own);
    if RetainedCount(own) > 0 {
      AvailableSumsUp(energy, own);
    } else {
      UnavailableSumsUp(energy, own);
    }
  }

  /** The total of an energy that has intervals. */
  ghost predicate IsTotalFor(t: Total, intervals: seq<Interval>, energy: Energy) {
    var own := Filter(OfEnergy(energy), intervals);
    |own| > 0 && t == TotalOf(energy, own)
  }

  lemma {:induction false} OneMoreTotal(before: seq<Total>, intervals: seq<Interval>, energy: Energy, t: Total)
    requires var own := Filter(OfEnergy(energy), intervals);
      t in if |own| == 0 then before else before + [TotalOf(energy, own)]
    ensures t in before || IsTotalFor(t, intervals, energy)
  {
  }

  lemma {:induction false} TotalsListed(intervals: seq<Interval>, k: nat, t: Total)
    requires k <= |FUEL_ENERGIES| && t in TotalsOf(intervals, k)
    ensures exists energy :: IsTotalFor(t, intervals, energy)
    decreases k
  {
    if k > 0 {
      TotalsOneMore(intervals, k - 1);
      OneMoreTotal(TotalsOf(intervals, k - 1), intervals, FUEL_ENERGIES[k - 1], t);
      if t in TotalsOf(intervals, k - 1) {
        TotalsListed(intervals, k - 1, t);
      }
    }
  }

  lemma {:induction false} OwnAreSound(entries: seq<Entry>, ctx: Context, period: Period, energy: Energy)
    ensures forall i :: i in OwnIntervals(entries, ctx, period, energy) ==> Sound(i)
  {
    var intervals := Consume(entries, ctx, period).intervals;
    forall i | i in OwnIntervals(entries, ctx, period, energy) ensures Sound(i) {
      FilterMember(OfEnergy(energy), intervals, i);
      MembersOfResult(entries, ctx, period, i);
      SoundInScan(Sort(CompareEntries(), entries), i.energy, ctx, i);
    }
  }

  lemma {:induction false} TotalsOfResult(entries: seq<Entry>, ctx: Context, period: Period)
    ensures var r := Consume(entries, ctx, period); r.totals == TotalsOf(r.intervals, |FUEL_ENERGIES|)
  {
  }

  lemma {:induction false} OfOwnEnergy(t: Total, intervals: seq<Interval>, energy: Energy)
    requires IsTotalFor(t, intervals, energy)
    ensures IsTotalFor(t, intervals, t.energy)
  {
  }

  lemma {:induction false} TotalIsOf(intervals: seq<Interval>, t: Total)
    requires t in TotalsOf(intervals, |FUEL_ENERGIES|)
    ensures IsTotalFor(t, intervals, t.energy)
  {
    TotalsListed(intervals, |FUEL_ENERGIES|, t);
    var energy :| IsTotalFor(t, intervals, energy);
    OfOwnEnergy(t, intervals, energy);
  }

  /** Each total of the result sums up the intervals of its energy. */
  lemma {:induction false} TotalsMean(entries: seq<Entry>, ctx: Context, period: Period, t: Total)
    requires t in Consume(entries, ctx, period).totals
    ensures var own := OwnIntervals(entries, ctx, period, t.energy); |own| > 0 && SumsUp(t, own)
  {
    TotalsOfResult(entries, ctx, period);
    TotalIsOf(Consume(entries, ctx, period).intervals, t);
    OwnAreSound(entries, ctx, period, t.energy);
    TotalOfSumsUp(t.energy, OwnIntervals(entries, ctx, period, t.energy));
  }
}
