/**
 Fuel consumption between full tanks (apps/api/src/domain/consumption.ts). Litres and kilometres are exact;
 instants are integer milliseconds.
 */
module Consumption {
  import opened Wrappers
  import opened Sorting

  datatype Energy = Diesel | Essence | Gpl

  const FUEL_ENERGIES: seq<Energy> := [Diesel, Essence, Gpl]

  datatype Reason =
    | PasDePleinDeReference | PleinIntermediaireSoumis | CompteurNonValide | BorneEstimee | CapaciteNonConfirmee
    | DistanceNulle | PeriodeAchatsIncomplets | EnergieDifferente | RemplissageSansTicket | EcartTicketNonQualifie
    | HistoriqueInsuffisant

  const REASONS: seq<Reason> := [
    PasDePleinDeReference, PleinIntermediaireSoumis, CompteurNonValide, BorneEstimee, CapaciteNonConfirmee,
    DistanceNulle, PeriodeAchatsIncomplets, EnergieDifferente, RemplissageSansTicket, EcartTicketNonQualifie,
    HistoriqueInsuffisant]

  datatype ReadingStatus = Accepte | EnAttente | Rejete | Remplace

  datatype Odometer = Odometer(status: ReadingStatus, cumulativeKm: Option<real>, isEstimate: bool)

  datatype EntryStatus = Soumis | Valide

  datatype Entry = Entry(
    id: string, filledAt: int, createdAt: int, status: EntryStatus, energy: Energy, isFullTank: bool, liters: real,
    odometer: Option<Odometer>, tankCapacityExceeded: bool, capacityConfirmed: bool)

  datatype Gap = Gap(startsAt: int, endsAt: int)

  datatype SignalKind = SansTicket | EcartTicket

  datatype Signal = Signal(at: int, kind: SignalKind)

  /** Both bounds are included; None is unbounded. */
  datatype Period = Period(from: Option<int>, to: Option<int>)

  datatype Context = Context(gaps: seq<Gap>, signals: seq<Signal>)

  datatype Interval = Interval(
    energy: Energy, startEntryId: Option<string>, endEntryId: string, startAt: Option<int>, endAt: int,
    startKm: Option<real>, endKm: Option<real>, distanceKm: Option<real>, liters: real, entryIds: seq<string>,
    retained: bool, reasons: seq<Reason>, ratio: Option<real>)

  datatype Eligibility = Admissible | NonValide | SansCompteur | Estimee | CapaciteDepassee

  function EntryEligibility(e: Entry): Eligibility {
    if e.status != Valide then NonValide
    else if e.odometer.None? || e.odometer.value.status != Accepte || e.odometer.value.cumulativeKm.None?
      then SansCompteur
    else if e.odometer.value.isEstimate then Estimee
    else if e.tankCapacityExceeded && !e.capacityConfirmed then CapaciteDepassee
    else Admissible
  }

  /** The reason an entry that is counted brings with it. */
  function EntryReason(e: Entry): Option<Reason> {
    match EntryEligibility(e)
    case SansCompteur => Some(CompteurNonValide)
    case Estimee => Some(BorneEstimee)
    case CapaciteDepassee => Some(CapaciteNonConfirmee)
    case _ => None
  }

  /** The litres of the starting tank do not count, so neither does its capacity. */
  function BoundReason(e: Entry): Option<Reason> {
    var r := EntryReason(e);
    if r == Some(CompteurNonValide) || r == Some(BorneEstimee) then r else None
  }

  function ValidatedKm(e: Entry): Option<real> {
    if e.odometer.Some? && e.odometer.value.status == Accepte then e.odometer.value.cumulativeKm else None
  }

  function CompareEntries(): (Entry, Entry) -> bool {
    (a: Entry, b: Entry) =>
      a.filledAt < b.filledAt
      || (a.filledAt == b.filledAt &&
        (a.createdAt < b.createdAt || (a.createdAt == b.createdAt && StringLe(a.id, b.id))))
  }

  function Counted(energy: Energy): Entry -> bool { (e: Entry) => e.status == Valide && e.energy == energy }

  function OfSameEnergy(energy: Energy): Entry -> bool { (e: Entry) => e.energy == energy }

  predicate IsFull(e: Entry, energy: Energy) { e.energy == energy && e.status == Valide && e.isFullTank }

  function SumLiters(s: seq<Entry>): real {
    if |s| == 0 then 0.0 else SumLiters(s[..|s| - 1]) + s[|s| - 1].liters
  }

  function Ids(s: seq<Entry>): (r: seq<string>)
    ensures |r| == |s| && forall k :: 0 <= k < |s| ==> r[k] == s[k].id
  {
    seq(|s|, k requires 0 <= k < |s| => s[k].id)
  }

  // ---------------------------------------------------------------- one interval

  function Distance(a: Option<Entry>, b: Entry): Option<real> {
    var start, end := if a.Some? then ValidatedKm(a.value) else None, ValidatedKm(b);
    if start.Some? && end.Some? then Some(end.value - start.value) else None
  }

  ghost predicate SomeBetween(between: seq<Entry>, energy: Energy, r: Reason) {
    exists m :: m in between && m.energy == energy && EntryReason(m) == Some(r)
  }

  ghost predicate SomeSignal(signals: seq<Signal>, from: int, to: int, kind: SignalKind) {
    exists s :: s in signals && s.kind == kind && from < s.at <= to
  }

  /** When each reason makes an interval unusable. */
  ghost predicate Applies(r: Reason, a: Option<Entry>, b: Entry, between: seq<Entry>, ctx: Context) {
    if a.None? then r == PasDePleinDeReference
    else match r
      case PasDePleinDeReference => false
      case PleinIntermediaireSoumis => exists m :: m in between && m.status == Soumis
      case CompteurNonValide => BoundReason(a.value) == Some(r) || EntryReason(b) == Some(r) ||
        SomeBetween(between, b.energy, r)
      case BorneEstimee => BoundReason(a.value) == Some(r) || EntryReason(b) == Some(r) ||
        SomeBetween(between, b.energy, r)
      case CapaciteNonConfirmee => EntryReason(b) == Some(r) || SomeBetween(between, b.energy, r)
      case DistanceNulle => Distance(a, b).Some? && Distance(a, b).value <= 0.0
      case PeriodeAchatsIncomplets => exists g ::
        g in ctx.gaps && g.startsAt < b.filledAt && g.endsAt > a.value.filledAt
      case EnergieDifferente => exists m :: m in between && m.energy != b.energy
      case RemplissageSansTicket => SomeSignal(ctx.signals, a.value.filledAt, b.filledAt, SansTicket)
      case EcartTicketNonQualifie => SomeSignal(ctx.signals, a.value.filledAt, b.filledAt, EcartTicket)
      case HistoriqueInsuffisant => false
  }

  ghost function AppliesTo(a: Option<Entry>, b: Entry, between: seq<Entry>, ctx: Context): Reason -> bool {
    (r: Reason) => Applies(r, a, b, between, ctx)
  }

  function Examined(a: Option<Entry>, b: Entry, between: seq<Entry>): seq<Entry> {
    if a.None? then Filter(OfSameEnergy(b.energy), between) else between
  }

  /** The purchases whose litres the interval counts. */
  function CountedEntries(b: Entry, between: seq<Entry>): seq<Entry> { Filter(Counted(b.energy), between) + [b] }

  /** Litres per 100 km, when there is a distance. */
  function Per100Km(liters: real, distanceKm: real): Option<real> {
    if distanceKm != 0.0 then Some(liters / distanceKm * 100.0) else None
  }

  ghost function ReasonsOf(a: Option<Entry>, b: Entry, between: seq<Entry>, ctx: Context): seq<Reason> {
    Filter(AppliesTo(a, b, between, ctx), REASONS)
  }

  /** What an interval is made of: the reference tank, the tank that ends it, the purchases in between. */
  datatype Piece = Piece(a: Option<Entry>, b: Entry, between: seq<Entry>)

  /** The interval of a piece, given the reasons against it. */
  function Assemble(p: Piece, reasons: seq<Reason>): Interval {
    var distance, liters := Distance(p.a, p.b), SumLiters(CountedEntries(p.b, p.between));
    var retained := |reasons| == 0 && distance.Some? && distance.value > 0.0;
    Interval(p.b.energy, if p.a.Some? then Some(p.a.value.id) else None, p.b.id,
      if p.a.Some? then Some(p.a.value.filledAt) else None, p.b.filledAt,
      if p.a.Some? then ValidatedKm(p.a.value) else None, ValidatedKm(p.b), distance, liters,
      Ids(Examined(p.a, p.b, p.between) + [p.b]), retained, reasons,
      if retained then Per100Km(liters, distance.value) else None)
  }

  ghost function IntervalOf(p: Piece, ctx: Context): Interval {
    Assemble(p, ReasonsOf(p.a, p.b, p.between, ctx))
  }

  predicate FromOne(r: Reason, m: Entry, energy: Energy) {
    || (r == PleinIntermediaireSoumis && m.status == Soumis)
    || (r == EnergieDifferente && m.energy != energy)
    || (m.energy == energy && EntryReason(m) == Some(r))
  }

  /** The reasons purchases in between bring to an interval. */
  ghost predicate FromBetween(r: Reason, between: seq<Entry>, energy: Energy) {
    exists m :: m in between && FromOne(r, m, energy)
  }

  function Single(r: Option<Reason>): set<Reason> { if r.Some? then {r.value} else {} }

  method ScanBetween(between: seq<Entry>, energy: Energy) returns (reasons: set<Reason>)
    ensures forall r :: r in reasons <==> FromBetween(r, between, energy)
  {
    reasons := {};
    for k := 0 to |between|
      invariant forall r :: r in reasons <==> FromBetween(r, between[..k], energy)
    {
      var m := between[k];
      assert between[..k + 1] == between[..k] + [m];
      ghost var before := reasons;
      if m.status == Soumis {
        reasons := reasons + {PleinIntermediaireSoumis};
      }
      if m.energy != energy {
        reasons := reasons + {EnergieDifferente};
      } else {
        reasons := reasons + Single(EntryReason(m));
      }
      forall r ensures r in reasons <==> FromBetween(r, between[..k + 1], energy) {
        assert r in reasons <==> r in before || FromOne(r, m, energy);
      }
    }
    assert between[..|between|] == between;
  }

  method ScanSignals(signals: seq<Signal>, from: int, to: int) returns (reasons: set<Reason>)
    ensures reasons <= {RemplissageSansTicket, EcartTicketNonQualifie}
    ensures RemplissageSansTicket in reasons <==> SomeSignal(signals, from, to, SansTicket)
    ensures EcartTicketNonQualifie in reasons <==> SomeSignal(signals, from, to, EcartTicket)
  {
    reasons := {};
    for k := 0 to |signals|
      invariant reasons <= {RemplissageSansTicket, EcartTicketNonQualifie}
      invariant RemplissageSansTicket in reasons <==> SomeSignal(signals[..k], from, to, SansTicket)
      invariant EcartTicketNonQualifie in reasons <==> SomeSignal(signals[..k], from, to, EcartTicket)
    {
      var s := signals[k];
      assert signals[..k + 1] == signals[..k] + [s];
      if from < s.at <= to {
        reasons := reasons + {if s.kind == SansTicket then RemplissageSansTicket else EcartTicketNonQualifie};
      }
    }
    assert signals[..|signals|] == signals;
  }

  function InSet(reasons: set<Reason>): Reason -> bool { (r: Reason) => r in reasons }

  function SomeGap(gaps: seq<Gap>, from: int, to: int): bool {
    exists g :: g in gaps && g.startsAt < to && g.endsAt > from
  }

  lemma {:induction false} BetweenMeans(r: Reason, between: seq<Entry>, energy: Energy)
    ensures FromBetween(r, between, energy) <==>
      || (r == PleinIntermediaireSoumis && exists m :: m in between && m.status == Soumis)
      || (r == EnergieDifferente && exists m :: m in between && m.energy != energy)
      || SomeBetween(between, energy, r)
    ensures SomeBetween(between, energy, r) ==> r in {CompteurNonValide, BorneEstimee, CapaciteNonConfirmee}
  {
    if m :| m in between && m.status == Soumis && r == PleinIntermediaireSoumis {
      assert FromOne(r, m, energy);
    }
    if m :| m in between && m.energy != energy && r == EnergieDifferente {
      assert FromOne(r, m, energy);
    }
    if m :| m in between && m.energy == energy && EntryReason(m) == Some(r) {
      assert FromOne(r, m, energy);
    }
  }

  /** A reason comes from the bounds of the interval, from the purchases in between or from the signals. */
  lemma {:induction false} AppliesMeans(r: Reason, a: Entry, b: Entry, between: seq<Entry>, ctx: Context)
    ensures Applies(r, Some(a), b, between, ctx) <==>
      || BoundReason(a) == Some(r) || EntryReason(b) == Some(r)
      || (r == DistanceNulle && Distance(Some(a), b).Some? && Distance(Some(a), b).value <= 0.0)
      || (r == PeriodeAchatsIncomplets && SomeGap(ctx.gaps, a.filledAt, b.filledAt))
      || FromBetween(r, between, b.energy)
      || (r == RemplissageSansTicket && SomeSignal(ctx.signals, a.filledAt, b.filledAt, SansTicket))
      || (r == EcartTicketNonQualifie && SomeSignal(ctx.signals, a.filledAt, b.filledAt, EcartTicket))
  {
    BetweenMeans(r, between, b.energy);
  }

  /** The reasons of an interval, gathered as the program gathers them. */
  method GatherReasons(a: Option<Entry>, b: Entry, between: seq<Entry>, ctx: Context) returns (reasons: set<Reason>)
    ensures forall r :: r in reasons <==> Applies(r, a, b, between, ctx)
  {
    if a.None? {
      return {PasDePleinDeReference};
    }
    var found := ScanBetween(between, b.energy);
    var signals := ScanSignals(ctx.signals, a.value.filledAt, b.filledAt);
    var distance := Distance(a, b);
    var own := Single(BoundReason(a.value)) + Single(EntryReason(b));
    if distance.Some? && distance.value <= 0.0 {
      own := own + {DistanceNulle};
    }
    if SomeGap(ctx.gaps, a.value.filledAt, b.filledAt) {
      own := own + {PeriodeAchatsIncomplets};
    }
    reasons := own + found + signals;
    forall r ensures r in reasons <==> Applies(r, a, b, between, ctx) {
      AppliesMeans(r, a.value, b, between, ctx);
    }
  }

  /** The reasons of a set in their fixed order. */
  function Ordered(reasons: set<Reason>): seq<Reason> { Filter(InSet(reasons), REASONS) }

  lemma {:induction false} OrderedReasons(
      gathered: set<Reason>, a: Option<Entry>, b: Entry, between: seq<Entry>, ctx: Context)
    requires forall r :: r in gathered <==> Applies(r, a, b, between, ctx)
    ensures Ordered(gathered) == ReasonsOf(a, b, between, ctx)
  {
    FilterAgree(InSet(gathered), AppliesTo(a, b, between, ctx), REASONS);
  }

  method BuildInterval(p: Piece, ctx: Context) returns (i: Interval)
    ensures i == IntervalOf(p, ctx)
  {
    var gathered := GatherReasons(p.a, p.b, p.between, ctx);
    OrderedReasons(gathered, p.a, p.b, p.between, ctx);
    i := Assemble(p, Ordered(gathered));
  }

  lemma {:induction false} EveryReasonListed(r: Reason)
    ensures r in REASONS
  {
    match r
    case PasDePleinDeReference => assert REASONS[0] == r;
    case PleinIntermediaireSoumis => assert REASONS[1] == r;
    case CompteurNonValide => assert REASONS[2] == r;
    case BorneEstimee => assert REASONS[3] == r;
    case CapaciteNonConfirmee => assert REASONS[4] == r;
    case DistanceNulle => assert REASONS[5] == r;
    case PeriodeAchatsIncomplets => assert REASONS[6] == r;
    case EnergieDifferente => assert REASONS[7] == r;
    case RemplissageSansTicket => assert REASONS[8] == r;
    case EcartTicketNonQualifie => assert REASONS[9] == r;
    case HistoriqueInsuffisant => assert REASONS[10] == r;
  }

  lemma {:induction false} ReasonsAre(a: Option<Entry>, b: Entry, between: seq<Entry>, ctx: Context)
    ensures forall r :: r in ReasonsOf(a, b, between, ctx) <==> Applies(r, a, b, between, ctx)
  {
    var p := AppliesTo(a, b, between, ctx);
    forall r ensures r in ReasonsOf(a, b, between, ctx) <==> Applies(r, a, b, between, ctx) {
      EveryReasonListed(r);
      FilterMember(p, REASONS, r);
    }
  }

  lemma {:induction false} UsableWithoutReason(a: Option<Entry>, b: Entry, between: seq<Entry>, ctx: Context)
    requires b.status == Valide && (a.Some? ==> a.value.status == Valide)
    requires forall r :: !Applies(r, a, b, between, ctx)
    ensures Distance(a, b).Some? && Distance(a, b).value > 0.0
  {
    assert !Applies(PasDePleinDeReference, a, b, between, ctx);
    assert !Applies(CompteurNonValide, a, b, between, ctx);
    assert !Applies(DistanceNulle, a, b, between, ctx);
  }

  /** Retained means no reason, a positive distance and a ratio; every interval without a ratio carries a reason. */
  predicate Sound(i: Interval) {
    && (i.retained <==> i.reasons == [])
    && (i.retained ==> i.distanceKm.Some? && i.distanceKm.value > 0.0)
    && (i.ratio.Some? <==> i.retained)
    && (i.retained ==> i.ratio.value * i.distanceKm.value == 100.0 * i.liters)
  }

  /** Litres per 100 km times kilometres are 100 times the litres. */
  lemma {:induction false} RatioTimesDistance(liters: real, km: real)
    requires km > 0.0
    ensures Per100Km(liters, km).Some? && Per100Km(liters, km).value * km == 100.0 * liters
  {
    var r := liters / km;
    assert r * km == liters;
    assert r * 100.0 * km == 100.0 * (r * km);
  }

  lemma {:induction false} AssembledIsSound(p: Piece, reasons: seq<Reason>)
    requires reasons == [] ==> Distance(p.a, p.b).Some? && Distance(p.a, p.b).value > 0.0
    ensures Sound(Assemble(p, reasons))
  {
    var i := Assemble(p, reasons);
    if reasons == [] {
      RatioTimesDistance(i.liters, i.distanceKm.value);
    }
  }

  /** Between validated full tanks, an interval is retained exactly when no reason speaks against it. */
  lemma {:induction false} RetainedIffNoReason(p: Piece, ctx: Context)
    requires p.b.status == Valide && (p.a.Some? ==> p.a.value.status == Valide)
    ensures Sound(IntervalOf(p, ctx))
    ensures forall r :: r in IntervalOf(p, ctx).reasons <==> Applies(r, p.a, p.b, p.between, ctx)
  {
    var reasons := ReasonsOf(p.a, p.b, p.between, ctx);
    ReasonsAre(p.a, p.b, p.between, ctx);
    if reasons == [] {
      forall r ensures !Applies(r, p.a, p.b, p.between, ctx) {
        assert r !in reasons;
      }
      UsableWithoutReason(p.a, p.b, p.between, ctx);
    }
    AssembledIsSound(p, reasons);
  }

  // ---------------------------------------------------------------- the scan of one energy

  /** The validated full tank before position n. */
  function LastFull(s: seq<Entry>, energy: Energy, n: nat): (k: Option<nat>)
    requires n <= |s|
    ensures k.Some? ==> k.value < n && IsFull(s[k.value], energy)
    ensures forall p :: (if k.Some? then k.value < p < n else 0 <= p < n) ==> !IsFull(s[p], energy)
  {
    if n == 0 then None else if IsFull(s[n - 1], energy) then Some(n - 1) else LastFull(s, energy, n - 1)
  }

  /** First position after the full tank before n. */
  function ScanStart(s: seq<Entry>, energy: Energy, n: nat): nat
    requires n <= |s|
  {
    var k := LastFull(s, energy, n);
    if k.Some? then k.value + 1 else 0
  }

  function Reference(s: seq<Entry>, energy: Energy, n: nat): Option<Entry>
    requires n <= |s|
  {
    var k := LastFull(s, energy, n);
    if k.Some? then Some(s[k.value]) else None
  }

  /** The piece that ends with the full tank at position k. */
  function PieceAt(s: seq<Entry>, energy: Energy, k: nat): Piece
    requires k < |s|
  {
    Piece(Reference(s, energy, k), s[k], s[ScanStart(s, energy, k)..k])
  }

  /** The pieces of an energy among the first n entries. */
  function Pieces(s: seq<Entry>, energy: Energy, n: nat): seq<Piece>
    requires n <= |s|
  {
    if n == 0 then []
    else if IsFull(s[n - 1], energy) then Pieces(s, energy, n - 1) + [PieceAt(s, energy, n - 1)]
    else Pieces(s, energy, n - 1)
  }

  function MapOf<T, U>(f: T -> U, s: seq<T>): (r: seq<U>)
    ensures |r| == |s|
  {
    if |s| == 0 then [] else MapOf(f, s[..|s| - 1]) + [f(s[|s| - 1])]
  }

  lemma {:induction false} MapAt<T, U>(f: T -> U, s: seq<T>, k: nat)
    requires k < |s|
    ensures MapOf(f, s)[k] == f(s[k])
    decreases |s|
  {
    if k < |s| - 1 {
      MapAt(f, s[..|s| - 1], k);
    }
  }

  lemma {:induction false} MapOneMore<T, U>(f: T -> U, s: seq<T>, x: T)
    ensures MapOf(f, s + [x]) == MapOf(f, s) + [f(x)]
  {
    assert (s + [x])[..|s|] == s;
  }

  ghost function Builder(ctx: Context): Piece -> Interval { (p: Piece) => IntervalOf(p, ctx) }

  ghost function IntervalsOf(pieces: seq<Piece>, ctx: Context): (r: seq<Interval>)
    ensures |r| == |pieces|
  {
    MapOf(Builder(ctx), pieces)
  }

  lemma {:induction false} IntervalsAt(pieces: seq<Piece>, ctx: Context, j: nat)
    requires j < |pieces|
    ensures IntervalsOf(pieces, ctx)[j] == IntervalOf(pieces[j], ctx)
  {
    MapAt(Builder(ctx), pieces, j);
  }

  /** The intervals of an energy. */
  ghost function EnergyIntervals(s: seq<Entry>, energy: Energy, ctx: Context): seq<Interval> {
    IntervalsOf(Pieces(s, energy, |s|), ctx)
  }

  predicate InPeriod(instant: int, period: Period) {
    (period.from.None? || instant >= period.from.value) && (period.to.None? || instant <= period.to.value)
  }

  function Ends(period: Period): Interval -> bool {
    (i: Interval) => InPeriod(i.endAt, period)
  }

  ghost function InPeriodIntervals(s: seq<Entry>, energy: Energy, ctx: Context, period: Period): seq<Interval> {
    Filter(Ends(period), EnergyIntervals(s, energy, ctx))
  }

  lemma {:induction false} EndOfInterval(p: Piece, ctx: Context)
    ensures IntervalOf(p, ctx).endAt == p.b.filledAt && IntervalOf(p, ctx).energy == p.b.energy
  {
  }

  /** An interval ends where its piece ends. */
  ghost predicate EndsWithPiece(build: Piece -> Interval) {
    forall p :: build(p).endAt == p.b.filledAt
  }

  /** The intervals a scan has kept after n entries, for any way of building an interval from a piece. */
  ghost function Scanned(s: seq<Entry>, energy: Energy, build: Piece -> Interval, period: Period, n: nat): seq<Interval>
    requires n <= |s|
  {
    if n == 0 then []
    else if IsFull(s[n - 1], energy) && InPeriod(s[n - 1].filledAt, period) then
      Scanned(s, energy, build, period, n - 1) + [build(PieceAt(s, energy, n - 1))]
    else Scanned(s, energy, build, period, n - 1)
  }

  lemma {:induction false} MappedNone(s: seq<Entry>, energy: Energy, build: Piece -> Interval, period: Period)
    ensures Filter(Ends(period), MapOf(build, Pieces(s, energy, 0))) == []
  {
    assert Pieces(s, energy, 0) == [];
  }

  lemma {:induction false} OneMoreFull(s: seq<Entry>, energy: Energy, k: nat)
    requires k < |s| && IsFull(s[k], energy)
    ensures Pieces(s, energy, k + 1) == Pieces(s, energy, k) + [PieceAt(s, energy, k)]
  {
  }

  lemma {:induction false} FilterOneMore<T>(p: T -> bool, s: seq<T>, x: T)
    ensures Filter(p, s + [x]) == if p(x) then Filter(p, s) + [x] else Filter(p, s)
  {
    FilterAppend(p, s, [x]);
    assert [x][1..] == [];
    assert Filter(p, [x]) == if p(x) then [x] else [];
  }

  lemma {:induction false} MappedFull(s: seq<Entry>, energy: Energy, build: Piece -> Interval, period: Period, k: nat)
    requires EndsWithPiece(build) && k < |s| && IsFull(s[k], energy)
    ensures var before := Filter(Ends(period), MapOf(build, Pieces(s, energy, k)));
      Filter(Ends(period), MapOf(build, Pieces(s, energy, k + 1))) ==
        if InPeriod(s[k].filledAt, period) then before + [build(PieceAt(s, energy, k))] else before
  {
    var pieces, p := Pieces(s, energy, k), PieceAt(s, energy, k);
    OneMoreFull(s, energy, k);
    MapOneMore(build, pieces, p);
    FilterOneMore(Ends(period), MapOf(build, pieces), build(p));
  }

  /** A scan keeps the intervals of the pieces that end in the period. */
  lemma {:induction false} ScannedMaps(s: seq<Entry>, energy: Energy, build: Piece -> Interval, period: Period, n: nat)
    requires n <= |s| && EndsWithPiece(build)
    ensures Scanned(s, energy, build, period, n) == Filter(Ends(period), MapOf(build, Pieces(s, energy, n)))
    decreases n
  {
    if n == 0 {
      MappedNone(s, energy, build, period);
    } else {
      ScannedMaps(s, energy, build, period, n - 1);
      if IsFull(s[n - 1], energy) {
        MappedFull(s, energy, build, period, n - 1);
      }
    }
  }

  lemma {:induction false} BuilderEnds(ctx: Context)
    ensures EndsWithPiece(Builder(ctx))
  {
    forall p ensures Builder(ctx)(p).endAt == p.b.filledAt {
      EndOfInterval(p, ctx);
    }
  }

  lemma {:induction false} ScannedAre(s: seq<Entry>, energy: Energy, ctx: Context, period: Period)
    ensures Scanned(s, energy, Builder(ctx), period, |s|) == InPeriodIntervals(s, energy, ctx, period)
  {
    BuilderEnds(ctx);
    ScannedMaps(s, energy, Builder(ctx), period, |s|);
  }

  /** The piece from the reference tank to the tank at the index. */
  function PieceFrom(s: seq<Entry>, reference: Option<nat>, index: nat): Piece
    requires index < |s| && (reference.Some? ==> reference.value < index)
  {
    var start := if reference.Some? then reference.value + 1 else 0;
    Piece(if reference.Some? then Some(s[reference.value]) else None, s[index], s[start..index])
  }

  lemma {:induction false} PieceHere(s: seq<Entry>, energy: Energy, k: nat)
    requires k < |s| && IsFull(s[k], energy)
    ensures PieceFrom(s, LastFull(s, energy, k), k) == PieceAt(s, energy, k)
    ensures PieceAt(s, energy, k).b == s[k]
    ensures LastFull(s, energy, k + 1) == Some(k)
  {
  }

  /** Builds the interval of the piece and keeps it if it ends in the period. */
  method PushInterval(p: Piece, ctx: Context, period: Period, intervals: seq<Interval>) returns (r: seq<Interval>)
    ensures r == if InPeriod(p.b.filledAt, period) then intervals + [Builder(ctx)(p)] else intervals
  {
    var interval := BuildInterval(p, ctx);
    r := if InPeriod(p.b.filledAt, period) then intervals + [interval] else intervals;
  }

  method ScanEnergy(s: seq<Entry>, energy: Energy, ctx: Context, period: Period) returns (intervals: seq<Interval>)
    ensures intervals == InPeriodIntervals(s, energy, ctx, period)
  {
    ghost var build := Builder(ctx);
    ScannedAre(s, energy, ctx, period);
    var reference: Option<nat> := None;
    intervals := [];
    for index := 0 to |s|
      invariant reference == LastFull(s, energy, index)
      invariant intervals == Scanned(s, energy, build, period, index)
    {
      var entry := s[index];
      if entry.energy != energy || entry.status != Valide || !entry.isFullTank {
        continue;
      }
      var piece := PieceFrom(s, reference, index);
      PieceHere(s, energy, index);
      intervals := PushInterval(piece, ctx, period, intervals);
      reference := Some(index);
    }
  }

  // ---------------------------------------------------------------- the whole computation

  datatype Total = Total(energy: Energy, available: bool, liters: Option<real>, distanceKm: Option<real>,
    ratio: Option<real>,
    reasons: seq<Reason>, retainedCount: nat, excludedCount: nat)

  datatype Result = Result(intervals: seq<Interval>, totals: seq<Total>, available: bool, reasons: seq<Reason>)

  function ByEnd(): (Interval, Interval) -> bool { (x: Interval, y: Interval) => x.endAt <= y.endAt }

  function OfEnergy(energy: Energy): Interval -> bool { (i: Interval) => i.energy == energy }

  function Retained(): Interval -> bool { (i: Interval) => i.retained }

  function Km(i: Interval): real { if i.distanceKm.Some? then i.distanceKm.value else 0.0 }

  /** Litres and kilometres of the retained intervals, and how many are retained and excluded. */
  datatype Figures = Figures(liters: real, km: real, retained: nat, excluded: nat)

  const NOTHING := Figures(0.0, 0.0, 0, 0)

  /** The figures with one more interval. */
  function AddInterval(f: Figures, i: Interval): Figures {
    if i.retained then f.(liters := f.liters + i.liters, km := f.km + Km(i), retained := f.retained + 1)
    else f.(excluded := f.excluded + 1)
  }

  function FiguresOf(s: seq<Interval>): Figures {
    if |s| == 0 then NOTHING else AddInterval(FiguresOf(s[..|s| - 1]), s[|s| - 1])
  }

  function Elements(s: seq<Reason>): set<Reason> { set r | r in s }

  function ReasonSet(s: seq<Interval>): set<Reason> {
    if |s| == 0 then {} else ReasonSet(s[..|s| - 1]) + Elements(s[|s| - 1].reasons)
  }

  /** The total of the intervals of one energy. */
  function TotalOf(energy: Energy, own: seq<Interval>): Total {
    var f := FiguresOf(own);
    if f.retained == 0 then Total(energy, false, None, None, None, Ordered(ReasonSet(own)), 0, f.excluded)
    else Total(energy, true, Some(f.liters), Some(f.km), Per100Km(f.liters, f.km), [], f.retained, f.excluded)
  }

  /** Totals of the first k energies; an energy without intervals has none. */
  function TotalsOf(intervals: seq<Interval>, k: nat): seq<Total>
    requires k <= |FUEL_ENERGIES|
  {
    if k == 0 then []
    else
      var energy := FUEL_ENERGIES[k - 1];
      var own := Filter(OfEnergy(energy), intervals);
      var before := TotalsOf(intervals, k - 1);
      if |own| == 0 then before else before + [TotalOf(energy, own)]
  }

  ghost function AllIntervals(s: seq<Entry>, ctx: Context, period: Period, k: nat): seq<Interval>
    requires k <= |FUEL_ENERGIES|
  {
    if k == 0 then [] else AllIntervals(s, ctx, period, k - 1) + InPeriodIntervals(s, FUEL_ENERGIES[k - 1], ctx, period)
  }

  predicate SomeAvailable(totals: seq<Total>) { exists k :: 0 <= k < |totals| && totals[k].available }

  function TotalReasons(totals: seq<Total>): set<Reason> {
    if |totals| == 0 then {} else TotalReasons(totals[..|totals| - 1]) + Elements(totals[|totals| - 1].reasons)
  }

  function Conclude(intervals: seq<Interval>, totals: seq<Total>): Result {
    var available := SomeAvailable(totals);
    Result(intervals, totals, available,
      if |intervals| == 0 then [HistoriqueInsuffisant] else if !available then Ordered(TotalReasons(totals)) else [])
  }

  ghost function Consume(entries: seq<Entry>, ctx: Context, period: Period): Result {
    var s := Sort(CompareEntries(), entries);
    var intervals := Sort(ByEnd(), AllIntervals(s, ctx, period, |FUEL_ENERGIES|));
    Conclude(intervals, TotalsOf(intervals, |FUEL_ENERGIES|))
  }

  function SumIntervalLiters(s: seq<Interval>): real {
    if |s| == 0 then 0.0 else SumIntervalLiters(s[..|s| - 1]) + s[|s| - 1].liters
  }

  function SumKm(s: seq<Interval>): real {
    if |s| == 0 then 0.0 else SumKm(s[..|s| - 1]) + Km(s[|s| - 1])
  }

  lemma {:induction false} FiguresOneMore(s: seq<Interval>, i: Interval)
    ensures FiguresOf(s + [i]) == AddInterval(FiguresOf(s), i)
    ensures SumIntervalLiters(s + [i]) == SumIntervalLiters(s) + i.liters
    ensures SumKm(s + [i]) == SumKm(s) + Km(i)
  {
    assert (s + [i])[..|s|] == s;
  }

  lemma {:induction false} FiguresStep(before: seq<Interval>, x: Interval)
    requires var retained := Filter(Retained(), before);
      FiguresOf(before) == Figures(SumIntervalLiters(retained), SumKm(retained), |retained|, |before| - |retained|)
    ensures var retained := Filter(Retained(), before + [x]);
      FiguresOf(before + [x])
        == Figures(SumIntervalLiters(retained), SumKm(retained), |retained|, |before| + 1 - |retained|)
  {
    FilterOneMore(Retained(), before, x);
    FiguresOneMore(before, x);
    FiguresOneMore(Filter(Retained(), before), x);
  }

  lemma {:induction false} FiguresByFilter(own: seq<Interval>)
    ensures var retained := Filter(Retained(), own);
      FiguresOf(own) == Figures(SumIntervalLiters(retained), SumKm(retained), |retained|, |own| - |retained|)
    decreases |own|
  {
    if |own| == 0 {
      assert Filter(Retained(), own) == [];
    } else {
      var before, x := own[..|own| - 1], own[|own| - 1];
      FiguresByFilter(before);
      assert own == before + [x];
      FiguresStep(before, x);
    }
  }

  /** As in the program: retained intervals are picked out, then summed. */
  method ComputeTotal(energy: Energy, own: seq<Interval>) returns (total: Total)
    ensures total == TotalOf(energy, own)
  {
    var retained := Filter(Retained(), own);
    FiguresByFilter(own);
    if |retained| == 0 {
      return Total(energy, false, None, None, None, Ordered(ReasonSet(own)), 0, |own|);
    }
    var liters, distanceKm := SumIntervalLiters(retained), SumKm(retained);
    total := Total(energy, true, Some(liters), Some(distanceKm), Per100Km(liters, distanceKm), [], |retained|,
      |own| - |retained|);
  }

  method ComputeTotals(intervals: seq<Interval>) returns (totals: seq<Total>)
    ensures totals == TotalsOf(intervals, |FUEL_ENERGIES|)
  {
    totals := [];
    for k := 0 to |FUEL_ENERGIES|
      invariant totals == TotalsOf(intervals, k)
    {
      var energy := FUEL_ENERGIES[k];
      var own := Filter(OfEnergy(energy), intervals);
      if |own| == 0 {
        continue;
      }
      var total := ComputeTotal(energy, own);
      totals := totals + [total];
    }
  }

  method ComputeConsumption(entries: seq<Entry>, ctx: Context, period: Period) returns (r: Result)
    ensures r == Consume(entries, ctx, period)
  {
    var ordered := Sort(CompareEntries(), entries);
    var intervals: seq<Interval> := [];
    for k := 0 to |FUEL_ENERGIES|
      invariant intervals == AllIntervals(ordered, ctx, period, k)
    {
      var own := ScanEnergy(ordered, FUEL_ENERGIES[k], ctx, period);
      intervals := intervals + own;
    }
    intervals := Sort(ByEnd(), intervals);
    var totals := ComputeTotals(intervals);
    r := Conclude(intervals, totals);
  }

  // ---------------------------------------------------------------- order of entry and of intervals

  lemma {:induction false} EntryOrder()
    ensures TotalPreorder(CompareEntries())
  {
    StringOrder();
  }

  ghost predicate DistinctIds(entries: seq<Entry>) {
    forall i, j :: 0 <= i < j < |entries| ==> entries[i].id != entries[j].id
  }

  /** The result does not depend on the order in which the purchases are given. */
  lemma {:induction false} InputOrderIrrelevant(a: seq<Entry>, b: seq<Entry>, ctx: Context, period: Period)
    requires multiset(a) == multiset(b) && DistinctIds(a)
    ensures Consume(a, ctx, period) == Consume(b, ctx, period)
  {
    EntryOrder();
    StringOrder();
    SortIgnoresOrder(CompareEntries(), a, b);
  }

  ghost predicate Chronological(s: seq<Entry>) {
    forall i, j :: 0 <= i < j < |s| ==> s[i].filledAt <= s[j].filledAt
  }

  lemma {:induction false} SortedIsChronological(entries: seq<Entry>)
    ensures Chronological(Sort(CompareEntries(), entries))
  {
    EntryOrder();
    SortSorted(CompareEntries(), entries);
    var s := Sort(CompareEntries(), entries);
    forall i, j | 0 <= i < j < |s| ensures s[i].filledAt <= s[j].filledAt {
      assert CompareEntries()(s[i], s[j]);
    }
  }

  /** Pieces of one energy, sorted by the end, that end at or before the given instant. */
  ghost predicate InOrder(pieces: seq<Piece>, energy: Energy, last: int) {
    && (forall p :: p in pieces ==> p.b.energy == energy && p.b.filledAt <= last)
    && (forall i, j :: 0 <= i < j < |pieces| ==> pieces[i].b.filledAt <= pieces[j].b.filledAt)
  }

  lemma {:induction false} InOrderOneMore(pieces: seq<Piece>, p: Piece, energy: Energy, last: int)
    requires InOrder(pieces, energy, last) && p.b.energy == energy && last <= p.b.filledAt
    ensures InOrder(pieces + [p], energy, p.b.filledAt)
  {
    assert forall j :: 0 <= j < |pieces| ==> pieces[j] in pieces;
  }

  lemma {:induction false} NoneInOrder(s: seq<Entry>, energy: Energy, last: int)
    ensures InOrder(Pieces(s, energy, 0), energy, last)
  {
  }

  lemma {:induction false} PiecesInOrder(s: seq<Entry>, energy: Energy, n: nat)
    requires Chronological(s) && n < |s|
    ensures InOrder(Pieces(s, energy, n + 1), energy, s[n].filledAt)
    decreases n
  {
    if n == 0 {
      NoneInOrder(s, energy, s[0].filledAt);
    } else {
      PiecesInOrder(s, energy, n - 1);
      assert s[n - 1].filledAt <= s[n].filledAt;
    }
    if IsFull(s[n], energy) {
      InOrderOneMore(Pieces(s, energy, n), PieceAt(s, energy, n), energy, if n == 0 then s[0].filledAt
        else s[n - 1].filledAt);
    }
  }

  lemma {:induction false} IntervalsInOrder(s: seq<Entry>, energy: Energy, ctx: Context)
    requires Chronological(s)
    ensures Sorted(ByEnd(), EnergyIntervals(s, energy, ctx))
    ensures forall i :: i in EnergyIntervals(s, energy, ctx) ==> i.energy == energy
  {
    var pieces, all := Pieces(s, energy, |s|), EnergyIntervals(s, energy, ctx);
    if |s| > 0 {
      PiecesInOrder(s, energy, |s| - 1);
    }
    forall j | 0 <= j < |all| ensures all[j].endAt == pieces[j].b.filledAt && all[j].energy == energy {
      IntervalsAt(pieces, ctx, j);
      EndOfInterval(pieces[j], ctx);
      assert pieces[j] in pieces;
    }
  }

  lemma {:induction false} AllEnergies(s: seq<Entry>, ctx: Context, period: Period)
    ensures AllIntervals(s, ctx, period, |FUEL_ENERGIES|) == (InPeriodIntervals(s, Diesel, ctx, period)
      + InPeriodIntervals(s, Essence, ctx, period)) + InPeriodIntervals(s, Gpl, ctx, period)
  {
    assert AllIntervals(s, ctx, period, 1) == InPeriodIntervals(s, Diesel, ctx, period);
    assert AllIntervals(s, ctx, period, 2)
      == AllIntervals(s, ctx, period, 1) + InPeriodIntervals(s, Essence, ctx, period);
    assert AllIntervals(s, ctx, period, 3) == AllIntervals(s, ctx, period, 2) + InPeriodIntervals(s, Gpl, ctx, period);
  }

  lemma {:induction false} ScanHasEnergy(s: seq<Entry>, ctx: Context, period: Period, energy: Energy, other: Energy)
    requires Chronological(s)
    ensures Filter(OfEnergy(energy), InPeriodIntervals(s, other, ctx, period))
      == if energy == other then InPeriodIntervals(s, other, ctx, period) else []
  {
    var own := InPeriodIntervals(s, other, ctx, period);
    IntervalsInOrder(s, other, ctx);
    FilterMembers(Ends(period), EnergyIntervals(s, other, ctx));
    if energy == other {
      FilterAll(OfEnergy(energy), own);
    } else {
      FilterNone(OfEnergy(energy), own);
    }
  }

  lemma {:induction false} FilterThree<T>(p: T -> bool, a: seq<T>, b: seq<T>, c: seq<T>)
    ensures Filter(p, (a + b) + c) == (Filter(p, a) + Filter(p, b)) + Filter(p, c)
  {
    FilterAppend(p, a, b);
    FilterAppend(p, a + b, c);
  }

  lemma {:induction false} OneOfThree(
      p: Interval -> bool, d: seq<Interval>, e: seq<Interval>, g: seq<Interval>, energy: Energy)
    requires Filter(p, d) == if energy == Diesel then d else []
    requires Filter(p, e) == if energy == Essence then e else []
    requires Filter(p, g) == if energy == Gpl then g else []
    ensures Filter(p, (d + e) + g) == match energy case Diesel => d case Essence => e case Gpl => g
  {
    FilterThree(p, d, e, g);
    match energy
    case Diesel => assert (d + []) + [] == d;
    case Essence => assert ([] + e) + [] == e;
    case Gpl => assert ([] + []) + g == g;
  }

  lemma {:induction false} OnlyOwn(s: seq<Entry>, ctx: Context, period: Period, energy: Energy)
    requires Chronological(s)
    ensures Filter(OfEnergy(energy), AllIntervals(s, ctx, period, |FUEL_ENERGIES|))
      == InPeriodIntervals(s, energy, ctx, period)
  {
    AllEnergies(s, ctx, period);
    ScanHasEnergy(s, ctx, period, energy, Diesel);
    ScanHasEnergy(s, ctx, period, energy, Essence);
    ScanHasEnergy(s, ctx, period, energy, Gpl);
    OneOfThree(OfEnergy(energy), InPeriodIntervals(s, Diesel, ctx, period), InPeriodIntervals(s, Essence, ctx, period),
      InPeriodIntervals(s, Gpl, ctx, period), energy);
  }

  /** The intervals of an energy in the result are those of its own scan. */
  lemma {:induction false} IntervalsOfEnergy(entries: seq<Entry>, ctx: Context, period: Period, energy: Energy)
    ensures var s := Sort(CompareEntries(), entries);
      Filter(OfEnergy(energy), Consume(entries, ctx, period).intervals) == InPeriodIntervals(s, energy, ctx, period)
  {
    var s := Sort(CompareEntries(), entries);
    var all := AllIntervals(s, ctx, period, |FUEL_ENERGIES|);
    SortedIsChronological(entries);
    SortFilter(ByEnd(), OfEnergy(energy), all);
    OnlyOwn(s, ctx, period, energy);
    IntervalsInOrder(s, energy, ctx);
    FilterSorted(ByEnd(), Ends(period), EnergyIntervals(s, energy, ctx));
    SortedIsFixed(ByEnd(), InPeriodIntervals(s, energy, ctx, period));
  }

  // ---------------------------------------------------------------- every purchase in exactly one interval

  /** The piece examines the purchase with this identifier. */
  predicate Names(p: Piece, id: string) { id in Ids(Examined(p.a, p.b, p.between) + [p.b]) }

  function CountPieces(pieces: seq<Piece>, id: string): nat {
    if |pieces| == 0 then 0
      else CountPieces(pieces[..|pieces| - 1], id) + (if Names(pieces[|pieces| - 1], id) then 1 else 0)
  }

  /** How many intervals name the purchase. */
  function CountWith(s: seq<Interval>, id: string): nat {
    if |s| == 0 then 0 else CountWith(s[..|s| - 1], id) + (if id in s[|s| - 1].entryIds then 1 else 0)
  }

  lemma {:induction false} IdNamed(named: seq<Entry>, x: Entry)
    ensures x.id in Ids(named) <==> exists y :: y in named && y.id == x.id
  {
    if x.id in Ids(named) {
      var k :| 0 <= k < |named| && Ids(named)[k] == x.id;
      assert named[k] in named;
    }
    if y :| y in named && y.id == x.id {
      var k :| 0 <= k < |named| && named[k] == y;
      assert Ids(named)[k] == x.id;
    }
  }

  lemma {:induction false} ExaminedMembers(a: Option<Entry>, b: Entry, between: seq<Entry>, x: Entry)
    ensures forall y :: y in Examined(a, b, between) ==> y in between
    ensures x in between && x.energy == b.energy ==> x in Examined(a, b, between)
  {
    FilterMembers(OfSameEnergy(b.energy), between);
  }

  lemma {:induction false} PositionOf(s: seq<Entry>, start: nat, k: nat, x: Entry) returns (q: nat)
    requires start <= k < |s| && (x in s[start..k] || x == s[k])
    ensures start <= q <= k && s[q] == x
  {
    if x == s[k] {
      q := k;
    } else {
      var j :| 0 <= j < |s[start..k]| && s[start..k][j] == x;
      q := start + j;
    }
  }

  lemma {:induction false} PlaceOfId(s: seq<Entry>, start: nat, k: nat, x: Entry, p: nat)
    requires DistinctIds(s) && start <= k < |s| && p < |s| && x.id == s[p].id && (x in s[start..k] || x == s[k])
    ensures start <= p <= k
  {
    var q := PositionOf(s, start, k, x);
    assert q == p;
  }

  lemma {:induction false} NamedAt(s: seq<Entry>, energy: Energy, k: nat, p: nat)
    requires DistinctIds(s) && k < |s| && p < |s| && IsFull(s[k], energy) && Counted(energy)(s[p])
    ensures Names(PieceAt(s, energy, k), s[p].id) <==> ScanStart(s, energy, k) <= p <= k
  {
    var start := ScanStart(s, energy, k);
    var between := s[start..k];
    var examined := Examined(Reference(s, energy, k), s[k], between);
    ExaminedMembers(Reference(s, energy, k), s[k], between, s[p]);
    IdNamed(examined + [s[k]], s[p]);
    if start <= p < k {
      assert between[p - start] == s[p];
      assert s[p] in examined + [s[k]];
    } else if p == k {
      assert s[p] in examined + [s[k]];
    }
    forall x | x in examined + [s[k]] && x.id == s[p].id ensures start <= p <= k {
      PlaceOfId(s, start, k, x, p);
    }
  }

  lemma {:induction false} CountOneMore(pieces: seq<Piece>, p: Piece, id: string)
    ensures CountPieces(pieces + [p], id) == CountPieces(pieces, id) + (if Names(p, id) then 1 else 0)
  {
    assert (pieces + [p])[..|pieces|] == pieces;
  }

  lemma {:induction false} StartsWithin(s: seq<Entry>, energy: Energy, n: nat)
    requires n <= |s|
    ensures ScanStart(s, energy, n) <= n
    ensures n < |s| && IsFull(s[n], energy) ==> ScanStart(s, energy, n + 1) == n + 1
  {
  }

  /** A counted purchase up to the last validated full tank is in exactly one piece, a later one in none. */
  lemma {:induction false} CountedOnce(s: seq<Entry>, energy: Energy, n: nat, p: nat)
    requires DistinctIds(s) && n <= |s| && p < |s| && Counted(energy)(s[p])
    ensures CountPieces(Pieces(s, energy, n), s[p].id) == if p < ScanStart(s, energy, n) then 1 else 0
    decreases n
  {
    if n == 0 {
    } else {
      CountedOnce(s, energy, n - 1, p);
      if IsFull(s[n - 1], energy) {
        NamedAt(s, energy, n - 1, p);
        CountOneMore(Pieces(s, energy, n - 1), PieceAt(s, energy, n - 1), s[p].id);
        StartsWithin(s, energy, n - 1);
      }
    }
  }

  /** The intervals name what the pieces name. */
  ghost predicate SameNames(all: seq<Interval>, pieces: seq<Piece>, id: string) {
    |all| == |pieces| && forall j :: 0 <= j < |all| ==> (id in all[j].entryIds <==> Names(pieces[j], id))
  }

  lemma {:induction false} CountWithOneMore(s: seq<Interval>, i: Interval, id: string)
    ensures CountWith(s + [i], id) == CountWith(s, id) + (if id in i.entryIds then 1 else 0)
  {
    assert (s + [i])[..|s|] == s;
  }

  lemma {:induction false} CountsOneMore(all: seq<Interval>, i: Interval, pieces: seq<Piece>, p: Piece, id: string)
    requires CountWith(all, id) == CountPieces(pieces, id) && (id in i.entryIds <==> Names(p, id))
    ensures CountWith(all + [i], id) == CountPieces(pieces + [p], id)
  {
    CountWithOneMore(all, i, id);
    CountOneMore(pieces, p, id);
  }

  lemma {:induction false} CountsAgree(all: seq<Interval>, pieces: seq<Piece>, id: string, n: nat)
    requires SameNames(all, pieces, id) && n <= |all|
    ensures CountWith(all[..n], id) == CountPieces(pieces[..n], id)
    decreases n
  {
    if n == 0 {
    } else {
      CountsAgree(all, pieces, id, n - 1);
      assert all[..n] == all[..n - 1] + [all[n - 1]] && pieces[..n] == pieces[..n - 1] + [pieces[n - 1]];
      CountsOneMore(all[..n - 1], all[n - 1], pieces[..n - 1], pieces[n - 1], id);
    }
  }

  lemma {:induction false} SameCount(all: seq<Interval>, pieces: seq<Piece>, id: string)
    requires SameNames(all, pieces, id)
    ensures CountWith(all, id) == CountPieces(pieces, id)
  {
    CountsAgree(all, pieces, id, |all|);
    assert all[..|all|] == all && pieces[..|pieces|] == pieces;
  }

  lemma {:induction false} NamesAsInterval(p: Piece, ctx: Context, id: string)
    ensures id in IntervalOf(p, ctx).entryIds <==> Names(p, id)
  {
  }

  lemma {:induction false} NamesOfIntervals(pieces: seq<Piece>, ctx: Context, id: string)
    ensures SameNames(IntervalsOf(pieces, ctx), pieces, id)
  {
    forall j | 0 <= j < |pieces| ensures id in IntervalsOf(pieces, ctx)[j].entryIds <==> Names(pieces[j], id) {
      IntervalsAt(pieces, ctx, j);
      NamesAsInterval(pieces[j], ctx, id);
    }
  }

  /** Of the intervals of an energy, exactly one names a counted purchase up to the last full tank, none a later one. */
  lemma {:induction false} PurchaseInOneInterval(s: seq<Entry>, energy: Energy, ctx: Context, p: nat)
    requires DistinctIds(s) && p < |s| && Counted(energy)(s[p])
    ensures CountWith(EnergyIntervals(s, energy, ctx), s[p].id) == if p < ScanStart(s, energy, |s|) then 1 else 0
  {
    CountedOnce(s, energy, |s|, p);
    NamesOfIntervals(Pieces(s, energy, |s|), ctx, s[p].id);
    SameCount(EnergyIntervals(s, energy, ctx), Pieces(s, energy, |s|), s[p].id);
  }

  // ---------------------------------------------------------------- litres are conserved

  lemma {:induction false} SumAppend(a: seq<Entry>, b: seq<Entry>)
    ensures SumLiters(a + b) == SumLiters(a) + SumLiters(b)
    decreases |b|
  {
    if |b| == 0 {
      assert a + b == a;
    } else {
      assert (a + b)[..|a + b| - 1] == a + b[..|b| - 1];
      SumAppend(a, b[..|b| - 1]);
    }
  }

  function LitersOf(p: Piece): real { SumLiters(CountedEntries(p.b, p.between)) }

  function SumFirst(w: seq<real>, n: nat): real
    requires n <= |w|
  {
    if n == 0 then 0.0 else SumFirst(w, n - 1) + w[n - 1]
  }

  lemma {:induction false} SumFirstPrefix(w: seq<real>, x: real, n: nat)
    requires n <= |w|
    ensures SumFirst(w + [x], n) == SumFirst(w, n)
    decreases n
  {
    if n == 0 {
    } else {
      SumFirstPrefix(w, x, n - 1);
    }
  }

  /** The litres of each piece. */
  function LitersEach(pieces: seq<Piece>): (w: seq<real>)
    ensures |w| == |pieces|
  {
    MapOf(LitersOf, pieces)
  }

  /** The litres of all pieces. */
  function PieceLiters(pieces: seq<Piece>): real { SumFirst(LitersEach(pieces), |pieces|) }

  lemma {:induction false} PieceLitersOneMore(pieces: seq<Piece>, p: Piece)
    ensures PieceLiters(pieces + [p]) == PieceLiters(pieces) + LitersOf(p)
  {
    MapOneMore(LitersOf, pieces, p);
    SumFirstPrefix(LitersEach(pieces), LitersOf(p), |pieces|);
  }

  /** The litres of all pieces of an energy among the first n entries. */
  function ScanLiters(s: seq<Entry>, energy: Energy, n: nat): real
    requires n <= |s|
  {
    PieceLiters(Pieces(s, energy, n))
  }

  lemma {:induction false} CountedSplits(s: seq<Entry>, energy: Energy, start: nat, k: nat)
    requires start <= k < |s| && IsFull(s[k], energy)
    ensures SumLiters(Filter(Counted(energy), s[..k + 1]))
      == SumLiters(Filter(Counted(energy), s[..start])) + SumLiters(CountedEntries(s[k], s[start..k]))
  {
    assert s[..k + 1] == (s[..start] + s[start..k]) + [s[k]];
    var l, m := Filter(Counted(energy), s[..start]), Filter(Counted(energy), s[start..k]);
    FilterOneMore(Counted(energy), s[..start] + s[start..k], s[k]);
    FilterAppend(Counted(energy), s[..start], s[start..k]);
    assert (l + m) + [s[k]] == l + (m + [s[k]]);
    SumAppend(l, m + [s[k]]);
  }

  /** The pieces among the first n entries hold the litres of the purchases before the scan start. */
  ghost predicate LitersMatch(s: seq<Entry>, energy: Energy, n: nat)
    requires n <= |s|
  {
    ScanLiters(s, energy, n) == SumLiters(Filter(Counted(energy), s[..ScanStart(s, energy, n)]))
  }

  lemma {:induction false} LitersOfNone(s: seq<Entry>, energy: Energy)
    ensures LitersMatch(s, energy, 0)
  {
    assert s[..0] == [];
  }

  lemma {:induction false} LitersOfOneMore(s: seq<Entry>, energy: Energy, k: nat)
    requires k < |s| && IsFull(s[k], energy)
    requires LitersMatch(s, energy, k)
    ensures LitersMatch(s, energy, k + 1)
  {
    StartsWithin(s, energy, k);
    OneMoreFull(s, energy, k);
    PieceLitersOneMore(Pieces(s, energy, k), PieceAt(s, energy, k));
    CountedSplits(s, energy, ScanStart(s, energy, k), k);
  }

  lemma {:induction false} LitersOfOther(s: seq<Entry>, energy: Energy, k: nat)
    requires k < |s| && !IsFull(s[k], energy) && LitersMatch(s, energy, k)
    ensures LitersMatch(s, energy, k + 1)
  {
  }

  lemma {:induction false} LitersOfPieces(s: seq<Entry>, energy: Energy, n: nat)
    requires n <= |s|
    ensures LitersMatch(s, energy, n)
    decreases n
  {
    if n == 0 {
      LitersOfNone(s, energy);
    } else {
      LitersOfPieces(s, energy, n - 1);
      if IsFull(s[n - 1], energy) {
        LitersOfOneMore(s, energy, n - 1);
      } else {
        LitersOfOther(s, energy, n - 1);
      }
    }
  }

  /** The intervals carry these litres, one by one. */
  ghost predicate CarryLiters(all: seq<Interval>, w: seq<real>) {
    |all| == |w| && forall j :: 0 <= j < |all| ==> all[j].liters == w[j]
  }

  lemma {:induction false} LitersStep(all: seq<Interval>, k: nat)
    requires k < |all|
    ensures SumIntervalLiters(all[..k + 1]) == SumIntervalLiters(all[..k]) + all[k].liters
  {
    assert all[..k + 1] == all[..k] + [all[k]];
    FiguresOneMore(all[..k], all[k]);
  }

  lemma {:induction false} LitersAgree(all: seq<Interval>, w: seq<real>, n: nat)
    requires CarryLiters(all, w) && n <= |all|
    ensures SumIntervalLiters(all[..n]) == SumFirst(w, n)
    decreases n
  {
    if n == 0 {
      assert SumIntervalLiters(all[..0]) == 0.0;
    } else {
      LitersAgree(all, w, n - 1);
      LitersStep(all, n - 1);
    }
  }

  lemma {:induction false} LitersOfInterval(p: Piece, ctx: Context)
    ensures IntervalOf(p, ctx).liters == LitersOf(p)
  {
  }

  lemma {:induction false} LitersOfIntervals(pieces: seq<Piece>, ctx: Context)
    ensures CarryLiters(IntervalsOf(pieces, ctx), LitersEach(pieces))
  {
    forall j | 0 <= j < |pieces| ensures IntervalsOf(pieces, ctx)[j].liters == LitersEach(pieces)[j] {
      IntervalsAt(pieces, ctx, j);
      LitersOfInterval(pieces[j], ctx);
      MapAt(LitersOf, pieces, j);
    }
  }

  lemma {:induction false} SameLiters(all: seq<Interval>, w: seq<real>)
    requires CarryLiters(all, w)
    ensures SumIntervalLiters(all) == SumFirst(w, |w|)
  {
    LitersAgree(all, w, |all|);
    assert all[..|all|] == all;
  }

  /** The litres of the intervals are those of all counted purchases up to the last validated full tank. */
  lemma {:induction false} LitersConserved(s: seq<Entry>, energy: Energy, ctx: Context)
    ensures SumIntervalLiters(EnergyIntervals(s, energy, ctx))
      == SumLiters(Filter(Counted(energy), s[..ScanStart(s, energy, |s|)]))
  {
    LitersOfPieces(s, energy, |s|);
    LitersOfIntervals(Pieces(s, energy, |s|), ctx);
    SameLiters(EnergyIntervals(s, energy, ctx), LitersEach(Pieces(s, energy, |s|)));
  }

  // ---------------------------------------------------------------- intervals chain and kilometres telescope

  /** The reference of the next piece is the end of the last one. */
  lemma {:induction false} LastPiece(s: seq<Entry>, energy: Energy, n: nat)
    requires n <= |s|
    ensures var k, all := LastFull(s, energy, n), Pieces(s, energy, n);
      if k.Some? then |all| > 0 && all[|all| - 1].b == s[k.value] else all == []
    decreases n
  {
    if n == 0 {
    } else {
      LastPiece(s, energy, n - 1);
    }
  }

  lemma {:induction false} PiecesChain(s: seq<Entry>, energy: Energy, n: nat, j: nat)
    requires n <= |s| && j < |Pieces(s, energy, n)|
    ensures var all := Pieces(s, energy, n);
      && all[j].a == (if j == 0 then None else Some(all[j - 1].b))
      && all[j].b.status == Valide && (all[j].a.Some? ==> all[j].a.value.status == Valide)
    decreases n
  {
    if j < |Pieces(s, energy, n - 1)| {
      PiecesChain(s, energy, n - 1, j);
    } else {
      LastPiece(s, energy, n - 1);
    }
  }

  /** Without a starting tank that is the only reason given. */
  lemma {:induction false} NoReference(b: Entry, between: seq<Entry>, ctx: Context)
    ensures forall r :: r in ReasonsOf(None, b, between, ctx) <==> r == PasDePleinDeReference
  {
    ReasonsAre(None, b, between, ctx);
  }

  lemma {:induction false} EndsOfInterval(p: Piece, ctx: Context)
    ensures var i := IntervalOf(p, ctx);
      && i.endEntryId == p.b.id && i.endKm == ValidatedKm(p.b) && i.endAt == p.b.filledAt &&
        i.distanceKm == Distance(p.a, p.b)
      && i.startEntryId == (if p.a.Some? then Some(p.a.value.id) else None)
      && i.startAt == (if p.a.Some? then Some(p.a.value.filledAt) else None)
      && i.startKm == (if p.a.Some? then ValidatedKm(p.a.value) else None)
  {
  }

  /** Each interval starts where the one before ended: same entry, same instant, same kilometres. */
  lemma {:induction false} IntervalsChain(s: seq<Entry>, energy: Energy, ctx: Context, j: nat)
    requires 0 < j < |EnergyIntervals(s, energy, ctx)|
    ensures var all := EnergyIntervals(s, energy, ctx);
      all[j].startEntryId == Some(all[j - 1].endEntryId) && all[j].startAt == Some(all[j - 1].endAt) &&
        all[j].startKm == all[j - 1].endKm
  {
    var pieces := Pieces(s, energy, |s|);
    PiecesChain(s, energy, |s|, j);
    IntervalsAt(pieces, ctx, j);
    IntervalsAt(pieces, ctx, j - 1);
    EndsOfInterval(pieces[j], ctx);
    EndsOfInterval(pieces[j - 1], ctx);
  }

  function KmOfPiece(p: Piece): real {
    var d := Distance(p.a, p.b);
    if d.Some? then d.value else 0.0
  }

  /** Kilometres driven over the first n pieces, where known. */
  function PieceKm(pieces: seq<Piece>, n: nat): real
    requires n <= |pieces|
  {
    if n == 0 then 0.0 else PieceKm(pieces, n - 1) + KmOfPiece(pieces[n - 1])
  }

  lemma {:induction false} PieceKmTelescopes(s: seq<Entry>, energy: Energy, n: nat)
    requires 0 < n <= |Pieces(s, energy, |s|)|
    requires forall j :: 0 <= j < n ==> ValidatedKm(Pieces(s, energy, |s|)[j].b).Some?
    ensures var all := Pieces(s, energy, |s|);
      PieceKm(all, n) == ValidatedKm(all[n - 1].b).value - ValidatedKm(all[0].b).value
    decreases n
  {
    PiecesChain(s, energy, |s|, n - 1);
    if n > 1 {
      PieceKmTelescopes(s, energy, n - 1);
    } else {
      assert PieceKm(Pieces(s, energy, |s|), 0) == 0.0;
    }
  }

  lemma {:induction false} KmOfInterval(pieces: seq<Piece>, ctx: Context, j: nat)
    requires j < |pieces|
    ensures Km(IntervalsOf(pieces, ctx)[j]) == KmOfPiece(pieces[j])
  {
    IntervalsAt(pieces, ctx, j);
    EndsOfInterval(pieces[j], ctx);
  }

  /** The intervals carry the distances of the pieces. */
  ghost predicate SameKm(all: seq<Interval>, pieces: seq<Piece>) {
    |all| == |pieces| && forall j :: 0 <= j < |all| ==> Km(all[j]) == KmOfPiece(pieces[j])
  }

  lemma {:induction false} SumKmStep(all: seq<Interval>, k: nat)
    requires k < |all|
    ensures SumKm(all[..k + 1]) == SumKm(all[..k]) + Km(all[k])
  {
    assert all[..k + 1] == all[..k] + [all[k]];
    FiguresOneMore(all[..k], all[k]);
  }

  lemma {:induction false} KmAgree(all: seq<Interval>, pieces: seq<Piece>, n: nat)
    requires SameKm(all, pieces) && n <= |all|
    ensures SumKm(all[..n]) == PieceKm(pieces, n)
    decreases n
  {
    if n == 0 {
      assert SumKm(all[..0]) == 0.0;
    } else {
      KmAgree(all, pieces, n - 1);
      SumKmStep(all, n - 1);
    }
  }

  lemma {:induction false} KmOfIntervals(pieces: seq<Piece>, ctx: Context)
    ensures SameKm(IntervalsOf(pieces, ctx), pieces)
  {
    forall j | 0 <= j < |pieces| ensures Km(IntervalsOf(pieces, ctx)[j]) == KmOfPiece(pieces[j]) {
      KmOfInterval(pieces, ctx, j);
    }
  }

  lemma {:induction false} EndKmOfPiece(s: seq<Entry>, energy: Energy, ctx: Context, j: nat)
    requires j < |Pieces(s, energy, |s|)|
    ensures EnergyIntervals(s, energy, ctx)[j].endKm == ValidatedKm(Pieces(s, energy, |s|)[j].b)
  {
    IntervalsAt(Pieces(s, energy, |s|), ctx, j);
    EndsOfInterval(Pieces(s, energy, |s|)[j], ctx);
  }

  /** Distances add up to the last minus the first kilometres, when all full tanks have validated ones. */
  lemma {:induction false} KilometresTelescope(s: seq<Entry>, energy: Energy, ctx: Context)
    requires |EnergyIntervals(s, energy, ctx)| > 0
    requires forall i :: i in EnergyIntervals(s, energy, ctx) ==> i.endKm.Some?
    ensures var all := EnergyIntervals(s, energy, ctx);
      all[|all| - 1].endKm.Some? && all[0].endKm.Some? && SumKm(all) == all[|all| - 1].endKm.value - all[0].endKm.value
  {
    var all, n := EnergyIntervals(s, energy, ctx), |Pieces(s, energy, |s|)|;
    forall j | 0 <= j < n ensures ValidatedKm(Pieces(s, energy, |s|)[j].b).Some? {
      EndKmOfPiece(s, energy, ctx, j);
      assert all[j] in all;
    }
    EndKmOfPiece(s, energy, ctx, 0);
    EndKmOfPiece(s, energy, ctx, n - 1);
    PieceKmTelescopes(s, energy, n);
    KmOfIntervals(Pieces(s, energy, |s|), ctx);
    KmAgree(all, Pieces(s, energy, |s|), n);
    assert all[..n] == all;
  }

  /** Every interval of a scan is retained exactly when it carries no reason, and then has a positive distance. */
  lemma {:induction false} AllSound(s: seq<Entry>, energy: Energy, ctx: Context)
    ensures forall i :: i in EnergyIntervals(s, energy, ctx) ==> Sound(i)
  {
    var pieces, all := Pieces(s, energy, |s|), EnergyIntervals(s, energy, ctx);
    forall j | 0 <= j < |all| ensures Sound(all[j]) {
      PiecesChain(s, energy, |s|, j);
      IntervalsAt(pieces, ctx, j);
      RetainedIffNoReason(pieces[j], ctx);
    }
  }

  /** The first interval has no reference tank and is never retained. */
  lemma {:induction false} FirstHasNoReference(s: seq<Entry>, energy: Energy, ctx: Context)
    requires |EnergyIntervals(s, energy, ctx)| > 0
    ensures var i := EnergyIntervals(s, energy, ctx)[0];
      i.startEntryId.None? && PasDePleinDeReference in i.reasons && !i.retained && forall r ::
        r in i.reasons ==> r == PasDePleinDeReference
  {
    var pieces := Pieces(s, energy, |s|);
    PiecesChain(s, energy, |s|, 0);
    IntervalsAt(pieces, ctx, 0);
    NoReference(pieces[0].b, pieces[0].between, ctx);
    EndsOfInterval(pieces[0], ctx);
    AllSound(s, energy, ctx);
  }

  // ---------------------------------------------------------------- totals

  /** The total of an energy, if it has intervals. */
  ghost predicate IsTotalOf(r: Result, energy: Energy, total: Total) {
    var own := Filter(OfEnergy(energy), r.intervals);
    |own| > 0 && total == TotalOf(energy, own) && total in r.totals
  }

  lemma {:induction false} TotalListed(intervals: seq<Interval>, k: nat, j: nat)
    requires j < k <= |FUEL_ENERGIES|
    ensures var own := Filter(OfEnergy(FUEL_ENERGIES[j]), intervals);
      |own| > 0 ==> TotalOf(FUEL_ENERGIES[j], own) in TotalsOf(intervals, k)
    decreases k
  {
    if j < k - 1 {
      TotalListed(intervals, k - 1, j);
    }
  }

  /** An energy has a total exactly of its own intervals: fuels are never added together. */
  lemma {:induction false} TotalPerEnergy(entries: seq<Entry>, ctx: Context, period: Period, energy: Energy)
    ensures var s, r := Sort(CompareEntries(), entries), Consume(entries, ctx, period);
      var own := InPeriodIntervals(s, energy, ctx, period);
      |own| > 0 ==> IsTotalOf(r, energy, TotalOf(energy, own))
  {
    IntervalsOfEnergy(entries, ctx, period, energy);
    var j := if energy == Diesel then 0 else if energy == Essence then 1 else 2;
    assert FUEL_ENERGIES[j] == energy;
    TotalListed(Consume(entries, ctx, period).intervals, |FUEL_ENERGIES|, j);
  }

  /** Figures of those of the first n intervals that end in the period. */
  function FiguresIn(period: Period, s: seq<Interval>, n: nat): Figures
    requires n <= |s|
  {
    if n == 0 then NOTHING
    else if InPeriod(s[n - 1].endAt, period) then AddInterval(FiguresIn(period, s, n - 1), s[n - 1])
    else FiguresIn(period, s, n - 1)
  }

  lemma {:induction false} FiguresInStep(period: Period, s: seq<Interval>, k: nat, before: Figures)
    requires k < |s| && before == FiguresOf(Filter(Ends(period), s[..k]))
    ensures FiguresOf(Filter(Ends(period), s[..k + 1])) ==
      if InPeriod(s[k].endAt, period) then AddInterval(before, s[k]) else before
  {
    assert s[..k + 1] == s[..k] + [s[k]];
    FilterOneMore(Ends(period), s[..k], s[k]);
    FiguresOneMore(Filter(Ends(period), s[..k]), s[k]);
  }

  lemma {:induction false} FiguresInNone(period: Period, s: seq<Interval>)
    ensures FiguresIn(period, s, 0) == NOTHING
    ensures FiguresOf(Filter(Ends(period), s[..0])) == NOTHING
  {
    assert s[..0] == [];
  }

  lemma {:induction false} FiguresInAgree(period: Period, s: seq<Interval>, n: nat)
    requires n <= |s|
    ensures FiguresIn(period, s, n) == FiguresOf(Filter(Ends(period), s[..n]))
    decreases n
  {
    if n == 0 {
      FiguresInNone(period, s);
    } else {
      FiguresInAgree(period, s, n - 1);
      FiguresInStep(period, s, n - 1, FiguresIn(period, s, n - 1));
    }
  }

  /** f adds up a and b. */
  predicate IsSum(f: Figures, a: Figures, b: Figures) {
    f.liters == a.liters + b.liters && f.km == a.km + b.km && f.retained == a.retained + b.retained &&
      f.excluded == a.excluded + b.excluded
  }

  lemma {:induction false} FiguresSplit(s: seq<Interval>, n: nat, from: Option<int>, cut: int, to: Option<int>)
    requires n <= |s| && (from.Some? ==> from.value <= cut) && (to.Some? ==> cut < to.value)
    ensures IsSum(FiguresIn(Period(from, to), s, n), FiguresIn(Period(from, Some(cut)), s, n),
      FiguresIn(Period(Some(cut + 1), to), s, n))
    decreases n
  {
    if n == 0 {
    } else {
      FiguresSplit(s, n - 1, from, cut, to);
    }
  }

  /** Retained litres, kilometres and counts add up over two adjacent periods. */
  lemma {:induction false} AdjacentPeriodsAdd(
      s: seq<Entry>, energy: Energy, ctx: Context, from: Option<int>, cut: int, to: Option<int>)
    requires (from.Some? ==> from.value <= cut) && (to.Some? ==> cut < to.value)
    ensures IsSum(FiguresOf(InPeriodIntervals(s, energy, ctx, Period(from, to))),
      FiguresOf(InPeriodIntervals(s, energy, ctx, Period(from, Some(cut)))),
      FiguresOf(InPeriodIntervals(s, energy, ctx, Period(Some(cut + 1), to))))
  {
    var all := EnergyIntervals(s, energy, ctx);
    FiguresSplit(all, |all|, from, cut, to);
    FiguresInAgree(Period(from, to), all, |all|);
    FiguresInAgree(Period(from, Some(cut)), all, |all|);
    FiguresInAgree(Period(Some(cut + 1), to), all, |all|);
    assert all[..|all|] == all;
  }

  /** Bounds on the ratio of every retained interval, multiplied out. */
  ghost predicate RatiosBetween(s: seq<Interval>, low: real, high: real) {
    forall i :: i in s && i.retained ==> Km(i) > 0.0 && low * Km(i) <= i.liters * 100.0 <= high * Km(i)
  }

  ghost predicate FiguresWithin(f: Figures, low: real, high: real) {
    && low * f.km <= f.liters * 100.0 <= high * f.km
    && (f.retained > 0 ==> f.km > 0.0) && f.km >= 0.0
  }

  lemma {:induction false} Distribute(a: real, x: real, y: real)
    ensures a * (x + y) == a * x + a * y
  {
  }

  lemma {:induction false} BetweenStep(f: Figures, x: Interval, low: real, high: real)
    requires FiguresWithin(f, low, high)
    requires x.retained ==> Km(x) > 0.0 && low * Km(x) <= x.liters * 100.0 <= high * Km(x)
    ensures FiguresWithin(AddInterval(f, x), low, high)
  {
    if x.retained {
      Distribute(low, f.km, Km(x));
      Distribute(high, f.km, Km(x));
    }
  }

  lemma {:induction false} FiguresBetweenStep(s: seq<Interval>, k: nat, low: real, high: real)
    requires k < |s| && RatiosBetween(s, low, high) && FiguresWithin(FiguresOf(s[..k]), low, high)
    ensures FiguresWithin(FiguresOf(s[..k + 1]), low, high)
  {
    assert s[..k + 1] == s[..k] + [s[k]];
    FiguresOneMore(s[..k], s[k]);
    assert s[k] in s;
    BetweenStep(FiguresOf(s[..k]), s[k], low, high);
  }

  lemma {:induction false} NothingWithin(s: seq<Interval>, low: real, high: real)
    ensures FiguresWithin(FiguresOf(s[..0]), low, high)
  {
    var f := FiguresOf(s[..0]);
    assert f.km == 0.0 && f.liters == 0.0;
    assert low * f.km == 0.0 && high * f.km == 0.0;
  }

  lemma {:induction false} FiguresBetween(s: seq<Interval>, n: nat, low: real, high: real)
    requires n <= |s| && RatiosBetween(s, low, high)
    ensures FiguresWithin(FiguresOf(s[..n]), low, high)
    decreases n
  {
    if n == 0 {
      NothingWithin(s, low, high);
    } else {
      FiguresBetween(s, n - 1, low, high);
      FiguresBetweenStep(s, n - 1, low, high);
    }
  }

  lemma {:induction false} MultiplyOut(a: real, b: real, k: real)
    requires k > 0.0
    ensures a <= b <==> a * k <= b * k
  {
    if a <= b {
      assert (b - a) * k >= 0.0;
    } else {
      assert (a - b) * k > 0.0;
    }
  }

  lemma {:induction false} RatioBounds(liters: real, km: real, low: real, high: real)
    requires km > 0.0
    ensures low <= liters / km * 100.0 <= high <==> low * km <= liters * 100.0 <= high * km
  {
    var r := liters / km;
    assert r * km == liters;
    assert r * 100.0 * km == liters * 100.0;
    MultiplyOut(low, r * 100.0, km);
    MultiplyOut(r * 100.0, high, km);
  }

  /**
   The total ratio lies between any bounds that hold for all retained ratios, so between the smallest and the
   largest.
   */
  lemma {:induction false} TotalRatioBetween(own: seq<Interval>, energy: Energy, low: real, high: real)
    requires forall i :: i in own ==> Sound(i)
    requires forall i :: i in own && i.retained ==> i.ratio.Some? && low <= i.ratio.value <= high
    ensures var t := TotalOf(energy, own);
      t.available ==> t.ratio.Some? && low <= t.ratio.value <= high && t.distanceKm.Some? && t.distanceKm.value > 0.0
  {
    forall i | i in own && i.retained ensures Km(i) > 0.0 && low * Km(i) <= i.liters * 100.0 <= high * Km(i) {
      RatioBounds(i.liters, Km(i), low, high);
    }
    FiguresBetween(own, |own|, low, high);
    assert own[..|own|] == own;
    var f := FiguresOf(own);
    if f.retained > 0 {
      RatioBounds(f.liters, f.km, low, high);
    }
  }

  // ---------------------------------------------------------------- an unavailable result says why

  lemma {:induction false} OrderedMembers(reasons: set<Reason>)
    ensures forall r :: r in Ordered(reasons) <==> r in reasons
  {
    forall r ensures r in Ordered(reasons) <==> r in reasons {
      EveryReasonListed(r);
      FilterMember(InSet(reasons), REASONS, r);
    }
  }

  lemma {:induction false} RetainedCounted(own: seq<Interval>)
    ensures FiguresOf(own).retained > 0 <==> exists i :: i in own && i.retained
    decreases |own|
  {
    if |own| == 0 {
    } else {
      var before, x := own[..|own| - 1], own[|own| - 1];
      RetainedCounted(before);
      assert own == before + [x];
      FiguresOneMore(before, x);
      assert forall i :: i in own <==> i in before || i == x;
    }
  }

  lemma {:induction false} ReasonSetMembers(own: seq<Interval>, r: Reason)
    ensures r in ReasonSet(own) <==> exists i :: i in own && r in i.reasons
    decreases |own|
  {
    if |own| == 0 {
    } else {
      var before, x := own[..|own| - 1], own[|own| - 1];
      ReasonSetMembers(before, r);
      assert own == before + [x];
      assert forall i :: i in own <==> i in before || i == x;
    }
  }

  /** Some interval of the first k energies is retained. */
  ghost predicate SomeRetained(intervals: seq<Interval>, k: nat)
    requires k <= |FUEL_ENERGIES|
  {
    exists i :: i in intervals && i.retained && i.energy in FUEL_ENERGIES[..k]
  }

  ghost predicate ReasonGiven(intervals: seq<Interval>, k: nat, r: Reason)
    requires k <= |FUEL_ENERGIES|
  {
    exists i :: i in intervals && r in i.reasons && i.energy in FUEL_ENERGIES[..k]
  }

  lemma {:induction false} RetainedOfEnergy(energy: Energy, intervals: seq<Interval>)
    ensures var own := Filter(OfEnergy(energy), intervals);
      |own| > 0 && TotalOf(energy, own).available <==> exists i :: i in intervals && i.retained && i.energy == energy
  {
    var own := Filter(OfEnergy(energy), intervals);
    RetainedCounted(own);
    FilterMembers(OfEnergy(energy), intervals);
    assert forall i :: i in own <==> i in intervals && OfEnergy(energy)(i);
  }

  lemma {:induction false} AvailableOneMore(totals: seq<Total>, t: Total)
    ensures SomeAvailable(totals + [t]) <==> SomeAvailable(totals) || t.available
  {
    if SomeAvailable(totals) {
      var k :| 0 <= k < |totals| && totals[k].available;
      assert (totals + [t])[k].available;
    }
    assert (totals + [t])[|totals|] == t;
  }

  /** One more energy: its total, if it has intervals, is available exactly when one of them is retained. */
  lemma {:induction false} OneMoreAvailable(intervals: seq<Interval>, k: nat)
    requires 0 < k <= |FUEL_ENERGIES|
    ensures SomeAvailable(TotalsOf(intervals, k)) <==>
      SomeAvailable(TotalsOf(intervals, k - 1)) || exists i ::
        i in intervals && i.retained && i.energy == FUEL_ENERGIES[k - 1]
  {
    var energy := FUEL_ENERGIES[k - 1];
    var own := Filter(OfEnergy(energy), intervals);
    RetainedOfEnergy(energy, intervals);
    if |own| == 0 {
      assert TotalsOf(intervals, k) == TotalsOf(intervals, k - 1);
    } else {
      AvailableOneMore(TotalsOf(intervals, k - 1), TotalOf(energy, own));
    }
  }

  lemma {:induction false} EnergiesOneMore(k: nat, energy: Energy)
    requires 0 < k <= |FUEL_ENERGIES|
    ensures energy in FUEL_ENERGIES[..k] <==> energy in FUEL_ENERGIES[..k - 1] || energy == FUEL_ENERGIES[k - 1]
  {
    var s := FUEL_ENERGIES;
    assert s[..k] == s[..k - 1] + [s[k - 1]];
  }

  lemma {:induction false} NothingRetainedYet(intervals: seq<Interval>)
    ensures !SomeAvailable(TotalsOf(intervals, 0)) && !SomeRetained(intervals, 0)
  {
    assert FUEL_ENERGIES[..0] == [];
  }

  lemma {:induction false} RetainedOneMore(intervals: seq<Interval>, k: nat)
    requires 0 < k <= |FUEL_ENERGIES|
    ensures SomeRetained(intervals, k) <==>
      SomeRetained(intervals, k - 1) || exists i :: i in intervals && i.retained && i.energy == FUEL_ENERGIES[k - 1]
  {
    forall energy ensures energy in FUEL_ENERGIES[..k] <==>
      energy in FUEL_ENERGIES[..k - 1] || energy == FUEL_ENERGIES[k - 1] {
      EnergiesOneMore(k, energy);
    }
  }

  lemma {:induction false} TotalsAvailable(intervals: seq<Interval>, k: nat)
    requires k <= |FUEL_ENERGIES|
    ensures SomeAvailable(TotalsOf(intervals, k)) <==> SomeRetained(intervals, k)
    decreases k
  {
    if k == 0 {
      NothingRetainedYet(intervals);
    } else {
      TotalsAvailable(intervals, k - 1);
      OneMoreAvailable(intervals, k);
      RetainedOneMore(intervals, k);
    }
  }

  lemma {:induction false} ReasonsOneMore(totals: seq<Total>, t: Total)
    ensures TotalReasons(totals + [t]) == TotalReasons(totals) + Elements(t.reasons)
  {
    assert (totals + [t])[..|totals|] == totals;
  }

  lemma {:induction false} ReasonsUnavailable(energy: Energy, own: seq<Interval>, r: Reason)
    requires !TotalOf(energy, own).available
    ensures r in Elements(TotalOf(energy, own).reasons) <==> r in ReasonSet(own)
  {
    OrderedMembers(ReasonSet(own));
  }

  lemma {:induction false} ReasonsOfEnergy(energy: Energy, intervals: seq<Interval>, r: Reason)
    ensures r in ReasonSet(Filter(OfEnergy(energy), intervals)) <==>
      exists i :: i in intervals && r in i.reasons && i.energy == energy
  {
    var own := Filter(OfEnergy(energy), intervals);
    ReasonSetMembers(own, r);
    FilterMembers(OfEnergy(energy), intervals);
    assert forall i :: i in own <==> i in intervals && OfEnergy(energy)(i);
  }

  lemma {:induction false} NoneOfEnergy(energy: Energy, intervals: seq<Interval>)
    requires |Filter(OfEnergy(energy), intervals)| == 0
    ensures forall i :: i in intervals ==> i.energy != energy
  {
    FilterMembers(OfEnergy(energy), intervals);
    assert forall i :: i in Filter(OfEnergy(energy), intervals) <==> i in intervals && OfEnergy(energy)(i);
  }

  lemma {:induction false} OneMoreReasons(intervals: seq<Interval>, k: nat, r: Reason)
    requires 0 < k <= |FUEL_ENERGIES| && !SomeAvailable(TotalsOf(intervals, k))
    ensures !SomeAvailable(TotalsOf(intervals, k - 1))
    ensures r in TotalReasons(TotalsOf(intervals, k)) <==>
      r in TotalReasons(TotalsOf(intervals, k - 1)) || exists i ::
        i in intervals && r in i.reasons && i.energy == FUEL_ENERGIES[k - 1]
  {
    var energy := FUEL_ENERGIES[k - 1];
    var own, before := Filter(OfEnergy(energy), intervals), TotalsOf(intervals, k - 1);
    if |own| == 0 {
      assert TotalsOf(intervals, k) == before;
      NoneOfEnergy(energy, intervals);
    } else {
      var t := TotalOf(energy, own);
      assert TotalsOf(intervals, k) == before + [t];
      AvailableOneMore(before, t);
      ReasonsOneMore(before, t);
      ReasonsUnavailable(energy, own, r);
      ReasonsOfEnergy(energy, intervals, r);
    }
  }

  lemma {:induction false} NoReasonYet(intervals: seq<Interval>, r: Reason)
    ensures r !in TotalReasons(TotalsOf(intervals, 0)) && !ReasonGiven(intervals, 0, r)
  {
    assert FUEL_ENERGIES[..0] == [];
  }

  lemma {:induction false} ReasonOneMore(intervals: seq<Interval>, k: nat, r: Reason)
    requires 0 < k <= |FUEL_ENERGIES|
    ensures ReasonGiven(intervals, k, r) <==>
      ReasonGiven(intervals, k - 1, r) || exists i ::
        i in intervals && r in i.reasons && i.energy == FUEL_ENERGIES[k - 1]
  {
    forall energy ensures energy in FUEL_ENERGIES[..k] <==>
      energy in FUEL_ENERGIES[..k - 1] || energy == FUEL_ENERGIES[k - 1] {
      EnergiesOneMore(k, energy);
    }
  }

  lemma {:induction false} TotalsReasons(intervals: seq<Interval>, k: nat, r: Reason)
    requires k <= |FUEL_ENERGIES| && !SomeAvailable(TotalsOf(intervals, k))
    ensures r in TotalReasons(TotalsOf(intervals, k)) <==> ReasonGiven(intervals, k, r)
    decreases k
  {
    if k == 0 {
      NoReasonYet(intervals, r);
    } else {
      OneMoreReasons(intervals, k, r);
      TotalsReasons(intervals, k - 1, r);
      ReasonOneMore(intervals, k, r);
    }
  }

  lemma {:induction false} EveryEnergyListed(energy: Energy)
    ensures energy in FUEL_ENERGIES[..|FUEL_ENERGIES|]
  {
    assert FUEL_ENERGIES[0] == Diesel && FUEL_ENERGIES[1] == Essence && FUEL_ENERGIES[2] == Gpl;
  }

  /**
   A result is available exactly when an interval is retained; otherwise it lists exactly the reasons of its
   intervals, or says that the history is too short.
   */
  lemma {:induction false} UnavailableSaysWhy(entries: seq<Entry>, ctx: Context, period: Period)
    ensures var r := Consume(entries, ctx, period);
      && (r.available <==> exists i :: i in r.intervals && i.retained)
      && (r.intervals == [] ==> r.reasons == [HistoriqueInsuffisant])
      && (r.available ==> r.reasons == [])
      && (r.intervals != [] && !r.available ==> forall x :: x in r.reasons <==> exists i ::
        i in r.intervals && x in i.reasons)
  {
    var r := Consume(entries, ctx, period);
    var totals := TotalsOf(r.intervals, |FUEL_ENERGIES|);
    TotalsAvailable(r.intervals, |FUEL_ENERGIES|);
    forall i: Interval ensures i.energy in FUEL_ENERGIES[..|FUEL_ENERGIES|] {
      EveryEnergyListed(i.energy);
    }
    OrderedMembers(TotalReasons(totals));
    if !r.available {
      forall x ensures x in TotalReasons(totals) <==> exists i :: i in r.intervals && x in i.reasons {
        TotalsReasons(r.intervals, |FUEL_ENERGIES|, x);
      }
    }
  }

  // ---------------------------------------------------------------- the result of an unbounded period

  /** The intervals of an energy in the result. */
  ghost function OwnIntervals(entries: seq<Entry>, ctx: Context, period: Period, energy: Energy): seq<Interval> {
    Filter(OfEnergy(energy), Consume(entries, ctx, period).intervals)
  }

  const ALWAYS := Period(None, None)

  lemma {:induction false} AllIntervalsKept(entries: seq<Entry>, ctx: Context, energy: Energy)
    ensures OwnIntervals(entries, ctx, ALWAYS, energy) == EnergyIntervals(Sort(CompareEntries(), entries), energy, ctx)
  {
    var all := EnergyIntervals(Sort(CompareEntries(), entries), energy, ctx);
    IntervalsOfEnergy(entries, ctx, ALWAYS, energy);
    FilterAll(Ends(ALWAYS), all);
  }

  /** No entry of the list has this id. */
  ghost predicate NewId(id: string, s: seq<Entry>) { forall y :: y in s ==> y.id != id }

  lemma {:induction false} HeadIsNew(s: seq<Entry>)
    requires DistinctIds(s) && |s| > 0
    ensures NewId(s[0].id, s[1..]) && DistinctIds(s[1..])
  {
    forall y | y in s[1..] ensures y.id != s[0].id {
      var i :| 1 <= i < |s| && s[i] == y;
    }
  }

  lemma {:induction false} InsertKeepsNew(id: string, x: Entry, s: seq<Entry>)
    requires NewId(id, s) && x.id != id
    ensures NewId(id, Insert(CompareEntries(), x, s))
  {
    InsertPermutes(CompareEntries(), x, s);
    SameElements(Insert(CompareEntries(), x, s), [x] + s);
  }

  lemma {:induction false} ConsKeepsIds(x: Entry, s: seq<Entry>)
    requires DistinctIds(s) && NewId(x.id, s)
    ensures DistinctIds([x] + s)
  {
  }

  lemma {:induction false} InsertKeepsIds(x: Entry, s: seq<Entry>)
    requires DistinctIds(s) && NewId(x.id, s)
    ensures DistinctIds(Insert(CompareEntries(), x, s))
    decreases |s|
  {
    if |s| == 0 || CompareEntries()(x, s[0]) {
      ConsKeepsIds(x, s);
    } else {
      HeadIsNew(s);
      assert s[0] in s;
      assert NewId(x.id, s[1..]) by {
        assert forall y :: y in s[1..] ==> y in s;
      }
      InsertKeepsIds(x, s[1..]);
      InsertKeepsNew(s[0].id, x, s[1..]);
      ConsKeepsIds(s[0], Insert(CompareEntries(), x, s[1..]));
    }
  }

  lemma {:induction false} SortKeepsIds(s: seq<Entry>)
    requires DistinctIds(s)
    ensures DistinctIds(Sort(CompareEntries(), s))
    decreases |s|
  {
    if |s| == 0 {
    } else {
      HeadIsNew(s);
      SortKeepsIds(s[1..]);
      SortMembers(CompareEntries(), s[1..]);
      assert NewId(s[0].id, Sort(CompareEntries(), s[1..]));
      InsertKeepsIds(s[0], Sort(CompareEntries(), s[1..]));
    }
  }

  /** The entry is a validated full tank of the energy, or comes before one. */
  ghost predicate UpToLastFull(entries: seq<Entry>, energy: Energy, x: Entry) {
    exists f :: f in entries && IsFull(f, energy) && CompareEntries()(x, f)
  }

  lemma {:induction false} BeforeOrSame(s: seq<Entry>, p: nat, k: nat)
    requires Sorted(CompareEntries(), s) && p <= k < |s|
    ensures CompareEntries()(s[p], s[k])
  {
    StringOrder();
  }

  lemma {:induction false} NotAfterInOrder(s: seq<Entry>, p: nat, j: nat)
    requires Sorted(CompareEntries(), s) && DistinctIds(s) && p < |s| && j < |s| && CompareEntries()(s[p], s[j])
    ensures p <= j
  {
    if j < p {
      assert CompareEntries()(s[j], s[p]);
      StringLeAntisymmetric(s[j].id, s[p].id);
    }
  }

  /** Among sorted entries these are the ones before the last scan start. */
  lemma {:induction false} ScanStartMeans(s: seq<Entry>, energy: Energy, p: nat)
    requires Sorted(CompareEntries(), s) && DistinctIds(s) && p < |s|
    ensures p < ScanStart(s, energy, |s|) <==> UpToLastFull(s, energy, s[p])
  {
    var k := LastFull(s, energy, |s|);
    if p < ScanStart(s, energy, |s|) {
      BeforeOrSame(s, p, k.value);
      assert s[k.value] in s;
    }
    if f :| f in s && IsFull(f, energy) && CompareEntries()(s[p], f) {
      var j :| 0 <= j < |s| && s[j] == f;
      NotAfterInOrder(s, p, j);
    }
  }

  lemma {:induction false} SortedScan(entries: seq<Entry>)
    ensures Sorted(CompareEntries(), Sort(CompareEntries(), entries))
    ensures forall x :: x in Sort(CompareEntries(), entries) <==> x in entries
  {
    EntryOrder();
    SortSorted(CompareEntries(), entries);
    SortMembers(CompareEntries(), entries);
  }

  /**
   Over an unbounded period a validated purchase is in exactly one interval of its energy when it is a validated
   full tank or comes before one, and in none otherwise.
   */
  lemma {:induction false} EachPurchaseOnce(entries: seq<Entry>, ctx: Context, energy: Energy, x: Entry)
    requires DistinctIds(entries) && x in entries && Counted(energy)(x)
    ensures CountWith(OwnIntervals(entries, ctx, ALWAYS, energy), x.id) == if UpToLastFull(entries, energy, x) then 1
      else 0
  {
    var s := Sort(CompareEntries(), entries);
    SortedScan(entries);
    SortKeepsIds(entries);
    AllIntervalsKept(entries, ctx, energy);
    var p :| 0 <= p < |s| && s[p] == x;
    PurchaseInOneInterval(s, energy, ctx, p);
    ScanStartMeans(s, energy, p);
    assert UpToLastFull(s, energy, x) <==> UpToLastFull(entries, energy, x);
  }

  /** Validated purchases up to the last validated full tank. */
  ghost function CountedUpToLastFull(entries: seq<Entry>, energy: Energy): Entry -> bool {
    (x: Entry) => Counted(energy)(x) && UpToLastFull(entries, energy, x)
  }

  lemma {:induction false} CountedBefore(s: seq<Entry>, energy: Energy, c: nat)
    requires Sorted(CompareEntries(), s) && DistinctIds(s) && c == ScanStart(s, energy, |s|) && c <= |s|
    ensures Filter(Counted(energy), s[..c]) == Filter(CountedUpToLastFull(s, energy), s[..c])
  {
    forall x | x in s[..c] ensures Counted(energy)(x) == CountedUpToLastFull(s, energy)(x) {
      var p :| 0 <= p < c && s[p] == x;
      ScanStartMeans(s, energy, p);
    }
    FilterAgree(Counted(energy), CountedUpToLastFull(s, energy), s[..c]);
  }

  lemma {:induction false} NoneCountedAfter(s: seq<Entry>, energy: Energy, c: nat)
    requires Sorted(CompareEntries(), s) && DistinctIds(s) && c == ScanStart(s, energy, |s|) && c <= |s|
    ensures Filter(CountedUpToLastFull(s, energy), s[c..]) == []
  {
    forall x | x in s[c..] ensures !CountedUpToLastFull(s, energy)(x) {
      var p :| c <= p < |s| && s[p] == x;
      ScanStartMeans(s, energy, p);
    }
    FilterNone(CountedUpToLastFull(s, energy), s[c..]);
  }

  lemma {:induction false} FilterSplit(p: Entry -> bool, s: seq<Entry>, c: nat)
    requires c <= |s|
    ensures Filter(p, s) == Filter(p, s[..c]) + Filter(p, s[c..])
  {
    FilterAppend(p, s[..c], s[c..]);
    assert s == s[..c] + s[c..];
  }

  lemma {:induction false} PrefixCounted(s: seq<Entry>, energy: Energy)
    requires Sorted(CompareEntries(), s) && DistinctIds(s)
    ensures ScanStart(s, energy, |s|) <= |s|
    ensures Filter(Counted(energy), s[..ScanStart(s, energy, |s|)]) == Filter(CountedUpToLastFull(s, energy), s)
  {
    var c := ScanStart(s, energy, |s|);
    StartsWithin(s, energy, |s|);
    CountedBefore(s, energy, c);
    NoneCountedAfter(s, energy, c);
    FilterSplit(CountedUpToLastFull(s, energy), s, c);
  }

  lemma {:induction false} SumOfOne(x: Entry)
    ensures SumLiters([x]) == x.liters
  {
    assert [x][..0] == [];
  }

  lemma {:induction false} SumOfInsert(x: Entry, s: seq<Entry>)
    ensures SumLiters(Insert(CompareEntries(), x, s)) == x.liters + SumLiters(s)
    decreases |s|
  {
    SumOfOne(x);
    if |s| == 0 || CompareEntries()(x, s[0]) {
      SumAppend([x], s);
    } else {
      SumOfInsert(x, s[1..]);
      SumOfOne(s[0]);
      SumAppend([s[0]], Insert(CompareEntries(), x, s[1..]));
      SumAppend([s[0]], s[1..]);
      assert s == [s[0]] + s[1..];
    }
  }

  lemma {:induction false} SumOfSort(s: seq<Entry>)
    ensures SumLiters(Sort(CompareEntries(), s)) == SumLiters(s)
    decreases |s|
  {
    if |s| == 0 {
    } else {
      SumOfSort(s[1..]);
      SumOfInsert(s[0], Sort(CompareEntries(), s[1..]));
      SumOfOne(s[0]);
      SumAppend([s[0]], s[1..]);
      assert s == [s[0]] + s[1..];
    }
  }

  lemma {:induction false} SameUpToLastFull(a: seq<Entry>, b: seq<Entry>, energy: Energy)
    requires forall x :: x in a <==> x in b
    ensures forall x :: CountedUpToLastFull(a, energy)(x) == CountedUpToLastFull(b, energy)(x)
  {
    forall x ensures UpToLastFull(a, energy, x) <==> UpToLastFull(b, energy, x) {
    }
  }

  /** The litres of the intervals of an energy are those of its validated purchases up to the last full tank. */
  lemma {:induction false} EveryLitreOnce(entries: seq<Entry>, ctx: Context, energy: Energy)
    requires DistinctIds(entries)
    ensures SumIntervalLiters(OwnIntervals(entries, ctx, ALWAYS, energy))
      == SumLiters(Filter(CountedUpToLastFull(entries, energy), entries))
  {
    var s := Sort(CompareEntries(), entries);
    SortedScan(entries);
    SortKeepsIds(entries);
    AllIntervalsKept(entries, ctx, energy);
    LitersConserved(s, energy, ctx);
    PrefixCounted(s, energy);
    SameUpToLastFull(s, entries, energy);
    FilterAgree(CountedUpToLastFull(s, energy), CountedUpToLastFull(entries, energy), s);
    EntryOrder();
    SortFilter(CompareEntries(), CountedUpToLastFull(entries, energy), entries);
    SumOfSort(Filter(CountedUpToLastFull(entries, energy), entries));
  }

  /** The distances of an energy sum to its last minus its first kilometres, when all full tanks have validated ones. */
  lemma {:induction false} DistancesTelescope(entries: seq<Entry>, ctx: Context, energy: Energy)
    requires |OwnIntervals(entries, ctx, ALWAYS, energy)| > 0
    requires forall i :: i in OwnIntervals(entries, ctx, ALWAYS, energy) ==> i.endKm.Some?
    ensures var own := OwnIntervals(entries, ctx, ALWAYS, energy);
      && own[0].endKm.Some? && own[|own| - 1].endKm.Some?
      && SumKm(own) == own[|own| - 1].endKm.value - own[0].endKm.value
  {
    AllIntervalsKept(entries, ctx, energy);
    KilometresTelescope(Sort(CompareEntries(), entries), energy, ctx);
  }

  // ---------------------------------------------------------------- the totals of adjacent periods

  /** The total of an energy among the totals listed. */
  function ListedTotal(totals: seq<Total>, energy: Energy): Option<Total> {
    if |totals| == 0 then None
    else if totals[|totals| - 1].energy == energy then Some(totals[|totals| - 1])
    else ListedTotal(totals[..|totals| - 1], energy)
  }

  function OrZero(x: Option<real>): real { if x.Some? then x.value else 0.0 }

  /** What a total says; an energy without total has no litres, kilometres or intervals. */
  function Shown(t: Option<Total>): Figures {
    if t.None? then NOTHING
    else Figures(OrZero(t.value.liters), OrZero(t.value.distanceKm), t.value.retainedCount, t.value.excludedCount)
  }

  function EnergyRank(energy: Energy): nat { match energy case Diesel => 0 case Essence => 1 case Gpl => 2 }

  lemma {:induction false} RankIsPlace(k: nat)
    requires k < |FUEL_ENERGIES|
    ensures EnergyRank(FUEL_ENERGIES[k]) == k
  {
    assert FUEL_ENERGIES[0] == Diesel && FUEL_ENERGIES[1] == Essence && FUEL_ENERGIES[2] == Gpl;
  }

  lemma {:induction false} ListedOneMore(totals: seq<Total>, t: Total, energy: Energy)
    ensures ListedTotal(totals + [t], energy) == if t.energy == energy then Some(t) else ListedTotal(totals, energy)
  {
    assert (totals + [t])[..|totals|] == totals;
  }

  /** The total of an energy, if it is among the first k and has intervals. */
  function OwnTotal(intervals: seq<Interval>, k: nat, energy: Energy): Option<Total> {
    var own := Filter(OfEnergy(energy), intervals);
    if EnergyRank(energy) < k && |own| > 0 then Some(TotalOf(energy, own)) else None
  }

  lemma {:induction false} EnergyOfRank(a: Energy, b: Energy)
    ensures a == b <==> EnergyRank(a) == EnergyRank(b)
  {
  }

  /** The totals of the first k energies list exactly the own total of each of these energies. */
  ghost predicate ListedAre(intervals: seq<Interval>, k: nat, energy: Energy)
    requires k <= |FUEL_ENERGIES|
  {
    ListedTotal(TotalsOf(intervals, k), energy) == OwnTotal(intervals, k, energy)
  }

  lemma {:induction false} TotalsOneMore(intervals: seq<Interval>, k: nat)
    requires k < |FUEL_ENERGIES|
    ensures var last, before := FUEL_ENERGIES[k], TotalsOf(intervals, k);
      var own := Filter(OfEnergy(last), intervals);
      TotalsOf(intervals, k + 1) == if |own| == 0 then before else before + [TotalOf(last, own)]
  {
  }

  lemma {:induction false} OwnTotalStep(intervals: seq<Interval>, k: nat, energy: Energy)
    requires k < |FUEL_ENERGIES|
    ensures var last := FUEL_ENERGIES[k];
      && (last == energy ==> OwnTotal(intervals, k, energy) == None)
      && (last != energy ==> OwnTotal(intervals, k + 1, energy) == OwnTotal(intervals, k, energy))
  {
    RankIsPlace(k);
    EnergyOfRank(FUEL_ENERGIES[k], energy);
  }

  lemma {:induction false} OwnTotalOfLast(intervals: seq<Interval>, k: nat)
    requires k < |FUEL_ENERGIES|
    ensures var last := FUEL_ENERGIES[k];
      var own := Filter(OfEnergy(last), intervals);
      OwnTotal(intervals, k + 1, last) == if |own| == 0 then None else Some(TotalOf(last, own))
  {
    RankIsPlace(k);
  }

  lemma {:induction false} ListedTotalStep(intervals: seq<Interval>, k: nat, energy: Energy)
    requires k < |FUEL_ENERGIES| && ListedAre(intervals, k, energy)
    ensures ListedAre(intervals, k + 1, energy)
  {
    var last := FUEL_ENERGIES[k];
    var own := Filter(OfEnergy(last), intervals);
    TotalsOneMore(intervals, k);
    OwnTotalStep(intervals, k, energy);
    OwnTotalOfLast(intervals, k);
    if |own| > 0 {
      ListedOneMore(TotalsOf(intervals, k), TotalOf(last, own), energy);
    }
  }

  lemma {:induction false} NoTotalYet(intervals: seq<Interval>, energy: Energy)
    ensures ListedAre(intervals, 0, energy)
  {
  }

  lemma {:induction false} ListedTotalIs(intervals: seq<Interval>, energy: Energy)
    ensures ListedAre(intervals, |FUEL_ENERGIES|, energy)
  {
    NoTotalYet(intervals, energy);
    ListedTotalStep(intervals, 0, energy);
    ListedTotalStep(intervals, 1, energy);
    ListedTotalStep(intervals, 2, energy);
  }

  lemma {:induction false} NoneRetained(own: seq<Interval>)
    requires FiguresOf(own).retained == 0
    ensures FiguresOf(own).liters == 0.0 && FiguresOf(own).km == 0.0
  {
    FiguresByFilter(own);
    assert |Filter(Retained(), own)| == 0;
  }

  lemma {:induction false} ShownTotal(energy: Energy, own: seq<Interval>)
    ensures Shown(Some(TotalOf(energy, own))) == FiguresOf(own)
  {
    FiguresByFilter(own);
    var f := FiguresOf(own);
    if f.retained == 0 {
      NoneRetained(own);
    }
  }

  lemma {:induction false} TotalShows(entries: seq<Entry>, ctx: Context, period: Period, energy: Energy)
    ensures Shown(ListedTotal(Consume(entries, ctx, period).totals, energy))
      == FiguresOf(InPeriodIntervals(Sort(CompareEntries(), entries), energy, ctx, period))
  {
    var own := InPeriodIntervals(Sort(CompareEntries(), entries), energy, ctx, period);
    IntervalsOfEnergy(entries, ctx, period, energy);
    ListedTotalIs(Consume(entries, ctx, period).intervals, energy);
    if |own| > 0 {
      ShownTotal(energy, own);
    }
  }

  /** The totals of a period add up from those of two adjacent parts: litres, kilometres and both counts. */
  lemma {:induction false} AdjacentTotalsAdd(
      entries: seq<Entry>, ctx: Context, energy: Energy, from: Option<int>, cut: int, to: Option<int>)
    requires (from.Some? ==> from.value <= cut) && (to.Some? ==> cut < to.value)
    ensures IsSum(
      Shown(ListedTotal(Consume(entries, ctx, Period(from, to)).totals, energy)),
      Shown(ListedTotal(Consume(entries, ctx, Period(from, Some(cut))).totals, energy)),
      Shown(ListedTotal(Consume(entries, ctx, Period(Some(cut + 1), to)).totals, energy)))
  {
    TotalShows(entries, ctx, Period(from, to), energy);
    TotalShows(entries, ctx, Period(from, Some(cut)), energy);
    TotalShows(entries, ctx, Period(Some(cut + 1), to), energy);
    AdjacentPeriodsAdd(Sort(CompareEntries(), entries), energy, ctx, from, cut, to);
  }
}
