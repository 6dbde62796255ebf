/** The expense ledger (apps/api/src/domain/expense-ledger.ts). Amounts are exact. */
module Ledger {
  import opened Wrappers
  import opened Sorting

  datatype Category =
    | EntretienReparation | Carburant | Assurance | Location | Taxes | Peage | Stationnement | AchatVehicule | Autre

  const CATEGORIES: seq<Category> :=
    [EntretienReparation, Carburant, Assurance, Location, Taxes, Peage, Stationnement, AchatVehicule, Autre]

  datatype Kind = Depense | Avoir

  datatype Status = Validee | Annulee | Remplacee

  /** A row, or an aggregate of `count` rows whose amount is their sum. */
  datatype Row = Row(category: Category, kind: Kind, status: Status, amount: real, vehicleId: Option<string>,
    excludedFromOperatingCost: bool, count: Option<nat>)

  datatype Totals = Totals(expenses: real, credits: real, net: real, count: nat)

  const ZERO := Totals(0.0, 0.0, 0.0, 0)

  /** t is a and b together. */
  predicate Sum(t: Totals, a: Totals, b: Totals) {
    && t.expenses == a.expenses + b.expenses && t.credits == a.credits + b.credits
    && t.net == a.net + b.net && t.count == a.count + b.count
  }

  function SignedAmount(kind: Kind, amount: real): real { if kind.Avoir? then -amount else amount }

  function RowCount(r: Row): nat { if r.count.Some? then r.count.value else 1 }

  function OfRow(r: Row): Totals {
    Totals(if r.kind.Avoir? then 0.0 else r.amount, if r.kind.Avoir? then r.amount else 0.0,
      SignedAmount(r.kind, r.amount), RowCount(r))
  }

  /** One row more. */
  function WithRow(t: Totals, r: Row): Totals {
    Totals(t.expenses + OfRow(r).expenses, t.credits + OfRow(r).credits, t.net + OfRow(r).net, t.count + OfRow(r).count)
  }

  function TotalsOf(rows: seq<Row>): Totals {
    if |rows| == 0 then ZERO else WithRow(TotalsOf(rows[..|rows| - 1]), rows[|rows| - 1])
  }

  /** Expenses minus credits. */
  function NetAmount(rows: seq<Row>): real {
    if |rows| == 0 then 0.0
    else NetAmount(rows[..|rows| - 1]) + SignedAmount(rows[|rows| - 1].kind, rows[|rows| - 1].amount)
  }

  // ---------------------------------------------------------------- which rows count where

  function Counted(): Row -> bool { (r: Row) => r.status == Validee }

  function Operating(): Row -> bool { (r: Row) => r.status == Validee && !r.excludedFromOperatingCost }

  function Excluded(): Row -> bool { (r: Row) => r.status == Validee && r.excludedFromOperatingCost }

  function Unallocated(): Row -> bool {
    (r: Row) => r.status == Validee && !r.excludedFromOperatingCost && r.vehicleId.None?
  }

  function InCategory(c: Category, excluded: bool): Row -> bool {
    (r: Row) => r.status == Validee && r.excludedFromOperatingCost == excluded && r.category == c
  }

  datatype Line = Line(category: Category, totals: Totals)

  datatype Summary = Summary(byCategory: seq<Line>, operating: Totals, unallocated: Totals, excluded: Totals,
    excludedByCategory: seq<Line>)

  /** One line per category that has rows, in the order of the categories. */
  function CategoryLines(rows: seq<Row>, excluded: bool, categories: seq<Category>): seq<Line> {
    if |categories| == 0 then []
    else
      var c, before := categories[|categories| - 1], CategoryLines(rows, excluded, categories[..|categories| - 1]);
      var own := Filter(InCategory(c, excluded), rows);
      if |own| == 0 then before else before + [Line(c, TotalsOf(own))]
  }

  /** The summary, bucket by bucket, as totals of the rows that belong there. */
  function SummaryOf(rows: seq<Row>): Summary {
    Summary(CategoryLines(rows, false, CATEGORIES), TotalsOf(Filter(Operating(), rows)),
      TotalsOf(Filter(Unallocated(), rows)),
      TotalsOf(Filter(Excluded(), rows)), CategoryLines(rows, true, CATEGORIES))
  }

  // ---------------------------------------------------------------- the computation

  class Bucket {
    var expenses: real
    var credits: real
    var net: real
    var count: nat

    function Value(): Totals
      reads this
    {
      Totals(expenses, credits, net, count)
    }

    constructor ()
      ensures Value() == ZERO
    {
      expenses, credits, net, count := 0.0, 0.0, 0.0, 0;
    }

    method Add(row: Row)
      modifies this
      ensures Value() == WithRow(old(Value()), row)
    {
      if row.kind.Avoir? {
        credits := credits + row.amount;
      } else {
        expenses := expenses + row.amount;
      }
      net := net + SignedAmount(row.kind, row.amount);
      count := count + RowCount(row);
    }
  }

  /** Adds the row to the bucket of its category, which is made when first needed. */
  method AddToCategory(buckets: map<Category, Bucket>, row: Row) returns (r: map<Category, Bucket>)
    modifies if row.category in buckets then {buckets[row.category]} else {}
    ensures r.Keys == buckets.Keys + {row.category}
    ensures forall c :: c in buckets ==> r[c] == buckets[c]
    ensures row.category !in buckets ==> fresh(r[row.category])
    ensures r[row.category].Value()
      == WithRow(if row.category in buckets then old(buckets[row.category].Value()) else ZERO, row)
  {
    r := buckets;
    if row.category !in r {
      var b := new Bucket();
      r := r[row.category := b];
    }
    r[row.category].Add(row);
  }

  /** A category has a bucket exactly when it has rows, and the bucket holds their totals. */
  ghost predicate CategoryRight(buckets: map<Category, Bucket>, c: Category, rows: seq<Row>, excluded: bool)
    reads buckets.Values
  {
    var own := Filter(InCategory(c, excluded), rows);
    && (c in buckets <==> |own| > 0)
    && (c in buckets ==> buckets[c].Value() == TotalsOf(own))
  }

  ghost predicate OneBucketEach(buckets: map<Category, Bucket>) {
    forall c, d :: c in buckets && d in buckets && c != d ==> buckets[c] != buckets[d]
  }

  ghost predicate Matches(buckets: map<Category, Bucket>, rows: seq<Row>, excluded: bool)
    reads buckets.Values
  {
    OneBucketEach(buckets) && forall c :: CategoryRight(buckets, c, rows, excluded)
  }

  lemma {:induction false} CategoryLinesStep(rows: seq<Row>, excluded: bool, categories: seq<Category>, k: nat)
    requires k < |categories|
    ensures var own, before := Filter(InCategory(categories[k], excluded), rows),
      CategoryLines(rows, excluded, categories[..k]);
      CategoryLines(rows, excluded, categories[..k + 1]) == if |own| == 0 then before
        else before + [Line(categories[k], TotalsOf(own))]
  {
    assert categories[..k + 1][..k] == categories[..k];
  }

  method LinesInOrder(
      categories: seq<Category>, buckets: map<Category, Bucket>, ghost rows: seq<Row>, ghost excluded: bool)
    returns (lines: seq<Line>)
    requires Matches(buckets, rows, excluded)
    ensures lines == CategoryLines(rows, excluded, categories)
  {
    lines := [];
    for k := 0 to |categories|
      invariant lines == CategoryLines(rows, excluded, categories[..k])
    {
      var c := categories[k];
      CategoryLinesStep(rows, excluded, categories, k);
      assert CategoryRight(buckets, c, rows, excluded);
      if c in buckets {
        lines := lines + [Line(c, buckets[c].Value())];
      }
    }
    assert categories[..|categories|] == categories;
  }

  method OrderedCategories(
      buckets: map<Category, Bucket>, ghost rows: seq<Row>, ghost excluded: bool)
    returns (lines: seq<Line>)
    requires Matches(buckets, rows, excluded)
    ensures lines == CategoryLines(rows, excluded, CATEGORIES)
  {
    lines := LinesInOrder(CATEGORIES, buckets, rows, excluded);
  }

  /** What one more row adds to the rows selected by p. */
  ghost predicate Grows(p: Row -> bool, rows: seq<Row>, k: nat)
    requires k < |rows|
  {
    && (|Filter(p, rows[..k + 1])| > 0 <==> p(rows[k]) || |Filter(p, rows[..k])| > 0)
    && TotalsOf(Filter(p, rows[..k + 1])) ==
       if p(rows[k]) then WithRow(TotalsOf(Filter(p, rows[..k])), rows[k]) else TotalsOf(Filter(p, rows[..k]))
  }

  lemma {:induction false} TotalsOneMore(rows: seq<Row>, x: Row)
    ensures TotalsOf(rows + [x]) == WithRow(TotalsOf(rows), x)
  {
    assert (rows + [x])[..|rows|] == rows;
  }

  lemma {:induction false} FilterGrows(p: Row -> bool, rows: seq<Row>, k: nat)
    requires k < |rows|
    ensures Grows(p, rows, k)
  {
    var before := Filter(p, rows[..k]);
    assert rows[..k + 1] == rows[..k] + [rows[k]];
    FilterAppend(p, rows[..k], [rows[k]]);
    if p(rows[k]) {
      assert Filter(p, [rows[k]]) == [rows[k]];
      assert Filter(p, rows[..k + 1]) == before + [rows[k]];
      TotalsOneMore(before, rows[k]);
    } else {
      assert Filter(p, [rows[k]]) == [];
      assert Filter(p, rows[..k + 1]) == before;
    }
  }

  /** Books the k-th row, which belongs to these buckets. */
  method Book(buckets: map<Category, Bucket>, rows: seq<Row>, k: nat) returns (r: map<Category, Bucket>)
    requires k < |rows| && rows[k].status == Validee
    requires Matches(buckets, rows[..k], rows[k].excludedFromOperatingCost)
    modifies buckets.Values
    ensures Matches(r, rows[..k + 1], rows[k].excludedFromOperatingCost)
    ensures fresh(r.Values - buckets.Values)
  {
    ghost var x, own := rows[k].excludedFromOperatingCost, rows[k].category;
    assert CategoryRight(buckets, own, rows[..k], x);
    r := AddToCategory(buckets, rows[k]);
    assert OneBucketEach(r);
    FilterGrows(InCategory(own, x), rows, k);
    assert CategoryRight(r, own, rows[..k + 1], x);
    ghost var after := rows[..k + 1];
    forall c ensures CategoryRight(r, c, after, x) {
      assert c != own ==> old(CategoryRight(buckets, c, rows[..k], x));
      FilterGrows(InCategory(c, x), rows, k);
    }
  }

  /** The totals of the rows p selects among the first k. */
  function FirstTotals(p: Row -> bool, rows: seq<Row>, k: nat): Totals
    requires k <= |rows|
  {
    if k == 0 then ZERO
    else if p(rows[k - 1]) then WithRow(FirstTotals(p, rows, k - 1), rows[k - 1])
    else FirstTotals(p, rows, k - 1)
  }

  method BookExcluded(
      excluded: Bucket, buckets: map<Category, Bucket>, rows: seq<Row>, k: nat)
    returns (r: map<Category, Bucket>)
    requires k < |rows| && Excluded()(rows[k]) && excluded !in buckets.Values
    requires excluded.Value() == FirstTotals(Excluded(), rows, k) && Matches(buckets, rows[..k], true)
    modifies excluded, buckets.Values
    ensures excluded.Value() == FirstTotals(Excluded(), rows, k + 1) && Matches(r, rows[..k + 1], true)
    ensures fresh(r.Values - buckets.Values)
  {
    excluded.Add(rows[k]);
    r := Book(buckets, rows, k);
  }

  method BookOperating(operating: Bucket, unallocated: Bucket, buckets: map<Category, Bucket>, rows: seq<Row>, k: nat)
    returns (r: map<Category, Bucket>)
    requires k < |rows| && Operating()(rows[k])
    requires operating != unallocated && operating !in buckets.Values && unallocated !in buckets.Values
    requires operating.Value() == FirstTotals(Operating(), rows, k) && Matches(buckets, rows[..k], false)
    requires unallocated.Value() == FirstTotals(Unallocated(), rows, k)
    modifies operating, unallocated, buckets.Values
    ensures operating.Value() == FirstTotals(Operating(), rows, k + 1) && Matches(r, rows[..k + 1], false)
    ensures unallocated.Value() == FirstTotals(Unallocated(), rows, k + 1)
    ensures fresh(r.Values - buckets.Values)
  {
    operating.Add(rows[k]);
    r := Book(buckets, rows, k);
    if rows[k].vehicleId.None? {
      unallocated.Add(rows[k]);
    }
  }

  /** A row that does not belong to these buckets leaves them right. */
  lemma {:induction false} Unaffected(buckets: map<Category, Bucket>, rows: seq<Row>, k: nat, excluded: bool)
    requires k < |rows| && Matches(buckets, rows[..k], excluded)
    requires rows[k].status != Validee || rows[k].excludedFromOperatingCost != excluded
    ensures Matches(buckets, rows[..k + 1], excluded)
  {
    var before, after := rows[..k], rows[..k + 1];
    forall c ensures CategoryRight(buckets, c, after, excluded) {
      assert CategoryRight(buckets, c, before, excluded);
      FilterGrows(InCategory(c, excluded), rows, k);
    }
  }

  lemma {:induction false} SelectedNone(p: Row -> bool, rows: seq<Row>)
    ensures TotalsOf(Filter(p, rows[..0])) == ZERO
  {
    assert rows[..0] == [];
  }

  lemma {:induction false} SelectedOneMore(p: Row -> bool, rows: seq<Row>, k: nat, before: Totals)
    requires k < |rows| && before == TotalsOf(Filter(p, rows[..k]))
    ensures TotalsOf(Filter(p, rows[..k + 1])) == if p(rows[k]) then WithRow(before, rows[k]) else before
  {
    FilterGrows(p, rows, k);
  }

  lemma {:induction false} FirstTotalsAre(p: Row -> bool, rows: seq<Row>, k: nat)
    requires k <= |rows|
    ensures FirstTotals(p, rows, k) == TotalsOf(Filter(p, rows[..k]))
    decreases k
  {
    if k == 0 {
      SelectedNone(p, rows);
    } else {
      FirstTotalsAre(p, rows, k - 1);
      SelectedOneMore(p, rows, k - 1, FirstTotals(p, rows, k - 1));
    }
  }

  lemma {:induction false} AllTotals(p: Row -> bool, rows: seq<Row>)
    ensures FirstTotals(p, rows, |rows|) == TotalsOf(Filter(p, rows))
  {
    FirstTotalsAre(p, rows, |rows|);
    assert rows[..|rows|] == rows;
  }

  /** No bucket plays two parts. */
  ghost predicate Apart(
      operating: Bucket, unallocated: Bucket, excluded: Bucket, own: set<Bucket>, excludedOwn: set<Bucket>) {
    && operating != unallocated && operating != excluded && unallocated != excluded
    && own !! excludedOwn && {operating, unallocated, excluded} !! own + excludedOwn
  }

  method SummarizeLedger(rows: seq<Row>) returns (s: Summary)
    ensures s == SummaryOf(rows)
  {
    var operating := new Bucket();
    var unallocated := new Bucket();
    var excluded := new Bucket();
    var byCategory: map<Category, Bucket>, excludedByCategory: map<Category, Bucket> := map[], map[];
    for k := 0 to |rows|
      invariant fresh({operating, unallocated, excluded}) && fresh(byCategory.Values) &&
        fresh(excludedByCategory.Values)
      invariant Apart(operating, unallocated, excluded, byCategory.Values, excludedByCategory.Values)
      invariant operating.Value() == FirstTotals(Operating(), rows, k)
      invariant unallocated.Value() == FirstTotals(Unallocated(), rows, k)
      invariant excluded.Value() == FirstTotals(Excluded(), rows, k)
      invariant Matches(byCategory, rows[..k], false)
      invariant Matches(excludedByCategory, rows[..k], true)
    {
      if rows[k].status != Validee {
        Unaffected(byCategory, rows, k, false);
        Unaffected(excludedByCategory, rows, k, true);
        continue;
      }
      if rows[k].excludedFromOperatingCost {
        Unaffected(byCategory, rows, k, false);
        excludedByCategory := BookExcluded(excluded, excludedByCategory, rows, k);
        assert Matches(byCategory, rows[..k + 1], false);
        assert Apart(operating, unallocated, excluded, byCategory.Values, excludedByCategory.Values);
        continue;
      }
      Unaffected(excludedByCategory, rows, k, true);
      byCategory := BookOperating(operating, unallocated, byCategory, rows, k);
      assert Matches(excludedByCategory, rows[..k + 1], true);
    }
    assert rows[..|rows|] == rows;
    AllTotals(Operating(), rows);
    AllTotals(Unallocated(), rows);
    AllTotals(Excluded(), rows);
    var lines := OrderedCategories(byCategory, rows, false);
    var excludedLines := OrderedCategories(excludedByCategory, rows, true);
    s := Summary(lines, operating.Value(), unallocated.Value(), excluded.Value(), excludedLines);
  }

  // ---------------------------------------------------------------- conservation

  lemma {:induction false} TotalsOfNone(rows: seq<Row>)
    requires |rows| == 0
    ensures TotalsOf(rows) == ZERO
  {
  }

  lemma {:induction false} SumWithRow(t: Totals, a: Totals, b: Totals, x: Row)
    requires Sum(t, a, b)
    ensures Sum(WithRow(t, x), a, WithRow(b, x))
  {
  }

  lemma {:induction false} AppendOneMore(a: seq<Row>, b: seq<Row>, x: Row)
    requires Sum(TotalsOf(a + b), TotalsOf(a), TotalsOf(b))
    ensures Sum(TotalsOf((a + b) + [x]), TotalsOf(a), TotalsOf(b + [x]))
  {
    TotalsOneMore(a + b, x);
    TotalsOneMore(b, x);
    SumWithRow(TotalsOf(a + b), TotalsOf(a), TotalsOf(b), x);
  }

  lemma {:induction false} TotalsAppend(a: seq<Row>, b: seq<Row>)
    ensures Sum(TotalsOf(a + b), TotalsOf(a), TotalsOf(b))
    decreases |b|
  {
    if |b| == 0 {
      assert a + b == a;
      TotalsOfNone(b);
    } else {
      var init, x := b[..|b| - 1], b[|b| - 1];
      TotalsAppend(a, init);
      AppendOneMore(a, init, x);
      assert b == init + [x];
      assert a + b == (a + init) + [x];
    }
  }

  /** In every bucket the net is the expenses minus the credits. */
  lemma {:induction false} NetIsDifference(rows: seq<Row>)
    ensures TotalsOf(rows).net == TotalsOf(rows).expenses - TotalsOf(rows).credits
    ensures TotalsOf(rows).net == NetAmount(rows)
  {
    if |rows| == 0 {
    } else {
      NetIsDifference(rows[..|rows| - 1]);
    }
  }

  /** p selects what q or r selects, and q and r select nothing in common. */
  ghost predicate Partitioned(rows: seq<Row>, p: Row -> bool, q: Row -> bool, r: Row -> bool) {
    forall x :: x in rows ==> p(x) == (q(x) || r(x)) && !(q(x) && r(x))
  }

  lemma {:induction false} PartitionStep(tp: Totals, tq: Totals, tr: Totals, x: Row, inQ: bool, inR: bool)
    requires Sum(tp, tq, tr) && !(inQ && inR)
    ensures Sum(if inQ || inR then WithRow(tp, x) else tp, if inQ then WithRow(tq, x) else tq,
      if inR then WithRow(tr, x) else tr)
  {
  }

  lemma {:induction false} TotalsPartitionUpTo(rows: seq<Row>, n: nat, p: Row -> bool, q: Row -> bool, r: Row -> bool)
    requires n <= |rows| && Partitioned(rows, p, q, r)
    ensures Sum(FirstTotals(p, rows, n), FirstTotals(q, rows, n), FirstTotals(r, rows, n))
    decreases n
  {
    if n == 0 {
    } else {
      var x := rows[n - 1];
      TotalsPartitionUpTo(rows, n - 1, p, q, r);
      assert x in rows;
      PartitionStep(FirstTotals(p, rows, n - 1), FirstTotals(q, rows, n - 1), FirstTotals(r, rows, n - 1), x, q(x),
        r(x));
    }
  }

  /** Rows selected by p are those selected by q and those selected by r, which exclude each other. */
  lemma {:induction false} TotalsPartition(rows: seq<Row>, p: Row -> bool, q: Row -> bool, r: Row -> bool)
    requires Partitioned(rows, p, q, r)
    ensures Sum(TotalsOf(Filter(p, rows)), TotalsOf(Filter(q, rows)), TotalsOf(Filter(r, rows)))
  {
    TotalsPartitionUpTo(rows, |rows|, p, q, r);
    AllTotals(p, rows);
    AllTotals(q, rows);
    AllTotals(r, rows);
  }

  /** Nothing is lost: operating and excluded nets add up to the net of the validated rows. */
  lemma {:induction false} MoneyConserved(rows: seq<Row>)
    ensures var s := SummaryOf(rows);
      && s.operating.net + s.excluded.net == NetAmount(Filter(Counted(), rows))
      && s.operating.net == s.operating.expenses - s.operating.credits
      && s.unallocated.net == s.unallocated.expenses - s.unallocated.credits
      && s.excluded.net == s.excluded.expenses - s.excluded.credits
  {
    TotalsPartition(rows, Counted(), Operating(), Excluded());
    NetIsDifference(Filter(Counted(), rows));
    NetIsDifference(Filter(Operating(), rows));
    NetIsDifference(Filter(Unallocated(), rows));
    NetIsDifference(Filter(Excluded(), rows));
  }

  function LinesTotal(lines: seq<Line>): Totals {
    if |lines| == 0 then ZERO
    else
      var t, l := LinesTotal(lines[..|lines| - 1]), lines[|lines| - 1].totals;
      Totals(t.expenses + l.expenses, t.credits + l.credits, t.net + l.net, t.count + l.count)
  }

  /** The rows of some of the categories. */
  function AmongCategories(categories: seq<Category>, excluded: bool): Row -> bool {
    (r: Row) => r.status == Validee && r.excludedFromOperatingCost == excluded && r.category in categories
  }

  ghost predicate Distinct(categories: seq<Category>) {
    forall i, j :: 0 <= i < j < |categories| ==> categories[i] != categories[j]
  }

  lemma {:induction false} NoCategories(rows: seq<Row>, excluded: bool, categories: seq<Category>)
    requires |categories| == 0
    ensures LinesTotal(CategoryLines(rows, excluded, categories)) == ZERO
    ensures TotalsOf(Filter(AmongCategories(categories, excluded), rows)) == ZERO
  {
    FilterNone(AmongCategories(categories, excluded), rows);
  }

  lemma {:induction false} OneMoreCategory(rows: seq<Row>, excluded: bool, before: seq<Category>, c: Category)
    requires c !in before
    ensures Sum(TotalsOf(Filter(AmongCategories(before + [c], excluded), rows)),
      TotalsOf(Filter(AmongCategories(before, excluded), rows)), TotalsOf(Filter(InCategory(c, excluded), rows)))
  {
    TotalsPartition(rows, AmongCategories(before + [c], excluded), AmongCategories(before, excluded),
      InCategory(c, excluded));
  }

  lemma {:induction false} LinesTotalOneMore(lines: seq<Line>, c: Category, own: seq<Row>)
    ensures Sum(LinesTotal(if |own| == 0 then lines else lines + [Line(c, TotalsOf(own))]), LinesTotal(lines),
      TotalsOf(own))
  {
    if |own| > 0 {
      assert (lines + [Line(c, TotalsOf(own))])[..|lines|] == lines;
    } else {
      assert TotalsOf(own) == ZERO;
    }
  }

  lemma {:induction false} SumUnique(t: Totals, u: Totals, a: Totals, b: Totals)
    requires Sum(t, a, b) && Sum(u, a, b)
    ensures t == u
  {
  }

  /** The lines of the categories have the totals of the rows in them. */
  ghost predicate LinesMatch(rows: seq<Row>, excluded: bool, categories: seq<Category>) {
    LinesTotal(CategoryLines(rows, excluded, categories))
      == TotalsOf(Filter(AmongCategories(categories, excluded), rows))
  }

  lemma {:induction false} LinesOneMore(rows: seq<Row>, excluded: bool, before: seq<Category>, c: Category)
    requires c !in before && LinesMatch(rows, excluded, before)
    ensures LinesMatch(rows, excluded, before + [c])
  {
    var all, own := before + [c], Filter(InCategory(c, excluded), rows);
    var lines, longer := CategoryLines(rows, excluded, before), CategoryLines(rows, excluded, all);
    assert Sum(LinesTotal(longer), LinesTotal(lines), TotalsOf(own)) by {
      assert all[..|before|] == before && all[..|all|] == all;
      CategoryLinesStep(rows, excluded, all, |before|);
      LinesTotalOneMore(lines, c, own);
    }
    OneMoreCategory(rows, excluded, before, c);
    SumUnique(LinesTotal(longer), TotalsOf(Filter(AmongCategories(all, excluded), rows)), LinesTotal(lines),
      TotalsOf(own));
  }

  lemma {:induction false} LinesAddUp(rows: seq<Row>, excluded: bool, categories: seq<Category>, k: nat)
    requires Distinct(categories) && k <= |categories|
    ensures LinesMatch(rows, excluded, categories[..k])
    decreases k
  {
    if k == 0 {
      NoCategories(rows, excluded, categories[..0]);
    } else {
      LinesAddUp(rows, excluded, categories, k - 1);
      assert categories[..k] == categories[..k - 1] + [categories[k - 1]];
      LinesOneMore(rows, excluded, categories[..k - 1], categories[k - 1]);
    }
  }

  lemma {:induction false} EveryCategoryListed(c: Category)
    ensures c in CATEGORIES
  {
    match c
    case EntretienReparation => assert CATEGORIES[0] == c;
    case Carburant => assert CATEGORIES[1] == c;
    case Assurance => assert CATEGORIES[2] == c;
    case Location => assert CATEGORIES[3] == c;
    case Taxes => assert CATEGORIES[4] == c;
    case Peage => assert CATEGORIES[5] == c;
    case Stationnement => assert CATEGORIES[6] == c;
    case AchatVehicule => assert CATEGORIES[7] == c;
    case Autre => assert CATEGORIES[8] == c;
  }

  /** The operating cost is the sum of its categories, and so is the excluded one. */
  lemma {:induction false} CategoriesAddUp(rows: seq<Row>)
    ensures var s := SummaryOf(rows);
      LinesTotal(s.byCategory) == s.operating && LinesTotal(s.excludedByCategory) == s.excluded
  {
    LinesAddUp(rows, false, CATEGORIES, |CATEGORIES|);
    LinesAddUp(rows, true, CATEGORIES, |CATEGORIES|);
    assert CATEGORIES[..|CATEGORIES|] == CATEGORIES;
    forall r | r in rows
      ensures AmongCategories(CATEGORIES, false)(r) == Operating()(r) &&
        AmongCategories(CATEGORIES, true)(r) == Excluded()(r)
    {
      EveryCategoryListed(r.category);
    }
    FilterAgree(AmongCategories(CATEGORIES, false), Operating(), rows);
    FilterAgree(AmongCategories(CATEGORIES, true), Excluded(), rows);
  }

  // ---------------------------------------------------------------- the summary, row by row

  /** Sums over the rows of a kind: credits apart, each row counting once or as often as it says. */
  ghost function Booked(rows: seq<Row>, which: Row -> bool): Totals {
    if |rows| == 0 then Totals(0.0, 0.0, 0.0, 0)
    else
      var r, rest := rows[0], Booked(rows[1..], which);
      var count := if r.count.Some? then r.count.value else 1;
      if !which(r) then rest
      else if r.kind == Avoir then
        Totals(rest.expenses, rest.credits + r.amount, rest.net - r.amount, rest.count + count)
      else
        Totals(rest.expenses + r.amount, rest.credits, rest.net + r.amount, rest.count + count)
  }

  lemma {:induction false} BookedOneMore(rows: seq<Row>, x: Row, which: Row -> bool)
    ensures Booked(rows + [x], which) == if which(x) then WithRow(Booked(rows, which), x) else Booked(rows, which)
  {
    if |rows| == 0 {
      assert rows + [x] == [x] && [x][1..] == [];
    } else {
      BookedOneMore(rows[1..], x, which);
      assert (rows + [x])[1..] == rows[1..] + [x];
    }
  }

  lemma {:induction false} FirstTotalsAreBooked(p: Row -> bool, which: Row -> bool, rows: seq<Row>, k: nat)
    requires k <= |rows| && forall r :: r in rows ==> p(r) == which(r)
    ensures FirstTotals(p, rows, k) == Booked(rows[..k], which)
    decreases k
  {
    if k > 0 {
      FirstTotalsAreBooked(p, which, rows, k - 1);
      BookedOneMore(rows[..k - 1], rows[k - 1], which);
      assert rows[..k] == rows[..k - 1] + [rows[k - 1]] && rows[k - 1] in rows;
    }
  }

  /** The totals of the rows a bucket is for are the sums over these rows. */
  lemma {:induction false} TotalsAreBooked(p: Row -> bool, which: Row -> bool, rows: seq<Row>)
    requires forall r :: r in rows ==> p(r) == which(r)
    ensures TotalsOf(Filter(p, rows)) == Booked(rows, which)
  {
    AllTotals(p, rows);
    FirstTotalsAreBooked(p, which, rows, |rows|);
    assert rows[..|rows|] == rows;
  }

  /** The four sums of the summary: only validated rows count, each in the operating or the excluded cost. */
  lemma {:induction false} BucketsMean(rows: seq<Row>)
    ensures var s := SummaryOf(rows);
      && s.operating == Booked(rows, (r: Row) => r.status == Validee && !r.excludedFromOperatingCost)
      && s.unallocated ==
        Booked(rows, (r: Row) => r.status == Validee && !r.excludedFromOperatingCost && r.vehicleId.None?)
      && s.excluded == Booked(rows, (r: Row) => r.status == Validee && r.excludedFromOperatingCost)
  {
    TotalsAreBooked(Operating(), (r: Row) => r.status == Validee && !r.excludedFromOperatingCost, rows);
    TotalsAreBooked(Unallocated(),
      (r: Row) => r.status == Validee && !r.excludedFromOperatingCost && r.vehicleId.None?, rows);
    TotalsAreBooked(Excluded(), (r: Row) => r.status == Validee && r.excludedFromOperatingCost, rows);
  }

  /** The row belongs to the line of a category, in the operating or the excluded cost. */
  ghost predicate Belongs(r: Row, c: Category, excluded: bool) {
    r.status == Validee && r.category == c && r.excludedFromOperatingCost == excluded
  }

  ghost function BelongsTo(c: Category, excluded: bool): Row -> bool { (r: Row) => Belongs(r, c, excluded) }

  /** The line of a category that has rows, with their sums. */
  ghost predicate IsLine(line: Line, rows: seq<Row>, excluded: bool) {
    && (exists r :: r in rows && Belongs(r, line.category, excluded))
    && line.totals == Booked(rows, BelongsTo(line.category, excluded))
  }

  lemma {:induction false} CategoryHasRows(rows: seq<Row>, c: Category, excluded: bool)
    ensures |Filter(InCategory(c, excluded), rows)| > 0 <==> exists r :: r in rows && Belongs(r, c, excluded)
    ensures TotalsOf(Filter(InCategory(c, excluded), rows)) == Booked(rows, BelongsTo(c, excluded))
  {
    var own := Filter(InCategory(c, excluded), rows);
    FilterMembers(InCategory(c, excluded), rows);
    if |own| > 0 {
      assert own[0] in own;
    }
    TotalsAreBooked(InCategory(c, excluded), BelongsTo(c, excluded), rows);
  }

  lemma {:induction false} LinesUpTo(rows: seq<Row>, excluded: bool, categories: seq<Category>, k: nat, line: Line)
    requires k <= |categories|
    ensures line in CategoryLines(rows, excluded, categories[..k]) <==>
      line.category in categories[..k] && IsLine(line, rows, excluded)
    decreases k
  {
    if k > 0 {
      LinesUpTo(rows, excluded, categories, k - 1, line);
      CategoryLinesStep(rows, excluded, categories, k - 1);
      CategoryHasRows(rows, categories[k - 1], excluded);
      assert categories[..k] == categories[..k - 1] + [categories[k - 1]];
    }
  }

  /** The summary has a line for each category with rows, and no other. */
  lemma {:induction false} LinesMean(rows: seq<Row>, line: Line)
    ensures line in SummaryOf(rows).byCategory <==> IsLine(line, rows, false)
    ensures line in SummaryOf(rows).excludedByCategory <==> IsLine(line, rows, true)
  {
    EveryCategoryListed(line.category);
    assert CATEGORIES[..|CATEGORIES|] == CATEGORIES;
    LinesUpTo(rows, false, CATEGORIES, |CATEGORIES|, line);
    LinesUpTo(rows, true, CATEGORIES, |CATEGORIES|, line);
  }

  /** The place of a category in the summary. */
  ghost function PlaceOf(c: Category): nat {
    match c
    case EntretienReparation => 0
    case Carburant => 1
    case Assurance => 2
    case Location => 3
    case Taxes => 4
    case Peage => 5
    case Stationnement => 6
    case AchatVehicule => 7
    case Autre => 8
  }

  ghost predicate InPlace(lines: seq<Line>, below: nat) {
    && (forall i :: 0 <= i < |lines| ==> PlaceOf(lines[i].category) < below)
    && (forall i, j :: 0 <= i < j < |lines| ==> PlaceOf(lines[i].category) < PlaceOf(lines[j].category))
  }

  /** Each category stands at its place. */
  ghost predicate Ranked(categories: seq<Category>) {
    forall k :: 0 <= k < |categories| ==> PlaceOf(categories[k]) == k
  }

  lemma {:induction false} CategoriesAreRanked()
    ensures Ranked(CATEGORIES) && |CATEGORIES| == 9
  {
  }

  lemma {:induction false} InPlaceOneMore(lines: seq<Line>, line: Line, below: nat)
    requires InPlace(lines, below) && PlaceOf(line.category) == below
    ensures InPlace(lines + [line], below + 1) && InPlace(lines, below + 1)
  {
  }

  lemma {:induction false} NextInPlace(rows: seq<Row>, excluded: bool, categories: seq<Category>, k: nat)
    requires k < |categories| && Ranked(categories) && InPlace(CategoryLines(rows, excluded, categories[..k]), k)
    ensures InPlace(CategoryLines(rows, excluded, categories[..k + 1]), k + 1)
  {
    CategoryLinesStep(rows, excluded, categories, k);
    InPlaceOneMore(CategoryLines(rows, excluded, categories[..k]),
      Line(categories[k], TotalsOf(Filter(InCategory(categories[k], excluded), rows))), k);
  }

  lemma {:induction false} LinesInPlace(rows: seq<Row>, excluded: bool, categories: seq<Category>, k: nat)
    requires k <= |categories| && Ranked(categories)
    ensures InPlace(CategoryLines(rows, excluded, categories[..k]), k)
    decreases k
  {
    if k > 0 {
      LinesInPlace(rows, excluded, categories, k - 1);
      NextInPlace(rows, excluded, categories, k - 1);
    }
  }

  /** The lines stand in the order of the categories. */
  lemma {:induction false} LinesInTheirOrder(rows: seq<Row>)
    ensures InPlace(SummaryOf(rows).byCategory, 9) && InPlace(SummaryOf(rows).excludedByCategory, 9)
  {
    CategoriesAreRanked();
    assert CATEGORIES[..9] == CATEGORIES;
    LinesInPlace(rows, false, CATEGORIES, 9);
    LinesInPlace(rows, true, CATEGORIES, 9);
  }

  // ---------------------------------------------------------------- order of rows and aggregation

  /** Taking the i-th row out. */
  function Without(b: seq<Row>, i: nat): seq<Row>
    requires i < |b|
  {
    b[..i] + b[i + 1..]
  }

  lemma {:induction false} TotalsOfOne(x: Row)
    ensures TotalsOf([x]) == OfRow(x)
  {
    assert [x][..0] == [];
  }

  lemma {:induction false} RowAside(all: Totals, l: Totals, xr: Totals, x: Row, r: Totals, lr: Totals)
    requires Sum(all, l, xr) && Sum(xr, OfRow(x), r) && Sum(lr, l, r)
    ensures all == WithRow(lr, x)
  {
  }

  lemma {:induction false} TotalsAround(l: seq<Row>, x: Row, r: seq<Row>)
    ensures TotalsOf(l + ([x] + r)) == WithRow(TotalsOf(l + r), x)
  {
    TotalsAppend(l, [x] + r);
    TotalsAppend([x], r);
    TotalsAppend(l, r);
    TotalsOfOne(x);
    RowAside(TotalsOf(l + ([x] + r)), TotalsOf(l), TotalsOf([x] + r), x, TotalsOf(r), TotalsOf(l + r));
  }

  lemma {:induction false} TakeOut(b: seq<Row>, i: nat)
    requires i < |b|
    ensures TotalsOf(b) == WithRow(TotalsOf(Without(b, i)), b[i])
  {
    var l, r := b[..i], b[i + 1..];
    assert b == l + ([b[i]] + r);
    TotalsAround(l, b[i], r);
  }

  lemma {:induction false} TakeOutMultiset(b: seq<Row>, i: nat)
    requires i < |b|
    ensures multiset(Without(b, i)) == multiset(b) - multiset{b[i]}
  {
    assert b == b[..i] + ([b[i]] + b[i + 1..]);
  }

  lemma {:induction false} TotalsPermute(a: seq<Row>, b: seq<Row>)
    requires multiset(a) == multiset(b)
    ensures TotalsOf(a) == TotalsOf(b)
  {
    SameElements(a, b);
    if |a| == 0 {
    } else {
      var n := |a| - 1;
      assert a[n] in b;
      var i :| 0 <= i < |b| && b[i] == a[n];
      TakeOut(a, n);
      TakeOut(b, i);
      TakeOutMultiset(a, n);
      TakeOutMultiset(b, i);
      assert Without(a, n) == a[..n];
      TotalsPermute(a[..n], Without(b, i));
    }
  }

  lemma {:induction false} FilterPermute(p: Row -> bool, a: seq<Row>, b: seq<Row>)
    requires multiset(a) == multiset(b)
    ensures multiset(Filter(p, a)) == multiset(Filter(p, b))
    ensures TotalsOf(Filter(p, a)) == TotalsOf(Filter(p, b))
    ensures |Filter(p, a)| == |Filter(p, b)|
  {
    forall x ensures multiset(Filter(p, a))[x] == multiset(Filter(p, b))[x] {
      FilterCounts(p, a, x);
      FilterCounts(p, b, x);
    }
    TotalsPermute(Filter(p, a), Filter(p, b));
    SameElements(Filter(p, a), Filter(p, b));
  }

  /** Two ledgers select alike when, for every bucket, they have rows or not and the same totals. */
  ghost predicate SelectAlike(a: seq<Row>, b: seq<Row>, p: Row -> bool) {
    TotalsOf(Filter(p, a)) == TotalsOf(Filter(p, b)) && (|Filter(p, a)| == 0 <==> |Filter(p, b)| == 0)
  }

  lemma {:induction false} LinesAlikeOneMore(
      a: seq<Row>, b: seq<Row>, excluded: bool, categories: seq<Category>, k: nat)
    requires k < |categories| && SelectAlike(a, b, InCategory(categories[k], excluded))
    requires CategoryLines(a, excluded, categories[..k]) == CategoryLines(b, excluded, categories[..k])
    ensures CategoryLines(a, excluded, categories[..k + 1]) == CategoryLines(b, excluded, categories[..k + 1])
  {
    CategoryLinesStep(a, excluded, categories, k);
    CategoryLinesStep(b, excluded, categories, k);
  }

  lemma {:induction false} LinesAlikeUpTo(a: seq<Row>, b: seq<Row>, excluded: bool, categories: seq<Category>, k: nat)
    requires k <= |categories| && forall c :: c in categories ==> SelectAlike(a, b, InCategory(c, excluded))
    ensures CategoryLines(a, excluded, categories[..k]) == CategoryLines(b, excluded, categories[..k])
    decreases k
  {
    if k == 0 {
    } else {
      LinesAlikeUpTo(a, b, excluded, categories, k - 1);
      assert categories[k - 1] in categories;
      LinesAlikeOneMore(a, b, excluded, categories, k - 1);
    }
  }

  lemma {:induction false} LinesAlike(a: seq<Row>, b: seq<Row>, excluded: bool, categories: seq<Category>)
    requires forall c :: c in categories ==> SelectAlike(a, b, InCategory(c, excluded))
    ensures CategoryLines(a, excluded, categories) == CategoryLines(b, excluded, categories)
  {
    LinesAlikeUpTo(a, b, excluded, categories, |categories|);
    assert categories[..|categories|] == categories;
  }

  /** The summary does not depend on the order of the rows. */
  lemma {:induction false} RowOrderIrrelevant(a: seq<Row>, b: seq<Row>)
    requires multiset(a) == multiset(b)
    ensures SummaryOf(a) == SummaryOf(b)
  {
    forall c, x ensures SelectAlike(a, b, InCategory(c, x)) {
      FilterPermute(InCategory(c, x), a, b);
    }
    LinesAlike(a, b, false, CATEGORIES);
    LinesAlike(a, b, true, CATEGORIES);
    FilterPermute(Operating(), a, b);
    FilterPermute(Unallocated(), a, b);
    FilterPermute(Excluded(), a, b);
  }

  /** Rows a report may add up in the database: same category, kind, status, allocation and exclusion. */
  predicate SameClass(a: Row, b: Row) {
    && a.category == b.category && a.kind == b.kind && a.status == b.status
    && a.vehicleId.None? == b.vehicleId.None? && a.excludedFromOperatingCost == b.excludedFromOperatingCost
  }

  function AmountOf(rows: seq<Row>): real {
    if |rows| == 0 then 0.0 else AmountOf(rows[..|rows| - 1]) + rows[|rows| - 1].amount
  }

  function CountOf(rows: seq<Row>): nat {
    if |rows| == 0 then 0 else CountOf(rows[..|rows| - 1]) + RowCount(rows[|rows| - 1])
  }

  lemma {:induction false} ClassTotals(rows: seq<Row>, one: Row)
    requires forall r :: r in rows ==> SameClass(r, one)
    requires one.amount == AmountOf(rows) && one.count == Some(CountOf(rows))
    ensures TotalsOf(rows) == OfRow(one)
  {
    if |rows| == 0 {
    } else {
      var n := |rows| - 1;
      var before := one.(amount := AmountOf(rows[..n]), count := Some(CountOf(rows[..n])));
      assert forall r :: r in rows[..n] ==> r in rows;
      assert rows[n] in rows;
      ClassTotals(rows[..n], before);
    }
  }

  lemma {:induction false} AggregateSelected(group: seq<Row>, one: Row, p: Row -> bool)
    requires |group| > 0 && forall r :: r in group ==> SameClass(r, one) && p(r) == p(one)
    requires one.amount == AmountOf(group) && one.count == Some(CountOf(group))
    ensures SelectAlike(group, [one], p)
  {
    assert Filter(p, [one]) == if p(one) then [one] else [];
    if p(one) {
      FilterAll(p, group);
      ClassTotals(group, one);
      assert [one][..0] == [];
    } else {
      FilterNone(p, group);
    }
  }

  lemma {:induction false} AggregateSelects(group: seq<Row>, one: Row, others: seq<Row>, p: Row -> bool)
    requires |group| > 0 && forall r :: r in group ==> SameClass(r, one) && p(r) == p(one)
    requires one.amount == AmountOf(group) && one.count == Some(CountOf(group))
    ensures SelectAlike(group + others, [one] + others, p)
  {
    AggregateSelected(group, one, p);
    FilterAppend(p, group, others);
    FilterAppend(p, [one], others);
    TotalsAppend(Filter(p, group), Filter(p, others));
    TotalsAppend(Filter(p, [one]), Filter(p, others));
  }

  /** Replacing rows of one class by one row with their sum and count leaves the summary as it was. */
  lemma {:induction false} AggregationIsExact(rows: seq<Row>, group: seq<Row>, one: Row, others: seq<Row>)
    requires multiset(rows) == multiset(group + others)
    requires |group| > 0 && forall r :: r in group ==> SameClass(r, one)
    requires one.amount == AmountOf(group) && one.count == Some(CountOf(group))
    ensures SummaryOf(rows) == SummaryOf([one] + others)
  {
    var a, b := group + others, [one] + others;
    RowOrderIrrelevant(rows, a);
    forall c, x ensures SelectAlike(a, b, InCategory(c, x)) {
      AggregateSelects(group, one, others, InCategory(c, x));
    }
    LinesAlike(a, b, false, CATEGORIES);
    LinesAlike(a, b, true, CATEGORIES);
    AggregateSelects(group, one, others, Operating());
    AggregateSelects(group, one, others, Unallocated());
    AggregateSelects(group, one, others, Excluded());
  }
}
