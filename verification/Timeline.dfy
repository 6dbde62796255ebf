/**
 Merged timeline of several sorted sources, page by page (apps/api/src/domain/vehicle-timeline.ts).
 An entry carries its sort key and whatever the page shows of it.
 */
module Timeline {
  import opened Sorting

  datatype Entry<T> = Entry(occurredAt: int, rank: int, objectId: string, detail: T)

  datatype Order = Asc | Desc

  /** Pages are numbered from 1. */
  datatype Page = Page(page: nat, pageSize: nat)

  predicate AscLe<T>(a: Entry<T>, b: Entry<T>) {
    a.occurredAt < b.occurredAt
    || (a.occurredAt == b.occurredAt && (a.rank < b.rank || (a.rank == b.rank && StringLe(a.objectId, b.objectId))))
  }

  /** compareTimeline(order)(a, b) <= 0 */
  function CompareTimeline<T>(order: Order): (Entry<T>, Entry<T>) -> bool {
    if order.Asc? then (a: Entry<T>, b: Entry<T>) => AscLe(a, b) else (a: Entry<T>, b: Entry<T>) => AscLe(b, a)
  }

  function SourceWindow(page: Page): nat { page.page * page.pageSize }

  function Flat<T>(sources: seq<seq<T>>): seq<T> {
    if |sources| == 0 then [] else sources[0] + Flat(sources[1..])
  }

  /** `slice` stops at the end of the list. */
  function Slice<T>(s: seq<T>, from: nat, to: nat): seq<T> {
    var hi := if to <= |s| then to else |s|;
    if from <= hi then s[from..hi] else []
  }

  /** The number of entries on the pages before. */
  function Skip(page: Page): nat
    requires page.page >= 1
  {
    (page.page - 1) * page.pageSize
  }

  function MergeTimelinePage<T>(sources: seq<seq<Entry<T>>>, order: Order, page: Page): seq<Entry<T>>
    requires page.page >= 1
  {
    Slice(Sort(CompareTimeline(order), Flat(sources)), Skip(page), Skip(page) + page.pageSize)
  }

  /** What a source hands over: its first n entries. */
  function Windowed<T>(sources: seq<seq<T>>, n: nat): seq<seq<T>> {
    seq(|sources|, k requires 0 <= k < |sources| => Take(n, sources[k]))
  }

  ghost predicate AllSorted<T>(sources: seq<seq<Entry<T>>>, order: Order) {
    forall k :: 0 <= k < |sources| ==> Sorted(CompareTimeline(order), sources[k])
  }

  lemma {:induction false} TimelineOrder<T(!new)>(order: Order)
    ensures TotalPreorder(CompareTimeline<T>(order))
  {
    StringOrder();
  }

  // ---------------------------------------------------------------- windows

  /** Sorting everything and sorting only the first n entries of each source agree on the first n. */
  lemma {:induction false} WindowPrefix<T(!new)>(sources: seq<seq<Entry<T>>>, order: Order, n: nat)
    requires AllSorted(sources, order)
    ensures var le := CompareTimeline(order);
      Take(n, Sort(le, Flat(sources))) == Take(n, Sort(le, Flat(Windowed(sources, n))))
  {
    var le := CompareTimeline(order);
    if |sources| == 0 {
    } else {
      var head, tail := sources[0], sources[1..];
      var head', tail' := Take(n, head), Windowed(tail, n);
      assert Windowed(sources, n)[1..] == tail';
      assert AllSorted(tail, order) by {
        forall k | 0 <= k < |tail| ensures Sorted(le, tail[k]) { assert tail[k] == sources[k + 1]; }
      }
      WindowPrefix(tail, order, n);
      TimelineOrder<T>(order);
      SortAppend(le, head, Flat(tail));
      SortAppend(le, head', Flat(tail'));
      SortedIsFixed(le, head);
      SortedIsFixed(le, head');
      assert Take(n, head') == head';
      MergePrefix(le, n, head, Sort(le, Flat(tail)), head', Sort(le, Flat(tail')));
    }
  }

  lemma {:induction false} PageEnd(page: Page)
    requires page.page >= 1
    ensures Skip(page) + page.pageSize == SourceWindow(page)
  {
  }

  lemma {:induction false} SliceOfTake<T>(s: seq<T>, from: nat, to: nat)
    requires from <= to
    ensures Slice(s, from, to) == Slice(Take(to, s), from, to)
  {
  }

  lemma {:induction false} WindowSlice<T(!new)>(sources: seq<seq<Entry<T>>>, order: Order, skip: nat, size: nat, n: nat)
    requires AllSorted(sources, order) && skip + size == n
    ensures var le := CompareTimeline(order);
      Slice(Sort(le, Flat(Windowed(sources, n))), skip, skip + size)
        == Slice(Sort(le, Flat(sources)), skip, skip + size)
  {
    var le := CompareTimeline(order);
    WindowPrefix(sources, order, n);
    SliceOfTake(Sort(le, Flat(sources)), skip, n);
    SliceOfTake(Sort(le, Flat(Windowed(sources, n))), skip, n);
  }

  /** A page computed from the windows of the sources is the page of the full timeline. */
  lemma {:induction false} WindowedPageIsExact<T(!new)>(sources: seq<seq<Entry<T>>>, order: Order, page: Page)
    requires page.page >= 1 && AllSorted(sources, order)
    ensures MergeTimelinePage(Windowed(sources, SourceWindow(page)), order, page)
      == MergeTimelinePage(sources, order, page)
  {
    PageEnd(page);
    WindowSlice(sources, order, Skip(page), page.pageSize, SourceWindow(page));
  }

  // ---------------------------------------------------------------- the order of a page

  /** a happened before b; at one instant the lower rank comes first, and then the lower identifier. */
  ghost predicate Precedes<T>(a: Entry<T>, b: Entry<T>) {
    || a.occurredAt < b.occurredAt
    || (a.occurredAt == b.occurredAt && a.rank < b.rank)
    || (a.occurredAt == b.occurredAt && a.rank == b.rank && StringLe(a.objectId, b.objectId))
  }

  lemma {:induction false} SortedTimeline<T(!new)>(all: seq<Entry<T>>, order: Order, i: nat, j: nat)
    requires i < j < |all|
    ensures |Sort(CompareTimeline(order), all)| == |all|
    ensures var s := Sort(CompareTimeline(order), all);
      if order.Asc? then Precedes(s[i], s[j]) else Precedes(s[j], s[i])
  {
    TimelineOrder<T>(order);
    SortSorted(CompareTimeline(order), all);
    SortPermutes(CompareTimeline(order), all);
    assert |multiset(Sort(CompareTimeline(order), all))| == |all|;
    var s := Sort(CompareTimeline(order), all);
    assert CompareTimeline(order)(s[i], s[j]);
  }

  /** The entries of a page are those that far down the sorted timeline, and no others. */
  lemma {:induction false} PageIsCut<T(!new)>(sources: seq<seq<Entry<T>>>, order: Order, page: Page)
    requires page.page >= 1
    ensures var s, r := Sort(CompareTimeline(order), Flat(sources)), MergeTimelinePage(sources, order, page);
      var before := (page.page - 1) * page.pageSize;
      && |r| == (if |s| <= before then 0 else if |s| < before + page.pageSize then |s| - before else page.pageSize)
      && forall i :: 0 <= i < |r| ==> r[i] == s[before + i]
  {
  }

  /** Ascending pages go from earlier to later entries, descending pages from later to earlier ones. */
  lemma {:induction false} PageIsOrdered<T(!new)>(
      sources: seq<seq<Entry<T>>>, order: Order, page: Page, i: nat, j: nat)
    requires page.page >= 1 && i < j < |MergeTimelinePage(sources, order, page)|
    ensures var r := MergeTimelinePage(sources, order, page);
      if order.Asc? then Precedes(r[i], r[j]) else Precedes(r[j], r[i])
  {
    var before := (page.page - 1) * page.pageSize;
    PageIsCut(sources, order, page);
    SortedTimeline(Flat(sources), order, before + i, before + j);
  }

  // ---------------------------------------------------------------- pages put end to end

  /** The first n pages, each asked of the sources with its own window. */
  function Pages<T>(sources: seq<seq<Entry<T>>>, order: Order, pageSize: nat, n: nat): seq<Entry<T>> {
    if n == 0 then []
    else
      var page := Page(n, pageSize);
      Pages(sources, order, pageSize, n - 1) + MergeTimelinePage(Windowed(sources, SourceWindow(page)), order, page)
  }

  lemma {:induction false} TakeThenSlice<T>(s: seq<T>, from: nat, to: nat)
    requires from <= to
    ensures Take(from, s) + Slice(s, from, to) == Take(to, s)
  {
  }

  lemma {:induction false} PagesArePrefix<T(!new)>(sources: seq<seq<Entry<T>>>, order: Order, pageSize: nat, n: nat)
    requires AllSorted(sources, order)
    ensures Pages(sources, order, pageSize, n) == Take(n * pageSize, Sort(CompareTimeline(order), Flat(sources)))
  {
    if n == 0 {
    } else {
      PagesArePrefix(sources, order, pageSize, n - 1);
      WindowedPageIsExact(sources, order, Page(n, pageSize));
      PageEnd(Page(n, pageSize));
      TakeThenSlice(Sort(CompareTimeline(order), Flat(sources)), (n - 1) * pageSize, n * pageSize);
    }
  }

  /** Enough pages give the whole sorted timeline: nothing lost, repeated or out of order. */
  lemma {:induction false} PagesCoverTimeline<T(!new)>(sources: seq<seq<Entry<T>>>, order: Order, pageSize: nat, n: nat)
    requires AllSorted(sources, order) && n * pageSize >= |Flat(sources)|
    ensures Pages(sources, order, pageSize, n) == Sort(CompareTimeline(order), Flat(sources))
    ensures Sorted(CompareTimeline(order), Pages(sources, order, pageSize, n))
    ensures multiset(Pages(sources, order, pageSize, n)) == multiset(Flat(sources))
  {
    PagesArePrefix(sources, order, pageSize, n);
    TimelineOrder<T>(order);
    SortSorted(CompareTimeline(order), Flat(sources));
    SortPermutes(CompareTimeline(order), Flat(sources));
  }

  // ---------------------------------------------------------------- the two directions

  function Reversed<T>(s: seq<T>): (r: seq<T>)
    ensures |r| == |s|
    ensures forall k :: 0 <= k < |s| ==> r[k] == s[|s| - 1 - k]
  {
    if |s| == 0 then [] else [s[|s| - 1]] + Reversed(s[..|s| - 1])
  }

  lemma {:induction false} ReversedAppend<T>(a: seq<T>, b: seq<T>)
    ensures Reversed(a + b) == Reversed(b) + Reversed(a)
  {
  }

  lemma {:induction false} FilterSingle<T>(p: T -> bool, x: T)
    ensures Filter(p, [x]) == if p(x) then [x] else []
    ensures Reversed([x]) == [x]
  {
    assert [x][1..] == [];
  }

  lemma {:induction false} FilterReversed<T>(p: T -> bool, s: seq<T>)
    ensures Filter(p, Reversed(s)) == Reversed(Filter(p, s))
    decreases |s|
  {
    if |s| == 0 {
      assert Filter(p, s) == [];
    } else {
      FilterReversed(p, s[1..]);
      assert s == [s[0]] + s[1..];
      ReversedAppend([s[0]], s[1..]);
      FilterAppend(p, Reversed(s[1..]), Reversed([s[0]]));
      FilterSingle(p, s[0]);
      ReversedAppend(if p(s[0]) then [s[0]] else [], Filter(p, s[1..]));
    }
  }

  /** The entries with the key of e. */
  function SameKey<T>(e: Entry<T>): Entry<T> -> bool {
    (x: Entry<T>) => x.occurredAt == e.occurredAt && x.rank == e.rank && x.objectId == e.objectId
  }

  /** Entries with one and the same key read the same in both directions; distinct keys make this so. */
  ghost predicate TiesArePalindromes<T(!new)>(s: seq<Entry<T>>) {
    forall e: Entry<T> :: Filter(SameKey(e), s) == Reversed(Filter(SameKey(e), s))
  }

  lemma {:induction false} FilterHead<T>(p: T -> bool, s: seq<T>)
    requires |s| > 0
    ensures p(s[0]) ==> |Filter(p, s)| > 0 && Filter(p, s)[0] == s[0] && Filter(p, s)[1..] == Filter(p, s[1..])
    ensures !p(s[0]) ==> Filter(p, s) == Filter(p, s[1..])
  {
  }

  lemma {:induction false} HeadsMatch<T(!new)>(order: Order, a: seq<Entry<T>>, b: seq<Entry<T>>)
    requires Sorted(CompareTimeline(order), a) && Sorted(CompareTimeline(order), b) && |a| > 0
    requires forall e: Entry<T> :: Filter(SameKey(e), a) == Filter(SameKey(e), b)
    ensures |b| > 0 && a[0] == b[0]
  {
    var le := CompareTimeline<T>(order);
    StringOrder();
    var p := SameKey(a[0]);
    FilterMember(p, a, a[0]);
    assert Filter(p, a) == Filter(p, b);
    FilterMember(p, b, a[0]);
    var j :| 0 <= j < |b| && b[j] == a[0];
    var q := SameKey(b[0]);
    FilterMember(q, b, b[0]);
    assert Filter(q, a) == Filter(q, b);
    FilterMember(q, a, b[0]);
    var i :| 0 <= i < |a| && a[i] == b[0];
    assert i == 0 || le(a[0], a[i]);
    assert j == 0 || le(b[0], b[j]);
    assert p(b[0]);
    FilterHead(p, a);
    FilterHead(p, b);
  }

  /** An ordered list is determined by what it holds under each key. */
  lemma {:induction false} OrderedByKeys<T(!new)>(order: Order, a: seq<Entry<T>>, b: seq<Entry<T>>)
    requires Sorted(CompareTimeline(order), a) && Sorted(CompareTimeline(order), b)
    requires forall e: Entry<T> :: Filter(SameKey(e), a) == Filter(SameKey(e), b)
    ensures a == b
    decreases |a|
  {
    if |a| == 0 {
      if |b| > 0 {
        HeadsMatch(order, b, a);
      }
    } else {
      HeadsMatch(order, a, b);
      forall e: Entry<T> ensures Filter(SameKey(e), a[1..]) == Filter(SameKey(e), b[1..]) {
        assert Filter(SameKey(e), a) == Filter(SameKey(e), b);
        FilterHead(SameKey(e), a);
        FilterHead(SameKey(e), b);
      }
      OrderedByKeys(order, a[1..], b[1..]);
      assert a == [a[0]] + a[1..] && b == [b[0]] + b[1..];
    }
  }

  /** Sorting keeps what stands under each key, in the order it came. */
  lemma {:induction false} SortKeepsKeys<T(!new)>(order: Order, s: seq<Entry<T>>, e: Entry<T>)
    ensures Filter(SameKey(e), Sort(CompareTimeline(order), s)) == Filter(SameKey(e), s)
  {
    TimelineOrder<T>(order);
    StringOrder();
    SortStable(CompareTimeline(order), SameKey(e), s);
  }

  lemma {:induction false} ReversedIsDescending<T(!new)>(s: seq<Entry<T>>)
    ensures Sorted(CompareTimeline(Desc), Reversed(Sort(CompareTimeline(Asc), s)))
  {
    var asc := Sort(CompareTimeline(Asc), s);
    TimelineOrder<T>(Asc);
    SortSorted(CompareTimeline(Asc), s);
    forall i, j | 0 <= i < j < |asc| ensures CompareTimeline<T>(Desc)(Reversed(asc)[i], Reversed(asc)[j]) {
      assert CompareTimeline<T>(Asc)(asc[|asc| - 1 - j], asc[|asc| - 1 - i]);
    }
  }

  /** "desc" is the exact reverse of "asc" exactly when entries with one key read the same in both directions. */
  lemma {:induction false} DescReversesAsc<T(!new)>(s: seq<Entry<T>>)
    ensures Sort(CompareTimeline(Desc), s) == Reversed(Sort(CompareTimeline(Asc), s)) <==> TiesArePalindromes(s)
  {
    var asc, desc := Sort(CompareTimeline(Asc), s), Sort(CompareTimeline(Desc), s);
    forall e: Entry<T>
      ensures Filter(SameKey(e), desc) == Filter(SameKey(e), s)
      ensures Filter(SameKey(e), Reversed(asc)) == Reversed(Filter(SameKey(e), s))
    {
      SortKeepsKeys(Asc, s, e);
      SortKeepsKeys(Desc, s, e);
      FilterReversed(SameKey(e), asc);
    }
    if TiesArePalindromes(s) {
      ReversedIsDescending(s);
      TimelineOrder<T>(Desc);
      SortSorted(CompareTimeline(Desc), s);
      OrderedByKeys(Desc, desc, Reversed(asc));
    }
  }

  /** No two entries of the list have the same key. */
  ghost predicate DistinctKeys<T>(s: seq<Entry<T>>) {
    forall i, j :: 0 <= i < j < |s| ==> !SameKey(s[i])(s[j])
  }

  lemma {:induction false} AtMostOneUnderKey<T>(s: seq<Entry<T>>, e: Entry<T>)
    requires DistinctKeys(s)
    ensures |Filter(SameKey(e), s)| <= 1
    decreases |s|
  {
    if |s| == 0 {
    } else {
      AtMostOneUnderKey(s[1..], e);
      if SameKey(e)(s[0]) {
        forall x | x in s[1..] ensures !SameKey(e)(x) {
          var i :| 1 <= i < |s| && s[i] == x;
          assert !SameKey(s[0])(s[i]);
        }
        FilterNone(SameKey(e), s[1..]);
      }
    }
  }

  lemma {:induction false} DistinctKeysHaveNoTies<T(!new)>(s: seq<Entry<T>>)
    requires DistinctKeys(s)
    ensures TiesArePalindromes(s)
  {
    forall e: Entry<T> ensures Filter(SameKey(e), s) == Reversed(Filter(SameKey(e), s)) {
      AtMostOneUnderKey(s, e);
    }
  }

  /** In particular on a timeline whose keys are all different. */
  lemma {:induction false} DistinctKeysReverse<T(!new)>(s: seq<Entry<T>>)
    requires DistinctKeys(s)
    ensures Sort(CompareTimeline(Desc), s) == Reversed(Sort(CompareTimeline(Asc), s))
  {
    DistinctKeysHaveNoTies(s);
    DescReversesAsc(s);
  }

  /** Two entries with one key and different details keep their order in both directions. */
  lemma {:induction false} TiesKeepTheirOrder()
    ensures var a, b := Entry(0, 0, "o", 1), Entry(0, 0, "o", 2);
      Sort(CompareTimeline(Asc), [a, b]) == [a, b] == Sort(CompareTimeline(Desc), [a, b]) && Reversed([a, b]) == [b, a]
  {
    var a, b := Entry(0, 0, "o", 1), Entry(0, 0, "o", 2);
    assert [a, b][1..] == [b] && [b][1..] == [];
    StringOrder();
    assert Sort(CompareTimeline<int>(Asc), [b]) == [b] && Sort(CompareTimeline<int>(Desc), [b]) == [b];
  }

  /** One event type per source, so one rank; and one entry per object. */
  ghost predicate OwnSource<T>(source: seq<Entry<T>>, rank: int) {
    && (forall i :: 0 <= i < |source| ==> source[i].rank == rank)
    && (forall i, j :: 0 <= i < j < |source| ==> source[i].objectId != source[j].objectId)
  }

  ghost predicate SourcesApart<T>(sources: seq<seq<Entry<T>>>, ranks: seq<int>) {
    && |ranks| == |sources|
    && (forall k :: 0 <= k < |sources| ==> OwnSource(sources[k], ranks[k]))
    && (forall j, k :: 0 <= j < k < |ranks| ==> ranks[j] != ranks[k])
  }

  lemma {:induction false} RanksOfFlat<T>(sources: seq<seq<Entry<T>>>, ranks: seq<int>, e: Entry<T>)
    requires SourcesApart(sources, ranks) && e in Flat(sources)
    ensures e.rank in ranks
    decreases |sources|
  {
    if |sources| == 0 {
    } else if e in sources[0] {
      var i :| 0 <= i < |sources[0]| && sources[0][i] == e;
      assert OwnSource(sources[0], ranks[0]);
      assert ranks[0] in ranks;
    } else {
      RanksOfFlat(sources[1..], ranks[1..], e);
    }
  }

  lemma {:induction false} KeysOfBoth<T>(a: seq<Entry<T>>, b: seq<Entry<T>>)
    requires DistinctKeys(a) && DistinctKeys(b)
    requires forall i, j :: 0 <= i < |a| && 0 <= j < |b| ==> !SameKey(a[i])(b[j])
    ensures DistinctKeys(a + b)
  {
    var all := a + b;
    forall i, j | 0 <= i < j < |all| ensures !SameKey(all[i])(all[j]) {
      if j < |a| {
        assert all[i] == a[i] && all[j] == a[j];
      } else if i < |a| {
        assert all[i] == a[i] && all[j] == b[j - |a|];
      } else {
        assert all[i] == b[i - |a|] && all[j] == b[j - |a|];
      }
    }
  }

  /** The entries of sources with one event type each, and one entry per object, have distinct keys. */
  lemma {:induction false} SourcesHaveDistinctKeys<T>(sources: seq<seq<Entry<T>>>, ranks: seq<int>)
    requires SourcesApart(sources, ranks)
    ensures DistinctKeys(Flat(sources))
    decreases |sources|
  {
    if |sources| == 0 {
    } else {
      var head, tail := sources[0], Flat(sources[1..]);
      SourcesHaveDistinctKeys(sources[1..], ranks[1..]);
      assert OwnSource(head, ranks[0]);
      forall i, j | 0 <= i < |head| && 0 <= j < |tail| ensures head[i].rank != tail[j].rank {
        RanksOfFlat(sources[1..], ranks[1..], tail[j]);
      }
      KeysOfBoth(head, tail);
    }
  }

  /** So "desc" is the exact reverse of "asc" on the merge of such sources. */
  lemma {:induction false} MergeReverses<T(!new)>(sources: seq<seq<Entry<T>>>, ranks: seq<int>)
    requires SourcesApart(sources, ranks)
    ensures Sort(CompareTimeline(Desc), Flat(sources)) == Reversed(Sort(CompareTimeline(Asc), Flat(sources)))
  {
    SourcesHaveDistinctKeys(sources, ranks);
    DistinctKeysReverse(Flat(sources));
  }
}
