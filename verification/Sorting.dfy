/**
 The library sort of the modelled program (`Array.prototype.sort` on a fresh copy), written as a stable
 insertion sort, with the laws the other modules use: the result is ordered, is a permutation, keeps tied
 elements in place, is unique when ties are equal, and commutes with filtering and concatenation.
 A comparator is given as "a may stand before b", that is, compare(a, b) <= 0.
 */
module Sorting {
  ghost predicate TotalPreorder<T(!new)>(le: (T, T) -> bool) {
    && (forall x, y :: le(x, y) || le(y, x))
    && (forall x, y, z :: le(x, y) && le(y, z) ==> le(x, z))
  }

  ghost predicate Sorted<T>(le: (T, T) -> bool, s: seq<T>) {
    forall i, j :: 0 <= i < j < |s| ==> le(s[i], s[j])
  }

  /** No two different elements are tied. */
  ghost predicate TiesAreEqual<T(!new)>(le: (T, T) -> bool, s: seq<T>) {
    forall x, y :: x in s && y in s && le(x, y) && le(y, x) ==> x == y
  }

  function Insert<T>(le: (T, T) -> bool, x: T, s: seq<T>): (r: seq<T>)
    ensures |r| == |s| + 1
  {
    if |s| == 0 || le(x, s[0]) then [x] + s else [s[0]] + Insert(le, x, s[1..])
  }

  function Sort<T>(le: (T, T) -> bool, s: seq<T>): (r: seq<T>)
    ensures |r| == |s|
  {
    if |s| == 0 then [] else Insert(le, s[0], Sort(le, s[1..]))
  }

  function Filter<T>(p: T -> bool, s: seq<T>): (r: seq<T>)
    ensures |r| <= |s|
  {
    if |s| == 0 then []
    else if p(s[0]) then [s[0]] + Filter(p, s[1..])
    else Filter(p, s[1..])
  }

  /** Left-biased merge of two sequences. */
  function Merge<T>(le: (T, T) -> bool, a: seq<T>, b: seq<T>): (r: seq<T>)
    ensures |r| == |a| + |b|
  {
    if |a| == 0 then b
    else if |b| == 0 then a
    else if le(a[0], b[0]) then [a[0]] + Merge(le, a[1..], b)
    else [b[0]] + Merge(le, a, b[1..])
  }

  function Take<T>(n: nat, s: seq<T>): seq<T> {
    if n <= |s| then s[..n] else s
  }

  // ---------------------------------------------------------------- permutation and order

  lemma {:induction false} InsertPermutes<T>(le: (T, T) -> bool, x: T, s: seq<T>)
    ensures multiset(Insert(le, x, s)) == multiset{x} + multiset(s)
  {
    if |s| == 0 || le(x, s[0]) {
      assert multiset([x] + s) == multiset{x} + multiset(s);
    } else {
      InsertPermutes(le, x, s[1..]);
      assert s == [s[0]] + s[1..];
    }
  }

  lemma {:induction false} SortPermutes<T>(le: (T, T) -> bool, s: seq<T>)
    ensures multiset(Sort(le, s)) == multiset(s)
  {
    if |s| == 0 {
    } else {
      SortPermutes(le, s[1..]);
      InsertPermutes(le, s[0], Sort(le, s[1..]));
      assert s == [s[0]] + s[1..];
    }
  }

  lemma {:induction false} SameElements<T>(a: seq<T>, b: seq<T>)
    requires multiset(a) == multiset(b)
    ensures |a| == |b|
    ensures forall x :: x in a <==> x in b
  {
    assert |multiset(a)| == |multiset(b)|;
    forall x ensures x in a <==> x in b {
      assert x in a <==> x in multiset(a);
      assert x in b <==> x in multiset(b);
    }
  }

  lemma {:induction false} SortMembers<T>(le: (T, T) -> bool, s: seq<T>)
    ensures forall x :: x in Sort(le, s) <==> x in s
  {
    SortPermutes(le, s);
    SameElements(Sort(le, s), s);
  }

  lemma {:induction false} InsertSorted<T(!new)>(le: (T, T) -> bool, x: T, s: seq<T>)
    requires TotalPreorder(le) && Sorted(le, s)
    ensures Sorted(le, Insert(le, x, s))
  {
    if |s| == 0 {
    } else if le(x, s[0]) {
      forall j | 0 <= j < |s| ensures le(x, s[j]) {
        assert j == 0 || le(s[0], s[j]);
      }
    } else {
      InsertSorted(le, x, s[1..]);
      var t := Insert(le, x, s[1..]);
      InsertPermutes(le, x, s[1..]);
      forall j | 0 <= j < |t| ensures le(s[0], t[j]) {
        assert t[j] in multiset(t);
        assert t[j] == x || t[j] in s[1..];
      }
    }
  }

  lemma {:induction false} SortSorted<T(!new)>(le: (T, T) -> bool, s: seq<T>)
    requires TotalPreorder(le)
    ensures Sorted(le, Sort(le, s))
  {
    if |s| == 0 {
    } else {
      SortSorted(le, s[1..]);
      InsertSorted(le, s[0], Sort(le, s[1..]));
    }
  }

  lemma {:induction false} SortedIsFixed<T>(le: (T, T) -> bool, s: seq<T>)
    requires Sorted(le, s)
    ensures Sort(le, s) == s
  {
    if |s| == 0 {
    } else {
      SortedIsFixed(le, s[1..]);
      assert |s| > 1 ==> le(s[0], s[1]);
      assert s == [s[0]] + s[1..];
    }
  }

  lemma {:induction false} SortedHeads<T(!new)>(le: (T, T) -> bool, a: seq<T>, b: seq<T>)
    requires Sorted(le, a) && Sorted(le, b) && |a| > 0 && |b| > 0
    requires forall x :: le(x, x)
    requires a[0] in b && b[0] in a && TiesAreEqual(le, a)
    ensures a[0] == b[0]
  {
    var i :| 0 <= i < |a| && a[i] == b[0];
    var j :| 0 <= j < |b| && b[j] == a[0];
    assert le(a[0], a[i]);
    assert le(b[0], b[j]);
  }

  lemma {:induction false} MultisetTail<T>(s: seq<T>)
    requires |s| > 0
    ensures multiset(s[1..]) == multiset(s) - multiset{s[0]}
  {
    assert s == [s[0]] + s[1..];
  }

  lemma {:induction false} EqualHeads<T(!new)>(le: (T, T) -> bool, a: seq<T>, b: seq<T>)
    requires Sorted(le, a) && Sorted(le, b) && |a| > 0
    requires forall x :: le(x, x)
    requires multiset(a) == multiset(b) && TiesAreEqual(le, a)
    ensures |b| > 0 && a[0] == b[0] && multiset(a[1..]) == multiset(b[1..])
  {
    SameElements(a, b);
    assert a[0] in b && b[0] in a;
    SortedHeads(le, a, b);
    MultisetTail(a);
    MultisetTail(b);
  }

  lemma {:induction false} TiesInTail<T(!new)>(le: (T, T) -> bool, s: seq<T>)
    requires |s| > 0 && TiesAreEqual(le, s)
    ensures TiesAreEqual(le, s[1..])
  {
    assert forall x :: x in s[1..] ==> x in s;
  }

  /** Two ordered arrangements of the same elements are equal when ties are. */
  lemma {:induction false} SortedUnique<T(!new)>(le: (T, T) -> bool, a: seq<T>, b: seq<T>)
    requires Sorted(le, a) && Sorted(le, b)
    requires forall x :: le(x, x)
    requires multiset(a) == multiset(b) && TiesAreEqual(le, a)
    ensures a == b
  {
    SameElements(a, b);
    if |a| == 0 {
    } else {
      EqualHeads(le, a, b);
      TiesInTail(le, a);
      SortedUnique(le, a[1..], b[1..]);
      assert a == [a[0]] + a[1..] && b == [b[0]] + b[1..];
    }
  }

  /** The order in which the elements arrive does not matter when ties are equal. */
  lemma {:induction false} SortIgnoresOrder<T(!new)>(le: (T, T) -> bool, a: seq<T>, b: seq<T>)
    requires TotalPreorder(le)
    requires multiset(a) == multiset(b) && TiesAreEqual(le, a)
    ensures Sort(le, a) == Sort(le, b)
  {
    SortSorted(le, a);
    SortSorted(le, b);
    SortPermutes(le, a);
    SortPermutes(le, b);
    SameElements(Sort(le, a), a);
    SortedUnique(le, Sort(le, a), Sort(le, b));
  }

  // ---------------------------------------------------------------- filtering and stability

  lemma {:induction false} FilterMember<T>(p: T -> bool, s: seq<T>, x: T)
    ensures x in Filter(p, s) <==> x in s && p(x)
  {
    if |s| == 0 {
    } else {
      FilterMember(p, s[1..], x);
      assert s == [s[0]] + s[1..];
    }
  }

  lemma {:induction false} FilterMembers<T>(p: T -> bool, s: seq<T>)
    ensures forall x :: x in Filter(p, s) <==> x in s && p(x)
  {
    forall x ensures x in Filter(p, s) <==> x in s && p(x) {
      FilterMember(p, s, x);
    }
  }

  lemma {:induction false} FilterCounts<T>(p: T -> bool, s: seq<T>, x: T)
    ensures multiset(Filter(p, s))[x] == if p(x) then multiset(s)[x] else 0
  {
    if |s| == 0 {
    } else {
      FilterCounts(p, s[1..], x);
      assert s == [s[0]] + s[1..];
    }
  }

  lemma {:induction false} FilterAppend<T>(p: T -> bool, a: seq<T>, b: seq<T>)
    ensures Filter(p, a + b) == Filter(p, a) + Filter(p, b)
  {
    if |a| == 0 {
      assert a + b == b;
    } else {
      var head := if p(a[0]) then [a[0]] else [];
      calc {
        Filter(p, a + b);
        { assert (a + b)[0] == a[0] && (a + b)[1..] == a[1..] + b; }
        head + Filter(p, a[1..] + b);
        { FilterAppend(p, a[1..], b); }
        head + (Filter(p, a[1..]) + Filter(p, b));
        (head + Filter(p, a[1..])) + Filter(p, b);
        Filter(p, a) + Filter(p, b);
      }
    }
  }

  lemma {:induction false} FilterAll<T>(p: T -> bool, s: seq<T>)
    requires forall x :: x in s ==> p(x)
    ensures Filter(p, s) == s
  {
    if |s| == 0 {
    } else {
      assert forall x :: x in s[1..] ==> x in s;
      FilterAll(p, s[1..]);
      assert s[0] in s && s == [s[0]] + s[1..];
    }
  }

  lemma {:induction false} FilterNone<T>(p: T -> bool, s: seq<T>)
    requires forall x :: x in s ==> !p(x)
    ensures Filter(p, s) == []
  {
    if |s| == 0 {
    } else {
      assert forall x :: x in s[1..] ==> x in s;
      FilterNone(p, s[1..]);
      assert s[0] in s;
    }
  }

  lemma {:induction false} FilterAgree<T>(p: T -> bool, q: T -> bool, s: seq<T>)
    requires forall x :: x in s ==> p(x) == q(x)
    ensures Filter(p, s) == Filter(q, s)
  {
    if |s| == 0 {
    } else {
      assert forall x :: x in s[1..] ==> x in s;
      FilterAgree(p, q, s[1..]);
      assert s[0] in s;
    }
  }

  /** A list that holds nothing twice has different elements at different positions. */
  lemma {:induction false} OnceEach<T(!new)>(s: seq<T>, i: nat, j: nat)
    requires i < j < |s| && forall x :: multiset(s)[x] <= 1
    ensures s[i] != s[j]
  {
    assert s == s[..j] + [s[j]] + s[j + 1..];
    assert multiset(s) == multiset(s[..j]) + multiset{s[j]} + multiset(s[j + 1..]);
    assert multiset(s)[s[j]] == multiset(s[..j])[s[j]] + multiset{s[j]}[s[j]] + multiset(s[j + 1..])[s[j]];
    assert s[..j][i] == s[i] && s[i] in multiset(s[..j]);
  }

  lemma {:induction false} FilterSorted<T>(le: (T, T) -> bool, p: T -> bool, s: seq<T>)
    requires Sorted(le, s)
    ensures Sorted(le, Filter(p, s))
  {
    if |s| == 0 {
    } else {
      FilterSorted(le, p, s[1..]);
      FilterMembers(p, s[1..]);
      var t := Filter(p, s[1..]);
      forall j | 0 <= j < |t| ensures le(s[0], t[j]) {
        var x := t[j];
        FilterMember(p, s[1..], x);
        var i :| 1 <= i < |s| && s[i] == x;
      }
    }
  }

  lemma {:induction false} FilterInsert<T(!new)>(le: (T, T) -> bool, p: T -> bool, x: T, s: seq<T>)
    requires TotalPreorder(le) && Sorted(le, s)
    ensures Filter(p, Insert(le, x, s)) == if p(x) then Insert(le, x, Filter(p, s)) else Filter(p, s)
  {
    if |s| == 0 {
    } else if le(x, s[0]) {
      assert ([x] + s)[1..] == s;
      FilterMembers(p, s);
      if |Filter(p, s)| != 0 {
        assert Filter(p, s)[0] in Filter(p, s);
        var i :| 0 <= i < |s| && s[i] == Filter(p, s)[0];
        assert le(x, s[i]);
      }
    } else {
      FilterInsert(le, p, x, s[1..]);
      assert ([s[0]] + Insert(le, x, s[1..]))[1..] == Insert(le, x, s[1..]);
      var f := Filter(p, s[1..]);
      if p(s[0]) {
        assert ([s[0]] + f)[1..] == f;
      } else if p(x) {
        assert Filter(p, s) == f;
      }
    }
  }

  /** Sorting and filtering may be done in either order. */
  lemma {:induction false} SortFilter<T(!new)>(le: (T, T) -> bool, p: T -> bool, s: seq<T>)
    requires TotalPreorder(le)
    ensures Filter(p, Sort(le, s)) == Sort(le, Filter(p, s))
  {
    if |s| == 0 {
    } else {
      var rest := Sort(le, s[1..]);
      SortFilter(le, p, s[1..]);
      SortSorted(le, s[1..]);
      FilterInsert(le, p, s[0], rest);
      var f := Filter(p, s[1..]);
      if p(s[0]) {
        assert Filter(p, s) == [s[0]] + f && ([s[0]] + f)[1..] == f;
        assert Sort(le, [s[0]] + f) == Insert(le, s[0], Sort(le, f));
      } else {
        assert Filter(p, s) == f;
      }
    }
  }

  /** Stability: elements tied with one another come out in the order they came in. */
  lemma {:induction false} SortStable<T(!new)>(le: (T, T) -> bool, p: T -> bool, s: seq<T>)
    requires TotalPreorder(le)
    requires forall x, y :: x in s && y in s && p(x) && p(y) ==> le(x, y)
    ensures Filter(p, Sort(le, s)) == Filter(p, s)
  {
    SortFilter(le, p, s);
    FilterMembers(p, s);
    SortedIsFixed(le, Filter(p, s));
  }

  // ---------------------------------------------------------------- concatenation and prefixes

  lemma {:induction false} InsertMerge<T(!new)>(le: (T, T) -> bool, x: T, a: seq<T>, b: seq<T>)
    requires TotalPreorder(le)
    ensures Insert(le, x, Merge(le, a, b)) == Merge(le, Insert(le, x, a), b)
    decreases |a| + |b|
  {
    var m, ia := Merge(le, a, b), Insert(le, x, a);
    if |b| == 0 {
    } else if |a| == 0 {
      assert [x][1..] == [];
      if !le(x, b[0]) {
        InsertMerge(le, x, a, b[1..]);
      }
    } else if le(x, a[0]) {
      assert ([x] + a)[1..] == a;
      if !le(x, b[0]) {
        assert !le(a[0], b[0]);
        assert m[1..] == Merge(le, a, b[1..]);
        InsertMerge(le, x, a, b[1..]);
      }
    } else {
      assert ia[1..] == Insert(le, x, a[1..]);
      if le(a[0], b[0]) {
        assert m[1..] == Merge(le, a[1..], b);
        InsertMerge(le, x, a[1..], b);
      } else {
        assert m[1..] == Merge(le, a, b[1..]);
        InsertMerge(le, x, a, b[1..]);
      }
    }
  }

  /** Sorting a concatenation is merging the sorted parts. */
  lemma {:induction false} SortAppend<T(!new)>(le: (T, T) -> bool, a: seq<T>, b: seq<T>)
    requires TotalPreorder(le)
    ensures Sort(le, a + b) == Merge(le, Sort(le, a), Sort(le, b))
  {
    if |a| == 0 {
      assert a + b == b;
    } else {
      SortAppend(le, a[1..], b);
      assert (a + b)[1..] == a[1..] + b;
      InsertMerge(le, a[0], Sort(le, a[1..]), Sort(le, b));
    }
  }

  lemma {:induction false} TakeCons<T>(n: nat, x: T, s: seq<T>)
    requires n > 0
    ensures Take(n, [x] + s) == [x] + Take(n - 1, s)
  {
  }

  lemma {:induction false} TakeLess<T>(n: nat, a: seq<T>, b: seq<T>)
    requires n > 0 && |a| > 0 && |b| > 0 && Take(n, a) == Take(n, b)
    ensures Take(n - 1, a) == Take(n - 1, b)
    ensures Take(n - 1, a[1..]) == Take(n - 1, b[1..])
  {
    var t := Take(n, a);
    assert Take(n - 1, a) == Take(n - 1, t) == Take(n - 1, b);
    assert Take(n - 1, a[1..]) == t[1..] == Take(n - 1, b[1..]);
  }

  /** The first n elements of a merge depend only on the first n elements of its parts. */
  lemma {:induction false} MergePrefix<T>(le: (T, T) -> bool, n: nat, a: seq<T>, b: seq<T>, a': seq<T>, b': seq<T>)
    requires Take(n, a) == Take(n, a') && Take(n, b) == Take(n, b')
    ensures Take(n, Merge(le, a, b)) == Take(n, Merge(le, a', b'))
    decreases |a| + |b|
  {
    if n == 0 {
    } else if |a| == 0 || |b| == 0 {
      assert |a| == 0 ==> |Take(n, a')| == 0;
      assert |b| == 0 ==> |Take(n, b')| == 0;
    } else {
      assert |Take(n, a)| > 0 && |Take(n, b)| > 0;
      assert a[0] == Take(n, a)[0] == a'[0] && b[0] == Take(n, b)[0] == b'[0];
      TakeLess(n, a, a');
      TakeLess(n, b, b');
      if le(a[0], b[0]) {
        MergePrefix(le, n - 1, a[1..], b, a'[1..], b');
        TakeCons(n, a[0], Merge(le, a[1..], b));
        TakeCons(n, a[0], Merge(le, a'[1..], b'));
      } else {
        MergePrefix(le, n - 1, a, b[1..], a', b'[1..]);
        TakeCons(n, b[0], Merge(le, a, b[1..]));
        TakeCons(n, b[0], Merge(le, a', b'[1..]));
      }
    }
  }

  // ---------------------------------------------------------------- the order of identifiers

  /** Identifiers are compared as strings, character by character. */
  predicate StringLe(a: string, b: string) {
    if |a| == 0 then true
    else if |b| == 0 then false
    else a[0] < b[0] || (a[0] == b[0] && StringLe(a[1..], b[1..]))
  }

  lemma {:induction false} StringLeTotal(a: string, b: string)
    ensures StringLe(a, b) || StringLe(b, a)
  {
    if |a| == 0 || |b| == 0 {
    } else {
      StringLeTotal(a[1..], b[1..]);
    }
  }

  lemma {:induction false} StringLeTransitive(a: string, b: string, c: string)
    requires StringLe(a, b) && StringLe(b, c)
    ensures StringLe(a, c)
  {
    if |a| != 0 && a[0] == b[0] == c[0] {
      StringLeTransitive(a[1..], b[1..], c[1..]);
    }
  }

  lemma {:induction false} StringLeAntisymmetric(a: string, b: string)
    requires StringLe(a, b) && StringLe(b, a)
    ensures a == b
  {
    if |a| == 0 {
    } else {
      StringLeAntisymmetric(a[1..], b[1..]);
      assert a == [a[0]] + a[1..] && b == [b[0]] + b[1..];
    }
  }

  lemma {:induction false} StringOrder()
    ensures forall a, b :: StringLe(a, b) || StringLe(b, a)
    ensures forall a, b, c :: StringLe(a, b) && StringLe(b, c) ==> StringLe(a, c)
    ensures forall a, b :: StringLe(a, b) && StringLe(b, a) ==> a == b
  {
    forall a, b ensures StringLe(a, b) || StringLe(b, a) {
      StringLeTotal(a, b);
    }
    forall a, b, c | StringLe(a, b) && StringLe(b, c) ensures StringLe(a, c) {
      StringLeTransitive(a, b, c);
    }
    forall a, b | StringLe(a, b) && StringLe(b, a) ensures a == b {
      StringLeAntisymmetric(a, b);
    }
  }
}
