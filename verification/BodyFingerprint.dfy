/**
 The canonical form of a request body (sortKeys in apps/api/src/common/idempotency.service.ts): object keys
 sorted, undefined members dropped, at every depth. Its JSON text, which is hashed, is read back by RFC 8259.
 */
module BodyFingerprint {
  import opened Wrappers
  import opened Sorting

  /** A value as the program holds it: the members of an object have an order. */
  datatype Json =
    | Null
    | Boolean(b: bool)
    | Number(text: string)
    | Text(s: string)
    | Instant(iso: string)
    | Undefined
    | Array(items: seq<Json>)
    | Object(members: seq<Member>)

  datatype Member = Member(key: string, value: Json)

  /** What a value means: an object is a map, without its undefined members. */
  datatype Meaning =
    | Scalar(j: Json)
    | Items(items: seq<Meaning>)
    | Members(members: map<string, Meaning>)

  function ByKey(): (Member, Member) -> bool { (a: Member, b: Member) => StringLe(a.key, b.key) }

  function SortItems(items: seq<Json>): (r: seq<Json>)
    ensures |r| == |items|
    decreases items, 0
  {
    if |items| == 0 then [] else [SortKeys(items[0])] + SortItems(items[1..])
  }

  /** The defined members, their values in canonical form. */
  function SortMembersOf(members: seq<Member>): seq<Member>
    decreases members, 0
  {
    if |members| == 0 then []
    else if members[0].value == Undefined then SortMembersOf(members[1..])
    else [Member(members[0].key, SortKeys(members[0].value))] + SortMembersOf(members[1..])
  }

  function SortKeys(j: Json): Json
    decreases j, 1
  {
    match j
    case Array(items) => Array(SortItems(items))
    case Object(members) => Object(Sort(ByKey(), SortMembersOf(members)))
    case _ => j
  }

  function MeaningOfItems(items: seq<Json>): (r: seq<Meaning>)
    ensures |r| == |items|
    decreases items, 0
  {
    if |items| == 0 then [] else [MeaningOf(items[0])] + MeaningOfItems(items[1..])
  }

  function MeaningOfMembers(members: seq<Member>): map<string, Meaning>
    decreases members, 0
  {
    if |members| == 0 then map[]
    else if members[0].value == Undefined then MeaningOfMembers(members[1..])
    else MeaningOfMembers(members[1..])[members[0].key := MeaningOf(members[0].value)]
  }

  function MeaningOf(j: Json): Meaning
    decreases j, 1
  {
    match j
    case Array(items) => Items(MeaningOfItems(items))
    case Object(members) => Members(MeaningOfMembers(members))
    case _ => Scalar(j)
  }

  predicate DistinctKeys(members: seq<Member>) {
    forall i, j :: 0 <= i < j < |members| ==> members[i].key != members[j].key
  }

  predicate AllItemsWellFormed(items: seq<Json>)
    decreases items, 0
  {
    |items| == 0 || (WellFormed(items[0]) && AllItemsWellFormed(items[1..]))
  }

  predicate AllMembersWellFormed(members: seq<Member>)
    decreases members, 0
  {
    |members| == 0 || (WellFormed(members[0].value) && AllMembersWellFormed(members[1..]))
  }

  /** An object has each key once, at every depth. */
  predicate WellFormed(j: Json)
    decreases j, 1
  {
    match j
    case Array(items) => AllItemsWellFormed(items)
    case Object(members) => DistinctKeys(members) && AllMembersWellFormed(members)
    case _ => true
  }

  // ---------------------------------------------------------------- the canonical form keeps the meaning

  lemma {:induction false} MeaningOfCons(x: Member, s: seq<Member>)
    ensures MeaningOfMembers([x] + s) == if x.value == Undefined then MeaningOfMembers(s)
      else MeaningOfMembers(s)[x.key := MeaningOf(x.value)]
  {
    assert ([x] + s)[1..] == s;
  }

  lemma {:induction false} MeaningOfSwap(x: Member, y: Member, s: seq<Member>)
    requires x.key != y.key
    ensures MeaningOfMembers([x] + ([y] + s)) == MeaningOfMembers([y] + ([x] + s))
  {
    MeaningOfCons(x, s);
    MeaningOfCons(y, s);
    MeaningOfCons(x, [y] + s);
    MeaningOfCons(y, [x] + s);
  }

  lemma {:induction false} MeaningOfInsert(x: Member, s: seq<Member>)
    requires DistinctKeys(s) && forall m :: m in s ==> m.key != x.key
    ensures MeaningOfMembers(Insert(ByKey(), x, s)) == MeaningOfMembers([x] + s)
    decreases |s|
  {
    if |s| > 0 && !ByKey()(x, s[0]) {
      assert forall m :: m in s[1..] ==> m in s;
      MeaningOfInsert(x, s[1..]);
      assert s == [s[0]] + s[1..] && s[0] in s;
      MeaningOfSwap(x, s[0], s[1..]);
      MeaningOfCons(s[0], Insert(ByKey(), x, s[1..]));
      MeaningOfCons(s[0], [x] + s[1..]);
    }
  }

  lemma {:induction false} InsertDistinct(x: Member, s: seq<Member>)
    requires DistinctKeys(s) && forall m :: m in s ==> m.key != x.key
    ensures DistinctKeys(Insert(ByKey(), x, s))
    decreases |s|
  {
    if |s| > 0 && !ByKey()(x, s[0]) {
      assert forall m :: m in s[1..] ==> m in s;
      InsertDistinct(x, s[1..]);
      var r := Insert(ByKey(), x, s[1..]);
      InsertPermutes(ByKey(), x, s[1..]);
      forall j | 0 <= j < |r| ensures r[j].key != s[0].key {
        assert r[j] in multiset(r);
        assert r[j] == x || r[j] in s[1..];
        assert s[0] in s;
        if r[j] != x {
          var i :| 1 <= i < |s| && s[i] == r[j];
        }
      }
    }
  }

  lemma {:induction false} MeaningOfSorted(s: seq<Member>)
    requires DistinctKeys(s)
    ensures MeaningOfMembers(Sort(ByKey(), s)) == MeaningOfMembers(s)
    ensures DistinctKeys(Sort(ByKey(), s))
    decreases |s|
  {
    if |s| == 0 {
    } else {
      var rest := Sort(ByKey(), s[1..]);
      MeaningOfSorted(s[1..]);
      SortMembers(ByKey(), s[1..]);
      forall m | m in rest ensures m.key != s[0].key {
        var i :| 1 <= i < |s| && s[i] == m;
      }
      MeaningOfInsert(s[0], rest);
      InsertDistinct(s[0], rest);
      assert ([s[0]] + rest)[1..] == rest;
    }
  }

  lemma {:induction false} SortItemsKeepsMeaning(items: seq<Json>)
    requires AllItemsWellFormed(items)
    ensures MeaningOfItems(SortItems(items)) == MeaningOfItems(items)
    decreases items, 0
  {
    if |items| == 0 {
    } else {
      SortKeysKeepsMeaning(items[0]);
      SortItemsKeepsMeaning(items[1..]);
      assert SortItems(items)[1..] == SortItems(items[1..]);
    }
  }

  lemma {:induction false} NeverUndefined(j: Json)
    requires j != Undefined
    ensures SortKeys(j) != Undefined
  {
  }

  lemma {:induction false} SortMembersKeepsMeaning(members: seq<Member>)
    requires DistinctKeys(members) && AllMembersWellFormed(members)
    ensures MeaningOfMembers(SortMembersOf(members)) == MeaningOfMembers(members)
    ensures DistinctKeys(SortMembersOf(members))
    ensures forall m :: m in SortMembersOf(members) ==> m.value != Undefined && exists n ::
      n in members && n.key == m.key
    decreases members, 0
  {
    if |members| == 0 {
    } else {
      var rest := SortMembersOf(members[1..]);
      SortMembersKeepsMeaning(members[1..]);
      assert forall n :: n in members[1..] ==> n in members;
      if members[0].value != Undefined {
        SortKeysKeepsMeaning(members[0].value);
        NeverUndefined(members[0].value);
        var r := SortMembersOf(members);
        assert r[1..] == rest;
        assert members[0] in members;
        forall m | m in rest ensures m.key != members[0].key {
          var n :| n in members[1..] && n.key == m.key;
          var i :| 1 <= i < |members| && members[i] == n;
        }
      }
    }
  }

  lemma {:induction false} SortKeysKeepsMeaning(j: Json)
    requires WellFormed(j)
    ensures MeaningOf(SortKeys(j)) == MeaningOf(j)
    decreases j, 1
  {
    match j
    case Array(items) => SortItemsKeepsMeaning(items);
    case Object(members) =>
      SortMembersKeepsMeaning(members);
      MeaningOfSorted(SortMembersOf(members));
    case _ =>
  }

  // ---------------------------------------------------------------- the canonical form is determined by the meaning

  predicate Ascending(members: seq<Member>) {
    forall i, j :: 0 <= i < j < |members| ==>
      members[i].key != members[j].key && StringLe(members[i].key, members[j].key)
  }

  predicate AllItemsCanonical(items: seq<Json>)
    decreases items, 0
  {
    |items| == 0 || (Canonical(items[0]) && AllItemsCanonical(items[1..]))
  }

  predicate AllMembersCanonical(members: seq<Member>)
    decreases members, 0
  {
    |members| == 0 || (members[0].value != Undefined && Canonical(members[0].value) &&
      AllMembersCanonical(members[1..]))
  }

  /** Keys ascending and members defined, at every depth. */
  predicate Canonical(j: Json)
    decreases j, 1
  {
    match j
    case Array(items) => AllItemsCanonical(items)
    case Object(members) => Ascending(members) && AllMembersCanonical(members)
    case _ => true
  }

  lemma {:induction false} InsertCanonical(x: Member, s: seq<Member>)
    requires x.value != Undefined && Canonical(x.value) && AllMembersCanonical(s)
    ensures AllMembersCanonical(Insert(ByKey(), x, s))
    decreases |s|
  {
    var r := Insert(ByKey(), x, s);
    if |s| == 0 || ByKey()(x, s[0]) {
      assert r[1..] == s;
    } else {
      InsertCanonical(x, s[1..]);
      assert r[0] == s[0] && r[1..] == Insert(ByKey(), x, s[1..]);
    }
  }

  lemma {:induction false} SortCanonical(s: seq<Member>)
    requires AllMembersCanonical(s)
    ensures AllMembersCanonical(Sort(ByKey(), s))
    decreases |s|
  {
    if |s| == 0 {
    } else {
      SortCanonical(s[1..]);
      InsertCanonical(s[0], Sort(ByKey(), s[1..]));
    }
  }

  lemma {:induction false} SortItemsIsCanonical(items: seq<Json>)
    requires AllItemsWellFormed(items)
    ensures AllItemsCanonical(SortItems(items))
    decreases items, 0
  {
    if |items| == 0 {
    } else {
      SortKeysIsCanonical(items[0]);
      SortItemsIsCanonical(items[1..]);
      assert SortItems(items)[1..] == SortItems(items[1..]);
    }
  }

  lemma {:induction false} SortMembersIsCanonical(members: seq<Member>)
    requires AllMembersWellFormed(members)
    ensures AllMembersCanonical(SortMembersOf(members))
    decreases members, 0
  {
    if |members| == 0 {
    } else {
      SortMembersIsCanonical(members[1..]);
      if members[0].value != Undefined {
        SortKeysIsCanonical(members[0].value);
        NeverUndefined(members[0].value);
        assert SortMembersOf(members)[1..] == SortMembersOf(members[1..]);
      }
    }
  }

  lemma {:induction false} SortedIsAscending(s: seq<Member>)
    requires Sorted(ByKey(), s) && DistinctKeys(s)
    ensures Ascending(s)
  {
    forall i, j | 0 <= i < j < |s| ensures s[i].key != s[j].key && StringLe(s[i].key, s[j].key) {
      assert ByKey()(s[i], s[j]);
    }
  }

  lemma {:induction false} SortKeysIsCanonical(j: Json)
    requires WellFormed(j)
    ensures Canonical(SortKeys(j))
    decreases j, 1
  {
    match j
    case Array(items) => SortItemsIsCanonical(items);
    case Object(members) =>
      var defined := SortMembersOf(members);
      SortMembersIsCanonical(members);
      SortMembersKeepsMeaning(members);
      SortCanonical(defined);
      MeaningOfSorted(defined);
      StringOrder();
      SortSorted(ByKey(), defined);
      SortedIsAscending(Sort(ByKey(), defined));
    case _ =>
  }

  lemma {:induction false} KeysOfMeaning(s: seq<Member>)
    requires AllMembersCanonical(s)
    ensures forall k :: k in MeaningOfMembers(s) <==> exists m :: m in s && m.key == k
    decreases |s|
  {
    if |s| == 0 {
    } else {
      KeysOfMeaning(s[1..]);
      assert forall m :: m in s <==> m == s[0] || m in s[1..];
    }
  }

  lemma {:induction false} CanonicalItemsUnique(a: seq<Json>, b: seq<Json>)
    requires AllItemsCanonical(a) && AllItemsCanonical(b) && MeaningOfItems(a) == MeaningOfItems(b)
    ensures a == b
    decreases a, 0
  {
    assert |a| == |MeaningOfItems(a)| == |b|;
    if |a| == 0 {
    } else {
      var m := MeaningOfItems(a);
      assert m[0] == MeaningOf(a[0]) == MeaningOf(b[0]);
      assert m[1..] == MeaningOfItems(a[1..]) == MeaningOfItems(b[1..]);
      CanonicalUnique(a[0], b[0]);
      CanonicalItemsUnique(a[1..], b[1..]);
      assert a == [a[0]] + a[1..] && b == [b[0]] + b[1..];
    }
  }

  /** The first key is the smallest one, which the meaning determines. */
  lemma {:induction false} FirstKeysMatch(a: seq<Member>, b: seq<Member>)
    requires Ascending(a) && Ascending(b) && AllMembersCanonical(a) && AllMembersCanonical(b)
    requires MeaningOfMembers(a) == MeaningOfMembers(b) && |a| > 0
    ensures |b| > 0 && a[0].key == b[0].key
  {
    KeysOfMeaning(a);
    KeysOfMeaning(b);
    assert a[0] in a;
    assert a[0].key in MeaningOfMembers(b);
    var m :| m in b && m.key == a[0].key;
    assert b[0] in b;
    assert b[0].key in MeaningOfMembers(a);
    var n :| n in a && n.key == b[0].key;
    var i :| 0 <= i < |a| && a[i] == n;
    var j :| 0 <= j < |b| && b[j] == m;
    if i > 0 && j > 0 {
      StringLeAntisymmetric(a[0].key, b[0].key);
    }
  }

  lemma {:induction false} HeadNotInTail(s: seq<Member>)
    requires Ascending(s) && AllMembersCanonical(s) && |s| > 0
    ensures s[0].key !in MeaningOfMembers(s[1..])
  {
    KeysOfMeaning(s[1..]);
    forall m | m in s[1..] ensures m.key != s[0].key {
      var i :| 1 <= i < |s| && s[i] == m;
    }
  }

  lemma {:induction false} UpdateUndone<K, V>(m: map<K, V>, k: K, v: V)
    requires k !in m
    ensures m[k := v] - {k} == m && m[k := v][k] == v
  {
  }

  lemma {:induction false} TailMeaning(s: seq<Member>)
    requires Ascending(s) && AllMembersCanonical(s) && |s| > 0
    ensures MeaningOfMembers(s[1..]) == MeaningOfMembers(s) - {s[0].key}
    ensures s[0].key in MeaningOfMembers(s) && MeaningOfMembers(s)[s[0].key] == MeaningOf(s[0].value)
  {
    HeadNotInTail(s);
    UpdateUndone(MeaningOfMembers(s[1..]), s[0].key, MeaningOf(s[0].value));
  }

  lemma {:induction false} CanonicalMembersUnique(a: seq<Member>, b: seq<Member>)
    requires Ascending(a) && Ascending(b) && AllMembersCanonical(a) && AllMembersCanonical(b)
    requires MeaningOfMembers(a) == MeaningOfMembers(b)
    ensures a == b
    decreases a, 0
  {
    if |a| == 0 {
      if |b| > 0 {
        FirstKeysMatch(b, a);
      }
    } else {
      FirstKeysMatch(a, b);
      TailMeaning(a);
      TailMeaning(b);
      CanonicalUnique(a[0].value, b[0].value);
      CanonicalMembersUnique(a[1..], b[1..]);
      assert a[0] == b[0];
      assert a == [a[0]] + a[1..] && b == [b[0]] + b[1..];
    }
  }

  lemma {:induction false} CanonicalUnique(a: Json, b: Json)
    requires Canonical(a) && Canonical(b) && MeaningOf(a) == MeaningOf(b)
    ensures a == b
    decreases a, 1
  {
    match a
    case Array(items) => CanonicalItemsUnique(items, b.items);
    case Object(members) => CanonicalMembersUnique(members, b.members);
    case _ =>
  }

  /** Two bodies have the same canonical form exactly when they mean the same, in whatever order their keys come. */
  lemma {:induction false} SameFormIffSameMeaning(a: Json, b: Json)
    requires WellFormed(a) && WellFormed(b)
    ensures SortKeys(a) == SortKeys(b) <==> MeaningOf(a) == MeaningOf(b)
  {
    SortKeysKeepsMeaning(a);
    SortKeysKeepsMeaning(b);
    SortKeysIsCanonical(a);
    SortKeysIsCanonical(b);
    if MeaningOf(a) == MeaningOf(b) {
      CanonicalUnique(SortKeys(a), SortKeys(b));
    }
  }

  // ---------------------------------------------------------------- what JSON.stringify makes of a value

  function PlainItems(items: seq<Json>): (r: seq<Json>)
    ensures |r| == |items|
    decreases items, 0
  {
    if |items| == 0 then [] else [Plain(items[0])] + PlainItems(items[1..])
  }

  function PlainMembers(members: seq<Member>): seq<Member>
    decreases members, 0
  {
    if |members| == 0 then []
    else if members[0].value == Undefined then PlainMembers(members[1..])
    else [Member(members[0].key, Plain(members[0].value))] + PlainMembers(members[1..])
  }

  /** Dates become texts, undefined array items become null, undefined members are dropped. */
  function Plain(j: Json): Json
    decreases j, 1
  {
    match j
    case Instant(iso) => Text(iso)
    case Undefined => Null
    case Array(items) => Array(PlainItems(items))
    case Object(members) => Object(PlainMembers(members))
    case _ => j
  }

  /** Every member has a value. */
  predicate AllDefined(members: seq<Member>) { forall m :: m in members ==> m.value != Undefined }

  lemma {:induction false} PlainIsDefined(j: Json)
    ensures Plain(j) != Undefined
  {
  }

  lemma {:induction false} PlainCons(x: Member, s: seq<Member>)
    requires x.value != Undefined
    ensures PlainMembers([x] + s) == [Member(x.key, Plain(x.value))] + PlainMembers(s)
  {
    assert ([x] + s)[1..] == s;
  }

  lemma {:induction false} PlainOfInsert(x: Member, s: seq<Member>)
    requires x.value != Undefined && AllDefined(s)
    ensures PlainMembers(Insert(ByKey(), x, s)) == Insert(ByKey(), Member(x.key, Plain(x.value)), PlainMembers(s))
    decreases |s|
  {
    if |s| == 0 {
      PlainCons(x, s);
    } else {
      assert s == [s[0]] + s[1..] && s[0] in s;
      PlainCons(s[0], s[1..]);
      if ByKey()(x, s[0]) {
        PlainCons(x, s);
      } else {
        PlainOfInsert(x, s[1..]);
        PlainCons(s[0], Insert(ByKey(), x, s[1..]));
      }
    }
  }

  lemma {:induction false} PlainOfSort(s: seq<Member>)
    requires AllDefined(s)
    ensures PlainMembers(Sort(ByKey(), s)) == Sort(ByKey(), PlainMembers(s))
    decreases |s|
  {
    if |s| == 0 {
    } else {
      assert s == [s[0]] + s[1..] && s[0] in s;
      PlainOfSort(s[1..]);
      SortMembers(ByKey(), s[1..]);
      PlainOfInsert(s[0], Sort(ByKey(), s[1..]));
      PlainCons(s[0], s[1..]);
    }
  }

  lemma {:induction false} PlainOfSortItems(items: seq<Json>)
    ensures PlainItems(SortItems(items)) == SortItems(PlainItems(items))
    decreases items, 0
  {
    if |items| == 0 {
    } else {
      PlainOfSortKeys(items[0]);
      PlainOfSortItems(items[1..]);
      assert SortItems(items)[1..] == SortItems(items[1..]);
      assert PlainItems(items)[1..] == PlainItems(items[1..]);
    }
  }

  lemma {:induction false} PlainOfSortMembers(members: seq<Member>)
    ensures PlainMembers(SortMembersOf(members)) == SortMembersOf(PlainMembers(members))
    ensures AllDefined(SortMembersOf(members))
    decreases members, 0
  {
    if |members| == 0 {
    } else {
      var x, tail := members[0], members[1..];
      PlainOfSortMembers(tail);
      if x.value != Undefined {
        PlainOfSortKeys(x.value);
        NeverUndefined(x.value);
        PlainIsDefined(x.value);
        PlainCons(Member(x.key, SortKeys(x.value)), SortMembersOf(tail));
        assert PlainMembers(members)[1..] == PlainMembers(tail);
      }
    }
  }

  /** Sorting keys before or after makes no difference. */
  lemma {:induction false} PlainOfSortKeys(j: Json)
    ensures Plain(SortKeys(j)) == SortKeys(Plain(j))
    decreases j, 1
  {
    match j
    case Array(items) => PlainOfSortItems(items);
    case Object(members) =>
      PlainOfSortMembers(members);
      PlainOfSort(SortMembersOf(members));
    case _ =>
  }

  lemma {:induction false} PlainKeys(members: seq<Member>)
    ensures forall m :: m in PlainMembers(members) ==> exists n :: n in members && n.key == m.key
    decreases |members|
  {
    if |members| == 0 {
    } else {
      PlainKeys(members[1..]);
      assert members[0] in members;
      assert forall n :: n in members[1..] ==> n in members;
    }
  }

  lemma {:induction false} PlainItemsWellFormed(items: seq<Json>)
    requires AllItemsWellFormed(items)
    ensures AllItemsWellFormed(PlainItems(items))
    decreases items, 0
  {
    if |items| == 0 {
    } else {
      PlainIsWellFormed(items[0]);
      PlainItemsWellFormed(items[1..]);
      assert PlainItems(items)[1..] == PlainItems(items[1..]);
    }
  }

  lemma {:induction false} PlainMembersWellFormed(members: seq<Member>)
    requires DistinctKeys(members) && AllMembersWellFormed(members)
    ensures DistinctKeys(PlainMembers(members)) && AllMembersWellFormed(PlainMembers(members))
    decreases members, 0
  {
    if |members| == 0 {
    } else {
      PlainMembersWellFormed(members[1..]);
      if members[0].value != Undefined {
        var rest := PlainMembers(members[1..]);
        PlainIsWellFormed(members[0].value);
        PlainKeys(members[1..]);
        assert PlainMembers(members)[1..] == rest;
        forall k | 0 <= k < |rest| ensures rest[k].key != members[0].key {
          assert rest[k] in rest;
          var n :| n in members[1..] && n.key == rest[k].key;
          var i :| 1 <= i < |members| && members[i] == n;
        }
      }
    }
  }

  lemma {:induction false} PlainIsWellFormed(j: Json)
    requires WellFormed(j)
    ensures WellFormed(Plain(j))
    decreases j, 1
  {
    match j
    case Array(items) => PlainItemsWellFormed(items);
    case Object(members) => PlainMembersWellFormed(members);
    case _ =>
  }

  // ---------------------------------------------------------------- the text of a value

  function Hex(n: int): char
    requires 0 <= n < 16
  {
    if n < 10 then '0' + n as char else 'a' + (n - 10) as char
  }

  /** A character inside a JSON text. */
  function Escaped(c: char): string {
    if c == '"' then "\\\""
    else if c == '\\' then "\\\\"
    else if c == 8 as char then "\\b"
    else if c == '\t' then "\\t"
    else if c == '\n' then "\\n"
    else if c == 12 as char then "\\f"
    else if c == '\r' then "\\r"
    else if c < ' ' then ['\\', 'u', '0', '0', Hex(c as int / 16), Hex(c as int % 16)]
    else [c]
  }

  function EscapedAll(s: string): string {
    if |s| == 0 then "" else Escaped(s[0]) + EscapedAll(s[1..])
  }

  function Quoted(s: string): string { "\"" + (EscapedAll(s) + "\"") }

  function ItemsTail(items: seq<Json>): string
    decreases items, 1
  {
    if |items| == 0 then "]" else "," + ItemsText(items)
  }

  /** The items with commas between them, and the closing bracket. */
  function ItemsText(items: seq<Json>): string
    decreases items, 0
  {
    if |items| == 0 then "]" else Stringify(items[0]) + ItemsTail(items[1..])
  }

  function MembersTail(members: seq<Member>): string
    decreases members, 1
  {
    if |members| == 0 then "}" else "," + MembersText(members)
  }

  function MembersText(members: seq<Member>): string
    decreases members, 0
  {
    if |members| == 0 then "}"
    else Quoted(members[0].key) + (":" + (Stringify(members[0].value) + MembersTail(members[1..])))
  }

  /** JSON.stringify of a plain value. */
  function Stringify(j: Json): string
    decreases j, 1
  {
    match j
    case Null => "null"
    case Boolean(b) => if b then "true" else "false"
    case Number(text) => text
    case Text(s) => Quoted(s)
    case Array(items) => "[" + ItemsText(items)
    case Object(members) => "{" + MembersText(members)
    case _ => ""
  }

  function StableStringify(j: Json): string { Stringify(Plain(SortKeys(j))) }

  predicate NumberChar(c: char) { '0' <= c <= '9' || c == '+' || c == '-' || c == '.' || c == 'e' || c == 'E' }

  /** The text of a finite number. */
  predicate NumberText(s: string) {
    |s| > 0 && ('0' <= s[0] <= '9' || s[0] == '-') && forall k :: 0 <= k < |s| ==> NumberChar(s[k])
  }

  predicate ItemsNumbersPrint(items: seq<Json>)
    decreases items, 0
  {
    |items| == 0 || (NumbersPrint(items[0]) && ItemsNumbersPrint(items[1..]))
  }

  predicate MembersNumbersPrint(members: seq<Member>)
    decreases members, 0
  {
    |members| == 0 || (NumbersPrint(members[0].value) && MembersNumbersPrint(members[1..]))
  }

  /** Numbers have the text of a number, at every depth. */
  predicate NumbersPrint(j: Json)
    decreases j, 1
  {
    match j
    case Number(text) => NumberText(text)
    case Array(items) => ItemsNumbersPrint(items)
    case Object(members) => MembersNumbersPrint(members)
    case _ => true
  }

  predicate ItemsPrintable(items: seq<Json>)
    decreases items, 0
  {
    |items| == 0 || (Printable(items[0]) && ItemsPrintable(items[1..]))
  }

  predicate MembersPrintable(members: seq<Member>)
    decreases members, 0
  {
    |members| == 0 || (Printable(members[0].value) && MembersPrintable(members[1..]))
  }

  /** A value as JSON knows it. */
  predicate Printable(j: Json)
    decreases j, 1
  {
    match j
    case Number(text) => NumberText(text)
    case Instant(_) => false
    case Undefined => false
    case Array(items) => ItemsPrintable(items)
    case Object(members) => MembersPrintable(members)
    case _ => true
  }

  // ---------------------------------------------------------------- reading JSON by RFC 8259

  function HexValue(c: char): Option<int> {
    if '0' <= c <= '9' then Some(c as int - '0' as int)
    else if 'a' <= c <= 'f' then Some(c as int - 'a' as int + 10)
    else if 'A' <= c <= 'F' then Some(c as int - 'A' as int + 10)
    else None
  }

  /** The character of four hexadecimal digits; surrogates are not read. */
  function HexChar(s: string): Option<char>
    requires |s| == 4
  {
    var a, b, c, d := HexValue(s[0]), HexValue(s[1]), HexValue(s[2]), HexValue(s[3]);
    if a.None? || b.None? || c.None? || d.None? then None
    else
      var n := 4096 * a.value + 256 * b.value + 16 * c.value + d.value;
      if 0 <= n < 0xD800 then Some(n as char) else None
  }

  /** The character a letter stands for behind a backslash (section 7). */
  function Unescape(letter: char): Option<char> {
    match letter
    case '"' => Some('"')
    case '\\' => Some('\\')
    case '/' => Some('/')
    case 'b' => Some(8 as char)
    case 'f' => Some(12 as char)
    case 'n' => Some('\n')
    case 'r' => Some('\r')
    case 't' => Some('\t')
    case _ => None
  }

  function Before(c: char, r: Option<(string, string)>): Option<(string, string)> {
    if r.None? then None else Some(([c] + r.value.0, r.value.1))
  }

  /** After an opening quote: the string up to the closing one, and what follows. */
  function ReadString(s: string): (r: Option<(string, string)>)
    ensures r.Some? ==> |r.value.1| < |s|
  {
    if |s| == 0 then None
    else if s[0] == '"' then Some(("", s[1..]))
    else if s[0] == '\\' then
      if |s| >= 6 && s[1] == 'u' then
        var c := HexChar(s[2..6]);
        if c.None? then None else Before(c.value, ReadString(s[6..]))
      else if |s| >= 2 then
        var c := Unescape(s[1]);
        if c.None? then None else Before(c.value, ReadString(s[2..]))
      else None
    else if s[0] < ' ' then None
    else Before(s[0], ReadString(s[1..]))
  }

  /** The characters a number is written with (section 6), as far as they go, and what follows. */
  function ReadNumber(s: string): (r: (string, string))
    ensures |r.1| <= |s| && (|s| > 0 && NumberChar(s[0]) ==> |r.1| < |s|)
  {
    if |s| == 0 || !NumberChar(s[0]) then ("", s)
    else
      var rest := ReadNumber(s[1..]);
      ([s[0]] + rest.0, rest.1)
  }

  /** A value without white space, and what follows. */
  function ReadValue(s: string): (r: Option<(Json, string)>)
    ensures r.Some? ==> |r.value.1| < |s|
    decreases |s|, 1
  {
    if |s| == 0 then None
    else if "null" <= s then Some((Null, s[4..]))
    else if "true" <= s then Some((Boolean(true), s[4..]))
    else if "false" <= s then Some((Boolean(false), s[5..]))
    else if s[0] == '"' then
      var text := ReadString(s[1..]);
      if text.None? then None else Some((Text(text.value.0), text.value.1))
    else if s[0] == '[' then
      var items := if |s| > 1 && s[1] == ']' then Some(([], s[2..])) else ReadItems(s[1..]);
      if items.None? then None else Some((Array(items.value.0), items.value.1))
    else if s[0] == '{' then
      var members := if |s| > 1 && s[1] == '}' then Some(([], s[2..])) else ReadMembers(s[1..]);
      if members.None? then None else Some((Object(members.value.0), members.value.1))
    else if s[0] == '-' || '0' <= s[0] <= '9' then
      var number := ReadNumber(s);
      Some((Number(number.0), number.1))
    else None
  }

  /** One value or more, with commas between them, up to the closing bracket. */
  function ReadItems(s: string): (r: Option<(seq<Json>, string)>)
    ensures r.Some? ==> |r.value.1| < |s|
    decreases |s|, 2
  {
    var first := ReadValue(s);
    if first.None? then None
    else
      var rest := first.value.1;
      if |rest| > 0 && rest[0] == ']' then Some(([first.value.0], rest[1..]))
      else if |rest| > 0 && rest[0] == ',' then
        var more := ReadItems(rest[1..]);
        if more.None? then None else Some(([first.value.0] + more.value.0, more.value.1))
      else None
  }

  /** A quoted key, a colon and a value. */
  function ReadMember(s: string): (r: Option<(Member, string)>)
    ensures r.Some? ==> |r.value.1| < |s|
    decreases |s|, 2
  {
    if |s| == 0 || s[0] != '"' then None
    else
      var key := ReadString(s[1..]);
      if key.None? || |key.value.1| == 0 || key.value.1[0] != ':' then None
      else
        var value := ReadValue(key.value.1[1..]);
        if value.None? then None else Some((Member(key.value.0, value.value.0), value.value.1))
  }

  /** One member or more, with commas between them, up to the closing brace. */
  function ReadMembers(s: string): (r: Option<(seq<Member>, string)>)
    ensures r.Some? ==> |r.value.1| < |s|
    decreases |s|, 3
  {
    var first := ReadMember(s);
    if first.None? then None
    else
      var rest := first.value.1;
      if |rest| > 0 && rest[0] == '}' then Some(([first.value.0], rest[1..]))
      else if |rest| > 0 && rest[0] == ',' then
        var more := ReadMembers(rest[1..]);
        if more.None? then None else Some(([first.value.0] + more.value.0, more.value.1))
      else None
  }

  // ---------------------------------------------------------------- reading undoes printing

  lemma {:induction false} Associates(s: string, t: string, x: string)
    ensures (s + t) + x == s + (t + x)
  {
  }

  lemma {:induction false} HexReads(n: int)
    requires 0 <= n < 16
    ensures HexValue(Hex(n)) == Some(n)
  {
  }

  lemma {:induction false} CodeReads(c: char)
    requires c < ' '
    ensures HexChar(['0', '0', Hex(c as int / 16), Hex(c as int % 16)]) == Some(c)
  {
    HexReads(c as int / 16);
    HexReads(c as int % 16);
    assert 16 * (c as int / 16) + c as int % 16 == c as int;
  }

  lemma {:induction false} CodedReads(c: char, tail: string)
    requires c < ' ' && Escaped(c) == ['\\', 'u', '0', '0', Hex(c as int / 16), Hex(c as int % 16)]
    ensures ReadString(Escaped(c) + tail) == Before(c, ReadString(tail))
  {
    var s := Escaped(c) + tail;
    CodeReads(c);
    assert s[0] == '\\' && s[1] == 'u' && s[6..] == tail;
    assert s[2..6] == ['0', '0', Hex(c as int / 16), Hex(c as int % 16)];
  }

  lemma {:induction false} LetterReads(c: char, letter: char, tail: string)
    requires Unescape(letter) == Some(c) && letter != 'u'
    ensures ReadString(['\\', letter] + tail) == Before(c, ReadString(tail))
  {
    var s := ['\\', letter] + tail;
    assert s[0] == '\\' && s[1] == letter && s[2..] == tail;
  }

  lemma {:induction false} PlainCharReads(c: char, tail: string)
    requires c != '"' && c != '\\' && c >= ' '
    ensures ReadString([c] + tail) == Before(c, ReadString(tail))
  {
    assert ([c] + tail)[1..] == tail;
  }

  lemma {:induction false} CharReads(c: char, tail: string)
    ensures ReadString(Escaped(c) + tail) == Before(c, ReadString(tail))
  {
    if c == '"' {
      LetterReads(c, '"', tail);
    } else if c == '\\' {
      LetterReads(c, '\\', tail);
    } else if c == 8 as char {
      LetterReads(c, 'b', tail);
    } else if c == '\t' {
      LetterReads(c, 't', tail);
    } else if c == '\n' {
      LetterReads(c, 'n', tail);
    } else if c == 12 as char {
      LetterReads(c, 'f', tail);
    } else if c == '\r' {
      LetterReads(c, 'r', tail);
    } else if c < ' ' {
      CodedReads(c, tail);
    } else {
      PlainCharReads(c, tail);
    }
  }

  lemma {:induction false} StringReads(s: string, x: string)
    ensures ReadString(EscapedAll(s) + ("\"" + x)) == Some((s, x))
    decreases |s|
  {
    var end := "\"" + x;
    if |s| == 0 {
      assert EscapedAll(s) + end == end && end[1..] == x;
    } else {
      StringReads(s[1..], x);
      CharReads(s[0], EscapedAll(s[1..]) + end);
      Associates(Escaped(s[0]), EscapedAll(s[1..]), end);
      assert s == [s[0]] + s[1..];
    }
  }

  lemma {:induction false} QuotedTail(s: string, x: string)
    ensures var l := Quoted(s) + x; |l| > 0 && l[0] == '"' && l[1..] == EscapedAll(s) + ("\"" + x)
  {
  }

  /** What may stand behind a value. */
  predicate Follows(x: string) { |x| == 0 || x[0] == ',' || x[0] == ']' || x[0] == '}' }

  lemma {:induction false} NumberReads(s: string, x: string)
    requires Follows(x) && forall k :: 0 <= k < |s| ==> NumberChar(s[k])
    ensures ReadNumber(s + x) == (s, x)
    decreases |s|
  {
    if |s| == 0 {
      assert s + x == x;
    } else {
      assert (s + x)[0] == s[0] && (s + x)[1..] == s[1..] + x;
      NumberReads(s[1..], x);
      assert s == [s[0]] + s[1..];
    }
  }

  /** The first character of a value, which is neither a closing bracket nor a brace. */
  lemma {:induction false} ValueBegins(j: Json, x: string)
    requires Printable(j)
    ensures var l := Stringify(j) + x;
      |l| > 0 && l[0] == match j
        case Null => 'n'
        case Boolean(b) => if b then 't' else 'f'
        case Number(text) => text[0]
        case Text(_) => '"'
        case Array(_) => '['
        case Object(_) => '{'
        case _ => ' '
    ensures (Stringify(j) + x)[0] != ']'
  {
  }

  lemma {:induction false} NullReads(x: string)
    ensures ReadValue("null" + x) == Some((Null, x))
  {
    var l := "null" + x;
    assert l[..4] == "null" && l[4..] == x && "null" <= l;
  }

  lemma {:induction false} TrueReads(x: string)
    ensures ReadValue("true" + x) == Some((Boolean(true), x))
  {
    var l := "true" + x;
    assert l[..4] == "true" && l[4..] == x && "true" <= l;
    assert l[0] == 't' && !("null" <= l);
  }

  lemma {:induction false} FalseReads(x: string)
    ensures ReadValue("false" + x) == Some((Boolean(false), x))
  {
    var l := "false" + x;
    assert l[..5] == "false" && l[5..] == x && "false" <= l;
    assert l[0] == 'f' && !("null" <= l) && !("true" <= l);
  }

  lemma {:induction false} NumberValueReads(text: string, x: string)
    requires NumberText(text) && Follows(x)
    ensures ReadValue(text + x) == Some((Number(text), x))
  {
    NumberReads(text, x);
    assert (text + x)[0] == text[0];
  }

  lemma {:induction false} TextReads(s: string, x: string)
    ensures ReadValue(Quoted(s) + x) == Some((Text(s), x))
  {
    QuotedTail(s, x);
    StringReads(s, x);
  }

  lemma {:induction false} ItemsParts(items: seq<Json>, x: string)
    requires |items| > 0
    ensures ItemsText(items) + x == Stringify(items[0]) + (ItemsTail(items[1..]) + x)
    ensures |items| == 1 ==> ItemsTail(items[1..]) + x == "]" + x
    ensures |items| > 1 ==> ItemsTail(items[1..]) + x == "," + (ItemsText(items[1..]) + x)
    ensures Follows(ItemsTail(items[1..]) + x)
  {
    Associates(Stringify(items[0]), ItemsTail(items[1..]), x);
    if |items| > 1 {
      Associates(",", ItemsText(items[1..]), x);
    }
  }

  lemma {:induction false} LastItemReads(s: string, item: Json, x: string)
    requires ReadValue(s) == Some((item, "]" + x))
    ensures ReadItems(s) == Some(([item], x))
  {
    assert ("]" + x)[1..] == x;
  }

  lemma {:induction false} MoreItemsRead(s: string, item: Json, tail: string, rest: seq<Json>, x: string)
    requires ReadValue(s) == Some((item, "," + tail)) && ReadItems(tail) == Some((rest, x))
    ensures ReadItems(s) == Some(([item] + rest, x))
  {
    assert ("," + tail)[1..] == tail;
  }

  /** The first item and the others, read one after the other. */
  lemma {:induction false} ItemsFollow(items: seq<Json>, text: string, rest: string, x: string)
    requires |items| > 0 && ReadValue(text) == Some((items[0], rest))
    requires |items| == 1 ==> rest == "]" + x
    requires |items| > 1 ==> rest == "," + (ItemsText(items[1..]) + x)
    requires |items| > 1 ==> ReadItems(ItemsText(items[1..]) + x) == Some((items[1..], x))
    ensures ReadItems(text) == Some((items, x))
  {
    if |items| == 1 {
      LastItemReads(text, items[0], x);
      assert items == [items[0]];
    } else {
      MoreItemsRead(text, items[0], ItemsText(items[1..]) + x, items[1..], x);
      assert items == [items[0]] + items[1..];
    }
  }

  lemma {:induction false} ItemsRead(items: seq<Json>, x: string)
    requires |items| > 0 && ItemsPrintable(items)
    ensures ReadItems(ItemsText(items) + x) == Some((items, x))
    decreases items, 0
  {
    var rest := ItemsTail(items[1..]) + x;
    ItemsParts(items, x);
    StringifyReads(items[0], rest);
    if |items| > 1 {
      ItemsRead(items[1..], x);
    }
    ItemsFollow(items, ItemsText(items) + x, rest, x);
  }

  lemma {:induction false} MembersParts(members: seq<Member>, x: string)
    requires |members| > 0
    ensures MembersText(members) + x ==
      Quoted(members[0].key) + (":" + (Stringify(members[0].value) + (MembersTail(members[1..]) + x)))
    ensures |members| == 1 ==> MembersTail(members[1..]) + x == "}" + x
    ensures |members| > 1 ==> MembersTail(members[1..]) + x == "," + (MembersText(members[1..]) + x)
    ensures Follows(MembersTail(members[1..]) + x)
  {
    var k, v, m := Quoted(members[0].key), Stringify(members[0].value), MembersTail(members[1..]);
    Associates(k, ":" + (v + m), x);
    Associates(":", v + m, x);
    Associates(v, m, x);
    if |members| > 1 {
      Associates(",", MembersText(members[1..]), x);
    }
  }

  lemma {:induction false} MemberReads(m: Member, value: string, x: string)
    requires ReadValue(value + x) == Some((m.value, x))
    ensures ReadMember(Quoted(m.key) + (":" + (value + x))) == Some((m, x))
  {
    var after := ":" + (value + x);
    QuotedTail(m.key, after);
    StringReads(m.key, after);
    assert after[1..] == value + x;
  }

  lemma {:induction false} LastMemberReads(s: string, m: Member, x: string)
    requires ReadMember(s) == Some((m, "}" + x))
    ensures ReadMembers(s) == Some(([m], x))
  {
    assert ("}" + x)[1..] == x;
  }

  lemma {:induction false} MoreMembersRead(s: string, m: Member, tail: string, rest: seq<Member>, x: string)
    requires ReadMember(s) == Some((m, "," + tail)) && ReadMembers(tail) == Some((rest, x))
    ensures ReadMembers(s) == Some(([m] + rest, x))
  {
    assert ("," + tail)[1..] == tail;
  }

  lemma {:induction false} FirstMemberReads(members: seq<Member>, rest: string, x: string)
    requires |members| > 0 && rest == MembersTail(members[1..]) + x
    requires ReadValue(Stringify(members[0].value) + rest) == Some((members[0].value, rest))
    ensures ReadMember(MembersText(members) + x) == Some((members[0], rest))
  {
    MembersParts(members, x);
    MemberReads(members[0], Stringify(members[0].value), rest);
  }

  /** The first member and the others, read one after the other. */
  lemma {:induction false} MembersFollow(members: seq<Member>, text: string, rest: string, x: string)
    requires |members| > 0 && ReadMember(text) == Some((members[0], rest))
    requires |members| == 1 ==> rest == "}" + x
    requires |members| > 1 ==> rest == "," + (MembersText(members[1..]) + x)
    requires |members| > 1 ==> ReadMembers(MembersText(members[1..]) + x) == Some((members[1..], x))
    ensures ReadMembers(text) == Some((members, x))
  {
    if |members| == 1 {
      LastMemberReads(text, members[0], x);
      assert members == [members[0]];
    } else {
      MoreMembersRead(text, members[0], MembersText(members[1..]) + x, members[1..], x);
      assert members == [members[0]] + members[1..];
    }
  }

  lemma {:induction false} MembersRead(members: seq<Member>, x: string)
    requires |members| > 0 && MembersPrintable(members)
    ensures ReadMembers(MembersText(members) + x) == Some((members, x))
    decreases members, 0
  {
    var rest := MembersTail(members[1..]) + x;
    MembersParts(members, x);
    StringifyReads(members[0].value, rest);
    FirstMemberReads(members, rest, x);
    if |members| > 1 {
      MembersRead(members[1..], x);
    }
    MembersFollow(members, MembersText(members) + x, rest, x);
  }

  /** An opening bracket or brace, and what is behind it. */
  lemma {:induction false} Opened(open: char, s: string, x: string)
    ensures var l := ([open] + s) + x; |l| > 0 && l[0] == open && l[1..] == s + x && |l| == |s + x| + 1
    ensures |s + x| > 0 ==> (([open] + s) + x)[1] == (s + x)[0]
  {
  }

  lemma {:induction false} EmptyArrayReads(x: string)
    ensures ReadValue(("[" + "]") + x) == Some((Array([]), x))
  {
    Opened('[', "]", x);
    assert (("[" + "]") + x)[2..] == x;
  }

  lemma {:induction false} FullArrayReads(items: seq<Json>, text: string, x: string)
    requires ReadItems(text + x) == Some((items, x)) && |text + x| > 0 && (text + x)[0] != ']'
    ensures ReadValue(("[" + text) + x) == Some((Array(items), x))
  {
    Opened('[', text, x);
  }

  lemma {:induction false} EmptyObjectReads(x: string)
    ensures ReadValue(("{" + "}") + x) == Some((Object([]), x))
  {
    Opened('{', "}", x);
    assert (("{" + "}") + x)[2..] == x;
  }

  lemma {:induction false} FullObjectReads(members: seq<Member>, text: string, x: string)
    requires ReadMembers(text + x) == Some((members, x)) && |text + x| > 0 && (text + x)[0] != '}'
    ensures ReadValue(("{" + text) + x) == Some((Object(members), x))
  {
    Opened('{', text, x);
  }

  lemma {:induction false} ArrayReads(items: seq<Json>, x: string)
    requires ItemsPrintable(items) && (|items| > 0 ==> ReadItems(ItemsText(items) + x) == Some((items, x)))
    ensures ReadValue(("[" + ItemsText(items)) + x) == Some((Array(items), x))
  {
    if |items| == 0 {
      EmptyArrayReads(x);
    } else {
      ItemsParts(items, x);
      ValueBegins(items[0], ItemsTail(items[1..]) + x);
      FullArrayReads(items, ItemsText(items), x);
    }
  }

  lemma {:induction false} ObjectReads(members: seq<Member>, x: string)
    requires |members| > 0 ==> ReadMembers(MembersText(members) + x) == Some((members, x))
    ensures ReadValue(("{" + MembersText(members)) + x) == Some((Object(members), x))
  {
    if |members| == 0 {
      EmptyObjectReads(x);
    } else {
      MembersParts(members, x);
      assert Quoted(members[0].key)[0] == '"';
      FullObjectReads(members, MembersText(members), x);
    }
  }

  /** A printed value is read as that value, and what follows it is left. */
  lemma {:induction false} StringifyReads(j: Json, x: string)
    requires Printable(j) && Follows(x)
    ensures ReadValue(Stringify(j) + x) == Some((j, x))
    decreases j, 1
  {
    match j
    case Null => NullReads(x);
    case Boolean(b) =>
      if b {
        TrueReads(x);
      } else {
        FalseReads(x);
      }
    case Number(text) => NumberValueReads(text, x);
    case Text(s) => TextReads(s, x);
    case Array(items) =>
      if |items| > 0 {
        ItemsRead(items, x);
      }
      ArrayReads(items, x);
    case Object(members) =>
      if |members| > 0 {
        MembersRead(members, x);
      }
      ObjectReads(members, x);
  }

  /** So the text has one reading. */
  lemma {:induction false} StringifyUnique(a: Json, b: Json, x: string, y: string)
    requires Printable(a) && Printable(b) && Follows(x) && Follows(y) && Stringify(a) + x == Stringify(b) + y
    ensures a == b && x == y
  {
    StringifyReads(a, x);
    StringifyReads(b, y);
  }

  // ---------------------------------------------------------------- the text of a body

  lemma {:induction false} PlainItemsPrintable(items: seq<Json>)
    requires ItemsNumbersPrint(items)
    ensures ItemsPrintable(PlainItems(items))
    decreases items, 0
  {
    if |items| == 0 {
    } else {
      PlainIsPrintable(items[0]);
      PlainItemsPrintable(items[1..]);
      assert PlainItems(items)[1..] == PlainItems(items[1..]);
    }
  }

  lemma {:induction false} PlainMembersPrintable(members: seq<Member>)
    requires MembersNumbersPrint(members)
    ensures MembersPrintable(PlainMembers(members))
    decreases members, 0
  {
    if |members| == 0 {
    } else {
      PlainMembersPrintable(members[1..]);
      if members[0].value != Undefined {
        PlainIsPrintable(members[0].value);
        assert PlainMembers(members)[1..] == PlainMembers(members[1..]);
      }
    }
  }

  lemma {:induction false} PlainIsPrintable(j: Json)
    requires NumbersPrint(j)
    ensures Printable(Plain(j))
    decreases j, 1
  {
    match j
    case Array(items) => PlainItemsPrintable(items);
    case Object(members) => PlainMembersPrintable(members);
    case _ =>
  }

  lemma {:induction false} SortItemsNumbersPrint(items: seq<Json>)
    requires ItemsNumbersPrint(items)
    ensures ItemsNumbersPrint(SortItems(items))
    decreases items, 0
  {
    if |items| == 0 {
    } else {
      SortKeysNumbersPrint(items[0]);
      SortItemsNumbersPrint(items[1..]);
      assert SortItems(items)[1..] == SortItems(items[1..]);
    }
  }

  lemma {:induction false} SortMembersNumbersPrint(members: seq<Member>)
    requires MembersNumbersPrint(members)
    ensures MembersNumbersPrint(SortMembersOf(members))
    decreases members, 0
  {
    if |members| == 0 {
    } else {
      SortMembersNumbersPrint(members[1..]);
      if members[0].value != Undefined {
        SortKeysNumbersPrint(members[0].value);
        assert SortMembersOf(members)[1..] == SortMembersOf(members[1..]);
      }
    }
  }

  lemma {:induction false} InsertNumbersPrint(x: Member, s: seq<Member>)
    requires NumbersPrint(x.value) && MembersNumbersPrint(s)
    ensures MembersNumbersPrint(Insert(ByKey(), x, s))
    decreases |s|
  {
    var r := Insert(ByKey(), x, s);
    if |s| == 0 || ByKey()(x, s[0]) {
      assert r[1..] == s;
    } else {
      InsertNumbersPrint(x, s[1..]);
      assert r[0] == s[0] && r[1..] == Insert(ByKey(), x, s[1..]);
    }
  }

  lemma {:induction false} SortNumbersPrint(s: seq<Member>)
    requires MembersNumbersPrint(s)
    ensures MembersNumbersPrint(Sort(ByKey(), s))
    decreases |s|
  {
    if |s| == 0 {
    } else {
      SortNumbersPrint(s[1..]);
      InsertNumbersPrint(s[0], Sort(ByKey(), s[1..]));
    }
  }

  lemma {:induction false} SortKeysNumbersPrint(j: Json)
    requires NumbersPrint(j)
    ensures NumbersPrint(SortKeys(j))
    decreases j, 1
  {
    match j
    case Array(items) => SortItemsNumbersPrint(items);
    case Object(members) =>
      SortMembersNumbersPrint(members);
      SortNumbersPrint(SortMembersOf(members));
    case _ =>
  }

  // ---------------------------------------------------------------- what JSON makes of a body

  ghost function JsonMeaningOfItems(items: seq<Json>): seq<Meaning>
    decreases items, 0
  {
    if |items| == 0 then [] else [JsonMeaning(items[0])] + JsonMeaningOfItems(items[1..])
  }

  ghost function JsonMeaningOfMembers(members: seq<Member>): map<string, Meaning>
    decreases members, 0
  {
    if |members| == 0 then map[]
    else if members[0].value.Undefined? then JsonMeaningOfMembers(members[1..])
    else JsonMeaningOfMembers(members[1..])[members[0].key := JsonMeaning(members[0].value)]
  }

  /** What a body means as JSON: a date is its text, a missing array item is null, a missing member is none. */
  ghost function JsonMeaning(j: Json): Meaning
    decreases j, 1
  {
    match j
    case Instant(iso) => Scalar(Text(iso))
    case Undefined => Scalar(Null)
    case Array(items) => Items(JsonMeaningOfItems(items))
    case Object(members) => Members(JsonMeaningOfMembers(members))
    case _ => Scalar(j)
  }

  lemma {:induction false} ItemsMeanJson(items: seq<Json>)
    ensures MeaningOfItems(PlainItems(items)) == JsonMeaningOfItems(items)
    decreases items, 0
  {
    if |items| == 0 {
    } else {
      PlainMeansJson(items[0]);
      ItemsMeanJson(items[1..]);
      assert PlainItems(items)[1..] == PlainItems(items[1..]);
    }
  }

  lemma {:induction false} MembersMeanJson(members: seq<Member>)
    ensures MeaningOfMembers(PlainMembers(members)) == JsonMeaningOfMembers(members)
    decreases members, 0
  {
    if |members| == 0 {
    } else {
      MembersMeanJson(members[1..]);
      if members[0].value != Undefined {
        PlainMeansJson(members[0].value);
        PlainIsDefined(members[0].value);
        MeaningOfCons(Member(members[0].key, Plain(members[0].value)), PlainMembers(members[1..]));
      }
    }
  }

  lemma {:induction false} PlainMeansJson(j: Json)
    ensures MeaningOf(Plain(j)) == JsonMeaning(j)
    decreases j, 1
  {
    match j
    case Array(items) => ItemsMeanJson(items);
    case Object(members) => MembersMeanJson(members);
    case _ =>
  }

  /** The text that is hashed is read as a value with the meaning of the body. */
  lemma {:induction false} TextMeansBody(j: Json)
    requires WellFormed(j) && NumbersPrint(j)
    ensures var read := ReadValue(StableStringify(j));
      read.Some? && read.value.1 == "" && MeaningOf(read.value.0) == JsonMeaning(j)
  {
    SortKeysNumbersPrint(j);
    PlainIsPrintable(SortKeys(j));
    StringifyReads(Plain(SortKeys(j)), "");
    assert StableStringify(j) + "" == StableStringify(j);
    PlainOfSortKeys(j);
    PlainIsWellFormed(j);
    SortKeysKeepsMeaning(Plain(j));
    PlainMeansJson(j);
  }

  /**
   Two bodies are given the same text exactly when, as JSON knows them, they mean the same: key order and
   undefined members never matter, a date is its text, an undefined array item is null, nothing else is confused.
   */
  lemma {:induction false} SameTextIffSameMeaning(a: Json, b: Json)
    requires WellFormed(a) && WellFormed(b) && NumbersPrint(a) && NumbersPrint(b)
    ensures StableStringify(a) == StableStringify(b) <==> JsonMeaning(a) == JsonMeaning(b)
  {
    PlainMeansJson(a);
    PlainMeansJson(b);
    PlainOfSortKeys(a);
    PlainOfSortKeys(b);
    PlainIsWellFormed(a);
    PlainIsWellFormed(b);
    SameFormIffSameMeaning(Plain(a), Plain(b));
    SortKeysNumbersPrint(a);
    SortKeysNumbersPrint(b);
    PlainIsPrintable(SortKeys(a));
    PlainIsPrintable(SortKeys(b));
    if StableStringify(a) == StableStringify(b) {
      StringifyUnique(Plain(SortKeys(a)), Plain(SortKeys(b)), "", "");
    }
  }
}
