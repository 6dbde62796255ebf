/** Texts of civil dates: AAAA-MM-JJ, written with two- and four-digit numbers and compared as texts. */
module CivilText {
  import opened Wrappers
  import opened Sorting
  import opened Calendar

  predicate IsDigit(c: char) { '0' <= c <= '9' }

  function ValueOf(c: char): (k: int)
    requires IsDigit(c)
    ensures 0 <= k < 10
  {
    c as int - '0' as int
  }

  function Digit(k: int): (c: char)
    requires 0 <= k < 10
    ensures IsDigit(c) && ValueOf(c) == k
  {
    ('0' as int + k) as char
  }

  function Pad2(n: int): (s: string)
    requires 0 <= n < 100
    ensures |s| == 2
  {
    [Digit(n / 10), Digit(n % 10)]
  }

  function Pad4(n: int): (s: string)
    requires 0 <= n < 10000
    ensures |s| == 4
  {
    Pad2(n / 100) + Pad2(n % 100)
  }

  /** The number written with two digits at position i. */
  function Parse2(s: string, i: nat): Option<int>
    requires i + 2 <= |s|
  {
    if IsDigit(s[i]) && IsDigit(s[i + 1]) then Some(10 * ValueOf(s[i]) + ValueOf(s[i + 1])) else None
  }

  function Parse4(s: string, i: nat): Option<int>
    requires i + 4 <= |s|
  {
    var high, low := Parse2(s, i), Parse2(s, i + 2);
    if high.Some? && low.Some? then Some(100 * high.value + low.value) else None
  }

  lemma {:induction false} SameDigit(c: char, d: char)
    requires IsDigit(c) && IsDigit(d) && ValueOf(c) == ValueOf(d)
    ensures c == d
  {
  }

  lemma {:induction false} Parse2Prints(s: string, i: nat)
    requires i + 2 <= |s|
    ensures Parse2(s, i).Some? ==> 0 <= Parse2(s, i).value < 100 && Pad2(Parse2(s, i).value) == s[i..i + 2]
  {
    if Parse2(s, i).Some? {
      var a, b := ValueOf(s[i]), ValueOf(s[i + 1]);
      assert (10 * a + b) / 10 == a && (10 * a + b) % 10 == b;
      SameDigit(s[i], Digit(a));
      SameDigit(s[i + 1], Digit(b));
    }
  }

  lemma {:induction false} Parse4Prints(s: string, i: nat)
    requires i + 4 <= |s|
    ensures Parse4(s, i).Some? ==> 0 <= Parse4(s, i).value < 10000 && Pad4(Parse4(s, i).value) == s[i..i + 4]
  {
    if Parse4(s, i).Some? {
      var high, low := Parse2(s, i).value, Parse2(s, i + 2).value;
      Parse2Prints(s, i);
      Parse2Prints(s, i + 2);
      assert (100 * high + low) / 100 == high && (100 * high + low) % 100 == low;
      assert s[i..i + 4] == s[i..i + 2] + s[i + 2..i + 4];
    }
  }

  /** A number written with two digits reads as that number. */
  lemma {:induction false} Pad2Parses(s: string, i: nat, n: int)
    requires i + 2 <= |s| && 0 <= n < 100 && s[i..i + 2] == Pad2(n)
    ensures Parse2(s, i) == Some(n)
  {
    assert s[i] == s[i..i + 2][0] && s[i + 1] == s[i..i + 2][1];
    assert 10 * (n / 10) + n % 10 == n;
  }

  lemma {:induction false} Pad4Parses(s: string, i: nat, n: int)
    requires i + 4 <= |s| && 0 <= n < 10000 && s[i..i + 4] == Pad4(n)
    ensures Parse4(s, i) == Some(n)
  {
    assert s[i..i + 2] == s[i..i + 4][..2] && s[i + 2..i + 4] == s[i..i + 4][2..];
    Pad2Parses(s, i, n / 100);
    Pad2Parses(s, i + 2, n % 100);
  }

  predicate FourDigitYear(c: Date) { 0 <= c.y <= 9999 }

  function Text(c: Civil): (s: string)
    requires FourDigitYear(c)
    ensures |s| == 10
  {
    Pad4(c.y) + (['-'] + (Pad2(c.m) + (['-'] + Pad2(c.d))))
  }

  // ---------------------------------------------------------------- the order of texts

  /** Texts that begin with equally long blocks compare block by block. */
  lemma {:induction false} BlockOrder(a: string, b: string, s: string, t: string)
    requires |a| == |b|
    ensures StringLe(a + s, b + t) <==> (if a == b then StringLe(s, t) else StringLe(a, b))
  {
    if |a| == 0 {
      assert a + s == s && b + t == t;
    } else {
      assert (a + s)[0] == a[0] && (a + s)[1..] == a[1..] + s;
      assert (b + t)[0] == b[0] && (b + t)[1..] == b[1..] + t;
      assert a == [a[0]] + a[1..] && b == [b[0]] + b[1..];
      BlockOrder(a[1..], b[1..], s, t);
    }
  }

  lemma {:induction false} DigitOrder(j: int, k: int)
    requires 0 <= j < 10 && 0 <= k < 10
    ensures Digit(j) < Digit(k) <==> j < k
    ensures Digit(j) == Digit(k) <==> j == k
  {
  }

  lemma {:induction false} Pad2Order(j: int, k: int)
    requires 0 <= j < 100 && 0 <= k < 100
    ensures StringLe(Pad2(j), Pad2(k)) <==> j <= k
    ensures Pad2(j) == Pad2(k) <==> j == k
  {
    DigitOrder(j / 10, k / 10);
    DigitOrder(j % 10, k % 10);
    var a, b := Pad2(j), Pad2(k);
    assert a[1..] == [Digit(j % 10)] && b[1..] == [Digit(k % 10)];
    assert a[1..][1..] == [] && b[1..][1..] == [];
    assert StringLe(a[1..], b[1..]) <==> j % 10 <= k % 10;
    assert a[0] == b[0] && a[1] == b[1] ==> j == k;
  }

  lemma {:induction false} Pad4Order(j: int, k: int)
    requires 0 <= j < 10000 && 0 <= k < 10000
    ensures StringLe(Pad4(j), Pad4(k)) <==> j <= k
    ensures Pad4(j) == Pad4(k) <==> j == k
  {
    Pad2Order(j / 100, k / 100);
    Pad2Order(j % 100, k % 100);
    BlockOrder(Pad2(j / 100), Pad2(k / 100), Pad2(j % 100), Pad2(k % 100));
    assert Pad4(j) == Pad4(k) ==> Pad4(j)[..2] == Pad4(k)[..2] && Pad4(j)[2..] == Pad4(k)[2..];
  }

  /** The order of AAAA-MM-JJ texts is chronological for years of four digits. */
  lemma {:induction false} TextOrder(a: Civil, b: Civil)
    requires FourDigitYear(a) && FourDigitYear(b)
    ensures StringLe(Text(a), Text(b)) <==> DayNumber(a) <= DayNumber(b)
  {
    Pad4Order(a.y, b.y);
    Pad2Order(a.m, b.m);
    Pad2Order(a.d, b.d);
    var da, db := ['-'] + Pad2(a.d), ['-'] + Pad2(b.d);
    BlockOrder(Pad4(a.y), Pad4(b.y), ['-'] + (Pad2(a.m) + da), ['-'] + (Pad2(b.m) + db));
    BlockOrder(['-'], ['-'], Pad2(a.m) + da, Pad2(b.m) + db);
    BlockOrder(Pad2(a.m), Pad2(b.m), da, db);
    BlockOrder(['-'], ['-'], Pad2(a.d), Pad2(b.d));
    OrderIsDayOrder(b, a);
  }
}
