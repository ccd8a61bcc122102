/**
 JavaScript strings as sequences of UTF-16 code units, the order that `Array.prototype.sort`
 uses on them, and decimal rendering of natural numbers.
 */
module Text {

  type CodeUnit = c: int | 0 <= c < 0x10000

  type Str = seq<CodeUnit>

  /** `a < b` on JavaScript strings: lexicographic by code unit. */
  predicate Less(a: Str, b: Str) {
    |b| > 0 && (|a| == 0 || a[0] < b[0] || (a[0] == b[0] && Less(a[1..], b[1..])))
  }

  /** One string begins the other, or the first unit in which they differ decides. */
  lemma {:induction false} LessExactly(a: Str, b: Str)
    ensures Less(a, b) <==> a < b || exists i :: FirstDifference(a, b, i) && a[i] < b[i]
  {
    if |a| > 0 && |b| > 0 && a[0] == b[0] {
      LessExactly(a[1..], b[1..]);
      assert a == [a[0]] + a[1..] && b == [b[0]] + b[1..];
      assert a < b <==> a[1..] < b[1..];
      forall i | FirstDifference(a, b, i)
        ensures i > 0 && FirstDifference(a[1..], b[1..], i - 1)
      {
        assert a[1..][..i - 1] == a[..i][1..] && b[1..][..i - 1] == b[..i][1..];
      }
      forall i | FirstDifference(a[1..], b[1..], i)
        ensures FirstDifference(a, b, i + 1)
      {
        assert a[..i + 1] == [a[0]] + a[1..][..i] && b[..i + 1] == [b[0]] + b[1..][..i];
      }
    } else if |a| > 0 && |b| > 0 {
      assert FirstDifference(a, b, 0);
    }
  }

  predicate FirstDifference(a: Str, b: Str, i: int) {
    0 <= i < |a| && i < |b| && a[..i] == b[..i] && a[i] != b[i]
  }

  lemma {:induction false} LessTotal(a: Str, b: Str)
    ensures a == b || Less(a, b) || Less(b, a)
  {
    if |a| > 0 && |b| > 0 && a[0] == b[0] {
      LessTotal(a[1..], b[1..]);
      assert a == [a[0]] + a[1..] && b == [b[0]] + b[1..];
    }
  }

  lemma {:induction false} LessAsymmetric(a: Str, b: Str)
    requires Less(a, b)
    ensures !Less(b, a) && a != b
  {
    if |a| > 0 && a[0] == b[0] {
      LessAsymmetric(a[1..], b[1..]);
    }
  }

  lemma {:induction false} LessTransitive(a: Str, b: Str, c: Str)
    requires Less(a, b) && Less(b, c)
    ensures Less(a, c)
  {
    if |a| > 0 && a[0] == b[0] == c[0] {
      LessTransitive(a[1..], b[1..], c[1..]);
    }
  }

  /** Strictly ascending, hence duplicate-free. */
  ghost predicate Ascending(s: seq<Str>) {
    forall i, j :: 0 <= i < j < |s| ==> Less(s[i], s[j])
  }

  ghost predicate NonDescending(s: seq<Str>) {
    forall i, j :: 0 <= i < j < |s| ==> !Less(s[j], s[i])
  }

  ghost predicate NoDuplicates<T>(s: seq<T>) {
    forall i, j :: 0 <= i < j < |s| ==> s[i] != s[j]
  }

  function ToSet<T>(s: seq<T>): set<T> {
    set x | x in s
  }

  function Insert(x: Str, s: seq<Str>): (r: seq<Str>)
    ensures multiset(r) == multiset{x} + multiset(s)
  {
    if |s| == 0 || !Less(s[0], x) then [x] + s
    else
      assert s == [s[0]] + s[1..];
      [s[0]] + Insert(x, s[1..])
  }

  /** What `s.sort()` returns on an array of strings. */
  function Sort(s: seq<Str>): (r: seq<Str>)
    ensures multiset(r) == multiset(s)
  {
    if |s| == 0 then []
    else
      assert s == [s[0]] + s[1..];
      Insert(s[0], Sort(s[1..]))
  }

  lemma {:induction false} InsertKeepsOrder(x: Str, s: seq<Str>)
    requires NonDescending(s)
    ensures NonDescending(Insert(x, s))
  {
    var r := Insert(x, s);
    if |s| > 0 && Less(s[0], x) {
      var t := Insert(x, s[1..]);
      InsertKeepsOrder(x, s[1..]);
      forall j | 0 <= j < |t|
        ensures !Less(t[j], s[0])
      {
        assert t[j] in multiset(t);
        assert t[j] == x || t[j] in s[1..];
        if t[j] == x {
          LessAsymmetric(s[0], x);
        }
      }
    } else {
      forall j | 0 <= j < |s|
        ensures !Less(s[j], x)
      {
        if Less(s[j], x) {
          LessTotal(s[0], x);
          if j > 0 {
            assert !Less(s[j], s[0]);
            if s[0] != x {
              LessTransitive(s[j], x, s[0]);
            }
          }
        }
      }
    }
  }

  lemma {:induction false} SortOrders(s: seq<Str>)
    ensures NonDescending(Sort(s))
  {
    if |s| > 0 {
      SortOrders(s[1..]);
      InsertKeepsOrder(s[0], Sort(s[1..]));
    }
  }

  lemma SameElements<T>(a: seq<T>, b: seq<T>)
    requires multiset(a) == multiset(b)
    ensures ToSet(a) == ToSet(b) && |a| == |b|
  {
    forall x | x in a || x in b
      ensures x in a && x in b
    {
      assert x in multiset(a);
    }
    assert |multiset(a)| == |multiset(b)|;
  }

  lemma NoDuplicatesByCount<T>(s: seq<T>)
    requires forall x :: x in s ==> multiset(s)[x] == 1
    ensures NoDuplicates(s)
  {
    forall i, j | 0 <= i < j < |s|
      ensures s[i] != s[j]
    {
      assert s == s[..i] + [s[i]] + s[i + 1..j] + [s[j]] + s[j + 1..];
      assert s[i] == s[j] ==> multiset(s)[s[i]] >= 2;
    }
  }

  lemma {:induction false} CountByNoDuplicates<T>(s: seq<T>)
    requires NoDuplicates(s)
    ensures forall x :: x in s ==> multiset(s)[x] == 1
  {
    if |s| > 0 {
      CountByNoDuplicates(s[1..]);
      assert s == [s[0]] + s[1..];
    }
  }

  /** Sorting a duplicate-free array of strings puts it in strictly ascending order. */
  lemma SortAscends(s: seq<Str>)
    requires NoDuplicates(s)
    ensures Ascending(Sort(s)) && ToSet(Sort(s)) == ToSet(s) && |Sort(s)| == |s|
  {
    var r := Sort(s);
    SortOrders(s);
    SameElements(r, s);
    CountByNoDuplicates(s);
    forall x | x in r
      ensures multiset(r)[x] == 1
    {
      assert x in ToSet(r);
    }
    NoDuplicatesByCount(r);
    forall i, j | 0 <= i < j < |r|
      ensures Less(r[i], r[j])
    {
      LessTotal(r[i], r[j]);
    }
  }

  /** A strictly ascending sequence is determined by its elements. */
  lemma {:induction false} AscendingUnique(a: seq<Str>, b: seq<Str>)
    requires Ascending(a) && Ascending(b) && ToSet(a) == ToSet(b)
    ensures a == b
  {
    assert |a| > 0 ==> a[0] in ToSet(a);
    assert |b| > 0 ==> b[0] in ToSet(b);
    if |a| > 0 {
      AscendingHeads(a, b);
      forall x
        ensures x in ToSet(a[1..]) <==> x in ToSet(a) && x != a[0]
        ensures x in ToSet(b[1..]) <==> x in ToSet(b) && x != b[0]
      {
        TailElements(a, x);
        TailElements(b, x);
      }
      AscendingUnique(a[1..], b[1..]);
      assert a == [a[0]] + a[1..] && b == [b[0]] + b[1..];
    }
  }

  lemma TailElements(a: seq<Str>, x: Str)
    requires |a| > 0 && Ascending(a)
    ensures x in ToSet(a[1..]) <==> x in ToSet(a) && x != a[0]
  {
    if x in a[1..] {
      var j :| 0 <= j < |a[1..]| && a[1..][j] == x;
      LessAsymmetric(a[0], a[j + 1]);
    }
  }

  lemma AscendingHeads(a: seq<Str>, b: seq<Str>)
    requires |a| > 0 && |b| > 0 && Ascending(a) && Ascending(b) && ToSet(a) == ToSet(b)
    ensures a[0] == b[0]
  {
    assert a[0] in ToSet(b) && b[0] in ToSet(a);
    var i :| 0 <= i < |b| && b[i] == a[0];
    var j :| 0 <= j < |a| && a[j] == b[0];
    if i > 0 && j > 0 {
      LessAsymmetric(a[0], a[j]);
    }
  }

  /** The elements of `order` that are in `s`, in the order of `order`. */
  function Keep<T(==,!new)>(order: seq<T>, s: set<T>): (r: seq<T>)
    ensures forall x :: x in r <==> x in order && x in s
  {
    if |order| == 0 then []
    else if order[0] in s then [order[0]] + Keep(order[1..], s)
    else Keep(order[1..], s)
  }

  lemma {:induction false} KeepNoDuplicates<T(!new)>(order: seq<T>, s: set<T>)
    requires NoDuplicates(order)
    ensures NoDuplicates(Keep(order, s))
  {
    if |order| > 0 {
      KeepNoDuplicates(order[1..], s);
    }
  }

  lemma {:induction false} KeepConcat<T(!new)>(a: seq<T>, b: seq<T>, s: set<T>)
    ensures Keep(a + b, s) == Keep(a, s) + Keep(b, s)
  {
    if |a| == 0 {
      assert a + b == b;
    } else {
      KeepConcat(a[1..], b, s);
      assert (a + b)[1..] == a[1..] + b;
    }
  }

  lemma {:induction false} KeepAll<T(!new)>(a: seq<T>, s: set<T>)
    requires forall x :: x in a ==> x in s
    ensures Keep(a, s) == a
  {
    if |a| > 0 {
      KeepAll(a[1..], s);
    }
  }

  lemma {:induction false} KeepTwice<T(!new)>(a: seq<T>, s: set<T>, t: set<T>)
    requires t <= s
    ensures Keep(Keep(a, s), t) == Keep(a, t)
  {
    if |a| > 0 {
      KeepTwice(a[1..], s, t);
    }
  }

  lemma {:induction false} NoDuplicatesSize<T>(s: seq<T>)
    requires NoDuplicates(s)
    ensures |ToSet(s)| == |s|
  {
    if |s| > 0 {
      NoDuplicatesSize(s[1..]);
      assert ToSet(s) == {s[0]} + ToSet(s[1..]);
    }
  }

  lemma FirstAndRest<T>(s: seq<T>)
    requires |s| > 0
    ensures s == [s[0]] + s[1..]
  {
  }

  lemma AllButLast<T>(s: seq<T>)
    requires |s| > 0
    ensures s == s[..|s| - 1] + [s[|s| - 1]]
  {
  }

  lemma WholeSeq<T>(s: seq<T>)
    ensures s[..|s|] == s
  {
  }

  const COLON: CodeUnit := 0x3A
  const SLASH: CodeUnit := 0x2F
  const BAR: CodeUnit := 0x7C

  predicate IsDigit(c: CodeUnit) {
    0x30 <= c <= 0x39
  }

  /** `String(n)` for a natural number. */
  function Decimal(n: nat): (r: Str)
    ensures |r| > 0 && forall c :: c in r ==> IsDigit(c)
  {
    if n < 10 then [0x30 + n] else Decimal(n / 10) + [0x30 + n % 10]
  }

  lemma {:induction false} DecimalInjective(m: nat, n: nat)
    requires Decimal(m) == Decimal(n)
    ensures m == n
  {
    var a, b := Decimal(m), Decimal(n);
    assert a[|a| - 1] == 0x30 + m % 10 && b[|b| - 1] == 0x30 + n % 10;
    if m >= 10 || n >= 10 {
      DecimalLength(m);
      DecimalLength(n);
      assert a[..|a| - 1] == Decimal(m / 10) && b[..|b| - 1] == Decimal(n / 10);
      DecimalInjective(m / 10, n / 10);
    }
  }

  lemma DecimalLength(n: nat)
    ensures |Decimal(n)| > 1 <==> n >= 10
  {
  }

  /** A text is split in one way only at the first occurrence of a delimiter. */
  lemma {:induction false} SplitAtFirst(d: CodeUnit, a: Str, r: Str, b: Str, s: Str)
    requires d !in a && d !in b
    requires a + [d] + r == b + [d] + s
    ensures a == b && r == s
  {
    var t, u := a + [d] + r, b + [d] + s;
    assert t[|a|] == d && u[|b|] == d;
    assert forall i :: 0 <= i < |a| ==> t[i] == a[i] != d;
    assert forall i :: 0 <= i < |b| ==> u[i] == b[i] != d;
    assert a == t[..|a|] && b == u[..|b|];
    assert r == t[|a| + 1..] && s == u[|b| + 1..];
  }
}
