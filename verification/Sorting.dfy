/** Sorting by a comparison, and the comparisons in use. */
module Sorting {
  predicate Before(a: string, b: string) {
    b != "" && (a == "" || a[0] < b[0] || (a[0] == b[0] && Before(a[1..], b[1..])))
  }

  function InsertBy<T>(x: T, s: seq<T>, before: (T, T) -> bool): seq<T> {
    if s == [] then [x]
    else if before(x, s[0]) then [x] + s
    else [s[0]] + InsertBy(x, s[1..], before)
  }

  function SortBy<T>(s: seq<T>, before: (T, T) -> bool): seq<T> {
    if s == [] then [] else InsertBy(s[0], SortBy(s[1..], before), before)
  }

  lemma {:induction false} InsertByMultiset<T>(x: T, s: seq<T>, before: (T, T) -> bool)
    ensures multiset(InsertBy(x, s, before)) == multiset([x]) + multiset(s)
  {
    if s != [] && !before(x, s[0]) {
      InsertByMultiset(x, s[1..], before);
      assert s == [s[0]] + s[1..];
    }
  }

  /** Sorting permutes. */
  lemma {:induction false} SortByMultiset<T>(s: seq<T>, before: (T, T) -> bool)
    ensures multiset(SortBy(s, before)) == multiset(s)
  {
    if s != [] {
      SortByMultiset(s[1..], before);
      InsertByMultiset(s[0], SortBy(s[1..], before), before);
      assert s == [s[0]] + s[1..];
    }
  }

  /** No element comes before an earlier one. */
  ghost predicate Ordered<T>(s: seq<T>, before: (T, T) -> bool) {
    forall i, j :: 0 <= i < j < |s| ==> !before(s[j], s[i])
  }

  /** What sorting needs of a comparison. */
  ghost predicate Compares<T(!new)>(before: (T, T) -> bool) {
    && (forall a, b :: before(a, b) ==> !before(b, a))
    && (forall a, b, c :: !before(b, a) && !before(c, b) ==> !before(c, a))
  }

  lemma {:induction false} InsertByOrdered<T(!new)>(x: T, s: seq<T>, before: (T, T) -> bool)
    requires Compares(before) && Ordered(s, before)
    ensures Ordered(InsertBy(x, s, before), before)
  {
    if s != [] {
      if before(x, s[0]) {
        forall j | 0 <= j < |s| ensures !before(s[j], x) {
          assert !before(s[0], x) && (j > 0 ==> !before(s[j], s[0]));
        }
      } else {
        var t := InsertBy(x, s[1..], before);
        InsertByOrdered(x, s[1..], before);
        InsertByMultiset(x, s[1..], before);
        forall j | 0 <= j < |t| ensures !before(t[j], s[0]) {
          assert t[j] in multiset(t);
          if t[j] != x {
            assert t[j] in multiset(s[1..]);
            var k :| 0 <= k < |s[1..]| && s[1..][k] == t[j];
            assert s[k + 1] == t[j];
          }
        }
      }
    }
  }

  /** Sorting sorts. */
  lemma {:induction false} SortByOrdered<T(!new)>(s: seq<T>, before: (T, T) -> bool)
    requires Compares(before)
    ensures Ordered(SortBy(s, before), before)
  {
    if s != [] {
      SortByOrdered(s[1..], before);
      InsertByOrdered(s[0], SortBy(s[1..], before), before);
    }
  }

  lemma {:induction false} BeforeOneWay(a: string, b: string)
    ensures a == b ==> !Before(a, b)
    ensures a != b ==> (Before(a, b) <==> !Before(b, a))
  {
    if a != "" && b != "" && a[0] == b[0] {
      BeforeOneWay(a[1..], b[1..]);
      assert a == [a[0]] + a[1..] && b == [b[0]] + b[1..];
    }
  }

  /** One string comes before another if it is a proper prefix of it, or has the smaller character
      where the two part. */
  lemma {:induction false} BeforeExact(a: string, b: string)
    ensures Before(a, b) <==> exists n: nat :: PartsAt(a, b, n)
  {
    if b != "" && a != "" && a[0] == b[0] {
      BeforeExact(a[1..], b[1..]);
      if n: nat :| PartsAt(a[1..], b[1..], n) {
        assert PartsAt(a, b, n + 1) by {
          assert forall i :: 0 < i < n + 1 ==> a[i] == a[1..][i - 1] && b[i] == b[1..][i - 1];
        }
      }
      if n: nat :| PartsAt(a, b, n) {
        assert n > 0;
        assert PartsAt(a[1..], b[1..], n - 1);
      }
    } else if b != "" && (a == "" || a[0] < b[0]) {
      assert PartsAt(a, b, 0);
    }
  }

  /** The first `n` characters agree, and then the one string ends or has the smaller character. */
  predicate PartsAt(a: string, b: string, n: nat) {
    n <= |a| && n < |b| && (forall i :: 0 <= i < n ==> a[i] == b[i]) && (n == |a| || a[n] < b[n])
  }

  lemma {:induction false} BeforeTransitive(a: string, b: string, c: string)
    requires Before(a, b) && Before(b, c)
    ensures Before(a, c)
  {
    if a != "" && a[0] == b[0] == c[0] {
      BeforeTransitive(a[1..], b[1..], c[1..]);
    }
  }

  lemma NotBeforeTransitive(a: string, b: string, c: string)
    requires !Before(b, a) && !Before(c, b)
    ensures !Before(c, a)
  {
    BeforeOneWay(a, b);
    BeforeOneWay(b, c);
    BeforeOneWay(a, c);
    if Before(a, b) && Before(b, c) {
      BeforeTransitive(a, b, c);
    }
  }

  /** By one string, then by another. */
  predicate PairBefore(p: string, q: string, p': string, q': string) {
    if p != p' then Before(p, p') else Before(q, q')
  }

  lemma PairOneWay(p: string, q: string, p': string, q': string)
    requires PairBefore(p, q, p', q')
    ensures !PairBefore(p', q', p, q)
  {
    BeforeOneWay(p, p');
    BeforeOneWay(q, q');
  }

  lemma PairNotBeforeTransitive(p: string, q: string, p': string, q': string, p'': string, q'': string)
    requires !PairBefore(p', q', p, q) && !PairBefore(p'', q'', p', q')
    ensures !PairBefore(p'', q'', p, q)
  {
    BeforeOneWay(p, p');
    BeforeOneWay(p', p'');
    BeforeOneWay(p, p'');
    if p == p' == p'' {
      NotBeforeTransitive(q, q', q'');
    } else {
      NotBeforeTransitive(p, p', p'');
    }
  }

  lemma MemberOf<T>(s: seq<T>, t: seq<T>, x: T)
    requires multiset(s) == multiset(t) && x in s
    ensures x in t
  {
    assert x in multiset(t);
  }

  /** Sorted lists of strings with the same members, repeats counted, are the same list. */
  lemma {:induction false} SortedUnique(s: seq<string>, t: seq<string>)
    requires multiset(s) == multiset(t) && Ordered(s, Before) && Ordered(t, Before)
    ensures s == t
  {
    assert |s| == |multiset(s)| == |multiset(t)| == |t|;
    if s != [] {
      MemberOf(s, t, s[0]);
      MemberOf(t, s, t[0]);
      SmallestFirst(s, t[0]);
      SmallestFirst(t, s[0]);
      BeforeOneWay(s[0], t[0]);
      assert s == [s[0]] + s[1..] && t == [t[0]] + t[1..];
      assert multiset(s[1..]) == multiset(s) - multiset{s[0]} == multiset(t[1..]);
      SortedUnique(s[1..], t[1..]);
    }
  }

  lemma SmallestFirst(s: seq<string>, x: string)
    requires Ordered(s, Before) && x in s
    ensures !Before(x, s[0])
  {
    var i :| 0 <= i < |s| && s[i] == x;
    BeforeOneWay(s[0], s[0]);
  }

  lemma StringsCompare()
    ensures Compares(Before)
  {
    forall a, b | Before(a, b) ensures !Before(b, a) {
      BeforeOneWay(a, b);
    }
    forall a, b, c | !Before(b, a) && !Before(c, b) ensures !Before(c, a) {
      NotBeforeTransitive(a, b, c);
    }
  }

  /** Sorting decides equality as multisets. */
  lemma SortedDecides(a: seq<string>, b: seq<string>)
    ensures |SortBy(a, Before)| == |a| && |SortBy(b, Before)| == |b|
    ensures SortBy(a, Before) == SortBy(b, Before) <==> multiset(a) == multiset(b)
  {
    var sa, sb := SortBy(a, Before), SortBy(b, Before);
    SortByMultiset(a, Before);
    SortByMultiset(b, Before);
    assert |sa| == |multiset(sa)| == |multiset(a)| == |a| && |sb| == |multiset(sb)| == |multiset(b)| == |b|;
    if multiset(a) == multiset(b) {
      StringsCompare();
      SortByOrdered(a, Before);
      SortByOrdered(b, Before);
      SortedUnique(sa, sb);
    }
  }

  method SameList<T(==)>(s: seq<T>, t: seq<T>) returns (r: bool)
    ensures r <==> s == t
  {
    if |s| != |t| {
      return false;
    }
    for i := 0 to |s|
      invariant forall j :: 0 <= j < i ==> s[j] == t[j]
    {
      if s[i] != t[i] {
        return false;
      }
    }
    return true;
  }

  /** Comparing the sorted lists element by element. */
  method SortedStringsEqual(a: seq<string>, b: seq<string>) returns (r: bool)
    ensures r <==> multiset(a) == multiset(b)
  {
    SortedDecides(a, b);
    r := SameList(SortBy(a, Before), SortBy(b, Before));
  }
}
