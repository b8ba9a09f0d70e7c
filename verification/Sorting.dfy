/**
 Orders, sorting, and quantities of a sequence that do not depend on its order. `Sort` stands
 for the built-in `sorted`. Under a total order the ordered rearrangement is the only one
 (`SortedIsUnique`); under an order with ties `SortsAlike` uses that sorting is stable.
 */
module Sorting {

  /** Any two elements compare; different ones may be tied. */
  ghost predicate TotalPreorder<T(!new)>(leq: (T, T) -> bool) {
    && (forall x, y :: leq(x, y) || leq(y, x))
    && (forall x, y, z :: leq(x, y) && leq(y, z) ==> leq(x, z))
  }

  ghost predicate TotalOrder<T(!new)>(leq: (T, T) -> bool) {
    && TotalPreorder(leq)
    && (forall x, y :: leq(x, y) && leq(y, x) ==> x == y)
  }

  predicate Sorted<T>(leq: (T, T) -> bool, s: seq<T>) {
    forall i, j :: 0 <= i < j < |s| ==> leq(s[i], s[j])
  }

  predicate Distinct<T(==)>(s: seq<T>) {
    forall i, j :: 0 <= i < j < |s| ==> s[i] != s[j]
  }

  function Insert<T>(leq: (T, T) -> bool, x: T, s: seq<T>): (r: seq<T>)
    ensures multiset(r) == multiset(s) + multiset{x}
  {
    if s == [] then [x]
    else if leq(x, s[0]) then [x] + s
    else
      assert s == [s[0]] + s[1..];
      [s[0]] + Insert(leq, x, s[1..])
  }

  function Sort<T>(leq: (T, T) -> bool, s: seq<T>): (r: seq<T>)
    ensures multiset(r) == multiset(s)
  {
    if s == [] then []
    else
      assert s == [s[0]] + s[1..];
      Insert(leq, s[0], Sort(leq, s[1..]))
  }

  lemma {:induction false} InsertSorts<T(!new)>(leq: (T, T) -> bool, x: T, s: seq<T>)
    requires TotalPreorder(leq) && Sorted(leq, s)
    ensures Sorted(leq, Insert(leq, x, s))
  {
    if s != [] && !leq(x, s[0]) {
      var r := Insert(leq, x, s[1..]);
      InsertSorts(leq, x, s[1..]);
      forall y | y in r ensures leq(s[0], y) {
        assert y in multiset(r);
        assert y == x || y in multiset(s[1..]);
      }
    }
  }

  lemma {:induction false} SortSorts<T(!new)>(leq: (T, T) -> bool, s: seq<T>)
    requires TotalPreorder(leq)
    ensures Sorted(leq, Sort(leq, s))
  {
    if s != [] {
      SortSorts(leq, s[1..]);
      InsertSorts(leq, s[0], Sort(leq, s[1..]));
    }
  }

  lemma SameElements<T>(a: seq<T>, b: seq<T>)
    requires multiset(a) == multiset(b)
    ensures |a| == |b|
    ensures forall x :: x in a <==> x in b
  {
    assert |a| == |multiset(a)| == |multiset(b)| == |b|;
    forall x ensures x in a <==> x in b {
      assert x in a <==> x in multiset(a);
      assert x in b <==> x in multiset(b);
    }
  }

  lemma PrefixStep<T>(s: seq<T>, i: nat)
    requires i < |s|
    ensures s[..i + 1] == s[..i] + [s[i]]
  {
  }

  lemma EqualAt<T>(a: seq<T>, b: seq<T>)
    requires |a| == |b|
    ensures a == b <==> forall i: nat :: i < |a| ==> a[i] == b[i]
  {
  }

  /** Concatenations whose last parts are equally long are equal part by part. */
  lemma PartsEqual<T>(a: seq<T>, b: seq<T>, c: seq<T>, d: seq<T>)
    requires |b| == |d|
    ensures a + b == c + d <==> a == c && b == d
  {
    if a + b == c + d {
      var n := |a + b| - |b|;
      assert a == (a + b)[..n] && c == (c + d)[..n];
      assert b == (a + b)[n..] && d == (c + d)[n..];
    }
  }

  lemma PairJoined<T>(x: T, y: T)
    ensures [x, y] == [x] + [y]
  {
  }

  lemma WholePrefix<T>(s: seq<T>)
    ensures s[..|s|] == s
  {
  }

  ghost predicate AllAt<T(!new)>(p: (nat, T) -> bool, s: seq<T>) {
    forall q: nat :: q < |s| ==> p(q, s[q])
  }

  lemma AllAtOneMore<T(!new)>(p: (nat, T) -> bool, s: seq<T>, x: T)
    requires AllAt(p, s) && p(|s|, x)
    ensures AllAt(p, s + [x])
  {
  }

  lemma ConcatAssociates<T>(a: seq<T>, b: seq<T>, c: seq<T>)
    ensures a + (b + c) == a + b + c
  {
  }

  lemma SplitAt<T>(s: seq<T>, k: nat)
    requires k <= |s|
    ensures s == s[..k] + s[k..]
  {
  }

  lemma SplitLast<T>(s: seq<T>)
    requires s != []
    ensures s == s[..|s| - 1] + [s[|s| - 1]]
  {
  }

  lemma MultisetDropFirst<T>(s: seq<T>)
    requires s != []
    ensures multiset(s[1..]) == multiset(s) - multiset{s[0]}
  {
    assert s == [s[0]] + s[1..];
  }

  /** s without the first x. */
  function AllBut<T(==)>(s: seq<T>, x: T): (r: seq<T>)
    requires x in s
    ensures multiset(r) == multiset(s) - multiset{x}
  {
    MultisetDropFirst(s);
    if s[0] == x then s[1..]
    else [s[0]] + AllBut(s[1..], x)
  }

  lemma StillThere<T>(s: seq<T>, a: T, b: T)
    requires a in s && b in s && a != b
    ensures b in AllBut(s, a)
  {
    assert b in multiset(s);
    assert b in multiset(AllBut(s, a));
  }

  lemma PutBack<T>(m: multiset<T>, x: T)
    requires x in m
    ensures m - multiset{x} + multiset{x} == m
  {
  }

  lemma TwoPutLast<T>(s: seq<T>, a: T, b: T) returns (rest: seq<T>)
    requires a in s && b in s && a != b
    ensures multiset(rest + [a] + [b]) == multiset(s)
    ensures multiset(rest + [b] + [a]) == multiset(s)
  {
    StillThere(s, a, b);
    rest := AllBut(AllBut(s, a), b);
    TwoCounted(rest, b, a);
    TwoCounted(rest, a, b);
    PutBack(multiset(AllBut(s, a)), b);
    PutBack(multiset(s), a);
    TwoSwapped(multiset(rest), a, b);
  }

  lemma TwoSwapped<T>(m: multiset<T>, a: T, b: T)
    ensures m + multiset{a} + multiset{b} == m + multiset{b} + multiset{a}
  {
  }

  lemma TwoCounted<T>(s: seq<T>, a: T, b: T)
    ensures multiset(s + [a] + [b]) == multiset(s) + multiset{a} + multiset{b}
  {
  }

  lemma SortedHeadIsLeast<T(!new)>(leq: (T, T) -> bool, s: seq<T>, x: T)
    requires TotalOrder(leq) && Sorted(leq, s) && x in s
    ensures leq(s[0], x)
  {
    var k :| 0 <= k < |s| && s[k] == x;
    if k == 0 {
      assert leq(x, x) || leq(x, x);
    }
  }

  lemma SortedHeadsAgree<T(!new)>(leq: (T, T) -> bool, a: seq<T>, b: seq<T>)
    requires TotalOrder(leq) && Sorted(leq, a) && Sorted(leq, b)
    requires multiset(a) == multiset(b) && a != []
    ensures b != [] && a[0] == b[0]
  {
    SameElements(a, b);
    SortedHeadIsLeast(leq, a, b[0]);
    SortedHeadIsLeast(leq, b, a[0]);
  }

  lemma SortedTail<T(!new)>(leq: (T, T) -> bool, s: seq<T>)
    requires Sorted(leq, s) && s != []
    ensures Sorted(leq, s[1..])
  {
  }

  /** Two ordered rearrangements of the same elements are the same sequence. */
  lemma {:induction false} SortedIsUnique<T(!new)>(leq: (T, T) -> bool, a: seq<T>, b: seq<T>)
    requires TotalOrder(leq) && Sorted(leq, a) && Sorted(leq, b)
    requires multiset(a) == multiset(b)
    ensures a == b
  {
    SameElements(a, b);
    if a != [] {
      SortedHeadsAgree(leq, a, b);
      MultisetDropFirst(a);
      MultisetDropFirst(b);
      SortedTail(leq, a);
      SortedTail(leq, b);
      SortedIsUnique(leq, a[1..], b[1..]);
      SplitFirst(a);
      SplitFirst(b);
    }
  }

  lemma SortIsCanonical<T(!new)>(leq: (T, T) -> bool, a: seq<T>, b: seq<T>)
    requires TotalOrder(leq)
    requires multiset(a) == multiset(b)
    ensures Sort(leq, a) == Sort(leq, b)
  {
    SortSorts(leq, a);
    SortSorts(leq, b);
    SortedIsUnique(leq, Sort(leq, a), Sort(leq, b));
  }

  // ----- distinctness and multiplicities

  lemma DistinctHead<T>(s: seq<T>)
    requires s != []
    ensures Distinct(s) <==> Distinct(s[1..]) && s[0] !in s[1..]
  {
    var t := s[1..];
    if Distinct(s) {
      assert forall i, j :: 0 <= i < j < |t| ==> t[i] == s[i + 1] && t[j] == s[j + 1];
    } else {
      var i, j :| 0 <= i < j < |s| && s[i] == s[j];
      assert t[j - 1] == s[j];
      assert i > 0 ==> t[i - 1] == s[i];
    }
  }

  lemma CountsOfHead<T>(s: seq<T>)
    requires s != []
    ensures forall x :: multiset(s)[x] == multiset(s[1..])[x] + (if x == s[0] then 1 else 0)
  {
    assert s == [s[0]] + s[1..];
  }

  lemma {:induction false} DistinctCounts<T>(s: seq<T>)
    ensures Distinct(s) <==> forall x :: multiset(s)[x] <= 1
  {
    if s != [] {
      DistinctCounts(s[1..]);
      DistinctHead(s);
      CountsOfHead(s);
      assert s[0] in s[1..] <==> s[0] in multiset(s[1..]);
      if !Distinct(s[1..]) {
        var x :| multiset(s[1..])[x] > 1;
        assert multiset(s)[x] > 1;
      }
    }
  }

  lemma DistinctRearranged<T>(a: seq<T>, b: seq<T>)
    requires multiset(a) == multiset(b)
    ensures Distinct(a) <==> Distinct(b)
  {
    DistinctCounts(a);
    DistinctCounts(b);
  }

  /** Distinct sequences with the same members are rearrangements of each other. */
  lemma DistinctSameMembers<T>(a: seq<T>, b: seq<T>)
    requires Distinct(a) && Distinct(b)
    requires forall x :: x in a <==> x in b
    ensures multiset(a) == multiset(b)
  {
    DistinctCounts(a);
    DistinctCounts(b);
    forall x ensures multiset(a)[x] == multiset(b)[x] {
      assert x in a <==> x in multiset(a);
      assert x in b <==> x in multiset(b);
    }
  }

  // ----- removing repetitions, joining lists

  /** The members of s in order of first appearance, as the keys of a dictionary. */
  function Keys<T(==)>(s: seq<T>): (r: seq<T>)
    ensures Distinct(r)
    ensures forall i :: 0 <= i < |s| ==> s[i] in r
    ensures forall i :: 0 <= i < |r| ==> r[i] in s
  {
    if s == [] then []
    else
      var n := |s| - 1;
      var r := Keys(s[..n]);
      if s[n] in r then r else r + [s[n]]
  }

  function Flatten<T>(lists: seq<seq<T>>): seq<T> {
    if lists == [] then []
    else Flatten(lists[..|lists| - 1]) + lists[|lists| - 1]
  }

  ghost predicate Disjoint<T>(lists: seq<seq<T>>) {
    forall i, j, x :: 0 <= i < j < |lists| && x in lists[i] ==> x !in lists[j]
  }

  lemma {:induction false} FlattenMembers<T>(lists: seq<seq<T>>, x: T)
    ensures x in Flatten(lists) <==> exists i :: 0 <= i < |lists| && x in lists[i]
  {
    if lists != [] {
      var n := |lists| - 1;
      FlattenMembers(lists[..n], x);
      if x in Flatten(lists) && x !in lists[n] {
        var i :| 0 <= i < n && x in lists[..n][i];
        assert x in lists[i];
      }
      if i :| 0 <= i < |lists| && x in lists[i] {
        assert i < n ==> x in lists[..n][i];
      }
    }
  }

  lemma DistinctAppend<T>(a: seq<T>, b: seq<T>)
    requires Distinct(a) && Distinct(b)
    requires forall x :: x in a ==> x !in b
    ensures Distinct(a + b)
  {
    var s := a + b;
    forall i, j | 0 <= i < j < |s| ensures s[i] != s[j] {
      if j < |a| {
        assert a[i] != a[j];
      } else if i < |a| {
        assert a[i] in a && b[j - |a|] in b;
      } else {
        assert b[i - |a|] != b[j - |a|];
      }
    }
  }

  lemma {:induction false} FlattenDistinct<T>(lists: seq<seq<T>>)
    requires Disjoint(lists)
    requires forall i :: 0 <= i < |lists| ==> Distinct(lists[i])
    ensures Distinct(Flatten(lists))
  {
    if lists != [] {
      var n := |lists| - 1;
      var front, last := Flatten(lists[..n]), lists[n];
      FlattenDistinct(lists[..n]);
      forall x | x in front ensures x !in last {
        FlattenMembers(lists[..n], x);
        var i :| 0 <= i < n && x in lists[..n][i];
        assert x in lists[i];
      }
      DistinctAppend(front, last);
    }
  }

  function MemberSet<T(==)>(s: seq<T>): set<T> {
    set x | x in s
  }

  lemma MemberSetAppend<T>(s: seq<T>, x: T)
    ensures MemberSet(s + [x]) == MemberSet(s) + {x}
  {
    assert forall y :: y in s + [x] <==> y in s || y == x;
  }

  lemma {:induction false} SetSizeMeansDistinct<T>(s: seq<T>)
    ensures |MemberSet(s)| <= |s|
    ensures |MemberSet(s)| == |s| <==> Distinct(s)
  {
    if s != [] {
      var n := |s| - 1;
      SetSizeMeansDistinct(s[..n]);
      SplitLast(s);
      MemberSetAppend(s[..n], s[n]);
      if s[n] in s[..n] {
        assert MemberSet(s) == MemberSet(s[..n]);
        var k :| 0 <= k < n && s[k] == s[n];
      } else if Distinct(s[..n]) {
        DistinctAppend(s[..n], [s[n]]);
      } else {
        var a, b :| 0 <= a < b < n && s[..n][a] == s[..n][b];
        assert s[a] == s[b];
      }
    }
  }

  // ----- sums

  function SumBy<T>(f: T -> nat, s: seq<T>): nat {
    if s == [] then 0 else f(s[0]) + SumBy(f, s[1..])
  }

  lemma {:induction false} SumByAppend<T>(f: T -> nat, a: seq<T>, b: seq<T>)
    ensures SumBy(f, a + b) == SumBy(f, a) + SumBy(f, b)
  {
    if a == [] {
      assert a + b == b;
    } else {
      assert (a + b)[1..] == a[1..] + b;
      SumByAppend(f, a[1..], b);
    }
  }

  lemma SumByLast<T>(f: T -> nat, s: seq<T>)
    requires s != []
    ensures SumBy(f, s) == SumBy(f, s[..|s| - 1]) + f(s[|s| - 1])
  {
    var n := |s| - 1;
    SplitLast(s);
    SumByAppend(f, s[..n], [s[n]]);
    assert SumBy(f, [s[n]]) == f(s[n]) + SumBy(f, []);
  }

  lemma DropAt<T>(s: seq<T>, k: nat)
    requires k < |s|
    ensures s == s[..k] + ([s[k]] + s[k + 1..])
    ensures multiset(s[..k] + s[k + 1..]) == multiset(s) - multiset{s[k]}
  {
    assert s == s[..k] + ([s[k]] + s[k + 1..]);
  }

  lemma {:induction false} SumByRearranged<T>(f: T -> nat, a: seq<T>, b: seq<T>)
    requires multiset(a) == multiset(b)
    ensures SumBy(f, a) == SumBy(f, b)
  {
    SameElements(a, b);
    if a != [] {
      assert a[0] in b;
      var k :| 0 <= k < |b| && b[k] == a[0];
      var rest := b[..k] + b[k + 1..];
      MultisetDropFirst(a);
      DropAt(b, k);
      SumByRearranged(f, a[1..], rest);
      SumByAppend(f, b[..k], [b[k]] + b[k + 1..]);
      SumByAppend(f, b[..k], b[k + 1..]);
    }
  }

  lemma {:induction false} SumByZero<T>(f: T -> nat, s: seq<T>)
    requires forall x :: x in s ==> f(x) == 0
    ensures SumBy(f, s) == 0
  {
    if s != [] {
      SumByZero(f, s[1..]);
    }
  }

  /** Functions that differ at one member only differ there in their sums. */
  lemma {:induction false} SumByBump<T>(f: T -> nat, g: T -> nat, s: seq<T>, x: T)
    requires Distinct(s) && x in s && forall y :: y in s && y != x ==> f(y) == g(y)
    ensures SumBy(f, s) + g(x) == SumBy(g, s) + f(x)
  {
    DistinctHead(s);
    if s[0] == x {
      SumByAgrees(f, g, s[1..]);
    } else {
      SumByBump(f, g, s[1..], x);
    }
  }

  lemma {:induction false} SumByPlus<T>(f: T -> nat, g: T -> nat, h: T -> nat, s: seq<T>)
    requires forall x :: x in s ==> f(x) == g(x) + h(x)
    ensures SumBy(f, s) == SumBy(g, s) + SumBy(h, s)
  {
    if s != [] {
      SumByPlus(f, g, h, s[1..]);
    }
  }

  lemma {:induction false} SumByAgrees<T>(f: T -> nat, g: T -> nat, s: seq<T>)
    requires forall x :: x in s ==> f(x) == g(x)
    ensures SumBy(f, s) == SumBy(g, s)
  {
    if s != [] {
      SumByAgrees(f, g, s[1..]);
    }
  }

  // ----- the order of strings: code point by code point, a prefix first

  predicate StringLeq(a: string, b: string) {
    a == [] || (b != [] && (a[0] < b[0] || (a[0] == b[0] && StringLeq(a[1..], b[1..]))))
  }

  lemma {:induction false} StringLeqTotal(a: string, b: string)
    ensures StringLeq(a, b) || StringLeq(b, a)
    ensures StringLeq(a, b) && StringLeq(b, a) ==> a == b
  {
    if a != [] && b != [] && a[0] == b[0] {
      StringLeqTotal(a[1..], b[1..]);
      if a[1..] == b[1..] {
        assert a == [a[0]] + a[1..] && b == [b[0]] + b[1..];
      }
    }
  }

  lemma {:induction false} StringLeqTransitive(a: string, b: string, c: string)
    requires StringLeq(a, b) && StringLeq(b, c)
    ensures StringLeq(a, c)
  {
    if a != [] && a[0] == b[0] == c[0] {
      StringLeqTransitive(a[1..], b[1..], c[1..]);
    }
  }

  /** The strings agree before k, and there a has the lesser character. */
  ghost predicate LessAt(a: string, b: string, k: nat) {
    k < |a| && k < |b| && a[..k] == b[..k] && a[k] < b[k]
  }

  /** The order of strings: a prefix first, otherwise by the first characters that differ. */
  lemma {:induction false} StringLeqMeans(a: string, b: string)
    ensures StringLeq(a, b) <==> a <= b || exists k: nat :: LessAt(a, b, k)
  {
    if a != [] && b != [] && a[0] == b[0] {
      StringLeqMeans(a[1..], b[1..]);
      SplitFirst(a);
      SplitFirst(b);
      if k: nat :| LessAt(a[1..], b[1..], k) {
        LessLater(a, b, k);
      }
      if k: nat :| LessAt(a, b, k) {
        LessEarlier(a, b, k);
      }
    } else if a != [] && b != [] {
      if a[0] < b[0] {
        assert LessAt(a, b, 0);
      }
      if k: nat :| LessAt(a, b, k) {
        assert k > 0 ==> a[..k][0] == b[..k][0];
      }
    }
  }

  lemma LessLater(a: string, b: string, k: nat)
    requires a != [] && b != [] && a[0] == b[0] && LessAt(a[1..], b[1..], k)
    ensures LessAt(a, b, k + 1)
  {
    assert a[..k + 1] == [a[0]] + a[1..][..k];
    assert b[..k + 1] == [b[0]] + b[1..][..k];
  }

  lemma LessEarlier(a: string, b: string, k: nat)
    requires a != [] && b != [] && a[0] == b[0] && LessAt(a, b, k)
    ensures k >= 1 && LessAt(a[1..], b[1..], k - 1)
  {
    assert a[1..][..k - 1] == a[..k][1..];
    assert b[1..][..k - 1] == b[..k][1..];
  }

  lemma StringOrder()
    ensures TotalOrder(StringLeq)
  {
    forall x, y ensures (StringLeq(x, y) || StringLeq(y, x)) && (StringLeq(x, y) && StringLeq(y, x) ==> x == y) {
      StringLeqTotal(x, y);
    }
    forall x, y, z | StringLeq(x, y) && StringLeq(y, z) ensures StringLeq(x, z) {
      StringLeqTransitive(x, y, z);
    }
  }

  function SortStrings(s: seq<string>): (r: seq<string>)
    ensures multiset(r) == multiset(s)
  {
    Sort(StringLeq, s)
  }

  lemma SortStringsSorts(s: seq<string>)
    ensures Sorted(StringLeq, SortStrings(s))
    ensures Distinct(SortStrings(s)) <==> Distinct(s)
    ensures |SortStrings(s)| == |s|
    ensures forall x :: x in SortStrings(s) <==> x in s
  {
    StringOrder();
    SortSorts(StringLeq, s);
    DistinctRearranged(SortStrings(s), s);
    SameElements(SortStrings(s), s);
  }

  // ----- filtering

  function Filter<T(!new)>(p: T -> bool, s: seq<T>): (r: seq<T>)
    ensures forall x :: x in r <==> x in s && p(x)
  {
    if s == [] then []
    else (if p(s[0]) then [s[0]] else []) + Filter(p, s[1..])
  }

  lemma {:induction false} FilterCounts<T(!new)>(p: T -> bool, s: seq<T>, x: T)
    ensures multiset(Filter(p, s))[x] == if p(x) then multiset(s)[x] else 0
  {
    if s != [] {
      assert s == [s[0]] + s[1..];
      FilterCounts(p, s[1..], x);
    }
  }

  lemma {:induction false} FilterKeepsSorted<T(!new)>(leq: (T, T) -> bool, p: T -> bool, s: seq<T>)
    requires Sorted(leq, s)
    ensures Sorted(leq, Filter(p, s))
  {
    if s != [] {
      var t := s[1..];
      FilterKeepsSorted(leq, p, t);
      forall x | x in t ensures leq(s[0], x) {
        var k :| 0 <= k < |t| && t[k] == x;
        assert s[k + 1] == x;
      }
    }
  }

  lemma FilterKeepsDistinct<T(!new)>(p: T -> bool, s: seq<T>)
    requires Distinct(s)
    ensures Distinct(Filter(p, s))
  {
    DistinctCounts(s);
    DistinctCounts(Filter(p, s));
    forall x ensures multiset(Filter(p, s))[x] <= 1 {
      FilterCounts(p, s, x);
    }
  }

  lemma {:induction false} FilterTwice<T(!new)>(p: T -> bool, q: T -> bool, s: seq<T>)
    requires forall x :: x in s && p(x) ==> q(x)
    ensures Filter(p, Filter(q, s)) == Filter(p, s)
  {
    if s != [] {
      FilterTwice(p, q, s[1..]);
      var rest := Filter(q, s[1..]);
      if q(s[0]) {
        assert ([s[0]] + rest)[1..] == rest;
      } else {
        assert Filter(q, s) == rest;
      }
    }
  }

  lemma {:induction false} FilterAppend<T(!new)>(p: T -> bool, s: seq<T>, x: T)
    ensures Filter(p, s + [x]) == Filter(p, s) + if p(x) then [x] else []
  {
    if s == [] {
      assert s + [x] == [x];
    } else {
      assert (s + [x])[1..] == s[1..] + [x];
      FilterAppend(p, s[1..], x);
    }
  }

  lemma {:induction false} FilterJoin<T(!new)>(p: T -> bool, a: seq<T>, b: seq<T>)
    ensures Filter(p, a + b) == Filter(p, a) + Filter(p, b)
  {
    if a == [] {
      assert a + b == b;
    } else {
      FilterJoin(p, a[1..], b);
      assert (a + b)[1..] == a[1..] + b;
      ConcatAssociates(if p(a[0]) then [a[0]] else [], Filter(p, a[1..]), Filter(p, b));
    }
  }

  // ----- sorting is stable: tied elements keep their order

  function TiedWith<T>(leq: (T, T) -> bool, x: T): T -> bool {
    y => leq(x, y) && leq(y, x)
  }

  ghost predicate SameTies<T(!new)>(leq: (T, T) -> bool, a: seq<T>, b: seq<T>) {
    forall x :: Filter(TiedWith(leq, x), a) == Filter(TiedWith(leq, x), b)
  }

  lemma FilterCons<T(!new)>(p: T -> bool, x: T, s: seq<T>)
    ensures Filter(p, [x] + s) == if p(x) then [x] + Filter(p, s) else Filter(p, s)
  {
    assert ([x] + s)[1..] == s;
    assert [] + Filter(p, s) == Filter(p, s);
  }

  lemma FilterSwap<T(!new)>(p: T -> bool, x: T, y: T, s: seq<T>)
    requires !(p(x) && p(y))
    ensures Filter(p, [x] + ([y] + s)) == Filter(p, [y] + ([x] + s))
  {
    FilterCons(p, x, [y] + s);
    FilterCons(p, y, s);
    FilterCons(p, y, [x] + s);
    FilterCons(p, x, s);
  }

  lemma {:induction false} InsertKeepsTies<T(!new)>(leq: (T, T) -> bool, y: T, s: seq<T>, x: T)
    requires TotalPreorder(leq)
    ensures Filter(TiedWith(leq, x), Insert(leq, y, s)) == Filter(TiedWith(leq, x), [y] + s)
  {
    if s != [] && !leq(y, s[0]) {
      var p, t := TiedWith(leq, x), s[1..];
      InsertKeepsTies(leq, y, t, x);
      FilterCons(p, s[0], Insert(leq, y, t));
      FilterCons(p, s[0], [y] + t);
      NotBothTied(leq, y, s[0], x);
      FilterSwap(p, s[0], y, t);
      SplitFirst(s);
    }
  }

  lemma NotBothTied<T(!new)>(leq: (T, T) -> bool, y: T, z: T, x: T)
    requires TotalPreorder(leq) && !leq(y, z)
    ensures !(TiedWith(leq, x)(z) && TiedWith(leq, x)(y))
  {
  }

  lemma {:induction false} SortKeepsTies<T(!new)>(leq: (T, T) -> bool, s: seq<T>, x: T)
    requires TotalPreorder(leq)
    ensures Filter(TiedWith(leq, x), Sort(leq, s)) == Filter(TiedWith(leq, x), s)
  {
    if s != [] {
      var p, t := TiedWith(leq, x), s[1..];
      SortKeepsTies(leq, t, x);
      InsertKeepsTies(leq, s[0], Sort(leq, t), x);
      FilterCons(p, s[0], Sort(leq, t));
      FilterCons(p, s[0], t);
      assert s == [s[0]] + t;
    }
  }

  /** A least element is the first of those tied with it. */
  lemma FirstOfTies<T(!new)>(leq: (T, T) -> bool, a: seq<T>, x: T)
    requires TotalPreorder(leq) && a != [] && TiedWith(leq, x)(a[0])
    ensures Filter(TiedWith(leq, x), a) == [a[0]] + Filter(TiedWith(leq, x), a[1..])
  {
  }

  lemma HeadIsBelowTie<T(!new)>(leq: (T, T) -> bool, a: seq<T>, x: T)
    requires TotalPreorder(leq) && Sorted(leq, a) && Filter(TiedWith(leq, x), a) != []
    ensures a != [] && leq(a[0], x)
  {
    var y := Filter(TiedWith(leq, x), a)[0];
    assert y in Filter(TiedWith(leq, x), a);
    var k :| 0 <= k < |a| && a[k] == y;
    assert leq(a[0], y) && leq(y, x);
  }

  lemma TiedHeadsAgree<T(!new)>(leq: (T, T) -> bool, a: seq<T>, b: seq<T>)
    requires TotalPreorder(leq) && Sorted(leq, a) && Sorted(leq, b) && SameTies(leq, a, b) && a != []
    ensures b != [] && a[0] == b[0]
  {
    HeadBelowHead(leq, a, b);
    HeadBelowHead(leq, b, a);
    assert Filter(TiedWith(leq, a[0]), a) == Filter(TiedWith(leq, a[0]), b);
    FirstOfTies(leq, a, a[0]);
    FirstOfTies(leq, b, a[0]);
    var p := TiedWith(leq, a[0]);
    assert ([a[0]] + Filter(p, a[1..]))[0] == ([b[0]] + Filter(p, b[1..]))[0];
  }

  lemma HeadBelowHead<T(!new)>(leq: (T, T) -> bool, a: seq<T>, b: seq<T>)
    requires TotalPreorder(leq) && Sorted(leq, b) && SameTies(leq, a, b) && a != []
    ensures b != [] && leq(b[0], a[0])
  {
    FirstOfTies(leq, a, a[0]);
    assert Filter(TiedWith(leq, a[0]), a) == Filter(TiedWith(leq, a[0]), b);
    HeadIsBelowTie(leq, b, a[0]);
  }

  lemma TailsTie<T(!new)>(p: T -> bool, h: T, s: seq<T>, t: seq<T>)
    requires Filter(p, [h] + s) == Filter(p, [h] + t)
    ensures Filter(p, s) == Filter(p, t)
  {
    FilterCons(p, h, s);
    FilterCons(p, h, t);
    assert ([h] + Filter(p, s))[1..] == Filter(p, s);
    assert ([h] + Filter(p, t))[1..] == Filter(p, t);
  }

  lemma {:induction false} SortedByTies<T(!new)>(leq: (T, T) -> bool, a: seq<T>, b: seq<T>)
    requires TotalPreorder(leq) && Sorted(leq, a) && Sorted(leq, b) && SameTies(leq, a, b)
    ensures a == b
  {
    if a != [] {
      TiedHeadsAgree(leq, a, b);
      SplitFirst(a);
      SplitFirst(b);
      forall x ensures Filter(TiedWith(leq, x), a[1..]) == Filter(TiedWith(leq, x), b[1..]) {
        assert Filter(TiedWith(leq, x), a) == Filter(TiedWith(leq, x), b);
        TailsTie(TiedWith(leq, x), a[0], a[1..], b[1..]);
      }
      SortedByTies(leq, a[1..], b[1..]);
    } else if b != [] {
      HeadBelowHead(leq, b, a);
    }
  }

  lemma SplitFirst<T>(s: seq<T>)
    requires s != []
    ensures s == [s[0]] + s[1..]
  {
  }

  /** Sorting gives the same sequence exactly when tied elements stand in the same order. */
  lemma SortsAlike<T(!new)>(leq: (T, T) -> bool, a: seq<T>, b: seq<T>)
    requires TotalPreorder(leq)
    ensures Sort(leq, a) == Sort(leq, b) <==> SameTies(leq, a, b)
  {
    forall x
      ensures Filter(TiedWith(leq, x), Sort(leq, a)) == Filter(TiedWith(leq, x), a)
      ensures Filter(TiedWith(leq, x), Sort(leq, b)) == Filter(TiedWith(leq, x), b)
    {
      SortKeepsTies(leq, a, x);
      SortKeepsTies(leq, b, x);
    }
    if SameTies(leq, a, b) {
      SortSorts(leq, a);
      SortSorts(leq, b);
      SortedByTies(leq, Sort(leq, a), Sort(leq, b));
    }
  }

  // ----- elementwise images

  lemma MapAppend<T, U>(f: T -> U, s: seq<T>, i: nat)
    requires i < |s|
    ensures Map(f, s[..i + 1]) == Map(f, s[..i]) + [f(s[i])]
  {
  }

  lemma MapFront<T, U>(f: T -> U, s: seq<T>)
    requires s != []
    ensures Map(f, s)[..|s| - 1] == Map(f, s[..|s| - 1]) && Map(f, s)[|s| - 1] == f(s[|s| - 1])
  {
  }

  function Map<T, U>(f: T -> U, s: seq<T>): (r: seq<U>)
    ensures |r| == |s|
    ensures forall i :: 0 <= i < |s| ==> r[i] == f(s[i])
  {
    seq(|s|, i requires 0 <= i < |s| => f(s[i]))
  }

  // ----- the sorted members of a set of strings

  lemma {:induction false} LeastString(s: set<string>) returns (x: string)
    requires s != {}
    ensures x in s && forall y :: y in s ==> StringLeq(x, y)
  {
    x :| x in s;
    StringLeqTotal(x, x);
    var rest := s - {x};
    assert s == rest + {x};
    if rest != {} {
      var z := LeastString(rest);
      StringLeqTotal(x, z);
      if StringLeq(x, z) {
        forall y | y in s ensures StringLeq(x, y) {
          if y in rest {
            StringLeqTransitive(x, z, y);
          }
        }
      } else {
        x := z;
      }
    }
  }

  predicate IsLeast(x: string, s: set<string>) {
    x in s && forall y :: y in s ==> StringLeq(x, y)
  }

  lemma LeastStringExists(s: set<string>)
    requires s != {}
    ensures exists x :: x in s && IsLeast(x, s)
    ensures forall x, z :: IsLeast(x, s) && IsLeast(z, s) ==> x == z
  {
    var x := LeastString(s);
    assert IsLeast(x, s);
    forall x, z | IsLeast(x, s) && IsLeast(z, s) ensures x == z {
      StringLeqTotal(x, z);
    }
  }

  function Least(s: set<string>): (x: string)
    requires s != {}
    ensures IsLeast(x, s)
  {
    LeastStringExists(s);
    var x :| x in s && IsLeast(x, s);
    x
  }

  /** The members of a set, each once, in order. */
  function SortedMembers(s: set<string>): (r: seq<string>)
    ensures forall x :: x in r <==> x in s
  {
    if s == {} then []
    else
      var x := Least(s);
      [x] + SortedMembers(s - {x})
  }

  lemma {:induction false} SortedMembersSorted(s: set<string>)
    ensures Sorted(StringLeq, SortedMembers(s)) && Distinct(SortedMembers(s))
  {
    if s != {} {
      var x := Least(s);
      var rest := SortedMembers(s - {x});
      SortedMembersSorted(s - {x});
      forall y | y in rest ensures StringLeq(x, y) && x != y {
      }
    }
  }
}
