/** Sorting by a comparison and keeping the first few, and why the outcome is unique. */
module Ranking {
  import opened Words

  /** A strict total order, on the given items at least. */
  ghost predicate StrictTotalOn<T>(items: set<T>, before: (T, T) -> bool) {
    && (forall x, y :: x in items && y in items ==> !(before(x, y) && before(y, x)))
    && (forall x, y :: x in items && y in items && x != y ==> before(x, y) || before(y, x))
    && (forall x, y, z :: x in items && y in items && z in items && before(x, y) && before(y, z) ==> before(x, z))
  }

  ghost predicate Sorted<T>(s: seq<T>, before: (T, T) -> bool) {
    forall i, j :: 0 <= i < j < |s| ==> before(s[i], s[j])
  }

  /** The first `n` of the items in strictly descending rank: each omitted one ranks below every shown one. */
  ghost predicate IsRanking<T>(items: set<T>, before: (T, T) -> bool, n: nat, s: seq<T>) {
    && |s| == (if |items| < n then |items| else n)
    && (forall i :: 0 <= i < |s| ==> s[i] in items)
    && Sorted(s, before)
    && (forall x, i :: x in items && x !in s && 0 <= i < |s| ==> before(s[i], x))
  }

  lemma RankingPrefix<T>(items: set<T>, before: (T, T) -> bool, n: nat, a: seq<T>, b: seq<T>, i: nat)
    requires StrictTotalOn(items, before) && IsRanking(items, before, n, a) && IsRanking(items, before, n, b)
    requires i < |a| && a[..i] == b[..i]
    ensures !before(a[i], b[i])
  {
    forall j | 0 <= j < i
      ensures b[j] != a[i]
    {
      assert a[j] in items && a[i] in items && before(a[j], a[i]);
      assert a[..i][j] == b[..i][j];
    }
    assert a[i] in items && b[i] in items;
    if a[i] in b {
      var j :| i <= j < |b| && b[j] == a[i];
      assert j > i ==> before(b[i], b[j]);
    }
  }

  /** There is only one such sequence. */
  lemma RankingUnique<T>(items: set<T>, before: (T, T) -> bool, n: nat, a: seq<T>, b: seq<T>)
    requires StrictTotalOn(items, before) && IsRanking(items, before, n, a) && IsRanking(items, before, n, b)
    ensures a == b
  {
    var i := 0;
    while i < |a|
      invariant i <= |a| && a[..i] == b[..i]
    {
      RankingPrefix(items, before, n, a, b, i);
      RankingPrefix(items, before, n, b, a, i);
      assert a[i] in items && b[i] in items;
      assert a[..i + 1] == a[..i] + [a[i]] && b[..i + 1] == b[..i] + [b[i]];
      i := i + 1;
    }
    assert a == a[..i] && b == b[..i];
  }

  /** A ranking as long as the items lists each of them once. */
  lemma RankingListsAll<T>(items: set<T>, before: (T, T) -> bool, s: seq<T>)
    requires StrictTotalOn(items, before) && IsRanking(items, before, |items|, s)
    ensures forall y :: y in s <==> y in items
    ensures forall i, j :: 0 <= i < j < |s| ==> s[i] != s[j]
  {
    var shown := set y | y in s;
    forall i, j | 0 <= i < j < |s|
      ensures s[i] != s[j]
    {
      assert s[i] in items && s[j] in items && before(s[i], s[j]);
    }
    DistinctSize(s);
    assert shown <= items;
    SubsetFull(shown, items);
  }

  lemma {:induction false} DistinctSize<T>(s: seq<T>)
    requires forall i, j :: 0 <= i < j < |s| ==> s[i] != s[j]
    ensures |set y | y in s| == |s|
  {
    if |s| > 0 {
      var e, last := s[..|s| - 1], s[|s| - 1];
      DistinctSize(e);
      assert s == e + [last];
      assert (set y | y in s) == (set y | y in e) + {last};
    }
  }

  lemma SubsetFull<T>(a: set<T>, b: set<T>)
    requires a <= b && |a| == |b|
    ensures a == b
  {
    assert b == a + (b - a);
    assert |b - a| == |b| - |a| == 0;
  }

  function Insert<T>(x: T, s: seq<T>, before: (T, T) -> bool): seq<T> {
    if |s| == 0 then [x]
    else if before(x, s[0]) then [x] + s
    else [s[0]] + Insert(x, s[1..], before)
  }

  /** Stands for the standard library's sort by a comparison. */
  function SortBy<T>(s: seq<T>, before: (T, T) -> bool): seq<T> {
    if |s| == 0 then [] else Insert(s[0], SortBy(s[1..], before), before)
  }

  lemma {:induction false} InsertSorted<T>(items: set<T>, x: T, s: seq<T>, before: (T, T) -> bool)
    requires StrictTotalOn(items, before) && x in items && x !in s
    requires (forall y :: y in s ==> y in items) && Sorted(s, before)
    ensures Sorted(Insert(x, s, before), before) && multiset(Insert(x, s, before)) == multiset(s) + multiset{x}
  {
    if |s| > 0 {
      assert s == [s[0]] + s[1..];
      assert s[0] in items;
      if before(x, s[0]) {
        InsertFirst(items, x, s, before);
      } else {
        InsertSorted(items, x, s[1..], before);
        InsertLater(s, x, Insert(x, s[1..], before), before);
      }
    }
  }

  lemma InsertFirst<T>(items: set<T>, x: T, s: seq<T>, before: (T, T) -> bool)
    requires StrictTotalOn(items, before) && x in items && Sorted(s, before) && forall y :: y in s ==> y in items
    requires |s| > 0 && before(x, s[0])
    ensures Sorted([x] + s, before)
  {
    forall j | 0 <= j < |s|
      ensures before(x, s[j])
    {
      assert s[0] in items && s[j] in items;
    }
  }

  lemma InsertLater<T>(s: seq<T>, x: T, t: seq<T>, before: (T, T) -> bool)
    requires |s| > 0 && Sorted(s, before) && before(s[0], x) && Sorted(t, before)
    requires multiset(t) == multiset(s[1..]) + multiset{x}
    ensures Sorted([s[0]] + t, before)
  {
    forall j | 0 <= j < |t|
      ensures before(s[0], t[j])
    {
      AfterFirst(s, x, t, before, j);
    }
  }

  lemma AfterFirst<T>(s: seq<T>, x: T, t: seq<T>, before: (T, T) -> bool, j: nat)
    requires |s| > 0 && Sorted(s, before) && before(s[0], x)
    requires multiset(t) == multiset(s[1..]) + multiset{x} && j < |t|
    ensures before(s[0], t[j])
  {
    assert t[j] in multiset(t);
    if t[j] != x {
      assert t[j] in multiset(s[1..]);
      var k :| 0 <= k < |s[1..]| && s[1..][k] == t[j];
      assert before(s[0], s[k + 1]);
    }
  }

  lemma {:induction false} SortBySorted<T>(items: set<T>, s: seq<T>, before: (T, T) -> bool)
    requires StrictTotalOn(items, before)
    requires (forall y :: y in s ==> y in items) && forall i, j :: 0 <= i < j < |s| ==> s[i] != s[j]
    ensures Sorted(SortBy(s, before), before) && multiset(SortBy(s, before)) == multiset(s)
  {
    if |s| > 0 {
      assert s == [s[0]] + s[1..];
      var t := SortBy(s[1..], before);
      SortBySorted(items, s[1..], before);
      forall y | y in t
        ensures y in s[1..]
      {
        assert y in multiset(t);
      }
      InsertSorted(items, s[0], t, before);
    }
  }

  lemma TruncateRanks<T>(items: set<T>, sorted: seq<T>, before: (T, T) -> bool, n: nat)
    requires Sorted(sorted, before) && |sorted| == |items| && forall y :: y in sorted <==> y in items
    ensures IsRanking(items, before, n, if |sorted| <= n then sorted else sorted[..n])
  {
    var top := if |sorted| <= n then sorted else sorted[..n];
    forall i | 0 <= i < |top|
      ensures top[i] in items
    {
      assert sorted[i] in sorted;
    }
    forall x, i | x in items && x !in top && 0 <= i < |top|
      ensures before(top[i], x)
    {
      assert forall m :: 0 <= m < |top| ==> top[m] == sorted[m] && sorted[m] in top;
      var k :| |top| <= k < |sorted| && sorted[k] == x;
    }
  }

  /** Sorting the items, listed in any order, and truncating gives the ranking. */
  lemma SortTruncateRanks<T>(items: set<T>, s: seq<T>, before: (T, T) -> bool, n: nat)
    requires StrictTotalOn(items, before)
    requires |s| == |items| && (forall y :: y in s <==> y in items) && forall i, j :: 0 <= i < j < |s| ==> s[i] != s[j]
    ensures var sorted := SortBy(s, before);
            IsRanking(items, before, n, if |sorted| <= n then sorted else sorted[..n])
  {
    SortBySorted(items, s, before);
    var sorted := SortBy(s, before);
    SameMembers(sorted, s);
    TruncateRanks(items, sorted, before, n);
  }

  lemma SameMembers<T>(a: seq<T>, b: seq<T>)
    requires multiset(a) == multiset(b)
    ensures |a| == |b| && forall y :: y in a <==> y in b
  {
    assert |multiset(a)| == |a| && |multiset(b)| == |b|;
    forall y
      ensures y in a <==> y in b
    {
      assert y in multiset(a) <==> y in multiset(b);
    }
  }

  // ---- names

  /** Byte-wise order of strings. */
  predicate LexLess(a: string, b: string) {
    if |b| == 0 then false
    else if |a| == 0 then true
    else if a[0] != b[0] then a[0] < b[0]
    else LexLess(a[1..], b[1..])
  }

  lemma {:induction false} LexTotal(a: string, b: string)
    ensures !(LexLess(a, b) && LexLess(b, a))
    ensures a != b ==> LexLess(a, b) || LexLess(b, a)
  {
    if |a| > 0 && |b| > 0 && a[0] == b[0] {
      LexTotal(a[1..], b[1..]);
      assert a == [a[0]] + a[1..] && b == [b[0]] + b[1..];
    }
  }

  lemma {:induction false} LexTransitive(a: string, b: string, c: string)
    requires LexLess(a, b) && LexLess(b, c)
    ensures LexLess(a, c)
  {
    if |a| > 0 && a[0] == b[0] && b[0] == c[0] {
      LexTransitive(a[1..], b[1..], c[1..]);
    }
  }

  /** It is the order at the first difference: a proper prefix comes first, else the smaller byte there. */
  lemma {:induction false} LexLessAt(a: string, b: string, k: nat)
    requires k <= |a| && k <= |b| && a[..k] == b[..k]
    requires k == |a| || k == |b| || a[k] != b[k]
    ensures LexLess(a, b) <==> k < |b| && (k == |a| || a[k] < b[k])
  {
    if k > 0 {
      assert a[0] == a[..k][0] == b[..k][0] == b[0];
      assert a[1..][..k - 1] == a[..k][1..] && b[1..][..k - 1] == b[..k][1..];
      LexLessAt(a[1..], b[1..], k - 1);
    }
  }

  lemma {:induction false} FirstDifference(a: string, b: string) returns (k: nat)
    ensures k <= |a| && k <= |b| && a[..k] == b[..k] && (k == |a| || k == |b| || a[k] != b[k])
  {
    if |a| == 0 || |b| == 0 || a[0] != b[0] {
      k := 0;
    } else {
      var j := FirstDifference(a[1..], b[1..]);
      k := j + 1;
      assert a[..k] == [a[0]] + a[1..][..j] && b[..k] == [b[0]] + b[1..][..j];
    }
  }

  lemma LexLessIs(a: string, b: string)
    ensures LexLess(a, b)
       <==> exists k :: 0 <= k <= |a| && k < |b| && a[..k] == b[..k] && (k == |a| || a[k] < b[k])
  {
    var j := FirstDifference(a, b);
    LexLessAt(a, b, j);
    forall k | 0 <= k <= |a| && k < |b| && a[..k] == b[..k] && (k == |a| || a[k] < b[k])
      ensures LexLess(a, b)
    {
      LexLessAt(a, b, k);
    }
  }

  // ---- sums over maps

  ghost function SumValues<K(!new)>(m: map<K, nat>): nat {
    if m == map[] then 0
    else
      var k :| k in m;
      m[k] + SumValues(m - {k})
  }

  lemma {:induction false} SumValuesRemove<K(!new)>(m: map<K, nat>, k: K)
    requires k in m
    ensures SumValues(m) == m[k] + SumValues(m - {k})
    decreases |m|
  {
    var q :| q in m && SumValues(m) == m[q] + SumValues(m - {q});
    if q != k {
      var less := m - {q};
      assert less.Keys == m.Keys - {q};
      assert |less| < |m|;
      SumValuesRemove(less, k);
      var less' := m - {k};
      assert less'.Keys == m.Keys - {k};
      assert |less'| < |m|;
      SumValuesRemove(less', q);
      assert less - {k} == less' - {q};
    }
  }

  /** A map that counts, key by key, how often each key occurs. */
  ghost predicate Tallies<K(!new)>(m: map<K, nat>, keys: multiset<K>) {
    && (forall k :: k in m <==> k in keys)
    && (forall k :: k in m ==> m[k] == keys[k])
  }

  lemma {:induction false} TalliesSum<K(!new)>(m: map<K, nat>, keys: multiset<K>)
    requires Tallies(m, keys)
    ensures SumValues(m) == |keys|
    decreases |m|
  {
    if m == map[] {
      assert keys == multiset{};
    } else {
      var k :| k in m;
      SumValuesRemove(m, k);
      var less := m - {k};
      assert less.Keys == m.Keys - {k};
      assert |less| < |m|;
      TalliesSum(less, keys[k := 0]);
      assert keys == keys[k := 0][k := keys[k]];
    }
  }
}
