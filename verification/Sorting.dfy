/** Sorting by a comparison function: what any sort returns when the comparison is an order. */
module Sorting {

  /** Negative, zero or positive, as a sort callback returns it. */
  type Compare<!R> = (R, R) -> int

  ghost predicate Opposite<R(!new)>(cmp: Compare<R>) {
    forall a, b :: cmp(a, b) < 0 <==> cmp(b, a) > 0
  }

  /** a <= b <= c gives a <= c, for the rows of a list. */
  predicate TransitiveOn<R(==)>(cmp: Compare<R>, rows: seq<R>) {
    forall a, b, c :: a in rows && b in rows && c in rows && cmp(a, b) <= 0 && cmp(b, c) <= 0 ==> cmp(a, c) <= 0
  }

  /** No two places of the list compare equal. */
  predicate Strict<R>(cmp: Compare<R>, rows: seq<R>) {
    forall i, j :: 0 <= i < j < |rows| ==> cmp(rows[i], rows[j]) != 0
  }

  predicate Ordered<R>(cmp: Compare<R>, rows: seq<R>) {
    forall i, j :: 0 <= i < j < |rows| ==> cmp(rows[i], rows[j]) <= 0
  }

  /** After the last of the first n rows that is not greater. */
  function Place<R>(cmp: Compare<R>, rows: seq<R>, n: nat, x: R): (p: nat)
    requires n <= |rows|
    ensures p <= n
    ensures p > 0 ==> cmp(rows[p - 1], x) <= 0
    ensures forall i :: p <= i < n ==> cmp(rows[i], x) > 0
  {
    if n == 0 || cmp(rows[n - 1], x) <= 0 then n else Place(cmp, rows, n - 1, x)
  }

  function Insert<R>(cmp: Compare<R>, sorted: seq<R>, x: R): seq<R> {
    Inserted(sorted, Place(cmp, sorted, |sorted|, x), x)
  }

  type Inserter<!R> = (seq<R>, R) -> seq<R>

  /** The first n rows inserted one after the other. */
  function Build<R>(insert: Inserter<R>, rows: seq<R>, n: nat): seq<R>
    requires n <= |rows|
  {
    if n == 0 then [] else insert(Build(insert, rows, n - 1), rows[n - 1])
  }

  /** A stable sort. */
  function Sort<R>(cmp: Compare<R>, rows: seq<R>): seq<R> {
    Build((sorted: seq<R>, x: R) => Insert(cmp, sorted, x), rows, |rows|)
  }

  function Inserted<R>(s: seq<R>, n: nat, x: R): (r: seq<R>)
    requires n <= |s|
    ensures |r| == |s| + 1
    ensures forall i :: 0 <= i < |r| ==> r[i] == if i < n then s[i] else if i == n then x else s[i - 1]
  {
    s[..n] + [x] + s[n..]
  }

  lemma {:induction false} InsertedAdds<R>(s: seq<R>, n: nat, x: R)
    requires n <= |s|
    ensures multiset(Inserted(s, n, x)) == multiset(s) + multiset{x}
  {
    assert s == s[..n] + s[n..];
  }

  ghost predicate Adds<R(!new)>(insert: Inserter<R>) {
    forall s, x :: multiset(insert(s, x)) == multiset(s) + multiset{x}
  }

  lemma {:induction false} BuildPermutes<R(!new)>(insert: Inserter<R>, rows: seq<R>, n: nat)
    requires Adds(insert) && n <= |rows|
    ensures multiset(Build(insert, rows, n)) == multiset(rows[..n])
    decreases n
  {
    if n > 0 {
      BuildPermutes(insert, rows, n - 1);
      assert rows[..n] == rows[..n - 1] + [rows[n - 1]];
    }
  }

  lemma {:induction false} SortPermutes<R(!new)>(cmp: Compare<R>, rows: seq<R>)
    ensures multiset(Sort(cmp, rows)) == multiset(rows)
  {
    var insert := (sorted: seq<R>, x: R) => Insert(cmp, sorted, x);
    forall s, x ensures multiset(insert(s, x)) == multiset(s) + multiset{x} {
      InsertedAdds(s, Place(cmp, s, |s|, x), x);
    }
    BuildPermutes(insert, rows, |rows|);
    assert rows[..|rows|] == rows;
  }

  lemma {:induction false} SameRows<R>(a: seq<R>, b: seq<R>)
    requires multiset(a) == multiset(b)
    ensures |a| == |b| && forall x :: x in a <==> x in b
  {
    assert |multiset(a)| == |a| && |multiset(b)| == |b|;
    assert forall x :: x in a <==> x in multiset(a);
    assert forall x :: x in b <==> x in multiset(b);
  }

  lemma {:induction false} PlaceSeparates<R(!new)>(cmp: Compare<R>, rows: seq<R>, sorted: seq<R>, x: R, i: nat)
    requires Opposite(cmp) && TransitiveOn(cmp, rows)
    requires Ordered(cmp, sorted) && x in rows && forall y :: y in sorted ==> y in rows
    requires i < |sorted|
    ensures if i < Place(cmp, sorted, |sorted|, x) then cmp(sorted[i], x) <= 0 else cmp(x, sorted[i]) <= 0
  {
    var n := Place(cmp, sorted, |sorted|, x);
    if i < n - 1 {
      assert sorted[i] in rows && sorted[n - 1] in rows;
      assert cmp(sorted[i], sorted[n - 1]) <= 0;
    } else if n <= i {
      assert cmp(sorted[i], x) > 0;
    }
  }

  lemma {:induction false} InsertOrdered<R(!new)>(cmp: Compare<R>, rows: seq<R>, sorted: seq<R>, x: R)
    requires Opposite(cmp) && TransitiveOn(cmp, rows)
    requires Ordered(cmp, sorted) && x in rows && forall y :: y in sorted ==> y in rows
    ensures Ordered(cmp, Insert(cmp, sorted, x))
  {
    var n := Place(cmp, sorted, |sorted|, x);
    var after := Inserted(sorted, n, x);
    forall i, j | 0 <= i < j < |after| ensures cmp(after[i], after[j]) <= 0 {
      if j == n {
        PlaceSeparates(cmp, rows, sorted, x, i);
      } else if i == n {
        PlaceSeparates(cmp, rows, sorted, x, j - 1);
      }
    }
  }

  predicate Among<R(==)>(s: seq<R>, rows: seq<R>) {
    forall y :: y in s ==> y in rows
  }

  ghost predicate KeepsOrder<R(!new)>(cmp: Compare<R>, insert: Inserter<R>, rows: seq<R>) {
    forall s, x :: x in rows && Among(s, rows) && Ordered(cmp, s) ==> Ordered(cmp, insert(s, x))
  }

  lemma {:induction false} BuildOrders<R(!new)>(cmp: Compare<R>, insert: Inserter<R>, rows: seq<R>, n: nat)
    requires Adds(insert) && KeepsOrder(cmp, insert, rows) && n <= |rows|
    ensures Ordered(cmp, Build(insert, rows, n))
    decreases n
  {
    if n > 0 {
      BuildOrders(cmp, insert, rows, n - 1);
      BuildPermutes(insert, rows, n - 1);
      SameRows(Build(insert, rows, n - 1), rows[..n - 1]);
      assert Among(Build(insert, rows, n - 1), rows);
    }
  }

  lemma {:induction false} SortOrders<R(!new)>(cmp: Compare<R>, rows: seq<R>)
    requires Opposite(cmp) && TransitiveOn(cmp, rows)
    ensures Ordered(cmp, Sort(cmp, rows))
  {
    var insert := (sorted: seq<R>, x: R) => Insert(cmp, sorted, x);
    forall s, x ensures multiset(insert(s, x)) == multiset(s) + multiset{x} {
      InsertedAdds(s, Place(cmp, s, |s|, x), x);
    }
    forall s, x | x in rows && Among(s, rows) && Ordered(cmp, s) ensures Ordered(cmp, insert(s, x)) {
      InsertOrdered(cmp, rows, s, x);
    }
    BuildOrders(cmp, insert, rows, |rows|);
  }

  /** Every row of a strict list occurs once, and comparing places is comparing rows. */
  lemma {:induction false} StrictOrderTellsPlaces<R(!new)>(cmp: Compare<R>, s: seq<R>, i: nat, j: nat)
    requires Opposite(cmp) && Strict(cmp, s) && Ordered(cmp, s) && i < |s| && j < |s|
    ensures cmp(s[i], s[j]) < 0 <==> i < j
  {
    SelfIsEqual(cmp, s[i]);
    if j < i {
      assert cmp(s[j], s[i]) <= 0 && cmp(s[j], s[i]) != 0;
    }
  }

  lemma {:induction false} SelfIsEqual<R(!new)>(cmp: Compare<R>, x: R)
    requires Opposite(cmp)
    ensures cmp(x, x) == 0
  {}

  lemma {:induction false} StrictCountsOnce<R(!new)>(cmp: Compare<R>, s: seq<R>, x: R)
    requires Opposite(cmp) && Strict(cmp, s)
    ensures multiset(s)[x] <= 1
    decreases |s|
  {
    if s != [] {
      var n := |s| - 1;
      assert s == s[..n] + [s[n]];
      StrictCountsOnce(cmp, s[..n], x);
      SelfIsEqual(cmp, s[n]);
      assert s[n] !in s[..n];
    }
  }

  lemma {:induction false} TwoPlacesCountTwice<R>(s: seq<R>, i: nat, j: nat)
    requires i < j < |s| && s[i] == s[j]
    ensures multiset(s)[s[i]] >= 2
  {
    assert s == s[..j] + s[j..];
    assert s[..j][i] == s[i] && s[j..][0] == s[i];
    assert s[i] in multiset(s[..j]) && s[i] in multiset(s[j..]);
  }

  lemma {:induction false} StrictIsPermuted<R(!new)>(cmp: Compare<R>, a: seq<R>, b: seq<R>)
    requires Opposite(cmp) && Strict(cmp, a) && multiset(a) == multiset(b)
    ensures Strict(cmp, b)
  {
    SameRows(a, b);
    forall i, j | 0 <= i < j < |b| ensures cmp(b[i], b[j]) != 0 {
      assert b[i] in b && b[j] in b;
      var k :| 0 <= k < |a| && a[k] == b[i];
      var l :| 0 <= l < |a| && a[l] == b[j];
      if k == l {
        TwoPlacesCountTwice(b, i, j);
        StrictCountsOnce(cmp, a, b[i]);
      } else {
        assert k < l ==> cmp(a[k], a[l]) != 0;
        assert l < k ==> cmp(a[l], a[k]) != 0;
      }
    }
  }

  lemma {:induction false} WithoutLast<R>(a: seq<R>, b: seq<R>)
    requires multiset(a) == multiset(b) && |a| == |b| > 0 && a[|a| - 1] == b[|b| - 1]
    ensures multiset(a[..|a| - 1]) == multiset(b[..|b| - 1])
  {
    var n := |a| - 1;
    assert a == a[..n] + [a[n]] && b == b[..n] + [b[n]];
    assert multiset(a[..n]) == multiset(a) - multiset{a[n]};
    assert multiset(b[..n]) == multiset(b) - multiset{b[n]};
  }

  /** Without ties there is one ordered arrangement of the rows: whatever the sort algorithm and the
      order the rows came in, the result is the same. */
  lemma {:induction false} OrderIsUnique<R(!new)>(cmp: Compare<R>, a: seq<R>, b: seq<R>)
    requires Opposite(cmp) && multiset(a) == multiset(b)
    requires Strict(cmp, a) && Ordered(cmp, a) && Ordered(cmp, b)
    ensures a == b
    decreases |a|
  {
    SameRows(a, b);
    if a != [] {
      StrictIsPermuted(cmp, a, b);
      var n := |a| - 1;
      LastIsGreatest(cmp, a, b);
      WithoutLast(a, b);
      OrderIsUnique(cmp, a[..n], b[..n]);
      assert a == a[..n] + [a[n]] && b == b[..n] + [b[n]];
    }
  }

  lemma {:induction false} LastIsGreatest<R(!new)>(cmp: Compare<R>, a: seq<R>, b: seq<R>)
    requires Opposite(cmp) && multiset(a) == multiset(b) && a != []
    requires Strict(cmp, a) && Strict(cmp, b) && Ordered(cmp, a) && Ordered(cmp, b)
    ensures |a| == |b| && a[|a| - 1] == b[|b| - 1]
  {
    SameRows(a, b);
    var n := |a| - 1;
    assert b[n] in b && a[n] in a;
    var i :| 0 <= i <= n && a[i] == b[n];
    var j :| 0 <= j <= n && b[j] == a[n];
  }

  /** An ordered arrangement of strictly different rows exists exactly when the comparison is
      transitive on them; otherwise every result of every sort has a pair out of order. */
  lemma {:induction false} OrderableIff<R(!new)>(cmp: Compare<R>, rows: seq<R>)
    requires Opposite(cmp) && Strict(cmp, rows)
    ensures (exists s: seq<R> :: multiset(s) == multiset(rows) && Ordered(cmp, s)) <==> TransitiveOn(cmp, rows)
  {
    if TransitiveOn(cmp, rows) {
      SortPermutes(cmp, rows);
      SortOrders(cmp, rows);
    }
    if s: seq<R> :| multiset(s) == multiset(rows) && Ordered(cmp, s) {
      StrictIsPermuted(cmp, rows, s);
      SameRows(s, rows);
      forall a, b, c | a in rows && b in rows && c in rows && cmp(a, b) <= 0 && cmp(b, c) <= 0
        ensures cmp(a, c) <= 0
      {
        var i :| 0 <= i < |s| && s[i] == a;
        var j :| 0 <= j < |s| && s[j] == b;
        var k :| 0 <= k < |s| && s[k] == c;
        StrictOrderTellsPlaces(cmp, s, j, i);
        StrictOrderTellsPlaces(cmp, s, k, j);
        StrictOrderTellsPlaces(cmp, s, k, i);
      }
    }
  }

  /** Sorting any arrangement of the same rows gives the same list. */
  lemma {:induction false} SortForgetsInputOrder<R(!new)>(cmp: Compare<R>, a: seq<R>, b: seq<R>)
    requires Opposite(cmp) && multiset(a) == multiset(b) && Strict(cmp, a) && TransitiveOn(cmp, a)
    ensures Sort(cmp, a) == Sort(cmp, b)
  {
    SameRows(a, b);
    assert TransitiveOn(cmp, b);
    SortPermutes(cmp, a);
    SortPermutes(cmp, b);
    SortOrders(cmp, a);
    SortOrders(cmp, b);
    StrictIsPermuted(cmp, a, Sort(cmp, a));
    OrderIsUnique(cmp, Sort(cmp, a), Sort(cmp, b));
  }
}
