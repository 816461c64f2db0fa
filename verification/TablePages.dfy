/** Reading a table page by page with `order by <first column> limit 1000 offset ...`, one query per
    page, where every query may break ties differently. */
module TablePages {

  type Column = string

  datatype Value = Null | Val(v: int)

  type Row = map<Column, Value>

  const BATCH_SIZE: nat := 1000

  function KeyOf(row: Row, key: Column): Value {
    if key in row then row[key] else Null
  }

  /** ascending, NULLs last */
  predicate Leq(a: Value, b: Value) {
    b.Null? || (a.Val? && a.v <= b.v)
  }

  predicate Sorted(s: seq<Row>, key: Column) {
    forall i, j :: 0 <= i < j < |s| ==> Leq(KeyOf(s[i], key), KeyOf(s[j], key))
  }

  /** One possible result of `select ... order by key`: ties may come in any order. */
  predicate Sorting(s: seq<Row>, rows: multiset<Row>, key: Column) {
    multiset(s) == rows && Sorted(s, key)
  }

  function PageEnd(total: nat, offset: nat): nat {
    if offset + BATCH_SIZE < total then offset + BATCH_SIZE else total
  }

  /** The answer of the source to the whole ordered query at the time of the page at an offset. */
  type Scan = nat -> seq<Row>

  ghost predicate Reads(scan: Scan, total: nat) {
    forall offset: nat :: |scan(offset)| == total
  }

  /** What the page loop reads from an offset on: each page is a slice of another execution. */
  ghost function Fetched(scan: Scan, total: nat, offset: nat): (r: seq<Row>)
    requires Reads(scan, total)
    ensures |r| == if offset < total then total - offset else 0
    decreases total - offset
  {
    if offset >= total then []
    else scan(offset)[offset..PageEnd(total, offset)] + Fetched(scan, total, offset + BATCH_SIZE)
  }

  ghost predicate Legal(scan: Scan, rows: multiset<Row>, key: Column) {
    forall offset: nat :: Sorting(scan(offset), rows, key) && |scan(offset)| == |rows|
  }

  /** Rows with the same key on both sides of place b are copies of one row. */
  predicate Unsplit(s: seq<Row>, key: Column, b: nat) {
    forall i, j :: 0 <= i < b <= j < |s| && KeyOf(s[i], key) == KeyOf(s[j], key) ==> s[i] == s[j]
  }

  predicate PageBoundary(b: nat) {
    b % BATCH_SIZE == 0
  }

  predicate NoTieIsSplit(s: seq<Row>, key: Column) {
    forall b :: 0 <= b < |s| && PageBoundary(b) ==> Unsplit(s, key, b)
  }

  predicate Under(row: Row, key: Column, edge: Value, strict: bool) {
    Leq(KeyOf(row, key), edge) && (strict ==> KeyOf(row, key) != edge)
  }

  /** How many places of a sorted sequence are under the edge. */
  function Cut(s: seq<Row>, key: Column, edge: Value, strict: bool): (c: nat)
    requires Sorted(s, key)
    ensures c <= |s|
    ensures forall i :: 0 <= i < |s| ==> (i < c <==> Under(s[i], key, edge, strict))
  {
    if s == [] then 0
    else
      var last := |s| - 1;
      if Under(s[last], key, edge, strict) then
        assert forall i :: 0 <= i < last ==> Leq(KeyOf(s[i], key), KeyOf(s[last], key));
        |s|
      else
        Cut(s[..last], key, edge, strict)
  }

  lemma {:induction false} CutContents(s: seq<Row>, key: Column, edge: Value, strict: bool, x: Row)
    requires Sorted(s, key)
    ensures multiset(s[..Cut(s, key, edge, strict)])[x]
         == if Under(x, key, edge, strict) then multiset(s)[x] else 0
  {
    var c := Cut(s, key, edge, strict);
    assert s == s[..c] + s[c..];
    assert multiset(s) == multiset(s[..c]) + multiset(s[c..]);
    assert x in s[c..] ==> !Under(x, key, edge, strict);
    assert x in s[..c] ==> Under(x, key, edge, strict);
  }

  /** Any two sortings of the same rows are cut at the same place, with the same rows below it. */
  lemma {:induction false} CutsAgree(s: seq<Row>, q: seq<Row>, key: Column, edge: Value, strict: bool)
    requires Sorted(s, key) && Sorted(q, key) && multiset(s) == multiset(q)
    ensures Cut(s, key, edge, strict) == Cut(q, key, edge, strict)
    ensures multiset(s[..Cut(s, key, edge, strict)]) == multiset(q[..Cut(q, key, edge, strict)])
  {
    var c, d := Cut(s, key, edge, strict), Cut(q, key, edge, strict);
    forall x: Row ensures multiset(s[..c])[x] == multiset(q[..d])[x] {
      CutContents(s, key, edge, strict, x);
      CutContents(q, key, edge, strict, x);
    }
    assert multiset(s[..c]) == multiset(q[..d]);
    assert |multiset(s[..c])| == c && |multiset(q[..d])| == d;
  }

  lemma {:induction false} EqualRuns(s: seq<Row>, q: seq<Row>, from: nat, b: nat, g: Row)
    requires from <= b <= |s| && b <= |q|
    requires forall i :: from <= i < b ==> s[i] == g && q[i] == g
    requires multiset(s[..from]) == multiset(q[..from])
    ensures multiset(s[..b]) == multiset(q[..b])
  {
    assert s[..b] == s[..from] + s[from..b];
    assert q[..b] == q[..from] + q[from..b];
    assert s[from..b] == q[from..b];
  }

  /** Two sortings read the same rows before a place that splits no tie. */
  lemma {:induction false} PrefixesAgree(s: seq<Row>, q: seq<Row>, key: Column, b: nat)
    requires Sorted(s, key) && Sorted(q, key) && multiset(s) == multiset(q)
    requires b < |s| && Unsplit(s, key, b)
    ensures b <= |q| && multiset(s[..b]) == multiset(q[..b])
  {
    var edge, g := KeyOf(s[b], key), s[b];
    CutsAgree(s, q, key, edge, true);
    CutsAgree(s, q, key, edge, false);
    var low, high := Cut(s, key, edge, true), Cut(s, key, edge, false);
    assert low <= b < high by {
      assert Under(s[b], key, edge, false) && !Under(s[b], key, edge, true);
    }
    forall i | low <= i < b ensures s[i] == g {
      assert Under(s[i], key, edge, false) && !Under(s[i], key, edge, true);
    }
    forall i | low <= i < b ensures q[i] == g {
      assert Under(q[i], key, edge, false) && !Under(q[i], key, edge, true);
      assert q[i] in multiset(q);
      OnlyCopiesInTie(s, key, b, q[i]);
    }
    EqualRuns(s, q, low, b, g);
  }

  /** If a tie straddles b without being split, all rows with that key are one row. */
  lemma {:induction false} OnlyCopiesInTie(s: seq<Row>, key: Column, b: nat, x: Row)
    requires Sorted(s, key) && b < |s| && Unsplit(s, key, b)
    requires 0 < b && KeyOf(s[b - 1], key) == KeyOf(s[b], key)
    requires x in s && KeyOf(x, key) == KeyOf(s[b], key)
    ensures x == s[b]
  {
    var i :| 0 <= i < |s| && s[i] == x;
    assert i >= b ==> s[b - 1] == s[i];
    assert s[b - 1] == s[b];
  }

  lemma {:induction false} Prefixes(s: seq<Row>, from: nat, end: nat)
    requires from <= end <= |s|
    ensures multiset(s[..end]) == multiset(s[..from]) + multiset(s[from..end])
  {
    assert s[..end] == s[..from] + s[from..end];
  }

  /** All executions have the same rows before every page boundary, and in all. */
  ghost predicate PrefixesCoincide(scan: Scan, total: nat)
    requires Reads(scan, total)
  {
    forall offset: nat, b: nat :: b == total || (b < total && PageBoundary(b))
      ==> multiset(scan(offset)[..b]) == multiset(scan(0)[..b])
  }

  lemma {:induction false} ScansAgree(scan: Scan, rows: multiset<Row>, key: Column)
    requires Legal(scan, rows, key) && NoTieIsSplit(scan(0), key)
    ensures PrefixesCoincide(scan, |rows|)
  {
    forall offset: nat, b: nat | b == |rows| || (b < |rows| && PageBoundary(b))
      ensures multiset(scan(offset)[..b]) == multiset(scan(0)[..b])
    {
      if b < |rows| {
        PrefixesAgree(scan(0), scan(offset), key, b);
      } else {
        assert scan(0)[..b] == scan(0) && scan(offset)[..b] == scan(offset);
      }
    }
  }

  /** What remains to be read at an offset is what any execution has from there on. */
  lemma {:induction false} FetchedRest(scan: Scan, total: nat, offset: nat)
    requires Reads(scan, total) && PrefixesCoincide(scan, total)
    requires offset < total && PageBoundary(offset)
    ensures multiset(scan(0)[..offset]) + multiset(Fetched(scan, total, offset)) == multiset(scan(0)[..total])
    decreases total - offset
  {
    var end := PageEnd(total, offset);
    Prefixes(scan(offset), offset, end);
    assert multiset(scan(offset)[..end]) == multiset(scan(0)[..end]);
    if end < total {
      FetchedRest(scan, total, end);
    } else {
      assert Fetched(scan, total, offset) == scan(offset)[offset..end];
    }
  }

  function Swapped(s: seq<Row>, i: nat, j: nat): (t: seq<Row>)
    requires i < j < |s|
    ensures |t| == |s| && multiset(t) == multiset(s)
  {
    s[i := s[j]][j := s[i]]
  }

  lemma {:induction false} SwapInTieStaysSorted(s: seq<Row>, key: Column, i: nat, j: nat)
    requires i < j < |s| && Sorted(s, key) && KeyOf(s[i], key) == KeyOf(s[j], key)
    ensures Sorted(Swapped(s, i, j), key)
  {
    var t := Swapped(s, i, j);
    forall a, b | 0 <= a < b < |t| ensures Leq(KeyOf(t[a], key), KeyOf(t[b], key)) {
      assert KeyOf(t[a], key) == KeyOf(s[a], key) && KeyOf(t[b], key) == KeyOf(s[b], key);
    }
  }

  /** The source answers the page queries before offset b with s and the later ones with t. */
  function Switch(s: seq<Row>, t: seq<Row>, b: nat): Scan {
    (offset: nat) => if offset < b then s else t
  }

  lemma {:induction false} Slices(s: seq<Row>, a: nat, b: nat, c: nat)
    requires a <= b <= c <= |s|
    ensures s[a..b] + s[b..c] == s[a..c]
    ensures s[a..b] + s[b..] == s[a..]
  {
    assert s[a..] == s[a..b] + s[b..];
  }

  lemma {:induction false} FetchedSwitch(s: seq<Row>, t: seq<Row>, b: nat, offset: nat)
    requires |s| == |t| && offset <= b <= |s| && PageBoundary(offset) && PageBoundary(b)
    ensures Fetched(Switch(s, t, b), |s|, offset) == s[offset..b] + t[b..]
    decreases b - offset
  {
    var next := offset + BATCH_SIZE;
    if offset == b {
      FetchedTail(s, t, b, b);
    } else {
      assert next <= b;
      FetchedSwitch(s, t, b, next);
      Slices(s, offset, next, b);
      var a, m, z := s[offset..next], s[next..b], t[b..];
      assert a + (m + z) == (a + m) + z;
    }
  }

  lemma {:induction false} FetchedTail(s: seq<Row>, t: seq<Row>, b: nat, offset: nat)
    requires |s| == |t| && b <= offset <= |t|
    ensures Fetched(Switch(s, t, b), |t|, offset) == t[offset..]
    decreases |t| - offset
  {
    var end := PageEnd(|t|, offset);
    if offset < |t| {
      Slices(t, offset, end, |t|);
      if end == |t| {
        assert Fetched(Switch(s, t, b), |t|, offset + BATCH_SIZE) == [] == t[end..];
      } else {
        FetchedTail(s, t, b, end);
      }
    }
  }

  /** A split tie can lose a row: one legal tie-breaking reads one of the two rows twice and never
      the other. */
  lemma {:induction false} SplitTieLosesRow(s: seq<Row>, rows: multiset<Row>, key: Column, b: nat)
    requires Sorting(s, rows, key) && b < |s| && PageBoundary(b) && !Unsplit(s, key, b)
    ensures exists scan: Scan :: Legal(scan, rows, key) && multiset(Fetched(scan, |rows|, 0)) != rows
  {
    var i, j :| 0 <= i < b <= j < |s| && KeyOf(s[i], key) == KeyOf(s[j], key) && s[i] != s[j];
    var t := Swapped(s, i, j);
    var scan := Switch(s, t, b);
    SwapInTieStaysSorted(s, key, i, j);
    assert |multiset(s)| == |s|;
    assert Legal(scan, rows, key);
    FetchedSwitch(s, t, b, 0);
    assert s[0..b] == s[..b];
    SwapLosesCopy(s, i, j, b);
    assert multiset(Fetched(scan, |rows|, 0))[s[j]] != rows[s[j]];
  }

  lemma {:induction false} SwapLosesCopy(s: seq<Row>, i: nat, j: nat, b: nat)
    requires i < b <= j < |s| && s[i] != s[j]
    ensures multiset(s[..b] + Swapped(s, i, j)[b..])[s[j]] == multiset(s)[s[j]] - 1
  {
    var t := Swapped(s, i, j);
    assert t[b..] == s[b..][j - b := s[i]];
    assert s == s[..b] + s[b..];
    assert s[b..][j - b] == s[j];
  }

  /** A source answers every page query by some sorting of its rows. */
  ghost predicate PagesAlwaysSound(rows: multiset<Row>, key: Column) {
    forall scan: Scan :: Legal(scan, rows, key) ==> multiset(Fetched(scan, |rows|, 0)) == rows
  }

  /** The page loop reads every row exactly once, however the source breaks ties in each query, if
      and only if no page boundary falls between two different rows with the same first column. */
  lemma {:induction false} PagingSoundIff(s: seq<Row>, rows: multiset<Row>, key: Column)
    requires Sorting(s, rows, key)
    ensures PagesAlwaysSound(rows, key) <==> NoTieIsSplit(s, key)
    ensures forall b: nat :: PageBoundary(b) <==> b % 1000 == 0
  {
    if NoTieIsSplit(s, key) {
      forall scan: Scan | Legal(scan, rows, key)
        ensures multiset(Fetched(scan, |rows|, 0)) == rows
      {
        assert |multiset(s)| == |s|;
        forall b | 0 <= b < |s| && PageBoundary(b) ensures Unsplit(scan(0), key, b) {
          UnsplitInEverySorting(s, scan(0), key, b);
        }
        ScansAgree(scan, rows, key);
        assert scan(0)[..|rows|] == scan(0);
        if |rows| > 0 {
          FetchedRest(scan, |rows|, 0);
        }
      }
    } else {
      var b :| 0 <= b < |s| && PageBoundary(b) && !Unsplit(s, key, b);
      SplitTieLosesRow(s, rows, key, b);
    }
  }

  lemma {:induction false} UnsplitInEverySorting(s: seq<Row>, q: seq<Row>, key: Column, b: nat)
    requires Sorted(s, key) && Sorted(q, key) && multiset(s) == multiset(q) && Unsplit(s, key, b)
    ensures Unsplit(q, key, b)
  {
    forall i, j | 0 <= i < b <= j < |q| && KeyOf(q[i], key) == KeyOf(q[j], key)
      ensures q[i] == q[j]
    {
      var edge := KeyOf(q[i], key);
      assert |multiset(s)| == |s| && |multiset(q)| == |q|;
      CutsAgree(s, q, key, edge, true);
      CutsAgree(s, q, key, edge, false);
      assert Cut(q, key, edge, true) <= i && j < Cut(q, key, edge, false);
      assert Under(s[b - 1], key, edge, false) && !Under(s[b - 1], key, edge, true);
      assert Under(s[b], key, edge, false) && !Under(s[b], key, edge, true);
      assert q[i] in multiset(q) && q[j] in multiset(q);
      OnlyCopiesInTie(s, key, b, q[i]);
      OnlyCopiesInTie(s, key, b, q[j]);
    }
  }
}
