/** The ordering of canonical billing events: a whitelisted column, absent values last, the producer's
    event id as the tiebreak. Texts are values of any type; the collations are parameters. */
module EventOrder {
  import opened Common
  import opened NumericCollation
  import opened Sorting

  /** The columns that may be sorted by, and any other name a caller may send. */
  datatype Column =
    | OrderNumber | DisplayReference | RowType | Destination | ClientName
    | ShipDate | ActualActivityDate | BillingEffectiveDate
    | ReturnPostageTotal | ReturnProcessingTotal | GrandTotal
    | ItemSkus | Qty | DisplayQty | BoxSize | PickpackTotal | AdditionalTotal | PackageTotal
    | ShippingTotal | StorageTotal | AdjustmentTotal | ReturnTotal
    | CustomsDutiesTotal
    | ReplacePostageTotal | ReplacePickPackTotal
    | Unlisted(name: string)

  datatype Cell<T> = Absent | Number(n: int) | Text(t: T)
  datatype Row<T> = Row(id: T, cells: map<Column, Cell<T>>)

  /** How texts compare, how ids compare, how a number reads as a text, and which texts are numbers. */
  datatype Locale<!T> = Locale(text: Compare<T>, ids: Compare<T>, shown: int -> T, parse: T -> Option<int>)

  /** A collation: any two texts compare, consistently, possibly equal. */
  ghost predicate Collation<T(!new)>(cmp: Compare<T>) {
    Opposite(cmp) && forall a, b, c :: cmp(a, b) <= 0 && cmp(b, c) <= 0 ==> cmp(a, c) <= 0
  }

  // -- The comparison --------------------------------------------------------------------------

  function CellOf<T>(loc: Locale<T>, row: Row<T>, key: Column): Cell<T> {
    var raw := if key in row.cells then row.cells[key] else Absent;
    if key == DisplayQty && raw.Text? && loc.parse(raw.t).Some? then Number(loc.parse(raw.t).value) else raw
  }

  function Shown<T>(loc: Locale<T>, c: Cell<T>): T
    requires !c.Absent?
  {
    if c.Number? then loc.shown(c.n) else c.t
  }

  function Directed(x: int, descending: bool): int {
    if descending then -x else x
  }

  function CompareCells<T>(loc: Locale<T>, a: Cell<T>, b: Cell<T>, descending: bool): int {
    if a.Absent? then (if b.Absent? then 0 else 1)
    else if b.Absent? then -1
    else if a.Number? && b.Number? then Directed(a.n - b.n, descending)
    else Directed(loc.text(Shown(loc, a), Shown(loc, b)), descending)
  }

  function CompareRows<T>(loc: Locale<T>, key: Option<Column>, descending: bool, a: Row<T>, b: Row<T>): int {
    var primary := if key.None? then 0
                   else CompareCells(loc, CellOf(loc, a, key.value), CellOf(loc, b, key.value), descending);
    if primary != 0 then primary else loc.ids(a.id, b.id)
  }

  function RowOrder<T>(loc: Locale<T>, key: Option<Column>, descending: bool): Compare<Row<T>> {
    (a: Row<T>, b: Row<T>) => CompareRows(loc, key, descending, a, b)
  }

  /** A name outside the whitelist counts as no name. */
  function Whitelisted(sortBy: Option<Column>): Option<Column> {
    if sortBy.Some? && sortBy.value.Unlisted? then None else sortBy
  }

  function OrderEvents<T>(loc: Locale<T>, rows: seq<Row<T>>, sortBy: Option<Column>, descending: bool): seq<Row<T>> {
    Sort(RowOrder(loc, Whitelisted(sortBy), descending), rows)
  }

  // -- When a column has an order -------------------------------------------------------------------

  function CellOrder<T>(loc: Locale<T>, descending: bool): Compare<Cell<T>> {
    (a: Cell<T>, b: Cell<T>) => CompareCells(loc, a, b, descending)
  }

  /** No text stands at or before the smaller of two numbers and at or after the larger one. */
  predicate NumbersKeepStep<T(==)>(loc: Locale<T>, cells: seq<Cell<T>>) {
    forall a, b, c :: a in cells && b in cells && c in cells && a.Number? && b.Number? && c.Text? && a.n < b.n
      ==> !(loc.text(c.t, loc.shown(a.n)) <= 0 && loc.text(loc.shown(b.n), c.t) <= 0)
  }

  lemma {:induction false} CellsAreOpposite<T(!new)>(loc: Locale<T>, descending: bool)
    requires Collation(loc.text)
    ensures Opposite(CellOrder(loc, descending))
  {}

  lemma {:induction false} ThreeCells<T(!new)>(
    loc: Locale<T>, cells: seq<Cell<T>>, descending: bool, a: Cell<T>, b: Cell<T>, c: Cell<T>)
    requires Collation(loc.text) && NumbersKeepStep(loc, cells)
    requires a in cells && b in cells && c in cells
    requires CompareCells(loc, a, b, descending) <= 0 && CompareCells(loc, b, c, descending) <= 0
    ensures CompareCells(loc, a, c, descending) <= 0
  {
    if !a.Absent? && !b.Absent? && !c.Absent? {
      var x, y, z := Shown(loc, a), Shown(loc, b), Shown(loc, c);
      assert loc.text(x, z) < 0 <==> loc.text(z, x) > 0;
    }
  }

  /** The comparison of a column's cells is consistent exactly when numbers and texts keep step. */
  lemma {:induction false} ColumnHasOrderIff<T(!new)>(loc: Locale<T>, cells: seq<Cell<T>>, descending: bool)
    requires Collation(loc.text)
    ensures TransitiveOn(CellOrder(loc, descending), cells) <==> NumbersKeepStep(loc, cells)
  {
    var cmp := CellOrder(loc, descending);
    if NumbersKeepStep(loc, cells) {
      forall a, b, c | a in cells && b in cells && c in cells && cmp(a, b) <= 0 && cmp(b, c) <= 0
        ensures cmp(a, c) <= 0
      {
        ThreeCells(loc, cells, descending, a, b, c);
      }
    }
    if TransitiveOn(cmp, cells) {
      forall a, b, c | a in cells && b in cells && c in cells && a.Number? && b.Number? && c.Text? && a.n < b.n
        ensures !(loc.text(c.t, loc.shown(a.n)) <= 0 && loc.text(loc.shown(b.n), c.t) <= 0)
      {
        assert cmp(b, c) <= 0 && cmp(c, a) <= 0 ==> cmp(b, a) <= 0;
        assert cmp(a, c) <= 0 && cmp(c, b) <= 0 ==> cmp(a, b) <= 0;
      }
    }
  }

  // -- When the rows have one ------------------------------------------------------------------------

  function CellsOf<T>(loc: Locale<T>, rows: seq<Row<T>>, key: Column): (r: seq<Cell<T>>)
    ensures |r| == |rows| && forall i :: 0 <= i < |rows| ==> r[i] == CellOf(loc, rows[i], key)
  {
    seq(|rows|, i requires 0 <= i < |rows| => CellOf(loc, rows[i], key))
  }

  /** Two different numbers and a text in the chosen column. */
  predicate Mixed<T>(loc: Locale<T>, key: Option<Column>, a: Row<T>, b: Row<T>, c: Row<T>) {
    key.Some? &&
    var x, y := CellOf(loc, a, key.value), CellOf(loc, b, key.value);
    x.Number? && y.Number? && x.n != y.n && CellOf(loc, c, key.value).Text?
  }

  /** No row with a text stands, ids counted, at or after the later of two numbers and at or before the
      earlier one. */
  predicate RowsKeepStep<T(==)>(loc: Locale<T>, rows: seq<Row<T>>, key: Option<Column>, descending: bool) {
    forall a, b, c :: a in rows && b in rows && c in rows && Mixed(loc, key, a, b, c)
      && CompareRows(loc, key, descending, a, b) < 0
      ==> !(CompareRows(loc, key, descending, b, c) <= 0 && CompareRows(loc, key, descending, c, a) <= 0)
  }

  /** The producer's ids tell any two rows apart. */
  predicate DistinctIds<T>(loc: Locale<T>, rows: seq<Row<T>>) {
    forall i, j :: 0 <= i < j < |rows| ==> loc.ids(rows[i].id, rows[j].id) != 0
  }

  ghost predicate Collations<T(!new)>(loc: Locale<T>) {
    Collation(loc.text) && Collation(loc.ids)
  }

  lemma {:induction false} RowsAreOpposite<T(!new)>(loc: Locale<T>, key: Option<Column>, descending: bool)
    requires Collations(loc)
    ensures Opposite(RowOrder(loc, key, descending))
  {
    CellsAreOpposite(loc, descending);
    var cells := CellOrder(loc, descending);
    forall a: Row<T>, b: Row<T> ensures CompareRows(loc, key, descending, a, b) < 0 <==> CompareRows(loc, key, descending, b, a) > 0 {
      if key.Some? {
        var x, y := CellOf(loc, a, key.value), CellOf(loc, b, key.value);
        assert cells(x, y) < 0 <==> cells(y, x) > 0;
        assert cells(y, x) < 0 <==> cells(x, y) > 0;
      }
      assert loc.ids(a.id, b.id) < 0 <==> loc.ids(b.id, a.id) > 0;
    }
  }

  lemma {:induction false} IdsMakeStrict<T(!new)>(
    loc: Locale<T>, rows: seq<Row<T>>, key: Option<Column>, descending: bool)
    requires DistinctIds(loc, rows)
    ensures Strict(RowOrder(loc, key, descending), rows)
  {}

  /** Three cells that are all numbers or can all be compared as texts. */
  predicate OneScale<T>(x: Cell<T>, y: Cell<T>, z: Cell<T>) {
    || (x.Number? && y.Number? && z.Number?)
    || ((x.Number? && y.Number? ==> x.n == y.n) && (y.Number? && z.Number? ==> y.n == z.n)
        && (x.Number? && z.Number? ==> x.n == z.n))
  }

  /** On one scale x <= y <= z gives x <= z, and x ties with z only if all three tie. */
  lemma {:induction false} OneScaleIsOrdered<T(!new)>(
    loc: Locale<T>, descending: bool, x: Cell<T>, y: Cell<T>, z: Cell<T>)
    requires Collation(loc.text) && OneScale(x, y, z)
    requires CompareCells(loc, x, y, descending) <= 0 && CompareCells(loc, y, z, descending) <= 0
    ensures CompareCells(loc, x, z, descending) <= 0
    ensures CompareCells(loc, x, z, descending) == 0 ==>
              CompareCells(loc, x, y, descending) == 0 && CompareCells(loc, y, z, descending) == 0
  {
    if !x.Absent? && !y.Absent? && !z.Absent? && !(x.Number? && y.Number? && z.Number?) {
      var a, b, c := Shown(loc, x), Shown(loc, y), Shown(loc, z);
      assert loc.text(a, b) < 0 <==> loc.text(b, a) > 0;
      assert loc.text(b, a) < 0 <==> loc.text(a, b) > 0;
      assert loc.text(b, c) < 0 <==> loc.text(c, b) > 0;
      assert loc.text(c, b) < 0 <==> loc.text(b, c) > 0;
      assert loc.text(a, c) < 0 <==> loc.text(c, a) > 0;
      assert loc.text(c, a) < 0 <==> loc.text(a, c) > 0;
    }
  }

  lemma {:induction false} ThreeRows<T(!new)>(
    loc: Locale<T>, rows: seq<Row<T>>, key: Option<Column>, descending: bool, a: Row<T>, b: Row<T>, c: Row<T>)
    requires Collations(loc) && RowsKeepStep(loc, rows, key, descending)
    requires a in rows && b in rows && c in rows
    requires CompareRows(loc, key, descending, a, b) <= 0 && CompareRows(loc, key, descending, b, c) <= 0
    ensures CompareRows(loc, key, descending, a, c) <= 0
  {
    if key.Some? {
      var x, y, z := CellOf(loc, a, key.value), CellOf(loc, b, key.value), CellOf(loc, c, key.value);
      if OneScale(x, y, z) {
        OneScaleIsOrdered(loc, descending, x, y, z);
      } else {
        RowsAreOpposite(loc, key, descending);
        var cmp := RowOrder(loc, key, descending);
        assert cmp(a, c) > 0 <==> cmp(c, a) < 0;
      }
    }
  }

  /** The comparison of the rows is consistent exactly when the rows keep step. */
  lemma {:induction false} RowsHaveOrderIff<T(!new)>(
    loc: Locale<T>, rows: seq<Row<T>>, key: Option<Column>, descending: bool)
    requires Collations(loc)
    ensures TransitiveOn(RowOrder(loc, key, descending), rows) <==> RowsKeepStep(loc, rows, key, descending)
  {
    var cmp := RowOrder(loc, key, descending);
    RowsAreOpposite(loc, key, descending);
    if RowsKeepStep(loc, rows, key, descending) {
      forall a, b, c | a in rows && b in rows && c in rows && cmp(a, b) <= 0 && cmp(b, c) <= 0
        ensures cmp(a, c) <= 0
      {
        ThreeRows(loc, rows, key, descending, a, b, c);
      }
    }
    if TransitiveOn(cmp, rows) {
      forall a, b, c | a in rows && b in rows && c in rows && cmp(a, b) < 0
        ensures !(cmp(b, c) <= 0 && cmp(c, a) <= 0)
      {
        assert cmp(a, b) < 0 <==> cmp(b, a) > 0;
      }
    }
  }

  /** Events with ids that tell them apart have an order at all exactly when they keep step. */
  lemma {:induction false} EventsHaveOrderIff<T(!new)>(
    loc: Locale<T>, rows: seq<Row<T>>, key: Option<Column>, descending: bool)
    requires Collations(loc) && DistinctIds(loc, rows)
    ensures (exists s: seq<Row<T>> :: multiset(s) == multiset(rows) && Ordered(RowOrder(loc, key, descending), s))
       <==> RowsKeepStep(loc, rows, key, descending)
  {
    RowsAreOpposite(loc, key, descending);
    IdsMakeStrict(loc, rows, key, descending);
    OrderableIff(RowOrder(loc, key, descending), rows);
    RowsHaveOrderIff(loc, rows, key, descending);
  }

  /** A column whose cells have an order keeps the rows in step, whatever their ids. */
  lemma {:induction false} ColumnInStepSuffices<T(!new)>(
    loc: Locale<T>, rows: seq<Row<T>>, key: Column, descending: bool)
    requires Collations(loc) && NumbersKeepStep(loc, CellsOf(loc, rows, key))
    ensures RowsKeepStep(loc, rows, Some(key), descending)
  {
    var cells := CellsOf(loc, rows, key);
    forall a, b, c | a in rows && b in rows && c in rows && Mixed(loc, Some(key), a, b, c)
      && CompareRows(loc, Some(key), descending, a, b) < 0
      ensures !(CompareRows(loc, Some(key), descending, b, c) <= 0 && CompareRows(loc, Some(key), descending, c, a) <= 0)
    {
      CellAmong(loc, rows, key, a);
      CellAmong(loc, rows, key, b);
      CellAmong(loc, rows, key, c);
      MixedCells(loc, cells, descending, CellOf(loc, a, key), CellOf(loc, b, key), CellOf(loc, c, key));
    }
  }

  lemma {:induction false} MixedCells<T(!new)>(
    loc: Locale<T>, cells: seq<Cell<T>>, descending: bool, x: Cell<T>, y: Cell<T>, z: Cell<T>)
    requires Collation(loc.text) && NumbersKeepStep(loc, cells) && x in cells && y in cells && z in cells
    requires x.Number? && y.Number? && x.n != y.n && z.Text? && CompareCells(loc, x, y, descending) <= 0
    ensures !(CompareCells(loc, y, z, descending) <= 0 && CompareCells(loc, z, x, descending) <= 0)
  {
    assert loc.text(z.t, loc.shown(x.n)) < 0 <==> loc.text(loc.shown(x.n), z.t) > 0;
    assert loc.text(loc.shown(x.n), z.t) < 0 <==> loc.text(z.t, loc.shown(x.n)) > 0;
    assert loc.text(z.t, loc.shown(y.n)) < 0 <==> loc.text(loc.shown(y.n), z.t) > 0;
    assert loc.text(loc.shown(y.n), z.t) < 0 <==> loc.text(z.t, loc.shown(y.n)) > 0;
  }

  lemma {:induction false} CellAmong<T>(loc: Locale<T>, rows: seq<Row<T>>, key: Column, row: Row<T>)
    requires row in rows
    ensures CellOf(loc, row, key) in CellsOf(loc, rows, key)
  {
    var i :| 0 <= i < |rows| && rows[i] == row;
    assert CellsOf(loc, rows, key)[i] == CellOf(loc, row, key);
  }

  // -- The result --------------------------------------------------------------------------------------

  /** The result has exactly the given rows. */
  lemma {:induction false} OrderingPermutes<T(!new)>(
    loc: Locale<T>, rows: seq<Row<T>>, sortBy: Option<Column>, descending: bool)
    ensures multiset(OrderEvents(loc, rows, sortBy, descending)) == multiset(rows)
  {
    SortPermutes(RowOrder(loc, Whitelisted(sortBy), descending), rows);
  }

  /** It depends on the rows only, not on the order they came in; and any other sort of them, by any
      algorithm, gives the same list. */
  lemma {:induction false} OrderingIsUnique<T(!new)>(
    loc: Locale<T>, rows: seq<Row<T>>, other: seq<Row<T>>, sortBy: Option<Column>, descending: bool)
    requires Collations(loc) && DistinctIds(loc, rows) && RowsKeepStep(loc, rows, Whitelisted(sortBy), descending)
    requires multiset(other) == multiset(rows)
    ensures OrderEvents(loc, other, sortBy, descending) == OrderEvents(loc, rows, sortBy, descending)
    ensures Ordered(RowOrder(loc, Whitelisted(sortBy), descending), other) ==>
              other == OrderEvents(loc, rows, sortBy, descending)
  {
    var cmp := RowOrder(loc, Whitelisted(sortBy), descending);
    RowsAreOpposite(loc, Whitelisted(sortBy), descending);
    RowsHaveOrderIff(loc, rows, Whitelisted(sortBy), descending);
    IdsMakeStrict(loc, rows, Whitelisted(sortBy), descending);
    SortForgetsInputOrder(cmp, rows, other);
    if Ordered(cmp, other) {
      SortPermutes(cmp, rows);
      SortOrders(cmp, rows);
      StrictIsPermuted(cmp, rows, Sort(cmp, rows));
      OrderIsUnique(cmp, Sort(cmp, rows), other);
    }
  }

  // -- What the order is, cell by cell ----------------------------------------------------------------

  /** Nothing is stored in the column, or a null. */
  predicate HasNothing<T>(row: Row<T>, key: Column) {
    key !in row.cells || row.cells[key].Absent?
  }

  /** The number that a cell counts as: stored as one or, in the one column that holds quantities as
      texts, written as one. */
  predicate CountsAs<T>(loc: Locale<T>, row: Row<T>, key: Column, n: int) {
    key in row.cells &&
    (row.cells[key] == Number(n)
     || (key == DisplayQty && row.cells[key].Text? && loc.parse(row.cells[key].t) == Some(n)))
  }

  /** The text that a cell is. */
  predicate Reads<T(==)>(loc: Locale<T>, row: Row<T>, key: Column, t: T) {
    && key in row.cells && row.cells[key] == Text(t)
    && (key == DisplayQty ==> loc.parse(t).None?)
  }

  /** x stands before or level with y, in the direction asked. */
  predicate InDirection(x: int, descending: bool) {
    if descending then x >= 0 else x <= 0
  }

  /** The order of the result, by what the rows hold. Rows with nothing come last in either direction;
      numbers go by value, texts by the collation, a number beside a text as it is written; rows that
      are level go by their ids, always upwards. */
  lemma {:induction false} ResultGoesByCells<T(!new)>(
    loc: Locale<T>, rows: seq<Row<T>>, key: Column, descending: bool, i: nat, j: nat)
    requires Collations(loc) && RowsKeepStep(loc, rows, Some(key), descending) && !key.Unlisted?
    requires i < j < |OrderEvents(loc, rows, Some(key), descending)|
    ensures var result := OrderEvents(loc, rows, Some(key), descending);
            var a, b := result[i], result[j];
            && (HasNothing(a, key) ==> HasNothing(b, key))
            && (HasNothing(a, key) ==> loc.ids(a.id, b.id) <= 0)
            && (forall m, n :: CountsAs(loc, a, key, m) && CountsAs(loc, b, key, n) ==>
                  && InDirection(m - n, descending)
                  && (m == n ==> loc.ids(a.id, b.id) <= 0))
            && (forall t, u :: Reads(loc, a, key, t) && Reads(loc, b, key, u) ==>
                  && InDirection(loc.text(t, u), descending)
                  && (loc.text(t, u) == 0 ==> loc.ids(a.id, b.id) <= 0))
            && (forall m, u :: CountsAs(loc, a, key, m) && Reads(loc, b, key, u) ==>
                  InDirection(loc.text(loc.shown(m), u), descending))
            && (forall t, n :: Reads(loc, a, key, t) && CountsAs(loc, b, key, n) ==>
                  InDirection(loc.text(t, loc.shown(n)), descending))
  {
    var cmp := RowOrder(loc, Some(key), descending);
    RowsAreOpposite(loc, Some(key), descending);
    RowsHaveOrderIff(loc, rows, Some(key), descending);
    SortOrders(cmp, rows);
    var result := OrderEvents(loc, rows, Some(key), descending);
    assert cmp(result[i], result[j]) <= 0;
    OrderedPair(loc, key, descending, result[i], result[j]);
  }

  /** In either direction no row without a value stands before a row with one: an amount that is not
      there is not a zero. */
  lemma {:induction false} AbsentComesLast<T(!new)>(
    loc: Locale<T>, rows: seq<Row<T>>, key: Column, descending: bool, i: nat, j: nat)
    requires Collations(loc) && RowsKeepStep(loc, rows, Some(key), descending) && !key.Unlisted?
    requires i < j < |OrderEvents(loc, rows, Some(key), descending)|
    ensures var result := OrderEvents(loc, rows, Some(key), descending);
            (key in result[j].cells && !result[j].cells[key].Absent?)
              ==> (key in result[i].cells && !result[i].cells[key].Absent?)
  {
    ResultGoesByCells(loc, rows, key, descending, i, j);
  }

  /** Every cell is one of the three. */
  lemma {:induction false} EveryCellIsKnown<T>(loc: Locale<T>, row: Row<T>, key: Column)
    ensures HasNothing(row, key) || (exists n :: CountsAs(loc, row, key, n)) || (exists t :: Reads(loc, row, key, t))
  {
    if !HasNothing(row, key) {
      var cell := row.cells[key];
      if cell.Number? {
        assert CountsAs(loc, row, key, cell.n);
      } else if key == DisplayQty && loc.parse(cell.t).Some? {
        assert CountsAs(loc, row, key, loc.parse(cell.t).value);
      } else {
        assert Reads(loc, row, key, cell.t);
      }
    }
  }

  lemma {:induction false} OrderedPair<T(!new)>(loc: Locale<T>, key: Column, descending: bool, a: Row<T>, b: Row<T>)
    requires CompareRows(loc, Some(key), descending, a, b) <= 0
    ensures HasNothing(a, key) ==> HasNothing(b, key) && loc.ids(a.id, b.id) <= 0
    ensures forall m, n :: CountsAs(loc, a, key, m) && CountsAs(loc, b, key, n) ==>
              InDirection(m - n, descending) && (m == n ==> loc.ids(a.id, b.id) <= 0)
    ensures forall t, u :: Reads(loc, a, key, t) && Reads(loc, b, key, u) ==>
              InDirection(loc.text(t, u), descending) && (loc.text(t, u) == 0 ==> loc.ids(a.id, b.id) <= 0)
    ensures forall m, u :: CountsAs(loc, a, key, m) && Reads(loc, b, key, u) ==>
              InDirection(loc.text(loc.shown(m), u), descending)
    ensures forall t, n :: Reads(loc, a, key, t) && CountsAs(loc, b, key, n) ==>
              InDirection(loc.text(t, loc.shown(n)), descending)
  {}

  /** Without a column, or with one that is not whitelisted, the ids decide, upwards. */
  lemma {:induction false} ResultGoesByIds<T(!new)>(
    loc: Locale<T>, rows: seq<Row<T>>, sortBy: Option<Column>, descending: bool, i: nat, j: nat)
    requires Collations(loc) && (sortBy.Some? ==> sortBy.value.Unlisted?)
    requires i < j < |OrderEvents(loc, rows, sortBy, descending)|
    ensures var result := OrderEvents(loc, rows, sortBy, descending);
            loc.ids(result[i].id, result[j].id) <= 0
  {
    var cmp := RowOrder(loc, None, descending);
    RowsAreOpposite(loc, None, descending);
    RowsHaveOrderIff(loc, rows, None, descending);
    SortOrders(cmp, rows);
    var result := OrderEvents(loc, rows, sortBy, descending);
    assert cmp(result[i], result[j]) <= 0;
  }

  /** A column that is not whitelisted, even one the rows have, orders nothing: the ids alone decide,
      in the same direction whatever was asked. */
  lemma {:induction false} UnlistedMeansIds<T(!new)>(
    loc: Locale<T>, rows: seq<Row<T>>, name: string, descending: bool)
    requires Collations(loc) && DistinctIds(loc, rows)
    ensures OrderEvents(loc, rows, Some(Unlisted(name)), descending) == OrderEvents(loc, rows, None, false)
  {
    var up, asked := RowOrder(loc, None, false), RowOrder(loc, None, descending);
    RowsAreOpposite(loc, None, false);
    RowsAreOpposite(loc, None, descending);
    RowsHaveOrderIff(loc, rows, None, false);
    RowsHaveOrderIff(loc, rows, None, descending);
    IdsMakeStrict(loc, rows, None, false);
    SortPermutes(up, rows);
    SortPermutes(asked, rows);
    SortOrders(up, rows);
    SortOrders(asked, rows);
    StrictIsPermuted(up, rows, Sort(up, rows));
    assert forall a: Row<T>, b: Row<T> :: up(a, b) == asked(a, b);
    OrderIsUnique(up, Sort(up, rows), Sort(asked, rows));
  }

  // -- Pages ------------------------------------------------------------------------------------------------

  /** Where page k begins. */
  function Edge(size: nat, k: nat): nat {
    if k == 0 then 0 else Edge(size, k - 1) + size
  }

  function UpTo(n: nat, total: nat): (r: nat)
    ensures r <= total
  {
    if n < total then n else total
  }

  /** The rows from k * size on, `size` of them or as many as there are. */
  function Page<R>(rows: seq<R>, size: nat, k: nat): seq<R> {
    var from := UpTo(Edge(size, k), |rows|);
    rows[from..UpTo(from + size, |rows|)]
  }

  lemma {:induction false} EdgeIsProduct(size: nat, k: nat)
    ensures Edge(size, k) == k * size
  {
    if k > 0 {
      EdgeIsProduct(size, k - 1);
      assert k * size == (k - 1) * size + size;
    }
  }

  /** The rows of the first k pages. */
  function Front<R>(rows: seq<R>, size: nat, k: nat): seq<R> {
    rows[..UpTo(Edge(size, k), |rows|)]
  }

  lemma {:induction false} NextPage<R>(rows: seq<R>, size: nat, k: nat)
    ensures Front(rows, size, k) + Page(rows, size, k) == Front(rows, size, k + 1)
  {}

  function Concat<R>(pages: seq<seq<R>>): seq<R> {
    if pages == [] then [] else Concat(pages[..|pages| - 1]) + pages[|pages| - 1]
  }

  lemma {:induction false} PagesAreFront<R>(pages: seq<seq<R>>, whole: seq<R>, size: nat)
    requires forall k :: 0 <= k < |pages| ==> pages[k] == Page(whole, size, k)
    ensures Concat(pages) == Front(whole, size, |pages|)
    decreases |pages|
  {
    if pages == [] {
      assert Front(whole, size, 0) == [];
    } else {
      PagesAreFront(pages[..|pages| - 1], whole, size);
      NextPage(whole, size, |pages| - 1);
    }
  }

  /** The first n pages, page k cut from the k-th refetch of the rows, which may arrive in another
      order each time. */
  function Together<T>(
    loc: Locale<T>, fetches: nat -> seq<Row<T>>, sortBy: Option<Column>, descending: bool, size: nat, n: nat)
    : seq<Row<T>>
  {
    Concat(seq(n, k requires 0 <= k < n => Page(OrderEvents(loc, fetches(k), sortBy, descending), size, k)))
  }

  lemma {:induction false} RefetchesAgree<T(!new)>(
    loc: Locale<T>, rows: seq<Row<T>>, other: seq<Row<T>>, sortBy: Option<Column>, descending: bool)
    requires Collations(loc) && DistinctIds(loc, rows) && RowsKeepStep(loc, rows, Whitelisted(sortBy), descending)
    requires multiset(other) == multiset(rows)
    ensures OrderEvents(loc, other, sortBy, descending) == OrderEvents(loc, rows, sortBy, descending)
  {
    OrderingIsUnique(loc, rows, other, sortBy, descending);
  }

  /** Pages of separate refetches put together are the ordered whole: no row lost, none repeated. */
  lemma {:induction false} PagesMakeWhole<T(!new)>(
    loc: Locale<T>, rows: seq<Row<T>>, fetches: nat -> seq<Row<T>>, sortBy: Option<Column>, descending: bool,
    size: nat, n: nat)
    requires Collations(loc) && DistinctIds(loc, rows) && RowsKeepStep(loc, rows, Whitelisted(sortBy), descending)
    requires forall k: nat :: multiset(fetches(k)) == multiset(rows)
    ensures var whole := OrderEvents(loc, rows, sortBy, descending);
            Together(loc, fetches, sortBy, descending, size, n) == whole[..UpTo(n * size, |whole|)]
  {
    var whole := OrderEvents(loc, rows, sortBy, descending);
    var pages := seq(n, k requires 0 <= k < n => Page(OrderEvents(loc, fetches(k), sortBy, descending), size, k));
    forall k | 0 <= k < n ensures pages[k] == Page(whole, size, k) {
      RefetchesAgree(loc, rows, fetches(k), sortBy, descending);
    }
    PagesAreFront(pages, whole, size);
    EdgeIsProduct(size, n);
  }

  // -- Where it fails ----------------------------------------------------------------------------------------

  /** The English collation of digits by their value, ids and texts alike. */
  function English(): Locale<string> {
    Locale((a: string, b: string) => Collate(a, b), (a: string, b: string) => Collate(a, b),
           (n: int) => Signed(n), (t: string) => ParsedInt(t))
  }

  function Quantity(id: string, quantity: string): Row<string> {
    Row(id, map[DisplayQty := Text(quantity)])
  }

  lemma {:induction false} EnglishIsCollation()
    ensures Collations(English())
  {
    forall a: string, b: string ensures Collate(a, b) < 0 <==> Collate(b, a) > 0 {
      CollateIsOpposite(a, b);
    }
    forall a: string, b: string, c: string | Collate(a, b) <= 0 && Collate(b, c) <= 0
      ensures Collate(a, c) <= 0
    {
      CollateIsTransitive(a, b, c);
    }
  }

  lemma {:induction false} CycleHasNoOrder<R(!new)>(cmp: Compare<R>, a: R, b: R, c: R, s: seq<R>)
    requires Opposite(cmp) && Strict(cmp, [a, b, c])
    requires cmp(b, c) <= 0 && cmp(c, a) <= 0 && cmp(b, a) > 0
    requires multiset(s) == multiset([a, b, c])
    ensures !Ordered(cmp, s)
  {
    var rows := [a, b, c];
    OrderableIff(cmp, rows);
    assert a in rows && b in rows && c in rows;
    assert !TransitiveOn(cmp, rows);
  }

  lemma {:induction false} QuantityCells()
    ensures CellOf(English(), Quantity("1", "-5"), DisplayQty) == Number(-5)
    ensures CellOf(English(), Quantity("2", "-3"), DisplayQty) == Number(-3)
    ensures CellOf(English(), Quantity("3", "-4x"), DisplayQty) == Text("-4x")
  {
    MinusParses();
  }

  lemma {:induction false} QuantitiesCycle()
    ensures var cmp := RowOrder(English(), Some(DisplayQty), false);
            var a, b, c := Quantity("1", "-5"), Quantity("2", "-3"), Quantity("3", "-4x");
            cmp(b, c) <= 0 && cmp(c, a) <= 0 && cmp(b, a) > 0
  {
    QuantityCells();
    MinusParses();
    MinusCollates();
  }

  /** Quantities -5 and -3 next to the text "-4x": no arrangement is in order, so what a sort returns
      depends on the algorithm and on the order of the input. */
  lemma {:induction false} MixedQuantitiesHaveNoOrder(s: seq<Row<string>>)
    requires multiset(s) == multiset([Quantity("1", "-5"), Quantity("2", "-3"), Quantity("3", "-4x")])
    ensures !Ordered(RowOrder(English(), Some(DisplayQty), false), s)
  {
    var a, b, c := Quantity("1", "-5"), Quantity("2", "-3"), Quantity("3", "-4x");
    EnglishIsCollation();
    RowsAreOpposite(English(), Some(DisplayQty), false);
    QuantitiesCycle();
    DigitsCollate();
    IdsMakeStrict(English(), [a, b, c], Some(DisplayQty), false);
    CycleHasNoOrder(RowOrder(English(), Some(DisplayQty), false), a, b, c, s);
  }
}
